/**
 * The scheduled tasks (task/function_app.py): three timers that call the pool
 * API with a managed-identity bearer token. `trigger_return_released_vms` and
 * `time_triggered_scaling` each post once; `test_vm_connectivity` lists the
 * VMs, probes port 22 of every VM that has an IP address and posts its network
 * status back.
 *
 * The outside world is given as values: the configured API URL, the access
 * token (None: `get_token` raised), the listing reply, the exit status of the
 * probe command (`probe`), and the reply to the k-th update post of the run
 * (`reply(k)`). What a task does is the sequence of HTTP requests it issues.
 */
module ScheduledTasks {
  import opened Wrappers
  import Text
  import Authorization
  import PoolApi

  // ---------------------------------------------------------------------------
  // Requests

  datatype Verb = Get | Post

  /** The JSON body of an update: `vmid` is sent as it was listed (None: JSON null). */
  datatype UpdateBody = UpdateBody(vmid: Option<string>, powerstate: string, networkstatus: string, vmstatus: string)

  datatype Request = Request(verb: Verb, url: string, headers: map<string, string>, body: Option<UpdateBody>)

  /** `get_headers` (task/function_app.py:25-33), given what `get_access_token` returned. */
  function GetHeaders(token: Option<string>): (h: Option<map<string, string>>)
    ensures h.None? <==> !Truthy(token)
    ensures h.Some? ==> h.value.Keys == {"Authorization"}
  {
    if !Truthy(token) then None else Some(map["Authorization" := "Bearer " + token.value])
  }

  /** The two guards every timer starts with: `API_URL` must be set and a token obtained. */
  function TimerHeaders(apiUrl: Option<string>, token: Option<string>): (h: Option<map<string, string>>)
    ensures h.Some? <==> Truthy(apiUrl) && Truthy(token)
  {
    if !Truthy(apiUrl) then None else GetHeaders(token)
  }

  /** A timer that posts once to `path` (`trigger_return_released_vms`, `time_triggered_scaling`);
      the reply is only logged. */
  function TriggerOnce(apiUrl: Option<string>, token: Option<string>, path: string): seq<Request> {
    var h := TimerHeaders(apiUrl, token);
    if h.None? then [] else [Request(Post, apiUrl.value + path, h.value, None)]
  }

  /** `trigger_return_released_vms` (task/function_app.py:43-70). */
  function TriggerReturnReleasedVms(apiUrl: Option<string>, token: Option<string>): seq<Request> {
    TriggerOnce(apiUrl, token, "/vms/released")
  }

  /** `time_triggered_scaling` (task/function_app.py:161-189). */
  function TimeTriggeredScaling(apiUrl: Option<string>, token: Option<string>): seq<Request> {
    TriggerOnce(apiUrl, token, "/scaling/trigger")
  }

  // ---------------------------------------------------------------------------
  // The connectivity probe (task/function_app.py:75-149)

  /** A listed VM; a field the entry lacks reads as None (`vm.get`). */
  datatype ListedVm = ListedVm(vmid: Option<string>, ipAddress: Option<string>)

  /** The reply to `GET /vms`: the request raised, or a status and the listed VMs. */
  datatype Listing = ListingRaised | ListingReply(status: int, vms: seq<ListedVm>)

  /** What running the probe command gave: its exit status, or an exception. */
  datatype ProbeOutcome = ExitStatus(code: int) | ProbeRaised

  /** The reply to an update post: a status code, or an exception (connection error). */
  datatype PostReply = PostStatus(code: int) | PostRaised

  /** The shell command that tests port 22. */
  function ProbeCommand(ip: string): string {
    "curl -v telnet://" + ip + ":22 > /dev/null 2>&1"
  }

  /** `'Reachable' if response_code == 0 else 'Unreachable'`, and `'Unreachable'` when the probe raised. */
  function NetworkStatus(o: ProbeOutcome): (s: string)
    ensures s == "Reachable" <==> o == ExitStatus(0)
    ensures s == "Reachable" || s == "Unreachable"
  {
    if o.ProbeRaised? then "Unreachable" else if o.code == 0 then "Reachable" else "Unreachable"
  }

  /** `str(x)` of an optional string: None prints as `None`. */
  function PyStr(x: Option<string>): string {
    if x.None? then "None" else x.value
  }

  /** The update posted for one VM that has an IP address. */
  function UpdateRequest(base: string, h: map<string, string>, vm: ListedVm, probe: string -> ProbeOutcome): Request
    requires Truthy(vm.ipAddress)
  {
    var status := NetworkStatus(probe(ProbeCommand(vm.ipAddress.value)));
    Request(Post, base + "/vms/" + PyStr(vm.vmid) + "/update-attributes", h,
            Some(UpdateBody(vm.vmid, "null", status, "null")))
  }

  /** The loop `for vm in vms` once `k` updates have been posted: a VM without an IP address is
      skipped, a reply that raises ends the scan, any status code lets it go on. */
  function ProbeLoop(base: string, h: map<string, string>, vms: seq<ListedVm>,
                     probe: string -> ProbeOutcome, reply: nat -> PostReply, k: nat): seq<Request>
    decreases |vms|
  {
    if vms == [] then []
    else if !Truthy(vms[0].ipAddress) then ProbeLoop(base, h, vms[1..], probe, reply, k)
    else
      var req := UpdateRequest(base, h, vms[0], probe);
      if reply(k).PostRaised? then [req]
      else [req] + ProbeLoop(base, h, vms[1..], probe, reply, k + 1)
  }

  /** `test_vm_connectivity`: the requests it issues. */
  function ConnectivityRequests(apiUrl: Option<string>, token: Option<string>, listing: Listing,
                                probe: string -> ProbeOutcome, reply: nat -> PostReply): seq<Request>
  {
    var h := TimerHeaders(apiUrl, token);
    if h.None? then []
    else
      var get := Request(Get, apiUrl.value + "/vms", h.value, None);
      if listing.ListingRaised? || listing.status != 200 then [get]
      else [get] + ProbeLoop(apiUrl.value, h.value, listing.vms, probe, reply, 0)
  }

  /** `test_vm_connectivity`, one VM at a time. */
  method TestVmConnectivity(apiUrl: Option<string>, token: Option<string>, listing: Listing,
                            probe: string -> ProbeOutcome, reply: nat -> PostReply)
    returns (sent: seq<Request>)
    ensures sent == ConnectivityRequests(apiUrl, token, listing, probe, reply)
  {
    if !Truthy(apiUrl) {
      return [];
    }
    var headers := GetHeaders(token);
    if headers.None? {
      return [];
    }
    var base, h := apiUrl.value, headers.value;
    sent := [Request(Get, base + "/vms", h, None)];
    if listing.ListingRaised? || listing.status != 200 {
      return;
    }
    var vms := listing.vms;
    var posts := 0;
    for i := 0 to |vms|
      invariant sent + ProbeLoop(base, h, vms[i..], probe, reply, posts)
             == ConnectivityRequests(apiUrl, token, listing, probe, reply)
    {
      assert vms[i..][1..] == vms[i + 1..];
      var vm := vms[i];
      if !Truthy(vm.ipAddress) {
        continue;
      }
      var outcome := probe(ProbeCommand(vm.ipAddress.value));
      var status;
      if outcome.ProbeRaised? {
        status := "Unreachable";
      } else {
        status := if outcome.code == 0 then "Reachable" else "Unreachable";
      }
      var body := UpdateBody(vm.vmid, "null", status, "null");
      sent := sent + [Request(Post, base + "/vms/" + PyStr(vm.vmid) + "/update-attributes", h, Some(body))];
      var answer := reply(posts);
      posts := posts + 1;
      if answer.PostRaised? {
        return;
      }
    }
    assert vms[|vms|..] == [];
  }

  // ---------------------------------------------------------------------------
  // Properties

  /** Without `API_URL` or without an access token no timer issues any request; with both, each
      starts with its one request to the API. */
  lemma TimerGuards(apiUrl: Option<string>, token: Option<string>, listing: Listing,
                    probe: string -> ProbeOutcome, reply: nat -> PostReply)
    ensures !Truthy(apiUrl) || !Truthy(token) ==>
      && TriggerReturnReleasedVms(apiUrl, token) == []
      && TimeTriggeredScaling(apiUrl, token) == []
      && ConnectivityRequests(apiUrl, token, listing, probe, reply) == []
    ensures Truthy(apiUrl) && Truthy(token) ==>
      && TriggerReturnReleasedVms(apiUrl, token) == [Request(Post, apiUrl.value + "/vms/released", GetHeaders(token).value, None)]
      && TimeTriggeredScaling(apiUrl, token) == [Request(Post, apiUrl.value + "/scaling/trigger", GetHeaders(token).value, None)]
      && var c := ConnectivityRequests(apiUrl, token, listing, probe, reply);
         |c| >= 1 && c[0] == Request(Get, apiUrl.value + "/vms", GetHeaders(token).value, None)
  {
  }

  /** The header the timers send carries the token back to the API's `token_required`: parsing it
      gives the very token that was obtained. */
  lemma HeadersRoundTrip(token: string)
    requires Text.IsToken(token)
    ensures GetHeaders(Some(token)).Some?
    ensures Authorization.ParseAuthorization(Some(GetHeaders(Some(token)).value["Authorization"])) == Some(token)
  {
    Authorization.BearerRoundTrip(token);
  }

  /** A listing that raises or answers other than 200 ends the probe after the listing request:
      no update is posted. */
  lemma ListingFailureNoUpdates(apiUrl: Option<string>, token: Option<string>, listing: Listing,
                                probe: string -> ProbeOutcome, reply: nat -> PostReply)
    requires Truthy(apiUrl) && Truthy(token)
    requires listing.ListingRaised? || listing.status != 200
    ensures var c := ConnectivityRequests(apiUrl, token, listing, probe, reply);
      |c| == 1 && c[0].verb == Get && forall r :: r in c ==> r.body.None?
  {
  }

  /** The VMs that have an IP address, in listing order. */
  function WithIp(vms: seq<ListedVm>): (w: seq<ListedVm>)
    ensures |w| <= |vms|
    ensures forall j :: 0 <= j < |w| ==> Truthy(w[j].ipAddress)
  {
    if vms == [] then []
    else (if Truthy(vms[0].ipAddress) then [vms[0]] else []) + WithIp(vms[1..])
  }

  /** The VMs with an IP address are exactly the listed ones that have one. */
  lemma {:induction false} WithIpMembers(vms: seq<ListedVm>)
    ensures forall v :: v in WithIp(vms) <==> v in vms && Truthy(v.ipAddress)
    decreases |vms|
  {
    if vms != [] {
      WithIpMembers(vms[1..]);
      assert vms == [vms[0]] + vms[1..];
    }
  }

  /** One update per VM of `w`, in order. */
  function UpdatesFor(base: string, h: map<string, string>, w: seq<ListedVm>, probe: string -> ProbeOutcome): (u: seq<Request>)
    requires forall j :: 0 <= j < |w| ==> Truthy(w[j].ipAddress)
    ensures |u| == |w|
    ensures forall j :: 0 <= j < |w| ==> u[j] == UpdateRequest(base, h, w[j], probe)
  {
    if w == [] then [] else [UpdateRequest(base, h, w[0], probe)] + UpdatesFor(base, h, w[1..], probe)
  }

  /** The reference run where every post is answered: one update per VM with an IP address, in
      listing order. */
  function AllUpdates(base: string, h: map<string, string>, vms: seq<ListedVm>, probe: string -> ProbeOutcome): seq<Request> {
    UpdatesFor(base, h, WithIp(vms), probe)
  }

  /** The reference run of a listing is the first VM's update, if it has an IP address, followed
      by the reference run of the rest. */
  lemma AllUpdatesCons(base: string, h: map<string, string>, vms: seq<ListedVm>, probe: string -> ProbeOutcome)
    requires vms != []
    ensures AllUpdates(base, h, vms, probe)
         == (if Truthy(vms[0].ipAddress) then [UpdateRequest(base, h, vms[0], probe)] else [])
            + AllUpdates(base, h, vms[1..], probe)
  {
    var w, w' := WithIp(vms), WithIp(vms[1..]);
    if Truthy(vms[0].ipAddress) {
      assert w == [vms[0]] + w';
      assert w[1..] == w';
    } else {
      assert w == w';
    }
  }

  /** The scan posts a prefix of the reference updates, in listing order. */
  lemma {:induction false} ProbeLoopPrefix(base: string, h: map<string, string>, vms: seq<ListedVm>,
                                           probe: string -> ProbeOutcome, reply: nat -> PostReply, k: nat)
    ensures |ProbeLoop(base, h, vms, probe, reply, k)| <= |AllUpdates(base, h, vms, probe)|
    ensures var p := ProbeLoop(base, h, vms, probe, reply, k);
      p == AllUpdates(base, h, vms, probe)[..|p|]
    decreases |vms|
  {
    if vms != [] {
      var rest := vms[1..];
      var p := ProbeLoop(base, h, vms, probe, reply, k);
      var e := AllUpdates(base, h, vms, probe);
      var e' := AllUpdates(base, h, rest, probe);
      AllUpdatesCons(base, h, vms, probe);
      if !Truthy(vms[0].ipAddress) {
        ProbeLoopPrefix(base, h, rest, probe, reply, k);
        assert p == ProbeLoop(base, h, rest, probe, reply, k) && e == e';
      } else {
        var req := UpdateRequest(base, h, vms[0], probe);
        assert e == [req] + e';
        if reply(k).PostRaised? {
          assert p == [req];
          assert e[..1] == [req];
        } else {
          ProbeLoopPrefix(base, h, rest, probe, reply, k + 1);
          var p' := ProbeLoop(base, h, rest, probe, reply, k + 1);
          assert p == [req] + p';
          assert e[..|p|] == [req] + e'[..|p'|];
        }
      }
    }
  }

  /** Every post but the last of a scan was answered with a status code, whatever its value. */
  lemma {:induction false} ProbeLoopEarlierAnswered(base: string, h: map<string, string>, vms: seq<ListedVm>,
                                                    probe: string -> ProbeOutcome, reply: nat -> PostReply, k: nat)
    ensures var p := ProbeLoop(base, h, vms, probe, reply, k);
      forall i :: k <= i < k + |p| - 1 ==> !reply(i).PostRaised?
    decreases |vms|
  {
    if vms != [] {
      var rest := vms[1..];
      if !Truthy(vms[0].ipAddress) {
        ProbeLoopEarlierAnswered(base, h, rest, probe, reply, k);
      } else if !reply(k).PostRaised? {
        ProbeLoopEarlierAnswered(base, h, rest, probe, reply, k + 1);
        var p' := ProbeLoop(base, h, rest, probe, reply, k + 1);
        assert |ProbeLoop(base, h, vms, probe, reply, k)| == 1 + |p'|;
      }
    }
  }

  /** The scan stops short of the reference run only right after a post whose reply raised. */
  lemma {:induction false} ProbeLoopStopsAtRaise(base: string, h: map<string, string>, vms: seq<ListedVm>,
                                                 probe: string -> ProbeOutcome, reply: nat -> PostReply, k: nat)
    ensures var p := ProbeLoop(base, h, vms, probe, reply, k);
      |p| < |WithIp(vms)| ==> |p| > 0 && reply(k + |p| - 1).PostRaised?
    decreases |vms|
  {
    if vms != [] {
      var rest := vms[1..];
      var p := ProbeLoop(base, h, vms, probe, reply, k);
      if !Truthy(vms[0].ipAddress) {
        ProbeLoopStopsAtRaise(base, h, rest, probe, reply, k);
        assert p == ProbeLoop(base, h, rest, probe, reply, k);
        assert WithIp(vms) == WithIp(rest);
      } else {
        assert |WithIp(vms)| == 1 + |WithIp(rest)|;
        if reply(k).PostRaised? {
          assert |p| == 1;
        } else {
          ProbeLoopStopsAtRaise(base, h, rest, probe, reply, k + 1);
          var p' := ProbeLoop(base, h, rest, probe, reply, k + 1);
          assert |p| == 1 + |p'|;
        }
      }
    }
  }

  /** When no reply raises, every reference update is posted. */
  lemma {:induction false} ProbeLoopAllAnswered(base: string, h: map<string, string>, vms: seq<ListedVm>,
                                                probe: string -> ProbeOutcome, reply: nat -> PostReply, k: nat)
    requires forall i :: k <= i < k + |AllUpdates(base, h, vms, probe)| ==> !reply(i).PostRaised?
    ensures ProbeLoop(base, h, vms, probe, reply, k) == AllUpdates(base, h, vms, probe)
    decreases |vms|
  {
    if vms != [] {
      var rest := vms[1..];
      var e := AllUpdates(base, h, vms, probe);
      var e' := AllUpdates(base, h, rest, probe);
      AllUpdatesCons(base, h, vms, probe);
      if !Truthy(vms[0].ipAddress) {
        assert e == e';
        ProbeLoopAllAnswered(base, h, rest, probe, reply, k);
      } else {
        var req := UpdateRequest(base, h, vms[0], probe);
        assert e == [req] + e';
        assert !reply(k).PostRaised?;
        ProbeLoopAllAnswered(base, h, rest, probe, reply, k + 1);
      }
    }
  }

  /** Every update carries the network status, with power state and VM status set to the string
      `'null'`, which the API passes on to `UpdateVmAttributes` as it is (api/app.py:529-533); the
      network status is `Reachable` exactly when the probe command exited with 0,
      the post goes to the VM's own update URL, and the API accepts it as an update with at least
      one attribute. */
  lemma UpdateShape(base: string, h: map<string, string>, vm: ListedVm, probe: string -> ProbeOutcome)
    requires Truthy(vm.ipAddress)
    ensures var r := UpdateRequest(base, h, vm, probe);
      && r.verb == Post && r.headers == h && r.body.Some?
      && r.url == base + "/vms/" + PyStr(vm.vmid) + "/update-attributes"
      && r.body.value.vmid == vm.vmid
      && r.body.value.powerstate == "null" && r.body.value.vmstatus == "null"
      && (r.body.value.networkstatus == "Reachable" <==> probe(ProbeCommand(vm.ipAddress.value)) == ExitStatus(0))
      && PoolApi.HasAttributeToUpdate(PoolApi.AttributeUpdate(Some(r.body.value.powerstate),
                                                              Some(r.body.value.networkstatus),
                                                              Some(r.body.value.vmstatus)))
  {
  }

  /** With the listing answered 200 and no post raising, the probe issues the listing request and
      then exactly one update per VM with an IP address, in listing order; a VM without an IP
      address gets no update. */
  lemma ConnectivityOutcome(apiUrl: Option<string>, token: Option<string>, vms: seq<ListedVm>,
                            probe: string -> ProbeOutcome, reply: nat -> PostReply)
    requires Truthy(apiUrl) && Truthy(token)
    requires forall k: nat :: !reply(k).PostRaised?
    ensures var c := ConnectivityRequests(apiUrl, token, ListingReply(200, vms), probe, reply);
      var w := WithIp(vms);
      && |c| == 1 + |w|
      && forall j :: 0 <= j < |w| ==> c[1 + j] == UpdateRequest(apiUrl.value, GetHeaders(token).value, w[j], probe)
  {
    var h := GetHeaders(token).value;
    ProbeLoopAllAnswered(apiUrl.value, h, vms, probe, reply, 0);
    assert ProbeLoop(apiUrl.value, h, vms, probe, reply, 0) == UpdatesFor(apiUrl.value, h, WithIp(vms), probe);
  }
}
