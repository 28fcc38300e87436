/**
 * `checkout_vm` (api/app.py:447-512): validate the request, sanitise the
 * username, generate a password, allocate a VM through the `CheckoutVm`
 * stored procedure, then provision the account on the allocated host.
 *
 * The stored procedure is opaque: its result is the input `allocation`
 * (None: the database connection or the call raised). The database keeps
 * the allocation once the procedure has run and committed; the log
 * `storeCalls` records the store operations the request issued.
 */
module VmCheckout {
  import opened Wrappers
  import Text
  import Credentials
  import opened RemoteHost
  import opened RemoteClient

  datatype CheckoutRequest = CheckoutRequest(username: Option<string>, avdhost: Option<string>)

  /** A row of `CheckoutVm`'s result; `hasMessage` says whether it has a `Message` column. */
  datatype AllocatedRow = AllocatedRow(hasMessage: bool, vmid: Option<string>, hostname: Option<string>, ipAddress: Option<string>)

  /** The store operation a checkout issues: the `CheckoutVm` allocation. */
  datatype StoreCall = CheckoutVmCall(username: string, avdhost: string)

  datatype CheckoutResponse =
    | MissingFields
    | NoAvailableVm
    | NoHostname
    | UserSetupFailed(account: string, host: string)
    | GroupSetupFailed(group: string, host: string)
    | Unexpected
    | Granted(vmid: Option<string>, hostname: Option<string>, ipAddress: Option<string>, password: string)

  function StatusCode(r: CheckoutResponse): int {
    match r
    case MissingFields => 400
    case NoAvailableVm => 409
    case Granted(_, _, _, _) => 200
    case _ => 500
  }

  datatype CheckoutResult = CheckoutResult(response: CheckoutResponse, world: Remote, storeCalls: seq<StoreCall>)

  const TsUsers: string := "tsusers"
  const AppUsers: string := "appusers"
  const GroupsToAdd: seq<string> := [TsUsers, AppUsers]

  /** `if not remote_group_exists(h, g): if not create_remote_group(h, g): ...` (api/app.py:484-490):
      True when the group exists or was created. */
  function EnsureGroup(w: Remote, hostname: string, group: string): Step<bool> {
    var e := RemoteGroupExists(w, hostname, group);
    if e.result.Raised? || e.result.value then e
    else CreateRemoteGroup(e.world, hostname, group)
  }

  /** The loop `for group in groups_to_add` (api/app.py:492-494): add the user to each group it is
      not listed in. Only an exception from a helper ends it early. */
  function AddMissingMemberships(w: Remote, hostname: string, username: string, groups: seq<string>): Step<()>
    decreases |groups|
  {
    if groups == [] then Step(w, Returned(()))
    else
      var m := IsUserInRemoteGroup(w, hostname, username, groups[0]);
      if m.result.Raised? then Step(m.world, Raised)
      else
        var a := if m.result.value then Step(m.world, Returned(())) else AddUserToRemoteGroup(m.world, hostname, username, groups[0]);
        if a.result.Raised? then a
        else AddMissingMemberships(a.world, hostname, username, groups[1..])
  }

  /** The provisioning sequence on the allocated host (api/app.py:478-503): the account first. */
  function Provision(w: Remote, vm: AllocatedRow, username: string, password: string, calls: seq<StoreCall>): (r: CheckoutResult)
    requires Truthy(vm.hostname)
    ensures r.storeCalls == calls
    ensures r.response.Unexpected? || r.response.UserSetupFailed? || r.response.GroupSetupFailed? || r.response.Granted?
    ensures r.response.Granted? ==> r.response.password == password && r.response.hostname == vm.hostname
  {
    var hostname := vm.hostname.value;
    var s := CreateOrUpdateRemoteUser(w, hostname, username, password);
    if s.result.Raised? then CheckoutResult(Unexpected, s.world, calls)
    else if !s.result.value then CheckoutResult(UserSetupFailed(username, hostname), s.world, calls)
    else ProvisionGroups(s.world, vm, username, password, calls)
  }

  /** Then `tsusers` (api/app.py:484-486). */
  function ProvisionGroups(w: Remote, vm: AllocatedRow, username: string, password: string, calls: seq<StoreCall>): (r: CheckoutResult)
    requires Truthy(vm.hostname)
    ensures r.storeCalls == calls
    ensures r.response.Unexpected? || r.response.GroupSetupFailed? || r.response.Granted?
    ensures r.response.Granted? ==> r.response.password == password && r.response.hostname == vm.hostname
  {
    var hostname := vm.hostname.value;
    var t := EnsureGroup(w, hostname, TsUsers);
    if t.result.Raised? then CheckoutResult(Unexpected, t.world, calls)
    else if !t.result.value then CheckoutResult(GroupSetupFailed(TsUsers, hostname), t.world, calls)
    else ProvisionMemberships(t.world, vm, username, password, calls)
  }

  /** Then `appusers` and the memberships (api/app.py:488-503). */
  function ProvisionMemberships(w: Remote, vm: AllocatedRow, username: string, password: string, calls: seq<StoreCall>): (r: CheckoutResult)
    requires Truthy(vm.hostname)
    ensures r.storeCalls == calls
    ensures r.response.Unexpected? || r.response.GroupSetupFailed? || r.response.Granted?
    ensures r.response.Granted? ==> r.response.password == password && r.response.hostname == vm.hostname
  {
    var hostname := vm.hostname.value;
    var a := EnsureGroup(w, hostname, AppUsers);
    if a.result.Raised? then CheckoutResult(Unexpected, a.world, calls)
    else if !a.result.value then CheckoutResult(GroupSetupFailed(AppUsers, hostname), a.world, calls)
    else
      var m := AddMissingMemberships(a.world, hostname, username, GroupsToAdd);
      if m.result.Raised? then CheckoutResult(Unexpected, m.world, calls)
      else CheckoutResult(Granted(vm.vmid, vm.hostname, vm.ipAddress, password), m.world, calls)
  }

  /** What `checkout_vm` does, as a function of the request, the random draws for the password,
      the allocation's result and the remote world. */
  function Checkout(req: CheckoutRequest, draws: seq<nat>, allocation: Option<seq<AllocatedRow>>, w: Remote): CheckoutResult
    requires |draws| == Credentials.DefaultPasswordLength
  {
    if !Truthy(req.username) || !Truthy(req.avdhost) then CheckoutResult(MissingFields, w, [])
    else
      var username := Text.Sanitize(req.username.value);
      var password := Credentials.GenerateSecurePassword(Credentials.DefaultPasswordLength, draws);
      if allocation.None? then CheckoutResult(Unexpected, w, [])
      else
        var rows := allocation.value;
        var calls := [CheckoutVmCall(username, req.avdhost.value)];
        if rows == [] || rows[0].hasMessage then CheckoutResult(NoAvailableVm, w, calls)
        else if !Truthy(rows[0].hostname) then CheckoutResult(NoHostname, w, calls)
        else Provision(w, rows[0], username, password, calls)
  }

  /** `checkout_vm`, step by step with its early returns and its loop over the groups. */
  method CheckoutVm(req: CheckoutRequest, draws: seq<nat>, allocation: Option<seq<AllocatedRow>>, w: Remote)
    returns (r: CheckoutResult)
    requires |draws| == Credentials.DefaultPasswordLength
    ensures r == Checkout(req, draws, allocation, w)
  {
    if !Truthy(req.username) || !Truthy(req.avdhost) {
      return CheckoutResult(MissingFields, w, []);
    }
    var username := Text.Sanitize(req.username.value);
    var password := Credentials.GenerateSecurePassword(Credentials.DefaultPasswordLength, draws);
    if allocation.None? {
      return CheckoutResult(Unexpected, w, []);
    }
    var rows := allocation.value;
    var calls := [CheckoutVmCall(username, req.avdhost.value)];
    if rows == [] || rows[0].hasMessage {
      return CheckoutResult(NoAvailableVm, w, calls);
    }
    var vm := rows[0];
    if !Truthy(vm.hostname) {
      return CheckoutResult(NoHostname, w, calls);
    }
    var hostname := vm.hostname.value;

    var s := CreateOrUpdateRemoteUser(w, hostname, username, password);
    if s.result.Raised? {
      return CheckoutResult(Unexpected, s.world, calls);
    }
    if !s.result.value {
      return CheckoutResult(UserSetupFailed(username, hostname), s.world, calls);
    }
    var world := s.world;

    var found := RemoteGroupExists(world, hostname, TsUsers);
    world := found.world;
    if found.result.Raised? {
      return CheckoutResult(Unexpected, world, calls);
    }
    if !found.result.value {
      var created := CreateRemoteGroup(world, hostname, TsUsers);
      world := created.world;
      if created.result.Raised? {
        return CheckoutResult(Unexpected, world, calls);
      }
      if !created.result.value {
        return CheckoutResult(GroupSetupFailed(TsUsers, hostname), world, calls);
      }
    }

    found := RemoteGroupExists(world, hostname, AppUsers);
    world := found.world;
    if found.result.Raised? {
      return CheckoutResult(Unexpected, world, calls);
    }
    if !found.result.value {
      var created := CreateRemoteGroup(world, hostname, AppUsers);
      world := created.world;
      if created.result.Raised? {
        return CheckoutResult(Unexpected, world, calls);
      }
      if !created.result.value {
        return CheckoutResult(GroupSetupFailed(AppUsers, hostname), world, calls);
      }
    }

    var m := AddMissingMembershipsLoop(world, hostname, username, GroupsToAdd);
    if m.result.Raised? {
      return CheckoutResult(Unexpected, m.world, calls);
    }
    world := m.world;
    return CheckoutResult(Granted(vm.vmid, vm.hostname, vm.ipAddress, password), world, calls);
  }

  /** The loop over `groups_to_add` (api/app.py:490-494), called with `GroupsToAdd`; an exception
      from a helper leaves it. */
  method AddMissingMembershipsLoop(w: Remote, hostname: string, username: string, groups: seq<string>)
    returns (s: Step<()>)
    ensures s == AddMissingMemberships(w, hostname, username, groups)
  {
    var world := w;
    var i := 0;
    while i < |groups|
      invariant 0 <= i <= |groups|
      invariant AddMissingMemberships(world, hostname, username, groups[i..])
             == AddMissingMemberships(w, hostname, username, groups)
    {
      var group := groups[i];
      assert groups[i..][0] == group && groups[i..][1..] == groups[i + 1..];
      var member := IsUserInRemoteGroup(world, hostname, username, group);
      world := member.world;
      if member.result.Raised? {
        return Step(world, Raised);
      }
      if !member.result.value {
        var added := AddUserToRemoteGroup(world, hostname, username, group);
        world := added.world;
        if added.result.Raised? {
          return added;
        }
      }
      i := i + 1;
    }
    assert groups[i..] == [];
    return Step(world, Returned(()));
  }
}
