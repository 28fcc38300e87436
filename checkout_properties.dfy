/**
 * What `checkout_vm` (api/app.py:447-512) guarantees: its early exits, the
 * fixed order of the provisioning commands, the allocation that is never
 * undone, and what a 200 response says about the allocated host.
 */
module CheckoutProperties {
  import opened Wrappers
  import Text
  import Credentials
  import opened RemoteHost
  import opened RemoteClient
  import opened VmCheckout

  /** The request reaches the provisioning sequence: both fields given, a row allocated, and the row
      has a hostname. */
  predicate ProvisioningStarted(req: CheckoutRequest, allocation: Option<seq<AllocatedRow>>) {
    Truthy(req.username) && Truthy(req.avdhost) && allocation.Some? && allocation.value != []
    && !allocation.value[0].hasMessage && Truthy(allocation.value[0].hostname)
  }

  function AllocatedHost(allocation: Option<seq<AllocatedRow>>): string
    requires allocation.Some? && allocation.value != [] && Truthy(allocation.value[0].hostname)
  {
    allocation.value[0].hostname.value
  }

  // ---------------------------------------------------------------------------
  // Early exits and the allocation

  /** Past the early exits, a checkout is the provisioning sequence for the sanitised name and the
      generated password on the first row; before them it never answers 200. */
  lemma CheckoutReachesProvision(req: CheckoutRequest, draws: seq<nat>, allocation: Option<seq<AllocatedRow>>, w: Remote)
    requires |draws| == Credentials.DefaultPasswordLength
    ensures var r := Checkout(req, draws, allocation, w);
      && (ProvisioningStarted(req, allocation) ==>
            var u := Text.Sanitize(req.username.value);
            r == Provision(w, allocation.value[0], u,
                           Credentials.GenerateSecurePassword(Credentials.DefaultPasswordLength, draws),
                           [CheckoutVmCall(u, req.avdhost.value)]))
      && (!ProvisioningStarted(req, allocation) ==> !r.response.Granted? && r.world == w)
  {
  }


  /** The 400 and 409 exits and the store failure happen before any remote command; 400 exactly
      when a raw field is missing or empty, 409 exactly when the allocation gave no row or a
      `Message` row. */
  lemma CheckoutEarlyExits(req: CheckoutRequest, draws: seq<nat>, allocation: Option<seq<AllocatedRow>>, w: Remote)
    requires |draws| == Credentials.DefaultPasswordLength
    ensures var r := Checkout(req, draws, allocation, w);
      && (r.response == MissingFields <==> !Truthy(req.username) || !Truthy(req.avdhost))
      && (r.response == NoAvailableVm <==>
            (Truthy(req.username) && Truthy(req.avdhost) && allocation.Some?
             && (allocation.value == [] || allocation.value[0].hasMessage)))
      && (!ProvisioningStarted(req, allocation) ==> r.world == w)
      && (r.response == MissingFields ==> StatusCode(r.response) == 400)
      && (r.response == NoAvailableVm ==> StatusCode(r.response) == 409)
  {
    if ProvisioningStarted(req, allocation) {
      var u := Text.Sanitize(req.username.value);
      var pw := Credentials.GenerateSecurePassword(Credentials.DefaultPasswordLength, draws);
      var r := Provision(w, allocation.value[0], u, pw, [CheckoutVmCall(u, req.avdhost.value)]);
      assert r.response != MissingFields && r.response != NoAvailableVm;
    }
  }

  /** Nothing the request does releases the VM: the only store operation is the allocation, issued
      once both fields are present and kept whatever happens on the host afterwards. */
  lemma AllocationNeverUndone(req: CheckoutRequest, draws: seq<nat>, allocation: Option<seq<AllocatedRow>>, w: Remote)
    requires |draws| == Credentials.DefaultPasswordLength
    ensures var r := Checkout(req, draws, allocation, w);
      r.storeCalls == (if Truthy(req.username) && Truthy(req.avdhost) && allocation.Some?
                          then [CheckoutVmCall(Text.Sanitize(req.username.value), req.avdhost.value)]
                          else [])
  {
    if ProvisioningStarted(req, allocation) {
      var u := Text.Sanitize(req.username.value);
      var pw := Credentials.GenerateSecurePassword(Credentials.DefaultPasswordLength, draws);
      var calls := [CheckoutVmCall(u, req.avdhost.value)];
      assert Provision(w, allocation.value[0], u, pw, calls).storeCalls == calls;
    }
  }

  /** A provisioning failure answers 500 with the VM still allocated. */
  lemma ProvisioningFailureKeepsAllocation(req: CheckoutRequest, draws: seq<nat>, allocation: Option<seq<AllocatedRow>>, w: Remote)
    requires |draws| == Credentials.DefaultPasswordLength
    ensures var r := Checkout(req, draws, allocation, w);
      (r.response.UserSetupFailed? || r.response.GroupSetupFailed?) ==>
        && ProvisioningStarted(req, allocation)
        && StatusCode(r.response) == 500
        && r.storeCalls == [CheckoutVmCall(Text.Sanitize(req.username.value), req.avdhost.value)]
  {
    AllocationNeverUndone(req, draws, allocation, w);
  }

  /** The emptiness check looks at the raw username: a non-empty one made only of characters the
      sanitiser drops passes it, and the allocation runs for the empty name. */
  lemma EmptySanitisedNamePassesCheck(req: CheckoutRequest, draws: seq<nat>, allocation: Option<seq<AllocatedRow>>, w: Remote)
    requires |draws| == Credentials.DefaultPasswordLength
    requires req.username.Some? && req.username.value != ""
    requires forall i :: 0 <= i < |req.username.value| ==> !Text.IsWordChar(req.username.value[i])
    requires Truthy(req.avdhost) && allocation.Some?
    ensures var r := Checkout(req, draws, allocation, w);
      r.response != MissingFields && r.storeCalls == [CheckoutVmCall("", req.avdhost.value)]
  {
    Text.SanitizeEmpty(req.username.value);
    AllocationNeverUndone(req, draws, allocation, w);
    CheckoutEarlyExits(req, draws, allocation, w);
  }

  // ---------------------------------------------------------------------------
  // The order of the remote commands

  function Commands(ds: seq<Dispatch>): (cs: seq<Command>)
    ensures |cs| == |ds| && forall i :: 0 <= i < |ds| ==> cs[i] == ds[i].command
  {
    seq(|ds|, i requires 0 <= i < |ds| => ds[i].command)
  }

  /** `a` is `b` with some elements left out. */
  predicate Subsequence<T(==)>(a: seq<T>, b: seq<T>)
    decreases |b|
  {
    a == [] || (b != [] && ((a[0] == b[0] && Subsequence(a[1..], b[1..])) || Subsequence(a, b[1..])))
  }

  lemma {:induction false} SubsequenceWiden<T>(a: seq<T>, p: seq<T>, b: seq<T>)
    requires Subsequence(a, b)
    ensures Subsequence(a, p + b)
    decreases |p|
  {
    if p == [] {
      assert p + b == b;
    } else {
      SubsequenceWiden(a, p[1..], b);
      assert (p + b)[1..] == p[1..] + b;
    }
  }

  lemma {:induction false} SubsequenceAppend<T>(a1: seq<T>, b1: seq<T>, a2: seq<T>, b2: seq<T>)
    requires Subsequence(a1, b1) && Subsequence(a2, b2)
    ensures Subsequence(a1 + a2, b1 + b2)
    decreases |b1|
  {
    if a1 == [] {
      SubsequenceWiden(a2, b1, b2);
      assert a1 + a2 == a2;
    } else {
      assert (b1 + b2)[0] == b1[0] && (b1 + b2)[1..] == b1[1..] + b2;
      assert (a1 + a2)[0] == a1[0] && (a1 + a2)[1..] == a1[1..] + a2;
      if a1[0] == b1[0] && Subsequence(a1[1..], b1[1..]) {
        SubsequenceAppend(a1[1..], b1[1..], a2, b2);
      } else {
        SubsequenceAppend(a1, b1[1..], a2, b2);
      }
    }
  }

  predicate Extends(w: Remote, w': Remote) {
    |w.sent| <= |w'.sent| && w'.sent[..|w.sent|] == w.sent
  }

  /** The commands that depend on an earlier reply come right after it: `groupadd G` after a
      `getent group G` that failed, and `usermod -aG G U` after an `id -nG U` that did not list G;
      both of them dispatched from position `lo` on. */
  predicate Guarded(s: seq<Dispatch>, lo: nat, i: nat)
    requires i < |s|
  {
    && (s[i].command.CreateGroup? ==>
          && lo < i && s[i - 1].hostname == s[i].hostname
          && s[i - 1].command == GroupExists(s[i].command.group)
          && s[i - 1].reply.status != Success)
    && (s[i].command.AddToGroup? ==>
          && lo < i && s[i - 1].hostname == s[i].hostname
          && s[i - 1].command == GroupsOf(s[i].command.user)
          && !ListsGroup(s[i].command.group)(s[i - 1].reply))
  }

  /** Going from `w` to `w'` dispatched only to `hostname`, only commands in the order of `plan`,
      and each dependent command after the reply it depends on. */
  predicate Issued(w: Remote, w': Remote, hostname: string, plan: seq<Command>) {
    && Extends(w, w')
    && (forall i :: |w.sent| <= i < |w'.sent| ==> w'.sent[i].hostname == hostname && Guarded(w'.sent, |w.sent|, i))
    && Subsequence(Commands(w'.sent[|w.sent|..]), plan)
  }

  lemma IssuedNothing(w: Remote, hostname: string, plan: seq<Command>)
    ensures Issued(w, w, hostname, plan)
  {
    assert w.sent[|w.sent|..] == [];
    assert Commands([]) == [];
  }

  lemma IssuedWiden(w: Remote, w': Remote, hostname: string, p: seq<Command>, q: seq<Command>)
    requires Issued(w, w', hostname, p)
    ensures Issued(w, w', hostname, p + q)
  {
    var cs := Commands(w'.sent[|w.sent|..]);
    SubsequenceAppend(cs, p, [], q);
    assert cs + [] == cs;
  }

  lemma IssuedTrans(w1: Remote, w2: Remote, w3: Remote, hostname: string, p: seq<Command>, q: seq<Command>)
    requires Issued(w1, w2, hostname, p) && Issued(w2, w3, hostname, q)
    ensures Issued(w1, w3, hostname, p + q)
  {
    var n1, n2 := |w1.sent|, |w2.sent|;
    assert w3.sent[..n2] == w2.sent;
    assert w3.sent[..n1] == w2.sent[..n1];
    GuardedTrans(w1, w2, w3, hostname);
    CommandsTrans(w1, w2, w3);
    SubsequenceAppend(Commands(w2.sent[n1..]), p, Commands(w3.sent[n2..]), q);
  }

  /** The dispatches of two extensions in a row are those of each, in order. */
  lemma CommandsTrans(w1: Remote, w2: Remote, w3: Remote)
    requires Extends(w1, w2) && Extends(w2, w3)
    ensures Commands(w3.sent[|w1.sent|..]) == Commands(w2.sent[|w1.sent|..]) + Commands(w3.sent[|w2.sent|..])
  {
    var n1, n2 := |w1.sent|, |w2.sent|;
    assert w3.sent[n1..] == w2.sent[n1..] + w3.sent[n2..];
  }

  /** Each dispatch of two extensions in a row goes to `hostname` and keeps its guard. */
  lemma GuardedTrans(w1: Remote, w2: Remote, w3: Remote, hostname: string)
    requires Extends(w1, w2) && Extends(w2, w3)
    requires forall i :: |w1.sent| <= i < |w2.sent| ==> w2.sent[i].hostname == hostname && Guarded(w2.sent, |w1.sent|, i)
    requires forall i :: |w2.sent| <= i < |w3.sent| ==> w3.sent[i].hostname == hostname && Guarded(w3.sent, |w2.sent|, i)
    ensures forall i :: |w1.sent| <= i < |w3.sent| ==> w3.sent[i].hostname == hostname && Guarded(w3.sent, |w1.sent|, i)
  {
    var n1, n2 := |w1.sent|, |w2.sent|;
    forall i | n1 <= i < |w3.sent| ensures w3.sent[i].hostname == hostname && Guarded(w3.sent, n1, i) {
      if i < n2 {
        assert w3.sent[i] == w2.sent[i];
        if i > n1 { assert w3.sent[i - 1] == w2.sent[i - 1]; }
        assert Guarded(w2.sent, n1, i);
      } else {
        assert Guarded(w3.sent, n2, i);
      }
    }
  }

  /** A helper that sends a command not depending on an earlier reply. */
  lemma RunIssued(w: Remote, hostname: string, c: Command, read: Reply -> bool)
    requires !c.CreateGroup? && !c.AddToGroup?
    ensures Issued(w, Run(w, hostname, c, read).world, hostname, [c])
  {
    var s := Run(w, hostname, c, read);
    if s.result.Raised? {
      IssuedNothing(w, hostname, [c]);
    } else {
      assert s.world.sent[|w.sent|..] == [s.world.sent[|w.sent|]];
      assert Commands(s.world.sent[|w.sent|..]) == [c];
      assert Subsequence<Command>([], []);
    }
  }

  /** Two dispatches to `hostname`, the second one guarded by the first. */
  lemma IssuedPair(w: Remote, w1: Remote, w2: Remote, hostname: string, c1: Command, c2: Command)
    requires SentOne(w, w1, hostname, c1) && SentOne(w1, w2, hostname, c2)
    requires !c1.CreateGroup? && !c1.AddToGroup?
    requires c2.CreateGroup? ==> c1 == GroupExists(c2.group) && LastReply(w1).status != Success
    requires c2.AddToGroup? ==> c1 == GroupsOf(c2.user) && !ListsGroup(c2.group)(LastReply(w1))
    ensures Issued(w, w2, hostname, [c1, c2])
  {
    var n := |w.sent|;
    assert w2.sent[..n + 1] == w1.sent;
    assert w2.sent[n] == w1.sent[n];
    assert w2.sent[..n] == w1.sent[..n];
    assert Guarded(w2.sent, n, n);
    assert Guarded(w2.sent, n, n + 1);
    assert w2.sent[n..] == [w2.sent[n], w2.sent[n + 1]];
    assert Commands(w2.sent[n..]) == [c1, c2];
    assert Subsequence<Command>([c2], [c2]);
  }

  lemma EnsureGroupIssued(w: Remote, hostname: string, g: string)
    ensures Issued(w, EnsureGroup(w, hostname, g).world, hostname, [GroupExists(g), CreateGroup(g)])
  {
    var e := RemoteGroupExists(w, hostname, g);
    if e.result.Raised? || e.result.value {
      EnsureGroupFound(w, hostname, g);
    } else {
      EnsureGroupCreates(w, hostname, g);
    }
  }

  /** `getent group` raised or found the group: only that command was sent. */
  lemma EnsureGroupFound(w: Remote, hostname: string, g: string)
    requires var e := RemoteGroupExists(w, hostname, g); e.result.Raised? || e.result.value
    ensures Issued(w, EnsureGroup(w, hostname, g).world, hostname, [GroupExists(g), CreateGroup(g)])
  {
    var e := RemoteGroupExists(w, hostname, g);
    assert EnsureGroup(w, hostname, g).world == e.world;
    RunIssued(w, hostname, GroupExists(g), ExitedZero);
    IssuedWiden(w, e.world, hostname, [GroupExists(g)], [CreateGroup(g)]);
  }

  /** `getent group` answered that the group is missing: `groupadd` follows it. */
  lemma EnsureGroupCreates(w: Remote, hostname: string, g: string)
    requires var e := RemoteGroupExists(w, hostname, g); e.result.Returned? && !e.result.value
    ensures Issued(w, EnsureGroup(w, hostname, g).world, hostname, [GroupExists(g), CreateGroup(g)])
  {
    var e := RemoteGroupExists(w, hostname, g);
    var c := CreateRemoteGroup(e.world, hostname, g);
    assert EnsureGroup(w, hostname, g).world == c.world;
    if c.result.Raised? {
      RunIssued(w, hostname, GroupExists(g), ExitedZero);
      IssuedWiden(w, e.world, hostname, [GroupExists(g)], [CreateGroup(g)]);
    } else {
      assert LastReply(e.world).status != Success;
      IssuedPair(w, e.world, c.world, hostname, GroupExists(g), CreateGroup(g));
    }
  }

  /** The commands the membership loop may send, in order: for each group, `id -nG` then `usermod`. */
  function MembershipPlan(u: string, groups: seq<string>): seq<Command> {
    if groups == [] then [] else [GroupsOf(u), AddToGroup(groups[0], u)] + MembershipPlan(u, groups[1..])
  }

  /** One round of the membership loop: `id -nG`, then `usermod` when the group was not listed. */
  lemma MembershipRoundIssued(w: Remote, hostname: string, u: string, g: string)
    ensures var m := IsUserInRemoteGroup(w, hostname, u, g);
      var a := if m.result.Raised? || m.result.value then m.world else AddUserToRemoteGroup(m.world, hostname, u, g).world;
      Issued(w, a, hostname, [GroupsOf(u), AddToGroup(g, u)])
  {
    var m := IsUserInRemoteGroup(w, hostname, u, g);
    if m.result.Raised? || m.result.value {
      RunIssued(w, hostname, GroupsOf(u), ListsGroup(g));
      IssuedWiden(w, m.world, hostname, [GroupsOf(u)], [AddToGroup(g, u)]);
    } else {
      MembershipRoundAdds(w, hostname, u, g);
    }
  }

  /** `id -nG` did not list the group: `usermod` follows it. */
  lemma MembershipRoundAdds(w: Remote, hostname: string, u: string, g: string)
    requires var m := IsUserInRemoteGroup(w, hostname, u, g); m.result.Returned? && !m.result.value
    ensures var m := IsUserInRemoteGroup(w, hostname, u, g);
      Issued(w, AddUserToRemoteGroup(m.world, hostname, u, g).world, hostname, [GroupsOf(u), AddToGroup(g, u)])
  {
    var m := IsUserInRemoteGroup(w, hostname, u, g);
    var s := Run(m.world, hostname, AddToGroup(g, u), ExitedZero);
    assert AddUserToRemoteGroup(m.world, hostname, u, g).world == s.world;
    if s.result.Raised? {
      RunIssued(w, hostname, GroupsOf(u), ListsGroup(g));
      IssuedWiden(w, m.world, hostname, [GroupsOf(u)], [AddToGroup(g, u)]);
    } else {
      IssuedPair(w, m.world, s.world, hostname, GroupsOf(u), AddToGroup(g, u));
    }
  }

  lemma {:induction false} MembershipsIssued(w: Remote, hostname: string, u: string, groups: seq<string>)
    ensures Issued(w, AddMissingMemberships(w, hostname, u, groups).world, hostname, MembershipPlan(u, groups))
    decreases |groups|
  {
    if groups == [] {
      IssuedNothing(w, hostname, []);
    } else {
      var g := groups[0];
      var round: seq<Command> := [GroupsOf(u), AddToGroup(g, u)];
      var rest := MembershipPlan(u, groups[1..]);
      assert MembershipPlan(u, groups) == round + rest;
      var m := IsUserInRemoteGroup(w, hostname, u, g);
      MembershipRoundIssued(w, hostname, u, g);
      if m.result.Raised? {
        IssuedWiden(w, m.world, hostname, round, rest);
      } else {
        var a := if m.result.value then Step(m.world, Returned(())) else AddUserToRemoteGroup(m.world, hostname, u, g);
        if a.result.Raised? {
          IssuedWiden(w, a.world, hostname, round, rest);
        } else {
          var r := AddMissingMemberships(a.world, hostname, u, groups[1..]);
          assert AddMissingMemberships(w, hostname, u, groups) == r;
          MembershipsIssued(a.world, hostname, u, groups[1..]);
          IssuedTrans(w, a.world, r.world, hostname, round, rest);
        }
      }
    }
  }

  /** The full provisioning sequence of api/app.py:480-494. */
  function Plan(u: string, password: string): seq<Command> {
    [EnsureUser(u, PasswordLine(u, password))]
    + [GroupExists(TsUsers), CreateGroup(TsUsers)]
    + [GroupExists(AppUsers), CreateGroup(AppUsers)]
    + MembershipPlan(u, GroupsToAdd)
  }

  /** The provisioning sequence dispatches only to the allocated host, in the order of `Plan`. */
  lemma ProvisionIssued(w: Remote, vm: AllocatedRow, u: string, pw: string, calls: seq<StoreCall>)
    requires Truthy(vm.hostname)
    ensures Issued(w, Provision(w, vm, u, pw, calls).world, vm.hostname.value, Plan(u, pw))
  {
    var host := vm.hostname.value;
    var p1: seq<Command> := [EnsureUser(u, PasswordLine(u, pw))];
    var rest := GroupPlan(u);
    assert Plan(u, pw) == p1 + rest;
    var s := CreateOrUpdateRemoteUser(w, host, u, pw);
    RunIssued(w, host, EnsureUser(u, PasswordLine(u, pw)), ExitedZero);
    if s.result.Raised? || !s.result.value {
      IssuedWiden(w, s.world, host, p1, rest);
    } else {
      ProvisionGroupsIssued(s.world, vm, u, pw, calls);
      IssuedTrans(w, s.world, ProvisionGroups(s.world, vm, u, pw, calls).world, host, p1, rest);
    }
  }

  /** The commands after the account's: the two groups, then the memberships. */
  function GroupPlan(u: string): seq<Command> {
    [GroupExists(TsUsers), CreateGroup(TsUsers)] + [GroupExists(AppUsers), CreateGroup(AppUsers)] + MembershipPlan(u, GroupsToAdd)
  }

  lemma ProvisionGroupsIssued(w: Remote, vm: AllocatedRow, u: string, pw: string, calls: seq<StoreCall>)
    requires Truthy(vm.hostname)
    ensures Issued(w, ProvisionGroups(w, vm, u, pw, calls).world, vm.hostname.value, GroupPlan(u))
  {
    var host := vm.hostname.value;
    var p2: seq<Command> := [GroupExists(TsUsers), CreateGroup(TsUsers)];
    var rest := [GroupExists(AppUsers), CreateGroup(AppUsers)] + MembershipPlan(u, GroupsToAdd);
    assert GroupPlan(u) == p2 + rest;
    var t := EnsureGroup(w, host, TsUsers);
    EnsureGroupIssued(w, host, TsUsers);
    if t.result.Raised? || !t.result.value {
      IssuedWiden(w, t.world, host, p2, rest);
    } else {
      ProvisionMembershipsIssued(t.world, vm, u, pw, calls);
      IssuedTrans(w, t.world, ProvisionMemberships(t.world, vm, u, pw, calls).world, host, p2, rest);
    }
  }

  lemma ProvisionMembershipsIssued(w: Remote, vm: AllocatedRow, u: string, pw: string, calls: seq<StoreCall>)
    requires Truthy(vm.hostname)
    ensures Issued(w, ProvisionMemberships(w, vm, u, pw, calls).world, vm.hostname.value,
                   [GroupExists(AppUsers), CreateGroup(AppUsers)] + MembershipPlan(u, GroupsToAdd))
  {
    var host := vm.hostname.value;
    var p3: seq<Command> := [GroupExists(AppUsers), CreateGroup(AppUsers)];
    var p4 := MembershipPlan(u, GroupsToAdd);
    var a := EnsureGroup(w, host, AppUsers);
    EnsureGroupIssued(w, host, AppUsers);
    if a.result.Raised? || !a.result.value {
      assert ProvisionMemberships(w, vm, u, pw, calls).world == a.world;
      IssuedWiden(w, a.world, host, p3, p4);
    } else {
      var m := AddMissingMemberships(a.world, host, u, GroupsToAdd);
      assert ProvisionMemberships(w, vm, u, pw, calls).world == m.world;
      MembershipsIssued(a.world, host, u, GroupsToAdd);
      IssuedTrans(w, a.world, m.world, host, p3, p4);
    }
  }

  /** Every remote command of a checkout goes to the allocated host, in the order of `Plan`: the
      account, then `tsusers`, then `appusers`, then the memberships in that order. A group is
      created only after its existence check failed, and `usermod` runs only after `id -nG` did not
      list the group. */
  lemma CheckoutCommandOrder(req: CheckoutRequest, draws: seq<nat>, allocation: Option<seq<AllocatedRow>>, w: Remote)
    requires |draws| == Credentials.DefaultPasswordLength
    ensures var r := Checkout(req, draws, allocation, w);
      && (!ProvisioningStarted(req, allocation) ==> r.world == w)
      && (ProvisioningStarted(req, allocation) ==>
            Issued(w, r.world, AllocatedHost(allocation),
                   Plan(Text.Sanitize(req.username.value), Credentials.GenerateSecurePassword(Credentials.DefaultPasswordLength, draws))))
  {
    if ProvisioningStarted(req, allocation) {
      var u := Text.Sanitize(req.username.value);
      var pw := Credentials.GenerateSecurePassword(Credentials.DefaultPasswordLength, draws);
      ProvisionIssued(w, allocation.value[0], u, pw, [CheckoutVmCall(u, req.avdhost.value)]);
    }
  }
}
