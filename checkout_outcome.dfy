/**
 * What a 200 from `checkout_vm` (api/app.py:447-512) says about the allocated
 * host. When bash reads the returned password as literal text: the account
 * exists with that reading (the password itself iff it holds no `'`), both
 * groups exist, and for each group the account is a member unless the
 * `usermod` that should have added it never reached the host. That case still
 * answers 200: `add_user_to_remote_group` only logs its failures. When the
 * password makes the chpasswd line hold shell code, a 200 only says that the
 * code's run exited 0.
 */
module CheckoutOutcome {
  import opened Wrappers
  import Text
  import Shell
  import Credentials
  import opened RemoteHost
  import opened RemoteClient
  import opened VmCheckout
  import opened CheckoutProperties

  // ---------------------------------------------------------------------------
  // Commands after the account's only add to the host

  /** `h'` keeps every group and account of `h`, each account's password and each account's groups. */
  predicate HostGrows(h: Host, h': Host) {
    && h.groups <= h'.groups
    && (forall a :: a in h.accounts ==>
          && a in h'.accounts
          && h'.accounts[a].password == h.accounts[a].password
          && (forall g :: g in h.accounts[a].groups ==> g in h'.accounts[a].groups))
  }

  /** From `w` to `w'`: more dispatches, the host `hostname` only grew, and the hosts stay well
      formed. */
  predicate Grows(w: Remote, w': Remote, hostname: string) {
    && Extends(w, w')
    && (hostname in w.hosts ==> hostname in w'.hosts && HostGrows(w.hosts[hostname], w'.hosts[hostname]))
    && (AllWF(w) ==> AllWF(w'))
  }

  lemma GrowsRefl(w: Remote, hostname: string)
    ensures Grows(w, w, hostname)
  {
    assert w.sent[..|w.sent|] == w.sent;
  }

  lemma GrowsTrans(w1: Remote, w2: Remote, w3: Remote, hostname: string)
    requires Grows(w1, w2, hostname) && Grows(w2, w3, hostname)
    ensures Grows(w1, w3, hostname)
  {
    assert w3.sent[..|w1.sent|] == w3.sent[..|w2.sent|][..|w1.sent|];
  }

  /** Every command except the account's own keeps what the host already has. */
  lemma ExecGrows(h: Host, c: Command)
    requires !c.EnsureUser? && !c.DeleteUser?
    ensures HostGrows(h, Exec(h, c).host)
  {
    match c
    case GroupExists(g) =>
    case CreateGroup(g) =>
    case GroupsOf(u) =>
    case AddToGroup(g, u) =>
      var h' := Exec(h, c).host;
      forall a | a in h.accounts
        ensures a in h'.accounts && h'.accounts[a].password == h.accounts[a].password
        ensures forall g' :: g' in h.accounts[a].groups ==> g' in h'.accounts[a].groups
      {
        if u in h.accounts && g in h.groups && a == u {
          var gs := h.accounts[u].groups;
          assert h'.accounts[a].groups == if g in gs then gs else gs + [g];
        }
      }
  }

  /** A helper running such a command makes the host grow. */
  lemma RunGrows(w: Remote, hostname: string, c: Command, read: Reply -> bool)
    requires !c.EnsureUser? && !c.DeleteUser?
    ensures Grows(w, Run(w, hostname, c, read).world, hostname)
  {
    var s := Run(w, hostname, c, read);
    if s.result.Raised? {
      GrowsRefl(w, hostname);
    } else {
      RunEffect(w, hostname, c, read);
      if AllWF(w) { RunPreservesWF(w, hostname, c, read); }
      if Reachable(w, hostname) { ExecGrows(w.hosts[hostname], c); }
    }
  }

  /** `tsusers`/`appusers` step: the host grows, and a True result means the group is there. */
  lemma EnsureGroupOutcome(w: Remote, hostname: string, g: string)
    requires g != ""
    ensures var e := EnsureGroup(w, hostname, g);
      && Grows(w, e.world, hostname)
      && (e.result.Returned? && e.result.value ==> hostname in e.world.hosts && g in e.world.hosts[hostname].groups)
  {
    var e := RemoteGroupExists(w, hostname, g);
    RunGrows(w, hostname, GroupExists(g), ExitedZero);
    if e.result.Returned? {
      RemoteGroupExistsEffect(w, hostname, g);
      if !e.result.value {
        var c := CreateRemoteGroup(e.world, hostname, g);
        RunGrows(e.world, hostname, CreateGroup(g), ExitedZero);
        GrowsTrans(w, e.world, c.world, hostname);
        if c.result.Returned? {
          CreateRemoteGroupEffect(e.world, hostname, g);
        }
      }
    }
  }

  // ---------------------------------------------------------------------------
  // The membership loop

  /** Dispatch number `i`, made after `w0`, was a `usermod -aG g u` to `hostname` that never
      reached it. */
  predicate LostAdd(w0: Remote, w: Remote, hostname: string, u: string, g: string) {
    exists i :: |w0.sent| <= i < |w.sent| && w.sent[i].hostname == hostname
      && w.sent[i].command == AddToGroup(g, u) && w.sent[i].reply.status == ConnectionFailure
  }

  predicate Member(w: Remote, hostname: string, u: string, g: string) {
    hostname in w.hosts && u in w.hosts[hostname].accounts && g in w.hosts[hostname].accounts[u].groups
  }

  /** After the loop the account is in the group, or the `usermod` adding it was lost. */
  predicate MemberOrLost(w0: Remote, w: Remote, hostname: string, u: string, g: string) {
    Member(w, hostname, u, g) || LostAdd(w0, w, hostname, u, g)
  }

  /** Later growth and an earlier starting point keep `MemberOrLost`. */
  lemma MemberOrLostMono(w0: Remote, w0': Remote, w1: Remote, w2: Remote, hostname: string, u: string, g: string)
    requires MemberOrLost(w0', w1, hostname, u, g) && Grows(w1, w2, hostname)
    requires |w0.sent| <= |w0'.sent|
    ensures MemberOrLost(w0, w2, hostname, u, g)
  {
    if !Member(w1, hostname, u, g) {
      var i :| |w0'.sent| <= i < |w1.sent| && w1.sent[i].hostname == hostname
        && w1.sent[i].command == AddToGroup(g, u) && w1.sent[i].reply.status == ConnectionFailure;
      assert w2.sent[..|w1.sent|][i] == w2.sent[i];
    }
  }

  /** One round of the loop, with the account and the group present on the host: the host grows,
      and when neither helper raised the account is in the group or its `usermod` was lost. */
  lemma MembershipRoundOutcome(w: Remote, hostname: string, u: string, g: string)
    requires AllWF(w) && u != ""
    requires hostname in w.hosts && u in w.hosts[hostname].accounts && g in w.hosts[hostname].groups
    ensures var m := IsUserInRemoteGroup(w, hostname, u, g);
      && Grows(w, m.world, hostname)
      && (m.result.Returned? ==>
            var a := if m.result.value then Step(m.world, Returned(())) else AddUserToRemoteGroup(m.world, hostname, u, g);
            && Grows(w, a.world, hostname)
            && (a.result.Returned? ==> MemberOrLost(w, a.world, hostname, u, g)))
  {
    var m := IsUserInRemoteGroup(w, hostname, u, g);
    RunGrows(w, hostname, GroupsOf(u), ListsGroup(g));
    if m.result.Returned? {
      IsUserInRemoteGroupEffect(w, hostname, u, g);
      if !m.result.value {
        var s := Run(m.world, hostname, AddToGroup(g, u), ExitedZero);
        assert AddUserToRemoteGroup(m.world, hostname, u, g).world == s.world;
        RunGrows(m.world, hostname, AddToGroup(g, u), ExitedZero);
        GrowsTrans(w, m.world, s.world, hostname);
        if s.result.Returned? {
          RunEffect(m.world, hostname, AddToGroup(g, u), ExitedZero);
          AddUserToRemoteGroupEffect(m.world, hostname, u, g);
          if !Reachable(m.world, hostname) {
            var i := |m.world.sent|;
            assert s.world.sent[i].reply == LastReply(s.world);
          }
        }
      }
    }
  }

  /** The whole loop, with the account and every group present: the host grows, and when no helper
      raised each group is joined or its `usermod` was lost. */
  lemma {:induction false} MembershipsOutcome(w: Remote, hostname: string, u: string, groups: seq<string>)
    requires AllWF(w) && u != ""
    requires hostname in w.hosts && u in w.hosts[hostname].accounts
    requires forall g :: g in groups ==> g in w.hosts[hostname].groups
    ensures var m := AddMissingMemberships(w, hostname, u, groups);
      && Grows(w, m.world, hostname)
      && (m.result.Returned? ==> forall g :: g in groups ==> MemberOrLost(w, m.world, hostname, u, g))
    decreases |groups|
  {
    if groups == [] {
      GrowsRefl(w, hostname);
    } else {
      var g := groups[0];
      assert g in groups;
      var m := IsUserInRemoteGroup(w, hostname, u, g);
      MembershipRoundOutcome(w, hostname, u, g);
      if m.result.Returned? {
        var a := if m.result.value then Step(m.world, Returned(())) else AddUserToRemoteGroup(m.world, hostname, u, g);
        if a.result.Returned? {
          var r := AddMissingMemberships(a.world, hostname, u, groups[1..]);
          assert AddMissingMemberships(w, hostname, u, groups) == r;
          assert forall g' :: g' in groups[1..] ==> g' in groups;
          MembershipsOutcome(a.world, hostname, u, groups[1..]);
          GrowsTrans(w, a.world, r.world, hostname);
          if r.result.Returned? {
            forall g' | g' in groups
              ensures MemberOrLost(w, r.world, hostname, u, g')
            {
              if g' == g {
                MemberOrLostMono(w, w, a.world, r.world, hostname, u, g);
              } else {
                assert g' in groups[1..];
                GrowsRefl(r.world, hostname);
                MemberOrLostMono(w, a.world, r.world, r.world, hostname, u, g');
              }
            }
          }
        }
      }
    }
  }

  // ---------------------------------------------------------------------------
  // The provisioning sequence

  /** The state a 200 promises on `hostname`: the account with the returned password, both groups,
      and each membership unless its `usermod` (dispatched after `w0`) was lost. */
  predicate Provisioned(w0: Remote, w: Remote, hostname: string, u: string, pw: string) {
    && hostname in w.hosts
    && u in w.hosts[hostname].accounts
    && w.hosts[hostname].accounts[u].password == Some(pw)
    && TsUsers in w.hosts[hostname].groups && AppUsers in w.hosts[hostname].groups
    && (forall g :: g in GroupsToAdd ==> MemberOrLost(w0, w, hostname, u, g))
  }

  lemma ProvisionedEarlier(w0: Remote, w0': Remote, w: Remote, hostname: string, u: string, pw: string)
    requires Provisioned(w0', w, hostname, u, pw) && |w0.sent| <= |w0'.sent|
    ensures Provisioned(w0, w, hostname, u, pw)
  {
    GrowsRefl(w, hostname);
    forall g | g in GroupsToAdd ensures MemberOrLost(w0, w, hostname, u, g) {
      MemberOrLostMono(w0, w0', w, w, hostname, u, g);
    }
  }

  /** A sanitised name holds neither `:`, a line break nor `'`. */
  lemma WordCharsNoSeparator(u: string)
    requires Text.AllWordChars(u)
    ensures ':' !in u && '\n' !in u && '\'' !in u
  {
    forall i | 0 <= i < |u| ensures u[i] != ':' && u[i] != '\n' && u[i] != '\'' {
      assert Text.IsWordChar(u[i]);
    }
  }

  /** `create_or_update_remote_user` with a sanitised name and a generated password: True means
      either bash read the password as literal text, the name is not empty and the account now holds
      that reading, or the password made the line hold shell code whose run exited 0. */
  lemma UserStepOutcome(w: Remote, hostname: string, u: string, pw: string)
    requires AllWF(w) && Text.AllWordChars(u) && '\n' !in pw
    ensures var s := CreateOrUpdateRemoteUser(w, hostname, u, pw);
      var read := Shell.AsWrittenRead(pw);
      s.result.Returned? && s.result.value ==>
        && hostname in w.hosts && hostname in s.world.hosts
        && AllWF(s.world) && Extends(w, s.world)
        && ((read.Literal? && u != ""
             && u in s.world.hosts[hostname].accounts
             && s.world.hosts[hostname].accounts[u].password == Some(read.text))
            || (read.Code? && CodeExitsZero(w.hosts[hostname])))
  {
    var c := EnsureUser(u, PasswordLine(u, pw));
    var s := CreateOrUpdateRemoteUser(w, hostname, u, pw);
    if s.result.Returned? {
      RunEffect(w, hostname, c, ExitedZero);
      RunPreservesWF(w, hostname, c, ExitedZero);
      assert s.world.sent[..|w.sent|] == w.sent;
      if u == "" {
        if Reachable(w, hostname) {
          assert w.hosts[hostname] in w.hosts.Values;
          assert u + ":" + pw == ":" + pw;
          EnsureUserEmptyName(w.hosts[hostname], pw);
        }
      } else {
        WordCharsNoSeparator(u);
        CreateOrUpdateRemoteUserEffect(w, hostname, u, pw);
      }
    }
  }

  /** `appusers` and the memberships, once the account holds `held` and `tsusers` is in place. */
  lemma ProvisionMembershipsOutcome(w: Remote, vm: AllocatedRow, u: string, pw: string, held: string, calls: seq<StoreCall>)
    requires Truthy(vm.hostname)
    requires AllWF(w) && u != ""
    requires var host := vm.hostname.value;
      && host in w.hosts && u in w.hosts[host].accounts && w.hosts[host].accounts[u].password == Some(held)
      && TsUsers in w.hosts[host].groups
    ensures var r := ProvisionMemberships(w, vm, u, pw, calls);
      r.response.Granted? ==> Provisioned(w, r.world, vm.hostname.value, u, held)
  {
    var host := vm.hostname.value;
    var a := EnsureGroup(w, host, AppUsers);
    EnsureGroupOutcome(w, host, AppUsers);
    if a.result.Returned? && a.result.value {
      assert forall g :: g in GroupsToAdd ==> g in a.world.hosts[host].groups;
      var m := AddMissingMemberships(a.world, host, u, GroupsToAdd);
      MembershipsOutcome(a.world, host, u, GroupsToAdd);
      GrowsTrans(w, a.world, m.world, host);
      if m.result.Returned? {
        assert Provisioned(a.world, m.world, host, u, held);
        ProvisionedEarlier(w, a.world, m.world, host, u, held);
      }
    }
  }

  /** `tsusers`, then the rest. */
  lemma ProvisionGroupsOutcome(w: Remote, vm: AllocatedRow, u: string, pw: string, held: string, calls: seq<StoreCall>)
    requires Truthy(vm.hostname)
    requires AllWF(w) && u != ""
    requires var host := vm.hostname.value;
      host in w.hosts && u in w.hosts[host].accounts && w.hosts[host].accounts[u].password == Some(held)
    ensures var r := ProvisionGroups(w, vm, u, pw, calls);
      r.response.Granted? ==> Provisioned(w, r.world, vm.hostname.value, u, held)
  {
    var host := vm.hostname.value;
    var t := EnsureGroup(w, host, TsUsers);
    EnsureGroupOutcome(w, host, TsUsers);
    if t.result.Returned? && t.result.value {
      ProvisionMembershipsOutcome(t.world, vm, u, pw, held, calls);
      var r := ProvisionMemberships(t.world, vm, u, pw, calls);
      if r.response.Granted? {
        ProvisionedEarlier(w, t.world, r.world, host, u, held);
      }
    }
  }

  /** The whole provisioning sequence for a sanitised name and a generated password: a 200 means
      either bash read the password as literal text and the host is provisioned with that reading,
      or the password made the chpasswd line hold shell code whose run exited 0. */
  lemma ProvisionOutcome(w: Remote, vm: AllocatedRow, u: string, pw: string, calls: seq<StoreCall>)
    requires Truthy(vm.hostname)
    requires AllWF(w) && Text.AllWordChars(u) && '\n' !in pw
    ensures var r := Provision(w, vm, u, pw, calls);
      var read := Shell.AsWrittenRead(pw);
      var host := vm.hostname.value;
      r.response.Granted? ==>
        || (read.Literal? && u != "" && Provisioned(w, r.world, host, u, read.text))
        || (read.Code? && host in w.hosts && CodeExitsZero(w.hosts[host]))
  {
    var host := vm.hostname.value;
    var s := CreateOrUpdateRemoteUser(w, host, u, pw);
    UserStepOutcome(w, host, u, pw);
    if s.result.Returned? && s.result.value && Shell.AsWrittenRead(pw).Literal? && u != ""
       && u in s.world.hosts[host].accounts
       && s.world.hosts[host].accounts[u].password == Some(Shell.AsWrittenRead(pw).text) {
      var held := Shell.AsWrittenRead(pw).text;
      ProvisionGroupsOutcome(s.world, vm, u, pw, held, calls);
      var r := ProvisionGroups(s.world, vm, u, pw, calls);
      if r.response.Granted? {
        ProvisionedEarlier(w, s.world, r.world, host, u, held);
      }
    }
  }

  /** A 200 from `checkout_vm`: the request got past every early exit and the password returned is
      the generated one. When bash reads that password as literal text, the sanitised name is not
      empty and on the allocated host the account holds the reading, both groups exist and each
      membership holds unless its `usermod` was lost; the account holds the returned password itself
      iff it has no `'`. Otherwise the password made the chpasswd line hold shell code, and its run
      exited 0. */
  lemma CheckoutGrantedProvisions(req: CheckoutRequest, draws: seq<nat>, allocation: Option<seq<AllocatedRow>>, w: Remote)
    requires |draws| == Credentials.DefaultPasswordLength
    requires AllWF(w)
    ensures var r := Checkout(req, draws, allocation, w);
      r.response.Granted? ==>
        var host := AllocatedHost(allocation);
        var u := Text.Sanitize(req.username.value);
        && ProvisioningStarted(req, allocation)
        && r.response.hostname == Some(host)
        && r.response.password == Credentials.GenerateSecurePassword(Credentials.DefaultPasswordLength, draws)
        && (var read := Shell.AsWrittenRead(r.response.password);
            || (&& read.Literal? && u != ""
                && Provisioned(w, r.world, host, u, read.text)
                && (r.world.hosts[host].accounts[u].password == Some(r.response.password) <==> '\'' !in r.response.password))
            || (read.Code? && host in w.hosts && CodeExitsZero(w.hosts[host])))
  {
    CheckoutReachesProvision(req, draws, allocation, w);
    var r := Checkout(req, draws, allocation, w);
    if r.response.Granted? {
      var u := Text.Sanitize(req.username.value);
      var pw := Credentials.GenerateSecurePassword(Credentials.DefaultPasswordLength, draws);
      var vm := allocation.value[0];
      var calls := [CheckoutVmCall(u, req.avdhost.value)];
      assert r == Provision(w, vm, u, pw, calls);
      Credentials.PasswordHasNoLineBreak(Credentials.DefaultPasswordLength, draws);
      ProvisionOutcome(w, vm, u, pw, calls);
      Shell.AsWrittenReadExact(pw);
      assert r.response.password == pw;
    }
  }

  /** A generated password with one `'` followed only by literal characters: the shell rejects the
      chpasswd line, so the request answers 500 with the VM still allocated and no host changed. */
  lemma OneQuotePasswordFails(req: CheckoutRequest, draws: seq<nat>, allocation: Option<seq<AllocatedRow>>, w: Remote, a: string, b: string)
    requires |draws| == Credentials.DefaultPasswordLength
    requires ProvisioningStarted(req, allocation)
    requires Credentials.GenerateSecurePassword(Credentials.DefaultPasswordLength, draws) == a + "'" + b
    requires '\'' !in a && forall i :: 0 <= i < |b| ==> Shell.IsLiteralChar(b[i])
    ensures var r := Checkout(req, draws, allocation, w);
      var u := Text.Sanitize(req.username.value);
      && StatusCode(r.response) == 500
      && (FetchKey(w).Some? ==> r.response == UserSetupFailed(u, AllocatedHost(allocation)))
      && (FetchKey(w).None? ==> r.response == Unexpected)
      && r.storeCalls == [CheckoutVmCall(u, req.avdhost.value)]
      && r.world.hosts == w.hosts
  {
    CheckoutReachesProvision(req, draws, allocation, w);
    var host := AllocatedHost(allocation);
    var u := Text.Sanitize(req.username.value);
    var pw := a + "'" + b;
    var vm := allocation.value[0];
    assert Checkout(req, draws, allocation, w) == Provision(w, vm, u, pw, [CheckoutVmCall(u, req.avdhost.value)]);
    CreateOrUpdateRemoteUserOneQuote(w, host, u, a, b);
  }

  // ---------------------------------------------------------------------------
  // The silent membership failure

  /** The account step of the scenario below: an existing account on a reachable host keeps its
      groups and the host keeps its groups. */
  lemma ExistingAccountStep(w: Remote, hostname: string, u: string, pw: string)
    requires AllWF(w) && FetchKey(w).Some? && Reachable(w, hostname)
    requires u in w.hosts[hostname].accounts && ':' !in u && '\n' !in u && '\'' !in u && '\n' !in pw
    requires Shell.AsWrittenRead(pw).Literal?
    ensures var s := CreateOrUpdateRemoteUser(w, hostname, u, pw);
      && s.result == Returned(true)
      && AllWF(s.world) && KeyAvailable(s.world)
      && s.world.fetches == w.fetches + 1 && s.world.vaultDown == w.vaultDown
      && |s.world.sent| == |w.sent| + 1 && s.world.down == w.down
      && hostname in s.world.hosts && u in s.world.hosts[hostname].accounts
      && s.world.hosts[hostname].groups == w.hosts[hostname].groups
      && s.world.hosts[hostname].accounts[u].groups == w.hosts[hostname].accounts[u].groups
  {
    var c := EnsureUser(u, PasswordLine(u, pw));
    RunEffect(w, hostname, c, ExitedZero);
    KeyStaysAvailable(w, hostname, c, ExitedZero);
    RunPreservesWF(w, hostname, c, ExitedZero);
    assert w.hosts[hostname] in w.hosts.Values;
    EnsureUserAsWrittenEffect(w.hosts[hostname], u, pw);
  }

  /** A query on a reachable host: it returns, the hosts are unchanged and the key stays available. */
  lemma QueryStep(w: Remote, hostname: string, c: Command, read: Reply -> bool)
    requires FetchKey(w).Some? && Reachable(w, hostname) && (c.GroupExists? || c.GroupsOf?)
    ensures var s := Run(w, hostname, c, read);
      && s.result.Returned? && s.result.value == read(Exec(w.hosts[hostname], c).reply)
      && s.world.hosts == w.hosts && KeyAvailable(s.world)
      && s.world.fetches == w.fetches + 1 && s.world.vaultDown == w.vaultDown
      && |s.world.sent| == |w.sent| + 1 && s.world.down == w.down
  {
    RunEffect(w, hostname, c, read);
    KeyStaysAvailable(w, hostname, c, read);
  }

  /** The membership loop of the scenario below: both `id -nG` queries reach the host, the
      `usermod` for `appusers` does not, and the loop still returns. */
  lemma LostMembershipRound(w: Remote, host: string, u: string)
    requires AllWF(w) && FetchesSucceed(w, 3) && u != ""
    requires host in w.hosts && u in w.hosts[host].accounts
    requires TsUsers in w.hosts[host].accounts[u].groups && AppUsers !in w.hosts[host].accounts[u].groups
    requires |w.sent| !in w.down && |w.sent| + 1 !in w.down && |w.sent| + 2 in w.down
    ensures var m := AddMissingMemberships(w, host, u, GroupsToAdd);
      && m.result.Returned?
      && m.world.hosts == w.hosts
      && |m.world.sent| == |w.sent| + 3
      && m.world.sent[|w.sent| + 2].command == AddToGroup(AppUsers, u)
  {
    FetchesSucceedPrefix(w, 1, 3);
    var m1 := IsUserInRemoteGroup(w, host, u, TsUsers);
    QueryStep(w, host, GroupsOf(u), ListsGroup(TsUsers));
    FetchesSucceedStep(w, m1.world, 2);
    FetchesSucceedPrefix(m1.world, 1, 2);
    IsUserInRemoteGroupEffect(w, host, u, TsUsers);
    assert m1.result == Returned(true);
    assert AllWF(m1.world);
    var m2 := IsUserInRemoteGroup(m1.world, host, u, AppUsers);
    QueryStep(m1.world, host, GroupsOf(u), ListsGroup(AppUsers));
    FetchesSucceedStep(m1.world, m2.world, 1);
    FetchesSucceedPrefix(m2.world, 1, 1);
    IsUserInRemoteGroupEffect(m1.world, host, u, AppUsers);
    assert m2.result == Returned(false);
    var add := Run(m2.world, host, AddToGroup(AppUsers, u), ExitedZero);
    RunEffect(m2.world, host, AddToGroup(AppUsers, u), ExitedZero);
    assert AddUserToRemoteGroup(m2.world, host, u, AppUsers) == Step(add.world, Returned(()));
    assert GroupsToAdd[1..] == [AppUsers] && [AppUsers][1..] == [];
    assert AddMissingMemberships(m1.world, host, u, [AppUsers]) == Step(add.world, Returned(()));
    assert AddMissingMemberships(w, host, u, GroupsToAdd) == AddMissingMemberships(m1.world, host, u, [AppUsers]);
  }

  /** The groups and the memberships of the scenario below, from the `tsusers` check on: the two
      existence checks and the two `id -nG` queries reach the host, the `usermod` for `appusers` does
      not, and the response is still a 200 while the account is not in `appusers`. */
  lemma LostMembershipAfterAccount(w: Remote, vm: AllocatedRow, u: string, pw: string, calls: seq<StoreCall>)
    requires Truthy(vm.hostname)
    requires AllWF(w) && FetchesSucceed(w, 5) && u != ""
    requires var host := vm.hostname.value;
      && host in w.hosts && u in w.hosts[host].accounts
      && TsUsers in w.hosts[host].groups && AppUsers in w.hosts[host].groups
      && TsUsers in w.hosts[host].accounts[u].groups && AppUsers !in w.hosts[host].accounts[u].groups
    requires forall k :: |w.sent| <= k < |w.sent| + 4 ==> k !in w.down
    requires |w.sent| + 4 in w.down
    ensures var r := ProvisionGroups(w, vm, u, pw, calls);
      && r.response.Granted?
      && r.world.hosts == w.hosts
      && |r.world.sent| == |w.sent| + 5
      && r.world.sent[|w.sent| + 4].command == AddToGroup(AppUsers, u)
  {
    var host := vm.hostname.value;
    var n := |w.sent|;
    FetchesSucceedPrefix(w, 1, 5);
    var t := RemoteGroupExists(w, host, TsUsers);
    QueryStep(w, host, GroupExists(TsUsers), ExitedZero);
    FetchesSucceedStep(w, t.world, 4);
    FetchesSucceedPrefix(t.world, 1, 4);
    assert EnsureGroup(w, host, TsUsers) == t;
    var a := RemoteGroupExists(t.world, host, AppUsers);
    QueryStep(t.world, host, GroupExists(AppUsers), ExitedZero);
    FetchesSucceedStep(t.world, a.world, 3);
    assert EnsureGroup(t.world, host, AppUsers) == a;
    assert AllWF(a.world);
    assert n + 2 !in w.down && n + 3 !in w.down;
    LostMembershipRound(a.world, host, u);
  }

  /** The provisioning sequence of the scenario below: the account step reaches the host, and so
      does everything up to the lost `usermod`. */
  lemma ProvisionLosesMembership(w: Remote, vm: AllocatedRow, u: string, pw: string, calls: seq<StoreCall>)
    requires Truthy(vm.hostname)
    requires AllWF(w) && FetchesSucceed(w, 6)
    requires u != "" && ':' !in u && '\n' !in u && '\'' !in u && '\n' !in pw && Shell.AsWrittenRead(pw).Literal?
    requires var host := vm.hostname.value;
      && host in w.hosts && u in w.hosts[host].accounts
      && TsUsers in w.hosts[host].groups && AppUsers in w.hosts[host].groups
      && TsUsers in w.hosts[host].accounts[u].groups && AppUsers !in w.hosts[host].accounts[u].groups
    requires forall k :: |w.sent| <= k < |w.sent| + 5 ==> k !in w.down
    requires |w.sent| + 5 in w.down
    ensures var r := Provision(w, vm, u, pw, calls);
      var host := vm.hostname.value;
      && r.response.Granted?
      && host in r.world.hosts && u in r.world.hosts[host].accounts
      && AppUsers !in r.world.hosts[host].accounts[u].groups
  {
    var host := vm.hostname.value;
    assert |w.sent| !in w.down;
    FetchesSucceedPrefix(w, 1, 6);
    var s := CreateOrUpdateRemoteUser(w, host, u, pw);
    ExistingAccountStep(w, host, u, pw);
    FetchesSucceedStep(w, s.world, 5);
    assert Provision(w, vm, u, pw, calls) == ProvisionGroups(s.world, vm, u, pw, calls);
    assert forall k :: |s.world.sent| <= k < |s.world.sent| + 4 ==> k !in s.world.down;
    LostMembershipAfterAccount(s.world, vm, u, pw, calls);
  }

  /** `add_user_to_remote_group` fails silently: a checkout for an existing account that is in
      `tsusers` but not in `appusers`, whose `usermod -aG appusers` (the sixth command) does not reach
      the host, still answers 200 with the account left outside `appusers`. */
  lemma SilentMembershipLoss(req: CheckoutRequest, draws: seq<nat>, allocation: Option<seq<AllocatedRow>>, w: Remote)
    requires |draws| == Credentials.DefaultPasswordLength
    requires ProvisioningStarted(req, allocation)
    requires AllWF(w) && FetchesSucceed(w, 6)
    requires Shell.AsWrittenRead(Credentials.GenerateSecurePassword(Credentials.DefaultPasswordLength, draws)).Literal?
    requires var host := AllocatedHost(allocation);
      var u := Text.Sanitize(req.username.value);
      && host in w.hosts && u in w.hosts[host].accounts
      && TsUsers in w.hosts[host].groups && AppUsers in w.hosts[host].groups
      && TsUsers in w.hosts[host].accounts[u].groups && AppUsers !in w.hosts[host].accounts[u].groups
    requires forall k :: |w.sent| <= k < |w.sent| + 5 ==> k !in w.down
    requires |w.sent| + 5 in w.down
    ensures var r := Checkout(req, draws, allocation, w);
      var host := AllocatedHost(allocation);
      var u := Text.Sanitize(req.username.value);
      && r.response.Granted?
      && host in r.world.hosts && u in r.world.hosts[host].accounts
      && AppUsers !in r.world.hosts[host].accounts[u].groups
  {
    var host := AllocatedHost(allocation);
    var u := Text.Sanitize(req.username.value);
    var pw := Credentials.GenerateSecurePassword(Credentials.DefaultPasswordLength, draws);
    CheckoutReachesProvision(req, draws, allocation, w);
    assert w.hosts[host] in w.hosts.Values;
    assert u != "";
    WordCharsNoSeparator(u);
    Credentials.PasswordHasNoLineBreak(Credentials.DefaultPasswordLength, draws);
    ProvisionLosesMembership(w, allocation.value[0], u, pw, [CheckoutVmCall(u, req.avdhost.value)]);
  }
}
