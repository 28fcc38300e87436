/**
 * The API's remote helpers (api/app.py:119-140, 176-196, 306-380). Each one
 * first fetches the SSH key (`retrieve_pem_key_from_key_vault`, outside its
 * `try`, so a failure there propagates to the caller), then runs one command
 * over SSH and turns the exit status into its result.
 *
 * Everything outside the API is one value, `Remote`: the hosts, which SSH
 * connections fail, the log of dispatched commands with their replies, the
 * secret the key vault holds, which key-vault lookups fail, and the key file
 * on the API host.
 */
module RemoteClient {
  import opened Wrappers
  import Text
  import Shell
  import Credentials
  import opened RemoteHost

  /** One command sent to `avdadmin@<hostname>.<domain>` and the reply it got. */
  datatype Dispatch = Dispatch(hostname: string, command: Command, reply: Reply)

  datatype Remote = Remote(
    hosts: map<string, Host>,
    // dispatch numbers (positions in `sent`) whose SSH connection fails
    down: set<nat>,
    sent: seq<Dispatch>,
    // what the key vault holds for the key secret; None: every lookup raises
    vaultSecret: Option<string>,
    // how many key retrievals have got the secret so far
    fetches: nat,
    // retrieval numbers (counted by `fetches`) whose vault lookup raises
    vaultDown: set<nat>,
    keyFile: Credentials.KeyFile,
    // whether writing and chmod-ing the key file succeed
    fsWorks: bool)

  /** What `ssh` exits with when it cannot reach or log into the host. */
  const ConnectionFailure: int := 255

  /** The outcome of a Python call: it raised, or it returned a value. */
  datatype Call<T> = Raised | Returned(value: T)

  datatype Step<T> = Step(world: Remote, result: Call<T>)

  predicate AllWF(w: Remote) {
    forall h :: h in w.hosts.Values ==> WF(h)
  }

  /** The next command sent to `hostname` reaches it. */
  predicate Reachable(w: Remote, hostname: string) {
    hostname in w.hosts && |w.sent| !in w.down
  }

  /** `w'` is `w` with one more dispatch, of `c` to `hostname`. */
  predicate SentOne(w: Remote, w': Remote, hostname: string, c: Command) {
    |w'.sent| == |w.sent| + 1 && w'.sent[..|w.sent|] == w.sent
    && w'.sent[|w.sent|].hostname == hostname && w'.sent[|w.sent|].command == c
  }

  function LastReply(w: Remote): Reply
    requires |w.sent| > 0
  {
    w.sent[|w.sent| - 1].reply
  }

  /** `subprocess.run(['ssh', ..., host_fqdn, command])`. */
  function Send(w: Remote, hostname: string, c: Command): (w': Remote)
    ensures SentOne(w, w', hostname, c)
    ensures w'.down == w.down && w'.vaultSecret == w.vaultSecret && w'.keyFile == w.keyFile && w'.fsWorks == w.fsWorks
    ensures w'.fetches == w.fetches && w'.vaultDown == w.vaultDown
    ensures w'.hosts.Keys == w.hosts.Keys
    ensures Reachable(w, hostname) ==>
      (LastReply(w') == Exec(w.hosts[hostname], c).reply && w'.hosts == w.hosts[hostname := Exec(w.hosts[hostname], c).host])
    ensures !Reachable(w, hostname) ==> LastReply(w').status == ConnectionFailure && w'.hosts == w.hosts
  {
    if Reachable(w, hostname) then
      var o := Exec(w.hosts[hostname], c);
      w.(hosts := w.hosts[hostname := o.host], sent := w.sent + [Dispatch(hostname, c, o.reply)])
    else
      w.(sent := w.sent + [Dispatch(hostname, c, Reply(ConnectionFailure, ""))])
  }

  /** A retrieval gets the key whenever its vault lookup answers: the vault holds the secret and the
      key file is usable or can be made so. */
  predicate KeyAvailable(w: Remote) {
    Credentials.RetrievePemKey(w.vaultSecret, w.keyFile, w.fsWorks).KeyReady?
  }

  /** What the vault lookup of the next retrieval returns; None: it raises. */
  function VaultAnswer(w: Remote): Option<string> {
    if w.fetches in w.vaultDown then None else w.vaultSecret
  }

  /** The key retrieval every helper starts with (`get_secret`, then the key file); None: it raised. */
  function FetchKey(w: Remote): (r: Option<Remote>)
    ensures r.Some? <==> KeyAvailable(w) && w.fetches !in w.vaultDown
    ensures r.Some? ==> r.value == w.(keyFile := r.value.keyFile, fetches := w.fetches + 1)
  {
    var k := Credentials.RetrievePemKey(VaultAnswer(w), w.keyFile, w.fsWorks);
    if k.KeyRaised? then None else Some(w.(keyFile := k.file, fetches := w.fetches + 1))
  }

  /** The next `n` retrievals all get the key, provided nothing in between changes the vault or
      the key file. */
  predicate FetchesSucceed(w: Remote, n: nat) {
    n == 0 || (KeyAvailable(w) && forall k :: w.fetches <= k < w.fetches + n ==> k !in w.vaultDown)
  }

  /** One helper: fetch the key, send `c`, and read the reply with `read`. */
  function Run(w: Remote, hostname: string, c: Command, read: Reply -> bool): (s: Step<bool>)
    ensures s.result.Raised? <==> FetchKey(w).None?
    ensures s.result.Raised? ==> s.world == w
    ensures s.result.Returned? ==> SentOne(w, s.world, hostname, c) && s.result.value == read(LastReply(s.world))
  {
    match FetchKey(w)
    case None => Step(w, Raised)
    case Some(w1) =>
      var w2 := Send(w1, hostname, c);
      Step(w2, Returned(read(LastReply(w2))))
  }

  function ExitedZero(r: Reply): bool { r.status == Success }

  /** The `username:password` line fed to chpasswd, wrapped as at api/app.py:125:
      `echo '{username}:{password}'`. */
  function PasswordLine(username: string, password: string): string {
    Shell.QuoteArgAsWritten(username + ":" + password)
  }

  function CreateOrUpdateRemoteUser(w: Remote, hostname: string, username: string, password: string): Step<bool> {
    Run(w, hostname, EnsureUser(username, PasswordLine(username, password)), ExitedZero)
  }

  /** The line quoted so that the shell reads it back unchanged. */
  function CorrectedPasswordLine(username: string, password: string): string {
    Shell.QuoteArg(username + ":" + password)
  }

  /** `create_or_update_remote_user` with the corrected quoting. */
  function CreateOrUpdateRemoteUserCorrected(w: Remote, hostname: string, username: string, password: string): Step<bool> {
    Run(w, hostname, EnsureUser(username, CorrectedPasswordLine(username, password)), ExitedZero)
  }

  function DeleteRemoteUser(w: Remote, hostname: string, username: string): Step<bool> {
    Run(w, hostname, DeleteUser(username), ExitedZero)
  }

  function RemoteGroupExists(w: Remote, hostname: string, group: string): Step<bool> {
    Run(w, hostname, GroupExists(group), ExitedZero)
  }

  function CreateRemoteGroup(w: Remote, hostname: string, group: string): Step<bool> {
    Run(w, hostname, CreateGroup(group), ExitedZero)
  }

  /** `group_name in result.stdout.strip().split()` after a zero exit. */
  function ListsGroup(group: string): Reply -> bool {
    (r: Reply) => r.status == Success && group in Text.Words(r.stdout)
  }

  function IsUserInRemoteGroup(w: Remote, hostname: string, username: string, group: string): Step<bool> {
    Run(w, hostname, GroupsOf(username), ListsGroup(group))
  }

  /** The exit status is only logged: the caller learns nothing except whether the key retrieval
      raised. */
  function AddUserToRemoteGroup(w: Remote, hostname: string, username: string, group: string): (s: Step<()>)
    ensures s.result.Raised? <==> FetchKey(w).None?
  {
    var s := Run(w, hostname, AddToGroup(group, username), ExitedZero);
    Step(s.world, if s.result.Raised? then Raised else Returned(()))
  }

  // ---------------------------------------------------------------------------
  // What each helper's result means on the host

  lemma FetchKeyKeepsRest(w: Remote)
    requires FetchKey(w).Some?
    ensures var w1 := FetchKey(w).value;
      && w1.hosts == w.hosts && w1.sent == w.sent && w1.down == w.down
      && w1.vaultSecret == w.vaultSecret && w1.vaultDown == w.vaultDown && w1.fsWorks == w.fsWorks
      && w1.fetches == w.fetches + 1
  {
  }

  /** Once one retrieval has succeeded, the key stays available for the same vault and file system:
      a later retrieval succeeds iff its own vault lookup answers, and then changes only the count. */
  lemma FetchKeyAgain(w: Remote, w': Remote)
    requires FetchKey(w).Some?
    requires w'.vaultSecret == w.vaultSecret && w'.fsWorks == w.fsWorks && w'.keyFile == FetchKey(w).value.keyFile
    ensures KeyAvailable(w')
    ensures FetchKey(w').Some? <==> w'.fetches !in w'.vaultDown
    ensures FetchKey(w').Some? ==> FetchKey(w').value == w'.(fetches := w'.fetches + 1)
  {
    Credentials.RetrievePemKeyReuses(w.vaultSecret, w.keyFile, w.fsWorks, w.fsWorks);
  }

  /** After a helper that got its key, the key stays available, and the next helper gets it iff the
      vault answers the next lookup. */
  lemma KeyStaysAvailable(w: Remote, hostname: string, c: Command, read: Reply -> bool)
    requires FetchKey(w).Some?
    ensures var w' := Run(w, hostname, c, read).world;
      && KeyAvailable(w') && w'.fetches == w.fetches + 1 && w'.vaultDown == w.vaultDown
      && (FetchKey(w').Some? <==> w.fetches + 1 !in w.vaultDown)
  {
    FetchKeyAgain(w, Run(w, hostname, c, read).world);
  }

  /** One successful retrieval is what `FetchesSucceed` asks of one retrieval, and a run of them
      has every shorter run as its start. */
  lemma FetchesSucceedPrefix(w: Remote, m: nat, n: nat)
    requires m <= n
    ensures FetchesSucceed(w, 1) <==> FetchKey(w).Some?
    ensures FetchesSucceed(w, n) ==> FetchesSucceed(w, m)
  {
  }

  /** After a retrieval that succeeded, `n + 1` successful retrievals from before it are `n` from
      after it, as long as the helper in between keeps the key available. */
  lemma FetchesSucceedStep(w: Remote, w': Remote, n: nat)
    requires FetchKey(w).Some?
    requires KeyAvailable(w') && w'.fetches == w.fetches + 1 && w'.vaultDown == w.vaultDown
    ensures FetchesSucceed(w, n + 1) <==> FetchesSucceed(w', n)
  {
    if FetchesSucceed(w', n) && n > 0 {
      forall k | w.fetches <= k < w.fetches + n + 1 ensures k !in w.vaultDown {
        if k > w.fetches { assert w'.fetches <= k < w'.fetches + n; }
      }
    }
  }

  /** A run of retrievals that does not all succeed has a first failure. */
  lemma {:induction false} FirstFailedFetch(w: Remote, n: nat)
    requires !FetchesSucceed(w, n)
    ensures exists j :: 0 <= j < n && FetchesSucceed(w, j) && !FetchesSucceed(w, j + 1)
  {
    if FetchesSucceed(w, n - 1) {
      assert 0 <= n - 1 < n && FetchesSucceed(w, n - 1) && !FetchesSucceed(w, n - 1 + 1);
    } else {
      FirstFailedFetch(w, n - 1);
    }
  }

  /** The state of `hostname` after a helper ran `c` there. */
  lemma RunEffect(w: Remote, hostname: string, c: Command, read: Reply -> bool)
    requires FetchKey(w).Some?
    ensures var s := Run(w, hostname, c, read);
      && s.world.hosts.Keys == w.hosts.Keys
      && (Reachable(w, hostname) ==>
            (LastReply(s.world) == Exec(w.hosts[hostname], c).reply
             && s.world.hosts == w.hosts[hostname := Exec(w.hosts[hostname], c).host]))
      && (!Reachable(w, hostname) ==> LastReply(s.world).status == ConnectionFailure && s.world.hosts == w.hosts)
      && s.world.vaultSecret == w.vaultSecret && s.world.fsWorks == w.fsWorks && s.world.down == w.down
      && s.world.fetches == w.fetches + 1 && s.world.vaultDown == w.vaultDown
  {
    FetchKeyKeepsRest(w);
  }

  lemma RunPreservesWF(w: Remote, hostname: string, c: Command, read: Reply -> bool)
    requires AllWF(w)
    ensures AllWF(Run(w, hostname, c, read).world)
  {
    if FetchKey(w).Some? {
      RunEffect(w, hostname, c, read);
      if Reachable(w, hostname) {
        ExecPreservesWF(w.hosts[hostname], c);
        var w' := Run(w, hostname, c, read).world;
        forall h | h in w'.hosts.Values ensures WF(h) {
          var k :| k in w'.hosts && w'.hosts[k] == h;
          if k != hostname { assert w.hosts[k] == h; }
        }
      }
    }
  }

  /** `create_or_update_remote_user` returns True iff the host was reachable and either bash read
      the password as literal text and the account existed or could be created, or the password
      made the line hold shell code whose run exits 0. In the first case the account holds that
      reading, which is the password itself iff it holds no `'`; a line bash refuses changes no
      host. */
  lemma CreateOrUpdateRemoteUserEffect(w: Remote, hostname: string, u: string, pw: string)
    requires AllWF(w) && FetchKey(w).Some?
    requires u != "" && ':' !in u && '\n' !in u && '\'' !in u && '\n' !in pw
    ensures var s := CreateOrUpdateRemoteUser(w, hostname, u, pw);
      var read := Shell.AsWrittenRead(pw);
      && s.result.Returned?
      && (s.result.value <==>
            (Reachable(w, hostname)
             && ((read.Literal? && (u in w.hosts[hostname].accounts || (IsAccountName(u) && u !in w.hosts[hostname].groups)))
                 || (read.Code? && CodeExitsZero(w.hosts[hostname])))))
      && (s.result.value && read.Literal? ==>
            (u in s.world.hosts[hostname].accounts && s.world.hosts[hostname].accounts[u].password == Some(read.text)))
      && (read == Shell.Literal(pw) <==> '\'' !in pw)
      && (read.OpenQuote? ==> s.world.hosts == w.hosts)
  {
    RunEffect(w, hostname, EnsureUser(u, PasswordLine(u, pw)), ExitedZero);
    Shell.AsWrittenReadExact(pw);
    if Reachable(w, hostname) {
      assert w.hosts[hostname] in w.hosts.Values;
      EnsureUserAsWrittenEffect(w.hosts[hostname], u, pw);
      if Shell.AsWrittenRead(pw).OpenQuote? {
        assert w.hosts[hostname := w.hosts[hostname]] == w.hosts;
      }
    }
  }

  /** As written, a password with one `'` followed only by literal characters never gets a True
      answer: the helper raises when the key cannot be fetched and returns False otherwise, and no
      host changes either way. */
  lemma CreateOrUpdateRemoteUserOneQuote(w: Remote, hostname: string, u: string, a: string, b: string)
    requires forall i :: 0 <= i < |u| ==> Text.IsWordChar(u[i])
    requires '\'' !in a && forall i :: 0 <= i < |b| ==> Shell.IsLiteralChar(b[i])
    ensures var s := CreateOrUpdateRemoteUser(w, hostname, u, a + "'" + b);
      && (s.result.Raised? <==> FetchKey(w).None?)
      && (s.result.Returned? ==> !s.result.value)
      && s.world.hosts == w.hosts
  {
    var pw := a + "'" + b;
    var c := EnsureUser(u, PasswordLine(u, pw));
    if FetchKey(w).Some? {
      RunEffect(w, hostname, c, ExitedZero);
      if Reachable(w, hostname) {
        assert u + ":" + pw == u + ":" + a + "'" + b;
        AsWrittenOneQuoteRejected(w.hosts[hostname], u, a, b);
        assert w.hosts[hostname := w.hosts[hostname]] == w.hosts;
      }
    }
  }

  /** With the corrected quoting the helper returns True iff the host was reachable and the account
      existed or could be created, and then the account holds exactly the given password. */
  lemma CreateOrUpdateRemoteUserCorrectedEffect(w: Remote, hostname: string, u: string, pw: string)
    requires AllWF(w) && FetchKey(w).Some?
    requires u != "" && ':' !in u && '\n' !in u && '\n' !in pw
    ensures var s := CreateOrUpdateRemoteUserCorrected(w, hostname, u, pw);
      && s.result.Returned?
      && (s.result.value <==>
            (Reachable(w, hostname)
             && (u in w.hosts[hostname].accounts || (IsAccountName(u) && u !in w.hosts[hostname].groups))))
      && (s.result.value ==>
            (u in s.world.hosts[hostname].accounts && s.world.hosts[hostname].accounts[u].password == Some(pw)))
  {
    RunEffect(w, hostname, EnsureUser(u, CorrectedPasswordLine(u, pw)), ExitedZero);
    if Reachable(w, hostname) {
      assert w.hosts[hostname] in w.hosts.Values;
      EnsureUserEffect(w.hosts[hostname], u, pw);
    }
  }

  /** `delete_remote_user` returns True iff the host was reachable, whatever the account's state;
      afterwards the account is gone unless a session kept it. */
  lemma DeleteRemoteUserEffect(w: Remote, hostname: string, u: string)
    requires FetchKey(w).Some?
    ensures var s := DeleteRemoteUser(w, hostname, u);
      && s.result.Returned?
      && (s.result.value <==> Reachable(w, hostname))
      && (s.result.value && u !in w.hosts[hostname].sessions ==> u !in s.world.hosts[hostname].accounts)
  {
    RunEffect(w, hostname, DeleteUser(u), ExitedZero);
    if Reachable(w, hostname) { DeleteUserAlwaysSucceeds(w.hosts[hostname], u); }
  }

  /** `remote_group_exists` returns True iff the host was reachable and has the group. */
  lemma RemoteGroupExistsEffect(w: Remote, hostname: string, g: string)
    requires FetchKey(w).Some? && g != ""
    ensures var s := RemoteGroupExists(w, hostname, g);
      && s.result.Returned?
      && (s.result.value <==> Reachable(w, hostname) && g in w.hosts[hostname].groups)
      && s.world.hosts == w.hosts
  {
    RunEffect(w, hostname, GroupExists(g), ExitedZero);
  }

  /** `create_remote_group` returns True iff the host was reachable and the group is new and has an
      acceptable name; then the group exists. */
  lemma CreateRemoteGroupEffect(w: Remote, hostname: string, g: string)
    requires FetchKey(w).Some?
    ensures var s := CreateRemoteGroup(w, hostname, g);
      && s.result.Returned?
      && (s.result.value <==> Reachable(w, hostname) && IsAccountName(g) && g !in w.hosts[hostname].groups)
      && (s.result.value ==> g in s.world.hosts[hostname].groups)
  {
    RunEffect(w, hostname, CreateGroup(g), ExitedZero);
  }

  /** `is_user_in_remote_group` returns True iff the host was reachable, the account exists and
      lists the group. */
  lemma IsUserInRemoteGroupEffect(w: Remote, hostname: string, u: string, g: string)
    requires AllWF(w) && FetchKey(w).Some? && u != ""
    ensures var s := IsUserInRemoteGroup(w, hostname, u, g);
      && s.result.Returned?
      && (s.result.value <==>
            (Reachable(w, hostname) && u in w.hosts[hostname].accounts && g in w.hosts[hostname].accounts[u].groups))
      && s.world.hosts == w.hosts
  {
    RunEffect(w, hostname, GroupsOf(u), ListsGroup(g));
    if Reachable(w, hostname) {
      assert w.hosts[hostname] in w.hosts.Values;
      GroupMembershipByTokens(w.hosts[hostname], u, g);
    }
  }

  /** `add_user_to_remote_group` returns normally whatever happens on the host; the account lists
      the group afterwards iff it did before or the host was reachable and had both. */
  lemma AddUserToRemoteGroupEffect(w: Remote, hostname: string, u: string, g: string)
    requires FetchKey(w).Some? && hostname in w.hosts
    ensures var s := AddUserToRemoteGroup(w, hostname, u, g);
      var h := w.hosts[hostname];
      && s.result.Returned?
      && (Reachable(w, hostname) && u in h.accounts && g in h.groups ==> g in s.world.hosts[hostname].accounts[u].groups)
      && (!Reachable(w, hostname) ==> s.world.hosts == w.hosts)
  {
    RunEffect(w, hostname, AddToGroup(g, u), ExitedZero);
    if Reachable(w, hostname) { AddToGroupEffect(w.hosts[hostname], g, u); }
  }
}
