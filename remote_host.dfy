/**
 * A Linux session host as the provisioning commands see it: its accounts
 * (each with a password and an ordered list of group names, the primary group
 * first), its groups, and the accounts that have a login session open. Each
 * remote command of api/app.py is one transition `Exec`, whose effect and
 * exit status follow the command text:
 *
 *   create_or_update_remote_user (api/app.py:124-126)
 *     sudo id -u U >/dev/null 2>&1 || sudo useradd U -m && echo ARG | sudo chpasswd
 *   delete_remote_user (api/app.py:181)
 *     sudo userdel -r U 2>/dev/null || echo 'User U does not exist'
 *   remote_group_exists / create_remote_group (api/app.py:312, 331)
 *     getent group G        sudo groupadd G
 *   is_user_in_remote_group / add_user_to_remote_group (api/app.py:350, 373)
 *     id -nG U              sudo usermod -aG G U
 *
 * User and group names are placed on the command line unquoted; the model
 * takes each as one literal word. ARG, the chpasswd line, is quoted, and the
 * shell's reading of it (`Shell.ShellWord`) is part of the transition. When
 * that reading is `Code` (an unquoted operator or expansion), the rest of the
 * line runs as shell code whose effect depends on the host's commands, files
 * and environment; the host's `codeRun` says what it amounts to.
 */
module RemoteHost {
  import opened Wrappers
  import Text
  import Shell

  datatype Account = Account(password: Option<string>, groups: seq<string>)

  /** What a chpasswd line that holds shell code does on a host: whether bash refuses the line,
      otherwise the exit status of the whole line and the line chpasswd gets, if any. The
      `id -u || useradd` part before it runs as usual. */
  datatype CodeRun = CodeRun(refused: bool, status: int, line: Option<string>)

  datatype Host = Host(accounts: map<string, Account>, groups: set<string>, sessions: set<string>, codeRun: CodeRun)

  datatype Command =
    | EnsureUser(user: string, chpasswdArg: string)
    | DeleteUser(user: string)
    | GroupExists(group: string)
    | CreateGroup(group: string)
    | GroupsOf(user: string)
    | AddToGroup(group: string, user: string)

  datatype Reply = Reply(status: int, stdout: string)

  datatype Outcome = Outcome(host: Host, reply: Reply)

  /** The account the API connects as (`avdadmin@host`); `id -nG` with an empty operand reports it. */
  const AdminLogin: string := "avdadmin"

  const Success: int := 0
  const Failure: int := 1
  /** What the shell returns when it cannot parse the command line. */
  const SyntaxError: int := 2

  /** Names `useradd` and `groupadd` accept: 1 to 32 characters from letters, digits, `_` and `-`,
      not starting with `-` and not all digits. */
  predicate IsAccountName(n: string) {
    0 < |n| <= 32 && n[0] != '-'
    && (forall i :: 0 <= i < |n| ==> Text.IsWordChar(n[i]) || n[i] == '-')
    && (exists i :: 0 <= i < |n| && !Text.IsAsciiDigit(n[i]))
  }

  /** The host invariant: no account has the empty name, every group name is a word of
      `str.split()`, and every group an account lists exists. */
  predicate WF(h: Host) {
    "" !in h.accounts
    && (forall g :: g in h.groups ==> Text.IsToken(g))
    && (forall u, i :: u in h.accounts && 0 <= i < |h.accounts[u].groups| ==> h.accounts[u].groups[i] in h.groups)
  }

  function Ok(h: Host): Outcome { Outcome(h, Reply(Success, "")) }
  function Fail(h: Host, status: int): Outcome { Outcome(h, Reply(status, "")) }

  /** `useradd U -m`: a new account whose only group is a new group of the same name. */
  function AddAccount(h: Host, u: string): Host {
    h.(accounts := h.accounts[u := Account(None, [u])], groups := h.groups + {u})
  }

  /** `chpasswd` reading the single line `line`: the text before the first `:` names an existing
      account, whose password becomes the text after it. */
  function Chpasswd(h: Host, line: string): Option<Host> {
    if '\n' in line || ':' !in line then None
    else
      var k := Text.FirstIndex(line, ':');
      var name := line[..k];
      if name in h.accounts then
        Some(h.(accounts := h.accounts[name := h.accounts[name].(password := Some(line[k + 1..]))]))
      else None
  }

  /** `userdel -r U`: refused while U has a session open; otherwise the account goes, and so does
      the group named U once no remaining account lists it. */
  function Userdel(h: Host, u: string): Option<Host> {
    if u !in h.accounts || u in h.sessions then None
    else
      var rest := h.accounts - {u};
      var orphan := u in h.groups && forall v :: v in rest ==> u !in rest[v].groups;
      Some(h.(accounts := rest, groups := if orphan then h.groups - {u} else h.groups))
  }

  /** `sudo id -u U || sudo useradd U -m`: None when neither succeeds. `id -u` with an empty
      operand reports the invoking user and succeeds. */
  function EnsureAccount(h: Host, u: string): Option<Host> {
    if u == "" || u in h.accounts then Some(h)
    else if IsAccountName(u) && u !in h.groups then Some(AddAccount(h, u))
    else None
  }

  /** A line holding shell code: the account part runs, chpasswd reads the line the code hands it,
      and the exit status is the code's. */
  function RunCode(h: Host, u: string): Outcome {
    if h.codeRun.refused then Fail(h, SyntaxError)
    else
      var h1 := EnsureAccount(h, u);
      var h2 := if h1.Some? then h1.value else h;
      var h3 := if h.codeRun.line.Some? then Chpasswd(h2, h.codeRun.line.value) else None;
      Outcome(if h3.Some? then h3.value else h2, Reply(h.codeRun.status, ""))
  }

  function Exec(h: Host, c: Command): Outcome {
    match c
    case EnsureUser(u, arg) =>
      (match Shell.ShellWord(arg)
       case OpenQuote => Fail(h, SyntaxError)
       case Code => RunCode(h, u)
       case Literal(line) =>
         var h1 := EnsureAccount(h, u);
         if h1.None? then Fail(h, Failure)
         else
           var h2 := Chpasswd(h1.value, line);
           if h2.None? then Fail(h1.value, Failure) else Ok(h2.value))
    case DeleteUser(u) =>
      // `|| echo` turns every failure of userdel into success
      var h1 := Userdel(h, u);
      if h1.None? then Ok(h) else Ok(h1.value)
    case GroupExists(g) =>
      // `getent group` with an empty key lists every group
      if g == "" || g in h.groups then Ok(h) else Fail(h, Failure)
    case CreateGroup(g) =>
      if IsAccountName(g) && g !in h.groups then Ok(h.(groups := h.groups + {g})) else Fail(h, Failure)
    case GroupsOf(u) =>
      var who := if u == "" then AdminLogin else u;
      if who in h.accounts then Outcome(h, Reply(Success, Text.JoinSpaced(h.accounts[who].groups) + "\n"))
      else Fail(h, Failure)
    case AddToGroup(g, u) =>
      if u in h.accounts && g in h.groups then
        var gs := h.accounts[u].groups;
        var gs' := if g in gs then gs else gs + [g];
        Ok(h.(accounts := h.accounts[u := h.accounts[u].(groups := gs')]))
      else Fail(h, Failure)
  }

  lemma AccountNameIsToken(n: string)
    requires IsAccountName(n)
    ensures Text.IsToken(n)
  {
    forall i | 0 <= i < |n| ensures !Text.IsSpace(n[i]) {
      assert Text.IsWordChar(n[i]) || n[i] == '-';
    }
  }

  /** Every command keeps the host well formed. */
  lemma ExecPreservesWF(h: Host, c: Command)
    requires WF(h)
    ensures WF(Exec(h, c).host)
  {
    match c
    case EnsureUser(u, arg) =>
      if !(u == "" || u in h.accounts) && IsAccountName(u) && u !in h.groups {
        AccountNameIsToken(u);
        var h1 := AddAccount(h, u);
        assert WF(h1);
      }
    case DeleteUser(u) =>
    case GroupExists(g) =>
    case CreateGroup(g) =>
      if IsAccountName(g) { AccountNameIsToken(g); }
    case GroupsOf(u) =>
    case AddToGroup(g, u) =>
  }

  /** `create_or_update_remote_user` once the shell has read its quoted argument as the line `u:p`:
      it succeeds iff the account exists or can be created, creates it only when absent, and
      always leaves the password `p`. Nothing else about the accounts changes. */
  lemma EnsureUserReads(h: Host, u: string, arg: string, p: string)
    requires WF(h)
    requires u != "" && ':' !in u && '\n' !in u && '\n' !in p
    requires Shell.ShellWord(arg) == Shell.Literal(u + ":" + p)
    ensures var o := Exec(h, EnsureUser(u, arg));
      && (o.reply.status == Success <==> u in h.accounts || (IsAccountName(u) && u !in h.groups))
      && (o.reply.status == Success ==>
            && o.host.accounts.Keys == h.accounts.Keys + {u}
            && o.host.accounts[u].password == Some(p)
            && o.host.accounts[u].groups == (if u in h.accounts then h.accounts[u].groups else [u])
            && o.host.groups == (if u in h.accounts then h.groups else h.groups + {u})
            && (forall v :: v in h.accounts && v != u ==> o.host.accounts[v] == h.accounts[v]))
      && (o.reply.status != Success ==> o.host == h)
  {
    var line := u + ":" + p;
    assert line == u + [':'] + p;
    Text.FirstIndexAfter(u, ':', p);
    assert line[..|u|] == u && line[|u| + 1..] == p;
    assert '\n' !in line by {
      forall i | 0 <= i < |line| ensures line[i] != '\n' {
        if i < |u| { assert line[i] == u[i]; } else if i > |u| { assert line[i] == p[i - |u| - 1]; }
      }
    }
  }

  /** The same command with the line quoted so that the shell reads it back unchanged: whatever the
      password holds, the account ends up with exactly that password. */
  lemma EnsureUserEffect(h: Host, u: string, pw: string)
    requires WF(h)
    requires u != "" && ':' !in u && '\n' !in u && '\n' !in pw
    ensures var o := Exec(h, EnsureUser(u, Shell.QuoteArg(u + ":" + pw)));
      && (o.reply.status == Success <==> u in h.accounts || (IsAccountName(u) && u !in h.groups))
      && (o.reply.status == Success ==>
            && o.host.accounts.Keys == h.accounts.Keys + {u}
            && o.host.accounts[u].password == Some(pw)
            && o.host.accounts[u].groups == (if u in h.accounts then h.accounts[u].groups else [u])
            && o.host.groups == (if u in h.accounts then h.groups else h.groups + {u})
            && (forall v :: v in h.accounts && v != u ==> o.host.accounts[v] == h.accounts[v]))
      && (o.reply.status != Success ==> o.host == h)
  {
    Shell.QuoteArgRoundTrip(u + ":" + pw);
    EnsureUserReads(h, u, Shell.QuoteArg(u + ":" + pw), pw);
  }

  /** The line holds shell code and its run exits 0: bash accepts the line and the exit status of
      its last pipeline is 0. */
  predicate CodeExitsZero(h: Host) {
    !h.codeRun.refused && h.codeRun.status == Success
  }

  /** Every command leaves the host's code run as it was. */
  lemma ExecKeepsCodeRun(h: Host, c: Command)
    ensures Exec(h, c).host.codeRun == h.codeRun
  {
  }

  /** Ensure-user on a line that holds shell code: the exit status is the code's. When bash refuses
      the line nothing changes; otherwise the account exists afterwards iff it existed or could be
      created, no account loses a group, and a password changes only to what chpasswd's line says
      for that account. */
  lemma EnsureUserCodeEffect(h: Host, u: string, arg: string)
    requires WF(h)
    requires Shell.ShellWord(arg) == Shell.Code
    ensures var o := Exec(h, EnsureUser(u, arg));
      var run := h.codeRun;
      && o.reply.status == (if run.refused then SyntaxError else run.status)
      && (run.refused ==> o.host == h)
      && (!run.refused ==>
            && (u in o.host.accounts <==> u in h.accounts || (IsAccountName(u) && u !in h.groups))
            && o.host.accounts.Keys == h.accounts.Keys + (if u in o.host.accounts then {u} else {})
            && (forall v :: v in h.accounts ==> o.host.accounts[v].groups == h.accounts[v].groups)
            && (forall v :: v in o.host.accounts ==>
                  var before := if v in h.accounts then h.accounts[v].password else None;
                  o.host.accounts[v].password == before
                  || (run.line.Some? && o.host.accounts[v].password.Some?
                      && run.line.value == v + ":" + o.host.accounts[v].password.value)))
  {
    var run := h.codeRun;
    if !run.refused {
      var h1 := EnsureAccount(h, u);
      var h2 := if h1.Some? then h1.value else h;
      assert "" !in h.accounts;
      if run.line.Some? && Chpasswd(h2, run.line.value).Some? {
        var line := run.line.value;
        var k := Text.FirstIndex(line, ':');
        assert line == line[..k] + ":" + line[k + 1..];
      }
    }
  }

  /** The command as written (api/app.py:124-126): the line is `'u:pw'`. Bash refuses it when `pw`
      leaves a quote open; when it reads `pw` as literal text, ensure-user succeeds iff the account
      exists or can be created, and the account then holds that reading, which is `pw` itself only
      when `pw` holds no `'`; when `pw` makes the line hold shell code, the exit status is the
      code's (`EnsureUserCodeEffect`). */
  lemma EnsureUserAsWrittenEffect(h: Host, u: string, pw: string)
    requires WF(h)
    requires u != "" && ':' !in u && '\n' !in u && '\'' !in u && '\n' !in pw
    ensures var o := Exec(h, EnsureUser(u, Shell.QuoteArgAsWritten(u + ":" + pw)));
      var read := Shell.AsWrittenRead(pw);
      && (read.OpenQuote? ==> o == Fail(h, SyntaxError))
      && (read.Code? ==> o.reply.status == (if h.codeRun.refused then SyntaxError else h.codeRun.status))
      && (read.Literal? ==>
            && (o.reply.status == Success <==> u in h.accounts || (IsAccountName(u) && u !in h.groups))
            && (o.reply.status == Success ==>
                  && o.host.accounts.Keys == h.accounts.Keys + {u}
                  && o.host.accounts[u].password == Some(read.text)
                  && o.host.accounts[u].groups == (if u in h.accounts then h.accounts[u].groups else [u])
                  && o.host.groups == (if u in h.accounts then h.groups else h.groups + {u})
                  && (forall v :: v in h.accounts && v != u ==> o.host.accounts[v] == h.accounts[v]))
            && (o.reply.status != Success ==> o.host == h))
  {
    var pre := u + ":";
    assert '\'' !in pre;
    assert u + ":" + pw == pre + pw;
    Shell.AsWrittenWord(pre, pw);
    var read := Shell.AsWrittenRead(pw);
    if read.Literal? {
      Shell.AsWrittenReadExact(pw);
      assert pre + read.text == u + ":" + read.text;
      EnsureUserReads(h, u, Shell.QuoteArgAsWritten(u + ":" + pw), read.text);
    } else if read.Code? {
      EnsureUserCodeEffect(h, u, Shell.QuoteArgAsWritten(u + ":" + pw));
    }
  }

  /** An empty username gets no account: `id -u` succeeds for the invoking user, but chpasswd finds
      no account named by the empty text before the `:`. The command reports success only when the
      password makes the line hold shell code whose run exits 0. */
  lemma EnsureUserEmptyName(h: Host, pw: string)
    requires WF(h)
    ensures var o := Exec(h, EnsureUser("", Shell.QuoteArgAsWritten(":" + pw)));
      && "" !in o.host.accounts
      && (o.reply.status == Success ==> Shell.AsWrittenRead(pw).Code? && CodeExitsZero(h))
  {
    Shell.AsWrittenWord(":", pw);
    ExecPreservesWF(h, EnsureUser("", Shell.QuoteArgAsWritten(":" + pw)));
    var read := Shell.AsWrittenRead(pw);
    if read.Literal? {
      assert ":" + read.text == [] + [':'] + read.text;
      Text.FirstIndexAfter([], ':', read.text);
    }
  }

  /** Ensure-user is idempotent in the account set: run twice, the account is created at most once.
      The second run succeeds iff bash reads the second password as literal text and the account
      exists, which the account then holds with its groups unchanged, or the second line holds
      shell code whose run exits 0. */
  lemma EnsureUserTwice(h: Host, u: string, pw1: string, pw2: string)
    requires WF(h)
    requires u != "" && ':' !in u && '\n' !in u && '\'' !in u && '\n' !in pw1 && '\n' !in pw2
    requires Exec(h, EnsureUser(u, Shell.QuoteArgAsWritten(u + ":" + pw1))).reply.status == Success
    ensures var h1 := Exec(h, EnsureUser(u, Shell.QuoteArgAsWritten(u + ":" + pw1))).host;
      var o := Exec(h1, EnsureUser(u, Shell.QuoteArgAsWritten(u + ":" + pw2)));
      var read2 := Shell.AsWrittenRead(pw2);
      && (Shell.AsWrittenRead(pw1).Literal? ==> u in h1.accounts)
      && (o.reply.status == Success <==> (read2.Literal? && u in h1.accounts) || (read2.Code? && CodeExitsZero(h)))
      && o.host.accounts.Keys == h1.accounts.Keys
      && (read2.Literal? && u in h1.accounts ==> o.host.accounts[u] == h1.accounts[u].(password := Some(read2.text)))
  {
    var c1 := EnsureUser(u, Shell.QuoteArgAsWritten(u + ":" + pw1));
    var h1 := Exec(h, c1).host;
    EnsureUserAsWrittenEffect(h, u, pw1);
    ExecPreservesWF(h, c1);
    ExecKeepsCodeRun(h, c1);
    EnsureUserAsWrittenEffect(h1, u, pw2);
    var arg2 := Shell.QuoteArgAsWritten(u + ":" + pw2);
    Shell.AsWrittenWord(u + ":", pw2);
    assert u + ":" + pw2 == (u + ":") + pw2;
    if u !in h1.accounts {
      // only a line with shell code can succeed without the account; then it could not be created
      assert Shell.AsWrittenRead(pw1).Code?;
      Shell.AsWrittenWord(u + ":", pw1);
      assert u + ":" + pw1 == (u + ":") + pw1;
      EnsureUserCodeEffect(h, u, Shell.QuoteArgAsWritten(u + ":" + pw1));
      assert !(IsAccountName(u) && u !in h1.groups);
    }
    if Shell.AsWrittenRead(pw2).Code? {
      EnsureUserCodeEffect(h1, u, arg2);
    }
  }

  /** `delete_remote_user`'s command always exits 0: whether the account existed, was removed, or
      could not be removed because a session is open. */
  lemma DeleteUserAlwaysSucceeds(h: Host, u: string)
    ensures var o := Exec(h, DeleteUser(u));
      && o.reply.status == Success
      && (u !in o.host.accounts <==> u !in h.accounts || u !in h.sessions)
      && o.host.accounts.Keys == (if u in h.sessions then h.accounts.Keys else h.accounts.Keys - {u})
  {
  }

  /** Deleting twice is deleting once. */
  lemma DeleteUserIdempotent(h: Host, u: string)
    ensures var h1 := Exec(h, DeleteUser(u)).host; Exec(h1, DeleteUser(u)).host == h1
  {
  }

  /** `is_user_in_remote_group`'s test: on a well-formed host, a group is a token of the `id -nG`
      output iff the account lists it. An account that does not exist makes the command fail. */
  lemma GroupMembershipByTokens(h: Host, u: string, g: string)
    requires WF(h)
    requires u != ""
    ensures var o := Exec(h, GroupsOf(u));
      && (o.reply.status == Success <==> u in h.accounts)
      && (u in h.accounts ==> (g in Text.Words(o.reply.stdout) <==> g in h.accounts[u].groups))
  {
    if u in h.accounts {
      var gs := h.accounts[u].groups;
      forall i | 0 <= i < |gs| ensures Text.IsToken(gs[i]) {
        assert gs[i] in h.groups;
      }
      Text.WordsAppendSpace(Text.JoinSpaced(gs), '\n');
      Text.TokenMembership(gs, g);
    }
  }

  /** `usermod -aG`: succeeds iff both the account and the group exist, then the account lists the
      group; repeating it changes nothing. */
  lemma AddToGroupEffect(h: Host, g: string, u: string)
    ensures var o := Exec(h, AddToGroup(g, u));
      && (o.reply.status == Success <==> u in h.accounts && g in h.groups)
      && (o.reply.status == Success ==> g in o.host.accounts[u].groups)
      && Exec(o.host, AddToGroup(g, u)) == o
  {
  }

  /** `create_remote_group`: succeeds iff the name is new and acceptable, and then the group exists. */
  lemma CreateGroupEffect(h: Host, g: string)
    ensures var o := Exec(h, CreateGroup(g));
      && (o.reply.status == Success <==> IsAccountName(g) && g !in h.groups)
      && o.host.groups == (if o.reply.status == Success then h.groups + {g} else h.groups)
      && o.host.accounts == h.accounts
  {
  }

  /** The existence check and the membership query change nothing on the host. */
  lemma QueriesAreReadOnly(h: Host, g: string, u: string)
    ensures Exec(h, GroupExists(g)).host == h
    ensures Exec(h, GroupsOf(u)).host == h
    ensures (Exec(h, GroupExists(g)).reply.status == Success) <==> (g == "" || g in h.groups)
  {
  }

  // ---------------------------------------------------------------------------
  // The chpasswd line as written at api/app.py:125

  /** With the password put between single quotes as it is, one `'` in it leaves the quote open:
      the shell rejects the whole line and the host is not touched. */
  lemma AsWrittenOneQuoteRejected(h: Host, u: string, a: string, b: string)
    requires forall i :: 0 <= i < |u| ==> Text.IsWordChar(u[i])
    requires '\'' !in a
    requires forall i :: 0 <= i < |b| ==> Shell.IsLiteralChar(b[i])
    ensures Exec(h, EnsureUser(u, Shell.QuoteArgAsWritten(u + ":" + a + "'" + b))) == Fail(h, SyntaxError)
  {
    var p := u + ":" + a;
    assert '\'' !in p by {
      forall i | 0 <= i < |p| ensures p[i] != '\'' {
        if i < |u| { assert p[i] == u[i]; } else if i > |u| { assert p[i] == a[i - |u| - 1]; }
      }
    }
    assert u + ":" + a + "'" + b == p + "'" + b;
    Shell.AsWrittenOddQuote(p, b);
  }

  /** With two `'` in the password, the shell drops them: the account gets a password other than
      the one the API hands out. */
  lemma AsWrittenTwoQuotesAltered(h: Host, u: string, a: string, b: string, c: string)
    requires WF(h) && u in h.accounts
    requires forall i :: 0 <= i < |u| ==> Text.IsWordChar(u[i])
    requires '\'' !in a && '\'' !in c && '\n' !in a && '\n' !in c
    requires forall i :: 0 <= i < |b| ==> Shell.IsLiteralChar(b[i])
    ensures var pw := a + "'" + b + "'" + c;
      var o := Exec(h, EnsureUser(u, Shell.QuoteArgAsWritten(u + ":" + pw)));
      && o.reply.status == Success
      && o.host.accounts[u].password == Some(a + b + c)
      && a + b + c != pw
  {
    var pre := u + ":" + a;
    assert '\'' !in pre && '\n' !in pre by {
      forall i | 0 <= i < |pre| ensures pre[i] != '\'' && pre[i] != '\n' {
        if i < |u| { assert pre[i] == u[i]; } else if i > |u| { assert pre[i] == a[i - |u| - 1]; }
      }
    }
    var pw := a + "'" + b + "'" + c;
    assert u + ":" + pw == pre + "'" + b + "'" + c;
    Shell.AsWrittenEvenQuotes(pre, b, c);
    var p := a + b + c;
    assert pre + b + c == u + ":" + p;
    assert ':' !in u && '\n' !in u by {
      forall i | 0 <= i < |u| ensures u[i] != ':' && u[i] != '\n' { assert Text.IsWordChar(u[i]); }
    }
    assert '\n' !in p by {
      forall i | 0 <= i < |p| ensures p[i] != '\n' {
        if i < |a| { assert p[i] == a[i]; }
        else if i < |a| + |b| { assert p[i] == b[i - |a|]; assert Shell.IsLiteralChar(b[i - |a|]); }
        else { assert p[i] == c[i - |a| - |b|]; }
      }
    }
    EnsureUserReads(h, u, Shell.QuoteArgAsWritten(u + ":" + pw), p);
    assert |a + b + c| < |pw|;
  }

  /** A `;` after an odd `'` of the password ends the echo: when the rest of the line runs and exits
      0 without handing chpasswd a line, ensure-user reports success while the account keeps the
      password it had (none, for a new account). */
  lemma AsWrittenSemicolonSkipsPassword(h: Host, u: string, a: string, b: string, d: string)
    requires WF(h)
    requires u != "" && forall i :: 0 <= i < |u| ==> Text.IsWordChar(u[i])
    requires u in h.accounts || (IsAccountName(u) && u !in h.groups)
    requires '\'' !in a
    requires forall i :: 0 <= i < |b| ==> Shell.IsLiteralChar(b[i])
    requires h.codeRun == CodeRun(false, Success, None)
    ensures var o := Exec(h, EnsureUser(u, Shell.QuoteArgAsWritten(u + ":" + a + "'" + b + ";" + d)));
      && o.reply.status == Success
      && u in o.host.accounts
      && o.host.accounts[u].password == (if u in h.accounts then h.accounts[u].password else None)
  {
    var pre := u + ":";
    assert '\'' !in pre;
    var pw := a + "'" + b + ";" + d;
    assert u + ":" + a + "'" + b + ";" + d == pre + pw;
    assert pw == a + "'" + b + [';'] + d;
    Shell.AsWrittenShellCode(a, b, ';', d);
    Shell.AsWrittenWord(pre, pw);
  }
}
