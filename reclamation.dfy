/**
 * `return_released_vm_api` (api/app.py:684-715): the `ReturnReleasedVms`
 * procedure hands back the released rows, and for every row with both a
 * hostname and a username the account is deleted on that host. A delete that
 * fails is only logged; a key retrieval that raises ends the whole request
 * with 500, because `delete_remote_user` fetches the key outside its `try`.
 */
module Reclamation {
  import opened Wrappers
  import opened RemoteHost
  import opened RemoteClient

  /** A row of `ReturnReleasedVms`; a column the row lacks reads as None (`row.get`). */
  datatype ReleasedRow = ReleasedRow(hostname: Option<string>, username: Option<string>)

  datatype ReclaimResponse =
    | StoreFailed
    | NothingToReturn
    | ReturnedRows(rows: seq<ReleasedRow>)
    | Unexpected

  function StatusCode(r: ReclaimResponse): int {
    match r
    case NothingToReturn => 200
    case ReturnedRows(_) => 200
    case _ => 500
  }

  datatype ReclaimResult = ReclaimResult(response: ReclaimResponse, world: Remote)

  /** `if hostname and username`. */
  predicate HasAccount(row: ReleasedRow) {
    Truthy(row.hostname) && Truthy(row.username)
  }

  /** The `(hostname, username)` pairs the loop deletes, in row order. */
  function Targets(rows: seq<ReleasedRow>): (t: seq<(string, string)>)
    ensures |t| <= |rows|
    ensures forall j :: 0 <= j < |t| ==> t[j].0 != "" && t[j].1 != ""
  {
    if rows == [] then []
    else (if HasAccount(rows[0]) then [(rows[0].hostname.value, rows[0].username.value)] else []) + Targets(rows[1..])
  }

  /** The loop `for row in rows` (api/app.py:701-710) from world `w`. */
  function DeleteAll(w: Remote, rows: seq<ReleasedRow>): Step<()>
    decreases |rows|
  {
    if rows == [] then Step(w, Returned(()))
    else if !HasAccount(rows[0]) then DeleteAll(w, rows[1..])
    else
      var d := DeleteRemoteUser(w, rows[0].hostname.value, rows[0].username.value);
      if d.result.Raised? then Step(d.world, Raised)
      else DeleteAll(d.world, rows[1..])
  }

  /** `return_released_vm_api`, given what the store returned (None: no connection, or the call
      raised). */
  function ReturnReleased(released: Option<seq<ReleasedRow>>, w: Remote): ReclaimResult {
    if released.None? then ReclaimResult(StoreFailed, w)
    else if released.value == [] then ReclaimResult(NothingToReturn, w)
    else
      var d := DeleteAll(w, released.value);
      if d.result.Raised? then ReclaimResult(Unexpected, d.world)
      else ReclaimResult(ReturnedRows(released.value), d.world)
  }

  /** `return_released_vm_api`, one row at a time. */
  method ReturnReleasedVms(released: Option<seq<ReleasedRow>>, w: Remote) returns (r: ReclaimResult)
    ensures r == ReturnReleased(released, w)
  {
    if released.None? {
      return ReclaimResult(StoreFailed, w);
    }
    var rows := released.value;
    if rows == [] {
      return ReclaimResult(NothingToReturn, w);
    }
    var world := w;
    for i := 0 to |rows|
      invariant DeleteAll(world, rows[i..]) == DeleteAll(w, rows)
    {
      var row := rows[i];
      assert rows[i..][1..] == rows[i + 1..];
      if HasAccount(row) {
        var d := DeleteRemoteUser(world, row.hostname.value, row.username.value);
        world := d.world;
        if d.result.Raised? {
          return ReclaimResult(Unexpected, world);
        }
      }
    }
    return ReclaimResult(ReturnedRows(rows), world);
  }

  // ---------------------------------------------------------------------------
  // Properties

  /** The dispatches made from `w` to `w'` are one `userdel` per target of `t`, in order, each to its
      target's host. */
  predicate DeletesSent(w: Remote, w': Remote, t: seq<(string, string)>) {
    && |w'.sent| == |w.sent| + |t|
    && w'.sent[..|w.sent|] == w.sent
    && (forall j :: 0 <= j < |t| ==>
          w'.sent[|w.sent| + j].hostname == t[j].0 && w'.sent[|w.sent| + j].command == DeleteUser(t[j].1))
  }

  lemma DeletesSentNone(w: Remote)
    ensures DeletesSent(w, w, [])
  {
    assert w.sent[..|w.sent|] == w.sent;
  }

  /** One delete followed by the deletes of the rest. */
  lemma DeletesSentCons(w: Remote, d: Remote, e: Remote, host: string, user: string, rest: seq<(string, string)>)
    requires SentOne(w, d, host, DeleteUser(user))
    requires DeletesSent(d, e, rest)
    ensures DeletesSent(w, e, [(host, user)] + rest)
  {
    var n := |w.sent|;
    var t := [(host, user)] + rest;
    assert e.sent[..n + 1] == d.sent;
    assert e.sent[..n] == d.sent[..n];
    forall j | 0 <= j < |t|
      ensures e.sent[n + j].hostname == t[j].0 && e.sent[n + j].command == DeleteUser(t[j].1)
    {
      if j == 0 {
        assert e.sent[n] == d.sent[n];
      } else {
        assert t[j] == rest[j - 1];
        assert n + j == |d.sent| + (j - 1);
      }
    }
  }

  /** When no key retrieval raises, the loop never stops early: it sends exactly one `userdel` per
      target, in row order, to the target's host, whatever the earlier deletes replied. */
  lemma {:induction false} DeleteAllDispatches(w: Remote, rows: seq<ReleasedRow>)
    requires FetchesSucceed(w, |Targets(rows)|)
    ensures var d := DeleteAll(w, rows);
      && d.result.Returned?
      && DeletesSent(w, d.world, Targets(rows))
      && d.world.fetches == w.fetches + |Targets(rows)| && d.world.vaultDown == w.vaultDown
    decreases |rows|
  {
    if rows == [] {
      DeletesSentNone(w);
    } else if !HasAccount(rows[0]) {
      assert Targets(rows) == Targets(rows[1..]);
      DeleteAllDispatches(w, rows[1..]);
      assert DeleteAll(w, rows) == DeleteAll(w, rows[1..]);
    } else {
      var host, user := rows[0].hostname.value, rows[0].username.value;
      var rest := Targets(rows[1..]);
      assert Targets(rows) == [(host, user)] + rest;
      FetchesSucceedPrefix(w, 1, |rest| + 1);
      var d := DeleteRemoteUser(w, host, user);
      KeyStaysAvailable(w, host, DeleteUser(user), ExitedZero);
      FetchesSucceedStep(w, d.world, |rest|);
      DeleteAllDispatches(d.world, rows[1..]);
      DeletesSentCons(w, d.world, DeleteAll(d.world, rows[1..]).world, host, user, rest);
    }
  }

  /** When the retrieval for target `j` is the first to raise, the loop ends with that exception
      after exactly the deletes of the targets before `j`. */
  lemma {:induction false} DeleteAllStopsAt(w: Remote, rows: seq<ReleasedRow>, j: nat)
    requires j < |Targets(rows)|
    requires FetchesSucceed(w, j) && !FetchesSucceed(w, j + 1)
    ensures var d := DeleteAll(w, rows);
      && d.result.Raised?
      && DeletesSent(w, d.world, Targets(rows)[..j])
    decreases |rows|
  {
    if !HasAccount(rows[0]) {
      assert Targets(rows) == Targets(rows[1..]);
      DeleteAllStopsAt(w, rows[1..], j);
      assert DeleteAll(w, rows) == DeleteAll(w, rows[1..]);
    } else {
      var host, user := rows[0].hostname.value, rows[0].username.value;
      var rest := Targets(rows[1..]);
      assert Targets(rows) == [(host, user)] + rest;
      var d := DeleteRemoteUser(w, host, user);
      if j == 0 {
        FetchesSucceedPrefix(w, 0, 1);
        DeletesSentNone(w);
      } else {
        FetchesSucceedPrefix(w, 1, j);
        KeyStaysAvailable(w, host, DeleteUser(user), ExitedZero);
        FetchesSucceedStep(w, d.world, j - 1);
        FetchesSucceedStep(w, d.world, j);
        DeleteAllStopsAt(d.world, rows[1..], j - 1);
        DeletesSentCons(w, d.world, DeleteAll(d.world, rows[1..]).world, host, user, rest[..j - 1]);
        assert Targets(rows)[..j] == [(host, user)] + rest[..j - 1];
      }
    }
  }

  /** Without the key the first target ends the loop with an exception before anything is sent;
      with no target the loop does nothing. */
  lemma {:induction false} DeleteAllWithoutKey(w: Remote, rows: seq<ReleasedRow>)
    requires FetchKey(w).None?
    ensures var d := DeleteAll(w, rows);
      && d.world == w
      && (d.result.Raised? <==> Targets(rows) != [])
    decreases |rows|
  {
    if rows != [] {
      DeleteAllWithoutKey(w, rows[1..]);
    }
  }

  /** The responses: 500 without rows from the store, 200 and nothing sent for an empty batch;
      for a non-empty batch, 200 with every row returned and one delete sent per target exactly when
      no key retrieval raises, and 500 otherwise. */
  lemma ReturnReleasedOutcome(released: Option<seq<ReleasedRow>>, w: Remote)
    ensures var r := ReturnReleased(released, w);
      && (released.None? ==> r.response == StoreFailed && StatusCode(r.response) == 500 && r.world == w)
      && (released == Some([]) ==> r.response == NothingToReturn && StatusCode(r.response) == 200 && r.world == w)
      && (released.Some? && released.value != [] ==>
            && (r.response == ReturnedRows(released.value) <==> FetchesSucceed(w, |Targets(released.value)|))
            && (r.response == ReturnedRows(released.value) || r.response == Unexpected)
            && (FetchesSucceed(w, |Targets(released.value)|) ==>
                  StatusCode(r.response) == 200 && DeletesSent(w, r.world, Targets(released.value)))
            && (!FetchesSucceed(w, |Targets(released.value)|) ==> StatusCode(r.response) == 500))
  {
    if released.Some? && released.value != [] {
      var rows := released.value;
      if FetchesSucceed(w, |Targets(rows)|) {
        DeleteAllDispatches(w, rows);
      } else {
        FirstFailedFetch(w, |Targets(rows)|);
        var j :| 0 <= j < |Targets(rows)| && FetchesSucceed(w, j) && !FetchesSucceed(w, j + 1);
        DeleteAllStopsAt(w, rows, j);
      }
    }
  }

  /** A retrieval that raises in the middle of a batch: the request answers 500 although the
      deletes of the earlier targets were already sent. */
  lemma ReturnReleasedStopsMidBatch(released: Option<seq<ReleasedRow>>, w: Remote, j: nat)
    requires released.Some? && j < |Targets(released.value)|
    requires FetchesSucceed(w, j) && !FetchesSucceed(w, j + 1)
    ensures var r := ReturnReleased(released, w);
      && r.response == Unexpected && StatusCode(r.response) == 500
      && DeletesSent(w, r.world, Targets(released.value)[..j])
  {
    DeleteAllStopsAt(w, released.value, j);
  }

  /** A delete that fails does not stop the batch: with the key available, the deletes sent for a
      batch are those of its first row followed by those of the rest, whatever the first reply. */
  lemma FailedDeleteDoesNotStopBatch(w: Remote, row: ReleasedRow, rest: seq<ReleasedRow>)
    requires FetchKey(w).Some? && HasAccount(row)
    ensures var d := DeleteRemoteUser(w, row.hostname.value, row.username.value);
      && d.result.Returned?
      && DeleteAll(w, [row] + rest) == DeleteAll(d.world, rest)
  {
    assert ([row] + rest)[1..] == rest;
  }
}
