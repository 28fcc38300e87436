/**
 * `trigger_scaling_logic` (api/app.py:785-825): the `TriggerScalingLogic`
 * procedure returns rows `{VMName, ActionType}`; each `PowerOn` row starts
 * its VM and each `PowerOff` row powers it off, and the response lists the
 * names of both kinds in row order. Other action types are ignored.
 *
 * The compute control plane is a log of the requests it accepted and the set
 * of request numbers whose call raises; such an exception ends the request
 * with 500, after the requests before it have been issued.
 */
module Scaling {
  import opened Wrappers

  datatype ScalingRow = ScalingRow(vmName: string, actionType: string)

  datatype ComputeRequest = BeginStart(vm: string) | BeginPowerOff(vm: string)

  /** The requests the control plane accepted, and the numbers of the calls that raise. */
  datatype ControlPlane = ControlPlane(requests: seq<ComputeRequest>, refused: set<nat>)

  /** `VM_SUBSCRIPTION_ID` and `VM_RESOURCE_GROUP`. */
  datatype ComputeConfig = ComputeConfig(subscription: Option<string>, resourceGroup: Option<string>)

  datatype ScalingResponse =
    | ConfigurationError
    | StoreFailed
    | Scaled(poweredOn: seq<string>, poweredOff: seq<string>)
    | Unexpected

  function StatusCode(r: ScalingResponse): int {
    if r.Scaled? then 200 else 500
  }

  /** `storeQueried`: whether `TriggerScalingLogic` was called. */
  datatype ScalingResult = ScalingResult(response: ScalingResponse, plane: ControlPlane, storeQueried: bool)

  const PowerOn: string := "PowerOn"
  const PowerOff: string := "PowerOff"

  /** The request a row calls for, if any. */
  function RequestFor(row: ScalingRow): Option<ComputeRequest> {
    if row.actionType == PowerOn then Some(BeginStart(row.vmName))
    else if row.actionType == PowerOff then Some(BeginPowerOff(row.vmName))
    else None
  }

  // ---------------------------------------------------------------------------
  // Reference definitions: what the loop should produce

  /** The names of the rows of one action type, in row order. */
  function NamesOf(rows: seq<ScalingRow>, action: string): (names: seq<string>)
    ensures |names| <= |rows|
  {
    if rows == [] then []
    else (if rows[0].actionType == action then [rows[0].vmName] else []) + NamesOf(rows[1..], action)
  }

  /** The requests the rows call for, in row order. */
  function Requests(rows: seq<ScalingRow>): (rs: seq<ComputeRequest>)
    ensures |rs| <= |rows|
  {
    if rows == [] then []
    else (if RequestFor(rows[0]).Some? then [RequestFor(rows[0]).value] else []) + Requests(rows[1..])
  }

  // ---------------------------------------------------------------------------
  // The loop

  /** Where the loop stands: the plane, the two name lists, and whether a call raised. */
  datatype Actuation = Actuation(plane: ControlPlane, on: seq<string>, off: seq<string>, raised: bool)

  /** Issue one request: it raises when its number is refused, else the plane accepts it. */
  function Issue(p: ControlPlane, r: ComputeRequest): Option<ControlPlane> {
    if |p.requests| in p.refused then None else Some(p.(requests := p.requests + [r]))
  }

  /** The loop `for row in rows` (api/app.py:807-814), continuing from `a`. */
  function Actuate(a: Actuation, rows: seq<ScalingRow>): Actuation
    requires !a.raised
    decreases |rows|
  {
    if rows == [] then a
    else
      var row := rows[0];
      var req := RequestFor(row);
      if req.None? then Actuate(a, rows[1..])
      else
        var p := Issue(a.plane, req.value);
        if p.None? then a.(raised := true)
        else if req.value.BeginStart? then Actuate(Actuation(p.value, a.on + [row.vmName], a.off, false), rows[1..])
        else Actuate(Actuation(p.value, a.on, a.off + [row.vmName], false), rows[1..])
  }

  /** `trigger_scaling_logic`, given the configuration, what the store returned (None: no
      connection, or the call raised) and the control plane. */
  function TriggerScaling(config: ComputeConfig, rows: Option<seq<ScalingRow>>, plane: ControlPlane): ScalingResult {
    if !Truthy(config.subscription) || !Truthy(config.resourceGroup) then ScalingResult(ConfigurationError, plane, false)
    else if rows.None? then ScalingResult(StoreFailed, plane, true)
    else
      var a := Actuate(Actuation(plane, [], [], false), rows.value);
      if a.raised then ScalingResult(Unexpected, a.plane, true)
      else ScalingResult(Scaled(a.on, a.off), a.plane, true)
  }

  /** `trigger_scaling_logic`, appending to the two lists row by row. */
  method TriggerScalingLogic(config: ComputeConfig, rows: Option<seq<ScalingRow>>, plane: ControlPlane)
    returns (r: ScalingResult)
    ensures r == TriggerScaling(config, rows, plane)
  {
    if !Truthy(config.subscription) || !Truthy(config.resourceGroup) {
      return ScalingResult(ConfigurationError, plane, false);
    }
    if rows.None? {
      return ScalingResult(StoreFailed, plane, true);
    }
    var vms := rows.value;
    var p := plane;
    var poweredOn: seq<string> := [];
    var poweredOff: seq<string> := [];
    for i := 0 to |vms|
      invariant Actuate(Actuation(p, poweredOn, poweredOff, false), vms[i..])
             == Actuate(Actuation(plane, [], [], false), vms)
    {
      var row := vms[i];
      assert vms[i..][1..] == vms[i + 1..];
      if row.actionType == PowerOn {
        if |p.requests| in p.refused {
          return ScalingResult(Unexpected, p, true);
        }
        p := p.(requests := p.requests + [BeginStart(row.vmName)]);
        poweredOn := poweredOn + [row.vmName];
      } else if row.actionType == PowerOff {
        if |p.requests| in p.refused {
          return ScalingResult(Unexpected, p, true);
        }
        p := p.(requests := p.requests + [BeginPowerOff(row.vmName)]);
        poweredOff := poweredOff + [row.vmName];
      }
    }
    return ScalingResult(Scaled(poweredOn, poweredOff), p, true);
  }

  // ---------------------------------------------------------------------------
  // Properties

  /** No call numbered from `n` on, for the next `k` calls, raises. */
  predicate NoneRefused(refused: set<nat>, n: nat, k: nat) {
    forall j :: n <= j < n + k ==> j !in refused
  }

  /** When no call raises, the loop issues exactly the requests the rows call for, in order, and
      the lists are the `PowerOn` and `PowerOff` names in order. */
  lemma {:induction false} ActuateMatchesReference(a: Actuation, rows: seq<ScalingRow>)
    requires !a.raised
    requires NoneRefused(a.plane.refused, |a.plane.requests|, |Requests(rows)|)
    ensures Actuate(a, rows) == Actuation(ControlPlane(a.plane.requests + Requests(rows), a.plane.refused),
                                          a.on + NamesOf(rows, PowerOn), a.off + NamesOf(rows, PowerOff), false)
    decreases |rows|
  {
    if rows == [] {
      assert a.plane.requests + [] == a.plane.requests && a.on + [] == a.on && a.off + [] == a.off;
    } else {
      var row := rows[0];
      var req := RequestFor(row);
      if req.None? {
        assert Requests(rows) == Requests(rows[1..]);
        ActuateMatchesReference(a, rows[1..]);
      } else {
        var n := |a.plane.requests|;
        assert Requests(rows) == [req.value] + Requests(rows[1..]);
        assert n !in a.plane.refused;
        var p := a.plane.(requests := a.plane.requests + [req.value]);
        var b := if req.value.BeginStart? then Actuation(p, a.on + [row.vmName], a.off, false)
                 else Actuation(p, a.on, a.off + [row.vmName], false);
        assert NoneRefused(b.plane.refused, |b.plane.requests|, |Requests(rows[1..])|);
        ActuateMatchesReference(b, rows[1..]);
        assert p.requests + Requests(rows[1..]) == a.plane.requests + Requests(rows);
        if req.value.BeginStart? {
          assert b.on + NamesOf(rows[1..], PowerOn) == a.on + NamesOf(rows, PowerOn);
          assert b.off + NamesOf(rows[1..], PowerOff) == a.off + NamesOf(rows, PowerOff);
        } else {
          assert b.on + NamesOf(rows[1..], PowerOn) == a.on + NamesOf(rows, PowerOn);
          assert b.off + NamesOf(rows[1..], PowerOff) == a.off + NamesOf(rows, PowerOff);
        }
      }
    }
  }

  /** The loop only appends: the requests accepted before it are kept, and what it adds is a prefix
      of what the rows call for. A raised call stops it at a refused number. */
  lemma {:induction false} ActuatePrefix(a: Actuation, rows: seq<ScalingRow>)
    requires !a.raised
    ensures var b := Actuate(a, rows);
      && b.plane.refused == a.plane.refused
      && |a.plane.requests| <= |b.plane.requests| <= |a.plane.requests| + |Requests(rows)|
      && b.plane.requests[..|a.plane.requests|] == a.plane.requests
      && b.plane.requests[|a.plane.requests|..] == Requests(rows)[..|b.plane.requests| - |a.plane.requests|]
      && (b.raised ==> |b.plane.requests| in b.plane.refused && |b.plane.requests| - |a.plane.requests| < |Requests(rows)|)
      && (!b.raised ==> |b.plane.requests| - |a.plane.requests| == |Requests(rows)|)
    decreases |rows|
  {
    var n := |a.plane.requests|;
    if rows == [] {
      assert a.plane.requests[..n] == a.plane.requests;
    } else {
      var req := RequestFor(rows[0]);
      if req.None? {
        assert Requests(rows) == Requests(rows[1..]);
        ActuatePrefix(a, rows[1..]);
      } else {
        assert Requests(rows) == [req.value] + Requests(rows[1..]);
        if |a.plane.requests| in a.plane.refused {
          assert a.plane.requests[n..] == [];
        } else {
          var p := a.plane.(requests := a.plane.requests + [req.value]);
          var c := if req.value.BeginStart? then Actuation(p, a.on + [rows[0].vmName], a.off, false)
                   else Actuation(p, a.on, a.off + [rows[0].vmName], false);
          ActuatePrefix(c, rows[1..]);
          var b := Actuate(c, rows[1..]);
          assert b == Actuate(a, rows);
          var m := |b.plane.requests| - n;
          assert b.plane.requests[..n + 1] == p.requests;
          assert b.plane.requests[..n] == a.plane.requests;
          assert b.plane.requests[n..] == [req.value] + b.plane.requests[n + 1..];
          assert Requests(rows)[..m] == [req.value] + Requests(rows[1..])[..m - 1];
        }
      }
    }
  }

  /** The responses: 500 before any store or compute call when the configuration is missing; 500
      after the store when it returns nothing; 500 when a compute call raises, the requests before it
      having been issued; otherwise 200 with the `PowerOn` and `PowerOff` names in row order and one
      request per such row. */
  lemma TriggerScalingOutcome(config: ComputeConfig, rows: Option<seq<ScalingRow>>, plane: ControlPlane)
    ensures var r := TriggerScaling(config, rows, plane);
      && (!Truthy(config.subscription) || !Truthy(config.resourceGroup) ==>
            r.response == ConfigurationError && !r.storeQueried && r.plane == plane)
      && (Truthy(config.subscription) && Truthy(config.resourceGroup) ==> r.storeQueried)
      && (Truthy(config.subscription) && Truthy(config.resourceGroup) && rows.None? ==>
            r.response == StoreFailed && r.plane == plane)
      && (r.response.Scaled? <==>
            Truthy(config.subscription) && Truthy(config.resourceGroup) && rows.Some?
            && NoneRefused(plane.refused, |plane.requests|, |Requests(rows.value)|))
      && (r.response.Scaled? ==>
            && r.response.poweredOn == NamesOf(rows.value, PowerOn)
            && r.response.poweredOff == NamesOf(rows.value, PowerOff)
            && r.plane.requests == plane.requests + Requests(rows.value))
      && (r.response == Unexpected ==>
            && rows.Some?
            && |plane.requests| <= |r.plane.requests| < |plane.requests| + |Requests(rows.value)|
            && r.plane.requests[..|plane.requests|] == plane.requests
            && r.plane.requests[|plane.requests|..] == Requests(rows.value)[..|r.plane.requests| - |plane.requests|])
      && (StatusCode(r.response) == 200 <==> r.response.Scaled?)
  {
    if Truthy(config.subscription) && Truthy(config.resourceGroup) && rows.Some? {
      var a := Actuation(plane, [], [], false);
      ActuatePrefix(a, rows.value);
      if NoneRefused(plane.refused, |plane.requests|, |Requests(rows.value)|) {
        ActuateMatchesReference(a, rows.value);
        assert [] + NamesOf(rows.value, PowerOn) == NamesOf(rows.value, PowerOn);
        assert [] + NamesOf(rows.value, PowerOff) == NamesOf(rows.value, PowerOff);
      } else {
        var b := Actuate(a, rows.value);
        if !b.raised {
          assert b.plane.requests == plane.requests + Requests(rows.value) by {
            assert b.plane.requests == b.plane.requests[..|plane.requests|] + b.plane.requests[|plane.requests|..];
          }
          var j :| |plane.requests| <= j < |plane.requests| + |Requests(rows.value)| && j in plane.refused;
          ActuateRefusedAccepted(a, rows.value, j);
        }
      }
    }
  }

  /** A loop that did not raise issued no refused call, so with a refused number among its calls it
      must have raised. */
  lemma {:induction false} ActuateRefusedAccepted(a: Actuation, rows: seq<ScalingRow>, j: nat)
    requires !a.raised
    requires |a.plane.requests| <= j < |a.plane.requests| + |Requests(rows)| && j in a.plane.refused
    ensures Actuate(a, rows).raised
    decreases |rows|
  {
    var req := RequestFor(rows[0]);
    if req.None? {
      assert Requests(rows) == Requests(rows[1..]);
      ActuateRefusedAccepted(a, rows[1..], j);
    } else {
      assert Requests(rows) == [req.value] + Requests(rows[1..]);
      if |a.plane.requests| !in a.plane.refused {
        var p := a.plane.(requests := a.plane.requests + [req.value]);
        var c := if req.value.BeginStart? then Actuation(p, a.on + [rows[0].vmName], a.off, false)
                 else Actuation(p, a.on, a.off + [rows[0].vmName], false);
        ActuateRefusedAccepted(c, rows[1..], j);
      }
    }
  }

  // ---------------------------------------------------------------------------
  // The partition

  /** Each row is counted once: `PowerOn` names, `PowerOff` names and the ignored rows make up the
      input, and there is one request per named row. */
  lemma NamesPartitionRows(rows: seq<ScalingRow>)
    ensures |NamesOf(rows, PowerOn)| + |NamesOf(rows, PowerOff)| + |Ignored(rows)| == |rows|
    ensures |Requests(rows)| == |NamesOf(rows, PowerOn)| + |NamesOf(rows, PowerOff)|
    ensures multiset(NamesOf(rows, PowerOn)) + multiset(NamesOf(rows, PowerOff)) + multiset(Ignored(rows))
         == multiset(Names(rows))
  {
    PartitionCounts(rows);
    PartitionNames(rows);
  }

  /** The first two facts of `NamesPartitionRows`. */
  lemma {:induction false} PartitionCounts(rows: seq<ScalingRow>)
    ensures |NamesOf(rows, PowerOn)| + |NamesOf(rows, PowerOff)| + |Ignored(rows)| == |rows|
    ensures |Requests(rows)| == |NamesOf(rows, PowerOn)| + |NamesOf(rows, PowerOff)|
    decreases |rows|
  {
    if rows != [] {
      PartitionCounts(rows[1..]);
    }
  }

  /** The multiset fact of `NamesPartitionRows`. */
  lemma {:induction false} PartitionNames(rows: seq<ScalingRow>)
    ensures multiset(NamesOf(rows, PowerOn)) + multiset(NamesOf(rows, PowerOff)) + multiset(Ignored(rows))
         == multiset(Names(rows))
    decreases |rows|
  {
    if rows != [] {
      var r := rows[0];
      var t := rows[1..];
      PartitionNames(t);
      assert Names(rows) == [r.vmName] + Names(t);
      if r.actionType == PowerOn {
        assert NamesOf(rows, PowerOn) == [r.vmName] + NamesOf(t, PowerOn);
        assert NamesOf(rows, PowerOff) == NamesOf(t, PowerOff);
        assert Ignored(rows) == Ignored(t);
      } else if r.actionType == PowerOff {
        assert NamesOf(rows, PowerOn) == NamesOf(t, PowerOn);
        assert NamesOf(rows, PowerOff) == [r.vmName] + NamesOf(t, PowerOff);
        assert Ignored(rows) == Ignored(t);
      } else {
        assert NamesOf(rows, PowerOn) == NamesOf(t, PowerOn);
        assert NamesOf(rows, PowerOff) == NamesOf(t, PowerOff);
        assert Ignored(rows) == [r.vmName] + Ignored(t);
      }
    }
  }

  /** The start requests name exactly the `PowerOn` rows, and the power-off requests the `PowerOff`
      rows, in order. */
  lemma {:induction false} RequestsMatchNames(rows: seq<ScalingRow>)
    ensures StartedVms(Requests(rows)) == NamesOf(rows, PowerOn)
    ensures StoppedVms(Requests(rows)) == NamesOf(rows, PowerOff)
    decreases |rows|
  {
    if rows != [] {
      RequestsMatchNames(rows[1..]);
      var head := if RequestFor(rows[0]).Some? then [RequestFor(rows[0]).value] else [];
      StartedAppend(head, Requests(rows[1..]));
      StoppedAppend(head, Requests(rows[1..]));
    }
  }

  /** Rows of any other action type change nothing. */
  lemma IgnoredRowChangesNothing(a: Actuation, row: ScalingRow, rest: seq<ScalingRow>)
    requires !a.raised && row.actionType != PowerOn && row.actionType != PowerOff
    ensures Actuate(a, [row] + rest) == Actuate(a, rest)
    ensures Requests([row] + rest) == Requests(rest)
    ensures NamesOf([row] + rest, PowerOn) == NamesOf(rest, PowerOn)
    ensures NamesOf([row] + rest, PowerOff) == NamesOf(rest, PowerOff)
  {
    assert ([row] + rest)[1..] == rest;
  }

  function Names(rows: seq<ScalingRow>): (names: seq<string>)
    ensures |names| == |rows|
  {
    if rows == [] then [] else [rows[0].vmName] + Names(rows[1..])
  }

  /** The names of the rows whose action type is neither `PowerOn` nor `PowerOff`. */
  function Ignored(rows: seq<ScalingRow>): seq<string> {
    if rows == [] then []
    else (if RequestFor(rows[0]).None? then [rows[0].vmName] else []) + Ignored(rows[1..])
  }

  function StartedVms(rs: seq<ComputeRequest>): seq<string> {
    if rs == [] then [] else (if rs[0].BeginStart? then [rs[0].vm] else []) + StartedVms(rs[1..])
  }

  function StoppedVms(rs: seq<ComputeRequest>): seq<string> {
    if rs == [] then [] else (if rs[0].BeginPowerOff? then [rs[0].vm] else []) + StoppedVms(rs[1..])
  }

  lemma {:induction false} StartedAppend(a: seq<ComputeRequest>, b: seq<ComputeRequest>)
    ensures StartedVms(a + b) == StartedVms(a) + StartedVms(b)
    decreases |a|
  {
    if a == [] {
      assert a + b == b;
    } else {
      assert (a + b)[1..] == a[1..] + b;
      StartedAppend(a[1..], b);
    }
  }

  lemma {:induction false} StoppedAppend(a: seq<ComputeRequest>, b: seq<ComputeRequest>)
    ensures StoppedVms(a + b) == StoppedVms(a) + StoppedVms(b)
    decreases |a|
  {
    if a == [] {
      assert a + b == b;
    } else {
      assert (a + b)[1..] == a[1..] + b;
      StoppedAppend(a[1..], b);
    }
  }
}
