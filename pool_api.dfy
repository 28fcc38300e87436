/**
 * Small decisions of the pool API (api/app.py): which VM counts as available
 * (`get_available_vm`), the "at least one attribute" check of
 * `update_vm_attributes`, and the `'null'` sentinel of the history queries.
 */
module PoolApi {
  import opened Wrappers

  // ---------------------------------------------------------------------------
  // The available-VM query (api/app.py:415-442)

  datatype VmRecord = VmRecord(vmid: string, hostname: string, ipAddress: string,
                               powerState: string, networkStatus: string, vmStatus: string)

  /** `PowerState = 'On' AND NetworkStatus = 'Reachable' AND VmStatus = 'Available'`. */
  predicate IsAvailable(v: VmRecord) {
    v.powerState == "On" && v.networkStatus == "Reachable" && v.vmStatus == "Available"
  }

  /** `SELECT TOP 1 * ... WHERE <IsAvailable>` over the table in the order the server scans it. */
  function AvailableVm(table: seq<VmRecord>): (r: Option<nat>)
    ensures r.Some? ==> r.value < |table| && IsAvailable(table[r.value])
    ensures r.Some? ==> forall j :: 0 <= j < r.value ==> !IsAvailable(table[j])
    ensures r.None? <==> forall j :: 0 <= j < |table| ==> !IsAvailable(table[j])
  {
    if table == [] then None
    else if IsAvailable(table[0]) then Some(0)
    else
      var r := AvailableVm(table[1..]);
      if r.None? then None else Some(r.value + 1)
  }

  datatype AvailableResponse = NoConnection | NoneAvailable | Available(vm: VmRecord)

  /** `get_available_vm`: 500 without a connection, 404 when no row matches, else the row. */
  function GetAvailableVm(table: Option<seq<VmRecord>>): (r: AvailableResponse)
    ensures r.Available? ==> table.Some? && IsAvailable(r.vm) && r.vm in table.value
    ensures r.NoConnection? <==> table.None?
  {
    if table.None? then NoConnection
    else
      var i := AvailableVm(table.value);
      if i.None? then NoneAvailable else Available(table.value[i.value])
  }

  function AvailableStatus(r: AvailableResponse): int {
    match r
    case NoConnection => 500
    case NoneAvailable => 404
    case Available(_) => 200
  }

  /** A VM is handed out only when it is on, reachable and available, and "none available" means
      exactly that no row of the table is. */
  lemma AvailableVmOutcome(table: seq<VmRecord>)
    ensures var r := GetAvailableVm(Some(table));
      && (r.NoneAvailable? <==> forall v :: v in table ==> !IsAvailable(v))
      && (r.Available? ==> r.vm.powerState == "On" && r.vm.networkStatus == "Reachable" && r.vm.vmStatus == "Available")
      && AvailableStatus(r) != 500
  {
    var r := GetAvailableVm(Some(table));
    if !r.NoneAvailable? {
      var i := AvailableVm(table).value;
      assert table[i] in table;
    } else {
      forall v | v in table ensures !IsAvailable(v) {
        var j :| 0 <= j < |table| && table[j] == v;
      }
    }
  }

  // ---------------------------------------------------------------------------
  // `update_vm_attributes` (api/app.py:516-549)

  /** The three optional attributes of the request body. */
  datatype AttributeUpdate = AttributeUpdate(powerstate: Option<string>, networkstatus: Option<string>, vmstatus: Option<string>)

  /** `any([powerstate, networkstatus, vmstatus])`. */
  predicate HasAttributeToUpdate(u: AttributeUpdate) {
    Truthy(u.powerstate) || Truthy(u.networkstatus) || Truthy(u.vmstatus)
  }

  /** What `UpdateVmAttributes` gave: no connection, no row back, or the updated row. */
  datatype UpdateStore = UpdateUnreachable | UpdateNoRow | UpdateRow

  datatype UpdateResult = UpdateResult(status: int, storeCalled: bool)

  function UpdateVmAttributes(u: AttributeUpdate, store: UpdateStore): (r: UpdateResult)
    ensures r.status == 400 <==> !HasAttributeToUpdate(u)
    ensures r.storeCalled <==> HasAttributeToUpdate(u) && !store.UpdateUnreachable?
    ensures r.status == 200 <==> HasAttributeToUpdate(u) && store.UpdateRow?
    ensures r.status == 404 <==> HasAttributeToUpdate(u) && store.UpdateNoRow?
    ensures r.status == 500 <==> HasAttributeToUpdate(u) && store.UpdateUnreachable?
  {
    if !HasAttributeToUpdate(u) then UpdateResult(400, false)
    else
      match store
      case UpdateUnreachable => UpdateResult(500, false)
      case UpdateNoRow => UpdateResult(404, true)
      case UpdateRow => UpdateResult(200, true)
  }

  // ---------------------------------------------------------------------------
  // The `'null'` sentinel of the history queries (api/app.py:726-729, 759-762, 990-993)

  /** `None if x == 'null' else x`. */
  function NullToNone(x: Option<string>): (r: Option<string>)
    ensures r != Some("null")
    ensures x != Some("null") ==> r == x
    ensures r.None? <==> x.None? || x == Some("null")
  {
    if x == Some("null") then None else x
  }

  /** A value of the `limit` field: absent, text, or a JSON number. */
  datatype LimitParam = LimitAbsent | LimitText(text: string) | LimitNumber(n: int)

  /** The parameters passed to the history procedures. */
  datatype HistoryParams = HistoryParams(startdate: Option<string>, enddate: Option<string>, limit: LimitParam)

  /** The history routes: absent dates and `'null'` dates become None; an absent limit is 100, and
      any limit given, `'null'` included, is passed as it is. */
  function HistoryQuery(startdate: Option<string>, enddate: Option<string>, limit: LimitParam): HistoryParams {
    HistoryParams(NullToNone(startdate), NullToNone(enddate), if limit.LimitAbsent? then LimitNumber(100) else limit)
  }

  /** The front end's "no filter" request (both dates `'null'`) reaches the procedures as no dates,
      and normalising twice changes nothing; the limit is never mapped. */
  lemma HistoryQueryFacts(startdate: Option<string>, enddate: Option<string>, limit: LimitParam)
    ensures HistoryQuery(Some("null"), Some("null"), limit).startdate.None?
    ensures HistoryQuery(Some("null"), Some("null"), limit).enddate.None?
    ensures HistoryQuery(startdate, enddate, LimitText("null")).limit == LimitText("null")
    ensures var q := HistoryQuery(startdate, enddate, limit);
      HistoryQuery(q.startdate, q.enddate, q.limit) == q
  {
  }
}
