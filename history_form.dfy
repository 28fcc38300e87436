/**
 * The POST branches of the three history pages of the front end
 * (`scaling_activity_log`, front_end/route_scaling_management.py:146-218;
 * `scaling_rules_history`, front_end/route_scaling_management.py:247-314;
 * `vm_history`, front_end/route_vm_management.py:189-256). Each reads the form,
 * turns flags and empty fields into the `"null"` sentinel, reformats the dates,
 * stores the query in the session, posts it to the API and stores what comes
 * back; the GET branch then pages through it. The scaling log and the rules
 * history of the API answer an empty result with a JSON object, not a list
 * (api/app.py:774-775, 1004-1005); the GET branch cannot page through that.
 *
 * The session is the map of the keys these routes use; the access token is
 * read from the session by the route and is passed here on its own.
 */
module HistoryForms {
  import opened Wrappers
  import FormDates
  import Pagination

  /** The form fields; an absent field is None (`request.form.get`). */
  datatype Form = Form(startdate: Option<string>, enddate: Option<string>, limit: Option<string>,
                       ignoreDates: Option<string>, ignoreLimit: Option<string>)

  /** The JSON body posted to the API. */
  datatype Query = Query(startdate: string, enddate: string, limit: string)

  /** What the form gives: a date `strptime` rejects, or the query. */
  datatype Normalised = BadStartDate | BadEndDate | Normalised(query: Query)

  /** `limit = request.form.get('limit', 'null')`, `"null"` under `ignore_limit`, and `limit if limit
      else "null"` in the body. */
  function LimitParam(f: Form): (l: string)
    ensures l != ""
  {
    var limit := if f.limit.None? then "null" else f.limit.value;
    var limit := if Truthy(f.ignoreLimit) then "null" else limit;
    if limit != "" then limit else "null"
  }

  /** A date field when the dates are not ignored: `"null"` when empty, the reformatted date when
      `strptime` accepts it, None when it raises. */
  function DateParam(d: Option<string>): Option<string> {
    if !Truthy(d) then Some("null") else FormDates.ReformatDate(d.value)
  }

  /** The form as the three routes normalise it; the start date is checked before the end date. */
  function Normalise(f: Form): Normalised {
    if Truthy(f.ignoreDates) then Normalised(Query("null", "null", LimitParam(f)))
    else
      var s := DateParam(f.startdate);
      if s.None? then BadStartDate
      else
        var e := DateParam(f.enddate);
        if e.None? then BadEndDate
        else Normalised(Query(s.value, e.value, LimitParam(f)))
  }

  // ---------------------------------------------------------------------------
  // The POST handler

  /** The three pages differ only in their API path, their two session keys, the page they fall
      back to when the request fails, and whether their API endpoint answers an empty result with a
      message object instead of an empty list. */
  datatype Route = Route(apiPath: string, dataKey: string, rowsKey: string, fallback: string, messageWhenEmpty: bool)

  const ScalingActivityLog := Route("/scaling/log", "scaling_activity_log_data", "scaling_activity_log", "view_all_rules", true)
  const ScalingRulesHistory := Route("/scaling/rules/history", "scaling_rules_history_data", "scaling_rules_history", "view_all_rules", true)
  const VmHistory := Route("/vms/history", "vm_history_data", "vm_history", "view_all_vms", false)

  /** The text of the object the two scaling endpoints answer an empty result with. */
  const NoActivities := "No scaling activities found for the specified criteria."

  predicate ValidRoute(r: Route) {
    r.dataKey != r.rowsKey
  }

  /** What the session holds under a key: the query, the list of rows the API returned, or the
      `{"message": ...}` object it returned instead. */
  datatype SessionValue<Row> = QueryData(query: Query) | Rows(rows: seq<Row>) | Message(text: string)

  /** The API's answer: a request exception (including `raise_for_status` on an error status), the
      rows, or a `{"message": ...}` object. */
  datatype Reply<Row> = ReplyRaised | ReplyRows(rows: seq<Row>) | ReplyMessage(text: string)

  /** What the route's API endpoint answers when the stored procedure returns `rows`. */
  function ApiReply<Row>(route: Route, rows: seq<Row>): (r: Reply<Row>)
    ensures r.ReplyMessage? <==> rows == [] && route.messageWhenEmpty
    ensures r.ReplyRows? ==> r.rows == rows
  {
    if rows == [] && route.messageWhenEmpty then ReplyMessage(NoActivities) else ReplyRows(rows)
  }

  datatype Redirect = ToSelf | ToLogin | ToFallback

  datatype PostOutcome<Row> = PostOutcome(redirect: Redirect, session: map<string, SessionValue<Row>>, sent: Option<Query>)

  /** What the POST stores under the rows key: `response.json()` as it came. */
  function Stored<Row>(reply: Reply<Row>): SessionValue<Row>
    requires !reply.ReplyRaised?
  {
    if reply.ReplyRows? then Rows(reply.rows) else Message(reply.text)
  }

  /** A POST of a history form. */
  function HistoryPost<Row>(route: Route, f: Form, accessToken: Option<string>,
                            session: map<string, SessionValue<Row>>, reply: Reply<Row>): PostOutcome<Row>
  {
    var n := Normalise(f);
    if !n.Normalised? then PostOutcome(ToSelf, session, None)
    else
      var s := session[route.dataKey := QueryData(n.query)];
      if !Truthy(accessToken) then PostOutcome(ToLogin, s, None)
      else if reply.ReplyRaised? then PostOutcome(ToFallback, s, Some(n.query))
      else PostOutcome(ToSelf, s[route.rowsKey := Stored(reply)], Some(n.query))
  }

  /** The form fields reassigned one after the other, as the routes do before building the body. */
  method NormaliseForm(f: Form) returns (n: Normalised)
    ensures n == Normalise(f)
  {
    var startdate := f.startdate;
    var enddate := f.enddate;
    var limit := if f.limit.None? then "null" else f.limit.value;
    if Truthy(f.ignoreLimit) {
      limit := "null";
    }
    if Truthy(f.ignoreDates) {
      startdate, enddate := Some("null"), Some("null");
    } else {
      if Truthy(startdate) {
        var r := FormDates.ReformatDate(startdate.value);
        if r.None? {
          return BadStartDate;
        }
        startdate := r;
      } else {
        startdate := Some("null");
      }
      assert startdate == DateParam(f.startdate);
      if Truthy(enddate) {
        var r := FormDates.ReformatDate(enddate.value);
        if r.None? {
          return BadEndDate;
        }
        enddate := r;
      } else {
        enddate := Some("null");
      }
    }
    return Normalised(Query(startdate.value, enddate.value, if limit != "" then limit else "null"));
  }

  /** The POST handler: the query is stored before the token is checked, the rows once they came. */
  method HandleHistoryPost<Row>(route: Route, f: Form, accessToken: Option<string>,
                                session: map<string, SessionValue<Row>>, reply: Reply<Row>)
    returns (out: PostOutcome<Row>)
    ensures out == HistoryPost(route, f, accessToken, session, reply)
  {
    var n := NormaliseForm(f);
    if !n.Normalised? {
      return PostOutcome(ToSelf, session, None);
    }
    var s := session;
    s := s[route.dataKey := QueryData(n.query)];
    if !Truthy(accessToken) {
      return PostOutcome(ToLogin, s, None);
    }
    if reply.ReplyRaised? {
      return PostOutcome(ToFallback, s, Some(n.query));
    }
    s := s[route.rowsKey := Stored(reply)];
    return PostOutcome(ToSelf, s, Some(n.query));
  }

  /** `session.get(rows_key, [])` as the GET branch reads it, when it is a list. */
  function StoredRows<Row>(session: map<string, SessionValue<Row>>, key: string): seq<Row> {
    if key in session && session[key].Rows? then session[key].rows else []
  }

  /** The GET branch: the page template, or a flashed error and a redirect to the fallback page. */
  datatype GetOutcome<Row> = Render(view: Pagination.PageView<Row>) | GetFailed

  /** A GET of a history page. A stored message object makes `log[start:end]` raise `TypeError`, as
      does a page argument `int()` rejects; the route then redirects to its fallback page. */
  function HistoryGet<Row>(session: map<string, SessionValue<Row>>, key: string,
                           pageArg: Pagination.QueryArg, perPageArg: Pagination.QueryArg): GetOutcome<Row>
  {
    if key in session && session[key].Message? then GetFailed
    else
      var v := Pagination.ShowPage(StoredRows(session, key), pageArg, perPageArg);
      if v.None? then GetFailed else Render(v.value)
  }

  // ---------------------------------------------------------------------------
  // Properties

  /** The limit sent is `"null"` when `ignore_limit` is set or the limit is absent or empty, and the
      limit as typed otherwise. */
  lemma LimitNormalisation(f: Form)
    ensures LimitParam(f) == "null" <==> Truthy(f.ignoreLimit) || !Truthy(f.limit) || f.limit == Some("null")
    ensures !Truthy(f.ignoreLimit) && Truthy(f.limit) ==> LimitParam(f) == f.limit.value
  {
  }

  /** With `ignore_dates` both dates are `"null"` whatever was typed, and no date can be rejected;
      otherwise an empty date is `"null"`, an accepted one is sent reformatted, and a rejected one
      stops the request (the start date first). */
  lemma {:induction false} DateNormalisation(f: Form)
    ensures Truthy(f.ignoreDates) ==>
      Normalise(f).Normalised? && Normalise(f).query.startdate == "null" && Normalise(f).query.enddate == "null"
    ensures !Truthy(f.ignoreDates) ==>
      && (Normalise(f) == BadStartDate <==> Truthy(f.startdate) && FormDates.ParseIsoDate(f.startdate.value).None?)
      && (Normalise(f) == BadEndDate <==>
            DateParam(f.startdate).Some? && Truthy(f.enddate) && FormDates.ParseIsoDate(f.enddate.value).None?)
    ensures !Truthy(f.ignoreDates) && Normalise(f).Normalised? ==>
      && (!Truthy(f.startdate) ==> Normalise(f).query.startdate == "null")
      && (Truthy(f.startdate) ==> Some(Normalise(f).query.startdate) == FormDates.ReformatDate(f.startdate.value))
      && (!Truthy(f.enddate) ==> Normalise(f).query.enddate == "null")
      && (Truthy(f.enddate) ==> Some(Normalise(f).query.enddate) == FormDates.ReformatDate(f.enddate.value))
    ensures Normalise(f).Normalised? ==> Normalise(f).query.limit == LimitParam(f)
  {
  }

  /** A rejected date redirects back to the form with nothing sent and the session untouched. */
  lemma InvalidDateChangesNothing<Row>(route: Route, f: Form, accessToken: Option<string>,
                                       session: map<string, SessionValue<Row>>, reply: Reply<Row>)
    requires !Normalise(f).Normalised?
    ensures var out := HistoryPost(route, f, accessToken, session, reply);
      out.redirect == ToSelf && out.sent.None? && out.session == session
  {
  }

  /** An accepted form is stored in the session before the token is looked at; the rows key changes
      only when the API answered, and then to the rows it returned; no other key changes. */
  lemma AcceptedFormEffects<Row>(route: Route, f: Form, accessToken: Option<string>,
                                 session: map<string, SessionValue<Row>>, reply: Reply<Row>)
    requires ValidRoute(route)
    requires Normalise(f).Normalised?
    ensures var out := HistoryPost(route, f, accessToken, session, reply);
      var q := Normalise(f).query;
      && route.dataKey in out.session && out.session[route.dataKey] == QueryData(q)
      && (forall k :: k in session && k != route.dataKey && k != route.rowsKey ==> k in out.session && out.session[k] == session[k])
      && out.session.Keys <= session.Keys + {route.dataKey, route.rowsKey}
      && (out.sent.Some? <==> Truthy(accessToken))
      && (out.sent.Some? ==> out.sent.value == q)
      && (!Truthy(accessToken) ==> out.redirect == ToLogin && StoredRows(out.session, route.rowsKey) == StoredRows(session, route.rowsKey))
      && (Truthy(accessToken) && reply.ReplyRaised? ==> out.redirect == ToFallback && StoredRows(out.session, route.rowsKey) == StoredRows(session, route.rowsKey))
      && (Truthy(accessToken) && reply.ReplyRows? ==> out.redirect == ToSelf && StoredRows(out.session, route.rowsKey) == reply.rows)
      && (Truthy(accessToken) && reply.ReplyMessage? ==> out.redirect == ToSelf && out.session[route.rowsKey] == Message(reply.text))
  {
  }

  /** After a successful search the GET branch pages through exactly the rows the API returned:
      pages `1..total_pages` laid end to end are those rows. */
  lemma SearchThenPage<Row>(route: Route, f: Form, token: string,
                            session: map<string, SessionValue<Row>>, rows: seq<Row>, perPage: int)
    requires ValidRoute(route) && Normalise(f).Normalised? && token != ""
    requires perPage >= 1
    ensures var out := HistoryPost(route, f, Some(token), session, ReplyRows(rows));
      var log := StoredRows(out.session, route.rowsKey);
      log == rows && Pagination.PagesUpTo(log, Pagination.TotalPages(|log|, perPage), perPage) == rows
  {
    AcceptedFormEffects(route, f, Some(token), session, ReplyRows(rows));
    Pagination.PagesCoverLog(rows, perPage);
  }

  /** The three routes keep their query and their rows under different keys. */
  lemma RoutesAreValid()
    ensures ValidRoute(ScalingActivityLog) && ValidRoute(ScalingRulesHistory) && ValidRoute(VmHistory)
  {
  }

  /** The GET branch fails exactly when a message object is stored or an argument is not an
      integer; otherwise it shows the page of the stored list the arguments ask for. */
  lemma HistoryGetOutcome<Row>(session: map<string, SessionValue<Row>>, key: string,
                               pageArg: Pagination.QueryArg, perPageArg: Pagination.QueryArg)
    ensures var g := HistoryGet(session, key, pageArg, perPageArg);
      && (g.GetFailed? <==>
            (key in session && session[key].Message?) || pageArg.ArgInvalid? || perPageArg.ArgInvalid?)
      && (g.Render? ==>
            && g.view.page >= 1 && g.view.perPage >= 1
            && g.view.items == Pagination.PageOf(StoredRows(session, key), g.view.page, g.view.perPage)
            && g.view.totalPages == Pagination.TotalPages(|StoredRows(session, key)|, g.view.perPage))
  {
  }

  /** An accepted POST with a token whose request did not raise redirects back to the page and
      stores the API's answer as it came. */
  lemma PostStoresReply<Row>(route: Route, f: Form, token: string,
                             session: map<string, SessionValue<Row>>, reply: Reply<Row>)
    requires Normalise(f).Normalised? && token != "" && !reply.ReplyRaised?
    ensures var out := HistoryPost(route, f, Some(token), session, reply);
      out.redirect == ToSelf && route.rowsKey in out.session && out.session[route.rowsKey] == Stored(reply)
  {
  }

  /** The GET branch on the answer to an empty search. */
  lemma StoredEmptyReply<Row>(route: Route, session: map<string, SessionValue<Row>>,
                              pageArg: Pagination.QueryArg, perPageArg: Pagination.QueryArg)
    requires route.rowsKey in session && session[route.rowsKey] == Stored(ApiReply<Row>(route, []))
    ensures var g := HistoryGet(session, route.rowsKey, pageArg, perPageArg);
      && (route.messageWhenEmpty ==> g == GetFailed)
      && (!route.messageWhenEmpty && !pageArg.ArgInvalid? && !perPageArg.ArgInvalid? ==>
            g.Render? && g.view.items == [] && g.view.totalPages == 0)
  {
    if !route.messageWhenEmpty {
      assert StoredRows(session, route.rowsKey) == [];
      HistoryGetOutcome(session, route.rowsKey, pageArg, perPageArg);
      var g := HistoryGet(session, route.rowsKey, pageArg, perPageArg);
      if g.Render? {
        Pagination.TotalPagesIsCeiling(0, g.view.perPage);
      }
    }
  }

  /** A scaling search that finds nothing stores the API's message object and redirects back to the
      page, whose GET then fails for every page asked for and redirects to the fallback page. The VM
      history answers an empty list instead, and its page shows no entries. */
  lemma EmptyScalingSearchBreaksPaging<Row>(route: Route, f: Form, token: string,
                                            session: map<string, SessionValue<Row>>,
                                            pageArg: Pagination.QueryArg, perPageArg: Pagination.QueryArg)
    requires ValidRoute(route) && Normalise(f).Normalised? && token != ""
    ensures var out := HistoryPost(route, f, Some(token), session, ApiReply<Row>(route, []));
      var g := HistoryGet(out.session, route.rowsKey, pageArg, perPageArg);
      && out.redirect == ToSelf
      && (route.messageWhenEmpty ==> g == GetFailed)
      && (!route.messageWhenEmpty && !pageArg.ArgInvalid? && !perPageArg.ArgInvalid? ==>
            g.Render? && g.view.items == [] && g.view.totalPages == 0)
  {
    var reply := ApiReply<Row>(route, []);
    var out := HistoryPost(route, f, Some(token), session, reply);
    PostStoresReply(route, f, token, session, reply);
    StoredEmptyReply(route, out.session, pageArg, perPageArg);
  }
}
