/**
 * The GET branches of the front end's history pages
 * (front_end/route_scaling_management.py:219-242 and 315-330,
 * front_end/route_vm_management.py:257-275): the stored list is cut into pages
 * of `per_page` entries and the page asked for is shown.
 */
module Pagination {
  import opened Wrappers

  /** A query argument: absent, an integer, or text `int()` rejects. */
  datatype QueryArg = ArgAbsent | ArgInt(n: int) | ArgInvalid

  /** `max(1, int(request.args.get(name, default)))`; None when `int()` raises. */
  function ClampedArg(arg: QueryArg, default: int): (r: Option<int>)
    ensures r.None? <==> arg.ArgInvalid?
    ensures r.Some? ==> r.value >= 1
    ensures arg.ArgInt? && arg.n >= 1 ==> r == Some(arg.n)
    ensures arg.ArgAbsent? && default >= 1 ==> r == Some(default)
  {
    match arg
    case ArgAbsent => Some(if default < 1 then 1 else default)
    case ArgInt(n) => Some(if n < 1 then 1 else n)
    case ArgInvalid => None
  }

  /** `(total_items + per_page - 1) // per_page`. */
  function TotalPages(totalItems: nat, perPage: int): (n: nat)
    requires perPage >= 1
  {
    (totalItems + perPage - 1) / perPage
  }

  /** Python's `s[start:end]` for non-negative bounds: both are cut down to the length. */
  function PySlice<T>(s: seq<T>, start: nat, end: nat): (r: seq<T>)
    ensures start <= end ==> |r| <= end - start
    ensures |r| <= |s|
  {
    var hi := if end < |s| then end else |s|;
    var lo := if start < hi then start else hi;
    s[lo..hi]
  }

  /** `log[(page - 1) * per_page : page * per_page]`: at most `per_page` entries, those from
      `(page - 1) * per_page` on. */
  function PageOf<T>(log: seq<T>, page: int, perPage: int): (p: seq<T>)
    requires page >= 1 && perPage >= 1
    ensures |p| <= perPage
    ensures forall j :: 0 <= j < |p| ==> (page - 1) * perPage + j < |log| && p[j] == log[(page - 1) * perPage + j]
  {
    PySlice(log, (page - 1) * perPage, (page - 1) * perPage + perPage)
  }

  /** What the page template receives. */
  datatype PageView<T> = PageView(items: seq<T>, page: int, totalPages: nat, perPage: int)

  /** A GET of a history page; None when an argument is not an integer (the route then redirects). */
  function ShowPage<T>(log: seq<T>, pageArg: QueryArg, perPageArg: QueryArg): (v: Option<PageView<T>>)
    ensures v.None? <==> pageArg.ArgInvalid? || perPageArg.ArgInvalid?
    ensures v.Some? ==> v.value.page >= 1 && v.value.perPage >= 1
  {
    var page := ClampedArg(pageArg, 1);
    var perPage := ClampedArg(perPageArg, 10);
    if page.None? || perPage.None? then None
    else Some(PageView(PageOf(log, page.value, perPage.value), page.value,
                       TotalPages(|log|, perPage.value), perPage.value))
  }

  // ---------------------------------------------------------------------------
  // Properties

  /** `total_pages` is the ceiling of `total_items / per_page`: the pages hold every item, the
      last page is not empty, and there are no pages exactly when there are no items. */
  lemma TotalPagesIsCeiling(totalItems: nat, perPage: int)
    requires perPage >= 1
    ensures TotalPages(totalItems, perPage) * perPage >= totalItems
    ensures TotalPages(totalItems, perPage) > 0 ==> (TotalPages(totalItems, perPage) - 1) * perPage < totalItems
    ensures TotalPages(totalItems, perPage) == 0 <==> totalItems == 0
  {
    var n := TotalPages(totalItems, perPage);
    var q := totalItems + perPage - 1;
    assert n * perPage <= q < n * perPage + perPage;
  }

  /** Multiplying by a non-negative number keeps the order. */
  lemma MulMono(a: int, b: int, c: int)
    requires a <= b && c >= 0
    ensures a * c <= b * c
  {
    assert b * c - a * c == (b - a) * c;
  }

  /** One factor fewer is one `c` less. */
  lemma MulPred(n: int, c: int)
    ensures (n - 1) * c + c == n * c
  {
  }

  /** A page as a plain slice of the log. */
  lemma PageAsSlice<T>(log: seq<T>, page: int, perPage: int, lo: int)
    requires page >= 1 && perPage >= 1 && lo == (page - 1) * perPage
    ensures lo + perPage <= |log| ==> PageOf(log, page, perPage) == log[lo..lo + perPage]
    ensures lo <= |log| < lo + perPage ==> PageOf(log, page, perPage) == log[lo..]
    ensures |log| < lo ==> PageOf(log, page, perPage) == []
  {
  }

  /** Every page before the last is full. */
  lemma PageFull<T>(log: seq<T>, page: int, perPage: int)
    requires perPage >= 1
    requires 1 <= page < TotalPages(|log|, perPage)
    ensures |PageOf(log, page, perPage)| == perPage
  {
    var n := TotalPages(|log|, perPage);
    TotalPagesIsCeiling(|log|, perPage);
    MulPred(page, perPage);
    MulMono(page, n - 1, perPage);
    assert (page - 1) * perPage + perPage <= |log|;
  }

  /** A page is empty exactly when its number is past the last page. */
  lemma PageEmptyIff<T>(log: seq<T>, page: int, perPage: int)
    requires page >= 1 && perPage >= 1
    ensures PageOf(log, page, perPage) == [] <==> page > TotalPages(|log|, perPage)
  {
    var n := TotalPages(|log|, perPage);
    var lo := (page - 1) * perPage;
    TotalPagesIsCeiling(|log|, perPage);
    PageAsSlice(log, page, perPage, lo);
    if page > n {
      MulMono(n, page - 1, perPage);
      assert lo >= |log|;
    } else {
      MulMono(page - 1, n - 1, perPage);
      assert lo < |log|;
      assert |PageOf(log, page, perPage)| > 0;
    }
  }

  /** Pages `1..n` laid end to end. */
  function PagesUpTo<T>(log: seq<T>, n: nat, perPage: int): seq<T>
    requires perPage >= 1
  {
    if n == 0 then [] else PagesUpTo(log, n - 1, perPage) + PageOf(log, n, perPage)
  }

  /** The first `n` pages are the first `n * per_page` entries (or all of them). */
  lemma {:induction false} PagesUpToPrefix<T>(log: seq<T>, n: nat, perPage: int)
    requires perPage >= 1
    ensures n * perPage <= |log| ==> PagesUpTo(log, n, perPage) == log[..n * perPage]
    ensures n * perPage > |log| ==> PagesUpTo(log, n, perPage) == log
  {
    if n > 0 {
      PagesUpToPrefix(log, n - 1, perPage);
      var lo := (n - 1) * perPage;
      var hi := n * perPage;
      MulPred(n, perPage);
      PageAsSlice(log, n, perPage, lo);
      var prev := PagesUpTo(log, n - 1, perPage);
      assert PagesUpTo(log, n, perPage) == prev + PageOf(log, n, perPage);
      if hi <= |log| {
        assert prev == log[..lo];
        assert log[..lo] + log[lo..hi] == log[..hi];
      } else if lo <= |log| {
        assert prev == log[..lo];
        assert log[..lo] + log[lo..] == log;
      } else {
        assert prev == log;
      }
    }
  }

  /** Paging loses and repeats nothing: pages `1..total_pages` laid end to end are the whole log. */
  lemma PagesCoverLog<T>(log: seq<T>, perPage: int)
    requires perPage >= 1
    ensures PagesUpTo(log, TotalPages(|log|, perPage), perPage) == log
  {
    var n := TotalPages(|log|, perPage);
    TotalPagesIsCeiling(|log|, perPage);
    PagesUpToPrefix(log, n, perPage);
    if n * perPage == |log| {
      assert log[..n * perPage] == log;
    }
  }
}
