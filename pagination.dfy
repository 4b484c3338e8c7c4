/** The paging of SignupTable (src/App.jsx): five rows per page, a page
    number kept in component state, and Prev/Next buttons that are disabled
    by equality tests on that number. */
module Pagination {

  /** One row of the "Recent signups" table. */
  datatype Signup = Signup(name: string, email: string, date: string, source: string, status: string)

  const PageSize: nat := 5

  function Min(a: int, b: int): int {
    if a <= b then a else b
  }

  /** How Array.prototype.slice resolves one bound against a length `n`:
      a negative bound counts from the end, and the result is clamped to 0..n. */
  function ResolveBound(k: int, n: nat): nat {
    if k < 0 then (if n + k < 0 then 0 else n + k)
    else if k > n then n
    else k
  }

  /** `s.slice(start, end)`. For non-negative bounds it is the part of `s`
      between them, cut off at the end of `s`; when both bounds lie on the same
      side of zero it is never longer than `end - start`. */
  function JsSlice<T>(s: seq<T>, start: int, end: int): (r: seq<T>)
    ensures |r| <= |s|
    ensures 0 <= start <= end ==> r == s[Min(start, |s|)..Min(end, |s|)]
    ensures start <= end && (0 <= start || end <= 0) ==> |r| <= end - start
  {
    var lo, hi := ResolveBound(start, |s|), ResolveBound(end, |s|);
    if lo < hi then s[lo..hi] else []
  }

  /** `Math.ceil(n / pageSize)`: the least number of pages of five that hold
      `n` rows. */
  function TotalPages(n: nat): (t: nat)
    ensures n <= t * PageSize
    ensures t == 0 || (t - 1) * PageSize < n
  {
    (n + PageSize - 1) / PageSize
  }

  /** `rows.slice((page - 1) * pageSize, page * pageSize)`: at most five rows;
      for a page number of at least 1, the rows from position (page-1)*5 up to
      page*5, cut off at the end of the table. */
  function PageSlice<T>(rows: seq<T>, page: int): (r: seq<T>)
    ensures |r| <= PageSize
    ensures 1 <= page ==>
              r == rows[Min((page - 1) * PageSize, |rows|)..Min(page * PageSize, |rows|)]
  {
    JsSlice(rows, (page - 1) * PageSize, page * PageSize)
  }

  /** `disabled={page===1}` on Prev. */
  predicate PrevDisabled(page: int) {
    page == 1
  }

  /** `disabled={page===total}` on Next. */
  predicate NextDisabled(page: int, n: nat) {
    page == TotalPages(n)
  }

  /** The page after a click on Prev: a disabled button does nothing,
      otherwise `setPage(p => p - 1)`. */
  function AfterPrev(page: int): int {
    if PrevDisabled(page) then page else page - 1
  }

  /** The page after a click on Next, with `n` rows in the table. */
  function AfterNext(page: int, n: nat): int {
    if NextDisabled(page, n) then page else page + 1
  }

  /** Every page before the last holds exactly five rows, the last holds the
      remaining one to five, and pages past the last are empty. */
  lemma PageLength<T>(rows: seq<T>, page: int)
    requires 1 <= page
    ensures var n, t := |rows|, TotalPages(|rows|);
            |PageSlice(rows, page)| ==
              if page < t then PageSize
              else if page == t then n - (t - 1) * PageSize
              else 0
    ensures page == TotalPages(|rows|) ==> 1 <= |PageSlice(rows, page)| <= PageSize
  {
    var n, t := |rows|, TotalPages(|rows|);
    if page < t {
      assert page * PageSize <= (t - 1) * PageSize;
    } else if page > t {
      assert (page - 1) * PageSize >= t * PageSize;
    }
  }

  /** Pages 1 to k of the table, one after another. */
  function Pages<T>(rows: seq<T>, k: nat): seq<T> {
    if k == 0 then [] else Pages(rows, k - 1) + PageSlice(rows, k)
  }

  /** The first k pages together are the first 5k rows (or all of them). */
  lemma {:induction false} PagesPrefix<T>(rows: seq<T>, k: nat)
    ensures Pages(rows, k) == rows[..Min(k * PageSize, |rows|)]
  {
    if k > 0 {
      PagesPrefix(rows, k - 1);
      var a, b := Min((k - 1) * PageSize, |rows|), Min(k * PageSize, |rows|);
      assert rows[..a] + rows[a..b] == rows[..b];
    }
  }

  /** Reading the pages 1 to total in order gives back exactly the table. */
  lemma PagesCoverRows<T>(rows: seq<T>)
    ensures Pages(rows, TotalPages(|rows|)) == rows
  {
    PagesPrefix(rows, TotalPages(|rows|));
  }

  /** For a non-empty table, a click on either button keeps a page number in
      1..total within 1..total; Prev is disabled exactly on the first page and
      Next exactly on the last. */
  lemma NavigationStaysInRange(page: int, n: nat)
    requires 0 < n && 1 <= page <= TotalPages(n)
    ensures 1 <= AfterPrev(page) <= TotalPages(n)
    ensures 1 <= AfterNext(page, n) <= TotalPages(n)
    ensures AfterPrev(page) == page <==> page == 1
    ensures AfterNext(page, n) == page <==> page == TotalPages(n)
  {
  }

  /** Twelve rows make three pages: page 1 shows rows 1-5, page 3 rows 11-12,
      and Next is disabled on page 3 and no other page. */
  lemma TwelveRows<T>(rows: seq<T>)
    requires |rows| == 12
    ensures TotalPages(12) == 3
    ensures PageSlice(rows, 1) == rows[0..5]
    ensures PageSlice(rows, 2) == rows[5..10]
    ensures PageSlice(rows, 3) == rows[10..12]
    ensures forall p :: NextDisabled(p, 12) <==> p == 3
  {
    assert (11 + PageSize) / PageSize == 3;
  }

  /** An empty table has no pages, so Next is never disabled and every click
      moves one page further, past any page that exists. */
  lemma EmptyTableNextNeverDisabled(page: int)
    requires 1 <= page
    ensures TotalPages(0) == 0
    ensures !NextDisabled(page, 0) && AfterNext(page, 0) == page + 1
    ensures PageSlice<Signup>([], page) == []
  {
  }

  /** Past the last page (a table that has shrunk or is still empty while the
      dashboard loads) Next stays enabled, every click moves one page further,
      and the page shows no rows. */
  lemma PastTheLastPage<T>(rows: seq<T>, page: int)
    requires 1 <= page && TotalPages(|rows|) < page
    ensures !NextDisabled(page, |rows|) && AfterNext(page, |rows|) == page + 1
    ensures PageSlice(rows, page) == [] && PageSlice(rows, page + 1) == []
  {
    PageLength(rows, page);
    PageLength(rows, page + 1);
  }

  /** The table component: the rows it is given and its page number. */
  class SignupTable {
    var rows: seq<Signup>
    var page: int

    /** Prev is never enabled on page 1, so the page number never drops below 1. */
    ghost predicate Valid()
      reads this
    {
      1 <= page
    }

    /** `useState(1)`. */
    constructor (rows: seq<Signup>)
      ensures Valid()
      ensures this.rows == rows && page == 1
    {
      this.rows := rows;
      page := 1;
    }

    function Total(): nat
      reads this
    {
      TotalPages(|rows|)
    }

    /** The rows rendered in the table body. */
    function Visible(): (r: seq<Signup>)
      reads this
      requires Valid()
      ensures |r| <= PageSize
      ensures r == rows[Min((page - 1) * PageSize, |rows|)..Min(page * PageSize, |rows|)]
    {
      PageSlice(rows, page)
    }

    method ClickPrev()
      requires Valid()
      modifies this`page
      ensures Valid()
      ensures page == AfterPrev(old(page))
    {
      if page != 1 {
        page := page - 1;
      }
    }

    method ClickNext()
      requires Valid()
      modifies this`page
      ensures Valid()
      ensures page == AfterNext(old(page), |rows|)
    {
      if page != TotalPages(|rows|) {
        page := page + 1;
      }
    }

    /** The parent re-renders with new rows (the dashboard data arriving);
        the page number is component state and stays as it was. */
    method ReceiveRows(rows: seq<Signup>)
      requires Valid()
      modifies this`rows
      ensures Valid()
      ensures this.rows == rows
    {
      this.rows := rows;
    }
  }
}
