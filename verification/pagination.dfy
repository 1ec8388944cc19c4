/** The pagination stage of `getAllMenus`: `total_pages` computed as
    `Math.ceil(total / limit) || 1` and the page cut with
    `Array.prototype.slice`, for every integer page number and page size. */
module Pagination {

  /** The page size used when `per_page` is absent or not a number. */
  const DefaultPerPage: int := 10

  /** The page number used when `page` is absent or not a number. */
  const DefaultPage: int := 1

  /** A `total_pages` value: a finite count, or `Infinity` (a page size of
      0 with items to show). */
  datatype PageCount = Pages(count: int) | Unbounded

  function Min(a: int, b: int): int {
    if a <= b then a else b
  }

  /** `Math.ceil(total / limit)` for a positive page size. */
  function CeilDiv(total: nat, limit: int): (n: nat)
    requires limit > 0
    ensures total == 0 ==> n == 0
    ensures total > 0 ==> (n - 1) * limit < total <= n * limit
  {
    (total + limit - 1) / limit
  }

  /** `Math.ceil(total / limit) || 1`: a result of 0 (or `-0`, or the `NaN`
      of 0/0) is falsy and becomes 1. */
  function TotalPages(total: nat, limit: int): (r: PageCount)
    ensures total == 0 ==> r == Pages(1)
    ensures limit > 0 ==> r.Pages? && r.count >= 1
    ensures limit == 0 ==> (r.Unbounded? <==> total > 0)
    ensures limit < 0 ==> r.Pages? && r.count <= 1
  {
    if limit > 0 then
      Pages(if total == 0 then 1 else CeilDiv(total, limit))
    else if limit == 0 then
      if total == 0 then Pages(1) else Unbounded
    else
      // total / limit lies in (-inf, 0]; its ceiling is minus the floor of
      // total / -limit.
      var c := -(total / -limit);
      Pages(if c == 0 then 1 else c)
  }

  /** For a positive page size, `total_pages` is the least number of pages
      of `limit` items that hold `total` items (and 1 when there are none). */
  lemma TotalPagesPositive(total: nat, limit: int)
    requires limit > 0 && total > 0
    ensures var n := TotalPages(total, limit).count;
            (n - 1) * limit < total <= n * limit
  {
  }

  /** For a negative page size, `total_pages` is 1 while `total` is below
      `-limit` and otherwise the ceiling of the negative quotient. */
  lemma TotalPagesNegative(total: nat, limit: int)
    requires limit < 0
    ensures var n := TotalPages(total, limit).count;
            && (n == 1 <==> total < -limit)
            && (total >= -limit ==> n < 0 && n * limit <= total < (n - 1) * limit)
  {
    var q := total / -limit;
    assert q * -limit <= total < (q + 1) * -limit;
    if total < -limit {
      assert q == 0;
    } else {
      MulMonotone(1, q, -limit);
    }
  }

  /** How `slice` turns a relative index into a position in a sequence of
      length `len`: negative indices count from the end; both are clamped. */
  function SliceIndex(rel: int, len: nat): (i: nat)
    ensures i <= len
    ensures 0 <= rel ==> i == Min(rel, len)
    ensures rel < 0 ==> i == if len + rel < 0 then 0 else len + rel
  {
    if rel < 0 then (if len + rel < 0 then 0 else len + rel)
    else Min(rel, len)
  }

  /** `xs.slice(start, end)`. */
  function JsSlice<T>(xs: seq<T>, start: int, end: int): (r: seq<T>)
    ensures |r| <= |xs|
    ensures 0 <= start <= end ==> r == xs[Min(start, |xs|)..Min(end, |xs|)]
    ensures 0 <= end <= start ==> r == []
  {
    var s := SliceIndex(start, |xs|);
    var e := SliceIndex(end, |xs|);
    if s < e then xs[s..e] else []
  }

  /** A negative `end` first cuts the last `-end` items off; the slice then
      runs from `start` to the end of what is left. */
  lemma SliceNegativeEnd<T>(xs: seq<T>, start: int, end: int)
    requires 0 <= start && end < 0
    ensures var rest := if |xs| + end < 0 then [] else xs[..|xs| + end];
            JsSlice(xs, start, end) == rest[Min(start, |rest|)..]
  {
  }

  /** `startIndex`: where page `page` starts. */
  function PageStart(page: int, limit: int): int {
    (page - 1) * limit
  }

  /** `result.slice(startIndex, startIndex + limit)`. */
  function PageOf<T>(xs: seq<T>, page: int, limit: int): seq<T> {
    var start := PageStart(page, limit);
    JsSlice(xs, start, start + limit)
  }

  /** For a page number and size of at least 1, a page is the window of at
      most `limit` items starting at `(page - 1) * limit`, empty once the
      window starts past the end. */
  lemma PageWindow<T>(xs: seq<T>, page: int, limit: int)
    requires page >= 1 && limit >= 1
    ensures var start := PageStart(page, limit);
            var data := PageOf(xs, page, limit);
            && 0 <= start
            && |data| <= limit
            && (start < |xs| ==> data == xs[start..Min(|xs|, start + limit)])
            && (start >= |xs| ==> data == [])
  {
    MulMonotone(0, page - 1, limit);
  }

  /** The pages 1 to n laid end to end. */
  ghost function FirstPages<T>(xs: seq<T>, limit: int, n: nat): seq<T> {
    if n == 0 then [] else FirstPages(xs, limit, n - 1) + PageOf(xs, n, limit)
  }

  /** The first n pages are the items before page n + 1 starts. */
  lemma {:induction false} FirstPagesPrefix<T>(xs: seq<T>, limit: int, n: nat)
    requires limit >= 1
    ensures 0 <= PageStart(n + 1, limit)
    ensures FirstPages(xs, limit, n) == xs[..Min(|xs|, PageStart(n + 1, limit))]
  {
    NextPageStart(n, limit);
    if n > 0 {
      var start := PageStart(n, limit);
      FirstPagesPrefix(xs, limit, n - 1);
      PageWindow(xs, n, limit);
      var page := if start < |xs| then xs[start..Min(|xs|, start + limit)] else [];
      assert PageOf(xs, n, limit) == page;
      assert FirstPages(xs, limit, n) == xs[..Min(|xs|, start)] + page;
      PrefixThenWindow(xs, start, limit);
    }
  }

  /** The items before `start`, then the window of `limit` items from
      `start`, are the items before `start + limit`. */
  lemma PrefixThenWindow<T>(xs: seq<T>, start: int, limit: int)
    requires 0 <= start && limit >= 1
    ensures xs[..Min(|xs|, start)]
              + (if start < |xs| then xs[start..Min(|xs|, start + limit)] else [])
            == xs[..Min(|xs|, start + limit)]
  {
    if start < |xs| {
      assert xs[..start] + xs[start..Min(|xs|, start + limit)] == xs[..Min(|xs|, start + limit)];
    }
  }

  /** Page n + 1 starts `limit` items after page n. */
  lemma NextPageStart(n: nat, limit: int)
    requires limit >= 1
    ensures PageStart(n + 1, limit) == PageStart(n, limit) + limit
    ensures 0 <= PageStart(n + 1, limit)
  {
    MulMonotone(0, n, limit);
  }

  /** The pages 1 to `total_pages` hold every item once, in order. */
  lemma PagesCoverResult<T>(xs: seq<T>, limit: int)
    requires limit >= 1
    ensures TotalPages(|xs|, limit).Pages?
    ensures FirstPages(xs, limit, TotalPages(|xs|, limit).count) == xs
  {
    var n := TotalPages(|xs|, limit).count;
    FirstPagesPrefix(xs, limit, n);
    assert PageStart(n + 1, limit) == n * limit;
  }

  /** With items to show, a page has items exactly when its number lies
      between 1 and `total_pages`. */
  lemma NonEmptyPages<T>(xs: seq<T>, page: int, limit: int)
    requires page >= 1 && limit >= 1 && |xs| > 0
    ensures PageOf(xs, page, limit) != [] <==> page <= TotalPages(|xs|, limit).count
  {
    PageWindow(xs, page, limit);
    var n := TotalPages(|xs|, limit).count;
    var start := (page - 1) * limit;
    var data := PageOf(xs, page, limit);
    if page <= n {
      MulMonotone(page - 1, n - 1, limit);
      assert start < |xs|;
      assert |data| == Min(|xs|, start + limit) - start > 0;
    } else {
      MulMonotone(n, page - 1, limit);
      assert start >= |xs|;
    }
  }

  lemma MulMonotone(a: int, b: int, c: nat)
    requires a <= b
    ensures a * c <= b * c
  {
    assert b * c - a * c == (b - a) * c;
  }

  /** 25 items at 10 per page make 3 pages; page 3 holds the last 5 items
      and page 4 none, with the same metadata. */
  lemma TwentyFiveItems<T>(xs: seq<T>)
    requires |xs| == 25
    ensures TotalPages(|xs|, DefaultPerPage) == Pages(3)
    ensures PageOf(xs, 3, DefaultPerPage) == xs[20..]
    ensures PageOf(xs, 4, DefaultPerPage) == []
    ensures TotalPages(0, DefaultPerPage) == Pages(1)
  {
  }
}
