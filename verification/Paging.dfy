/** The paged listing of services (pkg/storage/repositories/service_repository.go,
    pkg/providers/proxy/routes.go). */
module Paging {

  datatype Pagination<T> = Pagination(items: seq<T>, page: int, perPage: int, total: nat, totalPages: int)

  /** The rows a filter keeps, in their order. */
  function Matching<T>(rows: seq<T>, keep: T -> bool): seq<T> {
    if rows == [] then [] else (if keep(rows[0]) then [rows[0]] else []) + Matching(rows[1..], keep)
  }

  function Min(a: int, b: int): int { if a < b then a else b }

  /** Offset and limit. */
  function PageOf<T>(matches: seq<T>, page: int, size: int): seq<T>
    requires page >= 1 && size >= 1
  {
    var offset := Min((page - 1) * size, |matches|);
    matches[offset..Min(offset + size, |matches|)]
  }

  /** The items are those from (page - 1) * size on, and a page that is not full ends
      with the last match. */
  ghost predicate IsPage<T>(matches: seq<T>, items: seq<T>, page: int, size: int) {
    var offset := (page - 1) * size;
    && |items| <= size
    && (|items| < size ==> offset + |items| == |matches| || (items == [] && offset >= |matches|))
    && (items != [] ==> 0 <= offset && offset + |items| <= |matches| && items == matches[offset..offset + |items|])
  }

  lemma PageIsPage<T>(matches: seq<T>, page: int, size: int)
    requires page >= 1 && size >= 1
    ensures IsPage(matches, PageOf(matches, page, size), page, size)
  {
    Product(0, page - 1, size);
  }

  function Ceiling(x: real): int { -((-x).Floor) }

  function TotalPages(total: nat, size: int): int
    requires size >= 1
  {
    Ceiling(total as real / size as real)
  }

  /** handleGetServices and ListServicesPaginated: a page below 1 is the first, and a
      size outside of 1 to 200 is 25. */
  method GetServices<T>(rows: seq<T>, keep: T -> bool, page: int, pageSize: int) returns (r: Pagination<T>)
    ensures if page >= 1 then r.page == page else r.page == 1
    ensures if 1 <= pageSize <= 200 then r.perPage == pageSize else r.perPage == 25
    ensures r.items == PageOf(Matching(rows, keep), r.page, r.perPage)
    ensures IsPage(Matching(rows, keep), r.items, r.page, r.perPage)
    ensures r.total == |Matching(rows, keep)|
    ensures (r.totalPages - 1) * r.perPage < r.total <= r.totalPages * r.perPage
    ensures r.items == [] <==> r.page > r.totalPages
  {
    hide *;
    var p := if page < 1 then 1 else page;
    var size := if pageSize < 1 || pageSize > 200 then 25 else pageSize;
    var matches := Select(rows, keep);
    r := Pagination(PageOf(matches, p, size), p, size, |matches|, TotalPages(|matches|, size));
    TotalPagesIsExact(|matches|, size);
    PageIsEmptyExactly(matches, p, size);
    PageIsPage(matches, p, size);
  }

  /** A filter works row by row and keeps the order of what it picks. */
  lemma {:induction false} MatchingAppend<T>(a: seq<T>, b: seq<T>, keep: T -> bool)
    ensures Matching(a + b, keep) == Matching(a, keep) + Matching(b, keep)
  {
    if a == [] {
      assert a + b == b;
    } else {
      assert (a + b)[1..] == a[1..] + b;
      MatchingAppend(a[1..], b, keep);
    }
  }

  /** And it picks the rows to keep. */
  lemma {:induction false} MatchingPicks<T>(rows: seq<T>, keep: T -> bool, x: T)
    ensures x in Matching(rows, keep) <==> x in rows && keep(x)
  {
    if rows != [] {
      MatchingPicks(rows[1..], keep, x);
      assert x in rows <==> x == rows[0] || x in rows[1..];
    }
  }

  method Select<T>(rows: seq<T>, keep: T -> bool) returns (matches: seq<T>)
    ensures matches == Matching(rows, keep)
  {
    hide Matching;
    matches := [];
    var k := 0;
    assert rows[0..] == rows;
    while k < |rows|
      invariant 0 <= k <= |rows|
      invariant matches + Matching(rows[k..], keep) == Matching(rows, keep)
    {
      MatchingFrom(rows, keep, k);
      if keep(rows[k]) { matches := matches + [rows[k]]; }
      k := k + 1;
    }
    NoneMatch(keep);
    assert rows[k..] == [] && matches + [] == matches;
  }

  lemma MatchingFrom<T>(rows: seq<T>, keep: T -> bool, k: nat)
    requires k < |rows|
    ensures Matching(rows[k..], keep) == (if keep(rows[k]) then [rows[k]] else []) + Matching(rows[k + 1..], keep)
  {
    assert rows[k..][1..] == rows[k + 1..];
  }

  lemma NoneMatch<T>(keep: T -> bool)
    ensures Matching([], keep) == []
  {
  }

  lemma CeilingBounds(x: real)
    ensures (Ceiling(x) - 1) as real < x <= Ceiling(x) as real
  {
  }

  lemma Scaled(x: real, n: int, size: int, total: nat)
    requires size >= 1 && x * size as real == total as real
    ensures n as real < x ==> n * size < total
    ensures x <= n as real ==> total <= n * size
  {
    var s := size as real;
    assert n as real < x ==> n as real * s < x * s;
    assert x <= n as real ==> x * s <= n as real * s;
    assert n as real * s == (n * size) as real;
  }

  /** The number of pages is the least that holds all rows. */
  lemma TotalPagesIsExact(total: nat, size: int)
    requires size >= 1
    ensures (TotalPages(total, size) - 1) * size < total <= TotalPages(total, size) * size
    ensures TotalPages(total, size) >= 0
  {
    hide Ceiling;
    var x, n := total as real / size as real, TotalPages(total, size);
    CeilingBounds(x);
    Scaled(x, n - 1, size, total);
    Scaled(x, n, size, total);
    if n < 0 { Product(n, -1, size); }
  }

  lemma Product(a: int, b: int, size: int)
    requires a <= b && size >= 1
    ensures a * size <= b * size
  {
  }

  lemma PageIsEmptyExactly<T>(matches: seq<T>, page: int, size: int)
    requires page >= 1 && size >= 1
    ensures PageOf(matches, page, size) == [] <==> page > TotalPages(|matches|, size)
  {
    var n := TotalPages(|matches|, size);
    TotalPagesIsExact(|matches|, size);
    if page > n {
      Product(n, page - 1, size);
    } else {
      Product(page - 1, n - 1, size);
    }
  }

  /** Pages 1 to n, one after the other. */
  function Pages<T>(matches: seq<T>, size: int, n: nat): seq<T>
    requires size >= 1
  {
    if n == 0 then [] else Pages(matches, size, n - 1) + PageOf(matches, n, size)
  }

  lemma PageFollows<T>(matches: seq<T>, size: int, n: nat)
    requires size >= 1 && n >= 1 && (n - 1) * size >= 0 && n * size == (n - 1) * size + size
    ensures matches[..Min((n - 1) * size, |matches|)] + PageOf(matches, n, size) == matches[..Min(n * size, |matches|)]
  {
  }

  lemma {:induction false} PagesArePrefix<T>(matches: seq<T>, size: int, n: nat)
    requires size >= 1
    ensures n * size >= 0 && Pages(matches, size, n) == matches[..Min(n * size, |matches|)]
  {
    hide PageOf;
    hide Min;
    if n > 0 {
      PagesArePrefix(matches, size, n - 1);
      assert n * size == (n - 1) * size + size;
      PageFollows(matches, size, n);
    } else {
      NoPages(matches);
    }
  }

  lemma NoPages<T>(matches: seq<T>)
    ensures Min(0, |matches|) == 0 && matches[..0] == []
  {
  }

  /** All pages together are the matches, each once and in order. */
  lemma PagesPartition<T>(matches: seq<T>, size: int)
    requires size >= 1
    ensures TotalPages(|matches|, size) >= 0 && Pages(matches, size, TotalPages(|matches|, size)) == matches
  {
    TotalPagesIsExact(|matches|, size);
    PagesArePrefix(matches, size, TotalPages(|matches|, size));
  }
}
