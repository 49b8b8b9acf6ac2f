/** `Page<T>`: one page of a listing, and the `Skip`/`Take` slicing the controllers do to fill it. */
module Paging {
  import opened Base
  import opened Linq

  /** `(int)Math.Ceiling((double)a / b)`; the double quotient of two `int`s is exact enough for this. */
  function CeilDiv(a: int, b: int): int
    requires b != 0
  {
    if b > 0 then -((-a) / b) else -(a / (-b))
  }

  lemma CeilDivBounds(a: int, b: int)
    requires b > 0
    ensures (CeilDiv(a, b) - 1) * b < a <= CeilDiv(a, b) * b
  {
    var q, m := (-a) / b, (-a) % b;
    assert -a == q * b + m && 0 <= m < b;
    assert CeilDiv(a, b) * b == -q * b;
    assert (CeilDiv(a, b) - 1) * b == -q * b - b;
  }

  datatype Page<T> = Page(
    items: seq<T>,
    totalItems: Int32,
    currentPage: Int32,
    pageSize: Int32,
    sortBy: Option<string>,
    sortOrder: Option<string>,
    searchQuery: Option<string>)
  {
    function TotalPages(): (r: int)
      requires pageSize != 0
      ensures pageSize > 0 && totalItems >= 0 ==> (r == 0 <==> totalItems == 0) && r >= 0
      ensures pageSize > 0 ==> (r - 1) * pageSize < totalItems <= r * pageSize
    {
      assert pageSize > 0 ==> (CeilDiv(totalItems, pageSize) - 1) * pageSize < totalItems <= CeilDiv(totalItems, pageSize) * pageSize by {
        if pageSize > 0 { CeilDivBounds(totalItems, pageSize); }
      }
      CeilDiv(totalItems, pageSize)
    }

    predicate HasPreviousPage() {
      currentPage > 1
    }

    predicate HasNextPage()
      requires pageSize != 0
    {
      currentPage < TotalPages()
    }
  }

  /** `new Page<T>()`: no items, numbers zero, strings null. */
  function NewPage<T>(): (r: Page<T>)
    ensures r.items == [] && r.totalItems == 0 && r.currentPage == 0 && r.pageSize == 0
    ensures r.sortBy == None && r.sortOrder == None && r.searchQuery == None
  {
    Page([], 0, 0, 0, None, None, None)
  }

  /** There is a next page exactly when the current one does not reach the last item. */
  lemma {:induction false} HasNextPageIff<T>(pg: Page<T>)
    requires pg.pageSize > 0
    ensures pg.HasNextPage() <==> pg.currentPage * pg.pageSize < pg.totalItems
  {
    var tp, ps, cp := pg.TotalPages(), pg.pageSize as int, pg.currentPage as int;
    if cp < tp {
      MulMonotone(cp, tp - 1, ps);
    } else {
      MulMonotone(tp, cp, ps);
    }
  }

  /** The last page and an empty listing have no next page. */
  lemma NoNextPageAtEnd<T>(pg: Page<T>)
    requires pg.pageSize > 0 && pg.totalItems >= 0
    requires pg.currentPage >= pg.TotalPages()
    ensures !pg.HasNextPage()
  {
  }

  /** For a page number of at least 1, there is a previous page exactly when the page starts past item 0. */
  lemma {:induction false} HasPreviousPageIff<T>(pg: Page<T>)
    requires pg.pageSize > 0 && pg.currentPage >= 1
    ensures pg.HasPreviousPage() <==> (pg.currentPage - 1) * pg.pageSize > 0
  {
    var ps, cp := pg.pageSize as int, pg.currentPage as int;
    if cp > 1 {
      MulMonotone(1, cp - 1, ps);
    } else {
      assert cp - 1 == 0;
    }
  }

  // ---------------------------------------------------------------------
  // Slicing a listing into pages.

  /** Index of the first item of page `page`, computed in C# `int` arithmetic. */
  function PageStart(page: Int32, pageSize: Int32): Int32 {
    Wrap32(Times(Wrap32(page - 1), pageSize))
  }

  lemma SkipTake<T>(s: seq<T>, a: int, n: int)
    requires 0 <= a && 0 <= n
    ensures Take(Skip(s, a), n) == s[Min(a, |s|)..Min(a + n, |s|)]
  {
  }

  lemma MulMonotone(a: int, b: int, c: int)
    requires a <= b && 0 <= c
    ensures a * c <= b * c
  {
    assert b * c - a * c == (b - a) * c;
  }

  /** Without overflow, the C# offset is the mathematical one. */
  lemma PageStartExact(page: Int32, pageSize: Int32)
    requires 1 <= page && 0 <= pageSize && 0 <= (page - 1) * pageSize <= MaxInt32
    ensures PageStart(page, pageSize) == (page - 1) * pageSize
  {
    var a := page - 1;
    assert Wrap32(a) == a;
    MulMonotone(0, a, pageSize);
    Product(a, pageSize);
    assert Wrap32(Times(a, pageSize)) == a * pageSize;
  }

  /** `.Skip((page - 1) * pageSize).Take(pageSize)` */
  function PageOf<T>(s: seq<T>, page: Int32, pageSize: Int32): (r: seq<T>)
    ensures pageSize <= 0 ==> r == []
    ensures |r| <= pageSize || r == []
  {
    Take(Skip(s, PageStart(page, pageSize)), pageSize)
  }

  /** Page `page` (from 1) holds the items from index (page - 1) * pageSize up to, not including, page * pageSize. */
  lemma PageOfSlice<T>(s: seq<T>, page: Int32, pageSize: Int32)
    requires 1 <= page && 0 <= pageSize && 0 <= (page - 1) * pageSize <= MaxInt32
    ensures var start := (page - 1) * pageSize;
      PageOf(s, page, pageSize) == s[Min(start, |s|)..Min(start + pageSize, |s|)]
  {
    var start := (page - 1) * pageSize;
    PageStartExact(page, pageSize);
    assert PageStart(page, pageSize) == start;
    SkipTake(s, start, pageSize);
  }

  /** `chunk(lo) + chunk(lo + 1) + ... + chunk(hi)`. */
  function Concat<T>(chunk: int -> seq<T>, lo: int, hi: int): seq<T>
    decreases hi - lo
  {
    if lo > hi then [] else chunk(lo) + Concat(chunk, lo + 1, hi)
  }

  /** Page number `page` of the list; a number no `int` can hold shows nothing. */
  function PageNumbered<T>(s: seq<T>, pageSize: Int32, page: int): seq<T> {
    if MinInt32 <= page <= MaxInt32 then PageOf(s, page as Int32, pageSize) else []
  }

  function Pages<T>(s: seq<T>, pageSize: Int32): int -> seq<T> {
    (page: int) => PageNumbered(s, pageSize, page)
  }

  /** Pages `page` to `last`, one after another. */
  function PagesFrom<T>(s: seq<T>, pageSize: Int32, page: int, last: int): seq<T> {
    Concat(Pages(s, pageSize), page, last)
  }

  lemma SliceConcat<T>(s: seq<T>, lo: int, mid: int)
    requires 0 <= lo <= mid <= |s|
    ensures s[lo..mid] + s[mid..] == s[lo..]
  {
  }

  /** Chunks that cut `s` into consecutive blocks of `size` items, from block `page` on, rebuild `s` from there. */
  lemma {:induction false} ConcatBlocks<T>(s: seq<T>, chunk: int -> seq<T>, size: int, page: int, last: int)
    requires size > 0
    requires (last - 1) * size < |s| <= last * size
    requires 1 <= page <= last + 1
    requires forall p :: page <= p <= last ==> chunk(p) == Take(Skip(s, (p - 1) * size), size)
    ensures Concat(chunk, page, last) == s[Min((page - 1) * size, |s|)..]
    decreases last - page
  {
    var st := (page - 1) * size;
    if page > last {
      assert st == last * size;
    } else {
      var en := st + size;
      assert 0 <= st < |s| by {
        MulMonotone(0, page - 1, size);
        MulMonotone(page - 1, last - 1, size);
      }
      assert page * size == en;
      SkipTake(s, st, size);
      ConcatBlocks(s, chunk, size, page + 1, last);
      SliceConcat(s, st, Min(en, |s|));
    }
  }

  /** Without overflow, every page from 1 to `last` is the block `(page - 1) * pageSize` starts. */
  lemma PagesAreBlocks<T>(s: seq<T>, pageSize: Int32, last: int)
    requires pageSize > 0 && |s| <= MaxInt32
    requires (last - 1) * pageSize < |s|
    ensures forall p :: 1 <= p <= last ==> Pages(s, pageSize)(p) == Take(Skip(s, (p - 1) * pageSize), pageSize)
  {
    forall p | 1 <= p <= last
      ensures Pages(s, pageSize)(p) == Take(Skip(s, (p - 1) * pageSize), pageSize)
    {
      PageIsBlock(s, pageSize, p, last);
    }
  }

  lemma PageIsBlock<T>(s: seq<T>, pageSize: Int32, p: int, last: int)
    requires pageSize > 0 && |s| <= MaxInt32
    requires (last - 1) * pageSize < |s| && 1 <= p <= last
    ensures PageNumbered(s, pageSize, p) == Take(Skip(s, (p - 1) * pageSize), pageSize)
  {
    assert 0 <= (p - 1) * pageSize <= (last - 1) * pageSize by {
      MulMonotone(0, p - 1, pageSize);
      MulMonotone(p - 1, last - 1, pageSize);
    }
    PageStartExact(p as Int32, pageSize);
  }

  /** Pages from `page` to the last one hold the list from that page's first item on. */
  lemma PagesFromSuffix<T>(s: seq<T>, pageSize: Int32, page: int, last: int)
    requires pageSize > 0 && |s| <= MaxInt32
    requires (last - 1) * pageSize < |s| <= last * pageSize
    requires 1 <= page <= last + 1
    ensures PagesFrom(s, pageSize, page, last) == s[Min((page - 1) * pageSize, |s|)..]
  {
    PagesAreBlocks(s, pageSize, last);
    ConcatBlocks(s, Pages(s, pageSize), pageSize as int, page, last);
  }

  /** For a positive page size, pages 1 to TotalPages list every item exactly once, in order. */
  lemma AllPages<T>(s: seq<T>, pageSize: Int32)
    requires pageSize > 0 && |s| <= MaxInt32
    ensures PagesFrom(s, pageSize, 1, Page(s, |s|, 1, pageSize, None, None, None).TotalPages()) == s
  {
    CeilDivBounds(|s|, pageSize as int);
    PagesFromSuffix(s, pageSize, 1, CeilDiv(|s|, pageSize as int));
  }
}
