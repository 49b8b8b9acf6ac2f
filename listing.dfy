/**
 * What the two note listings (`HomeController.Index` and `NoteController.Index`) share: the
 * shortened title and description of a listed note, and the page built from the filtered,
 * sorted notes.
 */
module Listing {
  import opened Base
  import opened Runtime
  import opened Linq
  import opened Paging
  import opened Models
  import opened DataHelper

  const ShortTitleLength: int := 30
  const DescriptionLength: int := 100

  /** A title longer than 30 characters is cut to its first 30 plain-text characters and "..." is added. */
  function ShortTitle(p: Platform, title: Option<string>): (r: Option<string>)
    ensures title == None <==> r == None
    ensures title != None && |title.value| <= ShortTitleLength ==> r == title
    ensures title != None && |title.value| > ShortTitleLength ==>
      var plain := GetPlainText(p, title.value, true);
      |r.value| <= ShortTitleLength + 3
      && r.value == plain[..Min(ShortTitleLength, |plain|)] + "..."
  {
    if title != None && |title.value| > ShortTitleLength then
      Some(GetShortText(p, title.value, ShortTitleLength, true).value + "...")
    else title
  }

  /**
   * Content whose plain text is longer than 100 characters is cut to its first 100 plain-text
   * characters and "..." is added; shorter content is shown unchanged, markup included.
   */
  function Description(p: Platform, content: Option<string>): (r: Option<string>)
    ensures content == None <==> r == None
    ensures content != None && |GetPlainText(p, content.value, true)| <= DescriptionLength ==> r == content
    ensures content != None && |GetPlainText(p, content.value, true)| > DescriptionLength ==>
      |r.value| == DescriptionLength + 3
      && r.value == GetPlainText(p, content.value, true)[..DescriptionLength] + "..."
  {
    if content != None && |GetPlainText(p, content.value, true)| > DescriptionLength then
      Some(GetShortText(p, content.value, DescriptionLength, true).value + "...")
    else content
  }

  /**
   * The `Page` both listings return: `pageSize` items of `sorted` from index
   * (page - 1) * pageSize, each shown through `view`, and `TotalItems` counting all of `sorted`.
   */
  function ListingPage<T>(sorted: seq<Note>, view: Note -> T, page: Int32, pageSize: Int32,
                          searchQuery: Option<string>, sortBy: Option<string>, sortOrder: Option<string>): (r: Page<T>)
    requires |sorted| <= MaxInt32
    ensures |r.items| <= pageSize || r.items == []
    ensures r.totalItems == |sorted| && r.currentPage == page && r.pageSize == pageSize
    ensures r.searchQuery == searchQuery && r.sortBy == sortBy && r.sortOrder == sortOrder
  {
    Page(Select(PageOf(sorted, page, pageSize), view), |sorted|, page, pageSize, sortBy, sortOrder, searchQuery)
  }

  /** Page `page` (from 1) shows the sorted notes from index (page - 1) * pageSize, at most pageSize of them. */
  lemma ListingPageSlice<T>(sorted: seq<Note>, view: Note -> T, page: Int32, pageSize: Int32,
                            searchQuery: Option<string>, sortBy: Option<string>, sortOrder: Option<string>)
    requires |sorted| <= MaxInt32
    requires 1 <= page && 0 <= pageSize && 0 <= (page - 1) * pageSize <= MaxInt32
    ensures var start := (page - 1) * pageSize;
      ListingPage(sorted, view, page, pageSize, searchQuery, sortBy, sortOrder).items
        == Select(sorted[Min(start, |sorted|)..Min(start + pageSize, |sorted|)], view)
  {
    PageOfSlice(sorted, page, pageSize);
  }

  function PageItems<T>(sorted: seq<Note>, view: Note -> T, pageSize: Int32): int -> seq<T> {
    (page: int) => Select(PageNumbered(sorted, pageSize, page), view)
  }

  /** The items of pages `page` to `last`, one page after another. */
  function ItemsFrom<T>(sorted: seq<Note>, view: Note -> T, pageSize: Int32, page: int, last: int): seq<T> {
    Concat(PageItems(sorted, view, pageSize), page, last)
  }

  /** Mapping each chunk and joining them is joining the chunks and mapping the result. */
  lemma {:induction false} ConcatSelect<T, U>(chunk: int -> seq<T>, items: int -> seq<U>, f: T -> U, lo: int, hi: int)
    requires forall p :: lo <= p <= hi ==> items(p) == Select(chunk(p), f)
    ensures Concat(items, lo, hi) == Select(Concat(chunk, lo, hi), f)
    decreases hi - lo
  {
    if lo <= hi {
      ConcatSelect(chunk, items, f, lo + 1, hi);
      SelectConcat(chunk(lo), Concat(chunk, lo + 1, hi), f);
    }
  }

  /** For a positive page size, pages 1 to TotalPages show every listed note exactly once, in order. */
  lemma ListingPagesCover<T>(sorted: seq<Note>, view: Note -> T, pageSize: Int32,
                             searchQuery: Option<string>, sortBy: Option<string>, sortOrder: Option<string>)
    requires |sorted| <= MaxInt32 && pageSize > 0
    ensures ItemsFrom(sorted, view, pageSize, 1,
      ListingPage(sorted, view, 1, pageSize, searchQuery, sortBy, sortOrder).TotalPages()) == Select(sorted, view)
  {
    AllPages(sorted, pageSize);
    ConcatSelect(Pages(sorted, pageSize), PageItems(sorted, view, pageSize), view,
      1, Page(sorted, |sorted|, 1, pageSize, None, None, None).TotalPages());
  }

  // ---------------------------------------------------------------------
  // Sort keys of the listings.

  /** The columns a listing can be sorted by; `ById` is the default. */
  datatype SortColumn = ByTitle | ByContent | ByAuthor | ByDateCreated | ByDateModified | ById

  /** A recognised column sorts descending exactly when `sortOrder` is "desc"; the default never does. */
  predicate Descending(column: SortColumn, sortOrder: Option<string>) {
    column != ById && sortOrder == Some("desc")
  }

  /** Key of a nullable string: null sorts before every string, strings in the culture's order. */
  function StringKey(p: Platform, s: Option<string>): (k: seq<int>)
    ensures s == None <==> k == []
  {
    if s == None then [] else [0] + p.collate(s.value)
  }

  /** Non-null strings compare as the culture orders them. */
  lemma StringKeyOrder(p: Platform, a: string, b: string)
    ensures LexLe(StringKey(p, Some(a)), StringKey(p, Some(b))) <==> LexLe(p.collate(a), p.collate(b))
  {
    assert StringKey(p, Some(a))[1..] == p.collate(a);
    assert StringKey(p, Some(b))[1..] == p.collate(b);
  }

  function IdKey(n: Note): seq<int> {
    [n.id]
  }

  function DateCreatedKey(n: Note): seq<int> {
    [n.dateCreated]
  }

  function DateModifiedKey(n: Note): seq<int> {
    [n.dateModified]
  }

  /** Sorted by `IdKey`, ascending, is ordered by id. */
  lemma SortedById(r: seq<Note>)
    requires Sorted(r, IdKey, false)
    ensures forall i, j :: 0 <= i < j < |r| ==> r[i].id <= r[j].id
  {
    forall i, j | 0 <= i < j < |r| ensures r[i].id <= r[j].id {
      assert LexLe(IdKey(r[i]), IdKey(r[j]));
    }
  }
}
