/**
 * `HomeController.Index`: the public note listing. All notes are searched (title, plain-text
 * content, plain-text author name), sorted by the requested column, cut to one page and shown
 * through `CreateNoteViewModel`.
 */
module HomeController {
  import opened Base
  import opened Text
  import opened Runtime
  import opened Linq
  import opened Paging
  import opened Models
  import opened DataHelper
  import opened Listing
  import NoteService

  const DefaultPage: Int32 := 1
  const DefaultPageSize: Int32 := 8

  /** What a non-empty search query is looked for in, ignoring case. */
  predicate Matches(p: Platform, query: string, n: Note) {
    (n.title != None && ContainsIgnoreCase(n.title.value, query))
    || (n.content != None && ContainsIgnoreCase(GetPlainText(p, n.content.value, true), query))
    || (n.account != None && n.account.value.name != None
        && ContainsIgnoreCase(GetPlainText(p, n.account.value.name.value, true), query))
  }

  function MatchesQuery(p: Platform, query: string): Note -> bool {
    (n: Note) => Matches(p, query, n)
  }

  /** The search step: a null or empty query keeps every note, any other keeps the matching ones. */
  function Search(p: Platform, notes: seq<Note>, searchQuery: Option<string>): (r: seq<Note>)
    ensures IsNullOrEmpty(searchQuery) ==> r == notes
    ensures !IsNullOrEmpty(searchQuery) ==> forall i :: 0 <= i < |r| ==> Matches(p, searchQuery.value, r[i])
    ensures |r| <= |notes|
  {
    if IsNullOrEmpty(searchQuery) then notes else Where(notes, MatchesQuery(p, searchQuery.value))
  }

  /** The search keeps every copy of a matching note and drops every other note. */
  lemma SearchExact(p: Platform, notes: seq<Note>, searchQuery: Option<string>, n: Note)
    requires !IsNullOrEmpty(searchQuery)
    ensures n in Search(p, notes, searchQuery) <==> n in notes && Matches(p, searchQuery.value, n)
    ensures multiset(Search(p, notes, searchQuery))[n]
         == if Matches(p, searchQuery.value, n) then multiset(notes)[n] else 0
  {
    WhereCount(notes, MatchesQuery(p, searchQuery.value), n);
  }

  /** `sortBy`: the recognised column names; anything else, null included, is the default. */
  function Column(sortBy: Option<string>): SortColumn {
    match sortBy
    case Some("title") => ByTitle
    case Some("content") => ByContent
    case Some("author") => ByAuthor
    case Some("dateCreated") => ByDateCreated
    case Some("dateModified") => ByDateModified
    case _ => ById
  }

  /** The key each column sorts by; content and author sort by their plain text. */
  function SortKey(p: Platform, column: SortColumn): Note -> seq<int> {
    match column
    case ByTitle => (n: Note) => StringKey(p, n.title)
    case ByContent => (n: Note) => p.collate(GetPlainText(p, n.content.GetOr(""), true))
    case ByAuthor => (n: Note) =>
      p.collate(GetPlainText(p, if n.account == None then "" else n.account.value.name.GetOr(""), true))
    case ByDateCreated => DateCreatedKey
    case ByDateModified => DateModifiedKey
    case ById => IdKey
  }

  /**
   * `ApplySorting`: a permutation of `notes`, ordered by the column's key, descending exactly for
   * a recognised column with `sortOrder` "desc".
   */
  function ApplySorting(p: Platform, notes: seq<Note>, sortBy: Option<string>, sortOrder: Option<string>): (r: seq<Note>)
    ensures multiset(r) == multiset(notes) && |r| == |notes|
    ensures Sorted(r, SortKey(p, Column(sortBy)), Descending(Column(sortBy), sortOrder))
  {
    var r := OrderBy(notes, SortKey(p, Column(sortBy)), Descending(Column(sortBy), sortOrder));
    assert |r| == |multiset(r)|;
    r
  }

  /** Notes with equal keys keep their input order. */
  lemma ApplySortingStable(p: Platform, notes: seq<Note>, sortBy: Option<string>, sortOrder: Option<string>, k: seq<int>)
    ensures var key := SortKey(p, Column(sortBy));
      Where(ApplySorting(p, notes, sortBy, sortOrder), KeyIs(key, k)) == Where(notes, KeyIs(key, k))
  {
    OrderByStable(notes, SortKey(p, Column(sortBy)), Descending(Column(sortBy), sortOrder), k);
  }

  /** Sorted and stable pins the result down: any such ordering of `notes` is `ApplySorting`'s. */
  lemma ApplySortingUnique(p: Platform, notes: seq<Note>, sortBy: Option<string>, sortOrder: Option<string>, r: seq<Note>)
    requires Sorted(r, SortKey(p, Column(sortBy)), Descending(Column(sortBy), sortOrder))
    requires forall k :: Where(r, KeyIs(SortKey(p, Column(sortBy)), k)) == Where(notes, KeyIs(SortKey(p, Column(sortBy)), k))
    ensures r == ApplySorting(p, notes, sortBy, sortOrder)
  {
    var key := SortKey(p, Column(sortBy));
    var sorted := ApplySorting(p, notes, sortBy, sortOrder);
    forall k ensures Where(r, KeyIs(key, k)) == Where(sorted, KeyIs(key, k)) {
      ApplySortingStable(p, notes, sortBy, sortOrder, k);
    }
    SortedStableUnique(r, sorted, key, Descending(Column(sortBy), sortOrder));
  }

  /** An unrecognised `sortBy` orders ascending by id, whatever `sortOrder` says. */
  lemma DefaultSortsById(p: Platform, notes: seq<Note>, sortBy: Option<string>, sortOrder: Option<string>)
    requires Column(sortBy) == ById
    ensures var r := ApplySorting(p, notes, sortBy, sortOrder);
      r == ApplySorting(p, notes, sortBy, None)
      && forall i, j :: 0 <= i < j < |r| ==> r[i].id <= r[j].id
  {
    SortedById(ApplySorting(p, notes, sortBy, sortOrder));
  }

  /**
   * `CreateNoteViewModel`: the note's fields, its shortened title and description, and as author
   * the account's name when `AccountId` is positive, "Unknown" otherwise.
   */
  function CreateNoteViewModel(p: Platform, n: Note): (vm: NoteViewModel)
    ensures vm.id == n.id && vm.title == n.title && vm.slug == n.slug && vm.content == n.content
    ensures vm.dateCreated == n.dateCreated && vm.dateModified == n.dateModified
    ensures vm.account == n.account && vm.accountId == n.accountId
    ensures vm.shortTitle == ShortTitle(p, n.title) && vm.description == Description(p, n.content)
    ensures n.accountId == None || n.accountId.value <= 0 ==> vm.author == Some("Unknown")
    ensures n.accountId != None && n.accountId.value > 0 ==>
      vm.author == if n.account == None then None else n.account.value.name
  {
    var author := if n.accountId != None && n.accountId.value > 0
      then (if n.account == None then None else n.account.value.name)
      else Some("Unknown");
    NoteViewModel(n.id, n.slug, n.title, n.content, n.dateCreated, n.dateModified,
      Description(p, n.content), ShortTitle(p, n.title), n.accountId, n.account, author)
  }

  function View(p: Platform): Note -> NoteViewModel {
    (n: Note) => CreateNoteViewModel(p, n)
  }

  /** The notes `Index` lists, before paging: all notes, searched, then sorted. */
  function Listed(p: Platform, es: seq<NoteService.NoteElement>, searchQuery: Option<string>,
                  sortBy: Option<string>, sortOrder: Option<string>): (r: seq<Note>)
    ensures |r| <= |es|
  {
    ApplySorting(p, Search(p, NoteService.GetAll(p, es), searchQuery), sortBy, sortOrder)
  }

  /** `Index`: the requested page of the listed notes, with the total count and the query echoed. */
  function Index(p: Platform, es: seq<NoteService.NoteElement>, searchQuery: Option<string>,
                 sortBy: Option<string>, sortOrder: Option<string>, page: Int32, pageSize: Int32): (r: Page<NoteViewModel>)
    requires |es| <= MaxInt32
    ensures r.totalItems == |Listed(p, es, searchQuery, sortBy, sortOrder)|
    ensures r.currentPage == page && r.pageSize == pageSize
    ensures r.searchQuery == searchQuery && r.sortBy == sortBy && r.sortOrder == sortOrder
    ensures |r.items| <= pageSize || r.items == []
  {
    ListingPage(Listed(p, es, searchQuery, sortBy, sortOrder), View(p), page, pageSize, searchQuery, sortBy, sortOrder)
  }

  /** Page `page` shows the listed notes from index (page - 1) * pageSize on, at most pageSize of them. */
  lemma IndexSlice(p: Platform, es: seq<NoteService.NoteElement>, searchQuery: Option<string>,
                   sortBy: Option<string>, sortOrder: Option<string>, page: Int32, pageSize: Int32)
    requires |es| <= MaxInt32
    requires 1 <= page && 0 <= pageSize && 0 <= (page - 1) * pageSize <= MaxInt32
    ensures var listed := Listed(p, es, searchQuery, sortBy, sortOrder);
      var start := (page - 1) * pageSize;
      Index(p, es, searchQuery, sortBy, sortOrder, page, pageSize).items
        == Select(listed[Min(start, |listed|)..Min(start + pageSize, |listed|)], View(p))
  {
    ListingPageSlice(Listed(p, es, searchQuery, sortBy, sortOrder), View(p), page, pageSize, searchQuery, sortBy, sortOrder);
  }

  /** Pages 1 to TotalPages together show every listed note exactly once, in order. */
  lemma IndexPagesCover(p: Platform, es: seq<NoteService.NoteElement>, searchQuery: Option<string>,
                        sortBy: Option<string>, sortOrder: Option<string>, pageSize: Int32)
    requires |es| <= MaxInt32 && pageSize > 0
    ensures var listed := Listed(p, es, searchQuery, sortBy, sortOrder);
      ItemsFrom(listed, View(p), pageSize, 1, Index(p, es, searchQuery, sortBy, sortOrder, 1, pageSize).TotalPages())
        == Select(listed, View(p))
  {
    ListingPagesCover(Listed(p, es, searchQuery, sortBy, sortOrder), View(p), pageSize, searchQuery, sortBy, sortOrder);
  }
}
