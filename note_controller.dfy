/**
 * `NoteController`: the note listing of a logged-in user and the create, update and delete
 * forms. The listing searches titles and raw content only, cannot sort by author, and shows
 * every note with the author "Test".
 */
module NoteController {
  import opened Base
  import opened Text
  import opened Runtime
  import opened Linq
  import opened Paging
  import opened XmlStore
  import opened Models
  import opened DataHelper
  import opened Listing
  import NoteService
  import AccountService

  const DefaultPage: Int32 := 1
  const DefaultPageSize: Int32 := 9

  /** What a non-empty search query is looked for in, ignoring case: the title and the raw content. */
  predicate Matches(query: string, n: Note) {
    (n.title != None && ContainsIgnoreCase(n.title.value, query))
    || (n.content != None && ContainsIgnoreCase(n.content.value, query))
  }

  function MatchesQuery(query: string): Note -> bool {
    (n: Note) => Matches(query, n)
  }

  function Search(notes: seq<Note>, searchQuery: Option<string>): (r: seq<Note>)
    ensures IsNullOrEmpty(searchQuery) ==> r == notes
    ensures !IsNullOrEmpty(searchQuery) ==> forall i :: 0 <= i < |r| ==> Matches(searchQuery.value, r[i])
    ensures |r| <= |notes|
  {
    if IsNullOrEmpty(searchQuery) then notes else Where(notes, MatchesQuery(searchQuery.value))
  }

  /** The search keeps every copy of a matching note and drops every other note. */
  lemma SearchExact(notes: seq<Note>, searchQuery: Option<string>, n: Note)
    requires !IsNullOrEmpty(searchQuery)
    ensures n in Search(notes, searchQuery) <==> n in notes && Matches(searchQuery.value, n)
    ensures multiset(Search(notes, searchQuery))[n] == if Matches(searchQuery.value, n) then multiset(notes)[n] else 0
  {
    WhereCount(notes, MatchesQuery(searchQuery.value), n);
  }

  /** The recognised column names; "author" is not one of them here. */
  function Column(sortBy: Option<string>): (c: SortColumn)
    ensures c != ByAuthor
  {
    match sortBy
    case Some("title") => ByTitle
    case Some("content") => ByContent
    case Some("dateCreated") => ByDateCreated
    case Some("dateModified") => ByDateModified
    case _ => ById
  }

  /** Title and content sort as nullable strings, content with its markup. */
  function SortKey(p: Platform, column: SortColumn): Note -> seq<int> {
    match column
    case ByTitle => (n: Note) => StringKey(p, n.title)
    case ByContent => (n: Note) => StringKey(p, n.content)
    case ByDateCreated => DateCreatedKey
    case ByDateModified => DateModifiedKey
    case _ => IdKey
  }

  /** The sorting switch of `Index`: a permutation, ordered by the column's key, "desc" reversing it. */
  function Sort(p: Platform, notes: seq<Note>, sortBy: Option<string>, sortOrder: Option<string>): (r: seq<Note>)
    ensures multiset(r) == multiset(notes) && |r| == |notes|
    ensures Sorted(r, SortKey(p, Column(sortBy)), Descending(Column(sortBy), sortOrder))
  {
    var r := OrderBy(notes, SortKey(p, Column(sortBy)), Descending(Column(sortBy), sortOrder));
    assert |r| == |multiset(r)|;
    r
  }

  /** Notes with equal keys keep their input order. */
  lemma SortStable(p: Platform, notes: seq<Note>, sortBy: Option<string>, sortOrder: Option<string>, k: seq<int>)
    ensures var key := SortKey(p, Column(sortBy));
      Where(Sort(p, notes, sortBy, sortOrder), KeyIs(key, k)) == Where(notes, KeyIs(key, k))
  {
    OrderByStable(notes, SortKey(p, Column(sortBy)), Descending(Column(sortBy), sortOrder), k);
  }

  /** Sorting by "author" is the default order: ascending by id, whatever `sortOrder` says. */
  lemma AuthorSortsById(p: Platform, notes: seq<Note>, sortOrder: Option<string>)
    ensures var r := Sort(p, notes, Some("author"), sortOrder);
      r == Sort(p, notes, None, None) && forall i, j :: 0 <= i < j < |r| ==> r[i].id <= r[j].id
  {
    assert Column(Some("author")) == ById && Column(None) == ById;
    assert !Descending(ById, sortOrder) && !Descending(ById, None);
    SortedById(Sort(p, notes, Some("author"), sortOrder));
  }

  /** The view model `Index` shows: the note's fields, shortened title and description, author "Test". */
  function IndexViewModel(p: Platform, n: Note): (vm: NoteViewModel)
    ensures vm.id == n.id && vm.title == n.title && vm.slug == n.slug && vm.content == n.content
    ensures vm.dateCreated == n.dateCreated && vm.dateModified == n.dateModified && vm.accountId == n.accountId
    ensures vm.shortTitle == ShortTitle(p, n.title) && vm.description == Description(p, n.content)
    ensures vm.account == None && vm.author == Some("Test")
  {
    NoteViewModel(n.id, n.slug, n.title, n.content, n.dateCreated, n.dateModified,
      Description(p, n.content), ShortTitle(p, n.title), n.accountId, None, Some("Test"))
  }

  function View(p: Platform): Note -> NoteViewModel {
    (n: Note) => IndexViewModel(p, n)
  }

  /** The notes `Index` lists, before paging: all notes, searched, then sorted. */
  function Listed(p: Platform, es: seq<NoteService.NoteElement>, searchQuery: Option<string>,
                  sortBy: Option<string>, sortOrder: Option<string>): (r: seq<Note>)
    ensures |r| <= |es|
  {
    Sort(p, Search(NoteService.GetAll(p, es), searchQuery), sortBy, sortOrder)
  }

  /** `Index`: the requested page of the listed notes, with the total count and the query echoed. */
  function Index(p: Platform, es: seq<NoteService.NoteElement>, searchQuery: Option<string>,
                 sortBy: Option<string>, sortOrder: Option<string>, page: Int32, pageSize: Int32): (r: Page<NoteViewModel>)
    requires |es| <= MaxInt32
    ensures r.totalItems == |Listed(p, es, searchQuery, sortBy, sortOrder)|
    ensures r.currentPage == page && r.pageSize == pageSize
    ensures r.searchQuery == searchQuery && r.sortBy == sortBy && r.sortOrder == sortOrder
    ensures |r.items| <= pageSize || r.items == []
    ensures forall i :: 0 <= i < |r.items| ==> r.items[i].author == Some("Test")
  {
    ListingPage(Listed(p, es, searchQuery, sortBy, sortOrder), View(p), page, pageSize, searchQuery, sortBy, sortOrder)
  }

  /** Page `page` shows the listed notes from index (page - 1) * pageSize on, at most pageSize of them. */
  lemma IndexSlice(p: Platform, es: seq<NoteService.NoteElement>, searchQuery: Option<string>,
                   sortBy: Option<string>, sortOrder: Option<string>, page: Int32, pageSize: Int32)
    requires |es| <= MaxInt32
    requires 1 <= page && 0 <= pageSize && 0 <= (page - 1) * pageSize <= MaxInt32
    ensures var listed := Listed(p, es, searchQuery, sortBy, sortOrder);
      var start := (page - 1) * pageSize;
      Index(p, es, searchQuery, sortBy, sortOrder, page, pageSize).items
        == Select(listed[Min(start, |listed|)..Min(start + pageSize, |listed|)], View(p))
  {
    ListingPageSlice(Listed(p, es, searchQuery, sortBy, sortOrder), View(p), page, pageSize, searchQuery, sortBy, sortOrder);
  }

  /** Pages 1 to TotalPages together show every listed note exactly once, in order. */
  lemma IndexPagesCover(p: Platform, es: seq<NoteService.NoteElement>, searchQuery: Option<string>,
                        sortBy: Option<string>, sortOrder: Option<string>, pageSize: Int32)
    requires |es| <= MaxInt32 && pageSize > 0
    ensures var listed := Listed(p, es, searchQuery, sortBy, sortOrder);
      ItemsFrom(listed, View(p), pageSize, 1, Index(p, es, searchQuery, sortBy, sortOrder, 1, pageSize).TotalPages())
        == Select(listed, View(p))
  {
    ListingPagesCover(Listed(p, es, searchQuery, sortBy, sortOrder), View(p), pageSize, searchQuery, sortBy, sortOrder);
  }

  // ---------------------------------------------------------------------
  // The forms.

  /** An action's result and the model it passes to its view. */
  datatype Response<T> = Response(result: ActionResult, model: Option<T>)

  /** `Details`: the note `GetByIdAsync` returns is never null, so the page always shows. */
  function Details(p: Platform, es: seq<NoteService.NoteElement>, id: Int32): (r: Response<Note>)
    ensures r.result == ShowView && r.model != None
    ensures FirstIndex(es, NoteService.IdIs(id)) != None ==> r.model.value.id == id
  {
    Response(ShowView, Some(NoteService.GetById(p, es, id)))
  }

  /** `Update` (GET): always shows the found note's id, title, content and author. */
  function UpdateForm(p: Platform, es: seq<NoteService.NoteElement>, id: Int32): (r: Response<NoteViewModel>)
    ensures r.result == ShowView && r.model != None
    ensures var n := NoteService.GetById(p, es, id); var vm := r.model.value;
      vm.id == n.id && vm.title == n.title && vm.content == n.content && vm.accountId == n.accountId
      && vm.account != None && vm.account.value.accountId == n.account.value.accountId
      && vm.account.value.name == n.account.value.name
  {
    var n := NoteService.GetById(p, es, id);
    var account := if n.account == None then None
      else Some(Account(n.account.value.accountId, n.account.value.name, None, None, 0));
    Response(ShowView, Some(NoteViewModel(n.id, None, n.title, n.content, 0, 0, None, None, n.accountId, account, None)))
  }

  /** `Delete` (GET): always shows the found note's id, title, content and dates. */
  function DeleteForm(p: Platform, es: seq<NoteService.NoteElement>, id: Int32): (r: Response<NoteViewModel>)
    ensures r.result == ShowView && r.model != None
    ensures var n := NoteService.GetById(p, es, id); var vm := r.model.value;
      vm.id == n.id && vm.title == n.title && vm.content == n.content
      && vm.dateCreated == n.dateCreated && vm.dateModified == n.dateModified
  {
    var n := NoteService.GetById(p, es, id);
    Response(ShowView, Some(NoteViewModel(n.id, None, n.title, n.content, n.dateCreated, n.dateModified,
      None, None, None, None, None)))
  }

  /** Some listed note has a title equal to `title`, ignoring case; a null `title` equals none. */
  predicate TitleTaken(notes: seq<Note>, title: Option<string>) {
    exists i :: 0 <= i < |notes| && notes[i].title != None && title != None && EqualsIgnoreCase(notes[i].title.value, title.value)
  }

  /** The note `Create` (POST) hands to the store: title, content and `AccountId` of the form. */
  function CreatedNote(vm: NoteViewModel): (n: Note)
    ensures n.title == vm.title && n.content == vm.content && n.accountId == vm.accountId
    ensures n.id == 0 && n.account == None
  {
    DefaultNote.(title := vm.title, content := vm.content, accountId := vm.accountId)
  }

  /** The note `Update` (POST) hands to the store; its `Account` carries the form's id (null: 0) and name (null: ""). */
  function UpdatedNote(vm: NoteViewModel): (n: Note)
    ensures n.id == vm.id && n.title == vm.title && n.content == vm.content && n.accountId == vm.accountId
    ensures n.account == Some(Account(vm.accountId.GetOr(0),
      Some(if vm.account == None then "" else vm.account.value.name.GetOr("")), None, None, 0))
  {
    DefaultNote.(id := vm.id, title := vm.title, content := vm.content, accountId := vm.accountId,
      account := Some(Account(vm.accountId.GetOr(0),
        Some(if vm.account == None then "" else vm.account.value.name.GetOr("")), None, None, 0)))
  }

  class NoteController {
    const notes: NoteService.NoteStore

    constructor(notes: NoteService.NoteStore)
      ensures this.notes == notes
    {
      this.notes := notes;
    }

    /** `Create` (GET): an empty form carrying the logged-in account's id and, as author, its name. */
    function CreateForm(): (r: Response<NoteViewModel>)
      reads notes, notes.accounts, notes.accounts.session
      ensures r.result == ShowView && r.model != None
      ensures r.model.value.accountId == Some(notes.accounts.SessionAccountId())
      ensures r.model.value.author
           == AccountService.GetAccountNameById(notes.accounts.elements, notes.accounts.SessionAccountId())
      ensures r.model.value.title == None && r.model.value.content == None
    {
      var accountId := notes.accounts.SessionAccountId();
      Response(ShowView, Some(NoteViewModel(0, None, None, None, 0, 0, None, None, Some(accountId), None,
        AccountService.GetAccountNameById(notes.accounts.elements, accountId))))
    }

    /**
     * `Create` (POST): a title already taken shows the form again and stores nothing; otherwise a
     * valid form is stored and the listing shown, an invalid one shown again.
     */
    method CreatePost(vm: NoteViewModel, modelValid: bool, now: string) returns (r: ActionResult)
      modifies notes
      ensures var taken := TitleTaken(old(NoteService.GetAll(notes.platform, notes.elements)), vm.title);
        if taken || !modelValid then r == ShowView && notes.elements == old(notes.elements)
        else (r == Redirect("Index", "Note")
          && notes.elements == old(notes.elements) + [old(notes.Created(CreatedNote(vm), now))])
    {
      var existing := NoteService.GetAll(notes.platform, notes.elements);
      if TitleTaken(existing, vm.title) {
        return ShowView;
      }
      if modelValid {
        var _ := notes.Create(CreatedNote(vm), now);
        return Redirect("Index", "Note");
      }
      return ShowView;
    }

    /**
     * `Update` (POST): a route id other than the form's is NotFound, an invalid form is shown
     * again, and a note the store cannot find is NotFound; only the last case stores.
     */
    method UpdatePost(id: Int32, vm: NoteViewModel, modelValid: bool, now: string) returns (r: ActionResult)
      requires id == vm.id && modelValid ==> vm.accountId != None
      modifies notes
      ensures id != vm.id ==> r == NotFound && notes.elements == old(notes.elements)
      ensures id == vm.id && !modelValid ==> r == ShowView && notes.elements == old(notes.elements)
      ensures id == vm.id && modelValid ==>
        var i := FirstIndex(old(notes.elements), NoteService.IdIs(vm.id));
        if i == None then r == NotFound && notes.elements == old(notes.elements)
        else (r == Redirect("Index", "Note")
          && notes.elements == old(notes.elements)[i.value :=
               NoteService.UpdatedElement(notes.platform, old(notes.elements)[i.value], UpdatedNote(vm), now)])
    {
      if id != vm.id {
        return NotFound;
      }
      if modelValid {
        var ok := notes.Update(UpdatedNote(vm), now);
        if !ok {
          return NotFound;
        }
        return Redirect("Index", "Note");
      }
      return ShowView;
    }

    /** `Delete` (POST): NotFound exactly when the store has no note with `id`. */
    method DeletePost(id: Int32) returns (r: ActionResult)
      modifies notes
      ensures var i := FirstIndex(old(notes.elements), NoteService.IdIs(id));
        if i == None then r == NotFound && notes.elements == old(notes.elements)
        else r == Redirect("Index", "Note") && notes.elements == RemoveAt(old(notes.elements), i.value)
    {
      var ok := notes.Delete(id);
      if !ok {
        return NotFound;
      }
      return Redirect("Index", "Note");
    }
  }
}
