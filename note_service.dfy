/** `NoteService`: the note store kept as the `Note` children of the `Notes` document. */
module NoteService {
  import opened Base
  import opened Text
  import opened Runtime
  import opened Linq
  import opened XmlStore
  import opened Models
  import SlugHelper
  import AccountService

  /** The `Account` child of a note: a copy of the author's id and name. */
  datatype AccountChild = AccountChild(accountId: Option<Int32>, name: Option<string>)

  /** One `Note` element; None: the child is absent. */
  datatype NoteElement = NoteElement(
    id: Option<Int32>,
    title: Option<string>,
    slug: Option<string>,
    content: Option<string>,
    dateCreated: Option<string>,
    dateModified: Option<string>,
    accountId: Option<Int32>,
    account: Option<AccountChild>)

  /** An element with no children, which is what a lookup that finds nothing decodes. */
  const NoElement: NoteElement := NoteElement(None, None, None, None, None, None, None, None)

  /**
   * The `Note` the reads build from an element: missing strings read as "", missing numbers as 0,
   * the content is HTML-decoded, and the author's id is taken from the note's own `AccountId`.
   */
  function Decode(p: Platform, e: NoteElement): (n: Note)
    ensures n.id == ToInt32(e.id) && n.accountId == Some(ToInt32(e.accountId))
    ensures n.account != None && n.account.value.accountId == n.accountId.value
    ensures n.title == Some(e.title.GetOr("")) && n.slug == Some(e.slug.GetOr(""))
    ensures n.content == Some(p.htmlDecode(e.content.GetOr("")))
  {
    var author := if e.account == None then None else e.account.value.name;
    Note(ToInt32(e.id), Some(e.slug.GetOr("")), Some(e.title.GetOr("")), Some(p.htmlDecode(e.content.GetOr(""))),
      ParseDate(p, e.dateCreated), ParseDate(p, e.dateModified), None, None, Some(ToInt32(e.accountId)),
      Some(Account(ToInt32(e.accountId), Some(author.GetOr("")), None, None, 0)))
  }

  /** `GetAllAsync`: every element decoded, in document order. */
  function GetAll(p: Platform, es: seq<NoteElement>): (r: seq<Note>)
    ensures |r| == |es|
    ensures forall i :: 0 <= i < |es| ==> r[i] == Decode(p, es[i])
  {
    if es == [] then [] else [Decode(p, es[0])] + GetAll(p, es[1..])
  }

  function Ids(es: seq<NoteElement>): (r: seq<Int32>)
    ensures |r| == |es|
    ensures forall i :: 0 <= i < |es| ==> r[i] == ToInt32(es[i].id)
  {
    if es == [] then [] else [ToInt32(es[0].id)] + Ids(es[1..])
  }

  /** `GetNextId`: the largest `Id` (missing: 0) plus one, or 1 for an empty document. */
  function NextId(es: seq<NoteElement>): (r: Int32)
    ensures es == [] ==> r == 1
    ensures (forall i :: 0 <= i < |es| ==> ToInt32(es[i].id) < MaxInt32) ==>
      (forall i :: 0 <= i < |es| ==> ToInt32(es[i].id) < r)
      && (es != [] ==> exists i :: 0 <= i < |es| && r == ToInt32(es[i].id) + 1)
  {
    var ids := Ids(es);
    assert (forall i :: 0 <= i < |es| ==> ToInt32(es[i].id) < MaxInt32) ==> forall i :: 0 <= i < |ids| ==> ids[i] < MaxInt32;
    XmlStore.NextId(ids)
  }

  function IdIs(id: Int32): NoteElement -> bool {
    (e: NoteElement) => ToInt32(e.id) == id
  }

  function SlugIs(slug: Option<string>): NoteElement -> bool {
    (e: NoteElement) => e.slug == slug
  }

  function AccountIdIs(accountId: Int32): NoteElement -> bool {
    (e: NoteElement) => ToInt32(e.accountId) == accountId
  }

  /** The note held by the first element satisfying `q`, or the all-default note when none does. */
  function FirstOrDefault(p: Platform, es: seq<NoteElement>, q: NoteElement -> bool): (n: Note)
    ensures var i := FirstIndex(es, q);
      n == Decode(p, if i == None then NoElement else es[i.value])
  {
    var i := FirstIndex(es, q);
    Decode(p, if i == None then NoElement else es[i.value])
  }

  /** The note a lookup returns when nothing matches: never null, with id 0, empty text and author 0. */
  lemma MissIsDefaultNote(p: Platform, es: seq<NoteElement>, q: NoteElement -> bool)
    requires forall i :: 0 <= i < |es| ==> !q(es[i])
    ensures var n := FirstOrDefault(p, es, q);
      n.id == 0 && n.title == Some("") && n.slug == Some("") && n.content == Some(p.htmlDecode(""))
      && n.accountId == Some(0) && n.account == Some(Account(0, Some(""), None, None, 0))
      && n.dateCreated == 0 && n.dateModified == 0
  {
  }

  /** `GetByIdAsync`: the first note whose `Id` (missing: 0) equals `id`. */
  function GetById(p: Platform, es: seq<NoteElement>, id: Int32): (n: Note)
    ensures FirstIndex(es, IdIs(id)) != None ==> n.id == id
    ensures FirstIndex(es, IdIs(id)) == None ==> n.id == 0 && n.title == Some("")
  {
    FirstOrDefault(p, es, IdIs(id))
  }

  /** `GetBySlugAsync`: the first note whose `Slug` text equals `slug` (null matches a missing `Slug`). */
  function GetBySlug(p: Platform, es: seq<NoteElement>, slug: Option<string>): (n: Note)
    ensures FirstIndex(es, SlugIs(slug)) != None ==> n.slug == Some(slug.GetOr(""))
    ensures FirstIndex(es, SlugIs(slug)) == None ==> n.id == 0 && n.slug == Some("")
  {
    FirstOrDefault(p, es, SlugIs(slug))
  }

  /** `GetByAccountIdAsync`: the notes of one author, in document order. */
  function GetByAccountId(p: Platform, es: seq<NoteElement>, accountId: Int32): (r: seq<Note>)
    ensures |r| <= |es|
    ensures forall i :: 0 <= i < |r| ==> r[i].accountId == Some(accountId)
  {
    GetAll(p, Where(es, AccountIdIs(accountId)))
  }

  function HasAccountId(accountId: Int32): Note -> bool {
    (n: Note) => n.accountId == Some(accountId)
  }

  /** Filtering the elements by author and then decoding is filtering the decoded notes. */
  lemma {:induction false} GetByAccountIdIsFilter(p: Platform, es: seq<NoteElement>, accountId: Int32)
    ensures GetByAccountId(p, es, accountId) == Where(GetAll(p, es), HasAccountId(accountId))
  {
    if es != [] {
      GetByAccountIdIsFilter(p, es[1..], accountId);
      var h := if AccountIdIs(accountId)(es[0]) then [es[0]] else [];
      assert Where(es, AccountIdIs(accountId)) == h + Where(es[1..], AccountIdIs(accountId));
      GetAllConcat(p, h, Where(es[1..], AccountIdIs(accountId)));
      assert GetAll(p, es)[1..] == GetAll(p, es[1..]);
    }
  }

  lemma {:induction false} GetAllConcat(p: Platform, a: seq<NoteElement>, b: seq<NoteElement>)
    ensures GetAll(p, a + b) == GetAll(p, a) + GetAll(p, b)
  {
    GetAllIsSelect(p, a + b);
    GetAllIsSelect(p, a);
    GetAllIsSelect(p, b);
    SelectConcat(a, b, DecodeWith(p));
  }

  function DecodeWith(p: Platform): NoteElement -> Note {
    (e: NoteElement) => Decode(p, e)
  }

  lemma GetAllIsSelect(p: Platform, es: seq<NoteElement>)
    ensures GetAll(p, es) == Select(es, DecodeWith(p))
  {
  }

  /**
   * The element `CreateAsync` appends. `sessionAccountId` is the logged-in account and
   * `authorName` that account's name as `AccountService.GetById` returns it; the note's own
   * `AccountId` is not used.
   */
  function NewElement(p: Platform, es: seq<NoteElement>, note: Note, sessionAccountId: Int32, authorName: string,
                      now: string): (e: NoteElement)
    ensures e.id == Some(NextId(es))
    ensures e.slug != None && SlugHelper.IsSlug(e.slug.value)
    ensures e.accountId == Some(sessionAccountId) && e.account != None
    ensures e.account.value.accountId == e.accountId
    ensures e.dateCreated == e.dateModified == Some(now)
  {
    var title := Trim(note.title.GetOr(""));
    NoteElement(Some(NextId(es)), Some(title), Some(SlugHelper.GenerateSlug(title)),
      Some(p.htmlEncode(Trim(note.content.GetOr("")))), Some(now), Some(now), Some(sessionAccountId),
      Some(AccountChild(Some(sessionAccountId), Some(Trim(authorName)))))
  }

  /** Setting the `Value` of a child element that may be missing: a missing one stays missing. */
  function Overwrite<T>(child: Option<T>, v: T): (r: Option<T>)
    ensures r == None <==> child == None
    ensures r != None ==> r.value == v
  {
    if child == None then None else Some(v)
  }

  /**
   * The element `UpdateAsync` leaves. Each child is overwritten only where it exists: `Title` with
   * the trimmed title, `Slug` regenerated from it, `Content` with the HTML-decoded trimmed content,
   * `DateModified` with `now`, `AccountId` with the note's; an existing `Account` child is replaced
   * by one holding that id and the note's author name. `Id` and `DateCreated` stay.
   */
  function UpdatedElement(p: Platform, e: NoteElement, note: Note, now: string): (r: NoteElement)
    requires note.accountId != None
    ensures r.id == e.id && r.dateCreated == e.dateCreated
    ensures r.slug != None ==> SlugHelper.IsSlug(r.slug.value)
    ensures e.title != None && e.slug != None ==> r.title != None && r.slug == Some(SlugHelper.GenerateSlug(r.title.value))
    ensures (r.title == None <==> e.title == None) && (r.content == None <==> e.content == None)
    ensures e.title != None ==> r.title == Some(Trim(note.title.GetOr("")))
    ensures e.content != None ==> r.content == Some(p.htmlDecode(Trim(note.content.GetOr(""))))
    ensures e.dateModified != None ==> r.dateModified == Some(now)
    ensures e.accountId != None ==> r.accountId == note.accountId
    ensures e.account != None ==> r.account != None && r.account.value.accountId == note.accountId
    ensures e.account != None ==> r.account.value.name == Some(if note.account == None then "" else note.account.value.name.GetOr(""))
  {
    var title := Trim(note.title.GetOr(""));
    var authorName := if note.account == None then "" else note.account.value.name.GetOr("");
    NoteElement(e.id,
      Overwrite(e.title, title),
      Overwrite(e.slug, SlugHelper.GenerateSlug(title)),
      Overwrite(e.content, p.htmlDecode(Trim(note.content.GetOr("")))),
      e.dateCreated,
      Overwrite(e.dateModified, now),
      Overwrite(e.accountId, note.accountId.value),
      Overwrite(e.account, AccountChild(note.accountId, Some(authorName))))
  }

  class NoteStore {
    /** The `Note` children of the document root, in order. */
    var elements: seq<NoteElement>
    const platform: Platform
    const accounts: AccountService.AccountStore

    constructor(platform: Platform, accounts: AccountService.AccountStore, stored: seq<NoteElement>)
      ensures elements == stored && this.platform == platform && this.accounts == accounts
    {
      this.platform := platform;
      this.accounts := accounts;
      elements := stored;
    }

    /** The element `Create(note, now)` appends: authored by the logged-in account, named as `GetById` finds it. */
    function Created(note: Note, now: string): NoteElement
      reads this, accounts, accounts.session
    {
      var author := accounts.SessionAccountId();
      NewElement(platform, elements, note, author, AccountService.GetById(accounts.elements, author).name.GetOr(""), now)
    }

    /** `CreateAsync`: appends one note authored by the logged-in account and reports success. */
    method Create(note: Note, now: string) returns (ok: bool)
      modifies this
      ensures ok
      ensures elements == old(elements) + [old(Created(note, now))]
    {
      var accountId := accounts.SessionAccountId();
      var account := AccountService.GetById(accounts.elements, accountId);
      var e := NewElement(platform, elements, note, accountId, account.name.GetOr(""), now);
      elements := elements + [e];
      ok := true;
    }

    /** `UpdateAsync`: rewrites the first element with the note's `Id`; without one nothing is saved. */
    method Update(note: Note, now: string) returns (ok: bool)
      requires note.accountId != None
      modifies this
      ensures var i := FirstIndex(old(elements), IdIs(note.id));
        if i == None then !ok && elements == old(elements)
        else ok && elements == old(elements)[i.value := UpdatedElement(platform, old(elements)[i.value], note, now)]
    {
      var i := FirstIndex(elements, IdIs(note.id));
      if i == None {
        return false;
      }
      elements := elements[i.value := UpdatedElement(platform, elements[i.value], note, now)];
      ok := true;
    }

    /** `DeleteAsync`: removes the first element with `Id` `id`; without one nothing is saved. */
    method Delete(id: Int32) returns (ok: bool)
      modifies this
      ensures var i := FirstIndex(old(elements), IdIs(id));
        if i == None then !ok && elements == old(elements)
        else ok && elements == RemoveAt(old(elements), i.value)
    {
      var i := FirstIndex(elements, IdIs(id));
      if i == None {
        return false;
      }
      elements := RemoveAt(elements, i.value);
      ok := true;
    }
  }

  // ---------------------------------------------------------------------
  // What a sequence of operations does to the store.

  lemma NextIdUnused(es: seq<NoteElement>)
    requires forall i :: 0 <= i < |es| ==> ToInt32(es[i].id) < MaxInt32
    ensures FirstIndex(es, IdIs(NextId(es))) == None
  {
  }

  /** A created note is found again by its new id, with its trimmed title, slug, content and author. */
  lemma CreatedNoteFound(p: Platform, es: seq<NoteElement>, note: Note, author: Int32, name: string, now: string)
    requires forall i :: 0 <= i < |es| ==> ToInt32(es[i].id) < MaxInt32
    ensures var title := Trim(note.title.GetOr(""));
      var n := GetById(p, es + [NewElement(p, es, note, author, name, now)], NextId(es));
      n.id == NextId(es) && n.title == Some(title) && n.slug == Some(SlugHelper.GenerateSlug(title))
      && n.content == Some(p.htmlDecode(p.htmlEncode(Trim(note.content.GetOr("")))))
      && n.accountId == Some(author) && n.account.value.name == Some(Trim(name))
  {
    NextIdUnused(es);
    FirstIndexAppend(es, NewElement(p, es, note, author, name, now), IdIs(NextId(es)));
  }

  /**
   * Ids are reused: deleting the note just created and creating another gives the new one the
   * same id, because the next id depends only on the notes present.
   */
  lemma IdReusedAfterDelete(p: Platform, es: seq<NoteElement>, note: Note, author: Int32, name: string, now: string)
    requires forall i :: 0 <= i < |es| ==> ToInt32(es[i].id) < MaxInt32
    ensures var after := es + [NewElement(p, es, note, author, name, now)];
      FirstIndex(after, IdIs(NextId(es))) == Some(|es|)
      && NextId(RemoveAt(after, |es|)) == NextId(es)
  {
    var after := es + [NewElement(p, es, note, author, name, now)];
    NextIdUnused(es);
    FirstIndexAppend(es, NewElement(p, es, note, author, name, now), IdIs(NextId(es)));
    assert RemoveAt(after, |es|) == es;
  }

  /**
   * Reading an updated note back by its id gives its trimmed title, the slug of that title, and
   * the trimmed content decoded twice (once by the update, once by the read), with the note's
   * `AccountId` and author name, for an element that had those children.
   */
  lemma UpdatedNoteFound(p: Platform, es: seq<NoteElement>, note: Note, now: string)
    requires note.accountId != None
    requires FirstIndex(es, IdIs(note.id)) != None
    requires var e := es[FirstIndex(es, IdIs(note.id)).value];
      e.title != None && e.slug != None && e.content != None && e.accountId != None && e.account != None
    ensures var i := FirstIndex(es, IdIs(note.id)).value;
      var title := Trim(note.title.GetOr(""));
      var n := GetById(p, es[i := UpdatedElement(p, es[i], note, now)], note.id);
      n.id == note.id && n.title == Some(title) && n.slug == Some(SlugHelper.GenerateSlug(title))
      && n.content == Some(p.htmlDecode(p.htmlDecode(Trim(note.content.GetOr("")))))
      && n.accountId == note.accountId
      && n.account.value.name == Some(if note.account == None then "" else note.account.value.name.GetOr(""))
  {
    var i := FirstIndex(es, IdIs(note.id)).value;
    ReplaceKeepingId(es, i, UpdatedElement(p, es[i], note, now), note.id);
  }

  /** An update keeps every `Id`, so lookups by id and the next id are as before. */
  lemma UpdateKeepsIds(p: Platform, es: seq<NoteElement>, i: nat, note: Note, now: string, id: Int32)
    requires i < |es| && note.accountId != None
    ensures var after := es[i := UpdatedElement(p, es[i], note, now)];
      NextId(after) == NextId(es) && FirstIndex(after, IdIs(id)) == FirstIndex(es, IdIs(id))
  {
    ReplaceKeepingId(es, i, UpdatedElement(p, es[i], note, now), id);
  }

  /** Replacing an element by one with the same `Id` keeps the next id and every id lookup. */
  lemma ReplaceKeepingId(es: seq<NoteElement>, i: nat, u: NoteElement, id: Int32)
    requires i < |es| && u.id == es[i].id
    ensures NextId(es[i := u]) == NextId(es) && FirstIndex(es[i := u], IdIs(id)) == FirstIndex(es, IdIs(id))
  {
    var after := es[i := u];
    assert forall j :: 0 <= j < |es| ==> after[j].id == es[j].id;
    assert Ids(after) == Ids(es);
    assert forall j :: 0 <= j < |es| ==> (IdIs(id)(after[j]) <==> IdIs(id)(es[j]));
    FirstIndexSame(es, after, IdIs(id));
  }

  lemma {:induction false} FirstIndexSame<T>(a: seq<T>, b: seq<T>, q: T -> bool)
    requires |a| == |b| && forall j :: 0 <= j < |a| ==> (q(a[j]) <==> q(b[j]))
    ensures FirstIndex(a, q) == FirstIndex(b, q)
  {
    if a != [] {
      FirstIndexSame(a[1..], b[1..], q);
    }
  }
}
