/**
 * `AccountService`: the account store kept as the `Account` children of the `Accounts` document,
 * authentication against it, and the session keys that record who is logged in.
 */
module AccountService {
  import opened Base
  import opened Text
  import opened Runtime
  import opened XmlStore
  import opened Models
  import opened HttpSession
  import DataHelper

  /**
   * One `Account` element. Numeric and credential children are named fields (None: the child is
   * absent); `others` holds every other child, in document order.
   */
  datatype AccountElement = AccountElement(
    accountId: Option<Int32>,
    id: Option<Int32>,
    name: Option<string>,
    email: Option<string>,
    password: Option<string>,
    others: seq<Child>)

  /** The `Account` record `GetAllAsync` builds from one element. */
  function Decode(p: Platform, e: AccountElement): (a: Account)
    ensures a.accountId == ToInt32(e.accountId)
    ensures a.name == Some(e.name.GetOr("")) && a.email == Some(e.email.GetOr(""))
    ensures a.password == Some(e.password.GetOr(""))
    ensures a.dateCreated == ParseDate(p, FirstChild(e.others, "DateCreated"))
  {
    Account(ToInt32(e.accountId), Some(e.name.GetOr("")), Some(e.email.GetOr("")), Some(e.password.GetOr("")),
      ParseDate(p, FirstChild(e.others, "DateCreated")))
  }

  /** `GetAllAsync`: every element decoded, in document order. */
  function GetAll(p: Platform, es: seq<AccountElement>): (r: seq<Account>)
    ensures |r| == |es|
    ensures forall i :: 0 <= i < |es| ==> r[i] == Decode(p, es[i])
  {
    if es == [] then [] else [Decode(p, es[0])] + GetAll(p, es[1..])
  }

  function AccountIds(es: seq<AccountElement>): (r: seq<Int32>)
    ensures |r| == |es|
    ensures forall i :: 0 <= i < |es| ==> r[i] == ToInt32(es[i].accountId)
  {
    if es == [] then [] else [ToInt32(es[0].accountId)] + AccountIds(es[1..])
  }

  /** `GetNextId`: 1 when there are no accounts, else the largest `AccountId` (missing: 0) plus one. */
  function NextId(es: seq<AccountElement>): (r: Int32)
    ensures es == [] ==> r == 1
    ensures (forall i :: 0 <= i < |es| ==> ToInt32(es[i].accountId) < MaxInt32) ==>
      (forall i :: 0 <= i < |es| ==> ToInt32(es[i].accountId) < r)
      && (es != [] ==> exists i :: 0 <= i < |es| && r == ToInt32(es[i].accountId) + 1)
  {
    var ids := AccountIds(es);
    assert (forall i :: 0 <= i < |es| ==> ToInt32(es[i].accountId) < MaxInt32) ==> forall i :: 0 <= i < |ids| ==> ids[i] < MaxInt32;
    XmlStore.NextId(ids)
  }

  function AccountIdIs(id: Int32): AccountElement -> bool {
    (e: AccountElement) => ToInt32(e.accountId) == id
  }

  /**
   * `GetByIdAsync`: only `AccountId` and `Name` of the first element whose `AccountId` (missing:
   * 0) equals `id`; a miss gives `AccountId` 0 and `Name` "".
   */
  function GetById(es: seq<AccountElement>, id: Int32): (a: Account)
    ensures a.email == None && a.password == None && a.dateCreated == 0
    ensures var i := FirstIndex(es, AccountIdIs(id));
      if i == None then a.accountId == 0 && a.name == Some("")
      else a.accountId == id && a.name == Some(es[i.value].name.GetOr(""))
  {
    var i := FirstIndex(es, AccountIdIs(id));
    var e := if i == None then None else Some(es[i.value]);
    Account(if e == None then 0 else ToInt32(e.value.accountId),
      Some(if e == None then "" else e.value.name.GetOr("")), None, None, 0)
  }

  function AccountIdTextIs(id: Int32): AccountElement -> bool {
    (e: AccountElement) => e.accountId == Some(id)
  }

  /**
   * `GetAccountNameByIdAsync`: the `Name` of the first element whose `AccountId` text is
   * `id.ToString()`; null when there is no such element or it has no `Name`. Unlike `GetById`, an
   * element without `AccountId` never matches, not even for id 0.
   */
  function GetAccountNameById(es: seq<AccountElement>, id: Int32): (r: Option<string>)
    ensures FirstIndex(es, AccountIdTextIs(id)) == None ==> r == None
    ensures r != None ==> exists i :: 0 <= i < |es| && es[i].accountId == Some(id) && es[i].name == r
    ensures var i := FirstIndex(es, AccountIdTextIs(id)); i != None ==> r == es[i.value].name
  {
    var i := FirstIndex(es, AccountIdTextIs(id));
    if i == None then None else es[i.value].name
  }

  /**
   * The element `CreateAsync` appends: `AccountId` is the next id, `Name` the part of the trimmed
   * email before '@', `Email` the HTML-encoded trimmed email, `Password` the encrypted trimmed
   * password. `copied` are the children the reflective copy writes for the account's other
   * properties. No `Id` child is written.
   */
  function NewElement(p: Platform, es: seq<AccountElement>, account: Account, copied: seq<Child>): (e: AccountElement)
    ensures e.accountId == Some(NextId(es)) && e.id == None
    ensures e.name == Some(DataHelper.GetUsernameFromEmail(Trim(account.email.GetOr(""))))
    ensures '@' !in e.name.value
    ensures e.email == Some(p.htmlEncode(Trim(account.email.GetOr(""))))
    ensures e.password == Some(p.encrypt(Trim(account.password.GetOr(""))))
  {
    var email := Trim(account.email.GetOr(""));
    AccountElement(Some(NextId(es)), None, Some(DataHelper.GetUsernameFromEmail(email)), Some(p.htmlEncode(email)),
      Some(p.encrypt(Trim(account.password.GetOr("")))), copied)
  }

  /**
   * The element `UpdateAsync` leaves: `Email` and `Password` are overwritten only where those
   * children exist, with the raw email and the encrypted untrimmed password; `DateModified` is set
   * or added; the first `Roles` child is removed. Nothing else changes.
   */
  function UpdatedElement(p: Platform, e: AccountElement, account: Account, now: string): (r: AccountElement)
    ensures r.accountId == e.accountId && r.id == e.id && r.name == e.name
    ensures r.email == if e.email == None then None else Some(account.email.GetOr(""))
    ensures r.password == if e.password == None then None else Some(p.encrypt(account.password.GetOr("")))
    ensures FirstChild(r.others, "DateModified") == Some(now)
    ensures FirstChild(e.others, "Roles") == None ==> FirstChild(r.others, "Roles") == None
    ensures var k := FirstIndex(e.others, NameIs("Roles"));
      k != None ==> r.others == SetOrAddChild(RemoveAt(e.others, k.value), "DateModified", now)
  {
    var others := RemoveChild(SetOrAddChild(e.others, "DateModified", now), "Roles");
    SetRemoveCommute(e.others, "DateModified", now, "Roles");
    OtherChildrenUnchanged(SetOrAddChild(e.others, "DateModified", now), "Roles", "", "DateModified");
    OtherChildrenUnchanged(e.others, "DateModified", now, "Roles");
    e.(email := if e.email == None then None else Some(account.email.GetOr("")),
       password := if e.password == None then None else Some(p.encrypt(account.password.GetOr(""))),
       others := others)
  }

  /** An update leaves every other child of the element as it was. */
  lemma UpdateKeepsOtherChildren(p: Platform, e: AccountElement, account: Account, now: string, name: string)
    requires name != "DateModified" && name != "Roles"
    ensures FirstChild(UpdatedElement(p, e, account, now).others, name) == FirstChild(e.others, name)
  {
    OtherChildrenUnchanged(e.others, "DateModified", now, name);
    OtherChildrenUnchanged(SetOrAddChild(e.others, "DateModified", now), "Roles", "", name);
  }

  /** The predicate `HandleAuthenticateAsync` searches with. */
  function Credentials(p: Platform, email: string, password: string): Account -> bool {
    (a: Account) => a.email != None && a.email.value == email && a.password != None && MatchData(p, Trim(password), a.password.value)
  }

  /**
   * The account `HandleAuthenticateAsync` finds: the first decoded account whose email equals
   * `email` exactly and whose stored password decrypts to the trimmed `password`.
   */
  function Authenticate(p: Platform, es: seq<AccountElement>, email: string, password: string): (r: Option<Account>)
    ensures r == None <==> forall i :: 0 <= i < |es| ==> !Credentials(p, email, password)(Decode(p, es[i]))
    ensures r != None ==> exists i :: (0 <= i < |es| && r.value == Decode(p, es[i])
      && es[i].email.GetOr("") == email && MatchData(p, Trim(password), es[i].password.GetOr(""))
      && forall j :: 0 <= j < i ==> !Credentials(p, email, password)(Decode(p, es[j])))
  {
    var all := GetAll(p, es);
    var i := FirstIndex(all, Credentials(p, email, password));
    if i == None then None else Some(all[i.value])
  }

  function IdIs(id: Int32): AccountElement -> bool {
    (e: AccountElement) => ToInt32(e.id) == id
  }

  // ---------------------------------------------------------------------
  // What a sequence of operations does to the store.

  /** While ids stay below the `int` limit, the next id matches no stored `AccountId`. */
  lemma NextIdUnused(es: seq<AccountElement>)
    requires forall i :: 0 <= i < |es| ==> ToInt32(es[i].accountId) < MaxInt32
    ensures FirstIndex(es, AccountIdIs(NextId(es))) == None
  {
  }

  /**
   * After registration, looking the new id up finds the new account, with the user name of its
   * trimmed email; reading all accounts back ends with the new one, carrying the encoded trimmed
   * email and the encrypted trimmed password.
   */
  lemma CreatedAccountFound(p: Platform, es: seq<AccountElement>, account: Account, copied: seq<Child>)
    requires forall i :: 0 <= i < |es| ==> ToInt32(es[i].accountId) < MaxInt32
    ensures var email := Trim(account.email.GetOr(""));
      var name := Some(DataHelper.GetUsernameFromEmail(email));
      GetById(es + [NewElement(p, es, account, copied)], NextId(es)) == Account(NextId(es), name, None, None, 0)
      && GetAll(p, es + [NewElement(p, es, account, copied)])[|es|]
         == Account(NextId(es), name, Some(p.htmlEncode(email)), Some(p.encrypt(Trim(account.password.GetOr("")))),
                    ParseDate(p, FirstChild(copied, "DateCreated")))
  {
    var e := NewElement(p, es, account, copied);
    NextIdUnused(es);
    FirstIndexAppend(es, e, AccountIdIs(NextId(es)));
    GetAllAppend(p, es, e);
  }

  /** After registration, the account name lookup by the new id gives the user name of the trimmed email. */
  lemma CreatedAccountNamed(p: Platform, es: seq<AccountElement>, account: Account, copied: seq<Child>)
    requires forall i :: 0 <= i < |es| ==> ToInt32(es[i].accountId) < MaxInt32
    ensures GetAccountNameById(es + [NewElement(p, es, account, copied)], NextId(es))
      == Some(DataHelper.GetUsernameFromEmail(Trim(account.email.GetOr(""))))
  {
    var e := NewElement(p, es, account, copied);
    assert forall i :: 0 <= i < |es| ==> !AccountIdTextIs(NextId(es))(es[i]);
    FirstIndexAppend(es, e, AccountIdTextIs(NextId(es)));
  }

  /** Deleting by `AccountId` right after a create removes exactly the new element. */
  lemma CreateThenDeleteByAccountId(p: Platform, es: seq<AccountElement>, account: Account, copied: seq<Child>)
    requires forall i :: 0 <= i < |es| ==> ToInt32(es[i].accountId) < MaxInt32
    ensures var after := es + [NewElement(p, es, account, copied)];
      FirstIndex(after, AccountIdIs(NextId(es))) == Some(|es|) && RemoveAt(after, |es|) == es
  {
    NextIdUnused(es);
    FirstIndexAppend(es, NewElement(p, es, account, copied), AccountIdIs(NextId(es)));
  }

  /**
   * The as-written `DeleteAsync` on accounts that `CreateAsync` wrote: every id other than 0
   * misses, and id 0 hits the first account.
   */
  lemma DeleteMissesCreatedAccounts(es: seq<AccountElement>, id: Int32)
    requires forall i :: 0 <= i < |es| ==> es[i].id == None
    ensures id != 0 ==> FirstIndex(es, IdIs(id)) == None
    ensures id == 0 && es != [] ==> FirstIndex(es, IdIs(id)) == Some(0)
  {
  }

  /** A concrete store: account 1 exists, yet `DeleteAsync(1)` finds nothing to remove. */
  lemma DeleteCounterexample(p: Platform, account: Account)
    ensures var es := [NewElement(p, [], account, [])];
      GetById(es, 1).accountId == 1 && FirstIndex(es, IdIs(1)) == None
  {
    var es := [NewElement(p, [], account, [])];
    assert AccountIdIs(1)(es[0]);
  }

  lemma {:induction false} GetAllAppend(p: Platform, es: seq<AccountElement>, e: AccountElement)
    ensures GetAll(p, es + [e]) == GetAll(p, es) + [Decode(p, e)]
  {
    assert forall i :: 0 <= i < |es| ==> (es + [e])[i] == es[i];
  }

  /**
   * Logging in right after registering: if no stored account accepted the credentials before, the
   * new one accepts exactly its HTML-encoded trimmed email and any password that trims to its
   * trimmed password.
   */
  lemma LoginAfterRegister(p: Platform, es: seq<AccountElement>, account: Account, copied: seq<Child>,
                           email: string, password: string)
    requires CipherRoundTrips(p)
    requires Authenticate(p, es, email, password) == None
    ensures var r := Authenticate(p, es + [NewElement(p, es, account, copied)], email, password);
      (r != None <==> email == p.htmlEncode(Trim(account.email.GetOr(""))) && Trim(password) == Trim(account.password.GetOr("")))
      && (r != None ==> r.value.accountId == NextId(es))
  {
    var e := NewElement(p, es, account, copied);
    var q := Credentials(p, email, password);
    var all := GetAll(p, es);
    GetAllAppend(p, es, e);
    assert FirstIndex(all, q) == None;
    FirstIndexAppend(all, Decode(p, e), q);
    assert q(Decode(p, e)) <==> (email == p.htmlEncode(Trim(account.email.GetOr("")))
      && Trim(password) == Trim(account.password.GetOr(""))) by {
      MatchEncrypted(p, Trim(password), Trim(account.password.GetOr("")));
    }
  }

  /** An update keeps every `AccountId`, so the next id stays the same. */
  lemma UpdateKeepsNextId(p: Platform, es: seq<AccountElement>, i: nat, account: Account, now: string)
    requires i < |es|
    ensures NextId(es[i := UpdatedElement(p, es[i], account, now)]) == NextId(es)
  {
    var u := UpdatedElement(p, es[i], account, now);
    var updated := es[i := u];
    assert forall j :: 0 <= j < |es| ==> updated[j].accountId == es[j].accountId;
    assert AccountIds(updated) == AccountIds(es);
  }

  class AccountStore {
    /** The `Account` children of the document root, in order. */
    var elements: seq<AccountElement>
    const platform: Platform
    /** The session of the current request, as `IHttpContextAccessor` reaches it. */
    const session: Session

    constructor(platform: Platform, session: Session, stored: seq<AccountElement>)
      ensures elements == stored && this.platform == platform && this.session == session
    {
      this.platform := platform;
      this.session := session;
      elements := stored;
    }

    /** `CreateAsync`: appends one element built from `account` and reports success. */
    method Create(account: Account, copied: seq<Child>) returns (ok: bool)
      modifies this
      ensures ok
      ensures elements == old(elements) + [NewElement(platform, old(elements), account, copied)]
    {
      var e := NewElement(platform, elements, account, copied);
      elements := elements + [e];
      ok := true;
    }

    /**
     * `UpdateAsync`: rewrites the first element whose `AccountId` equals `account.accountId`;
     * without one it reports failure and saves nothing.
     */
    method Update(account: Account, now: string) returns (ok: bool)
      modifies this
      ensures var i := FirstIndex(old(elements), AccountIdIs(account.accountId));
        if i == None then !ok && elements == old(elements)
        else ok && elements == old(elements)[i.value := UpdatedElement(platform, old(elements)[i.value], account, now)]
    {
      var i := FirstIndex(elements, AccountIdIs(account.accountId));
      if i == None {
        return false;
      }
      elements := elements[i.value := UpdatedElement(platform, elements[i.value], account, now)];
      ok := true;
    }

    /**
     * `DeleteAsync`, as written: removes the first element whose `Id` child (missing: 0) equals
     * `id`. Account elements carry `AccountId`, not `Id` (see DeleteMissesCreatedAccounts).
     */
    method Delete(id: Int32) returns (ok: bool)
      modifies this
      ensures var i := FirstIndex(old(elements), IdIs(id));
        if i == None then !ok && elements == old(elements)
        else ok && elements == RemoveAt(old(elements), i.value)
    {
      var i := FirstIndex(elements, IdIs(id));
      if i == None {
        return false;
      }
      elements := RemoveAt(elements, i.value);
      ok := true;
    }

    /** `DeleteAsync` keyed on `AccountId`, as the other account operations are. */
    method DeleteByAccountId(id: Int32) returns (ok: bool)
      modifies this
      ensures var i := FirstIndex(old(elements), AccountIdIs(id));
        if i == None then !ok && elements == old(elements)
        else ok && elements == RemoveAt(old(elements), i.value)
    {
      var i := FirstIndex(elements, AccountIdIs(id));
      if i == None {
        return false;
      }
      elements := RemoveAt(elements, i.value);
      ok := true;
    }

    /**
     * `HandleAuthenticateAsync`: on a match, stores the account's id, name and the given email in
     * the request's session and returns the id; otherwise returns 0 and writes nothing.
     */
    method HandleAuthenticate(email: string, password: string, ctx: Session) returns (accountId: Int32)
      modifies ctx
      ensures var a := Authenticate(platform, old(elements), email, password);
        if a == None then accountId == 0 && ctx.entries == old(ctx.entries)
        else (accountId == a.value.accountId
          && ctx.entries == old(ctx.entries)["AccountId" := IntValue(a.value.accountId)]
                                            ["Name" := StringValue(a.value.name.GetOr(""))]
                                            ["Email" := StringValue(email)])
    {
      var a := Authenticate(platform, elements, email, password);
      if a == None {
        return 0;
      }
      ctx.SetInt32("AccountId", a.value.accountId);
      ctx.SetString("Name", a.value.name.GetOr(""));
      ctx.SetString("Email", email);
      accountId := a.value.accountId;
    }

    /** `GetSessionAccountId`: the stored `AccountId`, or 0 when there is none. */
    function SessionAccountId(): (r: Int32)
      reads session
      ensures session.GetInt32("AccountId") == None ==> r == 0
      ensures session.GetInt32("AccountId") != None ==> r == session.GetInt32("AccountId").value
    {
      session.GetInt32("AccountId").GetOr(0)
    }

    /** `GetSessionUsername`: the stored `Name`, or "" when it is missing or blank. */
    function SessionUsername(): (r: string)
      reads session
      ensures IsNullOrWhiteSpace(session.GetString("Name")) ==> r == ""
      ensures !IsNullOrWhiteSpace(session.GetString("Name")) ==> r == session.GetString("Name").value
    {
      var name := session.GetString("Name");
      if IsNullOrWhiteSpace(name) then "" else name.value
    }

    /** `HandleLogoutAsync`: removes every key of the session, one at a time, from a snapshot of the keys. */
    method HandleLogout()
      modifies session
      ensures session.entries == map[]
      ensures SessionAccountId() == 0 && SessionUsername() == ""
    {
      var keys := session.entries.Keys;
      while keys != {}
        invariant keys == session.entries.Keys
        decreases |keys|
      {
        var k :| k in keys;
        session.Remove(k);
        keys := keys - {k};
      }
      assert session.entries == map[];
    }
  }
}
