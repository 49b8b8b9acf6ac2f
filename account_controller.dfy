/**
 * `AccountController`: logging in and out through the session, and registration, which checks
 * for a taken email and mismatched passwords before appending an account.
 */
module AccountController {
  import opened Base
  import opened Text
  import opened Runtime
  import opened XmlStore
  import opened Models
  import opened HttpSession
  import AccountService

  /** Some listed account's email equals `email` exactly; a null `email` equals only a null one. */
  predicate EmailTaken(accounts: seq<Account>, email: Option<string>) {
    exists i :: 0 <= i < |accounts| && accounts[i].email == email
  }

  /** The password check: both trimmed passwords are non-blank and differ. A blank one skips it. */
  predicate PasswordsDiffer(vm: AccountViewModel) {
    var entered := TrimOpt(vm.password);
    var confirm := TrimOpt(vm.passwordConfirm);
    !IsNullOrWhiteSpace(entered) && !IsNullOrWhiteSpace(confirm) && entered != confirm
  }

  /** The account `Register` hands to `CreateAsync`: only the form's email and untrimmed password. */
  function Registered(vm: AccountViewModel): (a: Account)
    ensures a.email == vm.email && a.password == vm.password
    ensures a.accountId == 0 && a.name == None && a.dateCreated == 0
  {
    DefaultAccount.(email := vm.email, password := vm.password)
  }

  /** No two listed accounts share an email. */
  predicate EmailsDistinct(accounts: seq<Account>) {
    forall i, j :: 0 <= i < j < |accounts| ==> accounts[i].email != accounts[j].email
  }

  /** The duplicate check against what `CreateAsync` will store: the HTML-encoded trimmed email. */
  predicate StoredEmailTaken(p: Platform, accounts: seq<Account>, email: Option<string>) {
    EmailTaken(accounts, Some(p.htmlEncode(Trim(email.GetOr("")))))
  }

  /** Appending an account whose email no listed account has keeps emails distinct. */
  lemma {:induction false} AppendFreshEmail(accounts: seq<Account>, a: Account)
    requires EmailsDistinct(accounts) && !EmailTaken(accounts, a.email)
    ensures EmailsDistinct(accounts + [a])
  {
    var after := accounts + [a];
    forall i, j | 0 <= i < j < |after| ensures after[i].email != after[j].email {
      assert after[i] == accounts[i];
      if j < |accounts| {
        assert after[j] == accounts[j];
      }
    }
  }

  /** With the check made against the stored form, creating an account keeps emails distinct. */
  lemma StoredEmailCheckKeepsDistinct(p: Platform, es: seq<AccountService.AccountElement>, account: Account, copied: seq<Child>)
    requires EmailsDistinct(AccountService.GetAll(p, es))
    requires !StoredEmailTaken(p, AccountService.GetAll(p, es), account.email)
    ensures EmailsDistinct(AccountService.GetAll(p, es + [AccountService.NewElement(p, es, account, copied)]))
  {
    var e := AccountService.NewElement(p, es, account, copied);
    AccountService.GetAllAppend(p, es, e);
    AppendFreshEmail(AccountService.GetAll(p, es), AccountService.Decode(p, e));
  }

  /** A platform whose collaborators are all the identity (or constant): enough to exhibit a case. */
  const Plain: Platform := Platform(x => x, x => x, x => x, x => x, x => 0, x => [])

  lemma TrimLeadingSpace()
    ensures Trim(" a@b.c") == "a@b.c" && Trim("a@b.c") == "a@b.c"
  {
    var s := " a@b.c";
    assert IsWhiteSpace(s[0]) && !IsWhiteSpace(s[1]);
    assert TrimStartBy(s, IsWhiteSpace) == TrimStartBy(s[1..], IsWhiteSpace);
    assert s[1..] == "a@b.c";
    assert !IsWhiteSpace("a@b.c"[0]) && !IsWhiteSpace("a@b.c"[4]);
  }

  /**
   * The email check as written compares the raw form email with the stored, trimmed and encoded
   * ones: registering " a@b.c" after "a@b.c" passes it, and the store then holds the email twice.
   */
  lemma DuplicateEmailSlipsThrough()
    ensures var es := [AccountService.NewElement(Plain, [], Registered(AccountViewModel(Some("a@b.c"), None, None)), [])];
      var vm := AccountViewModel(Some(" a@b.c"), None, None);
      var after := es + [AccountService.NewElement(Plain, es, Registered(vm), [])];
      !EmailTaken(AccountService.GetAll(Plain, es), vm.email)
      && StoredEmailTaken(Plain, AccountService.GetAll(Plain, es), vm.email)
      && !EmailsDistinct(AccountService.GetAll(Plain, after))
  {
    var first := AccountService.NewElement(Plain, [], Registered(AccountViewModel(Some("a@b.c"), None, None)), []);
    var second := AccountService.NewElement(Plain, [first], Registered(AccountViewModel(Some(" a@b.c"), None, None)), []);
    assert first.email == Some("a@b.c") by {
      PlainStoredEmail([], "a@b.c");
      TrimLeadingSpace();
    }
    assert second.email == Some("a@b.c") by {
      PlainStoredEmail([first], " a@b.c");
      TrimLeadingSpace();
    }
    assert Trim(" a@b.c") == "a@b.c" by {
      TrimLeadingSpace();
    }
    SameStoredEmail(first, second, " a@b.c", "a@b.c");
  }

  /** On `Plain`, the stored email is the trimmed form email. */
  lemma PlainStoredEmail(es: seq<AccountService.AccountElement>, email: string)
    ensures AccountService.NewElement(Plain, es, Registered(AccountViewModel(Some(email), None, None)), []).email
         == Some(Trim(email))
  {
  }

  /**
   * Whenever the form email differs from a stored email yet trims to it, the raw check misses
   * while the stored-form check hits, and creating the account stores the email a second time.
   */
  lemma SameStoredEmail(first: AccountService.AccountElement, second: AccountService.AccountElement,
                        raw: string, trimmed: string)
    requires Trim(raw) == trimmed && raw != trimmed
    requires first.email == Some(trimmed) && second.email == Some(trimmed)
    ensures !EmailTaken(AccountService.GetAll(Plain, [first]), Some(raw))
    ensures StoredEmailTaken(Plain, AccountService.GetAll(Plain, [first]), Some(raw))
    ensures !EmailsDistinct(AccountService.GetAll(Plain, [first] + [second]))
  {
    RawEmailMisses(first, raw);
    StoredEmailHits(first, raw, trimmed);
    var all := AccountService.GetAll(Plain, [first] + [second]);
    assert all[0].email == all[1].email;
  }

  lemma RawEmailMisses(first: AccountService.AccountElement, raw: string)
    requires first.email != None && first.email != Some(raw)
    ensures !EmailTaken(AccountService.GetAll(Plain, [first]), Some(raw))
  {
    var before := AccountService.GetAll(Plain, [first]);
    assert |before| == 1 && before[0].email == Some(first.email.GetOr(""));
  }

  lemma StoredEmailHits(first: AccountService.AccountElement, raw: string, trimmed: string)
    requires Trim(raw) == trimmed && first.email == Some(trimmed)
    ensures StoredEmailTaken(Plain, AccountService.GetAll(Plain, [first]), Some(raw))
  {
    var before := AccountService.GetAll(Plain, [first]);
    assert before[0].email == Some(Plain.htmlEncode(Trim(Some(raw).GetOr(""))));
  }

  class AccountController {
    const accounts: AccountService.AccountStore

    constructor(accounts: AccountService.AccountStore)
      ensures this.accounts == accounts
    {
      this.accounts := accounts;
    }

    /**
     * `Login` (GET): with a `Referer` header the form is shown with a warning; without one a
     * logged-in user (positive session id) is sent home.
     */
    function LoginForm(referrer: Option<string>): (r: ActionResult)
      reads accounts, accounts.session
      ensures r == ShowView || r == Redirect("Index", "Home")
      ensures r == Redirect("Index", "Home") <==> IsNullOrEmpty(referrer) && accounts.SessionAccountId() > 0
    {
      if !IsNullOrEmpty(referrer) then ShowView
      else if accounts.SessionAccountId() > 0 then Redirect("Index", "Home")
      else ShowView
    }

    /**
     * `Login` (POST): only a valid form with non-empty email and password is authenticated; the
     * user is sent home exactly when the found account's id is positive. A found account with a
     * non-positive id is still written to the session.
     */
    method LoginPost(account: Account, modelValid: bool) returns (r: ActionResult)
      modifies accounts.session
      ensures var attempt := modelValid && !IsNullOrEmpty(account.email) && !IsNullOrEmpty(account.password);
        var a := if attempt then AccountService.Authenticate(accounts.platform, accounts.elements,
          account.email.value, account.password.value) else None;
        (a == None ==> accounts.session.entries == old(accounts.session.entries))
        && (a != None ==> accounts.session.entries == old(accounts.session.entries)
              ["AccountId" := IntValue(a.value.accountId)]
              ["Name" := StringValue(a.value.name.GetOr(""))]
              ["Email" := StringValue(account.email.value)])
        && (r == Redirect("Index", "Home") <==> a != None && a.value.accountId > 0)
        && (r == ShowView || r == Redirect("Index", "Home"))
    {
      if modelValid && !IsNullOrEmpty(account.email) && !IsNullOrEmpty(account.password) {
        var accountId := accounts.HandleAuthenticate(account.email.value, account.password.value, accounts.session);
        if accountId > 0 {
          return Redirect("Index", "Home");
        }
      }
      return ShowView;
    }

    /** `Logout`: empties the session, so no account id is left in it, and sends the user home. */
    method Logout() returns (r: ActionResult)
      modifies accounts.session
      ensures r == Redirect("Index", "Home")
      ensures accounts.session.entries == map[]
      ensures accounts.session.GetInt32("AccountId") == None
    {
      accounts.HandleLogout();
      return Redirect("Index", "Home");
    }

    /**
     * `Register` (POST): an invalid form, an email some stored account has exactly, or two
     * non-blank passwords that differ after trimming show the form again and store nothing;
     * otherwise the account is created and the account page shown.
     */
    method RegisterPost(vm: AccountViewModel, modelValid: bool, copied: seq<Child>) returns (r: ActionResult)
      modifies accounts
      ensures var existing := AccountService.GetAll(accounts.platform, old(accounts.elements));
        var rejected := !modelValid || EmailTaken(existing, vm.email) || PasswordsDiffer(vm);
        (rejected ==> r == ShowView && accounts.elements == old(accounts.elements))
        && (!rejected ==>
              r == Redirect("Index", "Account")
              && accounts.elements == old(accounts.elements)
                   + [AccountService.NewElement(accounts.platform, old(accounts.elements), Registered(vm), copied)])
    {
      if !modelValid {
        return ShowView;
      }
      var existing := AccountService.GetAll(accounts.platform, accounts.elements);
      if EmailTaken(existing, vm.email) {
        return ShowView;
      }
      if PasswordsDiffer(vm) {
        return ShowView;
      }
      var _ := accounts.Create(Registered(vm), copied);
      return Redirect("Index", "Account");
    }

    /**
     * `Register` (POST) with the duplicate check made against the email as the store will write
     * it: stored emails that were distinct stay distinct.
     */
    method RegisterPostChecked(vm: AccountViewModel, modelValid: bool, copied: seq<Child>) returns (r: ActionResult)
      modifies accounts
      ensures var existing := AccountService.GetAll(accounts.platform, old(accounts.elements));
        var rejected := !modelValid || StoredEmailTaken(accounts.platform, existing, vm.email) || PasswordsDiffer(vm);
        (rejected ==> r == ShowView && accounts.elements == old(accounts.elements))
        && (!rejected ==>
              r == Redirect("Index", "Account")
              && accounts.elements == old(accounts.elements)
                   + [AccountService.NewElement(accounts.platform, old(accounts.elements), Registered(vm), copied)])
      ensures EmailsDistinct(AccountService.GetAll(accounts.platform, old(accounts.elements)))
        ==> EmailsDistinct(AccountService.GetAll(accounts.platform, accounts.elements))
    {
      if !modelValid {
        return ShowView;
      }
      var existing := AccountService.GetAll(accounts.platform, accounts.elements);
      if StoredEmailTaken(accounts.platform, existing, vm.email) {
        return ShowView;
      }
      if PasswordsDiffer(vm) {
        return ShowView;
      }
      if EmailsDistinct(existing) {
        StoredEmailCheckKeepsDistinct(accounts.platform, accounts.elements, Registered(vm), copied);
      }
      var _ := accounts.Create(Registered(vm), copied);
      return Redirect("Index", "Account");
    }
  }
}
