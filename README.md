# notatez in Dafny

notatez is a small ASP.NET note-taking site. Notes and accounts live in two XML documents: each
record is one child element of the document root, and its fields are named child elements.
This project models the site's core and proves properties of the model:

- **The two record stores.** `NoteService` and `AccountService` are one class each. A class holds
  the root's elements as a sequence of records with optional fields; a missing child is `None`.
  - Queries are functions: decoding, next id, first-match lookup, filter by author, authentication.
  - `Create`, `Update` and `Delete` are methods that reassign that sequence.
- **The session.** It is a class over a key/value map, which login writes and logout empties.
- **The string helpers.**
  - `SlugHelper`: slug generation.
  - `DataHelper`: the user name from an email, trimmed case-insensitive comparison, tag stripping
    and truncation.
- **The two note listings.** `HomeController.Index` and `NoteController.Index` each search, sort
  stably, page with `Skip`/`Take` and build view models. `Page<T>` does the page-count arithmetic.
- **The request rules.**
  - Duplicate-title rejection when a note is created.
  - Not-found answers of update and delete.
  - Login preconditions, the registration checks and logout.
  - The `AuthorizationNeeded` session gate.

Some .NET services sit outside the model: the AES cipher, HTML entity encoding, date parsing and
the culture's string order. They are the fields of a `Runtime.Platform` value. Every operation
that needs one takes the platform as a parameter, so each proof holds for every implementation.
The only assumption ever made about them is that decryption undoes encryption
(`Runtime.CipherRoundTrips`). It is placed as a `requires` only on the two lemmas that need it,
`Runtime.MatchEncrypted` and `AccountService.LoginAfterRegister`.

C# `int` is modelled as `Base.Int32`. The two places where the code can overflow wrap around
explicitly (`Base.Wrap32`):

- `GetNextId`, after the largest id;
- the `(page - 1) * pageSize` offset of paging.

Where the documented design and the code disagree, the model follows the code. The design
describes note and account ids as never reused. The code computes each new id as the largest
id *currently stored* plus one, so the id of the last record is handed out again once that
record is deleted (`NoteService.IdReusedAfterDelete`).

Modules, one per source file or shared concern:

| module | file | models |
|---|---|---|
| `Base`, `Text`, `Linq` | base.dfy, text.dfy, linq.dfy | nullable values, `int` wrap-around, .NET string primitives, LINQ `Where`/`Select`/`Skip`/`Take`/stable `OrderBy` |
| `Runtime`, `HttpSession`, `XmlStore`, `Models` | runtime.dfy, session.dfy, xml_store.dfy, models.dfy | the opaque platform, the session, element lookup and editing, the record types |
| `SlugHelper`, `DataHelper` | slug_helper.dfy, data_helper.dfy | the helpers |
| `Paging`, `Listing` | page.dfy, listing.dfy | `Page<T>`, and what both listings share |
| `AccountService`, `NoteService` | account_service.dfy, note_service.dfy | the stores |
| `HomeController`, `NoteController`, `AccountController`, `AuthorizationNeeded` | home_controller.dfy, note_controller.dfy, account_controller.dfy, authorization_needed.dfy | the actions and the filter |

## Model

| member | source | states |
|---|---|---|
| `Base.Wrap32` | Models/Services/AccountService.cs:239-252 | unchecked `int` arithmetic: in-range values are kept, `MaxInt32 + 1` becomes `MinInt32`, and the result always agrees with the input modulo 2^32 |
| `Text.TrimBy` | Models/Helpers/SlugHelper.cs:24 | `Trim(chars)` leaves a contiguous block of the input that neither starts nor ends with a dropped character; everything cut from either end is a dropped character |
| `Text.TrimByKeeps` | Models/Helpers/SlugHelper.cs:24 | a character that is not dropped survives trimming |
| `Text.LowerTrim` | Models/Helpers/DataHelper.cs:27-39 | lowering commutes with trimming when lowering does not change what is trimmed |
| `Text.LowerIdempotent` | Models/Helpers/DataHelper.cs:27-39 | lowering twice is lowering once |
| `Text.IndexOf` | Models/Helpers/DataHelper.cs:14 | `IndexOf(c)` is absent exactly when `c` does not occur; otherwise it is the position of the first `c` |
| `Linq.Where` | Controllers/HomeController.cs:39-43 | every kept element satisfies the predicate, and the result is no longer than the input |
| `Linq.WhereCount` | Controllers/HomeController.cs:39-43 | `Where` keeps every copy of a satisfying element and no other element (multiset count and membership, both directions) |
| `Linq.WhereConcat` | Controllers/HomeController.cs:39-43 | filtering distributes over concatenation, so relative order is kept |
| `Linq.Select` | Controllers/HomeController.cs:53 | the function applied at every position, same length |
| `Linq.Skip` | Controllers/HomeController.cs:50 | `Skip(n)`: nothing skipped for `n <= 0`, the suffix from `n`, empty past the end |
| `Linq.Take` | Controllers/HomeController.cs:50 | `Take(n)`: empty for `n <= 0`, the prefix of length `n`, everything past the end |
| `Linq.LexLeTotal` | Controllers/HomeController.cs:70-95 | the order on sort keys is total (with `LexLeReflexive`, `LexLeAntisymmetric` and `LexLeTransitive`, a total order) |
| `Linq.OrderBy` | Controllers/HomeController.cs:70-95 | the result is a permutation of the input (same multiset) and is sorted by the key, ascending or descending |
| `Linq.OrderByStable` | Controllers/HomeController.cs:70-95 | for every key value, the elements with that key appear in input order |
| `Linq.SortedStableUnique` | Controllers/HomeController.cs:70-95 | two sequences that are both sorted and keep the same per-key order are equal, so sorted and stable determines the output |
| `XmlStore.ToInt32` | Models/Services/NoteService.cs:50 | `Convert.ToInt32` of a missing child is 0, of a present one its number |
| `XmlStore.FirstIndex` | Models/Services/NoteService.cs:73 | `FirstOrDefault` finds nothing exactly when no element matches; otherwise the index of the first match |
| `XmlStore.FirstIndexAppend` | Models/Services/NoteService.cs:185 | appending never changes an earlier first match and is found only when nothing before it matches |
| `XmlStore.RemoveAt` | Models/Services/NoteService.cs:244 | `Remove()` drops exactly the element at `i`, keeping the order of the rest |
| `XmlStore.FirstChild` | Models/Services/AccountService.cs:44 | `Element(name)?.Value` is absent exactly when no child has that name, else the text of the first child with that name |
| `XmlStore.SetOrAddChild` | Models/Services/AccountService.cs:172-180 | afterwards the child reads `text`; a child is added only when there was none |
| `XmlStore.RemoveChild` | Models/Services/AccountService.cs:183-187 | removes exactly the first child with that name, keeping the others in order; without one, changes nothing |
| `XmlStore.SetRemoveCommute` | Models/Services/AccountService.cs:172-187 | setting one child and removing a differently named one give the same children in either order |
| `XmlStore.OtherChildrenUnchanged` | Models/Services/AccountService.cs:169-190 | setting or removing one child leaves the lookup of every other name as it was |
| `XmlStore.Max` | Models/Services/NoteService.cs:268-273 | the largest id is one of the ids and no id exceeds it |
| `XmlStore.NextId` | Models/Services/NoteService.cs:266-276 | 1 for no elements, else the largest id plus one, wrapping to `MinInt32` after `MaxInt32` |
| `XmlStore.NextIdFresh` | Models/Services/NoteService.cs:266-276 | below the `int` limit the next id exceeds every id in use and is one more than one of them |
| `XmlStore.NextIdOfMax` | Models/Services/NoteService.cs:266-276 | the next id depends only on the largest id present: adding smaller ids changes nothing |
| `Runtime.MatchEncrypted` | Models/Helpers/EncryptionHelper.cs:89-121 | if decryption undoes encryption, a stored password matches exactly the text it was made from |
| `HttpSession.Session.GetInt32` | Models/Services/AccountService.cs:356-370 | non-null exactly when an int is stored under the key, and then that int |
| `HttpSession.Session.GetString` | Models/Services/AccountService.cs:372-387 | non-null exactly when a string is stored under the key, and then that string |
| `HttpSession.Session.SetInt32` | Models/Services/AccountService.cs:312 | only the key's entry changes, and it then reads back as the int |
| `HttpSession.Session.SetString` | Models/Services/AccountService.cs:313-316 | only the key's entry changes, and it then reads back as the string |
| `HttpSession.Session.Remove` | Models/Services/AccountService.cs:398 | only the key's entry goes, and neither getter finds it |
| `SlugHelper.ReplaceSpaces` | Models/Helpers/SlugHelper.cs:15 | only U+0020 becomes '-', position by position |
| `SlugHelper.RemoveSpecialCharacters` | Models/Helpers/SlugHelper.cs:32-36 | only ASCII letters, digits and '-' remain, and nothing is added |
| `SlugHelper.RemoveConsecutiveHyphens` | Models/Helpers/SlugHelper.cs:38-42 | no `--` remains, the first character is kept and nothing is added |
| `SlugHelper.CollapseChars` | Models/Helpers/SlugHelper.cs:38-42 | collapsing hyphen runs introduces no character |
| `SlugHelper.GenerateSlug` | Models/Helpers/SlugHelper.cs:9-30 | the slug has only 'a'-'z', '0'-'9' and '-', no `--`, no hyphen at either end, and is no longer than the title |
| `SlugHelper.SlugOfSlug` | Models/Helpers/SlugHelper.cs:9-30 | every well-formed slug is its own slug |
| `SlugHelper.SlugIdempotent` | Models/Helpers/SlugHelper.cs:9-30 | generating a slug twice is generating it once |
| `SlugHelper.SlugOfLower` | Models/Helpers/SlugHelper.cs:12-27 | a title and its lower-cased form give the same slug |
| `SlugHelper.SlugIgnoresCase` | Models/Helpers/SlugHelper.cs:12-27 | titles equal under ordinal case-insensitive comparison give the same slug |
| `SlugHelper.SlugIgnoresPunctuation` | Models/Helpers/SlugHelper.cs:12-27 | titles that agree once punctuation is removed give the same slug |
| `SlugHelper.SlugEmptyIff` | Models/Helpers/SlugHelper.cs:12-27 | the slug is empty exactly when the title has no ASCII letter or digit (so a title of only spaces and punctuation gives "") |
| `DataHelper.GetUsernameFromEmail` | Models/Helpers/DataHelper.cs:11-24 | the result is a prefix of the email without '@': the whole email when it has none, else exactly the part before the first '@' |
| `DataHelper.CompareTextEquivalence` | Models/Helpers/DataHelper.cs:27-39 | `CompareText` is reflexive, symmetric and transitive |
| `DataHelper.CompareTextIgnoresCase` | Models/Helpers/DataHelper.cs:27-39 | lower-casing a string never changes what `CompareText` sees |
| `DataHelper.TagEnd` | Models/Helpers/DataHelper.cs:53 | where a lazy `<.*?>` can end: the first '>' with no line break before it, or none when every '>' comes after a line break |
| `DataHelper.StripTags` | Models/Helpers/DataHelper.cs:53 | `Regex.Replace(s, "<.*?>", "")` never lengthens the text and leaves text without '<' unchanged |
| `DataHelper.StripTagsTagFree` | Models/Helpers/DataHelper.cs:53 | after stripping, no '<' starts a tag |
| `DataHelper.StripTagsIdempotent` | Models/Helpers/DataHelper.cs:53 | stripping twice is stripping once |
| `DataHelper.GetPlainText` | Models/Helpers/DataHelper.cs:44-57 | no leading or trailing white space, no longer than the (decoded) input, and `Trim(s)` when nothing is decoded and `s` has no '<' |
| `DataHelper.GetShortText` | Models/Helpers/DataHelper.cs:59-74 | for `maxLength >= 0`, the plain text's prefix of length min(maxLength, its length); a negative length is the `Substring` error |
| `Paging.CeilDivBounds` | Models/Page.cs:14 | the ceiling quotient `c` of `a / b` for `b > 0` satisfies `(c - 1)·b < a <= c·b` |
| `Paging.Page.TotalPages` | Models/Page.cs:14 | for a positive page size, the ceiling of items over page size: 0 pages exactly for 0 items, and `(TotalPages - 1)·PageSize < TotalItems <= TotalPages·PageSize` |
| `Paging.HasPreviousPageIff` | Models/Page.cs:16 | from page 1 on, there is a previous page exactly when the page starts after item 0 |
| `Paging.HasNextPageIff` | Models/Page.cs:18 | there is a next page exactly when the current page ends before the last item |
| `Paging.NoNextPageAtEnd` | Models/Page.cs:18 | the last page, and the only page of an empty listing, have no next page |
| `Paging.NewPage` | Models/Page.cs:20-23 | a new page has no items, zero numbers and null strings |
| `Paging.PageStartExact` | Controllers/HomeController.cs:50 | without overflow, the `int` offset is `(page - 1)·pageSize` |
| `Paging.PageOf` | Controllers/HomeController.cs:50 | a page never holds more than `pageSize` items, and none for `pageSize <= 0` |
| `Paging.PageOfSlice` | Controllers/HomeController.cs:50 | page `page` holds the items from index `(page - 1)·pageSize` up to `page·pageSize`, clipped to the list |
| `Paging.AllPages` | Controllers/HomeController.cs:50-59 | pages 1 to `TotalPages` together give back the whole list, in order, each item once |
| `Listing.ShortTitle` | Controllers/HomeController.cs:105 | null stays null; a title of at most 30 characters is kept; a longer one becomes its first 30 plain-text characters plus "..." |
| `Listing.Description` | Controllers/HomeController.cs:106 | null stays null; content whose plain text has at most 100 characters is kept, markup included; otherwise exactly the first 100 plain-text characters plus "..." |
| `Listing.ListingPage` | Controllers/HomeController.cs:50-65 | at most `pageSize` items, `TotalItems` counts the whole sorted list, and the page number, size, query and sort are echoed |
| `Listing.ListingPageSlice` | Controllers/HomeController.cs:50-53 | the page shows the sorted notes from `(page - 1)·pageSize`, clipped, through the view |
| `Listing.ListingPagesCover` | Controllers/HomeController.cs:50-59 | pages 1 to `TotalPages` show every listed note exactly once, in order |
| `Listing.StringKey` | Controllers/HomeController.cs:75 | a null string has the empty key, which sorts before every string |
| `Listing.StringKeyOrder` | Controllers/HomeController.cs:75 | non-null strings compare as the culture orders them |
| `Listing.SortedById` | Controllers/HomeController.cs:89-91 | sorted ascending by the id key means ordered by id |
| `HomeController.Search` | Controllers/HomeController.cs:37-44 | a null or empty query keeps every note; otherwise every kept note matches the title, the plain-text content or the plain-text author name, ignoring case |
| `HomeController.SearchExact` | Controllers/HomeController.cs:37-44 | a non-empty query keeps exactly the matching notes, every copy of each (membership both ways and multiset count) |
| `HomeController.ApplySorting` | Controllers/HomeController.cs:70-95 | a permutation of the notes, sorted by the chosen column's key, descending exactly for a recognised column with `sortOrder` "desc" |
| `HomeController.ApplySortingStable` | Controllers/HomeController.cs:70-95 | notes with equal keys keep their input order |
| `HomeController.ApplySortingUnique` | Controllers/HomeController.cs:70-95 | any sorted ordering that keeps equal keys in input order is the one `ApplySorting` returns |
| `HomeController.DefaultSortsById` | Controllers/HomeController.cs:89-91 | an unrecognised or null `sortBy` sorts ascending by id and ignores `sortOrder` |
| `HomeController.CreateNoteViewModel` | Controllers/HomeController.cs:97-113 | the note's fields are copied, the title and description shortened, and the author is the account's name when `AccountId > 0` and "Unknown" otherwise |
| `HomeController.Listed` | Controllers/HomeController.cs:34-47 | searching and sorting never adds notes |
| `HomeController.Index` | Controllers/HomeController.cs:27-68 | `TotalItems` is the number of searched notes, at most `pageSize` items are shown, and the request's page, size, query and sort are echoed |
| `HomeController.IndexSlice` | Controllers/HomeController.cs:50-53 | page `page` shows the listed notes from `(page - 1)·pageSize`, at most `pageSize` of them |
| `HomeController.IndexPagesCover` | Controllers/HomeController.cs:50-59 | pages 1 to `TotalPages` show every listed note exactly once, in order |
| `AccountService.Decode` | Models/Services/AccountService.cs:38-45 | the account read from an element: `AccountId` from the child (missing: 0), and name, email and password as stored, or "" when missing, and `DateCreated` parsed from its child |
| `AccountService.GetAll` | Models/Services/AccountService.cs:32-49 | every element decoded, in document order |
| `AccountService.GetAllAppend` | Models/Services/AccountService.cs:146 | after an append, reading all accounts gives the old ones and then the new one |
| `AccountService.NextId` | Models/Services/AccountService.cs:239-252 | 1 with no accounts; below the `int` limit, larger than every `AccountId` and one more than one of them |
| `AccountService.NextIdUnused` | Models/Services/AccountService.cs:239-252 | below the `int` limit, no stored account has the next id |
| `AccountService.GetById` | Models/Services/AccountService.cs:74-89 | only `AccountId` and `Name` are filled: from the first element with that `AccountId`, or 0 and "" on a miss |
| `AccountService.GetAccountNameById` | Models/Services/AccountService.cs:91-109 | null when no element's `AccountId` text is the id; otherwise the `Name` of the first such element, null when it has none |
| `AccountService.CreatedAccountNamed` | Models/Services/AccountService.cs:91-151 | right after `CreateAsync`, the name lookup by the new id gives the user name of the trimmed email |
| `AccountService.NewElement` | Models/Services/AccountService.cs:118-144 | the created element has the next `AccountId`, no `Id` child, the user name of the trimmed email (no '@'), the HTML-encoded trimmed email and the encrypted trimmed password |
| `AccountService.CreatedAccountFound` | Models/Services/AccountService.cs:113-151 | right after `CreateAsync`, looking up the new id gives the user name of the trimmed email, and reading all accounts ends with the new one carrying the encoded email and encrypted password |
| `AccountService.UpdatedElement` | Models/Services/AccountService.cs:169-190 | ids and name kept; an existing `Email` gets the raw email and an existing `Password` the encrypted untrimmed password; `DateModified` reads `now`; the first `Roles` child is removed and no `Roles` appears |
| `AccountService.UpdateKeepsOtherChildren` | Models/Services/AccountService.cs:169-190 | every child other than `DateModified` and `Roles` is left as it was |
| `AccountService.UpdateKeepsNextId` | Models/Services/AccountService.cs:155-198 | an update keeps every `AccountId`, so the next id does not change |
| `AccountService.Authenticate` | Models/Services/AccountService.cs:303-310 | no account exactly when no stored account has this exact email and a password that decrypts to the trimmed input; otherwise the first stored account that does |
| `AccountService.LoginAfterRegister` | Models/Services/AccountService.cs:303-322 | right after registering, when nobody accepted the credentials before, the new account accepts exactly its encoded trimmed email with any password that trims to its trimmed password, and login yields its new id |
| `AccountService.DeleteMissesCreatedAccounts` | Models/Services/AccountService.cs:200-225 | on accounts written by `CreateAsync`, which have no `Id` child, `DeleteAsync` misses every id except 0, and 0 hits the first account |
| `AccountService.DeleteCounterexample` | Models/Services/AccountService.cs:210 | account 1 exists, yet `DeleteAsync(1)` finds nothing to remove |
| `AccountService.CreateThenDeleteByAccountId` | Models/Services/AccountService.cs:200-225 | keyed on `AccountId`, a delete right after a create removes exactly the new account |
| `AccountService.AccountStore.constructor` | Models/Services/AccountService.cs:16-30 | the store starts with the given elements, platform and session |
| `AccountService.AccountStore.Create` | Models/Services/AccountService.cs:113-151 | returns true and appends exactly one element, built from the account, after the unchanged old ones |
| `AccountService.AccountStore.Update` | Models/Services/AccountService.cs:155-198 | without an element with that `AccountId`, it returns false and saves nothing; otherwise only the first such element is rewritten, and it returns true |
| `AccountService.AccountStore.Delete` | Models/Services/AccountService.cs:200-225 | as written: removes the first element whose `Id` child (missing: 0) equals `id`, or returns false and changes nothing |
| `AccountService.AccountStore.DeleteByAccountId` | Models/Services/AccountService.cs:200-225 | the corrected delete: removes the first element with that `AccountId`, or returns false and changes nothing |
| `AccountService.AccountStore.HandleAuthenticate` | Models/Services/AccountService.cs:303-322 | on a match, returns the account's id and sets exactly `AccountId`, `Name` and `Email` in the session; otherwise returns 0 and leaves the session unchanged |
| `AccountService.AccountStore.SessionAccountId` | Models/Services/AccountService.cs:356-370 | the stored `AccountId`, or 0 when none is stored |
| `AccountService.AccountStore.SessionUsername` | Models/Services/AccountService.cs:372-387 | the stored `Name`, or "" when it is missing or blank |
| `AccountService.AccountStore.HandleLogout` | Models/Services/AccountService.cs:389-403 | every key is removed, one at a time, so afterwards the session is empty and both getters return their defaults |
| `NoteService.Decode` | Models/Services/NoteService.cs:48-61 | missing numbers read as 0 and missing strings as "", the content is HTML-decoded, and the author's `AccountId` equals the note's |
| `NoteService.GetAll` | Models/Services/NoteService.cs:42-65 | every element decoded, in document order |
| `NoteService.GetAllConcat` | Models/Services/NoteService.cs:42-65 | reading two runs of elements is reading each and joining the results |
| `NoteService.NextId` | Models/Services/NoteService.cs:266-276 | 1 with no notes; below the `int` limit, larger than every `Id` and one more than one of them |
| `NoteService.NextIdUnused` | Models/Services/NoteService.cs:266-276 | below the `int` limit, no stored note has the next id |
| `NoteService.FirstOrDefault` | Models/Services/NoteService.cs:71-91 | the note decoded from the first matching element, or from an empty element when none matches |
| `NoteService.MissIsDefaultNote` | Models/Services/NoteService.cs:75-91 | a miss is never null: it is the note with id 0, empty strings, author 0 and minimal dates |
| `NoteService.GetById` | Models/Services/NoteService.cs:67-92 | a hit returns a note with the id; a miss returns id 0 and an empty title |
| `NoteService.GetBySlug` | Models/Services/NoteService.cs:126-151 | a hit returns a note with exactly that slug; a miss returns id 0 and an empty slug |
| `NoteService.GetByAccountId` | Models/Services/NoteService.cs:94-124 | every returned note is by the given author, and there are no more notes than elements |
| `NoteService.GetByAccountIdIsFilter` | Models/Services/NoteService.cs:94-124 | the result is exactly the stored notes by that author, in document order (empty when none match) |
| `NoteService.NewElement` | Models/Services/NoteService.cs:163-183 | the created element has the next id, a well-formed slug, the session's account id in both places and `now` as both dates |
| `NoteService.CreatedNoteFound` | Models/Services/NoteService.cs:155-190 | looking up the new id right after `CreateAsync` finds the note with its trimmed title, its slug, the decoded encoded trimmed content and the session's author |
| `NoteService.UpdatedElement` | Models/Services/NoteService.cs:206-218 | id and creation date kept; existing children get the trimmed title, its slug, the decoded trimmed content, `now` and the note's author; missing ones stay missing |
| `NoteService.Overwrite` | Models/Services/NoteService.cs:208-212 | `Element(name)?.SetValue(v)`: a missing child stays missing, an existing one reads `v` |
| `NoteService.UpdatedNoteFound` | Models/Services/NoteService.cs:194-225 | reading an updated note back by id gives the trimmed title, its slug, the twice-decoded trimmed content, the note's `AccountId` and the author name |
| `NoteService.UpdateKeepsIds` | Models/Services/NoteService.cs:194-225 | an update keeps every id, so the next id and every lookup by id are as before |
| `NoteService.IdReusedAfterDelete` | Models/Services/NoteService.cs:244-276 | deleting the note just created and creating another gives the new note the same id |
| `NoteService.NoteStore.constructor` | Models/Services/NoteService.cs:25-40 | the store starts with the given elements, platform and account store |
| `NoteService.NoteStore.Create` | Models/Services/NoteService.cs:155-190 | returns true and appends exactly one element, authored by the logged-in account, after the unchanged old ones |
| `NoteService.NoteStore.Update` | Models/Services/NoteService.cs:194-225 | without an element with the note's id, it returns false and saves nothing; otherwise only the first such element is rewritten, and it returns true |
| `NoteService.NoteStore.Delete` | Models/Services/NoteService.cs:227-252 | removes the first element with that id and returns true, or returns false and changes nothing |
| `NoteController.Search` | Controllers/NoteController.cs:44-50 | a null or empty query keeps every note; otherwise every kept note matches the title or the raw content, ignoring case (the author is not searched) |
| `NoteController.SearchExact` | Controllers/NoteController.cs:44-50 | a non-empty query keeps exactly the matching notes, every copy of each |
| `NoteController.Column` | Controllers/NoteController.cs:53-70 | "author" is not a column here: it falls to the id default |
| `NoteController.Sort` | Controllers/NoteController.cs:53-70 | a permutation of the notes, sorted by the column's key, descending exactly for a recognised column with "desc" |
| `NoteController.SortStable` | Controllers/NoteController.cs:53-70 | notes with equal keys keep their input order |
| `NoteController.AuthorSortsById` | Controllers/NoteController.cs:53-70 | sorting by "author" is the default order, ascending by id, whatever `sortOrder` says |
| `NoteController.IndexViewModel` | Controllers/NoteController.cs:76-89 | the note's fields, its shortened title and description, no account, and the author "Test" |
| `NoteController.Listed` | Controllers/NoteController.cs:33-70 | searching and sorting never adds notes |
| `NoteController.Index` | Controllers/NoteController.cs:26-105 | `TotalItems` is the number of searched notes, at most `pageSize` items (default 9) are shown, every one with the author "Test", and the request is echoed |
| `NoteController.IndexSlice` | Controllers/NoteController.cs:73-90 | page `page` shows the listed notes from `(page - 1)·pageSize`, at most `pageSize` of them |
| `NoteController.IndexPagesCover` | Controllers/NoteController.cs:73-90 | pages 1 to `TotalPages` show every listed note exactly once, in order |
| `NoteController.Details` | Controllers/NoteController.cs:107-126 | the view is always shown, because the lookup never returns null; a stored id shows its note |
| `NoteController.UpdateForm` | Controllers/NoteController.cs:207-235 | the view is always shown, with the found note's id, title, content and author |
| `NoteController.DeleteForm` | Controllers/NoteController.cs:278-301 | the view is always shown, with the found note's id, title, content and dates |
| `NoteController.CreatedNote` | Controllers/NoteController.cs:191-199 | the note handed to the store carries only the form's title, content and `AccountId` |
| `NoteController.UpdatedNote` | Controllers/NoteController.cs:250-262 | the note handed to the store carries the form's id, title, content and `AccountId`, and an author with that id (null: 0) and the form's author name (null: "") |
| `NoteController.NoteController.constructor` | Controllers/NoteController.cs:18-24 | the controller uses the given note store |
| `NoteController.NoteController.CreateForm` | Controllers/NoteController.cs:128-143 | an empty form carrying the logged-in account's id and, as author, that account's stored name |
| `NoteController.NoteController.CreatePost` | Controllers/NoteController.cs:147-205 | a title equal to a stored one, ignoring case, or an invalid form shows the form again and stores nothing; otherwise exactly one note is appended and the listing shown |
| `NoteController.NoteController.UpdatePost` | Controllers/NoteController.cs:239-275 | a route id other than the form's is NotFound with nothing stored; an invalid form is shown again; a valid one rewrites the first note with that id, or is NotFound when there is none |
| `NoteController.NoteController.DeletePost` | Controllers/NoteController.cs:305-319 | NotFound, with nothing changed, exactly when no note has the id; otherwise that note is removed and the listing shown |
| `AccountController.Registered` | Controllers/AccountController.cs:179-182 | the account handed to the store carries only the form's email and its untrimmed password |
| `AccountController.AppendFreshEmail` | Controllers/AccountController.cs:154-166 | appending an account whose email nobody has keeps emails distinct |
| `AccountController.StoredEmailCheckKeepsDistinct` | Controllers/AccountController.cs:154-166 | when the check compares the form the store will write, registration keeps stored emails distinct |
| `AccountController.DuplicateEmailSlipsThrough` | Controllers/AccountController.cs:154-166 | as written: registering " a@b.c" after "a@b.c" passes the raw check, the corrected check catches it, and the store then holds the email twice |
| `AccountController.SameStoredEmail` | Controllers/AccountController.cs:154-166 | whenever the form email differs from a stored one but trims to it, the raw check misses, the corrected check hits, and the email ends up stored twice |
| `AccountController.AccountController.constructor` | Controllers/AccountController.cs:17-22 | the controller uses the given account store |
| `AccountController.AccountController.LoginForm` | Controllers/AccountController.cs:34-56 | the user is sent home exactly when there is no `Referer` and the session holds a positive account id; otherwise the form is shown |
| `AccountController.AccountController.LoginPost` | Controllers/AccountController.cs:60-94 | only a valid form with non-empty email and password is authenticated; the session changes only when an account is found, and the user is sent home exactly when its id is positive |
| `AccountController.AccountController.Logout` | Controllers/AccountController.cs:127-133 | the session is emptied, so no account id is left, before the redirect home |
| `AccountController.AccountController.RegisterPost` | Controllers/AccountController.cs:148-187 | an invalid form, an exactly matching stored email, or two non-blank passwords that differ after trimming show the form and store nothing; otherwise exactly one account is appended |
| `AccountController.AccountController.RegisterPostChecked` | Controllers/AccountController.cs:148-187 | the corrected `Register`: the same outcomes with the duplicate check made against the trimmed, encoded email, and stored emails that were distinct stay distinct |
| `AuthorizationNeeded.ActionExecutingContext.constructor` | Models/Attributes/AuthorizationNeeded.cs:11 | a request context starts with no result |
| `AuthorizationNeeded.OnActionExecuting` | Models/Attributes/AuthorizationNeeded.cs:11-24 | the request is redirected to `Account/Login`, and the base handler not reached, exactly when the session has no `AccountId` and the action is not exempt; otherwise the result is untouched |
| `AuthorizationNeeded.StoredIdPasses` | Models/Attributes/AuthorizationNeeded.cs:15 | any stored `AccountId`, 0 and negative ids included, lets the request through |
| `AuthorizationNeeded.EmptySessionIsGated` | Models/Attributes/AuthorizationNeeded.cs:26-37 | with an empty session exactly the non-exempt actions are gated, and an action that is not a controller action always is |

## Left out

- Files, the XML text format and async code are not modelled. Each store method starts from the
  sequence of root elements and leaves the sequence it would save.
- Concurrency is not modelled. The services are unsynchronised singletons, so lost updates between
  requests are out of scope.
- The cipher, HTML encoding and decoding, and date parsing are opaque `Platform` functions. Nothing
  is claimed about them beyond the cipher round-trip where a lemma states it. In particular, HTML
  encoding and decoding are not claimed to round-trip.
- `DateTime.Now` is the `now` parameter of the update and create operations. Stored dates are text,
  so nothing is claimed about them increasing.
- Culture-aware ordering is an opaque sort key per string, compared lexicographically. Char
  lower-casing is ASCII only.
- `Convert.ToInt32` on malformed text throws. A numeric child is held as the number it spells, so
  malformed text cannot be represented.
- The reflective copy of the other `Account` properties in `CreateAsync` is the `copied` parameter.
  The `Account` class itself (Account.cs) is not part of this model.
- Model state is the `modelValid` parameter. View data, `ViewBag`, alerts and the view models'
  display attributes are not modelled.
- `NoteService.NoteStore.Update`: requires a non-null `AccountId`. The code writes "" into the
  `AccountId` child for a null one, and later reads of that child throw.
- `NoteController.NoteController.UpdatePost`: requires a non-null `AccountId` for a valid form, for
  the same reason.
- `NoteService.UpdatedElement`: requires a non-null `AccountId`, for the same reason.
- `Paging.Page.TotalPages`: requires a non-zero page size. The code's `double` division by zero,
  and the cast of infinity or NaN to `int`, are not modelled.
- `HomeController.Index` and `NoteController.Index`: require at most `MaxInt32` notes, so that the
  count fits `TotalItems`.
- `Paging.PageNumbered`: a page number no `int` can hold shows nothing.
- The session is a map of typed values. Its byte encoding is not modelled. ASP.NET's `GetInt32`
  reads any stored value of four or more bytes as an int, so a string stored under `AccountId`
  would pass the `AuthorizationNeeded` gate; in the model only an int does.
- `AccountService.GetAccountNameById`: the source compares the `AccountId` text with
  `id.ToString()`. The model holds a numeric child as its number, so it also matches non-canonical
  numerals such as "07" or " 7", which the source does not.
- `Listing.ShortTitle`, `Listing.Description` and `DataHelper.GetShortText`: .NET `Length` and
  `Substring` count UTF-16 code units, the model counts characters. A title of characters outside
  the Basic Multilingual Plane is shortened at a different point, and `Substring` can split a
  surrogate pair, which the model cannot.
- `Text.IndexOf` and `DataHelper.GetUsernameFromEmail`: the source calls the culture-sensitive
  `IndexOf(string)`; the model searches ordinally for the character '@'.
- `AccountController.Index`, the Register GET action and the unused `GetBySlugAsync` of the
  account service are not modelled. The first two only show a view or redirect home; the third
  throws.
- The base `OnActionExecuting` does nothing. It is modelled only as the returned `baseInvoked` flag.
- The unused serialisation helpers of the account service and all commented-out code are not
  modelled.
- `ErrorController`, the e-mail template and sender, and the start-up code are not modelled.

## Findings

| source | as written | input that shows it | evidently intended | confidence | as-written member | corrected member |
|---|---|---|---|---|---|---|
| Models/Services/AccountService.cs:210 | `DeleteAsync` looks for an `Id` child, which `CreateAsync` never writes (it writes `AccountId`, line 128) | a store with account 1 only, then `DeleteAsync(1)`: nothing is found and the method returns false | delete the account whose `AccountId` is `id`, as every other account operation keys on it | not executed | `AccountService.AccountStore.Delete`, `AccountService.DeleteCounterexample` | `AccountService.AccountStore.DeleteByAccountId`, `AccountService.CreateThenDeleteByAccountId` |
| Controllers/AccountController.cs:160 | the duplicate-email check compares the raw form email with the stored emails, which are trimmed and HTML-encoded | register "a@b.c", then " a@b.c": the check passes and both accounts store "a@b.c" | reject an email that the store would write in the same form as an existing one | not executed | `AccountController.DuplicateEmailSlipsThrough`, `AccountController.SameStoredEmail` | `AccountController.AccountController.RegisterPostChecked`, `AccountController.StoredEmailCheckKeepsDistinct` |
