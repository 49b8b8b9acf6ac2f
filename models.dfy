/** The records the services return and the controllers pass around. */
module Models {
  import opened Base
  import opened Runtime

  /** `Account`, with the properties the services read and write. */
  datatype Account = Account(
    accountId: Int32,
    name: Option<string>,
    email: Option<string>,
    password: Option<string>,
    dateCreated: Ticks)

  /** `new Account { ... }` before any property is set. */
  const DefaultAccount: Account := Account(0, None, None, None, 0)

  /** `Note` */
  datatype Note = Note(
    id: Int32,
    slug: Option<string>,
    title: Option<string>,
    content: Option<string>,
    dateCreated: Ticks,
    dateModified: Ticks,
    description: Option<string>,
    shortTitle: Option<string>,
    accountId: Option<Int32>,
    account: Option<Account>)

  const DefaultNote: Note := Note(0, None, None, None, 0, 0, None, None, None, None)

  /** `NoteViewModel` */
  datatype NoteViewModel = NoteViewModel(
    id: Int32,
    slug: Option<string>,
    title: Option<string>,
    content: Option<string>,
    dateCreated: Ticks,
    dateModified: Ticks,
    description: Option<string>,
    shortTitle: Option<string>,
    accountId: Option<Int32>,
    account: Option<Account>,
    author: Option<string>)

  /** The fields of `AccountViewModel` that registration reads. */
  datatype AccountViewModel = AccountViewModel(
    email: Option<string>,
    password: Option<string>,
    passwordConfirm: Option<string>)

  /** What an action returns: a view, a redirect to `controller`/`action`, or 404. */
  datatype ActionResult = ShowView | Redirect(action: string, controller: string) | NotFound
}
