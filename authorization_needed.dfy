/**
 * The `AuthorizationNeeded` action filter: before an action of a marked controller runs, a
 * request whose session holds no `AccountId` is sent to the login page, unless the action itself
 * carries `AuthorizationNotNeeded`.
 */
module AuthorizationNeeded {
  import opened Base
  import opened Models
  import opened HttpSession

  /** The attribute type that exempts an action. */
  const NotNeeded: string := "AuthorizationNotNeeded"

  /**
   * `context.ActionDescriptor`: a controller action, with the type names of the custom attributes
   * on its method (inherited ones included), or any other kind of descriptor.
   */
  datatype ActionDescriptor = ControllerAction(attributes: seq<string>) | OtherAction

  /** `IsAuthorizationNotNeeded`: only a controller action can be exempt, by carrying the attribute. */
  predicate IsAuthorizationNotNeeded(d: ActionDescriptor) {
    d.ControllerAction? && exists i :: 0 <= i < |d.attributes| && d.attributes[i] == NotNeeded
  }

  /** `ActionExecutingContext`: the request's session, the action, and the result a filter may set. */
  class ActionExecutingContext {
    const session: Session
    const descriptor: ActionDescriptor
    var result: Option<ActionResult>

    constructor(session: Session, descriptor: ActionDescriptor)
      ensures this.session == session && this.descriptor == descriptor && result == None
    {
      this.session := session;
      this.descriptor := descriptor;
      result := None;
    }

    /** The filter turns this request away. */
    predicate Gated()
      reads this, session
    {
      session.GetInt32("AccountId") == None && !IsAuthorizationNotNeeded(descriptor)
    }
  }

  /**
   * `OnActionExecuting`: a gated request gets the redirect to `Account/Login` as its result and
   * returns before the base handler; any other request is handed to the base handler, which
   * changes nothing. The session is only read.
   */
  method OnActionExecuting(ctx: ActionExecutingContext) returns (baseInvoked: bool)
    modifies ctx
    ensures baseInvoked <==> !old(ctx.Gated())
    ensures old(ctx.Gated()) ==> ctx.result == Some(Redirect("Login", "Account"))
    ensures !old(ctx.Gated()) ==> ctx.result == old(ctx.result)
  {
    var accountId := ctx.session.GetInt32("AccountId");
    if accountId == None && !IsAuthorizationNotNeeded(ctx.descriptor) {
      ctx.result := Some(Redirect("Login", "Account"));
      return false;
    }
    return true;
  }

  /** Any stored `AccountId` lets the request through, 0 and negative ids included. */
  lemma StoredIdPasses(ctx: ActionExecutingContext, id: Int32)
    requires "AccountId" in ctx.session.entries && ctx.session.entries["AccountId"] == IntValue(id)
    ensures !ctx.Gated()
  {
  }

  /** After logout (an empty session) exactly the non-exempt actions are gated; other descriptors always. */
  lemma EmptySessionIsGated(ctx: ActionExecutingContext)
    requires ctx.session.entries == map[]
    ensures ctx.Gated() <==> !IsAuthorizationNotNeeded(ctx.descriptor)
    ensures ctx.descriptor == OtherAction ==> ctx.Gated()
  {
  }
}
