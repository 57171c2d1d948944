/** The result shape and the authorisation wrapper of the provider's
    server actions: every action answers with success and data or with an
    error code and message; the wrapper checks the session first and turns
    whatever is thrown into a classified error. */
module ActionUtils {
  import opened Common

  datatype ActionErrorCode = Unauthorized | Forbidden | NotFound | ValidationError | InternalError

  datatype ActionError = ActionError(code: ActionErrorCode, message: string)

  datatype ActionResult<T> = Success(data: T) | Failure(error: ActionError)

  /** A user's role; Owner and Admin are the ones the helpers name. */
  datatype UserRole = Owner | Admin | OtherRole(name: string)

  datatype User = User(identity: string, role: UserRole)

  /** What a call can throw: an `Error` with its message, or anything else. */
  datatype Thrown = ErrorWithMessage(message: string) | NonError

  /** How a call ends: it returns a value or throws. */
  datatype Completion<T> = Returned(value: T) | Threw(thrown: Thrown)

  function Succeed<T>(data: T): (r: ActionResult<T>)
    ensures r.Success? && r.data == data
  {
    Success(data)
  }

  function Fail<T>(code: ActionErrorCode, message: string): (r: ActionResult<T>)
    ensures r.Failure? && r.error.code == code && r.error.message == message
  {
    Failure(ActionError(code, message))
  }

  /** `requireAuth`: `session` is the signed-in user, if any. */
  function RequireAuth(session: Option<User>): (r: ActionResult<User>)
    ensures r.Success? <==> session.Some?
    ensures r.Success? ==> r.data == session.value
    ensures r.Failure? ==> r.error.code == Unauthorized
  {
    if session.None? then Fail(Unauthorized, "You must be logged in to perform this action")
    else Succeed(session.value)
  }

  /** `requireRole`. */
  function RequireRole(session: Option<User>, allowedRoles: seq<UserRole>): (r: ActionResult<User>)
    ensures session.None? ==> r.Failure? && r.error.code == Unauthorized
    ensures session.Some? && session.value.role !in allowedRoles ==> r.Failure? && r.error.code == Forbidden
    ensures r.Success? <==> session.Some? && session.value.role in allowedRoles
    ensures r.Success? ==> r.data == session.value
  {
    var auth := RequireAuth(session);
    if auth.Failure? then auth
    else if auth.data.role !in allowedRoles then Fail(Forbidden, "You do not have permission to perform this action")
    else Succeed(auth.data)
  }

  function RequireOwner(session: Option<User>): (r: ActionResult<User>)
    ensures r.Success? <==> session.Some? && session.value.role == Owner
  {
    RequireRole(session, [Owner])
  }

  function RequireOwnerOrAdmin(session: Option<User>): (r: ActionResult<User>)
    ensures r.Success? <==> session.Some? && (session.value.role == Owner || session.value.role == Admin)
  {
    RequireRole(session, [Owner, Admin])
  }

  /** `s.includes(part)`. */
  predicate Contains(s: string, part: string)
  {
    |part| <= |s| && (s[..|part|] == part || Contains(s[1..], part))
  }

  /** The error a thrown value becomes, checked in this order: an exact
      sign-in message, then a message mentioning validation, then any other
      message; a thrown non-error gets a generic message. */
  function Classify<T>(thrown: Thrown): (r: ActionResult<T>)
    ensures r.Failure?
    ensures thrown.NonError? ==> r.error == ActionError(InternalError, "An unexpected error occurred")
    ensures thrown.ErrorWithMessage? ==> r.error.message == thrown.message
    ensures thrown.ErrorWithMessage? ==>
              (r.error.code == Unauthorized <==> thrown.message == "Unauthorized" || thrown.message == "Not logged in")
    ensures thrown.ErrorWithMessage? ==>
              (r.error.code == ValidationError <==>
                 thrown.message != "Unauthorized" && thrown.message != "Not logged in"
                 && (Contains(thrown.message, "validation") || Contains(thrown.message, "Invalid")))
    ensures r.error.code in {Unauthorized, ValidationError, InternalError}
  {
    match thrown
    case NonError => Fail(InternalError, "An unexpected error occurred")
    case ErrorWithMessage(m) =>
      if m == "Unauthorized" || m == "Not logged in" then Fail(Unauthorized, m)
      else if Contains(m, "validation") || Contains(m, "Invalid") then Fail(ValidationError, m)
      else Fail(InternalError, m)
  }

  /** `withAuth`: `authCheck` is how the check ended, `action` how the
      action ends for a user. */
  function WithAuth<T>(authCheck: Completion<ActionResult<User>>, action: User -> Completion<T>): (r: ActionResult<T>)
    // a failed check is passed on as it is
    ensures authCheck.Returned? && authCheck.value.Failure? ==> r == Failure(authCheck.value.error)
    // a passed check runs the action; its value is wrapped in success, a throw is classified
    ensures authCheck.Returned? && authCheck.value.Success? ==>
              r == match action(authCheck.value.data) case Returned(v) => Succeed(v) case Threw(t) => Classify(t)
    // a check that throws is classified like a throwing action
    ensures authCheck.Threw? ==> r == Classify(authCheck.thrown)
  {
    match authCheck
    case Threw(t) => Classify(t)
    case Returned(auth) =>
      if auth.Failure? then Failure(auth.error)
      else
        match action(auth.data)
        case Returned(v) => Succeed(v)
        case Threw(t) => Classify(t)
  }

  /** When the check fails the action does not matter: it is never run. */
  lemma FailedCheckSkipsAction<T>(authCheck: Completion<ActionResult<User>>, a1: User -> Completion<T>, a2: User -> Completion<T>)
    requires authCheck.Returned? && authCheck.value.Failure?
    ensures WithAuth(authCheck, a1) == WithAuth(authCheck, a2)
  {
  }

  /** The owner-only wrapper fails with Forbidden for a signed-in admin,
      and the owner-or-admin wrapper runs the action for them. */
  lemma AdminIsNoOwner<T>(admin: User, action: User -> Completion<T>)
    requires admin.role == Admin
    ensures WithAuth(Returned(RequireOwner(Some(admin))), action).Failure?
    ensures WithAuth(Returned(RequireOwner(Some(admin))), action).error.code == Forbidden
    ensures RequireOwnerOrAdmin(Some(admin)) == Success(admin)
  {
  }
}
