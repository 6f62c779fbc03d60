/**
 * Request authentication and the role gate: a session token resolves through
 * the session table to an active user, and a user passes the gate when their
 * role is one of the roles an endpoint allows. Nothing here changes a table.
 */
module Deps {
  import opened Wrappers
  import opened Models

  /** An HTTP error response: status code and detail message. */
  datatype Failure = Failure(status: int, detail: string)

  /** The first session row carrying `token`. */
  function FindSession(sessions: seq<Session>, token: string): Option<nat>
  {
    FindFirst(sessions, (s: Session) => s.token == token)
  }

  /** The first user row with id `id` that is active. */
  function FindActiveUser(users: seq<User>, id: int): Option<nat>
  {
    FindFirst(users, (u: User) => u.id == id && u.isActive)
  }

  /**
   * `get_current_user`: a missing or empty cookie, a token without a session
   * row, and a session whose user is missing or inactive each fail with 401.
   */
  function CurrentUser(token: Option<string>, sessions: seq<Session>, users: seq<User>)
    : (r: Result<User, Failure>)
    ensures r.Err? ==> r.error.status == 401
    ensures token.None? || token == Some("") ==> r.Err?
    ensures r.Ok? ==> token.Some? && r.value.isActive && r.value in users
    ensures r.Ok? ==>
      exists i :: 0 <= i < |sessions| && sessions[i].token == token.value && sessions[i].userId == r.value.id
  {
    if token.None? || token.value == "" then Err(Failure(401, "Not authenticated"))
    else match FindSession(sessions, token.value)
      case None => Err(Failure(401, "Invalid session"))
      case Some(i) =>
        match FindActiveUser(users, sessions[i].userId)
        case None => Err(Failure(401, "User not active"))
        case Some(j) => Ok(users[j])
  }

  /** The session row of `token` names an active user. */
  predicate TokenNamesActiveUser(t: string, sessions: seq<Session>, users: seq<User>)
  {
    exists i, j :: 0 <= i < |sessions| && 0 <= j < |users| &&
      sessions[i].token == t && users[j].id == sessions[i].userId && users[j].isActive
  }

  /**
   * With session tokens unique, as the schema demands, a token authenticates
   * exactly when it is non-empty and its session names an active user.
   */
  lemma CurrentUserSucceedsIff(token: Option<string>, sessions: seq<Session>, users: seq<User>)
    requires DistinctBy(sessions, SessionToken)
    ensures CurrentUser(token, sessions, users).Ok? <==>
      token.Some? && token.value != "" && TokenNamesActiveUser(token.value, sessions, users)
  {
    if token.Some? && token.value != "" && TokenNamesActiveUser(token.value, sessions, users) {
      var t := token.value;
      var i, j :| 0 <= i < |sessions| && 0 <= j < |users| &&
        sessions[i].token == t && users[j].id == sessions[i].userId && users[j].isActive;
      var s := FindSession(sessions, t);
      assert s.Some?;
      DistinctKeyIndex(sessions, SessionToken, s.value, i);
    }
  }

  /**
   * Deactivating a user revokes their live sessions: once no active row has
   * the user's id, none of the user's tokens authenticates.
   */
  lemma InactiveUserRejected(t: string, sessions: seq<Session>, users: seq<User>, u: int)
    requires DistinctBy(sessions, SessionToken)
    requires exists i :: 0 <= i < |sessions| && sessions[i].token == t && sessions[i].userId == u
    requires forall j :: 0 <= j < |users| && users[j].id == u ==> !users[j].isActive
    ensures CurrentUser(Some(t), sessions, users).Err?
  {
    CurrentUserSucceedsIff(Some(t), sessions, users);
    var i0 :| 0 <= i0 < |sessions| && sessions[i0].token == t && sessions[i0].userId == u;
    forall i, j | 0 <= i < |sessions| && 0 <= j < |users| &&
      sessions[i].token == t && users[j].id == sessions[i].userId
      ensures !users[j].isActive
    {
      DistinctKeyIndex(sessions, SessionToken, i, i0);
    }
  }

  /** `require_role`: 403 exactly when the user's role is not among the allowed ones. */
  function RequireRole(user: User, allowed: set<string>): (r: Outcome<Failure>)
    ensures r.Fail? <==> user.role !in allowed
    ensures r.Fail? ==> r.error.status == 403
  {
    if user.role !in allowed then Fail(Failure(403, "Forbidden")) else Pass
  }

  /** Allowing more roles never turns a pass into a failure. */
  lemma RequireRoleMonotone(user: User, allowed: set<string>, more: set<string>)
    requires allowed <= more
    requires RequireRole(user, allowed).Pass?
    ensures RequireRole(user, more).Pass?
  {
  }

  /**
   * The two calls that open every protected handler: `get_current_user`
   * followed by `require_role`.
   */
  function Authorize(token: Option<string>, sessions: seq<Session>, users: seq<User>,
                     allowed: set<string>): (r: Result<User, Failure>)
    ensures r.Ok? ==> r.value.role in allowed && r.value.isActive && r.value in users
    ensures r.Err? ==> r.error.status == 401 || r.error.status == 403
    ensures (r.Err? && r.error.status == 401) <==> CurrentUser(token, sessions, users).Err?
    ensures r.Ok? ==> r == CurrentUser(token, sessions, users)
    ensures var cu := CurrentUser(token, sessions, users);
      r.Ok? <==> cu.Ok? && cu.value.role in allowed
    ensures var cu := CurrentUser(token, sessions, users);
      (r.Err? && r.error.status == 403) <==> cu.Ok? && cu.value.role !in allowed
  {
    match CurrentUser(token, sessions, users)
    case Err(e) => Err(e)
    case Ok(user) =>
      match RequireRole(user, allowed)
      case Fail(e) => Err(e)
      case Pass => Ok(user)
  }

  /** A user admitted for some roles is admitted, as the same user, for any superset. */
  lemma AuthorizeMonotone(token: Option<string>, sessions: seq<Session>, users: seq<User>,
                          allowed: set<string>, more: set<string>)
    requires allowed <= more
    requires Authorize(token, sessions, users, allowed).Ok?
    ensures Authorize(token, sessions, users, more) == Authorize(token, sessions, users, allowed)
  {
  }
}
