/** Session cookies and the authentication guard every route calls first
    (src/lib/auth.js). The cookie store, the random token generator and the
    user table are inputs: the token is an opaque string, the user table a map,
    and a failing user lookup a flag. */
module Auth {
  import opened Common
  import opened Text
  import opened ApiErrors

  const SessionCookieName: string := "erp_session"

  /** Seven days, in seconds. */
  const SessionMaxAge: int := 60 * 60 * 24 * 7

  datatype User = User(id: Id, name: string, email: string, role: string)

  /** The options `createSession` sets the cookie with. */
  datatype CookieSetting = CookieSetting(
    name: string, value: string, httpOnly: bool, secure: bool,
    sameSite: string, maxAge: int, path: string)

  /** The cookie value: the user id, a colon, then the token. */
  function CookieValue(userId: Id, token: string): string {
    userId + ":" + token
  }

  /** `createSession(userId)` with the fresh token and the deployment mode as inputs. */
  function CreateSession(userId: Id, token: string, production: bool): (c: CookieSetting)
    ensures c.name == SessionCookieName && c.value == CookieValue(userId, token)
    ensures c.httpOnly && c.secure == production && c.sameSite == "lax" && c.path == "/"
    ensures c.maxAge == 604800
  {
    CookieSetting(SessionCookieName, CookieValue(userId, token), true, production, "lax", SessionMaxAge, "/")
  }

  /** `const [userId] = value.split(':')`. */
  function CookieUserId(value: string): Id {
    FirstField(value, ':')
  }

  /** Reading a cookie back recovers the user id exactly when the id has no colon. */
  lemma CookieRoundTrip(userId: Id, token: string)
    ensures CookieUserId(CookieValue(userId, token)) == userId <==> ':' !in userId
  {
    FirstFieldOfJoin(userId, ':', token);
  }

  /** The token is never looked at: two cookies for the same user id read the same. */
  lemma TokenIgnored(userId: Id, t1: string, t2: string)
    ensures CookieUserId(CookieValue(userId, t1)) == CookieUserId(CookieValue(userId, t2))
  {
    FirstFieldIgnoresTail(userId, ':', t1, t2);
  }

  /** `getSession()`: no cookie or an empty one is no session; otherwise the user
      whose id is the cookie's first field, and no session when the lookup fails
      or finds nobody. */
  function GetSession(cookie: Option<string>, users: map<Id, User>, lookupFails: bool): (r: Option<User>)
    ensures r.Some? <==> cookie.Some? && cookie.value != "" && !lookupFails && CookieUserId(cookie.value) in users
    ensures r.Some? ==> r.value == users[CookieUserId(cookie.value)]
  {
    if cookie.None? || cookie.value == "" then None
    else
      var userId := CookieUserId(cookie.value);
      if lookupFails then None
      else if userId in users then Some(users[userId]) else None
  }

  /** The cookie `createSession` sets identifies its user again, whatever the token. */
  lemma SessionRoundTrip(userId: Id, token: string, production: bool, users: map<Id, User>)
    requires ':' !in userId && userId in users
    ensures GetSession(Some(CreateSession(userId, token, production).value), users, false) == Some(users[userId])
  {
    CookieRoundTrip(userId, token);
  }

  /** `requireAuth()`: the session, or a thrown plain `Error('Unauthorized')`. */
  function RequireAuth(session: Option<User>): (r: Result<User, Thrown>)
    ensures r.Success? <==> session.Some?
    ensures r.Success? ==> r.value == session.value
    ensures r.Failure? ==> r.error == OtherError("Unauthorized", None)
  {
    if session.None? then Failure(OtherError("Unauthorized", None)) else Success(session.value)
  }

  /** The error requireAuth throws is not an ApiError and has no store code, so the
      shared handler answers 500 "Internal server error", not 401. */
  lemma UnauthorizedIsInternalError<T>()
    ensures HandleApiError<T>(RequireAuth(None).error) == Response(500, ErrorBody("Internal server error"))
  {
  }
}
