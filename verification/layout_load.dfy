/**
 * The root layout's `load`: it reads the session and the user from the provider
 * client and derives the roles from the session's token with its own copy of
 * the role-claim extractor. Unlike the server hook it does not fail closed.
 */
module LayoutLoad {
  import opened Wrappers
  import opened JsText
  import opened AuthProvider
  import opened JwtRoles
  import Hooks

  /** What `load` returns, without the client handle. */
  datatype LayoutData = LayoutData(session: Option<Session>, user: Option<User>, roles: seq<RoleClaim>)

  /** The session's `access_token`, `undefined` when there is no session (`session?.access_token`). */
  function TokenOf(session: Option<Session>): Option<string>
  {
    if session.Some? then session.value.accessToken else None
  }

  /**
   * `load` given the client's answers to `getSession()` and `getUser()`. The
   * error of `getUser()` is never looked at.
   */
  function Load(rt: Runtime, session: Option<Session>, userResponse: UserResponse): (d: LayoutData)
    ensures d.session == session && d.user == userResponse.user
    ensures d.roles == ParseUserRolesFromJWT(rt, TokenOf(session))
    ensures TokenOf(session).None? || TokenOf(session) == Some("") ==> d.roles == []
  {
    var token := TokenOf(session);
    var roles := if token.Some? && token.value != "" then ParseUserRolesFromJWT(rt, token) else [];
    LayoutData(session, userResponse.user, roles)
  }

  /** The roles depend on the access token alone. */
  lemma RolesDependOnlyOnToken(rt: Runtime, s1: Option<Session>, r1: UserResponse,
                               s2: Option<Session>, r2: UserResponse)
    requires TokenOf(s1) == TokenOf(s2)
    ensures Load(rt, s1, r1).roles == Load(rt, s2, r2).roles
  {
  }

  /** A token that does not split into three parts gives no roles. */
  lemma MalformedTokenGivesNoRoles(rt: Runtime, session: Session, userResponse: UserResponse)
    requires session.accessToken.Some? && |Split(session.accessToken.value, '.')| != 3
    ensures Load(rt, Some(session), userResponse).roles == []
  {
  }

  /**
   * The contrast with the server hook: when `getUser()` reports an error, the hook
   * drops everything, while the layout still returns the session, the user answer
   * and the roles read from the unvalidated token.
   */
  lemma LayoutDoesNotFailClosed(rt: Runtime, session: Session, userResponse: UserResponse)
    requires userResponse.error.Some?
    ensures Hooks.SafeGetSession(rt, Some(session), userResponse) == Hooks.Unauthenticated
    ensures Load(rt, Some(session), userResponse) ==
      LayoutData(Some(session), userResponse.user, ParseUserRolesFromJWT(rt, session.accessToken))
  {
  }

  /** When the token is validated, layout and hook agree on session, user and roles. */
  lemma LayoutAgreesWithHookOnValidSession(rt: Runtime, session: Session, userResponse: UserResponse)
    requires userResponse.error.None?
    ensures var ctx := Hooks.SafeGetSession(rt, Some(session), userResponse);
      var d := Load(rt, Some(session), userResponse);
      ctx.session == d.session && ctx.user == d.user && ctx.roles == d.roles
  {
  }
}
