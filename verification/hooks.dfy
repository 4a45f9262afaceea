/**
 * The server hook: the fail-closed session resolver installed as
 * `locals.safeGetSession`, the cookie writer handed to the provider client,
 * the switch that silences the client's `getSession` warning, and the filter
 * of response headers passed through to the browser.
 */
module Hooks {
  import opened Wrappers
  import opened AuthProvider
  import opened JwtRoles

  /** What `safeGetSession()` resolves to. */
  datatype AuthContext = AuthContext(session: Option<Session>, user: Option<User>, roles: seq<RoleClaim>)

  const Unauthenticated: AuthContext := AuthContext(None, None, [])

  /**
   * `safeGetSession()` given the provider's answers: `session` is what
   * `getSession()` returned, `userResponse` what `getUser()` returned (only asked
   * when there is a session). The token's roles are trusted only once `getUser()`
   * has validated it.
   */
  function SafeGetSession(rt: Runtime, session: Option<Session>, userResponse: UserResponse): (ctx: AuthContext)
    ensures session.None? ==> ctx == Unauthenticated
    ensures ctx.session.Some? <==> session.Some? && userResponse.error.None?
    ensures ctx.session.None? ==> ctx == Unauthenticated
    ensures ctx.session.Some? ==>
      ctx.session == session && ctx.user == userResponse.user &&
      ctx.roles == ParseUserRolesFromJWT(rt, session.value.accessToken)
  {
    if session.None? then Unauthenticated
    else if userResponse.error.Some? then Unauthenticated
    else AuthContext(session, userResponse.user, ParseUserRolesFromJWT(rt, session.value.accessToken))
  }

  /** Fail closed: a rejected token yields no session, no user and no roles, whatever it claims. */
  lemma RejectedTokenYieldsNothing(rt: Runtime, session: Session, userResponse: UserResponse)
    requires userResponse.error.Some?
    ensures SafeGetSession(rt, Some(session), userResponse) == AuthContext(None, None, [])
  {
  }

  /** Roles are only ever reported together with a validated session. */
  lemma RolesImplyValidatedSession(rt: Runtime, session: Option<Session>, userResponse: UserResponse)
    requires SafeGetSession(rt, session, userResponse).roles != []
    ensures session.Some? && userResponse.error.None?
    ensures SafeGetSession(rt, session, userResponse).session == session
    ensures session.value.accessToken.Some? && session.value.accessToken.value != ""
  {
  }

  /** A cookie option value: `path`, `domain`, `sameSite` are text, `maxAge` a number, `httpOnly`, `secure` flags. */
  datatype OptionValue = Text(text: string) | Number(number: int) | Flag(flag: bool)

  datatype CookieToSet = CookieToSet(name: string, value: string, options: map<string, OptionValue>)

  /** `{ ...options, path: '/' }`: the spread copies every option, then `path` is overridden. */
  function WithRootPath(c: CookieToSet): (r: CookieToSet)
    ensures r.name == c.name && r.value == c.value
    ensures "path" in r.options && r.options["path"] == Text("/")
    ensures r.options.Keys == c.options.Keys + {"path"}
    ensures forall k :: k in c.options && k != "path" ==> r.options[k] == c.options[k]
  {
    CookieToSet(c.name, c.value, c.options["path" := Text("/")])
  }

  /** The request's cookie store, seen as the sequence of `set` calls made on it. */
  class Cookies {
    var written: seq<CookieToSet>

    constructor ()
      ensures written == []
    {
      written := [];
    }

    /** `cookies.set(name, value, options)`. */
    method Set(name: string, value: string, options: map<string, OptionValue>)
      modifies this
      ensures written == old(written) + [CookieToSet(name, value, options)]
    {
      written := written + [CookieToSet(name, value, options)];
    }
  }

  /** The writes `setAll(cookiesToSet)` performs, in order. */
  function RootedWrites(cookiesToSet: seq<CookieToSet>): (r: seq<CookieToSet>)
    ensures |r| == |cookiesToSet|
    ensures forall i :: 0 <= i < |r| ==> r[i] == WithRootPath(cookiesToSet[i])
  {
    if cookiesToSet == [] then [] else [WithRootPath(cookiesToSet[0])] + RootedWrites(cookiesToSet[1..])
  }

  /** The `setAll` callback: one `set` per cookie, in order, each with `path` forced to `/`. */
  method SetAll(cookies: Cookies, cookiesToSet: seq<CookieToSet>)
    modifies cookies
    ensures cookies.written == old(cookies.written) + RootedWrites(cookiesToSet)
  {
    for i := 0 to |cookiesToSet|
      invariant cookies.written == old(cookies.written) + RootedWrites(cookiesToSet[..i])
    {
      var c := cookiesToSet[i];
      assert RootedWrites(cookiesToSet[..i + 1]) == RootedWrites(cookiesToSet[..i]) + [WithRootPath(c)] by {
        RootedWritesAppend(cookiesToSet[..i], c);
        assert cookiesToSet[..i + 1] == cookiesToSet[..i] + [c];
      }
      cookies.Set(c.name, c.value, c.options["path" := Text("/")]);
    }
    assert cookiesToSet[..|cookiesToSet|] == cookiesToSet;
  }

  lemma {:induction false} RootedWritesAppend(cs: seq<CookieToSet>, c: CookieToSet)
    ensures RootedWrites(cs + [c]) == RootedWrites(cs) + [WithRootPath(c)]
  {
  }

  /** Every cookie the provider asks to set is written with path `/`, whatever path it supplied. */
  lemma EveryWriteHasRootPath(cookiesToSet: seq<CookieToSet>)
    ensures forall w :: w in RootedWrites(cookiesToSet) ==> "path" in w.options && w.options["path"] == Text("/")
    ensures forall c :: c in cookiesToSet ==>
      exists w :: w in RootedWrites(cookiesToSet) && w.name == c.name && w.value == c.value
  {
    forall c | c in cookiesToSet
      ensures exists w :: w in RootedWrites(cookiesToSet) && w.name == c.name && w.value == c.value
    {
      var i :| 0 <= i < |cookiesToSet| && cookiesToSet[i] == c;
      assert RootedWrites(cookiesToSet)[i] in RootedWrites(cookiesToSet);
    }
  }

  /** The provider client's auth object: whether it has the `suppressGetSessionWarning` property, and its value. */
  class AuthClient {
    var hasSuppressFlag: bool
    var suppressGetSessionWarning: bool

    constructor (hasFlag: bool)
      ensures hasSuppressFlag == hasFlag && !suppressGetSessionWarning
    {
      hasSuppressFlag := hasFlag;
      suppressGetSessionWarning := false;
    }
  }

  /** Sets the flag when the client has it; otherwise leaves the client alone and warns. */
  method SuppressGetSessionWarning(auth: AuthClient) returns (warned: bool)
    modifies auth
    ensures auth.hasSuppressFlag == old(auth.hasSuppressFlag)
    ensures warned <==> !auth.hasSuppressFlag
    ensures auth.hasSuppressFlag ==> auth.suppressGetSessionWarning
    ensures !auth.hasSuppressFlag ==> auth.suppressGetSessionWarning == old(auth.suppressGetSessionWarning)
  {
    if auth.hasSuppressFlag {
      auth.suppressGetSessionWarning := true;
      warned := false;
    } else {
      warned := true;
    }
  }

  /** `filterSerializedResponseHeaders(name)`: the two headers the provider's libraries read. */
  predicate FilterSerializedResponseHeaders(name: string)
  {
    name == "content-range" || name == "x-supabase-api-version"
  }

  /** The headers of a server-side fetch that the filter lets into the serialised page, in order. */
  function SerializedHeaders(headers: seq<(string, string)>): (r: seq<(string, string)>)
    ensures |r| <= |headers|
    ensures forall h :: h in r ==> h in headers && FilterSerializedResponseHeaders(h.0)
    ensures forall h :: h in headers && FilterSerializedResponseHeaders(h.0) ==> h in r
  {
    if headers == [] then []
    else
      var rest := SerializedHeaders(headers[1..]);
      if FilterSerializedResponseHeaders(headers[0].0) then [headers[0]] + rest else rest
  }
}
