/**
 * The `GET /auth/callback` handler: the landing point of e-mail links and of the
 * OAuth / magic-link code flow. It verifies what the link carries with the
 * provider and answers with a 303 redirect.
 */
module AuthCallback {
  import opened Wrappers
  import opened AuthProvider

  /** The query string: its `name=value` pairs, in order. */
  type Query = seq<(string, string)>

  /** `url.searchParams.get(name)`: the first value given for `name`, `null` when there is none. */
  function SearchParam(query: Query, name: string): (v: Option<string>)
    ensures v.None? <==> forall i :: 0 <= i < |query| ==> query[i].0 != name
    ensures v.Some? ==>
      exists i :: (0 <= i < |query| && query[i] == (name, v.value) &&
                   forall j :: 0 <= j < i ==> query[j].0 != name)
  {
    if query == [] then None
    else if query[0].0 == name then Some(query[0].1)
    else
      var v := SearchParam(query[1..], name);
      if v.Some? then
        var i :| 0 <= i < |query[1..]| && query[1..][i] == (name, v.value) &&
          forall j :: 0 <= j < i ==> query[1..][j].0 != name;
        assert query[i + 1] == (name, v.value);
        v
      else v
  }

  /** Truthiness of a `string | null`. */
  predicate Truthy(v: Option<string>)
  {
    v.Some? && v.value != ""
  }

  /** The OTP types the handler passes on to `verifyOtp`. */
  datatype OtpType = Signup | Invite | Recovery | Email

  function OtpTypeLabel(t: OtpType): string
  {
    match t
    case Signup => "signup"
    case Invite => "invite"
    case Recovery => "recovery"
    case Email => "email"
  }

  /** The `switch (type)`: the four accepted types; anything else, `magiclink` included, is refused. */
  function VerifyType(t: string): (r: Option<OtpType>)
    ensures r.Some? <==> t == "signup" || t == "invite" || t == "recovery" || t == "email"
    ensures r.Some? ==> OtpTypeLabel(r.value) == t
  {
    if t == "signup" then Some(Signup)
    else if t == "invite" then Some(Invite)
    else if t == "recovery" then Some(Recovery)
    else if t == "email" then Some(Email)
    else None
  }

  /** The provider calls the handler makes. */
  datatype SdkCall = VerifyOtp(tokenHash: string, otpType: OtpType) | GetUser | ExchangeCodeForSession(code: string)

  datatype ExchangeResponse = ExchangeResponse(user: Option<User>, error: Option<string>)

  /**
   * The provider's answers to whichever calls are made: the error of `verifyOtp`,
   * the user `getUser()` reports, and the outcome of `exchangeCodeForSession`.
   */
  datatype ProviderAnswers = ProviderAnswers(
    verifyOtpError: Option<string>,
    currentUser: Option<User>,
    exchange: ExchangeResponse)

  datatype Redirect = Redirect(status: int, location: string)

  /** The calls made, in order, and the redirect answered. */
  datatype CallbackResult = CallbackResult(calls: seq<SdkCall>, redirect: Redirect)

  const AuthError: string := "/auth/auth-error"
  const AuthCodeError: string := "/auth/auth-code-error"
  const SetPassword: string := "/auth/set/password"
  const ProfileHop: string := "/auth/callback/redirect-to/profile"

  function ProfilePath(id: string): string
  {
    "/profile/" + id
  }

  /** `url.searchParams.get('next') ?? '/'`: only a missing `next` becomes `/`; an empty one stays empty. */
  function Next(query: Query): (next: string)
    ensures SearchParam(query, "next").None? ==> next == "/"
    ensures SearchParam(query, "next").Some? ==> next == SearchParam(query, "next").value
  {
    var n := SearchParam(query, "next");
    if n.Some? then n.value else "/"
  }

  /** The handler, given the query string and the provider's answers. */
  function Callback(query: Query, answers: ProviderAnswers): (r: CallbackResult)
    ensures r.redirect.status == 303
    ensures |r.calls| <= 2
  {
    var tokenHash := SearchParam(query, "token_hash");
    var otpType := SearchParam(query, "type");
    if Truthy(tokenHash) && Truthy(otpType) then VerifyLink(tokenHash.value, otpType.value, Next(query), answers)
    else ExchangeCode(SearchParam(query, "code"), answers)
  }

  /** The e-mail link branch: check the type, verify the token hash, pick the target. */
  function VerifyLink(tokenHash: string, otpType: string, next: string, answers: ProviderAnswers): (r: CallbackResult)
    ensures r.redirect.status == 303
    ensures VerifyType(otpType).None? ==> r == CallbackResult([], Redirect(303, AuthError))
    ensures VerifyType(otpType).Some? ==>
      1 <= |r.calls| <= 2 && r.calls[0] == VerifyOtp(tokenHash, VerifyType(otpType).value) &&
      (|r.calls| == 2 ==> r.calls[1] == GetUser)
    ensures forall c :: c in r.calls ==> !c.ExchangeCodeForSession?
  {
    match VerifyType(otpType)
    case None => CallbackResult([], Redirect(303, AuthError))
    case Some(verifyType) =>
      var verify := [VerifyOtp(tokenHash, verifyType)];
      if answers.verifyOtpError.Some? then CallbackResult(verify, Redirect(303, AuthError))
      else if verifyType == Recovery then CallbackResult(verify, Redirect(303, SetPassword))
      else if verifyType == Signup && next == ProfileHop then
        if answers.currentUser.Some? then
          CallbackResult(verify + [GetUser], Redirect(303, ProfilePath(answers.currentUser.value.id)))
        else CallbackResult(verify + [GetUser], Redirect(303, next))
      else CallbackResult(verify, Redirect(303, next))
  }

  /** The code branch: exchange a code for a session, or give up. */
  function ExchangeCode(code: Option<string>, answers: ProviderAnswers): (r: CallbackResult)
    ensures r.redirect.status == 303
    ensures r.calls == (if Truthy(code) then [ExchangeCodeForSession(code.value)] else [])
  {
    if Truthy(code) then
      var exchange := [ExchangeCodeForSession(code.value)];
      if answers.exchange.error.Some? then CallbackResult(exchange, Redirect(303, AuthCodeError))
      else if answers.exchange.user.Some? then
        CallbackResult(exchange, Redirect(303, ProfilePath(answers.exchange.user.value.id)))
      else CallbackResult(exchange, Redirect(303, AuthError))
    else CallbackResult([], Redirect(303, AuthError))
  }

  /** A link carrying a token hash and a type. */
  predicate OtpLink(query: Query)
  {
    Truthy(SearchParam(query, "token_hash")) && Truthy(SearchParam(query, "type"))
  }

  /** A type outside the four accepted ones (`magiclink` among them) is refused without verifying anything. */
  lemma UnsupportedTypeIsRefused(query: Query, answers: ProviderAnswers)
    requires OtpLink(query)
    requires VerifyType(SearchParam(query, "type").value).None?
    ensures Callback(query, answers) == CallbackResult([], Redirect(303, AuthError))
  {
  }

  /** An accepted type is verified first, with the token hash and the type as given. */
  lemma AcceptedTypeIsVerified(query: Query, answers: ProviderAnswers)
    requires OtpLink(query)
    requires VerifyType(SearchParam(query, "type").value).Some?
    ensures var r := Callback(query, answers);
      |r.calls| >= 1 &&
      r.calls[0] == VerifyOtp(SearchParam(query, "token_hash").value, VerifyType(SearchParam(query, "type").value).value) &&
      OtpTypeLabel(r.calls[0].otpType) == SearchParam(query, "type").value
  {
  }

  /** A failed verification ends at the error page, whatever `next` says. */
  lemma FailedVerificationIsRefused(query: Query, answers: ProviderAnswers)
    requires OtpLink(query) && VerifyType(SearchParam(query, "type").value).Some?
    requires answers.verifyOtpError.Some?
    ensures Callback(query, answers).redirect == Redirect(303, AuthError)
    ensures |Callback(query, answers).calls| == 1
  {
  }

  /** A verified recovery link always leads to the set-password page, whatever `next` says. */
  lemma RecoveryGoesToSetPassword(query: Query, answers: ProviderAnswers)
    requires OtpLink(query) && SearchParam(query, "type") == Some("recovery")
    requires answers.verifyOtpError.None?
    ensures Callback(query, answers).redirect == Redirect(303, SetPassword)
  {
  }

  /**
   * A verified sign-up link whose `next` is the profile hop asks for the user
   * and goes to their profile, or to the hop itself when there is no user.
   */
  lemma SignupGoesToProfile(query: Query, answers: ProviderAnswers)
    requires OtpLink(query) && SearchParam(query, "type") == Some("signup")
    requires SearchParam(query, "next") == Some(ProfileHop)
    requires answers.verifyOtpError.None?
    ensures var r := Callback(query, answers);
      |r.calls| == 2 && r.calls[1] == GetUser &&
      r.redirect.location == if answers.currentUser.Some? then ProfilePath(answers.currentUser.value.id) else ProfileHop
  {
  }

  /**
   * Every other verified link goes to `next` verbatim: the target is not checked
   * to be a path of this site, and a missing `next` means `/`.
   */
  lemma VerifiedLinkFollowsNext(query: Query, answers: ProviderAnswers)
    requires OtpLink(query)
    requires var t := SearchParam(query, "type").value;
      t == "invite" || t == "email" || (t == "signup" && Next(query) != ProfileHop)
    requires answers.verifyOtpError.None?
    ensures Callback(query, answers).redirect == Redirect(303, Next(query))
    ensures SearchParam(query, "next").None? ==> Callback(query, answers).redirect.location == "/"
  {
  }

  /** Without a token hash and a type, a code is exchanged for a session. */
  lemma CodeIsExchanged(query: Query, answers: ProviderAnswers)
    requires !OtpLink(query) && Truthy(SearchParam(query, "code"))
    ensures var r := Callback(query, answers);
      r.calls == [ExchangeCodeForSession(SearchParam(query, "code").value)] &&
      r.redirect.location ==
        if answers.exchange.error.Some? then AuthCodeError
        else if answers.exchange.user.Some? then ProfilePath(answers.exchange.user.value.id)
        else AuthError
  {
  }

  /** A link carrying a token hash and a type never looks at `code`. */
  lemma OtpLinkIgnoresCode(query: Query, answers: ProviderAnswers)
    requires OtpLink(query)
    ensures forall c :: c in Callback(query, answers).calls ==> !c.ExchangeCodeForSession?
  {
  }

  /** With neither a usable OTP link nor a code, nothing is called and the answer is the error page. */
  lemma NothingToHandle(query: Query, answers: ProviderAnswers)
    requires !OtpLink(query) && !Truthy(SearchParam(query, "code"))
    ensures Callback(query, answers) == CallbackResult([], Redirect(303, AuthError))
  {
  }

  /**
   * The caller-chosen `next` is only ever followed after the provider has
   * verified an OTP: any target other than the fixed pages and a profile page
   * comes out of a successful `verifyOtp`.
   */
  lemma {:induction false} NextOnlyAfterVerification(query: Query, answers: ProviderAnswers)
    ensures var r := Callback(query, answers);
      var loc := r.redirect.location;
      loc == AuthError || loc == AuthCodeError || loc == SetPassword ||
      (exists id :: loc == ProfilePath(id)) ||
      (loc == Next(query) && |r.calls| >= 1 && r.calls[0].VerifyOtp? && answers.verifyOtpError.None?)
  {
    var r := Callback(query, answers);
    if OtpLink(query) && VerifyType(SearchParam(query, "type").value).Some? && answers.verifyOtpError.None? {
      var t := VerifyType(SearchParam(query, "type").value).value;
      if t == Signup && Next(query) == ProfileHop && answers.currentUser.Some? {
        assert r.redirect.location == ProfilePath(answers.currentUser.value.id);
      }
    } else if !OtpLink(query) && Truthy(SearchParam(query, "code"))
      && answers.exchange.error.None? && answers.exchange.user.Some? {
      assert r.redirect.location == ProfilePath(answers.exchange.user.value.id);
    }
  }

  /** An open redirect: a verified invitation link sends the browser to any address written in `next`. */
  lemma InviteFollowsAnyNext(hash: string, target: string, answers: ProviderAnswers)
    requires hash != "" && answers.verifyOtpError.None?
    ensures var query := [("token_hash", hash), ("type", "invite"), ("next", target)];
      Callback(query, answers) == CallbackResult([VerifyOtp(hash, Invite)], Redirect(303, target))
  {
    var query := [("token_hash", hash), ("type", "invite"), ("next", target)];
    assert SearchParam(query, "token_hash") == Some(hash);
    assert SearchParam(query, "type") == Some("invite");
    assert query[2..] == [("next", target)];
    assert SearchParam(query[2..], "next") == Some(target);
    assert SearchParam(query, "next") == Some(target);
  }
}
