# Community portal authentication core, in Dafny

This project models the parts of a SvelteKit community portal that make real
decisions. Everything around them is glue to a hosted authentication and
storage provider. The modelled parts are:

- **The role-claim extractor `parseUserRolesFromJWT`.** The server hook and the
  root layout each carry an identical copy. It splits a JWS compact
  serialisation (section 7.1 of RFC 7515) into three parts. It maps the payload
  segment from the base64url alphabet (section 5 of RFC 4648) to the standard
  one (section 4 of RFC 4648) and decodes it with `atob`. It reinterprets the
  result as UTF-8, parses it as JSON and projects `user_roles` onto
  `{entity_id, role_name, role_type}`. Every failure gives `[]`.
  - `atob` is modelled as the WHATWG forgiving-base64 decode.
  - An unpadded encoder is its partner, and the round trip is proved.
- **The server hook.**
  - `safeGetSession` fails closed.
  - The `setAll` cookie writer forces `path: '/'` on every cookie.
  - A switch sets the client's `suppressGetSessionWarning` flag.
  - A filter lets two response headers through.
- **The root layout's `load`.** It reads the roles from the unvalidated session
  and does not fail closed.
- **The avatar helpers** shared by the two profile routes.
  - `getInitials`.
  - `getAvatarColor`: a 31-multiplier hash with a JavaScript `<<`, then `%` to
    get a hue.
  - `generateAvatar`: an SVG template.
- **The two profile form actions.**
  - `setprofile` and `setpasswordprofile` make the avatar upload before they
    validate anything.
  - `setprofile`'s `!session` guard can never fire.
  - An empty last name is reported under the `firstName` key.
- **The `GET /auth/callback` handler.** It is the decision tree from query
  parameters and provider answers to a 303 redirect.

Provider calls (`getSession`, `getUser`, `verifyOtp`, `exchangeCodeForSession`,
`updateUser`, storage `upload`) are represented by their answers, which are
passed in as values. An action returns the sequence of calls it made, in order,
together with its outcome. In `setprofile` the first of them is
`ProfileForm.Effect.ResolveSession`: the `safeGetSession()` call, whose
`getSession`/`getUser` lookups `Hooks.SafeGetSession` models and whose answer
is the action's `ctx` parameter. The actions reassign `avatarFile` and `picture` step
by step, so the avatar step is the method `ProfileForm.UploadAvatar`. The
getAvatarColor loop is the method `Avatar.GetAvatarColor`. The `setAll` cookie
loop is `Hooks.SetAll`, which writes to a `Hooks.Cookies` object. Each method
is proved against a specification function, and the properties are proved
about that function.

JavaScript semantics are written out in `JsText`:

- `split` on one character;
- a global one-character `replace`;
- `charAt(0)`;
- ASCII `toUpperCase`;
- ToInt32 for `<<`;
- `%` with the sign of the dividend;
- decimal rendering of integers.

One `char` stands for one UTF-16 code unit.

Modules: `Wrappers` (Option), `JsText`, `Base64`, `DbTypes`, `AuthProvider`,
`JwtRoles`, `Hooks`, `LayoutLoad`, `Avatar`, `AvatarSvg`, `ProfileForm`,
`SetProfileAction`, `SetPasswordProfileAction`, `AuthCallback`.

Where the code and its documentation differ, the model follows the code:

- A `firstName`/`lastName` field that is missing (`null`) or a file does not
  give the "is required" 400. `getInitials` calls `charAt` on it first, and
  that throws a TypeError. Only an empty string reaches the 400.
- The `user_roles` entries are not checked against the role enums. The typed
  view `JwtRoles.TypedClaim` is a separate function, and
  `JwtRoles.WellFormedRolesAreTyped` says when it applies.

## Model

| member | source | states |
|---|---|---|
| JsText.Split | src/hooks.server.ts:24 | `split('.')` gives one more piece than there are separators; no piece contains one; joining the pieces back gives the token |
| JsText.SplitThree | src/hooks.server.ts:24-28 | three separator-free pieces joined by `.` split back into exactly those three pieces |
| JsText.SplitAtFirst | src/hooks.server.ts:24 | splitting at the first separator puts the separator-free prefix first, followed by the split of the rest |
| JsText.SplitWithoutSeparator | src/hooks.server.ts:24 | a string without the separator splits into itself alone |
| JsText.ReplaceAll | src/hooks.server.ts:32 | a global one-character replace keeps the length, replaces every occurrence, changes nothing else, and leaves no occurrence behind |
| JsText.CharAt0 | src/routes/auth/set/profile/+page.server.ts:6 | `charAt(0)` is the first code unit, or empty exactly when the string is empty |
| JsText.AsciiUpper | src/routes/auth/set/profile/+page.server.ts:6 | lower-case ASCII letters move down by 32; every other character is unchanged; no lower-case letter remains |
| JsText.ToUpperCase | src/routes/auth/set/profile/+page.server.ts:6 | upper-casing keeps the length, upper-cases each ASCII letter and leaves every other code unit as it is |
| JsText.ToInt32 | src/routes/auth/set/profile/+page.server.ts:12 | ToInt32 lies in [-2^31, 2^31), is congruent to its argument modulo 2^32, and is the identity on that range |
| JsText.JsRem | src/routes/auth/set/profile/+page.server.ts:14 | JavaScript `%` by a positive divisor: for a non-negative dividend it is the mathematical remainder; for a negative one it lies in (-d, 0] |
| JsText.JsRemNegate | src/routes/auth/set/profile/+page.server.ts:14 | `%` takes the sign of the dividend: negating the dividend negates the result |
| JsText.NatToDecimal | src/routes/auth/set/profile/+page.server.ts:15 | the rendering of a natural number is a non-empty digit string without a leading zero |
| JsText.IntToDecimal | src/routes/auth/set/profile/+page.server.ts:15 | the rendering of an integer is non-empty and starts with `-` exactly when the integer is negative |
| JsText.NatToDecimalRoundTrip | src/routes/auth/set/profile/+page.server.ts:15 | reading the digits back gives the number |
| JsText.IntToDecimalRoundTrip | src/routes/auth/set/profile/+page.server.ts:15 | an integer's rendering parses back to the integer |
| JsText.DigitChar | src/routes/auth/set/profile/+page.server.ts:15 | each digit value maps to the digit character with that value |
| Base64.AlphabetChar | src/hooks.server.ts:32 | base64 and base64url characters are never `.`, `=` or whitespace; base64url never uses `+` `/`, and base64 never uses `-` `_` |
| Base64.StdValue | src/hooks.server.ts:32 | the value of a standard-alphabet character is the sextet that encodes to it |
| Base64.StdValueOfChar | src/hooks.server.ts:32 | every sextet's standard character decodes back to the sextet |
| Base64.RemoveWhitespace | src/hooks.server.ts:32 | `atob` first drops ASCII whitespace: none remains, and a string without whitespace is unchanged |
| Base64.RemoveWhitespaceLength | src/hooks.server.ts:32 | dropping whitespace never lengthens the input |
| Base64.RemoveWhitespaceKeeps | src/hooks.server.ts:32 | every character that is not whitespace survives |
| Base64.StripPadding | src/hooks.server.ts:32 | removing trailing `=` leaves a prefix followed only by `=`, and leaves a string not ending in `=` unchanged |
| Base64.Atob | src/hooks.server.ts:32 | a successful decode yields no more bytes than the input has characters |
| Base64.DecodeGroupsLength | src/hooks.server.ts:32 | decoding whole and partial groups yields no more bytes than characters |
| Base64.Encode | src/hooks.server.ts:32 | an unpadded encoding never has length 1 modulo 4, so it is a decodable length |
| Base64.EncodeGroup | src/hooks.server.ts:32 | three bytes become four characters whose standard values give the three bytes back |
| Base64.EncodeAlphabet | src/hooks.server.ts:32 | the url-safe encoding contains no `.`, `+` or `/`, and the standard encoding contains no `-` or `_` |
| Base64.DecodeEncode | src/hooks.server.ts:32 | decoding the standard encoding of any bytes gives the bytes back |
| Base64.DecodeEncodeShort | src/hooks.server.ts:32 | the round trip for one or two trailing bytes |
| Base64.DecodeEncodeStep | src/hooks.server.ts:32 | the round trip extends by one three-byte group |
| Base64.DecodeFirstGroup | src/hooks.server.ts:32 | decoding a group followed by more text decodes the group, then the rest |
| Base64.DecodeTail | src/hooks.server.ts:32 | two and three trailing characters decode to one and two bytes |
| Base64.AtobEncode | src/hooks.server.ts:32 | `atob` of the standard encoding of any bytes returns exactly those bytes |
| Base64.AtobRefusesUrlSafe | src/hooks.server.ts:32 | `atob` rejects any text still containing `-` or `_`, which is why the segment is translated first |
| Base64.AtobIgnoresPadding | src/hooks.server.ts:32 | a padded encoding decodes to the same bytes as the unpadded one |
| Base64.AtobOfCanonical | src/hooks.server.ts:32 | a whitespace-free, group-aligned text decodes as its unpadded prefix |
| Base64.PaddingStripped | src/hooks.server.ts:32 | stripping the padding from a padded encoding gives the unpadded encoding |
| Base64.PaddedHasNoWhitespace | src/hooks.server.ts:32 | a padded encoding contains no whitespace |
| Base64.Padding | src/hooks.server.ts:32 | padding is at most two `=` characters |
| Base64.PaddingFillsGroup | src/hooks.server.ts:32 | padding completes the last group of four |
| Base64.UrlToStandard | src/hooks.server.ts:32 | replacing `-` by `+` and then `_` by `/` turns the base64url encoding of any bytes into their standard encoding |
| Base64.SameShape | src/hooks.server.ts:32 | the two alphabets' encodings of the same bytes agree character by character, up to `-`/`+` and `_`/`/` |
| Base64.CorrespondsConcat | src/hooks.server.ts:32 | character-wise correspondence is preserved by concatenation |
| Base64.AlphabetSameChar | src/hooks.server.ts:32 | each sextet's two characters correspond |
| Base64.GroupSameShape | src/hooks.server.ts:32 | each encoded group corresponds in the two alphabets |
| Base64.ShortSameShape | src/hooks.server.ts:32 | the trailing characters correspond in the two alphabets |
| DbTypes.ParseRoleName | src/lib/db.types.ts:427-436 | a label parses to the one `role_name` whose label it is, and to nothing else |
| DbTypes.ParseRoleType | src/lib/db.types.ts:437 | a label parses to the one `role_type` whose label it is, and to nothing else |
| JwtRoles.GetProperty | src/hooks.server.ts:36 | property access fails (TypeError) exactly on `null`; an object's own key gives its value |
| JwtRoles.Project | src/hooks.server.ts:37-41 | the map callback throws on `null`, copies the three claim fields from an object, and yields three `undefined` for any other value |
| JwtRoles.ProjectAll | src/hooks.server.ts:37-41 | the mapping fails exactly when an element is `null`; otherwise it keeps length and order, element by element |
| JwtRoles.RolesFromPayload | src/hooks.server.ts:36-45 | a `null` payload throws; a payload whose `user_roles` is not a truthy array gives `[]`; an array is projected |
| JwtRoles.StandardAlphabet | src/hooks.server.ts:32 | every `-` becomes `+`, every `_` becomes `/`, nothing else changes, and neither character remains |
| JwtRoles.ParseUserRolesFromJWT | src/hooks.server.ts:17-50 | a missing or empty token, a token without exactly two dots, or a payload that does not decode gives `[]` |
| JwtRoles.ParseDecodedToken | src/hooks.server.ts:31-45 | once the payload decodes, the result is the payload's roles or `[]` |
| JwtRoles.RolesMirrorUserRoles | src/hooks.server.ts:36-41 | a `user_roles` array without `null` yields the same number of claims, in order, each carrying exactly the three fields |
| JwtRoles.OtherPropertiesDropped | src/hooks.server.ts:37-41 | two role objects that agree on the three claim fields give the same claim, whatever else they carry |
| JwtRoles.NoRoleArrayGivesEmpty | src/hooks.server.ts:42-45 | a payload without a `user_roles` array gives `[]` |
| JwtRoles.NullGivesEmpty | src/hooks.server.ts:46-49 | a `null` payload or a `null` role element is caught and gives `[]` |
| JwtRoles.EncodedTokenRoundTrip | src/hooks.server.ts:24-33 | a token built from any header, the base64url of the payload bytes, and any signature yields that payload and its roles |
| JwtRoles.SingleClaimRoundTrip | src/hooks.server.ts:17-50 | a token carrying one owner claim on a project gives exactly that claim |
| JwtRoles.TypedClaim | src/lib/db.types.ts:427-437 | a claim read as a typed role is exactly the claim that carries that role |
| JwtRoles.TypedClaimOfClaim | src/lib/db.types.ts:427-437 | every typed role is read back from its own claim, so claims and typed roles correspond one to one |
| JwtRoles.WellFormedRoleIsTyped | src/hooks.server.ts:36-41 | a role object with a string or null `entity_id` and enum labels gives a typed claim with exactly those labels and that entity |
| JwtRoles.WellFormedRolesAreTyped | src/hooks.server.ts:36-41 | when every role object is well formed, every extracted claim is typed, one per role, with that role's labels and entity |
| Hooks.SafeGetSession | src/hooks.server.ts:79-100 | no session or a `getUser` error gives `{null, null, []}`; otherwise the session and user pass through and the roles are those of the access token |
| Hooks.RejectedTokenYieldsNothing | src/hooks.server.ts:92-95 | a rejected token yields no session, no user and no roles |
| Hooks.RolesImplyValidatedSession | src/hooks.server.ts:79-100 | roles are only reported for a present, validated session with a non-empty token |
| Hooks.WithRootPath | src/hooks.server.ts:68 | the spread keeps name, value and every other option, adds `path`, and sets it to `/` |
| Hooks.Cookies.constructor | src/hooks.server.ts:66-68 | a fresh cookie store has no writes |
| Hooks.Cookies.Set | src/hooks.server.ts:68 | `set` appends exactly one write |
| Hooks.RootedWrites | src/hooks.server.ts:66-69 | one write per cookie, in order, each with path `/` |
| Hooks.SetAll | src/hooks.server.ts:66-69 | the loop appends the rooted writes of all cookies, in order, to what was written before |
| Hooks.RootedWritesAppend | src/hooks.server.ts:67 | one more cookie adds one more rooted write at the end |
| Hooks.EveryWriteHasRootPath | src/hooks.server.ts:66-69 | every write has path `/`, and every cookie asked for is written under its name and value |
| Hooks.AuthClient.constructor | src/hooks.server.ts:102 | a client starts with the flag unset |
| Hooks.SuppressGetSessionWarning | src/hooks.server.ts:102-109 | the flag is set exactly when the client has it; otherwise the client is left alone and a warning is given |
| Hooks.SerializedHeaders | src/hooks.server.ts:112-118 | exactly the `content-range` and `x-supabase-api-version` headers pass through, and no other |
| LayoutLoad.Load | src/routes/+layout.ts:70-85 | session and user are returned unchanged; roles come from the token, and are `[]` without one |
| LayoutLoad.RolesDependOnlyOnToken | src/routes/+layout.ts:78-83 | two sessions with the same access token give the same roles |
| LayoutLoad.MalformedTokenGivesNoRoles | src/routes/+layout.ts:12-16 | a token that does not split into three parts gives no roles |
| LayoutLoad.LayoutDoesNotFailClosed | src/routes/+layout.ts:70-85 | when `getUser` reports an error, the hook drops everything while the layout still returns the unvalidated session and its roles |
| LayoutLoad.LayoutAgreesWithHookOnValidSession | src/routes/+layout.ts:70-85 | with a validated token, the layout and the hook agree on session, user and roles |
| Avatar.GetInitials | src/routes/auth/set/profile/+page.server.ts:5-7 | one upper-cased first character per non-empty name, the first name's first |
| Avatar.ShiftLeft5 | src/routes/auth/set/profile/+page.server.ts:12 | `x << 5` is the 32-bit value congruent to `32 * x` modulo 2^32, and is `32 * x` when no bit is shifted out |
| Avatar.GetAvatarColor | src/routes/auth/set/profile/+page.server.ts:9-16 | the loop computes `hsl(<hash % 360>, 70%, 60%)` for the hash of the whole string |
| Avatar.HashOfTwo | src/routes/auth/set/profile/+page.server.ts:10-13 | one code unit hashes to itself; two hash to `31 * c0 + c1`, with no 32-bit wrap-around |
| Avatar.InitialsHueInRange | src/routes/auth/set/profile/+page.server.ts:14 | initials of at most two code units, as the model's ASCII upper-casing gives, hash to a non-negative value, so the hue lies in [0, 359] |
| Avatar.ExpandedInitialsGiveNegativeHue | src/routes/auth/set/profile/+page.server.ts:5-14 | the six code units that full upper-casing makes of the initials of two names starting with U+0390 hash to -2956851520, so the hue is -160 |
| Avatar.HueBounds | src/routes/auth/set/profile/+page.server.ts:14 | any hue lies in (-360, 360), in [0, 359] for a non-negative hash, and is not positive for a negative hash |
| Avatar.HslColorRoundTrip | src/routes/auth/set/profile/+page.server.ts:15 | the colour string carries exactly the hue |
| AvatarSvg.GenerateAvatar | src/lib/server.ts:1-13 | the file is named `avatar.svg` with type `image/svg+xml`; the colour and the initials sit verbatim in their places in the template |
| AvatarSvg.TemplateSlices | src/lib/server.ts:2-9 | where each piece of the five-piece template sits |
| AvatarSvg.FirstQuote | src/lib/server.ts:4 | the first `"` of a string, or its length when there is none |
| AvatarSvg.FirstQuoteOfConcat | src/lib/server.ts:4 | a `"`-free prefix followed by a `"` puts the first quote right after the prefix |
| AvatarSvg.AvatarRoundTrip | src/lib/server.ts:2-9 | a `"`-free colour and any initials are read back exactly from the SVG |
| AvatarSvg.BodySlices | src/lib/server.ts:4-6 | the middle of the template splits into colour, attribute tail and initials |
| AvatarSvg.InitialsNotEscaped | src/lib/server.ts:5-7 | a `<` in the initials reaches the text element as `<`: nothing is escaped |
| ProfileForm.AvatarBody | src/routes/auth/set/profile/+page.server.ts:32-36 | a missing, empty-text or zero-size avatar is replaced by the generated badge; any other avatar is uploaded as given; the body is always truthy |
| ProfileForm.NoQuoteInColor | src/routes/auth/set/profile/+page.server.ts:15 | the colour string has no `"`, so it cannot leave the `fill` attribute |
| ProfileForm.DefaultAvatarShowsInitials | src/routes/auth/set/profile/+page.server.ts:28-36 | a default avatar is `avatar.svg`, and shows the model's initials in a colour with a hue in [0, 359], both of which read back exactly |
| ProfileForm.UploadAvatar | src/routes/auth/set/profile/+page.server.ts:28-52 | the upload to `avatars` of the avatar body is always made; a storage error becomes the "Avatar upload failed" error; otherwise the picture is the public URL of the uploaded path |
| SetProfileAction.DashboardOf | src/routes/auth/set/profile/+page.server.ts:76 | the redirect is `/users/[<id>]/dashboard`, brackets included, for a signed-in user, else `/users` |
| SetProfileAction.SetProfile | src/routes/auth/set/profile/+page.server.ts:19-78 | the method makes exactly the calls, the session lookup included, and gives exactly the outcome of the action's specification, `SetProfileResult` |
| SetProfileAction.NonTextNameThrows | src/routes/auth/set/profile/+page.server.ts:20-28 | a missing or file-valued name throws in `getInitials` after the session lookup and before the upload |
| SetProfileAction.SessionComesFirst | src/routes/auth/set/profile/+page.server.ts:20-46 | `safeGetSession()` is the first call and is made once; with two text names the avatar upload comes next |
| SetProfileAction.SessionOnlyBeforeAvatar | src/routes/auth/set/profile/+page.server.ts:37-77 | from the upload on, the action makes one or two calls, the upload first, and none of them looks the session up again |
| SetProfileAction.NeverUnauthorized | src/routes/auth/set/profile/+page.server.ts:20-23 | the 401 branch is dead: every failure is a 400 about a field or the update |
| SetProfileAction.UploadComesFirst | src/routes/auth/set/profile/+page.server.ts:37-46 | after the session lookup, the upload is the first call, made before validation, and the only other call is the update; an upload error, and only that, throws, with the storage's message |
| SetProfileAction.EmptyNameRefused | src/routes/auth/set/profile/+page.server.ts:53-64 | an empty first or last name fails after the upload, without an update, and both messages are filed under `firstName` |
| SetProfileAction.ValidProfileSaved | src/routes/auth/set/profile/+page.server.ts:65-77 | two names update the user with the names and the upload's public URL; then the action gives the update's error or the dashboard redirect |
| SetProfileAction.UpdateOnlyWithNames | src/routes/auth/set/profile/+page.server.ts:53-77 | the profile is only updated with two non-empty names, and success follows that update |
| SetPasswordProfileAction.SetPasswordProfile | src/routes/auth/set/password/profile/+page.server.ts:19-84 | the method makes exactly the calls and gives exactly the outcome of the action's specification, `SetPasswordProfileResult` |
| SetPasswordProfileAction.NonTextNameThrows | src/routes/auth/set/password/profile/+page.server.ts:21-25 | a missing or file-valued name throws in `getInitials` before any call |
| SetPasswordProfileAction.UploadComesFirst | src/routes/auth/set/password/profile/+page.server.ts:34-51 | the upload is the first call, made before any validation, and the only other call is the update; an upload error, and only that, throws |
| SetPasswordProfileAction.MissingFieldRefused | src/routes/auth/set/password/profile/+page.server.ts:53-70 | the password is checked first, then the first and the last name; each failure is a 400 without an update, filed under `password` for the password and under `firstName` for either name |
| SetPasswordProfileAction.ValidProfileSaved | src/routes/auth/set/password/profile/+page.server.ts:71-83 | the user is updated with the password, the names and the public URL; success has no redirect |
| SetPasswordProfileAction.PasswordOnlyWithNames | src/routes/auth/set/password/profile/+page.server.ts:53-83 | the password is only changed to a present, non-empty value, together with two non-empty names |
| AuthCallback.SearchParam | src/routes/auth/callback/+server.ts:5-13 | `searchParams.get` is `null` exactly when the name is absent, and is otherwise the value of its first occurrence |
| AuthCallback.VerifyType | src/routes/auth/callback/+server.ts:16-28 | exactly `signup`, `invite`, `recovery` and `email` are accepted, each as itself |
| AuthCallback.Next | src/routes/auth/callback/+server.ts:13 | `next` defaults to `/` only when absent |
| AuthCallback.Callback | src/routes/auth/callback/+server.ts:4-70 | every answer is a 303, after at most two provider calls |
| AuthCallback.VerifyLink | src/routes/auth/callback/+server.ts:15-53 | an unaccepted type ends at the error page with no call; otherwise `verifyOtp` comes first, then `getUser` at most; no code exchange |
| AuthCallback.ExchangeCode | src/routes/auth/callback/+server.ts:56-69 | a truthy code is exchanged once; without one nothing is called |
| AuthCallback.UnsupportedTypeIsRefused | src/routes/auth/callback/+server.ts:25-27 | `magiclink` or any other type goes to `/auth/auth-error` without verifying |
| AuthCallback.AcceptedTypeIsVerified | src/routes/auth/callback/+server.ts:30 | the first call verifies the token hash with the type as given |
| AuthCallback.FailedVerificationIsRefused | src/routes/auth/callback/+server.ts:31-34 | a verification error goes to `/auth/auth-error` after that single call |
| AuthCallback.RecoveryGoesToSetPassword | src/routes/auth/callback/+server.ts:37-39 | a verified recovery link goes to `/auth/set/password`, whatever `next` is |
| AuthCallback.SignupGoesToProfile | src/routes/auth/callback/+server.ts:42-52 | sign-up with `next` the profile hop asks for the user and goes to `/profile/<id>`, or to the hop without a user |
| AuthCallback.VerifiedLinkFollowsNext | src/routes/auth/callback/+server.ts:51-52 | every other verified link goes to `next` verbatim, or to `/` without one |
| AuthCallback.CodeIsExchanged | src/routes/auth/callback/+server.ts:56-69 | a code is exchanged; an error goes to `/auth/auth-code-error`, a user to `/profile/<id>`, anything else to `/auth/auth-error` |
| AuthCallback.OtpLinkIgnoresCode | src/routes/auth/callback/+server.ts:15-53 | a link with token hash and type never exchanges a code |
| AuthCallback.NothingToHandle | src/routes/auth/callback/+server.ts:68-69 | with neither a usable link nor a code, no call is made and the answer is `/auth/auth-error` |
| AuthCallback.NextOnlyAfterVerification | src/routes/auth/callback/+server.ts:4-70 | every target is a fixed page or a profile page, or is `next` after a successful `verifyOtp` |
| AuthCallback.InviteFollowsAnyNext | src/routes/auth/callback/+server.ts:51-52 | a verified invitation link redirects to any address written in `next` (an open redirect) |

## Left out

- Console logging (`console.error`, `console.warn`) is not modelled; it has no effect on results.
- `decodeURIComponent(escape(...))`, which reinterprets the bytes as UTF-8, and `JSON.parse` are abstract partial functions, fields of `JwtRoles.Runtime`. They are foreign runtime code.
- Provider and storage calls are not modelled. `getSession`, `getUser`, `verifyOtp`, `exchangeCodeForSession`, `updateUser`, storage `upload` and `getPublicUrl` are represented by their answers or, for `getPublicUrl`, by a function parameter.
- The network, `Date.now()` (a parameter) and the request's `formData()` parsing (given as `Option<FormEntry>` values) are outside the model.
- `createServerClient`, `createBrowserClient`, `isBrowser`, `depends`, and the cookie `getAll` callback are not modelled. They construct SDK clients or register dependencies.
- `resolve` and `sequence` from the hook chain are not modelled; only the header filter passed to `resolve` is.
- JsText.ToUpperCase: `toUpperCase` is modelled for ASCII letters only. Full Unicode upper-casing can change a string's length, and upper-cases letters such as `é`, which the model leaves as they are.
- Avatar.InitialsHueInRange: holds for the model's initials only, which are at most two code units. The source's initials can be longer: for two names starting with U+0390 they are six code units, and the hue is -160 (`Avatar.ExpandedInitialsGiveNegativeHue`).
- ProfileForm.DefaultAvatarShowsInitials: its hue bound holds for the model's initials only. For names whose first letters upper-case to several code units, the source can give a negative hue, as `Avatar.ExpandedInitialsGiveNegativeHue` shows.
- Strings are sequences of UTF-16 code units, one `char` each. This is exact for text in the Basic Multilingual Plane.
- The hash loop works on JavaScript doubles. The model uses exact integers, which agree until the hash leaves the safe-integer range (well over a million code units).
- Avatar.GetInitials: does not model a `null` or `File` argument. The action models that case as the thrown TypeError (`ProfileForm.ActionError.InitialsTypeError`).
- A file's `size` is modelled as the length of its text. `Buffer.from` and the `File` constructor are not modelled.
- The framework turning a thrown error into a 500 response, and `fail`/`redirect` into HTTP responses, is not modelled. The outcome datatype records which of them happens.
- The commented-out earlier parser at the top of the server hook is dead code.
- The generated database types are not modelled beyond the `Json` type and the `role_name`/`role_type` enums.
- The rule that a role's `entity_id` is `null` only for `global` roles is a database convention, not something the extractor checks. It is not enforced.
- The thin routes are not modelled: sign-in, sign-up, sign-out, password reset, password set, the OAuth starts, the profile hop, and the communities page. Each only calls the provider and redirects.
- Concurrency is not modelled. Requests are independent.
