/**
 * The role-claim extractor `parseUserRolesFromJWT`: it reads the `user_roles`
 * claim out of the payload of a JWS compact serialisation (section 7.1 of
 * RFC 7515, the form section 3 of RFC 7519 gives a JWT) without checking the
 * signature, and degrades every failure to the empty list.
 *
 * The server hook and the root layout carry the same function word for word;
 * both use this model.
 */
module JwtRoles {
  import opened Wrappers
  import opened JsText
  import opened DbTypes
  import Base64

  /** A JavaScript value read out of parsed JSON: `undefined`, or a JSON value. */
  datatype JsValue = Undefined | Defined(json: Json)

  /**
   * The runtime steps that are not modelled here: `decodeURIComponent(escape(.))`,
   * which reads the bytes `atob` produced as UTF-8 text and fails on malformed
   * UTF-8, and `JSON.parse`, which fails on text that is not JSON.
   */
  datatype Runtime = Runtime(
    decodeUtf8: seq<Base64.Byte> -> Option<string>,
    parseJson: string -> Option<Json>)

  /** One projected claim: exactly the three properties read off a `user_roles` element. */
  datatype RoleClaim = RoleClaim(entityId: JsValue, roleName: JsValue, roleType: JsValue)

  /** JavaScript truthiness. */
  predicate Truthy(v: JsValue)
  {
    match v
    case Undefined => false
    case Defined(j) =>
      match j
      case JString(s) => s != ""
      case JNumber(n) => n != 0.0
      case JBool(b) => b
      case JNull => false
      case JObject(_) => true
      case JArray(_) => true
  }

  /** `Array.isArray(v)`. */
  predicate IsArray(v: JsValue)
  {
    v.Defined? && v.json.JArray?
  }

  /**
   * Property access `v.key` on a parsed JSON value, for a key that no built-in
   * prototype defines (as none of `user_roles`, `entity_id`, `role_name` and
   * `role_type` is). `None` stands for the TypeError thrown when `v` is `null`.
   */
  function GetProperty(v: Json, key: string): (r: Option<JsValue>)
    ensures r.None? <==> v.JNull?
    ensures v.JObject? && key in v.fields ==> r == Some(Defined(v.fields[key]))
    ensures r.Some? && r.value.Defined? ==> v.JObject? && key in v.fields
  {
    match v
    case JNull => None
    case JObject(fields) => if key in fields then Some(Defined(fields[key])) else Some(Undefined)
    case _ => Some(Undefined)
  }

  /** What property `key` of an object holds, as a `Json | undefined`. */
  function Member(fields: map<string, Json>, key: string): JsValue
  {
    if key in fields then Defined(fields[key]) else Undefined
  }

  /**
   * The callback given to `map`: a new object with only `entity_id`, `role_name`
   * and `role_type`. `None` stands for the TypeError of a `null` element.
   */
  function Project(role: Json): (r: Option<RoleClaim>)
    ensures r.None? <==> role.JNull?
    ensures role.JObject? ==> r == Some(RoleClaim(
      Member(role.fields, "entity_id"), Member(role.fields, "role_name"), Member(role.fields, "role_type")))
    ensures !role.JObject? && !role.JNull? ==> r == Some(RoleClaim(Undefined, Undefined, Undefined))
  {
    match (GetProperty(role, "entity_id"), GetProperty(role, "role_name"), GetProperty(role, "role_type"))
    case (Some(e), Some(n), Some(t)) => Some(RoleClaim(e, n, t))
    case _ => None
  }

  predicate HasNull(items: seq<Json>)
  {
    exists i :: 0 <= i < |items| && items[i].JNull?
  }

  /** `items.map(project)`: throws exactly when some element is `null`. */
  function ProjectAll(items: seq<Json>): (r: Option<seq<RoleClaim>>)
    ensures r.None? <==> HasNull(items)
    ensures r.Some? ==> |r.value| == |items|
    ensures r.Some? ==> forall i :: 0 <= i < |items| ==> Project(items[i]) == Some(r.value[i])
  {
    if items == [] then Some([])
    else
      match Project(items[0])
      case None => None
      case Some(c) =>
        match ProjectAll(items[1..])
        case None =>
          assert forall i :: 0 <= i < |items| - 1 ==> items[1..][i] == items[i + 1];
          None
        case Some(cs) =>
          assert forall i :: 1 <= i < |items| ==> items[i] == items[1..][i - 1];
          Some([c] + cs)
  }

  /**
   * The `user_roles` step on a parsed payload: `None` where it throws (a `null`
   * payload or a `null` element), otherwise the projected list, or `[]` when
   * `user_roles` is missing, falsy or not an array.
   */
  function RolesFromPayload(payload: Json): (r: Option<seq<RoleClaim>>)
    ensures payload.JNull? ==> r.None?
    ensures !payload.JObject? && !payload.JNull? ==> r == Some([])
    ensures payload.JObject? && !IsArray(Member(payload.fields, "user_roles")) ==> r == Some([])
    ensures payload.JObject? && IsArray(Member(payload.fields, "user_roles")) ==>
      r == ProjectAll(payload.fields["user_roles"].items)
  {
    match GetProperty(payload, "user_roles")
    case None => None
    case Some(v) => if Truthy(v) && IsArray(v) then ProjectAll(v.json.items) else Some([])
  }

  /**
   * The payload segment with `-` turned into `+` and `_` into `/` (the two
   * global replaces), mapping the URL-safe alphabet onto the standard one.
   */
  function StandardAlphabet(segment: string): (r: string)
    ensures |r| == |segment|
    ensures forall i :: 0 <= i < |segment| ==>
      r[i] == (if segment[i] == '-' then '+' else if segment[i] == '_' then '/' else segment[i])
    ensures '-' !in r && '_' !in r
  {
    ReplaceAll(ReplaceAll(segment, '-', '+'), '_', '/')
  }

  /** `JSON.parse(decodeURIComponent(escape(atob(...))))`, `None` where any step throws. */
  function DecodePayload(rt: Runtime, segment: string): Option<Json>
  {
    match Base64.Atob(StandardAlphabet(segment))
    case None => None
    case Some(bytes) =>
      match rt.decodeUtf8(bytes)
      case None => None
      case Some(text) => rt.parseJson(text)
  }

  /** The decoded payload of a token that splits into three parts. */
  function PayloadOf(rt: Runtime, token: string): Option<Json>
  {
    var parts := Split(token, '.');
    if |parts| != 3 then None else DecodePayload(rt, parts[1])
  }

  /** The catch-all: a throw anywhere gives `[]`. */
  function RolesOrEmpty(payload: Json): seq<RoleClaim>
  {
    match RolesFromPayload(payload)
    case None => []
    case Some(rs) => rs
  }

  /**
   * `parseUserRolesFromJWT(accessToken)`. `None` is an `undefined` or `null`
   * token. The function is total: it never throws.
   */
  function ParseUserRolesFromJWT(rt: Runtime, accessToken: Option<string>): (r: seq<RoleClaim>)
    ensures accessToken.None? || accessToken == Some("") ==> r == []
    ensures accessToken.Some? && Count(accessToken.value, '.') != 2 ==> r == []
    ensures accessToken.Some? && PayloadOf(rt, accessToken.value).None? ==> r == []
  {
    if accessToken.None? || accessToken.value == "" then []
    else
      var parts := Split(accessToken.value, '.');
      if |parts| != 3 then []
      else
        match DecodePayload(rt, parts[1])
        case None => []
        case Some(payload) => RolesOrEmpty(payload)
  }

  /** On a token that reaches the payload, the result is the payload's roles or `[]`. */
  lemma ParseDecodedToken(rt: Runtime, token: string, payload: Json)
    requires PayloadOf(rt, token) == Some(payload)
    ensures ParseUserRolesFromJWT(rt, Some(token)) == RolesOrEmpty(payload)
  {
    assert token != [] by {
      assert Count(token, '.') == 2;
    }
  }

  /**
   * A `user_roles` array without `null` elements gives a list of the same length,
   * in the same order, each claim holding exactly the element's three properties.
   */
  lemma RolesMirrorUserRoles(rt: Runtime, token: string, fields: map<string, Json>, items: seq<Json>)
    requires PayloadOf(rt, token) == Some(JObject(fields))
    requires "user_roles" in fields && fields["user_roles"] == JArray(items)
    requires !HasNull(items)
    ensures var r := ParseUserRolesFromJWT(rt, Some(token));
      |r| == |items| &&
      forall i :: 0 <= i < |items| ==>
        Project(items[i]) == Some(r[i]) &&
        (items[i].JObject? ==> r[i] == RoleClaim(
          Member(items[i].fields, "entity_id"),
          Member(items[i].fields, "role_name"),
          Member(items[i].fields, "role_type")))
  {
    ParseDecodedToken(rt, token, JObject(fields));
  }

  /** Properties other than the three claim fields never reach the result. */
  lemma OtherPropertiesDropped(a: map<string, Json>, b: map<string, Json>)
    requires forall k :: k in {"entity_id", "role_name", "role_type"} ==> Member(a, k) == Member(b, k)
    ensures Project(JObject(a)) == Project(JObject(b))
  {
    assert Member(a, "entity_id") == Member(b, "entity_id");
    assert Member(a, "role_name") == Member(b, "role_name");
    assert Member(a, "role_type") == Member(b, "role_type");
  }

  /** A payload without an array `user_roles` gives `[]`. */
  lemma NoRoleArrayGivesEmpty(rt: Runtime, token: string, payload: Json)
    requires PayloadOf(rt, token) == Some(payload)
    requires !payload.JObject? || !IsArray(Member(payload.fields, "user_roles"))
    ensures ParseUserRolesFromJWT(rt, Some(token)) == []
  {
    ParseDecodedToken(rt, token, payload);
  }

  /** A `null` payload, or a `null` element of `user_roles`, throws inside the try: `[]`. */
  lemma NullGivesEmpty(rt: Runtime, token: string, payload: Json)
    requires PayloadOf(rt, token) == Some(payload)
    requires payload.JNull? ||
      (payload.JObject? && IsArray(Member(payload.fields, "user_roles")) &&
       HasNull(payload.fields["user_roles"].items))
    ensures ParseUserRolesFromJWT(rt, Some(token)) == []
  {
    ParseDecodedToken(rt, token, payload);
  }

  /**
   * Round trip: a payload serialised as the URL-safe base 64 middle segment of a
   * three-part token is decoded back and its roles are extracted.
   */
  lemma EncodedTokenRoundTrip(rt: Runtime, header: string, payloadBytes: seq<Base64.Byte>,
                              signature: string, text: string, payload: Json)
    requires '.' !in header && '.' !in signature
    requires rt.decodeUtf8(payloadBytes) == Some(text) && rt.parseJson(text) == Some(payload)
    ensures var token := header + "." + Base64.Encode(payloadBytes, true) + "." + signature;
      PayloadOf(rt, token) == Some(payload) &&
      ParseUserRolesFromJWT(rt, Some(token)) == RolesOrEmpty(payload)
  {
    var middle := Base64.Encode(payloadBytes, true);
    Base64.EncodeAlphabet(payloadBytes, true);
    assert '.' !in middle;
    var token := header + "." + middle + "." + signature;
    SplitThree(header, middle, signature, '.');
    Base64.UrlToStandard(payloadBytes);
    Base64.AtobEncode(payloadBytes);
    assert DecodePayload(rt, middle) == Some(payload);
    ParseDecodedToken(rt, token, payload);
  }

  /** The owner-of-project example: one claim comes back exactly. */
  lemma SingleClaimRoundTrip(rt: Runtime, header: string, payloadBytes: seq<Base64.Byte>,
                             signature: string, text: string)
    requires '.' !in header && '.' !in signature
    requires rt.decodeUtf8(payloadBytes) == Some(text)
    requires rt.parseJson(text) == Some(JObject(map["user_roles" := JArray([JObject(map[
      "entity_id" := JString("p1"), "role_name" := JString("owner"), "role_type" := JString("project")])])]))
    ensures ParseUserRolesFromJWT(rt, Some(header + "." + Base64.Encode(payloadBytes, true) + "." + signature))
      == [RoleClaim(Defined(JString("p1")), Defined(JString("owner")), Defined(JString("project")))]
  {
    var payload := JObject(map["user_roles" := JArray([JObject(map[
      "entity_id" := JString("p1"), "role_name" := JString("owner"), "role_type" := JString("project")])])]);
    EncodedTokenRoundTrip(rt, header, payloadBytes, signature, text, payload);
  }

  /** A claim as the database types describe it. */
  datatype TypedRole = TypedRole(entityId: Option<string>, roleName: RoleName, roleType: RoleType)

  /** How a typed `entity_id` appears in JSON: a string, or `null`. */
  function EntityValue(e: Option<string>): JsValue
  {
    if e.Some? then Defined(JString(e.value)) else Defined(JNull)
  }

  /** The claim a typed role is carried as: its entity and the labels of its two enums. */
  function ClaimOf(role: TypedRole): RoleClaim
  {
    RoleClaim(EntityValue(role.entityId), Defined(JString(RoleNameLabel(role.roleName))),
              Defined(JString(RoleTypeLabel(role.roleType))))
  }

  /**
   * The typed reading of a claim: `entity_id` a string or `null`, `role_name`
   * and `role_type` labels of their enums. The extractor itself checks none of this.
   */
  function TypedClaim(c: RoleClaim): (r: Option<TypedRole>)
    ensures r.Some? ==> ClaimOf(r.value) == c
  {
    match (c.entityId, c.roleName, c.roleType)
    case (Defined(e), Defined(JString(n)), Defined(JString(t))) =>
      if (e.JString? || e.JNull?) && ParseRoleName(n).Some? && ParseRoleType(t).Some? then
        Some(TypedRole(if e.JString? then Some(e.str) else None, ParseRoleName(n).value, ParseRoleType(t).value))
      else None
    case _ => None
  }

  /** Every typed role is read back from the claim that carries it: with `ClaimOf`, a bijection. */
  lemma TypedClaimOfClaim(role: TypedRole)
    ensures TypedClaim(ClaimOf(role)) == Some(role)
  {
  }

  /**
   * A `user_roles` element that matches the database types: an object whose
   * `entity_id` is a string or `null` and whose `role_name` and `role_type` are
   * labels of their enums.
   */
  predicate WellFormedRole(j: Json)
  {
    j.JObject? &&
    "entity_id" in j.fields && (j.fields["entity_id"].JString? || j.fields["entity_id"].JNull?) &&
    "role_name" in j.fields && j.fields["role_name"].JString? &&
    (exists n: RoleName :: RoleNameLabel(n) == j.fields["role_name"].str) &&
    "role_type" in j.fields && j.fields["role_type"].JString? &&
    (exists t: RoleType :: RoleTypeLabel(t) == j.fields["role_type"].str)
  }

  /** A well-formed element projects to the claim of a typed role with exactly its entity and labels. */
  lemma WellFormedRoleIsTyped(j: Json)
    requires WellFormedRole(j)
    ensures var r := TypedClaim(Project(j).value);
      r.Some? &&
      RoleNameLabel(r.value.roleName) == j.fields["role_name"].str &&
      RoleTypeLabel(r.value.roleType) == j.fields["role_type"].str &&
      EntityValue(r.value.entityId) == Defined(j.fields["entity_id"])
  {
    var n: RoleName :| RoleNameLabel(n) == j.fields["role_name"].str;
    var t: RoleType :| RoleTypeLabel(t) == j.fields["role_type"].str;
    var e := if j.fields["entity_id"].JString? then Some(j.fields["entity_id"].str) else None;
    assert Project(j).value == ClaimOf(TypedRole(e, n, t));
    TypedClaimOfClaim(TypedRole(e, n, t));
  }

  /**
   * Well-formed claim objects come out as well-typed claims, one for one, each
   * with exactly the entity and labels of its element.
   */
  lemma WellFormedRolesAreTyped(rt: Runtime, token: string, fields: map<string, Json>, items: seq<Json>)
    requires PayloadOf(rt, token) == Some(JObject(fields))
    requires "user_roles" in fields && fields["user_roles"] == JArray(items)
    requires forall i :: 0 <= i < |items| ==> WellFormedRole(items[i])
    ensures var r := ParseUserRolesFromJWT(rt, Some(token));
      |r| == |items| &&
      forall i :: 0 <= i < |r| ==>
        TypedClaim(r[i]).Some? &&
        RoleNameLabel(TypedClaim(r[i]).value.roleName) == items[i].fields["role_name"].str &&
        RoleTypeLabel(TypedClaim(r[i]).value.roleType) == items[i].fields["role_type"].str &&
        EntityValue(TypedClaim(r[i]).value.entityId) == Defined(items[i].fields["entity_id"])
  {
    assert !HasNull(items);
    RolesMirrorUserRoles(rt, token, fields, items);
    var r := ParseUserRolesFromJWT(rt, Some(token));
    forall i | 0 <= i < |r|
      ensures TypedClaim(r[i]).Some? &&
        RoleNameLabel(TypedClaim(r[i]).value.roleName) == items[i].fields["role_name"].str &&
        RoleTypeLabel(TypedClaim(r[i]).value.roleType) == items[i].fields["role_type"].str &&
        EntityValue(TypedClaim(r[i]).value.entityId) == Defined(items[i].fields["entity_id"])
    {
      WellFormedRoleIsTyped(items[i]);
    }
  }
}
