/**
 * The data definitions the core takes from the generated database types: the
 * `Json` value type and the two role enumerations of the `public` schema.
 */
module DbTypes {
  import opened Wrappers

  /**
   * A JSON value. A JSON number is a finite double; it is kept as a `real`,
   * since the core only tests numbers for being zero. An object's member
   * order is not observable here and duplicate member names collapse, as
   * `JSON.parse` keeps the last one.
   */
  datatype Json =
    | JString(str: string)
    | JNumber(num: real)
    | JBool(boolean: bool)
    | JNull
    | JObject(fields: map<string, Json>)
    | JArray(items: seq<Json>)

  datatype RoleName =
    | Owner | Admin | Editor | Gis | Viewer | Moderator | Member | SystemAdmin | SystemModerator

  datatype RoleType = Project | Community | Global

  /** The enum label stored in the database and carried in the token. */
  function RoleNameLabel(n: RoleName): string
  {
    match n
    case Owner => "owner"
    case Admin => "admin"
    case Editor => "editor"
    case Gis => "gis"
    case Viewer => "viewer"
    case Moderator => "moderator"
    case Member => "member"
    case SystemAdmin => "system_admin"
    case SystemModerator => "system_moderator"
  }

  function RoleTypeLabel(t: RoleType): string
  {
    match t
    case Project => "project"
    case Community => "community"
    case Global => "global"
  }

  /** Reads an enum label; exactly the nine labels are accepted. */
  function ParseRoleName(s: string): (r: Option<RoleName>)
    ensures r.Some? ==> RoleNameLabel(r.value) == s
    ensures forall n: RoleName :: RoleNameLabel(n) == s ==> r == Some(n)
  {
    if s == "owner" then Some(Owner)
    else if s == "admin" then Some(Admin)
    else if s == "editor" then Some(Editor)
    else if s == "gis" then Some(Gis)
    else if s == "viewer" then Some(Viewer)
    else if s == "moderator" then Some(Moderator)
    else if s == "member" then Some(Member)
    else if s == "system_admin" then Some(SystemAdmin)
    else if s == "system_moderator" then Some(SystemModerator)
    else None
  }

  /** Reads a role-type label; exactly the three labels are accepted. */
  function ParseRoleType(s: string): (r: Option<RoleType>)
    ensures r.Some? ==> RoleTypeLabel(r.value) == s
    ensures forall t: RoleType :: RoleTypeLabel(t) == s ==> r == Some(t)
  {
    if s == "project" then Some(Project)
    else if s == "community" then Some(Community)
    else if s == "global" then Some(Global)
    else None
  }
}
