/** The user record of the users service and its role name with prefix. */
module Users {
  import opened Wrappers

  /** A stored user; every field is a Java reference and may be null. */
  datatype UserEntity = UserEntity(
    id: Option<string>,
    firstName: Option<string>,
    lastName: Option<string>,
    email: Option<string>,
    password: Option<string>,
    role: Option<string>)

  const RolePrefix := "ROLE_"

  /** What Java's string concatenation appends for a reference: its text, or "null". */
  function Concatenated(s: Option<string>): string {
    match s
    case Some(text) => text
    case None => "null"
  }

  /** `getRoleWithPrefix`. */
  function RoleWithPrefix(user: UserEntity): (r: string)
    ensures |r| == |RolePrefix| + |Concatenated(user.role)|
    ensures r[..|RolePrefix|] == RolePrefix
    ensures r[|RolePrefix|..] == Concatenated(user.role)
    ensures user.role.Some? ==> r[|RolePrefix|..] == user.role.value
  {
    RolePrefix + Concatenated(user.role)
  }

  /** Over non-null roles, the prefixed name determines the role. */
  lemma RoleWithPrefixInjective(u: UserEntity, v: UserEntity)
    requires u.role.Some? && v.role.Some?
    requires RoleWithPrefix(u) == RoleWithPrefix(v)
    ensures u.role == v.role
  {
  }

  /** A null role and the role "null" give the same prefixed name. */
  lemma NullRoleCollides(u: UserEntity, v: UserEntity)
    requires u.role == None && v.role == Some("null")
    ensures RoleWithPrefix(u) == RoleWithPrefix(v) == "ROLE_null"
  {
  }
}
