/** The claims of an authenticated caller, read from its token. */
module Identity {
  import opened Wrappers

  const AdminRole: string := "Admin"

  /**
    The first NameIdentifier claim and the first Role claim, each None when the
    token has no such claim.
   */
  datatype Principal = Principal(nameIdentifier: Option<string>, role: Option<string>)

  /** The "AdminOnly" policy: the role claim is "Admin"; a token without a role claim never passes. */
  predicate IsAdmin(caller: Principal)
    ensures IsAdmin(caller) ==> caller.role.Some? && caller.role.value == AdminRole
    ensures caller.role.None? ==> !IsAdmin(caller)
  {
    caller.role == Some(AdminRole)
  }
}
