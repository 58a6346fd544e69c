/** The module-access decision of the access-check handler, once the user
    has been found and its role expanded. */
module Access {
  import opened Values
  import opened Roles
  import opened Users

  /** An inactive account is refused before the role is looked at; an active
      one is granted exactly when it has a role whose `accessModules` holds
      the module name (exact, case-sensitive element); otherwise no access. */
  function Decide(user: User, role: Option<Role>, moduleName: string): (r: Result<()>)
    ensures !user.active ==> r == Err(Inactive)
    ensures user.active ==> (r.Ok? <==> role.Some? && moduleName in role.value.accessModules)
    ensures user.active && r.Err? ==> r.error == NoAccess
  {
    if !user.active then Err(Inactive)
    else if role.Some? && moduleName in role.value.accessModules then Ok(())
    else Err(NoAccess)
  }
}
