/** The role administration routine (updateRole.js, `updateUserRole`):
    whitelist the role, look the user up, save the new role, then set the
    `role` claim. Every failure is passed back to the caller. */
module RoleAdmin {
  import opened IdentityProvider
  import opened UserModel

  const AllowedRoles: set<string> := {"user", "admin"}

  datatype RoleError = InvalidRole | UserNotFound | StoreError | ClaimsError

  /** The settled result of the returned promise. */
  datatype RoleResult = Done | Failed(error: RoleError)

  method UpdateUserRole(users: UserCollection, idp: Provider, userId: string, newRole: string,
                        lookupFails: bool, saveFails: bool, claimFails: bool)
    returns (r: RoleResult)
    requires users.Valid() && idp.Valid()
    modifies users, idp
    ensures users.Valid() && idp.Valid()
    ensures idp.accounts == old(idp.accounts)
    // the whitelist comes before any lookup or write
    ensures newRole !in AllowedRoles ==>
      r == Failed(InvalidRole) && users.users == old(users.users) && idp.roleClaims == old(idp.roleClaims)
    ensures newRole in AllowedRoles && lookupFails ==>
      r == Failed(StoreError) && users.users == old(users.users) && idp.roleClaims == old(idp.roleClaims)
    ensures newRole in AllowedRoles && !lookupFails && FindById(old(users.users), userId).None? ==>
      r == Failed(UserNotFound) && users.users == old(users.users) && idp.roleClaims == old(idp.roleClaims)
    ensures newRole in AllowedRoles && !lookupFails && FindById(old(users.users), userId).Some? && saveFails ==>
      r == Failed(StoreError) && users.users == old(users.users) && idp.roleClaims == old(idp.roleClaims)
    ensures newRole in AllowedRoles && !lookupFails && FindById(old(users.users), userId).Some? && !saveFails
            && (claimFails || !HasAccount(idp.accounts, userId)) ==>
      r == Failed(ClaimsError)
    ensures r == Done <==>
      newRole in AllowedRoles && !lookupFails && FindById(old(users.users), userId).Some?
      && !saveFails && !claimFails && HasAccount(idp.accounts, userId)
    ensures r == Done ==>
      var i := FindById(old(users.users), userId).value;
      && users.users == old(users.users)[i := old(users.users)[i].(role := newRole)]
      && users.users[i].role == newRole
      && idp.roleClaims == old(idp.roleClaims)[userId := newRole]
    ensures r != Done ==> idp.roleClaims == old(idp.roleClaims)
    // the user document is saved before the claim is set: a failed claim
    // write leaves the saved role in place
    ensures r == Failed(ClaimsError) ==>
      var i := FindById(old(users.users), userId).value;
      users.users == old(users.users)[i := old(users.users)[i].(role := newRole)]
  {
    if newRole !in AllowedRoles {
      return Failed(InvalidRole);
    }
    if lookupFails {
      return Failed(StoreError);
    }
    var found := FindById(users.users, userId);
    if found.None? {
      return Failed(UserNotFound);
    }
    var i := found.value;
    if saveFails {
      return Failed(StoreError);
    }
    SetRoleKeepsUnique(users.users, i, newRole);
    users.users := users.users[i := users.users[i].(role := newRole)];
    if claimFails || !HasAccount(idp.accounts, userId) {
      return Failed(ClaimsError);
    }
    idp.roleClaims := idp.roleClaims[userId := newRole];
    r := Done;
  }
}
