/** The auth routes (routes/auth.js): the admin guard, registration (an
    identity, then a user document, then the role claim), the login lookup,
    and the admin-only role update (the user document, then the claim).
    Errors thrown inside a handler's try block are answered with 400, as the
    route does. */
module AuthRoutes {
  import opened Common
  import opened IdentityProvider
  import opened UserModel
  import opened TokenAuth

  const AdminRole: string := "admin"

  /** `isAdmin`: the request goes on only when the decoded token's role is
      "admin"; otherwise the answer is 403. */
  function AdminGuard(user: Claims): (d: Option<Outcome>)
    ensures d.None? <==> user.role == Some(AdminRole)
    ensures d.Some? ==> d.value == Forbidden
  {
    if user.role == Some(AdminRole) then None else Some(Forbidden)
  }

  /** POST /register. Registration is not undone on a later failure: an
      identity created before the user document fails to save stays. */
  method Register(idp: Provider, users: UserCollection,
                  email: Option<string>, password: Option<string>, username: Option<string>,
                  newUid: string, now: Timestamp,
                  providerRejects: bool, saveFails: bool, claimFails: bool)
    returns (out: Outcome)
    requires idp.Valid() && users.Valid()
    modifies idp, users
    ensures idp.Valid() && users.Valid()
    ensures out in {Created, BadRequest}
    ensures !(Present(email) && Present(password) && Present(username)) ==>
      out == BadRequest && idp.accounts == old(idp.accounts) && users.users == old(users.users)
      && idp.roleClaims == old(idp.roleClaims)
    ensures users.users != old(users.users) ==>
      && Present(email) && Present(password) && Present(username)
      && users.users == old(users.users) + [NewUser(newUid, username.value, email.value, Some(""), None, Some(DefaultRole), now)]
    ensures out == Created ==>
      && Present(email) && Present(password) && Present(username)
      && idp.accounts == old(idp.accounts) + [Account(newUid, email.value, password.value, username.value)]
      && users.users == old(users.users) + [NewUser(newUid, username.value, email.value, Some(""), None, Some(DefaultRole), now)]
      && idp.roleClaims == old(idp.roleClaims)[newUid := DefaultRole]
    ensures out == Created <==>
      Present(email) && Present(password) && Present(username)
      && !providerRejects && AccountAvailable(old(idp.accounts), newUid, email.value)
      && !saveFails && Insertable(old(users.users), NewUser(newUid, username.value, email.value, Some(""), None, Some(DefaultRole), now))
      && !claimFails
    ensures out != Created ==> idp.roleClaims == old(idp.roleClaims)
    ensures idp.accounts != old(idp.accounts) ==>
      && Present(email) && Present(password) && Present(username)
      && idp.accounts == old(idp.accounts) + [Account(newUid, email.value, password.value, username.value)]
    // a rejected createUser writes nothing, and a failed save adds no user
    ensures idp.accounts != old(idp.accounts) ==>
      && Present(email) && Present(password) && Present(username)
      && !providerRejects && AccountAvailable(old(idp.accounts), newUid, email.value)
    ensures users.users != old(users.users) ==>
      && Present(email) && Present(password) && Present(username)
      && !providerRejects && AccountAvailable(old(idp.accounts), newUid, email.value)
      && !saveFails && Insertable(old(users.users), NewUser(newUid, username.value, email.value, Some(""), None, Some(DefaultRole), now))
    // nothing is rolled back: the identity stays once created, whatever
    // fails after it, and so does the saved user document
    ensures Present(email) && Present(password) && Present(username)
            && !providerRejects && AccountAvailable(old(idp.accounts), newUid, email.value) ==>
      idp.accounts == old(idp.accounts) + [Account(newUid, email.value, password.value, username.value)]
    ensures Present(email) && Present(password) && Present(username)
            && !providerRejects && AccountAvailable(old(idp.accounts), newUid, email.value)
            && !saveFails && Insertable(old(users.users), NewUser(newUid, username.value, email.value, Some(""), None, Some(DefaultRole), now)) ==>
      users.users == old(users.users) + [NewUser(newUid, username.value, email.value, Some(""), None, Some(DefaultRole), now)]
    // the claim carries the role stored in the new user document
    ensures out == Created ==> |users.users| > 0 && idp.roleClaims[newUid] == users.users[|users.users| - 1].role
  {
    if !(Present(email) && Present(password) && Present(username)) {
      return BadRequest;
    }
    // createUser
    if providerRejects || !AccountAvailable(idp.accounts, newUid, email.value) {
      return BadRequest;
    }
    var account := Account(newUid, email.value, password.value, username.value);
    AddAccountKeepsUnique(idp.accounts, account);
    idp.accounts := idp.accounts + [account];
    // newUser.save()
    var u := NewUser(newUid, username.value, email.value, Some(""), None, Some(DefaultRole), now);
    if saveFails || !Insertable(users.users, u) {
      return BadRequest;
    }
    InsertKeepsUnique(users.users, u);
    users.users := users.users + [u];
    // setCustomUserClaims(uid, { role: newUser.role })
    if claimFails {
      return BadRequest;
    }
    assert idp.accounts[|idp.accounts| - 1].uid == newUid;
    idp.roleClaims := idp.roleClaims[newUid := u.role];
    out := Created;
  }

  /** POST /login — 400 without an email, 404 when no user has it, and the
      stored user otherwise. */
  method Login(users: UserCollection, email: Option<string>, storeFails: bool)
    returns (out: Outcome, user: Option<User>)
    ensures out in {Ok, BadRequest, NotFound}
    ensures out == BadRequest <==> !Present(email) || storeFails
    ensures out == NotFound <==> Present(email) && !storeFails && forall k :: 0 <= k < |users.users| ==> users.users[k].email != email.value
    ensures out == Ok ==> user.Some? && user.value in users.users && user.value.email == email.value
    ensures out != Ok ==> user.None?
  {
    if !Present(email) {
      return BadRequest, None;
    }
    if storeFails {
      return BadRequest, None;
    }
    var found := FindByEmail(users.users, email.value);
    if found.None? {
      return NotFound, None;
    }
    out, user := Ok, Some(users.users[found.value]);
  }

  /** Whether an update-role request gets as far as writing the user
      document: an admin caller, non-empty id and role, and a stored user
      with that id. */
  predicate RoleWriteReached(header: Option<string>, verdicts: map<string, Claims>, id: string,
                             role: Option<string>, storeFails: bool, users: seq<User>)
  {
    && Authenticate(header, verdicts).Proceed?
    && Authenticate(header, verdicts).user.role == Some(AdminRole)
    && id != "" && Present(role) && !storeFails
    && FindById(users, id).Some?
  }

  /** PUT /update-role/:id — the token gate, the admin guard, then 400
      unless id and role are non-empty (any role is accepted), 404 for an
      unknown id, then the user document is written before the claim. A
      failed claim write answers 400 and leaves the document written. */
  method UpdateRoleRoute(idp: Provider, users: UserCollection,
                         header: Option<string>, verdicts: map<string, Claims>,
                         id: string, role: Option<string>,
                         storeFails: bool, claimFails: bool)
    returns (out: Outcome)
    requires idp.Valid() && users.Valid()
    modifies idp, users
    ensures idp.Valid() && users.Valid()
    ensures idp.accounts == old(idp.accounts)
    ensures out in {Ok, BadRequest, Unauthorized, Forbidden, NotFound}
    ensures match Authenticate(header, verdicts)
      case Reject(o) => out == o
      case Proceed(caller) => caller.role != Some(AdminRole) ==> out == Forbidden
    ensures out in {Unauthorized, Forbidden, NotFound} ==> users.users == old(users.users)
    ensures Authenticate(header, verdicts).Proceed? && Authenticate(header, verdicts).user.role == Some(AdminRole) ==>
      && ((id == "" || !Present(role)) ==> out == BadRequest)
      && (id != "" && Present(role) && !storeFails && FindById(old(users.users), id).None? ==> out == NotFound)
      && (id != "" && Present(role) && storeFails ==> out == BadRequest && users.users == old(users.users))
    ensures RoleWriteReached(header, verdicts, id, role, storeFails, old(users.users)) ==>
      var i := FindById(old(users.users), id).value;
      users.users == old(users.users)[i := old(users.users)[i].(role := role.value)]
    ensures !RoleWriteReached(header, verdicts, id, role, storeFails, old(users.users)) ==>
      users.users == old(users.users)
    ensures out == Ok <==>
      RoleWriteReached(header, verdicts, id, role, storeFails, old(users.users))
      && !claimFails && HasAccount(old(idp.accounts), id)
    ensures RoleWriteReached(header, verdicts, id, role, storeFails, old(users.users))
            && (claimFails || !HasAccount(old(idp.accounts), id)) ==>
      out == BadRequest
    ensures out == Ok ==> idp.roleClaims == old(idp.roleClaims)[id := role.value]
    ensures out != Ok ==> idp.roleClaims == old(idp.roleClaims)
  {
    var d := Authenticate(header, verdicts);
    if d.Reject? {
      return d.out;
    }
    var guard := AdminGuard(d.user);
    if guard.Some? {
      return guard.value;
    }
    if id == "" || !Present(role) {
      return BadRequest;
    }
    if storeFails {
      return BadRequest;
    }
    var found := FindById(users.users, id);
    if found.None? {
      return NotFound;
    }
    var i := found.value;
    SetRoleKeepsUnique(users.users, i, role.value);
    users.users := users.users[i := users.users[i].(role := role.value)];
    if claimFails || !HasAccount(idp.accounts, id) {
      return BadRequest;
    }
    idp.roleClaims := idp.roleClaims[id := role.value];
    out := Ok;
  }
}
