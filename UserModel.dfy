/** The User schema (models/User.js) and the User collection: ids and emails
    are unique across stored users; `notificationsEnabled` defaults to true
    and `role` to "user"; avatar and push token are optional. */
module UserModel {
  import opened Common

  datatype User = User(
    id: string,
    username: string,
    email: string,
    avatar: Option<string>,
    fcmToken: Option<string>,
    notificationsEnabled: bool,
    role: string,
    createdAt: Timestamp,
    lastActive: Timestamp)

  const DefaultRole: string := "user"

  /** The document `new User({...})` builds: the given fields, and the schema
      defaults for notifications (on), role ("user") and the two dates. */
  function NewUser(id: string, username: string, email: string, avatar: Option<string>,
                   fcmToken: Option<string>, role: Option<string>, now: Timestamp): (u: User)
    ensures u.id == id && u.username == username && u.email == email
    ensures u.avatar == avatar && u.fcmToken == fcmToken
    ensures u.notificationsEnabled
    ensures u.role == (if role.Some? then role.value else DefaultRole)
    ensures u.createdAt == now && u.lastActive == now
  {
    User(id, username, email, avatar, fcmToken, true,
         if role.Some? then role.value else DefaultRole, now, now)
  }

  /** The required fields are non-empty strings. */
  predicate HasRequiredFields(u: User)
  {
    u.id != "" && u.username != "" && u.email != ""
  }

  /** The two unique indexes: no two stored users share an id or an email. */
  ghost predicate UniqueUsers(users: seq<User>)
  {
    forall i, j :: 0 <= i < j < |users| ==> users[i].id != users[j].id && users[i].email != users[j].email
  }

  /** Whether `save()` of a new document passes validation and both unique
      indexes. */
  predicate Insertable(users: seq<User>, u: User)
  {
    HasRequiredFields(u) && forall k :: 0 <= k < |users| ==> users[k].id != u.id && users[k].email != u.email
  }

  /** The first stored user with the given id (`findOne({ id })`). */
  function FindById(users: seq<User>, id: string): (r: Option<nat>)
    ensures r.Some? ==> r.value < |users| && users[r.value].id == id
    ensures r.None? <==> forall k :: 0 <= k < |users| ==> users[k].id != id
  {
    FirstIndex(users, (u: User) => u.id == id)
  }

  /** The first stored user with the given email (`findOne({ email })`). */
  function FindByEmail(users: seq<User>, email: string): (r: Option<nat>)
    ensures r.Some? ==> r.value < |users| && users[r.value].email == email
    ensures r.None? <==> forall k :: 0 <= k < |users| ==> users[k].email != email
  {
    FirstIndex(users, (u: User) => u.email == email)
  }

  /** Inserting an insertable user keeps both indexes unique. */
  lemma {:induction false} InsertKeepsUnique(users: seq<User>, u: User)
    requires UniqueUsers(users) && Insertable(users, u)
    ensures UniqueUsers(users + [u])
  {
    var s := users + [u];
    forall i, j | 0 <= i < j < |s| ensures s[i].id != s[j].id && s[i].email != s[j].email {
      if j == |users| {
        assert s[i] == users[i];
      }
    }
  }

  /** Changing a user's role touches neither index. */
  lemma {:induction false} SetRoleKeepsUnique(users: seq<User>, i: nat, role: string)
    requires UniqueUsers(users) && i < |users|
    ensures UniqueUsers(users[i := users[i].(role := role)])
  {
  }

  /** The User collection (the Mongoose model). */
  class UserCollection {
    var users: seq<User>

    ghost predicate Valid()
      reads this
    {
      UniqueUsers(users)
    }

    constructor()
      ensures Valid() && users == []
    {
      users := [];
    }
  }
}
