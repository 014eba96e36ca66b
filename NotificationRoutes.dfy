/** The notification routes (routes/notifications.js): POST validates the
    five fields, checks that the recipient exists, saves one record and then
    pushes it when the recipient has a push token and notifications on; GET
    lists a user's notifications newest first. */
module NotificationRoutes {
  import opened Common
  import opened IdentityProvider
  import opened UserModel
  import opened NotificationModel

  /** The body of a POST request. */
  datatype NotificationPayload = NotificationPayload(
    taskId: Option<string>, userId: Option<string>, action: Option<string>,
    title: Option<string>, body: Option<string>)

  predicate Complete(p: NotificationPayload)
  {
    Present(p.taskId) && Present(p.userId) && Present(p.action) && Present(p.title) && Present(p.body)
  }

  /** `user.fcmToken && user.notificationsEnabled`. */
  predicate WantsPush(u: User)
  {
    Present(u.fcmToken) && u.notificationsEnabled
  }

  /** POST / — 400 for a missing field, 404 for an unknown recipient, then
      one record is saved. A push is attempted only for a recipient that
      wants one; a failed push answers 500 but the record stays saved. */
  method PostNotification(notes: NotificationCollection, users: UserCollection, gateway: PushGateway,
                          p: NotificationPayload, now: Timestamp,
                          lookupFails: bool, saveFails: bool, pushFails: bool)
    returns (out: Outcome, saved: Option<Notification>)
    requires notes.Valid()
    modifies notes, gateway
    ensures notes.Valid()
    ensures out in {Ok, BadRequest, NotFound, ServerError}
    ensures out == BadRequest <==> !Complete(p)
    ensures Complete(p) && !lookupFails ==>
      (out == NotFound <==> FindById(users.users, p.userId.value).None?)
    ensures saved.None? ==> notes.items == old(notes.items) && gateway.attempts == old(gateway.attempts)
    ensures saved.Some? ==>
      && Complete(p) && !lookupFails && !saveFails
      && FindById(users.users, p.userId.value).Some?
      && saved.value == NewNotification(p.taskId.value, p.userId.value, p.action.value,
                                        p.title.value, p.body.value, Some(now), now)
      && notes.items == old(notes.items) + [saved.value]
    ensures Complete(p) && !lookupFails && !saveFails && FindById(users.users, p.userId.value).Some? ==> saved.Some?
    ensures out == Ok ==> saved.Some?
    ensures Complete(p) && (lookupFails || (FindById(users.users, p.userId.value).Some? && saveFails)) ==>
      out == ServerError && saved.None?
    ensures saved.Some? ==>
      var u := users.users[FindById(users.users, p.userId.value).value];
      && (WantsPush(u) ==> gateway.attempts == old(gateway.attempts) + [Push(p.title.value, p.body.value, u.fcmToken.value)])
      && (!WantsPush(u) ==> gateway.attempts == old(gateway.attempts))
      && out == (if WantsPush(u) && pushFails then ServerError else Ok)
  {
    if !Complete(p) {
      return BadRequest, None;
    }
    if lookupFails {
      return ServerError, None;
    }
    var found := FindById(users.users, p.userId.value);
    if found.None? {
      return NotFound, None;
    }
    var recipient := users.users[found.value];
    var n := NewNotification(p.taskId.value, p.userId.value, p.action.value, p.title.value, p.body.value, Some(now), now);
    if saveFails {
      return ServerError, None;
    }
    notes.items := notes.items + [n];
    saved := Some(n);
    if WantsPush(recipient) {
      gateway.attempts := gateway.attempts + [Push(p.title.value, p.body.value, recipient.fcmToken.value)];
      if pushFails {
        return ServerError, saved;
      }
    }
    out := Ok;
  }

  /** Newest first: creation times never increase along the sequence. */
  ghost predicate NewestFirst(s: seq<Notification>)
  {
    forall i, j :: 0 <= i < j < |s| ==> s[i].createdAt >= s[j].createdAt
  }

  /** Place `n` before the first element that is not newer than it. */
  function InsertByDate(n: Notification, s: seq<Notification>): (r: seq<Notification>)
    requires NewestFirst(s)
    ensures |r| == |s| + 1
    ensures r[0] == if s == [] || s[0].createdAt <= n.createdAt then n else s[0]
    ensures NewestFirst(r)
    ensures multiset(r) == multiset(s) + multiset{n}
  {
    if s == [] || s[0].createdAt <= n.createdAt then [n] + s
    else
      assert NewestFirst(s[1..]) by {
        forall i, j | 0 <= i < j < |s[1..]| ensures s[1..][i].createdAt >= s[1..][j].createdAt {
          assert s[1..][i] == s[i + 1] && s[1..][j] == s[j + 1];
        }
      }
      var rest := InsertByDate(n, s[1..]);
      var r := [s[0]] + rest;
      assert NewestFirst(r) by {
        forall i, j | 0 <= i < j < |r| ensures r[i].createdAt >= r[j].createdAt {
          assert r[j] == rest[j - 1];
          if i == 0 {
            assert rest[0].createdAt <= s[0].createdAt;
          } else {
            assert r[i] == rest[i - 1];
          }
        }
      }
      assert s == [s[0]] + s[1..];
      r
  }

  /** `.sort({ createdAt: -1 })`: the same records, newest first. */
  function SortNewestFirst(s: seq<Notification>): (r: seq<Notification>)
    ensures NewestFirst(r)
    ensures multiset(r) == multiset(s)
  {
    if s == [] then []
    else
      assert s == [s[0]] + s[1..];
      InsertByDate(s[0], SortNewestFirst(s[1..]))
  }

  /** GET /:userId — the recipient's notifications, newest first. */
  method ListNotifications(notes: NotificationCollection, userId: string, storeFails: bool)
    returns (out: Outcome, body: seq<Notification>)
    ensures out == (if storeFails then ServerError else Ok)
    ensures out != Ok ==> body == []
    ensures out == Ok ==> NewestFirst(body)
    ensures out == Ok ==> forall n :: n in body <==> n in notes.items && n.userId == userId
    ensures out == Ok ==> forall n :: multiset(body)[n] == if n.userId == userId then multiset(notes.items)[n] else 0
  {
    if storeFails {
      return ServerError, [];
    }
    var mine := Where(notes.items, (n: Notification) => n.userId == userId);
    body := SortNewestFirst(mine);
    assert forall n :: n in body <==> n in mine by {
      assert forall n :: n in body <==> n in multiset(body);
    }
    out := Ok;
  }
}
