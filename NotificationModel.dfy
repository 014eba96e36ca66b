/** The Notification schema (models/Notification.js) and its collection:
    task id, recipient, action, title and body are required; `createdAt`
    defaults to the creation time. */
module NotificationModel {
  import opened Common

  datatype Notification = Notification(
    taskId: string,
    userId: string,
    action: string,
    title: string,
    body: string,
    createdAt: Timestamp)

  /** The required fields are non-empty strings. */
  predicate HasRequiredFields(n: Notification)
  {
    n.taskId != "" && n.userId != "" && n.action != "" && n.title != "" && n.body != ""
  }

  /** The document `new Notification({...})` builds; when no creation time is
      given the schema stamps the current one. */
  function NewNotification(taskId: string, userId: string, action: string, title: string,
                           body: string, createdAt: Option<Timestamp>, now: Timestamp): (n: Notification)
    ensures n.taskId == taskId && n.userId == userId && n.action == action
    ensures n.title == title && n.body == body
    ensures n.createdAt == (if createdAt.Some? then createdAt.value else now)
    ensures taskId != "" && userId != "" && action != "" && title != "" && body != "" ==> HasRequiredFields(n)
  {
    Notification(taskId, userId, action, title, body,
                 if createdAt.Some? then createdAt.value else now)
  }

  /** The Notification collection (the Mongoose model). Records are only ever
      appended. */
  class NotificationCollection {
    var items: seq<Notification>

    ghost predicate Valid()
      reads this
    {
      forall k :: 0 <= k < |items| ==> HasRequiredFields(items[k])
    }

    constructor()
      ensures Valid() && items == []
    {
      items := [];
    }
  }
}
