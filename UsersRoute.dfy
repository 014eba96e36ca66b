/** The user listing with task counts (server.js, GET /api/users): behind
    the token gate, one entry per stored user in store order, each holding
    the projection of exactly the tasks that user created and their number. */
module UsersRoute {
  import opened Common
  import opened IdentityProvider
  import opened TaskModel
  import opened UserModel
  import opened TokenAuth

  /** A task as the listing serialises it; the due date is null when absent. */
  datatype TaskView = TaskView(
    id: string, createdBy: string, title: string, description: string, status: string,
    priority: int, dueDate: Option<Timestamp>, createdAt: Timestamp, updatedAt: Timestamp,
    assignedTo: Option<string>, category: string, attachments: seq<string>, completed: bool)

  datatype UserSummary = UserSummary(
    id: string, email: string, username: string, avatar: Option<string>, role: string,
    tasks: seq<TaskView>, taskCount: nat, createdAt: Timestamp, lastActive: Timestamp)

  function ViewOf(t: Task): (v: TaskView)
    ensures v.id == t.id && v.createdBy == t.createdBy && v.dueDate == t.dueDate
  {
    TaskView(t.id, t.createdBy, t.title, t.description, t.status, t.priority, t.dueDate,
             t.createdAt, t.updatedAt, t.assignedTo, t.category, t.attachments, t.completed)
  }

  function Views(tasks: seq<Task>): (r: seq<TaskView>)
    ensures |r| == |tasks|
    ensures forall k :: 0 <= k < |tasks| ==> r[k] == ViewOf(tasks[k])
  {
    if tasks == [] then [] else [ViewOf(tasks[0])] + Views(tasks[1..])
  }

  /** One user's entry. */
  function SummaryOf(u: User, tasks: seq<Task>): (s: UserSummary)
    ensures s.id == u.id && s.email == u.email && s.role == u.role
    ensures s.taskCount == |s.tasks|
    ensures forall v :: v in s.tasks ==> v.createdBy == u.id
  {
    var mine := Views(OwnedBy(tasks, u.id));
    UserSummary(u.id, u.email, u.username, u.avatar, u.role, mine, |mine|, u.createdAt, u.lastActive)
  }

  /** The entries of all users, in store order. */
  function Summaries(users: seq<User>, tasks: seq<Task>): (r: seq<UserSummary>)
    ensures |r| == |users|
    ensures forall k :: 0 <= k < |users| ==> r[k] == SummaryOf(users[k], tasks)
  {
    if users == [] then [] else [SummaryOf(users[0], tasks)] + Summaries(users[1..], tasks)
  }

  /** Each entry lists exactly the tasks created by that user, one view per
      task, and counts them. */
  lemma {:induction false} SummaryListsOwnTasks(users: seq<User>, tasks: seq<Task>, k: nat)
    requires k < |users|
    ensures var s := Summaries(users, tasks)[k];
      && s.id == users[k].id
      && s.taskCount == |OwnedBy(tasks, users[k].id)|
      && (forall v :: v in s.tasks ==> v.createdBy == users[k].id)
      && (forall t :: t in tasks && t.createdBy == users[k].id ==> ViewOf(t) in s.tasks)
  {
    var s := Summaries(users, tasks)[k];
    var mine := OwnedBy(tasks, users[k].id);
    forall t | t in tasks && t.createdBy == users[k].id ensures ViewOf(t) in s.tasks {
      assert t in mine;
      var i :| 0 <= i < |mine| && mine[i] == t;
      assert s.tasks[i] == ViewOf(t);
    }
  }

  /** The handler: 401 without a token, 403 for a rejected one, 500 when the
      store fails, and the summaries otherwise. */
  method GetUsers(users: UserCollection, db: TaskCollection, header: Option<string>,
                  verdicts: map<string, Claims>, storeFails: bool)
    returns (out: Outcome, body: seq<UserSummary>)
    ensures out in {Ok, Unauthorized, Forbidden, ServerError}
    ensures out == Unauthorized <==> ExtractToken(header).None?
    ensures out == Forbidden <==> ExtractToken(header).Some? && ExtractToken(header).value !in verdicts
    ensures out == ServerError <==> Authenticate(header, verdicts).Proceed? && storeFails
    ensures out != Ok ==> body == []
    ensures out == Ok ==> body == Summaries(users.users, db.items)
    ensures out == Ok ==> |body| == |users.users|
    ensures out == Ok ==> forall k :: 0 <= k < |body| ==>
      && body[k].id == users.users[k].id
      && body[k].taskCount == |OwnedBy(db.items, users.users[k].id)|
      && body[k].taskCount == |body[k].tasks|
  {
    var d := Authenticate(header, verdicts);
    if d.Reject? {
      return d.out, [];
    }
    if storeFails {
      return ServerError, [];
    }
    out, body := Ok, Summaries(users.users, db.items);
  }
}
