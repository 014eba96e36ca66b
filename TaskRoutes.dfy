/** The task routes (routes/tasks.js), as operations on the Task collection.
    Each handler runs after the token gate has called `next`; the gate is
    not repeated here because no handler reads `req.user`. The caller's
    `createdBy` is trusted as sent, and updates match by id alone. */
module TaskRoutes {
  import opened Common
  import opened TaskModel

  /** GET /:userId — the stored tasks whose `createdBy` is the parameter. */
  method ListTasks(db: TaskCollection, userId: string, storeFails: bool)
    returns (out: Outcome, body: seq<Task>)
    ensures out == (if storeFails then ServerError else Ok)
    ensures out == Ok ==> forall t :: t in body <==> t in db.items && t.createdBy == userId
    ensures out == Ok ==> forall t :: multiset(body)[t] == if t.createdBy == userId then multiset(db.items)[t] else 0
    ensures out == Ok ==> body == OwnedBy(db.items, userId)
    ensures out != Ok ==> body == []
  {
    if storeFails {
      return ServerError, [];
    }
    out, body := Ok, OwnedBy(db.items, userId);
  }

  /** POST / — 400 unless title, description and createdBy are present; then
      the document built with the fresh id and the uploaded paths is saved,
      which fails (500) on a schema violation, an id already in use, or a
      store error. */
  method CreateTask(db: TaskCollection, p: TaskPayload, files: seq<string>, freshId: string,
                    now: Timestamp, storeFails: bool)
    returns (out: Outcome, created: Option<Task>)
    requires db.Valid()
    modifies db
    ensures db.Valid()
    ensures out == BadRequest <==> !(Present(p.title) && Present(p.description) && Present(p.createdBy))
    ensures out == Created <==>
      Present(p.title) && Present(p.description) && Present(p.createdBy)
      && NewTask(p, freshId, files, now).Some? && freshId !in Ids(old(db.items)) && !storeFails
    ensures out in {Created, BadRequest, ServerError}
    ensures out == Created ==>
      && created == NewTask(p, freshId, files, now)
      && db.items == old(db.items) + [created.value]
    ensures out != Created ==> created.None? && db.items == old(db.items)
  {
    if !(Present(p.title) && Present(p.description) && Present(p.createdBy)) {
      return BadRequest, None;
    }
    var doc := NewTask(p, freshId, files, now);
    if doc.None? || freshId in Ids(db.items) || storeFails {
      return ServerError, None;
    }
    AppendFreshKeepsUnique(db.items, doc.value);
    db.items := db.items + [doc.value];
    out, created := Created, doc;
  }

  /** PUT /:id — merge the payload into the task with that id; 404 and no
      change when there is none. */
  method UpdateTask(db: TaskCollection, id: string, p: TaskPayload, files: seq<string>,
                    now: Timestamp, storeFails: bool)
    returns (out: Outcome, updated: Option<Task>)
    requires db.Valid()
    modifies db
    ensures db.Valid()
    ensures out in {Ok, NotFound, ServerError}
    ensures storeFails ==> out == ServerError
    ensures out != Ok ==> updated.None? && db.items == old(db.items)
    ensures !storeFails ==> match FirstIndex(old(db.items), (t: Task) => t.id == id)
      case None => out == NotFound
      case Some(i) =>
        && out == Ok
        && updated == Some(MergeUpdate(old(db.items)[i], p, files, now))
        && db.items == old(db.items)[i := updated.value]
  {
    if storeFails {
      return ServerError, None;
    }
    var found := FirstIndex(db.items, (t: Task) => t.id == id);
    if found.None? {
      return NotFound, None;
    }
    var i := found.value;
    var doc := MergeUpdate(db.items[i], p, files, now);
    ReplaceKeepsUnique(db.items, i, doc);
    db.items := db.items[i := doc];
    out, updated := Ok, Some(doc);
  }

  /** The task an update by `id` rewrites is the only one with that id, and
      every other task is left as it was. */
  lemma {:induction false} UpdateTouchesOnlyMatch(tasks: seq<Task>, id: string, i: nat, doc: Task)
    requires UniqueIds(tasks)
    requires FirstIndex(tasks, (t: Task) => t.id == id) == Some(i)
    ensures forall k :: 0 <= k < |tasks| && k != i ==> tasks[k].id != id && tasks[i := doc][k] == tasks[k]
  {
  }

  /** DELETE /:id — 400 without `createdBy`; otherwise remove the first task
      matching both id and owner. A missing id and a wrong owner both give
      the same 404. */
  method DeleteTask(db: TaskCollection, id: string, createdBy: Option<string>, storeFails: bool)
    returns (out: Outcome)
    requires db.Valid()
    modifies db
    ensures db.Valid()
    ensures out in {Ok, BadRequest, NotFound, ServerError}
    ensures out == BadRequest <==> !Present(createdBy)
    ensures out != Ok ==> db.items == old(db.items)
    ensures Present(createdBy) && !storeFails ==>
      match FirstIndex(old(db.items), (t: Task) => t.id == id && t.createdBy == createdBy.value)
      case None => out == NotFound
      case Some(i) => out == Ok && db.items == Without(old(db.items), i)
    ensures Present(createdBy) && storeFails ==> out == ServerError
  {
    if !Present(createdBy) {
      return BadRequest;
    }
    if storeFails {
      return ServerError;
    }
    var owner := createdBy.value;
    var found := FirstIndex(db.items, (t: Task) => t.id == id && t.createdBy == owner);
    if found.None? {
      return NotFound;
    }
    RemoveKeepsOthers(db.items, found.value);
    db.items := Without(db.items, found.value);
    out := Ok;
  }

  /** The delete predicate finds nothing exactly when no task has that id or
      the task with that id belongs to someone else: the two cases are not
      told apart. */
  lemma {:induction false} DeleteMissIsMissingOrForeign(tasks: seq<Task>, id: string, owner: string)
    requires UniqueIds(tasks)
    ensures FirstIndex(tasks, (t: Task) => t.id == id && t.createdBy == owner).None? <==>
      (id !in Ids(tasks) || exists k :: 0 <= k < |tasks| && tasks[k].id == id && tasks[k].createdBy != owner)
  {
    var found := FirstIndex(tasks, (t: Task) => t.id == id && t.createdBy == owner);
    if found.None? && id in Ids(tasks) {
      var k :| 0 <= k < |tasks| && tasks[k].id == id;
      assert !(tasks[k].id == id && tasks[k].createdBy == owner);
    }
  }

  /** A hardened create that ignores the payload's owner and records the
      authenticated caller instead (not what the route does). */
  method CreateTaskAsCaller(db: TaskCollection, caller: string, p: TaskPayload, files: seq<string>,
                            freshId: string, now: Timestamp, storeFails: bool)
    returns (out: Outcome, created: Option<Task>)
    requires db.Valid()
    modifies db
    ensures db.Valid()
    ensures out == Created <==>
      Present(p.title) && Present(p.description) && caller != ""
      && NewTask(p.(createdBy := Some(caller)), freshId, files, now).Some?
      && freshId !in Ids(old(db.items)) && !storeFails
    ensures out == Created ==> created.Some? && created.value.createdBy == caller
    ensures out == Created ==> created == NewTask(p.(createdBy := Some(caller)), freshId, files, now)
    ensures out == Created ==> db.items == old(db.items) + [created.value]
    ensures out != Created ==> db.items == old(db.items)
  {
    out, created := CreateTask(db, p.(createdBy := Some(caller)), files, freshId, now, storeFails);
  }
}
