/** The Task schema (models/Task.js): the priority setter, the status enum,
    the field defaults and required fields, and the Task collection whose
    documents carry unique ids. */
module TaskModel {
  import opened Common

  // ---------------------------------------------------------------------------
  // Priority

  /** The JSON values a payload can carry in the priority field. Numbers are
      integral; `Undefined` is an absent field. */
  datatype JsValue = Str(s: string) | Num(n: int) | Bool(b: bool) | Null | Undefined

  type Priority = p: int | 1 <= p <= 3 witness 1

  function DigitChar(d: nat): (c: char)
    requires d < 10
    ensures '0' <= c <= '9'
  {
    "0123456789"[d]
  }

  /** The decimal digits of a natural number, most significant first. */
  function Digits(n: nat): (r: string)
    ensures 1 <= |r|
    ensures n < 10 <==> |r| == 1
    ensures forall i :: 0 <= i < |r| ==> '0' <= r[i] <= '9'
  {
    if n < 10 then [DigitChar(n)] else Digits(n / 10) + [DigitChar(n % 10)]
  }

  /** How JavaScript's `String(n)` writes an integral number. */
  function Decimal(n: int): string
  {
    if n < 0 then "-" + Digits(-n) else Digits(n)
  }

  /** The property key a value is converted to when it indexes an object. */
  function PropertyKey(v: JsValue): string
  {
    match v
    case Str(s) => s
    case Num(n) => Decimal(n)
    case Bool(b) => if b then "true" else "false"
    case Null => "null"
    case Undefined => "undefined"
  }

  /** The own entries of the setter's `priorityMap` literal. */
  function OwnLevel(key: string): Option<Priority>
  {
    if key == "low" || key == "1" then Some(1)
    else if key == "medium" || key == "2" then Some(2)
    else if key == "high" || key == "3" then Some(3)
    else None
  }

  /** Names that every object literal inherits from Object.prototype; looking
      one of them up yields a function or an object, never undefined. */
  const InheritedNames: set<string> := {
    "constructor", "hasOwnProperty", "isPrototypeOf", "propertyIsEnumerable",
    "toLocaleString", "toString", "valueOf", "__proto__",
    "__defineGetter__", "__defineSetter__", "__lookupGetter__", "__lookupSetter__"
  }

  /** What `priorityMap[v] || 1` evaluates to. */
  datatype SetterResult = Level(p: int) | PrototypeMember(name: string)

  /** The setter as written: an inherited member is truthy, so it is
      returned in place of the fallback 1. */
  function PrioritySetterAsWritten(v: JsValue): SetterResult
  {
    var key := PropertyKey(v);
    match OwnLevel(key)
    case Some(p) => Level(p)
    case None => if key in InheritedNames then PrototypeMember(key) else Level(1)
  }

  /** The setter as intended: the table's own entries, and 1 for anything
      else. */
  function NormalizePriority(v: JsValue): (p: int)
    ensures 1 <= p <= 3
  {
    match OwnLevel(PropertyKey(v))
    case Some(p) => p
    case None => 1
  }

  lemma {:induction false} DecimalOfDigit(n: int)
    requires 0 <= n < 10
    ensures Decimal(n) == [DigitChar(n)]
  {
  }

  /** Only 1, 2 and 3 are written as "1", "2" and "3". */
  lemma {:induction false} DecimalIsLevelKey(n: int)
    ensures Decimal(n) == "1" <==> n == 1
    ensures Decimal(n) == "2" <==> n == 2
    ensures Decimal(n) == "3" <==> n == 3
  {
    if n < 0 {
      assert Decimal(n)[0] == '-';
    } else if n >= 10 {
      assert |Decimal(n)| >= 2;
    } else {
      DecimalOfDigit(n);
    }
  }

  /** A number normalises to itself when it is 1, 2 or 3, and to 1 otherwise. */
  lemma {:induction false} NormalizeNumber(n: int)
    ensures NormalizePriority(Num(n)) == if 1 <= n <= 3 then n else 1
  {
    DecimalIsLevelKey(n);
    if n < 0 {
      assert Decimal(n)[0] == '-';
    } else if n >= 10 {
      assert |Decimal(n)| >= 2;
    } else {
      DecimalOfDigit(n);
    }
  }

  /** The synonyms of the lookup table. */
  lemma NormalizeTable()
    ensures NormalizePriority(Str("low")) == 1 && NormalizePriority(Str("1")) == 1
    ensures NormalizePriority(Str("medium")) == 2 && NormalizePriority(Str("2")) == 2
    ensures NormalizePriority(Str("high")) == 3 && NormalizePriority(Str("3")) == 3
    ensures NormalizePriority(Num(1)) == 1 && NormalizePriority(Num(2)) == 2
    ensures NormalizePriority(Num(3)) == 3
  {
    NormalizeNumber(1);
    NormalizeNumber(2);
    NormalizeNumber(3);
  }

  /** Everything outside the table, case variants and other types included,
      falls back to 1. */
  lemma {:induction false} NormalizeFallback(v: JsValue)
    requires v.Str? ==> v.s !in {"low", "medium", "high", "1", "2", "3"}
    requires v.Num? ==> v.n < 1 || 3 < v.n
    ensures NormalizePriority(v) == 1
  {
    if v.Num? {
      NormalizeNumber(v.n);
    }
  }

  /** Normalising a normalised priority changes nothing. */
  lemma {:induction false} NormalizeIdempotent(v: JsValue)
    ensures NormalizePriority(Num(NormalizePriority(v))) == NormalizePriority(v)
  {
    NormalizeNumber(NormalizePriority(v));
  }

  /** The setter as written returns a prototype member for the key
      "toString", where the fallback 1 was intended. */
  lemma SetterAsWrittenLeaksPrototype()
    ensures PrioritySetterAsWritten(Str("toString")) == PrototypeMember("toString")
    ensures NormalizePriority(Str("toString")) == 1
  {
  }

  /** Off the inherited names, the setter as written and the corrected one
      agree; on them, only the corrected one yields a priority. */
  lemma {:induction false} SetterAgreement(v: JsValue)
    ensures PropertyKey(v) !in InheritedNames ==> PrioritySetterAsWritten(v) == Level(NormalizePriority(v))
    ensures PropertyKey(v) in InheritedNames <==> PrioritySetterAsWritten(v).PrototypeMember?
  {
  }

  // ---------------------------------------------------------------------------
  // Status

  const StatusValues: set<string> := {"To do", "In progress", "Done", "Canceled"}
  const DefaultStatus: string := "To do"

  /** The stored status for a supplied one: the default when absent, the value
      when it is in the enum, and None when the enum validator rejects it. */
  function ResolveStatus(s: Option<string>): (r: Option<string>)
    ensures r.Some? ==> r.value in StatusValues
    ensures s.None? ==> r == Some(DefaultStatus)
    ensures s.Some? ==> (r.Some? <==> s.value in StatusValues) && (r.Some? ==> r.value == s.value)
  {
    match s
    case None => Some(DefaultStatus)
    case Some(x) => if x in StatusValues then Some(x) else None
  }

  // ---------------------------------------------------------------------------
  // Task documents

  datatype Task = Task(
    id: string,
    title: string,
    description: string,
    status: string,
    priority: Priority,
    dueDate: Option<Timestamp>,
    createdAt: Timestamp,
    updatedAt: Timestamp,
    assignedTo: Option<string>,
    createdBy: string,
    category: string,
    attachments: seq<string>,
    completed: bool)

  /** The task fields of a request body. `dueDate` is Some only for a truthy
      value, already read as an instant. */
  datatype TaskPayload = TaskPayload(
    title: Option<string>,
    description: Option<string>,
    status: Option<string>,
    priority: JsValue,
    dueDate: Option<Timestamp>,
    createdBy: Option<string>,
    assignedTo: Option<string>,
    category: Option<string>,
    completed: Option<bool>)

  /** The schema's validators: required strings are non-empty and the status
      is one of the enum's values. */
  predicate SchemaValid(t: Task)
  {
    t.id != "" && t.title != "" && t.description != "" && t.createdBy != ""
    && t.status in StatusValues
  }

  /** The document `new Task({...})` builds from a create payload, when it
      passes validation. Fields the payload omits take the schema defaults. */
  function NewTask(p: TaskPayload, id: string, files: seq<string>, now: Timestamp): (r: Option<Task>)
    ensures r.Some? <==>
      id != "" && Present(p.title) && Present(p.description) && Present(p.createdBy)
      && ResolveStatus(p.status).Some?
    ensures r.Some? ==> SchemaValid(r.value)
    ensures r.Some? ==>
      && r.value.id == id
      && r.value.title == p.title.value && r.value.description == p.description.value
      && r.value.createdBy == p.createdBy.value
      && r.value.status == (if p.status.None? then DefaultStatus else p.status.value)
      && r.value.priority == NormalizePriority(p.priority)
      && r.value.dueDate == p.dueDate
      && r.value.assignedTo == p.assignedTo
      && r.value.category == (if p.category.None? then "" else p.category.value)
      && r.value.attachments == files
      && !r.value.completed
      && r.value.createdAt == now && r.value.updatedAt == now
  {
    var status := ResolveStatus(p.status);
    if id != "" && Present(p.title) && Present(p.description) && Present(p.createdBy) && status.Some? then
      Some(Task(
        id := id,
        title := p.title.value,
        description := p.description.value,
        status := status.value,
        priority := NormalizePriority(p.priority),
        dueDate := p.dueDate,
        createdAt := now,
        updatedAt := now,
        assignedTo := p.assignedTo,
        createdBy := p.createdBy.value,
        category := if p.category.None? then "" else p.category.value,
        attachments := files,
        completed := false))
    else None
  }

  /** A task created from a payload without optional fields has the schema
      defaults: status "To do", priority 1, no due date, no assignee, empty
      category, no attachments, not completed. */
  lemma DefaultsOfBareTask(title: string, description: string, owner: string, id: string, now: Timestamp)
    requires title != "" && description != "" && owner != "" && id != ""
    ensures
      var p := TaskPayload(Some(title), Some(description), None, Undefined, None, Some(owner), None, None, None);
      var r := NewTask(p, id, [], now);
      && r.Some?
      && r.value.status == "To do" && r.value.priority == 1 && r.value.dueDate.None?
      && r.value.assignedTo.None? && r.value.category == "" && r.value.attachments == []
      && !r.value.completed
  {
  }

  /** The document after `findOneAndUpdate` with the handler's update object.
      Absent fields are dropped from the update and keep their value; the
      due date is always written (None for a falsy one); `updatedAt` is
      re-stamped; attachments change only when new files were uploaded. No
      validator runs on this path, so the status is stored as given. */
  function MergeUpdate(t: Task, p: TaskPayload, files: seq<string>, now: Timestamp): (r: Task)
    ensures r.id == t.id && r.createdAt == t.createdAt
    ensures r.updatedAt == now
    ensures r.dueDate == p.dueDate
    ensures r.attachments == (if |files| > 0 then files else t.attachments)
    ensures r.title == (if p.title.Some? then p.title.value else t.title)
    ensures r.description == (if p.description.Some? then p.description.value else t.description)
    ensures r.status == (if p.status.Some? then p.status.value else t.status)
    ensures r.assignedTo == (if p.assignedTo.Some? then p.assignedTo else t.assignedTo)
    ensures r.category == (if p.category.Some? then p.category.value else t.category)
    ensures r.completed == (if p.completed.Some? then p.completed.value else t.completed)
    ensures r.createdBy == (if p.createdBy.Some? then p.createdBy.value else t.createdBy)
    ensures r.priority == (if p.priority.Undefined? then t.priority else NormalizePriority(p.priority))
  {
    var priority: Priority := if p.priority.Undefined? then t.priority else NormalizePriority(p.priority);
    Task(
      id := t.id,
      title := if p.title.Some? then p.title.value else t.title,
      description := if p.description.Some? then p.description.value else t.description,
      status := if p.status.Some? then p.status.value else t.status,
      priority := priority,
      dueDate := p.dueDate,
      createdAt := t.createdAt,
      updatedAt := now,
      assignedTo := if p.assignedTo.Some? then p.assignedTo else t.assignedTo,
      createdBy := if p.createdBy.Some? then p.createdBy.value else t.createdBy,
      category := if p.category.Some? then p.category.value else t.category,
      attachments := if |files| > 0 then files else t.attachments,
      completed := if p.completed.Some? then p.completed.value else t.completed)
  }

  // ---------------------------------------------------------------------------
  // The collection

  /** No two stored tasks share an id (the unique index on `id`). */
  ghost predicate UniqueIds(tasks: seq<Task>)
  {
    forall i, j :: 0 <= i < j < |tasks| ==> tasks[i].id != tasks[j].id
  }

  function Ids(tasks: seq<Task>): (r: set<string>)
    ensures forall id :: id in r <==> exists i :: 0 <= i < |tasks| && tasks[i].id == id
  {
    set i | 0 <= i < |tasks| :: tasks[i].id
  }

  /** The stored tasks whose `createdBy` equals `owner`, in store order. */
  function OwnedBy(tasks: seq<Task>, owner: string): (r: seq<Task>)
    ensures forall t :: t in r <==> t in tasks && t.createdBy == owner
    ensures forall t :: multiset(r)[t] == if t.createdBy == owner then multiset(tasks)[t] else 0
  {
    Where(tasks, (t: Task) => t.createdBy == owner)
  }

  /** A task saved after the others is listed after them: selection keeps
      store order, so an owner's list grows only at its end. */
  lemma OwnedByAppend(tasks: seq<Task>, t: Task, owner: string)
    ensures OwnedBy(tasks + [t], owner) == OwnedBy(tasks, owner) + (if t.createdBy == owner then [t] else [])
  {
    var p := (x: Task) => x.createdBy == owner;
    WhereAppend(tasks, [t], p);
    assert [t][1..] == [];
  }

  /** Appending a task with a fresh id keeps ids unique. */
  lemma {:induction false} AppendFreshKeepsUnique(tasks: seq<Task>, t: Task)
    requires UniqueIds(tasks) && t.id !in Ids(tasks)
    ensures UniqueIds(tasks + [t])
  {
    var s := tasks + [t];
    forall i, j | 0 <= i < j < |s| ensures s[i].id != s[j].id {
      if j == |tasks| {
        assert s[i] == tasks[i];
      }
    }
  }

  /** Replacing a task by one with the same id keeps ids unique. */
  lemma {:induction false} ReplaceKeepsUnique(tasks: seq<Task>, i: nat, t: Task)
    requires UniqueIds(tasks) && i < |tasks| && t.id == tasks[i].id
    ensures UniqueIds(tasks[i := t])
  {
  }

  /** Removing a task keeps ids unique, and with unique ids the removed one
      was the only task with its id: every other task stays. */
  lemma {:induction false} RemoveKeepsOthers(tasks: seq<Task>, i: nat)
    requires UniqueIds(tasks) && i < |tasks|
    ensures UniqueIds(Without(tasks, i))
    ensures tasks[i].id !in Ids(Without(tasks, i))
    ensures forall t :: t in tasks && t.id != tasks[i].id ==> t in Without(tasks, i)
  {
    var r := Without(tasks, i);
    forall t | t in tasks && t.id != tasks[i].id ensures t in r {
      var k :| 0 <= k < |tasks| && tasks[k] == t;
      if k < i {
        assert r[k] == t;
      } else {
        assert k > i;
        assert r[k - 1] == t;
      }
    }
    forall k | 0 <= k < |r| ensures r[k].id != tasks[i].id {
      if k >= i {
        assert r[k] == tasks[k + 1];
      }
    }
  }

  /** The Task collection (the Mongoose model): stored documents in store
      order. */
  class TaskCollection {
    var items: seq<Task>

    ghost predicate Valid()
      reads this
    {
      UniqueIds(items)
    }

    constructor()
      ensures Valid() && items == []
    {
      items := [];
    }
  }
}
