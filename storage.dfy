/** The storage layer: the users, tasks and task_categories tables kept in
    memory, with the operations the server performs on them.  Each operation
    is specified by a function over the tables; the `Store` class holds the
    tables and changes them through its methods. */
module Storage {
  import opened Wrappers
  import opened Seqs
  import opened Text
  import opened Dates
  import opened Schema
  import opened Driver

  /** Why the database refused a statement. */
  datatype StoreError =
    | UniqueViolation(column: string)
    | NotNullViolation(column: string)
    | InvalidValue(column: string)

  // ---------------------------------------------------------------------------
  // Due dates

  /** `new Date(v)` for a defined value.  An array or plain object is first
      converted to its string (ToPrimitive), which is then parsed, so
      `new Date(["2025-01-01"])` is a valid date. */
  function DateFrom(v: Value, parse: string -> JsTime): (r: JsTime)
    ensures v.Str? ==> r == parse(v.s)
    ensures v.Other? ==> r == parse(v.text)
    ensures v.DateObj? ==> r == v.t
    ensures v.Num? ==> (r.At? <==> InRange(v.n)) && (r.At? ==> r.ms == v.n)
    ensures v.Null? ==> r == At(0)
    ensures v.Bool? ==> r == At(if v.b then 1 else 0)
  {
    match v
    case Null => At(0)
    case Bool(b) => At(if b then 1 else 0)
    case Num(n) => TimeClip(n)
    case Str(s) => parse(s)
    case DateObj(t) => t
    case Other(text) => parse(text)
  }

  /** The due-date normalisation of createTask and updateTask: an absent value
      stays absent, null stays null, anything else becomes the Date it names,
      or null when that is an Invalid Date.  Nothing is ever refused. */
  function NormaliseDueDate(v: Option<Value>, parse: string -> JsTime): (r: Entry<int>)
    ensures r.Absent? <==> v.None?
    ensures v == Some(Null) ==> r.Nulled?
    ensures v.Some? && v.value != Null ==> (r.Given? <==> DateFrom(v.value, parse).At?)
    ensures r.Given? ==> InRange(r.value) && r.value == DateFrom(v.value, parse).ms
    ensures v.Some? && v.value.Str? && parse(v.value.s).At? ==> r == Given(parse(v.value.s).ms)
    ensures v.Some? && v.value.DateObj? && v.value.t.At? ==> r == Given(v.value.t.ms)
  {
    if v.None? then Absent
    else if v.value.Null? then Nulled
    else
      var d := DateFrom(v.value, parse);
      if d.NaN? then Nulled else Given(d.ms)
  }

  /** The value a normalised due date stands for. */
  function DueValueOf(e: Entry<int>): Option<Value>
    requires e.Given? ==> InRange(e.value)
  {
    match e
    case Absent => None
    case Nulled => Some(Null)
    case Given(ms) => Some(DateObj(At(ms)))
  }

  /** Normalising once is enough: a normalised due date normalises to itself. */
  lemma NormaliseIdempotent(v: Option<Value>, parse: string -> JsTime)
    ensures NormaliseDueDate(DueValueOf(NormaliseDueDate(v, parse)), parse) == NormaliseDueDate(v, parse)
  {
  }

  /** A string that does not parse is stored as no date, never as an error. */
  lemma InvalidDueStringIsNull(s: string, parse: string -> JsTime)
    requires parse(s).NaN?
    ensures NormaliseDueDate(Some(Str(s)), parse) == Nulled
  {
  }

  /** The stored column for a normalised due date. */
  function DueColumn(e: Entry<int>): (r: Option<int>)
    ensures r.Some? <==> e.Given?
    ensures r.Some? ==> r.value == e.value
  {
    if e.Given? then Some(e.value) else None
  }

  /** The value an insert's due date hands to the normalisation. */
  function DueValue(d: Option<DueInput>): (r: Option<Value>)
    ensures r.Some? <==> d.Some?
    ensures d.Some? && d.value.DueDate? ==> r == Some(DateObj(d.value.t))
    ensures d.Some? && d.value.DueText? ==> r == Some(Str(d.value.s))
  {
    match d
    case None => None
    case Some(DueDate(t)) => Some(DateObj(t))
    case Some(DueText(s)) => Some(Str(s))
  }

  // ---------------------------------------------------------------------------
  // Tasks

  /** The row createTask inserts for a validated task. */
  function NewTaskRow(id: int, t: InsertTask, now: int, parse: string -> JsTime): (r: Task)
    ensures r.id == id && r.userId == t.userId && r.title == t.title
    ensures r.status == t.status && r.priority == t.priority
    ensures r.createdAt == now && r.updatedAt == now
    ensures r.description == NullableColumn(t.description)
    ensures r.completed == CompletedColumn(t.completed)
    ensures r.dueDate == DueColumn(NormaliseDueDate(DueValue(t.dueDate), parse))
    ensures r.dueDate.Some? ==> InRange(r.dueDate.value)
    ensures t.dueDate.None? ==> r.dueDate.None?
    ensures t.dueDate.Some? && t.dueDate.value.DueText? ==>
      r.dueDate == (if parse(t.dueDate.value.s).At? then Some(parse(t.dueDate.value.s).ms) else None)
    ensures t.dueDate.Some? && t.dueDate.value.DueDate? ==>
      r.dueDate == (if t.dueDate.value.t.At? then Some(t.dueDate.value.t.ms) else None)
  {
    var due := NormaliseDueDate(DueValue(t.dueDate), parse);
    Task(id, t.title, NullableColumn(t.description), DueColumn(due),
      TextColumn(Some(t.status), DefaultStatus), TextColumn(Some(t.priority), DefaultPriority),
      t.userId, CompletedColumn(t.completed), now, now)
  }

  /** createTask and updateTask store the same due date for the same value. */
  lemma CreateAndUpdateStoreSameDueDate(id: int, t: InsertTask, now: int, task: Task, patch: Body, later: int,
                                        parse: string -> JsTime)
    requires t.dueDate.Some? && "dueDate" in patch && Some(patch["dueDate"]) == DueValue(t.dueDate)
    requires UpdatedTask(task, patch, later, parse).Some?
    ensures NewTaskRow(id, t, now, parse).dueDate == UpdatedTask(task, patch, later, parse).value.dueDate
  {
  }

  /** Sending a created task's stored due date back as a date keeps it. */
  lemma StoredDueDateResent(id: int, t: InsertTask, now: int, later: int, parse: string -> JsTime)
    requires NewTaskRow(id, t, now, parse).dueDate.Some?
    ensures var row := NewTaskRow(id, t, now, parse);
      var again := UpdatedTask(row, map["dueDate" := DateObj(At(row.dueDate.value))], later, parse);
      again.Some? && again.value.dueDate == row.dueDate
  {
    var row := NewTaskRow(id, t, now, parse);
    var patch := map["dueDate" := DateObj(At(row.dueDate.value))];
    assert TaskPatchTyped(patch["dueDate" := Null]);
  }

  /** The `completed` flag does not follow the status: a task created as
      "completed" without a flag is stored with completed = false. */
  lemma CompletedIndependentOfStatus(id: int, t: InsertTask, now: int, parse: string -> JsTime)
    requires t.status == Completed && t.completed.Absent?
    ensures NewTaskRow(id, t, now, parse).status == Completed
    ensures NewTaskRow(id, t, now, parse).completed == Some(false)
  {
  }

  /** The first task with the given id. */
  function FindTask(ts: seq<Task>, id: int): (r: Option<Task>)
    ensures r.Some? ==> r.value in ts && r.value.id == id
    ensures r.None? ==> forall t :: t in ts ==> t.id != id
  {
    if ts == [] then None
    else if ts[0].id == id then Some(ts[0])
    else FindTask(ts[1..], id)
  }

  /** How a column relates to its old value and the patch's value for it:
      unchanged when the patch does not name it, otherwise what the column
      makes of the value (see the Driver module). */
  predicate TextUpdated(prev: string, v: Option<Value>, cur: string) {
    if v.None? then cur == prev else ParamText(v.value) == Some(cur)
  }

  predicate IntUpdated(prev: int, v: Option<Value>, cur: int) {
    if v.None? then cur == prev else IntColumn(v.value) == Some(cur)
  }

  predicate NullableTextUpdated(prev: Option<string>, v: Option<Value>, cur: Option<string>) {
    if v.None? then cur == prev
    else if v.value.Null? then cur.None?
    else cur.Some? && ParamText(v.value) == Some(cur.value)
  }

  predicate NullableBoolUpdated(prev: Option<bool>, v: Option<Value>, cur: Option<bool>) {
    if v.None? then cur == prev
    else if v.value.Null? then cur.None?
    else cur.Some? && BoolColumn(v.value) == Some(cur.value)
  }

  predicate DateUpdated(prev: Option<int>, v: Option<Value>, cur: Option<int>) {
    if v.None? then cur == prev
    else (v.value.Null? && cur.None?) || (v.value.DateObj? && v.value.t.At? && cur == Some(v.value.t.ms))
  }

  /** The values each kind of column accepts from a patch (absent included). */
  predicate TextAccepted(v: Option<Value>) { v.None? || ParamText(v.value).Some? }
  predicate IntAccepted(v: Option<Value>) { v.None? || IntColumn(v.value).Some? }
  predicate NullableTextAccepted(v: Option<Value>) { v.None? || v.value.Null? || ParamText(v.value).Some? }
  predicate NullableBoolAccepted(v: Option<Value>) { v.None? || v.value.Null? || BoolColumn(v.value).Some? }
  predicate DateAccepted(v: Option<Value>) {
    v.None? || v.value.Null? || (v.value.DateObj? && v.value.t.At?)
  }

  /** A text column update: absent keeps the old value; a string, a number or
      a boolean is stored as its parameter text; null and the values the
      driver does not render are refused (None). */
  function SetText(prev: string, v: Option<Value>): (r: Option<string>)
    ensures r.Some? <==> TextAccepted(v)
    ensures r.Some? ==> TextUpdated(prev, v, r.value)
    ensures v.Some? && v.value.Num? ==> r == Some(IntToString(v.value.n))
  {
    if v.None? then Some(prev) else ParamText(v.value)
  }

  /** A nullable text column update: as a text column, and null empties it. */
  function SetNullableText(prev: Option<string>, v: Option<Value>): (r: Option<Option<string>>)
    ensures r.Some? <==> NullableTextAccepted(v)
    ensures r.Some? ==> NullableTextUpdated(prev, v, r.value)
    ensures v.Some? && v.value.Bool? ==> r == Some(Some(if v.value.b then "true" else "false"))
  {
    if v.None? then Some(prev)
    else if v.value.Null? then Some(None)
    else match ParamText(v.value)
      case None => None
      case Some(text) => Some(Some(text))
  }

  /** An int4 column update: a number within 32 bits, or a string int4in
      reads; anything else, null included, is refused. */
  function SetInt(prev: int, v: Option<Value>): (r: Option<int>)
    ensures r.Some? <==> IntAccepted(v)
    ensures r.Some? ==> IntUpdated(prev, v, r.value)
    ensures r.Some? && v.Some? ==> Int4Min <= r.value <= Int4Max
    ensures v.Some? && v.value.Num? ==> (r.Some? <==> Int4Min <= v.value.n <= Int4Max)
  {
    if v.None? then Some(prev) else IntColumn(v.value)
  }

  /** A nullable boolean column update: a boolean, 1 or 0, or a string boolin
      reads; null empties it; anything else is refused. */
  function SetNullableBool(prev: Option<bool>, v: Option<Value>): (r: Option<Option<bool>>)
    ensures r.Some? <==> NullableBoolAccepted(v)
    ensures r.Some? ==> NullableBoolUpdated(prev, v, r.value)
    ensures v.Some? && v.value.Bool? ==> r == Some(Some(v.value.b))
  {
    if v.None? then Some(prev)
    else if v.value.Null? then Some(None)
    else match BoolColumn(v.value)
      case None => None
      case Some(b) => Some(Some(b))
  }

  /** A timestamp column update: a Date that holds a time, or null; any other
      value is refused. */
  function SetNullableDate(prev: Option<int>, v: Option<Value>): (r: Option<Option<int>>)
    ensures r.Some? <==> DateAccepted(v)
    ensures r.Some? ==> DateUpdated(prev, v, r.value)
  {
    if v.None? then Some(prev)
    else if v.value.Null? then Some(None)
    else if v.value.DateObj? && v.value.t.At? then Some(Some(v.value.t.ms))
    else None
  }

  /** The first half of updateTask: the patch with a present, non-null due date
      replaced by the Date it names, or by null when that is an Invalid Date. */
  function NormalisePatch(patch: Body, parse: string -> JsTime): (r: Body)
    ensures r.Keys == patch.Keys
    ensures forall k :: k in patch && k != "dueDate" ==> r[k] == patch[k]
    ensures "dueDate" in patch ==>
      r["dueDate"] == DueValueOf(NormaliseDueDate(Some(patch["dueDate"]), parse)).value
  {
    if "dueDate" in patch then
      patch["dueDate" := DueValueOf(NormaliseDueDate(Some(patch["dueDate"]), parse)).value]
    else patch
  }

  /** Whether every present column of a patch has a value the column accepts. */
  predicate TaskPatchTyped(patch: Body) {
    TextAccepted(Lookup(patch, "title"))
    && NullableTextAccepted(Lookup(patch, "description"))
    && DateAccepted(Lookup(patch, "dueDate"))
    && TextAccepted(Lookup(patch, "status"))
    && TextAccepted(Lookup(patch, "priority"))
    && IntAccepted(Lookup(patch, "userId"))
    && NullableBoolAccepted(Lookup(patch, "completed"))
  }

  /** The second half of updateTask: the row the update statement writes, the
      patch's columns over the old row and updatedAt set to now; None when the
      database refuses a value. */
  function ApplyPatch(task: Task, patch: Body, now: int): (r: Option<Task>)
    ensures r.Some? <==> TaskPatchTyped(patch)
    ensures r.Some? ==> r.value.id == task.id && r.value.createdAt == task.createdAt && r.value.updatedAt == now
    ensures r.Some? ==> TextUpdated(task.title, Lookup(patch, "title"), r.value.title)
    ensures r.Some? ==> NullableTextUpdated(task.description, Lookup(patch, "description"), r.value.description)
    ensures r.Some? ==> DateUpdated(task.dueDate, Lookup(patch, "dueDate"), r.value.dueDate)
    ensures r.Some? ==> TextUpdated(task.status, Lookup(patch, "status"), r.value.status)
    ensures r.Some? ==> TextUpdated(task.priority, Lookup(patch, "priority"), r.value.priority)
    ensures r.Some? ==> IntUpdated(task.userId, Lookup(patch, "userId"), r.value.userId)
    ensures r.Some? ==> NullableBoolUpdated(task.completed, Lookup(patch, "completed"), r.value.completed)
  {
    var title := SetText(task.title, Lookup(patch, "title"));
    var description := SetNullableText(task.description, Lookup(patch, "description"));
    var due := SetNullableDate(task.dueDate, Lookup(patch, "dueDate"));
    var status := SetText(task.status, Lookup(patch, "status"));
    var priority := SetText(task.priority, Lookup(patch, "priority"));
    var userId := SetInt(task.userId, Lookup(patch, "userId"));
    var completed := SetNullableBool(task.completed, Lookup(patch, "completed"));
    if title.None? || description.None? || due.None? || status.None? || priority.None? || userId.None? || completed.None? then None
    else
      Some(Task(task.id, title.value, description.value, due.value,
        status.value, priority.value, userId.value, completed.value, task.createdAt, now))
  }

  /** updateTask: normalise the due date, then write the patch. */
  function UpdatedTask(task: Task, patch: Body, now: int, parse: string -> JsTime): (r: Option<Task>)
    ensures r.Some? <==> TaskPatchTyped(patch["dueDate" := Null])
    ensures r.Some? ==> r.value.id == task.id && r.value.createdAt == task.createdAt && r.value.updatedAt == now
    ensures r.Some? ==> TextUpdated(task.title, Lookup(patch, "title"), r.value.title)
    ensures r.Some? ==> TextUpdated(task.status, Lookup(patch, "status"), r.value.status)
    ensures r.Some? ==> TextUpdated(task.priority, Lookup(patch, "priority"), r.value.priority)
    ensures r.Some? ==> NullableTextUpdated(task.description, Lookup(patch, "description"), r.value.description)
    ensures r.Some? ==> IntUpdated(task.userId, Lookup(patch, "userId"), r.value.userId)
    ensures r.Some? ==> NullableBoolUpdated(task.completed, Lookup(patch, "completed"), r.value.completed)
    ensures r.Some? && "dueDate" in patch ==>
      r.value.dueDate == DueColumn(NormaliseDueDate(Some(patch["dueDate"]), parse))
    ensures r.Some? && "dueDate" !in patch ==> r.value.dueDate == task.dueDate
  {
    var n := NormalisePatch(patch, parse);
    var m := patch["dueDate" := Null];
    assert Lookup(n, "title") == Lookup(m, "title") == Lookup(patch, "title");
    assert Lookup(n, "description") == Lookup(m, "description") == Lookup(patch, "description");
    assert Lookup(n, "status") == Lookup(m, "status") == Lookup(patch, "status");
    assert Lookup(n, "priority") == Lookup(m, "priority") == Lookup(patch, "priority");
    assert Lookup(n, "userId") == Lookup(m, "userId") == Lookup(patch, "userId");
    assert Lookup(n, "completed") == Lookup(m, "completed") == Lookup(patch, "completed");
    ApplyPatch(task, NormalisePatch(patch, parse), now)
  }

  /** An update keeps the stored due date in the Date range. */
  lemma UpdatedTaskDueDate(task: Task, patch: Body, now: int, parse: string -> JsTime)
    requires task.dueDate.Some? ==> InRange(task.dueDate.value)
    ensures var r := UpdatedTask(task, patch, now, parse);
      r.Some? ==> r.value.dueDate.Some? ==> InRange(r.value.dueDate.value)
  {
  }

  /** An empty patch only refreshes updatedAt. */
  lemma EmptyPatch(task: Task, now: int, parse: string -> JsTime)
    ensures UpdatedTask(task, map[], now, parse) == Some(task.(updatedAt := now))
  {
  }

  /** The update path does not validate: any string can be stored as a status. */
  lemma UpdateStoresAnyStatus(task: Task, s: string, now: int, parse: string -> JsTime)
    ensures UpdatedTask(task, map["status" := Str(s)], now, parse).Some?
    ensures UpdatedTask(task, map["status" := Str(s)], now, parse).value.status == s
  {
    assert NormalisePatch(map["status" := Str(s)], parse) == map["status" := Str(s)];
  }

  /** The tasks with the row of the same id replaced by `t`. */
  function ReplaceTask(ts: seq<Task>, t: Task): (r: seq<Task>)
    ensures |r| == |ts|
    ensures forall k :: 0 <= k < |ts| ==> r[k] == (if ts[k].id == t.id then t else ts[k])
  {
    seq(|ts|, k requires 0 <= k < |ts| => if ts[k].id == t.id then t else ts[k])
  }

  /** Looking a task up by id after replacing it finds the new row. */
  lemma FindAfterReplace(ts: seq<Task>, t: Task)
    requires exists u :: u in ts && u.id == t.id
    ensures FindTask(ReplaceTask(ts, t), t.id) == Some(t)
  {
    var r := ReplaceTask(ts, t);
    var f := FindTask(r, t.id);
    var u :| u in ts && u.id == t.id;
    var k :| 0 <= k < |ts| && ts[k] == u;
    assert r[k] == t;
    assert f.Some?;
    var j :| 0 <= j < |r| && r[j] == f.value;
  }

  function UserTasks(ts: seq<Task>, uid: int): (r: seq<Task>)
    ensures forall t :: t in r <==> t in ts && t.userId == uid
  {
    Filter(ts, (t: Task) => t.userId == uid)
  }

  function TasksWithStatus(ts: seq<Task>, uid: int, status: string): (r: seq<Task>)
    ensures forall t :: t in r <==> t in ts && t.userId == uid && t.status == status
  {
    Filter(ts, (t: Task) => t.userId == uid && t.status == status)
  }

  function TasksWithPriority(ts: seq<Task>, uid: int, priority: string): (r: seq<Task>)
    ensures forall t :: t in r <==> t in ts && t.userId == uid && t.priority == priority
  {
    Filter(ts, (t: Task) => t.userId == uid && t.priority == priority)
  }

  /** The instant getTasksByDate works from: the date it was given, parsed when
      it is a string, and the current time when it is neither a string nor a
      Date or does not name a valid time. */
  function ReferenceTime(date: Value, now: int, parse: string -> JsTime): (ms: int)
    requires InRange(now)
    ensures InRange(ms)
    ensures date.Str? && parse(date.s).NaN? ==> ms == now
    ensures date.DateObj? && date.t.NaN? ==> ms == now
    ensures !date.Str? && !date.DateObj? ==> ms == now
    ensures date.Str? && parse(date.s).At? ==> ms == parse(date.s).ms
    ensures date.DateObj? && date.t.At? ==> ms == date.t.ms
  {
    var valid := if date.Str? then parse(date.s) else if date.DateObj? then date.t else At(now);
    if valid.NaN? then now else valid.ms
  }

  /** The last day of the Date range ends after its last representable instant. */
  lemma EndOfDayInRange(ms: int)
    requires InRange(ms)
    ensures InRange(EndOfDay(ms)) <==> ms != MaxTime
  {
    assert MaxTime == 100_000_000 * MsPerDay;
    if ms < MaxTime {
      assert DayNumber(ms) < 100_000_000;
    }
  }

  /** getTasksByDate: the user's tasks due on the day of the reference instant
      (from 00:00:00.000 to 23:59:59.999, both included).  When the end of that
      day is past the Date range the statement cannot be built and the result
      is empty. */
  function TasksOnDate(ts: seq<Task>, uid: int, date: Value, now: int, parse: string -> JsTime): (r: seq<Task>)
    requires InRange(now)
    ensures IsSubsequence(r, ts)
    ensures ReferenceTime(date, now, parse) != MaxTime ==> forall t :: t in r <==>
      t in ts && t.userId == uid && t.dueDate.Some?
      && DayNumber(t.dueDate.value) == DayNumber(ReferenceTime(date, now, parse))
  {
    var v := ReferenceTime(date, now, parse);
    EndOfDayInRange(v);
    if !InRange(EndOfDay(v)) then []
    else
      var p := (t: Task) => t.userId == uid && t.dueDate.Some?
        && StartOfDay(v) <= t.dueDate.value <= EndOfDay(v);
      FilterIsSubsequence(ts, p);
      forall t | t in ts && t.dueDate.Some? {
        DayWindow(t.dueDate.value, v);
      }
      Filter(ts, p)
  }

  datatype Stats = Stats(completed: nat, inProgress: nat, pending: nat)

  /** getTaskCompletionStats on success: the user's tasks of each status. */
  function CompletionStats(ts: seq<Task>, uid: int): (r: Stats)
    ensures r.completed == |TasksWithStatus(ts, uid, Completed)|
    ensures r.inProgress == |TasksWithStatus(ts, uid, InProgress)|
    ensures r.pending == |TasksWithStatus(ts, uid, Pending)|
  {
    Stats(|TasksWithStatus(ts, uid, Completed)|,
      |TasksWithStatus(ts, uid, InProgress)|,
      |TasksWithStatus(ts, uid, Pending)|)
  }

  /** The three counts never exceed the user's task count, and add up to it
      when every one of the user's tasks has a valid status. */
  lemma CompletionStatsBound(ts: seq<Task>, uid: int)
    ensures var s := CompletionStats(ts, uid);
      s.completed + s.inProgress + s.pending <= |UserTasks(ts, uid)|
    ensures (forall t :: t in ts && t.userId == uid ==> IsStatus(t.status)) ==>
      var s := CompletionStats(ts, uid);
      s.completed + s.inProgress + s.pending == |UserTasks(ts, uid)|
  {
    DomainsDistinct();
    FilterCounts(ts,
      (t: Task) => t.userId == uid && t.status == Completed,
      (t: Task) => t.userId == uid && t.status == InProgress,
      (t: Task) => t.userId == uid && t.status == Pending,
      (t: Task) => t.userId == uid);
  }

  // ---------------------------------------------------------------------------
  // Weekly activity

  /** A row of the weekly activity query, as the driver returns it: the day of
      week (0 = Sunday) and the count, both as text. */
  datatype ActivityRow = ActivityRow(dayOfWeek: string, count: string)

  datatype DayCount = DayCount(day: string, count: int)

  const DayNames: seq<string> := ["Sun", "Mon", "Tue", "Wed", "Thu", "Fri", "Sat"]

  lemma DayNamesDistinct()
    ensures forall i, j :: 0 <= i < 7 && 0 <= j < 7 && i != j ==> DayNames[i] != DayNames[j]
  {
    assert forall i :: 0 <= i < 7 ==> |DayNames[i]| == 3;
    assert DayNames[0][0] == 'S' && DayNames[6][0] == 'S' && DayNames[0][1] != DayNames[6][1];
    assert DayNames[2][0] == 'T' && DayNames[4][0] == 'T' && DayNames[2][1] != DayNames[4][1];
  }

  /** The weekday a row names: its day of week read with parseInt(_, 10),
      when that is an index of `DayNames`. */
  function RowDay(row: ActivityRow): (r: Option<int>)
    ensures r.Some? ==> 0 <= r.value < 7 && ParseDecimal(row.dayOfWeek) == r
    ensures r.None? ==> ParseDecimal(row.dayOfWeek).None? || !(0 <= ParseDecimal(row.dayOfWeek).value < 7)
  {
    var d := ParseDecimal(row.dayOfWeek);
    if d.Some? && 0 <= d.value < 7 then d else None
  }

  /** The entry the count map holds for weekday `i` after the rows: 0 until a
      row names the day, then the count of the last such row (None for NaN). */
  function DayEntry(rows: seq<ActivityRow>, i: int): (r: Option<int>)
    ensures r == Some(0) || exists k :: 0 <= k < |rows| && RowDay(rows[k]) == Some(i) && r == ParseDecimal(rows[k].count)
  {
    if rows == [] then Some(0)
    else
      var n := |rows| - 1;
      if RowDay(rows[n]) == Some(i) then ParseDecimal(rows[n].count)
      else
        var r := DayEntry(rows[..n], i);
        assert forall k :: 0 <= k < n ==> rows[..n][k] == rows[k];
        r
  }

  /** A weekday no row names reports 0. */
  lemma {:induction false} QuietDayIsZero(rows: seq<ActivityRow>, i: int)
    requires forall k :: 0 <= k < |rows| ==> RowDay(rows[k]) != Some(i)
    ensures DayEntry(rows, i).GetOr(0) == 0
  {
    if rows != [] {
      QuietDayIsZero(rows[..|rows| - 1], i);
    }
  }

  /** A weekday named by exactly one row reports that row's count. */
  lemma {:induction false} GroupedDayCount(rows: seq<ActivityRow>, i: int, j: int)
    requires 0 <= j < |rows| && RowDay(rows[j]) == Some(i)
    requires forall k :: 0 <= k < |rows| && k != j ==> RowDay(rows[k]) != Some(i)
    ensures DayEntry(rows, i) == ParseDecimal(rows[j].count)
  {
    if j < |rows| - 1 {
      GroupedDayCount(rows[..|rows| - 1], i, j);
    }
  }

  /** The corrected failure result of getWeeklyActivity: every weekday with 0. */
  function ZeroWeek(): (r: seq<DayCount>)
    ensures |r| == 7
    ensures forall i :: 0 <= i < 7 ==> r[i].day == DayNames[i] && r[i].count == 0
  {
    seq(7, i requires 0 <= i < 7 => DayCount(DayNames[i], 0))
  }

  /** The failure path as written: the fallback names `days`, which is declared
      inside the `try` block, so the handler throws a ReferenceError instead of
      returning. */
  function WeeklyFallbackAsWritten(): (r: Result<seq<DayCount>, string>)
    ensures r.Err? && r.error == "ReferenceError: days is not defined"
  {
    Err("ReferenceError: days is not defined")
  }

  /** The failure path as written does not give what its author meant it to
      give: it rejects, where the corrected one reports seven zeros. */
  lemma WeeklyFallbackAsWrittenThrows()
    ensures WeeklyFallbackAsWritten() != Ok(ZeroWeek())
  {
  }

  // ---------------------------------------------------------------------------
  // Users

  /** The row createUser inserts. */
  function NewUserRow(id: int, u: InsertUser, now: int): (r: User)
    ensures r.id == id && r.username == u.username && r.password == u.password
    ensures r.name == NullableColumn(u.name) && r.email == NullableColumn(u.email)
    ensures r.avatar == NullableColumn(u.avatar) && r.birthday == NullableColumn(u.birthday)
    ensures r.createdAt == now
  {
    User(id, u.username, u.password, NullableColumn(u.name), NullableColumn(u.email),
      NullableColumn(u.avatar), NullableColumn(u.birthday), now)
  }

  function FindUser(us: seq<User>, id: int): (r: Option<User>)
    ensures r.Some? ==> r.value in us && r.value.id == id
    ensures r.None? ==> forall u :: u in us ==> u.id != id
  {
    if us == [] then None
    else if us[0].id == id then Some(us[0])
    else FindUser(us[1..], id)
  }

  predicate UsernameTaken(us: seq<User>, name: string, except: int) {
    exists k :: 0 <= k < |us| && us[k].username == name && us[k].id != except
  }

  /** Whether every present column of a user patch has a value the column accepts. */
  predicate UserPatchTyped(patch: Body) {
    TextAccepted(Lookup(patch, "username"))
    && TextAccepted(Lookup(patch, "password"))
    && NullableTextAccepted(Lookup(patch, "name"))
    && NullableTextAccepted(Lookup(patch, "email"))
    && NullableTextAccepted(Lookup(patch, "avatar"))
    && NullableTextAccepted(Lookup(patch, "birthday"))
  }

  /** The row an update of the users table writes: the patch's columns over
      the old row; None when a column refuses its value. */
  function ApplyUserPatch(u: User, patch: Body): (r: Option<User>)
    ensures r.Some? <==> UserPatchTyped(patch)
    ensures r.Some? ==> r.value.id == u.id && r.value.createdAt == u.createdAt
    ensures r.Some? ==> TextUpdated(u.username, Lookup(patch, "username"), r.value.username)
    ensures r.Some? ==> TextUpdated(u.password, Lookup(patch, "password"), r.value.password)
    ensures r.Some? ==> NullableTextUpdated(u.name, Lookup(patch, "name"), r.value.name)
    ensures r.Some? ==> NullableTextUpdated(u.email, Lookup(patch, "email"), r.value.email)
    ensures r.Some? ==> NullableTextUpdated(u.avatar, Lookup(patch, "avatar"), r.value.avatar)
    ensures r.Some? ==> NullableTextUpdated(u.birthday, Lookup(patch, "birthday"), r.value.birthday)
  {
    var username := SetText(u.username, Lookup(patch, "username"));
    var password := SetText(u.password, Lookup(patch, "password"));
    var name := SetNullableText(u.name, Lookup(patch, "name"));
    var email := SetNullableText(u.email, Lookup(patch, "email"));
    var avatar := SetNullableText(u.avatar, Lookup(patch, "avatar"));
    var birthday := SetNullableText(u.birthday, Lookup(patch, "birthday"));
    if username.None? || password.None? || name.None? || email.None? || avatar.None? || birthday.None? then None
    else Some(User(u.id, username.value, password.value, name.value, email.value,
      avatar.value, birthday.value, u.createdAt))
  }

  /** Whether the patch names a column of the users table; an update with
      nothing to set is refused by the query builder. */
  predicate NamesUserColumn(patch: Body) {
    exists k :: 0 <= k < |UserFields| && UserFields[k] in patch
  }

  /** updateUser: the patched row of user `id`; None when there is no such
      user, the patch sets nothing, a column refuses its value or the new
      username belongs to another user. */
  function UpdatedUser(us: seq<User>, id: int, patch: Body): (r: Option<User>)
    ensures r.Some? ==> FindUser(us, id).Some? && NamesUserColumn(patch)
    ensures r.Some? ==> ApplyUserPatch(FindUser(us, id).value, patch) == r
    ensures r.Some? ==> !UsernameTaken(us, r.value.username, id)
    ensures FindUser(us, id).Some? && NamesUserColumn(patch) && UserPatchTyped(patch) ==>
      (r.None? <==> UsernameTaken(us, ApplyUserPatch(FindUser(us, id).value, patch).value.username, id))
  {
    var found := FindUser(us, id);
    if found.None? || !NamesUserColumn(patch) then None
    else
      var p := ApplyUserPatch(found.value, patch);
      if p.None? || UsernameTaken(us, p.value.username, id) then None else p
  }

  /** A patch without a password leaves the stored password as it was. */
  lemma UpdatedUserKeepsPassword(us: seq<User>, id: int, patch: Body)
    requires "password" !in patch
    requires UpdatedUser(us, id, patch).Some?
    ensures UpdatedUser(us, id, patch).value.password == FindUser(us, id).value.password
  {
  }

  function ReplaceUser(us: seq<User>, u: User): (r: seq<User>)
    ensures |r| == |us|
    ensures forall k :: 0 <= k < |us| ==> r[k] == (if us[k].id == u.id then u else us[k])
  {
    seq(|us|, k requires 0 <= k < |us| => if us[k].id == u.id then u else us[k])
  }

  // ---------------------------------------------------------------------------
  // Categories

  /** The categories of the sentinel user, which every new user receives a copy of. */
  function DefaultsOf(cats: seq<Category>): (r: seq<Category>)
    ensures forall c :: c in r <==> c in cats && c.userId == DefaultOwner
  {
    Filter(cats, (c: Category) => c.userId == DefaultOwner)
  }

  /** The name of a user's copy of a default category: `<name>-<userId>`. */
  function CopyName(c: Category, uid: int): (r: string)
    ensures |r| > |c.name| + 1 && r[..|c.name|] == c.name && r[|c.name|] == '-'
    ensures r[|c.name| + 1..] == IntToString(uid)
  {
    var r := c.name + "-" + IntToString(uid);
    assert r[|c.name| + 1..] == IntToString(uid);
    r
  }

  /** The part of a copy name after the hyphen reads back as the owner's id. */
  lemma CopyNameOwner(c: Category, uid: int)
    ensures ParseInt(CopyName(c, uid)[|c.name| + 1..]) == Some(uid)
  {
    ParseIntToString(uid);
  }

  /** The rows the seed inserts, with ids from `next` on. */
  function DefaultRows(next: int): (r: seq<Category>)
    ensures |r| == 4
    ensures forall k :: 0 <= k < 4 ==> r[k] == Category(next + k, DefaultCategoryNames[k], DefaultOwner, DefaultCategoryColors[k])
  {
    seq(4, k requires 0 <= k < 4 => Category(next + k, DefaultCategoryNames[k], DefaultOwner, DefaultCategoryColors[k]))
  }

  /** seedCategoriesIfNeeded: nothing when the sentinel user already has a
      category; otherwise the four defaults in one statement, which inserts
      nothing when one of their names is taken. */
  function SeedRows(cats: seq<Category>, next: int): (r: (seq<Category>, int))
    ensures |r.0| >= |cats| && r.0[..|cats|] == cats
    ensures |r.0| > |cats| <==>
      !(exists c :: c in cats && c.userId == DefaultOwner)
      && !(exists k :: 0 <= k < 4 && NameTaken(cats, DefaultCategoryNames[k]))
    ensures |r.0| > |cats| ==> r.0[|cats|..] == DefaultRows(next) && r.1 == next + 4
    ensures |r.0| == |cats| ==> r.1 == next
  {
    if exists c :: c in cats && c.userId == DefaultOwner then (cats, next)
    else if exists k :: 0 <= k < 4 && NameTaken(cats, DefaultCategoryNames[k]) then (cats, next)
    else (cats + DefaultRows(next), next + 4)
  }

  /** Seeding a second time adds nothing. */
  lemma SeedIdempotent(cats: seq<Category>, next: int)
    ensures SeedRows(SeedRows(cats, next).0, SeedRows(cats, next).1) == SeedRows(cats, next)
  {
    var r := SeedRows(cats, next);
    if r.0 != cats {
      var d := DefaultRows(next);
      assert r.0[|cats|] == d[0];
      assert r.0[|cats|] in r.0;
    }
  }

  /** On an empty table the seed inserts exactly the four defaults. */
  lemma SeedEmpty(next: int)
    ensures SeedRows([], next) == (DefaultRows(next), next + 4)
  {
    assert [] + DefaultRows(next) == DefaultRows(next);
  }

  /** One step of createUser's copy loop: insert the copy unless its name is taken. */
  function CopyOne(cats: seq<Category>, next: int, d: Category, uid: int): (r: (seq<Category>, int))
    ensures NameTaken(r.0, CopyName(d, uid))
    ensures NameTaken(cats, CopyName(d, uid)) ==> r == (cats, next)
    ensures !NameTaken(cats, CopyName(d, uid)) ==>
      r == (cats + [Category(next, CopyName(d, uid), uid, d.color)], next + 1)
  {
    var name := CopyName(d, uid);
    if NameTaken(cats, name) then (cats, next)
    else
      var r := cats + [Category(next, name, uid, d.color)];
      assert r[|cats|].name == name;
      (r, next + 1)
  }

  /** createUser's copy loop over `defaults`, from the first to the last; a
      copy that fails does not stop the others. */
  function CopyCategories(cats: seq<Category>, next: int, defaults: seq<Category>, uid: int): (r: (seq<Category>, int))
    ensures |cats| <= |r.0| <= |cats| + |defaults| && r.0[..|cats|] == cats
    ensures r.1 == next + (|r.0| - |cats|)
    decreases |defaults|
  {
    if defaults == [] then (cats, next)
    else
      var s := CopyOne(cats, next, defaults[0], uid);
      assert |cats| <= |s.0| <= |cats| + 1 && s.0[..|cats|] == cats && s.1 == next + (|s.0| - |cats|);
      var r := CopyCategories(s.0, s.1, defaults[1..], uid);
      assert r.0[..|cats|] == r.0[..|s.0|][..|cats|];
      r
  }

  /** One turn of the copy loop. */
  lemma CopyCategoriesStep(cats: seq<Category>, next: int, defaults: seq<Category>, i: int, uid: int)
    requires 0 <= i < |defaults|
    ensures CopyCategories(cats, next, defaults[i..], uid)
      == CopyCategories(CopyOne(cats, next, defaults[i], uid).0, CopyOne(cats, next, defaults[i], uid).1, defaults[i + 1..], uid)
  {
    assert defaults[i..][0] == defaults[i] && defaults[i..][1..] == defaults[i + 1..];
  }

  /** The copy loop keeps the old rows, adds rows with consecutive fresh ids,
      each a copy (owner `uid`, name `<name>-<uid>`, same colour) of a default,
      and leaves every default's copy name taken. */
  lemma CopyCategoriesSpec(cats: seq<Category>, next: int, defaults: seq<Category>, uid: int)
    ensures var r := CopyCategories(cats, next, defaults, uid);
      |cats| <= |r.0| && r.0[..|cats|] == cats && r.1 == next + (|r.0| - |cats|)
    ensures var r := CopyCategories(cats, next, defaults, uid);
      forall k :: |cats| <= k < |r.0| ==>
        r.0[k].id == next + (k - |cats|) && r.0[k].userId == uid
        && exists d :: d in defaults && r.0[k].name == CopyName(d, uid) && r.0[k].color == d.color
    ensures var r := CopyCategories(cats, next, defaults, uid);
      forall d :: d in defaults ==> NameTaken(r.0, CopyName(d, uid))
  {
    CopyCategoriesRows(cats, next, defaults, uid);
    CopyCategoriesTaken(cats, next, defaults, uid);
  }

  /** Every row the copy loop adds is a copy of a default with the next id. */
  lemma {:induction false} CopyCategoriesRows(cats: seq<Category>, next: int, defaults: seq<Category>, uid: int)
    ensures var r := CopyCategories(cats, next, defaults, uid);
      forall k :: |cats| <= k < |r.0| ==>
        r.0[k].id == next + (k - |cats|) && r.0[k].userId == uid
        && exists d :: d in defaults && r.0[k].name == CopyName(d, uid) && r.0[k].color == d.color
    decreases |defaults|
  {
    if defaults != [] {
      var s := CopyOne(cats, next, defaults[0], uid);
      CopyCategoriesRows(s.0, s.1, defaults[1..], uid);
      var r := CopyCategories(cats, next, defaults, uid);
      assert r == CopyCategories(s.0, s.1, defaults[1..], uid);
      assert r.0[..|s.0|] == s.0;
      forall k | |cats| <= k < |r.0|
        ensures r.0[k].id == next + (k - |cats|) && r.0[k].userId == uid
        ensures exists d :: d in defaults && r.0[k].name == CopyName(d, uid) && r.0[k].color == d.color
      {
        if k < |s.0| {
          assert r.0[k] == s.0[k] == Category(next, CopyName(defaults[0], uid), uid, defaults[0].color);
          assert defaults[0] in defaults;
        } else {
          var d :| d in defaults[1..] && r.0[k].name == CopyName(d, uid) && r.0[k].color == d.color;
          assert d in defaults;
        }
      }
    }
  }

  /** After the copy loop every default's copy name is taken. */
  lemma {:induction false} CopyCategoriesTaken(cats: seq<Category>, next: int, defaults: seq<Category>, uid: int)
    ensures var r := CopyCategories(cats, next, defaults, uid);
      forall d :: d in defaults ==> NameTaken(r.0, CopyName(d, uid))
    decreases |defaults|
  {
    if defaults != [] {
      var s := CopyOne(cats, next, defaults[0], uid);
      CopyCategoriesTaken(s.0, s.1, defaults[1..], uid);
      var r := CopyCategories(cats, next, defaults, uid);
      assert r == CopyCategories(s.0, s.1, defaults[1..], uid);
      assert r.0[..|s.0|] == s.0;
      forall d | d in defaults ensures NameTaken(r.0, CopyName(d, uid)) {
        if d == defaults[0] {
          var name := CopyName(d, uid);
          var k :| 0 <= k < |s.0| && s.0[k].name == name;
          assert r.0[k] == s.0[k];
        } else {
          assert d in defaults[1..];
        }
      }
    }
  }

  /** The copy loop keeps category names unique. */
  lemma {:induction false} CopyCategoriesUnique(cats: seq<Category>, next: int, defaults: seq<Category>, uid: int)
    requires UniqueNames(cats)
    ensures UniqueNames(CopyCategories(cats, next, defaults, uid).0)
    decreases |defaults|
  {
    if defaults != [] {
      var s := CopyOne(cats, next, defaults[0], uid);
      assert UniqueNames(s.0);
      CopyCategoriesUnique(s.0, s.1, defaults[1..], uid);
    }
  }

  // ---------------------------------------------------------------------------
  // Table invariants

  ghost predicate UsersOk(us: seq<User>, next: int) {
    (forall u :: u in us ==> 1 <= u.id < next)
    && (forall a, b :: a in us && b in us && a.id == b.id ==> a == b)
    && (forall a, b :: a in us && b in us && a.username == b.username ==> a == b)
  }

  ghost predicate TasksOk(ts: seq<Task>, next: int) {
    (forall t :: t in ts ==> 1 <= t.id < next && (t.dueDate.Some? ==> InRange(t.dueDate.value)))
    && (forall a, b :: a in ts && b in ts && a.id == b.id ==> a == b)
  }

  ghost predicate CategoriesOk(cs: seq<Category>, next: int) {
    (forall c :: c in cs ==> 1 <= c.id < next)
    && (forall a, b :: a in cs && b in cs && a.id == b.id ==> a == b)
    && UniqueNames(cs)
  }

  /** Appending a row with the next id and a free name keeps the categories valid. */
  lemma CategoriesAppend(cs: seq<Category>, next: int, row: Category)
    requires CategoriesOk(cs, next) && 1 <= next && row.id == next && !NameTaken(cs, row.name)
    ensures CategoriesOk(cs + [row], next + 1)
  {
    assert forall c :: c in cs ==> c.name != row.name;
    assert forall c :: c in cs + [row] ==> c in cs || c == row;
  }

  /** Appending the four defaults, none of whose names is taken, keeps the
      categories valid. */
  lemma CategoriesAppendDefaults(cs: seq<Category>, next: int)
    requires CategoriesOk(cs, next) && 1 <= next
    requires forall k :: 0 <= k < 4 ==> !NameTaken(cs, DefaultCategoryNames[k])
    ensures CategoriesOk(cs + DefaultRows(next), next + 4)
  {
    var rows := DefaultRows(next);
    DefaultNamesDistinct();
    assert forall c, k :: c in cs && 0 <= k < 4 ==> c.name != rows[k].name;
    assert forall c :: c in cs + rows ==> c in cs || exists k :: 0 <= k < 4 && c == rows[k];
  }

  /** Appending a user with the next id and a free username keeps the users valid. */
  lemma UsersAppend(us: seq<User>, next: int, u: User)
    requires UsersOk(us, next) && 1 <= next && u.id == next && !UsernameTaken(us, u.username, -1)
    ensures UsersOk(us + [u], next + 1)
  {
    assert forall a :: a in us ==> a.username != u.username;
    assert forall a :: a in us + [u] ==> a in us || a == u;
  }

  /** Replacing a task by a row with the same id and a due date in range keeps
      the tasks valid. */
  lemma TasksReplace(ts: seq<Task>, next: int, t: Task)
    requires TasksOk(ts, next) && FindTask(ts, t.id).Some?
    requires t.dueDate.Some? ==> InRange(t.dueDate.value)
    ensures TasksOk(ReplaceTask(ts, t), next)
  {
    var r := ReplaceTask(ts, t);
    forall a | a in r ensures a == t || (a in ts && a.id != t.id) {
      var k :| 0 <= k < |r| && r[k] == a;
      assert ts[k] in ts;
    }
  }

  /** Replacing a user by a row with the same id and a username no other user
      has keeps the users valid. */
  lemma UsersReplace(us: seq<User>, next: int, u: User)
    requires UsersOk(us, next) && FindUser(us, u.id).Some?
    requires !UsernameTaken(us, u.username, u.id)
    ensures UsersOk(ReplaceUser(us, u), next)
  {
    var r := ReplaceUser(us, u);
    forall a | a in r ensures a == u || (a in us && a.id != u.id) {
      var k :| 0 <= k < |r| && r[k] == a;
      assert us[k] in us;
    }
    forall b | b in us && b.id != u.id ensures b.username != u.username {
      var k :| 0 <= k < |us| && us[k] == b;
    }
  }

  /** createUser's copy loop: a copy of every default category for the user
      `uid`, one insert at a time, skipping a copy whose name is already
      taken.  The table stays valid throughout. */
  method InsertCopies(cats: seq<Category>, next: int, defaults: seq<Category>, uid: int)
    returns (cats': seq<Category>, next': int)
    requires CategoriesOk(cats, next) && 1 <= next
    ensures (cats', next') == CopyCategories(cats, next, defaults, uid)
    ensures CategoriesOk(cats', next') && 1 <= next'
  {
    cats', next' := cats, next;
    var i := 0;
    while i < |defaults|
      invariant 0 <= i <= |defaults|
      invariant CopyCategories(cats', next', defaults[i..], uid) == CopyCategories(cats, next, defaults, uid)
      invariant CategoriesOk(cats', next') && 1 <= next'
    {
      CopyCategoriesStep(cats', next', defaults, i, uid);
      var name := CopyName(defaults[i], uid);
      var step := CopyOne(cats', next', defaults[i], uid);
      if !NameTaken(cats', name) {
        CategoriesAppend(cats', next', Category(next', name, uid, defaults[i].color));
      }
      cats', next' := step.0, step.1;
      i := i + 1;
    }
    assert defaults[i..] == [];
  }

  /** The tables, held in memory, and the next value of each id sequence. */
  class Store {
    var users: seq<User>
    var tasks: seq<Task>
    var categories: seq<Category>
    var nextUserId: int
    var nextTaskId: int
    var nextCategoryId: int

    ghost predicate Valid()
      reads this
    {
      1 <= nextUserId && 1 <= nextTaskId && 1 <= nextCategoryId
      && UsersOk(users, nextUserId) && TasksOk(tasks, nextTaskId)
      && CategoriesOk(categories, nextCategoryId)
    }

    /** A new storage with empty tables, seeded with the default categories. */
    constructor()
      ensures Valid()
      ensures users == [] && tasks == []
      ensures categories == DefaultRows(1)
    {
      users, tasks, categories := [], [], [];
      nextUserId, nextTaskId, nextCategoryId := 1, 1, 1;
      new;
      SeedCategoriesIfNeeded();
    }

    method SeedCategoriesIfNeeded()
      modifies this
      requires Valid()
      ensures Valid()
      ensures (categories, nextCategoryId) == SeedRows(old(categories), old(nextCategoryId))
      ensures users == old(users) && tasks == old(tasks)
      ensures nextUserId == old(nextUserId) && nextTaskId == old(nextTaskId)
    {
      var defaults := DefaultsOf(categories);
      if |defaults| == 0 {
        assert !exists c :: c in categories && c.userId == DefaultOwner;
        if !exists k :: 0 <= k < 4 && NameTaken(categories, DefaultCategoryNames[k]) {
          CategoriesAppendDefaults(categories, nextCategoryId);
          categories := categories + DefaultRows(nextCategoryId);
          nextCategoryId := nextCategoryId + 4;
        }
      } else {
        assert defaults[0] in defaults;
      }
    }

    /** getTask */
    function GetTask(id: int): (r: Option<Task>)
      reads this
      ensures r.Some? <==> exists t :: t in tasks && t.id == id
      ensures r.Some? ==> r.value in tasks && r.value.id == id
    {
      FindTask(tasks, id)
    }

    /** getUserTasks */
    function GetUserTasks(uid: int): (r: seq<Task>)
      reads this
      ensures forall t :: t in r <==> t in tasks && t.userId == uid
    {
      UserTasks(tasks, uid)
    }

    /** getTasksByStatus */
    function GetTasksByStatus(uid: int, status: string): (r: seq<Task>)
      reads this
      ensures forall t :: t in r <==> t in tasks && t.userId == uid && t.status == status
    {
      TasksWithStatus(tasks, uid, status)
    }

    /** getTasksByPriority */
    function GetTasksByPriority(uid: int, priority: string): (r: seq<Task>)
      reads this
      ensures forall t :: t in r <==> t in tasks && t.userId == uid && t.priority == priority
    {
      TasksWithPriority(tasks, uid, priority)
    }

    /** getTasksByDate */
    function GetTasksByDate(uid: int, date: Value, now: int, parse: string -> JsTime): (r: seq<Task>)
      reads this
      requires InRange(now)
      ensures ReferenceTime(date, now, parse) != MaxTime ==> forall t :: t in r <==>
        t in tasks && t.userId == uid && t.dueDate.Some?
        && DayNumber(t.dueDate.value) == DayNumber(ReferenceTime(date, now, parse))
    {
      TasksOnDate(tasks, uid, date, now, parse)
    }

    /** getTaskCategories */
    function GetTaskCategories(uid: int): (r: seq<Category>)
      reads this
      ensures forall c :: c in r <==> c in categories && c.userId == uid
    {
      Filter(categories, (c: Category) => c.userId == uid)
    }

    /** getTaskCompletionStats: the counts, or all zero when the store fails. */
    function GetTaskCompletionStats(uid: int, storeFails: bool): (r: Stats)
      reads this
      ensures storeFails ==> r == Stats(0, 0, 0)
      ensures !storeFails ==> r == CompletionStats(tasks, uid)
      ensures r.completed + r.inProgress + r.pending <= |GetUserTasks(uid)|
    {
      CompletionStatsBound(tasks, uid);
      if storeFails then Stats(0, 0, 0) else CompletionStats(tasks, uid)
    }

    /** getUser */
    function GetUser(id: int): (r: Option<User>)
      reads this
      ensures r.Some? ==> r.value in users && r.value.id == id
      ensures r.None? ==> forall u :: u in users ==> u.id != id
    {
      FindUser(users, id)
    }

    /** createTask: copy the validated insert, normalise its due date, insert it. */
    method CreateTask(t: InsertTask, now: int, parse: string -> JsTime) returns (task: Task)
      modifies this
      requires Valid()
      ensures Valid()
      ensures task == NewTaskRow(old(nextTaskId), t, now, parse)
      ensures tasks == old(tasks) + [task] && nextTaskId == old(nextTaskId) + 1
      ensures users == old(users) && categories == old(categories)
      ensures nextUserId == old(nextUserId) && nextCategoryId == old(nextCategoryId)
    {
      var due := DueValue(t.dueDate);
      var normalised := NormaliseDueDate(due, parse);
      task := NewTaskRow(nextTaskId, t, now, parse);
      assert task.dueDate == DueColumn(normalised);
      tasks := tasks + [task];
      nextTaskId := nextTaskId + 1;
    }

    /** updateTask: the patched row, or None when there is no such task or the
        database refuses a value; nothing changes then. */
    method UpdateTask(id: int, patch: Body, now: int, parse: string -> JsTime) returns (r: Option<Task>)
      modifies this
      requires Valid()
      ensures Valid()
      ensures r == (match FindTask(old(tasks), id)
                    case None => None
                    case Some(t) => UpdatedTask(t, patch, now, parse))
      ensures r.Some? ==> tasks == ReplaceTask(old(tasks), r.value)
      ensures r.None? ==> tasks == old(tasks)
      ensures users == old(users) && categories == old(categories)
      ensures nextUserId == old(nextUserId) && nextTaskId == old(nextTaskId)
      ensures nextCategoryId == old(nextCategoryId)
    {
      var found := FindTask(tasks, id);
      if found.None? {
        return None;
      }
      r := UpdatedTask(found.value, patch, now, parse);
      UpdatedTaskDueDate(found.value, patch, now, parse);
      if r.Some? {
        var updated := r.value;
        var ts := ReplaceTask(tasks, updated);
        TasksReplace(tasks, nextTaskId, updated);
        tasks := ts;
      }
    }

    /** deleteTask: true whether or not a task with that id existed; false only
        when the store fails, and then nothing changes. */
    method DeleteTask(id: int, storeFails: bool) returns (ok: bool)
      modifies this
      requires Valid()
      ensures Valid()
      ensures ok == !storeFails
      ensures ok ==> tasks == Filter(old(tasks), (t: Task) => t.id != id)
      ensures !ok ==> tasks == old(tasks)
      ensures users == old(users) && categories == old(categories)
      ensures nextUserId == old(nextUserId) && nextTaskId == old(nextTaskId)
      ensures nextCategoryId == old(nextCategoryId)
    {
      if storeFails {
        return false;
      }
      tasks := Filter(tasks, (t: Task) => t.id != id);
      return true;
    }

    /** createUser: insert the user (refused when the username is taken), then
        copy every default category for the new user, one insert at a time,
        skipping a copy whose name is already taken. */
    method CreateUser(u: InsertUser, now: int) returns (r: Result<User, StoreError>)
      modifies this
      requires Valid()
      ensures Valid()
      ensures r.Err? <==> UsernameTaken(old(users), u.username, -1)
      ensures r.Err? ==> r.error == UniqueViolation("username")
      ensures r.Err? ==> users == old(users) && categories == old(categories)
      ensures r.Err? ==> nextUserId == old(nextUserId) && nextCategoryId == old(nextCategoryId)
      ensures r.Ok? ==> r.value == NewUserRow(old(nextUserId), u, now)
      ensures r.Ok? ==> users == old(users) + [r.value] && nextUserId == old(nextUserId) + 1
      ensures r.Ok? ==>
        (categories, nextCategoryId) == CopyCategories(old(categories), old(nextCategoryId), DefaultsOf(old(categories)), r.value.id)
      ensures tasks == old(tasks) && nextTaskId == old(nextTaskId)
    {
      if UsernameTaken(users, u.username, -1) {
        return Err(UniqueViolation("username"));
      }
      var user := NewUserRow(nextUserId, u, now);
      UsersAppend(users, nextUserId, user);
      var defaults := DefaultsOf(categories);
      var cats, next := InsertCopies(categories, nextCategoryId, defaults, user.id);
      users, nextUserId := users + [user], nextUserId + 1;
      categories, nextCategoryId := cats, next;
      assert UsersOk(users, nextUserId) && TasksOk(tasks, nextTaskId) && CategoriesOk(categories, nextCategoryId);
      return Ok(user);
    }

    /** updateUser: the patched user, or None when there is no such user, a
        column refuses its value, or the new username is taken by another user. */
    method UpdateUser(id: int, patch: Body) returns (r: Option<User>)
      modifies this
      requires Valid()
      ensures Valid()
      ensures r == UpdatedUser(old(users), id, patch)
      ensures r.Some? ==> users == ReplaceUser(old(users), r.value)
      ensures r.None? ==> users == old(users)
      ensures tasks == old(tasks) && categories == old(categories)
      ensures nextUserId == old(nextUserId) && nextTaskId == old(nextTaskId)
      ensures nextCategoryId == old(nextCategoryId)
    {
      var found := FindUser(users, id);
      if found.None? || !NamesUserColumn(patch) {
        return None;
      }
      var patched := ApplyUserPatch(found.value, patch);
      if patched.None? || UsernameTaken(users, patched.value.username, id) {
        return None;
      }
      var updated := patched.value;
      var us := ReplaceUser(users, updated);
      UsersReplace(users, nextUserId, updated);
      users := us;
      r := patched;
    }

    /** createTaskCategory: the name and the colour are stored as their
        parameter text (a number or a boolean as its text), both are required,
        and the name must not be used by any category. */
    method CreateTaskCategory(name: Option<Value>, color: Option<Value>, uid: int)
      returns (r: Result<Category, StoreError>)
      modifies this
      requires Valid()
      ensures Valid()
      ensures r.Ok? <==>
        name.Some? && ParamText(name.value).Some? && color.Some? && ParamText(color.value).Some?
        && !NameTaken(old(categories), ParamText(name.value).value)
      ensures r.Ok? ==>
        r.value == Category(old(nextCategoryId), ParamText(name.value).value, uid, ParamText(color.value).value)
      ensures r.Err? && (name.None? || name.value.Null?) ==> r.error == NotNullViolation("name")
      ensures r.Ok? ==> categories == old(categories) + [r.value]
      ensures r.Ok? ==> nextCategoryId == old(nextCategoryId) + 1
      ensures r.Err? ==> categories == old(categories) && nextCategoryId == old(nextCategoryId)
      ensures users == old(users) && tasks == old(tasks)
      ensures nextUserId == old(nextUserId) && nextTaskId == old(nextTaskId)
    {
      if name.None? || name.value.Null? {
        return Err(NotNullViolation("name"));
      }
      var nameText := ParamText(name.value);
      if nameText.None? {
        return Err(InvalidValue("name"));
      }
      if color.None? || color.value.Null? {
        return Err(NotNullViolation("color"));
      }
      var colorText := ParamText(color.value);
      if colorText.None? {
        return Err(InvalidValue("color"));
      }
      if NameTaken(categories, nameText.value) {
        return Err(UniqueViolation("name"));
      }
      var row := Category(nextCategoryId, nameText.value, uid, colorText.value);
      CategoriesAppend(categories, nextCategoryId, row);
      categories := categories + [row];
      nextCategoryId := nextCategoryId + 1;
      return Ok(row);
    }

    /** getWeeklyActivity from the grouped rows: every weekday starts at 0, each
        row then sets its weekday's entry, and the seven weekdays are reported
        Sunday first, an entry that is 0 or NaN reporting 0.  On a store failure
        the handler itself throws (see WeeklyFallbackAsWritten). */
    method GetWeeklyActivity(rows: seq<ActivityRow>, storeFails: bool) returns (r: Result<seq<DayCount>, string>)
      ensures storeFails ==> r == WeeklyFallbackAsWritten()
      ensures !storeFails ==> r.Ok? && |r.value| == 7
      ensures !storeFails ==> forall i :: 0 <= i < 7 ==>
        r.value[i].day == DayNames[i] && r.value[i].count == DayEntry(rows, i).GetOr(0)
    {
      if storeFails {
        return WeeklyFallbackAsWritten();
      }
      DayNamesDistinct();
      var counts: map<string, Option<int>> := map[];
      var d := 0;
      while d < 7
        invariant 0 <= d <= 7
        invariant forall i :: 0 <= i < d ==> DayNames[i] in counts && counts[DayNames[i]] == Some(0)
      {
        counts := counts[DayNames[d] := Some(0)];
        d := d + 1;
      }
      var k := 0;
      while k < |rows|
        invariant 0 <= k <= |rows|
        invariant forall i :: 0 <= i < 7 ==> DayNames[i] in counts && counts[DayNames[i]] == DayEntry(rows[..k], i)
      {
        assert rows[..k + 1][..k] == rows[..k];
        var day := RowDay(rows[k]);
        if day.Some? {
          counts := counts[DayNames[day.value] := ParseDecimal(rows[k].count)];
        }
        // A row whose day is not an index of DayNames sets a key that no
        // weekday reads.
        k := k + 1;
      }
      assert rows[..k] == rows;
      r := Ok(seq(7, i requires 0 <= i < 7 => DayCount(DayNames[i], counts[DayNames[i]].GetOr(0))));
    }
  }
}
