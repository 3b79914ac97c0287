/** The shared data model: the users, tasks and task_categories tables, their
    column defaults, the status and priority value domains, and the request
    validation schemas for inserting users and tasks. */
module Schema {
  import opened Wrappers
  import opened Dates

  // ---------------------------------------------------------------------------
  // JavaScript values as they arrive in a request body

  /** A property value of a parsed request body (or of an object handed to the
      storage layer).  Numbers are integers here; `DateObj` is a Date object. */
  datatype Value =
    | Null
    | Bool(b: bool)
    | Num(n: int)
    | Str(s: string)
    | DateObj(t: JsTime)
    | Other(text: string)        // an array or a plain object, with String(v)

  /** A request body: its own enumerable properties.  An absent key is `undefined`. */
  type Body = map<string, Value>

  /** JavaScript truthiness of a property, `undefined` included as `None`. */
  predicate Truthy(v: Option<Value>) {
    match v
    case None => false
    case Some(Null) => false
    case Some(Bool(b)) => b
    case Some(Num(n)) => n != 0
    case Some(Str(s)) => s != ""
    case Some(DateObj(_)) => true
    case Some(Other(_)) => true
  }

  function Lookup(body: Body, key: string): Option<Value> {
    if key in body then Some(body[key]) else None
  }

  /** An optional, nullable property after validation. */
  datatype Entry<+T> = Absent | Nulled | Given(value: T)

  // ---------------------------------------------------------------------------
  // Value domains

  const Pending: string := "pending"
  const InProgress: string := "in-progress"
  const Completed: string := "completed"

  const Low: string := "low"
  const Medium: string := "medium"
  const High: string := "high"

  predicate IsStatus(s: string) {
    s == Pending || s == InProgress || s == Completed
  }

  predicate IsPriority(s: string) {
    s == Low || s == Medium || s == High
  }

  /** The three statuses are different strings, as are the three priorities. */
  lemma DomainsDistinct()
    ensures Pending != InProgress && InProgress != Completed && Pending != Completed
    ensures Low != Medium && Medium != High && Low != High
  {
    assert Pending[0] != InProgress[0] && Pending[0] != Completed[0];
    assert InProgress[1] != Completed[1];
    assert Low[0] != Medium[0] && Low[0] != High[0] && Medium[0] != High[0];
  }

  // ---------------------------------------------------------------------------
  // Rows

  datatype User = User(
    id: int,
    username: string,
    password: string,
    name: Option<string>,
    email: Option<string>,
    avatar: Option<string>,
    birthday: Option<string>,
    createdAt: int)

  /** A user as sent to a client: every column but the password. */
  datatype PublicUser = PublicUser(
    id: int,
    username: string,
    name: Option<string>,
    email: Option<string>,
    avatar: Option<string>,
    birthday: Option<string>,
    createdAt: int)

  function WithoutPassword(u: User): (p: PublicUser)
    ensures p.id == u.id && p.username == u.username && p.name == u.name
    ensures p.email == u.email && p.avatar == u.avatar && p.birthday == u.birthday
    ensures p.createdAt == u.createdAt
  {
    PublicUser(u.id, u.username, u.name, u.email, u.avatar, u.birthday, u.createdAt)
  }

  /** A task row.  `status` and `priority` are plain text columns: nothing in
      the table restricts them to the value domains above. */
  datatype Task = Task(
    id: int,
    title: string,
    description: Option<string>,
    dueDate: Option<int>,
    status: string,
    priority: string,
    userId: int,
    completed: Option<bool>,
    createdAt: int,
    updatedAt: int)

  datatype Category = Category(id: int, name: string, userId: int, color: string)

  // ---------------------------------------------------------------------------
  // Column defaults of the tasks table

  const DefaultStatus: string := Pending
  const DefaultPriority: string := Medium

  /** The value stored in a text column with a default. */
  function TextColumn(v: Option<string>, default: string): (r: string)
    ensures v.None? ==> r == default
    ensures v.Some? ==> r == v.value
  {
    v.GetOr(default)
  }

  /** The stored `completed` flag: false when the insert leaves it out, NULL
      when it sends null. */
  function CompletedColumn(e: Entry<bool>): (r: Option<bool>)
    ensures e.Absent? ==> r == Some(false)
    ensures e.Nulled? ==> r.None?
    ensures e.Given? ==> r == Some(e.value)
  {
    match e
    case Absent => Some(false)
    case Nulled => None
    case Given(b) => Some(b)
  }

  /** The stored value of a nullable text column. */
  function NullableColumn(e: Entry<string>): (r: Option<string>)
    ensures r.Some? <==> e.Given?
    ensures e.Given? ==> r.value == e.value
  {
    if e.Given? then Some(e.value) else None
  }

  // ---------------------------------------------------------------------------
  // insertTaskSchema

  /** The due date an insert may carry: a Date object or a string. */
  datatype DueInput = DueDate(t: JsTime) | DueText(s: string)

  /** A task insert that passed validation. */
  datatype InsertTask = InsertTask(
    title: string,
    description: Entry<string>,
    dueDate: Option<DueInput>,
    status: string,
    priority: string,
    userId: int,
    completed: Entry<bool>)

  /** The properties the task insert schema knows, in declaration order: the
      table's columns without id, createdAt and updatedAt. */
  const TaskFields: seq<string> :=
    ["title", "description", "dueDate", "status", "priority", "userId", "completed"]

  predicate TitleOk(v: Option<Value>) { v.Some? && v.value.Str? }

  predicate OptionalTextOk(v: Option<Value>) {
    v.None? || v.value.Null? || v.value.Str?
  }

  /** `z.date().optional().or(z.string().optional())`: absent, a valid Date, or a
      string; null and an Invalid Date are refused. */
  predicate DueDateOk(v: Option<Value>) {
    v.None? || (v.value.DateObj? && v.value.t.At?) || v.value.Str?
  }

  predicate StatusOk(v: Option<Value>) { v.Some? && v.value.Str? && IsStatus(v.value.s) }

  predicate PriorityOk(v: Option<Value>) { v.Some? && v.value.Str? && IsPriority(v.value.s) }

  predicate UserIdOk(v: Option<Value>) { v.Some? && v.value.Num? }

  predicate OptionalBoolOk(v: Option<Value>) {
    v.None? || v.value.Null? || v.value.Bool?
  }

  /** Whether the value of `field` in `body` passes its check. */
  predicate FieldOk(body: Body, field: string) {
    var v := Lookup(body, field);
    match field
    case "title" => TitleOk(v)
    case "description" => OptionalTextOk(v)
    case "dueDate" => DueDateOk(v)
    case "status" => StatusOk(v)
    case "priority" => PriorityOk(v)
    case "userId" => UserIdOk(v)
    case "completed" => OptionalBoolOk(v)
    case _ => true
  }

  /** The fields of `fields` that fail their check, in order. */
  function FailedFields(body: Body, fields: seq<string>): (r: seq<string>)
    ensures forall f :: f in r <==> f in fields && !FieldOk(body, f)
    ensures |r| <= |fields|
  {
    if fields == [] then []
    else (if FieldOk(body, fields[0]) then [] else [fields[0]]) + FailedFields(body, fields[1..])
  }

  /** An optional, nullable text property as the insert carries it. */
  function TextEntry(v: Option<Value>): (r: Entry<string>)
    requires OptionalTextOk(v)
    ensures r.Absent? <==> v.None?
    ensures r.Nulled? <==> v == Some(Null)
    ensures r.Given? ==> v == Some(Str(r.value))
  {
    if v.None? then Absent else if v.value.Null? then Nulled else Given(v.value.s)
  }

  /** An optional, nullable boolean property as the insert carries it. */
  function BoolEntry(v: Option<Value>): (r: Entry<bool>)
    requires OptionalBoolOk(v)
    ensures r.Absent? <==> v.None?
    ensures r.Nulled? <==> v == Some(Null)
    ensures r.Given? ==> v == Some(Bool(r.value))
  {
    if v.None? then Absent else if v.value.Null? then Nulled else Given(v.value.b)
  }

  /** The due date as the insert carries it: a Date or a string, as sent. */
  function DueEntry(v: Option<Value>): (r: Option<DueInput>)
    requires DueDateOk(v)
    ensures r.None? <==> v.None?
    ensures v.Some? && v.value.Str? ==> r == Some(DueText(v.value.s))
    ensures v.Some? && v.value.DateObj? ==> r == Some(DueDate(v.value.t))
  {
    if v.None? then None
    else if v.value.DateObj? then Some(DueDate(v.value.t))
    else Some(DueText(v.value.s))
  }

  /** Every property of the task insert schema passes its check. */
  predicate TaskBodyOk(body: Body) {
    TitleOk(Lookup(body, "title")) && OptionalTextOk(Lookup(body, "description"))
    && DueDateOk(Lookup(body, "dueDate")) && StatusOk(Lookup(body, "status"))
    && PriorityOk(Lookup(body, "priority")) && UserIdOk(Lookup(body, "userId"))
    && OptionalBoolOk(Lookup(body, "completed"))
  }

  lemma TaskBodyOkFields(body: Body)
    ensures TaskBodyOk(body) <==> forall f :: f in TaskFields ==> FieldOk(body, f)
  {
    if forall f :: f in TaskFields ==> FieldOk(body, f) {
      assert FieldOk(body, TaskFields[0]) && FieldOk(body, TaskFields[1]) && FieldOk(body, TaskFields[2]);
      assert FieldOk(body, TaskFields[3]) && FieldOk(body, TaskFields[4]);
      assert FieldOk(body, TaskFields[5]) && FieldOk(body, TaskFields[6]);
    }
  }

  /** insertTaskSchema.parse: either the task insert, with unknown properties
      dropped, or the failing properties in declaration order. */
  function ValidateInsertTask(body: Body): (r: Result<InsertTask, seq<string>>)
    ensures r.Ok? <==> forall f :: f in TaskFields ==> FieldOk(body, f)
    ensures r.Err? ==> r.error != [] && forall f :: f in r.error <==> f in TaskFields && !FieldOk(body, f)
    ensures r.Ok? ==> IsStatus(r.value.status) && IsPriority(r.value.priority)
    ensures r.Ok? ==> Lookup(body, "title") == Some(Str(r.value.title))
    ensures r.Ok? ==> Lookup(body, "status") == Some(Str(r.value.status))
    ensures r.Ok? ==> Lookup(body, "priority") == Some(Str(r.value.priority))
    ensures r.Ok? ==> Lookup(body, "userId") == Some(Num(r.value.userId))
    ensures r.Ok? ==> OptionalTextOk(Lookup(body, "description")) && r.value.description == TextEntry(Lookup(body, "description"))
    ensures r.Ok? ==> OptionalBoolOk(Lookup(body, "completed")) && r.value.completed == BoolEntry(Lookup(body, "completed"))
    ensures r.Ok? ==> DueDateOk(Lookup(body, "dueDate")) && r.value.dueDate == DueEntry(Lookup(body, "dueDate"))
    ensures r.Ok? ==> (r.value.dueDate.None? <==> Lookup(body, "dueDate").None?)
    ensures r.Ok? && Lookup(body, "dueDate").Some? && Lookup(body, "dueDate").value.Str? ==>
      r.value.dueDate == Some(DueText(Lookup(body, "dueDate").value.s))
    ensures r.Ok? && Lookup(body, "dueDate").Some? && Lookup(body, "dueDate").value.DateObj? ==>
      r.value.dueDate == Some(DueDate(Lookup(body, "dueDate").value.t))
  {
    TaskBodyOkFields(body);
    if !TaskBodyOk(body) then
      var failed := FailedFields(body, TaskFields);
      assert failed != [] && failed[0] in failed;
      Err(failed)
    else
      Ok(InsertTask(
        Lookup(body, "title").value.s,
        TextEntry(Lookup(body, "description")),
        DueEntry(Lookup(body, "dueDate")),
        Lookup(body, "status").value.s,
        Lookup(body, "priority").value.s,
        Lookup(body, "userId").value.n,
        BoolEntry(Lookup(body, "completed"))))
  }

  /** The keys of `body` that are among `fields`. */
  function Restrict(body: Body, fields: seq<string>): (r: Body)
    ensures forall k :: k in r <==> k in body && k in fields
    ensures forall k :: k in r ==> r[k] == body[k]
  {
    map k | k in body && k in fields :: body[k]
  }

  /** Properties the schema does not know (id, createdAt, updatedAt, or any
      other) have no effect on validation. */
  lemma ValidateIgnoresUnknownKeys(body: Body)
    ensures ValidateInsertTask(body) == ValidateInsertTask(Restrict(body, TaskFields))
  {
    var r := Restrict(body, TaskFields);
    assert Lookup(r, "title") == Lookup(body, "title");
    assert Lookup(r, "description") == Lookup(body, "description");
    assert Lookup(r, "dueDate") == Lookup(body, "dueDate");
    assert Lookup(r, "status") == Lookup(body, "status");
    assert Lookup(r, "priority") == Lookup(body, "priority");
    assert Lookup(r, "userId") == Lookup(body, "userId");
    assert Lookup(r, "completed") == Lookup(body, "completed");
    assert forall f :: f in TaskFields ==> Lookup(body, f) == Lookup(r, f);
    FailedFieldsAgree(body, r, TaskFields, TaskFields);
  }

  lemma {:induction false} FailedFieldsAgree(a: Body, b: Body, fields: seq<string>, known: seq<string>)
    requires forall f :: f in fields ==> f in known
    requires forall f :: f in known ==> Lookup(a, f) == Lookup(b, f)
    ensures FailedFields(a, fields) == FailedFields(b, fields)
  {
    if fields != [] {
      assert FieldOk(a, fields[0]) == FieldOk(b, fields[0]);
      FailedFieldsAgree(a, b, fields[1..], known);
    }
  }

  /** A creation body whose status or priority lies outside its domain is
      refused, and the errors name it. */
  lemma InvalidStatusRefused(body: Body)
    requires !StatusOk(Lookup(body, "status"))
    ensures ValidateInsertTask(body).Err?
    ensures "status" in ValidateInsertTask(body).error
  {
    assert !FieldOk(body, "status");
  }

  /** The title is required: a body without one is refused. */
  lemma TitleRequired(body: Body)
    requires "title" !in body
    ensures ValidateInsertTask(body).Err?
    ensures "title" in ValidateInsertTask(body).error
  {
    assert !FieldOk(body, "title");
  }

  // ---------------------------------------------------------------------------
  // insertUserSchema

  datatype InsertUser = InsertUser(
    username: string,
    password: string,
    name: Entry<string>,
    email: Entry<string>,
    avatar: Entry<string>,
    birthday: Entry<string>)

  /** The properties the user insert schema picks. */
  const UserFields: seq<string> := ["username", "password", "name", "email", "avatar", "birthday"]

  predicate UserFieldOk(body: Body, field: string) {
    var v := Lookup(body, field);
    if field == "username" || field == "password" then v.Some? && v.value.Str?
    else OptionalTextOk(v)
  }

  /** insertUserSchema.parse: username and password are required strings;
      name, email, avatar and birthday are optional and nullable.  Any other
      property, id and createdAt included, is dropped. */
  function ValidateInsertUser(body: Body): (r: Option<InsertUser>)
    ensures r.Some? <==> forall f :: f in UserFields ==> UserFieldOk(body, f)
    ensures r.Some? ==> Lookup(body, "username") == Some(Str(r.value.username))
    ensures r.Some? ==> Lookup(body, "password") == Some(Str(r.value.password))
    ensures r.Some? ==> OptionalTextOk(Lookup(body, "name")) && r.value.name == TextEntry(Lookup(body, "name"))
    ensures r.Some? ==> OptionalTextOk(Lookup(body, "email")) && r.value.email == TextEntry(Lookup(body, "email"))
    ensures r.Some? ==> OptionalTextOk(Lookup(body, "avatar")) && r.value.avatar == TextEntry(Lookup(body, "avatar"))
    ensures r.Some? ==> OptionalTextOk(Lookup(body, "birthday")) && r.value.birthday == TextEntry(Lookup(body, "birthday"))
  {
    if forall f :: f in UserFields ==> UserFieldOk(body, f) then
      assert UserFieldOk(body, "username") && UserFieldOk(body, "password");
      assert UserFieldOk(body, "name") && UserFieldOk(body, "email");
      assert UserFieldOk(body, "avatar") && UserFieldOk(body, "birthday");
      Some(InsertUser(
        body["username"].s,
        body["password"].s,
        TextEntry(Lookup(body, "name")),
        TextEntry(Lookup(body, "email")),
        TextEntry(Lookup(body, "avatar")),
        TextEntry(Lookup(body, "birthday"))))
    else None
  }

  /** Only the six picked properties matter to the user insert schema. */
  lemma ValidateUserIgnoresUnknownKeys(body: Body)
    ensures ValidateInsertUser(body) == ValidateInsertUser(Restrict(body, UserFields))
  {
    var r := Restrict(body, UserFields);
    forall f | f in UserFields ensures Lookup(r, f) == Lookup(body, f) {
    }
    assert forall f :: f in UserFields ==> (UserFieldOk(body, f) <==> UserFieldOk(r, f));
  }

  // ---------------------------------------------------------------------------
  // task_categories

  /** The default categories, owned by the sentinel user 0. */
  const DefaultCategoryNames: seq<string> := ["Work", "Personal", "Learning", "Health"]
  const DefaultCategoryColors: seq<string> := ["#0070F3", "#FF0080", "#7928CA", "#50C878"]
  const DefaultOwner: int := 0

  /** Category names are unique across the whole table. */
  ghost predicate UniqueNames(cats: seq<Category>) {
    forall a, b :: a in cats && b in cats && a.name == b.name ==> a == b
  }

  predicate NameTaken(cats: seq<Category>, name: string) {
    exists i :: 0 <= i < |cats| && cats[i].name == name
  }

  /** The four default category names are different from each other. */
  lemma DefaultNamesDistinct()
    ensures forall i, j :: 0 <= i < 4 && 0 <= j < 4 && i != j ==> DefaultCategoryNames[i] != DefaultCategoryNames[j]
  {
    assert |DefaultCategoryNames[0]| == 4 && |DefaultCategoryNames[3]| == 6;
    assert |DefaultCategoryNames[1]| == 8 && |DefaultCategoryNames[2]| == 8;
    assert DefaultCategoryNames[1][0] != DefaultCategoryNames[2][0];
  }
}
