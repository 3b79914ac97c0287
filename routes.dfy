/** The HTTP handlers: for each route, the chain of early returns that picks
    the response status, and the storage call the request reaches. */
module Routes {
  import opened Wrappers
  import opened Text
  import opened Dates
  import opened Schema
  import opened Storage
  import opened Colours
  import opened Driver

  /** Who sends the request: no session, or a signed-in user. */
  datatype Session = Anonymous | SignedIn(userId: int)

  /** The JSON (or empty) body of a response. */
  datatype Payload =
    | Message(text: string)
    | Invalid(text: string, errors: seq<string>)
    | OneTask(task: Task)
    | TaskList(tasks: seq<Task>)
    | CompletionJson(stats: Stats)
    | WeeklyJson(days: seq<DayCount>)
    | ProfileJson(user: PublicUser)
    | OneCategory(category: Category)
    | CategoryList(categories: seq<Category>)
    | Empty

  datatype Response = Response(status: int, payload: Payload)

  const Unauthorized: Response := Response(401, Message("Unauthorized"))
  const TaskNotFound: Response := Response(404, Message("Task not found"))
  const Forbidden: Response := Response(403, Message("Forbidden"))

  /** storage.getTask(parseInt(id)): an id that parses to NaN finds nothing
      (the query fails and getTask returns undefined). */
  function TaskLookup(store: Store, idText: string): (r: Option<Task>)
    reads store
    ensures r.Some? ==> ParseInt(idText) == Some(r.value.id) && r.value in store.tasks
    ensures ParseInt(idText).None? ==> r.None?
    ensures ParseInt(idText).Some? ==>
      (r.Some? <==> exists t :: t in store.tasks && t.id == ParseInt(idText).value)
  {
    match ParseInt(idText)
    case None => None
    case Some(id) => store.GetTask(id)
  }

  /** The guards of GET, PUT and DELETE /api/tasks/:id: 401 without a session,
      then 404 for a missing task, then 403 for someone else's task; None lets
      the request through. */
  function TaskGuard(session: Session, found: Option<Task>): (r: Option<Response>)
    ensures r.None? <==> session.SignedIn? && found.Some? && found.value.userId == session.userId
    ensures r == Some(Unauthorized) <==> session.Anonymous?
    ensures r == Some(TaskNotFound) <==> session.SignedIn? && found.None?
    ensures r == Some(Forbidden) <==> session.SignedIn? && found.Some? && found.value.userId != session.userId
  {
    if session.Anonymous? then Some(Unauthorized)
    else if found.None? then Some(TaskNotFound)
    else if found.value.userId != session.userId then Some(Forbidden)
    else None
  }

  /** 404 is decided before ownership: a request for a missing task is never
      answered 403, whoever sends it. */
  lemma NotFoundBeforeForbidden(session: Session)
    ensures TaskGuard(session, None) != Some(Forbidden)
    ensures session.SignedIn? ==> TaskGuard(session, None) == Some(TaskNotFound)
  {
  }

  // ---------------------------------------------------------------------------
  // Read-only routes

  /** GET /api/tasks */
  function GetTasks(session: Session, store: Store): (r: Response)
    reads store
    ensures r.status == 401 <==> session.Anonymous?
    ensures session.SignedIn? ==> r.status == 200
    ensures r.status == 200 ==>
      r.payload.TaskList?
      && forall t :: t in r.payload.tasks <==> t in store.tasks && t.userId == session.userId
  {
    if session.Anonymous? then Unauthorized
    else Response(200, TaskList(store.GetUserTasks(session.userId)))
  }

  /** GET /api/tasks/:id */
  function GetTaskById(session: Session, store: Store, idText: string): (r: Response)
    reads store
    ensures r.status in {200, 401, 403, 404}
    ensures r.status == 401 <==> session.Anonymous?
    ensures r.status == 200 ==>
      r.payload.OneTask? && r.payload.task in store.tasks
      && r.payload.task.userId == session.userId && ParseInt(idText) == Some(r.payload.task.id)
    ensures TaskGuard(session, TaskLookup(store, idText)).Some? ==>
      Some(r) == TaskGuard(session, TaskLookup(store, idText))
    ensures TaskGuard(session, TaskLookup(store, idText)).None? ==>
      r.status == 200 && Some(r.payload.task) == TaskLookup(store, idText)
  {
    var found := TaskLookup(store, idText);
    match TaskGuard(session, found)
    case Some(refusal) => refusal
    case None => Response(200, OneTask(found.value))
  }

  /** GET /api/tasks/date/:date: 400 when the date does not parse, without a
      query; otherwise the caller's tasks due on that day. */
  function GetTasksForDate(session: Session, store: Store, dateText: string, now: int, parse: string -> JsTime): (r: Response)
    reads store
    requires InRange(now)
    ensures r.status in {200, 400, 401}
    ensures r.status == 401 <==> session.Anonymous?
    ensures r.status == 400 <==> session.SignedIn? && parse(dateText).NaN?
    ensures r.status == 200 && parse(dateText).ms != MaxTime ==>
      r.payload.TaskList?
      && forall t :: t in r.payload.tasks <==>
        t in store.tasks && t.userId == session.userId && t.dueDate.Some?
        && DayNumber(t.dueDate.value) == DayNumber(parse(dateText).ms)
  {
    if session.Anonymous? then Unauthorized
    else
      var date := parse(dateText);
      if date.NaN? then Response(400, Message("Invalid date format"))
      else
        assert ReferenceTime(DateObj(date), now, parse) == date.ms;
        Response(200, TaskList(store.GetTasksByDate(session.userId, DateObj(date), now, parse)))
  }

  /** GET /api/analytics/completion: the store catches its own failures, so a
      signed-in caller always gets 200, with zeros when the store failed. */
  function GetCompletion(session: Session, store: Store, storeFails: bool): (r: Response)
    reads store
    ensures r.status == 401 <==> session.Anonymous?
    ensures session.SignedIn? ==> r.status == 200
    ensures r.status == 200 ==>
      r.payload.CompletionJson?
      && r.payload.stats.completed + r.payload.stats.inProgress + r.payload.stats.pending
         <= |store.GetUserTasks(session.userId)|
    ensures r.status == 200 && !storeFails ==>
      r.payload.stats == CompletionStats(store.tasks, session.userId)
    ensures r.status == 200 && storeFails ==> r.payload.stats == Stats(0, 0, 0)
  {
    if session.Anonymous? then Unauthorized
    else Response(200, CompletionJson(store.GetTaskCompletionStats(session.userId, storeFails)))
  }

  /** GET /api/categories */
  function GetCategories(session: Session, store: Store): (r: Response)
    reads store
    ensures r.status == 401 <==> session.Anonymous?
    ensures session.SignedIn? ==> r.status == 200
    ensures r.status == 200 ==>
      r.payload.CategoryList?
      && forall c :: c in r.payload.categories <==> c in store.categories && c.userId == session.userId
  {
    if session.Anonymous? then Unauthorized
    else Response(200, CategoryList(store.GetTaskCategories(session.userId)))
  }

  /** GET /api/analytics/weekly: the counts per weekday; when the store fails
      the storage method throws and the route answers 500. */
  method GetWeekly(session: Session, store: Store, rows: seq<ActivityRow>, storeFails: bool) returns (r: Response)
    ensures r.status in {200, 401, 500}
    ensures r.status == 401 <==> session.Anonymous?
    ensures r.status == 500 <==> session.SignedIn? && storeFails
    ensures r.status == 500 ==> r.payload == Message("Failed to fetch weekly activity")
    ensures r.status == 200 ==>
      r.payload.WeeklyJson? && |r.payload.days| == 7
      && forall i :: 0 <= i < 7 ==>
        r.payload.days[i].day == DayNames[i] && r.payload.days[i].count == DayEntry(rows, i).GetOr(0)
  {
    if session.Anonymous? {
      return Unauthorized;
    }
    var days := store.GetWeeklyActivity(rows, storeFails);
    if days.Err? {
      return Response(500, Message("Failed to fetch weekly activity"));
    }
    return Response(200, WeeklyJson(days.value));
  }

  // ---------------------------------------------------------------------------
  // Task creation

  /** The body POST /api/tasks validates: the request body with userId set to
      the caller's id, whatever the body said. */
  function CreateBody(body: Body, uid: int): (b: Body)
    ensures b.Keys == body.Keys + {"userId"}
    ensures b["userId"] == Num(uid)
    ensures forall k :: k in body && k != "userId" ==> b[k] == body[k]
  {
    body["userId" := Num(uid)]
  }

  /** The caller's id always passes validation and always ends up in the task:
      no body can create a task for someone else, and no validation error is
      ever about userId. */
  lemma CreateBodyOwner(body: Body, uid: int)
    ensures ValidateInsertTask(CreateBody(body, uid)).Ok? ==> ValidateInsertTask(CreateBody(body, uid)).value.userId == uid
    ensures ValidateInsertTask(CreateBody(body, uid)).Err? ==> "userId" !in ValidateInsertTask(CreateBody(body, uid)).error
  {
  }

  /** POST /api/tasks: 401, then 400 with the failing fields, or 201 with the
      created task. */
  method PostTask(session: Session, store: Store, body: Body, now: int, parse: string -> JsTime)
    returns (r: Response)
    modifies store
    requires store.Valid()
    ensures store.Valid()
    ensures r.status in {201, 400, 401}
    ensures r.status == 401 <==> session.Anonymous?
    ensures r.status == 400 <==> session.SignedIn? && ValidateInsertTask(CreateBody(body, session.userId)).Err?
    ensures r.status == 201 ==>
      r.payload.OneTask? && r.payload.task.userId == session.userId
      && store.tasks == old(store.tasks) + [r.payload.task]
    ensures r.status == 201 ==>
      r.payload.task == NewTaskRow(old(store.nextTaskId), ValidateInsertTask(CreateBody(body, session.userId)).value, now, parse)
    ensures (r.status == 201 && Lookup(body, "dueDate").Some? && Lookup(body, "dueDate").value.Str?
             && parse(Lookup(body, "dueDate").value.s).At?) ==>
      r.payload.task.dueDate == Some(parse(Lookup(body, "dueDate").value.s).ms)
    ensures r.status != 201 ==> store.tasks == old(store.tasks)
    ensures store.users == old(store.users) && store.categories == old(store.categories)
  {
    if session.Anonymous? {
      return Unauthorized;
    }
    var validated := ValidateInsertTask(CreateBody(body, session.userId));
    if validated.Err? {
      return Response(400, Invalid("Invalid task data", validated.error));
    }
    CreatedTaskFromBody(store.nextTaskId, body, session.userId, now, parse);
    var task := store.CreateTask(validated.value, now, parse);
    return Response(201, OneTask(task));
  }

  /** The row a valid creation body produces carries the body's description,
      due date and completed flag: a string due date is stored as its parse
      when that is a valid date and as null otherwise; a Date as its time; an
      omitted flag as false. */
  lemma CreatedTaskFromBody(id: int, body: Body, uid: int, now: int, parse: string -> JsTime)
    requires ValidateInsertTask(CreateBody(body, uid)).Ok?
    ensures var row := NewTaskRow(id, ValidateInsertTask(CreateBody(body, uid)).value, now, parse);
      var due := Lookup(body, "dueDate");
      (due.None? ==> row.dueDate.None?)
      && (due.Some? && due.value.Str? && parse(due.value.s).At? ==> row.dueDate == Some(parse(due.value.s).ms))
      && (due.Some? && due.value.Str? && parse(due.value.s).NaN? ==> row.dueDate.None?)
      && (due.Some? && due.value.DateObj? ==> row.dueDate == Some(due.value.t.ms))
    ensures var row := NewTaskRow(id, ValidateInsertTask(CreateBody(body, uid)).value, now, parse);
      var d := Lookup(body, "description");
      (d.Some? && d.value.Str? ==> row.description == Some(d.value.s))
      && (d.None? || d == Some(Null) ==> row.description.None?)
    ensures var row := NewTaskRow(id, ValidateInsertTask(CreateBody(body, uid)).value, now, parse);
      var c := Lookup(body, "completed");
      (c.Some? && c.value.Bool? ==> row.completed == Some(c.value.b))
      && (c.None? ==> row.completed == Some(false))
      && (c == Some(Null) ==> row.completed.None?)
  {
    var b := CreateBody(body, uid);
    assert Lookup(b, "dueDate") == Lookup(body, "dueDate");
    assert Lookup(b, "description") == Lookup(body, "description");
    assert Lookup(b, "completed") == Lookup(body, "completed");
  }

  // ---------------------------------------------------------------------------
  // Task update and deletion

  /** PUT /api/tasks/:id: after the guards, the task is updated and returned;
      a refused update is answered 200 with an empty body. */
  method PutTask(session: Session, store: Store, idText: string, body: Body, now: int, parse: string -> JsTime)
    returns (r: Response)
    modifies store
    requires store.Valid()
    ensures store.Valid()
    ensures r.status in {200, 401, 403, 404}
    ensures old(TaskGuard(session, TaskLookup(store, idText))).Some? ==>
      Some(r) == old(TaskGuard(session, TaskLookup(store, idText))) && store.tasks == old(store.tasks)
    ensures store.tasks != old(store.tasks) ==>
      session.SignedIn?
      && old(TaskLookup(store, idText)).Some? && old(TaskLookup(store, idText)).value.userId == session.userId
    ensures old(TaskGuard(session, TaskLookup(store, idText))).None? ==>
      r.status == 200
      && (r.payload.OneTask? <==> UpdatedTask(old(TaskLookup(store, idText)).value, body, now, parse).Some?)
    ensures r.status == 200 && r.payload.OneTask? ==>
      Some(r.payload.task) == UpdatedTask(old(TaskLookup(store, idText)).value, body, now, parse)
      && store.tasks == ReplaceTask(old(store.tasks), r.payload.task)
    ensures r.status == 200 && !r.payload.OneTask? ==> r.payload == Empty && store.tasks == old(store.tasks)
    ensures store.users == old(store.users) && store.categories == old(store.categories)
  {
    var found := TaskLookup(store, idText);
    var guard := TaskGuard(session, found);
    if guard.Some? {
      return guard.value;
    }
    var updated := store.UpdateTask(found.value.id, body, now, parse);
    if updated.Some? {
      return Response(200, OneTask(updated.value));
    }
    return Response(200, Empty);
  }

  /** DELETE /api/tasks/:id: after the guards, the task is deleted and the
      answer is 204 with no body (also when the store failed). */
  method DeleteTask(session: Session, store: Store, idText: string, storeFails: bool) returns (r: Response)
    modifies store
    requires store.Valid()
    ensures store.Valid()
    ensures r.status in {204, 401, 403, 404}
    ensures old(TaskGuard(session, TaskLookup(store, idText))).Some? ==>
      Some(r) == old(TaskGuard(session, TaskLookup(store, idText))) && store.tasks == old(store.tasks)
    ensures r.status == 204 <==> old(TaskGuard(session, TaskLookup(store, idText))).None?
    ensures r.status == 204 ==> r.payload == Empty
    ensures r.status == 204 && !storeFails ==>
      forall t :: t in store.tasks <==> t in old(store.tasks) && t.id != old(TaskLookup(store, idText)).value.id
    ensures store.users == old(store.users) && store.categories == old(store.categories)
  {
    var found := TaskLookup(store, idText);
    var guard := TaskGuard(session, found);
    if guard.Some? {
      return guard.value;
    }
    var _ := store.DeleteTask(found.value.id, storeFails);
    return Response(204, Empty);
  }

  // ---------------------------------------------------------------------------
  // Profile

  /** PUT /api/user/profile: the body without its password updates the
      caller's row; the answer never carries the password. */
  method PutProfile(session: Session, store: Store, body: Body) returns (r: Response)
    modifies store
    requires store.Valid()
    ensures store.Valid()
    ensures r.status in {200, 401, 404}
    ensures r.status == 401 <==> session.Anonymous?
    ensures session.SignedIn? ==>
      (r.status == 404 <==> UpdatedUser(old(store.users), session.userId, body - {"password"}).None?)
    ensures r.status == 200 ==>
      r.payload.ProfileJson?
      && r.payload.user == WithoutPassword(UpdatedUser(old(store.users), session.userId, body - {"password"}).value)
    ensures r.status == 200 ==>
      UpdatedUser(old(store.users), session.userId, body - {"password"}).value.password
      == FindUser(old(store.users), session.userId).value.password
    ensures r.status == 200 ==>
      store.users == ReplaceUser(old(store.users), UpdatedUser(old(store.users), session.userId, body - {"password"}).value)
    ensures r.status != 200 ==> store.users == old(store.users)
    ensures store.tasks == old(store.tasks) && store.categories == old(store.categories)
  {
    if session.Anonymous? {
      return Unauthorized;
    }
    var data := body - {"password"};
    var updated := store.UpdateUser(session.userId, data);
    if updated.None? {
      return Response(404, Message("User not found"));
    }
    UpdatedUserKeepsPassword(old(store.users), session.userId, data);
    return Response(200, ProfileJson(WithoutPassword(updated.value)));
  }

  /** A body that carries nothing but a password sets nothing: the profile
      route answers 404 although the user exists. */
  lemma PasswordOnlyProfile(us: seq<User>, uid: int, v: Value)
    ensures UpdatedUser(us, uid, map["password" := v] - {"password"}).None?
  {
    var data := map["password" := v] - {"password"};
    assert data == map[];
    assert forall k :: 0 <= k < |UserFields| ==> UserFields[k] !in data;
  }

  // ---------------------------------------------------------------------------
  // Category creation

  /** The colour POST /api/categories stores, as the route writes it: the
      body's colour when it is truthy, otherwise "#" and the unpadded hex
      digits of the generated number. */
  function CategoryColourAsWritten(body: Body, rand: nat): (v: Value)
    requires rand < ColourRange
    ensures Truthy(Lookup(body, "color")) ==> v == body["color"]
    ensures !Truthy(Lookup(body, "color")) ==> v == Str(RandomColourAsWritten(rand))
    ensures !Truthy(Lookup(body, "color")) ==> (IsHexColour(v.s) <==> rand >= 0x100000)
  {
    RandomColourAsWrittenValid(rand);
    if Truthy(Lookup(body, "color")) then body["color"] else Str(RandomColourAsWritten(rand))
  }

  /** Without a colour in the body and with the generator at 255, the route as
      written stores "#ff", which the category form itself would refuse. */
  lemma CategoryColourAsWrittenShort()
    ensures CategoryColourAsWritten(map[], 255) == Str("#ff")
    ensures !IsHexColour(CategoryColourAsWritten(map[], 255).s)
  {
    RandomColourAsWrittenShort();
  }

  /** The colour the route evidently means to store: the generated number
      padded to six hex digits, so that a default colour is always valid. */
  function CategoryColour(body: Body, rand: nat): (v: Value)
    requires rand < ColourRange
    ensures Truthy(Lookup(body, "color")) ==> v == body["color"]
    ensures !Truthy(Lookup(body, "color")) ==> v.Str? && IsHexColour(v.s)
  {
    if Truthy(Lookup(body, "color")) then body["color"] else Str(RandomColour(rand))
  }

  /** The correction changes only the colours the route as written gets wrong:
      both agree whenever the body has a colour or the generated number has
      six hex digits. */
  lemma CategoryColourCorrection(body: Body, rand: nat)
    requires rand < ColourRange
    ensures Truthy(Lookup(body, "color")) || rand >= 0x100000 ==>
      CategoryColour(body, rand) == CategoryColourAsWritten(body, rand)
    ensures CategoryColour(body, rand) != CategoryColourAsWritten(body, rand) ==>
      !IsHexColour(CategoryColourAsWritten(body, rand).s)
  {
    if !Truthy(Lookup(body, "color")) && rand >= 0x100000 {
      var c := RandomColour(rand);
      var w := RandomColourAsWritten(rand);
      assert Pow(16, 6) == 16777216;
      assert Pow(16, 5) == 0x100000;
      DigitsLength(rand, 16, 6);
      DigitsLengthAtLeast(rand, 16, 6);
      assert |ToHex(rand)| == 6;
      assert c == "#" + ToHex(rand);
      assert w == "#" + ToHex(rand);
    }
  }

  /** POST /api/categories as written: the category is created for the caller
      with the body's name and the as-written colour; 500 when the store
      refuses it. */
  method PostCategory(session: Session, store: Store, body: Body, rand: nat) returns (r: Response)
    modifies store
    requires store.Valid()
    requires rand < ColourRange
    ensures store.Valid()
    ensures r.status in {201, 401, 500}
    ensures r.status == 401 <==> session.Anonymous?
    ensures r.status == 201 <==>
      session.SignedIn? && Lookup(body, "name").Some? && ParamText(body["name"]).Some?
      && ParamText(CategoryColourAsWritten(body, rand)).Some?
      && !NameTaken(old(store.categories), ParamText(body["name"]).value)
    ensures r.status == 201 ==>
      r.payload.OneCategory? && r.payload.category.userId == session.userId
      && r.payload.category in store.categories
      && Some(r.payload.category.name) == ParamText(body["name"])
      && Some(r.payload.category.color) == ParamText(CategoryColourAsWritten(body, rand))
    ensures r.status == 201 && !Truthy(Lookup(body, "color")) ==>
      r.payload.category.color == RandomColourAsWritten(rand)
      && (IsHexColour(r.payload.category.color) <==> rand >= 0x100000)
    ensures session.SignedIn? && (Lookup(body, "name").None? || Lookup(body, "name") == Some(Null)) ==> r.status == 500
    ensures r.status == 201 ==> store.categories == old(store.categories) + [r.payload.category]
    ensures r.status != 201 ==> store.categories == old(store.categories)
    ensures store.users == old(store.users) && store.tasks == old(store.tasks)
  {
    if session.Anonymous? {
      return Unauthorized;
    }
    var colour := CategoryColourAsWritten(body, rand);
    var created := store.CreateTaskCategory(Lookup(body, "name"), Some(colour), session.userId);
    if created.Err? {
      return Response(500, Message("Failed to create category"));
    }
    assert created.value in store.categories;
    return Response(201, OneCategory(created.value));
  }
}
