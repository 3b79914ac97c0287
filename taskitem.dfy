/** One task card: the completion toggle, the edit form's record, the colour of
    the priority badge and border, and the due-date line. */
module TaskItem {
  import opened Wrappers
  import opened Text
  import opened Dates
  import opened Schema
  import Storage

  // ---------------------------------------------------------------------------
  // The completion toggle

  /** A completed task goes back to pending; any other status becomes completed. */
  function ToggledStatus(status: string): (r: string)
    ensures status == Completed ==> r == Pending
    ensures status != Completed ==> r == Completed
  {
    if status == Completed then Pending else Completed
  }

  /** The toggle's update request carries the new status and nothing else. */
  function TogglePayload(t: Task): (b: Body)
    ensures b.Keys == {"status"} && b["status"] == Str(ToggledStatus(t.status))
  {
    map["status" := Str(ToggledStatus(t.status))]
  }

  /** Toggling twice restores a completed or pending task, but an in-progress
      task comes back pending: the toggle is not an involution. */
  lemma ToggleTwice()
    ensures ToggledStatus(ToggledStatus(Completed)) == Completed
    ensures ToggledStatus(ToggledStatus(Pending)) == Pending
    ensures ToggledStatus(ToggledStatus(InProgress)) == Pending
    ensures ToggledStatus(ToggledStatus(InProgress)) != InProgress
  {
    DomainsDistinct();
  }

  /** Applied by the server, the toggle changes the status and the update time
      and leaves every other column as it was. */
  lemma ToggleChangesOnlyStatus(t: Task, now: int, parse: string -> JsTime)
    ensures Storage.UpdatedTask(t, TogglePayload(t), now, parse)
      == Some(t.(status := ToggledStatus(t.status), updatedAt := now))
  {
    var p := TogglePayload(t);
    assert Storage.NormalisePatch(p, parse) == p;
  }

  // ---------------------------------------------------------------------------
  // The card

  datatype Tone = Red | Amber | Yellow | Green | Gray

  /** getPriorityBadgeClass: red, yellow and green for high, medium and low;
      gray for anything else. */
  function BadgeTone(priority: string): (r: Tone)
    ensures r == Red <==> priority == High
    ensures r == Yellow <==> priority == Medium
    ensures r == Green <==> priority == Low
    ensures r == Gray <==> !IsPriority(priority)
  {
    if priority == High then Red
    else if priority == Medium then Yellow
    else if priority == Low then Green
    else Gray
  }

  /** The left border: red for high, amber for medium, green for everything
      else, unknown priorities included. */
  function BorderTone(priority: string): (r: Tone)
    ensures r == Red <==> priority == High
    ensures r == Amber <==> priority == Medium
    ensures r == Green <==> priority != High && priority != Medium
  {
    if priority == High then Red
    else if priority == Medium then Amber
    else Green
  }

  /** Badge and border agree on the three priorities and part ways on any other. */
  lemma BadgeAndBorderDisagreeOnUnknown(priority: string)
    requires !IsPriority(priority)
    ensures BadgeTone(priority) == Gray && BorderTone(priority) == Green
  {
  }

  /** The badge text: the priority with its first letter upper-cased. */
  function Capitalised(s: string): (r: string)
    ensures |r| == |s|
    ensures s != [] ==> r[0] == UpperChar(s[0]) && r[1..] == s[1..]
  {
    if s == [] then [] else [UpperChar(s[0])] + s[1..]
  }

  /** The due date has passed and the task is not completed. */
  predicate Overdue(t: Task, now: int): (r: bool)
    ensures t.dueDate.None? || t.status == Completed ==> !r
    ensures t.dueDate.Some? && t.status != Completed ==> (r <==> t.dueDate.value < now)
  {
    t.dueDate.Some? && t.dueDate.value < now && t.status != Completed
  }

  /** The due-date line appears only for a task with a due date, in red
      exactly when the task is overdue and in gray otherwise. */
  function DueLineTone(t: Task, now: int): (r: Option<Tone>)
    ensures r.None? <==> t.dueDate.None?
    ensures r == Some(Red) <==> Overdue(t, now)
    ensures r.Some? ==> r.value == Red || r.value == Gray
  {
    if t.dueDate.None? then None
    else if t.dueDate.value < now && t.status != Completed then Some(Red)
    else Some(Gray)
  }

  datatype DueLabel = Today | Tomorrow | OnDate(date: CivilDate) | InvalidDate

  /** "Today" on the current date, "Tomorrow" on the next one, otherwise the
      date itself; a due date outside the Date range cannot be formatted. */
  function DueDateLabel(due: int, now: int): (r: DueLabel)
    ensures r == Today <==> InRange(due) && DayNumber(due) == DayNumber(now)
    ensures r == Tomorrow <==> InRange(due) && DayNumber(due) == DayNumber(now) + 1
    ensures r.OnDate? ==> InRange(due) && r.date == CivilOf(due)
    ensures r.OnDate? ==> DayNumber(due) != DayNumber(now) && DayNumber(due) != DayNumber(now) + 1
    ensures r == InvalidDate <==> !InRange(due)
  {
    if !InRange(due) then InvalidDate
    else if DayNumber(due) == DayNumber(now) then Today
    else if DayNumber(due) == DayNumber(now) + 1 then Tomorrow
    else OnDate(CivilOf(due))
  }

  /** An overdue task is never labelled "Tomorrow". */
  lemma OverdueIsNotTomorrow(t: Task, now: int)
    requires Overdue(t, now)
    ensures DueDateLabel(t.dueDate.value, now) != Tomorrow
  {
    var due := t.dueDate.value;
    assert due < now;
    assert DayNumber(due) <= DayNumber(now) by {
      DayNumberMonotone(due, now);
    }
  }

  lemma DayNumberMonotone(a: int, b: int)
    requires a <= b
    ensures DayNumber(a) <= DayNumber(b)
  {
    assert a == DayNumber(a) * MsPerDay + a % MsPerDay;
    assert b == DayNumber(b) * MsPerDay + b % MsPerDay;
  }

  // ---------------------------------------------------------------------------
  // The edit form

  /** The form's starting record: title, description (or null), priority,
      status, and the due date as a Date when there is one. */
  function InitialEdit(t: Task): (b: Body)
    ensures b.Keys == {"title", "description", "priority", "status"} + (if t.dueDate.Some? then {"dueDate"} else {})
    ensures b["title"] == Str(t.title) && b["priority"] == Str(t.priority) && b["status"] == Str(t.status)
    ensures b["description"] == (if t.description.Some? then Str(t.description.value) else Null)
    ensures t.dueDate.Some? ==> b["dueDate"] == DateObj(TimeClip(t.dueDate.value))
  {
    var fields := map[
      "title" := Str(t.title),
      "description" := (if t.description.Some? then Str(t.description.value) else Null),
      "priority" := Str(t.priority),
      "status" := Str(t.status)];
    if t.dueDate.Some? then fields["dueDate" := DateObj(TimeClip(t.dueDate.value))] else fields
  }

  /** handleEditSubmit: the record with its due date made a Date again, or
      dropped when it is not set. */
  function SubmitPayload(edited: Body, parse: string -> JsTime): (b: Body)
    ensures b.Keys == edited.Keys - (if Truthy(Lookup(edited, "dueDate")) then {} else {"dueDate"})
    ensures forall k :: k in b && k != "dueDate" ==> b[k] == edited[k]
    ensures "dueDate" in b ==> b["dueDate"] == DateObj(Storage.DateFrom(edited["dueDate"], parse))
  {
    if Truthy(Lookup(edited, "dueDate")) then
      edited["dueDate" := DateObj(Storage.DateFrom(edited["dueDate"], parse))]
    else edited - {"dueDate"}
  }

  /** Saving the form untouched stores the task as it was, apart from its
      update time. */
  lemma UntouchedEditKeepsTask(t: Task, now: int, parse: string -> JsTime)
    requires t.dueDate.Some? ==> InRange(t.dueDate.value)
    ensures Storage.UpdatedTask(t, SubmitPayload(InitialEdit(t), parse), now, parse) == Some(t.(updatedAt := now))
  {
    var p := SubmitPayload(InitialEdit(t), parse);
    var n := Storage.NormalisePatch(p, parse);
    if t.dueDate.Some? {
      assert p["dueDate"] == DateObj(At(t.dueDate.value));
      assert n["dueDate"] == DateObj(At(t.dueDate.value));
    }
    assert n == p;
  }

  /** The card's state: the record being edited and the two dialog flags. */
  class TaskCard {
    const task: Task
    var edited: Body
    var isEditing: bool
    var isDeleteDialogOpen: bool

    constructor (t: Task)
      ensures task == t && edited == InitialEdit(t)
      ensures !isEditing && !isDeleteDialogOpen
    {
      task := t;
      edited := InitialEdit(t);
      isEditing := false;
      isDeleteDialogOpen := false;
    }

    /** handleEditChange: sets one property of the record and no other. */
    method HandleEditChange(field: string, v: Value)
      modifies this
      ensures edited == old(edited)[field := v]
      ensures forall k :: k != field ==> Lookup(edited, k) == Lookup(old(edited), k)
      ensures isEditing == old(isEditing) && isDeleteDialogOpen == old(isDeleteDialogOpen)
    {
      edited := edited[field := v];
    }

    /** Opening or closing the edit dialog (the Edit menu item, Cancel, or a
      successful save). */
    method SetEditing(open: bool)
      modifies this
      ensures isEditing == open
      ensures edited == old(edited) && isDeleteDialogOpen == old(isDeleteDialogOpen)
    {
      isEditing := open;
    }

    /** Opening or closing the delete confirmation. */
    method SetDeleteDialog(open: bool)
      modifies this
      ensures isDeleteDialogOpen == open
      ensures edited == old(edited) && isEditing == old(isEditing)
    {
      isDeleteDialogOpen := open;
    }

    /** The update request the Save button sends. */
    function Submission(parse: string -> JsTime): (b: Body)
      reads this
      ensures b.Keys == edited.Keys - (if Truthy(Lookup(edited, "dueDate")) then {} else {"dueDate"})
      ensures forall k :: k in b && k != "dueDate" ==> k in edited && b[k] == edited[k]
      ensures "dueDate" in b ==> b["dueDate"] == DateObj(Storage.DateFrom(edited["dueDate"], parse))
    {
      SubmitPayload(edited, parse)
    }
  }
}
