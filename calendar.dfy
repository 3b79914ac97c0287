/** The calendar page: the 6-by-7 grid of a month and the tasks due on a day. */
module Calendar {
  import opened Wrappers
  import opened Seqs
  import opened Dates
  import opened Schema
  import opened CalendarCell

  /** Cells in the grid: six weeks of seven days. */
  const GridCells: int := 42

  /** The weekday (0 = Sunday) of the first of a month. */
  function FirstWeekday(year: int, month: int): (w: int)
    requires 1 <= month <= 12
    ensures 0 <= w <= 6
  {
    Weekday(DaysFromCivil(CivilDate(year, month, 1)))
  }

  /** The grid of the month shown: one empty cell per weekday before the 1st,
      the days of the month in order, then empty cells up to 42. */
  function MonthGrid(year: int, month: int): (g: seq<Option<CivilDate>>)
    requires 1 <= month <= 12
    ensures |g| == GridCells
    ensures forall i :: 0 <= i < FirstWeekday(year, month) ==> g[i].None?
    ensures forall d :: 1 <= d <= DaysInMonth(year, month) ==>
      g[FirstWeekday(year, month) + d - 1] == Some(CivilDate(year, month, d))
    ensures forall i :: FirstWeekday(year, month) + DaysInMonth(year, month) <= i < GridCells ==> g[i].None?
    ensures forall i :: 0 <= i < GridCells && g[i].Some? ==>
      g[i] == Some(CivilDate(year, month, i - FirstWeekday(year, month) + 1))
      && 1 <= g[i].value.day <= DaysInMonth(year, month)
  {
    var w := FirstWeekday(year, month);
    var n := DaysInMonth(year, month);
    var lead: seq<Option<CivilDate>> := seq(w, _ => None);
    var days := seq(n, i => Some(CivilDate(year, month, i + 1)));
    var filled := lead + days;
    var remaining := GridCells - |filled|;
    filled + seq(if remaining > 0 then remaining else 0, _ => None)
  }

  /** Days of one month are consecutive day numbers. */
  lemma DaysFromCivilWithinMonth(year: int, month: int, d: int)
    requires 1 <= month <= 12
    ensures DaysFromCivil(CivilDate(year, month, d)) == DaysFromCivil(CivilDate(year, month, 1)) + d - 1
  {
  }

  /** Every day of the grid stands in the column of its weekday, under the
      header Sun, Mon, ... Sat. */
  lemma GridColumnIsWeekday(year: int, month: int, i: int)
    requires 1 <= month <= 12 && 0 <= i < GridCells
    requires MonthGrid(year, month)[i].Some?
    ensures Weekday(DaysFromCivil(MonthGrid(year, month)[i].value)) == i % 7
  {
    var w := FirstWeekday(year, month);
    var n := DaysInMonth(year, month);
    var d := i - w + 1;
    assert 1 <= d <= n;
    var z0 := DaysFromCivil(CivilDate(year, month, 1));
    DaysFromCivilWithinMonth(year, month, d);
    assert MonthGrid(year, month)[i] == Some(CivilDate(year, month, d));
    assert w == (z0 + 4) % 7;
    ModShift(z0 + 4, d - 1);
  }

  lemma ModShift(a: int, k: int)
    ensures (a + k) % 7 == (a % 7 + k) % 7
  {
    var q := a / 7;
    assert a == q * 7 + a % 7;
  }

  // ---------------------------------------------------------------------------
  // Tasks of a day

  /** A task falls on a calendar day when it has a valid due date whose day of
      month, month and year are the day's; the time of day plays no part. */
  predicate DueOn(t: Task, day: CivilDate): (r: bool)
    ensures r ==> t.dueDate.Some? && InRange(t.dueDate.value) && 1 <= day.month <= 12
    ensures t.dueDate.Some? && InRange(t.dueDate.value) ==> (r <==> CivilOf(t.dueDate.value) == day)
    ensures t.dueDate.None? ==> !r
  {
    t.dueDate.Some? && InRange(t.dueDate.value) && CivilOf(t.dueDate.value) == day
  }

  /** The tasks of a day, in list order; none for an empty cell or before the
      tasks arrive. */
  function TasksForDay(day: Option<CivilDate>, tasks: Option<seq<Task>>): (r: seq<Task>)
    ensures day.None? || tasks.None? ==> r == []
    ensures day.Some? && tasks.Some? ==>
      (forall t :: t in r <==> t in tasks.value && DueOn(t, day.value)) && IsSubsequence(r, tasks.value)
    ensures forall t :: t in r ==> t.dueDate.Some? && InRange(t.dueDate.value)
  {
    match (day, tasks)
    case (Some(d), Some(ts)) =>
      var on := (t: Task) => DueOn(t, d);
      FilterIsSubsequence(ts, on);
      Filter(ts, on)
    case _ => []
  }

  /** Matching by calendar date is matching by day number: a task is listed on
      a valid date exactly when its due date falls within that day. */
  lemma DueOnIsSameDay(t: Task, day: CivilDate)
    requires IsValidCivil(day) && t.dueDate.Some? && InRange(t.dueDate.value)
    ensures DueOn(t, day) <==> DayNumber(t.dueDate.value) == DaysFromCivil(day)
  {
    CivilFromDaysOfCivil(day);
    var z := DayNumber(t.dueDate.value);
    if CivilFromDays(z) == day {
      CivilFromDaysInjective(z, DaysFromCivil(day));
    }
  }

  /** Clicking a cell selects its day; clicking an empty cell changes nothing. */
  function SelectDay(selected: Option<CivilDate>, clicked: Option<CivilDate>): (r: Option<CivilDate>)
    ensures clicked.Some? ==> r == clicked
    ensures clicked.None? ==> r == selected
  {
    if clicked.Some? then clicked else selected
  }

  /** The list under the grid: the selected day's tasks, or today's when no day
      has been selected. */
  function PreviewTasks(selected: Option<CivilDate>, now: int, tasks: Option<seq<Task>>): (r: seq<Task>)
    ensures tasks.Some? ==> forall t :: t in r <==>
      t in tasks.value && DueOn(t, if selected.Some? then selected.value else CivilOf(now))
  {
    match selected
    case Some(d) => TasksForDay(Some(d), tasks)
    case None => if tasks.Some? then TasksForDay(Some(CivilOf(now)), tasks) else []
  }

  /** The month's cells as the page renders them: each day cell is marked as
      today when it is the current date, belongs to the month shown, and lists
      the tasks due on that day. */
  function GridView(year: int, month: int, now: int, tasks: Option<seq<Task>>): (v: seq<CellView>)
    requires 1 <= month <= 12
    ensures |v| == GridCells
    ensures forall i :: 0 <= i < GridCells ==>
      (v[i].Placeholder? <==> MonthGrid(year, month)[i].None?)
    ensures forall i :: 0 <= i < GridCells && v[i].DayCell? ==>
      var d := MonthGrid(year, month)[i].value;
      v[i].day == d.day && (v[i].today <==> d == CivilOf(now)) && v[i].currentMonth
      && |v[i].titles| + v[i].more.GetOr(0) == |TasksForDay(Some(d), tasks)|
  {
    var g := MonthGrid(year, month);
    seq(GridCells, i requires 0 <= i < GridCells =>
      match g[i]
      case None => Cell(None, false, false, [])
      case Some(d) => Cell(Some(d.day), d == CivilOf(now), d.year == year && d.month == month,
                           TasksForDay(Some(d), tasks)))
  }
}
