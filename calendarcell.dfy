/** One cell of the calendar grid: an empty placeholder, or a day with a dot
    when it has tasks, the first two titles and a "+N more" line. */
module CalendarCell {
  import opened Wrappers
  import opened Schema

  /** How many titles a cell lists. */
  const ShownTitles: nat := 2

  datatype CellView =
    | Placeholder
    | DayCell(day: int, today: bool, currentMonth: bool,
              dot: bool, titles: seq<string>, more: Option<nat>)

  /** The number after "+" in "+N more", when the line appears. */
  function MoreCount(n: nat): (r: Option<nat>)
    ensures r.Some? <==> n > ShownTitles
    ensures r.Some? ==> r.value == n - ShownTitles
  {
    if n > ShownTitles then Some(n - ShownTitles) else None
  }

  function Titles(ts: seq<Task>): (r: seq<string>)
    ensures |r| == |ts|
    ensures forall i :: 0 <= i < |ts| ==> r[i] == ts[i].title
  {
    seq(|ts|, i requires 0 <= i < |ts| => ts[i].title)
  }

  /** A missing day (or day 0, which is falsy) gives the placeholder; otherwise
      the dot shows exactly when there are tasks, the titles are those of the
      first two tasks in list order, and "+N more" counts the rest. */
  function Cell(day: Option<int>, today: bool, currentMonth: bool, tasks: seq<Task>): (v: CellView)
    ensures v.Placeholder? <==> day.None? || day.value == 0
    ensures v.DayCell? ==> v.day == day.value && v.today == today && v.currentMonth == currentMonth
    ensures v.DayCell? ==> (v.dot <==> |tasks| > 0)
    ensures v.DayCell? ==> |v.titles| <= ShownTitles && |v.titles| <= |tasks|
    ensures v.DayCell? ==> v.titles == Titles(tasks)[..|v.titles|]
    ensures v.DayCell? ==> (v.more.Some? <==> |tasks| > ShownTitles)
    ensures v.DayCell? ==> |v.titles| + v.more.GetOr(0) == |tasks|
    ensures v.DayCell? ==> |v.titles| == (if |tasks| > ShownTitles then ShownTitles else |tasks|)
    ensures v.DayCell? ==> v.more == MoreCount(|tasks|)
  {
    if day.None? || day.value == 0 then Placeholder
    else
      var shown := if |tasks| > ShownTitles then ShownTitles else |tasks|;
      DayCell(day.value, today, currentMonth, |tasks| > 0, Titles(tasks[..shown]), MoreCount(|tasks|))
  }

  /** A day with at most two tasks lists every title and no "+N more"; a day
      with more lists the first two titles and "+N more" for the others. */
  lemma CellTitlesAndMore(day: int, today: bool, currentMonth: bool, tasks: seq<Task>)
    requires day != 0
    ensures var v := Cell(Some(day), today, currentMonth, tasks);
      |tasks| <= ShownTitles ==> v.titles == Titles(tasks) && v.more == None
    ensures var v := Cell(Some(day), today, currentMonth, tasks);
      |tasks| > ShownTitles ==> v.titles == [tasks[0].title, tasks[1].title] && v.more == Some(|tasks| - 2)
  {
    var v := Cell(Some(day), today, currentMonth, tasks);
    if |tasks| > ShownTitles {
      assert v.titles == Titles(tasks)[..2];
    } else {
      assert Titles(tasks)[..|tasks|] == Titles(tasks);
    }
  }
}
