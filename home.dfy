/** The task list of the home page: the status, priority and search filters
    and the three sort orders the user can pick. */
module Home {
  import opened Wrappers
  import opened Seqs
  import opened Text
  import opened Schema

  /** The filter value that lets every task through. */
  const All: string := "all"

  // ---------------------------------------------------------------------------
  // Filtering

  predicate StatusShown(t: Task, filterStatus: string) {
    filterStatus == All || t.status == filterStatus
  }

  predicate PriorityShown(t: Task, filterPriority: string) {
    filterPriority == All || t.priority == filterPriority
  }

  /** `s` contains `query`, ignoring case. */
  predicate Mentions(s: string, query: string) {
    Contains(Lower(s), Lower(query))
  }

  /** An empty query hides nothing; otherwise the title or, when there is one,
      the description must mention it. */
  predicate SearchShown(t: Task, query: string) {
    query == [] || Mentions(t.title, query)
    || (t.description.Some? && Mentions(t.description.value, query))
  }

  predicate Shown(t: Task, filterStatus: string, filterPriority: string, query: string) {
    StatusShown(t, filterStatus) && PriorityShown(t, filterPriority) && SearchShown(t, query)
  }

  /** The tasks that pass the three filters, in the order the server sent them. */
  function FilterTasks(ts: seq<Task>, filterStatus: string, filterPriority: string, query: string): (r: seq<Task>)
    ensures forall t :: t in r <==> t in ts && Shown(t, filterStatus, filterPriority, query)
    ensures IsSubsequence(r, ts)
  {
    var keep := (t: Task) => Shown(t, filterStatus, filterPriority, query);
    FilterIsSubsequence(ts, keep);
    Filter(ts, keep)
  }

  /** With both filters on "all" and no query, every task is listed. */
  lemma UnfilteredListsAll(ts: seq<Task>)
    ensures FilterTasks(ts, All, All, "") == ts
  {
    FilterAll(ts, (t: Task) => Shown(t, All, All, ""));
  }

  /** The search does not depend on the case of the query. */
  lemma SearchIgnoresQueryCase(t: Task, query: string)
    ensures SearchShown(t, Lower(query)) <==> SearchShown(t, query)
  {
    LowerIdempotent(query);
  }

  // ---------------------------------------------------------------------------
  // Sorting

  /** The due-date comparator as the page writes it: a task without a due date
      compares above any task, even above another task without one. */
  function DueCompareAsWritten(a: Task, b: Task): (r: int)
    ensures a.dueDate.Some? || b.dueDate.Some? ==> r == DueCompare(a, b)
    ensures a.dueDate.None? && b.dueDate.None? ==> r == 1 && DueCompare(a, b) == 0
  {
    if a.dueDate.None? then 1
    else if b.dueDate.None? then -1
    else a.dueDate.value - b.dueDate.value
  }

  /** The written comparator is not consistent: two tasks without a due date
      each compare above the other, which leaves the sort order to the engine. */
  lemma DueCompareAsWrittenInconsistent(a: Task, b: Task)
    requires a.dueDate.None? && b.dueDate.None?
    ensures DueCompareAsWritten(a, b) > 0 && DueCompareAsWritten(b, a) > 0
    ensures !Consistent(DueCompareAsWritten)
  {
  }

  /** The intended due-date order: dated tasks first, earliest first; undated
      tasks last, in their original order. */
  function DueCompare(a: Task, b: Task): (r: int)
    ensures r <= 0 <==>
      (b.dueDate.None? || (a.dueDate.Some? && a.dueDate.value <= b.dueDate.value))
  {
    if a.dueDate.None? && b.dueDate.None? then 0
    else if a.dueDate.None? then 1
    else if b.dueDate.None? then -1
    else a.dueDate.value - b.dueDate.value
  }

  /** high 3, medium 2, low 1, anything else 0. */
  function PriorityRank(p: string): (r: int)
    ensures 0 <= r <= 3
    ensures r == 0 <==> !IsPriority(p)
    ensures p == High ==> r == 3
    ensures p == Medium ==> r == 2
    ensures p == Low ==> r == 1
  {
    if p == High then 3
    else if p == Medium then 2
    else if p == Low then 1
    else 0
  }

  /** The names an object literal inherits from `Object.prototype`.  Looked up
      in the priority table they give a function or an object, not a number,
      and `|| 0` keeps it because it is truthy. */
  const InheritedKeys: seq<string> := [
    "constructor", "hasOwnProperty", "isPrototypeOf", "propertyIsEnumerable",
    "toLocaleString", "toString", "valueOf", "__proto__",
    "__defineGetter__", "__defineSetter__", "__lookupGetter__", "__lookupSetter__"]

  /** The priority comparator as the page writes it: when either priority is
      an inherited name the subtraction is NaN, which the sort reads as 0. */
  function PriorityCompareAsWritten(a: Task, b: Task): (r: int)
    ensures a.priority !in InheritedKeys && b.priority !in InheritedKeys ==> r == PriorityCompare(a, b)
    ensures a.priority in InheritedKeys || b.priority in InheritedKeys ==> r == 0
  {
    if a.priority in InheritedKeys || b.priority in InheritedKeys then 0
    else PriorityRank(b.priority) - PriorityRank(a.priority)
  }

  /** As written the comparator is not consistent: a task whose priority is
      "constructor" ties with a high and with a low task, while the low task
      compares above the high one; the sort order is then left to the engine. */
  lemma PriorityCompareAsWrittenInconsistent(hi: Task, odd: Task, lo: Task)
    requires hi.priority == High && lo.priority == Low && odd.priority == "constructor"
    ensures PriorityCompareAsWritten(lo, odd) == 0 && PriorityCompareAsWritten(odd, hi) == 0
    ensures PriorityCompareAsWritten(lo, hi) > 0
    ensures !Consistent(PriorityCompareAsWritten)
  {
    assert odd.priority == InheritedKeys[0];
    assert High !in InheritedKeys && Low !in InheritedKeys;
  }

  /** The intended priority order: higher ranks first, equal ranks tie. */
  function PriorityCompare(a: Task, b: Task): (r: int)
    ensures r <= 0 <==> PriorityRank(a.priority) >= PriorityRank(b.priority)
    ensures r == 0 <==> PriorityRank(a.priority) == PriorityRank(b.priority)
  {
    PriorityRank(b.priority) - PriorityRank(a.priority)
  }

  /** Titles in code-unit order. */
  function TitleCompare(a: Task, b: Task): (r: int)
    ensures r <= 0 <==> StrLe(a.title, b.title)
  {
    if a.title == b.title then
      StrLeTotal(a.title, a.title);
      0
    else if StrLe(a.title, b.title) then -1
    else 1
  }

  /** The comparator an unknown sort key selects: every pair ties. */
  function NoCompare(a: Task, b: Task): (r: int)
    ensures r == 0
  {
    0
  }

  /** The comparator the sort key selects; for "priority" the intended one. */
  function Comparator(sortBy: string): (r: (Task, Task) -> int)
    ensures sortBy == "dueDate" ==> r == DueCompare
    ensures sortBy == "priority" ==> r == PriorityCompare
    ensures sortBy == "title" ==> r == TitleCompare
    ensures sortBy != "dueDate" && sortBy != "priority" && sortBy != "title" ==> r == NoCompare
  {
    if sortBy == "dueDate" then DueCompare
    else if sortBy == "priority" then PriorityCompare
    else if sortBy == "title" then TitleCompare
    else NoCompare
  }

  lemma DueConsistent()
    ensures Consistent(DueCompare)
  {
  }

  lemma PriorityConsistent()
    ensures Consistent(PriorityCompare)
  {
  }

  lemma TitleConsistent()
    ensures Consistent(TitleCompare)
  {
    forall a: Task, b: Task ensures TitleCompare(a, b) <= 0 || TitleCompare(b, a) <= 0 {
      StrLeTotal(a.title, b.title);
    }
    forall a: Task, b: Task, c: Task | TitleCompare(a, b) <= 0 && TitleCompare(b, c) <= 0
      ensures TitleCompare(a, c) <= 0
    {
      StrLeTransitive(a.title, b.title, c.title);
    }
  }

  /** The list sorted by the selected key: a rearrangement of its input. */
  function SortTasks(ts: seq<Task>, sortBy: string): (r: seq<Task>)
    ensures multiset(r) == multiset(ts)
  {
    Sort(ts, Comparator(sortBy))
  }

  /** By due date: no undated task comes before a dated one, and dated tasks
      are in ascending order of due date. */
  lemma SortByDueDate(ts: seq<Task>)
    ensures forall i, j :: 0 <= i < j < |SortTasks(ts, "dueDate")| ==>
      var a, b := SortTasks(ts, "dueDate")[i], SortTasks(ts, "dueDate")[j];
      (a.dueDate.None? ==> b.dueDate.None?)
      && (a.dueDate.Some? && b.dueDate.Some? ==> a.dueDate.value <= b.dueDate.value)
  {
    DueConsistent();
    SortSorted(ts, DueCompare);
  }

  /** By priority: ranks never increase along the list. */
  lemma SortByPriority(ts: seq<Task>)
    ensures forall i, j :: 0 <= i < j < |SortTasks(ts, "priority")| ==>
      PriorityRank(SortTasks(ts, "priority")[i].priority) >= PriorityRank(SortTasks(ts, "priority")[j].priority)
  {
    PriorityConsistent();
    SortSorted(ts, PriorityCompare);
  }

  /** By title: titles are in ascending order. */
  lemma SortByTitle(ts: seq<Task>)
    ensures forall i, j :: 0 <= i < j < |SortTasks(ts, "title")| ==>
      StrLe(SortTasks(ts, "title")[i].title, SortTasks(ts, "title")[j].title)
  {
    TitleConsistent();
    SortSorted(ts, TitleCompare);
  }

  /** Any other sort key leaves the filtered order as it is. */
  lemma OtherKeyKeepsOrder(ts: seq<Task>, sortBy: string)
    requires sortBy != "dueDate" && sortBy != "priority" && sortBy != "title"
    ensures SortTasks(ts, sortBy) == ts
  {
    SortAllEqual(ts, NoCompare);
  }

  /** What the page lists: nothing before the tasks arrive, then the filtered
      tasks in the selected order. */
  function VisibleTasks(tasks: Option<seq<Task>>, filterStatus: string, filterPriority: string,
                        query: string, sortBy: string): (r: seq<Task>)
    ensures tasks.None? ==> r == []
    ensures tasks.Some? ==>
      forall t :: t in r <==> t in tasks.value && Shown(t, filterStatus, filterPriority, query)
    ensures tasks.Some? ==>
      multiset(r) == multiset(FilterTasks(tasks.value, filterStatus, filterPriority, query))
  {
    match tasks
    case None => []
    case Some(ts) =>
      var r := SortTasks(FilterTasks(ts, filterStatus, filterPriority, query), sortBy);
      assert forall t :: t in r <==> t in multiset(r);
      r
  }

  // ---------------------------------------------------------------------------
  // Labels above the list

  /** "1 task found", "2 tasks found". */
  function CountNoun(n: nat): (r: string)
    ensures r == "task" <==> n == 1
    ensures r == "task" || r == "tasks"
  {
    if n == 1 then "task" else "tasks"
  }

  /** Any key other than due date and priority is labelled as the title sort. */
  function SortLabel(sortBy: string): (r: string)
    ensures sortBy == "dueDate" ==> r == "Sorted by due date"
    ensures sortBy == "priority" ==> r == "Sorted by priority"
    ensures sortBy != "dueDate" && sortBy != "priority" ==> r == "Sorted by title"
  {
    if sortBy == "dueDate" then "Sorted by due date"
    else if sortBy == "priority" then "Sorted by priority"
    else "Sorted by title"
  }
}
