/** The profile page: task statistics of the signed-in user and the display
    fallbacks for a sparse profile. */
module Profile {
  import opened Wrappers
  import opened Seqs
  import opened Dates
  import opened Schema
  import opened Initials
  import Storage

  /** Streaks are capped at a week. */
  const MaxStreak: nat := 7

  datatype UserStats = UserStats(completed: nat, inProgress: nat, daysStreak: nat)

  function WithStatus(tasks: seq<Task>, status: string): (r: seq<Task>)
    ensures forall t :: t in r <==> t in tasks && t.status == status
  {
    Filter(tasks, (t: Task) => t.status == status)
  }

  /** calculateUserStats: the completed and in-progress counts, and a streak of
      min(completed, 7). */
  function CalculateUserStats(tasks: seq<Task>): (r: UserStats)
    ensures r.completed == |WithStatus(tasks, Completed)|
    ensures r.inProgress == |WithStatus(tasks, InProgress)|
    ensures r.daysStreak <= MaxStreak && r.daysStreak <= r.completed
    ensures r.daysStreak == MaxStreak || r.daysStreak == r.completed
  {
    var completed := |WithStatus(tasks, Completed)|;
    UserStats(completed, |WithStatus(tasks, InProgress)|,
      if completed < MaxStreak then completed else MaxStreak)
  }

  /** No task is counted twice: the two counts never exceed the number of tasks. */
  lemma StatsWithinTaskCount(tasks: seq<Task>)
    ensures CalculateUserStats(tasks).completed + CalculateUserStats(tasks).inProgress <= |tasks|
  {
    var isCompleted := (t: Task) => t.status == Completed;
    var isInProgress := (t: Task) => t.status == InProgress;
    var never := (t: Task) => false;
    var always := (t: Task) => true;
    FilterCounts(tasks, isCompleted, isInProgress, never, always);
    FilterAll(tasks, always);
  }

  /** On the list the server sends (the signed-in user's tasks), the page's
      counts agree with the completion statistics of the analytics endpoint. */
  lemma StatsAgreeWithServer(all: seq<Task>, uid: int)
    ensures var mine := CalculateUserStats(Storage.UserTasks(all, uid));
      var server := Storage.CompletionStats(all, uid);
      mine.completed == server.completed && mine.inProgress == server.inProgress
  {
    var owned := (t: Task) => t.userId == uid;
    FilterFilter(all, owned, (t: Task) => t.status == Completed,
      (t: Task) => t.userId == uid && t.status == Completed);
    FilterFilter(all, owned, (t: Task) => t.status == InProgress,
      (t: Task) => t.userId == uid && t.status == InProgress);
  }

  // ---------------------------------------------------------------------------
  // Display fallbacks

  /** The letter shown instead of an avatar: the name's first character, else
      the username's, else "?". */
  function AvatarLetter(u: PublicUser): (r: string)
    ensures |r| == 1
    ensures u.name.Some? && u.name.value != [] ==> r == [u.name.value[0]]
    ensures (u.name.None? || u.name.value == []) && u.username != [] ==> r == [u.username[0]]
    ensures (u.name.None? || u.name.value == []) && u.username == [] ==> r == "?"
  {
    var fromName := if u.name.Some? then FirstChar(u.name.value) else [];
    if fromName != [] then fromName
    else if FirstChar(u.username) != [] then FirstChar(u.username)
    else "?"
  }

  datatype Picture = Image(url: string) | Letter(letter: string)

  /** A non-empty avatar URL is shown as an image, anything else as the letter. */
  function ProfilePicture(u: PublicUser): (p: Picture)
    ensures p.Image? <==> u.avatar.Some? && u.avatar.value != []
    ensures p.Image? ==> p.url == u.avatar.value
    ensures p.Letter? ==> p.letter == AvatarLetter(u)
  {
    if u.avatar.Some? && u.avatar.value != [] then Image(u.avatar.value) else Letter(AvatarLetter(u))
  }

  /** The heading: the name, or "Anonymous User" when it is missing or empty. */
  function DisplayName(u: PublicUser): (r: string)
    ensures u.name.Some? && u.name.value != [] ==> r == u.name.value
    ensures u.name.None? || u.name.value == [] ==> r == "Anonymous User"
  {
    if u.name.Some? && u.name.value != [] then u.name.value else "Anonymous User"
  }

  datatype Joined = JoinedIn(year: int, month: int) | Recently

  /** "Joined <month> <year>" from the creation time, or "Joined Recently"
      without one. */
  function JoinedLabel(createdAt: Option<int>): (r: Joined)
    ensures r.Recently? <==> createdAt.None?
    ensures r.JoinedIn? ==>
      r.year == CivilOf(createdAt.value).year && r.month == CivilOf(createdAt.value).month
  {
    match createdAt
    case None => Recently
    case Some(ms) => JoinedIn(CivilOf(ms).year, CivilOf(ms).month)
  }
}
