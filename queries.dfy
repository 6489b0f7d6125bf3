/** The read-only query engine of the store: due-date classification
    (isTaskOverdue, isTaskDueSoon), filterTasks and searchTasks. "Now" is a
    parameter, read once by the caller for a whole query. */
module Queries {
  import opened Text
  import opened Sequences
  import opened TaskModel
  import opened TaskList

  /** 1000 * 60 * 60 * 24 milliseconds. */
  const DayMs: int := 86400000

  /** Math.ceil(n / d) for a positive divisor, computed exactly: the least
      multiple of `d` not below `n`, counted in units of `d`. */
  function CeilDiv(n: int, d: int): (q: int)
    requires d > 0
    ensures q * d >= n && (q - 1) * d < n
  {
    var f := (-n) / d;
    assert -n == d * f + (-n) % d;
    -f
  }

  /** Whole days from `now` to `due`, rounded up. */
  function DiffDays(due: int, now: int): int {
    CeilDiv(due - now, DayMs)
  }

  /** isTaskOverdue: an open task with a due instant strictly before now. */
  predicate IsTaskOverdue(t: Task, now: int) {
    t.due.Some? && !t.completed && t.due.value < now
  }

  /** isTaskDueSoon: an open task whose rounded-up day difference is 0..3. */
  predicate IsTaskDueSoon(t: Task, now: int) {
    t.due.Some? && !t.completed && 0 <= DiffDays(t.due.value, now) <= 3
  }

  /** Due-soon, in instants: due later than one day ago, and at most three
      days ahead. */
  lemma DueSoonWindow(t: Task, now: int)
    ensures IsTaskDueSoon(t, now) <==>
      t.due.Some? && !t.completed && now - DayMs < t.due.value <= now + 3 * DayMs
  {
    if t.due.Some? {
      var q := DiffDays(t.due.value, now);
      var n := t.due.value - now;
      assert q * DayMs >= n && (q - 1) * DayMs < n;
      if q < 0 {
        assert q * DayMs <= -DayMs;
      }
      if q > 3 {
        assert (q - 1) * DayMs >= 3 * DayMs;
      }
      if 0 <= q <= 3 {
        assert q * DayMs <= 3 * DayMs;
        assert (q - 1) * DayMs >= -DayMs;
      }
    }
  }

  /** The two classifications overlap: a task is both overdue and due soon
      exactly when its due instant lies less than a day in the past. */
  lemma OverdueAndDueSoon(t: Task, now: int)
    ensures IsTaskOverdue(t, now) && IsTaskDueSoon(t, now) <==>
      t.due.Some? && !t.completed && now - DayMs < t.due.value < now
  {
    DueSoonWindow(t, now);
  }

  /** The filters filterTasks knows; any other value passes everything. */
  predicate PassesFilter(t: Task, filter: string, now: int) {
    if filter == "active" then !t.completed
    else if filter == "completed" then t.completed
    else if filter == "overdue" then IsTaskOverdue(t, now)
    else if filter == "due_soon" then IsTaskDueSoon(t, now)
    else true
  }

  /** filterTasks: the tasks passing the filter, in their order and with
      every copy; 'all' and unknown filters return the list as it is. */
  function FilterTasks(tasks: seq<Task>, filter: string, now: int): (r: seq<Task>)
    ensures IsSubsequence(r, tasks)
    ensures forall k :: 0 <= k < |r| ==> PassesFilter(r[k], filter, now)
    ensures forall t :: t in tasks && PassesFilter(t, filter, now) ==> t in r
    ensures forall t :: PassesFilter(t, filter, now) ==> multiset(r)[t] == multiset(tasks)[t]
    ensures filter !in {"active", "completed", "overdue", "due_soon"} ==> r == tasks
  {
    if filter == "active" then ActiveTasks(tasks)
    else if filter == "completed" then CompletedTasks(tasks)
    else if filter == "overdue" then
      FilterSpec((t: Task) => IsTaskOverdue(t, now), tasks);
      FilterCounts((t: Task) => IsTaskOverdue(t, now), tasks);
      Filter((t: Task) => IsTaskOverdue(t, now), tasks)
    else if filter == "due_soon" then
      FilterSpec((t: Task) => IsTaskDueSoon(t, now), tasks);
      FilterCounts((t: Task) => IsTaskDueSoon(t, now), tasks);
      Filter((t: Task) => IsTaskDueSoon(t, now), tasks)
    else
      SubsequenceReflexive(tasks);
      tasks
  }

  /** The match of searchTasks for a term already lower-cased: a substring
      of the lower-cased title, description, non-empty subject or priority. */
  predicate Matches(t: Task, term: string) {
    || Contains(ToLower(t.title), term)
    || Contains(ToLower(t.description), term)
    || (t.subject != "" && Contains(ToLower(t.subject), term))
    || Contains(ToLower(t.priority), term)
  }

  /** searchTasks: a blank term (all white space) returns the list as it
      is; otherwise the tasks matching the lower-cased term, which is not
      trimmed, in their order. */
  function SearchTasks(tasks: seq<Task>, searchTerm: string): (r: seq<Task>)
    ensures IsSubsequence(r, tasks)
    ensures AllSpace(searchTerm) ==> r == tasks
    ensures !AllSpace(searchTerm) ==>
      && (forall k :: 0 <= k < |r| ==> Matches(r[k], ToLower(searchTerm)))
      && (forall t :: t in tasks && Matches(t, ToLower(searchTerm)) ==> t in r)
      && (forall t :: Matches(t, ToLower(searchTerm)) ==> multiset(r)[t] == multiset(tasks)[t])
  {
    if Trim(searchTerm) == "" then
      SubsequenceReflexive(tasks);
      tasks
    else
      var term := ToLower(searchTerm);
      FilterSpec((t: Task) => Matches(t, term), tasks);
      FilterCounts((t: Task) => Matches(t, term), tasks);
      Filter((t: Task) => Matches(t, term), tasks)
  }

  /** The search ignores the case of the term: two terms that lower-case
      alike select the same tasks. */
  lemma SearchIgnoresTermCase(tasks: seq<Task>, u: string, v: string)
    requires ToLower(u) == ToLower(v)
    ensures SearchTasks(tasks, u) == SearchTasks(tasks, v)
  {
    ToLowerKeepsSpace(u);
    ToLowerKeepsSpace(v);
  }

  /** The search looks at the subject, lower-cased: "math" finds a task
      whose subject is "Math" whatever its title. */
  lemma SearchFindsSubject(t: Task)
    requires t.subject == "Math"
    ensures Matches(t, ToLower("math"))
  {
    assert ToLower(t.subject) == "math";
    assert ToLower("math") == "math";
    assert IsPrefix("math", "math");
  }
}
