/** The task list as a value, and the new list each mutating operation of
    the store produces from the old one: lookup by id (findIndex / find),
    update, toggle, delete, clearing completed tasks, and import/export. */
module TaskList {
  import opened TaskModel
  import opened Sequences

  /** Array.prototype.findIndex by id: the first position holding `id`, or
      -1 when no task has it. Ids need not be unique. */
  function FindIndex(s: seq<Task>, id: string): (i: int)
    ensures -1 <= i < |s|
    ensures i == -1 <==> forall k :: 0 <= k < |s| ==> s[k].id != id
    ensures i >= 0 ==> s[i].id == id && forall k :: 0 <= k < i ==> s[k].id != id
  {
    if s == [] then -1
    else if s[0].id == id then 0
    else
      var j := FindIndex(s[1..], id);
      if j == -1 then -1 else j + 1
  }

  /** Replacing a task by one with the same id at or after the first match
      does not move the first match. */
  lemma FindIndexAfterReplace(s: seq<Task>, id: string, k: nat, t: Task)
    requires k < |s| && t.id == s[k].id && FindIndex(s, id) != -1 && FindIndex(s, id) <= k
    ensures FindIndex(s[k := t], id) == FindIndex(s, id)
  {
    var i := FindIndex(s, id);
    var j := FindIndex(s[k := t], id);
    assert s[k := t][i].id == id;
  }

  /** The list after updateTask: unchanged when no task has the id,
      otherwise only the first task with the id is replaced by the merge. */
  function UpdatedList(s: seq<Task>, id: string, patch: Patch, now: int): (r: seq<Task>)
    ensures |r| == |s|
    ensures FindIndex(s, id) == -1 ==> r == s
    ensures FindIndex(s, id) != -1 ==>
      r[FindIndex(s, id)] == ApplyPatch(s[FindIndex(s, id)], patch, now)
    ensures forall k :: 0 <= k < |s| && k != FindIndex(s, id) ==> r[k] == s[k]
  {
    var i := FindIndex(s, id);
    if i == -1 then s else s[i := ApplyPatch(s[i], patch, now)]
  }

  /** The list after toggleTask: unchanged when no task has the id,
      otherwise only the first task with the id is toggled. */
  function ToggledList(s: seq<Task>, id: string, now: int): (r: seq<Task>)
    ensures |r| == |s|
    ensures FindIndex(s, id) == -1 ==> r == s
    ensures FindIndex(s, id) != -1 ==> r[FindIndex(s, id)] == Toggled(s[FindIndex(s, id)], now)
    ensures forall k :: 0 <= k < |s| && k != FindIndex(s, id) ==> r[k] == s[k]
  {
    var i := FindIndex(s, id);
    if i == -1 then s else s[i := Toggled(s[i], now)]
  }

  /** Toggling the same id twice hits the same task both times and restores
      every `completed` flag, whatever state the tasks are in; a task that
      was open and had no completion time comes back unchanged but for
      `updatedAt`. */
  lemma {:induction false} ToggleListTwice(s: seq<Task>, id: string, first: int, second: int)
    ensures var r := ToggledList(ToggledList(s, id, first), id, second);
      && |r| == |s|
      && (forall k :: 0 <= k < |s| ==> r[k].completed == s[k].completed)
      && (FindIndex(s, id) != -1 && CompletionConsistent(s[FindIndex(s, id)])
            && !s[FindIndex(s, id)].completed ==>
            r == s[FindIndex(s, id) := s[FindIndex(s, id)].(updatedAt := second)])
  {
    var i := FindIndex(s, id);
    if i != -1 {
      var once := ToggledList(s, id, first);
      FindIndexAfterReplace(s, id, i, Toggled(s[i], first));
      assert FindIndex(once, id) == i;
      ToggleTwice(s[i], first, second);
    }
  }

  /** `this.tasks.filter(task => task.id !== id)`: every task with another id,
      in order and with every copy; the list gets shorter exactly when some
      task had the id. */
  function Without(s: seq<Task>, id: string): (r: seq<Task>)
    ensures forall k :: 0 <= k < |r| ==> r[k].id != id
    ensures forall t :: t in s && t.id != id ==> t in r
    ensures forall t: Task :: t.id != id ==> multiset(r)[t] == multiset(s)[t]
    ensures IsSubsequence(r, s)
    ensures |r| < |s| <==> exists t :: t in s && t.id == id
  {
    var keep := (t: Task) => t.id != id;
    FilterSpec(keep, s);
    FilterCounts(keep, s);
    FilterShorterIff(keep, s);
    Filter(keep, s)
  }

  /** Deleting an id twice is deleting it once. */
  lemma DeleteIdempotent(s: seq<Task>, id: string)
    ensures Without(Without(s, id), id) == Without(s, id)
  {
    FilterIdempotent((t: Task) => t.id != id, s);
  }

  /** Deleting the id of a task just put at the front undoes the insertion
      of that task (and removes any older task sharing its id). */
  lemma DeleteUndoesAdd(t: Task, s: seq<Task>)
    ensures Without([t] + s, t.id) == Without(s, t.id)
  {
    FilterConcat((u: Task) => u.id != t.id, [t], s);
  }

  /** The tasks that are not completed, in order, with every copy. */
  function ActiveTasks(s: seq<Task>): (r: seq<Task>)
    ensures forall k :: 0 <= k < |r| ==> !r[k].completed
    ensures forall t :: t in s && !t.completed ==> t in r
    ensures forall t: Task :: !t.completed ==> multiset(r)[t] == multiset(s)[t]
    ensures IsSubsequence(r, s)
  {
    var keep := (t: Task) => !t.completed;
    FilterSpec(keep, s);
    FilterCounts(keep, s);
    Filter(keep, s)
  }

  /** The completed tasks, in order, with every copy. */
  function CompletedTasks(s: seq<Task>): (r: seq<Task>)
    ensures forall k :: 0 <= k < |r| ==> r[k].completed
    ensures forall t :: t in s && t.completed ==> t in r
    ensures forall t: Task :: t.completed ==> multiset(r)[t] == multiset(s)[t]
    ensures IsSubsequence(r, s)
  {
    var keep := (t: Task) => t.completed;
    FilterSpec(keep, s);
    FilterCounts(keep, s);
    Filter(keep, s)
  }

  /** clearCompleted: the count it returns plus the length of what stays is
      the old length, and clearing again removes nothing. */
  lemma ClearCompletedCounts(s: seq<Task>)
    ensures |ActiveTasks(s)| == |s| - |CompletedTasks(s)|
    ensures CompletedTasks(ActiveTasks(s)) == []
  {
    FilterSplit((t: Task) => t.completed, (t: Task) => !t.completed, s);
  }

  /** Every task satisfies the completion invariant. */
  predicate AllConsistent(s: seq<Task>) {
    forall t :: t in s ==> CompletionConsistent(t)
  }

  /** A sub-sequence of a consistent list is consistent. */
  lemma ConsistentSubsequence(r: seq<Task>, s: seq<Task>)
    requires AllConsistent(s) && IsSubsequence(r, s)
    ensures AllConsistent(r)
  {
    SubsequenceMembers(r, s);
  }

  /** Adding, toggling, deleting and clearing keep the completion invariant
      of the whole list. */
  lemma ConsistencyPreserved(s: seq<Task>, data: TaskData, id: string, now: int)
    requires AllConsistent(s)
    ensures AllConsistent([NewTask(data, id, now)] + s)
    ensures AllConsistent(ToggledList(s, id, now))
    ensures AllConsistent(Without(s, id))
    ensures AllConsistent(ActiveTasks(s))
  {
    ConsistentSubsequence(Without(s, id), s);
    ConsistentSubsequence(ActiveTasks(s), s);
    var r := ToggledList(s, id, now);
    forall k | 0 <= k < |r| ensures CompletionConsistent(r[k]) {
      if k != FindIndex(s, id) {
        assert r[k] == s[k] && s[k] in s;
      }
    }
  }

  /** An object of the task array handed to importTasks: every property of
      `task` except `created_at`, which the object may lack or leave empty
      (None); `task.createdAt` is not read. */
  datatype ImportRecord = ImportRecord(task: Task, createdAt: Option<int>)

  /** The result of exportTasks. */
  datatype Export = Export(tasks: seq<Task>, exportedAt: int, version: string)

  const ExportVersion: string := "1.0"

  /** Every entry of the task array is an object; a null or undefined entry
      (None) makes the mapping in importTasks throw. */
  predicate AllPresent(entries: seq<Option<ImportRecord>>) {
    forall k :: 0 <= k < |entries| ==> entries[k].Some?
  }

  /** The records of a task array whose entries are all objects. */
  function Present(entries: seq<Option<ImportRecord>>): (r: seq<ImportRecord>)
    requires AllPresent(entries)
    ensures |r| == |entries|
    ensures forall k :: 0 <= k < |r| ==> entries[k] == Some(r[k])
  {
    seq(|entries|, k requires 0 <= k < |entries| => entries[k].value)
  }

  /** The tasks importTasks builds: each record keeps its properties, gets
      the fresh id given for it, keeps its creation time or gets `now`, and
      has `updatedAt` set to `now`. */
  function ImportedTasks(records: seq<ImportRecord>, ids: seq<string>, now: int): (r: seq<Task>)
    requires |ids| == |records|
    ensures |r| == |records|
    ensures forall k :: 0 <= k < |r| ==>
      r[k] == records[k].task.(id := ids[k], createdAt := records[k].createdAt.GetOr(now), updatedAt := now)
  {
    seq(|records|, k requires 0 <= k < |records| =>
      records[k].task.(id := ids[k], createdAt := records[k].createdAt.GetOr(now), updatedAt := now))
  }

  /** The task array of an export once read back: one object per task,
      carrying the task and its creation time. */
  function AsEntries(tasks: seq<Task>): (r: seq<Option<ImportRecord>>)
    ensures |r| == |tasks| && AllPresent(r)
    ensures forall k :: 0 <= k < |r| ==> r[k] == Some(ImportRecord(tasks[k], Some(tasks[k].createdAt)))
  {
    seq(|tasks|, k requires 0 <= k < |tasks| => Some(ImportRecord(tasks[k], Some(tasks[k].createdAt))))
  }

  /** Importing an export gives back every task with all its properties,
      creation time included, except a fresh id and `updatedAt`. */
  lemma ExportImportRoundTrip(e: Export, ids: seq<string>, now: int)
    requires |ids| == |e.tasks|
    ensures AllPresent(AsEntries(e.tasks))
    ensures var r := ImportedTasks(Present(AsEntries(e.tasks)), ids, now);
      |r| == |e.tasks| &&
      forall k :: 0 <= k < |r| ==> r[k] == e.tasks[k].(id := ids[k], updatedAt := now)
  {
  }
}
