/** The task record and the changes made to a single task: creation
    (addTask), merging a patch (updateTask) and flipping completion
    (toggleTask). Timestamps are milliseconds since the epoch. */
module TaskModel {
  import opened Text

  datatype Option<+T> = None | Some(value: T) {
    function GetOr(default: T): T {
      match this
      case Some(v) => v
      case None => default
    }
  }

  const DefaultPriority: string := "normal"
  const DefaultColor: string := "#A78BFA"

  /** A stored task. `due` is the instant the due-date string denotes, or
      None for the empty string; `completedAt` is None when the property is
      absent from the record. */
  datatype Task = Task(
    id: string,
    title: string,
    description: string,
    subject: string,
    due: Option<int>,
    priority: string,
    color: string,
    completed: bool,
    createdAt: int,
    updatedAt: int,
    completedAt: Option<int>)

  /** The argument of addTask; an absent property is the empty string. */
  datatype TaskData = TaskData(
    title: string,
    description: string,
    subject: string,
    due: Option<int>,
    priority: string,
    color: string)

  /** The object spread over a task by updateTask: every property may be
      present (Some) or absent (None); `updatedAt` is always overwritten, so
      it is not part of a patch. */
  datatype Patch = Patch(
    id: Option<string>,
    title: Option<string>,
    description: Option<string>,
    subject: Option<string>,
    due: Option<Option<int>>,
    priority: Option<string>,
    color: Option<string>,
    completed: Option<bool>,
    createdAt: Option<int>,
    completedAt: Option<Option<int>>)

  const EmptyPatch: Patch :=
    Patch(None, None, None, None, None, None, None, None, None, None)

  /** The record invariant: `completedAt` is present exactly when the task
      is completed. */
  predicate CompletionConsistent(t: Task) {
    t.completedAt.Some? <==> t.completed
  }

  /** The task addTask builds: trimmed text, defaults for an empty priority
      and colour, not completed, both timestamps `now`. */
  function NewTask(data: TaskData, id: string, now: int): (t: Task)
    ensures t.id == id && t.due == data.due
    ensures t.title == Trim(data.title)
    ensures t.description == Trim(data.description) && t.subject == Trim(data.subject)
    ensures t.priority == (if data.priority == "" then DefaultPriority else data.priority)
    ensures t.color == (if data.color == "" then DefaultColor else data.color)
    ensures !t.completed && CompletionConsistent(t)
    ensures t.createdAt == now && t.updatedAt == now
  {
    Task(id, Trim(data.title), Trim(data.description), Trim(data.subject), data.due,
         if data.priority == "" then DefaultPriority else data.priority,
         if data.color == "" then DefaultColor else data.color,
         false, now, now, None)
  }

  /** `{...t, ...patch, updated_at: now}`: a property the patch carries
      wins, every other property of `t` is kept, and `updatedAt` is `now`. */
  function ApplyPatch(t: Task, patch: Patch, now: int): (r: Task)
    ensures r.id == patch.id.GetOr(t.id) && r.title == patch.title.GetOr(t.title)
    ensures r.description == patch.description.GetOr(t.description)
    ensures r.subject == patch.subject.GetOr(t.subject)
    ensures r.due == patch.due.GetOr(t.due) && r.priority == patch.priority.GetOr(t.priority)
    ensures r.color == patch.color.GetOr(t.color)
    ensures r.completed == patch.completed.GetOr(t.completed)
    ensures r.createdAt == patch.createdAt.GetOr(t.createdAt)
    ensures r.completedAt == patch.completedAt.GetOr(t.completedAt)
    ensures r.updatedAt == now
  {
    Task(patch.id.GetOr(t.id), patch.title.GetOr(t.title),
         patch.description.GetOr(t.description), patch.subject.GetOr(t.subject),
         patch.due.GetOr(t.due), patch.priority.GetOr(t.priority),
         patch.color.GetOr(t.color), patch.completed.GetOr(t.completed),
         patch.createdAt.GetOr(t.createdAt), now,
         patch.completedAt.GetOr(t.completedAt))
  }

  /** A patch with no properties only refreshes `updatedAt`. */
  lemma EmptyPatchRefreshesOnly(t: Task, now: int)
    ensures ApplyPatch(t, EmptyPatch, now) == t.(updatedAt := now)
  {
  }

  /** The merge is unguarded: a patch can rewrite the id, and can mark a
      task completed without giving it a completion time. */
  lemma PatchCanBreakInvariants(t: Task, now: int)
    requires !t.completed && CompletionConsistent(t)
    ensures ApplyPatch(t, EmptyPatch.(id := Some(t.id + "x")), now).id != t.id
    ensures !CompletionConsistent(ApplyPatch(t, EmptyPatch.(completed := Some(true)), now))
  {
    assert (t.id + "x")[|t.id|] == 'x';
  }

  /** toggleTask on one task: `completed` flips, `completedAt` follows it,
      `updatedAt` is `now`, and nothing else changes, whatever state the
      task was in. */
  function Toggled(t: Task, now: int): (r: Task)
    ensures r.completed == !t.completed && CompletionConsistent(r)
    ensures r.completed ==> r.completedAt == Some(now)
    ensures r.updatedAt == now
    ensures r.(completed := t.completed, updatedAt := t.updatedAt, completedAt := t.completedAt) == t
  {
    var flipped := t.(completed := !t.completed, updatedAt := now);
    if flipped.completed then flipped.(completedAt := Some(now))
    else flipped.(completedAt := None)
  }

  /** Toggling twice restores `completed` on any task, and `completedAt`
      then follows it; a task that was open and had no completion time
      comes back unchanged but for `updatedAt`. */
  lemma ToggleTwice(t: Task, first: int, second: int)
    ensures Toggled(Toggled(t, first), second).completed == t.completed
    ensures Toggled(Toggled(t, first), second)
         == t.(updatedAt := second, completedAt := if t.completed then Some(second) else None)
    ensures CompletionConsistent(t) && !t.completed ==>
      Toggled(Toggled(t, first), second) == t.(updatedAt := second)
  {
    var once := Toggled(t, first);
    var twice := Toggled(once, second);
    assert twice.completed == t.completed;
    assert twice.(completed := t.completed, updatedAt := t.updatedAt, completedAt := t.completedAt) == t;
  }
}
