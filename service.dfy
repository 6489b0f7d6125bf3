/** TodoService: the store that owns the task list. Mutating operations
    reassign the `tasks` field; queries read it and never change it.
    Persistence to local storage happens after each mutation in the
    application and is not part of this model; the clock and the id generator
    are parameters. */
module Service {
  import opened Text
  import opened Sequences
  import opened TaskModel
  import opened TaskList
  import opened Queries
  import opened Ordering

  /** The result of getStatistics. */
  datatype Stats = Stats(total: nat, completed: nat, active: nat, dueSoon: nat, overdue: nat)

  class TodoService {
    /** The task list, newest insertions first. */
    var tasks: seq<Task>

    /** The store starts from the list read from storage. */
    constructor (initial: seq<Task>)
      ensures tasks == initial
    {
      tasks := initial;
    }

    /** getAllTasks: a snapshot of the list. */
    method GetAllTasks() returns (snapshot: seq<Task>)
      ensures snapshot == tasks
    {
      snapshot := tasks;
    }

    /** addTask: builds the task and puts it in front of the old list. */
    method AddTask(data: TaskData, id: string, now: int) returns (task: Task)
      modifies this
      ensures task == NewTask(data, id, now)
      ensures tasks == [task] + old(tasks)
      ensures |tasks| == |old(tasks)| + 1 && tasks[0] == task && tasks[1..] == old(tasks)
    {
      task := NewTask(data, id, now);
      tasks := [task] + tasks;
    }

    /** updateTask: merges the patch into the first task with the id and
      returns it, or returns None and changes nothing. */
    method UpdateTask(id: string, patch: Patch, now: int) returns (updated: Option<Task>)
      modifies this
      ensures tasks == UpdatedList(old(tasks), id, patch, now)
      ensures updated.None? <==> FindIndex(old(tasks), id) == -1
      ensures updated.Some? ==> updated.value == tasks[FindIndex(old(tasks), id)]
    {
      var taskIndex := FindIndex(tasks, id);
      if taskIndex != -1 {
        tasks := tasks[taskIndex := ApplyPatch(tasks[taskIndex], patch, now)];
        updated := Some(tasks[taskIndex]);
      } else {
        updated := None;
      }
    }

    /** toggleTask: flips the first task with the id, stamps or clears its
      completion time and returns it, or returns None and changes nothing. */
    method ToggleTask(id: string, now: int) returns (toggled: Option<Task>)
      modifies this
      ensures tasks == ToggledList(old(tasks), id, now)
      ensures toggled.None? <==> FindIndex(old(tasks), id) == -1
      ensures toggled.Some? ==> toggled.value == tasks[FindIndex(old(tasks), id)]
    {
      var i := FindIndex(tasks, id);
      if i == -1 {
        return None;
      }
      var task := tasks[i];
      task := task.(completed := !task.completed);
      task := task.(updatedAt := now);
      if task.completed {
        task := task.(completedAt := Some(now));
      } else {
        task := task.(completedAt := None);
      }
      tasks := tasks[i := task];
      toggled := Some(task);
    }

    /** deleteTask: removes every task with the id and reports whether any
      was there. */
    method DeleteTask(id: string) returns (deleted: bool)
      modifies this
      ensures tasks == Without(old(tasks), id)
      ensures deleted <==> exists t :: t in old(tasks) && t.id == id
    {
      var initialLength := |tasks|;
      tasks := Without(tasks, id);
      deleted := |tasks| != initialLength;
    }

    /** clearCompleted: keeps the open tasks in order and returns how many
      completed ones went. */
    method ClearCompleted() returns (count: nat)
      modifies this
      ensures tasks == ActiveTasks(old(tasks))
      ensures count == |CompletedTasks(old(tasks))|
      ensures |tasks| == |old(tasks)| - count
    {
      count := |CompletedTasks(tasks)|;
      ClearCompletedCounts(tasks);
      tasks := ActiveTasks(tasks);
    }

    /** getStatistics: each count is the size of the matching filter view;
      open and completed tasks split the total; due-soon and overdue tasks
      are open ones (the two may overlap). */
    function GetStatistics(now: int): (st: Stats)
      reads this
      ensures st.total == |tasks| == st.completed + st.active
      ensures st.completed == |FilterTasks(tasks, "completed", now)|
      ensures st.active == |FilterTasks(tasks, "active", now)|
      ensures st.dueSoon == |FilterTasks(tasks, "due_soon", now)| <= st.active
      ensures st.overdue == |FilterTasks(tasks, "overdue", now)| <= st.active
    {
      var isDone := (t: Task) => t.completed;
      var isOpen := (t: Task) => !t.completed;
      var isDueSoon := (t: Task) => IsTaskDueSoon(t, now);
      var isOverdue := (t: Task) => IsTaskOverdue(t, now);
      FilterSplit(isDone, isOpen, tasks);
      FilterMonotone(isDueSoon, isOpen, tasks);
      FilterMonotone(isOverdue, isOpen, tasks);
      var total := |tasks|;
      var completed := |Filter(isDone, tasks)|;
      Stats(total, completed, total - completed,
            |Filter(isDueSoon, tasks)|, |Filter(isOverdue, tasks)|)
    }

    /** getFilteredTasks: filter, then search, then sort. The result is a
      sorted permutation of an order-keeping selection of the list, and each
      task in it passes the filter and the search. */
    method GetFilteredTasks(filter: string, sortBy: string, searchTerm: string, now: int)
      returns (result: seq<Task>)
      ensures result == StableSort(sortBy, SearchTasks(FilterTasks(tasks, filter, now), searchTerm))
      ensures IsSubsequence(SearchTasks(FilterTasks(tasks, filter, now), searchTerm), tasks)
      ensures multiset(result) == multiset(SearchTasks(FilterTasks(tasks, filter, now), searchTerm))
      ensures Sorted(sortBy, result)
      ensures forall k :: 0 <= k < |result| ==>
        && result[k] in tasks
        && PassesFilter(result[k], filter, now)
        && (!AllSpace(searchTerm) ==> Matches(result[k], ToLower(searchTerm)))
    {
      var all := GetAllTasks();
      var filtered := FilterTasks(all, filter, now);
      var searched := SearchTasks(filtered, searchTerm);
      result := SortTasks(searched, sortBy);
      SubsequenceTransitive(searched, filtered, tasks);
      StableSortPermutes(sortBy, searched);
      StableSortSorted(sortBy, searched);
      SubsequenceMembers(searched, filtered);
      SubsequenceMembers(filtered, tasks);
      forall k | 0 <= k < |result|
        ensures result[k] in searched
      {
        assert result[k] in multiset(result);
      }
    }

    /** exportTasks: the list, the export time and the format version. */
    function ExportTasks(now: int): (e: Export)
      reads this
      ensures e.tasks == tasks && e.exportedAt == now && e.version == ExportVersion
    {
      Export(tasks, now, ExportVersion)
    }

    /** importTasks: with no task array (None: no data, or no array under
      `tasks`) or with a null entry in it, imports nothing and returns 0;
      otherwise puts the rebuilt records, in their order, in front of the
      list and returns how many there were. `ids` are the fresh ids, one
      per entry. */
    method ImportTasks(data: Option<seq<Option<ImportRecord>>>, ids: seq<string>, now: int)
      returns (count: nat)
      requires data.Some? ==> |ids| == |data.value|
      modifies this
      ensures data.None? || !AllPresent(data.value) ==> count == 0 && tasks == old(tasks)
      ensures data.Some? && AllPresent(data.value) ==>
        count == |data.value| && tasks == ImportedTasks(Present(data.value), ids, now) + old(tasks)
    {
      if data.Some? && AllPresent(data.value) {
        var importedTasks := ImportedTasks(Present(data.value), ids, now);
        tasks := importedTasks + tasks;
        return |importedTasks|;
      }
      return 0;
    }
  }
}
