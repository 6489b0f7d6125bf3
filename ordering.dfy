/** sortTasks: the comparator for each sort key and the order a stable sort
    by that comparator produces. The engine's sort is stable, so the order
    is fixed by the comparator alone: `StableSort` states it as insertion
    from the right, and `SortTasks` computes it in place on a fresh array. */
module Ordering {
  import opened Text
  import opened Sequences
  import opened TaskModel

  /** `priorityWeight[p] || 2`: hard 3, normal 2, easy 1, anything else 2. */
  function Weight(priority: string): (w: int)
    ensures 1 <= w <= 3
    ensures w == 3 <==> priority == "hard"
    ensures w == 1 <==> priority == "easy"
  {
    if priority == "easy" then 1
    else if priority == "normal" then 2
    else if priority == "hard" then 3
    else 2
  }

  /** The comparator sortTasks passes to Array.prototype.sort: negative when
      `a` goes first, positive when `b` does, zero for a tie. */
  function Compare(sortBy: string, a: Task, b: Task): int {
    if sortBy == "priority" then
      var diff := Weight(b.priority) - Weight(a.priority);
      if diff != 0 then diff else CompareStrings(a.title, b.title)
    else if sortBy == "due" then
      if a.due.None? && b.due.None? then CompareStrings(a.title, b.title)
      else if a.due.None? then 1
      else if b.due.None? then -1
      else a.due.value - b.due.value
    else if sortBy == "title" then CompareStrings(a.title, b.title)
    else b.createdAt - a.createdAt
  }

  /** Every comparator is consistent: swapping the operands flips the
      sign. */
  lemma CompareAntisymmetric(sortBy: string, a: Task, b: Task)
    ensures Compare(sortBy, a, b) > 0 <==> Compare(sortBy, b, a) < 0
    ensures Compare(sortBy, a, b) == 0 <==> Compare(sortBy, b, a) == 0
  {
    CompareStringsAntisymmetric(a.title, b.title);
  }

  /** Every comparator is transitive: "not after" chains. */
  lemma CompareTransitive(sortBy: string, a: Task, b: Task, c: Task)
    requires Compare(sortBy, a, b) <= 0 && Compare(sortBy, b, c) <= 0
    ensures Compare(sortBy, a, c) <= 0
  {
    if sortBy == "priority" {
      if Weight(a.priority) == Weight(b.priority) == Weight(c.priority) {
        CompareStringsTransitive(a.title, b.title, c.title);
      }
    } else if sortBy == "due" {
      if a.due.None? && b.due.None? && c.due.None? {
        CompareStringsTransitive(a.title, b.title, c.title);
      }
    } else if sortBy == "title" {
      CompareStringsTransitive(a.title, b.title, c.title);
    }
  }

  /** Two tasks tying with a third tie with each other. */
  lemma TiesAgree(sortBy: string, a: Task, b: Task, t: Task)
    requires Compare(sortBy, a, t) == 0 && Compare(sortBy, b, t) == 0
    ensures Compare(sortBy, a, b) == 0
  {
    CompareAntisymmetric(sortBy, b, t);
    CompareTransitive(sortBy, a, t, b);
    CompareAntisymmetric(sortBy, a, t);
    CompareTransitive(sortBy, b, t, a);
    CompareAntisymmetric(sortBy, a, b);
  }

  /** No pair is out of order. */
  predicate Sorted(sortBy: string, s: seq<Task>) {
    forall i, j :: 0 <= i < j < |s| ==> Compare(sortBy, s[i], s[j]) <= 0
  }

  /** Inserts `x` after the last element of `s` that does not come after
      it: `x` moves left past exactly the elements the comparator puts
      after it. */
  function InsertLast(sortBy: string, s: seq<Task>, x: Task): (r: seq<Task>)
    ensures |r| == |s| + 1
  {
    if s == [] then [x]
    else if Compare(sortBy, s[|s| - 1], x) > 0 then InsertLast(sortBy, s[..|s| - 1], x) + [s[|s| - 1]]
    else s + [x]
  }

  /** The order of a stable sort by the comparator of `sortBy`: each element
      in turn is inserted into the sorted prefix before it. */
  function StableSort(sortBy: string, s: seq<Task>): (r: seq<Task>)
    ensures |r| == |s|
  {
    if s == [] then []
    else InsertLast(sortBy, StableSort(sortBy, s[..|s| - 1]), s[|s| - 1])
  }

  /** Insertion adds `x` and loses nothing. */
  lemma {:induction false} InsertLastPermutes(sortBy: string, s: seq<Task>, x: Task)
    ensures multiset(InsertLast(sortBy, s, x)) == multiset(s) + multiset{x}
  {
    if s != [] {
      assert s == s[..|s| - 1] + [s[|s| - 1]];
      InsertLastPermutes(sortBy, s[..|s| - 1], x);
    }
  }

  /** A stable sort returns a permutation of its input. */
  lemma {:induction false} StableSortPermutes(sortBy: string, s: seq<Task>)
    ensures multiset(StableSort(sortBy, s)) == multiset(s)
  {
    if s != [] {
      assert s == s[..|s| - 1] + [s[|s| - 1]];
      StableSortPermutes(sortBy, s[..|s| - 1]);
      InsertLastPermutes(sortBy, StableSort(sortBy, s[..|s| - 1]), s[|s| - 1]);
    }
  }

  lemma {:induction false} InsertLastSorted(sortBy: string, s: seq<Task>, x: Task)
    requires Sorted(sortBy, s)
    ensures Sorted(sortBy, InsertLast(sortBy, s, x))
  {
    if s != [] {
      var init, last := s[..|s| - 1], s[|s| - 1];
      var r := InsertLast(sortBy, s, x);
      if Compare(sortBy, last, x) > 0 {
        InsertLastSorted(sortBy, init, x);
        var r' := InsertLast(sortBy, init, x);
        assert r == r' + [last];
        InsertLastPermutes(sortBy, init, x);
        CompareAntisymmetric(sortBy, last, x);
        forall i | 0 <= i < |r'| ensures Compare(sortBy, r'[i], last) <= 0 {
          assert r'[i] in multiset(init) + multiset{x};
          if r'[i] != x {
            var k :| 0 <= k < |init| && init[k] == r'[i];
            assert s[k] == init[k];
          }
        }
      } else {
        forall i | 0 <= i < |s| ensures Compare(sortBy, s[i], x) <= 0 {
          if i < |s| - 1 {
            CompareTransitive(sortBy, s[i], last, x);
          }
        }
      }
    }
  }

  /** A stable sort returns its input in order. */
  lemma {:induction false} StableSortSorted(sortBy: string, s: seq<Task>)
    ensures Sorted(sortBy, StableSort(sortBy, s))
  {
    if s != [] {
      StableSortSorted(sortBy, s[..|s| - 1]);
      InsertLastSorted(sortBy, StableSort(sortBy, s[..|s| - 1]), s[|s| - 1]);
    }
  }

  /** Inserting `x` keeps the order among the elements selected by `p`,
      when no two selected elements are strictly ordered one way. */
  lemma {:induction false} InsertLastKeepsSelection(sortBy: string, p: Task -> bool, s: seq<Task>, x: Task)
    requires forall u, v :: p(u) && p(v) ==> Compare(sortBy, u, v) <= 0
    ensures Filter(p, InsertLast(sortBy, s, x)) == Filter(p, s + [x])
  {
    if s == [] {
      assert s + [x] == [x];
    } else if Compare(sortBy, s[|s| - 1], x) > 0 {
      var init, last := s[..|s| - 1], s[|s| - 1];
      assert s + [x] == (init + [last]) + [x];
      var fx, fl := Filter(p, [x]), Filter(p, [last]);
      assert fx == if p(x) then [x] else [];
      assert fl == if p(last) then [last] else [];
      assert fx + fl == fl + fx;
      calc {
        Filter(p, InsertLast(sortBy, s, x));
        Filter(p, InsertLast(sortBy, init, x) + [last]);
        { FilterConcat(p, InsertLast(sortBy, init, x), [last]); }
        Filter(p, InsertLast(sortBy, init, x)) + fl;
        { InsertLastKeepsSelection(sortBy, p, init, x); }
        Filter(p, init + [x]) + fl;
        { FilterConcat(p, init, [x]); }
        Filter(p, init) + fx + fl;
        Filter(p, init) + fl + fx;
        { FilterConcat(p, init, [last]); }
        Filter(p, init + [last]) + fx;
        { FilterConcat(p, init + [last], [x]); }
        Filter(p, (init + [last]) + [x]);
      }
    }
  }

  /** Inserting `x` never moves it past an element that ties with it. */
  lemma InsertLastKeepsTies(sortBy: string, s: seq<Task>, x: Task, t: Task)
    ensures var ties := (u: Task) => Compare(sortBy, u, t) == 0;
      Filter(ties, InsertLast(sortBy, s, x)) == Filter(ties, s + [x])
  {
    var ties := (u: Task) => Compare(sortBy, u, t) == 0;
    forall u, v | ties(u) && ties(v) ensures Compare(sortBy, u, v) <= 0 {
      TiesAgree(sortBy, u, v, t);
    }
    InsertLastKeepsSelection(sortBy, ties, s, x);
  }

  /** Stability: the tasks that tie with any given task appear in the
      result in the same order as in the input. */
  lemma {:induction false} StableSortKeepsTies(sortBy: string, s: seq<Task>, t: Task)
    ensures var ties := (u: Task) => Compare(sortBy, u, t) == 0;
      Filter(ties, StableSort(sortBy, s)) == Filter(ties, s)
  {
    var ties := (u: Task) => Compare(sortBy, u, t) == 0;
    if s != [] {
      var init, x := s[..|s| - 1], s[|s| - 1];
      assert s == init + [x];
      calc {
        Filter(ties, StableSort(sortBy, s));
        Filter(ties, InsertLast(sortBy, StableSort(sortBy, init), x));
        { InsertLastKeepsTies(sortBy, StableSort(sortBy, init), x, t); }
        Filter(ties, StableSort(sortBy, init) + [x]);
        { FilterConcat(ties, StableSort(sortBy, init), [x]); }
        Filter(ties, StableSort(sortBy, init)) + Filter(ties, [x]);
        { StableSortKeepsTies(sortBy, init, t); }
        Filter(ties, init) + Filter(ties, [x]);
        { FilterConcat(ties, init, [x]); }
        Filter(ties, init + [x]);
      }
    }
  }

  /** What the order means for each key, for any two positions i < j of a
      sorted result. */
  lemma SortedMeaning(sortBy: string, s: seq<Task>, i: int, j: int)
    requires 0 <= i < j < |s|
    ensures var r := StableSort(sortBy, s);
      && (sortBy == "priority" ==>
            Weight(r[i].priority) > Weight(r[j].priority) ||
            (Weight(r[i].priority) == Weight(r[j].priority) && CompareStrings(r[i].title, r[j].title) <= 0))
      && (sortBy == "due" ==>
            (r[i].due.None? ==> r[j].due.None? && CompareStrings(r[i].title, r[j].title) <= 0)
            && (r[i].due.Some? && r[j].due.Some? ==> r[i].due.value <= r[j].due.value))
      && (sortBy == "title" ==> CompareStrings(r[i].title, r[j].title) <= 0)
      && (sortBy !in {"priority", "due", "title"} ==> r[i].createdAt >= r[j].createdAt)
  {
    StableSortSorted(sortBy, s);
  }

  /** Two dated tasks with the same due instant keep their input order,
      whatever their titles: the 'due' comparator has no title tie-break
      for dated tasks. */
  lemma EqualDueKeepsInputOrder(a: Task, b: Task)
    requires a.due.Some? && a.due == b.due
    ensures StableSort("due", [a, b]) == [a, b]
  {
    assert [a, b][..1] == [a];
    assert [a][..0] == [];
  }

  /** One swap of the insertion: `x` moves past an element that comes after
      it, and what remains to be done still yields the same insertion. */
  lemma SwapStep(sortBy: string, before: seq<Task>, after: seq<Task>, i: nat, j: nat, x: Task, target: seq<Task>)
    requires 0 < j <= i < |before|
    requires before[j] == x && Compare(sortBy, before[j - 1], x) > 0
    requires target == InsertLast(sortBy, before[..j], x) + before[j + 1..i + 1]
    requires after == before[j - 1 := x][j := before[j - 1]]
    ensures target == InsertLast(sortBy, after[..j - 1], x) + after[j..i + 1]
  {
    assert before[..j][..j - 1] == before[..j - 1] == after[..j - 1];
    assert after[j..i + 1] == [before[j - 1]] + before[j + 1..i + 1];
  }

  /** Sorting one more element is inserting it into the sorted prefix. */
  lemma StableSortStep(sortBy: string, s: seq<Task>, k: nat)
    requires k < |s|
    ensures StableSort(sortBy, s[..k + 1]) == InsertLast(sortBy, StableSort(sortBy, s[..k]), s[k])
  {
    assert s[..k + 1][..k] == s[..k];
  }

  /** One pass of insertion sort: moves `a[i]` left by adjacent swaps past
      the elements of the sorted prefix that the comparator puts after it. */
  method InsertAt(a: array<Task>, i: nat, sortBy: string)
    requires i < a.Length
    modifies a
    ensures a[..i + 1] == InsertLast(sortBy, old(a[..i]), old(a[i]))
    ensures a[i + 1..] == old(a[i + 1..])
  {
    var x := a[i];
    ghost var target := InsertLast(sortBy, a[..i], x);
    assert a[i + 1..i + 1] == [];
    var j := i;
    while j > 0 && Compare(sortBy, a[j - 1], a[j]) > 0
      invariant 0 <= j <= i
      invariant a[j] == x
      invariant target == InsertLast(sortBy, a[..j], x) + a[j + 1..i + 1]
      invariant a[i + 1..] == old(a[i + 1..])
    {
      ghost var before := a[..];
      a[j - 1], a[j] := a[j], a[j - 1];
      SwapStep(sortBy, before, a[..], i, j, x, target);
      j := j - 1;
    }
    assert a[..i + 1] == a[..j] + [x] + a[j + 1..i + 1];
  }

  /** The 'due' key puts the earlier due instant first: tasks added in the
      order A (due later), B (due earlier) are listed B, A. */
  lemma EarlierDueFirst(a: Task, b: Task)
    requires a.due.Some? && b.due.Some? && b.due.value < a.due.value
    ensures StableSort("due", [a, b]) == [b, a]
  {
    assert [a, b][..1] == [a];
    assert [a][..0] == [];
    assert StableSort("due", [a]) == [a];
    assert Compare("due", a, b) > 0;
    assert InsertLast("due", [a], b) == [b] + [a];
  }

  /** sortTasks: copies the tasks into a fresh array and sorts it in place,
      giving the stable order of the comparator. */
  method SortTasks(tasks: seq<Task>, sortBy: string) returns (sorted: seq<Task>)
    ensures sorted == StableSort(sortBy, tasks)
  {
    var a := new Task[|tasks|](k requires 0 <= k < |tasks| => tasks[k]);
    var i := 0;
    while i < a.Length
      invariant 0 <= i <= a.Length
      invariant a[..i] == StableSort(sortBy, tasks[..i])
      invariant a[i..] == tasks[i..]
    {
      InsertAt(a, i, sortBy);
      StableSortStep(sortBy, tasks, i);
      i := i + 1;
    }
    assert a[..] == a[..a.Length] && tasks[..|tasks|] == tasks;
    sorted := a[..];
  }
}
