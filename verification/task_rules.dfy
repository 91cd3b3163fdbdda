/**
 * The task registry's rules as functions on values: building a task from a
 * caller's input, editing and toggling it, looking it up by id, removing it,
 * listing newest first and counting.
 */
module TaskRules {
  import opened Records

  const DefaultPriority: Priority := Medium
  const DefaultEstimate: int := 60

  /** The task that creation builds: absent description, priority and estimate take their
      defaults (an estimate of 0 counts as absent), and the task starts not completed. */
  function NewTask(id: int, input: TaskInput, now: Timestamp): (t: Task)
    ensures t.id == id && t.title == input.title && !t.completed && t.completedAt.None?
    ensures t.description == (if input.description.Some? then input.description.value else "")
    ensures t.priority == (if input.priority.Some? then input.priority.value else Medium)
    ensures t.estimatedTime == (if input.estimatedTime.Some? && input.estimatedTime.value != 0 then input.estimatedTime.value else 60)
    ensures t.createdAt == now && t.updatedAt == now
  {
    Task(
      id,
      input.title,
      if input.description.Some? then input.description.value else "",
      if input.priority.Some? then input.priority.value else DefaultPriority,
      if input.estimatedTime.Some? && input.estimatedTime.value != 0 then input.estimatedTime.value else DefaultEstimate,
      false,
      None,
      now,
      now)
  }

  /** The task after an edit: every field the edit carries overwrites the task's; the id, the
      completion state and the creation moment stay. */
  function Edited(t: Task, u: TaskUpdate, now: Timestamp): (r: Task)
    ensures r.id == t.id && r.completed == t.completed && r.completedAt == t.completedAt && r.createdAt == t.createdAt
    ensures r.updatedAt == now
    ensures u.title.None? ==> r.title == t.title
    ensures u.title.Some? ==> r.title == u.title.value
    ensures u.description.Some? ==> r.description == u.description.value
    ensures u.description.None? ==> r.description == t.description
    ensures u.priority.Some? ==> r.priority == u.priority.value
    ensures u.priority.None? ==> r.priority == t.priority
    ensures u.estimatedTime.Some? ==> r.estimatedTime == u.estimatedTime.value
    ensures u.estimatedTime.None? ==> r.estimatedTime == t.estimatedTime
  {
    t.(title := if u.title.Some? then u.title.value else t.title,
       description := if u.description.Some? then u.description.value else t.description,
       priority := if u.priority.Some? then u.priority.value else t.priority,
       estimatedTime := if u.estimatedTime.Some? then u.estimatedTime.value else t.estimatedTime,
       updatedAt := now)
  }

  /** The task after a completion toggle at `now`: the flag flips; only a flip to completed
      records the completion moment, a flip back keeps the old one. */
  function Toggled(t: Task, now: Timestamp): (r: Task)
    ensures r.completed == !t.completed && r.updatedAt == now
    ensures !t.completed ==> r.completedAt == Some(now)
    ensures t.completed ==> r.completedAt == t.completedAt
    ensures r.(completed := t.completed, completedAt := t.completedAt, updatedAt := t.updatedAt) == t
  {
    t.(completed := !t.completed,
       updatedAt := now,
       completedAt := if !t.completed then Some(now) else t.completedAt)
  }

  /** Toggling twice restores the flag, but the completion moment of the first toggle stays. */
  lemma ToggleTwice(t: Task, first: Timestamp, second: Timestamp)
    requires !t.completed
    ensures Toggled(Toggled(t, first), second).completed == t.completed
    ensures Toggled(Toggled(t, first), second).completedAt == Some(first)
  {
  }

  // ---------------------------------------------------------------------
  // Ids

  /** No task of the list carries the id. */
  predicate Lacks(ts: seq<Task>, id: int)
  {
    forall k :: 0 <= k < |ts| ==> ts[k].id != id
  }

  predicate DistinctIds(ts: seq<Task>)
  {
    forall i, j :: 0 <= i < j < |ts| ==> ts[i].id != ts[j].id
  }

  /** Every id of the list is below `bound`. */
  predicate IdsBelow(ts: seq<Task>, bound: int)
  {
    forall k :: 0 <= k < |ts| ==> ts[k].id < bound
  }

  /** The position of the first task with the given id. */
  function TaskIndex(ts: seq<Task>, id: int): (r: Option<nat>)
    ensures r.None? ==> Lacks(ts, id)
    ensures r.Some? ==> r.value < |ts| && ts[r.value].id == id && Lacks(ts[..r.value], id)
    decreases |ts|
  {
    if ts == [] then None
    else if ts[0].id == id then Some(0)
    else
      var rest := TaskIndex(ts[1..], id);
      if rest.None? then None else Some(rest.value + 1)
  }

  /** The list without the tasks carrying the given id, the others kept in order. */
  function WithoutTask(ts: seq<Task>, id: int): (r: seq<Task>)
    decreases |ts|
  {
    if ts == [] then []
    else if ts[0].id == id then WithoutTask(ts[1..], id)
    else [ts[0]] + WithoutTask(ts[1..], id)
  }

  /** Removal keeps exactly the tasks with another id, and shortens the list exactly when some
      task carries the id. */
  lemma {:induction false} WithoutTaskEffect(ts: seq<Task>, id: int)
    ensures Lacks(WithoutTask(ts, id), id)
    ensures forall t :: t in WithoutTask(ts, id) <==> t in ts && t.id != id
    ensures |WithoutTask(ts, id)| < |ts| <==> !Lacks(ts, id)
    ensures Lacks(ts, id) ==> WithoutTask(ts, id) == ts
    ensures |WithoutTask(ts, id)| <= |ts|
    decreases |ts|
  {
    if ts != [] {
      WithoutTaskEffect(ts[1..], id);
      assert ts == [ts[0]] + ts[1..];
      if ts[0].id != id {
        assert Lacks(ts, id) <==> Lacks(ts[1..], id);
      }
    }
  }

  /** Removal adds no id to the list. */
  lemma {:induction false} WithoutTaskLacks(ts: seq<Task>, id: int, other: int)
    requires Lacks(ts, other)
    ensures Lacks(WithoutTask(ts, id), other)
    decreases |ts|
  {
    if ts != [] {
      WithoutTaskLacks(ts[1..], id, other);
    }
  }

  /** Removal keeps ids distinct and below their bound. */
  lemma {:induction false} WithoutTaskKeepsIds(ts: seq<Task>, id: int, bound: int)
    requires DistinctIds(ts) && IdsBelow(ts, bound)
    ensures DistinctIds(WithoutTask(ts, id)) && IdsBelow(WithoutTask(ts, id), bound)
    decreases |ts|
  {
    if ts != [] {
      var tail := ts[1..];
      WithoutTaskKeepsIds(tail, id, bound);
      if ts[0].id != id {
        var rest := WithoutTask(tail, id);
        assert Lacks(tail, ts[0].id);
        WithoutTaskLacks(tail, id, ts[0].id);
        var r := [ts[0]] + rest;
        forall i, j | 0 <= i < j < |r|
          ensures r[i].id != r[j].id
        {
          assert r[j] == rest[j - 1];
          if i > 0 {
            assert r[i] == rest[i - 1];
          }
        }
        forall k | 0 <= k < |r|
          ensures r[k].id < bound
        {
          if k > 0 {
            assert r[k] == rest[k - 1];
          }
        }
      }
    }
  }

  // ---------------------------------------------------------------------
  // Listing newest first

  /** The list runs from the newest creation moment to the oldest. */
  predicate NewestFirst(ts: seq<Task>)
  {
    forall i, j :: 0 <= i < j < |ts| ==> ts[i].createdAt >= ts[j].createdAt
  }

  /** The tasks created at moment `c`, in list order. */
  function CreatedAt(ts: seq<Task>, c: Timestamp): seq<Task>
    decreases |ts|
  {
    if ts == [] then [] else (if ts[0].createdAt == c then [ts[0]] else []) + CreatedAt(ts[1..], c)
  }

  /** Places `t` before the first task created no later than it. */
  function Insert(t: Task, sorted: seq<Task>): (r: seq<Task>)
    ensures |r| == |sorted| + 1
    decreases |sorted|
  {
    if sorted == [] || sorted[0].createdAt <= t.createdAt then [t] + sorted
    else [sorted[0]] + Insert(t, sorted[1..])
  }

  /** No task of the list was created after `bound`. */
  predicate CreatedNoLaterThan(ts: seq<Task>, bound: Timestamp)
  {
    forall k :: 0 <= k < |ts| ==> ts[k].createdAt <= bound
  }

  /** Insertion adds exactly `t`. */
  lemma {:induction false} InsertPermutes(t: Task, sorted: seq<Task>)
    ensures multiset(Insert(t, sorted)) == multiset(sorted) + multiset{t}
    decreases |sorted|
  {
    if !(sorted == [] || sorted[0].createdAt <= t.createdAt) {
      InsertPermutes(t, sorted[1..]);
      assert sorted == [sorted[0]] + sorted[1..];
    }
  }

  lemma {:induction false} InsertBounded(t: Task, sorted: seq<Task>, bound: Timestamp)
    requires CreatedNoLaterThan(sorted, bound) && t.createdAt <= bound
    ensures CreatedNoLaterThan(Insert(t, sorted), bound)
    decreases |sorted|
  {
    if !(sorted == [] || sorted[0].createdAt <= t.createdAt) {
      InsertBounded(t, sorted[1..], bound);
    }
  }

  /** Insertion keeps a newest-first list newest first. */
  lemma {:induction false} InsertSorted(t: Task, sorted: seq<Task>)
    requires NewestFirst(sorted)
    ensures NewestFirst(Insert(t, sorted))
    decreases |sorted|
  {
    if !(sorted == [] || sorted[0].createdAt <= t.createdAt) {
      var head, tail := sorted[0], sorted[1..];
      InsertSorted(t, tail);
      InsertBounded(t, tail, head.createdAt);
      var rest := Insert(t, tail);
      var r := [head] + rest;
      forall i, j | 0 <= i < j < |r| ensures r[i].createdAt >= r[j].createdAt {
        if i == 0 {
          assert r[j] == rest[j - 1];
        } else {
          assert r[i] == rest[i - 1] && r[j] == rest[j - 1];
        }
      }
    }
  }

  /** The stable sort, newest first, of a copy of the list. */
  function SortedNewestFirst(ts: seq<Task>): (r: seq<Task>)
    ensures multiset(r) == multiset(ts)
    ensures NewestFirst(r)
    decreases |ts|
  {
    if ts == [] then []
    else
      var rest := SortedNewestFirst(ts[1..]);
      SortStep(ts, rest);
      Insert(ts[0], rest)
  }

  /** Inserting the head into the sorted tail sorts the whole list. */
  lemma SortStep(ts: seq<Task>, rest: seq<Task>)
    requires ts != [] && multiset(rest) == multiset(ts[1..]) && NewestFirst(rest)
    ensures multiset(Insert(ts[0], rest)) == multiset(ts)
    ensures NewestFirst(Insert(ts[0], rest))
  {
    InsertPermutes(ts[0], rest);
    InsertSorted(ts[0], rest);
    assert ts == [ts[0]] + ts[1..];
  }

  /** The tasks of a list headed by `x` created at moment `c`. */
  lemma CreatedAtCons(x: Task, ts: seq<Task>, c: Timestamp)
    ensures CreatedAt([x] + ts, c) == (if x.createdAt == c then [x] else []) + CreatedAt(ts, c)
  {
    assert ([x] + ts)[1..] == ts;
  }

  lemma {:induction false} InsertStable(t: Task, sorted: seq<Task>, c: Timestamp)
    ensures CreatedAt(Insert(t, sorted), c) == (if t.createdAt == c then [t] else []) + CreatedAt(sorted, c)
    decreases |sorted|
  {
    if sorted == [] || sorted[0].createdAt <= t.createdAt {
      CreatedAtCons(t, sorted, c);
    } else {
      var head, tail := sorted[0], sorted[1..];
      var rest := Insert(t, tail);
      InsertStable(t, tail, c);
      CreatedAtCons(head, rest, c);
      CreatedAtCons(head, tail, c);
      assert sorted == [head] + tail;
      if head.createdAt == c {
        assert t.createdAt != c;
      }
    }
  }

  /** The sort is stable: tasks created at the same moment keep their relative order. */
  lemma {:induction false} SortIsStable(ts: seq<Task>, c: Timestamp)
    ensures CreatedAt(SortedNewestFirst(ts), c) == CreatedAt(ts, c)
    decreases |ts|
  {
    if ts != [] {
      SortIsStable(ts[1..], c);
      InsertStable(ts[0], SortedNewestFirst(ts[1..]), c);
    }
  }

  // ---------------------------------------------------------------------
  // Counting

  /** The completed tasks, counted from the end of the list. */
  function CountCompleted(ts: seq<Task>): (n: nat)
    ensures n <= |ts|
    decreases |ts|
  {
    if ts == [] then 0
    else CountCompleted(ts[..|ts| - 1]) + (if ts[|ts| - 1].completed then 1 else 0)
  }

  /** The count is the number of positions holding a completed task: the length of the
      `filter` on the completion flag. */
  lemma {:induction false} CompletedCount(ts: seq<Task>)
    ensures CountCompleted(ts) == |set k | 0 <= k < |ts| && ts[k].completed|
    decreases |ts|
  {
    if ts != [] {
      var init, last := ts[..|ts| - 1], |ts| - 1;
      CompletedCount(init);
      var before := set k | 0 <= k < |init| && init[k].completed;
      var after := set k | 0 <= k < |ts| && ts[k].completed;
      assert last !in before;
      if ts[last].completed {
        assert after == before + {last};
      } else {
        assert after == before;
      }
    }
  }

  /** No task is counted completed exactly when no task is completed. */
  lemma {:induction false} NoneCompleted(ts: seq<Task>)
    ensures CountCompleted(ts) == 0 <==> forall k :: 0 <= k < |ts| ==> !ts[k].completed
    decreases |ts|
  {
    if ts != [] {
      var init := ts[..|ts| - 1];
      NoneCompleted(init);
      assert forall k :: 0 <= k < |init| ==> init[k] == ts[k];
    }
  }

  /** The task is pending and of high priority. */
  predicate HighPending(t: Task)
  {
    t.priority == High && !t.completed
  }

  /** The pending high-priority tasks, never more than the pending tasks. */
  function CountHighPending(ts: seq<Task>): (n: nat)
    ensures n <= |ts| - CountCompleted(ts)
    decreases |ts|
  {
    if ts == [] then 0
    else
      CountHighPending(ts[..|ts| - 1]) + (if HighPending(ts[|ts| - 1]) then 1 else 0)
  }

  /** The count is the number of positions holding a pending high-priority task: the length of
      the `filter` on priority and completion. */
  lemma {:induction false} HighPendingCount(ts: seq<Task>)
    ensures CountHighPending(ts) == |set k | 0 <= k < |ts| && HighPending(ts[k])|
    decreases |ts|
  {
    if ts != [] {
      var init, last := ts[..|ts| - 1], |ts| - 1;
      HighPendingCount(init);
      assert forall k :: 0 <= k < |init| ==> init[k] == ts[k];
      var before := set k | 0 <= k < |init| && HighPending(init[k]);
      var after := set k | 0 <= k < |ts| && HighPending(ts[k]);
      assert last !in before;
      if HighPending(ts[last]) {
        assert after == before + {last};
      } else {
        assert after == before;
      }
    }
  }
}
