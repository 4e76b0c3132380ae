/**
 * The list operations TaskStore performs on its `[Task]`: the completed-last
 * reordering every mutation ends with (`moveCompletedTasksToEnd`), the
 * lookups by id and by name (`firstIndex(where:)`), and the list each of
 * `delete`, `finish`, `replaceTasks` and `updateOrAddTasks` produces.
 */
module TaskList {
  import opened Wrappers
  import opened TaskModel

  // ---------------------------------------------------------------------------
  // Selecting tasks in order
  // ---------------------------------------------------------------------------

  /** The tasks `keep` accepts, in their original order. */
  function Select(ts: seq<Task>, keep: Task -> bool): (r: seq<Task>)
    ensures |r| <= |ts|
    ensures forall t :: t in r <==> t in ts && keep(t)
  {
    if ts == [] then []
    else
      var init := Select(ts[..|ts| - 1], keep);
      assert ts == ts[..|ts| - 1] + [ts[|ts| - 1]];
      if keep(ts[|ts| - 1]) then init + [ts[|ts| - 1]] else init
  }

  /** Selecting from a concatenation selects from each part. */
  lemma {:induction false} SelectAppend(a: seq<Task>, b: seq<Task>, keep: Task -> bool)
    ensures Select(a + b, keep) == Select(a, keep) + Select(b, keep)
    decreases |b|
  {
    if b == [] {
      assert a + b == a;
    } else {
      var init, last := b[..|b| - 1], b[|b| - 1];
      SelectAppend(a, init, keep);
      assert (a + b)[..|a + b| - 1] == a + init;
      assert (a + b)[|a + b| - 1] == last;
      var tail := if keep(last) then [last] else [];
      calc {
        Select(a + b, keep);
        Select(a + init, keep) + tail;
        Select(a, keep) + Select(init, keep) + tail;
        Select(a, keep) + (Select(init, keep) + tail);
        Select(a, keep) + Select(b, keep);
      }
    }
  }

  /** Tasks split by a predicate and its negation: together they are the list, counted with multiplicity. */
  lemma {:induction false} SelectSplit(ts: seq<Task>, keep: Task -> bool, drop: Task -> bool)
    requires forall t :: drop(t) == !keep(t)
    ensures multiset(Select(ts, keep)) + multiset(Select(ts, drop)) == multiset(ts)
    decreases |ts|
  {
    if ts != [] {
      var init := ts[..|ts| - 1];
      SelectSplit(init, keep, drop);
      assert ts == init + [ts[|ts| - 1]];
    }
  }

  /** Selecting with a predicate every task satisfies changes nothing. */
  lemma {:induction false} SelectAll(ts: seq<Task>, keep: Task -> bool)
    requires forall i :: 0 <= i < |ts| ==> keep(ts[i])
    ensures Select(ts, keep) == ts
    decreases |ts|
  {
    if ts != [] {
      SelectAll(ts[..|ts| - 1], keep);
      assert ts == ts[..|ts| - 1] + [ts[|ts| - 1]];
    }
  }

  /** Selecting with a predicate no task satisfies leaves nothing. */
  lemma {:induction false} SelectNone(ts: seq<Task>, keep: Task -> bool)
    requires forall i :: 0 <= i < |ts| ==> !keep(ts[i])
    ensures Select(ts, keep) == []
    decreases |ts|
  {
    if ts != [] {
      SelectNone(ts[..|ts| - 1], keep);
    }
  }

  // ---------------------------------------------------------------------------
  // Completed tasks last
  // ---------------------------------------------------------------------------

  predicate IsIncomplete(t: Task) { !t.isCompleted }

  predicate IsComplete(t: Task) { t.isCompleted }

  /** Every completed task comes after every incomplete one. */
  predicate IsCompletedLast(ts: seq<Task>) {
    forall i, j :: 0 <= i < j < |ts| && ts[i].isCompleted ==> ts[j].isCompleted
  }

  /** The list `moveCompletedTasksToEnd` produces: the incomplete tasks, then the completed ones. */
  function CompletedLast(ts: seq<Task>): (r: seq<Task>)
    ensures forall t :: t in r <==> t in ts
  {
    Select(ts, IsIncomplete) + Select(ts, IsComplete)
  }

  /** The reordering is a permutation of the list. */
  lemma CompletedLastPermutation(ts: seq<Task>)
    ensures multiset(CompletedLast(ts)) == multiset(ts)
  {
    var inc, com := Select(ts, IsIncomplete), Select(ts, IsComplete);
    SelectSplit(ts, IsIncomplete, IsComplete);
    assert multiset(inc + com) == multiset(inc) + multiset(com);
  }

  /** The reordering puts every completed task after every incomplete one. */
  lemma CompletedLastOrdered(ts: seq<Task>)
    ensures IsCompletedLast(CompletedLast(ts))
  {
    var inc, com := Select(ts, IsIncomplete), Select(ts, IsComplete);
    var r := CompletedLast(ts);
    assert forall k :: 0 <= k < |inc| ==> r[k] == inc[k] && inc[k] in inc;
    forall i, j | 0 <= i < j < |r| && r[i].isCompleted
      ensures r[j].isCompleted
    {
      assert r[j] == com[j - |inc|] && com[j - |inc|] in com;
    }
  }

  /** The reordering keeps the relative order of the incomplete tasks and of the completed ones. */
  lemma CompletedLastKeepsGroups(ts: seq<Task>)
    ensures var r := CompletedLast(ts);
      Select(r, IsIncomplete) == Select(ts, IsIncomplete) && Select(r, IsComplete) == Select(ts, IsComplete)
  {
    var inc, com := Select(ts, IsIncomplete), Select(ts, IsComplete);
    SelectAppend(inc, com, IsIncomplete);
    SelectAppend(inc, com, IsComplete);
    assert forall i :: 0 <= i < |inc| ==> inc[i] in inc;
    assert forall i :: 0 <= i < |com| ==> com[i] in com;
    SelectAll(inc, IsIncomplete);
    SelectAll(com, IsComplete);
    SelectNone(inc, IsComplete);
    SelectNone(com, IsIncomplete);
  }

  /** A list that is already in order is left as it is. */
  lemma {:induction false} CompletedLastOfOrdered(ts: seq<Task>)
    requires IsCompletedLast(ts)
    ensures CompletedLast(ts) == ts
    decreases |ts|
  {
    if ts != [] {
      var init, last := ts[..|ts| - 1], ts[|ts| - 1];
      assert ts == init + [last];
      CompletedLastOfOrdered(init);
      if !last.isCompleted {
        assert forall i :: 0 <= i < |ts| ==> IsIncomplete(ts[i]);
        SelectAll(ts, IsIncomplete);
        SelectNone(ts, IsComplete);
      }
    }
  }

  /** Reordering twice is reordering once. */
  lemma CompletedLastIdempotent(ts: seq<Task>)
    ensures CompletedLast(CompletedLast(ts)) == CompletedLast(ts)
  {
    CompletedLastOrdered(ts);
    CompletedLastOfOrdered(CompletedLast(ts));
  }

  /** `moveCompletedTasksToEnd(_:)`: one pass appending each task to one of two lists. */
  method MoveCompletedTasksToEnd(tasks: seq<Task>) returns (r: seq<Task>)
    ensures r == CompletedLast(tasks)
  {
    var incomplete: seq<Task> := [];
    var complete: seq<Task> := [];
    for i := 0 to |tasks|
      invariant incomplete == Select(tasks[..i], IsIncomplete)
      invariant complete == Select(tasks[..i], IsComplete)
    {
      assert tasks[..i + 1][..i] == tasks[..i];
      if tasks[i].isCompleted {
        complete := complete + [tasks[i]];
      } else {
        incomplete := incomplete + [tasks[i]];
      }
    }
    assert tasks[..|tasks|] == tasks;
    r := incomplete + complete;
  }

  /** Dropping tasks from an ordered list keeps it ordered. */
  lemma {:induction false} SelectKeepsOrder(ts: seq<Task>, keep: Task -> bool)
    requires IsCompletedLast(ts)
    ensures IsCompletedLast(Select(ts, keep))
    decreases |ts|
  {
    if ts != [] {
      var init, last := ts[..|ts| - 1], ts[|ts| - 1];
      SelectKeepsOrder(init, keep);
      var r := Select(ts, keep);
      if keep(last) {
        forall i | 0 <= i < |r| - 1 && r[i].isCompleted
          ensures last.isCompleted
        {
          assert r[i] in Select(init, keep);
          var k :| 0 <= k < |init| && init[k] == r[i];
          assert ts[k] == r[i];
        }
      }
    }
  }

  // ---------------------------------------------------------------------------
  // Lookup: `firstIndex(where:)`
  // ---------------------------------------------------------------------------

  /** The first position at or after `from` whose task satisfies `p`. */
  function FirstIndexFrom(ts: seq<Task>, p: Task -> bool, from: nat): (r: Option<nat>)
    requires from <= |ts|
    ensures r.Some? ==> from <= r.value < |ts| && p(ts[r.value])
    ensures forall j :: from <= j < (if r.Some? then r.value else |ts|) ==> !p(ts[j])
    decreases |ts| - from
  {
    if from == |ts| then None
    else if p(ts[from]) then Some(from)
    else FirstIndexFrom(ts, p, from + 1)
  }

  function FirstIndex(ts: seq<Task>, p: Task -> bool): Option<nat> {
    FirstIndexFrom(ts, p, 0)
  }

  /** `tasks.firstIndex(where: { $0.id == id })` */
  function IndexOfId(ts: seq<Task>, id: nat): Option<nat> {
    FirstIndex(ts, (t: Task) => t.id == id)
  }

  /** `tasks.firstIndex(where: { $0.name == name })` */
  function IndexOfName(ts: seq<Task>, name: string): Option<nat> {
    FirstIndex(ts, (t: Task) => t.name == name)
  }

  /** The first position of a name is the one position that has the name and none before it. */
  lemma IndexOfNameIs(ts: seq<Task>, name: string, k: nat)
    requires k < |ts| && ts[k].name == name
    requires forall j :: 0 <= j < k ==> ts[j].name != name
    ensures IndexOfName(ts, name) == Some(k)
  {
  }

  /** A name no task has is not found. */
  lemma IndexOfNameAbsent(ts: seq<Task>, name: string)
    requires forall j :: 0 <= j < |ts| ==> ts[j].name != name
    ensures IndexOfName(ts, name).None?
  {
  }

  // ---------------------------------------------------------------------------
  // delete
  // ---------------------------------------------------------------------------

  /** `tasks.removeAll { $0.id == id }` */
  function WithoutId(ts: seq<Task>, id: nat): (r: seq<Task>)
    ensures forall t :: t in r <==> t in ts && t.id != id
  {
    Select(ts, (t: Task) => t.id != id)
  }

  /**
   * Deleting removes exactly the tasks carrying the id: every other task
   * stays, with its multiplicity and in its order, and an ordered list stays
   * ordered, so the reordering after it changes nothing.
   */
  lemma DeleteSpec(ts: seq<Task>, id: nat)
    requires IsCompletedLast(ts)
    ensures var r := WithoutId(ts, id);
      && (forall t :: t in r <==> t in ts && t.id != id)
      && multiset(r) + multiset(Select(ts, (t: Task) => t.id == id)) == multiset(ts)
      && CompletedLast(r) == r
  {
    SelectSplit(ts, (t: Task) => t.id != id, (t: Task) => t.id == id);
    SelectKeepsOrder(ts, (t: Task) => t.id != id);
    CompletedLastOfOrdered(WithoutId(ts, id));
  }

  /** Deleting an id no task has leaves the list as it is. */
  lemma DeleteAbsent(ts: seq<Task>, id: nat)
    requires forall i :: 0 <= i < |ts| ==> ts[i].id != id
    ensures WithoutId(ts, id) == ts
  {
    SelectAll(ts, (t: Task) => t.id != id);
  }

  // ---------------------------------------------------------------------------
  // finish
  // ---------------------------------------------------------------------------

  /** The mutation `finish` applies: take the task out, mark it completed, append it. */
  function Finished(ts: seq<Task>, id: nat): (r: seq<Task>)
    ensures |r| == |ts|
    ensures forall t :: t in r ==> t in ts || (t.id == id && t.isCompleted)
  {
    match IndexOfId(ts, id)
    case None => ts
    case Some(k) => ts[..k] + ts[k + 1..] + [ts[k].(isCompleted := true)]
  }

  /**
   * After the reordering, the first task with the id is the last task of the
   * list and completed, and the other tasks keep their order; a missing id
   * changes nothing.
   */
  lemma FinishSpec(ts: seq<Task>, id: nat)
    requires IsCompletedLast(ts)
    ensures var r := CompletedLast(Finished(ts, id));
      match IndexOfId(ts, id)
      case None => r == ts
      case Some(k) => r == ts[..k] + ts[k + 1..] + [ts[k].(isCompleted := true)]
  {
    match IndexOfId(ts, id)
    case None =>
      CompletedLastOfOrdered(ts);
    case Some(k) =>
      var rest := ts[..k] + ts[k + 1..];
      RemoveKeepsOrder(ts, k);
      CompletedLastOfOrdered(rest);
      CompletedLastOfCompletedTail(rest, ts[k].(isCompleted := true));
  }

  /** Taking one task out of an ordered list keeps it ordered. */
  lemma RemoveKeepsOrder(ts: seq<Task>, k: nat)
    requires k < |ts| && IsCompletedLast(ts)
    ensures IsCompletedLast(ts[..k] + ts[k + 1..])
  {
    var rest := ts[..k] + ts[k + 1..];
    forall i, j | 0 <= i < j < |rest| && rest[i].isCompleted
      ensures rest[j].isCompleted
    {
      var i', j' := if i < k then i else i + 1, if j < k then j else j + 1;
      assert rest[i] == ts[i'] && rest[j] == ts[j'];
    }
  }

  /** A completed task appended at the end stays at the end. */
  lemma CompletedLastOfCompletedTail(ts: seq<Task>, done: Task)
    requires done.isCompleted
    ensures CompletedLast(ts + [done]) == CompletedLast(ts) + [done]
  {
    SelectAppend(ts, [done], IsIncomplete);
    SelectAppend(ts, [done], IsComplete);
    assert Select([done], IsIncomplete) == [];
    assert Select([done], IsComplete) == [done];
  }

  // ---------------------------------------------------------------------------
  // replaceTasks: keep the ids of tasks whose name is already listed
  // ---------------------------------------------------------------------------

  /** A parsed task takes the id of the first existing task with its name, if any. */
  function Adopted(existing: seq<Task>, t: Task): Task {
    match IndexOfName(existing, t.name)
    case Some(k) => Task(existing[k].id, t.name, t.elapsed, t.isCompleted)
    case None => t
  }

  /** The list `replaceTasks` builds before reordering. */
  function Merged(existing: seq<Task>, parsed: seq<Task>): (r: seq<Task>)
    ensures |r| == |parsed|
  {
    if parsed == [] then []
    else Merged(existing, parsed[..|parsed| - 1]) + [Adopted(existing, parsed[|parsed| - 1])]
  }

  /**
   * `id` is the id of the first task of `existing` named like `t`, or `t`'s
   * own id when none is.
   */
  predicate ReusesFirstId(existing: seq<Task>, t: Task, id: nat) {
    || (exists k :: 0 <= k < |existing| && existing[k].name == t.name && id == existing[k].id
                   && forall j :: 0 <= j < k ==> existing[j].name != t.name)
    || ((forall k :: 0 <= k < |existing| ==> existing[k].name != t.name) && id == t.id)
  }

  /**
   * The merged list has the parsed names, elapsed values and completion
   * flags, in order; each task's id is the first existing id for its name,
   * or the parsed task's fresh id.
   */
  lemma {:induction false} MergedSpec(existing: seq<Task>, parsed: seq<Task>)
    ensures var r := Merged(existing, parsed);
      forall i :: 0 <= i < |r| ==>
        && r[i].name == parsed[i].name && r[i].elapsed == parsed[i].elapsed
        && r[i].isCompleted == parsed[i].isCompleted
        && ReusesFirstId(existing, parsed[i], r[i].id)
    decreases |parsed|
  {
    if parsed != [] {
      var init := parsed[..|parsed| - 1];
      MergedSpec(existing, init);
      var r := Merged(existing, parsed);
      forall i | 0 <= i < |r|
        ensures r[i].name == parsed[i].name && r[i].elapsed == parsed[i].elapsed
        ensures r[i].isCompleted == parsed[i].isCompleted
        ensures ReusesFirstId(existing, parsed[i], r[i].id)
      {
        if i < |init| {
          assert r[i] == Merged(existing, init)[i] && parsed[i] == init[i];
        } else {
          var t := parsed[i];
          match IndexOfName(existing, t.name)
          case Some(k) =>
          case None =>
        }
      }
    }
  }

  /** The loop of `replaceTasks` that keeps the ids of tasks already listed. */
  method ReuseIds(existing: seq<Task>, newTasks: seq<Task>) returns (r: seq<Task>)
    ensures r == Merged(existing, newTasks)
  {
    r := [];
    for i := 0 to |newTasks|
      invariant r == Merged(existing, newTasks[..i])
    {
      assert newTasks[..i + 1][..i] == newTasks[..i];
      var newTask := newTasks[i];
      match IndexOfName(existing, newTask.name)
      case Some(k) =>
        r := r + [Task(existing[k].id, newTask.name, newTask.elapsed, newTask.isCompleted)];
      case None =>
        r := r + [newTask];
    }
    assert newTasks[..|newTasks|] == newTasks;
  }

  /**
   * Two pasted lines with the name of one existing task both take its id:
   * the ids of the list are then not distinct.
   */
  lemma MergedSharesIds()
    ensures Merged([Task(1, "A", 0, false)], [Task(5, "A", 10, false), Task(6, "A", 20, true)])
         == [Task(1, "A", 10, false), Task(1, "A", 20, true)]
  {
    var parsed := [Task(5, "A", 10, false), Task(6, "A", 20, true)];
    assert parsed[..1] == [Task(5, "A", 10, false)];
    assert parsed[..1][..0] == [];
  }

  // ---------------------------------------------------------------------------
  // updateOrAddTasks
  // ---------------------------------------------------------------------------

  /** One step of `updateOrAddTasks`: overwrite the first task with the name, or append. */
  function Upsert(ts: seq<Task>, n: Task): (r: seq<Task>)
    ensures |ts| <= |r| <= |ts| + 1
    ensures |r| == |ts| + 1 ==> r[|ts|] == n
  {
    match IndexOfName(ts, n.name)
    case Some(k) => ts[k := ts[k].(elapsed := n.elapsed, isCompleted := n.isCompleted)]
    case None => ts + [n]
  }

  /** `updateOrAddTasks(_:to:)` on the list: every parsed task in turn. */
  function UpsertAll(ts: seq<Task>, news: seq<Task>): (r: seq<Task>)
    ensures |ts| <= |r| <= |ts| + |news|
  {
    if news == [] then ts
    else Upsert(UpsertAll(ts, news[..|news| - 1]), news[|news| - 1])
  }

  /** The last task of `news` with the given name. */
  function LastNamed(news: seq<Task>, name: string): (r: Option<Task>)
    ensures r.Some? ==> r.value in news && r.value.name == name
    ensures r.None? <==> forall i :: 0 <= i < |news| ==> news[i].name != name
  {
    if news == [] then None
    else if news[|news| - 1].name == name then Some(news[|news| - 1])
    else LastNamed(news[..|news| - 1], name)
  }

  /** `k` is the first position of its name. */
  predicate FirstOfName(ts: seq<Task>, k: nat)
    requires k < |ts|
  {
    forall j :: 0 <= j < k ==> ts[j].name != ts[k].name
  }

  /**
   * Updating in place: the tasks already listed keep their position, id and
   * name, and nothing is removed. The first task of each name takes the
   * elapsed time and completion flag of the last parsed task with that name
   * (it is unchanged if there is none); later tasks with the same name are
   * left alone. Past the old end come, one per parsed name the list did not
   * have and in order of first occurrence, the tasks `AppendedFor` those
   * names (see `UpsertAllAppends`).
   */
  lemma UpsertAllSpec(ts: seq<Task>, news: seq<Task>)
    ensures var r := UpsertAll(ts, news);
      && |r| >= |ts|
      && (forall k :: 0 <= k < |ts| ==> r[k].id == ts[k].id && r[k].name == ts[k].name)
      && (forall k :: 0 <= k < |ts| && FirstOfName(ts, k) ==>
            r[k] == match LastNamed(news, ts[k].name)
                    case Some(n) => ts[k].(elapsed := n.elapsed, isCompleted := n.isCompleted)
                    case None => ts[k])
      && (forall k :: 0 <= k < |ts| && !FirstOfName(ts, k) ==> r[k] == ts[k])
      && (forall k :: |ts| <= k < |r| ==> r[k].id in IdsOf(news) && forall j :: 0 <= j < |ts| ==> ts[j].name != r[k].name)
      && |r| == |ts| + |NewNames(ts, news)|
      && (forall k :: |ts| <= k < |r| ==> AppendedFor(news, NewNames(ts, news)[k - |ts|]) == Some(r[k]))
  {
    UpsertAllKeeps(ts, news);
    UpsertAllUpdates(ts, news);
    UpsertAllAppends(ts, news);
  }

  /**
   * The listed tasks keep position, id and name; the appended ones come from
   * the parsed tasks and carry names the list did not have.
   */
  lemma {:induction false} UpsertAllKeeps(ts: seq<Task>, news: seq<Task>)
    ensures var r := UpsertAll(ts, news);
      && |r| >= |ts|
      && (forall k :: 0 <= k < |ts| ==> r[k].id == ts[k].id && r[k].name == ts[k].name)
      && (forall k :: |ts| <= k < |r| ==> r[k].id in IdsOf(news) && forall j :: 0 <= j < |ts| ==> ts[j].name != r[k].name)
    decreases |news|
  {
    if news != [] {
      var init, n := news[..|news| - 1], news[|news| - 1];
      UpsertAllKeeps(ts, init);
      var mid := UpsertAll(ts, init);
      var r := UpsertAll(ts, news);
      assert r == Upsert(mid, n);
      IdsOfPrefix(news);
      if IndexOfName(mid, n.name).None? {
        forall k | |ts| <= k < |r|
          ensures r[k].id in IdsOf(news) && forall j :: 0 <= j < |ts| ==> ts[j].name != r[k].name
        {
          if k == |mid| {
            assert r[k] == n;
            forall j | 0 <= j < |ts|
              ensures ts[j].name != n.name
            {
              assert mid[j].name == ts[j].name;
            }
          }
        }
      }
    }
  }

  /**
   * The first listed task of each name takes the values of the last parsed
   * task of that name; the other listed tasks are unchanged.
   */
  lemma {:induction false} UpsertAllUpdates(ts: seq<Task>, news: seq<Task>)
    ensures var r := UpsertAll(ts, news);
      && |r| >= |ts|
      && (forall k :: 0 <= k < |ts| && FirstOfName(ts, k) ==>
            r[k] == match LastNamed(news, ts[k].name)
                    case Some(n) => ts[k].(elapsed := n.elapsed, isCompleted := n.isCompleted)
                    case None => ts[k])
      && (forall k :: 0 <= k < |ts| && !FirstOfName(ts, k) ==> r[k] == ts[k])
    decreases |news|
  {
    if news != [] {
      var init, n := news[..|news| - 1], news[|news| - 1];
      UpsertAllUpdates(ts, init);
      UpsertAllKeeps(ts, init);
      var mid := UpsertAll(ts, init);
      var r := UpsertAll(ts, news);
      assert r == Upsert(mid, n);
      match IndexOfName(mid, n.name)
      case Some(m) =>
        assert r == mid[m := mid[m].(elapsed := n.elapsed, isCompleted := n.isCompleted)];
        forall k | 0 <= k < |ts| && FirstOfName(ts, k)
          ensures r[k] == match LastNamed(news, ts[k].name)
                          case Some(l) => ts[k].(elapsed := l.elapsed, isCompleted := l.isCompleted)
                          case None => ts[k]
        {
          if ts[k].name == n.name {
            IndexOfNameIs(mid, n.name, k);
          } else {
            assert m != k;
          }
        }
        forall k | 0 <= k < |ts| && !FirstOfName(ts, k)
          ensures r[k] == ts[k]
        {
          var j :| 0 <= j < k && ts[j].name == ts[k].name;
          if ts[k].name == n.name {
            assert mid[j].name == n.name;
            assert m <= j;
          } else {
            assert mid[k].name != n.name;
          }
        }
      case None =>
        forall k | 0 <= k < |ts| && FirstOfName(ts, k)
          ensures r[k] == match LastNamed(news, ts[k].name)
                          case Some(l) => ts[k].(elapsed := l.elapsed, isCompleted := l.isCompleted)
                          case None => ts[k]
        {
          assert mid[k].name != n.name;
        }
    }
  }

  /** No task of the list has the name. */
  predicate Unnamed(ts: seq<Task>, name: string) {
    forall j :: 0 <= j < |ts| ==> ts[j].name != name
  }

  /** Where a name first occurs among the parsed tasks; `|news|` when it does not. */
  function FirstPos(news: seq<Task>, name: string): nat {
    match IndexOfName(news, name)
    case Some(i) => i
    case None => |news|
  }

  /**
   * The task `updateOrAddTasks` leaves at the end of the list for a parsed
   * name: the first parsed task of that name (its id and name), carrying the
   * elapsed time and flag of the last one.
   */
  function AppendedFor(news: seq<Task>, name: string): Option<Task> {
    match IndexOfName(news, name)
    case None => None
    case Some(i) =>
      match LastNamed(news, name)
      case Some(l) => Some(news[i].(elapsed := l.elapsed, isCompleted := l.isCompleted))
      case None => None
  }

  /** How the first and last parsed task of a name change when one more parsed task follows. */
  lemma NamesOfSnoc(news: seq<Task>, name: string)
    requires news != []
    ensures var init, n := news[..|news| - 1], news[|news| - 1];
      && (name != n.name ==> IndexOfName(news, name) == IndexOfName(init, name) && LastNamed(news, name) == LastNamed(init, name))
      && (name == n.name ==> LastNamed(news, name) == Some(n))
      && (IndexOfName(init, name).Some? ==> IndexOfName(news, name) == IndexOfName(init, name))
      && (IndexOfName(init, name).None? && name == n.name ==> IndexOfName(news, name) == Some(|news| - 1))
  {
    var init, n := news[..|news| - 1], news[|news| - 1];
    assert forall j :: 0 <= j < |init| ==> news[j] == init[j];
    match IndexOfName(init, name)
    case Some(i) =>
      IndexOfNameIs(news, name, i);
    case None =>
      if name == n.name {
        IndexOfNameIs(news, name, |news| - 1);
      } else {
        IndexOfNameAbsent(news, name);
      }
  }

  /** The parsed names the list does not have, each once, in the order they first occur. */
  function NewNames(ts: seq<Task>, news: seq<Task>): seq<string> {
    if news == [] then []
    else
      var seen, name := NewNames(ts, news[..|news| - 1]), news[|news| - 1].name;
      if Unnamed(ts, name) && name !in seen then seen + [name] else seen
  }

  /**
   * The new names are exactly the parsed names the list lacks: each is parsed
   * and unlisted, every parsed name the list lacks is among them, and they
   * are in order of first occurrence, so none appears twice.
   */
  lemma {:induction false} NewNamesSpec(ts: seq<Task>, news: seq<Task>)
    ensures var names := NewNames(ts, news);
      && (forall k :: 0 <= k < |names| ==> Unnamed(ts, names[k]) && IndexOfName(news, names[k]).Some?)
      && (forall i :: 0 <= i < |news| && Unnamed(ts, news[i].name) ==> news[i].name in names)
      && (forall j, k :: 0 <= j < k < |names| ==> FirstPos(news, names[j]) < FirstPos(news, names[k]))
    decreases |news|
  {
    if news != [] {
      var init, n := news[..|news| - 1], news[|news| - 1];
      NewNamesSpec(ts, init);
      var seen := NewNames(ts, init);
      assert forall i :: 0 <= i < |init| ==> news[i] == init[i];
      forall k | 0 <= k < |seen|
        ensures IndexOfName(news, seen[k]) == IndexOfName(init, seen[k])
        ensures FirstPos(news, seen[k]) == FirstPos(init, seen[k]) < |init|
      {
        NamesOfSnoc(news, seen[k]);
      }
      if Unnamed(ts, n.name) && n.name !in seen {
        NamesOfSnoc(news, n.name);
        assert FirstPos(news, n.name) == |init|;
      }
    }
  }

  /**
   * The tasks past the old end of the list are, one per new name and in the
   * same order, the task `AppendedFor` that name.
   */
  lemma {:induction false} UpsertAllTail(ts: seq<Task>, news: seq<Task>)
    ensures var r, names := UpsertAll(ts, news), NewNames(ts, news);
      && |r| == |ts| + |names|
      && forall k :: 0 <= k < |names| ==> r[|ts| + k].name == names[k] && AppendedFor(news, names[k]) == Some(r[|ts| + k])
    decreases |news|
  {
    if news != [] {
      var init, n := news[..|news| - 1], news[|news| - 1];
      UpsertAllTail(ts, init);
      UpsertAllKeeps(ts, init);
      NewNamesSpec(ts, init);
      var mid, seen := UpsertAll(ts, init), NewNames(ts, init);
      assert UpsertAll(ts, news) == Upsert(mid, n);
      assert NewNames(ts, news) == if Unnamed(ts, n.name) && n.name !in seen then seen + [n.name] else seen;
      TailStep(ts, init, news, mid, seen, n);
    }
  }

  /**
   * One parsed task more: given the tail `mid` has for the earlier parsed
   * tasks `init` and their new names `seen`, the tail after `Upsert` is the
   * one for `news`.
   */
  lemma TailStep(ts: seq<Task>, init: seq<Task>, news: seq<Task>, mid: seq<Task>, seen: seq<string>, n: Task)
    requires news != [] && init == news[..|news| - 1] && n == news[|news| - 1]
    requires |mid| == |ts| + |seen| && forall k :: 0 <= k < |ts| ==> mid[k].name == ts[k].name
    requires forall k :: 0 <= k < |seen| ==> mid[|ts| + k].name == seen[k] && AppendedFor(init, seen[k]) == Some(mid[|ts| + k])
    requires forall k :: 0 <= k < |seen| ==> Unnamed(ts, seen[k]) && IndexOfName(init, seen[k]).Some?
    requires forall i :: 0 <= i < |init| && Unnamed(ts, init[i].name) ==> init[i].name in seen
    requires forall j, k :: 0 <= j < k < |seen| ==> FirstPos(init, seen[j]) < FirstPos(init, seen[k])
    ensures var r, names := Upsert(mid, n), if Unnamed(ts, n.name) && n.name !in seen then seen + [n.name] else seen;
      && |r| == |ts| + |names|
      && forall k :: 0 <= k < |names| ==> r[|ts| + k].name == names[k] && AppendedFor(news, names[k]) == Some(r[|ts| + k])
  {
    if !Unnamed(ts, n.name) {
      TailKeptByListedName(ts, init, news, mid, seen, n);
    } else if n.name in seen {
      TailUpdatedByAppendedName(ts, init, news, mid, seen, n);
    } else {
      TailExtendedByNewName(ts, init, news, mid, seen, n);
    }
  }

  /** A parsed task whose name the list already had leaves the appended part alone. */
  lemma TailKeptByListedName(ts: seq<Task>, init: seq<Task>, news: seq<Task>, mid: seq<Task>, seen: seq<string>, n: Task)
    requires news != [] && init == news[..|news| - 1] && n == news[|news| - 1]
    requires |mid| == |ts| + |seen| && forall k :: 0 <= k < |ts| ==> mid[k].name == ts[k].name
    requires forall k :: 0 <= k < |seen| ==> mid[|ts| + k].name == seen[k] && AppendedFor(init, seen[k]) == Some(mid[|ts| + k])
    requires forall k :: 0 <= k < |seen| ==> Unnamed(ts, seen[k])
    requires !Unnamed(ts, n.name)
    ensures var r := Upsert(mid, n);
      && |r| == |ts| + |seen|
      && forall k :: 0 <= k < |seen| ==> r[|ts| + k].name == seen[k] && AppendedFor(news, seen[k]) == Some(r[|ts| + k])
  {
    var j :| 0 <= j < |ts| && ts[j].name == n.name;
    assert mid[j].name == n.name;
    var r := Upsert(mid, n);
    assert |r| == |mid| && forall k :: |ts| <= k < |r| ==> r[k] == mid[k];
    forall k | 0 <= k < |seen|
      ensures AppendedFor(news, seen[k]) == Some(r[|ts| + k])
    {
      assert ts[j].name != seen[k];
      NamesOfSnoc(news, seen[k]);
    }
  }

  /** A parsed task whose name was already appended updates that appended task. */
  lemma TailUpdatedByAppendedName(ts: seq<Task>, init: seq<Task>, news: seq<Task>, mid: seq<Task>, seen: seq<string>, n: Task)
    requires news != [] && init == news[..|news| - 1] && n == news[|news| - 1]
    requires |mid| == |ts| + |seen| && forall k :: 0 <= k < |ts| ==> mid[k].name == ts[k].name
    requires forall k :: 0 <= k < |seen| ==> mid[|ts| + k].name == seen[k] && AppendedFor(init, seen[k]) == Some(mid[|ts| + k])
    requires forall j, k :: 0 <= j < k < |seen| ==> FirstPos(init, seen[j]) < FirstPos(init, seen[k])
    requires Unnamed(ts, n.name) && n.name in seen
    ensures var r := Upsert(mid, n);
      && |r| == |ts| + |seen|
      && forall k :: 0 <= k < |seen| ==> r[|ts| + k].name == seen[k] && AppendedFor(news, seen[k]) == Some(r[|ts| + k])
  {
    var p :| 0 <= p < |seen| && seen[p] == n.name;
    OrderedNamesDistinct(seen, init, p);
    AppendedNameAt(ts, mid, seen, p);
    TailUpdatedByNewName(init, news, mid, |ts|, seen, p, n);
  }

  /** Names in strictly increasing order of first occurrence are distinct. */
  lemma OrderedNamesDistinct(seen: seq<string>, news: seq<Task>, p: nat)
    requires p < |seen|
    requires forall j, k :: 0 <= j < k < |seen| ==> FirstPos(news, seen[j]) < FirstPos(news, seen[k])
    ensures forall k :: 0 <= k < |seen| && k != p ==> seen[k] != seen[p]
  {
    forall k | 0 <= k < |seen| && k != p
      ensures seen[k] != seen[p]
    {
      if k < p { assert FirstPos(news, seen[k]) < FirstPos(news, seen[p]); }
      else { assert FirstPos(news, seen[p]) < FirstPos(news, seen[k]); }
    }
  }

  /** An appended name that occurs once in the tail is found at its place in the tail. */
  lemma AppendedNameAt(ts: seq<Task>, mid: seq<Task>, seen: seq<string>, p: nat)
    requires p < |seen| && |mid| == |ts| + |seen|
    requires forall k :: 0 <= k < |ts| ==> mid[k].name == ts[k].name
    requires forall k :: 0 <= k < |seen| ==> mid[|ts| + k].name == seen[k]
    requires Unnamed(ts, seen[p]) && forall k :: 0 <= k < |seen| && k != p ==> seen[k] != seen[p]
    ensures IndexOfName(mid, seen[p]) == Some(|ts| + p)
  {
    forall j | 0 <= j < |ts| + p
      ensures mid[j].name != seen[p]
    {
      if j >= |ts| { assert mid[j].name == seen[j - |ts|]; }
    }
    IndexOfNameIs(mid, seen[p], |ts| + p);
  }

  /**
   * A parsed task whose name was already appended, at position `p` of the
   * tail that starts at `base`, updates that appended task.
   */
  lemma TailUpdatedByNewName(init: seq<Task>, news: seq<Task>, mid: seq<Task>, base: nat, seen: seq<string>, p: nat, n: Task)
    requires news != [] && init == news[..|news| - 1] && n == news[|news| - 1]
    requires |mid| == base + |seen| && p < |seen| && seen[p] == n.name
    requires IndexOfName(mid, n.name) == Some(base + p)
    requires forall k :: 0 <= k < |seen| ==> mid[base + k].name == seen[k] && AppendedFor(init, seen[k]) == Some(mid[base + k])
    requires forall k :: 0 <= k < |seen| && k != p ==> seen[k] != seen[p]
    ensures var r := Upsert(mid, n);
      && |r| == base + |seen|
      && forall k :: 0 <= k < |seen| ==> r[base + k].name == seen[k] && AppendedFor(news, seen[k]) == Some(r[base + k])
  {
    var m := base + p;
    var updated := mid[m].(elapsed := n.elapsed, isCompleted := n.isCompleted);
    var r := Upsert(mid, n);
    assert r == mid[m := updated];
    assert AppendedFor(news, n.name) == Some(updated) by {
      NamesOfSnoc(news, n.name);
      var i := IndexOfName(init, n.name).value;
      assert news[i] == init[i];
    }
    forall k | 0 <= k < |seen|
      ensures r[base + k].name == seen[k] && AppendedFor(news, seen[k]) == Some(r[base + k])
    {
      if k != p {
        NamesOfSnoc(news, seen[k]);
        assert r[base + k] == mid[base + k];
      }
    }
  }

  /** A parsed task with a name neither listed nor appended is appended as it is. */
  lemma TailExtendedByNewName(ts: seq<Task>, init: seq<Task>, news: seq<Task>, mid: seq<Task>, seen: seq<string>, n: Task)
    requires news != [] && init == news[..|news| - 1] && n == news[|news| - 1]
    requires |mid| == |ts| + |seen| && forall k :: 0 <= k < |ts| ==> mid[k].name == ts[k].name
    requires forall k :: 0 <= k < |seen| ==> mid[|ts| + k].name == seen[k] && AppendedFor(init, seen[k]) == Some(mid[|ts| + k])
    requires forall i :: 0 <= i < |init| && Unnamed(ts, init[i].name) ==> init[i].name in seen
    requires Unnamed(ts, n.name) && n.name !in seen
    ensures var r := Upsert(mid, n);
      && |r| == |ts| + |seen| + 1
      && forall k :: 0 <= k < |seen| + 1 ==>
           r[|ts| + k].name == (seen + [n.name])[k] && AppendedFor(news, (seen + [n.name])[k]) == Some(r[|ts| + k])
  {
    forall j | 0 <= j < |mid|
      ensures mid[j].name != n.name
    {
      if j >= |ts| { assert mid[j].name == seen[j - |ts|]; }
    }
    IndexOfNameAbsent(mid, n.name);
    var r := Upsert(mid, n);
    assert r == mid + [n];
    NamesOfSnoc(news, n.name);
    assert news[|news| - 1] == n;
    forall k | 0 <= k < |seen|
      ensures AppendedFor(news, seen[k]) == Some(r[|ts| + k])
    {
      NamesOfSnoc(news, seen[k]);
    }
  }

  /**
   * What `updateOrAddTasks` appends: one task for every parsed name the list
   * did not have, and nothing else, in the order the names first occur among
   * the parsed tasks (so no name is appended twice). Each appended task is the
   * first parsed task of its name, carrying the values of the last one.
   */
  lemma UpsertAllAppends(ts: seq<Task>, news: seq<Task>)
    ensures var r, names := UpsertAll(ts, news), NewNames(ts, news);
      && |r| == |ts| + |names|
      && (forall k :: |ts| <= k < |r| ==> AppendedFor(news, names[k - |ts|]) == Some(r[k]))
      && (forall k :: 0 <= k < |names| ==> Unnamed(ts, names[k]) && IndexOfName(news, names[k]).Some?)
      && (forall i :: 0 <= i < |news| && Unnamed(ts, news[i].name) ==> news[i].name in names)
      && (forall j, k :: 0 <= j < k < |names| ==> FirstPos(news, names[j]) < FirstPos(news, names[k]))
  {
    UpsertAllTail(ts, news);
    NewNamesSpec(ts, news);
    var r, names := UpsertAll(ts, news), NewNames(ts, news);
    forall k | |ts| <= k < |r|
      ensures AppendedFor(news, names[k - |ts|]) == Some(r[k])
    {
      assert r[|ts| + (k - |ts|)] == r[k];
    }
  }

  /** The ids a list of tasks carries. */
  function IdsOf(ts: seq<Task>): set<nat> {
    set i | 0 <= i < |ts| :: ts[i].id
  }

  lemma IdsOfPrefix(ts: seq<Task>)
    requires ts != []
    ensures IdsOf(ts) == IdsOf(ts[..|ts| - 1]) + {ts[|ts| - 1].id}
  {
    var init := ts[..|ts| - 1];
    forall x | x in IdsOf(ts)
      ensures x in IdsOf(init) + {ts[|ts| - 1].id}
    {
      var i :| 0 <= i < |ts| && ts[i].id == x;
      if i < |init| { assert init[i] == ts[i]; }
    }
    forall x | x in IdsOf(init)
      ensures x in IdsOf(ts)
    {
      var i :| 0 <= i < |init| && init[i].id == x;
      assert ts[i] == init[i];
    }
  }
}
