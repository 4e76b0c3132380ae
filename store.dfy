/**
 * `TaskStore`: the task list, the running task and the list-wide item
 * symbol, updated in place by the operations the app's commands call.
 * `now` stands for `Date()`, in whole seconds; `nextId` stands for `UUID()`.
 * Undo registration and saving to `UserDefaults` are not part of this model.
 */
module Store {
  import opened Wrappers
  import opened Text
  import opened TaskModel
  import opened LineParser
  import opened SymbolPolicy
  import opened TaskList
  import opened Timing
  import opened Summary

  /** A parsed task line updates the task with this id in `list` at the point it is read. */
  predicate StepMatches(list: seq<Task>, n: Task, id: nat) {
    match IndexOfName(list, n.name)
    case Some(k) => list[k].id == id
    case None => false
  }

  /** Some parsed task, in its turn, updates the task with this id. */
  predicate MatchesId(list: seq<Task>, news: seq<Task>, id: nat) {
    && news != []
    && (MatchesId(list, news[..|news| - 1], id) || StepMatches(UpsertAll(list, news[..|news| - 1]), news[|news| - 1], id))
  }

  lemma IndexOfIdFound(ts: seq<Task>, id: nat, k: nat)
    requires k < |ts| && ts[k].id == id
    ensures IndexOfId(ts, id).Some?
  {
    assert ((t: Task) => t.id == id)(ts[k]);
  }

  /** The tasks parsed from a batch draw the ids `firstId`, `firstId + 1`, ... in turn. */
  lemma ParsedIds(lines: seq<string>, firstId: nat)
    ensures var parsed := ParseLines(lines, firstId);
      forall i :: 0 <= i < |parsed| ==> firstId <= parsed[i].id < firstId + |parsed|
  {
    ParseLinesOfNonBlank(lines, firstId);
  }

  /** Finishing a task keeps the ids below a bound the list respects. */
  lemma FinishedIdsBelow(ts: seq<Task>, id: nat, bound: nat)
    requires forall i :: 0 <= i < |ts| ==> ts[i].id < bound
    ensures var r := Finished(ts, id); forall i :: 0 <= i < |r| ==> r[i].id < bound
  {
    match IndexOfId(ts, id)
    case None =>
    case Some(k) =>
      var r := Finished(ts, id);
      forall i | 0 <= i < |r|
        ensures r[i].id < bound
      {
        if i < k {
          assert r[i] == ts[i];
        } else if i < |ts| - 1 {
          assert r[i] == ts[i + 1];
        }
      }
  }

  /** Merging keeps ids below a bound both lists respect. */
  lemma MergedIdsBelow(existing: seq<Task>, parsed: seq<Task>, bound: nat)
    requires forall i :: 0 <= i < |existing| ==> existing[i].id < bound
    requires forall i :: 0 <= i < |parsed| ==> parsed[i].id < bound
    ensures var r := Merged(existing, parsed); forall i :: 0 <= i < |r| ==> r[i].id < bound
  {
    MergedSpec(existing, parsed);
  }

  /** Updating and appending keeps ids below a bound both lists respect. */
  lemma UpsertAllIdsBelow(list: seq<Task>, news: seq<Task>, bound: nat)
    requires forall i :: 0 <= i < |list| ==> list[i].id < bound
    requires forall i :: 0 <= i < |news| ==> news[i].id < bound
    ensures var r := UpsertAll(list, news); forall i :: 0 <= i < |r| ==> r[i].id < bound
  {
    UpsertAllSpec(list, news);
    var r := UpsertAll(list, news);
    forall i | |list| <= i < |r|
      ensures r[i].id < bound
    {
      var j :| 0 <= j < |news| && news[j].id == r[i].id;
    }
  }

  class TaskStore {
    var tasks: seq<Task>
    var activeTaskID: Option<nat>
    var activeTaskStartTime: Option<int>
    var itemSymbol: string
    var lastPausedTaskID: Option<nat>
    /** Every id below it has been handed out; the next task created draws it. */
    var nextId: nat

    /** What holds whatever the list: start time and running id go together, ids are issued ones. */
    ghost predicate ValidTiming()
      reads this
    {
      && (activeTaskID.Some? <==> activeTaskStartTime.Some?)
      && (activeTaskID.Some? ==> activeTaskID.value < nextId)
      && (lastPausedTaskID.Some? ==> lastPausedTaskID.value < nextId)
      && (itemSymbol == "" || itemSymbol in SupportedSymbols)
    }

    /**
     * The store's invariant: besides the above, completed tasks come last,
     * an empty list has no item symbol and every task's id was issued.
     */
    ghost predicate Valid()
      reads this
    {
      && ValidTiming()
      && (tasks == [] ==> itemSymbol == "")
      && IsCompletedLast(tasks)
      && IdsIssued()
    }

    /** Every listed task carries an id that was handed out. */
    ghost predicate IdsIssued()
      reads this
    {
      forall i :: 0 <= i < |tasks| ==> tasks[i].id < nextId
    }

    function TimingOf(): Timing
      reads this
    {
      Timing(tasks, activeTaskID, activeTaskStartTime)
    }

    predicate ClockAfterStart(now: int)
      reads this
    {
      StartedBy(TimingOf(), now)
    }

    constructor ()
      ensures Valid()
      ensures tasks == [] && activeTaskID.None? && activeTaskStartTime.None? && lastPausedTaskID.None?
      ensures itemSymbol == ""
    {
      tasks := [];
      activeTaskID := None;
      activeTaskStartTime := None;
      itemSymbol := "";
      lastPausedTaskID := None;
      nextId := 0;
    }

    // -------------------------------------------------------------------------
    // Item symbol
    // -------------------------------------------------------------------------

    /**
     * `detectAndSetItemSymbol(from:forceDetection:)`: a replace always takes
     * the symbol of the lines; an add only when the list has none yet.
     */
    method DetectAndSetItemSymbol(lines: seq<string>, forceDetection: bool)
      requires ValidTiming()
      modifies this
      ensures ValidTiming()
      ensures itemSymbol == if forceDetection || old(itemSymbol) == "" then DetectedSymbol(lines) else old(itemSymbol)
      ensures TimingOf() == old(TimingOf()) && lastPausedTaskID == old(lastPausedTaskID) && nextId == old(nextId)
    {
      DetectedSymbolSpec(lines);
      if forceDetection || itemSymbol == "" {
        itemSymbol := DetectedSymbol(lines);
      }
    }

    /** `resetItemSymbolIfNoTasks()` */
    method ResetItemSymbolIfNoTasks()
      modifies this
      ensures itemSymbol == if tasks == [] then "" else old(itemSymbol)
      ensures TimingOf() == old(TimingOf()) && lastPausedTaskID == old(lastPausedTaskID) && nextId == old(nextId)
    {
      if tasks == [] {
        itemSymbol := "";
      }
    }

    /**
     * `mutateTasks(actionName:mutation:)` after its closure has produced
     * `mutated`: completed tasks are moved last and an empty list loses its
     * item symbol.
     */
    method MutateTasks(mutated: seq<Task>)
      requires ValidTiming()
      requires forall i :: 0 <= i < |mutated| ==> mutated[i].id < nextId
      modifies this
      ensures Valid()
      ensures tasks == CompletedLast(mutated)
      ensures itemSymbol == if tasks == [] then "" else old(itemSymbol)
      ensures activeTaskID == old(activeTaskID) && activeTaskStartTime == old(activeTaskStartTime)
      ensures lastPausedTaskID == old(lastPausedTaskID) && nextId == old(nextId)
    {
      tasks := MoveCompletedTasksToEnd(mutated);
      CompletedLastOrdered(mutated);
      CompletedLastPermutation(mutated);
      forall i | 0 <= i < |tasks|
        ensures tasks[i].id < nextId
      {
        assert tasks[i] in multiset(mutated);
      }
      ResetItemSymbolIfNoTasks();
    }

    // -------------------------------------------------------------------------
    // Timing
    // -------------------------------------------------------------------------

    /** `pauseCurrentActiveTask()` */
    method PauseCurrentActiveTask(now: int)
      requires ValidTiming() && IdsIssued() && ClockAfterStart(now)
      modifies this
      ensures ValidTiming() && IdsIssued() && ClockAfterStart(now)
      ensures old(Valid()) ==> Valid()
      ensures TimingOf() == Pause(old(TimingOf()), now)
      ensures itemSymbol == old(itemSymbol) && lastPausedTaskID == old(lastPausedTaskID) && nextId == old(nextId)
    {
      if activeTaskID.Some? {
        var index := IndexOfId(tasks, activeTaskID.value);
        if index.Some? && activeTaskStartTime.Some? {
          var k := index.value;
          tasks := tasks[k := tasks[k].(elapsed := tasks[k].elapsed + (now - activeTaskStartTime.value))];
          activeTaskID := None;
          activeTaskStartTime := None;
        }
      }
    }

    /**
     * `toggle(_:)`: a completed task is left alone; the running task is
     * paused and remembered for a restart; any other task is started, after
     * pausing the one that runs.
     */
    method Toggle(task: Task, now: int)
      requires Valid() && ClockAfterStart(now) && task.id < nextId
      modifies this
      ensures Valid() && ClockAfterStart(now)
      ensures task.isCompleted ==> TimingOf() == old(TimingOf()) && lastPausedTaskID == old(lastPausedTaskID)
      ensures !task.isCompleted && old(activeTaskID) == Some(task.id) ==>
        TimingOf() == Pause(old(TimingOf()), now) && lastPausedTaskID == Some(task.id)
      ensures !task.isCompleted && old(activeTaskID) != Some(task.id) ==>
        && tasks == Pause(old(TimingOf()), now).tasks
        && activeTaskID == Some(task.id) && activeTaskStartTime == Some(now)
        && lastPausedTaskID == old(lastPausedTaskID)
      ensures itemSymbol == old(itemSymbol) && nextId == old(nextId)
    {
      if task.isCompleted {
        return;
      }
      if activeTaskID == Some(task.id) {
        lastPausedTaskID := Some(task.id);
        PauseCurrentActiveTask(now);
      } else {
        PauseCurrentActiveTask(now);
        activeTaskID := Some(task.id);
        activeTaskStartTime := Some(now);
      }
    }

    /** `pauseActiveTask()`: pause the running task and remember it for a restart. */
    method PauseActiveTask(now: int)
      requires Valid() && ClockAfterStart(now)
      modifies this
      ensures Valid() && ClockAfterStart(now)
      ensures old(activeTaskID).None? ==> TimingOf() == old(TimingOf()) && lastPausedTaskID == old(lastPausedTaskID)
      ensures old(activeTaskID).Some? ==>
        TimingOf() == Pause(old(TimingOf()), now) && lastPausedTaskID == old(activeTaskID)
      ensures itemSymbol == old(itemSymbol) && nextId == old(nextId)
    {
      if activeTaskID.None? {
        return;
      }
      lastPausedTaskID := activeTaskID;
      PauseCurrentActiveTask(now);
    }

    /**
     * `restartLastPausedTask()`: nothing happens unless the remembered task
     * is still listed; then whatever runs is paused, the remembered task
     * starts now and is forgotten.
     */
    method RestartLastPausedTask(now: int)
      requires Valid() && ClockAfterStart(now)
      modifies this
      ensures Valid() && ClockAfterStart(now)
      ensures old(lastPausedTaskID).None? || IndexOfId(old(tasks), old(lastPausedTaskID).value).None? ==>
        TimingOf() == old(TimingOf()) && lastPausedTaskID == old(lastPausedTaskID)
      ensures old(lastPausedTaskID).Some? && IndexOfId(old(tasks), old(lastPausedTaskID).value).Some? ==>
        && tasks == Pause(old(TimingOf()), now).tasks
        && activeTaskID == old(lastPausedTaskID) && activeTaskStartTime == Some(now)
        && lastPausedTaskID.None?
      ensures itemSymbol == old(itemSymbol) && nextId == old(nextId)
    {
      if lastPausedTaskID.None? || IndexOfId(tasks, lastPausedTaskID.value).None? {
        return;
      }
      var pausedID := lastPausedTaskID.value;
      PauseCurrentActiveTask(now);
      activeTaskID := Some(pausedID);
      activeTaskStartTime := Some(now);
      lastPausedTaskID := None;
    }

    // -------------------------------------------------------------------------
    // List commands
    // -------------------------------------------------------------------------

    /** `delete(_:)`: every task with the id goes; the rest keep their order. */
    method Delete(task: Task)
      requires Valid()
      modifies this
      ensures Valid()
      ensures tasks == WithoutId(old(tasks), task.id)
      ensures itemSymbol == if tasks == [] then "" else old(itemSymbol)
      ensures activeTaskID == old(activeTaskID) && activeTaskStartTime == old(activeTaskStartTime)
      ensures lastPausedTaskID == old(lastPausedTaskID) && nextId == old(nextId)
    {
      DeleteSpec(tasks, task.id);
      var remaining := WithoutId(tasks, task.id);
      forall i | 0 <= i < |remaining|
        ensures remaining[i].id < nextId
      {
        assert remaining[i] in tasks;
      }
      MutateTasks(remaining);
    }

    /**
     * `finish(_:)`: pause the task if it runs, then take it out, mark it
     * completed and append it; it ends up last and the other tasks keep
     * their order.
     */
    method Finish(task: Task, now: int)
      requires Valid() && ClockAfterStart(now)
      modifies this
      ensures Valid() && ClockAfterStart(now)
      ensures var before := if old(activeTaskID) == Some(task.id) then Pause(old(TimingOf()), now) else old(TimingOf());
        && activeTaskID == before.activeID && activeTaskStartTime == before.startTime
        && match IndexOfId(before.tasks, task.id)
           case None => tasks == before.tasks
           case Some(k) => tasks == before.tasks[..k] + before.tasks[k + 1..] + [before.tasks[k].(isCompleted := true)]
      ensures itemSymbol == old(itemSymbol) && lastPausedTaskID == old(lastPausedTaskID) && nextId == old(nextId)
    {
      if activeTaskID == Some(task.id) {
        PauseCurrentActiveTask(now);
      }
      var before := tasks;
      FinishSpec(before, task.id);
      var finished := Finished(before, task.id);
      FinishedIdsBelow(before, task.id, nextId);
      MutateTasks(finished);
    }

    /**
     * `cutAllTasks()`: with tasks listed, the pasteboard receives their
     * summary and the list empties; with none, nothing happens. The running
     * task's id is left as it was.
     */
    method CutAllTasks(now: int) returns (pasted: Option<string>)
      requires Valid() && ClockAfterStart(now)
      modifies this
      ensures Valid()
      ensures old(tasks) == [] ==> pasted.None? && tasks == [] && itemSymbol == old(itemSymbol)
      ensures old(tasks) != [] ==>
        pasted == Some(ClipboardSummary(old(itemSymbol), old(TimingOf()), now)) && tasks == [] && itemSymbol == ""
      ensures activeTaskID == old(activeTaskID) && activeTaskStartTime == old(activeTaskStartTime)
      ensures lastPausedTaskID == old(lastPausedTaskID) && nextId == old(nextId)
    {
      if tasks == [] {
        return None;
      }
      pasted := Some(ClipboardSummary(itemSymbol, TimingOf(), now));
      MutateTasks([]);
    }

    /**
     * `replaceTasks(from:)`: the list becomes the parsed lines, with the ids
     * of listed tasks of the same name kept; the item symbol is always taken
     * from the lines. The running task is not touched.
     */
    method ReplaceTasks(rawString: string)
      requires Valid()
      modifies this
      ensures Valid()
      ensures var lines := SplitLines(rawString); var parsed := ParseLines(lines, old(nextId));
        && nextId == old(nextId) + |parsed|
        && tasks == CompletedLast(Merged(old(tasks), parsed))
        && itemSymbol == (if tasks == [] then "" else DetectedSymbol(lines))
      ensures activeTaskID == old(activeTaskID) && activeTaskStartTime == old(activeTaskStartTime)
      ensures lastPausedTaskID == old(lastPausedTaskID)
    {
      var lines := SplitLines(rawString);
      DetectAndSetItemSymbol(lines, true);
      var newTasks := ParseLines(lines, nextId);
      ParsedIds(lines, nextId);
      var existing := tasks;
      var updated := ReuseIds(existing, newTasks);
      nextId := nextId + |newTasks|;
      MergedIdsBelow(existing, newTasks, nextId);
      MutateTasks(updated);
    }

    /**
     * `updateOrAddTasks(_:to:)` on the closure's copy `list` of the tasks:
     * each parsed task overwrites the elapsed time and completion flag of the
     * first task of its name, or is appended. When it overwrites the running
     * task and no task is remembered as paused, the running task is paused
     * first.
     */
    method UpdateOrAddTasks(newTasks: seq<Task>, list: seq<Task>, now: int) returns (r: seq<Task>)
      requires ValidTiming() && IdsIssued() && ClockAfterStart(now) && list == tasks
      requires forall i :: 0 <= i < |newTasks| ==> newTasks[i].id >= nextId
      modifies this
      ensures ValidTiming() && IdsIssued() && ClockAfterStart(now)
      ensures r == UpsertAll(list, newTasks)
      ensures var pauses := old(lastPausedTaskID).None? && old(activeTaskID).Some?
                            && MatchesId(list, newTasks, old(activeTaskID).value);
        && TimingOf() == (if pauses then Pause(old(TimingOf()), now) else old(TimingOf()))
        && (pauses ==> activeTaskID.None?)
      ensures itemSymbol == old(itemSymbol) && lastPausedTaskID == old(lastPausedTaskID) && nextId == old(nextId)
    {
      var s0 := TimingOf();
      r := list;
      for i := 0 to |newTasks|
        invariant ValidTiming() && IdsIssued() && ClockAfterStart(now)
        invariant itemSymbol == old(itemSymbol) && lastPausedTaskID == old(lastPausedTaskID) && nextId == old(nextId)
        invariant r == UpsertAll(list, newTasks[..i])
        invariant var pauses := lastPausedTaskID.None? && s0.activeID.Some? && MatchesId(list, newTasks[..i], s0.activeID.value);
          && TimingOf() == (if pauses then Pause(s0, now) else s0)
          && (pauses ==> activeTaskID.None?)
      {
        assert newTasks[..i + 1][..i] == newTasks[..i];
        var newTask := newTasks[i];
        match IndexOfName(r, newTask.name)
        case Some(k) =>
          if activeTaskID == Some(r[k].id) && lastPausedTaskID.None? {
            RunningTaskIsListed(list, newTasks, i, k);
            PauseCurrentActiveTask(now);
          }
          r := r[k := r[k].(elapsed := newTask.elapsed, isCompleted := newTask.isCompleted)];
        case None =>
          r := r + [newTask];
      }
      assert newTasks[..|newTasks|] == newTasks;
    }

    /** A task the batch updates and that carries an issued id is one of the listed tasks. */
    lemma RunningTaskIsListed(list: seq<Task>, newTasks: seq<Task>, i: nat, k: nat)
      requires i < |newTasks| && list == tasks
      requires forall j :: 0 <= j < |newTasks| ==> newTasks[j].id >= nextId
      requires k < |UpsertAll(list, newTasks[..i])|
      requires UpsertAll(list, newTasks[..i])[k].id < nextId
      ensures k < |list| && IndexOfId(tasks, UpsertAll(list, newTasks[..i])[k].id).Some?
    {
      var prefix := newTasks[..i];
      UpsertAllSpec(list, prefix);
      var r := UpsertAll(list, prefix);
      assert forall x :: x in IdsOf(prefix) ==> x >= nextId by {
        forall x | x in IdsOf(prefix)
          ensures x >= nextId
        {
          var j :| 0 <= j < |prefix| && prefix[j].id == x;
          assert newTasks[j] == prefix[j];
        }
      }
      IndexOfIdFound(tasks, r[k].id, k);
    }

    /**
     * `addTasks(from:)`: the item symbol is taken from the lines only when
     * the list has none; the parsed tasks update or extend the list; the
     * running task is paused when the batch overwrites it and no task is
     * remembered as paused.
     */
    method AddTasks(rawString: string, now: int)
      requires Valid() && ClockAfterStart(now)
      modifies this
      ensures Valid() && ClockAfterStart(now)
      ensures var lines := SplitLines(rawString); var parsed := ParseLines(lines, old(nextId));
        && nextId == old(nextId) + |parsed|
        && tasks == CompletedLast(UpsertAll(old(tasks), parsed))
        && itemSymbol == (if tasks == [] then "" else if old(itemSymbol) == "" then DetectedSymbol(lines) else old(itemSymbol))
      ensures var parsed := ParseLines(SplitLines(rawString), old(nextId));
        var pauses := old(lastPausedTaskID).None? && old(activeTaskID).Some? && MatchesId(old(tasks), parsed, old(activeTaskID).value);
        && (pauses ==> activeTaskID.None? && activeTaskStartTime.None?)
        && (!pauses ==> activeTaskID == old(activeTaskID) && activeTaskStartTime == old(activeTaskStartTime))
      ensures lastPausedTaskID == old(lastPausedTaskID)
    {
      var lines := SplitLines(rawString);
      DetectAndSetItemSymbol(lines, false);
      var newTasks := ParseLines(lines, nextId);
      ParsedIds(lines, nextId);
      var existing := tasks;
      var updated := UpdateOrAddTasks(newTasks, existing, now);
      nextId := nextId + |newTasks|;
      UpsertAllIdsBelow(existing, newTasks, nextId);
      MutateTasks(updated);
    }
  }
}
