/**
 * The clock side of TaskStore: which task is running and since when, what
 * `pauseCurrentActiveTask` banks, and `totalElapsed`. Time is whole seconds
 * read from an injected clock `now`.
 */
module Timing {
  import opened Wrappers
  import opened TaskModel
  import opened TaskList

  /** The fields the clock touches: the list, the running task's id and its start time. */
  datatype Timing = Timing(tasks: seq<Task>, activeID: Option<nat>, startTime: Option<int>)

  /** The clock reads no earlier than the running task's start. */
  predicate StartedBy(s: Timing, now: int) {
    s.startTime.Some? ==> s.startTime.value <= now
  }

  /**
   * `pauseCurrentActiveTask()`: when a task is running, is still listed and
   * has a start time, the seconds since the start are added to the first
   * task with its id and nothing runs any more; otherwise nothing changes.
   */
  function Pause(s: Timing, now: int): (r: Timing)
    requires StartedBy(s, now)
    ensures |r.tasks| == |s.tasks| && StartedBy(r, now)
    ensures r == s || (r.activeID.None? && r.startTime.None?)
    ensures forall i :: 0 <= i < |s.tasks| ==>
      && r.tasks[i].id == s.tasks[i].id && r.tasks[i].name == s.tasks[i].name
      && r.tasks[i].isCompleted == s.tasks[i].isCompleted && r.tasks[i].elapsed >= s.tasks[i].elapsed
  {
    if s.activeID.None? then s
    else match IndexOfId(s.tasks, s.activeID.value)
      case None => s
      case Some(k) =>
        if s.startTime.None? then s
        else
          var t := s.tasks[k];
          Timing(s.tasks[k := t.(elapsed := t.elapsed + (now - s.startTime.value))], None, None)
  }

  /** The shown time of one task in a timing state. */
  function Shown(s: Timing, i: nat, now: int): nat
    requires i < |s.tasks| && StartedBy(s, now)
  {
    CurrentElapsed(s.tasks[i], s.activeID, s.startTime, now)
  }

  /** How many tasks carry the id. */
  function CountId(ts: seq<Task>, id: nat): nat {
    if ts == [] then 0
    else CountId(ts[..|ts| - 1], id) + (if ts[|ts| - 1].id == id then 1 else 0)
  }

  /**
   * Pausing does not change any task's shown time when the running id is
   * carried by at most one task: the running seconds move into the stored
   * elapsed time. A pause that acts leaves nothing running.
   */
  lemma PauseKeepsShownTimes(s: Timing, now: int)
    requires StartedBy(s, now)
    requires s.activeID.Some? ==> CountId(s.tasks, s.activeID.value) <= 1
    ensures var p := Pause(s, now);
      && |p.tasks| == |s.tasks| && StartedBy(p, now)
      && (p == s || p.activeID.None?)
      && forall i :: 0 <= i < |s.tasks| ==> Shown(p, i, now) == Shown(s, i, now)
  {
    var p := Pause(s, now);
    if p != s {
      var a := s.activeID.value;
      var k := IndexOfId(s.tasks, a).value;
      forall i | 0 <= i < |s.tasks|
        ensures Shown(p, i, now) == Shown(s, i, now)
      {
        if i != k {
          CountIdAtMostOne(s.tasks, a, k, i);
        }
      }
    }
  }

  /** Two positions carrying an id that only one task carries are the same position. */
  lemma {:induction false} CountIdAtMostOne(ts: seq<Task>, id: nat, i: nat, j: nat)
    requires i < |ts| && j < |ts| && ts[i].id == id && CountId(ts, id) <= 1
    ensures ts[j].id == id ==> i == j
    decreases |ts|
  {
    var n := |ts| - 1;
    if i < n && j < n {
      CountIdAtMostOne(ts[..n], id, i, j);
    } else if ts[j].id == id && i != j {
      var other := if i < n then i else j;
      CountIdPositive(ts[..n], id, other);
    }
  }

  lemma {:induction false} CountIdPositive(ts: seq<Task>, id: nat, i: nat)
    requires i < |ts| && ts[i].id == id
    ensures CountId(ts, id) >= 1
    decreases |ts|
  {
    if i < |ts| - 1 {
      CountIdPositive(ts[..|ts| - 1], id, i);
    }
  }

  /** Pausing twice is pausing once. */
  lemma PauseIdempotent(s: Timing, now: int)
    requires StartedBy(s, now)
    ensures StartedBy(Pause(s, now), now) && Pause(Pause(s, now), now) == Pause(s, now)
  {
  }

  /** `totalElapsed`: the sum of every task's shown time. */
  function TotalElapsed(ts: seq<Task>, activeID: Option<nat>, startTime: Option<int>, now: int): (r: nat)
    requires startTime.Some? ==> startTime.value <= now
    ensures r >= StoredTotal(ts)
    ensures activeID.None? || startTime.None? ==> r == StoredTotal(ts)
  {
    if ts == [] then 0
    else TotalElapsed(ts[..|ts| - 1], activeID, startTime, now) + CurrentElapsed(ts[|ts| - 1], activeID, startTime, now)
  }

  function Total(s: Timing, now: int): nat
    requires StartedBy(s, now)
  {
    TotalElapsed(s.tasks, s.activeID, s.startTime, now)
  }

  /** The stored seconds of the list, running time left out. */
  function StoredTotal(ts: seq<Task>): nat {
    if ts == [] then 0 else StoredTotal(ts[..|ts| - 1]) + ts[|ts| - 1].elapsed
  }

  /**
   * The total is the stored seconds plus the running interval once for every
   * task carrying the running id; with nothing running it is the stored sum.
   */
  lemma {:induction false} TotalElapsedByParts(ts: seq<Task>, activeID: Option<nat>, startTime: Option<int>, now: int)
    requires startTime.Some? ==> startTime.value <= now
    ensures TotalElapsed(ts, activeID, startTime, now)
         == StoredTotal(ts) + (if activeID.Some? && startTime.Some? then CountId(ts, activeID.value) * (now - startTime.value) else 0)
    decreases |ts|
  {
    if ts != [] {
      var init, last := ts[..|ts| - 1], ts[|ts| - 1];
      TotalElapsedByParts(init, activeID, startTime, now);
      assert TotalElapsed(ts, activeID, startTime, now)
          == TotalElapsed(init, activeID, startTime, now) + CurrentElapsed(last, activeID, startTime, now);
      assert StoredTotal(ts) == StoredTotal(init) + last.elapsed;
      if activeID.Some? && startTime.Some? {
        var c, d := CountId(init, activeID.value), now - startTime.value;
        if last.id == activeID.value {
          OneMoreTimes(c, d);
        }
      }
    }
  }

  /** One more running task adds one more running interval. */
  lemma OneMoreTimes(c: int, d: int)
    ensures (c + 1) * d == c * d + d
  {
  }

  /** Lists whose tasks show the same times, position by position, have the same total. */
  lemma {:induction false} TotalOfSameShown(s: Timing, p: Timing, now: int)
    requires StartedBy(s, now) && StartedBy(p, now) && |s.tasks| == |p.tasks|
    requires forall i :: 0 <= i < |s.tasks| ==> Shown(p, i, now) == Shown(s, i, now)
    ensures Total(p, now) == Total(s, now)
    decreases |s.tasks|
  {
    if s.tasks != [] {
      var n := |s.tasks| - 1;
      var s', p' := s.(tasks := s.tasks[..n]), p.(tasks := p.tasks[..n]);
      assert forall i :: 0 <= i < n ==> Shown(s', i, now) == Shown(s, i, now) && Shown(p', i, now) == Shown(p, i, now);
      TotalOfSameShown(s', p', now);
      assert Shown(p, n, now) == Shown(s, n, now);
    }
  }

  /** Pausing keeps the working time when the running id is carried by at most one task. */
  lemma PauseKeepsTotal(s: Timing, now: int)
    requires StartedBy(s, now)
    requires s.activeID.Some? ==> CountId(s.tasks, s.activeID.value) <= 1
    ensures StartedBy(Pause(s, now), now) && Total(Pause(s, now), now) == Total(s, now)
  {
    PauseKeepsShownTimes(s, now);
    TotalOfSameShown(s, Pause(s, now), now);
  }

  /** The total of a concatenation is the sum of the totals. */
  lemma {:induction false} TotalAppend(a: seq<Task>, b: seq<Task>, activeID: Option<nat>, startTime: Option<int>, now: int)
    requires startTime.Some? ==> startTime.value <= now
    ensures TotalElapsed(a + b, activeID, startTime, now)
         == TotalElapsed(a, activeID, startTime, now) + TotalElapsed(b, activeID, startTime, now)
    decreases |b|
  {
    if b == [] {
      assert a + b == a;
    } else {
      TotalAppend(a, b[..|b| - 1], activeID, startTime, now);
      assert (a + b)[..|a + b| - 1] == a + b[..|b| - 1];
    }
  }

  /** The tasks a predicate keeps and the ones its negation keeps add up to the total. */
  lemma {:induction false} TotalOfSplit(ts: seq<Task>, keep: Task -> bool, drop: Task -> bool, activeID: Option<nat>, startTime: Option<int>, now: int)
    requires startTime.Some? ==> startTime.value <= now
    requires forall t :: drop(t) == !keep(t)
    ensures TotalElapsed(Select(ts, keep), activeID, startTime, now) + TotalElapsed(Select(ts, drop), activeID, startTime, now)
         == TotalElapsed(ts, activeID, startTime, now)
    decreases |ts|
  {
    if ts != [] {
      var init, last := ts[..|ts| - 1], ts[|ts| - 1];
      TotalOfSplit(init, keep, drop, activeID, startTime, now);
      TotalAppend(Select(init, keep), [last], activeID, startTime, now);
      TotalAppend(Select(init, drop), [last], activeID, startTime, now);
    }
  }

  /** Moving completed tasks to the end does not change the working time. */
  lemma TotalOfCompletedLast(ts: seq<Task>, activeID: Option<nat>, startTime: Option<int>, now: int)
    requires startTime.Some? ==> startTime.value <= now
    ensures TotalElapsed(CompletedLast(ts), activeID, startTime, now) == TotalElapsed(ts, activeID, startTime, now)
  {
    TotalAppend(Select(ts, IsIncomplete), Select(ts, IsComplete), activeID, startTime, now);
    TotalOfSplit(ts, IsIncomplete, IsComplete, activeID, startTime, now);
  }
}
