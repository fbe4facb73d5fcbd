/**
 What pausing, cancelling and resuming a rewrite task does, whatever its workers and the scheduler do
 afterwards.
 */
module RewriteControl {
  import opened Checkpoints
  import opened Options
  import opened RewriteRuns
  import opened RewriteTask

  /** The user neither resumes nor cancels the task. */
  predicate IsLeftAlone(actions: seq<Action>) {
    Schedule(Resume) !in actions && Schedule(Cancel) !in actions
  }

  /** The status holds all the time. */
  ghost predicate Holds(span: Span, sys: System, actions: seq<Action>, status: Status) {
    forall k :: 0 <= k <= |actions| ==> RunFrom(span, sys, actions[..k]).store.status == status
  }

  /** The commit that a worker past its look at the status still makes. */
  function InWriting(sys: System, pid: int): nat {
    if pid in sys.workers && sys.workers[pid].pc.Writing? then 1 else 0
  }

  // ---------- pause ----------

  lemma PausedStep(span: Span, sys: System, a: Action, pid: int)
    requires sys.store.status == Paused && sys.store.owner == None && IsLeftAlone([a])
    ensures var next := Next(span, sys, a);
      && next.store.status == Paused && next.store.owner == None
      && InWriting(next, pid) + (if IsCommit(sys, a, pid) then 1 else 0) <= InWriting(sys, pid)
  {
    assert a in [a];
  }

  lemma {:induction false} StaysPaused(span: Span, sys: System, actions: seq<Action>, pid: int)
    requires sys.store.status == Paused && sys.store.owner == None && IsLeftAlone(actions)
    ensures var end := RunFrom(span, sys, actions);
      && end.store.status == Paused && end.store.owner == None
      && InWriting(end, pid) + Commits(span, sys, actions, pid) <= InWriting(sys, pid)
  {
    if actions != [] {
      var init, a := actions[..|actions| - 1], actions[|actions| - 1];
      assert a in actions && forall x :: x in init ==> x in actions;
      StaysPaused(span, sys, init, pid);
      PausedStep(span, RunFrom(span, sys, init), a, pid);
    }
  }

  /** A task that is queued, dispatching or running when it is paused is paused and has no owner from then
      on, until the user resumes or cancels it: no dispatch, repair, reclaim, abandon or late finalisation
      ends the pause. A worker commits a chapter in it only if it was past its look at the status, and then
      only that one. */
  lemma PauseHolds(span: Span, sys: System, actions: seq<Action>, pid: int)
    requires sys.store.status in {Queued, Dispatching, Running} && IsLeftAlone(actions)
    ensures var paused := Next(span, sys, Schedule(Pause));
      && paused == sys.(store := sys.store.(status := Paused, owner := None))
      && Holds(span, paused, actions, Paused)
      && RunFrom(span, paused, actions).store.owner == None
      && Commits(span, paused, actions, pid) <= InWriting(sys, pid) <= 1
  {
    var paused := Next(span, sys, Schedule(Pause));
    StaysPaused(span, paused, actions, pid);
    forall k | 0 <= k <= |actions| ensures RunFrom(span, paused, actions[..k]).store.status == Paused
    {
      assert forall x :: x in actions[..k] ==> x in actions;
      StaysPaused(span, paused, actions[..k], pid);
    }
  }

  /** In any other status a pause does nothing. */
  lemma PauseIgnored(span: Span, sys: System)
    requires sys.store.status in {Paused, Completed, Failed, Cancelled}
    ensures Next(span, sys, Schedule(Pause)) == sys
  {
  }

  // ---------- cancel ----------

  lemma CancelledStep(span: Span, sys: System, a: Action, pid: int)
    requires sys.store.status == Cancelled && sys.store.owner == None
    ensures var next := Next(span, sys, a);
      && next.store.status == Cancelled && next.store.owner == None
      && InWriting(next, pid) + (if IsCommit(sys, a, pid) then 1 else 0) <= InWriting(sys, pid)
  {
  }

  lemma {:induction false} StaysCancelled(span: Span, sys: System, actions: seq<Action>, pid: int)
    requires sys.store.status == Cancelled && sys.store.owner == None
    ensures var end := RunFrom(span, sys, actions);
      && end.store.status == Cancelled && end.store.owner == None
      && InWriting(end, pid) + Commits(span, sys, actions, pid) <= InWriting(sys, pid)
  {
    if actions != [] {
      StaysCancelled(span, sys, actions[..|actions| - 1], pid);
      CancelledStep(span, RunFrom(span, sys, actions[..|actions| - 1]), actions[|actions| - 1], pid);
    }
  }

  /** A task that is cancelled before it has ended is cancelled and has no owner for good, whatever anybody
      does, and each worker commits at most the chapter it is writing. */
  lemma CancelHolds(span: Span, sys: System, actions: seq<Action>, pid: int)
    requires sys.store.status in {Queued, Dispatching, Running, Paused}
    ensures var cancelled := Next(span, sys, Schedule(Cancel));
      && cancelled == sys.(store := sys.store.(status := Cancelled, owner := None))
      && Holds(span, cancelled, actions, Cancelled)
      && RunFrom(span, cancelled, actions).store.owner == None
      && Commits(span, cancelled, actions, pid) <= InWriting(sys, pid) <= 1
  {
    var cancelled := Next(span, sys, Schedule(Cancel));
    StaysCancelled(span, cancelled, actions, pid);
    forall k | 0 <= k <= |actions| ensures RunFrom(span, cancelled, actions[..k]).store.status == Cancelled
    {
      StaysCancelled(span, cancelled, actions[..k], pid);
    }
  }

  lemma CancelIgnored(span: Span, sys: System)
    requires sys.store.status in {Completed, Failed, Cancelled}
    ensures Next(span, sys, Schedule(Cancel)) == sys
  {
  }

  // ---------- resume ----------

  /** What ends the pause or the failure of a task. */
  predicate Ends(status: Status, a: Action) {
    a == Schedule(Resume) || (status == Paused && a == Schedule(Cancel))
  }

  lemma StoppedStep(span: Span, sys: System, a: Action)
    requires sys.store.status in {Paused, Failed} && sys.store.owner == None
    ensures var next := Next(span, sys, a).store;
      && next.owner == None
      && (Ends(sys.store.status, a) <==> next.status != sys.store.status)
      && (a == Schedule(Resume) ==> next == sys.store.(status := Queued))
  {
  }

  /** A paused task stays paused exactly until the user resumes or cancels it, and a failed one exactly
      until the user resumes it. */
  lemma {:induction false} StoppedUntil(span: Span, sys: System, actions: seq<Action>)
    requires sys.store.status in {Paused, Failed} && sys.store.owner == None
    ensures Holds(span, sys, actions, sys.store.status) <==> forall a :: a in actions ==> !Ends(sys.store.status, a)
    ensures Holds(span, sys, actions, sys.store.status) ==> RunFrom(span, sys, actions).store.owner == None
  {
    if actions == [] {
      assert actions[..0] == [];
    } else {
      var init, a := actions[..|actions| - 1], actions[|actions| - 1];
      StoppedUntil(span, sys, init);
      assert forall k :: 0 <= k <= |init| ==> actions[..k] == init[..k];
      assert actions[..|actions|] == actions && init[..|init|] == init;
      assert actions == init + [a];
      assert Holds(span, sys, actions, sys.store.status) <==>
             Holds(span, sys, init, sys.store.status)
             && RunFrom(span, sys, actions).store.status == sys.store.status by {
        forall k | 0 <= k <= |actions|
          ensures actions[..k] == if k <= |init| then init[..k] else actions
        {
        }
      }
      if Holds(span, sys, init, sys.store.status) {
        assert RunFrom(span, sys, init[..|init|]).store.status == sys.store.status;
        StoppedStep(span, RunFrom(span, sys, init), a);
      }
    }
  }

  /** Resuming queues the task, with nothing else changed, and the next dispatch gives it to a worker. */
  lemma ResumeLeadsBack(span: Span, sys: System, id: int)
    requires sys.store.status in {Paused, Failed}
    ensures var resumed := Next(span, sys, Schedule(Resume));
      && resumed == sys.(store := sys.store.(status := Queued, owner := None))
      && Next(span, resumed, Schedule(Dispatch(id))) ==
         sys.(store := sys.store.(status := Dispatching, owner := Some(id)))
  {
  }

  lemma ResumeIgnored(span: Span, sys: System)
    requires sys.store.status in {Queued, Dispatching, Running, Completed, Cancelled}
    ensures Next(span, sys, Schedule(Resume)) == sys
  {
  }

  // ---------- all transitions ----------

  /** Who may lead a task from one status to another. */
  predicate IsAllowed(from: Status, to: Status, a: Action) {
    match from
    case Queued =>
      (to == Dispatching && a.Schedule? && a.op.Dispatch?) || (to == Paused && a == Schedule(Pause))
      || (to == Cancelled && a == Schedule(Cancel))
    case Dispatching =>
      (to == Running && (a.Step? || a == Schedule(Repair))) || (to == Queued && a == Schedule(Reclaim))
      || (to == Failed && (a.Step? || a == Schedule(Abandon))) || (to == Paused && (a.Step? || a == Schedule(Pause)))
      || (to == Cancelled && (a.Step? || a == Schedule(Cancel))) || (to == Completed && a.Step?)
    case Running =>
      (to == Queued && a == Schedule(Reclaim)) || (to == Failed && (a.Step? || a == Schedule(Abandon)))
      || (to == Paused && (a.Step? || a == Schedule(Pause))) || (to == Cancelled && (a.Step? || a == Schedule(Cancel)))
      || (to == Completed && a.Step?)
    case Paused => (to == Queued && a == Schedule(Resume)) || (to == Cancelled && a == Schedule(Cancel))
    case Failed => to == Queued && a == Schedule(Resume)
    case Completed => false
    case Cancelled => false
  }

  predicate IsOwnedWhileActive(st: Store) {
    st.owner.Some? <==> st.status in {Dispatching, Running}
  }

  lemma TransitionIsAllowed(span: Span, sys: System, a: Action)
    requires Invariant(span, sys) && IsOwnedWhileActive(sys.store)
    ensures var before, after := sys.store, Next(span, sys, a).store;
      && IsOwnedWhileActive(after)
      && (before.status != after.status ==> IsAllowed(before.status, after.status, a))
      && (after.owner.Some? && after.owner != before.owner ==> a == Schedule(Dispatch(after.owner.value)))
  {
    if a.Step? && a.pid in sys.workers {
      assert PcFits(span, sys.workers[a.pid].pc, Frontier(span, sys.store), sys.store.chapters);
    }
  }

  lemma {:induction false} OwnedWhileActive(span: Span, actions: seq<Action>)
    ensures IsOwnedWhileActive(RunFrom(span, INITIAL, actions).store)
  {
    if actions != [] {
      OwnedWhileActive(span, actions[..|actions| - 1]);
      ReachableInvariant(span, actions[..|actions| - 1]);
      TransitionIsAllowed(span, RunFrom(span, INITIAL, actions[..|actions| - 1]), actions[|actions| - 1]);
    }
  }

  /** Every change of the status, in every run, is one of these; a task has an owner exactly while it is
      dispatching or running, and only a dispatch gives it one. */
  lemma TransitionsAreAllowed(span: Span, actions: seq<Action>, a: Action)
    ensures var sys := RunFrom(span, INITIAL, actions);
      var before, after := sys.store, Next(span, sys, a).store;
      && (before.status != after.status ==> IsAllowed(before.status, after.status, a))
      && (before.owner.Some? <==> before.status in {Dispatching, Running})
      && (after.owner.Some? && after.owner != before.owner ==> a == Schedule(Dispatch(after.owner.value)))
  {
    OwnedWhileActive(span, actions);
    ReachableInvariant(span, actions);
    TransitionIsAllowed(span, RunFrom(span, INITIAL, actions), a);
  }

  // ---------- one worker ----------

  /** What a worker's first step does: a row that names another worker makes it leave, a cancelled or paused task
      stops it, one that is not dispatched to it fails it, and otherwise the task runs. */
  lemma StartDecidedBy(span: Span, sys: System, pid: int)
    requires pid in sys.workers && sys.workers[pid].pc == Spawned
    ensures var st, id, next := sys.store, sys.workers[pid].id, Next(span, sys, Step(pid));
      var pc, others := next.workers[pid].pc, st.owner.Some? && st.owner != Some(id);
      var mine := st.owner == Some(id) && (st.status == Dispatching || st.status == Running);
      && (pc == Gone <==> others)
      && (pc == Stopping(Cancelled) <==> !others && st.status == Cancelled)
      && (pc == Stopping(Paused) <==> !others && st.status == Paused)
      && (pc == Resolving <==> mine)
      && (pc == Stopping(Failed) <==> !others && !mine && st.status != Cancelled && st.status != Paused)
      && next.store == if mine then st.(status := Running) else st
  {
  }

  /** A worker that finds another one on the row leaves, without a write, and does nothing ever after. */
  lemma SupersededLeaves(span: Span, sys: System, pid: int, c: int, actions: seq<Action>)
    requires pid in sys.workers && sys.workers[pid].pc == AtCheck(c)
    requires sys.store.owner.Some? && sys.store.owner != Some(sys.workers[pid].id)
    ensures var next := Next(span, sys, Step(pid));
      && next.store == sys.store && next.workers == sys.workers[pid := Worker(sys.workers[pid].id, Gone)]
      && pid in RunFrom(span, next, actions).workers && RunFrom(span, next, actions).workers[pid].pc == Gone
      && Commits(span, next, actions, pid) == 0
  {
    GoneForGood(span, Next(span, sys, Step(pid)), pid, actions);
  }

  lemma {:induction false} GoneForGood(span: Span, sys: System, pid: int, actions: seq<Action>)
    requires pid in sys.workers && sys.workers[pid].pc == Gone
    ensures var end := RunFrom(span, sys, actions);
      pid in end.workers && end.workers[pid].pc == Gone && Commits(span, sys, actions, pid) == 0
  {
    if actions != [] {
      GoneForGood(span, sys, pid, actions[..|actions| - 1]);
    }
  }

  /** There is a last unit exactly if the frontier has moved into the span. */
  lemma PrefixHasAnEnd(span: Span, st: Store)
    requires st.checkpoints == Interval(span.from, Frontier(span, st))
    ensures LastUnit(st.checkpoints).Some? <==> Frontier(span, st) >= span.from
    ensures Frontier(span, st) >= span.from - 1
  {
    var last := LastUnit(st.checkpoints);
    if last.Some? {
      assert last.value in st.checkpoints;
    }
  }

  /** The cursor after chapter `f`, or before the first one of the span. */
  function CursorAfter(span: Span, f: int): Cursor {
    Cursor(if f >= span.from then Some(f) else None, Some(f + 1))
  }

  /** Planning leaves the cursor at the end of the prefix. */
  lemma PlanningSetsTheCursor(span: Span, actions: seq<Action>, pid: int)
    requires var sys := RunFrom(span, INITIAL, actions); pid in sys.workers && sys.workers[pid].pc == Resolving
    ensures var sys := RunFrom(span, INITIAL, actions);
      Next(span, sys, Step(pid)).store == sys.store.(cursor := CursorAfter(span, Frontier(span, sys.store)))
  {
    ReachableInvariant(span, actions);
    var sys := RunFrom(span, INITIAL, actions);
    ResolveFindsFrontier(span, sys.store);
    assert InSpan(sys.store.checkpoints, span) == sys.store.checkpoints;
    PrefixHasAnEnd(span, sys.store);
  }

  /** So does the repair after an exception, if there is a prefix. */
  lemma RepairSetsTheCursor(span: Span, actions: seq<Action>, pid: int)
    requires var sys := RunFrom(span, INITIAL, actions); pid in sys.workers && sys.workers[pid].pc.Repairing?
    ensures var sys := RunFrom(span, INITIAL, actions);
      var f, next := Frontier(span, sys.store), Next(span, sys, Step(pid)).store;
      next == if f >= span.from then sys.store.(cursor := CursorAfter(span, f)) else sys.store
  {
    ReachableInvariant(span, actions);
    var st := RunFrom(span, INITIAL, actions).store;
    PrefixHasAnEnd(span, st);
    if Frontier(span, st) >= span.from {
      LastOfPrefix(span.from, Frontier(span, st), st.checkpoints);
    }
  }

  /** And a checkpoint, which is the chapter just written or one that the prefix has already. */
  lemma CheckpointSetsTheCursor(span: Span, actions: seq<Action>, pid: int)
    requires var sys := RunFrom(span, INITIAL, actions); pid in sys.workers && sys.workers[pid].pc.Checkpointing?
    ensures var sys := RunFrom(span, INITIAL, actions);
      var c, f, next := sys.workers[pid].pc.chapter, Frontier(span, sys.store), Next(span, sys, Step(pid)).store;
      && next.checkpoints == sys.store.checkpoints + {c}
      && next.cursor == CursorAfter(span, if c <= f then f else c)
  {
    ReachableInvariant(span, actions);
    var sys := RunFrom(span, INITIAL, actions);
    var c, f := sys.workers[pid].pc.chapter, Frontier(span, sys.store);
    assert PcFits(span, sys.workers[pid].pc, f, sys.store.chapters);
    LastOfPrefix(span.from, if c <= f then f else c, sys.store.checkpoints + {c});
  }

  lemma LastOfPrefix(from: int, f: int, units: set<int>)
    requires from <= f && units == Interval(from, f)
    ensures LastUnit(units) == Some(f)
  {
    assert f in units;
  }

  // ---------- left to itself ----------

  /** The worker has not stopped, and nothing has gone wrong with it. */
  predicate IsAtWork(pc: Pc) {
    !(pc.Stopping? || pc.Repairing? || pc.Gone?) && (pc.Finalizing? ==> pc.final == Completed)
  }

  function Phase(pc: Pc): nat {
    match pc
    case Spawned => 4
    case Resolving => 3
    case Publishing => 1
    case Finalizing(final) => 0
    case _ => 2
  }

  function ChaptersLeft(span: Span, pc: Pc): nat {
    match pc
    case AtCheck(c) => if c <= span.to then span.to - c else 0
    case AtState(c) => if c <= span.to then span.to - c else 0
    case Writing(c) => if c <= span.to then span.to - c else 0
    case Checkpointing(c) => if c <= span.to then span.to - c else 0
    case Advancing(c) => if c <= span.to then span.to - c else 0
    case _ => 0
  }

  function StepsInChapter(pc: Pc): nat {
    match pc
    case AtCheck(c) => 4
    case AtState(c) => 3
    case Writing(c) => 2
    case Checkpointing(c) => 1
    case _ => 0
  }

  predicate IsWorking(sys: System, pid: int) {
    && pid in sys.workers && IsAtWork(sys.workers[pid].pc)
    && sys.store.owner == Some(sys.workers[pid].id) && sys.store.status in {Dispatching, Running}
  }

  /** How far a worker is from the end, by phase, chapter and step. */
  predicate IsNearer(span: Span, pc: Pc, before: Pc) {
    || Phase(pc) < Phase(before)
    || (Phase(pc) == Phase(before) && ChaptersLeft(span, pc) < ChaptersLeft(span, before))
    || (Phase(pc) == Phase(before) && ChaptersLeft(span, pc) == ChaptersLeft(span, before)
        && StepsInChapter(pc) < StepsInChapter(before))
  }

  lemma WorkGoesOn(span: Span, sys: System, pid: int)
    requires Invariant(span, sys) && IsWorking(sys, pid) && !sys.workers[pid].pc.Finalizing?
    ensures var next := Next(span, sys, Step(pid));
      IsWorking(next, pid) && IsNearer(span, next.workers[pid].pc, sys.workers[pid].pc)
  {
    assert PcFits(span, sys.workers[pid].pc, Frontier(span, sys.store), sys.store.chapters);
  }

  /** A worker that owns its task and is left to itself, from wherever it is, completes it. */
  lemma {:induction false} LeftToItselfItCompletes(span: Span, sys: System, pid: int) returns (steps: seq<Action>)
    requires Invariant(span, sys) && IsWorking(sys, pid)
    ensures forall a :: a in steps ==> a == Step(pid)
    ensures var end := RunFrom(span, sys, steps);
      && end.store.status == Completed && end.store.owner == None
      && pid in end.workers && end.workers[pid].pc == Gone
      && Interval(span.from, span.to) <= end.store.checkpoints
    decreases Phase(sys.workers[pid].pc), ChaptersLeft(span, sys.workers[pid].pc), StepsInChapter(sys.workers[pid].pc)
  {
    var next := Next(span, sys, Step(pid));
    NextKeepsInvariant(span, sys, Step(pid));
    RunOne(span, sys, Step(pid));
    if sys.workers[pid].pc.Finalizing? {
      assert PcFits(span, sys.workers[pid].pc, Frontier(span, sys.store), sys.store.chapters);
      IntervalGrows(span.from, span.to, Frontier(span, next.store));
      steps := [Step(pid)];
    } else {
      WorkGoesOn(span, sys, pid);
      var rest := LeftToItselfItCompletes(span, next, pid);
      RunFromConcat(span, sys, [Step(pid)], rest);
      steps := [Step(pid)] + rest;
    }
  }

  lemma RunOne(span: Span, sys: System, a: Action)
    ensures RunFrom(span, sys, [a]) == Next(span, sys, a)
  {
    assert [a][..0] == [];
  }

  lemma IntervalGrows(lo: int, hi: int, higher: int)
    requires hi <= higher
    ensures Interval(lo, hi) <= Interval(lo, higher)
  {
  }

  /** An exception anywhere in the worker's body, the final commit included, and nothing else going wrong: the
      task fails, unless it was taken away or stopped meanwhile, and keeps its chapters. */
  lemma ExceptionFailsTheTask(span: Span, sys: System, pid: int)
    requires pid in sys.workers && IsAtWork(sys.workers[pid].pc)
    ensures var end := RunFrom(span, sys, [Raise(pid), Step(pid), Step(pid), Step(pid)]);
      && pid in end.workers && end.workers[pid].pc == Gone
      && end.store.(cursor := sys.store.cursor) ==
         if sys.store.status in {Dispatching, Running} then sys.store.(status := Failed, owner := None) else sys.store
  {
    var actions := Then(span, sys, [], Raise(pid), pid);
    assert RunFrom(span, sys, actions).workers[pid].pc == Stopping(Failed);
    actions := Then(span, sys, actions, Step(pid), pid);
    actions := Then(span, sys, actions, Step(pid), pid);
    assert RunFrom(span, sys, actions).workers[pid].pc == Finalizing(Failed);
    actions := Then(span, sys, actions, Step(pid), pid);
    assert actions == [Raise(pid), Step(pid), Step(pid), Step(pid)];
  }

  /** In the handler, too: one in its first commit ends the worker, one in the repair of the cursor is passed over,
      and one in its last commit ends the worker; none of them writes. */
  lemma ExceptionInTheHandler(span: Span, sys: System, pid: int)
    requires pid in sys.workers && !IsAtWork(sys.workers[pid].pc)
    ensures var pc, next := sys.workers[pid].pc, Next(span, sys, Raise(pid));
      && next.store == sys.store
      && next.workers[pid].pc == if pc.Repairing? then Finalizing(pc.final) else Gone
  {
  }
}
