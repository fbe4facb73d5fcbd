/**
 Any number of rewrite workers on one task, interleaved step by step with each other and with
 the scheduler; each may crash, raise or be delivered again at any point.
 */
module RewriteRuns {
  import opened Checkpoints
  import opened Options
  import opened RewriteTask

  datatype Worker = Worker(id: int, pc: Pc)

  /** `workers` is keyed by process, since one queue message may be delivered more than once. */
  datatype System = System(store: Store, workers: map<int, Worker>)

  datatype Action =
    | Deliver(pid: int, id: int)
    | Step(pid: int)
    | Raise(pid: int)
    | Crash(pid: int)
    | Schedule(op: SchedulerOp)

  const INITIAL := System(NEW_STORE, map[])

  ghost function Next(span: Span, sys: System, a: Action): System {
    match a
    case Deliver(pid, id) =>
      if pid in sys.workers then sys else sys.(workers := sys.workers[pid := Worker(id, Spawned)])
    case Step(pid) =>
      if pid !in sys.workers then sys
      else
        var w := sys.workers[pid];
        var (st, pc) := WorkerStep(span, w.id, sys.store, w.pc);
        System(st, sys.workers[pid := w.(pc := pc)])
    case Raise(pid) =>
      if pid !in sys.workers then sys
      else sys.(workers := sys.workers[pid := sys.workers[pid].(pc := RaisedPc(sys.workers[pid].pc))])
    case Crash(pid) =>
      if pid !in sys.workers then sys
      else sys.(workers := sys.workers[pid := sys.workers[pid].(pc := Gone)])
    case Schedule(op) => sys.(store := AfterScheduler(sys.store, op))
  }

  ghost function RunFrom(span: Span, sys: System, actions: seq<Action>): System {
    if actions == [] then sys
    else Next(span, RunFrom(span, sys, actions[..|actions| - 1]), actions[|actions| - 1])
  }

  // ---------- checkpoints are a prefix ----------

  function Interval(lo: int, hi: int): (s: set<int>)
    ensures forall u :: u in s <==> lo <= u <= hi
    decreases hi - lo + 1
  {
    if hi < lo then {} else Interval(lo, hi - 1) + {hi}
  }

  /** The last checkpointed chapter, or the one before the span. */
  ghost function Frontier(span: Span, st: Store): int {
    match LastUnit(st.checkpoints)
    case None => span.from - 1
    case Some(last) => last
  }

  /** What holds of a worker given the frontier f. */
  predicate PcFits(span: Span, pc: Pc, f: int, chapters: set<int>) {
    match pc
    case AtCheck(c) => span.from <= c <= f + 1 && c <= span.to
    case AtState(c) => span.from <= c <= f + 1 && c <= span.to
    case Writing(c) => span.from <= c <= f + 1 && c <= span.to
    case Checkpointing(c) => span.from <= c <= f + 1 && c <= span.to && c in chapters
    case Advancing(c) => span.from <= c <= f && c <= span.to
    case Publishing => f >= span.to
    case Finalizing(final) => final in {Completed, Failed, Cancelled, Paused} && (final == Completed ==> f >= span.to)
    case Stopping(final) => final in {Failed, Cancelled, Paused}
    case Repairing(final) => final in {Failed, Cancelled, Paused}
    case _ => true
  }

  /** The resume cursor names a completed chapter and the one after it. */
  predicate CursorFits(st: Store) {
    st.cursor.last.Some? ==>
      st.cursor.last.value in st.checkpoints && st.cursor.next == Some(st.cursor.last.value + 1)
  }

  ghost predicate Invariant(span: Span, sys: System) {
    var st := sys.store;
    var f := Frontier(span, st);
    && CursorFits(st)
    && st.checkpoints == Interval(span.from, f)
    && (st.checkpoints == {} || f <= span.to)
    && st.checkpoints <= st.chapters <= Interval(span.from, f + 1)
    && (st.status == Completed || st.published ==> f >= span.to)
    && forall pid :: pid in sys.workers ==> PcFits(span, sys.workers[pid].pc, f, st.chapters)
  }

  lemma FrontierIs(span: Span, st: Store, f: int)
    requires st.checkpoints == Interval(span.from, f) && f >= span.from - 1
    ensures Frontier(span, st) == f
  {
    if f >= span.from {
      assert f in st.checkpoints;
    } else {
      assert st.checkpoints == {};
    }
  }

  lemma CheckpointKeepsInvariant(span: Span, sys: System, pid: int, c: int)
    requires Invariant(span, sys)
    requires pid in sys.workers && sys.workers[pid].pc == Checkpointing(c)
    ensures Invariant(span, Next(span, sys, Step(pid)))
  {
    var f := Frontier(span, sys.store);
    var next := Next(span, sys, Step(pid));
    var f' := if c <= f then f else c;
    assert next.store.checkpoints == Interval(span.from, f');
    FrontierIs(span, next.store, f');
    forall p | p in next.workers ensures PcFits(span, next.workers[p].pc, f', next.store.chapters) {
      assert PcFits(span, sys.workers[p].pc, f, sys.store.chapters);
    }
  }

  lemma ResolveFindsFrontier(span: Span, st: Store)
    requires st.checkpoints == Interval(span.from, Frontier(span, st))
    requires st.checkpoints == {} || Frontier(span, st) <= span.to
    ensures ResumeFrom(span, LastUnit(InSpan(st.checkpoints, span))) == Frontier(span, st) + 1
  {
    assert InSpan(st.checkpoints, span) == st.checkpoints;
    var last := LastUnit(st.checkpoints);
    if last.Some? {
      assert last.value in Interval(span.from, last.value);
    }
  }

  /** A change that leaves the checkpoints alone keeps the invariant if it fits the frontier. */
  lemma UpdateKeepsInvariant(span: Span, sys: System, pid: int, st: Store, w: Worker)
    requires Invariant(span, sys)
    requires st.checkpoints == sys.store.checkpoints && CursorFits(st)
    requires var f := Frontier(span, sys.store);
             && sys.store.chapters <= st.chapters <= Interval(span.from, f + 1)
             && (st.status == Completed || st.published ==> f >= span.to)
             && PcFits(span, w.pc, f, st.chapters)
    ensures Invariant(span, System(st, sys.workers[pid := w]))
  {
    var f := Frontier(span, sys.store);
    var next := System(st, sys.workers[pid := w]);
    assert Frontier(span, st) == f;
    forall p | p in next.workers ensures PcFits(span, next.workers[p].pc, f, st.chapters) {
      assert p != pid ==> PcFits(span, sys.workers[p].pc, f, sys.store.chapters);
    }
  }

  /** Planning names the chapter after the frontier. */
  lemma ResolveFits(span: Span, id: int, sys: System)
    requires Invariant(span, sys)
    ensures var (st, pc) := WorkerStep(span, id, sys.store, Resolving);
            CursorFits(st) && PcFits(span, pc, Frontier(span, sys.store), st.chapters)
  {
    ResolveFindsFrontier(span, sys.store);
    assert InSpan(sys.store.checkpoints, span) == sys.store.checkpoints;
  }

  /** Every other step fits the frontier, too. */
  lemma StepFits(span: Span, id: int, sys: System, pc: Pc)
    requires Invariant(span, sys) && PcFits(span, pc, Frontier(span, sys.store), sys.store.chapters)
    requires !pc.Checkpointing? && !pc.Resolving?
    ensures var (st, next) := WorkerStep(span, id, sys.store, pc);
            var f := Frontier(span, sys.store);
            && st.checkpoints == sys.store.checkpoints && CursorFits(st)
            && sys.store.chapters <= st.chapters <= Interval(span.from, f + 1)
            && (st.status == Completed || st.published ==> f >= span.to)
            && PcFits(span, next, f, st.chapters)
  {
    match pc
    case Spawned =>
    case AtCheck(c) =>
    case AtState(c) =>
    case Writing(c) =>
    case Advancing(c) =>
    case Publishing =>
    case Stopping(final) =>
    case Repairing(final) =>
    case Finalizing(final) =>
    case Gone =>
  }

  lemma StepKeepsInvariant(span: Span, sys: System, pid: int)
    requires Invariant(span, sys) && pid in sys.workers
    ensures Invariant(span, Next(span, sys, Step(pid)))
  {
    var w := sys.workers[pid];
    var (st, pc) := WorkerStep(span, w.id, sys.store, w.pc);
    assert PcFits(span, w.pc, Frontier(span, sys.store), sys.store.chapters);
    if w.pc.Checkpointing? {
      CheckpointKeepsInvariant(span, sys, pid, w.pc.chapter);
    } else {
      if w.pc.Resolving? {
        ResolveFits(span, w.id, sys);
      } else {
        StepFits(span, w.id, sys, w.pc);
      }
      UpdateKeepsInvariant(span, sys, pid, st, w.(pc := pc));
    }
  }

  lemma ScheduleKeepsInvariant(span: Span, sys: System, op: SchedulerOp)
    requires Invariant(span, sys)
    ensures Invariant(span, Next(span, sys, Schedule(op)))
  {
    assert Frontier(span, AfterScheduler(sys.store, op)) == Frontier(span, sys.store);
  }

  lemma NextKeepsInvariant(span: Span, sys: System, a: Action)
    requires Invariant(span, sys)
    ensures Invariant(span, Next(span, sys, a))
  {
    match a
    case Step(pid) =>
      if pid in sys.workers {
        StepKeepsInvariant(span, sys, pid);
      }
    case Deliver(pid, id) =>
      if pid !in sys.workers {
        UpdateKeepsInvariant(span, sys, pid, sys.store, Worker(id, Spawned));
      }
    case Raise(pid) =>
      if pid in sys.workers {
        var w := sys.workers[pid];
        UpdateKeepsInvariant(span, sys, pid, sys.store, w.(pc := RaisedPc(w.pc)));
      }
    case Crash(pid) =>
      if pid in sys.workers {
        UpdateKeepsInvariant(span, sys, pid, sys.store, sys.workers[pid].(pc := Gone));
      }
    case Schedule(op) => ScheduleKeepsInvariant(span, sys, op);
  }

  lemma {:induction false} ReachableInvariant(span: Span, actions: seq<Action>)
    ensures Invariant(span, RunFrom(span, INITIAL, actions))
  {
    if actions == [] {
      FrontierIs(span, NEW_STORE, span.from - 1);
    } else {
      var init := actions[..|actions| - 1];
      ReachableInvariant(span, init);
      NextKeepsInvariant(span, RunFrom(span, INITIAL, init), actions[|actions| - 1]);
    }
  }

  predicate AtChapter(pc: Pc, c: int) {
    pc in {AtCheck(c), AtState(c), Writing(c), Checkpointing(c), Advancing(c)}
  }

  /** In every run the checkpointed chapters are a prefix of the span, each of them has a committed
      chapter row, at most one chapter beyond the prefix is committed, and every live worker is at
      most one past the prefix; the resume cursor always points just past a completed chapter. */
  lemma CheckpointsArePrefix(span: Span, actions: seq<Action>, pid: int, c: int)
    ensures var sys := RunFrom(span, INITIAL, actions);
            var f := Frontier(span, sys.store);
            && sys.store.checkpoints == Interval(span.from, f)
            && sys.store.checkpoints <= Interval(span.from, span.to)
            && sys.store.checkpoints <= sys.store.chapters <= sys.store.checkpoints + {f + 1}
            && (pid in sys.workers && AtChapter(sys.workers[pid].pc, c) ==> span.from <= c <= f + 1)
            && CursorFits(sys.store)
  {
    ReachableInvariant(span, actions);
    var sys := RunFrom(span, INITIAL, actions);
    if pid in sys.workers {
      assert PcFits(span, sys.workers[pid].pc, Frontier(span, sys.store), sys.store.chapters);
    }
  }

  /** A completed task, and a target version that became the default, have every chapter of the
      span rewritten, committed and checkpointed. */
  lemma CompletedMeansDone(span: Span, actions: seq<Action>)
    requires var st := RunFrom(span, INITIAL, actions).store; st.status == Completed || st.published
    ensures var st := RunFrom(span, INITIAL, actions).store;
            Interval(span.from, span.to) == st.checkpoints && st.checkpoints <= st.chapters
  {
    ReachableInvariant(span, actions);
  }

  /** No worker and no scheduler operation ever takes a completed or a cancelled task out of that state. */
  lemma {:induction false} CompletedIsFinal(span: Span, sys: System, actions: seq<Action>)
    requires sys.store.status in {Completed, Cancelled}
    ensures RunFrom(span, sys, actions).store.status == sys.store.status
  {
    if actions != [] {
      CompletedIsFinal(span, sys, actions[..|actions| - 1]);
    }
  }

  lemma SoloStep(span: Span, st: Store, workers: map<int, Worker>, pid: int, id: int, pc: Pc)
    ensures var (after, next) := WorkerStep(span, id, st, pc);
            var sys := System(st, workers[pid := Worker(id, pc)]);
            Next(span, sys, Step(pid)) == System(after, workers[pid := Worker(id, next)])
  {
    var (after, next) := WorkerStep(span, id, st, pc);
    assert workers[pid := Worker(id, pc)][pid := Worker(id, next)] == workers[pid := Worker(id, next)];
  }

  lemma SoloRaise(span: Span, st: Store, workers: map<int, Worker>, pid: int, id: int, pc: Pc)
    ensures Next(span, System(st, workers[pid := Worker(id, pc)]), Raise(pid)) ==
            System(st, workers[pid := Worker(id, RaisedPc(pc))])
  {
    assert workers[pid := Worker(id, pc)][pid := Worker(id, RaisedPc(pc))] == workers[pid := Worker(id, RaisedPc(pc))];
  }

  /** One more step of a worker among the others, with what happens around it. */
  lemma SoloExtend(span: Span, sys: System, actions: seq<Action>, pid: int, id: int, st: Store, pc: Pc, around: Around)
    returns (longer: seq<Action>)
    requires RunFrom(span, sys, actions) == System(st, sys.workers[pid := Worker(id, pc)])
    ensures var before := AfterSchedulerOps(st, around.before);
            var (after, next) := if around.raises then (before, RaisedPc(pc)) else WorkerStep(span, id, before, pc);
            RunFrom(span, sys, longer) == System(after, sys.workers[pid := Worker(id, next)])
  {
    var before := AfterSchedulerOps(st, around.before);
    longer := ThenSchedule(span, sys, actions, around.before);
    if around.raises {
      SoloRaise(span, before, sys.workers, pid, id, pc);
      longer := Then(span, sys, longer, Raise(pid), pid);
    } else {
      SoloStep(span, before, sys.workers, pid, id, pc);
      longer := Then(span, sys, longer, Step(pid), pid);
    }
  }

  /** A worker that runs as in `RewriteTask.SubmitRewriteTask` is one of the interleavings here. */
  lemma {:induction false} SoloRunIsARun(span: Span, sys: System, pid: int, id: int, env: nat -> Around, k: nat)
    returns (actions: seq<Action>)
    requires pid !in sys.workers
    ensures var (st, pc) := RunWorker(span, id, sys.store, env, k);
            RunFrom(span, sys, actions) == System(st, sys.workers[pid := Worker(id, pc)])
  {
    if k == 0 {
      actions := Then(span, sys, [], Deliver(pid, id), pid);
    } else {
      actions := SoloRunIsARun(span, sys, pid, id, env, k - 1);
      var (st, pc) := RunWorker(span, id, sys.store, env, k - 1);
      actions := SoloExtend(span, sys, actions, pid, id, st, pc, env(k - 1));
    }
  }

  lemma {:induction false} ThenSchedule(span: Span, sys: System, actions: seq<Action>, ops: seq<SchedulerOp>)
    returns (longer: seq<Action>)
    ensures var before := RunFrom(span, sys, actions);
            RunFrom(span, sys, longer) == before.(store := AfterSchedulerOps(before.store, ops))
  {
    if ops == [] {
      longer := actions;
    } else {
      longer := ThenSchedule(span, sys, actions, ops[..|ops| - 1]);
      longer := Then(span, sys, longer, Schedule(ops[|ops| - 1]), 0);
    }
  }

  // ---------- displaced workers ----------

  /** Is the action a chapter commit of the given worker? */
  predicate IsCommit(sys: System, a: Action, pid: int) {
    a == Step(pid) && pid in sys.workers && sys.workers[pid].pc.Writing?
  }

  /** Does the given worker pass the superseded check although no newer worker owns the row? */
  predicate IsPassedCheck(sys: System, a: Action, pid: int) {
    && a == Step(pid) && pid in sys.workers && sys.workers[pid].pc.AtCheck?
    && !OwnedByOther(sys.store, sys.workers[pid].id)
  }

  /** Does the given worker drop a chapter it was about to commit, by an exception, a crash, or because
      the task was paused or cancelled after its check? */
  predicate IsGivenUp(sys: System, a: Action, pid: int) {
    && pid in sys.workers && (sys.workers[pid].pc.AtState? || sys.workers[pid].pc.Writing?)
    && (a == Raise(pid) || a == Crash(pid)
        || (a == Step(pid) && sys.workers[pid].pc.AtState? && sys.store.status in {Cancelled, Paused}))
  }

  ghost function Commits(span: Span, sys: System, actions: seq<Action>, pid: int): nat {
    if actions == [] then 0
    else
      var init := actions[..|actions| - 1];
      Commits(span, sys, init, pid) + if IsCommit(RunFrom(span, sys, init), actions[|actions| - 1], pid) then 1 else 0
  }

  ghost function PassedChecks(span: Span, sys: System, actions: seq<Action>, pid: int): nat {
    if actions == [] then 0
    else
      var init := actions[..|actions| - 1];
      PassedChecks(span, sys, init, pid)
      + if IsPassedCheck(RunFrom(span, sys, init), actions[|actions| - 1], pid) then 1 else 0
  }

  ghost function GivenUp(span: Span, sys: System, actions: seq<Action>, pid: int): nat {
    if actions == [] then 0
    else
      var init := actions[..|actions| - 1];
      GivenUp(span, sys, init, pid) + if IsGivenUp(RunFrom(span, sys, init), actions[|actions| - 1], pid) then 1 else 0
  }

  /** The commit a worker may still make without another check. */
  function Owed(sys: System, pid: int): nat {
    if pid in sys.workers && (sys.workers[pid].pc.AtState? || sys.workers[pid].pc.Writing?) then 1 else 0
  }

  /** The exact balance, from any moment on: every check that a worker passes while the row does not
      name another worker is answered by one commit, one chapter given up, or one commit still owed. */
  lemma {:induction false} CommitBalance(span: Span, sys: System, actions: seq<Action>, pid: int)
    ensures Commits(span, sys, actions, pid) + GivenUp(span, sys, actions, pid) + Owed(RunFrom(span, sys, actions), pid)
            == Owed(sys, pid) + PassedChecks(span, sys, actions, pid)
  {
    if actions != [] {
      CommitBalance(span, sys, actions[..|actions| - 1], pid);
    }
  }

  /** So a worker commits at most one more chapter if and only if all checks it passes but one, the one
      it had passed before included, end in a chapter given up or still owed. */
  lemma AtMostOneMoreIff(span: Span, sys: System, actions: seq<Action>, pid: int)
    ensures Commits(span, sys, actions, pid) <= 1 <==>
            Owed(sys, pid) + PassedChecks(span, sys, actions, pid)
            <= 1 + GivenUp(span, sys, actions, pid) + Owed(RunFrom(span, sys, actions), pid)
  {
    CommitBalance(span, sys, actions, pid);
  }

  /** In particular when it is displaced for good, that is, when no later check finds the row without
      another owner. */
  lemma DisplacedCommitsAtMostOne(span: Span, sys: System, actions: seq<Action>, pid: int)
    requires PassedChecks(span, sys, actions, pid) == 0
    ensures Commits(span, sys, actions, pid) <= 1
  {
    AtMostOneMoreIff(span, sys, actions, pid);
  }

  /** Conversely, a worker that has passed its check can commit once more without another one, exactly
      unless it has yet to look at the status of a cancelled task. */
  lemma OneMoreCommitIff(span: Span, sys: System, pid: int)
    requires pid in sys.workers
    ensures (exists more :: PassedChecks(span, sys, more, pid) == 0 && Commits(span, sys, more, pid) == 1)
            <==> MayCommit(sys, pid)
  {
    if MayCommit(sys, pid) {
      var more := CommitOnce(span, sys, pid);
      assert PassedChecks(span, sys, more, pid) == 0 && Commits(span, sys, more, pid) == 1;
    } else {
      forall more | PassedChecks(span, sys, more, pid) == 0 ensures Commits(span, sys, more, pid) == 0
      {
        if Owed(sys, pid) == 0 {
          CommitBalance(span, sys, more, pid);
        } else {
          CancelledCommitsNothing(span, sys, more, pid);
        }
      }
    }
  }

  predicate MayCommit(sys: System, pid: int)
    requires pid in sys.workers
  {
    || sys.workers[pid].pc.Writing?
    || (sys.workers[pid].pc.AtState? && sys.store.status != Cancelled)
  }

  lemma CommitOnce(span: Span, sys: System, pid: int) returns (more: seq<Action>)
    requires pid in sys.workers && MayCommit(sys, pid)
    ensures PassedChecks(span, sys, more, pid) == 0 && Commits(span, sys, more, pid) == 1
  {
    more := [];
    if sys.workers[pid].pc.AtState? {
      if sys.store.status == Paused {
        more := Then(span, sys, more, Schedule(Resume), pid);
      }
      more := Then(span, sys, more, Step(pid), pid);
    }
    more := Then(span, sys, more, Step(pid), pid);
  }

  /** A worker that has yet to look at the status of a cancelled task does not get to its commit. */
  lemma {:induction false} CancelledCommitsNothing(span: Span, sys: System, more: seq<Action>, pid: int)
    requires pid in sys.workers && sys.workers[pid].pc.AtState? && sys.store.status == Cancelled
    ensures var next := RunFrom(span, sys, more);
            && pid in next.workers && IsLeaving(next.workers[pid].pc) && next.store.status == Cancelled
    ensures Commits(span, sys, more, pid) == 0
  {
    if more != [] {
      CancelledCommitsNothing(span, sys, more[..|more| - 1], pid);
      CompletedIsFinal(span, sys, more);
    }
  }

  /** About to look at the status, or past a look that stopped it. */
  predicate IsLeaving(pc: Pc) {
    pc.AtState? || pc.Gone? || ((pc.Stopping? || pc.Repairing? || pc.Finalizing?) && pc.final != Completed)
  }

  /** Naming another worker once is not enough: when that worker is reclaimed in turn, the row names
      nobody, the old worker passes its check, and it commits a second chapter. */
  lemma DisplacedMayCommitTwice() returns (before: seq<Action>, after: seq<Action>)
    ensures var sys := RunFrom(Span(1, 2), INITIAL, before);
            && 1 in sys.workers && OwnedByOther(sys.store, sys.workers[1].id)
            && Commits(Span(1, 2), sys, after, 1) == 2
  {
    var span := Span(1, 2);
    before := FirstChapterInProgress(span);
    before := Then(span, INITIAL, before, Schedule(Reclaim), 1);
    before := Then(span, INITIAL, before, Schedule(Dispatch(2)), 1);
    var sys := RunFrom(span, INITIAL, before);
    after := FinishFirstChapter(span, sys);
    after := Then(span, sys, after, Schedule(Reclaim), 1);
    after := Then(span, sys, after, Step(1), 1);
    after := Then(span, sys, after, Step(1), 1);
    after := Then(span, sys, after, Step(1), 1);
  }

  /** One more action. */
  lemma Then(span: Span, sys: System, actions: seq<Action>, a: Action, pid: int) returns (longer: seq<Action>)
    ensures longer == actions + [a]
    ensures RunFrom(span, sys, longer) == Next(span, RunFrom(span, sys, actions), a)
    ensures PassedChecks(span, sys, longer, pid) == PassedChecks(span, sys, actions, pid)
            + if IsPassedCheck(RunFrom(span, sys, actions), a, pid) then 1 else 0
    ensures Commits(span, sys, longer, pid) ==
            Commits(span, sys, actions, pid) + if IsCommit(RunFrom(span, sys, actions), a, pid) then 1 else 0
  {
    longer := actions + [a];
    assert longer[..|actions|] == actions;
  }

  /** A run in which worker 1 has bound the task. */
  lemma FirstWorkerResolves(span: Span) returns (actions: seq<Action>)
    ensures var sys := RunFrom(span, INITIAL, actions);
            && sys.workers == map[1 := Worker(1, Resolving)]
            && sys.store == NEW_STORE.(status := Running, owner := Some(1))
  {
    actions := Then(span, INITIAL, [], Schedule(Dispatch(1)), 1);
    actions := Then(span, INITIAL, actions, Deliver(1, 1), 1);
    actions := Then(span, INITIAL, actions, Step(1), 1);
  }

  /** A run in which worker 1 owns the task and is about to commit chapter 1. */
  lemma FirstChapterInProgress(span: Span) returns (actions: seq<Action>)
    requires span.from == 1 <= span.to
    ensures var sys := RunFrom(span, INITIAL, actions);
            && sys.workers == map[1 := Worker(1, Writing(1))]
            && sys.store == NEW_STORE.(status := Running, owner := Some(1), cursor := Cursor(None, Some(1)))
  {
    assert InSpan({}, span) == {};
    actions := FirstWorkerResolves(span);
    actions := Then(span, INITIAL, actions, Step(1), 1);
    actions := Then(span, INITIAL, actions, Step(1), 1);
    actions := Then(span, INITIAL, actions, Step(1), 1);
  }

  /** Commit, checkpoint and advance. */
  lemma FinishFirstChapter(span: Span, sys: System) returns (actions: seq<Action>)
    requires span == Span(1, 2) && 1 in sys.workers && sys.workers[1] == Worker(1, Writing(1))
    ensures Commits(span, sys, actions, 1) == 1
    ensures var next := RunFrom(span, sys, actions);
            1 in next.workers && next.workers[1] == Worker(1, AtCheck(2)) && next.store.status == sys.store.status
  {
    actions := Then(span, sys, [], Step(1), 1);
    actions := Then(span, sys, actions, Step(1), 1);
    actions := Then(span, sys, actions, Step(1), 1);
  }

  // ---------- completion without publication ----------

  /** A worker that starts when the prefix already covers the span completes the task without
      making the target version the default; any other worker enters the chapter loop. */
  lemma EarlyExitIff(span: Span, actions: seq<Action>, pid: int)
    requires var sys := RunFrom(span, INITIAL, actions); pid in sys.workers && sys.workers[pid].pc == Resolving
    ensures var sys := RunFrom(span, INITIAL, actions);
            var next := Next(span, sys, Step(pid)).workers[pid].pc;
            && (next == Finalizing(Completed) <==> Interval(span.from, span.to) <= sys.store.checkpoints)
            && (next != Finalizing(Completed) <==> next == AtCheck(Frontier(span, sys.store) + 1))
  {
    ReachableInvariant(span, actions);
    var sys := RunFrom(span, INITIAL, actions);
    ResolveFindsFrontier(span, sys.store);
    if Frontier(span, sys.store) < span.to {
      assert span.to in Interval(span.from, span.to);
    }
  }

  /** Is the action such an early exit, before the target version became the default? */
  predicate IsEarlyExit(span: Span, sys: System, a: Action) {
    && !sys.store.published && a.Step? && a.pid in sys.workers && sys.workers[a.pid].pc == Resolving
    && Interval(span.from, span.to) <= sys.store.checkpoints
  }

  ghost predicate SomeEarlyExit(span: Span, actions: seq<Action>) {
    actions != [] &&
    var init := actions[..|actions| - 1];
    SomeEarlyExit(span, init) || IsEarlyExit(span, RunFrom(span, INITIAL, init), actions[|actions| - 1])
  }

  /** Whoever is about to complete the task has published. */
  predicate PublishedFirst(sys: System) {
    && (sys.store.status == Completed ==> sys.store.published)
    && forall pid :: pid in sys.workers && sys.workers[pid].pc == Finalizing(Completed) ==> sys.store.published
  }

  lemma NextPublishesFirst(span: Span, actions: seq<Action>, a: Action)
    requires PublishedFirst(RunFrom(span, INITIAL, actions))
    requires !IsEarlyExit(span, RunFrom(span, INITIAL, actions), a)
    ensures PublishedFirst(Next(span, RunFrom(span, INITIAL, actions), a))
  {
    var sys := RunFrom(span, INITIAL, actions);
    ReachableInvariant(span, actions);
    if a.Step? && a.pid in sys.workers {
      var w := sys.workers[a.pid];
      assert PcFits(span, w.pc, Frontier(span, sys.store), sys.store.chapters);
      if w.pc == Resolving {
        EarlyExitIff(span, actions, a.pid);
      }
    }
  }

  /** In every run without an early exit a completed task's target version is the default. */
  lemma {:induction false} PublishedUnlessEarlyExit(span: Span, actions: seq<Action>)
    requires !SomeEarlyExit(span, actions)
    ensures PublishedFirst(RunFrom(span, INITIAL, actions))
  {
    if actions != [] {
      PublishedUnlessEarlyExit(span, actions[..|actions| - 1]);
      NextPublishesFirst(span, actions[..|actions| - 1], actions[|actions| - 1]);
    }
  }

  /** And every such early exit, unless the task was cancelled, can end in a completed task whose target
      version never became the default: once the task runs again the worker only has to go on. */
  lemma EarlyExitLeavesUnpublished(span: Span, actions: seq<Action>, pid: int) returns (more: seq<Action>)
    requires IsEarlyExit(span, RunFrom(span, INITIAL, actions), Step(pid))
    requires RunFrom(span, INITIAL, actions).store.status != Cancelled
    ensures more != [] && more[0] == Step(pid)
    ensures var st := RunFrom(span, RunFrom(span, INITIAL, actions), more).store;
            st.status == Completed && !st.published
  {
    var sys := RunFrom(span, INITIAL, actions);
    EarlyExitIff(span, actions, pid);
    more := Then(span, sys, [], Step(pid), pid);
    assert RunFrom(span, sys, more).store.status == sys.store.status;
    if sys.store.status in {Paused, Failed} {
      more := Then(span, sys, more, Schedule(Resume), pid);
    }
    if sys.store.status in {Paused, Failed, Queued} {
      more := Then(span, sys, more, Schedule(Dispatch(0)), pid);
    }
    FinishEarlyExit(span, RunFrom(span, sys, more), pid);
    more := Then(span, sys, more, Step(pid), pid);
  }

  lemma FinishEarlyExit(span: Span, sys: System, pid: int)
    requires pid in sys.workers && sys.workers[pid].pc == Finalizing(Completed)
    requires sys.store.status in {Dispatching, Running, Completed}
    ensures var st := Next(span, sys, Step(pid)).store; st.status == Completed && st.published == sys.store.published
  {
  }

  /** It happens: a crash between the last checkpoint and the final commit leads there. */
  lemma CompletedWithoutPublishing() returns (actions: seq<Action>)
    ensures SomeEarlyExit(Span(1, 1), actions)
    ensures var st := RunFrom(Span(1, 1), INITIAL, actions).store; st.status == Completed && !st.published
  {
    var span := Span(1, 1);
    var before := SecondWorkerResolves(span);
    var more := EarlyExitLeavesUnpublished(span, before, 2);
    RunFromConcat(span, INITIAL, before, more);
    actions := before + more;
    if !SomeEarlyExit(span, actions) {
      PublishedUnlessEarlyExit(span, actions);
    }
  }

  lemma {:induction false} RunFromConcat(span: Span, sys: System, a: seq<Action>, b: seq<Action>)
    ensures RunFrom(span, sys, a + b) == RunFrom(span, RunFrom(span, sys, a), b)
  {
    if b == [] {
      assert a + b == a;
    } else {
      assert (a + b)[..|a + b| - 1] == a + b[..|b| - 1];
      RunFromConcat(span, sys, a, b[..|b| - 1]);
    }
  }

  lemma SecondWorkerResolves(span: Span) returns (actions: seq<Action>)
    requires span == Span(1, 1)
    ensures var sys := RunFrom(span, INITIAL, actions);
            IsEarlyExit(span, sys, Step(2)) && sys.store.status == Running
  {
    actions := CrashAfterLastCheckpoint(span);
    actions := Then(span, INITIAL, actions, Schedule(Dispatch(2)), 1);
    actions := Then(span, INITIAL, actions, Deliver(2, 2), 1);
    actions := Then(span, INITIAL, actions, Step(2), 1);
    assert Interval(1, 1) == Interval(1, 0) + {1};
  }

  lemma CrashAfterLastCheckpoint(span: Span) returns (actions: seq<Action>)
    requires span == Span(1, 1)
    ensures var sys := RunFrom(span, INITIAL, actions);
            && sys.workers == map[1 := Worker(1, Gone)]
            && sys.store.status == Queued && !sys.store.published && sys.store.checkpoints == {1}
  {
    actions := FirstChapterInProgress(span);
    actions := Then(span, INITIAL, actions, Step(1), 1);
    actions := Then(span, INITIAL, actions, Step(1), 1);
    actions := Then(span, INITIAL, actions, Crash(1), 1);
    actions := Then(span, INITIAL, actions, Schedule(Reclaim), 1);
  }

  // ---------- late finalizers ----------

  /** A step of a worker changes the status of a row that names another worker if and only if it is the
      finalizing step and the row is dispatching or running; it then sets the worker's own final status
      and takes the row from its owner. */
  lemma LateFinalizeIff(span: Span, actions: seq<Action>, pid: int)
    requires var sys := RunFrom(span, INITIAL, actions);
             pid in sys.workers && OwnedByOther(sys.store, sys.workers[pid].id)
    ensures var sys := RunFrom(span, INITIAL, actions);
            var pc, next := sys.workers[pid].pc, Next(span, sys, Step(pid)).store;
            && (next.status != sys.store.status <==> pc.Finalizing? && sys.store.status in {Dispatching, Running})
            && (next.status != sys.store.status ==> next.status == pc.final && next.owner == None)
  {
    ReachableInvariant(span, actions);
    var sys := RunFrom(span, INITIAL, actions);
    assert PcFits(span, sys.workers[pid].pc, Frontier(span, sys.store), sys.store.chapters);
  }

  /** So a displaced worker that raises fails the task of its successor. */
  lemma LateWorkerFailsItsSuccessor() returns (actions: seq<Action>)
    ensures var sys := RunFrom(Span(1, 2), INITIAL, actions);
            && 1 in sys.workers && OwnedByOther(sys.store, sys.workers[1].id) && sys.store.status == Running
            && sys.workers[1].pc == Finalizing(Failed)
            && Next(Span(1, 2), sys, Step(1)).store.status == Failed
  {
    var span := Span(1, 2);
    actions := FirstChapterInProgress(span);
    actions := Then(span, INITIAL, actions, Schedule(Reclaim), 1);
    actions := Then(span, INITIAL, actions, Schedule(Dispatch(2)), 1);
    actions := Then(span, INITIAL, actions, Deliver(2, 2), 1);
    actions := Then(span, INITIAL, actions, Step(2), 1);
    actions := Then(span, INITIAL, actions, Raise(1), 1);
    actions := Then(span, INITIAL, actions, Step(1), 1);
    actions := Then(span, INITIAL, actions, Step(1), 1);
    LateFinalizeIff(span, actions, 1);
  }
}
