/**
 The rewrite task: the row the scheduler owns, the chapter rows and checkpoints a worker
 writes, and the worker itself as a program of atomic database steps.
 */
module RewriteTask {
  import opened Checkpoints
  import opened Options

  datatype Status = Queued | Dispatching | Running | Paused | Completed | Failed | Cancelled

  datatype Cursor = Cursor(last: Option<int>, next: Option<int>)

  /** Everything durable: the task row, its checkpoints, the target version's completed chapters,
      and whether the target version was made the default. */
  datatype Store = Store(
    status: Status,
    owner: Option<int>,
    checkpoints: set<int>,
    chapters: set<int>,
    cursor: Cursor,
    published: bool)

  const NEW_STORE := Store(Queued, None, {}, {}, Cursor(None, None), false)

  // ---------- checkpoints and cursor ----------

  ghost function AfterResolve(span: Span, st: Store): Store {
    var last := LastUnit(InSpan(st.checkpoints, span));
    st.(cursor := Cursor(last, Some(ResumeFrom(span, last))))
  }

  function CursorAt(last: Option<int>): Cursor {
    Cursor(last, Some(if last.Some? then last.value + 1 else 1))
  }

  ghost function AfterCheckpoint(st: Store, chapter: int): Store {
    var units := st.checkpoints + {chapter};
    st.(checkpoints := units, cursor := CursorAt(LastUnit(units)))
  }

  ghost function AfterCursorRepair(st: Store): Store {
    var last := LastUnit(st.checkpoints);
    if last.Some? then st.(cursor := CursorAt(last)) else st
  }

  // ---------- the task row ----------

  predicate Terminal(s: Status) {
    s in {Completed, Failed, Cancelled}
  }

  /** `finalize_task`: a requeued, paused or finished task ignores a late worker. */
  function AfterFinalize(st: Store, final: Status): Store {
    if Terminal(st.status) && Terminal(final) then st
    else if st.status !in {Running, Dispatching} then st
    else st.(status := final, owner := None)
  }

  /** The scheduler's and the user's operations on the row. */
  datatype SchedulerOp =
    | Dispatch(id: int) | Repair | Reclaim | Abandon | Pause | Resume | Cancel

  function AfterScheduler(st: Store, op: SchedulerOp): Store {
    match op
    case Dispatch(id) => if st.status == Queued then st.(status := Dispatching, owner := Some(id)) else st
    case Repair => if st.status == Dispatching && st.owner.Some? then st.(status := Running) else st
    case Reclaim => if st.status in {Dispatching, Running} then st.(status := Queued, owner := None) else st
    case Abandon => if st.status in {Dispatching, Running} then st.(status := Failed, owner := None) else st
    case Pause => if st.status in {Queued, Dispatching, Running} then st.(status := Paused, owner := None) else st
    case Resume => if st.status in {Paused, Failed} then st.(status := Queued, owner := None) else st
    case Cancel => if Terminal(st.status) then st else st.(status := Cancelled, owner := None)
  }

  function AfterSchedulerOps(st: Store, ops: seq<SchedulerOp>): Store {
    if ops == [] then st else AfterScheduler(AfterSchedulerOps(st, ops[..|ops| - 1]), ops[|ops| - 1])
  }

  predicate OwnedByOther(st: Store, id: int) {
    st.owner.Some? && st.owner.value != id
  }

  // ---------- the worker ----------

  /** Where a worker is. Each value names the next database step it takes. */
  datatype Pc =
    | Spawned
    | Resolving
    | AtCheck(chapter: int)
    | AtState(chapter: int)
    | Writing(chapter: int)
    | Checkpointing(chapter: int)
    | Advancing(chapter: int)
    | Publishing
    | Stopping(final: Status)
    | Repairing(final: Status)
    | Finalizing(final: Status)
    | Gone

  /** `_activate_creation_task` followed by `mark_task_running`. */
  function ActivatedPc(st: Store, id: int): Pc {
    if OwnedByOther(st, id) then Gone
    else if st.status == Cancelled then Stopping(Cancelled)
    else if st.status == Paused then Stopping(Paused)
    else if st.status !in {Dispatching, Running} || st.owner != Some(id) then Stopping(Failed)
    else Resolving
  }

  /** One step of a worker: the new durable state and the next step. */
  ghost function WorkerStep(span: Span, id: int, st: Store, pc: Pc): (Store, Pc) {
    match pc
    case Spawned =>
      var next := ActivatedPc(st, id);
      (if next == Resolving then st.(status := Running) else st, next)
    case Resolving =>
      var resume := ResumeFrom(span, LastUnit(InSpan(st.checkpoints, span)));
      (AfterResolve(span, st), if resume > span.to then Finalizing(Completed) else AtCheck(resume))
    case AtCheck(c) => (st, if OwnedByOther(st, id) then Gone else AtState(c))
    case AtState(c) =>
      (st,
       if st.status == Cancelled then Stopping(Cancelled)
       else if st.status == Paused then Stopping(Paused)
       else Writing(c))
    case Writing(c) => (st.(chapters := st.chapters + {c}), Checkpointing(c))
    case Checkpointing(c) => (AfterCheckpoint(st, c), Advancing(c))
    case Advancing(c) => (st, if c < span.to then AtCheck(c + 1) else Publishing)
    case Publishing => (st.(published := true), Finalizing(Completed))
    case Stopping(final) => (st, Repairing(final))
    case Repairing(final) => (AfterCursorRepair(st), Finalizing(final))
    case Finalizing(final) => (AfterFinalize(st, final), Gone)
    case Gone => (st, Gone)
  }

  /** Where an exception in a step leaves a worker: the step's transaction has no effect. */
  function RaisedPc(pc: Pc): Pc {
    match pc
    case Stopping(final) => Gone
    case Repairing(final) => Finalizing(final)
    case Finalizing(final) => if final == Completed then Stopping(Failed) else Gone
    case Gone => Gone
    case _ => Stopping(Failed)
  }

  /** What happens around a worker's next step: scheduler operations just before it, and whether the
      step raises. */
  datatype Around = Around(before: seq<SchedulerOp>, raises: bool)

  ghost function StepAround(span: Span, id: int, around: Around, s: Store, pc: Pc): (Store, Pc) {
    var before := AfterSchedulerOps(s, around.before);
    if around.raises then (before, RaisedPc(pc)) else WorkerStep(span, id, before, pc)
  }

  /** A worker's first k steps, with scheduler operations before each of them. */
  ghost function RunWorker(span: Span, id: int, st: Store, env: nat -> Around, k: nat): (Store, Pc) {
    if k == 0 then (st, Spawned)
    else
      var (s, pc) := RunWorker(span, id, st, env, k - 1);
      StepAround(span, id, env(k - 1), s, pc)
  }

  /** The k-th step of `run` is a step of the worker. */
  ghost predicate Follows(run: nat -> (Store, Pc), span: Span, id: int, env: nat -> Around, k: nat) {
    run(k + 1) == StepAround(span, id, env(k), run(k).0, run(k).1)
  }

  ghost predicate IsRun(run: nat -> (Store, Pc), span: Span, id: int, env: nat -> Around) {
    forall k: nat :: Follows(run, span, id, env, k)
  }

  /** The durable rows as the mutable objects the worker's transactions update. */
  class TaskStore {
    var status: Status
    var owner: Option<int>
    var checkpoints: set<int>
    var chapters: set<int>
    var cursor: Cursor
    var published: bool

    function View(): Store
      reads this
    {
      Store(status, owner, checkpoints, chapters, cursor, published)
    }

    method Schedule(ops: seq<SchedulerOp>)
      modifies this
      ensures View() == AfterSchedulerOps(old(View()), ops)
    {
      for i := 0 to |ops|
        invariant View() == AfterSchedulerOps(old(View()), ops[..i])
      {
        assert ops[..i + 1][..i] == ops[..i];
        match ops[i] {
          case Dispatch(id) => if status == Queued { status, owner := Dispatching, Some(id); }
          case Repair => if status == Dispatching && owner.Some? { status := Running; }
          case Reclaim => if status in {Dispatching, Running} { status, owner := Queued, None; }
          case Abandon => if status in {Dispatching, Running} { status, owner := Failed, None; }
          case Pause => if status in {Queued, Dispatching, Running} { status, owner := Paused, None; }
          case Resume => if status in {Paused, Failed} { status, owner := Queued, None; }
          case Cancel => if !Terminal(status) { status, owner := Cancelled, None; }
        }
      }
      assert ops[..|ops|] == ops;
    }

    /** `_resolve_rewrite_resume`. */
    method ResolveResume(span: Span) returns (resume: int)
      modifies this`cursor
      ensures View() == AfterResolve(span, old(View()))
      ensures resume == ResumeFrom(span, LastUnit(InSpan(checkpoints, span)))
    {
      var last := GetLastCompleted(InSpan(checkpoints, span));
      resume := ResumeFrom(span, last);
      cursor := Cursor(last, Some(resume));
    }

    /** `_mark_rewrite_checkpoint`. */
    method MarkCheckpoint(chapter: int)
      modifies this`checkpoints, this`cursor
      ensures View() == AfterCheckpoint(old(View()), chapter)
    {
      checkpoints := checkpoints + {chapter};
      var last := GetLastCompleted(checkpoints);
      cursor := Cursor(last, Some(if last.Some? then last.value + 1 else 1));
    }

    /** `finalize_task`. */
    method Finalize(final: Status)
      modifies this`status, this`owner
      ensures View() == AfterFinalize(old(View()), final)
    {
      if Terminal(status) && Terminal(final) { return; }
      if status !in {Running, Dispatching} { return; }
      status, owner := final, None;
    }

    /** The cursor repair of the exception handler. */
    method RepairCursor()
      modifies this`cursor
      ensures View() == AfterCursorRepair(old(View()))
    {
      var last := GetLastCompleted(checkpoints);
      if last.Some? {
        cursor := Cursor(last, Some(last.value + 1));
      }
    }
  }

  /** The exception handler around the worker's body: commit the failure of the request, repair the
      cursor, then finalize. It swallows exceptions of the last two; one of the first ends the worker. */
  method StopWith(store: TaskStore, span: Span, id: int, ghost run: nat -> (Store, Pc), env: nat -> Around, k: nat,
                  final: Status)
    returns (ghost steps: nat)
    requires IsRun(run, span, id, env) && final != Completed && (store.View(), Stopping(final)) == run(k)
    modifies store
    ensures steps == if env(k).raises then k + 1 else k + 3
    ensures (store.View(), Gone) == run(steps)
  {
    assert Follows(run, span, id, env, k);
    store.Schedule(env(k).before);
    if env(k).raises {
      return k + 1;
    }
    steps := k + 3;
    Repair(store, span, id, run, env, k + 1, final);
    assert Follows(run, span, id, env, k + 2);
    store.Schedule(env(k + 2).before);
    if !env(k + 2).raises {
      store.Finalize(final);
    }
  }

  /** The repair of the cursor in the handler. */
  method Repair(store: TaskStore, span: Span, id: int, ghost run: nat -> (Store, Pc), env: nat -> Around, k: nat,
                ghost final: Status)
    requires IsRun(run, span, id, env) && (store.View(), Repairing(final)) == run(k)
    modifies store
    ensures (store.View(), Finalizing(final)) == run(k + 1)
  {
    assert Follows(run, span, id, env, k);
    store.Schedule(env(k).before);
    if !env(k).raises {
      store.RepairCursor();
    }
  }

  /** The first half of the loop head: leave if a newer worker took over. */
  method CheckSuperseded(
      store: TaskStore, span: Span, id: int, ghost run: nat -> (Store, Pc), env: nat -> Around, k: nat, chapter: int)
    returns (exited: bool, ghost steps: nat)
    requires IsRun(run, span, id, env) && (store.View(), AtCheck(chapter)) == run(k)
    modifies store
    ensures exited ==> (store.View(), Gone) == run(steps)
    ensures !exited ==> (store.View(), AtState(chapter)) == run(k + 1)
  {
    assert Follows(run, span, id, env, k);
    store.Schedule(env(k).before);
    if env(k).raises {
      steps := StopWith(store, span, id, run, env, k + 1, Failed);
      return true, steps;
    }
    exited, steps := OwnedByOther(store.View(), id), k + 1;
  }

  /** The second half: leave if the task was paused or cancelled. */
  method CheckStopped(
      store: TaskStore, span: Span, id: int, ghost run: nat -> (Store, Pc), env: nat -> Around, k: nat, chapter: int)
    returns (exited: bool, ghost steps: nat)
    requires IsRun(run, span, id, env) && (store.View(), AtState(chapter)) == run(k)
    modifies store
    ensures exited ==> (store.View(), Gone) == run(steps)
    ensures !exited ==> (store.View(), Writing(chapter)) == run(k + 1)
  {
    assert Follows(run, span, id, env, k);
    store.Schedule(env(k).before);
    if env(k).raises {
      steps := StopWith(store, span, id, run, env, k + 1, Failed);
      return true, steps;
    }
    if store.status == Cancelled || store.status == Paused {
      steps := StopWith(store, span, id, run, env, k + 1, store.status);
      return true, steps;
    }
    exited, steps := false, k + 1;
  }

  /** Rewrite the chapter and commit its row. */
  method CommitChapter(
      store: TaskStore, span: Span, id: int, ghost run: nat -> (Store, Pc), env: nat -> Around, k: nat, chapter: int)
    returns (exited: bool, ghost steps: nat)
    requires IsRun(run, span, id, env) && (store.View(), Writing(chapter)) == run(k)
    modifies store
    ensures exited ==> (store.View(), Gone) == run(steps)
    ensures !exited ==> (store.View(), Checkpointing(chapter)) == run(k + 1)
  {
    assert Follows(run, span, id, env, k);
    store.Schedule(env(k).before);
    if env(k).raises {
      steps := StopWith(store, span, id, run, env, k + 1, Failed);
      return true, steps;
    }
    store.chapters := store.chapters + {chapter};
    exited, steps := false, k + 1;
  }

  /** Checkpoint the committed chapter. */
  method Checkpoint(
      store: TaskStore, span: Span, id: int, ghost run: nat -> (Store, Pc), env: nat -> Around, k: nat, chapter: int)
    returns (exited: bool, ghost steps: nat)
    requires IsRun(run, span, id, env) && (store.View(), Checkpointing(chapter)) == run(k)
    modifies store
    ensures exited ==> (store.View(), Gone) == run(steps)
    ensures !exited ==> (store.View(), Advancing(chapter)) == run(k + 1)
  {
    assert Follows(run, span, id, env, k);
    store.Schedule(env(k).before);
    if env(k).raises {
      steps := StopWith(store, span, id, run, env, k + 1, Failed);
      return true, steps;
    }
    store.MarkCheckpoint(chapter);
    exited, steps := false, k + 1;
  }

  /** Report progress and go on. */
  method Advance(store: TaskStore, span: Span, id: int, ghost run: nat -> (Store, Pc), env: nat -> Around, k: nat,
                 chapter: int)
    returns (exited: bool, ghost steps: nat)
    requires IsRun(run, span, id, env) && (store.View(), Advancing(chapter)) == run(k)
    modifies store
    ensures exited ==> (store.View(), Gone) == run(steps)
    ensures !exited ==>
      (store.View(), if chapter < span.to then AtCheck(chapter + 1) else Publishing) == run(k + 1)
  {
    assert Follows(run, span, id, env, k);
    store.Schedule(env(k).before);
    if env(k).raises {
      steps := StopWith(store, span, id, run, env, k + 1, Failed);
      return true, steps;
    }
    exited, steps := false, k + 1;
  }

  /** Finalize the task as completed; if that raises, the handler takes over. */
  method Complete(store: TaskStore, span: Span, id: int, ghost run: nat -> (Store, Pc), env: nat -> Around, k: nat)
    returns (ghost steps: nat)
    requires IsRun(run, span, id, env) && (store.View(), Finalizing(Completed)) == run(k)
    modifies store
    ensures (store.View(), Gone) == run(steps)
  {
    assert Follows(run, span, id, env, k);
    store.Schedule(env(k).before);
    if env(k).raises {
      steps := StopWith(store, span, id, run, env, k + 1, Failed);
      return;
    }
    store.Finalize(Completed);
    steps := k + 1;
  }

  /** After the last chapter: make the target version the default and complete the task. */
  method Publish(store: TaskStore, span: Span, id: int, ghost run: nat -> (Store, Pc), env: nat -> Around, k: nat)
    returns (ghost steps: nat)
    requires IsRun(run, span, id, env) && (store.View(), Publishing) == run(k)
    modifies store
    ensures (store.View(), Gone) == run(steps)
  {
    assert Follows(run, span, id, env, k);
    store.Schedule(env(k).before);
    if env(k).raises {
      steps := StopWith(store, span, id, run, env, k + 1, Failed);
      return;
    }
    store.published := true;
    steps := Complete(store, span, id, run, env, k + 1);
  }

  /** `_activate_creation_task`: bind the row, or leave. */
  method Activate(store: TaskStore, span: Span, id: int, ghost run: nat -> (Store, Pc), env: nat -> Around)
    returns (exited: bool, ghost steps: nat)
    requires IsRun(run, span, id, env) && run(0) == (store.View(), Spawned)
    modifies store
    ensures exited ==> (store.View(), Gone) == run(steps)
    ensures !exited ==> (store.View(), Resolving) == run(1)
  {
    assert Follows(run, span, id, env, 0);
    store.Schedule(env(0).before);
    if env(0).raises {
      steps := StopWith(store, span, id, run, env, 1, Failed);
      return true, steps;
    }
    if OwnedByOther(store.View(), id) {
      return true, 1;
    }
    if store.status == Cancelled || store.status == Paused {
      steps := StopWith(store, span, id, run, env, 1, store.status);
      return true, steps;
    }
    if store.status !in {Dispatching, Running} || store.owner != Some(id) {
      steps := StopWith(store, span, id, run, env, 1, Failed);
      return true, steps;
    }
    store.status := Running;
    exited, steps := false, 1;
  }

  /** The start of a worker: bind the row, then plan the first chapter from the checkpoints. */
  method Begin(store: TaskStore, span: Span, id: int, ghost run: nat -> (Store, Pc), env: nat -> Around)
    returns (exited: bool, chapter: int, ghost steps: nat)
    requires IsRun(run, span, id, env) && run(0) == (store.View(), Spawned)
    modifies store
    ensures exited ==> (store.View(), Gone) == run(steps)
    ensures !exited ==>
      (store.View(), if chapter <= span.to then AtCheck(chapter) else Finalizing(Completed)) == run(2)
  {
    chapter := span.from;
    exited, steps := Activate(store, span, id, run, env);
    if exited {
      return;
    }
    assert Follows(run, span, id, env, 1);
    store.Schedule(env(1).before);
    if env(1).raises {
      steps := StopWith(store, span, id, run, env, 2, Failed);
      return true, chapter, steps;
    }
    chapter := store.ResolveResume(span);
    exited, steps := false, 2;
  }

  /** One iteration of the chapter loop. */
  method RewriteChapter(
      store: TaskStore, span: Span, id: int, ghost run: nat -> (Store, Pc), env: nat -> Around, k: nat, chapter: int)
    returns (exited: bool, ghost steps: nat)
    requires IsRun(run, span, id, env) && (store.View(), AtCheck(chapter)) == run(k)
    modifies store
    ensures exited ==> (store.View(), Gone) == run(steps)
    ensures !exited ==>
      (store.View(), if chapter < span.to then AtCheck(chapter + 1) else Publishing) == run(k + 5)
  {
    exited, steps := CheckSuperseded(store, span, id, run, env, k, chapter);
    if exited {
      return;
    }
    exited, steps := CheckStopped(store, span, id, run, env, k + 1, chapter);
    if exited {
      return;
    }
    exited, steps := CommitChapter(store, span, id, run, env, k + 2, chapter);
    if exited {
      return;
    }
    exited, steps := Checkpoint(store, span, id, run, env, k + 3, chapter);
    if exited {
      return;
    }
    exited, steps := Advance(store, span, id, run, env, k + 4, chapter);
  }

  /** `submit_rewrite_task`: one worker from delivery to exit, with arbitrary scheduler operations
      before each of its steps and an exception in any of them. It performs exactly the steps of the
      worker program, up to its end. */
  method SubmitRewriteTask(store: TaskStore, span: Span, id: int, env: nat -> Around) returns (ghost steps: nat)
    modifies store
    ensures (store.View(), Gone) == RunWorker(span, id, old(store.View()), env, steps)
  {
    ghost var run := (k: nat) => RunWorker(span, id, old(store.View()), env, k);
    assert IsRun(run, span, id, env) by {
      forall k: nat ensures Follows(run, span, id, env, k)
      {
      }
    }
    var exited, chapter;
    exited, chapter, steps := Begin(store, span, id, run, env);
    if exited {
      return;
    }
    if chapter > span.to {
      steps := Complete(store, span, id, run, env, 2);
      return;
    }
    var k := 2;
    while chapter <= span.to
      invariant (store.View(), if chapter <= span.to then AtCheck(chapter) else Publishing) == run(k)
      decreases span.to - chapter
    {
      exited, steps := RewriteChapter(store, span, id, run, env, k, chapter);
      if exited {
        return;
      }
      chapter := chapter + 1;
      k := k + 5;
    }
    steps := Publish(store, span, id, run, env, k);
  }
}
