/**
 Token totals of one task over all the workers that ever ran it: each begins from the totals
 stored on the task row, reports progress, and stores its totals when it ends.
 */
module UsageChain {
  import opened LlmUsage
  import opened Numbers
  import opened Options

  /** The token fields of the row's result; 0 stands for a missing one. */
  datatype Stored = Stored(input: int, output: int, billable: int)

  const NOTHING := Stored(0, 0, 0)

  function Amount(t: Totals): Stored {
    Stored(t.input, t.output, t.billable)
  }

  function Add(a: Stored, b: Stored): Stored {
    Stored(a.input + b.input, a.output + b.output, a.billable + b.billable)
  }

  // ---------- what a worker does to the row ----------

  function FreshSession(row: Stored): Session {
    Session(Baseline(row.input, row.output, Some(Max(row.billable, row.input + row.output))), 0, map[])
  }

  /** `update_task_progress` never lowers a stored total. */
  function AfterProgress(row: Stored, now: Stored): Stored {
    var input, output := Max(row.input, now.input), Max(row.output, now.output);
    Stored(input, output, Max(Max(row.billable, now.billable), input + output))
  }

  /** The summary written at the end replaces the stored totals; without a session it is all zero. */
  function Summary(session: Option<Session>): Stored {
    if session.None? then NOTHING
    else
      var t := session.value.totals;
      Stored(t.input, t.output, OrElse(t.billable, t.input + t.output))
  }

  /** What `snapshot_usage` shows of the running session. */
  function Shown(session: Option<Session>): Stored {
    if session.None? then NOTHING else Amount(session.value.totals)
  }

  class TaskUsage {
    const context: UsageContext
    var row: Stored

    constructor (context: UsageContext)
      ensures this.context == context && row == NOTHING
    {
      this.context := context;
      row := NOTHING;
    }

    /** `_load_prior_tokens` and the session that starts from them. */
    method BeginWorker()
      modifies context`session
      ensures context.session == Some(FreshSession(row))
    {
      var input, output := row.input, row.output;
      var billable := Max(row.billable, input + output);
      context.BeginUsageSession(input, output, Some(billable));
    }

    /** `_update_creation_progress`. */
    method ReportProgress()
      modifies this`row
      ensures row == AfterProgress(old(row), Shown(context.session))
    {
      var now := if context.session.Some? then Amount(context.session.value.totals) else NOTHING;
      row := Stored(Max(row.input, now.input), Max(row.output, now.output), row.billable);
      row := row.(billable := Max(Max(row.billable, now.billable), row.input + row.output));
    }

    /** The end of a worker: store the summary unless the commit fails, and end the session. */
    method EndWorker(commits: bool)
      modifies this`row, context`session
      ensures row == if commits then Summary(old(context.session)) else old(row)
      ensures context.session == None
    {
      var session := context.EndUsageSession();
      if commits {
        row := NOTHING;
        if session.Some? {
          var t := session.value.totals;
          row := Stored(t.input, t.output, if t.billable != 0 then t.billable else t.input + t.output);
        }
      }
    }
  }

  // ---------- histories ----------

  /** What the workers of a task do, one worker at a time. `End(false)` is an end that does not
      reach the row: the worker died, was superseded, or its last commit failed. */
  datatype Op = Begin | Record(call: Call) | Progress | End(commits: bool)

  /** The row and the running session, and what became of all recorded tokens: `pending` since the
      row last saw the session, or `lost` for good. */
  datatype State = State(row: Stored, session: Option<Session>, recorded: Stored, pending: Stored, lost: Stored)

  const START := State(NOTHING, None, NOTHING, NOTHING, NOTHING)

  /** Lost is the pending part of a worker that dies, is superseded or replaced, and the whole row
      when a worker stores its summary without ever having begun its session. */
  function Step(s: State, op: Op): State {
    match op
    case Begin => s.(session := Some(FreshSession(s.row)), pending := NOTHING, lost := Add(s.lost, s.pending))
    case Record(c) =>
      if s.session.None? then s
      else
        var d := Amount(Delta(c.tokens));
        s.(session := Some(AfterRecord(s.session.value, c)),
           recorded := Add(s.recorded, d), pending := Add(s.pending, d))
    case Progress => s.(row := AfterProgress(s.row, Shown(s.session)), pending := NOTHING)
    case End(commits) =>
      if !commits then s.(session := None, pending := NOTHING, lost := Add(s.lost, s.pending))
      else s.(row := Summary(s.session), session := None, pending := NOTHING,
              lost := if s.session.None? then Add(s.lost, s.row) else s.lost)
  }

  function Run(ops: seq<Op>): State {
    if ops == [] then START else Step(Run(ops[..|ops| - 1]), ops[|ops| - 1])
  }

  predicate Consistent(s: Stored) {
    s.input >= 0 && s.output >= 0 && s.billable >= s.input + s.output
  }

  /** Calls report counts. */
  predicate Counting(op: Op) {
    op.Record? ==> Consistent(Amount(Delta(op.call.tokens)))
  }

  /** A recorded call comes from a response that reports no negative number of visible tokens. */
  ghost predicate Reported(op: Op) {
    op.Record? ==>
      exists r :: op.call.tokens == ExtractUsage(r) && 0 <= ExtractUsage(r).input && 0 <= ExtractUsage(r).output
  }

  lemma ReportedCounts(op: Op)
    requires Reported(op)
    ensures Counting(op)
  {
  }

  /** Every token is accounted for. */
  predicate Balanced(s: State) {
    && s.row.input + s.pending.input + s.lost.input == s.recorded.input
    && s.row.output + s.pending.output + s.lost.output == s.recorded.output
    && s.row.billable + s.pending.billable + s.lost.billable == s.recorded.billable
    && Consistent(s.row) && Consistent(s.pending)
    && (s.session.Some? ==> Amount(s.session.value.totals) == Add(s.row, s.pending))
    && (s.session.None? ==> s.pending == NOTHING)
  }

  lemma FreshSessionContinues(row: Stored)
    requires Consistent(row)
    ensures Amount(FreshSession(row).totals) == row
  {
  }

  lemma ProgressCatchesUp(row: Stored, pending: Stored)
    requires Consistent(row) && Consistent(pending)
    ensures AfterProgress(row, Add(row, pending)) == Add(row, pending)
    ensures AfterProgress(row, NOTHING) == row
  {
  }

  lemma SummaryIsShown(session: Option<Session>)
    requires Consistent(Shown(session))
    ensures Summary(session) == Shown(session)
  {
  }

  lemma BeginKeepsBalance(s: State)
    requires Balanced(s)
    ensures Balanced(Step(s, Begin))
  {
    FreshSessionContinues(s.row);
  }

  lemma RecordKeepsBalance(s: State, c: Call)
    requires Balanced(s) && Counting(Record(c))
    ensures Balanced(Step(s, Record(c)))
  {
  }

  lemma ProgressKeepsBalance(s: State)
    requires Balanced(s)
    ensures Balanced(Step(s, Progress))
  {
    ProgressCatchesUp(s.row, s.pending);
  }

  lemma EndKeepsBalance(s: State, commits: bool)
    requires Balanced(s)
    ensures Balanced(Step(s, End(commits)))
  {
    assert Consistent(Add(s.row, s.pending));
    SummaryIsShown(s.session);
  }

  lemma StepKeepsBalance(s: State, op: Op)
    requires Balanced(s) && Counting(op)
    ensures Balanced(Step(s, op))
  {
    match op
    case Begin => BeginKeepsBalance(s);
    case Record(c) => RecordKeepsBalance(s, c);
    case Progress => ProgressKeepsBalance(s);
    case End(commits) => EndKeepsBalance(s, commits);
  }

  lemma {:induction false} RunIsBalanced(ops: seq<Op>)
    requires forall op :: op in ops ==> Counting(op)
    ensures Balanced(Run(ops))
  {
    if ops != [] {
      assert ops[|ops| - 1] in ops;
      RunIsBalanced(ops[..|ops| - 1]);
      StepKeepsBalance(Run(ops[..|ops| - 1]), ops[|ops| - 1]);
    }
  }

  /** For every history of workers, whatever responses they record: row, pending and lost tokens add up
      to all per-call deltas. */
  lemma StoredPlusPendingPlusLostIsRecorded(ops: seq<Op>)
    requires forall op :: op in ops ==> Reported(op)
    ensures Balanced(Run(ops))
  {
    forall op | op in ops ensures Counting(op)
    {
      ReportedCounts(op);
    }
    RunIsBalanced(ops);
  }

  // ---------- when nothing is lost ----------

  /** The operation drops no token: nobody is replaced or dies with something pending, and no worker
      that never began its session stores a summary over a row that holds something. */
  predicate DropsNothing(s: State, op: Op) {
    match op
    case Begin => s.pending == NOTHING
    case End(commits) => if commits then s.session.Some? || s.row == NOTHING else s.pending == NOTHING
    case _ => true
  }

  predicate NeverDrops(ops: seq<Op>) {
    ops == [] || (NeverDrops(ops[..|ops| - 1]) && DropsNothing(Run(ops[..|ops| - 1]), ops[|ops| - 1]))
  }

  predicate Lossless(s: State) {
    s.lost == NOTHING
  }

  predicate LostIsCounted(s: State) {
    s.lost.input >= 0 && s.lost.output >= 0 && s.lost.billable >= 0
  }

  /** What the operation adds to the lost tokens. */
  function Dropped(s: State, op: Op): Stored {
    match op
    case Begin => s.pending
    case End(commits) => if !commits then s.pending else if s.session.None? then s.row else NOTHING
    case _ => NOTHING
  }

  lemma DroppedIsNothingIff(s: State, op: Op)
    requires Balanced(s)
    ensures Consistent(Dropped(s, op))
    ensures DropsNothing(s, op) <==> Dropped(s, op) == NOTHING
  {
    match op
    case Begin =>
    case Record(c) =>
    case Progress =>
    case End(commits) =>
  }

  lemma StepAddsDropped(s: State, op: Op)
    ensures var t, d := Step(s, op).lost, Dropped(s, op);
      && t.input == s.lost.input + d.input && t.output == s.lost.output + d.output
      && t.billable == s.lost.billable + d.billable
  {
    match op
    case Begin =>
    case Record(c) =>
    case Progress =>
    case End(commits) =>
  }

  lemma SumIsZeroIff(a: Stored, b: Stored, sum: Stored)
    requires a.input >= 0 && a.output >= 0 && a.billable >= 0 && Consistent(b)
    requires sum.input == a.input + b.input && sum.output == a.output + b.output
    requires sum.billable == a.billable + b.billable
    ensures sum == NOTHING <==> a == NOTHING && b == NOTHING
  {
  }

  lemma {:induction false} RunIsLosslessIff(ops: seq<Op>)
    requires forall op :: op in ops ==> Counting(op)
    ensures LostIsCounted(Run(ops))
    ensures Lossless(Run(ops)) <==> NeverDrops(ops)
  {
    if ops != [] {
      var earlier, op := ops[..|ops| - 1], ops[|ops| - 1];
      RunIsLosslessIff(earlier);
      RunIsBalanced(earlier);
      DroppedIsNothingIff(Run(earlier), op);
      StepAddsDropped(Run(earlier), op);
      SumIsZeroIff(Run(earlier).lost, Dropped(Run(earlier), op), Run(ops).lost);
    }
  }

  lemma RowIsRecordedIff(s: State)
    requires Balanced(s) && s.session.None?
    ensures s.row == s.recorded <==> Lossless(s)
  {
  }

  /** Between two workers the row holds exactly the sums over all calls if and only if no operation
      so far dropped a token. */
  lemma RowIsExactIff(ops: seq<Op>)
    requires forall op :: op in ops ==> Reported(op)
    requires Run(ops).session.None?
    ensures Run(ops).row == Run(ops).recorded <==> NeverDrops(ops)
  {
    forall op | op in ops ensures Counting(op)
    {
      ReportedCounts(op);
    }
    RunIsBalanced(ops);
    RunIsLosslessIff(ops);
    RowIsRecordedIff(Run(ops));
  }

  /** A worker begins only after the one before it ended, and stores its totals when it ends. */
  predicate CleanStep(s: State, op: Op) {
    match op
    case Begin => s.session.None?
    case End(commits) => s.session.Some? && commits
    case _ => true
  }

  predicate Clean(ops: seq<Op>) {
    ops == [] || (Clean(ops[..|ops| - 1]) && CleanStep(Run(ops[..|ops| - 1]), ops[|ops| - 1]))
  }

  lemma {:induction false} CleanNeverDrops(ops: seq<Op>)
    requires Clean(ops) && forall op :: op in ops ==> Counting(op)
    ensures NeverDrops(ops)
  {
    if ops != [] {
      CleanNeverDrops(ops[..|ops| - 1]);
      RunIsBalanced(ops[..|ops| - 1]);
    }
  }

  /** In particular over a chain of cleanly ended workers. */
  lemma CleanChainsAreExact(ops: seq<Op>)
    requires Clean(ops) && forall op :: op in ops ==> Reported(op)
    requires Run(ops).session.None?
    ensures Run(ops).row == Run(ops).recorded
  {
    forall op | op in ops ensures Counting(op)
    {
      ReportedCounts(op);
    }
    CleanNeverDrops(ops);
    RowIsExactIff(ops);
  }

  /** A worker that fails before it begins its session wipes the totals of all workers before it. */
  lemma EndWithoutBeginWipesTheRow(ops: seq<Op>)
    requires forall op :: op in ops ==> Reported(op)
    requires Run(ops).session.None?
    ensures var s := Run(ops + [End(true)]); s.row == NOTHING && s.lost == s.recorded == Run(ops).recorded
  {
    assert (ops + [End(true)])[..|ops|] == ops;
    StoredPlusPendingPlusLostIsRecorded(ops);
    EndWithoutBegin(Run(ops));
  }

  lemma EndWithoutBegin(s: State)
    requires Balanced(s) && s.session.None?
    ensures var t := Step(s, End(true)); t.row == NOTHING && t.lost == t.recorded == s.recorded
  {
  }

  // ---------- in terms of the responses ----------

  /** What the workers do, with the responses that they record. */
  datatype Told = Begins | Hears(r: Response, stage: string) | Reports | Stops(commits: bool)

  function OpOf(t: Told): Op {
    match t
    case Begins => Begin
    case Hears(r, stage) => Record(CallOf(r, stage))
    case Reports => Progress
    case Stops(commits) => End(commits)
  }

  function OpsOf(told: seq<Told>): seq<Op> {
    if told == [] then [] else OpsOf(told[..|told| - 1]) + [OpOf(told[|told| - 1])]
  }

  /** A worker has begun its session and not ended it. */
  predicate IsOn(told: seq<Told>) {
    told != [] &&
    match told[|told| - 1]
    case Begins => true
    case Stops(commits) => false
    case _ => IsOn(told[..|told| - 1])
  }

  /** The sum over all responses that a worker heard in its session. */
  function SumTold(told: seq<Told>, f: Response -> int): int {
    if told == [] then 0
    else
      var earlier := told[..|told| - 1];
      SumTold(earlier, f) + if told[|told| - 1].Hears? && IsOn(earlier) then f(told[|told| - 1].r) else 0
  }

  /** What one operation records, and whether a session runs after it. */
  lemma StepHears(s: State, t: Told)
    ensures var after := Step(s, OpOf(t));
      && (after.session.Some? <==> t.Begins? || (!t.Stops? && s.session.Some?))
      && after.recorded.input == s.recorded.input + (if t.Hears? && s.session.Some? then InputOf(t.r) else 0)
      && after.recorded.output == s.recorded.output + (if t.Hears? && s.session.Some? then OutputOf(t.r) else 0)
  {
    match t
    case Begins =>
    case Hears(r, stage) => ExtractsThePlace(r);
    case Reports =>
    case Stops(commits) =>
  }

  lemma RunOneMore(ops: seq<Op>, op: Op)
    ensures Run(ops + [op]) == Step(Run(ops), op)
  {
    assert (ops + [op])[..|ops|] == ops;
  }

  /** What is recorded is what the responses report as input and as output. */
  lemma {:induction false} RecordedIsTold(told: seq<Told>)
    ensures var s := Run(OpsOf(told));
      && (s.session.Some? <==> IsOn(told))
      && s.recorded.input == SumTold(told, InputOf) && s.recorded.output == SumTold(told, OutputOf)
  {
    if told != [] {
      var earlier, t := told[..|told| - 1], told[|told| - 1];
      RecordedIsTold(earlier);
      RunOneMore(OpsOf(earlier), OpOf(t));
      StepHears(Run(OpsOf(earlier)), t);
    }
  }

  /** So between two workers the row holds the sums of the reported inputs and outputs, if no operation
      dropped a token. */
  lemma RowHoldsWhatWasTold(told: seq<Told>)
    requires forall op :: op in OpsOf(told) ==> Reported(op)
    requires !IsOn(told) && NeverDrops(OpsOf(told))
    ensures var row := Run(OpsOf(told)).row;
      row.input == SumTold(told, InputOf) && row.output == SumTold(told, OutputOf)
  {
    RecordedIsTold(told);
    RowIsExactIff(OpsOf(told));
  }

  // ---------- reports ----------

  predicate AtMost(a: Stored, b: Stored) {
    a.input <= b.input && a.output <= b.output && a.billable <= b.billable
  }

  /** A report lowers no stored total, stores at least what the session shows, and no more than needed for
      both: it is the least consistent row above them. */
  lemma ReportIsTheLeastAbove(row: Stored, now: Stored, bound: Stored)
    ensures AtMost(row, AfterProgress(row, now)) && AtMost(now, AfterProgress(row, now))
    ensures AtMost(row, bound) && AtMost(now, bound) && bound.billable >= bound.input + bound.output ==>
              AtMost(AfterProgress(row, now), bound)
    ensures AfterProgress(row, now).billable >= AfterProgress(row, now).input + AfterProgress(row, now).output
  {
  }
}
