/**
 What one run of the generation pipeline writes into the runtime state: the nodes of its graph that
 persist it, in any order the graph can take them, each write possibly failing unnoticed.
 */
module GenerationPipeline {
  import opened ClosurePolicy
  import opened GenerationResume
  import opened GenerationRetry
  import opened GenerationSegments
  import opened Numbers
  import opened Options
  import opened SegmentCoverage

  /** The next node that matters; a run that has returned is `Done` with the segment or has `Closed`
      the book. */
  datatype Node = Outline | Confirm | Chapter | Gate | Bridging | Rewinding | Done | Closed

  /** The part of the graph state that the runtime state is written from. */
  datatype Graph = Graph(
    current: int, segStart: int, segEnd: int, bookStart: int, bookEnd: int, volumeNo: int, floor: int,
    lim: Limits, rewrites: nat, bridges: nat, at: Node)

  /** What is not decided by the graph state: whether a write succeeds, whether the outline node writes
      at all, whether the chapter is blocked instead of finalised, and what the closure gate finds open. */
  datatype Choice = Choice(persists: bool, writesOutline: bool, blocked: bool, judgement: Judgement)

  /** `node_init`: resume where the runtime state says, if that is in the segment. */
  function Enter(rt: Runtime, bookStart: int, lim: Limits): Graph {
    var current := if rt.segStart <= rt.next <= rt.segEnd + 1 then rt.next else rt.segStart;
    Graph(current, rt.segStart, rt.segEnd, bookStart, Max(rt.bookEnd, rt.segEnd), rt.volumeNo,
          OrElse(rt.retryFloor, current), lim, 0, 0, Outline)
  }

  /** `persist_resume_runtime_state`, which swallows its own failure. */
  function Saved(rt: Runtime, g: Graph, mode: Mode, next: int, persists: bool): Runtime {
    if persists then Runtime(mode, g.volumeNo, g.segStart, g.segEnd, next, g.bookEnd, g.floor) else rt
  }

  function ChapterOrDone(g: Graph): Graph {
    g.(at := if g.current > g.segEnd then Done else Chapter)
  }

  function StepGraph(g: Graph, rt: Runtime, c: Choice): (Graph, Runtime) {
    match g.at
    case Outline =>
      (g.(at := Confirm), if c.writesOutline then Saved(rt, g, SegmentRunning, g.current, c.persists) else rt)
    case Confirm => (ChapterOrDone(g), rt)
    case Chapter =>
      (g.(current := g.current + 1, at := Gate),
       if !c.blocked && g.current < g.segEnd then Saved(rt, g, SegmentRunning, g.current + 1, c.persists) else rt)
    case Gate => AtGate(g, rt, ActionAt(g, c.judgement), c.persists)
    case Bridging => (ChapterOrDone(g), Saved(rt, g, SegmentRunning, g.current, c.persists))
    case Rewinding =>
      var to := Max(g.segStart, g.current - 2);
      (ChapterOrDone(g.(current := to, rewrites := g.rewrites + 1)), Saved(rt, g, SegmentRunning, to, c.persists))
    case Done => (g, rt)
    case Closed => (g, rt)
  }

  /** The chapters before the current one, counted from the start of the book. */
  function Generated(g: Graph): int {
    Max(0, g.current - g.bookStart)
  }

  /** `build_closure_state`, as far as the action depends on it. */
  function ActionAt(g: Graph, j: Judgement): Action {
    Decide(g.lim, Generated(g), Max(0, g.bookEnd - g.current + 1), g.rewrites, g.bridges, j)
  }

  /** `node_closure_gate`. */
  function AtGate(g: Graph, rt: Runtime, action: Action, persists: bool): (Graph, Runtime) {
    match action
    case Continue => (ChapterOrDone(g), rt)
    case Bridge =>
      var longer := g.(segEnd := g.segEnd + 1, bookEnd := g.bookEnd + 1, bridges := g.bridges + 1, at := Bridging);
      (longer, Saved(rt, longer, SegmentRunning, g.current, persists))
    case Rewind =>
      (g.(at := Rewinding), Saved(rt, g, SegmentRunning, Max(g.segStart, g.current - 2), persists))
    case Finish =>
      var end := Max(g.bookStart, g.current - 1);
      var last := g.(current := end + 1, segEnd := Min(g.segEnd, end), bookEnd := end, at := Closed);
      (last, Saved(rt, last, FinalReviewPending, end + 1, persists))
  }

  function RunGraph(g: Graph, rt: Runtime, choices: seq<Choice>): (Graph, Runtime) {
    if choices == [] then (g, rt)
    else
      var (g', rt') := RunGraph(g, rt, choices[..|choices| - 1]);
      StepGraph(g', rt', choices[|choices| - 1])
  }

  /** The graph and the runtime state at the end of a run of the segment announced as `rt`. */
  function RunSegmentGraph(rt: Runtime, bookStart: int, lim: Limits, choices: seq<Choice>): (Graph, Runtime) {
    RunGraph(Enter(rt, bookStart, lim), rt, choices)
  }

  predicate HasReturned(g: Graph) {
    g.at.Done? || g.at.Closed?
  }

  // ---------- no run moves past its segment ----------

  /** The orchestrator announced a segment around the next chapter. */
  predicate IsAnnounced(rt: Runtime) {
    && rt.mode == SegmentRunning && 1 <= rt.segStart <= rt.next <= rt.segEnd <= rt.bookEnd
    && rt.volumeNo >= 1 && rt.retryFloor != 0
  }

  /** Segment and book grew alike, and the next chapter is in the segment. */
  predicate InStep(rt0: Runtime, rt: Runtime) {
    && rt == rt0.(segEnd := rt.segEnd, next := rt.next, bookEnd := rt.bookEnd)
    && rt.segEnd - rt0.segEnd == rt.bookEnd - rt0.bookEnd >= 0
    && rt.segStart <= rt.next <= rt.segEnd
  }

  /** The graph state agrees with what was announced, but for the chapters added. */
  predicate GraphFits(rt0: Runtime, lim: Limits, g: Graph) {
    && g.segStart == rt0.segStart && g.volumeNo == rt0.volumeNo && g.floor == rt0.retryFloor && g.bookStart >= 1
    && g.lim == lim && g.rewrites <= REWRITES && g.bridges <= lim.maxTotal - lim.target
    && g.segEnd == rt0.segEnd + g.bridges && g.bookEnd == rt0.bookEnd + g.bridges
    && g.segStart <= g.current <= g.segEnd + 1
    && (g.at in {Outline, Confirm, Chapter, Bridging} ==> g.current <= g.segEnd)
    && (g.at == Gate ==> g.segStart < g.current)
    && (g.at == Rewinding ==> g.rewrites < REWRITES && g.segStart < g.current)
    && (g.at == Done ==> g.current == g.segEnd + 1)
  }

  predicate Fits(rt0: Runtime, lim: Limits, g: Graph, rt: Runtime) {
    if g.at == Closed then (rt.mode == FinalReviewPending && rt.next >= 1) || InStep(rt0, rt)
    else InStep(rt0, rt) && GraphFits(rt0, lim, g)
  }

  lemma GateFits(rt0: Runtime, lim: Limits, g: Graph, rt: Runtime, c: Choice)
    requires IsAnnounced(rt0) && AreLimits(lim) && Fits(rt0, lim, g, rt) && g.at == Gate
    ensures var (g', rt') := AtGate(g, rt, ActionAt(g, c.judgement), c.persists); Fits(rt0, lim, g', rt')
  {
    var action := ActionAt(g, c.judgement);
    WhenItActs(lim, Generated(g), Max(0, g.bookEnd - g.current + 1), g.rewrites, g.bridges, c.judgement);
    match action
    case Continue =>
    case Bridge =>
    case Rewind =>
    case Finish =>
  }

  lemma StepFits(rt0: Runtime, lim: Limits, g: Graph, rt: Runtime, c: Choice)
    requires IsAnnounced(rt0) && AreLimits(lim) && Fits(rt0, lim, g, rt)
    ensures var (g', rt') := StepGraph(g, rt, c); Fits(rt0, lim, g', rt')
  {
    match g.at
    case Gate => GateFits(rt0, lim, g, rt, c);
    case Outline =>
    case Confirm =>
    case Chapter =>
    case Bridging =>
    case Rewinding =>
    case Done =>
    case Closed =>
  }

  lemma {:induction false} RunFits(rt: Runtime, bookStart: int, lim: Limits, choices: seq<Choice>)
    requires IsAnnounced(rt) && bookStart >= 1 && AreLimits(lim)
    ensures var (g, after) := RunSegmentGraph(rt, bookStart, lim, choices); Fits(rt, lim, g, after)
  {
    if choices != [] {
      RunFits(rt, bookStart, lim, choices[..|choices| - 1]);
      var (g, after) := RunSegmentGraph(rt, bookStart, lim, choices[..|choices| - 1]);
      StepFits(rt, lim, g, after, choices[|choices| - 1]);
    }
  }

  /** A run of the pipeline as the loop sees it. */
  function PipelineRun(rt: Runtime, bookStart: int, lim: Limits, choices: seq<Choice>): SegmentRun
    requires IsAnnounced(rt) && bookStart >= 1 && AreLimits(lim)
  {
    var after := RunSegmentGraph(rt, bookStart, lim, choices).1;
    if after.mode == FinalReviewPending then Ended(after)
    else
      RunFits(rt, bookStart, lim, choices);
      Ran(after.segEnd - rt.segEnd, after.segEnd + 1 - after.next)
  }

  /** Whatever nodes a run takes, whichever of its writes fail: it is one of the runs of the segment
      loop, and it never moves the next chapter past its segment. */
  lemma NoPipelineRunMoves(rt: Runtime, bookStart: int, lim: Limits, choices: seq<Choice>)
    requires IsAnnounced(rt) && bookStart >= 1 && AreLimits(lim)
    ensures var run := PipelineRun(rt, bookStart, lim, choices);
      IsRun(run) && !Moved(run) && RunSegmentGraph(rt, bookStart, lim, choices).1 == AfterRun(rt, run)
  {
    RunFits(rt, bookStart, lim, choices);
  }

  // ---------- where a run leaves the book ----------

  /** What the gate is told: the chapters of the book before the current one, and those from it on. */
  lemma GateIsToldOf(g: Graph, j: Judgement, before: nat, left: nat)
    requires g.current == g.bookStart + before && g.bookEnd + 1 == g.current + left
    ensures ActionAt(g, j) == Decide(g.lim, before, left, g.rewrites, g.bridges, j)
  {
  }

  /** A run starts at the stored chapter if that is in the segment or just past it, else at its start. */
  lemma EntersAt(rt: Runtime, bookStart: int, lim: Limits)
    ensures var g := Enter(rt, bookStart, lim);
      && (rt.segStart <= rt.next <= rt.segEnd + 1 ==> g.current == rt.next)
      && (rt.next < rt.segStart || rt.next > rt.segEnd + 1 ==> g.current == rt.segStart)
      && g.segStart == rt.segStart && g.segEnd == rt.segEnd && g.volumeNo == rt.volumeNo
      && g.bookStart == bookStart && g.lim == lim && g.rewrites == g.bridges == 0 && g.at == Outline
      && g.bookEnd >= rt.bookEnd && g.bookEnd >= rt.segEnd && (g.bookEnd == rt.bookEnd || g.bookEnd == rt.segEnd)
      && g.floor == if rt.retryFloor != 0 then rt.retryFloor else g.current
  {
  }

  /** One chapter at a time: a chapter moves the run on by one; the gate then goes on behind it, adds one
      to segment and book, sends the run two back but not before the segment, or ends the book there. */
  lemma ChapterByChapter(g: Graph, rt: Runtime, c: Choice)
    ensures var (g', rt') := StepGraph(g, rt, c);
      && (g.at == Outline ==> g' == g.(at := Confirm) && (!c.writesOutline ==> rt' == rt))
      && (g.at == Chapter ==> g' == g.(current := g.current + 1, at := Gate))
      && (g.at in {Confirm, Bridging} ==> g' == g.(at := if g.current <= g.segEnd then Chapter else Done))
      && (g.at == Rewinding ==>
            && g'.current == (if g.current - 2 < g.segStart then g.segStart else g.current - 2)
            && g'.rewrites == g.rewrites + 1 && g'.bridges == g.bridges
            && g'.segEnd == g.segEnd && g'.bookEnd == g.bookEnd)
      && (g.at == Gate && ActionAt(g, c.judgement) == Bridge ==>
            && g' == g.(segEnd := g.segEnd + 1, bookEnd := g.bookEnd + 1, bridges := g.bridges + 1, at := Bridging))
      && (g.at == Gate && ActionAt(g, c.judgement) == Rewind ==> g' == g.(at := Rewinding))
  {
  }

  /** Where a stored chapter is behind the run: two behind it for a rewind, else not at all. The last
      chapter of the segment and a blocked one store nothing. */
  lemma WhatIsStored(g: Graph, rt: Runtime, c: Choice)
    requires !HasReturned(g) && StepGraph(g, rt, c).1 != rt && StepGraph(g, rt, c).1.mode == SegmentRunning
    ensures var (g', rt') := StepGraph(g, rt, c);
      && c.persists
      && rt'.segStart == g'.segStart && rt'.segEnd == g'.segEnd && rt'.bookEnd == g'.bookEnd
      && rt'.volumeNo == g'.volumeNo && rt'.retryFloor == g'.floor
      && (g'.at != Rewinding ==> rt'.next == g'.current)
      && (g'.at == Rewinding ==> rt'.next == if g'.current - 2 < g'.segStart then g'.segStart else g'.current - 2)
      && (g.at == Chapter ==> !c.blocked && g.current < g.segEnd)
  {
  }

  /** A closed run has ended the book behind a chapter of its segment, added ones included, and if that was
      stored, the runtime state says so and keeps everything else of the announced segment. */
  predicate EndedInside(rt0: Runtime, lim: Limits, g: Graph, rt: Runtime) {
    && rt0.segStart <= g.bookEnd <= rt0.segEnd + lim.maxTotal - lim.target
    && g.current == g.bookEnd + 1 && g.segEnd == g.bookEnd
    && (rt.mode == FinalReviewPending ==>
          rt == rt0.(mode := FinalReviewPending, segEnd := g.bookEnd, next := g.bookEnd + 1, bookEnd := g.bookEnd))
  }

  lemma {:induction false} ClosedEndsInside(rt: Runtime, bookStart: int, lim: Limits, choices: seq<Choice>)
    requires IsAnnounced(rt) && 1 <= bookStart <= rt.segStart && AreLimits(lim)
    ensures var (g, after) := RunSegmentGraph(rt, bookStart, lim, choices);
      && (!g.at.Closed? ==> g.bookStart == bookStart && after.mode == SegmentRunning)
      && (g.at.Closed? ==> EndedInside(rt, lim, g, after))
  {
    if choices != [] {
      var init, c := choices[..|choices| - 1], choices[|choices| - 1];
      ClosedEndsInside(rt, bookStart, lim, init);
      RunFits(rt, bookStart, lim, init);
      var (g, now) := RunSegmentGraph(rt, bookStart, lim, init);
      if g.at == Gate {
        GateEndsInside(rt, bookStart, lim, g, now, c);
      }
    }
  }

  lemma GateEndsInside(rt0: Runtime, bookStart: int, lim: Limits, g: Graph, rt: Runtime, c: Choice)
    requires IsAnnounced(rt0) && AreLimits(lim) && Fits(rt0, lim, g, rt) && g.at == Gate
    requires g.bookStart == bookStart <= rt0.segStart
    ensures var (g', rt') := StepGraph(g, rt, c);
      && (!g'.at.Closed? ==> g'.bookStart == bookStart && rt'.mode == SegmentRunning)
      && (g'.at.Closed? ==> EndedInside(rt0, lim, g', rt'))
  {
    match ActionAt(g, c.judgement)
    case Continue =>
    case Bridge =>
    case Rewind =>
    case Finish =>
  }

  /** So the loop is told of an ended book exactly when the run closed it and could store that, and the
      book then ends behind a chapter of the segment. */
  lemma EndedIff(rt: Runtime, bookStart: int, lim: Limits, choices: seq<Choice>)
    requires IsAnnounced(rt) && 1 <= bookStart <= rt.segStart && AreLimits(lim)
    ensures var (g, after) := RunSegmentGraph(rt, bookStart, lim, choices);
      var run := PipelineRun(rt, bookStart, lim, choices);
      && (run.Ended? <==> g.at.Closed? && after.mode != SegmentRunning)
      && (run.Ended? ==>
            && run.rt.next == run.rt.bookEnd + 1 == run.rt.segEnd + 1 && run.rt.segStart == rt.segStart
            && rt.segStart <= run.rt.bookEnd <= rt.segEnd + lim.maxTotal - lim.target)
  {
    ClosedEndsInside(rt, bookStart, lim, choices);
    RunFits(rt, bookStart, lim, choices);
  }

  // ---------- every run returns ----------

  /** How far a node is from the next chapter. */
  function NodeRank(at: Node): nat {
    match at
    case Outline => 6
    case Confirm => 5
    case Gate => 4
    case Bridging => 3
    case Rewinding => 3
    case Chapter => 2
    case Done => 0
    case Closed => 0
  }

  /** Whatever it meets, a run returns: it rewrites twice at most, adds only so many chapters, and goes
      from chapter to chapter in between. */
  lemma {:induction false} ReturnsFrom(rt0: Runtime, lim: Limits, g: Graph, rt: Runtime, choices: nat -> Choice, i: nat)
    returns (n: nat)
    requires IsAnnounced(rt0) && AreLimits(lim) && Fits(rt0, lim, g, rt)
    ensures HasReturned(RunGraph(g, rt, ChoicesFrom(choices, i, n)).0)
    decreases if HasReturned(g) then 0 else REWRITES - g.rewrites,
              if HasReturned(g) then 0 else lim.maxTotal - lim.target - g.bridges,
              if HasReturned(g) then 0 else g.segEnd + 1 - g.current,
              NodeRank(g.at)
  {
    if HasReturned(g) {
      n := 0;
    } else {
      var (g', rt') := StepGraph(g, rt, choices(i));
      StepFits(rt0, lim, g, rt, choices(i));
      n := ReturnsFrom(rt0, lim, g', rt', choices, i + 1);
      RunGraphCons(g, rt, choices(i), ChoicesFrom(choices, i + 1, n));
      n := n + 1;
    }
  }

  /** `n` of the choices, from number `i` on. */
  function ChoicesFrom(choices: nat -> Choice, i: nat, n: nat): seq<Choice>
    decreases n
  {
    if n == 0 then [] else [choices(i)] + ChoicesFrom(choices, i + 1, n - 1)
  }

  lemma {:induction false} RunGraphCons(g: Graph, rt: Runtime, c: Choice, choices: seq<Choice>)
    ensures var (g', rt') := StepGraph(g, rt, c); RunGraph(g, rt, [c] + choices) == RunGraph(g', rt', choices)
  {
    var all := [c] + choices;
    if choices == [] {
      assert all[..0] == [];
    } else {
      RunGraphCons(g, rt, c, choices[..|choices| - 1]);
      assert all[..|all| - 1] == [c] + choices[..|choices| - 1];
    }
  }

  lemma EveryRunReturns(rt: Runtime, bookStart: int, lim: Limits, choices: nat -> Choice) returns (n: nat)
    requires IsAnnounced(rt) && bookStart >= 1 && AreLimits(lim)
    ensures HasReturned(RunSegmentGraph(rt, bookStart, lim, ChoicesFrom(choices, 0, n)).0)
  {
    n := ReturnsFrom(rt, lim, Enter(rt, bookStart, lim), rt, choices, 0);
  }

  // ---------- the loop around the pipeline ----------

  /** Every run of the loop is a run of the pipeline that has returned; `plays` is what each meets. */
  ghost predicate RunsThePipeline(b: Book, lim: Limits, plays: nat -> seq<Choice>) {
    forall i: nat :: Goes(LoopAt(b, i)) ==> IsPipelineRun(b, lim, i, plays(i))
  }

  ghost predicate IsPipelineRun(b: Book, lim: Limits, i: nat, choices: seq<Choice>) {
    var rt, bookStart := Announced(LoopAt(b, i)), BookStart(b.payload);
    && IsAnnounced(rt) && bookStart >= 1 && AreLimits(lim)
    && HasReturned(RunSegmentGraph(rt, bookStart, lim, choices).0)
    && (forall c :: c in choices ==> IsJudgement(c.judgement))
    && b.runs(i) == PipelineRun(rt, bookStart, lim, choices)
  }

  lemma PipelineRunStays(b: Book, lim: Limits, plays: nat -> seq<Choice>, i: nat)
    requires RunsThePipeline(b, lim, plays) && Goes(LoopAt(b, i))
    ensures IsRun(b.runs(i)) && !Moved(b.runs(i))
  {
    assert IsPipelineRun(b, lim, i, plays(i));
    NoPipelineRunMoves(Announced(LoopAt(b, i)), BookStart(b.payload), lim, plays(i));
  }

  /** With the pipeline as it is, the loop never gets past its first segment: as long as it goes, it is
      in the segment it started with, lengthened by the chapters that the runs added. */
  lemma {:induction false} PipelineNeverLeavesTheSegment(b: Book, lim: Limits, plays: nat -> seq<Choice>, n: nat)
    requires Valid(b) && RunsThePipeline(b, lim, plays) && Goes(LoopAt(b, n))
    ensures LoopAt(b, n).segStart == b.first.segStart
    ensures LoopAt(b, n).segEnd == b.first.segEnd + Growth(b, n)
    ensures n > 0 ==> Stays(b.runs(n - 1))
  {
    if n > 0 {
      WentBefore(b, n - 1, n);
      PipelineNeverLeavesTheSegment(b, lim, plays, n - 1);
      PipelineRunStays(b, lim, plays, n - 1);
      LoopIsFramed(b, n - 1);
      StepKeepsFrame(b.payload, b.size, LoopAt(b, n - 1), b.runs(n - 1));
    }
  }

  /** So it ends exactly when a run ends the book. */
  lemma PipelineLoopEndsIff(b: Book, lim: Limits, plays: nat -> seq<Choice>)
    requires Valid(b) && RunsThePipeline(b, lim, plays) && Goes(b.first)
    ensures GoesForever(b) <==> forall i: nat :: Stays(b.runs(i))
  {
    assert LoopAt(b, 0) == b.first;
    if forall i: nat :: Stays(b.runs(i)) {
      forall n: nat ensures GoesAfter(b, n)
      {
        StayingRunsStay(b, 0, n);
      }
    }
    if GoesForever(b) {
      forall i: nat ensures Stays(b.runs(i))
      {
        assert GoesAfter(b, i + 1);
        PipelineNeverLeavesTheSegment(b, lim, plays, i + 1);
      }
    }
  }

  // ---------- the plain run ----------

  /** The chapters `from..end` of a segment, finalised one after the other: each is checkpointed, and
      the runtime state moves on only before the last chapter of the segment. So a run that writes the
      rest of its segment and is not ended by the closure gate leaves the next chapter at the segment's
      last one, although the cursor is past it. */
  method WriteChapters(task: CreationTask, from: int, end: int)
    requires task.cursor.runtime.segStart <= task.cursor.runtime.next == from <= end == task.cursor.runtime.segEnd
    requires forall u :: u in task.units ==> u <= end
    modifies task
    ensures task.cursor.runtime == AfterRun(old(task.cursor.runtime), Ran(0, 1))
    ensures task.cursor.last == Some(end) && task.cursor.next == end + 1
    ensures forall u :: u in task.units <==> u in old(task.units) || from <= u <= end
  {
    for chapter := from to end + 1
      invariant task.cursor.runtime == old(task.cursor.runtime).(next := if chapter <= end then chapter else end)
      invariant forall u :: u in task.units <==> u in old(task.units) || from <= u < chapter
      invariant chapter > end ==> task.cursor.last == Some(end) && task.cursor.next == end + 1
    {
      task.MarkChapterCompleted(chapter);
      if chapter < task.cursor.runtime.segEnd {
        task.cursor := task.cursor.(runtime := task.cursor.runtime.(next := chapter + 1));
      }
    }
  }
}
