/**
 Which chapters the runs of a book generation wrote, or blocked, by the time it ends.
 */
module BookWritten {
  import opened ClosurePolicy
  import opened GenerationPipeline
  import opened GenerationResume
  import opened GenerationRetry
  import opened GenerationSegments
  import opened Numbers
  import opened SegmentCoverage

  /** The chapters that were at the chapter nodes: finalised or saved as blocked. */
  function Visits(g: Graph, rt: Runtime, choices: seq<Choice>): set<int> {
    if choices == [] then {}
    else
      var init := choices[..|choices| - 1];
      var before := RunGraph(g, rt, init).0;
      Visits(g, rt, init) + if before.at == Chapter then {before.current} else {}
  }

  /** All chapters from `first` on, before `next`. */
  predicate AreIn(chapters: set<int>, first: int, next: int) {
    forall k :: first <= k < next ==> k in chapters
  }

  /** Everything that graph and runtime state claim to be behind them was visited. */
  predicate ClaimsFit(rt0: Runtime, lim: Limits, bookStart: int, g: Graph, rt: Runtime, visits: set<int>) {
    if rt.mode == FinalReviewPending then
      && AreIn(visits, rt0.next, rt.bookEnd + 1)
      && lim.minTotal <= rt.bookEnd + 1 - bookStart && rt.bookEnd <= rt0.segEnd + lim.maxTotal - lim.target
    else
      && AreIn(visits, rt0.next, rt.next)
      && (g.at != Closed ==> AreIn(visits, rt0.next, g.current) && g.bookStart == bookStart)
  }

  lemma StepClaims(rt0: Runtime, lim: Limits, bookStart: int, g: Graph, rt: Runtime, visits: set<int>, c: Choice)
    requires IsAnnounced(rt0) && AreLimits(lim) && Fits(rt0, lim, g, rt) && bookStart <= rt0.segStart
    requires ClaimsFit(rt0, lim, bookStart, g, rt, visits)
    ensures var (g', rt') := StepGraph(g, rt, c);
      ClaimsFit(rt0, lim, bookStart, g', rt', visits + if g.at == Chapter then {g.current} else {})
  {
    if g.at == Gate {
      WhenItActs(lim, Generated(g), Max(0, g.bookEnd - g.current + 1), g.rewrites, g.bridges, c.judgement);
    }
  }

  /** A run that ends the book has visited every chapter from the one it resumed to the end it sets, which
      leaves the book at least its minimum; any other run has visited every chapter before the next one. */
  lemma {:induction false} RunClaims(rt: Runtime, bookStart: int, lim: Limits, choices: seq<Choice>)
    requires IsAnnounced(rt) && 1 <= bookStart <= rt.segStart && AreLimits(lim)
    ensures var (g, after) := RunSegmentGraph(rt, bookStart, lim, choices);
      ClaimsFit(rt, lim, bookStart, g, after, Visits(Enter(rt, bookStart, lim), rt, choices))
  {
    if choices != [] {
      var init := choices[..|choices| - 1];
      RunClaims(rt, bookStart, lim, init);
      RunFits(rt, bookStart, lim, init);
      var (g, after) := RunSegmentGraph(rt, bookStart, lim, init);
      StepClaims(rt, lim, bookStart, g, after, Visits(Enter(rt, bookStart, lim), rt, init), choices[|choices| - 1]);
    }
  }

  // ---------- over all runs ----------

  function RunVisits(b: Book, lim: Limits, choices: seq<Choice>, i: nat): set<int> {
    var rt := Announced(LoopAt(b, i));
    Visits(Enter(rt, BookStart(b.payload), lim), rt, choices)
  }

  /** The chapters visited by the first `n` runs. */
  function AllVisits(b: Book, lim: Limits, plays: nat -> seq<Choice>, n: nat): set<int> {
    if n == 0 then {} else AllVisits(b, lim, plays, n - 1) + RunVisits(b, lim, plays(n - 1), n - 1)
  }

  /** What run number `i` claims. */
  lemma RunOfBookClaims(b: Book, lim: Limits, plays: nat -> seq<Choice>, i: nat)
    requires Valid(b) && RunsThePipeline(b, lim, plays) && Goes(LoopAt(b, i))
    requires BookStart(b.payload) <= b.first.segStart
    ensures var rt, run, visits := Announced(LoopAt(b, i)), b.runs(i), RunVisits(b, lim, plays(i), i);
      && (run.Ran? ==> AreIn(visits, rt.next, AfterRun(rt, run).next))
      && (run.Ended? ==>
            && AreIn(visits, rt.next, run.rt.bookEnd + 1)
            && lim.minTotal <= run.rt.bookEnd + 1 - BookStart(b.payload))
  {
    assert IsPipelineRun(b, lim, i, plays(i));
    PipelineNeverLeavesTheSegment(b, lim, plays, i);
    RunClaims(Announced(LoopAt(b, i)), BookStart(b.payload), lim, plays(i));
    NoPipelineRunMoves(Announced(LoopAt(b, i)), BookStart(b.payload), lim, plays(i));
  }

  lemma Joined(a: set<int>, b: set<int>, first: int, middle: int, next: int)
    requires AreIn(a, first, middle) && AreIn(b, middle, next)
    ensures AreIn(a + b, first, next)
  {
  }

  /** The run visited every chapter before the one that the loop resumes at after it. */
  predicate ReachesNext(b: Book, lim: Limits, plays: nat -> seq<Choice>, i: nat) {
    AreIn(RunVisits(b, lim, plays(i), i), LoopAt(b, i).next, LoopAt(b, i + 1).next)
  }

  /** For the loop resumes where the run left the runtime state. */
  lemma RunReaches(b: Book, lim: Limits, plays: nat -> seq<Choice>, i: nat)
    requires Valid(b) && RunsThePipeline(b, lim, plays) && Goes(LoopAt(b, i)) && b.runs(i).Ran?
    requires BookStart(b.payload) <= b.first.segStart
    ensures ReachesNext(b, lim, plays, i)
  {
    PipelineRunStays(b, lim, plays, i);
    RunOfBookClaims(b, lim, plays, i);
  }

  lemma {:induction false} VisitsAddUp(b: Book, lim: Limits, plays: nat -> seq<Choice>, n: nat)
    requires forall i: nat :: i < n ==> ReachesNext(b, lim, plays, i)
    ensures AreIn(AllVisits(b, lim, plays, n), b.first.next, LoopAt(b, n).next)
  {
    if n > 0 {
      VisitsAddUp(b, lim, plays, n - 1);
      assert ReachesNext(b, lim, plays, n - 1);
      Joined(AllVisits(b, lim, plays, n - 1), RunVisits(b, lim, plays(n - 1), n - 1),
             b.first.next, LoopAt(b, n - 1).next, LoopAt(b, n).next);
    }
  }

  /** While the loop goes, every chapter from the resumed one to before the next was visited. */
  lemma WrittenSoFar(b: Book, lim: Limits, plays: nat -> seq<Choice>, n: nat)
    requires Valid(b) && RunsThePipeline(b, lim, plays) && Goes(LoopAt(b, n))
    requires BookStart(b.payload) <= b.first.segStart
    ensures AreIn(AllVisits(b, lim, plays, n), b.first.next, LoopAt(b, n).next)
  {
    forall i: nat | i < n ensures ReachesNext(b, lim, plays, i)
    {
      WentBefore(b, i, n);
      RunReaches(b, lim, plays, i);
    }
    VisitsAddUp(b, lim, plays, n);
  }

  /** When the loop ends, a run has ended the book: it has at least the minimal number of chapters, and
      every chapter from the resumed one to its end was written or blocked. */
  lemma EndedBookIsWritten(b: Book, lim: Limits, plays: nat -> seq<Choice>, n: nat)
    requires Valid(b) && RunsThePipeline(b, lim, plays) && Goes(LoopAt(b, n)) && !Goes(LoopAt(b, n + 1))
    requires BookStart(b.payload) <= b.first.segStart
    ensures b.runs(n).Ended? && b.runs(n).rt.mode == FinalReviewPending
    ensures AreIn(AllVisits(b, lim, plays, n + 1), b.first.next, b.runs(n).rt.bookEnd + 1)
    ensures lim.minTotal <= b.runs(n).rt.bookEnd + 1 - BookStart(b.payload)
  {
    PipelineRunStays(b, lim, plays, n);
    LoopIsFramed(b, n);
    StepKeepsFrame(b.payload, b.size, LoopAt(b, n), b.runs(n));
    WrittenSoFar(b, lim, plays, n);
    RunOfBookClaims(b, lim, plays, n);
    assert IsPipelineRun(b, lim, n, plays(n));
  }
}
