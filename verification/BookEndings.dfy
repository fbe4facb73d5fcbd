/**
 Which book generations end: decided by the plan's first segment, the end of the book and the
 limits of the novel, before any chapter is written.
 */
module BookEndings {
  import opened ClosurePolicy
  import opened GenerationPipeline
  import opened GenerationResume
  import opened GenerationRetry
  import opened GenerationSegments
  import opened Numbers
  import opened SegmentCoverage

  /** The segment is as long as it needs to be for a run to end the book. */
  predicate MayEndIn(lim: Limits, bookStart: int, segEnd: int, bookEnd: int) {
    MayEnd(lim, Max(0, segEnd + 1 - bookStart), bookEnd - segEnd)
  }

  predicate MustEndIn(lim: Limits, bookStart: int, segEnd: int, bookEnd: int) {
    MustEnd(lim, Max(0, segEnd + 1 - bookStart), bookEnd - segEnd)
  }

  /** At a gate, no more is generated and no less is left than at the end of the segment. */
  lemma GateIsNotLater(rt0: Runtime, lim: Limits, g: Graph, rt: Runtime)
    requires Fits(rt0, lim, g, rt) && g.at == Gate && IsAnnounced(rt0)
    ensures var generated, remaining := Generated(g), Max(0, g.bookEnd - g.current + 1);
      && generated <= Max(0, g.segEnd + 1 - g.bookStart) && g.bookEnd - g.segEnd <= remaining
      && (g.current == g.segEnd + 1 ==>
            generated == Max(0, g.segEnd + 1 - g.bookStart) && remaining == g.bookEnd - g.segEnd)
  {
  }

  // ---------- too early to end ----------

  /** Nothing was added, and nothing was ended. */
  predicate IsUnchanged(rt0: Runtime, g: Graph, rt: Runtime, bookStart: int) {
    g.bridges == 0 && g.at != Closed && rt.segEnd == rt0.segEnd && g.bookStart == bookStart
  }

  lemma StepTooEarly(rt0: Runtime, lim: Limits, g: Graph, rt: Runtime, c: Choice)
    requires IsAnnounced(rt0) && AreLimits(lim) && Fits(rt0, lim, g, rt) && IsUnchanged(rt0, g, rt, g.bookStart)
    requires !MayEndIn(lim, g.bookStart, rt0.segEnd, rt0.bookEnd)
    ensures var (g', rt') := StepGraph(g, rt, c); IsUnchanged(rt0, g', rt', g.bookStart)
  {
    if g.at == Gate {
      var generated, remaining := Generated(g), Max(0, g.bookEnd - g.current + 1);
      GateIsNotLater(rt0, lim, g, rt);
      LaterIsNoWorse(lim, generated, remaining, Max(0, g.segEnd + 1 - g.bookStart), g.bookEnd - g.segEnd);
      TooEarlyToEnd(lim, generated, remaining, g.rewrites, g.bridges, c.judgement);
    }
  }

  lemma {:induction false} RunTooEarly(rt: Runtime, bookStart: int, lim: Limits, choices: seq<Choice>)
    requires IsAnnounced(rt) && bookStart >= 1 && AreLimits(lim) && !MayEndIn(lim, bookStart, rt.segEnd, rt.bookEnd)
    ensures var (g, after) := RunSegmentGraph(rt, bookStart, lim, choices); IsUnchanged(rt, g, after, bookStart)
  {
    if choices != [] {
      var init := choices[..|choices| - 1];
      RunTooEarly(rt, bookStart, lim, init);
      RunFits(rt, bookStart, lim, init);
      var (g, after) := RunSegmentGraph(rt, bookStart, lim, init);
      StepTooEarly(rt, lim, g, after, choices[|choices| - 1]);
    }
  }

  lemma {:induction false} StaysTooEarly(b: Book, lim: Limits, plays: nat -> seq<Choice>, n: nat)
    requires Valid(b) && RunsThePipeline(b, lim, plays) && Goes(b.first)
    requires !MayEndIn(lim, BookStart(b.payload), b.first.segEnd, b.first.bookEnd)
    ensures var t := LoopAt(b, n); Goes(t) && t.segEnd == b.first.segEnd && t.bookEnd == b.first.bookEnd
  {
    if n > 0 {
      StaysTooEarly(b, lim, plays, n - 1);
      var before := LoopAt(b, n - 1);
      assert IsPipelineRun(b, lim, n - 1, plays(n - 1));
      RunTooEarly(Announced(before), BookStart(b.payload), lim, plays(n - 1));
      RunFits(Announced(before), BookStart(b.payload), lim, plays(n - 1));
      LoopIsFramed(b, n - 1);
      StepKeepsFrame(b.payload, b.size, before, b.runs(n - 1));
    }
  }

  /** A book whose planned segment is too short for it to end is generated for ever, whatever the runs
      meet: every run stays in the segment and adds nothing. */
  lemma NeverEnds(b: Book, lim: Limits, plays: nat -> seq<Choice>)
    requires Valid(b) && RunsThePipeline(b, lim, plays) && Goes(b.first)
    requires !MayEndIn(lim, BookStart(b.payload), b.first.segEnd, b.first.bookEnd)
    ensures GoesForever(b)
  {
    forall n: nat ensures GoesAfter(b, n)
    {
      StaysTooEarly(b, lim, plays, n);
    }
  }

  // ---------- a run that ends the book ----------

  /** What a gate has to find for the book to end: one thread that stays open until the maximum, if the
      segment reaches the target, and everything closed otherwise. */
  function Eager(rt0: Runtime, g: Graph): Choice {
    var judgement :=
      if Max(0, rt0.segEnd + 1 - g.bookStart) >= g.lim.target && Generated(g) < g.lim.maxTotal then ONE_OPEN
      else ALL_CLOSED;
    Choice(true, true, false, judgement)
  }

  predicate IsOnItsWay(g: Graph, rt: Runtime) {
    g.at != Done && (g.at == Closed ==> rt.mode == FinalReviewPending)
  }

  lemma EagerGoesOn(rt0: Runtime, lim: Limits, g: Graph, rt: Runtime)
    requires IsAnnounced(rt0) && AreLimits(lim) && Fits(rt0, lim, g, rt) && IsOnItsWay(g, rt)
    requires MayEndIn(lim, g.bookStart, rt0.segEnd, rt0.bookEnd)
    ensures var (g', rt') := StepGraph(g, rt, Eager(rt0, g));
      IsOnItsWay(g', rt') && (g.at != Closed ==> g'.bookStart == g.bookStart)
  {
    if g.at == Gate {
      var generated, remaining := Generated(g), Max(0, g.bookEnd - g.current + 1);
      GateIsNotLater(rt0, lim, g, rt);
      if Max(0, rt0.segEnd + 1 - g.bookStart) < lim.target {
        AllClosedEnds(lim, generated, remaining, g.rewrites, g.bridges);
      } else if generated < lim.maxTotal && g.current == g.segEnd + 1 {
        OneOpenExtends(lim, generated, remaining, g.rewrites, g.bridges);
      }
    }
  }

  lemma {:induction false} Closes(rt0: Runtime, lim: Limits, g: Graph, rt: Runtime) returns (choices: seq<Choice>)
    requires IsAnnounced(rt0) && AreLimits(lim) && Fits(rt0, lim, g, rt) && IsOnItsWay(g, rt)
    requires g.at != Closed ==> MayEndIn(lim, g.bookStart, rt0.segEnd, rt0.bookEnd)
    ensures var (g', rt') := RunGraph(g, rt, choices); g'.at == Closed && rt'.mode == FinalReviewPending
    ensures forall c :: c in choices ==> IsJudgement(c.judgement)
    decreases if HasReturned(g) then 0 else REWRITES - g.rewrites,
              if HasReturned(g) then 0 else lim.maxTotal - lim.target - g.bridges,
              if HasReturned(g) then 0 else g.segEnd + 1 - g.current,
              NodeRank(g.at)
  {
    if g.at == Closed {
      choices := [];
    } else {
      var c := Eager(rt0, g);
      var (g', rt') := StepGraph(g, rt, c);
      StepFits(rt0, lim, g, rt, c);
      EagerGoesOn(rt0, lim, g, rt);
      var rest := Closes(rt0, lim, g', rt');
      RunGraphCons(g, rt, c, rest);
      choices := [c] + rest;
    }
  }

  /** A book, generated from its plan, with one run that ends it. */
  lemma SomeRunEnds(p: Payload, size: int, first: Loop, lim: Limits)
    returns (runs: nat -> SegmentRun, plays: nat -> seq<Choice>)
    requires Framed(p, first) && Goes(first) && BookStart(p) >= 1 && AreLimits(lim)
    requires MayEndIn(lim, BookStart(p), first.segEnd, first.bookEnd)
    ensures var b := Book(p, size, first, runs); Valid(b) && RunsThePipeline(b, lim, plays) && !GoesForever(b)
  {
    var rt := Announced(first);
    var choices := Closes(rt, lim, Enter(rt, BookStart(p), lim), rt);
    var run := PipelineRun(rt, BookStart(p), lim, choices);
    RunFits(rt, BookStart(p), lim, choices);
    runs, plays := (i: nat) => run, (i: nat) => choices;
    var b := Book(p, size, first, runs);
    assert LoopAt(b, 0) == first;
    assert !Goes(LoopAt(b, 1));
    forall i: nat | Goes(LoopAt(b, i)) ensures IsPipelineRun(b, lim, i, plays(i))
    {
      if i > 0 {
        WentBefore(b, 1, i);
        assert false;
      }
    }
    assert !GoesAfter(b, 1);
  }

  // ---------- a run that must end the book ----------

  predicate AllPersist(choices: seq<Choice>) {
    forall c :: c in choices ==> c.persists
  }

  lemma MustGoOn(rt0: Runtime, lim: Limits, g: Graph, rt: Runtime, c: Choice)
    requires IsAnnounced(rt0) && AreLimits(lim) && Fits(rt0, lim, g, rt) && IsOnItsWay(g, rt) && c.persists
    requires MustEndIn(lim, g.bookStart, rt0.segEnd, rt0.bookEnd)
    ensures var (g', rt') := StepGraph(g, rt, c);
      IsOnItsWay(g', rt') && (g'.at != Closed ==> g'.bookStart == g.bookStart)
  {
    if g.at == Gate && g.current == g.segEnd + 1 {
      var generated, remaining := Generated(g), Max(0, g.bookEnd - g.current + 1);
      GateIsNotLater(rt0, lim, g, rt);
      LaterIsNoWorse(lim, Max(0, rt0.segEnd + 1 - g.bookStart), rt0.bookEnd - rt0.segEnd, generated, remaining);
      NoWayOn(lim, generated, remaining, g.rewrites, g.bridges, c.judgement);
    }
  }

  lemma {:induction false} RunMustEnd(rt: Runtime, bookStart: int, lim: Limits, choices: seq<Choice>)
    requires IsAnnounced(rt) && bookStart >= 1 && AreLimits(lim) && AllPersist(choices)
    requires MustEndIn(lim, bookStart, rt.segEnd, rt.bookEnd)
    ensures var (g, after) := RunSegmentGraph(rt, bookStart, lim, choices);
      IsOnItsWay(g, after) && (g.at != Closed ==> g.bookStart == bookStart)
  {
    if choices != [] {
      var init, c := choices[..|choices| - 1], choices[|choices| - 1];
      RunMustEnd(rt, bookStart, lim, init);
      RunFits(rt, bookStart, lim, init);
      var (g, after) := RunSegmentGraph(rt, bookStart, lim, init);
      assert c in choices;
      if g.at != Closed {
        MustGoOn(rt, lim, g, after, c);
      }
    }
  }

  /** No write of a run fails. */
  ghost predicate IsUnhindered(b: Book, lim: Limits, plays: nat -> seq<Choice>) {
    RunsThePipeline(b, lim, plays) && forall i :: AllPersist(plays(i))
  }

  /** A book whose planned segment reaches the maximum ends with its first run, unless a write fails. */
  lemma AlwaysEnds(b: Book, lim: Limits, plays: nat -> seq<Choice>)
    requires Valid(b) && IsUnhindered(b, lim, plays) && Goes(b.first)
    requires MustEndIn(lim, BookStart(b.payload), b.first.segEnd, b.first.bookEnd)
    ensures b.runs(0).Ended? && !GoesForever(b)
  {
    assert LoopAt(b, 0) == b.first;
    assert IsPipelineRun(b, lim, 0, plays(0));
    RunMustEnd(Announced(b.first), BookStart(b.payload), lim, plays(0));
    assert !GoesAfter(b, 1);
  }

  // ---------- runs that never end it ----------

  /** A finalised chapter and nothing to close. */
  const IDLE := Choice(true, true, false, NOTHING_TO_CLOSE)

  /** The runtime state follows the graph, up to the last chapter of the segment. */
  predicate IsIdling(rt0: Runtime, g: Graph, rt: Runtime) {
    && g.bridges == 0 && g.at != Closed && rt.segEnd == rt0.segEnd
    && (g.at != Rewinding ==> rt.next == Min(g.current, g.segEnd))
  }

  lemma IdleGoesOn(rt0: Runtime, lim: Limits, g: Graph, rt: Runtime)
    requires IsAnnounced(rt0) && AreLimits(lim) && Fits(rt0, lim, g, rt) && IsIdling(rt0, g, rt)
    requires !MustEndIn(lim, g.bookStart, rt0.segEnd, rt0.bookEnd)
    ensures var (g', rt') := StepGraph(g, rt, IDLE); IsIdling(rt0, g', rt') && g'.bookStart == g.bookStart
  {
    if g.at == Gate {
      var generated, remaining := Generated(g), Max(0, g.bookEnd - g.current + 1);
      GateIsNotLater(rt0, lim, g, rt);
      LaterIsNoWorse(lim, generated, remaining, Max(0, g.segEnd + 1 - g.bookStart), g.bookEnd - g.segEnd);
      NothingToCloseContinues(lim, generated, remaining, g.rewrites, g.bridges);
    }
  }

  lemma {:induction false} Idles(rt0: Runtime, lim: Limits, g: Graph, rt: Runtime) returns (choices: seq<Choice>)
    requires IsAnnounced(rt0) && AreLimits(lim) && Fits(rt0, lim, g, rt) && IsIdling(rt0, g, rt)
    requires !MustEndIn(lim, g.bookStart, rt0.segEnd, rt0.bookEnd)
    ensures var (g', rt') := RunGraph(g, rt, choices);
      g'.at == Done && Fits(rt0, lim, g', rt') && IsIdling(rt0, g', rt')
    ensures forall c :: c in choices ==> c == IDLE
    decreases if HasReturned(g) then 0 else REWRITES - g.rewrites,
              if HasReturned(g) then 0 else lim.maxTotal - lim.target - g.bridges,
              if HasReturned(g) then 0 else g.segEnd + 1 - g.current,
              NodeRank(g.at)
  {
    if g.at == Done {
      choices := [];
    } else {
      var (g', rt') := StepGraph(g, rt, IDLE);
      StepFits(rt0, lim, g, rt, IDLE);
      IdleGoesOn(rt0, lim, g, rt);
      var rest := Idles(rt0, lim, g', rt');
      RunGraphCons(g, rt, IDLE, rest);
      choices := [IDLE] + rest;
    }
  }

  /** A run that meets nothing to close leaves the next chapter at the end of the segment. */
  lemma IdleRun(rt: Runtime, bookStart: int, lim: Limits) returns (choices: seq<Choice>)
    requires IsAnnounced(rt) && bookStart >= 1 && AreLimits(lim) && !MustEndIn(lim, bookStart, rt.segEnd, rt.bookEnd)
    ensures HasReturned(RunSegmentGraph(rt, bookStart, lim, choices).0)
    ensures PipelineRun(rt, bookStart, lim, choices) == Ran(0, 1)
    ensures forall c :: c in choices ==> c == IDLE
  {
    choices := Idles(rt, lim, Enter(rt, bookStart, lim), rt);
  }

  /** The loop after any number of such runs. */
  lemma {:induction false} IdleLoop(b: Book, n: nat)
    requires Framed(b.payload, b.first) && Goes(b.first) && b.runs == ((i: nat) => Ran(0, 1))
    ensures LoopAt(b, n) == if n == 0 then b.first else b.first.(next := b.first.segEnd)
  {
    if n > 0 {
      IdleLoop(b, n - 1);
    }
  }

  /** A book, generated from its plan, that has nothing to close and is generated for ever. */
  lemma IdleRunsStay(p: Payload, size: int, first: Loop, lim: Limits)
    returns (runs: nat -> SegmentRun, plays: nat -> seq<Choice>)
    requires Framed(p, first) && Goes(first) && BookStart(p) >= 1 && AreLimits(lim)
    requires !MustEndIn(lim, BookStart(p), first.segEnd, first.bookEnd)
    ensures var b := Book(p, size, first, runs); Valid(b) && IsUnhindered(b, lim, plays) && GoesForever(b)
    ensures forall i, c :: c in plays(i) ==> c == IDLE
  {
    runs := (i: nat) => Ran(0, 1);
    var b := Book(p, size, first, runs);
    var fromFirst := IdleRun(Announced(first), BookStart(p), lim);
    var fromLast := IdleRun(Announced(first.(next := first.segEnd)), BookStart(p), lim);
    plays := (i: nat) => if i == 0 then fromFirst else fromLast;
    forall i: nat ensures GoesAfter(b, i) && IsPipelineRun(b, lim, i, plays(i))
    {
      IdleLoop(b, i);
    }
  }

  // ---------- the three kinds of books ----------

  /** Some runs end the book if and only if its planned segment may end it. */
  lemma EndsForSomeIff(p: Payload, size: int, first: Loop, lim: Limits)
    requires Framed(p, first) && Goes(first) && BookStart(p) >= 1 && AreLimits(lim)
    ensures (exists runs, plays ::
               var b := Book(p, size, first, runs);
               Valid(b) && RunsThePipeline(b, lim, plays) && !GoesForever(b))
            <==> MayEndIn(lim, BookStart(p), first.segEnd, first.bookEnd)
  {
    if MayEndIn(lim, BookStart(p), first.segEnd, first.bookEnd) {
      var runs, plays := SomeRunEnds(p, size, first, lim);
    } else {
      forall runs, plays | Valid(Book(p, size, first, runs)) && RunsThePipeline(Book(p, size, first, runs), lim, plays)
        ensures GoesForever(Book(p, size, first, runs))
      {
        NeverEnds(Book(p, size, first, runs), lim, plays);
      }
    }
  }

  /** All runs whose writes succeed end it if and only if its planned segment must end it. */
  lemma EndsForAllIff(p: Payload, size: int, first: Loop, lim: Limits)
    requires Framed(p, first) && Goes(first) && BookStart(p) >= 1 && AreLimits(lim)
    ensures (forall runs, plays ::
               var b := Book(p, size, first, runs);
               Valid(b) && IsUnhindered(b, lim, plays) ==> !GoesForever(b))
            <==> MustEndIn(lim, BookStart(p), first.segEnd, first.bookEnd)
  {
    if MustEndIn(lim, BookStart(p), first.segEnd, first.bookEnd) {
      forall runs, plays | Valid(Book(p, size, first, runs)) && IsUnhindered(Book(p, size, first, runs), lim, plays)
        ensures !GoesForever(Book(p, size, first, runs))
      {
        AlwaysEnds(Book(p, size, first, runs), lim, plays);
      }
    } else {
      var runs, plays := IdleRunsStay(p, size, first, lim);
    }
  }

  /** For a fresh submission both can be read off its number of chapters, the volume size and the flex
      window: it can end only if one volume holds it, or all of it but the closing window and the window's
      chapters; and it need not end unless one volume holds it and the window is empty. */
  lemma FreshBookEnds(start: int, num: int, size: int, flex: nat, threshold: real)
    requires start >= 1 && num >= 1 && size != 0
    ensures var first, lim, chunk := AtChunk(start, num, size, 0), LimitsOf(num, flex, threshold), ChunkSize(size);
      && (MayEndIn(lim, start, first.segEnd, first.bookEnd) <==>
            || num <= chunk
            || (num - flex <= chunk && 100 * (num - chunk) <= 15 * num && threshold <= 1.0))
      && (MustEndIn(lim, start, first.segEnd, first.bookEnd) <==>
            || (num <= chunk && flex == 0)
            || (num - flex <= chunk && 100 * (num - chunk) <= 15 * num && threshold <= 0.0))
  {
  }

  /** Sixty chapters in volumes of thirty, with the default configuration: generated for ever. */
  lemma TwoVolumesNeverEnd(runs: nat -> SegmentRun, plays: nat -> seq<Choice>)
    requires var b := FreshBook(1, 60, 30, runs);
      Valid(b) && RunsThePipeline(b, LimitsOf(60, FlexWindow(2, 6), 0.95), plays)
    ensures GoesForever(FreshBook(1, 60, 30, runs))
  {
    FreshStart(1, 60, 30, runs);
    FreshBookEnds(1, 60, 30, FlexWindow(2, 6), 0.95);
    NeverEnds(FreshBook(1, 60, 30, runs), LimitsOf(60, FlexWindow(2, 6), 0.95), plays);
  }

  /** And there are such runs. */
  lemma TwoVolumesRun() returns (runs: nat -> SegmentRun, plays: nat -> seq<Choice>)
    ensures var b := FreshBook(1, 60, 30, runs);
      && Valid(b) && RunsThePipeline(b, LimitsOf(60, FlexWindow(2, 6), 0.95), plays) && GoesForever(b)
  {
    runs, plays := FreshBookIdles(1, 60, 30, LimitsOf(60, FlexWindow(2, 6), 0.95));
  }

  /** Ten chapters in one volume, with nothing to close: generated for ever, too. */
  lemma OneVolumeWithNothingToClose() returns (runs: nat -> SegmentRun, plays: nat -> seq<Choice>)
    ensures var b := FreshBook(1, 10, 30, runs);
      && Valid(b) && RunsThePipeline(b, LimitsOf(10, FlexWindow(2, 1), 0.95), plays) && GoesForever(b)
    ensures forall i, c :: c in plays(i) ==> c == IDLE
  {
    runs, plays := FreshBookIdles(1, 10, 30, LimitsOf(10, FlexWindow(2, 1), 0.95));
  }

  lemma FreshBookIdles(start: int, num: int, size: int, lim: Limits)
    returns (runs: nat -> SegmentRun, plays: nat -> seq<Choice>)
    requires start >= 1 && num >= 1 && size != 0 && AreLimits(lim)
    requires var first := AtChunk(start, num, size, 0); !MustEndIn(lim, start, first.segEnd, first.bookEnd)
    ensures var b := FreshBook(start, num, size, runs);
      Valid(b) && RunsThePipeline(b, lim, plays) && GoesForever(b)
    ensures forall i, c :: c in plays(i) ==> c == IDLE
  {
    runs, plays := IdleRunsStay(Submit(start, num), size, AtChunk(start, num, size, 0), lim);
    FreshStart(start, num, size, runs);
  }
}
