/**
 Which segments the loop of a book generation runs, whether they cover the book, and when the loop
 ends, for every sequence of runs that the pipeline might return.
 */
module SegmentCoverage {
  import opened GenerationResume
  import opened GenerationRetry
  import opened GenerationSegments
  import opened Numbers

  ghost predicate Valid(b: Book) {
    Framed(b.payload, b.first) && forall i :: IsRun(b.runs(i))
  }

  lemma {:induction false} LoopIsFramed(b: Book, n: nat)
    requires Valid(b)
    ensures Framed(b.payload, LoopAt(b, n))
  {
    if n > 0 {
      LoopIsFramed(b, n - 1);
      StepKeepsFrame(b.payload, b.size, LoopAt(b, n - 1), b.runs(n - 1));
    }
  }

  /** A loop that still goes went all the time before, and no run ended it. */
  lemma {:induction false} WentBefore(b: Book, m: nat, n: nat)
    requires Valid(b) && m <= n && Goes(LoopAt(b, n))
    ensures Goes(LoopAt(b, m)) && (m < n ==> b.runs(m).Ran?)
    decreases n - m
  {
    if m < n {
      WentBefore(b, m + 1, n);
      LoopIsFramed(b, m);
      StepKeepsFrame(b.payload, b.size, LoopAt(b, m), b.runs(m));
    }
  }

  function Grown(run: SegmentRun): nat {
    if run.Ran? then run.grow else 0
  }

  /** How much the first `n` runs lengthened the book. */
  function Growth(b: Book, n: nat): nat {
    if n == 0 then 0 else Growth(b, n - 1) + Grown(b.runs(n - 1))
  }

  /** How many of the first `n` runs moved on. */
  function Moves(b: Book, n: nat): nat {
    if n == 0 then 0 else Moves(b, n - 1) + if Moved(b.runs(n - 1)) then 1 else 0
  }

  // ---------- coverage ----------

  /** Segment number `i` is non-empty, inside the book, and holds the chapter that its run resumes.
      If the run before it moved on, it starts right after that one's segment; otherwise it is the same
      segment, with what that run added. */
  lemma SegmentsAreContiguous(b: Book, i: nat)
    requires Valid(b) && Goes(LoopAt(b, i))
    ensures var t := LoopAt(b, i);
      && 1 <= t.segStart <= t.next <= t.segEnd <= t.bookEnd
      && (i > 0 ==>
            var before := LoopAt(b, i - 1);
            if Moved(b.runs(i - 1)) then
              && t.segStart == t.next == before.segEnd + Grown(b.runs(i - 1)) + 1
              && t.volumeNo == VolumeNoFor(t.segStart, BookStart(b.payload), b.size)
            else
              && t.segStart == before.segStart && t.segEnd == before.segEnd + Grown(b.runs(i - 1))
              && t.volumeNo == before.volumeNo)
  {
    LoopIsFramed(b, i);
    if i > 0 {
      WentBefore(b, i - 1, i);
      LoopIsFramed(b, i - 1);
    }
  }

  /** The chapter lies in one of the first `n` segments, chapters added to it included. */
  ghost predicate Covered(b: Book, n: nat, chapter: int) {
    exists i: nat :: i < n && InSegment(b, i, chapter)
  }

  predicate InSegment(b: Book, i: nat, chapter: int) {
    Goes(LoopAt(b, i)) && LoopAt(b, i).segStart <= chapter <= LoopAt(b, i).segEnd + Grown(b.runs(i))
  }

  /** While the loop goes, everything before its segment was handed to an earlier run. */
  lemma {:induction false} CoveredSoFar(b: Book, n: nat, chapter: int)
    requires Valid(b) && Goes(LoopAt(b, n)) && b.first.segStart <= chapter < LoopAt(b, n).segStart
    ensures Covered(b, n, chapter)
  {
    if n > 0 {
      WentBefore(b, n - 1, n);
      SegmentsAreContiguous(b, n);
      SegmentsAreContiguous(b, n - 1);
      if chapter < LoopAt(b, n - 1).segStart {
        CoveredSoFar(b, n - 1, chapter);
        var i: nat :| i < n - 1 && InSegment(b, i, chapter);
        assert i < n && InSegment(b, i, chapter);
      } else {
        assert InSegment(b, n - 1, chapter);
      }
    }
  }

  /** However the loop ends: every chapter from the planned segment to the end of the last one was handed
      to a run. If it ends because no chapter is left, that is the end of the book, and its last run moved
      on from there. */
  lemma WholeBookIsCovered(b: Book, n: nat, chapter: int)
    requires Valid(b) && Goes(LoopAt(b, n)) && !Goes(LoopAt(b, n + 1))
    ensures b.first.segStart <= chapter <= LoopAt(b, n).segEnd + Grown(b.runs(n)) ==> Covered(b, n + 1, chapter)
    ensures b.runs(n).Ran? ==>
              Moved(b.runs(n)) && LoopAt(b, n).segEnd + Grown(b.runs(n)) == LoopAt(b, n + 1).bookEnd
  {
    LoopIsFramed(b, n);
    StepKeepsFrame(b.payload, b.size, LoopAt(b, n), b.runs(n));
    if b.first.segStart <= chapter <= LoopAt(b, n).segEnd + Grown(b.runs(n)) {
      if chapter < LoopAt(b, n).segStart {
        CoveredSoFar(b, n, chapter);
        var i: nat :| i < n && InSegment(b, i, chapter);
        assert i < n + 1 && InSegment(b, i, chapter);
      } else {
        assert InSegment(b, n, chapter);
      }
    }
  }

  // ---------- when the loop ends ----------

  lemma {:induction false} BookEndGrows(b: Book, n: nat)
    requires Valid(b) && Goes(LoopAt(b, n))
    ensures LoopAt(b, n).bookEnd == b.first.bookEnd + Growth(b, n)
  {
    if n > 0 {
      WentBefore(b, n - 1, n);
      BookEndGrows(b, n - 1);
      LoopIsFramed(b, n - 1);
      StepKeepsFrame(b.payload, b.size, LoopAt(b, n - 1), b.runs(n - 1));
    }
  }

  lemma {:induction false} SegmentsAdvance(b: Book, n: nat)
    requires Valid(b) && Goes(LoopAt(b, n))
    ensures LoopAt(b, n).segStart >= b.first.segStart + Moves(b, n)
  {
    if n > 0 {
      WentBefore(b, n - 1, n);
      SegmentsAdvance(b, n - 1);
      SegmentsAreContiguous(b, n - 1);
      SegmentsAreContiguous(b, n);
    }
  }

  /** All runs together lengthen the book by no more than the budget. */
  ghost predicate Bounded(b: Book, budget: nat) {
    forall n :: Growth(b, n) <= budget
  }

  /** The loop has ended once enough runs have moved on, whatever the others did. */
  lemma EnoughMovesEndIt(b: Book, budget: nat, n: nat)
    requires Valid(b) && Bounded(b, budget)
    requires b.first.segStart + Moves(b, n) > b.first.bookEnd + budget
    ensures !Goes(LoopAt(b, n))
  {
    assert Growth(b, n) <= budget;
    if Goes(LoopAt(b, n)) {
      SegmentsAdvance(b, n);
      BookEndGrows(b, n);
      LoopIsFramed(b, n);
      assert false;
    }
  }

  /** Runs that stay keep the loop in its segment. */
  lemma {:induction false} StayingRunsStay(b: Book, m: nat, n: nat)
    requires Valid(b) && m <= n && Goes(LoopAt(b, m))
    requires forall i :: m <= i < n ==> Stays(b.runs(i))
    ensures Goes(LoopAt(b, n)) && LoopAt(b, n).segStart == LoopAt(b, m).segStart
  {
    if m < n {
      StayingRunsStay(b, m, n - 1);
      assert Stays(b.runs(n - 1));
      LoopIsFramed(b, n - 1);
      StepKeepsFrame(b.payload, b.size, LoopAt(b, n - 1), b.runs(n - 1));
    }
  }

  predicate GoesAfter(b: Book, n: nat) {
    Goes(LoopAt(b, n))
  }

  ghost predicate GoesForever(b: Book) {
    forall n: nat :: GoesAfter(b, n)
  }

  /** The loop still goes after `m` runs, and from then on no run moves on or ends it. */
  ghost predicate StuckFrom(b: Book, m: nat) {
    Goes(LoopAt(b, m)) && forall i :: m <= i ==> Stays(b.runs(i))
  }

  ghost predicate MovesLater(b: Book, m: nat) {
    exists i: nat :: m <= i && Moved(b.runs(i))
  }

  /** If runs keep moving on, there are as many moves as one likes. */
  lemma {:induction false} MovesKeepComing(b: Book, k: nat) returns (n: nat)
    requires forall m: nat :: MovesLater(b, m)
    ensures Moves(b, n) >= k
  {
    if k == 0 {
      n := 0;
    } else {
      var earlier := MovesKeepComing(b, k - 1);
      assert MovesLater(b, earlier);
      var i: nat :| earlier <= i && Moved(b.runs(i));
      MovesGrow(b, earlier, i);
      n := i + 1;
    }
  }

  lemma {:induction false} MovesGrow(b: Book, m: nat, n: nat)
    requires m <= n
    ensures Moves(b, m) <= Moves(b, n)
  {
    if m < n {
      MovesGrow(b, m, n - 1);
    }
  }

  lemma StuckGoesForever(b: Book, m: nat, n: nat)
    requires Valid(b) && StuckFrom(b, m)
    ensures Goes(LoopAt(b, n))
  {
    if n <= m {
      WentBefore(b, n, m);
    } else {
      StayingRunsStay(b, m, n);
    }
  }

  lemma UnstuckMovesLater(b: Book, m: nat)
    requires Valid(b) && GoesForever(b) && !StuckFrom(b, m)
    ensures MovesLater(b, m)
  {
    assert GoesAfter(b, m);
    var i: nat :| m <= i && !Stays(b.runs(i));
    assert GoesAfter(b, i + 1);
    WentBefore(b, i, i + 1);
    assert Moved(b.runs(i));
  }

  lemma ForeverIsStuck(b: Book, budget: nat) returns (m: nat)
    requires Valid(b) && Bounded(b, budget) && GoesForever(b)
    ensures StuckFrom(b, m)
  {
    if m': nat :| StuckFrom(b, m') {
      m := m';
    } else {
      forall k: nat ensures MovesLater(b, k)
      {
        UnstuckMovesLater(b, k);
      }
      var last := b.first.bookEnd + budget - b.first.segStart + 1;
      var n := MovesKeepComing(b, if last < 0 then 0 else last);
      assert GoesAfter(b, n);
      EnoughMovesEndIt(b, budget, n);
      assert false;
    }
  }

  /** With bounded growth the loop goes on for ever if and only if from some point on, while it still
      goes, every run stays in its segment. */
  lemma GoesForeverIff(b: Book, budget: nat)
    requires Valid(b) && Bounded(b, budget)
    ensures GoesForever(b) <==> (exists m: nat :: StuckFrom(b, m))
  {
    if exists m: nat :: StuckFrom(b, m) {
      var m: nat :| StuckFrom(b, m);
      forall n: nat ensures GoesAfter(b, n)
      {
        StuckGoesForever(b, m, n);
      }
    }
    if GoesForever(b) {
      var m := ForeverIsStuck(b, budget);
      assert StuckFrom(b, m);
    }
  }

  // ---------- the loop as the orchestrator runs it ----------

  /** The segments are those of the loop's first iterations. */
  predicate SegmentsOf(segments: seq<Segment>, b: Book) {
    forall i :: 0 <= i < |segments| ==> Goes(LoopAt(b, i)) && segments[i] == SegmentOf(LoopAt(b, i))
  }

  lemma OneMoreSegment(segments: seq<Segment>, b: Book)
    requires SegmentsOf(segments, b) && Goes(LoopAt(b, |segments|))
    ensures SegmentsOf(segments + [SegmentOf(LoopAt(b, |segments|))], b)
  {
  }

  /** The segment loop of `submit_book_generation_task`, for any runs that let it end; `GoesForeverIff`
      says which do. */
  method RunSegments(task: CreationTask, size: int, plan: Plan, runs: nat -> SegmentRun)
    returns (segments: seq<Segment>, last: Loop)
    requires var b := Book(task.payload, size, FromPlan(plan), runs);
      size != 0 && Valid(b) && !GoesForever(b)
    modifies task`cursor
    ensures var b := Book(task.payload, size, FromPlan(plan), runs);
      SegmentsOf(segments, b) && last == LoopAt(b, |segments|) && !Goes(last)
    ensures last.mode != Finished ==>
      && task.cursor.runtime == ReviewPending(task.payload, last).(retryFloor := task.cursor.runtime.retryFloor)
      && task.cursor.next == Max(BookStart(task.payload), task.cursor.runtime.next)
      && ExitsEarly(PlanFor(task.View(), size))
  {
    ghost var b := Book(task.payload, size, FromPlan(plan), runs);
    ghost var bound: nat :| !GoesAfter(b, bound);
    last := FromPlan(plan);
    segments := [];
    while last.mode == SegmentRunning && last.next <= last.bookEnd
      invariant last == LoopAt(b, |segments|)
      invariant Framed(task.payload, last)
      invariant |segments| <= bound
      invariant SegmentsOf(segments, b)
      decreases bound - |segments|
    {
      var segment;
      StepKeepsFrame(task.payload, size, last, runs(|segments|));
      OneMoreSegment(segments, b);
      segment, last := RunSegment(task, size, last, runs(|segments|));
      segments := segments + [segment];
    }
    if last.mode != Finished {
      AnnounceReview(task, size, last);
    }
  }

  // ---------- a fresh start ----------

  ghost function FreshBook(start: int, num: int, size: int, runs: nat -> SegmentRun): Book {
    Book(Submit(start, num), size, FromPlan(PlanFor(Row(Submit(start, num), NEW_CURSOR, {}), size)), runs)
  }

  /** The loop of a fresh start at chunk number `k`, about to run it from its first chapter. */
  function AtChunk(start: int, num: int, size: int, k: nat): Loop {
    var at := start + k * ChunkSize(size);
    Loop(at, start + num - 1, k + 1, at, Min(at + ChunkSize(size) - 1, start + num - 1), start, SegmentRunning)
  }

  /** The loop is in chunk number `k`, wherever it resumes there. */
  predicate InChunk(t: Loop, start: int, num: int, size: int, k: nat) {
    t == AtChunk(start, num, size, k).(next := t.next) && t.segStart <= t.next <= t.segEnd
  }

  lemma FreshStart(start: int, num: int, size: int, runs: nat -> SegmentRun)
    requires start >= 1 && num >= 1 && size != 0
    ensures FreshBook(start, num, size, runs).first == AtChunk(start, num, size, 0)
  {
    QuotientIs(0, Max(1, size), 0, 0);
  }

  lemma VolumeOfChunk(start: int, size: int, k: nat)
    requires start >= 1 && size != 0
    ensures VolumeNoFor(start + k * ChunkSize(size), start, size) == k + 1
  {
    QuotientIs(k * ChunkSize(size), ChunkSize(size), k, 0);
    assert k * ChunkSize(size) >= 0;
  }

  /** From a chunk, a run that stays leads back to it. */
  lemma ChunkStays(start: int, num: int, size: int, k: nat, t: Loop, run: SegmentRun)
    requires start >= 1 && InChunk(t, start, num, size, k) && Goes(t)
    requires Stays(run) && run.grow == 0
    ensures InChunk(LoopStep(Submit(start, num), size, t, run), start, num, size, k)
  {
  }

  /** And one that moves on leads to the next chunk, or to the end of the book. */
  lemma ChunkMoves(start: int, num: int, size: int, k: nat, t: Loop, run: SegmentRun)
    requires start >= 1 && size != 0 && InChunk(t, start, num, size, k) && Goes(t)
    requires Moved(run) && run.grow == 0
    ensures var next := LoopStep(Submit(start, num), size, t, run);
      if (k + 1) * ChunkSize(size) < num then InChunk(next, start, num, size, k + 1) else !Goes(next)
  {
    assert (k + 1) * ChunkSize(size) == k * ChunkSize(size) + ChunkSize(size);
    if (k + 1) * ChunkSize(size) < num {
      VolumeOfChunk(start, size, k + 1);
      assert t.segEnd + 1 == start + (k + 1) * ChunkSize(size);
    }
  }

  lemma InChunkGoes(t: Loop, start: int, num: int, size: int, k: nat)
    requires InChunk(t, start, num, size, k)
    ensures Goes(t) && SegmentOf(t) == SegmentOfChunk(ChunkAt(start, num, size, k))
  {
  }

  function SegmentOfChunk(c: Chunk): Segment {
    Segment(c.volumeNo, c.start, c.start + c.len - 1)
  }

  /** The loop is in chunk number `k`, or has ended when there is no such chunk. */
  predicate Follows(t: Loop, start: int, num: int, size: int, k: nat) {
    if k * ChunkSize(size) < num then InChunk(t, start, num, size, k) else !Goes(t)
  }

  lemma ChunkStep(start: int, num: int, size: int, k: nat, t: Loop, run: SegmentRun)
    requires start >= 1 && size != 0 && Follows(t, start, num, size, k)
    requires run.Ran? && run.grow == 0
    ensures Follows(LoopStep(Submit(start, num), size, t, run), start, num, size, if Moved(run) then k + 1 else k)
  {
    ProductGrows(k, k + 1, ChunkSize(size));
    if k * ChunkSize(size) < num {
      InChunkGoes(t, start, num, size, k);
      if Stays(run) {
        ChunkStays(start, num, size, k, t, run);
      } else {
        ChunkMoves(start, num, size, k, t, run);
      }
    }
  }

  /** Without growth the loop is, after any runs, in the chunk whose number is how many of them moved on,
      and it has ended when there is no such chunk. */
  lemma {:induction false} LoopFollowsTheChunks(start: int, num: int, size: int, runs: nat -> SegmentRun, n: nat)
    requires start >= 1 && num >= 1 && size != 0
    requires forall i :: 0 <= i < n ==> runs(i).Ran? && runs(i).grow == 0
    ensures var b := FreshBook(start, num, size, runs);
      Follows(LoopAt(b, n), start, num, size, Moves(b, n))
  {
    var b := FreshBook(start, num, size, runs);
    if n == 0 {
      FreshStart(start, num, size, runs);
    } else {
      LoopFollowsTheChunks(start, num, size, runs, n - 1);
      ChunkStep(start, num, size, Moves(b, n - 1), LoopAt(b, n - 1), runs(n - 1));
    }
  }

  /** The number of a chunk that the book has is below the number of chunks, and the first number
      without a chunk is that number. */
  lemma ChunkCount(num: int, size: int, k: nat, m: nat)
    requires (m - 1) * ChunkSize(size) < num <= m * ChunkSize(size)
    ensures k * ChunkSize(size) < num ==> k < m
    ensures k * ChunkSize(size) >= num ==> k >= m
  {
    if k < m {
      ProductGrows(k, m - 1, ChunkSize(size));
    } else {
      ProductGrows(m, k, ChunkSize(size));
    }
  }

  /** A book that is generated from its start, in runs that do not lengthen it, is generated in the
      chunks of `_volume_chunks`, with their volume numbers: each is run until a run moves on, and there
      are as many chunks as runs that moved on. */
  lemma {:induction false} FreshSegmentsAreTheChunks(
      start: int, num: int, size: int, runs: nat -> SegmentRun, segments: seq<Segment>, chunks: seq<Chunk>)
    requires start >= 1 && num >= 1 && size != 0
    requires forall i :: 0 <= i < |segments| ==> runs(i).Ran? && runs(i).grow == 0
    requires SegmentsOf(segments, FreshBook(start, num, size, runs))
    requires !Goes(LoopAt(FreshBook(start, num, size, runs), |segments|))
    requires forall k :: 0 <= k < |chunks| ==> chunks[k] == ChunkAt(start, num, size, k)
    requires |chunks| > 0 && (|chunks| - 1) * ChunkSize(size) < num <= |chunks| * ChunkSize(size)
    ensures var b := FreshBook(start, num, size, runs);
      && Moves(b, |segments|) == |chunks|
      && forall i :: 0 <= i < |segments| ==>
           Moves(b, i) < |chunks| && segments[i] == SegmentOfChunk(chunks[Moves(b, i)])
  {
    var b, n := FreshBook(start, num, size, runs), |segments|;
    forall i | 0 <= i < n
      ensures Moves(b, i) < |chunks| && segments[i] == SegmentOfChunk(chunks[Moves(b, i)])
    {
      LoopFollowsTheChunks(start, num, size, runs, i);
      assert Goes(LoopAt(b, i));
      InChunkGoes(LoopAt(b, i), start, num, size, Moves(b, i));
      ChunkCount(num, size, Moves(b, i), |chunks|);
    }
    LoopFollowsTheChunks(start, num, size, runs, n);
    if Moves(b, n) * ChunkSize(size) < num {
      InChunkGoes(LoopAt(b, n), start, num, size, Moves(b, n));
      assert false;
    }
    ChunkCount(num, size, Moves(b, n), |chunks|);
    if n > 0 {
      assert Moves(b, n - 1) < |chunks|;
    }
  }
}
