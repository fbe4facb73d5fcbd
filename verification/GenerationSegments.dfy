/**
 The segment loop of a book generation: which segments it hands to the pipeline, in which order,
 and when it ends.
 */
module GenerationSegments {
  import opened GenerationResume
  import opened GenerationRetry
  import opened Numbers
  import opened Options

  // ---------- the chunks of a book ----------

  datatype Chunk = Chunk(volumeNo: int, start: int, len: int)

  function ChunkSize(size: int): int {
    Max(1, OrElse(size, 30))
  }

  lemma ChunkSizeIs(size: int)
    ensures ChunkSize(size) == if size == 0 then 30 else if size < 0 then 1 else size
  {
  }

  /** Chunk number `k` of a book of `num` chapters. */
  function ChunkAt(start: int, num: int, size: int, k: nat): Chunk {
    Chunk(k + 1, start + k * ChunkSize(size), Min(ChunkSize(size), num - k * ChunkSize(size)))
  }

  /** `_volume_chunks`: as many chunks as it takes, and no empty one. */
  method VolumeChunks(start: int, num: int, size: int) returns (chunks: seq<Chunk>)
    ensures forall k :: 0 <= k < |chunks| ==> chunks[k] == ChunkAt(start, num, size, k) && chunks[k].len >= 1
    ensures num <= |chunks| * ChunkSize(size)
    ensures |chunks| > 0 ==> (|chunks| - 1) * ChunkSize(size) < num
  {
    var chunkSize := ChunkSize(size);
    chunks := [];
    var remaining, current := Max(0, num), start;
    while remaining > 0
      invariant remaining == Max(0, num - |chunks| * chunkSize)
      invariant remaining > 0 ==> current == start + |chunks| * chunkSize
      invariant |chunks| > 0 ==> (|chunks| - 1) * chunkSize < num
      invariant forall k :: 0 <= k < |chunks| ==> chunks[k] == ChunkAt(start, num, size, k) && chunks[k].len >= 1
      decreases remaining
    {
      assert (|chunks| + 1) * chunkSize == |chunks| * chunkSize + chunkSize;
      var len := Min(chunkSize, remaining);
      chunks := chunks + [Chunk(|chunks| + 1, current, len)];
      current, remaining := current + len, remaining - len;
    }
  }

  // ---------- the loop ----------

  /** What one pipeline run leaves in the runtime state. Either it is still about segments: `grow`
      chapters were added at the end of the segment and of the book, and `left` chapters of the segment
      are from the next chapter on, none if the next chapter was moved past it. Or it is in another
      mode, whatever else it says. */
  datatype SegmentRun = Ran(grow: nat, left: nat) | Ended(rt: Runtime)

  predicate IsRun(run: SegmentRun) {
    run.Ended? ==> run.rt.mode !in {Unset, SegmentRunning} && run.rt.next >= 1
  }

  /** The variables of the loop. */
  datatype Loop = Loop(next: int, bookEnd: int, volumeNo: int, segStart: int, segEnd: int, floor: int, mode: Mode)

  function FromPlan(plan: Plan): Loop {
    Loop(plan.next, plan.bookEnd, plan.volumeNo, plan.segStart, plan.segEnd, plan.retryFloor, plan.mode)
  }

  predicate Goes(s: Loop) {
    s.mode == SegmentRunning && s.next <= s.bookEnd
  }

  /** What the loop amounts to while it goes. A run that moved the next chapter past its segment is
      followed by a new segment from there; one that did not, by the same segment again. */
  function LoopStep(p: Payload, size: int, s: Loop, run: SegmentRun): Loop {
    if !Goes(s) then s
    else match run
      case Ran(grow, left) =>
        var end, bookEnd := s.segEnd + grow, s.bookEnd + grow;
        if left == 0 then
          Loop(end + 1, bookEnd, VolumeNoFor(end + 1, BookStart(p), size),
               end + 1, Min(end + ChunkSize(size), bookEnd), s.floor, SegmentRunning)
        else Loop(Max(s.segStart, end + 1 - left), bookEnd, s.volumeNo, s.segStart, end, s.floor, SegmentRunning)
      case Ended(rt) => ReadBack(p, size, s, rt)
  }

  /** The variables that the orchestrator reads back from the runtime state after a run. */
  function ReadBack(p: Payload, size: int, s: Loop, rt: Runtime): Loop {
    var bookEnd := Max(Max(s.bookEnd, rt.bookEnd), BookEnd(p));
    var (segStart, segEnd) := Window(rt.next, rt.segStart, rt.segEnd, bookEnd, size);
    var pastSegment := rt.segEnd > 0 && rt.next > rt.segEnd;
    Loop(rt.next, bookEnd,
         if rt.volumeNo <= 0 || pastSegment then VolumeNoFor(rt.next, BookStart(p), size) else rt.volumeNo,
         segStart, segEnd, OrElse(rt.retryFloor, OrElse(s.floor, rt.next)), rt.mode)
  }

  /** What is read back of a run that left another mode: chapter and mode as it left them, the largest of the known
      book ends, its volume unless the chapter is past its segment, its window if that holds the chapter, and the
      first retry floor there is. */
  lemma ReadBackIs(p: Payload, size: int, s: Loop, rt: Runtime)
    ensures var t := ReadBack(p, size, s, rt);
      && t.next == rt.next && t.mode == rt.mode
      && t.bookEnd >= s.bookEnd && t.bookEnd >= rt.bookEnd && t.bookEnd >= BookEnd(p)
      && (t.bookEnd == s.bookEnd || t.bookEnd == rt.bookEnd || t.bookEnd == BookEnd(p))
      && (rt.volumeNo >= 1 && !(0 < rt.segEnd < rt.next) ==> t.volumeNo == rt.volumeNo)
      && (rt.volumeNo <= 0 || 0 < rt.segEnd < rt.next ==> t.volumeNo == VolumeNoFor(rt.next, BookStart(p), size))
      && (1 <= rt.segStart <= rt.next <= rt.segEnd <= t.bookEnd ==> t.segStart == rt.segStart && t.segEnd == rt.segEnd)
      && (rt.next >= 1 && !(1 <= rt.segStart <= rt.next <= rt.segEnd) ==>
            && t.segStart == rt.next
            && (size >= 1 ==> t.segEnd == Min(rt.next + size - 1, t.bookEnd)))
      && (rt.retryFloor != 0 ==> t.floor == rt.retryFloor)
      && (rt.retryFloor == 0 && s.floor != 0 ==> t.floor == s.floor)
      && (rt.retryFloor == 0 && s.floor == 0 ==> t.floor == rt.next)
  {
  }

  /** The generation of one book: its payload, the volume size, the loop as planned, and the runs. */
  datatype Book = Book(payload: Payload, size: int, first: Loop, runs: nat -> SegmentRun)

  /** The loop after the first `n` runs. */
  function LoopAt(b: Book, n: nat): Loop {
    if n == 0 then b.first else LoopStep(b.payload, b.size, LoopAt(b, n - 1), b.runs(n - 1))
  }

  /** The window of the loop is around the next chapter, inside the book. */
  predicate Framed(p: Payload, s: Loop) {
    && PayloadEnd(p) <= s.bookEnd && s.floor != 0 && s.volumeNo >= 1
    && (Goes(s) ==> 1 <= s.segStart <= s.next <= s.segEnd <= s.bookEnd)
  }

  lemma PlanIsFramed(row: Row, size: int)
    requires PlanFor(row, size).next >= 1
    ensures Framed(row.payload, FromPlan(PlanFor(row, size)))
  {
    if PlanFor(row, size).mode == SegmentRunning {
      PlanHasAWindow(row, size);
    }
  }

  /** The run moved the next chapter past its segment. */
  predicate Moved(run: SegmentRun) {
    run.Ran? && run.left == 0
  }

  /** The run left the next chapter inside its segment. */
  predicate Stays(run: SegmentRun) {
    run.Ran? && run.left > 0
  }

  lemma StepKeepsFrame(p: Payload, size: int, s: Loop, run: SegmentRun)
    requires Framed(p, s) && IsRun(run)
    ensures var t := LoopStep(p, size, s, run);
      && Framed(p, t)
      && (Goes(s) && run.Ran? ==> t.bookEnd == s.bookEnd + run.grow)
      && (Goes(s) && Moved(run) ==> t.segStart == t.next == s.segEnd + run.grow + 1)
      && (Goes(s) && Stays(run) ==> Goes(t) && t.segStart == s.segStart && t.segEnd == s.segEnd + run.grow)
      && (run.Ended? ==> !Goes(t))
  {
  }

  /** What is handed to the pipeline. */
  datatype Segment = Segment(volumeNo: int, start: int, end: int)

  function SegmentOf(s: Loop): Segment {
    Segment(s.volumeNo, s.segStart, s.segEnd)
  }

  /** The runtime state after a run that announced `rt`. */
  function AfterRun(rt: Runtime, run: SegmentRun): Runtime {
    match run
    case Ran(grow, left) =>
      var end := rt.segEnd + grow;
      rt.(segEnd := end, next := Max(rt.segStart, end + 1 - left), bookEnd := rt.bookEnd + grow)
    case Ended(after) => after
  }

  /** The runtime state stored before a run. */
  function Announced(s: Loop): Runtime {
    Runtime(SegmentRunning, s.volumeNo, s.segStart, s.segEnd, s.next, s.bookEnd, s.floor)
  }

  /** One iteration: announce the segment, run the pipeline on it, read the row again. */
  method RunSegment(task: CreationTask, size: int, s: Loop, run: SegmentRun) returns (segment: Segment, t: Loop)
    requires size != 0 && Framed(task.payload, s) && Goes(s) && IsRun(run)
    modifies task`cursor
    ensures segment == SegmentOf(s)
    ensures t == LoopStep(task.payload, size, s, run)
    ensures var bookStart := BookStart(task.payload);
      task.cursor == Cursor(Some(Max(bookStart - 1, s.next - 1)), Max(bookStart, s.next), AfterRun(Announced(s), run))
  {
    var p := task.payload;
    var start := if s.segStart > 0 then s.segStart else s.next;
    var end := if s.segEnd >= start then s.segEnd else Min(start + Max(size - 1, 0), s.bookEnd);
    end := Min(end, s.bookEnd);
    segment := Segment(s.volumeNo, start, end);
    var runtime := Runtime(SegmentRunning, s.volumeNo, start, end, s.next, s.bookEnd, s.floor);
    task.PersistRuntime(runtime, false, BookStart(p));
    task.cursor := task.cursor.(runtime := AfterRun(task.cursor.runtime, run));

    var rt := task.cursor.runtime;
    var bookEnd := Max(Max(s.bookEnd, rt.bookEnd), BookEnd(p));
    var next := OrElse(rt.next, OrElse(task.cursor.next, end + 1));
    var floor := OrElse(rt.retryFloor, OrElse(s.floor, next));
    var volumeNo := rt.volumeNo;
    if volumeNo <= 0 || (rt.segEnd > 0 && next > rt.segEnd) {
      volumeNo := VolumeNoFor(next, BookStart(p), size);
    }
    var (segStart, segEnd) := Window(next, rt.segStart, rt.segEnd, bookEnd, size);
    t := Loop(next, bookEnd, volumeNo, segStart, segEnd, floor, if rt.mode == Unset then SegmentRunning else rt.mode);
  }

  /** The runtime state of a pending final review. */
  function ReviewPending(p: Payload, s: Loop): Runtime {
    Runtime(FinalReviewPending, Max(1, if s.next <= s.bookEnd then s.volumeNo else s.volumeNo - 1),
            Max(BookStart(p), s.next), Max(BookStart(p), s.bookEnd), Max(s.bookEnd + 1, s.next), s.bookEnd, 0)
  }

  /** The pending review is of the book up to its end, and the next chapter is the one after it, or the loop's own if
      that is later still. The volume is the loop's, or the one before if the loop had moved past the book. */
  lemma ReviewFollowsTheBook(p: Payload, s: Loop)
    requires BookStart(p) <= s.bookEnd && s.volumeNo >= 1
    ensures var rt := ReviewPending(p, s);
      && rt.mode == FinalReviewPending && rt.bookEnd == rt.segEnd == s.bookEnd && rt.retryFloor == 0
      && (s.next <= s.bookEnd ==> rt.next == s.bookEnd + 1 && rt.volumeNo == s.volumeNo)
      && (s.next > s.bookEnd ==> rt.next == s.next)
      && (s.next > s.bookEnd && s.volumeNo >= 2 ==> rt.volumeNo == s.volumeNo - 1)
      && (s.next > s.bookEnd && s.volumeNo == 1 ==> rt.volumeNo == 1)
      && rt.segStart >= BookStart(p) && rt.segStart >= s.next && (rt.segStart == BookStart(p) || rt.segStart == s.next)
  {
  }

  /** After the loop: the final review is pending, unless it is done. A worker that starts over from
      there finds nothing left and completes the task, with or without the review. */
  method AnnounceReview(task: CreationTask, size: int, s: Loop)
    requires s.mode != Finished && PayloadEnd(task.payload) <= s.bookEnd
    modifies task`cursor
    ensures task.View() == AfterPersist(old(task.View()), ReviewPending(task.payload, s), true, BookStart(task.payload))
    ensures ExitsEarly(PlanFor(task.View(), size))
  {
    var volumeNo := Max(1, if s.next <= s.bookEnd then s.volumeNo else s.volumeNo - 1);
    var bookStart := BookStart(task.payload);
    task.PersistRuntime(Runtime(FinalReviewPending, volumeNo, Max(bookStart, s.next), Max(bookStart, s.bookEnd),
                                Max(s.bookEnd + 1, s.next), s.bookEnd, 0), true, bookStart);
    ExitsEarlyIff(task.View(), size);
  }
}
