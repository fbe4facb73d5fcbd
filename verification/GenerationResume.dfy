/**
 Resuming a book generation: the cursor and runtime state on the task row, everything that
 writes them, and the plan a restarted worker derives from them. Numbers are those of the JSON
 columns: 0 stands for a missing field, which Python's `or` does not tell apart.
 */
module GenerationResume {
  import opened Checkpoints
  import opened GenerationRetry
  import opened Numbers
  import opened Options

  datatype Mode = Unset | SegmentRunning | FinalReviewPending | Finished | OtherMode

  datatype Runtime = Runtime(mode: Mode, volumeNo: int, segStart: int, segEnd: int, next: int, bookEnd: int,
                             retryFloor: int)

  datatype Cursor = Cursor(last: Option<int>, next: int, runtime: Runtime)

  const NEW_CURSOR := Cursor(None, 0, Runtime(Unset, 0, 0, 0, 0, 0, 0))

  /** The columns of the task row and its checkpoints that matter for resuming. */
  datatype Row = Row(payload: Payload, cursor: Cursor, units: set<int>)

  datatype Plan = Plan(
    next: int, bookStart: int, bookTotal: int, bookEnd: int,
    volumeNo: int, segStart: int, segEnd: int, retryFloor: int, mode: Mode)

  // ---------- volumes and windows ----------

  /** `_volume_no_for_next_chapter`. */
  function VolumeNoFor(next: int, bookStart: int, size: int): int {
    var start := Max(1, bookStart);
    Max(1, (Max(start, OrElse(next, start)) - start) / Max(1, size) + 1)
  }

  /** `_resolve_segment_window`: the stored segment if it holds the chapter, else a new one from it. */
  function Window(next: int, segStart: int, segEnd: int, bookEnd: int, size: int): (int, int) {
    if segStart > 0 && segEnd >= segStart && segStart <= next <= segEnd then (segStart, Min(segEnd, bookEnd))
    else (Max(1, next), Min(Max(1, next) + Max(OrElse(size, 1) - 1, 0), bookEnd))
  }

  /** The window holds the chapter, inside the book, exactly when the chapter is one of the book's. */
  lemma WindowHoldsTheChapterIff(next: int, segStart: int, segEnd: int, bookEnd: int, size: int)
    ensures var (start, end) := Window(next, segStart, segEnd, bookEnd, size);
      1 <= start <= next <= end <= bookEnd <==> 1 <= next <= bookEnd
  {
  }

  /** A window once stored stays: computing it again, for any chapter in it, changes nothing. */
  lemma WindowIsStable(next: int, segStart: int, segEnd: int, bookEnd: int, size: int, later: int)
    requires 1 <= next <= bookEnd
    requires var (start, end) := Window(next, segStart, segEnd, bookEnd, size); start <= later <= end
    ensures var (start, end) := Window(next, segStart, segEnd, bookEnd, size);
      Window(later, start, end, bookEnd, size) == (start, end)
  {
  }

  /** The bounds of a window outright: a stored segment around the chapter keeps its start, any other one
      starts at the chapter and is a volume long; the book's end cuts both. */
  lemma WindowIs(next: int, segStart: int, segEnd: int, bookEnd: int, size: int, length: int)
    requires length == if size >= 1 then size else 1
    ensures var (start, end) := Window(next, segStart, segEnd, bookEnd, size);
      && (0 < segStart <= next <= segEnd ==> start == segStart && end == if segEnd < bookEnd then segEnd else bookEnd)
      && (!(0 < segStart <= next <= segEnd) ==>
            && start == (if next >= 1 then next else 1)
            && end == if start + length - 1 < bookEnd then start + length - 1 else bookEnd)
  {
  }

  /** Chapter `c` is in volume `v`, counting volumes of `length` chapters from chapter `first`; what lies
      before that counts as the first volume. */
  predicate InVolume(c: int, v: int, first: int, length: int) {
    && v >= 1
    && (c >= first ==> first + (v - 1) * length <= c < first + v * length)
    && (c < first ==> v == 1)
  }

  lemma QuotientIsTheVolume(c: int, first: int, length: int)
    requires length >= 1
    ensures InVolume(c, Max(1, (Max(c, first) - first) / length + 1), first, length)
  {
    var past := Max(c, first) - first;
    var q, r := past / length, past % length;
    assert past == q * length + r;
    QuotientIs(0, length, 0, 0);
    assert Max(1, q + 1) == q + 1;
    assert (q + 1) * length == q * length + length;
  }

  /** The number is that of the volume with the chapter in it, from the start of the book. */
  lemma VolumeHoldsTheChapter(next: int, bookStart: int, size: int, length: int)
    requires length == if size >= 1 then size else 1
    ensures InVolume(next, VolumeNoFor(next, bookStart, size), if bookStart >= 1 then bookStart else 1, length)
  {
    QuotientIsTheVolume(next, Max(1, bookStart), length);
    QuotientIs(0, length, 0, 0);
  }

  // ---------- the plan ----------

  function StoredMode(row: Row): Mode {
    if row.cursor.runtime.mode == Unset then SegmentRunning else row.cursor.runtime.mode
  }

  /** Where the runtime state, else the cursor, else the payload says to go on. */
  function Position(row: Row): int {
    OrElse(row.cursor.runtime.next, OrElse(row.cursor.next, RangeStart(row.payload)))
  }

  /** The last chapter that the payload asks for. */
  function PayloadEnd(p: Payload): int {
    Max(BookEnd(p), RangeEnd(p))
  }

  function EffectiveEnd(row: Row): int {
    OrElse(row.cursor.runtime.bookEnd, PayloadEnd(row.payload))
  }

  /** The volume recorded for the segment, unless the chapter lies past it. */
  function VolumeAt(row: Row, chapter: int, size: int): int {
    var rt := row.cursor.runtime;
    if rt.volumeNo <= 0 || (rt.segEnd > 0 && chapter > rt.segEnd)
    then VolumeNoFor(Max(chapter, BookStart(row.payload)), BookStart(row.payload), size)
    else rt.volumeNo
  }

  function RetryFloor(row: Row): int {
    if row.cursor.runtime.retryFloor <= 0 then Position(row) else row.cursor.runtime.retryFloor
  }

  function RangeOf(p: Payload): Span {
    Span(RangeStart(p), RangeEnd(p))
  }

  ghost function LastInRange(row: Row): Option<int> {
    LastUnit(InSpan(row.units, RangeOf(row.payload)))
  }

  /** Where the plan resumes. */
  ghost function ResumeAt(row: Row): int {
    match StoredMode(row)
    case OtherMode => ResumeFrom(RangeOf(row.payload), LastInRange(row))
    case SegmentRunning => Max(RangeStart(row.payload), Position(row))
    case _ => Max(BookStart(row.payload), EffectiveEnd(row) + 1)
  }

  /** The plan of a restarted worker. */
  ghost function PlanFor(row: Row, size: int): Plan {
    var p := row.payload;
    var at := ResumeAt(row);
    var end := Max(PayloadEnd(p), EffectiveEnd(row));
    if StoredMode(row) == OtherMode then
      Plan(at, BookStart(p), Max(1, BookTotal(p)), end,
           Max(1, (Max(at, BookStart(p)) - BookStart(p)) / Max(OrElse(size, 1), 1) + 1),
           at, Min(at + Max(OrElse(size, 1) - 1, 0), end), at, SegmentRunning)
    else
      var rt := row.cursor.runtime;
      var (start, stop) := Window(Max(Position(row), RangeStart(p)), rt.segStart, rt.segEnd, end, size);
      Plan(at, BookStart(p), Max(1, BookTotal(p)), end, VolumeAt(row, Position(row), size), start, stop,
           if StoredMode(row) == SegmentRunning then Max(RetryFloor(row), at) else RetryFloor(row),
           StoredMode(row))
  }

  /** The cursor that the planner leaves behind. */
  ghost function CursorAfterPlan(row: Row): Cursor {
    var at := ResumeAt(row);
    row.cursor.(next := at, last :=
      match StoredMode(row)
      case OtherMode => LastInRange(row)
      case SegmentRunning => if at > RangeStart(row.payload) then Some(at - 1) else None
      case _ => Some(Max(BookStart(row.payload) - 1, EffectiveEnd(row))))
  }

  // ---------- the writers of the row ----------

  class CreationTask {
    const payload: Payload
    var cursor: Cursor
    var units: set<int>

    constructor (payload: Payload)
      ensures View() == Row(payload, NEW_CURSOR, {})
    {
      this.payload := payload;
      cursor := NEW_CURSOR;
      units := {};
    }

    function View(): Row
      reads this
    {
      Row(payload, cursor, units)
    }

    /** `update_resume_cursor` leaves the runtime state alone. */
    method UpdateResumeCursor(last: Option<int>, next: int)
      modifies this`cursor
      ensures cursor == old(cursor).(last := last, next := next)
    {
      cursor := Cursor(last, next, cursor.runtime);
    }

    /** `_persist_task_runtime_state`; without a floor the stored one stays. */
    method PersistRuntime(rt: Runtime, keepFloor: bool, bookStart: int)
      modifies this`cursor
      ensures View() == AfterPersist(old(View()), rt, keepFloor, bookStart)
    {
      var floor := if keepFloor then cursor.runtime.retryFloor else rt.retryFloor;
      cursor := cursor.(runtime := rt.(retryFloor := floor));
      UpdateResumeCursor(Some(Max(bookStart - 1, rt.next - 1)), Max(bookStart, rt.next));
    }

    /** `_mark_creation_chapter_completed`. */
    method MarkChapterCompleted(chapter: int)
      modifies this
      ensures View() == AfterCompleted(old(View()), chapter)
    {
      units := units + {chapter};
      var last := GetLastCompleted(units);
      UpdateResumeCursor(last, (if last.Some? then last.value else 0) + 1);
    }

    /** The cursor repair when a worker stops on a failure or a pause. */
    method RepairCursor()
      modifies this`cursor
      ensures View() == AfterRepair(old(View()))
    {
      var last := GetLastCompleted(units);
      if last.Some? {
        UpdateResumeCursor(last, last.value + 1);
      }
    }

    /** The last branch of the planner: any other mode falls back to the checkpoints in range. */
    method ResumeFromCheckpoints(size: int) returns (plan: Plan)
      requires cursor.runtime.mode == OtherMode
      modifies this`cursor
      ensures plan == PlanFor(old(View()), size)
      ensures View() == old(View()).(cursor := CursorAfterPlan(old(View())))
    {
      var bookStart := BookStart(payload);
      var bookEnd := Max(BookEnd(payload), RangeEnd(payload));
      var end := Max(bookEnd, OrElse(cursor.runtime.bookEnd, bookEnd));
      var last := GetLastCompleted(InSpan(units, RangeOf(payload)));
      var resume := ResumeFrom(RangeOf(payload), last);
      UpdateResumeCursor(last, resume);
      plan := Plan(resume, bookStart, Max(1, BookTotal(payload)), end,
                   Max(1, (Max(resume, bookStart) - bookStart) / Max(OrElse(size, 1), 1) + 1),
                   resume, Min(resume + Max(OrElse(size, 1) - 1, 0), end), resume, SegmentRunning);
    }

    /** `_resolve_generation_resume`. */
    method ResolveResume(size: int) returns (plan: Plan)
      modifies this`cursor
      ensures plan == PlanFor(old(View()), size)
      ensures View() == old(View()).(cursor := CursorAfterPlan(old(View())))
    {
      var rt := cursor.runtime;
      var taskStart, taskEnd := RangeStart(payload), RangeEnd(payload);
      var bookStart, bookTotal := BookStart(payload), Max(1, BookTotal(payload));
      var bookEnd := Max(BookEnd(payload), taskEnd);
      var effective := OrElse(rt.bookEnd, bookEnd);
      var next, volumeNo, floor := rt.next, rt.volumeNo, rt.retryFloor;
      if next == 0 {
        next := OrElse(cursor.next, taskStart);
      }
      if floor <= 0 {
        floor := next;
      }
      if volumeNo <= 0 || (rt.segEnd > 0 && next > rt.segEnd) {
        volumeNo := VolumeNoFor(Max(next, bookStart), bookStart, size);
      }
      assert next == Position(View()) && floor == RetryFloor(View()) && volumeNo == VolumeAt(View(), next, size);
      var (segStart, segEnd) := Window(Max(next, taskStart), rt.segStart, rt.segEnd, Max(bookEnd, effective), size);
      match rt.mode {
        case Finished | FinalReviewPending =>
          UpdateResumeCursor(Some(Max(bookStart - 1, effective)), Max(bookStart, effective + 1));
          plan := Plan(Max(bookStart, effective + 1), bookStart, bookTotal, Max(bookEnd, effective),
                       volumeNo, segStart, segEnd, floor, rt.mode);
        case SegmentRunning | Unset =>
          var resume := Max(taskStart, next);
          UpdateResumeCursor(if resume > taskStart then Some(resume - 1) else None, resume);
          plan := Plan(resume, bookStart, bookTotal, Max(bookEnd, effective),
                       volumeNo, segStart, segEnd, Max(floor, resume), SegmentRunning);
        case OtherMode =>
          plan := ResumeFromCheckpoints(size);
      }
    }
  }

  function AfterPersist(row: Row, rt: Runtime, keepFloor: bool, bookStart: int): Row {
    row.(cursor := Cursor(Some(Max(bookStart - 1, rt.next - 1)), Max(bookStart, rt.next),
                          if keepFloor then rt.(retryFloor := row.cursor.runtime.retryFloor) else rt))
  }

  ghost function AfterCompleted(row: Row, chapter: int): Row {
    var units := row.units + {chapter};
    var last := LastUnit(units);
    row.(units := units, cursor := row.cursor.(last := last, next := (if last.Some? then last.value else 0) + 1))
  }

  ghost function AfterRepair(row: Row): Row {
    var last := LastUnit(row.units);
    if last.None? then row else row.(cursor := row.cursor.(last := last, next := last.value + 1))
  }

  // ---------- histories of a row ----------

  /** Everything that writes cursor, runtime state or checkpoints: the planner, the orchestrator,
      the pipeline, a completed chapter, a failing worker, and the user's resume. */
  datatype Op =
    | Replan
    | Persist(rt: Runtime, keepFloor: bool, bookStart: int)
    | Pipeline(rt: Runtime)
    | Complete(chapter: int)
    | Repair
    | Requeue

  ghost function Step(row: Row, op: Op): Row {
    match op
    case Replan => row.(cursor := CursorAfterPlan(row))
    case Persist(rt, keepFloor, bookStart) => AfterPersist(row, rt, keepFloor, bookStart)
    case Pipeline(rt) => row.(cursor := row.cursor.(runtime := rt))
    case Complete(chapter) => AfterCompleted(row, chapter)
    case Repair => AfterRepair(row)
    case Requeue =>
      if row.cursor.next == 0 then row
      else row.(cursor := row.cursor.(runtime := row.cursor.runtime.(retryFloor := row.cursor.next)))
  }

  ghost function Run(p: Payload, ops: seq<Op>): Row {
    if ops == [] then Row(p, NEW_CURSOR, {}) else Step(Run(p, ops[..|ops| - 1]), ops[|ops| - 1])
  }

  /** Whenever the cursor names a last completed chapter, it resumes at the next one. */
  predicate Coherent(cursor: Cursor) {
    cursor.last.Some? ==> cursor.next == cursor.last.value + 1
  }

  lemma {:induction false} EveryWriterKeepsTheCursorCoherent(p: Payload, ops: seq<Op>)
    ensures Coherent(Run(p, ops).cursor)
  {
    if ops != [] {
      EveryWriterKeepsTheCursorCoherent(p, ops[..|ops| - 1]);
    }
  }

  /** The writers know where they are: a stored runtime state names a chapter, and completed
      chapters belong to the task. */
  predicate Proper(p: Payload, op: Op) {
    match op
    case Persist(rt, _, _) => rt.next >= 1
    case Pipeline(rt) => rt.next >= 1
    case Complete(chapter) => chapter >= RangeStart(p)
    case _ => true
  }

  predicate Located(row: Row) {
    && (row.cursor.runtime.next == 0 ==>
          row.cursor.runtime.mode == Unset && (row.cursor.next == 0 || row.cursor.next >= RangeStart(row.payload)))
    && (forall u :: u in row.units ==> u >= RangeStart(row.payload))
  }

  lemma {:induction false} ReachableIsLocated(p: Payload, ops: seq<Op>)
    requires RangeStart(p) >= 1
    requires forall op :: op in ops ==> Proper(p, op)
    ensures Located(Run(p, ops)) && Run(p, ops).payload == p
  {
    if ops != [] {
      assert ops[|ops| - 1] in ops;
      ReachableIsLocated(p, ops[..|ops| - 1]);
    }
  }

  // ---------- what is written, in the columns of the row ----------

  /** The chapter to go on with is the first of these that is set: the runtime state's, the cursor's, the
      payload's. The end is the runtime state's, else the later of the book's and the task's. */
  lemma PositionReads(row: Row)
    ensures var (stored, cursor) := (row.cursor.runtime.next, row.cursor.next);
      && (stored != 0 ==> Position(row) == stored)
      && (stored == 0 && cursor != 0 ==> Position(row) == cursor)
      && (stored == 0 && cursor == 0 ==> Position(row) == RangeStart(row.payload))
    ensures row.cursor.runtime.bookEnd != 0 ==> EffectiveEnd(row) == row.cursor.runtime.bookEnd
    ensures row.cursor.runtime.bookEnd == 0 ==>
      && (EffectiveEnd(row) == BookEnd(row.payload) || EffectiveEnd(row) == RangeEnd(row.payload))
      && EffectiveEnd(row) >= BookEnd(row.payload) && EffectiveEnd(row) >= RangeEnd(row.payload)
  {
  }

  /** A stored volume number counts while the chapter is not past the stored segment. */
  lemma VolumeAtReads(row: Row, chapter: int, size: int, length: int)
    requires length == if size >= 1 then size else 1
    ensures var (rt, b, v) := (row.cursor.runtime, BookStart(row.payload), VolumeAt(row, chapter, size));
      && (rt.volumeNo > 0 && (rt.segEnd <= 0 || chapter <= rt.segEnd) ==> v == rt.volumeNo)
      && (rt.volumeNo <= 0 || 0 < rt.segEnd < chapter ==>
            InVolume(if chapter < b then b else chapter, v, if b >= 1 then b else 1, length))
  {
    var b := BookStart(row.payload);
    VolumeHoldsTheChapter(if chapter < b then b else chapter, b, size, length);
  }

  /** What every plan says of the book: its end is the latest of the three that are known. */
  lemma PlanOfTheBook(row: Row, size: int)
    ensures var (plan, p) := (PlanFor(row, size), row.payload);
      && plan.bookStart == BookStart(p)
      && plan.bookTotal == (if BookTotal(p) >= 1 then BookTotal(p) else 1)
      && plan.bookEnd in {BookEnd(p), RangeEnd(p), EffectiveEnd(row)}
      && plan.bookEnd >= BookEnd(p) && plan.bookEnd >= RangeEnd(p) && plan.bookEnd >= EffectiveEnd(row)
  {
  }

  /** A stored segment, or none yet, goes on at the position, but not before the task's first chapter; a
      book whose writing is over resumes past its end. */
  lemma PlanOfAStoredMode(row: Row, size: int)
    requires row.cursor.runtime.mode != OtherMode
    ensures var (plan, p, rt) := (PlanFor(row, size), row.payload, row.cursor.runtime);
      var at := if Position(row) >= RangeStart(p) then Position(row) else RangeStart(p);
      && (rt.mode in {Unset, SegmentRunning} ==> plan.mode == SegmentRunning && plan.next == at)
      && (rt.mode in {Finished, FinalReviewPending} ==>
            && plan.mode == rt.mode
            && plan.next == if EffectiveEnd(row) >= BookStart(p) then EffectiveEnd(row) + 1 else BookStart(p))
      && (plan.segStart, plan.segEnd) == Window(at, rt.segStart, rt.segEnd, plan.bookEnd, size)
      && plan.volumeNo == VolumeAt(row, Position(row), size)
  {
  }

  /** The chapter before which nothing is written again. */
  lemma FloorOfAStoredMode(row: Row, size: int)
    requires row.cursor.runtime.mode != OtherMode
    ensures var (plan, rt) := (PlanFor(row, size), row.cursor.runtime);
      var stored := if rt.retryFloor > 0 then rt.retryFloor else Position(row);
      && (rt.mode in {Finished, FinalReviewPending} ==> plan.retryFloor == stored)
      && (rt.mode in {Unset, SegmentRunning} ==> plan.retryFloor == if plan.next < stored then stored else plan.next)
  {
  }

  /** Any other mode starts a new volume-long segment after the last completed chapter of the range. */
  lemma PlanFromTheCheckpoints(row: Row, size: int, length: int)
    requires row.cursor.runtime.mode == OtherMode && length == if size >= 1 then size else 1
    ensures var (plan, p) := (PlanFor(row, size), row.payload);
      && plan.mode == SegmentRunning && plan.segStart == plan.retryFloor == plan.next
      && plan.segEnd == (if plan.next + length - 1 < plan.bookEnd then plan.next + length - 1 else plan.bookEnd)
      && (plan.next == RangeStart(p) || (plan.next - 1 in row.units && RangeStart(p) < plan.next <= RangeEnd(p) + 1))
      && (forall u :: u in row.units && RangeStart(p) <= u <= RangeEnd(p) ==> u < plan.next)
      && InVolume(plan.next, plan.volumeNo, BookStart(p), length)
  {
    var last := LastInRange(row);
    var within := InSpan(row.units, RangeOf(row.payload));
    if last.Some? {
      assert last.value in within;
    }
    forall u | u in row.units && RangeStart(row.payload) <= u <= RangeEnd(row.payload)
      ensures u < ResumeAt(row)
    {
      assert u in within;
    }
    QuotientIsTheVolume(ResumeAt(row), BookStart(row.payload), length);
  }

  /** The planner leaves the runtime state alone and the cursor at the plan's chapter, after the one
      before it unless nothing is completed yet. */
  lemma PlannerWrites(row: Row, size: int)
    ensures var (plan, after) := (PlanFor(row, size), Step(row, Replan).cursor);
      && after.runtime == row.cursor.runtime && after.next == plan.next
      && (after.last == None || after.last == Some(plan.next - 1))
      && (after.last == None <==>
            match row.cursor.runtime.mode
            case Finished | FinalReviewPending => false
            case OtherMode => InSpan(row.units, RangeOf(row.payload)) == {}
            case _ => plan.next == RangeStart(row.payload))
  {
    var last := LastInRange(row);
    if last.Some? {
      assert last.value in InSpan(row.units, RangeOf(row.payload));
    }
  }

  /** What the writers of a run leave: the orchestrator its runtime state, and the cursor before its next
      chapter; a completed chapter the checkpoint, and the cursor past the last one; a repair no less. */
  lemma WritersWrite(row: Row, rt: Runtime, keepFloor: bool, bookStart: int, chapter: int)
    ensures var c := Step(row, Persist(rt, keepFloor, bookStart)).cursor;
      && c.runtime == rt.(retryFloor := if keepFloor then row.cursor.runtime.retryFloor else rt.retryFloor)
      && c.next == (if rt.next < bookStart then bookStart else rt.next) && c.last == Some(c.next - 1)
    ensures var after := Step(row, Complete(chapter));
      && after.units == row.units + {chapter} && after.cursor.runtime == row.cursor.runtime
      && after.cursor.next - 1 in after.units && (forall u :: u in after.units ==> u < after.cursor.next)
    ensures var after := Step(row, Repair);
      && after.units == row.units && after.cursor.runtime == row.cursor.runtime
      && (row.units == {} ==> after.cursor == row.cursor)
      && (row.units != {} ==>
            after.cursor.next - 1 in row.units && forall u :: u in row.units ==> u < after.cursor.next)
  {
  }

  /** The user's resume moves the floor to the cursor, if that has got anywhere. */
  lemma RequeueRaisesTheFloor(row: Row)
    ensures var after := Step(row, Requeue);
      && after.units == row.units && after.cursor.last == row.cursor.last && after.cursor.next == row.cursor.next
      && after.cursor.runtime.retryFloor
         == (if row.cursor.next != 0 then row.cursor.next else row.cursor.runtime.retryFloor)
      && after.cursor.runtime.(retryFloor := 0) == row.cursor.runtime.(retryFloor := 0)
  {
  }

  // ---------- what the plan guarantees ----------

  /** A plan to write chapters, from the runtime state or from the checkpoints, has a window around its
      first chapter, inside the book, exactly when that chapter is one of the book's. */
  lemma PlanHasAWindow(row: Row, size: int)
    requires PlanFor(row, size).mode == SegmentRunning
    ensures var plan := PlanFor(row, size);
      1 <= plan.segStart <= plan.next <= plan.segEnd <= plan.bookEnd <==> 1 <= plan.next <= plan.bookEnd
  {
    if StoredMode(row) == SegmentRunning {
      var rt := row.cursor.runtime;
      WindowHoldsTheChapterIff(
        ResumeAt(row), rt.segStart, rt.segEnd, Max(PayloadEnd(row.payload), EffectiveEnd(row)), size);
    }
  }

  /** Planning twice in a row gives the same plan exactly when the runtime state names the chapter,
      or the cursor's chapter and the task's first one get the same volume number. */
  lemma PlanningIsIdempotentIff(row: Row, size: int)
    requires StoredMode(row) == SegmentRunning
    ensures PlanFor(Step(row, Replan), size) == PlanFor(row, size) <==>
      || row.cursor.runtime.next != 0
      || VolumeAt(row, Position(row), size) == VolumeAt(row, Max(RangeStart(row.payload), Position(row)), size)
  {
    var again := Step(row, Replan);
    assert Position(again) == if row.cursor.runtime.next != 0 then Position(row) else ResumeAt(row);
    assert ResumeAt(again) == ResumeAt(row);
  }

  /** A cursor before the task's first chapter makes the second plan name another volume. */
  lemma PlanningMayChangeTheVolume()
    ensures var row := Row(Payload(31, 30, 60, 1, 60), NEW_CURSOR.(next := 5), {});
      PlanFor(row, 30).volumeNo == 1 && PlanFor(Step(row, Replan), 30).volumeNo == 2
  {
    var row := Row(Payload(31, 30, 60, 1, 60), NEW_CURSOR.(next := 5), {});
    assert Position(row) == 5 && ResumeAt(row) == 31;
    assert Position(Step(row, Replan)) == 31;
  }

  /** No history of the task's own writers gets there: planning is idempotent in every reachable row. */
  lemma ReachablePlansRepeat(p: Payload, ops: seq<Op>, size: int)
    requires RangeStart(p) >= 1
    requires forall op :: op in ops ==> Proper(p, op)
    ensures var row := Run(p, ops); PlanFor(Step(row, Replan), size) == PlanFor(row, size)
  {
    ReachableIsLocated(p, ops);
    var row := Run(p, ops);
    if StoredMode(row) == SegmentRunning {
      PlanningIsIdempotentIff(row, size);
    } else {
      OtherPlansRepeat(row, size);
    }
  }

  lemma OtherPlansRepeat(row: Row, size: int)
    requires StoredMode(row) != SegmentRunning && (row.cursor.runtime.next != 0 || StoredMode(row) == OtherMode)
    ensures PlanFor(Step(row, Replan), size) == PlanFor(row, size)
  {
    assert Position(Step(row, Replan)) == Position(row) || StoredMode(row) == OtherMode;
    assert ResumeAt(Step(row, Replan)) == ResumeAt(row);
  }

  /** The worker takes the plan for "nothing left" and completes the task without writing. */
  predicate ExitsEarly(plan: Plan) {
    plan.mode == Finished || plan.next > plan.bookEnd
  }

  /** When a restarted worker finds nothing left to do. With the final review pending that is
      exactly when the book was not ended before its planned end. */
  lemma ExitsEarlyIff(row: Row, size: int)
    ensures ExitsEarly(PlanFor(row, size)) <==>
      match StoredMode(row)
      case Finished => true
      case FinalReviewPending => EffectiveEnd(row) >= PayloadEnd(row.payload)
      case SegmentRunning => Position(row) > Max(PayloadEnd(row.payload), EffectiveEnd(row))
      case _ =>
        && LastInRange(row) == Some(PayloadEnd(row.payload))
        && EffectiveEnd(row) <= PayloadEnd(row.payload)
  {
    var last := LastInRange(row);
    if last.Some? {
      assert last.value in InSpan(row.units, RangeOf(row.payload));
    }
  }
}
