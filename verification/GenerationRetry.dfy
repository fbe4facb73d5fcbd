/**
 The chapter range in the payload of a generation task, and the new task that a retry builds
 from a cancelled one. Numbers are those of the JSON payload: Python's `or` treats 0 like a
 missing field.
 */
module GenerationRetry {
  import opened Numbers

  datatype Payload = Payload(start: int, num: int, originalTotal: int, bookStart: int, bookTotal: int)

  // ---------- what a payload says ----------

  function RangeStart(p: Payload): int {
    OrElse(p.start, 1)
  }

  function RangeEnd(p: Payload): int {
    RangeStart(p) + Max(p.num - 1, 0)
  }

  /** `_task_book_start`. */
  function BookStart(p: Payload): int {
    OrElse(p.bookStart, OrElse(p.start, 1))
  }

  /** `_task_book_total`. */
  function BookTotal(p: Payload): int {
    OrElse(p.bookTotal, OrElse(p.originalTotal, p.num))
  }

  /** `_task_book_end`. */
  function BookEnd(p: Payload): int {
    BookStart(p) + Max(Max(0, BookTotal(p)) - 1, 0)
  }

  /** Which fields count, in terms of those that are set: the book's own before the task's, and a book of
      `n` chapters ends with its n-th. */
  lemma PayloadReads(p: Payload)
    ensures RangeStart(p) == (if p.start != 0 then p.start else 1)
    ensures RangeEnd(p) == RangeStart(p) + (if p.num >= 1 then p.num - 1 else 0)
    ensures BookStart(p) == (if p.bookStart != 0 then p.bookStart else RangeStart(p))
    ensures p.bookTotal != 0 ==> BookTotal(p) == p.bookTotal
    ensures p.bookTotal == 0 && p.originalTotal != 0 ==> BookTotal(p) == p.originalTotal
    ensures p.bookTotal == 0 && p.originalTotal == 0 ==> BookTotal(p) == p.num
    ensures BookEnd(p) == BookStart(p) + (if BookTotal(p) >= 1 then BookTotal(p) - 1 else 0)
  {
  }

  // ---------- submission and retry ----------

  /** The payload of `submit_generation`. The request schema bounds neither number. */
  function Submit(start: int, num: int): Payload {
    Payload(start, num, 0, start, num)
  }

  /** The payload of the task that replaces a cancelled one whose cursor holds `next`. */
  function Retry(p: Payload, next: int): Payload {
    var start := OrElse(p.start, 1);
    var num := OrElse(p.num, 1);
    var originalTotal := OrElse(p.originalTotal, num);
    var bookStart := OrElse(p.bookStart, start);
    var end := start + Max(1, num) - 1;
    var retryStart := Max(start, Min(OrElse(next, start), end));
    var retryNum := Max(1, end - retryStart + 1);
    Payload(retryStart, retryNum, originalTotal, bookStart, originalTotal)
  }

  /** A submission, cancelled and retried once for each cursor. */
  function Chain(start: int, num: int, cursors: seq<int>): Payload {
    if cursors == [] then Submit(start, num)
    else Retry(Chain(start, num, cursors[..|cursors| - 1]), cursors[|cursors| - 1])
  }

  /** `q` asks for a non-empty suffix of the chapters of `p`, of the same book. */
  predicate Continues(q: Payload, p: Payload) {
    && RangeStart(p) <= RangeStart(q) <= RangeEnd(q) == RangeEnd(p)
    && BookStart(q) == BookStart(p)
    && BookEnd(q) == BookEnd(p)
    && Max(1, BookTotal(q)) == Max(1, BookTotal(p))
  }

  /** The submissions for which a retry can start at 0, which reads as a missing start. */
  predicate EndsAtZero(start: int, num: int) {
    start < 0 && start + Max(num - 1, 0) == 0
  }

  /** What all payloads of a chain have in common. */
  predicate InChain(p: Payload, start: int, num: int) {
    var origin := Submit(start, num);
    && Continues(p, origin)
    && (p == origin || (p.start != 0 && p.num >= 1 && p.bookStart == BookStart(origin)
                        && p.originalTotal == p.bookTotal == OrElse(num, 1)))
  }

  /** A retry that does not start at 0 keeps the end of the range. */
  lemma RetryKeepsTheEnd(p: Payload, next: int)
    ensures var q := Retry(p, next);
      && (q.start == 0 <==> RangeStart(p) < 0 && RangeEnd(p) == 0 && OrElse(next, RangeStart(p)) >= 0)
      && q.num >= 1
      && (q.start != 0 ==> RangeStart(p) <= RangeStart(q) <= RangeEnd(q) == RangeEnd(p))
  {
    assert Max(p.num - 1, 0) == Max(1, OrElse(p.num, 1)) - 1;
    assert RangeEnd(p) >= RangeStart(p);
  }

  lemma RetryKeepsTheBook(p: Payload, start: int, num: int, next: int)
    requires InChain(p, start, num)
    ensures var q := Retry(p, next);
      q.bookStart == BookStart(Submit(start, num)) && q.originalTotal == q.bookTotal == OrElse(num, 1)
  {
  }

  lemma RetryStaysInChain(p: Payload, start: int, num: int, next: int)
    requires !EndsAtZero(start, num) && InChain(p, start, num)
    ensures InChain(Retry(p, next), start, num) && Continues(Retry(p, next), p)
  {
    var origin, q := Submit(start, num), Retry(p, next);
    RetryKeepsTheEnd(p, next);
    RetryKeepsTheBook(p, start, num, next);
    assert BookStart(q) == BookStart(origin) && BookTotal(q) == OrElse(num, 1);
    assert BookTotal(origin) == num;
  }

  lemma {:induction false} ChainIsInChain(start: int, num: int, cursors: seq<int>)
    requires !EndsAtZero(start, num)
    ensures InChain(Chain(start, num, cursors), start, num)
  {
    if cursors != [] {
      var earlier := cursors[..|cursors| - 1];
      ChainIsInChain(start, num, earlier);
      RetryStaysInChain(Chain(start, num, earlier), start, num, cursors[|cursors| - 1]);
    }
  }

  lemma {:induction false} ChainContinues(start: int, num: int, cursors: seq<int>, k: nat)
    requires !EndsAtZero(start, num) && k <= |cursors|
    ensures Continues(Chain(start, num, cursors), Chain(start, num, cursors[..k]))
  {
    ChainIsInChain(start, num, cursors);
    if k == |cursors| {
      assert cursors[..k] == cursors;
    } else {
      var earlier := cursors[..|cursors| - 1];
      assert earlier[..k] == cursors[..k];
      ChainContinues(start, num, earlier, k);
      ChainIsInChain(start, num, earlier);
      RetryStaysInChain(Chain(start, num, earlier), start, num, cursors[|cursors| - 1]);
    }
  }

  /** Every task along every chain of retries asks for a non-empty suffix of each task before it,
      and end, book start, book total and book end stay those of the submission. This holds for
      all submissions but those of chapters `start..0` with a negative start. */
  lemma {:induction false} RetriesKeepTheRangeIff(start: int, num: int)
    ensures (forall cursors, k :: 0 <= k <= |cursors| ==>
               Continues(Chain(start, num, cursors), Chain(start, num, cursors[..k])))
            <==> !EndsAtZero(start, num)
  {
    if EndsAtZero(start, num) {
      var cursors := [1, 1];
      assert cursors[..1] == [1] && cursors[..0] == [] && [1][..0] == [];
      assert Chain(start, num, [1]) == Retry(Chain(start, num, []), 1);
      assert !Continues(Chain(start, num, cursors), Chain(start, num, cursors[..0]));
    } else {
      forall cursors: seq<int>, k | 0 <= k <= |cursors|
        ensures Continues(Chain(start, num, cursors), Chain(start, num, cursors[..k]))
      {
        ChainContinues(start, num, cursors, k);
      }
    }
  }

  /** A retry drops exactly the chapters before the cursor: it starts at the cursor when that
      lies in the range, and otherwise at the nearer end of the range. */
  lemma RetryStartsAtTheCursor(start: int, num: int, cursors: seq<int>, next: int)
    requires !EndsAtZero(start, num) && next != 0
    ensures var p := Chain(start, num, cursors);
      var q := Chain(start, num, cursors + [next]);
      && (RangeStart(p) <= next <= RangeEnd(p) ==> RangeStart(q) == next)
      && (next < RangeStart(p) ==> RangeStart(q) == RangeStart(p))
      && (RangeEnd(p) < next ==> RangeStart(q) == RangeEnd(q))
  {
    assert (cursors + [next])[..|cursors|] == cursors;
    ChainIsInChain(start, num, cursors);
    ChainIsInChain(start, num, cursors + [next]);
  }
}
