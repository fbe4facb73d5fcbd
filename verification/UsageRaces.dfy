/**
 Token totals of one task when workers overlap: a displaced worker still records, reports and, at
 its end, stores its summary, without a look at who owns the row.
 */
module UsageRaces {
  import opened LlmUsage
  import opened Numbers
  import opened Options
  import opened UsageChain

  datatype RaceOp = Starts(w: int) | Records(w: int, call: Call) | Reports(w: int) | Ends(w: int, commits: bool)

  /** The row, the running sessions, and all that was ever recorded. */
  datatype Race = Race(row: Stored, sessions: map<int, Session>, recorded: Stored)

  function SessionOf(s: Race, w: int): Option<Session> {
    if w in s.sessions then Some(s.sessions[w]) else None
  }

  function RaceStep(s: Race, op: RaceOp): Race {
    match op
    case Starts(w) => s.(sessions := s.sessions[w := FreshSession(s.row)])
    case Records(w, c) =>
      if w !in s.sessions then s
      else s.(sessions := s.sessions[w := AfterRecord(s.sessions[w], c)],
              recorded := Add(s.recorded, Amount(Delta(c.tokens))))
    case Reports(w) => s.(row := AfterProgress(s.row, Shown(SessionOf(s, w))))
    case Ends(w, commits) =>
      s.(row := if commits then Summary(SessionOf(s, w)) else s.row, sessions := s.sessions - {w})
  }

  function RaceRun(ops: seq<RaceOp>): Race {
    if ops == [] then Race(NOTHING, map[], NOTHING) else RaceStep(RaceRun(ops[..|ops| - 1]), ops[|ops| - 1])
  }

  /** A recorded call adds counts. */
  predicate IsCounting(op: RaceOp) {
    op.Records? ==> Consistent(Amount(Delta(op.call.tokens)))
  }

  /** And so does one from a response that reports no negative number of visible tokens. */
  ghost predicate IsReported(op: RaceOp) {
    op.Records? ==> Reported(Record(op.call))
  }

  ghost predicate IsCovered(s: Race) {
    && Consistent(s.recorded) && Consistent(s.row) && AtMost(s.row, s.recorded)
    && forall w :: w in s.sessions ==> IsCoveredSession(s.sessions[w], s.recorded)
  }

  predicate IsCoveredSession(session: Session, recorded: Stored) {
    Consistent(Amount(session.totals)) && AtMost(Amount(session.totals), recorded)
  }

  lemma StepIsCovered(s: Race, op: RaceOp)
    requires IsCovered(s) && IsCounting(op)
    ensures IsCovered(RaceStep(s, op))
  {
    var t := RaceStep(s, op);
    forall w | w in t.sessions ensures IsCoveredSession(t.sessions[w], t.recorded)
    {
      if w in s.sessions {
        assert IsCoveredSession(s.sessions[w], s.recorded);
      }
    }
    if op.w in s.sessions {
      assert IsCoveredSession(s.sessions[op.w], s.recorded);
    }
  }

  /** However the workers overlap, the row never claims more than was recorded. */
  lemma {:induction false} NeverOvercounts(ops: seq<RaceOp>)
    requires forall op :: op in ops ==> IsReported(op)
    ensures IsCovered(RaceRun(ops))
  {
    if ops != [] {
      NeverOvercounts(ops[..|ops| - 1]);
      assert ops[|ops| - 1] in ops;
      if ops[|ops| - 1].Records? {
        ReportedCounts(Record(ops[|ops| - 1].call));
      }
      StepIsCovered(RaceRun(ops[..|ops| - 1]), ops[|ops| - 1]);
    }
  }

  /** With workers overlapping in any way, too, only an end lowers the row. */
  lemma OnlyAnEndLowers(s: Race, op: RaceOp)
    requires !(op.Ends? && op.commits)
    ensures AtMost(s.row, RaceStep(s, op).row)
    ensures op.Reports? ==> AtMost(Shown(SessionOf(s, op.w)), RaceStep(s, op).row)
  {
    ReportIsTheLeastAbove(s.row, Shown(SessionOf(s, op.w)), s.row);
  }

  function Minus(a: Stored, b: Stored): Stored {
    Stored(a.input - b.input, a.output - b.output, a.billable - b.billable)
  }

  /** What the session of a worker does not know of: what the row lacked when it started, and what others
      recorded since. */
  function Missed(ops: seq<RaceOp>, w: int): Stored {
    if ops == [] then NOTHING
    else
      var init, op := ops[..|ops| - 1], ops[|ops| - 1];
      var before := RaceRun(init);
      if op.Starts? && op.w == w then Minus(before.recorded, before.row)
      else if op.Records? && op.w != w && op.w in before.sessions then
        Add(Missed(init, w), Amount(Delta(op.call.tokens)))
      else Missed(init, w)
  }

  lemma {:induction false} KnownPlusMissedIsRecorded(ops: seq<RaceOp>, w: int)
    requires forall op :: op in ops ==> IsReported(op)
    requires w in RaceRun(ops).sessions
    ensures Add(Amount(RaceRun(ops).sessions[w].totals), Missed(ops, w)) == RaceRun(ops).recorded
  {
    var init, op := ops[..|ops| - 1], ops[|ops| - 1];
    if op.Starts? && op.w == w {
      NeverOvercounts(init);
      FreshSessionContinues(RaceRun(init).row);
    } else {
      KnownPlusMissedIsRecorded(init, w);
    }
  }

  /** A worker's summary leaves the row exact if and only if the worker missed nothing: it started from an
      exact row, and nobody else recorded a token since. */
  lemma SummaryIsExactIff(ops: seq<RaceOp>, w: int)
    requires forall op :: op in ops ==> IsReported(op)
    requires w in RaceRun(ops).sessions
    ensures var end := RaceRun(ops + [Ends(w, true)]);
      end.row == end.recorded <==> Missed(ops, w) == NOTHING
  {
    assert (ops + [Ends(w, true)])[..|ops|] == ops;
    KnownPlusMissedIsRecorded(ops, w);
    NeverOvercounts(ops);
    assert IsCoveredSession(RaceRun(ops).sessions[w], RaceRun(ops).recorded);
    SummaryIsShown(SessionOf(RaceRun(ops), w));
  }

  lemma RaceThen(ops: seq<RaceOp>, op: RaceOp) returns (longer: seq<RaceOp>)
    ensures longer == ops + [op] && RaceRun(longer) == RaceStep(RaceRun(ops), op)
  {
    longer := ops + [op];
    assert longer[..|ops|] == ops;
  }

  /** So a displaced worker that ends after its successor wipes what the successor stored. */
  lemma DisplacedEndWipesTheSuccessor(c: Call) returns (ops: seq<RaceOp>)
    requires Consistent(Amount(Delta(c.tokens)))
    ensures ops == [Starts(1), Starts(2), Records(2, c), Ends(2, true), Ends(1, true)]
    ensures RaceRun(ops[..4]).row == Amount(Delta(c.tokens))
    ensures RaceRun(ops).row == NOTHING && RaceRun(ops).recorded == Amount(Delta(c.tokens))
  {
    ops := BothStartAndOneRecords(c);
    ops := RaceThen(ops, Ends(2, true));
    var before := ops;
    ops := RaceThen(ops, Ends(1, true));
    assert ops[..4] == before;
  }

  lemma FreshSessionIsEmpty()
    ensures FreshSession(NOTHING) == Session(ZERO, 0, map[])
  {
  }

  lemma BothStartAndOneRecords(c: Call) returns (ops: seq<RaceOp>)
    requires Consistent(Amount(Delta(c.tokens)))
    ensures ops == [Starts(1), Starts(2), Records(2, c)]
    ensures var s := RaceRun(ops);
      && s.row == NOTHING && s.recorded == Amount(Delta(c.tokens))
      && 1 in s.sessions && Amount(s.sessions[1].totals) == NOTHING
      && 2 in s.sessions && Amount(s.sessions[2].totals) == Amount(Delta(c.tokens))
  {
    ops := BothStart(1, 2);
    RecordsAlone(RaceRun(ops), c);
    ops := RaceThen(ops, Records(2, c));
  }

  lemma BothStart(v: int, w: int) returns (ops: seq<RaceOp>)
    ensures ops == [Starts(v), Starts(w)]
    ensures var s := RaceRun(ops);
      && s.row == s.recorded == NOTHING && v in s.sessions && w in s.sessions
      && s.sessions[v] == s.sessions[w] == FreshSession(NOTHING)
  {
    var first := OneStarts(v);
    ops := RaceThen(first, Starts(w));
  }

  lemma OneStarts(w: int) returns (ops: seq<RaceOp>)
    ensures ops == [Starts(w)]
    ensures var s := RaceRun(ops);
      && s.row == s.recorded == NOTHING && w in s.sessions && s.sessions[w] == FreshSession(NOTHING)
  {
    ops := [Starts(w)];
    var start := Race(NOTHING, map[], NOTHING);
    assert RaceRun(ops[..0]) == start;
    assert RaceRun(ops) == RaceStep(start, Starts(w));
  }

  lemma RecordsAlone(s: Race, c: Call)
    requires s.row == s.recorded == NOTHING && 2 in s.sessions && s.sessions[2] == FreshSession(NOTHING)
    ensures var t := RaceStep(s, Records(2, c));
      && t.row == NOTHING && t.recorded == Amount(Delta(c.tokens))
      && Amount(t.sessions[2].totals) == Amount(Delta(c.tokens))
      && (1 in s.sessions ==> t.sessions[1] == s.sessions[1])
  {
    FreshSessionIsEmpty();
  }
}
