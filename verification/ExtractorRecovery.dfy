/**
 The self-heal queue for failed fact extractions: a periodic tick takes the oldest pending
 failures, retries each once, and escalates those that failed three times.
 */
module ExtractorRecovery {
  import opened Options

  const MAX_RETRIES := 3

  datatype RowStatus = Pending | Recovered | Escalated

  /** One failure row as stored. Tables list their rows in ascending id order. */
  datatype Row = Row(id: int, retryCount: nat, status: RowStatus)

  datatype Outcome = WasRecovered | WasEscalated | HasFailed

  datatype Summary = Summary(recovered: nat, failed: nat, escalated: nat, skippedDisabled: nat)

  /** The row after one retry. */
  function Retried(r: Row, recovers: bool): Row {
    if recovers then r.(status := Recovered)
    else r.(retryCount := r.retryCount + 1, status := if r.retryCount + 1 >= MAX_RETRIES then Escalated else Pending)
  }

  function CountPending(rows: seq<Row>): nat {
    if rows == [] then 0
    else CountPending(rows[..|rows| - 1]) + if rows[|rows| - 1].status == Pending then 1 else 0
  }

  /** Row i is among the first `limit` pending rows. */
  predicate Selected(rows: seq<Row>, limit: nat, i: nat)
    requires i < |rows|
  {
    rows[i].status == Pending && CountPending(rows[..i]) < limit
  }

  /** The table after one committed tick. */
  function Tick(rows: seq<Row>, limit: nat, runner: int -> bool): (next: seq<Row>)
    ensures |next| == |rows|
  {
    seq(|rows|, i requires 0 <= i < |rows| =>
      if Selected(rows, limit, i) then Retried(rows[i], runner(rows[i].id)) else rows[i])
  }

  /** What one tick does to a single row. */
  lemma TickAt(rows: seq<Row>, limit: nat, runner: int -> bool, i: nat)
    requires i < |rows|
    ensures var row, next := rows[i], Tick(rows, limit, runner)[i];
            && (!Selected(rows, limit, i) ==> next == row)
            && (Selected(rows, limit, i) && runner(row.id) ==> next == Row(row.id, row.retryCount, Recovered))
            && (Selected(rows, limit, i) && !runner(row.id) ==>
                  next == Row(row.id, row.retryCount + 1, if row.retryCount + 1 >= 3 then Escalated else Pending))
  {
    if Selected(rows, limit, i) {
      assert Tick(rows, limit, runner)[i] == Retried(rows[i], runner(rows[i].id));
    }
  }

  /** The selected rows among the first `n`, oldest first. */
  function Due(rows: seq<Row>, limit: nat, n: nat): (batch: seq<nat>)
    requires n <= |rows|
    ensures forall k :: 0 <= k < |batch| ==> batch[k] < n
  {
    if n == 0 then []
    else Due(rows, limit, n - 1) + if Selected(rows, limit, n - 1) then [n - 1] else []
  }

  /** How many rows of the batch the runner recovers. */
  function CountRecovered(rows: seq<Row>, batch: seq<nat>, runner: int -> bool): nat
    requires forall k :: 0 <= k < |batch| ==> batch[k] < |rows|
  {
    if batch == [] then 0
    else
      CountRecovered(rows, batch[..|batch| - 1], runner)
      + if runner(rows[batch[|batch| - 1]].id) then 1 else 0
  }

  /** How many it fails for the third time. */
  function CountGivenUp(rows: seq<Row>, batch: seq<nat>, runner: int -> bool): nat
    requires forall k :: 0 <= k < |batch| ==> batch[k] < |rows|
  {
    if batch == [] then 0
    else
      var row := rows[batch[|batch| - 1]];
      CountGivenUp(rows, batch[..|batch| - 1], runner) + if !runner(row.id) && row.retryCount >= 2 then 1 else 0
  }

  // ---------- the tick as the source runs it ----------

  /** A row loaded into the session. */
  class FailureRow {
    const id: int
    var retryCount: nat
    var status: RowStatus

    constructor (r: Row)
      ensures View() == r
    {
      id, retryCount, status := r.id, r.retryCount, r.status;
    }

    function View(): Row
      reads this
    {
      Row(id, retryCount, status)
    }

    /** `_process_one`; a crashing runner counts as not recovered. */
    method ProcessOne(recovered: bool) returns (outcome: Outcome)
      modifies this
      ensures View() == Retried(old(View()), recovered)
      ensures outcome == if recovered then WasRecovered
                         else if old(retryCount) >= 2 then WasEscalated else HasFailed
    {
      if recovered {
        status, outcome := Recovered, WasRecovered;
      } else {
        retryCount := retryCount + 1;
        if retryCount >= MAX_RETRIES {
          status, outcome := Escalated, WasEscalated;
        } else {
          status, outcome := Pending, HasFailed;
        }
      }
    }
  }

  lemma {:induction false} CountPrefix(rows: seq<Row>, i: nat)
    requires i <= |rows|
    ensures CountPending(rows[..i]) <= CountPending(rows)
    ensures i < |rows| ==>
              CountPending(rows[..i + 1]) == CountPending(rows[..i]) + if rows[i].status == Pending then 1 else 0
    decreases |rows| - i
  {
    if i < |rows| {
      assert rows[..i + 1][..i] == rows[..i];
      CountPrefix(rows, i + 1);
    } else {
      assert rows[..i] == rows;
    }
  }

  lemma {:induction false} CountUpdate(rows: seq<Row>, i: nat, r: Row)
    requires i < |rows| && rows[i].status == Pending
    ensures CountPending(rows[i := r]) + (if r.status == Pending then 0 else 1) == CountPending(rows)
  {
    var last := |rows| - 1;
    if i < last {
      CountUpdate(rows[..last], i, r);
      assert rows[i := r][..last] == rows[..last][i := r];
    } else {
      assert rows[i := r][..last] == rows[..last];
    }
  }

  lemma {:induction false} DueIsSelected(rows: seq<Row>, limit: nat, n: nat)
    requires n <= |rows|
    ensures var batch := Due(rows, limit, n);
      && (forall k, l :: 0 <= k < l < |batch| ==> batch[k] < batch[l])
      && (forall i: nat :: i < n ==> (i in batch <==> Selected(rows, limit, i)))
  {
    if n > 0 {
      DueIsSelected(rows, limit, n - 1);
    }
  }

  /** The query: the indices of the first `limit` pending rows, oldest first. */
  method SelectPending(rows: seq<Row>, limit: nat) returns (batch: seq<nat>)
    ensures forall k :: 0 <= k < |batch| ==> batch[k] < |rows|
    ensures forall k, l :: 0 <= k < l < |batch| ==> batch[k] < batch[l]
    ensures forall i: nat :: i < |rows| ==> (i in batch <==> Selected(rows, limit, i))
    ensures |batch| == if CountPending(rows) < limit then CountPending(rows) else limit
    ensures batch == Due(rows, limit, |rows|)
  {
    batch := [];
    for i := 0 to |rows|
      invariant |batch| == if CountPending(rows[..i]) < limit then CountPending(rows[..i]) else limit
      invariant batch == Due(rows, limit, i)
    {
      CountPrefix(rows, i);
      if rows[i].status == Pending && |batch| < limit {
        batch := batch + [i];
      }
    }
    assert rows[..|rows|] == rows;
    DueIsSelected(rows, limit, |rows|);
  }

  /** How many rows the query returns. */
  function BatchSize(rows: seq<Row>, limit: nat): nat {
    if CountPending(rows) < limit then CountPending(rows) else limit
  }

  /** Does the loop get through its whole batch, when an exception would strike at row `failsAt`? */
  predicate GetsThrough(rows: seq<Row>, limit: nat, failsAt: Option<nat>) {
    failsAt.None? || failsAt.value >= BatchSize(rows, limit)
  }

  /** How many rows the loop counts. */
  function Processed(rows: seq<Row>, limit: nat, failsAt: Option<nat>): nat {
    if GetsThrough(rows, limit, failsAt) then BatchSize(rows, limit) else failsAt.value
  }

  /** The summary after a row that the runner recovers or not. */
  function Counted(s: Summary, r: Row, recovers: bool): Summary {
    if recovers then s.(recovered := s.recovered + 1)
    else if r.retryCount + 1 >= MAX_RETRIES then s.(escalated := s.escalated + 1)
    else s.(failed := s.failed + 1)
  }

  function Tally(rows: seq<Row>, batch: seq<nat>, runner: int -> bool): Summary
    requires forall k :: 0 <= k < |batch| ==> batch[k] < |rows|
  {
    if batch == [] then Summary(0, 0, 0, 0)
    else
      var row := rows[batch[|batch| - 1]];
      Counted(Tally(rows, batch[..|batch| - 1], runner), row, runner(row.id))
  }

  /** The summary counts as recovered what the runner recovers, as escalated what it fails for the third
      time, and as failed the rest. */
  lemma {:induction false} TallyCounts(rows: seq<Row>, batch: seq<nat>, runner: int -> bool)
    requires forall k :: 0 <= k < |batch| ==> batch[k] < |rows|
    ensures var s := Tally(rows, batch, runner);
      && s.recovered == CountRecovered(rows, batch, runner) && s.escalated == CountGivenUp(rows, batch, runner)
      && s.recovered + s.failed + s.escalated == |batch| && s.skippedDisabled == 0
  {
    if batch != [] {
      TallyCounts(rows, batch[..|batch| - 1], runner);
    }
  }

  /** The first `n` rows of the batch are retried in the session, the others as they were. */
  predicate IsRetried(rows: seq<Row>, batch: seq<nat>, n: nat, runner: int -> bool, session: seq<Row>)
    requires n <= |batch| && forall k :: 0 <= k < |batch| ==> batch[k] < |rows|
  {
    && |session| == |rows|
    && (forall j :: 0 <= j < |rows| && j !in batch[..n] ==> session[j] == rows[j])
    && (forall k :: 0 <= k < n ==> session[batch[k]] == Retried(rows[batch[k]], runner(rows[batch[k]].id)))
  }

  lemma OneMoreRetried(rows: seq<Row>, batch: seq<nat>, n: nat, runner: int -> bool, session: seq<Row>)
    requires n < |batch| && forall k :: 0 <= k < |batch| ==> batch[k] < |rows|
    requires forall k, l :: 0 <= k < l < |batch| ==> batch[k] < batch[l]
    requires IsRetried(rows, batch, n, runner, session)
    ensures session[batch[n]] == rows[batch[n]]
    ensures var r := rows[batch[n]];
      IsRetried(rows, batch, n + 1, runner, session[batch[n] := Retried(r, runner(r.id))])
  {
    assert batch[n] !in batch[..n] && batch[..n + 1] == batch[..n] + [batch[n]];
  }

  /** The loop over the batch: the session's rows and the summary after its first `n` rows. */
  method RetryBatch(rows: seq<Row>, batch: seq<nat>, n: nat, runner: int -> bool)
    returns (session: seq<Row>, summary: Summary)
    requires n <= |batch|
    requires forall k :: 0 <= k < |batch| ==> batch[k] < |rows| && rows[batch[k]].status == Pending
    requires forall k, l :: 0 <= k < l < |batch| ==> batch[k] < batch[l]
    ensures IsRetried(rows, batch, n, runner, session) && summary == Tally(rows, batch[..n], runner)
    ensures CountPending(session) + summary.recovered + summary.escalated == CountPending(rows)
  {
    session, summary := rows, Summary(0, 0, 0, 0);
    for k := 0 to n
      invariant IsRetried(rows, batch, k, runner, session) && summary == Tally(rows, batch[..k], runner)
      invariant CountPending(session) + summary.recovered + summary.escalated == CountPending(rows)
    {
      var i := batch[k];
      OneMoreRetried(rows, batch, k, runner, session);
      assert batch[..k + 1][..k] == batch[..k];
      var row := new FailureRow(session[i]);
      var outcome := row.ProcessOne(runner(row.id));
      CountUpdate(session, i, row.View());
      session := session[i := row.View()];
      match outcome {
        case WasRecovered => summary := summary.(recovered := summary.recovered + 1);
        case WasEscalated => summary := summary.(escalated := summary.escalated + 1);
        case HasFailed => summary := summary.(failed := summary.failed + 1);
      }
    }
  }

  lemma WholeBatchIsATick(rows: seq<Row>, limit: nat, runner: int -> bool, batch: seq<nat>, session: seq<Row>)
    requires forall i: nat :: i < |rows| ==> (i in batch <==> Selected(rows, limit, i))
    requires forall k :: 0 <= k < |batch| ==> batch[k] < |rows|
    requires IsRetried(rows, batch, |batch|, runner, session)
    ensures session == Tick(rows, limit, runner)
  {
    assert batch[..|batch|] == batch;
    forall j: nat | j < |rows| ensures session[j] == Tick(rows, limit, runner)[j]
    {
      if Selected(rows, limit, j) {
        assert j in batch;
      }
    }
  }

  /** `run_recovery_once`. Whatever goes wrong, nothing is stored but a whole tick; the summary still
      counts every row up to where an exception struck, and every selected row when only the commit
      fails: as recovered what the runner recovers, as escalated what it fails for the third time. When
      the tick is stored, the pending rows that left the queue are exactly those counted as recovered or
      escalated. */
  method RunRecoveryOnce(
      rows: seq<Row>, enabled: bool, limit: nat, runner: int -> bool, failsAt: Option<nat>, commits: bool)
    returns (stored: seq<Row>, summary: Summary)
    ensures stored ==
      if enabled && commits && GetsThrough(rows, limit, failsAt) then Tick(rows, limit, runner) else rows
    ensures enabled ==>
      && summary.recovered + summary.failed + summary.escalated == Processed(rows, limit, failsAt)
      && Processed(rows, limit, failsAt) <= |Due(rows, limit, |rows|)|
      && var batch := Due(rows, limit, |rows|)[..Processed(rows, limit, failsAt)];
         && summary.recovered == CountRecovered(rows, batch, runner)
         && summary.escalated == CountGivenUp(rows, batch, runner)
    ensures enabled && commits && GetsThrough(rows, limit, failsAt) ==>
      CountPending(stored) + summary.recovered + summary.escalated == CountPending(rows)
    ensures !enabled ==> summary == Summary(0, 0, 0, 1)
  {
    if !enabled {
      return rows, Summary(0, 0, 0, 1);
    }
    var batch := SelectPending(rows, limit);
    var n := if failsAt.Some? && failsAt.value < |batch| then failsAt.value else |batch|;
    forall k | 0 <= k < |batch| ensures rows[batch[k]].status == Pending
    {
      assert batch[k] in batch && Selected(rows, limit, batch[k]);
    }
    var session;
    session, summary := RetryBatch(rows, batch, n, runner);
    TallyCounts(rows, batch[..n], runner);
    if n < |batch| {
      return rows, summary;
    }
    assert batch[..n] == batch;
    WholeBatchIsATick(rows, limit, runner, batch, session);
    stored := if commits then session else rows;
  }

  // ---------- runs ----------

  /** What happens up to and including one tick: newly logged failures, the retry results, and
      whether the tick is enabled and commits. */
  datatype Period = Period(arrivals: seq<Row>, runner: int -> bool, effective: bool)

  function Run(rows: seq<Row>, limit: nat, periods: seq<Period>): seq<Row>
    decreases periods
  {
    if periods == [] then rows
    else
      var p := periods[0];
      var all := rows + p.arrivals;
      Run(if p.effective then Tick(all, limit, p.runner) else all, limit, periods[1..])
  }

  function Effective(periods: seq<Period>): nat {
    if periods == [] then 0 else (if periods[0].effective then 1 else 0) + Effective(periods[1..])
  }

  /** A pending row has not used up its retries. */
  predicate Healthy(rows: seq<Row>) {
    forall i :: 0 <= i < |rows| && rows[i].status == Pending ==> rows[i].retryCount < MAX_RETRIES
  }

  predicate HealthyArrivals(periods: seq<Period>) {
    forall k :: 0 <= k < |periods| ==> Healthy(periods[k].arrivals)
  }

  /** Pending always implies fewer than three retries, and a recovered or escalated row is never
      touched again. */
  lemma {:induction false} TerminalIsFinal(rows: seq<Row>, limit: nat, periods: seq<Period>, i: nat)
    requires Healthy(rows) && HealthyArrivals(periods) && i < |rows|
    ensures var end := Run(rows, limit, periods);
            |end| >= |rows| && Healthy(end) && (rows[i].status != Pending ==> end[i] == rows[i])
    decreases periods
  {
    if periods != [] {
      var p := periods[0];
      var all := rows + p.arrivals;
      var next := if p.effective then Tick(all, limit, p.runner) else all;
      assert Healthy(p.arrivals);
      assert HealthyArrivals(periods[1..]) by {
        assert forall k :: 0 <= k < |periods| - 1 ==> periods[1..][k] == periods[k + 1];
      }
      forall j: nat | j < |all| ensures next[j].status == Pending ==> next[j].retryCount < MAX_RETRIES {
        TickAt(all, limit, p.runner, j);
      }
      if p.effective {
        TickAt(all, limit, p.runner, i);
      }
      TerminalIsFinal(next, limit, periods[1..], i);
    }
  }

  /** `rows` has evolved from `start` through k effective ticks: nothing became pending again, and the
      rows that were selected at the start have used up k retries or left the queue. */
  ghost predicate Evolved(start: seq<Row>, rows: seq<Row>, limit: nat, k: nat) {
    && |rows| >= |start| && Healthy(rows)
    && forall j: nat :: j < |start| ==>
         && (rows[j].status == Pending ==> start[j].status == Pending)
         && (rows[j].status == Pending && Selected(start, limit, j) ==> rows[j].retryCount >= k)
  }

  lemma {:induction false} FewerPending(start: seq<Row>, rows: seq<Row>, n: nat)
    requires n <= |start| && n <= |rows|
    requires forall j :: 0 <= j < n && rows[j].status == Pending ==> start[j].status == Pending
    ensures CountPending(rows[..n]) <= CountPending(start[..n])
  {
    if n > 0 {
      FewerPending(start, rows, n - 1);
      CountPrefix(start, n - 1);
      CountPrefix(rows, n - 1);
    }
  }

  /** If the rows selected at the start are gone, the queue ahead of i is shorter by the limit. */
  lemma {:induction false} SelectedAreGone(start: seq<Row>, rows: seq<Row>, limit: nat, i: nat)
    requires i <= |start| && i <= |rows|
    requires forall j: nat :: j < i && rows[j].status == Pending ==>
               start[j].status == Pending && !Selected(start, limit, j)
    ensures var r := CountPending(start[..i]);
            CountPending(rows[..i]) <= if r < limit then 0 else r - limit
  {
    if i > 0 {
      SelectedAreGone(start, rows, limit, i - 1);
      CountPrefix(start, i - 1);
      CountPrefix(rows, i - 1);
    }
  }

  lemma EvolveOnePeriod(start: seq<Row>, rows: seq<Row>, limit: nat, k: nat, p: Period)
    requires Evolved(start, rows, limit, k) && Healthy(p.arrivals)
    ensures var all := rows + p.arrivals;
            var next := if p.effective then Tick(all, limit, p.runner) else all;
            Evolved(start, next, limit, if p.effective then k + 1 else k)
  {
    var all := rows + p.arrivals;
    assert Healthy(all) && Evolved(start, all, limit, k);
    if p.effective {
      var next := Tick(all, limit, p.runner);
      forall j: nat | j < |all| && next[j].status == Pending
        ensures all[j].status == Pending && next[j].retryCount < MAX_RETRIES
        ensures j < |start| && Selected(start, limit, j) ==> next[j].retryCount >= k + 1
      {
        TickAt(all, limit, p.runner, j);
        if j < |start| {
          FewerPending(start, all, j);
        }
      }
    }
  }

  /** Ticks enough for a row with r pending rows ahead: three for every batch ahead, three for its own. */
  function TicksNeeded(r: nat, limit: nat): (t: nat)
    requires limit >= 1
    ensures t >= 3
  {
    if r < limit then 3 else 3 + TicksNeeded(r - limit, limit)
  }

  lemma {:induction false} TicksNeededMonotone(a: nat, r: nat, limit: nat)
    requires limit >= 1 && a <= r
    ensures TicksNeeded(a, limit) <= TicksNeeded(r, limit)
  {
    if a >= limit {
      TicksNeededMonotone(a - limit, r - limit, limit);
    }
  }

  lemma {:induction false} TicksNeededClosedForm(q: nat, rest: nat, limit: nat)
    requires rest < limit
    ensures q * limit + rest >= 0 && TicksNeeded(q * limit + rest, limit) == 3 * (q + 1)
  {
    if q > 0 {
      assert q * limit == (q - 1) * limit + limit;
      TicksNeededClosedForm(q - 1, rest, limit);
    }
  }

  lemma {:induction false} ResolvedFrom(start: seq<Row>, rows: seq<Row>, limit: nat, k: nat, periods: seq<Period>,
                                        i: nat)
    requires limit >= 1 && k <= 3 && i < |start|
    requires Evolved(start, rows, limit, k) && HealthyArrivals(periods)
    requires Effective(periods) + k >= TicksNeeded(CountPending(start[..i]), limit)
    ensures |Run(rows, limit, periods)| > i && Run(rows, limit, periods)[i].status != Pending
    decreases |periods|, k
  {
    TerminalIsFinal(rows, limit, periods, i);
    if rows[i].status != Pending {
      return;
    }
    var ahead := CountPending(start[..i]);
    if k == 3 {
      assert forall j: nat :: j < |start| && rows[j].status == Pending ==> !Selected(start, limit, j);
      SelectedAreGone(start, rows, limit, i);
      TicksNeededMonotone(CountPending(rows[..i]), ahead - limit, limit);
      ResolvedFrom(rows, rows, limit, 0, periods, i);
    } else {
      var p := periods[0];
      var all := rows + p.arrivals;
      var next := if p.effective then Tick(all, limit, p.runner) else all;
      EvolveOnePeriod(start, rows, limit, k, p);
      assert p in periods && Healthy(p.arrivals);
      assert HealthyArrivals(periods[1..]) by {
        assert forall m :: 0 <= m < |periods| - 1 ==> periods[1..][m] == periods[m + 1];
      }
      ResolvedFrom(start, next, limit, if p.effective then k + 1 else k, periods[1..], i);
    }
  }

  lemma TicksNeededIs(r: nat, limit: nat)
    requires limit >= 1
    ensures TicksNeeded(r, limit) == 3 * (r / limit + 1)
  {
    var q, rest := r / limit, r % limit;
    assert r == q * limit + rest;
    TicksNeededClosedForm(q, rest, limit);
  }

  /** A pending row with r pending rows ahead of it is recovered or escalated within 3 * (r / limit + 1)
      effective ticks, however many newer failures keep arriving. */
  lemma BoundedResolution(rows: seq<Row>, limit: nat, periods: seq<Period>, i: nat)
    requires limit >= 1 && i < |rows|
    requires Healthy(rows) && HealthyArrivals(periods)
    requires Effective(periods) >= 3 * (CountPending(rows[..i]) / limit + 1)
    ensures |Run(rows, limit, periods)| > i && Run(rows, limit, periods)[i].status != Pending
  {
    TicksNeededIs(CountPending(rows[..i]), limit);
    ResolvedFrom(rows, rows, limit, 0, periods, i);
  }

  // ---------- how a row ends ----------

  function AfterPeriod(rows: seq<Row>, limit: nat, p: Period): seq<Row> {
    if p.effective then Tick(rows + p.arrivals, limit, p.runner) else rows + p.arrivals
  }

  /** What the runner returned for row `i` at the effective ticks that selected it, in order. */
  function Tries(rows: seq<Row>, limit: nat, periods: seq<Period>, i: nat): seq<bool>
    requires i < |rows|
    decreases periods
  {
    if periods == [] then []
    else
      var p := periods[0];
      var all := rows + p.arrivals;
      (if p.effective && Selected(all, limit, i) then [p.runner(all[i].id)] else [])
      + Tries(AfterPeriod(rows, limit, p), limit, periods[1..], i)
  }

  lemma {:induction false} TerminalIsNotTried(rows: seq<Row>, limit: nat, periods: seq<Period>, i: nat)
    requires i < |rows| && rows[i].status != Pending
    ensures Tries(rows, limit, periods, i) == []
    ensures |Run(rows, limit, periods)| > i && Run(rows, limit, periods)[i] == rows[i]
    decreases periods
  {
    if periods != [] {
      TickAt(rows + periods[0].arrivals, limit, periods[0].runner, i);
      TerminalIsNotTried(AfterPeriod(rows, limit, periods[0]), limit, periods[1..], i);
    }
  }

  /** The row ends as its tries say. */
  predicate EndsAs(row: Row, end: Row, tries: seq<bool>) {
    && end.id == row.id
    && (end.status == Recovered <==> true in tries)
    && (end.status == Escalated <==> true !in tries && row.retryCount + |tries| == 3)
    && (end.status == Pending <==> true !in tries && row.retryCount + |tries| < 3)
    && (true in tries ==> tries[|tries| - 1] && true !in tries[..|tries| - 1])
    && end.retryCount == row.retryCount + if true in tries then |tries| - 1 else |tries|
  }

  lemma OneMoreTry(row: Row, end: Row, rest: seq<bool>)
    requires EndsAs(row.(retryCount := row.retryCount + 1), end, rest)
    ensures EndsAs(row, end, [false] + rest)
  {
    var tries := [false] + rest;
    if rest != [] {
      assert tries[..|tries| - 1] == [false] + rest[..|rest| - 1];
      assert tries[|tries| - 1] == rest[|rest| - 1];
    }
    assert true in tries <==> true in rest;
  }

  lemma LastTry(row: Row, recovers: bool)
    requires row.status == Pending && (recovers || row.retryCount == 2)
    ensures var end := if recovers then row.(status := Recovered)
                       else row.(retryCount := row.retryCount + 1, status := Escalated);
            EndsAs(row, end, [recovers])
  {
  }

  /** How a pending row ends, over any run: recovered if and only if some try succeeded, and then that was
      the last one; escalated if and only if all tries failed and the third failure was among them; pending
      otherwise. Each failed try was counted, and nothing else. */
  lemma {:induction false} EndsAsTried(rows: seq<Row>, limit: nat, periods: seq<Period>, i: nat)
    requires i < |rows| && rows[i].status == Pending && rows[i].retryCount < 3
    ensures |Run(rows, limit, periods)| > i
    ensures EndsAs(rows[i], Run(rows, limit, periods)[i], Tries(rows, limit, periods, i))
    decreases periods
  {
    if periods != [] {
      var p := periods[0];
      var all, next := rows + p.arrivals, AfterPeriod(rows, limit, p);
      TickAt(all, limit, p.runner, i);
      var rest := Tries(next, limit, periods[1..], i);
      if next[i].status == Pending {
        EndsAsTried(next, limit, periods[1..], i);
        if p.effective && Selected(all, limit, i) {
          OneMoreTry(rows[i], Run(next, limit, periods[1..])[i], rest);
        } else {
          assert [] + rest == rest;
        }
      } else {
        TerminalIsNotTried(next, limit, periods[1..], i);
        LastTry(rows[i], p.runner(rows[i].id));
        assert [p.runner(rows[i].id)] + [] == [p.runner(rows[i].id)];
      }
    }
  }
}
