/**
 The per-stage circuit breaker: one primary endpoint with a half-open probe, two
 fallbacks, and the two operations that drive it, `record_call` and `select_endpoint`.

 A stage is a mutable object. Each of its methods is specified by a function on the
 immutable view of the stage; module BreakerHistory proves what those functions mean
 over whole call histories.
 */
module CircuitBreaker {

  datatype Endpoint = Primary | FallbackA | FallbackB

  datatype BreakerState = Closed | Open | HalfOpen

  datatype Config = Config(primaryThreshold: int, cooldown: int, fallbackThreshold: int)

  /** The value of one breaker record. */
  datatype Record = Record(state: BreakerState, failures: nat, openedAt: int, probePending: bool)

  /** The value of the three records of one stage. */
  datatype Stage = Stage(primary: Record, fallbackA: Record, fallbackB: Record)
  {
    function Get(ep: Endpoint): Record {
      match ep
      case Primary => primary
      case FallbackA => fallbackA
      case FallbackB => fallbackB
    }

    function Set(ep: Endpoint, r: Record): Stage {
      match ep
      case Primary => this.(primary := r)
      case FallbackA => this.(fallbackA := r)
      case FallbackB => this.(fallbackB := r)
    }
  }

  const NEW_RECORD := Record(Closed, 0, 0, false)
  const NEW_STAGE := Stage(NEW_RECORD, NEW_RECORD, NEW_RECORD)

  function Threshold(cfg: Config, ep: Endpoint): int {
    if ep == Primary then cfg.primaryThreshold else cfg.fallbackThreshold
  }

  /** The record after one recorded outcome. */
  function RecordAfter(r: Record, threshold: int, success: bool, now: int): Record {
    if success then NEW_RECORD
    else
      var failed := r.(failures := r.failures + 1);
      if r.state == Closed && failed.failures >= threshold then failed.(state := Open, openedAt := now)
      else if r.state == HalfOpen then failed.(state := Open, openedAt := now, probePending := false)
      else failed
  }

  function AfterCall(cfg: Config, s: Stage, ep: Endpoint, success: bool, now: int): Stage {
    s.Set(ep, RecordAfter(s.Get(ep), Threshold(cfg, ep), success, now))
  }

  /** The first fallback that is neither excluded nor open, else the first not excluded, else primary. */
  function PickFallback(s: Stage, excluded: set<Endpoint>): Endpoint {
    if FallbackA !in excluded && s.fallbackA.state != Open then FallbackA
    else if FallbackB !in excluded && s.fallbackB.state != Open then FallbackB
    else if FallbackA !in excluded then FallbackA
    else if FallbackB !in excluded then FallbackB
    else Primary
  }

  /** How good an endpoint is as a fallback, 0 the best: available and not open first, then available,
      then the primary; `fallback_a` before `fallback_b`. No two endpoints are equally good. */
  function Rank(s: Stage, excluded: set<Endpoint>, ep: Endpoint): nat {
    if ep == Primary then 4
    else
      (if ep in excluded then 8 else 0)
      + (if s.Get(ep).state == Open then 2 else 0)
      + (if ep == FallbackB then 1 else 0)
  }

  lemma PickFallbackIsBest(s: Stage, excluded: set<Endpoint>, ep: Endpoint)
    ensures ep == PickFallback(s, excluded) <==> forall other :: Rank(s, excluded, ep) <= Rank(s, excluded, other)
  {
    assert Rank(s, excluded, ep) <= Rank(s, excluded, PickFallback(s, excluded)) ==> ep == PickFallback(s, excluded);
    match ep case Primary => case FallbackA => case FallbackB =>
  }

  /** An open primary whose cooldown is over becomes half-open with a fresh probe token. */
  function Cooled(cfg: Config, s: Stage, now: int): Stage {
    if s.primary.state == Open && now - s.primary.openedAt >= cfg.cooldown
    then s.(primary := s.primary.(state := HalfOpen, probePending := true))
    else s
  }

  datatype Selection = Selection(stage: Stage, endpoint: Endpoint, reported: BreakerState)

  function Select(cfg: Config, s: Stage, excluded: set<Endpoint>, now: int): Selection {
    var c := Cooled(cfg, s, now);
    if Primary !in excluded && c.primary.state == Closed then
      Selection(c, Primary, Closed)
    else if Primary !in excluded && c.primary.state == HalfOpen && c.primary.probePending then
      Selection(c.(primary := c.primary.(probePending := false)), Primary, HalfOpen)
    else
      Selection(c, PickFallback(c, excluded), if Primary in excluded then c.primary.state else Open)
  }

  /** One mutable breaker record. */
  class BreakerRecord {
    var state: BreakerState
    var consecutiveFailures: nat
    var openedAt: int
    var halfOpenProbePending: bool

    constructor ()
      ensures View() == NEW_RECORD
    {
      state, consecutiveFailures, openedAt, halfOpenProbePending := Closed, 0, 0, false;
    }

    function View(): Record
      reads this
    {
      Record(state, consecutiveFailures, openedAt, halfOpenProbePending)
    }
  }

  /** The mutable state of one stage; every method body runs under the module's lock. */
  class StageBreaker {
    const config: Config
    const primary: BreakerRecord
    const fallbackA: BreakerRecord
    const fallbackB: BreakerRecord

    ghost predicate Valid() {
      primary != fallbackA && primary != fallbackB && fallbackA != fallbackB
    }

    function View(): Stage
      reads primary, fallbackA, fallbackB
    {
      Stage(primary.View(), fallbackA.View(), fallbackB.View())
    }

    constructor (config: Config)
      ensures Valid() && View() == NEW_STAGE && this.config == config
      ensures fresh(primary) && fresh(fallbackA) && fresh(fallbackB)
    {
      this.config := config;
      primary := new BreakerRecord();
      fallbackA := new BreakerRecord();
      fallbackB := new BreakerRecord();
    }

    function RecordOf(ep: Endpoint): BreakerRecord {
      match ep
      case Primary => primary
      case FallbackA => fallbackA
      case FallbackB => fallbackB
    }

    /** `record_call`. */
    method RecordCall(ep: Endpoint, success: bool, now: int) returns (state: BreakerState)
      requires Valid()
      modifies primary, fallbackA, fallbackB
      ensures View() == AfterCall(config, old(View()), ep, success, now)
      ensures state == View().Get(ep).state
    {
      var rec := RecordOf(ep);
      var threshold := Threshold(config, ep);
      if success {
        rec.state := Closed;
        rec.consecutiveFailures := 0;
        rec.openedAt := 0;
        rec.halfOpenProbePending := false;
      } else {
        rec.consecutiveFailures := rec.consecutiveFailures + 1;
        if rec.state == Closed && rec.consecutiveFailures >= threshold {
          rec.state := Open;
          rec.openedAt := now;
        } else if rec.state == HalfOpen {
          rec.state := Open;
          rec.openedAt := now;
          rec.halfOpenProbePending := false;
        }
      }
      state := rec.state;
    }

    /** `select_endpoint`. */
    method SelectEndpoint(excluded: set<Endpoint>, now: int) returns (ep: Endpoint, reported: BreakerState)
      requires Valid()
      modifies primary
      ensures Selection(View(), ep, reported) == Select(config, old(View()), excluded, now)
    {
      if primary.state == Open {
        if now - primary.openedAt >= config.cooldown {
          primary.state := HalfOpen;
          primary.halfOpenProbePending := true;
        }
      }
      if Primary !in excluded && primary.state == Closed {
        return Primary, Closed;
      }
      if Primary !in excluded && primary.state == HalfOpen {
        if primary.halfOpenProbePending {
          primary.halfOpenProbePending := false;
          return Primary, HalfOpen;
        }
        ep := PickFirstClosedFallback(excluded);
        return ep, Open;
      }
      ep := PickFirstClosedFallback(excluded);
      reported := if Primary in excluded then primary.state else Open;
    }

    /** `_pick_first_closed_fallback`. */
    method PickFirstClosedFallback(excluded: set<Endpoint>) returns (ep: Endpoint)
      ensures ep == PickFallback(View(), excluded)
      ensures forall other :: Rank(View(), excluded, ep) <= Rank(View(), excluded, other)
    {
      PickFallbackIsBest(View(), excluded, PickFallback(View(), excluded));
      if FallbackA !in excluded && fallbackA.state != Open { return FallbackA; }
      if FallbackB !in excluded && fallbackB.state != Open { return FallbackB; }
      if FallbackA !in excluded { return FallbackA; }
      if FallbackB !in excluded { return FallbackB; }
      return Primary;
    }
  }
}
