/**
 What the breaker's state means in terms of the calls it has seen. A history is any
 interleaving of `record_call` and `select_endpoint` on one stage.
 */
module BreakerHistory {
  import opened CircuitBreaker

  datatype Event =
    | Called(ep: Endpoint, success: bool, now: int)
    | Selected(excluded: set<Endpoint>, now: int)

  type History = seq<Event>

  function Apply(cfg: Config, s: Stage, e: Event): Stage {
    match e
    case Called(ep, success, now) => AfterCall(cfg, s, ep, success, now)
    case Selected(excluded, now) => Select(cfg, s, excluded, now).stage
  }

  function RunFrom(cfg: Config, s: Stage, h: History): Stage {
    if h == [] then s else Apply(cfg, RunFrom(cfg, s, h[..|h| - 1]), h[|h| - 1])
  }

  function Run(cfg: Config, h: History): Stage {
    RunFrom(cfg, NEW_STAGE, h)
  }

  lemma RunSnoc(cfg: Config, h: History, e: Event)
    ensures Run(cfg, h + [e]) == Apply(cfg, Run(cfg, h), e)
  {
    assert (h + [e])[..|h|] == h;
  }

  lemma {:induction false} RunFromConcat(cfg: Config, s: Stage, h1: History, h2: History)
    ensures RunFrom(cfg, s, h1 + h2) == RunFrom(cfg, RunFrom(cfg, s, h1), h2)
  {
    if h2 == [] {
      assert h1 + h2 == h1;
    } else {
      var init := h2[..|h2| - 1];
      assert (h1 + h2)[..|h1 + h2| - 1] == h1 + init;
      RunFromConcat(cfg, s, h1, init);
    }
  }

  /** The length of the run of failures that ends the endpoint's call log. */
  function TrailingFailures(h: History, ep: Endpoint): nat {
    if h == [] then 0
    else
      var init := h[..|h| - 1];
      match h[|h| - 1]
      case Called(e, success, _) =>
        if e != ep then TrailingFailures(init, ep)
        else if success then 0
        else TrailingFailures(init, ep) + 1
      case Selected(_, _) => TrailingFailures(init, ep)
  }

  /** The number of failures that opens an endpoint: the primary has its own threshold, the fallbacks share
      one, and a threshold below 1 acts like 1. */
  function EffectiveThreshold(cfg: Config, ep: Endpoint): int {
    var threshold := match ep
      case Primary => cfg.primaryThreshold
      case FallbackA => cfg.fallbackThreshold
      case FallbackB => cfg.fallbackThreshold;
    if threshold < 1 then 1 else threshold
  }

  predicate Tripped(cfg: Config, h: History, ep: Endpoint) {
    TrailingFailures(h, ep) >= EffectiveThreshold(cfg, ep)
  }

  /** In every reachable state the counters, the closed/open status and the probe flag are
      functions of the call log, for any interleaving of the two operations. */
  lemma {:induction false} StateFromLog(cfg: Config, h: History, ep: Endpoint)
    ensures var r := Run(cfg, h).Get(ep);
            && r.failures == TrailingFailures(h, ep)
            && (r.state != Closed <==> Tripped(cfg, h, ep))
            && (r.probePending ==> r.state == HalfOpen)
            && (r.state == HalfOpen ==> ep == Primary)
  {
    if h != [] {
      StateFromLog(cfg, h[..|h| - 1], ep);
      StateFromLog(cfg, h[..|h| - 1], Primary);
    }
  }

  const ALL_ENDPOINTS: set<Endpoint> := {Primary, FallbackA, FallbackB}

  predicate IsPrimaryOutcome(e: Event) {
    e.Called? && e.ep == Primary
  }

  // ---------- the primary, read off the log ----------

  /** What the calls and selections so far say about the primary: the time of the failure that opened
      it last, whether a selection has seen its cooldown over since then, and whether a probe was
      handed out since then. */
  datatype LogView = LogView(openedAt: int, cooled: bool, probeOut: bool)

  /** The view after one more event; `trippedBefore` and `trippedNow` compare the trailing failures
      of the primary with its threshold. */
  function Seen(cfg: Config, v: LogView, trippedBefore: bool, trippedNow: bool, e: Event): LogView {
    match e
    case Called(ep, success, now) =>
      if ep != Primary then v
      else if success then LogView(0, false, false)
      else LogView(if trippedNow && (!trippedBefore || v.cooled) then now else v.openedAt, false, false)
    case Selected(excluded, now) =>
      var cooled := trippedBefore && (v.cooled || now - v.openedAt >= cfg.cooldown);
      LogView(v.openedAt, cooled, v.probeOut || (cooled && Primary !in excluded))
  }

  function View(cfg: Config, h: History): LogView {
    if h == [] then LogView(0, false, false)
    else
      var init := h[..|h| - 1];
      Seen(cfg, View(cfg, init), Tripped(cfg, init, Primary), Tripped(cfg, h, Primary), h[|h| - 1])
  }

  /** The view is the breaker's state: opening time, half-open status and token are functions of the log. */
  lemma {:induction false} ViewIsTheState(cfg: Config, h: History)
    ensures var r := Run(cfg, h).primary;
            && r.openedAt == View(cfg, h).openedAt
            && (r.state == HalfOpen <==> View(cfg, h).cooled)
            && (r.state == HalfOpen && !r.probePending <==> View(cfg, h).probeOut)
  {
    StateFromLog(cfg, h, Primary);
    if h != [] {
      ViewIsTheState(cfg, h[..|h| - 1]);
      StateFromLog(cfg, h[..|h| - 1], Primary);
    }
  }

  /** Has a probe been handed out since the last recorded primary outcome? */
  predicate ProbeOut(cfg: Config, h: History) {
    View(cfg, h).probeOut
  }

  /** The token is gone exactly while a probe is unanswered. */
  lemma ProbeOutIsConsumedToken(cfg: Config, h: History)
    ensures ProbeOut(cfg, h) <==> Run(cfg, h).primary.state == HalfOpen && !Run(cfg, h).primary.probePending
  {
    ViewIsTheState(cfg, h);
  }

  /** Does event i return the primary and report it half-open? */
  predicate ReturnsHalfOpen(cfg: Config, h: History, i: nat)
    requires i < |h|
  {
    && h[i].Selected?
    && var sel := Select(cfg, Run(cfg, h[..i]), h[i].excluded, h[i].now);
       sel.endpoint == Primary && sel.reported == HalfOpen
  }

  /** Does event i hand out the probe, that is, to a caller that did not exclude the primary? */
  predicate IsProbe(cfg: Config, h: History, i: nat)
    requires i < |h|
  {
    ReturnsHalfOpen(cfg, h, i) && Primary !in h[i].excluded
  }

  lemma {:induction false} ProbeStaysOut(cfg: Config, h: History, i: nat, j: nat)
    requires i < j <= |h|
    requires forall k :: i < k < j ==> !IsPrimaryOutcome(h[k])
    requires IsProbe(cfg, h, i)
    ensures ProbeOut(cfg, h[..j])
  {
    assert h[..j][..j - 1] == h[..j - 1];
    if i + 1 < j {
      ProbeStaysOut(cfg, h, i, j - 1);
    } else {
      RunSnoc(cfg, h[..i], h[i]);
      assert h[..j] == h[..i] + [h[i]];
      ProbeOutIsConsumedToken(cfg, h[..j]);
    }
  }

  /** After a probe was handed out, and until a primary outcome is recorded, a selection returns
      (primary, half-open) again exactly when its caller excluded all three endpoints. */
  lemma ReturnedAgainIff(cfg: Config, h: History, i: nat, j: nat)
    requires i < j < |h| && h[j].Selected?
    requires forall k :: i < k < j ==> !IsPrimaryOutcome(h[k])
    requires IsProbe(cfg, h, i)
    ensures ReturnsHalfOpen(cfg, h, j) <==> h[j].excluded == ALL_ENDPOINTS
  {
    ProbeStaysOut(cfg, h, i, j);
    ProbeOutIsConsumedToken(cfg, h[..j]);
    SelectHonoursExclusion(cfg, Run(cfg, h[..j]), h[j].excluded, h[j].now);
  }

  /** So between two recorded primary outcomes (primary, half-open) is returned at most once, unless
      one of the two callers excluded all three endpoints. */
  lemma AtMostOneProbe(cfg: Config, h: History, i: nat, j: nat)
    requires i < j < |h|
    requires forall k :: i < k < j ==> !IsPrimaryOutcome(h[k])
    requires ReturnsHalfOpen(cfg, h, i) && ReturnsHalfOpen(cfg, h, j)
    ensures h[i].excluded == ALL_ENDPOINTS || h[j].excluded == ALL_ENDPOINTS
  {
    SelectHonoursExclusion(cfg, Run(cfg, h[..i]), h[i].excluded, h[i].now);
    if h[i].excluded != ALL_ENDPOINTS {
      ReturnedAgainIff(cfg, h, i, j);
    }
  }

  /** The exception is real: with everything excluded the answer repeats without a new outcome. */
  lemma ProbeRepeatsWhenAllExcluded()
    ensures var cfg := Config(1, 0, 1);
            var h := [Called(Primary, false, 0), Selected(ALL_ENDPOINTS, 0), Selected(ALL_ENDPOINTS, 0)];
            ReturnsHalfOpen(cfg, h, 1) && ReturnsHalfOpen(cfg, h, 2)
  {
    var cfg := Config(1, 0, 1);
    var h := [Called(Primary, false, 0), Selected(ALL_ENDPOINTS, 0), Selected(ALL_ENDPOINTS, 0)];
    assert h[..1] == [] + [h[0]] && h[..2] == h[..1] + [h[1]];
    RunSnoc(cfg, [], h[0]);
    RunSnoc(cfg, h[..1], h[1]);
  }

  /** Event i is the failure that opened (or re-opened) the primary. */
  predicate OpensPrimary(cfg: Config, h: History, i: nat)
    requires i < |h|
  {
    && IsPrimaryOutcome(h[i])
    && !h[i].success
    && Run(cfg, h[..i]).primary.state != Open
    && Run(cfg, h[..i + 1]).primary.state == Open
  }

  /** While the primary is not closed, `opened_at` is the time of the failure that opened it
      last: failures recorded while it is open do not move it. */
  lemma {:induction false} OpenedAtIsLastOpening(cfg: Config, h: History) returns (i: nat)
    requires Run(cfg, h).primary.state != Closed
    ensures i < |h| && OpensPrimary(cfg, h, i) && Run(cfg, h).primary.openedAt == h[i].now
    ensures forall k :: i < k < |h| ==> !OpensPrimary(cfg, h, k)
    ensures forall k :: i < k < |h| && IsPrimaryOutcome(h[k]) ==> !h[k].success
  {
    var last := |h| - 1;
    assert h[..last + 1] == h;
    if OpensPrimary(cfg, h, last) {
      i := last;
    } else {
      assert Run(cfg, h[..last]).primary.state != Closed;
      i := OpenedAtIsLastOpening(cfg, h[..last]);
      forall k: nat | k < last
        ensures OpensPrimary(cfg, h, k) == OpensPrimary(cfg, h[..last], k)
      {
        assert h[..last][..k] == h[..k] && h[..last][..k + 1] == h[..k + 1];
      }
      assert forall k: nat :: k < last ==> h[..last][k] == h[k];
    }
  }

  predicate Monotone(h: History) {
    forall i, j :: 0 <= i < j < |h| ==> h[i].now <= h[j].now
  }

  /** Half-open implies that the cooldown was already over at the last event. */
  lemma {:induction false} HalfOpenIsCooled(cfg: Config, h: History)
    requires Monotone(h)
    requires Run(cfg, h).primary.state == HalfOpen
    ensures h != [] && h[|h| - 1].now - Run(cfg, h).primary.openedAt >= cfg.cooldown
  {
    var last := |h| - 1;
    if Run(cfg, h[..last]).primary.state == HalfOpen {
      HalfOpenIsCooled(cfg, h[..last]);
    }
  }

  /** The primary may serve: it is not tripped, or its cooldown is over and no probe is unanswered. */
  predicate PrimaryEligible(cfg: Config, h: History, now: int) {
    || !Tripped(cfg, h, Primary)
    || (now - View(cfg, h).openedAt >= cfg.cooldown && !ProbeOut(cfg, h))
  }

  /** The routing policy, read off the log of calls and selections alone. */
  function Policy(cfg: Config, h: History, excluded: set<Endpoint>, now: int): Endpoint {
    if Primary !in excluded && PrimaryEligible(cfg, h, now) then Primary
    else if FallbackA !in excluded && !Tripped(cfg, h, FallbackA) then FallbackA
    else if FallbackB !in excluded && !Tripped(cfg, h, FallbackB) then FallbackB
    else if FallbackA !in excluded then FallbackA
    else if FallbackB !in excluded then FallbackB
    else Primary
  }

  /** `select_endpoint` implements the policy after every history with a non-decreasing clock. */
  lemma SelectImplementsPolicy(cfg: Config, h: History, excluded: set<Endpoint>, now: int)
    requires Monotone(h + [Selected(excluded, now)])
    ensures Select(cfg, Run(cfg, h), excluded, now).endpoint == Policy(cfg, h, excluded, now)
  {
    StateFromLog(cfg, h, Primary);
    StateFromLog(cfg, h, FallbackA);
    StateFromLog(cfg, h, FallbackB);
    ViewIsTheState(cfg, h);
    var full := h + [Selected(excluded, now)];
    if Run(cfg, h).primary.state == HalfOpen {
      assert full[..|h|] == h;
      assert Monotone(h) by {
        assert forall i :: 0 <= i < |h| ==> h[i] == full[i];
      }
      HalfOpenIsCooled(cfg, h);
      assert full[|h| - 1] == h[|h| - 1] && full[|h|].now == now;
    }
  }

  /** With some fallback available and the primary not excluded, a tripped primary is returned
      exactly when its cooldown is over and no probe is unanswered. */
  lemma CooldownRespected(cfg: Config, h: History, excluded: set<Endpoint>, now: int)
    requires Monotone(h + [Selected(excluded, now)])
    requires Tripped(cfg, h, Primary) && Primary !in excluded && !({FallbackA, FallbackB} <= excluded)
    ensures Select(cfg, Run(cfg, h), excluded, now).endpoint == Primary <==>
            now - View(cfg, h).openedAt >= cfg.cooldown && !ProbeOut(cfg, h)
  {
    SelectImplementsPolicy(cfg, h, excluded, now);
  }

  /** The primary's state at a selection, read off the log: closed unless tripped, and half-open once its
      cooldown is over. */
  function PrimaryAt(cfg: Config, h: History, now: int): BreakerState {
    if !Tripped(cfg, h, Primary) then Closed
    else if View(cfg, h).cooled || now - View(cfg, h).openedAt >= cfg.cooldown then HalfOpen
    else Open
  }

  /** The state reported with the endpoint: the primary's, if the caller excluded it or it may serve; open
      otherwise, whatever the state of the fallback. */
  lemma ReportedState(cfg: Config, h: History, excluded: set<Endpoint>, now: int)
    ensures var reported, primary := Select(cfg, Run(cfg, h), excluded, now).reported, PrimaryAt(cfg, h, now);
            var mayServe := primary == Closed || (primary == HalfOpen && !ProbeOut(cfg, h));
            reported == if Primary in excluded || mayServe then primary else Open
  {
    StateFromLog(cfg, h, Primary);
    ViewIsTheState(cfg, h);
  }

  /** An excluded endpoint is returned only when all three are excluded. */
  lemma SelectHonoursExclusion(cfg: Config, s: Stage, excluded: set<Endpoint>, now: int)
    ensures Select(cfg, s, excluded, now).endpoint in excluded <==> excluded == ALL_ENDPOINTS
  {
    if Primary in excluded && FallbackA in excluded && FallbackB in excluded {
      assert excluded == ALL_ENDPOINTS by {
        forall ep | ep in excluded ensures ep in ALL_ENDPOINTS {
          match ep case Primary => case FallbackA => case FallbackB =>
        }
      }
    }
  }
}
