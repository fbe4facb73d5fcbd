/**
 Any number of concurrent `run_llm_agent` calls on one stage, as a transition system whose
 atomic steps are the breaker operations, which the source runs under one lock.
 */
module ConcurrentAgents {
  import opened CircuitBreaker
  import opened BreakerHistory
  import opened LlmAgent

  /** A call is about to select, waits for its last selected endpoint, or has returned. */
  datatype Caller =
    | Ready(tried: seq<Endpoint>)
    | InFlight(tried: seq<Endpoint>)
    | Returned(success: bool, tried: seq<Endpoint>)

  datatype Action =
    | Start(id: int)
    | Pick(id: int, now: int)
    | Finish(id: int, success: bool, now: int)

  /** `log` is the history of breaker operations performed so far. */
  datatype System = System(stage: Stage, callers: map<int, Caller>, log: History)

  const INITIAL := System(NEW_STAGE, map[], [])

  /** One step; an action that is not enabled changes nothing. */
  function Next(cfg: Config, sys: System, a: Action): System {
    match a
    case Start(id) =>
      if id in sys.callers then sys else sys.(callers := sys.callers[id := Ready([])])
    case Pick(id, now) =>
      if id !in sys.callers || !sys.callers[id].Ready? then sys
      else
        var tried := sys.callers[id].tried;
        var sel := Select(cfg, sys.stage, ToSet(tried), now);
        var caller := if sel.endpoint in tried then Returned(false, tried) else InFlight(tried + [sel.endpoint]);
        System(sel.stage, sys.callers[id := caller], sys.log + [Selected(ToSet(tried), now)])
    case Finish(id, success, now) =>
      if id !in sys.callers || !sys.callers[id].InFlight? || sys.callers[id].tried == [] then sys
      else
        var tried := sys.callers[id].tried;
        var ep := tried[|tried| - 1];
        var caller :=
          if success then Returned(true, tried) else if |tried| < 3 then Ready(tried) else Returned(false, tried);
        var log := sys.log + [Called(ep, success, now)];
        System(AfterCall(cfg, sys.stage, ep, success, now), sys.callers[id := caller], log)
  }

  function RunActions(cfg: Config, sys: System, actions: seq<Action>): System {
    if actions == [] then sys
    else Next(cfg, RunActions(cfg, sys, actions[..|actions| - 1]), actions[|actions| - 1])
  }

  function Reach(cfg: Config, actions: seq<Action>): System {
    RunActions(cfg, INITIAL, actions)
  }

  /** The call has selected the primary and has not recorded its outcome yet. */
  predicate AwaitsPrimary(c: Caller) {
    c.InFlight? && c.tried != [] && c.tried[|c.tried| - 1] == Primary
  }

  predicate ProbeConsumed(s: Stage) {
    s.primary.state == HalfOpen && !s.primary.probePending
  }

  predicate WellFormed(c: Caller) {
    && Distinct(c.tried)
    && (c.Ready? ==> |c.tried| < 3)
    && (c.InFlight? ==> 1 <= |c.tried| <= 3)
    && (c.Returned? && !c.success ==> |c.tried| == 3)
  }

  ghost predicate Invariant(cfg: Config, sys: System) {
    && sys.stage == Run(cfg, sys.log)
    && (forall id :: id in sys.callers ==> WellFormed(sys.callers[id]))
    && (ProbeConsumed(sys.stage) ==> exists id :: id in sys.callers && AwaitsPrimary(sys.callers[id]))
  }

  lemma PickKeepsInvariant(cfg: Config, sys: System, id: int, now: int)
    requires Invariant(cfg, sys)
    ensures Invariant(cfg, Next(cfg, sys, Pick(id, now)))
  {
    if id in sys.callers && sys.callers[id].Ready? {
      var tried := sys.callers[id].tried;
      var sel := Select(cfg, sys.stage, ToSet(tried), now);
      var next := Next(cfg, sys, Pick(id, now));
      FreshEndpoint(cfg, sys.stage, tried, now);
      RunSnoc(cfg, sys.log, Selected(ToSet(tried), now));
      assert next.callers[id] == InFlight(tried + [sel.endpoint]);
      if ProbeConsumed(sel.stage) && !ProbeConsumed(sys.stage) {
        assert AwaitsPrimary(next.callers[id]);
      } else if ProbeConsumed(sel.stage) {
        var other :| other in sys.callers && AwaitsPrimary(sys.callers[other]);
        assert AwaitsPrimary(next.callers[other]);
      }
    }
  }

  /** Recording gives back no token, and a fallback's outcome leaves the primary's record alone. */
  lemma ConsumedBefore(cfg: Config, s: Stage, ep: Endpoint, success: bool, now: int)
    requires ProbeConsumed(AfterCall(cfg, s, ep, success, now))
    ensures ProbeConsumed(s) && ep != Primary
  {
  }

  lemma FinishKeepsInvariant(cfg: Config, sys: System, id: int, success: bool, now: int)
    requires Invariant(cfg, sys)
    ensures Invariant(cfg, Next(cfg, sys, Finish(id, success, now)))
  {
    if id in sys.callers && sys.callers[id].InFlight? {
      var tried := sys.callers[id].tried;
      var ep := tried[|tried| - 1];
      var next := Next(cfg, sys, Finish(id, success, now));
      RunSnoc(cfg, sys.log, Called(ep, success, now));
      assert WellFormed(next.callers[id]);
      if ProbeConsumed(next.stage) {
        ConsumedBefore(cfg, sys.stage, ep, success, now);
        var other :| other in sys.callers && AwaitsPrimary(sys.callers[other]);
        assert other != id && AwaitsPrimary(next.callers[other]);
      }
    }
  }

  lemma {:induction false} ReachableInvariant(cfg: Config, actions: seq<Action>)
    ensures Invariant(cfg, Reach(cfg, actions))
  {
    if actions != [] {
      var sys := Reach(cfg, actions[..|actions| - 1]);
      ReachableInvariant(cfg, actions[..|actions| - 1]);
      match actions[|actions| - 1] {
        case Start(id) =>
          if ProbeConsumed(sys.stage) {
            var other :| other in sys.callers && AwaitsPrimary(sys.callers[other]);
            assert AwaitsPrimary(Next(cfg, sys, Start(id)).callers[other]);
          }
        case Pick(id, now) => PickKeepsInvariant(cfg, sys, id, now);
        case Finish(id, success, now) => FinishKeepsInvariant(cfg, sys, id, success, now);
      }
    }
  }

  /** Under any interleaving a consumed probe token belongs to a call that selected the primary
      and has not recorded yet: no probe is ever lost. */
  lemma NoProbeIsStranded(cfg: Config, actions: seq<Action>) returns (id: int)
    requires ProbeConsumed(Reach(cfg, actions).stage)
    ensures id in Reach(cfg, actions).callers && AwaitsPrimary(Reach(cfg, actions).callers[id])
  {
    ReachableInvariant(cfg, actions);
    var sys := Reach(cfg, actions);
    id :| id in sys.callers && AwaitsPrimary(sys.callers[id]);
  }

  /** So the primary always gets another chance: once no call waits for it and its cooldown is
      over, the next fresh call is sent to it, whatever happened before. */
  lemma PrimaryIsRetried(cfg: Config, actions: seq<Action>, now: int)
    requires var sys := Reach(cfg, actions);
             && (forall id :: id in sys.callers ==> !AwaitsPrimary(sys.callers[id]))
             && (sys.stage.primary.state == Open ==> now - sys.stage.primary.openedAt >= cfg.cooldown)
    ensures Select(cfg, Reach(cfg, actions).stage, {}, now).endpoint == Primary
  {
    ReachableInvariant(cfg, actions);
  }

  /** No call gives up early: every call that reports failure has tried all three endpoints. */
  lemma FailureMeansAllTried(cfg: Config, actions: seq<Action>, id: int)
    requires var sys := Reach(cfg, actions); id in sys.callers && sys.callers[id].Returned? && !sys.callers[id].success
    ensures ToSet(Reach(cfg, actions).callers[id].tried) == ALL_ENDPOINTS
  {
    ReachableInvariant(cfg, actions);
    ThreeDistinctAreAll(Reach(cfg, actions).callers[id].tried);
  }

  // ---------- a run of the method is one of these interleavings ----------

  lemma RunOneMore(cfg: Config, sys: System, actions: seq<Action>, a: Action)
    ensures RunActions(cfg, sys, actions + [a]) == Next(cfg, RunActions(cfg, sys, actions), a)
  {
    assert (actions + [a])[..|actions|] == actions;
  }

  lemma {:induction false} RunMore(cfg: Config, sys: System, a: seq<Action>, b: seq<Action>)
    ensures RunActions(cfg, sys, a + b) == RunActions(cfg, RunActions(cfg, sys, a), b)
  {
    if b == [] {
      assert a + b == a;
    } else {
      assert (a + b)[..|a + b| - 1] == a + b[..|b| - 1];
      RunMore(cfg, sys, a, b[..|b| - 1]);
    }
  }

  /** The breaker operation that an action performs, if it is enabled. */
  function EventOf(sys: System, a: Action): History {
    match a
    case Start(id) => []
    case Pick(id, now) =>
      if id in sys.callers && sys.callers[id].Ready? then [Selected(ToSet(sys.callers[id].tried), now)] else []
    case Finish(id, success, now) =>
      if id in sys.callers && sys.callers[id].InFlight? && sys.callers[id].tried != [] then
        [Called(sys.callers[id].tried[|sys.callers[id].tried| - 1], success, now)]
      else []
  }

  function EventsOf(cfg: Config, sys: System, actions: seq<Action>): History {
    if actions == [] then []
    else
      var init := actions[..|actions| - 1];
      EventsOf(cfg, sys, init) + EventOf(RunActions(cfg, sys, init), actions[|actions| - 1])
  }

  predicate OthersOnly(actions: seq<Action>, id: int) {
    forall a :: a in actions ==> a.id != id
  }

  lemma OtherActs(cfg: Config, sys: System, a: Action, id: int)
    requires a.id != id
    ensures var next := Next(cfg, sys, a);
      && next.stage == RunFrom(cfg, sys.stage, EventOf(sys, a))
      && (id in next.callers <==> id in sys.callers)
      && (id in sys.callers ==> next.callers[id] == sys.callers[id])
  {
    if EventOf(sys, a) != [] {
      assert EventOf(sys, a)[..0] == [];
    }
  }

  /** Other callers change the stage by their operations, and this caller not at all. */
  lemma {:induction false} OthersAct(cfg: Config, sys: System, actions: seq<Action>, id: int)
    requires OthersOnly(actions, id)
    ensures var end := RunActions(cfg, sys, actions);
      && end.stage == RunFrom(cfg, sys.stage, EventsOf(cfg, sys, actions))
      && (id in end.callers <==> id in sys.callers)
      && (id in sys.callers ==> end.callers[id] == sys.callers[id])
  {
    if actions != [] {
      var init, a := actions[..|actions| - 1], actions[|actions| - 1];
      assert a in actions;
      OthersAct(cfg, sys, init, id);
      var before := RunActions(cfg, sys, init);
      OtherActs(cfg, before, a, id);
      RunFromConcat(cfg, sys.stage, EventsOf(cfg, sys, init), EventOf(before, a));
    }
  }

  /** Where the caller is after `n` attempts. */
  function Progress(trials: seq<Trial>, tried: seq<Endpoint>): Caller
    requires |tried| <= |trials|
  {
    if tried == [] then Ready([])
    else if trials[|tried| - 1].Succeeds() then Returned(true, tried)
    else if |tried| < 3 then Ready(tried)
    else Returned(false, tried)
  }

  lemma {:induction false} WeaveReadsAhead(others: seq<History>, k: nat, h: History, own: History)
    requires |own| <= k < |others|
    ensures Weave(others[k := h], own) == Weave(others, own)
  {
    if own != [] {
      WeaveReadsAhead(others, k, h, own[..|own| - 1]);
    }
  }

  /** What other callers do before operation k is not seen before it. */
  lemma {:induction false} OwnEventsIgnoreOthers(tried: seq<Endpoint>, e: Env, others: seq<History>)
    requires IsEnv(e) && |others| == 6 && |tried| <= 3
    ensures OwnEvents(tried, e.(others := others)) == OwnEvents(tried, e)
  {
    if tried != [] {
      OwnEventsIgnoreOthers(tried[..|tried| - 1], e, others);
    }
  }

  lemma AfterReadsAhead(cfg: Config, s: Stage, tried: seq<Endpoint>, e: Env, k: nat, h: History)
    requires IsEnv(e) && |tried| <= 3 && 2 * |tried| <= k < 6
    ensures After(cfg, s, tried, e.(others := e.others[k := h])) == After(cfg, s, tried, e)
  {
    OwnEventsIgnoreOthers(tried, e, e.others[k := h]);
    WeaveReadsAhead(e.others, k, h, OwnEvents(tried, e));
  }

  lemma {:induction false} ChosenReadsAhead(cfg: Config, s: Stage, tried: seq<Endpoint>, e: Env, k: nat, h: History)
    requires IsEnv(e) && |tried| <= 3 && 2 * |tried| <= k < 6 && Chosen(cfg, s, tried, e)
    ensures Chosen(cfg, s, tried, e.(others := e.others[k := h]))
  {
    if tried != [] {
      var init := tried[..|tried| - 1];
      ChosenReadsAhead(cfg, s, init, e, k, h);
      AfterReadsAhead(cfg, s, init, e, k, h);
    }
  }

  lemma SelectionReadsAhead(cfg: Config, s: Stage, tried: seq<Endpoint>, e: Env, h: History)
    requires IsEnv(e) && |tried| < 3
    ensures NextSelection(cfg, s, tried, e.(others := e.others[2 * |tried| + 1 := h])) ==
            NextSelection(cfg, s, tried, e)
  {
    AfterReadsAhead(cfg, s, tried, e, 2 * |tried| + 1, h);
  }

  /** The call has selected `ep` for its next attempt and waits for it. */
  predicate HasPicked(cfg: Config, s: Stage, sys: System, id: int, tried: seq<Endpoint>, ep: Endpoint, e: Env) {
    && IsEnv(e) && |tried| < 3 && Distinct(tried) && Chosen(cfg, s, tried, e)
    && ep == NextSelection(cfg, s, tried, e).endpoint && ep !in tried
    && sys.stage == NextSelection(cfg, s, tried, e).stage
    && id in sys.callers && sys.callers[id] == InFlight(tried + [ep])
  }

  /** The call has made the attempts on `tried` and is where they lead. */
  predicate HasTried(cfg: Config, s: Stage, sys: System, id: int, tried: seq<Endpoint>, e: Env) {
    && IsEnv(e) && |tried| <= 3 && Distinct(tried) && Chosen(cfg, s, tried, e)
    && sys.stage == After(cfg, s, tried, e)
    && id in sys.callers && sys.callers[id] == Progress(e.trials, tried)
  }

  /** The first half of an attempt: others, then this call's selection. */
  lemma PickIsARun(cfg: Config, sys: System, id: int, s: Stage, tried: seq<Endpoint>, e: Env, before: seq<Action>)
    returns (ep: Endpoint, f: Env)
    requires HasTried(cfg, s, sys, id, tried, e) && |tried| < 3
    requires tried == [] || !e.trials[|tried| - 1].Succeeds()
    requires OthersOnly(before, id)
    ensures f.trials == e.trials && f.times == e.times
    ensures var end := RunActions(cfg, sys, before + [Pick(id, e.times[2 * |tried|])]);
            HasPicked(cfg, s, end, id, tried, ep, f)
  {
    var n := |tried|;
    var h := EventsOf(cfg, sys, before);
    OthersAct(cfg, sys, before, id);
    AfterReadsAhead(cfg, s, tried, e, 2 * n, h);
    ChosenReadsAhead(cfg, s, tried, e, 2 * n, h);
    f := e.(others := e.others[2 * n := h]);
    FreshEndpoint(cfg, RunActions(cfg, sys, before).stage, tried, e.times[2 * n]);
    ep := NextSelection(cfg, s, tried, f).endpoint;
    RunOneMore(cfg, sys, before, Pick(id, e.times[2 * n]));
  }

  /** The second half: others, then this call's outcome. */
  lemma FinishIsARun(cfg: Config, sys: System, id: int, s: Stage, tried: seq<Endpoint>, ep: Endpoint, e: Env,
                     between: seq<Action>)
    returns (f: Env)
    requires HasPicked(cfg, s, sys, id, tried, ep, e) && OthersOnly(between, id)
    ensures f.trials == e.trials && f.times == e.times
    ensures var n := |tried|;
            var finish := Finish(id, e.trials[n].Succeeds(), e.times[2 * n + 1]);
            HasTried(cfg, s, RunActions(cfg, sys, between + [finish]), id, tried + [ep], f)
  {
    var n := |tried|;
    var h := EventsOf(cfg, sys, between);
    OthersAct(cfg, sys, between, id);
    f := e.(others := e.others[2 * n + 1 := h]);
    SelectionReadsAhead(cfg, s, tried, e, h);
    ChosenReadsAhead(cfg, s, tried, e, 2 * n + 1, h);
    ChosenThen(cfg, s, tried, ep, f);
    OneMoreAttempt(cfg, s, tried, ep, f);
    RunOneMore(cfg, sys, between, Finish(id, e.trials[n].Succeeds(), e.times[2 * n + 1]));
  }

  /** The actions of attempt number `n`, from 0, with the other callers' before each. */
  function Attempt(id: int, acts: seq<seq<Action>>, trials: seq<Trial>, times: seq<int>, n: nat): seq<Action>
    requires n < 3 && |acts| == |times| == 6 && |trials| == 3
  {
    var first := acts[2 * n] + [Pick(id, times[2 * n])];
    var second := acts[2 * n + 1] + [Finish(id, trials[n].Succeeds(), times[2 * n + 1])];
    first + second
  }

  /** The actions of one call with `n` attempts. */
  function Interleave(id: int, acts: seq<seq<Action>>, trials: seq<Trial>, times: seq<int>, n: nat): seq<Action>
    requires n <= 3 && |acts| == |times| == 6 && |trials| == 3
  {
    if n == 0 then [Start(id)]
    else Interleave(id, acts, trials, times, n - 1) + Attempt(id, acts, trials, times, n - 1)
  }

  lemma AttemptHasHalves(cfg: Config, sys: System, id: int, acts: seq<seq<Action>>, trials: seq<Trial>,
                         times: seq<int>, n: nat)
    requires n < 3 && |acts| == |times| == 6 && |trials| == 3
    ensures var mid := RunActions(cfg, sys, acts[2 * n] + [Pick(id, times[2 * n])]);
      RunActions(cfg, sys, Attempt(id, acts, trials, times, n))
      == RunActions(cfg, mid, acts[2 * n + 1] + [Finish(id, trials[n].Succeeds(), times[2 * n + 1])])
  {
    RunMore(cfg, sys, acts[2 * n] + [Pick(id, times[2 * n])],
            acts[2 * n + 1] + [Finish(id, trials[n].Succeeds(), times[2 * n + 1])]);
  }

  lemma NextAttemptIsARun(cfg: Config, sys: System, id: int, s: Stage, tried: seq<Endpoint>, e: Env,
                          acts: seq<seq<Action>>)
    returns (ep: Endpoint, f: Env)
    requires HasTried(cfg, s, sys, id, tried, e) && |tried| < 3
    requires tried == [] || !e.trials[|tried| - 1].Succeeds()
    requires |acts| == 6 && OthersOnly(acts[2 * |tried|], id) && OthersOnly(acts[2 * |tried| + 1], id)
    ensures f.trials == e.trials && f.times == e.times
    ensures var attempt := Attempt(id, acts, e.trials, e.times, |tried|);
            HasTried(cfg, s, RunActions(cfg, sys, attempt), id, tried + [ep], f)
  {
    var n := |tried|;
    var g;
    ep, g := PickIsARun(cfg, sys, id, s, tried, e, acts[2 * n]);
    var mid := RunActions(cfg, sys, acts[2 * n] + [Pick(id, e.times[2 * n])]);
    f := FinishIsARun(cfg, mid, id, s, tried, ep, g, acts[2 * n + 1]);
    AttemptHasHalves(cfg, sys, id, acts, e.trials, e.times, n);
  }

  lemma {:induction false} AttemptsAreARun(
      cfg: Config, sys: System, id: int, acts: seq<seq<Action>>, trials: seq<Trial>, times: seq<int>, n: nat)
    returns (tried: seq<Endpoint>, e: Env)
    requires n <= 3 && |acts| == |times| == 6 && |trials| == 3 && id !in sys.callers
    requires forall k :: 0 <= k < 6 ==> OthersOnly(acts[k], id)
    requires forall k :: 0 <= k < n - 1 ==> !trials[k].Succeeds()
    ensures e.trials == trials && e.times == times && |tried| == n
    ensures HasTried(cfg, sys.stage, RunActions(cfg, sys, Interleave(id, acts, trials, times, n)), id, tried, e)
  {
    if n == 0 {
      tried, e := [], Env(trials, [[], [], [], [], [], []], times);
      RunOneMore(cfg, sys, [], Start(id));
      assert [] + [Start(id)] == [Start(id)];
    } else {
      tried, e := AttemptsAreARun(cfg, sys, id, acts, trials, times, n - 1);
      var earlier := Interleave(id, acts, trials, times, n - 1);
      var ep;
      ep, e := NextAttemptIsARun(cfg, RunActions(cfg, sys, earlier), id, sys.stage, tried, e, acts);
      RunMore(cfg, sys, earlier, Attempt(id, acts, trials, times, n - 1));
      tried := tried + [ep];
    }
  }

  /** A call that runs as in `LlmAgent.RunLlmAgent`, with whatever the other callers do before each of its
      operations, is one of the interleavings here: the same endpoints, the same stage, the same answer. */
  lemma SoloCallIsARun(cfg: Config, sys: System, id: int, acts: seq<seq<Action>>, trials: seq<Trial>, times: seq<int>)
    returns (actions: seq<Action>, tried: seq<Endpoint>, e: Env)
    requires |acts| == |times| == 6 && |trials| == 3 && id !in sys.callers
    requires forall k :: 0 <= k < 6 ==> OthersOnly(acts[k], id)
    ensures IsEnv(e) && e.trials == trials && e.times == times
    ensures |tried| == if FirstSuccess(trials) < 3 then FirstSuccess(trials) + 1 else 3
    ensures Distinct(tried) && Chosen(cfg, sys.stage, tried, e)
    ensures actions == Interleave(id, acts, trials, times, |tried|)
    ensures var end := RunActions(cfg, sys, actions);
      && end.stage == After(cfg, sys.stage, tried, e)
      && id in end.callers && end.callers[id] == Returned(FirstSuccess(trials) < 3, tried)
  {
    var n := if FirstSuccess(trials) < 3 then FirstSuccess(trials) + 1 else 3;
    BeforeFirstSuccess(trials);
    tried, e := AttemptsAreARun(cfg, sys, id, acts, trials, times, n);
    actions := Interleave(id, acts, trials, times, n);
  }

  lemma {:induction false} BeforeFirstSuccess(trials: seq<Trial>)
    ensures FirstSuccess(trials) <= |trials|
    ensures forall k :: 0 <= k < FirstSuccess(trials) ==> !trials[k].Succeeds()
    ensures FirstSuccess(trials) < |trials| ==> trials[FirstSuccess(trials)].Succeeds()
  {
    if trials != [] && !trials[0].Succeeds() {
      BeforeFirstSuccess(trials[1..]);
      assert forall k :: 0 < k < |trials| ==> trials[k] == trials[1..][k - 1];
    }
  }
}
