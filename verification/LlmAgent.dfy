/**
 `run_llm_agent`: up to three endpoints, three structured-output methods on each, one
 recorded outcome per endpoint, while any number of other callers use the same breaker.
 */
module LlmAgent {
  import opened CircuitBreaker
  import opened BreakerHistory
  import opened Options

  /** What happens on one endpoint: no client at all, or one result per method, in the order
      json_schema, function_calling, json_mode. */
  datatype Trial = NoClient | Methods(jsonSchema: bool, functionCalling: bool, jsonMode: bool)
  {
    predicate Result(way: nat) {
      Methods? && if way == 0 then jsonSchema else if way == 1 then functionCalling else jsonMode
    }

    predicate Succeeds() {
      Methods? && (jsonSchema || functionCalling || jsonMode)
    }
  }

  /** The answer: which attempt, on which endpoint, through which method. */
  datatype Answer = Answer(attempt: nat, endpoint: Endpoint, way: nat)

  /** The first attempt that succeeds, or the number of attempts. */
  function FirstSuccess(trials: seq<Trial>): nat {
    if trials == [] || trials[0].Succeeds() then 0 else FirstSuccess(trials[1..]) + 1
  }

  lemma {:induction false} FirstSuccessIs(trials: seq<Trial>, n: nat)
    requires n <= |trials|
    requires forall i :: 0 <= i < n ==> !trials[i].Succeeds()
    requires n < |trials| ==> trials[n].Succeeds()
    ensures FirstSuccess(trials) == n
  {
    if n > 0 {
      FirstSuccessIs(trials[1..], n - 1);
    }
  }

  predicate Distinct(eps: seq<Endpoint>) {
    forall i, j :: 0 <= i < j < |eps| ==> eps[i] != eps[j]
  }

  function ToSet(eps: seq<Endpoint>): set<Endpoint> {
    set ep | ep in eps
  }

  lemma {:induction false} DistinctSize(eps: seq<Endpoint>)
    requires Distinct(eps)
    ensures |ToSet(eps)| == |eps|
  {
    if eps != [] {
      var init := eps[..|eps| - 1];
      DistinctSize(init);
      assert ToSet(eps) == ToSet(init) + {eps[|eps| - 1]};
    } else {
      assert ToSet(eps) == {};
    }
  }

  /** After fewer than three distinct attempts a new endpoint is always selected. */
  lemma FreshEndpoint(cfg: Config, s: Stage, tried: seq<Endpoint>, now: int)
    requires Distinct(tried) && |tried| < 3
    ensures Select(cfg, s, ToSet(tried), now).endpoint !in tried
  {
    SelectHonoursExclusion(cfg, s, ToSet(tried), now);
    DistinctSize(tried);
    assert |ALL_ENDPOINTS| == 3;
  }

  /** Three distinct endpoints are all there are. */
  lemma ThreeDistinctAreAll(tried: seq<Endpoint>)
    requires Distinct(tried) && |tried| == 3
    ensures ToSet(tried) == ALL_ENDPOINTS
  {
    forall ep: Endpoint | ep in ALL_ENDPOINTS ensures ep in tried {
      assert tried[0] != tried[1] && tried[1] != tried[2] && tried[0] != tried[2];
    }
    forall ep | ep in ToSet(tried) ensures ep in ALL_ENDPOINTS {
      match ep case Primary => case FallbackA => case FallbackB =>
    }
  }

  /** What a call meets: `trials[i]` is what the i-th tried endpoint does, `others[k]` what other callers
      do just before this call's k-th breaker operation, and `times[k]` the clock at that operation. */
  datatype Env = Env(trials: seq<Trial>, others: seq<History>, times: seq<int>)

  predicate IsEnv(e: Env) {
    |e.trials| == 3 && |e.others| == 6 && |e.times| == 6
  }

  /** The breaker operations one call makes: select, then record, once per tried endpoint. */
  function OwnEvents(tried: seq<Endpoint>, e: Env): (own: History)
    requires IsEnv(e) && |tried| <= 3
    ensures |own| == 2 * |tried|
  {
    if tried == [] then []
    else
      var n := |tried| - 1;
      OwnEvents(tried[..n], e)
      + [Selected(ToSet(tried[..n]), e.times[2 * n]), Called(tried[n], e.trials[n].Succeeds(), e.times[2 * n + 1])]
  }

  /** The call's own events with the other callers' events in between: others[i] comes just before own[i]. */
  function Weave(others: seq<History>, own: History): History
    requires |own| <= |others|
  {
    if own == [] then [] else Weave(others, own[..|own| - 1]) + others[|own| - 1] + [own[|own| - 1]]
  }

  lemma RunWeaveSnoc(cfg: Config, s: Stage, others: seq<History>, own: History, e: Event)
    requires |own| < |others|
    ensures RunFrom(cfg, s, Weave(others, own + [e])) ==
            Apply(cfg, RunFrom(cfg, RunFrom(cfg, s, Weave(others, own)), others[|own|]), e)
  {
    var before := Weave(others, own) + others[|own|];
    assert (own + [e])[..|own|] == own;
    RunFromConcat(cfg, s, Weave(others, own), others[|own|]);
    assert (before + [e])[..|before|] == before;
  }

  /** The stage after the attempts on `tried`, among the other callers' operations. */
  function After(cfg: Config, s: Stage, tried: seq<Endpoint>, e: Env): Stage
    requires IsEnv(e) && |tried| <= 3
  {
    RunFrom(cfg, s, Weave(e.others, OwnEvents(tried, e)))
  }

  /** The selection that the next attempt makes. */
  function NextSelection(cfg: Config, s: Stage, tried: seq<Endpoint>, e: Env): Selection
    requires IsEnv(e) && |tried| < 3
  {
    var n := |tried|;
    Select(cfg, RunFrom(cfg, After(cfg, s, tried, e), e.others[2 * n]), ToSet(tried), e.times[2 * n])
  }

  /** Each endpoint is the one that was selected for its attempt. */
  predicate Chosen(cfg: Config, s: Stage, tried: seq<Endpoint>, e: Env)
    requires IsEnv(e) && |tried| <= 3
  {
    tried == [] ||
    var init := tried[..|tried| - 1];
    Chosen(cfg, s, init, e) && tried[|tried| - 1] == NextSelection(cfg, s, init, e).endpoint
  }

  /** Endpoint number `k` is the one selected after the attempts before it. */
  lemma {:induction false} ChosenAt(cfg: Config, s: Stage, tried: seq<Endpoint>, e: Env, k: nat)
    requires IsEnv(e) && |tried| <= 3 && Chosen(cfg, s, tried, e) && k < |tried|
    ensures tried[k] == NextSelection(cfg, s, tried[..k], e).endpoint
  {
    if k < |tried| - 1 {
      ChosenAt(cfg, s, tried[..|tried| - 1], e, k);
      assert tried[..|tried| - 1][..k] == tried[..k];
    }
  }

  lemma ChosenThen(cfg: Config, s: Stage, tried: seq<Endpoint>, ep: Endpoint, e: Env)
    requires IsEnv(e) && |tried| < 3 && Chosen(cfg, s, tried, e) && ep == NextSelection(cfg, s, tried, e).endpoint
    ensures Chosen(cfg, s, tried + [ep], e)
  {
    assert (tried + [ep])[..|tried|] == tried;
  }

  /** One more attempt: interference, selection, interference, outcome. */
  lemma OneMoreAttempt(cfg: Config, s: Stage, tried: seq<Endpoint>, ep: Endpoint, e: Env)
    requires IsEnv(e) && |tried| < 3
    ensures var n := |tried|;
            var atRecord := RunFrom(cfg, NextSelection(cfg, s, tried, e).stage, e.others[2 * n + 1]);
            After(cfg, s, tried + [ep], e) == AfterCall(cfg, atRecord, ep, e.trials[n].Succeeds(), e.times[2 * n + 1])
  {
    var n := |tried|;
    var own := OwnEvents(tried, e);
    var selected := Selected(ToSet(tried), e.times[2 * n]);
    var called := Called(ep, e.trials[n].Succeeds(), e.times[2 * n + 1]);
    assert (tried + [ep])[..n] == tried;
    assert OwnEvents(tried + [ep], e) == own + [selected] + [called];
    RunWeaveSnoc(cfg, s, e.others, own, selected);
    RunWeaveSnoc(cfg, s, e.others, own + [selected], called);
  }

  /** Other callers' operations on the same stage. */
  method Interfere(b: StageBreaker, events: History)
    requires b.Valid()
    modifies b.primary, b.fallbackA, b.fallbackB
    ensures b.View() == RunFrom(b.config, old(b.View()), events)
  {
    for i := 0 to |events|
      invariant b.View() == RunFrom(b.config, old(b.View()), events[..i])
    {
      assert events[..i + 1][..i] == events[..i];
      match events[i] {
        case Called(ep, success, now) =>
          var _ := b.RecordCall(ep, success, now);
        case Selected(excluded, now) =>
          var _, _ := b.SelectEndpoint(excluded, now);
      }
    }
    assert events[..|events|] == events;
  }

  /** The method that serves is the first one that gives a result, if one does. */
  predicate Serves(trial: Trial, served: Option<nat>) {
    && (served.Some? <==> trial.Succeeds())
    && (served.Some? ==>
          served.value < 3 && trial.Result(served.value) && forall m: nat :: m < served.value ==> !trial.Result(m))
  }

  /** In the order of the three: json_schema, else function_calling, else json_mode. */
  lemma ServesInOrder(jsonSchema: bool, functionCalling: bool, jsonMode: bool, served: Option<nat>)
    ensures Serves(Methods(jsonSchema, functionCalling, jsonMode), served) <==>
            served == if jsonSchema then Some(0) else if functionCalling then Some(1)
                      else if jsonMode then Some(2) else None
    ensures Serves(NoClient, served) <==> served == None
  {
    var trial := Methods(jsonSchema, functionCalling, jsonMode);
    assert trial.Result(0) == jsonSchema && trial.Result(1) == functionCalling && trial.Result(2) == jsonMode;
  }

  /** One selected endpoint: no client, or the three methods in order until one succeeds;
      either way exactly one outcome is recorded. */
  method TryEndpoint(b: StageBreaker, endpoint: Endpoint, trial: Trial, now: int) returns (served: Option<nat>)
    requires b.Valid()
    modifies b.primary, b.fallbackA, b.fallbackB
    ensures b.View() == AfterCall(b.config, old(b.View()), endpoint, trial.Succeeds(), now)
    ensures Serves(trial, served)
  {
    if trial.NoClient? {
      var _ := b.RecordCall(endpoint, false, now);
      return None;
    }
    for m := 0 to 3
      invariant forall k: nat :: k < m ==> !trial.Result(k)
      invariant b.View() == old(b.View())
    {
      if trial.Result(m) {
        var _ := b.RecordCall(endpoint, true, now);
        return Some(m);
      }
    }
    assert !trial.Result(0) && !trial.Result(1) && !trial.Result(2);
    var _ := b.RecordCall(endpoint, false, now);
    served := None;
  }

  /** The first half of an attempt: others first, then this call's selection. */
  method SelectNext(b: StageBreaker, ghost s: Stage, tried: seq<Endpoint>, e: Env) returns (endpoint: Endpoint)
    requires b.Valid() && IsEnv(e) && |tried| < 3 && Distinct(tried)
    requires b.View() == After(b.config, s, tried, e)
    modifies b.primary, b.fallbackA, b.fallbackB
    ensures b.View() == NextSelection(b.config, s, tried, e).stage
    ensures endpoint == NextSelection(b.config, s, tried, e).endpoint
    ensures endpoint !in tried
  {
    var n := |tried|;
    Interfere(b, e.others[2 * n]);
    FreshEndpoint(b.config, b.View(), tried, e.times[2 * n]);
    var ep, _ := b.SelectEndpoint(ToSet(tried), e.times[2 * n]);
    endpoint := ep;
  }

  /** The second half: others first, then the methods and this call's outcome. */
  method UseEndpoint(b: StageBreaker, ghost s: Stage, tried: seq<Endpoint>, endpoint: Endpoint, e: Env)
    returns (served: Option<nat>)
    requires b.Valid() && IsEnv(e) && |tried| < 3
    requires Chosen(b.config, s, tried, e)
    requires b.View() == NextSelection(b.config, s, tried, e).stage
    requires endpoint == NextSelection(b.config, s, tried, e).endpoint
    modifies b.primary, b.fallbackA, b.fallbackB
    ensures b.View() == After(b.config, s, tried + [endpoint], e) && Chosen(b.config, s, tried + [endpoint], e)
    ensures Serves(e.trials[|tried|], served)
  {
    var n := |tried|;
    OneMoreAttempt(b.config, s, tried, endpoint, e);
    ChosenThen(b.config, s, tried, endpoint, e);
    Interfere(b, e.others[2 * n + 1]);
    served := TryEndpoint(b, endpoint, e.trials[n], e.times[2 * n + 1]);
  }

  /** `run_llm_agent`, from the first endpoint selection on. Whatever the call meets, the endpoints are
      distinct, each gets exactly one recorded outcome, the answer is the first trial that succeeds, and
      failure is reported only after one failure on each of the three. */
  method RunLlmAgent(b: StageBreaker, e: Env) returns (answer: Option<Answer>, tried: seq<Endpoint>)
    requires b.Valid() && IsEnv(e)
    modifies b.primary, b.fallbackA, b.fallbackB
    ensures Distinct(tried) && |tried| == if FirstSuccess(e.trials) < 3 then FirstSuccess(e.trials) + 1 else 3
    ensures Chosen(b.config, old(b.View()), tried, e)
    ensures b.View() == After(b.config, old(b.View()), tried, e)
    ensures answer.None? <==> FirstSuccess(e.trials) == 3
    ensures answer.None? ==> ToSet(tried) == ALL_ENDPOINTS
    ensures answer.Some? ==>
              var a := answer.value;
              && a.attempt == FirstSuccess(e.trials) == |tried| - 1 && a.endpoint == tried[a.attempt]
              && Serves(e.trials[a.attempt], Some(a.way))
  {
    tried := [];
    for i := 0 to 3
      invariant |tried| == i && Distinct(tried)
      invariant b.View() == After(b.config, old(b.View()), tried, e)
      invariant Chosen(b.config, old(b.View()), tried, e)
      invariant forall k :: 0 <= k < i ==> !e.trials[k].Succeeds()
    {
      var endpoint := SelectNext(b, old(b.View()), tried, e);
      if endpoint in tried {
        assert false;
        break;
      }
      var served := UseEndpoint(b, old(b.View()), tried, endpoint, e);
      tried := tried + [endpoint];
      if served.Some? {
        FirstSuccessIs(e.trials, i);
        return Some(Answer(i, endpoint, served.value)), tried;
      }
    }
    FirstSuccessIs(e.trials, 3);
    ThreeDistinctAreAll(tried);
    answer := None;
  }
}
