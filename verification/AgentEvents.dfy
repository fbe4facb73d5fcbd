/**
 Agent events: draining the recorded calls of a context into an event row and the token
 counters, and what that conserves over any sequence of calls and events.
 */
module AgentEvents {
  import opened LlmUsage
  import opened Numbers
  import opened Options
  import opened Strings
  import opened Sums

  /** The labels of the token counters. */
  datatype Label = Label(agent: string, stage: string)

  type Payload = map<string, Option<string>>

  /** The part of the event row that the drained calls may fill in; `payload` are the entries with text,
      `cost` and `calls` those that an event adds to it, unless the caller has them. */
  datatype EventRow = EventRow(agent: string, eventType: string, input: Option<int>, output: Option<int>,
                               payload: Payload, cost: Option<real>, calls: seq<Call>)

  // ---------- where a call went ----------

  const ROUTE_PREFIX := "llm."

  /** Provider and model of a call. */
  datatype Route = Route(provider: Option<string>, model: Option<string>)

  function OrNone(s: string): Option<string> {
    if s == "" then None else Some(s)
  }

  /** `_parse_stage_prefix`: the stage of a routed call is `llm.<provider>.<model>`. */
  function RouteOf(stage: string): Route {
    var rest := if ROUTE_PREFIX <= stage then stage[|ROUTE_PREFIX|..] else "";
    var provider := BeforeDot(rest);
    if provider == rest then Route(None, None) else Route(OrNone(provider), OrNone(rest[|provider| + 1..]))
  }

  function StageOf(provider: string, model: string): string {
    ROUTE_PREFIX + (provider + "." + model)
  }

  /** Provider and model are read back from the stage, whatever dots the model has. */
  lemma RouteRoundTrip(provider: string, model: string)
    requires '.' !in provider
    ensures RouteOf(StageOf(provider, model)) == Route(OrNone(provider), OrNone(model))
    ensures provider != "" && model != "" ==> RouteOf(StageOf(provider, model)) == Route(Some(provider), Some(model))
  {
    BeforeDotIs(provider, model);
    assert (provider + "." + model)[|provider| + 1..] == model;
  }

  /** And nothing else is read as a route. */
  lemma RouteIsWritten(stage: string) returns (provider: string, model: string)
    requires RouteOf(stage) != Route(None, None)
    ensures '.' !in provider && stage == StageOf(provider, model)
    ensures RouteOf(stage) == Route(OrNone(provider), OrNone(model))
  {
    var rest := stage[|ROUTE_PREFIX|..];
    provider, model := BeforeDot(rest), rest[|BeforeDot(rest)| + 1..];
    BeforeDotSplits(rest);
    PrefixSplits(stage, ROUTE_PREFIX);
  }

  lemma PrefixSplits(s: string, prefix: string)
    requires prefix <= s
    ensures s == prefix + s[|prefix|..]
  {
  }

  /** `dict.setdefault`. */
  function WithDefault(p: Payload, key: string, value: Option<string>): Payload {
    if key in p then p else p[key := value]
  }

  /** The payload of an event: what the caller left open is filled from the last drained call. */
  function FilledPayload(p: Payload, calls: seq<Call>): Payload {
    if calls == [] then p
    else
      var route := RouteOf(calls[|calls| - 1].stage);
      WithDefault(WithDefault(p, "model", route.model), "provider", route.provider)
  }

  // ---------- one event ----------

  function SumTokens(calls: seq<Call>, f: Call -> int): int {
    if calls == [] then 0 else SumTokens(calls[..|calls| - 1], f) + f(calls[|calls| - 1])
  }

  /** `_SafeCounter.inc`: amounts of 0 and less are dropped. */
  function Bump(counter: map<Label, int>, key: Label, amount: int): map<Label, int> {
    if amount <= 0 then counter
    else counter[key := (if key in counter then counter[key] else 0) + amount]
  }

  function Bumped(counter: map<Label, int>, agent: string, calls: seq<Call>, f: Call -> int): map<Label, int> {
    if calls == [] then counter
    else
      var last := calls[|calls| - 1];
      Bump(Bumped(counter, agent, calls[..|calls| - 1], f), Label(agent, last.stage), f(last))
  }

  function Input(c: Call): int {
    c.tokens.input
  }

  function Output(c: Call): int {
    c.tokens.output
  }

  /** What the caller passed wins; otherwise a positive sum of the drained calls. */
  function Filled(passed: Option<int>, sum: int): Option<int> {
    if passed.None? && sum > 0 then Some(sum) else passed
  }

  function SumCost(calls: seq<Call>, cost: Call -> real): real {
    if calls == [] then 0.0 else SumCost(calls[..|calls| - 1], cost) + cost(calls[|calls| - 1])
  }

  /** What an event adds for the cost of its calls. */
  function AddedCost(p: Payload, calls: seq<Call>, prices: Prices): Option<real> {
    if calls == [] || "cost_usd" in p then None else Some(prices.round(SumCost(calls, prices.cost)))
  }

  /** And the detail, for more than one call. */
  function AddedCalls(p: Payload, calls: seq<Call>): seq<Call> {
    if |calls| <= 1 || "llm_calls" in p then [] else calls
  }

  /** The price list, and rounding to six places. */
  datatype Prices = Prices(cost: Call -> real, round: real -> real)

  // ---------- in terms of the responses and of what the caller passed ----------

  /** A response and the stage it was recorded with. */
  datatype Heard = Heard(stage: string, r: Response)

  function CallsOf(heard: seq<Heard>): seq<Call> {
    if heard == [] then []
    else CallsOf(heard[..|heard| - 1]) + [CallOf(heard[|heard| - 1].r, heard[|heard| - 1].stage)]
  }

  function SumHeard(heard: seq<Heard>, f: Response -> int): int {
    if heard == [] then 0 else SumHeard(heard[..|heard| - 1], f) + f(heard[|heard| - 1].r)
  }

  /** The positive counts of one stage. */
  function SumOfStage(heard: seq<Heard>, stage: string, f: Response -> int): int {
    if heard == [] then 0
    else
      var last := heard[|heard| - 1];
      SumOfStage(heard[..|heard| - 1], stage, f) + if last.stage == stage then Max(0, f(last.r)) else 0
  }

  /** The sums of an event are those of the reported inputs and outputs. */
  lemma {:induction false} EventSumsWhatIsHeard(heard: seq<Heard>)
    ensures SumTokens(CallsOf(heard), Input) == SumHeard(heard, InputOf)
    ensures SumTokens(CallsOf(heard), Output) == SumHeard(heard, OutputOf)
  {
    if heard != [] {
      var init := heard[..|heard| - 1];
      EventSumsWhatIsHeard(init);
      ExtractsThePlace(heard[|heard| - 1].r);
      assert CallsOf(heard)[..|CallsOf(heard)| - 1] == CallsOf(init);
    }
  }

  function Count(counter: map<Label, int>, key: Label): int {
    if key in counter then counter[key] else 0
  }

  lemma BumpedOneMore(counter: map<Label, int>, agent: string, calls: seq<Call>, c: Call, f: Call -> int)
    ensures Bumped(counter, agent, calls + [c], f) ==
            Bump(Bumped(counter, agent, calls, f), Label(agent, c.stage), f(c))
  {
    assert (calls + [c])[..|calls|] == calls;
  }

  lemma BumpCounts(counter: map<Label, int>, bumped: Label, amount: int, key: Label)
    ensures Count(Bump(counter, bumped, amount), key) ==
            Count(counter, key) + if key == bumped then Max(0, amount) else 0
  {
  }

  /** `f` reads off a call what `g` reads off its response. */
  ghost predicate Agree(f: Call -> int, g: Response -> int) {
    forall r, stage :: f(CallOf(r, stage)) == g(r)
  }

  lemma {:induction false} CounterCountsWhatIsHeard(counter: map<Label, int>, agent: string, heard: seq<Heard>,
                                                    key: Label, f: Call -> int, g: Response -> int)
    requires Agree(f, g)
    ensures Count(Bumped(counter, agent, CallsOf(heard), f), key) ==
            Count(counter, key) + if key.agent == agent then SumOfStage(heard, key.stage, g) else 0
  {
    if heard != [] {
      var init, last := heard[..|heard| - 1], heard[|heard| - 1];
      var c := CallOf(last.r, last.stage);
      CounterCountsWhatIsHeard(counter, agent, init, key, f, g);
      BumpedOneMore(counter, agent, CallsOf(init), c, f);
      BumpCounts(Bumped(counter, agent, CallsOf(init), f), Label(agent, last.stage), f(c), key);
    }
  }

  /** The input counter grows by the reported inputs of each stage, the output counter by the outputs. */
  lemma CountersCountWhatIsHeard(counter: map<Label, int>, agent: string, heard: seq<Heard>, key: Label)
    ensures Count(Bumped(counter, agent, CallsOf(heard), Input), key) ==
            Count(counter, key) + if key.agent == agent then SumOfStage(heard, key.stage, InputOf) else 0
    ensures Count(Bumped(counter, agent, CallsOf(heard), Output), key) ==
            Count(counter, key) + if key.agent == agent then SumOfStage(heard, key.stage, OutputOf) else 0
  {
    forall r: Response, stage: string
      ensures Input(CallOf(r, stage)) == InputOf(r) && Output(CallOf(r, stage)) == OutputOf(r)
    {
      ExtractsThePlace(r);
    }
    CounterCountsWhatIsHeard(counter, agent, heard, key, Input, InputOf);
    CounterCountsWhatIsHeard(counter, agent, heard, key, Output, OutputOf);
  }

  /** A counter has a label only for counts above 0. */
  lemma {:induction false} LabelsHaveCounts(agent: string, calls: seq<Call>, f: Call -> int, key: Label)
    ensures key in Bumped(map[], agent, calls, f) ==> Bumped(map[], agent, calls, f)[key] > 0
  {
    if calls != [] {
      LabelsHaveCounts(agent, calls[..|calls| - 1], f, key);
    }
  }

  lemma {:induction false} CostAddsUp(a: seq<Call>, b: seq<Call>, cost: Call -> real)
    ensures SumCost(a + b, cost) == SumCost(a, cost) + SumCost(b, cost)
    ensures |b| == 1 ==> SumCost(b, cost) == cost(b[0])
  {
    if b == [] {
      assert a + b == a;
    } else {
      assert (a + b)[..|a + b| - 1] == a + b[..|b| - 1];
      CostAddsUp(a, b[..|b| - 1], cost);
    }
  }

  /** Cost and detail, too, are added only where the caller has none; the detail only for several calls. */
  lemma CallersCostWins(p: Payload, calls: seq<Call>, prices: Prices)
    ensures "cost_usd" in p ==> AddedCost(p, calls, prices) == None
    ensures "cost_usd" !in p && |calls| > 0 ==>
              AddedCost(p, calls, prices) == Some(prices.round(SumCost(calls, prices.cost)))
    ensures |calls| == 0 ==> AddedCost(p, calls, prices) == None && AddedCalls(p, calls) == []
    ensures "llm_calls" in p || |calls| == 1 ==> AddedCalls(p, calls) == []
    ensures "llm_calls" !in p && |calls| >= 2 ==> AddedCalls(p, calls) == calls
  {
  }

  /** What the caller passed stays; a missing count becomes the sum if that is positive. */
  lemma CallerWins(passed: Option<int>, sum: int)
    ensures passed.Some? ==> Filled(passed, sum) == passed
    ensures passed.None? ==> (if sum > 0 then Filled(passed, sum) == Some(sum) else Filled(passed, sum).None?)
  {
  }

  /** What the caller put into the payload stays; model and provider are added if there was a call, those of
      the last one if its stage is a route. */
  lemma CallersPayloadWins(p: Payload, calls: seq<Call>, provider: string, model: string)
    requires '.' !in provider
    ensures var filled := FilledPayload(p, calls);
      && filled.Keys == p.Keys + (if calls == [] then {} else {"model", "provider"})
      && (forall k :: k in p ==> filled[k] == p[k])
      && (calls != [] && calls[|calls| - 1].stage == StageOf(provider, model) ==>
            && ("model" !in p ==> filled["model"] == if model == "" then None else Some(model))
            && ("provider" !in p ==> filled["provider"] == if provider == "" then None else Some(provider)))
  {
    RouteRoundTrip(provider, model);
  }

  class Emitter {
    const context: UsageContext
    var inputTotal: map<Label, int>
    var outputTotal: map<Label, int>

    constructor (context: UsageContext)
      ensures this.context == context && inputTotal == map[] && outputTotal == map[]
    {
      this.context := context;
      inputTotal := map[];
      outputTotal := map[];
    }

    /** `emit_agent_event`. Without a name or a type nothing is drained; when the row cannot be stored the
        calls are drained and counted all the same. */
    method EmitAgentEvent(agent: string, eventType: string, passedInput: Option<int>, passedOutput: Option<int>,
                          payload: Payload, prices: Prices, stores: bool)
      returns (row: Option<EventRow>)
      modifies this`inputTotal, this`outputTotal, context`bucket
      ensures row.Some? <==> agent != "" && eventType != "" && stores
      ensures agent == "" || eventType == "" ==>
        context.bucket == old(context.bucket) && inputTotal == old(inputTotal) && outputTotal == old(outputTotal)
      ensures agent != "" && eventType != "" ==>
        && context.bucket == []
        && inputTotal == Bumped(old(inputTotal), agent, old(context.bucket), Input)
        && outputTotal == Bumped(old(outputTotal), agent, old(context.bucket), Output)
      ensures Step(State(old(context.bucket), [], old(inputTotal)), Emit(agent, eventType), Input).counter == inputTotal
      ensures Step(State(old(context.bucket), [], old(outputTotal)), Emit(agent, eventType), Output).counter
           == outputTotal
      ensures Step(State(old(context.bucket), [], old(inputTotal)), Emit(agent, eventType), Input).bucket
           == context.bucket
      ensures row.Some? ==>
        row.value == EventRow(agent, eventType,
          Filled(passedInput, SumTokens(old(context.bucket), Input)),
          Filled(passedOutput, SumTokens(old(context.bucket), Output)),
          FilledPayload(payload, old(context.bucket)),
          AddedCost(payload, old(context.bucket), prices),
          AddedCalls(payload, old(context.bucket)))
    {
      if agent == "" || eventType == "" {
        return None;
      }
      var calls := context.PopLastLlmCall();
      var totalIn, totalOut, totalCost := SumDrained(calls, prices.cost);
      var input, output := passedInput, passedOutput;
      if input.None? && totalIn > 0 {
        input := Some(totalIn);
      }
      if output.None? && totalOut > 0 {
        output := Some(totalOut);
      }
      var merged := FillPayload(payload, calls);
      CountDrained(agent, calls);
      if !stores {
        return None;
      }
      var cost := if calls != [] && "cost_usd" !in payload then Some(prices.round(totalCost)) else None;
      var detail := if |calls| > 1 && "llm_calls" !in payload then calls else [];
      row := Some(EventRow(agent, eventType, input, output, merged, cost, detail));
    }

    /** A snapshot of the last call, where the caller left it open. */
    method FillPayload(payload: Payload, calls: seq<Call>) returns (merged: Payload)
      ensures merged == FilledPayload(payload, calls)
    {
      merged := payload;
      if calls != [] {
        var route := RouteOf(calls[|calls| - 1].stage);
        if "model" !in merged {
          merged := merged["model" := route.model];
        }
        if "provider" !in merged {
          merged := merged["provider" := route.provider];
        }
      }
    }

    /** The first loop of the event: totals over the drained calls. */
    method SumDrained(calls: seq<Call>, cost: Call -> real) returns (totalIn: int, totalOut: int, totalCost: real)
      ensures totalIn == SumTokens(calls, Input) && totalOut == SumTokens(calls, Output)
      ensures totalCost == SumCost(calls, cost)
    {
      totalIn, totalOut, totalCost := 0, 0, 0.0;
      for i := 0 to |calls|
        invariant totalIn == SumTokens(calls[..i], Input) && totalOut == SumTokens(calls[..i], Output)
        invariant totalCost == SumCost(calls[..i], cost)
      {
        assert calls[..i + 1][..i] == calls[..i];
        totalIn, totalOut := totalIn + calls[i].tokens.input, totalOut + calls[i].tokens.output;
        totalCost := totalCost + cost(calls[i]);
      }
      assert calls[..|calls|] == calls;
    }

    /** The second loop: one increment of each counter per call. */
    method CountDrained(agent: string, calls: seq<Call>)
      modifies this`inputTotal, this`outputTotal
      ensures inputTotal == Bumped(old(inputTotal), agent, calls, Input)
      ensures outputTotal == Bumped(old(outputTotal), agent, calls, Output)
    {
      for i := 0 to |calls|
        invariant inputTotal == Bumped(old(inputTotal), agent, calls[..i], Input)
        invariant outputTotal == Bumped(old(outputTotal), agent, calls[..i], Output)
      {
        assert calls[..i + 1][..i] == calls[..i];
        var key := Label(agent, calls[i].stage);
        var n, m := calls[i].tokens.input, calls[i].tokens.output;
        if n > 0 {
          inputTotal := inputTotal[key := (if key in inputTotal then inputTotal[key] else 0) + n];
        }
        if m > 0 {
          outputTotal := outputTotal[key := (if key in outputTotal then outputTotal[key] else 0) + m];
        }
      }
      assert calls[..|calls|] == calls;
    }
  }

  // ---------- histories of one context ----------

  datatype Op = Record(call: Call) | Emit(agent: string, eventType: string)

  /** Calls that one event drained. */
  datatype Batch = Batch(agent: string, calls: seq<Call>)

  /** The bucket, the batches drained so far, and one of the two counters. */
  datatype State = State(bucket: seq<Call>, drained: seq<Batch>, counter: map<Label, int>)

  function Step(s: State, op: Op, f: Call -> int): State {
    match op
    case Record(c) => s.(bucket := s.bucket + [c])
    case Emit(agent, eventType) =>
      if agent == "" || eventType == "" then s
      else State([], s.drained + [Batch(agent, s.bucket)], Bumped(s.counter, agent, s.bucket, f))
  }

  function Run(ops: seq<Op>, f: Call -> int): State {
    if ops == [] then State([], [], map[]) else Step(Run(ops[..|ops| - 1], f), ops[|ops| - 1], f)
  }

  /** All recorded calls, in order. */
  function Recorded(ops: seq<Op>): seq<Call> {
    if ops == [] then []
    else
      var earlier := Recorded(ops[..|ops| - 1]);
      if ops[|ops| - 1].Record? then earlier + [ops[|ops| - 1].call] else earlier
  }

  function Flatten(batches: seq<Batch>): seq<Call> {
    if batches == [] then [] else Flatten(batches[..|batches| - 1]) + batches[|batches| - 1].calls
  }

  lemma FlattenThen(batches: seq<Batch>, b: Batch)
    ensures Flatten(batches + [b]) == Flatten(batches) + b.calls
  {
    assert (batches + [b])[..|batches|] == batches;
  }

  /** No call is lost, repeated or reordered: the drained batches and then the bucket are the log. */
  lemma {:induction false} DrainedThenBucketIsTheLog(ops: seq<Op>, f: Call -> int)
    ensures var s := Run(ops, f); Flatten(s.drained) + s.bucket == Recorded(ops)
  {
    if ops != [] {
      var earlier, op := ops[..|ops| - 1], ops[|ops| - 1];
      DrainedThenBucketIsTheLog(earlier, f);
      var s := Run(earlier, f);
      match op
      case Record(c) =>
        assert Flatten(s.drained) + (s.bucket + [c]) == Flatten(s.drained) + s.bucket + [c];
      case Emit(agent, eventType) =>
        FlattenThen(s.drained, Batch(agent, s.bucket));
    }
  }

  /** The tokens that a counter would accept. */
  function Accepted(f: Call -> int): Call -> int {
    (c: Call) => Max(0, f(c))
  }

  lemma {:induction false} SumTokensConcat(a: seq<Call>, b: seq<Call>, f: Call -> int)
    ensures SumTokens(a + b, f) == SumTokens(a, f) + SumTokens(b, f)
  {
    if b == [] {
      assert a + b == a;
    } else {
      assert (a + b)[..|a + b| - 1] == a + b[..|b| - 1];
      SumTokensConcat(a, b[..|b| - 1], f);
    }
  }

  function Same(n: int): int {
    n
  }

  lemma {:induction false} BumpedSum(counter: map<Label, int>, agent: string, calls: seq<Call>, f: Call -> int)
    ensures SumBy(Bumped(counter, agent, calls, f), Same) == SumBy(counter, Same) + SumTokens(calls, Accepted(f))
  {
    if calls != [] {
      var earlier, last := calls[..|calls| - 1], calls[|calls| - 1];
      BumpedSum(counter, agent, earlier, f);
      var before := Bumped(counter, agent, earlier, f);
      var key := Label(agent, last.stage);
      SumAfterUpdate(before, Same, key, (if key in before then before[key] else 0) + f(last));
    }
  }

  /** Conservation: the tokens ever recorded are those on the counter, over all its labels, plus
      those still in the bucket. */
  lemma {:induction false} CountedPlusPendingIsRecorded(ops: seq<Op>, f: Call -> int)
    ensures var s := Run(ops, f);
      SumTokens(Recorded(ops), Accepted(f)) == SumBy(s.counter, Same) + SumTokens(s.bucket, Accepted(f))
  {
    if ops != [] {
      var earlier, op := ops[..|ops| - 1], ops[|ops| - 1];
      CountedPlusPendingIsRecorded(earlier, f);
      var s := Run(earlier, f);
      match op
      case Record(c) =>
        SumTokensConcat(s.bucket, [c], Accepted(f));
        SumTokensConcat(Recorded(earlier), [c], Accepted(f));
      case Emit(agent, eventType) =>
        BumpedSum(s.counter, agent, s.bucket, f);
    }
  }

  /** With no negative counts that is the plain sum. */
  lemma {:induction false} AcceptedIsPlain(calls: seq<Call>, f: Call -> int)
    requires forall c :: c in calls ==> f(c) >= 0
    ensures SumTokens(calls, Accepted(f)) == SumTokens(calls, f)
  {
    if calls != [] {
      assert calls[|calls| - 1] in calls;
      AcceptedIsPlain(calls[..|calls| - 1], f);
    }
  }

  /** What the events of one agent drained for one stage. */
  function Attributed(batches: seq<Batch>, key: Label, f: Call -> int): int {
    if batches == [] then 0
    else
      var last := batches[|batches| - 1];
      Attributed(batches[..|batches| - 1], key, f)
      + if last.agent == key.agent then SumTokens(OfStage(last.calls, key.stage), f) else 0
  }

  lemma {:induction false} BumpedLabel(counter: map<Label, int>, agent: string, calls: seq<Call>, f: Call -> int,
                                       key: Label)
    ensures Count(Bumped(counter, agent, calls, f), key) == Count(counter, key)
      + if agent == key.agent then SumTokens(OfStage(calls, key.stage), Accepted(f)) else 0
  {
    if calls != [] {
      var earlier, last := calls[..|calls| - 1], calls[|calls| - 1];
      BumpedLabel(counter, agent, earlier, f, key);
      if last.stage == key.stage {
        SumTokensConcat(OfStage(earlier, key.stage), [last], Accepted(f));
      } else {
        assert OfStage(earlier, key.stage) + [] == OfStage(earlier, key.stage);
      }
    }
  }

  lemma AttributedThen(batches: seq<Batch>, b: Batch, key: Label, f: Call -> int)
    ensures Attributed(batches + [b], key, f) ==
      Attributed(batches, key, f) + if b.agent == key.agent then SumTokens(OfStage(b.calls, key.stage), f) else 0
  {
    assert (batches + [b])[..|batches|] == batches;
  }

  lemma StepKeepsLabel(s: State, op: Op, f: Call -> int, key: Label)
    requires Count(s.counter, key) == Attributed(s.drained, key, Accepted(f))
    ensures Count(Step(s, op, f).counter, key) == Attributed(Step(s, op, f).drained, key, Accepted(f))
  {
    if op.Emit? {
      BumpedLabel(s.counter, op.agent, s.bucket, f, key);
      AttributedThen(s.drained, Batch(op.agent, s.bucket), key, Accepted(f));
    }
  }

  /** Each label counts exactly the calls of its stage that its agent's events drained. */
  lemma {:induction false} LabelCountsItsCalls(ops: seq<Op>, f: Call -> int, key: Label)
    ensures Count(Run(ops, f).counter, key) == Attributed(Run(ops, f).drained, key, Accepted(f))
  {
    if ops != [] {
      LabelCountsItsCalls(ops[..|ops| - 1], f, key);
      StepKeepsLabel(Run(ops[..|ops| - 1], f), ops[|ops| - 1], f, key);
    }
  }
}
