/**
 Token accounting: what is read from an LLM response, the usage session with its per-stage
 buckets, and the list of calls that waits to be attributed to an agent event.
 */
module LlmUsage {
  import opened Numbers
  import opened Options
  import opened Sums

  // ---------- what a response says ----------

  /** A provider's usage mapping; 0 stands for a missing number. `hidden` lists the places where reasoning
      tokens may be reported. */
  datatype UsageDict = UsageDict(input: int, prompt: int, output: int, completion: int, total: int, hidden: seq<int>)

  /** The three places in a response that may hold a usage mapping. */
  datatype Response = Response(metadata: Option<UsageDict>, tokenUsage: Option<UsageDict>, usage: Option<UsageDict>)

  datatype Tokens = Tokens(input: int, output: int, total: int, billable: int)

  const NO_TOKENS := Tokens(0, 0, 0, 0)

  function Greatest(xs: seq<int>): int
    requires xs != []
  {
    if |xs| == 1 then xs[0] else Max(Greatest(xs[..|xs| - 1]), xs[|xs| - 1])
  }

  function Reasoning(xs: seq<int>): int {
    if xs == [] then 0 else Greatest(xs)
  }

  /** `_usage_tuple_from_dict`. */
  function UsageTuple(d: UsageDict): Tokens {
    var input, output := OrElse(d.input, d.prompt), OrElse(d.output, d.completion);
    var billable := Max(Max(d.total, input + output), input + output + Reasoning(d.hidden));
    Tokens(input, output, if d.total <= 0 then billable else d.total, billable)
  }

  /** `_extract_usage`. */
  function ExtractUsage(r: Response): Tokens {
    var first := if r.metadata.Some? then UsageTuple(r.metadata.value) else NO_TOKENS;
    if first.input > 0 || first.output > 0 || first.total > 0 || first.billable > 0 then first
    else if r.tokenUsage.Some? then UsageTuple(r.tokenUsage.value)
    else if r.usage.Some? then UsageTuple(r.usage.value)
    else NO_TOKENS
  }

  // ---------- the same in the fields of the response ----------

  /** The input that a mapping reports: `input_tokens`, or `prompt_tokens` where that one is 0. */
  function InputIn(d: UsageDict): int {
    if d.input != 0 then d.input else d.prompt
  }

  /** And the output: `output_tokens`, or `completion_tokens`. */
  function OutputIn(d: UsageDict): int {
    if d.output != 0 then d.output else d.completion
  }

  /** Some count of the mapping is positive, reasoning tokens included. */
  predicate IsPositive(d: UsageDict) {
    || InputIn(d) > 0 || OutputIn(d) > 0 || d.total > 0
    || exists x :: x in d.hidden && InputIn(d) + OutputIn(d) + x > 0
  }

  /** The mapping that counts: the metadata if a count of theirs is positive, else the first of the other two
      that is there. */
  function Place(r: Response): Option<UsageDict> {
    if r.metadata.Some? && IsPositive(r.metadata.value) then r.metadata
    else if r.tokenUsage.Some? then r.tokenUsage
    else r.usage
  }

  function InputOf(r: Response): int {
    match Place(r)
    case Some(d) => InputIn(d)
    case None => 0
  }

  function OutputOf(r: Response): int {
    match Place(r)
    case Some(d) => OutputIn(d)
    case None => 0
  }

  /** The billable count is the least that covers the reported total, the visible tokens, and the visible
      with any of the reasoning tokens. */
  predicate IsBillable(d: UsageDict, billable: int) {
    var visible := InputIn(d) + OutputIn(d);
    && billable >= d.total && billable >= visible && (forall x :: x in d.hidden ==> billable >= visible + x)
    && (billable == d.total || billable == visible || exists x :: x in d.hidden && billable == visible + x)
  }

  lemma {:induction false} GreatestIs(xs: seq<int>)
    requires xs != []
    ensures Greatest(xs) in xs && forall x :: x in xs ==> x <= Greatest(xs)
  {
    if |xs| > 1 {
      var init := xs[..|xs| - 1];
      GreatestIs(init);
      assert forall x :: x in xs ==> x in init || x == xs[|xs| - 1];
    }
  }

  lemma TupleOf(d: UsageDict)
    ensures var t := UsageTuple(d);
      && t.input == InputIn(d) && t.output == OutputIn(d) && IsBillable(d, t.billable)
      && t.total == (if d.total > 0 then d.total else t.billable)
      && (t.input > 0 || t.output > 0 || t.total > 0 || t.billable > 0 <==> IsPositive(d))
  {
    if d.hidden != [] {
      GreatestIs(d.hidden);
    }
  }

  /** What is recorded of a response: the input and output of the mapping that counts, its total, or the
      billable count where it gives none, and the billable count. */
  lemma ExtractsThePlace(r: Response)
    ensures var t := ExtractUsage(r);
      && t.input == InputOf(r) && t.output == OutputOf(r)
      && (Place(r).None? ==> t == NO_TOKENS)
      && (Place(r).Some? ==>
            && IsBillable(Place(r).value, t.billable)
            && t.total == if Place(r).value.total > 0 then Place(r).value.total else t.billable)
  {
    if r.metadata.Some? {
      TupleOf(r.metadata.value);
    }
    if r.tokenUsage.Some? {
      TupleOf(r.tokenUsage.value);
    }
    if r.usage.Some? {
      TupleOf(r.usage.value);
    }
  }

  /** What one call adds to a session. */
  function Delta(t: Tokens): Totals {
    var total := if t.total > 0 then t.total else t.input + t.output;
    Totals(1, t.input, t.output, total, Max(t.billable, total))
  }

  // ---------- sessions ----------

  datatype Totals = Totals(calls: int, input: int, output: int, total: int, billable: int)

  const ZERO := Totals(0, 0, 0, 0, 0)

  function Plus(a: Totals, b: Totals): Totals {
    Totals(a.calls + b.calls, a.input + b.input, a.output + b.output, a.total + b.total, a.billable + b.billable)
  }

  datatype Session = Session(totals: Totals, embeddingCalls: nat, stages: map<string, Totals>)

  /** `begin_usage_session`: a session that continues from the totals of earlier ones. */
  function Baseline(input: int, output: int, billable: Option<int>): Totals {
    var total := Max(0, input) + Max(0, output);
    Totals(0, Max(0, input), Max(0, output), total,
           Max(total, if billable.Some? then Max(0, billable.value) else 0))
  }

  /** One recorded call: its stage, empty if none was given, and the tokens of its response. */
  datatype Call = Call(stage: string, tokens: Tokens)

  function CallOf(r: Response, stage: string): Call {
    Call(stage, ExtractUsage(r))
  }

  function AfterRecord(s: Session, c: Call): Session {
    var d := Delta(c.tokens);
    s.(totals := Plus(s.totals, d),
       stages := if c.stage == "" then s.stages
                 else s.stages[c.stage := Plus(if c.stage in s.stages then s.stages[c.stage] else ZERO, d)])
  }

  /** One logical context: its usage session and its bucket of calls. */
  class UsageContext {
    var session: Option<Session>
    var bucket: seq<Call>

    constructor ()
      ensures session == None && bucket == []
    {
      session := None;
      bucket := [];
    }

    method BeginUsageSession(input: int, output: int, billable: Option<int>)
      modifies this`session
      ensures session == Some(Session(Baseline(input, output, billable), 0, map[]))
    {
      var baseInput, baseOutput := Max(0, input), Max(0, output);
      var total := baseInput + baseOutput;
      var floor := if billable.Some? then Max(0, billable.value) else 0;
      session := Some(Session(Totals(0, baseInput, baseOutput, total, Max(total, floor)), 0, map[]));
    }

    /** `end_usage_session`. */
    method EndUsageSession() returns (last: Option<Session>)
      modifies this`session
      ensures last == old(session) && session == None
    {
      last := session;
      session := None;
    }

    /** `record_usage_from_response`: the call goes to the bucket, with or without a session. */
    method RecordUsage(r: Response, stage: string) returns (tokens: Tokens)
      modifies this
      ensures tokens == ExtractUsage(r) && tokens.input == InputOf(r) && tokens.output == OutputOf(r)
      ensures bucket == old(bucket) + [Call(stage, tokens)]
      ensures session == if old(session).None? then None else Some(AfterRecord(old(session).value, Call(stage, tokens)))
    {
      ExtractsThePlace(r);
      tokens := ExtractUsage(r);
      bucket := bucket + [Call(stage, tokens)];
      if session.Some? {
        Count(tokens, stage);
      }
    }

    /** The part under the session's lock. */
    method Count(tokens: Tokens, stage: string)
      requires session.Some?
      modifies this`session
      ensures session == Some(AfterRecord(old(session).value, Call(stage, tokens)))
    {
      var totalDelta := if tokens.total > 0 then tokens.total else tokens.input + tokens.output;
      var billableDelta := Max(tokens.billable, totalDelta);
      var t := session.value.totals;
      t := Totals(t.calls + 1, t.input + tokens.input, t.output + tokens.output,
                  t.total + totalDelta, t.billable + billableDelta);
      var stages := session.value.stages;
      if stage != "" {
        if stage !in stages {
          stages := stages[stage := ZERO];
        }
        var b := stages[stage];
        b := Totals(b.calls + 1, b.input + tokens.input, b.output + tokens.output,
                    b.total + totalDelta, b.billable + billableDelta);
        stages := stages[stage := b];
        assert stages == session.value.stages[stage := b];
      }
      session := Some(session.value.(totals := t, stages := stages));
    }

    /** `record_embedding_call`. */
    method RecordEmbeddingCall()
      modifies this`session
      ensures session == if old(session).None? then None
        else Some(old(session).value.(embeddingCalls := old(session).value.embeddingCalls + 1))
    {
      if session.Some? {
        session := Some(session.value.(embeddingCalls := session.value.embeddingCalls + 1));
      }
    }

    /** `pop_last_llm_call`. */
    method PopLastLlmCall() returns (calls: seq<Call>)
      modifies this`bucket
      ensures calls == old(bucket) && bucket == []
    {
      calls := bucket;
      bucket := [];
    }
  }

  // ---------- what a session has counted ----------

  /** A session after its calls, in order. */
  function SessionAfter(base: Totals, calls: seq<Call>): Session {
    if calls == [] then Session(base, 0, map[])
    else AfterRecord(SessionAfter(base, calls[..|calls| - 1]), calls[|calls| - 1])
  }

  function SumOf(calls: seq<Call>): Totals {
    if calls == [] then ZERO else Plus(SumOf(calls[..|calls| - 1]), Delta(calls[|calls| - 1].tokens))
  }

  /** The calls of one stage. */
  function OfStage(calls: seq<Call>, stage: string): seq<Call> {
    if calls == [] then []
    else OfStage(calls[..|calls| - 1], stage) + if calls[|calls| - 1].stage == stage then [calls[|calls| - 1]] else []
  }

  lemma OfStageSum(calls: seq<Call>, stage: string)
    requires calls != []
    ensures var earlier := OfStage(calls[..|calls| - 1], stage);
      SumOf(OfStage(calls, stage)) ==
      if calls[|calls| - 1].stage == stage then Plus(SumOf(earlier), Delta(calls[|calls| - 1].tokens))
      else SumOf(earlier)
  {
    var earlier := OfStage(calls[..|calls| - 1], stage);
    assert (earlier + [calls[|calls| - 1]])[..|earlier|] == earlier;
    assert earlier + [] == earlier;
  }

  /** The session holds its baseline plus every call, and each bucket exactly the calls of its stage. */
  lemma {:induction false} SessionCountsItsCalls(base: Totals, calls: seq<Call>)
    ensures var s := SessionAfter(base, calls);
      && s.totals == Plus(base, SumOf(calls))
      && (forall stage :: stage in s.stages <==> stage != "" && OfStage(calls, stage) != [])
      && (forall stage :: stage in s.stages ==> s.stages[stage] == SumOf(OfStage(calls, stage)))
  {
    if calls != [] {
      var earlier := calls[..|calls| - 1];
      SessionCountsItsCalls(base, earlier);
      var before, s := SessionAfter(base, earlier), SessionAfter(base, calls);
      forall stage
        ensures stage in s.stages <==> stage != "" && OfStage(calls, stage) != []
        ensures stage in s.stages ==> s.stages[stage] == SumOf(OfStage(calls, stage))
      {
        OfStageSum(calls, stage);
        if stage !in before.stages {
          assert stage != "" ==> SumOf(OfStage(earlier, stage)) == ZERO;
        }
      }
    }
  }

  /** In every session the billable count covers the total and the visible tokens. */
  lemma {:induction false} BillableCoversTheRest(input: int, output: int, billable: Option<int>, calls: seq<Call>)
    requires forall c :: c in calls ==> exists r :: c.tokens == ExtractUsage(r)
    ensures var t := SessionAfter(Baseline(input, output, billable), calls).totals;
      t.billable >= t.total && t.billable >= t.input + t.output
  {
    if calls != [] {
      var c := calls[|calls| - 1];
      assert c in calls;
      var r :| c.tokens == ExtractUsage(r);
      BillableCoversTheRest(input, output, billable, calls[..|calls| - 1]);
    }
  }

  ghost function StageSum(s: Session, f: Totals -> int): int {
    SumBy(s.stages, f)
  }

  predicate Additive(f: Totals -> int, a: Totals, b: Totals) {
    f(Plus(a, b)) == f(a) + f(b)
  }

  /** The buckets together hold exactly the calls that carried a stage. */
  lemma {:induction false} BucketsSumToStagedCalls(base: Totals, calls: seq<Call>, f: Totals -> int)
    requires f(ZERO) == 0 && forall a, b :: Additive(f, a, b)
    ensures f(SessionAfter(base, calls).totals) ==
      f(base) + StageSum(SessionAfter(base, calls), f) + f(SumOf(OfStage(calls, "")))
  {
    if calls != [] {
      var earlier, c := calls[..|calls| - 1], calls[|calls| - 1];
      var before := SessionAfter(base, earlier);
      BucketsSumToStagedCalls(base, earlier, f);
      OfStageSum(calls, "");
      assert Additive(f, before.totals, Delta(c.tokens));
      if c.stage == "" {
        assert Additive(f, SumOf(OfStage(earlier, "")), Delta(c.tokens));
      } else {
        var prior := if c.stage in before.stages then before.stages[c.stage] else ZERO;
        assert Additive(f, prior, Delta(c.tokens));
        SumAfterUpdate(before.stages, f, c.stage, Plus(prior, Delta(c.tokens)));
      }
    }
  }

  /** When every call carries a stage, the buckets sum to what the session added to its baseline. */
  lemma {:induction false} BucketsSumToTheSession(base: Totals, calls: seq<Call>)
    requires forall c :: c in calls ==> c.stage != ""
    ensures var s := SessionAfter(base, calls);
      && s.totals.calls == base.calls + StageSum(s, (t: Totals) => t.calls)
      && s.totals.input == base.input + StageSum(s, (t: Totals) => t.input)
      && s.totals.output == base.output + StageSum(s, (t: Totals) => t.output)
      && s.totals.total == base.total + StageSum(s, (t: Totals) => t.total)
      && s.totals.billable == base.billable + StageSum(s, (t: Totals) => t.billable)
  {
    NoneWithoutStage(calls);
    BucketsSumToStagedCalls(base, calls, (t: Totals) => t.calls);
    BucketsSumToStagedCalls(base, calls, (t: Totals) => t.input);
    BucketsSumToStagedCalls(base, calls, (t: Totals) => t.output);
    BucketsSumToStagedCalls(base, calls, (t: Totals) => t.total);
    BucketsSumToStagedCalls(base, calls, (t: Totals) => t.billable);
  }

  lemma {:induction false} NoneWithoutStage(calls: seq<Call>)
    requires forall c :: c in calls ==> c.stage != ""
    ensures OfStage(calls, "") == []
  {
    if calls != [] {
      assert calls[|calls| - 1] in calls;
      NoneWithoutStage(calls[..|calls| - 1]);
    }
  }
}
