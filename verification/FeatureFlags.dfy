/**
 Feature flags: the stored rows, the audit log of `set_flag`, the declarative sync from yaml,
 and one process's cache in front of the rows.
 */
module FeatureFlags {
  import opened Options
  import opened Strings

  /** JSON values. Python's booleans are the numbers 0 and 1, as its `==` has it. */
  datatype Value =
    | Null
    | Num(n: int)
    | Str(s: string)
    | Arr(items: seq<Value>)
    | Obj(m: map<string, Value>)

  /** The fields of a flag: the three that `set_flag` controls, the other known ones, any other by name. */
  datatype Key =
    | Enabled | RolloutPct | NovelAllowlist
    | Owner | Purpose | CreatedAt | TargetFullRolloutAt | ExpectedRemovalAt | DependsOn
    | Other(name: string)

  type FlagState = map<Key, Value>

  const CONTROLLED: set<Key> := {Enabled, RolloutPct, NovelAllowlist}

  const DEFAULT_STATE: FlagState := map[
    Enabled := Num(0),
    RolloutPct := Num(0),
    NovelAllowlist := Arr([]),
    Owner := Str("team:unassigned"),
    Purpose := Str(""),
    CreatedAt := Null,
    TargetFullRolloutAt := Null,
    ExpectedRemovalAt := Null,
    DependsOn := Arr([])]

  /** The JSON stored for a flag: a mapping, or something else. */
  datatype Row = NoMapping | Mapping(m: FlagState)

  datatype AuditEntry = AuditEntry(flag: string, changedBy: string, before: FlagState, after: FlagState, reason: string)

  /** The database: the JSON stored for each flag name, and the audit log. */
  datatype Store = Store(rows: map<string, Row>, audit: seq<AuditEntry>)

  // ---------- small Python operations ----------

  function Truthy(v: Value): bool {
    match v
    case Null => false
    case Num(n) => n != 0
    case Str(s) => s != ""
    case Arr(items) => items != []
    case Obj(m) => m != map[]
  }

  /** `int(v)`; `parse` reads a decimal string, if it is one. */
  function ToInt(v: Value, parse: string -> Option<int>): Option<int> {
    match v
    case Num(n) => Some(n)
    case Str(s) => parse(s)
    case _ => None
  }

  function ToInts(items: seq<Value>, parse: string -> Option<int>): Option<seq<int>> {
    if items == [] then Some([])
    else
      var head := ToInt(items[0], parse);
      var tail := ToInts(items[1..], parse);
      if head.None? || tail.None? then None else Some([head.value] + tail.value)
  }

  /** How Python reads what the model does not: a decimal string, if it is one, and the order of a mapping's
      keys. */
  datatype Reading = Reading(parse: string -> Option<int>, keys: map<string, Value> -> seq<string>)

  function Nums(ns: seq<int>): seq<Value> {
    seq(|ns|, i requires 0 <= i < |ns| => Num(ns[i]))
  }

  // ---------- set_flag ----------

  datatype Write = Write(
    flag: string,
    enabled: Option<bool>,
    rolloutPct: Option<int>,
    allowlist: Option<seq<int>>,
    extra: FlagState,
    changedBy: string,
    reason: string)

  predicate Acceptable(w: Write) {
    && w.flag != "" && Strip(w.reason) != "" && Strip(w.changedBy) != ""
    && (w.rolloutPct.Some? ==> 0 <= w.rolloutPct.value <= 100)
    && w.extra.Keys * CONTROLLED == {}
  }

  /** The stored state as a mapping; a missing row or a row that holds no mapping counts as empty. */
  function StoredState(rows: map<string, Row>, flag: string): FlagState {
    if flag in rows && rows[flag].Mapping? then rows[flag].m else map[]
  }

  /** The fields that the write sets. */
  function Fields(w: Write): FlagState {
    (if w.enabled.Some? then map[Enabled := Num(if w.enabled.value then 1 else 0)] else map[])
    + (if w.rolloutPct.Some? then map[RolloutPct := Num(w.rolloutPct.value)] else map[])
    + (if w.allowlist.Some? then map[NovelAllowlist := Arr(Nums(w.allowlist.value))] else map[])
    + w.extra
  }

  function Merged(before: FlagState, w: Write): FlagState {
    DEFAULT_STATE + before + Fields(w)
  }

  lemma MergedHasDefaults(before: FlagState, w: Write)
    ensures DEFAULT_STATE + Merged(before, w) == Merged(before, w)
  {
  }

  function AfterWrite(st: Store, w: Write): Store {
    if !Acceptable(w) then st
    else
      var before := StoredState(st.rows, w.flag);
      var after := Merged(before, w);
      var entry := AuditEntry(w.flag, Strip(w.changedBy), before, after, Strip(w.reason));
      Store(st.rows[w.flag := Mapping(after)], st.audit + [entry])
  }

  lemma ExtraIsUncontrolled(w: Write)
    requires w.extra.Keys * CONTROLLED == {}
    ensures Enabled !in w.extra && RolloutPct !in w.extra && NovelAllowlist !in w.extra
  {
    var both := w.extra.Keys * CONTROLLED;
    assert Enabled !in both && RolloutPct !in both && NovelAllowlist !in both;
    assert Enabled in CONTROLLED && RolloutPct in CONTROLLED && NovelAllowlist in CONTROLLED;
  }

  /** A write goes through exactly with a flag, a reason and an author, a rollout between 0 and 100 and no
      controlled field among the others; a rejected one changes nothing. */
  lemma RejectedIff(st: Store, w: Write)
    ensures AfterWrite(st, w) == st <==>
            || w.flag == "" || Strip(w.reason) == "" || Strip(w.changedBy) == ""
            || (w.rolloutPct.Some? && (w.rolloutPct.value < 0 || w.rolloutPct.value > 100))
            || Enabled in w.extra || RolloutPct in w.extra || NovelAllowlist in w.extra
  {
    if Acceptable(w) {
      assert |AfterWrite(st, w).audit| == |st.audit| + 1;
      ExtraIsUncontrolled(w);
    }
  }

  function AfterWrites(st: Store, ws: seq<Write>): Store {
    if ws == [] then st else AfterWrite(AfterWrites(st, ws[..|ws| - 1]), ws[|ws| - 1])
  }

  // ---------- the audit log replays to the rows ----------

  /** The rows one gets from `rows` by applying the audited changes in order. */
  function Replay(rows: map<string, Row>, audit: seq<AuditEntry>): map<string, Row> {
    if audit == [] then rows
    else
      var last := audit[|audit| - 1];
      Replay(rows, audit[..|audit| - 1])[last.flag := Mapping(last.after)]
  }

  /** Every entry starts from the state that the entries before it lead to. */
  ghost predicate Chained(rows: map<string, Row>, audit: seq<AuditEntry>) {
    forall i :: 0 <= i < |audit| ==> audit[i].before == StoredState(Replay(rows, audit[..i]), audit[i].flag)
  }

  lemma ReplayOneMore(rows: map<string, Row>, audit: seq<AuditEntry>, e: AuditEntry)
    requires Chained(rows, audit) && e.before == StoredState(Replay(rows, audit), e.flag)
    ensures Replay(rows, audit + [e]) == Replay(rows, audit)[e.flag := Mapping(e.after)]
    ensures Chained(rows, audit + [e])
  {
    var longer := audit + [e];
    assert longer[..|audit|] == audit;
    forall i | 0 <= i < |longer| ensures longer[i].before == StoredState(Replay(rows, longer[..i]), longer[i].flag)
    {
      assert longer[..i] == audit[..i];
      if i == |audit| {
        assert audit[..i] == audit;
      }
    }
  }

  /** The entries that a store's log has beyond the first `n`. */
  function Since(st: Store, n: nat): seq<AuditEntry> {
    if n <= |st.audit| then st.audit[n..] else []
  }

  lemma WriteExtendsTheLog(rows: map<string, Row>, st: Store, w: Write, n: nat)
    requires n <= |st.audit| && st.rows == Replay(rows, Since(st, n)) && Chained(rows, Since(st, n))
    ensures var end := AfterWrite(st, w);
            && st.audit <= end.audit
            && end.rows == Replay(rows, Since(end, n)) && Chained(rows, Since(end, n))
  {
    if Acceptable(w) {
      var end := AfterWrite(st, w);
      var e := end.audit[|st.audit|];
      assert Since(end, n) == Since(st, n) + [e];
      ReplayOneMore(rows, Since(st, n), e);
    }
  }

  /** For any serial writes, accepted or rejected, the log they append chains from the rows they
      started with and replays to the rows they end with. */
  lemma {:induction false} AuditReplays(st: Store, ws: seq<Write>)
    ensures var end := AfterWrites(st, ws);
            && st.audit <= end.audit
            && end.rows == Replay(st.rows, Since(end, |st.audit|)) && Chained(st.rows, Since(end, |st.audit|))
  {
    if ws != [] {
      AuditReplays(st, ws[..|ws| - 1]);
      WriteExtendsTheLog(st.rows, AfterWrites(st, ws[..|ws| - 1]), ws[|ws| - 1], |st.audit|);
    }
  }

  /** Consecutive entries of one flag chain: the later one starts from what the earlier one stored. */
  lemma {:induction false} EntriesOfAFlagChain(rows: map<string, Row>, audit: seq<AuditEntry>, i: nat, j: nat)
    requires Chained(rows, audit) && i < j < |audit| && audit[i].flag == audit[j].flag
    requires forall k :: i < k < j ==> audit[k].flag != audit[i].flag
    ensures audit[j].before == audit[i].after
  {
    ReplayKeepsOthers(rows, audit, audit[i].flag, i, j);
  }

  lemma {:induction false} ReplayKeepsOthers(rows: map<string, Row>, audit: seq<AuditEntry>, flag: string, i: nat,
                                             j: nat)
    requires i < j <= |audit| && audit[i].flag == flag
    requires forall k :: i < k < j ==> audit[k].flag != flag
    ensures StoredState(Replay(rows, audit[..j]), flag) == audit[i].after
  {
    assert audit[..j][..j - 1] == audit[..j - 1];
    if i + 1 < j {
      ReplayKeepsOthers(rows, audit, flag, i, j - 1);
    }
  }

  // ---------- declarative sync ----------

  datatype SyncResult = Skipped | Refused | Wrote

  /** One flag as declared in yaml, with the audit fields. */
  datatype Sync = Sync(flag: string, state: FlagState, changedBy: string, reason: string, read: Reading)

  function Target(y: Sync): (target: FlagState)
    ensures DEFAULT_STATE.Keys <= target.Keys && CONTROLLED <= target.Keys
  {
    DEFAULT_STATE + y.state
  }

  function Strs(ss: seq<string>): seq<Value> {
    seq(|ss|, i requires 0 <= i < |ss| => Str(ss[i]))
  }

  /** What a loop over `target["novel_allowlist"] or []` visits: the items of a list, the characters of a
      string, the keys of a mapping; a number cannot be visited. */
  function AllowlistItems(v: Value, read: Reading): Option<seq<Value>> {
    if !Truthy(v) then Some([])
    else match v
      case Arr(items) => Some(items)
      case Str(s) => Some(seq(|s|, i requires 0 <= i < |s| => Str([s[i]])))
      case Obj(m) => Some(Strs(read.keys(m)))
      case _ => None
  }

  /** The write that the sync issues, unless a field cannot be converted. */
  function WriteFor(target: FlagState, y: Sync): Option<Write>
    requires CONTROLLED <= target.Keys
  {
    var pct := if Truthy(target[RolloutPct]) then ToInt(target[RolloutPct], y.read.parse) else Some(0);
    var items := AllowlistItems(target[NovelAllowlist], y.read);
    var ints := if items.Some? then ToInts(items.value, y.read.parse) else None;
    if pct.None? || ints.None? then None
    else Some(Write(y.flag, Some(Truthy(target[Enabled])), pct, ints, target - CONTROLLED, y.changedBy, y.reason))
  }

  function SyncWrite(y: Sync): Option<Write> {
    WriteFor(Target(y), y)
  }

  function SyncOutcome(st: Store, y: Sync): SyncResult {
    if StoredState(st.rows, y.flag) == Target(y) then Skipped
    else if SyncWrite(y).None? || !Acceptable(SyncWrite(y).value) then Refused
    else Wrote
  }

  function AfterSync(st: Store, y: Sync): Store {
    if SyncOutcome(st, y) == Wrote then AfterWrite(st, SyncWrite(y).value) else st
  }

  /** The controlled fields already have the types that `set_flag` stores. */
  predicate WellTyped(target: FlagState)
    requires CONTROLLED <= target.Keys
  {
    && target[Enabled] in {Num(0), Num(1)}
    && target[RolloutPct].Num?
    && target[NovelAllowlist].Arr?
    && forall i :: 0 <= i < |target[NovelAllowlist].items| ==> target[NovelAllowlist].items[i].Num?
  }

  lemma {:induction false} ToIntsOfNums(items: seq<Value>, parse: string -> Option<int>)
    requires ToInts(items, parse).Some?
    ensures |ToInts(items, parse).value| == |items|
    ensures Nums(ToInts(items, parse).value) == items <==> forall i :: 0 <= i < |items| ==> items[i].Num?
  {
    if items != [] {
      var rest := ToInts(items[1..], parse).value;
      var all := ToInts(items, parse).value;
      ToIntsOfNums(items[1..], parse);
      assert all == [ToInt(items[0], parse).value] + rest;
      assert Nums(all) == [Num(all[0])] + Nums(rest);
      assert items == [items[0]] + items[1..];
      if forall i :: 0 <= i < |items| ==> items[i].Num? {
        assert forall i :: 0 <= i < |items| - 1 ==> items[1..][i] == items[i + 1];
      } else if Nums(all) == items {
        assert forall i :: 0 <= i < |items| ==> items[i] == Nums(all)[i];
      }
    }
  }

  /** What the sync's write sets, key by key. */
  lemma SyncFields(target: FlagState, y: Sync)
    requires CONTROLLED <= target.Keys && WriteFor(target, y).Some?
    ensures var fields := Fields(WriteFor(target, y).value);
            && fields.Keys == target.Keys
            && (fields == target <==> WellTyped(target))
  {
    var w := WriteFor(target, y).value;
    var fields := Fields(w);
    var items := AllowlistItems(target[NovelAllowlist], y.read).value;
    ToIntsOfNums(items, y.read.parse);
    assert fields[Enabled] == Num(if Truthy(target[Enabled]) then 1 else 0);
    assert fields[RolloutPct] == Num(w.rolloutPct.value);
    assert fields[NovelAllowlist] == Arr(Nums(w.allowlist.value));
    if target[NovelAllowlist].Arr? {
      assert items == target[NovelAllowlist].items;
    }
    assert forall k :: k in target && k !in CONTROLLED ==> fields[k] == target[k];
  }

  lemma OverlayIs(base: FlagState, fields: FlagState, target: FlagState)
    requires fields.Keys == target.Keys
    ensures base + fields == target <==> fields == target && base.Keys <= target.Keys
  {
    if base + fields == target {
      assert forall k :: k in fields ==> (base + fields)[k] == fields[k];
      assert (base + fields).Keys == base.Keys + fields.Keys;
    } else if base.Keys <= target.Keys {
      assert base + fields == fields;
    }
  }

  /** A sync that writes reaches exactly its target, so that the next one is skipped without an audit
      entry, if and only if the target is well typed and covers every stored key. */
  lemma SyncConvergesIff(st: Store, y: Sync)
    requires SyncOutcome(st, y) == Wrote
    ensures StoredState(AfterSync(st, y).rows, y.flag) == Target(y) <==>
            WellTyped(Target(y)) && StoredState(st.rows, y.flag).Keys <= Target(y).Keys
    ensures SyncOutcome(AfterSync(st, y), y) == Skipped <==>
            WellTyped(Target(y)) && StoredState(st.rows, y.flag).Keys <= Target(y).Keys
  {
    SyncFields(Target(y), y);
    OverlayIs(DEFAULT_STATE + StoredState(st.rows, y.flag), Fields(SyncWrite(y).value), Target(y));
  }

  lemma OverlayTwice(defaults: FlagState, before: FlagState, fields: FlagState)
    ensures defaults + (defaults + before + fields) + fields == defaults + before + fields
  {}

  /** Writing what is already stored changes no row and logs one entry. */
  lemma RewriteIsLogged(st: Store, before: FlagState, w: Write)
    requires Acceptable(w) && w.flag in st.rows && st.rows[w.flag] == Mapping(Merged(before, w))
    ensures AfterWrite(st, w).rows == st.rows && |AfterWrite(st, w).audit| == |st.audit| + 1
  {
    OverlayTwice(DEFAULT_STATE, before, Fields(w));
    assert st.rows[w.flag := st.rows[w.flag]] == st.rows;
  }

  /** The next sync writes, storing the rows that are already there and logging one more change. */
  predicate Unsettled(st: Store, y: Sync) {
    && SyncOutcome(st, y) == Wrote
    && AfterSync(st, y).rows == st.rows
    && |AfterSync(st, y).audit| == |st.audit| + 1
  }

  lemma MissedSyncIsUnsettled(st: Store, y: Sync)
    requires SyncOutcome(st, y) == Wrote
    requires !(WellTyped(Target(y)) && StoredState(st.rows, y.flag).Keys <= Target(y).Keys)
    ensures Unsettled(AfterSync(st, y), y)
  {
    SyncConvergesIff(st, y);
    RewriteIsLogged(AfterSync(st, y), StoredState(st.rows, y.flag), SyncWrite(y).value);
  }

  lemma StaysUnsettled(st: Store, y: Sync)
    requires Unsettled(st, y)
    ensures Unsettled(AfterSync(st, y), y)
    ensures AfterSync(st, y).rows == st.rows && |AfterSync(st, y).audit| == |st.audit| + 1
  {
    assert AfterWrite(AfterSync(st, y), SyncWrite(y).value).rows == AfterWrite(st, SyncWrite(y).value).rows;
  }

  function Iterate(step: Store -> Store, st: Store, n: nat): Store {
    if n == 0 then st else step(Iterate(step, st, n - 1))
  }

  function SyncStep(y: Sync): Store -> Store {
    (st: Store) => AfterSync(st, y)
  }

  /** The store after the sync has run n times. */
  function AfterSyncs(st: Store, y: Sync, n: nat): Store {
    Iterate(SyncStep(y), st, n)
  }

  lemma {:induction false} IdleSteps(step: Store -> Store, idle: Store -> bool, st: Store, n: nat)
    requires idle(st)
    requires forall s :: idle(s) ==> idle(step(s)) && step(s).rows == s.rows && |step(s).audit| == |s.audit| + 1
    ensures idle(Iterate(step, st, n))
    ensures Iterate(step, st, n).rows == st.rows && |Iterate(step, st, n).audit| == |st.audit| + n
  {
    if n > 0 {
      IdleSteps(step, idle, st, n - 1);
    }
  }

  /** Otherwise it never converges: after a sync that wrote and missed its target, every further sync
      stores the same row and logs one more change. */
  lemma UncoveredSyncNeverSettles(st: Store, y: Sync, n: nat)
    requires SyncOutcome(st, y) == Wrote
    requires !(WellTyped(Target(y)) && StoredState(st.rows, y.flag).Keys <= Target(y).Keys)
    ensures var first := AfterSync(st, y);
            AfterSyncs(first, y, n).rows == first.rows && |AfterSyncs(first, y, n).audit| == |first.audit| + n
  {
    MissedSyncIsUnsettled(st, y);
    var idle := (s: Store) => Unsettled(s, y);
    forall s | idle(s)
      ensures idle(SyncStep(y)(s)) && SyncStep(y)(s).rows == s.rows && |SyncStep(y)(s).audit| == |s.audit| + 1
    {
      StaysUnsettled(s, y);
    }
    IdleSteps(SyncStep(y), idle, AfterSync(st, y), n);
  }

  /** What Python counts as false. */
  const FALSE_VALUES: set<Value> := {Null, Num(0), Str(""), Arr([]), Obj(map[])}

  /** What a sync makes of the fields that it types: `enabled` becomes a truth value, and the rollout a number,
      0 where nothing is declared; a rollout that is no number, and no text of one, is refused. */
  lemma SyncTypesFields(y: Sync)
    ensures SyncWrite(y).Some? ==>
      && SyncWrite(y).value.enabled == Some(Target(y)[Enabled] !in FALSE_VALUES)
      && SyncWrite(y).value.rolloutPct ==
         match Target(y)[RolloutPct]
         case Null => Some(0)
         case Num(n) => Some(n)
         case Str(s) => if s == "" then Some(0) else y.read.parse(s)
         case Arr(items) => Some(0)
         case Obj(m) => Some(0)
    ensures Target(y)[RolloutPct] !in FALSE_VALUES && Target(y)[RolloutPct].Arr? ==> SyncWrite(y).None?
    ensures Target(y)[RolloutPct] !in FALSE_VALUES && Target(y)[RolloutPct].Obj? ==> SyncWrite(y).None?
  {
  }

  /** Skipped is a sync whose target is stored already, written one that logs a change; any other is refused and
      changes nothing. */
  lemma OutcomeOfASync(st: Store, y: Sync)
    ensures SyncOutcome(st, y) == Skipped <==> StoredState(st.rows, y.flag) == Target(y)
    ensures SyncOutcome(st, y) == Wrote <==> |AfterSync(st, y).audit| == |st.audit| + 1
    ensures SyncOutcome(st, y) != Wrote ==> AfterSync(st, y) == st
  {
  }

  /** The smallest one: a declared `enabled: "yes"`. */
  function TruthyText(changedBy: string, reason: string, read: Reading): Sync {
    Sync("f", map[Enabled := Str("yes")], changedBy, reason, read)
  }

  /** The write of a sync without rollout and allowlist. */
  function PlainWrite(y: Sync): Write {
    Write(y.flag, Some(Truthy(Target(y)[Enabled])), Some(0), Some([]), Target(y) - CONTROLLED, y.changedBy, y.reason)
  }

  lemma PlainSyncWrite(y: Sync)
    requires Target(y)[RolloutPct] == Num(0) && Target(y)[NovelAllowlist] == Arr([])
    ensures SyncWrite(y) == Some(PlainWrite(y))
  {
  }

  /** As the first one of its flag it stores the truth of what is declared. */
  lemma FirstSyncIsWritten(y: Sync)
    requires y.flag != "" && Strip(y.changedBy) != "" && Strip(y.reason) != ""
    requires Target(y)[RolloutPct] == Num(0) && Target(y)[NovelAllowlist] == Arr([])
    ensures var empty := Store(map[], []);
      && SyncOutcome(empty, y) == Wrote && |AfterSync(empty, y).audit| == 1
      && StoredState(AfterSync(empty, y).rows, y.flag)[Enabled] == Num(if Truthy(Target(y)[Enabled]) then 1 else 0)
  {
    PlainSyncWrite(y);
    assert Enabled !in PlainWrite(y).extra;
  }

  /** It is stored as true, which is not what is declared, and every sync from then on logs one more change. */
  lemma TruthyTextNeverSettles(changedBy: string, reason: string, read: Reading, n: nat)
    requires Strip(changedBy) != "" && Strip(reason) != ""
    ensures var y := TruthyText(changedBy, reason, read);
      var first := AfterSync(Store(map[], []), y);
      && |first.audit| == 1 && StoredState(first.rows, "f")[Enabled] == Num(1)
      && AfterSyncs(first, y, n).rows == first.rows && |AfterSyncs(first, y, n).audit| == 1 + n
  {
    FirstSyncIsWritten(TruthyText(changedBy, reason, read));
    UncoveredSyncNeverSettles(Store(map[], []), TruthyText(changedBy, reason, read), n);
  }

  // ---------- one process: cache, evaluation and the operations ----------

  const CACHE_TTL: real := 5.0

  /** `_load_all_from_db`: every named row over the defaults. */
  function Loaded(rows: map<string, Row>): map<string, FlagState> {
    map name | name in rows && name != "" :: DEFAULT_STATE + StoredState(rows, name)
  }

  predicate Fresh(cached: map<string, FlagState>, ts: real, now: real) {
    now - ts < CACHE_TTL && cached != map[]
  }

  /** What a read answers from a cache stored at time `ts`. */
  function Answered(cached: map<string, FlagState>, ts: real, rows: map<string, Row>, now: real)
    : map<string, FlagState>
  {
    if Fresh(cached, ts, now) then cached else Loaded(rows)
  }

  /** A flag is on for a caller that is allowlisted, falls into the rollout, or when it is on for all;
      `bucket` is the hash bucket of the novel. */
  predicate Evaluate(flags: map<string, FlagState>, flag: string, novel: Option<int>,
                     bucket: int -> int, read: Reading) {
    && flag != "" && flag in flags
    && var state := flags[flag];
       || (Enabled in state && Truthy(state[Enabled]))
       || (novel.Some? && Allowlisted(state, novel.value, read))
       || (novel.Some? && 0 < Percentage(state, read) && bucket(novel.value) < Percentage(state, read))
  }

  predicate Allowlisted(state: FlagState, novel: int, read: Reading) {
    && NovelAllowlist in state
    && var items := AllowlistItems(state[NovelAllowlist], read);
       items.Some? && var ints := ToInts(items.value, read.parse); ints.Some? && novel in ints.value
  }

  function Percentage(state: FlagState, read: Reading): int {
    if RolloutPct !in state || !Truthy(state[RolloutPct]) then 0
    else
      var pct := ToInt(state[RolloutPct], read.parse);
      if pct.Some? then pct.value else 0
  }

  // ---------- what the writes of a flag decide ----------

  /** Does the write go through for this flag? */
  predicate Sets(w: Write, flag: string) {
    Acceptable(w) && w.flag == flag
  }

  predicate IsWritten(ws: seq<Write>, flag: string) {
    ws != [] && (IsWritten(ws[..|ws| - 1], flag) || Sets(ws[|ws| - 1], flag))
  }

  /** What the last write that says so says of `enabled`. */
  function LastEnabled(ws: seq<Write>, flag: string): bool {
    if ws == [] then false
    else
      var w := ws[|ws| - 1];
      if Sets(w, flag) && w.enabled.Some? then w.enabled.value else LastEnabled(ws[..|ws| - 1], flag)
  }

  function LastRollout(ws: seq<Write>, flag: string): int {
    if ws == [] then 0
    else
      var w := ws[|ws| - 1];
      if Sets(w, flag) && w.rolloutPct.Some? then w.rolloutPct.value else LastRollout(ws[..|ws| - 1], flag)
  }

  function LastAllowlist(ws: seq<Write>, flag: string): seq<int> {
    if ws == [] then []
    else
      var w := ws[|ws| - 1];
      if Sets(w, flag) && w.allowlist.Some? then w.allowlist.value else LastAllowlist(ws[..|ws| - 1], flag)
  }

  /** The controlled fields of a state hold what the writes said last. */
  predicate HoldsLast(state: FlagState, ws: seq<Write>, flag: string) {
    && CONTROLLED <= state.Keys
    && state[Enabled] == Num(if LastEnabled(ws, flag) then 1 else 0)
    && state[RolloutPct] == Num(LastRollout(ws, flag))
    && state[NovelAllowlist] == Arr(Nums(LastAllowlist(ws, flag)))
  }

  lemma FieldsOfAWrite(w: Write)
    requires Acceptable(w)
    ensures var fields := Fields(w);
      && (Enabled in fields <==> w.enabled.Some?)
      && (w.enabled.Some? ==> fields[Enabled] == Num(if w.enabled.value then 1 else 0))
      && (RolloutPct in fields <==> w.rolloutPct.Some?)
      && (w.rolloutPct.Some? ==> fields[RolloutPct] == Num(w.rolloutPct.value))
      && (NovelAllowlist in fields <==> w.allowlist.Some?)
      && (w.allowlist.Some? ==> fields[NovelAllowlist] == Arr(Nums(w.allowlist.value)))
  {
    ExtraIsUncontrolled(w);
  }

  lemma LastOneMore(ws: seq<Write>, w: Write, flag: string)
    ensures var all, sets := ws + [w], Sets(w, flag);
      && LastEnabled(all, flag) == (if sets && w.enabled.Some? then w.enabled.value else LastEnabled(ws, flag))
      && LastRollout(all, flag) == (if sets && w.rolloutPct.Some? then w.rolloutPct.value else LastRollout(ws, flag))
      && LastAllowlist(all, flag) ==
         (if sets && w.allowlist.Some? then w.allowlist.value else LastAllowlist(ws, flag))
  {
    assert (ws + [w])[..|ws|] == ws;
  }

  lemma StateAfterWrite(st: Store, w: Write, init: seq<Write>, flag: string)
    requires HoldsLast(DEFAULT_STATE + StoredState(st.rows, flag), init, flag)
    ensures HoldsLast(DEFAULT_STATE + StoredState(AfterWrite(st, w).rows, flag), init + [w], flag)
  {
    if Sets(w, flag) {
      WriteUpdatesState(StoredState(st.rows, flag), w, init);
      MergedHasDefaults(StoredState(st.rows, flag), w);
    } else {
      LastOneMore(init, w, flag);
    }
  }

  /** Rows of a flag that was not stored before the writes. */
  lemma {:induction false} StateFromWrites(st: Store, ws: seq<Write>, flag: string)
    requires flag !in st.rows
    ensures var rows := AfterWrites(st, ws).rows;
      && (flag in rows <==> IsWritten(ws, flag))
      && HoldsLast(DEFAULT_STATE + StoredState(rows, flag), ws, flag)
  {
    if ws != [] {
      var init, w := ws[..|ws| - 1], ws[|ws| - 1];
      StateFromWrites(st, init, flag);
      StateAfterWrite(AfterWrites(st, init), w, init, flag);
      assert ws == init + [w];
    } else {
      assert Nums([]) == [];
    }
  }

  lemma MergedAt(before: FlagState, w: Write, k: Key)
    requires k in DEFAULT_STATE
    ensures k in Merged(before, w)
    ensures Merged(before, w)[k] == if k in Fields(w) then Fields(w)[k] else (DEFAULT_STATE + before)[k]
  {
  }

  lemma WriteUpdatesState(before: FlagState, w: Write, init: seq<Write>)
    requires Acceptable(w) && HoldsLast(DEFAULT_STATE + before, init, w.flag)
    ensures HoldsLast(Merged(before, w), init + [w], w.flag)
  {
    FieldsOfAWrite(w);
    MergedAt(before, w, Enabled);
    MergedAt(before, w, RolloutPct);
    MergedAt(before, w, NovelAllowlist);
    LastOneMore(init, w, w.flag);
  }

  lemma {:induction false} NumsAreRead(ns: seq<int>, parse: string -> Option<int>)
    ensures ToInts(Nums(ns), parse) == Some(ns)
  {
    if ns != [] {
      NumsAreRead(ns[1..], parse);
      assert Nums(ns)[1..] == Nums(ns[1..]);
      assert [ns[0]] + ns[1..] == ns;
    }
  }

  /** `_hash_bucket` is a number below 100. */
  ghost predicate AreBuckets(bucket: int -> int) {
    forall n :: 0 <= bucket(n) < 100
  }

  /** The flag is on for everybody if `enabled` was last set, and otherwise exactly for the novels on the
      last allowlist and those whose bucket is below the last rollout. Without a novel only `enabled`
      counts; a flag never written is off. */
  predicate WritesSay(ws: seq<Write>, flag: string, novel: Option<int>, bucket: int -> int) {
    && IsWritten(ws, flag)
    && (|| LastEnabled(ws, flag)
        || (novel.Some? && novel.value in LastAllowlist(ws, flag))
        || (novel.Some? && bucket(novel.value) < LastRollout(ws, flag)))
  }

  lemma StateSays(state: FlagState, ws: seq<Write>, flag: string, n: int, bucket: nat, read: Reading)
    requires HoldsLast(state, ws, flag)
    ensures Allowlisted(state, n, read) <==> n in LastAllowlist(ws, flag)
    ensures 0 < Percentage(state, read) && bucket < Percentage(state, read) <==> bucket < LastRollout(ws, flag)
  {
    NumsAreRead(LastAllowlist(ws, flag), read.parse);
  }

  /** The rollout that a stored state amounts to, whoever stored it: a number, or a text that is one. */
  function RolloutOf(state: FlagState, read: Reading): int {
    if RolloutPct !in state then 0
    else match state[RolloutPct]
      case Num(n) => n
      case Str(s) => if s != "" && read.parse(s).Some? then read.parse(s).value else 0
      case _ => 0
  }

  lemma TruthyIs(v: Value)
    ensures Truthy(v) <==> v !in FALSE_VALUES
  {
  }

  lemma RolloutIsRead(state: FlagState, read: Reading)
    ensures Percentage(state, read) == RolloutOf(state, read)
  {
  }

  /** For any stored row, its fields decide as they can be read. */
  lemma DecidedByTheRow(rows: map<string, Row>, flag: string, novel: int, bucket: int -> int, read: Reading)
    requires AreBuckets(bucket)
    ensures Evaluate(Loaded(rows), flag, Some(novel), bucket, read) <==>
            && flag != "" && flag in rows
            && var state := DEFAULT_STATE + StoredState(rows, flag);
               || state[Enabled] !in FALSE_VALUES
               || Allowlisted(state, novel, read)
               || bucket(novel) < RolloutOf(state, read)
    ensures Evaluate(Loaded(rows), flag, None, bucket, read) <==>
            flag != "" && flag in rows && (DEFAULT_STATE + StoredState(rows, flag))[Enabled] !in FALSE_VALUES
  {
    var state := DEFAULT_STATE + StoredState(rows, flag);
    assert Enabled in state && 0 <= bucket(novel);
    TruthyIs(state[Enabled]);
    RolloutIsRead(state, read);
  }

  /** After any serial writes of a flag, accepted or rejected, it is decided as they say. */
  lemma DecidedByTheWrites(st: Store, ws: seq<Write>, flag: string, novel: Option<int>, bucket: int -> int,
                           read: Reading)
    requires flag !in st.rows && AreBuckets(bucket)
    ensures Evaluate(Loaded(AfterWrites(st, ws).rows), flag, novel, bucket, read) <==>
            WritesSay(ws, flag, novel, bucket)
  {
    StateFromWrites(st, ws, flag);
    WrittenHasAName(ws, flag);
    if IsWritten(ws, flag) {
      var state := Loaded(AfterWrites(st, ws).rows)[flag];
      assert HoldsLast(state, ws, flag);
      if novel.Some? {
        StateSays(state, ws, flag, novel.value, bucket(novel.value), read);
      }
    }
  }

  lemma {:induction false} WrittenHasAName(ws: seq<Write>, flag: string)
    ensures IsWritten(ws, flag) ==> flag != ""
  {
    if ws != [] {
      WrittenHasAName(ws[..|ws| - 1], flag);
    }
  }

  /** What one more write says. */
  lemma LastWriteSays(ws: seq<Write>, w: Write, novel: int, bucket: int -> int)
    requires Acceptable(w) && w.rolloutPct.Some?
    ensures var all := ws + [w];
      WritesSay(all, w.flag, Some(novel), bucket) <==>
        || (if w.enabled.Some? then w.enabled.value else LastEnabled(ws, w.flag))
        || novel in (if w.allowlist.Some? then w.allowlist.value else LastAllowlist(ws, w.flag))
        || bucket(novel) < w.rolloutPct.value
  {
    assert (ws + [w])[..|ws|] == ws;
  }

  /** A larger rollout switches no novel off; none reaches nobody but the allowlist, and all of it
      everybody. */
  lemma RolloutIsMonotone(st: Store, ws: seq<Write>, w: Write, larger: int, novel: int, bucket: int -> int,
                          read: Reading)
    requires w.flag !in st.rows && AreBuckets(bucket) && Acceptable(w) && w.rolloutPct.Some?
    requires w.rolloutPct.value <= larger <= 100
    ensures var wider := w.(rolloutPct := Some(larger));
      var before, after := Loaded(AfterWrites(st, ws + [w]).rows), Loaded(AfterWrites(st, ws + [wider]).rows);
      && (Evaluate(before, w.flag, Some(novel), bucket, read) ==>
            Evaluate(after, w.flag, Some(novel), bucket, read))
      && (w.rolloutPct.value == 0 && w.enabled == Some(false) ==>
            (Evaluate(before, w.flag, Some(novel), bucket, read) <==> novel in LastAllowlist(ws + [w], w.flag)))
      && (larger == 100 ==> Evaluate(after, w.flag, Some(novel), bucket, read))
  {
    var wider := w.(rolloutPct := Some(larger));
    DecidedByTheWrites(st, ws + [w], w.flag, Some(novel), bucket, read);
    DecidedByTheWrites(st, ws + [wider], w.flag, Some(novel), bucket, read);
    LastWriteSays(ws, w, novel, bucket);
    LastWriteSays(ws, wider, novel, bucket);
    assert (ws + [w])[..|ws|] == ws && 0 <= bucket(novel) < 100;
  }

  /** The database as this process sees it, with the process's cache. Only this process writes. */
  class FlagService {
    var rows: map<string, Row>
    var audit: seq<AuditEntry>
    var cacheValue: map<string, FlagState>
    var cacheTs: real

    function View(): Store
      reads this
    {
      Store(rows, audit)
    }

    /** The cache is either marked stale or equal to the rows. */
    ghost predicate Valid()
      reads this
    {
      cacheTs == 0.0 || cacheValue == Loaded(rows)
    }

    constructor (rows: map<string, Row>, audit: seq<AuditEntry>)
      ensures Valid() && View() == Store(rows, audit)
    {
      this.rows, this.audit, cacheValue, cacheTs := rows, audit, map[], 0.0;
    }

    /** `_read_all`. Once the clock has passed the cache lifetime the answer is what the rows hold;
        before that, a stale cache, which is marked by time 0, may still be served. */
    method ReadAll(now: real, loadFails: bool) returns (flags: Option<map<string, FlagState>>)
      requires Valid()
      modifies this`cacheValue, this`cacheTs
      ensures Valid()
      ensures flags.Some? ==> flags.value == Answered(old(cacheValue), old(cacheTs), rows, now)
      ensures flags.Some? && now >= CACHE_TTL ==> flags.value == Loaded(rows)
      ensures flags.None? <==> loadFails && !Fresh(old(cacheValue), old(cacheTs), now)
      ensures if flags.Some? && !Fresh(old(cacheValue), old(cacheTs), now)
        then cacheValue == Loaded(rows) && cacheTs == now
        else cacheValue == old(cacheValue) && cacheTs == old(cacheTs)
    {
      if now - cacheTs < CACHE_TTL && cacheValue != map[] {
        return Some(cacheValue);
      }
      if loadFails {
        return None;
      }
      cacheValue := Loaded(rows);
      cacheTs := now;
      flags := Some(cacheValue);
    }

    /** `is_enabled`: the decision on the stored rows, or false when they cannot be read. */
    method IsEnabled(flag: string, novel: Option<int>, bucket: int -> int, read: Reading, now: real,
                     loadFails: bool)
      returns (on: bool)
      requires Valid()
      modifies this`cacheValue, this`cacheTs
      ensures Valid()
      ensures now >= CACHE_TTL && on ==> Evaluate(Loaded(rows), flag, novel, bucket, read)
      ensures now >= CACHE_TTL && !loadFails ==> on == Evaluate(Loaded(rows), flag, novel, bucket, read)
      ensures || (cacheValue == old(cacheValue) && cacheTs == old(cacheTs))
              || (cacheValue == Loaded(rows) && cacheTs == now)
    {
      if flag == "" {
        return false;
      }
      var flags := ReadAll(now, loadFails);
      if flags.None? || flag !in flags.value {
        return false;
      }
      var state := flags.value[flag];
      if novel.Some? {
        var items := if NovelAllowlist in state then AllowlistItems(state[NovelAllowlist], read) else Some([]);
        var ints := if items.Some? then ToInts(items.value, read.parse) else None;
        if ints.Some? && novel.value in ints.value {
          return true;
        }
        var pct := 0;
        if RolloutPct in state && Truthy(state[RolloutPct]) {
          var n := ToInt(state[RolloutPct], read.parse);
          pct := if n.Some? then n.value else 0;
        }
        if pct > 0 && bucket(novel.value) < pct {
          return true;
        }
      }
      on := Enabled in state && Truthy(state[Enabled]);
    }

    /** `invalidate_flags_cache`: drop one flag, or all, and mark the rest stale. */
    method Invalidate(flag: Option<string>)
      modifies this`cacheValue, this`cacheTs
      ensures Valid() && cacheTs == 0.0
      ensures cacheValue == if flag.None? then map[] else old(cacheValue) - {flag.value}
    {
      cacheValue := if flag.None? then map[] else cacheValue - {flag.value};
      cacheTs := 0.0;
    }

    /** `set_flag`. A rejected write changes nothing. */
    method SetFlag(w: Write) returns (merged: Option<FlagState>)
      requires Valid()
      modifies this
      ensures Valid()
      ensures View() == AfterWrite(old(View()), w)
      ensures merged.None? <==> !Acceptable(w)
      ensures merged.Some? ==> merged.value == StoredState(rows, w.flag) == Loaded(rows)[w.flag]
      ensures if merged.Some? then cacheTs == 0.0 && cacheValue == old(cacheValue) - {w.flag}
        else cacheTs == old(cacheTs) && cacheValue == old(cacheValue)
    {
      if w.flag == "" || Strip(w.reason) == "" || Strip(w.changedBy) == "" {
        return None;
      }
      if w.rolloutPct.Some? && !(0 <= w.rolloutPct.value <= 100) {
        return None;
      }
      var before := StoredState(rows, w.flag);
      if w.extra.Keys * CONTROLLED != {} {
        return None;
      }
      assert Acceptable(w);
      var after := Merged(before, w);
      rows := rows[w.flag := Mapping(after)];
      audit := audit + [AuditEntry(w.flag, Strip(w.changedBy), before, after, Strip(w.reason))];
      Invalidate(Some(w.flag));
      MergedHasDefaults(before, w);
      merged := Some(after);
    }

    /** `apply_flag_state_from_yaml`. */
    method ApplyFromYaml(y: Sync) returns (result: SyncResult)
      requires Valid()
      modifies this
      ensures Valid()
      ensures result == SyncOutcome(old(View()), y) && View() == AfterSync(old(View()), y)
      ensures if result == Wrote then cacheTs == 0.0 && cacheValue == old(cacheValue) - {y.flag}
        else cacheTs == old(cacheTs) && cacheValue == old(cacheValue)
    {
      if StoredState(rows, y.flag) == Target(y) {
        return Skipped;
      }
      var w := SyncWrite(y);
      if w.None? {
        return Refused;
      }
      var merged := SetFlag(w.value);
      result := if merged.Some? then Wrote else Refused;
    }
  }

  /** In the first seconds of the monotonic clock a flag that was just written is missing from the
      answer, and so reads as disabled, exactly when another flag was cached. */
  lemma WrittenFlagIsVisibleIff(cached: map<string, FlagState>, rows: map<string, Row>, flag: string, now: real)
    requires flag != "" && flag in rows
    ensures flag in Answered(cached - {flag}, 0.0, rows, now) <==> now >= 5.0 || cached.Keys <= {flag}
  {
    if cached.Keys <= {flag} {
      assert cached - {flag} == map[];
    } else {
      var other :| other in cached && other != flag;
      assert other in cached - {flag};
    }
  }
}
