/**
 The closure gate's decision: continue, add a chapter, rewrite the last ones, or end the book.
 */
module ClosurePolicy {
  import opened Numbers

  /** A book's total number of chapters, how far it may deviate, and the coverage that closes it. */
  datatype Limits = Limits(target: int, minTotal: int, maxTotal: int, threshold: real)

  /** What the novel's configuration allows; `byRatio` is the rounded share of the total. */
  function FlexWindow(maxAbs: int, byRatio: int): (flex: nat) {
    var flexAbs := Max(0, maxAbs);
    Min(flexAbs, if byRatio > 0 then byRatio else flexAbs)
  }

  /** The share decides where there is one, within the absolute bound; a negative bound counts as none. */
  lemma FlexWindowIs(maxAbs: int, byRatio: int)
    ensures maxAbs <= 0 ==> FlexWindow(maxAbs, byRatio) == 0
    ensures 0 < byRatio <= maxAbs ==> FlexWindow(maxAbs, byRatio) == byRatio
    ensures 0 <= maxAbs && (byRatio <= 0 || byRatio > maxAbs) ==> FlexWindow(maxAbs, byRatio) == maxAbs
  {
  }

  /** The limits of `node_init`. */
  function LimitsOf(target: int, flex: nat, threshold: real): Limits {
    Limits(target, Max(1, target - flex), Max(target, target + flex), threshold)
  }

  predicate AreLimits(lim: Limits) {
    1 <= lim.minTotal <= lim.target <= lim.maxTotal
  }

  /** What a gate finds of the foreshadows and plotlines: how many there are, how many are resolved, and
      how many it lists as open. */
  datatype Judgement = Judgement(units: nat, resolved: nat, unresolved: nat)

  /** What is listed as open is not resolved. */
  predicate IsJudgement(j: Judgement) {
    j.resolved + j.unresolved <= j.units
  }

  /** The covered share; 0 when there is nothing to cover. */
  function Coverage(j: Judgement): real {
    if j.units == 0 then 0.0 else Min(j.resolved, j.units) as real / j.units as real
  }

  lemma IsShare(n: real, d: real)
    requires 0.0 <= n <= d && d > 0.0
    ensures 0.0 <= n / d <= 1.0
  {
  }

  lemma CoverageIsAShare(j: Judgement)
    ensures 0.0 <= Coverage(j) <= 1.0
  {
    if j.units > 0 {
      IsShare(Min(j.resolved, j.units) as real, j.units as real);
    }
  }

  /** The covered share of all units; a book with nothing to cover counts as not covered. */
  lemma CoverageIs(j: Judgement)
    requires IsJudgement(j)
    ensures j.units > 0 ==> Coverage(j) * j.units as real == j.resolved as real
    ensures j.units == 0 ==> Coverage(j) == 0.0
  {
  }

  /** At most 15 percent of the target remain: phase `closing` or `finale`. */
  predicate IsClosing(lim: Limits, remaining: int) {
    100 * remaining <= 15 * Max(lim.target, 1)
  }

  datatype Action = Continue | Bridge | Rewind | Finish

  const REWRITES := 2

  function RealMax(x: real, y: real): real {
    if x < y then y else x
  }

  /** `ClosurePolicyEngine.decide`; both kinds of finalisation are `Finish`. */
  function Decide(lim: Limits, generated: int, remaining: int, rewrites: nat, bridges: nat, j: Judgement): Action {
    var bridgesLeft := Max(0, Max(0, lim.maxTotal - lim.target) - bridges);
    var force := generated >= lim.maxTotal;
    var closing := IsClosing(lim, remaining);
    var early := generated >= lim.minTotal && Coverage(j) >= lim.threshold && closing;
    var soft := generated >= lim.target && j.unresolved <= 1
                && Coverage(j) >= RealMax(0.85, lim.threshold - 0.08) && closing;
    var rewrite := generated >= lim.minTotal && Coverage(j) < lim.threshold && closing && rewrites < REWRITES;
    var extend := lim.target <= generated < lim.maxTotal && j.unresolved > 0 && bridgesLeft > 0;
    if force && j.unresolved > 0 && rewrites < REWRITES then Rewind
    else if force then Finish
    else if rewrite then Rewind
    else if early then Finish
    else if soft then Finish
    else if extend then Bridge
    else Continue
  }

  // ---------- what the totals decide ----------

  /** A segment that ends after `generated` chapters of the book, `remaining` before its end, can end
      the book: either bridging can reach the maximum from there, or the coverage may be enough. */
  predicate MayEnd(lim: Limits, generated: int, remaining: int) {
    || generated >= lim.target
    || (generated >= lim.minTotal && IsClosing(lim, remaining) && lim.threshold <= 1.0)
  }

  /** And it must: the maximum is reached, or any coverage is enough. */
  predicate MustEnd(lim: Limits, generated: int, remaining: int) {
    || generated >= lim.maxTotal
    || (generated >= lim.minTotal && IsClosing(lim, remaining) && lim.threshold <= 0.0)
  }

  /** Later in the book both are at least as true. */
  lemma LaterIsNoWorse(lim: Limits, generated: int, remaining: int, later: int, left: int)
    requires generated <= later && left <= remaining
    ensures MayEnd(lim, generated, remaining) ==> MayEnd(lim, later, left)
    ensures MustEnd(lim, generated, remaining) ==> MustEnd(lim, later, left)
  {
  }

  /** Before the point where a book may end, the gate neither ends nor extends it. */
  lemma TooEarlyToEnd(lim: Limits, generated: int, remaining: int, rewrites: nat, bridges: nat, j: Judgement)
    requires AreLimits(lim) && !MayEnd(lim, generated, remaining)
    ensures Decide(lim, generated, remaining, rewrites, bridges, j) in {Continue, Rewind}
  {
    CoverageIsAShare(j);
  }

  /** From the point where it must end, the gate never just continues. */
  lemma NoWayOn(lim: Limits, generated: int, remaining: int, rewrites: nat, bridges: nat, j: Judgement)
    requires AreLimits(lim) && MustEnd(lim, generated, remaining)
    ensures Decide(lim, generated, remaining, rewrites, bridges, j) in {Finish, Rewind}
  {
    CoverageIsAShare(j);
  }

  /** A book is ended only with its minimal number of chapters, and rewound only twice in a run. */
  lemma WhenItActs(lim: Limits, generated: int, remaining: int, rewrites: nat, bridges: nat, j: Judgement)
    requires AreLimits(lim)
    ensures var action := Decide(lim, generated, remaining, rewrites, bridges, j);
      && (action == Finish ==> generated >= lim.minTotal)
      && (action == Rewind ==> rewrites < REWRITES && generated >= lim.minTotal)
      && (action == Bridge ==> lim.target <= generated < lim.maxTotal && bridges < lim.maxTotal - lim.target)
  {
  }

  // ---------- the decision by ranges ----------

  /** What the gate does below the maximum and above the minimum, in the closing window. */
  function InClosing(lim: Limits, generated: int, rewrites: nat, bridges: nat, j: Judgement): Action {
    if Coverage(j) >= lim.threshold then Finish
    else if rewrites < 2 then Rewind
    else if generated < lim.target then Continue
    else if j.unresolved == 0 then if IsNearlyCovered(lim, j) then Finish else Continue
    else if j.unresolved == 1 && IsNearlyCovered(lim, j) then Finish
    else if bridges < lim.maxTotal - lim.target then Bridge
    else Continue
  }

  /** Covered by 85 percent at least, and within 8 of the threshold. */
  predicate IsNearlyCovered(lim: Limits, j: Judgement) {
    Coverage(j) >= 0.85 && Coverage(j) >= lim.threshold - 0.08
  }

  /** The whole decision, by how much is generated and whether the closing window has come. With nearly
      enough coverage and at most one open thread the book ends, and is not extended, once the rewrites are
      used up. */
  lemma DecidedByRange(lim: Limits, generated: int, remaining: int, rewrites: nat, bridges: nat, j: Judgement)
    requires AreLimits(lim)
    ensures var action := Decide(lim, generated, remaining, rewrites, bridges, j);
      && (generated < lim.minTotal ==> action == Continue)
      && (generated >= lim.maxTotal ==> action == if j.unresolved > 0 && rewrites < 2 then Rewind else Finish)
      && (lim.minTotal <= generated < lim.maxTotal && !IsClosing(lim, remaining) ==>
            action == if generated >= lim.target && j.unresolved > 0 && bridges < lim.maxTotal - lim.target
                      then Bridge else Continue)
      && (lim.minTotal <= generated < lim.maxTotal && IsClosing(lim, remaining) ==>
            action == InClosing(lim, generated, rewrites, bridges, j))
  {
  }

  // ---------- three judgements ----------

  /** A book without foreshadows and plotlines: nothing to close, so nothing is covered. */
  const NOTHING_TO_CLOSE := Judgement(0, 0, 0)

  const ALL_CLOSED := Judgement(1, 1, 0)

  const ONE_OPEN := Judgement(1, 0, 1)

  /** With nothing to close, only the maximum ends a book, unless the threshold accepts no coverage. */
  lemma NothingToCloseContinues(lim: Limits, generated: int, remaining: int, rewrites: nat, bridges: nat)
    requires AreLimits(lim) && !MustEnd(lim, generated, remaining)
    ensures Decide(lim, generated, remaining, rewrites, bridges, NOTHING_TO_CLOSE) in {Continue, Rewind}
  {
  }

  /** With everything closed, a book ends in the closing window, once it has its minimum. */
  lemma AllClosedEnds(lim: Limits, generated: int, remaining: int, rewrites: nat, bridges: nat)
    requires AreLimits(lim) && lim.threshold <= 1.0
    ensures Decide(lim, generated, remaining, rewrites, bridges, ALL_CLOSED) in {Continue, Finish}
    ensures generated >= lim.minTotal && IsClosing(lim, remaining) ==>
              Decide(lim, generated, remaining, rewrites, bridges, ALL_CLOSED) == Finish
  {
  }

  /** From the target on, as long as chapters may be added, something open adds one or rewrites. */
  lemma OneOpenExtends(lim: Limits, generated: int, remaining: int, rewrites: nat, bridges: nat)
    requires AreLimits(lim) && lim.target <= generated < lim.maxTotal && bridges < lim.maxTotal - lim.target
    ensures Decide(lim, generated, remaining, rewrites, bridges, ONE_OPEN) != Continue
  {
  }
}
