/** What the checkpoint table answers about the completed chapters of a task. */
module Checkpoints {
  import opened Options

  /** The chapters `from..to` that a task asks for. */
  datatype Span = Span(from: int, to: int)

  lemma {:induction false} MaxOf(s: set<int>) returns (m: int)
    requires s != {}
    ensures m in s && forall u :: u in s ==> u <= m
    decreases s
  {
    assert (exists x :: x in s) || s == {};
    var x :| x in s;
    var rest := s - {x};
    m := x;
    if rest != {} {
      var other := MaxOf(rest);
      m := if x < other then other else x;
    }
    assert forall u :: u in s ==> u == x || u in rest;
  }

  lemma HasMax(s: set<int>)
    requires s != {}
    ensures exists m :: m in s && forall u :: u in s ==> u <= m
  {
    var m := MaxOf(s);
  }

  /** `get_last_completed_unit` without a range: the greatest completed unit, if any. */
  ghost function LastUnit(units: set<int>): (last: Option<int>)
    ensures last.None? <==> units == {}
    ensures last.Some? ==> last.value in units && forall u :: u in units ==> u <= last.value
  {
    if units == {} then None
    else
      HasMax(units);
      var m :| m in units && forall u :: u in units ==> u <= m;
      Some(m)
  }

  function InSpan(units: set<int>, span: Span): set<int> {
    set u | u in units && span.from <= u <= span.to
  }

  /** `resume_from_last_completed`. */
  function ResumeFrom(span: Span, last: Option<int>): int {
    if span.to < span.from || last.None? then span.from
    else if last.value + 1 > span.from then last.value + 1
    else span.from
  }

  /** `get_last_completed_unit`: a scan for the maximum. */
  method GetLastCompleted(units: set<int>) returns (last: Option<int>)
    ensures last == LastUnit(units)
  {
    var todo := units;
    last := None;
    while todo != {}
      invariant todo <= units
      invariant last.None? ==> todo == units
      invariant last.Some? ==> last.value in units && forall u :: u in units && u !in todo ==> u <= last.value
      decreases todo
    {
      assert (exists u :: u in todo) || todo == {};
      var u :| u in todo;
      if last.None? || last.value < u {
        last := Some(u);
      }
      todo := todo - {u};
    }
  }
}
