/**
 * Checking a transaction only at interval endpoints decides it at every instant:
 * between two consecutive endpoints the visible facts do not change.
 */
module ConstraintBoundaries {
  import opened Wrappers
  import opened Seqs
  import opened Triples
  import opened Constraint

  ghost predicate NeverWorsens(before: seq<Triple>, after: seq<Triple>, rules: seq<Rule>) {
    forall t: int, v :: !Worsens(before, after, rules, t, v)
  }

  lemma {:induction false} LatestAtOrBefore(ts: seq<int>, t: int) returns (b: int)
    requires exists x :: x in ts && x <= t
    ensures b in ts && b <= t && forall x :: x in ts && x <= t ==> x <= b
  {
    var init, last := ts[..|ts| - 1], ts[|ts| - 1];
    assert ts == init + [last];
    if x :| x in init && x <= t {
      b := LatestAtOrBefore(init, t);
      if b < last <= t {
        b := last;
      }
    } else {
      b := last;
    }
  }

  lemma ViolatesTransfers(facts: seq<Triple>, rules: seq<Rule>, t: int, u: int, v: Violation)
    requires forall f :: f in facts ==> VisibleAt(f, t) == VisibleAt(f, u)
    ensures Violates(facts, rules, t, v) <==> Violates(facts, rules, u, v)
  {
    forall rule ensures Breaks(facts, rule, t, v) <==> Breaks(facts, rule, u, v) {
      BreaksTransfers(facts, t, facts, u, rule, v);
    }
  }

  /** The latest boundary at or before t sees exactly the facts visible at t. */
  lemma BoundarySeesTheSame(facts: seq<Triple>, t: int, b: int)
    requires b <= t
    requires forall x :: IsBoundary(facts, x) && x <= t ==> x <= b
    ensures forall f :: f in facts ==> VisibleAt(f, t) == VisibleAt(f, b)
  {
    forall f | f in facts ensures VisibleAt(f, t) == VisibleAt(f, b) {
      assert IsBoundary(facts, f.validFrom);
      assert f.validTo.Some? ==> IsBoundary(facts, f.validTo.value);
    }
  }

  lemma WorseSomewhereIsWorseAtABoundary(
      before: seq<Triple>, after: seq<Triple>, rules: seq<Rule>, t: int, v: Violation) returns (b: int)
    requires Worsens(before, after, rules, t, v)
    ensures IsBoundary(before + after, b) && Worsens(before, after, rules, b, v)
  {
    var all := before + after;
    var rule :| rule in rules && Breaks(after, rule, t, v);
    var typing :| typing in after && VisibleAt(typing, t);
    assert typing in all && IsBoundary(all, typing.validFrom);
    b := LatestAtOrBefore(Boundaries(all), t);
    BoundarySeesTheSame(all, t, b);
    assert forall f :: f in before || f in after ==> f in all;
    ViolatesTransfers(after, rules, t, b, v);
    forall u ensures Violates(before, rules, t, u) <==> Violates(before, rules, b, u) {
      ViolatesTransfers(before, rules, t, b, u);
    }
  }

  /** Acceptance at the collected boundaries is acceptance at every instant. */
  lemma BoundariesSuffice(current: seq<Triple>, operations: seq<TransactOp>, rules: seq<Rule>, instant: int)
    ensures Accepts(current, operations, rules, instant)
      <==> NeverWorsens(current, Projected(current, operations, instant), rules)
  {
    var projected := Projected(current, operations, instant);
    if Accepts(current, operations, rules, instant) && !NeverWorsens(current, projected, rules) {
      var t: int, v :| Worsens(current, projected, rules, t, v);
      var b := WorseSomewhereIsWorseAtABoundary(current, projected, rules, t, v);
    }
  }
}
