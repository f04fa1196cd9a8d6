/**
 * What the check of a transaction comes to, in terms of the facts alone: how
 * many values, claimants and dangling references each entity has, before and
 * after, at every instant.
 */
module ConstraintMeaning {
  import opened Wrappers
  import opened Seqs
  import opened Triples
  import opened Constraint
  import ConstraintBoundaries

  // ---- Facts at an instant -------------------------------------------------------

  predicate Spans(f: Triple, t: int) {
    f.validFrom <= t && (f.validTo.Some? ==> t < f.validTo.value)
  }

  /** Some fact gives the entity the type at the instant. */
  ghost predicate IsTyped(facts: seq<Triple>, e: string, entityType: string, t: int) {
    exists i :: 0 <= i < |facts| && facts[i].entityId == e && facts[i].entityType == Some(entityType)
      && Spans(facts[i], t)
  }

  /** Where the entity's values of the attribute at the instant are listed. */
  ghost function Holdings(facts: seq<Triple>, e: string, attribute: string, t: int): set<nat> {
    set i: nat | i < |facts| && facts[i].entityId == e && facts[i].attribute == attribute && Spans(facts[i], t)
  }

  /** The entities of the type that hold the value for the attribute at the instant. */
  ghost function Claiming(facts: seq<Triple>, entityType: string, attribute: string, value: TripleValue,
                          t: int): set<string> {
    set i: nat | i < |facts| && facts[i].attribute == attribute && facts[i].value == value && Spans(facts[i], t)
      && IsTyped(facts, facts[i].entityId, entityType, t) :: facts[i].entityId
  }

  /** The entity holds the value for the attribute, and it is no reference to an entity of the target type. */
  ghost predicate Dangles(facts: seq<Triple>, e: string, attribute: string, value: TripleValue, target: string,
                          t: int) {
    && (exists i :: i in Holdings(facts, e, attribute, t) && facts[i].value == value)
    && !(value.RefValue? && IsTyped(facts, value.target, target, t))
  }

  // ---- What is reported -----------------------------------------------------------

  /** The violation a rule makes of these facts, written out. */
  ghost predicate Reports(facts: seq<Triple>, rule: Rule, t: int, v: Violation) {
    IsTyped(facts, v.subject, rule.entityType, t) &&
    match rule
    case Required(entityType, a) =>
      && Holdings(facts, v.subject, a, t) == {}
      && v == Violation(ConstraintKey(entityType, a, RequiredKey), RequiredCode, v.subject, entityType, a, 0, None)
    case Cardinality(entityType, a, max) =>
      var n := |Holdings(facts, v.subject, a, t)|;
      && n > max
      && v == Violation(ConstraintKey(entityType, a, CardinalityKey(max)), CardinalityCode, v.subject, entityType, a, n,
                        None)
    case Unique(entityType, a) =>
      v.valueIdentity.Some? &&
      var claiming := Claiming(facts, entityType, a, v.valueIdentity.value, t);
      && v.subject in claiming && |claiming| >= 2
      && v == Violation(ConstraintKey(entityType, a, UniqueKey), UniqueCode, v.subject, entityType, a, |claiming|,
                        v.valueIdentity)
    case ReferenceTarget(entityType, a, target) =>
      && v.valueIdentity.Some? && Dangles(facts, v.subject, a, v.valueIdentity.value, target, t)
      && v == Violation(ConstraintKey(entityType, a, ReferenceTargetKey(target)), ReferenceTargetCode, v.subject,
                        entityType, a, 1, v.valueIdentity)
  }

  lemma TypesAgree(facts: seq<Triple>, e: string, entityType: string, t: int)
    ensures HasType(facts, e, entityType, t) <==> IsTyped(facts, e, entityType, t)
  {
    if HasType(facts, e, entityType, t) {
      var f :| f in facts && VisibleAt(f, t) && f.entityId == e && f.entityType == Some(entityType);
      var i :| 0 <= i < |facts| && facts[i] == f;
    }
    if IsTyped(facts, e, entityType, t) {
      var i :| 0 <= i < |facts| && facts[i].entityId == e && facts[i].entityType == Some(entityType)
        && Spans(facts[i], t);
      assert facts[i] in facts && VisibleAt(facts[i], t);
    }
  }

  lemma CountsAgree(facts: seq<Triple>, e: string, attribute: string, t: int)
    ensures Count(facts, e, attribute, t) == |Holdings(facts, e, attribute, t)|
  {
    FilterCountsPlaces(ValuesOf(e, attribute, t), facts);
    assert Holdings(facts, e, attribute, t) == Places(ValuesOf(e, attribute, t), facts);
  }

  lemma ClaimIsListed(facts: seq<Triple>, rule: Rule, value: TripleValue, t: int, f: Triple)
    requires f in facts && IsClaim(facts, rule, value, t, f)
    ensures f.entityId in Claiming(facts, rule.entityType, rule.attribute, value, t)
  {
    TypesAgree(facts, f.entityId, rule.entityType, t);
    var i: nat :| i < |facts| && facts[i] == f;
  }

  lemma ListedIsClaim(facts: seq<Triple>, rule: Rule, value: TripleValue, t: int, e: string)
    requires e in Claiming(facts, rule.entityType, rule.attribute, value, t)
    ensures e in Claimants(facts, rule, value, t)
  {
    TypesAgree(facts, e, rule.entityType, t);
    var i: nat :| i < |facts| && facts[i].attribute == rule.attribute && facts[i].value == value
      && Spans(facts[i], t) && facts[i].entityId == e;
    assert facts[i] in facts && IsClaim(facts, rule, value, t, facts[i]);
  }

  lemma ClaimsAgree(facts: seq<Triple>, rule: Rule, value: TripleValue, t: int)
    ensures Claimants(facts, rule, value, t) == Claiming(facts, rule.entityType, rule.attribute, value, t)
  {
    forall f | f in facts && IsClaim(facts, rule, value, t, f)
      ensures f.entityId in Claiming(facts, rule.entityType, rule.attribute, value, t)
    {
      ClaimIsListed(facts, rule, value, t, f);
    }
    forall e | e in Claiming(facts, rule.entityType, rule.attribute, value, t)
      ensures e in Claimants(facts, rule, value, t)
    {
      ListedIsClaim(facts, rule, value, t, e);
    }
  }

  lemma DanglingAgrees(facts: seq<Triple>, rule: Rule, e: string, value: TripleValue, t: int)
    requires rule.ReferenceTarget?
    ensures DanglingReference(facts, rule, e, value, t)
      <==> Dangles(facts, e, rule.attribute, value, rule.targetEntityType, t)
  {
    if value.RefValue? {
      TypesAgree(facts, value.target, rule.targetEntityType, t);
    }
    if f :| f in facts && ValuesOf(e, rule.attribute, t)(f) && f.value == value {
      var i: nat :| i < |facts| && facts[i] == f;
      assert i in Holdings(facts, e, rule.attribute, t);
    }
    if i :| i in Holdings(facts, e, rule.attribute, t) && facts[i].value == value {
      assert facts[i] in facts && ValuesOf(e, rule.attribute, t)(facts[i]);
    }
  }

  lemma BreakingIsReporting(facts: seq<Triple>, rule: Rule, t: int, v: Violation)
    ensures Breaks(facts, rule, t, v) <==> Reports(facts, rule, t, v)
  {
    TypesAgree(facts, v.subject, rule.entityType, t);
    CountsAgree(facts, v.subject, rule.attribute, t);
    if v.valueIdentity.Some? {
      if rule.ReferenceTarget? {
        DanglingAgrees(facts, rule, v.subject, v.valueIdentity.value, t);
      } else {
        ClaimsAgree(facts, rule, v.valueIdentity.value, t);
      }
    }
  }

  /** What evaluation finds in the facts is exactly the violations written out above, of each rule. */
  lemma ViolationsAreReports(facts: seq<Triple>, rules: seq<Rule>, t: int, v: Violation)
    ensures Violates(facts, rules, t, v) <==> exists rule :: rule in rules && Reports(facts, rule, t, v)
  {
    if rule :| rule in rules && Breaks(facts, rule, t, v) {
      BreakingIsReporting(facts, rule, t, v);
    }
    if rule :| rule in rules && Reports(facts, rule, t, v) {
      BreakingIsReporting(facts, rule, t, v);
    }
  }

  // ---- What is accepted -----------------------------------------------------------

  /** The entity does not lack the attribute, or lacked it before. */
  ghost predicate KeepsRequired(before: seq<Triple>, after: seq<Triple>, entityType: string, a: string, t: int,
                                e: string) {
    IsTyped(after, e, entityType, t) ==>
      Holdings(after, e, a, t) != {} || (IsTyped(before, e, entityType, t) && Holdings(before, e, a, t) == {})
  }

  /** The entity holds no more than the maximum, or had the type and held as many before. */
  ghost predicate KeepsCardinality(before: seq<Triple>, after: seq<Triple>, entityType: string, a: string, max: int,
                                   t: int, e: string) {
    IsTyped(after, e, entityType, t) ==>
      || |Holdings(after, e, a, t)| <= max
      || (IsTyped(before, e, entityType, t) && |Holdings(after, e, a, t)| <= |Holdings(before, e, a, t)|)
  }

  /** A claimant claims its value alone, or claimed it before and as many did. */
  ghost predicate KeepsUnique(before: seq<Triple>, after: seq<Triple>, entityType: string, a: string, t: int, e: string,
                              value: TripleValue) {
    var was, now := Claiming(before, entityType, a, value, t), Claiming(after, entityType, a, value, t);
    e in now ==> |now| == 1 || (e in was && |now| <= |was|)
  }

  /** A reference does not dangle, or the entity had the type and it dangled before. */
  ghost predicate KeepsTarget(before: seq<Triple>, after: seq<Triple>, entityType: string, a: string, target: string,
                              t: int, e: string, value: TripleValue) {
    IsTyped(after, e, entityType, t) && Dangles(after, e, a, value, target, t) ==>
      IsTyped(before, e, entityType, t) && Dangles(before, e, a, value, target, t)
  }

  /** At every instant, for every entity and value. */
  ghost predicate Keeps(before: seq<Triple>, after: seq<Triple>, rule: Rule) {
    match rule
    case Required(entityType, a) => forall t, e :: KeepsRequired(before, after, entityType, a, t, e)
    case Cardinality(entityType, a, max) => forall t, e :: KeepsCardinality(before, after, entityType, a, max, t, e)
    case Unique(entityType, a) => forall t, e, value :: KeepsUnique(before, after, entityType, a, t, e, value)
    case ReferenceTarget(entityType, a, target) =>
      forall t, e, value :: KeepsTarget(before, after, entityType, a, target, t, e, value)
  }

  /** A violation of the rule afterwards that is new, or larger than the one of its identity before. */
  ghost predicate Grows(before: seq<Triple>, after: seq<Triple>, rule: Rule, t: int, v: Violation) {
    Reports(after, rule, t, v)
    && forall u :: Reports(before, rule, t, u) && IdentityOf(u) == IdentityOf(v) ==> v.actual > u.actual
  }

  lemma WorseGrows(before: seq<Triple>, after: seq<Triple>, rules: seq<Rule>, t: int, v: Violation) returns (rule: Rule)
    requires Worsens(before, after, rules, t, v)
    ensures rule in rules && Grows(before, after, rule, t, v)
  {
    ViolationsAreReports(after, rules, t, v);
    rule :| rule in rules && Reports(after, rule, t, v);
    forall u | Reports(before, rule, t, u) && IdentityOf(u) == IdentityOf(v) ensures v.actual > u.actual {
      ViolationsAreReports(before, rules, t, u);
    }
  }

  /** An identity belongs to one rule. */
  lemma ReportsNameTheirRule(a: seq<Triple>, rule: Rule, v: Violation, b: seq<Triple>, other: Rule, u: Violation,
                             t: int)
    requires Reports(a, rule, t, v) && Reports(b, other, t, u) && IdentityOf(u) == IdentityOf(v)
    ensures other == rule
  {
  }

  lemma GrowingWorsens(before: seq<Triple>, after: seq<Triple>, rules: seq<Rule>, rule: Rule, t: int, v: Violation)
    requires rule in rules && Grows(before, after, rule, t, v)
    ensures Worsens(before, after, rules, t, v)
  {
    ViolationsAreReports(after, rules, t, v);
    forall u | Violates(before, rules, t, u) && IdentityOf(u) == IdentityOf(v) ensures v.actual > u.actual {
      ViolationsAreReports(before, rules, t, u);
      var other :| other in rules && Reports(before, other, t, u);
      ReportsNameTheirRule(after, rule, v, before, other, u, t);
    }
  }

  lemma ClaimantsAreTyped(facts: seq<Triple>, entityType: string, a: string, value: TripleValue, t: int, e: string)
    requires e in Claiming(facts, entityType, a, value, t)
    ensures IsTyped(facts, e, entityType, t) && |Claiming(facts, entityType, a, value, t)| >= 1
  {
    SubsetIsNoLarger({e}, Claiming(facts, entityType, a, value, t));
  }

  /** Under a kept rule every violation was there before, and no smaller. */
  lemma KeptWasThere(before: seq<Triple>, after: seq<Triple>, rule: Rule, t: int, v: Violation) returns (u: Violation)
    requires Keeps(before, after, rule) && Reports(after, rule, t, v)
    ensures Reports(before, rule, t, u) && IdentityOf(u) == IdentityOf(v) && v.actual <= u.actual
  {
    match rule {
      case Required(entityType, a) =>
        assert KeepsRequired(before, after, entityType, a, t, v.subject);
        u := v;
      case Cardinality(entityType, a, max) =>
        assert KeepsCardinality(before, after, entityType, a, max, t, v.subject);
        u := v.(actual := |Holdings(before, v.subject, a, t)|);
      case Unique(entityType, a) =>
        assert KeepsUnique(before, after, entityType, a, t, v.subject, v.valueIdentity.value);
        ClaimantsAreTyped(before, entityType, a, v.valueIdentity.value, t, v.subject);
        u := v.(actual := |Claiming(before, entityType, a, v.valueIdentity.value, t)|);
      case ReferenceTarget(entityType, a, target) =>
        assert KeepsTarget(before, after, entityType, a, target, t, v.subject, v.valueIdentity.value);
        u := v;
    }
  }

  lemma LackGrows(before: seq<Triple>, after: seq<Triple>, rule: Rule, t: int, e: string) returns (v: Violation)
    requires rule.Required? && !KeepsRequired(before, after, rule.entityType, rule.attribute, t, e)
    ensures Grows(before, after, rule, t, v)
  {
    v := Violation(ConstraintKey(rule.entityType, rule.attribute, RequiredKey), RequiredCode, e, rule.entityType,
                   rule.attribute, 0, None);
  }

  lemma SurplusGrows(before: seq<Triple>, after: seq<Triple>, rule: Rule, t: int, e: string) returns (v: Violation)
    requires rule.Cardinality? && !KeepsCardinality(before, after, rule.entityType, rule.attribute, rule.max, t, e)
    ensures Grows(before, after, rule, t, v)
  {
    v := Violation(ConstraintKey(rule.entityType, rule.attribute, CardinalityKey(rule.max)), CardinalityCode, e,
                   rule.entityType, rule.attribute, |Holdings(after, e, rule.attribute, t)|, None);
  }

  lemma ShareGrows(before: seq<Triple>, after: seq<Triple>, rule: Rule, t: int, e: string, value: TripleValue)
      returns (v: Violation)
    requires rule.Unique? && !KeepsUnique(before, after, rule.entityType, rule.attribute, t, e, value)
    ensures Grows(before, after, rule, t, v)
  {
    ClaimantsAreTyped(after, rule.entityType, rule.attribute, value, t, e);
    v := Violation(ConstraintKey(rule.entityType, rule.attribute, UniqueKey), UniqueCode, e, rule.entityType,
                   rule.attribute, |Claiming(after, rule.entityType, rule.attribute, value, t)|, Some(value));
  }

  lemma DanglingGrows(before: seq<Triple>, after: seq<Triple>, rule: Rule, t: int, e: string, value: TripleValue)
      returns (v: Violation)
    requires rule.ReferenceTarget?
    requires !KeepsTarget(before, after, rule.entityType, rule.attribute, rule.targetEntityType, t, e, value)
    ensures Grows(before, after, rule, t, v)
  {
    v := Violation(ConstraintKey(rule.entityType, rule.attribute, ReferenceTargetKey(rule.targetEntityType)),
                   ReferenceTargetCode, e, rule.entityType, rule.attribute, 1, Some(value));
  }

  lemma UnkeptGrows(before: seq<Triple>, after: seq<Triple>, rule: Rule) returns (t: int, v: Violation)
    requires !Keeps(before, after, rule)
    ensures Grows(before, after, rule, t, v)
  {
    match rule {
      case Required(entityType, a) =>
        var i: int, e: string :| !KeepsRequired(before, after, entityType, a, i, e);
        v := LackGrows(before, after, rule, i, e);
        t := i;
      case Cardinality(entityType, a, max) =>
        var i: int, e: string :| !KeepsCardinality(before, after, entityType, a, max, i, e);
        v := SurplusGrows(before, after, rule, i, e);
        t := i;
      case Unique(entityType, a) =>
        var i: int, e: string, value: TripleValue :| !KeepsUnique(before, after, entityType, a, i, e, value);
        v := ShareGrows(before, after, rule, i, e, value);
        t := i;
      case ReferenceTarget(entityType, a, target) =>
        var i: int, e: string, value: TripleValue :| !KeepsTarget(before, after, entityType, a, target, i, e, value);
        v := DanglingGrows(before, after, rule, i, e, value);
        t := i;
    }
  }

  /**
   * A transaction is accepted if and only if, for every rule, it leaves no
   * entity at any instant worse off than the rule allows and than it was.
   */
  lemma AcceptedIffKept(current: seq<Triple>, operations: seq<TransactOp>, rules: seq<Rule>, instant: int)
    ensures Accepts(current, operations, rules, instant)
      <==> forall rule :: rule in rules ==> Keeps(current, Projected(current, operations, instant), rule)
  {
    var after := Projected(current, operations, instant);
    ConstraintBoundaries.BoundariesSuffice(current, operations, rules, instant);
    if t: int, v :| Worsens(current, after, rules, t, v) {
      var rule := WorseGrows(current, after, rules, t, v);
      if Keeps(current, after, rule) {
        var u := KeptWasThere(current, after, rule, t, v);
      }
    }
    if rule :| rule in rules && !Keeps(current, after, rule) {
      var t, v := UnkeptGrows(current, after, rule);
      GrowingWorsens(current, after, rules, rule, t, v);
    }
  }

  ghost predicate ReportsOne(facts: seq<Triple>, rules: seq<Rule>, t: int, v: Violation) {
    exists rule :: rule in rules && Reports(facts, rule, t, v)
  }

  /** Enforcement: nothing is reported exactly when every rule is kept, and what is reported is there afterwards. */
  method Enforce(current: seq<Triple>, operations: seq<TransactOp>, rules: seq<Rule>, instant: int)
      returns (result: seq<ViolationAt>)
    ensures result == []
      <==> forall rule :: rule in rules ==> Keeps(current, Projected(current, operations, instant), rule)
    ensures forall va :: va in result ==>
      ReportsOne(Projected(current, operations, instant), rules, va.validAt, va.violation)
  {
    result := NewlyViolated(current, operations, rules, instant);
    AcceptedIffKept(current, operations, rules, instant);
    forall va | va in result
      ensures ReportsOne(Projected(current, operations, instant), rules, va.validAt, va.violation)
    {
      ViolationsAreReports(Projected(current, operations, instant), rules, va.validAt, va.violation);
    }
  }

  // ---- What a safe store is ----------------------------------------------------------

  ghost predicate HoldsSome(facts: seq<Triple>, entityType: string, a: string, t: int, e: string) {
    IsTyped(facts, e, entityType, t) ==> Holdings(facts, e, a, t) != {}
  }

  ghost predicate HoldsAtMost(facts: seq<Triple>, entityType: string, a: string, max: int, t: int, e: string) {
    IsTyped(facts, e, entityType, t) ==> |Holdings(facts, e, a, t)| <= max
  }

  ghost predicate HoldsAlone(facts: seq<Triple>, entityType: string, a: string, t: int, e: string, other: string,
                             value: TripleValue) {
    var claiming := Claiming(facts, entityType, a, value, t);
    e in claiming && other in claiming ==> e == other
  }

  ghost predicate PointsRight(facts: seq<Triple>, entityType: string, a: string, target: string, t: int, e: string,
                              value: TripleValue) {
    IsTyped(facts, e, entityType, t) ==> !Dangles(facts, e, a, value, target, t)
  }

  /** The rule, as a property of the facts at every instant. */
  ghost predicate Obeys(facts: seq<Triple>, rule: Rule) {
    match rule
    case Required(entityType, a) => forall t, e :: HoldsSome(facts, entityType, a, t, e)
    case Cardinality(entityType, a, max) => forall t, e :: HoldsAtMost(facts, entityType, a, max, t, e)
    case Unique(entityType, a) => forall t, e, other, value :: HoldsAlone(facts, entityType, a, t, e, other, value)
    case ReferenceTarget(entityType, a, target) =>
      forall t, e, value :: PointsRight(facts, entityType, a, target, t, e, value)
  }

  lemma ObeyedReportsNothing(facts: seq<Triple>, rule: Rule, t: int, v: Violation)
    requires Obeys(facts, rule)
    ensures !Reports(facts, rule, t, v)
  {
    match rule {
      case Required(entityType, a) => assert HoldsSome(facts, entityType, a, t, v.subject);
      case Cardinality(entityType, a, max) => assert HoldsAtMost(facts, entityType, a, max, t, v.subject);
      case Unique(entityType, a) =>
        if v.valueIdentity.Some? {
          var claiming := Claiming(facts, entityType, a, v.valueIdentity.value, t);
          forall other | v.subject in claiming && other in claiming ensures other in {v.subject} {
            assert HoldsAlone(facts, entityType, a, t, v.subject, other, v.valueIdentity.value);
          }
          if v.subject in claiming {
            SubsetIsNoLarger(claiming, {v.subject});
          }
        }
      case ReferenceTarget(entityType, a, target) =>
        if v.valueIdentity.Some? {
          assert PointsRight(facts, entityType, a, target, t, v.subject, v.valueIdentity.value);
        }
    }
  }

  lemma TwoAreAtLeastTwo(s: set<string>, x: string, y: string)
    requires x in s && y in s && x != y
    ensures |s| >= 2
  {
    SubsetIsNoLarger({x, y}, s);
  }

  lemma DisobeyedReports(facts: seq<Triple>, rule: Rule) returns (t: int, v: Violation)
    requires !Obeys(facts, rule)
    ensures Reports(facts, rule, t, v)
  {
    var a := rule.attribute;
    match rule {
      case Required(entityType, _) =>
        var i: int, e: string :| !HoldsSome(facts, entityType, a, i, e);
        t, v := i, Violation(ConstraintKey(entityType, a, RequiredKey), RequiredCode, e, entityType, a, 0, None);
      case Cardinality(entityType, _, max) =>
        var i: int, e: string :| !HoldsAtMost(facts, entityType, a, max, i, e);
        t, v := i, Violation(ConstraintKey(entityType, a, CardinalityKey(max)), CardinalityCode, e, entityType, a,
                             |Holdings(facts, e, a, i)|, None);
      case Unique(entityType, _) =>
        var i: int, e: string, other: string, value: TripleValue :|
          !HoldsAlone(facts, entityType, a, i, e, other, value);
        ClaimantsAreTyped(facts, entityType, a, value, i, e);
        TwoAreAtLeastTwo(Claiming(facts, entityType, a, value, i), e, other);
        t, v := i, Violation(ConstraintKey(entityType, a, UniqueKey), UniqueCode, e, entityType, a,
                             |Claiming(facts, entityType, a, value, i)|, Some(value));
      case ReferenceTarget(entityType, _, target) =>
        var i: int, e: string, value: TripleValue :| !PointsRight(facts, entityType, a, target, i, e, value);
        t, v := i, Violation(ConstraintKey(entityType, a, ReferenceTargetKey(target)), ReferenceTargetCode, e,
                             entityType, a, 1, Some(value));
    }
  }

  /** A store is safe if and only if its facts have the property of every rule at every instant. */
  lemma SafeIffObeyed(facts: seq<Triple>, rules: seq<Rule>)
    ensures Safe(facts, rules) <==> forall rule :: rule in rules ==> Obeys(facts, rule)
  {
    if forall rule :: rule in rules ==> Obeys(facts, rule) {
      forall t: int, v ensures !Violates(facts, rules, t, v) {
        ViolationsAreReports(facts, rules, t, v);
        forall rule | rule in rules ensures !Reports(facts, rule, t, v) {
          ObeyedReportsNothing(facts, rule, t, v);
        }
      }
    }
    if rule :| rule in rules && !Obeys(facts, rule) {
      var t, v := DisobeyedReports(facts, rule);
      ViolationsAreReports(facts, rules, t, v);
    }
  }
}
