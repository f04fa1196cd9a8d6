/**
 * Portable graph constraints checked when a transaction is about to commit:
 * what counts as a violation, the loops that find violations, the projection of
 * a transaction, and the check at valid-time boundaries.
 */
module Constraint {
  import opened Wrappers
  import opened Seqs
  import opened Triples

  datatype Rule =
    | Required(entityType: string, attribute: string)
    | Cardinality(entityType: string, attribute: string, max: int)
    | Unique(entityType: string, attribute: string)
    | ReferenceTarget(entityType: string, attribute: string, targetEntityType: string)

  datatype Code = RequiredCode | CardinalityCode | UniqueCode | ReferenceTargetCode

  datatype Suffix = RequiredKey | CardinalityKey(max: int) | UniqueKey | ReferenceTargetKey(target: string)

  datatype ConstraintKey = ConstraintKey(entityType: string, attribute: string, suffix: Suffix)

  datatype Violation = Violation(
    constraintKey: ConstraintKey,
    code: Code,
    subject: string,
    entityType: string,
    attribute: string,
    actual: nat,
    valueIdentity: Option<TripleValue>)

  datatype ViolationAt = ViolationAt(violation: Violation, validAt: int)

  datatype Identity = Identity(
    constraintKey: ConstraintKey,
    code: Code,
    subject: string,
    attribute: string,
    valueIdentity: Option<TripleValue>)

  function KeyOf(rule: Rule): ConstraintKey {
    ConstraintKey(rule.entityType, rule.attribute,
      match rule
      case Required(_, _) => RequiredKey
      case Cardinality(_, _, max) => CardinalityKey(max)
      case Unique(_, _) => UniqueKey
      case ReferenceTarget(_, _, target) => ReferenceTargetKey(target))
  }

  function CodeOf(rule: Rule): Code {
    match rule
    case Required(_, _) => RequiredCode
    case Cardinality(_, _, _) => CardinalityCode
    case Unique(_, _) => UniqueCode
    case ReferenceTarget(_, _, _) => ReferenceTargetCode
  }

  function IdentityOf(v: Violation): Identity {
    Identity(v.constraintKey, v.code, v.subject, v.attribute, v.valueIdentity)
  }

  // ---- What a violation is ------------------------------------------------

  /** The entity carries this type at the instant. */
  predicate HasType(facts: seq<Triple>, entityId: string, entityType: string, validAt: int) {
    exists f :: f in facts && VisibleAt(f, validAt) && f.entityId == entityId && f.entityType == Some(entityType)
  }

  function ValuesOf(subject: string, attribute: string, validAt: int): Triple -> bool {
    f => VisibleAt(f, validAt) && f.entityId == subject && f.attribute == attribute
  }

  /** Number of values the subject holds for the attribute at the instant. */
  function Count(facts: seq<Triple>, subject: string, attribute: string, validAt: int): nat {
    |Filter(ValuesOf(subject, attribute, validAt), facts)|
  }

  predicate IsClaim(facts: seq<Triple>, rule: Rule, value: TripleValue, validAt: int, f: Triple) {
    VisibleAt(f, validAt) && f.attribute == rule.attribute && f.value == value
    && HasType(facts, f.entityId, rule.entityType, validAt)
  }

  /** Typed subjects holding this value for the rule's attribute at the instant. */
  function Claimants(facts: seq<Triple>, rule: Rule, value: TripleValue, validAt: int): set<string> {
    set f | f in facts && IsClaim(facts, rule, value, validAt, f) :: f.entityId
  }

  predicate ValidTarget(facts: seq<Triple>, value: TripleValue, target: string, validAt: int) {
    value.RefValue? && HasType(facts, value.target, target, validAt)
  }

  predicate DanglingReference(facts: seq<Triple>, rule: Rule, subject: string, value: TripleValue, validAt: int)
    requires rule.ReferenceTarget?
  {
    (exists f :: f in facts && ValuesOf(subject, rule.attribute, validAt)(f) && f.value == value)
    && !ValidTarget(facts, value, rule.targetEntityType, validAt)
  }

  /** v is a violation of rule over these facts at this instant. */
  predicate Breaks(facts: seq<Triple>, rule: Rule, validAt: int, v: Violation) {
    && v.constraintKey == KeyOf(rule)
    && v.code == CodeOf(rule)
    && v.entityType == rule.entityType
    && v.attribute == rule.attribute
    && HasType(facts, v.subject, rule.entityType, validAt)
    && match rule
       case Required(_, attribute) =>
         v.valueIdentity.None? && v.actual == 0 == Count(facts, v.subject, attribute, validAt)
       case Cardinality(_, attribute, max) =>
         v.valueIdentity.None? && v.actual == Count(facts, v.subject, attribute, validAt) && v.actual > max
       case Unique(_, _) =>
         v.valueIdentity.Some?
         && var claimants := Claimants(facts, rule, v.valueIdentity.value, validAt);
         v.subject in claimants && v.actual == |claimants| && |claimants| >= 2
       case ReferenceTarget(_, _, _) =>
         v.valueIdentity.Some? && v.actual == 1
         && DanglingReference(facts, rule, v.subject, v.valueIdentity.value, validAt)
  }

  predicate Violates(facts: seq<Triple>, rules: seq<Rule>, validAt: int, v: Violation) {
    exists rule :: rule in rules && Breaks(facts, rule, validAt, v)
  }

  /** No rule is violated at any instant of valid time. */
  ghost predicate Safe(facts: seq<Triple>, rules: seq<Rule>) {
    forall t: int, v :: !Violates(facts, rules, t, v)
  }

  // ---- The loops that find violations -------------------------------------

  method CountViolations(visible: seq<Triple>, rule: Rule, validAt: int, subjects: seq<string>)
    returns (violations: seq<Violation>)
    requires rule.Required? || rule.Cardinality?
    requires forall f :: f in visible ==> VisibleAt(f, validAt)
    requires forall s :: s in subjects <==> HasType(visible, s, rule.entityType, validAt)
    ensures forall v :: v in violations <==> Breaks(visible, rule, validAt, v)
  {
    violations := [];
    for i := 0 to |subjects|
      invariant forall v :: v in violations <==> v.subject in subjects[..i] && Breaks(visible, rule, validAt, v)
    {
      var subject := subjects[i];
      var count := |Filter(ValuesOf(subject, rule.attribute, validAt), visible)|;
      if (rule.Required? && count == 0) || (rule.Cardinality? && count > rule.max) {
        violations := violations +
          [Violation(KeyOf(rule), CodeOf(rule), subject, rule.entityType, rule.attribute, count, None)];
      }
    }
  }

  /** Group the typed facts of the attribute by value: who claims which value. */
  method CollectClaims(visible: seq<Triple>, rule: Rule, validAt: int, subjects: seq<string>)
    returns (claims: map<TripleValue, set<string>>)
    requires forall f :: f in visible ==> VisibleAt(f, validAt)
    requires forall s :: s in subjects <==> HasType(visible, s, rule.entityType, validAt)
    ensures forall value :: value in claims ==> claims[value] == Claimants(visible, rule, value, validAt)
    ensures forall value :: Claimants(visible, rule, value, validAt) != {} ==> value in claims
  {
    claims := map[];
    for i := 0 to |visible|
      invariant forall value :: value in claims ==>
        claims[value] == set f | f in visible[..i] && IsClaim(visible, rule, value, validAt, f) :: f.entityId
      invariant forall f :: f in visible[..i] && f.attribute == rule.attribute && f.entityId in subjects ==>
        f.value in claims
    {
      var fact := visible[i];
      assert visible[..i + 1] == visible[..i] + [fact];
      if fact.attribute == rule.attribute && fact.entityId in subjects {
        var claimants := if fact.value in claims then claims[fact.value] else {};
        claims := claims[fact.value := claimants + {fact.entityId}];
      }
    }
    assert visible[..|visible|] == visible;
  }

  method UniqueViolations(visible: seq<Triple>, rule: Rule, validAt: int, subjects: seq<string>)
    returns (violations: seq<Violation>)
    requires rule.Unique?
    requires forall f :: f in visible ==> VisibleAt(f, validAt)
    requires forall s :: s in subjects <==> HasType(visible, s, rule.entityType, validAt)
    ensures forall v :: v in violations <==> Breaks(visible, rule, validAt, v)
  {
    var claims := CollectClaims(visible, rule, validAt, subjects);
    violations := [];
    var todo := claims.Keys;
    while todo != {}
      invariant todo <= claims.Keys
      invariant forall v :: v in violations <==>
        v.valueIdentity.Some? && v.valueIdentity.value in claims.Keys - todo && Breaks(visible, rule, validAt, v)
    {
      var identity :| identity in todo;
      todo := todo - {identity};
      var claimants := claims[identity];
      if |claimants| >= 2 {
        var rest := claimants;
        while rest != {}
          invariant rest <= claimants
          invariant forall v :: v in violations <==>
            v.valueIdentity.Some? && Breaks(visible, rule, validAt, v)
            && (v.valueIdentity.value in claims.Keys - todo - {identity}
                || (v.valueIdentity.value == identity && v.subject in claimants - rest))
        {
          var subject :| subject in rest;
          rest := rest - {subject};
          violations := violations +
            [Violation(KeyOf(rule), UniqueCode, subject, rule.entityType, rule.attribute, |claimants|, Some(identity))];
        }
      }
    }
  }

  method ReferenceViolations(visible: seq<Triple>, rule: Rule, validAt: int, subjects: seq<string>)
    returns (violations: seq<Violation>)
    requires rule.ReferenceTarget?
    requires forall f :: f in visible ==> VisibleAt(f, validAt)
    requires forall s :: s in subjects <==> HasType(visible, s, rule.entityType, validAt)
    ensures forall v :: v in violations <==> Breaks(visible, rule, validAt, v)
  {
    violations := [];
    for i := 0 to |visible|
      invariant forall v :: v in violations <==>
        Breaks(visible, rule, validAt, v)
        && exists f ::
          f in visible[..i] && ValuesOf(v.subject, rule.attribute, validAt)(f) && Some(f.value) == v.valueIdentity
    {
      var fact := visible[i];
      assert visible[..i + 1] == visible[..i] + [fact];
      if fact.entityId in subjects && fact.attribute == rule.attribute {
        if !ValidTarget(visible, fact.value, rule.targetEntityType, validAt) {
          violations := violations +
            [Violation(KeyOf(rule), ReferenceTargetCode, fact.entityId, rule.entityType, rule.attribute, 1,
                       Some(fact.value))];
        }
      }
    }
    assert visible[..|visible|] == visible;
  }

  /** Evaluate the rules over one set of live facts at a valid-time instant. */
  method EvaluateFacts(facts: seq<Triple>, rules: seq<Rule>, validAt: int) returns (violations: seq<Violation>)
    ensures forall v :: v in violations <==> Violates(facts, rules, validAt, v)
  {
    var visible := Filter((f: Triple) => VisibleAt(f, validAt), facts);
    violations := [];
    for i := 0 to |rules|
      invariant forall v :: v in violations <==> Violates(facts, rules[..i], validAt, v)
    {
      var rule := rules[i];
      assert rules[..i + 1] == rules[..i] + [rule];
      var subjects := SubjectsOf(visible, rule.entityType);
      var found;
      match rule {
        case Required(_, _) => found := CountViolations(visible, rule, validAt, subjects);
        case Cardinality(_, _, _) => found := CountViolations(visible, rule, validAt, subjects);
        case Unique(_, _) => found := UniqueViolations(visible, rule, validAt, subjects);
        case ReferenceTarget(_, _, _) => found := ReferenceViolations(visible, rule, validAt, subjects);
      }
      VisibleFactsDecide(facts, visible, rule, validAt);
      violations := violations + found;
    }
    assert rules[..|rules|] == rules;
  }

  function SubjectsOf(visible: seq<Triple>, entityType: string): (subjects: seq<string>)
    ensures forall s ::
      s in subjects <==> exists f :: f in visible && f.entityType == Some(entityType) && f.entityId == s
  {
    Distinct(Map((f: Triple) => f.entityId, Filter((f: Triple) => f.entityType == Some(entityType), visible)))
  }

  // ---- What a violation depends on ----------------------------------------

  /**
   * A violation at t over a is a violation at u over b when the two agree on the
   * facts that type a subject or a target, and on every fact of a typed subject.
   */
  lemma BreaksTransfers(a: seq<Triple>, t: int, b: seq<Triple>, u: int, rule: Rule, v: Violation)
    requires forall f :: f in a || f in b ==> VisibleAt(f, t) == VisibleAt(f, u)
    requires forall f: Triple :: f.entityType == Some(rule.entityType) && VisibleAt(f, t) ==> (f in a <==> f in b)
    requires rule.ReferenceTarget? ==>
      forall f: Triple :: f.entityType == Some(rule.targetEntityType) && VisibleAt(f, t) ==> (f in a <==> f in b)
    requires forall f: Triple :: HasType(a, f.entityId, rule.entityType, t) && VisibleAt(f, t) ==>
      multiset(a)[f] == multiset(b)[f]
    ensures Breaks(a, rule, t, v) <==> Breaks(b, rule, u, v)
  {
    assert forall s :: HasType(a, s, rule.entityType, t) <==> HasType(b, s, rule.entityType, u);
    if HasType(a, v.subject, rule.entityType, t) {
      CountTransfers(a, t, b, u, v.subject, rule.attribute);
      match rule {
        case Required(_, _) =>
        case Cardinality(_, _, _) =>
        case Unique(_, _) =>
          if v.valueIdentity.Some? {
            var value := v.valueIdentity.value;
            forall f ensures (f in a && IsClaim(a, rule, value, t, f)) <==> (f in b && IsClaim(b, rule, value, u, f)) {
              assert f in a <==> multiset(a)[f] > 0;
              assert f in b <==> multiset(b)[f] > 0;
            }
            assert Claimants(a, rule, value, t) == Claimants(b, rule, value, u);
          }
        case ReferenceTarget(_, _, _) =>
          if v.valueIdentity.Some? {
            forall f: Triple | f.entityId == v.subject && VisibleAt(f, t) ensures f in a <==> f in b {
              assert f in a <==> multiset(a)[f] > 0;
              assert f in b <==> multiset(b)[f] > 0;
            }
          }
      }
    }
  }

  lemma CountTransfers(a: seq<Triple>, t: int, b: seq<Triple>, u: int, subject: string, attribute: string)
    requires forall f :: f in a || f in b ==> VisibleAt(f, t) == VisibleAt(f, u)
    requires forall f: Triple :: f.entityId == subject && VisibleAt(f, t) ==> multiset(a)[f] == multiset(b)[f]
    ensures Count(a, subject, attribute, t) == Count(b, subject, attribute, u)
  {
    FilterLength(ValuesOf(subject, attribute, t), a, b);
    FilterPointwise(ValuesOf(subject, attribute, t), ValuesOf(subject, attribute, u), b);
  }

  /** Discarding the facts not visible at the instant changes no violation there. */
  lemma VisibleFactsDecide(facts: seq<Triple>, visible: seq<Triple>, rule: Rule, t: int)
    requires visible == Filter((f: Triple) => VisibleAt(f, t), facts)
    ensures forall v :: Breaks(facts, rule, t, v) <==> Breaks(visible, rule, t, v)
  {
    forall f | VisibleAt(f, t) ensures multiset(facts)[f] == multiset(visible)[f] {
      FilterMultiplicity((f: Triple) => VisibleAt(f, t), facts, f);
    }
    forall v ensures Breaks(facts, rule, t, v) <==> Breaks(visible, rule, t, v) {
      BreaksTransfers(facts, t, visible, t, rule, v);
    }
  }

  /** How often something is violated is a function of the violation's identity. */
  lemma IdentityFixesActual(facts: seq<Triple>, rules: seq<Rule>, t: int, v: Violation, w: Violation)
    requires Violates(facts, rules, t, v) && Violates(facts, rules, t, w)
    requires IdentityOf(v) == IdentityOf(w)
    ensures v.actual == w.actual
  {
    var r :| r in rules && Breaks(facts, r, t, v);
    var q :| q in rules && Breaks(facts, q, t, w);
    assert r == q;
  }

  // ---- Projection ---------------------------------------------------------

  /** Does a live fact match a retraction pattern? Values compare by canonical identity. */
  predicate PatternMatches(triple: Triple, pattern: Pattern) {
    && (pattern.entityId.Some? ==> triple.entityId == pattern.entityId.value)
    && (pattern.attribute.Some? ==> triple.attribute == pattern.attribute.value)
    && (pattern.entityType.Some? ==> triple.entityType == pattern.entityType)
    && (pattern.value.Some? ==> triple.value == pattern.value.value)
  }

  function Asserted(op: TransactOp, id: TripleId, instant: int): Triple
    requires op.Assert?
  {
    Triple(id, op.entityId, op.attribute, op.value, op.entityType,
           if op.validFrom.Some? then op.validFrom.value else instant, op.validTo)
  }

  function ProjectStep(facts: seq<Triple>, op: TransactOp, id: TripleId, instant: int): seq<Triple> {
    match op
    case Retract(target) => Filter((f: Triple) => f.id != target, facts)
    case RetractPattern(pattern) => Filter((f: Triple) => !PatternMatches(f, pattern), facts)
    case Assert(_, _, _, _, _, _) => facts + [Asserted(op, id, instant)]
  }

  /** The live facts after the operations, had they been committed. */
  function Projected(current: seq<Triple>, operations: seq<TransactOp>, instant: int): seq<Triple> {
    if operations == [] then current
    else
      var last := |operations| - 1;
      ProjectStep(Projected(current, operations[..last], instant), operations[last], Pending(last), instant)
  }

  method Project(current: seq<Triple>, operations: seq<TransactOp>, instant: int) returns (projected: seq<Triple>)
    ensures projected == Projected(current, operations, instant)
  {
    projected := current;
    for index := 0 to |operations|
      invariant projected == Projected(current, operations[..index], instant)
    {
      var op := operations[index];
      assert operations[..index + 1][..index] == operations[..index];
      match op {
        case Retract(target) => projected := Filter((f: Triple) => f.id != target, projected);
        case RetractPattern(pattern) => projected := Filter((f: Triple) => !PatternMatches(f, pattern), projected);
        case Assert(_, _, _, _, _, _) => projected := projected + [Asserted(op, Pending(index), instant)];
      }
    }
    assert operations[..|operations|] == operations;
  }

  // ---- The check at boundaries --------------------------------------------

  predicate IsBoundary(facts: seq<Triple>, t: int) {
    exists f :: f in facts && (f.validFrom == t || f.validTo == Some(t))
  }

  /** v holds after, and either nothing with its identity held before or it grew. */
  ghost predicate Worsens(before: seq<Triple>, after: seq<Triple>, rules: seq<Rule>, t: int, v: Violation) {
    Violates(after, rules, t, v)
    && forall u :: Violates(before, rules, t, u) && IdentityOf(u) == IdentityOf(v) ==> v.actual > u.actual
  }

  ghost predicate Accepts(current: seq<Triple>, operations: seq<TransactOp>, rules: seq<Rule>, instant: int) {
    var projected := Projected(current, operations, instant);
    forall t, v :: IsBoundary(current + projected, t) ==> !Worsens(current, projected, rules, t, v)
  }

  function Boundaries(facts: seq<Triple>): (ts: seq<int>)
    ensures forall t :: t in ts <==> IsBoundary(facts, t)
  {
    var ends := EndpointsOf(facts);
    Distinct(ends)
  }

  function EndpointsOf(facts: seq<Triple>): (ts: seq<int>)
    ensures forall t :: t in ts <==> IsBoundary(facts, t)
  {
    if facts == [] then []
    else
      var last := facts[|facts| - 1];
      assert facts == facts[..|facts| - 1] + [last];
      EndpointsOf(facts[..|facts| - 1])
        + [last.validFrom] + (if last.validTo.Some? then [last.validTo.value] else [])
  }

  /** Violations introduced or worsened by a transaction, at each boundary of the pre- and post-state. */
  method NewlyViolated(current: seq<Triple>, operations: seq<TransactOp>, rules: seq<Rule>, instant: int)
    returns (result: seq<ViolationAt>)
    ensures forall va :: va in result <==>
      IsBoundary(current + Projected(current, operations, instant), va.validAt)
      && Worsens(current, Projected(current, operations, instant), rules, va.validAt, va.violation)
    ensures result == [] <==> Accepts(current, operations, rules, instant)
  {
    result := [];
    if |rules| != 0 {
      var projected := Project(current, operations, instant);
      var boundaries := Boundaries(current + projected);
      for i := 0 to |boundaries|
        invariant forall va :: va in result <==>
          va.validAt in boundaries[..i] && Worsens(current, projected, rules, va.validAt, va.violation)
      {
        var validAt := boundaries[i];
        var before := EvaluateFacts(current, rules, validAt);
        var after := EvaluateFacts(projected, rules, validAt);
        var worse := FreshOrWorse(current, rules, validAt, before, after);
        assert boundaries[..i + 1] == boundaries[..i] + [validAt];
        result := result + worse;
      }
      assert boundaries[..|boundaries|] == boundaries;
    }
    if result != [] {
      assert result[0] in result;
    } else {
      var projected := Projected(current, operations, instant);
      forall t, v | IsBoundary(current + projected, t) ensures !Worsens(current, projected, rules, t, v) {
        assert ViolationAt(v, t) !in result;
      }
    }
  }

  /** Report the violations of `after` whose identity is new in `before` or whose count grew. */
  method FreshOrWorse(current: seq<Triple>, rules: seq<Rule>, validAt: int, before: seq<Violation>,
                      after: seq<Violation>)
    returns (worse: seq<ViolationAt>)
    requires forall v :: v in before <==> Violates(current, rules, validAt, v)
    ensures forall va :: va in worse <==>
      va.validAt == validAt && va.violation in after
      && forall u :: Violates(current, rules, validAt, u) && IdentityOf(u) == IdentityOf(va.violation) ==>
           va.violation.actual > u.actual
  {
    var prior: map<Identity, nat> := map[];
    for i := 0 to |before|
      invariant forall u :: u in before[..i] ==> IdentityOf(u) in prior && prior[IdentityOf(u)] == u.actual
      invariant forall k :: k in prior ==> exists u :: u in before[..i] && IdentityOf(u) == k
    {
      assert before[..i + 1] == before[..i] + [before[i]];
      forall u | u in before[..i] && IdentityOf(u) == IdentityOf(before[i]) ensures u.actual == before[i].actual {
        IdentityFixesActual(current, rules, validAt, u, before[i]);
      }
      prior := prior[IdentityOf(before[i]) := before[i].actual];
    }
    assert before[..|before|] == before;
    worse := [];
    for i := 0 to |after|
      invariant forall va :: va in worse <==>
        va.validAt == validAt && va.violation in after[..i]
        && (IdentityOf(va.violation) in prior ==> va.violation.actual > prior[IdentityOf(va.violation)])
    {
      assert after[..i + 1] == after[..i] + [after[i]];
      var key := IdentityOf(after[i]);
      if key !in prior || after[i].actual > prior[key] {
        worse := worse + [ViolationAt(after[i], validAt)];
      }
    }
    assert after[..|after|] == after;
  }
}
