/**
 * Which assertions keep an accepted transaction safe: those that read back as
 * the constraint check saw them, and those that are never visible.
 */
module StoredValues {
  import opened Wrappers
  import opened Seqs
  import opened Triples
  import opened Constraint
  import opened Commit
  import opened PatternSafety

  /** The operations are foreseen, except that they may make this assertion. */
  predicate ForeseenBut(op: TransactOp, operations: seq<TransactOp>, ids: seq<string>) {
    Retractable(operations, ids) && forall other :: other in operations ==> other == op || StoredAsChecked(other)
  }

  /** The valid time given with the assertion is empty. */
  predicate NeverVisible(op: TransactOp) {
    op.Assert? && op.validFrom.Some? && op.validTo.Some? && op.validTo.value <= op.validFrom.value
  }

  // ---- What is never visible does no harm -----------------------------------

  lemma {:induction false} VisibleAlike(f: Triple -> Triple, g: Triple -> Triple, facts: seq<Triple>, t: int)
    requires forall x :: x in facts ==> f(x) == g(x) || (!VisibleAt(f(x), t) && !VisibleAt(g(x), t))
    ensures Filter((y: Triple) => VisibleAt(y, t), Map(f, facts))
      == Filter((y: Triple) => VisibleAt(y, t), Map(g, facts))
  {
    if facts != [] {
      assert Map(f, facts)[1..] == Map(f, facts[1..]) && Map(g, facts)[1..] == Map(g, facts[1..]);
      VisibleAlike(f, g, facts[1..], t);
    }
  }

  lemma LandsAlike(live: seq<Triple>, operations: seq<TransactOp>, ids: seq<string>, instant: int, op: TransactOp,
                   f: Triple, t: int)
    requires NeverVisible(op) && ForeseenBut(op, operations, ids) && f in Projected(live, operations, instant)
    requires forall g :: g in live ==> g.id.Stored?
    ensures Landed(ids)(f) == Rename(ids)(f) || (!VisibleAt(Landed(ids)(f), t) && !VisibleAt(Rename(ids)(f), t))
  {
    if f.id.Pending? {
      var k := PendingFactsAreAsserted(live, operations, instant, f);
      assert operations[k] in operations;
      if operations[k] != op {
        ReadBackIff(operations[k], Rename(ids)(f).id, instant);
      }
    }
  }

  lemma SameVisibleSameViolations(a: seq<Triple>, b: seq<Triple>, rule: Rule, t: int, v: Violation)
    requires Filter((f: Triple) => VisibleAt(f, t), a) == Filter((f: Triple) => VisibleAt(f, t), b)
    ensures Breaks(a, rule, t, v) <==> Breaks(b, rule, t, v)
  {
    VisibleFactsDecide(a, Filter((f: Triple) => VisibleAt(f, t), a), rule, t);
    VisibleFactsDecide(b, Filter((f: Triple) => VisibleAt(f, t), b), rule, t);
  }

  lemma NeverVisibleLandsSafely(rules: seq<Rule>, live: seq<Triple>, operations: seq<TransactOp>, ids: seq<string>,
                                instant: int, op: TransactOp)
    requires NeverVisible(op) && ForeseenBut(op, operations, ids) && forall g :: g in live ==> g.id.Stored?
    requires Safe(Map(Rename(ids), Projected(live, operations, instant)), rules)
    ensures Safe(Map(Landed(ids), Projected(live, operations, instant)), rules)
  {
    var projected := Projected(live, operations, instant);
    forall t: int, v ensures !Violates(Map(Landed(ids), projected), rules, t, v) {
      if rule :| rule in rules && Breaks(Map(Landed(ids), projected), rule, t, v) {
        forall f | f in projected
          ensures Landed(ids)(f) == Rename(ids)(f) || (!VisibleAt(Landed(ids)(f), t) && !VisibleAt(Rename(ids)(f), t))
        {
          LandsAlike(live, operations, ids, instant, op, f, t);
        }
        VisibleAlike(Landed(ids), Rename(ids), projected, t);
        SameVisibleSameViolations(Map(Landed(ids), projected), Map(Rename(ids), projected), rule, t, v);
        assert Violates(Map(Rename(ids), projected), rules, t, v);
      }
    }
  }

  lemma NeverVisibleStaysSafe(rules: seq<Rule>, live: seq<Triple>, operations: seq<TransactOp>, ids: seq<string>,
                              instant: int, op: TransactOp)
    requires NeverVisible(op) && ForeseenBut(op, operations, ids)
    ensures StaysSafe(rules, live, operations, ids, instant)
  {
    if Keyed(live) && Safe(live, rules) && |ids| >= |operations| && Accepts(live, operations, rules, instant) {
      CommitLandsTheProjection(live, operations, ids, instant);
      AcceptedFromSafeIsSafe(rules, live, operations, instant);
      RenamingKeepsSafe(rules, Projected(live, operations, instant), ids);
      NeverVisibleLandsSafely(rules, live, operations, ids, instant, op);
    }
  }

  // ---- A breach for every other assertion -----------------------------------

  /** A clock reading at which the assertion is visible from its start. */
  function Instant(op: TransactOp): int
    requires op.Assert?
  {
    if op.validTo.Some? then op.validTo.value - 1 else 0
  }

  function Start(op: TransactOp): int
    requires op.Assert?
  {
    if op.validFrom.Some? then op.validFrom.value else Instant(op)
  }

  /** A typed fact of another entity or attribute, valid as long as the assertion. */
  function Beside(op: TransactOp, entityId: string, attribute: string, value: TripleValue): TransactOp
    requires op.Assert?
  {
    Assert(entityId, attribute, value, Some("T"), Some(Start(op)), op.validTo)
  }

  predicate HasEmptyName(op: TransactOp) {
    op.Assert? && op.value.BlobValue? && op.value.filename == Some("")
  }

  /** Another entity holds the blob without a file name, and the asserting one is typed. */
  function NameBreach(op: TransactOp): seq<TransactOp>
    requires HasEmptyName(op)
  {
    [op, Beside(op, op.entityId + "!", op.attribute, op.value.(filename := None)),
     Beside(op, op.entityId, op.attribute + "!", StringValue(""))]
  }

  /** Another entity refers to the asserting one, which has the empty type. */
  function TypeBreach(op: TransactOp): seq<TransactOp>
    requires op.Assert? && op.entityType == Some("")
  {
    [op, Beside(op, op.entityId + "!", op.attribute + "!", RefValue(op.entityId))]
  }

  lemma ThreeAssertions(a: TransactOp, b: TransactOp, c: TransactOp, instant: int)
    requires a.Assert? && b.Assert? && c.Assert?
    ensures Projected([], [a, b, c], instant)
      == [Asserted(a, Pending(0), instant), Asserted(b, Pending(1), instant), Asserted(c, Pending(2), instant)]
    ensures Committed([], [a, b, c], ["a", "b", "c"], instant)
      == [ReadBack(Asserted(a, Stored("a"), instant)), ReadBack(Asserted(b, Stored("b"), instant)),
          ReadBack(Asserted(c, Stored("c"), instant))]
  {
    var operations := [a, b, c];
    TwoAssertions(a, b, ["a", "b", "c"], instant);
    assert operations[..2] == [a, b];
  }

  lemma TwoAssertions(a: TransactOp, b: TransactOp, ids: seq<string>, instant: int)
    requires a.Assert? && b.Assert? && |ids| >= 2
    ensures Projected([], [a, b], instant) == [Asserted(a, Pending(0), instant), Asserted(b, Pending(1), instant)]
    ensures Committed([], [a, b], ids, instant)
      == [ReadBack(Asserted(a, Stored(ids[0]), instant)), ReadBack(Asserted(b, Stored(ids[1]), instant))]
  {
    assert [a, b][..1] == [a] && [a][..0] == [];
    assert Projected([], [a], instant) == [Asserted(a, Pending(0), instant)];
    assert Committed([], [a], ids, instant) == [ReadBack(Asserted(a, Stored(ids[0]), instant))];
  }

  /** A value claimed by one entity at most breaks no unique rule. */
  lemma OneClaimantEach(facts: seq<Triple>, entityType: string, attribute: string)
    requires forall f, g :: f in facts && g in facts && f.attribute == g.attribute == attribute && f.value == g.value
               ==> f.entityId == g.entityId
    ensures Safe(facts, [Unique(entityType, attribute)])
  {
    var rule := Unique(entityType, attribute);
    forall t: int, v ensures !Violates(facts, [rule], t, v) {
      if Breaks(facts, rule, t, v) {
        assert Claimants(facts, rule, v.valueIdentity.value, t) <= {v.subject};
        AtMostOne(Claimants(facts, rule, v.valueIdentity.value, t), v.subject);
      }
    }
  }

  lemma AtMostOne(s: set<string>, x: string)
    requires s <= {x}
    ensures |s| <= 1
  {
    if x in s {
      assert s == {x};
    } else {
      assert s == {};
    }
  }

  lemma TwoClaimants(facts: seq<Triple>, rule: Rule, f: Triple, g: Triple, t: int)
    requires rule.Unique? && f in facts && g in facts && f.entityId != g.entityId && f.value == g.value
    requires IsClaim(facts, rule, f.value, t, f) && IsClaim(facts, rule, f.value, t, g)
    ensures !Safe(facts, [rule])
  {
    var claimants := Claimants(facts, rule, f.value, t);
    assert f.entityId in claimants && g.entityId in claimants;
    assert |claimants - {f.entityId}| == |claimants| - 1 && g.entityId in claimants - {f.entityId};
    var v := Violation(KeyOf(rule), UniqueCode, f.entityId, rule.entityType, rule.attribute, |claimants|,
      Some(f.value));
    assert Breaks(facts, rule, t, v);
    assert rule in [rule] && Violates(facts, [rule], t, v);
  }

  lemma NameBreachIsChecked(op: TransactOp, instant: int)
    requires HasEmptyName(op)
    ensures Safe(Projected([], NameBreach(op), instant), [Unique("T", op.attribute)])
  {
    var operations := NameBreach(op);
    ThreeAssertions(operations[0], operations[1], operations[2], instant);
    assert op.attribute + "!" != op.attribute;
    OneClaimantEach(Projected([], operations, instant), "T", op.attribute);
  }

  lemma NameBreachIsStored(op: TransactOp)
    requires HasEmptyName(op) && !NeverVisible(op)
    ensures !Safe(Committed([], NameBreach(op), ["a", "b", "c"], Instant(op)), [Unique("T", op.attribute)])
  {
    var operations := NameBreach(op);
    ThreeAssertions(operations[0], operations[1], operations[2], Instant(op));
    assert op.entityId + "!" != op.entityId;
    var after := Committed([], operations, ["a", "b", "c"], Instant(op));
    assert VisibleAt(after[0], Start(op)) && VisibleAt(after[1], Start(op)) && VisibleAt(after[2], Start(op));
    assert after[0] in after && after[1] in after && after[2] in after;
    TwoClaimants(after, Unique("T", op.attribute), after[0], after[1], Start(op));
  }

  /** A blob without a file name beside one with an empty name: unequal when checked, equal when read back. */
  lemma EmptyNameBreaksSafety(op: TransactOp)
    requires HasEmptyName(op) && !NeverVisible(op)
    ensures ForeseenBut(op, NameBreach(op), ["a", "b", "c"])
    ensures !StaysSafe([Unique("T", op.attribute)], [], NameBreach(op), ["a", "b", "c"], Instant(op))
  {
    NameBreachIsChecked(op, Instant(op));
    OneClaimantEach([], "T", op.attribute);
    NameBreachIsStored(op);
  }

  /** Every reference of the attribute points at an entity of the type whenever it is visible. */
  lemma ReferencesHold(facts: seq<Triple>, entityType: string, attribute: string, target: string)
    requires forall f :: f in facts && f.attribute == attribute ==> f.value.RefValue? && Targeted(facts, f, target)
    ensures Safe(facts, [ReferenceTarget(entityType, attribute, target)])
  {
    var rule := ReferenceTarget(entityType, attribute, target);
    forall t: int, v ensures !Violates(facts, [rule], t, v) {
      assert !Breaks(facts, rule, t, v);
    }
  }

  predicate Targeted(facts: seq<Triple>, f: Triple, target: string)
    requires f.value.RefValue?
  {
    exists g :: g in facts && g.entityId == f.value.target && g.entityType == Some(target)
      && g.validFrom == f.validFrom && g.validTo == f.validTo
  }

  lemma DanglingBreaks(facts: seq<Triple>, rule: Rule, f: Triple, t: int)
    requires rule.ReferenceTarget? && f in facts && VisibleAt(f, t) && f.attribute == rule.attribute
    requires f.value.RefValue?
    requires f.entityType == Some(rule.entityType)
    requires forall g :: g in facts ==> g.entityType != Some(rule.targetEntityType)
    ensures !Safe(facts, [rule])
  {
    var v := Violation(KeyOf(rule), ReferenceTargetCode, f.entityId, rule.entityType, rule.attribute, 1, Some(f.value));
    assert ValuesOf(f.entityId, rule.attribute, t)(f);
    assert Breaks(facts, rule, t, v);
    assert rule in [rule] && Violates(facts, [rule], t, v);
  }

  /** A reference to an entity of the empty type: it has that type when checked, and none when read back. */
  lemma EmptyTypeBreaksSafety(op: TransactOp)
    requires op.Assert? && op.entityType == Some("") && !NeverVisible(op)
    ensures ForeseenBut(op, TypeBreach(op), ["a", "b"])
    ensures !StaysSafe([ReferenceTarget("T", op.attribute + "!", "")], [], TypeBreach(op), ["a", "b"], Instant(op))
  {
    var operations, i, rule := TypeBreach(op), Instant(op), ReferenceTarget("T", op.attribute + "!", "");
    TwoAssertions(operations[0], operations[1], ["a", "b"], i);
    assert op.attribute + "!" != op.attribute;
    var projected := Projected([], operations, i);
    assert projected[0] in projected && Targeted(projected, projected[1], "");
    ReferencesHold(projected, "T", op.attribute + "!", "");
    ReferencesHold([], "T", op.attribute + "!", "");
    var after := Committed([], operations, ["a", "b"], i);
    assert VisibleAt(after[1], Start(op)) && after[1] in after;
    DanglingBreaks(after, rule, after[1], Start(op));
  }

  // ---- Exactly these assertions ----------------------------------------------

  lemma SafeAssertionStaysSafe(rules: seq<Rule>, live: seq<Triple>, operations: seq<TransactOp>, ids: seq<string>,
                               instant: int, op: TransactOp)
    requires StoredAsChecked(op) || NeverVisible(op)
    requires ForeseenBut(op, operations, ids)
    ensures StaysSafe(rules, live, operations, ids, instant)
  {
    if StoredAsChecked(op) {
      ForeseenStaysSafe(rules, live, operations, ids, instant);
    } else {
      NeverVisibleStaysSafe(rules, live, operations, ids, instant, op);
    }
  }

  /**
   * Every accepted transaction with this assertion stays safe, in every safe store under every rule
   * set, exactly when it names no empty entity type or blob file name, or is never visible.
   */
  lemma AssertionStaysSafeIff(op: TransactOp)
    requires op.Assert?
    ensures (forall rules: seq<Rule>, live: seq<Triple>, operations: seq<TransactOp>, ids: seq<string>, instant: int
               {:trigger StaysSafe(rules, live, operations, ids, instant)} ::
               ForeseenBut(op, operations, ids) ==> StaysSafe(rules, live, operations, ids, instant))
      <==> StoredAsChecked(op) || NeverVisible(op)
  {
    if StoredAsChecked(op) || NeverVisible(op) {
      forall rules: seq<Rule>, live: seq<Triple>, operations: seq<TransactOp>, ids: seq<string>, instant: int
        | ForeseenBut(op, operations, ids)
        ensures StaysSafe(rules, live, operations, ids, instant)
      {
        SafeAssertionStaysSafe(rules, live, operations, ids, instant, op);
      }
    } else if HasEmptyName(op) {
      EmptyNameBreaksSafety(op);
    } else {
      EmptyTypeBreaksSafety(op);
    }
  }
}
