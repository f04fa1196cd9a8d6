/**
 * Which retract patterns keep an accepted transaction safe: exactly those the
 * constraint check and the adapter read alike.
 */
module PatternSafety {
  import opened Wrappers
  import opened Seqs
  import opened Triples
  import opened Constraint
  import ConstraintBoundaries
  import opened Commit

  /** The live rows of a table with a primary key. */
  ghost predicate Keyed(live: seq<Triple>) {
    UniqueIds(live) && forall f :: f in live ==> f.id.Stored?
  }

  /**
   * The operations retract by no other pattern than this one, retract no id made up by this transaction,
   * and assert what reads back as checked.
   */
  predicate RetractsOnlyBy(pattern: Pattern, operations: seq<TransactOp>, ids: seq<string>) {
    forall op :: op in operations ==>
      && (op.RetractPattern? ==> op.pattern == pattern)
      && (op.Retract? ==> op.id.Stored? && op.id.name !in ids)
      && StoredAsChecked(op)
  }

  /** If the store is safe and the check accepts the transaction, what it commits is safe. */
  ghost predicate StaysSafe(rules: seq<Rule>, live: seq<Triple>, operations: seq<TransactOp>, ids: seq<string>,
                            instant: int) {
    Keyed(live) && Safe(live, rules) && |ids| >= |operations| && Accepts(live, operations, rules, instant)
    ==> Safe(Committed(live, operations, ids, instant), rules)
  }

  lemma AcceptedFromSafeIsSafe(rules: seq<Rule>, live: seq<Triple>, operations: seq<TransactOp>, instant: int)
    requires Safe(live, rules) && Accepts(live, operations, rules, instant)
    ensures Safe(Projected(live, operations, instant), rules)
  {
    var projected := Projected(live, operations, instant);
    ConstraintBoundaries.BoundariesSuffice(live, operations, rules, instant);
    forall t: int, v ensures !Violates(projected, rules, t, v) {
      assert !Worsens(live, projected, rules, t, v);
    }
  }

  lemma RenamingKeepsSafe(rules: seq<Rule>, facts: seq<Triple>, ids: seq<string>)
    requires Safe(facts, rules)
    ensures Safe(Map(Rename(ids), facts), rules)
  {
    forall t: int, v ensures !Violates(Map(Rename(ids), facts), rules, t, v) {
      if rule :| rule in rules && Breaks(Map(Rename(ids), facts), rule, t, v) {
        RenamingKeepsViolations(ids, facts, rule, t, v);
        assert Violates(facts, rules, t, v);
      }
    }
  }

  lemma ForeseenStaysSafe(rules: seq<Rule>, live: seq<Triple>, operations: seq<TransactOp>, ids: seq<string>,
                          instant: int)
    requires Foreseen(operations, ids)
    ensures StaysSafe(rules, live, operations, ids, instant)
  {
    if Keyed(live) && Safe(live, rules) && |ids| >= |operations| && Accepts(live, operations, rules, instant) {
      CommitIsTheProjection(live, operations, ids, instant);
      AcceptedFromSafeIsSafe(rules, live, operations, instant);
      RenamingKeepsSafe(rules, Projected(live, operations, instant), ids);
    }
  }

  // ---- A breach for every inexact pattern -----------------------------------

  /** Retract by the pattern, then type the entity whose fact the pattern should not touch. */
  function BreachOperations(pattern: Pattern): seq<TransactOp>
    requires !ExactPattern(pattern)
  {
    var row := Overmatched(pattern);
    [RetractPattern(pattern), Assert(row.entityId, row.attribute + "!", StringValue(""), Some("T"), Some(0), None)]
  }

  function BreachRule(pattern: Pattern): Rule
    requires !ExactPattern(pattern)
  {
    Required("T", Overmatched(pattern).attribute)
  }

  /**
   * One fact of the attribute from instant zero on satisfies the rule for its entity, whatever else
   * is typed from then on.
   */
  lemma RequiredIsMet(facts: seq<Triple>, row: Triple, entityType: string)
    requires row in facts && row.validFrom == 0 && row.validTo.None?
    requires forall f :: f in facts ==> f.entityId == row.entityId && f.validFrom == 0
    ensures Safe(facts, [Required(entityType, row.attribute)])
  {
    forall t: int, v ensures !Violates(facts, [Required(entityType, row.attribute)], t, v) {
      if HasType(facts, v.subject, entityType, t) {
        assert row in Filter(ValuesOf(v.subject, row.attribute, t), facts);
      }
    }
  }

  lemma RequiredIsMissing(typing: Triple, entityType: string, attribute: string)
    requires typing.entityType == Some(entityType) && typing.attribute != attribute && VisibleAt(typing, 0)
    ensures !Safe([typing], [Required(entityType, attribute)])
  {
    var rule := Required(entityType, attribute);
    var v := Violation(KeyOf(rule), RequiredCode, typing.entityId, entityType, attribute, 0, None);
    assert typing in [typing];
    FilterNone(ValuesOf(typing.entityId, attribute, 0), [typing]);
    assert Breaks([typing], rule, 0, v);
    assert rule in [rule] && Violates([typing], [rule], 0, v);
  }

  lemma BreachProjects(pattern: Pattern, instant: int)
    requires !ExactPattern(pattern)
    ensures var row, operations := Overmatched(pattern), BreachOperations(pattern);
      && Projected([row], operations, instant) == [row, Asserted(operations[1], Pending(1), instant)]
      && Committed([row], operations, ["a", "b"], instant) == [Asserted(operations[1], Stored("b"), instant)]
  {
    var row, operations := Overmatched(pattern), BreachOperations(pattern);
    assert operations[..1] == [operations[0]] && operations[..1][..0] == [];
    assert Projected([row], [], instant) == [row] && Committed([row], [], ["a", "b"], instant) == [row];
    FilterAll((f: Triple) => !PatternMatches(f, pattern), [row]);
    assert Projected([row], operations[..1], instant) == [row];
    FilterNone((f: Triple) => !AdapterMatches(f, pattern), [row]);
    assert Committed([row], operations[..1], ["a", "b"], instant) == [];
  }

  /** The store before is safe, the transaction is accepted, and what it commits is not safe. */
  lemma InexactPatternBreaksSafety(pattern: Pattern, instant: int)
    requires !ExactPattern(pattern)
    ensures RetractsOnlyBy(pattern, BreachOperations(pattern), ["a", "b"])
    ensures !StaysSafe([BreachRule(pattern)], [Overmatched(pattern)], BreachOperations(pattern), ["a", "b"], instant)
  {
    var row, operations, rules := Overmatched(pattern), BreachOperations(pattern), [BreachRule(pattern)];
    BreachProjects(pattern, instant);
    RequiredIsMet([row], row, "T");
    RequiredIsMet([row, Asserted(operations[1], Pending(1), instant)], row, "T");
    assert Accepts([row], operations, rules, instant);
    assert row.attribute + "!" != row.attribute;
    RequiredIsMissing(Asserted(operations[1], Stored("b"), instant), "T", row.attribute);
  }

  /**
   * Every accepted transaction retracting by the pattern stays safe, in every safe store under
   * every rule set, exactly when it is exact.
   */
  lemma PatternStaysSafeIff(pattern: Pattern)
    ensures (forall rules: seq<Rule>, live: seq<Triple>, operations: seq<TransactOp>, ids: seq<string>, instant: int
               {:trigger StaysSafe(rules, live, operations, ids, instant)} ::
               RetractsOnlyBy(pattern, operations, ids) ==> StaysSafe(rules, live, operations, ids, instant))
      <==> ExactPattern(pattern)
  {
    if ExactPattern(pattern) {
      forall rules: seq<Rule>, live: seq<Triple>, operations: seq<TransactOp>, ids: seq<string>, instant: int
        | RetractsOnlyBy(pattern, operations, ids)
        ensures StaysSafe(rules, live, operations, ids, instant)
      {
        ForeseenStaysSafe(rules, live, operations, ids, instant);
      }
    } else {
      InexactPatternBreaksSafety(pattern, 0);
    }
  }
}
