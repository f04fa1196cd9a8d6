/**
 * Plans committed against other facts than they were made on: after another
 * revalidation committed first, or under a clock that stepped back.
 */
module EntityValidationRaces {
  import opened Wrappers
  import opened Seqs
  import opened EntityValidation
  import opened EntityValidationProofs
  import opened EntityValidationRuns
  import opened EntityValidationHealth

  ghost predicate Live(facts: seq<Fact>, id: string) {
    exists f :: f in facts && f.id == id
  }

  /** Every id the operations retract is demanded to be still live. */
  ghost predicate PreconditionsHold(facts: seq<Fact>, ops: seq<Op>) {
    forall id :: RetractOp(id) in ops ==> Live(facts, id)
  }

  /** An id names the same fact in both; ids are never used again. */
  ghost predicate SameIds(a: seq<Fact>, b: seq<Fact>) {
    forall f, g :: f in a && g in b && f.id == g.id ==> f == g
  }

  // ---- What a plan retracts, it has seen ------------------------------------

  /** The fact is a result of a head that moves, a result of a head no longer observed, or of the checkpoint. */
  ghost predicate Retracts(facts: seq<Fact>, input: Input, f: Fact) {
    || (exists o ::
          o in input.observations && f in Targets(facts, input.ref, HeadOf(input, o)) && !PointsAt(facts, input, o))
    || (f.entity !in ActiveHeads(input, input.observations) && f.attribute.ResultOf?)
    || f.entity.CheckpointEntity?
  }

  lemma RetractionsComeFromRows(rows: seq<Fact>, id: string) returns (f: Fact)
    requires RetractOp(id) in Retractions(rows)
    ensures f in rows && f.id == id
  {
    f :| f in rows && RetractOf()(f) == RetractOp(id);
  }

  lemma {:induction false} ClearedFactsWereSeen(facts: seq<Fact>, input: Input, heads: seq<Entity>,
                                                id: string) returns (f: Fact)
    requires RetractOp(id) in ClearInactive(facts, input, heads)
    ensures f in facts && f.id == id && Retracts(facts, input, f)
  {
    var last := |heads| - 1;
    if RetractOp(id) in ClearInactive(facts, input, heads[..last]) {
      f := ClearedFactsWereSeen(facts, input, heads[..last], id);
    } else {
      f := RetractionsComeFromRows(Rows(facts, heads[last], ResultOf), id);
    }
  }

  lemma MovedTargetsWereSeen(facts: seq<Fact>, input: Input, o: Observation, id: string) returns (f: Fact)
    requires RetractOp(id) in Observe(facts, input, o)
    ensures f in Targets(facts, input.ref, HeadOf(input, o)) && f.id == id && !PointsAt(facts, input, o)
  {
    ViolationsOnlyAssert(facts, input, o, |o.issues|);
    ResultOnlyAsserts(facts, input, o);
    HeadOnlyAsserts(input, o);
    f := RetractionsComeFromRows(Targets(facts, input.ref, HeadOf(input, o)), id);
  }

  lemma MovedCheckpointWasSeen(facts: seq<Fact>, input: Input, id: string) returns (f: Fact)
    requires RetractOp(id) in MoveCheckpoint(facts, input)
    ensures f in facts && f.id == id && f.entity.CheckpointEntity?
  {
    f := RetractionsComeFromRows(CheckpointRows(facts, input.ref), id);
  }

  lemma RetractionParts(facts: seq<Fact>, input: Input, op: Op)
    requires op in Plan(facts, input) && op.RetractOp?
    ensures op in ObserveAll(facts, input, input.observations)
      || op in ClearInactive(facts, input, RefHeads(facts, input.ref))
      || op in MoveCheckpoint(facts, input)
  {
    RunOnlyAsserts(facts, input);
  }

  lemma RetractedFactsWereSeen(facts: seq<Fact>, input: Input, id: string) returns (f: Fact)
    requires RetractOp(id) in Plan(facts, input)
    ensures f in facts && f.id == id && Retracts(facts, input, f)
  {
    var op := RetractOp(id);
    RetractionParts(facts, input, op);
    if op in ObserveAll(facts, input, input.observations) {
      var i := SomeObservation(facts, input, input.observations, op);
      f := MovedTargetsWereSeen(facts, input, input.observations[i], id);
      assert input.observations[i] in input.observations;
    } else if op in ClearInactive(facts, input, RefHeads(facts, input.ref)) {
      f := ClearedFactsWereSeen(facts, input, RefHeads(facts, input.ref), id);
    } else {
      f := MovedCheckpointWasSeen(facts, input, id);
    }
  }

  // ---- A plan on other facts ------------------------------------------------

  lemma MovesAssertTheResult(facts: seq<Fact>, input: Input, i: nat)
    requires DistinctSubjects(input.observations) && i < |input.observations|
    ensures var o := input.observations[i];
      Asserted(Plan(facts, input), HeadOf(input, o), ResultOf)
        == if PointsAt(facts, input, o) then [] else [To(ResultEntity(ResultIdOf(input, o)))]
  {
    var head := HeadOf(input, input.observations[i]);
    PlanAssertsOnHead(facts, input, head);
    SubjectsAreDistinct(input, i);
    ObservedHeadsGetOne(facts, input, input.observations, i, head);
  }

  lemma OnlyItsObservationMovesAHead(seen: seq<Fact>, input: Input, i: nat, f: Fact)
    requires DistinctSubjects(input.observations) && i < |input.observations|
    requires Retracts(seen, input, f) && f.entity == HeadOf(input, input.observations[i])
    ensures f in Targets(seen, input.ref, f.entity) && !PointsAt(seen, input, input.observations[i])
  {
    SubjectsAreDistinct(input, i);
    var o :| o in input.observations && f in Targets(seen, input.ref, HeadOf(input, o)) && !PointsAt(seen, input, o);
    var j :| 0 <= j < |input.observations| && input.observations[j] == o;
  }

  /** The rows of an observed head go only if the plan has seen a result of the head that is not the right one. */
  lemma StalePlanSpares(seen: seq<Fact>, facts: seq<Fact>, input: Input, i: nat)
    requires DistinctSubjects(input.observations) && i < |input.observations| && SameIds(seen, facts)
    requires var o := input.observations[i];
      PointsAt(seen, input, o) || Targets(seen, input.ref, HeadOf(input, o)) == []
    ensures NoneGone(Plan(seen, input), Rows(facts, HeadOf(input, input.observations[i]), ResultOf))
  {
    var head := HeadOf(input, input.observations[i]);
    forall f | f in Rows(facts, head, ResultOf) ensures RetractOp(f.id) !in Plan(seen, input) {
      if RetractOp(f.id) in Plan(seen, input) {
        var g := RetractedFactsWereSeen(seen, input, f.id);
        OnlyItsObservationMovesAHead(seen, input, i, g);
      }
    }
  }

  lemma TargetIsRetracted(seen: seq<Fact>, input: Input, i: nat, t: Fact)
    requires i < |input.observations| && !PointsAt(seen, input, input.observations[i])
    requires t in Targets(seen, input.ref, HeadOf(input, input.observations[i]))
    ensures RetractOp(t.id) in Plan(seen, input)
  {
    var o := input.observations[i];
    assert RetractOf()(t) in Retractions(Targets(seen, input.ref, HeadOf(input, o)));
    assert RetractOp(t.id) in MoveHead(seen, input, o);
    EveryObservation(seen, input, input.observations, i, RetractOp(t.id));
  }

  lemma RetractedIsStillThere(seen: seq<Fact>, facts: seq<Fact>, ops: seq<Op>, t: Fact)
    requires PreconditionsHold(facts, ops) && RetractOp(t.id) in ops && t in seen && SameIds(seen, facts)
    ensures t in facts
  {
    var g :| g in facts && g.id == t.id;
  }

  lemma OnlyRow(facts: seq<Fact>, head: Entity, f: Fact)
    requires Healthy(facts) && head.HeadEntity? && f in Rows(facts, head, ResultOf)
    ensures Rows(facts, head, ResultOf) == [f]
  {
    assert IsPointer(head, ResultOf) && |Values(facts, head, ResultOf)| == |Rows(facts, head, ResultOf)|;
  }

  lemma RetractedRowIsTheOnly(facts: seq<Fact>, ops: seq<Op>, head: Entity, t: Fact)
    requires Healthy(facts) && head.HeadEntity? && t in Rows(facts, head, ResultOf) && RetractOp(t.id) in ops
    ensures AllGone(ops, Rows(facts, head, ResultOf))
  {
    OnlyRow(facts, head, t);
  }

  lemma StalePlanClears(seen: seq<Fact>, facts: seq<Fact>, input: Input, i: nat)
    requires Healthy(facts) && i < |input.observations| && SameIds(seen, facts)
    requires PreconditionsHold(facts, Plan(seen, input))
    requires var o := input.observations[i];
      !PointsAt(seen, input, o) && Targets(seen, input.ref, HeadOf(input, o)) != []
    ensures AllGone(Plan(seen, input), Rows(facts, HeadOf(input, input.observations[i]), ResultOf))
  {
    var head := HeadOf(input, input.observations[i]);
    var t := Targets(seen, input.ref, head)[0];
    assert t in Rows(seen, head, ResultOf);
    TargetIsRetracted(seen, input, i, t);
    RetractedIsStillThere(seen, facts, Plan(seen, input), t);
    RetractedRowIsTheOnly(facts, Plan(seen, input), head, t);
  }

  /** The results of a head after a plan made on other facts: kept, replaced, or joined by a second one. */
  function ResultsAfter(seen: seq<Fact>, facts: seq<Fact>, input: Input, o: Observation): seq<Value> {
    var head, result := HeadOf(input, o), To(ResultEntity(ResultIdOf(input, o)));
    if PointsAt(seen, input, o) then Values(facts, head, ResultOf)
    else if Targets(seen, input.ref, head) != [] then [result]
    else Values(facts, head, ResultOf) + [result]
  }

  /** A plan made on facts it saw, committed against others that still hold all it retracts. */
  lemma StalePlanLeaves(seen: seq<Fact>, facts: seq<Fact>, input: Input, i: nat, ids: seq<string>)
    requires Healthy(facts) && DistinctSubjects(input.observations) && i < |input.observations| && SameIds(seen, facts)
    requires PreconditionsHold(facts, Plan(seen, input)) && Generated(facts, Plan(seen, input), ids)
    ensures var o := input.observations[i];
      Values(ApplyOps(facts, Plan(seen, input), ids), HeadOf(input, o), ResultOf) == ResultsAfter(seen, facts, input, o)
  {
    var o := input.observations[i];
    MovesAssertTheResult(seen, input, i);
    if PointsAt(seen, input, o) || Targets(seen, input.ref, HeadOf(input, o)) == [] {
      StalePlanSpares(seen, facts, input, i);
      Extended(facts, Plan(seen, input), ids, HeadOf(input, o), ResultOf);
    } else {
      StalePlanClears(seen, facts, input, i);
      Replaced(facts, Plan(seen, input), ids, HeadOf(input, o), ResultOf);
    }
  }

  lemma SingleResults(facts: seq<Fact>, head: Entity)
    requires Healthy(facts) && head.HeadEntity?
    ensures |Values(facts, head, ResultOf)| == |Rows(facts, head, ResultOf)| <= 1
  {
    assert IsPointer(head, ResultOf);
  }

  /** A stale plan leaves an observed head at most one result exactly when it saw one, or there is none. */
  lemma StalePlanKeepsOneIff(seen: seq<Fact>, facts: seq<Fact>, input: Input, i: nat, ids: seq<string>)
    requires Healthy(facts) && DistinctSubjects(input.observations) && i < |input.observations| && SameIds(seen, facts)
    requires PreconditionsHold(facts, Plan(seen, input)) && Generated(facts, Plan(seen, input), ids)
    ensures var head := HeadOf(input, input.observations[i]);
      |Values(ApplyOps(facts, Plan(seen, input), ids), head, ResultOf)| <= 1
      <==> Targets(seen, input.ref, head) != [] || Rows(facts, head, ResultOf) == []
  {
    var o := input.observations[i];
    StalePlanLeaves(seen, facts, input, i, ids);
    SingleResults(facts, HeadOf(input, o));
    if PointsAt(seen, input, o) {
      assert Targets(seen, input.ref, HeadOf(input, o)) != [];
    }
  }

  // ---- Two revalidations at once --------------------------------------------

  /** Of two plans that retract the same fact, the one committed second is refused. */
  lemma RacingMovesConflict(facts: seq<Fact>, first: seq<Op>, ids: seq<string>, second: seq<Op>, id: string)
    requires Generated(facts, first, ids) && RetractOp(id) in first && RetractOp(id) in second
    ensures !PreconditionsHold(ApplyOps(facts, first, ids), second)
  {
    AppliedIsKeptAndCreated(facts, first, ids);
    assert !Live(ApplyOps(facts, first, ids), id);
  }

  lemma CommittingKeepsIds(facts: seq<Fact>, ops: seq<Op>, ids: seq<string>)
    requires UniqueIds(facts) && Generated(facts, ops, ids)
    ensures SameIds(facts, ApplyOps(facts, ops, ids))
  {
    AppliedIsKeptAndCreated(facts, ops, ids);
    forall f, g | f in facts && g in ApplyOps(facts, ops, ids) && f.id == g.id ensures f == g {
      assert g in facts;
      var i :| 0 <= i < |facts| && facts[i] == f;
      var j :| 0 <= j < |facts| && facts[j] == g;
    }
  }

  lemma TaggedTargets(facts: seq<Fact>, input: Input, o: Observation)
    requires Healthy(facts)
    ensures Targets(facts, input.ref, HeadOf(input, o)) == Rows(facts, HeadOf(input, o), ResultOf)
  {
    var head := HeadOf(input, o);
    if Rows(facts, head, ResultOf) != [] {
      assert Rows(facts, head, ResultOf)[0] in facts;
    }
  }

  lemma FirstPlanIsHealthy(facts: seq<Fact>, a: Input, ids: seq<string>, i: nat)
    requires Healthy(facts) && DistinctSubjects(a.observations) && i < |a.observations|
    requires Generated(facts, Plan(facts, a), ids)
    ensures var after := ApplyOps(facts, Plan(facts, a), ids);
      Healthy(after) && |Values(after, HeadOf(a, a.observations[i]), ResultOf)| == 1
      && |Rows(after, HeadOf(a, a.observations[i]), ResultOf)| == 1 && SameIds(facts, after)
  {
    var after := ApplyOps(facts, Plan(facts, a), ids);
    RevalidationKeepsHealth(facts, a, ids);
    ActiveHeadPointsAtItsResult(facts, a, ids, i);
    SingleResults(after, HeadOf(a, a.observations[i]));
    CommittingKeepsIds(facts, Plan(facts, a), ids);
  }

  /**
   * When two revalidations planned on the same facts both commit, a head they
   * both observe is left with one result exactly when it had one to start with.
   */
  lemma RacingValidationsKeepOneIff(facts: seq<Fact>, a: Input, b: Input, i: nat, j: nat, idsA: seq<string>,
                                    idsB: seq<string>)
    requires Healthy(facts) && DistinctSubjects(a.observations) && DistinctSubjects(b.observations)
    requires i < |a.observations| && j < |b.observations|
    requires HeadOf(a, a.observations[i]) == HeadOf(b, b.observations[j])
    requires Generated(facts, Plan(facts, a), idsA)
    requires Generated(ApplyOps(facts, Plan(facts, a), idsA), Plan(facts, b), idsB)
    requires PreconditionsHold(ApplyOps(facts, Plan(facts, a), idsA), Plan(facts, b))
    ensures var head := HeadOf(a, a.observations[i]);
      var after := ApplyOps(ApplyOps(facts, Plan(facts, a), idsA), Plan(facts, b), idsB);
      |Values(after, head, ResultOf)| == 1 <==> Rows(facts, head, ResultOf) != []
  {
    var between := ApplyOps(facts, Plan(facts, a), idsA);
    FirstPlanIsHealthy(facts, a, idsA, i);
    TaggedTargets(facts, b, b.observations[j]);
    StalePlanLeaves(facts, between, b, j, idsB);
  }
}
