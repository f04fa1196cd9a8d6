/**
 * Revalidation as a state machine: each head keeps at most one live result over
 * every run, and a second revalidation of unchanged sources changes nothing.
 */
module EntityValidationRuns {
  import opened Wrappers
  import opened Seqs
  import opened EntityValidation
  import opened EntityValidationProofs

  // ---- What a plan retracts -----------------------------------------------

  ghost predicate HeadStays(facts: seq<Fact>, input: Input, head: Entity) {
    exists o :: o in input.observations && HeadOf(input, o) == head && PointsAt(facts, input, o)
  }

  /** The facts a plan moves away: results of the ref's heads, and a checkpoint that is not current. */
  ghost predicate Moves(facts: seq<Fact>, input: Input, f: Fact) {
    match f.entity
    case HeadEntity(ref, _, _) => ref == input.ref && f.attribute.ResultOf? && !HeadStays(facts, input, f.entity)
    case CheckpointEntity(ref) => ref == input.ref && IsPointer(f.entity, f.attribute)
      && !CheckpointIsCurrent(facts, input)
    case _ => false
  }

  lemma RunOnlyAsserts(facts: seq<Fact>, input: Input)
    ensures forall op :: op in NewRun(facts, input) ==> op.AssertOp? && op.entity == RunEntity(RunIdOf(input))
  {
    RunResultsOnlyAssert(RunEntity(RunIdOf(input)), ResultIds(input, input.observations));
  }

  lemma ObservedMoves(facts: seq<Fact>, input: Input, f: Fact)
    requires UniqueIds(facts) && HeadsAreTagged(facts) && f in facts && DistinctSubjects(input.observations)
    requires RetractOp(f.id) in ObserveAll(facts, input, input.observations)
    ensures f.attribute.ResultOf? && f.entity in ActiveHeads(input, input.observations)
    ensures !HeadStays(facts, input, f.entity)
  {
    var os := input.observations;
    var i := SomeObservation(facts, input, os, RetractOp(f.id));
    ObserveMoves(facts, input, os[i], f);
    assert os[i] in os;
  }

  lemma MovesAreObserved(facts: seq<Fact>, input: Input, f: Fact)
    requires UniqueIds(facts) && HeadsAreTagged(facts) && f in facts
    requires f.attribute.ResultOf? && f.entity in ActiveHeads(input, input.observations)
    requires !HeadStays(facts, input, f.entity)
    ensures RetractOp(f.id) in ObserveAll(facts, input, input.observations)
  {
    var os := input.observations;
    var o :| o in os && HeadOf(input, o) == f.entity;
    var i :| 0 <= i < |os| && os[i] == o;
    ObserveMoves(facts, input, o, f);
    EveryObservation(facts, input, os, i, RetractOp(f.id));
  }

  lemma ObserveAllMoves(facts: seq<Fact>, input: Input, f: Fact)
    requires UniqueIds(facts) && HeadsAreTagged(facts) && f in facts && DistinctSubjects(input.observations)
    ensures RetractOp(f.id) in ObserveAll(facts, input, input.observations)
      <==>
      f.attribute.ResultOf? && f.entity in ActiveHeads(input, input.observations) && !HeadStays(facts, input, f.entity)
  {
    if RetractOp(f.id) in ObserveAll(facts, input, input.observations) {
      ObservedMoves(facts, input, f);
    }
    if f.attribute.ResultOf? && f.entity in ActiveHeads(input, input.observations)
      && !HeadStays(facts, input, f.entity) {
      MovesAreObserved(facts, input, f);
    }
  }

  lemma StayingHeadsAreActive(facts: seq<Fact>, input: Input, head: Entity)
    ensures HeadStays(facts, input, head) ==> head in ActiveHeads(input, input.observations)
  {
  }

  /** A plan retracts exactly the facts it moves. */
  lemma PlanMoves(facts: seq<Fact>, input: Input, f: Fact)
    requires UniqueIds(facts) && HeadsAreTagged(facts) && f in facts && DistinctSubjects(input.observations)
    ensures RetractOp(f.id) in Plan(facts, input) <==> Moves(facts, input, f)
  {
    ObserveAllMoves(facts, input, f);
    ClearInactiveMoves(facts, input, RefHeads(facts, input.ref), f);
    RefHeadsAreTheTagged(facts, input.ref, f);
    RunOnlyAsserts(facts, input);
    MoveCheckpointMoves(facts, input, f);
    StayingHeadsAreActive(facts, input, f.entity);
  }

  // ---- What a plan asserts ------------------------------------------------

  lemma MoveHeadAsserts(facts: seq<Fact>, input: Input, o: Observation)
    ensures Asserted(MoveHead(facts, input, o), HeadOf(input, o), ResultOf)
      == if PointsAt(facts, input, o) then [] else [To(ResultEntity(ResultIdOf(input, o)))]
  {
    var head, result := HeadOf(input, o), To(ResultEntity(ResultIdOf(input, o)));
    if !PointsAt(facts, input, o) {
      var made := if IsRefHead(facts, input.ref, head) then [] else AssertHead(input, o);
      RetractionsOnlyRetract(Targets(facts, input.ref, head));
      OnlyTheLastAsserts(Retractions(Targets(facts, input.ref, head)), made, [AssertOp(head, ResultOf, result)], head,
                         ResultOf);
      OneAsserted(head, ResultOf, result);
    }
  }

  lemma OneAsserted(entity: Entity, attribute: Attribute, value: Value)
    ensures Asserted([AssertOp(entity, attribute, value)], entity, attribute) == [value]
  {
    assert Asserted([], entity, attribute) == [];
    assert [AssertOp(entity, attribute, value)][..0] == [];
  }

  /** The results one observation makes a head point at. */
  function NewTargets(facts: seq<Fact>, input: Input, o: Observation, head: Entity): seq<Value> {
    if head != HeadOf(input, o) || PointsAt(facts, input, o) then [] else [To(ResultEntity(ResultIdOf(input, o)))]
  }

  function AllNewTargets(facts: seq<Fact>, input: Input, observations: seq<Observation>, head: Entity): seq<Value> {
    if observations == [] then []
    else
      var last := |observations| - 1;
      AllNewTargets(facts, input, observations[..last], head) + NewTargets(facts, input, observations[last], head)
  }

  lemma ObserveAsserts(facts: seq<Fact>, input: Input, o: Observation, head: Entity)
    requires head.HeadEntity?
    ensures Asserted(Observe(facts, input, o), head, ResultOf) == NewTargets(facts, input, o, head)
  {
    var violations, result, move :=
      NewViolations(facts, input, o, |o.issues|), NewResult(facts, input, o), MoveHead(facts, input, o);
    AssertedConcat(violations + result, move, head, ResultOf);
    AssertedConcat(violations, result, head, ResultOf);
    ViolationsOnlyAssert(facts, input, o, |o.issues|);
    NothingAsserted(violations, head, ResultOf);
    ResultOnlyAsserts(facts, input, o);
    NothingAsserted(result, head, ResultOf);
    if head == HeadOf(input, o) {
      MoveHeadAsserts(facts, input, o);
    } else {
      MoveHeadLeaves(facts, input, o);
      NothingAsserted(move, head, ResultOf);
    }
  }

  lemma {:induction false} ObserveAllAsserts(facts: seq<Fact>, input: Input, observations: seq<Observation>,
                                             head: Entity)
    requires head.HeadEntity?
    ensures Asserted(ObserveAll(facts, input, observations), head, ResultOf)
      == AllNewTargets(facts, input, observations, head)
  {
    if observations != [] {
      var last := |observations| - 1;
      ObserveAllAsserts(facts, input, observations[..last], head);
      ObserveAsserts(facts, input, observations[last], head);
      AssertedConcat(ObserveAll(facts, input, observations[..last]), Observe(facts, input, observations[last]), head,
                     ResultOf);
    }
  }

  lemma {:induction false} UnobservedHeadsGetNothing(facts: seq<Fact>, input: Input, observations: seq<Observation>,
        head: Entity)
    requires head !in ActiveHeads(input, observations)
    ensures AllNewTargets(facts, input, observations, head) == []
  {
    if observations != [] {
      var last := |observations| - 1;
      assert observations[last] in observations;
      UnobservedHeadsGetNothing(facts, input, observations[..last], head);
    }
  }

  ghost predicate OnlyAt(input: Input, observations: seq<Observation>, i: nat, head: Entity) {
    i < |observations| && forall j :: 0 <= j < |observations| ==> (HeadOf(input, observations[j]) == head <==> j == i)
  }

  lemma {:induction false} ObservedHeadsGetOne(facts: seq<Fact>, input: Input, observations: seq<Observation>, i: nat,
                                               head: Entity)
    requires OnlyAt(input, observations, i, head)
    ensures AllNewTargets(facts, input, observations, head) == NewTargets(facts, input, observations[i], head)
  {
    var last := |observations| - 1;
    if i < last {
      ObservedHeadsGetOne(facts, input, observations[..last], i, head);
    } else {
      UnobservedHeadsGetNothing(facts, input, observations[..last], head);
    }
  }

  lemma CheckpointLeavesHeads(facts: seq<Fact>, input: Input, head: Entity)
    requires head.HeadEntity?
    ensures Leaves(MoveCheckpoint(facts, input), head, ResultOf)
  {
    RetractionsOnlyRetract(CheckpointRows(facts, input.ref));
  }

  lemma PlanParts(facts: seq<Fact>, input: Input, entity: Entity, attribute: Attribute)
    ensures Asserted(Plan(facts, input), entity, attribute)
      == Asserted(ObserveAll(facts, input, input.observations), entity, attribute)
         + Asserted(ClearInactive(facts, input, RefHeads(facts, input.ref)), entity, attribute)
         + Asserted(NewRun(facts, input), entity, attribute)
         + Asserted(MoveCheckpoint(facts, input), entity, attribute)
  {
    var a, b := ObserveAll(facts, input, input.observations), ClearInactive(facts, input, RefHeads(facts, input.ref));
    var c, d := NewRun(facts, input), MoveCheckpoint(facts, input);
    AssertedConcat(a, b, entity, attribute);
    AssertedConcat(a + b, c, entity, attribute);
    AssertedConcat(a + b + c, d, entity, attribute);
  }

  lemma {:induction false} ClearInactiveOnlyRetracts(facts: seq<Fact>, input: Input, heads: seq<Entity>)
    ensures forall op :: op in ClearInactive(facts, input, heads) ==> op.RetractOp?
  {
    if heads != [] {
      ClearInactiveOnlyRetracts(facts, input, heads[..|heads| - 1]);
      RetractionsOnlyRetract(Rows(facts, heads[|heads| - 1], ResultOf));
    }
  }

  lemma PlanAssertsOnHead(facts: seq<Fact>, input: Input, head: Entity)
    requires head.HeadEntity?
    ensures Asserted(Plan(facts, input), head, ResultOf) == AllNewTargets(facts, input, input.observations, head)
  {
    PlanParts(facts, input, head, ResultOf);
    ObserveAllAsserts(facts, input, input.observations, head);
    ClearInactiveOnlyRetracts(facts, input, RefHeads(facts, input.ref));
    NothingAsserted(ClearInactive(facts, input, RefHeads(facts, input.ref)), head, ResultOf);
    RunOnlyAsserts(facts, input);
    NothingAsserted(NewRun(facts, input), head, ResultOf);
    CheckpointLeavesHeads(facts, input, head);
    NothingAsserted(MoveCheckpoint(facts, input), head, ResultOf);
  }

  // ---- Heads after a revalidation -----------------------------------------

  lemma PointingIsTheOnlyResult(facts: seq<Fact>, input: Input, o: Observation)
    requires Healthy(facts) && PointsAt(facts, input, o)
    ensures Values(facts, HeadOf(input, o), ResultOf) == [To(ResultEntity(ResultIdOf(input, o)))]
  {
    assert IsPointer(HeadOf(input, o), ResultOf);
    assert Values(facts, HeadOf(input, o), ResultOf) == Map(ValueOf(), Targets(facts, input.ref, HeadOf(input, o)));
  }

  lemma SubjectsAreDistinct(input: Input, i: nat)
    requires DistinctSubjects(input.observations) && i < |input.observations|
    ensures OnlyAt(input, input.observations, i, HeadOf(input, input.observations[i]))
  {
  }

  lemma HeadStaysIffItPoints(facts: seq<Fact>, input: Input, i: nat)
    requires DistinctSubjects(input.observations) && i < |input.observations|
    ensures HeadStays(facts, input, HeadOf(input, input.observations[i]))
      <==> PointsAt(facts, input, input.observations[i])
  {
    SubjectsAreDistinct(input, i);
  }

  lemma ActiveHeadMoves(facts: seq<Fact>, input: Input, i: nat, f: Fact)
    requires UniqueIds(facts) && HeadsAreTagged(facts) && f in facts && DistinctSubjects(input.observations)
    requires i < |input.observations| && f.entity == HeadOf(input, input.observations[i]) && f.attribute == ResultOf
    ensures RetractOp(f.id) in Plan(facts, input) <==> !PointsAt(facts, input, input.observations[i])
  {
    PlanMoves(facts, input, f);
    HeadStaysIffItPoints(facts, input, i);
  }

  lemma ActiveRowsMove(facts: seq<Fact>, input: Input, i: nat)
    requires UniqueIds(facts) && HeadsAreTagged(facts) && DistinctSubjects(input.observations)
    requires i < |input.observations|
    ensures var o := input.observations[i];
      var rows := Rows(facts, HeadOf(input, o), ResultOf);
      if PointsAt(facts, input, o) then NoneGone(Plan(facts, input), rows) else AllGone(Plan(facts, input), rows)
  {
    forall f | f in Rows(facts, HeadOf(input, input.observations[i]), ResultOf)
      ensures RetractOp(f.id) in Plan(facts, input) <==> !PointsAt(facts, input, input.observations[i])
    {
      ActiveHeadMoves(facts, input, i, f);
    }
  }

  lemma InactiveRowMoves(facts: seq<Fact>, input: Input, head: Entity, f: Fact)
    requires UniqueIds(facts) && HeadsAreTagged(facts) && DistinctSubjects(input.observations)
    requires head.HeadEntity? && head.ref == input.ref && head !in ActiveHeads(input, input.observations)
    requires f in facts && f.entity == head && f.attribute == ResultOf
    ensures RetractOp(f.id) in Plan(facts, input)
  {
    PlanMoves(facts, input, f);
    StayingHeadsAreActive(facts, input, head);
  }

  lemma InactiveRowsGo(facts: seq<Fact>, input: Input, head: Entity)
    requires UniqueIds(facts) && HeadsAreTagged(facts) && DistinctSubjects(input.observations)
    requires head.HeadEntity? && head.ref == input.ref && head !in ActiveHeads(input, input.observations)
    ensures AllGone(Plan(facts, input), Rows(facts, head, ResultOf))
  {
    forall f | f in Rows(facts, head, ResultOf) ensures RetractOp(f.id) in Plan(facts, input) {
      InactiveRowMoves(facts, input, head, f);
    }
  }

  lemma UnmovedRowsStay(facts: seq<Fact>, input: Input, entity: Entity, attribute: Attribute)
    requires UniqueIds(facts) && HeadsAreTagged(facts) && DistinctSubjects(input.observations)
    requires forall f :: f in Rows(facts, entity, attribute) ==> !Moves(facts, input, f)
    ensures NoneGone(Plan(facts, input), Rows(facts, entity, attribute))
  {
    forall f | f in Rows(facts, entity, attribute) ensures RetractOp(f.id) !in Plan(facts, input) {
      PlanMoves(facts, input, f);
    }
  }

  /** The head of an observed subject points at its result, and at nothing else. */
  lemma ActiveHeadPointsAtItsResult(facts: seq<Fact>, input: Input, ids: seq<string>, i: nat)
    requires Healthy(facts) && DistinctSubjects(input.observations) && i < |input.observations|
    requires Generated(facts, Plan(facts, input), ids)
    ensures var o := input.observations[i];
      Values(ApplyOps(facts, Plan(facts, input), ids), HeadOf(input, o), ResultOf)
        == [To(ResultEntity(ResultIdOf(input, o)))]
  {
    var o := input.observations[i];
    var head := HeadOf(input, o);
    PlanAssertsOnHead(facts, input, head);
    SubjectsAreDistinct(input, i);
    ObservedHeadsGetOne(facts, input, input.observations, i, head);
    ActiveRowsMove(facts, input, i);
    if PointsAt(facts, input, o) {
      PointingIsTheOnlyResult(facts, input, o);
      Unchanged(facts, Plan(facts, input), ids, head, ResultOf);
    } else {
      Replaced(facts, Plan(facts, input), ids, head, ResultOf);
    }
  }

  /** A head of the ref whose subject is no longer observed points at nothing. */
  lemma InactiveHeadsAreCleared(facts: seq<Fact>, input: Input, ids: seq<string>, head: Entity)
    requires Healthy(facts) && DistinctSubjects(input.observations)
    requires Generated(facts, Plan(facts, input), ids)
    requires head.HeadEntity? && head.ref == input.ref && head !in ActiveHeads(input, input.observations)
    ensures Values(ApplyOps(facts, Plan(facts, input), ids), head, ResultOf) == []
  {
    PlanAssertsOnHead(facts, input, head);
    UnobservedHeadsGetNothing(facts, input, input.observations, head);
    InactiveRowsGo(facts, input, head);
    Replaced(facts, Plan(facts, input), ids, head, ResultOf);
  }

  /** Heads of other refs stay as they are. */
  lemma OtherRefsStay(facts: seq<Fact>, input: Input, ids: seq<string>, head: Entity)
    requires Healthy(facts) && DistinctSubjects(input.observations)
    requires Generated(facts, Plan(facts, input), ids) && head.HeadEntity? && head.ref != input.ref
    ensures Values(ApplyOps(facts, Plan(facts, input), ids), head, ResultOf) == Values(facts, head, ResultOf)
  {
    PlanAssertsOnHead(facts, input, head);
    UnobservedHeadsGetNothing(facts, input, input.observations, head);
    UnmovedRowsStay(facts, input, head, ResultOf);
    Unchanged(facts, Plan(facts, input), ids, head, ResultOf);
  }

  // ---- The checkpoint after a revalidation --------------------------------

  function CheckpointValue(input: Input, attribute: Attribute): Value {
    match attribute
    case ResultOf => To(RunEntity(RunIdOf(input)))
    case SnapshotOf => To(SnapshotEntity(input.snapshot.id))
    case _ => Number(input.sourcePosition)
  }

  lemma AssertCheckpointAsserts(input: Input, attribute: Attribute)
    requires IsPointer(CheckpointEntity(input.ref), attribute)
    ensures Asserted(AssertCheckpoint(input), CheckpointEntity(input.ref), attribute)
      == [CheckpointValue(input, attribute)]
  {
    var ops := AssertCheckpoint(input);
    assert ops == [ops[0]] + [ops[1]] + [ops[2]];
    AssertedConcat([ops[0]] + [ops[1]], [ops[2]], CheckpointEntity(input.ref), attribute);
    AssertedConcat([ops[0]], [ops[1]], CheckpointEntity(input.ref), attribute);
  }

  lemma OnlyTheLastAsserts(a: seq<Op>, b: seq<Op>, c: seq<Op>, entity: Entity, attribute: Attribute)
    requires Leaves(a, entity, attribute) && Leaves(b, entity, attribute)
    ensures Asserted(a + b + c, entity, attribute) == Asserted(c, entity, attribute)
  {
    AssertedConcat(a + b, c, entity, attribute);
    AssertedConcat(a, b, entity, attribute);
    NothingAsserted(a, entity, attribute);
    NothingAsserted(b, entity, attribute);
  }

  lemma MoveCheckpointAsserts(facts: seq<Fact>, input: Input, attribute: Attribute)
    requires IsPointer(CheckpointEntity(input.ref), attribute)
    ensures Asserted(MoveCheckpoint(facts, input), CheckpointEntity(input.ref), attribute)
      == if CheckpointIsCurrent(facts, input) then [] else [CheckpointValue(input, attribute)]
  {
    RetractionsOnlyRetract(CheckpointRows(facts, input.ref));
    OnlyTheLastAsserts(Retractions(CheckpointRows(facts, input.ref)), TagCheckpoint(facts, input.ref),
                       AssertCheckpoint(input),
                       CheckpointEntity(input.ref), attribute);
    AssertCheckpointAsserts(input, attribute);
  }

  lemma ObserveAllLeaves(facts: seq<Fact>, input: Input, observations: seq<Observation>, ref: string,
                         attribute: Attribute)
    ensures Leaves(ObserveAll(facts, input, observations), CheckpointEntity(ref), attribute)
  {
    forall op | op in ObserveAll(facts, input, observations) && op.AssertOp?
      ensures op.entity != CheckpointEntity(ref)
    {
      var i := SomeObservation(facts, input, observations, op);
      ObserveLeaves(facts, input, observations[i]);
    }
  }

  lemma MoveCheckpointLeaves(facts: seq<Fact>, input: Input)
    ensures forall op :: op in MoveCheckpoint(facts, input) && op.AssertOp? ==> op.entity == CheckpointEntity(input.ref)
  {
    RetractionsOnlyRetract(CheckpointRows(facts, input.ref));
  }

  lemma PlanAssertsOnCheckpoint(facts: seq<Fact>, input: Input, ref: string, attribute: Attribute)
    requires IsPointer(CheckpointEntity(ref), attribute)
    ensures Asserted(Plan(facts, input), CheckpointEntity(ref), attribute)
      == if ref != input.ref || CheckpointIsCurrent(facts, input) then [] else [CheckpointValue(input, attribute)]
  {
    var checkpoint := CheckpointEntity(ref);
    PlanParts(facts, input, checkpoint, attribute);
    ObserveAllLeaves(facts, input, input.observations, ref, attribute);
    NothingAsserted(ObserveAll(facts, input, input.observations), checkpoint, attribute);
    ClearInactiveOnlyRetracts(facts, input, RefHeads(facts, input.ref));
    NothingAsserted(ClearInactive(facts, input, RefHeads(facts, input.ref)), checkpoint, attribute);
    RunOnlyAsserts(facts, input);
    NothingAsserted(NewRun(facts, input), checkpoint, attribute);
    if ref == input.ref {
      MoveCheckpointAsserts(facts, input, attribute);
    } else {
      MoveCheckpointLeaves(facts, input);
      NothingAsserted(MoveCheckpoint(facts, input), checkpoint, attribute);
    }
  }

  lemma CurrentCheckpointIsTheOnlyOne(facts: seq<Fact>, input: Input, attribute: Attribute)
    requires Healthy(facts) && CheckpointIsCurrent(facts, input) && IsPointer(CheckpointEntity(input.ref), attribute)
    ensures Values(facts, CheckpointEntity(input.ref), attribute) == [CheckpointValue(input, attribute)]
  {
    assert CheckpointValue(input, attribute) in Values(facts, CheckpointEntity(input.ref), attribute);
  }

  lemma CheckpointRowsGo(facts: seq<Fact>, input: Input, attribute: Attribute)
    requires UniqueIds(facts) && HeadsAreTagged(facts) && DistinctSubjects(input.observations)
    requires IsPointer(CheckpointEntity(input.ref), attribute) && !CheckpointIsCurrent(facts, input)
    ensures AllGone(Plan(facts, input), Rows(facts, CheckpointEntity(input.ref), attribute))
  {
    forall f | f in Rows(facts, CheckpointEntity(input.ref), attribute) ensures RetractOp(f.id) in Plan(facts, input) {
      PlanMoves(facts, input, f);
    }
  }

  /** The checkpoint names this run, snapshot and source position, and nothing else. */
  lemma CheckpointIsMoved(facts: seq<Fact>, input: Input, ids: seq<string>, attribute: Attribute)
    requires Healthy(facts) && DistinctSubjects(input.observations)
    requires Generated(facts, Plan(facts, input), ids) && IsPointer(CheckpointEntity(input.ref), attribute)
    ensures Values(ApplyOps(facts, Plan(facts, input), ids), CheckpointEntity(input.ref), attribute)
      == [CheckpointValue(input, attribute)]
  {
    var checkpoint := CheckpointEntity(input.ref);
    PlanAssertsOnCheckpoint(facts, input, input.ref, attribute);
    if CheckpointIsCurrent(facts, input) {
      CurrentCheckpointIsTheOnlyOne(facts, input, attribute);
      UnmovedRowsStay(facts, input, checkpoint, attribute);
      Unchanged(facts, Plan(facts, input), ids, checkpoint, attribute);
    } else {
      CheckpointRowsGo(facts, input, attribute);
      Replaced(facts, Plan(facts, input), ids, checkpoint, attribute);
    }
  }

  lemma OtherCheckpointRowsStay(facts: seq<Fact>, input: Input, ref: string, attribute: Attribute)
    requires UniqueIds(facts) && HeadsAreTagged(facts) && DistinctSubjects(input.observations) && ref != input.ref
    ensures NoneGone(Plan(facts, input), Rows(facts, CheckpointEntity(ref), attribute))
  {
    UnmovedRowsStay(facts, input, CheckpointEntity(ref), attribute);
  }

  lemma OtherCheckpointsStay(facts: seq<Fact>, input: Input, ids: seq<string>, ref: string, attribute: Attribute)
    requires Healthy(facts) && DistinctSubjects(input.observations)
    requires Generated(facts, Plan(facts, input), ids) && IsPointer(CheckpointEntity(ref), attribute)
    requires ref != input.ref
    ensures Values(ApplyOps(facts, Plan(facts, input), ids), CheckpointEntity(ref), attribute)
      == Values(facts, CheckpointEntity(ref), attribute)
  {
    PlanAssertsOnCheckpoint(facts, input, ref, attribute);
    OtherCheckpointRowsStay(facts, input, ref, attribute);
    Unchanged(facts, Plan(facts, input), ids, CheckpointEntity(ref), attribute);
  }
}
