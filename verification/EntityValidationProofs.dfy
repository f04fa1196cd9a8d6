/**
 * What committing a revalidation does to the projector's own facts: one live
 * result per head, a current checkpoint, and nothing left for a second run.
 */
module EntityValidationProofs {
  import opened Wrappers
  import opened Seqs
  import opened EntityValidation

  // ---- Committing operations ----------------------------------------------

  function Other(id: string): Fact -> bool {
    (f: Fact) => f.id != id
  }

  /** Apply the operations in order; the k-th assertion is stored under ids[k]. */
  function ApplyOps(facts: seq<Fact>, ops: seq<Op>, ids: seq<string>): seq<Fact>
    requires |ids| == |ops|
  {
    if ops == [] then facts
    else
      var last := |ops| - 1;
      var before := ApplyOps(facts, ops[..last], ids[..last]);
      match ops[last]
      case AssertOp(entity, attribute, value) => before + [Fact(ids[last], entity, attribute, value)]
      case RetractOp(id) => Filter(Other(id), before)
  }

  function Created(ops: seq<Op>, ids: seq<string>): (created: seq<Fact>)
    requires |ids| == |ops|
    ensures forall f :: f in created ==> f.id in ids
  {
    if ops == [] then []
    else
      var last := |ops| - 1;
      Created(ops[..last], ids[..last])
      + match ops[last] case AssertOp(e, a, v) => [Fact(ids[last], e, a, v)] case RetractOp(_) => []
  }

  function KeptBy(ops: seq<Op>): Fact -> bool {
    (f: Fact) => RetractOp(f.id) !in ops
  }

  ghost predicate UniqueIds(facts: seq<Fact>) {
    forall i, j :: 0 <= i < j < |facts| ==> facts[i].id != facts[j].id
  }

  /** Generated ids: no two alike, none in use, none retracted. */
  ghost predicate Generated(facts: seq<Fact>, ops: seq<Op>, ids: seq<string>) {
    && |ids| == |ops| && NoDuplicates(ids)
    && (forall f :: f in facts ==> f.id !in ids)
    && (forall id :: id in ids ==> RetractOp(id) !in ops)
  }

  lemma {:induction false} AppliedIsKeptAndCreated(facts: seq<Fact>, ops: seq<Op>, ids: seq<string>)
    requires |ids| == |ops| && forall id :: id in ids ==> RetractOp(id) !in ops
    ensures ApplyOps(facts, ops, ids) == Filter(KeptBy(ops), facts) + Created(ops, ids)
  {
    if ops == [] {
      FilterAll(KeptBy(ops), facts);
    } else {
      var last := |ops| - 1;
      var init := ops[..last];
      assert ops == init + [ops[last]];
      AppliedIsKeptAndCreated(facts, init, ids[..last]);
      match ops[last]
      case AssertOp(_, _, _) =>
        FilterPointwise(KeptBy(ops), KeptBy(init), facts);
      case RetractOp(id) =>
        FilterConcat(Other(id), Filter(KeptBy(init), facts), Created(init, ids[..last]));
        FilterTwice(KeptBy(init), Other(id), KeptBy(ops), facts);
        FilterAll(Other(id), Created(init, ids[..last]));
    }
  }

  lemma FilterOrder<T(!new)>(p: T -> bool, q: T -> bool, both: T -> bool, s: seq<T>)
    requires forall x :: x in s ==> both(x) == (p(x) && q(x))
    ensures Filter(q, Filter(p, s)) == Filter(p, Filter(q, s))
  {
    FilterTwice(p, q, both, s);
    FilterTwice(q, p, both, s);
  }

  function KeptAt(ops: seq<Op>, entity: Entity, attribute: Attribute): Fact -> bool {
    (f: Fact) => KeptBy(ops)(f) && At(entity, attribute)(f)
  }

  lemma RowsAfter(facts: seq<Fact>, ops: seq<Op>, ids: seq<string>, entity: Entity, attribute: Attribute)
    requires |ids| == |ops| && forall id :: id in ids ==> RetractOp(id) !in ops
    ensures Rows(ApplyOps(facts, ops, ids), entity, attribute)
      == Filter(KeptBy(ops), Rows(facts, entity, attribute)) + Rows(Created(ops, ids), entity, attribute)
  {
    AppliedIsKeptAndCreated(facts, ops, ids);
    FilterConcat(At(entity, attribute), Filter(KeptBy(ops), facts), Created(ops, ids));
    FilterOrder(KeptBy(ops), At(entity, attribute), KeptAt(ops, entity, attribute), facts);
  }

  // ---- Values -------------------------------------------------------------

  function Asserted(ops: seq<Op>, entity: Entity, attribute: Attribute): seq<Value> {
    if ops == [] then []
    else
      Asserted(ops[..|ops| - 1], entity, attribute)
      + match ops[|ops| - 1]
        case AssertOp(e, a, v) => if e == entity && a == attribute then [v] else []
        case RetractOp(_) => []
  }

  lemma {:induction false} CreatedValues(ops: seq<Op>, ids: seq<string>, entity: Entity, attribute: Attribute)
    requires |ids| == |ops|
    ensures Values(Created(ops, ids), entity, attribute) == Asserted(ops, entity, attribute)
  {
    if ops != [] {
      var last := |ops| - 1;
      var before, at := Created(ops[..last], ids[..last]), At(entity, attribute);
      CreatedValues(ops[..last], ids[..last], entity, attribute);
      if ops[last].AssertOp? {
        var f := Fact(ids[last], ops[last].entity, ops[last].attribute, ops[last].value);
        FilterConcat(at, before, [f]);
        MapConcat(ValueOf(), Filter(at, before), Filter(at, [f]));
        assert Filter(at, [f]) == if at(f) then [f] else [];
        assert Map(ValueOf(), [f]) == [f.value];
      } else {
        assert Created(ops, ids) == before;
      }
    }
  }

  lemma {:induction false} AssertedConcat(a: seq<Op>, b: seq<Op>, entity: Entity, attribute: Attribute)
    ensures Asserted(a + b, entity, attribute) == Asserted(a, entity, attribute) + Asserted(b, entity, attribute)
  {
    if b == [] {
      assert a + b == a;
    } else {
      AssertedConcat(a, b[..|b| - 1], entity, attribute);
      assert (a + b)[..|a + b| - 1] == a + b[..|b| - 1];
    }
  }

  /** No assertion among the operations is about the attribute of the entity. */
  ghost predicate Leaves(ops: seq<Op>, entity: Entity, attribute: Attribute) {
    forall op :: op in ops && op.AssertOp? ==> !(op.entity == entity && op.attribute == attribute)
  }

  lemma {:induction false} NothingAsserted(ops: seq<Op>, entity: Entity, attribute: Attribute)
    requires Leaves(ops, entity, attribute)
    ensures Asserted(ops, entity, attribute) == []
  {
    if ops != [] {
      assert ops[|ops| - 1] in ops;
      NothingAsserted(ops[..|ops| - 1], entity, attribute);
    }
  }

  ghost predicate AllGone(ops: seq<Op>, rows: seq<Fact>) {
    forall f :: f in rows ==> RetractOp(f.id) in ops
  }

  ghost predicate NoneGone(ops: seq<Op>, rows: seq<Fact>) {
    forall f :: f in rows ==> RetractOp(f.id) !in ops
  }

  /** When every row of an attribute is retracted, what is asserted replaces it. */
  lemma Replaced(facts: seq<Fact>, ops: seq<Op>, ids: seq<string>, entity: Entity, attribute: Attribute)
    requires Generated(facts, ops, ids)
    requires AllGone(ops, Rows(facts, entity, attribute))
    ensures Values(ApplyOps(facts, ops, ids), entity, attribute) == Asserted(ops, entity, attribute)
  {
    RowsAfter(facts, ops, ids, entity, attribute);
    FilterNone(KeptBy(ops), Rows(facts, entity, attribute));
    CreatedValues(ops, ids, entity, attribute);
  }

  /** When none is, what is asserted is added. */
  lemma Extended(facts: seq<Fact>, ops: seq<Op>, ids: seq<string>, entity: Entity, attribute: Attribute)
    requires Generated(facts, ops, ids)
    requires NoneGone(ops, Rows(facts, entity, attribute))
    ensures Values(ApplyOps(facts, ops, ids), entity, attribute)
      == Values(facts, entity, attribute) + Asserted(ops, entity, attribute)
  {
    RowsAfter(facts, ops, ids, entity, attribute);
    FilterAll(KeptBy(ops), Rows(facts, entity, attribute));
    MapConcat(ValueOf(), Rows(facts, entity, attribute), Rows(Created(ops, ids), entity, attribute));
    CreatedValues(ops, ids, entity, attribute);
  }

  lemma Unchanged(facts: seq<Fact>, ops: seq<Op>, ids: seq<string>, entity: Entity, attribute: Attribute)
    requires Generated(facts, ops, ids)
    requires NoneGone(ops, Rows(facts, entity, attribute)) && Asserted(ops, entity, attribute) == []
    ensures Values(ApplyOps(facts, ops, ids), entity, attribute) == Values(facts, entity, attribute)
  {
    Extended(facts, ops, ids, entity, attribute);
  }

  // ---- What a plan retracts and asserts -----------------------------------

  /** Pointers move; every other fact of the projector stays. */
  predicate IsPointer(entity: Entity, attribute: Attribute) {
    (entity.HeadEntity? && attribute.ResultOf?)
    || (entity.CheckpointEntity? && (attribute.ResultOf? || attribute.SnapshotOf? || attribute.SourcePositionOf?))
  }

  ghost predicate HeadsAreTagged(facts: seq<Fact>) {
    forall f :: f in facts && f.entity.HeadEntity? ==>
      && IsRefHead(facts, f.entity.ref, f.entity)
      && (f.attribute.RefOf? ==> f.value == Text(f.entity.ref))
  }

  /** What every revalidation keeps: unique ids, tagged heads, and single-valued pointers. */
  ghost predicate Healthy(facts: seq<Fact>) {
    && UniqueIds(facts) && HeadsAreTagged(facts)
    && forall e, a {:trigger Values(facts, e, a)} :: IsPointer(e, a) ==> |Values(facts, e, a)| <= 1
  }

  lemma RetractionsHit(facts: seq<Fact>, entity: Entity, attribute: Attribute, f: Fact)
    requires UniqueIds(facts) && f in facts
    ensures RetractOp(f.id) in Retractions(Rows(facts, entity, attribute))
      <==> f.entity == entity && f.attribute == attribute
  {
    var rows := Rows(facts, entity, attribute);
    if RetractOp(f.id) in Retractions(rows) {
      var g :| g in rows && RetractOf()(g) == RetractOp(f.id);
      var i :| 0 <= i < |facts| && facts[i] == f;
      var j :| 0 <= j < |facts| && facts[j] == g;
    }
    if f.entity == entity && f.attribute == attribute {
      assert f in rows && RetractOf()(f) == RetractOp(f.id);
    }
  }

  lemma ViolationOnlyAsserts(id: ViolationId)
    ensures forall op :: op in AssertViolation(id) ==> op.AssertOp? && op.entity == ViolationEntity(id)
  {
  }

  lemma {:induction false} ViolationsOnlyAssert(facts: seq<Fact>, input: Input, o: Observation, k: nat)
    requires k <= |o.issues|
    ensures forall op :: op in NewViolations(facts, input, o, k) ==>
      op.AssertOp? && op.entity.ViolationEntity? && op.entity.violation.result == ResultIdOf(input, o)
  {
    if k > 0 {
      ViolationsOnlyAssert(facts, input, o, k - 1);
      ViolationOnlyAsserts(ViolationAt(input, o, k - 1));
    }
  }

  lemma {:induction false} RunResultsOnlyAssert(run: Entity, results: seq<ResultId>)
    ensures forall op :: op in AssertRunResults(run, results) ==> op.AssertOp? && op.entity == run
  {
    if results != [] {
      RunResultsOnlyAssert(run, results[..|results| - 1]);
    }
  }

  lemma RetractionsOnlyRetract(rows: seq<Fact>)
    ensures forall op :: op in Retractions(rows) ==> op.RetractOp?
  {
  }

  lemma ResultOnlyAsserts(facts: seq<Fact>, input: Input, o: Observation)
    ensures forall op :: op in NewResult(facts, input, o) ==>
      op.AssertOp? && op.entity == ResultEntity(ResultIdOf(input, o))
  {
  }

  lemma HeadOnlyAsserts(input: Input, o: Observation)
    ensures forall op :: op in AssertHead(input, o) ==> op.AssertOp? && op.entity == HeadOf(input, o)
  {
  }

  lemma HeadTargets(facts: seq<Fact>, input: Input, o: Observation, f: Fact)
    requires UniqueIds(facts) && HeadsAreTagged(facts) && f in facts
    ensures RetractOp(f.id) in Retractions(Targets(facts, input.ref, HeadOf(input, o)))
      <==> f.entity == HeadOf(input, o) && f.attribute.ResultOf?
  {
    RetractionsHit(facts, HeadOf(input, o), ResultOf, f);
  }

  /** Moving a head retracts the results it points at, unless it points at the right one already. */
  lemma MoveHeadMoves(facts: seq<Fact>, input: Input, o: Observation, f: Fact)
    requires UniqueIds(facts) && HeadsAreTagged(facts) && f in facts
    ensures RetractOp(f.id) in MoveHead(facts, input, o)
      <==> f.entity == HeadOf(input, o) && f.attribute.ResultOf? && !PointsAt(facts, input, o)
  {
    HeadOnlyAsserts(input, o);
    HeadTargets(facts, input, o, f);
  }

  lemma MoveHeadLeaves(facts: seq<Fact>, input: Input, o: Observation)
    ensures forall op :: op in MoveHead(facts, input, o) && op.AssertOp? ==> op.entity == HeadOf(input, o)
  {
    HeadOnlyAsserts(input, o);
    RetractionsOnlyRetract(Targets(facts, input.ref, HeadOf(input, o)));
  }

  /** One observation retracts the other results of its head, if the head does not point at its own already. */
  lemma ObserveMoves(facts: seq<Fact>, input: Input, o: Observation, f: Fact)
    requires UniqueIds(facts) && HeadsAreTagged(facts) && f in facts
    ensures RetractOp(f.id) in Observe(facts, input, o)
      <==> f.entity == HeadOf(input, o) && f.attribute.ResultOf? && !PointsAt(facts, input, o)
  {
    ViolationsOnlyAssert(facts, input, o, |o.issues|);
    ResultOnlyAsserts(facts, input, o);
    MoveHeadMoves(facts, input, o, f);
  }

  /** And it asserts only on its own entities. */
  lemma ObserveLeaves(facts: seq<Fact>, input: Input, o: Observation)
    ensures forall op :: op in Observe(facts, input, o) && op.AssertOp? ==>
      || (op.entity.ViolationEntity? && op.entity.violation.result == ResultIdOf(input, o))
      || op.entity == ResultEntity(ResultIdOf(input, o)) || op.entity == HeadOf(input, o)
  {
    ViolationsOnlyAssert(facts, input, o, |o.issues|);
    ResultOnlyAsserts(facts, input, o);
    MoveHeadLeaves(facts, input, o);
  }

  lemma {:induction false} SomeObservation(facts: seq<Fact>, input: Input, observations: seq<Observation>,
                                           op: Op) returns (i: nat)
    requires op in ObserveAll(facts, input, observations)
    ensures i < |observations| && op in Observe(facts, input, observations[i])
  {
    var last := |observations| - 1;
    if op in Observe(facts, input, observations[last]) {
      i := last;
    } else {
      i := SomeObservation(facts, input, observations[..last], op);
    }
  }

  lemma {:induction false} EveryObservation(facts: seq<Fact>, input: Input, observations: seq<Observation>, i: nat,
                                            op: Op)
    requires i < |observations| && op in Observe(facts, input, observations[i])
    ensures op in ObserveAll(facts, input, observations)
  {
    if i < |observations| - 1 {
      EveryObservation(facts, input, observations[..|observations| - 1], i, op);
    }
  }

  lemma {:induction false} ClearInactiveMoves(facts: seq<Fact>, input: Input, heads: seq<Entity>, f: Fact)
    requires UniqueIds(facts) && f in facts
    ensures RetractOp(f.id) in ClearInactive(facts, input, heads) <==>
            f.entity in heads && f.entity !in ActiveHeads(input, input.observations) && f.attribute.ResultOf?
    ensures forall op :: op in ClearInactive(facts, input, heads) ==> op.RetractOp?
  {
    if heads != [] {
      var init, head := heads[..|heads| - 1], heads[|heads| - 1];
      assert heads == init + [head];
      ClearInactiveMoves(facts, input, init, f);
      RetractionsHit(facts, head, ResultOf, f);
    }
  }

  lemma RefHeadsAreTheTagged(facts: seq<Fact>, ref: string, f: Fact)
    requires f in facts && HeadsAreTagged(facts)
    ensures f.entity in RefHeads(facts, ref) <==> f.entity.HeadEntity? && f.entity.ref == ref
  {
    var heads := Filter(IsHeadFact(), facts);
    if f.entity.HeadEntity? {
      assert f in heads && EntityOf()(f) == f.entity;
      if IsRefHead(facts, ref, f.entity) {
        var g :| g in Rows(facts, f.entity, RefOf) && ValueOf()(g) == Text(ref);
      }
    }
  }

  lemma CheckpointRowsHit(facts: seq<Fact>, ref: string, f: Fact)
    requires UniqueIds(facts) && f in facts
    ensures RetractOp(f.id) in Retractions(CheckpointRows(facts, ref))
      <==> f.entity == CheckpointEntity(ref) && IsPointer(f.entity, f.attribute)
  {
    var checkpoint := CheckpointEntity(ref);
    var results, snapshots := Rows(facts, checkpoint, ResultOf), Rows(facts, checkpoint, SnapshotOf);
    MapConcat(RetractOf(), results + snapshots, Rows(facts, checkpoint, SourcePositionOf));
    MapConcat(RetractOf(), results, snapshots);
    RetractionsHit(facts, checkpoint, ResultOf, f);
    RetractionsHit(facts, checkpoint, SnapshotOf, f);
    RetractionsHit(facts, checkpoint, SourcePositionOf, f);
  }

  lemma MoveCheckpointMoves(facts: seq<Fact>, input: Input, f: Fact)
    requires UniqueIds(facts) && f in facts
    ensures RetractOp(f.id) in MoveCheckpoint(facts, input)
      <==>
      f.entity == CheckpointEntity(input.ref) && IsPointer(f.entity, f.attribute) && !CheckpointIsCurrent(facts, input)
  {
    CheckpointRowsHit(facts, input.ref, f);
  }
}
