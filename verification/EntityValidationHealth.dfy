/** Every revalidation keeps the projector's facts healthy, and settles them. */
module EntityValidationHealth {
  import opened Wrappers
  import opened Seqs
  import opened EntityValidation
  import opened EntityValidationProofs
  import opened EntityValidationRuns

  // ---- Ids stay unique ----------------------------------------------------

  lemma {:induction false} CreatedAreUnique(ops: seq<Op>, ids: seq<string>)
    requires |ids| == |ops| && NoDuplicates(ids)
    ensures UniqueIds(Created(ops, ids))
  {
    if ops != [] {
      var last := |ops| - 1;
      CreatedAreUnique(ops[..last], ids[..last]);
      assert ids[last] !in ids[..last];
    }
  }

  lemma IdsStayUnique(facts: seq<Fact>, ops: seq<Op>, ids: seq<string>)
    requires UniqueIds(facts) && Generated(facts, ops, ids)
    ensures UniqueIds(ApplyOps(facts, ops, ids))
  {
    AppliedIsKeptAndCreated(facts, ops, ids);
    FilterKeepsDistinct((f: Fact) => f.id, KeptBy(ops), facts);
    CreatedAreUnique(ops, ids);
    assert forall f :: f in Filter(KeptBy(ops), facts) ==> f.id !in ids;
  }

  // ---- What holds afterwards ----------------------------------------------

  lemma {:induction false} CreatedFrom(ops: seq<Op>, ids: seq<string>, f: Fact)
    requires |ids| == |ops| && f in Created(ops, ids)
    ensures AssertOp(f.entity, f.attribute, f.value) in ops
  {
    var last := |ops| - 1;
    if f in Created(ops[..last], ids[..last]) {
      CreatedFrom(ops[..last], ids[..last], f);
    }
  }

  lemma {:induction false} CreatedFor(ops: seq<Op>, ids: seq<string>, op: Op) returns (f: Fact)
    requires |ids| == |ops| && op in ops && op.AssertOp?
    ensures f in Created(ops, ids) && f.entity == op.entity && f.attribute == op.attribute && f.value == op.value
  {
    var last := |ops| - 1;
    if op == ops[last] {
      f := Fact(ids[last], op.entity, op.attribute, op.value);
    } else {
      f := CreatedFor(ops[..last], ids[..last], op);
    }
  }

  lemma AssertedHolds(facts: seq<Fact>, ops: seq<Op>, ids: seq<string>, op: Op)
    requires Generated(facts, ops, ids) && op in ops && op.AssertOp?
    ensures Holds(ApplyOps(facts, ops, ids), op.entity, op.attribute, op.value)
    ensures Known(ApplyOps(facts, ops, ids), op.entity)
  {
    AppliedIsKeptAndCreated(facts, ops, ids);
    var f := CreatedFor(ops, ids, op);
    assert f in ApplyOps(facts, ops, ids);
    assert f in Rows(ApplyOps(facts, ops, ids), op.entity, op.attribute) && ValueOf()(f) == op.value;
  }

  lemma UnmovedFactStays(facts: seq<Fact>, input: Input, ids: seq<string>, f: Fact)
    requires UniqueIds(facts) && HeadsAreTagged(facts) && DistinctSubjects(input.observations)
    requires Generated(facts, Plan(facts, input), ids) && f in facts && !Moves(facts, input, f)
    ensures f in ApplyOps(facts, Plan(facts, input), ids)
  {
    AppliedIsKeptAndCreated(facts, Plan(facts, input), ids);
    PlanMoves(facts, input, f);
    assert f in Filter(KeptBy(Plan(facts, input)), facts);
  }

  /** A content-addressed entity, once known, stays known. */
  lemma KnownStays(facts: seq<Fact>, input: Input, ids: seq<string>, entity: Entity)
    requires UniqueIds(facts) && HeadsAreTagged(facts) && DistinctSubjects(input.observations)
    requires Generated(facts, Plan(facts, input), ids) && Known(facts, entity)
    requires !entity.HeadEntity? && !entity.CheckpointEntity?
    ensures Known(ApplyOps(facts, Plan(facts, input), ids), entity)
  {
    var f :| f in facts && f.entity == entity;
    UnmovedFactStays(facts, input, ids, f);
  }

  lemma TagStays(facts: seq<Fact>, input: Input, ids: seq<string>, head: Entity)
    requires UniqueIds(facts) && HeadsAreTagged(facts) && DistinctSubjects(input.observations)
    requires Generated(facts, Plan(facts, input), ids) && head.HeadEntity? && IsRefHead(facts, head.ref, head)
    ensures IsRefHead(ApplyOps(facts, Plan(facts, input), ids), head.ref, head)
  {
    var f :| f in Rows(facts, head, RefOf) && ValueOf()(f) == Text(head.ref);
    UnmovedFactStays(facts, input, ids, f);
    assert f in Rows(ApplyOps(facts, Plan(facts, input), ids), head, RefOf);
  }

  // ---- Heads stay tagged --------------------------------------------------

  lemma HeadAssertionsAreMoves(facts: seq<Fact>, input: Input, o: Observation, op: Op)
    requires op in Observe(facts, input, o) && op.AssertOp? && op.entity.HeadEntity?
    ensures op in MoveHead(facts, input, o) && op.entity == HeadOf(input, o)
  {
    ViolationsOnlyAssert(facts, input, o, |o.issues|);
    ResultOnlyAsserts(facts, input, o);
    ObserveLeaves(facts, input, o);
  }

  lemma HeadAssertionsAreObserved(facts: seq<Fact>, input: Input, op: Op)
    requires op in Plan(facts, input) && op.AssertOp? && op.entity.HeadEntity?
    ensures op in ObserveAll(facts, input, input.observations)
  {
    ClearInactiveOnlyRetracts(facts, input, RefHeads(facts, input.ref));
    RunOnlyAsserts(facts, input);
    MoveCheckpointLeaves(facts, input);
  }

  lemma HeadAssertionsComeFromObservations(facts: seq<Fact>, input: Input, op: Op) returns (i: nat)
    requires op in Plan(facts, input) && op.AssertOp? && op.entity.HeadEntity?
    ensures i < |input.observations| && op in MoveHead(facts, input, input.observations[i])
    ensures op.entity == HeadOf(input, input.observations[i])
  {
    HeadAssertionsAreObserved(facts, input, op);
    i := SomeObservation(facts, input, input.observations, op);
    HeadAssertionsAreMoves(facts, input, input.observations[i], op);
  }

  lemma TagAssertionsNameTheRef(facts: seq<Fact>, input: Input, o: Observation, op: Op)
    requires op in MoveHead(facts, input, o) && op.AssertOp? && op.attribute.RefOf?
    ensures op.value == Text(input.ref)
  {
    RetractionsOnlyRetract(Targets(facts, input.ref, HeadOf(input, o)));
  }

  lemma MovedHeadsAreTagged(facts: seq<Fact>, input: Input, ids: seq<string>, i: nat, op: Op)
    requires Healthy(facts) && DistinctSubjects(input.observations) && i < |input.observations|
    requires Generated(facts, Plan(facts, input), ids) && op in MoveHead(facts, input, input.observations[i])
    ensures IsRefHead(ApplyOps(facts, Plan(facts, input), ids), input.ref, HeadOf(input, input.observations[i]))
  {
    var o := input.observations[i];
    var head := HeadOf(input, o);
    if IsRefHead(facts, input.ref, head) {
      TagStays(facts, input, ids, head);
    } else {
      var tag := AssertOp(head, RefOf, Text(input.ref));
      assert tag in AssertHead(input, o);
      assert tag in MoveHead(facts, input, o);
      EveryObservation(facts, input, input.observations, i, tag);
      AssertedHolds(facts, Plan(facts, input), ids, tag);
    }
  }

  lemma HeadsStayTagged(facts: seq<Fact>, input: Input, ids: seq<string>)
    requires Healthy(facts) && DistinctSubjects(input.observations)
    requires Generated(facts, Plan(facts, input), ids)
    ensures HeadsAreTagged(ApplyOps(facts, Plan(facts, input), ids))
  {
    var plan := Plan(facts, input);
    AppliedIsKeptAndCreated(facts, plan, ids);
    forall f | f in ApplyOps(facts, plan, ids) && f.entity.HeadEntity?
      ensures IsRefHead(ApplyOps(facts, plan, ids), f.entity.ref, f.entity)
      ensures f.attribute.RefOf? ==> f.value == Text(f.entity.ref)
    {
      if f in facts {
        TagStays(facts, input, ids, f.entity);
      } else {
        CreatedFrom(plan, ids, f);
        var op := AssertOp(f.entity, f.attribute, f.value);
        var i := HeadAssertionsComeFromObservations(facts, input, op);
        MovedHeadsAreTagged(facts, input, ids, i, op);
        if f.attribute.RefOf? {
          TagAssertionsNameTheRef(facts, input, input.observations[i], op);
        }
      }
    }
  }

  // ---- Health -------------------------------------------------------------

  lemma ActiveHeadsStaySingle(facts: seq<Fact>, input: Input, ids: seq<string>, head: Entity)
    requires Healthy(facts) && DistinctSubjects(input.observations) && head in ActiveHeads(input, input.observations)
    requires Generated(facts, Plan(facts, input), ids)
    ensures |Values(ApplyOps(facts, Plan(facts, input), ids), head, ResultOf)| <= 1
  {
    var i := ActiveIndex(input, head);
    ActiveHeadPointsAtItsResult(facts, input, ids, i);
  }

  lemma ActiveIndex(input: Input, head: Entity) returns (i: nat)
    requires head in ActiveHeads(input, input.observations)
    ensures i < |input.observations| && head == HeadOf(input, input.observations[i])
  {
    var o :| o in input.observations && HeadOf(input, o) == head;
    i :| 0 <= i < |input.observations| && input.observations[i] == o;
  }

  lemma HeadsStaySingle(facts: seq<Fact>, input: Input, ids: seq<string>, head: Entity)
    requires Healthy(facts) && DistinctSubjects(input.observations) && head.HeadEntity?
    requires Generated(facts, Plan(facts, input), ids)
    ensures |Values(ApplyOps(facts, Plan(facts, input), ids), head, ResultOf)| <= 1
  {
    if head.ref != input.ref {
      OtherRefsStay(facts, input, ids, head);
    } else if head in ActiveHeads(input, input.observations) {
      ActiveHeadsStaySingle(facts, input, ids, head);
    } else {
      InactiveHeadsAreCleared(facts, input, ids, head);
    }
  }

  lemma CheckpointsStaySingle(facts: seq<Fact>, input: Input, ids: seq<string>, ref: string, a: Attribute)
    requires Healthy(facts) && DistinctSubjects(input.observations) && IsPointer(CheckpointEntity(ref), a)
    requires Generated(facts, Plan(facts, input), ids)
    ensures |Values(ApplyOps(facts, Plan(facts, input), ids), CheckpointEntity(ref), a)| <= 1
  {
    if ref != input.ref {
      OtherCheckpointsStay(facts, input, ids, ref, a);
    } else {
      CheckpointIsMoved(facts, input, ids, a);
    }
  }

  /** A revalidation keeps ids unique, heads tagged, and every head and checkpoint pointing at one thing at most. */
  lemma RevalidationKeepsHealth(facts: seq<Fact>, input: Input, ids: seq<string>)
    requires Healthy(facts) && DistinctSubjects(input.observations)
    requires Generated(facts, Plan(facts, input), ids)
    ensures Healthy(ApplyOps(facts, Plan(facts, input), ids))
  {
    IdsStayUnique(facts, Plan(facts, input), ids);
    HeadsStayTagged(facts, input, ids);
    forall e, a | IsPointer(e, a) ensures |Values(ApplyOps(facts, Plan(facts, input), ids), e, a)| <= 1 {
      if e.HeadEntity? {
        HeadsStaySingle(facts, input, ids, e);
      } else {
        CheckpointsStaySingle(facts, input, ids, e.ref, a);
      }
    }
  }

  // ---- A second revalidation ----------------------------------------------

  lemma {:induction false} EveryViolationIsPlanned(facts: seq<Fact>, input: Input, o: Observation, k: nat, i: nat)
    requires i < k <= |o.issues| && !Known(facts, ViolationEntity(ViolationAt(input, o, i)))
    ensures forall op :: op in AssertViolation(ViolationAt(input, o, i)) ==> op in NewViolations(facts, input, o, k)
  {
    if i < k - 1 {
      EveryViolationIsPlanned(facts, input, o, k - 1, i);
    }
  }

  lemma {:induction false} NoNewViolations(facts: seq<Fact>, input: Input, o: Observation, k: nat)
    requires k <= |o.issues|
    requires forall i :: 0 <= i < k ==> Known(facts, ViolationEntity(ViolationAt(input, o, i)))
    ensures NewViolations(facts, input, o, k) == []
  {
    if k > 0 {
      NoNewViolations(facts, input, o, k - 1);
    }
  }

  lemma PlannedIsKnown(facts: seq<Fact>, input: Input, ids: seq<string>, i: nat, op: Op)
    requires Healthy(facts) && DistinctSubjects(input.observations) && i < |input.observations|
    requires Generated(facts, Plan(facts, input), ids) && op in Observe(facts, input, input.observations[i])
    requires op.AssertOp?
    ensures Known(ApplyOps(facts, Plan(facts, input), ids), op.entity)
  {
    EveryObservation(facts, input, input.observations, i, op);
    AssertedHolds(facts, Plan(facts, input), ids, op);
  }

  lemma ViolationsAreKnown(facts: seq<Fact>, input: Input, ids: seq<string>, i: nat, k: nat)
    requires Healthy(facts) && DistinctSubjects(input.observations) && i < |input.observations|
    requires Generated(facts, Plan(facts, input), ids) && k < |input.observations[i].issues|
    ensures Known(ApplyOps(facts, Plan(facts, input), ids),
      ViolationEntity(ViolationAt(input, input.observations[i], k)))
  {
    var o := input.observations[i];
    var id := ViolationAt(input, o, k);
    if Known(facts, ViolationEntity(id)) {
      KnownStays(facts, input, ids, ViolationEntity(id));
    } else {
      var op := AssertOp(ViolationEntity(id), ContentIdOf, CidOf(ViolationEntity(id)));
      assert op in AssertViolation(id);
      EveryViolationIsPlanned(facts, input, o, |o.issues|, k);
      PlannedIsKnown(facts, input, ids, i, op);
    }
  }

  lemma ResultIsKnown(facts: seq<Fact>, input: Input, ids: seq<string>, i: nat)
    requires Healthy(facts) && DistinctSubjects(input.observations) && i < |input.observations|
    requires Generated(facts, Plan(facts, input), ids)
    ensures Known(ApplyOps(facts, Plan(facts, input), ids), ResultEntity(ResultIdOf(input, input.observations[i])))
  {
    var o := input.observations[i];
    var e := ResultEntity(ResultIdOf(input, o));
    if Known(facts, e) {
      KnownStays(facts, input, ids, e);
    } else {
      var op := AssertOp(e, ContentIdOf, CidOf(e));
      assert op in AssertResult(input, o);
      assert op in NewResult(facts, input, o);
      PlannedIsKnown(facts, input, ids, i, op);
    }
  }

  lemma RunIsKnown(facts: seq<Fact>, input: Input, ids: seq<string>)
    requires Healthy(facts) && DistinctSubjects(input.observations)
    requires Generated(facts, Plan(facts, input), ids)
    ensures Known(ApplyOps(facts, Plan(facts, input), ids), RunEntity(RunIdOf(input)))
  {
    var e := RunEntity(RunIdOf(input));
    if Known(facts, e) {
      KnownStays(facts, input, ids, e);
    } else {
      var op := AssertOp(e, ContentIdOf, CidOf(e));
      assert op in AssertRun(input);
      assert op in NewRun(facts, input);
      AssertedHolds(facts, Plan(facts, input), ids, op);
    }
  }

  lemma HeadPoints(facts: seq<Fact>, input: Input, ids: seq<string>, i: nat)
    requires Healthy(facts) && DistinctSubjects(input.observations) && i < |input.observations|
    requires Generated(facts, Plan(facts, input), ids)
    ensures PointsAt(ApplyOps(facts, Plan(facts, input), ids), input, input.observations[i])
  {
    var after := ApplyOps(facts, Plan(facts, input), ids);
    var o := input.observations[i];
    var head, result := HeadOf(input, o), To(ResultEntity(ResultIdOf(input, o)));
    ActiveHeadPointsAtItsResult(facts, input, ids, i);
    assert result in Values(after, head, ResultOf);
    var f :| f in Rows(after, head, ResultOf) && ValueOf()(f) == result;
    HeadsStayTagged(facts, input, ids);
    assert f in after;
    assert f in Targets(after, input.ref, head);
  }

  lemma ObserveSettles(facts: seq<Fact>, input: Input, ids: seq<string>, i: nat)
    requires Healthy(facts) && DistinctSubjects(input.observations) && i < |input.observations|
    requires Generated(facts, Plan(facts, input), ids)
    ensures Observe(ApplyOps(facts, Plan(facts, input), ids), input, input.observations[i]) == []
  {
    var after := ApplyOps(facts, Plan(facts, input), ids);
    var o := input.observations[i];
    forall k | 0 <= k < |o.issues| ensures Known(after, ViolationEntity(ViolationAt(input, o, k))) {
      ViolationsAreKnown(facts, input, ids, i, k);
    }
    NoNewViolations(after, input, o, |o.issues|);
    ResultIsKnown(facts, input, ids, i);
    HeadPoints(facts, input, ids, i);
  }

  lemma {:induction false} NothingToObserve(facts: seq<Fact>, input: Input, observations: seq<Observation>)
    requires forall i :: 0 <= i < |observations| ==> Observe(facts, input, observations[i]) == []
    ensures ObserveAll(facts, input, observations) == []
  {
    if observations != [] {
      NothingToObserve(facts, input, observations[..|observations| - 1]);
    }
  }

  lemma {:induction false} NothingToClear(facts: seq<Fact>, input: Input, heads: seq<Entity>)
    requires forall head :: head in heads && head !in ActiveHeads(input, input.observations) ==>
      Values(facts, head, ResultOf) == []
    ensures ClearInactive(facts, input, heads) == []
  {
    if heads != [] {
      NothingToClear(facts, input, heads[..|heads| - 1]);
    }
  }

  lemma CheckpointHolds(facts: seq<Fact>, input: Input, ids: seq<string>, attribute: Attribute)
    requires Healthy(facts) && DistinctSubjects(input.observations)
    requires Generated(facts, Plan(facts, input), ids) && IsPointer(CheckpointEntity(input.ref), attribute)
    ensures Holds(ApplyOps(facts, Plan(facts, input), ids), CheckpointEntity(input.ref), attribute,
      CheckpointValue(input, attribute))
  {
    CheckpointIsMoved(facts, input, ids, attribute);
  }

  lemma CurrentWhenAllHold(facts: seq<Fact>, input: Input)
    requires Holds(facts, CheckpointEntity(input.ref), ResultOf, CheckpointValue(input, ResultOf))
    requires Holds(facts, CheckpointEntity(input.ref), SnapshotOf, CheckpointValue(input, SnapshotOf))
    requires Holds(facts, CheckpointEntity(input.ref), SourcePositionOf, CheckpointValue(input, SourcePositionOf))
    ensures CheckpointIsCurrent(facts, input)
  {
  }

  lemma CheckpointSettles(facts: seq<Fact>, input: Input, ids: seq<string>)
    requires Healthy(facts) && DistinctSubjects(input.observations)
    requires Generated(facts, Plan(facts, input), ids)
    ensures CheckpointIsCurrent(ApplyOps(facts, Plan(facts, input), ids), input)
  {
    CheckpointHolds(facts, input, ids, ResultOf);
    CheckpointHolds(facts, input, ids, SnapshotOf);
    CheckpointHolds(facts, input, ids, SourcePositionOf);
    CurrentWhenAllHold(ApplyOps(facts, Plan(facts, input), ids), input);
  }

  lemma ClearSettles(facts: seq<Fact>, input: Input, ids: seq<string>)
    requires Healthy(facts) && DistinctSubjects(input.observations)
    requires Generated(facts, Plan(facts, input), ids)
    ensures var after := ApplyOps(facts, Plan(facts, input), ids);
      ClearInactive(after, input, RefHeads(after, input.ref)) == []
  {
    var after := ApplyOps(facts, Plan(facts, input), ids);
    HeadsStayTagged(facts, input, ids);
    forall head | head in RefHeads(after, input.ref) && head !in ActiveHeads(input, input.observations)
      ensures Values(after, head, ResultOf) == []
    {
      var f :| f in Filter(IsHeadFact(), after) && EntityOf()(f) == head;
      RefHeadsAreTheTagged(after, input.ref, f);
      InactiveHeadsAreCleared(facts, input, ids, head);
    }
    NothingToClear(after, input, RefHeads(after, input.ref));
  }

  lemma SettledFactsNeedNoPlan(facts: seq<Fact>, input: Input)
    requires forall i :: 0 <= i < |input.observations| ==> Observe(facts, input, input.observations[i]) == []
    requires ClearInactive(facts, input, RefHeads(facts, input.ref)) == []
    requires Known(facts, RunEntity(RunIdOf(input))) && CheckpointIsCurrent(facts, input)
    ensures Plan(facts, input) == []
  {
    NothingToObserve(facts, input, input.observations);
  }

  /** Revalidating again with the same observations, snapshot and source position emits no operations. */
  lemma SecondRevalidationEmitsNothing(facts: seq<Fact>, input: Input, ids: seq<string>)
    requires Healthy(facts) && DistinctSubjects(input.observations)
    requires Generated(facts, Plan(facts, input), ids)
    ensures Plan(ApplyOps(facts, Plan(facts, input), ids), input) == []
  {
    var after := ApplyOps(facts, Plan(facts, input), ids);
    forall i | 0 <= i < |input.observations| ensures Observe(after, input, input.observations[i]) == [] {
      ObserveSettles(facts, input, ids, i);
    }
    ClearSettles(facts, input, ids);
    RunIsKnown(facts, input, ids);
    CheckpointSettles(facts, input, ids);
    SettledFactsNeedNoPlan(after, input);
  }

  lemma {:induction false} ResultsDetermineObservations(a: Input, b: Input, s: seq<Observation>, t: seq<Observation>)
    requires ResultIds(a, s) == ResultIds(b, t)
    ensures s == t
  {
    if s == [] {
      assert t == [] || |ResultIds(b, t)| > 0;
    } else {
      assert t != [] by {
        assert ResultIds(a, s) != [];
      }
      var i, j := |s| - 1, |t| - 1;
      assert ResultIds(a, s)[|ResultIds(a, s)| - 1] == ResultIdOf(a, s[i]);
      assert ResultIds(b, t)[|ResultIds(b, t)| - 1] == ResultIdOf(b, t[j]);
      assert ResultIds(a, s[..i]) == ResultIds(a, s)[..|ResultIds(a, s)| - 1];
      assert ResultIds(b, t[..j]) == ResultIds(b, t)[..|ResultIds(b, t)| - 1];
      ResultsDetermineObservations(a, b, s[..i], t[..j]);
      assert s == s[..i] + [s[i]] && t == t[..j] + [t[j]];
    }
  }

  lemma StaleCheckpointsArePlanned(facts: seq<Fact>, input: Input)
    requires !CheckpointIsCurrent(facts, input)
    ensures AssertCheckpoint(input)[0] in Plan(facts, input)
  {
    assert AssertCheckpoint(input)[0] in MoveCheckpoint(facts, input);
  }

  lemma CurrentCheckpointsNameTheInput(facts: seq<Fact>, a: Input, b: Input)
    requires a.ref == b.ref && CheckpointIsCurrent(facts, b)
    requires Values(facts, CheckpointEntity(a.ref), ResultOf) == [CheckpointValue(a, ResultOf)]
    requires Values(facts, CheckpointEntity(a.ref), SnapshotOf) == [CheckpointValue(a, SnapshotOf)]
    ensures RunIdOf(a) == RunIdOf(b) && a.snapshot.id == b.snapshot.id
  {
  }

  /** After a revalidation, another of the same ref emits no operations exactly when it reads the same input. */
  lemma SecondRevalidationEmitsNothingIff(facts: seq<Fact>, input: Input, ids: seq<string>, second: Input)
    requires Healthy(facts) && DistinctSubjects(input.observations)
    requires Generated(facts, Plan(facts, input), ids) && second.ref == input.ref
    ensures Plan(ApplyOps(facts, Plan(facts, input), ids), second) == [] <==> second == input
  {
    var after := ApplyOps(facts, Plan(facts, input), ids);
    SecondRevalidationEmitsNothing(facts, input, ids);
    if Plan(after, second) == [] {
      if !CheckpointIsCurrent(after, second) {
        StaleCheckpointsArePlanned(after, second);
      }
      CheckpointIsMoved(facts, input, ids, ResultOf);
      CheckpointIsMoved(facts, input, ids, SnapshotOf);
      CurrentCheckpointsNameTheInput(after, input, second);
      ResultsDetermineObservations(input, second, input.observations, second.observations);
    }
  }
}
