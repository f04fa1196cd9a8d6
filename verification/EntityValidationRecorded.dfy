/**
 * The records a revalidation keeps: each known entity of the projector's says
 * what its identity says, and points only at what is known.
 */
module EntityValidationRecorded {
  import opened Wrappers
  import opened Seqs
  import opened EntityValidation
  import opened EntityValidationProofs
  import opened EntityValidationRuns
  import opened EntityValidationHealth
  import opened EntityValidationRecords

  // ---- Records -------------------------------------------------------------------

  ghost predicate ResultSays(facts: seq<Fact>, r: ResultId) {
    forall a {:trigger Values(facts, ResultEntity(r), a)} :: Values(facts, ResultEntity(r), a) == ResultHolds(r, a)
  }

  ghost predicate ViolationSays(facts: seq<Fact>, v: ViolationId) {
    forall a {:trigger Values(facts, ViolationEntity(v), a)} ::
      Values(facts, ViolationEntity(v), a) == ViolationHolds(v, a)
  }

  ghost predicate HeadSays(facts: seq<Fact>, head: Entity)
    requires head.HeadEntity?
  {
    forall a: Attribute {:trigger Values(facts, head, a)} ::
      !a.ResultOf? ==> Values(facts, head, a) == HeadHolds(head, a)
  }

  ghost predicate RunSays(facts: seq<Fact>, run: RunId) {
    && (forall a: Attribute {:trigger Values(facts, RunEntity(run), a)} ::
          !a.SnapshotOf? ==> Values(facts, RunEntity(run), a) == RunHolds(run, a))
    && exists s: string :: Values(facts, RunEntity(run), SnapshotOf) == [To(SnapshotEntity(s))]
  }

  /** The violation of an issue, by its place in the result. */
  function ViolationOf(r: ResultId, k: nat): Entity
    requires k < |r.observation.issues|
  {
    ViolationEntity(HashViolation(r, k, r.observation.issues[k]))
  }

  /** A known result says what it is, and has a violation for every issue. */
  ghost predicate ResultIsRecorded(facts: seq<Fact>, r: ResultId) {
    Known(facts, ResultEntity(r)) ==>
      ResultSays(facts, r) && forall k :: 0 <= k < |r.observation.issues| ==> Known(facts, ViolationOf(r, k))
  }

  /** A known violation says what it is, and is that of an issue of a known result. */
  ghost predicate ViolationIsRecorded(facts: seq<Fact>, v: ViolationId) {
    Known(facts, ViolationEntity(v)) ==>
      && ViolationSays(facts, v) && Known(facts, ResultEntity(v.result))
      && v.index < |v.result.observation.issues| && v.issue == v.result.observation.issues[v.index]
  }

  /** The value points at a known result of the head's subject. */
  ghost predicate IsTarget(facts: seq<Fact>, head: Entity, value: Value)
    requires head.HeadEntity?
  {
    && value.To? && value.entity.ResultEntity? && Known(facts, value.entity)
    && value.entity.result.observation.subject == head.subject
    && value.entity.result.observation.entityType == head.entityType
  }

  /** A known head says what it is, and points only at results of its subject. */
  ghost predicate HeadIsRecorded(facts: seq<Fact>, head: Entity)
    requires head.HeadEntity?
  {
    Known(facts, head) ==>
      HeadSays(facts, head) && forall value :: value in Values(facts, head, ResultOf) ==> IsTarget(facts, head, value)
  }

  ghost predicate RunIsRecorded(facts: seq<Fact>, run: RunId) {
    Known(facts, RunEntity(run)) ==> RunSays(facts, run)
  }

  ghost predicate CheckpointSays(facts: seq<Fact>, ref: string) {
    forall a: Attribute {:trigger Values(facts, CheckpointEntity(ref), a)} ::
      !IsPointer(CheckpointEntity(ref), a) ==> Values(facts, CheckpointEntity(ref), a) == CheckpointTagHolds(ref, a)
  }

  ghost predicate PointsAtRuns(facts: seq<Fact>, ref: string) {
    forall value :: value in Values(facts, CheckpointEntity(ref), ResultOf) ==> value.To? && value.entity.RunEntity?
  }

  /** A known checkpoint says what it is, and points only at runs. */
  ghost predicate CheckpointIsRecorded(facts: seq<Fact>, ref: string) {
    Known(facts, CheckpointEntity(ref)) ==> CheckpointSays(facts, ref) && PointsAtRuns(facts, ref)
  }

  ghost predicate Recorded(facts: seq<Fact>) {
    && (forall r {:trigger ResultIsRecorded(facts, r)} :: ResultIsRecorded(facts, r))
    && (forall v {:trigger ViolationIsRecorded(facts, v)} :: ViolationIsRecorded(facts, v))
    && (forall head: Entity {:trigger HeadIsRecorded(facts, head)} :: head.HeadEntity? ==> HeadIsRecorded(facts, head))
    && (forall run {:trigger RunIsRecorded(facts, run)} :: RunIsRecorded(facts, run))
    && (forall ref: string {:trigger CheckpointIsRecorded(facts, ref)} :: CheckpointIsRecorded(facts, ref))
  }

  lemma EmptyIsRecorded()
    ensures Recorded([])
  {
  }

  // ---- What a committed plan adds ---------------------------------------------------

  lemma UnknownHoldsNothing(facts: seq<Fact>, e: Entity, a: Attribute)
    requires !Known(facts, e)
    ensures Values(facts, e, a) == []
  {
    FilterNone(At(e, a), facts);
  }

  lemma KnownHoldsSomething(facts: seq<Fact>, e: Entity) returns (a: Attribute)
    requires Known(facts, e)
    ensures Values(facts, e, a) != []
  {
    var f :| f in facts && f.entity == e;
    a := f.attribute;
    assert f in Rows(facts, e, a);
  }

  lemma UnmovedGains(facts: seq<Fact>, input: Input, ids: seq<string>, e: Entity, a: Attribute)
    requires Healthy(facts) && DistinctSubjects(input.observations) && Generated(facts, Plan(facts, input), ids)
    requires e.ResultEntity? || e.ViolationEntity? || e.RunEntity? || (e.HeadEntity? && !a.ResultOf?)
    ensures Values(ApplyOps(facts, Plan(facts, input), ids), e, a)
      == Values(facts, e, a) + Asserted(Plan(facts, input), e, a)
  {
    UnmovedRowsStay(facts, input, e, a);
    Extended(facts, Plan(facts, input), ids, e, a);
  }

  lemma AboutWhich(input: Input, e: Entity) returns (i: nat)
    requires exists j :: 0 <= j < |input.observations| && IsAbout(input, input.observations[j], e)
    ensures i < |input.observations| && IsAbout(input, input.observations[i], e)
  {
    i :| 0 <= i < |input.observations| && IsAbout(input, input.observations[i], e);
  }

  lemma PlanAssertsResult(facts: seq<Fact>, input: Input, r: ResultId, a: Attribute)
    requires DistinctSubjects(input.observations)
    ensures var e := ResultEntity(r);
      var observed := exists j :: 0 <= j < |input.observations| && IsAbout(input, input.observations[j], e);
      Asserted(Plan(facts, input), e, a) == if observed && !Known(facts, e) then ResultHolds(r, a) else []
  {
    var e := ResultEntity(r);
    if exists j :: 0 <= j < |input.observations| && IsAbout(input, input.observations[j], e) {
      var i := AboutWhich(input, e);
      PlanAsserts(facts, input, i, e, a);
      ObservationAssertsResult(facts, input, input.observations[i], a);
    } else {
      PlanAssertsNothing(facts, input, e, a);
    }
  }

  lemma ResultGains(facts: seq<Fact>, input: Input, ids: seq<string>, after: seq<Fact>, r: ResultId, a: Attribute)
    requires Healthy(facts) && DistinctSubjects(input.observations) && Generated(facts, Plan(facts, input), ids)
    requires after == ApplyOps(facts, Plan(facts, input), ids)
    ensures var e := ResultEntity(r);
      var observed := exists j :: 0 <= j < |input.observations| && IsAbout(input, input.observations[j], e);
      Values(after, e, a) == Values(facts, e, a) + if observed && !Known(facts, e) then ResultHolds(r, a) else []
  {
    UnmovedGains(facts, input, ids, ResultEntity(r), a);
    PlanAssertsResult(facts, input, r, a);
  }

  // ---- Results ---------------------------------------------------------------------

  /** A newly recorded result says exactly what was observed. */
  lemma NewResultSays(facts: seq<Fact>, input: Input, ids: seq<string>, after: seq<Fact>, i: nat)
    requires Healthy(facts) && DistinctSubjects(input.observations) && Generated(facts, Plan(facts, input), ids)
    requires after == ApplyOps(facts, Plan(facts, input), ids) && i < |input.observations|
    requires !Known(facts, ResultEntity(HashResult(input.observations[i], input.snapshot)))
    ensures ResultSays(after, HashResult(input.observations[i], input.snapshot))
  {
    var r := HashResult(input.observations[i], input.snapshot);
    assert IsAbout(input, input.observations[i], ResultEntity(r));
    forall a ensures Values(after, ResultEntity(r), a) == ResultHolds(r, a) {
      ResultGains(facts, input, ids, after, r, a);
      UnknownHoldsNothing(facts, ResultEntity(r), a);
    }
  }

  lemma OldResultSays(facts: seq<Fact>, input: Input, ids: seq<string>, after: seq<Fact>, r: ResultId)
    requires Healthy(facts) && DistinctSubjects(input.observations) && Generated(facts, Plan(facts, input), ids)
    requires after == ApplyOps(facts, Plan(facts, input), ids)
    requires Known(facts, ResultEntity(r)) && ResultSays(facts, r)
    ensures ResultSays(after, r)
  {
    forall a ensures Values(after, ResultEntity(r), a) == ResultHolds(r, a) {
      ResultGains(facts, input, ids, after, r, a);
    }
  }

  lemma NewResultIsObserved(facts: seq<Fact>, input: Input, ids: seq<string>, after: seq<Fact>, r: ResultId)
      returns (i: nat)
    requires Healthy(facts) && DistinctSubjects(input.observations) && Generated(facts, Plan(facts, input), ids)
    requires after == ApplyOps(facts, Plan(facts, input), ids)
    requires Known(after, ResultEntity(r)) && !Known(facts, ResultEntity(r))
    ensures i < |input.observations| && r == HashResult(input.observations[i], input.snapshot)
  {
    var a := KnownHoldsSomething(after, ResultEntity(r));
    ResultGains(facts, input, ids, after, r, a);
    UnknownHoldsNothing(facts, ResultEntity(r), a);
    i := AboutWhich(input, ResultEntity(r));
  }

  lemma ResultStaysRecorded(facts: seq<Fact>, input: Input, ids: seq<string>, after: seq<Fact>, r: ResultId)
    requires Healthy(facts) && DistinctSubjects(input.observations) && Generated(facts, Plan(facts, input), ids)
    requires after == ApplyOps(facts, Plan(facts, input), ids) && ResultIsRecorded(facts, r)
    ensures ResultIsRecorded(after, r)
  {
    if Known(facts, ResultEntity(r)) {
      OldResultSays(facts, input, ids, after, r);
      forall k | 0 <= k < |r.observation.issues| ensures Known(after, ViolationOf(r, k)) {
        KnownStays(facts, input, ids, ViolationOf(r, k));
      }
    } else if Known(after, ResultEntity(r)) {
      var i := NewResultIsObserved(facts, input, ids, after, r);
      NewResultSays(facts, input, ids, after, i);
      forall k | 0 <= k < |r.observation.issues| ensures Known(after, ViolationOf(r, k)) {
        ViolationsAreKnown(facts, input, ids, i, k);
      }
    }
  }

  // ---- Violations --------------------------------------------------------------------

  /** Some observation has the violation's issue at its index, and the violation is new. */
  ghost predicate IsFound(facts: seq<Fact>, input: Input, v: ViolationId, i: nat) {
    i < |input.observations| && IsNewViolation(facts, input, input.observations[i], |input.observations[i].issues|, v)
  }

  lemma PlanAssertsViolation(facts: seq<Fact>, input: Input, v: ViolationId, a: Attribute)
    requires DistinctSubjects(input.observations)
    ensures (exists i: nat :: IsFound(facts, input, v, i)) ==>
      Asserted(Plan(facts, input), ViolationEntity(v), a) == ViolationHolds(v, a)
    ensures !(exists i: nat :: IsFound(facts, input, v, i)) ==>
      Asserted(Plan(facts, input), ViolationEntity(v), a) == []
  {
    var e := ViolationEntity(v);
    if exists j :: 0 <= j < |input.observations| && IsAbout(input, input.observations[j], e) {
      var i := AboutWhich(input, e);
      PlanAsserts(facts, input, i, e, a);
      ObservationAssertsViolation(facts, input, input.observations[i], v, a);
      OneIsAbout(input, i, e);
      assert IsFound(facts, input, v, i)
        <==> IsNewViolation(facts, input, input.observations[i], |input.observations[i].issues|, v);
      forall j: nat | IsFound(facts, input, v, j) ensures j == i {
        assert IsAbout(input, input.observations[j], e);
      }
    } else {
      PlanAssertsNothing(facts, input, e, a);
      forall j: nat ensures !IsFound(facts, input, v, j) {
        if j < |input.observations| {
          assert !IsAbout(input, input.observations[j], e);
        }
      }
    }
  }

  lemma ViolationGains(facts: seq<Fact>, input: Input, ids: seq<string>, after: seq<Fact>, v: ViolationId, a: Attribute)
    requires Healthy(facts) && DistinctSubjects(input.observations) && Generated(facts, Plan(facts, input), ids)
    requires after == ApplyOps(facts, Plan(facts, input), ids)
    ensures (exists i: nat :: IsFound(facts, input, v, i)) ==>
      Values(after, ViolationEntity(v), a) == Values(facts, ViolationEntity(v), a) + ViolationHolds(v, a)
    ensures !(exists i: nat :: IsFound(facts, input, v, i)) ==>
      Values(after, ViolationEntity(v), a) == Values(facts, ViolationEntity(v), a)
  {
    UnmovedGains(facts, input, ids, ViolationEntity(v), a);
    PlanAssertsViolation(facts, input, v, a);
  }

  lemma ViolationIsFound(facts: seq<Fact>, input: Input, ids: seq<string>, after: seq<Fact>, v: ViolationId)
      returns (i: nat)
    requires Healthy(facts) && DistinctSubjects(input.observations) && Generated(facts, Plan(facts, input), ids)
    requires after == ApplyOps(facts, Plan(facts, input), ids)
    requires Known(after, ViolationEntity(v)) && !Known(facts, ViolationEntity(v))
    ensures IsFound(facts, input, v, i)
  {
    var a := KnownHoldsSomething(after, ViolationEntity(v));
    ViolationGains(facts, input, ids, after, v, a);
    UnknownHoldsNothing(facts, ViolationEntity(v), a);
    i :| IsFound(facts, input, v, i);
  }

  lemma NewViolationSays(facts: seq<Fact>, input: Input, ids: seq<string>, after: seq<Fact>, v: ViolationId, i: nat)
    requires Healthy(facts) && DistinctSubjects(input.observations) && Generated(facts, Plan(facts, input), ids)
    requires after == ApplyOps(facts, Plan(facts, input), ids) && IsFound(facts, input, v, i)
    ensures ViolationSays(after, v)
  {
    forall a ensures Values(after, ViolationEntity(v), a) == ViolationHolds(v, a) {
      ViolationGains(facts, input, ids, after, v, a);
      UnknownHoldsNothing(facts, ViolationEntity(v), a);
    }
  }

  lemma OldViolationSays(facts: seq<Fact>, input: Input, ids: seq<string>, after: seq<Fact>, v: ViolationId)
    requires Healthy(facts) && DistinctSubjects(input.observations) && Generated(facts, Plan(facts, input), ids)
    requires after == ApplyOps(facts, Plan(facts, input), ids)
    requires Known(facts, ViolationEntity(v)) && ViolationSays(facts, v)
    ensures ViolationSays(after, v)
  {
    forall a ensures Values(after, ViolationEntity(v), a) == ViolationHolds(v, a) {
      ViolationGains(facts, input, ids, after, v, a);
    }
  }

  lemma ViolationStaysRecorded(facts: seq<Fact>, input: Input, ids: seq<string>, after: seq<Fact>, v: ViolationId)
    requires Healthy(facts) && DistinctSubjects(input.observations) && Generated(facts, Plan(facts, input), ids)
    requires after == ApplyOps(facts, Plan(facts, input), ids) && ViolationIsRecorded(facts, v)
    ensures ViolationIsRecorded(after, v)
  {
    if Known(facts, ViolationEntity(v)) {
      OldViolationSays(facts, input, ids, after, v);
      KnownStays(facts, input, ids, ResultEntity(v.result));
    } else if Known(after, ViolationEntity(v)) {
      var i := ViolationIsFound(facts, input, ids, after, v);
      NewViolationSays(facts, input, ids, after, v, i);
      ResultIsKnown(facts, input, ids, i);
    }
  }

  // ---- Heads and runs ------------------------------------------------------------------

  lemma PlanTagsHead(facts: seq<Fact>, input: Input, head: Entity, a: Attribute)
    requires DistinctSubjects(input.observations) && head.HeadEntity? && !a.ResultOf?
    requires Known(facts, head) ==> IsRefHead(facts, head.ref, head)
    ensures var observed := exists j :: 0 <= j < |input.observations| && IsAbout(input, input.observations[j], head);
      Asserted(Plan(facts, input), head, a) == if observed && !Known(facts, head) then HeadHolds(head, a) else []
  {
    if exists j :: 0 <= j < |input.observations| && IsAbout(input, input.observations[j], head) {
      var i := AboutWhich(input, head);
      PlanAsserts(facts, input, i, head, a);
      ObservationAssertsTags(facts, input, input.observations[i], a);
      if !Known(facts, head) {
        UnknownHoldsNothing(facts, head, RefOf);
      }
    } else {
      PlanAssertsNothing(facts, input, head, a);
    }
  }

  lemma KnownHeadIsTagged(facts: seq<Fact>, head: Entity)
    requires HeadsAreTagged(facts) && head.HeadEntity? && Known(facts, head)
    ensures IsRefHead(facts, head.ref, head)
  {
    var f :| f in facts && f.entity == head;
  }

  lemma HeadGains(facts: seq<Fact>, input: Input, ids: seq<string>, after: seq<Fact>, head: Entity, a: Attribute)
    requires Healthy(facts) && DistinctSubjects(input.observations) && Generated(facts, Plan(facts, input), ids)
    requires after == ApplyOps(facts, Plan(facts, input), ids) && head.HeadEntity? && !a.ResultOf?
    ensures var observed := exists j :: 0 <= j < |input.observations| && IsAbout(input, input.observations[j], head);
      Values(after, head, a)
      == Values(facts, head, a) + if observed && !Known(facts, head) then HeadHolds(head, a) else []
  {
    if Known(facts, head) {
      KnownHeadIsTagged(facts, head);
    }
    UnmovedGains(facts, input, ids, head, a);
    PlanTagsHead(facts, input, head, a);
  }

  lemma UnobservedStaysUnknown(facts: seq<Fact>, input: Input, ids: seq<string>, after: seq<Fact>, head: Entity)
    requires Healthy(facts) && DistinctSubjects(input.observations) && Generated(facts, Plan(facts, input), ids)
    requires after == ApplyOps(facts, Plan(facts, input), ids) && head.HeadEntity? && !Known(facts, head)
    requires forall j :: 0 <= j < |input.observations| ==> !IsAbout(input, input.observations[j], head)
    ensures !Known(after, head)
  {
    if Known(after, head) {
      var a := KnownHoldsSomething(after, head);
      UnknownHoldsNothing(facts, head, a);
      if a.ResultOf? {
        UnobservedPointsNowhere(facts, input, ids, after, head);
      } else {
        HeadGains(facts, input, ids, after, head, a);
      }
    }
  }

  lemma UnobservedPointsNowhere(facts: seq<Fact>, input: Input, ids: seq<string>, after: seq<Fact>, head: Entity)
    requires Healthy(facts) && DistinctSubjects(input.observations) && Generated(facts, Plan(facts, input), ids)
    requires after == ApplyOps(facts, Plan(facts, input), ids) && head.HeadEntity? && !Known(facts, head)
    requires forall j :: 0 <= j < |input.observations| ==> !IsAbout(input, input.observations[j], head)
    ensures Values(after, head, ResultOf) == []
  {
    UnknownHoldsNothing(facts, head, ResultOf);
    if head.ref == input.ref {
      if head in ActiveHeads(input, input.observations) {
        var i := ActiveIndex(input, head);
        assert IsAbout(input, input.observations[i], head);
      }
      InactiveHeadsAreCleared(facts, input, ids, head);
    } else {
      OtherRefsStay(facts, input, ids, head);
    }
  }

  lemma HeadStaysSaying(facts: seq<Fact>, input: Input, ids: seq<string>, after: seq<Fact>, head: Entity)
    requires Healthy(facts) && DistinctSubjects(input.observations) && Generated(facts, Plan(facts, input), ids)
    requires after == ApplyOps(facts, Plan(facts, input), ids) && head.HeadEntity?
    requires Known(facts, head) ==> HeadSays(facts, head)
    requires Known(after, head)
    ensures HeadSays(after, head)
  {
    var observed := exists j :: 0 <= j < |input.observations| && IsAbout(input, input.observations[j], head);
    if !Known(facts, head) && !observed {
      UnobservedStaysUnknown(facts, input, ids, after, head);
    }
    forall a: Attribute | !a.ResultOf? ensures Values(after, head, a) == HeadHolds(head, a) {
      HeadGains(facts, input, ids, after, head, a);
      if !Known(facts, head) {
        UnknownHoldsNothing(facts, head, a);
      }
    }
  }

  lemma TargetStays(facts: seq<Fact>, input: Input, ids: seq<string>, after: seq<Fact>, head: Entity, value: Value)
    requires Healthy(facts) && DistinctSubjects(input.observations) && Generated(facts, Plan(facts, input), ids)
    requires after == ApplyOps(facts, Plan(facts, input), ids) && head.HeadEntity? && IsTarget(facts, head, value)
    ensures IsTarget(after, head, value)
  {
    KnownStays(facts, input, ids, value.entity);
  }

  lemma HeadStaysPointing(facts: seq<Fact>, input: Input, ids: seq<string>, after: seq<Fact>, head: Entity,
                          value: Value)
    requires Healthy(facts) && DistinctSubjects(input.observations) && Generated(facts, Plan(facts, input), ids)
    requires after == ApplyOps(facts, Plan(facts, input), ids) && head.HeadEntity? && HeadIsRecorded(facts, head)
    requires value in Values(after, head, ResultOf)
    ensures IsTarget(after, head, value)
  {
    if head.ref != input.ref {
      OtherRefsStay(facts, input, ids, head);
      if !Known(facts, head) {
        UnknownHoldsNothing(facts, head, ResultOf);
      }
      TargetStays(facts, input, ids, after, head, value);
    } else if head in ActiveHeads(input, input.observations) {
      var i := ActiveIndex(input, head);
      ActiveHeadPointsAtItsResult(facts, input, ids, i);
      ResultIsKnown(facts, input, ids, i);
    } else {
      InactiveHeadsAreCleared(facts, input, ids, head);
    }
  }

  lemma HeadStaysRecorded(facts: seq<Fact>, input: Input, ids: seq<string>, after: seq<Fact>, head: Entity)
    requires Healthy(facts) && DistinctSubjects(input.observations) && Generated(facts, Plan(facts, input), ids)
    requires after == ApplyOps(facts, Plan(facts, input), ids) && head.HeadEntity? && HeadIsRecorded(facts, head)
    ensures HeadIsRecorded(after, head)
  {
    if Known(after, head) {
      HeadStaysSaying(facts, input, ids, after, head);
      forall value | value in Values(after, head, ResultOf) ensures IsTarget(after, head, value) {
        HeadStaysPointing(facts, input, ids, after, head, value);
      }
    }
  }

  lemma RunStaysRecorded(facts: seq<Fact>, input: Input, ids: seq<string>, after: seq<Fact>, run: RunId)
    requires Healthy(facts) && DistinctSubjects(input.observations) && Generated(facts, Plan(facts, input), ids)
    requires after == ApplyOps(facts, Plan(facts, input), ids) && RunIsRecorded(facts, run)
    ensures RunIsRecorded(after, run)
  {
    if Known(after, RunEntity(run)) {
      forall a ensures Values(after, RunEntity(run), a)
        == Values(facts, RunEntity(run), a) + Asserted(Plan(facts, input), RunEntity(run), a)
      {
        UnmovedGains(facts, input, ids, RunEntity(run), a);
      }
      forall a ensures !Known(facts, RunEntity(run)) ==> Values(facts, RunEntity(run), a) == [] {
        if !Known(facts, RunEntity(run)) {
          UnknownHoldsNothing(facts, RunEntity(run), a);
        }
      }
      var known := KnownHoldsSomething(after, RunEntity(run));
      forall a: Attribute ensures Asserted(Plan(facts, input), RunEntity(run), a)
        == if run != RunIdOf(input) || Known(facts, RunEntity(run)) then []
           else if a.SnapshotOf? then [To(SnapshotEntity(input.snapshot.id))] else RunHolds(run, a)
      {
        PlanAssertsRun(facts, input, run, a);
      }
    }
  }

  lemma CheckpointGains(facts: seq<Fact>, input: Input, ids: seq<string>, after: seq<Fact>, ref: string, a: Attribute)
    requires Healthy(facts) && DistinctSubjects(input.observations) && Generated(facts, Plan(facts, input), ids)
    requires after == ApplyOps(facts, Plan(facts, input), ids) && !IsPointer(CheckpointEntity(ref), a)
    ensures var e := CheckpointEntity(ref);
      Values(after, e, a)
      == Values(facts, e, a) + if ref != input.ref || Known(facts, e) then [] else CheckpointTagHolds(ref, a)
  {
    UnmovedRowsStay(facts, input, CheckpointEntity(ref), a);
    Extended(facts, Plan(facts, input), ids, CheckpointEntity(ref), a);
    PlanAssertsTag(facts, input, ref, a);
  }

  lemma CheckpointIsKnownAlready(facts: seq<Fact>, input: Input, ids: seq<string>, after: seq<Fact>, ref: string)
    requires Healthy(facts) && DistinctSubjects(input.observations) && Generated(facts, Plan(facts, input), ids)
    requires after == ApplyOps(facts, Plan(facts, input), ids) && ref != input.ref
    requires Known(after, CheckpointEntity(ref))
    ensures Known(facts, CheckpointEntity(ref))
  {
    var e := CheckpointEntity(ref);
    var a := KnownHoldsSomething(after, e);
    if IsPointer(e, a) {
      OtherCheckpointsStay(facts, input, ids, ref, a);
    } else {
      CheckpointGains(facts, input, ids, after, ref, a);
    }
    HolderExists(facts, e, a);
  }

  lemma CheckpointStaysSaying(facts: seq<Fact>, input: Input, ids: seq<string>, after: seq<Fact>, ref: string)
    requires Healthy(facts) && DistinctSubjects(input.observations) && Generated(facts, Plan(facts, input), ids)
    requires after == ApplyOps(facts, Plan(facts, input), ids) && CheckpointIsRecorded(facts, ref)
    requires ref == input.ref || Known(facts, CheckpointEntity(ref))
    ensures CheckpointSays(after, ref)
  {
    var e := CheckpointEntity(ref);
    forall a | !IsPointer(e, a) ensures Values(after, e, a) == CheckpointTagHolds(ref, a) {
      CheckpointGains(facts, input, ids, after, ref, a);
      if !Known(facts, e) {
        UnknownHoldsNothing(facts, e, a);
      }
    }
  }

  lemma CheckpointStaysPointing(facts: seq<Fact>, input: Input, ids: seq<string>, after: seq<Fact>, ref: string)
    requires Healthy(facts) && DistinctSubjects(input.observations) && Generated(facts, Plan(facts, input), ids)
    requires after == ApplyOps(facts, Plan(facts, input), ids) && PointsAtRuns(facts, ref)
    ensures PointsAtRuns(after, ref)
  {
    if ref == input.ref {
      CheckpointIsMoved(facts, input, ids, ResultOf);
    } else {
      OtherCheckpointsStay(facts, input, ids, ref, ResultOf);
    }
  }

  lemma UnknownPointsNowhere(facts: seq<Fact>, ref: string)
    requires !Known(facts, CheckpointEntity(ref))
    ensures PointsAtRuns(facts, ref)
  {
    UnknownHoldsNothing(facts, CheckpointEntity(ref), ResultOf);
  }

  lemma CheckpointStaysRecorded(facts: seq<Fact>, input: Input, ids: seq<string>, after: seq<Fact>, ref: string)
    requires Healthy(facts) && DistinctSubjects(input.observations) && Generated(facts, Plan(facts, input), ids)
    requires after == ApplyOps(facts, Plan(facts, input), ids) && CheckpointIsRecorded(facts, ref)
    ensures CheckpointIsRecorded(after, ref)
  {
    if Known(after, CheckpointEntity(ref)) {
      if ref != input.ref {
        CheckpointIsKnownAlready(facts, input, ids, after, ref);
      } else if !Known(facts, CheckpointEntity(ref)) {
        UnknownPointsNowhere(facts, ref);
      }
      CheckpointStaysPointing(facts, input, ids, after, ref);
      CheckpointStaysSaying(facts, input, ids, after, ref);
    }
  }

  /** A revalidation keeps every record, and adds only records. */
  lemma RevalidationKeepsRecords(facts: seq<Fact>, input: Input, ids: seq<string>, after: seq<Fact>)
    requires Healthy(facts) && DistinctSubjects(input.observations) && Generated(facts, Plan(facts, input), ids)
    requires after == ApplyOps(facts, Plan(facts, input), ids) && Recorded(facts)
    ensures Recorded(after)
  {
    forall r ensures ResultIsRecorded(after, r) {
      assert ResultIsRecorded(facts, r);
      ResultStaysRecorded(facts, input, ids, after, r);
    }
    forall v ensures ViolationIsRecorded(after, v) {
      assert ViolationIsRecorded(facts, v);
      ViolationStaysRecorded(facts, input, ids, after, v);
    }
    forall head: Entity | head.HeadEntity? ensures HeadIsRecorded(after, head) {
      assert HeadIsRecorded(facts, head);
      HeadStaysRecorded(facts, input, ids, after, head);
    }
    forall run ensures RunIsRecorded(after, run) {
      assert RunIsRecorded(facts, run);
      RunStaysRecorded(facts, input, ids, after, run);
    }
    forall ref ensures CheckpointIsRecorded(after, ref) {
      assert CheckpointIsRecorded(facts, ref);
      CheckpointStaysRecorded(facts, input, ids, after, ref);
    }
  }
}
