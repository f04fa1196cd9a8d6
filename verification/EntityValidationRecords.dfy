/**
 * What the projector's stored entities say: every result, violation, run and
 * head says exactly what it is the identity of, over every run.
 */
module EntityValidationRecords {
  import opened Wrappers
  import opened Seqs
  import opened EntityValidation
  import opened EntityValidationProofs
  import opened EntityValidationRuns
  import opened EntityValidationHealth

  // ---- What an entity says -------------------------------------------------------

  /** The values a result holds: what was observed of its subject, and whether that is valid. */
  function ResultHolds(r: ResultId, a: Attribute): seq<Value> {
    match a
    case ContentIdOf => [CidOf(ResultEntity(r))]
    case SubjectOf => [To(r.observation.subject)]
    case EntityTypeOf => [Text(r.observation.entityType)]
    case SchemaOf => [Text(r.observation.schemaId)]
    case SnapshotOf => [To(SnapshotEntity(r.snapshot.id))]
    case SnapshotRootOf => [Text(r.snapshot.rootCid)]
    case ValidOf => [Flag(|r.observation.issues| == 0)]
    case StateOf => [Text(r.observation.stateCid)]
    case _ => []
  }

  /** The values a violation holds: its result, that result's subject, and the issue. */
  function ViolationHolds(v: ViolationId, a: Attribute): seq<Value> {
    match a
    case ContentIdOf => [CidOf(ViolationEntity(v))]
    case ResultOf => [To(ResultEntity(v.result))]
    case SubjectOf => [To(v.result.observation.subject)]
    case CodeOf => [Text(v.issue.code)]
    case PathOf => [Text(v.issue.path)]
    case MessageOf => [Text(v.issue.message)]
    case ConstraintOf => if v.issue.constraintKey.Some? then [Text(v.issue.constraintKey.value)] else []
    case _ => []
  }

  /** The values a head holds besides the result it points at. */
  function HeadHolds(head: Entity, a: Attribute): seq<Value>
    requires head.HeadEntity?
  {
    match a
    case RefOf => [Text(head.ref)]
    case SubjectOf => [To(head.subject)]
    case EntityTypeOf => [Text(head.entityType)]
    case _ => []
  }

  function ResultRefs(results: seq<ResultId>): (refs: seq<Value>)
    ensures |refs| == |results| && forall i :: 0 <= i < |results| ==> refs[i] == To(ResultEntity(results[i]))
  {
    if results == [] then []
    else ResultRefs(results[..|results| - 1]) + [To(ResultEntity(results[|results| - 1]))]
  }

  /** The values a run holds besides the snapshot it first ran under. */
  function RunHolds(run: RunId, a: Attribute): seq<Value> {
    match a
    case ContentIdOf => [CidOf(RunEntity(run))]
    case RunRefOf => [Text(run.ref)]
    case SourcePositionOf => [Number(run.sourcePosition)]
    case RunResultOf => ResultRefs(run.results)
    case _ => []
  }

  // ---- What one plan asserts ------------------------------------------------------

  /** Of the operations only the i-th asserts the attribute of the entity. */
  lemma {:induction false} OnlyOneAsserts(ops: seq<Op>, i: nat, e: Entity, a: Attribute, value: Value)
    requires i < |ops| && ops[i] == AssertOp(e, a, value)
    requires forall j :: 0 <= j < |ops| && j != i ==> !(ops[j].AssertOp? && ops[j].entity == e && ops[j].attribute == a)
    ensures Asserted(ops, e, a) == [value]
  {
    var last := |ops| - 1;
    if i < last {
      OnlyOneAsserts(ops[..last], i, e, a, value);
    } else {
      forall op | op in ops[..last] && op.AssertOp? ensures !(op.entity == e && op.attribute == a) {
        var j :| 0 <= j < last && ops[j] == op;
      }
      NothingAsserted(ops[..last], e, a);
    }
  }

  /** The operations assert different attributes of the one entity. */
  ghost predicate DescribeOnce(ops: seq<Op>, e: Entity) {
    && (forall i :: 0 <= i < |ops| ==> ops[i].AssertOp? && ops[i].entity == e)
    && forall i, j :: 0 <= i < j < |ops| ==> ops[i].attribute != ops[j].attribute
  }

  lemma DescribedOnce(ops: seq<Op>, e: Entity, i: nat)
    requires DescribeOnce(ops, e) && i < |ops|
    ensures Asserted(ops, e, ops[i].attribute) == [ops[i].value]
  {
    OnlyOneAsserts(ops, i, e, ops[i].attribute, ops[i].value);
  }

  lemma NotDescribed(ops: seq<Op>, e: Entity, a: Attribute)
    requires forall i :: 0 <= i < |ops| && ops[i].AssertOp? ==> ops[i].attribute != a
    ensures Asserted(ops, e, a) == []
  {
    forall op | op in ops && op.AssertOp? ensures op.attribute != a {
      var i :| 0 <= i < |ops| && ops[i] == op;
    }
    NothingAsserted(ops, e, a);
  }

  lemma ResultIsDescribedOnce(input: Input, o: Observation)
    ensures DescribeOnce(AssertResult(input, o), ResultEntity(ResultIdOf(input, o)))
  {
  }

  lemma ResultIsAsserted(input: Input, o: Observation, a: Attribute)
    ensures var r := ResultIdOf(input, o);
      Asserted(AssertResult(input, o), ResultEntity(r), a) == ResultHolds(r, a)
  {
    var e, ops := ResultEntity(ResultIdOf(input, o)), AssertResult(input, o);
    ResultIsDescribedOnce(input, o);
    match a {
      case ContentIdOf => DescribedOnce(ops, e, 0);
      case SubjectOf => DescribedOnce(ops, e, 1);
      case EntityTypeOf => DescribedOnce(ops, e, 2);
      case SchemaOf => DescribedOnce(ops, e, 3);
      case SnapshotOf => DescribedOnce(ops, e, 4);
      case SnapshotRootOf => DescribedOnce(ops, e, 5);
      case ValidOf => DescribedOnce(ops, e, 6);
      case StateOf => DescribedOnce(ops, e, 7);
      case _ => NotDescribed(ops, e, a);
    }
  }

  /** What is asserted of a violation besides the constraint it breaks. */
  function ViolationHeader(v: ViolationId): seq<Op> {
    var e := ViolationEntity(v);
    [AssertOp(e, ContentIdOf, CidOf(e)), AssertOp(e, ResultOf, To(ResultEntity(v.result))),
     AssertOp(e, SubjectOf, To(v.result.observation.subject)), AssertOp(e, CodeOf, Text(v.issue.code)),
     AssertOp(e, PathOf, Text(v.issue.path)), AssertOp(e, MessageOf, Text(v.issue.message))]
  }

  lemma ViolationHeaderAsserts(v: ViolationId, a: Attribute)
    ensures Asserted(ViolationHeader(v), ViolationEntity(v), a) == if a.ConstraintOf? then [] else ViolationHolds(v, a)
  {
    var e, ops := ViolationEntity(v), ViolationHeader(v);
    assert DescribeOnce(ops, e);
    match a {
      case ContentIdOf => DescribedOnce(ops, e, 0);
      case ResultOf => DescribedOnce(ops, e, 1);
      case SubjectOf => DescribedOnce(ops, e, 2);
      case CodeOf => DescribedOnce(ops, e, 3);
      case PathOf => DescribedOnce(ops, e, 4);
      case MessageOf => DescribedOnce(ops, e, 5);
      case _ => NotDescribed(ops, e, a);
    }
  }

  /** The constraint a violation breaks, if it is of one. */
  function ViolationTail(v: ViolationId): seq<Op> {
    var constraintKey := v.issue.constraintKey;
    if constraintKey.None? then [] else [AssertOp(ViolationEntity(v), ConstraintOf, Text(constraintKey.value))]
  }

  lemma ViolationTailAsserts(v: ViolationId, a: Attribute)
    ensures Asserted(ViolationTail(v), ViolationEntity(v), a) == if a.ConstraintOf? then ViolationHolds(v, a) else []
  {
    if a.ConstraintOf? && v.issue.constraintKey.Some? {
      OneAsserted(ViolationEntity(v), ConstraintOf, Text(v.issue.constraintKey.value));
    } else {
      NothingAsserted(ViolationTail(v), ViolationEntity(v), a);
    }
  }

  lemma ViolationIsInTwo(v: ViolationId)
    ensures AssertViolation(v) == ViolationHeader(v) + ViolationTail(v)
  {
  }

  lemma ViolationIsAsserted(v: ViolationId, a: Attribute)
    ensures Asserted(AssertViolation(v), ViolationEntity(v), a) == ViolationHolds(v, a)
  {
    ViolationIsInTwo(v);
    AssertedConcat(ViolationHeader(v), ViolationTail(v), ViolationEntity(v), a);
    ViolationHeaderAsserts(v, a);
    ViolationTailAsserts(v, a);
  }

  lemma ObservationAssertsResult(facts: seq<Fact>, input: Input, o: Observation, a: Attribute)
    ensures var r := ResultIdOf(input, o);
      Asserted(Observe(facts, input, o), ResultEntity(r), a)
        == if Known(facts, ResultEntity(r)) then [] else ResultHolds(r, a)
  {
    var e := ResultEntity(ResultIdOf(input, o));
    var violations, result, move :=
      NewViolations(facts, input, o, |o.issues|), NewResult(facts, input, o), MoveHead(facts, input, o);
    AssertedConcat(violations + result, move, e, a);
    AssertedConcat(violations, result, e, a);
    ViolationsOnlyAssert(facts, input, o, |o.issues|);
    NothingAsserted(violations, e, a);
    MoveHeadLeaves(facts, input, o);
    NothingAsserted(move, e, a);
    ResultIsAsserted(input, o, a);
  }

  /** The violation is one of the first k issues' and not yet known. */
  predicate IsNewViolation(facts: seq<Fact>, input: Input, o: Observation, k: nat, v: ViolationId)
    requires k <= |o.issues|
  {
    !Known(facts, ViolationEntity(v)) && v.index < k
      && v == HashViolation(ResultIdOf(input, o), v.index, o.issues[v.index])
  }

  /** What the k-th issue's violation asserts, if it is new. */
  function KthViolation(facts: seq<Fact>, input: Input, o: Observation, k: nat): seq<Op>
    requires k < |o.issues|
  {
    if Known(facts, ViolationEntity(ViolationAt(input, o, k))) then [] else AssertViolation(ViolationAt(input, o, k))
  }

  lemma KthViolationAsserts(facts: seq<Fact>, input: Input, o: Observation, k: nat, v: ViolationId, a: Attribute)
    requires k < |o.issues|
    ensures Asserted(KthViolation(facts, input, o, k), ViolationEntity(v), a)
      == if v == ViolationAt(input, o, k) && !Known(facts, ViolationEntity(v)) then ViolationHolds(v, a) else []
  {
    var id := ViolationAt(input, o, k);
    if v == id {
      ViolationIsAsserted(id, a);
      assert Asserted([], ViolationEntity(v), a) == [];
    } else {
      ViolationOnlyAsserts(id);
      NothingAsserted(KthViolation(facts, input, o, k), ViolationEntity(v), a);
    }
  }

  // A list of operations made index by index.

  function UpTo(f: nat -> seq<Op>, k: nat): seq<Op> {
    if k == 0 then [] else UpTo(f, k - 1) + f(k - 1)
  }

  lemma {:induction false} UpToAssertsNothing(f: nat -> seq<Op>, k: nat, e: Entity, a: Attribute)
    requires forall i: nat :: i < k ==> Asserted(f(i), e, a) == []
    ensures Asserted(UpTo(f, k), e, a) == []
  {
    if k > 0 {
      UpToAssertsNothing(f, k - 1, e, a);
      AssertedConcat(UpTo(f, k - 1), f(k - 1), e, a);
    }
  }

  lemma {:induction false} UpToAssertsOne(f: nat -> seq<Op>, k: nat, i: nat, e: Entity, a: Attribute)
    requires i < k && forall j: nat :: j < k && j != i ==> Asserted(f(j), e, a) == []
    ensures Asserted(UpTo(f, k), e, a) == Asserted(f(i), e, a)
  {
    AssertedConcat(UpTo(f, k - 1), f(k - 1), e, a);
    if i < k - 1 {
      UpToAssertsOne(f, k - 1, i, e, a);
    } else {
      UpToAssertsNothing(f, k - 1, e, a);
    }
  }

  function Violating(facts: seq<Fact>, input: Input, o: Observation): nat -> seq<Op> {
    (k: nat) => if k < |o.issues| then KthViolation(facts, input, o, k) else []
  }

  lemma {:induction false} NewViolationsAreUpTo(facts: seq<Fact>, input: Input, o: Observation, k: nat)
    requires k <= |o.issues|
    ensures NewViolations(facts, input, o, k) == UpTo(Violating(facts, input, o), k)
  {
    if k > 0 {
      NewViolationsAreUpTo(facts, input, o, k - 1);
    }
  }

  lemma OthersViolationsLeaveIt(facts: seq<Fact>, input: Input, o: Observation, j: nat, v: ViolationId, a: Attribute)
    requires j < |o.issues| ==> v != ViolationAt(input, o, j)
    ensures Asserted(Violating(facts, input, o)(j), ViolationEntity(v), a) == []
  {
    if j < |o.issues| {
      KthViolationAsserts(facts, input, o, j, v, a);
    }
  }

  lemma NewViolationsAssert(facts: seq<Fact>, input: Input, o: Observation, v: ViolationId, a: Attribute)
    ensures Asserted(NewViolations(facts, input, o, |o.issues|), ViolationEntity(v), a)
      == if IsNewViolation(facts, input, o, |o.issues|, v) then ViolationHolds(v, a) else []
  {
    var f, k := Violating(facts, input, o), |o.issues|;
    NewViolationsAreUpTo(facts, input, o, k);
    forall j: nat | j < k && (j != v.index || v != ViolationAt(input, o, j))
      ensures Asserted(f(j), ViolationEntity(v), a) == []
    {
      OthersViolationsLeaveIt(facts, input, o, j, v, a);
    }
    if v.index < k && v == ViolationAt(input, o, v.index) {
      UpToAssertsOne(f, k, v.index, ViolationEntity(v), a);
      KthViolationAsserts(facts, input, o, v.index, v, a);
    } else {
      UpToAssertsNothing(f, k, ViolationEntity(v), a);
    }
  }

  lemma ObservationAssertsViolation(facts: seq<Fact>, input: Input, o: Observation, v: ViolationId, a: Attribute)
    ensures Asserted(Observe(facts, input, o), ViolationEntity(v), a)
      == if IsNewViolation(facts, input, o, |o.issues|, v) then ViolationHolds(v, a) else []
  {
    var e := ViolationEntity(v);
    var violations, result, move :=
      NewViolations(facts, input, o, |o.issues|), NewResult(facts, input, o), MoveHead(facts, input, o);
    AssertedConcat(violations + result, move, e, a);
    AssertedConcat(violations, result, e, a);
    NewViolationsAssert(facts, input, o, v, a);
    ResultOnlyAsserts(facts, input, o);
    NothingAsserted(result, e, a);
    MoveHeadLeaves(facts, input, o);
    NothingAsserted(move, e, a);
  }

  lemma TagsAreAsserted(input: Input, o: Observation, a: Attribute)
    ensures Asserted(AssertHead(input, o), HeadOf(input, o), a) == HeadHolds(HeadOf(input, o), a)
  {
    var e, ops := HeadOf(input, o), AssertHead(input, o);
    match a {
      case RefOf => OnlyOneAsserts(ops, 0, e, a, Text(input.ref));
      case SubjectOf => OnlyOneAsserts(ops, 1, e, a, To(o.subject));
      case EntityTypeOf => OnlyOneAsserts(ops, 2, e, a, Text(o.entityType));
      case _ => NothingAsserted(ops, e, a);
    }
  }

  lemma UntaggedMove(facts: seq<Fact>, input: Input, o: Observation, tags: seq<Op>, a: Attribute)
    requires !a.ResultOf?
    ensures var head := HeadOf(input, o);
      var pointer := [AssertOp(head, ResultOf, To(ResultEntity(ResultIdOf(input, o))))];
      Asserted(Retractions(Targets(facts, input.ref, head)) + tags + pointer, head, a) == Asserted(tags, head, a)
  {
    var head := HeadOf(input, o);
    var moved := Retractions(Targets(facts, input.ref, head));
    var pointer := [AssertOp(head, ResultOf, To(ResultEntity(ResultIdOf(input, o))))];
    AssertedConcat(moved + tags, pointer, head, a);
    AssertedConcat(moved, tags, head, a);
    RetractionsOnlyRetract(Targets(facts, input.ref, head));
    NothingAsserted(moved, head, a);
    NothingAsserted(pointer, head, a);
  }

  /** A head that is not the ref's yet gets its tags, and one that is gets none again. */
  lemma MoveAssertsTags(facts: seq<Fact>, input: Input, o: Observation, a: Attribute)
    requires !a.ResultOf?
    ensures Asserted(MoveHead(facts, input, o), HeadOf(input, o), a)
      == if IsRefHead(facts, input.ref, HeadOf(input, o)) then [] else HeadHolds(HeadOf(input, o), a)
  {
    var head := HeadOf(input, o);
    var tags := if IsRefHead(facts, input.ref, head) then [] else AssertHead(input, o);
    assert Asserted([], head, a) == [];
    if !PointsAt(facts, input, o) {
      UntaggedMove(facts, input, o, tags, a);
      TagsAreAsserted(input, o, a);
    } else {
      PointingIsTagged(facts, input, o);
    }
  }

  lemma PointingIsTagged(facts: seq<Fact>, input: Input, o: Observation)
    requires PointsAt(facts, input, o)
    ensures IsRefHead(facts, input.ref, HeadOf(input, o))
  {
  }

  lemma ObservationAssertsTags(facts: seq<Fact>, input: Input, o: Observation, a: Attribute)
    requires !a.ResultOf?
    ensures Asserted(Observe(facts, input, o), HeadOf(input, o), a)
      == if IsRefHead(facts, input.ref, HeadOf(input, o)) then [] else HeadHolds(HeadOf(input, o), a)
  {
    var e := HeadOf(input, o);
    var violations, result, move :=
      NewViolations(facts, input, o, |o.issues|), NewResult(facts, input, o), MoveHead(facts, input, o);
    AssertedConcat(violations + result, move, e, a);
    AssertedConcat(violations, result, e, a);
    ViolationsOnlyAssert(facts, input, o, |o.issues|);
    NothingAsserted(violations, e, a);
    ResultOnlyAsserts(facts, input, o);
    NothingAsserted(result, e, a);
    MoveAssertsTags(facts, input, o, a);
  }

  /** Is the entity one that the observation can be asserted about? */
  predicate IsAbout(input: Input, o: Observation, e: Entity) {
    match e
    case ResultEntity(r) => r == ResultIdOf(input, o)
    case ViolationEntity(v) => v.result == ResultIdOf(input, o)
    case HeadEntity(_, _, _) => e == HeadOf(input, o)
    case _ => false
  }

  /** Only the i-th observation can be asserted about the entity. */
  ghost predicate OnlyAbout(input: Input, observations: seq<Observation>, i: nat, e: Entity) {
    i < |observations| && forall j :: 0 <= j < |observations| && IsAbout(input, observations[j], e) ==> j == i
  }

  lemma NotAboutIt(facts: seq<Fact>, input: Input, o: Observation, e: Entity, a: Attribute)
    requires !IsAbout(input, o, e)
    ensures Asserted(Observe(facts, input, o), e, a) == []
  {
    ObserveLeaves(facts, input, o);
    NothingAsserted(Observe(facts, input, o), e, a);
  }

  // A list of operations made observation by observation.

  function Flat(f: Observation -> seq<Op>, observations: seq<Observation>): seq<Op> {
    if observations == [] then []
    else Flat(f, observations[..|observations| - 1]) + f(observations[|observations| - 1])
  }

  function Observing(facts: seq<Fact>, input: Input): Observation -> seq<Op> {
    (o: Observation) => Observe(facts, input, o)
  }

  lemma {:induction false} ObserveAllIsFlat(facts: seq<Fact>, input: Input, observations: seq<Observation>)
    ensures ObserveAll(facts, input, observations) == Flat(Observing(facts, input), observations)
  {
    if observations != [] {
      ObserveAllIsFlat(facts, input, observations[..|observations| - 1]);
    }
  }

  lemma {:induction false} FlatAssertsNothing(f: Observation -> seq<Op>, observations: seq<Observation>, e: Entity,
                                              a: Attribute)
    requires forall j :: 0 <= j < |observations| ==> Asserted(f(observations[j]), e, a) == []
    ensures Asserted(Flat(f, observations), e, a) == []
  {
    if observations != [] {
      var init, last := observations[..|observations| - 1], observations[|observations| - 1];
      FlatAssertsNothing(f, init, e, a);
      AssertedConcat(Flat(f, init), f(last), e, a);
    }
  }

  lemma {:induction false} FlatAssertsOne(f: Observation -> seq<Op>, observations: seq<Observation>, i: nat, e: Entity,
                                          a: Attribute)
    requires i < |observations|
    requires forall j :: 0 <= j < |observations| && j != i ==> Asserted(f(observations[j]), e, a) == []
    ensures Asserted(Flat(f, observations), e, a) == Asserted(f(observations[i]), e, a)
  {
    var init, last := observations[..|observations| - 1], observations[|observations| - 1];
    AssertedConcat(Flat(f, init), f(last), e, a);
    if i < |init| {
      FlatAssertsOne(f, init, i, e, a);
    } else {
      FlatAssertsNothing(f, init, e, a);
    }
  }

  lemma OneObservationAsserts(facts: seq<Fact>, input: Input, observations: seq<Observation>, i: nat, e: Entity,
                              a: Attribute)
    requires OnlyAbout(input, observations, i, e)
    ensures Asserted(ObserveAll(facts, input, observations), e, a)
      == Asserted(Observe(facts, input, observations[i]), e, a)
  {
    ObserveAllIsFlat(facts, input, observations);
    forall j | 0 <= j < |observations| && j != i
      ensures Asserted(Observing(facts, input)(observations[j]), e, a) == []
    {
      NotAboutIt(facts, input, observations[j], e, a);
    }
    FlatAssertsOne(Observing(facts, input), observations, i, e, a);
  }

  lemma OthersAreLeft(facts: seq<Fact>, input: Input, observations: seq<Observation>, e: Entity, a: Attribute)
    requires forall i :: 0 <= i < |observations| ==> !IsAbout(input, observations[i], e)
    ensures Asserted(ObserveAll(facts, input, observations), e, a) == []
  {
    ObserveAllIsFlat(facts, input, observations);
    forall j | 0 <= j < |observations| ensures Asserted(Observing(facts, input)(observations[j]), e, a) == [] {
      NotAboutIt(facts, input, observations[j], e, a);
    }
    FlatAssertsNothing(Observing(facts, input), observations, e, a);
  }

  lemma OneIsAbout(input: Input, i: nat, e: Entity)
    requires DistinctSubjects(input.observations) && i < |input.observations|
    requires IsAbout(input, input.observations[i], e)
    ensures OnlyAbout(input, input.observations, i, e)
  {
  }

  lemma PlanIsObserving(facts: seq<Fact>, input: Input, e: Entity, a: Attribute)
    requires e.ResultEntity? || e.ViolationEntity? || e.HeadEntity?
    ensures Asserted(Plan(facts, input), e, a) == Asserted(ObserveAll(facts, input, input.observations), e, a)
  {
    PlanParts(facts, input, e, a);
    ClearInactiveOnlyRetracts(facts, input, RefHeads(facts, input.ref));
    NothingAsserted(ClearInactive(facts, input, RefHeads(facts, input.ref)), e, a);
    RunOnlyAsserts(facts, input);
    NothingAsserted(NewRun(facts, input), e, a);
    MoveCheckpointLeaves(facts, input);
    NothingAsserted(MoveCheckpoint(facts, input), e, a);
  }

  /** What a plan asserts of an entity comes from the one observation it is about. */
  lemma PlanAsserts(facts: seq<Fact>, input: Input, i: nat, e: Entity, a: Attribute)
    requires DistinctSubjects(input.observations) && i < |input.observations|
    requires IsAbout(input, input.observations[i], e)
    ensures Asserted(Plan(facts, input), e, a) == Asserted(Observe(facts, input, input.observations[i]), e, a)
  {
    PlanIsObserving(facts, input, e, a);
    OneIsAbout(input, i, e);
    OneObservationAsserts(facts, input, input.observations, i, e, a);
  }

  lemma PlanAssertsNothing(facts: seq<Fact>, input: Input, e: Entity, a: Attribute)
    requires e.ResultEntity? || e.ViolationEntity? || e.HeadEntity?
    requires forall i :: 0 <= i < |input.observations| ==> !IsAbout(input, input.observations[i], e)
    ensures Asserted(Plan(facts, input), e, a) == []
  {
    PlanIsObserving(facts, input, e, a);
    OthersAreLeft(facts, input, input.observations, e, a);
  }

  // ---- Runs and checkpoints --------------------------------------------------------

  lemma {:induction false} RunResultsAssert(run: Entity, results: seq<ResultId>)
    ensures Asserted(AssertRunResults(run, results), run, RunResultOf) == ResultRefs(results)
  {
    if results != [] {
      var init, last := results[..|results| - 1], To(ResultEntity(results[|results| - 1]));
      RunResultsAssert(run, init);
      AssertedConcat(AssertRunResults(run, init), [AssertOp(run, RunResultOf, last)], run, RunResultOf);
      OneAsserted(run, RunResultOf, last);
    }
  }

  lemma {:induction false} RunResultsAssertOnly(run: Entity, results: seq<ResultId>)
    ensures forall op :: op in AssertRunResults(run, results) ==> op.AssertOp? && op.attribute.RunResultOf?
  {
    if results != [] {
      RunResultsAssertOnly(run, results[..|results| - 1]);
    }
  }

  /** What is asserted of a run besides its results. */
  function RunHeader(input: Input): seq<Op> {
    var e := RunEntity(RunIdOf(input));
    [AssertOp(e, ContentIdOf, CidOf(e)), AssertOp(e, RunRefOf, Text(input.ref)),
     AssertOp(e, SnapshotOf, To(SnapshotEntity(input.snapshot.id))),
     AssertOp(e, SourcePositionOf, Number(input.sourcePosition))]
  }

  lemma HeaderAsserts(input: Input, a: Attribute)
    requires !a.RunResultOf?
    ensures Asserted(RunHeader(input), RunEntity(RunIdOf(input)), a)
      == if a.SnapshotOf? then [To(SnapshotEntity(input.snapshot.id))] else RunHolds(RunIdOf(input), a)
  {
    var e, ops := RunEntity(RunIdOf(input)), RunHeader(input);
    assert DescribeOnce(ops, e);
    match a {
      case ContentIdOf => DescribedOnce(ops, e, 0);
      case RunRefOf => DescribedOnce(ops, e, 1);
      case SnapshotOf => DescribedOnce(ops, e, 2);
      case SourcePositionOf => DescribedOnce(ops, e, 3);
      case _ => NotDescribed(ops, e, a);
    }
  }

  lemma RunIsAsserted(input: Input, a: Attribute)
    ensures Asserted(AssertRun(input), RunEntity(RunIdOf(input)), a)
      == if a.SnapshotOf? then [To(SnapshotEntity(input.snapshot.id))] else RunHolds(RunIdOf(input), a)
  {
    var e, results := RunEntity(RunIdOf(input)), ResultIds(input, input.observations);
    AssertedConcat(RunHeader(input), AssertRunResults(e, results), e, a);
    RunResultsAssertOnly(e, results);
    if a.RunResultOf? {
      NothingAsserted(RunHeader(input), e, a);
      RunResultsAssert(e, results);
    } else {
      HeaderAsserts(input, a);
      NothingAsserted(AssertRunResults(e, results), e, a);
    }
  }

  lemma ObservingLeavesRuns(facts: seq<Fact>, input: Input, run: RunId, a: Attribute)
    ensures Asserted(ObserveAll(facts, input, input.observations), RunEntity(run), a) == []
  {
    OthersAreLeft(facts, input, input.observations, RunEntity(run), a);
  }

  lemma ClearingLeavesRuns(facts: seq<Fact>, input: Input, run: RunId, a: Attribute)
    ensures Asserted(ClearInactive(facts, input, RefHeads(facts, input.ref)), RunEntity(run), a) == []
  {
    ClearInactiveOnlyRetracts(facts, input, RefHeads(facts, input.ref));
    NothingAsserted(ClearInactive(facts, input, RefHeads(facts, input.ref)), RunEntity(run), a);
  }

  lemma CheckpointLeavesRuns(facts: seq<Fact>, input: Input, run: RunId, a: Attribute)
    ensures Asserted(MoveCheckpoint(facts, input), RunEntity(run), a) == []
  {
    MoveCheckpointLeaves(facts, input);
    NothingAsserted(MoveCheckpoint(facts, input), RunEntity(run), a);
  }

  lemma OnlyNewRunAsserts(facts: seq<Fact>, input: Input, run: RunId, a: Attribute)
    ensures Asserted(Plan(facts, input), RunEntity(run), a) == Asserted(NewRun(facts, input), RunEntity(run), a)
  {
    PlanParts(facts, input, RunEntity(run), a);
    ObservingLeavesRuns(facts, input, run, a);
    ClearingLeavesRuns(facts, input, run, a);
    CheckpointLeavesRuns(facts, input, run, a);
  }

  lemma PlanAssertsRun(facts: seq<Fact>, input: Input, run: RunId, a: Attribute)
    ensures Asserted(Plan(facts, input), RunEntity(run), a)
      == if run != RunIdOf(input) || Known(facts, RunEntity(run)) then []
         else if a.SnapshotOf? then [To(SnapshotEntity(input.snapshot.id))] else RunHolds(run, a)
  {
    OnlyNewRunAsserts(facts, input, run, a);
    if run == RunIdOf(input) {
      RunIsAsserted(input, a);
      assert Asserted([], RunEntity(run), a) == [];
    } else {
      RunOnlyAsserts(facts, input);
      NothingAsserted(NewRun(facts, input), RunEntity(run), a);
    }
  }

  /** The values a checkpoint holds besides what it points at. */
  function CheckpointTagHolds(ref: string, a: Attribute): seq<Value> {
    if a.RefOf? then [Text(ref)] else []
  }

  lemma NewTagAsserts(facts: seq<Fact>, ref: string, a: Attribute)
    ensures Asserted(TagCheckpoint(facts, ref), CheckpointEntity(ref), a)
      == if Known(facts, CheckpointEntity(ref)) then [] else CheckpointTagHolds(ref, a)
  {
    if !Known(facts, CheckpointEntity(ref)) && a.RefOf? {
      OneAsserted(CheckpointEntity(ref), RefOf, Text(ref));
    } else {
      NothingAsserted(TagCheckpoint(facts, ref), CheckpointEntity(ref), a);
    }
  }

  lemma CurrentIsKnown(facts: seq<Fact>, input: Input)
    requires CheckpointIsCurrent(facts, input)
    ensures Known(facts, CheckpointEntity(input.ref))
  {
    assert To(RunEntity(RunIdOf(input))) in Values(facts, CheckpointEntity(input.ref), ResultOf);
    HolderExists(facts, CheckpointEntity(input.ref), ResultOf);
  }

  lemma PointersAreNotTags(input: Input, a: Attribute)
    requires !IsPointer(CheckpointEntity(input.ref), a)
    ensures Asserted(AssertCheckpoint(input), CheckpointEntity(input.ref), a) == []
  {
    NothingAsserted(AssertCheckpoint(input), CheckpointEntity(input.ref), a);
  }

  lemma ThreePartsAssert(x: seq<Op>, y: seq<Op>, z: seq<Op>, e: Entity, a: Attribute)
    requires Asserted(x, e, a) == [] && Asserted(z, e, a) == []
    ensures Asserted(x + y + z, e, a) == Asserted(y, e, a)
  {
    AssertedConcat(x + y, z, e, a);
    AssertedConcat(x, y, e, a);
  }

  lemma RetractionsAssertNothing(rows: seq<Fact>, e: Entity, a: Attribute)
    ensures Asserted(Retractions(rows), e, a) == []
  {
    RetractionsOnlyRetract(rows);
    NothingAsserted(Retractions(rows), e, a);
  }

  lemma MoveAssertsTag(facts: seq<Fact>, input: Input, a: Attribute)
    requires !IsPointer(CheckpointEntity(input.ref), a)
    ensures Asserted(MoveCheckpoint(facts, input), CheckpointEntity(input.ref), a)
      == if Known(facts, CheckpointEntity(input.ref)) then [] else CheckpointTagHolds(input.ref, a)
  {
    var e := CheckpointEntity(input.ref);
    if CheckpointIsCurrent(facts, input) {
      CurrentIsKnown(facts, input);
    } else {
      RetractionsAssertNothing(CheckpointRows(facts, input.ref), e, a);
      PointersAreNotTags(input, a);
      ThreePartsAssert(Retractions(CheckpointRows(facts, input.ref)), TagCheckpoint(facts, input.ref),
                       AssertCheckpoint(input), e, a);
      NewTagAsserts(facts, input.ref, a);
    }
  }

  lemma HolderExists(facts: seq<Fact>, e: Entity, a: Attribute)
    requires Values(facts, e, a) != []
    ensures Known(facts, e)
  {
    var f := Rows(facts, e, a)[0];
    assert f in Rows(facts, e, a) && f in facts && f.entity == e;
  }

  lemma OthersLeaveCheckpoints(facts: seq<Fact>, input: Input, e: Entity, a: Attribute)
    requires e.CheckpointEntity?
    ensures Asserted(Plan(facts, input), e, a) == Asserted(MoveCheckpoint(facts, input), e, a)
  {
    PlanParts(facts, input, e, a);
    OthersAreLeft(facts, input, input.observations, e, a);
    ClearInactiveOnlyRetracts(facts, input, RefHeads(facts, input.ref));
    NothingAsserted(ClearInactive(facts, input, RefHeads(facts, input.ref)), e, a);
    RunOnlyAsserts(facts, input);
    NothingAsserted(NewRun(facts, input), e, a);
  }

  lemma PlanAssertsTag(facts: seq<Fact>, input: Input, ref: string, a: Attribute)
    requires !IsPointer(CheckpointEntity(ref), a)
    ensures Asserted(Plan(facts, input), CheckpointEntity(ref), a)
      == if ref != input.ref || Known(facts, CheckpointEntity(ref)) then [] else CheckpointTagHolds(ref, a)
  {
    OthersLeaveCheckpoints(facts, input, CheckpointEntity(ref), a);
    if ref == input.ref {
      MoveAssertsTag(facts, input, a);
    } else {
      MoveCheckpointLeaves(facts, input);
      NothingAsserted(MoveCheckpoint(facts, input), CheckpointEntity(ref), a);
    }
  }
}
