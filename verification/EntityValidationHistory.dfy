/**
 * The projector's records over every run: what is stored says what was
 * observed, and nothing once observed is forgotten.
 */
module EntityValidationHistory {
  import opened Wrappers
  import opened Seqs
  import opened EntityValidation
  import opened EntityValidationProofs
  import opened EntityValidationRuns
  import opened EntityValidationHealth
  import opened EntityValidationStore
  import opened EntityValidationMachine
  import opened EntityValidationTwice
  import opened EntityValidationStatus
  import opened EntityValidationRecords
  import opened EntityValidationRecorded

  // ---- Records are the projector's own --------------------------------------------

  lemma OwnDecidesResult(a: seq<Fact>, b: seq<Fact>, r: ResultId)
    requires OwnFacts(a) == OwnFacts(b) && ResultIsRecorded(a, r)
    ensures ResultIsRecorded(b, r)
  {
    OwnDecidesKnown(a, b, ResultEntity(r));
    forall attribute ensures Values(a, ResultEntity(r), attribute) == Values(b, ResultEntity(r), attribute) {
      OwnDecidesRows(a, b, ResultEntity(r), attribute);
    }
    forall k | 0 <= k < |r.observation.issues| ensures Known(a, ViolationOf(r, k)) == Known(b, ViolationOf(r, k)) {
      OwnDecidesKnown(a, b, ViolationOf(r, k));
    }
  }

  lemma OwnDecidesViolation(a: seq<Fact>, b: seq<Fact>, v: ViolationId)
    requires OwnFacts(a) == OwnFacts(b) && ViolationIsRecorded(a, v)
    ensures ViolationIsRecorded(b, v)
  {
    OwnDecidesKnown(a, b, ViolationEntity(v));
    OwnDecidesKnown(a, b, ResultEntity(v.result));
    forall attribute ensures Values(a, ViolationEntity(v), attribute) == Values(b, ViolationEntity(v), attribute) {
      OwnDecidesRows(a, b, ViolationEntity(v), attribute);
    }
  }

  lemma OwnDecidesHead(a: seq<Fact>, b: seq<Fact>, head: Entity)
    requires OwnFacts(a) == OwnFacts(b) && head.HeadEntity? && HeadIsRecorded(a, head)
    ensures HeadIsRecorded(b, head)
  {
    OwnDecidesKnown(a, b, head);
    forall attribute ensures Values(a, head, attribute) == Values(b, head, attribute) {
      OwnDecidesRows(a, b, head, attribute);
    }
    forall value | value in Values(b, head, ResultOf) && IsTarget(a, head, value) ensures IsTarget(b, head, value) {
      OwnDecidesKnown(a, b, value.entity);
    }
  }

  lemma OwnDecidesRun(a: seq<Fact>, b: seq<Fact>, run: RunId)
    requires OwnFacts(a) == OwnFacts(b) && RunIsRecorded(a, run)
    ensures RunIsRecorded(b, run)
  {
    OwnDecidesKnown(a, b, RunEntity(run));
    forall attribute ensures Values(a, RunEntity(run), attribute) == Values(b, RunEntity(run), attribute) {
      OwnDecidesRows(a, b, RunEntity(run), attribute);
    }
  }

  lemma OwnDecidesSaid(a: seq<Fact>, b: seq<Fact>, ref: string)
    requires OwnFacts(a) == OwnFacts(b) && CheckpointIsRecorded(a, ref)
    ensures CheckpointIsRecorded(b, ref)
  {
    var e := CheckpointEntity(ref);
    OwnDecidesKnown(a, b, e);
    forall attribute ensures Values(a, e, attribute) == Values(b, e, attribute) {
      OwnDecidesRows(a, b, e, attribute);
    }
  }

  lemma OwnDecidesRecords(a: seq<Fact>, b: seq<Fact>)
    requires OwnFacts(a) == OwnFacts(b) && Recorded(a)
    ensures Recorded(b)
  {
    forall r ensures ResultIsRecorded(b, r) {
      assert ResultIsRecorded(a, r);
      OwnDecidesResult(a, b, r);
    }
    forall v ensures ViolationIsRecorded(b, v) {
      assert ViolationIsRecorded(a, v);
      OwnDecidesViolation(a, b, v);
    }
    forall head: Entity | head.HeadEntity? ensures HeadIsRecorded(b, head) {
      assert HeadIsRecorded(a, head);
      OwnDecidesHead(a, b, head);
    }
    forall run ensures RunIsRecorded(b, run) {
      assert RunIsRecorded(a, run);
      OwnDecidesRun(a, b, run);
    }
    forall ref ensures CheckpointIsRecorded(b, ref) {
      assert CheckpointIsRecorded(a, ref);
      OwnDecidesSaid(a, b, ref);
    }
  }

  // ---- Every step keeps them --------------------------------------------------------

  lemma OthersKeepRecords(schemas: Schemas, store: Store, step: Step)
    requires Sane(store) && Recorded(Facts(store.rows)) && !step.Revalidate? && Enabled(schemas, store, step)
    ensures Recorded(Facts(Next(schemas, store, step).rows))
    ensures OwnFacts(Facts(Next(schemas, store, step).rows)) == OwnFacts(Facts(store.rows))
  {
    if step.Change? {
      OwnFactsStay(schemas, store, step);
    } else {
      AdvanceKeepsSane(schemas, store, step);
      SameOwnFacts(store.rows, Next(schemas, store, step).rows);
    }
    OwnDecidesRecords(Facts(store.rows), Facts(Next(schemas, store, step).rows));
  }

  lemma WritingKeepsRecords(schemas: Schemas, store: Store, step: Step)
    requires DefinesOnce(schemas) && Sane(store) && Recorded(Facts(store.rows)) && step.Revalidate?
    requires Enabled(schemas, store, step)
    ensures Recorded(Facts(Next(schemas, store, step).rows))
  {
    var input := OwnFactsAfter(schemas, store, step);
    var applied := ApplyOps(Facts(store.rows), Plan(Facts(store.rows), input), step.ids);
    RevalidationKeepsRecords(Facts(store.rows), input, step.ids, applied);
    OwnDecidesRecords(applied, Facts(Next(schemas, store, step).rows));
  }

  lemma StepKeepsRecords(schemas: Schemas, store: Store, step: Step)
    requires DefinesOnce(schemas) && Sane(store) && Recorded(Facts(store.rows)) && Enabled(schemas, store, step)
    ensures Recorded(Facts(Next(schemas, store, step).rows))
  {
    if step.Revalidate? {
      WritingKeepsRecords(schemas, store, step);
    } else {
      OthersKeepRecords(schemas, store, step);
    }
  }

  /** However the steps interleave, every stored result, violation, head and run says what it stands for. */
  lemma {:induction false} RunsStayRecorded(schemas: Schemas, store: Store, steps: seq<Step>)
    requires DefinesOnce(schemas) && Sane(store) && Recorded(Facts(store.rows)) && Run(schemas, store, steps).Some?
    ensures Recorded(Facts(Run(schemas, store, steps).value.rows))
    decreases |steps|
  {
    if steps != [] {
      var next := Next(schemas, store, steps[0]);
      StepKeepsRecords(schemas, store, steps[0]);
      OneStep(schemas, store, steps[0], next);
      RunsStaySane(schemas, store, [steps[0]]);
      RunsStayRecorded(schemas, next, steps[1..]);
    }
  }

  /** The store of every run from the empty one holds records. */
  lemma ReachableIsRecorded(schemas: Schemas, clock: int, steps: seq<Step>, facts: seq<Fact>)
    requires DefinesOnce(schemas) && Run(schemas, Store([], [], clock), steps).Some?
    requires facts == Facts(Run(schemas, Store([], [], clock), steps).value.rows)
    ensures Recorded(facts)
  {
    EmptyStoreIsSane(clock);
    EmptyIsRecorded();
    RunsStayRecorded(schemas, Store([], [], clock), steps);
  }

  lemma ResultSaysWhatItIs(facts: seq<Fact>, r: ResultId)
    requires ResultSays(facts, r)
    ensures var e, o := ResultEntity(r), r.observation;
      && Values(facts, e, SubjectOf) == [To(o.subject)] && Values(facts, e, EntityTypeOf) == [Text(o.entityType)]
      && Values(facts, e, SchemaOf) == [Text(o.schemaId)] && Values(facts, e, StateOf) == [Text(o.stateCid)]
      && Values(facts, e, SnapshotOf) == [To(SnapshotEntity(r.snapshot.id))]
      && Values(facts, e, SnapshotRootOf) == [Text(r.snapshot.rootCid)]
      && Values(facts, e, ContentIdOf) == [CidOf(e)] && Values(facts, e, ValidOf) == [Flag(|o.issues| == 0)]
  {
  }

  /** A known result holds exactly what was observed, under its snapshot, and is valid when nothing was found. */
  lemma RecordedResultSays(facts: seq<Fact>, r: ResultId)
    requires Recorded(facts) && Known(facts, ResultEntity(r))
    ensures var e, o := ResultEntity(r), r.observation;
      && Values(facts, e, SubjectOf) == [To(o.subject)] && Values(facts, e, EntityTypeOf) == [Text(o.entityType)]
      && Values(facts, e, SchemaOf) == [Text(o.schemaId)] && Values(facts, e, StateOf) == [Text(o.stateCid)]
      && Values(facts, e, SnapshotOf) == [To(SnapshotEntity(r.snapshot.id))]
      && Values(facts, e, SnapshotRootOf) == [Text(r.snapshot.rootCid)]
      && Values(facts, e, ContentIdOf) == [CidOf(e)] && Values(facts, e, ValidOf) == [Flag(|o.issues| == 0)]
  {
    assert ResultIsRecorded(facts, r);
    ResultSaysWhatItIs(facts, r);
  }

  /** The known violations of a known result are one for each issue, at its index. */
  lemma RecordedViolations(facts: seq<Fact>, r: ResultId, v: ViolationId)
    requires Recorded(facts) && Known(facts, ResultEntity(r))
    ensures Known(facts, ViolationEntity(v)) && v.result == r
      <==> v.result == r && v.index < |r.observation.issues| && v.issue == r.observation.issues[v.index]
  {
    assert ResultIsRecorded(facts, r) && ViolationIsRecorded(facts, v);
    if v.result == r && v.index < |r.observation.issues| && v.issue == r.observation.issues[v.index] {
      assert ViolationEntity(v) == ViolationOf(r, v.index);
    }
  }

  lemma ViolationSaysWhatItIs(facts: seq<Fact>, v: ViolationId)
    requires ViolationSays(facts, v)
    ensures var e, constraintKey := ViolationEntity(v), v.issue.constraintKey;
      && Values(facts, e, ResultOf) == [To(ResultEntity(v.result))]
      && Values(facts, e, SubjectOf) == [To(v.result.observation.subject)]
      && Values(facts, e, CodeOf) == [Text(v.issue.code)] && Values(facts, e, PathOf) == [Text(v.issue.path)]
      && Values(facts, e, MessageOf) == [Text(v.issue.message)] && Values(facts, e, ContentIdOf) == [CidOf(e)]
      && Values(facts, e, ConstraintOf) == if constraintKey.Some? then [Text(constraintKey.value)] else []
  {
  }

  /** A known violation holds its issue's code, path, message and constraint, and names its result and subject. */
  lemma RecordedViolationSays(facts: seq<Fact>, v: ViolationId)
    requires Recorded(facts) && Known(facts, ViolationEntity(v))
    ensures var e, constraintKey := ViolationEntity(v), v.issue.constraintKey;
      && Values(facts, e, ResultOf) == [To(ResultEntity(v.result))]
      && Values(facts, e, SubjectOf) == [To(v.result.observation.subject)]
      && Values(facts, e, CodeOf) == [Text(v.issue.code)] && Values(facts, e, PathOf) == [Text(v.issue.path)]
      && Values(facts, e, MessageOf) == [Text(v.issue.message)] && Values(facts, e, ContentIdOf) == [CidOf(e)]
      && Values(facts, e, ConstraintOf) == if constraintKey.Some? then [Text(constraintKey.value)] else []
  {
    assert ViolationIsRecorded(facts, v);
    ViolationSaysWhatItIs(facts, v);
  }
}
