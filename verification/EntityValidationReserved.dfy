/**
 * For every reserved type a snapshot may define, a revalidation that gives
 * itself something new to observe; so a second one settles for exactly the
 * snapshots that define none.
 */
module EntityValidationReserved {
  import opened Wrappers
  import opened Seqs
  import opened EntityValidation
  import opened EntityValidationProofs
  import opened EntityValidationRuns
  import opened EntityValidationHealth
  import opened EntityValidationStore
  import opened EntityValidationMachine
  import opened EntityValidationProgress
  import opened EntityValidationTwice

  type Judgement = (Snapshot, string, Entity, seq<Row>) -> Finding

  /** Every snapshot defines these types. */
  function Defining(types: seq<string>, judge: Judgement): Schemas {
    Schemas((snapshot: Snapshot) => types, judge)
  }

  /** A revalidation at one instant leaves nothing for a second one at the same instant. */
  ghost predicate Settles(types: seq<string>, judge: Judgement, store: Store, step: Step) {
    var schemas := Defining(types, judge);
    Sane(store) && step.Revalidate? && Enabled(schemas, store, step) && step.now == step.at ==>
      PlanOf(schemas, Next(schemas, store, step), step.ref, step.snapshot, step.at) == []
  }

  // ---- Who is observed ------------------------------------------------------

  lemma {:induction false} TypeIsObserved(schemas: Schemas, snapshot: Snapshot, types: seq<string>, rows: seq<Row>,
                                          entityType: string, e: Entity)
      returns (o: Observation)
    requires entityType in types && e in Subjects(rows, entityType)
    ensures o in JudgeTypes(schemas, snapshot, types, rows) && o == Judge(schemas, snapshot, entityType, rows)(e)
  {
    var last := |types| - 1;
    if entityType == types[last] {
      o := Judge(schemas, snapshot, entityType, rows)(e);
      var subjects := Listed(Subjects(rows, entityType));
      assert e in subjects;
      assert o in JudgeType(schemas, snapshot, entityType, rows);
    } else {
      o := TypeIsObserved(schemas, snapshot, types[..last], rows, entityType, e);
    }
  }

  lemma TypeHasSubject(schemas: Schemas, snapshot: Snapshot, entityType: string, rows: seq<Row>, o: Observation)
    requires o in JudgeType(schemas, snapshot, entityType, rows)
    ensures o.subject in Subjects(rows, entityType) && o.entityType == entityType
    ensures o == Judge(schemas, snapshot, o.entityType, rows)(o.subject)
  {
    var e :| e in Listed(Subjects(rows, entityType)) && Judge(schemas, snapshot, entityType, rows)(e) == o;
  }

  lemma {:induction false} ObservedHasType(schemas: Schemas, snapshot: Snapshot, types: seq<string>, rows: seq<Row>,
                                           o: Observation)
    requires o in JudgeTypes(schemas, snapshot, types, rows)
    ensures o.subject in Subjects(rows, o.entityType) && o.entityType in types
    ensures o == Judge(schemas, snapshot, o.entityType, rows)(o.subject)
  {
    var last := |types| - 1;
    if o in JudgeType(schemas, snapshot, types[last], rows) {
      TypeHasSubject(schemas, snapshot, types[last], rows, o);
    } else {
      ObservedHasType(schemas, snapshot, types[..last], rows, o);
    }
  }

  /** An entity that carries a defined type is observed. */
  lemma CarrierIsObserved(schemas: Schemas, snapshot: Snapshot, visible: seq<Row>, row: Row) returns (o: Observation)
    requires row in visible && Carries(row, schemas.types(snapshot))
    ensures o in Observations(schemas, snapshot, visible) && o.subject == row.fact.entity
    ensures o.entityType == row.entityType.value
    ensures exists rows :: o == Judge(schemas, snapshot, o.entityType, rows)(o.subject)
  {
    var types := schemas.types(snapshot);
    assert row in Judged(types, visible);
    o := TypeIsObserved(schemas, snapshot, types, Judged(types, visible), row.entityType.value, row.fact.entity);
  }

  /** An entity without a row of the type is not. */
  lemma ObservedIsCarrier(schemas: Schemas, snapshot: Snapshot, visible: seq<Row>, o: Observation) returns (row: Row)
    requires o in Observations(schemas, snapshot, visible)
    ensures row in visible && row.fact.entity == o.subject && row.entityType == Some(o.entityType)
  {
    var types := schemas.types(snapshot);
    ObservedHasType(schemas, snapshot, types, Judged(types, visible), o);
    row :| row in Judged(types, visible) && row.entityType == Some(o.entityType) && row.fact.entity == o.subject;
  }

  ghost predicate HasRow(visible: seq<Row>, e: Entity, entityType: string) {
    exists row :: row in visible && row.fact.entity == e && row.entityType == Some(entityType)
  }

  /** The row is of an entity that some visible row gives a defined type. */
  ghost predicate IsOfCarrier(visible: seq<Row>, types: seq<string>, row: Row) {
    exists entityType :: entityType in types && HasRow(visible, row.fact.entity, entityType)
  }

  /** Entities are judged by the visible rows of those that carry a defined type. */
  lemma JudgedAreOfCarriers(types: seq<string>, visible: seq<Row>, row: Row)
    ensures row in Judged(types, visible) <==> row in visible && IsOfCarrier(visible, types, row)
  {
    if entityType :| entityType in types && HasRow(visible, row.fact.entity, entityType) {
      var other :| other in visible && other.fact.entity == row.fact.entity && other.entityType == Some(entityType);
      assert Carries(other, types);
    }
    if HasTypeIn(visible, types, row.fact.entity) {
      var other :| other in visible && other.fact.entity == row.fact.entity && Carries(other, types);
      assert HasRow(visible, row.fact.entity, other.entityType.value);
    }
  }

  /** The observation is what judging an entity of a defined type finds. */
  ghost predicate IsJudgement(schemas: Schemas, snapshot: Snapshot, visible: seq<Row>, o: Observation) {
    var types := schemas.types(snapshot);
    var finding := schemas.judge(snapshot, o.entityType, o.subject, Judged(types, visible));
    && o.entityType in types && HasRow(visible, o.subject, o.entityType)
    && o.schemaId == finding.schemaId && o.stateCid == finding.stateCid && o.issues == finding.issues
  }

  /** Observed is each entity of each defined type, as it is judged, and nothing else. */
  lemma ObservationsAreJudgements(schemas: Schemas, snapshot: Snapshot, visible: seq<Row>, o: Observation)
    ensures o in Observations(schemas, snapshot, visible) <==> IsJudgement(schemas, snapshot, visible, o)
  {
    var types := schemas.types(snapshot);
    if o in Observations(schemas, snapshot, visible) {
      ObservedHasType(schemas, snapshot, types, Judged(types, visible), o);
    }
    if o.entityType in types && HasRow(visible, o.subject, o.entityType) {
      var row :| row in visible && row.fact.entity == o.subject && row.entityType == Some(o.entityType);
      assert Carries(row, types) && row in Judged(types, visible);
      var same := TypeIsObserved(schemas, snapshot, types, Judged(types, visible), o.entityType, o.subject);
    }
  }

  /** A new entity of a defined type changes what is observed. */
  lemma NewCarrierIsNoticed(schemas: Schemas, snapshot: Snapshot, before: seq<Row>, after: seq<Row>, e: Entity,
                            entityType: string)
    requires entityType in schemas.types(snapshot) && HasRow(after, e, entityType) && !HasRow(before, e, entityType)
    ensures Observations(schemas, snapshot, before) != Observations(schemas, snapshot, after)
  {
    var row :| row in after && row.fact.entity == e && row.entityType == Some(entityType);
    var o := CarrierIsObserved(schemas, snapshot, after, row);
    if o in Observations(schemas, snapshot, before) {
      var carrier := ObservedIsCarrier(schemas, snapshot, before, o);
    }
  }

  lemma NewCarrierUnsettles(types: seq<string>, judge: Judgement, store: Store, step: Step, e: Entity,
                            entityType: string)
    requires NoDuplicates(types) && entityType in types && Sane(store) && step.Revalidate? && step.now == step.at
    requires Enabled(Defining(types, judge), store, step)
    requires HasRow(Visible(Next(Defining(types, judge), store, step).rows, step.at), e, entityType)
    requires !HasRow(Visible(store.rows, step.now), e, entityType)
    ensures !Settles(types, judge, store, step)
  {
    var schemas := Defining(types, judge);
    LaterPlanIsEmptyIff(schemas, store, step, step.snapshot, step.at);
    NewCarrierIsNoticed(schemas, step.snapshot, Visible(store.rows, step.now),
                        Visible(Next(schemas, store, step).rows, step.at), e, entityType);
  }

  // ---- A new entity for every reserved type ---------------------------------

  lemma PlannedHasRow(rows: seq<Row>, plan: seq<Op>, ids: seq<string>, at: int, more: seq<Row>, op: Op)
    requires |ids| == |plan| && op in plan && op.AssertOp?
    ensures HasRow(Visible(Written(rows, plan, ids, at) + more, at), op.entity, TypeOf(op.entity))
  {
    var f := CreatedFor(plan, ids, op);
    var row := Stamp(at)(f);
    assert row in Map(Stamp(at), Created(plan, ids));
    assert row in Written(rows, plan, ids, at) + more && ValidAt(at)(row);
    assert row in Visible(Written(rows, plan, ids, at) + more, at);
  }

  /** An operation that asserts on an entity of a defined type, new to the store, unsettles it. */
  lemma NewEntityUnsettles(types: seq<string>, judge: Judgement, store: Store, step: Step, op: Op)
    requires NoDuplicates(types) && Sane(store) && step.Revalidate? && step.now == step.at
    requires Enabled(Defining(types, judge), store, step)
    requires op in PlanOf(Defining(types, judge), store, step.ref, step.snapshot, step.now) && op.AssertOp?
    requires TypeOf(op.entity) in types && forall row :: row in store.rows ==> row.fact.entity != op.entity
    ensures !Settles(types, judge, store, step)
  {
    var plan := PlanOf(Defining(types, judge), store, step.ref, step.snapshot, step.now);
    PlannedHasRow(store.rows, plan, step.ids, step.at, step.journal, op);
    NewCarrierUnsettles(types, judge, store, step, op.entity, TypeOf(op.entity));
  }

  lemma JournalHasRow(rows: seq<Row>, ids: seq<string>, journal: seq<Row>, position: nat, at: int, written: seq<Row>)
    requires Journals(rows, ids, journal, position, at)
    ensures HasRow(Visible(written + journal, at), TransactionEntity(position), TRANSACTION_TYPE)
    ensures forall row :: row in rows ==> row.fact.entity != TransactionEntity(position)
  {
    assert journal[0] in written + journal && ValidAt(at)(journal[0]);
    assert journal[0] in Visible(written + journal, at);
  }

  /** Whatever is committed, its journal is a new entity. */
  lemma JournalUnsettles(types: seq<string>, judge: Judgement, store: Store, step: Step)
    requires NoDuplicates(types) && TRANSACTION_TYPE in types && Sane(store) && step.Revalidate? && step.now == step.at
    requires Enabled(Defining(types, judge), store, step)
    requires PlanOf(Defining(types, judge), store, step.ref, step.snapshot, step.now) != []
    ensures !Settles(types, judge, store, step)
  {
    var plan := PlanOf(Defining(types, judge), store, step.ref, step.snapshot, step.now);
    JournalHasRow(store.rows, step.ids, step.journal, step.position, step.at,
                  Written(store.rows, plan, step.ids, step.at));
    NewCarrierUnsettles(types, judge, store, step, TransactionEntity(step.position), TRANSACTION_TYPE);
  }

  const NOTHING := Snapshot("", "")
  const COMPLAINT := Issue("", "", "", None)

  function Complain(): Judgement {
    (snapshot: Snapshot, entityType: string, subject: Entity, rows: seq<Row>) => Finding("", "", [COMPLAINT])
  }

  /** What a revalidation asserts about a new run, or else a new checkpoint. */
  function FirstOp(input: Input, entityType: string): Op {
    var run := RunEntity(RunIdOf(input));
    if entityType == RUN_TYPE then AssertOp(run, ContentIdOf, CidOf(run))
    else AssertOp(CheckpointEntity(input.ref), SnapshotOf, To(SnapshotEntity(input.snapshot.id)))
  }

  lemma FirstOpIsPlanned(facts: seq<Fact>, input: Input, entityType: string)
    requires forall f :: f in facts ==> f.entity != FirstOp(input, entityType).entity
    ensures FirstOp(input, entityType) in Plan(facts, input)
  {
    var op := FirstOp(input, entityType);
    if entityType == RUN_TYPE {
      assert op in AssertRun(input);
      assert op in NewRun(facts, input);
    } else {
      FilterNone(At(CheckpointEntity(input.ref), ResultOf), facts);
      assert op in AssertCheckpoint(input);
      assert op in MoveCheckpoint(facts, input);
    }
  }

  lemma FirstOpIsTyped(input: Input, entityType: string)
    requires entityType == RUN_TYPE || entityType == CHECKPOINT_TYPE
    ensures FirstOp(input, entityType).AssertOp? && TypeOf(FirstOp(input, entityType).entity) == entityType
  {
    assert |RUN_TYPE| == 22 && |CHECKPOINT_TYPE| == 29;
  }

  /** On an empty store, a first revalidation writes a run and a checkpoint. */
  lemma FirstRunUnsettles(types: seq<string>, entityType: string, store: Store) returns (step: Step)
    requires NoDuplicates(types) && entityType in types && Sane(store) && store.rows == []
    requires entityType == RUN_TYPE || entityType == CHECKPOINT_TYPE
    ensures !Settles(types, Complain(), store, step)
  {
    var schemas := Defining(types, Complain());
    step := RevalidationIsPossible(schemas, store, "", NOTHING, store.clock);
    var op := FirstOp(InputOf(schemas, store, "", NOTHING, store.clock), entityType);
    assert Seen([], store.clock) == [];
    FirstOpIsPlanned([], InputOf(schemas, store, "", NOTHING, store.clock), entityType);
    FirstOpIsTyped(InputOf(schemas, store, "", NOTHING, store.clock), entityType);
    NewEntityUnsettles(types, Complain(), store, step, op);
  }

  /** And its journal. */
  lemma FirstJournalUnsettles(types: seq<string>, store: Store) returns (step: Step)
    requires NoDuplicates(types) && TRANSACTION_TYPE in types && Sane(store) && store.rows == []
    ensures !Settles(types, Complain(), store, step)
  {
    var schemas := Defining(types, Complain());
    step := RevalidationIsPossible(schemas, store, "", NOTHING, store.clock);
    assert Seen([], store.clock) == [];
    FirstOpIsPlanned([], InputOf(schemas, store, "", NOTHING, store.clock), RUN_TYPE);
    JournalUnsettles(types, Complain(), store, step);
  }

  // ---- From one entity of the type to the next ------------------------------

  const FIRST_RESULT := HashResult(Observation("", SourceEntity(""), "", "", []), NOTHING)

  /** A fact of a first entity of the type. */
  function Seed(entityType: string): Fact {
    if entityType == RESULT_TYPE
      then Fact("", ResultEntity(FIRST_RESULT), ContentIdOf, CidOf(ResultEntity(FIRST_RESULT)))
    else if entityType == VIOLATION_TYPE then
      var e := ViolationEntity(HashViolation(FIRST_RESULT, 0, COMPLAINT));
      Fact("", e, ContentIdOf, CidOf(e))
    else Fact("", HeadEntity("", "", SourceEntity("")), RefOf, Text(""))
  }

  function Seeded(entityType: string): Store {
    Store([Row(Seed(entityType), Some(entityType), 0, None)], [], 0)
  }

  predicate Chains(entityType: string) {
    entityType == RESULT_TYPE || entityType == VIOLATION_TYPE || entityType == HEAD_TYPE
  }

  lemma TypesDiffer()
    ensures RESULT_TYPE != VIOLATION_TYPE && RESULT_TYPE != HEAD_TYPE && VIOLATION_TYPE != HEAD_TYPE
  {
    assert |RESULT_TYPE| == 25 && |VIOLATION_TYPE| == 28 && |HEAD_TYPE| == 23;
  }

  lemma OneFactIsHealthy(f: Fact)
    requires f.entity.HeadEntity? ==> f.attribute == RefOf && f.value == Text(f.entity.ref)
    ensures Healthy([f])
  {
    forall e, a | IsPointer(e, a) ensures |Values([f], e, a)| <= 1 {
      FilterOne(At(e, a), f);
    }
    if f.entity.HeadEntity? {
      FilterOne(At(f.entity, RefOf), f);
      assert f in Rows([f], f.entity, RefOf) && ValueOf()(f) == Text(f.entity.ref);
    }
  }

  lemma SeededIsSane(entityType: string)
    requires Chains(entityType)
    ensures Sane(Seeded(entityType))
  {
    TypesDiffer();
    OneFactIsHealthy(Seed(entityType));
    assert Facts(Seeded(entityType).rows) == [Seed(entityType)];
  }

  /** What judging the first entity makes the projector assert. */
  function NextOp(input: Input, o: Observation, entityType: string): Op
    requires |o.issues| == 1
  {
    var result := ResultEntity(ResultIdOf(input, o));
    if entityType == RESULT_TYPE then AssertOp(result, ContentIdOf, CidOf(result))
    else if entityType == VIOLATION_TYPE then
      var violation := ViolationEntity(ViolationAt(input, o, 0));
      AssertOp(violation, ContentIdOf, CidOf(violation))
    else AssertOp(HeadOf(input, o), ResultOf, To(result))
  }

  /** It is another entity of the type, since its subject is the first one. */
  lemma NextIsNew(input: Input, o: Observation, entityType: string)
    requires |o.issues| == 1 && Chains(entityType) && o.subject == Seed(entityType).entity
    ensures NextOp(input, o, entityType).entity != Seed(entityType).entity
  {
    TypesDiffer();
  }

  lemma NextIsTyped(input: Input, o: Observation, entityType: string)
    requires |o.issues| == 1 && Chains(entityType)
    ensures NextOp(input, o, entityType).AssertOp? && TypeOf(NextOp(input, o, entityType).entity) == entityType
  {
    TypesDiffer();
  }

  lemma NextIsObserved(facts: seq<Fact>, input: Input, o: Observation, entityType: string)
    requires |o.issues| == 1 && Chains(entityType)
    requires forall f :: f in facts ==> f.entity != NextOp(input, o, entityType).entity
    ensures NextOp(input, o, entityType) in Observe(facts, input, o)
  {
    TypesDiffer();
    var op := NextOp(input, o, entityType);
    if entityType == RESULT_TYPE {
      assert op in AssertResult(input, o);
      assert op in NewResult(facts, input, o);
    } else if entityType == VIOLATION_TYPE {
      assert op in AssertViolation(ViolationAt(input, o, 0));
      assert op in NewViolations(facts, input, o, 1);
    } else {
      FilterNone(At(HeadOf(input, o), ResultOf), facts);
      assert Targets(facts, input.ref, HeadOf(input, o)) == [];
      assert op in MoveHead(facts, input, o);
    }
  }

  lemma SeedIsObserved(types: seq<string>, entityType: string) returns (o: Observation)
    requires entityType in types
    ensures o in Observations(Defining(types, Complain()), NOTHING, Visible(Seeded(entityType).rows, 0))
    ensures o.subject == Seed(entityType).entity && |o.issues| == 1
  {
    var row := Seeded(entityType).rows[0];
    assert row in Visible(Seeded(entityType).rows, 0);
    o := CarrierIsObserved(Defining(types, Complain()), NOTHING, Visible(Seeded(entityType).rows, 0), row);
  }

  lemma NextIsPlanned(facts: seq<Fact>, input: Input, o: Observation, entityType: string)
    requires o in input.observations && |o.issues| == 1 && Chains(entityType)
    requires forall f :: f in facts ==> f.entity != NextOp(input, o, entityType).entity
    ensures NextOp(input, o, entityType) in Plan(facts, input)
  {
    NextIsObserved(facts, input, o, entityType);
    var i :| 0 <= i < |input.observations| && input.observations[i] == o;
    EveryObservation(facts, input, input.observations, i, NextOp(input, o, entityType));
  }

  lemma SeedIsAllThatIsSeen(entityType: string, f: Fact)
    requires f in Seen(Seeded(entityType).rows, 0)
    ensures f == Seed(entityType)
  {
    var visible := Visible(Seeded(entityType).rows, 0);
    var i :| 0 <= i < |visible| && Facts(visible)[i] == f;
    assert visible[i] in Seeded(entityType).rows;
  }

  /** One result, violation or head leads to another. */
  lemma SeedUnsettles(types: seq<string>, entityType: string) returns (step: Step)
    requires NoDuplicates(types) && entityType in types && Chains(entityType)
    ensures !Settles(types, Complain(), Seeded(entityType), step)
  {
    var schemas, store := Defining(types, Complain()), Seeded(entityType);
    SeededIsSane(entityType);
    step := RevalidationIsPossible(schemas, store, "", NOTHING, 0);
    var input := InputOf(schemas, store, "", NOTHING, 0);
    var o := SeedIsObserved(types, entityType);
    NextIsNew(input, o, entityType);
    NextIsTyped(input, o, entityType);
    forall f | f in Seen(store.rows, 0) ensures f.entity != NextOp(input, o, entityType).entity {
      SeedIsAllThatIsSeen(entityType, f);
    }
    NextIsPlanned(Seen(store.rows, 0), input, o, entityType);
    NewEntityUnsettles(types, Complain(), store, step, NextOp(input, o, entityType));
  }

  // ---- Exactly the snapshots without reserved types ---------------------------

  lemma PlainTypesSettle(types: seq<string>, judge: Judgement, store: Store, step: Step)
    requires NoDuplicates(types) && NoneReserved(types)
    ensures Settles(types, judge, store, step)
  {
    var schemas := Defining(types, judge);
    if Sane(store) && step.Revalidate? && Enabled(schemas, store, step) && step.now == step.at {
      RevalidatingTwiceIsOnceIff(schemas, store, step, step.at);
    }
  }

  lemma ReservedTypeUnsettles(types: seq<string>, entityType: string) returns (store: Store, step: Step)
    requires NoDuplicates(types) && entityType in types && IsReserved(entityType)
    ensures !Settles(types, Complain(), store, step)
  {
    if Chains(entityType) {
      store := Seeded(entityType);
      step := SeedUnsettles(types, entityType);
    } else {
      store := Store([], [], 0);
      EmptyStoreIsSane(0);
      if entityType == TRANSACTION_TYPE {
        step := FirstJournalUnsettles(types, store);
      } else {
        step := FirstRunUnsettles(types, entityType, store);
      }
    }
  }

  /**
   * Whatever the store and however entities are judged, a second revalidation
   * at the same instant does nothing, exactly when the snapshot defines no
   * reserved type.
   */
  lemma SecondSettlesIff(types: seq<string>)
    requires NoDuplicates(types)
    ensures (forall judge: Judgement, store: Store, step: Step {:trigger Settles(types, judge, store, step)} ::
               Settles(types, judge, store, step))
      <==> NoneReserved(types)
  {
    if NoneReserved(types) {
      forall judge: Judgement, store: Store, step: Step ensures Settles(types, judge, store, step) {
        PlainTypesSettle(types, judge, store, step);
      }
    } else {
      var entityType :| entityType in types && IsReserved(entityType);
      var store, step := ReservedTypeUnsettles(types, entityType);
    }
  }
}
