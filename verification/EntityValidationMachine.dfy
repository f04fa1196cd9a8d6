/**
 * The validator beside the rest of the store: source transactions, consumers
 * moving their checkpoints and revalidations in any order, under a clock that
 * never steps back.
 */
module EntityValidationMachine {
  import opened Wrappers
  import opened Seqs
  import opened EntityValidation
  import opened ConsumerCheckpoint
  import opened EntityValidationProofs
  import opened EntityValidationRuns
  import opened EntityValidationHealth
  import opened EntityValidationStore

  // ---- What a revalidation observes -----------------------------------------

  /** What judging one entity finds. */
  datatype Finding = Finding(schemaId: string, stateCid: string, issues: seq<Issue>)

  /**
   * The types a snapshot defines, and how it judges an entity of one of them.
   * Schemas and graph constraints read entities of defined types only.
   */
  datatype Schemas = Schemas(types: Snapshot -> seq<string>, judge: (Snapshot, string, Entity, seq<Row>) -> Finding)

  /** A snapshot with two schemas for one type is refused. */
  ghost predicate DefinesOnce(schemas: Schemas) {
    forall snapshot: Snapshot {:trigger schemas.types(snapshot)} :: NoDuplicates(schemas.types(snapshot))
  }

  predicate Carries(row: Row, types: seq<string>) {
    row.entityType.Some? && row.entityType.value in types
  }

  predicate HasTypeIn(rows: seq<Row>, types: seq<string>, entity: Entity) {
    exists row :: row in rows && row.fact.entity == entity && Carries(row, types)
  }

  function IsJudged(types: seq<string>, rows: seq<Row>): Row -> bool {
    (row: Row) => HasTypeIn(rows, types, row.fact.entity)
  }

  /** The rows of the entities that carry a defined type. */
  function Judged(types: seq<string>, rows: seq<Row>): seq<Row> {
    Filter(IsJudged(types, rows), rows)
  }

  function Subjects(rows: seq<Row>, entityType: string): set<Entity> {
    set row | row in rows && row.entityType == Some(entityType) :: row.fact.entity
  }

  /** The entities of a set, each once, in an order the set decides. */
  ghost function Listed(entities: set<Entity>): (list: seq<Entity>)
    ensures NoDuplicates(list) && forall e :: e in list <==> e in entities
  {
    if entities == {} then []
    else
      var first :| first in entities;
      [first] + Listed(entities - {first})
  }

  function Judge(schemas: Schemas, snapshot: Snapshot, entityType: string, rows: seq<Row>): Entity -> Observation {
    (subject: Entity) =>
      var finding := schemas.judge(snapshot, entityType, subject, rows);
      Observation(entityType, subject, finding.schemaId, finding.stateCid, finding.issues)
  }

  ghost function JudgeType(schemas: Schemas, snapshot: Snapshot, entityType: string, rows: seq<Row>): seq<Observation> {
    Map(Judge(schemas, snapshot, entityType, rows), Listed(Subjects(rows, entityType)))
  }

  ghost function JudgeTypes(schemas: Schemas, snapshot: Snapshot, types: seq<string>,
                            rows: seq<Row>): seq<Observation> {
    if types == [] then []
    else
      var last := |types| - 1;
      JudgeTypes(schemas, snapshot, types[..last], rows) + JudgeType(schemas, snapshot, types[last], rows)
  }

  /** What validating a snapshot's types finds in the rows a read sees. */
  ghost function Observations(schemas: Schemas, snapshot: Snapshot, visible: seq<Row>): seq<Observation> {
    var types := schemas.types(snapshot);
    JudgeTypes(schemas, snapshot, types, Judged(types, visible))
  }

  lemma TypesSubjects(schemas: Schemas, snapshot: Snapshot, entityType: string, rows: seq<Row>)
    ensures DistinctSubjects(JudgeType(schemas, snapshot, entityType, rows))
    ensures forall o :: o in JudgeType(schemas, snapshot, entityType, rows) ==> o.entityType == entityType
  {
    var subjects, found := Listed(Subjects(rows, entityType)), JudgeType(schemas, snapshot, entityType, rows);
    forall i | 0 <= i < |found| ensures found[i].subject == subjects[i] && found[i].entityType == entityType {
      assert found[i] == Judge(schemas, snapshot, entityType, rows)(subjects[i]);
    }
  }

  lemma {:induction false} EachTypeOnce(schemas: Schemas, snapshot: Snapshot, types: seq<string>, rows: seq<Row>)
    requires NoDuplicates(types)
    ensures DistinctSubjects(JudgeTypes(schemas, snapshot, types, rows))
    ensures forall o :: o in JudgeTypes(schemas, snapshot, types, rows) ==> o.entityType in types
  {
    if types != [] {
      var last := |types| - 1;
      EachTypeOnce(schemas, snapshot, types[..last], rows);
      TypesSubjects(schemas, snapshot, types[last], rows);
    }
  }

  /** The loops visit each subject of each defined type once. */
  lemma SubjectsAreObservedOnce(schemas: Schemas, snapshot: Snapshot, visible: seq<Row>)
    requires DefinesOnce(schemas)
    ensures DistinctSubjects(Observations(schemas, snapshot, visible))
  {
    EachTypeOnce(schemas, snapshot, schemas.types(snapshot), Judged(schemas.types(snapshot), visible));
  }

  // ---- The state machine ----------------------------------------------------

  /** The live rows, the journal as the feed lists it, and the last clock reading. */
  datatype Store = Store(rows: seq<Row>, journal: seq<Transaction>, clock: int)

  ghost function InputOf(schemas: Schemas, store: Store, ref: string, snapshot: Snapshot, now: int): Input {
    Input(ref, snapshot, LastSource(store.journal), Observations(schemas, snapshot, Visible(store.rows, now)))
  }

  ghost function PlanOf(schemas: Schemas, store: Store, ref: string, snapshot: Snapshot, now: int): seq<Op> {
    Plan(Seen(store.rows, now), InputOf(schemas, store, ref, snapshot, now))
  }

  /**
   * A source transaction leaves the rows so; a consumer moves its checkpoint without a journal; a revalidation
   * reads at `now` and commits at `at`, its own journal facts along with its operations.
   */
  datatype Step =
    | Change(rows: seq<Row>, transaction: Transaction, at: int)
    | Advance(consumer: string, next: nat, now: int, at: int, ids: seq<string>)
    | Revalidate(ref: string, snapshot: Snapshot, now: int, at: int, ids: seq<string>, position: nat, journal: seq<Row>)

  /** An attribute that other entities than the projector's can have: none of its own, but for the content id. */
  predicate IsPlainAttribute(attribute: Attribute) {
    attribute.SourceOf? || attribute.ContentIdOf?
  }

  /** The facts by which the transaction at a position describes itself: a new entity, under new ids. */
  ghost predicate Journals(rows: seq<Row>, ids: seq<string>, journal: seq<Row>, position: nat, at: int) {
    && (forall row :: row in rows ==> row.fact.entity != TransactionEntity(position))
    && (forall row :: row in journal ==>
          && row.fact.entity == TransactionEntity(position) && row.entityType == Some(TRANSACTION_TYPE)
          && row.validFrom == at && row.validTo.None? && row.fact.id !in ids && IsPlainAttribute(row.fact.attribute))
    && (forall row, other :: row in rows && other in journal ==> row.fact.id != other.fact.id)
    && journal != [] && UniqueIds(Facts(journal))
  }

  predicate HasPlainAttribute(row: Row) {
    IsValidatorEntity(row.fact.entity) || IsPlainAttribute(row.fact.attribute)
  }

  /**
   * Only the system gives an entity a type or a reserved attribute of its own, and a consumer's checkpoint has no
   * other type.
   */
  predicate IsClassed(row: Row) {
    && HasPlainAttribute(row)
    && HasPlainType(row)
  }

  predicate HasPlainType(row: Row) {
    || IsValidatorEntity(row.fact.entity)
    || (row.fact.entity.ConsumerEntity? && row.entityType == Some(CONSUMER_TYPE))
    || (row.fact.entity.TransactionEntity? && row.entityType == Some(TRANSACTION_TYPE))
    || (!row.fact.entity.ConsumerEntity? && (row.entityType.Some? ==> !IsWrittenType(row.entityType.value)))
  }

  ghost predicate Classed(rows: seq<Row>) {
    forall row :: row in rows ==> IsClassed(row)
  }

  function IsConsumers(): Row -> bool {
    (row: Row) => row.fact.entity.ConsumerEntity?
  }

  function Consumers(rows: seq<Row>): seq<Row> {
    Filter(IsConsumers(), rows)
  }

  /**
   * Callers can write neither the system's entities nor its types; generated ids and positions are
   * new; the clock does not step back.
   */
  ghost predicate Enabled(schemas: Schemas, store: Store, step: Step) {
    match step
    case Change(rows, transaction, at) =>
      && Own(rows) == Own(store.rows) && Consumers(rows) == Consumers(store.rows) && Classed(rows)
      && UniqueIds(Facts(rows))
      && transaction.actor != VALIDATOR && Ordered(store.journal + [transaction]) && store.clock <= at
    case Advance(consumer, next, now, at, ids) =>
      && store.clock <= now <= at && MayAdvance(Seen(store.rows, now), consumer, next)
      && Generated(Facts(store.rows), AdvanceOps(Seen(store.rows, now), consumer, next), ids)
    case Revalidate(ref, snapshot, now, at, ids, position, journal) =>
      && store.clock <= now <= at && Generated(Facts(store.rows), PlanOf(schemas, store, ref, snapshot, now), ids)
      && Journals(store.rows, ids, journal, position, at)
      && Ordered(store.journal + [Transaction(position, VALIDATOR)])
  }

  ghost function Committed(rows: seq<Row>, plan: seq<Op>, ids: seq<string>, journal: seq<Row>, at: int): seq<Row>
    requires Generated(Facts(rows), plan, ids)
  {
    Written(rows, plan, ids, at) + journal
  }

  ghost function Advanced(rows: seq<Row>, seen: seq<Fact>, consumer: string, next: nat, ids: seq<string>,
                          at: int): seq<Row>
    requires Generated(Facts(rows), AdvanceOps(seen, consumer, next), ids)
  {
    Written(rows, AdvanceOps(seen, consumer, next), ids, at)
  }

  /** Nothing is committed when there is nothing to do. */
  ghost function Next(schemas: Schemas, store: Store, step: Step): Store
    requires Enabled(schemas, store, step)
  {
    match step
    case Change(rows, transaction, at) => Store(rows, store.journal + [transaction], at)
    case Advance(consumer, next, now, at, ids) =>
      Store(Advanced(store.rows, Seen(store.rows, now), consumer, next, ids, at), store.journal, at)
    case Revalidate(ref, snapshot, now, at, ids, position, journal) =>
      var plan := PlanOf(schemas, store, ref, snapshot, now);
      if plan == [] then store.(clock := at)
      else
        Store(Committed(store.rows, plan, ids, journal, at), store.journal + [Transaction(position, VALIDATOR)], at)
  }

  /** The store a list of steps leads to; None when a step is not enabled. */
  ghost function Run(schemas: Schemas, store: Store, steps: seq<Step>): Option<Store>
    decreases |steps|
  {
    if steps == [] then Some(store)
    else if Enabled(schemas, store, steps[0]) then Run(schemas, Next(schemas, store, steps[0]), steps[1..])
    else None
  }

  // ---- What every run keeps -------------------------------------------------

  /** The projector's rows carry its types and have been valid since some earlier commit. */
  ghost predicate Seasoned(rows: seq<Row>, clock: int) {
    forall row :: row in rows && IsValidatorEntity(row.fact.entity) ==>
      row.entityType == Some(TypeOf(row.fact.entity)) && row.validFrom <= clock && row.validTo.None?
  }

  ghost predicate Sane(store: Store) {
    Healthy(Facts(store.rows)) && Seasoned(store.rows, store.clock) && Ordered(store.journal)
  }

  /** No read at or after the clock misses a row of the projector's. */
  lemma OwnRowsAreSeen(rows: seq<Row>, clock: int, now: int)
    requires Seasoned(rows, clock) && clock <= now
    ensures OwnFacts(Seen(rows, now)) == OwnFacts(Facts(rows))
  {
    FilterFacts(IsOwn(), IsOwnFact(), rows);
    FilterFacts(IsOwn(), IsOwnFact(), Visible(rows, now));
    FilterTwice(ValidAt(now), IsOwn(), IsOwn(), rows);
  }

  lemma PlanOfAllFacts(schemas: Schemas, store: Store, ref: string, snapshot: Snapshot, now: int)
    requires Seasoned(store.rows, store.clock) && store.clock <= now
    ensures PlanOf(schemas, store, ref, snapshot, now)
      == Plan(Facts(store.rows), InputOf(schemas, store, ref, snapshot, now))
  {
    OwnRowsAreSeen(store.rows, store.clock, now);
    OwnFactsDecidePlans(Seen(store.rows, now), Facts(store.rows), InputOf(schemas, store, ref, snapshot, now));
  }

  /** Facts of other entities do not bear on health. */
  lemma OwnFactsDecideHealth(facts: seq<Fact>, changed: seq<Fact>)
    requires Healthy(facts) && OwnFacts(facts) == OwnFacts(changed) && UniqueIds(changed)
    ensures Healthy(changed)
  {
    forall f | f in changed && f.entity.HeadEntity?
      ensures IsRefHead(changed, f.entity.ref, f.entity) && (f.attribute.RefOf? ==> f.value == Text(f.entity.ref))
    {
      assert f in OwnFacts(changed);
      OwnDecidesRows(facts, changed, f.entity, RefOf);
    }
    forall e, a | IsPointer(e, a) ensures |Values(changed, e, a)| <= 1 {
      OwnDecidesRows(facts, changed, e, a);
      assert |Values(facts, e, a)| <= 1;
    }
  }

  lemma ForeignRowsDoNotCount(rows: seq<Row>, more: seq<Row>)
    requires forall row :: row in more ==> !IsValidatorEntity(row.fact.entity)
    ensures OwnFacts(Facts(rows + more)) == OwnFacts(Facts(rows))
  {
    FactsConcat(rows, more);
    FilterConcat(IsOwnFact(), Facts(rows), Facts(more));
    FilterNone(IsOwnFact(), Facts(more));
  }

  lemma HeadMovesAreOwn(facts: seq<Fact>, input: Input, op: Op)
    requires op in ObserveAll(facts, input, input.observations) && op.AssertOp?
    ensures IsValidatorEntity(op.entity)
  {
    var i := SomeObservation(facts, input, input.observations, op);
    ObserveLeaves(facts, input, input.observations[i]);
  }

  lemma PlanMembers(facts: seq<Fact>, input: Input, op: Op)
    requires op in Plan(facts, input)
    ensures op in ObserveAll(facts, input, input.observations)
      || op in ClearInactive(facts, input, RefHeads(facts, input.ref))
      || op in NewRun(facts, input) || op in MoveCheckpoint(facts, input)
  {
  }

  lemma PlansAssertOwnFacts(facts: seq<Fact>, input: Input, op: Op)
    requires op in Plan(facts, input) && op.AssertOp?
    ensures IsValidatorEntity(op.entity)
  {
    PlanMembers(facts, input, op);
    if op in ObserveAll(facts, input, input.observations) {
      HeadMovesAreOwn(facts, input, op);
    } else {
      ClearInactiveOnlyRetracts(facts, input, RefHeads(facts, input.ref));
      RunOnlyAsserts(facts, input);
      MoveCheckpointLeaves(facts, input);
    }
  }

  lemma CreatedFactsAreOwn(facts: seq<Fact>, input: Input, ids: seq<string>)
    requires |ids| == |Plan(facts, input)|
    ensures forall f :: f in Created(Plan(facts, input), ids) ==> IsValidatorEntity(f.entity)
  {
    forall f | f in Created(Plan(facts, input), ids) ensures IsValidatorEntity(f.entity) {
      CreatedFrom(Plan(facts, input), ids, f);
      PlansAssertOwnFacts(facts, input, AssertOp(f.entity, f.attribute, f.value));
    }
  }

  /** What one revalidation writes is the projector's own, of its types, and valid from the commit on. */
  lemma StampedAreSeasoned(facts: seq<Fact>, input: Input, ids: seq<string>, at: int)
    requires |ids| == |Plan(facts, input)|
    ensures forall row :: row in Map(Stamp(at), Created(Plan(facts, input), ids)) ==>
      IsValidatorEntity(row.fact.entity) && row.entityType == Some(TypeOf(row.fact.entity)) && row.validFrom == at
        && row.validTo.None?
  {
    CreatedFactsAreOwn(facts, input, ids);
  }

  lemma WrittenIsHealthy(rows: seq<Row>, facts: seq<Fact>, input: Input, plan: seq<Op>, ids: seq<string>, at: int)
    requires Healthy(facts) && DistinctSubjects(input.observations) && facts == Facts(rows)
    requires plan == Plan(facts, input)
    requires Generated(facts, plan, ids)
    ensures Healthy(Facts(Written(rows, plan, ids, at)))
  {
    RevalidationKeepsHealth(facts, input, ids);
    WrittenFacts(rows, plan, ids, at);
  }

  lemma WrittenIsSeasoned(rows: seq<Row>, clock: int, facts: seq<Fact>, input: Input, plan: seq<Op>, ids: seq<string>,
                          at: int)
    requires Seasoned(rows, clock) && clock <= at && plan == Plan(facts, input) && |ids| == |plan|
    ensures Seasoned(Written(rows, plan, ids, at), at)
  {
    StampedAreSeasoned(facts, input, ids, at);
  }

  lemma AppendingKeepsHealth(rows: seq<Row>, more: seq<Row>)
    requires Healthy(Facts(rows)) && UniqueIds(Facts(rows + more))
    requires forall row :: row in more ==> !IsValidatorEntity(row.fact.entity)
    ensures Healthy(Facts(rows + more))
  {
    ForeignRowsDoNotCount(rows, more);
    OwnFactsDecideHealth(Facts(rows), Facts(rows + more));
  }

  /** What an enabled revalidation commits, in terms of all the facts rather than those it sees. */
  lemma Committing(schemas: Schemas, store: Store, step: Step) returns (input: Input, plan: seq<Op>)
    requires DefinesOnce(schemas) && Seasoned(store.rows, store.clock) && step.Revalidate?
    requires Enabled(schemas, store, step)
    ensures input == InputOf(schemas, store, step.ref, step.snapshot, step.now) && DistinctSubjects(input.observations)
    ensures plan == Plan(Facts(store.rows), input) == PlanOf(schemas, store, step.ref, step.snapshot, step.now)
    ensures Generated(Facts(store.rows), plan, step.ids)
  {
    input := InputOf(schemas, store, step.ref, step.snapshot, step.now);
    plan := PlanOf(schemas, store, step.ref, step.snapshot, step.now);
    PlanOfAllFacts(schemas, store, step.ref, step.snapshot, step.now);
    SubjectsAreObservedOnce(schemas, step.snapshot, Visible(store.rows, step.now));
  }

  lemma WrittenIds(rows: seq<Row>, plan: seq<Op>, ids: seq<string>, at: int, row: Row)
    requires |ids| == |plan| && row in Written(rows, plan, ids, at)
    ensures row in rows || row.fact.id in ids
  {
  }

  lemma JournalIdsAreNew(rows: seq<Row>, plan: seq<Op>, ids: seq<string>, journal: seq<Row>, position: nat, at: int,
                         written: seq<Row>)
    requires |ids| == |plan| && written == Written(rows, plan, ids, at) && Journals(rows, ids, journal, position, at)
    requires UniqueIds(Facts(written))
    ensures UniqueIds(Facts(written + journal))
  {
    FactsConcat(written, journal);
    forall f, g | f in Facts(written) && g in Facts(journal) ensures f.id != g.id {
      var i, j :| 0 <= i < |written| && written[i].fact == f && 0 <= j < |journal| && journal[j].fact == g;
      WrittenIds(rows, plan, ids, at, written[i]);
      assert journal[j] in journal;
    }
    UniqueConcat(Facts(written), Facts(journal));
  }

  lemma UniqueConcat(a: seq<Fact>, b: seq<Fact>)
    requires UniqueIds(a) && UniqueIds(b) && forall f, g :: f in a && g in b ==> f.id != g.id
    ensures UniqueIds(a + b)
  {
  }

  lemma JournalledIsHealthy(rows: seq<Row>, plan: seq<Op>, ids: seq<string>, journal: seq<Row>, position: nat, at: int,
                            written: seq<Row>)
    requires |ids| == |plan| && written == Written(rows, plan, ids, at) && Journals(rows, ids, journal, position, at)
    requires Healthy(Facts(written))
    ensures Healthy(Facts(written + journal))
  {
    JournalIdsAreNew(rows, plan, ids, journal, position, at, written);
    AppendingKeepsHealth(written, journal);
  }

  lemma JournalledIsSeasoned(rows: seq<Row>, ids: seq<string>, journal: seq<Row>, position: nat, at: int,
                             written: seq<Row>)
    requires Journals(rows, ids, journal, position, at) && Seasoned(written, at)
    ensures Seasoned(written + journal, at)
  {
  }

  lemma CommitIsSane(rows: seq<Row>, clock: int, facts: seq<Fact>, input: Input, plan: seq<Op>, ids: seq<string>,
                     journal: seq<Row>, position: nat, at: int, written: seq<Row>)
    requires Healthy(facts) && DistinctSubjects(input.observations) && facts == Facts(rows)
    requires plan == Plan(facts, input)
    requires Generated(facts, plan, ids) && Seasoned(rows, clock) && clock <= at
    requires Journals(rows, ids, journal, position, at)
    requires written == Written(rows, plan, ids, at)
    ensures Healthy(Facts(written + journal)) && Seasoned(written + journal, at)
  {
    WrittenIsHealthy(rows, facts, input, plan, ids, at);
    JournalledIsHealthy(rows, plan, ids, journal, position, at, written);
    WrittenIsSeasoned(rows, clock, facts, input, plan, ids, at);
    JournalledIsSeasoned(rows, ids, journal, position, at, written);
  }

  lemma WritingKeepsSane(schemas: Schemas, store: Store, step: Step)
    requires DefinesOnce(schemas) && Sane(store) && step.Revalidate? && Enabled(schemas, store, step)
    ensures Sane(Next(schemas, store, step))
  {
    var input, plan := Committing(schemas, store, step);
    if plan != [] {
      CommitIsSane(store.rows, store.clock, Facts(store.rows), input, plan, step.ids, step.journal, step.position,
                   step.at, Written(store.rows, plan, step.ids, step.at));
    }
  }

  /** Health, types and order survive whatever leaves the projector's rows alone. */
  lemma SameOwnIsSane(store: Store, after: Store)
    requires Sane(store) && Own(after.rows) == Own(store.rows) && UniqueIds(Facts(after.rows))
    requires store.clock <= after.clock && Ordered(after.journal)
    ensures Sane(after)
  {
    FilterFacts(IsOwn(), IsOwnFact(), store.rows);
    FilterFacts(IsOwn(), IsOwnFact(), after.rows);
    OwnFactsDecideHealth(Facts(store.rows), Facts(after.rows));
    forall row | row in after.rows && IsValidatorEntity(row.fact.entity) ensures row in store.rows {
      assert row in Own(after.rows);
    }
  }

  lemma ChangeKeepsSane(schemas: Schemas, store: Store, step: Step)
    requires Sane(store) && step.Change? && Enabled(schemas, store, step)
    ensures Sane(Next(schemas, store, step))
  {
    SameOwnIsSane(store, Next(schemas, store, step));
  }

  // ---- Moving a consumer's checkpoint ----------------------------------------

  ghost predicate SparesAll(ops: seq<Op>, p: Row -> bool, rows: seq<Row>) {
    forall i :: 0 <= i < |rows| && p(rows[i]) ==> RetractOp(rows[i].fact.id) !in ops
  }

  lemma WrittenLeaves(rows: seq<Row>, ops: seq<Op>, ids: seq<string>, at: int, p: Row -> bool)
    requires |ids| == |ops| && SparesAll(ops, p, rows)
    requires forall row :: row in Map(Stamp(at), Created(ops, ids)) ==> !p(row)
    ensures Filter(p, Written(rows, ops, ids, at)) == Filter(p, rows)
  {
    var stamped := Map(Stamp(at), Created(ops, ids));
    FilterConcat(p, Filter(KeptRow(ops), rows), stamped);
    forall row | row in rows ensures p(row) == (KeptRow(ops)(row) && p(row)) {
      var i :| 0 <= i < |rows| && rows[i] == row;
    }
    FilterTwice(KeptRow(ops), p, p, rows);
    FilterNone(p, stamped);
  }

  /** Of all live rows, only those of the consumer's checkpoint can be retracted. */
  lemma AdvanceSpares(rows: seq<Row>, now: int, consumer: string, next: nat, p: Row -> bool)
    requires UniqueIds(Facts(rows)) && forall row :: p(row) ==> row.fact.entity != ConsumerEntity(consumer)
    ensures SparesAll(AdvanceOps(Seen(rows, now), consumer, next), p, rows)
  {
    var seen, facts := Seen(rows, now), Facts(rows);
    SeenAreFacts(rows, now);
    forall i | 0 <= i < |rows| && p(rows[i]) ensures RetractOp(rows[i].fact.id) !in AdvanceOps(seen, consumer, next) {
      assert facts[i] == rows[i].fact;
      if RetractOp(facts[i].id) in AdvanceOps(seen, consumer, next) {
        AdvanceRetracts(seen, facts, consumer, next, facts[i]);
      }
    }
  }

  lemma AdvanceCreates(seen: seq<Fact>, consumer: string, next: nat, ops: seq<Op>, ids: seq<string>, f: Fact)
    requires ops == AdvanceOps(seen, consumer, next) && |ids| == |ops| && f in Created(ops, ids)
    ensures f.entity == ConsumerEntity(consumer) && f.attribute.SourceOf?
  {
    CreatedFrom(ops, ids, f);
    AdvanceAsserts(seen, consumer, next, AssertOp(f.entity, f.attribute, f.value));
  }

  /** And what is written is the checkpoint's. */
  lemma AdvanceStamps(seen: seq<Fact>, consumer: string, next: nat, ops: seq<Op>, ids: seq<string>, at: int)
    requires ops == AdvanceOps(seen, consumer, next) && |ids| == |ops|
    ensures forall row :: row in Map(Stamp(at), Created(ops, ids)) ==>
      && row.fact.entity == ConsumerEntity(consumer) && row.entityType == Some(CONSUMER_TYPE)
      && row.validFrom == at && row.validTo.None? && row.fact.attribute.SourceOf?
  {
    forall f | f in Created(ops, ids) ensures f.entity == ConsumerEntity(consumer) && f.attribute.SourceOf? {
      AdvanceCreates(seen, consumer, next, ops, ids, f);
    }
  }

  /** A consumer's movement touches no other entity's rows. */
  lemma AdvanceLeavesTheRest(schemas: Schemas, store: Store, step: Step, p: Row -> bool)
    requires UniqueIds(Facts(store.rows)) && step.Advance? && Enabled(schemas, store, step)
    requires forall row :: p(row) ==> row.fact.entity != ConsumerEntity(step.consumer)
    ensures Filter(p, Next(schemas, store, step).rows) == Filter(p, store.rows)
  {
    var seen := Seen(store.rows, step.now);
    var ops := AdvanceOps(seen, step.consumer, step.next);
    AdvanceSpares(store.rows, step.now, step.consumer, step.next, p);
    AdvanceStamps(seen, step.consumer, step.next, ops, step.ids, step.at);
    WrittenLeaves(store.rows, ops, step.ids, step.at, p);
  }

  lemma AdvanceKeepsIds(schemas: Schemas, store: Store, step: Step)
    requires UniqueIds(Facts(store.rows)) && step.Advance? && Enabled(schemas, store, step)
    ensures UniqueIds(Facts(Next(schemas, store, step).rows))
  {
    var ops := AdvanceOps(Seen(store.rows, step.now), step.consumer, step.next);
    IdsStayUnique(Facts(store.rows), ops, step.ids);
    WrittenFacts(store.rows, ops, step.ids, step.at);
  }

  lemma AdvanceKeepsSane(schemas: Schemas, store: Store, step: Step)
    requires Sane(store) && step.Advance? && Enabled(schemas, store, step)
    ensures Sane(Next(schemas, store, step)) && Own(Next(schemas, store, step).rows) == Own(store.rows)
  {
    AdvanceLeavesTheRest(schemas, store, step, IsOwn());
    AdvanceKeepsIds(schemas, store, step);
    SameOwnIsSane(store, Next(schemas, store, step));
  }

  // ---- Runs ------------------------------------------------------------------

  /** However the steps interleave, the store stays sane. */
  lemma {:induction false} RunsStaySane(schemas: Schemas, store: Store, steps: seq<Step>)
    requires DefinesOnce(schemas) && Sane(store) && Run(schemas, store, steps).Some?
    ensures Sane(Run(schemas, store, steps).value)
    decreases |steps|
  {
    if steps != [] {
      match steps[0] {
        case Change(_, _, _) => ChangeKeepsSane(schemas, store, steps[0]);
        case Advance(_, _, _, _, _) => AdvanceKeepsSane(schemas, store, steps[0]);
        case Revalidate(_, _, _, _, _, _, _) => WritingKeepsSane(schemas, store, steps[0]);
      }
      RunsStaySane(schemas, Next(schemas, store, steps[0]), steps[1..]);
    }
  }

  lemma AdvanceKeepsClassed(schemas: Schemas, store: Store, step: Step)
    requires Classed(store.rows) && step.Advance? && Enabled(schemas, store, step)
    ensures Classed(Next(schemas, store, step).rows)
  {
    var seen := Seen(store.rows, step.now);
    AdvanceStamps(seen, step.consumer, step.next, AdvanceOps(seen, step.consumer, step.next), step.ids, step.at);
  }

  lemma CommitIsClassed(rows: seq<Row>, facts: seq<Fact>, input: Input, plan: seq<Op>, ids: seq<string>,
                        journal: seq<Row>, position: nat, at: int)
    requires Classed(rows) && plan == Plan(facts, input) && |ids| == |plan|
    requires Journals(rows, ids, journal, position, at)
    ensures Classed(Written(rows, plan, ids, at) + journal)
  {
    StampedAreSeasoned(facts, input, ids, at);
  }

  lemma WritingKeepsClassed(schemas: Schemas, store: Store, step: Step)
    requires Classed(store.rows) && step.Revalidate? && Enabled(schemas, store, step)
    ensures Classed(Next(schemas, store, step).rows)
  {
    var plan := PlanOf(schemas, store, step.ref, step.snapshot, step.now);
    if plan != [] {
      CommitIsClassed(store.rows, Seen(store.rows, step.now),
                      InputOf(schemas, store, step.ref, step.snapshot, step.now), plan, step.ids, step.journal,
                      step.position, step.at);
    }
  }

  /** Over every run, only the system's entities carry the system's types. */
  lemma {:induction false} RunsStayClassed(schemas: Schemas, store: Store, steps: seq<Step>)
    requires Classed(store.rows) && Run(schemas, store, steps).Some?
    ensures Classed(Run(schemas, store, steps).value.rows)
    decreases |steps|
  {
    if steps != [] {
      match steps[0] {
        case Change(_, _, _) =>
        case Advance(_, _, _, _, _) => AdvanceKeepsClassed(schemas, store, steps[0]);
        case Revalidate(_, _, _, _, _, _, _) => WritingKeepsClassed(schemas, store, steps[0]);
      }
      RunsStayClassed(schemas, Next(schemas, store, steps[0]), steps[1..]);
    }
  }

  lemma EmptyStoreIsSane(clock: int)
    ensures Sane(Store([], [], clock))
  {
    forall e, a | IsPointer(e, a) ensures |Values([], e, a)| <= 1 {
      assert Rows([], e, a) == [];
    }
  }

  /** Over every run from an empty store, each head has at most one live result. */
  lemma HeadsHaveOneResult(schemas: Schemas, clock: int, steps: seq<Step>, head: Entity)
    requires DefinesOnce(schemas) && Run(schemas, Store([], [], clock), steps).Some? && head.HeadEntity?
    ensures |Rows(Facts(Run(schemas, Store([], [], clock), steps).value.rows), head, ResultOf)| <= 1
  {
    EmptyStoreIsSane(clock);
    RunsStaySane(schemas, Store([], [], clock), steps);
    var facts := Facts(Run(schemas, Store([], [], clock), steps).value.rows);
    assert IsPointer(head, ResultOf) && |Values(facts, head, ResultOf)| == |Rows(facts, head, ResultOf)|;
  }

  // ---- A revalidation beside the source --------------------------------------

  lemma ForeignFactIsKept(facts: seq<Fact>, input: Input, f: Fact)
    requires Healthy(facts) && DistinctSubjects(input.observations) && f in facts && !IsValidatorEntity(f.entity)
    ensures RetractOp(f.id) !in Plan(facts, input)
  {
    PlanMoves(facts, input, f);
  }

  ghost predicate Spares(ops: seq<Op>, rows: seq<Row>) {
    forall i :: 0 <= i < |rows| && !IsValidatorEntity(rows[i].fact.entity) ==> RetractOp(rows[i].fact.id) !in ops
  }

  lemma PlansSpareForeignRows(rows: seq<Row>, facts: seq<Fact>, input: Input, plan: seq<Op>)
    requires Healthy(facts) && DistinctSubjects(input.observations) && facts == Facts(rows)
    requires plan == Plan(facts, input)
    ensures Spares(plan, rows)
  {
    forall i | 0 <= i < |rows| && !IsValidatorEntity(rows[i].fact.entity) ensures RetractOp(rows[i].fact.id) !in plan {
      assert facts[i] == rows[i].fact;
      ForeignFactIsKept(facts, input, facts[i]);
    }
  }

  lemma KeptForeign(rows: seq<Row>, plan: seq<Op>, stamped: seq<Row>)
    requires Spares(plan, rows) && forall row :: row in stamped ==> IsValidatorEntity(row.fact.entity)
    ensures Foreign(Filter(KeptRow(plan), rows) + stamped) == Foreign(rows)
  {
    FilterConcat(IsForeign(), Filter(KeptRow(plan), rows), stamped);
    forall row | row in rows ensures IsForeign()(row) == (KeptRow(plan)(row) && IsForeign()(row)) {
      var i :| 0 <= i < |rows| && rows[i] == row;
    }
    FilterTwice(KeptRow(plan), IsForeign(), IsForeign(), rows);
    FilterNone(IsForeign(), stamped);
  }

  lemma WrittenKeepsForeign(rows: seq<Row>, facts: seq<Fact>, input: Input, plan: seq<Op>, ids: seq<string>, at: int)
    requires Spares(plan, rows) && plan == Plan(facts, input) && |ids| == |plan|
    ensures Foreign(Written(rows, plan, ids, at)) == Foreign(rows)
  {
    StampedAreSeasoned(facts, input, ids, at);
    KeptForeign(rows, plan, Map(Stamp(at), Created(plan, ids)));
  }

  lemma JournalIsForeign(rows: seq<Row>, ids: seq<string>, journal: seq<Row>, position: nat, at: int, written: seq<Row>)
    requires Journals(rows, ids, journal, position, at)
    ensures Foreign(written + journal) == Foreign(written) + journal
  {
    FilterConcat(IsForeign(), written, journal);
    FilterAll(IsForeign(), journal);
  }

  lemma EnabledPlansSpare(schemas: Schemas, store: Store, step: Step) returns (input: Input, plan: seq<Op>)
    requires DefinesOnce(schemas) && Sane(store) && step.Revalidate? && Enabled(schemas, store, step)
    ensures plan == Plan(Facts(store.rows), input) == PlanOf(schemas, store, step.ref, step.snapshot, step.now)
    ensures Spares(plan, store.rows) && |plan| == |step.ids|
  {
    input, plan := Committing(schemas, store, step);
    PlansSpareForeignRows(store.rows, Facts(store.rows), input, plan);
  }

  lemma ForeignRowsAfter(schemas: Schemas, store: Store, step: Step, input: Input, plan: seq<Op>)
    requires step.Revalidate? && Enabled(schemas, store, step) && Spares(plan, store.rows) && |plan| == |step.ids|
    requires plan == Plan(Facts(store.rows), input) == PlanOf(schemas, store, step.ref, step.snapshot, step.now)
    ensures plan == [] ==> Next(schemas, store, step).rows == store.rows
    ensures plan != [] ==> Foreign(Next(schemas, store, step).rows) == Foreign(store.rows) + step.journal
  {
    if plan != [] {
      WrittenKeepsForeign(store.rows, Facts(store.rows), input, plan, step.ids, step.at);
      JournalIsForeign(store.rows, step.ids, step.journal, step.position, step.at,
                       Written(store.rows, plan, step.ids, step.at));
    }
  }

  /** A revalidation leaves every row of another entity where it was, and adds only its own journal. */
  lemma RevalidationLeavesTheRest(schemas: Schemas, store: Store, step: Step)
    requires DefinesOnce(schemas) && Sane(store) && step.Revalidate? && Enabled(schemas, store, step)
    ensures var plan := PlanOf(schemas, store, step.ref, step.snapshot, step.now);
      var after := Next(schemas, store, step);
      if plan == [] then after.rows == store.rows && after.journal == store.journal
      else
        && Foreign(after.rows) == Foreign(store.rows) + step.journal
        && after.journal == store.journal + [Transaction(step.position, VALIDATOR)]
  {
    var input, plan := EnabledPlansSpare(schemas, store, step);
    ForeignRowsAfter(schemas, store, step, input, plan);
  }
}
