/**
 * With the type of consumers' checkpoints defined, a current status can be
 * wrong at every instant: what moves after the validation is not journaled.
 */
module EntityValidationUnjournaled {
  import opened Wrappers
  import opened Seqs
  import opened ConsumerCheckpoint
  import opened ConsumerRuns
  import opened EntityValidation
  import opened EntityValidationProofs
  import opened EntityValidationRuns
  import opened EntityValidationHealth
  import opened EntityValidationStore
  import opened EntityValidationMachine
  import opened EntityValidationProgress
  import opened EntityValidationTwice
  import opened EntityValidationReserved
  import opened EntityValidationStatus
  import opened EntityValidationMisled

  const CONSUMER := "c"

  predicate HasMoved(rows: seq<Row>) {
    exists row :: row in rows && row.fact.value == Number(1)
  }

  /** A judgement that tells whether the checkpoint has moved. */
  function Reading(): Judgement {
    (snapshot: Snapshot, entityType: string, subject: Entity, rows: seq<Row>) =>
      Finding("", if HasMoved(rows) then "moved" else "", [])
  }

  lemma UnmovedIsObserved(types: Snapshot -> seq<string>, snapshot: Snapshot, visible: seq<Row>, o: Observation)
    requires !HasMoved(visible) && o in Observations(Schemas(types, Reading()), snapshot, visible)
    ensures o.stateCid == ""
  {
    var judged := Judged(types(snapshot), visible);
    ObservedHasType(Schemas(types, Reading()), snapshot, types(snapshot), judged, o);
    assert forall row :: row in judged ==> row in visible;
  }

  lemma MovedIsObserved(types: Snapshot -> seq<string>, snapshot: Snapshot, visible: seq<Row>, row: Row)
      returns (o: Observation)
    requires row in visible && Carries(row, types(snapshot)) && row.fact.value == Number(1)
    ensures o in Observations(Schemas(types, Reading()), snapshot, visible) && o.stateCid == "moved"
  {
    var judged := Judged(types(snapshot), visible);
    assert row in judged;
    o := TypeIsObserved(Schemas(types, Reading()), snapshot, types(snapshot), judged, row.entityType.value,
      row.fact.entity);
  }

  lemma MovingIsNoticed(types: Snapshot -> seq<string>, snapshot: Snapshot, before: seq<Row>, after: seq<Row>, row: Row)
    requires !HasMoved(before)
    requires row in after && Carries(row, types(snapshot)) && row.fact.value == Number(1)
    ensures var schemas := Schemas(types, Reading());
      Observations(schemas, snapshot, after) != Observations(schemas, snapshot, before)
  {
    var o := MovedIsObserved(types, snapshot, after, row);
    if o in Observations(Schemas(types, Reading()), snapshot, before) {
      UnmovedIsObserved(types, snapshot, before, o);
    }
  }

  // ---- The consumer's rows ------------------------------------------------------

  lemma AllIsSeen(rows: seq<Row>)
    requires StartAtZero(rows)
    ensures Visible(rows, 0) == rows && Seen(rows, 0) == Facts(rows)
  {
    FilterAll(ValidAt(0), rows);
  }

  lemma AdvanceStartsAtZero(schemas: Schemas, store: Store, step: Step)
    requires StartAtZero(store.rows) && step.Advance? && step.at == 0 && Enabled(schemas, store, step)
    ensures StartAtZero(Next(schemas, store, step).rows)
  {
    var seen := Seen(store.rows, step.now);
    AdvanceStamps(seen, step.consumer, step.next, AdvanceOps(seen, step.consumer, step.next), step.ids, step.at);
  }

  lemma AdvancedRows(schemas: Schemas, store: Store, step: Step, ops: seq<Op>)
    requires StartAtZero(store.rows) && step.Advance? && step.now == 0 && Enabled(schemas, store, step)
    requires ops == AdvanceOps(Facts(store.rows), step.consumer, step.next)
    ensures |step.ids| == |ops| && Next(schemas, store, step).rows == Written(store.rows, ops, step.ids, step.at)
  {
    AllIsSeen(store.rows);
  }

  lemma AdvancedFacts(schemas: Schemas, store: Store, step: Step, ops: seq<Op>)
    requires StartAtZero(store.rows) && step.Advance? && step.now == 0 && Enabled(schemas, store, step)
    requires ops == AdvanceOps(Facts(store.rows), step.consumer, step.next)
    ensures MayAdvance(Facts(store.rows), step.consumer, step.next) && Generated(Facts(store.rows), ops, step.ids)
    ensures Next(schemas, store, step).rows == Written(store.rows, ops, step.ids, step.at)
    ensures Facts(Next(schemas, store, step).rows) == ApplyOps(Facts(store.rows), ops, step.ids)
  {
    AllIsSeen(store.rows);
    WrittenFacts(store.rows, ops, step.ids, step.at);
  }

  /** After a movement there is a row of the consumer's type that holds the next position. */
  lemma PositionIsWritten(schemas: Schemas, store: Store, step: Step) returns (row: Row)
    requires StartAtZero(store.rows) && step.Advance? && step.now == step.at == 0 && Enabled(schemas, store, step)
    ensures row in Next(schemas, store, step).rows && row.fact.entity == ConsumerEntity(step.consumer)
    ensures row.entityType == Some(CONSUMER_TYPE) && row.fact.value == Number(step.next)
  {
    var ops := AdvanceOps(Facts(store.rows), step.consumer, step.next);
    AdvancedRows(schemas, store, step, ops);
    row := WrittenPosition(store.rows, step.consumer, step.next, ops, step.ids, step.at);
  }

  lemma WrittenPosition(rows: seq<Row>, consumer: string, next: nat, ops: seq<Op>, ids: seq<string>, at: int)
      returns (row: Row)
    requires |ids| == |ops| && ops == AdvanceOps(Facts(rows), consumer, next)
    ensures row in Written(rows, ops, ids, at) && row.fact.entity == ConsumerEntity(consumer)
    ensures row.entityType == Some(CONSUMER_TYPE) && row.fact.value == Number(next)
  {
    LastMovesPosition(Facts(rows), consumer, next);
    row := AssertedRow(rows, ops, ids, at, AssertOp(ConsumerEntity(consumer), POSITION_OF, Number(next)));
  }

  lemma LastMovesPosition(facts: seq<Fact>, consumer: string, next: nat)
    ensures AssertOp(ConsumerEntity(consumer), POSITION_OF, Number(next)) in AdvanceOps(facts, consumer, next)
  {
    var ops := AdvanceOps(facts, consumer, next);
    assert ops[|ops| - 1] == AssertOp(ConsumerEntity(consumer), POSITION_OF, Number(next));
  }

  lemma AssertedRow(rows: seq<Row>, ops: seq<Op>, ids: seq<string>, at: int, op: Op) returns (row: Row)
    requires |ids| == |ops| && op in ops && op.AssertOp?
    ensures row in Written(rows, ops, ids, at) && row.fact.entity == op.entity && row.fact.value == op.value
    ensures row.entityType == Some(TypeOf(op.entity))
  {
    var f := CreatedFor(ops, ids, op);
    row := Stamp(at)(f);
    assert row in Map(Stamp(at), Created(ops, ids));
  }

  lemma PositionIsLoaded(schemas: Schemas, store: Store, step: Step)
    requires StartAtZero(store.rows) && UniqueIds(Facts(store.rows))
    requires step.Advance? && step.now == step.at == 0 && Enabled(schemas, store, step)
    ensures var facts := Facts(Next(schemas, store, step).rows);
      IsLoaded(facts, step.consumer) && PositionIn(facts, step.consumer) == step.next
  {
    var ops := AdvanceOps(Facts(store.rows), step.consumer, step.next);
    AdvancedFacts(schemas, store, step, ops);
    AdvanceMoves(Facts(store.rows), step.consumer, step.next, step.ids);
  }

  lemma LoadedIsKnown(facts: seq<Fact>, consumer: string)
    requires IsLoaded(facts, consumer)
    ensures Known(facts, ConsumerEntity(consumer))
  {
    var rows := Rows(facts, ConsumerEntity(consumer), NAME_OF);
    assert |rows| == |Values(facts, ConsumerEntity(consumer), NAME_OF)| == 1;
    assert rows[0] in rows;
  }

  lemma MayMoveOn(a: seq<Fact>, b: seq<Fact>, consumer: string, next: nat)
    requires IsLoaded(a, consumer) && PositionIn(a, consumer) < next && 1 <= |consumer| <= MAX_NAME
    requires SameCheckpoint(a, b, consumer)
    ensures MayAdvance(b, consumer, next)
  {
    LoadedIsKnown(a, consumer);
  }

  // ---- The run ------------------------------------------------------------------

  lemma FirstMove(schemas: Schemas) returns (step: Step, store: Store, row: Row)
    ensures Enabled(schemas, Store([], [], 0), step) && store == Next(schemas, Store([], [], 0), step)
    ensures Sane(store) && StartAtZero(store.rows) && store.clock == 0
    ensures row in store.rows && row.entityType == Some(CONSUMER_TYPE) && !HasMoved(store.rows)
    ensures IsLoaded(Facts(store.rows), CONSUMER) && PositionIn(Facts(store.rows), CONSUMER) == 0
  {
    var empty := Store([], [], 0);
    EmptyStoreIsSane(0);
    assert Seen([], 0) == [];
    step := AdvanceIsPossible(schemas, empty, CONSUMER, 0, 0);
    store := Next(schemas, empty, step);
    AdvanceKeepsSane(schemas, empty, step);
    AdvanceStartsAtZero(schemas, empty, step);
    row := PositionIsWritten(schemas, empty, step);
    PositionIsLoaded(schemas, empty, step);
    NothingHasMoved(schemas, step);
  }

  lemma NothingHasMoved(schemas: Schemas, step: Step)
    requires step.Advance? && step.now == step.at == 0 && step.next == 0 && Enabled(schemas, Store([], [], 0), step)
    ensures !HasMoved(Next(schemas, Store([], [], 0), step).rows)
  {
    var ops := AdvanceOps([], step.consumer, 0);
    AdvancedFacts(schemas, Store([], [], 0), step, ops);
    forall row | row in Written([], ops, step.ids, step.at) ensures row.fact.value != Number(1) {
      var f :| f in Created(ops, step.ids) && Stamp(step.at)(f) == row;
      CreatedFrom(ops, step.ids, f);
    }
  }

  /** The revalidation, and what it observed. */
  lemma ThenValidated(types: Snapshot -> seq<string>, schemas: Schemas, store: Store, row: Row, snapshot: Snapshot)
      returns (step: Step, after: Store, input: Input)
    requires schemas == Schemas(types, Reading()) && DefinesOnce(schemas) && CONSUMER_TYPE in types(snapshot)
    requires Sane(store) && StartAtZero(store.rows) && store.clock == 0
    requires row in store.rows && row.entityType == Some(CONSUMER_TYPE)
    ensures Enabled(schemas, store, step) && after == Next(schemas, store, step) && step.Revalidate?
    ensures Sane(after) && StartAtZero(after.rows) && after.clock == 0
    ensures HeadsShow(Facts(after.rows), input) && input.ref == "" && input.snapshot == snapshot
    ensures input.observations == Observations(schemas, snapshot, store.rows) && input.observations != []
    ensures StatusOf(after, "", snapshot.id, 0) == Current
  {
    step := RevalidationIsPossible(schemas, store, "", snapshot, 0);
    after := Next(schemas, store, step);
    AllIsSeen(store.rows);
    input := RevalidatedShows(schemas, store, step);
    var o := CarrierIsObserved(schemas, snapshot, store.rows, row);
    WritingKeepsSane(schemas, store, step);
    RowsStartAtZero(schemas, store, step);
    RevalidationMakesCurrent(schemas, store, step, 0);
  }

  lemma ThenMoved(types: Snapshot -> seq<string>, schemas: Schemas, store: Store, input: Input, before: seq<Row>)
      returns (step: Step)
    requires schemas == Schemas(types, Reading()) && DefinesOnce(schemas) && CONSUMER_TYPE in types(input.snapshot)
    requires Sane(store) && StartAtZero(store.rows) && store.clock == 0 && MayAdvance(Facts(store.rows), CONSUMER, 1)
    requires HeadsShow(Facts(store.rows), input) && !HasMoved(before)
    requires input.observations == Observations(schemas, input.snapshot, before) && input.observations != []
    requires StatusOf(store, input.ref, input.snapshot.id, 0) == Current
    ensures Enabled(schemas, store, step)
    ensures IsMisled(schemas, Next(schemas, store, step), input.ref, input.snapshot.id)
  {
    AllIsSeen(store.rows);
    step := AdvanceIsPossible(schemas, store, CONSUMER, 1, 0);
    var after := Next(schemas, store, step);
    AdvanceKeepsSane(schemas, store, step);
    AdvanceStartsAtZero(schemas, store, step);
    AllIsSeen(after.rows);
    SameOwnFacts(store.rows, after.rows);
    OwnDecidesHeads(Facts(store.rows), Facts(after.rows), input);
    AdvancesKeepStatus(schemas, store, step, input.ref, input.snapshot.id, 0);
    var row := PositionIsWritten(schemas, store, step);
    MovingIsNoticed(types, input.snapshot, before, after.rows, row);
    ChangedIsMisled(schemas, after, input, before);
  }

  lemma ValidatedMayMove(schemas: Schemas, store: Store, step: Step, after: Store)
    requires DefinesOnce(schemas) && Sane(store) && step.Revalidate? && Enabled(schemas, store, step)
    requires after == Next(schemas, store, step)
    requires IsLoaded(Facts(store.rows), CONSUMER) && PositionIn(Facts(store.rows), CONSUMER) == 0
    ensures MayAdvance(Facts(after.rows), CONSUMER, 1)
  {
    RevalidationKeepsConsumers(schemas, store, step, CONSUMER);
    SameRowsSameCheckpoint(store.rows, after.rows, CONSUMER);
    MayMoveOn(Facts(store.rows), Facts(after.rows), CONSUMER, 1);
  }

  /** A consumer's checkpoint is made, validated, and moved: the status is current, and shows no instant. */
  lemma MovedConsumerMisleads(types: Snapshot -> seq<string>, schemas: Schemas, snapshot: Snapshot)
      returns (first: Step, made: Store, second: Step, validated: Store, third: Step)
    requires schemas == Schemas(types, Reading()) && DefinesOnce(schemas) && CONSUMER_TYPE in types(snapshot)
    ensures Enabled(schemas, Store([], [], 0), first) && made == Next(schemas, Store([], [], 0), first)
    ensures Enabled(schemas, made, second) && validated == Next(schemas, made, second)
    ensures Enabled(schemas, validated, third)
    ensures IsMisled(schemas, Next(schemas, validated, third), "", snapshot.id)
  {
    var row, input;
    first, made, row := FirstMove(schemas);
    second, validated, input := ThenValidated(types, schemas, made, row, snapshot);
    ValidatedMayMove(schemas, made, second, validated);
    third := ThenMoved(types, schemas, validated, input, made.rows);
  }
}
