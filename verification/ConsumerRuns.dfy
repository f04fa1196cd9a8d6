/**
 * Consumers' checkpoints over every run: nothing but the consumer's own
 * movements touches one, and no movement takes it back.
 */
module ConsumerRuns {
  import opened Wrappers
  import opened Seqs
  import opened ConsumerCheckpoint
  import opened EntityValidation
  import opened EntityValidationProofs
  import opened EntityValidationRuns
  import opened EntityValidationHealth
  import opened EntityValidationStore
  import opened EntityValidationMachine

  // ---- The rows of one entity ---------------------------------------------------

  function OfEntity(e: Entity): Row -> bool {
    (row: Row) => row.fact.entity == e
  }

  function RowsAt(e: Entity, a: Attribute): Row -> bool {
    (row: Row) => row.fact.entity == e && row.fact.attribute == a
  }

  lemma RowsOfEntity(rows: seq<Row>, e: Entity, a: Attribute)
    ensures Rows(Facts(rows), e, a) == Facts(Filter(RowsAt(e, a), Filter(OfEntity(e), rows)))
  {
    FilterFacts(RowsAt(e, a), At(e, a), rows);
    FilterTwice(OfEntity(e), RowsAt(e, a), RowsAt(e, a), rows);
  }

  lemma KnownHasRows(rows: seq<Row>, e: Entity)
    ensures Known(Facts(rows), e) <==> Filter(OfEntity(e), rows) != []
  {
    if Known(Facts(rows), e) {
      var i :| 0 <= i < |rows| && Facts(rows)[i].entity == e;
      assert rows[i] in Filter(OfEntity(e), rows);
    }
    if Filter(OfEntity(e), rows) != [] {
      var row := Filter(OfEntity(e), rows)[0];
      assert row in Filter(OfEntity(e), rows);
      var i :| 0 <= i < |rows| && rows[i] == row;
      assert Facts(rows)[i] in Facts(rows);
    }
  }

  /** What is read of a consumer is decided by the rows of its checkpoint. */
  lemma SameRowsSameCheckpoint(rows: seq<Row>, after: seq<Row>, consumer: string)
    requires Filter(OfEntity(ConsumerEntity(consumer)), after) == Filter(OfEntity(ConsumerEntity(consumer)), rows)
    ensures SameCheckpoint(Facts(rows), Facts(after), consumer)
  {
    var e := ConsumerEntity(consumer);
    KnownHasRows(rows, e);
    KnownHasRows(after, e);
    RowsOfEntity(rows, e, NAME_OF);
    RowsOfEntity(after, e, NAME_OF);
    RowsOfEntity(rows, e, POSITION_OF);
    RowsOfEntity(after, e, POSITION_OF);
  }

  ghost predicate SameCheckpoint(a: seq<Fact>, b: seq<Fact>, consumer: string) {
    var e := ConsumerEntity(consumer);
    && (Known(a, e) <==> Known(b, e))
    && Rows(a, e, NAME_OF) == Rows(b, e, NAME_OF) && Rows(a, e, POSITION_OF) == Rows(b, e, POSITION_OF)
  }

  // ---- Steps that leave a checkpoint alone --------------------------------------

  lemma ForeignKeepsRows(rows: seq<Row>, after: seq<Row>, more: seq<Row>, e: Entity)
    requires Foreign(after) == Foreign(rows) + more && !IsValidatorEntity(e)
    requires forall row :: row in more ==> row.fact.entity != e
    ensures Filter(OfEntity(e), after) == Filter(OfEntity(e), rows)
  {
    FilterTwice(IsForeign(), OfEntity(e), OfEntity(e), rows);
    FilterTwice(IsForeign(), OfEntity(e), OfEntity(e), after);
    FilterConcat(OfEntity(e), Foreign(rows), more);
    FilterNone(OfEntity(e), more);
  }

  lemma JournalIsNoConsumers(rows: seq<Row>, ids: seq<string>, journal: seq<Row>, position: nat, at: int,
                             consumer: string)
    requires Journals(rows, ids, journal, position, at)
    ensures forall row :: row in journal ==> row.fact.entity != ConsumerEntity(consumer)
  {
  }

  lemma JournalKeepsConsumers(rows: seq<Row>, after: seq<Row>, ids: seq<string>, journal: seq<Row>, position: nat,
                              at: int,
                              consumer: string)
    requires Foreign(after) == Foreign(rows) + journal && Journals(rows, ids, journal, position, at)
    ensures Filter(OfEntity(ConsumerEntity(consumer)), after) == Filter(OfEntity(ConsumerEntity(consumer)), rows)
  {
    JournalIsNoConsumers(rows, ids, journal, position, at, consumer);
    ForeignKeepsRows(rows, after, journal, ConsumerEntity(consumer));
  }

  lemma CommitKeepsConsumers(schemas: Schemas, store: Store, step: Step, input: Input, plan: seq<Op>, consumer: string)
    requires step.Revalidate? && Enabled(schemas, store, step) && Spares(plan, store.rows) && |plan| == |step.ids|
    requires plan == Plan(Facts(store.rows), input) == PlanOf(schemas, store, step.ref, step.snapshot, step.now)
    ensures Filter(OfEntity(ConsumerEntity(consumer)), Next(schemas, store, step).rows)
      == Filter(OfEntity(ConsumerEntity(consumer)), store.rows)
  {
    ForeignRowsAfter(schemas, store, step, input, plan);
    if plan != [] {
      JournalKeepsConsumers(store.rows, Next(schemas, store, step).rows, step.ids, step.journal, step.position, step.at,
                            consumer);
    }
  }

  /** A revalidation leaves every consumer's rows where they were. */
  lemma RevalidationKeepsConsumers(schemas: Schemas, store: Store, step: Step, consumer: string)
    requires DefinesOnce(schemas) && Sane(store) && step.Revalidate? && Enabled(schemas, store, step)
    ensures Filter(OfEntity(ConsumerEntity(consumer)), Next(schemas, store, step).rows)
      == Filter(OfEntity(ConsumerEntity(consumer)), store.rows)
  {
    var input, plan := EnabledPlansSpare(schemas, store, step);
    CommitKeepsConsumers(schemas, store, step, input, plan, consumer);
  }

  lemma ChangeKeepsConsumers(schemas: Schemas, store: Store, step: Step, consumer: string)
    requires step.Change? && Enabled(schemas, store, step)
    ensures Filter(OfEntity(ConsumerEntity(consumer)), step.rows)
      == Filter(OfEntity(ConsumerEntity(consumer)), store.rows)
  {
    var mine := OfEntity(ConsumerEntity(consumer));
    FilterTwice(IsConsumers(), mine, mine, store.rows);
    FilterTwice(IsConsumers(), mine, mine, step.rows);
  }

  /** Only a consumer's own movements touch its checkpoint. */
  lemma OthersKeepConsumer(schemas: Schemas, store: Store, step: Step, consumer: string)
    requires DefinesOnce(schemas) && Sane(store) && Enabled(schemas, store, step)
    requires step.Advance? ==> step.consumer != consumer
    ensures Filter(OfEntity(ConsumerEntity(consumer)), Next(schemas, store, step).rows)
      == Filter(OfEntity(ConsumerEntity(consumer)), store.rows)
  {
    match step {
      case Change(_, _, _) => ChangeKeepsConsumers(schemas, store, step, consumer);
      case Advance(_, _, _, _, _) => AdvanceLeavesTheRest(schemas, store, step, OfEntity(ConsumerEntity(consumer)));
      case Revalidate(_, _, _, _, _, _, _) => RevalidationKeepsConsumers(schemas, store, step, consumer);
    }
  }

  // ---- And its own movements ------------------------------------------------------

  /** No read at or after the clock misses a row of the consumer's. */
  ghost predicate IsTimely(rows: seq<Row>, clock: int, consumer: string) {
    forall row :: row in rows && row.fact.entity == ConsumerEntity(consumer) ==>
      row.validFrom <= clock && row.validTo.None?
  }

  lemma TimelyIsSeen(rows: seq<Row>, clock: int, now: int, consumer: string)
    requires IsTimely(rows, clock, consumer) && clock <= now
    ensures SameCheckpoint(Facts(rows), Seen(rows, now), consumer)
  {
    var mine := OfEntity(ConsumerEntity(consumer));
    FilterTwice(ValidAt(now), mine, mine, rows);
    SameRowsSameCheckpoint(rows, Visible(rows, now), consumer);
  }

  /** There is no checkpoint yet, or it has the right shape. */
  predicate Stands(facts: seq<Fact>, consumer: string) {
    !Known(facts, ConsumerEntity(consumer)) || IsLoaded(facts, consumer)
  }

  /** The checkpoint stands in both, is not lost from one to the other, and does not go back. */
  ghost predicate IsForward(a: seq<Fact>, b: seq<Fact>, consumer: string) {
    && Stands(a, consumer) && Stands(b, consumer)
    && (Known(a, ConsumerEntity(consumer)) ==> Known(b, ConsumerEntity(consumer)))
    && PositionIn(a, consumer) <= PositionIn(b, consumer)
  }

  lemma SameIsForward(a: seq<Fact>, b: seq<Fact>, consumer: string)
    requires Stands(a, consumer) && SameCheckpoint(a, b, consumer)
    ensures IsForward(a, b, consumer)
  {
  }

  lemma SameAdvance(facts: seq<Fact>, seen: seq<Fact>, consumer: string, next: nat)
    requires SameCheckpoint(facts, seen, consumer)
    ensures MayAdvance(facts, consumer, next) <==> MayAdvance(seen, consumer, next)
    ensures AdvanceOps(facts, consumer, next) == AdvanceOps(seen, consumer, next)
  {
  }

  lemma MovingIsForward(facts: seq<Fact>, consumer: string, next: nat, ids: seq<string>, after: seq<Fact>)
    requires UniqueIds(facts) && Stands(facts, consumer) && MayAdvance(facts, consumer, next)
    requires Generated(facts, AdvanceOps(facts, consumer, next), ids)
    requires after == ApplyOps(facts, AdvanceOps(facts, consumer, next), ids)
    ensures IsForward(facts, after, consumer)
  {
    AdvanceMoves(facts, consumer, next, ids);
    AssertedHolds(facts, AdvanceOps(facts, consumer, next), ids,
                  AssertOp(ConsumerEntity(consumer), POSITION_OF, Number(next)));
  }

  lemma AdvanceIsForward(schemas: Schemas, store: Store, step: Step)
    requires UniqueIds(Facts(store.rows)) && step.Advance? && Enabled(schemas, store, step)
    requires IsTimely(store.rows, store.clock, step.consumer) && Stands(Facts(store.rows), step.consumer)
    ensures IsForward(Facts(store.rows), Facts(Next(schemas, store, step).rows), step.consumer)
  {
    var facts, ops := Facts(store.rows), AdvanceOps(Seen(store.rows, step.now), step.consumer, step.next);
    TimelyIsSeen(store.rows, store.clock, step.now, step.consumer);
    SameAdvance(facts, Seen(store.rows, step.now), step.consumer, step.next);
    WrittenFacts(store.rows, ops, step.ids, step.at);
    MovingIsForward(facts, step.consumer, step.next, step.ids, ApplyOps(facts, ops, step.ids));
  }

  // ---- Over every run --------------------------------------------------------------

  lemma SameRowsStayTimely(rows: seq<Row>, clock: int, after: seq<Row>, at: int, consumer: string)
    requires IsTimely(rows, clock, consumer) && clock <= at
    requires Filter(OfEntity(ConsumerEntity(consumer)), after) == Filter(OfEntity(ConsumerEntity(consumer)), rows)
    ensures IsTimely(after, at, consumer)
  {
    forall row | row in after && row.fact.entity == ConsumerEntity(consumer) ensures row in rows {
      assert row in Filter(OfEntity(ConsumerEntity(consumer)), after);
    }
  }

  lemma AdvanceStaysTimely(schemas: Schemas, store: Store, step: Step)
    requires step.Advance? && Enabled(schemas, store, step) && IsTimely(store.rows, store.clock, step.consumer)
    ensures IsTimely(Next(schemas, store, step).rows, step.at, step.consumer)
  {
    var seen := Seen(store.rows, step.now);
    AdvanceStamps(seen, step.consumer, step.next, AdvanceOps(seen, step.consumer, step.next), step.ids, step.at);
  }

  lemma StepIsForward(schemas: Schemas, store: Store, step: Step, consumer: string, next: Store)
    requires DefinesOnce(schemas) && Sane(store) && Enabled(schemas, store, step) && next == Next(schemas, store, step)
    requires IsTimely(store.rows, store.clock, consumer) && Stands(Facts(store.rows), consumer)
    ensures IsForward(Facts(store.rows), Facts(next.rows), consumer) && IsTimely(next.rows, next.clock, consumer)
  {
    if step.Advance? && step.consumer == consumer {
      AdvanceIsForward(schemas, store, step);
      AdvanceStaysTimely(schemas, store, step);
    } else {
      OthersKeepConsumer(schemas, store, step, consumer);
      SameRowsSameCheckpoint(store.rows, next.rows, consumer);
      SameIsForward(Facts(store.rows), Facts(next.rows), consumer);
      SameRowsStayTimely(store.rows, store.clock, next.rows, next.clock, consumer);
    }
  }

  /** Over every run a checkpoint keeps its shape, is never lost, and never moves back. */
  lemma {:induction false} RunsNeverRewind(schemas: Schemas, store: Store, steps: seq<Step>, consumer: string)
    requires DefinesOnce(schemas) && Sane(store) && Run(schemas, store, steps).Some?
    requires IsTimely(store.rows, store.clock, consumer) && Stands(Facts(store.rows), consumer)
    ensures IsForward(Facts(store.rows), Facts(Run(schemas, store, steps).value.rows), consumer)
    decreases |steps|
  {
    if steps != [] {
      var next := Next(schemas, store, steps[0]);
      StepIsForward(schemas, store, steps[0], consumer, next);
      NextIsSane(schemas, store, steps[0], next);
      RunsNeverRewind(schemas, next, steps[1..], consumer);
    }
  }

  lemma NextIsSane(schemas: Schemas, store: Store, step: Step, next: Store)
    requires DefinesOnce(schemas) && Sane(store) && Enabled(schemas, store, step) && next == Next(schemas, store, step)
    ensures Sane(next)
  {
    assert [step][1..] == [];
    RunsStaySane(schemas, store, [step]);
  }
}
