/**
 * Revalidating twice: what a revalidation writes is unobserved by later ones
 * unless a snapshot defines a reserved type, so a second one does nothing
 * exactly when it observes what the first did.
 */
module EntityValidationTwice {
  import opened Wrappers
  import opened Seqs
  import opened EntityValidation
  import opened ConsumerCheckpoint
  import opened EntityValidationProofs
  import opened EntityValidationRuns
  import opened EntityValidationHealth
  import opened EntityValidationStore
  import opened EntityValidationMachine

  predicate NoneReserved(types: seq<string>) {
    forall entityType :: entityType in types ==> !IsReserved(entityType)
  }

  predicate NoneWritten(types: seq<string>) {
    forall entityType :: entityType in types ==> !IsWrittenType(entityType)
  }

  // ---- What is judged ---------------------------------------------------------

  /** No row of an entity that carries a type is dropped; what is added carries none, of entities that carry none. */
  ghost predicate Inert(types: seq<string>, rows: seq<Row>, kept: Row -> bool, more: seq<Row>) {
    && (forall i :: 0 <= i < |rows| && HasTypeIn(rows, types, rows[i].fact.entity) ==> kept(rows[i]))
    && (forall row :: row in more ==> !Carries(row, types) && !HasTypeIn(rows, types, row.fact.entity))
  }

  lemma VisibleTypes(types: seq<string>, rows: seq<Row>, t: int, e: Entity)
    requires HasTypeIn(Visible(rows, t), types, e)
    ensures HasTypeIn(rows, types, e)
  {
    var row :| row in Visible(rows, t) && row.fact.entity == e && Carries(row, types);
    assert row in rows;
  }

  lemma SameCarriers(types: seq<string>, rows: seq<Row>, kept: Row -> bool, more: seq<Row>, t: int, e: Entity)
    requires Inert(types, rows, kept, more)
    ensures HasTypeIn(Visible(Filter(kept, rows) + more, t), types, e) <==> HasTypeIn(Visible(rows, t), types, e)
  {
    var after := Filter(kept, rows) + more;
    if HasTypeIn(Visible(rows, t), types, e) {
      var row :| row in Visible(rows, t) && row.fact.entity == e && Carries(row, types);
      assert HasTypeIn(rows, types, e);
      var i :| 0 <= i < |rows| && rows[i] == row;
      assert row in Visible(after, t);
    }
    if HasTypeIn(Visible(after, t), types, e) {
      var row :| row in Visible(after, t) && row.fact.entity == e && Carries(row, types);
      assert row !in more;
      assert row in Visible(rows, t);
    }
  }

  function JudgedAt(types: seq<string>, visible: seq<Row>, t: int): Row -> bool {
    (row: Row) => ValidAt(t)(row) && HasTypeIn(visible, types, row.fact.entity)
  }

  lemma JudgedIsFiltered(types: seq<string>, visible: seq<Row>, rows: seq<Row>, t: int)
    requires forall row :: row in rows ==>
      (HasTypeIn(Visible(rows, t), types, row.fact.entity) <==> HasTypeIn(visible, types, row.fact.entity))
    ensures Judged(types, Visible(rows, t)) == Filter(JudgedAt(types, visible, t), rows)
  {
    FilterPointwise(IsJudged(types, Visible(rows, t)), IsJudged(types, visible), Visible(rows, t));
    FilterTwice(ValidAt(t), IsJudged(types, visible), JudgedAt(types, visible, t), rows);
  }

  lemma JudgedRowsAreKept(types: seq<string>, rows: seq<Row>, kept: Row -> bool, more: seq<Row>, t: int, row: Row)
    requires Inert(types, rows, kept, more) && row in rows && JudgedAt(types, Visible(rows, t), t)(row)
    ensures kept(row)
  {
    VisibleTypes(types, rows, t, row.fact.entity);
    var i :| 0 <= i < |rows| && rows[i] == row;
  }

  lemma AddedAreNotJudged(types: seq<string>, rows: seq<Row>, kept: Row -> bool, more: seq<Row>, t: int, row: Row)
    requires Inert(types, rows, kept, more) && row in more
    ensures !HasTypeIn(Visible(rows, t), types, row.fact.entity)
  {
    if HasTypeIn(Visible(rows, t), types, row.fact.entity) {
      VisibleTypes(types, rows, t, row.fact.entity);
    }
  }

  /** Dropping and adding inert rows leaves what is judged, at every instant. */
  lemma JudgedStays(types: seq<string>, rows: seq<Row>, kept: Row -> bool, more: seq<Row>, t: int)
    requires Inert(types, rows, kept, more)
    ensures Judged(types, Visible(Filter(kept, rows) + more, t)) == Judged(types, Visible(rows, t))
  {
    var left, judged := Filter(kept, rows), JudgedAt(types, Visible(rows, t), t);
    forall row | row in left + more
      ensures HasTypeIn(Visible(left + more, t), types, row.fact.entity)
        <==> HasTypeIn(Visible(rows, t), types, row.fact.entity)
    {
      SameCarriers(types, rows, kept, more, t, row.fact.entity);
    }
    JudgedIsFiltered(types, Visible(rows, t), left + more, t);
    JudgedIsFiltered(types, Visible(rows, t), rows, t);
    FilterConcat(judged, left, more);
    forall row | row in rows && judged(row) ensures kept(row) {
      JudgedRowsAreKept(types, rows, kept, more, t, row);
    }
    FilterTwice(kept, judged, judged, rows);
    forall row | row in more ensures !judged(row) {
      AddedAreNotJudged(types, rows, kept, more, t, row);
    }
    FilterNone(judged, more);
  }

  // ---- What a revalidation writes is not observed ---------------------------

  /** Rows of reserved types, of the projector's entities or of ones not in the store. */
  ghost predicate Apart(rows: seq<Row>, more: seq<Row>) {
    forall row :: row in more ==>
      && row.entityType.Some? && IsReserved(row.entityType.value)
      && (IsValidatorEntity(row.fact.entity) || forall other :: other in rows ==> other.fact.entity != row.fact.entity)
  }

  lemma CarriersAreForeign(types: seq<string>, rows: seq<Row>, clock: int, e: Entity)
    requires NoneReserved(types) && Seasoned(rows, clock) && HasTypeIn(rows, types, e)
    ensures !IsValidatorEntity(e)
  {
    var row :| row in rows && row.fact.entity == e && Carries(row, types);
  }

  lemma ApartIsInert(types: seq<string>, rows: seq<Row>, clock: int, plan: seq<Op>, more: seq<Row>)
    requires NoneReserved(types) && Seasoned(rows, clock) && Spares(plan, rows) && Apart(rows, more)
    ensures Inert(types, rows, KeptRow(plan), more)
  {
    forall i | 0 <= i < |rows| && HasTypeIn(rows, types, rows[i].fact.entity) ensures KeptRow(plan)(rows[i]) {
      CarriersAreForeign(types, rows, clock, rows[i].fact.entity);
    }
    forall row | row in more ensures !HasTypeIn(rows, types, row.fact.entity) {
      if HasTypeIn(rows, types, row.fact.entity) {
        CarriersAreForeign(types, rows, clock, row.fact.entity);
      }
    }
  }

  lemma ApartConcat(rows: seq<Row>, a: seq<Row>, b: seq<Row>)
    requires Apart(rows, a) && Apart(rows, b)
    ensures Apart(rows, a + b)
  {
  }

  lemma StampedIsApart(rows: seq<Row>, facts: seq<Fact>, input: Input, ids: seq<string>, at: int)
    requires |ids| == |Plan(facts, input)|
    ensures Apart(rows, Map(Stamp(at), Created(Plan(facts, input), ids)))
  {
    StampedAreSeasoned(facts, input, ids, at);
    OwnTypesAreApart(rows, Map(Stamp(at), Created(Plan(facts, input), ids)));
  }

  lemma OwnTypesAreApart(rows: seq<Row>, more: seq<Row>)
    requires forall row :: row in more ==>
      IsValidatorEntity(row.fact.entity) && row.entityType == Some(TypeOf(row.fact.entity))
    ensures Apart(rows, more)
  {
  }

  lemma JournalIsApart(rows: seq<Row>, ids: seq<string>, journal: seq<Row>, position: nat, at: int)
    requires Journals(rows, ids, journal, position, at)
    ensures Apart(rows, journal)
  {
  }

  lemma Regroup(a: seq<Row>, b: seq<Row>, c: seq<Row>)
    ensures a + b + c == a + (b + c)
  {
  }

  lemma WrittenIsUnobserved(types: seq<string>, rows: seq<Row>, clock: int, plan: seq<Op>, ids: seq<string>, at: int,
                            journal: seq<Row>, t: int)
    requires NoneReserved(types) && Seasoned(rows, clock) && Spares(plan, rows) && |ids| == |plan|
    requires Apart(rows, Map(Stamp(at), Created(plan, ids))) && Apart(rows, journal)
    ensures Judged(types, Visible(Written(rows, plan, ids, at) + journal, t)) == Judged(types, Visible(rows, t))
  {
    var stamped := Map(Stamp(at), Created(plan, ids));
    ApartConcat(rows, stamped, journal);
    ApartIsInert(types, rows, clock, plan, stamped + journal);
    JudgedStays(types, rows, KeptRow(plan), stamped + journal, t);
    Regroup(Filter(KeptRow(plan), rows), stamped, journal);
  }

  lemma CommitIsUnobserved(types: seq<string>, rows: seq<Row>, clock: int, facts: seq<Fact>, input: Input,
                           plan: seq<Op>,
                           ids: seq<string>, journal: seq<Row>, position: nat, at: int, t: int)
    requires NoneReserved(types) && Seasoned(rows, clock) && Spares(plan, rows) && plan == Plan(facts, input)
    requires |ids| == |plan| && Journals(rows, ids, journal, position, at)
    ensures Judged(types, Visible(Written(rows, plan, ids, at) + journal, t)) == Judged(types, Visible(rows, t))
  {
    StampedIsApart(rows, facts, input, ids, at);
    JournalIsApart(rows, ids, journal, position, at);
    WrittenIsUnobserved(types, rows, clock, plan, ids, at, journal, t);
  }

  lemma EnabledIsUnobserved(schemas: Schemas, store: Store, step: Step, types: seq<string>, t: int, input: Input,
                            plan: seq<Op>)
    requires step.Revalidate? && Enabled(schemas, store, step) && NoneReserved(types)
    requires Seasoned(store.rows, store.clock)
    requires Spares(plan, store.rows) && |plan| == |step.ids|
    requires plan == Plan(Facts(store.rows), input) == PlanOf(schemas, store, step.ref, step.snapshot, step.now)
    ensures Judged(types, Visible(Next(schemas, store, step).rows, t)) == Judged(types, Visible(store.rows, t))
  {
    if plan != [] {
      CommitIsUnobserved(types, store.rows, store.clock, Facts(store.rows), input, plan, step.ids, step.journal,
                         step.position, step.at, t);
    }
  }

  /** A revalidation changes nothing that a snapshot without reserved types observes, at any instant. */
  lemma RevalidationIsUnobserved(schemas: Schemas, store: Store, step: Step, snapshot: Snapshot, t: int)
    requires DefinesOnce(schemas) && Sane(store) && step.Revalidate? && Enabled(schemas, store, step)
    requires NoneReserved(schemas.types(snapshot))
    ensures Observations(schemas, snapshot, Visible(Next(schemas, store, step).rows, t))
      == Observations(schemas, snapshot, Visible(store.rows, t))
  {
    var input, plan := EnabledPlansSpare(schemas, store, step);
    EnabledIsUnobserved(schemas, store, step, schemas.types(snapshot), t, input, plan);
  }

  // ---- Nor is what a consumer writes ----------------------------------------

  lemma ConsumersCarryNothing(types: seq<string>, rows: seq<Row>, e: Entity)
    requires CONSUMER_TYPE !in types && Classed(rows) && e.ConsumerEntity?
    ensures !HasTypeIn(rows, types, e)
  {
  }

  lemma ConsumersAreInert(types: seq<string>, rows: seq<Row>, ops: seq<Op>, more: seq<Row>)
    requires CONSUMER_TYPE !in types && Classed(rows) && SparesAll(ops, IsNoConsumers(), rows)
    requires forall row :: row in more ==> row.fact.entity.ConsumerEntity? && row.entityType == Some(CONSUMER_TYPE)
    ensures Inert(types, rows, KeptRow(ops), more)
  {
    forall i | 0 <= i < |rows| && HasTypeIn(rows, types, rows[i].fact.entity) ensures KeptRow(ops)(rows[i]) {
      if rows[i].fact.entity.ConsumerEntity? {
        ConsumersCarryNothing(types, rows, rows[i].fact.entity);
      }
      assert IsNoConsumers()(rows[i]);
    }
    forall row | row in more ensures !HasTypeIn(rows, types, row.fact.entity) {
      ConsumersCarryNothing(types, rows, row.fact.entity);
    }
  }

  function IsNoConsumers(): Row -> bool {
    (row: Row) => !row.fact.entity.ConsumerEntity?
  }

  lemma AdvanceIsInert(schemas: Schemas, store: Store, step: Step, types: seq<string>) returns (ops: seq<Op>,
                       more: seq<Row>)
    requires UniqueIds(Facts(store.rows)) && Classed(store.rows) && step.Advance? && Enabled(schemas, store, step)
    requires CONSUMER_TYPE !in types
    ensures Inert(types, store.rows, KeptRow(ops), more)
    ensures Next(schemas, store, step).rows == Filter(KeptRow(ops), store.rows) + more
  {
    var seen := Seen(store.rows, step.now);
    ops := AdvanceOps(seen, step.consumer, step.next);
    more := Map(Stamp(step.at), Created(ops, step.ids));
    AdvanceSpares(store.rows, step.now, step.consumer, step.next, IsNoConsumers());
    AdvanceStamps(seen, step.consumer, step.next, ops, step.ids, step.at);
    ConsumersAreInert(types, store.rows, ops, more);
  }

  /** A consumer's movement changes nothing that a snapshot without its type observes, at any instant. */
  lemma AdvanceIsUnobserved(schemas: Schemas, store: Store, step: Step, snapshot: Snapshot, t: int)
    requires UniqueIds(Facts(store.rows)) && Classed(store.rows) && step.Advance? && Enabled(schemas, store, step)
    requires CONSUMER_TYPE !in schemas.types(snapshot)
    ensures Observations(schemas, snapshot, Visible(Next(schemas, store, step).rows, t))
      == Observations(schemas, snapshot, Visible(store.rows, t))
  {
    var ops, more := AdvanceIsInert(schemas, store, step, schemas.types(snapshot));
    JudgedStays(schemas.types(snapshot), store.rows, KeptRow(ops), more, t);
  }

  // ---- The second time ------------------------------------------------------

  lemma SourcePositionStays(schemas: Schemas, store: Store, step: Step)
    requires step.Revalidate? && Enabled(schemas, store, step)
    ensures LastSource(Next(schemas, store, step).journal) == LastSource(store.journal)
  {
    ValidatorWritesAreNotSource(store.journal, step.position);
  }

  lemma CommittedFacts(rows: seq<Row>, plan: seq<Op>, ids: seq<string>, journal: seq<Row>, position: nat, at: int)
    requires Generated(Facts(rows), plan, ids) && Journals(rows, ids, journal, position, at)
    ensures OwnFacts(Facts(Written(rows, plan, ids, at) + journal)) == OwnFacts(ApplyOps(Facts(rows), plan, ids))
  {
    WrittenFacts(rows, plan, ids, at);
    ForeignRowsDoNotCount(Written(rows, plan, ids, at), journal);
  }

  lemma NothingApplied(facts: seq<Fact>, ids: seq<string>)
    requires |ids| == 0
    ensures ApplyOps(facts, [], ids) == facts
  {
  }

  /** The projector's own facts after a step are those of its plan, committed on all the facts. */
  lemma OwnFactsAfter(schemas: Schemas, store: Store, step: Step) returns (input: Input)
    requires DefinesOnce(schemas) && Sane(store) && step.Revalidate? && Enabled(schemas, store, step)
    ensures input == InputOf(schemas, store, step.ref, step.snapshot, step.now) && DistinctSubjects(input.observations)
    ensures Generated(Facts(store.rows), Plan(Facts(store.rows), input), step.ids)
    ensures OwnFacts(Facts(Next(schemas, store, step).rows))
      == OwnFacts(ApplyOps(Facts(store.rows), Plan(Facts(store.rows), input), step.ids))
  {
    var plan;
    input, plan := Committing(schemas, store, step);
    if plan == [] {
      NothingApplied(Facts(store.rows), step.ids);
    } else {
      CommittedFacts(store.rows, plan, step.ids, step.journal, step.position, step.at);
    }
  }

  lemma NextSeasoned(schemas: Schemas, store: Store, step: Step)
    requires DefinesOnce(schemas) && Sane(store) && step.Revalidate? && Enabled(schemas, store, step)
    ensures Seasoned(Next(schemas, store, step).rows, step.at)
  {
    WritingKeepsSane(schemas, store, step);
  }

  /** A later revalidation of the same ref does nothing exactly when its input is the earlier one's. */
  lemma LaterPlanIsEmptyIff(schemas: Schemas, store: Store, step: Step, snapshot: Snapshot, later: int)
    requires DefinesOnce(schemas) && Sane(store) && step.Revalidate? && Enabled(schemas, store, step)
    requires later >= step.at
    ensures var first := InputOf(schemas, store, step.ref, step.snapshot, step.now);
      PlanOf(schemas, Next(schemas, store, step), step.ref, snapshot, later) == []
      <==> InputOf(schemas, Next(schemas, store, step), step.ref, snapshot, later) == first
  {
    var after := Next(schemas, store, step);
    var input := OwnFactsAfter(schemas, store, step);
    NextSeasoned(schemas, store, step);
    SecondPlan(Facts(store.rows), input, step.ids, after.rows, step.at, later,
               InputOf(schemas, after, step.ref, snapshot, later));
  }

  lemma SecondPlan(facts: seq<Fact>, input: Input, ids: seq<string>, rows: seq<Row>, clock: int, later: int,
                   second: Input)
    requires Healthy(facts) && DistinctSubjects(input.observations) && Generated(facts, Plan(facts, input), ids)
    requires OwnFacts(Facts(rows)) == OwnFacts(ApplyOps(facts, Plan(facts, input), ids))
    requires Seasoned(rows, clock) && clock <= later && second.ref == input.ref
    ensures Plan(Seen(rows, later), second) == [] <==> second == input
  {
    OwnRowsAreSeen(rows, clock, later);
    OwnFactsDecidePlans(Seen(rows, later), ApplyOps(facts, Plan(facts, input), ids), second);
    SecondRevalidationEmitsNothingIff(facts, input, ids, second);
  }

  /**
   * With no reserved type defined and no source transaction in between, a
   * second revalidation of a snapshot does nothing at all exactly when the
   * source, as it was before the first, shows the same at both instants.
   */
  lemma RevalidatingTwiceIsOnceIff(schemas: Schemas, store: Store, step: Step, later: int)
    requires DefinesOnce(schemas) && Sane(store) && step.Revalidate? && Enabled(schemas, store, step)
    requires later >= step.at
    requires NoneReserved(schemas.types(step.snapshot))
    ensures var first := Observations(schemas, step.snapshot, Visible(store.rows, step.now));
      PlanOf(schemas, Next(schemas, store, step), step.ref, step.snapshot, later) == []
      <==> Observations(schemas, step.snapshot, Visible(store.rows, later)) == first
  {
    LaterPlanIsEmptyIff(schemas, store, step, step.snapshot, later);
    RevalidationIsUnobserved(schemas, store, step, step.snapshot, later);
    SourcePositionStays(schemas, store, step);
  }
}
