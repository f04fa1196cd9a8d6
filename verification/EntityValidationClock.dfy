/**
 * What clock readings have to do with it: facts that start or end to be valid
 * between two revalidations, and a reading earlier than the last commit.
 */
module EntityValidationClock {
  import opened Wrappers
  import opened Seqs
  import opened EntityValidation
  import opened EntityValidationProofs
  import opened EntityValidationRuns
  import opened EntityValidationHealth
  import opened EntityValidationStore
  import opened EntityValidationRaces
  import opened EntityValidationMachine
  import opened EntityValidationProgress
  import opened EntityValidationTwice
  import opened EntityValidationReserved

  // ---- Between two revalidations --------------------------------------------

  /** When no source fact starts or ends to be valid in between, a second revalidation does nothing. */
  lemma RevalidatingTwiceIsOnce(schemas: Schemas, store: Store, step: Step, later: int)
    requires DefinesOnce(schemas) && Sane(store) && step.Revalidate? && Enabled(schemas, store, step)
    requires later >= step.at
    requires NoneReserved(schemas.types(step.snapshot))
    requires forall row :: row in Foreign(store.rows) ==> ValidAt(step.now)(row) == ValidAt(later)(row)
    ensures PlanOf(schemas, Next(schemas, store, step), step.ref, step.snapshot, later) == []
  {
    SeenAlike(store.rows, store.clock, step.now, later);
    RevalidatingTwiceIsOnceIff(schemas, store, step, later);
  }

  lemma SeenAlike(rows: seq<Row>, clock: int, now: int, later: int)
    requires Seasoned(rows, clock) && clock <= now && clock <= later
    requires forall row :: row in Foreign(rows) ==> ValidAt(now)(row) == ValidAt(later)(row)
    ensures Visible(rows, now) == Visible(rows, later)
  {
    forall row | row in rows ensures ValidAt(now)(row) == ValidAt(later)(row) {
      if !IsValidatorEntity(row.fact.entity) {
        assert row in Foreign(rows);
      }
    }
    FilterPointwise(ValidAt(now), ValidAt(later), rows);
  }

  const SOMEONE := SourceEntity("p")

  /** One fact of a person, valid from zero. */
  function Someone(validTo: Option<int>): Store {
    Store([Row(Fact("f", SOMEONE, SourceOf(":name"), Text("n")), Some("Person"), 0, validTo)], [], 0)
  }

  function People(): Schemas {
    Defining(["Person"], Complain())
  }

  lemma PeopleAreDefinedOnce()
    ensures DefinesOnce(People()) && NoneReserved(People().types(NOTHING))
  {
    assert |"Person"| == 6 && |RESULT_TYPE| == 25 && |VIOLATION_TYPE| == 28 && |HEAD_TYPE| == 23;
    assert |RUN_TYPE| == 22 && |CHECKPOINT_TYPE| == 29 && |TRANSACTION_TYPE| == 12;
  }

  lemma SomeoneIsSane(validTo: Option<int>)
    ensures Sane(Someone(validTo))
  {
    OneFactIsHealthy(Someone(validTo).rows[0].fact);
    assert Facts(Someone(validTo).rows) == [Someone(validTo).rows[0].fact];
  }

  lemma SomeoneIsObserved(validTo: Option<int>, now: int) returns (o: Observation)
    requires ValidAt(now)(Someone(validTo).rows[0])
    ensures o in Observations(People(), NOTHING, Visible(Someone(validTo).rows, now))
    ensures o.entityType == "Person" && o.subject == SOMEONE
  {
    var row := Someone(validTo).rows[0];
    assert row in Visible(Someone(validTo).rows, now);
    o := CarrierIsObserved(People(), NOTHING, Visible(Someone(validTo).rows, now), row);
  }

  lemma NobodyIsObserved()
    ensures Observations(People(), NOTHING, []) == []
  {
    if Observations(People(), NOTHING, []) != [] {
      var row := ObservedIsCarrier(People(), NOTHING, [], Observations(People(), NOTHING, [])[0]);
    }
  }

  /** A fact valid until 100, revalidated at 50: from 100 on, and not before, there is something to do again. */
  lemma ExpiryIsNoticed(later: int) returns (step: Step)
    requires later >= 50
    ensures Sane(Someone(Some(100))) && step.Revalidate? && step.now == step.at == 50
    ensures Enabled(People(), Someone(Some(100)), step)
    ensures PlanOf(People(), Next(People(), Someone(Some(100)), step), step.ref, step.snapshot, later) != []
      <==> later >= 100
  {
    var store := Someone(Some(100));
    SomeoneIsSane(Some(100));
    PeopleAreDefinedOnce();
    step := RevalidationIsPossible(People(), store, "", NOTHING, 50);
    RevalidatingTwiceIsOnceIff(People(), store, step, later);
    var o := SomeoneIsObserved(Some(100), 50);
    NobodyIsObserved();
    if later >= 100 {
      assert Visible(store.rows, later) == [];
    } else {
      assert Visible(store.rows, later) == store.rows == Visible(store.rows, 50);
    }
  }

  // ---- A reading earlier than the last commit -------------------------------

  lemma PartsShareIds(seen: seq<Fact>, facts: seq<Fact>)
    requires UniqueIds(facts) && forall f :: f in seen ==> f in facts
    ensures SameIds(seen, facts)
  {
    forall f, g | f in seen && g in facts && f.id == g.id ensures f == g {
      var i :| 0 <= i < |facts| && facts[i] == f;
      var j :| 0 <= j < |facts| && facts[j] == g;
    }
  }

  lemma PartsAreLive(seen: seq<Fact>, facts: seq<Fact>, input: Input)
    requires forall f :: f in seen ==> f in facts
    ensures PreconditionsHold(facts, Plan(seen, input))
  {
    forall id | RetractOp(id) in Plan(seen, input) ensures Live(facts, id) {
      var f := RetractedFactsWereSeen(seen, input, id);
    }
  }

  /**
   * Whatever the clock reads, a revalidation leaves an observed head at most one
   * result exactly when it sees one, with the head's ref, or there is none.
   */
  lemma AnyReadingKeepsOneIff(schemas: Schemas, store: Store, ref: string, snapshot: Snapshot, now: int,
                              ids: seq<string>, i: nat)
    requires DefinesOnce(schemas) && Sane(store) && i < |InputOf(schemas, store, ref, snapshot, now).observations|
    requires Generated(Facts(store.rows), PlanOf(schemas, store, ref, snapshot, now), ids)
    ensures var input := InputOf(schemas, store, ref, snapshot, now);
      var head := HeadOf(input, input.observations[i]);
      |Values(ApplyOps(Facts(store.rows), PlanOf(schemas, store, ref, snapshot, now), ids), head, ResultOf)| <= 1
      <==> Targets(Seen(store.rows, now), ref, head) != [] || Rows(Facts(store.rows), head, ResultOf) == []
  {
    var seen, facts, input := Seen(store.rows, now), Facts(store.rows), InputOf(schemas, store, ref, snapshot, now);
    SubjectsAreObservedOnce(schemas, snapshot, Visible(store.rows, now));
    SeenAreFacts(store.rows, now);
    PartsShareIds(seen, facts);
    PartsAreLive(seen, facts, input);
    StalePlanKeepsOneIff(seen, facts, input, i, ids);
  }

  lemma NothingOwnIsSeen(rows: seq<Row>, now: int, head: Entity, a: Attribute)
    requires head.HeadEntity? && forall row :: row in rows && IsValidatorEntity(row.fact.entity) ==> now < row.validFrom
    ensures Rows(Seen(rows, now), head, a) == []
  {
    forall f | f in Seen(rows, now) ensures f.entity != head {
      var visible := Visible(rows, now);
      var i :| 0 <= i < |visible| && Facts(visible)[i] == f;
      assert visible[i] in rows && ValidAt(now)(visible[i]);
    }
    FilterNone(At(head, a), Seen(rows, now));
  }

  lemma WrittenRowsStartAtTheCommit(rows: seq<Row>, facts: seq<Fact>, input: Input, plan: seq<Op>, ids: seq<string>,
                                    journal: seq<Row>, position: nat, at: int)
    requires plan == Plan(facts, input) && |ids| == |plan| && Journals(rows, ids, journal, position, at)
    requires forall row :: row in rows ==> !IsValidatorEntity(row.fact.entity)
    ensures forall row :: row in Written(rows, plan, ids, at) + journal && IsValidatorEntity(row.fact.entity) ==>
      row.validFrom == at
  {
    StampedAreSeasoned(facts, input, ids, at);
  }

  lemma FirstRowsStartAtTheCommit(schemas: Schemas, store: Store, step: Step)
    requires DefinesOnce(schemas) && Seasoned(store.rows, store.clock) && step.Revalidate?
    requires Enabled(schemas, store, step)
    requires forall row :: row in store.rows ==> !IsValidatorEntity(row.fact.entity)
    ensures forall row :: row in Next(schemas, store, step).rows && IsValidatorEntity(row.fact.entity) ==>
      row.validFrom == step.at
  {
    var input, plan := Committing(schemas, store, step);
    if plan != [] {
      WrittenRowsStartAtTheCommit(store.rows, Facts(store.rows), input, plan, step.ids, step.journal, step.position,
                                  step.at);
    }
  }

  lemma HeadHasOne(schemas: Schemas, store: Store, step: Step, o: Observation)
    requires DefinesOnce(schemas) && Sane(store) && step.Revalidate? && Enabled(schemas, store, step)
    requires o in InputOf(schemas, store, step.ref, step.snapshot, step.now).observations
    ensures Rows(Facts(Next(schemas, store, step).rows), HeadEntity(step.ref, o.entityType, o.subject), ResultOf) != []
  {
    var input := OwnFactsAfter(schemas, store, step);
    var i :| 0 <= i < |input.observations| && input.observations[i] == o;
    var applied := ApplyOps(Facts(store.rows), Plan(Facts(store.rows), input), step.ids);
    ActiveHeadPointsAtItsResult(Facts(store.rows), input, step.ids, i);
    OwnDecidesRows(applied, Facts(Next(schemas, store, step).rows), HeadOf(input, o), ResultOf);
    assert |Values(applied, HeadOf(input, o), ResultOf)| == 1;
  }

  /** A first revalidation at 100 and another whose clock reads 50: the head keeps both results. */
  lemma EarlierReadingAddsASecond() returns (step: Step, ids: seq<string>)
    ensures Sane(Someone(None)) && step.Revalidate? && step.now == step.at == 100
    ensures Enabled(People(), Someone(None), step)
    ensures var after := Next(People(), Someone(None), step);
      var plan := PlanOf(People(), after, step.ref, step.snapshot, 50);
      && Generated(Facts(after.rows), plan, ids)
      && |Values(ApplyOps(Facts(after.rows), plan, ids), HeadEntity(step.ref, "Person", SOMEONE), ResultOf)| > 1
  {
    SomeoneIsSane(None);
    PeopleAreDefinedOnce();
    step := RevalidationIsPossible(People(), Someone(None), "", NOTHING, 100);
    var after, plan;
    var first, second := SomeoneTwice(People(), Someone(None), step);
    after, plan, ids := EarlierReading(People(), Someone(None), step, first, 50, second);
  }

  lemma SomeoneTwice(people: Schemas, store: Store, step: Step) returns (first: Observation, second: Observation)
    requires people == People() && store == Someone(None) && Sane(store) && DefinesOnce(people)
    requires NoneReserved(people.types(NOTHING)) && step.Revalidate? && step.now == 100 && step.snapshot == NOTHING
    requires Enabled(people, store, step)
    ensures forall row :: row in store.rows ==> !IsValidatorEntity(row.fact.entity)
    ensures first in InputOf(people, store, step.ref, step.snapshot, step.now).observations
    ensures second in Observations(people, step.snapshot, Visible(Next(people, store, step).rows, 50))
    ensures first.entityType == second.entityType == "Person" && first.subject == second.subject == SOMEONE
  {
    first := SomeoneIsObserved(None, 100);
    second := StillObserved(step);
  }

  lemma StillObserved(step: Step) returns (o: Observation)
    requires Sane(Someone(None)) && DefinesOnce(People()) && NoneReserved(People().types(NOTHING))
    requires step.Revalidate? && Enabled(People(), Someone(None), step)
    ensures o in Observations(People(), NOTHING, Visible(Next(People(), Someone(None), step).rows, 50))
    ensures o.entityType == "Person" && o.subject == SOMEONE
  {
    o := SomeoneIsObserved(None, 50);
    RevalidationIsUnobserved(People(), Someone(None), step, NOTHING, 50);
  }

  lemma HeadIsUnseen(schemas: Schemas, store: Store, step: Step, earlier: int, head: Entity)
    requires DefinesOnce(schemas) && Sane(store) && step.Revalidate? && Enabled(schemas, store, step)
    requires forall row :: row in store.rows ==> !IsValidatorEntity(row.fact.entity)
    requires earlier < step.at && head.HeadEntity?
    ensures Rows(Seen(Next(schemas, store, step).rows, earlier), head, ResultOf) == []
  {
    FirstRowsStartAtTheCommit(schemas, store, step);
    NothingOwnIsSeen(Next(schemas, store, step).rows, earlier, head, ResultOf);
  }

  /** After the first revalidation of a store, one whose clock reads an earlier instant adds a second result. */
  lemma EarlierReading(schemas: Schemas, store: Store, step: Step, first: Observation, earlier: int,
                       second: Observation)
      returns (after: Store, plan: seq<Op>, ids: seq<string>)
    requires DefinesOnce(schemas) && Sane(store) && step.Revalidate? && Enabled(schemas, store, step)
    requires forall row :: row in store.rows ==> !IsValidatorEntity(row.fact.entity)
    requires earlier < step.at && first in InputOf(schemas, store, step.ref, step.snapshot, step.now).observations
    requires second in Observations(schemas, step.snapshot, Visible(Next(schemas, store, step).rows, earlier))
    requires first.entityType == second.entityType && first.subject == second.subject
    ensures after == Next(schemas, store, step) && plan == PlanOf(schemas, after, step.ref, step.snapshot, earlier)
    ensures Generated(Facts(after.rows), plan, ids)
    ensures var head := HeadEntity(step.ref, first.entityType, first.subject);
      |Values(ApplyOps(Facts(after.rows), plan, ids), head, ResultOf)| > 1
  {
    after := Next(schemas, store, step);
    HeadHasOne(schemas, store, step, first);
    HeadIsUnseen(schemas, store, step, earlier, HeadEntity(step.ref, first.entityType, first.subject));
    WritingKeepsSane(schemas, store, step);
    plan := PlanOf(schemas, after, step.ref, step.snapshot, earlier);
    ids := DoubledHead(schemas, after, step.ref, step.snapshot, earlier, second, plan);
  }

  lemma TwoResults(schemas: Schemas, store: Store, ref: string, snapshot: Snapshot, now: int, input: Input,
                   plan: seq<Op>, ids: seq<string>, i: nat)
    requires DefinesOnce(schemas) && Sane(store)
    requires input == InputOf(schemas, store, ref, snapshot, now) && plan == PlanOf(schemas, store, ref, snapshot, now)
    requires i < |input.observations| && Generated(Facts(store.rows), plan, ids)
    requires Targets(Seen(store.rows, now), ref, HeadOf(input, input.observations[i])) == []
    requires Rows(Facts(store.rows), HeadOf(input, input.observations[i]), ResultOf) != []
    ensures |Values(ApplyOps(Facts(store.rows), plan, ids), HeadOf(input, input.observations[i]), ResultOf)| > 1
  {
    AnyReadingKeepsOneIff(schemas, store, ref, snapshot, now, ids, i);
  }

  /** An observed head with a result the reading does not see gets a second. */
  lemma DoubledHead(schemas: Schemas, store: Store, ref: string, snapshot: Snapshot, now: int, o: Observation,
                    plan: seq<Op>) returns (ids: seq<string>)
    requires DefinesOnce(schemas) && Sane(store) && o in InputOf(schemas, store, ref, snapshot, now).observations
    requires plan == PlanOf(schemas, store, ref, snapshot, now)
    requires Rows(Facts(store.rows), HeadEntity(ref, o.entityType, o.subject), ResultOf) != []
    requires Rows(Seen(store.rows, now), HeadEntity(ref, o.entityType, o.subject), ResultOf) == []
    ensures Generated(Facts(store.rows), plan, ids)
    ensures var head := HeadEntity(ref, o.entityType, o.subject);
      |Values(ApplyOps(Facts(store.rows), plan, ids), head, ResultOf)| > 1
  {
    ids := SomeIdsFor(schemas, store, ref, snapshot, now, plan);
    var input := InputOf(schemas, store, ref, snapshot, now);
    var i :| 0 <= i < |input.observations| && input.observations[i] == o;
    assert HeadOf(input, o) == HeadEntity(ref, o.entityType, o.subject);
    TwoResults(schemas, store, ref, snapshot, now, input, plan, ids, i);
  }

  lemma SomeIdsFor(schemas: Schemas, store: Store, ref: string, snapshot: Snapshot, now: int, plan: seq<Op>)
      returns (ids: seq<string>)
    requires plan == PlanOf(schemas, store, ref, snapshot, now)
    ensures Generated(Facts(store.rows), plan, ids)
  {
    SeenAreFacts(store.rows, now);
    var spare;
    ids, spare := SomeIds(Seen(store.rows, now), store.rows, InputOf(schemas, store, ref, snapshot, now), plan);
  }
}
