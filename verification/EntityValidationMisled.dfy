/**
 * With a reserved type defined, a current status can be wrong at every instant:
 * a revalidation of one ref is something to observe for the revalidation of
 * the next, and that one for itself.
 */
module EntityValidationMisled {
  import opened Wrappers
  import opened Seqs
  import opened EntityValidation
  import opened EntityValidationProofs
  import opened EntityValidationRuns
  import opened EntityValidationHealth
  import opened EntityValidationStore
  import opened EntityValidationMachine
  import opened EntityValidationProgress
  import opened EntityValidationTwice
  import opened EntityValidationReserved
  import opened EntityValidationStatus

  /** The status is current, and at no instant so far do the heads show what the rows give. */
  ghost predicate IsMisled(schemas: Schemas, store: Store, ref: string, current: string) {
    && store.clock == 0 && StatusOf(store, ref, current, 0) == Current
    && forall snapshot, t {:trigger ShowsAt(schemas, store, ref, snapshot, t)} ::
      t <= 0 ==> !ShowsAt(schemas, store, ref, snapshot, t)
  }

  ghost predicate StartAtZero(rows: seq<Row>) {
    forall row :: row in rows ==> row.validFrom == 0 && row.validTo.None?
  }

  // ---- When nothing is shown --------------------------------------------------

  lemma EarlierShowsNothing(schemas: Schemas, rows: seq<Row>, snapshot: Snapshot, t: int)
    requires StartAtZero(rows) && t < 0
    ensures Observations(schemas, snapshot, Visible(rows, t)) == []
  {
    FilterNone(ValidAt(t), rows);
    if Observations(schemas, snapshot, []) != [] {
      var row := ObservedIsCarrier(schemas, snapshot, [], Observations(schemas, snapshot, [])[0]);
    }
  }

  /** Heads that show something show one snapshot's results, and show them as something. */
  lemma ShownIsNamed(facts: seq<Fact>, input: Input, o: Observation, other: Input)
    requires HeadsShow(facts, input) && o in input.observations
    requires other.ref == input.ref && HeadsShow(facts, other)
    ensures other.snapshot == input.snapshot && other.observations != []
  {
    var head := HeadOf(input, o);
    assert HeadShows(facts, input, head) && HeadShows(facts, other, head);
    assert head in ActiveHeads(input, input.observations);
    var p :| p in input.observations && Values(facts, head, ResultOf) == [To(ResultEntity(ResultIdOf(input, p)))];
    assert head in ActiveHeads(other, other.observations);
    var q :| q in other.observations && Values(facts, head, ResultOf) == [To(ResultEntity(ResultIdOf(other, q)))];
  }

  /** What the heads show beside what was observed is what the present rows give. */
  lemma ShownIsPresent(facts: seq<Fact>, schemas: Schemas, input: Input, seen: seq<Row>, rows: seq<Row>, other: Input,
                       t: int)
    requires DefinesOnce(schemas) && StartAtZero(rows) && HeadsShow(facts, input) && input.observations != []
    requires input.observations == Observations(schemas, input.snapshot, seen)
    requires HeadsShow(facts, other) && other.ref == input.ref && t <= 0
    requires other.observations == Observations(schemas, other.snapshot, Visible(rows, t))
    ensures Observations(schemas, input.snapshot, Visible(rows, 0)) == input.observations
  {
    ShownIsNamed(facts, input, input.observations[0], other);
    if t == 0 {
      SameIsShown(facts, schemas, input, other, seen, Visible(rows, 0));
    } else {
      EarlierShowsNothing(schemas, rows, other.snapshot, t);
    }
  }

  lemma SameIsShown(facts: seq<Fact>, schemas: Schemas, a: Input, b: Input, seenA: seq<Row>, seenB: seq<Row>)
    requires DefinesOnce(schemas) && HeadsShow(facts, a) && HeadsShow(facts, b) && a.ref == b.ref
    requires a.snapshot == b.snapshot && a.observations == Observations(schemas, a.snapshot, seenA)
    requires b.observations == Observations(schemas, b.snapshot, seenB)
    ensures Observations(schemas, a.snapshot, seenB) == a.observations
  {
    ShownDecidesObservations(facts, schemas, a, b, seenA, seenB);
  }

  /**
   * Heads that show what was observed before the rows changed show the present rows at no instant
   * and for no snapshot.
   */
  lemma ChangedIsMisled(schemas: Schemas, store: Store, input: Input, seen: seq<Row>)
    requires DefinesOnce(schemas) && StartAtZero(store.rows) && store.clock == 0
    requires HeadsShow(Facts(store.rows), input) && input.observations != []
    requires input.observations == Observations(schemas, input.snapshot, seen)
    requires Observations(schemas, input.snapshot, Visible(store.rows, 0)) != input.observations
    requires StatusOf(store, input.ref, input.snapshot.id, 0) == Current
    ensures IsMisled(schemas, store, input.ref, input.snapshot.id)
  {
    forall snapshot, t | t <= 0 ensures !ShowsAt(schemas, store, input.ref, snapshot, t) {
      if ShowsAt(schemas, store, input.ref, snapshot, t) {
        ShownIsPresent(Facts(store.rows), schemas, input, seen, store.rows,
                       InputOf(schemas, store, input.ref, snapshot, t), t);
      }
    }
  }

  // ---- A revalidation that observes itself --------------------------------------

  lemma RowsStartAtZero(schemas: Schemas, store: Store, step: Step)
    requires DefinesOnce(schemas) && Sane(store) && StartAtZero(store.rows)
    requires step.Revalidate? && step.at == 0 && Enabled(schemas, store, step)
    ensures StartAtZero(Next(schemas, store, step).rows)
  {
    var input, plan := Committing(schemas, store, step);
    if plan != [] {
      StampedAreSeasoned(Facts(store.rows), input, step.ids, step.at);
    }
  }

  /** A revalidation of something, after which there is a new entity of a type it reads. */
  lemma NewEntityMisleads(schemas: Schemas, store: Store, step: Step, entityType: string, known: Entity, e: Entity)
    requires DefinesOnce(schemas) && Sane(store) && StartAtZero(store.rows)
    requires step.Revalidate? && step.now == step.at == 0 && Enabled(schemas, store, step)
    requires entityType in schemas.types(step.snapshot) && HasRow(Visible(store.rows, 0), known, entityType)
    requires HasRow(Visible(Next(schemas, store, step).rows, 0), e, entityType)
    requires forall row :: row in store.rows ==> row.fact.entity != e
    ensures IsMisled(schemas, Next(schemas, store, step), step.ref, step.snapshot.id)
  {
    var after := Next(schemas, store, step);
    var input := RevalidatedShows(schemas, store, step);
    var row :| row in Visible(store.rows, 0) && row.fact.entity == known && row.entityType == Some(entityType);
    var o := CarrierIsObserved(schemas, step.snapshot, Visible(store.rows, 0), row);
    NewCarrierIsNoticed(schemas, step.snapshot, Visible(store.rows, 0), Visible(after.rows, 0), e, entityType);
    RowsStartAtZero(schemas, store, step);
    RevalidationMakesCurrent(schemas, store, step, 0);
    ChangedIsMisled(schemas, after, input, Visible(store.rows, 0));
  }

  // ---- What a first revalidation leaves -------------------------------------------

  /** Of no ref but this one, and about no entity of the projector's. */
  predicate IsPlain(e: Entity, ref: string) {
    match e
    case RunEntity(run) => run.ref == ref
    case CheckpointEntity(other) => other == ref
    case HeadEntity(other, _, _) => other == ref
    case ResultEntity(result) => !IsValidatorEntity(result.observation.subject)
    case ViolationEntity(violation) => !IsValidatorEntity(violation.result.observation.subject)
    case _ => true
  }

  ghost predicate Ordinary(rows: seq<Row>) {
    forall row :: row in rows ==> !IsValidatorEntity(row.fact.entity)
  }

  ghost predicate AboutOthers(input: Input) {
    forall o :: o in input.observations ==> !IsValidatorEntity(o.subject)
  }

  lemma ObservedArePlain(facts: seq<Fact>, input: Input, op: Op)
    requires AboutOthers(input) && op in ObserveAll(facts, input, input.observations) && op.AssertOp?
    ensures IsPlain(op.entity, input.ref)
  {
    var i := SomeObservation(facts, input, input.observations, op);
    ObserveLeaves(facts, input, input.observations[i]);
    assert input.observations[i] in input.observations;
  }

  lemma PlansArePlain(facts: seq<Fact>, input: Input, op: Op)
    requires AboutOthers(input) && op in Plan(facts, input) && op.AssertOp?
    ensures IsPlain(op.entity, input.ref)
  {
    PlanMembers(facts, input, op);
    if op in ObserveAll(facts, input, input.observations) {
      ObservedArePlain(facts, input, op);
    } else {
      ClearInactiveOnlyRetracts(facts, input, RefHeads(facts, input.ref));
      RunOnlyAsserts(facts, input);
      MoveCheckpointLeaves(facts, input);
    }
  }

  lemma WrittenIsPlain(rows: seq<Row>, facts: seq<Fact>, input: Input, plan: seq<Op>, ids: seq<string>,
                       journal: seq<Row>, position: nat, at: int, row: Row)
    requires Ordinary(rows) && AboutOthers(input) && plan == Plan(facts, input) && |ids| == |plan|
    requires Journals(rows, ids, journal, position, at) && row in Written(rows, plan, ids, at) + journal
    ensures IsPlain(row.fact.entity, input.ref)
  {
    if row !in rows && row !in journal {
      var f :| f in Created(plan, ids) && Stamp(at)(f) == row;
      CreatedFrom(plan, ids, f);
      PlansArePlain(facts, input, AssertOp(f.entity, f.attribute, f.value));
    }
  }

  lemma OrdinaryIsAboutOthers(schemas: Schemas, store: Store, ref: string, snapshot: Snapshot, now: int)
    requires Ordinary(store.rows)
    ensures AboutOthers(InputOf(schemas, store, ref, snapshot, now))
  {
    forall o | o in Observations(schemas, snapshot, Visible(store.rows, now)) ensures !IsValidatorEntity(o.subject) {
      var row := ObservedIsCarrier(schemas, snapshot, Visible(store.rows, now), o);
      assert row in store.rows;
    }
  }

  lemma FirstIsPlain(schemas: Schemas, store: Store, step: Step)
    requires Ordinary(store.rows) && step.Revalidate? && Enabled(schemas, store, step)
    ensures forall row :: row in Next(schemas, store, step).rows ==> IsPlain(row.fact.entity, step.ref)
  {
    var input, plan := InputOf(schemas, store, step.ref, step.snapshot, step.now),
                       PlanOf(schemas, store, step.ref, step.snapshot, step.now);
    OrdinaryIsAboutOthers(schemas, store, step.ref, step.snapshot, step.now);
    if plan != [] {
      forall row | row in Next(schemas, store, step).rows ensures IsPlain(row.fact.entity, step.ref) {
        WrittenIsPlain(store.rows, Seen(store.rows, step.now), input, plan, step.ids, step.journal, step.position,
                       step.at, row);
      }
    }
  }

  // ---- One revalidation after another -----------------------------------------------

  /** Something asserted about an entity of the type, new to the store. */
  function OpFor(input: Input, o: Observation, entityType: string): Op
    requires |o.issues| == 1
  {
    if Chains(entityType) then NextOp(input, o, entityType) else FirstOp(input, entityType)
  }

  lemma OpIsPlanned(facts: seq<Fact>, input: Input, o: Observation, entityType: string)
    requires |o.issues| == 1 && IsReserved(entityType) && entityType != TRANSACTION_TYPE
    requires Chains(entityType) ==> o in input.observations
    requires forall f :: f in facts ==> f.entity != OpFor(input, o, entityType).entity
    ensures OpFor(input, o, entityType) in Plan(facts, input)
    ensures OpFor(input, o, entityType).AssertOp? && TypeOf(OpFor(input, o, entityType).entity) == entityType
    ensures IsValidatorEntity(OpFor(input, o, entityType).entity)
  {
    if Chains(entityType) {
      NextIsTyped(input, o, entityType);
      NextIsPlanned(facts, input, o, entityType);
    } else {
      FirstOpIsTyped(input, entityType);
      FirstOpIsPlanned(facts, input, entityType);
    }
  }

  lemma SeenAreOthers(rows: seq<Row>, now: int, e: Entity)
    requires forall row :: row in rows ==> row.fact.entity != e
    ensures forall f :: f in Seen(rows, now) ==> f.entity != e
  {
    forall f | f in Seen(rows, now) ensures f.entity != e {
      var visible := Visible(rows, now);
      var i :| 0 <= i < |visible| && Facts(visible)[i] == f;
      assert visible[i] in rows;
    }
  }

  lemma PlannedIsWritten(schemas: Schemas, store: Store, step: Step, plan: seq<Op>, op: Op)
    requires step.Revalidate? && Enabled(schemas, store, step)
    requires plan == PlanOf(schemas, store, step.ref, step.snapshot, step.now) && op in plan && op.AssertOp?
    ensures HasRow(Visible(Next(schemas, store, step).rows, step.at), op.entity, TypeOf(op.entity))
  {
    PlannedHasRow(store.rows, plan, step.ids, step.at, step.journal, op);
  }

  /**
   * A revalidation writes a new entity of every type but the journal's, if only something new is to
   * be said about it.
   */
  lemma OwnIsWritten(schemas: Schemas, store: Store, step: Step, input: Input, o: Observation, entityType: string,
                     op: Op)
    requires step.Revalidate? && Enabled(schemas, store, step)
    requires input == InputOf(schemas, store, step.ref, step.snapshot, step.now)
    requires |o.issues| == 1 && IsReserved(entityType) && entityType != TRANSACTION_TYPE
    requires Chains(entityType) ==> o in input.observations
    requires op == OpFor(input, o, entityType) && op.AssertOp?
    requires forall row :: row in store.rows ==> row.fact.entity != op.entity
    ensures HasRow(Visible(Next(schemas, store, step).rows, step.at), op.entity, entityType)
    ensures IsValidatorEntity(op.entity)
  {
    SeenAreOthers(store.rows, step.now, op.entity);
    OpIsPlanned(Seen(store.rows, step.now), input, o, entityType);
    PlannedIsWritten(schemas, store, step, PlanOf(schemas, store, step.ref, step.snapshot, step.now), op);
  }

  /** And of the journal's, when it writes anything. */
  lemma JournalIsWritten(schemas: Schemas, store: Store, step: Step)
    requires step.Revalidate? && Enabled(schemas, store, step)
    requires PlanOf(schemas, store, step.ref, step.snapshot, step.now) != []
    ensures HasRow(Visible(Next(schemas, store, step).rows, step.at), TransactionEntity(step.position),
      TRANSACTION_TYPE)
    ensures forall row :: row in store.rows ==> row.fact.entity != TransactionEntity(step.position)
  {
    var plan := PlanOf(schemas, store, step.ref, step.snapshot, step.now);
    JournalHasRow(store.rows, step.ids, step.journal, step.position, step.at,
                  Written(store.rows, plan, step.ids, step.at));
  }

  lemma NewRefPlansSomething(schemas: Schemas, store: Store, step: Step)
    requires step.Revalidate? && forall row :: row in store.rows ==> row.fact.entity != CheckpointEntity(step.ref)
    ensures PlanOf(schemas, store, step.ref, step.snapshot, step.now) != []
  {
    var input := InputOf(schemas, store, step.ref, step.snapshot, step.now);
    SeenAreOthers(store.rows, step.now, CheckpointEntity(step.ref));
    assert |RUN_TYPE| == 22 && |CHECKPOINT_TYPE| == 29;
    FirstOpIsPlanned(Seen(store.rows, step.now), input, CHECKPOINT_TYPE);
  }

  lemma NewRefJournals(schemas: Schemas, store: Store, step: Step)
    requires step.Revalidate? && Enabled(schemas, store, step)
    requires forall row :: row in store.rows ==> row.fact.entity != CheckpointEntity(step.ref)
    ensures HasRow(Visible(Next(schemas, store, step).rows, step.at), TransactionEntity(step.position),
      TRANSACTION_TYPE)
    ensures forall row :: row in store.rows ==> row.fact.entity != TransactionEntity(step.position)
  {
    NewRefPlansSomething(schemas, store, step);
    JournalIsWritten(schemas, store, step);
  }

  ghost predicate AllPlain(rows: seq<Row>, ref: string) {
    forall row :: row in rows ==> IsPlain(row.fact.entity, ref)
  }

  lemma OtherCheckpointIsNew(rows: seq<Row>, ref: string, other: string)
    requires AllPlain(rows, ref) && other != ref
    ensures forall row :: row in rows ==> row.fact.entity != CheckpointEntity(other)
  {
  }

  /** What a ref not yet validated says about a type is new beside what is plain for another ref. */
  lemma NewRefIsNotPlain(input: Input, o: Observation, entityType: string, ref: string)
    requires |o.issues| == 1 && input.ref != ref && (Chains(entityType) ==> IsValidatorEntity(o.subject))
    ensures !IsPlain(OpFor(input, o, entityType).entity, ref)
  {
  }

  const ANYTHING := Observation("", SourceEntity(""), "", "", [COMPLAINT])

  lemma OwnIsObserved(types: Snapshot -> seq<string>, snapshot: Snapshot, visible: seq<Row>, e: Entity,
                      entityType: string)
      returns (o: Observation)
    requires entityType in types(snapshot) && HasRow(visible, e, entityType)
    ensures o in Observations(Schemas(types, Complain()), snapshot, visible)
    ensures o.subject == e && o.entityType == entityType && |o.issues| == 1
  {
    var row :| row in visible && row.fact.entity == e && row.entityType == Some(entityType);
    o := CarrierIsObserved(Schemas(types, Complain()), snapshot, visible, row);
  }

  /** The first revalidation writes an entity of the type. */
  lemma FirstWrites(schemas: Schemas, store: Store, step: Step, entityType: string, o: Observation) returns (e: Entity)
    requires Ordinary(store.rows) && step.Revalidate? && Enabled(schemas, store, step)
    requires |o.issues| == 1 && IsReserved(entityType)
    requires Chains(entityType) ==> o in InputOf(schemas, store, step.ref, step.snapshot, step.now).observations
    ensures HasRow(Visible(Next(schemas, store, step).rows, step.at), e, entityType)
    ensures entityType != TRANSACTION_TYPE ==> IsValidatorEntity(e)
  {
    if entityType == TRANSACTION_TYPE {
      NewRefJournals(schemas, store, step);
      e := TransactionEntity(step.position);
    } else {
      var input := InputOf(schemas, store, step.ref, step.snapshot, step.now);
      assert IsValidatorEntity(OpFor(input, o, entityType).entity);
      OwnIsWritten(schemas, store, step, input, o, entityType, OpFor(input, o, entityType));
      e := OpFor(input, o, entityType).entity;
    }
  }

  /** The second, of another ref, writes one more. */
  lemma SecondWrites(schemas: Schemas, store: Store, step: Step, entityType: string, ref: string, o: Observation)
      returns (e: Entity)
    requires AllPlain(store.rows, ref) && step.Revalidate? && step.ref != ref && Enabled(schemas, store, step)
    requires |o.issues| == 1 && IsReserved(entityType) && (Chains(entityType) ==> IsValidatorEntity(o.subject))
    requires Chains(entityType) ==> o in InputOf(schemas, store, step.ref, step.snapshot, step.now).observations
    ensures HasRow(Visible(Next(schemas, store, step).rows, step.at), e, entityType)
    ensures forall row :: row in store.rows ==> row.fact.entity != e
  {
    if entityType == TRANSACTION_TYPE {
      OtherCheckpointIsNew(store.rows, ref, step.ref);
      NewRefJournals(schemas, store, step);
      e := TransactionEntity(step.position);
    } else {
      e := SecondOwn(schemas, store, step, entityType, ref, o);
    }
  }

  lemma SecondOwn(schemas: Schemas, store: Store, step: Step, entityType: string, ref: string, o: Observation)
      returns (e: Entity)
    requires AllPlain(store.rows, ref) && step.Revalidate? && step.ref != ref && Enabled(schemas, store, step)
    requires |o.issues| == 1 && IsReserved(entityType) && (Chains(entityType) ==> IsValidatorEntity(o.subject))
    requires entityType != TRANSACTION_TYPE
    requires Chains(entityType) ==> o in InputOf(schemas, store, step.ref, step.snapshot, step.now).observations
    ensures HasRow(Visible(Next(schemas, store, step).rows, step.at), e, entityType)
    ensures forall row :: row in store.rows ==> row.fact.entity != e
  {
    var input := InputOf(schemas, store, step.ref, step.snapshot, step.now);
    NewRefIsNotPlain(input, o, entityType, ref);
    OwnIsWritten(schemas, store, step, input, o, entityType, OpFor(input, o, entityType));
    e := OpFor(input, o, entityType).entity;
  }

  lemma SecondMisleads(types: Snapshot -> seq<string>, schemas: Schemas, store: Store, ref: string, snapshot: Snapshot,
                       entityType: string, known: Entity) returns (step: Step)
    requires schemas == Schemas(types, Complain()) && DefinesOnce(schemas) && Sane(store) && store.clock == 0
    requires StartAtZero(store.rows) && AllPlain(store.rows, ref) && ref != "b"
    requires IsReserved(entityType) && entityType in types(snapshot)
    requires HasRow(Visible(store.rows, 0), known, entityType)
    requires Chains(entityType) ==> IsValidatorEntity(known)
    ensures Enabled(schemas, store, step)
    ensures IsMisled(schemas, Next(schemas, store, step), "b", snapshot.id)
  {
    step := RevalidationIsPossible(schemas, store, "b", snapshot, 0);
    var o := OwnIsObserved(types, snapshot, Visible(store.rows, 0), known, entityType);
    var e := SecondWrites(schemas, store, step, entityType, ref, o);
    NewEntityMisleads(schemas, store, step, entityType, known, e);
  }

  lemma ChainsAreOwn(entityType: string)
    ensures Chains(entityType) ==> entityType != TRANSACTION_TYPE
  {
    assert |TRANSACTION_TYPE| == 12 && |RESULT_TYPE| == 25 && |VIOLATION_TYPE| == 28 && |HEAD_TYPE| == 23;
  }

  lemma FirstKeeps(schemas: Schemas, store: Store, step: Step, mid: Store)
    requires DefinesOnce(schemas) && Sane(store) && StartAtZero(store.rows) && Ordinary(store.rows)
    requires step.Revalidate? && step.ref == "a" && step.at == 0 && Enabled(schemas, store, step)
    requires mid == Next(schemas, store, step)
    ensures Sane(mid) && mid.clock == 0 && StartAtZero(mid.rows) && AllPlain(mid.rows, "a")
  {
    WritingKeepsSane(schemas, store, step);
    RowsStartAtZero(schemas, store, step);
    FirstIsPlain(schemas, store, step);
  }

  lemma FirstPrepares(schemas: Schemas, store: Store, snapshot: Snapshot, entityType: string, o: Observation)
      returns (step: Step, mid: Store, known: Entity)
    requires DefinesOnce(schemas) && Sane(store) && store.clock == 0 && StartAtZero(store.rows) && Ordinary(store.rows)
    requires IsReserved(entityType) && |o.issues| == 1
    requires Chains(entityType) ==> o in Observations(schemas, snapshot, Visible(store.rows, 0))
    ensures Enabled(schemas, store, step) && mid == Next(schemas, store, step)
    ensures Sane(mid) && mid.clock == 0 && StartAtZero(mid.rows) && AllPlain(mid.rows, "a")
    ensures HasRow(Visible(mid.rows, 0), known, entityType) && (Chains(entityType) ==> IsValidatorEntity(known))
  {
    step := RevalidationIsPossible(schemas, store, "a", snapshot, 0);
    mid := Next(schemas, store, step);
    known := FirstWrites(schemas, store, step, entityType, o);
    FirstKeeps(schemas, store, step, mid);
    ChainsAreOwn(entityType);
  }

  /**
   * Two refs, one after the other: the second revalidation reads what the first
   * wrote of a reserved type, and writes of it itself.
   */
  lemma TwoRefsMislead(types: Snapshot -> seq<string>, store: Store, before: Snapshot, o: Observation,
                       snapshot: Snapshot, entityType: string) returns (first: Step, second: Step)
    requires DefinesOnce(Schemas(types, Complain())) && Sane(store) && store.clock == 0
    requires StartAtZero(store.rows) && Ordinary(store.rows)
    requires IsReserved(entityType) && entityType in types(snapshot) && |o.issues| == 1
    requires Chains(entityType) ==> o in Observations(Schemas(types, Complain()), before, Visible(store.rows, 0))
    ensures var schemas := Schemas(types, Complain());
      && Enabled(schemas, store, first) && Enabled(schemas, Next(schemas, store, first), second)
      && IsMisled(schemas, Next(schemas, Next(schemas, store, first), second), "b", snapshot.id)
  {
    var schemas := Schemas(types, Complain());
    var mid, known;
    first, mid, known := FirstPrepares(schemas, store, before, entityType, o);
    second := SecondMisleads(types, schemas, mid, "a", snapshot, entityType, known);
  }
}
