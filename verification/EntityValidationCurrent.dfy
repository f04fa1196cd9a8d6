/**
 * When a current status can be relied on: over every run and however entities
 * are judged, for exactly the snapshots that define no type the system writes,
 * or nothing that anything can come to carry.
 */
module EntityValidationCurrent {
  import opened Wrappers
  import opened Seqs
  import opened ConsumerCheckpoint
  import opened EntityValidation
  import opened EntityValidationProofs
  import opened EntityValidationRuns
  import opened EntityValidationHealth
  import opened EntityValidationStore
  import opened EntityValidationMachine
  import opened EntityValidationProgress
  import opened EntityValidationTwice
  import opened EntityValidationReserved
  import opened EntityValidationStatus
  import opened EntityValidationMisled
  import opened EntityValidationUnjournaled

  /** After the run, current means that the heads show what the rows give at some instant so far. */
  ghost predicate ShownWhenCurrent(schemas: Schemas, clock: int, steps: seq<Step>, ref: string, current: string,
                                   now: int) {
    var run := Run(schemas, Store([], [], clock), steps);
    run.Some? && now >= run.value.clock && StatusOf(run.value, ref, current, now) == Current ==>
      exists snapshot: Snapshot, t: int {:trigger ShowsAt(schemas, run.value, ref, snapshot, t)} ::
        snapshot.id == current && t <= run.value.clock && ShowsAt(schemas, run.value, ref, snapshot, t)
  }

  ghost predicate NeverMisleads(schemas: Schemas) {
    forall clock: int, steps: seq<Step>, ref: string, current: string, now: int
      {:trigger ShownWhenCurrent(schemas, clock, steps, ref, current, now)} ::
      ShownWhenCurrent(schemas, clock, steps, ref, current, now)
  }

  // ---- Snapshots that observe nothing -------------------------------------------

  /** No schema but for results, violations and heads, of which there are none without a schema for something else. */
  ghost predicate DefinesOnlyChains(types: Snapshot -> seq<string>) {
    forall snapshot: Snapshot, entityType: string :: entityType in types(snapshot) ==> Chains(entityType)
  }

  ghost predicate DefinesNoWritten(types: Snapshot -> seq<string>) {
    forall snapshot: Snapshot {:trigger types(snapshot)} :: NoneWritten(types(snapshot))
  }

  ghost predicate Quiet(rows: seq<Row>) {
    forall row :: row in rows && row.entityType.Some? ==> !Chains(row.entityType.value)
  }

  lemma ChainsAreApart()
    ensures !Chains(RUN_TYPE) && !Chains(CHECKPOINT_TYPE) && !Chains(TRANSACTION_TYPE) && !Chains(CONSUMER_TYPE)
  {
    assert |RESULT_TYPE| == 25 && |VIOLATION_TYPE| == 28 && |HEAD_TYPE| == 23;
    assert |RUN_TYPE| == 22 && |CHECKPOINT_TYPE| == 29 && |TRANSACTION_TYPE| == 12 && |CONSUMER_TYPE| == 27;
  }

  lemma QuietIsUnobserved(schemas: Schemas, snapshot: Snapshot, rows: seq<Row>, t: int)
    requires DefinesOnlyChains(schemas.types) && Quiet(rows)
    ensures Observations(schemas, snapshot, Visible(rows, t)) == []
  {
    var observed := Observations(schemas, snapshot, Visible(rows, t));
    if observed != [] {
      var row := ObservedIsCarrier(schemas, snapshot, Visible(rows, t), observed[0]);
      var types := schemas.types(snapshot);
      ObservedHasType(schemas, snapshot, types, Judged(types, Visible(rows, t)), observed[0]);
    }
  }

  lemma ChangeStaysQuiet(schemas: Schemas, store: Store, step: Step)
    requires Quiet(store.rows) && step.Change? && Enabled(schemas, store, step)
    ensures Quiet(Next(schemas, store, step).rows)
  {
    ChainsAreApart();
    forall row | row in step.rows && row.entityType.Some? ensures !Chains(row.entityType.value) {
      if IsValidatorEntity(row.fact.entity) {
        assert row in Own(step.rows);
      }
    }
  }

  lemma AdvanceStaysQuiet(schemas: Schemas, store: Store, step: Step)
    requires Quiet(store.rows) && step.Advance? && Enabled(schemas, store, step)
    ensures Quiet(Next(schemas, store, step).rows)
  {
    var seen := Seen(store.rows, step.now);
    AdvanceStamps(seen, step.consumer, step.next, AdvanceOps(seen, step.consumer, step.next), step.ids, step.at);
    ChainsAreApart();
  }

  /** With nothing observed and no head known, a plan is about its run and checkpoint. */
  lemma UnobservedPlans(facts: seq<Fact>, input: Input, op: Op)
    requires input.observations == [] && op in Plan(facts, input) && op.AssertOp?
    ensures TypeOf(op.entity) == RUN_TYPE || TypeOf(op.entity) == CHECKPOINT_TYPE
  {
    PlanMembers(facts, input, op);
    ClearInactiveOnlyRetracts(facts, input, RefHeads(facts, input.ref));
    RunOnlyAsserts(facts, input);
    MoveCheckpointLeaves(facts, input);
  }

  lemma WrittenStaysQuiet(rows: seq<Row>, facts: seq<Fact>, input: Input, plan: seq<Op>, ids: seq<string>,
                          journal: seq<Row>, position: nat, at: int, row: Row)
    requires Quiet(rows) && input.observations == [] && plan == Plan(facts, input) && |ids| == |plan|
    requires Journals(rows, ids, journal, position, at) && row in Written(rows, plan, ids, at) + journal
    ensures row.entityType.Some? ==> !Chains(row.entityType.value)
  {
    ChainsAreApart();
    if row !in rows && row !in journal {
      var f :| f in Created(plan, ids) && Stamp(at)(f) == row;
      CreatedFrom(plan, ids, f);
      UnobservedPlans(facts, input, AssertOp(f.entity, f.attribute, f.value));
    }
  }

  lemma WritingStaysQuiet(schemas: Schemas, store: Store, step: Step)
    requires DefinesOnlyChains(schemas.types) && Quiet(store.rows) && step.Revalidate? && Enabled(schemas, store, step)
    ensures Quiet(Next(schemas, store, step).rows)
  {
    var input, plan := InputOf(schemas, store, step.ref, step.snapshot, step.now),
                       PlanOf(schemas, store, step.ref, step.snapshot, step.now);
    QuietIsUnobserved(schemas, step.snapshot, store.rows, step.now);
    if plan != [] {
      forall row | row in Next(schemas, store, step).rows
        ensures row.entityType.Some? ==> !Chains(row.entityType.value)
      {
        WrittenStaysQuiet(store.rows, Seen(store.rows, step.now), input, plan, step.ids, step.journal, step.position,
                          step.at, row);
      }
    }
  }

  lemma {:induction false} RunsStayQuiet(schemas: Schemas, store: Store, steps: seq<Step>)
    requires DefinesOnlyChains(schemas.types) && Quiet(store.rows) && Run(schemas, store, steps).Some?
    ensures Quiet(Run(schemas, store, steps).value.rows)
    decreases |steps|
  {
    if steps != [] {
      match steps[0] {
        case Change(_, _, _) => ChangeStaysQuiet(schemas, store, steps[0]);
        case Advance(_, _, _, _, _) => AdvanceStaysQuiet(schemas, store, steps[0]);
        case Revalidate(_, _, _, _, _, _, _) => WritingStaysQuiet(schemas, store, steps[0]);
      }
      RunsStayQuiet(schemas, Next(schemas, store, steps[0]), steps[1..]);
    }
  }

  lemma NoHeadIsQuiet(rows: seq<Row>, clock: int, head: Entity)
    requires Seasoned(rows, clock) && Quiet(rows) && head.HeadEntity?
    ensures Values(Facts(rows), head, ResultOf) == []
  {
    forall f | f in Facts(rows) ensures f.entity != head {
      var i :| 0 <= i < |rows| && Facts(rows)[i] == f;
      assert rows[i] in rows;
    }
    FilterNone(At(head, ResultOf), Facts(rows));
  }

  lemma QuietShows(schemas: Schemas, store: Store, ref: string, snapshot: Snapshot, t: int)
    requires DefinesOnlyChains(schemas.types) && Seasoned(store.rows, store.clock) && Quiet(store.rows)
    ensures ShowsAt(schemas, store, ref, snapshot, t)
  {
    var input := InputOf(schemas, store, ref, snapshot, t);
    QuietIsUnobserved(schemas, snapshot, store.rows, t);
    forall head: Entity | head.HeadEntity? && head.ref == input.ref ensures HeadShows(Facts(store.rows), input, head) {
      NoHeadIsQuiet(store.rows, store.clock, head);
    }
  }

  // ---- Snapshots that never mislead ------------------------------------------------

  lemma QuietNeverMisleads(schemas: Schemas)
    requires DefinesOnce(schemas) && DefinesOnlyChains(schemas.types)
    ensures NeverMisleads(schemas)
  {
    forall clock: int, steps: seq<Step>, ref: string, current: string, now: int
      ensures ShownWhenCurrent(schemas, clock, steps, ref, current, now)
    {
      var run := Run(schemas, Store([], [], clock), steps);
      if run.Some? {
        EmptyStoreIsSane(clock);
        RunsStaySane(schemas, Store([], [], clock), steps);
        RunsStayQuiet(schemas, Store([], [], clock), steps);
        QuietShows(schemas, run.value, ref, Snapshot(current, ""), run.value.clock);
      }
    }
  }

  lemma UnwrittenNeverMisleads(schemas: Schemas)
    requires DefinesOnce(schemas) && NeverWritten(schemas)
    ensures NeverMisleads(schemas)
  {
    forall clock: int, steps: seq<Step>, ref: string, current: string, now: int
      ensures ShownWhenCurrent(schemas, clock, steps, ref, current, now)
    {
      var run := Run(schemas, Store([], [], clock), steps);
      if run.Some? && now >= run.value.clock && StatusOf(run.value, ref, current, now) == Current {
        var snapshot, t := CurrentIsSound(schemas, clock, steps, ref, current, now);
      }
    }
  }

  // ---- And those that do ---------------------------------------------------------

  lemma RunSteps(schemas: Schemas, start: Store, step: Step, rest: seq<Step>, next: Store)
    requires Enabled(schemas, start, step) && next == Next(schemas, start, step)
    ensures Run(schemas, start, [step] + rest) == Run(schemas, next, rest)
  {
    var steps := [step] + rest;
    assert steps[0] == step && steps[1..] == rest;
  }

  lemma TwoSteps(schemas: Schemas, start: Store, first: Step, between: Store, second: Step, end: Store)
    requires Enabled(schemas, start, first) && between == Next(schemas, start, first)
    requires Enabled(schemas, between, second) && end == Next(schemas, between, second)
    ensures Run(schemas, start, [first, second]) == Some(end)
  {
    RunSteps(schemas, start, first, [second], between);
    OneStep(schemas, between, second, end);
    assert [first] + [second] == [first, second];
  }

  lemma ThreeSteps(schemas: Schemas, start: Store, first: Step, one: Store, second: Step, two: Store, third: Step,
                   end: Store)
    requires Enabled(schemas, start, first) && one == Next(schemas, start, first)
    requires Enabled(schemas, one, second) && two == Next(schemas, one, second)
    requires Enabled(schemas, two, third) && end == Next(schemas, two, third)
    ensures Run(schemas, start, [first, second, third]) == Some(end)
  {
    RunSteps(schemas, start, first, [second, third], one);
    TwoSteps(schemas, one, second, two, third, end);
    assert [first] + [second, third] == [first, second, third];
  }

  lemma MisledIsMisleading(schemas: Schemas, steps: seq<Step>, store: Store, ref: string, current: string)
    requires Run(schemas, Store([], [], 0), steps) == Some(store) && IsMisled(schemas, store, ref, current)
    ensures !NeverMisleads(schemas)
  {
    assert !ShownWhenCurrent(schemas, 0, steps, ref, current, 0);
  }

  lemma ConsumerTypeMisleads(types: Snapshot -> seq<string>, snapshot: Snapshot)
    requires DefinesOnce(Schemas(types, Reading())) && CONSUMER_TYPE in types(snapshot)
    ensures !NeverMisleads(Schemas(types, Reading()))
  {
    var schemas := Schemas(types, Reading());
    var first, made, second, validated, third := MovedConsumerMisleads(types, schemas, snapshot);
    var end := Next(schemas, validated, third);
    ThreeSteps(schemas, Store([], [], 0), first, made, second, validated, third, end);
    MisledIsMisleading(schemas, [first, second, third], end, "", snapshot.id);
  }

  lemma OwnTypeMisleads(types: Snapshot -> seq<string>, schemas: Schemas, snapshot: Snapshot, entityType: string)
    requires schemas == Schemas(types, Complain()) && DefinesOnce(schemas) && entityType in types(snapshot)
    requires IsReserved(entityType) && !Chains(entityType)
    ensures !NeverMisleads(schemas)
  {
    var empty := Store([], [], 0);
    EmptyStoreIsSane(0);
    var first, second := TwoRefsMislead(types, empty, snapshot, ANYTHING, snapshot, entityType);
    var mid := Next(schemas, empty, first);
    TwoSteps(schemas, empty, first, mid, second, Next(schemas, mid, second));
    MisledIsMisleading(schemas, [first, second], Next(schemas, mid, second), "b", snapshot.id);
  }

  // ---- From an entity of the source's to results, violations and heads -------------

  const SOURCE := SourceEntity("s")

  /** One fact of an entity of the type, and the journal of the transaction that asserted it. */
  function Asserted(entityType: string): seq<Row> {
    [Row(Fact("f", SOURCE, SourceOf(":name"), Text("n")), Some(entityType), 0, None),
     Row(Fact("j", TransactionEntity(1), SourceOf(":_tx/position"), Number(1)), Some(TRANSACTION_TYPE), 0, None)]
  }

  lemma SourceIsAsserted(schemas: Schemas, entityType: string) returns (step: Step, store: Store)
    requires !IsWrittenType(entityType)
    ensures Enabled(schemas, Store([], [], 0), step) && store == Next(schemas, Store([], [], 0), step)
    ensures store.rows == Asserted(entityType) && store.clock == 0
    ensures Sane(store) && StartAtZero(store.rows) && Ordinary(store.rows)
  {
    var rows := Asserted(entityType);
    step := Change(rows, Transaction(1, None), 0);
    FilterNone(IsOwn(), rows);
    FilterNone(IsConsumers(), rows);
    assert [] + [step.transaction] == [step.transaction];
    assert Facts(rows)[0].id == "f" && Facts(rows)[1].id == "j";
    EmptyStoreIsSane(0);
    ChangeKeepsSane(schemas, Store([], [], 0), step);
    store := Next(schemas, Store([], [], 0), step);
  }

  lemma SourceIsObserved(types: Snapshot -> seq<string>, snapshot: Snapshot, rows: seq<Row>, entityType: string)
      returns (o: Observation)
    requires entityType in types(snapshot) && rows == Asserted(entityType)
    ensures o in Observations(Schemas(types, Complain()), snapshot, Visible(rows, 0)) && |o.issues| == 1
  {
    assert rows[0] in Visible(rows, 0);
    o := OwnIsObserved(types, snapshot, Visible(rows, 0), SOURCE, entityType);
  }

  lemma ChainedTypeMisleads(types: Snapshot -> seq<string>, schemas: Schemas, before: Snapshot, plain: string,
                            snapshot: Snapshot, entityType: string)
    requires schemas == Schemas(types, Complain()) && DefinesOnce(schemas)
    requires plain in types(before) && !IsWrittenType(plain) && entityType in types(snapshot) && Chains(entityType)
    ensures !NeverMisleads(schemas)
  {
    var change, store := SourceIsAsserted(schemas, plain);
    var o := SourceIsObserved(types, before, store.rows, plain);
    var first, second := TwoRefsMislead(types, store, before, o, snapshot, entityType);
    var mid := Next(schemas, store, first);
    ThreeSteps(schemas, Store([], [], 0), change, store, first, mid, second, Next(schemas, mid, second));
    MisledIsMisleading(schemas, [change, first, second], Next(schemas, mid, second), "b", snapshot.id);
  }

  /** A written type, and something else to observe, mislead under some judgement. */
  lemma WrittenTypeMisleads(types: Snapshot -> seq<string>, snapshot: Snapshot, written: string, before: Snapshot,
                            other: string) returns (judge: Judgement)
    requires DefinesOnce(Schemas(types, Complain())) && written in types(snapshot) && IsWrittenType(written)
    requires other in types(before) && !Chains(other)
    ensures !NeverMisleads(Schemas(types, judge))
  {
    judge := Complain();
    if written == CONSUMER_TYPE {
      judge := Reading();
      ConsumerTypeMisleads(types, snapshot);
    } else if !Chains(written) {
      OwnTypeMisleads(types, Schemas(types, judge), snapshot, written);
    } else if other == CONSUMER_TYPE {
      judge := Reading();
      ConsumerTypeMisleads(types, before);
    } else if IsReserved(other) {
      OwnTypeMisleads(types, Schemas(types, judge), before, other);
    } else {
      ChainedTypeMisleads(types, Schemas(types, judge), before, other, snapshot, written);
    }
  }

  /**
   * Over every run from an empty store and however entities are judged, a
   * current status means that the heads show what the present rows give at some
   * instant so far, if and only if no snapshot has a schema for a type that the
   * projector, the journal or a consumer writes, or none has one for anything
   * but results, violations and heads.
   */
  lemma CurrentIsShownIff(types: Snapshot -> seq<string>)
    requires forall snapshot: Snapshot {:trigger types(snapshot)} :: NoDuplicates(types(snapshot))
    ensures (forall judge: Judgement {:trigger Schemas(types, judge)} :: NeverMisleads(Schemas(types, judge)))
      <==> DefinesNoWritten(types) || DefinesOnlyChains(types)
  {
    if DefinesNoWritten(types) {
      forall judge: Judgement ensures NeverMisleads(Schemas(types, judge)) {
        UnwrittenNeverMisleads(Schemas(types, judge));
      }
    } else if DefinesOnlyChains(types) {
      forall judge: Judgement ensures NeverMisleads(Schemas(types, judge)) {
        QuietNeverMisleads(Schemas(types, judge));
      }
    } else {
      var snapshot: Snapshot :| !NoneWritten(types(snapshot));
      var written :| written in types(snapshot) && IsWrittenType(written);
      var before: Snapshot, other: string :| other in types(before) && !Chains(other);
      var judge := WrittenTypeMisleads(types, snapshot, written, before, other);
    }
  }
}
