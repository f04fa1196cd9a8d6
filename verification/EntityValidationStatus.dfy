/**
 * Whether a ref's projection is current: what moves the status, and what a
 * current status guarantees about the heads.
 */
module EntityValidationStatus {
  import opened Wrappers
  import opened Seqs
  import opened EntityValidation
  import opened EntityValidationProofs
  import opened EntityValidationRuns
  import opened EntityValidationHealth
  import opened EntityValidationStore
  import opened EntityValidationMachine
  import opened EntityValidationTwice
  import opened EntityValidationReserved

  datatype Status = Unvalidated | Current | Stale

  /** The first value seen of a checkpoint's attribute decides. */
  function StatusIn(facts: seq<Fact>, ref: string, currentSnapshot: string, position: nat): Status {
    var positions := Values(facts, CheckpointEntity(ref), SourcePositionOf);
    var snapshots := Values(facts, CheckpointEntity(ref), SnapshotOf);
    if positions == [] || snapshots == [] then Unvalidated
    else if snapshots[0] == To(SnapshotEntity(currentSnapshot)) && positions[0] == Number(position) then Current
    else Stale
  }

  function StatusOf(store: Store, ref: string, currentSnapshot: string, now: int): Status {
    StatusIn(Seen(store.rows, now), ref, currentSnapshot, LastSource(store.journal))
  }

  lemma StatusIsOwn(a: seq<Fact>, b: seq<Fact>, ref: string, current: string, position: nat)
    requires OwnFacts(a) == OwnFacts(b)
    ensures StatusIn(a, ref, current, position) == StatusIn(b, ref, current, position)
  {
    OwnDecidesRows(a, b, CheckpointEntity(ref), SourcePositionOf);
    OwnDecidesRows(a, b, CheckpointEntity(ref), SnapshotOf);
  }

  /** No reading at or after the clock misses the checkpoint. */
  lemma StatusOfAllFacts(rows: seq<Row>, clock: int, now: int, ref: string, current: string, position: nat)
    requires Seasoned(rows, clock) && clock <= now
    ensures StatusIn(Seen(rows, now), ref, current, position) == StatusIn(Facts(rows), ref, current, position)
  {
    OwnRowsAreSeen(rows, clock, now);
    StatusIsOwn(Seen(rows, now), Facts(rows), ref, current, position);
  }

  // ---- What moves the status ------------------------------------------------

  ghost predicate CheckpointNames(facts: seq<Fact>, input: Input) {
    && Values(facts, CheckpointEntity(input.ref), SnapshotOf) == [To(SnapshotEntity(input.snapshot.id))]
    && Values(facts, CheckpointEntity(input.ref), SourcePositionOf) == [Number(input.sourcePosition)]
  }

  lemma NamedByValues(facts: seq<Fact>, input: Input)
    requires Values(facts, CheckpointEntity(input.ref), SnapshotOf) == [CheckpointValue(input, SnapshotOf)]
    requires Values(facts, CheckpointEntity(input.ref), SourcePositionOf) == [CheckpointValue(input, SourcePositionOf)]
    ensures CheckpointNames(facts, input)
  {
  }

  lemma AppliedNames(facts: seq<Fact>, input: Input, ids: seq<string>, after: seq<Fact>)
    requires Healthy(facts) && DistinctSubjects(input.observations) && Generated(facts, Plan(facts, input), ids)
    requires after == ApplyOps(facts, Plan(facts, input), ids)
    ensures CheckpointNames(after, input)
  {
    CheckpointIsMoved(facts, input, ids, SnapshotOf);
    CheckpointIsMoved(facts, input, ids, SourcePositionOf);
    NamedByValues(after, input);
  }

  lemma NamedIsCurrent(facts: seq<Fact>, input: Input)
    requires CheckpointNames(facts, input)
    ensures StatusIn(facts, input.ref, input.snapshot.id, input.sourcePosition) == Current
  {
  }

  lemma AppliedKeepsOthers(facts: seq<Fact>, input: Input, ids: seq<string>, ref: string, current: string,
                           position: nat)
    requires Healthy(facts) && DistinctSubjects(input.observations) && Generated(facts, Plan(facts, input), ids)
    requires ref != input.ref
    ensures StatusIn(ApplyOps(facts, Plan(facts, input), ids), ref, current, position)
      == StatusIn(facts, ref, current, position)
  {
    OtherCheckpointsStay(facts, input, ids, ref, SnapshotOf);
    OtherCheckpointsStay(facts, input, ids, ref, SourcePositionOf);
  }

  /** A revalidation makes its ref current at the snapshot it validated, whether or not anything had to be written. */
  lemma RevalidationMakesCurrent(schemas: Schemas, store: Store, step: Step, now: int)
    requires DefinesOnce(schemas) && Sane(store) && step.Revalidate? && Enabled(schemas, store, step) && now >= step.at
    ensures StatusOf(Next(schemas, store, step), step.ref, step.snapshot.id, now) == Current
  {
    var input := OwnFactsAfter(schemas, store, step);
    var after := Next(schemas, store, step);
    var applied := ApplyOps(Facts(store.rows), Plan(Facts(store.rows), input), step.ids);
    AppliedNames(Facts(store.rows), input, step.ids, applied);
    NamedIsCurrent(applied, input);
    SourcePositionStays(schemas, store, step);
    NextSeasoned(schemas, store, step);
    StatusOfAllFacts(after.rows, step.at, now, step.ref, step.snapshot.id, LastSource(after.journal));
    StatusIsOwn(Facts(after.rows), applied, step.ref, step.snapshot.id, LastSource(after.journal));
  }

  /** Revalidating another ref does not change whether this one is current. */
  lemma OtherRevalidationsKeepStatus(schemas: Schemas, store: Store, step: Step, ref: string, current: string, now: int)
    requires DefinesOnce(schemas) && Sane(store) && step.Revalidate? && Enabled(schemas, store, step) && now >= step.at
    requires ref != step.ref
    ensures StatusOf(Next(schemas, store, step), ref, current, now) == StatusOf(store, ref, current, now)
  {
    var input := OwnFactsAfter(schemas, store, step);
    var after, position := Next(schemas, store, step), LastSource(store.journal);
    AppliedKeepsOthers(Facts(store.rows), input, step.ids, ref, current, position);
    SourcePositionStays(schemas, store, step);
    NextSeasoned(schemas, store, step);
    StatusOfAllFacts(after.rows, step.at, now, ref, current, position);
    StatusOfAllFacts(store.rows, store.clock, now, ref, current, position);
    StatusIsOwn(Facts(after.rows), ApplyOps(Facts(store.rows), Plan(Facts(store.rows), input), step.ids), ref, current,
                position);
  }

  lemma SourcePositionMoves(journal: seq<Transaction>, transaction: Transaction)
    requires Ordered(journal + [transaction]) && transaction.actor != VALIDATOR
    ensures LastSource(journal) < LastSource(journal + [transaction]) == transaction.position
  {
    var all := journal + [transaction];
    assert all[..|all| - 1] == journal;
    assert Ordered(journal) by {
      assert forall i :: 0 <= i < |journal| ==> journal[i] == all[i];
    }
    LastSourceIsLast(journal);
    forall t | t in journal ensures t.position < transaction.position {
      var i :| 0 <= i < |journal| && journal[i] == t;
      assert all[i].position < all[|journal|].position;
    }
    assert all[0].position > 0;
  }

  lemma SameOwnFacts(rows: seq<Row>, after: seq<Row>)
    requires Own(after) == Own(rows)
    ensures OwnFacts(Facts(after)) == OwnFacts(Facts(rows))
  {
    FilterFacts(IsOwn(), IsOwnFact(), rows);
    FilterFacts(IsOwn(), IsOwnFact(), after);
  }

  lemma OwnFactsStay(schemas: Schemas, store: Store, step: Step)
    requires step.Change? && Enabled(schemas, store, step)
    ensures OwnFacts(Facts(Next(schemas, store, step).rows)) == OwnFacts(Facts(store.rows))
  {
    SameOwnFacts(store.rows, step.rows);
  }

  /** What a consumer writes goes unnoticed: every ref keeps its status. */
  lemma AdvancesKeepStatus(schemas: Schemas, store: Store, step: Step, ref: string, current: string, now: int)
    requires Sane(store) && step.Advance? && Enabled(schemas, store, step) && now >= step.at
    ensures StatusOf(Next(schemas, store, step), ref, current, now) == StatusOf(store, ref, current, now)
  {
    var after, position := Next(schemas, store, step), LastSource(store.journal);
    AdvanceKeepsSane(schemas, store, step);
    SameOwnFacts(store.rows, after.rows);
    StatusOfAllFacts(after.rows, step.at, now, ref, current, position);
    StatusOfAllFacts(store.rows, store.clock, now, ref, current, position);
    StatusIsOwn(Facts(after.rows), Facts(store.rows), ref, current, position);
  }

  /** A journaled transaction of the source makes a current projection stale. */
  lemma SourceTransactionsMakeStale(schemas: Schemas, store: Store, step: Step, ref: string, current: string, now: int)
    requires Sane(store) && step.Change? && Enabled(schemas, store, step) && now >= step.at
    requires StatusOf(store, ref, current, now) == Current
    ensures StatusOf(Next(schemas, store, step), ref, current, now) == Stale
  {
    var after := Next(schemas, store, step);
    SourcePositionMoves(store.journal, step.transaction);
    OwnFactsStay(schemas, store, step);
    ChangeKeepsSane(schemas, store, step);
    StatusOfAllFacts(store.rows, store.clock, now, ref, current, LastSource(store.journal));
    StatusOfAllFacts(after.rows, step.at, now, ref, current, LastSource(after.journal));
    StatusIsOwn(Facts(after.rows), Facts(store.rows), ref, current, LastSource(after.journal));
  }

  // ---- What a current status guarantees -------------------------------------

  ghost predicate HeadShows(facts: seq<Fact>, input: Input, head: Entity) {
    if head in ActiveHeads(input, input.observations) then
      exists o :: o in input.observations && HeadOf(input, o) == head
        && Values(facts, head, ResultOf) == [To(ResultEntity(ResultIdOf(input, o)))]
    else Values(facts, head, ResultOf) == []
  }

  /** Every head of the ref points at exactly the result of its observation, and those of no observation at nothing. */
  ghost predicate HeadsShow(facts: seq<Fact>, input: Input) {
    forall head: Entity {:trigger HeadShows(facts, input, head)} ::
      head.HeadEntity? && head.ref == input.ref ==> HeadShows(facts, input, head)
  }

  ghost predicate ObservedAt(schemas: Schemas, store: Store, input: Input, t: int) {
    t <= store.clock && input.observations == Observations(schemas, input.snapshot, Visible(store.rows, t))
  }

  /** Unless the source moved on, the input is what the store shows at some instant. */
  ghost predicate UpToDate(schemas: Schemas, store: Store, input: Input) {
    && input.sourcePosition <= LastSource(store.journal)
    && (input.sourcePosition == LastSource(store.journal) ==>
          exists t {:trigger ObservedAt(schemas, store, input, t)} :: ObservedAt(schemas, store, input, t))
  }

  /** The checkpoint names an input that the heads show. */
  ghost predicate Witness(schemas: Schemas, store: Store, ref: string, input: Input) {
    && input.ref == ref && HeadsShow(Facts(store.rows), input) && CheckpointNames(Facts(store.rows), input)
    && UpToDate(schemas, store, input)
  }

  ghost predicate HasWitness(schemas: Schemas, store: Store, ref: string) {
    Values(Facts(store.rows), CheckpointEntity(ref), SourcePositionOf) != [] ==>
      exists input {:trigger Witness(schemas, store, ref, input)} :: Witness(schemas, store, ref, input)
  }

  ghost predicate Sound(schemas: Schemas, store: Store) {
    forall ref: string {:trigger HasWitness(schemas, store, ref)} :: HasWitness(schemas, store, ref)
  }

  ghost predicate NeverWritten(schemas: Schemas) {
    forall snapshot: Snapshot {:trigger schemas.types(snapshot)} :: NoneWritten(schemas.types(snapshot))
  }

  lemma OwnDecidesHeads(a: seq<Fact>, b: seq<Fact>, input: Input)
    requires OwnFacts(a) == OwnFacts(b) && HeadsShow(a, input)
    ensures HeadsShow(b, input)
  {
    forall head: Entity | head.HeadEntity? && head.ref == input.ref ensures HeadShows(b, input, head) {
      assert HeadShows(a, input, head);
      OwnDecidesRows(a, b, head, ResultOf);
    }
  }

  lemma OwnDecidesShown(a: seq<Fact>, b: seq<Fact>, input: Input)
    requires OwnFacts(a) == OwnFacts(b) && HeadsShow(a, input) && CheckpointNames(a, input)
    ensures HeadsShow(b, input) && CheckpointNames(b, input)
  {
    OwnDecidesHeads(a, b, input);
    OwnDecidesRows(a, b, CheckpointEntity(input.ref), SnapshotOf);
    OwnDecidesRows(a, b, CheckpointEntity(input.ref), SourcePositionOf);
  }

  lemma AppliedHeadShows(facts: seq<Fact>, input: Input, ids: seq<string>, head: Entity)
    requires Healthy(facts) && DistinctSubjects(input.observations) && Generated(facts, Plan(facts, input), ids)
    requires head.HeadEntity? && head.ref == input.ref
    ensures HeadShows(ApplyOps(facts, Plan(facts, input), ids), input, head)
  {
    if head in ActiveHeads(input, input.observations) {
      var i := ActiveIndex(input, head);
      ActiveHeadPointsAtItsResult(facts, input, ids, i);
      assert input.observations[i] in input.observations;
    } else {
      InactiveHeadsAreCleared(facts, input, ids, head);
    }
  }

  lemma AppliedShows(facts: seq<Fact>, input: Input, ids: seq<string>, after: seq<Fact>)
    requires Healthy(facts) && DistinctSubjects(input.observations) && Generated(facts, Plan(facts, input), ids)
    requires after == ApplyOps(facts, Plan(facts, input), ids)
    ensures HeadsShow(after, input) && CheckpointNames(after, input)
  {
    forall head: Entity | head.HeadEntity? && head.ref == input.ref ensures HeadShows(after, input, head) {
      AppliedHeadShows(facts, input, ids, head);
    }
    AppliedNames(facts, input, ids, after);
  }

  lemma AppliedKeepsShown(facts: seq<Fact>, input: Input, ids: seq<string>, after: seq<Fact>, other: Input)
    requires Healthy(facts) && DistinctSubjects(input.observations) && Generated(facts, Plan(facts, input), ids)
    requires after == ApplyOps(facts, Plan(facts, input), ids) && other.ref != input.ref
    requires HeadsShow(facts, other) && CheckpointNames(facts, other)
    ensures HeadsShow(after, other) && CheckpointNames(after, other)
  {
    forall head: Entity | head.HeadEntity? && head.ref == other.ref ensures HeadShows(after, other, head) {
      assert HeadShows(facts, other, head);
      OtherRefsStay(facts, input, ids, head);
    }
    OtherCheckpointsStay(facts, input, ids, other.ref, SnapshotOf);
    OtherCheckpointsStay(facts, input, ids, other.ref, SourcePositionOf);
  }

  // ---- Every step keeps it --------------------------------------------------

  lemma OutdatedIsUpToDate(schemas: Schemas, store: Store, input: Input)
    requires input.sourcePosition < LastSource(store.journal)
    ensures UpToDate(schemas, store, input)
  {
  }

  lemma ChangeKeepsWitness(schemas: Schemas, store: Store, step: Step, ref: string, input: Input)
    requires step.Change? && Enabled(schemas, store, step) && Witness(schemas, store, ref, input)
    ensures Witness(schemas, Next(schemas, store, step), ref, input)
  {
    OwnFactsStay(schemas, store, step);
    OwnDecidesShown(Facts(store.rows), Facts(step.rows), input);
    SourcePositionMoves(store.journal, step.transaction);
    OutdatedIsUpToDate(schemas, Next(schemas, store, step), input);
  }

  lemma CheckpointStays(a: seq<Fact>, b: seq<Fact>, ref: string)
    requires OwnFacts(a) == OwnFacts(b)
    ensures Values(a, CheckpointEntity(ref), SourcePositionOf) == Values(b, CheckpointEntity(ref), SourcePositionOf)
  {
    OwnDecidesRows(a, b, CheckpointEntity(ref), SourcePositionOf);
  }

  lemma ChangeKeepsSound(schemas: Schemas, store: Store, step: Step)
    requires Sound(schemas, store) && step.Change? && Enabled(schemas, store, step)
    ensures Sound(schemas, Next(schemas, store, step))
  {
    var after := Next(schemas, store, step);
    forall ref: string ensures HasWitness(schemas, after, ref) {
      assert HasWitness(schemas, store, ref);
      OwnFactsStay(schemas, store, step);
      CheckpointStays(Facts(store.rows), Facts(after.rows), ref);
      if Values(Facts(after.rows), CheckpointEntity(ref), SourcePositionOf) != [] {
        var input :| Witness(schemas, store, ref, input);
        ChangeKeepsWitness(schemas, store, step, ref, input);
      }
    }
  }

  lemma AdvanceKeepsUpToDate(schemas: Schemas, store: Store, step: Step, input: Input)
    requires NeverWritten(schemas) && UniqueIds(Facts(store.rows)) && Classed(store.rows) && step.Advance?
    requires Enabled(schemas, store, step) && UpToDate(schemas, store, input)
    ensures UpToDate(schemas, Next(schemas, store, step), input)
  {
    var after := Next(schemas, store, step);
    if input.sourcePosition == LastSource(store.journal) {
      var t :| ObservedAt(schemas, store, input, t);
      AdvanceIsUnobserved(schemas, store, step, input.snapshot, t);
      assert ObservedAt(schemas, after, input, t);
    }
  }

  lemma AdvanceKeepsWitness(schemas: Schemas, store: Store, step: Step, ref: string, input: Input)
    requires NeverWritten(schemas) && Sane(store) && Classed(store.rows) && step.Advance?
    requires Enabled(schemas, store, step) && Witness(schemas, store, ref, input)
    ensures Witness(schemas, Next(schemas, store, step), ref, input)
  {
    AdvanceKeepsSane(schemas, store, step);
    SameOwnFacts(store.rows, Next(schemas, store, step).rows);
    OwnDecidesShown(Facts(store.rows), Facts(Next(schemas, store, step).rows), input);
    AdvanceKeepsUpToDate(schemas, store, step, input);
  }

  lemma AdvanceKeepsSound(schemas: Schemas, store: Store, step: Step)
    requires NeverWritten(schemas) && Sane(store) && Classed(store.rows) && Sound(schemas, store)
    requires step.Advance? && Enabled(schemas, store, step)
    ensures Sound(schemas, Next(schemas, store, step))
  {
    var after := Next(schemas, store, step);
    AdvanceKeepsSane(schemas, store, step);
    SameOwnFacts(store.rows, after.rows);
    forall ref: string ensures HasWitness(schemas, after, ref) {
      assert HasWitness(schemas, store, ref);
      CheckpointStays(Facts(store.rows), Facts(after.rows), ref);
      if Values(Facts(after.rows), CheckpointEntity(ref), SourcePositionOf) != [] {
        var input :| Witness(schemas, store, ref, input);
        AdvanceKeepsWitness(schemas, store, step, ref, input);
      }
    }
  }

  lemma ObservedStays(schemas: Schemas, store: Store, step: Step, input: Input, t: int)
    requires DefinesOnce(schemas) && NeverWritten(schemas) && Sane(store) && step.Revalidate?
    requires Enabled(schemas, store, step)
    requires t <= step.at && input.observations == Observations(schemas, input.snapshot, Visible(store.rows, t))
    ensures ObservedAt(schemas, Next(schemas, store, step), input, t)
  {
    RevalidationIsUnobserved(schemas, store, step, input.snapshot, t);
  }

  /** The revalidated ref gets a new witness: what was observed. */
  lemma RevalidatedHasWitness(schemas: Schemas, store: Store, step: Step)
    requires DefinesOnce(schemas) && NeverWritten(schemas) && Sane(store) && step.Revalidate?
    requires Enabled(schemas, store, step)
    ensures HasWitness(schemas, Next(schemas, store, step), step.ref)
  {
    var after := Next(schemas, store, step);
    var input := OwnFactsAfter(schemas, store, step);
    var applied := ApplyOps(Facts(store.rows), Plan(Facts(store.rows), input), step.ids);
    AppliedShows(Facts(store.rows), input, step.ids, applied);
    OwnDecidesShown(applied, Facts(after.rows), input);
    SourcePositionStays(schemas, store, step);
    ObservedStays(schemas, store, step, input, step.now);
    assert Witness(schemas, after, step.ref, input);
  }

  lemma UpToDateStays(schemas: Schemas, store: Store, step: Step, input: Input)
    requires DefinesOnce(schemas) && NeverWritten(schemas) && Sane(store) && step.Revalidate?
    requires Enabled(schemas, store, step)
    requires UpToDate(schemas, store, input)
    ensures UpToDate(schemas, Next(schemas, store, step), input)
  {
    SourcePositionStays(schemas, store, step);
    if input.sourcePosition == LastSource(store.journal) {
      var t :| ObservedAt(schemas, store, input, t);
      ObservedStays(schemas, store, step, input, t);
    }
  }

  lemma OthersKeepTheirWitness(schemas: Schemas, store: Store, step: Step, ref: string, other: Input)
    requires DefinesOnce(schemas) && NeverWritten(schemas) && Sane(store) && step.Revalidate?
    requires Enabled(schemas, store, step)
    requires ref != step.ref && Witness(schemas, store, ref, other)
    ensures Witness(schemas, Next(schemas, store, step), ref, other)
  {
    var after := Next(schemas, store, step);
    var input := OwnFactsAfter(schemas, store, step);
    var applied := ApplyOps(Facts(store.rows), Plan(Facts(store.rows), input), step.ids);
    AppliedKeepsShown(Facts(store.rows), input, step.ids, applied, other);
    OwnDecidesShown(applied, Facts(after.rows), other);
    UpToDateStays(schemas, store, step, other);
  }

  lemma OtherCheckpointAppears(schemas: Schemas, store: Store, step: Step, ref: string)
    requires DefinesOnce(schemas) && Sane(store) && step.Revalidate? && Enabled(schemas, store, step) && ref != step.ref
    ensures Values(Facts(Next(schemas, store, step).rows), CheckpointEntity(ref), SourcePositionOf)
      == Values(Facts(store.rows), CheckpointEntity(ref), SourcePositionOf)
  {
    var input := OwnFactsAfter(schemas, store, step);
    var applied := ApplyOps(Facts(store.rows), Plan(Facts(store.rows), input), step.ids);
    OtherCheckpointsStay(Facts(store.rows), input, step.ids, ref, SourcePositionOf);
    CheckpointStays(applied, Facts(Next(schemas, store, step).rows), ref);
  }

  lemma OthersHaveWitness(schemas: Schemas, store: Store, step: Step, ref: string)
    requires DefinesOnce(schemas) && NeverWritten(schemas) && Sane(store) && step.Revalidate?
    requires Enabled(schemas, store, step)
    requires ref != step.ref && HasWitness(schemas, store, ref)
    ensures HasWitness(schemas, Next(schemas, store, step), ref)
  {
    OtherCheckpointAppears(schemas, store, step, ref);
    if Values(Facts(store.rows), CheckpointEntity(ref), SourcePositionOf) != [] {
      var input :| Witness(schemas, store, ref, input);
      OthersKeepTheirWitness(schemas, store, step, ref, input);
    }
  }

  lemma WritingKeepsSound(schemas: Schemas, store: Store, step: Step)
    requires DefinesOnce(schemas) && NeverWritten(schemas) && Sane(store) && Sound(schemas, store)
    requires step.Revalidate? && Enabled(schemas, store, step)
    ensures Sound(schemas, Next(schemas, store, step))
  {
    forall ref: string ensures HasWitness(schemas, Next(schemas, store, step), ref) {
      if ref == step.ref {
        RevalidatedHasWitness(schemas, store, step);
      } else {
        assert HasWitness(schemas, store, ref);
        OthersHaveWitness(schemas, store, step, ref);
      }
    }
  }

  lemma StepStaysSound(schemas: Schemas, store: Store, step: Step)
    requires DefinesOnce(schemas) && NeverWritten(schemas) && Sane(store) && Classed(store.rows)
    requires Sound(schemas, store)
    requires Enabled(schemas, store, step)
    ensures Sound(schemas, Next(schemas, store, step))
  {
    match step {
      case Change(_, _, _) => ChangeKeepsSound(schemas, store, step);
      case Advance(_, _, _, _, _) => AdvanceKeepsSound(schemas, store, step);
      case Revalidate(_, _, _, _, _, _, _) => WritingKeepsSound(schemas, store, step);
    }
  }

  /** Over every run, each checkpoint names an input that the heads show, up to date unless the source moved on. */
  lemma {:induction false} RunsStaySound(schemas: Schemas, store: Store, steps: seq<Step>)
    requires DefinesOnce(schemas) && NeverWritten(schemas) && Sane(store) && Classed(store.rows)
    requires Sound(schemas, store)
    requires Run(schemas, store, steps).Some?
    ensures Sound(schemas, Run(schemas, store, steps).value)
    decreases |steps|
  {
    if steps != [] {
      var next := Next(schemas, store, steps[0]);
      StepStaysSound(schemas, store, steps[0]);
      OneStep(schemas, store, steps[0], next);
      RunsStaySane(schemas, store, [steps[0]]);
      RunsStayClassed(schemas, store, [steps[0]]);
      RunsStaySound(schemas, next, steps[1..]);
    }
  }

  lemma OneStep(schemas: Schemas, store: Store, step: Step, next: Store)
    requires Enabled(schemas, store, step) && next == Next(schemas, store, step)
    ensures Run(schemas, store, [step]) == Some(next)
  {
    assert [step][1..] == [];
  }

  lemma EmptyStoreIsSound(schemas: Schemas, clock: int)
    ensures Sound(schemas, Store([], [], clock))
  {
    forall ref: string ensures HasWitness(schemas, Store([], [], clock), ref) {
      assert Rows([], CheckpointEntity(ref), SourcePositionOf) == [];
    }
  }

  /** The heads of the ref show what validating the snapshot against the store's rows finds at the instant. */
  ghost predicate ShowsAt(schemas: Schemas, store: Store, ref: string, snapshot: Snapshot, t: int) {
    HeadsShow(Facts(store.rows), InputOf(schemas, store, ref, snapshot, t))
  }

  lemma WitnessShows(schemas: Schemas, store: Store, ref: string, input: Input) returns (t: int)
    requires Witness(schemas, store, ref, input) && input.sourcePosition == LastSource(store.journal)
    ensures t <= store.clock && ShowsAt(schemas, store, ref, input.snapshot, t)
  {
    t :| ObservedAt(schemas, store, input, t);
    assert InputOf(schemas, store, ref, input.snapshot, t) == input;
  }

  /**
   * In every reachable store, a current status means that the heads of the ref
   * show exactly what the present rows give at some instant up to the clock.
   */
  lemma CurrentIsSound(schemas: Schemas, clock: int, steps: seq<Step>, ref: string, current: string, now: int)
      returns (snapshot: Snapshot, t: int)
    requires DefinesOnce(schemas) && NeverWritten(schemas) && Run(schemas, Store([], [], clock), steps).Some?
    requires now >= Run(schemas, Store([], [], clock), steps).value.clock
    requires StatusOf(Run(schemas, Store([], [], clock), steps).value, ref, current, now) == Current
    ensures var store := Run(schemas, Store([], [], clock), steps).value;
      snapshot.id == current && t <= store.clock && ShowsAt(schemas, store, ref, snapshot, t)
  {
    var store := Run(schemas, Store([], [], clock), steps).value;
    EmptyStoreIsSane(clock);
    EmptyStoreIsSound(schemas, clock);
    RunsStaySane(schemas, Store([], [], clock), steps);
    RunsStaySound(schemas, Store([], [], clock), steps);
    snapshot, t := CurrentShows(schemas, store, ref, current, now);
  }

  lemma CurrentShows(schemas: Schemas, store: Store, ref: string, current: string,
                     now: int) returns (snapshot: Snapshot, t: int)
    requires Seasoned(store.rows, store.clock) && Sound(schemas, store) && now >= store.clock
    requires StatusOf(store, ref, current, now) == Current
    ensures snapshot.id == current && t <= store.clock && ShowsAt(schemas, store, ref, snapshot, t)
  {
    StatusOfAllFacts(store.rows, store.clock, now, ref, current, LastSource(store.journal));
    assert HasWitness(schemas, store, ref);
    var input :| Witness(schemas, store, ref, input);
    snapshot := input.snapshot;
    t := WitnessShows(schemas, store, ref, input);
  }

  // ---- And now? -------------------------------------------------------------

  lemma ShownByBoth(facts: seq<Fact>, a: Input, b: Input, o: Observation)
    requires HeadsShow(facts, a) && HeadsShow(facts, b) && a.ref == b.ref && a.snapshot == b.snapshot
    requires o in a.observations && DistinctSubjects(a.observations)
    ensures o in b.observations
  {
    var head := HeadOf(a, o);
    assert HeadShows(facts, a, head) && HeadShows(facts, b, head);
    var p :| p in a.observations && HeadOf(a, p) == head
      && Values(facts, head, ResultOf) == [To(ResultEntity(ResultIdOf(a, p)))];
    var i :| 0 <= i < |a.observations| && a.observations[i] == o;
    var j :| 0 <= j < |a.observations| && a.observations[j] == p;
    assert i == j;
    assert head in ActiveHeads(b, b.observations);
    var q :| q in b.observations && HeadOf(b, q) == head
      && Values(facts, head, ResultOf) == [To(ResultEntity(ResultIdOf(b, q)))];
    assert ResultIdOf(a, o) == ResultIdOf(b, q);
  }

  /** The rows give one observation per subject, so the same observations come in the same order. */
  lemma {:induction false} SameJudgements(schemas: Schemas, snapshot: Snapshot, types: seq<string>, a: seq<Row>,
                                          b: seq<Row>)
    requires forall entityType :: entityType in types ==> Subjects(a, entityType) == Subjects(b, entityType)
    requires forall entityType, e :: entityType in types && e in Subjects(a, entityType) ==>
      Judge(schemas, snapshot, entityType, a)(e) == Judge(schemas, snapshot, entityType, b)(e)
    ensures JudgeTypes(schemas, snapshot, types, a) == JudgeTypes(schemas, snapshot, types, b)
  {
    if types != [] {
      var last := |types| - 1;
      SameJudgements(schemas, snapshot, types[..last], a, b);
      assert types[last] in types;
      assert JudgeType(schemas, snapshot, types[last], a) == JudgeType(schemas, snapshot, types[last], b);
    }
  }

  ghost predicate Within(s: seq<Observation>, t: seq<Observation>) {
    forall o :: o in s ==> o in t
  }

  lemma JudgedWithin(schemas: Schemas, snapshot: Snapshot, types: seq<string>, a: seq<Row>, b: seq<Row>,
                     entityType: string, e: Entity)
    requires Within(JudgeTypes(schemas, snapshot, types, a), JudgeTypes(schemas, snapshot, types, b))
    requires entityType in types && e in Subjects(a, entityType)
    ensures e in Subjects(b, entityType)
    ensures Judge(schemas, snapshot, entityType, a)(e) == Judge(schemas, snapshot, entityType, b)(e)
  {
    var o := TypeIsObserved(schemas, snapshot, types, a, entityType, e);
    ObservedHasType(schemas, snapshot, types, b, o);
  }

  lemma SameSetSameList(schemas: Schemas, snapshot: Snapshot, types: seq<string>, a: seq<Row>, b: seq<Row>)
    requires Within(JudgeTypes(schemas, snapshot, types, a), JudgeTypes(schemas, snapshot, types, b))
    requires Within(JudgeTypes(schemas, snapshot, types, b), JudgeTypes(schemas, snapshot, types, a))
    ensures JudgeTypes(schemas, snapshot, types, a) == JudgeTypes(schemas, snapshot, types, b)
  {
    forall entityType, e | entityType in types && e in Subjects(a, entityType)
      ensures e in Subjects(b, entityType)
      ensures Judge(schemas, snapshot, entityType, a)(e) == Judge(schemas, snapshot, entityType, b)(e)
    {
      JudgedWithin(schemas, snapshot, types, a, b, entityType, e);
    }
    forall entityType, e | entityType in types && e in Subjects(b, entityType) ensures e in Subjects(a, entityType) {
      JudgedWithin(schemas, snapshot, types, b, a, entityType, e);
    }
    SameJudgements(schemas, snapshot, types, a, b);
  }

  /** Heads that show what two lists of visible rows give show the same thing. */
  lemma ShownDecidesObservations(facts: seq<Fact>, schemas: Schemas, a: Input, b: Input, seenA: seq<Row>,
                                 seenB: seq<Row>)
    requires DefinesOnce(schemas) && HeadsShow(facts, a) && HeadsShow(facts, b) && a.ref == b.ref
    requires a.snapshot == b.snapshot
    requires a.observations == Observations(schemas, a.snapshot, seenA)
    requires b.observations == Observations(schemas, a.snapshot, seenB)
    ensures a.observations == b.observations
  {
    SubjectsAreObservedOnce(schemas, a.snapshot, seenA);
    SubjectsAreObservedOnce(schemas, a.snapshot, seenB);
    forall o | o in a.observations ensures o in b.observations {
      ShownByBoth(facts, a, b, o);
    }
    forall o | o in b.observations ensures o in a.observations {
      ShownByBoth(facts, b, a, o);
    }
    var types := schemas.types(a.snapshot);
    SameSetSameList(schemas, a.snapshot, types, Judged(types, seenA), Judged(types, seenB));
  }

  /**
   * Heads that show what the rows gave at one instant show what they give at
   * another exactly when both instants give the same.
   */
  lemma ShowsAlsoAtIff(schemas: Schemas, store: Store, ref: string, snapshot: Snapshot, t: int, now: int)
    requires DefinesOnce(schemas) && ShowsAt(schemas, store, ref, snapshot, t)
    ensures var shown := Observations(schemas, snapshot, Visible(store.rows, t));
      ShowsAt(schemas, store, ref, snapshot, now)
      <==> Observations(schemas, snapshot, Visible(store.rows, now)) == shown
  {
    var a, b := InputOf(schemas, store, ref, snapshot, t), InputOf(schemas, store, ref, snapshot, now);
    if ShowsAt(schemas, store, ref, snapshot, now) {
      ShownDecidesObservations(Facts(store.rows), schemas, a, b, Visible(store.rows, t), Visible(store.rows, now));
    }
  }

  // ---- Which snapshots can be current at all ----------------------------------

  lemma RevalidatedShows(schemas: Schemas, store: Store, step: Step) returns (input: Input)
    requires DefinesOnce(schemas) && Sane(store) && step.Revalidate? && Enabled(schemas, store, step)
    ensures input == InputOf(schemas, store, step.ref, step.snapshot, step.now)
    ensures HeadsShow(Facts(Next(schemas, store, step).rows), input)
  {
    input := OwnFactsAfter(schemas, store, step);
    var applied := ApplyOps(Facts(store.rows), Plan(Facts(store.rows), input), step.ids);
    AppliedShows(Facts(store.rows), input, step.ids, applied);
    OwnDecidesShown(applied, Facts(Next(schemas, store, step).rows), input);
  }

  /** Right after a revalidation the heads show what the store gives exactly when a second one has nothing to do. */
  lemma ShowsIffNothingIsLeft(schemas: Schemas, store: Store, step: Step)
    requires DefinesOnce(schemas) && Sane(store) && step.Revalidate? && Enabled(schemas, store, step)
    ensures ShowsAt(schemas, Next(schemas, store, step), step.ref, step.snapshot, step.at)
      <==> PlanOf(schemas, Next(schemas, store, step), step.ref, step.snapshot, step.at) == []
  {
    var after := Next(schemas, store, step);
    var first := RevalidatedShows(schemas, store, step);
    var second := InputOf(schemas, after, step.ref, step.snapshot, step.at);
    LaterPlanIsEmptyIff(schemas, store, step, step.snapshot, step.at);
    SourcePositionStays(schemas, store, step);
    if ShowsAt(schemas, after, step.ref, step.snapshot, step.at) {
      ShownDecidesObservations(Facts(after.rows), schemas, first, second, Visible(store.rows, step.now),
                               Visible(after.rows, step.at));
    }
  }

  ghost predicate ShowsAfterwards(types: seq<string>, judge: Judgement, store: Store, step: Step) {
    var schemas := Defining(types, judge);
    Sane(store) && step.Revalidate? && Enabled(schemas, store, step) && step.now == step.at ==>
      ShowsAt(schemas, Next(schemas, store, step), step.ref, step.snapshot, step.at)
  }

  lemma ShowsAfterwardsIfSettled(types: seq<string>, judge: Judgement, store: Store, step: Step)
    requires NoDuplicates(types)
    ensures ShowsAfterwards(types, judge, store, step) <==> Settles(types, judge, store, step)
  {
    var schemas := Defining(types, judge);
    if Sane(store) && step.Revalidate? && Enabled(schemas, store, step) && step.now == step.at {
      ShowsIffNothingIsLeft(schemas, store, step);
    }
  }

  /**
   * Whatever the store and however entities are judged, a revalidation leaves
   * the heads showing what the store gives at that instant, exactly when the
   * snapshot defines no reserved type.
   */
  lemma ShowsAfterwardsIff(types: seq<string>)
    requires NoDuplicates(types)
    ensures (forall judge: Judgement, store: Store, step: Step {:trigger ShowsAfterwards(types, judge, store, step)} ::
               ShowsAfterwards(types, judge, store, step))
      <==> NoneReserved(types)
  {
    if NoneReserved(types) {
      forall judge: Judgement, store: Store, step: Step ensures ShowsAfterwards(types, judge, store, step) {
        PlainTypesSettle(types, judge, store, step);
        ShowsAfterwardsIfSettled(types, judge, store, step);
      }
    } else {
      var entityType :| entityType in types && IsReserved(entityType);
      var store, step := ReservedTypeUnsettles(types, entityType);
      ShowsAfterwardsIfSettled(types, Complain(), store, step);
    }
  }
}
