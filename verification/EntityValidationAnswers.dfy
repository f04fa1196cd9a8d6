/**
 * What the projector's queries answer over every run: a current ref lists
 * exactly the entities that are invalid, and whatever was once found invalid
 * stays on record.
 */
module EntityValidationAnswers {
  import opened Wrappers
  import opened Seqs
  import opened EntityValidation
  import opened EntityValidationProofs
  import opened EntityValidationRuns
  import opened EntityValidationHealth
  import opened EntityValidationStore
  import opened EntityValidationMachine
  import opened EntityValidationTwice
  import opened EntityValidationStatus
  import opened EntityValidationRecords
  import opened EntityValidationRecorded
  import opened EntityValidationHistory
  import opened EntityValidationQueries

  /** What every reachable store is. */
  ghost predicate InOrder(store: Store) {
    Sane(store) && Recorded(Facts(store.rows)) && Classed(store.rows)
  }

  lemma SeenArePlain(rows: seq<Row>, now: int)
    requires Classed(rows)
    ensures PlainFacts(Seen(rows, now))
  {
    forall f | f in Seen(rows, now) ensures IsValidatorEntity(f.entity) || IsPlainAttribute(f.attribute) {
      var visible := Visible(rows, now);
      var i :| 0 <= i < |visible| && Facts(visible)[i] == f;
      assert visible[i] in rows && IsClassed(visible[i]);
    }
  }

  /** A read at or after the clock sees all records. */
  lemma RecordsAreSeen(store: Store, now: int)
    requires InOrder(store) && store.clock <= now
    ensures Recorded(Seen(store.rows, now)) && PlainFacts(Seen(store.rows, now))
    ensures OwnFacts(Seen(store.rows, now)) == OwnFacts(Facts(store.rows))
  {
    OwnRowsAreSeen(store.rows, store.clock, now);
    OwnDecidesRecords(Facts(store.rows), Seen(store.rows, now));
    SeenArePlain(store.rows, now);
  }

  lemma StepStaysInOrder(schemas: Schemas, store: Store, step: Step)
    requires DefinesOnce(schemas) && InOrder(store) && Enabled(schemas, store, step)
    ensures InOrder(Next(schemas, store, step))
  {
    OneStep(schemas, store, step, Next(schemas, store, step));
    RunsStaySane(schemas, store, [step]);
    RunsStayClassed(schemas, store, [step]);
    RunsStayRecorded(schemas, store, [step]);
  }

  lemma ReachableIsInOrder(schemas: Schemas, clock: int, steps: seq<Step>, store: Store)
    requires DefinesOnce(schemas) && Run(schemas, Store([], [], clock), steps) == Some(store)
    ensures InOrder(store)
  {
    EmptyStoreIsSane(clock);
    EmptyIsRecorded();
    RunsStaySane(schemas, Store([], [], clock), steps);
    RunsStayClassed(schemas, Store([], [], clock), steps);
    RunsStayRecorded(schemas, Store([], [], clock), steps);
  }

  // ---- The invalid entities of a ref -----------------------------------------------------

  lemma ShownAreTheLastInvalid(schemas: Schemas, store: Store, input: Input, visible: seq<Row>, now: int,
                               row: InvalidRow)
    requires DefinesOnce(schemas) && InOrder(store) && store.clock <= now && HeadsShow(Facts(store.rows), input)
    requires input.observations == Observations(schemas, input.snapshot, visible)
    ensures LastInvalid(Seen(store.rows, now), input.ref, row) <==> FoundInvalid(input, row)
  {
    SubjectsAreObservedOnce(schemas, input.snapshot, visible);
    RecordsAreSeen(store, now);
    OwnDecidesHeads(Facts(store.rows), Seen(store.rows, now), input);
    LastInvalidIff(Seen(store.rows, now), input, row);
  }

  /** After a revalidation a ref's last invalid results are those of the subjects it found invalid. */
  lemma RevalidationListsTheInvalid(schemas: Schemas, store: Store, step: Step, now: int, row: InvalidRow)
    requires DefinesOnce(schemas) && InOrder(store) && step.Revalidate? && Enabled(schemas, store, step)
    requires now >= step.at
    ensures LastInvalid(Seen(Next(schemas, store, step).rows, now), step.ref, row)
      <==> FoundInvalid(InputOf(schemas, store, step.ref, step.snapshot, step.now), row)
  {
    var input := RevalidatedShows(schemas, store, step);
    StepStaysInOrder(schemas, store, step);
    ShownAreTheLastInvalid(schemas, Next(schemas, store, step), input, Visible(store.rows, step.now), now, row);
  }

  /**
   * In every reachable store a current ref lists exactly the entities that the present rows make invalid under its
   * snapshot at some instant up to the clock.
   */
  lemma CurrentListsTheInvalid(schemas: Schemas, clock: int, steps: seq<Step>, store: Store, ref: string,
                               current: string, now: int) returns (snapshot: Snapshot, t: int)
    requires DefinesOnce(schemas) && NeverWritten(schemas)
    requires Run(schemas, Store([], [], clock), steps) == Some(store)
    requires now >= store.clock && StatusOf(store, ref, current, now) == Current
    ensures snapshot.id == current && t <= store.clock
    ensures forall row {:trigger LastInvalid(Seen(store.rows, now), ref, row)} ::
      LastInvalid(Seen(store.rows, now), ref, row) <==> FoundInvalid(InputOf(schemas, store, ref, snapshot, t), row)
  {
    snapshot, t := CurrentIsSound(schemas, clock, steps, ref, current, now);
    ReachableIsInOrder(schemas, clock, steps, store);
    var input := InputOf(schemas, store, ref, snapshot, t);
    forall row ensures LastInvalid(Seen(store.rows, now), ref, row) <==> FoundInvalid(input, row) {
      ShownAreTheLastInvalid(schemas, store, input, Visible(store.rows, t), now, row);
    }
  }

  /** The violations of a result on record are its issues, one row each. */
  lemma ReachableViolations(schemas: Schemas, clock: int, steps: seq<Step>, store: Store, now: int, r: ResultId,
                            row: ViolationRow)
    requires DefinesOnce(schemas) && Run(schemas, Store([], [], clock), steps) == Some(store) && store.clock <= now
    requires Known(Facts(store.rows), ResultEntity(r))
    ensures IsViolationRow(Seen(store.rows, now), row) && row.result == ResultEntity(r)
      <==> exists k: nat {:trigger TellsIssue(r, k, row)} :: TellsIssue(r, k, row)
  {
    ReachableIsInOrder(schemas, clock, steps, store);
    RecordsAreSeen(store, now);
    OwnDecidesKnown(Seen(store.rows, now), Facts(store.rows), ResultEntity(r));
    ViolationsTellTheIssues(Seen(store.rows, now), r, row);
  }

  // ---- The run a checkpoint names -----------------------------------------------------------

  /** The run is of this input: its ref, snapshot root, source position and one result for each observation. */
  ghost predicate IsRunOf(input: Input, run: RunId) {
    && run.ref == input.ref && run.rootCid == input.snapshot.rootCid && run.sourcePosition == input.sourcePosition
    && |run.results| == |input.observations|
    && forall i :: 0 <= i < |run.results| ==> run.results[i] == HashResult(input.observations[i], input.snapshot)
  }

  lemma {:induction false} ResultsInOrder(input: Input, observations: seq<Observation>)
    ensures var results := ResultIds(input, observations);
      && |results| == |observations|
      && forall i :: 0 <= i < |results| ==> results[i] == HashResult(observations[i], input.snapshot)
  {
    if observations != [] {
      ResultsInOrder(input, observations[..|observations| - 1]);
    }
  }

  /** After a revalidation the ref's checkpoint names the run of just what was observed, and nothing else. */
  lemma CheckpointNamesItsRun(schemas: Schemas, store: Store, step: Step) returns (run: RunId)
    requires DefinesOnce(schemas) && InOrder(store) && step.Revalidate? && Enabled(schemas, store, step)
    ensures IsRunOf(InputOf(schemas, store, step.ref, step.snapshot, step.now), run)
    ensures Values(Facts(Next(schemas, store, step).rows), CheckpointEntity(step.ref), ResultOf) == [To(RunEntity(run))]
  {
    var input := OwnFactsAfter(schemas, store, step);
    var applied := ApplyOps(Facts(store.rows), Plan(Facts(store.rows), input), step.ids);
    run := RunIdOf(input);
    ResultsInOrder(input, input.observations);
    CheckpointIsMoved(Facts(store.rows), input, step.ids, ResultOf);
    OwnDecidesRows(applied, Facts(Next(schemas, store, step).rows), CheckpointEntity(step.ref), ResultOf);
  }

  // ---- Ever invalid ------------------------------------------------------------------------

  /** Does the step observe the subject with issues, giving it this result? */
  ghost predicate Finds(schemas: Schemas, store: Store, step: Step, r: ResultId) {
    && step.Revalidate? && r.snapshot == step.snapshot
    && r.observation in Observations(schemas, step.snapshot, Visible(store.rows, step.now))
  }

  lemma OthersAddNoResult(schemas: Schemas, store: Store, step: Step, r: ResultId)
    requires InOrder(store) && !step.Revalidate? && Enabled(schemas, store, step)
    ensures Known(Facts(Next(schemas, store, step).rows), ResultEntity(r))
      <==> Known(Facts(store.rows), ResultEntity(r))
  {
    OthersKeepRecords(schemas, store, step);
    OwnDecidesKnown(Facts(store.rows), Facts(Next(schemas, store, step).rows), ResultEntity(r));
  }

  lemma AppliedKnowsNoOther(facts: seq<Fact>, input: Input, ids: seq<string>, after: seq<Fact>, r: ResultId)
    requires Healthy(facts) && DistinctSubjects(input.observations) && Generated(facts, Plan(facts, input), ids)
    requires after == ApplyOps(facts, Plan(facts, input), ids) && Known(after, ResultEntity(r))
    ensures Known(facts, ResultEntity(r)) || (r.snapshot == input.snapshot && r.observation in input.observations)
  {
    if !Known(facts, ResultEntity(r)) {
      var i := NewResultIsObserved(facts, input, ids, after, r);
    }
  }

  lemma AppliedKnowsTheFound(facts: seq<Fact>, input: Input, ids: seq<string>, after: seq<Fact>, r: ResultId)
    requires Healthy(facts) && DistinctSubjects(input.observations) && Generated(facts, Plan(facts, input), ids)
    requires after == ApplyOps(facts, Plan(facts, input), ids)
    requires r.snapshot == input.snapshot && r.observation in input.observations
    ensures Known(after, ResultEntity(r))
  {
    var i :| 0 <= i < |input.observations| && input.observations[i] == r.observation;
    ResultIsKnown(facts, input, ids, i);
  }

  lemma AppliedKnows(facts: seq<Fact>, input: Input, ids: seq<string>, after: seq<Fact>, r: ResultId)
    requires Healthy(facts) && DistinctSubjects(input.observations) && Generated(facts, Plan(facts, input), ids)
    requires after == ApplyOps(facts, Plan(facts, input), ids)
    ensures Known(after, ResultEntity(r))
      <==> Known(facts, ResultEntity(r)) || (r.snapshot == input.snapshot && r.observation in input.observations)
  {
    if Known(after, ResultEntity(r)) {
      AppliedKnowsNoOther(facts, input, ids, after, r);
    } else if Known(facts, ResultEntity(r)) {
      KnownStays(facts, input, ids, ResultEntity(r));
    } else if r.snapshot == input.snapshot && r.observation in input.observations {
      AppliedKnowsTheFound(facts, input, ids, after, r);
    }
  }

  lemma RevalidationKnows(schemas: Schemas, store: Store, step: Step, r: ResultId)
    requires DefinesOnce(schemas) && InOrder(store) && step.Revalidate? && Enabled(schemas, store, step)
    ensures Known(Facts(Next(schemas, store, step).rows), ResultEntity(r))
      <==> Known(Facts(store.rows), ResultEntity(r)) || Finds(schemas, store, step, r)
  {
    var input := OwnFactsAfter(schemas, store, step);
    var applied := ApplyOps(Facts(store.rows), Plan(Facts(store.rows), input), step.ids);
    AppliedKnows(Facts(store.rows), input, step.ids, applied, r);
    OwnDecidesKnown(applied, Facts(Next(schemas, store, step).rows), ResultEntity(r));
  }

  /** Some step of the run finds the result. */
  ghost predicate EverFinds(schemas: Schemas, store: Store, steps: seq<Step>, r: ResultId)
    requires Run(schemas, store, steps).Some?
    decreases |steps|
  {
    steps != [] &&
    (Finds(schemas, store, steps[0], r) || EverFinds(schemas, Next(schemas, store, steps[0]), steps[1..], r))
  }

  /** The results on record are those some revalidation found: none is lost, and none made up. */
  lemma {:induction false} RunsKnowWhatTheyFound(schemas: Schemas, store: Store, steps: seq<Step>, r: ResultId)
    requires DefinesOnce(schemas) && InOrder(store) && Run(schemas, store, steps).Some?
    ensures Known(Facts(Run(schemas, store, steps).value.rows), ResultEntity(r))
      <==> Known(Facts(store.rows), ResultEntity(r)) || EverFinds(schemas, store, steps, r)
    decreases |steps|
  {
    if steps != [] {
      var next := Next(schemas, store, steps[0]);
      if steps[0].Revalidate? {
        RevalidationKnows(schemas, store, steps[0], r);
      } else {
        OthersAddNoResult(schemas, store, steps[0], r);
      }
      StepStaysInOrder(schemas, store, steps[0]);
      RunsKnowWhatTheyFound(schemas, next, steps[1..], r);
    }
  }

  /** The run finds the subject invalid. */
  ghost predicate FindsInvalid(schemas: Schemas, store: Store, steps: seq<Step>, subject: Entity, r: ResultId)
    requires Run(schemas, store, steps).Some?
  {
    EverFinds(schemas, store, steps, r) && r.observation.subject == subject && r.observation.issues != []
  }

  /** Ever invalid are exactly the subjects that some revalidation of the run found invalid. */
  lemma EverInvalidIffFound(schemas: Schemas, clock: int, steps: seq<Step>, store: Store, now: int, subject: Entity)
    requires DefinesOnce(schemas) && Run(schemas, Store([], [], clock), steps) == Some(store) && store.clock <= now
    ensures EverInvalid(Seen(store.rows, now), To(subject))
      <==> exists r :: FindsInvalid(schemas, Store([], [], clock), steps, subject, r)
  {
    ReachableIsInOrder(schemas, clock, steps, store);
    ReachableIsInOrder(schemas, clock, [], Store([], [], clock));
    RecordsAreSeen(store, now);
    EverInvalidIff(Seen(store.rows, now), subject);
    forall r ensures HasInvalidResult(Seen(store.rows, now), subject, r)
      <==> FindsInvalid(schemas, Store([], [], clock), steps, subject, r)
    {
      RunsKnowWhatTheyFound(schemas, Store([], [], clock), steps, r);
      OwnDecidesKnown(Seen(store.rows, now), Facts(store.rows), ResultEntity(r));
    }
  }
}
