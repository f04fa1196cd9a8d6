/** The loops of one revalidation, against the plan they compute. */
module EntityValidationProjector {
  import opened Wrappers
  import opened Seqs
  import opened EntityValidation
  import opened EntityValidationProofs
  import opened EntityValidationRuns

  /** The ids a list of operations retracts. */
  function RetractedIds(ops: seq<Op>): seq<string> {
    if ops == [] then []
    else RetractedIds(ops[..|ops| - 1]) + match ops[|ops| - 1] case RetractOp(id) => [id] case AssertOp(_, _, _) => []
  }

  function IdOf(): Fact -> string {
    (f: Fact) => f.id
  }

  lemma {:induction false} RetractedIdsConcat(a: seq<Op>, b: seq<Op>)
    ensures RetractedIds(a + b) == RetractedIds(a) + RetractedIds(b)
  {
    if b == [] {
      assert a + b == a;
    } else {
      RetractedIdsConcat(a, b[..|b| - 1]);
      assert (a + b)[..|a + b| - 1] == a + b[..|b| - 1];
    }
  }

  lemma {:induction false} AssertionsRetractNothing(ops: seq<Op>)
    requires forall op :: op in ops ==> op.AssertOp?
    ensures RetractedIds(ops) == []
  {
    if ops != [] {
      AssertionsRetractNothing(ops[..|ops| - 1]);
    }
  }

  lemma {:induction false} RetractionsRetractRows(rows: seq<Fact>)
    ensures RetractedIds(Retractions(rows)) == Map(IdOf(), rows)
  {
    if rows != [] {
      var init, last := rows[..|rows| - 1], rows[|rows| - 1];
      assert rows == init + [last];
      RetractionsRetractRows(init);
      MapConcat(RetractOf(), init, [last]);
      MapConcat(IdOf(), init, [last]);
      assert Map(RetractOf(), [last]) == [RetractOp(last.id)] && Map(IdOf(), [last]) == [last.id];
      RetractedIdsConcat(Map(RetractOf(), init), [RetractOp(last.id)]);
      assert RetractedIds([RetractOp(last.id)]) == [last.id] by {
        assert [RetractOp(last.id)][..0] == [];
      }
    }
  }

  /** Every demanded precondition is a fact the operations retract, in the same order. */
  ghost predicate Guarded(operations: seq<Op>, preconditions: seq<string>) {
    preconditions == RetractedIds(operations)
  }

  lemma GuardedAssertions(operations: seq<Op>, preconditions: seq<string>, more: seq<Op>)
    requires Guarded(operations, preconditions) && forall op :: op in more ==> op.AssertOp?
    ensures Guarded(operations + more, preconditions)
  {
    RetractedIdsConcat(operations, more);
    AssertionsRetractNothing(more);
  }

  lemma GuardedRetractions(operations: seq<Op>, preconditions: seq<string>, rows: seq<Fact>)
    requires Guarded(operations, preconditions)
    ensures Guarded(operations + Retractions(rows), preconditions + Map(IdOf(), rows))
  {
    RetractedIdsConcat(operations, Retractions(rows));
    RetractionsRetractRows(rows);
  }

  // ---- What the loops know ------------------------------------------------

  /** The known violations hold every stored one, and beyond those only violations of results recorded in this run. */
  ghost predicate KnowsViolations(facts: seq<Fact>, known: set<Entity>, recorded: set<ResultId>) {
    forall v: ViolationId ::
      && (Known(facts, ViolationEntity(v)) ==> ViolationEntity(v) in known)
      && (ViolationEntity(v) in known ==> Known(facts, ViolationEntity(v)) || v.result in recorded)
  }

  ghost predicate KnowsEarlierViolations(facts: seq<Fact>, known: set<Entity>, recorded: set<ResultId>,
                                         current: ResultId, index: nat) {
    forall v: ViolationId ::
      && (Known(facts, ViolationEntity(v)) ==> ViolationEntity(v) in known)
      && (ViolationEntity(v) in known ==>
            Known(facts, ViolationEntity(v)) || v.result in recorded || (v.result == current && v.index < index))
  }

  /** The inner loop: each issue becomes a violation unless that violation is known. */
  method RecordViolations(facts: seq<Fact>, input: Input, o: Observation, known: set<Entity>,
                          ghost recorded: set<ResultId>)
      returns (operations: seq<Op>, grown: set<Entity>)
    requires ResultIdOf(input, o) !in recorded && KnowsViolations(facts, known, recorded)
    ensures operations == NewViolations(facts, input, o, |o.issues|)
    ensures KnowsViolations(facts, grown, recorded + {ResultIdOf(input, o)})
  {
    operations := [];
    grown := known;
    for index := 0 to |o.issues|
      invariant operations == NewViolations(facts, input, o, index)
      invariant KnowsEarlierViolations(facts, grown, recorded, ResultIdOf(input, o), index)
    {
      var id := ViolationAt(input, o, index);
      if ViolationEntity(id) !in grown {
        operations := operations + AssertViolation(id);
        grown := grown + {ViolationEntity(id)};
      }
    }
  }

  ghost predicate KnowsResults(facts: seq<Fact>, known: set<Entity>, recorded: set<ResultId>) {
    forall r: ResultId :: ResultEntity(r) in known <==> Known(facts, ResultEntity(r)) || r in recorded
  }

  method RecordResult(facts: seq<Fact>, input: Input, o: Observation, known: set<Entity>, ghost recorded: set<ResultId>)
      returns (operations: seq<Op>, grown: set<Entity>)
    requires ResultIdOf(input, o) !in recorded && KnowsResults(facts, known, recorded)
    ensures operations == NewResult(facts, input, o)
    ensures KnowsResults(facts, grown, recorded + {ResultIdOf(input, o)})
  {
    var resultEntity := ResultEntity(ResultIdOf(input, o));
    if resultEntity !in known {
      return AssertResult(input, o), known + {resultEntity};
    }
    return [], known;
  }

  function Recorded(input: Input, observations: seq<Observation>): set<ResultId> {
    set o | o in observations :: ResultIdOf(input, o)
  }

  lemma NotYetRecorded(input: Input, i: nat)
    requires DistinctSubjects(input.observations) && i < |input.observations|
    ensures ResultIdOf(input, input.observations[i]) !in Recorded(input, input.observations[..i])
  {
  }

  lemma RecordedGrows(input: Input, i: nat)
    requires i < |input.observations|
    ensures Recorded(input, input.observations[..i + 1])
      == Recorded(input, input.observations[..i]) + {ResultIdOf(input, input.observations[i])}
  {
    assert input.observations[..i + 1] == input.observations[..i] + [input.observations[i]];
  }

  /** The head of one observation is moved unless it points at the result already. */
  method MoveOneHead(facts: seq<Fact>, input: Input, o: Observation, operations: seq<Op>, preconditions: seq<string>)
      returns (operations': seq<Op>, preconditions': seq<string>)
    requires Guarded(operations, preconditions)
    ensures operations' == operations + MoveHead(facts, input, o) && Guarded(operations', preconditions')
  {
    operations', preconditions' := operations, preconditions;
    var head := HeadOf(input, o);
    var resultEntity := ResultEntity(ResultIdOf(input, o));
    var oldTargets := Targets(facts, input.ref, head);
    if To(resultEntity) !in Map(ValueOf(), oldTargets) {
      preconditions' := preconditions' + Map(IdOf(), oldTargets);
      operations' := operations' + Retractions(oldTargets);
      GuardedRetractions(operations, preconditions, oldTargets);
      if !IsRefHead(facts, input.ref, head) {
        GuardedAssertions(operations', preconditions', AssertHead(input, o));
        operations' := operations' + AssertHead(input, o);
      }
      GuardedAssertions(operations', preconditions', [AssertOp(head, ResultOf, To(resultEntity))]);
      operations' := operations' + [AssertOp(head, ResultOf, To(resultEntity))];
    }
  }

  lemma Regroup(a: seq<Op>, b: seq<Op>, c: seq<Op>)
    ensures a + (b + c) == a + b + c
  {
  }

  lemma ObserveAllGrows(facts: seq<Fact>, input: Input, observations: seq<Observation>, o: Observation)
    ensures ObserveAll(facts, input, observations + [o])
      == ObserveAll(facts, input, observations) + Observe(facts, input, o)
  {
    assert (observations + [o])[..|observations|] == observations;
  }

  lemma RegroupFour(a: seq<Op>, b: seq<Op>, c: seq<Op>, d: seq<Op>)
    ensures a + (b + c + d) == a + b + c + d
  {
  }

  lemma ObserveAllStep(facts: seq<Fact>, input: Input, i: nat)
    requires i < |input.observations|
    ensures ObserveAll(facts, input, input.observations[..i + 1])
      == ObserveAll(facts, input, input.observations[..i]) + Observe(facts, input, input.observations[i])
  {
    assert input.observations[..i + 1] == input.observations[..i] + [input.observations[i]];
    ObserveAllGrows(facts, input, input.observations[..i], input.observations[i]);
  }

  lemma ResultsStep(input: Input, i: nat)
    requires i < |input.observations|
    ensures ResultIds(input, input.observations[..i + 1])
      == ResultIds(input, input.observations[..i]) + [ResultIdOf(input, input.observations[i])]
    ensures ActiveHeads(input, input.observations[..i + 1])
      == ActiveHeads(input, input.observations[..i]) + {HeadOf(input, input.observations[i])}
  {
    assert input.observations[..i + 1][..i] == input.observations[..i];
    assert input.observations[..i + 1] == input.observations[..i] + [input.observations[i]];
  }

  /** The loop over the observed subjects: violations, result and head of each. */
  method ObserveSubjects(facts: seq<Fact>, input: Input)
      returns (operations: seq<Op>, preconditions: seq<string>, results: seq<ResultId>, activeHeads: set<Entity>)
    requires DistinctSubjects(input.observations)
    ensures operations == ObserveAll(facts, input, input.observations) && Guarded(operations, preconditions)
    ensures results == ResultIds(input, input.observations) && activeHeads == ActiveHeads(input, input.observations)
  {
    operations, preconditions, results, activeHeads := [], [], [], {};
    var knownResults := set f | f in facts && f.entity.ResultEntity? :: f.entity;
    var knownViolations := set f | f in facts && f.entity.ViolationEntity? :: f.entity;
    ghost var recorded := {};
    for i := 0 to |input.observations|
      invariant operations == ObserveAll(facts, input, input.observations[..i]) && Guarded(operations, preconditions)
      invariant results == ResultIds(input, input.observations[..i])
      invariant activeHeads == ActiveHeads(input, input.observations[..i])
      invariant recorded == Recorded(input, input.observations[..i])
      invariant KnowsResults(facts, knownResults, recorded) && KnowsViolations(facts, knownViolations, recorded)
    {
      var o := input.observations[i];
      ResultsStep(input, i);
      NotYetRecorded(input, i);
      RecordedGrows(input, i);
      ghost var before := operations;
      var violations, result;
      violations, knownViolations := RecordViolations(facts, input, o, knownViolations, recorded);
      ViolationsOnlyAssert(facts, input, o, |o.issues|);
      GuardedAssertions(operations, preconditions, violations);
      operations := operations + violations;
      results := results + [ResultIdOf(input, o)];
      result, knownResults := RecordResult(facts, input, o, knownResults, recorded);
      ResultOnlyAsserts(facts, input, o);
      GuardedAssertions(operations, preconditions, result);
      operations := operations + result;
      activeHeads := activeHeads + {HeadOf(input, o)};
      ObserveAllStep(facts, input, i);
      RegroupFour(before, violations, result, MoveHead(facts, input, o));
      operations, preconditions := MoveOneHead(facts, input, o, operations, preconditions);
      recorded := recorded + {ResultIdOf(input, o)};
    }
    assert input.observations[..|input.observations|] == input.observations;
  }

  function Clear(facts: seq<Fact>, input: Input, head: Entity): seq<Op> {
    if head in ActiveHeads(input, input.observations) then [] else Retractions(Rows(facts, head, ResultOf))
  }

  lemma ClearStep(facts: seq<Fact>, input: Input, heads: seq<Entity>, i: nat, before: seq<Op>)
    requires i < |heads|
    ensures before + ClearInactive(facts, input, heads[..i + 1])
      == before + ClearInactive(facts, input, heads[..i]) + Clear(facts, input, heads[i])
  {
    assert heads[..i + 1][..i] == heads[..i];
    Regroup(before, ClearInactive(facts, input, heads[..i]), Clear(facts, input, heads[i]));
  }

  method ClearHead(facts: seq<Fact>, input: Input, activeHeads: set<Entity>, head: Entity, operations: seq<Op>,
                   preconditions: seq<string>)
      returns (operations': seq<Op>, preconditions': seq<string>)
    requires activeHeads == ActiveHeads(input, input.observations) && Guarded(operations, preconditions)
    ensures operations' == operations + Clear(facts, input, head) && Guarded(operations', preconditions')
  {
    operations', preconditions' := operations, preconditions;
    if head !in activeHeads {
      var rows := Rows(facts, head, ResultOf);
      GuardedRetractions(operations, preconditions, rows);
      preconditions' := preconditions' + Map(IdOf(), rows);
      operations' := operations' + Retractions(rows);
    }
  }

  /** The loop over the ref's heads: those of subjects no longer observed lose their result. */
  method ClearHeads(facts: seq<Fact>, input: Input, activeHeads: set<Entity>, operations: seq<Op>,
                    preconditions: seq<string>)
      returns (operations': seq<Op>, preconditions': seq<string>)
    requires activeHeads == ActiveHeads(input, input.observations) && Guarded(operations, preconditions)
    ensures operations' == operations + ClearInactive(facts, input, RefHeads(facts, input.ref))
    ensures Guarded(operations', preconditions')
  {
    operations', preconditions' := operations, preconditions;
    var heads := RefHeads(facts, input.ref);
    for i := 0 to |heads|
      invariant operations' == operations + ClearInactive(facts, input, heads[..i])
      invariant Guarded(operations', preconditions')
    {
      ClearStep(facts, input, heads, i, operations);
      operations', preconditions' := ClearHead(facts, input, activeHeads, heads[i], operations', preconditions');
    }
    assert heads[..|heads|] == heads;
  }

  /** The checkpoint moves unless it is current. */
  method MoveTheCheckpoint(facts: seq<Fact>, input: Input, operations: seq<Op>, preconditions: seq<string>)
      returns (operations': seq<Op>, preconditions': seq<string>)
    requires Guarded(operations, preconditions)
    ensures operations' == operations + MoveCheckpoint(facts, input) && Guarded(operations', preconditions')
  {
    operations', preconditions' := operations, preconditions;
    if !CheckpointIsCurrent(facts, input) {
      var moving := CheckpointRows(facts, input.ref);
      GuardedRetractions(operations', preconditions', moving);
      preconditions' := preconditions' + Map(IdOf(), moving);
      operations' := operations' + Retractions(moving);
      GuardedAssertions(operations', preconditions', TagCheckpoint(facts, input.ref));
      operations' := operations' + TagCheckpoint(facts, input.ref);
      GuardedAssertions(operations', preconditions', AssertCheckpoint(input));
      operations' := operations' + AssertCheckpoint(input);
      Regroup(operations, Retractions(moving) + TagCheckpoint(facts, input.ref), AssertCheckpoint(input));
      Regroup(operations, Retractions(moving), TagCheckpoint(facts, input.ref));
    }
  }

  /** The operations of a revalidation are its plan, and its preconditions demand every fact the plan retracts. */
  method Revalidate(facts: seq<Fact>, input: Input)
      returns (operations: seq<Op>, preconditions: seq<string>, results: seq<ResultId>, run: RunId)
    requires DistinctSubjects(input.observations)
    ensures operations == Plan(facts, input) && preconditions == RetractedIds(operations)
    ensures results == ResultIds(input, input.observations) && run == RunIdOf(input)
  {
    var activeHeads;
    operations, preconditions, results, activeHeads := ObserveSubjects(facts, input);
    operations, preconditions := ClearHeads(facts, input, activeHeads, operations, preconditions);
    run := HashRun(input.ref, input.snapshot.rootCid, input.sourcePosition, results);
    RunOnlyAsserts(facts, input);
    GuardedAssertions(operations, preconditions, NewRun(facts, input));
    operations := operations + NewRun(facts, input);
    operations, preconditions := MoveTheCheckpoint(facts, input, operations, preconditions);
  }
}
