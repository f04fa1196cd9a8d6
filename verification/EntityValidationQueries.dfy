/**
 * What the projector's queries answer: the invalid entities of a ref, those
 * that were ever invalid, and why, in terms of what was observed.
 */
module EntityValidationQueries {
  import opened Wrappers
  import opened Seqs
  import opened EntityValidation
  import opened EntityValidationProofs
  import opened EntityValidationRuns
  import opened EntityValidationHealth
  import opened EntityValidationStore
  import opened EntityValidationMachine
  import opened EntityValidationTwice
  import opened EntityValidationStatus
  import opened EntityValidationRecords
  import opened EntityValidationRecorded
  import opened EntityValidationHistory

  // ---- The queries, as joins over the facts a read sees ------------------------------

  datatype InvalidRow = InvalidRow(subject: Value, result: Entity, schema: Value, snapshot: Value)

  ghost predicate IsInvalidResult(facts: seq<Fact>, row: InvalidRow) {
    && Holds(facts, row.result, SnapshotOf, row.snapshot) && Holds(facts, row.result, ValidOf, Flag(false))
    && Holds(facts, row.result, SubjectOf, row.subject) && Holds(facts, row.result, SchemaOf, row.schema)
  }

  ghost predicate Points(facts: seq<Fact>, ref: string, head: Entity, result: Entity) {
    Holds(facts, head, RefOf, Text(ref)) && Holds(facts, head, ResultOf, To(result))
  }

  /** The last invalid results of a ref. */
  ghost predicate LastInvalid(facts: seq<Fact>, ref: string, row: InvalidRow) {
    IsInvalidResult(facts, row)
    && exists head {:trigger Points(facts, ref, head, row.result)} :: Points(facts, ref, head, row.result)
  }

  ghost predicate IsInvalidSubject(facts: seq<Fact>, result: Entity, subject: Value) {
    Holds(facts, result, ValidOf, Flag(false)) && Holds(facts, result, SubjectOf, subject)
  }

  /** Was the subject found invalid by any result? */
  ghost predicate EverInvalid(facts: seq<Fact>, subject: Value) {
    exists result {:trigger IsInvalidSubject(facts, result, subject)} :: IsInvalidSubject(facts, result, subject)
  }

  datatype ViolationRow = ViolationRow(
    violation: Entity, result: Entity, subject: Value, entityType: Value, code: Value, path: Value, message: Value)

  ghost predicate IsViolationRow(facts: seq<Fact>, row: ViolationRow) {
    && Holds(facts, row.violation, ResultOf, To(row.result)) && Holds(facts, row.violation, SubjectOf, row.subject)
    && Holds(facts, row.violation, CodeOf, row.code) && Holds(facts, row.violation, PathOf, row.path)
    && Holds(facts, row.violation, MessageOf, row.message) && Holds(facts, row.result, EntityTypeOf, row.entityType)
  }

  // ---- Who holds the projector's attributes -------------------------------------------

  /** Entities of others hold none of the projector's attributes. */
  ghost predicate PlainFacts(facts: seq<Fact>) {
    forall f :: f in facts ==> IsValidatorEntity(f.entity) || IsPlainAttribute(f.attribute)
  }

  lemma HolderIsKnown(facts: seq<Fact>, e: Entity, a: Attribute, value: Value)
    requires Holds(facts, e, a, value)
    ensures Known(facts, e) && (PlainFacts(facts) && !IsPlainAttribute(a) ==> IsValidatorEntity(e))
  {
    var f :| f in Rows(facts, e, a) && ValueOf()(f) == value;
    assert f in facts && f.entity == e && f.attribute == a;
  }

  /** The attributes an entity of the projector's can hold. */
  ghost predicate CanHold(e: Entity, a: Attribute)
    requires IsValidatorEntity(e)
  {
    match e
    case ResultEntity(r) => ResultHolds(r, a) != []
    case ViolationEntity(v) => ViolationHolds(v, a) != []
    case HeadEntity(_, _, _) => a.ResultOf? || HeadHolds(e, a) != []
    case RunEntity(run) => a.SnapshotOf? || RunHolds(run, a) != []
    case CheckpointEntity(ref) => IsPointer(e, a) || CheckpointTagHolds(ref, a) != []
  }

  lemma HolderCanHold(facts: seq<Fact>, e: Entity, a: Attribute, value: Value)
    requires Recorded(facts) && PlainFacts(facts) && Holds(facts, e, a, value) && !IsPlainAttribute(a)
    ensures IsValidatorEntity(e) && Known(facts, e) && CanHold(e, a)
  {
    HolderIsKnown(facts, e, a, value);
    assert e.ResultEntity? ==> ResultIsRecorded(facts, e.result);
    assert e.ViolationEntity? ==> ViolationIsRecorded(facts, e.violation);
    assert e.HeadEntity? ==> HeadIsRecorded(facts, e);
    assert e.RunEntity? ==> RunIsRecorded(facts, e.run);
    assert e.CheckpointEntity? ==> CheckpointIsRecorded(facts, e.ref);
  }

  // ---- The invalid entities of a ref ----------------------------------------------------

  /** The row a result answers with. */
  function RowOf(r: ResultId): InvalidRow {
    InvalidRow(To(r.observation.subject), ResultEntity(r), Text(r.observation.schemaId),
      To(SnapshotEntity(r.snapshot.id)))
  }

  lemma HoldsOne(facts: seq<Fact>, e: Entity, a: Attribute, held: Value, value: Value)
    requires Values(facts, e, a) == [held]
    ensures Holds(facts, e, a, value) <==> value == held
  {
  }

  lemma KnownResultSays(facts: seq<Fact>, r: ResultId)
    requires Recorded(facts) && Known(facts, ResultEntity(r))
    ensures ResultSays(facts, r)
  {
    assert ResultIsRecorded(facts, r);
  }

  /** A result on record answers as invalid exactly when issues were found, with what was observed. */
  lemma ResultAnswersIff(facts: seq<Fact>, r: ResultId, row: InvalidRow)
    requires ResultSays(facts, r) && row.result == ResultEntity(r)
    ensures IsInvalidResult(facts, row) <==> r.observation.issues != [] && row == RowOf(r)
  {
    var e := ResultEntity(r);
    HoldsOne(facts, e, SnapshotOf, To(SnapshotEntity(r.snapshot.id)), row.snapshot);
    HoldsOne(facts, e, ValidOf, Flag(|r.observation.issues| == 0), Flag(false));
    HoldsOne(facts, e, SubjectOf, To(r.observation.subject), row.subject);
    HoldsOne(facts, e, SchemaOf, Text(r.observation.schemaId), row.schema);
  }

  ghost predicate IsFoundAs(input: Input, o: Observation, row: InvalidRow) {
    o in input.observations && o.issues != [] && row == RowOf(HashResult(o, input.snapshot))
  }

  /** Was the row's subject observed so, and found invalid? */
  ghost predicate FoundInvalid(input: Input, row: InvalidRow) {
    exists o {:trigger IsFoundAs(input, o, row)} :: IsFoundAs(input, o, row)
  }

  lemma CheckpointsPointAtNoResult(facts: seq<Fact>, ref: string, head: Entity, r: ResultId)
    requires Recorded(facts) && Points(facts, ref, head, ResultEntity(r))
    ensures !head.CheckpointEntity?
  {
    HolderIsKnown(facts, head, ResultOf, To(ResultEntity(r)));
    assert head.CheckpointEntity? ==> CheckpointIsRecorded(facts, head.ref);
  }

  lemma OnlyHeadsPoint(facts: seq<Fact>, ref: string, head: Entity, r: ResultId)
    requires Recorded(facts) && PlainFacts(facts) && Points(facts, ref, head, ResultEntity(r))
    ensures head.HeadEntity? && head.ref == ref
  {
    HolderCanHold(facts, head, RefOf, Text(ref));
    CheckpointsPointAtNoResult(facts, ref, head, r);
    assert head.HeadEntity? ==> HeadIsRecorded(facts, head) && HeadSays(facts, head);
  }

  lemma PointedAtIsObserved(facts: seq<Fact>, input: Input, head: Entity, r: ResultId) returns (o: Observation)
    requires Recorded(facts) && PlainFacts(facts) && HeadsShow(facts, input)
    requires Points(facts, input.ref, head, ResultEntity(r))
    ensures o in input.observations && r == HashResult(o, input.snapshot)
  {
    OnlyHeadsPoint(facts, input.ref, head, r);
    assert HeadShows(facts, input, head);
    o :| o in input.observations && HeadOf(input, o) == head
      && Values(facts, head, ResultOf) == [To(ResultEntity(ResultIdOf(input, o)))];
  }

  lemma ObservedIsPointedAt(facts: seq<Fact>, input: Input, o: Observation)
    requires Recorded(facts) && HeadsShow(facts, input) && DistinctSubjects(input.observations)
    requires o in input.observations
    ensures var e := ResultEntity(HashResult(o, input.snapshot));
      Known(facts, e) && Points(facts, input.ref, HeadOf(input, o), e)
  {
    var head, e := HeadOf(input, o), ResultEntity(HashResult(o, input.snapshot));
    assert HeadShows(facts, input, head);
    var p :| p in input.observations && HeadOf(input, p) == head
      && Values(facts, head, ResultOf) == [To(ResultEntity(ResultIdOf(input, p)))];
    var i :| 0 <= i < |input.observations| && input.observations[i] == o;
    var j :| 0 <= j < |input.observations| && input.observations[j] == p;
    assert i == j;
    HolderIsKnown(facts, head, ResultOf, To(e));
    assert HeadIsRecorded(facts, head) && HeadSays(facts, head) && IsTarget(facts, head, To(e));
  }

  lemma OnlyResultsAreInvalid(facts: seq<Fact>, e: Entity)
    requires Recorded(facts) && PlainFacts(facts) && Holds(facts, e, ValidOf, Flag(false))
    ensures e.ResultEntity? && Known(facts, e) && ResultSays(facts, e.result)
  {
    HolderCanHold(facts, e, ValidOf, Flag(false));
    KnownResultSays(facts, e.result);
  }

  lemma LastInvalidWasFound(facts: seq<Fact>, input: Input, row: InvalidRow)
    requires Recorded(facts) && PlainFacts(facts) && HeadsShow(facts, input) && LastInvalid(facts, input.ref, row)
    ensures FoundInvalid(input, row)
  {
    OnlyResultsAreInvalid(facts, row.result);
    var head :| Points(facts, input.ref, head, row.result);
    var o := PointedAtIsObserved(facts, input, head, row.result.result);
    ResultAnswersIff(facts, row.result.result, row);
    assert IsFoundAs(input, o, row);
  }

  lemma FoundIsLastInvalid(facts: seq<Fact>, input: Input, row: InvalidRow)
    requires Recorded(facts) && HeadsShow(facts, input) && DistinctSubjects(input.observations)
    requires FoundInvalid(input, row)
    ensures LastInvalid(facts, input.ref, row)
  {
    var o :| IsFoundAs(input, o, row);
    ObservedIsPointedAt(facts, input, o);
    KnownResultSays(facts, HashResult(o, input.snapshot));
    ResultAnswersIff(facts, HashResult(o, input.snapshot), row);
  }

  /** The last invalid results of a ref are those of the subjects observed with issues. */
  lemma LastInvalidIff(facts: seq<Fact>, input: Input, row: InvalidRow)
    requires Recorded(facts) && PlainFacts(facts) && HeadsShow(facts, input) && DistinctSubjects(input.observations)
    ensures LastInvalid(facts, input.ref, row) <==> FoundInvalid(input, row)
  {
    if LastInvalid(facts, input.ref, row) {
      LastInvalidWasFound(facts, input, row);
    } else if FoundInvalid(input, row) {
      FoundIsLastInvalid(facts, input, row);
    }
  }

  // ---- Violations ---------------------------------------------------------------------------

  function ViolationRowOf(v: ViolationId): ViolationRow {
    var o := v.result.observation;
    ViolationRow(ViolationEntity(v), ResultEntity(v.result), To(o.subject), Text(o.entityType), Text(v.issue.code),
                 Text(v.issue.path), Text(v.issue.message))
  }

  /** The row tells the k-th issue of the result. */
  predicate TellsIssue(r: ResultId, k: nat, row: ViolationRow) {
    k < |r.observation.issues| && row == ViolationRowOf(HashViolation(r, k, r.observation.issues[k]))
  }

  lemma ViolationTellsItsIssue(facts: seq<Fact>, v: ViolationId, code: Value, path: Value, message: Value)
    requires ViolationSays(facts, v)
    ensures var e := ViolationEntity(v);
      Holds(facts, e, CodeOf, code) && Holds(facts, e, PathOf, path) && Holds(facts, e, MessageOf, message)
      <==> code == Text(v.issue.code) && path == Text(v.issue.path) && message == Text(v.issue.message)
  {
    HoldsOne(facts, ViolationEntity(v), CodeOf, Text(v.issue.code), code);
    HoldsOne(facts, ViolationEntity(v), PathOf, Text(v.issue.path), path);
    HoldsOne(facts, ViolationEntity(v), MessageOf, Text(v.issue.message), message);
  }

  lemma ViolationTellsItsResult(facts: seq<Fact>, v: ViolationId, result: Entity, subject: Value)
    requires ViolationSays(facts, v)
    ensures var e := ViolationEntity(v);
      Holds(facts, e, ResultOf, To(result)) && Holds(facts, e, SubjectOf, subject)
      <==> result == ResultEntity(v.result) && subject == To(v.result.observation.subject)
  {
    HoldsOne(facts, ViolationEntity(v), ResultOf, To(ResultEntity(v.result)), To(result));
    HoldsOne(facts, ViolationEntity(v), SubjectOf, To(v.result.observation.subject), subject);
  }

  lemma ResultTellsItsType(facts: seq<Fact>, r: ResultId, entityType: Value)
    requires ResultSays(facts, r)
    ensures Holds(facts, ResultEntity(r), EntityTypeOf, entityType) <==> entityType == Text(r.observation.entityType)
  {
    HoldsOne(facts, ResultEntity(r), EntityTypeOf, Text(r.observation.entityType), entityType);
  }

  lemma ViolationAnswers(facts: seq<Fact>, v: ViolationId, row: ViolationRow)
    requires ViolationSays(facts, v) && ResultSays(facts, v.result) && row.violation == ViolationEntity(v)
    ensures IsViolationRow(facts, row) <==> row == ViolationRowOf(v)
  {
    ViolationTellsItsIssue(facts, v, row.code, row.path, row.message);
    ViolationTellsItsResult(facts, v, row.result, row.subject);
    ResultTellsItsType(facts, v.result, row.entityType);
  }

  lemma KnownViolationSays(facts: seq<Fact>, v: ViolationId)
    requires Recorded(facts) && Known(facts, ViolationEntity(v))
    ensures ViolationSays(facts, v) && ResultSays(facts, v.result)
  {
    assert ViolationIsRecorded(facts, v);
    KnownResultSays(facts, v.result);
  }

  lemma OnlyViolationsHaveCodes(facts: seq<Fact>, e: Entity, code: Value)
    requires Recorded(facts) && PlainFacts(facts) && Holds(facts, e, CodeOf, code)
    ensures e.ViolationEntity? && Known(facts, e)
  {
    HolderCanHold(facts, e, CodeOf, code);
  }

  lemma RowTellsAnIssue(facts: seq<Fact>, r: ResultId, row: ViolationRow) returns (k: nat)
    requires Recorded(facts) && PlainFacts(facts) && Known(facts, ResultEntity(r))
    requires IsViolationRow(facts, row) && row.result == ResultEntity(r)
    ensures TellsIssue(r, k, row)
  {
    OnlyViolationsHaveCodes(facts, row.violation, row.code);
    var v := row.violation.violation;
    KnownViolationSays(facts, v);
    ViolationAnswers(facts, v, row);
    RecordedViolations(facts, r, v);
    k := v.index;
  }

  lemma IssueIsTold(facts: seq<Fact>, r: ResultId, k: nat, row: ViolationRow)
    requires Recorded(facts) && Known(facts, ResultEntity(r)) && TellsIssue(r, k, row)
    ensures IsViolationRow(facts, row) && row.result == ResultEntity(r)
  {
    var v := HashViolation(r, k, r.observation.issues[k]);
    RecordedViolations(facts, r, v);
    KnownViolationSays(facts, v);
    ViolationAnswers(facts, v, row);
  }

  /** The violations of a known result are one row for each of its issues, in full. */
  lemma ViolationsTellTheIssues(facts: seq<Fact>, r: ResultId, row: ViolationRow)
    requires Recorded(facts) && PlainFacts(facts) && Known(facts, ResultEntity(r))
    ensures IsViolationRow(facts, row) && row.result == ResultEntity(r)
      <==> exists k: nat {:trigger TellsIssue(r, k, row)} :: TellsIssue(r, k, row)
  {
    if IsViolationRow(facts, row) && row.result == ResultEntity(r) {
      var k := RowTellsAnIssue(facts, r, row);
    } else if k: nat :| TellsIssue(r, k, row) {
      IssueIsTold(facts, r, k, row);
    }
  }

  // ---- Ever invalid ---------------------------------------------------------------------------

  /** A known result of the subject with issues. */
  ghost predicate HasInvalidResult(facts: seq<Fact>, subject: Entity, r: ResultId) {
    Known(facts, ResultEntity(r)) && r.observation.subject == subject && r.observation.issues != []
  }

  lemma InvalidSubjectHasAResult(facts: seq<Fact>, result: Entity, subject: Entity)
    requires Recorded(facts) && PlainFacts(facts) && IsInvalidSubject(facts, result, To(subject))
    ensures result.ResultEntity? && HasInvalidResult(facts, subject, result.result)
  {
    HolderCanHold(facts, result, ValidOf, Flag(false));
    var r := result.result;
    KnownResultSays(facts, r);
    HoldsOne(facts, result, ValidOf, Flag(|r.observation.issues| == 0), Flag(false));
    HoldsOne(facts, result, SubjectOf, To(r.observation.subject), To(subject));
  }

  lemma InvalidResultIsFound(facts: seq<Fact>, subject: Entity, r: ResultId)
    requires Recorded(facts) && HasInvalidResult(facts, subject, r)
    ensures IsInvalidSubject(facts, ResultEntity(r), To(subject))
  {
    KnownResultSays(facts, r);
    HoldsOne(facts, ResultEntity(r), ValidOf, Flag(|r.observation.issues| == 0), Flag(false));
    HoldsOne(facts, ResultEntity(r), SubjectOf, To(r.observation.subject), To(subject));
  }

  lemma EverInvalidIff(facts: seq<Fact>, subject: Entity)
    requires Recorded(facts) && PlainFacts(facts)
    ensures EverInvalid(facts, To(subject))
      <==> exists r {:trigger HasInvalidResult(facts, subject, r)} :: HasInvalidResult(facts, subject, r)
  {
    if result :| IsInvalidSubject(facts, result, To(subject)) {
      InvalidSubjectHasAResult(facts, result, subject);
    } else if r :| HasInvalidResult(facts, subject, r) {
      InvalidResultIsFound(facts, subject, r);
    }
  }
}
