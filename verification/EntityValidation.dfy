/**
 * The validation projector: what it takes as the source position, and the
 * operations by which it moves heads, runs and the checkpoint of a ref.
 */
module EntityValidation {
  import opened Wrappers
  import opened Seqs

  // ---- The journal --------------------------------------------------------

  datatype Transaction = Transaction(position: nat, actor: Option<string>)

  datatype JournalPage = JournalPage(transactions: seq<Transaction>, next: Option<nat>)

  const VALIDATOR := Some("triplex/entity-validation")
  const PAGE_LIMIT := 1000

  /** Positions start after zero and ascend. */
  ghost predicate Ordered(journal: seq<Transaction>) {
    && (forall i :: 0 <= i < |journal| ==> journal[i].position > 0)
    && (forall i, j :: 0 <= i < j < |journal| ==> journal[i].position < journal[j].position)
  }

  function After(position: nat): Transaction -> bool {
    (t: Transaction) => t.position > position
  }

  function Transactions(journal: seq<Transaction>, after: nat, limit: nat): JournalPage {
    var rest := Filter(After(after), journal);
    var page := if limit >= |rest| then rest else rest[..limit];
    JournalPage(page, if page == [] then None else Some(page[|page| - 1].position))
  }

  /** The position of the last transaction the validator did not write, or zero. */
  function LastSource(journal: seq<Transaction>): nat {
    if journal == [] then 0
    else if journal[|journal| - 1].actor != VALIDATOR then journal[|journal| - 1].position
    else LastSource(journal[..|journal| - 1])
  }

  lemma {:induction false} LastSourceIsLast(journal: seq<Transaction>)
    requires Ordered(journal)
    ensures forall t :: t in journal && t.actor != VALIDATOR ==> t.position <= LastSource(journal)
    ensures LastSource(journal) == 0 || exists t ::
      t in journal && t.actor != VALIDATOR && t.position == LastSource(journal)
  {
    if journal != [] {
      var init, last := journal[..|journal| - 1], journal[|journal| - 1];
      assert journal == init + [last];
      LastSourceIsLast(init);
      if last.actor != VALIDATOR {
        assert last in journal;
      }
    }
  }

  /** A transaction of the validator's own does not move the source position. */
  lemma ValidatorWritesAreNotSource(journal: seq<Transaction>, position: nat)
    ensures LastSource(journal + [Transaction(position, VALIDATOR)]) == LastSource(journal)
  {
    assert (journal + [Transaction(position, VALIDATOR)])[..|journal|] == journal;
  }

  lemma ReadAlready(journal: seq<Transaction>, k: nat, after: nat)
    requires Ordered(journal) && k <= |journal| && after == if k == 0 then 0 else journal[k - 1].position
    ensures forall t :: t in journal[..k] ==> t.position <= after
  {
    assert forall i :: 0 <= i < k - 1 ==> journal[i].position < journal[k - 1].position;
  }

  lemma NotYetRead(journal: seq<Transaction>, k: nat, after: nat)
    requires Ordered(journal) && k <= |journal| && after == if k == 0 then 0 else journal[k - 1].position
    ensures forall t :: t in journal[k..] ==> t.position > after
  {
  }

  lemma RestOfJournal(journal: seq<Transaction>, k: nat, after: nat)
    requires Ordered(journal) && k <= |journal| && after == if k == 0 then 0 else journal[k - 1].position
    ensures Filter(After(after), journal) == journal[k..]
  {
    assert journal == journal[..k] + journal[k..];
    FilterConcat(After(after), journal[..k], journal[k..]);
    ReadAlready(journal, k, after);
    FilterNone(After(after), journal[..k]);
    NotYetRead(journal, k, after);
    FilterAll(After(after), journal[k..]);
  }

  lemma NextJournalPage(journal: seq<Transaction>, k: nat, after: nat, limit: nat, page: JournalPage)
    requires Ordered(journal) && k <= |journal| && after == if k == 0 then 0 else journal[k - 1].position
    requires limit > 0 && page == Transactions(journal, after, limit)
    ensures var n := k + |page.transactions|;
      && n <= |journal| && page.transactions == journal[k..n] && (|page.transactions| < limit ==> n == |journal|)
      && page.next == (if n == k then None else Some(journal[n - 1].position)) && (n > k ==> page.next.value > after)
  {
    RestOfJournal(journal, k, after);
  }

  /** The inner loop, over one page of transactions. */
  method LatestInPage(transactions: seq<Transaction>, before: nat,
                      ghost earlier: seq<Transaction>) returns (latest: nat)
    requires before == LastSource(earlier)
    ensures latest == LastSource(earlier + transactions)
  {
    latest := before;
    assert earlier + transactions[..0] == earlier;
    for i := 0 to |transactions|
      invariant latest == LastSource(earlier + transactions[..i])
    {
      assert (earlier + transactions[..i + 1])[..|earlier| + i] == earlier + transactions[..i];
      if transactions[i].actor != VALIDATOR {
        latest := transactions[i].position;
      }
    }
    assert transactions[..|transactions|] == transactions;
  }

  /** Paging through a journal of any length finds its last source position. */
  method LatestSourcePosition(journal: seq<Transaction>) returns (latest: nat)
    requires Ordered(journal)
    ensures latest == LastSource(journal)
  {
    var after := 0;
    latest := 0;
    ghost var k := 0;
    while true
      invariant k <= |journal| && after == if k == 0 then 0 else journal[k - 1].position
      invariant latest == LastSource(journal[..k])
      decreases |journal| - k
    {
      var page := Transactions(journal, after, PAGE_LIMIT);
      NextJournalPage(journal, k, after, PAGE_LIMIT, page);
      latest := LatestInPage(page.transactions, latest, journal[..k]);
      ghost var n := k + |page.transactions|;
      assert journal[..k] + journal[k..n] == journal[..n];
      if page.next.None? || page.next.value <= after || |page.transactions| < PAGE_LIMIT {
        assert n == |journal| && journal[..n] == journal;
        return;
      }
      k := n;
      after := page.next.value;
    }
  }

  // ---- Facts and content-addressed entities -------------------------------

  datatype Issue = Issue(code: string, path: string, message: string, constraintKey: Option<string>)

  /** What validating one entity of a defined type found. */
  datatype Observation = Observation(
    entityType: string,
    subject: Entity,
    schemaId: string,
    stateCid: string,
    issues: seq<Issue>)

  datatype Snapshot = Snapshot(id: string, rootCid: string)

  datatype ResultId = HashResult(observation: Observation, snapshot: Snapshot)

  datatype ViolationId = HashViolation(result: ResultId, index: nat, issue: Issue)

  datatype RunId = HashRun(ref: string, rootCid: string, sourcePosition: nat, results: seq<ResultId>)

  datatype Entity =
    | ResultEntity(result: ResultId)
    | ViolationEntity(violation: ViolationId)
    | RunEntity(run: RunId)
    | CheckpointEntity(ref: string)
    | HeadEntity(ref: string, entityType: string, subject: Entity)
    | SnapshotEntity(snapshot: string)
    | TransactionEntity(position: nat)
    | ConsumerEntity(name: string)
    | SourceEntity(name: string)

  datatype Attribute =
    | ContentIdOf | RefOf | ResultOf | RunRefOf | RunResultOf | SubjectOf | EntityTypeOf | SchemaOf | SnapshotOf
    | SnapshotRootOf | ValidOf | StateOf | SourcePositionOf | CodeOf | PathOf | MessageOf | ConstraintOf
    | SourceOf(name: string)

  datatype Value =
    | Text(text: string) | To(entity: Entity) | CidOf(entity: Entity) | Flag(flag: bool) | Number(number: int)

  datatype Fact = Fact(id: string, entity: Entity, attribute: Attribute, value: Value)

  datatype Op = AssertOp(entity: Entity, attribute: Attribute, value: Value) | RetractOp(id: string)

  predicate IsValidatorEntity(entity: Entity) {
    || entity.ResultEntity? || entity.ViolationEntity? || entity.RunEntity?
    || entity.CheckpointEntity? || entity.HeadEntity?
  }

  function At(entity: Entity, attribute: Attribute): Fact -> bool {
    (f: Fact) => f.entity == entity && f.attribute == attribute
  }

  function Rows(facts: seq<Fact>, entity: Entity, attribute: Attribute): seq<Fact> {
    Filter(At(entity, attribute), facts)
  }

  function ValueOf(): Fact -> Value {
    (f: Fact) => f.value
  }

  /** The live values of an attribute of an entity. */
  function Values(facts: seq<Fact>, entity: Entity, attribute: Attribute): seq<Value> {
    Map(ValueOf(), Rows(facts, entity, attribute))
  }

  predicate Holds(facts: seq<Fact>, entity: Entity, attribute: Attribute, value: Value) {
    value in Values(facts, entity, attribute)
  }

  predicate Known(facts: seq<Fact>, entity: Entity) {
    exists f :: f in facts && f.entity == entity
  }

  // ---- The plan of one revalidation ---------------------------------------

  /** Everything a revalidation of a ref reads besides the validator's own facts. */
  datatype Input = Input(ref: string, snapshot: Snapshot, sourcePosition: nat, observations: seq<Observation>)

  function ResultIdOf(input: Input, o: Observation): ResultId {
    HashResult(o, input.snapshot)
  }

  function HeadOf(input: Input, o: Observation): Entity {
    HeadEntity(input.ref, o.entityType, o.subject)
  }

  function RetractOf(): Fact -> Op {
    (f: Fact) => RetractOp(f.id)
  }

  function Retractions(rows: seq<Fact>): seq<Op> {
    Map(RetractOf(), rows)
  }

  function AssertResult(input: Input, o: Observation): seq<Op> {
    var e := ResultEntity(ResultIdOf(input, o));
    [AssertOp(e, ContentIdOf, CidOf(e)), AssertOp(e, SubjectOf, To(o.subject)),
     AssertOp(e, EntityTypeOf, Text(o.entityType)), AssertOp(e, SchemaOf, Text(o.schemaId)),
     AssertOp(e, SnapshotOf, To(SnapshotEntity(input.snapshot.id))),
     AssertOp(e, SnapshotRootOf, Text(input.snapshot.rootCid)),
     AssertOp(e, ValidOf, Flag(o.issues == [])), AssertOp(e, StateOf, Text(o.stateCid))]
  }

  function AssertViolation(id: ViolationId): seq<Op> {
    var e := ViolationEntity(id);
    [AssertOp(e, ContentIdOf, CidOf(e)), AssertOp(e, ResultOf, To(ResultEntity(id.result))),
     AssertOp(e, SubjectOf, To(id.result.observation.subject)), AssertOp(e, CodeOf, Text(id.issue.code)),
     AssertOp(e, PathOf, Text(id.issue.path)), AssertOp(e, MessageOf, Text(id.issue.message))]
    + if id.issue.constraintKey.None? then [] else [AssertOp(e, ConstraintOf, Text(id.issue.constraintKey.value))]
  }

  function ViolationAt(input: Input, o: Observation, index: nat): ViolationId
    requires index < |o.issues|
  {
    HashViolation(ResultIdOf(input, o), index, o.issues[index])
  }

  /** The first k violations of an observation, those not yet known. */
  function NewViolations(facts: seq<Fact>, input: Input, o: Observation, k: nat): seq<Op>
    requires k <= |o.issues|
  {
    if k == 0 then []
    else
      var id := ViolationAt(input, o, k - 1);
      NewViolations(facts, input, o, k - 1) + if Known(facts, ViolationEntity(id)) then [] else AssertViolation(id)
  }

  function NewResult(facts: seq<Fact>, input: Input, o: Observation): seq<Op> {
    if Known(facts, ResultEntity(ResultIdOf(input, o))) then [] else AssertResult(input, o)
  }

  predicate IsRefHead(facts: seq<Fact>, ref: string, head: Entity) {
    Holds(facts, head, RefOf, Text(ref))
  }

  /** The rows by which a head of the ref points at results. */
  function Targets(facts: seq<Fact>, ref: string, head: Entity): seq<Fact> {
    if IsRefHead(facts, ref, head) then Rows(facts, head, ResultOf) else []
  }

  predicate PointsAt(facts: seq<Fact>, input: Input, o: Observation) {
    To(ResultEntity(ResultIdOf(input, o))) in Map(ValueOf(), Targets(facts, input.ref, HeadOf(input, o)))
  }

  function AssertHead(input: Input, o: Observation): seq<Op> {
    var head := HeadOf(input, o);
    [AssertOp(head, RefOf, Text(input.ref)), AssertOp(head, SubjectOf, To(o.subject)),
     AssertOp(head, EntityTypeOf, Text(o.entityType))]
  }

  function MoveHead(facts: seq<Fact>, input: Input, o: Observation): seq<Op> {
    var head := HeadOf(input, o);
    if PointsAt(facts, input, o) then []
    else
      Retractions(Targets(facts, input.ref, head))
      + (if IsRefHead(facts, input.ref, head) then [] else AssertHead(input, o))
      + [AssertOp(head, ResultOf, To(ResultEntity(ResultIdOf(input, o))))]
  }

  function Observe(facts: seq<Fact>, input: Input, o: Observation): seq<Op> {
    NewViolations(facts, input, o, |o.issues|) + NewResult(facts, input, o) + MoveHead(facts, input, o)
  }

  function ObserveAll(facts: seq<Fact>, input: Input, observations: seq<Observation>): seq<Op> {
    if observations == [] then []
    else
      ObserveAll(facts, input, observations[..|observations| - 1])
      + Observe(facts, input, observations[|observations| - 1])
  }

  function EntityOf(): Fact -> Entity {
    (f: Fact) => f.entity
  }

  function IsHeadFact(): Fact -> bool {
    (f: Fact) => f.entity.HeadEntity?
  }

  function HeadsOfRef(facts: seq<Fact>, ref: string): Entity -> bool {
    (head: Entity) => IsRefHead(facts, ref, head)
  }

  /** The heads of a ref, in order of their first fact. */
  function RefHeads(facts: seq<Fact>, ref: string): seq<Entity> {
    Filter(HeadsOfRef(facts, ref), Distinct(Map(EntityOf(), Filter(IsHeadFact(), facts))))
  }

  function ActiveHeads(input: Input, observations: seq<Observation>): set<Entity> {
    set o | o in observations :: HeadOf(input, o)
  }

  function ClearInactive(facts: seq<Fact>, input: Input, heads: seq<Entity>): seq<Op> {
    if heads == [] then []
    else
      var head := heads[|heads| - 1];
      ClearInactive(facts, input, heads[..|heads| - 1])
      + if head in ActiveHeads(input, input.observations) then [] else Retractions(Rows(facts, head, ResultOf))
  }

  function ResultIds(input: Input, observations: seq<Observation>): seq<ResultId> {
    if observations == [] then []
    else ResultIds(input, observations[..|observations| - 1]) + [ResultIdOf(input, observations[|observations| - 1])]
  }

  function RunIdOf(input: Input): RunId {
    HashRun(input.ref, input.snapshot.rootCid, input.sourcePosition, ResultIds(input, input.observations))
  }

  function AssertRunResults(run: Entity, results: seq<ResultId>): seq<Op> {
    if results == [] then []
    else
      AssertRunResults(run, results[..|results| - 1])
      + [AssertOp(run, RunResultOf, To(ResultEntity(results[|results| - 1])))]
  }

  function AssertRun(input: Input): seq<Op> {
    var e := RunEntity(RunIdOf(input));
    [AssertOp(e, ContentIdOf, CidOf(e)), AssertOp(e, RunRefOf, Text(input.ref)),
     AssertOp(e, SnapshotOf, To(SnapshotEntity(input.snapshot.id))),
     AssertOp(e, SourcePositionOf, Number(input.sourcePosition))]
    + AssertRunResults(e, ResultIds(input, input.observations))
  }

  function NewRun(facts: seq<Fact>, input: Input): seq<Op> {
    if Known(facts, RunEntity(RunIdOf(input))) then [] else AssertRun(input)
  }

  predicate CheckpointIsCurrent(facts: seq<Fact>, input: Input) {
    var checkpoint := CheckpointEntity(input.ref);
    && Holds(facts, checkpoint, ResultOf, To(RunEntity(RunIdOf(input))))
    && Holds(facts, checkpoint, SnapshotOf, To(SnapshotEntity(input.snapshot.id)))
    && Holds(facts, checkpoint, SourcePositionOf, Number(input.sourcePosition))
  }

  function CheckpointRows(facts: seq<Fact>, ref: string): seq<Fact> {
    var checkpoint := CheckpointEntity(ref);
    Rows(facts, checkpoint, ResultOf) + Rows(facts, checkpoint, SnapshotOf) + Rows(facts, checkpoint, SourcePositionOf)
  }

  function TagCheckpoint(facts: seq<Fact>, ref: string): seq<Op> {
    if Known(facts, CheckpointEntity(ref)) then [] else [AssertOp(CheckpointEntity(ref), RefOf, Text(ref))]
  }

  function AssertCheckpoint(input: Input): seq<Op> {
    var checkpoint := CheckpointEntity(input.ref);
    [AssertOp(checkpoint, ResultOf, To(RunEntity(RunIdOf(input)))),
     AssertOp(checkpoint, SnapshotOf, To(SnapshotEntity(input.snapshot.id))),
     AssertOp(checkpoint, SourcePositionOf, Number(input.sourcePosition))]
  }

  function MoveCheckpoint(facts: seq<Fact>, input: Input): seq<Op> {
    if CheckpointIsCurrent(facts, input) then []
    else Retractions(CheckpointRows(facts, input.ref)) + TagCheckpoint(facts, input.ref) + AssertCheckpoint(input)
  }

  function Plan(facts: seq<Fact>, input: Input): seq<Op> {
    ObserveAll(facts, input, input.observations)
    + ClearInactive(facts, input, RefHeads(facts, input.ref))
    + NewRun(facts, input)
    + MoveCheckpoint(facts, input)
  }

  /** The loops visit each subject of each defined type once. */
  ghost predicate DistinctSubjects(observations: seq<Observation>) {
    forall i, j :: 0 <= i < j < |observations| ==>
      observations[i].entityType != observations[j].entityType || observations[i].subject != observations[j].subject
  }
}
