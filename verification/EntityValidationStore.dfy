/**
 * The store a revalidation reads and writes: facts with an entity type and an
 * interval of valid time, of which a read sees those valid at its instant.
 */
module EntityValidationStore {
  import opened Wrappers
  import opened Seqs
  import opened EntityValidation
  import opened EntityValidationProofs
  import opened EntityValidationRuns
  import opened EntityValidationHealth

  /** A live row: the fact, the type its entity was given with it, and when it is valid. */
  datatype Row = Row(fact: Fact, entityType: Option<string>, validFrom: int, validTo: Option<int>)

  const RESULT_TYPE := "triplex.validation-result"
  const VIOLATION_TYPE := "triplex.validation-violation"
  const HEAD_TYPE := "triplex.validation-head"
  const RUN_TYPE := "triplex.validation-run"
  const CHECKPOINT_TYPE := "triplex.validation-checkpoint"
  const TRANSACTION_TYPE := "_Transaction"
  const CONSUMER_TYPE := "triplex.consumer-checkpoint"

  /** The types given by the projector's operations and by the journal. */
  predicate IsReserved(entityType: string) {
    || entityType == RESULT_TYPE || entityType == VIOLATION_TYPE || entityType == HEAD_TYPE
    || entityType == RUN_TYPE || entityType == CHECKPOINT_TYPE || entityType == TRANSACTION_TYPE
  }

  /** Those, and the type of what is written without a journal. */
  predicate IsWrittenType(entityType: string) {
    IsReserved(entityType) || entityType == CONSUMER_TYPE
  }

  /** The type under which the system asserts facts of an entity. */
  function TypeOf(entity: Entity): string {
    match entity
    case ResultEntity(_) => RESULT_TYPE
    case ViolationEntity(_) => VIOLATION_TYPE
    case HeadEntity(_, _, _) => HEAD_TYPE
    case RunEntity(_) => RUN_TYPE
    case CheckpointEntity(_) => CHECKPOINT_TYPE
    case ConsumerEntity(_) => CONSUMER_TYPE
    case _ => TRANSACTION_TYPE
  }

  function Facts(rows: seq<Row>): (facts: seq<Fact>)
    ensures |facts| == |rows| && forall i :: 0 <= i < |rows| ==> facts[i] == rows[i].fact
  {
    if rows == [] then [] else [rows[0].fact] + Facts(rows[1..])
  }

  function ValidAt(now: int): Row -> bool {
    (row: Row) => row.validFrom <= now && (row.validTo.None? || now < row.validTo.value)
  }

  /** What a read at an instant sees. */
  function Visible(rows: seq<Row>, now: int): seq<Row> {
    Filter(ValidAt(now), rows)
  }

  function Seen(rows: seq<Row>, now: int): seq<Fact> {
    Facts(Visible(rows, now))
  }

  lemma SeenAreFacts(rows: seq<Row>, now: int)
    ensures forall f :: f in Seen(rows, now) ==> f in Facts(rows)
  {
    forall f | f in Seen(rows, now) ensures f in Facts(rows) {
      var visible := Visible(rows, now);
      var i :| 0 <= i < |visible| && Facts(visible)[i] == f;
      assert visible[i] in rows;
      var j :| 0 <= j < |rows| && rows[j] == visible[i];
      assert Facts(rows)[j] == f;
    }
  }

  // ---- Own and foreign rows -------------------------------------------------

  function IsOwn(): Row -> bool {
    (row: Row) => IsValidatorEntity(row.fact.entity)
  }

  function IsForeign(): Row -> bool {
    (row: Row) => !IsValidatorEntity(row.fact.entity)
  }

  function Own(rows: seq<Row>): seq<Row> {
    Filter(IsOwn(), rows)
  }

  function Foreign(rows: seq<Row>): seq<Row> {
    Filter(IsForeign(), rows)
  }

  function IsOwnFact(): Fact -> bool {
    (f: Fact) => IsValidatorEntity(f.entity)
  }

  function OwnFacts(facts: seq<Fact>): seq<Fact> {
    Filter(IsOwnFact(), facts)
  }

  lemma {:induction false} FilterFacts(p: Row -> bool, q: Fact -> bool, rows: seq<Row>)
    requires forall row :: row in rows ==> p(row) == q(row.fact)
    ensures Filter(q, Facts(rows)) == Facts(Filter(p, rows))
  {
    if rows != [] {
      FilterFacts(p, q, rows[1..]);
      if p(rows[0]) {
        assert Filter(p, rows)[1..] == Filter(p, rows[1..]);
      }
    }
  }

  // ---- A plan reads the projector's own facts only --------------------------

  lemma OwnDecidesRows(a: seq<Fact>, b: seq<Fact>, e: Entity, attribute: Attribute)
    requires OwnFacts(a) == OwnFacts(b) && IsValidatorEntity(e)
    ensures Rows(a, e, attribute) == Rows(b, e, attribute)
  {
    FilterTwice(IsOwnFact(), At(e, attribute), At(e, attribute), a);
    FilterTwice(IsOwnFact(), At(e, attribute), At(e, attribute), b);
  }

  lemma OwnDecidesKnown(a: seq<Fact>, b: seq<Fact>, e: Entity)
    requires OwnFacts(a) == OwnFacts(b) && IsValidatorEntity(e)
    ensures Known(a, e) == Known(b, e)
  {
    assert Known(a, e) ==> Known(OwnFacts(a), e);
    assert Known(b, e) ==> Known(OwnFacts(b), e);
  }

  lemma {:induction false} OwnDecidesViolations(a: seq<Fact>, b: seq<Fact>, input: Input, o: Observation, k: nat)
    requires OwnFacts(a) == OwnFacts(b) && k <= |o.issues|
    ensures NewViolations(a, input, o, k) == NewViolations(b, input, o, k)
  {
    if k > 0 {
      OwnDecidesViolations(a, b, input, o, k - 1);
      OwnDecidesKnown(a, b, ViolationEntity(ViolationAt(input, o, k - 1)));
    }
  }

  lemma OwnDecidesObserve(a: seq<Fact>, b: seq<Fact>, input: Input, o: Observation)
    requires OwnFacts(a) == OwnFacts(b)
    ensures Observe(a, input, o) == Observe(b, input, o)
  {
    OwnDecidesViolations(a, b, input, o, |o.issues|);
    OwnDecidesKnown(a, b, ResultEntity(ResultIdOf(input, o)));
    OwnDecidesRows(a, b, HeadOf(input, o), RefOf);
    OwnDecidesRows(a, b, HeadOf(input, o), ResultOf);
  }

  lemma {:induction false} OwnDecidesObserveAll(a: seq<Fact>, b: seq<Fact>, input: Input,
                                                observations: seq<Observation>)
    requires OwnFacts(a) == OwnFacts(b)
    ensures ObserveAll(a, input, observations) == ObserveAll(b, input, observations)
  {
    if observations != [] {
      OwnDecidesObserveAll(a, b, input, observations[..|observations| - 1]);
      OwnDecidesObserve(a, b, input, observations[|observations| - 1]);
    }
  }

  lemma OwnDecidesRefHeads(a: seq<Fact>, b: seq<Fact>, ref: string)
    requires OwnFacts(a) == OwnFacts(b)
    ensures RefHeads(a, ref) == RefHeads(b, ref)
  {
    FilterTwice(IsOwnFact(), IsHeadFact(), IsHeadFact(), a);
    FilterTwice(IsOwnFact(), IsHeadFact(), IsHeadFact(), b);
    var heads := Distinct(Map(EntityOf(), Filter(IsHeadFact(), a)));
    forall head | head in heads ensures HeadsOfRef(a, ref)(head) == HeadsOfRef(b, ref)(head) {
      OwnDecidesRows(a, b, head, RefOf);
    }
    FilterPointwise(HeadsOfRef(a, ref), HeadsOfRef(b, ref), heads);
  }

  lemma {:induction false} OwnDecidesCleared(a: seq<Fact>, b: seq<Fact>, input: Input, heads: seq<Entity>)
    requires OwnFacts(a) == OwnFacts(b) && forall head :: head in heads ==> head.HeadEntity?
    ensures ClearInactive(a, input, heads) == ClearInactive(b, input, heads)
  {
    if heads != [] {
      OwnDecidesCleared(a, b, input, heads[..|heads| - 1]);
      OwnDecidesRows(a, b, heads[|heads| - 1], ResultOf);
    }
  }

  lemma OwnDecidesCheckpoint(a: seq<Fact>, b: seq<Fact>, input: Input)
    requires OwnFacts(a) == OwnFacts(b)
    ensures MoveCheckpoint(a, input) == MoveCheckpoint(b, input)
  {
    var checkpoint := CheckpointEntity(input.ref);
    OwnDecidesRows(a, b, checkpoint, ResultOf);
    OwnDecidesRows(a, b, checkpoint, SnapshotOf);
    OwnDecidesRows(a, b, checkpoint, SourcePositionOf);
    OwnDecidesKnown(a, b, checkpoint);
  }

  lemma RefHeadsAreHeads(facts: seq<Fact>, ref: string)
    ensures forall head :: head in RefHeads(facts, ref) ==> head.HeadEntity?
  {
  }

  /** Stores with the same facts of the projector's own get the same plan for the same input. */
  lemma OwnFactsDecidePlans(a: seq<Fact>, b: seq<Fact>, input: Input)
    requires OwnFacts(a) == OwnFacts(b)
    ensures Plan(a, input) == Plan(b, input)
  {
    OwnDecidesObserveAll(a, b, input, input.observations);
    OwnDecidesRefHeads(a, b, input.ref);
    RefHeadsAreHeads(a, input.ref);
    OwnDecidesCleared(a, b, input, RefHeads(a, input.ref));
    OwnDecidesKnown(a, b, RunEntity(RunIdOf(input)));
    OwnDecidesCheckpoint(a, b, input);
  }

  // ---- Committing a plan --------------------------------------------------

  function KeptRow(ops: seq<Op>): Row -> bool {
    (row: Row) => RetractOp(row.fact.id) !in ops
  }

  function Stamp(at: int): Fact -> Row {
    (f: Fact) => Row(f, Some(TypeOf(f.entity)), at, None)
  }

  /** The rows after the operations: the retracted ones gone, each assertion valid from the commit's instant on. */
  function Written(rows: seq<Row>, ops: seq<Op>, ids: seq<string>, at: int): seq<Row>
    requires |ids| == |ops|
  {
    Filter(KeptRow(ops), rows) + Map(Stamp(at), Created(ops, ids))
  }

  lemma FactsConcat(a: seq<Row>, b: seq<Row>)
    ensures Facts(a + b) == Facts(a) + Facts(b)
  {
  }

  lemma WrittenFacts(rows: seq<Row>, ops: seq<Op>, ids: seq<string>, at: int)
    requires Generated(Facts(rows), ops, ids)
    ensures Facts(Written(rows, ops, ids, at)) == ApplyOps(Facts(rows), ops, ids)
  {
    AppliedIsKeptAndCreated(Facts(rows), ops, ids);
    FilterFacts(KeptRow(ops), KeptBy(ops), rows);
    FactsConcat(Filter(KeptRow(ops), rows), Map(Stamp(at), Created(ops, ids)));
    assert Facts(Map(Stamp(at), Created(ops, ids))) == Created(ops, ids);
  }
}
