/** A revalidation of any ref, at any reading of a clock that has not stepped back, is possible. */
module EntityValidationProgress {
  import opened Wrappers
  import opened Seqs
  import opened EntityValidation
  import opened ConsumerCheckpoint
  import opened EntityValidationProofs
  import opened EntityValidationStore
  import opened EntityValidationMachine
  import opened EntityValidationRaces

  function Blank(n: nat): (name: string)
    ensures |name| == n
  {
    if n == 0 then "" else Blank(n - 1) + " "
  }

  /** As many ids as asked for, each longer than the one before. */
  function Blanks(length: nat, n: nat): (ids: seq<string>)
    ensures |ids| == n && forall k :: 0 <= k < n ==> ids[k] == Blank(length + k)
  {
    if n == 0 then [] else Blanks(length, n - 1) + [Blank(length + n - 1)]
  }

  lemma BlanksAreDistinct(length: nat, n: nat)
    ensures NoDuplicates(Blanks(length, n)) && forall id :: id in Blanks(length, n) ==> length <= |id| < length + n
  {
    forall i, j | 0 <= i < j < n ensures Blanks(length, n)[i] != Blanks(length, n)[j] {
      assert |Blanks(length, n)[i]| != |Blanks(length, n)[j]|;
    }
  }

  function LongerThanAll(facts: seq<Fact>): (length: nat)
    ensures forall f :: f in facts ==> |f.id| < length
  {
    if facts == [] then 0
    else
      var rest := LongerThanAll(facts[1..]);
      if |facts[0].id| < rest then rest else |facts[0].id| + 1
  }

  function AfterEntities(rows: seq<Row>): (position: nat)
    ensures forall row :: row in rows && row.fact.entity.TransactionEntity? ==> row.fact.entity.position < position
  {
    if rows == [] then 0
    else
      var rest := AfterEntities(rows[1..]);
      if rows[0].fact.entity.TransactionEntity? && rows[0].fact.entity.position >= rest
      then rows[0].fact.entity.position + 1 else rest
  }

  function AfterJournal(journal: seq<Transaction>): (position: nat)
    ensures position > 0 && forall t :: t in journal ==> t.position < position
  {
    if journal == [] then 1
    else
      var rest := AfterJournal(journal[1..]);
      if journal[0].position < rest then rest else journal[0].position + 1
  }

  lemma BlanksAreGenerated(seen: seq<Fact>, facts: seq<Fact>, input: Input, length: nat)
    requires length == LongerThanAll(facts) && forall f :: f in seen ==> f in facts
    ensures Generated(facts, Plan(seen, input), Blanks(length, |Plan(seen, input)|))
  {
    var plan := Plan(seen, input);
    var ids := Blanks(length, |plan|);
    BlanksAreDistinct(length, |plan|);
    forall id | id in ids ensures RetractOp(id) !in plan {
      if RetractOp(id) in plan {
        var f := RetractedFactsWereSeen(seen, input, id);
      }
    }
  }

  function JournalAt(id: string, position: nat, at: int): seq<Row> {
    [Row(Fact(id, TransactionEntity(position), SourceOf(":_tx/position"), Number(position)), Some(TRANSACTION_TYPE),
      at, None)]
  }

  lemma RowIdsAreShort(rows: seq<Row>, row: Row)
    requires row in rows
    ensures |row.fact.id| < LongerThanAll(Facts(rows))
  {
    var i :| 0 <= i < |rows| && rows[i] == row;
    assert Facts(rows)[i] in Facts(rows);
  }

  lemma OneRowJournals(rows: seq<Row>, ids: seq<string>, id: string, position: nat, at: int)
    requires id !in ids && forall row :: row in rows ==> row.fact.id != id
    requires forall row :: row in rows ==> row.fact.entity != TransactionEntity(position)
    ensures Journals(rows, ids, JournalAt(id, position, at), position, at)
  {
  }

  lemma LaterPositions(journal: seq<Transaction>, position: nat, actor: Option<string>)
    requires Ordered(journal) && position >= AfterJournal(journal)
    ensures Ordered(journal + [Transaction(position, actor)])
  {
    forall i | 0 <= i < |journal| ensures journal[i].position < position {
      assert journal[i] in journal;
    }
  }

  lemma SomeIds(seen: seq<Fact>, rows: seq<Row>, input: Input, plan: seq<Op>) returns (ids: seq<string>, spare: string)
    requires plan == Plan(seen, input) && forall f :: f in seen ==> f in Facts(rows)
    ensures Generated(Facts(rows), plan, ids) && spare !in ids && forall row :: row in rows ==> row.fact.id != spare
  {
    var length := LongerThanAll(Facts(rows));
    ids, spare := Blanks(length, |plan|), Blank(length + |plan|);
    BlanksAreGenerated(seen, Facts(rows), input, length);
    BlanksAreDistinct(length, |plan|);
    forall row | row in rows ensures row.fact.id != spare {
      RowIdsAreShort(rows, row);
    }
  }

  lemma SomeJournal(rows: seq<Row>, journal: seq<Transaction>, ids: seq<string>, spare: string, at: int)
      returns (written: seq<Row>, position: nat)
    requires Ordered(journal) && spare !in ids && forall row :: row in rows ==> row.fact.id != spare
    ensures Journals(rows, ids, written, position, at) && Ordered(journal + [Transaction(position, VALIDATOR)])
  {
    position := AfterEntities(rows) + AfterJournal(journal);
    written := JournalAt(spare, position, at);
    OneRowJournals(rows, ids, spare, position, at);
    LaterPositions(journal, position, VALIDATOR);
  }

  /** Whatever the store, a revalidation can be committed at any reading of a clock that has not stepped back. */
  lemma RevalidationIsPossible(schemas: Schemas, store: Store, ref: string, snapshot: Snapshot,
                               now: int) returns (step: Step)
    requires Seasoned(store.rows, store.clock) && Ordered(store.journal) && store.clock <= now
    ensures step.Revalidate? && step.ref == ref && step.snapshot == snapshot && step.now == step.at == now
    ensures Enabled(schemas, store, step)
  {
    var input, plan := InputOf(schemas, store, ref, snapshot, now), PlanOf(schemas, store, ref, snapshot, now);
    PlanOfAllFacts(schemas, store, ref, snapshot, now);
    var ids, spare := SomeIds(Facts(store.rows), store.rows, input, plan);
    var journal, position := SomeJournal(store.rows, store.journal, ids, spare, now);
    step := Revalidate(ref, snapshot, now, now, ids, position, journal);
  }

  lemma MovedPositionWasSeen(seen: seq<Fact>, consumer: string, next: nat, id: string) returns (f: Fact)
    requires RetractOp(id) in AdvanceOps(seen, consumer, next)
    ensures f in seen && f.id == id
  {
    var rows := Rows(seen, ConsumerEntity(consumer), POSITION_OF);
    assert RetractOp(id) in Retractions(rows);
    f :| f in rows && RetractOf()(f) == RetractOp(id);
  }

  lemma AdvanceIds(seen: seq<Fact>, facts: seq<Fact>, consumer: string, next: nat,
                   ops: seq<Op>) returns (ids: seq<string>)
    requires ops == AdvanceOps(seen, consumer, next) && forall f :: f in seen ==> f in facts
    ensures Generated(facts, ops, ids)
  {
    var length := LongerThanAll(facts);
    ids := Blanks(length, |ops|);
    BlanksAreDistinct(length, |ops|);
    forall id | RetractOp(id) in ops ensures id !in ids {
      var f := MovedPositionWasSeen(seen, consumer, next, id);
    }
  }

  /** Nor does anything else in the store keep a consumer from a movement it may make. */
  lemma AdvanceIsPossible(schemas: Schemas, store: Store, consumer: string, next: nat, now: int) returns (step: Step)
    requires store.clock <= now && MayAdvance(Seen(store.rows, now), consumer, next)
    ensures step.Advance? && step.consumer == consumer && step.next == next && step.now == step.at == now
    ensures Enabled(schemas, store, step)
  {
    var seen := Seen(store.rows, now);
    SeenAreFacts(store.rows, now);
    var ids := AdvanceIds(seen, Facts(store.rows), consumer, next, AdvanceOps(seen, consumer, next));
    step := Advance(consumer, next, now, now, ids);
  }
}
