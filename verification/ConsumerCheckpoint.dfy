/**
 * How far a consumer of the transaction feed has come: a position moved by
 * compare-and-retract, in a transaction that the feed does not list.
 */
module ConsumerCheckpoint {
  import opened Wrappers
  import opened Seqs
  import opened EntityValidation
  import opened EntityValidationProofs
  import opened EntityValidationRuns
  import opened EntityValidationHealth

  const NAME_OF := SourceOf(":triplex/consumer-checkpoint-name")
  const POSITION_OF := SourceOf(":triplex/consumer-checkpoint-position")
  const MAX_NAME := 1024

  /** What is read has the shape of a checkpoint. */
  predicate IsLoaded(facts: seq<Fact>, consumer: string) {
    var positions := Values(facts, ConsumerEntity(consumer), POSITION_OF);
    && Values(facts, ConsumerEntity(consumer), NAME_OF) == [Text(consumer)]
    && |positions| == 1 && positions[0].Number? && positions[0].number >= 0
  }

  /** The position of a checkpoint; zero before there is one. */
  function PositionIn(facts: seq<Fact>, consumer: string): (position: nat)
    requires IsLoaded(facts, consumer) || !Known(facts, ConsumerEntity(consumer))
  {
    if Known(facts, ConsumerEntity(consumer)) then Values(facts, ConsumerEntity(consumer), POSITION_OF)[0].number else 0
  }

  /** A movement that writes: the position expected was found, and the next one is new. */
  predicate MayAdvance(facts: seq<Fact>, consumer: string, next: nat) {
    && 1 <= |consumer| <= MAX_NAME
    && if Known(facts, ConsumerEntity(consumer))
       then IsLoaded(facts, consumer) && PositionIn(facts, consumer) < next
       else true
  }

  function AdvanceOps(facts: seq<Fact>, consumer: string, next: nat): seq<Op> {
    var e := ConsumerEntity(consumer);
    (if Known(facts, e) then Retractions(Rows(facts, e, POSITION_OF)) else [AssertOp(e, NAME_OF, Text(consumer))])
    + [AssertOp(e, POSITION_OF, Number(next))]
  }

  /** Only the checkpoint's position is retracted, whatever else is live. */
  lemma AdvanceRetracts(seen: seq<Fact>, facts: seq<Fact>, consumer: string, next: nat, f: Fact)
    requires UniqueIds(facts) && f in facts && forall g :: g in seen ==> g in facts
    requires RetractOp(f.id) in AdvanceOps(seen, consumer, next)
    ensures f.entity == ConsumerEntity(consumer) && f.attribute == POSITION_OF
  {
    var rows := Rows(seen, ConsumerEntity(consumer), POSITION_OF);
    assert RetractOp(f.id) in Retractions(rows);
    var g :| g in rows && RetractOf()(g) == RetractOp(f.id);
    var i :| 0 <= i < |facts| && facts[i] == f;
    var j :| 0 <= j < |facts| && facts[j] == g;
  }

  lemma AdvanceAsserts(seen: seq<Fact>, consumer: string, next: nat, op: Op)
    requires op in AdvanceOps(seen, consumer, next) && op.AssertOp?
    ensures op.entity == ConsumerEntity(consumer) && op.attribute.SourceOf?
  {
  }

  lemma OpsAssert(facts: seq<Fact>, consumer: string, next: nat)
    ensures var e, ops := ConsumerEntity(consumer), AdvanceOps(facts, consumer, next);
      && Asserted(ops, e, POSITION_OF) == [Number(next)]
      && Asserted(ops, e, NAME_OF) == if Known(facts, e) then [] else [Text(consumer)]
  {
    var e, ops := ConsumerEntity(consumer), AdvanceOps(facts, consumer, next);
    var first, second := ops[..|ops| - 1], [AssertOp(e, POSITION_OF, Number(next))];
    assert NAME_OF != POSITION_OF by {
      assert |":triplex/consumer-checkpoint-name"| != |":triplex/consumer-checkpoint-position"|;
    }
    assert ops == first + second && second[..0] == [] && first[..0] == [];
    AssertedConcat(first, second, e, POSITION_OF);
    AssertedConcat(first, second, e, NAME_OF);
    if Known(facts, e) {
      NothingAsserted(first, e, POSITION_OF);
      NothingAsserted(first, e, NAME_OF);
    } else {
      assert first == [AssertOp(e, NAME_OF, Text(consumer))];
    }
  }

  lemma UnknownHasNoRows(facts: seq<Fact>, e: Entity, a: Attribute)
    requires !Known(facts, e)
    ensures Rows(facts, e, a) == [] && Values(facts, e, a) == []
  {
    FilterNone(At(e, a), facts);
  }

  lemma NamesAreKept(facts: seq<Fact>, consumer: string, next: nat)
    requires UniqueIds(facts)
    ensures NoneGone(AdvanceOps(facts, consumer, next), Rows(facts, ConsumerEntity(consumer), NAME_OF))
  {
    assert |":triplex/consumer-checkpoint-name"| != |":triplex/consumer-checkpoint-position"|;
    forall f | f in Rows(facts, ConsumerEntity(consumer), NAME_OF)
      ensures RetractOp(f.id) !in AdvanceOps(facts, consumer, next)
    {
      if RetractOp(f.id) in AdvanceOps(facts, consumer, next) {
        AdvanceRetracts(facts, facts, consumer, next, f);
      }
    }
  }

  /** A movement leaves a checkpoint that names the consumer and stands at the next position. */
  lemma AdvanceMoves(facts: seq<Fact>, consumer: string, next: nat, ids: seq<string>)
    requires UniqueIds(facts) && MayAdvance(facts, consumer, next)
    requires Generated(facts, AdvanceOps(facts, consumer, next), ids)
    ensures var after := ApplyOps(facts, AdvanceOps(facts, consumer, next), ids);
      && IsLoaded(after, consumer) && PositionIn(after, consumer) == next
      && (Known(facts, ConsumerEntity(consumer)) ==> PositionIn(facts, consumer) < PositionIn(after, consumer))
  {
    var e, ops := ConsumerEntity(consumer), AdvanceOps(facts, consumer, next);
    OpsAssert(facts, consumer, next);
    NamesAreKept(facts, consumer, next);
    Extended(facts, ops, ids, e, NAME_OF);
    AssertedHolds(facts, ops, ids, AssertOp(e, POSITION_OF, Number(next)));
    if Known(facts, e) {
      Replaced(facts, ops, ids, e, POSITION_OF);
    } else {
      UnknownHasNoRows(facts, e, NAME_OF);
      UnknownHasNoRows(facts, e, POSITION_OF);
      Extended(facts, ops, ids, e, POSITION_OF);
    }
  }
}
