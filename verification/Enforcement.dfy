/**
 * What enforcing a rule set gives: over every run of accepted and written
 * transactions no violation appears at any instant, for exactly the rule sets
 * whose rules no journal can break.
 */
module Enforcement {
  import opened Wrappers
  import opened Seqs
  import opened Triples
  import opened Constraint
  import ConstraintBoundaries
  import opened ConstraintSlice
  import opened Commit
  import opened PatternSafety
  import opened Journal

  datatype Transaction = Transaction(
    operations: seq<TransactOp>,
    instant: int,
    ids: seq<string>,
    txId: string,
    position: nat,
    meta: Meta,
    journalIds: seq<string>,
    loader: FactLoader)

  function Facts(before: seq<Triple>, tx: Transaction): seq<Triple>
    requires |tx.ids| >= |tx.operations|
  {
    Committed(before, tx.operations, tx.ids, tx.instant)
  }

  function Inputs(before: seq<Triple>, tx: Transaction): seq<Input>
    requires |tx.ids| >= |tx.operations|
  {
    MetadataInputs(tx.position, tx.instant, tx.meta, Changes(before, tx.operations, tx.ids, tx.instant))
  }

  /** Generated ids: no two alike, and none in use. */
  ghost predicate FreshIds(before: seq<Triple>, tx: Transaction) {
    && NoDuplicates(tx.ids + tx.journalIds)
    && forall f :: f in before && f.id.Stored? ==> f.id.name !in tx.ids + tx.journalIds
  }

  /** Callers assert neither journal attributes nor facts of the transaction itself. */
  predicate Authorized(operations: seq<TransactOp>, txId: string) {
    forall op :: op in operations && op.Assert? ==> !IsJournalAttribute(op.attribute) && op.entityId != txId
  }

  /** The transaction passed enforcement of the rules and is written. */
  ghost predicate Written(rules: seq<Rule>, before: seq<Triple>, tx: Transaction) {
    && |tx.ids| >= |tx.operations| && |tx.journalIds| >= |Inputs(before, tx)|
    && Foreseen(tx.operations, tx.ids) && FreshIds(before, tx) && Authorized(tx.operations, tx.txId)
    && IsNews(Inputs(before, tx), tx.txId, before)
    && Serves(tx.loader, before)
    && Accepts(LoadRelevantFacts(rules, tx.operations, tx.loader), tx.operations, rules, tx.instant)
  }

  /** The store afterwards: the committed facts, and the journal. */
  function After(before: seq<Triple>, tx: Transaction): seq<Triple>
    requires |tx.ids| >= |tx.operations| && |tx.journalIds| >= |Inputs(before, tx)|
  {
    Facts(before, tx) + JournalRows(Inputs(before, tx), tx.journalIds, tx.txId, tx.instant)
  }

  // ---- The table keeps its key --------------------------------------------

  lemma {:induction false} CommittedComesFrom(before: seq<Triple>, operations: seq<TransactOp>, ids: seq<string>,
                                              instant: int, f: Triple)
    requires |ids| >= |operations| && f in Committed(before, operations, ids, instant)
    ensures f in before || exists k ::
      0 <= k < |operations| && operations[k].Assert? && f == ReadBack(Asserted(operations[k], Stored(ids[k]), instant))
  {
    if operations != [] {
      var last := |operations| - 1;
      if f in Committed(before, operations[..last], ids, instant) {
        CommittedComesFrom(before, operations[..last], ids, instant, f);
      } else {
        assert operations[last].Assert?;
      }
    }
  }

  function IdOf(): Triple -> TripleId {
    (f: Triple) => f.id
  }

  lemma {:induction false} CommittedIsKeyed(before: seq<Triple>, operations: seq<TransactOp>, ids: seq<string>,
                                            instant: int)
    requires Keyed(before) && |ids| >= |operations| && NoDuplicates(ids)
    requires forall f :: f in before ==> f.id.name !in ids
    ensures Keyed(Committed(before, operations, ids, instant))
  {
    if operations != [] {
      var last := |operations| - 1;
      var facts := Committed(before, operations[..last], ids, instant);
      CommittedIsKeyed(before, operations[..last], ids, instant);
      match operations[last] {
        case Retract(target) => FilterKeepsDistinct(IdOf(), (f: Triple) => f.id != target, facts);
        case RetractPattern(pattern) => FilterKeepsDistinct(IdOf(), (f: Triple) => !AdapterMatches(f, pattern), facts);
        case Assert(_, _, _, _, _, _) =>
          forall f | f in facts ensures f.id != Stored(ids[last]) {
            CommittedComesFrom(before, operations[..last], ids, instant, f);
          }
      }
    }
  }

  lemma {:induction false} JournalRowsAreUnique(inputs: seq<Input>, ids: seq<string>, txId: string, instant: int)
    requires |ids| >= |inputs| && NoDuplicates(ids)
    ensures UniqueIds(JournalRows(inputs, ids, txId, instant))
    ensures forall f :: f in JournalRows(inputs, ids, txId, instant) ==> f.id.name in ids[..|inputs|]
  {
    if inputs != [] {
      var last := |inputs| - 1;
      JournalRowsAreUnique(inputs[..last], ids, txId, instant);
      assert ids[..last + 1] == ids[..last] + [ids[last]] && ids[last] !in ids[..last];
    }
  }

  /** The ids of the store stay unique. */
  lemma WritingKeepsKeys(rules: seq<Rule>, before: seq<Triple>, tx: Transaction)
    requires Keyed(before) && Written(rules, before, tx)
    ensures Keyed(After(before, tx))
  {
    SplitIds(tx.ids, tx.journalIds);
    CommittedIsKeyed(before, tx.operations, tx.ids, tx.instant);
    JournalRowsAreUnique(Inputs(before, tx), tx.journalIds, tx.txId, tx.instant);
    forall f | f in Facts(before, tx) ensures f.id.name !in tx.journalIds {
      CommittedComesFrom(before, tx.operations, tx.ids, tx.instant, f);
    }
  }

  lemma SplitIds(a: seq<string>, b: seq<string>)
    requires NoDuplicates(a + b)
    ensures NoDuplicates(a) && NoDuplicates(b) && forall x :: x in a ==> x !in b
  {
    forall i, j | 0 <= i < j < |a| ensures a[i] != a[j] {
      assert (a + b)[i] == a[i] && (a + b)[j] == a[j];
    }
    forall i, j | 0 <= i < j < |b| ensures b[i] != b[j] {
      assert (a + b)[|a| + i] == b[i] && (a + b)[|a| + j] == b[j];
    }
    forall i, j | 0 <= i < |a| && 0 <= j < |b| ensures a[i] != b[j] {
      assert (a + b)[i] == a[i] && (a + b)[|a| + j] == b[j];
    }
  }

  lemma CommittedIsNotNews(rules: seq<Rule>, before: seq<Triple>, tx: Transaction)
    requires Written(rules, before, tx)
    ensures IsNews(Inputs(before, tx), tx.txId, Facts(before, tx))
  {
    NamesDiffer();
    forall f | f in Facts(before, tx)
      ensures f.entityId != tx.txId
      ensures (NeverRepeated(f.attribute) ==> Input(f.attribute, f.value) !in Inputs(before, tx))
    {
      CommittedComesFrom(before, tx.operations, tx.ids, tx.instant, f);
      if f !in before {
        var k :| 0 <= k < |tx.operations| && tx.operations[k].Assert?
          && f == ReadBack(Asserted(tx.operations[k], Stored(tx.ids[k]), tx.instant));
        assert tx.operations[k] in tx.operations;
      }
    }
  }

  // ---- Enforcement over a run ---------------------------------------------

  ghost predicate AllKept(rules: seq<Rule>) {
    forall rule :: rule in rules ==> KeptByJournals(rule)
  }

  /** Every violation of `after` is one of `before`, no larger. */
  ghost predicate NoWorse(before: seq<Triple>, after: seq<Triple>, rules: seq<Rule>) {
    forall t: int, v :: Violates(after, rules, t, v) ==> ViolatedAtLeast(before, rules, t, v)
  }

  ghost predicate ViolatedAtLeast(facts: seq<Triple>, rules: seq<Rule>, t: int, v: Violation) {
    exists u :: Violates(facts, rules, t, u) && IdentityOf(u) == IdentityOf(v) && v.actual <= u.actual
  }

  lemma ProjectionIsNoWorse(rules: seq<Rule>, before: seq<Triple>, tx: Transaction, t: int, v: Violation)
    requires Keyed(before) && Written(rules, before, tx)
    requires Violates(Projected(before, tx.operations, tx.instant), rules, t, v)
    ensures ViolatedAtLeast(before, rules, t, v)
  {
    SliceIsExact(rules, tx.operations, tx.loader, before, tx.instant);
    ConstraintBoundaries.BoundariesSuffice(before, tx.operations, rules, tx.instant);
    assert !Worsens(before, Projected(before, tx.operations, tx.instant), rules, t, v);
  }

  lemma EnforcementNeverWorsens(rules: seq<Rule>, before: seq<Triple>, tx: Transaction)
    requires Keyed(before) && AllKept(rules) && Written(rules, before, tx)
    ensures NoWorse(before, After(before, tx), rules)
  {
    var projected := Projected(before, tx.operations, tx.instant);
    CommitIsTheProjection(before, tx.operations, tx.ids, tx.instant);
    CommittedIsNotNews(rules, before, tx);
    forall t: int, v | Violates(After(before, tx), rules, t, v) ensures ViolatedAtLeast(before, rules, t, v) {
      var rule :| rule in rules && Breaks(After(before, tx), rule, t, v);
      JournalAddsNoViolation(Facts(before, tx), tx.position, tx.instant, tx.meta,
                             Changes(before, tx.operations, tx.ids, tx.instant), tx.journalIds, tx.txId, rule, t, v);
      RenamingKeepsViolations(tx.ids, projected, rule, t, v);
      assert Violates(projected, rules, t, v);
      ProjectionIsNoWorse(rules, before, tx, t, v);
    }
  }

  lemma NoWorseIsTransitive(rules: seq<Rule>, a: seq<Triple>, b: seq<Triple>, c: seq<Triple>)
    requires NoWorse(a, b, rules) && NoWorse(b, c, rules)
    ensures NoWorse(a, c, rules)
  {
    forall t: int, v | Violates(c, rules, t, v) ensures ViolatedAtLeast(a, rules, t, v) {
      assert ViolatedAtLeast(b, rules, t, v);
      var u :| Violates(b, rules, t, u) && IdentityOf(u) == IdentityOf(v) && v.actual <= u.actual;
      assert ViolatedAtLeast(a, rules, t, u);
      var w :| Violates(a, rules, t, w) && IdentityOf(w) == IdentityOf(u) && u.actual <= w.actual;
      assert IdentityOf(w) == IdentityOf(v) && v.actual <= w.actual;
    }
  }
}
