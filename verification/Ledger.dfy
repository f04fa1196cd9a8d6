/**
 * What makes each journal news: positions ascend, command ids are claimed once,
 * ids are generated once, and what was retracted does not come back.
 */
module Ledger {
  import opened Wrappers
  import opened Seqs
  import opened Triples
  import opened Constraint
  import opened ConstraintSlice
  import opened Commit
  import opened PatternSafety
  import opened Journal
  import opened Enforcement

  /** The last commit position, the claimed command ids, and every id generated so far. */
  datatype Ledger = Ledger(position: nat, commands: set<string>, ids: set<string>)

  function Elements(s: seq<string>): set<string> {
    set x | x in s
  }

  function NextLedger(ledger: Ledger, tx: Transaction): Ledger {
    Ledger(tx.position,
           ledger.commands + (if tx.meta.commandId.Some? then {tx.meta.commandId.value} else {}),
           ledger.ids + Elements(tx.ids) + Elements(tx.journalIds))
  }

  ghost predicate IsLive(facts: seq<Triple>, id: string) {
    exists f :: f in facts && f.id == Stored(id)
  }

  /** A text that names an assertion names an id generated before; one that names a retraction, an id no longer live. */
  ghost predicate NamesThePast(ledger: Ledger, facts: seq<Triple>, json: string) {
    && (forall id {:trigger "+" + id} :: json == "+" + id ==> id in ledger.ids)
    && (forall id {:trigger "-" + id} :: json == "-" + id ==> id in ledger.ids && !IsLive(facts, id))
  }

  ghost predicate IsRecorded(ledger: Ledger, facts: seq<Triple>, f: Triple) {
    && (f.attribute == POSITION && f.value.NumberValue? ==> f.value.number <= ledger.position)
    && (f.attribute == COMMAND_ID && f.value.StringValue? ==> f.value.text in ledger.commands)
    && (f.attribute == CHANGE && f.value.JsonValue? ==> NamesThePast(ledger, facts, f.value.json))
  }

  /** The ledger accounts for every id, position, command id and change text in the store. */
  ghost predicate Accounts(ledger: Ledger, facts: seq<Triple>) {
    && (forall f :: f in facts ==> f.id.Stored? && f.id.name in ledger.ids)
    && forall f {:trigger IsRecorded(ledger, facts, f)} :: f in facts ==> IsRecorded(ledger, facts, f)
  }

  /** What the store demands of a transaction: enforcement, and everything generated being new to the ledger. */
  ghost predicate Admitted(rules: seq<Rule>, ledger: Ledger, before: seq<Triple>, tx: Transaction) {
    && |tx.ids| >= |tx.operations| && |tx.journalIds| >= |Inputs(before, tx)|
    && Foreseen(tx.operations, tx.ids) && Authorized(tx.operations, tx.txId)
    && tx.position > ledger.position
    && (tx.meta.commandId.Some? ==> tx.meta.commandId.value !in ledger.commands)
    && NoDuplicates(tx.ids + tx.journalIds) && (forall id :: id in tx.ids + tx.journalIds ==> id !in ledger.ids)
    && (forall f :: f in before ==> f.entityId != tx.txId)
    && Serves(tx.loader, before)
    && Accepts(LoadRelevantFacts(rules, tx.operations, tx.loader), tx.operations, rules, tx.instant)
  }

  // ---- What the journal says ------------------------------------------------

  lemma SinglesSay(position: nat, instant: int, meta: Meta, input: Input)
    requires input in Singles(position, instant, meta)
    ensures input.attribute == POSITION ==> input.value == NumberValue(position)
    ensures input.attribute == COMMAND_ID ==> meta.commandId.Some? && input.value == StringValue(meta.commandId.value)
    ensures input.attribute != CHANGE
  {
    NamesDiffer();
  }

  /** A position, command id or change text of a journal is the transaction's own. */
  lemma InputsSay(position: nat, instant: int, meta: Meta, changes: seq<Change>, input: Input)
    requires input in MetadataInputs(position, instant, meta, changes) && NeverRepeated(input.attribute)
    ensures input.attribute == POSITION ==> input.value == NumberValue(position)
    ensures input.attribute == COMMAND_ID ==> meta.commandId.Some? && input.value == StringValue(meta.commandId.value)
    ensures input.attribute == CHANGE ==> exists change :: change in changes && input.value == JsonValue(change.json)
  {
    NamesDiffer();
    var entities, each := EntityInputs(ChangedEntities(changes)), ChangeInputs(changes);
    assert forall i :: 0 <= i < |entities| ==> entities[i].attribute == CHANGED_ENTITY;
    if input in Singles(position, instant, meta) {
      SinglesSay(position, instant, meta, input);
    } else {
      assert input in each;
    }
  }

  /** A change text names the assertion of a new id, or the retraction of a new or live one that is live no more. */
  ghost predicate NamesAChange(before: seq<Triple>, ids: seq<string>, after: seq<Triple>, json: string) {
    || (exists id :: id in ids && json == "+" + id)
    || (exists id :: (id in ids || IsLive(before, id)) && json == "-" + id && !IsLive(after, id))
  }

  lemma StepIds(live: seq<Triple>, op: TransactOp, id: string, instant: int, name: string)
    requires IsLive(CommitStep(live, op, id, instant), name)
    ensures IsLive(live, name) || name == id
  {
    var f :| f in CommitStep(live, op, id, instant) && f.id == Stored(name);
    assert f in live || f.id == Stored(id);
  }

  lemma RetractedIsGone(live: seq<Triple>, p: Triple -> bool, f: Triple)
    requires Keyed(live) && f in live && !p(f)
    ensures IsLive(live, f.id.name) && !IsLive(Filter(p, live), f.id.name)
  {
    forall g | g in Filter(p, live) ensures g.id != f.id {
      var i :| 0 <= i < |live| && live[i] == f;
      var j :| 0 <= j < |live| && live[j] == g;
    }
  }

  ghost predicate NamesALoss(before: seq<Triple>, after: seq<Triple>, json: string) {
    exists name :: IsLive(before, name) && json == "-" + name && !IsLive(after, name)
  }

  lemma StepChanges(live: seq<Triple>, op: TransactOp, id: string, instant: int, change: Change)
    requires Keyed(live) && change in OpChanges(live, op, id)
    ensures change.json == "+" + id || NamesALoss(live, CommitStep(live, op, id, instant), change.json)
  {
    match op {
      case Assert(_, _, _, _, _, _) =>
      case Retract(target) =>
        var f :| f in Filter((g: Triple) => g.id == target, live) && Retracting()(f) == change;
        RetractedIsGone(live, (g: Triple) => g.id != target, f);
      case RetractPattern(pattern) =>
        var f :| f in Filter((g: Triple) => AdapterMatches(g, pattern), live) && Retracting()(f) == change;
        RetractedIsGone(live, (g: Triple) => !AdapterMatches(g, pattern), f);
    }
  }

  ghost predicate NewIds(before: seq<Triple>, ids: seq<string>) {
    Keyed(before) && NoDuplicates(ids) && forall f :: f in before ==> f.id.name !in ids
  }

  lemma {:induction false} CommittedIds(before: seq<Triple>, operations: seq<TransactOp>, ids: seq<string>,
                                        instant: int,
                                        name: string)
    requires |ids| >= |operations| && IsLive(Committed(before, operations, ids, instant), name)
    ensures IsLive(before, name) || name in ids[..|operations|]
  {
    if operations != [] {
      var last := |operations| - 1;
      StepIds(Committed(before, operations[..last], ids, instant), operations[last], ids[last], instant, name);
      if name != ids[last] {
        CommittedIds(before, operations[..last], ids, instant, name);
        assert ids[..last + 1] == ids[..last] + [ids[last]];
      } else {
        assert ids[..last + 1][last] == name;
      }
    }
  }

  lemma EarlierIdsDiffer(before: seq<Triple>, ids: seq<string>, k: nat, name: string)
    requires NewIds(before, ids) && k < |ids| && (name in ids[..k] || IsLive(before, name))
    ensures name != ids[k]
  {
    if name in ids[..k] {
      var i :| 0 <= i < k && ids[i] == name;
    }
  }

  /** A retracted id stays gone through the later operations. */
  lemma StaysNamed(before: seq<Triple>, ids: seq<string>, k: nat, live: seq<Triple>, op: TransactOp, instant: int,
                   json: string)
    requires NewIds(before, ids) && k < |ids| && NamesAChange(before, ids[..k], live, json)
    ensures NamesAChange(before, ids[..k + 1], CommitStep(live, op, ids[k], instant), json)
  {
    assert ids[..k + 1] == ids[..k] + [ids[k]];
    if id :| id in ids[..k] && json == "+" + id {
      assert id in ids[..k + 1];
    } else {
      var id :| (id in ids[..k] || IsLive(before, id)) && json == "-" + id && !IsLive(live, id);
      EarlierIdsDiffer(before, ids, k, id);
      if IsLive(CommitStep(live, op, ids[k], instant), id) {
        StepIds(live, op, ids[k], instant, id);
      }
      assert id in ids[..k + 1] || IsLive(before, id);
    }
  }

  /** The change recorded by the last operation names that operation's id, or one that it retracted. */
  lemma LastChangeNames(before: seq<Triple>, operations: seq<TransactOp>, ids: seq<string>, instant: int,
                        live: seq<Triple>,
                        change: Change)
    requires NewIds(before, ids) && |ids| >= |operations| > 0
    requires live == Committed(before, operations[..|operations| - 1], ids, instant) && Keyed(live)
    requires change in OpChanges(live, operations[|operations| - 1], ids[|operations| - 1])
    ensures NamesAChange(before, ids[..|operations|],
                         CommitStep(live, operations[|operations| - 1], ids[|operations| - 1], instant), change.json)
  {
    var last := |operations| - 1;
    StepChanges(live, operations[last], ids[last], instant, change);
    assert ids[..last + 1] == ids[..last] + [ids[last]];
    if change.json == "+" + ids[last] {
      assert ids[last] in ids[..last + 1];
    } else {
      var name :| IsLive(live, name) && change.json == "-" + name
        && !IsLive(CommitStep(live, operations[last], ids[last], instant), name);
      CommittedIds(before, operations[..last], ids, instant, name);
      assert name in ids[..last + 1] || IsLive(before, name);
    }
  }

  lemma {:induction false} ChangesName(before: seq<Triple>, operations: seq<TransactOp>, ids: seq<string>, instant: int,
                                       change: Change)
    requires NewIds(before, ids) && |ids| >= |operations| && change in Changes(before, operations, ids, instant)
    ensures NamesAChange(before, ids[..|operations|], Committed(before, operations, ids, instant), change.json)
  {
    var last := |operations| - 1;
    var live := Committed(before, operations[..last], ids, instant);
    if change in Changes(before, operations[..last], ids, instant) {
      ChangesName(before, operations[..last], ids, instant, change);
      StaysNamed(before, ids, last, live, operations[last], instant, change.json);
    } else {
      CommittedIsKeyed(before, operations[..last], ids, instant);
      LastChangeNames(before, operations, ids, instant, live, change);
    }
  }

  // ---- Admitted transactions are news ---------------------------------------

  lemma TextsDiffer(a: string, b: string)
    ensures "+" + a != "-" + b
    ensures "+" + a == "+" + b ==> a == b
    ensures "-" + a == "-" + b ==> a == b
  {
    assert ("+" + a)[0] == '+' && ("-" + b)[0] == '-';
    assert ("+" + a)[1..] == a && ("+" + b)[1..] == b && ("-" + a)[1..] == a && ("-" + b)[1..] == b;
  }

  /** A text the ledger accounts for is not one of a new change. */
  lemma PastIsNotAChange(ledger: Ledger, before: seq<Triple>, ids: seq<string>, after: seq<Triple>, json: string)
    requires NamesThePast(ledger, before, json) && forall id :: id in ids ==> id !in ledger.ids
    ensures !NamesAChange(before, ids, after, json)
  {
  }

  lemma SplitNew(ledger: Ledger, before: seq<Triple>, tx: Transaction)
    requires Accounts(ledger, before) && Keyed(before) && NoDuplicates(tx.ids + tx.journalIds)
    requires forall id :: id in tx.ids + tx.journalIds ==> id !in ledger.ids
    ensures NewIds(before, tx.ids) && NoDuplicates(tx.journalIds) && FreshIds(before, tx)
    ensures forall id :: id in tx.ids ==> id !in tx.journalIds
  {
    SplitIds(tx.ids, tx.journalIds);
  }

  lemma RecordedIsNotSaid(rules: seq<Rule>, ledger: Ledger, before: seq<Triple>, tx: Transaction, f: Triple)
    requires Keyed(before) && Accounts(ledger, before) && Admitted(rules, ledger, before, tx)
    requires f in before && NeverRepeated(f.attribute)
    ensures Input(f.attribute, f.value) !in Inputs(before, tx)
  {
    NamesDiffer();
    assert IsRecorded(ledger, before, f);
    var changes, input := Changes(before, tx.operations, tx.ids, tx.instant), Input(f.attribute, f.value);
    if input in Inputs(before, tx) {
      InputsSay(tx.position, tx.instant, tx.meta, changes, input);
      if f.attribute == CHANGE {
        var change :| change in changes && f.value == JsonValue(change.json);
        SplitNew(ledger, before, tx);
        ChangesName(before, tx.operations, tx.ids, tx.instant, change);
        PastIsNotAChange(ledger, before, tx.ids[..|tx.operations|], Facts(before, tx), change.json);
      }
    }
  }

  /** What is admitted is written with a journal that is news. */
  lemma AdmittedIsWritten(rules: seq<Rule>, ledger: Ledger, before: seq<Triple>, tx: Transaction)
    requires Keyed(before) && Accounts(ledger, before) && Admitted(rules, ledger, before, tx)
    ensures Written(rules, before, tx)
  {
    SplitNew(ledger, before, tx);
    forall f | f in before && NeverRepeated(f.attribute) ensures Input(f.attribute, f.value) !in Inputs(before, tx) {
      RecordedIsNotSaid(rules, ledger, before, tx, f);
    }
  }

  // ---- The ledger keeps account ---------------------------------------------

  lemma AfterIds(before: seq<Triple>, tx: Transaction, f: Triple)
    requires |tx.ids| >= |tx.operations| && |tx.journalIds| >= |Inputs(before, tx)| && f in After(before, tx)
    ensures f in before || (f.id.Stored? && (f.id.name in tx.ids || f.id.name in tx.journalIds))
  {
    if f in Facts(before, tx) {
      CommittedComesFrom(before, tx.operations, tx.ids, tx.instant, f);
    }
  }

  lemma PastStaysPast(ledger: Ledger, before: seq<Triple>, tx: Transaction, json: string)
    requires |tx.ids| >= |tx.operations| && |tx.journalIds| >= |Inputs(before, tx)|
    requires NamesThePast(ledger, before, json) && forall id :: id in tx.ids + tx.journalIds ==> id !in ledger.ids
    ensures NamesThePast(NextLedger(ledger, tx), After(before, tx), json)
  {
    forall id, f | json == "-" + id && f in After(before, tx) ensures f.id != Stored(id) {
      AfterIds(before, tx, f);
    }
  }

  lemma NewChangesArePast(rules: seq<Rule>, ledger: Ledger, before: seq<Triple>, tx: Transaction, change: Change)
    requires Keyed(before) && Accounts(ledger, before) && Admitted(rules, ledger, before, tx)
    requires change in Changes(before, tx.operations, tx.ids, tx.instant)
    ensures NamesThePast(NextLedger(ledger, tx), After(before, tx), change.json)
  {
    SplitNew(ledger, before, tx);
    ChangesName(before, tx.operations, tx.ids, tx.instant, change);
    ChangeIsPast(ledger, before, tx, change.json);
  }

  lemma ChangeIsPast(ledger: Ledger, before: seq<Triple>, tx: Transaction, json: string)
    requires |tx.ids| >= |tx.operations| && |tx.journalIds| >= |Inputs(before, tx)| && Accounts(ledger, before)
    requires forall id :: id in tx.ids + tx.journalIds ==> id !in ledger.ids
    requires forall id :: id in tx.ids ==> id !in tx.journalIds
    requires NamesAChange(before, tx.ids[..|tx.operations|], Facts(before, tx), json)
    ensures NamesThePast(NextLedger(ledger, tx), After(before, tx), json)
  {
    forall id | json == "+" + id ensures id in NextLedger(ledger, tx).ids {
      forall other ensures "+" + id != "-" + other && ("+" + id == "+" + other ==> id == other) {
        TextsDiffer(id, other);
      }
    }
    forall id | json == "-" + id ensures id in NextLedger(ledger, tx).ids && !IsLive(After(before, tx), id) {
      forall other ensures "+" + other != "-" + id && ("-" + id == "-" + other ==> id == other) {
        TextsDiffer(other, id);
        TextsDiffer(id, other);
      }
      RetractedStaysOut(ledger, before, tx, id);
    }
  }

  lemma RetractedStaysOut(ledger: Ledger, before: seq<Triple>, tx: Transaction, id: string)
    requires |tx.ids| >= |tx.operations| && |tx.journalIds| >= |Inputs(before, tx)| && Accounts(ledger, before)
    requires forall other :: other in tx.ids + tx.journalIds ==> other !in ledger.ids
    requires forall other :: other in tx.ids ==> other !in tx.journalIds
    requires (id in tx.ids || IsLive(before, id)) && !IsLive(Facts(before, tx), id)
    ensures id in NextLedger(ledger, tx).ids && !IsLive(After(before, tx), id)
  {
    forall f | f in After(before, tx) ensures f.id != Stored(id) {
      AfterIds(before, tx, f);
    }
  }

  lemma JournalIsRecorded(rules: seq<Rule>, ledger: Ledger, before: seq<Triple>, tx: Transaction, f: Triple)
    requires Keyed(before) && Accounts(ledger, before) && Admitted(rules, ledger, before, tx)
    requires f in JournalRows(Inputs(before, tx), tx.journalIds, tx.txId, tx.instant)
    ensures IsRecorded(NextLedger(ledger, tx), After(before, tx), f)
  {
    var changes := Changes(before, tx.operations, tx.ids, tx.instant);
    InputOf(Inputs(before, tx), tx.journalIds, tx.txId, tx.instant, f);
    if NeverRepeated(f.attribute) {
      NamesDiffer();
      InputsSay(tx.position, tx.instant, tx.meta, changes, Input(f.attribute, f.value));
      if f.attribute == CHANGE {
        var change :| change in changes && f.value == JsonValue(change.json);
        NewChangesArePast(rules, ledger, before, tx, change);
      }
    }
  }

  lemma KeptIsRecorded(rules: seq<Rule>, ledger: Ledger, before: seq<Triple>, tx: Transaction, f: Triple)
    requires Accounts(ledger, before) && Admitted(rules, ledger, before, tx) && f in Facts(before, tx)
    ensures IsRecorded(NextLedger(ledger, tx), After(before, tx), f)
  {
    CommittedComesFrom(before, tx.operations, tx.ids, tx.instant, f);
    if f in before {
      assert IsRecorded(ledger, before, f);
      if f.attribute == CHANGE && f.value.JsonValue? {
        PastStaysPast(ledger, before, tx, f.value.json);
      }
    } else {
      NamesDiffer();
      var k :| 0 <= k < |tx.operations| && tx.operations[k].Assert?
        && f == ReadBack(Asserted(tx.operations[k], Stored(tx.ids[k]), tx.instant));
      assert tx.operations[k] in tx.operations;
    }
  }

  /** After an admitted transaction the ledger still accounts for everything in the store. */
  lemma LedgerStaysAccountable(rules: seq<Rule>, ledger: Ledger, before: seq<Triple>, tx: Transaction)
    requires Keyed(before) && Accounts(ledger, before) && Admitted(rules, ledger, before, tx)
    ensures Keyed(After(before, tx)) && Accounts(NextLedger(ledger, tx), After(before, tx))
  {
    AdmittedIsWritten(rules, ledger, before, tx);
    WritingKeepsKeys(rules, before, tx);
    forall f | f in After(before, tx)
      ensures f.id.name in NextLedger(ledger, tx).ids && IsRecorded(NextLedger(ledger, tx), After(before, tx), f)
    {
      AfterIds(before, tx, f);
      if f in Facts(before, tx) {
        KeptIsRecorded(rules, ledger, before, tx, f);
      } else {
        JournalIsRecorded(rules, ledger, before, tx, f);
      }
    }
  }
}
