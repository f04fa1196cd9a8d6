/**
 * What the journal of a transaction says, exactly: who wrote it and when, and
 * every fact it asserted or retracted.
 */
module JournalMeaning {
  import opened Wrappers
  import opened Seqs
  import opened Triples
  import opened Constraint
  import opened Commit
  import opened PatternSafety
  import opened Journal
  import opened Enforcement

  // ---- Changes ---------------------------------------------------------------------

  /** The fact was live before the k-th operation and is not after it. */
  ghost predicate IsLost(live: seq<Triple>, operations: seq<TransactOp>, ids: seq<string>, instant: int, k: nat,
                         f: Triple)
    requires k < |operations| && |ids| >= |operations|
  {
    f in Committed(live, operations[..k], ids, instant) && f !in Committed(live, operations[..k + 1], ids, instant)
  }

  /** The k-th operation asserts under its new id, or loses a fact: the change names the entity and the id. */
  ghost predicate Makes(live: seq<Triple>, operations: seq<TransactOp>, ids: seq<string>, instant: int, k: nat,
                        c: Change)
    requires |ids| >= |operations|
  {
    k < |operations| &&
    ((operations[k].Assert? && c == Change(operations[k].entityId, "+" + ids[k]))
     || exists f :: IsLost(live, operations, ids, instant, k, f) && f.id.Stored?
          && c == Change(f.entityId, "-" + f.id.name))
  }

  ghost predicate IsStored(facts: seq<Triple>) {
    forall f :: f in facts ==> f.id.Stored?
  }

  lemma CommittedIsStored(live: seq<Triple>, operations: seq<TransactOp>, ids: seq<string>, instant: int)
    requires |ids| >= |operations| && IsStored(live)
    ensures IsStored(Committed(live, operations, ids, instant))
  {
    forall f | f in Committed(live, operations, ids, instant) ensures f.id.Stored? {
      CommittedComesFrom(live, operations, ids, instant, f);
    }
  }

  /** What an operation records is its assertion, or the facts it loses. */
  lemma OpChangesIff(live: seq<Triple>, op: TransactOp, id: string, instant: int, c: Change)
    requires IsStored(live)
    ensures var after := CommitStep(live, op, id, instant);
      var loses := exists f :: f in live && f !in after && c == Change(f.entityId, "-" + f.id.name);
      c in OpChanges(live, op, id) <==> (op.Assert? && c == Change(op.entityId, "+" + id)) || loses
  {
    match op {
      case Assert(_, _, _, _, _, _) =>
      case Retract(target) =>
        forall f | f in live ensures f !in CommitStep(live, op, id, instant) <==> f.id == target {
        }
      case RetractPattern(pattern) =>
        forall f | f in live ensures f !in CommitStep(live, op, id, instant) <==> AdapterMatches(f, pattern) {
        }
    }
  }

  lemma LastMakes(live: seq<Triple>, operations: seq<TransactOp>, ids: seq<string>, instant: int, c: Change)
    requires |ids| >= |operations| > 0 && IsStored(live)
    ensures var last := |operations| - 1;
      Makes(live, operations, ids, instant, last, c)
      <==> c in OpChanges(Committed(live, operations[..last], ids, instant), operations[last], ids[last])
  {
    var last := |operations| - 1;
    var before := Committed(live, operations[..last], ids, instant);
    CommittedIsStored(live, operations[..last], ids, instant);
    assert operations[..last + 1] == operations;
    OpChangesIff(before, operations[last], ids[last], instant, c);
    if f :| f in before && f !in Committed(live, operations, ids, instant) && c == Change(f.entityId, "-" + f.id.name) {
      assert IsLost(live, operations, ids, instant, last, f);
    }
  }

  lemma EarlierMakes(live: seq<Triple>, operations: seq<TransactOp>, ids: seq<string>, instant: int, k: nat, c: Change)
    requires |ids| >= |operations| > 0 && k < |operations| - 1
    ensures Makes(live, operations, ids, instant, k, c)
      <==> Makes(live, operations[..|operations| - 1], ids, instant, k, c)
  {
    var init := operations[..|operations| - 1];
    assert init[..k] == operations[..k] && init[..k + 1] == operations[..k + 1];
    forall f ensures IsLost(live, operations, ids, instant, k, f) <==> IsLost(live, init, ids, instant, k, f) {
    }
  }

  /** Some operation makes the change. */
  ghost predicate IsMade(live: seq<Triple>, operations: seq<TransactOp>, ids: seq<string>, instant: int, c: Change)
    requires |ids| >= |operations|
  {
    exists k: nat {:trigger Makes(live, operations, ids, instant, k, c)} :: Makes(live, operations, ids, instant, k, c)
  }

  lemma MadeLastOrEarlier(live: seq<Triple>, operations: seq<TransactOp>, ids: seq<string>, instant: int, c: Change)
    requires |ids| >= |operations| > 0
    ensures var last := |operations| - 1;
      IsMade(live, operations, ids, instant, c)
      <==> IsMade(live, operations[..last], ids, instant, c) || Makes(live, operations, ids, instant, last, c)
  {
    var last := |operations| - 1;
    if k: nat :| Makes(live, operations, ids, instant, k, c) {
      if k < last {
        EarlierMakes(live, operations, ids, instant, k, c);
      }
    }
    if k: nat :| Makes(live, operations[..last], ids, instant, k, c) {
      EarlierMakes(live, operations, ids, instant, k, c);
    }
  }

  /** The changes recorded are those made: no assertion or retraction goes unnamed, and nothing else is named. */
  lemma {:induction false} ChangesAreThoseMade(live: seq<Triple>, operations: seq<TransactOp>, ids: seq<string>,
                                               instant: int, c: Change)
    requires |ids| >= |operations| && IsStored(live)
    ensures c in Changes(live, operations, ids, instant) <==> IsMade(live, operations, ids, instant, c)
  {
    if operations != [] {
      ChangesAreThoseMade(live, operations[..|operations| - 1], ids, instant, c);
      LastMakes(live, operations, ids, instant, c);
      MadeLastOrEarlier(live, operations, ids, instant, c);
    }
  }

  // ---- What is said ----------------------------------------------------------------

  predicate IsText(text: Option<string>, value: TripleValue) {
    text.Some? && text.value != "" && value == StringValue(text.value)
  }

  /** Position and instant always; actor, command, correlation, causation and snapshot when they are given. */
  predicate SaysSingle(position: nat, instant: int, meta: Meta, attribute: string, value: TripleValue) {
    || (attribute == ":_tx/position" && value == NumberValue(position))
    || (attribute == ":_tx/instant" && value == DateTimeValue(instant))
    || (attribute == ":_tx/actor" && IsText(meta.actor, value))
    || (attribute == ":_tx/command-id" && IsText(meta.commandId, value))
    || (attribute == ":_tx/correlation-id" && IsText(meta.correlationId, value))
    || (attribute == ":_tx/causation-id" && IsText(meta.causationId, value))
    || (attribute == ":_tx/config-snapshot" && IsText(meta.configSnapshot, value))
  }

  /** An entity is named as changed, and a change in full, when some operation makes it. */
  predicate SaysChange(c: Change, attribute: string, value: TripleValue) {
    || (attribute == ":_tx/changed-entity" && value == RefValue(c.entityId))
    || (attribute == ":_tx/change" && value == JsonValue(c.json))
  }

  ghost predicate IsChange(before: seq<Triple>, tx: Transaction, c: Change)
    requires |tx.ids| >= |tx.operations|
  {
    IsMade(before, tx.operations, tx.ids, tx.instant, c)
  }

  ghost predicate Says(before: seq<Triple>, tx: Transaction, attribute: string, value: TripleValue)
    requires |tx.ids| >= |tx.operations|
  {
    !tx.meta.suppressed &&
    (SaysSingle(tx.position, tx.instant, tx.meta, attribute, value)
     || exists c {:trigger IsChange(before, tx, c)} :: IsChange(before, tx, c) && SaysChange(c, attribute, value))
  }

  lemma SinglesIff(position: nat, instant: int, meta: Meta, input: Input)
    ensures input in Singles(position, instant, meta)
      <==> SaysSingle(position, instant, meta, input.attribute, input.value)
  {
    NamesDiffer();
    TextIff(ACTOR, meta.actor, input);
    TextIff(COMMAND_ID, meta.commandId, input);
    TextIff(CORRELATION_ID, meta.correlationId, input);
    TextIff(CAUSATION_ID, meta.causationId, input);
    TextIff(CONFIG_SNAPSHOT, meta.configSnapshot, input);
  }

  lemma TextIff(attribute: string, text: Option<string>, input: Input)
    ensures input in TextInput(attribute, text) <==> input.attribute == attribute && IsText(text, input.value)
  {
  }

  lemma ChangesIff(changes: seq<Change>, input: Input)
    ensures input in EntityInputs(ChangedEntities(changes)) + ChangeInputs(changes)
      <==> exists c :: c in changes && SaysChange(c, input.attribute, input.value)
  {
    if input in EntityInputs(ChangedEntities(changes)) {
      var entity :| entity in ChangedEntities(changes) && Input(CHANGED_ENTITY, RefValue(entity)) == input;
      var c :| c in changes && c.entityId == entity;
      assert SaysChange(c, input.attribute, input.value);
    }
    if c :| c in changes && SaysChange(c, input.attribute, input.value) {
      assert c.entityId in ChangedEntities(changes);
    }
  }

  lemma InputsIff(before: seq<Triple>, tx: Transaction, input: Input)
    requires |tx.ids| >= |tx.operations| && IsStored(before)
    ensures input in Inputs(before, tx) <==> Says(before, tx, input.attribute, input.value)
  {
    var changes := Changes(before, tx.operations, tx.ids, tx.instant);
    SinglesIff(tx.position, tx.instant, tx.meta, input);
    ChangesIff(changes, input);
    forall c ensures c in changes <==> IsChange(before, tx, c) {
      ChangesAreThoseMade(before, tx.operations, tx.ids, tx.instant, c);
    }
  }

  // ---- What is stored of it -----------------------------------------------------------

  /** A fact of the transaction's own entity, valid from its instant on. */
  predicate IsJournalRow(tx: Transaction, f: Triple, attribute: string, value: TripleValue) {
    && f.entityId == tx.txId && f.entityType == Some("_Transaction") && f.attribute == attribute && f.value == value
    && f.validFrom == tx.instant && f.validTo.None?
  }

  ghost predicate HasJournalRow(facts: seq<Triple>, tx: Transaction, attribute: string, value: TripleValue) {
    exists f {:trigger IsJournalRow(tx, f, attribute, value)} :: f in facts && IsJournalRow(tx, f, attribute, value)
  }

  lemma NothingElseIsOfTheTransaction(before: seq<Triple>, tx: Transaction, f: Triple)
    requires |tx.ids| >= |tx.operations| && |tx.journalIds| >= |Inputs(before, tx)|
    requires (forall g :: g in before ==> g.entityId != tx.txId) && Authorized(tx.operations, tx.txId)
    requires f in After(before, tx) && f.entityId == tx.txId
    ensures f in JournalRows(Inputs(before, tx), tx.journalIds, tx.txId, tx.instant)
  {
    if f in Facts(before, tx) {
      CommittedComesFrom(before, tx.operations, tx.ids, tx.instant, f);
    }
  }

  /**
   * What a transaction leaves of itself is what it says, as facts of its own entity: who and when, each changed
   * entity, and every assertion and retraction.
   */
  lemma JournalSays(before: seq<Triple>, tx: Transaction, attribute: string, value: TripleValue)
    requires |tx.ids| >= |tx.operations| && |tx.journalIds| >= |Inputs(before, tx)| && IsStored(before)
    requires (forall g :: g in before ==> g.entityId != tx.txId) && Authorized(tx.operations, tx.txId)
    ensures HasJournalRow(After(before, tx), tx, attribute, value) <==> Says(before, tx, attribute, value)
  {
    var inputs := Inputs(before, tx);
    InputsIff(before, tx, Input(attribute, value));
    if Input(attribute, value) in inputs {
      var row := RowOf(inputs, tx.journalIds, tx.txId, tx.instant, Input(attribute, value));
      assert IsJournalRow(tx, row, attribute, value);
    }
    if f :| f in After(before, tx) && IsJournalRow(tx, f, attribute, value) {
      NothingElseIsOfTheTransaction(before, tx, f);
      InputOf(inputs, tx.journalIds, tx.txId, tx.instant, f);
    }
  }

  /** And there is no other fact of that entity. */
  lemma JournalSaysNoMore(before: seq<Triple>, tx: Transaction, f: Triple)
    requires |tx.ids| >= |tx.operations| && |tx.journalIds| >= |Inputs(before, tx)| && IsStored(before)
    requires (forall g :: g in before ==> g.entityId != tx.txId) && Authorized(tx.operations, tx.txId)
    requires f in After(before, tx) && f.entityId == tx.txId
    ensures IsJournalRow(tx, f, f.attribute, f.value) && Says(before, tx, f.attribute, f.value)
  {
    var inputs := Inputs(before, tx);
    NothingElseIsOfTheTransaction(before, tx, f);
    InputOf(inputs, tx.journalIds, tx.txId, tx.instant, f);
    InputsIff(before, tx, Input(f.attribute, f.value));
  }
}
