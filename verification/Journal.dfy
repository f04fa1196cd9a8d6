/**
 * The facts by which a transaction describes itself, written after the check,
 * and the rules on them that no transaction can break.
 */
module Journal {
  import opened Wrappers
  import opened Seqs
  import opened Triples
  import opened Constraint
  import opened Commit

  const TRANSACTION_TYPE := "_Transaction"

  const POSITION := ":_tx/position"
  const INSTANT := ":_tx/instant"
  const ACTOR := ":_tx/actor"
  const COMMAND_ID := ":_tx/command-id"
  const CORRELATION_ID := ":_tx/correlation-id"
  const CAUSATION_ID := ":_tx/causation-id"
  const CONFIG_SNAPSHOT := ":_tx/config-snapshot"
  const CHANGED_ENTITY := ":_tx/changed-entity"
  const CHANGE := ":_tx/change"

  predicate IsTextAttribute(a: string) {
    a == ACTOR || a == COMMAND_ID || a == CORRELATION_ID || a == CAUSATION_ID || a == CONFIG_SNAPSHOT
  }

  predicate IsJournalAttribute(a: string) {
    a == POSITION || a == INSTANT || IsTextAttribute(a) || a == CHANGED_ENTITY || a == CHANGE
  }

  /** No two of the names are equal: all but two differ in length, and those two in their seventh letter. */
  lemma NamesDiffer()
    ensures POSITION != INSTANT && !IsTextAttribute(POSITION) && !IsTextAttribute(INSTANT)
    ensures CHANGED_ENTITY != CHANGE && CHANGED_ENTITY != POSITION && CHANGED_ENTITY != INSTANT
    ensures !IsTextAttribute(CHANGED_ENTITY)
    ensures CHANGE != POSITION && CHANGE != INSTANT && !IsTextAttribute(CHANGE)
    ensures ACTOR != COMMAND_ID && ACTOR != CORRELATION_ID && ACTOR != CAUSATION_ID && ACTOR != CONFIG_SNAPSHOT
    ensures COMMAND_ID != CORRELATION_ID && COMMAND_ID != CAUSATION_ID && COMMAND_ID != CONFIG_SNAPSHOT
    ensures CORRELATION_ID != CAUSATION_ID && CORRELATION_ID != CONFIG_SNAPSHOT && CAUSATION_ID != CONFIG_SNAPSHOT
  {
    assert |POSITION| == 13 && |INSTANT| == 12 && |ACTOR| == 10 && |COMMAND_ID| == 15 && |CORRELATION_ID| == 19;
    assert |CAUSATION_ID| == 17 && |CONFIG_SNAPSHOT| == 20 && |CHANGED_ENTITY| == 19 && |CHANGE| == 11;
    assert CORRELATION_ID[6] == 'o' && CHANGED_ENTITY[6] == 'h';
  }

  // ---- What a transaction says about itself ---------------------------------

  datatype Meta = Meta(
    actor: Option<string>,
    commandId: Option<string>,
    correlationId: Option<string>,
    causationId: Option<string>,
    configSnapshot: Option<string>,
    suppressed: bool)

  /** A changed fact: its entity, and a text that names the fact and whether it was asserted or retracted. */
  datatype Change = Change(entityId: string, json: string)

  datatype Input = Input(attribute: string, value: TripleValue)

  function Asserting(entityId: string, id: string): Change {
    Change(entityId, "+" + id)
  }

  function Retracting(): Triple -> Change {
    (f: Triple) => Change(f.entityId, "-" + if f.id.Stored? then f.id.name else "")
  }

  function OpChanges(live: seq<Triple>, op: TransactOp, id: string): seq<Change> {
    match op
    case Assert(entityId, _, _, _, _, _) => [Asserting(entityId, id)]
    case Retract(target) => Map(Retracting(), Filter((f: Triple) => f.id == target, live))
    case RetractPattern(pattern) => Map(Retracting(), Filter((f: Triple) => AdapterMatches(f, pattern), live))
  }

  /** What the operations change, in order. */
  function Changes(live: seq<Triple>, operations: seq<TransactOp>, ids: seq<string>, instant: int): seq<Change>
    requires |ids| >= |operations|
  {
    if operations == [] then []
    else
      var last := |operations| - 1;
      Changes(live, operations[..last], ids, instant)
        + OpChanges(Committed(live, operations[..last], ids, instant), operations[last], ids[last])
  }

  /** An absent or empty text is not written. */
  function TextInput(attribute: string, text: Option<string>): seq<Input> {
    if text.None? || text.value == "" then [] else [Input(attribute, StringValue(text.value))]
  }

  function Singles(position: nat, instant: int, meta: Meta): seq<Input> {
    [Input(POSITION, NumberValue(position)), Input(INSTANT, DateTimeValue(instant))]
    + TextInput(ACTOR, meta.actor) + TextInput(COMMAND_ID, meta.commandId)
    + TextInput(CORRELATION_ID, meta.correlationId)
    + TextInput(CAUSATION_ID, meta.causationId) + TextInput(CONFIG_SNAPSHOT, meta.configSnapshot)
  }

  function EntityInputs(entities: seq<string>): seq<Input> {
    Map((entity: string) => Input(CHANGED_ENTITY, RefValue(entity)), entities)
  }

  function ChangeInputs(changes: seq<Change>): seq<Input> {
    Map((change: Change) => Input(CHANGE, JsonValue(change.json)), changes)
  }

  function ChangedEntities(changes: seq<Change>): seq<string> {
    Distinct(Map((change: Change) => change.entityId, changes))
  }

  function MetadataInputs(position: nat, instant: int, meta: Meta, changes: seq<Change>): seq<Input> {
    if meta.suppressed then []
    else Singles(position, instant, meta) + EntityInputs(ChangedEntities(changes)) + ChangeInputs(changes)
  }

  /** The journal facts, under the ids generated for them, valid from the transaction's instant on. */
  function JournalRows(inputs: seq<Input>, ids: seq<string>, txId: string, instant: int): (rows: seq<Triple>)
    requires |ids| >= |inputs|
    ensures |rows| == |inputs|
    ensures forall f :: f in rows ==>
      f.entityId == txId && f.entityType == Some(TRANSACTION_TYPE) && f.id.Stored? && f.id.name in ids
  {
    if inputs == [] then []
    else
      var last := |inputs| - 1;
      JournalRows(inputs[..last], ids, txId, instant)
        + [Triple(Stored(ids[last]), txId, inputs[last].attribute, inputs[last].value, Some(TRANSACTION_TYPE), instant,
          None)]
  }

  // ---- How often the journal says what ------------------------------------

  function Tally(inputs: seq<Input>, attribute: string): nat {
    if inputs == [] then 0
    else Tally(inputs[..|inputs| - 1], attribute) + if inputs[|inputs| - 1].attribute == attribute then 1 else 0
  }

  lemma {:induction false} TallyConcat(a: seq<Input>, b: seq<Input>, attribute: string)
    ensures Tally(a + b, attribute) == Tally(a, attribute) + Tally(b, attribute)
  {
    if b == [] {
      assert a + b == a;
    } else {
      TallyConcat(a, b[..|b| - 1], attribute);
      assert (a + b)[..|a + b| - 1] == a + b[..|b| - 1];
    }
  }

  lemma {:induction false} TallyOfOne(inputs: seq<Input>, one: string, attribute: string)
    requires forall input :: input in inputs ==> input.attribute == one
    ensures Tally(inputs, attribute) == if attribute == one then |inputs| else 0
  {
    if inputs != [] {
      assert inputs[|inputs| - 1] in inputs;
      TallyOfOne(inputs[..|inputs| - 1], one, attribute);
    }
  }

  function TextTally(one: string, text: Option<string>, attribute: string): nat {
    if attribute == one && text.Some? && text.value != "" then 1 else 0
  }

  lemma TallyOfText(one: string, text: Option<string>, attribute: string)
    ensures Tally(TextInput(one, text), attribute) == TextTally(one, text, attribute)
  {
    TallyOfOne(TextInput(one, text), one, attribute);
  }

  lemma SinglesParts(position: nat, instant: int, meta: Meta, attribute: string)
    ensures Tally(Singles(position, instant, meta), attribute)
      == (if attribute == POSITION then 1 else 0) + (if attribute == INSTANT then 1 else 0)
         + TextTally(ACTOR, meta.actor, attribute) + TextTally(COMMAND_ID, meta.commandId, attribute)
         + TextTally(CORRELATION_ID, meta.correlationId, attribute)
         + TextTally(CAUSATION_ID, meta.causationId, attribute)
         + TextTally(CONFIG_SNAPSHOT, meta.configSnapshot, attribute)
  {
    var p, i := [Input(POSITION, NumberValue(position))], [Input(INSTANT, DateTimeValue(instant))];
    var a, c := TextInput(ACTOR, meta.actor), TextInput(COMMAND_ID, meta.commandId);
    var r, u := TextInput(CORRELATION_ID, meta.correlationId), TextInput(CAUSATION_ID, meta.causationId);
    TallyConcat(p + i + a + c + r + u, TextInput(CONFIG_SNAPSHOT, meta.configSnapshot), attribute);
    TallyConcat(p + i + a + c + r, u, attribute);
    TallyConcat(p + i + a + c, r, attribute);
    TallyConcat(p + i + a, c, attribute);
    TallyConcat(p + i, a, attribute);
    TallyConcat(p, i, attribute);
    TallyOfOne(p, POSITION, attribute);
    TallyOfOne(i, INSTANT, attribute);
    TallyOfText(ACTOR, meta.actor, attribute);
    TallyOfText(COMMAND_ID, meta.commandId, attribute);
    TallyOfText(CORRELATION_ID, meta.correlationId, attribute);
    TallyOfText(CAUSATION_ID, meta.causationId, attribute);
    TallyOfText(CONFIG_SNAPSHOT, meta.configSnapshot, attribute);
    assert Singles(position, instant, meta)
      == p + i + a + c + r + u + TextInput(CONFIG_SNAPSHOT, meta.configSnapshot) by {
      assert p + i == [Input(POSITION, NumberValue(position)), Input(INSTANT, DateTimeValue(instant))];
    }
  }

  lemma SinglesTally(position: nat, instant: int, meta: Meta, attribute: string)
    ensures Tally(Singles(position, instant, meta), attribute) <= 1
    ensures attribute == POSITION || attribute == INSTANT ==> Tally(Singles(position, instant, meta), attribute) == 1
    ensures !(attribute == POSITION || attribute == INSTANT || IsTextAttribute(attribute)) ==>
      Tally(Singles(position, instant, meta), attribute) == 0
  {
    NamesDiffer();
    SinglesParts(position, instant, meta, attribute);
  }

  /** How often each attribute appears in a journal that is written. */
  lemma MetadataTally(position: nat, instant: int, meta: Meta, changes: seq<Change>, attribute: string)
    requires !meta.suppressed
    ensures Tally(MetadataInputs(position, instant, meta, changes), attribute)
      == if attribute == CHANGED_ENTITY then |ChangedEntities(changes)|
         else if attribute == CHANGE then |changes|
         else Tally(Singles(position, instant, meta), attribute)
  {
    NamesDiffer();
    var singles, entities, each :=
      Singles(position, instant, meta), EntityInputs(ChangedEntities(changes)), ChangeInputs(changes);
    TallyConcat(singles + entities, each, attribute);
    TallyConcat(singles, entities, attribute);
    TallyOfOne(entities, CHANGED_ENTITY, attribute);
    TallyOfOne(each, CHANGE, attribute);
    SinglesTally(position, instant, meta, attribute);
  }

  lemma {:induction false} JournalCount(inputs: seq<Input>, ids: seq<string>, txId: string, instant: int,
                                        attribute: string, t: int)
    requires |ids| >= |inputs|
    ensures Count(JournalRows(inputs, ids, txId, instant), txId, attribute, t)
      == if t >= instant then Tally(inputs, attribute) else 0
  {
    if inputs != [] {
      var last := |inputs| - 1;
      var init := JournalRows(inputs[..last], ids, txId, instant);
      var row := Triple(Stored(ids[last]), txId, inputs[last].attribute, inputs[last].value, Some(TRANSACTION_TYPE),
        instant, None);
      JournalCount(inputs[..last], ids, txId, instant, attribute, t);
      FilterConcat(ValuesOf(txId, attribute, t), init, [row]);
      assert Filter(ValuesOf(txId, attribute, t), [row]) == if ValuesOf(txId, attribute, t)(row) then [row] else [];
    }
  }

  lemma {:induction false} RowOf(inputs: seq<Input>, ids: seq<string>, txId: string, instant: int,
                                 input: Input) returns (row: Triple)
    requires |ids| >= |inputs| && input in inputs
    ensures row in JournalRows(inputs, ids, txId, instant)
    ensures row.attribute == input.attribute && row.value == input.value && row.validFrom == instant
    ensures row.validTo.None?
  {
    var last := |inputs| - 1;
    if input == inputs[last] {
      row := Triple(Stored(ids[last]), txId, inputs[last].attribute, inputs[last].value, Some(TRANSACTION_TYPE),
        instant, None);
    } else {
      row := RowOf(inputs[..last], ids, txId, instant, input);
    }
  }

  lemma {:induction false} InputOf(inputs: seq<Input>, ids: seq<string>, txId: string, instant: int, row: Triple)
    requires |ids| >= |inputs| && row in JournalRows(inputs, ids, txId, instant)
    ensures Input(row.attribute, row.value) in inputs && row.validFrom == instant && row.validTo.None?
  {
    var last := |inputs| - 1;
    if row in JournalRows(inputs[..last], ids, txId, instant) {
      InputOf(inputs[..last], ids, txId, instant, row);
    }
  }

  // ---- Rules no journal breaks ---------------------------------------------

  /** Values of these attributes are never repeated by another transaction. */
  predicate NeverRepeated(attribute: string) {
    attribute == POSITION || attribute == COMMAND_ID || attribute == CHANGE
  }

  /** A rule the journal, written unchecked, cannot break. */
  predicate KeptByJournals(rule: Rule) {
    rule.entityType != TRANSACTION_TYPE ||
    match rule
    case Required(_, a) => a == POSITION || a == INSTANT
    case Cardinality(_, a, max) =>
      if a == CHANGED_ENTITY || a == CHANGE then false else if IsJournalAttribute(a) then max >= 1 else max >= 0
    case Unique(_, a) => NeverRepeated(a) || !IsJournalAttribute(a)
    case ReferenceTarget(_, a, _) => !IsJournalAttribute(a)
  }

  /** The journal's entity is new, and so is each value that names this transaction alone. */
  ghost predicate IsNews(inputs: seq<Input>, txId: string, facts: seq<Triple>) {
    && (forall f :: f in facts ==> f.entityId != txId)
    && forall f :: f in facts && NeverRepeated(f.attribute) ==> Input(f.attribute, f.value) !in inputs
  }

  lemma TypesBesideTheJournal(facts: seq<Triple>, inputs: seq<Input>, ids: seq<string>, txId: string, instant: int,
                              s: string, ty: string, t: int)
    requires |ids| >= |inputs| && IsNews(inputs, txId, facts)
    ensures var all := facts + JournalRows(inputs, ids, txId, instant);
      && (s != txId ==> (HasType(all, s, ty, t) <==> HasType(facts, s, ty, t)))
      && (HasType(all, txId, ty, t) ==> ty == TRANSACTION_TYPE && t >= instant && inputs != [])
  {
    var rows := JournalRows(inputs, ids, txId, instant);
    forall row | row in rows ensures row.validFrom == instant {
      InputOf(inputs, ids, txId, instant, row);
    }
  }

  lemma CountBesideTheJournal(facts: seq<Triple>, inputs: seq<Input>, ids: seq<string>, txId: string, instant: int,
                              s: string, a: string, t: int)
    requires |ids| >= |inputs| && IsNews(inputs, txId, facts)
    ensures Count(facts + JournalRows(inputs, ids, txId, instant), s, a, t)
      == if s == txId then (if t >= instant then Tally(inputs, a) else 0) else Count(facts, s, a, t)
  {
    var rows := JournalRows(inputs, ids, txId, instant);
    FilterConcat(ValuesOf(s, a, t), facts, rows);
    if s == txId {
      FilterNone(ValuesOf(s, a, t), facts);
      JournalCount(inputs, ids, txId, instant, a, t);
    } else {
      FilterNone(ValuesOf(s, a, t), rows);
    }
  }

  /** A value is claimed by the new transaction alone, or by exactly those who claimed it before. */
  lemma ClaimsBesideTheJournal(
      facts: seq<Triple>, inputs: seq<Input>, ids: seq<string>, txId: string, instant: int, rule: Rule,
      value: TripleValue, t: int)
    requires |ids| >= |inputs| && IsNews(inputs, txId, facts)
    requires rule.entityType != TRANSACTION_TYPE || NeverRepeated(rule.attribute) || forall input :: input in inputs ==>
      input.attribute != rule.attribute
    ensures var all := facts + JournalRows(inputs, ids, txId, instant);
      Claimants(all, rule, value, t) == Claimants(facts, rule, value, t) || Claimants(all, rule, value, t) <= {txId}
  {
    var rows := JournalRows(inputs, ids, txId, instant);
    var all := facts + rows;
    forall f | f in facts ensures IsClaim(all, rule, value, t, f) <==> IsClaim(facts, rule, value, t, f) {
      TypesBesideTheJournal(facts, inputs, ids, txId, instant, f.entityId, rule.entityType, t);
    }
    forall row | row in rows && IsClaim(all, rule, value, t, row)
      ensures forall f :: f in facts ==> !IsClaim(facts, rule, value, t, f)
    {
      InputOf(inputs, ids, txId, instant, row);
      TypesBesideTheJournal(facts, inputs, ids, txId, instant, txId, rule.entityType, t);
    }
    if row :| row in rows && IsClaim(all, rule, value, t, row) {
      assert forall f :: f in all && IsClaim(all, rule, value, t, f) ==> f.entityId == txId;
    } else {
      assert forall f :: f in all && IsClaim(all, rule, value, t, f) ==> f in facts;
      assert Claimants(all, rule, value, t) == Claimants(facts, rule, value, t);
    }
  }

  lemma KeptRulesHoldOfTheTransaction(
      facts: seq<Triple>, position: nat, instant: int, meta: Meta, changes: seq<Change>, ids: seq<string>,
      txId: string, rule: Rule, t: int, v: Violation)
    requires var inputs := MetadataInputs(position, instant, meta, changes);
      && |ids| >= |inputs| && IsNews(inputs, txId, facts) && KeptByJournals(rule)
      && Breaks(facts + JournalRows(inputs, ids, txId, instant), rule, t, v)
    ensures v.subject != txId
  {
    var inputs := MetadataInputs(position, instant, meta, changes);
    if v.subject == txId {
      TypesBesideTheJournal(facts, inputs, ids, txId, instant, txId, rule.entityType, t);
      CountBesideTheJournal(facts, inputs, ids, txId, instant, txId, rule.attribute, t);
      MetadataTally(position, instant, meta, changes, rule.attribute);
      SinglesTally(position, instant, meta, rule.attribute);
      NamesDiffer();
      if !IsJournalAttribute(rule.attribute) {
        InputsAreJournalAttributes(position, instant, meta, changes);
        NoRowOf(inputs, ids, txId, instant, rule.attribute);
      }
      if rule.Unique? {
        InputsAreJournalAttributes(position, instant, meta, changes);
        ClaimsBesideTheJournal(facts, inputs, ids, txId, instant, rule, v.valueIdentity.value, t);
        NobodyElseClaims(facts, txId, rule, v.valueIdentity.value, t);
        AtMostOne(Claimants(facts + JournalRows(inputs, ids, txId, instant), rule, v.valueIdentity.value, t), txId);
      }
    }
  }

  lemma AtMostOne(s: set<string>, x: string)
    ensures s <= {x} ==> |s| <= 1
  {
    if s <= {x} && x in s {
      assert s == {x};
    } else if s <= {x} {
      assert s == {};
    }
  }

  lemma SinglesAreJournalAttributes(position: nat, instant: int, meta: Meta)
    ensures forall input :: input in Singles(position, instant, meta) ==> IsJournalAttribute(input.attribute)
  {
  }

  lemma InputsAreJournalAttributes(position: nat, instant: int, meta: Meta, changes: seq<Change>)
    ensures forall input :: input in MetadataInputs(position, instant, meta, changes) ==>
      IsJournalAttribute(input.attribute)
  {
    SinglesAreJournalAttributes(position, instant, meta);
    var entities, each := EntityInputs(ChangedEntities(changes)), ChangeInputs(changes);
    assert forall i :: 0 <= i < |entities| ==> entities[i].attribute == CHANGED_ENTITY;
    assert forall i :: 0 <= i < |each| ==> each[i].attribute == CHANGE;
  }

  lemma NoRowOf(inputs: seq<Input>, ids: seq<string>, txId: string, instant: int, attribute: string)
    requires |ids| >= |inputs| && forall input :: input in inputs ==> input.attribute != attribute
    ensures forall row :: row in JournalRows(inputs, ids, txId, instant) ==> row.attribute != attribute
  {
    forall row | row in JournalRows(inputs, ids, txId, instant) ensures row.attribute != attribute {
      InputOf(inputs, ids, txId, instant, row);
    }
  }

  lemma NobodyElseClaims(facts: seq<Triple>, txId: string, rule: Rule, value: TripleValue, t: int)
    requires forall f :: f in facts ==> f.entityId != txId
    ensures txId !in Claimants(facts, rule, value, t)
  {
  }

  /** Writing the journal adds no violation of a kept rule. */
  lemma JournalAddsNoViolation(
      facts: seq<Triple>, position: nat, instant: int, meta: Meta, changes: seq<Change>, ids: seq<string>,
      txId: string, rule: Rule, t: int, v: Violation)
    requires var inputs := MetadataInputs(position, instant, meta, changes);
      && |ids| >= |inputs| && IsNews(inputs, txId, facts) && KeptByJournals(rule)
      && Breaks(facts + JournalRows(inputs, ids, txId, instant), rule, t, v)
    ensures Breaks(facts, rule, t, v)
  {
    var inputs := MetadataInputs(position, instant, meta, changes);
    var all := facts + JournalRows(inputs, ids, txId, instant);
    KeptRulesHoldOfTheTransaction(facts, position, instant, meta, changes, ids, txId, rule, t, v);
    TypesBesideTheJournal(facts, inputs, ids, txId, instant, v.subject, rule.entityType, t);
    CountBesideTheJournal(facts, inputs, ids, txId, instant, v.subject, rule.attribute, t);
    if rule.Unique? {
      InputsAreJournalAttributes(position, instant, meta, changes);
      ClaimsBesideTheJournal(facts, inputs, ids, txId, instant, rule, v.valueIdentity.value, t);
    }
    if rule.ReferenceTarget? && v.valueIdentity.value.RefValue? {
      var target := v.valueIdentity.value.target;
      assert !HasType(facts, target, rule.targetEntityType, t);
    }
  }
}
