/**
 * For every rule the journal can break, an accepted transaction whose journal
 * breaks it; so enforcement is safe for exactly the rule sets without one.
 */
module JournalBreaches {
  import opened Wrappers
  import opened Seqs
  import opened Triples
  import opened Constraint
  import ConstraintBoundaries
  import opened ConstraintSlice
  import opened Commit
  import opened PatternSafety
  import opened Journal
  import opened Enforcement

  // ---- Names --------------------------------------------------------------

  function Name(prefix: char, k: nat): (name: string)
    ensures |name| == k + 1 && name[0] == prefix
  {
    if k == 0 then [prefix] else Name(prefix, k - 1) + ['x']
  }

  function Names(prefix: char, n: nat): (names: seq<string>)
    ensures |names| == n && forall k :: 0 <= k < n ==> names[k] == Name(prefix, k)
  {
    if n == 0 then [] else Names(prefix, n - 1) + [Name(prefix, n - 1)]
  }

  lemma NamesAreDistinct(a: char, n: nat, b: char, m: nat)
    requires a != b
    ensures NoDuplicates(Names(a, n) + Names(b, m))
    ensures forall x :: x in Names(a, n) + Names(b, m) ==> x != "" && (x[0] == a || x[0] == b)
  {
    var all := Names(a, n) + Names(b, m);
    forall i, j | 0 <= i < j < |all| ensures all[i] != all[j] {
      assert all[i][0] != all[j][0] || |all[i]| != |all[j]|;
    }
  }

  // ---- Transactions that only assert untyped facts --------------------------

  /** A fact of the n-th entity under an attribute no rule of the journal is about. */
  function Plain(n: nat): TransactOp {
    Assert(Name('e', n), ":x", StringValue(""), None, None, None)
  }

  function Plains(n: nat): (operations: seq<TransactOp>)
    ensures |operations| == n && forall k :: 0 <= k < n ==> operations[k] == Plain(k)
  {
    if n == 0 then [] else Plains(n - 1) + [Plain(n - 1)]
  }

  function LoaderOf(store: seq<Triple>): FactLoader {
    FactLoader((ty: string) => Filter((f: Triple) => f.entityType == Some(ty), store),
               (ids: seq<string>) => Filter((f: Triple) => f.entityId in ids, store))
  }

  /** No entity named like the plain ones has a type. */
  ghost predicate PlainsAreUntyped(facts: seq<Triple>) {
    forall f :: f in facts && f.entityId != "" && f.entityId[0] == 'e' ==> f.entityType.None?
  }

  lemma UntypedAddsNoType(facts: seq<Triple>, f: Triple, s: string, ty: string, t: int)
    requires f.entityType.None?
    ensures HasType(facts + [f], s, ty, t) <==> HasType(facts, s, ty, t)
  {
  }

  lemma UntypedAddsNoClaim(facts: seq<Triple>, f: Triple, rule: Rule, value: TripleValue, t: int)
    requires f.entityType.None? && forall g :: g in facts && g.entityId == f.entityId ==> g.entityType.None?
    ensures Claimants(facts + [f], rule, value, t) == Claimants(facts, rule, value, t)
  {
    forall g | g in facts + [f]
      ensures IsClaim(facts + [f], rule, value, t, g) <==> g in facts && IsClaim(facts, rule, value, t, g)
    {
      UntypedAddsNoType(facts, f, g.entityId, rule.entityType, t);
    }
  }

  /** A fact of an entity without type adds no violation. */
  lemma UntypedAddsNothing(facts: seq<Triple>, f: Triple, rule: Rule, t: int, v: Violation)
    requires f.entityType.None? && forall g :: g in facts && g.entityId == f.entityId ==> g.entityType.None?
    requires Breaks(facts + [f], rule, t, v)
    ensures Breaks(facts, rule, t, v)
  {
    UntypedAddsNoType(facts, f, v.subject, rule.entityType, t);
    assert v.subject != f.entityId;
    FilterConcat(ValuesOf(v.subject, rule.attribute, t), facts, [f]);
    FilterNone(ValuesOf(v.subject, rule.attribute, t), [f]);
    if rule.Unique? {
      UntypedAddsNoClaim(facts, f, rule, v.valueIdentity.value, t);
    }
    if rule.ReferenceTarget? && v.valueIdentity.value.RefValue? {
      UntypedAddsNoType(facts, f, v.valueIdentity.value.target, rule.targetEntityType, t);
    }
  }

  lemma UntypedKeepsSafe(rules: seq<Rule>, facts: seq<Triple>, f: Triple)
    requires Safe(facts, rules) && f.entityType.None? && forall g :: g in facts && g.entityId == f.entityId ==>
      g.entityType.None?
    ensures Safe(facts + [f], rules)
  {
    forall t: int, v ensures !Violates(facts + [f], rules, t, v) {
      if rule :| rule in rules && Breaks(facts + [f], rule, t, v) {
        UntypedAddsNothing(facts, f, rule, t, v);
        assert Violates(facts, rules, t, v);
      }
    }
  }

  lemma UntypedStep(rules: seq<Rule>, before: seq<Triple>, f: Triple)
    requires Safe(before, rules) && PlainsAreUntyped(before)
    requires f.entityType.None? && f.entityId != "" && f.entityId[0] == 'e'
    ensures Safe(before + [f], rules) && PlainsAreUntyped(before + [f])
  {
    UntypedKeepsSafe(rules, before, f);
  }

  lemma ProjectedSnoc(store: seq<Triple>, init: seq<TransactOp>, op: TransactOp, instant: int)
    ensures Projected(store, init + [op], instant)
      == ProjectStep(Projected(store, init, instant), op, Pending(|init|), instant)
  {
    assert (init + [op])[..|init|] == init;
  }

  lemma ChangesSnoc(store: seq<Triple>, init: seq<TransactOp>, op: TransactOp, ids: seq<string>, instant: int)
    requires |ids| > |init|
    ensures Changes(store, init + [op], ids, instant)
      == Changes(store, init, ids, instant) + OpChanges(Committed(store, init, ids, instant), op, ids[|init|])
  {
    assert (init + [op])[..|init|] == init;
  }

  lemma {:induction false} PlainsStaySafe(rules: seq<Rule>, store: seq<Triple>, n: nat, instant: int)
    requires Safe(store, rules) && PlainsAreUntyped(store)
    ensures Safe(Projected(store, Plains(n), instant), rules) && PlainsAreUntyped(Projected(store, Plains(n), instant))
  {
    if n > 0 {
      PlainsStaySafe(rules, store, n - 1, instant);
      ProjectedSnoc(store, Plains(n - 1), Plain(n - 1), instant);
      UntypedStep(rules, Projected(store, Plains(n - 1), instant), Asserted(Plain(n - 1), Pending(n - 1), instant));
    }
  }

  lemma PlainsAreAccepted(rules: seq<Rule>, store: seq<Triple>, n: nat, instant: int)
    requires Keyed(store) && Safe(store, rules) && PlainsAreUntyped(store)
    ensures Serves(LoaderOf(store), store)
    ensures Accepts(LoadRelevantFacts(rules, Plains(n), LoaderOf(store)), Plains(n), rules, instant)
  {
    PlainsStaySafe(rules, store, n, instant);
    assert Accepts(store, Plains(n), rules, instant);
    SliceIsExact(rules, Plains(n), LoaderOf(store), store, instant);
  }

  lemma {:induction false} PlainsCommitted(store: seq<Triple>, n: nat, ids: seq<string>, instant: int)
    requires |ids| >= n
    ensures forall f :: f in Committed(store, Plains(n), ids, instant) ==>
      f in store || (f.entityType.None? && f.attribute == ":x" && f.entityId != "" && f.entityId[0] == 'e')
  {
    forall f | f in Committed(store, Plains(n), ids, instant)
      ensures f in store || (f.entityType.None? && f.attribute == ":x" && f.entityId != "" && f.entityId[0] == 'e')
    {
      CommittedComesFrom(store, Plains(n), ids, instant, f);
    }
  }

  function PlainAsserting(ids: seq<string>, n: nat): (changes: seq<Change>)
    requires n <= |ids|
    ensures |changes| == n && forall k :: 0 <= k < n ==> changes[k] == Asserting(Name('e', k), ids[k])
  {
    if n == 0 then [] else PlainAsserting(ids, n - 1) + [Asserting(Name('e', n - 1), ids[n - 1])]
  }

  lemma {:induction false} PlainChanges(store: seq<Triple>, n: nat, ids: seq<string>, instant: int)
    requires |ids| >= n
    ensures Changes(store, Plains(n), ids, instant) == PlainAsserting(ids, n)
  {
    if n > 0 {
      PlainChanges(store, n - 1, ids, instant);
      ChangesSnoc(store, Plains(n - 1), Plain(n - 1), ids, instant);
    }
  }

  lemma {:induction false} DistinctOfDistinct(s: seq<string>)
    requires NoDuplicates(s)
    ensures Distinct(s) == s
  {
    if s != [] {
      var init := s[..|s| - 1];
      DistinctOfDistinct(init);
      assert s[|s| - 1] !in init;
    }
  }

  lemma PlainEntities(ids: seq<string>, n: nat)
    requires |ids| >= n
    ensures ChangedEntities(PlainAsserting(ids, n)) == Names('e', n)
  {
    var entities := Map((change: Change) => change.entityId, PlainAsserting(ids, n));
    assert entities == Names('e', n);
    forall i, j | 0 <= i < j < n ensures entities[i] != entities[j] {
      assert |entities[i]| != |entities[j]|;
    }
    DistinctOfDistinct(entities);
  }

  /** n plain assertions change n entities. */
  lemma PlainChangesCount(store: seq<Triple>, n: nat, ids: seq<string>, instant: int)
    requires |ids| >= n
    ensures |Changes(store, Plains(n), ids, instant)| == n
    ensures ChangedEntities(Changes(store, Plains(n), ids, instant)) == Names('e', n)
  {
    PlainChanges(store, n, ids, instant);
    PlainEntities(ids, n);
  }

  // ---- The two transactions -----------------------------------------------

  const SILENT := Meta(None, None, None, None, None, false)

  /** Every optional text is given; the command id is the transaction's own. */
  function Speaking(command: string): Meta {
    Meta(Some("m"), Some(command), Some("m"), Some("m"), Some("m"), false)
  }

  function Attempt(store: seq<Triple>, n: nat, meta: Meta, position: nat, txId: string, a: char, b: char): Transaction {
    var changes := Changes(store, Plains(n), Names(a, n), 0);
    Transaction(Plains(n), 0, Names(a, n), txId, position, meta,
                Names(b, |MetadataInputs(position, 0, meta, changes)|), LoaderOf(store))
  }

  ghost predicate Unnamed(store: seq<Triple>, a: char, b: char) {
    forall f :: f in store && f.id.Stored? ==> f.id.name != "" && f.id.name[0] != a && f.id.name[0] != b
  }

  lemma PlainsAreForeseen(n: nat, ids: seq<string>, txId: string)
    requires txId != "" && txId[0] != 'e'
    ensures Foreseen(Plains(n), ids) && Authorized(Plains(n), txId)
  {
    NotAJournalAttribute();
    forall op | op in Plains(n) ensures op.Assert? && op.entityId != txId && op.attribute == ":x" {
      var k :| 0 <= k < n && Plains(n)[k] == op;
    }
  }

  lemma NamesAreFresh(store: seq<Triple>, n: nat, m: nat, a: char, b: char)
    requires Unnamed(store, a, b) && a != b
    ensures NoDuplicates(Names(a, n) + Names(b, m))
    ensures forall f :: f in store && f.id.Stored? ==> f.id.name !in Names(a, n) + Names(b, m)
  {
    NamesAreDistinct(a, n, b, m);
  }

  lemma AttemptIsWritten(rules: seq<Rule>, store: seq<Triple>, n: nat, meta: Meta, position: nat, txId: string, a: char,
                         b: char)
    requires Keyed(store) && Safe(store, rules) && PlainsAreUntyped(store) && Unnamed(store, a, b) && a != b
    requires txId != "" && txId[0] != 'e'
    requires IsNews(MetadataInputs(position, 0, meta, Changes(store, Plains(n), Names(a, n), 0)), txId, store)
    ensures Written(rules, store, Attempt(store, n, meta, position, txId, a, b))
  {
    PlainsAreAccepted(rules, store, n, 0);
    NamesAreFresh(store, n, |Attempt(store, n, meta, position, txId, a, b).journalIds|, a, b);
    PlainsAreForeseen(n, Names(a, n), txId);
  }

  lemma NotAJournalAttribute()
    ensures !IsJournalAttribute(":x")
  {
    assert |":x"| == 2 && |POSITION| == 13 && |INSTANT| == 12 && |ACTOR| == 10 && |COMMAND_ID| == 15
      && |CORRELATION_ID| == 19;
    assert |CAUSATION_ID| == 17 && |CONFIG_SNAPSHOT| == 20 && |CHANGED_ENTITY| == 19 && |CHANGE| == 11;
  }

  /** If the store is safe and the transaction is written, what follows is safe. */
  ghost predicate WritesSafely(rules: seq<Rule>, before: seq<Triple>, tx: Transaction) {
    Keyed(before) && Safe(before, rules) && Written(rules, before, tx) ==> Safe(After(before, tx), rules)
  }

  lemma EmptyIsSafe(rules: seq<Rule>)
    ensures Keyed([]) && Safe([], rules) && PlainsAreUntyped([])
  {
  }

  function First(n: nat, meta: Meta): Transaction {
    Attempt([], n, meta, 1, "t", 'i', 'j')
  }

  lemma FirstIsWritten(rules: seq<Rule>, n: nat, meta: Meta)
    ensures Written(rules, [], First(n, meta))
  {
    EmptyIsSafe(rules);
    AttemptIsWritten(rules, [], n, meta, 1, "t", 'i', 'j');
  }

  // ---- What the first journal violates --------------------------------------

  lemma FirstIsTyped(n: nat, meta: Meta, t: int)
    requires !meta.suppressed && t >= 0
    ensures HasType(After([], First(n, meta)), "t", TRANSACTION_TYPE, t)
  {
    var tx := First(n, meta);
    var inputs := Inputs([], tx);
    assert Input(POSITION, NumberValue(1)) in Singles(1, 0, meta);
    assert Input(POSITION, NumberValue(1)) in inputs;
    var row := RowOf(inputs, tx.journalIds, "t", 0, Input(POSITION, NumberValue(1)));
    assert row in After([], tx);
  }

  lemma FirstCount(n: nat, meta: Meta, attribute: string)
    ensures Count(After([], First(n, meta)), "t", attribute, 0) == Tally(Inputs([], First(n, meta)), attribute)
  {
    var tx := First(n, meta);
    PlainsCommitted([], n, tx.ids, 0);
    forall f | f in Facts([], tx) ensures !ValuesOf("t", attribute, 0)(f) {
      assert f.entityId[0] == 'e';
    }
    FilterConcat(ValuesOf("t", attribute, 0), Facts([], tx), JournalRows(Inputs([], tx), tx.journalIds, "t", 0));
    FilterNone(ValuesOf("t", attribute, 0), Facts([], tx));
    JournalCount(Inputs([], tx), tx.journalIds, "t", 0, attribute, 0);
  }

  lemma CountViolates(facts: seq<Triple>, rules: seq<Rule>, rule: Rule, subject: string)
    requires rule in rules && HasType(facts, subject, rule.entityType, 0)
    requires (rule.Required? && Count(facts, subject, rule.attribute, 0) == 0)
          || (rule.Cardinality? && Count(facts, subject, rule.attribute, 0) > rule.max)
    ensures !Safe(facts, rules)
  {
    var v := Violation(KeyOf(rule), CodeOf(rule), subject, rule.entityType, rule.attribute,
                       Count(facts, subject, rule.attribute, 0), None);
    assert Breaks(facts, rule, 0, v);
    assert Violates(facts, rules, 0, v);
  }

  lemma ViolatedByCount(rules: seq<Rule>, rule: Rule, n: nat, meta: Meta)
    requires rule in rules && rule.entityType == TRANSACTION_TYPE && !meta.suppressed
    requires (rule.Required? && Tally(Inputs([], First(n, meta)), rule.attribute) == 0)
          || (rule.Cardinality? && Tally(Inputs([], First(n, meta)), rule.attribute) > rule.max)
    ensures !WritesSafely(rules, [], First(n, meta))
  {
    EmptyIsSafe(rules);
    FirstIsWritten(rules, n, meta);
    FirstIsTyped(n, meta, 0);
    FirstCount(n, meta, rule.attribute);
    CountViolates(After([], First(n, meta)), rules, rule, "t");
  }

  lemma RequiredIsBreached(rules: seq<Rule>, rule: Rule)
    requires rule in rules && rule.Required? && !KeptByJournals(rule)
    ensures !WritesSafely(rules, [], First(0, SILENT))
  {
    PlainChangesCount([], 0, [], 0);
    SilentTally(rule.attribute);
    ViolatedByCount(rules, rule, 0, SILENT);
  }

  lemma SilentTally(attribute: string)
    ensures Tally(Inputs([], First(0, SILENT)), attribute)
      == if attribute == POSITION || attribute == INSTANT then 1 else 0
  {
    NamesDiffer();
    PlainChangesCount([], 0, Names('i', 0), 0);
    MetadataTally(1, 0, SILENT, Changes([], Plains(0), Names('i', 0), 0), attribute);
    SinglesParts(1, 0, SILENT, attribute);
  }

  lemma SpeakingSingles(attribute: string)
    ensures Tally(Singles(1, 0, Speaking("c")), attribute)
      == if IsJournalAttribute(attribute) && attribute != CHANGED_ENTITY && attribute != CHANGE then 1 else 0
  {
    NamesDiffer();
    SinglesParts(1, 0, Speaking("c"), attribute);
  }

  lemma SpeakingTally(n: nat, attribute: string)
    ensures Tally(Inputs([], First(n, Speaking("c"))), attribute)
      == if attribute == CHANGED_ENTITY || attribute == CHANGE then n else if IsJournalAttribute(attribute) then 1
        else 0
  {
    PlainChangesCount([], n, Names('i', n), 0);
    MetadataTally(1, 0, Speaking("c"), Changes([], Plains(n), Names('i', n), 0), attribute);
    SpeakingSingles(attribute);
  }

  lemma CardinalityIsBreached(rules: seq<Rule>, rule: Rule) returns (n: nat)
    requires rule in rules && rule.Cardinality? && !KeptByJournals(rule)
    ensures !WritesSafely(rules, [], First(n, Speaking("c")))
  {
    n := if rule.max < 0 then 0 else rule.max + 1;
    SpeakingTally(n, rule.attribute);
    ViolatedByCount(rules, rule, n, Speaking("c"));
  }

  lemma {:induction false} TalliedInput(inputs: seq<Input>, attribute: string) returns (input: Input)
    requires Tally(inputs, attribute) > 0
    ensures input in inputs && input.attribute == attribute
  {
    var last := |inputs| - 1;
    if inputs[last].attribute == attribute {
      input := inputs[last];
    } else {
      input := TalliedInput(inputs[..last], attribute);
    }
  }

  lemma SinglesReferToNothing(position: nat, instant: int, meta: Meta)
    ensures forall input :: input in Singles(position, instant, meta) ==> !input.value.RefValue?
  {
  }

  lemma ReferencesAreChangedEntities(position: nat, instant: int, meta: Meta, changes: seq<Change>, input: Input)
    requires input in MetadataInputs(position, instant, meta, changes) && input.value.RefValue?
    ensures input.value.target in ChangedEntities(changes)
  {
    SinglesReferToNothing(position, instant, meta);
    var entities, each := EntityInputs(ChangedEntities(changes)), ChangeInputs(changes);
    assert forall i :: 0 <= i < |each| ==> each[i].value.JsonValue?;
    assert input in entities;
  }

  lemma PlainNamesStart(n: nat, name: string)
    requires name in Names('e', n)
    ensures name != "" && name[0] == 'e'
  {
  }

  lemma PlainsHaveNoType(n: nat, meta: Meta, entity: string, target: string, t: int)
    requires entity != "" && entity[0] == 'e'
    ensures !HasType(After([], First(n, meta)), entity, target, t)
  {
    PlainsCommitted([], n, Names('i', n), 0);
  }

  /** What a first journal refers to are plain entities, which have no type. */
  lemma FirstTargetsAreUntyped(n: nat, meta: Meta, input: Input, target: string)
    requires input in Inputs([], First(n, meta)) && input.value.RefValue?
    ensures !HasType(After([], First(n, meta)), input.value.target, target, 0)
  {
    var changes := Changes([], Plains(n), Names('i', n), 0);
    ReferencesAreChangedEntities(1, 0, meta, changes, input);
    PlainChangesCount([], n, Names('i', n), 0);
    PlainNamesStart(n, input.value.target);
    PlainsHaveNoType(n, meta, input.value.target, target, 0);
  }

  lemma DanglingViolates(facts: seq<Triple>, rules: seq<Rule>, rule: Rule, row: Triple)
    requires rule in rules && rule.ReferenceTarget? && HasType(facts, row.entityId, rule.entityType, 0)
    requires row in facts && VisibleAt(row, 0) && row.attribute == rule.attribute
    requires row.value.RefValue? ==> !HasType(facts, row.value.target, rule.targetEntityType, 0)
    ensures !Safe(facts, rules)
  {
    var v := Violation(KeyOf(rule), ReferenceTargetCode, row.entityId, rule.entityType, rule.attribute, 1,
      Some(row.value));
    assert ValuesOf(row.entityId, rule.attribute, 0)(row);
    assert Breaks(facts, rule, 0, v);
    assert Violates(facts, rules, 0, v);
  }

  lemma FirstDangles(rules: seq<Rule>, rule: Rule, meta: Meta, input: Input)
    requires rule in rules && rule.ReferenceTarget? && rule.entityType == TRANSACTION_TYPE && !meta.suppressed
    requires input in Inputs([], First(1, meta)) && input.attribute == rule.attribute
    ensures !Safe(After([], First(1, meta)), rules)
  {
    var tx := First(1, meta);
    FirstIsTyped(1, meta, 0);
    var row := RowOf(Inputs([], tx), tx.journalIds, "t", 0, input);
    if input.value.RefValue? {
      FirstTargetsAreUntyped(1, meta, input, rule.targetEntityType);
    }
    DanglingViolates(After([], tx), rules, rule, row);
  }

  lemma ReferenceIsBreached(rules: seq<Rule>, rule: Rule)
    requires rule in rules && rule.ReferenceTarget? && !KeptByJournals(rule)
    ensures !WritesSafely(rules, [], First(1, Speaking("c")))
  {
    EmptyIsSafe(rules);
    FirstIsWritten(rules, 1, Speaking("c"));
    SpeakingTally(1, rule.attribute);
    var input := TalliedInput(Inputs([], First(1, Speaking("c"))), rule.attribute);
    FirstDangles(rules, rule, Speaking("c"), input);
  }

  // ---- A value said twice -------------------------------------------------

  function FirstStore(): seq<Triple> {
    After([], First(1, Speaking("c")))
  }

  function Second(): Transaction {
    Attempt(FirstStore(), 1, Speaking("d"), 2, "u", 'k', 'l')
  }

  /** What the one-assertion transaction with this command, position and id prefix says of itself. */
  function Sayings(store: seq<Triple>, command: string, position: nat, a: char): seq<Input> {
    MetadataInputs(position, 0, Speaking(command), Changes(store, Plains(1), Names(a, 1), 0))
  }

  /** The value only this transaction gives. */
  function Peculiar(command: string, position: nat, a: char, attribute: string): TripleValue {
    if attribute == POSITION then NumberValue(position)
    else if attribute == COMMAND_ID then StringValue(command)
    else JsonValue(Asserting(Name('e', 0), Name(a, 0)).json)
  }

  lemma SinglesArePeculiar(command: string, position: nat, a: char, input: Input)
    requires input in Singles(position, 0, Speaking(command)) && NeverRepeated(input.attribute)
    ensures input.value == Peculiar(command, position, a, input.attribute)
  {
    NamesDiffer();
  }

  lemma SayingsArePeculiar(store: seq<Triple>, command: string, position: nat, a: char, input: Input)
    requires input in Sayings(store, command, position, a) && NeverRepeated(input.attribute)
    ensures input.value == Peculiar(command, position, a, input.attribute)
  {
    NamesDiffer();
    var changes := Changes(store, Plains(1), Names(a, 1), 0);
    PlainChanges(store, 1, Names(a, 1), 0);
    var entities, each := EntityInputs(ChangedEntities(changes)), ChangeInputs(changes);
    assert forall i :: 0 <= i < |entities| ==> entities[i].attribute == CHANGED_ENTITY;
    assert each == [Input(CHANGE, Peculiar(command, position, a, CHANGE))];
    if input in Singles(position, 0, Speaking(command)) {
      SinglesArePeculiar(command, position, a, input);
    }
  }

  lemma PeculiarsDiffer(attribute: string)
    requires NeverRepeated(attribute)
    ensures Peculiar("c", 1, 'i', attribute) != Peculiar("d", 2, 'k', attribute)
  {
    assert "c"[0] != "d"[0];
    assert Asserting(Name('e', 0), Name('i', 0)).json[1] == 'i' && Asserting(Name('e', 0), Name('k', 0)).json[1] == 'k';
  }

  /** A fact of the first store: the plain one, or a journal fact. */
  lemma FirstStoreHolds(f: Triple)
    requires f in FirstStore()
    ensures f.id.Stored? && f.id.name != "" && (f.id.name[0] == 'i' || f.id.name[0] == 'j')
    ensures (f.entityId != "" && f.entityId[0] == 'e' && f.entityType.None? && f.attribute == ":x")
         || (f.entityId == "t" && Input(f.attribute, f.value) in Sayings([], "c", 1, 'i'))
  {
    var tx := First(1, Speaking("c"));
    NamesAreDistinct('i', 1, 'j', |tx.journalIds|);
    if f in Facts([], tx) {
      CommittedComesFrom([], tx.operations, tx.ids, 0, f);
      var k :| 0 <= k < 1 && f == ReadBack(Asserted(tx.operations[k], Stored(tx.ids[k]), 0));
    } else {
      InputOf(Inputs([], tx), tx.journalIds, "t", 0, f);
      assert f.id.name in tx.ids + tx.journalIds;
    }
  }

  lemma SecondIsNews()
    ensures IsNews(Sayings(FirstStore(), "d", 2, 'k'), "u", FirstStore())
  {
    NotAJournalAttribute();
    assert "u"[0] != 'e' && "u"[0] != "t"[0];
    forall f | f in FirstStore()
      ensures f.entityId != "u"
      ensures (NeverRepeated(f.attribute) ==> Input(f.attribute, f.value) !in Sayings(FirstStore(), "d", 2, 'k'))
    {
      FirstStoreHolds(f);
      if NeverRepeated(f.attribute) && Input(f.attribute, f.value) in Sayings(FirstStore(), "d", 2, 'k') {
        SayingsArePeculiar([], "c", 1, 'i', Input(f.attribute, f.value));
        SayingsArePeculiar(FirstStore(), "d", 2, 'k', Input(f.attribute, f.value));
        PeculiarsDiffer(f.attribute);
      }
    }
  }

  lemma FirstStoreIsKeyed(rules: seq<Rule>)
    ensures Keyed(FirstStore())
  {
    EmptyIsSafe(rules);
    FirstIsWritten(rules, 1, Speaking("c"));
    WritingKeepsKeys(rules, [], First(1, Speaking("c")));
  }

  lemma FirstStoreIsPlain()
    ensures PlainsAreUntyped(FirstStore()) && Unnamed(FirstStore(), 'k', 'l')
  {
    forall f | f in FirstStore()
      ensures f.id.name != "" && f.id.name[0] != 'k' && f.id.name[0] != 'l'
      ensures f.entityId != "" && f.entityId[0] == 'e' ==> f.entityType.None?
    {
      FirstStoreHolds(f);
      assert "t"[0] != 'e';
    }
  }

  lemma SecondIsWritten(rules: seq<Rule>)
    requires Safe(FirstStore(), rules)
    ensures Keyed(FirstStore()) && Written(rules, FirstStore(), Second())
  {
    FirstStoreIsKeyed(rules);
    FirstStoreIsPlain();
    SecondIsNews();
    AttemptIsWritten(rules, FirstStore(), 1, Speaking("d"), 2, "u", 'k', 'l');
  }

  /** The value both transactions give to an attribute that may repeat. */
  function Repeated(attribute: string): TripleValue {
    if attribute == INSTANT then DateTimeValue(0)
    else if attribute == CHANGED_ENTITY then RefValue(Name('e', 0))
    else StringValue("m")
  }

  lemma RepeatedIsSaid(store: seq<Triple>, command: string, position: nat, a: char, attribute: string)
    requires IsJournalAttribute(attribute) && !NeverRepeated(attribute)
    ensures Input(attribute, Repeated(attribute)) in Sayings(store, command, position, a)
  {
    NamesDiffer();
    var changes := Changes(store, Plains(1), Names(a, 1), 0);
    PlainChangesCount(store, 1, Names(a, 1), 0);
    if attribute == CHANGED_ENTITY {
      var entity := Name('e', 0);
      assert Names('e', 1)[0] == entity && entity in ChangedEntities(changes);
      assert Input(CHANGED_ENTITY, RefValue(entity)) in EntityInputs(ChangedEntities(changes));
    } else {
      RepeatedIsSingle(command, position, attribute);
    }
  }

  lemma RepeatedIsSingle(command: string, position: nat, attribute: string)
    requires attribute == INSTANT || (IsTextAttribute(attribute) && attribute != COMMAND_ID)
    ensures Input(attribute, Repeated(attribute)) in Singles(position, 0, Speaking(command))
  {
    NamesDiffer();
  }

  /** What a journal says of its transaction, the transaction claims. */
  lemma SayerClaims(facts: seq<Triple>, inputs: seq<Input>, ids: seq<string>, txId: string, rule: Rule,
                    value: TripleValue)
    requires |ids| >= |inputs| && Input(rule.attribute, value) in inputs && rule.entityType == TRANSACTION_TYPE
    requires forall row :: row in JournalRows(inputs, ids, txId, 0) ==> row in facts
    ensures txId in Claimants(facts, rule, value, 0) && HasType(facts, txId, rule.entityType, 0)
  {
    var row := RowOf(inputs, ids, txId, 0, Input(rule.attribute, value));
    assert row in facts && IsClaim(facts, rule, value, 0, row);
  }

  lemma FirstStoreStays(f: Triple)
    requires f in FirstStore()
    ensures f in After(FirstStore(), Second())
  {
    var facts, op := FirstStore(), Plain(0);
    assert Plains(1) == [op] && Plains(1)[..0] == [];
    assert Committed(facts, Plains(1)[..0], Names('k', 1), 0) == facts;
    assert Facts(facts, Second()) == facts + [ReadBack(Asserted(op, Stored(Names('k', 1)[0]), 0))];
  }

  /** Both transactions claim a value that may repeat. */
  lemma BothClaim(rule: Rule)
    requires rule.Unique? && rule.entityType == TRANSACTION_TYPE
    requires IsJournalAttribute(rule.attribute) && !NeverRepeated(rule.attribute)
    ensures var all := After(FirstStore(), Second());
      {"t", "u"} <= Claimants(all, rule, Repeated(rule.attribute), 0) && HasType(all, "u", rule.entityType, 0)
  {
    var first, second, all := First(1, Speaking("c")), Second(), After(FirstStore(), Second());
    RepeatedIsSaid([], "c", 1, 'i', rule.attribute);
    RepeatedIsSaid(FirstStore(), "d", 2, 'k', rule.attribute);
    forall row | row in JournalRows(Inputs([], first), first.journalIds, "t", 0) ensures row in all {
      FirstStoreStays(row);
    }
    SayerClaims(all, Inputs([], first), first.journalIds, "t", rule, Repeated(rule.attribute));
    SayerClaims(all, Inputs(FirstStore(), second), second.journalIds, "u", rule, Repeated(rule.attribute));
  }

  lemma ClaimedTwiceViolates(facts: seq<Triple>, rules: seq<Rule>, rule: Rule, value: TripleValue)
    requires rule in rules && rule.Unique? && HasType(facts, "u", rule.entityType, 0)
    requires {"t", "u"} <= Claimants(facts, rule, value, 0)
    ensures !Safe(facts, rules)
  {
    var claimants := Claimants(facts, rule, value, 0);
    TwoMembers(claimants, "t", "u");
    var v := Violation(KeyOf(rule), UniqueCode, "u", rule.entityType, rule.attribute, |claimants|, Some(value));
    assert Breaks(facts, rule, 0, v);
    assert Violates(facts, rules, 0, v);
  }

  lemma TwoMembers(s: set<string>, x: string, y: string)
    requires x in s && y in s && x != y
    ensures |s| >= 2
  {
    assert |s - {x}| == |s| - 1 && y in s - {x};
  }

  lemma SecondBreaches(rules: seq<Rule>, rule: Rule)
    requires rule in rules && rule.Unique? && !KeptByJournals(rule) && Safe(FirstStore(), rules)
    ensures !WritesSafely(rules, FirstStore(), Second())
  {
    SecondIsWritten(rules);
    BothClaim(rule);
    ClaimedTwiceViolates(After(FirstStore(), Second()), rules, rule, Repeated(rule.attribute));
  }

  lemma UniqueIsBreached(rules: seq<Rule>, rule: Rule)
    requires rule in rules && rule.Unique? && !KeptByJournals(rule)
    ensures !WritesSafely(rules, [], First(1, Speaking("c"))) || !WritesSafely(rules, FirstStore(), Second())
  {
    EmptyIsSafe(rules);
    FirstIsWritten(rules, 1, Speaking("c"));
    if Safe(FirstStore(), rules) {
      SecondBreaches(rules, rule);
    }
  }

  // ---- Exactly the rule sets that are safe ----------------------------------

  lemma KeptRulesWriteSafely(rules: seq<Rule>, before: seq<Triple>, tx: Transaction)
    requires AllKept(rules)
    ensures WritesSafely(rules, before, tx)
  {
    if Keyed(before) && Safe(before, rules) && Written(rules, before, tx) {
      EnforcementNeverWorsens(rules, before, tx);
      forall t: int, v ensures !Violates(After(before, tx), rules, t, v) {
        assert !ViolatedAtLeast(before, rules, t, v);
      }
    }
  }

  lemma SomeWriteIsUnsafe(rules: seq<Rule>, rule: Rule) returns (before: seq<Triple>, tx: Transaction)
    requires rule in rules && !KeptByJournals(rule)
    ensures !WritesSafely(rules, before, tx)
  {
    match rule {
      case Required(_, _) =>
        before, tx := [], First(0, SILENT);
        RequiredIsBreached(rules, rule);
      case Cardinality(_, _, _) =>
        var n := CardinalityIsBreached(rules, rule);
        before, tx := [], First(n, Speaking("c"));
      case ReferenceTarget(_, _, _) =>
        before, tx := [], First(1, Speaking("c"));
        ReferenceIsBreached(rules, rule);
      case Unique(_, _) =>
        UniqueIsBreached(rules, rule);
        if WritesSafely(rules, [], First(1, Speaking("c"))) {
          before, tx := FirstStore(), Second();
        } else {
          before, tx := [], First(1, Speaking("c"));
        }
    }
  }

  /**
   * Enforcing a rule set keeps every safe store safe, whatever is written,
   * exactly when the journal cannot break any of the rules.
   */
  lemma EnforcementIsSafeIff(rules: seq<Rule>)
    ensures (forall before: seq<Triple>, tx: Transaction {:trigger WritesSafely(rules, before, tx)} ::
      WritesSafely(rules, before, tx))
      <==> AllKept(rules)
  {
    if AllKept(rules) {
      forall before: seq<Triple>, tx: Transaction ensures WritesSafely(rules, before, tx) {
        KeptRulesWriteSafely(rules, before, tx);
      }
    } else {
      var rule :| rule in rules && !KeptByJournals(rule);
      var before, tx := SomeWriteIsUnsafe(rules, rule);
    }
  }
}
