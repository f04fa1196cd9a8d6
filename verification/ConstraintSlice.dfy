/**
 * Loading only the facts a rule set can see decides a transaction exactly as the
 * whole store would.
 */
module ConstraintSlice {
  import opened Wrappers
  import opened Seqs
  import opened Triples
  import opened Constraint
  import ConstraintBoundaries

  /** Reads of the live facts by entity type, and by entity. */
  datatype FactLoader = FactLoader(byEntityType: string -> seq<Triple>, byEntities: seq<string> -> seq<Triple>)

  ghost predicate Serves(loader: FactLoader, store: seq<Triple>) {
    && (forall entityType, f ::
          f in loader.byEntityType(entityType) <==> f in store && f.entityType == Some(entityType))
    && (forall ids: seq<string>, f :: f in loader.byEntities(ids) <==> f in store && f.entityId in ids)
  }

  function SourceTypes(rules: seq<Rule>): (types: seq<string>)
    ensures forall rule :: rule in rules ==> rule.entityType in types
  {
    Distinct(Map((rule: Rule) => rule.entityType, rules))
  }

  function TargetTypes(rules: seq<Rule>): (types: seq<string>)
    ensures forall rule :: rule in rules && rule.ReferenceTarget? ==> rule.targetEntityType in types
  {
    Distinct(Map((rule: Rule) => if rule.ReferenceTarget? then rule.targetEntityType else rule.entityType,
                 Filter((rule: Rule) => rule.ReferenceTarget?, rules)))
  }

  function LoadTypes(types: seq<string>, loader: FactLoader): (facts: seq<Triple>)
    ensures forall f :: f in facts <==> exists ty :: ty in types && f in loader.byEntityType(ty)
  {
    if types == [] then [] else loader.byEntityType(types[0]) + LoadTypes(types[1..], loader)
  }

  predicate CreatesSource(sourceTypes: seq<string>, op: TransactOp) {
    op.Assert? && op.entityType.Some? && op.entityType.value in sourceTypes
  }

  /** Subjects the rules can range over: typed by a live fact or by an assertion of the transaction. */
  function SourceIds(sourceTypes: seq<string>, sourceTypeFacts: seq<Triple>, operations: seq<TransactOp>): seq<string> {
    Distinct(Map((f: Triple) => f.entityId, sourceTypeFacts)
      + Map((op: TransactOp) => if op.Assert? then op.entityId else "",
            Filter((op: TransactOp) => CreatesSource(sourceTypes, op), operations)))
  }

  /** Insert or overwrite by id, keeping the position of the first occurrence. */
  function Upsert(facts: seq<Triple>, fact: Triple): seq<Triple> {
    if facts == [] then [fact]
    else if facts[0].id == fact.id then [fact] + facts[1..]
    else [facts[0]] + Upsert(facts[1..], fact)
  }

  function ById(facts: seq<Triple>): seq<Triple> {
    if facts == [] then [] else Upsert(ById(facts[..|facts| - 1]), facts[|facts| - 1])
  }

  function LoadRelevantFacts(rules: seq<Rule>, operations: seq<TransactOp>, loader: FactLoader): seq<Triple> {
    var sourceTypes := SourceTypes(rules);
    var sourceTypeFacts := LoadTypes(sourceTypes, loader);
    var sourceFacts := loader.byEntities(SourceIds(sourceTypes, sourceTypeFacts, operations));
    var targetTypeFacts := LoadTypes(TargetTypes(rules), loader);
    ById(sourceTypeFacts + sourceFacts + targetTypeFacts)
  }

  // ---- What the slice holds -----------------------------------------------

  lemma {:induction false} UpsertKeepsIdsUnique(facts: seq<Triple>, fact: Triple)
    requires UniqueIds(facts)
    requires forall f :: f in facts && f.id == fact.id ==> f == fact
    ensures UniqueIds(Upsert(facts, fact))
    ensures forall f :: f in Upsert(facts, fact) <==> f in facts || f == fact
  {
    if facts != [] {
      if facts[0].id == fact.id {
        assert facts == [facts[0]] + facts[1..];
      } else {
        var rest := Upsert(facts[1..], fact);
        assert facts == [facts[0]] + facts[1..];
        UpsertKeepsIdsUnique(facts[1..], fact);
        forall j | 0 <= j < |rest| ensures rest[j].id != facts[0].id {
          assert rest[j] in rest;
        }
      }
    }
  }

  lemma IdDetermines(store: seq<Triple>, f: Triple, g: Triple)
    requires UniqueIds(store) && f in store && g in store && f.id == g.id
    ensures f == g
  {
    var i :| 0 <= i < |store| && store[i] == f;
    var j :| 0 <= j < |store| && store[j] == g;
    assert i == j;
  }

  lemma {:induction false} ByIdOfUnique(facts: seq<Triple>, store: seq<Triple>)
    requires UniqueIds(store)
    requires forall f :: f in facts ==> f in store
    ensures UniqueIds(ById(facts))
    ensures forall f :: f in ById(facts) <==> f in facts
  {
    if facts != [] {
      var init, last := facts[..|facts| - 1], facts[|facts| - 1];
      assert facts == init + [last];
      ByIdOfUnique(init, store);
      forall f | f in ById(init) && f.id == last.id ensures f == last {
        IdDetermines(store, f, last);
      }
      UpsertKeepsIdsUnique(ById(init), last);
    }
  }

  /** Facts the rules can look at, given the subjects and the target types. */
  predicate Relevant(ids: seq<string>, targets: seq<string>, f: Triple) {
    f.entityId in ids || (f.entityType.Some? && f.entityType.value in targets)
  }

  /** Two fact sets that hold every relevant fact equally often. */
  ghost predicate SameRelevant(ids: seq<string>, targets: seq<string>, a: seq<Triple>, b: seq<Triple>) {
    forall f :: Relevant(ids, targets, f) ==> multiset(a)[f] == multiset(b)[f]
  }

  /** Every fact of a source type belongs to a listed subject. */
  ghost predicate Covers(ids: seq<string>, sources: seq<string>, facts: seq<Triple>) {
    forall f :: f in facts && f.entityType.Some? && f.entityType.value in sources ==> f.entityId in ids
  }

  /** The subjects the slice expands. */
  function SliceIds(rules: seq<Rule>, operations: seq<TransactOp>, loader: FactLoader): seq<string> {
    var sources := SourceTypes(rules);
    SourceIds(sources, LoadTypes(sources, loader), operations)
  }

  lemma LoadedTypes(types: seq<string>, loader: FactLoader, store: seq<Triple>, f: Triple)
    requires Serves(loader, store)
    ensures f in LoadTypes(types, loader) <==> f in store && f.entityType.Some? && f.entityType.value in types
  {
    if f in store && f.entityType.Some? && f.entityType.value in types {
      assert f in loader.byEntityType(f.entityType.value);
    }
  }

  lemma LoadedIsRelevant(
      types: seq<string>, ids: seq<string>, targets: seq<string>, loader: FactLoader, store: seq<Triple>, f: Triple)
    requires Serves(loader, store)
    ensures var loaded := LoadTypes(types, loader) + loader.byEntities(ids) + LoadTypes(targets, loader);
      && (f in loaded ==> f in store)
      && (Relevant(ids, targets, f) && f in store ==> f in loaded)
  {
    LoadedTypes(types, loader, store, f);
    LoadedTypes(targets, loader, store, f);
  }

  lemma SameMultiplicity(a: seq<Triple>, b: seq<Triple>, f: Triple)
    requires UniqueIds(a) && UniqueIds(b) && (f in a <==> f in b)
    ensures multiset(a)[f] == multiset(b)[f]
  {
    NoDuplicatesMultiplicity(a, f);
    NoDuplicatesMultiplicity(b, f);
  }

  lemma SliceHoldsTheRelevant(rules: seq<Rule>, operations: seq<TransactOp>, loader: FactLoader, store: seq<Triple>)
    requires UniqueIds(store) && Serves(loader, store)
    ensures SameRelevant(SliceIds(rules, operations, loader), TargetTypes(rules),
                         LoadRelevantFacts(rules, operations, loader), store)
    ensures forall f :: f in LoadRelevantFacts(rules, operations, loader) ==> f in store
  {
    var types, ids, targets := SourceTypes(rules), SliceIds(rules, operations, loader), TargetTypes(rules);
    var loaded := LoadTypes(types, loader) + loader.byEntities(ids) + LoadTypes(targets, loader);
    forall f ensures (f in loaded ==> f in store) && (Relevant(ids, targets, f) && f in store ==> f in loaded) {
      LoadedIsRelevant(types, ids, targets, loader, store, f);
    }
    ByIdOfUnique(loaded, store);
    assert LoadRelevantFacts(rules, operations, loader) == ById(loaded);
    forall f | Relevant(ids, targets, f) ensures multiset(ById(loaded))[f] == multiset(store)[f] {
      SameMultiplicity(ById(loaded), store, f);
    }
  }

  lemma SliceIdsCover(rules: seq<Rule>, operations: seq<TransactOp>, loader: FactLoader, store: seq<Triple>)
    requires Serves(loader, store)
    ensures Covers(SliceIds(rules, operations, loader), SourceTypes(rules), store)
    ensures forall op :: op in operations && CreatesSource(SourceTypes(rules), op) ==>
      op.entityId in SliceIds(rules, operations, loader)
  {
    var sources := SourceTypes(rules);
    var typed := LoadTypes(sources, loader);
    forall f | f in store && f.entityType.Some? && f.entityType.value in sources
      ensures f.entityId in SliceIds(rules, operations, loader)
    {
      assert f in loader.byEntityType(f.entityType.value);
      assert f in typed;
    }
  }

  // ---- The slice decides as the store does --------------------------------

  lemma SameRelevantViolations(
      rules: seq<Rule>, ids: seq<string>, a: seq<Triple>, b: seq<Triple>, t: int, v: Violation)
    requires SameRelevant(ids, TargetTypes(rules), a, b)
    requires Covers(ids, SourceTypes(rules), a) && Covers(ids, SourceTypes(rules), b)
    ensures Violates(a, rules, t, v) <==> Violates(b, rules, t, v)
  {
    forall rule | rule in rules ensures Breaks(a, rule, t, v) <==> Breaks(b, rule, t, v) {
      forall f | Relevant(ids, TargetTypes(rules), f) ensures f in a <==> f in b {
        assert f in a <==> multiset(a)[f] > 0;
        assert f in b <==> multiset(b)[f] > 0;
      }
      BreaksTransfers(a, t, b, t, rule, v);
    }
  }

  lemma FilterKeepsSameRelevant(p: Triple -> bool, ids: seq<string>, targets: seq<string>, a: seq<Triple>,
                                b: seq<Triple>)
    requires SameRelevant(ids, targets, a, b)
    ensures SameRelevant(ids, targets, Filter(p, a), Filter(p, b))
  {
    forall f | Relevant(ids, targets, f) ensures multiset(Filter(p, a))[f] == multiset(Filter(p, b))[f] {
      FilterMultiplicity(p, a, f);
      FilterMultiplicity(p, b, f);
    }
  }

  lemma {:induction false} ProjectionKeepsSameRelevant(
      ids: seq<string>, sources: seq<string>, targets: seq<string>,
      a: seq<Triple>, b: seq<Triple>, operations: seq<TransactOp>, instant: int)
    requires SameRelevant(ids, targets, a, b) && Covers(ids, sources, a) && Covers(ids, sources, b)
    requires forall op :: op in operations && CreatesSource(sources, op) ==> op.entityId in ids
    ensures SameRelevant(ids, targets, Projected(a, operations, instant), Projected(b, operations, instant))
    ensures Covers(ids, sources, Projected(a, operations, instant))
    ensures Covers(ids, sources, Projected(b, operations, instant))
  {
    if operations != [] {
      var init, op := operations[..|operations| - 1], operations[|operations| - 1];
      assert op in operations;
      ProjectionKeepsSameRelevant(ids, sources, targets, a, b, init, instant);
      var pa, pb := Projected(a, init, instant), Projected(b, init, instant);
      match op {
        case Retract(id) =>
          FilterKeepsSameRelevant((f: Triple) => f.id != id, ids, targets, pa, pb);
        case RetractPattern(pattern) =>
          FilterKeepsSameRelevant((f: Triple) => !PatternMatches(f, pattern), ids, targets, pa, pb);
        case Assert(_, _, _, _, _, _) =>
      }
    }
  }

  ghost predicate SameViolations(a: seq<Triple>, b: seq<Triple>, rules: seq<Rule>) {
    forall t: int, v :: Violates(a, rules, t, v) <==> Violates(b, rules, t, v)
  }

  lemma SameViolationsSameVerdict(a: seq<Triple>, pa: seq<Triple>, b: seq<Triple>, pb: seq<Triple>, rules: seq<Rule>)
    requires SameViolations(a, b, rules) && SameViolations(pa, pb, rules)
    ensures ConstraintBoundaries.NeverWorsens(a, pa, rules) <==> ConstraintBoundaries.NeverWorsens(b, pb, rules)
  {
    forall t: int, v ensures Worsens(a, pa, rules, t, v) <==> Worsens(b, pb, rules, t, v) {
    }
  }

  lemma RelevantDecides(rules: seq<Rule>, ids: seq<string>, a: seq<Triple>, b: seq<Triple>)
    requires SameRelevant(ids, TargetTypes(rules), a, b)
    requires Covers(ids, SourceTypes(rules), a) && Covers(ids, SourceTypes(rules), b)
    ensures SameViolations(a, b, rules)
  {
    forall t: int, v ensures Violates(a, rules, t, v) <==> Violates(b, rules, t, v) {
      SameRelevantViolations(rules, ids, a, b, t, v);
    }
  }

  /**
   * The slice has the store's violations at every instant, before and after the
   * transaction, so it accepts exactly the transactions the store accepts.
   */
  lemma SliceIsExact(rules: seq<Rule>, operations: seq<TransactOp>, loader: FactLoader, store: seq<Triple>,
                     instant: int)
    requires UniqueIds(store) && Serves(loader, store)
    ensures var slice := LoadRelevantFacts(rules, operations, loader);
      && SameViolations(slice, store, rules)
      && SameViolations(Projected(slice, operations, instant), Projected(store, operations, instant), rules)
      && (Accepts(slice, operations, rules, instant) <==> Accepts(store, operations, rules, instant))
  {
    var ids := SliceIds(rules, operations, loader);
    var slice := LoadRelevantFacts(rules, operations, loader);
    var ps, pt := Projected(slice, operations, instant), Projected(store, operations, instant);
    SliceHoldsTheRelevant(rules, operations, loader, store);
    SliceIdsCover(rules, operations, loader, store);
    ProjectionKeepsSameRelevant(ids, SourceTypes(rules), TargetTypes(rules), slice, store, operations, instant);
    RelevantDecides(rules, ids, slice, store);
    RelevantDecides(rules, ids, ps, pt);
    SameViolationsSameVerdict(slice, ps, store, pt, rules);
    ConstraintBoundaries.BoundariesSuffice(slice, operations, rules, instant);
    ConstraintBoundaries.BoundariesSuffice(store, operations, rules, instant);
  }
}
