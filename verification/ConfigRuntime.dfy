/**
 * Deciding a deployed rule from temporal facts: the static closure of the facts
 * a rule can read, the world loaded from only those, and the sealed decision.
 */
module ConfigRuntime {
  import opened Wrappers
  import opened Seqs
  import opened Triples
  import opened BoolExpr
  import opened ConfigNode
  import opened Evaluator
  import opened EvaluatorProofs
  import opened RuleCatalog
  import ConfigTree

  // ---- Static fact reads --------------------------------------------------

  function Target(m: Mention, subject: string): Mention {
    Mention(if m.entity == SUBJECT then subject else m.entity, m.attribute)
  }

  /** The facts an expression names itself, with the subject filled in. */
  function DirectReads(expr: BoolExpr, subject: string): set<Mention> {
    set m | m in Mentions(expr) :: Target(m, subject)
  }

  /** The facts named by any of these rules. */
  function RuleReads(keys: set<string>, catalog: Catalog, subject: string): set<Mention> {
    set k, m | k in keys && k in catalog && m in DirectReads(catalog[k].expr, subject) :: m
  }

  /** Every rule called by the expression is among the keys. */
  predicate CallsWithin(expr: BoolExpr, keys: set<string>) {
    forall k :: k in MentionsRules(expr) ==> k in keys
  }

  /** The keys contain every rule that a rule under one of `from` calls. */
  predicate ClosedCalls(from: set<string>, keys: set<string>, catalog: Catalog) {
    forall k :: k in from && k in catalog ==> CallsWithin(catalog[k].expr, keys)
  }

  /** Depth-first scan over an expression and every rule it can call. */
  class FactScan {
    var found: set<Mention>
    var visitedRules: set<string>

    constructor ()
      ensures found == {} && visitedRules == {}
    {
      found, visitedRules := {}, {};
    }

    /**
     * Visiting adds exactly the facts named by the expression and by the rules
     * it newly reaches; those rules' calls are visited too; and nothing outside
     * any call-closed set containing the expression's calls is visited.
     */
    method Visit(current: BoolExpr, catalog: Catalog, subject: string)
      modifies this
      ensures old(visitedRules) <= visitedRules
      ensures CallsWithin(current, visitedRules)
      ensures ClosedCalls(visitedRules - old(visitedRules), visitedRules, catalog)
      ensures found == old(found) + DirectReads(current, subject)
        + RuleReads(visitedRules - old(visitedRules), catalog, subject)
      ensures forall keys {:trigger CallsWithin(current, keys)} ::
        CallsWithin(current, keys) && ClosedCalls(keys, keys, catalog) ==> visitedRules <= old(visitedRules) + keys
      decreases catalog.Keys - visitedRules
    {
      var mentions := Mentions(current);
      for i := 0 to |mentions|
        invariant visitedRules == old(visitedRules)
        invariant found == old(found) + set m | m in mentions[..i] :: Target(m, subject)
      {
        assert mentions[..i + 1] == mentions[..i] + [mentions[i]];
        found := found + {Target(mentions[i], subject)};
      }
      assert mentions[..|mentions|] == mentions;
      VisitCalls(current, catalog, subject);
    }

    method VisitCalls(current: BoolExpr, catalog: Catalog, subject: string)
      modifies this
      ensures old(visitedRules) <= visitedRules
      ensures CallsWithin(current, visitedRules)
      ensures ClosedCalls(visitedRules - old(visitedRules), visitedRules, catalog)
      ensures found == old(found) + RuleReads(visitedRules - old(visitedRules), catalog, subject)
      ensures forall keys {:trigger CallsWithin(current, keys)} ::
        CallsWithin(current, keys) && ClosedCalls(keys, keys, catalog) ==> visitedRules <= old(visitedRules) + keys
      decreases catalog.Keys - visitedRules, 0
    {
      var calls := MentionsRules(current);
      for i := 0 to |calls|
        invariant old(visitedRules) <= visitedRules
        invariant forall j :: 0 <= j < i ==> calls[j] in visitedRules
        invariant ClosedCalls(visitedRules - old(visitedRules), visitedRules, catalog)
        invariant found == old(found) + RuleReads(visitedRules - old(visitedRules), catalog, subject)
        invariant forall keys {:trigger CallsWithin(current, keys)} ::
          CallsWithin(current, keys) && ClosedCalls(keys, keys, catalog) ==> visitedRules <= old(visitedRules) + keys
      {
        var key := calls[i];
        if key in visitedRules { continue; }
        ghost var before, had := visitedRules, found;
        visitedRules := visitedRules + {key};
        if key in catalog {
          Visit(catalog[key].expr, catalog, subject);
        }
        ScanGrows(old(visitedRules), before, key, visitedRules, catalog, subject);
        forall keys {:trigger CallsWithin(current, keys)}
          | CallsWithin(current, keys) && ClosedCalls(keys, keys, catalog)
          ensures visitedRules <= old(visitedRules) + keys
        {
          assert key in keys;
          assert key in catalog ==> CallsWithin(catalog[key].expr, keys);
        }
      }
    }
  }

  /** The rules reached so far, then one key, then what that key reaches. */
  lemma ScanGrows(entry: set<string>, before: set<string>, key: string, after: set<string>, catalog: Catalog,
                  subject: string)
    requires entry <= before && key !in before && before + {key} <= after
    requires key in catalog ==> CallsWithin(catalog[key].expr, after)
    requires ClosedCalls(before - entry, before, catalog) && ClosedCalls(after - (before + {key}), after, catalog)
    ensures ClosedCalls(after - entry, after, catalog)
    ensures RuleReads(after - entry, catalog, subject)
      == RuleReads(before - entry, catalog, subject)
         + (if key in catalog then DirectReads(catalog[key].expr, subject) else {})
         + RuleReads(after - (before + {key}), catalog, subject)
  {
  }

  /** The facts and rules cover the expression, through any chain of calls. */
  ghost predicate Prefetched(expr: BoolExpr, catalog: Catalog, subject: string, found: set<Mention>,
                             rules: set<string>) {
    && CallsWithin(expr, rules) && ClosedCalls(rules, rules, catalog)
    && DirectReads(expr, subject) <= found && RuleReads(rules, catalog, subject) <= found
  }

  /** A fact named by the expression, or by every call-closed set of rules it calls into. */
  ghost predicate IsNamed(expr: BoolExpr, catalog: Catalog, subject: string, m: Mention) {
    forall keys {:trigger CallsWithin(expr, keys)} :: CallsWithin(expr, keys) && ClosedCalls(keys, keys, catalog) ==>
      m in DirectReads(expr, subject) + RuleReads(keys, catalog, subject)
  }

  /** The static fact closure of an expression: the named facts of it and of the least call-closed set of rules. */
  method FactReads(expr: BoolExpr, catalog: Catalog, subject: string) returns (found: set<Mention>,
                   ghost rules: set<string>)
    ensures Prefetched(expr, catalog, subject, found, rules)
    ensures found == DirectReads(expr, subject) + RuleReads(rules, catalog, subject)
    ensures forall keys {:trigger CallsWithin(expr, keys)} ::
      CallsWithin(expr, keys) && ClosedCalls(keys, keys, catalog) ==>
        rules <= keys && found <= DirectReads(expr, subject) + RuleReads(keys, catalog, subject)
    ensures DirectReads(expr, subject) <= found
    ensures forall m {:trigger IsNamed(expr, catalog, subject, m)} :: m in found <==> IsNamed(expr, catalog, subject, m)
  {
    var scan := new FactScan();
    scan.Visit(expr, catalog, subject);
    assert scan.visitedRules - {} == scan.visitedRules;
    return scan.found, scan.visitedRules;
  }

  // ---- Prefetching is complete --------------------------------------------

  ghost predicate FactsWithin(observed: seq<Observed>, found: set<Mention>) {
    forall o :: o in observed && o.Fact? ==> Mention(o.entity, o.attribute) in found
  }

  lemma OperandsPrefetched(exprs: seq<BoolExpr>, e: BoolExpr, subject: string, found: set<Mention>, rules: set<string>)
    requires e in exprs
    requires (set m | m in MentionsEach(exprs) :: Target(m, subject)) <= found
    requires forall k :: k in MentionsRulesEach(exprs) ==> k in rules
    ensures DirectReads(e, subject) <= found && CallsWithin(e, rules)
  {
    forall m | m in Mentions(e) ensures Target(m, subject) in found {
      MentionedByAnOperand(exprs, m);
    }
    forall k | k in MentionsRules(e) ensures k in rules {
      CalledByAnOperand(exprs, k);
    }
  }

  /** Every fact evaluation observes, through any chain of calls and cycles, was statically found. */
  lemma {:induction false} ObservedFactsArePrefetched(
      expr: BoolExpr, env: Env, calling: set<string>, subject: string, found: set<Mention>, rules: set<string>)
    requires env.subject == Some(subject) && Prefetched(expr, env.catalog, subject, found, rules)
    ensures FactsWithin(Go(expr, env, calling).observed, found)
    decreases env.catalog.Keys - calling, expr, 1
  {
    var n := Go(expr, env, calling);
    match expr
    case Lit(_) => NodeHolds(n.truth, expr, [], [], None, env);
    case Exists(_, _) => LeafFactsWithin(expr, env, subject, found);
    case Eq(_, _, _) => LeafFactsWithin(expr, env, subject, found);
    case Before(_, _, _) => LeafFactsWithin(expr, env, subject, found);
    case Rule(key) =>
      if key in env.catalog && key !in calling {
        var entry := env.catalog[key];
        GoHolds(entry.expr, env, calling + {key});
        NodeHolds(n.truth, expr, [Config(RULE_KIND, key, Some(entry.cid))], n.children, None, env);
        assert key in rules;
        ObservedFactsArePrefetched(entry.expr, env, calling + {key}, subject, found, rules);
      } else {
        var seen := Config(RULE_KIND, key, if key in env.catalog then Some(env.catalog[key].cid) else None);
        NodeHolds(n.truth, expr, [seen], [], n.reason, env);
      }
    case Not(e) =>
      GoHolds(e, env, calling);
      NodeHolds(n.truth, expr, [], n.children, None, env);
      ObservedFactsArePrefetched(e, env, calling, subject, found, rules);
    case All(es) =>
      OperandFactsWithin(es, env, calling, subject, found, rules);
      GoEachHolds(es, env, calling);
      NodeHolds(n.truth, expr, [], n.children, None, env);
    case Any(es) =>
      OperandFactsWithin(es, env, calling, subject, found, rules);
      GoEachHolds(es, env, calling);
      NodeHolds(n.truth, expr, [], n.children, None, env);
  }

  lemma LeafFactsWithin(expr: BoolExpr, env: Env, subject: string, found: set<Mention>)
    requires IsLeaf(expr) && env.subject == Some(subject) && DirectReads(expr, subject) <= found
    ensures FactsWithin(GoLeaf(expr, env).observed, found)
  {
    LeafHolds(expr, env);
    assert Mention(expr.entity, expr.attribute) in Mentions(expr);
    assert Target(Mention(expr.entity, expr.attribute), subject) in found;
  }

  lemma {:induction false} OperandFactsWithin(
      exprs: seq<BoolExpr>, env: Env, calling: set<string>, subject: string, found: set<Mention>, rules: set<string>)
    requires env.subject == Some(subject)
    requires ClosedCalls(rules, rules, env.catalog) && RuleReads(rules, env.catalog, subject) <= found
    requires (set m | m in MentionsEach(exprs) :: Target(m, subject)) <= found
    requires forall k :: k in MentionsRulesEach(exprs) ==> k in rules
    ensures forall c :: c in GoEach(exprs, env, calling) ==> FactsWithin(c.observed, found)
    decreases env.catalog.Keys - calling, exprs, 0
  {
    forall i | 0 <= i < |exprs| ensures FactsWithin(GoEach(exprs, env, calling)[i].observed, found) {
      OperandsPrefetched(exprs, exprs[i], subject, found, rules);
      ObservedFactsArePrefetched(exprs[i], env, calling, subject, found, rules);
    }
  }

  /** Two worlds that agree on the prefetched facts give the same evaluation. */
  lemma PrefetchedFactsDecide(
      expr: BoolExpr, env: Env, world: World, subject: string, found: set<Mention>, rules: set<string>)
    requires env.subject == Some(subject) && Authentic(env.catalog)
    requires Prefetched(expr, env.catalog, subject, found, rules)
    requires forall m :: m in found ==> (m in env.world <==> m in world) && (m in world ==> env.world[m] == world[m])
    ensures Evaluate(expr, env.(world := world)) == Evaluate(expr, env)
  {
    GoHolds(expr, env, {});
    ObservedFactsArePrefetched(expr, env, {}, subject, found, rules);
    forall o | o in Evaluate(expr, env).observed ensures Reobserve1(o, env.(world := world)) == o {
      assert Reobserve1(o, env) == o;
    }
    ObservationsDetermineEvaluation(expr, env, env.(world := world));
  }

  // ---- The world loaded from the facts ------------------------------------

  datatype RuntimeError =
    | AmbiguousFact(read: Mention, count: nat)
    | UnsupportedFact(read: Mention)

  function ScalarValue(value: TripleValue): Option<Value> {
    match value
    case StringValue(text) => Some(Text(text))
    case RefValue(target) => Some(Text(target))
    case BlobValue(hash, _, _, _) => Some(Text(hash))
    case NumberValue(number) => Some(Number(number))
    case DateTimeValue(instant) => Some(Number(instant))
    case BooleanValue(flag) => Some(Flag(flag))
    case JsonValue(_) => None
  }

  function Matches(facts: seq<Triple>, m: Mention): seq<Triple> {
    Filter((f: Triple) => f.entityId == m.entity && f.attribute == m.attribute, facts)
  }

  /** What the facts say for one read: nothing, one scalar, or an error. */
  function ReadFact(facts: seq<Triple>, m: Mention): Result<Option<Value>, RuntimeError> {
    var matches := Matches(facts, m);
    if |matches| > 1 then Err(AmbiguousFact(m, |matches|))
    else if matches == [] then Ok(None)
    else
      var value := ScalarValue(matches[0].value);
      if value.None? then Err(UnsupportedFact(m)) else Ok(value)
  }

  method WorldFromReads(found: set<Mention>, facts: seq<Triple>) returns (result: Result<World, RuntimeError>)
    ensures result.Ok? <==> forall m :: m in found ==> ReadFact(facts, m).Ok?
    ensures result.Ok? ==>
      && result.value.Keys <= found
      && forall m :: m in found ==>
           ReadFact(facts, m).value == if m in result.value then Some(result.value[m]) else None
    ensures result.Err? ==> exists m :: m in found && ReadFact(facts, m) == Err(result.error)
  {
    var world: World := map[];
    var todo := found;
    while todo != {}
      invariant todo <= found && world.Keys <= found - todo
      invariant forall m :: m in found - todo ==>
        ReadFact(facts, m) == Ok(if m in world then Some(world[m]) else None)
    {
      var read :| read in todo;
      todo := todo - {read};
      var matches := Matches(facts, read);
      if |matches| > 1 {
        assert ReadFact(facts, read) == Err(AmbiguousFact(read, |matches|));
        return Err(AmbiguousFact(read, |matches|));
      }
      if |matches| == 1 {
        var value := ScalarValue(matches[0].value);
        if value.None? {
          assert ReadFact(facts, read) == Err(UnsupportedFact(read));
          return Err(UnsupportedFact(read));
        }
        world := world[read := value.value];
      }
    }
    return Ok(world);
  }

  /** No fact named for the expression is ambiguous or unsupported. */
  ghost predicate IsReadable(expr: BoolExpr, catalog: Catalog, subject: string, facts: seq<Triple>) {
    forall m {:trigger IsNamed(expr, catalog, subject, m)} ::
      IsNamed(expr, catalog, subject, m) ==> ReadFact(facts, m).Ok?
  }

  ghost predicate FailsOn(expr: BoolExpr, catalog: Catalog, subject: string, facts: seq<Triple>, error: RuntimeError) {
    exists m {:trigger IsNamed(expr, catalog, subject, m)} ::
      IsNamed(expr, catalog, subject, m) && ReadFact(facts, m) == Err(error)
  }

  /** Collect the named facts, and load their world. */
  method Load(expr: BoolExpr, catalog: Catalog, subject: string, facts: seq<Triple>)
      returns (loaded: Result<World, RuntimeError>, ghost found: set<Mention>, ghost rules: set<string>)
    ensures Prefetched(expr, catalog, subject, found, rules)
    ensures loaded.Ok? <==> IsReadable(expr, catalog, subject, facts)
    ensures loaded.Err? ==> FailsOn(expr, catalog, subject, facts, loaded.error)
    ensures loaded.Ok? ==> forall m :: m in found ==>
      ReadFact(facts, m) == Ok(if m in loaded.value then Some(loaded.value[m]) else None)
  {
    var named;
    named, rules := FactReads(expr, catalog, subject);
    found := named;
    loaded := WorldFromReads(named, facts);
    if loaded.Err? {
      ghost var m :| m in named && ReadFact(facts, m) == Err(loaded.error);
      assert IsNamed(expr, catalog, subject, m);
    }
  }

  /** The world of every unambiguous scalar fact, named or not. */
  ghost function FullWorld(facts: seq<Triple>): World {
    map f | f in facts && ReadFact(facts, Mention(f.entityId, f.attribute)).Ok?
            && ReadFact(facts, Mention(f.entityId, f.attribute)).value.Some?
      :: Mention(f.entityId, f.attribute) := ReadFact(facts, Mention(f.entityId, f.attribute)).value.value
  }

  lemma FullWorldReads(facts: seq<Triple>, m: Mention)
    requires ReadFact(facts, m).Ok?
    ensures ReadFact(facts, m).value == if m in FullWorld(facts) then Some(FullWorld(facts)[m]) else None
  {
    var matches := Matches(facts, m);
    if matches != [] {
      var f := matches[0];
      assert f in matches;
      assert f in facts && Mention(f.entityId, f.attribute) == m;
      assert m in FullWorld(facts);
    }
  }

  // ---- Decisions ----------------------------------------------------------

  datatype DecisionId = HashDecision(snapshotRoot: ContentId, subject: string, evaluation: EvaluationId)

  datatype Decision = Decision(cid: DecisionId, snapshotRoot: ContentId, subject: string, evaluation: Evaluation)

  function NodesOf(visits: seq<ConfigTree.Visit>): (nodes: seq<ConfigNode>)
    ensures |nodes| == |visits|
    ensures forall i :: 0 <= i < |visits| ==> nodes[i] == visits[i].node
  {
    if visits == [] then [] else [visits[0].node] + NodesOf(visits[1..])
  }

  function ReleaseCatalog(root: ConfigNode): Catalog {
    CatalogOf(NodesOf(ConfigTree.Walk(root, [])))
  }

  /**
   * Decide a deployed rule: it is decided exactly when no fact the release names for it is ambiguous or
   * unsupported, and then the answer is the one the whole fact set would give.
   */
  method Decide(root: ConfigNode, rule: string, subject: string, now: int, facts: seq<Triple>)
    returns (result: Result<Decision, RuntimeError>)
    requires WellFormed(root)
    ensures result.Ok? <==> IsReadable(Rule(rule), ReleaseCatalog(root), subject, facts)
    ensures result.Err? ==> FailsOn(Rule(rule), ReleaseCatalog(root), subject, facts, result.error)
    ensures result.Ok? ==>
      var decision := result.value;
      && decision.evaluation == Evaluate(Rule(rule), Env(FullWorld(facts), now, ReleaseCatalog(root), Some(subject)))
      && decision.snapshotRoot == root.cid && decision.subject == subject
      && SealedDecision(decision)
  {
    var nodes := NodesOf(ConfigTree.Walk(root, []));
    ConfigTree.WalkVisitsSubIds(root, []);
    forall node | node in nodes ensures WellFormed(node) {
      var i :| 0 <= i < |nodes| && nodes[i] == node;
      assert ConfigTree.Walk(root, [])[i] in ConfigTree.Walk(root, []);
    }
    CatalogsAreAuthentic(nodes);
    var catalog := FromNodes(nodes);
    var loaded;
    ghost var found, rules;
    loaded, found, rules := Load(Rule(rule), catalog, subject, facts);
    if loaded.Err? {
      return Err(loaded.error);
    }
    var env := Env(loaded.value, now, catalog, Some(subject));
    forall m | m in found ensures
      (m in loaded.value <==> m in FullWorld(facts)) && (m in loaded.value ==> loaded.value[m] == FullWorld(facts)[m])
    {
      FullWorldReads(facts, m);
    }
    PrefetchedFactsDecide(Rule(rule), env, FullWorld(facts), subject, found, rules);
    var evaluation := Evaluate(Rule(rule), env);
    return Ok(Decision(HashDecision(root.cid, subject, evaluation.cid), root.cid, subject, evaluation));
  }

  predicate SealedDecision(decision: Decision) {
    decision.cid == HashDecision(decision.snapshotRoot, decision.subject, decision.evaluation.cid)
  }

  /** A decision's envelope and its evaluation tree both check out. */
  predicate Verified(decision: Decision) {
    SealedDecision(decision) && Verify(decision.evaluation, []) == []
  }

  /** One decision id binds the release, the subject and the evidence at every depth. */
  lemma VerifiedDecisionsAreBound(a: Decision, b: Decision)
    requires Verified(a) && Verified(b)
    ensures a.cid == b.cid <==>
      a.snapshotRoot == b.snapshotRoot && a.subject == b.subject && SameEvidence(a.evaluation, b.evaluation)
  {
    VerifiedTreesAreBound(a.evaluation, b.evaluation);
  }
}
