/** What a decision says about the facts it was made from. */
module DecisionMeaning {
  import opened Wrappers
  import opened Seqs
  import opened Triples
  import opened BoolExpr
  import opened ConfigNode
  import opened Evaluator
  import opened EvaluatorMeaning
  import opened RuleCatalog
  import opened ConfigRuntime
  import ConfigTree
  import ConfigDiff

  /** Where the facts name the entity and attribute. */
  ghost function NamedAt(facts: seq<Triple>, m: Mention): set<nat> {
    set i: nat | i < |facts| && facts[i].entityId == m.entity && facts[i].attribute == m.attribute
  }

  /** The scalar a fact holds, as a rule sees it: the text of a string, reference or blob, a number, or a flag. */
  predicate Shows(value: TripleValue, scalar: Value) {
    match scalar
    case Text(text) =>
      || value == StringValue(text) || value == RefValue(text) || (value.BlobValue? && value.hash == text)
    case Number(number) => value == NumberValue(number) || value == DateTimeValue(number)
    case Flag(flag) => value == BooleanValue(flag)
  }

  lemma EveryScalarShows(value: TripleValue)
    ensures value.JsonValue? <==> forall scalar :: !Shows(value, scalar)
    ensures forall x, y :: Shows(value, x) && Shows(value, y) ==> x == y
  {
    match value
    case StringValue(text) => assert Shows(value, Text(text));
    case RefValue(target) => assert Shows(value, Text(target));
    case BlobValue(hash, _, _, _) => assert Shows(value, Text(hash));
    case NumberValue(number) => assert Shows(value, Number(number));
    case DateTimeValue(instant) => assert Shows(value, Number(instant));
    case BooleanValue(flag) => assert Shows(value, Flag(flag));
    case JsonValue(_) =>
  }

  /** The facts hold the scalar: exactly one names the mention, and it shows it. */
  ghost predicate HoldsScalar(facts: seq<Triple>, m: Mention, scalar: Value) {
    exists i :: NamedAt(facts, m) == {i} && Shows(facts[i].value, scalar)
  }

  lemma MatchesAreNamed(facts: seq<Triple>, m: Mention)
    ensures |Matches(facts, m)| == |NamedAt(facts, m)|
    ensures |Matches(facts, m)| == 1 ==>
      exists i :: NamedAt(facts, m) == {i} && Matches(facts, m) == [facts[i]]
  {
    var p := (f: Triple) => f.entityId == m.entity && f.attribute == m.attribute;
    FilterCountsPlaces(p, facts);
    assert NamedAt(facts, m) == Places(p, facts);
    if |Matches(facts, m)| == 1 {
      var f := Matches(facts, m)[0];
      assert f in Matches(facts, m);
      var i: nat :| i < |facts| && facts[i] == f;
      OnlyElement(NamedAt(facts, m), i);
    }
  }

  lemma OnlyElement(s: set<nat>, i: nat)
    requires i in s && |s| == 1
    ensures s == {i}
  {
    SubsetIsNoLarger(s - {i}, s);
    assert |s - {i}| == 0;
  }

  /** One read: absent, the scalar of the one fact, or the error that says why there is none. */
  lemma ReadFactSays(facts: seq<Triple>, m: Mention)
    ensures ReadFact(facts, m) == Ok(None) <==> NamedAt(facts, m) == {}
    ensures forall scalar :: ReadFact(facts, m) == Ok(Some(scalar)) <==> HoldsScalar(facts, m, scalar)
    ensures forall n: nat :: ReadFact(facts, m) == Err(AmbiguousFact(m, n)) <==> n == |NamedAt(facts, m)| && n > 1
    ensures ReadFact(facts, m) == Err(UnsupportedFact(m))
      <==> exists i :: NamedAt(facts, m) == {i} && facts[i].value.JsonValue?
  {
    MatchesAreNamed(facts, m);
    if |Matches(facts, m)| == 1 {
      var i: nat :| NamedAt(facts, m) == {i} && Matches(facts, m) == [facts[i]];
      EveryScalarShows(facts[i].value);
      forall scalar ensures HoldsScalar(facts, m, scalar) <==> Shows(facts[i].value, scalar) {
        OnlyOneName(facts, m, i, scalar);
      }
      assert facts[i].value.JsonValue? ==> NamedAt(facts, m) == {i};
    }
  }

  lemma OnlyOneName(facts: seq<Triple>, m: Mention, i: nat, scalar: Value)
    requires NamedAt(facts, m) == {i}
    ensures HoldsScalar(facts, m, scalar) <==> Shows(facts[i].value, scalar)
  {
    if HoldsScalar(facts, m, scalar) {
      var j :| NamedAt(facts, m) == {j} && Shows(facts[j].value, scalar);
      assert j in {i};
    }
  }

  /** The world over all facts holds exactly the scalars of unambiguous facts. */
  lemma FullWorldHolds(facts: seq<Triple>, m: Mention, scalar: Value)
    ensures m in FullWorld(facts) && FullWorld(facts)[m] == scalar <==> HoldsScalar(facts, m, scalar)
  {
    ReadFactSays(facts, m);
    if m in FullWorld(facts) {
      assert ReadFact(facts, m) == Ok(Some(FullWorld(facts)[m]));
    }
    if HoldsScalar(facts, m, scalar) {
      FullWorldReads(facts, m);
    }
  }

  /** And nothing for json, for no fact, or for several. */
  lemma FullWorldLacks(facts: seq<Triple>, m: Mention)
    ensures m !in FullWorld(facts)
      <==> |NamedAt(facts, m)| != 1 || forall i :: i in NamedAt(facts, m) ==> facts[i].value.JsonValue?
  {
    MatchesAreNamed(facts, m);
    if m in FullWorld(facts) {
      FullWorldHolds(facts, m, FullWorld(facts)[m]);
      var i :| NamedAt(facts, m) == {i} && Shows(facts[i].value, FullWorld(facts)[m]);
      assert i in NamedAt(facts, m);
    }
    if |NamedAt(facts, m)| == 1 {
      var i :| i in NamedAt(facts, m);
      OnlyElement(NamedAt(facts, m), i);
      EveryScalarShows(facts[i].value);
      if scalar :| Shows(facts[i].value, scalar) {
        FullWorldHolds(facts, m, scalar);
      }
    }
  }

  // ---- Deciding a comparison -------------------------------------------------------

  /** The release deploys this comparison of the subject as the rule. */
  ghost predicate Compares(root: ConfigNode, rule: string, attribute: string, expected: Value) {
    && rule in ReleaseCatalog(root)
    && ReleaseCatalog(root)[rule].expr == Eq("$subject", attribute, expected)
  }

  /**
   * A comparison of the subject is decided true exactly when the one fact shows
   * the expected value, false when it shows another, and is unknown without one.
   */
  lemma ComparisonIsDecided(root: ConfigNode, rule: string, attribute: string, expected: Value, subject: string,
                            now: int, facts: seq<Triple>)
    requires Compares(root, rule, attribute, expected)
    ensures var m := Mention(subject, attribute);
      var e := Evaluate(Rule(rule), Env(FullWorld(facts), now, ReleaseCatalog(root), Some(subject)));
      && (e.truth == True <==> HoldsScalar(facts, m, expected))
      && (e.truth == False <==> exists scalar :: scalar != expected && HoldsScalar(facts, m, scalar))
  {
    var m, env := Mention(subject, attribute), Env(FullWorld(facts), now, ReleaseCatalog(root), Some(subject));
    RuleAnswers(rule, env, {});
    EqAnswers("$subject", attribute, expected, subject, env, {} + {rule});
    FullWorldHolds(facts, m, expected);
    if m in FullWorld(facts) {
      FullWorldHolds(facts, m, FullWorld(facts)[m]);
    }
    forall scalar | HoldsScalar(facts, m, scalar) ensures m in FullWorld(facts) && FullWorld(facts)[m] == scalar {
      FullWorldHolds(facts, m, scalar);
    }
  }

  /** The only fact such a rule names is the subject's, so it is decided unless that one is ambiguous or json. */
  lemma ComparisonIsReadable(root: ConfigNode, rule: string, attribute: string, expected: Value, subject: string,
                             facts: seq<Triple>)
    requires Compares(root, rule, attribute, expected)
    ensures var named := NamedAt(facts, Mention(subject, attribute));
      IsReadable(Rule(rule), ReleaseCatalog(root), subject, facts)
      <==> named == {} || (|named| == 1 && forall i :: i in named ==> !facts[i].value.JsonValue?)
  {
    var m, catalog := Mention(subject, attribute), ReleaseCatalog(root);
    forall other ensures IsNamed(Rule(rule), catalog, subject, other) <==> other == m {
      ComparisonNames(catalog, rule, attribute, expected, subject, other);
    }
    ReadFactSays(facts, m);
    MatchesAreNamed(facts, m);
    assert IsNamed(Rule(rule), catalog, subject, m);
    if |Matches(facts, m)| == 1 {
      var i: nat :| NamedAt(facts, m) == {i} && Matches(facts, m) == [facts[i]];
      EveryScalarShows(facts[i].value);
    }
  }

  lemma ComparisonReads(catalog: Catalog, rule: string, attribute: string, expected: Value, subject: string,
                        keys: set<string>)
    requires rule in catalog && catalog[rule].expr == Eq("$subject", attribute, expected)
    requires rule in keys
    ensures Mention(subject, attribute) in RuleReads(keys, catalog, subject)
    ensures keys == {rule} ==> RuleReads(keys, catalog, subject) == {Mention(subject, attribute)}
  {
    assert Mentions(catalog[rule].expr) == [Mention("$subject", attribute)];
    assert Target(Mention("$subject", attribute), subject) == Mention(subject, attribute);
    assert DirectReads(catalog[rule].expr, subject) == {Mention(subject, attribute)};
  }

  lemma ComparisonNames(catalog: Catalog, rule: string, attribute: string, expected: Value, subject: string, m: Mention)
    requires rule in catalog && catalog[rule].expr == Eq("$subject", attribute, expected)
    ensures IsNamed(Rule(rule), catalog, subject, m) <==> m == Mention(subject, attribute)
  {
    assert DirectReads(Rule(rule), subject) == {};
    forall keys | CallsWithin(Rule(rule), keys)
      ensures Mention(subject, attribute) in RuleReads(keys, catalog, subject)
    {
      assert rule in MentionsRules(Rule(rule));
      ComparisonReads(catalog, rule, attribute, expected, subject, keys);
    }
    var keys := {rule};
    assert CallsWithin(Rule(rule), keys) && ClosedCalls(keys, keys, catalog);
    ComparisonReads(catalog, rule, attribute, expected, subject, keys);
  }

  // ---- The rules of a release --------------------------------------------------------

  /** The node that the path leads to holds a rule under the key. */
  predicate IsRuleAt(root: ConfigNode, path: seq<Slot>, key: string) {
    ConfigDiff.At(root, path).Some? &&
    var node := ConfigDiff.At(root, path).value;
    node.kind == "rule" && node.attrs.RuleAttrs? && node.key == key
  }

  lemma WalkedIsAt(root: ConfigNode, i: nat) returns (path: seq<Slot>)
    requires WellFormed(root) && i < |NodesOf(ConfigTree.Walk(root, []))|
    ensures ConfigDiff.At(root, path) == Some(NodesOf(ConfigTree.Walk(root, []))[i])
  {
    var visit := ConfigTree.Walk(root, [])[i];
    path := visit.path;
    ConfigDiff.WalkFollowsPaths(root, [], visit);
    assert visit.path[0..] == visit.path;
  }

  lemma AtIsWalked(root: ConfigNode, path: seq<Slot>) returns (i: nat)
    requires WellFormed(root) && ConfigDiff.At(root, path).Some?
    ensures i < |NodesOf(ConfigTree.Walk(root, []))|
    ensures NodesOf(ConfigTree.Walk(root, []))[i] == ConfigDiff.At(root, path).value
  {
    var visits, visit := ConfigTree.Walk(root, []), ConfigTree.Visit(ConfigDiff.At(root, path).value, path);
    ConfigDiff.WalkFollowsPaths(root, [], visit);
    assert path[0..] == path;
    i :| 0 <= i < |visits| && visits[i] == visit;
  }

  lemma {:induction false} EntryIsOfANode(nodes: seq<ConfigNode>, key: string) returns (i: nat)
    requires key in CatalogOf(nodes)
    ensures i < |nodes| && nodes[i].kind == "rule" && nodes[i].attrs.RuleAttrs? && nodes[i].key == key
    ensures CatalogOf(nodes)[key] == RuleEntry(nodes[i].attrs.expr, nodes[i].cid)
  {
    var last := |nodes| - 1;
    if IsRule(nodes[last]) && nodes[last].key == key {
      i := last;
    } else {
      i := EntryIsOfANode(nodes[..last], key);
    }
  }

  lemma {:induction false} RulesAreEntered(nodes: seq<ConfigNode>, i: nat, key: string)
    requires i < |nodes| && IsRule(nodes[i]) && nodes[i].key == key
    ensures key in CatalogOf(nodes)
  {
    if i < |nodes| - 1 {
      RulesAreEntered(nodes[..|nodes| - 1], i, key);
    }
  }

  /** A release deploys the keys under which some node of its tree, at any depth, holds a rule. */
  lemma ReleaseHoldsItsRules(root: ConfigNode, key: string)
    requires WellFormed(root)
    ensures key in ReleaseCatalog(root) <==> exists path :: IsRuleAt(root, path, key)
  {
    var nodes := NodesOf(ConfigTree.Walk(root, []));
    if key in ReleaseCatalog(root) {
      var i := EntryIsOfANode(nodes, key);
      var path := WalkedIsAt(root, i);
      assert IsRuleAt(root, path, key);
    }
    if path :| IsRuleAt(root, path, key) {
      var i := AtIsWalked(root, path);
      RulesAreEntered(nodes, i, key);
    }
  }

  /** The only rule under a key is the one deployed. */
  lemma OnlyRuleIsDeployed(root: ConfigNode, path: seq<Slot>, key: string)
    requires WellFormed(root) && IsRuleAt(root, path, key)
    requires forall other :: IsRuleAt(root, other, key) ==> other == path
    ensures key in ReleaseCatalog(root)
    ensures var node := ConfigDiff.At(root, path).value;
      ReleaseCatalog(root)[key].expr == node.attrs.expr && ReleaseCatalog(root)[key].cid == node.cid
  {
    ReleaseHoldsItsRules(root, key);
    var i := EntryIsOfANode(NodesOf(ConfigTree.Walk(root, [])), key);
    var found := WalkedIsAt(root, i);
    assert IsRuleAt(root, found, key);
  }
}
