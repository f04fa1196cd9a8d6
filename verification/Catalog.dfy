/** Rules as configuration nodes, and the catalog a release deploys. */
module RuleCatalog {
  import opened Wrappers
  import opened BoolExpr
  import opened ConfigNode
  import opened Evaluator

  function CallRefs(keys: seq<string>): (refs: seq<Ref>)
    ensures |refs| == |keys|
    ensures forall i :: 0 <= i < |keys| ==> refs[i] == Ref("calls", RULE_KIND, keys[i])
  {
    if keys == [] then [] else [Ref("calls", RULE_KIND, keys[0])] + CallRefs(keys[1..])
  }

  /** A rule as a node: its references are derived from its expression. */
  method RuleNode(key: string, expr: BoolExpr) returns (node: ConfigNode)
    ensures WellFormed(node) && node.kind == RULE_KIND && node.key == key && node.attrs == RuleAttrs(expr)
    ensures forall ref ::
      ref in node.refs <==> ref.rel == "calls" && ref.kind == RULE_KIND && ref.key in MentionsRules(expr)
  {
    var refs := CallRefs(MentionsRules(expr));
    var made := Make(RULE_KIND, key, RuleAttrs(expr), [], refs);
    node := made.value;
    SortRefsLists(refs);
    forall k | k in MentionsRules(expr) ensures Ref("calls", RULE_KIND, k) in refs {
      var i :| 0 <= i < |MentionsRules(expr)| && MentionsRules(expr)[i] == k;
      assert refs[i] == Ref("calls", RULE_KIND, k);
    }
  }

  predicate IsRule(node: ConfigNode) {
    node.kind == RULE_KIND && node.attrs.RuleAttrs?
  }

  /** The catalog lists every rule node under its key, the last one winning. */
  function CatalogOf(nodes: seq<ConfigNode>): Catalog {
    if nodes == [] then map[]
    else
      var last := nodes[|nodes| - 1];
      var rest := CatalogOf(nodes[..|nodes| - 1]);
      if IsRule(last) then rest[last.key := RuleEntry(last.attrs.expr, last.cid)] else rest
  }

  method FromNodes(nodes: seq<ConfigNode>) returns (rules: Catalog)
    ensures rules == CatalogOf(nodes)
  {
    rules := map[];
    for i := 0 to |nodes|
      invariant rules == CatalogOf(nodes[..i])
    {
      var node := nodes[i];
      assert nodes[..i + 1][..i] == nodes[..i];
      if node.kind != RULE_KIND { continue; }
      if !node.attrs.RuleAttrs? { continue; }
      rules := rules[node.key := RuleEntry(node.attrs.expr, node.cid)];
    }
    assert nodes[..|nodes|] == nodes;
  }

  /** A catalog built from well-formed nodes pins, under each key, the node that holds exactly that expression. */
  lemma {:induction false} CatalogsAreAuthentic(nodes: seq<ConfigNode>)
    requires forall node :: node in nodes ==> WellFormed(node)
    ensures Authentic(CatalogOf(nodes))
    ensures forall key :: key in CatalogOf(nodes) <==> exists node :: node in nodes && IsRule(node) && node.key == key
  {
    if nodes != [] {
      var init, last := nodes[..|nodes| - 1], nodes[|nodes| - 1];
      assert nodes == init + [last];
      assert WellFormed(last);
      CatalogsAreAuthentic(init);
    }
  }

  /** The last of the nodes that hold a rule under the key. */
  ghost predicate IsLastRule(nodes: seq<ConfigNode>, i: nat, key: string) {
    && i < |nodes| && nodes[i].kind == "rule" && nodes[i].attrs.RuleAttrs? && nodes[i].key == key
    && forall j :: i < j < |nodes| ==> !(nodes[j].kind == "rule" && nodes[j].attrs.RuleAttrs? && nodes[j].key == key)
  }

  /** Under a key the catalog holds the expression and id of its last rule node. */
  lemma {:induction false} LastRuleWins(nodes: seq<ConfigNode>, i: nat, key: string)
    requires IsLastRule(nodes, i, key)
    ensures key in CatalogOf(nodes)
    ensures CatalogOf(nodes)[key].expr == nodes[i].attrs.expr && CatalogOf(nodes)[key].cid == nodes[i].cid
  {
    var last := |nodes| - 1;
    if i < last {
      assert IsLastRule(nodes[..last], i, key);
      LastRuleWins(nodes[..last], i, key);
    }
  }
}
