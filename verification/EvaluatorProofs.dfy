/**
 * What an evaluation proves: the recorded observations determine it, replay
 * succeeds exactly when they still hold, and a verified tree is bound by its id.
 */
module EvaluatorProofs {
  import opened Wrappers
  import opened BoolExpr
  import opened ConfigNode
  import opened Evaluator

  // ---- Agreement on the observed inputs -----------------------------------

  ghost predicate Comparable(env0: Env, env1: Env) {
    env0.subject == env1.subject && Authentic(env0.catalog) && Authentic(env1.catalog)
  }

  lemma LeafAgrees(expr: BoolExpr, env0: Env, env1: Env)
    requires IsLeaf(expr) && env0.subject == env1.subject && Holds(GoLeaf(expr, env0).observed, env1)
    ensures GoLeaf(expr, env1) == GoLeaf(expr, env0)
  {
    LeafHolds(expr, env0);
    var entity := Resolve(expr.entity, env0);
    if entity.Some? {
      var own := LeafReads(expr, entity.value, env0);
      assert Reobserve1(own[0], env1) == own[0];
      assert expr.Before? ==> Reobserve1(own[1], env1) == own[1];
      assert LeafReads(expr, entity.value, env1) == own;
    }
  }

  lemma {:induction false} GoAgrees(expr: BoolExpr, env0: Env, env1: Env, calling: set<string>)
    requires Comparable(env0, env1) && Holds(Go(expr, env0, calling).observed, env1)
    ensures Go(expr, env1, calling) == Go(expr, env0, calling)
    decreases env0.catalog.Keys - calling, expr, 1
  {
    var n := Go(expr, env0, calling);
    match expr
    case Lit(_) =>
    case Exists(_, _) => LeafAgrees(expr, env0, env1);
    case Eq(_, _, _) => LeafAgrees(expr, env0, env1);
    case Before(_, _, _) => LeafAgrees(expr, env0, env1);
    case Rule(key) =>
      if key !in env0.catalog {
        var missing := Config(RULE_KIND, key, None);
        NodeHolds(Unknown, expr, [missing], [], n.reason, env0);
        assert Reobserve1(missing, env1) == missing;
      } else {
        var entry := env0.catalog[key];
        var found := Config(RULE_KIND, key, Some(entry.cid));
        if key in calling {
          NodeHolds(Unknown, expr, [found], [], n.reason, env0);
          assert Reobserve1(found, env1) == found;
        } else {
          var child := Go(entry.expr, env0, calling + {key});
          GoHolds(entry.expr, env0, calling + {key});
          NodeHolds(child.truth, expr, [found], [child], None, env0);
          assert Reobserve1(found, env1) == found;
          assert child in [child];
          GoAgrees(entry.expr, env0, env1, calling + {key});
        }
      }
    case Not(e) =>
      var child := Go(e, env0, calling);
      GoHolds(e, env0, calling);
      NodeHolds(NotOf(child.truth), expr, [], [child], None, env0);
      assert child in [child];
      GoAgrees(e, env0, env1, calling);
    case All(es) =>
      var children := GoEach(es, env0, calling);
      GoEachHolds(es, env0, calling);
      NodeHolds(AllOf(Truths(children)), expr, [], children, None, env0);
      GoEachAgrees(es, env0, env1, calling);
    case Any(es) =>
      var children := GoEach(es, env0, calling);
      GoEachHolds(es, env0, calling);
      NodeHolds(AnyOf(Truths(children)), expr, [], children, None, env0);
      GoEachAgrees(es, env0, env1, calling);
  }

  lemma {:induction false} GoEachAgrees(exprs: seq<BoolExpr>, env0: Env, env1: Env, calling: set<string>)
    requires Comparable(env0, env1)
    requires forall c :: c in GoEach(exprs, env0, calling) ==> Holds(c.observed, env1)
    ensures GoEach(exprs, env1, calling) == GoEach(exprs, env0, calling)
    decreases env0.catalog.Keys - calling, exprs, 0
  {
    if exprs != [] {
      var children := GoEach(exprs, env0, calling);
      assert children[0] in children;
      assert children[1..] == GoEach(exprs[1..], env0, calling);
      GoAgrees(exprs[0], env0, env1, calling);
      GoEachAgrees(exprs[1..], env0, env1, calling);
    }
  }

  /** The same tree results in two environments exactly when the recorded observations hold in both. */
  lemma ObservationsDetermineEvaluation(expr: BoolExpr, env0: Env, env1: Env)
    requires Comparable(env0, env1)
    ensures Evaluate(expr, env1) == Evaluate(expr, env0) <==> Holds(Evaluate(expr, env0).observed, env1)
  {
    GoHolds(expr, env1, {});
    if Holds(Evaluate(expr, env0).observed, env1) {
      GoAgrees(expr, env0, env1, {});
    }
  }

  // ---- Replay -------------------------------------------------------------

  predicate Replay(expr: BoolExpr, evaluation: Evaluation, env: Env) {
    Evaluate(expr, env).cid == evaluation.cid
  }

  lemma SameClosureSameObservations(a: seq<Observed>, envA: Env, b: seq<Observed>, envB: Env)
    requires Holds(a, envA) && Holds(b, envB) && ClosureOf(a) == ClosureOf(b)
    ensures forall o :: o in a <==> o in b
  {
    DedupeKeepsAll(a, envA);
    DedupeKeepsAll(b, envB);
  }

  lemma ReobservesToItself(observed: seq<Observed>, env: Env)
    ensures Reobserve(observed, env) == observed <==> Holds(observed, env)
  {
    if Reobserve(observed, env) == observed {
      forall o | o in observed ensures Reobserve1(o, env) == o {
        var i :| 0 <= i < |observed| && observed[i] == o;
      }
    }
  }

  /**
   * Replay in another environment succeeds exactly when re-observing the record reproduces it; then
   * the trees are equal.
   */
  lemma ReplayIffInputsHold(expr: BoolExpr, recordedIn: Env, env: Env)
    requires Comparable(recordedIn, env)
    ensures var evaluation := Evaluate(expr, recordedIn);
      && (Replay(expr, evaluation, env) <==> Reobserve(evaluation.observed, env) == evaluation.observed)
      && (Replay(expr, evaluation, env) ==> Evaluate(expr, env) == evaluation)
  {
    var was, now := Evaluate(expr, recordedIn), Evaluate(expr, env);
    GoHolds(expr, recordedIn, {});
    GoHolds(expr, env, {});
    ReobservesToItself(was.observed, env);
    CidCoversClosure(expr, recordedIn, {});
    CidCoversClosure(expr, env, {});
    if Replay(expr, was, env) {
      SameClosureSameObservations(was.observed, recordedIn, now.observed, env);
    }
    ObservationsDetermineEvaluation(expr, recordedIn, env);
  }

  lemma CidCoversClosure(expr: BoolExpr, env: Env, calling: set<string>)
    ensures Sealed(Go(expr, env, calling))
  {
  }

  // ---- Verification -------------------------------------------------------

  function SealOf(e: Evaluation): EvaluationId {
    HashEvaluation(e.expr, e.truth, ClosureOf(e.observed), Ids(e.children), e.reason)
  }

  predicate Sealed(e: Evaluation) {
    e.cid == SealOf(e)
  }

  /** Every node carries the id of its own contents. */
  ghost predicate Intact(e: Evaluation) {
    Sealed(e) && forall c :: c in e.children ==> Intact(c)
  }

  datatype Tampered = Tampered(path: seq<nat>, claimed: EvaluationId, actual: EvaluationId)

  function Verify(e: Evaluation, path: seq<nat>): seq<Tampered>
    decreases e, 1
  {
    var found := VerifyEach(e.children, path, 0);
    if Sealed(e) then found else found + [Tampered(path, e.cid, SealOf(e))]
  }

  function VerifyEach(children: seq<Evaluation>, path: seq<nat>, index: nat): seq<Tampered>
    decreases children, 0
  {
    if children == [] then [] else Verify(children[0], path + [index]) + VerifyEach(children[1..], path, index + 1)
  }

  /** Verification reports nothing exactly when no node at any depth was altered. */
  lemma {:induction false} VerifyFindsTampering(e: Evaluation, path: seq<nat>)
    ensures Verify(e, path) == [] <==> Intact(e)
    decreases e, 1
  {
    VerifyEachFindsTampering(e.children, path, 0);
  }

  lemma {:induction false} VerifyEachFindsTampering(children: seq<Evaluation>, path: seq<nat>, index: nat)
    ensures VerifyEach(children, path, index) == [] <==> forall c :: c in children ==> Intact(c)
    decreases children, 0
  {
    if children != [] {
      VerifyFindsTampering(children[0], path + [index]);
      VerifyEachFindsTampering(children[1..], path, index + 1);
      assert children == [children[0]] + children[1..];
    }
  }

  /** The node a path of child indices leads to. */
  function NodeAt(e: Evaluation, path: seq<nat>): Option<Evaluation>
    decreases |path|
  {
    if path == [] then Some(e)
    else if path[0] >= |e.children| then None
    else NodeAt(e.children[path[0]], path[1..])
  }

  /** The node at the path carries another id than that of its contents, and the report gives both. */
  ghost predicate IsTampered(e: Evaluation, path: seq<nat>, t: Tampered) {
    NodeAt(e, path).Some? &&
    var node := NodeAt(e, path).value;
    var actual := HashEvaluation(node.expr, node.truth, ClosureOf(node.observed), Ids(node.children), node.reason);
    node.cid != actual && t.claimed == node.cid && t.actual == actual
  }

  /** Below the path, from the child of this index on. */
  ghost predicate IsTamperedFrom(children: seq<Evaluation>, path: seq<nat>, index: nat, t: Tampered) {
    && |path| < |t.path| && path <= t.path && index <= t.path[|path|] < index + |children|
    && IsTampered(children[t.path[|path|] - index], t.path[|path| + 1..], t)
  }

  /** Verification reports each altered node at its path, and nothing else. */
  lemma {:induction false} VerifyReportsTheAltered(e: Evaluation, path: seq<nat>, t: Tampered)
    ensures t in Verify(e, path) <==> path <= t.path && IsTampered(e, t.path[|path|..], t)
    decreases e, 1
  {
    VerifyEachReportsTheAltered(e.children, path, 0, t);
    if path <= t.path && |path| < |t.path| {
      var rest := t.path[|path|..];
      assert rest[0] == t.path[|path|] && rest[1..] == t.path[|path| + 1..];
    } else if path <= t.path {
      assert t.path == path;
    }
  }

  lemma StepsInto(path: seq<nat>, index: nat, longer: seq<nat>)
    ensures path + [index] <= longer <==> |path| < |longer| && path <= longer && longer[|path|] == index
  {
    if |path| < |longer| && path <= longer && longer[|path|] == index {
      assert longer[..|path| + 1] == path + [index];
    }
  }

  lemma FromTheFirstOrLater(children: seq<Evaluation>, path: seq<nat>, index: nat, t: Tampered)
    requires children != []
    ensures var first := path + [index];
      IsTamperedFrom(children, path, index, t)
      <==> (first <= t.path && IsTampered(children[0], t.path[|first|..], t))
           || IsTamperedFrom(children[1..], path, index + 1, t)
  {
    StepsInto(path, index, t.path);
  }

  lemma {:induction false} VerifyEachReportsTheAltered(children: seq<Evaluation>, path: seq<nat>, index: nat,
                                                       t: Tampered)
    ensures t in VerifyEach(children, path, index) <==> IsTamperedFrom(children, path, index, t)
    decreases children, 0
  {
    if children != [] {
      VerifyReportsTheAltered(children[0], path + [index], t);
      VerifyEachReportsTheAltered(children[1..], path, index + 1, t);
      FromTheFirstOrLater(children, path, index, t);
    }
  }

  lemma {:induction false} GoIntact(expr: BoolExpr, env: Env, calling: set<string>)
    ensures Intact(Go(expr, env, calling))
    decreases env.catalog.Keys - calling, expr, 1
  {
    match expr
    case Lit(_) =>
    case Exists(_, _) =>
    case Eq(_, _, _) =>
    case Before(_, _, _) =>
    case Rule(key) =>
      if key in env.catalog && key !in calling {
        GoIntact(env.catalog[key].expr, env, calling + {key});
      }
    case Not(e) => GoIntact(e, env, calling);
    case All(es) => GoEachIntact(es, env, calling);
    case Any(es) => GoEachIntact(es, env, calling);
  }

  lemma {:induction false} GoEachIntact(exprs: seq<BoolExpr>, env: Env, calling: set<string>)
    ensures forall c :: c in GoEach(exprs, env, calling) ==> Intact(c)
    decreases env.catalog.Keys - calling, exprs, 0
  {
    if exprs != [] {
      GoIntact(exprs[0], env, calling);
      GoEachIntact(exprs[1..], env, calling);
    }
  }

  /** Every evaluation passes verification. */
  lemma EvaluationsVerify(expr: BoolExpr, env: Env)
    ensures Verify(Evaluate(expr, env), []) == []
  {
    GoIntact(expr, env, {});
    VerifyFindsTampering(Evaluate(expr, env), []);
  }

  /** The same evidence at every depth. */
  ghost predicate SameEvidence(a: Evaluation, b: Evaluation) {
    && a.truth == b.truth && a.expr == b.expr && a.reason == b.reason
    && ClosureOf(a.observed) == ClosureOf(b.observed)
    && |a.children| == |b.children|
    && forall i :: 0 <= i < |a.children| ==> SameEvidence(a.children[i], b.children[i])
  }

  /** Two verified trees with one root id present the same evidence at every depth. */
  lemma {:induction false} RootIdBindsEvidence(a: Evaluation, b: Evaluation)
    requires Intact(a) && Intact(b) && a.cid == b.cid
    ensures SameEvidence(a, b)
  {
    assert Ids(a.children) == Ids(b.children);
    forall i | 0 <= i < |a.children| ensures SameEvidence(a.children[i], b.children[i]) {
      assert Ids(a.children)[i] == Ids(b.children)[i];
      RootIdBindsEvidence(a.children[i], b.children[i]);
    }
  }

  lemma VerifiedTreesAreBound(a: Evaluation, b: Evaluation)
    requires Verify(a, []) == [] && Verify(b, []) == []
    ensures a.cid == b.cid <==> SameEvidence(a, b)
  {
    VerifyFindsTampering(a, []);
    VerifyFindsTampering(b, []);
    if a.cid == b.cid {
      RootIdBindsEvidence(a, b);
    }
    if SameEvidence(a, b) {
      SameEvidenceSameId(a, b);
    }
  }

  lemma {:induction false} SameEvidenceSameId(a: Evaluation, b: Evaluation)
    requires Intact(a) && Intact(b) && SameEvidence(a, b)
    ensures a.cid == b.cid
  {
    forall i | 0 <= i < |a.children| ensures a.children[i].cid == b.children[i].cid {
      SameEvidenceSameId(a.children[i], b.children[i]);
    }
    assert Ids(a.children) == Ids(b.children);
  }
}
