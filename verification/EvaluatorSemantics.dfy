/**
 * When the recursion guard fires, what evaluation means when it does not, and
 * how answers react to missing inputs being filled in.
 */
module EvaluatorSemantics {
  import opened Wrappers
  import opened BoolExpr
  import opened Evaluator

  // ---- The recursion guard ------------------------------------------------

  /** Some node of the tree stopped because its rule was already being called. */
  predicate GuardFired(e: Evaluation) {
    (e.reason.Some? && e.reason.value.RecursiveRule?) || exists c :: c in e.children && GuardFired(c)
  }

  /** A chain of calls through catalog rules, the first made by expr. */
  ghost predicate CallChain(catalog: Catalog, expr: BoolExpr, chain: seq<string>)
    decreases |chain|
  {
    chain != [] && chain[0] in MentionsRules(expr) && chain[0] in catalog
    && (|chain| > 1 ==> CallChain(catalog, catalog[chain[0]].expr, chain[1..]))
  }

  /** The chain ends in a rule that is already being called when it gets there. */
  predicate Revisits(chain: seq<string>, calling: set<string>) {
    chain != [] && (chain[|chain| - 1] in calling || chain[|chain| - 1] in chain[..|chain| - 1])
  }

  ghost predicate Recurs(catalog: Catalog, expr: BoolExpr, calling: set<string>) {
    exists chain :: CallChain(catalog, expr, chain) && Revisits(chain, calling)
  }

  lemma RevisitsTail(key: string, rest: seq<string>, calling: set<string>)
    requires rest != []
    ensures Revisits([key] + rest, calling) <==> Revisits(rest, calling + {key})
  {
    var chain := [key] + rest;
    assert chain[..|chain| - 1] == [key] + rest[..|rest| - 1];
  }

  lemma {:induction false} GuardNeedsRecursion(expr: BoolExpr, env: Env, calling: set<string>)
    requires GuardFired(Go(expr, env, calling))
    ensures Recurs(env.catalog, expr, calling)
    decreases env.catalog.Keys - calling, expr, 1
  {
    match expr
    case Rule(key) =>
      if key in calling {
        assert CallChain(env.catalog, expr, [key]) && Revisits([key], calling);
      } else {
        var callee := env.catalog[key].expr;
        GuardNeedsRecursion(callee, env, calling + {key});
        var rest :| CallChain(env.catalog, callee, rest) && Revisits(rest, calling + {key});
        RevisitsTail(key, rest, calling);
        assert ([key] + rest)[1..] == rest;
        assert CallChain(env.catalog, expr, [key] + rest);
      }
    case Not(e) =>
      GuardNeedsRecursion(e, env, calling);
      var chain :| CallChain(env.catalog, e, chain) && Revisits(chain, calling);
      assert CallChain(env.catalog, expr, chain);
    case All(es) => GuardInSomeOperand(expr, es, env, calling);
    case Any(es) => GuardInSomeOperand(expr, es, env, calling);
    case _ =>
      assert false;
  }

  lemma {:induction false} GuardInSomeOperand(expr: BoolExpr, exprs: seq<BoolExpr>, env: Env, calling: set<string>)
    requires (expr.All? || expr.Any?) && expr.exprs == exprs
    requires exists c :: c in GoEach(exprs, env, calling) && GuardFired(c)
    ensures Recurs(env.catalog, expr, calling)
    decreases env.catalog.Keys - calling, exprs, 0
  {
    var children := GoEach(exprs, env, calling);
    var i :| 0 <= i < |children| && GuardFired(children[i]);
    var e := exprs[i];
    assert children[i] == Go(e, env, calling);
    GuardNeedsRecursion(e, env, calling);
    var chain :| CallChain(env.catalog, e, chain) && Revisits(chain, calling);
    ChainThroughOperand(env.catalog, expr, e, chain);
  }

  lemma ChainThroughOperand(catalog: Catalog, expr: BoolExpr, operand: BoolExpr, chain: seq<string>)
    requires (expr.All? || expr.Any?) && operand in expr.exprs && CallChain(catalog, operand, chain)
    ensures CallChain(catalog, expr, chain)
  {
    CalledByAnOperand(expr.exprs, chain[0]);
  }

  lemma UnguardedBelow(e: Evaluation, c: Evaluation)
    requires !GuardFired(e) && c in e.children
    ensures !GuardFired(c)
  {
  }

  /** A rule called anywhere in the expression is evaluated. */
  lemma FiresAbove(e: Evaluation, c: Evaluation)
    requires c in e.children && GuardFired(c)
    ensures GuardFired(e)
  {
  }

  lemma {:induction false} CallFires(expr: BoolExpr, env: Env, calling: set<string>, key: string)
    requires key in MentionsRules(expr) && GuardFired(Go(Rule(key), env, calling))
    ensures GuardFired(Go(expr, env, calling))
    decreases expr, 1
  {
    match expr
    case Rule(_) =>
    case Not(e) =>
      CallFires(e, env, calling, key);
      FiresAbove(Go(expr, env, calling), Go(e, env, calling));
    case All(es) => CallInOperandFires(expr, env, calling, key);
    case Any(es) => CallInOperandFires(expr, env, calling, key);
    case _ =>
      assert false;
  }

  lemma {:induction false} CallInOperandFires(expr: BoolExpr, env: Env, calling: set<string>, key: string)
    requires expr.All? || expr.Any?
    requires key in MentionsRules(expr) && GuardFired(Go(Rule(key), env, calling))
    ensures GuardFired(Go(expr, env, calling))
    decreases expr, 0
  {
    CalledByAnOperand(expr.exprs, key);
    var i :| 0 <= i < |expr.exprs| && key in MentionsRules(expr.exprs[i]);
    CallFires(expr.exprs[i], env, calling, key);
    var children := GoEach(expr.exprs, env, calling);
    assert children[i] in children;
    FiresAbove(Go(expr, env, calling), children[i]);
  }

  lemma {:induction false} RecursionFiresGuard(expr: BoolExpr, env: Env, calling: set<string>, chain: seq<string>)
    requires CallChain(env.catalog, expr, chain) && Revisits(chain, calling)
    ensures GuardFired(Go(expr, env, calling))
    decreases |chain|
  {
    var key := chain[0];
    if key !in calling {
      var rest := chain[1..];
      assert chain == [key] + rest;
      if rest != [] {
        RevisitsTail(key, rest, calling);
        var callee := env.catalog[key].expr;
        RecursionFiresGuard(callee, env, calling + {key}, rest);
        assert Go(callee, env, calling + {key}) in Go(Rule(key), env, calling).children;
      }
    }
    assert GuardFired(Go(Rule(key), env, calling));
    CallFires(expr, env, calling, key);
  }

  /** The guard fires exactly when some chain of calls from the expression revisits a rule. */
  lemma GuardFiresIffCyclic(expr: BoolExpr, env: Env)
    ensures GuardFired(Evaluate(expr, env)) <==> Recurs(env.catalog, expr, {})
  {
    if GuardFired(Evaluate(expr, env)) {
      GuardNeedsRecursion(expr, env, {});
    }
    if Recurs(env.catalog, expr, {}) {
      var chain :| CallChain(env.catalog, expr, chain) && Revisits(chain, {});
      RecursionFiresGuard(expr, env, {}, chain);
    }
  }

  // ---- Meaning without a guard --------------------------------------------

  /** Truth with every call unfolded, to a depth, and no guard. */
  ghost function Unfold(expr: BoolExpr, env: Env, depth: nat): Truth
    decreases depth, expr, 1
  {
    match expr
    case Lit(value) => Truthy(value)
    case Exists(_, _) => LeafTruth(expr, env)
    case Eq(_, _, _) => LeafTruth(expr, env)
    case Before(_, _, _) => LeafTruth(expr, env)
    case Rule(key) =>
      if key !in env.catalog || depth == 0 then Unknown else Unfold(env.catalog[key].expr, env, depth - 1)
    case Not(e) => NotOf(Unfold(e, env, depth))
    case All(es) => AllOf(UnfoldEach(es, env, depth))
    case Any(es) => AnyOf(UnfoldEach(es, env, depth))
  }

  ghost function UnfoldEach(exprs: seq<BoolExpr>, env: Env, depth: nat): seq<Truth>
    decreases depth, exprs, 0
  {
    if exprs == [] then [] else [Unfold(exprs[0], env, depth)] + UnfoldEach(exprs[1..], env, depth)
  }

  function LeafTruth(expr: BoolExpr, env: Env): Truth
    requires IsLeaf(expr)
  {
    var entity := Resolve(expr.entity, env);
    if entity.None? then Unknown else LeafAnswer(expr, entity.value, env).0
  }

  lemma OneFewerCallable(keys: set<string>, calling: set<string>, key: string)
    requires key in keys && key !in calling
    ensures |keys - (calling + {key})| + 1 == |keys - calling|
  {
    assert keys - (calling + {key}) == (keys - calling) - {key};
  }

  lemma {:induction false} UnguardedIsUnfolded(expr: BoolExpr, env: Env, calling: set<string>, depth: nat)
    requires !GuardFired(Go(expr, env, calling)) && depth >= |env.catalog.Keys - calling|
    ensures Go(expr, env, calling).truth == Unfold(expr, env, depth)
    decreases env.catalog.Keys - calling, expr, 1
  {
    match expr
    case Lit(_) =>
    case Exists(_, _) =>
    case Eq(_, _, _) =>
    case Before(_, _, _) =>
    case Rule(key) =>
      if key in env.catalog {
        var e := Go(expr, env, calling);
        assert key in calling ==> e.reason == Some(RecursiveRule(key));
        assert e.children == [Go(env.catalog[key].expr, env, calling + {key})];
        UnguardedBelow(e, e.children[0]);
        UnguardedCall(key, env, calling, depth);
      }
    case Not(e) =>
      assert Go(e, env, calling) in Go(expr, env, calling).children;
      UnguardedIsUnfolded(e, env, calling, depth);
    case All(es) =>
      assert Go(expr, env, calling).children == GoEach(es, env, calling);
      UnguardedOperands(es, env, calling, depth);
    case Any(es) =>
      assert Go(expr, env, calling).children == GoEach(es, env, calling);
      UnguardedOperands(es, env, calling, depth);
  }

  lemma {:induction false} UnguardedCall(key: string, env: Env, calling: set<string>, depth: nat)
    requires key in env.catalog && key !in calling && depth >= |env.catalog.Keys - calling|
    requires !GuardFired(Go(env.catalog[key].expr, env, calling + {key}))
    ensures Go(env.catalog[key].expr, env, calling + {key}).truth == Unfold(Rule(key), env, depth)
    decreases env.catalog.Keys - calling, Rule(key), 0
  {
    OneFewerCallable(env.catalog.Keys, calling, key);
    UnguardedIsUnfolded(env.catalog[key].expr, env, calling + {key}, depth - 1);
  }

  lemma {:induction false} UnguardedOperands(exprs: seq<BoolExpr>, env: Env, calling: set<string>, depth: nat)
    requires forall c :: c in GoEach(exprs, env, calling) ==> !GuardFired(c)
    requires depth >= |env.catalog.Keys - calling|
    ensures Truths(GoEach(exprs, env, calling)) == UnfoldEach(exprs, env, depth)
    decreases env.catalog.Keys - calling, exprs, 0
  {
    if exprs != [] {
      var children := GoEach(exprs, env, calling);
      assert children[0] in children;
      assert children[1..] == GoEach(exprs[1..], env, calling);
      UnguardedIsUnfolded(exprs[0], env, calling, depth);
      UnguardedOperands(exprs[1..], env, calling, depth);
    }
  }

  /** Without a revisiting chain the answer is the plain unfolding of every call, at any sufficient depth. */
  lemma AcyclicMeansUnfolding(expr: BoolExpr, env: Env, depth: nat)
    requires !Recurs(env.catalog, expr, {}) && depth >= |env.catalog|
    ensures !GuardFired(Evaluate(expr, env))
    ensures Evaluate(expr, env).truth == Unfold(expr, env, depth)
  {
    GuardFiresIffCyclic(expr, env);
    assert env.catalog.Keys - {} == env.catalog.Keys;
    UnguardedIsUnfolded(expr, env, {}, depth);
  }

  // ---- Filling in what was missing ----------------------------------------

  predicate WithoutExists(expr: BoolExpr) {
    match expr
    case Exists(_, _) => false
    case Not(e) => WithoutExists(e)
    case All(es) => forall e :: e in es ==> WithoutExists(e)
    case Any(es) => forall e :: e in es ==> WithoutExists(e)
    case _ => true
  }

  /** Same clock and subject, and every fact and rule of the first is in the second unchanged. */
  ghost predicate Extends(env0: Env, env1: Env) {
    && env0.now == env1.now && env0.subject == env1.subject
    && (forall m :: m in env0.world ==> m in env1.world && env1.world[m] == env0.world[m])
    && (forall k :: k in env0.catalog ==> k in env1.catalog && env1.catalog[k] == env0.catalog[k])
  }

  predicate Refines(t0: Truth, t1: Truth) {
    t0 == Unknown || t0 == t1
  }

  /** Neither the expression nor any rule a chain of calls reaches from it contains `Exists`. */
  ghost predicate FreeOfExists(catalog: Catalog, expr: BoolExpr) {
    && WithoutExists(expr)
    && forall chain {:trigger CallChain(catalog, expr, chain)} ::
         CallChain(catalog, expr, chain) && chain[|chain| - 1] in catalog ==>
           WithoutExists(catalog[chain[|chain| - 1]].expr)
  }

  lemma CalleeIsFree(catalog: Catalog, key: string)
    requires key in catalog && FreeOfExists(catalog, Rule(key))
    ensures FreeOfExists(catalog, catalog[key].expr)
  {
    assert CallChain(catalog, Rule(key), [key]);
    forall rest | CallChain(catalog, catalog[key].expr, rest) && rest[|rest| - 1] in catalog
      ensures WithoutExists(catalog[rest[|rest| - 1]].expr)
    {
      var chain := [key] + rest;
      assert chain[1..] == rest && chain[|chain| - 1] == rest[|rest| - 1];
      assert CallChain(catalog, Rule(key), chain);
    }
  }

  lemma OperandIsFree(catalog: Catalog, expr: BoolExpr, operand: BoolExpr)
    requires (expr.All? || expr.Any?) && operand in expr.exprs && FreeOfExists(catalog, expr)
    ensures FreeOfExists(catalog, operand)
  {
    forall chain | CallChain(catalog, operand, chain) && chain[|chain| - 1] in catalog
      ensures WithoutExists(catalog[chain[|chain| - 1]].expr)
    {
      ChainThroughOperand(catalog, expr, operand, chain);
    }
  }

  lemma NegatedIsFree(catalog: Catalog, operand: BoolExpr)
    requires FreeOfExists(catalog, Not(operand))
    ensures FreeOfExists(catalog, operand)
  {
    forall chain | CallChain(catalog, operand, chain) && chain[|chain| - 1] in catalog
      ensures WithoutExists(catalog[chain[|chain| - 1]].expr)
    {
      assert CallChain(catalog, Not(operand), chain);
    }
  }

  /** Adding absent facts and rules only refines `unknown`, when no `Exists` is reached. */
  lemma {:induction false} MoreInputsRefine(expr: BoolExpr, env0: Env, env1: Env, calling: set<string>)
    requires Extends(env0, env1) && FreeOfExists(env0.catalog, expr)
    ensures Refines(Go(expr, env0, calling).truth, Go(expr, env1, calling).truth)
    decreases env0.catalog.Keys - calling, expr, 1
  {
    match expr
    case Lit(_) =>
    case Exists(_, _) =>
    case Eq(_, _, _) =>
    case Before(_, _, _) =>
    case Rule(key) =>
      if key in env0.catalog && key !in calling {
        CalleeIsFree(env0.catalog, key);
        MoreInputsRefine(env0.catalog[key].expr, env0, env1, calling + {key});
      }
    case Not(e) =>
      NegatedIsFree(env0.catalog, e);
      MoreInputsRefine(e, env0, env1, calling);
    case All(es) =>
      forall e | e in es ensures FreeOfExists(env0.catalog, e) {
        OperandIsFree(env0.catalog, expr, e);
      }
      MoreInputsRefineEach(es, env0, env1, calling);
    case Any(es) =>
      forall e | e in es ensures FreeOfExists(env0.catalog, e) {
        OperandIsFree(env0.catalog, expr, e);
      }
      MoreInputsRefineEach(es, env0, env1, calling);
  }

  lemma {:induction false} MoreInputsRefineEach(exprs: seq<BoolExpr>, env0: Env, env1: Env, calling: set<string>)
    requires Extends(env0, env1) && forall e :: e in exprs ==> FreeOfExists(env0.catalog, e)
    ensures var t0, t1 := Truths(GoEach(exprs, env0, calling)), Truths(GoEach(exprs, env1, calling));
      && Refines(AllOf(t0), AllOf(t1)) && Refines(AnyOf(t0), AnyOf(t1))
    decreases env0.catalog.Keys - calling, exprs, 0
  {
    var t0, t1 := Truths(GoEach(exprs, env0, calling)), Truths(GoEach(exprs, env1, calling));
    forall i | 0 <= i < |exprs| ensures Refines(t0[i], t1[i]) {
      assert exprs[i] in exprs;
      MoreInputsRefine(exprs[i], env0, env1, calling);
    }
    KleeneIsMonotone(t0, t1);
  }

  lemma KleeneIsMonotone(t0: seq<Truth>, t1: seq<Truth>)
    requires |t0| == |t1| && forall i :: 0 <= i < |t0| ==> Refines(t0[i], t1[i])
    ensures Refines(AllOf(t0), AllOf(t1)) && Refines(AnyOf(t0), AnyOf(t1))
  {
    forall t: Truth | t != Unknown && t in t0 ensures t in t1 {
      var i :| 0 <= i < |t0| && t0[i] == t;
      assert t1[i] == t;
    }
    forall t: Truth | t in t1 ensures t in t0 || Unknown in t0 {
      var i :| 0 <= i < |t1| && t1[i] == t;
      assert t0[i] in t0;
    }
  }

  /** With `Exists` a definite answer can flip when the fact arrives. */
  lemma ExistsIsNotMonotone(now: int)
    ensures var expr := Exists("e", "a");
      var env0 := Env(map[], now, map[], None);
      var env1 := Env(map[Mention("e", "a") := Flag(true)], now, map[], None);
      Extends(env0, env1) && Evaluate(expr, env0).truth == False && Evaluate(expr, env1).truth == True
  {
    assert "e" != SUBJECT;
  }
}
