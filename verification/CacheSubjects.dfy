/**
 * When one cache may serve two subjects: exactly when nothing the evaluation
 * reaches names the subject.
 */
module CacheSubjects {
  import opened Wrappers
  import opened BoolExpr
  import opened Evaluator
  import opened EvaluatorProofs
  import opened EvaluationCache

  /** Does a leaf reached from the expression read `$subject`? */
  predicate NamesSubject(expr: BoolExpr, catalog: Catalog, calling: set<string>)
    decreases catalog.Keys - calling, expr, 1
  {
    match expr
    case Lit(_) => false
    case Exists(entity, _) => entity == SUBJECT
    case Eq(entity, _, _) => entity == SUBJECT
    case Before(entity, _, _) => entity == SUBJECT
    case Rule(key) => key in catalog && key !in calling && NamesSubject(catalog[key].expr, catalog, calling + {key})
    case Not(e) => NamesSubject(e, catalog, calling)
    case All(es) => SomeNamesSubject(es, catalog, calling)
    case Any(es) => SomeNamesSubject(es, catalog, calling)
  }

  predicate SomeNamesSubject(exprs: seq<BoolExpr>, catalog: Catalog, calling: set<string>)
    decreases catalog.Keys - calling, exprs, 0
  {
    exprs != [] && (NamesSubject(exprs[0], catalog, calling) || SomeNamesSubject(exprs[1..], catalog, calling))
  }

  /** A leaf naming the subject observes a fact of that very subject, and of no other. */
  lemma SubjectLeafObserves(expr: BoolExpr, env: Env)
    requires IsLeaf(expr) && expr.entity == SUBJECT
    ensures forall o :: o in GoLeaf(expr, env).observed && o.Fact? ==> env.subject == Some(o.entity)
    ensures env.subject.Some? ==>
      ObserveFact(env.world, env.subject.value, expr.attribute) in GoLeaf(expr, env).observed
  {
    LeafHolds(expr, env);
    if env.subject.Some? {
      assert ObserveFact(env.world, env.subject.value, expr.attribute) in LeafReads(expr, env.subject.value, env);
    }
  }

  lemma LeafNamesItsSubject(expr: BoolExpr, x: Env, y: Env)
    requires IsLeaf(expr) && y == x.(subject := y.subject) && x.subject != y.subject
    ensures GoLeaf(expr, x) == GoLeaf(expr, y) <==> expr.entity != SUBJECT
  {
    if expr.entity == SUBJECT {
      SubjectLeafObserves(expr, x);
      SubjectLeafObserves(expr, y);
    }
  }

  /** Two subjects get one evaluation tree exactly when no reached leaf names the subject. */
  lemma {:induction false} GoIgnoresSubjectIff(expr: BoolExpr, x: Env, y: Env, calling: set<string>)
    requires y == x.(subject := y.subject) && x.subject != y.subject
    ensures Go(expr, x, calling) == Go(expr, y, calling) <==> !NamesSubject(expr, x.catalog, calling)
    decreases x.catalog.Keys - calling, expr, 1
  {
    match expr
    case Lit(_) =>
    case Exists(_, _) => LeafNamesItsSubject(expr, x, y);
    case Eq(_, _, _) => LeafNamesItsSubject(expr, x, y);
    case Before(_, _, _) => LeafNamesItsSubject(expr, x, y);
    case Rule(key) =>
      if key in x.catalog && key !in calling {
        GoIgnoresSubjectIff(x.catalog[key].expr, x, y, calling + {key});
        assert Go(expr, x, calling).children[0] == Go(x.catalog[key].expr, x, calling + {key});
        assert Go(expr, y, calling).children[0] == Go(x.catalog[key].expr, y, calling + {key});
      }
    case Not(e) =>
      GoIgnoresSubjectIff(e, x, y, calling);
      assert Go(expr, x, calling).children[0] == Go(e, x, calling);
      assert Go(expr, y, calling).children[0] == Go(e, y, calling);
    case All(es) => GoEachIgnoresSubjectIff(es, x, y, calling);
    case Any(es) => GoEachIgnoresSubjectIff(es, x, y, calling);
  }

  lemma {:induction false} GoEachIgnoresSubjectIff(exprs: seq<BoolExpr>, x: Env, y: Env, calling: set<string>)
    requires y == x.(subject := y.subject) && x.subject != y.subject
    ensures GoEach(exprs, x, calling) == GoEach(exprs, y, calling) <==> !SomeNamesSubject(exprs, x.catalog, calling)
    decreases x.catalog.Keys - calling, exprs, 0
  {
    if exprs != [] {
      GoIgnoresSubjectIff(exprs[0], x, y, calling);
      GoEachIgnoresSubjectIff(exprs[1..], x, y, calling);
      assert GoEach(exprs, x, calling)[1..] == GoEach(exprs[1..], x, calling);
      assert GoEach(exprs, y, calling)[1..] == GoEach(exprs[1..], y, calling);
    }
  }

  lemma ReobservationIgnoresSubject(observed: seq<Observed>, x: Env, y: Env)
    requires y == x.(subject := y.subject)
    ensures Reobserve(observed, x) == Reobserve(observed, y)
  {
  }

  /** Lookup never asks for the subject: it finds the same entry for every one. */
  lemma {:induction false} LookupIgnoresSubject(shapes: seq<Shape>, x: Env, y: Env)
    requires y == x.(subject := y.subject)
    ensures FindHit(shapes, x) == FindHit(shapes, y)
  {
    if shapes != [] {
      ReobservationIgnoresSubject(shapes[0].probe, x, y);
      LookupIgnoresSubject(shapes[1..], x, y);
    }
  }

  /**
   * What a subject finds in another's cache is the evaluation of the cache's owner in the same
   * world, clock and catalog.
   */
  lemma HitsBelongToTheOwner(cache: Cache, owner: Option<string>, expr: BoolExpr, env: Env)
    requires Coherent(cache, owner) && Authentic(env.catalog) && Cached(cache, expr, env).hit
    ensures Cached(cache, expr, env).evaluation == Evaluate(expr, env.(subject := owner))
  {
    var ours := env.(subject := owner);
    LookupIgnoresSubject(ShapesOf(cache, expr), env, ours);
    FoundIsFresh(ShapesOf(cache, expr), expr, ours, owner);
  }

  /**
   * Any cache filled for one subject answers another correctly exactly when the
   * call misses, or nothing the evaluation reaches names the subject.
   */
  lemma SharingIsRightIff(cache: Cache, owner: Option<string>, expr: BoolExpr, env: Env)
    requires Coherent(cache, owner) && Authentic(env.catalog) && env.subject != owner
    ensures Cached(cache, expr, env).evaluation == Evaluate(expr, env)
      <==> !Cached(cache, expr, env).hit || !NamesSubject(expr, env.catalog, {})
  {
    if Cached(cache, expr, env).hit {
      HitsBelongToTheOwner(cache, owner, expr, env);
      GoIgnoresSubjectIff(expr, env.(subject := owner), env, {});
    }
  }

  /** Right after the owner's call, the same call for another subject is always a hit. */
  lemma SecondSubjectHits(expr: BoolExpr, x: Env, y: Env)
    requires y == x.(subject := y.subject)
    ensures Cached(Cached(EMPTY_CACHE, expr, x).cache, expr, y).hit
    ensures Cached(Cached(EMPTY_CACHE, expr, x).cache, expr, y).evaluation == Evaluate(expr, x)
  {
    var evaluation := Evaluate(expr, x);
    GoHolds(expr, x, {});
    ReobservesToItself(evaluation.observed, x);
    var shapes := ShapesOf(Cached(EMPTY_CACHE, expr, x).cache, expr);
    assert shapes == [Shape(evaluation.observed, map[ClosureOf(evaluation.observed) := evaluation])];
    LookupIgnoresSubject(shapes, x, y);
  }

  /** A concrete pair of subjects, the second of which is served the opposite of its own truth. */
  lemma SubjectsMustNotShareACache()
    ensures var expr := Eq(SUBJECT, "a", Flag(true));
      var world: World := map[Mention("x", "a") := Flag(true), Mention("y", "a") := Flag(false)];
      var forX, forY := Env(world, 0, map[], Some("x")), Env(world, 0, map[], Some("y"));
      var shared := Cached(EMPTY_CACHE, expr, forX).cache;
      Cached(shared, expr, forY).evaluation.truth == True && Evaluate(expr, forY).truth == False
  {
    var expr := Eq(SUBJECT, "a", Flag(true));
    var world: World := map[Mention("x", "a") := Flag(true), Mention("y", "a") := Flag(false)];
    var forX, forY := Env(world, 0, map[], Some("x")), Env(world, 0, map[], Some("y"));
    SecondSubjectHits(expr, forX, forY);
    assert Mention("y", "a") != Mention("x", "a");
    assert LeafAnswer(expr, "x", forX).0 == True && LeafAnswer(expr, "y", forY).0 == False;
  }
}
