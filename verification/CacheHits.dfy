/**
 * When the cache hits: exactly when some earlier call of the same expression
 * observed nothing that is observed differently now.
 */
module CacheHits {
  import opened Wrappers
  import opened Seqs
  import opened BoolExpr
  import opened Evaluator
  import opened EvaluatorProofs
  import opened EvaluationCache

  // ---- What is stored ----------------------------------------------------------------

  ghost predicate IsStoredIn(shape: Shape, e: Evaluation) {
    ClosureOf(e.observed) in shape.byClosure && shape.byClosure[ClosureOf(e.observed)] == e
  }

  ghost predicate Stores(shapes: seq<Shape>, e: Evaluation) {
    exists shape {:trigger IsStoredIn(shape, e)} :: shape in shapes && IsStoredIn(shape, e)
  }

  /** What is stored under a closure has that closure, and the shape of the probe. */
  ghost predicate IsShaped(shape: Shape) {
    forall closure :: closure in shape.byClosure ==>
      var e := shape.byClosure[closure];
      ClosureOf(e.observed) == closure && ShapeKey(e.observed) == ShapeKey(shape.probe)
  }

  ghost predicate AreShaped(shapes: seq<Shape>) {
    forall shape {:trigger IsShaped(shape)} :: shape in shapes ==> IsShaped(shape)
  }

  /** A stored evaluation whose observations all hold now is found by re-observing its shape's probe. */
  lemma HeldIsFound(shapes: seq<Shape>, e: Evaluation, env: Env)
    requires AreShaped(shapes) && Stores(shapes, e) && Holds(e.observed, env)
    ensures FindHit(shapes, env).Some?
  {
    var shape :| shape in shapes && IsStoredIn(shape, e);
    assert IsShaped(shape);
    SameShapeSameClosure(shape.probe, e.observed, env);
    SomeShapeHits(shapes, shape, env);
  }

  lemma {:induction false} FoundIsStored(shapes: seq<Shape>, env: Env)
    requires AreShaped(shapes) && FindHit(shapes, env).Some?
    ensures Stores(shapes, FindHit(shapes, env).value)
  {
    var closure := ClosureOf(Reobserve(shapes[0].probe, env));
    if closure in shapes[0].byClosure {
      assert IsShaped(shapes[0]) && IsStoredIn(shapes[0], shapes[0].byClosure[closure]);
    } else {
      FoundIsStored(shapes[1..], env);
      var e := FindHit(shapes, env).value;
      var shape :| shape in shapes[1..] && IsStoredIn(shape, e);
      assert shape in shapes;
    }
  }

  // ---- Storing an evaluation after a miss ------------------------------------------------

  /** The closure of what is observed is not yet in a shape that did not hit. */
  lemma MissIsNew(shapes: seq<Shape>, shape: Shape, evaluation: Evaluation, env: Env)
    requires shape in shapes && FindHit(shapes, env).None? && Holds(evaluation.observed, env)
    requires ShapeKey(shape.probe) == ShapeKey(evaluation.observed)
    ensures ClosureOf(evaluation.observed) !in shape.byClosure
  {
    if ClosureOf(evaluation.observed) in shape.byClosure {
      SameShapeSameClosure(shape.probe, evaluation.observed, env);
      SomeShapeHits(shapes, shape, env);
    }
  }

  lemma AddedIsStored(shape: Shape, closure: ClosureId, evaluation: Evaluation, e: Evaluation)
    requires IsShaped(shape) && closure == ClosureOf(evaluation.observed) && closure !in shape.byClosure
    ensures IsStoredIn(Shape(shape.probe, shape.byClosure[closure := evaluation]), e)
      <==> IsStoredIn(shape, e) || e == evaluation
  {
  }

  lemma AddedIsShaped(shape: Shape, closure: ClosureId, evaluation: Evaluation)
    requires IsShaped(shape) && closure == ClosureOf(evaluation.observed)
    requires ShapeKey(shape.probe) == ShapeKey(evaluation.observed)
    ensures IsShaped(Shape(shape.probe, shape.byClosure[closure := evaluation]))
  {
  }

  lemma AddingToOne(shape: Shape, evaluation: Evaluation, e: Evaluation)
    requires IsShaped(shape)
    requires ShapeKey(shape.probe) == ShapeKey(evaluation.observed) ==>
      ClosureOf(evaluation.observed) !in shape.byClosure
    ensures var mine := ShapeKey(shape.probe) == ShapeKey(evaluation.observed);
      IsStoredIn(AddTo(shape, evaluation), e) <==> IsStoredIn(shape, e) || (mine && e == evaluation)
    ensures IsShaped(AddTo(shape, evaluation))
  {
    if ShapeKey(shape.probe) == ShapeKey(evaluation.observed) {
      AddedIsStored(shape, ClosureOf(evaluation.observed), evaluation, e);
      AddedIsShaped(shape, ClosureOf(evaluation.observed), evaluation);
    }
  }

  lemma AddingStores(shapes: seq<Shape>, evaluation: Evaluation, env: Env, e: Evaluation)
    requires AreShaped(shapes) && FindHit(shapes, env).None? && Holds(evaluation.observed, env)
    ensures Stores(AddEvaluation(shapes, evaluation), e) <==> Stores(shapes, e) || e == evaluation
    ensures AreShaped(AddEvaluation(shapes, evaluation))
  {
    var grown := AddEvaluation(shapes, evaluation);
    if s :| s in shapes && ShapeKey(s.probe) == ShapeKey(evaluation.observed) {
      forall shape | shape in shapes
        ensures IsShaped(AddTo(shape, evaluation)) && AddTo(shape, evaluation) in grown
        ensures IsStoredIn(AddTo(shape, evaluation), e)
          <==> IsStoredIn(shape, e) || (ShapeKey(shape.probe) == ShapeKey(evaluation.observed) && e == evaluation)
      {
        assert IsShaped(shape);
        if ShapeKey(shape.probe) == ShapeKey(evaluation.observed) {
          MissIsNew(shapes, shape, evaluation, env);
        }
        AddingToOne(shape, evaluation, e);
      }
      assert e == evaluation ==> IsStoredIn(AddTo(s, evaluation), e);
    } else {
      var added := Shape(evaluation.observed, map[ClosureOf(evaluation.observed) := evaluation]);
      assert grown == shapes + [added];
      assert IsStoredIn(added, e) <==> e == evaluation;
      assert IsShaped(added) && added in grown;
    }
  }

  // ---- The calls so far --------------------------------------------------------------------

  /** Was the expression evaluated so by one of the calls? */
  ghost predicate WasEvaluated(past: seq<Call>, expr: BoolExpr, e: Evaluation) {
    exists j {:trigger past[j]} :: 0 <= j < |past| && past[j].expr == expr && e == Evaluate(expr, past[j].env)
  }

  ghost predicate RemembersOf(cache: Cache, past: seq<Call>, expr: BoolExpr, e: Evaluation) {
    Stores(ShapesOf(cache, expr), e) <==> WasEvaluated(past, expr, e)
  }

  ghost predicate IsShapedFor(cache: Cache, expr: BoolExpr) {
    AreShaped(ShapesOf(cache, expr))
  }

  /** The cache stores what the calls so far evaluated, no more and no less. */
  ghost predicate Remembers(cache: Cache, past: seq<Call>) {
    && (forall expr: BoolExpr {:trigger IsShapedFor(cache, expr)} :: IsShapedFor(cache, expr))
    && forall expr: BoolExpr, e: Evaluation {:trigger RemembersOf(cache, past, expr, e)} ::
         RemembersOf(cache, past, expr, e)
  }

  lemma EvaluatedWith(past: seq<Call>, call: Call, expr: BoolExpr, e: Evaluation)
    ensures WasEvaluated(past + [call], expr, e)
      <==> WasEvaluated(past, expr, e) || (expr == call.expr && e == Evaluate(expr, call.env))
  {
    var all := past + [call];
    assert forall j :: 0 <= j < |past| ==> all[j] == past[j];
    assert all[|past|] == call;
  }

  lemma HitRemembers(cache: Cache, past: seq<Call>, call: Call, subject: Option<string>)
    requires Coherent(cache, subject) && Usable(call.env, subject) && Remembers(cache, past)
    requires Cached(cache, call.expr, call.env).hit
    ensures Remembers(Cached(cache, call.expr, call.env).cache, past + [call])
  {
    var after := Cached(cache, call.expr, call.env).cache;
    CachedIsFresh(cache, call.expr, call.env, subject);
    assert IsShapedFor(cache, call.expr);
    FoundIsStored(ShapesOf(cache, call.expr), call.env);
    assert RemembersOf(cache, past, call.expr, Evaluate(call.expr, call.env));
    forall expr: BoolExpr ensures ShapesOf(after, expr) == ShapesOf(cache, expr) && IsShapedFor(after, expr) {
      assert IsShapedFor(cache, expr);
    }
    forall expr: BoolExpr, e: Evaluation ensures RemembersOf(after, past + [call], expr, e) {
      assert RemembersOf(cache, past, expr, e);
      EvaluatedWith(past, call, expr, e);
    }
  }

  lemma MissShapes(cache: Cache, call: Call, expr: BoolExpr)
    requires !Cached(cache, call.expr, call.env).hit
    ensures ShapesOf(Cached(cache, call.expr, call.env).cache, expr)
      == if expr == call.expr then AddEvaluation(ShapesOf(cache, expr), Evaluate(expr, call.env))
        else ShapesOf(cache, expr)
  {
  }

  lemma MissRemembers(cache: Cache, past: seq<Call>, call: Call)
    requires Remembers(cache, past) && !Cached(cache, call.expr, call.env).hit
    ensures Remembers(Cached(cache, call.expr, call.env).cache, past + [call])
  {
    var after, evaluation := Cached(cache, call.expr, call.env).cache, Evaluate(call.expr, call.env);
    GoHolds(call.expr, call.env, {});
    forall expr: BoolExpr ensures IsShapedFor(after, expr) {
      assert IsShapedFor(cache, expr);
      MissShapes(cache, call, expr);
      if expr == call.expr {
        AddingStores(ShapesOf(cache, expr), evaluation, call.env, evaluation);
      }
    }
    forall expr: BoolExpr, e: Evaluation ensures RemembersOf(after, past + [call], expr, e) {
      MissShapes(cache, call, expr);
      assert IsShapedFor(cache, expr) && RemembersOf(cache, past, expr, e);
      EvaluatedWith(past, call, expr, e);
      if expr == call.expr {
        AddingStores(ShapesOf(cache, expr), evaluation, call.env, e);
      }
    }
  }

  lemma CallRemembers(cache: Cache, past: seq<Call>, call: Call, subject: Option<string>)
    requires Coherent(cache, subject) && Usable(call.env, subject) && Remembers(cache, past)
    ensures var after := Cached(cache, call.expr, call.env).cache;
      Remembers(after, past + [call]) && Coherent(after, subject)
  {
    CachedIsFresh(cache, call.expr, call.env, subject);
    if Cached(cache, call.expr, call.env).hit {
      HitRemembers(cache, past, call, subject);
    } else {
      MissRemembers(cache, past, call);
    }
  }

  ghost predicate KeepsOne(inv: (Cache, seq<Call>) -> bool, ok: Call -> bool, cache: Cache, past: seq<Call>, call: Call)
  {
    inv(cache, past) && ok(call) ==> inv(Cached(cache, call.expr, call.env).cache, past + [call])
  }

  /** What one call keeps, every run of calls keeps. */
  lemma {:induction false} RunsKeep(inv: (Cache, seq<Call>) -> bool, ok: Call -> bool, cache: Cache, past: seq<Call>,
                                    calls: seq<Call>)
    requires inv(cache, past) && forall call :: call in calls ==> ok(call)
    requires forall c: Cache, p: seq<Call>, call: Call {:trigger KeepsOne(inv, ok, c, p, call)} ::
      KeepsOne(inv, ok, c, p, call)
    ensures inv(RunCalls(cache, calls).1, past + calls)
    decreases |calls|
  {
    if calls == [] {
      assert past + calls == past;
    } else {
      var after := Cached(cache, calls[0].expr, calls[0].env).cache;
      assert KeepsOne(inv, ok, cache, past, calls[0]);
      RunsKeep(inv, ok, after, past + [calls[0]], calls[1..]);
      assert past + [calls[0]] + calls[1..] == past + calls;
    }
  }

  lemma RunsRemember(calls: seq<Call>, subject: Option<string>)
    requires forall call :: call in calls ==> Usable(call.env, subject)
    ensures Remembers(RunCalls(EMPTY_CACHE, calls).1, calls) && Coherent(RunCalls(EMPTY_CACHE, calls).1, subject)
  {
    var inv := (cache: Cache, past: seq<Call>) => Coherent(cache, subject) && Remembers(cache, past);
    var ok := (call: Call) => Usable(call.env, subject);
    forall c: Cache, p: seq<Call>, call: Call ensures KeepsOne(inv, ok, c, p, call) {
      if inv(c, p) && ok(call) {
        CallRemembers(c, p, call, subject);
      }
    }
    EmptyRemembersNothing();
    RunsKeep(inv, ok, EMPTY_CACHE, [], calls);
    assert [] + calls == calls;
  }

  lemma EmptyRemembersNothing()
    ensures Remembers(EMPTY_CACHE, [])
  {
    forall expr: BoolExpr, e: Evaluation ensures RemembersOf(EMPTY_CACHE, [], expr, e) {
      assert ShapesOf(EMPTY_CACHE, expr) == [];
    }
    forall expr: BoolExpr ensures IsShapedFor(EMPTY_CACHE, expr) {
    }
  }

  /** The j-th call evaluated the same expression, and everything it observed is still so. */
  ghost predicate StillHolds(past: seq<Call>, j: nat, call: Call) {
    j < |past| && past[j].expr == call.expr && Holds(Evaluate(past[j].expr, past[j].env).observed, call.env)
  }

  lemma HitIffHeld(cache: Cache, past: seq<Call>, call: Call, subject: Option<string>)
    requires Coherent(cache, subject) && Usable(call.env, subject) && Remembers(cache, past)
    ensures Cached(cache, call.expr, call.env).hit
      <==> exists j: nat {:trigger StillHolds(past, j, call)} :: StillHolds(past, j, call)
  {
    var shapes := ShapesOf(cache, call.expr);
    assert IsShapedFor(cache, call.expr);
    if Cached(cache, call.expr, call.env).hit {
      var e := Evaluate(call.expr, call.env);
      CachedIsFresh(cache, call.expr, call.env, subject);
      GoHolds(call.expr, call.env, {});
      FoundIsStored(shapes, call.env);
      assert RemembersOf(cache, past, call.expr, e);
      var j :| 0 <= j < |past| && past[j].expr == call.expr && e == Evaluate(call.expr, past[j].env);
      assert StillHolds(past, j, call);
    }
    if j: nat :| StillHolds(past, j, call) {
      var e := Evaluate(call.expr, past[j].env);
      assert WasEvaluated(past, call.expr, e) && RemembersOf(cache, past, call.expr, e);
      HeldIsFound(shapes, e, call.env);
    }
  }

  /**
   * From an empty cache, a call hits exactly when all that some earlier call of its expression
   * observed is still so.
   */
  lemma HitsIffNothingMoved(past: seq<Call>, call: Call, subject: Option<string>)
    requires Usable(call.env, subject) && forall earlier :: earlier in past ==> Usable(earlier.env, subject)
    ensures Cached(RunCalls(EMPTY_CACHE, past).1, call.expr, call.env).hit
      <==> exists j: nat {:trigger StillHolds(past, j, call)} :: StillHolds(past, j, call)
  {
    RunsRemember(past, subject);
    HitIffHeld(RunCalls(EMPTY_CACHE, past).1, past, call, subject);
  }

  // ---- Counting ------------------------------------------------------------------------------

  /** How many of the calls hit. */
  function HitsOf(cache: Cache, calls: seq<Call>): nat
    decreases |calls|
  {
    if calls == [] then 0
    else
      var first := Cached(cache, calls[0].expr, calls[0].env);
      (if first.hit then 1 else 0) + HitsOf(first.cache, calls[1..])
  }

  /** Every call is counted once, as a hit or as a miss. */
  lemma {:induction false} CallsAreCounted(cache: Cache, calls: seq<Call>)
    ensures var end := RunCalls(cache, calls).1;
      && end.hits == cache.hits + HitsOf(cache, calls)
      && end.misses == cache.misses + |calls| - HitsOf(cache, calls)
    decreases |calls|
  {
    if calls != [] {
      CallsAreCounted(Cached(cache, calls[0].expr, calls[0].env).cache, calls[1..]);
    }
  }
}
