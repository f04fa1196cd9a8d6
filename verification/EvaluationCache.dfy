/**
 * The cache keyed on what an evaluation actually observed, and the deploy
 * preview that skips subjects whose observed configuration did not move.
 */
module EvaluationCache {
  import opened Wrappers
  import opened Seqs
  import opened BoolExpr
  import opened Evaluator
  import opened EvaluatorProofs
  import Order

  /** Cached evaluations that read the same inputs by key, under the closure of what they saw. */
  datatype Shape = Shape(probe: seq<Observed>, byClosure: map<ClosureId, Evaluation>)

  datatype Cache = Cache(entries: map<ExprId, seq<Shape>>, hits: nat, misses: nat)

  datatype Answer = Answer(evaluation: Evaluation, cache: Cache, hit: bool)

  const EMPTY_CACHE := Cache(map[], 0, 0)

  /** Identity of a dependency shape: the observed keys, without order and values. */
  function ShapeKey(observed: seq<Observed>): multiset<Order.Key> {
    multiset(Map(ObservedKey(), observed))
  }

  function ShapesOf(cache: Cache, expr: BoolExpr): seq<Shape> {
    if HashExpr(expr) in cache.entries then cache.entries[HashExpr(expr)] else []
  }

  /** The first shape whose re-observed probe digests to a cached closure. */
  function FindHit(shapes: seq<Shape>, env: Env): Option<Evaluation> {
    if shapes == [] then None
    else
      var closure := ClosureOf(Reobserve(shapes[0].probe, env));
      if closure in shapes[0].byClosure then Some(shapes[0].byClosure[closure]) else FindHit(shapes[1..], env)
  }

  function AddTo(shape: Shape, evaluation: Evaluation): Shape {
    if ShapeKey(shape.probe) == ShapeKey(evaluation.observed)
    then Shape(shape.probe, shape.byClosure[ClosureOf(evaluation.observed) := evaluation])
    else shape
  }

  function AddEvaluation(shapes: seq<Shape>, evaluation: Evaluation): seq<Shape> {
    if exists s :: s in shapes && ShapeKey(s.probe) == ShapeKey(evaluation.observed)
    then Map((s: Shape) => AddTo(s, evaluation), shapes)
    else shapes + [Shape(evaluation.observed, map[ClosureOf(evaluation.observed) := evaluation])]
  }

  /** Evaluate, reusing a previous answer whose observations still hold. */
  function Cached(cache: Cache, expr: BoolExpr, env: Env): Answer {
    var shapes := ShapesOf(cache, expr);
    var found := FindHit(shapes, env);
    if found.Some? then Answer(found.value, cache.(hits := cache.hits + 1), true)
    else
      var evaluation := Evaluate(expr, env);
      Answer(evaluation,
             Cache(cache.entries[HashExpr(expr) := AddEvaluation(shapes, evaluation)], cache.hits, cache.misses + 1),
             false)
  }

  // ---- Coherence ----------------------------------------------------------

  ghost predicate Usable(env: Env, subject: Option<string>) {
    env.subject == subject && Authentic(env.catalog)
  }

  /** The evaluation was computed for this expression in some environment of this subject. */
  ghost predicate Genuine(evaluation: Evaluation, expr: BoolExpr, subject: Option<string>) {
    exists env :: Usable(env, subject) && evaluation == Evaluate(expr, env)
  }

  ghost predicate CoherentShape(shape: Shape, expr: BoolExpr, subject: Option<string>) {
    forall closure :: closure in shape.byClosure ==>
      && Genuine(shape.byClosure[closure], expr, subject)
      && ClosureOf(shape.byClosure[closure].observed) == closure
  }

  ghost predicate DistinctShapes(shapes: seq<Shape>) {
    forall i, j :: 0 <= i < j < |shapes| ==> ShapeKey(shapes[i].probe) != ShapeKey(shapes[j].probe)
  }

  ghost predicate CoherentShapes(shapes: seq<Shape>, expr: BoolExpr, subject: Option<string>) {
    DistinctShapes(shapes) && forall shape :: shape in shapes ==> CoherentShape(shape, expr, subject)
  }

  /** A cache filled only by evaluations for one subject. */
  ghost predicate Coherent(cache: Cache, subject: Option<string>) {
    forall id :: id in cache.entries ==> CoherentShapes(cache.entries[id], id.expr, subject)
  }

  lemma ReobservationHolds(observed: seq<Observed>, env: Env)
    ensures Holds(Reobserve(observed, env), env)
  {
    forall o | o in Reobserve(observed, env) ensures Reobserve1(o, env) == o {
      var i :| 0 <= i < |observed| && Reobserve(observed, env)[i] == o;
      KeyDecidesReobservation(observed[i], o, env);
    }
  }

  /** A closure that digests equal to a recorded one forces the recorded evaluation. */
  lemma HitIsFresh(probe: seq<Observed>, evaluation: Evaluation, expr: BoolExpr, env: Env, subject: Option<string>)
    requires Usable(env, subject) && Genuine(evaluation, expr, subject)
    requires ClosureOf(Reobserve(probe, env)) == ClosureOf(evaluation.observed)
    ensures evaluation == Evaluate(expr, env)
  {
    var recordedIn :| Usable(recordedIn, subject) && evaluation == Evaluate(expr, recordedIn);
    GoHolds(expr, recordedIn, {});
    ReobservationHolds(probe, env);
    SameClosureSameObservations(Reobserve(probe, env), env, evaluation.observed, recordedIn);
    ObservationsDetermineEvaluation(expr, recordedIn, env);
  }

  lemma {:induction false} FoundIsFresh(shapes: seq<Shape>, expr: BoolExpr, env: Env, subject: Option<string>)
    requires Usable(env, subject) && FindHit(shapes, env).Some?
    requires forall shape :: shape in shapes ==> CoherentShape(shape, expr, subject)
    ensures FindHit(shapes, env).value == Evaluate(expr, env)
  {
    var closure := ClosureOf(Reobserve(shapes[0].probe, env));
    assert shapes[0] in shapes;
    if closure in shapes[0].byClosure {
      HitIsFresh(shapes[0].probe, shapes[0].byClosure[closure], expr, env, subject);
    } else {
      FoundIsFresh(shapes[1..], expr, env, subject);
    }
  }

  lemma AddingKeepsShapeCoherent(shape: Shape, evaluation: Evaluation, expr: BoolExpr, subject: Option<string>)
    requires CoherentShape(shape, expr, subject) && Genuine(evaluation, expr, subject)
    ensures CoherentShape(AddTo(shape, evaluation), expr, subject)
    ensures AddTo(shape, evaluation).probe == shape.probe
  {
  }

  lemma AddingKeepsCoherence(shapes: seq<Shape>, evaluation: Evaluation, expr: BoolExpr, subject: Option<string>)
    requires CoherentShapes(shapes, expr, subject) && Genuine(evaluation, expr, subject)
    ensures CoherentShapes(AddEvaluation(shapes, evaluation), expr, subject)
  {
    var grown := AddEvaluation(shapes, evaluation);
    if exists s :: s in shapes && ShapeKey(s.probe) == ShapeKey(evaluation.observed) {
      forall i | 0 <= i < |shapes|
        ensures grown[i].probe == shapes[i].probe && CoherentShape(grown[i], expr, subject)
      {
        assert shapes[i] in shapes;
        AddingKeepsShapeCoherent(shapes[i], evaluation, expr, subject);
      }
    } else {
      var added := Shape(evaluation.observed, map[ClosureOf(evaluation.observed) := evaluation]);
      assert CoherentShape(added, expr, subject);
      forall i | 0 <= i < |shapes| ensures ShapeKey(shapes[i].probe) != ShapeKey(evaluation.observed) {
        assert shapes[i] in shapes;
      }
      assert grown == shapes + [added];
    }
  }

  /** One call on a coherent cache answers as a fresh evaluation would, and leaves the cache coherent. */
  lemma CachedIsFresh(cache: Cache, expr: BoolExpr, env: Env, subject: Option<string>)
    requires Coherent(cache, subject) && Usable(env, subject)
    ensures Cached(cache, expr, env).evaluation == Evaluate(expr, env)
    ensures Coherent(Cached(cache, expr, env).cache, subject)
  {
    var shapes := ShapesOf(cache, expr);
    assert CoherentShapes(shapes, expr, subject);
    if FindHit(shapes, env).Some? {
      FoundIsFresh(shapes, expr, env, subject);
    } else {
      assert Genuine(Evaluate(expr, env), expr, subject);
      AddingKeepsCoherence(shapes, Evaluate(expr, env), expr, subject);
    }
  }

  datatype Call = Call(expr: BoolExpr, env: Env)

  function RunCalls(cache: Cache, calls: seq<Call>): (seq<Evaluation>, Cache)
    decreases |calls|
  {
    if calls == [] then ([], cache)
    else
      var first := Cached(cache, calls[0].expr, calls[0].env);
      var rest := RunCalls(first.cache, calls[1..]);
      ([first.evaluation] + rest.0, rest.1)
  }

  /** Whatever worlds, clocks and catalogs the calls use, every answer is the fresh one. */
  lemma {:induction false} EveryAnswerIsFresh(cache: Cache, calls: seq<Call>, subject: Option<string>)
    requires Coherent(cache, subject) && forall call :: call in calls ==> Usable(call.env, subject)
    ensures |RunCalls(cache, calls).0| == |calls|
    ensures forall i :: 0 <= i < |calls| ==> RunCalls(cache, calls).0[i] == Evaluate(calls[i].expr, calls[i].env)
    ensures Coherent(RunCalls(cache, calls).1, subject)
    decreases |calls|
  {
    if calls != [] {
      CachedIsFresh(cache, calls[0].expr, calls[0].env, subject);
      EveryAnswerIsFresh(Cached(cache, calls[0].expr, calls[0].env).cache, calls[1..], subject);
      assert forall i :: 0 < i < |calls| ==> calls[i] == calls[1..][i - 1];
    }
  }

  // ---- Repetition ---------------------------------------------------------

  /** Re-observing a probe of the same shape digests to the same closure. */
  lemma SameShapeSameClosure(probe: seq<Observed>, observed: seq<Observed>, env: Env)
    requires ShapeKey(probe) == ShapeKey(observed) && Holds(observed, env)
    ensures ClosureOf(Reobserve(probe, env)) == ClosureOf(observed)
  {
    var now := Reobserve(probe, env);
    ReobservationHolds(probe, env);
    DedupeKeepsAll(now, env);
    DedupeKeepsAll(observed, env);
    forall o ensures o in now <==> o in observed {
      if o in now {
        var i :| 0 <= i < |probe| && now[i] == o;
        var p := SharedKey(probe, observed, probe[i]);
        KeyDecidesReobservation(probe[i], p, env);
      }
      if o in observed {
        var p := SharedKey(observed, probe, o);
        var i :| 0 <= i < |probe| && probe[i] == p;
        KeyDecidesReobservation(p, o, env);
        assert now[i] == o;
      }
    }
    SameElementsSameListing(now, observed);
  }

  lemma SharedKey(a: seq<Observed>, b: seq<Observed>, o: Observed) returns (p: Observed)
    requires ShapeKey(a) == ShapeKey(b) && o in a
    ensures p in b && ObservedKey()(p) == ObservedKey()(o)
  {
    assert ObservedKey()(o) in Map(ObservedKey(), a);
    assert ObservedKey()(o) in ShapeKey(b);
    p :| p in b && ObservedKey()(p) == ObservedKey()(o);
  }

  lemma SameElementsSameListing(a: seq<Observed>, b: seq<Observed>)
    requires forall o :: o in Dedupe(a) <==> o in Dedupe(b)
    ensures ClosureOf(a) == ClosureOf(b)
  {
    Order.ListingAscends(ObservedKey(), a);
    Order.ListingAscends(ObservedKey(), b);
    Order.AscendingIsCanonical(ObservedKey(), Dedupe(a), Dedupe(b));
  }

  lemma {:induction false} SomeShapeHits(shapes: seq<Shape>, shape: Shape, env: Env)
    requires shape in shapes && ClosureOf(Reobserve(shape.probe, env)) in shape.byClosure
    ensures FindHit(shapes, env).Some?
  {
    if shapes[0] != shape {
      SomeShapeHits(shapes[1..], shape, env);
    }
  }

  /** Repeating a call at once is a hit with the same answer, and changes no entry. */
  lemma RepeatIsAHit(cache: Cache, expr: BoolExpr, env: Env, subject: Option<string>)
    requires Coherent(cache, subject) && Usable(env, subject)
    ensures var first := Cached(cache, expr, env);
      var again := Cached(first.cache, expr, env);
      again.hit && again.evaluation == first.evaluation && again.cache.entries == first.cache.entries
  {
    var first := Cached(cache, expr, env);
    CachedIsFresh(cache, expr, env, subject);
    CachedIsFresh(first.cache, expr, env, subject);
    if !first.hit {
      var shapes, evaluation := ShapesOf(cache, expr), first.evaluation;
      var grown := AddEvaluation(shapes, evaluation);
      GoHolds(expr, env, {});
      var shape: Shape;
      if s :| s in shapes && ShapeKey(s.probe) == ShapeKey(evaluation.observed) {
        shape := AddTo(s, evaluation);
      } else {
        shape := Shape(evaluation.observed, map[ClosureOf(evaluation.observed) := evaluation]);
      }
      assert shape in grown;
      SameShapeSameClosure(shape.probe, evaluation.observed, env);
      SomeShapeHits(grown, shape, env);
    }
  }

  // ---- Deploy preview -----------------------------------------------------

  datatype Flip = Flip(subject: nat, was: Truth, becomes: Truth)

  datatype Preview = Preview(considered: nat, skipped: nat, reevaluated: nat, flipped: seq<Flip>)

  /** The subjects whose truth differs between two catalogs, by evaluating each under both. */
  function BruteForceFlips(expr: BoolExpr, subjects: seq<World>, now: int, before: Catalog, after: Catalog): seq<Flip> {
    if subjects == [] then []
    else
      var last := |subjects| - 1;
      var was := Evaluate(expr, Env(subjects[last], now, before, None)).truth;
      var becomes := Evaluate(expr, Env(subjects[last], now, after, None)).truth;
      BruteForceFlips(expr, subjects[..last], now, before, after)
        + if was == becomes then [] else [Flip(last, was, becomes)]
  }

  function ConfigDeps(observed: seq<Observed>): (deps: seq<Observed>)
    ensures forall o :: o in deps <==> o in observed && o.Config?
  {
    Filter((o: Observed) => o.Config?, observed)
  }

  /** Does re-observing the recorded configuration reads give anything else? */
  predicate Moved(observed: seq<Observed>, env: Env) {
    Reobserve(ConfigDeps(observed), env) != ConfigDeps(observed)
  }

  lemma UnmovedReadsAreTheSame(observed: seq<Observed>, env: Env, o: Observed)
    requires !Moved(observed, env) && o in observed && o.Config?
    ensures Reobserve1(o, env) == o
  {
    var deps := ConfigDeps(observed);
    assert o in deps;
    var i :| 0 <= i < |deps| && deps[i] == o;
    assert Reobserve(deps, env)[i] == Reobserve1(deps[i], env);
  }

  /** How many subjects read no configuration that moved. */
  function Unmoved(expr: BoolExpr, subjects: seq<World>, now: int, before: Catalog, after: Catalog): nat {
    if subjects == [] then 0
    else
      var last := |subjects| - 1;
      Unmoved(expr, subjects[..last], now, before, after)
        + if Moved(Evaluate(expr, Env(subjects[last], now, before, None)).observed,
          Env(subjects[last], now, after, None))
          then 0 else 1
  }

  /** A subject that read no moved configuration evaluates to the identical tree under the new catalog. */
  lemma UnmovedIsUnaffected(expr: BoolExpr, world: World, now: int, before: Catalog, after: Catalog)
    requires Authentic(before) && Authentic(after)
    requires !Moved(Evaluate(expr, Env(world, now, before, None)).observed, Env(world, now, after, None))
    ensures Evaluate(expr, Env(world, now, after, None)) == Evaluate(expr, Env(world, now, before, None))
  {
    var env0, env1 := Env(world, now, before, None), Env(world, now, after, None);
    GoHolds(expr, env0, {});
    forall o | o in Evaluate(expr, env0).observed ensures Reobserve1(o, env1) == o {
      assert Reobserve1(o, env0) == o;
      if o.Config? {
        UnmovedReadsAreTheSame(Evaluate(expr, env0).observed, env1, o);
      }
    }
    ObservationsDetermineEvaluation(expr, env0, env1);
  }

  lemma FlipsStep(expr: BoolExpr, subjects: seq<World>, i: nat, now: int, before: Catalog, after: Catalog)
    requires i < |subjects|
    ensures var was := Evaluate(expr, Env(subjects[i], now, before, None)).truth;
      var becomes := Evaluate(expr, Env(subjects[i], now, after, None)).truth;
      BruteForceFlips(expr, subjects[..i + 1], now, before, after)
        == BruteForceFlips(expr, subjects[..i], now, before, after) + if was == becomes then []
          else [Flip(i, was, becomes)]
  {
    assert subjects[..i + 1][..i] == subjects[..i];
  }

  lemma UnmovedStep(expr: BoolExpr, subjects: seq<World>, i: nat, now: int, before: Catalog, after: Catalog)
    requires i < |subjects|
    ensures var moved := Moved(Evaluate(expr, Env(subjects[i], now, before, None)).observed,
      Env(subjects[i], now, after, None));
      Unmoved(expr, subjects[..i + 1], now, before, after)
        == Unmoved(expr, subjects[..i], now, before, after) + if moved then 0 else 1
  {
    assert subjects[..i + 1][..i] == subjects[..i];
  }

  method DetectMove(observed: seq<Observed>, env: Env) returns (moved: bool)
    ensures moved <==> Moved(observed, env)
  {
    var configDeps := ConfigDeps(observed);
    var now := Reobserve(configDeps, env);
    moved := exists i :: 0 <= i < |now| && now[i].Config? && now[i].cid != configDeps[i].cid;
    if !moved {
      forall i | 0 <= i < |now| ensures now[i] == configDeps[i] {
        assert configDeps[i] in configDeps;
      }
    }
  }

  datatype Verdict = Verdict(was: Truth, becomes: Truth)

  /** One subject: unmoved configuration skips the second evaluation, because the truth cannot differ. */
  method PreviewSubject(cache: Cache, expr: BoolExpr, world: World, now: int, before: Catalog, after: Catalog)
    returns (moved: bool, verdict: Verdict, working: Cache)
    requires Coherent(cache, None) && Authentic(before) && Authentic(after)
    ensures moved <==> Moved(Evaluate(expr, Env(world, now, before, None)).observed, Env(world, now, after, None))
    ensures verdict.was == Evaluate(expr, Env(world, now, before, None)).truth
    ensures verdict.becomes == Evaluate(expr, Env(world, now, after, None)).truth
    ensures Coherent(working, None)
  {
    var envBefore, envAfter := Env(world, now, before, None), Env(world, now, after, None);
    CachedIsFresh(cache, expr, envBefore, None);
    var previous := Cached(cache, expr, envBefore);
    working := previous.cache;
    moved := DetectMove(previous.evaluation.observed, envAfter);
    if !moved {
      UnmovedIsUnaffected(expr, world, now, before, after);
      return moved, Verdict(previous.evaluation.truth, previous.evaluation.truth), working;
    }
    CachedIsFresh(working, expr, envAfter, None);
    var next := Cached(working, expr, envAfter);
    return moved, Verdict(previous.evaluation.truth, next.evaluation.truth), next.cache;
  }

  /** "If I publish this, what changes?", answered without evaluating the provably unaffected. */
  method Impact(cache: Cache, expr: BoolExpr, subjects: seq<World>, now: int, before: Catalog, after: Catalog)
    returns (impact: Preview, working: Cache)
    requires Coherent(cache, None) && Authentic(before) && Authentic(after)
    ensures impact.flipped == BruteForceFlips(expr, subjects, now, before, after)
    ensures impact.skipped == Unmoved(expr, subjects, now, before, after)
    ensures impact.skipped + impact.reevaluated == impact.considered == |subjects|
    ensures Coherent(working, None)
  {
    working := cache;
    var skipped, reevaluated, flipped := 0, 0, [];
    for subject := 0 to |subjects|
      invariant Coherent(working, None)
      invariant skipped + reevaluated == subject
      invariant skipped == Unmoved(expr, subjects[..subject], now, before, after)
      invariant flipped == BruteForceFlips(expr, subjects[..subject], now, before, after)
    {
      FlipsStep(expr, subjects, subject, now, before, after);
      UnmovedStep(expr, subjects, subject, now, before, after);
      var moved, verdict;
      moved, verdict, working := PreviewSubject(working, expr, subjects[subject], now, before, after);
      if moved {
        reevaluated := reevaluated + 1;
      } else {
        skipped := skipped + 1;
      }
      if verdict.was != verdict.becomes {
        flipped := flipped + [Flip(subject, verdict.was, verdict.becomes)];
      }
    }
    assert subjects[..|subjects|] == subjects;
    impact := Preview(|subjects|, skipped, reevaluated, flipped);
  }
}
