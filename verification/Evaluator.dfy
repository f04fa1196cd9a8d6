/**
 * Three-valued evaluation that records what it observed, as a Merkle tree, and
 * the theorem everything else rests on: an evaluation is a function of the
 * observations it recorded.
 */
module Evaluator {
  import opened Wrappers
  import opened BoolExpr
  import opened ConfigNode
  import Order

  const SUBJECT := "$subject"
  const RULE_KIND := "rule"
  const DAY_MS := 86_400_000

  // ---- Inputs -------------------------------------------------------------

  datatype RuleEntry = RuleEntry(expr: BoolExpr, cid: ContentId)

  type Catalog = map<string, RuleEntry>

  type World = map<Mention, Value>

  datatype Env = Env(world: World, now: int, catalog: Catalog, subject: Option<string>)

  function Bucket(now: int, granularity: Granularity): int {
    if granularity == Day then now / DAY_MS else now
  }

  /** Every entry's id is the hash of a rule node holding that expression under that key. */
  ghost predicate Authentic(catalog: Catalog) {
    forall key :: key in catalog ==>
      && catalog[key].cid.body.key == key
      && catalog[key].cid.body.attrs == RuleAttrs(catalog[key].expr)
  }

  // ---- Observations -------------------------------------------------------

  datatype Digest = Digest(value: Value)

  datatype Observed =
    | Config(kind: string, key: string, cid: Option<ContentId>)
    | Fact(entity: string, attribute: string, digest: Option<Digest>)
    | Clock(granularity: Granularity, bucket: int)

  function ObservedKey(): Observed -> Order.Key {
    (o: Observed) =>
      match o
      case Config(kind, key, _) => Order.Key("config", kind, key)
      case Fact(entity, attribute, _) => Order.Key("fact", entity, attribute)
      case Clock(granularity, _) => Order.Key("clock", if granularity == Day then "day" else "instant", "")
  }

  /** Observations in key order, the last one of each key. */
  function Dedupe(observed: seq<Observed>): seq<Observed> {
    Order.Listing(ObservedKey(), observed)
  }

  /** The digest of everything observed, under an ideal hash. */
  datatype ClosureId = HashClosure(listing: seq<Observed>)

  function ClosureOf(observed: seq<Observed>): ClosureId {
    HashClosure(Dedupe(observed))
  }

  function ObserveFact(world: World, entity: string, attribute: string): Observed {
    var at := Mention(entity, attribute);
    Fact(entity, attribute, if at in world then Some(Digest(world[at])) else None)
  }

  function Reobserve1(o: Observed, env: Env): Observed {
    match o
    case Clock(granularity, _) => Clock(granularity, Bucket(env.now, granularity))
    case Config(kind, key, _) => Config(kind, key, if key in env.catalog then Some(env.catalog[key].cid) else None)
    case Fact(entity, attribute, _) => ObserveFact(env.world, entity, attribute)
  }

  function Reobserve(observed: seq<Observed>, env: Env): (now: seq<Observed>)
    ensures |now| == |observed|
    ensures forall i :: 0 <= i < |observed| ==> now[i] == Reobserve1(observed[i], env)
  {
    if observed == [] then [] else [Reobserve1(observed[0], env)] + Reobserve(observed[1..], env)
  }

  // ---- Evaluations --------------------------------------------------------

  datatype Truth = True | False | Unknown

  datatype Reason =
    | NoSubject
    | Absent(entity: string, attribute: string)
    | NotAnInstant(entity: string, attribute: string)
    | MissingRule(key: string)
    | RecursiveRule(key: string)

  datatype ExprId = HashExpr(expr: BoolExpr)

  datatype EvaluationId =
    HashEvaluation(expr: ExprId, truth: Truth, closure: ClosureId, children: seq<EvaluationId>, reason: Option<Reason>)

  datatype Evaluation = Evaluation(
    truth: Truth,
    cid: EvaluationId,
    expr: ExprId,
    observed: seq<Observed>,
    children: seq<Evaluation>,
    reason: Option<Reason>)

  function Ids(evaluations: seq<Evaluation>): (ids: seq<EvaluationId>)
    ensures |ids| == |evaluations|
    ensures forall i :: 0 <= i < |evaluations| ==> ids[i] == evaluations[i].cid
  {
    if evaluations == [] then [] else [evaluations[0].cid] + Ids(evaluations[1..])
  }

  function AllObserved(evaluations: seq<Evaluation>): (all: seq<Observed>)
    ensures forall o :: o in all <==> exists e :: e in evaluations && o in e.observed
  {
    if evaluations == [] then [] else evaluations[0].observed + AllObserved(evaluations[1..])
  }

  function Node(truth: Truth, expr: BoolExpr, own: seq<Observed>, children: seq<Evaluation>,
                reason: Option<Reason>): Evaluation {
    var observed := Dedupe(own + AllObserved(children));
    Evaluation(truth, HashEvaluation(HashExpr(expr), truth, ClosureOf(observed), Ids(children), reason),
               HashExpr(expr), observed, children, reason)
  }

  function NotOf(t: Truth): Truth {
    match t case Unknown => Unknown case True => False case False => True
  }

  function Truths(evaluations: seq<Evaluation>): (truths: seq<Truth>)
    ensures |truths| == |evaluations|
    ensures forall i :: 0 <= i < |evaluations| ==> truths[i] == evaluations[i].truth
  {
    if evaluations == [] then [] else [evaluations[0].truth] + Truths(evaluations[1..])
  }

  function AllOf(truths: seq<Truth>): Truth {
    if False in truths then False else if Unknown in truths then Unknown else True
  }

  function AnyOf(truths: seq<Truth>): Truth {
    if True in truths then True else if Unknown in truths then Unknown else False
  }

  function Truthy(b: bool): Truth {
    if b then True else False
  }

  function Resolve(entity: string, env: Env): Option<string> {
    if entity == SUBJECT then env.subject else Some(entity)
  }

  predicate IsLeaf(expr: BoolExpr) {
    expr.Exists? || expr.Eq? || expr.Before?
  }

  /** What a leaf observes once its entity is resolved. */
  function LeafReads(expr: BoolExpr, entity: string, env: Env): seq<Observed>
    requires IsLeaf(expr)
  {
    [ObserveFact(env.world, entity, expr.attribute)]
    + if expr.Before? then [Clock(expr.granularity, Bucket(env.now, expr.granularity))] else []
  }

  function LeafAnswer(expr: BoolExpr, entity: string, env: Env): (Truth, Option<Reason>)
    requires IsLeaf(expr)
  {
    var at := Mention(entity, expr.attribute);
    if expr.Exists? then (Truthy(at in env.world), None)
    else if at !in env.world then (Unknown, Some(Absent(entity, expr.attribute)))
    else if expr.Eq? then (Truthy(env.world[at] == expr.expected), None)
    else if !env.world[at].Number? then (Unknown, Some(NotAnInstant(entity, expr.attribute)))
    else (Truthy(Bucket(env.world[at].number, expr.granularity) < Bucket(env.now, expr.granularity)), None)
  }

  function GoLeaf(expr: BoolExpr, env: Env): Evaluation
    requires IsLeaf(expr)
  {
    var entity := Resolve(expr.entity, env);
    if entity.None? then Node(Unknown, expr, [], [], Some(NoSubject))
    else
      var answer := LeafAnswer(expr, entity.value, env);
      Node(answer.0, expr, LeafReads(expr, entity.value, env), [], answer.1)
  }

  /**
   * Evaluate under the rules already being called. A cyclic catalog terminates:
   * each call either shrinks the set of rules still callable or the expression.
   */
  function Go(expr: BoolExpr, env: Env, calling: set<string>): Evaluation
    decreases env.catalog.Keys - calling, expr, 1
  {
    match expr
    case Lit(value) => Node(Truthy(value), expr, [], [], None)
    case Exists(_, _) => GoLeaf(expr, env)
    case Eq(_, _, _) => GoLeaf(expr, env)
    case Before(_, _, _) => GoLeaf(expr, env)
    case Rule(key) =>
      if key !in env.catalog then
        Node(Unknown, expr, [Config(RULE_KIND, key, None)], [], Some(MissingRule(key)))
      else
        var observed := Config(RULE_KIND, key, Some(env.catalog[key].cid));
        if key in calling then Node(Unknown, expr, [observed], [], Some(RecursiveRule(key)))
        else
          var child := Go(env.catalog[key].expr, env, calling + {key});
          Node(child.truth, expr, [observed], [child], None)
    case Not(e) =>
      var child := Go(e, env, calling);
      Node(NotOf(child.truth), expr, [], [child], None)
    case All(es) =>
      var children := GoEach(es, env, calling);
      Node(AllOf(Truths(children)), expr, [], children, None)
    case Any(es) =>
      var children := GoEach(es, env, calling);
      Node(AnyOf(Truths(children)), expr, [], children, None)
  }

  function GoEach(exprs: seq<BoolExpr>, env: Env, calling: set<string>): (children: seq<Evaluation>)
    ensures |children| == |exprs|
    ensures forall i :: 0 <= i < |exprs| ==> children[i] == Go(exprs[i], env, calling)
    decreases env.catalog.Keys - calling, exprs, 0
  {
    if exprs == [] then [] else [Go(exprs[0], env, calling)] + GoEach(exprs[1..], env, calling)
  }

  function Evaluate(expr: BoolExpr, env: Env): Evaluation {
    Go(expr, env, {})
  }

  // ---- An evaluation observes its own environment --------------------------

  /** Re-asking for these observations in env gives the same answers. */
  ghost predicate Holds(observed: seq<Observed>, env: Env) {
    forall o :: o in observed ==> Reobserve1(o, env) == o
  }

  /** Re-observation looks only at the key. */
  lemma KeyDecidesReobservation(o: Observed, p: Observed, env: Env)
    requires ObservedKey()(o) == ObservedKey()(p)
    ensures Reobserve1(o, env) == Reobserve1(p, env)
    ensures ObservedKey()(Reobserve1(o, env)) == ObservedKey()(o)
  {
  }

  /** Deduplicating observations that hold in one environment loses none. */
  lemma DedupeKeepsAll(observed: seq<Observed>, env: Env)
    requires Holds(observed, env)
    ensures forall o :: o in Dedupe(observed) <==> o in observed
  {
    Order.ListingAscends(ObservedKey(), observed);
    forall o | o in observed ensures o in Dedupe(observed) {
      var p := Order.ListedUnderKey(ObservedKey(), observed, o);
      KeyDecidesReobservation(o, p, env);
    }
  }

  lemma NodeHolds(truth: Truth, expr: BoolExpr, own: seq<Observed>, children: seq<Evaluation>, reason: Option<Reason>,
                  env: Env)
    requires Holds(own, env) && forall c :: c in children ==> Holds(c.observed, env)
    ensures var n := Node(truth, expr, own, children, reason);
      && Holds(n.observed, env)
      && (forall o :: o in n.observed <==> o in own || exists c :: c in children && o in c.observed)
  {
    DedupeKeepsAll(own + AllObserved(children), env);
  }

  lemma {:induction false} GoHolds(expr: BoolExpr, env: Env, calling: set<string>)
    ensures Holds(Go(expr, env, calling).observed, env)
    decreases env.catalog.Keys - calling, expr, 1
  {
    match expr
    case Lit(value) => NodeHolds(Truthy(value), expr, [], [], None, env);
    case Exists(_, _) => LeafHolds(expr, env);
    case Eq(_, _, _) => LeafHolds(expr, env);
    case Before(_, _, _) => LeafHolds(expr, env);
    case Rule(key) =>
      if key !in env.catalog {
        NodeHolds(Unknown, expr, [Config(RULE_KIND, key, None)], [], Some(MissingRule(key)), env);
      } else {
        var observed := Config(RULE_KIND, key, Some(env.catalog[key].cid));
        if key in calling {
          NodeHolds(Unknown, expr, [observed], [], Some(RecursiveRule(key)), env);
        } else {
          GoHolds(env.catalog[key].expr, env, calling + {key});
          var child := Go(env.catalog[key].expr, env, calling + {key});
          NodeHolds(child.truth, expr, [observed], [child], None, env);
        }
      }
    case Not(e) =>
      GoHolds(e, env, calling);
      var child := Go(e, env, calling);
      NodeHolds(NotOf(child.truth), expr, [], [child], None, env);
    case All(es) =>
      GoEachHolds(es, env, calling);
      var children := GoEach(es, env, calling);
      NodeHolds(AllOf(Truths(children)), expr, [], children, None, env);
    case Any(es) =>
      GoEachHolds(es, env, calling);
      var children := GoEach(es, env, calling);
      NodeHolds(AnyOf(Truths(children)), expr, [], children, None, env);
  }

  lemma {:induction false} GoEachHolds(exprs: seq<BoolExpr>, env: Env, calling: set<string>)
    ensures forall c :: c in GoEach(exprs, env, calling) ==> Holds(c.observed, env)
    decreases env.catalog.Keys - calling, exprs, 0
  {
    if exprs != [] {
      GoHolds(exprs[0], env, calling);
      GoEachHolds(exprs[1..], env, calling);
    }
  }

  lemma LeafHolds(expr: BoolExpr, env: Env)
    requires IsLeaf(expr)
    ensures Holds(GoLeaf(expr, env).observed, env)
    ensures Resolve(expr.entity, env).Some? ==>
      forall o :: o in LeafReads(expr, Resolve(expr.entity, env).value, env) <==> o in GoLeaf(expr, env).observed
    ensures Resolve(expr.entity, env).None? ==> GoLeaf(expr, env).observed == []
  {
    var entity := Resolve(expr.entity, env);
    if entity.None? {
      NodeHolds(Unknown, expr, [], [], Some(NoSubject), env);
      assert forall o :: o !in GoLeaf(expr, env).observed;
    } else {
      var answer := LeafAnswer(expr, entity.value, env);
      NodeHolds(answer.0, expr, LeafReads(expr, entity.value, env), [], answer.1, env);
    }
  }
}
