/**
 * What evaluation answers, node by node, and that an evaluation in which
 * nothing is unknown is classical.
 */
module EvaluatorMeaning {
  import opened Wrappers
  import opened BoolExpr
  import opened ConfigNode
  import opened Evaluator

  // ---- Operators ----------------------------------------------------------------

  lemma LitAnswers(value: bool, env: Env, calling: set<string>)
    ensures Go(Lit(value), env, calling).truth == True <==> value
    ensures Go(Lit(value), env, calling).truth == False <==> !value
  {
  }

  /** Negation exchanges true and false, and keeps unknown. */
  lemma NotAnswers(operand: BoolExpr, env: Env, calling: set<string>)
    ensures var e, child := Go(Not(operand), env, calling), Go(operand, env, calling);
      && (e.truth == True <==> child.truth == False) && (e.truth == False <==> child.truth == True)
      && e.children == [child]
  {
  }

  /** All is true when every operand is, and false when some operand is. */
  lemma AllAnswers(operands: seq<BoolExpr>, env: Env, calling: set<string>)
    ensures var e := Go(All(operands), env, calling);
      && (e.truth == True <==> forall i :: 0 <= i < |operands| ==> Go(operands[i], env, calling).truth == True)
      && (e.truth == False <==> exists i :: 0 <= i < |operands| && Go(operands[i], env, calling).truth == False)
      && e.children == GoEach(operands, env, calling)
  {
    TruthsOf(operands, env, calling);
  }

  /** Any is true when some operand is, and false when every operand is. */
  lemma AnyAnswers(operands: seq<BoolExpr>, env: Env, calling: set<string>)
    ensures var e := Go(Any(operands), env, calling);
      && (e.truth == True <==> exists i :: 0 <= i < |operands| && Go(operands[i], env, calling).truth == True)
      && (e.truth == False <==> forall i :: 0 <= i < |operands| ==> Go(operands[i], env, calling).truth == False)
      && e.children == GoEach(operands, env, calling)
  {
    TruthsOf(operands, env, calling);
  }

  lemma TruthsOf(operands: seq<BoolExpr>, env: Env, calling: set<string>)
    ensures var truths := Truths(GoEach(operands, env, calling));
      && |truths| == |operands|
      && (forall i :: 0 <= i < |operands| ==> truths[i] == Go(operands[i], env, calling).truth)
      && forall t :: t in truths <==> exists i :: 0 <= i < |operands| && Go(operands[i], env, calling).truth == t
  {
    var truths := Truths(GoEach(operands, env, calling));
    forall t | t in truths ensures exists i :: 0 <= i < |operands| && Go(operands[i], env, calling).truth == t {
      var i :| 0 <= i < |truths| && truths[i] == t;
      assert Go(operands[i], env, calling).truth == t;
    }
    forall i | 0 <= i < |operands| ensures Go(operands[i], env, calling).truth in truths {
      assert truths[i] in truths;
    }
  }

  /** A call answers as the rule does, and is unknown when the rule is missing or already being called. */
  lemma RuleAnswers(key: string, env: Env, calling: set<string>)
    ensures var e := Go(Rule(key), env, calling);
      if key !in env.catalog then e.truth == Unknown && e.reason == Some(MissingRule(key)) && e.children == []
      else if key in calling then e.truth == Unknown && e.reason == Some(RecursiveRule(key)) && e.children == []
      else
        var child := Go(env.catalog[key].expr, env, calling + {key});
        e.truth == child.truth && e.reason == None && e.children == [child]
  {
  }

  // ---- Leaves --------------------------------------------------------------------

  /** The entity a leaf is about. */
  predicate Names(env: Env, entity: string, name: string) {
    if entity == "$subject" then env.subject == Some(name) else name == entity
  }

  /** Without a subject a leaf about the subject is unknown, and reads nothing. */
  lemma NoSubjectAnswers(expr: BoolExpr, env: Env, calling: set<string>)
    requires IsLeaf(expr) && expr.entity == "$subject" && env.subject.None?
    ensures var e := Go(expr, env, calling);
      e.truth == Unknown && e.reason == Some(NoSubject) && e.observed == []
  {
  }

  /** Existence is never unknown: a fact that is not there does not exist. */
  lemma ExistsAnswers(entity: string, attribute: string, name: string, env: Env, calling: set<string>)
    requires Names(env, entity, name)
    ensures var e, at := Go(Exists(entity, attribute), env, calling), Mention(name, attribute);
      && (e.truth == True <==> at in env.world) && (e.truth == False <==> at !in env.world) && e.reason == None
      && forall o :: o in e.observed <==> o == Seen(env, at)
  {
    LeafHolds(Exists(entity, attribute), env);
  }

  /** Equality is true of the expected value, false of another, and unknown of none. */
  lemma EqAnswers(entity: string, attribute: string, expected: Value, name: string, env: Env, calling: set<string>)
    requires Names(env, entity, name)
    ensures var e, at := Go(Eq(entity, attribute, expected), env, calling), Mention(name, attribute);
      && (e.truth == True <==> at in env.world && env.world[at] == expected)
      && (e.truth == False <==> at in env.world && env.world[at] != expected)
      && e.reason == (if at in env.world then None else Some(Absent(name, attribute)))
      && forall o :: o in e.observed <==> o == Seen(env, at)
  {
    LeafHolds(Eq(entity, attribute, expected), env);
  }

  /** What is recorded of a fact: its value, or that it is absent. */
  function Seen(env: Env, at: Mention): Observed {
    Fact(at.entity, at.attribute, if at in env.world then Some(Digest(env.world[at])) else None)
  }

  /** The instant is before the clock reading: at an earlier millisecond, or on an earlier day. */
  ghost predicate IsBefore(instant: int, now: int, granularity: Granularity) {
    match granularity
    case Instant => instant < now
    case Day => exists midnight {:trigger IsMidnight(midnight)} :: IsMidnight(midnight) && instant < midnight <= now
  }

  predicate IsMidnight(instant: int) {
    instant % 86_400_000 == 0
  }

  lemma DaysApart(instant: int, now: int)
    ensures instant / 86_400_000 < now / 86_400_000 <==> IsBefore(instant, now, Day)
  {
    if instant / 86_400_000 < now / 86_400_000 {
      assert IsMidnight(now / 86_400_000 * 86_400_000);
    }
  }

  /** The clock, in the granularity asked for: the millisecond, or the day it is in. */
  ghost predicate IsTick(o: Observed, now: int, granularity: Granularity) {
    && o.Clock? && o.granularity == granularity
    && match granularity
       case Instant => o.bucket == now
       case Day => o.bucket * 86_400_000 <= now < (o.bucket + 1) * 86_400_000
  }

  /** An instant is compared with the clock; a value of another kind, or none, is unknown. */
  lemma BeforeAnswers(entity: string, attribute: string, granularity: Granularity, name: string, env: Env,
                      calling: set<string>)
    requires Names(env, entity, name)
    ensures var e, at := Go(Before(entity, attribute, granularity), env, calling), Mention(name, attribute);
      var isInstant := at in env.world && env.world[at].Number?;
      && (e.truth == True <==> isInstant && IsBefore(env.world[at].number, env.now, granularity))
      && (e.truth == False <==> isInstant && !IsBefore(env.world[at].number, env.now, granularity))
      && e.reason == (if at !in env.world then Some(Absent(name, attribute))
                      else if isInstant then None else Some(NotAnInstant(name, attribute)))
      && forall o :: o in e.observed <==> o == Seen(env, at) || IsTick(o, env.now, granularity)
  {
    var expr, at := Before(entity, attribute, granularity), Mention(name, attribute);
    LeafHolds(expr, env);
    if at in env.world && env.world[at].Number? {
      DaysApart(env.world[at].number, env.now);
    }
    TickIsUnique(env.now, granularity);
  }

  lemma TickIsUnique(now: int, granularity: Granularity)
    ensures forall o :: IsTick(o, now, granularity) <==> o == Clock(granularity, Bucket(now, granularity))
  {
    forall o | IsTick(o, now, granularity) ensures o == Clock(granularity, Bucket(now, granularity)) {
      if granularity == Day {
        SameDay(now, o.bucket);
      }
    }
  }

  lemma SameDay(now: int, day: int)
    requires day * 86_400_000 <= now < (day + 1) * 86_400_000
    ensures now / 86_400_000 == day
  {
  }

  // ---- What inner nodes record ----------------------------------------------------

  /** A call records which rule it found, or that it found none, and what the rule's evaluation recorded. */
  lemma RuleObserves(key: string, env: Env, calling: set<string>, o: Observed)
    ensures var e := Go(Rule(key), env, calling);
      var cid := if key in env.catalog then Some(env.catalog[key].cid) else None;
      o in e.observed
      <==> o == Config("rule", key, cid) || exists c :: c in e.children && o in c.observed
  {
    if key !in env.catalog {
      NodeHolds(Unknown, Rule(key), [Config(RULE_KIND, key, None)], [], Some(MissingRule(key)), env);
    } else {
      var own := [Config(RULE_KIND, key, Some(env.catalog[key].cid))];
      if key in calling {
        NodeHolds(Unknown, Rule(key), own, [], Some(RecursiveRule(key)), env);
      } else {
        var child := Go(env.catalog[key].expr, env, calling + {key});
        GoHolds(env.catalog[key].expr, env, calling + {key});
        NodeHolds(child.truth, Rule(key), own, [child], None, env);
      }
    }
  }

  /** An operator records exactly what its operands do: none is skipped, whatever the others answer. */
  lemma OperatorObserves(expr: BoolExpr, env: Env, calling: set<string>, o: Observed)
    requires expr.Not? || expr.All? || expr.Any?
    ensures var e := Go(expr, env, calling);
      o in e.observed <==> exists c :: c in e.children && o in c.observed
  {
    match expr
    case Not(operand) =>
      var child := Go(operand, env, calling);
      GoHolds(operand, env, calling);
      NodeHolds(Go(expr, env, calling).truth, expr, [], [child], None, env);
    case All(operands) =>
      GoEachHolds(operands, env, calling);
      NodeHolds(Go(expr, env, calling).truth, expr, [], GoEach(operands, env, calling), None, env);
    case Any(operands) =>
      GoEachHolds(operands, env, calling);
      NodeHolds(Go(expr, env, calling).truth, expr, [], GoEach(operands, env, calling), None, env);
  }

  // ---- Classical when nothing is unknown -------------------------------------------

  /** No node of the tree is unknown. */
  ghost predicate IsDefinite(e: Evaluation) {
    e.truth != Unknown && forall c :: c in e.children ==> IsDefinite(c)
  }

  ghost predicate Carries(env: Env, entity: string, attribute: string, value: Value) {
    exists name {:trigger Mention(name, attribute)} ::
      Names(env, entity, name) && Mention(name, attribute) in env.world && env.world[Mention(name, attribute)] == value
  }

  /** The two-valued reading of an expression. */
  ghost predicate Satisfied(expr: BoolExpr, env: Env, calling: set<string>)
    decreases env.catalog.Keys - calling, expr
  {
    match expr
    case Lit(value) => value
    case Exists(entity, attribute) => exists value :: Carries(env, entity, attribute, value)
    case Eq(entity, attribute, expected) => Carries(env, entity, attribute, expected)
    case Before(entity, attribute, granularity) =>
      exists instant :: Carries(env, entity, attribute, Number(instant)) && IsBefore(instant, env.now, granularity)
    case Rule(key) =>
      key in env.catalog && key !in calling && Satisfied(env.catalog[key].expr, env, calling + {key})
    case Not(operand) => !Satisfied(operand, env, calling)
    case All(operands) => forall i :: 0 <= i < |operands| ==> Satisfied(operands[i], env, calling)
    case Any(operands) => exists i :: 0 <= i < |operands| && Satisfied(operands[i], env, calling)
  }

  lemma LeafIsClassical(expr: BoolExpr, env: Env, calling: set<string>)
    requires IsLeaf(expr) && Go(expr, env, calling).truth != Unknown
    ensures Go(expr, env, calling).truth == True <==> Satisfied(expr, env, calling)
  {
    var name := if expr.entity == "$subject" then env.subject.value else expr.entity;
    var at := Mention(name, expr.attribute);
    forall value
      ensures Carries(env, expr.entity, expr.attribute, value) <==> at in env.world && env.world[at] == value
    {
      if at in env.world && env.world[at] == value {
        assert Names(env, expr.entity, name) && Mention(name, expr.attribute) in env.world;
      }
    }
    match expr
    case Exists(entity, attribute) =>
      ExistsAnswers(entity, attribute, name, env, calling);
      if at in env.world {
        assert Carries(env, entity, attribute, env.world[at]);
      }
    case Eq(entity, attribute, expected) => EqAnswers(entity, attribute, expected, name, env, calling);
    case Before(entity, attribute, granularity) =>
      BeforeAnswers(entity, attribute, granularity, name, env, calling);
      assert Carries(env, entity, attribute, env.world[at]);
  }

  /** An evaluation in which nothing is unknown says true exactly when the expression is satisfied. */
  lemma {:induction false} DefiniteIsClassical(expr: BoolExpr, env: Env, calling: set<string>)
    requires IsDefinite(Go(expr, env, calling))
    ensures Go(expr, env, calling).truth == True <==> Satisfied(expr, env, calling)
    decreases env.catalog.Keys - calling, expr
  {
    match expr
    case Lit(value) => LitAnswers(value, env, calling);
    case Exists(_, _) => LeafIsClassical(expr, env, calling);
    case Eq(_, _, _) => LeafIsClassical(expr, env, calling);
    case Before(_, _, _) => LeafIsClassical(expr, env, calling);
    case Rule(key) =>
      RuleAnswers(key, env, calling);
      var child := Go(env.catalog[key].expr, env, calling + {key});
      assert child in Go(expr, env, calling).children;
      DefiniteIsClassical(env.catalog[key].expr, env, calling + {key});
    case Not(operand) =>
      NotAnswers(operand, env, calling);
      assert Go(operand, env, calling) in Go(expr, env, calling).children;
      DefiniteIsClassical(operand, env, calling);
    case All(operands) =>
      AllAnswers(operands, env, calling);
      forall i | 0 <= i < |operands|
        ensures Go(operands[i], env, calling).truth == True <==> Satisfied(operands[i], env, calling)
      {
        assert GoEach(operands, env, calling)[i] in Go(expr, env, calling).children;
        DefiniteIsClassical(operands[i], env, calling);
      }
    case Any(operands) =>
      AnyAnswers(operands, env, calling);
      forall i | 0 <= i < |operands|
        ensures Go(operands[i], env, calling).truth == True <==> Satisfied(operands[i], env, calling)
      {
        assert GoEach(operands, env, calling)[i] in Go(expr, env, calling).children;
        DefiniteIsClassical(operands[i], env, calling);
      }
  }
}
