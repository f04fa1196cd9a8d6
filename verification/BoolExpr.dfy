/** The predicate language, the facts and clock it reads, and what it statically mentions. */
module BoolExpr {
  datatype Value = Text(text: string) | Number(number: int) | Flag(flag: bool)

  datatype Granularity = Instant | Day

  datatype BoolExpr =
    | Lit(value: bool)
    | Exists(entity: string, attribute: string)
    | Eq(entity: string, attribute: string, expected: Value)
    | Before(entity: string, attribute: string, granularity: Granularity)
    | Rule(key: string)
    | Not(expr: BoolExpr)
    | All(exprs: seq<BoolExpr>)
    | Any(exprs: seq<BoolExpr>)

  datatype Mention = Mention(entity: string, attribute: string)

  /** Facts the expression names directly. */
  function Mentions(expr: BoolExpr): seq<Mention>
    decreases expr, 1
  {
    match expr
    case Lit(_) => []
    case Exists(entity, attribute) => [Mention(entity, attribute)]
    case Eq(entity, attribute, _) => [Mention(entity, attribute)]
    case Before(entity, attribute, _) => [Mention(entity, attribute)]
    case Rule(_) => []
    case Not(e) => Mentions(e)
    case All(es) => MentionsEach(es)
    case Any(es) => MentionsEach(es)
  }

  function MentionsEach(exprs: seq<BoolExpr>): seq<Mention>
    decreases exprs, 0
  {
    if exprs == [] then [] else Mentions(exprs[0]) + MentionsEach(exprs[1..])
  }

  /** Rules the expression calls directly. */
  function MentionsRules(expr: BoolExpr): seq<string>
    decreases expr, 1
  {
    match expr
    case Lit(_) => []
    case Exists(_, _) => []
    case Eq(_, _, _) => []
    case Before(_, _, _) => []
    case Rule(key) => [key]
    case Not(e) => MentionsRules(e)
    case All(es) => MentionsRulesEach(es)
    case Any(es) => MentionsRulesEach(es)
  }

  function MentionsRulesEach(exprs: seq<BoolExpr>): seq<string>
    decreases exprs, 0
  {
    if exprs == [] then [] else MentionsRules(exprs[0]) + MentionsRulesEach(exprs[1..])
  }

  lemma {:induction false} MentionedByAnOperand(exprs: seq<BoolExpr>, m: Mention)
    ensures m in MentionsEach(exprs) <==> exists e :: e in exprs && m in Mentions(e)
  {
    if exprs != [] {
      MentionedByAnOperand(exprs[1..], m);
      if e :| e in exprs && m in Mentions(e) {
        assert e == exprs[0] || e in exprs[1..];
      }
    }
  }

  lemma {:induction false} CalledByAnOperand(exprs: seq<BoolExpr>, key: string)
    ensures key in MentionsRulesEach(exprs) <==> exists e :: e in exprs && key in MentionsRules(e)
  {
    if exprs != [] {
      CalledByAnOperand(exprs[1..], key);
      if e :| e in exprs && key in MentionsRules(e) {
        assert e == exprs[0] || e in exprs[1..];
      }
    }
  }

  // ---- What is mentioned -----------------------------------------------------

  /** The expression itself, or one somewhere inside it. */
  ghost predicate Occurs(sub: BoolExpr, expr: BoolExpr) {
    sub == expr ||
    match expr
    case Not(e) => Occurs(sub, e)
    case All(es) => exists e :: e in es && Occurs(sub, e)
    case Any(es) => exists e :: e in es && Occurs(sub, e)
    case _ => false
  }

  /** The expression looks at the fact: whether it exists, what it equals, or whether it is in the past. */
  predicate LooksAt(leaf: BoolExpr, m: Mention) {
    match leaf
    case Exists(entity, attribute) => m == Mention(entity, attribute)
    case Eq(entity, attribute, _) => m == Mention(entity, attribute)
    case Before(entity, attribute, _) => m == Mention(entity, attribute)
    case _ => false
  }

  /** What is mentioned is what some expression inside looks at. */
  lemma {:induction false} MentionsAreLookedAt(expr: BoolExpr, m: Mention)
    ensures m in Mentions(expr) <==> exists leaf :: Occurs(leaf, expr) && LooksAt(leaf, m)
    decreases expr, 1
  {
    assert Occurs(expr, expr);
    match expr {
      case Not(e) => MentionsAreLookedAt(e, m);
      case All(es) => MentionedInEach(es, m);
      case Any(es) => MentionedInEach(es, m);
      case _ =>
    }
  }

  lemma {:induction false} MentionedInEach(exprs: seq<BoolExpr>, m: Mention)
    ensures m in MentionsEach(exprs) <==> exists e, leaf :: e in exprs && Occurs(leaf, e) && LooksAt(leaf, m)
    decreases exprs, 0
  {
    if exprs != [] {
      MentionsAreLookedAt(exprs[0], m);
      MentionedInEach(exprs[1..], m);
      assert exprs == [exprs[0]] + exprs[1..];
    }
  }

  /** The rules mentioned are those some expression inside calls. */
  lemma {:induction false} RulesMentionedAreCalled(expr: BoolExpr, key: string)
    ensures key in MentionsRules(expr) <==> Occurs(Rule(key), expr)
    decreases expr, 1
  {
    match expr {
      case Not(e) => RulesMentionedAreCalled(e, key);
      case All(es) => RulesCalledInEach(es, key);
      case Any(es) => RulesCalledInEach(es, key);
      case _ =>
    }
  }

  lemma {:induction false} RulesCalledInEach(exprs: seq<BoolExpr>, key: string)
    ensures key in MentionsRulesEach(exprs) <==> exists e :: e in exprs && Occurs(Rule(key), e)
    decreases exprs, 0
  {
    if exprs != [] {
      RulesMentionedAreCalled(exprs[0], key);
      RulesCalledInEach(exprs[1..], key);
      assert exprs == [exprs[0]] + exprs[1..];
    }
  }
}
