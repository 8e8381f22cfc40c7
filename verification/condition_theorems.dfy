/** What evaluating a condition means (preprocess/ifexpr.go). */
module ConditionTheorems {
  import opened Collections
  import opened Cells
  import opened Conditions
  import opened ConditionGrammar
  import opened ConditionEvaluator

  /** A whole condition's value, if it has one. */
  function Evaluate(c: Context, toks: seq<Tok>): Option<Cell> {
    Whole(Parse(c, {}, 0, toks))
  }

  method EvalCondition(c: Context, toks: seq<Tok>) returns (value: Cell, ok: bool)
    ensures ok == Evaluate(c, toks).Some?
    ensures value == if ok then Evaluate(c, toks).value else 0
  {
    hide Parse;
    if |toks| == 0 {
      NothingIsNoCondition(c);
      return 0, false;
    }
    var p := new Evaluator(toks, c, {});
    var v := p.ParseLevel(0);
    if p.unknown || p.pos != |p.toks| {
      return 0, false;
    }
    return v, true;
  }

  lemma {:induction false} NothingIsNoCondition(c: Context)
    ensures Evaluate(c, []).None?
  {
  }

  /** A condition has a value exactly when its tokens are the rendering of a
      well-parenthesised tree that has that value. */
  lemma {:induction false} AcceptedIffRendering(c: Context, toks: seq<Tok>, v: Cell)
    ensures Evaluate(c, toks) == Some(v) <==> exists e :: Spells(e, toks) && Value(c, {}, e) == Some(v)
  {
    hide Parse, Value;
    if Evaluate(c, toks) == Some(v) {
      var e := ReadIsRendering(c, {}, 0, toks);
      assert Render(e) + [] == Render(e);
      assert Spells(e, toks);
    }
    forall e | Spells(e, toks)
      ensures Evaluate(c, toks) == Value(c, {}, e)
    {
      RenderingHasItsValue(c, e);
    }
  }

  lemma {:induction false} RenderingHasItsValue(c: Context, e: Expr)
    requires Fits(e, 0)
    ensures Evaluate(c, Render(e)) == Value(c, {}, e)
  {
    hide Parse, Value;
    assert Render(e) + [] == Render(e);
    RenderingIsRead(c, {}, e, 0, []);
  }

  // ---- Minimal parentheses ----

  /** A tree spelled with the right kinds of token, whose operands may still need
      parentheses. */
  predicate WellSpelled(e: Expr) {
    match e
    case Group(_, inner, _) => false
    case Prefix(op, x) => IsPrefix(op.kind) && WellSpelled(x)
    case Binary(l, op, r) => Precedence(op.kind).Some? && WellSpelled(l) && WellSpelled(r)
    case _ => Fits(e, PRIMARY)
  }

  /** How loosely the top of a tree binds. */
  function Binding(e: Expr): nat {
    match e
    case Prefix(_, _) => UNARY
    case Binary(_, op, _) => if Precedence(op.kind).Some? then Precedence(op.kind).value else PRIMARY
    case _ => PRIMARY
  }

  const OPEN := Tok(LParen, "(")
  const CLOSE := Tok(RParen, ")")

  /** The tree with parentheses exactly around the operands that bind too loosely for
      their place. */
  function Parenthesise(e: Expr, level: nat): Expr
    requires WellSpelled(e)
  {
    var inside :=
      match e
      case Prefix(op, x) => Prefix(op, Parenthesise(x, UNARY))
      case Binary(l, op, r) =>
        var p := Precedence(op.kind).value;
        Binary(Parenthesise(l, p), op, Parenthesise(r, p + 1))
      case _ => e;
    if Binding(e) < level then Group(OPEN, inside, CLOSE) else inside
  }

  lemma {:induction false} ParenthesisedFits(e: Expr, level: nat)
    requires WellSpelled(e) && level <= PRIMARY
    ensures Fits(Parenthesise(e, level), level)
    ensures Binding(e) < level <==> !Fits(Parenthesise(e, 0), level)
  {
    match e
    case Prefix(op, x) =>
      ParenthesisedFits(x, UNARY);
    case Binary(l, op, r) =>
      ParenthesisedFits(l, Precedence(op.kind).value);
      ParenthesisedFits(r, Precedence(op.kind).value + 1);
    case _ =>
  }

  lemma {:induction false} ParenthesesKeepTheValue(c: Context, guard: set<string>, e: Expr, level: nat)
    requires WellSpelled(e)
    ensures Value(c, guard, Parenthesise(e, level)) == Value(c, guard, e)
  {
    hide Apply, ApplyPrefix;
    match e
    case Prefix(op, x) =>
      ParenthesesKeepTheValue(c, guard, x, UNARY);
    case Binary(l, op, r) =>
      ParenthesesKeepTheValue(c, guard, l, Precedence(op.kind).value);
      ParenthesesKeepTheValue(c, guard, r, Precedence(op.kind).value + 1);
    case _ =>
  }

  /** Writing a tree with as few parentheses as it needs and evaluating the tokens
      gives the tree's own value, and no value exactly when the tree has none. */
  lemma {:induction false} MinimalRenderingEvaluates(c: Context, e: Expr)
    requires WellSpelled(e)
    ensures Evaluate(c, Render(Parenthesise(e, 0))) == Value(c, {}, e)
  {
    hide Parse, Value;
    ParenthesisedFits(e, 0);
    RenderingHasItsValue(c, Parenthesise(e, 0));
    ParenthesesKeepTheValue(c, {}, e, 0);
  }

  // ---- When there is no value ----

  predicate Within(s: Expr, e: Expr) {
    || s == e
    || match e
       case Group(_, inner, _) => Within(s, inner)
       case Prefix(_, x) => Within(s, x)
       case Binary(l, _, r) => Within(s, l) || Within(s, r)
       case _ => false
  }

  /** The place where a value is lost: a zero divisor, or a macro that is not
      object-like or whose body has no value. */
  ghost predicate Faulty(c: Context, guard: set<string>, s: Expr) {
    match s
    case Binary(_, op, r) => op.kind in {Slash, Percent} && Value(c, guard, r) == Some(0)
    case Name(t) =>
      && t.text !in guard && t.text in c.macros
      && (!c.macros[t.text].objectLike || BodyValue(c, guard + {t.text}, c.macros[t.text].body).None?)
    case _ => false
  }

  lemma {:induction false} UnknownExactly(c: Context, guard: set<string>, e: Expr, level: nat)
    requires Fits(e, level)
    ensures Value(c, guard, e).None? <==> exists s :: Within(s, e) && Faulty(c, guard, s)
    decreases e, 1
  {
    hide Apply, ApplyPrefix;
    match e
    case Prefix(op, x) =>
      UnknownExactly(c, guard, x, UNARY);
      FaultInside(c, guard, e);
    case Group(_, inner, _) =>
      UnknownExactly(c, guard, inner, 0);
      FaultInside(c, guard, e);
    case Binary(l, op, r) =>
      BinaryUnknownExactly(c, guard, e, level);
    case Name(t) =>
      FaultInside(c, guard, e);
    case _ =>
  }

  lemma {:induction false} BinaryUnknownExactly(c: Context, guard: set<string>, e: Expr, level: nat)
    requires e.Binary? && Fits(e, level)
    ensures Value(c, guard, e).None? <==> exists s :: Within(s, e) && Faulty(c, guard, s)
    decreases e, 0
  {
    hide Apply, ApplyPrefix;
    UnknownExactly(c, guard, e.left, Precedence(e.op.kind).value);
    UnknownExactly(c, guard, e.right, Precedence(e.op.kind).value + 1);
    FaultInside(c, guard, e);
    assert Within(e, e);
  }

  /** A fault of an operand is a fault of the whole. */
  lemma {:induction false} FaultInside(c: Context, guard: set<string>, e: Expr)
    ensures (exists s :: Within(s, e) && Faulty(c, guard, s)) <==>
            || Faulty(c, guard, e)
            || (e.Group? && exists s :: Within(s, e.inner) && Faulty(c, guard, s))
            || (e.Prefix? && exists s :: Within(s, e.operand) && Faulty(c, guard, s))
            || (e.Binary? && exists s :: Within(s, e.left) && Faulty(c, guard, s))
            || (e.Binary? && exists s :: Within(s, e.right) && Faulty(c, guard, s))
  {
    hide Faulty;
    assert Within(e, e);
    forall s | Faulty(c, guard, s)
      ensures Within(s, e) <==>
              || s == e
              || (e.Group? && Within(s, e.inner))
              || (e.Prefix? && Within(s, e.operand))
              || (e.Binary? && (Within(s, e.left) || Within(s, e.right)))
    {
    }
  }

  /** A macro whose body is its own name is worth 0: the guard ends the recursion. */
  lemma {:induction false} SelfReferenceIsZero(c: Context, t: Tok)
    requires t.kind == Identifier && t.text in c.macros
    requires c.macros[t.text] == Macro(true, [t])
    ensures Evaluate(c, [t]) == Some(0)
  {
    hide Parse;
    var e := Name(t);
    assert Render(e) == [t];
    RenderingHasItsValue(c, e);
    assert Spells(e, [t]);
    assert Whole(Parse(c, {t.text}, 0, [t])) == BodyValue(c, {t.text}, [t]) by {
      BodyIsRead(c, {t.text}, [t]);
    }
    RenderingIsRead(c, {t.text}, e, 0, []);
    assert [t] + [] == [t];
    assert {} + {t.text} == {t.text};
  }
}
