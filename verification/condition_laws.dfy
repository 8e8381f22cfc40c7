/** What conditions are worth, spelling by spelling, in the numbers that their operands
    stand for (preprocess/ifexpr.go). */
module ConditionLaws {
  import opened Collections
  import opened Cells
  import opened Conditions
  import opened ConditionGrammar
  import opened ConditionTheorems

  /** The run with parentheses around it. */
  function Enclosed(toks: seq<Tok>): seq<Tok> { [OPEN] + toks + [CLOSE] }

  /** A literal worth `a`, or a condition worth `a` in parentheses. */
  ghost predicate IsOperand(c: Context, toks: seq<Tok>, a: Cell) {
    || (|toks| == 1 && toks[0].kind in {IntLiteral, CharLiteral} && c.literal(toks[0]) == a)
    || exists inner :: toks == Enclosed(inner) && Evaluate(c, inner) == Some(a)
  }

  // ---- Single tokens ----

  lemma {:induction false} LiteralCondition(c: Context, t: Tok)
    requires t.kind in {IntLiteral, CharLiteral}
    ensures Evaluate(c, [t]) == Some(c.literal(t))
  {
    hide Evaluate;
    assert Render(Literal(t)) == [t];
    RenderingHasItsValue(c, Literal(t));
  }

  /** A name is worth 0 when it is no macro's; a macro's parameters have no value here. */
  lemma {:induction false} NameCondition(c: Context, t: Tok)
    requires t.kind == Identifier
    ensures t.text !in c.macros ==> Evaluate(c, [t]) == Some(0)
    ensures t.text in c.macros && !c.macros[t.text].objectLike ==> Evaluate(c, [t]).None?
    ensures forall v: Tok :: t.text in c.macros && c.macros[t.text] == Macro(true, [v]) && v.kind == IntLiteral ==>
              Evaluate(c, [t]) == Some(c.literal(v))
  {
    hide Evaluate;
    assert Render(Name(t)) == [t];
    RenderingHasItsValue(c, Name(t));
    forall v: Tok | t.text in c.macros && c.macros[t.text] == Macro(true, [v]) && v.kind == IntLiteral
      ensures Value(c, {}, Name(t)) == Some(c.literal(v))
    {
      OnlyLiteral(c, {} + {t.text}, v);
    }
  }

  lemma {:induction false} OnlyLiteral(c: Context, guard: set<string>, v: Tok)
    requires v.kind == IntLiteral
    ensures BodyValue(c, guard, [v]) == Some(c.literal(v))
  {
    hide Value;
    var e := Literal(v);
    assert Render(e) == [v];
    assert Spells(e, [v]);
    BodyIsRead(c, guard, [v]);
    RenderingIsRead(c, guard, e, 0, []);
    assert [v] + [] == [v];
    assert Value(c, guard, e) == Some(c.literal(v)) by { LiteralValue(c, guard, v); }
  }

  lemma {:induction false} LiteralValue(c: Context, guard: set<string>, v: Tok)
    ensures Value(c, guard, Literal(v)) == Some(c.literal(v))
  {
  }

  lemma {:induction false} DefinedCondition(c: Context, word: Tok, t: Tok)
    requires word.kind == KwDefined && t.kind == Identifier
    ensures Evaluate(c, [word, t]) == Some(if t.text in c.macros then 1 else 0)
    ensures Evaluate(c, [word, OPEN, t, CLOSE]) == Some(if t.text in c.macros then 1 else 0)
  {
    hide Evaluate;
    var bare, closed := Defined(word, None, t, None), Defined(word, Some(OPEN), t, Some(CLOSE));
    assert Render(bare) == [word, t];
    RenderingHasItsValue(c, bare);
    assert Render(closed) == [word, OPEN, t, CLOSE];
    RenderingHasItsValue(c, closed);
  }

  // ---- Operators ----

  /** The tree of an operand. */
  lemma {:induction false} OperandTree(c: Context, toks: seq<Tok>, a: Cell) returns (e: Expr)
    requires IsOperand(c, toks, a)
    ensures Fits(e, PRIMARY) && Render(e) == toks && Value(c, {}, e) == Some(a)
  {
    hide Evaluate;
    if |toks| == 1 && toks[0].kind in {IntLiteral, CharLiteral} && c.literal(toks[0]) == a {
      e := Literal(toks[0]);
    } else {
      var inner :| toks == Enclosed(inner) && Evaluate(c, inner) == Some(a);
      AcceptedIffRendering(c, inner, a);
      var tree :| Spells(tree, inner) && Value(c, {}, tree) == Some(a);
      e := Group(OPEN, tree, CLOSE);
    }
  }

  lemma {:induction false} LooserFits(e: Expr, level: nat)
    requires Fits(e, PRIMARY) && level <= PRIMARY
    ensures Fits(e, level)
  {
  }

  lemma {:induction false} BinaryCondition(c: Context, x: seq<Tok>, op: Tok, y: seq<Tok>, a: Cell, b: Cell)
    requires IsOperand(c, x, a) && IsOperand(c, y, b)
    requires op.kind in {OrOr, AndAnd, Pipe, Caret, Amp, Eq, NotEq, Lt, Gt, LtEq, GtEq, Shl, Shr, Plus, Minus, Star, Slash, Percent}
    ensures Evaluate(c, x + [op] + y).None? <==> op.kind in {Slash, Percent} && b == 0
    ensures var v := Evaluate(c, x + [op] + y);
      v.Some? ==>
        && (op.kind == Plus ==> Stands(v.value, a + b))
        && (op.kind == Minus ==> Stands(v.value, a - b))
        && (op.kind == Star ==> Stands(v.value, a * b))
        && (op.kind == Slash ==> IsQuotient(a, b, v.value))
        && (op.kind == Percent ==> IsRemainder(a, b, v.value))
        && (op.kind == Shl ==> IsShiftedLeft(a, b, v.value))
        && (op.kind == Shr ==> IsShiftedRight(a, b, v.value))
        && (op.kind == Amp ==> forall i: nat :: i < 64 ==> (Bit(v.value, i) <==> Bit(a, i) && Bit(b, i)))
        && (op.kind == Pipe ==> forall i: nat :: i < 64 ==> (Bit(v.value, i) <==> Bit(a, i) || Bit(b, i)))
        && (op.kind == Caret ==> forall i: nat :: i < 64 ==> (Bit(v.value, i) <==> Bit(a, i) != Bit(b, i)))
        && (op.kind == Eq ==> v.value == if a == b then 1 else 0)
        && (op.kind == NotEq ==> v.value == if a == b then 0 else 1)
        && (op.kind == Lt ==> v.value == if a < b then 1 else 0)
        && (op.kind == LtEq ==> v.value == if a <= b then 1 else 0)
        && (op.kind == Gt ==> v.value == if b < a then 1 else 0)
        && (op.kind == GtEq ==> v.value == if b <= a then 1 else 0)
        && (op.kind == AndAnd ==> v.value == if a == 0 || b == 0 then 0 else 1)
        && (op.kind == OrOr ==> v.value == if a == 0 && b == 0 then 0 else 1)
  {
    hide Evaluate, IsOperand, Stands, IsQuotient, IsRemainder, IsShiftedLeft, IsShiftedRight, Bit, Operate;
    BinaryHasItsValue(c, x, op, y, a, b);
    if Operate(OperatorOf(op.kind), a, b).Some? {
      OperatorLaws(OperatorOf(op.kind), a, b);
    }
  }

  lemma {:induction false} BinaryHasItsValue(c: Context, x: seq<Tok>, op: Tok, y: seq<Tok>, a: Cell, b: Cell)
    requires IsOperand(c, x, a) && IsOperand(c, y, b) && Precedence(op.kind).Some?
    ensures Evaluate(c, x + [op] + y) == Apply(op.kind, a, b)
  {
    hide Evaluate, IsOperand, Apply;
    var l := OperandTree(c, x, a);
    var r := OperandTree(c, y, b);
    var p := Precedence(op.kind).value;
    LooserFits(l, p);
    LooserFits(r, p + 1);
    RenderingHasItsValue(c, Binary(l, op, r));
  }

  lemma {:induction false} PrefixCondition(c: Context, op: Tok, x: seq<Tok>, a: Cell)
    requires IsOperand(c, x, a) && op.kind in {Plus, Minus, Bang, Tilde}
    ensures var v := Evaluate(c, [op] + x);
      && v.Some?
      && (op.kind == Plus ==> v.value == a)
      && (op.kind == Minus ==> Stands(v.value, 0 - a))
      && (op.kind == Bang ==> v.value == if a == 0 then 1 else 0)
      && (op.kind == Tilde ==> forall i: nat :: i < 64 ==> (Bit(v.value, i) <==> !Bit(a, i)))
  {
    hide Evaluate, IsOperand, Stands, Bit, OperateSign;
    var e := OperandTree(c, x, a);
    LooserFits(e, UNARY);
    RenderingHasItsValue(c, Prefix(op, e));
    SignLaws(OpPlus, a);
    SignLaws(OpMinus, a);
    SignLaws(OpNot, a);
    SignLaws(OpComplement, a);
  }

  // ---- Precedence ----

  /** The operators from loosest to tightest. */
  const LADDER: seq<set<Kind>> := [
    {OrOr}, {AndAnd}, {Pipe}, {Caret}, {Amp}, {Eq, NotEq}, {Lt, Gt, LtEq, GtEq},
    {Shl, Shr}, {Plus, Minus}, {Star, Slash, Percent}]

  /** Of two operators the tighter one takes the operand between them, and of two equally
      tight ones the first. */
  lemma {:induction false} TighterOperatorFirst(
      c: Context, x: seq<Tok>, op: Tok, y: seq<Tok>, op': Tok, z: seq<Tok>, a: Cell, b: Cell, d: Cell, i: nat, j: nat)
    requires IsOperand(c, x, a) && IsOperand(c, y, b) && IsOperand(c, z, d)
    requires i < |LADDER| && j < |LADDER| && op.kind in LADDER[i] && op'.kind in LADDER[j]
    ensures Evaluate(c, x + [op] + y + [op'] + z) ==
            Evaluate(c, if i < j then x + [op] + Enclosed(y + [op'] + z) else Enclosed(x + [op] + y) + [op'] + z)
  {
    hide Evaluate, IsOperand, Apply, Fits, Value, Precedence;
    var l := OperandTree(c, x, a);
    var m := OperandTree(c, y, b);
    var r := OperandTree(c, z, d);
    Rungs(op.kind, i);
    Rungs(op'.kind, j);
    FitsEverywhere(l);
    FitsEverywhere(m);
    FitsEverywhere(r);
    if i < j {
      var inner := Binary(m, op', r);
      BinaryFits(m, op', r, j);
      BinaryFits(l, op, inner, i);
      GroupFits(inner);
      FitsEverywhere(Group(OPEN, inner, CLOSE));
      BinaryFits(l, op, Group(OPEN, inner, CLOSE), i);
      RenderingHasItsValue(c, Binary(l, op, inner));
      RenderingHasItsValue(c, Binary(l, op, Group(OPEN, inner, CLOSE)));
      EnclosedValue(c, l, op, inner);
      assert Render(Binary(l, op, inner)) == x + [op] + y + [op'] + z;
      assert Render(Binary(l, op, Group(OPEN, inner, CLOSE))) == x + [op] + Enclosed(y + [op'] + z);
    } else {
      var inner := Binary(l, op, m);
      BinaryFits(l, op, m, i);
      BinaryFits(inner, op', r, j);
      GroupFits(inner);
      FitsEverywhere(Group(OPEN, inner, CLOSE));
      BinaryFits(Group(OPEN, inner, CLOSE), op', r, j);
      RenderingHasItsValue(c, Binary(inner, op', r));
      RenderingHasItsValue(c, Binary(Group(OPEN, inner, CLOSE), op', r));
      EnclosedValue(c, inner, op', r);
      assert Render(Binary(inner, op', r)) == x + [op] + y + [op'] + z;
      assert Render(Binary(Group(OPEN, inner, CLOSE), op', r)) == Enclosed(x + [op] + y) + [op'] + z;
    }
  }

  lemma {:induction false} EnclosedValue(c: Context, l: Expr, op: Tok, r: Expr)
    ensures Value(c, {}, Binary(l, op, Group(OPEN, r, CLOSE))) == Value(c, {}, Binary(l, op, r))
    ensures Value(c, {}, Binary(Group(OPEN, l, CLOSE), op, r)) == Value(c, {}, Binary(l, op, r))
  {
  }

  lemma {:induction false} BinaryFits(l: Expr, op: Tok, r: Expr, p: nat)
    requires Precedence(op.kind) == Some(p)
    requires Fits(l, p) && Fits(r, p + 1)
    ensures forall level: nat :: level <= p ==> Fits(Binary(l, op, r), level)
  {
  }

  lemma {:induction false} GroupFits(e: Expr)
    requires Fits(e, 0)
    ensures Fits(Group(OPEN, e, CLOSE), PRIMARY)
  {
  }

  lemma {:induction false} FitsEverywhere(e: Expr)
    requires Fits(e, PRIMARY)
    ensures forall level: nat :: level <= PRIMARY ==> Fits(e, level)
  {
    forall level: nat | level <= PRIMARY ensures Fits(e, level) {
      LooserFits(e, level);
    }
  }

  lemma {:induction false} Rungs(k: Kind, i: nat)
    requires i < |LADDER| && k in LADDER[i]
    ensures Precedence(k) == Some(i)
  {
  }
}
