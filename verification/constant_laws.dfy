/** What the resolved constants are worth, definition by definition, in the numbers
    that their operands stand for. */
module ConstantLaws {
  import opened Collections
  import opened Cells
  import opened Constants

  /** What a resolution returns. */
  ghost predicate Resolved(defs: Definitions, values: Values) {
    forall id, v: Cell :: Lookup(values, id) == Some(v) <==> Derives(defs, id, v)
  }

  /** The expression is worth `a` among these constants. */
  predicate Worth(e: Option<Expr>, values: Values, a: Cell) {
    e.Some? && Eval(e.value, values) == Some(a)
  }

  ghost predicate Worthless(e: Option<Expr>, values: Values) {
    forall a: Cell :: !Worth(e, values, a)
  }

  lemma {:induction false} Defined(defs: Definitions, values: Values, id: nat)
    requires Resolved(defs, values) && id in defs
    ensures Lookup(values, id) == Define(defs[id], values)
  {
    hide Define, Derives, Lookup;
    ResultIsLeastFixpoint(defs, values);
  }

  /** Literals are worth what they say, names what their constant is worth, and
      parentheses change nothing. */
  lemma {:induction false} OperandLaws(values: Values, e: Expr, a: Cell)
    ensures e.Literal? ==> (Worth(Some(e), values, a) <==> e.parsed == Some(a))
    ensures e.Name? ==> (Worth(Some(e), values, a) <==> e.symbol.Some? && e.symbol.value in values && values[e.symbol.value] == a)
    ensures e.Group? ==> (Worth(Some(e), values, a) <==> Worth(e.inner, values, a))
    ensures e.Opaque? ==> !Worth(Some(e), values, a)
  {
  }

  /** A constant defined by two operands and an operator between them. */
  lemma {:induction false} BinaryConstant(defs: Definitions, values: Values, id: nat, a: Cell, b: Cell)
    requires Resolved(defs, values) && id in defs && defs[id].Explicit? && defs[id].expr.Binary?
    requires Worth(defs[id].expr.left, values, a) && Worth(defs[id].expr.right, values, b)
    ensures var op := defs[id].expr.op;
      id in values <==> op != OtherBinary && !(op in {Common(OpDiv), Common(OpMod)} && b == 0)
    ensures var op := defs[id].expr.op;
      id in values ==> var v := values[id];
        && (op == Common(OpAdd) ==> Stands(v, a + b))
        && (op == Common(OpSub) ==> Stands(v, a - b))
        && (op == Common(OpMul) ==> Stands(v, a * b))
        && (op == Common(OpDiv) ==> IsQuotient(a, b, v))
        && (op == Common(OpMod) ==> IsRemainder(a, b, v))
        && (op == Common(OpShl) ==> IsShiftedLeft(a, b, v))
        && (op == Common(OpShr) ==> IsShiftedRight(a, b, v))
        && (op == Ushr ==> IsShiftedRight(a, b, v))
        && (op == Common(OpAnd) ==> forall i: nat :: i < 64 ==> (Bit(v, i) <==> Bit(a, i) && Bit(b, i)))
        && (op == Common(OpOr) ==> forall i: nat :: i < 64 ==> (Bit(v, i) <==> Bit(a, i) || Bit(b, i)))
        && (op == Common(OpXor) ==> forall i: nat :: i < 64 ==> (Bit(v, i) <==> Bit(a, i) != Bit(b, i)))
        && (op == Common(OpEq) ==> v == if a == b then 1 else 0)
        && (op == Common(OpNotEq) ==> v == if a == b then 0 else 1)
        && (op == Common(OpLt) ==> v == if a < b then 1 else 0)
        && (op == Common(OpLtEq) ==> v == if a <= b then 1 else 0)
        && (op == Common(OpGt) ==> v == if b < a then 1 else 0)
        && (op == Common(OpGtEq) ==> v == if b <= a then 1 else 0)
        && (op == Common(OpAndAnd) ==> v == if a == 0 || b == 0 then 0 else 1)
        && (op == Common(OpOrOr) ==> v == if a == 0 && b == 0 then 0 else 1)
  {
    hide Resolved, Stands, IsQuotient, IsRemainder, IsShiftedLeft, IsShiftedRight, Bit, Compute, ShiftRight, Operate;
    var op := defs[id].expr.op;
    Defined(defs, values, id);
    BinaryEval(defs[id].expr, values, a, b);
    match op
    case Common(operator) =>
      if Operate(operator, a, b).Some? {
        OperatorLaws(operator, a, b);
      }
    case Ushr => UnsignedShift(a, b);
    case OtherBinary =>
  }

  lemma {:induction false} UnsignedShift(a: Cell, b: Cell)
    ensures IsShiftedRight(a, b, ShiftRight(a, b))
  {
    hide Stands, Pow2, ShiftRight, ShiftLeft;
    ShiftFacts(a, b);
  }

  lemma {:induction false} BinaryEval(e: Expr, values: Values, a: Cell, b: Cell)
    requires e.Binary? && Worth(e.left, values, a) && Worth(e.right, values, b)
    ensures Eval(e, values) == ApplyBinary(e.op, a, b)
  {
  }

  /** A constant defined by an operator in front of an operand. */
  lemma {:induction false} UnaryConstant(defs: Definitions, values: Values, id: nat, a: Cell)
    requires Resolved(defs, values) && id in defs && defs[id].Explicit? && defs[id].expr.Unary?
    requires Worth(defs[id].expr.operand, values, a)
    ensures id in values <==> defs[id].expr.uop != OtherUnary
    ensures var op := defs[id].expr.uop;
      id in values ==> var v := values[id];
        && (op == Signed(OpPlus) ==> v == a)
        && (op == Signed(OpMinus) ==> Stands(v, 0 - a))
        && (op == Signed(OpNot) ==> v == if a == 0 then 1 else 0)
        && (op == Signed(OpComplement) ==> forall i: nat :: i < 64 ==> (Bit(v, i) <==> !Bit(a, i)))
  {
    hide Resolved, Stands, Bit, OperateSign;
    Defined(defs, values, id);
    var e := defs[id].expr;
    assert Eval(e, values) == ApplyUnary(e.uop, a);
    if e.uop.Signed? {
      SignLaws(e.uop.sign, a);
    }
  }

  /** The condition chooses one of two definitions, and the other one does not matter. */
  lemma {:induction false} TernaryConstant(defs: Definitions, values: Values, id: nat, c: Cell, v: Cell)
    requires Resolved(defs, values) && id in defs && defs[id].Explicit? && defs[id].expr.Ternary?
    requires Worth(defs[id].expr.cond, values, c) && defs[id].expr.yes.Some? && defs[id].expr.no.Some?
    ensures Lookup(values, id) == Some(v)
       <==> Worth(if c == 0 then defs[id].expr.no else defs[id].expr.yes, values, v)
  {
    hide Resolved;
    Defined(defs, values, id);
  }

  /** A definition that needs the value of something without one gives none. */
  lemma {:induction false} WithoutOperand(defs: Definitions, values: Values, id: nat)
    requires Resolved(defs, values) && id in defs && defs[id].Explicit?
    requires var e := defs[id].expr;
      || (e.Binary? && (Worthless(e.left, values) || Worthless(e.right, values)))
      || (e.Unary? && Worthless(e.operand, values))
      || (e.Ternary? && (Worthless(e.cond, values) || e.yes.None? || e.no.None?))
    ensures id !in values
  {
    hide Resolved, ApplyBinary, ApplyUnary;
    Defined(defs, values, id);
    var e := defs[id].expr;
    if Eval(e, values).Some? {
      match e
      case Binary(_, left, right) =>
        assert Worth(left, values, Eval(left.value, values).value);
        assert Worth(right, values, Eval(right.value, values).value);
        assert false;
      case Unary(_, operand) =>
        assert Worth(operand, values, Eval(operand.value, values).value);
        assert false;
      case Ternary(cond, _, _) =>
        assert Worth(cond, values, Eval(cond.value, values).value);
        assert false;
      case _ =>
    }
  }

  /** An enum counts from 0, and each member without a value of its own follows the one
      before it; a definition by an expression is worth what the expression is. */
  lemma {:induction false} DefinitionLaws(defs: Definitions, values: Values, id: nat)
    requires Resolved(defs, values) && id in defs
    ensures defs[id] == Implicit(0) ==> Lookup(values, id) == Some(0)
    ensures defs[id].Implicit? && defs[id].previous != 0 ==>
      && (id in values <==> defs[id].previous in values)
      && (id in values ==> Stands(values[id], values[defs[id].previous] as int + 1))
    ensures forall a: Cell :: defs[id].Explicit? ==>
      (Lookup(values, id) == Some(a) <==> Worth(Some(defs[id].expr), values, a))
  {
    hide Resolved, Stands, Eval;
    Defined(defs, values, id);
    if defs[id].Implicit? && defs[id].previous in values {
      WrapStands(values[defs[id].previous] as int + 1);
    }
  }
}
