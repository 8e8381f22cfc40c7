/** Condition expressions of #if, #elseif and #assert: their tokens, the trees the
    tokens spell, and what a tree is worth (preprocess/ifexpr.go). */
module Conditions {
  import opened Collections
  import opened Cells

  datatype Kind =
    | OrOr | AndAnd | Pipe | Caret | Amp | Eq | NotEq | Lt | Gt | LtEq | GtEq
    | Shl | Shr | Plus | Minus | Star | Slash | Percent | Bang | Tilde
    | LParen | RParen | IntLiteral | CharLiteral | KwDefined | Identifier | OtherKind

  datatype Tok = Tok(kind: Kind, text: string)

  datatype Macro = Macro(objectLike: bool, body: seq<Tok>)

  /** The macro table and the reading of literal spellings, fixed for one condition. */
  datatype Context = Context(macros: map<string, Macro>, literal: Tok -> Cell)

  /** The ten levels of binary operators, loosest first; unary and primary
      expressions stand above them. */
  const UNARY: nat := 10
  const PRIMARY: nat := 11

  function Precedence(k: Kind): Option<nat> {
    match k
    case OrOr => Some(0)
    case AndAnd => Some(1)
    case Pipe => Some(2)
    case Caret => Some(3)
    case Amp => Some(4)
    case Eq => Some(5)
    case NotEq => Some(5)
    case Lt => Some(6)
    case Gt => Some(6)
    case LtEq => Some(6)
    case GtEq => Some(6)
    case Shl => Some(7)
    case Shr => Some(7)
    case Plus => Some(8)
    case Minus => Some(8)
    case Star => Some(9)
    case Slash => Some(9)
    case Percent => Some(9)
    case _ => None
  }

  predicate IsPrefix(k: Kind) { k in {Bang, Minus, Plus, Tilde} }

  function OperatorOf(k: Kind): (op: Operator)
    requires Precedence(k).Some?
    ensures op == OpDiv <==> k == Slash
    ensures op == OpMod <==> k == Percent
  {
    match k
    case OrOr => OpOrOr
    case AndAnd => OpAndAnd
    case Pipe => OpOr
    case Caret => OpXor
    case Amp => OpAnd
    case Eq => OpEq
    case NotEq => OpNotEq
    case Lt => OpLt
    case Gt => OpGt
    case LtEq => OpLtEq
    case GtEq => OpGtEq
    case Shl => OpShl
    case Shr => OpShr
    case Plus => OpAdd
    case Minus => OpSub
    case Star => OpMul
    case Slash => OpDiv
    case Percent => OpMod
  }

  /** A binary operator on two cells; no value for a division by zero. */
  function Apply(k: Kind, a: Cell, b: Cell): (r: Option<Cell>)
    requires Precedence(k).Some?
    ensures r.None? <==> (k == Slash || k == Percent) && b == 0
  {
    Operate(OperatorOf(k), a, b)
  }

  function ApplyPrefix(k: Kind, a: Cell): Cell
    requires IsPrefix(k)
  {
    match k
    case Bang => OperateSign(OpNot, a)
    case Minus => OperateSign(OpMinus, a)
    case Plus => OperateSign(OpPlus, a)
    case Tilde => OperateSign(OpComplement, a)
  }

  datatype Expr =
    | Literal(tok: Tok)
    | Name(id: Tok)
    | Defined(word: Tok, open: Option<Tok>, id: Tok, close: Option<Tok>)
    | Group(opening: Tok, inner: Expr, closing: Tok)
    | Prefix(op: Tok, operand: Expr)
    | Binary(left: Expr, op: Tok, right: Expr)

  /** The tokens a tree spells, in order. */
  function Render(e: Expr): seq<Tok> {
    match e
    case Literal(t) => [t]
    case Name(t) => [t]
    case Defined(w, o, t, c) =>
      [w] + (if o.Some? then [o.value] else []) + [t] + (if c.Some? then [c.value] else [])
    case Group(o, inner, c) => [o] + Render(inner) + [c]
    case Prefix(op, x) => [op] + Render(x)
    case Binary(l, op, r) => Render(l) + [op] + Render(r)
  }

  /** The tree is well spelled and may stand, without parentheses of its own, where
      an operand of at least this level is wanted. */
  predicate Fits(e: Expr, level: nat) {
    match e
    case Literal(t) => t.kind in {IntLiteral, CharLiteral}
    case Name(t) => t.kind == Identifier
    case Defined(w, o, t, c) =>
      && w.kind == KwDefined && t.kind == Identifier && o.Some? == c.Some?
      && (o.Some? ==> o.value.kind == LParen && c.value.kind == RParen)
    case Group(o, inner, c) => o.kind == LParen && c.kind == RParen && Fits(inner, 0)
    case Prefix(op, x) => level <= UNARY && IsPrefix(op.kind) && Fits(x, UNARY)
    case Binary(l, op, r) =>
      && Precedence(op.kind).Some?
      && var p := Precedence(op.kind).value;
      && level <= p && Fits(l, p) && Fits(r, p + 1)
  }

  /** The macros a name may still be replaced by, inside the bodies being read. */
  function Fresh(c: Context, guard: set<string>): set<string> { c.macros.Keys - guard }

  lemma {:induction false} FreshShrinks(c: Context, guard: set<string>, name: string)
    requires name in c.macros && name !in guard
    ensures |Fresh(c, guard + {name})| < |Fresh(c, guard)|
  {
    assert Fresh(c, guard) == Fresh(c, guard + {name}) + {name};
  }

  /** What a tree is worth under the macros: every operand is evaluated, whatever
      the operator, and one operand without a value leaves the tree without. */
  ghost function Value(c: Context, guard: set<string>, e: Expr): Option<Cell>
    decreases |Fresh(c, guard)|, 1, e
  {
    match e
    case Literal(t) => Some(c.literal(t))
    case Name(t) => NameValue(c, guard, t.text)
    case Defined(_, _, t, _) => Some(FromBool(t.text in c.macros))
    case Group(_, inner, _) => Value(c, guard, inner)
    case Prefix(op, x) =>
      var v := Value(c, guard, x);
      if v.Some? && IsPrefix(op.kind) then Some(ApplyPrefix(op.kind, v.value)) else None
    case Binary(l, op, r) =>
      var a, b := Value(c, guard, l), Value(c, guard, r);
      if a.Some? && b.Some? && Precedence(op.kind).Some? then Apply(op.kind, a.value, b.value) else None
  }

  /** A name is worth 0 when it is undefined or already being replaced, nothing when
      its macro is not object-like, and else what its whole body spells. */
  ghost function NameValue(c: Context, guard: set<string>, name: string): Option<Cell>
    decreases |Fresh(c, guard)|, 0
  {
    if name in guard || name !in c.macros then Some(0)
    else if !c.macros[name].objectLike then None
    else
      FreshShrinks(c, guard, name);
      BodyValue(c, guard + {name}, c.macros[name].body)
  }

  /** The value of the tree that a whole token run spells, if it spells one. */
  ghost function BodyValue(c: Context, guard: set<string>, body: seq<Tok>): Option<Cell>
    decreases |Fresh(c, guard)|, 2
  {
    if exists e :: Spells(e, body) then
      var e :| Spells(e, body);
      Value(c, guard, e)
    else None
  }

  ghost predicate Spells(e: Expr, toks: seq<Tok>) { Fits(e, 0) && Render(e) == toks }
}
