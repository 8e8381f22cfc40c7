/** The evaluator object, which moves a cursor over the condition's tokens and
    remembers whether anything went wrong (preprocess/ifexpr.go). */
module ConditionEvaluator {
  import opened Collections
  import opened Cells
  import opened Conditions
  import opened ConditionGrammar

  function Operators(level: nat): seq<Kind>
    requires level < UNARY
  {
    match level
    case 0 => [OrOr]
    case 1 => [AndAnd]
    case 2 => [Pipe]
    case 3 => [Caret]
    case 4 => [Amp]
    case 5 => [Eq, NotEq]
    case 6 => [Lt, Gt, LtEq, GtEq]
    case 7 => [Shl, Shr]
    case 8 => [Plus, Minus]
    case _ => [Star, Slash, Percent]
  }

  lemma {:induction false} OperatorsByPrecedence(level: nat, k: Kind)
    requires level < UNARY
    ensures k in Operators(level) <==> Precedence(k) == Some(level)
    ensures k == OtherKind ==> k !in Operators(level)
  {
  }

  /** The evaluator's verdict against the parser's on the tokens it started from: it
      is unknown from now on if the parser finds no value, and otherwise it holds the
      parser's value and stands where the parser stopped. */
  predicate Follows(was: bool, unknown: bool, r: Option<Parsed>, v: Cell, rest: seq<Tok>) {
    && unknown == (was || r.None?)
    && (r.Some? ==> r.value == Parsed(v, rest))
  }

  class Evaluator {
    const toks: seq<Tok>
    const c: Context
    const guard: set<string>
    var pos: nat
    var unknown: bool

    ghost predicate Valid()
      reads this
    {
      pos <= |toks|
    }

    constructor (toks: seq<Tok>, c: Context, guard: set<string>)
      ensures Valid() && pos == 0 && !unknown
      ensures this.toks == toks && this.c == c && this.guard == guard
    {
      this.toks, this.c, this.guard := toks, c, guard;
      pos, unknown := 0, false;
    }

    function Rest(): seq<Tok>
      requires Valid()
      reads this
    {
      toks[pos..]
    }

    predicate AtEnd()
      reads this
    {
      pos >= |toks|
    }

    /** Past the last token everything looks like the end of the file. */
    function Cur(): (t: Tok)
      requires Valid()
      reads this
      ensures Rest() == [] ==> t.kind == OtherKind
      ensures Rest() != [] ==> t == Rest()[0]
    {
      if AtEnd() then Tok(OtherKind, "") else toks[pos]
    }

    method Advance()
      requires Valid()
      modifies this`pos
      ensures Valid()
      ensures pos == if old(pos) < |toks| then old(pos) + 1 else old(pos)
      ensures old(Rest()) != [] ==> Rest() == old(Rest())[1..]
    {
      if !AtEnd() {
        pos := pos + 1;
      }
    }

    method Fail()
      modifies this`unknown
      ensures unknown
    {
      unknown := true;
    }

    /** One step up the ladder: the ten binary levels, then the prefix operators. */
    method ParseLevel(level: nat) returns (v: Cell)
      requires Valid() && level <= UNARY
      modifies this
      ensures Valid() && old(pos) <= pos
      ensures Follows(old(unknown), unknown, Parse(c, guard, level, old(Rest())), v, Rest())
      decreases |Fresh(c, guard)|, |toks| - pos, 3 * (UNARY - level) + 4
    {
      hide Fresh, Parse, Follows;
      if level < UNARY {
        v := ParseBinary(level);
      } else {
        v := ParseUnary();
      }
    }

    method ParseBinary(level: nat) returns (left: Cell)
      requires Valid() && level < UNARY
      modifies this
      ensures Valid() && old(pos) <= pos
      ensures Follows(old(unknown), unknown, Parse(c, guard, level, old(Rest())), left, Rest())
      decreases |Fresh(c, guard)|, |toks| - pos, 3 * (UNARY - level) + 3
    {
      hide Fresh, Apply, Operators, Precedence, Parse;
      ghost var goal := Parse(c, guard, level, Rest());
      ParseOpens(c, guard, level, Rest());
      left := ParseLevel(level + 1);
      var matched := true;
      while matched
        invariant Valid() && old(pos) <= pos
        invariant matched ==> Tracks(old(unknown), level, goal, left)
        invariant !matched ==> Follows(old(unknown), unknown, goal, left, Rest())
        decreases |toks| - pos, matched
      {
        matched := false;
        OperatorsByPrecedence(level, Cur().kind);
        if Cur().kind in Operators(level) {
          left := ParseRight(level, left, old(unknown), goal);
          matched := true;
        }
      }
    }

    /** One round of the operator loop: the operator, its right operand, and the fold. */
    method ParseRight(level: nat, left: Cell, ghost was: bool, ghost goal: Option<Parsed>) returns (v: Cell)
      requires Valid() && level < UNARY && Rest() != [] && Precedence(Rest()[0].kind) == Some(level)
      requires Tracks(was, level, goal, left)
      modifies this
      ensures Valid() && old(pos) < pos && Tracks(was, level, goal, v)
      decreases |Fresh(c, guard)|, |toks| - pos, 0
    {
      hide Fresh, Apply, Precedence, Parse;
      ContinueSteps(level, left);
      var op := Cur().kind;
      Advance();
      var right := ParseLevel(level + 1);
      v := Combine(op, left, right);
    }

    lemma {:induction false} ContinueSteps(level: nat, left: Cell)
      requires Valid() && level < UNARY && Rest() != [] && Precedence(Rest()[0].kind) == Some(level)
      ensures
        var right := Parse(c, guard, level + 1, Rest()[1..]);
        Continue(c, guard, level, left, Rest()) ==
        if right.None? || Apply(Rest()[0].kind, left, right.value.value).None? then None
        else Continue(c, guard, level, Apply(Rest()[0].kind, left, right.value.value).value, right.value.rest)
    {
    }

    lemma {:induction false} ParseOpens(c: Context, guard: set<string>, level: nat, toks: seq<Tok>)
      requires level < UNARY
      ensures
        var left := Parse(c, guard, level + 1, toks);
        Parse(c, guard, level, toks) ==
        if left.None? then None else Continue(c, guard, level, left.value.value, left.value.rest)
    {
    }

    /** Inside the operator loop: either already failed, or the parser would continue
        from here with the same operand. */
    ghost predicate Tracks(was: bool, level: nat, goal: Option<Parsed>, left: Cell)
      requires Valid() && level < UNARY
      reads this
    {
      || (unknown && goal.None?)
      || (unknown == was && goal == Continue(c, guard, level, left, Rest()))
    }

    /** Apply one operator; a division by zero fails and stands for 0. */
    method Combine(op: Kind, left: Cell, right: Cell) returns (v: Cell)
      requires Precedence(op).Some?
      modifies this`unknown
      ensures unknown == (old(unknown) || Apply(op, left, right).None?)
      ensures Apply(op, left, right).Some? ==> v == Apply(op, left, right).value
    {
      hide Apply;
      if op in {Slash, Percent} && right == 0 {
        Fail();
        v := 0;
      } else {
        v := Apply(op, left, right).value;
      }
    }

    method ParseUnary() returns (v: Cell)
      requires Valid()
      modifies this
      ensures Valid() && old(pos) <= pos
      ensures Follows(old(unknown), unknown, Parse(c, guard, UNARY, old(Rest())), v, Rest())
      decreases |Fresh(c, guard)|, |toks| - pos, 2
    {
      hide Fresh, ParsePrimary;
      var op := Cur().kind;
      if IsPrefix(op) {
        Advance();
        var operand := ParseUnary();
        v := ApplyPrefix(op, operand);
      } else {
        v := ParsePrimaryExpr();
      }
    }

    method ParsePrimaryExpr() returns (v: Cell)
      requires Valid()
      modifies this
      ensures Valid() && old(pos) <= pos
      ensures Follows(old(unknown), unknown, ParsePrimary(c, guard, old(Rest())), v, Rest())
      decreases |Fresh(c, guard)|, |toks| - pos, 1
    {
      hide Fresh, Parse, ParseName, ParseDefined;
      var tok := Cur();
      if tok.kind in {IntLiteral, CharLiteral} {
        Advance();
        v := c.literal(tok);
      } else if tok.kind == LParen {
        v := ParseGroup();
      } else if tok.kind == KwDefined {
        Advance();
        v := ParseDefinedExpr();
      } else if tok.kind == Identifier {
        Advance();
        v := EvalIdent(tok.text);
      } else {
        Fail();
        v := 0;
      }
    }

    method ParseGroup() returns (v: Cell)
      requires Valid() && Rest() != [] && Rest()[0].kind == LParen
      modifies this
      ensures Valid() && old(pos) <= pos
      ensures Follows(old(unknown), unknown, ParsePrimary(c, guard, old(Rest())), v, Rest())
      decreases |Fresh(c, guard)|, |toks| - pos, 0
    {
      hide Fresh, Parse, ParseName, ParseDefined;
      Advance();
      v := ParseLevel(0);
      if Cur().kind != RParen {
        Fail();
        v := 0;
      } else {
        Advance();
      }
    }

    method ParseDefinedExpr() returns (v: Cell)
      requires Valid()
      modifies this
      ensures Valid() && old(pos) <= pos
      ensures Follows(old(unknown), unknown, ParseDefined(c, old(Rest())), v, Rest())
    {
      var paren := false;
      if Cur().kind == LParen {
        paren := true;
        Advance();
      }
      if Cur().kind != Identifier {
        Fail();
        return 0;
      }
      var name := Cur().text;
      Advance();
      if paren {
        if Cur().kind != RParen {
          Fail();
          return 0;
        }
        Advance();
      }
      v := FromBool(name in c.macros);
    }

    /** A name starts an evaluation of its macro's body of its own, in which the name
        itself stands for 0. */
    method EvalIdent(name: string) returns (v: Cell)
      requires Valid()
      modifies this`unknown
      ensures unknown == (old(unknown) || ParseName(c, guard, name).None?)
      ensures ParseName(c, guard, name).Some? ==> v == ParseName(c, guard, name).value
      decreases |Fresh(c, guard)|, |toks| - pos, 0
    {
      hide Fresh, Parse;
      if name in guard || name !in c.macros {
        return 0;
      }
      var m := c.macros[name];
      if !m.objectLike {
        Fail();
        return 0;
      }
      FreshShrinks(c, guard, name);
      var sub := new Evaluator(m.body, c, guard + {name});
      v := sub.ParseLevel(0);
      if sub.unknown || sub.pos != |sub.toks| {
        Fail();
        return 0;
      }
    }
  }
}
