/** The precedence parser as a function on the tokens still to read, and its
    agreement with the trees: it accepts exactly the renderings of well-parenthesised
    trees and computes their values (preprocess/ifexpr.go). */
module ConditionGrammar {
  import opened Collections
  import opened Cells
  import opened Conditions

  datatype Parsed = Parsed(value: Cell, rest: seq<Tok>)

  /** Reading at a level: an operand of the next level, then operators of this one. */
  function Parse(c: Context, guard: set<string>, level: nat, toks: seq<Tok>): (r: Option<Parsed>)
    requires level <= PRIMARY
    ensures r.Some? ==> |r.value.rest| < |toks|
    decreases |Fresh(c, guard)|, |toks|, 1, PRIMARY - level
  {
    if level < UNARY then
      var left := Parse(c, guard, level + 1, toks);
      if left.None? then None else Continue(c, guard, level, left.value.value, left.value.rest)
    else if level == UNARY && toks != [] && IsPrefix(toks[0].kind) then
      var operand := Parse(c, guard, UNARY, toks[1..]);
      if operand.None? then None
      else Some(Parsed(ApplyPrefix(toks[0].kind, operand.value.value), operand.value.rest))
    else ParsePrimary(c, guard, toks)
  }

  function Continue(c: Context, guard: set<string>, level: nat, left: Cell, toks: seq<Tok>): (r: Option<Parsed>)
    requires level < UNARY
    ensures r.Some? ==> |r.value.rest| <= |toks|
    decreases |Fresh(c, guard)|, |toks|, 2, 0
  {
    if toks == [] || Precedence(toks[0].kind) != Some(level) then Some(Parsed(left, toks))
    else
      var right := Parse(c, guard, level + 1, toks[1..]);
      if right.None? then None
      else
        var v := Apply(toks[0].kind, left, right.value.value);
        if v.None? then None else Continue(c, guard, level, v.value, right.value.rest)
  }

  function ParsePrimary(c: Context, guard: set<string>, toks: seq<Tok>): (r: Option<Parsed>)
    ensures r.Some? ==> |r.value.rest| < |toks|
    decreases |Fresh(c, guard)|, |toks|, 0, 0
  {
    if toks == [] then None
    else match toks[0].kind
      case IntLiteral => Some(Parsed(c.literal(toks[0]), toks[1..]))
      case CharLiteral => Some(Parsed(c.literal(toks[0]), toks[1..]))
      case LParen =>
        var inner := Parse(c, guard, 0, toks[1..]);
        if inner.None? || inner.value.rest == [] || inner.value.rest[0].kind != RParen then None
        else Some(Parsed(inner.value.value, inner.value.rest[1..]))
      case KwDefined => ParseDefined(c, toks[1..])
      case Identifier =>
        var v := ParseName(c, guard, toks[0].text);
        if v.None? then None else Some(Parsed(v.value, toks[1..]))
      case _ => None
  }

  function ParseDefined(c: Context, toks: seq<Tok>): (r: Option<Parsed>)
    ensures r.Some? ==> |r.value.rest| < |toks|
  {
    var paren := toks != [] && toks[0].kind == LParen;
    var at := if paren then toks[1..] else toks;
    if at == [] || at[0].kind != Identifier then None
    else
      var v := FromBool(at[0].text in c.macros);
      if !paren then Some(Parsed(v, at[1..]))
      else if |at| < 2 || at[1].kind != RParen then None
      else Some(Parsed(v, at[2..]))
  }

  function ParseName(c: Context, guard: set<string>, name: string): Option<Cell>
    decreases |Fresh(c, guard)|, 0, 0, 0
  {
    if name in guard || name !in c.macros then Some(0)
    else if !c.macros[name].objectLike then None
    else
      FreshShrinks(c, guard, name);
      Whole(Parse(c, guard + {name}, 0, c.macros[name].body))
  }

  /** What is left of a parse that has to end with the tokens. */
  function Whole(r: Option<Parsed>): Option<Cell> {
    if r.Some? && r.value.rest == [] then Some(r.value.value) else None
  }

  // ---- Every rendering is read as its tree ----

  /** What the parser makes of the rest, once a tree of this value has been read. */
  function Resume(c: Context, guard: set<string>, level: nat, v: Option<Cell>, tail: seq<Tok>): Option<Parsed>
    requires level <= PRIMARY
  {
    if v.None? then None
    else if level < UNARY then Continue(c, guard, level, v.value, tail)
    else Some(Parsed(v.value, tail))
  }

  /** No operator that binds tighter than the level comes next. */
  predicate Stops(level: nat, tail: seq<Tok>) {
    tail == [] || Precedence(tail[0].kind).None? || Precedence(tail[0].kind).value <= level
  }

  lemma {:induction false} RenderingIsRead(c: Context, guard: set<string>, e: Expr, level: nat, tail: seq<Tok>)
    requires level <= PRIMARY && Fits(e, level) && Stops(level, tail)
    ensures Parse(c, guard, level, Render(e) + tail) == Resume(c, guard, level, Value(c, guard, e), tail)
    decreases |Fresh(c, guard)|, 1, e, 2 * (PRIMARY - level) + 2
  {
    hide Apply, ApplyPrefix, Fresh;
    if e.Binary? && Precedence(e.op.kind) == Some(level) {
      BinaryIsRead(c, guard, e, level, tail);
    } else if level < UNARY {
      Loosen(c, guard, e, level, tail);
    } else {
      PrefixOrPrimaryIsRead(c, guard, e, level, tail);
    }
  }

  lemma {:induction false} BinaryIsRead(c: Context, guard: set<string>, e: Expr, level: nat, tail: seq<Tok>)
    requires e.Binary? && Precedence(e.op.kind) == Some(level)
    requires Fits(e, level) && Stops(level, tail)
    ensures level < UNARY
    ensures Parse(c, guard, level, Render(e) + tail) == Resume(c, guard, level, Value(c, guard, e), tail)
    decreases |Fresh(c, guard)|, 1, e, 0
  {
    hide Apply, ApplyPrefix, Fresh, Parse, Value, Render;
    BinaryUnfolds(c, guard, e, tail);
    var after := [e.op] + (Render(e.right) + tail);
    RenderingIsRead(c, guard, e.left, level, after);
    assert after[1..] == Render(e.right) + tail;
    RenderingIsRead(c, guard, e.right, level + 1, tail);
    if Value(c, guard, e.right).Some? {
      StopsAtNext(c, guard, level, Value(c, guard, e.right).value, tail);
    }
  }

  lemma {:induction false} BinaryUnfolds(c: Context, guard: set<string>, e: Expr, tail: seq<Tok>)
    requires e.Binary? && Precedence(e.op.kind).Some?
    ensures Render(e) + tail == Render(e.left) + ([e.op] + (Render(e.right) + tail))
    ensures
      var a, b := Value(c, guard, e.left), Value(c, guard, e.right);
      Value(c, guard, e) == if a.Some? && b.Some? then Apply(e.op.kind, a.value, b.value) else None
  {
    hide Precedence, Apply, Render, ApplyPrefix, NameValue;
    BinarySpells(e, tail);
  }

  lemma {:induction false} BinarySpells(e: Expr, tail: seq<Tok>)
    requires e.Binary?
    ensures Render(e) + tail == Render(e.left) + ([e.op] + (Render(e.right) + tail))
  {
  }

  /** With no operator of the next level following, the next level hands the operand
      over unchanged. */
  lemma {:induction false} StopsAtNext(c: Context, guard: set<string>, level: nat, v: Cell, tail: seq<Tok>)
    requires level < UNARY && Stops(level, tail)
    ensures Resume(c, guard, level + 1, Some(v), tail) == Some(Parsed(v, tail))
  {
  }

  /** A tree that fits the next level is read there first. */
  lemma {:induction false} Loosen(c: Context, guard: set<string>, e: Expr, level: nat, tail: seq<Tok>)
    requires level < UNARY && Fits(e, level + 1) && Stops(level, tail)
    ensures Parse(c, guard, level, Render(e) + tail) == Resume(c, guard, level, Value(c, guard, e), tail)
    decreases |Fresh(c, guard)|, 1, e, 2 * (PRIMARY - level) + 1
  {
    hide Apply, ApplyPrefix, Fresh, Value, Render, ParsePrimary;
    RenderingIsRead(c, guard, e, level + 1, tail);
    if Value(c, guard, e).Some? {
      StopsAtNext(c, guard, level, Value(c, guard, e).value, tail);
    }
  }

  lemma {:induction false} PrefixOrPrimaryIsRead(c: Context, guard: set<string>, e: Expr, level: nat, tail: seq<Tok>)
    requires UNARY <= level <= PRIMARY && Fits(e, level)
    ensures Parse(c, guard, level, Render(e) + tail) == Resume(c, guard, level, Value(c, guard, e), tail)
    decreases |Fresh(c, guard)|, 1, e, 1
  {
    hide Apply, ApplyPrefix, Fresh, ParsePrimary, Render, Value;
    var toks := Render(e) + tail;
    if e.Prefix? {
      PrefixUnfolds(c, guard, e, tail);
      RenderingIsRead(c, guard, e.operand, UNARY, tail);
    } else {
      PrimaryIsRead(c, guard, e, tail);
      PrimaryStart(e, tail);
    }
  }

  lemma {:induction false} PrefixUnfolds(c: Context, guard: set<string>, e: Expr, tail: seq<Tok>)
    requires e.Prefix? && IsPrefix(e.op.kind)
    ensures
      var toks := Render(e) + tail;
      var v := Value(c, guard, e.operand);
      && toks != [] && toks[0] == e.op && toks[1..] == Render(e.operand) + tail
      && Value(c, guard, e) == if v.Some? then Some(ApplyPrefix(e.op.kind, v.value)) else None
  {
    assert (Render(e) + tail)[1..] == Render(e.operand) + tail;
  }

  lemma {:induction false} PrimaryStart(e: Expr, tail: seq<Tok>)
    requires Fits(e, PRIMARY)
    ensures var toks := Render(e) + tail; toks != [] && !IsPrefix(toks[0].kind)
  {
  }

  lemma {:induction false} PrimaryIsRead(c: Context, guard: set<string>, e: Expr, tail: seq<Tok>)
    requires Fits(e, PRIMARY)
    ensures ParsePrimary(c, guard, Render(e) + tail) == Resume(c, guard, PRIMARY, Value(c, guard, e), tail)
    decreases |Fresh(c, guard)|, 1, e, 0
  {
    hide Apply, ApplyPrefix, Fresh, Parse, ParseDefined, ParsePrimary, Value, Render, ParseName;
    if e.Group? {
      RenderingIsRead(c, guard, e.inner, 0, [e.closing] + tail);
      GroupIsRead(c, guard, e, tail);
    } else {
      if e.Name? {
        NameIsRead(c, guard, e.id.text);
      }
      WordIsRead(c, guard, e, tail);
    }
  }

  lemma {:induction false} GroupIsRead(c: Context, guard: set<string>, e: Expr, tail: seq<Tok>)
    requires e.Group? && e.opening.kind == LParen && e.closing.kind == RParen
    requires Parse(c, guard, 0, Render(e.inner) + ([e.closing] + tail))
             == Resume(c, guard, 0, Value(c, guard, e.inner), [e.closing] + tail)
    ensures ParsePrimary(c, guard, Render(e) + tail) == Resume(c, guard, PRIMARY, Value(c, guard, e), tail)
  {
    hide Apply, ApplyPrefix, Fresh, Parse, ParseDefined, ParseName;
    var toks := Render(e) + tail;
    assert toks[0] == e.opening && toks[1..] == Render(e.inner) + ([e.closing] + tail);
    assert ([e.closing] + tail)[1..] == tail;
    AfterGroup(c, guard, Value(c, guard, e.inner), [e.closing] + tail);
  }

  lemma {:induction false} WordIsRead(c: Context, guard: set<string>, e: Expr, tail: seq<Tok>)
    requires Fits(e, PRIMARY) && !e.Group?
    requires e.Name? ==> ParseName(c, guard, e.id.text) == NameValue(c, guard, e.id.text)
    ensures ParsePrimary(c, guard, Render(e) + tail) == Resume(c, guard, PRIMARY, Value(c, guard, e), tail)
  {
    hide Apply, ApplyPrefix, Fresh, Parse, ParseDefined, ParseName, NameValue;
    var toks := Render(e) + tail;
    if e.Defined? {
      DefinedIsRead(c, e, tail);
      assert toks[1..] == Render(e)[1..] + tail;
    } else {
      assert toks[1..] == tail;
    }
  }

  /** A closing parenthesis is no operator. */
  lemma {:induction false} AfterGroup(c: Context, guard: set<string>, v: Option<Cell>, tail: seq<Tok>)
    requires tail != [] && tail[0].kind == RParen
    ensures Resume(c, guard, 0, v, tail) == if v.None? then None else Some(Parsed(v.value, tail))
  {
  }

  lemma {:induction false} DefinedIsRead(c: Context, e: Expr, tail: seq<Tok>)
    requires e.Defined? && Fits(e, PRIMARY)
    ensures ParseDefined(c, Render(e)[1..] + tail) == Some(Parsed(FromBool(e.id.text in c.macros), tail))
  {
    var toks := Render(e)[1..] + tail;
    if e.open.Some? {
      assert toks == [e.open.value, e.id, e.close.value] + tail;
      assert toks[1..][2..] == tail;
    } else {
      assert toks == [e.id] + tail;
      assert toks[1..] == tail;
    }
  }

  /** The value of a name does not depend on which tree its body is read as. */
  lemma {:induction false} NameIsRead(c: Context, guard: set<string>, name: string)
    ensures ParseName(c, guard, name) == NameValue(c, guard, name)
    decreases |Fresh(c, guard)|, 0
  {
    if name !in guard && name in c.macros && c.macros[name].objectLike {
      FreshShrinks(c, guard, name);
      BodyIsRead(c, guard + {name}, c.macros[name].body);
    }
  }

  lemma {:induction false} BodyIsRead(c: Context, guard: set<string>, body: seq<Tok>)
    ensures Whole(Parse(c, guard, 0, body)) == BodyValue(c, guard, body)
    decreases |Fresh(c, guard)|, 3
  {
    forall e | Spells(e, body)
      ensures Whole(Parse(c, guard, 0, body)) == Value(c, guard, e)
    {
      assert Render(e) + [] == body;
      RenderingIsRead(c, guard, e, 0, []);
    }
    if !exists e :: Spells(e, body) {
      var r := Parse(c, guard, 0, body);
      if r.Some? && r.value.rest == [] {
        var e := ReadIsRendering(c, guard, 0, body);
        assert Render(e) == body;
        assert Spells(e, body);
      }
    }
  }

  // ---- Whatever is read is the rendering of a tree of that value ----

  lemma {:induction false} ReadIsRendering(c: Context, guard: set<string>, level: nat, toks: seq<Tok>) returns (e: Expr)
    requires level <= PRIMARY && Parse(c, guard, level, toks).Some?
    ensures Fits(e, level)
    ensures Render(e) + Parse(c, guard, level, toks).value.rest == toks
    ensures Value(c, guard, e) == Some(Parse(c, guard, level, toks).value.value)
    decreases |Fresh(c, guard)|, 2, |toks|, 1, PRIMARY - level
  {
    hide Apply, ApplyPrefix, Fresh;
    if level < UNARY {
      e := LevelIsRendering(c, guard, level, toks);
    } else if level == UNARY && toks != [] && IsPrefix(toks[0].kind) {
      var x := ReadIsRendering(c, guard, UNARY, toks[1..]);
      e := Prefix(toks[0], x);
      PrefixRenders(x, Parse(c, guard, UNARY, toks[1..]).value.rest, toks);
    } else {
      e := PrimaryIsRendering(c, guard, toks);
      FitsLooser(e, PRIMARY, level);
    }
  }

  lemma {:induction false} LevelIsRendering(c: Context, guard: set<string>, level: nat, toks: seq<Tok>) returns (e: Expr)
    requires level < UNARY && Parse(c, guard, level, toks).Some?
    ensures Fits(e, level)
    ensures Render(e) + Parse(c, guard, level, toks).value.rest == toks
    ensures Value(c, guard, e) == Some(Parse(c, guard, level, toks).value.value)
    decreases |Fresh(c, guard)|, 2, |toks|, 1, PRIMARY - level, 0
  {
    hide Apply, ApplyPrefix, Fresh, Value, Fits, Precedence, ParsePrimary;
    var l := ReadIsRendering(c, guard, level + 1, toks);
    var left := Parse(c, guard, level + 1, toks).value;
    FitsLooser(l, level + 1, level);
    e := ContinueIsRendering(c, guard, level, l, left.value, left.rest);
  }

  lemma {:induction false} PrefixRenders(x: Expr, rest: seq<Tok>, toks: seq<Tok>)
    requires toks != [] && Render(x) + rest == toks[1..]
    ensures Render(Prefix(toks[0], x)) + rest == toks
  {
    assert toks == [toks[0]] + toks[1..];
  }

  lemma {:induction false} FitsLooser(e: Expr, level: nat, looser: nat)
    requires Fits(e, level) && looser <= level
    ensures Fits(e, looser)
  {
  }

  lemma {:induction false} ContinueIsRendering(
      c: Context, guard: set<string>, level: nat, l: Expr, left: Cell, toks: seq<Tok>) returns (e: Expr)
    requires level < UNARY && Fits(l, level) && Value(c, guard, l) == Some(left)
    requires Continue(c, guard, level, left, toks).Some?
    ensures Fits(e, level)
    ensures Render(e) + Continue(c, guard, level, left, toks).value.rest == Render(l) + toks
    ensures Value(c, guard, e) == Some(Continue(c, guard, level, left, toks).value.value)
    decreases |Fresh(c, guard)|, 2, |toks|, 2, 0
  {
    hide Apply, Fresh, Parse, Precedence;
    if toks == [] || Precedence(toks[0].kind) != Some(level) {
      e := l;
    } else {
      var r := ReadIsRendering(c, guard, level + 1, toks[1..]);
      var right := Parse(c, guard, level + 1, toks[1..]).value;
      var v := Apply(toks[0].kind, left, right.value).value;
      e := ContinueIsRendering(c, guard, level, Binary(l, toks[0], r), v, right.rest);
      BinaryRenders(l, r, right.rest, toks);
    }
  }

  lemma {:induction false} BinaryRenders(l: Expr, r: Expr, rest: seq<Tok>, toks: seq<Tok>)
    requires toks != [] && Render(r) + rest == toks[1..]
    ensures Render(Binary(l, toks[0], r)) + rest == Render(l) + toks
  {
    assert toks == [toks[0]] + (Render(r) + rest);
  }

  lemma {:induction false} PrimaryIsRendering(c: Context, guard: set<string>, toks: seq<Tok>) returns (e: Expr)
    requires ParsePrimary(c, guard, toks).Some?
    ensures Fits(e, PRIMARY)
    ensures Render(e) + ParsePrimary(c, guard, toks).value.rest == toks
    ensures Value(c, guard, e) == Some(ParsePrimary(c, guard, toks).value.value)
    decreases |Fresh(c, guard)|, 2, |toks|, 0, 0
  {
    hide Fresh, Parse, ParseDefined;
    var t := toks[0];
    if t.kind == IntLiteral || t.kind == CharLiteral {
      e := Literal(t);
    } else if t.kind == LParen {
      var inner := ReadIsRendering(c, guard, 0, toks[1..]);
      var rest := Parse(c, guard, 0, toks[1..]).value.rest;
      e := Group(t, inner, rest[0]);
      assert toks == [t] + (Render(inner) + ([rest[0]] + rest[1..]));
    } else if t.kind == KwDefined {
      e := DefinedIsRendering(c, guard, toks);
    } else {
      e := Name(t);
      NameIsRead(c, guard, t.text);
    }
  }

  lemma {:induction false} DefinedIsRendering(c: Context, guard: set<string>, toks: seq<Tok>) returns (e: Expr)
    requires toks != [] && toks[0].kind == KwDefined && ParseDefined(c, toks[1..]).Some?
    ensures Fits(e, PRIMARY)
    ensures Render(e) + ParseDefined(c, toks[1..]).value.rest == toks
    ensures Value(c, guard, e) == Some(ParseDefined(c, toks[1..]).value.value)
  {
    if toks[1].kind == LParen {
      e := Defined(toks[0], Some(toks[1]), toks[2], Some(toks[3]));
      assert toks == [toks[0], toks[1], toks[2], toks[3]] + toks[1..][1..][2..];
    } else {
      e := Defined(toks[0], None, toks[1], None);
      assert toks == [toks[0], toks[1]] + toks[1..][1..];
    }
  }
}
