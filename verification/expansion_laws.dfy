/** What expansion does, invocation by invocation: what counts as one is read off the
    tokens, each is replaced and rescanned, and nothing else is changed
    (preprocess/expand.go, preprocess/pattern.go). */
module ExpansionLaws {
  import opened Collections
  import opened MacroTokens
  import opened MacroArguments
  import opened MacroPatterns
  import opened MacroSubstitution
  import opened MacroExpansion
  import opened SubstitutionLaws

  // ---- What an invocation is ----

  /** The front of the run names this macro. */
  predicate Names(c: Table, toks: Tokens, name: string) {
    toks != [] && toks[0].kind == Identifier && toks[0].text == name && name in c.macros
  }

  /** The place of an invocation: the one its name already has, or from name to end. */
  function PlaceOf(first: PTok, last: PTok): Span {
    match first.origin
    case Origin(span, _, _) => span
    case Unknown => Span(first.file, first.start, last.end)
  }

  /** An object-like macro's name is replaced by its body. */
  ghost predicate ObjectCall(c: Table, toks: Tokens, name: string, replacement: Tokens, rest: Tokens) {
    && Names(c, toks, name) && c.macros[name].pattern.None? && c.macros[name].kind == ObjectLike
    && Copies(replacement, c.macros[name].body, PlaceOf(toks[0], toks[0]), name)
    && toks == [toks[0]] + rest
  }

  /** Arguments between parentheses, comma by comma. */
  predicate ArgumentList(args: seq<Tokens>, commas: Tokens, close: PTok) {
    && ((args == [] && commas == []) || |commas| == |args| - 1)
    && Commas(commas) && AllListable(args) && args != [[]] && close.kind == RParen
  }

  /** A function-like macro's name with an argument list is replaced by its body with the
      arguments in place. */
  ghost predicate FunctionCall(c: Table, toks: Tokens, name: string, replacement: Tokens, rest: Tokens) {
    && Names(c, toks, name) && c.macros[name].pattern.None? && c.macros[name].kind == FunctionLike
    && |toks| > 1 && toks[1].kind == LParen
    && exists args, commas, close :: CallWith(c, toks, name, replacement, rest, args, commas, close)
  }

  ghost predicate CallWith(
      c: Table, toks: Tokens, name: string, replacement: Tokens, rest: Tokens, args: seq<Tokens>, commas: Tokens, close: PTok)
    requires Names(c, toks, name) && |toks| > 1
  {
    && ArgumentList(args, commas, close)
    && toks == [toks[0], toks[1]] + Join(args, commas) + [close] + rest
    && replacement == Substitute(c.lex, c.macros[name], args, PlaceOf(toks[0], close))
  }

  /** The line does not end before the last of these tokens. */
  predicate OneLine(toks: Tokens) { forall i :: 0 <= i < |toks| - 1 ==> !toks[i].endsLine }

  /** A name with an instance of its pattern behind it on the line is replaced by the body
      with the captures in place. */
  ghost predicate PatternCall(c: Table, toks: Tokens, name: string, replacement: Tokens, rest: Tokens) {
    && Names(c, toks, name) && c.macros[name].pattern.Some? && Slotted(c.macros[name])
    && exists captures, w :: PatternWith(c, toks, name, replacement, rest, captures, w)
  }

  ghost predicate PatternWith(
      c: Table, toks: Tokens, name: string, replacement: Tokens, rest: Tokens, captures: seq<Tokens>, w: Tokens)
    requires Names(c, toks, name) && c.macros[name].pattern.Some? && Slotted(c.macros[name])
  {
    var m := c.macros[name];
    && toks == [toks[0]] + w + rest && OneLine([toks[0]] + w) && Instance(m.pattern.value, captures, w)
    && replacement == Substitute(c.lex, m, Assign(m.pattern.value, m.paramSlots, captures, Empties(m.paramCount)),
                                 PlaceOf(toks[0], ([toks[0]] + w)[|w|]))
  }

  /** An invocation of `name` stands at the front of the run, with `rest` behind it. */
  ghost predicate IsInvocation(c: Table, toks: Tokens, name: string, replacement: Tokens, rest: Tokens) {
    || ObjectCall(c, toks, name, replacement, rest)
    || FunctionCall(c, toks, name, replacement, rest)
    || PatternCall(c, toks, name, replacement, rest)
  }

  // ---- The front of a run ----

  lemma {:induction false} OnlyCopies(a: Tokens, b: Tokens, toks: Tokens, inv: Span, name: string)
    requires Copies(a, toks, inv, name) && Copies(b, toks, inv, name)
    ensures a == b
  {
  }

  lemma {:induction false} WindowOfLine(t: PTok, w: Tokens, rest: Tokens) returns (tail: Tokens)
    requires OneLine([t] + w)
    ensures Window(w + rest, t.endsLine) == w + tail || w == []
    decreases |w|
  {
    tail := [];
    if w != [] {
      assert !([t] + w)[0].endsLine;
      assert (w + rest)[1..] == w[1..] + rest;
      forall i | 0 <= i < |[w[0]] + w[1..]| - 1 ensures !([w[0]] + w[1..])[i].endsLine {
        assert ([t] + w)[i + 1] == w[i];
      }
      tail := WindowOfLine(w[0], w[1..], rest);
      if w[1..] == [] {
        tail := Window(rest, w[0].endsLine);
        assert w == [w[0]];
      }
      assert w == [w[0]] + w[1..];
    }
  }

  /** The window shows one line. */
  lemma {:induction false} WindowIsOneLine(t: PTok, toks: Tokens, n: nat)
    requires n <= |Window(toks, t.endsLine)|
    ensures |Window(toks, t.endsLine)| <= |toks| && OneLine([t] + Window(toks, t.endsLine)[..n])
    decreases |toks|
  {
    var w := Window(toks, t.endsLine);
    if n > 0 {
      WindowIsOneLine(toks[0], toks[1..], n - 1);
      var inner := [toks[0]] + Window(toks[1..], toks[0].endsLine)[..n - 1];
      assert w[..n] == inner;
      forall i | 0 <= i < |[t] + w[..n]| - 1 ensures !([t] + w[..n])[i].endsLine {
        if i > 0 {
          assert ([t] + w[..n])[i] == inner[i - 1];
        }
      }
    }
    WindowIsPrefix(toks, t.endsLine);
  }

  lemma {:induction false} ObjectIsInvoked(c: Table, toks: Tokens, hidden: set<string>, name: string, replacement: Tokens, rest: Tokens)
    requires WellFormed(c) && ObjectCall(c, toks, name, replacement, rest) && name !in hidden
    ensures Invoke(c, toks, hidden) == Some(Call(name, replacement, 1)) && rest == toks[1..]
  {
    hide Orderly;
    var m := c.macros[name];
    assert WellDefined(m, name);
    WrappedCopies(m.body, PlaceOf(toks[0], toks[0]), name);
    OnlyCopies(replacement, WrapAll(m.body, PlaceOf(toks[0], toks[0]), name), m.body, PlaceOf(toks[0], toks[0]), name);
  }

  lemma {:induction false} FunctionIsInvoked(c: Table, toks: Tokens, hidden: set<string>, name: string, replacement: Tokens, rest: Tokens)
    requires WellFormed(c) && FunctionCall(c, toks, name, replacement, rest) && name !in hidden
    ensures |rest| < |toks| && rest == toks[|toks| - |rest|..]
    ensures Invoke(c, toks, hidden) == Some(Call(name, replacement, |toks| - |rest|))
  {
    hide Orderly, Substitute, Collect, Join;
    assert WellDefined(c.macros[name], name);
    var args, commas, close :| CallWith(c, toks, name, replacement, rest, args, commas, close);
    var list := Join(args, commas) + [close];
    assert toks[2..] == Join(args, commas) + [close] + rest;
    CollectInvertsJoin(args, commas, close, rest);
    assert toks == ([toks[0], toks[1]] + list) + rest;
    assert toks[|toks| - |rest| - 1] == close;
  }

  lemma {:induction false} PatternIsInvoked(c: Table, toks: Tokens, hidden: set<string>, name: string, replacement: Tokens, rest: Tokens)
    requires WellFormed(c) && PatternCall(c, toks, name, replacement, rest) && name !in hidden
    ensures |rest| < |toks| && rest == toks[|toks| - |rest|..]
    ensures Invoke(c, toks, hidden) == Some(Call(name, replacement, |toks| - |rest|))
  {
    hide Orderly, Substitute, Match, Instance, Assign, Window, Label;
    var m := c.macros[name];
    assert WellDefined(m, name);
    var captures, w :| PatternWith(c, toks, name, replacement, rest, captures, w);
    assert toks[1..] == w + rest;
    var tail := WindowOfLine(toks[0], w, rest);
    var window := Window(toks[1..], toks[0].endsLine);
    if w == [] {
      assert [] + window == window;
      MatchInvertsInstance(m.pattern.value, captures, w, window);
    } else {
      MatchInvertsInstance(m.pattern.value, captures, w, tail);
    }
    WindowIsPrefix(toks[1..], toks[0].endsLine);
    assert toks[|w|] == ([toks[0]] + w)[|w|];
    assert toks == ([toks[0]] + w) + rest;
  }

  /** The other way: what expansion takes for an invocation is one. */
  lemma {:induction false} InvokedIsInvocation(c: Table, toks: Tokens, hidden: set<string>)
    requires WellFormed(c) && toks != [] && Invoke(c, toks, hidden).Some?
    ensures
      var r := Invoke(c, toks, hidden).value;
      r.name !in hidden && IsInvocation(c, toks, r.name, r.replacement, toks[r.consumed..])
  {
    hide Orderly, Substitute, Match, Collect, Assign, Window, Label, Join, Instance, Copies;
    var r, t := Invoke(c, toks, hidden).value, toks[0];
    var m := c.macros[t.text];
    assert WellDefined(m, t.text);
    if m.pattern.Some? {
      var w := Window(toks[1..], t.endsLine);
      var found := Match(m.pattern.value, w).value;
      MatchIsInstance(m.pattern.value, w);
      WindowIsOneLine(t, toks[1..], found.length);
      WindowIsPrefix(toks[1..], t.endsLine);
      var seen := w[..found.length];
      assert toks == [t] + seen + toks[r.consumed..];
      assert toks[found.length] == ([t] + seen)[|seen|];
      assert PatternWith(c, toks, m.name, r.replacement, toks[r.consumed..], found.captures, seen);
    } else if m.kind == ObjectLike {
      WrappedCopies(m.body, PlaceOf(t, t), m.name);
      assert toks == [t] + toks[1..];
    } else {
      var found := Collect(toks[2..]).value;
      CollectTakes(toks[2..]);
      var commas, close := CollectIsJoined(toks[2..]);
      assert toks == [t, toks[1]] + toks[2..];
      var list := Join(found.args, commas) + [close];
      assert toks == [t, toks[1]] + Join(found.args, commas) + [close] + found.rest;
      assert toks == ([t, toks[1]] + list) + found.rest;
      assert toks[r.consumed..] == found.rest && toks[r.consumed - 1] == close;
      assert CallWith(c, toks, m.name, r.replacement, found.rest, found.args, commas, close);
    }
  }

  // ---- One step ----

  lemma {:induction false} InvocationIsInvoked(c: Table, toks: Tokens, hidden: set<string>, name: string, replacement: Tokens, rest: Tokens)
    requires WellFormed(c) && IsInvocation(c, toks, name, replacement, rest) && name !in hidden
    ensures |rest| < |toks| && rest == toks[|toks| - |rest|..]
    ensures Invoke(c, toks, hidden) == Some(Call(name, replacement, |toks| - |rest|))
  {
    hide ObjectCall, FunctionCall, PatternCall, WellFormed, Invoke;
    if ObjectCall(c, toks, name, replacement, rest) {
      ObjectIsInvoked(c, toks, hidden, name, replacement, rest);
    } else if FunctionCall(c, toks, name, replacement, rest) {
      FunctionIsInvoked(c, toks, hidden, name, replacement, rest);
    } else {
      PatternIsInvoked(c, toks, hidden, name, replacement, rest);
    }
  }

  /** An invocation of a macro that is not hidden is replaced: expanding the run is
      expanding the replacement with the macro hidden, and then what follows. */
  lemma {:induction false} InvocationIsReplaced(
      c: Table, toks: Tokens, hidden: set<string>, name: string, replacement: Tokens, rest: Tokens)
    requires WellFormed(c) && |hidden| <= c.maxDepth
    requires IsInvocation(c, toks, name, replacement, rest) && name !in hidden
    ensures Expand(c, toks, hidden) == Seq(Expand(c, replacement, hidden + {name}), Expand(c, rest, hidden))
  {
    hide IsInvocation, WellFormed, Invoke;
    InvocationIsInvoked(c, toks, hidden, name, replacement, rest);
  }

  /** No macro that may be replaced is invoked at the front of the run. */
  ghost predicate Plain(c: Table, toks: Tokens, hidden: set<string>) {
    forall name, replacement, rest :: IsInvocation(c, toks, name, replacement, rest) ==> name in hidden
  }

  /** Anything else is emitted as it is. */
  lemma {:induction false} PlainIsKept(c: Table, toks: Tokens, hidden: set<string>)
    requires WellFormed(c) && |hidden| <= c.maxDepth && toks != [] && Plain(c, toks, hidden)
    ensures Expand(c, toks, hidden) == Seq(Flow([toks[0]], false), Expand(c, toks[1..], hidden))
  {
    hide IsInvocation, WellFormed, Invoke;
    WellFormedTable(c);
    if Invoke(c, toks, hidden).Some? {
      InvokedIsInvocation(c, toks, hidden);
      assert false;
    }
  }

  /** With more macros hidden than the nesting limit allows, nothing is emitted any more,
      and with no more the run is cut only inside an invocation. */
  lemma {:induction false} CutExactlyBeyondLimit(c: Table, toks: Tokens, hidden: set<string>)
    requires WellFormed(c)
    ensures |hidden| > c.maxDepth ==> Expand(c, toks, hidden) == Flow([], true)
    ensures |hidden| <= c.maxDepth && Expand(c, toks, hidden).cut ==> SomeCut(c, toks, hidden)
    decreases |toks|
  {
    hide IsInvocation, WellFormed, Invoke, CutInside;
    WellFormedTable(c);
    if |hidden| <= c.maxDepth && toks == [] {
      NothingExpands(c, hidden);
    }
    if |hidden| <= c.maxDepth && toks != [] && Expand(c, toks, hidden).cut {
      var call := Invoke(c, toks, hidden);
      if call.None? {
        assert Expand(c, toks, hidden) == Seq(Flow([toks[0]], false), Expand(c, toks[1..], hidden));
        CutExactlyBeyondLimit(c, toks[1..], hidden);
        CutLater(c, toks, hidden, 1);
      } else {
        var r := call.value;
        InvokedIsInvocation(c, toks, hidden);
        assert Expand(c, toks, hidden)
            == Seq(Expand(c, r.replacement, hidden + {r.name}), Expand(c, toks[r.consumed..], hidden));
        if Expand(c, r.replacement, hidden + {r.name}).cut {
          CutHere(c, toks, hidden, r.name, r.replacement, toks[r.consumed..]);
        } else {
          CutExactlyBeyondLimit(c, toks[r.consumed..], hidden);
          CutLater(c, toks, hidden, r.consumed);
        }
      }
    }
  }

  lemma {:induction false} CutHere(
      c: Table, toks: Tokens, hidden: set<string>, name: string, replacement: Tokens, rest: Tokens)
    requires WellFormed(c) && IsInvocation(c, toks, name, replacement, rest) && name !in hidden
    requires Expand(c, replacement, hidden + {name}).cut
    ensures SomeCut(c, toks, hidden)
  {
    hide IsInvocation, WellFormed, Expand;
    assert toks[0..] == toks;
    assert CutInside(c, toks, hidden, 0, name, replacement, rest);
  }

  lemma {:induction false} CutLater(c: Table, toks: Tokens, hidden: set<string>, n: nat)
    requires WellFormed(c) && n <= |toks| && SomeCut(c, toks[n..], hidden)
    ensures SomeCut(c, toks, hidden)
  {
    hide IsInvocation, WellFormed, Expand;
    var at: nat, name, replacement, rest :| CutInside(c, toks[n..], hidden, at, name, replacement, rest);
    assert toks[n..][at..] == toks[n + at..];
    assert CutInside(c, toks, hidden, n + at, name, replacement, rest);
  }

  ghost predicate SomeCut(c: Table, toks: Tokens, hidden: set<string>)
    requires WellFormed(c)
  {
    exists at: nat, name, replacement, rest :: CutInside(c, toks, hidden, at, name, replacement, rest)
  }

  /** The invocation at this place is cut. */
  ghost predicate CutInside(
      c: Table, toks: Tokens, hidden: set<string>, at: nat, name: string, replacement: Tokens, rest: Tokens)
    requires WellFormed(c)
  {
    && at <= |toks| && IsInvocation(c, toks[at..], name, replacement, rest) && name !in hidden
    && Expand(c, replacement, hidden + {name}).cut
  }

  /** The name of an object-like macro without a pattern is always an invocation, so it is
      plain only where it is hidden. */
  lemma {:induction false} ObjectIsPlainIffHidden(c: Table, toks: Tokens, hidden: set<string>, name: string)
    requires WellFormed(c) && Names(c, toks, name) && c.macros[name].pattern.None? && c.macros[name].kind == ObjectLike
    ensures Plain(c, toks, hidden) <==> name in hidden
  {
    hide Copies, WellFormed;
    var replacement := WrapAll(c.macros[name].body, PlaceOf(toks[0], toks[0]), name);
    WrappedCopies(c.macros[name].body, PlaceOf(toks[0], toks[0]), name);
    assert toks == [toks[0]] + toks[1..];
    assert ObjectCall(c, toks, name, replacement, toks[1..]);
    assert IsInvocation(c, toks, name, replacement, toks[1..]);
  }

  // ---- What is left ----

  /** Inside this run another is rescanned, within invocations of these macros, the
      outermost first, each hiding its name from those inside. */
  ghost predicate Nested(c: Table, toks: Tokens, hidden: set<string>, names: seq<string>, run: Tokens)
    decreases |names|
  {
    if names == [] then run == toks
    else
      && names[0] !in hidden
      && exists at: nat, replacement, rest ::
           at <= |toks| && IsInvocation(c, toks[at..], names[0], replacement, rest)
           && Nested(c, replacement, hidden + {names[0]}, names[1..], run)
  }

  function Inside(hidden: set<string>, names: seq<string>): set<string>
    decreases |names|
  {
    if names == [] then hidden else Inside(hidden + {names[0]}, names[1..])
  }

  lemma {:induction false} InsideIs(hidden: set<string>, names: seq<string>)
    ensures forall n :: n in Inside(hidden, names) <==> n in hidden || n in names
    decreases |names|
  {
    if names != [] {
      InsideIs(hidden + {names[0]}, names[1..]);
    }
  }

  /** The token stands in a run rescanned within these invocations, at a place where
      nothing more could be replaced. */
  ghost predicate LeftAt(c: Table, toks: Tokens, hidden: set<string>, t: PTok, names: seq<string>, run: Tokens, i: nat) {
    && Nested(c, toks, hidden, names, run) && i < |run| && run[i] == t
    && Plain(c, run[i..], Inside(hidden, names))
  }

  ghost predicate Left(c: Table, toks: Tokens, hidden: set<string>, t: PTok) {
    exists names, run, i: nat :: LeftAt(c, toks, hidden, t, names, run, i)
  }

  lemma {:induction false} LeftLater(c: Table, toks: Tokens, hidden: set<string>, t: PTok, at: nat)
    requires at <= |toks| && Left(c, toks[at..], hidden, t)
    ensures Left(c, toks, hidden, t)
  {
    hide IsInvocation, Plain;
    var names, run, i: nat :| LeftAt(c, toks[at..], hidden, t, names, run, i);
    if names == [] {
      assert toks[at..][i..] == toks[at + i..];
      assert LeftAt(c, toks, hidden, t, [], toks, at + i);
    } else {
      var k: nat, replacement, rest :|
        k <= |toks[at..]| && IsInvocation(c, toks[at..][k..], names[0], replacement, rest)
        && Nested(c, replacement, hidden + {names[0]}, names[1..], run);
      assert toks[at..][k..] == toks[at + k..];
      assert LeftAt(c, toks, hidden, t, names, run, i);
    }
  }

  lemma {:induction false} LeftDeeper(
      c: Table, toks: Tokens, hidden: set<string>, t: PTok, name: string, replacement: Tokens, rest: Tokens)
    requires IsInvocation(c, toks, name, replacement, rest) && name !in hidden && Left(c, replacement, hidden + {name}, t)
    ensures Left(c, toks, hidden, t)
  {
    hide IsInvocation, Plain;
    var names, run, i: nat :| LeftAt(c, replacement, hidden + {name}, t, names, run, i);
    var all := [name] + names;
    assert all[1..] == names && toks[0..] == toks;
    assert Nested(c, toks, hidden, all, run);
    assert LeftAt(c, toks, hidden, t, all, run, i);
  }

  /** Everything that an uncut expansion emits is left for a reason. */
  lemma {:induction false} EmittedIsLeft(c: Table, toks: Tokens, hidden: set<string>)
    requires WellFormed(c) && !Expand(c, toks, hidden).cut
    ensures forall t :: t in Expand(c, toks, hidden).out ==> Left(c, toks, hidden, t)
    decreases |Unhidden(c, hidden)|, |toks|
  {
    hide IsInvocation, WellFormed, Invoke, Left;
    WellFormedTable(c);
    if toks != [] {
      var call := Invoke(c, toks, hidden);
      if call.None? {
        assert Expand(c, toks, hidden) == Seq(Flow([toks[0]], false), Expand(c, toks[1..], hidden));
        EmittedIsLeft(c, toks[1..], hidden);
        forall t | t in Expand(c, toks, hidden).out ensures Left(c, toks, hidden, t) {
          if t == toks[0] {
            NotInvokedIsPlain(c, toks, hidden);
            FrontIsLeft(c, toks, hidden);
          } else {
            assert t in Expand(c, toks[1..], hidden).out;
            LeftLater(c, toks, hidden, t, 1);
          }
        }
      } else {
        var r := call.value;
        InvokedIsInvocation(c, toks, hidden);
        UnhiddenShrinks(c, hidden, r.name);
        assert Expand(c, toks, hidden)
            == Seq(Expand(c, r.replacement, hidden + {r.name}), Expand(c, toks[r.consumed..], hidden));
        EmittedIsLeft(c, r.replacement, hidden + {r.name});
        EmittedIsLeft(c, toks[r.consumed..], hidden);
        forall t | t in Expand(c, toks, hidden).out ensures Left(c, toks, hidden, t) {
          if t in Expand(c, r.replacement, hidden + {r.name}).out {
            LeftDeeper(c, toks, hidden, t, r.name, r.replacement, toks[r.consumed..]);
          } else {
            LeftLater(c, toks, hidden, t, r.consumed);
          }
        }
      }
    }
  }

  lemma {:induction false} NotInvokedIsPlain(c: Table, toks: Tokens, hidden: set<string>)
    requires WellFormed(c) && toks != [] && Invoke(c, toks, hidden).None?
    ensures Plain(c, toks, hidden)
  {
    hide IsInvocation, WellFormed, Invoke;
    forall name, replacement, rest | IsInvocation(c, toks, name, replacement, rest) ensures name in hidden {
      if name !in hidden {
        InvocationIsInvoked(c, toks, hidden, name, replacement, rest);
        assert false;
      }
    }
  }

  lemma {:induction false} FrontIsLeft(c: Table, toks: Tokens, hidden: set<string>)
    requires toks != [] && Plain(c, toks, hidden)
    ensures Left(c, toks, hidden, toks[0])
  {
    hide Plain;
    assert toks[0..] == toks;
    assert LeftAt(c, toks, hidden, toks[0], [], toks, 0);
  }

  /** The same, macro by macro: an emitted name of any macro was hidden from the start, is
      that of an invocation around it, or has no argument list or pattern behind it in
      the run it was met in. */
  lemma {:induction false} EmittedNames(c: Table, toks: Tokens, hidden: set<string>, t: PTok)
    returns (names: seq<string>, run: Tokens, i: nat)
    requires WellFormed(c) && !Expand(c, toks, hidden).cut && t in Expand(c, toks, hidden).out
    ensures Nested(c, toks, hidden, names, run) && i < |run| && run[i] == t
    ensures forall name, replacement, rest ::
              IsInvocation(c, run[i..], name, replacement, rest) ==> name in hidden || name in names
  {
    hide IsInvocation, WellFormed, Expand, Nested;
    EmittedIsLeft(c, toks, hidden);
    names, run, i :| LeftAt(c, toks, hidden, t, names, run, i);
    InsideIs(hidden, names);
  }

  /** No object-like macro's name is emitted by an uncut expansion, except where the macro
      was hidden from the start or is one of those whose invocations the token is in. */
  lemma {:induction false} ObjectNamesAreReplaced(c: Table, toks: Tokens, hidden: set<string>, t: PTok)
    returns (names: seq<string>, run: Tokens)
    requires WellFormed(c) && !Expand(c, toks, hidden).cut && t in Expand(c, toks, hidden).out
    requires Names(c, [t], t.text) && c.macros[t.text].pattern.None? && c.macros[t.text].kind == ObjectLike
    ensures Nested(c, toks, hidden, names, run) && t in run
    ensures t.text in hidden || t.text in names
  {
    hide IsInvocation, WellFormed, Expand, Nested, Plain;
    EmittedIsLeft(c, toks, hidden);
    var i: nat;
    names, run, i :| LeftAt(c, toks, hidden, t, names, run, i);
    ObjectIsPlainIffHidden(c, run[i..], Inside(hidden, names), t.text);
    InsideIs(hidden, names);
  }

  // ---- The layers of a token do not tell where it is hidden ----

  predicate IsAlias(c: Table, name: string, body: PTok) {
    && name in c.macros && c.macros[name].kind == ObjectLike && c.macros[name].pattern.None?
    && c.macros[name].body == [body] && body.kind == Identifier
  }

  /** One replacement of a name by another. */
  lemma {:induction false} AliasIsReplaced(c: Table, t: PTok, body: PTok, hidden: set<string>) returns (next: PTok)
    requires WellFormed(c) && |hidden| <= c.maxDepth && t.kind == Identifier && IsAlias(c, t.text, body) && t.text !in hidden
    ensures next.kind == Identifier && next.text == body.text && Through(next.origin) == [t.text]
    ensures Expand(c, [t], hidden) == Seq(Expand(c, [next], hidden + {t.text}), Expand(c, [], hidden))
  {
    hide Expand;
    var m, toks := c.macros[t.text], [t];
    WellFormedTable(c);
    assert WellDefined(m, t.text);
    assert body in m.body;
    next := Wrap(body, PlaceOf(t, t), t.text);
    WrappedThrough(body, PlaceOf(t, t), t.text);
    assert toks == [toks[0]] + [];
    assert ObjectCall(c, toks, t.text, [next], []);
    InvocationIsReplaced(c, toks, hidden, t.text, [next], []);
  }

  /** A becomes B, B becomes C and C becomes B, which is hidden by then and is emitted,
      with a layer of C alone: the body of each macro starts its own provenance. */
  lemma {:induction false} HiddenNameWithoutLayer(c: Table, a: PTok, toB: PTok, toC: PTok, back: PTok) returns (t: PTok)
    requires WellFormed(c) && c.maxDepth >= 3 && a.kind == Identifier
    requires a.text != toB.text && a.text != toC.text && toB.text != toC.text && back.text == toB.text
    requires IsAlias(c, a.text, toB) && IsAlias(c, toB.text, toC) && IsAlias(c, toC.text, back)
    ensures Expand(c, [a], {}) == Flow([t], false)
    ensures Names(c, [t], toB.text) && Through(t.origin) == [toC.text]
  {
    hide Expand, WellFormed, IsAlias;
    var first := AliasIsReplaced(c, a, toB, {});
    var second := AliasIsReplaced(c, first, toC, {} + {a.text});
    t := AliasIsReplaced(c, second, back, {} + {a.text} + {toB.text});
    var hidden := {} + {a.text} + {toB.text} + {toC.text};
    assert hidden == {a.text, toB.text, toC.text};
    AliasIsMacro(c, toB.text, toC);
    KeptAlone(c, t, hidden);
    NothingExpands(c, {});
    NothingExpands(c, {} + {a.text});
    NothingExpands(c, {} + {a.text} + {toB.text});
  }

  lemma {:induction false} AliasIsMacro(c: Table, name: string, body: PTok)
    requires IsAlias(c, name, body)
    ensures name in c.macros && c.macros[name].kind == ObjectLike && c.macros[name].pattern.None?
  {
  }

  lemma {:induction false} KeptAlone(c: Table, t: PTok, hidden: set<string>)
    requires WellFormed(c) && |hidden| <= c.maxDepth && t.kind == Identifier && t.text in hidden
    requires t.text in c.macros && c.macros[t.text].kind == ObjectLike && c.macros[t.text].pattern.None?
    ensures Expand(c, [t], hidden) == Flow([t], false)
  {
    hide WellFormed;
    NoMacroNoChange(c, [t], hidden);
  }

  lemma {:induction false} NothingExpands(c: Table, hidden: set<string>)
    requires WellFormed(c) && |hidden| <= c.maxDepth
    ensures Expand(c, [], hidden) == Flow([], false)
  {
  }
}
