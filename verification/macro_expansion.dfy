/** Macro expansion: rescanning a replacement under a set of hidden names
    (preprocess/expand.go, preprocess/pattern.go, preprocess/engine.go). */
module MacroExpansion {
  import opened Collections
  import opened MacroTokens
  import opened MacroArguments
  import opened MacroPatterns
  import opened MacroSubstitution
  import opened ExpandedOutput

  /** What one expansion works with: the macro table, the nesting limit, and the lexer
      for replacement texts. */
  datatype Table = Table(macros: map<string, Macro>, maxDepth: nat, lex: Lexer)

  predicate WellDefined(m: Macro, name: string) {
    && m.name == name && name != "" && NoEof(m.body) && Written(m.body)
    && (m.pattern.Some? ==> Slotted(m) && NoEof(m.pattern.value))
  }

  ghost predicate WellFormed(c: Table) {
    && (forall name :: name in c.macros ==> WellDefined(c.macros[name], name))
    && Orderly(c.lex)
  }

  lemma {:induction false} WellFormedTable(c: Table)
    requires WellFormed(c)
    ensures forall name :: name in c.macros ==> WellDefined(c.macros[name], name)
    ensures Orderly(c.lex)
  {
  }

  /** What an expansion hands to the output, and whether it ran into the nesting
      limit, behind which nothing is emitted. */
  datatype Flow = Flow(out: Tokens, cut: bool)

  function Seq(a: Flow, b: Flow): Flow { if a.cut then a else Flow(a.out + b.out, b.cut) }

  /** The tokens an invocation of a pattern may use: those up to the end of the line. */
  function Window(toks: Tokens, ended: bool): Tokens {
    if ended || toks == [] then [] else [toks[0]] + Window(toks[1..], toks[0].endsLine)
  }

  lemma {:induction false} WindowIsPrefix(toks: Tokens, ended: bool)
    ensures Window(toks, ended) <= toks
    decreases |toks|
  {
    if !ended && toks != [] {
      WindowIsPrefix(toks[1..], toks[0].endsLine);
      assert toks == [toks[0]] + toks[1..];
    }
  }

  /** The place of a nested invocation is that of the outermost one. */
  function NestedSpan(first: PTok, last: PTok): Span {
    if first.origin.Origin? then first.origin.span else Span(first.file, first.start, last.end)
  }

  /** An invocation at the front of a run: its macro, the replacement, and how many
      tokens it takes. */
  datatype Call = Call(name: string, replacement: Tokens, consumed: nat)

  function Invoke(c: Table, toks: Tokens, hidden: set<string>): (r: Option<Call>)
    requires toks != []
    requires forall name :: name in c.macros ==> WellDefined(c.macros[name], name)
    ensures r.Some? ==>
      r.value.name in c.macros && r.value.name !in hidden && 0 < r.value.consumed <= |toks|
  {
    var t := toks[0];
    if t.kind != Identifier || t.text in hidden || t.text !in c.macros then None
    else
      var m := c.macros[t.text];
      assert WellDefined(m, t.text);
      if m.pattern.Some? then
        WindowIsPrefix(toks[1..], t.endsLine);
        var r := Match(m.pattern.value, Window(toks[1..], t.endsLine));
        if r.None? then None
        else
          var args := Assign(m.pattern.value, m.paramSlots, r.value.captures, Empties(m.paramCount));
          var inv := NestedSpan(t, toks[r.value.length]);
          Some(Call(m.name, Substitute(c.lex, m, args, inv), r.value.length + 1))
      else if m.kind == ObjectLike then
        Some(Call(m.name, WrapAll(m.body, NestedSpan(t, t), m.name), 1))
      else if |toks| > 1 && toks[1].kind == LParen && Collect(toks[2..]).Some? then
        var r := Collect(toks[2..]).value;
        CollectTakes(toks[2..]);
        var consumed := |toks| - |r.rest|;
        Some(Call(m.name, Substitute(c.lex, m, r.args, NestedSpan(t, toks[consumed - 1])), consumed))
      else None
  }

  lemma {:induction false} CollectTakes(toks: Tokens)
    requires Collect(toks).Some?
    ensures |Collect(toks).value.rest| < |toks|
    ensures Collect(toks).value.rest == toks[|toks| - |Collect(toks).value.rest|..]
  {
    var commas, close := CollectIsJoined(toks);
    var r := Collect(toks).value;
    assert toks == (Join(r.args, commas) + [close]) + r.rest;
  }

  function Unhidden(c: Table, hidden: set<string>): set<string> { c.macros.Keys - hidden }

  lemma {:induction false} UnhiddenShrinks(c: Table, hidden: set<string>, name: string)
    requires name in c.macros && name !in hidden
    ensures |Unhidden(c, hidden + {name})| < |Unhidden(c, hidden)|
  {
    assert Unhidden(c, hidden) == Unhidden(c, hidden + {name}) + {name};
  }

  /** The expansion of a run while some macros are hidden: past the nesting limit it is
      cut, and otherwise invocations are replaced, left to right, by the expansion of
      their replacement with their macro hidden too. */
  ghost function Expand(c: Table, toks: Tokens, hidden: set<string>): Flow
    requires WellFormed(c)
    decreases |Unhidden(c, hidden)|, |toks|, 1
  {
    if |hidden| > c.maxDepth then Flow([], true) else ExpandFrom(c, toks, hidden)
  }

  ghost function ExpandFrom(c: Table, toks: Tokens, hidden: set<string>): Flow
    requires WellFormed(c)
    decreases |Unhidden(c, hidden)|, |toks|, 0
  {
    if toks == [] then Flow([], false)
    else
      var call := Invoke(c, toks, hidden);
      if call.None? then Seq(Flow([toks[0]], false), ExpandFrom(c, toks[1..], hidden))
      else
        UnhiddenShrinks(c, hidden, call.value.name);
        Seq(Expand(c, call.value.replacement, hidden + {call.value.name}),
            ExpandFrom(c, toks[call.value.consumed..], hidden))
  }

  /** A run that names no macro it could expand passes through unchanged. */
  lemma {:induction false} NoMacroNoChange(c: Table, toks: Tokens, hidden: set<string>)
    requires WellFormed(c) && |hidden| <= c.maxDepth
    requires forall t :: t in toks && t.kind == Identifier ==> t.text !in c.macros || t.text in hidden
    ensures Expand(c, toks, hidden) == Flow(toks, false)
    decreases |toks|
  {
    if toks != [] {
      assert toks[0] in toks;
      NoMacroNoChange(c, toks[1..], hidden);
      assert toks == [toks[0]] + toks[1..];
    }
  }

  // ---- The nesting limit ----

  lemma {:induction false} SubsetCounts(a: set<string>, b: set<string>)
    requires a <= b
    ensures |a| <= |b|
  {
    assert b == a + (b - a);
  }

  /** Every hidden name is a macro, so the limit is only reached with more macros than
      it allows. */
  lemma {:induction false} CutNeedsManyMacros(c: Table, toks: Tokens, hidden: set<string>)
    requires WellFormed(c) && hidden <= c.macros.Keys
    ensures Expand(c, toks, hidden).cut ==> |c.macros| > c.maxDepth
    decreases |Unhidden(c, hidden)|, |toks|, 1
  {
    hide Invoke;
    SubsetCounts(hidden, c.macros.Keys);
    if |hidden| <= c.maxDepth {
      CutFromNeedsManyMacros(c, toks, hidden);
    }
  }

  lemma {:induction false} CutFromNeedsManyMacros(c: Table, toks: Tokens, hidden: set<string>)
    requires WellFormed(c) && hidden <= c.macros.Keys
    ensures ExpandFrom(c, toks, hidden).cut ==> |c.macros| > c.maxDepth
    decreases |Unhidden(c, hidden)|, |toks|, 0
  {
    hide Invoke;
    if toks != [] {
      var call := Invoke(c, toks, hidden);
      if call.None? {
        CutFromNeedsManyMacros(c, toks[1..], hidden);
      } else {
        UnhiddenShrinks(c, hidden, call.value.name);
        CutNeedsManyMacros(c, call.value.replacement, hidden + {call.value.name});
        CutFromNeedsManyMacros(c, toks[call.value.consumed..], hidden);
      }
    }
  }

  // ---- Provenance ----

  lemma {:induction false} LayeredSlice(toks: Tokens, a: nat, b: nat, inv: Span, names: set<string>)
    requires Layered(toks, inv, names) && a <= b <= |toks|
    ensures Layered(toks[a..b], inv, names) && Clean(toks[a..b], names)
  {
    forall t | t in toks[a..b] ensures t in toks {
    }
  }

  lemma {:induction false} LayeredWidens(toks: Tokens, inv: Span, names: set<string>, more: set<string>)
    requires Layered(toks, inv, names) && names <= more
    ensures Layered(toks, inv, more)
  {
    forall t | t in toks ensures CleanToken(t, more) {
      assert CleanToken(t, names);
    }
  }

  /** The replacement of an invocation in a clean run is clean with its macro. */
  lemma {:induction false} CallIsLayered(c: Table, toks: Tokens, hidden: set<string>, inv: Span)
    requires WellFormed(c) && toks != [] && Layered(toks, inv, hidden) && Invoke(c, toks, hidden).Some?
    ensures
      var call := Invoke(c, toks, hidden).value;
      Layered(call.replacement, inv, hidden + {call.name})
  {
    hide CleanToken, Substitute, Match, Collect, Window, Label;
    var t := toks[0];
    assert t in toks;
    var m := c.macros[t.text];
    assert WellDefined(m, t.text);
    var call := Invoke(c, toks, hidden).value;
    if m.pattern.Some? {
      var w := Window(toks[1..], t.endsLine);
      WindowIsPrefix(toks[1..], t.endsLine);
      var r := Match(m.pattern.value, w).value;
      WindowIsClean(toks, w, inv, hidden);
      CapturesAreClean(m, w, hidden);
      SubstitutionIsLayered(c.lex, m, Assign(m.pattern.value, m.paramSlots, r.captures, Empties(m.paramCount)), inv, hidden);
    } else if m.kind == ObjectLike {
      BodyIsLayered(m, inv, hidden);
    } else {
      LayeredSlice(toks, 2, |toks|, inv, hidden);
      assert toks[2..|toks|] == toks[2..];
      ArgumentsAreClean(toks[2..], hidden);
      SubstitutionIsLayered(c.lex, m, Collect(toks[2..]).value.args, inv, hidden);
    }
  }

  lemma {:induction false} WindowIsClean(toks: Tokens, w: Tokens, inv: Span, names: set<string>)
    requires toks != [] && Layered(toks, inv, names) && w <= toks[1..]
    ensures Clean(w, names)
  {
    forall t | t in w ensures CleanToken(t, names) {
      var i :| 0 <= i < |w| && w[i] == t;
      assert t == toks[1..][i];
      assert t in toks;
    }
  }

  lemma {:induction false} BodyIsLayered(m: Macro, inv: Span, names: set<string>)
    requires m.name != "" && m.name !in names && Written(m.body)
    ensures Layered(WrapAll(m.body, inv, m.name), inv, names + {m.name})
  {
    hide CleanToken;
    var all := WrapAll(m.body, inv, m.name);
    forall t | t in all ensures t.origin.Origin? && t.origin.span == inv && CleanToken(t, names + {m.name}) {
      var i :| 0 <= i < |all| && all[i] == t;
      assert m.body[i] in m.body;
      WrittenIsClean(m.body[i], names);
      WrapIsLayered(m.body[i], inv, m.name, names);
    }
  }

  lemma {:induction false} CapturesAreClean(m: Macro, w: Tokens, names: set<string>)
    requires Slotted(m) && Clean(w, names) && Match(m.pattern.value, w).Some?
    ensures AllClean(Assign(m.pattern.value, m.paramSlots, Match(m.pattern.value, w).value.captures, Empties(m.paramCount)), names)
  {
    hide CleanToken, Assign, Label;
    MatchedAreClean(m.pattern.value, w, names);
    AssignedAreClean(m.pattern.value, m.paramSlots, Match(m.pattern.value, w).value.captures, Empties(m.paramCount), names);
  }

  lemma {:induction false} MatchedAreClean(p: Tokens, w: Tokens, names: set<string>)
    requires Clean(w, names) && Match(p, w).Some?
    ensures AllClean(Match(p, w).value.captures, names)
    decreases |p|
  {
    hide CleanToken, ParamIndex;
    if p != [] {
      if Label(p[0]).Some? {
        MatchedAreClean(p[1..], w[CaptureLength(w, [], p[1]).value..], names);
      } else {
        MatchedAreClean(p[1..], w[1..], names);
      }
    }
  }

  lemma {:induction false} AssignedAreClean(
      p: Tokens, slots: map<nat, nat>, captures: seq<Tokens>, args: seq<Tokens>, names: set<string>)
    requires forall t :: t in p && Label(t).Some? ==> Label(t).value in slots && slots[Label(t).value] < |args|
    requires AllClean(captures, names) && AllClean(args, names)
    ensures AllClean(Assign(p, slots, captures, args), names)
    decreases |p|
  {
    hide Clean, ParamIndex;
    if p != [] && captures != [] {
      assert p[0] in p;
      if Label(p[0]).Some? {
        AssignedAreClean(p[1..], slots, captures[1..], args[slots[Label(p[0]).value] := captures[0]], names);
      } else {
        AssignedAreClean(p[1..], slots, captures, args, names);
      }
    }
  }

  lemma {:induction false} ArgumentsAreClean(toks: Tokens, names: set<string>)
    requires Clean(toks, names) && Collect(toks).Some?
    ensures AllClean(Collect(toks).value.args, names)
  {
    if toks[0].kind != RParen {
      ScannedAreClean(toks, 0, [], [], names);
    }
  }

  lemma {:induction false} ScannedAreClean(toks: Tokens, depth: int, current: Tokens, args: seq<Tokens>, names: set<string>)
    requires Clean(toks, names) && Clean(current, names) && AllClean(args, names)
    requires Scan(toks, depth, current, args).Some?
    ensures AllClean(Scan(toks, depth, current, args).value.args, names)
    decreases |toks|
  {
    hide CleanToken;
    if depth == 0 && toks[0].kind == RParen {
    } else if depth == 0 && toks[0].kind == Comma {
      ScannedAreClean(toks[1..], 0, [], args + [current], names);
    } else {
      ScannedAreClean(toks[1..], depth + Delta(toks[0].kind), current + [toks[0]], args, names);
    }
  }

  /** Everything emitted for a clean run keeps the run's place on top of its provenance,
      and no macro appears twice below it. */
  lemma {:induction false} ExpansionIsLayered(c: Table, toks: Tokens, hidden: set<string>, inv: Span)
    requires WellFormed(c) && hidden <= c.macros.Keys && Layered(toks, inv, hidden)
    ensures Layered(Expand(c, toks, hidden).out, inv, c.macros.Keys)
    decreases |Unhidden(c, hidden)|, |toks|, 1
  {
    if |hidden| <= c.maxDepth {
      ExpansionFromIsLayered(c, toks, hidden, inv);
    }
  }

  lemma {:induction false} ExpansionFromIsLayered(c: Table, toks: Tokens, hidden: set<string>, inv: Span)
    requires WellFormed(c) && hidden <= c.macros.Keys && Layered(toks, inv, hidden)
    ensures Layered(ExpandFrom(c, toks, hidden).out, inv, c.macros.Keys)
    decreases |Unhidden(c, hidden)|, |toks|, 0
  {
    hide Invoke, Layered;
    if toks != [] {
      var call := Invoke(c, toks, hidden);
      var n := if call.None? then 1 else call.value.consumed;
      LayeredSlice(toks, n, |toks|, inv, hidden);
      assert toks[n..|toks|] == toks[n..];
      ExpansionFromIsLayered(c, toks[n..], hidden, inv);
      var rest := ExpandFrom(c, toks[n..], hidden).out;
      if call.None? {
        LayeredSlice(toks, 0, 1, inv, hidden);
        assert toks[0..1] == [toks[0]];
        LayeredWidens([toks[0]], inv, hidden, c.macros.Keys);
        LayeredJoins([toks[0]], rest, inv, c.macros.Keys);
      } else {
        UnhiddenShrinks(c, hidden, call.value.name);
        CallIsLayered(c, toks, hidden, inv);
        ExpansionIsLayered(c, call.value.replacement, hidden + {call.value.name}, inv);
        LayeredJoins(Expand(c, call.value.replacement, hidden + {call.value.name}).out, rest, inv, c.macros.Keys);
      }
    } else {
      NoneIsLayered(inv, c.macros.Keys);
    }
  }

  lemma {:induction false} NoneIsLayered(inv: Span, names: set<string>)
    ensures Layered([], inv, names)
  {
  }

  lemma {:induction false} LayeredJoins(a: Tokens, b: Tokens, inv: Span, names: set<string>)
    requires Layered(a, inv, names) && Layered(b, inv, names)
    ensures Layered(a + b, inv, names)
  {
  }

  /** The replacement of an invocation brings no end of the file. */
  lemma {:induction false} CallHasNoEof(c: Table, toks: Tokens, hidden: set<string>)
    requires WellFormed(c) && toks != [] && NoEof(toks) && Invoke(c, toks, hidden).Some?
    ensures NoEof(Invoke(c, toks, hidden).value.replacement)
  {
    hide Substitute, Match, Collect, Window, Label, Orderly;
    var t := toks[0];
    var m := c.macros[t.text];
    assert WellDefined(m, t.text);
    var call := Invoke(c, toks, hidden).value;
    if m.pattern.Some? {
      var w := Window(toks[1..], t.endsLine);
      WindowIsPrefix(toks[1..], t.endsLine);
      WindowHasNoEof(toks[1..], w);
      CapturesHaveNoEof(m, w);
      var r := Match(m.pattern.value, w).value;
      SubstitutionHasNoEof(c.lex, m, Assign(m.pattern.value, m.paramSlots, r.captures, Empties(m.paramCount)),
                           NestedSpan(t, toks[r.length]));
    } else if m.kind == FunctionLike {
      ArgumentsHaveNoEof(toks[2..]);
      SubstitutionHasNoEof(c.lex, m, Collect(toks[2..]).value.args, NestedSpan(t, toks[call.consumed - 1]));
    }
  }

  /** Nothing emitted is the end of the file. */
  lemma {:induction false} ExpansionHasNoEof(c: Table, toks: Tokens, hidden: set<string>)
    requires WellFormed(c) && NoEof(toks)
    ensures NoEof(Expand(c, toks, hidden).out)
    decreases |Unhidden(c, hidden)|, |toks|, 1
  {
    if |hidden| <= c.maxDepth {
      ExpansionFromHasNoEof(c, toks, hidden);
    }
  }

  lemma {:induction false} ExpansionFromHasNoEof(c: Table, toks: Tokens, hidden: set<string>)
    requires WellFormed(c) && NoEof(toks)
    ensures NoEof(ExpandFrom(c, toks, hidden).out)
    decreases |Unhidden(c, hidden)|, |toks|, 0
  {
    hide Invoke;
    if toks != [] {
      var call := Invoke(c, toks, hidden);
      if call.None? {
        ExpansionFromHasNoEof(c, toks[1..], hidden);
      } else {
        UnhiddenShrinks(c, hidden, call.value.name);
        CallHasNoEof(c, toks, hidden);
        ExpansionHasNoEof(c, call.value.replacement, hidden + {call.value.name});
        ExpansionFromHasNoEof(c, toks[call.value.consumed..], hidden);
      }
    }
  }

  // ---- The rescanning loop ----

  function Deliver(e: Emission, f: Flow, max: nat): Emission {
    var r := EmitAll(e, f.out, max);
    if f.cut then r.(truncated := true) else r
  }

  lemma {:induction false} DeliverInOrder(e: Emission, a: Flow, b: Flow, max: nat)
    ensures Deliver(e, Seq(a, b), max) == Deliver(Deliver(e, a, max), b, max)
  {
    if a.cut {
      NothingAfterTheCut(Deliver(e, a, max), b.out, max);
    } else {
      EmitAllSplits(e, a.out, b.out, max);
    }
  }

  lemma {:induction false} DeliverNothing(e: Emission, f: Flow, max: nat)
    ensures e.truncated ==> Deliver(e, f, max) == e
    ensures f == Flow([], false) ==> Deliver(e, f, max) == e
  {
    if e.truncated {
      NothingAfterTheCut(e, f.out, max);
    }
  }

  lemma {:induction false} DeliverOne(e: Emission, t: PTok, max: nat)
    ensures Deliver(e, Flow([t], false), max) == Emit(e, t, max)
  {
    assert EmitAll(e, [t], max) == EmitAll(Emit(e, t, max), [], max);
  }

  /** One round of rescanning, delivered. */
  lemma {:induction false} NextDelivery(c: Table, toks: Tokens, i: nat, hidden: set<string>, e: Emission, max: nat)
    requires WellFormed(c) && i < |toks|
    ensures
      var goal := Deliver(e, ExpandFrom(c, toks[i..], hidden), max);
      var call := Invoke(c, toks[i..], hidden);
      match call
      case None => goal == Deliver(Emit(e, toks[i], max), ExpandFrom(c, toks[i + 1..], hidden), max)
      case Some(r) =>
        |Unhidden(c, hidden + {r.name})| < |Unhidden(c, hidden)| && r.name !in hidden
        && goal == Deliver(Deliver(e, Expand(c, r.replacement, hidden + {r.name}), max),
                           ExpandFrom(c, toks[i + r.consumed..], hidden), max)
  {
    hide Invoke, Emit, EmitAll, Deliver, Expand;
    var rest := toks[i..];
    var call := Invoke(c, rest, hidden);
    if call.Some? {
      UnhiddenShrinks(c, hidden, call.value.name);
      DeliverInOrder(e, Expand(c, call.value.replacement, hidden + {call.value.name}),
                     ExpandFrom(c, rest[call.value.consumed..], hidden), max);
      assert rest[call.value.consumed..] == toks[i + call.value.consumed..];
    } else {
      DeliverInOrder(e, Flow([toks[i]], false), ExpandFrom(c, rest[1..], hidden), max);
      DeliverOne(e, toks[i], max);
      assert rest[1..] == toks[i + 1..];
    }
  }

  method AppendAllOut(o: Output, toks: Tokens)
    requires o.Valid()
    modifies o, o.out
    ensures o.Valid() && o.Now() == EmitAll(old(o.Now()), toks, o.max)
    ensures o.out == old(o.out) || fresh(o.out)
  {
    hide Emit;
    var i := 0;
    assert toks[0..] == toks;
    while i < |toks|
      invariant 0 <= i <= |toks| && o.Valid()
      invariant o.out == old(o.out) || fresh(o.out)
      invariant EmitAll(o.Now(), toks[i..], o.max) == EmitAll(old(o.Now()), toks, o.max)
    {
      assert toks[i..][0] == toks[i] && toks[i..][1..] == toks[i + 1..];
      o.AppendOut(toks[i]);
      i := i + 1;
      if o.truncated {
        NothingAfterTheCut(o.Now(), toks[i..], o.max);
        return;
      }
    }
  }

  /** The rescanning of a run. The depth counts the hidden names. */
  method ExpandRun(c: Table, o: Output, toks: Tokens, hidden: set<string>, depth: nat)
    requires WellFormed(c) && o.Valid() && NoEof(toks) && depth == |hidden|
    modifies o, o.out
    ensures o.Valid() && o.Now() == Deliver(old(o.Now()), Expand(c, toks, hidden), o.max)
    ensures o.out == old(o.out) || fresh(o.out)
    decreases |Unhidden(c, hidden)|
  {
    hide Invoke, Emit, EmitAll, Deliver, ExpandFrom, WellFormed;
    if depth > c.maxDepth {
      CutDelivers(o.Now(), toks, o.max);
      o.Truncate();
      AppendAllOut(o, toks);
      return;
    }
    ghost var goal := Deliver(o.Now(), ExpandFrom(c, toks, hidden), o.max);
    var i := 0;
    assert toks[0..] == toks;
    while i < |toks|
      invariant 0 <= i <= |toks| && o.Valid()
      invariant o.out == old(o.out) || fresh(o.out)
      invariant goal == Deliver(o.Now(), ExpandFrom(c, toks[i..], hidden), o.max)
      decreases |toks| - i
    {
      if o.truncated {
        DeliverNothing(o.Now(), ExpandFrom(c, toks[i..], hidden), o.max);
        return;
      }
      NextDelivery(c, toks, i, hidden, o.Now(), o.max);
      var call := Find(c, toks, i, hidden);
      if call.Some? {
        ExpandRun(c, o, call.value.replacement, hidden + {call.value.name}, depth + 1);
        i := i + call.value.consumed;
      } else {
        o.AppendOut(toks[i]);
        i := i + 1;
      }
    }
    NothingLeft(c, toks, hidden, o.Now(), o.max);
  }

  lemma {:induction false} NothingLeft(c: Table, toks: Tokens, hidden: set<string>, e: Emission, max: nat)
    requires WellFormed(c)
    ensures Deliver(e, ExpandFrom(c, toks[|toks|..], hidden), max) == e
  {
    DeliverNothing(e, ExpandFrom(c, toks[|toks|..], hidden), max);
  }

  lemma {:induction false} CutDelivers(e: Emission, toks: Tokens, max: nat)
    ensures
      var f := e.(truncated := true);
      EmitAll(f, toks, max) == f == Deliver(e, Flow([], true), max)
  {
    NothingAfterTheCut(e.(truncated := true), toks, max);
  }

  /** The invocation at an index of a run, if there is one. */
  method Find(c: Table, toks: Tokens, i: nat, hidden: set<string>) returns (call: Option<Call>)
    requires WellFormed(c) && NoEof(toks) && i < |toks|
    ensures call == Invoke(c, toks[i..], hidden)
    ensures call.Some? ==> NoEof(call.value.replacement) && call.value.consumed > 0 && i + call.value.consumed <= |toks|
  {
    hide Substitute, Match, Collect, ParamIndex, Assign, Label, Slotted;
    ghost var rest := toks[i..];
    var t := toks[i];
    if t.kind != Identifier || t.text in hidden || t.text !in c.macros {
      return None;
    }
    var m := c.macros[t.text];
    assert WellDefined(m, t.text);
    if m.pattern.Some? {
      call := FindPattern(c, m, toks, i);
      return;
    }
    if m.kind == ObjectLike {
      return Some(Call(m.name, WrapAll(m.body, NestedSpan(t, t), m.name), 1));
    }
    if i + 1 < |toks| && toks[i + 1].kind == LParen {
      var args, next, ok := CollectArgsSlice(toks, i + 2);
      assert rest[2..] == toks[i + 2..];
      if ok {
        var inv := NestedSpan(t, toks[next - 1]);
        assert |rest| - |toks[next..]| == next - i;
        ArgumentsHaveNoEof(toks[i + 2..]);
        SubstitutionHasNoEof(c.lex, m, args, inv);
        var replacement := SubstituteParams(c.lex, m, args, inv);
        return Some(Call(m.name, replacement, next - i));
      }
    }
    return None;
  }

  method FindPattern(c: Table, m: Macro, toks: Tokens, i: nat) returns (call: Option<Call>)
    requires WellFormed(c) && NoEof(toks) && i < |toks| && toks[i].kind == Identifier
    requires toks[i].text in c.macros && m == c.macros[toks[i].text] && m.pattern.Some?
    ensures
      var t := toks[i];
      var r := Match(m.pattern.value, Window(toks[i..][1..], t.endsLine));
      call.Some? == r.Some?
      && (r.Some? ==>
            r.value.length < |toks| - i
            && call.value == Call(m.name,
                 Substitute(c.lex, m, Assign(m.pattern.value, m.paramSlots, r.value.captures, Empties(m.paramCount)),
                            NestedSpan(t, toks[i..][r.value.length])), r.value.length + 1))
    ensures call.Some? ==> NoEof(call.value.replacement)
  {
    hide Substitute, Match, ParamIndex, Assign, Label;
    assert WellDefined(m, toks[i].text);
    var t := toks[i];
    var w := Window(toks[i + 1..], t.endsLine);
    assert toks[i..][1..] == toks[i + 1..];
    WindowIsPrefix(toks[i + 1..], t.endsLine);
    var args, consumed, matched := MatchPattern(m, w);
    if !matched {
      return None;
    }
    var inv := NestedSpan(t, toks[i + consumed]);
    WindowHasNoEof(toks[i + 1..], w);
    CapturesHaveNoEof(m, w);
    SubstitutionHasNoEof(c.lex, m, args, inv);
    var replacement := SubstituteParams(c.lex, m, args, inv);
    return Some(Call(m.name, replacement, consumed + 1));
  }

  lemma {:induction false} WindowHasNoEof(toks: Tokens, w: Tokens)
    requires NoEof(toks) && w <= toks
    ensures NoEof(w)
  {
  }

  lemma {:induction false} ArgumentsHaveNoEof(toks: Tokens)
    requires NoEof(toks) && Collect(toks).Some?
    ensures forall a :: a in Collect(toks).value.args ==> NoEof(a)
  {
    if toks[0].kind != RParen {
      ScannedHaveNoEof(toks, 0, [], []);
    }
  }

  lemma {:induction false} ScannedHaveNoEof(toks: Tokens, depth: int, current: Tokens, args: seq<Tokens>)
    requires NoEof(toks) && NoEof(current) && forall a :: a in args ==> NoEof(a)
    requires Scan(toks, depth, current, args).Some?
    ensures forall a :: a in Scan(toks, depth, current, args).value.args ==> NoEof(a)
    decreases |toks|
  {
    if depth == 0 && toks[0].kind == RParen {
    } else if depth == 0 && toks[0].kind == Comma {
      ScannedHaveNoEof(toks[1..], 0, [], args + [current]);
    } else {
      ScannedHaveNoEof(toks[1..], depth + Delta(toks[0].kind), current + [toks[0]], args);
    }
  }

  predicate NoneHasEof(args: seq<Tokens>) { forall a :: a in args ==> NoEof(a) }

  lemma {:induction false} CapturesHaveNoEof(m: Macro, w: Tokens)
    requires Slotted(m) && NoEof(w) && Match(m.pattern.value, w).Some?
    ensures NoneHasEof(Assign(m.pattern.value, m.paramSlots, Match(m.pattern.value, w).value.captures, Empties(m.paramCount)))
  {
    hide Label;
    MatchedHaveNoEof(m.pattern.value, w);
    AssignedHaveNoEof(m.pattern.value, m.paramSlots, Match(m.pattern.value, w).value.captures, Empties(m.paramCount));
  }

  lemma {:induction false} MatchedHaveNoEof(p: Tokens, w: Tokens)
    requires NoEof(w) && Match(p, w).Some?
    ensures NoneHasEof(Match(p, w).value.captures)
    decreases |p|
  {
    hide ParamIndex;
    if p != [] {
      if Label(p[0]).Some? {
        MatchedHaveNoEof(p[1..], w[CaptureLength(w, [], p[1]).value..]);
      } else {
        MatchedHaveNoEof(p[1..], w[1..]);
      }
    }
  }

  lemma {:induction false} AssignedHaveNoEof(p: Tokens, slots: map<nat, nat>, captures: seq<Tokens>, args: seq<Tokens>)
    requires forall t :: t in p && Label(t).Some? ==> Label(t).value in slots && slots[Label(t).value] < |args|
    requires NoneHasEof(captures) && NoneHasEof(args)
    ensures NoneHasEof(Assign(p, slots, captures, args))
    decreases |p|
  {
    hide NoEof, ParamIndex;
    if p != [] && captures != [] {
      assert p[0] in p;
      if Label(p[0]).Some? {
        AssignedHaveNoEof(p[1..], slots, captures[1..], args[slots[Label(p[0]).value] := captures[0]]);
      } else {
        AssignedHaveNoEof(p[1..], slots, captures, args);
      }
    }
  }
}
