/** Expansion at a file's cursor: recognising an invocation, fitting its arguments, and
    what a whole file without directives emits (preprocess/expand.go,
    preprocess/pattern.go, preprocess/engine.go). */
module MacroInvocations {
  import opened Collections
  import opened MacroTokens
  import opened MacroArguments
  import opened MacroPatterns
  import opened MacroSubstitution
  import opened ExpandedOutput
  import opened MacroExpansion

  /** One round at the cursor: a token on its own; a macro's name whose argument list
      never ends, which takes the rest of the file with it; or an invocation. */
  datatype Round =
    | Single(tok: PTok)
    | Unterminated(tok: PTok, consumed: nat)
    | Invocation(name: string, replacement: Tokens, consumed: nat, inv: Span)

  function CommaAt(close: PTok): PTok { PTok(Comma, ",", close.file, close.start, close.start, false, Unknown) }

  /** Surplus arguments join the last, with commas between them. */
  function Merge(last: Tokens, extras: seq<Tokens>, comma: PTok): Tokens
    decreases |extras|
  {
    if extras == [] then last else Merge(last + [comma] + extras[0], extras[1..], comma)
  }

  function Fit(args: seq<Tokens>, count: nat, close: PTok): seq<Tokens> {
    var some := if args == [] && count > 0 then [[]] else args;
    if |some| > count && count > 0 then
      some[..count - 1] + [Merge(some[count - 1], some[count..], CommaAt(close))]
    else some
  }

  /** With a parameter to fill, a list has at most as many arguments as parameters, and
      at least one. */
  lemma {:induction false} FitCounts(args: seq<Tokens>, count: nat, close: PTok)
    ensures count > 0 ==> 0 < |Fit(args, count, close)| <= count
    ensures 0 < |args| <= count || count == 0 ==> Fit(args, count, close) == args
  {
  }

  function RoundAt(c: Table, toks: Tokens): (r: Round)
    requires toks != [] && toks[0].kind != Eof
    requires forall name :: name in c.macros ==> WellDefined(c.macros[name], name)
    ensures r.Invocation? ==> r.name in c.macros && 0 < r.consumed <= |toks|
    ensures r.Unterminated? ==> r.consumed == |toks| - 1
  {
    var t := toks[0];
    if t.kind != Identifier || t.text !in c.macros then Single(t)
    else
      var m := c.macros[t.text];
      assert WellDefined(m, t.text);
      if m.pattern.Some? then
        WindowIsPrefix(toks[1..], t.endsLine);
        var r := Match(m.pattern.value, Window(toks[1..], t.endsLine));
        if r.None? then Single(t)
        else
          var args := Assign(m.pattern.value, m.paramSlots, r.value.captures, Empties(m.paramCount));
          var inv := Span(t.file, t.start, toks[r.value.length].end);
          Invocation(m.name, Substitute(c.lex, m, args, inv), r.value.length + 1, inv)
      else if m.kind == ObjectLike then
        var inv := Span(t.file, t.start, t.end);
        Invocation(m.name, WrapAll(m.body, inv, m.name), 1, inv)
      else if |toks| > 1 && toks[1].kind == LParen then
        var r := Collect(RetainAll(toks[2..]));
        if r.None? then Unterminated(t, |toks| - 1)
        else
          CollectTakes(RetainAll(toks[2..]));
          var consumed := |toks| - |r.value.rest|;
          var close := toks[consumed - 1];
          var inv := Span(t.file, t.start, close.end);
          Invocation(m.name, Substitute(c.lex, m, Fit(r.value.args, m.paramCount, close), inv), consumed, inv)
      else Single(t)
  }

  function Consumed(r: Round): nat {
    match r
    case Single(_) => 1
    case Unterminated(_, n) => n
    case Invocation(_, _, n, _) => n
  }

  ghost function RoundFlow(c: Table, r: Round): Flow
    requires WellFormed(c)
  {
    match r
    case Invocation(name, replacement, _, _) => Expand(c, replacement, {name})
    case _ => Flow([r.tok], false)
  }

  /** A file from the cursor on, round by round, to its end. */
  ghost function FileFlow(c: Table, toks: Tokens): Flow
    requires WellFormed(c)
    decreases |toks|
  {
    if toks == [] || toks[0].kind == Eof then Flow([], false)
    else
      var r := RoundAt(c, toks);
      if Consumed(r) == 0 then RoundFlow(c, r)
      else Seq(RoundFlow(c, r), FileFlow(c, toks[Consumed(r)..]))
  }

  // ---- Provenance of everything a file emits ----

  /** A file's own tokens, before any expansion. */
  predicate Raw(toks: Tokens) { forall t :: t in toks ==> t.origin.Unknown? && Legible(t) }

  /** Everything emitted is legible. A token on its own keeps its own place, and one that came through macros has an
      invocation's place on top and no macro twice below. */
  predicate Traceable(c: Table, t: PTok, places: seq<Span>) {
    && Legible(t)
    && (t.origin.Unknown? || (t.origin.Origin? && t.origin.span in places && CleanToken(t, c.macros.Keys)))
  }

  lemma {:induction false} RawIsClean(toks: Tokens, names: set<string>)
    requires Raw(toks)
    ensures Clean(toks, names) && Clean(RetainAll(toks), names)
  {
    forall t | t in RetainAll(toks) ensures CleanToken(t, names) {
      var i :| 0 <= i < |toks| && RetainAll(toks)[i] == t;
      assert toks[i] in toks;
      assert Through(Own(toks[i])) == [];
    }
  }

  lemma {:induction false} MergeIsClean(last: Tokens, extras: seq<Tokens>, comma: PTok, names: set<string>)
    requires Clean(last, names) && AllClean(extras, names) && CleanToken(comma, names)
    ensures Clean(Merge(last, extras, comma), names)
    decreases |extras|
  {
    hide CleanToken;
    if extras != [] {
      assert extras[0] in extras;
      MergeIsClean(last + [comma] + extras[0], extras[1..], comma, names);
    }
  }

  lemma {:induction false} FitIsClean(args: seq<Tokens>, count: nat, close: PTok, names: set<string>)
    requires AllClean(args, names)
    ensures AllClean(Fit(args, count, close), names)
  {
    hide Clean;
    var some := if args == [] && count > 0 then [[]] else args;
    NoTokensAreClean(names);
    assert AllClean(some, names);
    if |some| > count && count > 0 {
      assert some[count - 1] in some;
      CommaIsClean(close, names);
      MergeIsClean(some[count - 1], some[count..], CommaAt(close), names);
    }
  }

  lemma {:induction false} NoTokensAreClean(names: set<string>)
    ensures Clean([], names)
  {
  }

  lemma {:induction false} CommaIsClean(close: PTok, names: set<string>)
    ensures CleanToken(CommaAt(close), names)
  {
  }

  lemma {:induction false} RoundIsLayered(c: Table, toks: Tokens)
    requires WellFormed(c) && toks != [] && toks[0].kind != Eof && Raw(toks) && RoundAt(c, toks).Invocation?
    ensures
      var r := RoundAt(c, toks);
      Layered(r.replacement, r.inv, {r.name})
  {
    hide CleanToken, Substitute, Match, Collect, Window, Label, RetainAll, Fit;
    var t := toks[0];
    var m := c.macros[t.text];
    assert WellDefined(m, t.text);
    var r := RoundAt(c, toks);
    assert {} + {m.name} == {m.name};
    if m.pattern.Some? {
      var w := Window(toks[1..], t.endsLine);
      WindowIsPrefix(toks[1..], t.endsLine);
      RawWindow(toks, w);
      CapturesAreClean(m, w, {});
      var caps := Match(m.pattern.value, w).value.captures;
      SubstitutionIsLayered(c.lex, m, Assign(m.pattern.value, m.paramSlots, caps, Empties(m.paramCount)), r.inv, {});
    } else if m.kind == ObjectLike {
      BodyIsLayered(m, r.inv, {});
    } else {
      RawRest(toks);
      ArgumentsAreClean(RetainAll(toks[2..]), {});
      var args := Collect(RetainAll(toks[2..])).value.args;
      FitIsClean(args, m.paramCount, toks[r.consumed - 1], {});
      SubstitutionIsLayered(c.lex, m, Fit(args, m.paramCount, toks[r.consumed - 1]), r.inv, {});
    }
  }

  lemma {:induction false} RawWindow(toks: Tokens, w: Tokens)
    requires toks != [] && Raw(toks) && w <= toks[1..]
    ensures Clean(w, {})
  {
    forall t | t in w ensures t in toks {
      var i :| 0 <= i < |w| && w[i] == t;
      assert t == toks[1..][i];
    }
  }

  lemma {:induction false} RawRest(toks: Tokens)
    requires |toks| > 1 && Raw(toks)
    ensures Clean(RetainAll(toks[2..]), {})
  {
    assert forall t :: t in toks[2..] ==> t in toks;
    RawIsClean(toks[2..], {});
  }

  /** The places of the invocations a file's rounds make, in order. */
  ghost function Places(c: Table, toks: Tokens): seq<Span>
    requires WellFormed(c)
    decreases |toks|
  {
    if toks == [] || toks[0].kind == Eof then []
    else
      var r := RoundAt(c, toks);
      var here := if r.Invocation? then [r.inv] else [];
      if Consumed(r) == 0 then here else here + Places(c, toks[Consumed(r)..])
  }

  /** Every token a file emits was written where its provenance says, or has on top the
      place of one of the file's own invocations, and comes through no macro twice. */
  lemma {:induction false} FileIsTraceable(c: Table, toks: Tokens)
    requires WellFormed(c) && Raw(toks)
    ensures forall t :: t in FileFlow(c, toks).out ==> Traceable(c, t, Places(c, toks))
    decreases |toks|
  {
    hide RoundAt, CleanToken;
    if toks != [] && toks[0].kind != Eof {
      var r := RoundAt(c, toks);
      RoundIsTraceable(c, toks);
      if Consumed(r) > 0 {
        var rest := toks[Consumed(r)..];
        assert forall t :: t in rest ==> t in toks;
        FileIsTraceable(c, rest);
        assert FileFlow(c, toks) == Seq(RoundFlow(c, r), FileFlow(c, rest));
      }
    }
  }

  lemma {:induction false} LayeredIsLegible(toks: Tokens, inv: Span, names: set<string>)
    requires Layered(toks, inv, names)
    ensures AllLegible(toks)
  {
  }

  lemma {:induction false} RoundIsTraceable(c: Table, toks: Tokens)
    requires WellFormed(c) && Raw(toks) && toks != [] && toks[0].kind != Eof
    ensures
      var r := RoundAt(c, toks);
      forall t :: t in RoundFlow(c, r).out ==> Traceable(c, t, if r.Invocation? then [r.inv] else [])
  {
    hide CleanToken;
    var r := RoundAt(c, toks);
    if r.Invocation? {
      RoundIsLayered(c, toks);
      ExpansionIsLayered(c, r.replacement, {r.name}, r.inv);
      LayeredIsLegible(RoundFlow(c, r).out, r.inv, c.macros.Keys);
    } else {
      assert r.tok == toks[0];
      assert toks[0] in toks;
    }
  }

  // ---- What a file shows ----

  lemma {:induction false} RoundHasNoEof(c: Table, toks: Tokens)
    requires WellFormed(c) && toks != [] && toks[0].kind != Eof
    ensures NoEof(RoundFlow(c, RoundAt(c, toks)).out)
  {
    hide Substitute, Match, Collect, Window, Label, Orderly, Fit, RetainAll, Expand;
    WellFormedTable(c);
    var r, t := RoundAt(c, toks), toks[0];
    if r.Invocation? {
      var m := c.macros[t.text];
      assert WellDefined(m, t.text);
      if m.pattern.Some? {
        var w := Window(toks[1..], t.endsLine);
        WindowIsPrefix(toks[1..], t.endsLine);
        CapturesAvoidEof(m, w);
        var caps := Match(m.pattern.value, w).value.captures;
        SubstitutionHasNoEof(c.lex, m, Assign(m.pattern.value, m.paramSlots, caps, Empties(m.paramCount)), r.inv);
      } else if m.kind == FunctionLike {
        CollectedHaveNoEof(toks[2..]);
        var args, close := Collect(RetainAll(toks[2..])).value.args, toks[r.consumed - 1];
        FittedHaveNoEof(args, m.paramCount, close);
        SubstitutionHasNoEof(c.lex, m, Fit(args, m.paramCount, close), r.inv);
      }
      ExpansionHasNoEof(c, r.replacement, {r.name});
    }
  }

  /** Everything a file emits can be printed. */
  lemma {:induction false} FileIsPrintable(c: Table, toks: Tokens)
    requires WellFormed(c) && Raw(toks)
    ensures NoEof(FileFlow(c, toks).out) && Spelled(FileFlow(c, toks).out)
    decreases |toks|
  {
    FileHasNoEof(c, toks);
    FileIsTraceable(c, toks);
    forall t | t in FileFlow(c, toks).out ensures t.text != "" {
      assert Traceable(c, t, Places(c, toks));
      var i :| 0 <= i < |FileFlow(c, toks).out| && FileFlow(c, toks).out[i] == t;
    }
  }

  lemma {:induction false} FileHasNoEof(c: Table, toks: Tokens)
    requires WellFormed(c)
    ensures NoEof(FileFlow(c, toks).out)
    decreases |toks|
  {
    hide RoundAt;
    if toks != [] && toks[0].kind != Eof {
      var r := RoundAt(c, toks);
      RoundHasNoEof(c, toks);
      if Consumed(r) > 0 {
        FileHasNoEof(c, toks[Consumed(r)..]);
      }
    }
  }

  /** What a file's output is: the buffer spells the first tokens of its expansion up to
      the output limit, each token covers its own text, the output is cut off exactly
      when there are more of them or the nesting limit was met, and with the end of the
      file it holds at most one token more than the limit, starts strictly increasing. */
  lemma {:induction false} FileShowsItsExpansion(c: Table, toks: Tokens, max: nat)
    requires WellFormed(c) && Raw(toks)
    ensures
      var flow := FileFlow(c, toks);
      var e := Deliver(NOTHING, flow, max);
      && Shows(e, flow.out[..if |flow.out| <= max then |flow.out| else max]) && Spaced(e)
      && (e.truncated <==> |flow.out| > max || flow.cut)
      && Finished(WithEof(e), max)
  {
    hide FileFlow, Shows, Spaced, Finished;
    var flow := FileFlow(c, toks);
    FileIsPrintable(c, toks);
    OutputIsThePrefix(flow.out, max);
    var e, f := EmitAll(NOTHING, flow.out, max), Deliver(NOTHING, flow, max);
    var shown := flow.out[..if |flow.out| <= max then |flow.out| else max];
    SameTokens(e, f, shown);
    FinishedFrom(f, shown, max);
  }

  /** A file's output is cut by the nesting limit only with more macros than it allows. */
  lemma {:induction false} FileCutNeedsManyMacros(c: Table, toks: Tokens)
    requires WellFormed(c)
    ensures FileFlow(c, toks).cut ==> |c.macros| > c.maxDepth
    decreases |toks|
  {
    hide RoundAt;
    if toks != [] && toks[0].kind != Eof {
      var r := RoundAt(c, toks);
      if r.Invocation? {
        CutNeedsManyMacros(c, r.replacement, {r.name});
      }
      if Consumed(r) > 0 {
        FileCutNeedsManyMacros(c, toks[Consumed(r)..]);
      }
    }
  }

  // ---- The cursor's own loop ----

  method FitArguments(args: seq<Tokens>, count: nat, close: PTok) returns (r: seq<Tokens>)
    ensures r == Fit(args, count, close)
  {
    r := args;
    if |r| == 0 && count > 0 {
      r := [[]];
    }
    if |r| > count && count > 0 {
      var last := count - 1;
      var merged := r[last];
      var comma := CommaAt(close);
      var i := count;
      while i < |r|
        invariant count <= i <= |r|
        invariant Merge(merged, r[i..], comma) == Merge(r[last], r[count..], comma)
      {
        assert r[i..][0] == r[i] && r[i..][1..] == r[i + 1..];
        merged := merged + [comma] + r[i];
        i := i + 1;
      }
      r := r[..last] + [merged];
    }
  }

  lemma {:induction false} RestOfFile(f: Frame)
    requires f.Valid() && !f.AtEnd()
    ensures
      var toks := f.toks[f.pos..];
      && |toks| > 1 && toks[|toks| - 1].kind == Eof
      && NoEof(toks[..|toks| - 1]) && toks[0] == f.Cur() && toks[1..] == f.toks[f.pos + 1..]
  {
    var toks := f.toks[f.pos..];
    forall i | 0 <= i < |toks| - 1 ensures toks[i].kind != Eof {
      assert toks[i] == f.toks[..|f.toks| - 1][f.pos + i];
    }
  }

  /** One round: the cursor moves past what the round takes, and the output receives
      what it expands to. */
  method EmitActive(c: Table, o: Output, f: Frame) returns (inv: Option<Span>)
    requires WellFormed(c) && o.Valid() && f.Valid() && !f.AtEnd()
    modifies o, o.out, f
    ensures o.Valid() && f.Valid() && f.pos > old(f.pos)
    ensures o.out == old(o.out) || fresh(o.out)
    ensures
      var r := RoundAt(c, f.toks[old(f.pos)..]);
      && o.Now() == Deliver(old(o.Now()), RoundFlow(c, r), o.max)
      && f.pos == old(f.pos) + Consumed(r)
      && inv == if r.Invocation? then Some(r.inv) else None
  {
    hide Deliver, Expand, Emit, EmitAll, WellFormed, Substitute, Assign, ParamIndex, Label, Match, Collect, Fit;
    RestOfFile(f);
    WellFormedTable(c);
    ghost var toks := f.toks[f.pos..];
    ghost var r := RoundAt(c, toks);
    DeliverOne(o.Now(), toks[0], o.max);
    var tok := f.Advance();
    if tok.kind == Identifier && tok.text in c.macros {
      var m := c.macros[tok.text];
      if m.pattern.Some? {
        inv := ExpandPatternAt(c, o, f, tok, m);
        return;
      }
      if m.kind == ObjectLike {
        var place := Span(tok.file, tok.start, tok.end);
        BodyHasNoEof(c, m, tok.text, place);
        ExpandRun(c, o, WrapAll(m.body, place, m.name), {m.name}, 1);
        return Some(place);
      }
      if f.Cur().kind == LParen {
        inv := ExpandFunctionAt(c, o, f, tok, m);
        return;
      }
    }
    o.AppendOut(tok);
    return None;
  }

  lemma {:induction false} BodyHasNoEof(c: Table, m: Macro, name: string, inv: Span)
    requires WellFormed(c) && name in c.macros && m == c.macros[name]
    ensures NoEof(WrapAll(m.body, inv, m.name))
  {
    assert WellDefined(m, name);
  }

  lemma {:induction false} PatternRound(c: Table, toks: Tokens, m: Macro)
    requires toks != [] && toks[0].kind == Identifier && toks[0].text in c.macros && m == c.macros[toks[0].text]
    requires m.pattern.Some? && forall name :: name in c.macros ==> WellDefined(c.macros[name], name)
    ensures
      var t, w := toks[0], Window(toks[1..], toks[0].endsLine);
      var r := Match(m.pattern.value, w);
      && w <= toks[1..]
      && RoundAt(c, toks) ==
         if r.None? then Single(t)
         else
           var inv := Span(t.file, t.start, toks[r.value.length].end);
           Invocation(m.name, Substitute(c.lex, m, Assign(m.pattern.value, m.paramSlots, r.value.captures, Empties(m.paramCount)), inv),
                      r.value.length + 1, inv)
  {
    hide Match, Substitute, Assign, Label;
    assert WellDefined(m, toks[0].text);
    WindowIsPrefix(toks[1..], toks[0].endsLine);
  }

  /** The cursor stands behind the macro's name. */
  method ExpandPatternAt(c: Table, o: Output, f: Frame, tok: PTok, m: Macro) returns (inv: Option<Span>)
    requires WellFormed(c) && o.Valid() && f.Valid() && f.pos > 0 && f.toks[f.pos - 1] == tok
    requires tok.kind == Identifier && tok.text in c.macros && m == c.macros[tok.text] && m.pattern.Some?
    modifies o, o.out, f
    ensures o.Valid() && f.Valid()
    ensures o.out == old(o.out) || fresh(o.out)
    ensures
      var r := RoundAt(c, f.toks[old(f.pos) - 1..]);
      && o.Now() == Deliver(old(o.Now()), RoundFlow(c, r), o.max)
      && f.pos == old(f.pos) - 1 + Consumed(r)
      && inv == if r.Invocation? then Some(r.inv) else None
  {
    hide Deliver, Expand, Emit, EmitAll, Substitute, Assign, ParamIndex, Label, Match, RoundAt, Window, WellFormed;
    WellFormedTable(c);
    assert WellDefined(m, tok.text);
    ghost var toks := f.toks[f.pos - 1..];
    assert toks[1..] == f.toks[f.pos..] && toks[0] == tok;
    var w := Window(f.toks[f.pos..], tok.endsLine);
    WindowIsPrefix(f.toks[f.pos..], tok.endsLine);
    PatternRound(c, toks, m);
    var args, consumed, matched := MatchPattern(m, w);
    if !matched {
      DeliverOne(o.Now(), tok, o.max);
      o.AppendOut(tok);
      return None;
    }
    MatchAvoidsEof(m.pattern.value, w);
    EofIsOutside(f, w, consumed);
    var last := tok;
    var start := f.pos;
    while f.pos < start + consumed
      invariant f.Valid() && start <= f.pos <= start + consumed
      invariant last == f.toks[f.pos - 1]
      invariant o.Valid() && o.Now() == old(o.Now()) && o.out == old(o.out)
      decreases start + consumed - f.pos
    {
      assert w[f.pos - start] == f.toks[f.pos];
      last := f.Advance();
    }
    var place := Span(tok.file, tok.start, last.end);
    assert last == toks[consumed];
    CapturesAvoidEof(m, w);
    SubstitutionHasNoEof(c.lex, m, args, place);
    var replacement := SubstituteParams(c.lex, m, args, place);
    ExpandRun(c, o, replacement, {m.name}, 1);
    return Some(place);
  }

  lemma {:induction false} StopsShort(toks: Tokens, from: nat, to: nat)
    requires from < |toks| && to <= |toks| && toks[|toks| - 1].kind == Eof
    requires forall i :: from <= i < to ==> toks[i].kind != Eof
    ensures to <= |toks| - 1
  {
  }

  /** The cursor can take the matched tokens without reaching the end of the file. */
  lemma {:induction false} EofIsOutside(f: Frame, w: Tokens, consumed: nat)
    requires f.Valid() && w <= f.toks[f.pos..] && consumed <= |w| && NoEof(w[..consumed])
    ensures f.pos + consumed <= |f.toks| - 1
    ensures forall i :: f.pos <= i < f.pos + consumed ==> f.toks[i].kind != Eof
  {
    forall i | f.pos <= i < f.pos + consumed ensures f.toks[i].kind != Eof {
      assert f.toks[i] == w[..consumed][i - f.pos];
    }
    StopsShort(f.toks, f.pos, f.pos + consumed);
  }

  /** What a match takes never includes the end of the file. */
  lemma {:induction false} MatchAvoidsEof(p: Tokens, w: Tokens)
    requires Match(p, w).Some? && NoEof(p)
    ensures NoEof(w[..Match(p, w).value.length])
    decreases |p|
  {
    hide ParamIndex;
    var r := Match(p, w).value;
    if p != [] {
      assert p[0].kind != Eof;
      assert NoEof(p[1..]);
      hide NoEof, CaptureLength, Same;
      if Label(p[0]).Some? {
        var n := CaptureLength(w, [], p[1]).value;
        CaptureAvoidsEof(w, [], p[1]);
        MatchAvoidsEof(p[1..], w[n..]);
        PrefixJoins(w, n, r.length);
      } else {
        MatchAvoidsEof(p[1..], w[1..]);
        assert NoEof(w[..1]) by { OneIsNotEof(w, p[0]); }
        PrefixJoins(w, 1, r.length);
      }
    }
  }

  lemma {:induction false} OneIsNotEof(w: Tokens, t: PTok)
    requires w != [] && Same(w[0], t) && t.kind != Eof
    ensures NoEof(w[..1])
  {
  }

  lemma {:induction false} PrefixJoins(w: Tokens, n: nat, m: nat)
    requires n <= m <= |w| && NoEof(w[..n]) && NoEof(w[n..][..m - n])
    ensures NoEof(w[..m])
  {
    NoEofJoins(w[..n], w[n..][..m - n]);
    assert w[..m] == w[..n] + w[n..][..m - n];
  }

  lemma {:induction false} NoEofJoins(a: Tokens, b: Tokens)
    requires NoEof(a) && NoEof(b)
    ensures NoEof(a + b)
  {
  }

  lemma {:induction false} MatchCapturesAvoidEof(p: Tokens, w: Tokens)
    requires Match(p, w).Some?
    ensures NoneHasEof(Match(p, w).value.captures)
    decreases |p|
  {
    hide ParamIndex, NoEof;
    if p != [] {
      if Label(p[0]).Some? {
        CaptureAvoidsEof(w, [], p[1]);
        MatchCapturesAvoidEof(p[1..], w[CaptureLength(w, [], p[1]).value..]);
      } else {
        MatchCapturesAvoidEof(p[1..], w[1..]);
      }
    }
  }

  lemma {:induction false} CaptureAvoidsEof(w: Tokens, stack: seq<Kind>, delimiter: PTok)
    requires CaptureLength(w, stack, delimiter).Some?
    ensures NoEof(w[..CaptureLength(w, stack, delimiter).value])
    decreases |w|
  {
    var n := CaptureLength(w, stack, delimiter).value;
    if n > 0 {
      CaptureAvoidsEof(w[1..], Bracket(stack, w[0].kind).value, delimiter);
      assert w[..n] == [w[0]] + w[1..][..n - 1];
    }
  }

  lemma {:induction false} CapturesAvoidEof(m: Macro, w: Tokens)
    requires Slotted(m) && NoEof(m.pattern.value) && Match(m.pattern.value, w).Some?
    ensures NoneHasEof(Assign(m.pattern.value, m.paramSlots, Match(m.pattern.value, w).value.captures, Empties(m.paramCount)))
  {
    hide Label;
    MatchCapturesAvoidEof(m.pattern.value, w);
    AssignedHaveNoEof(m.pattern.value, m.paramSlots, Match(m.pattern.value, w).value.captures, Empties(m.paramCount));
  }

  /** The cursor stands at the parenthesis behind the macro's name. */
  method ExpandFunctionAt(c: Table, o: Output, f: Frame, tok: PTok, m: Macro) returns (inv: Option<Span>)
    requires WellFormed(c) && o.Valid() && f.Valid() && f.pos > 0 && f.toks[f.pos - 1] == tok
    requires tok.kind == Identifier && tok.text in c.macros && m == c.macros[tok.text]
    requires m.pattern.None? && m.kind == FunctionLike && f.toks[f.pos].kind == LParen
    modifies o, o.out, f
    ensures o.Valid() && f.Valid()
    ensures o.out == old(o.out) || fresh(o.out)
    ensures
      var r := RoundAt(c, f.toks[old(f.pos) - 1..]);
      && o.Now() == Deliver(old(o.Now()), RoundFlow(c, r), o.max)
      && f.pos == old(f.pos) - 1 + Consumed(r)
      && inv == if r.Invocation? then Some(r.inv) else None
  {
    hide Deliver, Expand, Emit, EmitAll, Substitute, Collect, Fit, RetainAll;
    WellFormedTable(c);
    assert WellDefined(m, tok.text);
    ghost var toks := f.toks[f.pos - 1..];
    assert toks[2..] == f.toks[f.pos + 1..] && toks[0] == tok && toks[1] == f.toks[f.pos];
    var paren := f.Advance();
    ghost var from := f.pos;
    var args, close, ok := f.CollectArgs();
    if !ok {
      AtTheEnd(f);
      DeliverOne(o.Now(), tok, o.max);
      o.AppendOut(tok);
      return None;
    }
    RetainedLength(f.toks[f.pos..]);
    CollectedHaveNoEof(f.toks[from..]);
    var fitted := FitArguments(args, m.paramCount, close.value);
    FittedHaveNoEof(args, m.paramCount, close.value);
    var place := Span(tok.file, tok.start, close.value.end);
    SubstitutionHasNoEof(c.lex, m, fitted, place);
    var replacement := SubstituteParams(c.lex, m, fitted, place);
    ExpandRun(c, o, replacement, {m.name}, 1);
    return Some(place);
  }

  lemma {:induction false} RetainedLength(toks: Tokens)
    ensures |RetainAll(toks)| == |toks|
  {
  }

  lemma {:induction false} NotYetEof(toks: Tokens, pos: nat)
    requires |toks| > 0 && NoEof(toks[..|toks| - 1])
    ensures pos < |toks| - 1 ==> toks[pos].kind != Eof
  {
    assert pos < |toks| - 1 ==> toks[pos] == toks[..|toks| - 1][pos];
  }

  lemma {:induction false} AtTheEnd(f: Frame)
    requires f.Valid() && f.AtEnd()
    ensures f.pos == |f.toks| - 1
  {
    NotYetEof(f.toks, f.pos);
  }

  /** The scan never takes the end of the file into an argument. */
  lemma {:induction false} CollectedHaveNoEof(toks: Tokens)
    ensures Collect(RetainAll(toks)).Some? ==> NoneHasEof(Collect(RetainAll(toks)).value.args)
  {
    var all := RetainAll(toks);
    if Collect(all).Some? && all[0].kind != RParen {
      ScanSkipsEof(all, 0, [], []);
    }
  }

  lemma {:induction false} ScanSkipsEof(toks: Tokens, depth: int, current: Tokens, args: seq<Tokens>)
    requires NoEof(current) && NoneHasEof(args) && Scan(toks, depth, current, args).Some?
    ensures NoneHasEof(Scan(toks, depth, current, args).value.args)
    decreases |toks|
  {
    if depth == 0 && toks[0].kind == RParen {
    } else if depth == 0 && toks[0].kind == Comma {
      ScanSkipsEof(toks[1..], 0, [], args + [current]);
    } else {
      ScanSkipsEof(toks[1..], depth + Delta(toks[0].kind), current + [toks[0]], args);
    }
  }

  lemma {:induction false} MergedHaveNoEof(last: Tokens, extras: seq<Tokens>, comma: PTok)
    requires NoEof(last) && NoneHasEof(extras) && comma.kind != Eof
    ensures NoEof(Merge(last, extras, comma))
    decreases |extras|
  {
    if extras != [] {
      assert extras[0] in extras;
      MergedHaveNoEof(last + [comma] + extras[0], extras[1..], comma);
    }
  }

  lemma {:induction false} FittedHaveNoEof(args: seq<Tokens>, count: nat, close: PTok)
    requires NoneHasEof(args)
    ensures NoneHasEof(Fit(args, count, close))
  {
    var some := if args == [] && count > 0 then [[]] else args;
    if |some| > count && count > 0 {
      assert some[count - 1] in some;
      MergedHaveNoEof(some[count - 1], some[count..], CommaAt(close));
    }
  }

  /** A file without directives: each round moves the cursor, so the loop ends, and the
      output is everything the rounds emit. */
  method ExpandFile(c: Table, o: Output, f: Frame) returns (invocations: seq<Span>)
    requires WellFormed(c) && o.Valid() && f.Valid() && f.pos == 0 && o.Now() == NOTHING
    modifies o, o.out, f
    ensures o.Valid() && f.Valid() && o.Now() == Deliver(NOTHING, FileFlow(c, f.toks), o.max)
    ensures invocations <= Places(c, f.toks)
    ensures !o.stopped ==> f.AtEnd() && invocations == Places(c, f.toks)
  {
    hide RoundAt, Deliver, Expand, Emit, EmitAll, RoundFlow, FileFlow, Places, WellFormed;
    invocations := [];
    assert f.toks[0..] == f.toks;
    while !f.AtEnd() && !o.stopped
      invariant f.Valid() && o.Valid()
      invariant o.out == old(o.out) || fresh(o.out)
      invariant Deliver(NOTHING, FileFlow(c, f.toks), o.max) == Deliver(o.Now(), FileFlow(c, f.toks[f.pos..]), o.max)
      invariant Places(c, f.toks) == invocations + Places(c, f.toks[f.pos..])
      decreases |f.toks| - f.pos
    {
      NextRound(c, f, o.Now(), o.max, invocations);
      var inv := EmitActive(c, o, f);
      if inv.Some? {
        invocations := invocations + [inv.value];
      }
    }
    EndOfFile(c, f.toks[f.pos..]);
    DeliverNothing(o.Now(), FileFlow(c, f.toks[f.pos..]), o.max);
  }

  lemma {:induction false} EndOfFile(c: Table, toks: Tokens)
    requires WellFormed(c)
    ensures toks != [] && toks[0].kind == Eof ==> FileFlow(c, toks) == Flow([], false) && Places(c, toks) == []
  {
  }

  lemma {:induction false} NextRound(c: Table, f: Frame, e: Emission, max: nat, places: seq<Span>)
    requires WellFormed(c) && f.Valid() && !f.AtEnd()
    ensures
      var toks := f.toks[f.pos..];
      var r := RoundAt(c, toks);
      var next := f.pos + Consumed(r);
      && f.pos < next <= |f.toks|
      && Deliver(e, FileFlow(c, toks), max) == Deliver(Deliver(e, RoundFlow(c, r), max), FileFlow(c, f.toks[next..]), max)
      && places + Places(c, toks) == (if r.Invocation? then places + [r.inv] else places) + Places(c, f.toks[next..])
  {
    hide Deliver, RoundFlow, RoundAt, FileFlow, Places, WellFormed;
    RestOfFile(f);
    WellFormedTable(c);
    var toks := f.toks[f.pos..];
    var r := RoundAt(c, toks);
    RoundMoves(c, toks);
    FileUnfolds(c, toks);
    assert toks[Consumed(r)..] == f.toks[f.pos + Consumed(r)..];
    DeliverInOrder(e, RoundFlow(c, r), FileFlow(c, toks[Consumed(r)..]), max);
  }

  lemma {:induction false} FileUnfolds(c: Table, toks: Tokens)
    requires WellFormed(c) && toks != [] && toks[0].kind != Eof && 0 < Consumed(RoundAt(c, toks)) <= |toks|
    ensures
      var r := RoundAt(c, toks);
      && FileFlow(c, toks) == Seq(RoundFlow(c, r), FileFlow(c, toks[Consumed(r)..]))
      && Places(c, toks) == (if r.Invocation? then [r.inv] else []) + Places(c, toks[Consumed(r)..])
  {
    hide RoundAt, RoundFlow;
  }

  lemma {:induction false} RoundMoves(c: Table, toks: Tokens)
    requires WellFormed(c) && |toks| > 1 && toks[0].kind != Eof
    ensures 0 < Consumed(RoundAt(c, toks)) <= |toks|
  {
    hide RoundAt;
  }

  /** An emitted token was written where its provenance says, or has on top the place of
      one of the file's own invocations; and it comes through no macro twice. */
  predicate TraceableOrigin(c: Table, o: Origin, places: seq<Span>) {
    && o.Origin? && NoRepeat(Through(o))
    && (Through(o) == [] || (o.span in places && NamesIn(o, c.macros.Keys)))
  }

  lemma {:induction false} OutputIsTraceable(c: Table, toks: Tokens, max: nat)
    requires WellFormed(c) && Raw(toks)
    ensures
      var e := Deliver(NOTHING, FileFlow(c, toks), max);
      forall o :: o in e.tokens ==> TraceableOrigin(c, o.origin, Places(c, toks))
  {
    hide TraceableOrigin;
    var flow := FileFlow(c, toks);
    FileIsTraceable(c, toks);
    forall t | t in flow.out ensures TraceableOrigin(c, Retain(t).origin, Places(c, toks)) {
      TraceableOnceRetained(c, t, Places(c, toks));
    }
    EmittedOrigins(c, NOTHING, flow.out, max, Places(c, toks));
  }

  lemma {:induction false} TraceableOnceRetained(c: Table, t: PTok, places: seq<Span>)
    requires Traceable(c, t, places)
    ensures TraceableOrigin(c, Retain(t).origin, places)
  {
    assert Through(Own(t)) == [];
  }

  lemma {:induction false} EmittedOrigins(c: Table, e: Emission, toks: Tokens, max: nat, places: seq<Span>)
    requires forall o :: o in e.tokens ==> TraceableOrigin(c, o.origin, places)
    requires forall t :: t in toks ==> TraceableOrigin(c, Retain(t).origin, places)
    ensures forall o :: o in EmitAll(e, toks, max).tokens ==> TraceableOrigin(c, o.origin, places)
    decreases |toks|
  {
    hide TraceableOrigin, Retain;
    if toks != [] {
      assert toks[0] in toks;
      EmittedOrigins(c, Emit(e, toks[0], max), toks[1..], max, places);
    }
  }
}
