/** A macro's replacement with its arguments in place, token by token or as text that
    is lexed again, and the provenance its tokens carry (preprocess/expand.go,
    preprocess/pattern.go). */
module MacroSubstitution {
  import opened Collections
  import opened MacroTokens
  import opened MacroArguments

  /** What one replacement token contributes: the argument of a parameter (nothing if
      there is none, or if the label is not declared), or itself. */
  function Contribution(m: Macro, bt: PTok, args: seq<Tokens>): Tokens {
    if bt.kind == MacroParam && ParamIndex(bt.text).Some? then
      var number := ParamIndex(bt.text).value;
      if number in m.paramSlots && m.paramSlots[number] < |args| then args[m.paramSlots[number]] else []
    else if bt.kind == Identifier && bt.text in m.namedParams then
      if m.namedParams[bt.text] < |args| then args[m.namedParams[bt.text]] else []
    else [bt]
  }

  function Contributions(m: Macro, body: Tokens, args: seq<Tokens>): Tokens {
    if body == [] then [] else Contribution(m, body[0], args) + Contributions(m, body[1..], args)
  }

  // ---- Substitution of text ----

  /** A piece of the replacement text: where it ends, and where it came from. */
  datatype Segment = Segment(end: nat, parent: Origin)

  datatype Spelling = Spelling(text: string, segments: seq<Segment>)

  function AddSpace(s: Spelling): Spelling { s.(text := s.text + " ") }

  function AddItem(s: Spelling, t: PTok): Spelling {
    Spelling(s.text + t.text, s.segments + [Segment(|s.text| + |t.text|, Retain(t).origin)])
  }

  /** A run keeps its spacing: one space wherever the source had any. */
  function AddRun(s: Spelling, run: Tokens, i: nat): Spelling
    requires i <= |run|
    decreases |run| - i
  {
    if i == |run| then s
    else
      var at := if i > 0 && run[i - 1].end != run[i].start then AddSpace(s) else s;
      AddRun(AddItem(at, run[i]), run, i + 1)
  }

  /** The argument slot of a replacement token. An undeclared label is no capture here
      and stays in the text. */
  function Slot(m: Macro, bt: PTok): Option<nat> {
    if bt.kind == MacroParam && ParamIndex(bt.text).Some? then
      var number := ParamIndex(bt.text).value;
      if number in m.paramSlots then Some(m.paramSlots[number]) else None
    else if bt.text in m.namedParams then Some(m.namedParams[bt.text])
    else None
  }

  function AddBody(s: Spelling, m: Macro, args: seq<Tokens>, i: nat): Spelling
    requires i <= |m.body|
    decreases |m.body| - i
  {
    if i == |m.body| then s
    else
      var bt := m.body[i];
      var at := if i > 0 && m.body[i - 1].end != bt.start then AddSpace(s) else s;
      var next :=
        if Slot(m, bt).None? then AddItem(at, bt)
        else if Slot(m, bt).value < |args| then AddRun(at, args[Slot(m, bt).value], 0)
        else at;
      AddBody(next, m, args, i + 1)
  }

  function SpellBody(m: Macro, args: seq<Tokens>): Spelling { AddBody(Spelling("", []), m, args, 0) }

  /** The provenance of the text at an offset: that of the first segment ending past
      it. */
  function ParentAt(segments: seq<Segment>, at: nat): Origin {
    if segments == [] then Unknown
    else if segments[0].end > at then segments[0].parent
    else ParentAt(segments[1..], at)
  }

  function Relexed(m: Macro, segments: seq<Segment>, items: Tokens, inv: Span): Tokens {
    seq(|items|, i requires 0 <= i < |items| =>
      items[i].(file := inv.file, origin := Origin(inv, m.name, ParentAt(segments, items[i].start))))
  }

  /** Reading a replacement text, without the end-of-file token. */
  type Lexer = string -> Tokens

  /** What a lexer promises: tokens in order, none of them empty or the end of the file. */
  ghost predicate Orderly(lex: Lexer) {
    forall s: string :: NoEof(lex(s)) && Ordered(lex(s)) && AllLegible(lex(s))
  }

  predicate AllLegible(toks: Tokens) { forall t :: t in toks ==> Legible(t) }

  predicate Ordered(toks: Tokens) {
    forall i, j :: 0 <= i < j < |toks| ==> toks[i].start <= toks[j].start
  }

  function Substitute(lex: Lexer, m: Macro, args: seq<Tokens>, inv: Span): Tokens {
    if m.textualBody then
      var s := SpellBody(m, args);
      Relexed(m, s.segments, lex(s.text), inv)
    else WrapAll(Contributions(m, m.body, args), inv, m.name)
  }

  // ---- The loops ----

  method SubstituteParams(lex: Lexer, m: Macro, args: seq<Tokens>, inv: Span) returns (out: Tokens)
    requires Orderly(lex)
    ensures out == Substitute(lex, m, args, inv)
  {
    if m.textualBody {
      out := SubstituteText(lex, m, args, inv);
      return;
    }
    out := SubstituteTokens(m, args, inv);
  }

  method SubstituteTokens(m: Macro, args: seq<Tokens>, inv: Span) returns (out: Tokens)
    ensures out == WrapAll(Contributions(m, m.body, args), inv, m.name)
  {
    hide Contributions, Contribution, WrapAll;
    out := [];
    var i := 0;
    ghost var done: Tokens := [];
    WrapJoins([], [], inv, m.name);
    FirstContribution(m, args);
    while i < |m.body|
      invariant 0 <= i <= |m.body|
      invariant Contributions(m, m.body, args) == done + Contributions(m, m.body[i..], args)
      invariant out == WrapAll(done, inv, m.name)
    {
      NextContribution(m, i, args, done);
      var part := Contribute(m, m.body[i], args, inv);
      WrapJoins(done, Contribution(m, m.body[i], args), inv, m.name);
      out := out + part;
      done := done + Contribution(m, m.body[i], args);
      i := i + 1;
    }
    LastContribution(m, args, done);
  }

  lemma {:induction false} FirstContribution(m: Macro, args: seq<Tokens>)
    ensures Contributions(m, m.body, args) == [] + Contributions(m, m.body[0..], args)
  {
    assert m.body[0..] == m.body;
  }

  lemma {:induction false} NextContribution(m: Macro, i: nat, args: seq<Tokens>, done: Tokens)
    requires i < |m.body|
    ensures done + Contributions(m, m.body[i..], args)
            == (done + Contribution(m, m.body[i], args)) + Contributions(m, m.body[i + 1..], args)
  {
    assert m.body[i..][0] == m.body[i] && m.body[i..][1..] == m.body[i + 1..];
  }

  lemma {:induction false} LastContribution(m: Macro, args: seq<Tokens>, done: Tokens)
    ensures done + Contributions(m, m.body[|m.body|..], args) == done
  {
  }

  /** One replacement token's share of the substitution. */
  method Contribute(m: Macro, bt: PTok, args: seq<Tokens>, inv: Span) returns (part: Tokens)
    ensures part == WrapAll(Contribution(m, bt, args), inv, m.name)
  {
    hide ParamIndex;
    if bt.kind == MacroParam && ParamIndex(bt.text).Some? {
      var number := ParamIndex(bt.text).value;
      if number in m.paramSlots && m.paramSlots[number] < |args| {
        return WrapAll(args[m.paramSlots[number]], inv, m.name);
      }
      return [];
    }
    if bt.kind == Identifier && bt.text in m.namedParams {
      if m.namedParams[bt.text] < |args| {
        return WrapAll(args[m.namedParams[bt.text]], inv, m.name);
      }
      return [];
    }
    return [Wrap(bt, inv, m.name)];
  }

  lemma {:induction false} WrapJoins(a: Tokens, b: Tokens, inv: Span, name: string)
    ensures WrapAll(a + b, inv, name) == WrapAll(a, inv, name) + WrapAll(b, inv, name)
    ensures |b| == 1 ==> WrapAll(b, inv, name) == [Wrap(b[0], inv, name)]
    ensures WrapAll([], inv, name) == []
  {
  }

  method SpellRun(s: Spelling, run: Tokens) returns (r: Spelling)
    ensures r == AddRun(s, run, 0)
  {
    r := s;
    var at := 0;
    while at < |run|
      invariant 0 <= at <= |run|
      invariant AddRun(r, run, at) == AddRun(s, run, 0)
    {
      if at > 0 && run[at - 1].end != run[at].start {
        r := AddSpace(r);
      }
      r := AddItem(r, run[at]);
      at := at + 1;
    }
  }

  /** Spell the replacement, lex it, and give every token the provenance of the segment
      it starts in, with one cursor that only moves forward. */
  method SubstituteText(lex: Lexer, m: Macro, args: seq<Tokens>, inv: Span) returns (out: Tokens)
    requires Orderly(lex)
    ensures
      var s := SpellBody(m, args);
      out == Relexed(m, s.segments, lex(s.text), inv)
  {
    hide ParamIndex, Orderly;
    var s := Spelling("", []);
    var index := 0;
    while index < |m.body|
      invariant 0 <= index <= |m.body|
      invariant AddBody(s, m, args, index) == SpellBody(m, args)
    {
      var item := m.body[index];
      if index > 0 && m.body[index - 1].end != item.start {
        s := AddSpace(s);
      }
      var slot := Slot(m, item);
      if slot.Some? {
        if slot.value < |args| {
          s := SpellRun(s, args[slot.value]);
        }
      } else {
        s := AddItem(s, item);
      }
      index := index + 1;
    }
    var items := lex(s.text);
    LexedInOrder(lex, s.text);
    out := AttachParents(m, s.segments, items, inv);
  }

  lemma {:induction false} LexedInOrder(lex: Lexer, s: string)
    requires Orderly(lex)
    ensures NoEof(lex(s)) && Ordered(lex(s)) && AllLegible(lex(s))
  {
  }

  method AttachParents(m: Macro, segments: seq<Segment>, items: Tokens, inv: Span) returns (out: Tokens)
    requires Ordered(items)
    ensures out == Relexed(m, segments, items, inv)
  {
    out := [];
    var segment, i := 0, 0;
    while i < |items|
      invariant 0 <= i <= |items| && 0 <= segment <= |segments|
      invariant out == Relexed(m, segments, items, inv)[..i]
      invariant forall j, k :: 0 <= j < segment && i <= k < |items| ==> segments[j].end <= items[k].start
    {
      while segment < |segments| && segments[segment].end <= items[i].start
        invariant 0 <= segment <= |segments|
        invariant forall j, k :: 0 <= j < segment && i <= k < |items| ==> segments[j].end <= items[k].start
      {
        segment := segment + 1;
      }
      var parent := if segment < |segments| then segments[segment].parent else Unknown;
      CursorFinds(segments, segment, items[i].start);
      out := out + [items[i].(file := inv.file, origin := Origin(inv, m.name, parent))];
      i := i + 1;
    }
  }

  /** The cursor stands at the first segment ending past the offset. */
  lemma {:induction false} CursorFinds(segments: seq<Segment>, k: nat, at: nat)
    requires k <= |segments|
    requires forall j :: 0 <= j < k ==> segments[j].end <= at
    requires k < |segments| ==> segments[k].end > at
    ensures ParentAt(segments, at) == if k < |segments| then segments[k].parent else Unknown
    decreases k
  {
    if k > 0 {
      forall j | 0 <= j < k - 1 ensures segments[1..][j].end <= at {
        assert segments[1..][j] == segments[j + 1];
      }
      CursorFinds(segments[1..], k - 1, at);
    }
  }

  // ---- Provenance of a substitution ----

  /** Legible tokens whose provenance names only the given macros, none twice. */
  predicate Clean(toks: Tokens, names: set<string>) {
    forall t :: t in toks ==> CleanToken(t, names)
  }

  predicate CleanToken(t: PTok, names: set<string>) {
    Legible(t) && NamesIn(t.origin, names) && NoRepeat(Through(t.origin))
  }

  predicate AllClean(args: seq<Tokens>, names: set<string>) { forall a :: a in args ==> Clean(a, names) }

  /** A replacement's own tokens are written, not expanded. */
  predicate Written(body: Tokens) { forall t :: t in body ==> WrittenToken(t) }

  predicate WrittenToken(t: PTok) { Legible(t) && Through(t.origin) == [] }

  /** Every token of the substitution has the invocation's span on top and one layer of
      the macro more than what it came from; nothing repeats if the macro was not
      already being expanded. */
  predicate Layered(toks: Tokens, inv: Span, names: set<string>) {
    forall t :: t in toks ==> t.origin.Origin? && t.origin.span == inv && CleanToken(t, names)
  }

  lemma {:induction false} OneLayerMore(o: Origin, inv: Span, name: string, names: set<string>)
    requires name != "" && name !in names && NamesIn(o, names) && NoRepeat(Through(o))
    ensures
      var w := Origin(inv, name, o);
      NamesIn(w, names + {name}) && NoRepeat(Through(w))
  {
    var w := Origin(inv, name, o);
    assert Through(w) == [name] + Through(o);
    forall i, j | 0 <= i < j < |Through(w)| ensures Through(w)[i] != Through(w)[j] {
      assert Through(w)[j] == Through(o)[j - 1];
      assert Through(o)[j - 1] in names;
      if i > 0 {
        assert Through(w)[i] == Through(o)[i - 1];
      }
    }
  }

  lemma {:induction false} WrapIsLayered(t: PTok, inv: Span, name: string, names: set<string>)
    requires name != "" && name !in names && CleanToken(t, names)
    ensures CleanToken(Wrap(t, inv, name), names + {name})
  {
    OneLayerMore(Retain(t).origin, inv, name, names) by {
      assert Through(Own(t)) == [];
    }
  }

  lemma {:induction false} ContributionsAreClean(m: Macro, body: Tokens, args: seq<Tokens>, names: set<string>)
    requires Written(body) && AllClean(args, names)
    ensures Clean(Contributions(m, body, args), names)
    decreases |body|
  {
    hide ParamIndex, CleanToken;
    if body != [] {
      assert body[0] in body;
      ContributionsAreClean(m, body[1..], args, names);
      var here := Contribution(m, body[0], args);
      assert here in args || here == [body[0]] || here == [];
      WrittenIsClean(body[0], names);
      assert Clean(here, names);
      assert forall t :: t in Contributions(m, body, args) ==> t in here || t in Contributions(m, body[1..], args);
    }
  }

  lemma {:induction false} WrittenIsClean(t: PTok, names: set<string>)
    ensures WrittenToken(t) ==> CleanToken(t, names)
  {
  }

  /** Segments of a replacement text carry clean provenance too. */
  predicate CleanSegments(segments: seq<Segment>, names: set<string>) {
    forall s :: s in segments ==> NamesIn(s.parent, names) && NoRepeat(Through(s.parent))
  }

  lemma {:induction false} AddItemClean(s: Spelling, t: PTok, names: set<string>)
    requires CleanSegments(s.segments, names) && CleanToken(t, names)
    ensures CleanSegments(AddItem(s, t).segments, names)
  {
    assert Through(Own(t)) == [];
  }

  lemma {:induction false} AddRunClean(s: Spelling, run: Tokens, i: nat, names: set<string>)
    requires i <= |run| && CleanSegments(s.segments, names) && Clean(run, names)
    ensures CleanSegments(AddRun(s, run, i).segments, names)
    decreases |run| - i
  {
    hide CleanSegments, CleanToken;
    if i < |run| {
      assert run[i] in run;
      var at := if i > 0 && run[i - 1].end != run[i].start then AddSpace(s) else s;
      AddItemClean(at, run[i], names);
      AddRunClean(AddItem(at, run[i]), run, i + 1, names);
    }
  }

  lemma {:induction false} AddBodyClean(s: Spelling, m: Macro, args: seq<Tokens>, i: nat, names: set<string>)
    requires i <= |m.body| && CleanSegments(s.segments, names) && Written(m.body) && AllClean(args, names)
    ensures CleanSegments(AddBody(s, m, args, i).segments, names)
    decreases |m.body| - i
  {
    hide CleanSegments, CleanToken, Slot, AddItem, AddRun;
    if i < |m.body| {
      var bt := m.body[i];
      assert bt in m.body;
      WrittenIsClean(bt, names);
      var at := if i > 0 && m.body[i - 1].end != bt.start then AddSpace(s) else s;
      if Slot(m, bt).None? {
        AddItemClean(at, bt, names);
        AddBodyClean(AddItem(at, bt), m, args, i + 1, names);
      } else if Slot(m, bt).value < |args| {
        assert args[Slot(m, bt).value] in args;
        AddRunClean(at, args[Slot(m, bt).value], 0, names);
        AddBodyClean(AddRun(at, args[Slot(m, bt).value], 0), m, args, i + 1, names);
      } else {
        AddBodyClean(at, m, args, i + 1, names);
      }
    }
  }

  lemma {:induction false} ParentIsClean(segments: seq<Segment>, at: nat, names: set<string>)
    requires CleanSegments(segments, names)
    ensures NamesIn(ParentAt(segments, at), names) && NoRepeat(Through(ParentAt(segments, at)))
    decreases |segments|
  {
    if segments != [] {
      assert segments[0] in segments;
      ParentIsClean(segments[1..], at, names);
    }
  }

  lemma {:induction false} SubstitutionIsLayered(
      lex: Lexer, m: Macro, args: seq<Tokens>, inv: Span, names: set<string>)
    requires Orderly(lex) && m.name != "" && m.name !in names && Written(m.body) && AllClean(args, names)
    ensures Layered(Substitute(lex, m, args, inv), inv, names + {m.name})
  {
    hide CleanToken, Orderly, CleanSegments, Contributions, ParentAt, NamesIn, NoRepeat, Written, AllClean, SpellBody;
    var all := Substitute(lex, m, args, inv);
    if m.textualBody {
      var s := SpellBody(m, args);
      SpellingIsClean(m, args, names);
      LexedInOrder(lex, s.text);
      forall t | t in all
        ensures t.origin.Origin? && t.origin.span == inv && CleanToken(t, names + {m.name})
      {
        var i :| 0 <= i < |all| && all[i] == t;
        var item := lex(s.text)[i];
        ParentIsClean(s.segments, item.start, names);
        RelexedIsClean(m, ParentAt(s.segments, item.start), item, inv, names);
      }
    } else {
      var src := Contributions(m, m.body, args);
      ContributionsAreClean(m, m.body, args, names);
      forall t | t in all
        ensures t.origin.Origin? && t.origin.span == inv && CleanToken(t, names + {m.name})
      {
        var i :| 0 <= i < |all| && all[i] == t;
        assert src[i] in src;
        WrapIsLayered(src[i], inv, m.name, names);
      }
    }
  }

  lemma {:induction false} SpellingIsClean(m: Macro, args: seq<Tokens>, names: set<string>)
    requires Written(m.body) && AllClean(args, names)
    ensures CleanSegments(SpellBody(m, args).segments, names)
  {
    AddBodyClean(Spelling("", []), m, args, 0, names);
  }

  lemma {:induction false} RelexedIsClean(m: Macro, parent: Origin, item: PTok, inv: Span, names: set<string>)
    requires m.name != "" && m.name !in names && NamesIn(parent, names) && NoRepeat(Through(parent)) && Legible(item)
    ensures CleanToken(item.(file := inv.file, origin := Origin(inv, m.name, parent)), names + {m.name})
  {
    OneLayerMore(parent, inv, m.name, names);
  }

  lemma {:induction false} SubstitutionHasNoEof(lex: Lexer, m: Macro, args: seq<Tokens>, inv: Span)
    requires Orderly(lex) && NoEof(m.body) && forall a :: a in args ==> NoEof(a)
    ensures NoEof(Substitute(lex, m, args, inv))
  {
    hide ParamIndex, SpellBody, Orderly, Contributions;
    if m.textualBody {
      LexedInOrder(lex, SpellBody(m, args).text);
    } else {
      ContributionsHaveNoEof(m, m.body, args);
    }
  }

  lemma {:induction false} ContributionsHaveNoEof(m: Macro, body: Tokens, args: seq<Tokens>)
    requires NoEof(body) && forall a :: a in args ==> NoEof(a)
    ensures NoEof(Contributions(m, body, args))
    decreases |body|
  {
    hide ParamIndex;
    if body != [] {
      var here := Contribution(m, body[0], args);
      assert here in args || here == [body[0]] || here == [];
      ContributionsHaveNoEof(m, body[1..], args);
    }
  }
}
