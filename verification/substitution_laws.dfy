/** What the replacement of a macro reads like with its arguments in place: piece by
    piece, for calls and for patterns, as tokens and as text (preprocess/expand.go,
    preprocess/pattern.go). */
module SubstitutionLaws {
  import opened Collections
  import opened MacroTokens
  import opened MacroArguments
  import opened MacroPatterns
  import opened MacroSubstitution

  /** The provenance of a token before the macro: what it came through, or its place. */
  function Before(t: PTok): Origin {
    if t.origin.Unknown? then Origin(Span(t.file, t.start, t.end), "", Unknown) else t.origin
  }

  /** The same tokens in the same order, each one layer deeper. */
  predicate Copies(out: Tokens, toks: Tokens, inv: Span, name: string) {
    |out| == |toks| && forall i :: 0 <= i < |toks| ==> out[i] == toks[i].(origin := Origin(inv, name, Before(toks[i])))
  }

  lemma {:induction false} WrappedCopies(toks: Tokens, inv: Span, name: string)
    ensures Copies(WrapAll(toks, inv, name), toks, inv, name)
  {
  }

  // ---- Token by token ----

  /** A replacement in two parts is substituted part by part. */
  lemma {:induction false} SubstitutionJoins(lex: Lexer, m: Macro, x: Tokens, y: Tokens, args: seq<Tokens>, inv: Span)
    requires !m.textualBody && m.body == x + y
    ensures Substitute(lex, m, args, inv) ==
            Substitute(lex, m.(body := x), args, inv) + Substitute(lex, m.(body := y), args, inv)
    ensures m.body == [] ==> Substitute(lex, m, args, inv) == []
  {
    hide WrapAll, Contribution;
    ContributionsJoin(m, x, y, args);
    ContributionsSame(m, m.(body := x), x, args);
    ContributionsSame(m, m.(body := y), y, args);
    WrapJoins(Contributions(m, x, args), Contributions(m, y, args), inv, m.name);
  }

  lemma {:induction false} ContributionsJoin(m: Macro, x: Tokens, y: Tokens, args: seq<Tokens>)
    ensures Contributions(m, x + y, args) == Contributions(m, x, args) + Contributions(m, y, args)
    decreases |x|
  {
    hide Contribution;
    if x == [] {
      assert x + y == y;
    } else {
      assert (x + y)[1..] == x[1..] + y;
      ContributionsJoin(m, x[1..], y, args);
    }
  }

  /** What a body contributes depends on the macro's parameters alone. */
  lemma {:induction false} ContributionsSame(m: Macro, n: Macro, body: Tokens, args: seq<Tokens>)
    requires m.paramSlots == n.paramSlots && m.namedParams == n.namedParams
    ensures Contributions(m, body, args) == Contributions(n, body, args)
    decreases |body|
  {
    hide ParamIndex;
    if body != [] {
      ContributionsSame(m, n, body[1..], args);
    }
  }

  /** The token stands for argument `i`. */
  predicate StandsFor(m: Macro, t: PTok, i: nat) {
    || (t.kind == MacroParam && exists n :: n in m.paramSlots && ParamIndex(t.text) == Some(n) && m.paramSlots[n] == i)
    || (t.kind == Identifier && t.text in m.namedParams && m.namedParams[t.text] == i)
  }

  /** A replacement that is one parameter, by label or by name, is its argument; nothing
      stands for an argument that is missing or a label that is not declared; and any
      other token stands for itself. */
  lemma {:induction false} OnePiece(lex: Lexer, m: Macro, t: PTok, args: seq<Tokens>, inv: Span)
    requires !m.textualBody && m.body == [t]
    ensures forall i: nat :: i < |args| && StandsFor(m, t, i) ==> Copies(Substitute(lex, m, args, inv), args[i], inv, m.name)
    ensures t.kind == MacroParam && ParamIndex(t.text).Some?
        && (ParamIndex(t.text).value in m.paramSlots ==> m.paramSlots[ParamIndex(t.text).value] >= |args|)
        ==> Substitute(lex, m, args, inv) == []
    ensures t.kind == Identifier && t.text in m.namedParams && m.namedParams[t.text] >= |args|
        ==> Substitute(lex, m, args, inv) == []
    ensures !(t.kind == MacroParam && ParamIndex(t.text).Some?) && !(t.kind == Identifier && t.text in m.namedParams)
        ==> Copies(Substitute(lex, m, args, inv), [t], inv, m.name)
  {
    hide ParamIndex;
    assert m.body[1..] == [];
    assert Contributions(m, m.body, args) == Contribution(m, t, args);
    WrappedCopies(Contribution(m, t, args), inv, m.name);
  }

  /** A call: what is written between the parentheses and the commas comes back where the
      replacement has the parameter. */
  lemma {:induction false} CallPutsArgument(
      lex: Lexer, m: Macro, args: seq<Tokens>, commas: Tokens, close: PTok, tail: Tokens, i: nat, inv: Span)
    requires !m.textualBody && |m.body| == 1 && StandsFor(m, m.body[0], i)
    requires i < |args| && |commas| == |args| - 1 && Commas(commas) && AllListable(args) && args != [[]]
    requires close.kind == RParen
    ensures
      var r := Collect(Join(args, commas) + [close] + tail);
      && r.Some? && r.value.rest == tail
      && Copies(Substitute(lex, m, r.value.args, inv), args[i], inv, m.name)
  {
    hide Substitute, ParamIndex, Join, Collect;
    CollectInvertsJoin(args, commas, close, tail);
    assert m.body == [m.body[0]];
    OnePiece(lex, m, m.body[0], args, inv);
  }

  /** A pattern that is its own replacement: a match is written out again as what was
      matched, exactly when repeated labels captured alike. */
  lemma {:induction false} PatternReproducesMatch(lex: Lexer, m: Macro, w: Tokens, inv: Span)
    requires !m.textualBody && Slotted(m) && m.body == m.pattern.value && OwnSlots(m.body, m.paramSlots, m.paramCount)
    requires forall t :: t in m.body && t.kind == Identifier ==> t.text !in m.namedParams
    requires Match(m.body, w).Some?
    ensures
      var r := Match(m.body, w).value;
      var args := Assign(m.body, m.paramSlots, r.captures, Empties(m.paramCount));
      var out, fill := Substitute(lex, m, args, inv), Fill(m.body, m.paramSlots, args);
      && |r.captures| == |Labels(m.body)|
      && Copies(out, fill, inv, m.name)
      && (Consistent(m.body, r.captures) ==> Alike(w[..r.length], out))
      && (Consistent(m.body, r.captures) <==>
            Alike(w[..r.length], out) && Instance(m.body, Fillings(m.body, m.paramSlots, args), fill))
  {
    hide Fill, Fillings, Match, Assign, Instance, Consistent, Contributions, Alike, WrapAll, Copies, Label;
    var r := Match(m.body, w).value;
    var args := Assign(m.body, m.paramSlots, r.captures, Empties(m.paramCount));
    var out, fill := Substitute(lex, m, args, inv), Fill(m.body, m.paramSlots, args);
    ReproducesExactly(m.body, m.paramSlots, w, Empties(m.paramCount));
    ContributionsFill(m, m.body, args);
    WrappedCopies(fill, inv, m.name);
    CopiesReadAlike(out, fill, inv, m.name);
    if Alike(w[..r.length], fill) {
      AlikeThrough(w[..r.length], fill, out);
    }
    if Alike(w[..r.length], out) {
      AlikeThrough(w[..r.length], out, fill);
    }
  }

  lemma {:induction false} ContributionsFill(m: Macro, body: Tokens, args: seq<Tokens>)
    requires OwnSlots(body, m.paramSlots, |args|)
    requires forall t :: t in body && t.kind == Identifier ==> t.text !in m.namedParams
    ensures Contributions(m, body, args) == Fill(body, m.paramSlots, args)
    decreases |body|
  {
    hide ParamIndex;
    if body != [] {
      assert body[0] in body;
      ContributionsFill(m, body[1..], args);
    }
  }

  lemma {:induction false} CopiesReadAlike(out: Tokens, toks: Tokens, inv: Span, name: string)
    requires Copies(out, toks, inv, name)
    ensures Alike(out, toks) && Alike(toks, out)
  {
  }

  lemma {:induction false} AlikeThrough(a: Tokens, b: Tokens, c: Tokens)
    requires Alike(a, b) && (Alike(b, c) || Alike(c, b))
    ensures Alike(a, c)
  {
  }

  // ---- As text ----

  /** A character of the replacement text, with the provenance of the token it is from. */
  datatype Mark = Mark(symbol: char, from: Option<Origin>)

  const GAP := Mark(' ', None)

  function Marked(t: PTok): seq<Mark> { seq(|t.text|, i requires 0 <= i < |t.text| => Mark(t.text[i], Some(Before(t)))) }

  /** One space if the run's first two tokens do not touch. */
  function Gap(toks: Tokens): seq<Mark> {
    if |toks| > 1 && toks[0].end != toks[1].start then [GAP] else []
  }

  /** A run as it was spaced. */
  function MarkedRun(toks: Tokens): seq<Mark> {
    if toks == [] then [] else Marked(toks[0]) + Gap(toks) + MarkedRun(toks[1..])
  }

  /** A declared label or a parameter's name is its argument's run; anything else, an
      undeclared label too, is its own text. */
  function MarkedPiece(m: Macro, t: PTok, args: seq<Tokens>): seq<Mark> {
    if t.kind == MacroParam && ParamIndex(t.text).Some? then
      var number := ParamIndex(t.text).value;
      if number !in m.paramSlots then Marked(t)
      else if m.paramSlots[number] < |args| then MarkedRun(args[m.paramSlots[number]]) else []
    else if t.text in m.namedParams then
      if m.namedParams[t.text] < |args| then MarkedRun(args[m.namedParams[t.text]]) else []
    else Marked(t)
  }

  function MarkedBody(m: Macro, body: Tokens, args: seq<Tokens>): seq<Mark> {
    if body == [] then [] else MarkedPiece(m, body[0], args) + Gap(body) + MarkedBody(m, body[1..], args)
  }

  function TextOf(marks: seq<Mark>): string { seq(|marks|, i requires 0 <= i < |marks| => marks[i].symbol) }

  /** A substitution of text is what the pieces read like one after the other, spaced as
      the replacement and the arguments were; and a token read there has the provenance
      of the token that its first character is from. */
  lemma {:induction false} TextReadsItsPieces(lex: Lexer, m: Macro, args: seq<Tokens>, inv: Span)
    requires m.textualBody
    ensures
      var out, marks := Substitute(lex, m, args, inv), MarkedBody(m, m.body, args);
      var read := lex(TextOf(marks));
      && |out| == |read|
      && forall i :: 0 <= i < |read| ==>
           && out[i].(file := read[i].file, origin := read[i].origin) == read[i] && out[i].file == inv.file
           && out[i].origin.Origin? && out[i].origin.span == inv && out[i].origin.macro == m.name
           && (read[i].start < |marks| && marks[read[i].start].from.Some? ==>
                 out[i].origin.parent == marks[read[i].start].from.value)
  {
    hide SpellBody, MarkedBody, Explains, TextOf, Marks;
    var marks, s := MarkedBody(m, m.body, args), SpellBody(m, args);
    SpellingExplains(m, args);
    var read := lex(s.text);
    forall i | 0 <= i < |read| && read[i].start < |marks| && marks[read[i].start].from.Some?
      ensures ParentAt(s.segments, read[i].start) == marks[read[i].start].from.value
    {
      ExplainedParent(s.segments, marks, read[i].start);
    }
  }

  /** Segment `k` is the first to end past an offset. */
  predicate Covers(segments: seq<Segment>, k: nat, at: nat) {
    k < |segments| && segments[k].end > at && forall j :: 0 <= j < k ==> segments[j].end <= at
  }

  ghost predicate ExplainsAt(segments: seq<Segment>, marks: seq<Mark>, at: nat)
    requires at < |marks|
  {
    marks[at].from.Some? ==> exists k: nat :: Covers(segments, k, at) && segments[k].parent == marks[at].from.value
  }

  /** The segments say of every character of a token what its provenance is. */
  ghost predicate Explains(segments: seq<Segment>, marks: seq<Mark>) {
    && (forall k :: 0 <= k < |segments| ==> segments[k].end <= |marks|)
    && forall at: nat :: at < |marks| ==> ExplainsAt(segments, marks, at)
  }

  /** The spelling so far is these marks. */
  ghost predicate Marks(s: Spelling, marks: seq<Mark>) { s.text == TextOf(marks) && Explains(s.segments, marks) }

  lemma {:induction false} ExplainedParent(segments: seq<Segment>, marks: seq<Mark>, at: nat)
    requires Explains(segments, marks) && at < |marks| && marks[at].from.Some?
    ensures ParentAt(segments, at) == marks[at].from.value
  {
    assert ExplainsAt(segments, marks, at);
    var k: nat :| Covers(segments, k, at) && segments[k].parent == marks[at].from.value;
    CursorFinds(segments, k, at);
  }

  lemma {:induction false} SpaceMarks(s: Spelling, marks: seq<Mark>)
    requires Marks(s, marks)
    ensures Marks(AddSpace(s), marks + [GAP])
  {
    forall at: nat | at < |marks| + 1 ensures ExplainsAt(s.segments, marks + [GAP], at) {
      if at < |marks| {
        assert ExplainsAt(s.segments, marks, at);
      }
    }
  }

  lemma {:induction false} ItemMarks(s: Spelling, marks: seq<Mark>, t: PTok)
    requires Marks(s, marks)
    ensures Marks(AddItem(s, t), marks + Marked(t))
  {
    var next, all := AddItem(s, t), marks + Marked(t);
    assert next.text == TextOf(all);
    forall at: nat | at < |all| ensures ExplainsAt(next.segments, all, at) {
      if at < |marks| {
        assert ExplainsAt(s.segments, marks, at);
        if all[at].from.Some? {
          var k: nat :| Covers(s.segments, k, at) && s.segments[k].parent == marks[at].from.value;
          assert Covers(next.segments, k, at);
        }
      } else {
        assert Covers(next.segments, |s.segments|, at);
        assert Retain(t).origin == Before(t);
      }
    }
  }

  /** The space in front of an item: the one behind the item before it. */
  function GapAt(toks: Tokens, i: nat): seq<Mark>
    requires i <= |toks|
  {
    if 0 < i < |toks| && toks[i - 1].end != toks[i].start then [GAP] else []
  }

  lemma {:induction false} GapIsAt(toks: Tokens, i: nat)
    requires i < |toks|
    ensures Gap(toks[i..]) == GapAt(toks, i + 1)
  {
  }

  lemma {:induction false} RunMarks(s: Spelling, marks: seq<Mark>, run: Tokens, i: nat)
    requires i <= |run| && Marks(s, marks)
    ensures Marks(AddRun(s, run, i), marks + GapAt(run, i) + MarkedRun(run[i..]))
    decreases |run| - i
  {
    hide Marks, Marked, Gap;
    if i < |run| {
      var at := if i > 0 && run[i - 1].end != run[i].start then AddSpace(s) else s;
      SpaceMarks(s, marks);
      assert marks + [] == marks;
      var spaced := marks + GapAt(run, i);
      ItemMarks(at, spaced, run[i]);
      RunMarks(AddItem(at, run[i]), spaced + Marked(run[i]), run, i + 1);
      GapIsAt(run, i);
      assert run[i..][1..] == run[i + 1..];
      assert spaced + (Marked(run[i]) + GapAt(run, i + 1) + MarkedRun(run[i + 1..]))
          == spaced + Marked(run[i]) + GapAt(run, i + 1) + MarkedRun(run[i + 1..]);
    } else {
      assert marks + GapAt(run, i) + MarkedRun(run[i..]) == marks;
    }
  }

  lemma {:induction false} PieceMarks(s: Spelling, marks: seq<Mark>, m: Macro, t: PTok, args: seq<Tokens>)
    requires Marks(s, marks)
    ensures
      var next :=
        if Slot(m, t).None? then AddItem(s, t)
        else if Slot(m, t).value < |args| then AddRun(s, args[Slot(m, t).value], 0)
        else s;
      Marks(next, marks + MarkedPiece(m, t, args))
  {
    hide Marks, Marked, ParamIndex, MarkedRun, AddRun;
    if Slot(m, t).None? {
      ItemMarks(s, marks, t);
    } else if Slot(m, t).value < |args| {
      var run := args[Slot(m, t).value];
      RunMarks(s, marks, run, 0);
      assert run[0..] == run && marks + [] == marks;
    } else {
      assert marks + [] == marks;
    }
  }

  lemma {:induction false} BodyMarks(s: Spelling, marks: seq<Mark>, m: Macro, args: seq<Tokens>, i: nat)
    requires i <= |m.body| && Marks(s, marks)
    ensures Marks(AddBody(s, m, args, i), marks + GapAt(m.body, i) + MarkedBody(m, m.body[i..], args))
    decreases |m.body| - i
  {
    hide Marks, MarkedPiece, Gap, Slot, AddRun;
    if i < |m.body| {
      var bt := m.body[i];
      var at := if i > 0 && m.body[i - 1].end != bt.start then AddSpace(s) else s;
      SpaceMarks(s, marks);
      assert marks + [] == marks;
      var spaced, piece := marks + GapAt(m.body, i), MarkedPiece(m, bt, args);
      PieceMarks(at, spaced, m, bt, args);
      var next :=
        if Slot(m, bt).None? then AddItem(at, bt)
        else if Slot(m, bt).value < |args| then AddRun(at, args[Slot(m, bt).value], 0)
        else at;
      BodyMarks(next, spaced + piece, m, args, i + 1);
      GapIsAt(m.body, i);
      assert m.body[i..][1..] == m.body[i + 1..];
      assert spaced + (piece + GapAt(m.body, i + 1) + MarkedBody(m, m.body[i + 1..], args))
          == spaced + piece + GapAt(m.body, i + 1) + MarkedBody(m, m.body[i + 1..], args);
    } else {
      assert marks + GapAt(m.body, i) + MarkedBody(m, m.body[i..], args) == marks;
    }
  }

  lemma {:induction false} SpellingExplains(m: Macro, args: seq<Tokens>)
    ensures Marks(SpellBody(m, args), MarkedBody(m, m.body, args))
    ensures SpellBody(m, args).text == TextOf(MarkedBody(m, m.body, args))
    ensures Explains(SpellBody(m, args).segments, MarkedBody(m, m.body, args))
  {
    hide AddBody, MarkedBody;
    assert TextOf([]) == "";
    assert Marks(Spelling("", []), []);
    BodyMarks(Spelling("", []), [], m, args, 0);
    assert m.body[0..] == m.body;
    assert [] + GapAt(m.body, 0) + MarkedBody(m, m.body, args) == MarkedBody(m, m.body, args);
  }

  // ---- Labels ----

  /** A number in decimal. */
  function Decimal(n: nat): string {
    if n < 10 then [Numeral(n)] else Decimal(n / 10) + [Numeral(n % 10)]
  }

  function Numeral(d: nat): char
    requires d < 10
  {
    "0123456789"[d]
  }

  /** A percent sign and a number is the label of that number. */
  lemma {:induction false} LabelsAreNumbers(n: nat)
    ensures ParamIndex("%" + Decimal(n)) == Some(n)
  {
    var text := "%" + Decimal(n);
    DecimalReads(n);
    assert text[1..] == Decimal(n);
  }

  lemma {:induction false} DecimalReads(n: nat)
    ensures Digits(Decimal(n), 0) == Some(n) && Decimal(n) != "" && Decimal(n) != "%" && Decimal(n)[0] != '%'
  {
    if n >= 10 {
      DecimalReads(n / 10);
      DigitsAppend(Decimal(n / 10), 0, Numeral(n % 10));
    } else {
      assert Digits(Decimal(n)[1..], n) == Some(n);
    }
  }

  lemma {:induction false} DigitsAppend(s: string, n: nat, d: char)
    requires Digits(s, n).Some? && '0' <= d <= '9'
    ensures Digits(s + [d], n) == Some(Digits(s, n).value * 10 + Digit(d))
    decreases |s|
  {
    if s == "" {
      assert (s + [d])[1..] == "";
    } else {
      assert (s + [d])[1..] == s[1..] + [d];
      DigitsAppend(s[1..], n * 10 + Digit(s[0]), d);
    }
  }
}
