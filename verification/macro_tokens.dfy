/** Tokens on their way through macro expansion: where they come from, and the macros
    they meet (preprocess/ptok.go, preprocess/macro.go, preprocess/expand.go). */
module MacroTokens {
  import opened Collections

  datatype Kind =
    | Identifier | MacroParam | LParen | RParen | LBracket | RBracket | LBrace | RBrace
    | Comma | Eof | OtherKind

  datatype Span = Span(file: nat, start: nat, end: nat)

  /** Provenance: the place a token was written, under one layer per macro it came
      through, outermost first. The innermost layer names no macro. */
  datatype Origin = Unknown | Origin(span: Span, macro: string, parent: Origin)

  datatype PTok = PTok(kind: Kind, text: string, file: nat, start: nat, end: nat, endsLine: bool, origin: Origin)

  /** The macros of a provenance chain, outermost first. */
  function Through(o: Origin): seq<string> {
    if o.Unknown? then []
    else (if o.macro == "" then [] else [o.macro]) + Through(o.parent)
  }

  predicate NoRepeat(names: seq<string>) {
    forall i, j :: 0 <= i < j < |names| ==> names[i] != names[j]
  }

  predicate NamesIn(o: Origin, names: set<string>) { forall n :: n in Through(o) ==> n in names }

  function Own(t: PTok): Origin { Origin(Span(t.file, t.start, t.end), "", Unknown) }

  /** A token keeps the provenance it has, or starts one at its own place. */
  function Retain(t: PTok): PTok {
    if t.origin.Unknown? then t.(origin := Own(t)) else t
  }

  function RetainAll(toks: seq<PTok>): seq<PTok> { seq(|toks|, i requires 0 <= i < |toks| => Retain(toks[i])) }

  /** One more layer, for a token that a macro's replacement contributes. */
  function Wrap(t: PTok, inv: Span, name: string): PTok {
    t.(origin := Origin(inv, name, if t.origin.Unknown? then Own(t) else t.origin))
  }

  function WrapAll(toks: seq<PTok>, inv: Span, name: string): seq<PTok> {
    seq(|toks|, i requires 0 <= i < |toks| => Wrap(toks[i], inv, name))
  }

  lemma {:induction false} WrappedThrough(t: PTok, inv: Span, name: string)
    requires name != ""
    ensures Through(Wrap(t, inv, name).origin) == [name] + Through(t.origin)
  {
    assert Through(Own(t)) == [];
  }

  datatype MacroKind = ObjectLike | FunctionLike

  datatype Macro = Macro(
    name: string, kind: MacroKind, textualBody: bool, paramCount: nat,
    paramSlots: map<nat, nat>, namedParams: map<string, nat>, flexible: bool,
    body: seq<PTok>, pattern: Option<seq<PTok>>)

  function Digit(c: char): nat
    requires '0' <= c <= '9'
  {
    (c - '0') as nat
  }

  function Digits(s: string, n: nat): Option<nat> {
    if s == "" then Some(n)
    else if '0' <= s[0] <= '9' then Digits(s[1..], n * 10 + Digit(s[0]))
    else None
  }

  /** The number of a positional label such as %0; "%%" and "%" are none. */
  function ParamIndex(text: string): Option<nat> {
    if text == "%%" then None
    else
      var digits := if text != "" && text[0] == '%' then text[1..] else text;
      if digits == "" then None else Digits(digits, 0)
  }

  /** The label a pattern token captures, if it captures. */
  function Label(t: PTok): Option<nat> {
    if t.kind == MacroParam then ParamIndex(t.text) else None
  }

  predicate NoEof(toks: seq<PTok>) { forall i :: 0 <= i < |toks| ==> toks[i].kind != Eof }

  /** Every token but the end of the file is written with something. */
  predicate Legible(t: PTok) { t.kind != Eof ==> t.text != "" }
}
