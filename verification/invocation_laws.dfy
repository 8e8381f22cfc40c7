/** What a file without directives emits, invocation by invocation (preprocess/expand.go,
    preprocess/pattern.go, preprocess/engine.go). */
module InvocationLaws {
  import opened Collections
  import opened MacroTokens
  import opened MacroArguments
  import opened MacroPatterns
  import opened MacroSubstitution
  import opened MacroExpansion
  import opened MacroInvocations
  import opened SubstitutionLaws
  import opened ExpansionLaws

  // ---- Fitting arguments to parameters ----

  /** No argument counts as one empty one, and surplus arguments are one with the last,
      in order and with the commas between them. */
  predicate Fitted(args: seq<Tokens>, count: nat, close: PTok, fitted: seq<Tokens>) {
    if count > 0 && args == [] then fitted == [[]]
    else if 0 < count < |args| then
      var comma := PTok(Comma, ",", close.file, close.start, close.start, false, Unknown);
      fitted == args[..count - 1] + [Join(args[count - 1..], seq(|args| - count, _ => comma))]
    else fitted == args
  }

  lemma {:induction false} MergeIsJoin(last: Tokens, extras: seq<Tokens>, comma: PTok)
    ensures Merge(last, extras, comma) == Join([last] + extras, seq(|extras|, _ => comma))
    decreases |extras|
  {
    if extras != [] {
      MergeIsJoin(last + [comma] + extras[0], extras[1..], comma);
      var all, commas := [last] + extras, seq(|extras|, _ => comma);
      assert all[1..] == extras && commas[1..] == seq(|extras| - 1, _ => comma);
      JoinPrefix(last + [comma], extras, commas[1..]);
      assert [last + [comma] + extras[0]] + extras[1..] == [(last + [comma]) + extras[0]] + extras[1..];
    }
  }

  lemma {:induction false} JoinPrefix(front: Tokens, args: seq<Tokens>, commas: Tokens)
    requires |args| > 0 && |commas| == |args| - 1
    ensures Join([front + args[0]] + args[1..], commas) == front + Join(args, commas)
  {
    assert ([front + args[0]] + args[1..])[1..] == args[1..];
  }

  lemma {:induction false} FitIsFitted(args: seq<Tokens>, count: nat, close: PTok)
    ensures Fitted(args, count, close, Fit(args, count, close))
  {
    hide Join, Merge;
    if 0 < count < |args| {
      MergeIsJoin(args[count - 1], args[count..], CommaAt(close));
      assert args[count - 1..] == [args[count - 1]] + args[count..];
    }
  }

  /** Collecting the last argument of a fitted list again gives the surplus back. */
  lemma {:induction false} SurplusComesBack(args: seq<Tokens>, count: nat, close: PTok, tail: Tokens)
    requires AllListable(args) && 0 < count < |args| && close.kind == RParen
    ensures
      var fitted := Fit(args, count, close);
      && |fitted| == count && fitted[..count - 1] == args[..count - 1]
      && Collect(fitted[count - 1] + [close] + tail) == Some(Collected(args[count - 1..], tail))
  {
    hide Join, Fit, Collect;
    FitIsFitted(args, count, close);
    var surplus := args[count - 1..];
    forall i | 0 <= i < |surplus| ensures Listable(surplus[i]) {
      assert surplus[i] == args[count - 1 + i];
    }
    CollectInvertsJoin(surplus, seq(|args| - count, _ => CommaAt(close)), close, tail);
    assert surplus != [[]];
  }

  // ---- Invocations in a file ----

  /** The end of the file, and nowhere else one. */
  predicate IsFile(toks: Tokens) {
    toks != [] && toks[|toks| - 1].kind == Eof && NoEof(toks[..|toks| - 1])
  }

  /** The arguments as they were written, each token with the place it was written at. */
  predicate WrittenAs(args: seq<Tokens>, retained: seq<Tokens>) {
    && |retained| == |args|
    && forall i :: 0 <= i < |args| ==> ReadFrom(args[i], retained[i])
  }

  predicate ReadFrom(arg: Tokens, retained: Tokens) {
    |retained| == |arg| && forall i :: 0 <= i < |arg| ==> retained[i] == arg[i].(origin := Before(arg[i]))
  }

  /** A function-like macro's name with an argument list in the file: the arguments are
      fitted to the parameters. */
  ghost predicate FileCall(c: Table, toks: Tokens, name: string, replacement: Tokens, rest: Tokens) {
    && Names(c, toks, name) && c.macros[name].pattern.None? && c.macros[name].kind == FunctionLike
    && |toks| > 1 && toks[1].kind == LParen
    && exists args, commas, close :: FileCallWith(c, toks, name, replacement, rest, args, commas, close)
  }

  ghost predicate FileCallWith(
      c: Table, toks: Tokens, name: string, replacement: Tokens, rest: Tokens, args: seq<Tokens>, commas: Tokens, close: PTok)
    requires Names(c, toks, name) && |toks| > 1
  {
    && ArgumentList(args, commas, close)
    && toks == [toks[0], toks[1]] + Join(args, commas) + [close] + rest
    && exists retained, fitted :: FittedInto(c, toks[0], name, replacement, args, close, retained, fitted)
  }

  ghost predicate FittedInto(
      c: Table, t: PTok, name: string, replacement: Tokens, args: seq<Tokens>, close: PTok,
      retained: seq<Tokens>, fitted: seq<Tokens>)
    requires name in c.macros
  {
    var m := c.macros[name];
    && WrittenAs(args, retained) && Fitted(retained, m.paramCount, close, fitted)
    && replacement == Substitute(c.lex, m, fitted, Span(t.file, t.start, close.end))
  }

  /** An invocation stands at the cursor. */
  ghost predicate FileInvocation(c: Table, toks: Tokens, name: string, replacement: Tokens, rest: Tokens) {
    || ObjectCall(c, toks, name, replacement, rest)
    || FileCall(c, toks, name, replacement, rest)
    || PatternCall(c, toks, name, replacement, rest)
  }

  /** The name of a function-like macro and a parenthesis that starts no argument list. */
  ghost predicate OpenCall(c: Table, toks: Tokens) {
    && toks != [] && toks[0].kind == Identifier && toks[0].text in c.macros
    && c.macros[toks[0].text].pattern.None? && c.macros[toks[0].text].kind == FunctionLike
    && |toks| > 1 && toks[1].kind == LParen
    && forall replacement, rest :: !FileCall(c, toks, toks[0].text, replacement, rest)
  }

  lemma {:induction false} RetainedEach(args: seq<Tokens>, retained: seq<Tokens>)
    ensures WrittenAs(args, RetainEach(args))
    ensures WrittenAs(args, retained) ==> retained == RetainEach(args)
  {
    forall i | 0 <= i < |args| ensures ReadFrom(args[i], RetainEach(args)[i]) {
    }
    if WrittenAs(args, retained) {
      forall i | 0 <= i < |args| ensures retained[i] == RetainEach(args)[i] {
        assert ReadFrom(args[i], retained[i]);
      }
    }
  }

  lemma {:induction false} FitOnce(args: seq<Tokens>, count: nat, close: PTok, fitted: seq<Tokens>)
    requires Fitted(args, count, close, fitted)
    ensures fitted == Fit(args, count, close)
  {
    hide Fit, Join;
    FitIsFitted(args, count, close);
  }

  /** What a file's scan collects behind a name is what the run without the end of the
      file gives, with the places filled in. */
  lemma {:induction false} CollectInFile(toks: Tokens)
    requires IsFile(toks) && |toks| > 1 && toks[1].kind == LParen
    ensures |toks| > 2
    ensures
      var body, eof := toks[2..|toks| - 1], toks[|toks| - 1];
      var a, b := Collect(body), Collect(RetainAll(toks[2..]));
      && a.Some? == b.Some?
      && (a.Some? ==> b.value == Collected(RetainEach(a.value.args), RetainAll(a.value.rest) + [Retain(eof)]))
  {
    hide Collect, RetainEach;
    assert |toks| > 2;
    var body, eof := toks[2..|toks| - 1], toks[|toks| - 1];
    forall i | 0 <= i < |body| ensures body[i].kind != Eof {
      assert body[i] == toks[..|toks| - 1][i + 2];
    }
    FileAndRunAgree(body, Retain(eof));
    assert RetainAll(toks[2..]) == RetainAll(body) + [Retain(eof)];
  }

  /** An argument list in a file stands before the end of the file. */
  lemma {:induction false} ListBeforeEnd(toks: Tokens, args: seq<Tokens>, commas: Tokens, close: PTok, rest: Tokens)
    requires IsFile(toks) && |toks| > 2 && close.kind == RParen
    requires (args == [] && commas == []) || |commas| == |args| - 1
    requires toks == [toks[0], toks[1]] + Join(args, commas) + [close] + rest
    ensures rest != [] && rest == rest[..|rest| - 1] + [toks[|toks| - 1]]
    ensures toks[2..|toks| - 1] == Join(args, commas) + [close] + rest[..|rest| - 1]
  {
    hide Join;
    assert toks[|toks| - 1] == ([close] + rest)[|rest|];
    assert toks[2..] == Join(args, commas) + [close] + rest;
    assert toks[2..|toks| - 1] == toks[2..][..|toks| - 3];
  }

  lemma {:induction false} FileCallRounds(c: Table, toks: Tokens, name: string, replacement: Tokens, rest: Tokens)
    requires WellFormed(c) && IsFile(toks) && FileCall(c, toks, name, replacement, rest)
    ensures
      var r := RoundAt(c, toks);
      && r.Invocation? && r.name == name && r.replacement == replacement
      && r.consumed == |toks| - |rest| && toks[r.consumed..] == rest
  {
    hide Substitute, Collect, Join, Fit, Fitted, RetainEach, RetainAll, WrittenAs, Orderly;
    WellFormedTable(c);
    assert WellDefined(c.macros[name], name);
    var args, commas, close :| FileCallWith(c, toks, name, replacement, rest, args, commas, close);
    var retained, fitted :| FittedInto(c, toks[0], name, replacement, args, close, retained, fitted);
    CollectInFile(toks);
    ListBeforeEnd(toks, args, commas, close, rest);
    CollectInvertsJoin(args, commas, close, rest[..|rest| - 1]);
    RetainedEach(args, retained);
    FitOnce(retained, c.macros[name].paramCount, close, fitted);
    RetainedLength(rest[..|rest| - 1]);
    assert toks == ([toks[0], toks[1]] + Join(args, commas) + [close]) + rest;
    assert toks[|toks| - |rest| - 1] == close;
  }

  lemma {:induction false} ObjectRounds(c: Table, toks: Tokens, name: string, replacement: Tokens, rest: Tokens)
    requires WellFormed(c) && Raw(toks) && ObjectCall(c, toks, name, replacement, rest)
    ensures
      var r := RoundAt(c, toks);
      r.Invocation? && r.name == name && r.replacement == replacement && r.consumed == 1 && rest == toks[1..]
  {
    hide Copies, Orderly;
    assert toks[0] in toks;
    assert WellDefined(c.macros[name], name);
    WrappedCopies(c.macros[name].body, PlaceOf(toks[0], toks[0]), name);
    OnlyCopies(replacement, WrapAll(c.macros[name].body, PlaceOf(toks[0], toks[0]), name), c.macros[name].body,
               PlaceOf(toks[0], toks[0]), name);
  }

  /** For raw tokens a pattern at the cursor is found as in a run. */
  lemma {:induction false} PatternRounds(c: Table, toks: Tokens, name: string, replacement: Tokens, rest: Tokens)
    requires WellFormed(c) && Raw(toks) && PatternCall(c, toks, name, replacement, rest)
    ensures
      var r := RoundAt(c, toks);
      && r.Invocation? && r.name == name && r.replacement == replacement
      && r.consumed == |toks| - |rest| && rest == toks[r.consumed..]
  {
    hide PatternCall, Match, Window, Assign, Substitute, Orderly, Label;
    WellFormedTable(c);
    PatternIsInvoked(c, toks, {}, name, replacement, rest);
    PatternNames(c, toks, name, replacement, rest);
    assert toks[0] in toks;
  }

  lemma {:induction false} PatternNames(c: Table, toks: Tokens, name: string, replacement: Tokens, rest: Tokens)
    requires PatternCall(c, toks, name, replacement, rest)
    ensures Names(c, toks, name) && c.macros[name].pattern.Some?
  {
  }

  /** The rounds at the cursor are the invocations that stand there. */
  lemma {:induction false} InvocationRounds(c: Table, toks: Tokens, name: string, replacement: Tokens, rest: Tokens)
    requires WellFormed(c) && Raw(toks) && IsFile(toks) && FileInvocation(c, toks, name, replacement, rest)
    ensures toks[0].kind != Eof
    ensures
      var r := RoundAt(c, toks);
      && r.Invocation? && r.name == name && r.replacement == replacement
      && 0 < r.consumed == |toks| - |rest| && rest == toks[r.consumed..]
  {
    hide ObjectCall, FileCall, PatternCall, RoundAt, WellFormed, Raw, IsFile;
    WellFormedTable(c);
    if ObjectCall(c, toks, name, replacement, rest) {
      FrontIsName(c, toks, name, replacement, rest);
      ObjectRounds(c, toks, name, replacement, rest);
    } else if FileCall(c, toks, name, replacement, rest) {
      FrontIsName(c, toks, name, replacement, rest);
      FileCallRounds(c, toks, name, replacement, rest);
    } else {
      FrontIsName(c, toks, name, replacement, rest);
      PatternRounds(c, toks, name, replacement, rest);
    }
  }

  lemma {:induction false} FrontIsName(c: Table, toks: Tokens, name: string, replacement: Tokens, rest: Tokens)
    requires FileInvocation(c, toks, name, replacement, rest)
    ensures toks != [] && toks[0].kind == Identifier && toks[0].text == name
    ensures name in c.macros
  {
  }

  /** And every round that is an invocation is one of those. */
  lemma {:induction false} RoundIsInvocation(c: Table, toks: Tokens)
    requires WellFormed(c) && Raw(toks) && IsFile(toks) && toks[0].kind != Eof && RoundAt(c, toks).Invocation?
    ensures
      var r := RoundAt(c, toks);
      0 < r.consumed <= |toks| && FileInvocation(c, toks, r.name, r.replacement, toks[r.consumed..])
  {
    hide Substitute, Match, Collect, Assign, Window, Label, Join, Instance, Copies, Fit, Fitted, RetainAll, RetainEach, WrittenAs, Orderly;
    WellFormedTable(c);
    var r, t := RoundAt(c, toks), toks[0];
    var m := c.macros[t.text];
    assert WellDefined(m, t.text);
    assert t in toks;
    if m.pattern.Some? {
      assert WellDefined(m, t.text) && t.text !in {};
      assert Invoke(c, toks, {}) == Some(Call(m.name, r.replacement, r.consumed));
      InvokedIsInvocation(c, toks, {});
      InvocationByPattern(c, toks, m.name, r.replacement, toks[r.consumed..]);
    } else if m.kind == ObjectLike {
      WrappedCopies(m.body, PlaceOf(t, t), m.name);
      assert toks == [t] + toks[1..];
    } else {
      CallIsFileCall(c, toks);
    }
  }

  lemma {:induction false} InvocationByPattern(c: Table, toks: Tokens, name: string, replacement: Tokens, rest: Tokens)
    requires IsInvocation(c, toks, name, replacement, rest) && Names(c, toks, name) && c.macros[name].pattern.Some?
    ensures PatternCall(c, toks, name, replacement, rest)
  {
    hide CallWith, PatternWith, Copies;
  }

  lemma {:induction false} CallIsFileCall(c: Table, toks: Tokens)
    requires WellFormed(c) && IsFile(toks) && toks[0].kind == Identifier && toks[0].text in c.macros
    requires c.macros[toks[0].text].pattern.None? && c.macros[toks[0].text].kind == FunctionLike
    requires |toks| > 1 && toks[1].kind == LParen && Collect(RetainAll(toks[2..])).Some?
    ensures
      var r := RoundAt(c, toks);
      r.Invocation? && 0 < r.consumed <= |toks| && FileCall(c, toks, r.name, r.replacement, toks[r.consumed..])
  {
    hide Substitute, Collect, Join, Fit, Fitted, RetainAll, RetainEach, WrittenAs, Orderly;
    WellFormedTable(c);
    var r, t, eof := RoundAt(c, toks), toks[0], toks[|toks| - 1];
    var m := c.macros[t.text];
    assert WellDefined(m, t.text);
    CollectInFile(toks);
    var body := toks[2..|toks| - 1];
    var found := Collect(body).value;
    var commas, close := CollectIsJoined(body);
    var rest := found.rest + [eof];
    assert toks == [t, toks[1]] + body + [eof];
    assert toks == ([t, toks[1]] + Join(found.args, commas) + [close]) + rest;
    RetainedLength(found.rest);
    assert |toks| - |rest| == r.consumed;
    assert toks[r.consumed..] == rest && toks[r.consumed - 1] == close;
    RetainedEach(found.args, RetainEach(found.args));
    FitIsFitted(RetainEach(found.args), m.paramCount, close);
    assert FittedInto(c, t, m.name, r.replacement, found.args, close, RetainEach(found.args),
                      Fit(RetainEach(found.args), m.paramCount, close));
    assert toks == [t, toks[1]] + Join(found.args, commas) + [close] + rest;
    assert FileCallWith(c, toks, m.name, r.replacement, rest, found.args, commas, close);
  }

  // ---- One round ----

  /** An invocation in the file is replaced, and the file goes on behind it. */
  lemma {:induction false} FileInvocationIsReplaced(c: Table, toks: Tokens, name: string, replacement: Tokens, rest: Tokens)
    requires WellFormed(c) && Raw(toks) && IsFile(toks) && FileInvocation(c, toks, name, replacement, rest)
    ensures FileFlow(c, toks) == Seq(Expand(c, replacement, {name}), FileFlow(c, rest))
  {
    hide FileInvocation, RoundAt, WellFormed, Raw, IsFile, Expand;
    InvocationRounds(c, toks, name, replacement, rest);
  }

  ghost predicate FilePlain(c: Table, toks: Tokens) {
    forall name, replacement, rest :: !FileInvocation(c, toks, name, replacement, rest)
  }

  /** A call that is never closed leaves its name, and takes the rest of the file. */
  lemma {:induction false} OpenCallEndsFile(c: Table, toks: Tokens)
    requires WellFormed(c) && Raw(toks) && IsFile(toks) && OpenCall(c, toks)
    ensures FileFlow(c, toks) == Flow([toks[0]], false)
  {
    hide FileCall, Raw, WellFormed, Collect, RetainAll;
    WellFormedTable(c);
    var m := c.macros[toks[0].text];
    assert WellDefined(m, toks[0].text);
    if Collect(RetainAll(toks[2..])).Some? {
      CallIsFileCall(c, toks);
      NamedByFront(c, toks);
      assert false;
    }
    assert RoundAt(c, toks) == Unterminated(toks[0], |toks| - 1);
    assert toks[|toks| - 1..] == [toks[|toks| - 1]];
    EndOfFile(c, toks[|toks| - 1..]);
    FileUnfolds(c, toks);
  }

  lemma {:induction false} NamedByFront(c: Table, toks: Tokens)
    requires WellFormed(c) && toks != [] && toks[0].kind != Eof && RoundAt(c, toks).Invocation?
    ensures RoundAt(c, toks).name == toks[0].text
  {
    hide Orderly, Substitute, Match, Collect, Window, Fit, RetainAll;
    assert WellDefined(c.macros[toks[0].text], toks[0].text);
  }

  /** Anything else in the file is emitted as it is. */
  lemma {:induction false} FilePlainIsKept(c: Table, toks: Tokens)
    requires WellFormed(c) && Raw(toks) && IsFile(toks) && toks != [] && toks[0].kind != Eof
    requires FilePlain(c, toks) && !OpenCall(c, toks)
    ensures FileFlow(c, toks) == Seq(Flow([toks[0]], false), FileFlow(c, toks[1..]))
  {
    hide FileInvocation, FileCall, Raw, WellFormed, IsFile, RoundAt;
    WellFormedTable(c);
    var r := RoundAt(c, toks);
    if r.Invocation? {
      RoundIsInvocation(c, toks);
      assert false;
    }
    if r.Unterminated? {
      UnterminatedIsOpen(c, toks);
    }
    SingleIsFront(c, toks);
  }

  lemma {:induction false} SingleIsFront(c: Table, toks: Tokens)
    requires WellFormed(c) && toks != [] && toks[0].kind != Eof && !RoundAt(c, toks).Invocation?
    ensures RoundAt(c, toks).tok == toks[0]
  {
    hide Orderly, Substitute, Match, Collect, Window, Fit, RetainAll;
  }

  lemma {:induction false} UnterminatedIsOpen(c: Table, toks: Tokens)
    requires WellFormed(c) && Raw(toks) && IsFile(toks) && toks[0].kind != Eof && RoundAt(c, toks).Unterminated?
    ensures OpenCall(c, toks)
  {
    hide FileCall, Substitute, Match, Collect, Window, Fit, RetainAll, Orderly;
    forall replacement, rest ensures !FileCall(c, toks, toks[0].text, replacement, rest) {
      if FileCall(c, toks, toks[0].text, replacement, rest) {
        FileCallRounds(c, toks, toks[0].text, replacement, rest);
        assert false;
      }
    }
  }

  // ---- What is left in a file's expansion ----

  /** A token of the file itself that no invocation starts with, or one left inside the
      replacement of one of the file's invocations. */
  ghost predicate LeftInFile(c: Table, toks: Tokens, t: PTok) {
    || (exists at: nat :: at < |toks| && toks[at] == t && FilePlain(c, toks[at..]))
    || exists at: nat, name, replacement, rest :: LeftInside(c, toks, t, at, name, replacement, rest)
  }

  ghost predicate LeftInside(c: Table, toks: Tokens, t: PTok, at: nat, name: string, replacement: Tokens, rest: Tokens) {
    && at <= |toks| && FileInvocation(c, toks[at..], name, replacement, rest)
    && Left(c, replacement, {name}, t)
  }

  lemma {:induction false} LeftInFileLater(c: Table, toks: Tokens, t: PTok, at: nat)
    requires at <= |toks| && LeftInFile(c, toks[at..], t)
    ensures LeftInFile(c, toks, t)
  {
    hide FileInvocation, FilePlain, Left;
    if k: nat :| k < |toks[at..]| && toks[at..][k] == t && FilePlain(c, toks[at..][k..]) {
      assert toks[at..][k..] == toks[at + k..];
      assert toks[at + k] == t;
    } else {
      var k: nat, name, replacement, rest :| LeftInside(c, toks[at..], t, k, name, replacement, rest);
      assert toks[at..][k..] == toks[at + k..];
      assert LeftInside(c, toks, t, at + k, name, replacement, rest);
    }
  }

  lemma {:induction false} FileTail(toks: Tokens, at: nat)
    requires Raw(toks) && IsFile(toks) && at < |toks|
    ensures Raw(toks[at..]) && IsFile(toks[at..])
  {
    forall t | t in toks[at..] ensures t in toks {
    }
    forall i | 0 <= i < |toks[at..]| - 1 ensures toks[at..][i].kind != Eof {
      assert toks[at..][i] == toks[..|toks| - 1][at + i];
    }
  }

  /** Everything that a file's uncut expansion holds is left for a reason. */
  lemma {:induction false} FileEmitsWhatIsLeft(c: Table, toks: Tokens)
    requires WellFormed(c) && Raw(toks) && IsFile(toks) && !FileFlow(c, toks).cut
    ensures forall t :: t in FileFlow(c, toks).out ==> LeftInFile(c, toks, t)
    decreases |toks|
  {
    hide FileInvocation, RoundAt, WellFormed, Raw, IsFile, LeftInFile, Left, Expand;
    if toks != [] && toks[0].kind != Eof {
      WellFormedTable(c);
      FileGoesOn(toks);
      var r := RoundAt(c, toks);
      RoundMoves(c, toks);
      FileUnfolds(c, toks);
      var n := Consumed(r);
      if n < |toks| {
        FileTail(toks, n);
        FileEmitsWhatIsLeft(c, toks[n..]);
      }
      forall t | t in FileFlow(c, toks).out ensures LeftInFile(c, toks, t) {
        if t in FileFlow(c, toks[n..]).out {
          NothingAtTheEnd(c, toks, n);
          LeftInFileLater(c, toks, t, n);
        } else {
          RoundLeaves(c, toks, t);
        }
      }
    }
  }

  lemma {:induction false} FileGoesOn(toks: Tokens)
    requires IsFile(toks) && toks[0].kind != Eof
    ensures |toks| > 1
  {
  }

  lemma {:induction false} NothingAtTheEnd(c: Table, toks: Tokens, n: nat)
    requires WellFormed(c) && n <= |toks|
    ensures n == |toks| ==> FileFlow(c, toks[n..]).out == []
  {
  }

  lemma {:induction false} RoundLeaves(c: Table, toks: Tokens, t: PTok)
    requires WellFormed(c) && Raw(toks) && IsFile(toks) && toks != [] && toks[0].kind != Eof
    requires !RoundFlow(c, RoundAt(c, toks)).cut && t in RoundFlow(c, RoundAt(c, toks)).out
    ensures LeftInFile(c, toks, t)
  {
    hide FileInvocation, RoundAt, WellFormed, Raw, IsFile, Left, Expand;
    WellFormedTable(c);
    var r := RoundAt(c, toks);
    assert toks[0..] == toks;
    if r.Invocation? {
      RoundIsInvocation(c, toks);
      EmittedIsLeft(c, r.replacement, {r.name});
      assert LeftInside(c, toks, t, 0, r.name, r.replacement, toks[r.consumed..]);
    } else {
      SingleIsFront(c, toks);
      forall name, replacement, rest ensures !FileInvocation(c, toks, name, replacement, rest) {
        if FileInvocation(c, toks, name, replacement, rest) {
          InvocationRounds(c, toks, name, replacement, rest);
          assert false;
        }
      }
      assert FilePlain(c, toks[0..]);
    }
  }

  /** No object-like macro's name is in a file's uncut expansion but inside an invocation
      of that macro. */
  lemma {:induction false} FileReplacesObjectNames(c: Table, toks: Tokens, t: PTok)
    returns (at: nat, name: string, replacement: Tokens, rest: Tokens, names: seq<string>, run: Tokens)
    requires WellFormed(c) && Raw(toks) && IsFile(toks) && !FileFlow(c, toks).cut && t in FileFlow(c, toks).out
    requires Names(c, [t], t.text) && c.macros[t.text].pattern.None? && c.macros[t.text].kind == ObjectLike
    ensures at <= |toks| && FileInvocation(c, toks[at..], name, replacement, rest)
    ensures Nested(c, replacement, {name}, names, run) && t in run
    ensures t.text == name || t.text in names
  {
    hide FileInvocation, WellFormed, Raw, IsFile, FileFlow, Nested, Plain;
    FileEmitsWhatIsLeft(c, toks);
    if k: nat :| k < |toks| && toks[k] == t && FilePlain(c, toks[k..]) {
      ObjectStartsInvocation(c, toks[k..], t.text);
      assert false;
    }
    at, name, replacement, rest :| LeftInside(c, toks, t, at, name, replacement, rest);
    var i: nat;
    names, run, i :| LeftAt(c, replacement, {name}, t, names, run, i);
    ObjectIsPlainIffHidden(c, run[i..], Inside({name}, names), t.text);
    InsideIs({name}, names);
  }

  lemma {:induction false} ObjectStartsInvocation(c: Table, toks: Tokens, name: string)
    requires Names(c, toks, name) && c.macros[name].pattern.None? && c.macros[name].kind == ObjectLike
    ensures !FilePlain(c, toks)
  {
    hide Copies;
    var replacement := WrapAll(c.macros[name].body, PlaceOf(toks[0], toks[0]), name);
    WrappedCopies(c.macros[name].body, PlaceOf(toks[0], toks[0]), name);
    assert toks == [toks[0]] + toks[1..];
    assert FileInvocation(c, toks, name, replacement, toks[1..]);
  }
}
