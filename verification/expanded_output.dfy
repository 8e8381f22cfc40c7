/** The synthesized output: the spellings of the emitted tokens, and where each stands
    (preprocess/expand.go, preprocess/engine.go, analysis.go). */
module ExpandedOutput {
  import opened Collections
  import opened MacroTokens
  import opened MacroArguments

  /** An emitted token: its place in the output buffer and where it came from. */
  datatype OutTok = OutTok(kind: Kind, start: nat, end: nat, origin: Origin)

  datatype Emission = Emission(tokens: seq<OutTok>, buf: string, count: nat, truncated: bool, stopped: bool)

  const NOTHING := Emission([], "", 0, false, false)

  /** What emitting one token changes: nothing once the output is cut off, and the
      token past the limit cuts it off. */
  function Emit(e: Emission, t: PTok, max: nat): Emission {
    if e.truncated then e
    else if e.count + 1 > max then e.(count := e.count + 1, truncated := true, stopped := true)
    else
      var buf := if |e.buf| > 0 then e.buf + " " else e.buf;
      Emission(e.tokens + [OutTok(t.kind, |buf|, |buf| + |t.text|, Retain(t).origin)],
               buf + t.text, e.count + 1, false, e.stopped)
  }

  function EmitAll(e: Emission, toks: Tokens, max: nat): Emission
    decreases |toks|
  {
    if toks == [] then e else EmitAll(Emit(e, toks[0], max), toks[1..], max)
  }

  lemma {:induction false} EmitAllSplits(e: Emission, a: Tokens, b: Tokens, max: nat)
    ensures EmitAll(e, a + b, max) == EmitAll(EmitAll(e, a, max), b, max)
    decreases |a|
  {
    hide Emit;
    if a == [] {
      assert a + b == b;
    } else {
      assert (a + b)[1..] == a[1..] + b;
      EmitAllSplits(Emit(e, a[0], max), a[1..], b, max);
    }
  }

  /** Once cut off, nothing more is emitted. */
  lemma {:induction false} NothingAfterTheCut(e: Emission, toks: Tokens, max: nat)
    requires e.truncated
    ensures EmitAll(e, toks, max) == e
    decreases |toks|
  {
    if toks != [] {
      NothingAfterTheCut(e, toks[1..], max);
    }
  }

  // ---- What the output is ----

  /** Spellings joined by single spaces. */
  function Spell(toks: Tokens): string {
    if toks == [] then ""
    else if |toks| == 1 then toks[0].text
    else Spell(toks[..|toks| - 1]) + " " + toks[|toks| - 1].text
  }

  predicate Spelled(toks: Tokens) { forall t :: t in toks ==> t.text != "" }

  /** The output is exactly these tokens: the buffer spells them, and each covers its
      own text and keeps its provenance. */
  ghost predicate Shows(e: Emission, toks: Tokens) {
    && |e.tokens| == |toks|
    && e.buf == Spell(toks)
    && forall i :: 0 <= i < |toks| ==> Covers(e, i, toks[i])
  }

  predicate Covers(e: Emission, i: nat, t: PTok)
    requires i < |e.tokens|
  {
    var o := e.tokens[i];
    && o.start <= o.end <= |e.buf| && e.buf[o.start..o.end] == t.text
    && o.kind == t.kind && o.origin == Retain(t).origin
  }

  /** Each token starts one space after the one before it. */
  predicate Spaced(e: Emission) {
    && (e.tokens == [] ==> e.buf == "")
    && (e.tokens != [] ==> e.tokens[0].start == 0 && e.tokens[|e.tokens| - 1].end == |e.buf|)
    && (forall i :: 0 <= i < |e.tokens| ==> e.tokens[i].start < e.tokens[i].end)
    && (forall i :: 0 <= i < |e.tokens| - 1 ==> e.tokens[i + 1].start == e.tokens[i].end + 1)
  }

  /** A longer output still covers what a shorter one did. */
  lemma {:induction false} CoversStay(e: Emission, f: Emission, i: nat, t: PTok)
    requires e.tokens <= f.tokens && e.buf <= f.buf && i < |e.tokens| && Covers(e, i, t)
    ensures Covers(f, i, t)
  {
    var o := e.tokens[i];
    assert f.buf[..|e.buf|] == e.buf;
    assert f.buf[o.start..o.end] == e.buf[o.start..o.end];
  }

  lemma {:induction false} EmitShows(e: Emission, toks: Tokens, t: PTok, max: nat)
    requires Shows(e, toks) && Spaced(e) && !e.truncated && e.count == |toks| < max && t.text != ""
    ensures Shows(Emit(e, t, max), toks + [t]) && Spaced(Emit(e, t, max))
    ensures !Emit(e, t, max).truncated && Emit(e, t, max).count == |toks| + 1
  {
    hide Covers, Spell, Emit, Spaced;
    var f := Emit(e, t, max);
    var all := toks + [t];
    EmitGrows(e, t, max);
    forall i | 0 <= i < |all| ensures Covers(f, i, all[i]) {
      if i < |toks| {
        CoversStay(e, f, i, toks[i]);
      }
    }
    SpellGrows(toks, t);
  }

  lemma {:induction false} SpellGrows(toks: Tokens, t: PTok)
    ensures Spell(toks + [t]) == if toks == [] then t.text else Spell(toks) + " " + t.text
  {
    assert (toks + [t])[..|toks|] == toks;
  }

  /** One more token: the output before it is a prefix, and it covers its own text. */
  lemma {:induction false} EmitGrows(e: Emission, t: PTok, max: nat)
    requires Spaced(e) && !e.truncated && e.count < max && t.text != ""
    ensures
      var f := Emit(e, t, max);
      && !f.truncated && f.count == e.count + 1 && Spaced(f)
      && |f.tokens| == |e.tokens| + 1 && e.tokens <= f.tokens && e.buf <= f.buf
      && Covers(f, |e.tokens|, t)
      && f.buf == if e.tokens == [] then t.text else e.buf + " " + t.text
  {
    if e.tokens != [] {
      NonEmptyBuffer(e);
    }
  }

  lemma {:induction false} NonEmptyBuffer(e: Emission)
    requires Spaced(e) && e.tokens != []
    ensures |e.buf| > 0
  {
    var n := |e.tokens| - 1;
    assert e.tokens[n].start < e.tokens[n].end;
  }

  /** Whatever is handed to the output: it shows the first tokens up to the limit, and
      is cut off exactly when there are more. */
  lemma {:induction false} OutputIsThePrefix(toks: Tokens, max: nat)
    requires Spelled(toks)
    ensures
      var e := EmitAll(NOTHING, toks, max);
      var n := if |toks| <= max then |toks| else max;
      && Shows(e, toks[..n]) && Spaced(e)
      && (e.truncated <==> |toks| > max) && |e.tokens| <= max
  {
    var n := if |toks| <= max then |toks| else max;
    UpToTheLimit(toks[..n], max);
    assert toks == toks[..n] + toks[n..];
    EmitAllSplits(NOTHING, toks[..n], toks[n..], max);
    var e := EmitAll(NOTHING, toks[..n], max);
    if n < |toks| {
      var f := Emit(e, toks[n], max);
      NothingAfterTheCut(f, toks[n..][1..], max);
      SameTokens(e, f, toks[..n]);
    }
  }

  lemma {:induction false} SameTokens(e: Emission, f: Emission, toks: Tokens)
    requires Shows(e, toks) && Spaced(e) && f.tokens == e.tokens && f.buf == e.buf
    ensures Shows(f, toks) && Spaced(f)
  {
    forall i | 0 <= i < |toks| ensures Covers(f, i, toks[i]) {
      assert Covers(e, i, toks[i]);
    }
  }

  lemma {:induction false} UpToTheLimit(toks: Tokens, max: nat)
    requires Spelled(toks) && |toks| <= max
    ensures
      var e := EmitAll(NOTHING, toks, max);
      Shows(e, toks) && Spaced(e) && !e.truncated && e.count == |toks|
    decreases |toks|
  {
    hide Emit;
    if toks != [] {
      var n := |toks| - 1;
      assert toks == toks[..n] + [toks[n]];
      assert forall t :: t in toks[..n] ==> t in toks;
      UpToTheLimit(toks[..n], max);
      EmitAllSplits(NOTHING, toks[..n], [toks[n]], max);
      var e := EmitAll(NOTHING, toks[..n], max);
      assert EmitAll(e, [toks[n]], max) == Emit(e, toks[n], max);
      EmitShows(e, toks[..n], toks[n], max);
    }
  }

  /** Starts strictly increase. */
  lemma {:induction false} StartsIncrease(e: Emission, i: nat, j: nat)
    requires Spaced(e) && i < j < |e.tokens|
    ensures e.tokens[i].end < e.tokens[j].start && e.tokens[i].start < e.tokens[j].start
    decreases j
  {
    assert e.tokens[i].start < e.tokens[i].end;
    if i + 1 < j {
      StartsIncrease(e, i, j - 1);
      assert e.tokens[j - 1].start < e.tokens[j - 1].end;
    }
    assert e.tokens[j - 1 + 1].start == e.tokens[j - 1].end + 1;
  }

  /** The end-of-file token closes the output. */
  function WithEof(e: Emission): Emission {
    if e.tokens != [] && e.tokens[|e.tokens| - 1].kind == Eof then e
    else e.(tokens := e.tokens + [OutTok(Eof, |e.buf|, |e.buf|, Unknown)])
  }

  /** At most one token more than the limit, the last one the end of the file, and
      starts strictly increasing. */
  predicate Finished(e: Emission, max: nat) {
    && 0 < |e.tokens| <= max + 1
    && e.tokens[|e.tokens| - 1] == OutTok(Eof, |e.buf|, |e.buf|, Unknown)
    && forall i, j :: 0 <= i < j < |e.tokens| ==> e.tokens[i].start < e.tokens[j].start
  }

  lemma {:induction false} FinishedFrom(e: Emission, toks: Tokens, max: nat)
    requires Shows(e, toks) && Spaced(e) && NoEof(toks) && |toks| <= max
    ensures Finished(WithEof(e), max)
  {
    var n := |e.tokens|;
    if n > 0 {
      assert Covers(e, n - 1, toks[n - 1]);
    }
    var f := WithEof(e);
    forall i, j | 0 <= i < j < |f.tokens| ensures f.tokens[i].start < f.tokens[j].start {
      if j < n {
        StartsIncrease(e, i, j);
      } else if i < n - 1 {
        StartsIncrease(e, i, n - 1);
      }
      if i < n {
        assert e.tokens[n - 1].start < e.tokens[n - 1].end;
      }
    }
  }

  /** With it, a finished output has at most one token more than the limit, and its
      starts still strictly increase. */
  lemma {:induction false} FinishedOutput(toks: Tokens, max: nat)
    requires Spelled(toks) && NoEof(toks)
    ensures Finished(WithEof(EmitAll(NOTHING, toks, max)), max)
  {
    hide Shows, Spaced, Finished;
    OutputIsThePrefix(toks, max);
    FinishedFrom(EmitAll(NOTHING, toks, max), toks[..if |toks| <= max then |toks| else max], max);
  }

  // ---- The output buffer ----

  /** The engine's output fields. The token buffer has a capacity of its own, which
      doubles when it is full but never passes the limit by more than one. */
  class Output {
    const max: nat
    var out: array<OutTok>
    var len: nat
    var buf: string
    var count: nat
    var truncated: bool
    var stopped: bool

    ghost predicate Valid()
      reads this, out
    {
      len <= out.Length <= max + 1 && len <= count && (!truncated ==> len == count) && len <= max
      && (stopped ==> truncated)
    }

    ghost function Now(): Emission
      requires Valid()
      reads this, out
    {
      Emission(out[..len], buf, count, truncated, stopped)
    }

    constructor (max: nat, sourceTokens: nat)
      ensures Valid() && fresh(out) && this.max == max && Now() == NOTHING
    {
      this.max := max;
      var capacity := if sourceTokens < max + 1 then sourceTokens else max + 1;
      out := new OutTok[capacity](_ => OutTok(Eof, 0, 0, Unknown));
      len, buf, count, truncated, stopped := 0, "", 0, false, false;
    }

    method AppendOut(t: PTok)
      requires Valid()
      modifies this, out
      ensures Valid() && Now() == Emit(old(Now()), t, max)
      ensures out == old(out) || fresh(out)
    {
      if truncated {
        return;
      }
      count := count + 1;
      if count > max {
        truncated := true;
        stopped := true;
        return;
      }
      if |buf| > 0 {
        buf := buf + " ";
      }
      var start := |buf|;
      buf := buf + t.text;
      var entry := OutTok(t.kind, start, start + |t.text|, Retain(t).origin);
      ghost var before := out[..len];
      ReserveOutputToken();
      out[len] := entry;
      len := len + 1;
      assert out[..len] == before + [entry];
    }

    /** Make room for one more token. */
    method ReserveOutputToken()
      requires len <= out.Length <= max + 1 && len < max
      modifies this`out
      ensures len < out.Length <= max + 1 && out[..len] == old(out[..len])
      ensures out == old(out) || fresh(out)
    {
      if len < out.Length {
        return;
      }
      var limit := max + 1;
      var capacity := if 64 < out.Length * 2 then out.Length * 2 else 64;
      if capacity > limit {
        capacity := limit;
      }
      var next := new OutTok[capacity](_ => OutTok(Eof, 0, 0, Unknown));
      forall i | 0 <= i < len {
        next[i] := out[i];
      }
      out := next;
    }

    /** Stop emitting for a reason other than the limit. */
    method Truncate()
      requires Valid()
      modifies this`truncated
      ensures Valid() && Now() == old(Now()).(truncated := true)
    {
      truncated := true;
    }
  }

  // ---- Finding the token of a node ----

  /** A token answers for a node when it covers the node's range and its provenance
      leads to a known file. */
  predicate Answers(t: OutTok, start: nat, end: nat, files: set<nat>) {
    t.start == start && t.end == end && t.origin.Origin? && t.origin.span.file in files
  }

  predicate Ascending(tokens: seq<OutTok>) {
    forall i, j :: 0 <= i < j < |tokens| ==> tokens[i].start <= tokens[j].start
  }

  /** The reference: look at every token in turn. */
  function FirstAnswer(tokens: seq<OutTok>, start: nat, end: nat, files: set<nat>): Option<Span> {
    if tokens == [] then None
    else if Answers(tokens[0], start, end, files) then Some(tokens[0].origin.span)
    else FirstAnswer(tokens[1..], start, end, files)
  }

  lemma {:induction false} SkipsUnanswering(tokens: seq<OutTok>, k: nat, start: nat, end: nat, files: set<nat>)
    requires k <= |tokens|
    requires forall i :: 0 <= i < k ==> !Answers(tokens[i], start, end, files)
    ensures FirstAnswer(tokens, start, end, files) == FirstAnswer(tokens[k..], start, end, files)
    decreases k
  {
    if k > 0 {
      assert tokens[1..][k - 1..] == tokens[k..];
      forall i | 0 <= i < k - 1 ensures !Answers(tokens[1..][i], start, end, files) {
        assert tokens[1..][i] == tokens[i + 1];
      }
      SkipsUnanswering(tokens[1..], k - 1, start, end, files);
    } else {
      assert tokens[0..] == tokens;
    }
  }

  /** Binary search for the first token that starts at or after the node, then the
      tokens that start with it: the same answer as looking at every token. */
  method MapSpan(tokens: seq<OutTok>, start: nat, end: nat, files: set<nat>) returns (r: Option<Span>)
    requires Ascending(tokens)
    ensures r == FirstAnswer(tokens, start, end, files)
  {
    var index, hi := 0, |tokens|;
    while index < hi
      invariant 0 <= index <= hi <= |tokens|
      invariant forall i :: 0 <= i < index ==> tokens[i].start < start
      invariant forall i :: hi <= i < |tokens| ==> tokens[i].start >= start
    {
      var mid := (index + hi) / 2;
      if tokens[mid].start >= start {
        hi := mid;
      } else {
        index := mid + 1;
      }
    }
    while index < |tokens| && tokens[index].start == start
      invariant 0 <= index <= |tokens|
      invariant forall i :: 0 <= i < index ==> !Answers(tokens[i], start, end, files)
      invariant forall i :: index <= i < |tokens| ==> tokens[i].start >= start
    {
      if Answers(tokens[index], start, end, files) {
        SkipsUnanswering(tokens, index, start, end, files);
        return Some(tokens[index].origin.span);
      }
      index := index + 1;
    }
    forall i | 0 <= i < |tokens| ensures !Answers(tokens[i], start, end, files) {
    }
    SkipsUnanswering(tokens, |tokens|, start, end, files);
    return None;
  }

  /** In an emitted output at most one token answers for a node, and the search finds
      it. */
  lemma {:induction false} TheOneTokenOfANode(e: Emission, i: nat, end: nat, files: set<nat>)
    requires Spaced(e) && i < |e.tokens| && Answers(e.tokens[i], e.tokens[i].start, end, files)
    ensures Ascending(e.tokens)
    ensures FirstAnswer(e.tokens, e.tokens[i].start, end, files) == Some(e.tokens[i].origin.span)
    ensures forall j :: 0 <= j < |e.tokens| && Answers(e.tokens[j], e.tokens[i].start, end, files) ==> j == i
  {
    forall a, b | 0 <= a < b < |e.tokens| ensures e.tokens[a].start < e.tokens[b].start {
      StartsIncrease(e, a, b);
    }
    SkipsUnanswering(e.tokens, i, e.tokens[i].start, end, files);
  }
}
