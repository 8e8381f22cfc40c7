/** Matching an invocation against a macro's pattern, as the inverse of writing the
    pattern with its captures filled in (preprocess/pattern.go). */
module MacroPatterns {
  import opened Collections
  import opened MacroTokens
  import opened MacroArguments

  predicate Same(a: PTok, b: PTok) { a.kind == b.kind && a.text == b.text }

  predicate Opens(k: Kind) { k == LParen || k == LBracket || k == LBrace }

  predicate Closes(k: Kind) { k == RParen || k == RBracket || k == RBrace }

  function Closer(k: Kind): Kind
    requires Opens(k)
  {
    if k == LParen then RParen else if k == LBracket then RBracket else RBrace
  }

  /** The brackets still open after a token; none if it closes the wrong one. */
  function Bracket(stack: seq<Kind>, k: Kind): Option<seq<Kind>> {
    if Opens(k) then Some(stack + [Closer(k)])
    else if Closes(k) then
      if stack == [] || stack[|stack| - 1] != k then None else Some(stack[..|stack| - 1])
    else Some(stack)
  }

  /** How many tokens a capture takes: up to its delimiter outside every bracket. */
  function CaptureLength(w: Tokens, stack: seq<Kind>, delimiter: PTok): (r: Option<nat>)
    ensures r.Some? ==> r.value < |w| && Same(w[r.value], delimiter) && w[r.value].kind != Eof
  {
    if w == [] || w[0].kind == Eof then None
    else if stack == [] && Same(w[0], delimiter) then Some(0)
    else
      var next := Bracket(stack, w[0].kind);
      if next.None? then None
      else
        var n := CaptureLength(w[1..], next.value, delimiter);
        if n.None? then None else Some(n.value + 1)
  }

  datatype Matched = Matched(captures: seq<Tokens>, length: nat)

  /** The captures in the order of the pattern, and the length of the invocation. A
      capture that ends the pattern never matches. */
  function Match(p: Tokens, w: Tokens): (r: Option<Matched>)
    ensures r.Some? ==> r.value.length <= |w|
    decreases |p|
  {
    if p == [] then Some(Matched([], 0))
    else if Label(p[0]).Some? then
      if |p| == 1 then None
      else
        var n := CaptureLength(w, [], p[1]);
        if n.None? then None
        else
          var m := Match(p[1..], w[n.value..]);
          if m.None? then None else Some(Matched([w[..n.value]] + m.value.captures, n.value + m.value.length))
    else if w == [] || !Same(w[0], p[0]) then None
    else
      var m := Match(p[1..], w[1..]);
      if m.None? then None else Some(m.value.(length := m.value.length + 1))
  }

  // ---- Instances of a pattern ----

  /** The open brackets after a run that never shows its delimiter outside every
      bracket; none if it does, or closes a wrong bracket, or contains the end. */
  function After(a: Tokens, stack: seq<Kind>, delimiter: PTok): Option<seq<Kind>> {
    if a == [] then Some(stack)
    else if a[0].kind == Eof || (stack == [] && Same(a[0], delimiter)) then None
    else
      var next := Bracket(stack, a[0].kind);
      if next.None? then None else After(a[1..], next.value, delimiter)
  }

  /** A capture's text: bracket-balanced, without the delimiter at its top level. */
  predicate Capturable(a: Tokens, delimiter: PTok) { After(a, [], delimiter) == Some([]) }

  /** What follows a capture starts with its delimiter. */
  predicate Delimits(rest: Tokens, delimiter: PTok) {
    rest != [] && rest[0].kind != Eof && Same(rest[0], delimiter)
  }

  /** The tokens are the pattern with a capturable run in place of each label, up to the
      next token of the pattern as it is spelled there. (A label right behind a label
      is delimited by its own spelling, which then starts its capture.) */
  predicate Instance(p: Tokens, captures: seq<Tokens>, w: Tokens)
    decreases |p|
  {
    if p == [] then captures == [] && w == []
    else if Label(p[0]).Some? then
      && |p| > 1 && captures != [] && captures[0] <= w && Capturable(captures[0], p[1])
      && Delimits(w[|captures[0]|..], p[1])
      && Instance(p[1..], captures[1..], w[|captures[0]|..])
    else w != [] && Same(w[0], p[0]) && Instance(p[1..], captures, w[1..])
  }

  lemma {:induction false} CaptureStopsAtDelimiter(a: Tokens, tail: Tokens, stack: seq<Kind>, delimiter: PTok)
    requires After(a, stack, delimiter) == Some([])
    requires tail != [] && tail[0].kind != Eof && Same(tail[0], delimiter)
    ensures CaptureLength(a + tail, stack, delimiter) == Some(|a|)
    decreases |a|
  {
    if a == [] {
      assert a + tail == tail;
    } else {
      assert (a + tail)[1..] == a[1..] + tail;
      CaptureStopsAtDelimiter(a[1..], tail, Bracket(stack, a[0].kind).value, delimiter);
    }
  }

  lemma {:induction false} CaptureIsCapturable(w: Tokens, stack: seq<Kind>, delimiter: PTok)
    requires CaptureLength(w, stack, delimiter).Some?
    ensures After(w[..CaptureLength(w, stack, delimiter).value], stack, delimiter) == Some([])
    decreases |w|
  {
    var n := CaptureLength(w, stack, delimiter).value;
    if n > 0 {
      var next := Bracket(stack, w[0].kind).value;
      CaptureIsCapturable(w[1..], next, delimiter);
      assert w[..n][1..] == w[1..][..n - 1];
    }
  }

  /** A capturable run in front of its delimiter is captured. */
  lemma {:induction false} MatchTakesCapture(p: Tokens, a: Tokens, rest: Tokens)
    requires |p| > 1 && Label(p[0]).Some? && Capturable(a, p[1]) && Delimits(rest, p[1])
    ensures
      var m := Match(p[1..], rest);
      Match(p, a + rest) ==
      if m.None? then None else Some(Matched([a] + m.value.captures, |a| + m.value.length))
  {
    hide After, ParamIndex, CaptureLength;
    CaptureStopsAtDelimiter(a, rest, [], p[1]);
    assert (a + rest)[|a|..] == rest && (a + rest)[..|a|] == a;
  }

  /** Matching an instance with anything behind it gives back its captures. */
  lemma {:induction false} MatchInvertsInstance(p: Tokens, captures: seq<Tokens>, w: Tokens, tail: Tokens)
    requires Instance(p, captures, w)
    ensures Match(p, w + tail) == Some(Matched(captures, |w|))
    decreases |p|
  {
    hide After, ParamIndex, Label, CaptureLength;
    if p != [] {
      var q := p[1..];
      if Label(p[0]).Some? {
        var a := captures[0];
        var rest := w[|a|..];
        assert w + tail == a + (rest + tail);
        MatchInvertsInstance(q, captures[1..], rest, tail);
        MatchTakesCapture(p, a, rest + tail);
        assert [a] + captures[1..] == captures;
      } else {
        assert (w + tail)[1..] == w[1..] + tail;
        MatchInvertsInstance(q, captures, w[1..], tail);
      }
    }
  }

  /** A pattern with tokens left takes tokens. */
  lemma {:induction false} LongEnough(p: Tokens, w: Tokens)
    requires Match(p, w).Some? && p != []
    ensures Match(p, w).value.length > 0
    decreases |p|
  {
    hide ParamIndex;
    if Label(p[0]).Some? {
      LongEnough(p[1..], w[CaptureLength(w, [], p[1]).value..]);
    }
  }

  /** Every successful match is such an instance. */
  lemma {:induction false} MatchIsInstance(p: Tokens, w: Tokens)
    requires Match(p, w).Some?
    ensures
      var m := Match(p, w).value;
      Instance(p, m.captures, w[..m.length])
    decreases |p|
  {
    hide After, ParamIndex;
    if p != [] {
      var m := Match(p, w).value;
      if Label(p[0]).Some? {
        var n := CaptureLength(w, [], p[1]).value;
        CaptureIsCapturable(w, [], p[1]);
        MatchIsInstance(p[1..], w[n..]);
        var inner := Match(p[1..], w[n..]).value;
        assert m.captures[0] == w[..n] && m.captures[1..] == inner.captures;
        assert w[..m.length][n..] == w[n..][..inner.length];
        assert w[..m.length][..n] == w[..n];
        LongEnough(p[1..], w[n..]);
        assert w[..m.length][n..][0] == w[n];
        assert Delimits(w[..m.length][n..], p[1]);
      } else {
        MatchIsInstance(p[1..], w[1..]);
        assert w[..m.length][1..] == w[1..][..m.length - 1];
      }
    } else {
      assert w[..0] == [];
    }
  }

  /** A match succeeds exactly on the instances followed by anything, so an invocation
      decomposes in at most one way. */
  lemma {:induction false} MatchesExactlyInstances(p: Tokens, w: Tokens, captures: seq<Tokens>, n: nat)
    requires n <= |w|
    ensures Match(p, w) == Some(Matched(captures, n)) <==> Instance(p, captures, w[..n])
  {
    if Instance(p, captures, w[..n]) {
      MatchInvertsInstance(p, captures, w[..n], w[n..]);
      assert w[..n] + w[n..] == w;
    }
    if Match(p, w).Some? {
      MatchIsInstance(p, w);
    }
  }

  // ---- What can be captured ----

  /** Tokens nested in brackets that match. */
  datatype Nest =
    | Empty
    | Bare(tok: PTok, rest: Nest)
    | Pair(opening: PTok, inside: Nest, closing: PTok, rest: Nest)

  function Flat(n: Nest): Tokens {
    match n
    case Empty => []
    case Bare(t, rest) => [t] + Flat(rest)
    case Pair(o, inside, c, rest) => [o] + Flat(inside) + [c] + Flat(rest)
  }

  predicate Matching(n: Nest) {
    match n
    case Empty => true
    case Bare(t, rest) =>
      t.kind !in {Eof, LParen, LBracket, LBrace, RParen, RBracket, RBrace} && Matching(rest)
    case Pair(o, inside, c, rest) =>
      && (o.kind, c.kind) in {(LParen, RParen), (LBracket, RBracket), (LBrace, RBrace)}
      && Matching(inside) && Matching(rest)
  }

  /** Outside every bracket nothing is spelled like the delimiter, an opening bracket
      neither. */
  predicate Avoids(n: Nest, delimiter: PTok) {
    match n
    case Empty => true
    case Bare(t, rest) => (t.kind, t.text) != (delimiter.kind, delimiter.text) && Avoids(rest, delimiter)
    case Pair(o, _, _, rest) => (o.kind, o.text) != (delimiter.kind, delimiter.text) && Avoids(rest, delimiter)
  }

  /** One token of a run, by what it does to the open brackets. */
  lemma {:induction false} AfterToken(a: Tokens, stack: seq<Kind>, delimiter: PTok)
    requires a != [] && a[0].kind != Eof && (stack != [] || !Same(a[0], delimiter))
    ensures Opens(a[0].kind) ==> After(a, stack, delimiter) == After(a[1..], stack + [Closer(a[0].kind)], delimiter)
    ensures Closes(a[0].kind) && stack != [] ==>
              After(a, stack, delimiter) ==
              if stack[|stack| - 1] == a[0].kind then After(a[1..], stack[..|stack| - 1], delimiter) else None
    ensures !Opens(a[0].kind) && !Closes(a[0].kind) ==> After(a, stack, delimiter) == After(a[1..], stack, delimiter)
  {
  }

  lemma {:induction false} NestPasses(n: Nest, tail: Tokens, stack: seq<Kind>, delimiter: PTok)
    requires Matching(n) && (stack != [] || Avoids(n, delimiter))
    ensures After(Flat(n) + tail, stack, delimiter) == After(tail, stack, delimiter)
    decreases n
  {
    hide After;
    match n
    case Empty => assert Flat(n) + tail == tail;
    case Bare(t, rest) =>
      AfterToken(Flat(n) + tail, stack, delimiter);
      assert (Flat(n) + tail)[1..] == Flat(rest) + tail;
      NestPasses(rest, tail, stack, delimiter);
    case Pair(o, inside, c, rest) =>
      var after := [c] + (Flat(rest) + tail);
      var within := stack + [Closer(o.kind)];
      FlatPair(o, inside, c, rest, tail);
      AfterToken(Flat(n) + tail, stack, delimiter);
      NestPasses(inside, after, within, delimiter);
      AfterToken(after, within, delimiter);
      assert after[1..] == Flat(rest) + tail && within[..|stack|] == stack;
      NestPasses(rest, tail, stack, delimiter);
  }

  lemma {:induction false} FlatPair(o: PTok, inside: Nest, c: PTok, rest: Nest, tail: Tokens)
    ensures var all := Flat(Pair(o, inside, c, rest)) + tail;
            all != [] && all[0] == o && all[1..] == Flat(inside) + ([c] + (Flat(rest) + tail))
  {
  }

  lemma {:induction false} FlatBare(t: PTok, rest: Nest, tail: Tokens)
    ensures var all := Flat(Bare(t, rest)) + tail;
            all != [] && all[0] == t && all[1..] == Flat(rest) + tail
  {
  }

  lemma {:induction false} FlatEmpty(tail: Tokens)
    ensures Flat(Empty) + tail == tail
  {
  }

  /** Inside a bracket the run gets to where it is closed. */
  lemma {:induction false} ReadsToClose(a: Tokens, stack: seq<Kind>, delimiter: PTok) returns (n: Nest, close: PTok, rest: Tokens)
    requires stack != [] && After(a, stack, delimiter) == Some([])
    ensures Matching(n) && a == Flat(n) + ([close] + rest) && close.kind == stack[|stack| - 1]
    ensures After(rest, stack[..|stack| - 1], delimiter) == Some([])
    decreases |a|
  {
    hide After, Flat;
    AfterStarts(a, stack, delimiter);
    AfterToken(a, stack, delimiter);
    var t := a[0];
    if Opens(t.kind) {
      var within := stack + [Closer(t.kind)];
      var inside, c, later := ReadsToClose(a[1..], within, delimiter);
      assert within[..|stack|] == stack;
      var more;
      more, close, rest := ReadsToClose(later, stack, delimiter);
      n := Pair(t, inside, c, more);
      FlatPair(t, inside, c, more, [close] + rest);
      SameRun(a, Flat(n) + ([close] + rest));
    } else if Closes(t.kind) {
      n, close, rest := Empty, t, a[1..];
      FlatEmpty([close] + rest);
      assert a == [t] + a[1..];
    } else {
      var more;
      more, close, rest := ReadsToClose(a[1..], stack, delimiter);
      n := Bare(t, more);
      FlatBare(t, more, [close] + rest);
      SameRun(a, Flat(n) + ([close] + rest));
    }
  }

  lemma {:induction false} SameRun(a: Tokens, b: Tokens)
    requires a != [] && b != [] && a[0] == b[0] && a[1..] == b[1..]
    ensures a == b
  {
    assert a == [a[0]] + a[1..] && b == [b[0]] + b[1..];
  }

  /** A run that leaves brackets open, and is to close them all, goes on. */
  lemma {:induction false} AfterStarts(a: Tokens, stack: seq<Kind>, delimiter: PTok)
    requires After(a, stack, delimiter) == Some([])
    ensures stack != [] ==> a != []
    ensures a != [] ==> a[0].kind != Eof && (stack != [] || (!Same(a[0], delimiter) && !Closes(a[0].kind)))
  {
  }

  lemma {:induction false} ReadsAsNest(a: Tokens, delimiter: PTok) returns (n: Nest)
    requires Capturable(a, delimiter)
    ensures Matching(n) && Avoids(n, delimiter) && Flat(n) == a
    decreases |a|
  {
    hide After, Flat;
    AfterStarts(a, [], delimiter);
    if a == [] {
      n := Empty;
      FlatEmpty([]);
    } else {
      AfterToken(a, [], delimiter);
      if Opens(a[0].kind) {
        var within := [Closer(a[0].kind)];
        assert [] + within == within && within[..0] == [];
        var inside, c, later := ReadsToClose(a[1..], within, delimiter);
        var more := ReadsAsNest(later, delimiter);
        n := Pair(a[0], inside, c, more);
        FlatPair(a[0], inside, c, more, []);
        assert Flat(more) + [] == Flat(more);
      } else {
        var more := ReadsAsNest(a[1..], delimiter);
        n := Bare(a[0], more);
        FlatBare(a[0], more, []);
        assert Flat(more) + [] == Flat(more);
      }
      assert Flat(n) + [] == Flat(n);
      SameRun(a, Flat(n));
    }
  }

  /** A run can be captured exactly when its brackets match, kind by kind, and its
      delimiter is not spelled in it outside every bracket. */
  lemma {:induction false} CapturableExactly(a: Tokens, delimiter: PTok)
    ensures Capturable(a, delimiter) <==> exists n :: Matching(n) && Avoids(n, delimiter) && Flat(n) == a
  {
    if Capturable(a, delimiter) {
      var n := ReadsAsNest(a, delimiter);
    }
    if n :| Matching(n) && Avoids(n, delimiter) && Flat(n) == a {
      NestPasses(n, [], [], delimiter);
      assert a + [] == a;
    }
  }

  /** A pattern of one token that captures nothing matches that kind and text. */
  lemma {:induction false} LiteralExactly(t: PTok, w: Tokens)
    requires Label(t).None?
    ensures Match([t], w).Some? <==> w != [] && w[0].kind == t.kind && w[0].text == t.text
  {
    hide ParamIndex, Label;
    assert [t][1..] == [];
  }

  // ---- Which argument a capture becomes ----

  /** A macro's slots give every label of its pattern a place among its arguments. */
  predicate Slotted(m: Macro) {
    && m.pattern.Some?
    && forall t :: t in m.pattern.value && Label(t).Some? ==>
         Label(t).value in m.paramSlots && m.paramSlots[Label(t).value] < m.paramCount
  }

  /** Captures in pattern order, stored by label: a repeated label keeps its last. */
  function Assign(p: Tokens, slots: map<nat, nat>, captures: seq<Tokens>, args: seq<Tokens>): (r: seq<Tokens>)
    requires forall t :: t in p && Label(t).Some? ==> Label(t).value in slots && slots[Label(t).value] < |args|
    ensures |r| == |args|
    decreases |p|
  {
    if p == [] || captures == [] then args
    else if Label(p[0]).Some? then
      Assign(p[1..], slots, captures[1..], args[slots[Label(p[0]).value] := captures[0]])
    else Assign(p[1..], slots, captures, args)
  }

  /** Numbering the labels of a pattern when its macro is defined: each label gets a
      slot of its own, in order of first appearance. */
  method AssignSlots(p: Tokens) returns (slots: map<nat, nat>, count: nat)
    ensures forall t :: t in p && Label(t).Some? ==> Label(t).value in slots
    ensures forall l :: l in slots ==> slots[l] < count && l in Labels(p)
    ensures forall a, b :: a in slots && b in slots && slots[a] == slots[b] ==> a == b
    ensures |slots| == count
  {
    hide ParamIndex, Label;
    slots, count := map[], 0;
    var i := 0;
    while i < |p|
      invariant 0 <= i <= |p|
      invariant forall t :: t in p[..i] && Label(t).Some? ==> Label(t).value in slots
      invariant forall l :: l in slots ==> slots[l] < count && l in Labels(p)
      invariant forall a, b :: a in slots && b in slots && slots[a] == slots[b] ==> a == b
      invariant |slots| == count
    {
      LabelsHold(p, i);
      assert p[..i + 1] == p[..i] + [p[i]];
      if Label(p[i]).Some? && Label(p[i]).value !in slots {
        slots := slots[Label(p[i]).value := count];
        count := count + 1;
      }
      i := i + 1;
    }
    assert p[..i] == p;
  }

  lemma {:induction false} LabelsHold(p: Tokens, i: nat)
    requires i < |p|
    ensures Label(p[i]).Some? ==> Label(p[i]).value in Labels(p)
    decreases i
  {
    hide ParamIndex;
    if i > 0 {
      assert p[i] == p[1..][i - 1];
      LabelsHold(p[1..], i - 1);
    }
  }

  function Empties(n: nat): seq<Tokens> { seq(n, _ => []) }

  /** The pattern's labels, in order. */
  function Labels(p: Tokens): seq<nat> {
    if p == [] then []
    else (if Label(p[0]).Some? then [Label(p[0]).value] else []) + Labels(p[1..])
  }

  lemma {:induction false} InstanceCounts(p: Tokens, captures: seq<Tokens>, w: Tokens)
    requires Instance(p, captures, w)
    ensures |captures| == |Labels(p)|
    decreases |p|
  {
    hide After, ParamIndex;
    if p != [] {
      if Label(p[0]).Some? {
        InstanceCounts(p[1..], captures[1..], w[|captures[0]|..]);
      } else {
        InstanceCounts(p[1..], captures, w[1..]);
      }
    }
  }

  /** Each label's argument is the capture of its last occurrence; with distinct labels
      and slots that is its only one. */
  lemma {:induction false} AssignedArguments(
      p: Tokens, slots: map<nat, nat>, captures: seq<Tokens>, args: seq<Tokens>, i: nat)
    requires forall t :: t in p && Label(t).Some? ==> Label(t).value in slots && slots[Label(t).value] < |args|
    requires forall a, b :: a in slots && b in slots && slots[a] == slots[b] ==> a == b
    requires i < |Labels(p)| == |captures|
    requires forall j :: i < j < |captures| ==> Labels(p)[j] != Labels(p)[i]
    ensures Labels(p)[i] in slots && slots[Labels(p)[i]] < |args|
    ensures Assign(p, slots, captures, args)[slots[Labels(p)[i]]] == captures[i]
    decreases |p|
  {
    hide ParamIndex;
    var ls := Labels(p);
    assert p[0] in p;
    if Label(p[0]).Some? {
      var qs := Labels(p[1..]);
      assert ls == [Label(p[0]).value] + qs;
      var args1 := args[slots[Label(p[0]).value] := captures[0]];
      if i > 0 {
        assert qs[i - 1] == ls[i];
        forall j | i - 1 < j < |captures[1..]| ensures qs[j] != qs[i - 1] {
          assert qs[j] == ls[j + 1];
        }
        AssignedArguments(p[1..], slots, captures[1..], args1, i - 1);
      } else {
        forall j | 0 <= j < |qs| ensures qs[j] != ls[0] {
          assert qs[j] == ls[j + 1];
        }
        UntouchedSlot(p[1..], slots, captures[1..], args1, ls[0]);
      }
    } else {
      assert Labels(p[1..]) == ls;
      AssignedArguments(p[1..], slots, captures, args, i);
    }
  }

  lemma {:induction false} UntouchedSlot(
      p: Tokens, slots: map<nat, nat>, captures: seq<Tokens>, args: seq<Tokens>, number: nat)
    requires forall t :: t in p && Label(t).Some? ==> Label(t).value in slots && slots[Label(t).value] < |args|
    requires forall a, b :: a in slots && b in slots && slots[a] == slots[b] ==> a == b
    requires number in slots && slots[number] < |args| && number !in Labels(p)
    ensures Assign(p, slots, captures, args)[slots[number]] == args[slots[number]]
    decreases |p|
  {
    hide ParamIndex;
    if p != [] && captures != [] {
      assert p[0] in p;
      if Label(p[0]).Some? {
        assert Labels(p)[0] == Label(p[0]).value;
        UntouchedSlot(p[1..], slots, captures[1..], args[slots[Label(p[0]).value] := captures[0]], number);
      } else {
        UntouchedSlot(p[1..], slots, captures, args, number);
      }
    }
  }

  // ---- The matcher ----

  method CaptureRun(w: Tokens, from: nat, delimiter: PTok) returns (captured: Tokens, position: nat, ok: bool)
    requires from <= |w|
    ensures ok == CaptureLength(w[from..], [], delimiter).Some?
    ensures ok ==> position == from + CaptureLength(w[from..], [], delimiter).value && captured == w[from..position]
  {
    hide CaptureLength;
    captured, position := [], from;
    var stack: seq<Kind> := [];
    assert w[from..from] == [];
    while true
      invariant from <= position <= |w| && captured == w[from..position]
      invariant Scanning(w, from, position, stack, delimiter)
      decreases |w| - position
    {
      CaptureSteps(w, position, stack, delimiter);
      if position >= |w| || w[position].kind == Eof {
        return captured, position, false;
      }
      var item := w[position];
      if stack == [] && Same(item, delimiter) {
        return captured, position, true;
      }
      if Opens(item.kind) {
        stack := stack + [Closer(item.kind)];
      } else if Closes(item.kind) {
        if |stack| == 0 || stack[|stack| - 1] != item.kind {
          return captured, position, false;
        }
        stack := stack[..|stack| - 1];
      }
      captured := captured + [item];
      position := position + 1;
      assert w[from..position] == w[from..position - 1] + [item];
    }
  }

  /** The capture from the start ends where the scan from here, with its open brackets,
      ends. */
  predicate Scanning(w: Tokens, from: nat, position: nat, stack: seq<Kind>, delimiter: PTok)
    requires from <= position <= |w|
  {
    var goal, here := CaptureLength(w[from..], [], delimiter), CaptureLength(w[position..], stack, delimiter);
    goal.Some? == here.Some? && (goal.Some? ==> goal.value == here.value + (position - from))
  }

  /** One token of the scan. */
  lemma {:induction false} CaptureSteps(w: Tokens, position: nat, stack: seq<Kind>, delimiter: PTok)
    requires position <= |w|
    ensures
      var here := CaptureLength(w[position..], stack, delimiter);
      if position == |w| || w[position].kind == Eof then here.None?
      else if stack == [] && Same(w[position], delimiter) then here == Some(0)
      else
        var next := Bracket(stack, w[position].kind);
        if next.None? then here.None?
        else
          var later := CaptureLength(w[position + 1..], next.value, delimiter);
          here == if later.None? then None else Some(later.value + 1)
  {
    if position < |w| {
      assert w[position..][0] == w[position] && w[position..][1..] == w[position + 1..];
    }
  }

  /** What is still to match agrees with matching the whole. */
  predicate Pending(m: Macro, w: Tokens, index: nat, position: nat, args: seq<Tokens>)
    requires Slotted(m) && index <= |m.pattern.value| && position <= |w| && |args| == m.paramCount
  {
    var p := m.pattern.value;
    var goal, here := Match(p, w), Match(p[index..], w[position..]);
    && goal.Some? == here.Some?
    && (goal.Some? ==>
          && goal.value.length == position + here.value.length
          && Assign(p, m.paramSlots, goal.value.captures, Empties(m.paramCount))
             == Assign(p[index..], m.paramSlots, here.value.captures, args))
  }

  lemma {:induction false} CapturePends(m: Macro, w: Tokens, index: nat, position: nat, args: seq<Tokens>)
    requires Slotted(m) && index < |m.pattern.value| && position <= |w| && |args| == m.paramCount
    requires Pending(m, w, index, position, args) && Label(m.pattern.value[index]).Some?
    ensures
      var p := m.pattern.value;
      var n := if index + 1 == |p| then None else CaptureLength(w[position..], [], p[index + 1]);
      && m.pattern.value[index] in m.pattern.value
      && (n.None? ==> Match(p, w).None?)
      && (n.Some? ==>
            Pending(m, w, index + 1, position + n.value,
                    args[m.paramSlots[Label(p[index]).value] := w[position..position + n.value]]))
  {
    hide ParamIndex;
    var p := m.pattern.value;
    assert p[index..][1..] == p[index + 1..] && p[index..][0] == p[index];
    if index + 1 < |p| && CaptureLength(w[position..], [], p[index + 1]).Some? {
      var n := CaptureLength(w[position..], [], p[index + 1]).value;
      assert w[position..][n..] == w[position + n..];
      assert w[position..][..n] == w[position..position + n];
    }
  }

  lemma {:induction false} LiteralPends(m: Macro, w: Tokens, index: nat, position: nat, args: seq<Tokens>)
    requires Slotted(m) && index < |m.pattern.value| && position <= |w| && |args| == m.paramCount
    requires Pending(m, w, index, position, args) && Label(m.pattern.value[index]).None?
    ensures
      var p := m.pattern.value;
      if position == |w| || !Same(w[position], p[index]) then Match(p, w).None?
      else Pending(m, w, index + 1, position + 1, args)
  {
    hide ParamIndex;
    var p := m.pattern.value;
    assert p[index..][1..] == p[index + 1..] && p[index..][0] == p[index];
    if position < |w| {
      assert w[position..][1..] == w[position + 1..];
    }
  }

  /** The matching loop over the tokens an invocation may use. */
  method MatchPattern(m: Macro, w: Tokens) returns (args: seq<Tokens>, consumed: nat, ok: bool)
    requires Slotted(m)
    ensures ok == Match(m.pattern.value, w).Some?
    ensures ok ==>
      var r := Match(m.pattern.value, w).value;
      consumed == r.length && args == Assign(m.pattern.value, m.paramSlots, r.captures, Empties(m.paramCount))
  {
    hide ParamIndex, Pending;
    var p := m.pattern.value;
    args := Empties(m.paramCount);
    var position := 0;
    var index := 0;
    PendingAtStart(m, w);
    while index < |p|
      invariant 0 <= index <= |p| && 0 <= position <= |w| && |args| == m.paramCount
      invariant Pending(m, w, index, position, args)
    {
      var pattern := p[index];
      if Label(pattern).Some? {
        CapturePends(m, w, index, position, args);
        if index + 1 == |p| {
          return args, 0, false;
        }
        var captured, next, found := CaptureRun(w, position, p[index + 1]);
        if !found {
          return args, 0, false;
        }
        args := args[m.paramSlots[Label(pattern).value] := captured];
        position := next;
      } else {
        LiteralPends(m, w, index, position, args);
        if position >= |w| || !Same(w[position], pattern) {
          return args, 0, false;
        }
        position := position + 1;
      }
      index := index + 1;
    }
    PendingAtEnd(m, w, position, args);
    return args, position, true;
  }

  lemma {:induction false} PendingAtStart(m: Macro, w: Tokens)
    requires Slotted(m)
    ensures Pending(m, w, 0, 0, Empties(m.paramCount))
  {
    var p := m.pattern.value;
    assert p[0..] == p && w[0..] == w;
  }

  lemma {:induction false} PendingAtEnd(m: Macro, w: Tokens, position: nat, args: seq<Tokens>)
    requires Slotted(m) && position <= |w| && |args| == m.paramCount
    requires Pending(m, w, |m.pattern.value|, position, args)
    ensures
      var r := Match(m.pattern.value, w);
      && r.Some? && r.value.length == position
      && args == Assign(m.pattern.value, m.paramSlots, r.value.captures, Empties(m.paramCount))
  {
  }

  // ---- When the arguments reproduce what was matched ----

  /** Two runs read alike: same kinds and texts, wherever they come from. */
  predicate Alike(a: Tokens, b: Tokens) { |a| == |b| && forall i :: 0 <= i < |a| ==> Same(a[i], b[i]) }

  predicate AllAlike(a: seq<Tokens>, b: seq<Tokens>) { |a| == |b| && forall i :: 0 <= i < |a| ==> Alike(a[i], b[i]) }

  /** Every label of the pattern has a place among so many arguments, and its own. */
  ghost predicate OwnSlots(p: Tokens, slots: map<nat, nat>, count: nat) {
    && (forall t :: t in p && Label(t).Some? ==> Label(t).value in slots && slots[Label(t).value] < count)
    && (forall a, b :: a in slots && b in slots && slots[a] == slots[b] ==> a == b)
  }

  /** The arguments in the places of the labels. */
  ghost function Fillings(p: Tokens, slots: map<nat, nat>, args: seq<Tokens>): (r: seq<Tokens>)
    requires OwnSlots(p, slots, |args|)
    ensures |r| == |Labels(p)|
  {
    if p == [] then []
    else
      assert p[0] in p;
      (if Label(p[0]).Some? then [args[slots[Label(p[0]).value]]] else []) + Fillings(p[1..], slots, args)
  }

  /** The pattern written out with the arguments. */
  ghost function Fill(p: Tokens, slots: map<nat, nat>, args: seq<Tokens>): Tokens
    requires OwnSlots(p, slots, |args|)
  {
    if p == [] then []
    else
      assert p[0] in p;
      (if Label(p[0]).Some? then args[slots[Label(p[0]).value]] else [p[0]]) + Fill(p[1..], slots, args)
  }

  /** Wherever a label is repeated, it captured text that reads alike. */
  ghost predicate Consistent(p: Tokens, captures: seq<Tokens>)
    requires |captures| == |Labels(p)|
  {
    forall i, j :: 0 <= i < j < |captures| && Labels(p)[i] == Labels(p)[j] ==> Alike(captures[i], captures[j])
  }

  lemma {:induction false} FillingsAt(p: Tokens, slots: map<nat, nat>, args: seq<Tokens>, i: nat)
    requires OwnSlots(p, slots, |args|) && i < |Labels(p)|
    ensures Labels(p)[i] in slots && slots[Labels(p)[i]] < |args|
    ensures Fillings(p, slots, args)[i] == args[slots[Labels(p)[i]]]
    decreases |p|
  {
    hide ParamIndex;
    assert p[0] in p;
    if Label(p[0]).Some? {
      if i > 0 { FillingsAt(p[1..], slots, args, i - 1); }
    } else {
      FillingsAt(p[1..], slots, args, i);
    }
  }

  lemma {:induction false} LastOf(ls: seq<nat>, i: nat, n: nat) returns (k: nat)
    requires i < n <= |ls|
    requires forall j :: n <= j < |ls| ==> ls[j] != ls[i]
    ensures i <= k < |ls| && ls[k] == ls[i] && forall j :: k < j < |ls| ==> ls[j] != ls[i]
    decreases n
  {
    if ls[n - 1] == ls[i] {
      k := n - 1;
    } else {
      k := LastOf(ls, i, n - 1);
    }
  }

  /** The argument in some place of the pattern is the capture of the label's last place. */
  lemma {:induction false} FillingIsLast(
      p: Tokens, slots: map<nat, nat>, captures: seq<Tokens>, before: seq<Tokens>, i: nat) returns (k: nat)
    requires OwnSlots(p, slots, |before|) && i < |captures| == |Labels(p)|
    ensures i <= k < |captures| && Labels(p)[k] == Labels(p)[i]
    ensures Fillings(p, slots, Assign(p, slots, captures, before))[i] == captures[k]
  {
    hide Assign, Label, Fillings;
    k := LastOf(Labels(p), i, |captures|);
    FillingsAt(p, slots, Assign(p, slots, captures, before), i);
    AssignedArguments(p, slots, captures, before, k);
  }

  lemma {:induction false} OneFilling(
      p: Tokens, slots: map<nat, nat>, captures: seq<Tokens>, before: seq<Tokens>, i: nat, j: nat)
    requires OwnSlots(p, slots, |before|) && i < |captures| == |Labels(p)| && j < |captures| && Labels(p)[i] == Labels(p)[j]
    ensures var fill := Fillings(p, slots, Assign(p, slots, captures, before)); fill[i] == fill[j]
  {
    hide Assign, Label, Fillings;
    FillingsAt(p, slots, Assign(p, slots, captures, before), i);
    FillingsAt(p, slots, Assign(p, slots, captures, before), j);
  }

  /** Every place of the pattern captured what its argument became, exactly when
      repeated labels captured alike. */
  lemma {:induction false} ArgumentsStandForCaptures(p: Tokens, slots: map<nat, nat>, captures: seq<Tokens>, before: seq<Tokens>)
    requires OwnSlots(p, slots, |before|) && |captures| == |Labels(p)|
    ensures AllAlike(captures, Fillings(p, slots, Assign(p, slots, captures, before))) <==> Consistent(p, captures)
  {
    hide Alike, Assign, Label, Fillings, Labels;
    var fill := Fillings(p, slots, Assign(p, slots, captures, before));
    if AllAlike(captures, fill) {
      forall i, j | 0 <= i < j < |captures| && Labels(p)[i] == Labels(p)[j] ensures Alike(captures[i], captures[j]) {
        OneFilling(p, slots, captures, before, i, j);
        AlikeJoins(captures[i], fill[i], captures[j]);
      }
    }
    if Consistent(p, captures) {
      forall i | 0 <= i < |captures| ensures Alike(captures[i], fill[i]) {
        var k := FillingIsLast(p, slots, captures, before, i);
        AlikeSelf(captures[i]);
      }
    }
  }

  lemma {:induction false} AlikeSelf(a: Tokens)
    ensures Alike(a, a)
  {
  }

  lemma {:induction false} AlikeJoins(a: Tokens, b: Tokens, c: Tokens)
    requires Alike(a, b) && Alike(c, b)
    ensures Alike(a, c)
  {
  }

  lemma {:induction false} AlikeConcat(a: Tokens, b: Tokens, c: Tokens, d: Tokens)
    requires Alike(a, c) && Alike(b, d)
    ensures Alike(a + b, c + d)
  {
  }

  lemma {:induction false} AlikeAfter(a: Tokens, b: Tokens, stack: seq<Kind>, delimiter: PTok)
    requires Alike(a, b)
    ensures After(a, stack, delimiter) == After(b, stack, delimiter)
    decreases |a|
  {
    if a != [] && Bracket(stack, a[0].kind).Some? {
      assert Same(a[0], b[0]);
      forall i | 0 <= i < |a[1..]| ensures Same(a[1..][i], b[1..][i]) {
        assert Same(a[i + 1], b[i + 1]);
      }
      AlikeAfter(a[1..], b[1..], Bracket(stack, a[0].kind).value, delimiter);
    }
  }

  /** Captures that read like the arguments: the matched tokens read like the filled
      pattern, and that is an instance of the pattern in its turn. */
  lemma {:induction false} FilledReadsAlike(p: Tokens, slots: map<nat, nat>, captures: seq<Tokens>, w: Tokens, args: seq<Tokens>)
    requires OwnSlots(p, slots, |args|) && Instance(p, captures, w) && AllAlike(captures, Fillings(p, slots, args))
    ensures Alike(w, Fill(p, slots, args)) && Instance(p, Fillings(p, slots, args), Fill(p, slots, args))
    decreases |p|, 1
  {
    hide ParamIndex, Same, After;
    if p != [] {
      if Label(p[0]).Some? {
        LabelReadsAlike(p, slots, captures, w, args);
      } else {
        assert p[0] in p;
        var q, fill := p[1..], Fillings(p, slots, args);
        assert fill == Fillings(q, slots, args);
        FilledReadsAlike(q, slots, captures, w[1..], args);
        LiteralReadsAlike(p[0], w[0], w[1..], Fill(q, slots, args));
        assert [w[0]] + w[1..] == w;
        assert ([p[0]] + Fill(q, slots, args))[1..] == Fill(q, slots, args);
      }
    }
  }

  lemma {:induction false} LabelReadsAlike(p: Tokens, slots: map<nat, nat>, captures: seq<Tokens>, w: Tokens, args: seq<Tokens>)
    requires p != [] && Label(p[0]).Some?
    requires OwnSlots(p, slots, |args|) && Instance(p, captures, w) && AllAlike(captures, Fillings(p, slots, args))
    ensures Alike(w, Fill(p, slots, args)) && Instance(p, Fillings(p, slots, args), Fill(p, slots, args))
    decreases |p|, 0
  {
    hide ParamIndex, Same, After, Alike, Delimits;
    assert p[0] in p;
    var q, fill, more := p[1..], Fillings(p, slots, args), Fill(p[1..], slots, args);
    var a, arg, rest := captures[0], args[slots[Label(p[0]).value]], w[|captures[0]|..];
    assert fill[0] == arg && fill[1..] == Fillings(q, slots, args);
    AllAlikeTail(captures, fill);
    FilledReadsAlike(q, slots, captures[1..], rest, args);
    AlikeConcat(a, rest, arg, more);
    assert a + rest == w;
    AlikeAfter(a, arg, [], p[1]);
    DelimitsAlike(rest, more, p[1]);
    assert (arg + more)[|arg|..] == more && arg <= arg + more;
  }

  lemma {:induction false} AllAlikeTail(a: seq<Tokens>, b: seq<Tokens>)
    requires AllAlike(a, b) && a != []
    ensures Alike(a[0], b[0]) && AllAlike(a[1..], b[1..])
  {
    hide Alike;
  }

  lemma {:induction false} LiteralReadsAlike(t: PTok, first: PTok, v: Tokens, w: Tokens)
    requires Same(first, t) && Alike(v, w)
    ensures Alike([first] + v, [t] + w) && Same(t, t)
  {
    AlikeOne(first, t);
    AlikeConcat([first], v, [t], w);
  }

  lemma {:induction false} AlikeOne(a: PTok, b: PTok)
    requires Same(a, b)
    ensures Alike([a], [b])
  {
  }

  lemma {:induction false} DelimitsAlike(a: Tokens, b: Tokens, delimiter: PTok)
    requires Alike(a, b) && Delimits(a, delimiter)
    ensures Delimits(b, delimiter)
  {
    assert Same(a[0], b[0]);
  }

  /** Two readings of tokens that read alike have captures that read alike. */
  lemma {:induction false} InstancesAlike(p: Tokens, a: seq<Tokens>, v: Tokens, b: seq<Tokens>, w: Tokens)
    requires Instance(p, a, v) && Instance(p, b, w) && Alike(v, w)
    ensures AllAlike(a, b)
    decreases |p|
  {
    hide ParamIndex, Same, After;
    if p != [] {
      if Label(p[0]).Some? {
        var n := |a[0]|;
        assert v == a[0] + v[n..] && w == b[0] + w[|b[0]|..];
        CaptureStopsAtDelimiter(a[0], v[n..], [], p[1]);
        CaptureStopsAtDelimiter(b[0], w[|b[0]|..], [], p[1]);
        CaptureAlike(v, w, [], p[1]);
        assert |b[0]| == n;
        AlikeParts(v, w, n);
        InstancesAlike(p[1..], a[1..], v[n..], b[1..], w[n..]);
        assert a == [a[0]] + a[1..] && b == [b[0]] + b[1..];
        assert a[0] == v[..n] && b[0] == w[..n];
      } else {
        AlikeParts(v, w, 1);
        InstancesAlike(p[1..], a, v[1..], b, w[1..]);
      }
    }
  }

  lemma {:induction false} AlikeParts(v: Tokens, w: Tokens, n: nat)
    requires Alike(v, w) && n <= |v|
    ensures Alike(v[..n], w[..n]) && Alike(v[n..], w[n..])
  {
    forall i | 0 <= i < |v| - n ensures Same(v[n..][i], w[n..][i]) {
      assert Same(v[n + i], w[n + i]);
    }
  }

  lemma {:induction false} CaptureAlike(v: Tokens, w: Tokens, stack: seq<Kind>, delimiter: PTok)
    requires Alike(v, w)
    ensures CaptureLength(v, stack, delimiter) == CaptureLength(w, stack, delimiter)
    decreases |v|
  {
    if v != [] && Bracket(stack, v[0].kind).Some? {
      assert Same(v[0], w[0]);
      AlikeParts(v, w, 1);
      CaptureAlike(v[1..], w[1..], Bracket(stack, v[0].kind).value, delimiter);
    }
  }

  /** The theorem: writing the pattern out with the arguments of a match gives back what
      was matched, in the same places, exactly when repeated labels captured alike. */
  lemma {:induction false} ReproducesExactly(p: Tokens, slots: map<nat, nat>, w: Tokens, before: seq<Tokens>)
    requires OwnSlots(p, slots, |before|) && Match(p, w).Some?
    ensures
      var m := Match(p, w).value;
      var args := Assign(p, slots, m.captures, before);
      && |m.captures| == |Labels(p)|
      && (Consistent(p, m.captures) <==>
            Alike(w[..m.length], Fill(p, slots, args)) && Instance(p, Fillings(p, slots, args), Fill(p, slots, args)))
  {
    hide Match, Assign, Fill, Fillings, Instance, Consistent, Alike, AllAlike;
    var m := Match(p, w).value;
    var args := Assign(p, slots, m.captures, before);
    MatchIsInstance(p, w);
    InstanceCounts(p, m.captures, w[..m.length]);
    ArgumentsStandForCaptures(p, slots, m.captures, before);
    if AllAlike(m.captures, Fillings(p, slots, args)) {
      FilledReadsAlike(p, slots, m.captures, w[..m.length], args);
    }
    if Alike(w[..m.length], Fill(p, slots, args)) && Instance(p, Fillings(p, slots, args), Fill(p, slots, args)) {
      InstancesAlike(p, m.captures, w[..m.length], Fillings(p, slots, args), Fill(p, slots, args));
    }
  }

  // ---- Repeated labels ----

  /** With a repeated label a match need not be an instance: both occurrences match,
      each its own text, and the argument keeps only the last. */
  lemma {:induction false} RepeatedLabelKeepsTheLast(capture: PTok, semi: PTok, x: PTok, y: PTok)
    requires Label(capture) == Some(0) && Label(semi).None?
    requires x.kind == Identifier && y.kind == Identifier && semi.kind == OtherKind
    requires !Same(x, semi) && !Same(y, semi) && x != y
    ensures
      var p := [capture, semi, capture, semi];
      var w := [x, semi, y, semi];
      && Match(p, w) == Some(Matched([[x], [y]], 4))
      && Assign(p, map[0 := 0], [[x], [y]], Empties(1)) == [[y]]
  {
    hide ParamIndex, Instance, After, Match, Assign;
    var p := [capture, semi, capture, semi];
    var w := [x, semi, y, semi];
    RepeatedLabelInstance(capture, semi, x, y);
    MatchInvertsInstance(p, [[x], [y]], w, []);
    assert w + [] == w;
    LastCaptureStays(capture, semi, [x], [y]);
  }

  /** One label with its delimiter in front of the rest of a pattern. */
  lemma {:induction false} InstancePiece(
      capture: PTok, delimiter: PTok, a: Tokens, p: Tokens, captures: seq<Tokens>, w: Tokens)
    requires Label(capture).Some? && Label(delimiter).None? && delimiter.kind != Eof
    requires Capturable(a, delimiter) && Instance(p, captures, w)
    ensures Instance([capture, delimiter] + p, [a] + captures, a + [delimiter] + w)
    ensures Labels([capture, delimiter] + p) == [Label(capture).value] + Labels(p)
  {
    hide ParamIndex, After;
    var q, rest := [delimiter] + p, [delimiter] + w;
    assert q[1..] == p && rest[1..] == w;
    assert Instance(q, captures, rest);
    assert Labels(q) == Labels(p);
    assert ([capture, delimiter] + p)[1..] == q;
    assert a + [delimiter] + w == a + rest;
    assert (a + rest)[|a|..] == rest && a <= a + rest;
    assert ([a] + captures)[1..] == captures;
  }

  lemma {:induction false} RepeatedLabelInstance(capture: PTok, semi: PTok, x: PTok, y: PTok)
    requires Label(capture) == Some(0) && Label(semi).None?
    requires x.kind == Identifier && y.kind == Identifier && semi.kind == OtherKind
    requires !Same(x, semi) && !Same(y, semi)
    ensures Instance([capture, semi, capture, semi], [[x], [y]], [x, semi, y, semi])
  {
    hide ParamIndex, Label;
    OneTokenIsCapturable(x, semi);
    OneTokenIsCapturable(y, semi);
    InstancePiece(capture, semi, [y], [], [], []);
    assert [capture, semi] + [] == [capture, semi] && [[y]] + [] == [[y]] && [y] + [semi] + [] == [y, semi];
    InstancePiece(capture, semi, [x], [capture, semi], [[y]], [y, semi]);
    assert [capture, semi] + [capture, semi] == [capture, semi, capture, semi];
    assert [[x]] + [[y]] == [[x], [y]] && [x] + [semi] + [y, semi] == [x, semi, y, semi];
  }

  lemma {:induction false} OneTokenIsCapturable(x: PTok, delimiter: PTok)
    requires (x.kind == Identifier || x.kind == OtherKind) && !Same(x, delimiter)
    ensures Capturable([x], delimiter)
  {
    OneMoreIsCapturable(x, [], delimiter);
    assert [x] + [] == [x];
  }

  lemma {:induction false} OneMoreIsCapturable(x: PTok, rest: Tokens, delimiter: PTok)
    requires (x.kind == Identifier || x.kind == OtherKind) && !Same(x, delimiter) && Capturable(rest, delimiter)
    ensures Capturable([x] + rest, delimiter)
  {
    assert ([x] + rest)[1..] == rest;
  }

  lemma {:induction false} LastCaptureStays(capture: PTok, semi: PTok, a: Tokens, b: Tokens)
    requires Label(capture) == Some(0) && Label(semi).None?
    ensures Assign([capture, semi, capture, semi], map[0 := 0], [a, b], Empties(1)) == [b]
  {
    hide ParamIndex, Label;
    var slots: map<nat, nat> := map[0 := 0];
    var a1: seq<Tokens> := Empties(1)[0 := a];
    assert [a, b][1..] == [b];
    assert [capture, semi, capture, semi][1..] == [semi, capture, semi];
    assert [semi, capture, semi][1..] == [capture, semi];
    assert a1[0 := b] == [b];
    var none: seq<Tokens> := [];
    assert [b][1..] == none;
    assert Assign([capture, semi], slots, [b], a1) == [b];
    assert Assign([semi, capture, semi], slots, [b], a1) == [b];
  }

  lemma {:induction false} FillPiece(capture: PTok, delimiter: PTok, p: Tokens, slots: map<nat, nat>, args: seq<Tokens>)
    requires Label(capture).Some? && Label(delimiter).None?
    requires OwnSlots([capture, delimiter] + p, slots, |args|) && OwnSlots(p, slots, |args|)
    ensures Label(capture).value in slots && slots[Label(capture).value] < |args|
    ensures Fill([capture, delimiter] + p, slots, args)
         == args[slots[Label(capture).value]] + [delimiter] + Fill(p, slots, args)
  {
    hide ParamIndex;
    var q := [delimiter] + p;
    assert capture in [capture, delimiter] + p;
    assert ([capture, delimiter] + p)[1..] == q && q[1..] == p;
    assert OwnSlots(q, slots, |args|);
    assert Fill(q, slots, args) == [delimiter] + Fill(p, slots, args);
  }

  lemma {:induction false} TwoCaptures(x: PTok, a: PTok, b: PTok, c: PTok, capture: PTok)
    requires Label(capture) == Some(0) && Label(a).None? && Label(b).None? && Label(c).None?
    requires x.kind == Identifier && a.kind == b.kind == c.kind == OtherKind
    requires !Same(a, b) && !Same(a, c)
    ensures Instance([capture, b, capture, c], [[a, x, a], [x, a]], [a, x, a] + [b] + [x, a] + [c])
    ensures Labels([capture, b, capture, c]) == [0, 0]
  {
    hide ParamIndex, Label, Labels, Capturable, Instance;
    OneTokenIsCapturable(a, c);
    OneTokenIsCapturable(a, b);
    OneMoreIsCapturable(x, [a], c);
    OneMoreIsCapturable(x, [a], b);
    assert [x] + [a] == [x, a] && [a] + [x, a] == [a, x, a];
    OneMoreIsCapturable(a, [x, a], b);
    NothingMatches();
    InstancePiece(capture, c, [x, a], [], [], []);
    assert [capture, c] + [] == [capture, c] && [[x, a]] + [] == [[x, a]] && [x, a] + [c] + [] == [x, a] + [c];
    assert Labels([capture, c]) == [0] + [] == [0];
    InstancePiece(capture, b, [a, x, a], [capture, c], [[x, a]], [x, a] + [c]);
    assert [capture, b] + [capture, c] == [capture, b, capture, c];
    assert [[a, x, a]] + [[x, a]] == [[a, x, a], [x, a]];
    assert [a, x, a] + [b] + ([x, a] + [c]) == [a, x, a] + [b] + [x, a] + [c];
  }

  lemma {:induction false} NothingMatches()
    ensures Labels([]) == [] && Instance([], [], [])
  {
  }

  lemma {:induction false} ThreeCaptures(x: PTok, a: PTok, b: PTok, c: PTok, capture: PTok)
    requires Label(capture) == Some(0) && Label(a).None? && Label(b).None? && Label(c).None?
    requires x.kind == Identifier && a.kind == b.kind == c.kind == OtherKind
    requires !Same(a, b) && !Same(a, c)
    ensures Instance([capture, a, capture, b, capture, c], [[x], [a, x, a], [x, a]],
                     [x] + [a] + [a, x, a] + [b] + [x, a] + [c])
    ensures Labels([capture, a, capture, b, capture, c]) == [0, 0, 0]
  {
    hide ParamIndex, Label, Labels, Instance;
    OneTokenIsCapturable(x, a);
    TwoCaptures(x, a, b, c, capture);
    InstancePiece(capture, a, [x], [capture, b, capture, c], [[a, x, a], [x, a]], [a, x, a] + [b] + [x, a] + [c]);
    assert [capture, a] + [capture, b, capture, c] == [capture, a, capture, b, capture, c];
    assert [[x]] + [[a, x, a], [x, a]] == [[x], [a, x, a], [x, a]];
    assert [x] + [a] + ([a, x, a] + [b] + [x, a] + [c]) == [x] + [a] + [a, x, a] + [b] + [x, a] + [c];
  }

  lemma {:induction false} ThreeFilled(x: PTok, a: PTok, b: PTok, c: PTok, capture: PTok, slots: map<nat, nat>)
    requires Label(capture) == Some(0) && Label(a).None? && Label(b).None? && Label(c).None? && slots == map[0 := 0]
    ensures OwnSlots([capture, a, capture, b, capture, c], slots, 1)
    ensures Fill([capture, a, capture, b, capture, c], slots, [[x, a]]) == [x] + [a] + [a, x, a] + [b] + [x, a] + [c]
  {
    hide ParamIndex, Label, Fill;
    assert [capture, c] + [] == [capture, c];
    assert [capture, b] + [capture, c] == [capture, b, capture, c];
    assert [capture, a] + [capture, b, capture, c] == [capture, a, capture, b, capture, c];
    FillPiece(capture, c, [], slots, [[x, a]]);
    FillPiece(capture, b, [capture, c], slots, [[x, a]]);
    FillPiece(capture, a, [capture, b, capture, c], slots, [[x, a]]);
    assert Fill([], slots, [[x, a]]) == [] by { FillNothing(slots, [[x, a]]); }
    assert [x, a] + [a] + ([x, a] + [b] + ([x, a] + [c] + [])) == [x] + [a] + [a, x, a] + [b] + [x, a] + [c];
  }

  lemma {:induction false} FillNothing(slots: map<nat, nat>, args: seq<Tokens>)
    requires OwnSlots([], slots, |args|)
    ensures Fill([], slots, args) == []
  {
  }

  /** The place of each argument matters: with a label three times, the written-out
      pattern may read like what was matched although the captures differ. */
  lemma {:induction false} RepeatedLabelMayReadAlike(x: PTok, a: PTok, b: PTok, c: PTok, capture: PTok)
    requires Label(capture) == Some(0) && Label(a).None? && Label(b).None? && Label(c).None?
    requires x.kind == Identifier && a.kind == b.kind == c.kind == OtherKind
    requires !Same(a, b) && !Same(a, c)
    ensures
      var p := [capture, a, capture, b, capture, c];
      var w := [x] + [a] + [a, x, a] + [b] + [x, a] + [c];
      var captures := [[x], [a, x, a], [x, a]];
      && Match(p, w) == Some(Matched(captures, 9))
      && OwnSlots(p, map[0 := 0], 1)
      && Alike(w, Fill(p, map[0 := 0], Assign(p, map[0 := 0], captures, Empties(1))))
      && !Alike(captures[0], captures[2])
  {
    hide ParamIndex, Label, Match;
    var slots: map<nat, nat> := map[0 := 0];
    var p := [capture, a, capture, b, capture, c];
    var w := [x] + [a] + [a, x, a] + [b] + [x, a] + [c];
    var captures := [[x], [a, x, a], [x, a]];
    ThreeCaptures(x, a, b, c, capture);
    MatchInvertsInstance(p, captures, w, []);
    assert w + [] == w;
    ThreeFilled(x, a, b, c, capture, slots);
    var args := Assign(p, slots, captures, Empties(1));
    AssignedArguments(p, slots, captures, Empties(1), 2);
    assert args == [[x, a]];
    AlikeSelf(w);
  }
}
