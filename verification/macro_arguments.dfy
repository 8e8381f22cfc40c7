/** Argument lists of function-like macros: collected from a file's cursor or from a
    detached run, and what either means (preprocess/expand.go). */
module MacroArguments {
  import opened Collections
  import opened MacroTokens

  type Tokens = seq<PTok>

  datatype Collected = Collected(args: seq<Tokens>, rest: Tokens)

  function Delta(k: Kind): int {
    match k
    case LParen => 1
    case LBracket => 1
    case LBrace => 1
    case RParen => -1
    case RBracket => -1
    case RBrace => -1
    case _ => 0
  }

  predicate Stops(k: Kind, depth: int) { depth == 0 && (k == RParen || k == Comma) }

  /** The scan of an argument list, one token at a time. The depth may go below zero:
      closing brackets are counted, not matched. */
  function Scan(toks: Tokens, depth: int, current: Tokens, args: seq<Tokens>): Option<Collected> {
    if toks == [] || toks[0].kind == Eof then None
    else if depth == 0 && toks[0].kind == RParen then Some(Collected(args + [current], toks[1..]))
    else if depth == 0 && toks[0].kind == Comma then Scan(toks[1..], 0, [], args + [current])
    else Scan(toks[1..], depth + Delta(toks[0].kind), current + [toks[0]], args)
  }

  function Collect(toks: Tokens): Option<Collected> {
    if toks != [] && toks[0].kind == RParen then Some(Collected([], toks[1..])) else Scan(toks, 0, [], [])
  }

  // ---- What the scan means ----

  /** From this depth, no token ends the argument or the file. */
  predicate Runs(arg: Tokens, depth: int) {
    arg == [] || (arg[0].kind != Eof && !Stops(arg[0].kind, depth) && Runs(arg[1..], depth + Delta(arg[0].kind)))
  }

  function DepthAfter(arg: Tokens, depth: int): int {
    if arg == [] then depth else DepthAfter(arg[1..], depth + Delta(arg[0].kind))
  }

  /** An argument that can stand in a list: its brackets balance in number and it has
      no comma or closing parenthesis at its top level. */
  predicate Listable(arg: Tokens) { Runs(arg, 0) && DepthAfter(arg, 0) == 0 }

  predicate Commas(commas: Tokens) { forall c :: c in commas ==> c.kind == Comma }

  function Join(args: seq<Tokens>, commas: Tokens): Tokens
    requires |args| == 0 || |commas| == |args| - 1
  {
    if |args| == 0 then []
    else if |args| == 1 then args[0]
    else args[0] + [commas[0]] + Join(args[1..], commas[1..])
  }

  predicate AllListable(args: seq<Tokens>) { forall i :: 0 <= i < |args| ==> Listable(args[i]) }

  lemma {:induction false} ScanRuns(arg: Tokens, tail: Tokens, depth: int, current: Tokens, args: seq<Tokens>)
    requires Runs(arg, depth)
    ensures Scan(arg + tail, depth, current, args) == Scan(tail, DepthAfter(arg, depth), current + arg, args)
  {
    if arg == [] {
      assert arg + tail == tail && current + arg == current;
    } else {
      assert (arg + tail)[1..] == arg[1..] + tail;
      assert current + arg == current + [arg[0]] + arg[1..];
      ScanRuns(arg[1..], tail, depth + Delta(arg[0].kind), current + [arg[0]], args);
    }
  }

  lemma {:induction false} ScanInvertsJoin(args: seq<Tokens>, commas: Tokens, close: PTok, tail: Tokens, done: seq<Tokens>)
    requires |args| > 0 && |commas| == |args| - 1 && Commas(commas) && AllListable(args)
    requires close.kind == RParen
    ensures Scan(Join(args, commas) + [close] + tail, 0, [], done) == Some(Collected(done + args, tail))
    decreases |args|
  {
    if |args| == 1 {
      var after := [close] + tail;
      assert Join(args, commas) + [close] + tail == args[0] + after;
      ScanRuns(args[0], after, 0, [], done);
      assert [] + args[0] == args[0] && after[1..] == tail && args == [args[0]];
    } else {
      var later := Join(args[1..], commas[1..]) + [close] + tail;
      var after := [commas[0]] + later;
      assert Join(args, commas) + [close] + tail == args[0] + after;
      ScanRuns(args[0], after, 0, [], done);
      assert commas[0] in commas;
      assert [] + args[0] == args[0] && after[1..] == later;
      ScanInvertsJoin(args[1..], commas[1..], close, tail, done + [args[0]]);
      assert done + [args[0]] + args[1..] == done + args;
    }
  }

  /** Collecting undoes joining, except that a single empty argument reads as none. */
  lemma {:induction false} CollectInvertsJoin(args: seq<Tokens>, commas: Tokens, close: PTok, tail: Tokens)
    requires (|args| == 0 && commas == []) || |commas| == |args| - 1
    requires Commas(commas) && AllListable(args) && close.kind == RParen
    ensures
      Collect(Join(args, commas) + [close] + tail) == Some(Collected(if args == [[]] then [] else args, tail))
  {
    var toks := Join(args, commas) + [close] + tail;
    if args == [] || args == [[]] {
      assert toks == [close] + tail;
      assert toks[1..] == tail;
    } else {
      FirstIsNotClose(args, commas, close, tail);
      ScanInvertsJoin(args, commas, close, tail, []);
      assert [] + args == args;
    }
  }

  /** A single empty argument leaves only the closing parenthesis. */
  lemma {:induction false} OneEmpty(args: seq<Tokens>, commas: Tokens, close: PTok, tail: Tokens)
    requires |args| > 0 && |commas| == |args| - 1
    ensures |args| == 1 && args[0] == [] ==> args == [[]]
    ensures args == [[]] ==> Join(args, commas) + [close] + tail == [close] + tail
  {
  }

  lemma {:induction false} FirstIsNotClose(args: seq<Tokens>, commas: Tokens, close: PTok, tail: Tokens)
    requires |args| > 0 && |commas| == |args| - 1 && Commas(commas) && AllListable(args) && args != [[]]
    ensures (Join(args, commas) + [close] + tail)[0].kind != RParen
  {
    var toks := Join(args, commas) + [close] + tail;
    if args[0] != [] {
      assert toks[0] == args[0][0];
      assert Runs(args[0], 0);
    } else {
      OneEmpty(args, commas, close, tail);
      assert toks[0] == commas[0] && commas[0] in commas;
    }
  }

  /** The result of a scan, taken apart: the rest of the current argument, the
      arguments after it, and what separates and closes them. */
  predicate Joined(
      toks: Tokens, depth: int, current: Tokens, done: seq<Tokens>, c: Collected,
      args: seq<Tokens>, commas: Tokens, close: PTok)
  {
    && |args| > 0 && |commas| == |args| - 1 && Commas(commas) && close.kind == RParen
    && Runs(args[0], depth) && DepthAfter(args[0], depth) == 0 && AllListable(args[1..])
    && c.args == done + [current + args[0]] + args[1..]
    && toks == Join(args, commas) + [close] + c.rest
  }

  /** Whatever the scan returns is an argument list joined by the commas it found. */
  lemma {:induction false} ScanIsJoined(toks: Tokens, depth: int, current: Tokens, done: seq<Tokens>)
      returns (args: seq<Tokens>, commas: Tokens, close: PTok)
    requires Scan(toks, depth, current, done).Some?
    ensures Joined(toks, depth, current, done, Scan(toks, depth, current, done).value, args, commas, close)
    ensures |args| > 0
    decreases |toks|
  {
    hide Joined;
    var c := Scan(toks, depth, current, done).value;
    if depth == 0 && toks[0].kind == RParen {
      args, commas, close := [[]], [], toks[0];
      JoinedAtClose(toks, current, done);
    } else if depth == 0 && toks[0].kind == Comma {
      args, commas, close := ScanIsJoined(toks[1..], 0, [], done + [current]);
      JoinedAfterComma(toks, current, done, c, args, commas, close);
      args, commas := [[]] + args, [toks[0]] + commas;
    } else {
      args, commas, close := ScanIsJoined(toks[1..], depth + Delta(toks[0].kind), current + [toks[0]], done);
      JoinedAfterToken(toks, depth, current, done, c, args, commas, close);
      args := [[toks[0]] + args[0]] + args[1..];
    }
  }

  lemma {:induction false} JoinedAtClose(toks: Tokens, current: Tokens, done: seq<Tokens>)
    requires toks != [] && toks[0].kind == RParen
    ensures Joined(toks, 0, current, done, Collected(done + [current], toks[1..]), [[]], [], toks[0])
  {
    assert current + [] == current;
    var one: seq<Tokens> := [[]];
    assert one[1..] == [];
  }

  lemma {:induction false} JoinedAfterComma(
      toks: Tokens, current: Tokens, done: seq<Tokens>, c: Collected, args: seq<Tokens>, commas: Tokens, close: PTok)
    requires toks != [] && toks[0].kind == Comma
    requires Joined(toks[1..], 0, [], done + [current], c, args, commas, close)
    ensures Joined(toks, 0, current, done, c, [[]] + args, [toks[0]] + commas, close)
  {
    hide Join;
    CommaJoins(args, commas, close, c.rest, toks);
    ListableTail(args);
    assert done + [current] + [[] + args[0]] + args[1..] == done + [current + []] + args by {
      assert args == [args[0]] + args[1..];
      assert [] + args[0] == args[0];
      assert current + [] == current;
    }
    assert ([[]] + args)[1..] == args;
  }

  lemma {:induction false} JoinedAfterToken(
      toks: Tokens, depth: int, current: Tokens, done: seq<Tokens>, c: Collected,
      args: seq<Tokens>, commas: Tokens, close: PTok)
    requires toks != [] && toks[0].kind != Eof && !Stops(toks[0].kind, depth)
    requires Joined(toks[1..], depth + Delta(toks[0].kind), current + [toks[0]], done, c, args, commas, close)
    ensures Joined(toks, depth, current, done, c, [[toks[0]] + args[0]] + args[1..], commas, close)
  {
    hide Join, AllListable;
    TokenJoins(args, commas, close, c.rest, toks);
    var first := [toks[0]] + args[0];
    assert current + [toks[0]] + args[0] == current + first;
    assert first[1..] == args[0];
    assert ([first] + args[1..])[1..] == args[1..];
  }

  lemma {:induction false} ListableTail(args: seq<Tokens>)
    requires |args| > 0 && Runs(args[0], 0) && DepthAfter(args[0], 0) == 0 && AllListable(args[1..])
    ensures AllListable(args) && AllListable(([[]] + args)[1..])
  {
    assert ([[]] + args)[1..] == args;
    forall i | 0 <= i < |args| ensures Listable(args[i]) {
      if i > 0 {
        assert args[i] == args[1..][i - 1];
      }
    }
  }

  lemma {:induction false} CommaJoins(args: seq<Tokens>, commas: Tokens, close: PTok, rest: Tokens, toks: Tokens)
    requires |args| > 0 && |commas| == |args| - 1 && toks != []
    requires toks[1..] == Join(args, commas) + [close] + rest
    ensures toks == Join([[]] + args, [toks[0]] + commas) + [close] + rest
  {
    assert ([[]] + args)[1..] == args && ([toks[0]] + commas)[1..] == commas;
    assert toks == [toks[0]] + toks[1..];
  }

  lemma {:induction false} TokenJoins(args: seq<Tokens>, commas: Tokens, close: PTok, rest: Tokens, toks: Tokens)
    requires |args| > 0 && |commas| == |args| - 1 && toks != []
    requires toks[1..] == Join(args, commas) + [close] + rest
    ensures toks == Join([[toks[0]] + args[0]] + args[1..], commas) + [close] + rest
  {
    assert ([[toks[0]] + args[0]] + args[1..])[1..] == args[1..];
    assert toks == [toks[0]] + toks[1..];
  }

  /** Collecting succeeds exactly on joined lists of listable arguments that a
      parenthesis closes, and returns that list and what follows it. */
  lemma {:induction false} CollectIsJoined(toks: Tokens) returns (commas: Tokens, close: PTok)
    requires Collect(toks).Some?
    ensures
      var c := Collect(toks).value;
      && close.kind == RParen && Commas(commas) && AllListable(c.args) && c.args != [[]]
      && ((|c.args| == 0 && commas == []) || |commas| == |c.args| - 1)
      && toks == Join(c.args, commas) + [close] + c.rest
  {
    if toks[0].kind == RParen {
      commas, close := [], toks[0];
    } else {
      var args;
      args, commas, close := ScanIsJoined(toks, 0, [], []);
      assert [] + args[0] == args[0] && [] + [args[0]] + args[1..] == args;
      ListableTail(args);
      OneEmpty(args, commas, close, Collect(toks).value.rest);
    }
  }

  // ---- What can stand in a list ----

  function Openings(toks: Tokens): nat {
    if toks == [] then 0
    else (if toks[0].kind in {LParen, LBracket, LBrace} then 1 else 0) + Openings(toks[1..])
  }

  function Closings(toks: Tokens): nat {
    if toks == [] then 0
    else (if toks[0].kind in {RParen, RBracket, RBrace} then 1 else 0) + Closings(toks[1..])
  }

  lemma {:induction false} DepthIsBalance(arg: Tokens, depth: int)
    ensures DepthAfter(arg, depth) == depth + Openings(arg) - Closings(arg)
    decreases |arg|
  {
    if arg != [] {
      DepthIsBalance(arg[1..], depth + Delta(arg[0].kind));
    }
  }

  /** A comma or a closing parenthesis at this place is inside brackets: openings and
      closings before it differ in number. */
  predicate Sheltered(arg: Tokens, depth: int, i: nat)
    requires i < |arg|
  {
    && arg[i].kind != Eof
    && (arg[i].kind in {Comma, RParen} ==> depth + Openings(arg[..i]) != Closings(arg[..i]))
  }

  lemma {:induction false} RunsExactly(arg: Tokens, depth: int)
    ensures Runs(arg, depth) <==> forall i: nat :: i < |arg| ==> Sheltered(arg, depth, i)
    decreases |arg|
  {
    if arg != [] {
      RunsExactly(arg[1..], depth + Delta(arg[0].kind));
      forall i: nat | 0 < i < |arg|
        ensures Sheltered(arg, depth, i) <==> Sheltered(arg[1..], depth + Delta(arg[0].kind), i - 1)
      {
        assert arg[..i][1..] == arg[1..][..i - 1] && arg[..i][0] == arg[0];
      }
      assert Sheltered(arg, depth, 0) <==> arg[0].kind != Eof && !Stops(arg[0].kind, depth);
      var later, next := arg[1..], depth + Delta(arg[0].kind);
      if forall i: nat :: i < |arg| ==> Sheltered(arg, depth, i) {
        forall i: nat | i < |later| ensures Sheltered(later, next, i) {
          assert Sheltered(arg, depth, i + 1);
        }
      }
    }
  }

  /** An argument can stand in a list exactly when it opens as many brackets as it closes,
      and has a comma or a closing parenthesis only where these numbers differ; the
      brackets need not match in kind. */
  lemma {:induction false} ListableExactly(arg: Tokens)
    ensures Listable(arg)
       <==> Openings(arg) == Closings(arg) && forall i: nat :: i < |arg| ==> Sheltered(arg, 0, i)
  {
    DepthIsBalance(arg, 0);
    RunsExactly(arg, 0);
  }

  // ---- The file cursor and the detached run agree ----

  lemma {:induction false} RetainScans(toks: Tokens, eof: Tokens, depth: int, current: Tokens, args: seq<Tokens>)
    requires NoEof(toks) && (eof == [] || eof[0].kind == Eof)
    ensures
      var a := Scan(toks, depth, current, args);
      var b := Scan(RetainAll(toks) + eof, depth, RetainAll(current), RetainEach(args));
      && a.Some? == b.Some?
      && (a.Some? ==> b.value == Collected(RetainEach(a.value.args), RetainAll(a.value.rest) + eof))
    decreases |toks|
  {
    var all := RetainAll(toks) + eof;
    if toks == [] {
      assert all == eof;
    } else {
      assert all[1..] == RetainAll(toks[1..]) + eof;
      assert all[0] == Retain(toks[0]);
      if depth == 0 && toks[0].kind == RParen {
        assert RetainEach(args + [current]) == RetainEach(args) + [RetainAll(current)];
      } else if depth == 0 && toks[0].kind == Comma {
        assert RetainEach(args + [current]) == RetainEach(args) + [RetainAll(current)];
        assert RetainAll([]) == [];
        RetainScans(toks[1..], eof, 0, [], args + [current]);
      } else {
        assert RetainAll(current + [toks[0]]) == RetainAll(current) + [Retain(toks[0])];
        RetainScans(toks[1..], eof, depth + Delta(toks[0].kind), current + [toks[0]], args);
      }
    }
  }

  function RetainEach(args: seq<Tokens>): seq<Tokens> {
    seq(|args|, i requires 0 <= i < |args| => RetainAll(args[i]))
  }

  /** The same tokens read from a file, where the end of the file follows them, and
      from a run: both fail, or both stop at the same place with the same arguments,
      except that the file's tokens have their provenance filled in. */
  lemma {:induction false} FileAndRunAgree(toks: Tokens, eof: PTok)
    requires NoEof(toks) && eof.kind == Eof
    ensures
      var a, b := Collect(toks), Collect(RetainAll(toks) + [eof]);
      && a.Some? == b.Some?
      && (a.Some? ==> b.value == Collected(RetainEach(a.value.args), RetainAll(a.value.rest) + [eof]))
  {
    var all := RetainAll(toks) + [eof];
    assert toks != [] ==> all[0] == Retain(toks[0]) && all[1..] == RetainAll(toks[1..]) + [eof];
    RetainScans(toks, [eof], 0, [], []);
    assert RetainAll([]) == [] && RetainEach([]) == [];
  }

  // ---- The two loops ----

  /** The scan over a detached run, from an index. */
  method CollectArgsSlice(toks: Tokens, start: nat) returns (args: seq<Tokens>, next: nat, ok: bool)
    requires NoEof(toks) && start <= |toks|
    ensures ok == Collect(toks[start..]).Some?
    ensures ok ==> start < next <= |toks| && Collect(toks[start..]).value == Collected(args, toks[next..])
  {
    var i := start;
    if i >= |toks| {
      return [], 0, false;
    }
    if toks[i].kind == RParen {
      return [], i + 1, true;
    }
    var depth := 0;
    var current: Tokens := [];
    args := [];
    while i < |toks|
      invariant start <= i <= |toks|
      invariant Collect(toks[start..]) == Scan(toks[i..], depth, current, args)
    {
      var t := toks[i];
      assert toks[i..][1..] == toks[i + 1..];
      if depth == 0 && t.kind == RParen {
        return args + [current], i + 1, true;
      }
      if depth == 0 && t.kind == Comma {
        args := args + [current];
        current := [];
        i := i + 1;
        continue;
      }
      depth := depth + Delta(t.kind);
      current := current + [t];
      i := i + 1;
    }
    return [], 0, false;
  }

  /** A file being read: its tokens end with the end-of-file token, past which the
      cursor does not move. */
  class Frame {
    const toks: Tokens
    var pos: nat

    ghost predicate Valid()
      reads this
    {
      pos < |toks| && toks[|toks| - 1].kind == Eof && NoEof(toks[..|toks| - 1])
    }

    constructor (toks: Tokens)
      requires |toks| > 0 && toks[|toks| - 1].kind == Eof && NoEof(toks[..|toks| - 1])
      ensures Valid() && this.toks == toks && pos == 0
    {
      this.toks, pos := toks, 0;
    }

    function Cur(): PTok
      requires Valid()
      reads this
    {
      toks[pos]
    }

    predicate AtEnd()
      requires Valid()
      reads this
    {
      toks[pos].kind == Eof
    }

    method Advance() returns (t: PTok)
      requires Valid()
      modifies this`pos
      ensures Valid()
      ensures t == toks[old(pos)] && pos == if old(pos) < |toks| - 1 then old(pos) + 1 else old(pos)
      ensures !old(AtEnd()) ==> pos == old(pos) + 1
    {
      t := toks[pos];
      if pos < |toks| - 1 {
        pos := pos + 1;
      }
    }

    /** The scan from the file's cursor, which ends up behind the closing parenthesis,
        or at the end of the file. */
    method CollectArgs() returns (args: seq<Tokens>, closeParen: Option<PTok>, ok: bool)
      requires Valid()
      modifies this`pos
      ensures Valid() && old(pos) <= pos
      ensures ok == Collect(RetainAll(toks[old(pos)..])).Some?
      ensures ok ==> Collect(RetainAll(toks[old(pos)..])).value == Collected(args, RetainAll(toks[pos..]))
      ensures ok ==> old(pos) < pos && closeParen == Some(toks[pos - 1])
      ensures !ok ==> AtEnd()
    {
      ghost var all := RetainAll(toks[pos..]);
      assert all[0] == Retain(toks[pos]);
      if Cur().kind == RParen {
        assert all[1..] == RetainAll(toks[pos + 1..]);
        var close := Advance();
        return [], Some(close), true;
      }
      var depth := 0;
      var current: Tokens := [];
      args := [];
      while true
        invariant Valid() && old(pos) <= pos
        invariant Collect(all) == Scan(RetainAll(toks[pos..]), depth, current, args)
        decreases |toks| - pos
      {
        if AtEnd() {
          assert RetainAll(toks[pos..])[0].kind == Eof;
          return [], None, false;
        }
        ghost var rest := RetainAll(toks[pos..]);
        assert rest[0] == Retain(toks[pos]) && rest[1..] == RetainAll(toks[pos + 1..]);
        var t := Advance();
        if depth == 0 && t.kind == RParen {
          return args + [current], Some(t), true;
        }
        if depth == 0 && t.kind == Comma {
          args := args + [current];
          current := [];
          continue;
        }
        depth := depth + Delta(t.kind);
        current := current + [Retain(t)];
      }
    }
  }
}
