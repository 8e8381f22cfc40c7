/** Carrying results over a local edit: the edited range, the lines and tokens it
    touches, and the shift of recorded offsets (preprocess/reuse.go). */
module Edits {
  import opened Conditionals
  import opened BranchSpans

  datatype ByteRange = ByteRange(start: nat, end: nat)

  datatype Edit = Edit(before: ByteRange, after: ByteRange)

  /** Both ranges start where the texts first differ. */
  predicate WellPlaced(e: Edit) {
    && e.before.start == e.after.start
    && e.before.start <= e.before.end
    && e.after.start <= e.after.end
  }

  /** The edit leads from one text to the other. */
  predicate LeadsTo<T(==)>(before: seq<T>, after: seq<T>, e: Edit) {
    && WellPlaced(e) && e.before.end <= |before| && e.after.end <= |after|
    && before[..e.before.start] == after[..e.after.start]
    && before[e.before.end..] == after[e.after.end..]
  }

  /** The common prefix cannot be longer, and neither can the common suffix of what is
      left. */
  predicate Maximal<T(==)>(before: seq<T>, after: seq<T>, e: Edit)
    requires LeadsTo(before, after, e)
  {
    && (e.before.start < |before| && e.after.start < |after| ==> before[e.before.start] != after[e.after.start])
    && (e.before.start < e.before.end && e.after.start < e.after.end ==>
          before[e.before.end - 1] != after[e.after.end - 1])
  }

  method CompatibleEdit<T(==)>(before: seq<T>, after: seq<T>) returns (e: Edit, changed: bool)
    ensures LeadsTo(before, after, e) && Maximal(before, after, e)
    ensures changed <==> before != after
  {
    var start := 0;
    while start < |before| && start < |after| && before[start] == after[start]
      invariant start <= |before| && start <= |after|
      invariant before[..start] == after[..start]
    {
      start := start + 1;
    }
    var beforeEnd, afterEnd := |before|, |after|;
    while beforeEnd > start && afterEnd > start && before[beforeEnd - 1] == after[afterEnd - 1]
      invariant start <= beforeEnd <= |before| && start <= afterEnd <= |after|
      invariant before[beforeEnd..] == after[afterEnd..]
    {
      assert before[beforeEnd - 1..] == [before[beforeEnd - 1]] + before[beforeEnd..];
      assert after[afterEnd - 1..] == [after[afterEnd - 1]] + after[afterEnd..];
      beforeEnd, afterEnd := beforeEnd - 1, afterEnd - 1;
    }
    e := Edit(ByteRange(start, beforeEnd), ByteRange(start, afterEnd));
    changed := start != beforeEnd || start != afterEnd;
    assert before == before[..start] + before[start..beforeEnd] + before[beforeEnd..];
    assert after == after[..start] + after[start..afterEnd] + after[afterEnd..];
  }

  // ---- Shifting offsets ----

  function ShiftOffset(offset: nat, e: Edit): nat
    requires WellPlaced(e)
  {
    if offset <= e.before.start then offset
    else if offset >= e.before.end then offset + e.after.end - e.before.end
    else if offset - e.before.start > e.after.end - e.after.start then e.after.end
    else e.after.start + offset - e.before.start
  }

  function ShiftRange(r: ByteRange, e: Edit): ByteRange
    requires WellPlaced(e)
  {
    ByteRange(ShiftOffset(r.start, e), ShiftOffset(r.end, e))
  }

  lemma {:induction false} ShiftIsMonotone(a: nat, b: nat, e: Edit)
    requires WellPlaced(e) && a <= b
    ensures ShiftOffset(a, e) <= ShiftOffset(b, e)
  {
  }

  /** Every offset of the old text lands in the new one. */
  lemma {:induction false} ShiftStaysInside<T>(before: seq<T>, after: seq<T>, offset: nat, e: Edit)
    requires LeadsTo(before, after, e) && offset <= |before|
    ensures ShiftOffset(offset, e) <= |after|
  {
    assert |before[e.before.end..]| == |after[e.after.end..]|;
  }

  /** The start of the edit stays, its end becomes the new end, and an offset between them
      keeps its distance from the start as long as the new text is that long. */
  lemma {:induction false} ShiftInsideTheEdit(offset: nat, e: Edit)
    requires WellPlaced(e) && e.before.start <= offset <= e.before.end
    ensures offset == e.before.start ==> ShiftOffset(offset, e) == e.after.start
    ensures offset == e.before.end > e.before.start ==> ShiftOffset(offset, e) == e.after.end
    ensures offset < e.before.end ==>
              ShiftOffset(offset, e) - e.after.start
              == if offset - e.before.start <= e.after.end - e.after.start then offset - e.before.start
                 else e.after.end - e.after.start
  {
  }

  function ShiftBranch(b: Branch, e: Edit): Branch
    requires WellPlaced(e)
  {
    b.(dirStart := ShiftOffset(b.dirStart, e), dirEnd := ShiftOffset(b.dirEnd, e),
       bodyStart := ShiftOffset(b.bodyStart, e), bodyEnd := ShiftOffset(b.bodyEnd, e))
  }

  /** The records of a reused result, shifted one by one. */
  method ShiftBranches(branches: seq<Branch>, e: Edit) returns (shifted: seq<Branch>)
    requires WellPlaced(e)
    ensures |shifted| == |branches|
    ensures forall i :: 0 <= i < |branches| ==> shifted[i] == ShiftBranch(branches[i], e)
    ensures Laminar(branches) ==> Laminar(shifted)
  {
    shifted := branches;
    var i := 0;
    while i < |shifted|
      invariant 0 <= i <= |shifted| == |branches|
      invariant forall j :: 0 <= j < i ==> shifted[j] == ShiftBranch(branches[j], e)
      invariant forall j :: i <= j < |branches| ==> shifted[j] == branches[j]
    {
      shifted := shifted[i := ShiftBranch(shifted[i], e)];
      i := i + 1;
    }
    if Laminar(branches) {
      ShiftKeepsNesting(branches, shifted, e);
    }
  }

  lemma {:induction false} ShiftKeepsNesting(branches: seq<Branch>, shifted: seq<Branch>, e: Edit)
    requires WellPlaced(e) && Laminar(branches) && |shifted| == |branches|
    requires forall i :: 0 <= i < |branches| ==> shifted[i] == ShiftBranch(branches[i], e)
    ensures Laminar(shifted)
  {
    forall i, j | 0 <= i < j < |shifted|
      ensures Disjoint(shifted[i], shifted[j]) || Inside(shifted[i], shifted[j]) || Inside(shifted[j], shifted[i])
    {
      PairKeepsNesting(branches[i], branches[j], e);
    }
  }

  lemma {:induction false} PairKeepsNesting(a: Branch, b: Branch, e: Edit)
    requires WellPlaced(e)
    ensures Disjoint(a, b) ==> Disjoint(ShiftBranch(a, e), ShiftBranch(b, e))
    ensures Inside(a, b) ==> Inside(ShiftBranch(a, e), ShiftBranch(b, e))
    ensures Inside(b, a) ==> Inside(ShiftBranch(b, e), ShiftBranch(a, e))
  {
    hide ShiftOffset;
    MonotoneBoth(a.bodyStart, b.bodyStart, e);
    MonotoneBoth(a.bodyStart, b.bodyEnd, e);
    MonotoneBoth(a.bodyEnd, b.bodyStart, e);
    MonotoneBoth(a.bodyEnd, b.bodyEnd, e);
  }

  lemma {:induction false} MonotoneBoth(a: nat, b: nat, e: Edit)
    requires WellPlaced(e)
    ensures a <= b ==> ShiftOffset(a, e) <= ShiftOffset(b, e)
    ensures b <= a ==> ShiftOffset(b, e) <= ShiftOffset(a, e)
  {
  }

  /** A span that ends where the edit starts, or earlier, still covers its text. */
  lemma {:induction false} SpanBeforeKeepsItsBytes<T>(before: seq<T>, after: seq<T>, r: ByteRange, e: Edit)
    requires LeadsTo(before, after, e) && r.start <= r.end <= e.before.start
    ensures ShiftRange(r, e) == r
    ensures after[r.start..r.end] == before[r.start..r.end]
  {
    PrefixesAgree(before, after, e.before.start, r.start, r.end);
  }

  lemma {:induction false} PrefixesAgree<T>(before: seq<T>, after: seq<T>, n: nat, a: nat, b: nat)
    requires n <= |before| && n <= |after| && before[..n] == after[..n] && a <= b <= n
    ensures after[a..b] == before[a..b]
  {
    SliceOfPrefix(after, n, a, b);
    SliceOfPrefix(before, n, a, b);
  }

  lemma {:induction false} SliceOfPrefix<T>(s: seq<T>, n: nat, a: nat, b: nat)
    requires a <= b <= n <= |s|
    ensures s[a..b] == s[..n][a..b]
  {
    assert forall i :: 0 <= i < b - a ==> s[a..b][i] == s[..n][a..b][i];
  }

  /** The same slice of two texts with the same rest. */
  lemma {:induction false} SuffixesAgree<T>(before: seq<T>, after: seq<T>, d: nat, d': nat, a: nat, b: nat)
    requires d <= |before| && d' <= |after| && before[d..] == after[d'..] && d <= a <= b <= |before|
    ensures b - d + d' <= |after|
    ensures after[a - d + d'..b - d + d'] == before[a..b]
  {
    assert |before[d..]| == |after[d'..]|;
    SliceOfSuffix(before, d, a, b);
    SliceOfSuffix(after, d', a - d + d', b - d + d');
  }

  lemma {:induction false} SlicesDiffer<T>(a: seq<T>, b: seq<T>)
    requires |a| != |b|
    ensures a != b
  {
  }

  /** A span that starts where the edit ends, or later, still covers its text exactly
      unless text was inserted, or exchanged for none, right at its start. */
  lemma {:induction false} SpanAfterKeepsItsBytesExactly<T>(before: seq<T>, after: seq<T>, r: ByteRange, e: Edit)
    requires LeadsTo(before, after, e) && e.before.end <= r.start <= r.end <= |before|
    ensures
      var s := ShiftRange(r, e);
      s.start <= s.end <= |after|
      && (after[s.start..s.end] == before[r.start..r.end] <==>
          r.start > e.before.start || r.start == r.end || e.after.end == e.before.end)
  {
    var s := ShiftRange(r, e);
    SuffixesAgree(before, after, e.before.end, e.after.end, r.start, r.end);
    if r.start == e.before.start && r.start != r.end && e.after.end != e.before.end {
      SlicesDiffer(after[s.start..s.end], before[r.start..r.end]);
    }
  }

  lemma {:induction false} SliceOfSuffix<T>(s: seq<T>, from: nat, a: nat, b: nat)
    requires from <= a <= b <= |s|
    ensures s[a..b] == s[from..][a - from..b - from]
  {
    assert forall i :: 0 <= i < b - a ==> s[a..b][i] == s[from..][a - from..b - from][i];
  }

  /** The same text stands at both places. */
  predicate SameText<T(==)>(before: seq<T>, after: seq<T>, a: nat, b: nat, c: nat, d: nat) {
    a <= b <= |before| && c <= d <= |after| && before[a..b] == after[c..d]
  }

  /** A span on one side of the edit, with no text inserted right at its start. */
  predicate Apart(start: nat, end: nat, e: Edit) {
    start <= end && (end <= e.before.start || (e.before.end <= start && e.before.start < start))
  }

  lemma {:induction false} ApartKeepsItsText<T>(before: seq<T>, after: seq<T>, start: nat, end: nat, e: Edit)
    requires LeadsTo(before, after, e) && Apart(start, end, e) && end <= |before|
    ensures SameText(before, after, start, end, ShiftOffset(start, e), ShiftOffset(end, e))
  {
    if end <= e.before.start {
      SpanBeforeKeepsItsBytes(before, after, ByteRange(start, end), e);
    } else {
      SpanAfterKeepsItsBytesExactly(before, after, ByteRange(start, end), e);
    }
  }

  /** A shifted record is of the same branch: its directive's span and its body's span each
      cover the same text as before if they stand before or behind the edit, and a body
      around the edit covers its old text with the edit made. */
  lemma {:induction false} ShiftedBranchKeepsItsText<T>(before: seq<T>, after: seq<T>, b: Branch, e: Edit)
    requires LeadsTo(before, after, e) && b.dirEnd <= |before| && b.bodyEnd <= |before|
    ensures
      var s := ShiftBranch(b, e);
      && s.kind == b.kind && s.depth == b.depth && s.active == b.active && s.evaluated == b.evaluated
      && (Apart(b.dirStart, b.dirEnd, e) ==> SameText(before, after, b.dirStart, b.dirEnd, s.dirStart, s.dirEnd))
      && (Apart(b.bodyStart, b.bodyEnd, e) ==> SameText(before, after, b.bodyStart, b.bodyEnd, s.bodyStart, s.bodyEnd))
      && (b.bodyStart <= e.before.start < b.bodyEnd && e.before.end <= b.bodyEnd ==>
            s.bodyStart <= s.bodyEnd <= |after|
            && after[s.bodyStart..s.bodyEnd] ==
               before[b.bodyStart..e.before.start] + after[e.after.start..e.after.end] + before[e.before.end..b.bodyEnd])
  {
    if Apart(b.dirStart, b.dirEnd, e) {
      ApartKeepsItsText(before, after, b.dirStart, b.dirEnd, e);
    }
    if Apart(b.bodyStart, b.bodyEnd, e) {
      ApartKeepsItsText(before, after, b.bodyStart, b.bodyEnd, e);
    }
    if b.bodyStart <= e.before.start < b.bodyEnd && e.before.end <= b.bodyEnd {
      AroundTheEdit(before, after, b.bodyStart, b.bodyEnd, e);
    }
  }

  lemma {:induction false} ThreeParts<T>(s: seq<T>, a: nat, m: nat, n: nat, b: nat)
    requires a <= m <= n <= b <= |s|
    ensures s[a..b] == s[a..m] + s[m..n] + s[n..b]
  {
  }

  lemma {:induction false} AroundTheEdit<T>(before: seq<T>, after: seq<T>, start: nat, end: nat, e: Edit)
    requires LeadsTo(before, after, e) && start <= e.before.start < end && e.before.end <= end <= |before|
    ensures
      var a, b := ShiftOffset(start, e), ShiftOffset(end, e);
      && a <= b <= |after|
      && after[a..b] == before[start..e.before.start] + after[e.after.start..e.after.end] + before[e.before.end..end]
  {
    var a, b := ShiftOffset(start, e), ShiftOffset(end, e);
    SuffixesAgree(before, after, e.before.end, e.after.end, e.before.end, end);
    PrefixesAgree(before, after, e.before.start, start, e.before.start);
    ThreeParts(after, a, e.after.start, e.after.end, b);
  }

  // ---- Tokens the edit touches ----

  datatype Token = Token(start: nat, end: nat, trivia: bool, text: string)

  predicate Sorted(tokens: seq<Token>) {
    && (forall i :: 0 <= i < |tokens| ==> tokens[i].start <= tokens[i].end)
    && (forall i, j :: 0 <= i < j < |tokens| ==> tokens[i].end <= tokens[j].start)
  }

  /** The binary search of the standard library, for the first token that ends at or
      after an offset. */
  method FirstEndingFrom(tokens: seq<Token>, offset: nat) returns (index: nat)
    requires Sorted(tokens)
    ensures index <= |tokens|
    ensures forall i :: 0 <= i < index ==> tokens[i].end < offset
    ensures forall i :: index <= i < |tokens| ==> tokens[i].end >= offset
  {
    var hi := |tokens|;
    index := 0;
    while index < hi
      invariant index <= hi <= |tokens|
      invariant forall i :: 0 <= i < index ==> tokens[i].end < offset
      invariant forall i :: hi <= i < |tokens| ==> tokens[i].end >= offset
    {
      var mid := (index + hi) / 2;
      if tokens[mid].end >= offset {
        hi := mid;
      } else {
        index := mid + 1;
      }
    }
  }

  method EditTouchesCode(tokens: seq<Token>, e: Edit) returns (touches: bool)
    requires Sorted(tokens)
    ensures touches <==> exists i :: 0 <= i < |tokens| && !tokens[i].trivia
                           && tokens[i].start < e.before.end && tokens[i].end > e.before.start
  {
    var index := FirstEndingFrom(tokens, e.before.start + 1);
    while index < |tokens| && tokens[index].start < e.before.end
      invariant index <= |tokens|
      invariant forall i :: 0 <= i < index ==> tokens[i].trivia || tokens[i].end <= e.before.start
    {
      if !tokens[index].trivia {
        return true;
      }
      index := index + 1;
    }
    return false;
  }

  method TouchesMacro(tokens: seq<Token>, changed: ByteRange, macros: set<string>) returns (touches: bool)
    requires Sorted(tokens)
    ensures touches <==> exists i :: 0 <= i < |tokens| && tokens[i].text in macros
                           && tokens[i].start <= changed.end && tokens[i].end >= changed.start
  {
    var index := FirstEndingFrom(tokens, changed.start);
    while index < |tokens| && tokens[index].start <= changed.end
      invariant index <= |tokens|
      invariant forall i :: 0 <= i < index ==> tokens[i].text !in macros || tokens[i].end < changed.start
    {
      if tokens[index].text in macros {
        return true;
      }
      index := index + 1;
    }
    return false;
  }

  // ---- Lines the edit touches ----

  predicate StartsLine(src: string, p: nat)
    requires p <= |src|
  {
    p == 0 || src[p - 1] == '\n'
  }

  /** The line starting here has # as its first character other than blanks. */
  predicate DirectiveAt(src: string, p: nat)
    requires p <= |src|
    decreases |src| - p
  {
    p < |src| && (src[p] == '#' || ((src[p] == ' ' || src[p] == '\t') && DirectiveAt(src, p + 1)))
  }

  /** No line break between two offsets. */
  predicate OneLine(src: string, a: nat, b: nat)
    requires b <= |src|
  {
    forall i :: a <= i < b ==> src[i] != '\n'
  }

  /** Where the search for touched lines starts: an edit at the end of a text belongs to
      the line of its last character. */
  function Anchor(src: string, at: nat): nat {
    if at == |src| && at > 0 then at - 1 else at
  }

  /** The line starting here is touched: it is the edit's first line or starts no later
      than the line break at or after the edit's end. */
  predicate Touched(src: string, changed: ByteRange, p: nat)
    requires changed.start <= changed.end <= |src| && p < |src|
  {
    && StartsLine(src, p)
    && (p >= Anchor(src, changed.start) || OneLine(src, p, Anchor(src, changed.start)))
    && (p <= changed.end || OneLine(src, changed.end, p))
  }

  /** Some line the edit touches is a directive. */
  method DirectiveRange(src: string, changed: ByteRange) returns (found: bool)
    requires changed.start <= changed.end <= |src|
    ensures found <==> exists p: nat :: p < |src| && Touched(src, changed, p) && DirectiveAt(src, p)
  {
    var start: nat := changed.start;
    if start == |src| && start > 0 {
      start := start - 1;
    }
    while start > 0 && src[start - 1] != '\n'
      invariant start <= Anchor(src, changed.start) <= |src|
      invariant OneLine(src, start, Anchor(src, changed.start))
    {
      start := start - 1;
    }
    var end: nat := changed.end;
    while end < |src| && src[end] != '\n'
      invariant changed.end <= end <= |src|
      invariant OneLine(src, changed.end, end)
    {
      end := end + 1;
    }
    var line: nat := start;
    while line <= end && line < |src|
      invariant start <= line <= |src| + 1
      invariant line <= |src| ==> StartsLine(src, line)
      invariant forall p: nat :: p < |src| && p < line && Touched(src, changed, p) ==> !DirectiveAt(src, p)
      decreases |src| + 1 - line
    {
      var lineEnd: nat := line;
      while lineEnd < |src| && src[lineEnd] != '\n'
        invariant line <= lineEnd <= |src|
        invariant OneLine(src, line, lineEnd)
      {
        lineEnd := lineEnd + 1;
      }
      var position: nat := line;
      while position < lineEnd && (src[position] == ' ' || src[position] == '\t')
        invariant line <= position <= lineEnd
        invariant DirectiveAt(src, line) <==> DirectiveAt(src, position)
      {
        position := position + 1;
      }
      if position < lineEnd && src[position] == '#' {
        return true;
      }
      line := lineEnd + 1;
    }
    return false;
  }
}
