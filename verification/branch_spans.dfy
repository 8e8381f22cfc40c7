/** The extents of the recorded branches of one file (preprocess/directives.go): when
    exactly the recorded bodies are pairwise disjoint or nested. */
module BranchSpans {
  import opened Collections
  import opened Conditions
  import opened ConditionTheorems
  import opened Conditionals
  import opened ConditionalTheorems

  predicate Disjoint(a: Branch, b: Branch) { a.bodyEnd <= b.bodyStart || b.bodyEnd <= a.bodyStart }

  predicate Inside(a: Branch, b: Branch) { b.bodyStart <= a.bodyStart && a.bodyEnd <= b.bodyEnd }

  /** Any two bodies are disjoint or nested. */
  predicate Laminar(marks: seq<Branch>) {
    forall i, j :: 0 <= i < j < |marks| ==>
      Disjoint(marks[i], marks[j]) || Inside(marks[i], marks[j]) || Inside(marks[j], marks[i])
  }

  predicate Between(marks: seq<Branch>, lo: nat, hi: nat) {
    forall b :: b in marks ==> lo <= b.bodyStart <= b.bodyEnd <= hi
  }

  /** The lines stand in order up to an offset. */
  predicate InOrder(lines: seq<Line>, hi: nat) {
    && (forall i :: 0 <= i < |lines| ==> lines[i].start <= lines[i].end <= hi)
    && (forall i, j :: 0 <= i < j < |lines| ==> lines[i].end <= lines[j].start)
  }

  /** No line is empty. */
  predicate Positive(lines: seq<Line>) {
    forall i :: 0 <= i < |lines| ==> lines[i].start < lines[i].end
  }

  // ---- What the lines say ----

  /** How many groups are open before line `i`. */
  function DepthAt(lines: seq<Line>, i: nat): nat
    requires i <= |lines|
  {
    if i == 0 then 0
    else
      var d := DepthAt(lines, i - 1);
      match lines[i - 1].what
      case If(_) => d + 1
      case Endif => if d > 0 then d - 1 else 0
      case _ => d
  }

  predicate Reopens(line: Line) { line.what.Elseif? || line.what.Else? }

  /** Line `i` ends a branch of a group at this depth. */
  predicate Ends(lines: seq<Line>, depth: nat, i: nat) {
    i < |lines| && depth > 0 && DepthAt(lines, i) == depth && (Reopens(lines[i]) || lines[i].what.Endif?)
  }

  /** Line `i` starts a branch of a group at this depth. */
  predicate Starts(lines: seq<Line>, depth: nat, i: nat) {
    i < |lines| && depth > 0
    && ((lines[i].what.If? && DepthAt(lines, i) == depth - 1) || (Reopens(lines[i]) && DepthAt(lines, i) == depth))
  }

  /** Line `i` is an #elseif or #else of a group past the limit. */
  predicate Stray(lines: seq<Line>, max: nat, i: nat) {
    i < |lines| && Reopens(lines[i]) && DepthAt(lines, i) > max
  }

  ghost predicate LastStray(lines: seq<Line>, max: nat, k: nat) {
    Stray(lines, max, k) && forall i: nat :: k < i < |lines| ==> !Stray(lines, max, i)
  }

  /** The last #elseif or #else past the limit comes after the end of the first body,
      if that body ends at all, and a body around it ends after it. */
  ghost predicate Crosses(lines: seq<Line>, max: nat) {
    exists k: nat, l: nat :: LastStray(lines, max, k) && Ends(lines, max, l) && k < l && FirstBodyOver(lines, k)
  }

  ghost predicate FirstBodyOver(lines: seq<Line>, k: nat) {
    (exists j: nat :: j > k && Ends(lines, 1, j)) ==> exists j: nat :: j < k && Ends(lines, 1, j)
  }

  /** For a file whose groups are all closed: some #elseif or #else past the limit
      comes after the end of the first body. */
  ghost predicate LateElse(lines: seq<Line>, max: nat) {
    exists j: nat, k: nat :: j < k && Ends(lines, 1, j) && Stray(lines, max, k)
  }

  /** Going down past a depth, some #endif stands at it. */
  lemma {:induction false} PassesDown(lines: seq<Line>, lo: nat, hi: nat, depth: nat) returns (l: nat)
    requires lo <= hi <= |lines| && DepthAt(lines, lo) >= depth > DepthAt(lines, hi)
    ensures lo <= l < hi && Ends(lines, depth, l)
    decreases hi
  {
    if DepthAt(lines, hi - 1) >= depth {
      l := hi - 1;
    } else {
      l := PassesDown(lines, lo, hi - 1, depth);
    }
  }

  lemma {:induction false} StartsDepth(lines: seq<Line>, depth: nat, h: nat)
    requires Starts(lines, depth, h)
    ensures DepthAt(lines, h + 1) == depth
  {
  }

  // ---- The records, read off the lines ----

  /** A branch recorded within the limit, and the line that ended it. */
  datatype Rec = Rec(head: nat, depth: nat, closer: Option<nat>)

  ghost predicate Unended(lines: seq<Line>, depth: nat, lo: nat, hi: nat) {
    forall c: nat :: lo < c < hi ==> !Ends(lines, depth, c)
  }

  ghost predicate RecOk(lines: seq<Line>, n: nat, max: nat, r: Rec) {
    && r.head < n <= |lines| && r.depth <= max && Starts(lines, r.depth, r.head)
    && match r.closer
       case None => Unended(lines, r.depth, r.head, n)
       case Some(c) => r.head < c < n && Ends(lines, r.depth, c) && Unended(lines, r.depth, r.head, c)
  }

  ghost predicate RecsOk(lines: seq<Line>, n: nat, max: nat, recs: seq<Rec>) {
    && (forall q :: 0 <= q < |recs| ==> RecOk(lines, n, max, recs[q]))
    && (forall p, q :: 0 <= p < q < |recs| ==> recs[p].head < recs[q].head)
  }

  function RecEnd(lines: seq<Line>, r: Rec): nat
    requires r.head < |lines| && (r.closer.Some? ==> r.closer.value < |lines|)
  {
    if r.closer.Some? then lines[r.closer.value].start else lines[r.head].end
  }

  /** Later of two records: begun after the earlier one ended, or ended before it. */
  lemma {:induction false} RecsNest(lines: seq<Line>, max: nat, a: Rec, b: Rec)
    requires RecOk(lines, |lines|, max, a) && RecOk(lines, |lines|, max, b) && a.head < b.head
    ensures a.closer.Some? && b.head < a.closer.value ==> b.closer.Some? && b.closer.value < a.closer.value
  {
    if a.closer.Some? && b.head < a.closer.value {
      var c := a.closer.value;
      StartsDepth(lines, a.depth, a.head);
      StartsDepth(lines, b.depth, b.head);
      if DepthAt(lines, b.head) < a.depth {
        var l := PassesDown(lines, a.head + 1, b.head, a.depth);
        assert false;
      }
      assert b.depth > a.depth by {
        assert !Ends(lines, a.depth, b.head);
      }
      var l := PassesDown(lines, b.head + 1, c, b.depth);
    }
  }

  // ---- The machine keeps these records ----

  /** An open group within the limit points at the record of its present branch, one
      past it at the first record. */
  ghost predicate FrameOk(max: nat, stack: seq<CondFrame>, recs: seq<Rec>, t: nat) {
    t < |stack| &&
    if t >= max then stack[t].overflow && stack[t].openBranchIndex == 0
    else
      && !stack[t].overflow && stack[t].openBranchIndex < |recs|
      && recs[stack[t].openBranchIndex].depth == t + 1 && recs[stack[t].openBranchIndex].closer.None?
  }

  /** A branch that has not ended is the present branch of an open group. */
  ghost predicate RecFramed(stack: seq<CondFrame>, recs: seq<Rec>, q: nat) {
    q < |recs| &&
    (recs[q].closer.None? ==> 0 < recs[q].depth <= |stack| && stack[recs[q].depth - 1].openBranchIndex == q)
  }

  ghost predicate FramesOk(lines: seq<Line>, n: nat, max: nat, stack: seq<CondFrame>, recs: seq<Rec>) {
    && n <= |lines| && |stack| == DepthAt(lines, n)
    && (forall t: nat :: t < |stack| ==> FrameOk(max, stack, recs, t))
    && (forall q: nat :: q < |recs| ==> RecFramed(stack, recs, q))
  }

  /** Before the first #if no group is open. */
  ghost predicate FlatBefore(lines: seq<Line>, n: nat, recs: seq<Rec>) {
    && n <= |lines|
    && (recs == [] ==> forall j: nat :: j <= n ==> DepthAt(lines, j) == 0)
    && (recs != [] ==> recs[0].depth == 1 && recs[0].head < n && forall j: nat :: j <= recs[0].head ==> DepthAt(lines, j) == 0)
  }

  ghost predicate Covers(r: Rec, depth: nat, k: nat) {
    r.depth == depth && r.head < k && (r.closer.Some? ==> k < r.closer.value)
  }

  /** Every stray directive stands inside a branch at the limit. */
  ghost predicate Covered(lines: seq<Line>, n: nat, max: nat, recs: seq<Rec>) {
    forall k: nat :: k < n && Stray(lines, max, k) ==> exists q :: 0 <= q < |recs| && Covers(recs[q], max, k)
  }

  /** The stray directive that moved the first record's end after its branch was over
      or while it still is open, if any. */
  ghost predicate MovedOk(lines: seq<Line>, n: nat, max: nat, recs: seq<Rec>, moved: Option<nat>) {
    match moved
    case None => forall k: nat :: k < n && Stray(lines, max, k) ==>
                   recs != [] && recs[0].closer.Some? && k < recs[0].closer.value
    case Some(k) =>
      && recs != [] && k < n && Stray(lines, max, k)
      && (forall i: nat :: k < i < n ==> !Stray(lines, max, i))
      && (recs[0].closer.Some? ==> recs[0].closer.value < k)
  }

  /** The machine's records are these, but for the first one's end. */
  ghost predicate BodiesOk(lines: seq<Line>, recs: seq<Rec>, moved: Option<nat>, branches: seq<Branch>) {
    && |branches| == |recs|
    && (forall q :: 0 <= q < |recs| ==>
          && recs[q].head < |lines| && (recs[q].closer.Some? ==> recs[q].closer.value < |lines|)
          && branches[q].bodyStart == lines[recs[q].head].end
          && (q > 0 || moved.None? ==> branches[q].bodyEnd == RecEnd(lines, recs[q])))
    && (moved.Some? ==> moved.value < |lines| && recs != [] && branches[0].bodyEnd == lines[moved.value].start)
  }

  ghost predicate Keeps(lines: seq<Line>, n: nat, max: nat, s: State, recs: seq<Rec>, moved: Option<nat>) {
    && RecsOk(lines, n, max, recs) && FramesOk(lines, n, max, s.stack, recs) && FlatBefore(lines, n, recs)
    && Covered(lines, n, max, recs) && MovedOk(lines, n, max, recs, moved) && BodiesOk(lines, recs, moved, s.branches)
  }

  lemma {:induction false} RecLater(lines: seq<Line>, n: nat, max: nat, r: Rec)
    requires n < |lines| && RecOk(lines, n, max, r)
    requires r.closer.None? ==> !Ends(lines, r.depth, n)
    ensures RecOk(lines, n + 1, max, r)
  {
    hide Ends, Starts;
  }

  lemma {:induction false} RecsLater(lines: seq<Line>, n: nat, max: nat, recs: seq<Rec>)
    requires n < |lines| && RecsOk(lines, n, max, recs)
    requires forall d: nat :: d <= max ==> !Ends(lines, d, n)
    ensures RecsOk(lines, n + 1, max, recs)
  {
    hide Ends, Starts, RecOk;
    forall q | 0 <= q < |recs| ensures RecOk(lines, n + 1, max, recs[q]) {
      assert recs[q].depth <= max by { RecWithin(lines, n, max, recs[q]); }
      RecLater(lines, n, max, recs[q]);
    }
  }

  lemma {:induction false} RecWithin(lines: seq<Line>, n: nat, max: nat, r: Rec)
    requires RecOk(lines, n, max, r)
    ensures 0 < r.depth <= max && r.head < n <= |lines| && (r.closer.Some? ==> r.head < r.closer.value < n)
  {
  }

  /** A line that neither starts nor ends a branch within the limit and is no stray. */
  lemma {:induction false} QuietKeeps(lines: seq<Line>, n: nat, max: nat, s: State, t: State, recs: seq<Rec>, moved: Option<nat>)
    requires max > 0 && n < |lines| && Keeps(lines, n, max, s, recs, moved)
    requires !Stray(lines, max, n) && forall d: nat :: d <= max ==> !Ends(lines, d, n)
    requires FramesOk(lines, n + 1, max, t.stack, recs) && t.branches == s.branches
    requires recs == [] ==> DepthAt(lines, n + 1) == 0
    ensures Keeps(lines, n + 1, max, t, recs, moved)
  {
    hide DepthAt, Ends, Stray, Starts, RecsOk, FramesOk, BodiesOk;
    RecsLater(lines, n, max, recs);
    forall k: nat | k < n + 1 && Stray(lines, max, k) ensures k < n {
    }
  }

  lemma {:induction false} StrayKeeps(lines: seq<Line>, n: nat, max: nat, s: State, t: State, recs: seq<Rec>, moved: Option<nat>)
    requires max > 0 && n < |lines| && Keeps(lines, n, max, s, recs, moved) && Stray(lines, max, n)
    requires t.stack == s.stack && recs != [] && t.branches == s.branches[0 := s.branches[0].(bodyEnd := lines[n].start)]
    ensures Keeps(lines, n + 1, max, t, recs, Some(n))
  {
    hide Starts;
    var top := s.stack[max - 1];
    assert FrameOk(max, s.stack, recs, max - 1);
    assert Covers(recs[top.openBranchIndex], max, n);
    assert DepthAt(lines, n + 1) == DepthAt(lines, n);
    assert forall d: nat :: d <= max ==> !Ends(lines, d, n);
    hide DepthAt, Ends, Stray;
  }

  function Ended(recs: seq<Rec>, q: nat, n: nat): seq<Rec>
    requires q < |recs|
  {
    recs[q := recs[q].(closer := Some(n))]
  }

  function MovedAfter(q: nat, moved: Option<nat>): Option<nat> { if q == 0 then None else moved }

  /** The records after the branch of record `q` ended at line `n`. */
  lemma {:induction false} EndKeeps(lines: seq<Line>, n: nat, max: nat, s: State, q: nat, recs: seq<Rec>, moved: Option<nat>)
    requires max > 0 && n < |lines| && Keeps(lines, n, max, s, recs, moved)
    requires 0 < |s.stack| <= max && q == s.stack[|s.stack| - 1].openBranchIndex && Ends(lines, |s.stack|, n)
    ensures q < |recs| == |s.branches|
    ensures
      var recs', moved' := Ended(recs, q, n), MovedAfter(q, moved);
      && RecsOk(lines, n + 1, max, recs') && FlatBefore(lines, n, recs') && Covered(lines, n + 1, max, recs')
      && MovedOk(lines, n + 1, max, recs', moved')
      && BodiesOk(lines, recs', moved', s.branches[q := s.branches[q].(bodyEnd := lines[n].start)])
      && (forall p :: 0 <= p < |recs| && p != q ==> recs'[p] == recs[p] && (recs[p].closer.None? ==> recs[p].depth < |s.stack|))
  {
    hide DepthAt, Ends, Stray, Starts, Unended;
    EndedRecs(lines, n, max, s.stack, q, recs);
    EndsIsNoStray(lines, max, |s.stack|, n);
    EndedCovers(lines, n, max, recs, q);
    RecWithin(lines, n, max, recs[q]);
  }

  lemma {:induction false} EndsIsNoStray(lines: seq<Line>, max: nat, depth: nat, n: nat)
    requires Ends(lines, depth, n)
    ensures depth <= max ==> !Stray(lines, max, n)
    ensures forall d: nat :: Ends(lines, d, n) ==> d == depth
  {
  }

  lemma {:induction false} EndedRecs(lines: seq<Line>, n: nat, max: nat, stack: seq<CondFrame>, q: nat, recs: seq<Rec>)
    requires n < |lines| && RecsOk(lines, n, max, recs) && FramesOk(lines, n, max, stack, recs)
    requires 0 < |stack| <= max && q == stack[|stack| - 1].openBranchIndex && Ends(lines, |stack|, n)
    ensures q < |recs| && RecsOk(lines, n + 1, max, Ended(recs, q, n))
    ensures recs[q].closer.None? && recs[q].depth == |stack|
    ensures forall p :: 0 <= p < |recs| && p != q && recs[p].closer.None? ==> recs[p].depth < |stack|
  {
    hide DepthAt, Ends, Starts, RecOk;
    EndsIsNoStray(lines, max, |stack|, n);
    assert FrameOk(max, stack, recs, |stack| - 1);
    var recs' := Ended(recs, q, n);
    forall p | 0 <= p < |recs|
      ensures RecOk(lines, n + 1, max, recs'[p])
      ensures p != q && recs[p].closer.None? ==> recs[p].depth < |stack|
    {
      assert RecFramed(stack, recs, p);
      if p == q {
        RecEnds(lines, n, max, recs[p]);
      } else {
        RecLater(lines, n, max, recs[p]);
      }
    }
  }

  lemma {:induction false} RecEnds(lines: seq<Line>, n: nat, max: nat, r: Rec)
    requires n < |lines| && RecOk(lines, n, max, r) && r.closer.None? && Ends(lines, r.depth, n)
    ensures RecOk(lines, n + 1, max, r.(closer := Some(n)))
  {
    hide Ends, Starts;
  }

  lemma {:induction false} EndedCovers(lines: seq<Line>, n: nat, max: nat, recs: seq<Rec>, q: nat)
    requires n < |lines| && q < |recs| && recs[q].closer.None? && Covered(lines, n, max, recs) && !Stray(lines, max, n)
    ensures Covered(lines, n + 1, max, Ended(recs, q, n))
  {
    hide Stray;
    var recs' := Ended(recs, q, n);
    forall k: nat | k < n + 1 && Stray(lines, max, k) ensures exists p :: 0 <= p < |recs'| && Covers(recs'[p], max, k) {
      var p :| 0 <= p < |recs| && Covers(recs[p], max, k);
      assert Covers(recs'[p], max, k);
    }
  }

  /** Line `n` begins a branch within the limit. */
  lemma {:induction false} BeginKeeps(
      lines: seq<Line>, n: nat, max: nat, depth: nat, recs: seq<Rec>, moved: Option<nat>, branches: seq<Branch>, b: Branch)
    requires n < |lines| && Starts(lines, depth, n) && depth <= max
    requires RecsOk(lines, n + 1, max, recs) && forall q :: 0 <= q < |recs| ==> recs[q].head < n
    requires FlatBefore(lines, n, recs) && Covered(lines, n + 1, max, recs)
    requires MovedOk(lines, n + 1, max, recs, moved) && BodiesOk(lines, recs, moved, branches)
    requires b.bodyStart == b.bodyEnd == lines[n].end
    ensures
      var recs' := recs + [Rec(n, depth, None)];
      && RecsOk(lines, n + 1, max, recs') && FlatBefore(lines, n + 1, recs') && Covered(lines, n + 1, max, recs')
      && MovedOk(lines, n + 1, max, recs', moved) && BodiesOk(lines, recs', moved, branches + [b])
  {
    var recs' := recs + [Rec(n, depth, None)];
    assert recs == [] ==> DepthAt(lines, n) == 0 && depth == 1;
    hide DepthAt, Ends, Stray, Starts;
    assert RecOk(lines, n + 1, max, Rec(n, depth, None));
    assert RecsOk(lines, n + 1, max, recs') by { hide RecOk; }
    forall k: nat | k < n + 1 && Stray(lines, max, k) ensures exists p :: 0 <= p < |recs'| && Covers(recs'[p], max, k) {
      var p :| 0 <= p < |recs| && Covers(recs[p], max, k);
      assert Covers(recs'[p], max, k);
    }
  }

  // ---- One line of the machine ----

  ghost predicate Opens(s: State, t: State, below: seq<CondFrame>, branches: seq<Branch>, at: nat) {
    && t.stack != [] && t.branches != [] && t.stack == below + [t.stack[|t.stack| - 1]]
    && !t.stack[|t.stack| - 1].overflow && t.stack[|t.stack| - 1].openBranchIndex == |branches|
    && t.branches == branches + [t.branches[|t.branches| - 1]]
    && t.branches[|t.branches| - 1].bodyStart == t.branches[|t.branches| - 1].bodyEnd == at
  }

  /** What a line does to the stack and the records. */
  lemma {:induction false} StepShape(u: Setup, s: State, line: Line)
    ensures
      var t, d := Step(u, s, line), |s.stack|;
      match line.what
      case If(_) =>
        if d < u.maxDepth then Opens(s, t, s.stack, s.branches, line.end)
        else t.branches == s.branches && |t.stack| == d + 1 && t.stack[..d] == s.stack
             && t.stack[d].overflow && t.stack[d].openBranchIndex == 0
      case Act(_) => t.stack == s.stack && t.branches == s.branches
      case Endif =>
        d > 0 ==> && t.stack == s.stack[..d - 1]
                  && t.branches == if s.stack[d - 1].overflow then s.branches else CloseTop(s, line.start).branches
      case _ => d > 0 ==> if s.stack[d - 1].overflow then t.stack == s.stack && t.branches == CloseTop(s, line.start).branches
                          else Opens(s, t, s.stack[..d - 1], CloseTop(s, line.start).branches, line.end)
    ensures s.stack == [] && !line.what.If? ==> Step(u, s, line).stack == s.stack && Step(u, s, line).branches == s.branches
  {
    hide Holds, Complaint, CurrentActive;
  }

  lemma {:induction false} StepKeeps(u: Setup, lines: seq<Line>, n: nat, s: State, recs: seq<Rec>, moved: Option<nat>)
    returns (recs': seq<Rec>, moved': Option<nat>)
    requires u.maxDepth > 0 && n < |lines| && Keeps(lines, n, u.maxDepth, s, recs, moved)
    ensures Keeps(lines, n + 1, u.maxDepth, Step(u, s, lines[n]), recs', moved')
  {
    hide Step, Keeps, Opens, CloseTop;
    var line, max, d := lines[n], u.maxDepth, |s.stack|;
    assert d == DepthAt(lines, n) by { KeepsDepth(lines, n, max, s, recs, moved); }
    StepShape(u, s, line);
    if line.what.If? && d < max {
      recs', moved' := IfKeeps(u, lines, n, s, recs, moved);
    } else if !line.what.If? && !line.what.Act? && 0 < d <= max {
      recs', moved' := EndingKeeps(u, lines, n, s, recs, moved);
    } else if Reopens(line) && d > max {
      recs', moved' := recs, Some(n);
      StrayStep(u, lines, n, s, recs, moved);
    } else {
      recs', moved' := recs, moved;
      QuietStep(u, lines, n, s, recs, moved);
    }
  }

  lemma {:induction false} KeepsDepth(lines: seq<Line>, n: nat, max: nat, s: State, recs: seq<Rec>, moved: Option<nat>)
    requires Keeps(lines, n, max, s, recs, moved)
    ensures n <= |lines| && |s.stack| == DepthAt(lines, n)
  {
  }

  /** A group is opened, with its first branch as a new record. */
  lemma {:induction false} FramePushed(lines: seq<Line>, n: nat, max: nat, stack: seq<CondFrame>, recs: seq<Rec>, f: CondFrame)
    requires n < |lines| && FramesOk(lines, n, max, stack, recs) && |stack| < max
    requires DepthAt(lines, n + 1) == |stack| + 1 && !f.overflow && f.openBranchIndex == |recs|
    ensures FramesOk(lines, n + 1, max, stack + [f], recs + [Rec(n, |stack| + 1, None)])
  {
    hide DepthAt;
    var stack', recs' := stack + [f], recs + [Rec(n, |stack| + 1, None)];
    forall t: nat | t < |stack'| ensures FrameOk(max, stack', recs', t) {
      assert t < |stack| ==> FrameOk(max, stack, recs, t);
    }
    forall q: nat | q < |recs'| ensures RecFramed(stack', recs', q) {
      assert q < |recs| ==> RecFramed(stack, recs, q);
    }
  }

  /** The present branch of the innermost group ends. */
  lemma {:induction false} FramesBelow(lines: seq<Line>, n: nat, max: nat, stack: seq<CondFrame>, recs: seq<Rec>)
    requires FramesOk(lines, n, max, stack, recs) && 0 < |stack| <= max
    ensures
      var below, q := stack[..|stack| - 1], stack[|stack| - 1].openBranchIndex;
      && q < |recs| && recs[q].depth == |stack|
      && (forall t: nat :: t < |below| ==> FrameOk(max, below, Ended(recs, q, n), t))
      && (forall p: nat :: p < |recs| ==> RecFramed(below, Ended(recs, q, n), p))
  {
    hide DepthAt;
    var below, q := stack[..|stack| - 1], stack[|stack| - 1].openBranchIndex;
    assert FrameOk(max, stack, recs, |stack| - 1);
    var recs' := Ended(recs, q, n);
    forall t: nat | t < |below| ensures FrameOk(max, below, recs', t) {
      assert FrameOk(max, stack, recs, t);
    }
    forall p: nat | p < |recs| ensures RecFramed(below, recs', p) {
      assert RecFramed(stack, recs, p);
    }
  }

  /** The group's next branch takes the place of the present one. */
  lemma {:induction false} FrameReplaced(lines: seq<Line>, n: nat, max: nat, stack: seq<CondFrame>, recs: seq<Rec>, f: CondFrame)
    requires n < |lines| && FramesOk(lines, n, max, stack, recs) && 0 < |stack| <= max
    requires DepthAt(lines, n + 1) == |stack| && !f.overflow && f.openBranchIndex == |recs|
    ensures var d := |stack|; var q := stack[d - 1].openBranchIndex;
            q < |recs| && FramesOk(lines, n + 1, max, stack[..d - 1] + [f], Ended(recs, q, n) + [Rec(n, d, None)])
  {
    hide DepthAt;
    FramesBelow(lines, n, max, stack, recs);
    var below, ended := stack[..|stack| - 1], Ended(recs, stack[|stack| - 1].openBranchIndex, n);
    var stack', recs' := below + [f], ended + [Rec(n, |stack|, None)];
    forall t: nat | t < |stack'| ensures FrameOk(max, stack', recs', t) {
      assert t < |below| ==> FrameOk(max, below, ended, t);
    }
    forall q: nat | q < |recs'| ensures RecFramed(stack', recs', q) {
      assert q < |ended| ==> RecFramed(below, ended, q);
    }
  }

  /** The group is closed. */
  lemma {:induction false} FramePopped(lines: seq<Line>, n: nat, max: nat, stack: seq<CondFrame>, recs: seq<Rec>)
    requires n < |lines| && FramesOk(lines, n, max, stack, recs) && 0 < |stack| <= max
    requires DepthAt(lines, n + 1) == |stack| - 1
    ensures var d := |stack|; var q := stack[d - 1].openBranchIndex;
            q < |recs| && FramesOk(lines, n + 1, max, stack[..d - 1], Ended(recs, q, n))
  {
    hide DepthAt, FrameOk, RecFramed;
    FramesBelow(lines, n, max, stack, recs);
  }

  lemma {:induction false} IfKeeps(u: Setup, lines: seq<Line>, n: nat, s: State, recs: seq<Rec>, moved: Option<nat>)
    returns (recs': seq<Rec>, moved': Option<nat>)
    requires u.maxDepth > 0 && n < |lines| && Keeps(lines, n, u.maxDepth, s, recs, moved)
    requires lines[n].what.If? && |s.stack| < u.maxDepth
    ensures Keeps(lines, n + 1, u.maxDepth, Step(u, s, lines[n]), recs', moved')
  {
    hide Step, CloseTop, FramesOk, Covered, MovedOk, RecEnd;
    KeepsDepth(lines, n, u.maxDepth, s, recs, moved);
    var line, max, d, t := lines[n], u.maxDepth, |s.stack|, Step(u, s, lines[n]);
    StepShape(u, s, line);
    recs', moved' := recs + [Rec(n, d + 1, None)], moved;
    assert !Stray(lines, max, n) && (forall e: nat :: !Ends(lines, e, n)) && Starts(lines, d + 1, n);
    assert DepthAt(lines, n + 1) == d + 1;
    hide DepthAt, Ends, Stray, Starts, RecOk;
    RecsLater(lines, n, max, recs);
    forall q | 0 <= q < |recs| ensures recs[q].head < n { RecWithin(lines, n, max, recs[q]); }
    NoStrayKeeps(lines, n, max, recs, moved);
    BeginKeeps(lines, n, max, d + 1, recs, moved, s.branches, t.branches[|t.branches| - 1]);
    FramePushed(lines, n, max, s.stack, recs, t.stack[|t.stack| - 1]);
  }

  lemma {:induction false} NoStrayKeeps(lines: seq<Line>, n: nat, max: nat, recs: seq<Rec>, moved: Option<nat>)
    requires Covered(lines, n, max, recs) && MovedOk(lines, n, max, recs, moved) && !Stray(lines, max, n)
    ensures Covered(lines, n + 1, max, recs) && MovedOk(lines, n + 1, max, recs, moved)
  {
    hide Stray, Covers;
    forall k: nat | k < n + 1 && Stray(lines, max, k) ensures k < n {
    }
  }

  /** The line ends the present branch: an #endif, or the start of the next one. */
  lemma {:induction false} EndingKeeps(u: Setup, lines: seq<Line>, n: nat, s: State, recs: seq<Rec>, moved: Option<nat>)
    returns (recs': seq<Rec>, moved': Option<nat>)
    requires u.maxDepth > 0 && n < |lines| && Keeps(lines, n, u.maxDepth, s, recs, moved)
    requires (Reopens(lines[n]) || lines[n].what.Endif?) && 0 < |s.stack| <= u.maxDepth
    ensures Keeps(lines, n + 1, u.maxDepth, Step(u, s, lines[n]), recs', moved')
  {
    hide Step, Covered, MovedOk, RecEnd, BodiesOk, RecsOk;
    KeepsDepth(lines, n, u.maxDepth, s, recs, moved);
    var line, max, d, t := lines[n], u.maxDepth, |s.stack|, Step(u, s, lines[n]);
    var q := s.stack[d - 1].openBranchIndex;
    assert FrameOk(max, s.stack, recs, d - 1);
    StepShape(u, s, line);
    assert Ends(lines, d, n) && (Reopens(line) ==> Starts(lines, d, n));
    assert DepthAt(lines, n + 1) == if Reopens(line) then d else d - 1;
    hide DepthAt, Ends, Stray, Starts, FramesOk, FlatBefore;
    EndKeeps(lines, n, max, s, q, recs, moved);
    recs', moved' := Ended(recs, q, n), MovedAfter(q, moved);
    if Reopens(line) {
      RecsWithin(lines, n, max, recs);
      BeginKeeps(lines, n, max, d, recs', moved', CloseTop(s, line.start).branches, t.branches[|t.branches| - 1]);
      FrameReplaced(lines, n, max, s.stack, recs, t.stack[|t.stack| - 1]);
      recs' := recs' + [Rec(n, d, None)];
    } else {
      FlatLater(lines, n, recs');
      FramePopped(lines, n, max, s.stack, recs);
    }
  }

  lemma {:induction false} RecsWithin(lines: seq<Line>, n: nat, max: nat, recs: seq<Rec>)
    requires RecsOk(lines, n, max, recs)
    ensures forall p :: 0 <= p < |recs| ==> recs[p].head < n && recs[p].depth <= max
  {
  }

  lemma {:induction false} FlatLater(lines: seq<Line>, n: nat, recs: seq<Rec>)
    requires n < |lines| && FlatBefore(lines, n, recs) && recs != []
    ensures FlatBefore(lines, n + 1, recs)
  {
  }

  lemma {:induction false} StrayStep(u: Setup, lines: seq<Line>, n: nat, s: State, recs: seq<Rec>, moved: Option<nat>)
    requires u.maxDepth > 0 && n < |lines| && Keeps(lines, n, u.maxDepth, s, recs, moved)
    requires Reopens(lines[n]) && |s.stack| > u.maxDepth
    ensures Keeps(lines, n + 1, u.maxDepth, Step(u, s, lines[n]), recs, Some(n))
  {
    hide Step;
    StepShape(u, s, lines[n]);
    assert FrameOk(u.maxDepth, s.stack, recs, |s.stack| - 1) && FrameOk(u.maxDepth, s.stack, recs, 0);
    StrayKeeps(lines, n, u.maxDepth, s, Step(u, s, lines[n]), recs, moved);
  }

  lemma {:induction false} QuietStep(u: Setup, lines: seq<Line>, n: nat, s: State, recs: seq<Rec>, moved: Option<nat>)
    requires u.maxDepth > 0 && n < |lines| && Keeps(lines, n, u.maxDepth, s, recs, moved)
    requires lines[n].what.If? ==> |s.stack| >= u.maxDepth
    requires Reopens(lines[n]) ==> s.stack == []
    requires lines[n].what.Endif? ==> s.stack == [] || |s.stack| > u.maxDepth
    ensures Keeps(lines, n + 1, u.maxDepth, Step(u, s, lines[n]), recs, moved)
  {
    hide Step, RecsOk, Covered, MovedOk, BodiesOk, FramesOk;
    var max, d := u.maxDepth, |s.stack|;
    KeepsDepth(lines, n, max, s, recs, moved);
    StepShape(u, s, lines[n]);
    assert !Stray(lines, max, n);
    assert forall e: nat :: e <= max ==> !Ends(lines, e, n);
    if recs == [] { NoRecsNoFrames(lines, n, max, s.stack, recs); }
    assert recs == [] ==> DepthAt(lines, n + 1) == 0;
    FramesOverflow(lines, n, max, s.stack, recs);
    hide Stray, Ends, DepthAt;
    RecsWithin(lines, n, max, recs);
    QuietFrames(lines, n, max, s.stack, Step(u, s, lines[n]).stack, recs);
    QuietKeeps(lines, n, max, s, Step(u, s, lines[n]), recs, moved);
  }

  lemma {:induction false} FramesOverflow(lines: seq<Line>, n: nat, max: nat, stack: seq<CondFrame>, recs: seq<Rec>)
    requires FramesOk(lines, n, max, stack, recs)
    ensures |stack| > max ==> stack[|stack| - 1].overflow
  {
    hide DepthAt;
    assert |stack| > max ==> FrameOk(max, stack, recs, |stack| - 1);
  }

  lemma {:induction false} NoRecsNoFrames(lines: seq<Line>, n: nat, max: nat, stack: seq<CondFrame>, recs: seq<Rec>)
    requires max > 0 && FramesOk(lines, n, max, stack, recs) && recs == []
    ensures stack == []
  {
    hide DepthAt;
    assert stack != [] ==> FrameOk(max, stack, recs, 0);
  }

  /** The stack stays as it is, or gains or loses a group past the limit. */
  lemma {:induction false} QuietFrames(
      lines: seq<Line>, n: nat, max: nat, stack: seq<CondFrame>, stack': seq<CondFrame>, recs: seq<Rec>)
    requires n < |lines| && FramesOk(lines, n, max, stack, recs) && |stack'| == DepthAt(lines, n + 1)
    requires forall q :: 0 <= q < |recs| ==> recs[q].depth <= max
    requires
      || stack' == stack
      || (|stack| >= max && |stack'| == |stack| + 1 && stack'[..|stack|] == stack
          && stack'[|stack|].overflow && stack'[|stack|].openBranchIndex == 0)
      || (|stack| > max && stack' == stack[..|stack| - 1])
    ensures FramesOk(lines, n + 1, max, stack', recs)
  {
    hide DepthAt;
    forall t: nat | t < |stack'| ensures FrameOk(max, stack', recs, t) {
      assert t < |stack| ==> FrameOk(max, stack, recs, t) && stack'[t] == stack[t];
    }
    forall q: nat | q < |recs| ensures RecFramed(stack', recs, q) {
      assert RecFramed(stack, recs, q);
      assert |stack| > max ==> FrameOk(max, stack, recs, |stack| - 1);
    }
  }

  lemma {:induction false} StartKeeps(lines: seq<Line>, max: nat, macros: Macros)
    ensures Keeps(lines, 0, max, Start(macros), [], None)
  {
  }

  /** Any run: the records can be read off the lines. */
  lemma {:induction false} RunKeeps(u: Setup, macros: Macros, lines: seq<Line>, n: nat)
    returns (recs: seq<Rec>, moved: Option<nat>)
    requires u.maxDepth > 0 && n <= |lines|
    ensures Keeps(lines, n, u.maxDepth, Steps(u, Start(macros), lines[..n]), recs, moved)
  {
    hide Step, Keeps;
    if n == 0 {
      recs, moved := [], None;
      StartKeeps(lines, u.maxDepth, macros);
    } else {
      recs, moved := RunKeeps(u, macros, lines, n - 1);
      recs, moved := StepKeeps(u, lines, n - 1, Steps(u, Start(macros), lines[..n - 1]), recs, moved);
      assert lines[..n] == lines[..n - 1] + [lines[n - 1]];
      StepsSplit(u, Start(macros), lines[..n - 1], [lines[n - 1]]);
      assert [lines[n - 1]][1..] == [];
    }
  }

  // ---- When the bodies nest ----

  predicate Apart(a: Branch, b: Branch) { Disjoint(a, b) || Inside(a, b) || Inside(b, a) }

  /** Bodies whose ends were not moved. */
  lemma {:induction false} RecsApart(lines: seq<Line>, hi: nat, max: nat, a: Rec, b: Rec, x: Branch, y: Branch)
    requires InOrder(lines, hi) && RecOk(lines, |lines|, max, a) && RecOk(lines, |lines|, max, b) && a.head < b.head
    requires x.bodyStart == lines[a.head].end && x.bodyEnd == RecEnd(lines, a)
    requires y.bodyStart == lines[b.head].end && y.bodyEnd == RecEnd(lines, b)
    ensures Apart(x, y)
  {
    RecsNest(lines, max, a, b);
    hide RecOk, Ends, Starts, Unended;
    assert a.head < |lines| && b.head < |lines|;
    assert lines[a.head].end <= lines[b.head].start;
    if a.closer.Some? {
      var c := a.closer.value;
      if b.head < c {
        assert lines[b.closer.value].end <= lines[c].start;
      } else if c < b.head {
        assert lines[c].end <= lines[b.head].start;
      }
    }
  }

  /** The first body, its end moved to line `k`, and a body that no directive after `k` ends. */
  lemma {:induction false} MovedApart(lines: seq<Line>, hi: nat, max: nat, a: Rec, b: Rec, k: nat, x: Branch, y: Branch)
    requires InOrder(lines, hi) && RecOk(lines, |lines|, max, a) && RecOk(lines, |lines|, max, b) && a.head < b.head
    requires Stray(lines, max, k) && forall l: nat :: k < l ==> !Ends(lines, max, l)
    requires x.bodyStart == lines[a.head].end && x.bodyEnd == lines[k].start
    requires y.bodyStart == lines[b.head].end && y.bodyEnd == RecEnd(lines, b)
    ensures Apart(x, y)
  {
    assert b.head != k by {
      StartsDepth(lines, b.depth, b.head);
    }
    if b.closer.Some? && b.closer.value > k {
      var c := b.closer.value;
      assert DepthAt(lines, c) == b.depth <= max;
      if b.depth < max {
        var l := PassesDown(lines, k, c, max);
        assert false;
      }
    }
    hide RecOk, Ends, Starts, Unended, Stray, DepthAt;
    assert lines[a.head].end <= lines[b.head].start;
  }

  /** A body around line `k`, within the limit, and the first body with its end moved
      to line `k` cross. */
  lemma {:induction false} MovedCrosses(lines: seq<Line>, hi: nat, max: nat, a: Rec, b: Rec, k: nat, x: Branch, y: Branch)
    requires InOrder(lines, hi) && Positive(lines) && RecOk(lines, |lines|, max, b) && a.head < b.head
    requires Stray(lines, max, k) && Covers(b, max, k) && b.closer.Some?
    requires x.bodyStart == lines[a.head].end && x.bodyEnd == lines[k].start
    requires y.bodyStart == lines[b.head].end && y.bodyEnd == RecEnd(lines, b)
    ensures !Apart(x, y)
  {
    StartsDepth(lines, b.depth, b.head);
    assert k != b.head + 1;
    assert lines[b.head].end <= lines[b.head + 1].start < lines[b.head + 1].end <= lines[k].start;
    assert lines[k].end <= lines[b.closer.value].start;
    assert lines[a.head].end <= lines[b.head].start;
  }

  /** Directives that end branches of outermost groups come after the first #if, and
      the first of them ends the first body. */
  lemma {:induction false} FirstEnd(lines: seq<Line>, max: nat, recs: seq<Rec>, j: nat)
    requires RecsOk(lines, |lines|, max, recs) && FlatBefore(lines, |lines|, recs) && Ends(lines, 1, j)
    ensures recs != [] && recs[0].closer.Some? && recs[0].closer.value <= j
  {
    assert RecOk(lines, |lines|, max, recs[0]);
  }

  lemma {:induction false} LaminarHere(
      lines: seq<Line>, hi: nat, max: nat, recs: seq<Rec>, moved: Option<nat>, branches: seq<Branch>)
    requires InOrder(lines, hi) && RecsOk(lines, |lines|, max, recs) && BodiesOk(lines, recs, moved, branches)
    requires moved.Some? ==> Stray(lines, max, moved.value) && forall l: nat :: moved.value < l ==> !Ends(lines, max, l)
    ensures Laminar(branches)
  {
    hide InOrder, Stray, Ends, RecOk, RecEnd;
    forall i, j | 0 <= i < j < |branches| ensures Apart(branches[i], branches[j]) {
      if i == 0 && moved.Some? {
        MovedApart(lines, hi, max, recs[i], recs[j], moved.value, branches[i], branches[j]);
      } else {
        RecsApart(lines, hi, max, recs[i], recs[j], branches[i], branches[j]);
      }
    }
  }

  lemma {:induction false} CrossesHere(
      lines: seq<Line>, hi: nat, max: nat, recs: seq<Rec>, k: nat, l: nat, branches: seq<Branch>)
    requires InOrder(lines, hi) && Positive(lines) && max > 0
    requires RecsOk(lines, |lines|, max, recs) && BodiesOk(lines, recs, Some(k), branches)
    requires Covered(lines, |lines|, max, recs) && MovedOk(lines, |lines|, max, recs, Some(k))
    requires k < l && Ends(lines, max, l)
    ensures !Laminar(branches)
  {
    hide InOrder, Positive, RecEnd;
    var q :| 0 <= q < |recs| && Covers(recs[q], max, k);
    assert RecOk(lines, |lines|, max, recs[q]);
    assert recs[q].closer.Some?;
    assert q != 0;
    MovedCrosses(lines, hi, max, recs[0], recs[q], k, branches[0], branches[q]);
  }

  lemma {:induction false} NestExactly(
      lines: seq<Line>, hi: nat, max: nat, s: State, recs: seq<Rec>, moved: Option<nat>)
    requires InOrder(lines, hi) && Positive(lines) && max > 0 && Keeps(lines, |lines|, max, s, recs, moved)
    ensures Laminar(s.branches) <==> !Crosses(lines, max)
  {
    hide InOrder, Positive, RecsOk, FramesOk, FlatBefore, Covered, BodiesOk, Laminar, Stray, Ends;
    if Crosses(lines, max) {
      var k: nat, l: nat :| LastStray(lines, max, k) && Ends(lines, max, l) && k < l && FirstBodyOver(lines, k);
      assert moved == Some(k) by { LastStrayMoves(lines, max, s, recs, moved, k); }
      CrossesHere(lines, hi, max, recs, k, l, s.branches);
    } else {
      if moved.Some? {
        MovedIsLast(lines, max, s, recs, moved.value);
      }
      LaminarHere(lines, hi, max, recs, moved, s.branches);
    }
  }

  lemma {:induction false} LastStrayMoves(lines: seq<Line>, max: nat, s: State, recs: seq<Rec>, moved: Option<nat>, k: nat)
    requires max > 0 && Keeps(lines, |lines|, max, s, recs, moved)
    requires LastStray(lines, max, k) && FirstBodyOver(lines, k)
    ensures moved == Some(k)
  {
    hide FramesOk, Covered, BodiesOk, DepthAt;
    if moved.None? {
      var c := recs[0].closer.value;
      assert Ends(lines, 1, c) by { assert RecOk(lines, |lines|, max, recs[0]); }
      var j: nat :| j < k && Ends(lines, 1, j);
      FirstEnd(lines, max, recs, j);
      assert false;
    }
  }

  lemma {:induction false} MovedIsLast(lines: seq<Line>, max: nat, s: State, recs: seq<Rec>, k: nat)
    requires max > 0 && Keeps(lines, |lines|, max, s, recs, Some(k))
    ensures LastStray(lines, max, k) && FirstBodyOver(lines, k)
  {
    hide FramesOk, Covered, BodiesOk, DepthAt;
    if j: nat :| j > k && Ends(lines, 1, j) {
      FirstEnd(lines, max, recs, j);
      assert Ends(lines, 1, recs[0].closer.value) by { assert RecOk(lines, |lines|, max, recs[0]); }
    }
  }

  /** The theorem: after any run over lines in order, whatever their nesting, the
      recorded bodies are pairwise disjoint or nested exactly when no #elseif or #else
      past the limit has moved the end of the first body into another one. */
  lemma {:induction false} BodiesNestExactly(u: Setup, macros: Macros, lines: seq<Line>, hi: nat)
    requires u.maxDepth > 0 && InOrder(lines, hi) && Positive(lines)
    ensures Laminar(Steps(u, Start(macros), lines).branches) <==> !Crosses(lines, u.maxDepth)
  {
    hide Laminar, Crosses, Keeps, Steps;
    var recs, moved := RunKeeps(u, macros, lines, |lines|);
    assert lines[..|lines|] == lines;
    NestExactly(lines, hi, u.maxDepth, Steps(u, Start(macros), lines), recs, moved);
  }

  /** In a file whose groups are all closed, it is enough to look for an #elseif or
      #else past the limit after the directive that ends the first body. */
  lemma {:induction false} ClosedFileCrosses(lines: seq<Line>, max: nat)
    requires max > 0 && DepthAt(lines, |lines|) == 0
    ensures Crosses(lines, max) <==> LateElse(lines, max)
  {
    hide DepthAt;
    if Crosses(lines, max) {
      var k: nat, l: nat :| LastStray(lines, max, k) && Ends(lines, max, l) && k < l && FirstBodyOver(lines, k);
      var j := PassesDown(lines, k, |lines|, 1);
      assert j != k;
    }
    if LateElse(lines, max) {
      var j: nat, k: nat :| j < k && Ends(lines, 1, j) && Stray(lines, max, k);
      var last := TheLastStray(lines, max, k, |lines|);
      var l := PassesDown(lines, last, |lines|, max);
      assert l != last;
    }
  }

  lemma {:induction false} TheLastStray(lines: seq<Line>, max: nat, k: nat, n: nat) returns (last: nat)
    requires Stray(lines, max, k) && k < n <= |lines| && forall i: nat :: n <= i < |lines| ==> !Stray(lines, max, i)
    ensures k <= last && LastStray(lines, max, last)
    decreases n
  {
    hide Stray;
    if Stray(lines, max, n - 1) {
      last := n - 1;
    } else {
      last := TheLastStray(lines, max, k, n - 1);
    }
  }

  lemma {:induction false} ClosedFileNestsExactly(u: Setup, macros: Macros, lines: seq<Line>, hi: nat)
    requires u.maxDepth > 0 && InOrder(lines, hi) && Positive(lines) && DepthAt(lines, |lines|) == 0
    ensures Laminar(Steps(u, Start(macros), lines).branches) <==> !LateElse(lines, u.maxDepth)
  {
    BodiesNestExactly(u, macros, lines, hi);
    ClosedFileCrosses(lines, u.maxDepth);
  }

  // ---- Within the limit ----

  lemma {:induction false} WithinHasNoStray(lines: seq<Line>, i: nat, max: nat)
    requires i <= |lines| && DepthAt(lines, i) <= max && NestsWithin(lines[i..], DepthAt(lines, i), max)
    ensures forall k: nat :: i <= k ==> !Stray(lines, max, k)
    decreases |lines| - i
  {
    if i < |lines| {
      assert lines[i..][0] == lines[i] && lines[i..][1..] == lines[i + 1..];
      WithinHasNoStray(lines, i + 1, max);
    }
  }

  lemma {:induction false} BodyBetween(lines: seq<Line>, end: nat, max: nat, a: Rec, x: Branch)
    requires InOrder(lines, end) && RecOk(lines, |lines|, max, a)
    requires x.bodyStart == lines[a.head].end && x.bodyEnd == RecEnd(lines, a)
    ensures x.bodyStart <= x.bodyEnd <= end
  {
    if a.closer.Some? {
      assert lines[a.head].end <= lines[a.closer.value].start;
    }
  }

  /** After any run that stays within the limit, the recorded bodies of a file are
      pairwise disjoint or nested. */
  lemma {:induction false} BodiesNest(u: Setup, macros: Macros, lines: seq<Line>, end: nat)
    requires u.maxDepth > 0 && NestsWithin(lines, 0, u.maxDepth) && InOrder(lines, end)
    ensures Laminar(Steps(u, Start(macros), lines).branches)
    ensures Between(Steps(u, Start(macros), lines).branches, 0, end)
  {
    hide Steps, Laminar, InOrder, RecEnd, Stray;
    var max, branches := u.maxDepth, Steps(u, Start(macros), lines).branches;
    var recs, moved := RunKeeps(u, macros, lines, |lines|);
    assert lines[..|lines|] == lines && lines[0..] == lines;
    WithinHasNoStray(lines, 0, max);
    LaminarHere(lines, end, max, recs, moved, branches);
    forall b | b in branches ensures b.bodyStart <= b.bodyEnd <= end {
      var i :| 0 <= i < |branches| && branches[i] == b;
      BodyBetween(lines, end, max, recs[i], b);
    }
  }

  // ---- Past the limit ----

  /** In any reachable state inside a group past the limit, a line leaves every record
      as it was exactly when it is not an #elseif or #else that finds the first record
      ending elsewhere. */
  lemma {:induction false} PastLimitKeepsRecordsExactly(u: Setup, macros: Macros, before: seq<Line>, line: Line)
    requires u.maxDepth > 0
    requires var stack := Steps(u, Start(macros), before).stack; stack != [] && stack[|stack| - 1].overflow
    ensures
      var s := Steps(u, Start(macros), before);
      && s.branches != []
      && (Step(u, s, line).branches == s.branches <==> !Reopens(line) || s.branches[0].bodyEnd == line.start)
  {
    hide Step, Steps, RecsOk, FlatBefore, Covered, MovedOk;
    var s := Steps(u, Start(macros), before);
    assert before[..|before|] == before;
    var recs, _ := RunKeeps(u, macros, before, |before|);
    StepShape(u, s, line);
    assert FrameOk(u.maxDepth, s.stack, recs, 0) && FrameOk(u.maxDepth, s.stack, recs, |s.stack| - 1);
    if Reopens(line) {
      assert CloseTop(s, line.start).branches[0].bodyEnd == line.start;
    }
  }

  /** A closed group, then groups nested one deeper than the limit, the innermost with
      an #else, all closed. */
  function CrossingLine(max: nat, i: nat): Line {
    var cond := If([]);
    Line(10 * i, 10 * i + 2,
         if i == 0 then cond else if i == 1 then Endif
         else if i < max + 3 then cond else if i == max + 3 then Else else Endif)
  }

  function CrossingLines(max: nat): seq<Line> { seq(2 * max + 5, i requires i >= 0 => CrossingLine(max, i)) }

  lemma {:induction false} CrossingDepth(max: nat, i: nat)
    requires i <= 2 * max + 5
    ensures DepthAt(CrossingLines(max), i) ==
            if i <= 1 then i else if i <= max + 3 then i - 2 else if i == max + 4 then max + 1 else 2 * max + 5 - i
  {
    if i != 0 {
      CrossingDepth(max, i - 1);
    }
  }

  lemma {:induction false} CrossingOrder(max: nat)
    ensures InOrder(CrossingLines(max), 20 * max + 50) && Positive(CrossingLines(max))
  {
    var lines := CrossingLines(max);
    forall i | 0 <= i < |lines| ensures lines[i].start == 10 * i && lines[i].end == 10 * i + 2 {
    }
  }

  lemma {:induction false} CrossingIsLate(max: nat)
    requires max > 0
    ensures LateElse(CrossingLines(max), max) && DepthAt(CrossingLines(max), |CrossingLines(max)|) == 0
  {
    var lines := CrossingLines(max);
    CrossingDepth(max, |lines|);
    CrossingDepth(max, 1);
    CrossingDepth(max, max + 3);
    hide DepthAt;
    assert Ends(lines, 1, 1) && Stray(lines, max, max + 3);
  }

  /** Whatever the limit, some file has bodies that cross. */
  lemma {:induction false} PastLimitBodiesMayCross(u: Setup, macros: Macros)
    requires u.maxDepth > 0
    ensures
      var lines := CrossingLines(u.maxDepth);
      InOrder(lines, 20 * u.maxDepth + 50) && !Laminar(Steps(u, Start(macros), lines).branches)
  {
    hide Laminar, Steps, InOrder, Positive, LateElse, DepthAt, CrossingLines;
    CrossingOrder(u.maxDepth);
    CrossingIsLate(u.maxDepth);
    ClosedFileNestsExactly(u, macros, CrossingLines(u.maxDepth), 20 * u.maxDepth + 50);
  }
}
