/** Which edges the finished graph has, and where its gotos lead. */
module CfgEdges {
  import opened Collections
  import opened Syntax
  import opened CfgFragments
  import opened CfgGraph
  import opened CfgCompile

  /** Structural edges run between blocks of the statement. */
  lemma {:induction false} WiresRange(eval: Evaluator, s: Stmt, b: nat)
    ensures forall x: nat, y: nat :: Edge(eval, map[], s, b, x, y) ==> b < x <= b + Size(s) && b < y <= b + Size(s)
    decreases s
  {
    match s
    case Braces(_, children) => WiresRangeAll(eval, children, b, NOTHING, b);
    case If(_, _, c, a) =>
      if c.Some? { WiresRange(eval, c.value, b + 1); FragRange(eval, c.value, b + 1); }
      if a.Some? { WiresRange(eval, a.value, b + 1 + SizeOpt(c)); FragRange(eval, a.value, b + 1 + SizeOpt(c)); }
    case Switch(_, clauses) =>
      assert Size(s) == 1 + SizeClauses(clauses);
      WiresRangeClauses(eval, clauses, b + 1, b + 1);
    case Loop(_, _, _, body) =>
      if body.Some? { WiresRange(eval, body.value, b + 1); FragRange(eval, body.value, b + 1); }
    case _ =>
  }

  lemma {:induction false} WiresRangeAll(eval: Evaluator, ss: Stmts, b: nat, acc: Fragment, lo: nat)
    requires lo <= b && EndsIn(acc, lo, b)
    ensures forall x: nat, y: nat :: SeqEdge(eval, map[], ss, b, acc, x, y)
                           ==> lo < x <= b + SizeAll(ss) && lo < y <= b + SizeAll(ss)
    decreases ss
  {
    if ss.Cons? {
      WiresRange(eval, ss.head, b);
      FragRange(eval, ss.head, b);
      WiresRangeAll(eval, ss.tail, b + Size(ss.head), Join(acc, Frag(eval, ss.head, b), ss.head.LabelStmt?), lo);
    }
  }

  lemma {:induction false} WiresRangeClauses(eval: Evaluator, cs: Clauses, b: nat, header: nat)
    requires 0 < header <= b
    ensures forall x: nat, y: nat :: ClauseEdge(eval, map[], cs, b, header, x, y)
                           ==> header <= x <= b + SizeClauses(cs) && b < y <= b + SizeClauses(cs)
    decreases cs
  {
    if cs.Clause? {
      if cs.body.Some? { WiresRange(eval, cs.body.value, b); FragRange(eval, cs.body.value, b); }
      WiresRangeClauses(eval, cs.rest, b + SizeOpt(cs.body), header);
    }
  }

  /** The edges of a tree are its structural ones and those of its gotos. */
  lemma {:induction false} EdgeSplit(eval: Evaluator, labels: map<string, nat>, file: nat, s: Stmt, b: nat, x: nat, y: nat)
    requires "" !in labels
    ensures Edge(eval, labels, s, b, x, y) <==> Edge(eval, map[], s, b, x, y) || JumpEdge(Gotos(file, s, b), labels, x, y)
    decreases s
  {
    match s
    case Braces(_, children) => EdgeSplitAll(eval, labels, file, children, b, NOTHING, x, y);
    case If(_, _, c, a) =>
      if c.Some? { EdgeSplit(eval, labels, file, c.value, b + 1, x, y); }
      if a.Some? { EdgeSplit(eval, labels, file, a.value, b + 1 + SizeOpt(c), x, y); }
      JumpEdgeConcat(GotosOpt(file, c, b + 1), GotosOpt(file, a, b + 1 + SizeOpt(c)), labels, x, y);
    case Switch(_, clauses) => EdgeSplitClauses(eval, labels, file, clauses, b + 1, b + 1, x, y);
    case Loop(_, _, _, body) =>
      if body.Some? { EdgeSplit(eval, labels, file, body.value, b + 1, x, y); }
    case GotoStmt(_, name) =>
      if name != "" {
        assert Gotos(file, s, b)[0] in Gotos(file, s, b);
      }
    case _ =>
  }

  /** The empty name labels nothing. */
  lemma {:induction false} LabelsNamed(s: Stmt, b: nat)
    ensures "" !in Labels(s, b)
    decreases s
  {
    match s
    case Braces(_, children) => LabelsNamedAll(children, b);
    case If(_, _, c, a) =>
      if c.Some? { LabelsNamed(c.value, b + 1); }
      if a.Some? { LabelsNamed(a.value, b + 1 + SizeOpt(c)); }
    case Switch(_, clauses) => LabelsNamedClauses(clauses, b + 1);
    case Loop(_, _, _, body) => if body.Some? { LabelsNamed(body.value, b + 1); }
    case _ =>
  }

  lemma {:induction false} LabelsNamedAll(ss: Stmts, b: nat)
    ensures "" !in LabelsAll(ss, b)
    decreases ss
  {
    if ss.Cons? { LabelsNamed(ss.head, b); LabelsNamedAll(ss.tail, b + Size(ss.head)); }
  }

  lemma {:induction false} LabelsNamedClauses(cs: Clauses, b: nat)
    ensures "" !in LabelsClauses(cs, b)
    decreases cs
  {
    if cs.Clause? {
      if cs.body.Some? { LabelsNamed(cs.body.value, b); }
      LabelsNamedClauses(cs.rest, b + SizeOpt(cs.body));
    }
  }

  lemma {:induction false} JumpEdgeConcat(a: seq<Goto>, c: seq<Goto>, labels: map<string, nat>, x: nat, y: nat)
    ensures JumpEdge(a + c, labels, x, y) <==> JumpEdge(a, labels, x, y) || JumpEdge(c, labels, x, y)
  {
    if JumpEdge(a, labels, x, y) {
      var j :| j in a && j.block == x && j.name in labels && labels[j.name] == y;
      assert j in a + c;
    }
    if JumpEdge(c, labels, x, y) {
      var j :| j in c && j.block == x && j.name in labels && labels[j.name] == y;
      assert j in a + c;
    }
  }

  lemma {:induction false} EdgeSplitAll(eval: Evaluator, labels: map<string, nat>, file: nat, ss: Stmts, b: nat, acc: Fragment, x: nat, y: nat)
    requires "" !in labels
    ensures SeqEdge(eval, labels, ss, b, acc, x, y)
       <==> SeqEdge(eval, map[], ss, b, acc, x, y) || JumpEdge(GotosAll(file, ss, b), labels, x, y)
    decreases ss
  {
    if ss.Cons? {
      var s := ss.head;
      EdgeSplit(eval, labels, file, s, b, x, y);
      EdgeSplitAll(eval, labels, file, ss.tail, b + Size(s), Join(acc, Frag(eval, s, b), s.LabelStmt?), x, y);
      JumpEdgeConcat(Gotos(file, s, b), GotosAll(file, ss.tail, b + Size(s)), labels, x, y);
    }
  }

  lemma {:induction false} EdgeSplitClauses(eval: Evaluator, labels: map<string, nat>, file: nat, cs: Clauses, b: nat, header: nat, x: nat, y: nat)
    requires "" !in labels
    ensures ClauseEdge(eval, labels, cs, b, header, x, y)
       <==> ClauseEdge(eval, map[], cs, b, header, x, y) || JumpEdge(GotosClauses(file, cs, b), labels, x, y)
    decreases cs
  {
    if cs.Clause? {
      if cs.body.Some? { EdgeSplit(eval, labels, file, cs.body.value, b, x, y); }
      EdgeSplitClauses(eval, labels, file, cs.rest, b + SizeOpt(cs.body), header, x, y);
      JumpEdgeConcat(GotosOpt(file, cs.body, b), GotosClauses(file, cs.rest, b + SizeOpt(cs.body)), labels, x, y);
    }
  }

  // ---- Goto blocks ----

  /** Gotos come in ascending block order, inside the range. */
  ghost predicate Ascending(js: seq<Goto>, lo: nat, hi: nat) {
    && (forall i :: 0 <= i < |js| ==> lo < js[i].block <= hi && js[i].name != "")
    && (forall i, k :: 0 <= i < k < |js| ==> js[i].block < js[k].block)
  }

  lemma {:induction false} AscendingConcat(a: seq<Goto>, c: seq<Goto>, lo: nat, mid: nat, hi: nat)
    requires Ascending(a, lo, mid) && Ascending(c, mid, hi) && lo <= mid <= hi
    ensures Ascending(a + c, lo, hi)
  {
  }

  lemma {:induction false} AscendingWider(a: seq<Goto>, lo: nat, lo': nat, hi: nat)
    requires Ascending(a, lo, hi) && lo' <= lo
    ensures Ascending(a, lo', hi)
  {
  }

  lemma {:induction false} GotosAscend(file: nat, s: Stmt, b: nat)
    ensures Ascending(Gotos(file, s, b), b, b + Size(s))
    decreases s, 1
  {
    hide Ascending;
    match s
    case Braces(_, children) => GotosAscendAll(file, children, b);
    case If(_, _, _, _) => GotosAscendIf(file, s, b);
    case Switch(_, clauses) =>
      GotosAscendClauses(file, clauses, b + 1);
      AscendingWider(GotosClauses(file, clauses, b + 1), b + 1, b, b + 1 + SizeClauses(clauses));
    case Loop(_, _, _, body) =>
      GotosAscendOpt(file, body, b + 1);
      AscendingWider(GotosOpt(file, body, b + 1), b + 1, b, b + 1 + SizeOpt(body));
    case _ => GotosAscendLeaf(file, s, b);
  }

  lemma {:induction false} GotosAscendIf(file: nat, s: Stmt, b: nat)
    requires s.If?
    ensures Ascending(Gotos(file, s, b), b, b + Size(s))
    decreases s, 0
  {
    hide Ascending;
    var c, a, b' := s.consequence, s.alternative, b + 1 + SizeOpt(s.consequence);
    GotosAscendOpt(file, c, b + 1);
    GotosAscendOpt(file, a, b');
    AscendingConcat(GotosOpt(file, c, b + 1), GotosOpt(file, a, b'), b + 1, b', b' + SizeOpt(a));
    AscendingWider(GotosOpt(file, c, b + 1) + GotosOpt(file, a, b'), b + 1, b, b' + SizeOpt(a));
  }

  lemma {:induction false} GotosAscendLeaf(file: nat, s: Stmt, b: nat)
    requires !s.Braces? && !s.If? && !s.Switch? && !s.Loop?
    ensures Ascending(Gotos(file, s, b), b, b + 1) && Size(s) == 1
  {
  }

  lemma {:induction false} GotosAscendOpt(file: nat, o: Option<Stmt>, b: nat)
    ensures Ascending(GotosOpt(file, o, b), b, b + SizeOpt(o))
    decreases o, 1
  {
    if o.Some? { GotosAscend(file, o.value, b); }
  }

  lemma {:induction false} GotosAscendAll(file: nat, ss: Stmts, b: nat)
    ensures Ascending(GotosAll(file, ss, b), b, b + SizeAll(ss))
    decreases ss
  {
    if ss.Cons? {
      var b' := b + Size(ss.head);
      GotosAscend(file, ss.head, b);
      GotosAscendAll(file, ss.tail, b');
      AscendingConcat(Gotos(file, ss.head, b), GotosAll(file, ss.tail, b'), b, b', b' + SizeAll(ss.tail));
    }
  }

  lemma {:induction false} GotosAscendClauses(file: nat, cs: Clauses, b: nat)
    ensures Ascending(GotosClauses(file, cs, b), b, b + SizeClauses(cs))
    decreases cs
  {
    if cs.Clause? {
      var b' := b + SizeOpt(cs.body);
      GotosAscendOpt(file, cs.body, b);
      GotosAscendClauses(file, cs.rest, b');
      AscendingConcat(GotosOpt(file, cs.body, b), GotosClauses(file, cs.rest, b'), b, b', b' + SizeClauses(cs.rest));
    }
  }

  ghost predicate IsJump(js: seq<Goto>, x: nat) {
    exists j :: j in js && j.block == x
  }

  lemma {:induction false} IsJumpConcat(a: seq<Goto>, c: seq<Goto>, x: nat)
    ensures IsJump(a + c, x) <==> IsJump(a, x) || IsJump(c, x)
  {
    if IsJump(a, x) { var j :| j in a && j.block == x; assert j in a + c; }
    if IsJump(c, x) { var j :| j in c && j.block == x; assert j in a + c; }
  }

  /** Jumps of one range are no blocks of another. */
  lemma {:induction false} JumpInRange(js: seq<Goto>, lo: nat, hi: nat, x: nat)
    requires Ascending(js, lo, hi) && IsJump(js, x)
    ensures lo < x <= hi
  {
  }

  /** No structural edge leaves a goto, and a goto is no dangling end. */
  ghost predicate Quiet(f: Fragment, x: nat) {
    x !in f.exits && x !in f.breaks && x !in f.continues
  }

  lemma {:induction false} GotoQuiet(eval: Evaluator, file: nat, s: Stmt, b: nat, x: nat)
    requires IsJump(Gotos(file, s, b), x)
    ensures Quiet(Frag(eval, s, b), x) && b < x <= b + Size(s)
    ensures forall y :: !Edge(eval, map[], s, b, x, y)
    decreases s
  {
    GotosAscend(file, s, b);
    JumpInRange(Gotos(file, s, b), b, b + Size(s), x);
    match s
    case Braces(_, children) =>
      GotoQuietAll(eval, file, children, b, NOTHING, x);
    case If(_, _, _, _) => GotoQuietIf(eval, file, s, b, x);
    case Switch(_, clauses) =>
      GotosAscendClauses(file, clauses, b + 1);
      JumpInRange(GotosClauses(file, clauses, b + 1), b + 1, b + 1 + SizeClauses(clauses), x);
      GotoQuietClauses(eval, file, clauses, b + 1, b + 1, x);
    case Loop(_, _, _, body) =>
      assert Gotos(file, s, b) == GotosOpt(file, body, b + 1);
      assert body.Some?;
      GotosAscend(file, body.value, b + 1);
      GotoQuiet(eval, file, body.value, b + 1, x);
    case _ =>
  }

  lemma {:induction false} GotoQuietIf(eval: Evaluator, file: nat, s: Stmt, b: nat, x: nat)
    requires s.If? && IsJump(Gotos(file, s, b), x) && b < x <= b + Size(s)
    ensures Quiet(Frag(eval, s, b), x)
    ensures forall y :: !Edge(eval, map[], s, b, x, y)
    decreases s, 0
  {
    var c, a, b' := s.consequence, s.alternative, b + 1 + SizeOpt(s.consequence);
    IsJumpConcat(GotosOpt(file, c, b + 1), GotosOpt(file, a, b'), x);
    if c.Some? { FragRange(eval, c.value, b + 1); WiresRange(eval, c.value, b + 1); }
    if a.Some? { FragRange(eval, a.value, b'); WiresRange(eval, a.value, b'); }
    if IsJump(GotosOpt(file, c, b + 1), x) {
      GotoQuiet(eval, file, c.value, b + 1, x);
    } else {
      GotoQuiet(eval, file, a.value, b', x);
    }
  }

  lemma {:induction false} GotoQuietAll(eval: Evaluator, file: nat, ss: Stmts, b: nat, acc: Fragment, x: nat)
    requires EndsIn(acc, 0, b)
    requires (IsJump(GotosAll(file, ss, b), x) && b < x) || (x <= b && Quiet(acc, x))
    ensures Quiet(FragAll(eval, ss, b, acc), x)
    ensures forall y :: !SeqEdge(eval, map[], ss, b, acc, x, y)
    decreases ss
  {
    if ss.Cons? {
      var s, b' := ss.head, b + Size(ss.head);
      var joined := Join(acc, Frag(eval, s, b), s.LabelStmt?);
      FragRange(eval, s, b);
      WiresRange(eval, s, b);
      IsJumpConcat(Gotos(file, s, b), GotosAll(file, ss.tail, b'), x);
      if b < x {
        GotosAscend(file, s, b);
        GotosAscendAll(file, ss.tail, b');
        if IsJump(Gotos(file, s, b), x) {
          GotoQuiet(eval, file, s, b, x);
        } else {
          JumpInRange(GotosAll(file, ss.tail, b'), b', b' + SizeAll(ss.tail), x);
        }
      }
      GotoQuietAll(eval, file, ss.tail, b', joined, x);
    }
  }

  lemma {:induction false} GotoQuietClauses(eval: Evaluator, file: nat, cs: Clauses, b: nat, header: nat, x: nat)
    requires 0 < header <= b && IsJump(GotosClauses(file, cs, b), x)
    ensures Quiet(FragClauses(eval, cs, b, header), x)
    ensures forall y :: !ClauseEdge(eval, map[], cs, b, header, x, y)
    decreases cs
  {
    if cs.Clause? {
      var b' := b + SizeOpt(cs.body);
      IsJumpConcat(GotosOpt(file, cs.body, b), GotosClauses(file, cs.rest, b'), x);
      GotosAscendClauses(file, cs.rest, b');
      FragClausesRange(eval, cs.rest, b', header);
      WiresRangeClauses(eval, cs.rest, b', header);
      if cs.body.Some? {
        FragRange(eval, cs.body.value, b);
        WiresRange(eval, cs.body.value, b);
        GotosAscend(file, cs.body.value, b);
      }
      if IsJump(GotosOpt(file, cs.body, b), x) {
        GotoQuiet(eval, file, cs.body.value, b, x);
        QuietBelow(eval, cs.rest, b', header, x);
      } else {
        GotoQuietClauses(eval, file, cs.rest, b', header, x);
      }
    }
  }

  /** Nothing of later clauses is at an earlier block, but for the header. */
  lemma {:induction false} QuietBelow(eval: Evaluator, cs: Clauses, b: nat, header: nat, x: nat)
    requires header < x <= b
    ensures Quiet(FragClauses(eval, cs, b, header), x)
    ensures forall y :: !ClauseEdge(eval, map[], cs, b, header, x, y)
    decreases cs
  {
    if cs.Clause? {
      if cs.body.Some? {
        FragRange(eval, cs.body.value, b);
        WiresRange(eval, cs.body.value, b);
      }
      QuietBelow(eval, cs.rest, b + SizeOpt(cs.body), header, x);
    }
  }
}
