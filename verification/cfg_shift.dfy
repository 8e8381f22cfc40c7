/** Moving a function body within its file moves its graph. */
module CfgShift {
  import opened Collections
  import opened Syntax
  import opened CfgGraph
  import opened CfgFragments
  import opened CfgCompile
  import opened CfgBuild

  // ---- Moving trees ----

  function MoveRange(r: Range, d: int): Range { Range(r.start + d, r.end + d) }

  function MoveExpr(e: Expr, d: int): Expr { e.(at := MoveRange(e.at, d)) }

  function MoveCond(c: Option<Expr>, d: int): Option<Expr> {
    if c.Some? then Some(MoveExpr(c.value, d)) else None
  }

  function Move(s: Stmt, d: int): Stmt {
    match s
    case Braces(at, children) => Braces(MoveRange(at, d), MoveAll(children, d))
    case If(at, cond, c, a) => If(MoveRange(at, d), MoveCond(cond, d), MoveOpt(c, d), MoveOpt(a, d))
    case Switch(at, clauses) => Switch(MoveRange(at, d), MoveClauses(clauses, d))
    case Loop(at, kind, cond, body) => Loop(MoveRange(at, d), kind, MoveCond(cond, d), MoveOpt(body, d))
    case Return(at) => Return(MoveRange(at, d))
    case Break(at) => Break(MoveRange(at, d))
    case Continue(at) => Continue(MoveRange(at, d))
    case GotoStmt(at, name) => GotoStmt(MoveRange(at, d), name)
    case LabelStmt(at, name) => LabelStmt(MoveRange(at, d), name)
    case Simple(at, text) => Simple(MoveRange(at, d), text)
  }

  function MoveOpt(o: Option<Stmt>, d: int): Option<Stmt> {
    if o.Some? then Some(Move(o.value, d)) else None
  }

  function MoveAll(ss: Stmts, d: int): Stmts {
    match ss
    case Nil => Nil
    case Cons(s, rest) => Cons(Move(s, d), MoveAll(rest, d))
  }

  function MoveClauses(cs: Clauses, d: int): Clauses {
    match cs
    case End => End
    case Clause(isDefault, body, rest) => Clause(isDefault, MoveOpt(body, d), MoveClauses(rest, d))
  }

  /** The evaluators answer alike on the conditions of `s` and of `s` moved. */
  ghost predicate AnswersAlike(eval: Evaluator, moved: Evaluator, s: Stmt, d: int) {
    match s
    case Braces(_, children) => AnswersAlikeAll(eval, moved, children, d)
    case If(_, cond, c, a) =>
      && (cond.Some? ==> moved(MoveExpr(cond.value, d)) == eval(cond.value))
      && (c.Some? ==> AnswersAlike(eval, moved, c.value, d))
      && (a.Some? ==> AnswersAlike(eval, moved, a.value, d))
    case Switch(_, clauses) => AnswersAlikeClauses(eval, moved, clauses, d)
    case Loop(_, _, cond, body) =>
      && (cond.Some? ==> moved(MoveExpr(cond.value, d)) == eval(cond.value))
      && (body.Some? ==> AnswersAlike(eval, moved, body.value, d))
    case _ => true
  }

  ghost predicate AnswersAlikeAll(eval: Evaluator, moved: Evaluator, ss: Stmts, d: int) {
    ss.Cons? ==> AnswersAlike(eval, moved, ss.head, d) && AnswersAlikeAll(eval, moved, ss.tail, d)
  }

  ghost predicate AnswersAlikeClauses(eval: Evaluator, moved: Evaluator, cs: Clauses, d: int) {
    cs.Clause? ==>
      && (cs.body.Some? ==> AnswersAlike(eval, moved, cs.body.value, d))
      && AnswersAlikeClauses(eval, moved, cs.rest, d)
  }

  // ---- Moving graphs ----

  function ShiftSpan(s: Span, file: nat, d: int): Span { Span(file, s.start + d, s.end + d) }

  function ShiftBlock(b: Block, file: nat, d: int): Block { b.(span := ShiftSpan(b.span, file, d)) }

  function ShiftBlocks(bs: seq<Block>, file: nat, d: int): seq<Block> {
    seq(|bs|, i requires 0 <= i < |bs| => ShiftBlock(bs[i], file, d))
  }

  function ShiftGoto(j: Goto, file: nat, d: int): Goto { j.(span := ShiftSpan(j.span, file, d)) }

  function ShiftGotos(js: seq<Goto>, file: nat, d: int): seq<Goto> {
    seq(|js|, i requires 0 <= i < |js| => ShiftGoto(js[i], file, d))
  }

  /** The graph with every span moved into `file`. */
  function Shifted(g: Graph, file: nat, d: int): Graph {
    g.(blocks := ShiftBlocks(g.blocks, file, d), unresolved := ShiftGotos(g.unresolved, file, d))
  }

  /** The reuse of a cached graph; without a distance it is taken as it is. */
  method ShiftGraph(g: Graph, file: nat, d: int) returns (r: Graph)
    ensures r == if d == 0 then g else Shifted(g, file, d)
  {
    if d == 0 {
      return g;
    }
    var blocks := g.blocks;
    for i := 0 to |blocks|
      invariant |blocks| == |g.blocks|
      invariant forall k :: 0 <= k < i ==> blocks[k] == ShiftBlock(g.blocks[k], file, d)
      invariant forall k :: i <= k < |blocks| ==> blocks[k] == g.blocks[k]
    {
      var span := blocks[i].span;
      span := span.(file := file);
      span := span.(start := span.start + d);
      span := span.(end := span.end + d);
      blocks := blocks[i := blocks[i].(span := span)];
    }
    var unresolved := g.unresolved;
    for i := 0 to |unresolved|
      invariant |unresolved| == |g.unresolved|
      invariant forall k :: 0 <= k < i ==> unresolved[k] == ShiftGoto(g.unresolved[k], file, d)
      invariant forall k :: i <= k < |unresolved| ==> unresolved[k] == g.unresolved[k]
    {
      var span := unresolved[i].span;
      span := Span(file, span.start + d, span.end + d);
      unresolved := unresolved[i := unresolved[i].(span := span)];
    }
    assert blocks == ShiftBlocks(g.blocks, file, d);
    assert unresolved == ShiftGotos(g.unresolved, file, d);
    r := g.(blocks := blocks, unresolved := unresolved);
  }

  function ShiftWork(w: Work, file: nat, d: int): Work {
    Work(ShiftBlocks(w.blocks, file, d), w.labels, map n | n in w.gotos :: ShiftGotos(w.gotos[n], file, d))
  }

  // ---- Compiling commutes with moving ----

  lemma {:induction false} AddEdgeShifts(bs: seq<Block>, x: nat, y: nat, file: nat, d: int)
    ensures AddEdge(ShiftBlocks(bs, file, d), x, y) == ShiftBlocks(AddEdge(bs, x, y), file, d)
  {
  }

  lemma {:induction false} AddEdgesShift(bs: seq<Block>, xs: seq<nat>, y: nat, file: nat, d: int)
    ensures AddEdges(ShiftBlocks(bs, file, d), xs, y) == ShiftBlocks(AddEdges(bs, xs, y), file, d)
    decreases |xs|
  {
    if xs != [] {
      AddEdgeShifts(bs, xs[0], y, file, d);
      AddEdgesShift(AddEdge(bs, xs[0], y), xs[1..], y, file, d);
    }
  }

  lemma {:induction false} NewBlockShifts(env: Env, moved: Env, s: Stmt, w: Work, d: int)
    ensures NewBlock(moved, Move(s, d), ShiftWork(w, moved.file, d)) == ShiftWork(NewBlock(env, s, w), moved.file, d)
  {
    var a, b := NewBlock(moved, Move(s, d), ShiftWork(w, moved.file, d)), ShiftWork(NewBlock(env, s, w), moved.file, d);
    assert a.blocks == b.blocks;
  }

  lemma {:induction false} JumpsShift(js: seq<Goto>, file: nat, d: int)
    ensures Jumps(ShiftGotos(js, file, d)) == Jumps(js)
  {
    if js != [] {
      assert ShiftGotos(js, file, d)[1..] == ShiftGotos(js[1..], file, d);
      JumpsShift(js[1..], file, d);
    }
  }

  lemma {:induction false} JumpShifts(w: Work, j: Goto, file: nat, d: int)
    ensures Jump(ShiftWork(w, file, d), ShiftGoto(j, file, d)) == ShiftWork(Jump(w, j), file, d)
  {
    if j.name in w.labels {
      AddEdgeShifts(w.blocks, j.block, w.labels[j.name], file, d);
    } else {
      var a, b := Jump(ShiftWork(w, file, d), ShiftGoto(j, file, d)), ShiftWork(Jump(w, j), file, d);
      assert ShiftGotos(Waiting(w, j.name) + [j], file, d) == ShiftGotos(Waiting(w, j.name), file, d) + [ShiftGoto(j, file, d)];
      assert ShiftGotos([], file, d) == [];
      assert a.gotos == b.gotos;
    }
  }

  lemma {:induction false} DefineShifts(w: Work, name: string, id: nat, file: nat, d: int)
    ensures Define(ShiftWork(w, file, d), name, id) == ShiftWork(Define(w, name, id), file, d)
  {
    if name !in w.labels {
      AddEdgesShift(w.blocks, Jumps(Waiting(w, name)), id, file, d);
      JumpsShift(Waiting(w, name), file, d);
      assert Waiting(ShiftWork(w, file, d), name) == ShiftGotos(Waiting(w, name), file, d);
      var a, b := Define(ShiftWork(w, file, d), name, id), ShiftWork(Define(w, name, id), file, d);
      assert a.gotos == b.gotos;
    }
  }

  /** Compiling the moved tree from the moved state gives the moved state. */
  ghost predicate Commutes(env: Env, moved: Env, s: Stmt, w: Work, d: int) {
    var (r, p) := Compile(env, s, w);
    Compile(moved, Move(s, d), ShiftWork(w, moved.file, d)) == (ShiftWork(r, moved.file, d), p)
  }

  lemma {:induction false} CompileMoves(env: Env, moved: Env, s: Stmt, w: Work, d: int)
    requires AnswersAlike(env.eval, moved.eval, s, d)
    ensures Commutes(env, moved, s, w, d)
    decreases s, 1
  {
    var file := moved.file;
    match s
    case Braces(_, children) => CompileMovesAll(env, moved, children, w, EMPTY, d);
    case If(_, _, _, _) => CompileMovesIf(env, moved, s, w, d);
    case Switch(_, clauses) =>
      NewBlockShifts(env, moved, s, w, d);
      DefaultMoves(clauses, d);
      CompileMovesClauses(env, moved, clauses, NewBlock(env, s, w), Part(|w.blocks| + 1, [], [], []), d);
    case Loop(_, _, _, _) => CompileMovesLoop(env, moved, s, w, d);
    case GotoStmt(at, name) =>
      NewBlockShifts(env, moved, s, w, d);
      var n := NewBlock(env, s, w);
      JumpShifts(n, Goto(|n.blocks|, name, SpanIn(env.file, at)), file, d);
    case LabelStmt(_, name) =>
      NewBlockShifts(env, moved, s, w, d);
      var n := NewBlock(env, s, w);
      DefineShifts(n, name, |n.blocks|, file, d);
    case _ => NewBlockShifts(env, moved, s, w, d);
  }

  lemma {:induction false} CompileMovesOpt(env: Env, moved: Env, o: Option<Stmt>, w: Work, d: int)
    requires (o.Some? ==> AnswersAlike(env.eval, moved.eval, o.value, d))
    ensures var (r, p) := CompileOpt(env, o, w);
            CompileOpt(moved, MoveOpt(o, d), ShiftWork(w, moved.file, d)) == (ShiftWork(r, moved.file, d), p)
    decreases o, 1
  {
    if o.Some? { CompileMoves(env, moved, o.value, w, d); }
  }

  lemma {:induction false} CompileMovesIf(env: Env, moved: Env, s: Stmt, w: Work, d: int)
    requires s.If? && AnswersAlike(env.eval, moved.eval, s, d)
    ensures Commutes(env, moved, s, w, d)
    decreases s, 0
  {
    var file, id, t := moved.file, |w.blocks| + 1, CondTruth(env.eval, s.cond);
    NewBlockShifts(env, moved, s, w, d);
    CompileMovesOpt(env, moved, s.consequence, NewBlock(env, s, w), d);
    var (w1, pc) := CompileOpt(env, s.consequence, NewBlock(env, s, w));
    AddEdgeShifts(w1.blocks, id, pc.entry, file, d);
    var w2 := if t.MayHold() then w1.(blocks := AddEdge(w1.blocks, id, pc.entry)) else w1;
    CompileMovesOpt(env, moved, s.alternative, w2, d);
    var (w3, pa) := CompileOpt(env, s.alternative, w2);
    AddEdgeShifts(w3.blocks, id, pa.entry, file, d);
  }

  lemma {:induction false} CompileMovesLoop(env: Env, moved: Env, s: Stmt, w: Work, d: int)
    requires s.Loop? && AnswersAlike(env.eval, moved.eval, s, d)
    ensures Commutes(env, moved, s, w, d)
    decreases s, 0
  {
    NewBlockShifts(env, moved, s, w, d);
    if s.body.Some? {
      var t := LoopTruth(env.eval, s.kind, s.cond);
      var file, id, n := moved.file, |w.blocks| + 1, NewBlock(env, s, w);
      CompileMoves(env, moved, s.body.value, n, d);
      var (w1, p) := Compile(env, s.body.value, n);
      LoopEdgesShift(w1.blocks, id, s.kind, t, p, file, d);
    }
  }

  lemma {:induction false} LoopEdgesShift(bs: seq<Block>, id: nat, kind: LoopKind, t: Truth, p: Part, file: nat, d: int)
    ensures LoopEdges(ShiftBlocks(bs, file, d), id, kind, t, p) == ShiftBlocks(LoopEdges(bs, id, kind, t, p), file, d)
  {
    AddEdgeShifts(bs, id, p.entry, file, d);
    var entered := if kind.DoWhile? || t.MayHold() then AddEdge(bs, id, p.entry) else bs;
    AddEdgesShift(entered, p.exits, id, file, d);
    AddEdgesShift(AddEdges(entered, p.exits, id), p.continues, id, file, d);
  }

  lemma {:induction false} CompileMovesAll(env: Env, moved: Env, ss: Stmts, w: Work, acc: Part, d: int)
    requires AnswersAlikeAll(env.eval, moved.eval, ss, d)
    ensures var (r, p) := CompileAll(env, ss, w, acc);
            CompileAll(moved, MoveAll(ss, d), ShiftWork(w, moved.file, d), acc) == (ShiftWork(r, moved.file, d), p)
    decreases ss
  {
    if ss.Cons? {
      CompileMoves(env, moved, ss.head, w, d);
      var (w1, p) := Compile(env, ss.head, w);
      AddEdgesShift(w1.blocks, acc.exits, p.entry, moved.file, d);
      CompileMovesAll(env, moved, ss.tail, JoinWork(w1, acc, p), JoinPart(acc, p, ss.head.LabelStmt?), d);
    }
  }

  lemma {:induction false} CompileMovesClauses(env: Env, moved: Env, cs: Clauses, w: Work, acc: Part, d: int)
    requires AnswersAlikeClauses(env.eval, moved.eval, cs, d)
    ensures var (r, p) := CompileClauses(env, cs, w, acc);
            CompileClauses(moved, MoveClauses(cs, d), ShiftWork(w, moved.file, d), acc) == (ShiftWork(r, moved.file, d), p)
    decreases cs
  {
    if cs.Clause? {
      CompileMovesOpt(env, moved, cs.body, w, d);
      var (w1, p) := CompileOpt(env, cs.body, w);
      AddEdgeShifts(w1.blocks, acc.entry, p.entry, moved.file, d);
      var w2 := if p.entry == 0 then w1 else w1.(blocks := AddEdge(w1.blocks, acc.entry, p.entry));
      CompileMovesClauses(env, moved, cs.rest, w2, ClausePart(acc, p), d);
    }
  }

  lemma {:induction false} DefaultMoves(cs: Clauses, d: int)
    ensures HasDefault(MoveClauses(cs, d)) == HasDefault(cs)
    decreases cs
  {
    if cs.Clause? { DefaultMoves(cs.rest, d); }
  }

  // ---- Building commutes with moving ----

  lemma {:induction false} ReachableShifts(bs: seq<Block>, entry: nat, x: nat, file: nat, d: int)
    ensures Reachable(ShiftBlocks(bs, file, d), entry, x) <==> Reachable(bs, entry, x)
  {
    var moved := ShiftBlocks(bs, file, d);
    assert forall u: nat, v: nat :: HasEdge(moved, u, v) <==> HasEdge(bs, u, v);
    assert forall path :: IsPath(moved, path) <==> IsPath(bs, path);
  }

  lemma {:induction false} UnresolvedShifts(js: seq<Goto>, labels: map<string, nat>, file: nat, d: int)
    ensures Unresolved(ShiftGotos(js, file, d), labels) == ShiftGotos(Unresolved(js, labels), file, d)
  {
    if js != [] {
      assert ShiftGotos(js, file, d)[1..] == ShiftGotos(js[1..], file, d);
      UnresolvedShifts(js[1..], labels, file, d);
    }
  }

  lemma {:induction false} ShiftGotosConcat(a: seq<Goto>, b: seq<Goto>, file: nat, d: int)
    ensures ShiftGotos(a + b, file, d) == ShiftGotos(a, file, d) + ShiftGotos(b, file, d)
  {
  }

  /** Gotos, labels and sizes of a moved tree. */
  lemma {:induction false} TreeMoves(file: nat, to: nat, s: Stmt, b: nat, d: int)
    ensures Size(Move(s, d)) == Size(s) && Labels(Move(s, d), b) == Labels(s, b)
    ensures Gotos(to, Move(s, d), b) == ShiftGotos(Gotos(file, s, b), to, d)
    decreases s, 1
  {
    match s
    case Braces(_, children) => TreeMovesAll(file, to, children, b, d);
    case If(_, _, c, a) =>
      TreeMovesOpt(file, to, c, b + 1, d);
      TreeMovesOpt(file, to, a, b + 1 + SizeOpt(c), d);
      ShiftGotosConcat(GotosOpt(file, c, b + 1), GotosOpt(file, a, b + 1 + SizeOpt(c)), to, d);
    case Switch(_, clauses) => TreeMovesClauses(file, to, clauses, b + 1, d);
    case Loop(_, _, _, body) => TreeMovesOpt(file, to, body, b + 1, d);
    case _ =>
  }

  lemma {:induction false} TreeMovesOpt(file: nat, to: nat, o: Option<Stmt>, b: nat, d: int)
    ensures SizeOpt(MoveOpt(o, d)) == SizeOpt(o) && LabelsOpt(MoveOpt(o, d), b) == LabelsOpt(o, b)
    ensures GotosOpt(to, MoveOpt(o, d), b) == ShiftGotos(GotosOpt(file, o, b), to, d)
    decreases o, 1
  {
    if o.Some? { TreeMoves(file, to, o.value, b, d); }
  }

  lemma {:induction false} TreeMovesAll(file: nat, to: nat, ss: Stmts, b: nat, d: int)
    ensures SizeAll(MoveAll(ss, d)) == SizeAll(ss) && LabelsAll(MoveAll(ss, d), b) == LabelsAll(ss, b)
    ensures GotosAll(to, MoveAll(ss, d), b) == ShiftGotos(GotosAll(file, ss, b), to, d)
    decreases ss
  {
    if ss.Cons? {
      TreeMoves(file, to, ss.head, b, d);
      TreeMovesAll(file, to, ss.tail, b + Size(ss.head), d);
      ShiftGotosConcat(Gotos(file, ss.head, b), GotosAll(file, ss.tail, b + Size(ss.head)), to, d);
    }
  }

  lemma {:induction false} TreeMovesClauses(file: nat, to: nat, cs: Clauses, b: nat, d: int)
    ensures SizeClauses(MoveClauses(cs, d)) == SizeClauses(cs) && LabelsClauses(MoveClauses(cs, d), b) == LabelsClauses(cs, b)
    ensures GotosClauses(to, MoveClauses(cs, d), b) == ShiftGotos(GotosClauses(file, cs, b), to, d)
    decreases cs
  {
    if cs.Clause? {
      TreeMovesOpt(file, to, cs.body, b, d);
      TreeMovesClauses(file, to, cs.rest, b + SizeOpt(cs.body), d);
      ShiftGotosConcat(GotosOpt(file, cs.body, b), GotosClauses(file, cs.rest, b + SizeOpt(cs.body)), to, d);
    }
  }

  /** The graph of the moved body is the moved graph of the body. */
  lemma {:induction false} BuildMoves(env: Env, moved: Env, body: Stmt, d: int)
    requires AnswersAlike(env.eval, moved.eval, body, d)
    ensures Built(moved, Move(body, d)) == Shifted(Built(env, body), moved.file, d)
  {
    CompileMoves(env, moved, body, FRESH, d);
    assert ShiftWork(FRESH, moved.file, d) == FRESH;
    var (w, p) := Compile(env, body, FRESH);
    forall x ensures Reachable(ShiftBlocks(w.blocks, moved.file, d), p.entry, x) <==> Reachable(w.blocks, p.entry, x) {
      ReachableShifts(w.blocks, p.entry, x, moved.file, d);
    }
    TreeMoves(env.file, moved.file, body, 0, d);
    UnresolvedShifts(Gotos(env.file, body, 0), Labels(body, 0), moved.file, d);
  }

  lemma {:induction false} ShiftTwice(g: Graph, file: nat, to: nat, d: int, e: int)
    ensures Shifted(Shifted(g, file, d), to, e) == Shifted(g, to, d + e)
  {
    var a, b := Shifted(Shifted(g, file, d), to, e), Shifted(g, to, d + e);
    assert a.blocks == b.blocks && a.unresolved == b.unresolved;
  }

  lemma {:induction false} MoveNowhere(eval: Evaluator, s: Stmt)
    ensures Move(s, 0) == s && AnswersAlike(eval, eval, s, 0)
    decreases s
  {
    match s
    case Braces(_, children) => MoveNowhereAll(eval, children);
    case If(_, _, c, a) =>
      if c.Some? { MoveNowhere(eval, c.value); }
      if a.Some? { MoveNowhere(eval, a.value); }
    case Switch(_, clauses) => MoveNowhereClauses(eval, clauses);
    case Loop(_, _, _, body) => if body.Some? { MoveNowhere(eval, body.value); }
    case _ =>
  }

  lemma {:induction false} MoveNowhereAll(eval: Evaluator, ss: Stmts)
    ensures MoveAll(ss, 0) == ss && AnswersAlikeAll(eval, eval, ss, 0)
    decreases ss
  {
    if ss.Cons? { MoveNowhere(eval, ss.head); MoveNowhereAll(eval, ss.tail); }
  }

  lemma {:induction false} MoveNowhereClauses(eval: Evaluator, cs: Clauses)
    ensures MoveClauses(cs, 0) == cs && AnswersAlikeClauses(eval, eval, cs, 0)
    decreases cs
  {
    if cs.Clause? {
      if cs.body.Some? { MoveNowhere(eval, cs.body.value); }
      MoveNowhereClauses(eval, cs.rest);
    }
  }

  /** Reusing a graph gives the graph of the moved body, also into another file,
      unless the body has not moved: then its spans keep the old file. */
  lemma {:induction false} ReuseExactly(env: Env, moved: Env, body: Stmt, d: int)
    requires AnswersAlike(env.eval, moved.eval, body, d)
    ensures (if d == 0 then Built(env, body) else Shifted(Built(env, body), moved.file, d)) == Built(moved, Move(body, d))
       <==> d != 0 || env.file == moved.file || Size(body) == 0
  {
    var g := Built(env, body);
    BuildMoves(env, moved, body, d);
    CompiledBody(env, body);
    MoveNowhere(env.eval, body);
    BuildMoves(env, env, body, 0);
    if d == 0 {
      if Size(body) != 0 {
        assert g.blocks[0] == ShiftBlock(g.blocks[0], env.file, 0);
        assert Shifted(g, moved.file, 0).blocks[0].span.file == moved.file;
      } else {
        UnresolvedIn(Gotos(env.file, body, 0), Labels(body, 0), 0, 0);
        assert g.unresolved == [] && g.blocks == [];
        assert Shifted(g, moved.file, 0) == g;
      }
    }
  }
}
