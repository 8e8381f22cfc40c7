/** The blocks of the graph are the statements of the body, in reading order. */
module CfgListing {
  import opened Collections
  import opened Syntax
  import opened CfgFragments
  import opened CfgSemantics
  import opened CfgGraph
  import opened CfgCompile
  import opened CfgBuild
  import opened CfgTheorems
  import Precise = CfgPrecise

  /** The statements in reading order, braces not counted. */
  function Listing(s: Stmt): seq<Stmt> {
    match s
    case Braces(_, children) => ListingAll(children)
    case If(_, _, c, a) => [s] + ListingOpt(c) + ListingOpt(a)
    case Switch(_, clauses) => [s] + ListingClauses(clauses)
    case Loop(_, _, _, body) => [s] + ListingOpt(body)
    case _ => [s]
  }

  function ListingOpt(o: Option<Stmt>): seq<Stmt> {
    if o.Some? then Listing(o.value) else []
  }

  function ListingAll(ss: Stmts): seq<Stmt> {
    match ss
    case Nil => []
    case Cons(s, rest) => Listing(s) + ListingAll(rest)
  }

  function ListingClauses(cs: Clauses): seq<Stmt> {
    match cs
    case End => []
    case Clause(_, body, rest) => ListingOpt(body) + ListingClauses(rest)
  }

  /** The block is of this statement: its kind, its place, in this file. */
  predicate IsOf(b: Block, file: nat, s: Stmt) {
    && b.span.file == file && b.span.start == s.at.start && b.span.end == s.at.end
    && match s
       case Braces(_, _) => false
       case If(_, _, _, _) => b.kind.KIf?
       case Switch(_, _) => b.kind.KSwitch?
       case Loop(_, kind, _, _) => b.kind == KLoop(kind)
       case Return(_) => b.kind.KReturn?
       case Break(_) => b.kind.KBreak?
       case Continue(_) => b.kind.KContinue?
       case GotoStmt(_, _) => b.kind.KGoto?
       case LabelStmt(_, _) => b.kind.KLabel?
       case Simple(_, text) => b.kind == KSimple(text)
  }

  /** Another block of the same number, kind and place. */
  predicate SameBlock(a: Block, b: Block) { a.id == b.id && a.kind == b.kind && a.span == b.span }

  /** The blocks before are there still, and behind them are those of the statements. */
  ghost predicate Lists(file: nat, was: seq<Block>, now: seq<Block>, list: seq<Stmt>) {
    && |now| == |was| + |list|
    && (forall i :: 0 <= i < |was| ==> SameBlock(was[i], now[i]))
    && (forall i :: |was| <= i < |now| ==> now[i].id == i + 1 && IsOf(now[i], file, list[i - |was|]))
  }

  lemma {:induction false} NothingListed(file: nat, bs: seq<Block>)
    ensures Lists(file, bs, bs, [])
  {
  }

  lemma {:induction false} ListsBoth(file: nat, a: seq<Block>, b: seq<Block>, c: seq<Block>, one: seq<Stmt>, two: seq<Stmt>)
    requires Lists(file, a, b, one) && Lists(file, b, c, two)
    ensures Lists(file, a, c, one + two)
  {
    forall i | |a| <= i < |c| ensures c[i].id == i + 1 && IsOf(c[i], file, (one + two)[i - |a|]) {
      if i < |b| {
        assert SameBlock(b[i], c[i]);
      }
    }
    forall i | 0 <= i < |a| ensures SameBlock(a[i], c[i]) {
      assert SameBlock(a[i], b[i]) && SameBlock(b[i], c[i]);
    }
  }

  lemma {:induction false} EdgeListsNothing(file: nat, bs: seq<Block>, x: nat, y: nat)
    ensures Lists(file, bs, AddEdge(bs, x, y), [])
  {
  }

  lemma {:induction false} EdgesListNothing(file: nat, bs: seq<Block>, xs: seq<nat>, y: nat)
    ensures Lists(file, bs, AddEdges(bs, xs, y), [])
    decreases |xs|
  {
    hide AddEdge;
    if xs != [] {
      EdgeListsNothing(file, bs, xs[0], y);
      EdgesListNothing(file, AddEdge(bs, xs[0], y), xs[1..], y);
      ListsBoth(file, bs, AddEdge(bs, xs[0], y), AddEdges(bs, xs, y), [], []);
    }
  }

  lemma {:induction false} BlockLists(env: Env, s: Stmt, w: Work)
    requires !s.Braces?
    ensures Lists(env.file, w.blocks, NewBlock(env, s, w).blocks, [s])
  {
  }

  /** Drawing edges in between lists nothing. */
  lemma {:induction false} ThenEdge(file: nat, a: seq<Block>, b: seq<Block>, list: seq<Stmt>, x: nat, y: nat)
    requires Lists(file, a, b, list)
    ensures Lists(file, a, AddEdge(b, x, y), list)
  {
    hide Lists, AddEdge;
    EdgeListsNothing(file, b, x, y);
    ListsBoth(file, a, b, AddEdge(b, x, y), list, []);
    assert list + [] == list;
  }

  lemma {:induction false} ThenEdges(file: nat, a: seq<Block>, b: seq<Block>, list: seq<Stmt>, xs: seq<nat>, y: nat)
    requires Lists(file, a, b, list)
    ensures Lists(file, a, AddEdges(b, xs, y), list)
  {
    hide Lists, AddEdges;
    EdgesListNothing(file, b, xs, y);
    ListsBoth(file, a, b, AddEdges(b, xs, y), list, []);
    assert list + [] == list;
  }

  lemma {:induction false} CompileLists(env: Env, s: Stmt, w: Work)
    ensures Lists(env.file, w.blocks, Compile(env, s, w).0.blocks, Listing(s))
    decreases s, 1
  {
    hide Lists, NewBlock, AddEdge, AddEdges;
    match s
    case Braces(_, children) => CompileAllLists(env, children, w, EMPTY);
    case If(_, _, _, _) => CompileIfLists(env, s, w);
    case Switch(_, clauses) =>
      BlockLists(env, s, w);
      CompileClausesLists(env, clauses, NewBlock(env, s, w), Part(|w.blocks| + 1, [], [], []));
      ListsBoth(env.file, w.blocks, NewBlock(env, s, w).blocks, Compile(env, s, w).0.blocks, [s], ListingClauses(clauses));
    case Loop(_, _, _, _) => CompileLoopLists(env, s, w);
    case GotoStmt(_, _) =>
      BlockLists(env, s, w);
      var n := NewBlock(env, s, w);
      if s.name in n.labels {
        ThenEdge(env.file, w.blocks, n.blocks, [s], |n.blocks|, n.labels[s.name]);
      }
    case LabelStmt(_, _) =>
      BlockLists(env, s, w);
      var n := NewBlock(env, s, w);
      ThenEdges(env.file, w.blocks, n.blocks, [s], Jumps(Waiting(n, s.name)), |n.blocks|);
    case _ => BlockLists(env, s, w);
  }

  lemma {:induction false} CompileIfLists(env: Env, s: Stmt, w: Work)
    requires s.If?
    ensures Lists(env.file, w.blocks, Compile(env, s, w).0.blocks, Listing(s))
    decreases s, 0
  {
    hide Lists, NewBlock, AddEdge;
    var id, t, n := |w.blocks| + 1, CondTruth(env.eval, s.cond), NewBlock(env, s, w);
    var (w1, pc) := CompileOpt(env, s.consequence, n);
    var w2 := if t.MayHold() then w1.(blocks := AddEdge(w1.blocks, id, pc.entry)) else w1;
    var (w3, pa) := CompileOpt(env, s.alternative, w2);
    BlockLists(env, s, w);
    if s.consequence.Some? { CompileLists(env, s.consequence.value, n); } else { NothingListed(env.file, n.blocks); }
    ListsBoth(env.file, w.blocks, n.blocks, w1.blocks, [s], ListingOpt(s.consequence));
    ThenEdge(env.file, w.blocks, w1.blocks, [s] + ListingOpt(s.consequence), id, pc.entry);
    if s.alternative.Some? { CompileLists(env, s.alternative.value, w2); } else { NothingListed(env.file, w2.blocks); }
    ListsBoth(env.file, w.blocks, w2.blocks, w3.blocks, [s] + ListingOpt(s.consequence), ListingOpt(s.alternative));
    ThenEdge(env.file, w.blocks, w3.blocks, Listing(s), id, pa.entry);
  }

  lemma {:induction false} CompileLoopLists(env: Env, s: Stmt, w: Work)
    requires s.Loop?
    ensures Lists(env.file, w.blocks, Compile(env, s, w).0.blocks, Listing(s))
    decreases s, 0
  {
    hide Lists, NewBlock, AddEdge, AddEdges;
    var id, t, n := |w.blocks| + 1, LoopTruth(env.eval, s.kind, s.cond), NewBlock(env, s, w);
    BlockLists(env, s, w);
    if s.body.Some? {
      var (w1, p) := Compile(env, s.body.value, n);
      CompileLists(env, s.body.value, n);
      ListsBoth(env.file, w.blocks, n.blocks, w1.blocks, [s], Listing(s.body.value));
      assert Listing(s) == [s] + Listing(s.body.value);
      ThenEdge(env.file, w.blocks, w1.blocks, Listing(s), id, p.entry);
      var entered := if s.kind.DoWhile? || t.MayHold() then AddEdge(w1.blocks, id, p.entry) else w1.blocks;
      ThenEdges(env.file, w.blocks, entered, Listing(s), p.exits, id);
      ThenEdges(env.file, w.blocks, AddEdges(entered, p.exits, id), Listing(s), p.continues, id);
    } else {
      assert [s] + [] == [s];
    }
  }

  lemma {:induction false} CompileAllLists(env: Env, ss: Stmts, w: Work, acc: Part)
    ensures Lists(env.file, w.blocks, CompileAll(env, ss, w, acc).0.blocks, ListingAll(ss))
    decreases ss
  {
    hide Lists, AddEdges;
    match ss
    case Nil => NothingListed(env.file, w.blocks);
    case Cons(s, rest) =>
      var (w1, p) := Compile(env, s, w);
      var joined := JoinWork(w1, acc, p);
      CompileLists(env, s, w);
      ThenEdges(env.file, w.blocks, w1.blocks, Listing(s), acc.exits, p.entry);
      CompileAllLists(env, rest, joined, JoinPart(acc, p, s.LabelStmt?));
      ListsBoth(env.file, w.blocks, joined.blocks, CompileAll(env, ss, w, acc).0.blocks, Listing(s), ListingAll(rest));
  }

  lemma {:induction false} CompileClausesLists(env: Env, cs: Clauses, w: Work, acc: Part)
    ensures Lists(env.file, w.blocks, CompileClauses(env, cs, w, acc).0.blocks, ListingClauses(cs))
    decreases cs
  {
    hide Lists, AddEdge;
    match cs
    case End => NothingListed(env.file, w.blocks);
    case Clause(_, body, rest) =>
      var (w1, p) := CompileOpt(env, body, w);
      var w2 := if p.entry == 0 then w1 else w1.(blocks := AddEdge(w1.blocks, acc.entry, p.entry));
      if body.Some? { CompileLists(env, body.value, w); } else { NothingListed(env.file, w.blocks); }
      ThenEdge(env.file, w.blocks, w1.blocks, ListingOpt(body), acc.entry, p.entry);
      CompileClausesLists(env, rest, w2, ClausePart(acc, p));
      ListsBoth(env.file, w.blocks, w2.blocks, CompileClauses(env, cs, w, acc).0.blocks, ListingOpt(body), ListingClauses(rest));
  }

  /** The finished graph has one block for every statement of the body, in reading order,
      numbered from 1, of the statement's kind and at its place. */
  lemma {:induction false} BlocksAreStatements(env: Env, body: Stmt)
    ensures
      var bs, list := Built(env, body).blocks, Listing(body);
      |bs| == |list| && forall i :: 0 <= i < |list| ==> bs[i].id == i + 1 && IsOf(bs[i], env.file, list[i])
  {
    hide Compile;
    CompileLists(env, body, FRESH);
  }

  // ---- And runs go through the same list ----

  lemma {:induction false} ListingCounts(s: Stmt)
    ensures |Listing(s)| == Size(s)
    decreases s
  {
    match s
    case Braces(_, children) => ListingAllCounts(children);
    case If(_, _, c, a) =>
      if c.Some? { ListingCounts(c.value); }
      if a.Some? { ListingCounts(a.value); }
    case Switch(_, clauses) => ListingClausesCounts(clauses);
    case Loop(_, _, _, body) =>
      if body.Some? { ListingCounts(body.value); }
    case _ =>
  }

  lemma {:induction false} ListingAllCounts(ss: Stmts)
    ensures |ListingAll(ss)| == SizeAll(ss)
    decreases ss
  {
    if ss.Cons? {
      ListingCounts(ss.head);
      ListingAllCounts(ss.tail);
    }
  }

  lemma {:induction false} ListingClausesCounts(cs: Clauses)
    ensures |ListingClauses(cs)| == SizeClauses(cs)
    decreases cs
  {
    if cs.Clause? {
      if cs.body.Some? { ListingCounts(cs.body.value); }
      ListingClausesCounts(cs.rest);
    }
  }

  /** What is found at a block is the statement listed there. */
  ghost predicate FindsListed(found: Option<State>, list: seq<Stmt>, b: nat, x: nat) {
    b < x <= b + |list| ==> found.Some? && found.value.Run? && found.value.s == list[x - b - 1]
  }

  lemma {:induction false} FoundIsListed(s: Stmt, b: nat, k: Kont, x: nat)
    ensures FindsListed(Precise.Find(s, b, k, x), Listing(s), b, x)
    decreases s
  {
    ListingCounts(s);
    match s
    case Braces(_, children) => FoundAllIsListed(children, b, k, x);
    case If(_, _, c, a) =>
      if c.Some? { ListingCounts(c.value); FoundIsListed(c.value, b + 1, k, x); }
      if a.Some? { FoundIsListed(a.value, b + 1 + SizeOpt(c), k, x); }
    case Switch(_, clauses) => FoundClausesIsListed(clauses, b + 1, k, x);
    case Loop(_, _, _, body) =>
      if body.Some? { FoundIsListed(body.value, b + 1, Again(s, b, k), x); }
    case _ =>
  }

  lemma {:induction false} FoundAllIsListed(ss: Stmts, b: nat, k: Kont, x: nat)
    ensures FindsListed(Precise.FindAll(ss, b, k, x), ListingAll(ss), b, x)
    decreases ss
  {
    if ss.Cons? {
      ListingCounts(ss.head);
      FoundIsListed(ss.head, b, Then(ss.tail, b + Size(ss.head), k), x);
      FoundAllIsListed(ss.tail, b + Size(ss.head), k, x);
    }
  }

  lemma {:induction false} FoundClausesIsListed(cs: Clauses, b: nat, k: Kont, x: nat)
    ensures FindsListed(Precise.FindClauses(cs, b, k, x), ListingClauses(cs), b, x)
    decreases cs
  {
    if cs.Clause? {
      if cs.body.Some? {
        ListingCounts(cs.body.value);
        FoundIsListed(cs.body.value, b, Leave(k), x);
      }
      assert |ListingOpt(cs.body)| == SizeOpt(cs.body);
      FoundClausesIsListed(cs.rest, b + SizeOpt(cs.body), k, x);
    }
  }

  /** A run that executes block `x` is about to execute the statement listed there. */
  lemma {:induction false} RunsExecuteListed(eval: Evaluator, root: Stmt, s: Stmt, b: nat, k: Kont)
    requires Reached(eval, root, Run(s, b, k)) && !s.Braces?
    ensures b < |Listing(root)| && Listing(root)[b] == s
  {
    hide Precise.Within;
    var run :| IsRun(eval, root, run) && run[|run| - 1] == Run(s, b, k);
    Precise.RunWithin(eval, root, run, |run| - 1);
    FindsItself(root, s, b, k);
    Precise.FindInRange(root, 0, Stop, b + 1);
    FoundIsListed(root, 0, Stop, b + 1);
    ListingCounts(root);
  }

  lemma {:induction false} FindsItself(root: Stmt, s: Stmt, b: nat, k: Kont)
    requires Precise.Within(root, s, b, k) && !s.Braces?
    ensures Precise.Find(root, 0, Stop, b + 1) == Some(Run(s, b, k))
  {
    assert Precise.Find(s, b, k, b + 1) == Some(Run(s, b, k));
  }

  // ---- Gotos and labels in the list ----

  /** The jump is that of this statement. */
  predicate IsJump(file: nat, s: Stmt, j: Goto) {
    s.GotoStmt? && s.name != "" && j.name == s.name && j.span == Span(file, s.at.start, s.at.end)
  }

  ghost predicate JumpListed(file: nat, list: seq<Stmt>, b: nat, j: Goto) {
    b < j.block <= b + |list| && IsJump(file, list[j.block - b - 1], j)
  }

  ghost predicate LabelListed(list: seq<Stmt>, b: nat, x: nat, name: string) {
    b < x <= b + |list| && list[x - b - 1].LabelStmt? && list[x - b - 1].name == name && name != ""
  }

  lemma {:induction false} ListedInTwo(file: nat, one: seq<Stmt>, two: seq<Stmt>, b: nat, j: Goto, x: nat, name: string)
    ensures JumpListed(file, one + two, b, j) <==> JumpListed(file, one, b, j) || JumpListed(file, two, b + |one|, j)
    ensures LabelListed(one + two, b, x, name) <==> LabelListed(one, b, x, name) || LabelListed(two, b + |one|, x, name)
  {
  }

  lemma {:induction false} JumpsAndLabels(file: nat, s: Stmt, b: nat, j: Goto, x: nat, name: string)
    ensures j in Gotos(file, s, b) <==> JumpListed(file, Listing(s), b, j)
    ensures LabelAt(s, b, x, name) <==> LabelListed(Listing(s), b, x, name)
    decreases s
  {
    hide JumpListed, LabelListed;
    match s
    case Braces(_, children) => JumpsAndLabelsAll(file, children, b, j, x, name);
    case If(_, _, c, a) =>
      if c.Some? { ListingCounts(c.value); }
      JumpsAndLabelsOpt(file, c, b + 1, j, x, name);
      JumpsAndLabelsOpt(file, a, b + 1 + SizeOpt(c), j, x, name);
      ListedInTwo(file, [s], ListingOpt(c), b, j, x, name);
      ListedInTwo(file, [s] + ListingOpt(c), ListingOpt(a), b, j, x, name);
      OnlyLeaves(file, s, b, j, x, name);
    case Switch(_, clauses) =>
      JumpsAndLabelsClauses(file, clauses, b + 1, j, x, name);
      ListedInTwo(file, [s], ListingClauses(clauses), b, j, x, name);
      OnlyLeaves(file, s, b, j, x, name);
    case Loop(_, _, _, body) =>
      JumpsAndLabelsOpt(file, body, b + 1, j, x, name);
      ListedInTwo(file, [s], ListingOpt(body), b, j, x, name);
      OnlyLeaves(file, s, b, j, x, name);
    case _ => OnlyLeaves(file, s, b, j, x, name);
  }

  lemma {:induction false} OnlyLeaves(file: nat, s: Stmt, b: nat, j: Goto, x: nat, name: string)
    ensures JumpListed(file, [s], b, j) <==> j.block == b + 1 && IsJump(file, s, j)
    ensures LabelListed([s], b, x, name) <==> x == b + 1 && s.LabelStmt? && s.name == name && name != ""
    ensures !JumpListed(file, [], b, j) && !LabelListed([], b, x, name)
  {
  }

  lemma {:induction false} JumpsAndLabelsOpt(file: nat, o: Option<Stmt>, b: nat, j: Goto, x: nat, name: string)
    ensures j in GotosOpt(file, o, b) <==> JumpListed(file, ListingOpt(o), b, j)
    ensures (o.Some? && LabelAt(o.value, b, x, name)) <==> LabelListed(ListingOpt(o), b, x, name)
    decreases o
  {
    if o.Some? {
      JumpsAndLabels(file, o.value, b, j, x, name);
    }
  }

  lemma {:induction false} JumpsAndLabelsAll(file: nat, ss: Stmts, b: nat, j: Goto, x: nat, name: string)
    ensures j in GotosAll(file, ss, b) <==> JumpListed(file, ListingAll(ss), b, j)
    ensures LabelAtAll(ss, b, x, name) <==> LabelListed(ListingAll(ss), b, x, name)
    decreases ss
  {
    hide JumpListed, LabelListed;
    match ss
    case Nil => OnlyLeaves(file, Return(Range(0, 0)), b, j, x, name);
    case Cons(s, rest) =>
      ListingCounts(s);
      JumpsAndLabels(file, s, b, j, x, name);
      JumpsAndLabelsAll(file, rest, b + Size(s), j, x, name);
      ListedInTwo(file, Listing(s), ListingAll(rest), b, j, x, name);
  }

  lemma {:induction false} JumpsAndLabelsClauses(file: nat, cs: Clauses, b: nat, j: Goto, x: nat, name: string)
    ensures j in GotosClauses(file, cs, b) <==> JumpListed(file, ListingClauses(cs), b, j)
    ensures LabelAtClauses(cs, b, x, name) <==> LabelListed(ListingClauses(cs), b, x, name)
    decreases cs
  {
    hide JumpListed, LabelListed;
    match cs
    case End => OnlyLeaves(file, Return(Range(0, 0)), b, j, x, name);
    case Clause(_, body, rest) =>
      if body.Some? { ListingCounts(body.value); }
      JumpsAndLabelsOpt(file, body, b, j, x, name);
      JumpsAndLabelsClauses(file, rest, b + SizeOpt(body), j, x, name);
      ListedInTwo(file, ListingOpt(body), ListingClauses(rest), b, j, x, name);
  }

  /** The jumps of a body are its gotos with a name, and its labels are its label
      statements with a name, each at its place in the list. */
  lemma {:induction false} JumpsAndLabelsAreListed(file: nat, body: Stmt, j: Goto, x: nat, name: string)
    ensures j in Gotos(file, body, 0) <==> 0 < j.block <= |Listing(body)| && IsJump(file, Listing(body)[j.block - 1], j)
    ensures IsLabel(body, x, name)
       <==> && 0 < x <= |Listing(body)| && Listing(body)[x - 1].LabelStmt?
            && Listing(body)[x - 1].name == name && name != ""
  {
    JumpsAndLabels(file, body, 0, j, x, name);
  }
}
