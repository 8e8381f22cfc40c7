/** What the graph of a function body says about its runs. */
module CfgTheorems {
  import opened Collections
  import opened Syntax
  import opened CfgFragments
  import opened CfgSemantics
  import opened CfgGraph
  import opened CfgCompile
  import opened CfgEdges
  import opened CfgBuild
  import Sound = CfgSound
  import Precise = CfgPrecise

  /** The edges of the built graph are those of the tree. */
  lemma {:induction false} BuiltEdges(env: Env, body: Stmt)
    ensures forall x: nat, y: nat :: HasEdge(Built(env, body).blocks, x, y) <==> GraphEdge(env.eval, body, x, y)
    ensures |Built(env, body).blocks| == Size(body)
    ensures Built(env, body).entry == if Size(body) == 0 then 0 else 1
  {
    CompiledBody(env, body);
    EntryIsFirstBlock(env.eval, body, 0);
    LabelsNamed(body, 0);
    var w := Compile(env, body, FRESH).0;
    forall x: nat, y: nat ensures HasEdge(w.blocks, x, y) <==> GraphEdge(env.eval, body, x, y) {
      EdgeSplit(env.eval, Labels(body, 0), env.file, body, 0, x, y);
    }
  }

  // ---- Reachability and runs ----

  ghost predicate InGraph(env: Env, body: Stmt, x: nat) {
    Reachable(Built(env, body).blocks, Built(env, body).entry, x)
  }

  lemma {:induction false} NothingToExecute(eval: Evaluator, body: Stmt)
    requires Size(body) == 0
    ensures forall x :: !Executed(eval, body, x)
    ensures Completes(eval, body)
  {
    forall x ensures !Executed(eval, body, x) {
      Precise.ExecutedIsLive(eval, body, x);
    }
    ReachedStart(eval, body);
    Precise.FirstBlockLive(eval, body, body, 0, Stop);
  }

  /** No run executes a block that the graph calls unreachable. */
  lemma {:induction false} ExecutedIsReachable(env: Env, body: Stmt, x: nat)
    requires Sound.FullArms(env.eval, body) && Sound.OpenLabels(env.eval, body, 0)
    requires Executed(env.eval, body, x)
    ensures InGraph(env, body, x)
  {
    if Size(body) == 0 {
      NothingToExecute(env.eval, body);
      assert false;
    } else {
      var w := ReachableWorld(env, body);
      Sound.Sound(w);
      Precise.ExecutedIsLive(env.eval, body, x);
    }
  }

  lemma {:induction false} ReachableWorld(env: Env, body: Stmt) returns (w: Sound.World)
    requires Size(body) != 0
    ensures w.eval == env.eval && w.root == body && w.Closed() && w.ends == Frag(env.eval, body, 0).exits
    ensures forall x :: x in w.blocks && x != 0 ==> InGraph(env, body, x)
  {
    var all := set x | x in Ids(Size(body)) && InGraph(env, body, x);
    w := Sound.World(env.eval, body, all + {0}, Frag(env.eval, body, 0).exits);
    BuiltEdges(env, body);
    ReachableSelf(Built(env, body).blocks, 1);
    forall x, y | x in w.blocks && GraphEdge(env.eval, body, x, y) ensures y in w.blocks {
      FollowEdge(env, body, x, y);
    }
  }

  lemma {:induction false} FollowEdge(env: Env, body: Stmt, x: nat, y: nat)
    requires GraphEdge(env.eval, body, x, y)
    ensures 0 < x && 0 < y <= Size(body)
    ensures InGraph(env, body, x) ==> InGraph(env, body, y)
  {
    var g := Built(env, body);
    CompiledBody(env, body);
    BuiltEdges(env, body);
    assert HasEdge(g.blocks, x, y);
    if InGraph(env, body, x) {
      ReachableNext(g.blocks, g.entry, x, y);
    }
  }

  /** Every block that the graph calls reachable is executed by some run. */
  lemma {:induction false} ReachableIsExecuted(env: Env, body: Stmt, x: nat)
    requires Precise.WholeIfs(env.eval, body)
    requires InGraph(env, body, x)
    ensures Executed(env.eval, body, x)
  {
    BuiltEdges(env, body);
    Precise.ExecutedIsClosed(env.eval, body);
    ReachableLeast(Built(env, body).blocks, Built(env, body).entry, x, iset y: nat | Executed(env.eval, body, y));
  }

  /** The shapes for which the graph is exact. */
  predicate WellShaped(eval: Evaluator, body: Stmt) {
    Sound.FullArms(eval, body) && Sound.OpenLabels(eval, body, 0) && Precise.WholeIfs(eval, body)
  }

  /** The main result: reachable in the graph is executed by some run. */
  lemma {:induction false} ReachableIffExecuted(env: Env, body: Stmt, x: nat)
    requires WellShaped(env.eval, body)
    ensures InGraph(env, body, x) <==> Executed(env.eval, body, x)
  {
    if InGraph(env, body, x) {
      ReachableIsExecuted(env, body, x);
    }
    if Executed(env.eval, body, x) {
      ExecutedIsReachable(env, body, x);
    }
  }

  /** A body falls off its end exactly when some run completes it; only an empty
      body is completed without the builder noticing. */
  lemma {:induction false} FallsThroughIffCompletes(env: Env, body: Stmt)
    requires WellShaped(env.eval, body)
    ensures Built(env, body).fallsThrough <==> Completes(env.eval, body) && Size(body) != 0
  {
    var g := Built(env, body);
    var p := Compile(env, body, FRESH).1;
    CompiledBody(env, body);
    assert forall x :: x in p.exits <==> x in Frag(env.eval, body, 0).exits;
    if Size(body) == 0 {
      EntryIsFirstBlock(env.eval, body, 0);
    } else {
      if Completes(env.eval, body) {
        var w := ReachableWorld(env, body);
        Sound.Sound(w);
        var x :| x in w.blocks && x in Frag(env.eval, body, 0).exits;
        FragRange(env.eval, body, 0);
      }
      if g.fallsThrough {
        var x :| x in p.exits && Reachable(g.blocks, g.entry, x);
        ReachableIsExecuted(env, body, x);
        Precise.ExecutedIsClosed(env.eval, body);
      }
    }
  }

  // ---- Unreachable code warnings ----

  predicate Predecessor(g: Graph, x: nat) {
    exists i :: 0 <= i < |g.blocks| && x in g.blocks[i].successors
  }

  /** The blocks that are reported: neither reachable nor the target of an edge. */
  ghost predicate Reported(g: Graph, x: nat) {
    0 < x <= |g.blocks| && !Reachable(g.blocks, g.entry, x) && !Predecessor(g, x)
  }

  method CountPredecessors(g: Graph) returns (predecessors: map<nat, nat>)
    ensures forall x :: x in predecessors <==> Predecessor(g, x)
    ensures forall x :: x in predecessors ==> predecessors[x] > 0
  {
    predecessors := map[];
    for i := 0 to |g.blocks|
      invariant forall x :: x in predecessors <==> exists k :: 0 <= k < i && x in g.blocks[k].successors
      invariant forall x :: x in predecessors ==> predecessors[x] > 0
    {
      ghost var before := predecessors.Keys;
      var next := g.blocks[i].successors;
      for n := 0 to |next|
        invariant forall x :: x in predecessors <==> x in before || x in next[..n]
        invariant forall x :: x in predecessors ==> predecessors[x] > 0
      {
        var seen := if next[n] in predecessors then predecessors[next[n]] else 0;
        predecessors := predecessors[next[n] := seen + 1];
        assert next[..n + 1] == next[..n] + [next[n]];
      }
      assert next[..|next|] == next;
    }
  }

  /** The spans of the reported ones among the first `n` blocks. */
  ghost function ReportedSpans(g: Graph, n: nat): seq<Span>
    requires n <= |g.blocks|
  {
    if n == 0 then []
    else ReportedSpans(g, n - 1) + if Reported(g, n) then [g.blocks[n - 1].span] else []
  }

  method UnreachableSpans(g: Graph) returns (spans: seq<Span>)
    requires InRange(g.blocks) && Numbered(g.blocks) && g.entry <= |g.blocks|
    ensures spans == ReportedSpans(g, |g.blocks|)
  {
    var reachable := ReachableBlocks(g.blocks, g.entry);
    var predecessors := CountPredecessors(g);
    spans := [];
    for i := 0 to |g.blocks|
      invariant spans == ReportedSpans(g, i)
    {
      var id := g.blocks[i].id;
      if id in reachable || (id in predecessors && predecessors[id] != 0) {
      } else {
        spans := spans + [g.blocks[i].span];
      }
    }
  }

  /** What is reported as unreachable is executed by no run. */
  lemma {:induction false} ReportedIsNeverExecuted(env: Env, body: Stmt, x: nat)
    requires Sound.FullArms(env.eval, body) && Sound.OpenLabels(env.eval, body, 0)
    requires Reported(Built(env, body), x)
    ensures !Executed(env.eval, body, x)
  {
    if Executed(env.eval, body, x) {
      ExecutedIsReachable(env, body, x);
    }
  }

  // ---- Gotos ----

  /** `x` is a label statement of the tree called `name`. */
  ghost predicate LabelAt(s: Stmt, b: nat, x: nat, name: string) {
    match s
    case Braces(_, children) => LabelAtAll(children, b, x, name)
    case If(_, _, c, a) =>
      (c.Some? && LabelAt(c.value, b + 1, x, name)) || (a.Some? && LabelAt(a.value, b + 1 + SizeOpt(c), x, name))
    case Switch(_, clauses) => LabelAtClauses(clauses, b + 1, x, name)
    case Loop(_, _, _, body) => body.Some? && LabelAt(body.value, b + 1, x, name)
    case LabelStmt(_, n) => x == b + 1 && n == name && name != ""
    case _ => false
  }

  ghost predicate LabelAtAll(ss: Stmts, b: nat, x: nat, name: string) {
    ss.Cons? && (LabelAt(ss.head, b, x, name) || LabelAtAll(ss.tail, b + Size(ss.head), x, name))
  }

  ghost predicate LabelAtClauses(cs: Clauses, b: nat, x: nat, name: string) {
    cs.Clause? && ((cs.body.Some? && LabelAt(cs.body.value, b, x, name))
                   || LabelAtClauses(cs.rest, b + SizeOpt(cs.body), x, name))
  }

  /** `labels` gives the first of the marked blocks of the range, if any is marked. */
  ghost predicate FirstOf(labels: map<string, nat>, name: string, marked: iset<nat>, lo: nat, hi: nat) {
    && (name in labels ==> labels[name] in marked && lo < labels[name] <= hi)
    && (forall x :: x in marked ==> lo < x <= hi && name in labels && labels[name] <= x)
  }

  ghost function Marked(s: Stmt, b: nat, name: string): iset<nat> { iset x: nat | LabelAt(s, b, x, name) }

  ghost function MarkedOpt(o: Option<Stmt>, b: nat, name: string): iset<nat> {
    iset x: nat | o.Some? && LabelAt(o.value, b, x, name)
  }

  ghost function MarkedAll(ss: Stmts, b: nat, name: string): iset<nat> { iset x: nat | LabelAtAll(ss, b, x, name) }

  ghost function MarkedClauses(cs: Clauses, b: nat, name: string): iset<nat> {
    iset x: nat | LabelAtClauses(cs, b, x, name)
  }

  lemma {:induction false} FirstOfTwo(name: string, l1: map<string, nat>, m1: iset<nat>, l2: map<string, nat>, m2: iset<nat>,
                                      lo: nat, mid: nat, hi: nat)
    requires lo <= mid <= hi && FirstOf(l1, name, m1, lo, mid) && FirstOf(l2, name, m2, mid, hi)
    ensures FirstOf(l2 + l1, name, m1 + m2, lo, hi)
  {
  }

  lemma {:induction false} LabelsAreFirst(s: Stmt, b: nat, name: string)
    ensures FirstOf(Labels(s, b), name, Marked(s, b, name), b, b + Size(s))
    decreases s, 1
  {
    match s
    case Braces(_, children) =>
      LabelsAreFirstAll(children, b, name);
      assert Marked(s, b, name) == MarkedAll(children, b, name);
    case If(_, _, c, a) =>
      var b' := b + 1 + SizeOpt(c);
      LabelsAreFirstOpt(c, b + 1, name);
      LabelsAreFirstOpt(a, b', name);
      FirstOfTwo(name, LabelsOpt(c, b + 1), MarkedOpt(c, b + 1, name), LabelsOpt(a, b'), MarkedOpt(a, b', name),
                 b + 1, b', b + Size(s));
      assert Marked(s, b, name) == MarkedOpt(c, b + 1, name) + MarkedOpt(a, b', name);
    case Switch(_, clauses) =>
      LabelsAreFirstClauses(clauses, b + 1, name);
      assert Marked(s, b, name) == MarkedClauses(clauses, b + 1, name);
    case Loop(_, _, _, body) =>
      LabelsAreFirstOpt(body, b + 1, name);
      assert Marked(s, b, name) == MarkedOpt(body, b + 1, name);
    case _ =>
  }

  lemma {:induction false} LabelsAreFirstOpt(o: Option<Stmt>, b: nat, name: string)
    ensures FirstOf(LabelsOpt(o, b), name, MarkedOpt(o, b, name), b, b + SizeOpt(o))
    decreases o, 1
  {
    if o.Some? {
      LabelsAreFirst(o.value, b, name);
      assert MarkedOpt(o, b, name) == Marked(o.value, b, name);
    }
  }

  lemma {:induction false} LabelsAreFirstAll(ss: Stmts, b: nat, name: string)
    ensures FirstOf(LabelsAll(ss, b), name, MarkedAll(ss, b, name), b, b + SizeAll(ss))
    decreases ss
  {
    if ss.Cons? {
      var b' := b + Size(ss.head);
      LabelsAreFirst(ss.head, b, name);
      LabelsAreFirstAll(ss.tail, b', name);
      var rest := MarkedAll(ss.tail, b', name);
      FirstOfTwo(name, Labels(ss.head, b), Marked(ss.head, b, name), LabelsAll(ss.tail, b'), rest, b, b', b + SizeAll(ss));
      assert MarkedAll(ss, b, name) == Marked(ss.head, b, name) + rest;
    }
  }

  lemma {:induction false} LabelsAreFirstClauses(cs: Clauses, b: nat, name: string)
    ensures FirstOf(LabelsClauses(cs, b), name, MarkedClauses(cs, b, name), b, b + SizeClauses(cs))
    decreases cs
  {
    if cs.Clause? {
      var b' := b + SizeOpt(cs.body);
      LabelsAreFirstOpt(cs.body, b, name);
      LabelsAreFirstClauses(cs.rest, b', name);
      var rest := MarkedClauses(cs.rest, b', name);
      FirstOfTwo(name, LabelsOpt(cs.body, b), MarkedOpt(cs.body, b, name), LabelsClauses(cs.rest, b'), rest,
                 b, b', b + SizeClauses(cs));
      assert MarkedClauses(cs, b, name) == MarkedOpt(cs.body, b, name) + rest;
    }
  }

  ghost predicate IsLabel(body: Stmt, x: nat, name: string) { LabelAt(body, 0, x, name) }

  /** Every named goto has exactly one successor, the first label of its name
      before or after it; without such a label it has none and is listed. */
  lemma {:induction false} GotoLeadsToFirstLabel(env: Env, body: Stmt, j: Goto)
    requires j in Gotos(env.file, body, 0)
    ensures var g := Built(env, body);
            && 0 < j.block <= |g.blocks|
            && var next := g.blocks[j.block - 1].successors;
            if exists x :: IsLabel(body, x, j.name) then
              && next != [] && next == [next[0]]
              && IsLabel(body, next[0], j.name)
              && (forall x :: IsLabel(body, x, j.name) ==> next[0] <= x)
              && j !in g.unresolved
            else next == [] && j in g.unresolved
  {
    var js, labels := Gotos(env.file, body, 0), Labels(body, 0);
    CompiledBody(env, body);
    UnresolvedIn(js, labels, 0, Size(body));
    LabelledFirst(body, j.name);
    GotoSuccessors(env, body, j);
  }

  lemma {:induction false} LabelledFirst(body: Stmt, name: string)
    ensures name in Labels(body, 0) <==> exists x :: IsLabel(body, x, name)
    ensures name in Labels(body, 0) ==> IsLabel(body, Labels(body, 0)[name], name)
    ensures name in Labels(body, 0) ==> forall x :: IsLabel(body, x, name) ==> Labels(body, 0)[name] <= x
  {
    LabelsAreFirst(body, 0, name);
    var marked := Marked(body, 0, name);
    assert forall x: nat :: x in marked <==> IsLabel(body, x, name);
    if name in Labels(body, 0) {
      assert Labels(body, 0)[name] in marked;
    }
    if exists x: nat :: IsLabel(body, x, name) {
      var x: nat :| IsLabel(body, x, name);
      assert x in marked;
    }
  }

  lemma {:induction false} GotoSuccessors(env: Env, body: Stmt, j: Goto)
    requires j in Gotos(env.file, body, 0)
    ensures var bs, labels := Built(env, body).blocks, Labels(body, 0);
            && 0 < j.block <= |bs|
            && bs[j.block - 1].successors == if j.name in labels then [labels[j.name]] else []
  {
    var bs := Built(env, body).blocks;
    var js, labels := Gotos(env.file, body, 0), Labels(body, 0);
    CompiledBody(env, body);
    GotoQuiet(env.eval, env.file, body, 0, j.block);
    forall y: nat ensures HasEdge(bs, j.block, y) <==> j.name in labels && y == labels[j.name] {
      assert (j.block, y) !in Wires(env.eval, body, 0);
      if JumpEdge(js, labels, j.block, y) {
        var i :| i in js && i.block == j.block && i.name in labels && labels[i.name] == y;
        if i != j { OwnBlock(js, i, j, Size(body)); }
      }
    }
    OnlySuccessor(bs, j.block, j.name in labels, if j.name in labels then labels[j.name] else 0);
  }

  lemma {:induction false} SomeElement(s: seq<nat>)
    ensures s != [] ==> exists z: nat :: z in s
  {
    if s != [] {
      assert s[0] in s;
    }
  }

  lemma {:induction false} OnlySuccessor(bs: seq<Block>, x: nat, has: bool, y: nat)
    requires 0 < x <= |bs| && Distinct(bs)
    requires forall z: nat :: HasEdge(bs, x, z) <==> has && z == y
    ensures bs[x - 1].successors == if has then [y] else []
  {
    var next := bs[x - 1].successors;
    assert forall i :: 0 <= i < |next| ==> HasEdge(bs, x, next[i]);
    if has {
      assert HasEdge(bs, x, y);
      var last := |next| - 1;
      assert next[0] == y && next[last] == y;
    } else {
      SomeElement(next);
      assert forall z: nat :: z in next ==> HasEdge(bs, x, z);
    }
  }

  /** The unresolved list is exactly the gotos whose name labels nothing, in
      ascending block order. */
  lemma {:induction false} UnresolvedExactly(env: Env, body: Stmt)
    ensures var u := Built(env, body).unresolved;
            && (forall i, k :: 0 <= i < k < |u| ==> u[i].block < u[k].block)
            && (forall j :: j in u <==> j in Gotos(env.file, body, 0) && !exists x :: IsLabel(body, x, j.name))
  {
    var js, labels := Gotos(env.file, body, 0), Labels(body, 0);
    CompiledBody(env, body);
    UnresolvedIn(js, labels, 0, Size(body));
    forall j: Goto ensures j.name in labels <==> exists x :: IsLabel(body, x, j.name) {
      LabelledFirst(body, j.name);
    }
  }
}
