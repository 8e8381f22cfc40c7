/** A label that only a jump over a dead prefix leads to, `goto n; s; rest` with the
    label inside `s`: when exactly the graph is exact. */
module CfgBuried {
  import opened Collections
  import opened Syntax
  import opened CfgFragments
  import opened CfgSemantics
  import opened CfgGraph
  import opened CfgCompile
  import opened CfgEdges
  import opened CfgBuild
  import opened CfgTheorems
  import opened CfgLimits
  import Sound = CfgSound
  import Precise = CfgPrecise

  /** The jump, the statement that holds its label, and something after it. */
  function Behind(n: string, s: Stmt): Stmt {
    Braces(HERE, Cons(GotoStmt(HERE, n), Cons(s, Cons(LAST, Nil))))
  }

  /** What is to be done after `s`. */
  function Rest(s: Stmt): Kont { Then(Cons(LAST, Nil), 1 + Size(s), Stop) }

  /** `s` is no label, is shaped well and holds the label. */
  predicate Holding(eval: Evaluator, n: string, s: Stmt) {
    && !s.LabelStmt? && n in Labels(s, 1)
    && Sound.FullArms(eval, s) && Precise.WholeIfs(eval, s) && Sound.OpenLabels(eval, s, 1)
  }

  ghost function Blocks(eval: Evaluator, n: string, s: Stmt): seq<Block> { Built(Env(0, eval), Behind(n, s)).blocks }

  /** The graph finds a way from the label to the end of `s`. */
  ghost predicate LabelLeadsOut(eval: Evaluator, n: string, s: Stmt)
    requires n in Labels(s, 1)
  {
    exists x :: x in Frag(eval, s, 1).exits && Reachable(Blocks(eval, n, s), Labels(s, 1)[n], x)
  }

  /** The theorem for buried labels: the graph is exact exactly when control does
      not get from the label to the end of `s`. Where it does, the run goes on to
      the rest and the graph does not. */
  lemma {:induction false} BuriedExactly(eval: Evaluator, n: string, s: Stmt)
    requires Holding(eval, n, s)
    ensures Exact(eval, Behind(n, s)) <==> !LabelLeadsOut(eval, n, s)
  {
    hide Holding, InGraph, Executed;
    HoldsLabel(eval, n, s);
    var body, z := Behind(n, s), Size(s) + 2;
    if LabelLeadsOut(eval, n, s) {
      LastIsExecuted(eval, n, s);
      LastIsNotInGraph(eval, n, s);
    } else {
      forall x: nat ensures InGraph(Env(0, eval), body, x) <==> Executed(eval, body, x) {
        if InGraph(Env(0, eval), body, x) {
          BehindIsWhole(eval, n, s);
          ReachableIsExecuted(Env(0, eval), body, x);
        }
        if Executed(eval, body, x) {
          ExecutedInGraph(eval, n, s, x);
        }
      }
    }
  }

  // ---- The graph ----

  lemma {:induction false} BehindIsWhole(eval: Evaluator, n: string, s: Stmt)
    requires Holding(eval, n, s)
    ensures Precise.WholeIfs(eval, Behind(n, s))
  {
    var rest := Cons(LAST, Nil);
    assert Precise.WholeIfsAll(eval, rest);
    assert Precise.WholeIfsAll(eval, Cons(s, rest));
    assert Precise.WholeIfsAll(eval, Behind(n, s).children);
  }

  lemma {:induction false} BehindLabels(n: string, s: Stmt)
    ensures Labels(Behind(n, s), 0) == Labels(s, 1) && Size(Behind(n, s)) == Size(s) + 2
  {
    var rest := Cons(LAST, Nil);
    assert LabelsAll(rest, 1 + Size(s)) == map[] by { assert LabelsAll(Nil, 2 + Size(s)) == map[]; }
    assert LabelsAll(Cons(s, rest), 1) == map[] + Labels(s, 1) == Labels(s, 1);
    assert Labels(GotoStmt(HERE, n), 0) == map[];
    assert LabelsAll(Behind(n, s).children, 0) == Labels(s, 1) + map[] == Labels(s, 1);
    assert SizeAll(rest) == 1 && SizeAll(Cons(s, rest)) == Size(s) + 1;
  }

  /** The edges are those of the jump and of `s`: nothing leads to the last block. */
  lemma {:induction false} BehindEdge(eval: Evaluator, n: string, s: Stmt, x: nat, y: nat)
    requires Holding(eval, n, s)
    ensures GraphEdge(eval, Behind(n, s), x, y) <==>
            (x == 1 && y == Labels(s, 1)[n]) || Edge(eval, Labels(s, 1), s, 1, x, y)
  {
    BehindLabels(n, s);
    var labels, jump, rest := Labels(s, 1), GotoStmt(HERE, n), Cons(s, Cons(LAST, Nil));
    var f1 := Frag(eval, jump, 0);
    assert f1 == Fragment(1, {}, {}, {}) && Join(NOTHING, f1, false) == f1;
    assert Edge(eval, labels, jump, 0, x, y) <==> x == 1 && y == labels[n];
    DeadEdge(eval, labels, s, 1, x, y);
    hide Edge, Frag;
    assert GraphEdge(eval, Behind(n, s), x, y) <==> SeqEdge(eval, labels, Cons(jump, rest), 0, NOTHING, x, y) by {
      BracesEdge(eval, labels, Cons(jump, rest), x, y);
    }
  }

  lemma {:induction false} BracesEdge(eval: Evaluator, labels: map<string, nat>, ss: Stmts, x: nat, y: nat)
    ensures Edge(eval, labels, Braces(HERE, ss), 0, x, y) <==> SeqEdge(eval, labels, ss, 0, NOTHING, x, y)
  {
  }

  /** After a dead prefix, a statement and a simple one: no edge leads to the simple one. */
  lemma {:induction false} DeadEdge(eval: Evaluator, labels: map<string, nat>, s: Stmt, b: nat, x: nat, y: nat)
    requires !s.LabelStmt?
    ensures SeqEdge(eval, labels, Cons(s, Cons(LAST, Nil)), b, Fragment(1, {}, {}, {}), x, y) <==> Edge(eval, labels, s, b, x, y)
  {
    var dead, b', rest := Fragment(1, {}, {}, {}), b + Size(s), Cons(LAST, Nil);
    var f := Join(dead, Frag(eval, s, b), false);
    assert f.exits == {};
    assert !SeqEdge(eval, labels, rest, b', f, x, y) by {
      assert !Edge(eval, labels, LAST, b', x, y);
      assert !SeqEdge(eval, labels, Nil, b' + 1, Join(f, Frag(eval, LAST, b'), false), x, y);
    }
    hide Edge, Frag;
  }

  lemma {:induction false} LabelInside(s: Stmt, b: nat, n: string)
    requires n in Labels(s, b)
    ensures b < Labels(s, b)[n] <= b + Size(s)
  {
    LabelsAreFirst(s, b, n);
  }

  /** Edges of `s` with its own labels stay inside it. */
  lemma {:induction false} OwnEdgeRange(eval: Evaluator, s: Stmt, b: nat, x: nat, y: nat)
    requires Edge(eval, Labels(s, b), s, b, x, y)
    ensures y <= b + Size(s)
  {
    var labels := Labels(s, b);
    LabelsNamed(s, b);
    EdgeSplit(eval, labels, 0, s, b, x, y);
    WiresRange(eval, s, b);
    if !Edge(eval, map[], s, b, x, y) {
      var j :| j in Gotos(0, s, b) && j.block == x && j.name in labels && labels[j.name] == y;
      LabelInside(s, b, j.name);
    }
  }

  lemma {:induction false} LastIsNotInGraph(eval: Evaluator, n: string, s: Stmt)
    requires Holding(eval, n, s)
    ensures !InGraph(Env(0, eval), Behind(n, s), Size(s) + 2)
  {
    hide Holding, Reachable, HasEdge, GraphEdge;
    var g, z := Built(Env(0, eval), Behind(n, s)), Size(s) + 2;
    BuiltEdges(Env(0, eval), Behind(n, s));
    BehindLabels(n, s);
    assert n in Labels(s, 1) by { HoldsLabel(eval, n, s); }
    LabelInside(s, 1, n);
    forall x: nat, y: nat | HasEdge(g.blocks, x, y) ensures y <= Size(s) + 1 {
      BehindEdge(eval, n, s, x, y);
      if !(x == 1 && y == Labels(s, 1)[n]) {
        OwnEdgeRange(eval, s, 1, x, y);
      }
    }
    if InGraph(Env(0, eval), Behind(n, s), z) {
      ReachableLeast(g.blocks, g.entry, z, Below(Size(s) + 1));
    }
  }

  lemma {:induction false} HoldsLabel(eval: Evaluator, n: string, s: Stmt)
    requires Holding(eval, n, s)
    ensures n in Labels(s, 1)
  {
  }

  /** What the label leads to is in the graph. */
  lemma {:induction false} FromLabel(eval: Evaluator, n: string, s: Stmt, x: nat)
    requires Holding(eval, n, s) && Reachable(Blocks(eval, n, s), Labels(s, 1)[n], x)
    ensures InGraph(Env(0, eval), Behind(n, s), x)
  {
    hide Reachable, HasEdge, GraphEdge;
    BuiltEdges(Env(0, eval), Behind(n, s));
    BehindLabels(n, s);
    BehindEdge(eval, n, s, 1, Labels(s, 1)[n]);
    ReachableFirst(Blocks(eval, n, s), 1, Labels(s, 1)[n], x);
  }

  // ---- Control that comes out ----

  lemma {:induction false} LastIsExecuted(eval: Evaluator, n: string, s: Stmt)
    requires Holding(eval, n, s) && LabelLeadsOut(eval, n, s)
    ensures Executed(eval, Behind(n, s), Size(s) + 2)
  {
    hide Reachable, Precise.Live, Precise.EdgesLive, InGraph;
    var body := Behind(n, s);
    var x :| x in Frag(eval, s, 1).exits && Reachable(Blocks(eval, n, s), Labels(s, 1)[n], x);
    FromLabel(eval, n, s, x);
    BehindIsWhole(eval, n, s);
    ReachableIsExecuted(Env(0, eval), body, x);
    Precise.ExecutedIsLive(eval, body, x);
    Precise.SplitAll(body, GotoStmt(HERE, n), Cons(s, Cons(LAST, Nil)), 0, Stop);
    Precise.SplitAll(body, s, Cons(LAST, Nil), 1, Stop);
    Precise.PreciseStmt(eval, body, s, 1, Rest(s));
    assert Reached(eval, body, Done(Rest(s)));
    ReachedStep(eval, body, Done(Rest(s)), Run(LAST, 1 + Size(s), Then(Nil, 2 + Size(s), Stop)));
  }

  // ---- Control that does not ----

  /** The blocks that the label leads to. */
  ghost function LabelWorld(eval: Evaluator, n: string, s: Stmt): Sound.World
    requires n in Labels(s, 1)
  {
    Sound.World(eval, Behind(n, s),
                (set x | x in Ids(Size(s) + 2) && Reachable(Blocks(eval, n, s), Labels(s, 1)[n], x)) + {0},
                {})
  }

  lemma {:induction false} SPlaced(eval: Evaluator, n: string, s: Stmt)
    requires Holding(eval, n, s) && !LabelLeadsOut(eval, n, s)
    ensures Sound.Placed(LabelWorld(eval, n, s), s, 1, Rest(s))
  {
    hide Reachable, HasEdge, GraphEdge, Edge, Frag;
    var w, body := LabelWorld(eval, n, s), Behind(n, s);
    BehindLabels(n, s);
    BuiltEdges(Env(0, eval), body);
    FragRange(eval, s, 1);
    forall x, y | x in w.blocks && Edge(eval, w.Jumps(), s, 1, x, y) ensures y in w.blocks {
      BehindEdge(eval, n, s, x, y);
      FollowEdge(Env(0, eval), body, x, y);
      ReachableNext(Blocks(eval, n, s), Labels(s, 1)[n], x, y);
    }
    assert forall x :: x in w.blocks ==> x !in Frag(eval, s, 1).exits;
    assert forall x :: Sound.ReadyToBreak(w, Rest(s), x) && Sound.ReadyToContinue(w, Rest(s), x);
  }

  /** Every jump of the body goes into `s`. */
  lemma {:induction false} JumpsInto(n: string, s: Stmt, name: string)
    ensures FindLabel(Behind(n, s), 0, Stop, name) == FindLabel(s, 1, Rest(s), name)
  {
    var rest := Cons(LAST, Nil);
    assert FindLabelAll(rest, 1 + Size(s), Stop, name) == None by {
      assert FindLabelAll(Nil, 2 + Size(s), Stop, name) == None;
    }
    assert FindLabelAll(Cons(s, rest), 1, Stop, name) == FindLabel(s, 1, Rest(s), name);
    assert FindLabel(GotoStmt(HERE, n), 0, Then(Cons(s, rest), 1, Stop), name) == None;
  }

  lemma {:induction false} JumpsPlaced(eval: Evaluator, n: string, s: Stmt)
    requires Holding(eval, n, s) && !LabelLeadsOut(eval, n, s)
    ensures Sound.Setting(LabelWorld(eval, n, s))
  {
    hide Sound.Placed, Sound.PlacedState, LabelLeadsOut;
    var w := LabelWorld(eval, n, s);
    SPlaced(eval, n, s);
    forall name: string | FindLabel(w.root, 0, Stop, name).Some?
      ensures Sound.PlacedState(w, FindLabel(w.root, 0, Stop, name).value)
    {
      JumpsInto(n, s, name);
      Sound.LabelPlaced(w, s, 1, Rest(s), name);
    }
  }

  /** The first jump gets to a placed block. */
  lemma {:induction false} JumpIsGood(eval: Evaluator, n: string, s: Stmt, to: State)
    requires Holding(eval, n, s) && !LabelLeadsOut(eval, n, s)
    requires FindLabel(Behind(n, s), 0, Stop, n) == Some(to)
    ensures Sound.Good(LabelWorld(eval, n, s), to)
  {
    hide LabelLeadsOut, Reachable;
    JumpsPlaced(eval, n, s);
    BehindLabels(n, s);
    LabelAgrees(Behind(n, s), 0, Stop, n);
    LabelInside(s, 1, n);
    ReachableSelf(Blocks(eval, n, s), Labels(s, 1)[n]);
    assert Sound.PlacedState(LabelWorld(eval, n, s), FindLabel(LabelWorld(eval, n, s).root, 0, Stop, n).value);
  }

  ghost predicate Starting(n: string, s: Stmt, state: State) {
    || state == Run(Behind(n, s), 0, Stop)
    || state == Done(Then(Behind(n, s).children, 0, Stop))
    || state == Run(GotoStmt(HERE, n), 0, Then(Cons(s, Cons(LAST, Nil)), 1, Stop))
  }

  lemma {:induction false} BehindRuns(eval: Evaluator, n: string, s: Stmt, run: seq<State>, i: nat)
    requires Holding(eval, n, s) && !LabelLeadsOut(eval, n, s)
    requires IsRun(eval, Behind(n, s), run) && i < |run|
    ensures Starting(n, s, run[i]) || Sound.Good(LabelWorld(eval, n, s), run[i])
  {
    hide Sound.Good, Sound.Setting, LabelLeadsOut, Reachable;
    if i != 0 {
      BehindRuns(eval, n, s, run, i - 1);
      if Starting(n, s, run[i - 1]) {
        if run[i - 1].Run? && run[i - 1].s.GotoStmt? {
          JumpIsGood(eval, n, s, run[i]);
        }
      } else {
        JumpsPlaced(eval, n, s);
        Sound.StepGood(LabelWorld(eval, n, s), run[i - 1], run[i]);
      }
    }
  }

  lemma {:induction false} ExecutedInGraph(eval: Evaluator, n: string, s: Stmt, x: nat)
    requires Holding(eval, n, s) && !LabelLeadsOut(eval, n, s)
    requires Executed(eval, Behind(n, s), x)
    ensures InGraph(Env(0, eval), Behind(n, s), x)
  {
    hide LabelLeadsOut, Reachable;
    var body := Behind(n, s);
    var t: Stmt, b: nat, k: Kont :| !t.Braces? && x == b + 1 && Reached(eval, body, Run(t, b, k));
    var run :| IsRun(eval, body, run) && run[|run| - 1] == Run(t, b, k);
    BehindRuns(eval, n, s, run, |run| - 1);
    if Starting(n, s, Run(t, b, k)) {
      BehindLabels(n, s);
      BuiltEdges(Env(0, eval), body);
      ReachableSelf(Blocks(eval, n, s), 1);
    } else {
      assert Size(t) != 0;
      FromLabel(eval, n, s, x);
    }
  }

  // ---- An example ----

  /** `if (c) n:` with nothing known of the condition. */
  function LabelledArm(): Stmt { If(HERE, None, Some(LabelStmt(HERE, "n")), None) }

  /** `goto n; if (c) n: ; rest`: the run goes on to the rest, the graph does not. */
  lemma {:induction false} BuriedLabelLosesControl(eval: Evaluator)
    ensures Executed(eval, Behind("n", LabelledArm()), 4) && !InGraph(Env(0, eval), Behind("n", LabelledArm()), 4)
  {
    var s, mark := LabelledArm(), LabelStmt(HERE, "n");
    assert Labels(s, 1) == map["n" := 3] by { assert LabelsOpt(Some(mark), 2) == map["n" := 3]; }
    assert Holding(eval, "n", s);
    assert Size(s) == 2 && Frag(eval, mark, 2).exits == {3};
    ReachableSelf(Blocks(eval, "n", s), 3);
    assert LabelLeadsOut(eval, "n", s) by { assert 3 in Frag(eval, s, 1).exits; }
    LastIsExecuted(eval, "n", s);
    LastIsNotInGraph(eval, "n", s);
  }
}
