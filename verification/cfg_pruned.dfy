/** A label inside an arm that a known condition rules out, reached by a jump from
    elsewhere: when exactly the graph is exact. */
module CfgPruned {
  import opened Collections
  import opened Syntax
  import opened CfgFragments
  import opened CfgSemantics
  import opened CfgGraph
  import opened CfgCompile
  import opened CfgEdges
  import opened CfgBuild
  import opened CfgTheorems
  import opened CfgLimits
  import Buried = CfgBuried
  import Ifs = CfgExactness
  import Sound = CfgSound
  import Precise = CfgPrecise

  /** Some statement, then `s`, then something after it. */
  function Between(j: Stmt, s: Stmt): Stmt { Braces(HERE, Cons(j, Cons(s, Cons(LAST, Nil)))) }

  function AfterJ(j: Stmt, s: Stmt): Kont { Then(Cons(s, Cons(LAST, Nil)), Size(j), Stop) }

  function AfterS(j: Stmt, s: Stmt): Kont { Then(Cons(LAST, Nil), Size(j) + Size(s), Stop) }

  /** Where an arm of the `if` stands. */
  function ArmBase(j: Stmt, s: Stmt, first: bool): nat
    requires s.If?
  {
    Size(j) + Ifs.Base(s, first)
  }

  /** The part is well shaped, its labels included. */
  predicate Sane(eval: Evaluator, s: Stmt, b: nat) {
    Sound.FullArms(eval, s) && Precise.WholeIfs(eval, s) && Sound.OpenLabels(eval, s, b)
  }

  /** `j` is well shaped and lets control out, and `s` is an `if` whose condition rules out
      the arm told by `first`; both arms are well shaped, and the live one has blocks. */
  ghost predicate Family(eval: Evaluator, j: Stmt, s: Stmt, first: bool) {
    && Sane(eval, j, 0) && (Size(j) == 0 || Frag(eval, j, 0).exits != {})
    && s.If? && !Ifs.Taken(eval, s, first) && Ifs.Arm(s, first).Some?
    && (forall arm: bool :: Ifs.Arm(s, arm).Some? ==> Sane(eval, Ifs.Arm(s, arm).value, ArmBase(j, s, arm)))
    && (Ifs.Arm(s, !first).Some? ==> Size(Ifs.Arm(s, !first).value) != 0)
  }

  ghost predicate In(eval: Evaluator, j: Stmt, s: Stmt, x: nat) { InGraph(Env(0, eval), Between(j, s), x) }

  /** The graph reaches an exit of the `if` that the builder sees. */
  ghost predicate GoesOnAnyway(eval: Evaluator, j: Stmt, s: Stmt) {
    exists x :: x in Frag(eval, s, Size(j)).exits && In(eval, j, s, x)
  }

  /** The graph reaches an exit of the ruled-out arm, by a jump to a label in it. */
  ghost predicate PrunedLeadsOut(eval: Evaluator, j: Stmt, s: Stmt, first: bool)
    requires s.If? && Ifs.Arm(s, first).Some?
  {
    exists x :: x in Frag(eval, Ifs.Arm(s, first).value, ArmBase(j, s, first)).exits && In(eval, j, s, x)
  }

  /** The theorem for labels in ruled-out arms: the graph is exact exactly when it goes
      on behind the `if` anyway or does not get out of the ruled-out arm. */
  lemma {:induction false} PrunedExactly(eval: Evaluator, j: Stmt, s: Stmt, first: bool)
    requires Family(eval, j, s, first)
    ensures Exact(eval, Between(j, s)) <==> GoesOnAnyway(eval, j, s) || !PrunedLeadsOut(eval, j, s, first)
  {
    hide Family, Executed, InGraph, GoesOnAnyway, Exact;
    FamilyIf(eval, j, s, first);
    LastIffExit(eval, j, s, first);
    if PrunedLeadsOut(eval, j, s, first) && !GoesOnAnyway(eval, j, s) {
      LastExecuted(eval, j, s, first);
      NotExactAt(eval, Between(j, s), Size(j) + Size(s) + 1);
    } else {
      forall x: nat ensures InGraph(Env(0, eval), Between(j, s), x) <==> Executed(eval, Between(j, s), x) {
        if InGraph(Env(0, eval), Between(j, s), x) {
          BetweenIsWhole(eval, j, s, first);
          ReachableIsExecuted(Env(0, eval), Between(j, s), x);
        }
        if Executed(eval, Between(j, s), x) {
          ExecutedInGraph(eval, j, s, first, x);
        }
      }
      ExactEverywhere(eval, Between(j, s));
    }
  }

  lemma {:induction false} NotExactAt(eval: Evaluator, body: Stmt, x: nat)
    requires Executed(eval, body, x) && !InGraph(Env(0, eval), body, x)
    ensures !Exact(eval, body)
  {
  }

  lemma {:induction false} ExactEverywhere(eval: Evaluator, body: Stmt)
    requires forall x: nat :: InGraph(Env(0, eval), body, x) <==> Executed(eval, body, x)
    ensures Exact(eval, body)
  {
  }

  lemma {:induction false} FamilyIf(eval: Evaluator, j: Stmt, s: Stmt, first: bool)
    requires Family(eval, j, s, first)
    ensures s.If? && Ifs.Arm(s, first).Some? && !Ifs.Taken(eval, s, first)
  {
  }

  // ---- The graph ----

  lemma {:induction false} BetweenIsWhole(eval: Evaluator, j: Stmt, s: Stmt, first: bool)
    requires Family(eval, j, s, first)
    ensures Precise.WholeIfs(eval, Between(j, s)) && Precise.WholeIfs(eval, s)
    ensures Sound.FullArms(eval, Between(j, s)) && Sound.FullArms(eval, s)
  {
    var rest := Cons(LAST, Nil);
    assert Ifs.Arm(s, true) == s.consequence && Ifs.Arm(s, false) == s.alternative;
    assert s.consequence.Some? ==> Sane(eval, s.consequence.value, ArmBase(j, s, true));
    assert s.alternative.Some? ==> Sane(eval, s.alternative.value, ArmBase(j, s, false));
    assert Precise.WholeIfs(eval, s) && Sound.FullArms(eval, s);
    assert Precise.WholeIfsAll(eval, rest) && Sound.FullArmsAll(eval, rest);
    assert Precise.WholeIfsAll(eval, Cons(s, rest)) && Sound.FullArmsAll(eval, Cons(s, rest));
  }

  lemma {:induction false} BetweenLabels(j: Stmt, s: Stmt)
    ensures Labels(Between(j, s), 0) == Labels(s, Size(j)) + Labels(j, 0)
    ensures Size(Between(j, s)) == Size(j) + Size(s) + 1
    ensures forall name :: name in Labels(Between(j, s), 0) ==> Labels(Between(j, s), 0)[name] <= Size(j) + Size(s)
  {
    var rest := Cons(LAST, Nil);
    assert LabelsAll(rest, Size(j) + Size(s)) == map[] by { assert LabelsAll(Nil, Size(j) + Size(s) + 1) == map[]; }
    assert LabelsAll(Cons(s, rest), Size(j)) == map[] + Labels(s, Size(j)) == Labels(s, Size(j));
    assert SizeAll(rest) == 1 && SizeAll(Cons(s, rest)) == Size(s) + 1;
    assert Labels(Between(j, s), 0) == LabelsAll(Cons(s, rest), Size(j)) + Labels(j, 0);
    forall name | name in Labels(Between(j, s), 0) ensures Labels(Between(j, s), 0)[name] <= Size(j) + Size(s) {
      if name in Labels(j, 0) {
        Buried.LabelInside(j, 0, name);
      } else {
        Buried.LabelInside(s, Size(j), name);
      }
    }
  }

  /** The edges: those of the two statements, from the exits of the first into the
      second and from those of the second to the last block. */
  lemma {:induction false} BetweenEdge(eval: Evaluator, j: Stmt, s: Stmt, first: bool, x: nat, y: nat)
    requires Family(eval, j, s, first)
    ensures var labels := Labels(Between(j, s), 0);
            GraphEdge(eval, Between(j, s), x, y) <==>
            || Edge(eval, labels, j, 0, x, y)
            || (Size(j) != 0 && x in Frag(eval, j, 0).exits && y == Size(j) + 1)
            || Edge(eval, labels, s, Size(j), x, y)
            || (x in Frag(eval, s, Size(j)).exits && y == Size(j) + Size(s) + 1)
    ensures Frag(eval, s, Size(j)).exits != {} ==> Size(j) + Size(s) + 1 in Frag(eval, Between(j, s), 0).exits
  {
    var labels, rest, b, b' := Labels(Between(j, s), 0), Cons(LAST, Nil), Size(j), Size(j) + Size(s);
    EntryIsFirstBlock(eval, j, 0);
    EntryIsFirstBlock(eval, s, b);
    var acc1 := Join(NOTHING, Frag(eval, j, 0), j.LabelStmt?);
    var acc2 := Join(acc1, Frag(eval, s, b), s.LabelStmt?);
    assert acc2.entry != 0 && acc2.exits == Frag(eval, s, b).exits;
    var last := Frag(eval, LAST, b');
    assert last == Fragment(b' + 1, {b' + 1}, {}, {});
    assert SeqEdge(eval, labels, rest, b', acc2, x, y) <==> x in acc2.exits && y == b' + 1 by {
      assert !Edge(eval, labels, LAST, b', x, y);
      assert !SeqEdge(eval, labels, Nil, b' + 1, Join(acc2, last, false), x, y);
    }
    assert FragAll(eval, rest, b', acc2) == Join(acc2, last, false) by {
      assert FragAll(eval, Nil, b' + 1, Join(acc2, last, false)) == Join(acc2, last, false);
    }
    assert FragAll(eval, Cons(s, rest), b, acc1) == Join(acc2, last, false);
    hide Edge, Frag;
    assert SeqEdge(eval, labels, Cons(s, rest), b, acc1, x, y) <==>
           || (acc1.entry != 0 && x in acc1.exits && y == b + 1) || Edge(eval, labels, s, b, x, y)
           || (x in acc2.exits && y == b' + 1);
    Buried.BracesEdge(eval, labels, Cons(j, Cons(s, rest)), x, y);
    BracesFrag(eval, Cons(j, Cons(s, rest)));
  }

  lemma {:induction false} BracesFrag(eval: Evaluator, ss: Stmts)
    ensures Frag(eval, Braces(HERE, ss), 0) == FragAll(eval, ss, 0, NOTHING)
  {
  }

  /** Edges of a part of the body lead to blocks of the part or to labels. */
  lemma {:induction false} PartEdgeRange(eval: Evaluator, labels: map<string, nat>, part: Stmt, b: nat, hi: nat, x: nat, y: nat)
    requires Edge(eval, labels, part, b, x, y) && "" !in labels && b + Size(part) <= hi
    requires forall name :: name in labels ==> labels[name] <= hi
    ensures y <= hi
  {
    EdgeSplit(eval, labels, 0, part, b, x, y);
    WiresRange(eval, part, b);
  }

  lemma {:induction false} LastIffExit(eval: Evaluator, j: Stmt, s: Stmt, first: bool)
    requires Family(eval, j, s, first)
    ensures In(eval, j, s, Size(j) + Size(s) + 1) <==> GoesOnAnyway(eval, j, s)
  {
    hide Family, Reachable, HasEdge, GraphEdge, Frag, Edge, InGraph;
    var z := Size(j) + Size(s) + 1;
    if GoesOnAnyway(eval, j, s) {
      var x :| x in Frag(eval, s, Size(j)).exits && In(eval, j, s, x);
      BetweenEdge(eval, j, s, first, x, z);
      FollowEdge(Env(0, eval), Between(j, s), x, z);
    }
    if In(eval, j, s, z) && !GoesOnAnyway(eval, j, s) {
      LastUnreached(eval, j, s, first);
    }
  }

  lemma {:induction false} EdgeToLast(eval: Evaluator, j: Stmt, s: Stmt, first: bool, x: nat)
    requires Family(eval, j, s, first) && GraphEdge(eval, Between(j, s), x, Size(j) + Size(s) + 1)
    ensures x in Frag(eval, s, Size(j)).exits
  {
    hide Family, GraphEdge, Frag, Edge;
    var labels, z := Labels(Between(j, s), 0), Size(j) + Size(s) + 1;
    assert Size(s) > 0 by { FamilyIf(eval, j, s, first); }
    BetweenEdge(eval, j, s, first, x, z);
    BetweenLabels(j, s);
    LabelsNamed(Between(j, s), 0);
    if Edge(eval, labels, j, 0, x, z) {
      PartEdgeRange(eval, labels, j, 0, z - 1, x, z);
    }
    if Edge(eval, labels, s, Size(j), x, z) {
      PartEdgeRange(eval, labels, s, Size(j), z - 1, x, z);
    }
  }

  predicate Other(x: nat, z: nat) { x != z }

  lemma {:induction false} LastUnreached(eval: Evaluator, j: Stmt, s: Stmt, first: bool)
    requires Family(eval, j, s, first) && !GoesOnAnyway(eval, j, s)
    ensures !In(eval, j, s, Size(j) + Size(s) + 1)
  {
    hide Family, Reachable, HasEdge, GraphEdge, Frag, Edge;
    var z, g := Size(j) + Size(s) + 1, Built(Env(0, eval), Between(j, s));
    BuiltEdges(Env(0, eval), Between(j, s));
    BetweenLabels(j, s);
    assert Size(s) > 0 by { FamilyIf(eval, j, s, first); }
    var closed := iset x: nat | Other(x, z) && In(eval, j, s, x);
    forall x: nat, y: nat | x in closed && HasEdge(g.blocks, x, y) ensures y in closed {
      FollowEdge(Env(0, eval), Between(j, s), x, y);
      if y == z {
        EdgeToLast(eval, j, s, first, x);
      }
    }
    if In(eval, j, s, z) {
      ReachableSelf(g.blocks, 1);
      ReachableLeast(g.blocks, 1, z, closed);
    }
  }

  // ---- Control that comes out of the ruled-out arm ----

  lemma {:induction false} LastExecuted(eval: Evaluator, j: Stmt, s: Stmt, first: bool)
    requires Family(eval, j, s, first) && PrunedLeadsOut(eval, j, s, first)
    ensures Executed(eval, Between(j, s), Size(j) + Size(s) + 1)
  {
    hide InGraph, Reached, Precise.Live, Precise.EdgesLive, Precise.Within;
    var body, p, b, k := Between(j, s), Ifs.Arm(s, first).value, ArmBase(j, s, first), AfterS(j, s);
    var x :| x in Frag(eval, p, b).exits && In(eval, j, s, x);
    BetweenIsWhole(eval, j, s, first);
    ReachableIsExecuted(Env(0, eval), body, x);
    Precise.ExecutedIsLive(eval, body, x);
    IfWithin(j, s);
    Precise.WithinArms(body, s, Size(j), k);
    assert Sane(eval, p, b);
    Precise.PreciseStmt(eval, body, p, b, k);
    assert Reached(eval, body, Done(k));
    LastFollows(eval, j, s);
  }

  lemma {:induction false} IfWithin(j: Stmt, s: Stmt)
    ensures Precise.Within(Between(j, s), s, Size(j), AfterS(j, s))
  {
    Precise.SplitAll(Between(j, s), j, Cons(s, Cons(LAST, Nil)), 0, Stop);
    Precise.SplitAll(Between(j, s), s, Cons(LAST, Nil), Size(j), Stop);
  }

  lemma {:induction false} LastFollows(eval: Evaluator, j: Stmt, s: Stmt)
    requires Reached(eval, Between(j, s), Done(AfterS(j, s)))
    ensures Executed(eval, Between(j, s), Size(j) + Size(s) + 1)
  {
    var b := Size(j) + Size(s);
    ReachedStep(eval, Between(j, s), Done(AfterS(j, s)), Run(LAST, b, Then(Nil, b + 1, Stop)));
  }

  // ---- Control that does not, or that the graph follows anyway ----

  /** In the world of the graph's blocks a ruled-out arm may stand where it does. */
  lemma {:induction false} PrunedPlaced(w: Sound.World, eval: Evaluator, j: Stmt, s: Stmt, first: bool)
    requires Family(eval, j, s, first) && (GoesOnAnyway(eval, j, s) || !PrunedLeadsOut(eval, j, s, first))
    requires w.eval == eval && w.root == Between(j, s) && w.Closed() && w.ends == Frag(eval, Between(j, s), 0).exits
    requires forall x :: x in w.blocks <==> x == 0 || In(eval, j, s, x)
    ensures Sound.Placed(w, Ifs.Arm(s, first).value, ArmBase(j, s, first), AfterS(j, s))
  {
    hide InGraph, GraphEdge, Edge, Frag, Sound.Ready, GoesOnAnyway;
    var p, b, k := Ifs.Arm(s, first).value, ArmBase(j, s, first), AfterS(j, s);
    FragRange(eval, p, b);
    LastIffExit(eval, j, s, first);
    assert Sane(eval, p, b);
    forall x, y | x in w.blocks && Edge(eval, w.Jumps(), p, b, x, y) ensures y in w.blocks {
      ArmEdge(eval, j, s, first, x, y);
    }
    forall x | x in w.blocks && x in Frag(eval, p, b).exits ensures Sound.Ready(w, k, x) {
      assert In(eval, j, s, x);
      SomeExit(eval, j, s, first);
      LastReady(w, Size(j) + Size(s), x);
    }
    forall x ensures Sound.ReadyToBreak(w, k, x) && Sound.ReadyToContinue(w, k, x) {
      NoLoopAround(w, Size(j) + Size(s), x);
    }
  }

  lemma {:induction false} NoLoopAround(w: Sound.World, b: nat, x: nat)
    ensures Sound.ReadyToBreak(w, Then(Cons(LAST, Nil), b, Stop), x)
    ensures Sound.ReadyToContinue(w, Then(Cons(LAST, Nil), b, Stop), x)
  {
    assert Sound.ReadyToBreak(w, Stop, x) && Sound.ReadyToContinue(w, Stop, x);
  }

  lemma {:induction false} SomeExit(eval: Evaluator, j: Stmt, s: Stmt, first: bool)
    requires Family(eval, j, s, first) && GoesOnAnyway(eval, j, s)
    ensures Size(j) + Size(s) + 1 in Frag(eval, Between(j, s), 0).exits
  {
    hide Family, Frag, InGraph, GraphEdge, Edge;
    BetweenEdge(eval, j, s, first, 0, 0);
  }

  lemma {:induction false} ArmEdge(eval: Evaluator, j: Stmt, s: Stmt, first: bool, x: nat, y: nat)
    requires Family(eval, j, s, first)
    requires Edge(eval, Labels(Between(j, s), 0), Ifs.Arm(s, first).value, ArmBase(j, s, first), x, y)
    ensures GraphEdge(eval, Between(j, s), x, y)
  {
    hide Frag;
    BetweenEdge(eval, j, s, first, x, y);
    hide GraphEdge;
  }

  lemma {:induction false} LastReady(w: Sound.World, b: nat, x: nat)
    requires b + 1 in w.blocks && b + 1 in w.ends
    ensures Sound.Ready(w, Then(Cons(LAST, Nil), b, Stop), x)
  {
    var rest, after := Cons(LAST, Nil), Sound.After(x);
    assert Frag(w.eval, LAST, b) == Fragment(b + 1, {b + 1}, {}, {});
    var joined := Join(after, Frag(w.eval, LAST, b), false);
    assert FragAll(w.eval, rest, b, after) == FragAll(w.eval, Nil, b + 1, joined) == joined;
    forall u, v | SeqEdge(w.eval, w.Jumps(), rest, b, after, u, v) ensures v == b + 1 {
      assert !Edge(w.eval, w.Jumps(), LAST, b, u, v);
      assert !SeqEdge(w.eval, w.Jumps(), Nil, b + 1, joined, u, v);
    }
    assert Sound.FullArmsAll(w.eval, rest) by { assert Sound.FullArmsAll(w.eval, Nil); }
    assert Sound.PlacedAll(w, rest, b, after, Stop);
  }

  /** A jump goes into the first statement or into the arms. */
  lemma {:induction false} JumpsInto(j: Stmt, s: Stmt, name: string)
    requires s.If?
    ensures FindLabel(Between(j, s), 0, Stop, name) ==
            Or(FindLabel(j, 0, AfterJ(j, s), name),
               Or(FindLabelOpt(Ifs.Arm(s, true), ArmBase(j, s, true), AfterS(j, s), name),
                  FindLabelOpt(Ifs.Arm(s, false), ArmBase(j, s, false), AfterS(j, s), name)))
  {
    var rest, b := Cons(LAST, Nil), Size(j) + Size(s);
    assert FindLabelAll(rest, b, Stop, name) == None by { assert FindLabelAll(Nil, b + 1, Stop, name) == None; }
    assert FindLabelAll(Cons(s, rest), Size(j), Stop, name) == FindLabel(s, Size(j), AfterS(j, s), name);
  }

  lemma {:induction false} JumpPlaced(w: Sound.World, eval: Evaluator, j: Stmt, s: Stmt, first: bool, name: string)
    requires Family(eval, j, s, first) && (GoesOnAnyway(eval, j, s) || !PrunedLeadsOut(eval, j, s, first))
    requires w.eval == eval && w.root == Between(j, s) && w.Closed() && w.ends == Frag(eval, Between(j, s), 0).exits
    requires forall x :: x in w.blocks <==> x == 0 || In(eval, j, s, x)
    requires FindLabel(Between(j, s), 0, Stop, name).Some?
    ensures Sound.PlacedState(w, FindLabel(Between(j, s), 0, Stop, name).value)
  {
    hide Frag, Sound.Placed, Sound.PlacedAll, GoesOnAnyway, PrunedLeadsOut, InGraph;
    JumpsInto(j, s, name);
    PlacedParts(w, eval, j, s, first);
    if FindLabel(j, 0, AfterJ(j, s), name).Some? {
      Sound.LabelPlaced(w, j, 0, AfterJ(j, s), name);
    } else {
      var arm := FindLabelOpt(Ifs.Arm(s, true), ArmBase(j, s, true), AfterS(j, s), name).Some?;
      if arm == first {
        PrunedPlaced(w, eval, j, s, first);
      }
      assert Sane(eval, Ifs.Arm(s, arm).value, ArmBase(j, s, arm));
      Sound.LabelPlaced(w, Ifs.Arm(s, arm).value, ArmBase(j, s, arm), AfterS(j, s), name);
    }
  }

  /** The body, its first statement and the live arm may stand where they do. */
  lemma {:induction false} PlacedParts(w: Sound.World, eval: Evaluator, j: Stmt, s: Stmt, first: bool)
    requires Family(eval, j, s, first)
    requires w.eval == eval && w.root == Between(j, s) && w.Closed() && w.ends == Frag(eval, Between(j, s), 0).exits
    ensures Sound.Placed(w, Between(j, s), 0, Stop)
    ensures Sound.Placed(w, j, 0, AfterJ(j, s))
    ensures Ifs.Arm(s, !first).Some? ==>
              Sound.Placed(w, Ifs.Arm(s, !first).value, ArmBase(j, s, !first), AfterS(j, s))
  {
    hide Sound.Placed, Sound.PlacedAll, Family, Frag;
    var rest, acc := Cons(LAST, Nil), Join(NOTHING, Frag(eval, j, 0), j.LabelStmt?);
    BetweenIsWhole(eval, j, s, first);
    FamilyIf(eval, j, s, first);
    RootStands(w);
    Sound.PlacedBraces(w, Between(j, s), 0, Stop);
    Sound.PlacedHead(w, j, Cons(s, rest), 0, NOTHING, Stop);
    Sound.PlacedTail(w, j, Cons(s, rest), 0, NOTHING, Stop);
    LetsOut(eval, j, s, first);
    Sound.PlacedHead(w, s, rest, Size(j), acc, Stop);
    LiveArmPlaced(w, eval, j, s, first);
  }

  lemma {:induction false} LetsOut(eval: Evaluator, j: Stmt, s: Stmt, first: bool)
    requires Family(eval, j, s, first)
    ensures var acc := Join(NOTHING, Frag(eval, j, 0), j.LabelStmt?);
            (acc.entry == 0 ==> acc == NOTHING) && (acc.entry == 0 || acc.exits != {})
  {
    hide Frag;
    EntryIsFirstBlock(eval, j, 0);
  }

  lemma {:induction false} LiveArmPlaced(w: Sound.World, eval: Evaluator, j: Stmt, s: Stmt, first: bool)
    requires w.eval == eval && s.If? && !Ifs.Taken(eval, s, first)
    requires Sound.Placed(w, s, Size(j), AfterS(j, s))
    ensures Ifs.Arm(s, !first).Some? ==>
              Sound.Placed(w, Ifs.Arm(s, !first).value, ArmBase(j, s, !first), AfterS(j, s))
  {
    hide Sound.Placed;
    Sound.PlacedArms(w, s, Size(j), AfterS(j, s));
  }

  lemma {:induction false} RootStands(w: Sound.World)
    requires w.Closed() && w.ends == Frag(w.eval, w.root, 0).exits && Sound.FullArms(w.eval, w.root)
    ensures Sound.Placed(w, w.root, 0, Stop)
  {
  }

  lemma {:induction false} ExecutedInGraph(eval: Evaluator, j: Stmt, s: Stmt, first: bool, x: nat)
    requires Family(eval, j, s, first) && (GoesOnAnyway(eval, j, s) || !PrunedLeadsOut(eval, j, s, first))
    requires Executed(eval, Between(j, s), x)
    ensures In(eval, j, s, x)
  {
    hide Frag, Sound.Placed, GoesOnAnyway, PrunedLeadsOut, InGraph;
    var body := Between(j, s);
    BetweenLabels(j, s);
    var w := WholeWorld(eval, body);
    PlacedParts(w, eval, j, s, first);
    forall name: string | FindLabel(w.root, 0, Stop, name).Some?
      ensures Sound.PlacedState(w, FindLabel(w.root, 0, Stop, name).value)
    {
      JumpPlaced(w, eval, j, s, first, name);
    }
    Sound.SoundWhenSet(w);
    Precise.ExecutedIsLive(eval, body, x);
  }

  /** The blocks that the graph reaches, and block 0. */
  lemma {:induction false} WholeWorld(eval: Evaluator, body: Stmt) returns (w: Sound.World)
    requires Size(body) != 0
    ensures w.eval == eval && w.root == body && w.Closed() && w.ends == Frag(eval, body, 0).exits
    ensures forall x :: x in w.blocks <==> x == 0 || InGraph(Env(0, eval), body, x)
  {
    var all := set x | x in Ids(Size(body)) && InGraph(Env(0, eval), body, x);
    w := Sound.World(eval, body, all + {0}, Frag(eval, body, 0).exits);
    hide Reachable, Frag, GraphEdge, HasEdge;
    BuiltEdges(Env(0, eval), body);
    ReachableSelf(Built(Env(0, eval), body).blocks, 1);
    forall x, y | x in w.blocks && GraphEdge(eval, body, x, y) ensures y in w.blocks {
      FollowEdge(Env(0, eval), body, x, y);
    }
    forall x: nat | InGraph(Env(0, eval), body, x) ensures x in Ids(Size(body)) {
      OfGraph(eval, body, x);
    }
  }

  lemma {:induction false} OfGraph(eval: Evaluator, body: Stmt, x: nat)
    requires Size(body) != 0 && InGraph(Env(0, eval), body, x)
    ensures 0 < x <= Size(body)
  {
    hide Reachable, GraphEdge, HasEdge;
    var g := Built(Env(0, eval), body);
    BuiltEdges(Env(0, eval), body);
    forall u: nat, v: nat | HasEdge(g.blocks, u, v) ensures v in Ids(Size(body)) {
      FollowEdge(Env(0, eval), body, u, v);
    }
    ReachableLeast(g.blocks, 1, x, iset y: nat | y in Ids(Size(body)));
  }

  // ---- An example ----

  /** `if (?) goto n;` */
  function MaybeJump(): Stmt { If(HERE, None, Some(GotoStmt(HERE, "n")), None) }

  /** `if (0) n: ; else return;` */
  function RuledOut(): Stmt { If(HERE, Some(Expr("0", HERE)), Some(LabelStmt(HERE, "n")), Some(Return(HERE))) }

  /** Block 6, what follows the two, is executed, but it is not in the graph and no edge
      leads to it, so that it is reported as unreachable. */
  lemma {:induction false} PrunedLabelLosesControl(eval: Evaluator)
    requires eval(Expr("0", HERE)) == Some(0)
    ensures
      var body := Between(MaybeJump(), RuledOut());
      Executed(eval, body, 6) && !InGraph(Env(0, eval), body, 6) && Reported(Built(Env(0, eval), body), 6)
  {
    hide InGraph, Executed, GoesOnAnyway;
    var j, s := MaybeJump(), RuledOut();
    ExampleFits(eval);
    assert !GoesOnAnyway(eval, j, s) by { ExampleIsDead(eval); }
    LastUnreached(eval, j, s, true);
    JumpReached(eval);
    LastExecuted(eval, j, s, true);
    NoEdgeToLast(eval);
  }

  lemma {:induction false} ExampleFits(eval: Evaluator)
    requires eval(Expr("0", HERE)) == Some(0)
    ensures Family(eval, MaybeJump(), RuledOut(), true)
    ensures Size(MaybeJump()) == 2 && Size(RuledOut()) == 3 && Frag(eval, RuledOut(), 2).exits == {}
  {
    var j, s := MaybeJump(), RuledOut();
    assert Frag(eval, GotoStmt(HERE, "n"), 1).exits == {};
    assert 1 in Frag(eval, j, 0).exits;
    assert Sane(eval, j, 0);
    assert Frag(eval, Return(HERE), 4).exits == {};
  }

  lemma {:induction false} ExampleIsDead(eval: Evaluator)
    requires eval(Expr("0", HERE)) == Some(0)
    ensures !GoesOnAnyway(eval, MaybeJump(), RuledOut())
  {
    hide InGraph;
    ExampleFits(eval);
  }

  lemma {:induction false} JumpReached(eval: Evaluator)
    requires eval(Expr("0", HERE)) == Some(0)
    ensures PrunedLeadsOut(eval, MaybeJump(), RuledOut(), true)
  {
    hide Edge, GraphEdge, InGraph, Labels;
    var j, s := MaybeJump(), RuledOut();
    var body := Between(j, s);
    ExampleFits(eval);
    BetweenLabels(j, s);
    ExampleEdges(eval);
    BetweenEdge(eval, j, s, true, 1, 2);
    BetweenEdge(eval, j, s, true, 2, 4);
    EntryInGraph(eval, body);
    FollowEdge(Env(0, eval), body, 1, 2);
    FollowEdge(Env(0, eval), body, 2, 4);
    assert 4 in Frag(eval, LabelStmt(HERE, "n"), 3).exits;
  }

  lemma {:induction false} ExampleEdges(eval: Evaluator)
    ensures
      var labels := Labels(RuledOut(), 2) + Labels(MaybeJump(), 0);
      Edge(eval, labels, MaybeJump(), 0, 1, 2) && Edge(eval, labels, MaybeJump(), 0, 2, 4)
  {
    var labels := Labels(RuledOut(), 2) + Labels(MaybeJump(), 0);
    assert labels == map["n" := 4] by {
      assert LabelsOpt(Some(LabelStmt(HERE, "n")), 3) == map["n" := 4];
      assert LabelsOpt(Some(Return(HERE)), 4) == map[];
      assert LabelsOpt(Some(GotoStmt(HERE, "n")), 1) == map[];
    }
    assert Frag(eval, GotoStmt(HERE, "n"), 1).entry == 2;
    assert Edge(eval, labels, GotoStmt(HERE, "n"), 1, 2, 4);
  }

  lemma {:induction false} EntryInGraph(eval: Evaluator, body: Stmt)
    requires Size(body) != 0
    ensures InGraph(Env(0, eval), body, 1)
  {
    BuiltEdges(Env(0, eval), body);
    ReachableSelf(Built(Env(0, eval), body).blocks, 1);
  }

  lemma {:induction false} NoEdgeToLast(eval: Evaluator)
    requires eval(Expr("0", HERE)) == Some(0)
    requires !InGraph(Env(0, eval), Between(MaybeJump(), RuledOut()), 6)
    ensures Reported(Built(Env(0, eval), Between(MaybeJump(), RuledOut())), 6)
  {
    hide GraphEdge, Reachable;
    var j, s := MaybeJump(), RuledOut();
    var g := Built(Env(0, eval), Between(j, s));
    ExampleFits(eval);
    BetweenLabels(j, s);
    BuiltEdges(Env(0, eval), Between(j, s));
    if Predecessor(g, 6) {
      var i :| 0 <= i < |g.blocks| && 6 in g.blocks[i].successors;
      assert HasEdge(g.blocks, i + 1, 6);
      EdgeToLast(eval, j, s, true, i + 1);
    }
  }
}
