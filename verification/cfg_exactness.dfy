/** When exactly the graph is exact for an `if` with any arms, and for a label
    that only a jump over a dead prefix leads to. */
module CfgExactness {
  import opened Collections
  import opened Syntax
  import opened CfgFragments
  import opened CfgSemantics
  import opened CfgGraph
  import opened CfgEdges
  import opened CfgCompile
  import opened CfgBuild
  import opened CfgTheorems
  import opened CfgLimits
  import opened CfgShifted
  import Sound = CfgSound
  import Precise = CfgPrecise

  // ---- An `if` in front of other code ----

  /** The arm, on its own, is a body that its own graph describes exactly. */
  predicate Fine(eval: Evaluator, o: Option<Stmt>) {
    o.Some? ==> !HasLabel(o.value) && Sound.FullArms(eval, o.value) && Precise.WholeIfs(eval, o.value)
  }

  /** The builder finds that control falls off the end of the arm. */
  ghost predicate Falls(eval: Evaluator, o: Option<Stmt>) {
    o.Some? && Built(Env(0, eval), o.value).fallsThrough
  }

  /** Control does come out of the arm: it is missing, empty or falls through. */
  ghost predicate Passes(eval: Evaluator, o: Option<Stmt>) {
    o.None? || Size(o.value) == 0 || Falls(eval, o)
  }

  /** Control comes out of the `if`. */
  ghost predicate ComesOut(eval: Evaluator, s: Stmt)
    requires s.If?
  {
    var t := CondTruth(eval, s.cond);
    (t.MayHold() && Passes(eval, s.consequence)) || (t.MayFail() && Passes(eval, s.alternative))
  }

  /** The builder lets control come out of the `if`: a missing first arm counts
      as an exit whatever the condition says, and empty braces never do. */
  ghost predicate GoesOn(eval: Evaluator, s: Stmt)
    requires s.If?
  {
    var t := CondTruth(eval, s.cond);
    || s.consequence.None?
    || (t.MayHold() && Falls(eval, s.consequence))
    || (t.MayFail() && (s.alternative.None? || Falls(eval, s.alternative)))
  }

  /** The theorem for `if`: in front of other code the graph is exact exactly when
      the builder is right about control coming out. */
  lemma {:induction false} IfExactly(eval: Evaluator, s: Stmt)
    requires s.If? && Fine(eval, s.consequence) && Fine(eval, s.alternative)
    ensures Exact(eval, Followed(s)) <==> (ComesOut(eval, s) <==> GoesOn(eval, s))
  {
    hide Exact, GoesOn, ComesOut, InGraph, Executed, Fine, IfGraph;
    var body, z := Followed(s), Size(s) + 1;
    IfGraphHolds(eval, s);
    InGraphExactly(eval, s, z);
    ExecutedExactly(eval, s, z);
    assert !Inside(eval, s, z);
    forall x: nat | x != z ensures InGraph(Env(0, eval), body, x) <==> Executed(eval, body, x) {
      InGraphExactly(eval, s, x);
      ExecutedExactly(eval, s, x);
    }
    ExactAt(eval, body, z);
  }

  lemma {:induction false} ExactAt(eval: Evaluator, body: Stmt, z: nat)
    requires forall x: nat :: x != z ==> (InGraph(Env(0, eval), body, x) <==> Executed(eval, body, x))
    ensures Exact(eval, body) <==> (InGraph(Env(0, eval), body, z) <==> Executed(eval, body, z))
  {
    hide InGraph, Executed;
  }

  /** An `if` without its first arm: exact exactly when the condition may hold, the
      `else` is empty or control falls off its end. */
  lemma {:induction false} MissingArmExactly(eval: Evaluator, s: Stmt)
    requires s.If? && s.consequence.None? && s.alternative.Some? && Fine(eval, s.alternative)
    ensures Exact(eval, Followed(s)) <==>
            || CondTruth(eval, s.cond).MayHold()
            || Size(s.alternative.value) == 0
            || Built(Env(0, eval), s.alternative.value).fallsThrough
  {
    IfExactly(eval, s);
  }

  /** An `if` with both arms there, in front of other code: exact whatever the
      condition turns out to be, exactly when neither arm is empty braces. */
  lemma {:induction false} IfExactIffArmsFull(s: Stmt)
    requires s.If? && s.cond.Some? && s.consequence.Some?
    requires FineOpt(s.consequence) && FineOpt(s.alternative)
    ensures (forall eval: Evaluator :: Exact(eval, Followed(s)))
       <==> Size(s.consequence.value) != 0 && (s.alternative.Some? ==> Size(s.alternative.value) != 0)
  {
    hide Exact;
    var c, a := s.consequence, s.alternative;
    forall eval: Evaluator
      ensures Exact(eval, Followed(s)) <==> (ComesOut(eval, s) <==> GoesOn(eval, s))
      ensures c.Some? && Size(c.value) == 0 ==> !Falls(eval, c)
      ensures a.Some? && Size(a.value) == 0 ==> !Falls(eval, a)
    {
      IfExactly(eval, s);
      if c.Some? { EmptyFallsNot(eval, c.value); }
      if a.Some? { EmptyFallsNot(eval, a.value); }
    }
    if Size(c.value) == 0 {
      var eval: Evaluator := e => Some(1);
      assert ComesOut(eval, s) && !GoesOn(eval, s);
    } else if a.Some? && Size(a.value) == 0 {
      var eval: Evaluator := e => Some(0);
      assert ComesOut(eval, s) && !GoesOn(eval, s);
    }
  }

  lemma {:induction false} EmptyFallsNot(eval: Evaluator, s: Stmt)
    ensures Size(s) == 0 ==> !Built(Env(0, eval), s).fallsThrough
  {
    BuiltEdges(Env(0, eval), s);
  }

  // ---- The graph of an `if` in front of other code ----

  /** The two arms alike: the part, where it stands and whether control enters it. */
  function Arm(s: Stmt, first: bool): Option<Stmt>
    requires s.If?
  {
    if first then s.consequence else s.alternative
  }

  function Base(s: Stmt, first: bool): nat
    requires s.If?
  {
    if first then 1 else 1 + SizeOpt(s.consequence)
  }

  ghost predicate Taken(eval: Evaluator, s: Stmt, first: bool)
    requires s.If?
  {
    if first then CondTruth(eval, s.cond).MayHold() else CondTruth(eval, s.cond).MayFail()
  }

  /** The arm has blocks and control enters it. */
  ghost predicate Enters(eval: Evaluator, s: Stmt, first: bool)
    requires s.If?
  {
    Taken(eval, s, first) && SizeOpt(Arm(s, first)) != 0
  }

  /** The builder lets control skip the arms altogether. */
  ghost predicate Skips(eval: Evaluator, s: Stmt)
    requires s.If?
  {
    s.consequence.None? || (CondTruth(eval, s.cond).MayFail() && s.alternative.None?)
  }

  ghost function Blocks(eval: Evaluator, s: Stmt): seq<Block> { Built(Env(0, eval), Followed(s)).blocks }

  ghost predicate InArm(s: Stmt, first: bool, x: nat)
    requires s.If?
  {
    Base(s, first) < x <= Base(s, first) + SizeOpt(Arm(s, first))
  }

  /** The edges of an `if` in front of its last block. */
  ghost predicate IfGraph(eval: Evaluator, s: Stmt)
    requires s.If?
  {
    var bs, z := Blocks(eval, s), Size(s) + 1;
    && Size(Followed(s)) == z && Built(Env(0, eval), Followed(s)).entry == 1
    && (forall x: nat, y: nat :: HasEdge(bs, x, y) <==> GraphEdge(eval, Followed(s), x, y))
    && (forall x: nat, y: nat :: HasEdge(bs, x, y) ==> 0 < x < z && 1 < y <= z)
    && (HasEdge(bs, 1, z) <==> Skips(eval, s))
    && (forall y: nat :: HasEdge(bs, 1, y) && y != z ==> exists first :: Enters(eval, s, first) && y == Base(s, first) + 1)
    && (forall first :: Enters(eval, s, first) ==> HasEdge(bs, 1, Base(s, first) + 1))
    && (forall first :: SizeOpt(Arm(s, first)) != 0 ==>
          Stands(eval, Followed(s), Arm(s, first).value, Base(s, first), z))
    && (forall first, x: nat :: InArm(s, first, x) ==>
          (HasEdge(bs, x, z) <==> Taken(eval, s, first) && x in FragOpt(eval, Arm(s, first), Base(s, first)).exits))
  }

  /** The edges and ends of a part without labels are inside it. */
  lemma {:induction false} ArmRange(eval: Evaluator, o: Option<Stmt>, b: nat)
    requires o.Some? ==> !HasLabel(o.value)
    ensures o.Some? ==> Labels(o.value, 0) == map[]
    ensures FragOpt(eval, o, b).entry == if SizeOpt(o) == 0 then 0 else b + 1
    ensures o.Some? ==> forall x: nat, y: nat :: Edge(eval, map[], o.value, b, x, y) ==> b < x <= b + SizeOpt(o) && b < y <= b + SizeOpt(o)
    ensures forall x :: x in FragOpt(eval, o, b).exits ==> b < x <= b + SizeOpt(o)
  {
    if o.Some? {
      NoLabelsOpen(eval, o.value, 0);
      EntryIsFirstBlock(eval, o.value, b);
      WiresRange(eval, o.value, b);
      FragRange(eval, o.value, b);
    }
  }

  /** The edges of the `if` itself, and its exits. */
  lemma {:induction false} IfEdge(eval: Evaluator, s: Stmt, x: nat, y: nat)
    requires s.If? && Fine(eval, s.consequence) && Fine(eval, s.alternative)
    ensures Edge(eval, map[], s, 0, x, y) <==>
            || (x == 1 && exists first :: Enters(eval, s, first) && y == Base(s, first) + 1)
            || exists first :: Arm(s, first).Some? && Edge(eval, map[], Arm(s, first).value, Base(s, first), x, y)
    ensures x in Frag(eval, s, 0).exits <==>
            || (x == 1 && Skips(eval, s))
            || exists first :: Taken(eval, s, first) && x in FragOpt(eval, Arm(s, first), Base(s, first)).exits
  {
    ArmRange(eval, s.consequence, 1);
    ArmRange(eval, s.alternative, 1 + SizeOpt(s.consequence));
    var t := CondTruth(eval, s.cond);
    var c, a, b' := s.consequence, s.alternative, 1 + SizeOpt(s.consequence);
    assert Arm(s, true) == c && Base(s, true) == 1 && Arm(s, false) == a && Base(s, false) == b';
    assert Taken(eval, s, true) == t.MayHold() && Taken(eval, s, false) == t.MayFail();
    assert Enters(eval, s, true) == (t.MayHold() && SizeOpt(c) != 0);
    assert Enters(eval, s, false) == (t.MayFail() && SizeOpt(a) != 0);
  }

  lemma {:induction false} IfGraphHolds(eval: Evaluator, s: Stmt)
    requires s.If? && Fine(eval, s.consequence) && Fine(eval, s.alternative)
    ensures IfGraph(eval, s)
  {
    hide Taken, Enters, Skips, HasEdge, GraphEdge, Stands, Built, FragOpt;
    var root, z, bs := Followed(s), Size(s) + 1, Blocks(eval, s);
    BuiltEdges(Env(0, eval), root);
    FollowedEdge(eval, s, 0, 0);
    HeaderEdge(eval, s, z);
    forall x: nat, y: nat
      ensures HasEdge(bs, x, y) ==> 0 < x < z && 1 < y <= z
      ensures HasEdge(bs, 1, y) && y != z ==> exists first :: Enters(eval, s, first) && y == Base(s, first) + 1
    {
      EdgeInIf(eval, s, x, y);
      HeaderEdge(eval, s, y);
    }
    forall first, x: nat | InArm(s, first, x)
      ensures HasEdge(bs, x, z) <==> Taken(eval, s, first) && x in FragOpt(eval, Arm(s, first), Base(s, first)).exits
    {
      ExitEdge(eval, s, first, x);
    }
    forall first ensures Enters(eval, s, first) ==> HasEdge(bs, 1, Base(s, first) + 1) {
      EntersByEdge(eval, s, first);
    }
    forall first ensures SizeOpt(Arm(s, first)) != 0 ==> Stands(eval, Followed(s), Arm(s, first).value, Base(s, first), z) {
      ArmStands(eval, s, first);
    }
  }

  /** Where the arms' edges and exits lie. */
  lemma {:induction false} ArmRanges(eval: Evaluator, s: Stmt, x: nat, y: nat)
    requires s.If? && Fine(eval, s.consequence) && Fine(eval, s.alternative)
    ensures Size(s) == 1 + SizeOpt(s.consequence) + SizeOpt(s.alternative)
    ensures forall first :: Arm(s, first).Some? && Edge(eval, map[], Arm(s, first).value, Base(s, first), x, y) ==>
              InArm(s, first, x) && InArm(s, first, y)
    ensures forall first :: x in FragOpt(eval, Arm(s, first), Base(s, first)).exits ==> InArm(s, first, x)
  {
    hide Edge, FragOpt;
    ArmRange(eval, s.consequence, Base(s, true));
    ArmRange(eval, s.alternative, Base(s, false));
    assert Arm(s, true) == s.consequence && Arm(s, false) == s.alternative;
  }

  lemma {:induction false} EdgeInIf(eval: Evaluator, s: Stmt, x: nat, y: nat)
    requires s.If? && Fine(eval, s.consequence) && Fine(eval, s.alternative)
    ensures HasEdge(Blocks(eval, s), x, y) ==> 0 < x <= Size(s) && 1 < y <= Size(s) + 1
  {
    hide Taken, Skips, Edge, Frag, FragOpt, HasEdge, GraphEdge;
    BuiltEdges(Env(0, eval), Followed(s));
    ArmRanges(eval, s, x, y);
    FollowedEdge(eval, s, x, y);
    IfEdge(eval, s, x, y);
  }

  lemma {:induction false} HeaderEdge(eval: Evaluator, s: Stmt, y: nat)
    requires s.If? && Fine(eval, s.consequence) && Fine(eval, s.alternative)
    ensures HasEdge(Blocks(eval, s), 1, y) <==>
            if y == Size(s) + 1 then Skips(eval, s) else exists first :: Enters(eval, s, first) && y == Base(s, first) + 1
  {
    hide Taken, Skips, Edge, Frag, FragOpt, HasEdge, GraphEdge;
    BuiltEdges(Env(0, eval), Followed(s));
    ArmRanges(eval, s, 1, y);
    FollowedEdge(eval, s, 1, y);
    IfEdge(eval, s, 1, y);
  }

  lemma {:induction false} ExitEdge(eval: Evaluator, s: Stmt, first: bool, x: nat)
    requires s.If? && Fine(eval, s.consequence) && Fine(eval, s.alternative) && InArm(s, first, x)
    ensures HasEdge(Blocks(eval, s), x, Size(s) + 1)
       <==> Taken(eval, s, first) && x in FragOpt(eval, Arm(s, first), Base(s, first)).exits
  {
    hide Taken, Skips, Edge, Frag, FragOpt, HasEdge, GraphEdge;
    var z := Size(s) + 1;
    BuiltEdges(Env(0, eval), Followed(s));
    ArmRanges(eval, s, x, z);
    FollowedEdge(eval, s, x, z);
    IfEdge(eval, s, x, z);
    assert forall other :: InArm(s, other, x) ==> other == first;
  }

  lemma {:induction false} EntersByEdge(eval: Evaluator, s: Stmt, first: bool)
    requires s.If? && Fine(eval, s.consequence) && Fine(eval, s.alternative)
    ensures Enters(eval, s, first) ==> HasEdge(Blocks(eval, s), 1, Base(s, first) + 1)
  {
    BuiltEdges(Env(0, eval), Followed(s));
    FollowedEdge(eval, s, 1, Base(s, first) + 1);
    IfEdge(eval, s, 1, Base(s, first) + 1);
  }

  lemma {:induction false} ArmStands(eval: Evaluator, s: Stmt, first: bool)
    requires s.If? && Fine(eval, s.consequence) && Fine(eval, s.alternative)
    ensures SizeOpt(Arm(s, first)) != 0 ==> Stands(eval, Followed(s), Arm(s, first).value, Base(s, first), Size(s) + 1)
  {
    hide Taken, Enters, Skips, Edge, Frag, FragOpt, GraphEdge;
    if SizeOpt(Arm(s, first)) != 0 {
      var part, b, z := Arm(s, first).value, Base(s, first), Size(s) + 1;
      ArmRange(eval, s.consequence, Base(s, true));
      ArmRange(eval, s.alternative, Base(s, false));
      assert Arm(s, true) == s.consequence && Arm(s, false) == s.alternative;
      forall x: nat, y: nat
        ensures Edge(eval, map[], part, b, x, y) ==> GraphEdge(eval, Followed(s), x, y)
        ensures b < x <= b + Size(part) && GraphEdge(eval, Followed(s), x, y) ==> Edge(eval, map[], part, b, x, y) || y == z
        ensures !GraphEdge(eval, Followed(s), z, y)
      {
        FollowedEdge(eval, s, x, y);
        IfEdge(eval, s, x, y);
        FollowedEdge(eval, s, z, y);
        IfEdge(eval, s, z, y);
      }
    }
  }

  // ---- What the graph reaches ----

  ghost predicate InsideArm(eval: Evaluator, s: Stmt, first: bool, x: nat)
    requires s.If?
  {
    Enters(eval, s, first) && InArm(s, first, x) && Reachable(Blocks(eval, s), Base(s, first) + 1, x)
  }

  /** The blocks of the `if` that its graph reaches. */
  ghost predicate Inside(eval: Evaluator, s: Stmt, x: nat)
    requires s.If?
  {
    x == 1 || exists first :: InsideArm(eval, s, first, x)
  }

  lemma {:induction false} InsideOne(eval: Evaluator, s: Stmt)
    requires s.If?
    ensures Inside(eval, s, 1)
  {
  }

  lemma {:induction false} InsideStarts(eval: Evaluator, s: Stmt, first: bool)
    requires s.If? && Enters(eval, s, first)
    ensures InsideArm(eval, s, first, Base(s, first) + 1)
  {
    ReachableSelf(Blocks(eval, s), Base(s, first) + 1);
  }

  lemma {:induction false} ArmOfGraph(eval: Evaluator, s: Stmt, first: bool, x: nat)
    requires s.If? && IfGraph(eval, s) && InArm(s, first, x)
    ensures Arm(s, first).Some? && Stands(eval, Followed(s), Arm(s, first).value, Base(s, first), Size(s) + 1)
    ensures HasEdge(Blocks(eval, s), x, Size(s) + 1)
       <==> Taken(eval, s, first) && x in Frag(eval, Arm(s, first).value, Base(s, first)).exits
    ensures forall y: nat :: HasEdge(Blocks(eval, s), x, y) <==> GraphEdge(eval, Followed(s), x, y)
  {
    hide Stands, HasEdge, GraphEdge, Frag;
  }

  /** An edge from a reached block of an arm stays in it or leaves from an exit. */
  lemma {:induction false} InsideArmNext(eval: Evaluator, s: Stmt, first: bool, x: nat, y: nat)
    requires s.If? && IfGraph(eval, s) && InsideArm(eval, s, first, x) && HasEdge(Blocks(eval, s), x, y)
    ensures y == Size(s) + 1 || InsideArm(eval, s, first, y)
    ensures y == Size(s) + 1 ==> Falls(eval, Arm(s, first))
  {
    hide GraphEdge, Edge, Frag, Reachable, HasEdge, IfGraph;
    ArmOfGraph(eval, s, first, x);
    var part, b, z := Arm(s, first).value, Base(s, first), Size(s) + 1;
    if y == z {
      assert ReachesExit(eval, Followed(s), part, b);
      PartFallsThrough(eval, Followed(s), part, b, z);
    } else {
      assert Edge(eval, map[], part, b, x, y);
      WiresRange(eval, part, b);
      ReachableNext(Blocks(eval, s), b + 1, x, y);
    }
  }

  lemma {:induction false} InsideNext(eval: Evaluator, s: Stmt, x: nat, y: nat)
    requires s.If? && IfGraph(eval, s) && Inside(eval, s, x) && HasEdge(Blocks(eval, s), x, y)
    ensures if y == Size(s) + 1 then GoesOn(eval, s) else Inside(eval, s, y)
  {
    hide GraphEdge, Reachable, HasEdge, Stands;
    if x == 1 {
      if y != Size(s) + 1 {
        var first :| Enters(eval, s, first) && y == Base(s, first) + 1;
        InsideStarts(eval, s, first);
      }
    } else {
      var first :| InsideArm(eval, s, first, x);
      InsideArmNext(eval, s, first, x, y);
    }
  }

  lemma {:induction false} InsideInGraph(eval: Evaluator, s: Stmt, x: nat)
    requires s.If? && IfGraph(eval, s) && Inside(eval, s, x)
    ensures InGraph(Env(0, eval), Followed(s), x)
  {
    hide GraphEdge, HasEdge, Stands, Reachable, Built;
    if x == 1 {
      ReachableSelf(Blocks(eval, s), 1);
    } else {
      var first :| InsideArm(eval, s, first, x);
      ReachableFirst(Blocks(eval, s), 1, Base(s, first) + 1, x);
    }
  }

  /** The graph reaches the block after the `if` exactly when the builder lets
      control come out, and otherwise only what is inside. */
  lemma {:induction false} InGraphExactly(eval: Evaluator, s: Stmt, x: nat)
    requires s.If? && IfGraph(eval, s)
    ensures InGraph(Env(0, eval), Followed(s), x) <==> Inside(eval, s, x) || (x == Size(s) + 1 && GoesOn(eval, s))
  {
    hide GraphEdge, HasEdge, Stands, Inside, GoesOn;
    assert Inside(eval, s, 1) by { InsideOne(eval, s); }
    var bs, z := Blocks(eval, s), Size(s) + 1;
    if InGraph(Env(0, eval), Followed(s), x) {
      var closed := iset y: nat | Inside(eval, s, y) || (y == z && GoesOn(eval, s));
      forall u: nat, v: nat | u in closed && HasEdge(bs, u, v) ensures v in closed {
        InsideNext(eval, s, u, v);
      }
      ReachableLeast(bs, 1, x, closed);
    }
    if Inside(eval, s, x) {
      InsideInGraph(eval, s, x);
    }
    if x == z && GoesOn(eval, s) {
      var y := LeadsOut(eval, s);
      InsideInGraph(eval, s, y);
      ReachableNext(bs, 1, y, z);
    }
  }

  lemma {:induction false} LeadsOut(eval: Evaluator, s: Stmt) returns (y: nat)
    requires s.If? && IfGraph(eval, s) && GoesOn(eval, s)
    ensures Inside(eval, s, y) && HasEdge(Blocks(eval, s), y, Size(s) + 1)
  {
    hide GraphEdge, Reachable, HasEdge, Stands;
    if Skips(eval, s) {
      y := 1;
    } else if CondTruth(eval, s.cond).MayHold() && Falls(eval, s.consequence) {
      y := ExitInside(eval, s, true);
    } else {
      y := ExitInside(eval, s, false);
    }
  }

  lemma {:induction false} ExitInside(eval: Evaluator, s: Stmt, first: bool) returns (y: nat)
    requires s.If? && IfGraph(eval, s) && Taken(eval, s, first) && Falls(eval, Arm(s, first))
    ensures InsideArm(eval, s, first, y) && HasEdge(Blocks(eval, s), y, Size(s) + 1)
    ensures y in FragOpt(eval, Arm(s, first), Base(s, first)).exits
  {
    hide GraphEdge, Edge, Frag, Reachable, HasEdge, IfGraph;
    var part, b, z := Arm(s, first).value, Base(s, first), Size(s) + 1;
    EmptyFallsNot(eval, part);
    ArmOfGraph(eval, s, first, b + 1);
    PartFallsThrough(eval, Followed(s), part, b, z);
    y :| y in Frag(eval, part, b).exits && Reachable(Blocks(eval, s), b + 1, y);
    FragRange(eval, part, b);
    ArmOfGraph(eval, s, first, y);
  }

  // ---- What runs execute ----

  function Rest(s: Stmt): Kont { Then(Cons(LAST, Nil), Size(s), Stop) }

  /** The blocks that the graph reaches, and the last one if control comes out. */
  ghost function InsideWorld(eval: Evaluator, s: Stmt): Sound.World
    requires s.If?
  {
    var z := Size(s) + 1;
    Sound.World(eval, Followed(s),
                (set x | x in Ids(z) && (Inside(eval, s, x) || (x == z && ComesOut(eval, s)))) + {0},
                {z})
  }

  lemma {:induction false} RestReady(w: Sound.World, s: Stmt, x: nat)
    requires Size(s) + 1 in w.blocks && Size(s) + 1 in w.ends
    ensures Sound.Ready(w, Rest(s), x)
  {
    var rest, b := Cons(LAST, Nil), Size(s);
    var after := Sound.After(x);
    assert Frag(w.eval, LAST, b) == Fragment(b + 1, {b + 1}, {}, {});
    var joined := Join(after, Frag(w.eval, LAST, b), false);
    assert FragAll(w.eval, rest, b, after) == FragAll(w.eval, Nil, b + 1, joined) == joined;
    forall u, v | SeqEdge(w.eval, w.Jumps(), rest, b, after, u, v) ensures v == b + 1 {
      assert !Edge(w.eval, w.Jumps(), LAST, b, u, v);
      assert !SeqEdge(w.eval, w.Jumps(), Nil, b + 1, joined, u, v);
    }
    assert Sound.FullArmsAll(w.eval, rest) by { assert Sound.FullArmsAll(w.eval, Nil); }
    assert Sound.PlacedAll(w, rest, b, after, Stop);
  }

  lemma {:induction false} InWorld(eval: Evaluator, s: Stmt, x: nat)
    requires s.If? && IfGraph(eval, s)
    ensures x in InsideWorld(eval, s).blocks <==> x == 0 || Inside(eval, s, x) || (x == Size(s) + 1 && ComesOut(eval, s))
  {
    hide IfGraph;
    assert forall first :: InArm(s, first, x) ==> x <= Size(s);
  }

  /** A block of an arm is in the world only if the graph reaches it there. */
  lemma {:induction false} ArmBlock(eval: Evaluator, s: Stmt, first: bool, x: nat)
    requires s.If? && IfGraph(eval, s) && InArm(s, first, x) && x in InsideWorld(eval, s).blocks
    ensures InsideArm(eval, s, first, x)
  {
    hide IfGraph, InsideWorld, Reachable;
    InWorld(eval, s, x);
  }

  lemma {:induction false} NoJumps(eval: Evaluator, s: Stmt)
    requires s.If? && Fine(eval, s.consequence) && Fine(eval, s.alternative)
    ensures InsideWorld(eval, s).Jumps() == map[]
    ensures Sound.Setting(InsideWorld(eval, s))
  {
    hide Sound.PlacedState;
    var w := InsideWorld(eval, s);
    FollowedEdge(eval, s, 0, 0);
    forall name: string ensures FindLabel(w.root, 0, Stop, name).None? {
      LabelAgrees(w.root, 0, Stop, name);
    }
  }

  lemma {:induction false} ArmPlaced(eval: Evaluator, s: Stmt, first: bool)
    requires s.If? && IfGraph(eval, s) && Fine(eval, s.consequence) && Fine(eval, s.alternative)
    requires Taken(eval, s, first) && Arm(s, first).Some?
    ensures Sound.Placed(InsideWorld(eval, s), Arm(s, first).value, Base(s, first), Rest(s))
  {
    hide GraphEdge, Edge, Frag, HasEdge, IfGraph, Sound.Ready, InsideWorld, InsideArm;
    var w, part, b, z := InsideWorld(eval, s), Arm(s, first).value, Base(s, first), Size(s) + 1;
    var f := Frag(eval, part, b);
    assert w.eval == eval && w.ends == {z} by { WorldParts(eval, s); }
    NoJumps(eval, s);
    ArmRange(eval, Arm(s, first), b);
    FragRange(eval, part, b);
    forall x, y | x in w.blocks && Edge(eval, map[], part, b, x, y) ensures y in w.blocks {
      ArmBlock(eval, s, first, x);
      ArmOfGraph(eval, s, first, x);
      InsideArmNext(eval, s, first, x, y);
      InWorld(eval, s, y);
    }
    forall x | x in w.blocks && x in f.exits ensures Sound.Ready(w, Rest(s), x) {
      ArmBlock(eval, s, first, x);
      ArmOfGraph(eval, s, first, x);
      InsideArmNext(eval, s, first, x, z);
      InWorld(eval, s, z);
      RestReady(w, s, x);
    }
    assert forall x :: Sound.ReadyToBreak(w, Rest(s), x) && Sound.ReadyToContinue(w, Rest(s), x);
  }

  lemma {:induction false} WorldParts(eval: Evaluator, s: Stmt)
    requires s.If?
    ensures var w := InsideWorld(eval, s); w.eval == eval && w.root == Followed(s) && w.ends == {Size(s) + 1}
  {
  }

  /** Entering an arm that may be taken. */
  lemma {:induction false} ArmGood(eval: Evaluator, s: Stmt, first: bool)
    requires s.If? && IfGraph(eval, s) && Fine(eval, s.consequence) && Fine(eval, s.alternative)
    requires Taken(eval, s, first)
    ensures Sound.Good(InsideWorld(eval, s), Enter(Arm(s, first), Base(s, first), Rest(s)))
  {
    hide GraphEdge, Edge, Frag, HasEdge, IfGraph, Inside, Sound.Ready, Sound.Placed, InsideWorld, InsideArm, Reachable;
    var w, o, b, z := InsideWorld(eval, s), Arm(s, first), Base(s, first), Size(s) + 1;
    WorldParts(eval, s);
    if o.Some? {
      ArmPlaced(eval, s, first);
    }
    if o.Some? && Size(o.value) != 0 {
      InsideStarts(eval, s, first);
      assert Inside(eval, s, b + 1) by { InsideBy(eval, s, first, b + 1); }
      InWorld(eval, s, b + 1);
    } else {
      InWorld(eval, s, z);
      InWorld(eval, s, 1);
      InsideOne(eval, s);
      RestReady(w, s, 1);
    }
  }

  lemma {:induction false} InsideBy(eval: Evaluator, s: Stmt, first: bool, x: nat)
    requires s.If? && InsideArm(eval, s, first, x)
    ensures Inside(eval, s, x)
  {
  }

  /** How a run of the body starts. */
  ghost predicate Starting(s: Stmt, state: State) {
    || state == Run(Followed(s), 0, Stop)
    || state == Done(Then(Followed(s).children, 0, Stop))
    || state == Run(s, 0, Rest(s))
  }

  lemma {:induction false} IfRuns(eval: Evaluator, s: Stmt, run: seq<State>, i: nat)
    requires s.If? && IfGraph(eval, s) && Fine(eval, s.consequence) && Fine(eval, s.alternative)
    requires IsRun(eval, Followed(s), run) && i < |run|
    ensures Starting(s, run[i]) || Sound.Good(InsideWorld(eval, s), run[i])
  {
    hide IfGraph, Sound.Good, InsideWorld, Sound.Setting, Fine;
    if i != 0 {
      IfRuns(eval, s, run, i - 1);
      NoJumps(eval, s);
      WorldParts(eval, s);
      if Starting(s, run[i - 1]) {
        if run[i - 1] == Run(s, 0, Rest(s)) {
          IfTaken(eval, s, run[i]);
        }
      } else {
        Sound.StepGood(InsideWorld(eval, s), run[i - 1], run[i]);
      }
    }
  }

  lemma {:induction false} IfTaken(eval: Evaluator, s: Stmt, to: State)
    requires s.If? && IfGraph(eval, s) && Fine(eval, s.consequence) && Fine(eval, s.alternative)
    requires Step(eval, Followed(s), Run(s, 0, Rest(s)), to)
    ensures Sound.Good(InsideWorld(eval, s), to)
  {
    hide IfGraph, Sound.Good, InsideWorld, Fine, Enter;
    if Taken(eval, s, true) {
      ArmGood(eval, s, true);
    }
    if Taken(eval, s, false) {
      ArmGood(eval, s, false);
    }
  }

  /** Runs execute only what is inside, and the last block only if control comes out. */
  lemma {:induction false} ExecutedIsInside(eval: Evaluator, s: Stmt, x: nat)
    requires s.If? && IfGraph(eval, s) && Fine(eval, s.consequence) && Fine(eval, s.alternative)
    requires Executed(eval, Followed(s), x)
    ensures Inside(eval, s, x) || (x == Size(s) + 1 && ComesOut(eval, s))
  {
    hide IfGraph, Fine, Inside, ComesOut, InsideWorld;
    var t: Stmt, b: nat, k: Kont :| !t.Braces? && x == b + 1 && Reached(eval, Followed(s), Run(t, b, k));
    var run :| IsRun(eval, Followed(s), run) && run[|run| - 1] == Run(t, b, k);
    IfRuns(eval, s, run, |run| - 1);
    InWorld(eval, s, x);
    if Starting(s, Run(t, b, k)) {
      InsideOne(eval, s);
    } else {
      assert Size(t) != 0;
    }
  }

  lemma {:induction false} IfReached(eval: Evaluator, s: Stmt)
    requires s.If?
    ensures Reached(eval, Followed(s), Run(s, 0, Rest(s)))
    ensures Precise.Within(Followed(s), s, 0, Rest(s))
    ensures Precise.Live(eval, Followed(s), 1)
  {
    InFirst(eval, s);
    Precise.SplitAll(Followed(s), s, Cons(LAST, Nil), 0, Stop);
    Precise.FirstBlockLive(eval, Followed(s), s, 0, Rest(s));
  }

  /** A taken arm is entered, and whatever it passes on gets to the last block. */
  lemma {:induction false} ArmEntered(eval: Evaluator, s: Stmt, first: bool)
    requires s.If? && Fine(eval, Arm(s, first)) && Taken(eval, s, first)
    ensures Enters(eval, s, first) ==> Precise.Live(eval, Followed(s), Base(s, first) + 1)
    ensures !Enters(eval, s, first) ==> Reached(eval, Followed(s), Done(Rest(s)))
    ensures Arm(s, first).Some? ==> Precise.Precise(eval, Followed(s), Arm(s, first).value, Base(s, first), Rest(s))
  {
    hide Precise.Within, Precise.Live, Precise.EndsReach, Precise.EdgesLive;
    IfReached(eval, s);
    Precise.WithinArms(Followed(s), s, 0, Rest(s));
    Precise.EnterLive(eval, Followed(s), s, 0, Rest(s), Arm(s, first), Base(s, first), Rest(s));
    if Arm(s, first).Some? {
      EntryIsFirstBlock(eval, Arm(s, first).value, Base(s, first));
      Precise.PreciseStmt(eval, Followed(s), Arm(s, first).value, Base(s, first), Rest(s));
    }
  }

  lemma {:induction false} InsideLive(eval: Evaluator, s: Stmt, x: nat)
    requires s.If? && IfGraph(eval, s) && Fine(eval, s.consequence) && Fine(eval, s.alternative)
    requires Inside(eval, s, x)
    ensures Precise.Live(eval, Followed(s), x)
  {
    hide IfGraph, Fine, Precise.Live;
    if x == 1 {
      IfReached(eval, s);
    } else {
      var first :| InsideArm(eval, s, first, x);
      ArmLive(eval, s, first, x);
    }
  }

  lemma {:induction false} ArmLive(eval: Evaluator, s: Stmt, first: bool, x: nat)
    requires s.If? && IfGraph(eval, s) && Fine(eval, s.consequence) && Fine(eval, s.alternative)
    requires InsideArm(eval, s, first, x)
    ensures Precise.Live(eval, Followed(s), x)
  {
    hide IfGraph, Precise.Live, Reachable, HasEdge, GraphEdge, Edge, Precise.EndsReach;
    var bs, root, b, z := Blocks(eval, s), Followed(s), Base(s, first), Size(s) + 1;
    ArmEntered(eval, s, first);
    InsideStarts(eval, s, first);
    var closed := iset y: nat | y == z || (InsideArm(eval, s, first, y) && Precise.Live(eval, root, y));
    forall u: nat, v: nat | u in closed && HasEdge(bs, u, v) ensures v in closed {
      if u == z {
        ArmOfGraph(eval, s, first, b + 1);
        LastLeadsNowhere(eval, s, v);
      } else {
        ArmOfGraph(eval, s, first, u);
        InsideArmNext(eval, s, first, u, v);
        if v != z {
          assert Edge(eval, map[], Arm(s, first).value, b, u, v);
          FollowedEdge(eval, s, u, v);
        }
      }
    }
    ReachableLeast(bs, b + 1, x, closed);
  }

  lemma {:induction false} LastLeadsNowhere(eval: Evaluator, s: Stmt, y: nat)
    requires s.If? && IfGraph(eval, s)
    ensures !HasEdge(Blocks(eval, s), Size(s) + 1, y)
  {
    hide HasEdge, GraphEdge, Stands;
  }

  /** Runs execute exactly what is inside, and the last block if control comes out. */
  lemma {:induction false} ExecutedExactly(eval: Evaluator, s: Stmt, x: nat)
    requires s.If? && IfGraph(eval, s) && Fine(eval, s.consequence) && Fine(eval, s.alternative)
    ensures Executed(eval, Followed(s), x) <==> Inside(eval, s, x) || (x == Size(s) + 1 && ComesOut(eval, s))
  {
    hide IfGraph, Fine, Inside, ComesOut, Executed, Precise.Live;
    if Executed(eval, Followed(s), x) {
      ExecutedIsInside(eval, s, x);
    }
    Precise.ExecutedIsLive(eval, Followed(s), x);
    if Inside(eval, s, x) {
      InsideLive(eval, s, x);
    }
    if x == Size(s) + 1 && ComesOut(eval, s) {
      ComesOutDone(eval, s);
      DoneExecutesLast(eval, s);
    }
  }

  lemma {:induction false} DoneExecutesLast(eval: Evaluator, s: Stmt)
    requires Reached(eval, Followed(s), Done(Rest(s)))
    ensures Executed(eval, Followed(s), Size(s) + 1)
  {
    ReachedStep(eval, Followed(s), Done(Rest(s)), Run(LAST, Size(s), Then(Nil, Size(s) + 1, Stop)));
  }

  lemma {:induction false} ComesOutDone(eval: Evaluator, s: Stmt)
    requires s.If? && IfGraph(eval, s) && Fine(eval, s.consequence) && Fine(eval, s.alternative)
    requires ComesOut(eval, s)
    ensures Reached(eval, Followed(s), Done(Rest(s)))
  {
    hide IfGraph, Fine, Falls;
    var first := CondTruth(eval, s.cond).MayHold() && Passes(eval, s.consequence);
    assert Taken(eval, s, first) && Passes(eval, Arm(s, first));
    ArmEntered(eval, s, first);
    if Enters(eval, s, first) {
      var y := ExitInside(eval, s, first);
      ArmLive(eval, s, first, y);
    }
  }

  // ---- An example ----

  /** `if (0) <missing> else return`. */
  function Lopsided(): Stmt { If(HERE, Some(Expr("0", HERE)), None, Some(Return(HERE))) }

  /** With something after it, the graph goes on to the rest but no run does. */
  lemma {:induction false} MissingArmInventsControl()
    ensures var eval: Evaluator := e => Some(0);
            InGraph(Env(0, eval), Followed(Lopsided()), 3) && !Executed(eval, Followed(Lopsided()), 3)
  {
    hide InGraph, Executed, IfGraph;
    var eval: Evaluator := e => Some(0);
    var s, arm := Lopsided(), Return(HERE);
    assert Size(s) == 2 && Fine(eval, Some(arm)) && Frag(eval, arm, 0).exits == {};
    IfGraphHolds(eval, s);
    InGraphExactly(eval, s, 3);
    ExecutedExactly(eval, s, 3);
    FallsThroughByExit(eval, arm);
    assert !ComesOut(eval, s) && !Inside(eval, s, 3);
  }
}
