/** Where the graph stops being exact, and why the conditions of the main result
    are there. */
module CfgLimits {
  import opened Collections
  import opened Syntax
  import opened CfgFragments
  import opened CfgSemantics
  import opened CfgGraph
  import opened CfgCompile
  import opened CfgEdges
  import opened CfgBuild
  import opened CfgTheorems
  import Sound = CfgSound
  import Precise = CfgPrecise

  // ---- A simple condition on labels ----

  /** Labels stand only directly in the outermost braces of the body. */
  predicate OutermostLabels(body: Stmt) {
    !HasLabel(body) || (body.Braces? && OnlyLabels(body.children))
  }

  predicate OnlyLabels(ss: Stmts) {
    ss.Cons? ==> (ss.head.LabelStmt? || !HasLabel(ss.head)) && OnlyLabels(ss.tail)
  }

  lemma {:induction false} OutermostLabelsAreOpen(eval: Evaluator, body: Stmt)
    requires OutermostLabels(body)
    ensures Sound.OpenLabels(eval, body, 0)
  {
    if !HasLabel(body) {
      NoLabelsOpen(eval, body, 0);
    } else {
      OnlyLabelsOpen(eval, body.children, 0, NOTHING);
    }
  }

  lemma {:induction false} OnlyLabelsOpen(eval: Evaluator, ss: Stmts, b: nat, acc: Fragment)
    requires OnlyLabels(ss)
    ensures Sound.OpenLabelsAll(eval, ss, b, acc)
    decreases ss
  {
    if ss.Cons? {
      if !ss.head.LabelStmt? {
        NoLabelsOpen(eval, ss.head, b);
      }
      OnlyLabelsOpen(eval, ss.tail, b + Size(ss.head), Join(acc, Frag(eval, ss.head, b), ss.head.LabelStmt?));
    }
  }

  lemma {:induction false} NoLabelsOpen(eval: Evaluator, s: Stmt, b: nat)
    requires !HasLabel(s)
    ensures Sound.OpenLabels(eval, s, b) && Labels(s, b) == map[]
    decreases s
  {
    match s
    case Braces(_, children) => NoLabelsOpenAll(eval, children, b, NOTHING);
    case If(_, _, c, a) =>
      if c.Some? { NoLabelsOpen(eval, c.value, b + 1); }
      if a.Some? { NoLabelsOpen(eval, a.value, b + 1 + SizeOpt(c)); }
    case Switch(_, clauses) => NoLabelsOpenClauses(eval, clauses, b + 1);
    case Loop(_, _, _, body) => if body.Some? { NoLabelsOpen(eval, body.value, b + 1); }
    case _ =>
  }

  lemma {:induction false} NoLabelsOpenAll(eval: Evaluator, ss: Stmts, b: nat, acc: Fragment)
    requires !HasLabelAll(ss)
    ensures Sound.OpenLabelsAll(eval, ss, b, acc) && LabelsAll(ss, b) == map[]
    decreases ss
  {
    if ss.Cons? {
      NoLabelsOpen(eval, ss.head, b);
      NoLabelsOpenAll(eval, ss.tail, b + Size(ss.head), Join(acc, Frag(eval, ss.head, b), ss.head.LabelStmt?));
    }
  }

  lemma {:induction false} NoLabelsOpenClauses(eval: Evaluator, cs: Clauses, b: nat)
    requires !HasLabelClauses(cs)
    ensures Sound.OpenLabelsClauses(eval, cs, b) && LabelsClauses(cs, b) == map[]
    decreases cs
  {
    if cs.Clause? {
      if cs.body.Some? { NoLabelsOpen(eval, cs.body.value, b); }
      NoLabelsOpenClauses(eval, cs.rest, b + SizeOpt(cs.body));
    }
  }

  // ---- Empty arms and empty `do` bodies ----

  const HERE := Range(0, 0)

  const LAST := Simple(HERE, "")

  /** The statement, and something after it. */
  function Followed(s: Stmt): Stmt {
    Braces(HERE, Cons(s, Cons(LAST, Nil)))
  }

  ghost predicate Exact(eval: Evaluator, body: Stmt) {
    forall x: nat :: InGraph(Env(0, eval), body, x) <==> Executed(eval, body, x)
  }

  /** The parts of a statement are shaped well, whatever the conditions say. */
  ghost predicate FineOpt(o: Option<Stmt>) {
    o.Some? ==> !HasLabel(o.value) && forall eval: Evaluator :: Sound.FullArms(eval, o.value) && Precise.WholeIfs(eval, o.value)
  }

  /** What comes after a statement without exits is not in the graph, but it is
      executed if control can come out of the statement. */
  lemma {:induction false} ControlLost(eval: Evaluator, s: Stmt)
    requires Size(s) != 0 && !HasLabel(s) && Frag(eval, s, 0).exits == {}
    requires Reached(eval, Followed(s), Done(Then(Cons(LAST, Nil), Size(s), Stop)))
    ensures !Exact(eval, Followed(s))
  {
    var body := Followed(s);
      var z := Size(s) + 1;
    ReachedStep(eval, body, Done(Then(Cons(LAST, Nil), Size(s), Stop)), Run(LAST, Size(s), Then(Nil, z, Stop)));
    assert Executed(eval, body, z);
    var g := Built(Env(0, eval), body);
    BuiltEdges(Env(0, eval), body);
    forall x: nat, y: nat | x <= Size(s) && HasEdge(g.blocks, x, y) ensures y <= Size(s) {
      NoEdgeOut(eval, s, x, y);
    }
    if InGraph(Env(0, eval), body, z) {
      ReachableLeast(g.blocks, g.entry, z, Below(Size(s)));
    }
  }

  predicate AtMost(x: nat, n: nat) { x <= n }

  ghost function Below(n: nat): iset<nat> { iset x: nat | AtMost(x, n) }

  /** The edges of a followed statement: its own, and from its exits to what follows. */
  lemma {:induction false} FollowedEdge(eval: Evaluator, s: Stmt, x: nat, y: nat)
    requires !HasLabel(s) && Size(s) != 0
    ensures Labels(s, 0) == Labels(Followed(s), 0) == map[] && Size(Followed(s)) == Size(s) + 1
    ensures GraphEdge(eval, Followed(s), x, y)
       <==> Edge(eval, map[], s, 0, x, y) || (x in Frag(eval, s, 0).exits && y == Size(s) + 1)
  {
    var rest := Cons(LAST, Nil);
    NoLabelsOpen(eval, s, 0);
    assert LabelsAll(rest, Size(s)) == map[];
    assert Labels(Followed(s), 0) == map[];
    EntryIsFirstBlock(eval, s, 0);
    var f := Frag(eval, s, 0);
    assert Join(NOTHING, f, s.LabelStmt?) == f;
    assert SizeAll(rest) == 1;
    assert GraphEdge(eval, Followed(s), x, y) <==> SeqEdge(eval, map[], Cons(s, rest), 0, NOTHING, x, y);
    assert SeqEdge(eval, map[], rest, Size(s), f, x, y) <==> x in f.exits && y == Size(s) + 1 by {
      assert !SeqEdge(eval, map[], Nil, Size(s) + 1, Join(f, Frag(eval, LAST, Size(s)), false), x, y);
    }
  }

  lemma {:induction false} NoEdgeOut(eval: Evaluator, s: Stmt, x: nat, y: nat)
    requires Size(s) != 0 && !HasLabel(s) && Frag(eval, s, 0).exits == {}
    requires GraphEdge(eval, Followed(s), x, y)
    ensures y <= Size(s)
  {
    FollowedEdge(eval, s, x, y);
    WiresRange(eval, s, 0);
  }

  lemma {:induction false} InFirst(eval: Evaluator, s: Stmt)
    ensures Reached(eval, Followed(s), Run(s, 0, Then(Cons(LAST, Nil), Size(s), Stop)))
  {
    var body := Followed(s);
    ReachedStart(eval, body);
    ReachedStep(eval, body, Run(body, 0, Stop), Done(Then(body.children, 0, Stop)));
    ReachedStep(eval, body, Done(Then(body.children, 0, Stop)), Run(s, 0, Then(Cons(LAST, Nil), Size(s), Stop)));
  }

  /** Empty braces in passing. */
  lemma {:induction false} PassEmpty(eval: Evaluator, root: Stmt, s: Stmt, b: nat, k: Kont)
    requires Size(s) == 0 && Reached(eval, root, Run(s, b, k))
    ensures Reached(eval, root, Done(k))
  {
    assert Precise.Within(root, s, b, k);
    Precise.FirstBlockLive(eval, root, s, b, k);
  }

  lemma {:induction false} FollowedExact(eval: Evaluator, s: Stmt)
    requires !HasLabel(s) && Sound.FullArms(eval, s) && Precise.WholeIfs(eval, s)
    ensures Exact(eval, Followed(s))
  {
    var body := Followed(s);
    var rest := Cons(LAST, Nil);
    assert Sound.FullArmsAll(eval, Cons(s, rest)) && Precise.WholeIfsAll(eval, Cons(s, rest)) by {
      assert Sound.FullArmsAll(eval, rest) && Precise.WholeIfsAll(eval, rest);
    }
    assert !HasLabelAll(Cons(s, rest)) by {
      assert !HasLabelAll(rest);
    }
    NoLabelsOpen(eval, body, 0);
    forall x: nat ensures InGraph(Env(0, eval), body, x) <==> Executed(eval, body, x) {
      ReachableIffExecuted(Env(0, eval), body, x);
    }
  }

  /** A `do` loop in front of other code is exact exactly when it has no body, its
      body is not empty braces or its condition never fails. */
  lemma {:induction false} DoExactly(eval: Evaluator, s: Stmt)
    requires s.Loop? && s.kind.DoWhile?
    requires s.body.Some? ==>
               !HasLabel(s.body.value) && Sound.FullArms(eval, s.body.value) && Precise.WholeIfs(eval, s.body.value)
    ensures Exact(eval, Followed(s)) <==>
            s.body.None? || Size(s.body.value) != 0 || CondTruth(eval, s.cond).Holds?
  {
    if s.body.None? || Size(s.body.value) != 0 || CondTruth(eval, s.cond).Holds? {
      FollowedExact(eval, s);
    } else {
      var k := Then(Cons(LAST, Nil), Size(s), Stop);
      EntryIsFirstBlock(eval, s.body.value, 1);
      InFirst(eval, s);
      ReachedStep(eval, Followed(s), Run(s, 0, k), Run(s.body.value, 1, Again(s, 0, k)));
      PassEmpty(eval, Followed(s), s.body.value, 1, Again(s, 0, k));
      ReachedStep(eval, Followed(s), Done(Again(s, 0, k)), Done(k));
      ControlLost(eval, s);
    }
  }

  /** A `do` loop is exact in front of other code, whatever its condition turns
      out to be, exactly when its body is not empty braces. */
  lemma {:induction false} DoExactIffBodyFull(s: Stmt)
    requires s.Loop? && s.kind.DoWhile? && s.cond.Some? && s.body.Some? && FineOpt(s.body)
    ensures (forall eval: Evaluator :: Exact(eval, Followed(s))) <==> Size(s.body.value) != 0
  {
    hide Exact;
    forall eval: Evaluator
      ensures Exact(eval, Followed(s)) <==> Size(s.body.value) != 0 || CondTruth(eval, s.cond).Holds?
    {
      DoExactly(eval, s);
    }
    var never: Evaluator := e => Some(0);
    assert CondTruth(never, s.cond).Fails?;
  }
}
