/** A statement without labels gives the same piece of graph wherever it stands:
    only the block numbers move. */
module CfgShifted {
  import opened Collections
  import opened Syntax
  import opened CfgFragments
  import opened CfgGraph
  import opened CfgCompile
  import opened CfgEdges
  import opened CfgBuild
  import opened CfgTheorems

  /** The numbers, each `d` higher. */
  ghost function Up(xs: set<nat>, d: nat): set<nat> { set x: nat | x in xs :: x + d }

  lemma {:induction false} UpHolds(xs: set<nat>, d: nat, y: nat)
    ensures y in Up(xs, d) <==> y >= d && y - d in xs
  {
    if y >= d && y - d in xs {
      assert (y - d) + d in Up(xs, d);
    }
  }

  ghost function UpFragment(f: Fragment, d: nat): Fragment {
    Fragment(if f.entry == 0 then 0 else f.entry + d, Up(f.exits, d), Up(f.breaks, d), Up(f.continues, d))
  }

  lemma {:induction false} UpMany(xs: set<nat>, ys: set<nat>, x: nat, d: nat)
    ensures Up({}, d) == {} && Up({x}, d) == {x + d} && Up(xs + ys, d) == Up(xs, d) + Up(ys, d)
    ensures Up(xs, d) == {} <==> xs == {}
  {
    forall y: nat ensures y in Up(xs + ys, d) <==> y in Up(xs, d) + Up(ys, d) {
      UpHolds(xs + ys, d, y);
      UpHolds(xs, d, y);
      UpHolds(ys, d, y);
    }
    UpHolds({x}, d, x + d);
    if xs != {} {
      var y :| y in xs;
      assert y + d in Up(xs, d);
    }
  }

  lemma {:induction false} UpNothing(d: nat)
    ensures UpFragment(NOTHING, d) == NOTHING
  {
    UpMany({}, {}, 0, d);
  }

  lemma {:induction false} UpJoin(acc: Fragment, part: Fragment, isLabel: bool, d: nat)
    ensures UpFragment(Join(acc, part, isLabel), d) == Join(UpFragment(acc, d), UpFragment(part, d), isLabel)
  {
    UpMany(acc.exits, {}, 0, d);
    UpMany(acc.breaks, part.breaks, 0, d);
    UpMany(acc.continues, part.continues, 0, d);
  }

  lemma {:induction false} FragShifts(eval: Evaluator, s: Stmt, b: nat, d: nat)
    ensures Frag(eval, s, b + d) == UpFragment(Frag(eval, s, b), d)
    decreases s, 1
  {
    hide UpFragment, Up;
    match s
    case Braces(_, children) =>
      FragShiftsAll(eval, children, b, NOTHING, d);
      UpNothing(d);
    case If(_, _, c, a) => FragShiftsIf(eval, s, b, d);
    case Switch(_, clauses) => FragShiftsSwitch(eval, s, b, d);
    case Loop(_, _, _, body) =>
      if body.Some? { FragShifts(eval, body.value, b + 1, d); }
      UpLoop(eval, s, b, d);
    case _ => UpLeaf(eval, s, b, d);
  }

  lemma {:induction false} UpLeaf(eval: Evaluator, s: Stmt, b: nat, d: nat)
    requires !s.Braces? && !s.If? && !s.Switch? && !s.Loop?
    ensures Frag(eval, s, b + d) == UpFragment(Frag(eval, s, b), d)
  {
    UpMany({}, {}, b + 1, d);
  }

  lemma {:induction false} UpLoop(eval: Evaluator, s: Stmt, b: nat, d: nat)
    requires s.Loop?
    requires s.body.Some? ==> Frag(eval, s.body.value, b + 1 + d) == UpFragment(Frag(eval, s.body.value, b + 1), d)
    ensures Frag(eval, s, b + d) == UpFragment(Frag(eval, s, b), d)
  {
    hide Up;
    UpMany({}, {}, b + 1, d);
    if s.body.Some? {
      var f := Frag(eval, s.body.value, b + 1);
      var t := LoopTruth(eval, s.kind, s.cond);
      UpMany(f.exits, f.continues, 0, d);
      if s.kind.DoWhile? {
        UpMany(if t.MayFail() then f.exits + f.continues else {}, f.breaks, 0, d);
      } else {
        UpMany(if t.MayFail() then {b + 1} else {}, if t.MayHold() then f.breaks else {}, 0, d);
      }
    }
  }

  lemma {:induction false} FragShiftsIf(eval: Evaluator, s: Stmt, b: nat, d: nat)
    requires s.If?
    ensures Frag(eval, s, b + d) == UpFragment(Frag(eval, s, b), d)
    decreases s, 0
  {
    var c, a := s.consequence, s.alternative;
    if c.Some? { FragShifts(eval, c.value, b + 1, d); }
    if a.Some? { FragShifts(eval, a.value, b + 1 + SizeOpt(c), d); }
    UpNothing(d);
    UpIf(eval, s, b, d);
  }

  lemma {:induction false} UpIf(eval: Evaluator, s: Stmt, b: nat, d: nat)
    requires s.If?
    requires FragOpt(eval, s.consequence, b + 1 + d) == UpFragment(FragOpt(eval, s.consequence, b + 1), d)
    requires FragOpt(eval, s.alternative, b + 1 + SizeOpt(s.consequence) + d)
          == UpFragment(FragOpt(eval, s.alternative, b + 1 + SizeOpt(s.consequence)), d)
    ensures Frag(eval, s, b + d) == UpFragment(Frag(eval, s, b), d)
  {
    hide Up;
    var c, a := s.consequence, s.alternative;
    var t := CondTruth(eval, s.cond);
    UpMany({}, {}, b + 1, d);
    var lc := if t.MayHold() then FragOpt(eval, c, b + 1) else NOTHING;
    var la := if t.MayFail() then FragOpt(eval, a, b + 1 + SizeOpt(c)) else NOTHING;
    UpMany(if c.Some? then lc.exits else {b + 1},
           if a.Some? then la.exits else if t.MayFail() then {b + 1} else {}, 0, d);
    UpMany(lc.breaks, la.breaks, 0, d);
    UpMany(lc.continues, la.continues, 0, d);
  }

  lemma {:induction false} FragShiftsSwitch(eval: Evaluator, s: Stmt, b: nat, d: nat)
    requires s.Switch?
    ensures Frag(eval, s, b + d) == UpFragment(Frag(eval, s, b), d)
    decreases s, 0
  {
    FragShiftsClauses(eval, s.clauses, b + 1, b + 1, d);
    UpMany({}, {}, b + 1, d);
    UpMany(FragClauses(eval, s.clauses, b + 1, b + 1).exits, if HasDefault(s.clauses) then {} else {b + 1}, 0, d);
  }

  lemma {:induction false} FragShiftsAll(eval: Evaluator, ss: Stmts, b: nat, acc: Fragment, d: nat)
    ensures FragAll(eval, ss, b + d, UpFragment(acc, d)) == UpFragment(FragAll(eval, ss, b, acc), d)
    decreases ss
  {
    hide UpFragment, Up;
    if ss.Cons? {
      var s := ss.head;
      FragShifts(eval, s, b, d);
      UpJoin(acc, Frag(eval, s, b), s.LabelStmt?, d);
      FragShiftsAll(eval, ss.tail, b + Size(s), Join(acc, Frag(eval, s, b), s.LabelStmt?), d);
    }
  }

  lemma {:induction false} FragShiftsClauses(eval: Evaluator, cs: Clauses, b: nat, header: nat, d: nat)
    ensures FragClauses(eval, cs, b + d, header + d) == UpFragment(FragClauses(eval, cs, b, header), d)
    decreases cs
  {
    hide Up, Frag;
    match cs
    case End => UpNothing(d);
    case Clause(_, body, rest) =>
      if body.Some? { FragShifts(eval, body.value, b, d); }
      UpNothing(d);
      FragShiftsClauses(eval, rest, b + SizeOpt(body), header, d);
      var f, more := FragOpt(eval, body, b), FragClauses(eval, rest, b + SizeOpt(body), header);
      UpMany({}, {}, header, d);
      UpMany(f.exits, f.breaks, 0, d);
      UpMany(if f.entry == 0 then {header} else f.exits + f.breaks, more.exits, 0, d);
      UpMany(if f.entry == 0 then {} else f.continues, more.continues, 0, d);
  }

  lemma {:induction false} EdgeShifts(eval: Evaluator, s: Stmt, b: nat, d: nat, x: nat, y: nat)
    ensures Edge(eval, map[], s, b + d, x + d, y + d) <==> Edge(eval, map[], s, b, x, y)
    decreases s, 1
  {
    hide Up, Frag;
    match s
    case Braces(_, children) =>
      EdgeShiftsAll(eval, children, b, NOTHING, d, x, y);
      UpNothing(d);
    case If(_, _, _, _) => EdgeShiftsIf(eval, s, b, d, x, y);
    case Switch(_, clauses) => EdgeShiftsClauses(eval, clauses, b + 1, b + 1, d, x, y);
    case Loop(_, _, _, _) => EdgeShiftsLoop(eval, s, b, d, x, y);
    case _ =>
  }

  lemma {:induction false} EdgeShiftsIf(eval: Evaluator, s: Stmt, b: nat, d: nat, x: nat, y: nat)
    requires s.If?
    ensures Edge(eval, map[], s, b + d, x + d, y + d) <==> Edge(eval, map[], s, b, x, y)
    decreases s, 0
  {
    hide Up, Frag;
    var c, a, b' := s.consequence, s.alternative, b + 1 + SizeOpt(s.consequence);
    if c.Some? { EdgeShifts(eval, c.value, b + 1, d, x, y); FragShifts(eval, c.value, b + 1, d); }
    if a.Some? { EdgeShifts(eval, a.value, b', d, x, y); FragShifts(eval, a.value, b', d); }
  }

  lemma {:induction false} EdgeShiftsLoop(eval: Evaluator, s: Stmt, b: nat, d: nat, x: nat, y: nat)
    requires s.Loop?
    ensures Edge(eval, map[], s, b + d, x + d, y + d) <==> Edge(eval, map[], s, b, x, y)
    decreases s, 0
  {
    hide Up, Frag;
    if s.body.Some? {
      EdgeShifts(eval, s.body.value, b + 1, d, x, y);
      FragShifts(eval, s.body.value, b + 1, d);
      var f := Frag(eval, s.body.value, b + 1);
      UpHolds(f.exits, d, x + d);
      UpHolds(f.continues, d, x + d);
    }
  }

  lemma {:induction false} EdgeShiftsAll(eval: Evaluator, ss: Stmts, b: nat, acc: Fragment, d: nat, x: nat, y: nat)
    ensures SeqEdge(eval, map[], ss, b + d, UpFragment(acc, d), x + d, y + d) <==> SeqEdge(eval, map[], ss, b, acc, x, y)
    decreases ss, 1
  {
    if ss.Cons? {
      var s := ss.head;
      FragShifts(eval, s, b, d);
      EdgeShifts(eval, s, b, d, x, y);
      UpJoin(acc, Frag(eval, s, b), s.LabelStmt?, d);
      EdgeShiftsAll(eval, ss.tail, b + Size(s), Join(acc, Frag(eval, s, b), s.LabelStmt?), d, x, y);
    }
  }

  lemma {:induction false} EdgeShiftsClauses(eval: Evaluator, cs: Clauses, b: nat, header: nat, d: nat, x: nat, y: nat)
    ensures ClauseEdge(eval, map[], cs, b + d, header + d, x + d, y + d) <==> ClauseEdge(eval, map[], cs, b, header, x, y)
    decreases cs, 1
  {
    if cs.Clause? {
      if cs.body.Some? { EdgeShifts(eval, cs.body.value, b, d, x, y); FragShifts(eval, cs.body.value, b, d); }
      EdgeShiftsClauses(eval, cs.rest, b + SizeOpt(cs.body), header, d, x, y);
    }
  }

  /** `part` stands at `b` in the body; control leaves it only to block `z`,
      which leads nowhere. */
  ghost predicate Stands(eval: Evaluator, root: Stmt, part: Stmt, b: nat, z: nat) {
    && Size(part) != 0 && Labels(part, 0) == map[] && b + Size(part) < z
    && (forall x: nat, y: nat :: Edge(eval, map[], part, b, x, y) ==> GraphEdge(eval, root, x, y))
    && (forall x: nat, y: nat :: b < x <= b + Size(part) && GraphEdge(eval, root, x, y) ==>
          Edge(eval, map[], part, b, x, y) || y == z)
    && (forall y: nat :: !GraphEdge(eval, root, z, y))
  }

  /** From the first block of the part, the body's graph reaches one of its exits. */
  ghost predicate ReachesExit(eval: Evaluator, root: Stmt, part: Stmt, b: nat) {
    exists x :: x in Frag(eval, part, b).exits && Reachable(Built(Env(0, eval), root).blocks, b + 1, x)
  }

  /** Whether a part falls through can be read off the graph of the part alone. */
  lemma {:induction false} PartFallsThrough(eval: Evaluator, root: Stmt, part: Stmt, b: nat, z: nat)
    requires Stands(eval, root, part, b, z)
    ensures Built(Env(0, eval), part).fallsThrough <==> ReachesExit(eval, root, part, b)
  {
    hide Reachable, Frag, Built, Up, Edge, GraphEdge;
    var g, h := Built(Env(0, eval), part), Built(Env(0, eval), root);
    FallsThroughByExit(eval, part);
    FragShifts(eval, part, 0, b);
    FragRange(eval, part, b);
    if g.fallsThrough {
      var x :| x in Frag(eval, part, 0).exits && Reachable(g.blocks, 1, x);
      PartReaches(eval, root, part, b, z, x);
      UpHolds(Frag(eval, part, 0).exits, b, x + b);
    }
    if ReachesExit(eval, root, part, b) {
      var x :| x in Frag(eval, part, b).exits && Reachable(h.blocks, b + 1, x);
      PartReached(eval, root, part, b, z, x);
      UpHolds(Frag(eval, part, 0).exits, b, x);
    }
  }

  lemma {:induction false} FallsThroughByExit(eval: Evaluator, part: Stmt)
    requires Size(part) != 0
    ensures var g := Built(Env(0, eval), part);
            g.fallsThrough <==> exists x :: x in Frag(eval, part, 0).exits && Reachable(g.blocks, 1, x)
  {
    hide Reachable;
    BuiltEdges(Env(0, eval), part);
    CompiledBody(Env(0, eval), part);
    var p := Compile(Env(0, eval), part, FRESH).1;
    assert forall x :: x in p.exits <==> x in Frag(eval, part, 0).exits;
  }

  /** Block `y` of a part that stands at 0, seen from where the part stands at `b`, and the other way. */
  ghost predicate ReachedAbove(bs: seq<Block>, y: nat, b: nat) { Reachable(bs, b + 1, y + b) }

  ghost predicate ReachedBelow(bs: seq<Block>, y: nat, b: nat) { y >= b && Reachable(bs, 1, y - b) }

  lemma {:induction false} PartReaches(eval: Evaluator, root: Stmt, part: Stmt, b: nat, z: nat, x: nat)
    requires Stands(eval, root, part, b, z) && Reachable(Built(Env(0, eval), part).blocks, 1, x)
    ensures Reachable(Built(Env(0, eval), root).blocks, b + 1, x + b)
  {
    hide Edge, Built, Reachable, HasEdge;
    var g, h := Built(Env(0, eval), part), Built(Env(0, eval), root);
    BuiltEdges(Env(0, eval), part);
    BuiltEdges(Env(0, eval), root);
    var closed := iset y: nat | ReachedAbove(h.blocks, y, b);
    ReachableSelf(h.blocks, b + 1);
    forall u: nat, v: nat | u in closed && HasEdge(g.blocks, u, v) ensures v in closed {
      EdgeShifts(eval, part, 0, b, u, v);
      ReachableNext(h.blocks, b + 1, u + b, v + b);
    }
    ReachableLeast(g.blocks, 1, x, closed);
  }

  lemma {:induction false} PartReached(eval: Evaluator, root: Stmt, part: Stmt, b: nat, z: nat, x: nat)
    requires Stands(eval, root, part, b, z) && Reachable(Built(Env(0, eval), root).blocks, b + 1, x)
    ensures x == z || (b < x <= b + Size(part) && Reachable(Built(Env(0, eval), part).blocks, 1, x - b))
  {
    hide Edge, Built, Reachable, HasEdge;
    var g, h := Built(Env(0, eval), part), Built(Env(0, eval), root);
    BuiltEdges(Env(0, eval), part);
    BuiltEdges(Env(0, eval), root);
    var closed := iset y: nat | y == z || (b < y <= b + Size(part) && ReachedBelow(g.blocks, y, b));
    ReachableSelf(g.blocks, 1);
    WiresRange(eval, part, b);
    forall u: nat, v: nat | u in closed && HasEdge(h.blocks, u, v) ensures v in closed {
      if v != z {
        assert Edge(eval, map[], part, b, u, v);
        EdgeShifts(eval, part, 0, b, u - b, v - b);
        ReachableNext(g.blocks, 1, u - b, v - b);
      }
    }
    ReachableLeast(h.blocks, b + 1, x, closed);
  }
}
