/** Every executed block is reachable in the graph: a simulation from states of
    a run to a set of blocks that is closed under the edges of the graph. */
module CfgSound {
  import opened Collections
  import opened Syntax
  import opened CfgFragments
  import opened CfgSemantics

  /** No arm of an `if` that may be taken, and no body of a `do` that may
      end, is empty braces. */
  predicate FullArms(eval: Evaluator, s: Stmt) {
    match s
    case Braces(_, children) => FullArmsAll(eval, children)
    case If(_, cond, c, a) =>
      var t := CondTruth(eval, cond);
      && (t.MayHold() && c.Some? ==> Size(c.value) != 0)
      && (t.MayFail() && a.Some? ==> Size(a.value) != 0)
      && (c.Some? ==> FullArms(eval, c.value))
      && (a.Some? ==> FullArms(eval, a.value))
    case Switch(_, clauses) => FullArmsClauses(eval, clauses)
    case Loop(_, kind, cond, body) =>
      && (kind.DoWhile? && LoopTruth(eval, kind, cond).MayFail() && body.Some? ==> Size(body.value) != 0)
      && (body.Some? ==> FullArms(eval, body.value))
    case _ => true
  }

  predicate FullArmsAll(eval: Evaluator, ss: Stmts) {
    ss.Cons? ==> FullArms(eval, ss.head) && FullArmsAll(eval, ss.tail)
  }

  predicate FullArmsClauses(eval: Evaluator, cs: Clauses) {
    cs.Clause? ==> (cs.body.Some? ==> FullArms(eval, cs.body.value)) && FullArmsClauses(eval, cs.rest)
  }

  /** No label is buried in code that control cannot enter from above: inside a
      statement that follows a dead prefix, or in an arm or loop body that a
      known condition rules out. A label that itself follows a dead prefix is fine. */
  predicate OpenLabels(eval: Evaluator, s: Stmt, b: nat) {
    match s
    case Braces(_, children) => OpenLabelsAll(eval, children, b, NOTHING)
    case If(_, cond, c, a) =>
      var t := CondTruth(eval, cond);
      && (HasLabelOpt(c) ==> t.MayHold())
      && (HasLabelOpt(a) ==> t.MayFail())
      && (c.Some? ==> OpenLabels(eval, c.value, b + 1))
      && (a.Some? ==> OpenLabels(eval, a.value, b + 1 + SizeOpt(c)))
    case Switch(_, clauses) => OpenLabelsClauses(eval, clauses, b + 1)
    case Loop(_, kind, cond, body) =>
      && (HasLabelOpt(body) && !kind.DoWhile? ==> LoopTruth(eval, kind, cond).MayHold())
      && (body.Some? ==> OpenLabels(eval, body.value, b + 1))
    case _ => true
  }

  predicate OpenLabelsAll(eval: Evaluator, ss: Stmts, b: nat, acc: Fragment) {
    match ss
    case Nil => true
    case Cons(s, rest) =>
      && (HasLabel(s) && acc.entry != 0 && acc.exits == {} ==> s.LabelStmt?)
      && OpenLabels(eval, s, b)
      && OpenLabelsAll(eval, rest, b + Size(s), Join(acc, Frag(eval, s, b), s.LabelStmt?))
  }

  predicate OpenLabelsClauses(eval: Evaluator, cs: Clauses, b: nat) {
    match cs
    case End => true
    case Clause(_, body, rest) =>
      && (body.Some? ==> OpenLabels(eval, body.value, b))
      && OpenLabelsClauses(eval, rest, b + SizeOpt(body))
  }

  /** The graph under discussion, a set of its blocks and the blocks from which
      the body may end. Block 0 is no block of the graph: it stands for "control
      came in at the top". */
  datatype World = World(eval: Evaluator, root: Stmt, blocks: set<nat>, ends: set<nat>) {
    ghost predicate Closed() {
      && 0 in blocks
      && (Size(root) != 0 ==> 1 in blocks)
      && forall x, y :: x in blocks && GraphEdge(eval, root, x, y) ==> y in blocks
    }

    ghost function Jumps(): map<string, nat> { Labels(root, 0) }
  }

  /** `s` may stand at `b` with `k` to follow: its edges stay inside the set, and
      from each of its dangling ends `k` may go on. */
  ghost predicate Placed(w: World, s: Stmt, b: nat, k: Kont)
    decreases k, 5
  {
    var f := Frag(w.eval, s, b);
    && FullArms(w.eval, s)
    && (forall x, y :: x in w.blocks && Edge(w.eval, w.Jumps(), s, b, x, y) ==> y in w.blocks)
    && (forall x :: x in w.blocks && x in f.exits ==> Ready(w, k, x))
    && (forall x :: x in w.blocks && x in f.breaks ==> ReadyToBreak(w, k, x))
    && (forall x :: x in w.blocks && x in f.continues ==> ReadyToContinue(w, k, x))
  }

  /** The same for the rest of a statement list after the fragment `acc`. */
  ghost predicate PlacedAll(w: World, ss: Stmts, b: nat, acc: Fragment, k: Kont)
    decreases k, 5
  {
    var f := FragAll(w.eval, ss, b, acc);
    && FullArmsAll(w.eval, ss)
    && (forall x, y :: x in w.blocks && SeqEdge(w.eval, w.Jumps(), ss, b, acc, x, y) ==> y in w.blocks)
    && (forall x :: x in w.blocks && x in f.exits ==> Ready(w, k, x))
    && (forall x :: x in w.blocks && x in f.breaks ==> ReadyToBreak(w, k, x))
    && (forall x :: x in w.blocks && x in f.continues ==> ReadyToContinue(w, k, x))
  }

  function After(x: nat): Fragment { Fragment(1, {x}, {}, {}) }

  /** Block `x` of the set is a dangling end and `k` may go on from it. */
  ghost predicate Ready(w: World, k: Kont, x: nat)
    decreases k, 2
  {
    match k
    case Stop => x in w.ends
    case Then(rest, b, k') => PlacedAll(w, rest, b, After(x), k')
    case Again(loop, b, k') =>
      loop.Loop? &&
      var t := LoopTruth(w.eval, loop.kind, loop.cond);
      && (!loop.kind.DoWhile? || t.MayHold() ==> b + 1 in w.blocks && Placed(w, loop, b, k'))
      && (loop.kind.DoWhile? && t.MayFail() ==> Ready(w, k', x))
    case Leave(k') => Ready(w, k', x)
  }

  ghost predicate ReadyToBreak(w: World, k: Kont, x: nat)
    decreases k, 3
  {
    match k
    case Stop => true
    case Then(_, _, k') => ReadyToBreak(w, k', x)
    case Again(_, _, k') => Ready(w, k', x)
    case Leave(k') => Ready(w, k', x)
  }

  ghost predicate ReadyToContinue(w: World, k: Kont, x: nat)
    decreases k, 3
  {
    match k
    case Stop => true
    case Then(_, _, k') => ReadyToContinue(w, k', x)
    case Again(_, _, _) => Ready(w, k, x)
    case Leave(k') => ReadyToContinue(w, k', x)
  }

  /** The invariant of a run. */
  ghost predicate Good(w: World, state: State) {
    match state
    case Run(s, b, k) =>
      && Placed(w, s, b, k)
      && if Size(s) != 0 then b + 1 in w.blocks else exists x :: x in w.blocks && Ready(w, k, x)
    case Done(k) => exists x :: x in w.blocks && Ready(w, k, x)
    case Breaking(k) => exists x :: x in w.blocks && ReadyToBreak(w, k, x)
    case Continuing(k) => exists x :: x in w.blocks && ReadyToContinue(w, k, x)
  }

  // ---- Statement lists ----

  /** Two prefixes that are alike for what follows: the first one's exits are
      among the second one's, and both are dead or neither is. */
  ghost predicate Narrower(a: Fragment, b: Fragment) {
    && a.entry != 0 && b.entry != 0
    && (a.exits == {} <==> b.exits == {})
    && a.exits <= b.exits && a.breaks <= b.breaks && a.continues <= b.continues
  }

  lemma {:induction false} NarrowerAll(eval: Evaluator, labels: map<string, nat>, ss: Stmts, b: nat, a: Fragment, c: Fragment)
    requires Narrower(a, c)
    ensures Narrower(FragAll(eval, ss, b, a), FragAll(eval, ss, b, c))
    ensures forall x, y :: SeqEdge(eval, labels, ss, b, a, x, y) ==> SeqEdge(eval, labels, ss, b, c, x, y)
  {
    if ss.Cons? {
      var s := ss.head;
      var p := Frag(eval, s, b);
      NarrowerAll(eval, labels, ss.tail, b + Size(s), Join(a, p, s.LabelStmt?), Join(c, p, s.LabelStmt?));
    }
  }

  /** What a prefix gathered is still there at the end. */
  lemma {:induction false} Gathered(eval: Evaluator, ss: Stmts, b: nat, acc: Fragment)
    requires acc.entry == 0 ==> acc == NOTHING
    ensures acc.breaks <= FragAll(eval, ss, b, acc).breaks
    ensures acc.continues <= FragAll(eval, ss, b, acc).continues
  {
    if ss.Cons? {
      var s := ss.head;
      Gathered(eval, ss.tail, b + Size(s), Join(acc, Frag(eval, s, b), s.LabelStmt?));
    }
  }

  lemma {:induction false} PlacedTail(w: World, s: Stmt, rest: Stmts, b: nat, acc: Fragment, k: Kont)
    requires PlacedAll(w, Cons(s, rest), b, acc, k)
    ensures PlacedAll(w, rest, b + Size(s), Join(acc, Frag(w.eval, s, b), s.LabelStmt?), k)
  {
  }

  /** A statement that control can enter from above is placed before the rest. */
  lemma {:induction false} PlacedHead(w: World, s: Stmt, rest: Stmts, b: nat, acc: Fragment, k: Kont)
    requires PlacedAll(w, Cons(s, rest), b, acc, k)
    requires acc.entry == 0 ==> acc == NOTHING
    requires acc.entry == 0 || acc.exits != {} || s.LabelStmt?
    ensures Placed(w, s, b, Then(rest, b + Size(s), k))
  {
    var p := Frag(w.eval, s, b);
    var joined := Join(acc, p, s.LabelStmt?);
    EntryIsFirstBlock(w.eval, s, b);
    PlacedTail(w, s, rest, b, acc, k);
    Gathered(w.eval, rest, b + Size(s), joined);
    var next := Then(rest, b + Size(s), k);
    forall x, y | x in w.blocks && Edge(w.eval, w.Jumps(), s, b, x, y) ensures y in w.blocks {
      assert SeqEdge(w.eval, w.Jumps(), Cons(s, rest), b, acc, x, y);
    }
    assert p.breaks <= joined.breaks && p.continues <= joined.continues;
    forall x | x in w.blocks && x in p.exits ensures Ready(w, next, x) {
      assert Size(s) != 0;
      assert Narrower(After(x), joined);
      PlacedNarrower(w, rest, b + Size(s), After(x), joined, k);
    }
    assert forall x :: x in w.blocks && x in p.breaks ==> ReadyToBreak(w, k, x);
    assert forall x :: x in w.blocks && x in p.breaks ==> ReadyToBreak(w, next, x);
    assert forall x :: x in w.blocks && x in p.continues ==> ReadyToContinue(w, next, x);
    assert FullArms(w.eval, s);
  }

  lemma {:induction false} PlacedNarrower(w: World, ss: Stmts, b: nat, a: Fragment, c: Fragment, k: Kont)
    requires Narrower(a, c) && PlacedAll(w, ss, b, c, k)
    ensures PlacedAll(w, ss, b, a, k)
  {
    NarrowerAll(w.eval, w.Jumps(), ss, b, a, c);
  }

  // ---- Placing the parts of a statement ----

  /** A part that has its edges and ends from a placed statement is placed alike. */
  lemma {:induction false} PlacedPart(w: World, part: Stmt, pb: nat, s: Stmt, b: nat, k: Kont)
    requires Placed(w, s, b, k) && FullArms(w.eval, part)
    requires forall x, y :: Edge(w.eval, w.Jumps(), part, pb, x, y) ==> Edge(w.eval, w.Jumps(), s, b, x, y)
    requires var p, f := Frag(w.eval, part, pb), Frag(w.eval, s, b);
             p.exits <= f.exits && p.breaks <= f.breaks && p.continues <= f.continues
    ensures Placed(w, part, pb, k)
  {
  }

  lemma {:induction false} PlacedArms(w: World, s: Stmt, b: nat, k: Kont)
    requires s.If? && Placed(w, s, b, k)
    ensures s.consequence.Some? && CondTruth(w.eval, s.cond).MayHold()
            ==> Placed(w, s.consequence.value, b + 1, k)
    ensures s.alternative.Some? && CondTruth(w.eval, s.cond).MayFail()
            ==> Placed(w, s.alternative.value, b + 1 + SizeOpt(s.consequence), k)
  {
    if s.consequence.Some? && CondTruth(w.eval, s.cond).MayHold() {
      PlacedPart(w, s.consequence.value, b + 1, s, b, k);
    }
    if s.alternative.Some? && CondTruth(w.eval, s.cond).MayFail() {
      PlacedPart(w, s.alternative.value, b + 1 + SizeOpt(s.consequence), s, b, k);
    }
  }

  lemma {:induction false} PlacedBody(w: World, s: Stmt, b: nat, k: Kont)
    requires s.Loop? && s.body.Some? && Placed(w, s, b, k)
    requires s.kind.DoWhile? || LoopTruth(w.eval, s.kind, s.cond).MayHold()
    ensures Placed(w, s.body.value, b + 1, Again(s, b, k))
  {
    var t := LoopTruth(w.eval, s.kind, s.cond);
    var f := Frag(w.eval, s, b);
    var p := Frag(w.eval, s.body.value, b + 1);
    var next := Again(s, b, k);
    forall x | x in w.blocks && (x in p.exits || x in p.continues)
      ensures Ready(w, next, x) && ReadyToContinue(w, next, x)
    {
      if t.MayHold() {
        assert Edge(w.eval, w.Jumps(), s, b, x, b + 1);
      }
      if s.kind.DoWhile? && t.MayFail() {
        assert x in f.exits;
      }
    }
    forall x | x in w.blocks && x in p.breaks ensures ReadyToBreak(w, next, x) {
      assert x in f.exits;
    }
    forall x, y | x in w.blocks && Edge(w.eval, w.Jumps(), s.body.value, b + 1, x, y) ensures y in w.blocks {
      assert Edge(w.eval, w.Jumps(), s, b, x, y);
    }
  }

  /** What `Placed` says of a switch, for the clauses that are still to come. */
  ghost predicate PlacedClauses(w: World, cs: Clauses, b: nat, header: nat, k: Kont) {
    var f := FragClauses(w.eval, cs, b, header);
    && FullArmsClauses(w.eval, cs)
    && (forall x, y :: x in w.blocks && ClauseEdge(w.eval, w.Jumps(), cs, b, header, x, y) ==> y in w.blocks)
    && (forall x :: x in w.blocks && x in f.exits ==> Ready(w, k, x))
    && (forall x :: x in w.blocks && x in f.continues ==> ReadyToContinue(w, k, x))
  }

  lemma {:induction false} PlacedClause(w: World, cs: Clauses, b: nat, header: nat, k: Kont)
    requires cs.Clause? && PlacedClauses(w, cs, b, header, k)
    ensures PlacedClauses(w, cs.rest, b + SizeOpt(cs.body), header, k)
    ensures cs.body.Some? ==> Placed(w, cs.body.value, b, Leave(k))
  {
    var f := FragClauses(w.eval, cs, b, header);
    var more := FragClauses(w.eval, cs.rest, b + SizeOpt(cs.body), header);
    if cs.body.Some? {
      EntryIsFirstBlock(w.eval, cs.body.value, b);
      assert FragOpt(w.eval, cs.body, b) == Frag(w.eval, cs.body.value, b);
      var p := Frag(w.eval, cs.body.value, b);
      forall x | x in w.blocks && (x in p.exits || x in p.breaks)
        ensures Ready(w, Leave(k), x) && ReadyToBreak(w, Leave(k), x)
      {
        assert x in f.exits;
      }
      forall x | x in w.blocks && x in p.continues ensures ReadyToContinue(w, Leave(k), x) {
        assert x in f.continues;
      }
    }
  }

  lemma {:induction false} PlacedBraces(w: World, s: Stmt, b: nat, k: Kont)
    requires s.Braces? && Placed(w, s, b, k)
    ensures PlacedAll(w, s.children, b, NOTHING, k)
  {
  }

  lemma {:induction false} PlacedSwitch(w: World, s: Stmt, b: nat, k: Kont)
    requires s.Switch? && Placed(w, s, b, k)
    ensures PlacedClauses(w, s.clauses, b + 1, b + 1, k)
  {
  }

  // ---- Gotos ----

  ghost predicate PlacedState(w: World, state: State) {
    state.Run? && Placed(w, state.s, state.at, state.k)
  }

  /** A label that is not buried is placed where the jump finds it. */
  lemma {:induction false} LabelPlaced(w: World, s: Stmt, b: nat, k: Kont, name: string)
    requires Placed(w, s, b, k) && OpenLabels(w.eval, s, b)
    requires FindLabel(s, b, k, name).Some?
    ensures PlacedState(w, FindLabel(s, b, k, name).value)
    decreases s
  {
    hide Placed, PlacedAll, PlacedClauses;
    match s
    case Braces(_, children) =>
      PlacedBraces(w, s, b, k);
      LabelPlacedAll(w, children, b, NOTHING, k, name);
    case If(_, _, c, a) =>
      PlacedArms(w, s, b, k);
      if FindLabelOpt(c, b + 1, k, name).Some? {
        LabelAgrees(c.value, b + 1, k, name);
        LabelPlaced(w, c.value, b + 1, k, name);
      } else {
        LabelAgrees(a.value, b + 1 + SizeOpt(c), k, name);
        LabelPlaced(w, a.value, b + 1 + SizeOpt(c), k, name);
      }
    case Switch(_, clauses) =>
      PlacedSwitch(w, s, b, k);
      LabelPlacedClauses(w, clauses, b + 1, b + 1, k, name);
    case Loop(_, _, _, body) =>
      LabelAgrees(body.value, b + 1, Again(s, b, k), name);
      PlacedBody(w, s, b, k);
      LabelPlaced(w, body.value, b + 1, Again(s, b, k), name);
    case LabelStmt(_, _) =>
  }

  lemma {:induction false} LabelPlacedAll(w: World, ss: Stmts, b: nat, acc: Fragment, k: Kont, name: string)
    requires PlacedAll(w, ss, b, acc, k) && OpenLabelsAll(w.eval, ss, b, acc)
    requires acc.entry == 0 ==> acc == NOTHING
    requires FindLabelAll(ss, b, k, name).Some?
    ensures PlacedState(w, FindLabelAll(ss, b, k, name).value)
    decreases ss
  {
    hide Placed, PlacedAll, PlacedClauses;
    var s, rest := ss.head, ss.tail;
    var next := Then(rest, b + Size(s), k);
    assert ss == Cons(s, rest);
    if FindLabel(s, b, next, name).Some? {
      LabelPlacedHead(w, s, rest, b, acc, k, name);
    } else {
      LabelPlacedTail(w, s, rest, b, acc, k, name);
    }
  }

  lemma {:induction false} LabelPlacedHead(w: World, s: Stmt, rest: Stmts, b: nat, acc: Fragment, k: Kont, name: string)
    requires PlacedAll(w, Cons(s, rest), b, acc, k) && OpenLabelsAll(w.eval, Cons(s, rest), b, acc)
    requires acc.entry == 0 ==> acc == NOTHING
    requires FindLabel(s, b, Then(rest, b + Size(s), k), name).Some?
    ensures PlacedState(w, FindLabel(s, b, Then(rest, b + Size(s), k), name).value)
    decreases Cons(s, rest), 0
  {
    hide Placed, PlacedAll, PlacedClauses;
    var next := Then(rest, b + Size(s), k);
    LabelAgrees(s, b, next, name);
    PlacedHead(w, s, rest, b, acc, k);
    LabelPlaced(w, s, b, next, name);
  }

  lemma {:induction false} LabelPlacedTail(w: World, s: Stmt, rest: Stmts, b: nat, acc: Fragment, k: Kont, name: string)
    requires PlacedAll(w, Cons(s, rest), b, acc, k) && OpenLabelsAll(w.eval, Cons(s, rest), b, acc)
    requires acc.entry == 0 ==> acc == NOTHING
    requires FindLabelAll(rest, b + Size(s), k, name).Some?
    ensures PlacedState(w, FindLabelAll(rest, b + Size(s), k, name).value)
    decreases Cons(s, rest), 0
  {
    hide Placed, PlacedAll, PlacedClauses;
    var joined := Join(acc, Frag(w.eval, s, b), s.LabelStmt?);
    EntryIsFirstBlock(w.eval, s, b);
    PlacedTail(w, s, rest, b, acc, k);
    LabelPlacedAll(w, rest, b + Size(s), joined, k, name);
  }

  lemma {:induction false} LabelPlacedClauses(w: World, cs: Clauses, b: nat, header: nat, k: Kont, name: string)
    requires PlacedClauses(w, cs, b, header, k) && OpenLabelsClauses(w.eval, cs, b)
    requires FindLabelClauses(cs, b, Leave(k), name).Some?
    ensures PlacedState(w, FindLabelClauses(cs, b, Leave(k), name).value)
    decreases cs
  {
    hide Placed, PlacedAll, PlacedClauses;
    PlacedClause(w, cs, b, header, k);
    if FindLabelOpt(cs.body, b, Leave(k), name).Some? {
      LabelPlaced(w, cs.body.value, b, Leave(k), name);
    } else {
      LabelPlacedClauses(w, cs.rest, b + SizeOpt(cs.body), header, k, name);
    }
  }

  // ---- The invariant is kept by every step ----

  /** Every jump lands where control may go on. */
  ghost predicate Setting(w: World) {
    && 0 in w.blocks
    && (forall name: string :: FindLabel(w.root, 0, Stop, name).Some? ==>
          PlacedState(w, FindLabel(w.root, 0, Stop, name).value))
  }

  lemma {:induction false} RootPlaced(w: World)
    requires w.Closed() && w.ends == Frag(w.eval, w.root, 0).exits
    requires FullArms(w.eval, w.root) && OpenLabels(w.eval, w.root, 0)
    ensures Placed(w, w.root, 0, Stop) && Setting(w)
  {
    forall name: string | FindLabel(w.root, 0, Stop, name).Some?
      ensures PlacedState(w, FindLabel(w.root, 0, Stop, name).value)
    {
      LabelPlaced(w, w.root, 0, Stop, name);
    }
  }

  /** Entering a part from block `x` of the set, along the edge to its first
      block or, if it is empty, with `k` ready to go on. */
  lemma {:induction false} EnterGood(w: World, part: Option<Stmt>, b: nat, k: Kont, x: nat)
    requires x in w.blocks
    requires part.Some? ==> Placed(w, part.value, b, k)
    requires part.Some? && Size(part.value) != 0 ==> b + 1 in w.blocks
    requires part.None? || Size(part.value) == 0 ==> Ready(w, k, x)
    ensures Good(w, Enter(part, b, k))
  {
  }

  lemma {:induction false} IfGood(w: World, s: Stmt, b: nat, k: Kont, to: State)
    requires s.If? && Good(w, Run(s, b, k)) && StepRun(w.eval, w.root, s, b, k, to)
    ensures Good(w, to)
  {
    var t := CondTruth(w.eval, s.cond);
    var f := Frag(w.eval, s, b);
    var b' := b + 1 + SizeOpt(s.consequence);
    PlacedArms(w, s, b, k);
    if t.MayHold() && to == Enter(s.consequence, b + 1, k) {
      if s.consequence.Some? {
        EntryIsFirstBlock(w.eval, s.consequence.value, b + 1);
        assert Edge(w.eval, w.Jumps(), s, b, b + 1, b + 2);
      } else {
        assert b + 1 in f.exits;
      }
      EnterGood(w, s.consequence, b + 1, k, b + 1);
    } else {
      if s.alternative.Some? {
        EntryIsFirstBlock(w.eval, s.alternative.value, b');
        assert Edge(w.eval, w.Jumps(), s, b, b + 1, b' + 1);
      } else {
        assert b + 1 in f.exits;
      }
      EnterGood(w, s.alternative, b', k, b + 1);
    }
  }

  lemma {:induction false} LoopGood(w: World, s: Stmt, b: nat, k: Kont, to: State)
    requires s.Loop? && Good(w, Run(s, b, k)) && StepRun(w.eval, w.root, s, b, k, to)
    ensures Good(w, to)
  {
    var t := LoopTruth(w.eval, s.kind, s.cond);
    var f := Frag(w.eval, s, b);
    if (s.kind.DoWhile? || t.MayHold()) && to == Enter(s.body, b + 1, Again(s, b, k)) {
      if s.body.Some? {
        EntryIsFirstBlock(w.eval, s.body.value, b + 1);
        PlacedBody(w, s, b, k);
        if Size(s.body.value) != 0 {
          assert Edge(w.eval, w.Jumps(), s, b, b + 1, b + 2);
        }
      } else if t.MayFail() {
        assert b + 1 in f.exits;
      }
      EnterGood(w, s.body, b + 1, Again(s, b, k), b + 1);
    } else {
      assert b + 1 in f.exits;
    }
  }

  lemma {:induction false} ClausesGood(w: World, cs: Clauses, b: nat, header: nat, k: Kont, to: State)
    requires PlacedClauses(w, cs, b, header, k) && header in w.blocks && StepClauses(cs, b, k, to)
    ensures Good(w, to)
    decreases cs
  {
    PlacedClause(w, cs, b, header, k);
    if to == Enter(cs.body, b, Leave(k)) {
      if cs.body.Some? {
        EntryIsFirstBlock(w.eval, cs.body.value, b);
        if Size(cs.body.value) != 0 {
          assert ClauseEdge(w.eval, w.Jumps(), cs, b, header, header, b + 1);
        } else {
          assert header in FragClauses(w.eval, cs, b, header).exits;
        }
      } else {
        assert header in FragClauses(w.eval, cs, b, header).exits;
      }
      EnterGood(w, cs.body, b, Leave(k), header);
    } else {
      ClausesGood(w, cs.rest, b + SizeOpt(cs.body), header, k, to);
    }
  }

  lemma {:induction false} JumpGood(w: World, s: Stmt, b: nat, k: Kont, to: State)
    requires Setting(w)
    requires s.GotoStmt? && Good(w, Run(s, b, k)) && StepRun(w.eval, w.root, s, b, k, to)
    ensures Good(w, to)
  {
    LabelAgrees(w.root, 0, Stop, s.name);
    assert s.name in w.Jumps();
    assert Edge(w.eval, w.Jumps(), s, b, b + 1, w.Jumps()[s.name]);
  }

  /** Coming in at the top of a list is like coming from block 0. */
  lemma {:induction false} FromTheTop(eval: Evaluator, labels: map<string, nat>, ss: Stmts, b: nat)
    requires SizeAll(ss) != 0
    ensures var f, g := FragAll(eval, ss, b, After(0)), FragAll(eval, ss, b, NOTHING);
            f.exits == g.exits && f.breaks == g.breaks && f.continues == g.continues
    ensures forall x, y :: SeqEdge(eval, labels, ss, b, After(0), x, y)
                           ==> SeqEdge(eval, labels, ss, b, NOTHING, x, y) || (x == 0 && y == b + 1)
  {
    var s, rest := ss.head, ss.tail;
    var p := Frag(eval, s, b);
    EntryIsFirstBlock(eval, s, b);
    if Size(s) == 0 {
      FromTheTop(eval, labels, rest, b);
    } else {
      var j := Join(After(0), p, s.LabelStmt?);
      NarrowerAll(eval, labels, rest, b + Size(s), j, p);
      NarrowerAll(eval, labels, rest, b + Size(s), p, j);
    }
  }

  lemma {:induction false} BracesGood(w: World, s: Stmt, b: nat, k: Kont)
    requires 0 in w.blocks
    requires s.Braces? && Good(w, Run(s, b, k))
    ensures Good(w, Done(Then(s.children, b, k)))
  {
    if Size(s) != 0 {
      FromTheTop(w.eval, w.Jumps(), s.children, b);
      assert Ready(w, Then(s.children, b, k), 0);
    } else {
      var x :| x in w.blocks && Ready(w, k, x);
      EntryIsFirstBlockAll(w.eval, s.children, b, After(x));
      EmptyAll(w, s.children, b, k, x);
    }
  }

  lemma {:induction false} EmptyAll(w: World, ss: Stmts, b: nat, k: Kont, x: nat)
    requires SizeAll(ss) == 0 && Ready(w, k, x) && FullArmsAll(w.eval, ss)
    requires forall x, y :: x in w.blocks && SeqEdge(w.eval, w.Jumps(), ss, b, NOTHING, x, y) ==> y in w.blocks
    ensures Ready(w, Then(ss, b, k), x)
  {
    EntryIsFirstBlockAll(w.eval, ss, b, After(x));
    EmptyEdges(w.eval, w.Jumps(), ss, b, After(x), NOTHING);
  }

  lemma {:induction false} EmptyEdges(eval: Evaluator, labels: map<string, nat>, ss: Stmts, b: nat, a: Fragment, c: Fragment)
    requires SizeAll(ss) == 0
    ensures forall x, y :: SeqEdge(eval, labels, ss, b, a, x, y) ==> SeqEdge(eval, labels, ss, b, c, x, y)
  {
    if ss.Cons? {
      EntryIsFirstBlock(eval, ss.head, b);
      EmptyEdges(eval, labels, ss.tail, b, a, c);
    }
  }

  lemma {:induction false} DoneGood(w: World, k: Kont, to: State)
    requires Good(w, Done(k)) && StepDone(w.eval, k, to)
    ensures Good(w, to)
  {
    var x :| x in w.blocks && Ready(w, k, x);
    if k.Then? && k.rest.Nil? {
      assert Ready(w, k.k, x) by {
        assert PlacedAll(w, Nil, k.at, After(x), k.k);
        assert x in FragAll(w.eval, Nil, k.at, After(x)).exits;
      }
    }
    if k.Then? && k.rest.Cons? {
      var s, rest := k.rest.head, k.rest.tail;
      EntryIsFirstBlock(w.eval, s, k.at);
      PlacedHead(w, s, rest, k.at, After(x), k.k);
      PlacedTail(w, s, rest, k.at, After(x), k.k);
      if Size(s) != 0 {
        assert SeqEdge(w.eval, w.Jumps(), k.rest, k.at, After(x), x, k.at + 1);
      } else {
        assert Join(After(x), Frag(w.eval, s, k.at), s.LabelStmt?) == After(x);
        assert Ready(w, Then(rest, k.at, k.k), x);
      }
    }
  }

  lemma {:induction false} RunGood(w: World, s: Stmt, b: nat, k: Kont, to: State)
    requires Setting(w) && Good(w, Run(s, b, k)) && StepRun(w.eval, w.root, s, b, k, to)
    ensures Good(w, to)
  {
    match s
    case Braces(_, _) => BracesGood(w, s, b, k);
    case If(_, _, _, _) => IfGood(w, s, b, k, to);
    case Switch(_, clauses) =>
      PlacedSwitch(w, s, b, k);
      if StepClauses(clauses, b + 1, k, to) {
        ClausesGood(w, clauses, b + 1, b + 1, k, to);
      } else {
        DefaultOrNot(clauses);
        assert b + 1 in Frag(w.eval, s, b).exits;
      }
    case Loop(_, _, _, _) => LoopGood(w, s, b, k, to);
    case GotoStmt(_, _) => JumpGood(w, s, b, k, to);
    case Break(_) => assert b + 1 in Frag(w.eval, s, b).breaks;
    case Continue(_) => assert b + 1 in Frag(w.eval, s, b).continues;
    case Return(_) =>
    case LabelStmt(_, _) => assert b + 1 in Frag(w.eval, s, b).exits;
    case Simple(_, _) => assert b + 1 in Frag(w.eval, s, b).exits;
  }

  lemma {:induction false} StepGood(w: World, from: State, to: State)
    requires Setting(w) && Good(w, from) && Step(w.eval, w.root, from, to)
    ensures Good(w, to)
  {
    match from
    case Run(s, b, k) => RunGood(w, s, b, k, to);
    case Done(k) => DoneGood(w, k, to);
    case Breaking(k) =>
    case Continuing(k) =>
  }

  lemma {:induction false} RunIsGood(w: World, run: seq<State>, i: nat)
    requires Setting(w) && Placed(w, w.root, 0, Stop) && Size(w.root) != 0 && 1 in w.blocks
    requires IsRun(w.eval, w.root, run) && i < |run|
    ensures Good(w, run[i])
  {
    hide Placed, Setting;
    if i != 0 {
      RunIsGood(w, run, i - 1);
      StepGood(w, run[i - 1], run[i]);
    }
  }

  /** Soundness: a closed set of blocks that holds the entry holds every executed
      block, and if the body can complete it holds one of the dangling exits. */
  lemma {:induction false} Sound(w: World)
    requires w.Closed() && w.ends == Frag(w.eval, w.root, 0).exits
    requires FullArms(w.eval, w.root) && OpenLabels(w.eval, w.root, 0) && Size(w.root) != 0
    ensures forall x :: Executed(w.eval, w.root, x) ==> x in w.blocks
    ensures Completes(w.eval, w.root) ==> exists x :: x in w.blocks && x in Frag(w.eval, w.root, 0).exits
  {
    RootPlaced(w);
    SoundWhenSet(w);
  }

  /** The same as long as every jump lands where control may go on. */
  lemma {:induction false} SoundWhenSet(w: World)
    requires Setting(w) && Placed(w, w.root, 0, Stop) && Size(w.root) != 0 && 1 in w.blocks
    ensures forall x :: Executed(w.eval, w.root, x) ==> x in w.blocks
    ensures Completes(w.eval, w.root) ==> exists x :: x in w.blocks && x in w.ends
  {
    hide Setting, Placed;
    forall x | Executed(w.eval, w.root, x) ensures x in w.blocks {
      var s: Stmt, b: nat, k: Kont :| !s.Braces? && x == b + 1 && Reached(w.eval, w.root, Run(s, b, k));
      var run :| IsRun(w.eval, w.root, run) && run[|run| - 1] == Run(s, b, k);
      RunIsGood(w, run, |run| - 1);
    }
    if Completes(w.eval, w.root) {
      var run :| IsRun(w.eval, w.root, run) && run[|run| - 1] == Done(Stop);
      RunIsGood(w, run, |run| - 1);
      var x :| x in w.blocks && Ready(w, Stop, x);
    }
  }
}
