/** Where control goes, read off the tree with no shape conditions, and when exactly
    the builder's graph agrees with it. */
module CfgControl {
  import opened Collections
  import opened Syntax
  import opened CfgFragments
  import opened CfgSemantics
  import opened CfgGraph
  import opened CfgCompile
  import opened CfgBuild
  import opened CfgTheorems
  import opened CfgLimits
  import Precise = CfgPrecise

  // ---- The next blocks ----

  /** How long control can go through empty braces. */
  function Braced(s: Stmt): nat { if s.Braces? then 1 + BracedAll(s.children) else 0 }

  function BracedAll(ss: Stmts): nat { if ss.Cons? then Braced(ss.head) + BracedAll(ss.tail) + 2 else 1 }

  function BracedKont(k: Kont): nat {
    match k
    case Stop => 0
    case Then(rest, _, k') => 1 + BracedAll(rest) + BracedKont(k')
    case Again(_, _, k') => 1 + BracedKont(k')
    case Leave(k') => 1 + BracedKont(k')
  }

  /** The blocks that control may enter when it comes to `s`; 0 is the end of the body. */
  function Entered(eval: Evaluator, s: Stmt, b: nat, k: Kont): set<nat>
    decreases Braced(s) + BracedKont(k)
  {
    if s.Braces? then EnteredAll(eval, s.children, b, k) else {b + 1}
  }

  function EnteredAll(eval: Evaluator, ss: Stmts, b: nat, k: Kont): set<nat>
    decreases BracedAll(ss) + BracedKont(k)
  {
    match ss
    case Nil => Onward(eval, k)
    case Cons(s, rest) => Entered(eval, s, b, Then(rest, b + Size(s), k))
  }

  /** The same when a statement completed. */
  function Onward(eval: Evaluator, k: Kont): set<nat>
    decreases BracedKont(k)
  {
    match k
    case Stop => {0}
    case Then(rest, b, k') => EnteredAll(eval, rest, b, k')
    case Again(loop, b, k') =>
      if !loop.Loop? then {}
      else
        (if !loop.kind.DoWhile? || LoopPossible(eval, loop.kind, loop.cond, true) then {b + 1} else {})
        + (if loop.kind.DoWhile? && LoopPossible(eval, loop.kind, loop.cond, false) then Onward(eval, k') else {})
    case Leave(k') => Onward(eval, k')
  }

  function OnwardBreak(eval: Evaluator, k: Kont): set<nat> {
    match k
    case Stop => {}
    case Then(_, _, k') => OnwardBreak(eval, k')
    case Again(_, _, k') => Onward(eval, k')
    case Leave(k') => Onward(eval, k')
  }

  function OnwardContinue(eval: Evaluator, k: Kont): set<nat> {
    match k
    case Stop => {}
    case Then(_, _, k') => OnwardContinue(eval, k')
    case Again(_, _, _) => Onward(eval, k)
    case Leave(k') => OnwardContinue(eval, k')
  }

  function EnteredOpt(eval: Evaluator, o: Option<Stmt>, b: nat, k: Kont): set<nat> {
    if o.Some? then Entered(eval, o.value, b, k) else Onward(eval, k)
  }

  function EnteredClauses(eval: Evaluator, cs: Clauses, b: nat, k: Kont): set<nat> {
    match cs
    case End => {}
    case Clause(_, body, rest) =>
      EnteredOpt(eval, body, b, Leave(k)) + EnteredClauses(eval, rest, b + SizeOpt(body), k)
  }

  /** Where control may go from the block of `s`, gotos going to `labels`. */
  function Next(eval: Evaluator, labels: map<string, nat>, s: Stmt, b: nat, k: Kont): set<nat> {
    match s
    case Braces(_, children) => EnteredAll(eval, children, b, k)
    case If(_, cond, c, a) =>
      (if Possible(eval, cond, true) then EnteredOpt(eval, c, b + 1, k) else {})
      + (if Possible(eval, cond, false) then EnteredOpt(eval, a, b + 1 + SizeOpt(c), k) else {})
    case Switch(_, clauses) =>
      EnteredClauses(eval, clauses, b + 1, k) + (if Defaultless(clauses) then Onward(eval, k) else {})
    case Loop(_, kind, cond, body) =>
      (if kind.DoWhile? || LoopPossible(eval, kind, cond, true) then EnteredOpt(eval, body, b + 1, Again(s, b, k)) else {})
      + (if !kind.DoWhile? && LoopPossible(eval, kind, cond, false) then Onward(eval, k) else {})
    case Return(_) => {}
    case Break(_) => OnwardBreak(eval, k)
    case Continue(_) => OnwardContinue(eval, k)
    case GotoStmt(_, name) => if name in labels then {labels[name]} else {}
    case LabelStmt(_, _) => Onward(eval, k)
    case Simple(_, _) => Onward(eval, k)
  }

  /** Control goes from block `x` to block `y`, or to the end of the body if `y` is 0. */
  ghost predicate Goes(eval: Evaluator, root: Stmt, x: nat, y: nat) {
    var at := Precise.Find(root, 0, Stop, x);
    0 < x <= Size(root) && at.Some? && at.value.Run?
    && y in Next(eval, Labels(root, 0), at.value.s, at.value.at, at.value.k)
  }

  ghost predicate IsTrail(eval: Evaluator, root: Stmt, trail: seq<nat>) {
    && trail != [] && trail[0] in Entered(eval, root, 0, Stop)
    && forall i :: 0 <= i < |trail| - 1 ==> Goes(eval, root, trail[i], trail[i + 1])
  }

  /** Control gets to block `x`, going from block to block. */
  ghost predicate GetsTo(eval: Evaluator, root: Stmt, x: nat) {
    exists trail :: IsTrail(eval, root, trail) && trail[|trail| - 1] == x
  }

  lemma {:induction false} GetsToFirst(eval: Evaluator, root: Stmt, x: nat)
    requires x in Entered(eval, root, 0, Stop)
    ensures GetsTo(eval, root, x)
  {
    assert IsTrail(eval, root, [x]);
  }

  lemma {:induction false} GetsToNext(eval: Evaluator, root: Stmt, x: nat, y: nat)
    requires GetsTo(eval, root, x) && Goes(eval, root, x, y)
    ensures GetsTo(eval, root, y)
  {
    var trail :| IsTrail(eval, root, trail) && trail[|trail| - 1] == x;
    var longer := trail + [y];
    forall i | 0 <= i < |longer| - 1 ensures Goes(eval, root, longer[i], longer[i + 1]) {
      if i < |trail| - 1 {
        assert longer[i] == trail[i] && longer[i + 1] == trail[i + 1];
      }
    }
    assert IsTrail(eval, root, longer);
  }

  lemma {:induction false} GetsToLeast(eval: Evaluator, root: Stmt, x: nat, closed: iset<nat>)
    requires GetsTo(eval, root, x)
    requires forall y :: y in Entered(eval, root, 0, Stop) ==> y in closed
    requires forall y, z :: y in closed && Goes(eval, root, y, z) ==> z in closed
    ensures x in closed
  {
    var trail :| IsTrail(eval, root, trail) && trail[|trail| - 1] == x;
    for i := 1 to |trail|
      invariant trail[i - 1] in closed
    {
      assert Goes(eval, root, trail[i - 1], trail[i - 1 + 1]);
    }
  }

  // ---- Runs go that way ----

  /** The blocks that a state leads to next. */
  function Front(eval: Evaluator, state: State): set<nat> {
    match state
    case Run(s, b, k) => Entered(eval, s, b, k)
    case Done(k) => Onward(eval, k)
    case Breaking(k) => OnwardBreak(eval, k)
    case Continuing(k) => OnwardContinue(eval, k)
  }

  lemma {:induction false} ClausesFront(eval: Evaluator, cs: Clauses, b: nat, k: Kont, to: State)
    requires StepClauses(cs, b, k, to)
    ensures Front(eval, to) <= EnteredClauses(eval, cs, b, k)
    decreases cs
  {
    hide Entered, Onward;
    if to != Enter(cs.body, b, Leave(k)) {
      ClausesFront(eval, cs.rest, b + SizeOpt(cs.body), k, to);
    }
  }

  lemma {:induction false} RunFront(eval: Evaluator, root: Stmt, s: Stmt, b: nat, k: Kont, to: State)
    requires StepRun(eval, root, s, b, k, to)
    ensures Front(eval, to) <= Next(eval, Labels(root, 0), s, b, k)
  {
    match s
    case Switch(_, clauses) =>
      if StepClauses(clauses, b + 1, k, to) {
        ClausesFront(eval, clauses, b + 1, k, to);
      }
    case GotoStmt(_, name) => LabelAgrees(root, 0, Stop, name);
    case _ =>
  }

  /** A step that executes no block leads no further than before. */
  lemma {:induction false} SilentFront(eval: Evaluator, root: Stmt, from: State, to: State)
    requires Step(eval, root, from, to) && (from.Run? ==> from.s.Braces?)
    ensures Front(eval, to) <= Front(eval, from)
  {
    match from
    case Run(s, b, k) => BracesFront(eval, s.children, b, k);
    case Done(k) => DoneFront(eval, k, to);
    case Breaking(k) =>
    case Continuing(k) =>
  }

  lemma {:induction false} DoneFront(eval: Evaluator, k: Kont, to: State)
    requires StepDone(eval, k, to)
    ensures Front(eval, to) <= Onward(eval, k)
  {
    match k
    case Then(rest, b, k') =>
      if rest.Cons? {
        assert Onward(eval, k) == EnteredAll(eval, rest, b, k');
        assert EnteredAll(eval, rest, b, k') == Entered(eval, rest.head, b, Then(rest.tail, b + Size(rest.head), k'));
      }
    case Again(loop, b, k') => assert Entered(eval, loop, b, k') == {b + 1};
    case Leave(k') =>
  }

  lemma {:induction false} RunsGetThere(eval: Evaluator, root: Stmt, run: seq<State>, i: nat)
    requires IsRun(eval, root, run) && i < |run|
    ensures forall y :: y in Front(eval, run[i]) ==> GetsTo(eval, root, y)
  {
    hide Entered, Next, GetsTo, Precise.WithinKont, Front;
    if i == 0 {
      forall y | y in Front(eval, run[0]) ensures GetsTo(eval, root, y) {
        StartFront(eval, root);
        GetsToFirst(eval, root, y);
      }
    } else {
      RunsGetThere(eval, root, run, i - 1);
      var from := run[i - 1];
      assert Step(eval, root, from, run[i]);
      if from.Run? && !from.s.Braces? {
        Precise.RunWithin(eval, root, run, i - 1);
        forall y | y in Front(eval, run[i]) ensures GetsTo(eval, root, y) {
          RunFront(eval, root, from.s, from.at, from.k, run[i]);
          BlockGoes(eval, root, from.s, from.at, from.k, y);
          GetsToNext(eval, root, from.at + 1, y);
        }
      } else {
        SilentFront(eval, root, from, run[i]);
      }
    }
  }

  lemma {:induction false} StartFront(eval: Evaluator, root: Stmt)
    ensures Front(eval, Run(root, 0, Stop)) == Entered(eval, root, 0, Stop)
  {
  }

  lemma {:induction false} BlockGoes(eval: Evaluator, root: Stmt, s: Stmt, b: nat, k: Kont, y: nat)
    requires !s.Braces? && Precise.Within(root, s, b, k)
    ensures b + 1 in Front(eval, Run(s, b, k))
    ensures y in Next(eval, Labels(root, 0), s, b, k) ==> Goes(eval, root, b + 1, y)
  {
    assert Precise.Find(s, b, k, b + 1) == Some(Run(s, b, k));
    Precise.FindInRange(root, 0, Stop, b + 1);
  }

  // ---- And some run goes every such way ----

  ghost predicate Happens(eval: Evaluator, root: Stmt, y: nat) {
    if y == 0 then Completes(eval, root) else Executed(eval, root, y)
  }

  lemma {:induction false} EnteredHappens(eval: Evaluator, root: Stmt, s: Stmt, b: nat, k: Kont, y: nat)
    requires Reached(eval, root, Run(s, b, k)) && y in Entered(eval, s, b, k)
    ensures Happens(eval, root, y)
    decreases Braced(s) + BracedKont(k)
  {
    hide Reached;
    if s.Braces? {
      ReachedStep(eval, root, Run(s, b, k), Done(Then(s.children, b, k)));
      EnteredAllHappens(eval, root, s.children, b, k, y);
    }
  }

  lemma {:induction false} EnteredAllHappens(eval: Evaluator, root: Stmt, ss: Stmts, b: nat, k: Kont, y: nat)
    requires Reached(eval, root, Done(Then(ss, b, k))) && y in EnteredAll(eval, ss, b, k)
    ensures Happens(eval, root, y)
    decreases BracedAll(ss) + BracedKont(k)
  {
    hide Reached;
    match ss
    case Nil =>
      ReachedStep(eval, root, Done(Then(ss, b, k)), Done(k));
      OnwardHappens(eval, root, k, y);
    case Cons(s, rest) =>
      var next := Then(rest, b + Size(s), k);
      ReachedStep(eval, root, Done(Then(ss, b, k)), Run(s, b, next));
      EnteredHappens(eval, root, s, b, next, y);
  }

  lemma {:induction false} OnwardHappens(eval: Evaluator, root: Stmt, k: Kont, y: nat)
    requires Reached(eval, root, Done(k)) && y in Onward(eval, k)
    ensures Happens(eval, root, y)
    decreases BracedKont(k)
  {
    hide Reached, Entered;
    match k
    case Stop =>
    case Then(rest, b, k') => EnteredAllHappens(eval, root, rest, b, k', y);
    case Again(loop, b, k') =>
      if y == b + 1 && (!loop.kind.DoWhile? || LoopPossible(eval, loop.kind, loop.cond, true)) {
        ReachedStep(eval, root, Done(k), Run(loop, b, k'));
      } else {
        ReachedStep(eval, root, Done(k), Done(k'));
        OnwardHappens(eval, root, k', y);
      }
    case Leave(k') =>
      ReachedStep(eval, root, Done(k), Done(k'));
      OnwardHappens(eval, root, k', y);
  }

  lemma {:induction false} BreakHappens(eval: Evaluator, root: Stmt, k: Kont, y: nat)
    requires Reached(eval, root, Breaking(k)) && y in OnwardBreak(eval, k)
    ensures Happens(eval, root, y)
    decreases k
  {
    hide Reached, Onward;
    match k
    case Then(_, _, k') =>
      ReachedStep(eval, root, Breaking(k), Breaking(k'));
      BreakHappens(eval, root, k', y);
    case Again(_, _, k') =>
      ReachedStep(eval, root, Breaking(k), Done(k'));
      OnwardHappens(eval, root, k', y);
    case Leave(k') =>
      ReachedStep(eval, root, Breaking(k), Done(k'));
      OnwardHappens(eval, root, k', y);
  }

  lemma {:induction false} ContinueHappens(eval: Evaluator, root: Stmt, k: Kont, y: nat)
    requires Reached(eval, root, Continuing(k)) && y in OnwardContinue(eval, k)
    ensures Happens(eval, root, y)
    decreases k
  {
    hide Reached, Onward;
    if k.Again? {
      ReachedStep(eval, root, Continuing(k), Done(k));
      OnwardHappens(eval, root, k, y);
    } else {
      ReachedStep(eval, root, Continuing(k), Continuing(k.k));
      ContinueHappens(eval, root, k.k, y);
    }
  }

  lemma {:induction false} FrontHappens(eval: Evaluator, root: Stmt, state: State, y: nat)
    requires Reached(eval, root, state) && y in Front(eval, state)
    ensures Happens(eval, root, y)
  {
    hide Reached, Entered, Onward, Happens;
    match state
    case Run(s, b, k) => EnteredHappens(eval, root, s, b, k, y);
    case Done(k) => OnwardHappens(eval, root, k, y);
    case Breaking(k) => BreakHappens(eval, root, k, y);
    case Continuing(k) => ContinueHappens(eval, root, k, y);
  }

  /** Every next block is the front of a step. */
  lemma {:induction false} NextIsStep(eval: Evaluator, root: Stmt, s: Stmt, b: nat, k: Kont, y: nat) returns (to: State)
    requires y in Next(eval, Labels(root, 0), s, b, k)
    ensures StepRun(eval, root, s, b, k, to) && y in Front(eval, to)
  {
    hide Entered, Onward;
    match s
    case Braces(_, children) => to := Done(Then(children, b, k)); BracesFront(eval, children, b, k);
    case If(_, cond, c, a) =>
      to := if Possible(eval, cond, true) && y in EnteredOpt(eval, c, b + 1, k) then Enter(c, b + 1, k)
            else Enter(a, b + 1 + SizeOpt(c), k);
    case Switch(_, clauses) =>
      if y in EnteredClauses(eval, clauses, b + 1, k) {
        to := ClauseIsStep(eval, clauses, b + 1, k, y);
      } else {
        to := Done(k);
      }
    case Loop(_, kind, cond, body) =>
      to := if (kind.DoWhile? || LoopPossible(eval, kind, cond, true)) && y in EnteredOpt(eval, body, b + 1, Again(s, b, k))
            then Enter(body, b + 1, Again(s, b, k)) else Done(k);
    case Break(_) => to := Breaking(k);
    case Continue(_) => to := Continuing(k);
    case GotoStmt(_, name) =>
      LabelAgrees(root, 0, Stop, name);
      to := FindLabel(root, 0, Stop, name).value;
      LabelFront(eval, to);
    case _ => to := Done(k);
  }

  lemma {:induction false} BracesFront(eval: Evaluator, ss: Stmts, b: nat, k: Kont)
    ensures Front(eval, Done(Then(ss, b, k))) == EnteredAll(eval, ss, b, k)
  {
  }

  lemma {:induction false} LabelFront(eval: Evaluator, state: State)
    requires state.Run? && state.s.LabelStmt?
    ensures Front(eval, state) == {state.at + 1}
  {
  }

  lemma {:induction false} ClauseIsStep(eval: Evaluator, cs: Clauses, b: nat, k: Kont, y: nat) returns (to: State)
    requires y in EnteredClauses(eval, cs, b, k)
    ensures StepClauses(cs, b, k, to) && y in Front(eval, to)
    decreases cs
  {
    hide Entered, Onward;
    if y in EnteredOpt(eval, cs.body, b, Leave(k)) {
      to := Enter(cs.body, b, Leave(k));
    } else {
      to := ClauseIsStep(eval, cs.rest, b + SizeOpt(cs.body), k, y);
    }
  }

  lemma {:induction false} GoesHappens(eval: Evaluator, root: Stmt, x: nat, y: nat)
    requires Executed(eval, root, x) && Goes(eval, root, x, y)
    ensures Happens(eval, root, y)
  {
    hide Next, Happens, Reached;
    Precise.ExecutedIsLive(eval, root, x);
    var at := Precise.Find(root, 0, Stop, x).value;
    var to := NextIsStep(eval, root, at.s, at.at, at.k, y);
    ReachedStep(eval, root, at, to);
    FrontHappens(eval, root, to, y);
  }

  // ---- The theorems ----

  /** For every body: a run executes exactly the blocks that control gets to, and one
      completes the body exactly when control gets to its end. */
  lemma {:induction false} HappensIffGetsTo(eval: Evaluator, root: Stmt, y: nat)
    ensures Happens(eval, root, y) <==> GetsTo(eval, root, y)
  {
    hide Goes, Front, Next;
    if Happens(eval, root, y) {
      HappensGetsTo(eval, root, y);
    }
    if GetsTo(eval, root, y) {
      var closed := iset z: nat | Happens(eval, root, z);
      ReachedStart(eval, root);
      forall z | z in Entered(eval, root, 0, Stop) ensures z in closed {
        EnteredHappens(eval, root, root, 0, Stop, z);
      }
      forall u, v | u in closed && Goes(eval, root, u, v) ensures v in closed {
        GoesFromBlock(eval, root, u, v);
        GoesHappens(eval, root, u, v);
      }
      GetsToLeast(eval, root, y, closed);
    }
  }

  lemma {:induction false} GoesFromBlock(eval: Evaluator, root: Stmt, x: nat, y: nat)
    requires Goes(eval, root, x, y)
    ensures 0 < x <= Size(root)
  {
  }

  lemma {:induction false} HappensGetsTo(eval: Evaluator, root: Stmt, y: nat)
    requires Happens(eval, root, y)
    ensures GetsTo(eval, root, y)
  {
    hide GetsTo;
    if y == 0 {
      var run :| IsRun(eval, root, run) && run[|run| - 1] == Done(Stop);
      RunsGetThere(eval, root, run, |run| - 1);
    } else {
      var s: Stmt, b: nat, k: Kont :| !s.Braces? && y == b + 1 && Reached(eval, root, Run(s, b, k));
      var run :| IsRun(eval, root, run) && run[|run| - 1] == Run(s, b, k);
      RunsGetThere(eval, root, run, |run| - 1);
    }
  }

  /** Control goes this way, but the graph has no such edge. */
  ghost predicate Lost(eval: Evaluator, root: Stmt, x: nat, y: nat) {
    Goes(eval, root, x, y) && y != 0 && !GraphEdge(eval, root, x, y)
  }

  /** The graph has this edge, but control does not go that way. */
  ghost predicate Invented(eval: Evaluator, root: Stmt, x: nat, y: nat) {
    GraphEdge(eval, root, x, y) && !Goes(eval, root, x, y)
  }

  /** For every body, whatever its shape: the graph is exact exactly when no lost edge
      leads out of the blocks that the graph reaches, and no invented edge leads out
      of the blocks that control gets to. */
  lemma {:induction false} ExactExactly(eval: Evaluator, root: Stmt)
    ensures Exact(eval, root) <==>
            && (forall x, y :: Lost(eval, root, x, y) && InGraph(Env(0, eval), root, x) ==> InGraph(Env(0, eval), root, y))
            && (forall x, y :: Invented(eval, root, x, y) && GetsTo(eval, root, x) ==> GetsTo(eval, root, y))
  {
    hide Goes, GetsTo, InGraph, Happens, GraphEdge;
    forall x: nat ensures x != 0 ==> (Executed(eval, root, x) <==> GetsTo(eval, root, x)) {
      HappensIffGetsTo(eval, root, x);
      HappensIsExecuted(eval, root, x);
    }
    NoBlockZero(eval, root);
    if Exact(eval, root) {
      forall x, y | Lost(eval, root, x, y) && InGraph(Env(0, eval), root, x) ensures InGraph(Env(0, eval), root, y) {
        GetsToNext(eval, root, x, y);
      }
      forall x: nat, y: nat | Invented(eval, root, x, y) && GetsTo(eval, root, x) ensures GetsTo(eval, root, y) {
        FollowEdge(Env(0, eval), root, x, y);
      }
    }
    if forall x, y :: Lost(eval, root, x, y) && InGraph(Env(0, eval), root, x) ==> InGraph(Env(0, eval), root, y) {
      forall x: nat | x != 0 && GetsTo(eval, root, x) ensures InGraph(Env(0, eval), root, x) {
        NothingLost(eval, root, x);
      }
    }
    if forall x, y :: Invented(eval, root, x, y) && GetsTo(eval, root, x) ==> GetsTo(eval, root, y) {
      forall x: nat | InGraph(Env(0, eval), root, x) ensures GetsTo(eval, root, x) {
        NothingInvented(eval, root, x);
      }
    }
  }

  lemma {:induction false} HappensIsExecuted(eval: Evaluator, root: Stmt, x: nat)
    ensures x != 0 ==> (Happens(eval, root, x) <==> Executed(eval, root, x))
  {
  }

  /** Block 0 is neither in the graph nor executed, and both start alike. */
  lemma {:induction false} NoBlockZero(eval: Evaluator, root: Stmt)
    ensures !InGraph(Env(0, eval), root, 0) && !Executed(eval, root, 0)
    ensures Entered(eval, root, 0, Stop) == {if Size(root) == 0 then 0 else 1}
    ensures Size(root) != 0 ==> InGraph(Env(0, eval), root, 1)
  {
    hide Entered, HasEdge, GraphEdge;
    BuiltEdges(Env(0, eval), root);
    var g := Built(Env(0, eval), root);
    if InGraph(Env(0, eval), root, 0) {
      forall x: nat, y: nat | HasEdge(g.blocks, x, y) ensures y != 0 {
        FollowEdge(Env(0, eval), root, x, y);
      }
      ReachableLeast(g.blocks, g.entry, 0, iset y: nat | AtMost(1, y));
    }
    if Size(root) != 0 {
      ReachableSelf(g.blocks, 1);
    }
    EnteredFirst(eval, root, 0, Stop);
  }

  lemma {:induction false} EnteredFirst(eval: Evaluator, s: Stmt, b: nat, k: Kont)
    ensures Entered(eval, s, b, k) == if Size(s) == 0 then Onward(eval, k) else {b + 1}
    decreases Braced(s)
  {
    if s.Braces? {
      EnteredAllFirst(eval, s.children, b, k);
    }
  }

  lemma {:induction false} EnteredAllFirst(eval: Evaluator, ss: Stmts, b: nat, k: Kont)
    ensures EnteredAll(eval, ss, b, k) == if SizeAll(ss) == 0 then Onward(eval, k) else {b + 1}
    decreases BracedAll(ss)
  {
    if ss.Cons? {
      EnteredFirst(eval, ss.head, b, Then(ss.tail, b + Size(ss.head), k));
      EnteredAllFirst(eval, ss.tail, b + Size(ss.head), k);
    }
  }

  lemma {:induction false} NothingLost(eval: Evaluator, root: Stmt, x: nat)
    requires forall u, v :: Lost(eval, root, u, v) && InGraph(Env(0, eval), root, u) ==> InGraph(Env(0, eval), root, v)
    requires x != 0 && GetsTo(eval, root, x)
    ensures InGraph(Env(0, eval), root, x)
  {
    hide Goes, GetsTo, InGraph, GraphEdge;
    NoBlockZero(eval, root);
    var closed := iset y: nat | y == 0 || InGraph(Env(0, eval), root, y);
    forall u, v | u in closed && Goes(eval, root, u, v) ensures v in closed {
      GoesFromBlock(eval, root, u, v);
      if v != 0 && GraphEdge(eval, root, u, v) {
        FollowEdge(Env(0, eval), root, u, v);
      }
    }
    GetsToLeast(eval, root, x, closed);
  }

  lemma {:induction false} NothingInvented(eval: Evaluator, root: Stmt, x: nat)
    requires forall u, v :: Invented(eval, root, u, v) && GetsTo(eval, root, u) ==> GetsTo(eval, root, v)
    requires InGraph(Env(0, eval), root, x)
    ensures GetsTo(eval, root, x)
  {
    hide Goes, GetsTo, GraphEdge, HasEdge, Reachable, Built, Entered, Invented;
    NoBlockZero(eval, root);
    BuiltEdges(Env(0, eval), root);
    var g := Built(Env(0, eval), root);
    var closed := iset y: nat | GetsTo(eval, root, y);
    assert g.entry in closed by {
      EntryIsBlock(eval, root, x);
      GetsToFirst(eval, root, 1);
    }
    forall u: nat, v: nat | u in closed && HasEdge(g.blocks, u, v) ensures v in closed {
      EdgeOrInvented(eval, root, u, v);
      if Goes(eval, root, u, v) {
        GetsToNext(eval, root, u, v);
      }
    }
    ReachableLeast(g.blocks, g.entry, x, closed);
  }

  lemma {:induction false} EntryIsBlock(eval: Evaluator, root: Stmt, x: nat)
    requires InGraph(Env(0, eval), root, x)
    ensures Size(root) != 0
  {
    hide Built, IsPath;
    BuiltEdges(Env(0, eval), root);
  }

  lemma {:induction false} EdgeOrInvented(eval: Evaluator, root: Stmt, x: nat, y: nat)
    requires GraphEdge(eval, root, x, y)
    ensures Goes(eval, root, x, y) || Invented(eval, root, x, y)
  {
    hide GraphEdge, Goes;
  }
}
