/** Step semantics of a function body: how a run moves through the statement
    tree. It knows nothing of exits or edges. A condition that the evaluator gives
    a number goes that way; any other condition may go either way. */
module CfgSemantics {
  import opened Collections
  import opened Syntax
  import opened CfgFragments

  /** What remains to be done after the statement in hand. */
  datatype Kont =
    | Stop
    | Then(rest: Stmts, at: nat, k: Kont)       // the rest of a statement list
    | Again(loop: Stmt, at: nat, k: Kont)       // inside the body of `loop`
    | Leave(k: Kont)                            // inside a switch

  datatype State =
    | Run(s: Stmt, at: nat, k: Kont)            // about to execute `s`
    | Done(k: Kont)                             // the statement in hand completed
    | Breaking(k: Kont)
    | Continuing(k: Kont)

  /** A run may take the condition for true (`way`) or for false: a known number is
      true unless it is zero, and a number that is missing may be either. */
  predicate Possible(eval: Evaluator, cond: Option<Expr>, way: bool) {
    cond.None? || eval(cond.value).None? || (eval(cond.value).value != 0) == way
  }

  /** A run may go into the loop (`way`) or past it: a `for` without a condition
      is never left at its head. */
  predicate LoopPossible(eval: Evaluator, kind: LoopKind, cond: Option<Expr>, way: bool) {
    if kind.For? && cond.None? then way else Possible(eval, cond, way)
  }

  /** What the builder makes of a condition is what runs make of it. */
  lemma {:induction false} LoopTruthIsPossible(eval: Evaluator, kind: LoopKind, cond: Option<Expr>)
    ensures LoopTruth(eval, kind, cond).MayHold() <==> LoopPossible(eval, kind, cond, true)
    ensures LoopTruth(eval, kind, cond).MayFail() <==> LoopPossible(eval, kind, cond, false)
  {
  }

  /** No clause is taken for every value. */
  predicate Defaultless(cs: Clauses) { cs.End? || (!cs.isDefault && Defaultless(cs.rest)) }

  lemma {:induction false} DefaultOrNot(cs: Clauses)
    ensures HasDefault(cs) <==> !Defaultless(cs)
  {
    if cs.Clause? {
      DefaultOrNot(cs.rest);
    }
  }

  ghost predicate Step(eval: Evaluator, root: Stmt, from: State, to: State) {
    match from
    case Run(s, b, k) => StepRun(eval, root, s, b, k, to)
    case Done(k) => StepDone(eval, k, to)
    case Breaking(k) =>
      (match k
       case Stop => false
       case Then(_, _, k') => to == Breaking(k')
       case Again(_, _, k') => to == Done(k')
       case Leave(k') => to == Done(k'))
    case Continuing(k) =>
      (match k
       case Stop => false
       case Then(_, _, k') => to == Continuing(k')
       case Again(_, _, _) => to == Done(k)
       case Leave(k') => to == Continuing(k'))
  }

  ghost predicate StepRun(eval: Evaluator, root: Stmt, s: Stmt, b: nat, k: Kont, to: State) {
    match s
    case Braces(_, children) => to == Done(Then(children, b, k))
    case If(_, cond, c, a) =>
      || (Possible(eval, cond, true) && to == Enter(c, b + 1, k))
      || (Possible(eval, cond, false) && to == Enter(a, b + 1 + SizeOpt(c), k))
    case Switch(_, clauses) =>
      StepClauses(clauses, b + 1, k, to) || (Defaultless(clauses) && to == Done(k))
    case Loop(_, kind, cond, body) =>
      || ((kind.DoWhile? || LoopPossible(eval, kind, cond, true)) && to == Enter(body, b + 1, Again(s, b, k)))
      || (!kind.DoWhile? && LoopPossible(eval, kind, cond, false) && to == Done(k))
    case Return(_) => false
    case Break(_) => to == Breaking(k)
    case Continue(_) => to == Continuing(k)
    case GotoStmt(_, name) =>
      var target := FindLabel(root, 0, Stop, name);
      target.Some? && to == target.value
    case LabelStmt(_, _) => to == Done(k)
    case Simple(_, _) => to == Done(k)
  }

  /** A missing part does nothing. */
  ghost function Enter(o: Option<Stmt>, b: nat, k: Kont): State {
    if o.Some? then Run(o.value, b, k) else Done(k)
  }

  ghost predicate StepClauses(cs: Clauses, b: nat, k: Kont, to: State) {
    cs.Clause? && (to == Enter(cs.body, b, Leave(k)) || StepClauses(cs.rest, b + SizeOpt(cs.body), k, to))
  }

  /** The end of a statement: take up what remains. At the end of a loop body a
      `while` or `for` goes back to its head and a `do` tests its condition. */
  ghost predicate StepDone(eval: Evaluator, k: Kont, to: State) {
    match k
    case Stop => false
    case Then(rest, b, k') =>
      (match rest
       case Nil => to == Done(k')
       case Cons(s, more) => to == Run(s, b, Then(more, b + Size(s), k')))
    case Again(loop, b, k') =>
      loop.Loop? && (
      || ((!loop.kind.DoWhile? || LoopPossible(eval, loop.kind, loop.cond, true)) && to == Run(loop, b, k'))
      || (loop.kind.DoWhile? && LoopPossible(eval, loop.kind, loop.cond, false) && to == Done(k')))
    case Leave(k') => to == Done(k')
  }

  /** Where `goto name` lands: the first label of that name in reading order,
      with what remains to be done after it. */
  ghost function FindLabel(s: Stmt, b: nat, k: Kont, name: string): Option<State> {
    match s
    case Braces(_, children) => FindLabelAll(children, b, k, name)
    case If(_, _, c, a) =>
      Or(FindLabelOpt(c, b + 1, k, name), FindLabelOpt(a, b + 1 + SizeOpt(c), k, name))
    case Switch(_, clauses) => FindLabelClauses(clauses, b + 1, Leave(k), name)
    case Loop(_, _, _, body) => FindLabelOpt(body, b + 1, Again(s, b, k), name)
    case LabelStmt(_, n) => if n == name && name != "" then Some(Run(s, b, k)) else None
    case _ => None
  }

  ghost function FindLabelOpt(o: Option<Stmt>, b: nat, k: Kont, name: string): Option<State> {
    if o.Some? then FindLabel(o.value, b, k, name) else None
  }

  ghost function FindLabelAll(ss: Stmts, b: nat, k: Kont, name: string): Option<State> {
    match ss
    case Nil => None
    case Cons(s, rest) =>
      Or(FindLabel(s, b, Then(rest, b + Size(s), k), name), FindLabelAll(rest, b + Size(s), k, name))
  }

  ghost function FindLabelClauses(cs: Clauses, b: nat, k: Kont, name: string): Option<State> {
    match cs
    case End => None
    case Clause(_, body, rest) =>
      Or(FindLabelOpt(body, b, k, name), FindLabelClauses(rest, b + SizeOpt(body), k, name))
  }

  ghost predicate IsRun(eval: Evaluator, root: Stmt, run: seq<State>) {
    && run != []
    && run[0] == Run(root, 0, Stop)
    && forall i :: 0 <= i < |run| - 1 ==> Step(eval, root, run[i], run[i + 1])
  }

  /** Some run of the body gets to this state. */
  ghost predicate Reached(eval: Evaluator, root: Stmt, state: State) {
    exists run :: IsRun(eval, root, run) && run[|run| - 1] == state
  }

  /** Some run executes the statement whose block is `x`: the x-th statement of
      the body in reading order, braces not counted. */
  ghost predicate Executed(eval: Evaluator, root: Stmt, x: nat) {
    exists s: Stmt, b: nat, k: Kont :: !s.Braces? && x == b + 1 && Reached(eval, root, Run(s, b, k))
  }

  /** Some run completes the body normally. */
  ghost predicate Completes(eval: Evaluator, root: Stmt) {
    Reached(eval, root, Done(Stop))
  }

  lemma {:induction false} ReachedStart(eval: Evaluator, root: Stmt)
    ensures Reached(eval, root, Run(root, 0, Stop))
  {
    assert IsRun(eval, root, [Run(root, 0, Stop)]);
  }

  lemma {:induction false} ReachedStep(eval: Evaluator, root: Stmt, from: State, to: State)
    requires Reached(eval, root, from) && Step(eval, root, from, to)
    ensures Reached(eval, root, to)
  {
    var run :| IsRun(eval, root, run) && run[|run| - 1] == from;
    var longer := run + [to];
    forall i | 0 <= i < |longer| - 1 ensures Step(eval, root, longer[i], longer[i + 1]) {
      if i < |run| - 1 {
        assert longer[i] == run[i] && longer[i + 1] == run[i + 1];
      }
    }
    assert IsRun(eval, root, longer);
  }

  /** A jump target is a label statement at the block that the label table gives. */
  ghost predicate Agrees(target: Option<State>, labels: map<string, nat>, name: string, inside: bool) {
    && (target.Some? <==> name in labels)
    && (target.Some? ==>
          && inside
          && target.value.Run? && target.value.s.LabelStmt?
          && target.value.at + 1 == labels[name])
  }

  lemma {:induction false} LabelAgrees(s: Stmt, b: nat, k: Kont, name: string)
    ensures Agrees(FindLabel(s, b, k, name), Labels(s, b), name, HasLabel(s))
    decreases s
  {
    match s
    case Braces(_, children) => LabelAgreesAll(children, b, k, name);
    case If(_, _, c, a) =>
      if c.Some? { LabelAgrees(c.value, b + 1, k, name); }
      if a.Some? { LabelAgrees(a.value, b + 1 + SizeOpt(c), k, name); }
    case Switch(_, clauses) => LabelAgreesClauses(clauses, b + 1, Leave(k), name);
    case Loop(_, _, _, body) =>
      if body.Some? { LabelAgrees(body.value, b + 1, Again(s, b, k), name); }
    case _ =>
  }

  lemma {:induction false} LabelAgreesAll(ss: Stmts, b: nat, k: Kont, name: string)
    ensures Agrees(FindLabelAll(ss, b, k, name), LabelsAll(ss, b), name, HasLabelAll(ss))
    decreases ss
  {
    if ss.Cons? {
      LabelAgrees(ss.head, b, Then(ss.tail, b + Size(ss.head), k), name);
      LabelAgreesAll(ss.tail, b + Size(ss.head), k, name);
    }
  }

  lemma {:induction false} LabelAgreesClauses(cs: Clauses, b: nat, k: Kont, name: string)
    ensures Agrees(FindLabelClauses(cs, b, k, name), LabelsClauses(cs, b), name, HasLabelClauses(cs))
    decreases cs
  {
    if cs.Clause? {
      if cs.body.Some? { LabelAgrees(cs.body.value, b, k, name); }
      LabelAgreesClauses(cs.rest, b + SizeOpt(cs.body), k, name);
    }
  }
}
