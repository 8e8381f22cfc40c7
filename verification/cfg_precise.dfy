/** Every reachable block is executed by some run: each edge of the graph is a
    way that control can really go. */
module CfgPrecise {
  import opened Collections
  import opened Syntax
  import opened CfgFragments
  import opened CfgSemantics

  /** No `if` lacks its first arm while its condition is known to fail and it has
      an `else`: the builder would then let control skip the `else`. */
  predicate WholeIfs(eval: Evaluator, s: Stmt) {
    match s
    case Braces(_, children) => WholeIfsAll(eval, children)
    case If(_, cond, c, a) =>
      && (c.None? && a.Some? ==> CondTruth(eval, cond).MayHold())
      && (c.Some? ==> WholeIfs(eval, c.value))
      && (a.Some? ==> WholeIfs(eval, a.value))
    case Switch(_, clauses) => WholeIfsClauses(eval, clauses)
    case Loop(_, _, _, body) => body.Some? ==> WholeIfs(eval, body.value)
    case _ => true
  }

  predicate WholeIfsAll(eval: Evaluator, ss: Stmts) {
    ss.Cons? ==> WholeIfs(eval, ss.head) && WholeIfsAll(eval, ss.tail)
  }

  predicate WholeIfsClauses(eval: Evaluator, cs: Clauses) {
    cs.Clause? ==> (cs.body.Some? ==> WholeIfs(eval, cs.body.value)) && WholeIfsClauses(eval, cs.rest)
  }

  /** The statement of block `x`, with what remains to be done after it. */
  ghost function Find(s: Stmt, b: nat, k: Kont, x: nat): Option<State> {
    match s
    case Braces(_, children) => FindAll(children, b, k, x)
    case If(_, _, c, a) =>
      if x == b + 1 then Some(Run(s, b, k))
      else if x <= b + 1 + SizeOpt(c) then FindOpt(c, b + 1, k, x)
      else FindOpt(a, b + 1 + SizeOpt(c), k, x)
    case Switch(_, clauses) =>
      if x == b + 1 then Some(Run(s, b, k)) else FindClauses(clauses, b + 1, k, x)
    case Loop(_, _, _, body) =>
      if x == b + 1 then Some(Run(s, b, k)) else FindOpt(body, b + 1, Again(s, b, k), x)
    case _ => if x == b + 1 then Some(Run(s, b, k)) else None
  }

  ghost function FindOpt(o: Option<Stmt>, b: nat, k: Kont, x: nat): Option<State> {
    if o.Some? then Find(o.value, b, k, x) else None
  }

  ghost function FindAll(ss: Stmts, b: nat, k: Kont, x: nat): Option<State> {
    match ss
    case Nil => None
    case Cons(s, rest) =>
      if x <= b + Size(s) then Find(s, b, Then(rest, b + Size(s), k), x) else FindAll(rest, b + Size(s), k, x)
  }

  ghost function FindClauses(cs: Clauses, b: nat, k: Kont, x: nat): Option<State> {
    match cs
    case End => None
    case Clause(_, body, rest) =>
      if x <= b + SizeOpt(body) then FindOpt(body, b, Leave(k), x) else FindClauses(rest, b + SizeOpt(body), k, x)
  }

  /** Exactly the blocks of a statement are found in it. */
  ghost predicate FoundAt(found: Option<State>, x: nat) {
    found.Some? && found.value.Run? && !found.value.s.Braces? && found.value.at + 1 == x
  }

  lemma {:induction false} FindInRange(s: Stmt, b: nat, k: Kont, x: nat)
    requires b < x
    ensures if x <= b + Size(s) then FoundAt(Find(s, b, k, x), x) else Find(s, b, k, x) == None
    decreases s
  {
    match s
    case Braces(_, children) => FindAllInRange(children, b, k, x);
    case If(_, _, c, a) =>
      if c.Some? && b + 1 < x { FindInRange(c.value, b + 1, k, x); }
      if a.Some? && b + 1 + SizeOpt(c) < x { FindInRange(a.value, b + 1 + SizeOpt(c), k, x); }
      assert Size(s) == 1 + SizeOpt(c) + SizeOpt(a);
    case Switch(_, clauses) =>
      assert Size(s) == 1 + SizeClauses(clauses);
      if b + 1 < x { FindClausesInRange(clauses, b + 1, k, x); }
    case Loop(_, _, _, body) =>
      assert Size(s) == 1 + SizeOpt(body);
      if body.Some? && b + 1 < x { FindInRange(body.value, b + 1, Again(s, b, k), x); }
    case _ =>
  }

  lemma {:induction false} FindAllInRange(ss: Stmts, b: nat, k: Kont, x: nat)
    requires b < x
    ensures if x <= b + SizeAll(ss) then FoundAt(FindAll(ss, b, k, x), x) else FindAll(ss, b, k, x) == None
    decreases ss
  {
    if ss.Cons? {
      FindInRange(ss.head, b, Then(ss.tail, b + Size(ss.head), k), x);
      if b + Size(ss.head) < x { FindAllInRange(ss.tail, b + Size(ss.head), k, x); }
    }
  }

  lemma {:induction false} FindClausesInRange(cs: Clauses, b: nat, k: Kont, x: nat)
    requires b < x
    ensures if x <= b + SizeClauses(cs) then FoundAt(FindClauses(cs, b, k, x), x) else FindClauses(cs, b, k, x) == None
    decreases cs
  {
    if cs.Clause? {
      if cs.body.Some? { FindInRange(cs.body.value, b, Leave(k), x); }
      if b + SizeOpt(cs.body) < x { FindClausesInRange(cs.rest, b + SizeOpt(cs.body), k, x); }
    }
  }

  /** `s` at `b` with `k` to follow is what the body has at those blocks. */
  ghost predicate Within(root: Stmt, s: Stmt, b: nat, k: Kont) {
    forall x :: b < x <= b + Size(s) ==> Find(root, 0, Stop, x) == Find(s, b, k, x)
  }

  ghost predicate WithinAll(root: Stmt, ss: Stmts, b: nat, k: Kont) {
    forall x :: b < x <= b + SizeAll(ss) ==> Find(root, 0, Stop, x) == FindAll(ss, b, k, x)
  }

  ghost predicate WithinClauses(root: Stmt, cs: Clauses, b: nat, k: Kont) {
    forall x :: b < x <= b + SizeClauses(cs) ==> Find(root, 0, Stop, x) == FindClauses(cs, b, k, x)
  }

  ghost predicate WithinKont(root: Stmt, k: Kont) {
    match k
    case Stop => true
    case Then(rest, b, k') => WithinAll(root, rest, b, k') && WithinKont(root, k')
    case Again(loop, b, k') => loop.Loop? && Within(root, loop, b, k') && WithinKont(root, k')
    case Leave(k') => WithinKont(root, k')
  }

  ghost predicate WithinState(root: Stmt, state: State) {
    WithinKont(root, state.k) && (state.Run? ==> Within(root, state.s, state.at, state.k))
  }

  /** Block `x` is executed, told by the one state that can execute it. */
  ghost predicate Live(eval: Evaluator, root: Stmt, x: nat) {
    var state := Find(root, 0, Stop, x);
    state.Some? && 0 < x <= Size(root) && Reached(eval, root, state.value)
  }

  lemma {:induction false} WithinArms(root: Stmt, s: Stmt, b: nat, k: Kont)
    requires s.If? && Within(root, s, b, k)
    ensures s.consequence.Some? ==> Within(root, s.consequence.value, b + 1, k)
    ensures s.alternative.Some? ==> Within(root, s.alternative.value, b + 1 + SizeOpt(s.consequence), k)
  {
    forall x | b + 1 < x <= b + Size(s)
      ensures Find(root, 0, Stop, x) ==
              if x <= b + 1 + SizeOpt(s.consequence) then FindOpt(s.consequence, b + 1, k, x)
              else FindOpt(s.alternative, b + 1 + SizeOpt(s.consequence), k, x)
    {
      assert Find(root, 0, Stop, x) == Find(s, b, k, x);
    }
    if s.consequence.Some? {
      WithinPart(root, s.consequence, b + 1, k);
    }
    if s.alternative.Some? {
      WithinPart(root, s.alternative, b + 1 + SizeOpt(s.consequence), k);
    }
  }

  lemma {:induction false} WithinPart(root: Stmt, o: Option<Stmt>, b: nat, k: Kont)
    requires o.Some? && forall x :: b < x <= b + SizeOpt(o) ==> Find(root, 0, Stop, x) == FindOpt(o, b, k, x)
    ensures Within(root, o.value, b, k)
  {
    forall x | b < x <= b + Size(o.value) ensures Find(root, 0, Stop, x) == Find(o.value, b, k, x) {
      assert Find(root, 0, Stop, x) == FindOpt(o, b, k, x);
    }
  }

  lemma {:induction false} WithinBody(root: Stmt, s: Stmt, b: nat, k: Kont)
    requires s.Loop? && s.body.Some? && Within(root, s, b, k)
    ensures Within(root, s.body.value, b + 1, Again(s, b, k))
  {
    var body := s.body.value;
    assert Size(s) == 1 + Size(body);
    forall x | b + 1 < x <= b + 1 + Size(body)
      ensures Find(root, 0, Stop, x) == Find(body, b + 1, Again(s, b, k), x)
    {
      assert Find(s, b, k, x) == FindOpt(s.body, b + 1, Again(s, b, k), x);
    }
  }

  lemma {:induction false} WithinSwitch(root: Stmt, s: Stmt, b: nat, k: Kont)
    requires s.Switch? && Within(root, s, b, k)
    ensures WithinClauses(root, s.clauses, b + 1, k)
  {
    forall x | b + 1 < x <= b + 1 + SizeClauses(s.clauses)
      ensures Find(root, 0, Stop, x) == FindClauses(s.clauses, b + 1, k, x)
    {
      assert Find(s, b, k, x) == FindClauses(s.clauses, b + 1, k, x);
    }
  }

  lemma {:induction false} WithinClause(root: Stmt, cs: Clauses, b: nat, k: Kont)
    requires cs.Clause? && WithinClauses(root, cs, b, k)
    ensures cs.body.Some? ==> Within(root, cs.body.value, b, Leave(k))
    ensures WithinClauses(root, cs.rest, b + SizeOpt(cs.body), k)
  {
    forall x | cs.body.Some? && b < x <= b + Size(cs.body.value)
      ensures Find(root, 0, Stop, x) == Find(cs.body.value, b, Leave(k), x)
    {
      assert FindClauses(cs, b, k, x) == FindOpt(cs.body, b, Leave(k), x);
    }
  }

  lemma {:induction false} JumpWithin(root: Stmt, s: Stmt, b: nat, k: Kont, name: string)
    requires Within(root, s, b, k) && WithinKont(root, k) && FindLabel(s, b, k, name).Some?
    ensures WithinState(root, FindLabel(s, b, k, name).value)
    decreases s
  {
    match s
    case Braces(_, children) => JumpWithinAll(root, children, b, k, name);
    case If(_, _, c, a) =>
      WithinArms(root, s, b, k);
      if FindLabelOpt(c, b + 1, k, name).Some? {
        JumpWithin(root, c.value, b + 1, k, name);
      } else {
        JumpWithin(root, a.value, b + 1 + SizeOpt(c), k, name);
      }
    case Switch(_, clauses) =>
      WithinSwitch(root, s, b, k);
      JumpWithinClauses(root, clauses, b + 1, k, name);
    case Loop(_, _, _, body) =>
      WithinBody(root, s, b, k);
      JumpWithin(root, body.value, b + 1, Again(s, b, k), name);
    case _ =>
  }

  lemma {:induction false} JumpWithinAll(root: Stmt, ss: Stmts, b: nat, k: Kont, name: string)
    requires WithinAll(root, ss, b, k) && WithinKont(root, k) && FindLabelAll(ss, b, k, name).Some?
    ensures WithinState(root, FindLabelAll(ss, b, k, name).value)
    decreases ss
  {
    var s, rest := ss.head, ss.tail;
    var next := Then(rest, b + Size(s), k);
    SplitAll(root, s, rest, b, k);
    if FindLabel(s, b, next, name).Some? {
      JumpWithin(root, s, b, next, name);
    } else {
      JumpWithinAll(root, rest, b + Size(s), k, name);
    }
  }

  lemma {:induction false} JumpWithinClauses(root: Stmt, cs: Clauses, b: nat, k: Kont, name: string)
    requires WithinClauses(root, cs, b, k) && WithinKont(root, k) && FindLabelClauses(cs, b, Leave(k), name).Some?
    ensures WithinState(root, FindLabelClauses(cs, b, Leave(k), name).value)
    decreases cs
  {
    WithinClause(root, cs, b, k);
    if FindLabelOpt(cs.body, b, Leave(k), name).Some? {
      JumpWithin(root, cs.body.value, b, Leave(k), name);
    } else {
      JumpWithinClauses(root, cs.rest, b + SizeOpt(cs.body), k, name);
    }
  }

  lemma {:induction false} SplitAll(root: Stmt, s: Stmt, rest: Stmts, b: nat, k: Kont)
    requires WithinAll(root, Cons(s, rest), b, k)
    ensures Within(root, s, b, Then(rest, b + Size(s), k))
    ensures WithinAll(root, rest, b + Size(s), k)
  {
  }

  lemma {:induction false} ClausesWithin(root: Stmt, cs: Clauses, b: nat, k: Kont, to: State)
    requires WithinClauses(root, cs, b, k) && WithinKont(root, k) && StepClauses(cs, b, k, to)
    ensures WithinState(root, to)
  {
    WithinClause(root, cs, b, k);
    if to != Enter(cs.body, b, Leave(k)) {
      ClausesWithin(root, cs.rest, b + SizeOpt(cs.body), k, to);
    }
  }

  lemma {:induction false} StepWithin(eval: Evaluator, root: Stmt, from: State, to: State)
    requires WithinState(root, from) && Step(eval, root, from, to)
    ensures WithinState(root, to)
  {
    match from
    case Run(s, b, k) =>
      if s.GotoStmt? {
        JumpWithin(root, root, 0, Stop, s.name);
      } else if s.If? {
        WithinArms(root, s, b, k);
      } else if s.Loop? && s.body.Some? {
        WithinBody(root, s, b, k);
      } else if s.Switch? {
        WithinSwitch(root, s, b, k);
        if StepClauses(s.clauses, b + 1, k, to) {
          ClausesWithin(root, s.clauses, b + 1, k, to);
        }
      }
    case Done(k) =>
      if k.Then? && k.rest.Cons? {
        SplitAll(root, k.rest.head, k.rest.tail, k.at, k.k);
      }
    case Breaking(k) =>
    case Continuing(k) =>
  }

  lemma {:induction false} RunWithin(eval: Evaluator, root: Stmt, run: seq<State>, i: nat)
    requires IsRun(eval, root, run) && i < |run|
    ensures WithinState(root, run[i])
  {
    if i != 0 {
      RunWithin(eval, root, run, i - 1);
      StepWithin(eval, root, run[i - 1], run[i]);
    }
  }

  /** A block is executed by the one statement that the body has there. */
  lemma {:induction false} ExecutedIsLive(eval: Evaluator, root: Stmt, x: nat)
    ensures Executed(eval, root, x) <==> Live(eval, root, x)
  {
    if Live(eval, root, x) {
      FindInRange(root, 0, Stop, x);
      var state := Find(root, 0, Stop, x).value;
      assert Reached(eval, root, Run(state.s, state.at, state.k));
    }
    if Executed(eval, root, x) {
      var s: Stmt, b: nat, k: Kont :| !s.Braces? && x == b + 1 && Reached(eval, root, Run(s, b, k));
      var run :| IsRun(eval, root, run) && run[|run| - 1] == Run(s, b, k);
      RunWithin(eval, root, run, |run| - 1);
      assert Find(s, b, k, x) == Some(Run(s, b, k));
      FindInRange(root, 0, Stop, x);
    }
  }

  // ---- Every edge is a way that control can go ----

  /** Coming to a statement executes its first block, or passes straight through. */
  lemma {:induction false} FirstBlockLive(eval: Evaluator, root: Stmt, s: Stmt, b: nat, k: Kont)
    requires Reached(eval, root, Run(s, b, k)) && Within(root, s, b, k)
    ensures Size(s) != 0 ==> Live(eval, root, b + 1)
    ensures Size(s) == 0 ==> Reached(eval, root, Done(k))
    decreases s
  {
    if s.Braces? {
      ReachedStep(eval, root, Run(s, b, k), Done(Then(s.children, b, k)));
      assert WithinAll(root, s.children, b, k);
      FirstOfListLive(eval, root, s.children, b, k);
    } else {
      assert Find(s, b, k, b + 1) == Some(Run(s, b, k));
      ExecutedIsLive(eval, root, b + 1);
    }
  }

  lemma {:induction false} FirstOfListLive(eval: Evaluator, root: Stmt, ss: Stmts, b: nat, k: Kont)
    requires Reached(eval, root, Done(Then(ss, b, k))) && WithinAll(root, ss, b, k)
    ensures SizeAll(ss) != 0 ==> Live(eval, root, b + 1)
    ensures SizeAll(ss) == 0 ==> Reached(eval, root, Done(k))
    decreases ss
  {
    match ss
    case Nil => ReachedStep(eval, root, Done(Then(ss, b, k)), Done(k));
    case Cons(s, rest) =>
      var next := Then(rest, b + Size(s), k);
      ReachedStep(eval, root, Done(Then(ss, b, k)), Run(s, b, next));
      SplitAll(root, s, rest, b, k);
      FirstBlockLive(eval, root, s, b, next);
      if Size(s) == 0 {
        FirstOfListLive(eval, root, rest, b, k);
      }
  }

  /** From each live end of the fragment, control reaches the matching state. */
  ghost predicate EndsReach(eval: Evaluator, root: Stmt, f: Fragment, k: Kont, resume: Kont) {
    && (forall x :: x in f.exits && Live(eval, root, x) ==> Reached(eval, root, Done(resume)))
    && (forall x :: x in f.breaks && Live(eval, root, x) ==> Reached(eval, root, Breaking(k)))
    && (forall x :: x in f.continues && Live(eval, root, x) ==> Reached(eval, root, Continuing(k)))
  }

  ghost predicate EdgesLive(eval: Evaluator, root: Stmt, s: Stmt, b: nat) {
    forall x, y :: Edge(eval, Labels(root, 0), s, b, x, y) && Live(eval, root, x) ==> Live(eval, root, y)
  }

  ghost predicate Precise(eval: Evaluator, root: Stmt, s: Stmt, b: nat, k: Kont) {
    EndsReach(eval, root, Frag(eval, s, b), k, k) && EdgesLive(eval, root, s, b)
  }

  /** What is live at its own block has been reached with its own continuation. */
  lemma {:induction false} LiveHere(eval: Evaluator, root: Stmt, s: Stmt, b: nat, k: Kont)
    requires !s.Braces? && Within(root, s, b, k) && Live(eval, root, b + 1)
    ensures Reached(eval, root, Run(s, b, k))
  {
    assert Find(s, b, k, b + 1) == Some(Run(s, b, k));
  }

  lemma {:induction false} PreciseStmt(eval: Evaluator, root: Stmt, s: Stmt, b: nat, k: Kont)
    requires Within(root, s, b, k) && WholeIfs(eval, s)
    ensures Precise(eval, root, s, b, k)
    decreases s
  {
    if !s.Braces? && Live(eval, root, b + 1) {
      LiveHere(eval, root, s, b, k);
    }
    match s
    case Braces(_, children) =>
      PreciseAll(eval, root, children, b, NOTHING, k);
    case If(_, _, _, _) => PreciseIf(eval, root, s, b, k);
    case Switch(_, clauses) => PreciseSwitch(eval, root, s, b, k);
    case Loop(_, _, _, _) => PreciseLoop(eval, root, s, b, k);
    case Return(_) =>
    case Break(_) => StepIfLive(eval, root, s, b, k, Breaking(k));
    case Continue(_) => StepIfLive(eval, root, s, b, k, Continuing(k));
    case GotoStmt(_, name) => PreciseGoto(eval, root, s, b, k);
    case LabelStmt(_, _) => StepIfLive(eval, root, s, b, k, Done(k));
    case Simple(_, _) => StepIfLive(eval, root, s, b, k, Done(k));
  }

  lemma {:induction false} StepIfLive(eval: Evaluator, root: Stmt, s: Stmt, b: nat, k: Kont, to: State)
    requires !s.Braces? && Within(root, s, b, k) && StepRun(eval, root, s, b, k, to)
    ensures Live(eval, root, b + 1) ==> Reached(eval, root, to)
  {
    if Live(eval, root, b + 1) {
      LiveHere(eval, root, s, b, k);
      ReachedStep(eval, root, Run(s, b, k), to);
    }
  }

  lemma {:induction false} PreciseGoto(eval: Evaluator, root: Stmt, s: Stmt, b: nat, k: Kont)
    requires s.GotoStmt? && Within(root, s, b, k)
    ensures Precise(eval, root, s, b, k)
  {
    if s.name in Labels(root, 0) && Live(eval, root, b + 1) {
      LabelAgrees(root, 0, Stop, s.name);
      var to := FindLabel(root, 0, Stop, s.name).value;
      StepIfLive(eval, root, s, b, k, to);
      JumpWithin(root, root, 0, Stop, s.name);
      FirstBlockLive(eval, root, to.s, to.at, to.k);
    }
  }

  lemma {:induction false} PreciseAll(eval: Evaluator, root: Stmt, ss: Stmts, b: nat, acc: Fragment, k: Kont)
    requires WithinAll(root, ss, b, k) && WholeIfsAll(eval, ss)
    requires EndsReach(eval, root, acc, k, Then(ss, b, k))
    ensures EndsReach(eval, root, FragAll(eval, ss, b, acc), k, k)
    ensures forall x, y :: SeqEdge(eval, Labels(root, 0), ss, b, acc, x, y) && Live(eval, root, x) ==> Live(eval, root, y)
    decreases ss
  {
    match ss
    case Nil =>
      if Reached(eval, root, Done(Then(ss, b, k))) {
        ReachedStep(eval, root, Done(Then(ss, b, k)), Done(k));
      }
    case Cons(s, rest) =>
      SplitAll(root, s, rest, b, k);
      PreciseStmt(eval, root, s, b, Then(rest, b + Size(s), k));
      JoinReaches(eval, root, s, rest, b, acc, k);
      PreciseAll(eval, root, rest, b + Size(s), Join(acc, Frag(eval, s, b), s.LabelStmt?), k);
  }

  /** One more statement of a list: the exits so far lead into it. */
  lemma {:induction false} JoinReaches(eval: Evaluator, root: Stmt, s: Stmt, rest: Stmts, b: nat, acc: Fragment, k: Kont)
    requires Within(root, s, b, Then(rest, b + Size(s), k))
    requires EndsReach(eval, root, Frag(eval, s, b), Then(rest, b + Size(s), k), Then(rest, b + Size(s), k))
    requires EndsReach(eval, root, acc, k, Then(Cons(s, rest), b, k))
    ensures EndsReach(eval, root, Join(acc, Frag(eval, s, b), s.LabelStmt?), k, Then(rest, b + Size(s), k))
    ensures forall x :: x in acc.exits && Live(eval, root, x) && Frag(eval, s, b).entry != 0
                        ==> Live(eval, root, Frag(eval, s, b).entry)
  {
    hide Live, Within;
    StatementEnds(eval, root, s, rest, b, k);
    JoinEnds(eval, root, s, b, acc, k, Then(Cons(s, rest), b, k), Then(rest, b + Size(s), k));
  }

  /** How control leaves a statement of a list, and how it enters it. */
  lemma {:induction false} StatementEnds(eval: Evaluator, root: Stmt, s: Stmt, rest: Stmts, b: nat, k: Kont)
    requires Within(root, s, b, Then(rest, b + Size(s), k))
    ensures var here, next := Then(Cons(s, rest), b, k), Then(rest, b + Size(s), k);
            && (Reached(eval, root, Breaking(next)) ==> Reached(eval, root, Breaking(k)))
            && (Reached(eval, root, Continuing(next)) ==> Reached(eval, root, Continuing(k)))
            && (Reached(eval, root, Done(here)) ==>
                  if Size(s) == 0 then Reached(eval, root, Done(next)) else Live(eval, root, b + 1))
  {
    hide Live, Within;
    var here, next := Then(Cons(s, rest), b, k), Then(rest, b + Size(s), k);
    if Reached(eval, root, Done(here)) {
      ReachedStep(eval, root, Done(here), Run(s, b, next));
      FirstBlockLive(eval, root, s, b, next);
    }
    if Reached(eval, root, Breaking(next)) {
      ReachedStep(eval, root, Breaking(next), Breaking(k));
    }
    if Reached(eval, root, Continuing(next)) {
      ReachedStep(eval, root, Continuing(next), Continuing(k));
    }
  }

  lemma {:induction false} JoinEnds(eval: Evaluator, root: Stmt, s: Stmt, b: nat, acc: Fragment, k: Kont, here: Kont, next: Kont)
    requires Reached(eval, root, Breaking(next)) ==> Reached(eval, root, Breaking(k))
    requires Reached(eval, root, Continuing(next)) ==> Reached(eval, root, Continuing(k))
    requires Reached(eval, root, Done(here)) ==>
               if Size(s) == 0 then Reached(eval, root, Done(next)) else Live(eval, root, b + 1)
    requires EndsReach(eval, root, Frag(eval, s, b), next, next)
    requires EndsReach(eval, root, acc, k, here)
    ensures EndsReach(eval, root, Join(acc, Frag(eval, s, b), s.LabelStmt?), k, next)
    ensures forall x :: x in acc.exits && Live(eval, root, x) && Frag(eval, s, b).entry != 0
                        ==> Live(eval, root, Frag(eval, s, b).entry)
  {
    hide Live, Reached;
    EntryIsFirstBlock(eval, s, b);
  }

  lemma {:induction false} PreciseIf(eval: Evaluator, root: Stmt, s: Stmt, b: nat, k: Kont)
    requires s.If? && Within(root, s, b, k) && WholeIfs(eval, s)
    ensures Precise(eval, root, s, b, k)
    decreases s, 0
  {
    hide Live, Within, EndsReach, EdgesLive;
    var c, a, b' := s.consequence, s.alternative, b + 1 + SizeOpt(s.consequence);
    var t := CondTruth(eval, s.cond);
    WithinArms(root, s, b, k);
    if c.Some? {
      PreciseStmt(eval, root, c.value, b + 1, k);
    }
    if a.Some? {
      PreciseStmt(eval, root, a.value, b', k);
    }
    if t.MayHold() {
      EnterLive(eval, root, s, b, k, c, b + 1, k);
    }
    if t.MayFail() {
      EnterLive(eval, root, s, b, k, a, b', k);
    }
    NoEnds(eval, root, k);
    IfEnds(eval, root, s, b, k);
    IfEdges(eval, root, s, b);
  }

  lemma {:induction false} NoEnds(eval: Evaluator, root: Stmt, k: Kont)
    ensures EndsReach(eval, root, NOTHING, k, k)
  {
  }

  lemma {:induction false} IfEnds(eval: Evaluator, root: Stmt, s: Stmt, b: nat, k: Kont)
    requires s.If? && WholeIfs(eval, s)
    requires EndsReach(eval, root, FragOpt(eval, s.consequence, b + 1), k, k)
    requires EndsReach(eval, root, FragOpt(eval, s.alternative, b + 1 + SizeOpt(s.consequence)), k, k)
    requires Live(eval, root, b + 1) && CondTruth(eval, s.cond).MayHold() && s.consequence.None? ==> Reached(eval, root, Done(k))
    requires Live(eval, root, b + 1) && CondTruth(eval, s.cond).MayFail() && s.alternative.None? ==> Reached(eval, root, Done(k))
    ensures EndsReach(eval, root, Frag(eval, s, b), k, k)
  {
  }

  lemma {:induction false} IfEdges(eval: Evaluator, root: Stmt, s: Stmt, b: nat)
    requires s.If?
    requires s.consequence.Some? ==> EdgesLive(eval, root, s.consequence.value, b + 1)
    requires s.alternative.Some? ==> EdgesLive(eval, root, s.alternative.value, b + 1 + SizeOpt(s.consequence))
    requires var entry := FragOpt(eval, s.consequence, b + 1).entry;
             Live(eval, root, b + 1) && CondTruth(eval, s.cond).MayHold() && entry != 0 ==> Live(eval, root, entry)
    requires var entry := FragOpt(eval, s.alternative, b + 1 + SizeOpt(s.consequence)).entry;
             Live(eval, root, b + 1) && CondTruth(eval, s.cond).MayFail() && entry != 0 ==> Live(eval, root, entry)
    ensures EdgesLive(eval, root, s, b)
  {
  }

  /** A part that a live statement may enter is entered at its first block. */
  lemma {:induction false} EnterLive(eval: Evaluator, root: Stmt, s: Stmt, b: nat, k: Kont, part: Option<Stmt>, pb: nat, pk: Kont)
    requires !s.Braces? && Within(root, s, b, k) && StepRun(eval, root, s, b, k, Enter(part, pb, pk))
    requires part.Some? ==> Within(root, part.value, pb, pk)
    ensures Live(eval, root, b + 1) && FragOpt(eval, part, pb).entry != 0 ==> Live(eval, root, FragOpt(eval, part, pb).entry)
    ensures Live(eval, root, b + 1) && FragOpt(eval, part, pb).entry == 0 ==> Reached(eval, root, Done(pk))
  {
    StepIfLive(eval, root, s, b, k, Enter(part, pb, pk));
    if part.Some? {
      EntryIsFirstBlock(eval, part.value, pb);
      if Live(eval, root, b + 1) {
        FirstBlockLive(eval, root, part.value, pb, pk);
      }
    }
  }

  lemma {:induction false} PreciseLoop(eval: Evaluator, root: Stmt, s: Stmt, b: nat, k: Kont)
    requires s.Loop? && Within(root, s, b, k) && WholeIfs(eval, s)
    ensures Precise(eval, root, s, b, k)
    decreases s, 0
  {
    hide Live, Within, EndsReach, EdgesLive, LoopTruth;
    var t := LoopTruth(eval, s.kind, s.cond);
    var again := Again(s, b, k);
    LoopTruthIsPossible(eval, s.kind, s.cond);
    LoopEnd(eval, root, s, b, k);
    if s.body.Some? {
      WithinBody(root, s, b, k);
      PreciseStmt(eval, root, s.body.value, b + 1, again);
    }
    if s.kind.DoWhile? || t.MayHold() {
      EnterLive(eval, root, s, b, k, s.body, b + 1, again);
    }
    if !s.kind.DoWhile? && t.MayFail() {
      StepIfLive(eval, root, s, b, k, Done(k));
    }
    LoopEnds(eval, root, s, b, k);
    LoopEdgesAreLive(eval, root, s, b, k);
  }

  lemma {:induction false} LoopEnds(eval: Evaluator, root: Stmt, s: Stmt, b: nat, k: Kont)
    requires s.Loop?
    requires s.body.Some? ==> EndsReach(eval, root, Frag(eval, s.body.value, b + 1), Again(s, b, k), Again(s, b, k))
    requires
      var t, again := LoopTruth(eval, s.kind, s.cond), Again(s, b, k);
      && (Reached(eval, root, Continuing(again)) ==> Reached(eval, root, Done(again)))
      && (Reached(eval, root, Breaking(again)) ==> Reached(eval, root, Done(k)))
      && (Reached(eval, root, Done(again)) && s.kind.DoWhile? && t.MayFail() ==> Reached(eval, root, Done(k)))
      && (Live(eval, root, b + 1) && !s.kind.DoWhile? && t.MayFail() ==> Reached(eval, root, Done(k)))
      && (Live(eval, root, b + 1) && s.kind.DoWhile? && s.body.None? ==> Reached(eval, root, Done(again)))
    ensures EndsReach(eval, root, Frag(eval, s, b), k, k)
  {
    hide Live, LoopTruth, Reached;
  }

  lemma {:induction false} LoopEdgesAreLive(eval: Evaluator, root: Stmt, s: Stmt, b: nat, k: Kont)
    requires s.Loop?
    requires s.body.Some? ==> EdgesLive(eval, root, s.body.value, b + 1)
    requires s.body.Some? ==> EndsReach(eval, root, Frag(eval, s.body.value, b + 1), Again(s, b, k), Again(s, b, k))
    requires
      var t, again := LoopTruth(eval, s.kind, s.cond), Again(s, b, k);
      && (Reached(eval, root, Continuing(again)) ==> Reached(eval, root, Done(again)))
      && (Reached(eval, root, Done(again)) && (!s.kind.DoWhile? || t.MayHold()) ==> Live(eval, root, b + 1))
      && ((s.kind.DoWhile? || t.MayHold()) && Live(eval, root, b + 1) && FragOpt(eval, s.body, b + 1).entry != 0 ==>
            Live(eval, root, FragOpt(eval, s.body, b + 1).entry))
    ensures EdgesLive(eval, root, s, b)
  {
    hide Live, LoopTruth, Reached;
  }

  /** The end of a loop body: back to the head, or out of a `do`; `continue`
      goes the same way and `break` leaves. */
  lemma {:induction false} LoopEnd(eval: Evaluator, root: Stmt, s: Stmt, b: nat, k: Kont)
    requires s.Loop? && Within(root, s, b, k)
    ensures var t, again := LoopTruth(eval, s.kind, s.cond), Again(s, b, k);
            && (Reached(eval, root, Continuing(again)) ==> Reached(eval, root, Done(again)))
            && (Reached(eval, root, Breaking(again)) ==> Reached(eval, root, Done(k)))
            && (Reached(eval, root, Done(again)) && (!s.kind.DoWhile? || t.MayHold()) ==> Live(eval, root, b + 1))
            && (Reached(eval, root, Done(again)) && s.kind.DoWhile? && t.MayFail() ==> Reached(eval, root, Done(k)))
  {
    var t, again := LoopTruth(eval, s.kind, s.cond), Again(s, b, k);
    if Reached(eval, root, Continuing(again)) {
      ReachedStep(eval, root, Continuing(again), Done(again));
    }
    if Reached(eval, root, Breaking(again)) {
      ReachedStep(eval, root, Breaking(again), Done(k));
    }
    if Reached(eval, root, Done(again)) {
      if !s.kind.DoWhile? || t.MayHold() {
        ReachedStep(eval, root, Done(again), Run(s, b, k));
        FirstBlockLive(eval, root, s, b, k);
      }
      if s.kind.DoWhile? && t.MayFail() {
        ReachedStep(eval, root, Done(again), Done(k));
      }
    }
  }

  lemma {:induction false} PreciseSwitch(eval: Evaluator, root: Stmt, s: Stmt, b: nat, k: Kont)
    requires s.Switch? && Within(root, s, b, k) && WholeIfs(eval, s)
    ensures Precise(eval, root, s, b, k)
    decreases s, 0
  {
    WithinSwitch(root, s, b, k);
    forall to | StepClauses(s.clauses, b + 1, k, to) && Live(eval, root, b + 1) ensures Reached(eval, root, to) {
      StepIfLive(eval, root, s, b, k, to);
    }
    PreciseClauses(eval, root, s.clauses, b + 1, b + 1, k);
    DefaultOrNot(s.clauses);
    if !HasDefault(s.clauses) {
      StepIfLive(eval, root, s, b, k, Done(k));
    }
  }

  lemma {:induction false} PreciseClauses(eval: Evaluator, root: Stmt, cs: Clauses, b: nat, header: nat, k: Kont)
    requires WithinClauses(root, cs, b, k) && WholeIfsClauses(eval, cs)
    requires forall to :: StepClauses(cs, b, k, to) && Live(eval, root, header) ==> Reached(eval, root, to)
    ensures EndsReach(eval, root, FragClauses(eval, cs, b, header), k, k)
    ensures ClauseEdgesLive(eval, root, cs, b, header)
    decreases cs
  {
    hide Live, Within, WithinClauses, EndsReach, EdgesLive;
    if cs.Clause? {
      WithinClause(root, cs, b, k);
      ClauseReaches(eval, root, cs, b, header, k);
      PreciseClauses(eval, root, cs.rest, b + SizeOpt(cs.body), header, k);
      NoEnds(eval, root, Leave(k));
      if cs.body.Some? {
        PreciseStmt(eval, root, cs.body.value, b, Leave(k));
      }
      ClauseEnds(eval, root, cs, b, header, k);
      ClauseEdges(eval, root, cs, b, header);
    } else {
      NoEnds(eval, root, k);
    }
  }

  ghost predicate ClauseEdgesLive(eval: Evaluator, root: Stmt, cs: Clauses, b: nat, header: nat) {
    forall x, y :: ClauseEdge(eval, Labels(root, 0), cs, b, header, x, y) && Live(eval, root, x) ==> Live(eval, root, y)
  }

  lemma {:induction false} ClauseEnds(eval: Evaluator, root: Stmt, cs: Clauses, b: nat, header: nat, k: Kont)
    requires cs.Clause?
    requires EndsReach(eval, root, FragOpt(eval, cs.body, b), Leave(k), Leave(k))
    requires EndsReach(eval, root, FragClauses(eval, cs.rest, b + SizeOpt(cs.body), header), k, k)
    requires ClauseLeads(eval, root, cs, b, header, k)
    ensures EndsReach(eval, root, FragClauses(eval, cs, b, header), k, k)
  {
  }

  lemma {:induction false} ClauseEdges(eval: Evaluator, root: Stmt, cs: Clauses, b: nat, header: nat)
    requires cs.Clause?
    requires cs.body.Some? ==> EdgesLive(eval, root, cs.body.value, b)
    requires ClauseEdgesLive(eval, root, cs.rest, b + SizeOpt(cs.body), header)
    requires var entry := FragOpt(eval, cs.body, b).entry;
             Live(eval, root, header) && entry != 0 ==> Live(eval, root, entry)
    ensures ClauseEdgesLive(eval, root, cs, b, header)
  {
  }

  /** Where a clause leads: out of the switch when it is done or broken out of. */
  ghost predicate ClauseLeads(eval: Evaluator, root: Stmt, cs: Clauses, b: nat, header: nat, k: Kont)
    requires cs.Clause?
  {
    var leave, entry := Leave(k), FragOpt(eval, cs.body, b).entry;
    && (Reached(eval, root, Done(leave)) ==> Reached(eval, root, Done(k)))
    && (Reached(eval, root, Breaking(leave)) ==> Reached(eval, root, Done(k)))
    && (Reached(eval, root, Continuing(leave)) ==> Reached(eval, root, Continuing(k)))
    && (Live(eval, root, header) && entry != 0 ==> Live(eval, root, entry))
    && (Live(eval, root, header) && entry == 0 ==> Reached(eval, root, Done(k)))
  }

  lemma {:induction false} ClauseReaches(eval: Evaluator, root: Stmt, cs: Clauses, b: nat, header: nat, k: Kont)
    requires cs.Clause? && (cs.body.Some? ==> Within(root, cs.body.value, b, Leave(k)))
    requires forall to :: StepClauses(cs, b, k, to) && Live(eval, root, header) ==> Reached(eval, root, to)
    ensures ClauseLeads(eval, root, cs, b, header, k)
  {
    var leave := Leave(k);
    if Live(eval, root, header) {
      assert StepClauses(cs, b, k, Enter(cs.body, b, leave));
      if cs.body.Some? {
        EntryIsFirstBlock(eval, cs.body.value, b);
        FirstBlockLive(eval, root, cs.body.value, b, leave);
      }
    }
    if Reached(eval, root, Done(leave)) {
      ReachedStep(eval, root, Done(leave), Done(k));
    }
    if Reached(eval, root, Breaking(leave)) {
      ReachedStep(eval, root, Breaking(leave), Done(k));
    }
    if Reached(eval, root, Continuing(leave)) {
      ReachedStep(eval, root, Continuing(leave), Continuing(k));
    }
  }

  /** Precision: the executed blocks are closed under the edges of the graph and
      hold its entry, and a live dangling exit of the body completes it. */
  lemma {:induction false} ExecutedIsClosed(eval: Evaluator, root: Stmt)
    requires WholeIfs(eval, root)
    ensures Size(root) != 0 ==> Executed(eval, root, 1)
    ensures forall x, y :: Executed(eval, root, x) && GraphEdge(eval, root, x, y) ==> Executed(eval, root, y)
    ensures forall x :: Executed(eval, root, x) && x in Frag(eval, root, 0).exits ==> Completes(eval, root)
  {
    PreciseStmt(eval, root, root, 0, Stop);
    ReachedStart(eval, root);
    FirstBlockLive(eval, root, root, 0, Stop);
    forall x ensures Executed(eval, root, x) <==> Live(eval, root, x) {
      ExecutedIsLive(eval, root, x);
    }
  }
}
