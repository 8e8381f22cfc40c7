/** Conditional compilation: the stack of open #if groups that the directive handlers
    push, edit and pop (preprocess/directives.go, preprocess/engine.go). */
module Conditionals {
  import opened Collections
  import opened Cells
  import opened Conditions
  import opened ConditionTheorems

  type Macros = map<string, Macro>

  /** What a line does where it is active: change the macro table, hand a token to the
      expander, or neither. */
  datatype Action = Define(name: string, m: Macro) | Undef(name: string) | Emit(tok: Tok) | Silent

  datatype What = If(cond: seq<Tok>) | Elseif(cond: seq<Tok>) | Else | Endif | Act(action: Action)

  /** A line of the file with the offsets of its first and past its last byte. */
  datatype Line = Line(start: nat, end: nat, what: What)

  datatype DirectiveKind = DirIf | DirElseif | DirElse

  datatype Branch = Branch(
    kind: DirectiveKind, depth: nat, dirStart: nat, dirEnd: nat,
    bodyStart: nat, bodyEnd: nat, active: bool, evaluated: bool)

  datatype CondFrame = CondFrame(
    parentActive: bool, branchActive: bool, taken: bool, openBranchIndex: nat, overflow: bool)

  /** A token handed to the expander, with the macro table it meets. */
  datatype Selected = Selected(tok: Tok, macros: Macros)

  datatype Code = UnresolvableCondition | UnmatchedElseif | UnmatchedElse | UnmatchedEndif | DepthLimit | Unterminated

  datatype Diag = Diag(code: Code, start: nat)

  /** What stays fixed: the nesting limit and the reading of literals. */
  datatype Setup = Setup(maxDepth: nat, literal: Tok -> Cell)

  datatype State = State(
    stack: seq<CondFrame>, branches: seq<Branch>, macros: Macros,
    selected: seq<Selected>, diags: seq<Diag>, truncated: bool, warned: bool)

  function Start(macros: Macros): State { State([], [], macros, [], [], false, false) }

  predicate CurrentActive(stack: seq<CondFrame>) {
    stack == [] || stack[|stack| - 1].branchActive
  }

  /** A condition's verdict under a macro table; none when it cannot be evaluated. */
  function Verdict(u: Setup, macros: Macros, cond: seq<Tok>): Option<bool> {
    var v := Evaluate(Context(macros, u.literal), cond);
    if v.None? then None else Some(v.value != 0)
  }

  predicate Holds(u: Setup, macros: Macros, cond: seq<Tok>) {
    Verdict(u, macros, cond) == Some(true)
  }

  /** The complaint about a condition that was evaluated in vain. */
  function Complaint(u: Setup, macros: Macros, line: Line): seq<Diag>
    requires line.what.If? || line.what.Elseif?
  {
    if Verdict(u, macros, line.what.cond).None? then [Diag(UnresolvableCondition, line.start)] else []
  }

  function OpenedBranch(kind: DirectiveKind, depth: nat, line: Line, active: bool, evaluated: bool): Branch {
    Branch(kind, depth, line.start, line.end, line.end, line.end, active, evaluated)
  }

  function Perform(s: State, a: Action): State {
    match a
    case Define(name, m) => s.(macros := s.macros[name := m])
    case Undef(name) => s.(macros := s.macros - {name})
    case Emit(tok) => if s.truncated then s else s.(selected := s.selected + [Selected(tok, s.macros)])
    case Silent => s
  }

  function CloseTop(s: State, at: nat): State
    requires s.stack != []
  {
    var i := s.stack[|s.stack| - 1].openBranchIndex;
    if i < |s.branches| then s.(branches := s.branches[i := s.branches[i].(bodyEnd := at)]) else s
  }

  function SetTop(s: State, top: CondFrame): State
    requires s.stack != []
  {
    s.(stack := s.stack[|s.stack| - 1 := top])
  }

  function StepIf(u: Setup, s: State, line: Line): State
    requires line.what.If?
  {
    var parent := CurrentActive(s.stack);
    if |s.stack| >= u.maxDepth then
      s.(truncated := true, warned := true,
         diags := if s.warned then s.diags else s.diags + [Diag(DepthLimit, line.start)],
         stack := s.stack + [CondFrame(parent, false, true, 0, true)])
    else
      var active := parent && Holds(u, s.macros, line.what.cond);
      s.(diags := if parent then s.diags + Complaint(u, s.macros, line) else s.diags,
         stack := s.stack + [CondFrame(parent, active, active, |s.branches|, false)],
         branches := s.branches + [OpenedBranch(DirIf, |s.stack| + 1, line, active, parent)])
  }

  function StepElseif(u: Setup, s: State, line: Line): State
    requires line.what.Elseif?
  {
    if s.stack == [] then s.(diags := s.diags + [Diag(UnmatchedElseif, line.start)])
    else
      var top := s.stack[|s.stack| - 1];
      var c := CloseTop(s, line.start);
      if top.overflow then c
      else if top.taken then
        SetTop(c, top.(branchActive := false, openBranchIndex := |c.branches|))
          .(branches := c.branches + [OpenedBranch(DirElseif, |s.stack|, line, false, false)])
      else
        var active := top.parentActive && Holds(u, s.macros, line.what.cond);
        SetTop(c, top.(branchActive := active, taken := active, openBranchIndex := |c.branches|))
          .(branches := c.branches + [OpenedBranch(DirElseif, |s.stack|, line, active, top.parentActive)],
            diags := if top.parentActive then s.diags + Complaint(u, s.macros, line) else s.diags)
  }

  function StepElse(s: State, line: Line): State
    requires line.what.Else?
  {
    if s.stack == [] then s.(diags := s.diags + [Diag(UnmatchedElse, line.start)])
    else
      var top := s.stack[|s.stack| - 1];
      var c := CloseTop(s, line.start);
      if top.overflow then c
      else
        var active := top.parentActive && !top.taken;
        SetTop(c, top.(branchActive := active, taken := top.taken || active, openBranchIndex := |c.branches|))
          .(branches := c.branches + [OpenedBranch(DirElse, |s.stack|, line, active, top.parentActive)])
  }

  function StepEndif(s: State, line: Line): State
    requires line.what.Endif?
  {
    if s.stack == [] then s.(diags := s.diags + [Diag(UnmatchedEndif, line.start)])
    else
      var top := s.stack[|s.stack| - 1];
      var c := if top.overflow then s else CloseTop(s, line.start);
      c.(stack := s.stack[..|s.stack| - 1])
  }

  function Step(u: Setup, s: State, line: Line): State {
    match line.what
    case If(_) => StepIf(u, s, line)
    case Elseif(_) => StepElseif(u, s, line)
    case Else => StepElse(s, line)
    case Endif => StepEndif(s, line)
    case Act(a) => if CurrentActive(s.stack) then Perform(s, a) else s
  }

  function Steps(u: Setup, s: State, lines: seq<Line>): State
    decreases |lines|
  {
    if lines == [] then s else Steps(u, Step(u, s, lines[0]), lines[1..])
  }

  lemma {:induction false} StepsSplit(u: Setup, s: State, a: seq<Line>, b: seq<Line>)
    ensures Steps(u, s, a + b) == Steps(u, Steps(u, s, a), b)
    decreases |a|
  {
    hide Step;
    if a == [] {
      assert a + b == b;
    } else {
      assert (a + b)[1..] == a[1..] + b;
      StepsSplit(u, Step(u, s, a[0]), a[1..], b);
    }
  }

  // ---- The stack invariant ----

  /** Each frame remembers whether its surroundings are active, and is active only if
      they are. */
  ghost predicate Linked(stack: seq<CondFrame>) {
    forall i {:trigger stack[i]} :: 0 <= i < |stack| ==>
      && stack[i].parentActive == CurrentActive(stack[..i])
      && (stack[i].branchActive ==> stack[i].parentActive && stack[i].taken)
      && (stack[i].overflow ==> stack[i].taken && !stack[i].branchActive)
  }

  /** The top frame alone says whether every enclosing branch is active. */
  lemma {:induction false} TopSpeaksForAll(stack: seq<CondFrame>)
    requires Linked(stack)
    ensures CurrentActive(stack) <==> forall f :: f in stack ==> f.branchActive
    decreases |stack|
  {
    hide Linked;
    if stack != [] {
      var below := stack[..|stack| - 1];
      LinkedBelow(stack);
      TopIsLinked(stack);
      TopSpeaksForAll(below);
      assert stack == below + [stack[|stack| - 1]];
    }
  }

  /** Replacing the top or pushing onto the stack keeps the frames below as they are. */
  lemma {:induction false} LinkedAbove(below: seq<CondFrame>, top: CondFrame)
    requires Linked(below)
    requires top.parentActive == CurrentActive(below)
    requires top.branchActive ==> top.parentActive && top.taken
    requires top.overflow ==> top.taken && !top.branchActive
    ensures Linked(below + [top])
  {
    var stack := below + [top];
    forall i {:trigger stack[i]} | 0 <= i < |stack|
      ensures stack[..i] == (if i < |below| then below[..i] else below)
    {
    }
  }

  lemma {:induction false} LinkedBelow(stack: seq<CondFrame>)
    requires Linked(stack) && stack != []
    ensures Linked(stack[..|stack| - 1])
  {
    var below := stack[..|stack| - 1];
    assert forall i :: 0 <= i < |below| ==> below[i] == stack[i] && below[..i] == stack[..i];
  }

  /** Every line keeps the stack linked, overflowing groups included. */
  lemma {:induction false} StepKeepsLinked(u: Setup, s: State, line: Line)
    requires Linked(s.stack)
    ensures Linked(Step(u, s, line).stack)
  {
    hide Linked, StepIf, StepElseif, StepElse;
    var n := |s.stack|;
    if line.what.If? {
      IfKeepsLinked(u, s, line);
    } else if line.what.Endif? && n > 0 {
      LinkedBelow(s.stack);
    } else if !line.what.Act? && n > 0 {
      ReopeningKeepsLinked(u, s, line);
    } else if !line.what.Act? {
      UnmatchedKeepsStack(u, s, line);
    }
  }

  lemma {:induction false} IfKeepsLinked(u: Setup, s: State, line: Line)
    requires Linked(s.stack) && line.what.If?
    ensures Linked(StepIf(u, s, line).stack)
  {
    hide Linked, Holds, Complaint, OpenedBranch;
    var after := StepIf(u, s, line).stack;
    LinkedAbove(s.stack, after[|s.stack|]);
  }

  lemma {:induction false} ReopeningKeepsLinked(u: Setup, s: State, line: Line)
    requires Linked(s.stack) && s.stack != [] && (line.what.Elseif? || line.what.Else?)
    ensures Linked(Step(u, s, line).stack)
  {
    hide Linked, Holds, Complaint, OpenedBranch, StepIf, StepEndif, CurrentActive;
    var n := |s.stack|;
    var after := Step(u, s, line).stack;
    TopIsLinked(s.stack);
    LinkedBelow(s.stack);
    assert after == s.stack[..n - 1] + [after[n - 1]];
    LinkedAbove(s.stack[..n - 1], after[n - 1]);
  }

  lemma {:induction false} UnmatchedKeepsStack(u: Setup, s: State, line: Line)
    requires s.stack == [] && (line.what.Elseif? || line.what.Else? || line.what.Endif?)
    ensures Step(u, s, line).stack == []
  {
  }

  lemma {:induction false} TopIsLinked(stack: seq<CondFrame>)
    requires Linked(stack) && stack != []
    ensures
      var top := stack[|stack| - 1];
      && top.parentActive == CurrentActive(stack[..|stack| - 1])
      && (top.branchActive ==> top.parentActive && top.taken)
      && (top.overflow ==> top.taken && !top.branchActive)
  {
  }

  lemma {:induction false} StepsKeepLinked(u: Setup, s: State, lines: seq<Line>)
    requires Linked(s.stack)
    ensures Linked(Steps(u, s, lines).stack)
    decreases |lines|
  {
    hide Step, Linked;
    if lines != [] {
      StepKeepsLinked(u, s, lines[0]);
      StepsKeepLinked(u, Step(u, s, lines[0]), lines[1..]);
    }
  }

  /** In every reachable state a line is active exactly when every branch around it is. */
  lemma {:induction false} ActiveIffAllEnclosingActive(u: Setup, macros: Macros, lines: seq<Line>)
    ensures
      var stack := Steps(u, Start(macros), lines).stack;
      CurrentActive(stack) <==> forall f :: f in stack ==> f.branchActive
  {
    hide Step, CurrentActive;
    StepsKeepLinked(u, Start(macros), lines);
    TopSpeaksForAll(Steps(u, Start(macros), lines).stack);
  }
}
