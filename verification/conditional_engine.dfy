/** The directive handlers themselves, which edit the stack of open groups and the
    branch records in place (preprocess/directives.go, preprocess/engine.go). */
module ConditionalEngine {
  import opened Cells
  import opened Conditions
  import opened ConditionTheorems
  import opened Conditionals

  class Engine {
    const u: Setup
    var condStack: seq<CondFrame>
    var branches: seq<Branch>
    var macros: Macros
    var out: seq<Selected>
    var diags: seq<Diag>
    var truncated: bool
    var depthLimitWarned: bool

    ghost function Now(): State
      reads this
    {
      State(condStack, branches, macros, out, diags, truncated, depthLimitWarned)
    }

    constructor (u: Setup, macros: Macros)
      ensures Now() == Start(macros) && this.u == u
    {
      this.u, this.macros := u, macros;
      condStack, branches, out, diags := [], [], [], [];
      truncated, depthLimitWarned := false, false;
    }

    predicate Active()
      reads this
    {
      CurrentActive(condStack)
    }

    method Report(code: Code, at: nat)
      modifies this`diags
      ensures diags == old(diags) + [Diag(code, at)]
    {
      diags := diags + [Diag(code, at)];
    }

    method EvaluateBranch(line: Line, cond: seq<Tok>, parentActive: bool) returns (active: bool, evaluated: bool)
      requires line.what == If(cond) || line.what == Elseif(cond)
      modifies this`diags
      ensures active == (parentActive && Holds(u, macros, cond)) && evaluated == parentActive
      ensures diags == if parentActive then old(diags) + Complaint(u, macros, line) else old(diags)
    {
      if !parentActive {
        return false, false;
      }
      var v, ok := EvalCondition(Context(macros, u.literal), cond);
      if !ok {
        Report(UnresolvableCondition, line.start);
        return false, true;
      }
      return v != 0, true;
    }

    /** Record a branch and remember its index in the frame on top. */
    method OpenBranch(kind: DirectiveKind, line: Line, active: bool, evaluated: bool)
      requires condStack != []
      modifies this`branches, this`condStack
      ensures branches == old(branches) + [OpenedBranch(kind, |old(condStack)|, line, active, evaluated)]
      ensures var n := |old(condStack)| - 1;
        condStack == old(condStack)[n := old(condStack)[n].(openBranchIndex := |old(branches)|)]
    {
      branches := branches + [OpenedBranch(kind, |condStack|, line, active, evaluated)];
      var n := |condStack| - 1;
      condStack := condStack[n := condStack[n].(openBranchIndex := |branches| - 1)];
    }

    method CloseBranch(at: nat)
      requires condStack != []
      modifies this`branches
      ensures Now() == CloseTop(old(Now()), at)
    {
      var i := condStack[|condStack| - 1].openBranchIndex;
      if i >= |branches| {
        return;
      }
      branches := branches[i := branches[i].(bodyEnd := at)];
    }

    method HandleIf(line: Line)
      requires line.what.If?
      modifies this
      ensures Now() == StepIf(u, old(Now()), line)
    {
      var parentActive := Active();
      if |condStack| >= u.maxDepth {
        truncated := true;
        if !depthLimitWarned {
          depthLimitWarned := true;
          Report(DepthLimit, line.start);
        }
        condStack := condStack + [CondFrame(parentActive, false, true, 0, true)];
        return;
      }
      var branchActive, evaluated := EvaluateBranch(line, line.what.cond, parentActive);
      ghost var below := condStack;
      condStack := condStack + [CondFrame(parentActive, branchActive, branchActive, 0, false)];
      OpenBranch(DirIf, line, branchActive, evaluated);
      assert condStack == below + [CondFrame(parentActive, branchActive, branchActive, |old(branches)|, false)];
    }

    method HandleElseif(line: Line)
      requires line.what.Elseif?
      modifies this
      ensures Now() == StepElseif(u, old(Now()), line)
    {
      if |condStack| == 0 {
        Report(UnmatchedElseif, line.start);
        return;
      }
      var n := |condStack| - 1;
      CloseBranch(line.start);
      if condStack[n].overflow {
        return;
      }
      if condStack[n].taken {
        condStack := condStack[n := condStack[n].(branchActive := false)];
        OpenBranch(DirElseif, line, false, false);
        return;
      }
      var active, evaluated := EvaluateBranch(line, line.what.cond, condStack[n].parentActive);
      condStack := condStack[n := condStack[n].(branchActive := active)];
      if active {
        condStack := condStack[n := condStack[n].(taken := true)];
      }
      OpenBranch(DirElseif, line, active, evaluated);
    }

    method HandleElse(line: Line)
      requires line.what.Else?
      modifies this
      ensures Now() == StepElse(old(Now()), line)
    {
      if |condStack| == 0 {
        Report(UnmatchedElse, line.start);
        return;
      }
      var n := |condStack| - 1;
      CloseBranch(line.start);
      if condStack[n].overflow {
        return;
      }
      var active := condStack[n].parentActive && !condStack[n].taken;
      condStack := condStack[n := condStack[n].(branchActive := active)];
      if active {
        condStack := condStack[n := condStack[n].(taken := true)];
      }
      OpenBranch(DirElse, line, active, condStack[n].parentActive);
    }

    method HandleEndif(line: Line)
      requires line.what.Endif?
      modifies this
      ensures Now() == StepEndif(old(Now()), line)
    {
      if |condStack| == 0 {
        Report(UnmatchedEndif, line.start);
        return;
      }
      if !condStack[|condStack| - 1].overflow {
        CloseBranch(line.start);
      }
      condStack := condStack[..|condStack| - 1];
    }

    method HandleLine(line: Line)
      modifies this
      ensures Now() == Step(u, old(Now()), line)
    {
      match line.what
      case If(_) => HandleIf(line);
      case Elseif(_) => HandleElseif(line);
      case Else => HandleElse(line);
      case Endif => HandleEndif(line);
      case Act(action) =>
        if Active() {
          match action {
            case Define(name, m) => macros := macros[name := m];
            case Undef(name) => macros := macros - {name};
            case Emit(tok) =>
              if !truncated {
                out := out + [Selected(tok, macros)];
              }
            case Silent =>
          }
        }
    }

    /** A whole file: a group still open at its end is reported. */
    method Run(lines: seq<Line>, end: nat)
      modifies this
      ensures
        var t := Steps(u, old(Now()), lines);
        Now() == if t.stack == [] then t else t.(diags := t.diags + [Diag(Unterminated, end)])
    {
      hide Step;
      var i := 0;
      assert lines[..0] == [];
      while i < |lines|
        invariant 0 <= i <= |lines|
        invariant Now() == Steps(u, old(Now()), lines[..i])
      {
        StepsSplit(u, old(Now()), lines[..i], [lines[i]]);
        OneStep(u, Now(), lines[i]);
        HandleLine(lines[i]);
        i := i + 1;
        assert lines[..i] == lines[..i - 1] + [lines[i - 1]];
      }
      assert lines[..i] == lines;
      if |condStack| > 0 {
        Report(Unterminated, end);
      }
    }
  }

  lemma {:induction false} OneStep(u: Setup, s: State, line: Line)
    ensures Steps(u, s, [line]) == Step(u, s, line)
  {
    hide Step;
    assert Steps(u, Step(u, s, line), []) == Step(u, s, line);
  }
}
