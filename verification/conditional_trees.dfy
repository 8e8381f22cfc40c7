/** Conditional groups as a tree, what the tree selects, and the stack machine's
    agreement with it (preprocess/directives.go). */
module ConditionalTrees {
  import opened Cells
  import opened Conditions
  import opened ConditionTheorems
  import opened Conditionals

  /** Lines in order, with each #if group kept together. */
  datatype Forest =
    | Nothing
    | Plain(line: Line, rest: Forest)
    | Group(head: Line, body: Forest, more: Arms, rest: Forest)

  /** What follows a branch of a group: its #endif, another branch, or the end of the
      file. */
  datatype Arms = Close(line: Line) | Open | Next(head: Line, body: Forest, more: Arms)

  function Flatten(f: Forest): seq<Line> {
    match f
    case Nothing => []
    case Plain(line, rest) => [line] + Flatten(rest)
    case Group(head, body, more, rest) => [head] + Flatten(body) + FlattenArms(more) + Flatten(rest)
  }

  function FlattenArms(m: Arms): seq<Line> {
    match m
    case Close(line) => [line]
    case Open => []
    case Next(head, body, more) => [head] + Flatten(body) + FlattenArms(more)
  }

  /** Every group has its #endif. */
  predicate Closed(f: Forest) {
    match f
    case Nothing => true
    case Plain(_, rest) => Closed(rest)
    case Group(_, body, more, rest) => Closed(body) && ClosedArms(more) && Closed(rest)
  }

  predicate ClosedArms(m: Arms) {
    match m
    case Close(_) => true
    case Open => false
    case Next(_, body, more) => Closed(body) && ClosedArms(more)
  }

  /** Heads and ends are of their kinds, only the last group may lack its #endif, and
      stray directives stand only outside every group. */
  predicate Shaped(f: Forest, top: bool) {
    match f
    case Nothing => true
    case Plain(line, rest) => (line.what.Act? || (top && !line.what.If?)) && Shaped(rest, top)
    case Group(head, body, more, rest) =>
      && head.what.If? && Shaped(body, false) && ShapedArms(more) && Shaped(rest, top)
      && (Closed(body) || (more == Open && rest == Nothing))
      && (ClosedArms(more) || rest == Nothing)
  }

  predicate ShapedArms(m: Arms) {
    match m
    case Close(line) => line.what.Endif?
    case Open => true
    case Next(head, body, more) =>
      && (head.what.Elseif? || head.what.Else?) && Shaped(body, false) && ShapedArms(more)
      && (Closed(body) || more == Open)
  }

  /** The groups nest no deeper than the limit, counted from a given depth. */
  predicate WithinDepth(f: Forest, depth: nat, max: nat) {
    match f
    case Nothing => true
    case Plain(_, rest) => WithinDepth(rest, depth, max)
    case Group(_, body, more, rest) =>
      depth < max && WithinDepth(body, depth + 1, max) && WithinArms(more, depth + 1, max) && WithinDepth(rest, depth, max)
  }

  predicate WithinArms(m: Arms, depth: nat, max: nat) {
    match m
    case Close(_) => true
    case Open => true
    case Next(_, body, more) => WithinDepth(body, depth, max) && WithinArms(more, depth, max)
  }

  // ---- What a tree selects ----

  datatype Outcome = Outcome(selected: seq<Selected>, macros: Macros, diags: seq<Diag>)

  function Then(a: Outcome, b: Outcome): Outcome {
    Outcome(a.selected + b.selected, b.macros, a.diags + b.diags)
  }

  function PlainMeaning(line: Line, m: Macros): Outcome {
    match line.what
    case Elseif(_) => Outcome([], m, [Diag(UnmatchedElseif, line.start)])
    case Else => Outcome([], m, [Diag(UnmatchedElse, line.start)])
    case Endif => Outcome([], m, [Diag(UnmatchedEndif, line.start)])
    case Act(Define(name, macro)) => Outcome([], m[name := macro], [])
    case Act(Undef(name)) => Outcome([], m - {name}, [])
    case Act(Emit(tok)) => Outcome([Selected(tok, m)], m, [])
    case _ => Outcome([], m, [])
  }

  /** The tokens and macro-table updates of an active forest, and nothing of an
      inactive one: each group contributes its first branch whose condition holds. */
  function Meaning(u: Setup, f: Forest, active: bool, m: Macros): Outcome
    decreases f, 1
  {
    if !active then Outcome([], m, [])
    else match f
      case Nothing => Outcome([], m, [])
      case Plain(line, rest) =>
        var a := PlainMeaning(line, m);
        Then(a, Meaning(u, rest, true, a.macros))
      case Group(_, _, _, rest) =>
        var a := GroupMeaning(u, f, m);
        Then(a, Meaning(u, rest, true, a.macros))
  }

  /** The group's first branch, then the others as long as none was taken. */
  function GroupMeaning(u: Setup, f: Forest, m: Macros): Outcome
    requires f.Group?
    decreases f, 0
  {
    var c := if f.head.what.If? then Complaint(u, m, f.head) else [];
    var taken := f.head.what.If? && Holds(u, m, f.head.what.cond);
    var a := Meaning(u, f.body, taken, m);
    var b := ArmsMeaning(u, f.more, true, taken, a.macros);
    Outcome(a.selected + b.selected, b.macros, c + a.diags + b.diags)
  }

  function ArmsMeaning(u: Setup, arms: Arms, active: bool, taken: bool, m: Macros): Outcome
    decreases arms
  {
    if !active || taken || !arms.Next? then Outcome([], m, [])
    else
      var c := if arms.head.what.Elseif? then Complaint(u, m, arms.head) else [];
      var now := arms.head.what.Else? || (arms.head.what.Elseif? && Holds(u, m, arms.head.what.cond));
      var a := Meaning(u, arms.body, now, m);
      var b := ArmsMeaning(u, arms.more, true, now, a.macros);
      Outcome(a.selected + b.selected, b.macros, c + a.diags + b.diags)
  }

  // ---- The branch records a tree leaves ----

  /** Where the body of a branch ends: at the directive that follows it. A branch cut
      off by the end of the file is recorded as empty. */
  function BodyEnd(head: Line, more: Arms): nat {
    match more
    case Close(line) => line.start
    case Open => head.end
    case Next(next, _, _) => next.start
  }

  function Mark(kind: DirectiveKind, depth: nat, head: Line, more: Arms, active: bool, evaluated: bool): Branch {
    Branch(kind, depth, head.start, head.end, head.end, BodyEnd(head, more), active, evaluated)
  }

  function Marks(u: Setup, f: Forest, depth: nat, active: bool, m: Macros): seq<Branch>
    decreases f
  {
    match f
    case Nothing => []
    case Plain(line, rest) =>
      Marks(u, rest, depth, active, if active then PlainMeaning(line, m).macros else m)
    case Group(head, body, more, rest) =>
      var taken := active && head.what.If? && Holds(u, m, head.what.cond);
      var inner := Meaning(u, body, taken, m).macros;
      [Mark(DirIf, depth + 1, head, more, taken, active)]
      + Marks(u, body, depth + 1, taken, m)
      + ArmsMarks(u, more, depth + 1, active, taken, inner)
      + Marks(u, rest, depth, active, if active then GroupMeaning(u, f, m).macros else m)
  }

  function ArmsMarks(u: Setup, arms: Arms, depth: nat, active: bool, taken: bool, m: Macros): seq<Branch>
    decreases arms
  {
    if !arms.Next? then []
    else
      var head := arms.head;
      var now := active && !taken && (head.what.Else? || (head.what.Elseif? && Holds(u, m, head.what.cond)));
      var asked := active && (head.what.Else? || !taken);
      var kind := if head.what.Else? then DirElse else DirElseif;
      [Mark(kind, depth, head, arms.more, now, asked)]
      + Marks(u, arms.body, depth, now, m)
      + ArmsMarks(u, arms.more, depth, active, taken || now, Meaning(u, arms.body, now, m).macros)
  }

  // ---- The machine does what the tree says ----

  /** One state is another after a forest of this outcome and these records. */
  ghost predicate Reaches(s: State, t: State, o: Outcome, marks: seq<Branch>) {
    && t.macros == o.macros
    && t.selected == s.selected + o.selected
    && t.diags == s.diags + o.diags
    && t.branches == s.branches + marks
    && t.truncated == s.truncated && t.warned == s.warned
  }

  predicate Ready(s: State, active: bool, top: bool) {
    && !s.truncated
    && CurrentActive(s.stack) == active
    && (top <==> s.stack == [])
  }

  lemma {:induction false} MachineFollowsForest(u: Setup, s: State, f: Forest, active: bool, top: bool)
    requires Shaped(f, top) && WithinDepth(f, |s.stack|, u.maxDepth) && Ready(s, active, top)
    ensures
      var t := Steps(u, s, Flatten(f));
      && Reaches(s, t, Meaning(u, f, active, s.macros), Marks(u, f, |s.stack|, active, s.macros))
      && (Closed(f) ==> t.stack == s.stack)
      && (!Closed(f) ==> t.stack != [])
    decreases f, 3
  {
    hide Step;
    match f
    case Nothing =>
    case Plain(line, rest) =>
      PlainIsFollowed(u, s, line, rest, active, top);
    case Group(head, body, more, rest) =>
      GroupIsFollowed(u, s, f, active, top);
  }

  lemma {:induction false} PlainIsFollowed(
      u: Setup, s: State, line: Line, rest: Forest, active: bool, top: bool)
    requires
      var f := Plain(line, rest);
      Shaped(f, top) && WithinDepth(f, |s.stack|, u.maxDepth) && Ready(s, active, top)
    ensures
      var f := Plain(line, rest);
      var t := Steps(u, s, Flatten(f));
      && Reaches(s, t, Meaning(u, f, active, s.macros), Marks(u, f, |s.stack|, active, s.macros))
      && (Closed(f) ==> t.stack == s.stack)
      && (!Closed(f) ==> t.stack != [])
    decreases rest, 4
  {
    hide Step, PlainMeaning, GroupMeaning, CurrentActive, Mark, Meaning, Marks;
    var s1 := Step(u, s, line);
    OneLine(u, s, line, active, top);
    assert Flatten(Plain(line, rest))[1..] == Flatten(rest);
    PlainUnfolds(u, line, rest, |s.stack|, active, s.macros);
    MachineFollowsForest(u, s1, rest, active, top);
  }

  lemma {:induction false} PlainUnfolds(u: Setup, line: Line, rest: Forest, depth: nat, active: bool, m: Macros)
    ensures
      var a := if active then PlainMeaning(line, m) else Outcome([], m, []);
      && Meaning(u, Plain(line, rest), active, m) == Then(a, Meaning(u, rest, active, a.macros))
      && Marks(u, Plain(line, rest), depth, active, m) == Marks(u, rest, depth, active, a.macros)
  {
    hide PlainMeaning, GroupMeaning, ArmsMarks;
  }

  lemma {:induction false} OneLine(u: Setup, s: State, line: Line, active: bool, top: bool)
    requires Ready(s, active, top) && (line.what.Act? || (top && !line.what.If?))
    ensures
      var t := Step(u, s, line);
      && t.stack == s.stack
      && Reaches(s, t, if active then PlainMeaning(line, s.macros) else Outcome([], s.macros, []), [])
  {
  }

  /** Closing the branch at an index at the line that follows it. */
  function Patch(branches: seq<Branch>, i: nat, more: Arms): seq<Branch>
    requires i < |branches|
  {
    match more
    case Close(line) => branches[i := branches[i].(bodyEnd := line.start)]
    case Open => branches
    case Next(head, _, _) => branches[i := branches[i].(bodyEnd := head.start)]
  }

  lemma {:induction false} OpeningIf(u: Setup, s: State, head: Line, active: bool, top: bool)
    requires Ready(s, active, top) && head.what.If? && |s.stack| < u.maxDepth
    ensures
      var t := Step(u, s, head);
      var taken := active && Holds(u, s.macros, head.what.cond);
      && t.stack == s.stack + [CondFrame(active, taken, taken, |s.branches|, false)]
      && Ready(t, taken, false)
      && Reaches(s, t, Outcome([], s.macros, if active then Complaint(u, s.macros, head) else []),
                 [OpenedBranch(DirIf, |s.stack| + 1, head, taken, active)])
  {
    hide Holds, Complaint;
  }

  /** The states between the parts of a group. */
  lemma {:induction false} GroupStates(u: Setup, s: State, f: Forest) returns (s1: State, s2: State, s3: State)
    requires f.Group?
    ensures s1 == Step(u, s, f.head)
    ensures s2 == Steps(u, s1, Flatten(f.body))
    ensures s3 == Steps(u, s2, FlattenArms(f.more))
    ensures Steps(u, s, Flatten(f)) == Steps(u, s3, Flatten(f.rest))
  {
    hide Step;
    s1 := Step(u, s, f.head);
    s2 := Steps(u, s1, Flatten(f.body));
    s3 := Steps(u, s2, FlattenArms(f.more));
    var a, b, c := Flatten(f.body), FlattenArms(f.more), Flatten(f.rest);
    assert Flatten(f) == [f.head] + (a + (b + c));
    assert Flatten(f)[1..] == a + (b + c);
    StepsSplit(u, s1, a, b + c);
    StepsSplit(u, s2, b, c);
  }

  function CoreMeaning(u: Setup, f: Forest, active: bool, m: Macros): Outcome
    requires f.Group?
  {
    if active then GroupMeaning(u, f, m) else Outcome([], m, [])
  }

  function CoreMarks(u: Setup, f: Forest, depth: nat, active: bool, m: Macros): seq<Branch>
    requires f.Group?
  {
    var taken := active && f.head.what.If? && Holds(u, m, f.head.what.cond);
    [Mark(DirIf, depth + 1, f.head, f.more, taken, active)]
    + Marks(u, f.body, depth + 1, taken, m)
    + ArmsMarks(u, f.more, depth + 1, active, taken, Meaning(u, f.body, taken, m).macros)
  }

  lemma {:induction false} GroupIsFollowed(u: Setup, s: State, f: Forest, active: bool, top: bool)
    requires f.Group?
    requires Shaped(f, top) && WithinDepth(f, |s.stack|, u.maxDepth) && Ready(s, active, top)
    ensures
      var t := Steps(u, s, Flatten(f));
      && Reaches(s, t, Meaning(u, f, active, s.macros), Marks(u, f, |s.stack|, active, s.macros))
      && (Closed(f) ==> t.stack == s.stack)
      && (!Closed(f) ==> t.stack != [])
    decreases f, 2
  {
    hide Step, Steps, Holds, Flatten, GroupMeaning, CoreMarks;
    var _, _, s3 := GroupStates(u, s, f);
    GroupCoreIsFollowed(u, s, f, active, top);
    GroupUnfolds(u, f, |s.stack|, active, s.macros);
    if Closed(f.body) && ClosedArms(f.more) {
      MachineFollowsForest(u, s3, f.rest, active, top);
    } else {
      assert Steps(u, s3, Flatten(f.rest)) == s3 by { NoLines(u, s3, f.rest); }
    }
  }

  lemma {:induction false} NoLines(u: Setup, s: State, f: Forest)
    requires f == Nothing
    ensures Steps(u, s, Flatten(f)) == s
  {
  }

  lemma {:induction false} GroupUnfolds(u: Setup, f: Forest, depth: nat, active: bool, m: Macros)
    requires f.Group?
    ensures
      var core := CoreMeaning(u, f, active, m);
      && Meaning(u, f, active, m) == Then(core, Meaning(u, f.rest, active, core.macros))
      && Marks(u, f, depth, active, m) == CoreMarks(u, f, depth, active, m) + Marks(u, f.rest, depth, active, core.macros)
  {
    hide GroupMeaning, Holds, ArmsMarks;
  }

  /** A group up to its end: where the machine stands before the lines after it. */
  lemma {:induction false} GroupCoreIsFollowed(u: Setup, s: State, f: Forest, active: bool, top: bool)
    requires f.Group?
    requires Shaped(f, top) && WithinDepth(f, |s.stack|, u.maxDepth) && Ready(s, active, top)
    ensures
      var t := Steps(u, Steps(u, Step(u, s, f.head), Flatten(f.body)), FlattenArms(f.more));
      && Reaches(s, t, CoreMeaning(u, f, active, s.macros), CoreMarks(u, f, |s.stack|, active, s.macros))
      && (Closed(f.body) && ClosedArms(f.more) ==> t.stack == s.stack)
      && (!(Closed(f.body) && ClosedArms(f.more)) ==> t.stack != [])
    decreases f, 1
  {
    hide Step, Steps, Holds, Flatten, Meaning, Marks, ArmsMarks, ArmsMeaning, Complaint;
    var taken := active && Holds(u, s.macros, f.head.what.cond);
    OpeningIf(u, s, f.head, active, top);
    var s1 := Step(u, s, f.head);
    MachineFollowsForest(u, s1, f.body, taken, false);
    var s2 := Steps(u, s1, Flatten(f.body));
    var s3 := Steps(u, s2, FlattenArms(f.more));
    if Closed(f.body) {
      ArmsAreFollowed(u, s2, s.stack, f.more, active);
    } else {
      NoArms(u, s2, f.more, |s.stack| + 1, active, taken);
    }
    GroupSums(u, s, s1, s2, s3, f, active);
  }

  /** A group whose branch runs to the end of the file has nothing more to follow. */
  lemma {:induction false} NoArms(u: Setup, s: State, arms: Arms, depth: nat, active: bool, taken: bool)
    requires arms == Open
    ensures Steps(u, s, FlattenArms(arms)) == s
    ensures ArmsMeaning(u, arms, active, taken, s.macros) == Outcome([], s.macros, [])
    ensures ArmsMarks(u, arms, depth, active, taken, s.macros) == []
  {
  }

  /** Adding up a group: its head, its first body, the branches after it. */
  lemma {:induction false} GroupSums(
      u: Setup, s: State, s1: State, s2: State, s3: State, f: Forest, active: bool)
    requires f.Group? && f.head.what.If?
    requires
      var taken := active && Holds(u, s.macros, f.head.what.cond);
      && Reaches(s, s1, Outcome([], s.macros, if active then Complaint(u, s.macros, f.head) else []),
                 [OpenedBranch(DirIf, |s.stack| + 1, f.head, taken, active)])
      && Reaches(s1, s2, Meaning(u, f.body, taken, s.macros), Marks(u, f.body, |s.stack| + 1, taken, s.macros))
      && Reaches(s2.(branches := Patch(s2.branches, |s.branches|, f.more)), s3,
                 ArmsMeaning(u, f.more, active, taken, s2.macros),
                 ArmsMarks(u, f.more, |s.stack| + 1, active, taken, s2.macros))
    ensures Reaches(s, s3, CoreMeaning(u, f, active, s.macros), CoreMarks(u, f, |s.stack|, active, s.macros))
  {
    hide Holds, Complaint, Marks, ArmsMarks;
    var taken := active && Holds(u, s.macros, f.head.what.cond);
    Compose(s, s1, s2, s3, f.head, f.more,
            if active then Complaint(u, s.macros, f.head) else [],
            OpenedBranch(DirIf, |s.stack| + 1, f.head, taken, active),
            Meaning(u, f.body, taken, s.macros), Marks(u, f.body, |s.stack| + 1, taken, s.macros),
            ArmsMeaning(u, f.more, active, taken, s2.macros),
            ArmsMarks(u, f.more, |s.stack| + 1, active, taken, s2.macros));
    if !active {
      assert Meaning(u, f.body, false, s.macros) == Outcome([], s.macros, []);
      assert ArmsMeaning(u, f.more, false, false, s.macros) == Outcome([], s.macros, []);
    }
  }

  /** Opening a branch, its body, and the branches after it, in one. */
  lemma {:induction false} Compose(
      p: State, s1: State, s2: State, t: State, head: Line, more: Arms,
      c: seq<Diag>, newest: Branch, a: Outcome, m1: seq<Branch>, b: Outcome, m2: seq<Branch>)
    requires newest.bodyEnd == head.end
    requires Reaches(p, s1, Outcome([], p.macros, c), [newest])
    requires Reaches(s1, s2, a, m1)
    requires Reaches(s2.(branches := Patch(s2.branches, |p.branches|, more)), t, b, m2)
    ensures Reaches(p, t, Outcome(a.selected + b.selected, b.macros, c + a.diags + b.diags),
                    [newest.(bodyEnd := BodyEnd(head, more))] + m1 + m2)
  {
    PatchedHead(p.branches, newest, m1, more, head);
  }

  lemma {:induction false} PatchedHead(
      before: seq<Branch>, newest: Branch, inner: seq<Branch>, more: Arms, head: Line)
    requires newest.bodyEnd == head.end
    ensures Patch(before + [newest] + inner, |before|, more)
            == before + [newest.(bodyEnd := BodyEnd(head, more))] + inner
  {
  }

  /** A later branch of a group, from the directive that opens it. */
  lemma {:induction false} OpeningArm(u: Setup, s: State, below: seq<CondFrame>, head: Line, active: bool)
    requires InGroup(s, below, active) && (head.what.Elseif? || head.what.Else?)
    ensures
      var top := s.stack[|below|];
      var now := active && !top.taken && (head.what.Else? || Holds(u, s.macros, head.what.cond));
      var asked := active && (head.what.Else? || !top.taken);
      var kind := if head.what.Else? then DirElse else DirElseif;
      var t := Step(u, s, head);
      && t.stack == below + [CondFrame(active, now, top.taken || now, |s.branches|, false)]
      && InGroup(t, below, active)
      && Ready(t, now, false)
      && Reaches(s.(branches := s.branches[top.openBranchIndex := s.branches[top.openBranchIndex].(bodyEnd := head.start)]), t,
                 Outcome([], s.macros, if asked && head.what.Elseif? then Complaint(u, s.macros, head) else []),
                 [OpenedBranch(kind, |below| + 1, head, now, asked)])
  {
    hide Holds, Complaint, OpenedBranch;
    assert s.stack[..|below|] == below;
  }

  /** The machine stands inside a group opened over the given frames. */
  ghost predicate InGroup(s: State, below: seq<CondFrame>, active: bool) {
    && !s.truncated
    && |s.stack| == |below| + 1 && s.stack[..|below|] == below
    && CurrentActive(below) == active
    && var top := s.stack[|below|];
    && top.parentActive == active && !top.overflow
    && (top.branchActive ==> active)
    && top.openBranchIndex < |s.branches|
  }

  lemma {:induction false} ArmsAreFollowed(u: Setup, s: State, below: seq<CondFrame>, arms: Arms, active: bool)
    requires InGroup(s, below, active) && ShapedArms(arms) && WithinArms(arms, |below| + 1, u.maxDepth)
    ensures
      var top := s.stack[|below|];
      var t := Steps(u, s, FlattenArms(arms));
      && Reaches(s.(branches := Patch(s.branches, top.openBranchIndex, arms)), t,
                 ArmsMeaning(u, arms, active, top.taken, s.macros),
                 ArmsMarks(u, arms, |below| + 1, active, top.taken, s.macros))
      && (ClosedArms(arms) ==> t.stack == below)
      && (!ClosedArms(arms) ==> t.stack != [])
    decreases arms, 3
  {
    hide Step, Marks, Meaning, Holds, Complaint;
    match arms
    case Open =>
    case Close(line) =>
      ClosingGroup(u, s, below, line, active);
    case Next(_, _, _) =>
      ArmIsFollowed(u, s, below, arms, active);
  }

  lemma {:induction false} ClosingGroup(u: Setup, s: State, below: seq<CondFrame>, line: Line, active: bool)
    requires InGroup(s, below, active) && line.what.Endif?
    ensures
      var i := s.stack[|below|].openBranchIndex;
      Steps(u, s, [line]) == s.(stack := below, branches := s.branches[i := s.branches[i].(bodyEnd := line.start)])
  {
    assert Steps(u, s, [line]) == Step(u, s, line);
  }

  lemma {:induction false} ArmIsFollowed(u: Setup, s: State, below: seq<CondFrame>, arms: Arms, active: bool)
    requires arms.Next?
    requires InGroup(s, below, active) && ShapedArms(arms) && WithinArms(arms, |below| + 1, u.maxDepth)
    ensures
      var top := s.stack[|below|];
      var t := Steps(u, s, FlattenArms(arms));
      && Reaches(s.(branches := Patch(s.branches, top.openBranchIndex, arms)), t,
                 ArmsMeaning(u, arms, active, top.taken, s.macros),
                 ArmsMarks(u, arms, |below| + 1, active, top.taken, s.macros))
      && (ClosedArms(arms) ==> t.stack == below)
      && (!ClosedArms(arms) ==> t.stack != [])
    decreases arms, 2
  {
    hide Step, Steps, Holds, Flatten, Meaning, Marks, ArmsMarks, ArmsMeaning, Complaint, CurrentActive;
    var top := s.stack[|below|];
    var now := active && !top.taken && (arms.head.what.Else? || Holds(u, s.macros, arms.head.what.cond));
    var s1, s2, t := ArmStates(u, s, arms);
    OpeningArm(u, s, below, arms.head, active);
    MachineFollowsForest(u, s1, arms.body, now, false);
    if Closed(arms.body) {
      InGroupAfter(s1, s2, below, active);
      ArmsAreFollowed(u, s2, below, arms.more, active);
    } else {
      NoArms(u, s2, arms.more, |below| + 1, active, top.taken || now);
    }
    ArmSums(u, s, s1, s2, t, below, arms, active);
  }

  lemma {:induction false} ArmStates(u: Setup, s: State, arms: Arms) returns (s1: State, s2: State, t: State)
    requires arms.Next?
    ensures s1 == Step(u, s, arms.head)
    ensures s2 == Steps(u, s1, Flatten(arms.body))
    ensures t == Steps(u, s2, FlattenArms(arms.more)) == Steps(u, s, FlattenArms(arms))
  {
    hide Step;
    s1 := Step(u, s, arms.head);
    s2 := Steps(u, s1, Flatten(arms.body));
    t := Steps(u, s2, FlattenArms(arms.more));
    var a, b := Flatten(arms.body), FlattenArms(arms.more);
    assert FlattenArms(arms) == [arms.head] + (a + b);
    assert FlattenArms(arms)[1..] == a + b;
    StepsSplit(u, s1, a, b);
  }

  lemma {:induction false} InGroupAfter(s1: State, s2: State, below: seq<CondFrame>, active: bool)
    requires InGroup(s1, below, active) && s2.stack == s1.stack && s2.truncated == s1.truncated
    requires |s1.branches| <= |s2.branches|
    ensures InGroup(s2, below, active)
  {
  }

  lemma {:induction false} ArmSums(
      u: Setup, s: State, s1: State, s2: State, t: State, below: seq<CondFrame>, arms: Arms, active: bool)
    requires arms.Next? && (arms.head.what.Elseif? || arms.head.what.Else?) && InGroup(s, below, active)
    requires
      var head := arms.head;
      var top := s.stack[|below|];
      var now := active && !top.taken && (head.what.Else? || Holds(u, s.macros, head.what.cond));
      var asked := active && (head.what.Else? || !top.taken);
      var kind := if head.what.Else? then DirElse else DirElseif;
      && Reaches(s.(branches := Patch(s.branches, top.openBranchIndex, arms)), s1,
                 Outcome([], s.macros, if asked && head.what.Elseif? then Complaint(u, s.macros, head) else []),
                 [OpenedBranch(kind, |below| + 1, head, now, asked)])
      && Reaches(s1, s2, Meaning(u, arms.body, now, s.macros), Marks(u, arms.body, |below| + 1, now, s.macros))
      && Reaches(s2.(branches := Patch(s2.branches, |s.branches|, arms.more)), t,
                 ArmsMeaning(u, arms.more, active, top.taken || now, s2.macros),
                 ArmsMarks(u, arms.more, |below| + 1, active, top.taken || now, s2.macros))
    ensures
      var top := s.stack[|below|];
      Reaches(s.(branches := Patch(s.branches, top.openBranchIndex, arms)), t,
              ArmsMeaning(u, arms, active, top.taken, s.macros),
              ArmsMarks(u, arms, |below| + 1, active, top.taken, s.macros))
  {
    hide Holds, Complaint, Meaning, Marks, CurrentActive, ArmsMeaning, ArmsMarks, OpenedBranch;
    var head := arms.head;
    var top := s.stack[|below|];
    var now := active && !top.taken && (head.what.Else? || Holds(u, s.macros, head.what.cond));
    var asked := active && (head.what.Else? || !top.taken);
    var kind := if head.what.Else? then DirElse else DirElseif;
    NewestEnd(kind, |below| + 1, head, now, asked);
    Compose(s.(branches := Patch(s.branches, top.openBranchIndex, arms)), s1, s2, t, head, arms.more,
            if asked && head.what.Elseif? then Complaint(u, s.macros, head) else [],
            OpenedBranch(kind, |below| + 1, head, now, asked),
            Meaning(u, arms.body, now, s.macros), Marks(u, arms.body, |below| + 1, now, s.macros),
            ArmsMeaning(u, arms.more, active, top.taken || now, s2.macros),
            ArmsMarks(u, arms.more, |below| + 1, active, top.taken || now, s2.macros));
    ArmUnfolds(u, arms, |below| + 1, active, top.taken, s.macros);
  }

  lemma {:induction false} NewestEnd(kind: DirectiveKind, depth: nat, head: Line, active: bool, evaluated: bool)
    ensures OpenedBranch(kind, depth, head, active, evaluated).bodyEnd == head.end
    ensures forall more :: OpenedBranch(kind, depth, head, active, evaluated).(bodyEnd := BodyEnd(head, more))
                           == Mark(kind, depth, head, more, active, evaluated)
  {
  }

  lemma {:induction false} ArmUnfolds(u: Setup, arms: Arms, depth: nat, active: bool, taken: bool, m: Macros)
    requires arms.Next? && (arms.head.what.Elseif? || arms.head.what.Else?)
    ensures
      var head := arms.head;
      var now := active && !taken && (head.what.Else? || Holds(u, m, head.what.cond));
      var asked := active && (head.what.Else? || !taken);
      var kind := if head.what.Else? then DirElse else DirElseif;
      var c := if asked && head.what.Elseif? then Complaint(u, m, head) else [];
      var a := Meaning(u, arms.body, now, m);
      var b := ArmsMeaning(u, arms.more, active, taken || now, a.macros);
      && ArmsMeaning(u, arms, active, taken, m) == Outcome(a.selected + b.selected, b.macros, c + a.diags + b.diags)
      && ArmsMarks(u, arms, depth, active, taken, m)
         == [Mark(kind, depth, head, arms.more, now, asked)] + Marks(u, arms.body, depth, now, m)
            + ArmsMarks(u, arms.more, depth, active, taken || now, a.macros)
  {
    hide Holds, Complaint, Marks, Mark;
    if active && !taken {
    } else {
      assert Meaning(u, arms.body, false, m) == Outcome([], m, []);
    }
  }
}
