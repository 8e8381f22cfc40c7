/** What conditional compilation selects, for every sequence of lines
    (preprocess/directives.go, preprocess/engine.go). */
module ConditionalTheorems {
  import opened Collections
  import opened Cells
  import opened Conditions
  import opened ConditionTheorems
  import opened Conditionals
  import opened ConditionalTrees

  // ---- Every sequence of lines is a tree ----

  /** Read lines into a forest, up to the directive that ends the enclosing branch. */
  lemma {:induction false} ReadForest(lines: seq<Line>, top: bool) returns (f: Forest, rest: seq<Line>)
    ensures lines == Flatten(f) + rest && Shaped(f, top)
    ensures rest != [] ==> !top && Closed(f) && (rest[0].what.Elseif? || rest[0].what.Else? || rest[0].what.Endif?)
    ensures |rest| <= |lines|
    decreases |lines|, 1
  {
    if lines == [] {
      f, rest := Nothing, [];
    } else if lines[0].what.If? {
      f, rest := ReadGroup(lines, top);
    } else if !top && !lines[0].what.Act? {
      f, rest := Nothing, lines;
    } else {
      f, rest := ReadForest(lines[1..], top);
      assert lines == [lines[0]] + (Flatten(f) + rest);
      f := Plain(lines[0], f);
    }
  }

  lemma {:induction false} ReadGroup(lines: seq<Line>, top: bool) returns (f: Forest, rest: seq<Line>)
    requires lines != [] && lines[0].what.If?
    ensures lines == Flatten(f) + rest && Shaped(f, top)
    ensures rest != [] ==> !top && Closed(f) && (rest[0].what.Elseif? || rest[0].what.Else? || rest[0].what.Endif?)
    ensures |rest| <= |lines|
    decreases |lines|, 0
  {
    hide Shaped, ShapedArms, Flatten, FlattenArms;
    var body, r1 := ReadForest(lines[1..], false);
    var more, r2 := ReadArms(r1);
    var others, r3 := ReadForest(r2, top);
    f, rest := Forest.Group(lines[0], body, more, others), r3;
    GroupFlattens(f, rest);
    if r2 == [] {
      ForestOfNothing(others, r3);
    }
    if r1 == [] {
      ArmsOfNothing(more, r2);
    }
    GroupIsShaped(lines[0], body, more, others, top);
  }

  lemma {:induction false} GroupFlattens(f: Forest, tail: seq<Line>)
    requires f.Group?
    ensures
      var lines := Flatten(f) + tail;
      lines != [] && lines[0] == f.head
      && lines[1..] == Flatten(f.body) + (FlattenArms(f.more) + (Flatten(f.rest) + tail))
  {
    hide FlattenArms;
    FourJoin(f.head, Flatten(f.body), FlattenArms(f.more), Flatten(f.rest), tail);
  }

  lemma {:induction false} FourJoin<T>(x: T, a: seq<T>, b: seq<T>, c: seq<T>, d: seq<T>)
    ensures ([x] + a + b + c + d)[1..] == a + (b + (c + d))
  {
    assert a + b + c + d == a + (b + (c + d));
  }

  lemma {:induction false} NothingIsNoLine(f: Forest)
    requires f.Group?
    ensures f.rest == Nothing ==> Flatten(f.rest) == []
    ensures f.more == Open ==> FlattenArms(f.more) == []
  {
  }

  lemma {:induction false} GroupIsShaped(head: Line, body: Forest, more: Arms, rest: Forest, top: bool)
    requires head.what.If? && Shaped(body, false) && ShapedArms(more) && Shaped(rest, top)
    requires Closed(body) || (more == Open && rest == Nothing)
    requires ClosedArms(more) || rest == Nothing
    ensures Shaped(Forest.Group(head, body, more, rest), top)
  {
  }

  lemma {:induction false} ForestOfNothing(f: Forest, rest: seq<Line>)
    requires Flatten(f) + rest == []
    ensures f == Nothing
  {
    assert |Flatten(f)| == 0;
  }

  lemma {:induction false} ArmsOfNothing(m: Arms, rest: seq<Line>)
    requires FlattenArms(m) + rest == []
    ensures m == Open
  {
    assert |FlattenArms(m)| == 0;
  }

  lemma {:induction false} ReadArms(lines: seq<Line>) returns (m: Arms, rest: seq<Line>)
    requires lines != [] ==> lines[0].what.Elseif? || lines[0].what.Else? || lines[0].what.Endif?
    ensures lines == FlattenArms(m) + rest && ShapedArms(m)
    ensures !ClosedArms(m) ==> rest == []
    ensures lines == [] ==> m == Open
    ensures |rest| <= |lines|
    decreases |lines|, 2
  {
    if lines == [] {
      m, rest := Open, [];
    } else if lines[0].what.Endif? {
      m, rest := Close(lines[0]), lines[1..];
    } else {
      var body, r1 := ReadForest(lines[1..], false);
      var more, r2 := ReadArms(r1);
      m, rest := Next(lines[0], body, more), r2;
      assert lines == [lines[0]] + (Flatten(body) + (FlattenArms(more) + r2));
    }
  }

  // ---- The limit, read off the lines ----

  /** No #if stands at the limit. */
  predicate NestsWithin(lines: seq<Line>, depth: nat, max: nat)
    decreases |lines|
  {
    lines == [] ||
    match lines[0].what
    case If(_) => depth < max && NestsWithin(lines[1..], depth + 1, max)
    case Endif => NestsWithin(lines[1..], if depth > 0 then depth - 1 else 0, max)
    case _ => NestsWithin(lines[1..], depth, max)
  }

  lemma {:induction false} LimitOnTree(f: Forest, tail: seq<Line>, depth: nat, top: bool, max: nat)
    requires Shaped(f, top) && (top <==> depth == 0)
    requires NestsWithin(Flatten(f) + tail, depth, max)
    requires Closed(f) || tail == []
    ensures WithinDepth(f, depth, max) && (Closed(f) ==> NestsWithin(tail, depth, max))
    decreases f, 1
  {
    var lines := Flatten(f) + tail;
    match f
    case Nothing =>
      assert lines == tail;
    case Plain(line, rest) =>
      assert lines[1..] == Flatten(rest) + tail;
      LimitOnTree(rest, tail, depth, top, max);
    case Group(head, body, more, rest) =>
      LimitOnGroup(f, tail, depth, top, max);
  }

  lemma {:induction false} LimitOnGroup(f: Forest, tail: seq<Line>, depth: nat, top: bool, max: nat)
    requires f.Group?
    requires Shaped(f, top) && (top <==> depth == 0)
    requires NestsWithin(Flatten(f) + tail, depth, max)
    requires Closed(f) || tail == []
    ensures WithinDepth(f, depth, max) && (Closed(f) ==> NestsWithin(tail, depth, max))
    decreases f, 0
  {
    hide Flatten, FlattenArms;
    GroupFlattens(f, tail);
    NothingIsNoLine(f);
    var after := Flatten(f.rest) + tail;
    LimitOnTree(f.body, FlattenArms(f.more) + after, depth + 1, false, max);
    if Closed(f.body) {
      LimitOnArms(f.more, after, depth + 1, max);
    }
    if ClosedArms(f.more) && Closed(f.body) {
      LimitOnTree(f.rest, tail, depth, top, max);
    }
  }

  lemma {:induction false} LimitOnArms(m: Arms, tail: seq<Line>, depth: nat, max: nat)
    requires ShapedArms(m) && depth > 0
    requires NestsWithin(FlattenArms(m) + tail, depth, max)
    requires ClosedArms(m) || tail == []
    ensures WithinArms(m, depth, max) && (ClosedArms(m) ==> NestsWithin(tail, depth - 1, max))
    decreases m, 1
  {
    var lines := FlattenArms(m) + tail;
    match m
    case Open =>
    case Close(line) =>
      assert lines[1..] == tail;
    case Next(head, body, more) =>
      assert lines[1..] == Flatten(body) + (FlattenArms(more) + tail);
      LimitOnTree(body, FlattenArms(more) + tail, depth, false, max);
      if Closed(body) {
        LimitOnArms(more, tail, depth, max);
      }
  }

  /** The output is cut off exactly when some #if stands at the limit. */
  lemma {:induction false} TruncatedIffTooDeep(u: Setup, s: State, lines: seq<Line>)
    ensures Steps(u, s, lines).truncated <==> s.truncated || !NestsWithin(lines, |s.stack|, u.maxDepth)
    decreases |lines|
  {
    hide Step;
    if lines != [] {
      StepDepth(u, s, lines[0]);
      TruncatedIffTooDeep(u, Step(u, s, lines[0]), lines[1..]);
    }
  }

  lemma {:induction false} StepDepth(u: Setup, s: State, line: Line)
    ensures
      var t := Step(u, s, line);
      && t.truncated == (s.truncated || (line.what.If? && |s.stack| >= u.maxDepth))
      && |t.stack| == (if line.what.If? then |s.stack| + 1
                       else if line.what.Endif? && |s.stack| > 0 then |s.stack| - 1
                       else |s.stack|)
  {
    hide Holds, Complaint, OpenedBranch, CurrentActive, StepElseif, StepElse;
    if line.what.Elseif? || line.what.Else? {
      ReopeningKeepsDepth(u, s, line);
    }
  }

  lemma {:induction false} ReopeningKeepsDepth(u: Setup, s: State, line: Line)
    requires line.what.Elseif? || line.what.Else?
    ensures Step(u, s, line).truncated == s.truncated && |Step(u, s, line).stack| == |s.stack|
  {
    hide Holds, Complaint, OpenedBranch, CurrentActive;
  }

  // ---- The main theorem ----

  /** Any lines within the limit: the machine selects the tokens, makes the macro-table
      updates, reports the diagnostics and leaves the branch records of the tree the
      lines form, and ends inside a group exactly when a group has no #endif. */
  lemma {:induction false} MachineSelectsTheTree(u: Setup, macros: Macros, lines: seq<Line>) returns (f: Forest)
    requires NestsWithin(lines, 0, u.maxDepth)
    ensures Flatten(f) == lines && Shaped(f, true)
    ensures Reaches(Start(macros), Steps(u, Start(macros), lines), Meaning(u, f, true, macros), Marks(u, f, 0, true, macros))
    ensures Steps(u, Start(macros), lines).stack == [] <==> Closed(f)
  {
    hide Meaning, Marks, Steps, WithinDepth;
    var rest;
    f, rest := ReadForest(lines, true);
    assert Flatten(f) == lines;
    assert Flatten(f) + [] == lines;
    LimitOnTree(f, [], 0, true, u.maxDepth);
    MachineFollowsForest(u, Start(macros), f, true, true);
  }

  // ---- A group contributes its first branch whose condition holds ----

  /** The condition spells a tree that is worth something other than 0. */
  ghost predicate IsTrue(u: Setup, m: Macros, cond: seq<Tok>) {
    exists e, v: Cell :: Spells(e, cond) && Value(Context(m, u.literal), {}, e) == Some(v) && v != 0
  }

  /** A condition holds exactly when it is true so, and is complained of exactly when no
      tree that it spells has a value. */
  lemma {:induction false} HoldsIffTrue(u: Setup, m: Macros, line: Line)
    requires line.what.If? || line.what.Elseif?
    ensures Holds(u, m, line.what.cond) <==> IsTrue(u, m, line.what.cond)
    ensures Complaint(u, m, line) ==
      if exists e :: Spells(e, line.what.cond) && Value(Context(m, u.literal), {}, e).Some? then []
      else [Diag(UnresolvableCondition, line.start)]
  {
    hide Value, Spells, Evaluate;
    var c := Context(m, u.literal);
    forall v: Cell ensures Evaluate(c, line.what.cond) == Some(v)
        <==> exists e :: Spells(e, line.what.cond) && Value(c, {}, e) == Some(v) {
      AcceptedIffRendering(c, line.what.cond, v);
    }
    if Evaluate(c, line.what.cond).Some? {
      var v := Evaluate(c, line.what.cond).value;
      assert Evaluate(c, line.what.cond) == Some(v);
    }
  }

  /** The first branch of the group whose condition is true under the table the group
      meets; an #else is always. */
  ghost function Chosen(u: Setup, f: Forest, m: Macros): Option<Forest>
    requires f.Group? && f.head.what.If?
  {
    if IsTrue(u, m, f.head.what.cond) then Some(f.body) else ChosenArm(u, f.more, m)
  }

  ghost function ChosenArm(u: Setup, arms: Arms, m: Macros): Option<Forest> {
    if !arms.Next? then None
    else if arms.head.what.Else? || (arms.head.what.Elseif? && IsTrue(u, m, arms.head.what.cond)) then Some(arms.body)
    else ChosenArm(u, arms.more, m)
  }

  lemma {:induction false} GroupIsItsFirstHoldingBranch(u: Setup, f: Forest, m: Macros)
    requires f.Group? && f.head.what.If?
    ensures
      var o := GroupMeaning(u, f, m);
      match Chosen(u, f, m)
      case None => o.selected == [] && o.macros == m
      case Some(b) => o.selected == Meaning(u, b, true, m).selected && o.macros == Meaning(u, b, true, m).macros
  {
    hide Holds, Complaint, IsTrue;
    HoldsIffTrue(u, m, f.head);
    if Holds(u, m, f.head.what.cond) {
      var inner := Meaning(u, f.body, true, m).macros;
      assert ArmsMeaning(u, f.more, true, true, inner) == Outcome([], inner, []);
    } else {
      assert Meaning(u, f.body, false, m) == Outcome([], m, []);
      ArmsAreTheirFirstHolding(u, f.more, m);
    }
  }

  lemma {:induction false} ArmsAreTheirFirstHolding(u: Setup, arms: Arms, m: Macros)
    ensures
      var o := ArmsMeaning(u, arms, true, false, m);
      match ChosenArm(u, arms, m)
      case None => o.selected == [] && o.macros == m
      case Some(b) => o.selected == Meaning(u, b, true, m).selected && o.macros == Meaning(u, b, true, m).macros
  {
    hide Holds, Complaint, IsTrue;
    if arms.Next? {
      if arms.head.what.Elseif? {
        HoldsIffTrue(u, m, arms.head);
      }
      if arms.head.what.Else? || (arms.head.what.Elseif? && Holds(u, m, arms.head.what.cond)) {
        var inner := Meaning(u, arms.body, true, m).macros;
        assert ArmsMeaning(u, arms.more, true, true, inner) == Outcome([], inner, []);
      } else {
        assert Meaning(u, arms.body, false, m) == Outcome([], m, []);
        ArmsAreTheirFirstHolding(u, arms.more, m);
      }
    }
  }

  // ---- At most one branch of a group is active ----

  predicate Inactive(marks: seq<Branch>) { forall b :: b in marks ==> !b.active }

  predicate Deeper(marks: seq<Branch>, depth: nat) { forall b :: b in marks ==> b.depth > depth }

  /** Of the records at one depth, at most one is active. */
  predicate OneActive(marks: seq<Branch>, depth: nat) {
    forall i, j :: 0 <= i < j < |marks| && marks[i].depth == depth && marks[j].depth == depth ==>
      !(marks[i].active && marks[j].active)
  }

  lemma {:induction false} MarksAreDeeper(u: Setup, f: Forest, depth: nat, active: bool, m: Macros)
    ensures Deeper(Marks(u, f, depth, active, m), depth)
    ensures !active ==> Inactive(Marks(u, f, depth, active, m))
    decreases f
  {
    hide Holds, Meaning, GroupMeaning;
    match f
    case Nothing =>
    case Plain(line, rest) =>
      MarksAreDeeper(u, rest, depth, active, if active then PlainMeaning(line, m).macros else m);
    case Group(head, body, more, rest) =>
      var taken := active && head.what.If? && Holds(u, m, head.what.cond);
      MarksAreDeeper(u, body, depth + 1, taken, m);
      ArmsMarksAreDeep(u, more, depth + 1, active, taken, Meaning(u, body, taken, m).macros);
      MarksAreDeeper(u, rest, depth, active, if active then GroupMeaning(u, f, m).macros else m);
  }

  lemma {:induction false} ArmsMarksAreDeep(u: Setup, arms: Arms, depth: nat, active: bool, taken: bool, m: Macros)
    requires depth > 0
    ensures Deeper(ArmsMarks(u, arms, depth, active, taken, m), depth - 1)
    ensures !active || taken ==> Inactive(ArmsMarks(u, arms, depth, active, taken, m))
    ensures OneActive(ArmsMarks(u, arms, depth, active, taken, m), depth)
    decreases arms
  {
    hide Holds, Meaning, OneActive;
    if arms.Next? {
      var head := arms.head;
      var now := active && !taken && (head.what.Else? || (head.what.Elseif? && Holds(u, m, head.what.cond)));
      MarksAreDeeper(u, arms.body, depth, now, m);
      ArmsMarksAreDeep(u, arms.more, depth, active, taken || now, Meaning(u, arms.body, now, m).macros);
      var all := ArmsMarks(u, arms, depth, active, taken, m);
      OneActiveJoins(all[0], Marks(u, arms.body, depth, now, m),
                     ArmsMarks(u, arms.more, depth, active, taken || now, Meaning(u, arms.body, now, m).macros), depth);
    } else {
      NoneIsOneActive(depth);
    }
  }

  lemma {:induction false} NoneIsOneActive(depth: nat)
    ensures OneActive([], depth)
  {
  }

  lemma {:induction false} OneActiveJoins(mark: Branch, inner: seq<Branch>, later: seq<Branch>, depth: nat)
    requires Deeper(inner, depth) && OneActive(later, depth) && (mark.active ==> Inactive(later))
    ensures OneActive([mark] + inner + later, depth)
  {
    var all := [mark] + inner + later;
    forall i, j | 0 <= i < j < |all| && all[i].depth == depth && all[j].depth == depth
      ensures !(all[i].active && all[j].active)
    {
      if 1 <= i < 1 + |inner| {
        assert all[i] in inner;
      } else if 1 <= j < 1 + |inner| {
        assert all[j] in inner;
      } else {
        assert all[j] == later[j - 1 - |inner|];
      }
    }
  }

  lemma {:induction false} AtMostOneBranchIsActive(u: Setup, f: Forest, depth: nat, active: bool, m: Macros)
    requires f.Group?
    ensures OneActive(CoreMarks(u, f, depth, active, m), depth + 1)
  {
    hide Holds, Meaning, OneActive;
    var taken := active && f.head.what.If? && Holds(u, m, f.head.what.cond);
    var inner := Meaning(u, f.body, taken, m).macros;
    MarksAreDeeper(u, f.body, depth + 1, taken, m);
    ArmsMarksAreDeep(u, f.more, depth + 1, active, taken, inner);
    OneActiveJoins(Mark(DirIf, depth + 1, f.head, f.more, taken, active), Marks(u, f.body, depth + 1, taken, m),
                   ArmsMarks(u, f.more, depth + 1, active, taken, inner), depth + 1);
  }
}
