/** What the builder promises about one statement, read off the tree alone:
    the blocks are numbered in visit order, so a statement whose first block
    follows block `b` occupies the blocks b+1 .. b+Size(s). */
module CfgFragments {
  import opened Collections
  import opened Syntax

  /** The dangling ends of a compiled statement; entry 0 means "no block". */
  datatype Fragment = Fragment(entry: nat, exits: set<nat>, breaks: set<nat>, continues: set<nat>)

  const NOTHING := Fragment(0, {}, {}, {})

  function Join(acc: Fragment, part: Fragment, isLabel: bool): Fragment {
    if part.entry == 0 then acc
    else if acc.entry == 0 then part
    else Fragment(acc.entry,
                  if acc.exits != {} || isLabel then part.exits else acc.exits,
                  acc.breaks + part.breaks,
                  acc.continues + part.continues)
  }

  function Frag(eval: Evaluator, s: Stmt, b: nat): Fragment {
    match s
    case Braces(_, children) => FragAll(eval, children, b, NOTHING)
    case If(_, cond, c, a) =>
      var t := CondTruth(eval, cond);
      var fc := FragOpt(eval, c, b + 1);
      var fa := FragOpt(eval, a, b + 1 + SizeOpt(c));
      var lc := if t.MayHold() then fc else NOTHING;
      var la := if t.MayFail() then fa else NOTHING;
      Fragment(b + 1,
               (if c.Some? then lc.exits else {b + 1})
               + (if a.Some? then la.exits else if t.MayFail() then {b + 1} else {}),
               lc.breaks + la.breaks,
               lc.continues + la.continues)
    case Switch(_, clauses) =>
      var f := FragClauses(eval, clauses, b + 1, b + 1);
      Fragment(b + 1, f.exits + (if HasDefault(clauses) then {} else {b + 1}), {}, f.continues)
    case Loop(_, kind, cond, body) =>
      var t := LoopTruth(eval, kind, cond);
      if body.None? then Fragment(b + 1, if t.Holds? then {} else {b + 1}, {}, {})
      else
        var f := Frag(eval, body.value, b + 1);
        if kind.DoWhile? then
          Fragment(b + 1, (if t.MayFail() then f.exits + f.continues else {}) + f.breaks, {}, {})
        else
          Fragment(b + 1, (if t.MayFail() then {b + 1} else {}) + (if t.MayHold() then f.breaks else {}), {}, {})
    case Return(_) => Fragment(b + 1, {}, {}, {})
    case GotoStmt(_, _) => Fragment(b + 1, {}, {}, {})
    case Break(_) => Fragment(b + 1, {}, {b + 1}, {})
    case Continue(_) => Fragment(b + 1, {}, {}, {b + 1})
    case LabelStmt(_, _) => Fragment(b + 1, {b + 1}, {}, {})
    case Simple(_, _) => Fragment(b + 1, {b + 1}, {}, {})
  }

  function FragOpt(eval: Evaluator, o: Option<Stmt>, b: nat): Fragment {
    if o.Some? then Frag(eval, o.value, b) else NOTHING
  }

  /** The statement list, continuing from the fragment built so far. */
  function FragAll(eval: Evaluator, ss: Stmts, b: nat, acc: Fragment): Fragment {
    match ss
    case Nil => acc
    case Cons(s, rest) =>
      FragAll(eval, rest, b + Size(s), Join(acc, Frag(eval, s, b), s.LabelStmt?))
  }

  /** Clauses of a switch: `breaks` of a clause leave the switch, so they are exits. */
  function FragClauses(eval: Evaluator, cs: Clauses, b: nat, header: nat): Fragment {
    match cs
    case End => NOTHING
    case Clause(_, body, rest) =>
      var f := FragOpt(eval, body, b);
      var more := FragClauses(eval, rest, b + SizeOpt(body), header);
      Fragment(0, (if f.entry == 0 then {header} else f.exits + f.breaks) + more.exits,
               {}, (if f.entry == 0 then {} else f.continues) + more.continues)
  }

  /** Edges that `s` brings into the graph, when gotos go to `labels`. */
  ghost predicate Edge(eval: Evaluator, labels: map<string, nat>, s: Stmt, b: nat, x: nat, y: nat) {
    match s
    case Braces(_, children) => SeqEdge(eval, labels, children, b, NOTHING, x, y)
    case If(_, cond, c, a) =>
      var t := CondTruth(eval, cond);
      var fc := FragOpt(eval, c, b + 1);
      var fa := FragOpt(eval, a, b + 1 + SizeOpt(c));
      || (t.MayHold() && x == b + 1 && y == fc.entry && y != 0)
      || (t.MayFail() && x == b + 1 && y == fa.entry && y != 0)
      || (c.Some? && Edge(eval, labels, c.value, b + 1, x, y))
      || (a.Some? && Edge(eval, labels, a.value, b + 1 + SizeOpt(c), x, y))
    case Switch(_, clauses) => ClauseEdge(eval, labels, clauses, b + 1, b + 1, x, y)
    case Loop(_, kind, cond, body) =>
      var t := LoopTruth(eval, kind, cond);
      body.Some? &&
      var f := Frag(eval, body.value, b + 1);
      || Edge(eval, labels, body.value, b + 1, x, y)
      || ((kind.DoWhile? || t.MayHold()) && x == b + 1 && y == f.entry && y != 0)
      || (t.MayHold() && (x in f.exits || x in f.continues) && y == b + 1)
    case GotoStmt(_, name) => name in labels && x == b + 1 && y == labels[name]
    case _ => false
  }

  ghost predicate SeqEdge(eval: Evaluator, labels: map<string, nat>, ss: Stmts, b: nat, acc: Fragment, x: nat, y: nat) {
    match ss
    case Nil => false
    case Cons(s, rest) =>
      var part := Frag(eval, s, b);
      || (part.entry != 0 && acc.entry != 0 && x in acc.exits && y == part.entry)
      || Edge(eval, labels, s, b, x, y)
      || SeqEdge(eval, labels, rest, b + Size(s), Join(acc, part, s.LabelStmt?), x, y)
  }

  ghost predicate ClauseEdge(eval: Evaluator, labels: map<string, nat>, cs: Clauses, b: nat, header: nat, x: nat, y: nat) {
    match cs
    case End => false
    case Clause(_, body, rest) =>
      || (body.Some? && (Edge(eval, labels, body.value, b, x, y)
                         || (x == header && y == Frag(eval, body.value, b).entry && y != 0)))
      || ClauseEdge(eval, labels, rest, b + SizeOpt(body), header, x, y)
  }

  /** The labels of a statement: each name goes to its first block in visit order. */
  function Labels(s: Stmt, b: nat): map<string, nat> {
    match s
    case Braces(_, children) => LabelsAll(children, b)
    case If(_, _, c, a) => LabelsOpt(a, b + 1 + SizeOpt(c)) + LabelsOpt(c, b + 1)
    case Switch(_, clauses) => LabelsClauses(clauses, b + 1)
    case Loop(_, _, _, body) => LabelsOpt(body, b + 1)
    case LabelStmt(_, name) => if name == "" then map[] else map[name := b + 1]
    case _ => map[]
  }

  function LabelsOpt(o: Option<Stmt>, b: nat): map<string, nat> {
    if o.Some? then Labels(o.value, b) else map[]
  }

  function LabelsAll(ss: Stmts, b: nat): map<string, nat> {
    match ss
    case Nil => map[]
    case Cons(s, rest) => LabelsAll(rest, b + Size(s)) + Labels(s, b)
  }

  function LabelsClauses(cs: Clauses, b: nat): map<string, nat> {
    match cs
    case End => map[]
    case Clause(_, body, rest) => LabelsClauses(rest, b + SizeOpt(body)) + LabelsOpt(body, b)
  }

  /** The edges of the finished graph of a function body. */
  ghost predicate GraphEdge(eval: Evaluator, root: Stmt, x: nat, y: nat) {
    Edge(eval, Labels(root, 0), root, 0, x, y)
  }

  /** A statement compiles to nothing exactly when it is braces around nothing. */
  lemma {:induction false} EntryIsFirstBlock(eval: Evaluator, s: Stmt, b: nat)
    ensures Frag(eval, s, b).entry == if Size(s) == 0 then 0 else b + 1
    ensures Size(s) == 0 ==> Frag(eval, s, b) == NOTHING
  {
    if s.Braces? {
      EntryIsFirstBlockAll(eval, s.children, b, NOTHING);
    }
  }

  lemma {:induction false} EntryIsFirstBlockAll(eval: Evaluator, ss: Stmts, b: nat, acc: Fragment)
    ensures FragAll(eval, ss, b, acc).entry ==
            if acc.entry != 0 then acc.entry else if SizeAll(ss) == 0 then 0 else b + 1
    ensures SizeAll(ss) == 0 ==> FragAll(eval, ss, b, acc) == acc
  {
    if ss.Cons? {
      var s := ss.head;
      EntryIsFirstBlock(eval, s, b);
      EntryIsFirstBlockAll(eval, ss.tail, b + Size(s), Join(acc, Frag(eval, s, b), s.LabelStmt?));
    }
  }
}
