/** The graph and the builder's working state, with the value that each builder
    operation leaves behind. */
module CfgGraph {
  import opened Collections
  import opened Syntax

  datatype Kind =
    | KBraces | KIf | KSwitch | KLoop(kind: LoopKind) | KReturn | KBreak | KContinue | KGoto | KLabel
    | KSimple(text: string)

  datatype Span = Span(file: nat, start: int, end: int)

  datatype Block = Block(id: nat, kind: Kind, span: Span, successors: seq<nat>)

  datatype Goto = Goto(block: nat, name: string, span: Span)

  datatype Graph = Graph(blocks: seq<Block>, entry: nat, fallsThrough: bool, unresolved: seq<Goto>)

  /** What the builder works on: the blocks so far, the labels seen, and the
      jumps that still wait for their label. */
  datatype Work = Work(blocks: seq<Block>, labels: map<string, nat>, gotos: map<string, seq<Goto>>)

  const FRESH := Work([], map[], map[])

  /** A compiled statement: its first block and its dangling ends, in order. */
  datatype Part = Part(entry: nat, exits: seq<nat>, breaks: seq<nat>, continues: seq<nat>)

  const EMPTY := Part(0, [], [], [])

  datatype Env = Env(file: nat, eval: Evaluator)

  function KindOf(s: Stmt): Kind {
    match s
    case Braces(_, _) => KBraces
    case If(_, _, _, _) => KIf
    case Switch(_, _) => KSwitch
    case Loop(_, kind, _, _) => KLoop(kind)
    case Return(_) => KReturn
    case Break(_) => KBreak
    case Continue(_) => KContinue
    case GotoStmt(_, _) => KGoto
    case LabelStmt(_, _) => KLabel
    case Simple(_, text) => KSimple(text)
  }

  function SpanIn(file: nat, r: Range): Span { Span(file, r.start, r.end) }

  function NewBlock(env: Env, s: Stmt, w: Work): Work {
    w.(blocks := w.blocks + [Block(|w.blocks| + 1, KindOf(s), SpanIn(env.file, s.at), [])])
  }

  /** One more successor of block `x`, unless it has it already. */
  function AddEdge(bs: seq<Block>, x: nat, y: nat): (r: seq<Block>)
    ensures |r| == |bs|
  {
    if x == 0 || y == 0 || x > |bs| || y in bs[x - 1].successors then bs
    else bs[x - 1 := bs[x - 1].(successors := bs[x - 1].successors + [y])]
  }

  function AddEdges(bs: seq<Block>, xs: seq<nat>, y: nat): (r: seq<Block>)
    ensures |r| == |bs|
    decreases |xs|
  {
    if xs == [] then bs else AddEdges(AddEdge(bs, xs[0], y), xs[1..], y)
  }

  function Jumps(js: seq<Goto>): seq<nat> {
    if js == [] then [] else [js[0].block] + Jumps(js[1..])
  }

  function Waiting(w: Work, name: string): seq<Goto> {
    if name in w.gotos then w.gotos[name] else []
  }

  /** A named jump: an edge if its label has been seen, else it waits. */
  function Jump(w: Work, j: Goto): Work {
    if j.name in w.labels then w.(blocks := AddEdge(w.blocks, j.block, w.labels[j.name]))
    else w.(gotos := w.gotos[j.name := Waiting(w, j.name) + [j]])
  }

  /** A named label at block `id`: the first of its name takes the waiting jumps. */
  function Define(w: Work, name: string, id: nat): Work {
    if name in w.labels then w
    else Work(AddEdges(w.blocks, Jumps(Waiting(w, name)), id), w.labels[name := id], w.gotos - {name})
  }

  function GotoWork(env: Env, s: Stmt, w: Work): Work
    requires s.GotoStmt?
  {
    var n := NewBlock(env, s, w);
    if s.name == "" then n else Jump(n, Goto(|n.blocks|, s.name, SpanIn(env.file, s.at)))
  }

  function LabelWork(env: Env, s: Stmt, w: Work): Work
    requires s.LabelStmt?
  {
    var n := NewBlock(env, s, w);
    if s.name == "" then n else Define(n, s.name, |n.blocks|)
  }

  function Compile(env: Env, s: Stmt, w: Work): (r: (Work, Part))
    decreases s
  {
    var id := |w.blocks| + 1;
    match s
    case Braces(_, children) => CompileAll(env, children, w, EMPTY)
    case If(_, cond, c, a) =>
      var t := CondTruth(env.eval, cond);
      var (w1, pc) := CompileOpt(env, c, NewBlock(env, s, w));
      var w2 := if t.MayHold() then w1.(blocks := AddEdge(w1.blocks, id, pc.entry)) else w1;
      var (w3, pa) := CompileOpt(env, a, w2);
      var w4 := if t.MayFail() then w3.(blocks := AddEdge(w3.blocks, id, pa.entry)) else w3;
      (w4, IfPart(id, t, c.Some?, pc, a.Some?, pa))
    case Switch(_, clauses) =>
      var (w1, p) := CompileClauses(env, clauses, NewBlock(env, s, w), Part(id, [], [], []));
      (w1, if HasDefault(clauses) then p else p.(exits := p.exits + [id]))
    case Loop(_, kind, cond, body) =>
      var t := LoopTruth(env.eval, kind, cond);
      if body.None? then (NewBlock(env, s, w), Part(id, if t.Holds? then [] else [id], [], []))
      else
        var (w1, p) := Compile(env, body.value, NewBlock(env, s, w));
        (w1.(blocks := LoopEdges(w1.blocks, id, kind, t, p)), LoopPart(id, kind, t, p))
    case Return(_) => (NewBlock(env, s, w), Part(id, [], [], []))
    case Break(_) => (NewBlock(env, s, w), Part(id, [], [id], []))
    case Continue(_) => (NewBlock(env, s, w), Part(id, [], [], [id]))
    case GotoStmt(_, _) => (GotoWork(env, s, w), Part(id, [], [], []))
    case LabelStmt(_, _) => (LabelWork(env, s, w), Part(id, [id], [], []))
    case Simple(_, _) => (NewBlock(env, s, w), Part(id, [id], [], []))
  }

  function IfPart(id: nat, t: Truth, hasC: bool, pc: Part, hasA: bool, pa: Part): Part {
    var lc := if t.MayHold() then pc else EMPTY;
    var la := if t.MayFail() then pa else EMPTY;
    Part(id,
         (if hasC then lc.exits else [id]) + (if hasA then la.exits else if t.MayFail() then [id] else []),
         lc.breaks + la.breaks,
         lc.continues + la.continues)
  }

  /** The edges of a loop, in the order in which they are drawn. */
  function LoopEdges(bs: seq<Block>, id: nat, kind: LoopKind, t: Truth, p: Part): seq<Block> {
    var entered := if kind.DoWhile? || t.MayHold() then AddEdge(bs, id, p.entry) else bs;
    if t.MayHold() then AddEdges(AddEdges(entered, p.exits, id), p.continues, id) else entered
  }

  function LoopPart(id: nat, kind: LoopKind, t: Truth, p: Part): Part {
    Part(id,
         if kind.DoWhile? then (if t.MayFail() then p.exits + p.continues else []) + p.breaks
         else (if t.MayFail() then [id] else []) + (if t.MayHold() then p.breaks else []),
         [], [])
  }

  function CompileOpt(env: Env, o: Option<Stmt>, w: Work): (Work, Part)
    decreases o
  {
    if o.Some? then Compile(env, o.value, w) else (w, EMPTY)
  }

  function CompileAll(env: Env, ss: Stmts, w: Work, acc: Part): (Work, Part)
    decreases ss
  {
    match ss
    case Nil => (w, acc)
    case Cons(s, rest) =>
      var (w1, p) := Compile(env, s, w);
      CompileAll(env, rest, JoinWork(w1, acc, p), JoinPart(acc, p, s.LabelStmt?))
  }

  function JoinWork(w: Work, acc: Part, p: Part): Work {
    if p.entry == 0 || acc.entry == 0 then w else w.(blocks := AddEdges(w.blocks, acc.exits, p.entry))
  }

  function JoinPart(acc: Part, p: Part, isLabel: bool): Part {
    if p.entry == 0 then acc
    else if acc.entry == 0 then p
    else Part(acc.entry, if acc.exits != [] || isLabel then p.exits else acc.exits,
              acc.breaks + p.breaks, acc.continues + p.continues)
  }

  /** The clauses of a switch whose header block is `acc.entry`. */
  function CompileClauses(env: Env, cs: Clauses, w: Work, acc: Part): (Work, Part)
    decreases cs
  {
    match cs
    case End => (w, acc)
    case Clause(_, body, rest) =>
      var (w1, p) := CompileOpt(env, body, w);
      var w2 := if p.entry == 0 then w1 else w1.(blocks := AddEdge(w1.blocks, acc.entry, p.entry));
      CompileClauses(env, rest, w2, ClausePart(acc, p))
  }

  function ClausePart(acc: Part, p: Part): Part {
    if p.entry == 0 then acc.(exits := acc.exits + [acc.entry])
    else acc.(exits := acc.exits + p.exits + p.breaks, continues := acc.continues + p.continues)
  }

  /** Block `y` is a successor of block `x`. */
  predicate HasEdge(bs: seq<Block>, x: nat, y: nat) {
    0 < x <= |bs| && y in bs[x - 1].successors
  }

  /** No block lists a successor twice. */
  ghost predicate Distinct(bs: seq<Block>) {
    forall x, i, j :: 0 <= x < |bs| && 0 <= i < j < |bs[x].successors| ==> bs[x].successors[i] != bs[x].successors[j]
  }

  /** Blocks are numbered by their place. */
  ghost predicate Numbered(bs: seq<Block>) {
    forall x :: 0 <= x < |bs| ==> bs[x].id == x + 1
  }

  /** A walk along edges. */
  ghost predicate IsPath(bs: seq<Block>, path: seq<nat>) {
    && path != []
    && forall i :: 0 <= i < |path| - 1 ==> HasEdge(bs, path[i], path[i + 1])
  }

  ghost predicate Reachable(bs: seq<Block>, entry: nat, x: nat) {
    entry != 0 && exists path :: IsPath(bs, path) && path[0] == entry && path[|path| - 1] == x
  }
}
