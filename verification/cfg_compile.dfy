/** What the builder's operations add up to: the finished graph has exactly the
    edges of the tree, and exactly the gotos without a label stay unresolved. */
module CfgCompile {
  import opened Collections
  import opened Syntax
  import opened CfgFragments
  import opened CfgGraph

  // ---- Single operations ----

  lemma {:induction false} AddEdgeHas(bs: seq<Block>, x: nat, y: nat)
    requires 0 < x <= |bs| && y != 0
    ensures forall u, v :: HasEdge(AddEdge(bs, x, y), u, v) <==> HasEdge(bs, u, v) || (u == x && v == y)
    ensures Distinct(bs) ==> Distinct(AddEdge(bs, x, y))
    ensures Numbered(bs) ==> Numbered(AddEdge(bs, x, y))
  {
  }

  lemma {:induction false} AddEdgesHas(bs: seq<Block>, xs: seq<nat>, y: nat)
    requires y != 0 && forall x :: x in xs ==> 0 < x <= |bs|
    ensures forall u, v :: HasEdge(AddEdges(bs, xs, y), u, v) <==> HasEdge(bs, u, v) || (u in xs && v == y)
    ensures Distinct(bs) ==> Distinct(AddEdges(bs, xs, y))
    ensures Numbered(bs) ==> Numbered(AddEdges(bs, xs, y))
    decreases |xs|
  {
    if xs != [] {
      assert xs[0] in xs && forall x :: x in xs[1..] ==> x in xs;
      AddEdgeHas(bs, xs[0], y);
      AddEdgesHas(AddEdge(bs, xs[0], y), xs[1..], y);
      assert xs == [xs[0]] + xs[1..];
    }
  }

  // ---- Gotos of a tree ----

  /** The gotos with a name, in visit order. */
  function Gotos(file: nat, s: Stmt, b: nat): seq<Goto> {
    match s
    case Braces(_, children) => GotosAll(file, children, b)
    case If(_, _, c, a) => GotosOpt(file, c, b + 1) + GotosOpt(file, a, b + 1 + SizeOpt(c))
    case Switch(_, clauses) => GotosClauses(file, clauses, b + 1)
    case Loop(_, _, _, body) => GotosOpt(file, body, b + 1)
    case GotoStmt(at, name) => if name == "" then [] else [Goto(b + 1, name, SpanIn(file, at))]
    case _ => []
  }

  function GotosOpt(file: nat, o: Option<Stmt>, b: nat): seq<Goto> {
    if o.Some? then Gotos(file, o.value, b) else []
  }

  function GotosAll(file: nat, ss: Stmts, b: nat): seq<Goto> {
    match ss
    case Nil => []
    case Cons(s, rest) => Gotos(file, s, b) + GotosAll(file, rest, b + Size(s))
  }

  function GotosClauses(file: nat, cs: Clauses, b: nat): seq<Goto> {
    match cs
    case End => []
    case Clause(_, body, rest) => GotosOpt(file, body, b) + GotosClauses(file, rest, b + SizeOpt(body))
  }

  /** The jumps of a list that want a given name. */
  function Named(js: seq<Goto>, name: string): seq<Goto> {
    if js == [] then []
    else (if js[0].name == name then [js[0]] else []) + Named(js[1..], name)
  }

  lemma {:induction false} NamedConcat(a: seq<Goto>, b: seq<Goto>, name: string)
    ensures Named(a + b, name) == Named(a, name) + Named(b, name)
  {
    if a == [] {
      assert a + b == b;
    } else {
      assert (a + b)[0] == a[0] && (a + b)[1..] == a[1..] + b;
      NamedConcat(a[1..], b, name);
    }
  }

  lemma {:induction false} NamedIn(js: seq<Goto>, name: string)
    ensures forall x :: x in Jumps(Named(js, name)) <==> exists j :: j in js && j.name == name && j.block == x
  {
    if js != [] {
      NamedIn(js[1..], name);
      assert js == [js[0]] + js[1..];
      forall x
        ensures x in Jumps(Named(js, name)) <==> exists j :: j in js && j.name == name && j.block == x
      {
        assert Jumps(Named(js, name))
            == (if js[0].name == name then [js[0].block] else []) + Jumps(Named(js[1..], name)) by {
          if js[0].name == name {
            assert Named(js, name) == [js[0]] + Named(js[1..], name);
            assert Named(js, name)[0] == js[0] && Named(js, name)[1..] == Named(js[1..], name);
          } else {
            assert Named(js, name) == Named(js[1..], name);
          }
        }
        if exists j :: j in js && j.name == name && j.block == x {
          var j :| j in js && j.name == name && j.block == x;
          assert j == js[0] || j in js[1..];
        }
      }
    }
  }

  /** A goto among `js` whose label is known goes there. */
  ghost predicate JumpEdge(js: seq<Goto>, labels: map<string, nat>, x: nat, y: nat) {
    exists j :: j in js && j.block == x && j.name in labels && labels[j.name] == y
  }

  // ---- The state of the builder ----

  /** The structural edges of a statement. */
  ghost function Wires(eval: Evaluator, s: Stmt, b: nat): iset<(nat, nat)> {
    iset x: nat, y: nat | Edge(eval, map[], s, b, x, y) :: (x, y)
  }

  ghost function WiresOpt(eval: Evaluator, o: Option<Stmt>, b: nat): iset<(nat, nat)> {
    if o.Some? then Wires(eval, o.value, b) else iset{}
  }

  ghost function WiresAll(eval: Evaluator, ss: Stmts, b: nat, acc: Fragment): iset<(nat, nat)> {
    iset x: nat, y: nat | SeqEdge(eval, map[], ss, b, acc, x, y) :: (x, y)
  }

  ghost function WiresClauses(eval: Evaluator, cs: Clauses, b: nat, header: nat): iset<(nat, nat)> {
    iset x: nat, y: nat | ClauseEdge(eval, map[], cs, b, header, x, y) :: (x, y)
  }

  /** After visiting the gotos `js` and drawing the structural edges `wires`:
      each goto has its edge if its label has been seen and waits otherwise. */
  ghost predicate Tracks(w: Work, js: seq<Goto>, wires: iset<(nat, nat)>) {
    && (forall n :: Waiting(w, n) == if n in w.labels then [] else Named(js, n))
    && (forall x: nat, y: nat :: HasEdge(w.blocks, x, y) <==> (x, y) in wires || JumpEdge(js, w.labels, x, y))
    && (forall j :: j in js ==> 0 < j.block <= |w.blocks|)
    && (forall n :: n in w.labels ==> 0 < w.labels[n] <= |w.blocks|)
    && Distinct(w.blocks) && Numbered(w.blocks)
  }

  ghost predicate Matches(p: Part, f: Fragment) {
    && p.entry == f.entry
    && (set x | x in p.exits) == f.exits
    && (set x | x in p.breaks) == f.breaks
    && (set x | x in p.continues) == f.continues
  }

  /** Entry and ends are blocks of the range. */
  ghost predicate EndsIn(f: Fragment, lo: nat, hi: nat) {
    && (f.entry != 0 ==> lo < f.entry <= hi)
    && (forall x :: x in f.exits || x in f.breaks || x in f.continues ==> lo < x <= hi)
  }

  lemma {:induction false} FragRange(eval: Evaluator, s: Stmt, b: nat)
    ensures EndsIn(Frag(eval, s, b), b, b + Size(s))
    decreases s
  {
    match s
    case Braces(_, children) => FragAllRange(eval, children, b, NOTHING, b);
    case If(_, _, c, a) =>
      if c.Some? { FragRange(eval, c.value, b + 1); }
      if a.Some? { FragRange(eval, a.value, b + 1 + SizeOpt(c)); }
    case Switch(_, clauses) => FragClausesRange(eval, clauses, b + 1, b + 1);
    case Loop(_, _, _, body) => if body.Some? { FragRange(eval, body.value, b + 1); }
    case _ =>
  }

  lemma {:induction false} FragAllRange(eval: Evaluator, ss: Stmts, b: nat, acc: Fragment, lo: nat)
    requires EndsIn(acc, lo, b) && lo <= b
    ensures EndsIn(FragAll(eval, ss, b, acc), lo, b + SizeAll(ss))
    decreases ss
  {
    if ss.Cons? {
      FragRange(eval, ss.head, b);
      FragAllRange(eval, ss.tail, b + Size(ss.head), Join(acc, Frag(eval, ss.head, b), ss.head.LabelStmt?), lo);
    }
  }

  lemma {:induction false} FragClausesRange(eval: Evaluator, cs: Clauses, b: nat, header: nat)
    requires 0 < header <= b
    ensures EndsIn(FragClauses(eval, cs, b, header), header - 1, b + SizeClauses(cs))
    decreases cs
  {
    if cs.Clause? {
      if cs.body.Some? { FragRange(eval, cs.body.value, b); }
      FragClausesRange(eval, cs.rest, b + SizeOpt(cs.body), header);
    }
  }

  // ---- One operation and the state ----

  lemma {:induction false} NewBlockTracks(env: Env, s: Stmt, w: Work, js: seq<Goto>, wires: iset<(nat, nat)>)
    requires Tracks(w, js, wires)
    ensures Tracks(NewBlock(env, s, w), js, wires)
  {
    var n := NewBlock(env, s, w);
    forall x: nat, y: nat ensures HasEdge(n.blocks, x, y) <==> HasEdge(w.blocks, x, y) {
    }
  }

  /** The edge from x to y if it is drawn at all; block 0 is no target. */
  ghost function OneWire(drawn: bool, x: nat, y: nat): iset<(nat, nat)> {
    if drawn && y != 0 then iset{(x, y)} else iset{}
  }

  ghost function ManyWires(drawn: bool, xs: seq<nat>, y: nat): iset<(nat, nat)> {
    if drawn then iset x: nat | x in xs :: (x, y) else iset{}
  }

  lemma {:induction false} EdgeTracks(w: Work, drawn: bool, x: nat, y: nat, js: seq<Goto>, wires: iset<(nat, nat)>)
    requires Tracks(w, js, wires) && 0 < x <= |w.blocks|
    ensures Tracks(if drawn then w.(blocks := AddEdge(w.blocks, x, y)) else w, js, wires + OneWire(drawn, x, y))
  {
    if drawn && y != 0 {
      AddEdgeHas(w.blocks, x, y);
    } else {
      assert wires + iset{} == wires;
    }
  }

  lemma {:induction false} EdgesTrack(w: Work, drawn: bool, xs: seq<nat>, y: nat, js: seq<Goto>, wires: iset<(nat, nat)>)
    requires Tracks(w, js, wires) && y != 0 && forall x :: x in xs ==> 0 < x <= |w.blocks|
    ensures Tracks(if drawn then w.(blocks := AddEdges(w.blocks, xs, y)) else w, js, wires + ManyWires(drawn, xs, y))
  {
    AddEdgesHas(w.blocks, xs, y);
    if !drawn {
      assert wires + iset{} == wires;
    }
  }

  lemma {:induction false} JumpEdgeAppend(js: seq<Goto>, j: Goto, labels: map<string, nat>)
    ensures forall x, y :: JumpEdge(js + [j], labels, x, y)
                      <==> JumpEdge(js, labels, x, y) || (x == j.block && j.name in labels && y == labels[j.name])
  {
    forall x, y ensures JumpEdge(js + [j], labels, x, y)
                   <==> JumpEdge(js, labels, x, y) || (x == j.block && j.name in labels && y == labels[j.name])
    {
      if x == j.block && j.name in labels && y == labels[j.name] {
        assert j in js + [j];
      }
      if JumpEdge(js, labels, x, y) {
        var i :| i in js && i.block == x && i.name in labels && labels[i.name] == y;
        assert i in js + [j];
      }
    }
  }

  lemma {:induction false} JumpEdgeLabel(js: seq<Goto>, labels: map<string, nat>, name: string, id: nat)
    requires name !in labels
    ensures forall x, y :: JumpEdge(js, labels[name := id], x, y)
                      <==> JumpEdge(js, labels, x, y) || (x in Jumps(Named(js, name)) && y == id)
  {
    var more := labels[name := id];
    NamedIn(js, name);
    forall x, y ensures JumpEdge(js, more, x, y)
                   <==> JumpEdge(js, labels, x, y) || (x in Jumps(Named(js, name)) && y == id)
    {
      if JumpEdge(js, labels, x, y) {
        var j :| j in js && j.block == x && j.name in labels && labels[j.name] == y;
        assert j.name in more && more[j.name] == y;
      }
    }
  }

  lemma {:induction false} JumpTracks(w: Work, j: Goto, js: seq<Goto>, wires: iset<(nat, nat)>)
    requires Tracks(w, js, wires) && 0 < j.block <= |w.blocks|
    ensures Tracks(Jump(w, j), js + [j], wires)
  {
    var r := Jump(w, j);
    forall name ensures Waiting(r, name) == if name in r.labels then [] else Named(js + [j], name) {
      NamedConcat(js, [j], name);
      assert Named([j], name) == if name == j.name then [j] else [];
    }
    JumpEdgeAppend(js, j, w.labels);
    if j.name in w.labels {
      AddEdgeHas(w.blocks, j.block, w.labels[j.name]);
    }
  }

  lemma {:induction false} DefineTracks(w: Work, name: string, id: nat, js: seq<Goto>, wires: iset<(nat, nat)>)
    requires Tracks(w, js, wires) && 0 < id <= |w.blocks|
    ensures Tracks(Define(w, name, id), js, wires)
    ensures Define(w, name, id).labels == map[name := id] + w.labels
    ensures |Define(w, name, id).blocks| == |w.blocks|
  {
    if name !in w.labels {
      JumpEdgeLabel(js, w.labels, name, id);
      NamedIn(js, name);
      AddEdgesHas(w.blocks, Jumps(Named(js, name)), id);
    }
  }

  // ---- Whole statements ----

  /** Compiling a tree with these labels, gotos, edges and ends has led from `w` to `r`. */
  ghost predicate Grown(w: Work, r: Work, size: nat, labels: map<string, nat>,
                        js: seq<Goto>, wires: iset<(nat, nat)>) {
    Tracks(r, js, wires) && |r.blocks| == |w.blocks| + size && r.labels == labels + w.labels
  }

  lemma {:induction false} SeqAssoc<T>(a: seq<T>, b: seq<T>, c: seq<T>)
    ensures a + b + c == a + (b + c)
  {
  }

  lemma {:induction false} MapAssoc<K, V>(a: map<K, V>, b: map<K, V>, c: map<K, V>)
    ensures a + (b + c) == a + b + c
  {
  }

  lemma {:induction false} CompileTracks(env: Env, s: Stmt, w: Work, js: seq<Goto>, wires: iset<(nat, nat)>)
    requires Tracks(w, js, wires)
    ensures var (r, p) := Compile(env, s, w);
            && Grown(w, r, Size(s), Labels(s, |w.blocks|),
                     js + Gotos(env.file, s, |w.blocks|), wires + Wires(env.eval, s, |w.blocks|))
            && Matches(p, Frag(env.eval, s, |w.blocks|))
    decreases s, 1
  {
    hide Tracks, Wires, WiresAll, Matches;
    match s
    case Braces(_, children) =>
      BracesWires(env.eval, s, |w.blocks|);
      CompileAllTracks(env, children, w, EMPTY, NOTHING, js, wires);
    case If(_, _, _, _) => CompileIfTracks(env, s, w, js, wires);
    case Switch(_, _) => CompileSwitchTracks(env, s, w, js, wires);
    case Loop(_, _, _, _) => CompileLoopTracks(env, s, w, js, wires);
    case GotoStmt(_, name) =>
      CompileLeafTracks(env, s, w, js, wires);
      if name != "" {
        var n := NewBlock(env, s, w);
        JumpTracks(n, Goto(|n.blocks|, name, SpanIn(env.file, s.at)), js, wires);
      }
    case LabelStmt(_, name) =>
      CompileLeafTracks(env, s, w, js, wires);
      if name != "" {
        var n := NewBlock(env, s, w);
        DefineTracks(n, name, |n.blocks|, js, wires);
      }
    case _ => CompileLeafTracks(env, s, w, js, wires);
  }

  lemma {:induction false} BracesWires(eval: Evaluator, s: Stmt, b: nat)
    requires s.Braces?
    ensures Wires(eval, s, b) == WiresAll(eval, s.children, b, NOTHING)
    ensures Matches(EMPTY, NOTHING) && EndsIn(NOTHING, 0, b)
  {
  }

  lemma {:induction false} CompileLeafTracks(env: Env, s: Stmt, w: Work, js: seq<Goto>, wires: iset<(nat, nat)>)
    requires Tracks(w, js, wires) && !s.Braces? && !s.If? && !s.Switch? && !s.Loop?
    ensures Tracks(NewBlock(env, s, w), js, wires)
    ensures wires + Wires(env.eval, s, |w.blocks|) == wires && js + [] == js
    ensures Matches(Compile(env, s, w).1, Frag(env.eval, s, |w.blocks|))
  {
    NewBlockTracks(env, s, w, js, wires);
  }

  lemma {:induction false} CompileOptTracks(env: Env, o: Option<Stmt>, w: Work, js: seq<Goto>, wires: iset<(nat, nat)>)
    requires Tracks(w, js, wires)
    ensures var (r, p) := CompileOpt(env, o, w);
            && Grown(w, r, SizeOpt(o), LabelsOpt(o, |w.blocks|),
                     js + GotosOpt(env.file, o, |w.blocks|), wires + WiresOpt(env.eval, o, |w.blocks|))
            && Matches(p, FragOpt(env.eval, o, |w.blocks|))
            && EndsIn(FragOpt(env.eval, o, |w.blocks|), |w.blocks|, |r.blocks|)
    decreases o, 1
  {
    if o.Some? {
      CompileTracks(env, o.value, w, js, wires);
      FragRange(env.eval, o.value, |w.blocks|);
    } else {
      assert js + [] == js && wires + iset{} == wires;
    }
  }

  lemma {:induction false} CompileIfTracks(env: Env, s: Stmt, w: Work, js: seq<Goto>, wires: iset<(nat, nat)>)
    requires s.If? && Tracks(w, js, wires)
    ensures var (r, p) := Compile(env, s, w);
            && Grown(w, r, Size(s), Labels(s, |w.blocks|),
                     js + Gotos(env.file, s, |w.blocks|), wires + Wires(env.eval, s, |w.blocks|))
            && Matches(p, Frag(env.eval, s, |w.blocks|))
    decreases s, 0
  {
    hide Tracks, Wires, WiresOpt, WiresAll, WiresClauses, OneWire, ManyWires;
    hide Matches, EndsIn, Frag, FragOpt, AddEdge;
    var b, c, a, t := |w.blocks|, s.consequence, s.alternative, CondTruth(env.eval, s.cond);
    var b' := b + 1 + SizeOpt(c);
    var n := NewBlock(env, s, w);
    NewBlockTracks(env, s, w, js, wires);
    CompileOptTracks(env, c, n, js, wires);
    var (w1, pc) := CompileOpt(env, c, n);
    var js1, wires1 := js + GotosOpt(env.file, c, b + 1), wires + WiresOpt(env.eval, c, b + 1);
    EdgeTracks(w1, t.MayHold(), b + 1, pc.entry, js1, wires1);
    var w2 := if t.MayHold() then w1.(blocks := AddEdge(w1.blocks, b + 1, pc.entry)) else w1;
    var wires2 := wires1 + OneWire(t.MayHold(), b + 1, pc.entry);
    CompileOptTracks(env, a, w2, js1, wires2);
    var (w3, pa) := CompileOpt(env, a, w2);
    var js3, wires3 := js1 + GotosOpt(env.file, a, b'), wires2 + WiresOpt(env.eval, a, b' as nat);
    EdgeTracks(w3, t.MayFail(), b + 1, pa.entry, js3, wires3);
    var w4 := if t.MayFail() then w3.(blocks := AddEdge(w3.blocks, b + 1, pa.entry)) else w3;
    FragOptEntry(env.eval, c, b + 1, pc);
    FragOptEntry(env.eval, a, b', pa);
    IfWires(env.eval, s, b, pc.entry, pa.entry, wires);
    SeqAssoc(js, GotosOpt(env.file, c, b + 1), GotosOpt(env.file, a, b'));
    MapAssoc(LabelsOpt(a, b'), LabelsOpt(c, b + 1), w.labels);
    IfMatches(env.eval, s, b, pc, pa);
  }

  lemma {:induction false} FragOptEntry(eval: Evaluator, o: Option<Stmt>, b: nat, p: Part)
    requires Matches(p, FragOpt(eval, o, b))
    ensures p.entry == FragOpt(eval, o, b).entry
  {
  }

  lemma {:induction false} IfWires(eval: Evaluator, s: Stmt, b: nat, ec: nat, ea: nat, wires: iset<(nat, nat)>)
    requires s.If?
    requires ec == FragOpt(eval, s.consequence, b + 1).entry
    requires ea == FragOpt(eval, s.alternative, b + 1 + SizeOpt(s.consequence)).entry
    ensures var t := CondTruth(eval, s.cond);
            wires + Wires(eval, s, b)
            == wires + WiresOpt(eval, s.consequence, b + 1)
               + OneWire(t.MayHold(), b + 1, ec)
               + WiresOpt(eval, s.alternative, b + 1 + SizeOpt(s.consequence))
               + OneWire(t.MayFail(), b + 1, ea)
  {
  }

  lemma {:induction false} IfMatches(eval: Evaluator, s: Stmt, b: nat, pc: Part, pa: Part)
    requires s.If?
    requires Matches(pc, FragOpt(eval, s.consequence, b + 1))
    requires Matches(pa, FragOpt(eval, s.alternative, b + 1 + SizeOpt(s.consequence)))
    ensures Matches(IfPart(b + 1, CondTruth(eval, s.cond), s.consequence.Some?, pc, s.alternative.Some?, pa), Frag(eval, s, b))
  {
  }

  lemma {:induction false} CompileLoopTracks(env: Env, s: Stmt, w: Work, js: seq<Goto>, wires: iset<(nat, nat)>)
    requires s.Loop? && Tracks(w, js, wires)
    ensures var (r, p) := Compile(env, s, w);
            && Grown(w, r, Size(s), Labels(s, |w.blocks|),
                     js + Gotos(env.file, s, |w.blocks|), wires + Wires(env.eval, s, |w.blocks|))
            && Matches(p, Frag(env.eval, s, |w.blocks|))
    decreases s, 0
  {
    hide Tracks, Wires, WiresOpt, WiresAll, WiresClauses, OneWire, ManyWires;
    var b, t := |w.blocks|, LoopTruth(env.eval, s.kind, s.cond);
    var n := NewBlock(env, s, w);
    NewBlockTracks(env, s, w, js, wires);
    if s.body.None? {
      assert js + [] == js;
      LeafWires(env.eval, s, b, wires);
    } else {
      var body := s.body.value;
      CompileTracks(env, body, n, js, wires);
      FragRange(env.eval, body, b + 1);
      assert forall x :: x in Compile(env, body, n).1.exits ==> x in Frag(env.eval, body, b + 1).exits;
      assert forall x :: x in Compile(env, body, n).1.continues ==> x in Frag(env.eval, body, b + 1).continues;
      var (w1, p) := Compile(env, body, n);
      var js1, wires1 := js + Gotos(env.file, body, b + 1), wires + Wires(env.eval, body, b + 1);
      var enters := s.kind.DoWhile? || t.MayHold();
      EdgeTracks(w1, enters, b + 1, p.entry, js1, wires1);
      var w2 := if enters then w1.(blocks := AddEdge(w1.blocks, b + 1, p.entry)) else w1;
      var wires2 := wires1 + OneWire(enters, b + 1, p.entry);
      EdgesTrack(w2, t.MayHold(), p.exits, b + 1, js1, wires2);
      var w3 := if t.MayHold() then w2.(blocks := AddEdges(w2.blocks, p.exits, b + 1)) else w2;
      var wires3 := wires2 + ManyWires(t.MayHold(), p.exits, b + 1);
      EdgesTrack(w3, t.MayHold(), p.continues, b + 1, js1, wires3);
      LoopWires(env.eval, s, b, p, wires);
      LoopMatches(env.eval, s, b, p);
    }
  }

  lemma {:induction false} LoopWires(eval: Evaluator, s: Stmt, b: nat, p: Part, wires: iset<(nat, nat)>)
    requires s.Loop? && s.body.Some? && Matches(p, Frag(eval, s.body.value, b + 1))
    ensures var t := LoopTruth(eval, s.kind, s.cond);
            wires + Wires(eval, s, b)
            == wires + Wires(eval, s.body.value, b + 1)
               + OneWire(s.kind.DoWhile? || t.MayHold(), b + 1, p.entry)
               + ManyWires(t.MayHold(), p.exits, b + 1)
               + ManyWires(t.MayHold(), p.continues, b + 1)
  {
    var f := Frag(eval, s.body.value, b + 1);
    assert forall x :: x in p.exits <==> x in f.exits;
    assert forall x :: x in p.continues <==> x in f.continues;
  }

  lemma {:induction false} LeafWires(eval: Evaluator, s: Stmt, b: nat, wires: iset<(nat, nat)>)
    requires s.Loop? && s.body.None?
    ensures wires + Wires(eval, s, b) == wires
  {
  }

  lemma {:induction false} LoopMatches(eval: Evaluator, s: Stmt, b: nat, p: Part)
    requires s.Loop? && s.body.Some? && Matches(p, Frag(eval, s.body.value, b + 1))
    ensures Matches(LoopPart(b + 1, s.kind, LoopTruth(eval, s.kind, s.cond), p), Frag(eval, s, b))
  {
  }

  lemma {:induction false} CompileAllTracks(env: Env, ss: Stmts, w: Work, acc: Part, facc: Fragment, js: seq<Goto>, wires: iset<(nat, nat)>)
    requires Tracks(w, js, wires) && Matches(acc, facc) && EndsIn(facc, 0, |w.blocks|)
    ensures var (r, p) := CompileAll(env, ss, w, acc);
            && Grown(w, r, SizeAll(ss), LabelsAll(ss, |w.blocks|),
                     js + GotosAll(env.file, ss, |w.blocks|), wires + WiresAll(env.eval, ss, |w.blocks|, facc))
            && Matches(p, FragAll(env.eval, ss, |w.blocks|, facc))
    decreases ss
  {
    hide Matches, EndsIn, Frag, Join, JoinPart, AddEdges, JoinWork;
    hide Tracks, Wires, WiresOpt, WiresAll, WiresClauses, OneWire, ManyWires;
    match ss
    case Nil =>
      assert js + [] == js;
      ListEndWires(env.eval, |w.blocks|, facc, wires);
    case Cons(s, rest) =>
      var b := |w.blocks|;
      var (w1, p) := Compile(env, s, w);
      var f := Frag(env.eval, s, b);
      CompileHeadTracks(env, s, w, acc, facc, js, wires);
      CompileAllTracks(env, rest, JoinWork(w1, acc, p), JoinPart(acc, p, s.LabelStmt?), Join(facc, f, s.LabelStmt?),
                       js + Gotos(env.file, s, b),
                       wires + Wires(env.eval, s, b) + ManyWires(p.entry != 0 && acc.entry != 0, acc.exits, p.entry));
      ListWires(env.eval, ss, b, facc, acc, p, wires);
      SeqAssoc(js, Gotos(env.file, s, b), GotosAll(env.file, rest, b + Size(s)));
      MapAssoc(LabelsAll(rest, b + Size(s)), Labels(s, b), w.labels);
  }

  /** One statement of a list, with the exits so far wired to its entry. */
  lemma {:induction false} CompileHeadTracks(env: Env, s: Stmt, w: Work, acc: Part, facc: Fragment, js: seq<Goto>, wires: iset<(nat, nat)>)
    requires Tracks(w, js, wires) && Matches(acc, facc) && EndsIn(facc, 0, |w.blocks|)
    ensures var (w1, p) := Compile(env, s, w);
            var f := Frag(env.eval, s, |w.blocks|);
            && Grown(w, JoinWork(w1, acc, p), Size(s), Labels(s, |w.blocks|), js + Gotos(env.file, s, |w.blocks|),
                     wires + Wires(env.eval, s, |w.blocks|)
                     + ManyWires(p.entry != 0 && acc.entry != 0, acc.exits, p.entry))
            && Matches(p, f)
            && Matches(JoinPart(acc, p, s.LabelStmt?), Join(facc, f, s.LabelStmt?))
            && EndsIn(Join(facc, f, s.LabelStmt?), 0, |w.blocks| + Size(s))
    decreases s, 2
  {
    hide Tracks, Wires, ManyWires, Matches, EndsIn, Join, JoinPart, AddEdges;
    var b := |w.blocks|;
    var f := Frag(env.eval, s, b);
    CompileTracks(env, s, w, js, wires);
    FragRange(env.eval, s, b);
    var (w1, p) := Compile(env, s, w);
    var js1, wires1 := js + Gotos(env.file, s, b), wires + Wires(env.eval, s, b);
    if p.entry != 0 && acc.entry != 0 {
      ExitsIn(acc, facc, b);
      EdgesTrack(w1, true, acc.exits, p.entry, js1, wires1);
    } else {
      NoWires(wires1, acc.exits, p.entry);
    }
    JoinMatches(acc, facc, p, f, s.LabelStmt?);
    JoinRange(facc, f, s.LabelStmt?, b, b + Size(s));
  }

  lemma {:induction false} ExitsIn(p: Part, f: Fragment, hi: nat)
    requires Matches(p, f) && EndsIn(f, 0, hi)
    ensures forall x :: x in p.exits ==> 0 < x <= hi
  {
    assert forall x :: x in p.exits ==> x in f.exits;
  }

  lemma {:induction false} JoinRange(acc: Fragment, f: Fragment, isLabel: bool, mid: nat, hi: nat)
    requires EndsIn(acc, 0, mid) && EndsIn(f, mid, hi) && mid <= hi
    ensures EndsIn(Join(acc, f, isLabel), 0, hi)
  {
  }

  lemma {:induction false} NoWires(wires: iset<(nat, nat)>, xs: seq<nat>, y: nat)
    ensures wires + ManyWires(false, xs, y) == wires
  {
  }

  lemma {:induction false} JoinMatches(acc: Part, facc: Fragment, p: Part, f: Fragment, isLabel: bool)
    requires Matches(acc, facc) && Matches(p, f)
    ensures Matches(JoinPart(acc, p, isLabel), Join(facc, f, isLabel))
  {
    assert acc.exits == [] <==> facc.exits == {} by {
      if acc.exits != [] {
        assert acc.exits[0] in facc.exits;
      }
    }
  }

  lemma {:induction false} ListEndWires(eval: Evaluator, b: nat, facc: Fragment, wires: iset<(nat, nat)>)
    ensures wires + WiresAll(eval, Nil, b, facc) == wires
  {
  }

  lemma {:induction false} ListWires(eval: Evaluator, ss: Stmts, b: nat, facc: Fragment, acc: Part, p: Part, wires: iset<(nat, nat)>)
    requires ss.Cons? && Matches(acc, facc) && Matches(p, Frag(eval, ss.head, b))
    ensures wires + WiresAll(eval, ss, b, facc)
            == wires + Wires(eval, ss.head, b)
               + ManyWires(p.entry != 0 && acc.entry != 0, acc.exits, p.entry)
               + WiresAll(eval, ss.tail, b + Size(ss.head), Join(facc, Frag(eval, ss.head, b), ss.head.LabelStmt?))
  {
    assert forall x :: x in acc.exits <==> x in facc.exits;
  }

  lemma {:induction false} CompileSwitchTracks(env: Env, s: Stmt, w: Work, js: seq<Goto>, wires: iset<(nat, nat)>)
    requires s.Switch? && Tracks(w, js, wires)
    ensures var (r, p) := Compile(env, s, w);
            && Grown(w, r, Size(s), Labels(s, |w.blocks|),
                     js + Gotos(env.file, s, |w.blocks|), wires + Wires(env.eval, s, |w.blocks|))
            && Matches(p, Frag(env.eval, s, |w.blocks|))
    decreases s, 0
  {
    hide Tracks, Wires, WiresOpt, WiresAll, WiresClauses, OneWire, ManyWires;
    var b := |w.blocks|;
    NewBlockTracks(env, s, w, js, wires);
    CompileClausesTracks(env, s.clauses, NewBlock(env, s, w), Part(b + 1, [], [], []), js, wires);
    SwitchWires(env.eval, s, b);
  }

  lemma {:induction false} SwitchWires(eval: Evaluator, s: Stmt, b: nat)
    requires s.Switch?
    ensures Wires(eval, s, b) == WiresClauses(eval, s.clauses, b + 1, b + 1)
  {
  }

  /** The clauses add their ends to those of the switch so far. */
  ghost predicate AddsTo(acc: Part, p: Part, f: Fragment) {
    && p.entry == acc.entry && p.breaks == acc.breaks
    && (set x | x in p.exits) == (set x | x in acc.exits) + f.exits
    && (set x | x in p.continues) == (set x | x in acc.continues) + f.continues
  }

  lemma {:induction false} CompileClausesTracks(env: Env, cs: Clauses, w: Work, acc: Part, js: seq<Goto>, wires: iset<(nat, nat)>)
    requires Tracks(w, js, wires) && 0 < acc.entry <= |w.blocks|
    ensures var (r, p) := CompileClauses(env, cs, w, acc);
            && Grown(w, r, SizeClauses(cs), LabelsClauses(cs, |w.blocks|),
                     js + GotosClauses(env.file, cs, |w.blocks|), wires + WiresClauses(env.eval, cs, |w.blocks|, acc.entry))
            && AddsTo(acc, p, FragClauses(env.eval, cs, |w.blocks|, acc.entry))
    decreases cs
  {
    hide AddsTo, Matches, EndsIn, AddEdge, FragOpt, Frag, FragClauses;
    hide Tracks, Wires, WiresOpt, WiresAll, WiresClauses, OneWire, ManyWires;
    match cs
    case End =>
      assert js + [] == js;
      NoClauses(env.eval, |w.blocks|, acc, wires);
    case Clause(_, body, rest) =>
      var b, h := |w.blocks|, acc.entry;
      var (w1, p) := CompileOpt(env, body, w);
      var w2 := if p.entry == 0 then w1 else w1.(blocks := AddEdge(w1.blocks, h, p.entry));
      CompileClauseTracks(env, body, w, h, js, wires);
      CompileClausesTracks(env, rest, w2, ClausePart(acc, p), js + GotosOpt(env.file, body, b),
                           wires + WiresOpt(env.eval, body, b) + OneWire(p.entry != 0, h, p.entry));
      ClauseAdds(env.eval, cs, b, acc, p, CompileClauses(env, rest, w2, ClausePart(acc, p)).1);
      ClauseWires(env.eval, cs, b, h, p, wires);
      SeqAssoc(js, GotosOpt(env.file, body, b), GotosClauses(env.file, rest, b + SizeOpt(body)));
      MapAssoc(LabelsClauses(rest, b + SizeOpt(body)), LabelsOpt(body, b), w.labels);
  }

  /** One clause, with the header wired to its entry. */
  lemma {:induction false} CompileClauseTracks(env: Env, body: Option<Stmt>, w: Work, h: nat, js: seq<Goto>, wires: iset<(nat, nat)>)
    requires Tracks(w, js, wires) && 0 < h <= |w.blocks|
    ensures var (w1, p) := CompileOpt(env, body, w);
            && Grown(w, if p.entry == 0 then w1 else w1.(blocks := AddEdge(w1.blocks, h, p.entry)),
                     SizeOpt(body), LabelsOpt(body, |w.blocks|), js + GotosOpt(env.file, body, |w.blocks|),
                     wires + WiresOpt(env.eval, body, |w.blocks|) + OneWire(p.entry != 0, h, p.entry))
            && Matches(p, FragOpt(env.eval, body, |w.blocks|))
    decreases body, 2
  {
    hide Tracks, WiresOpt, OneWire, Matches, EndsIn, AddEdge;
    CompileOptTracks(env, body, w, js, wires);
    var (w1, p) := CompileOpt(env, body, w);
    EdgeTracks(w1, p.entry != 0, h, p.entry, js + GotosOpt(env.file, body, |w.blocks|),
               wires + WiresOpt(env.eval, body, |w.blocks|));
  }

  lemma {:induction false} NoClauses(eval: Evaluator, b: nat, acc: Part, wires: iset<(nat, nat)>)
    ensures wires + WiresClauses(eval, End, b, acc.entry) == wires
    ensures AddsTo(acc, acc, FragClauses(eval, End, b, acc.entry))
  {
  }

  lemma {:induction false} ClauseAdds(eval: Evaluator, cs: Clauses, b: nat, acc: Part, p: Part, q: Part)
    requires cs.Clause? && Matches(p, FragOpt(eval, cs.body, b))
    requires AddsTo(ClausePart(acc, p), q, FragClauses(eval, cs.rest, b + SizeOpt(cs.body), acc.entry))
    ensures AddsTo(acc, q, FragClauses(eval, cs, b, acc.entry))
  {
  }

  lemma {:induction false} ClauseWires(eval: Evaluator, cs: Clauses, b: nat, h: nat, p: Part, wires: iset<(nat, nat)>)
    requires cs.Clause? && Matches(p, FragOpt(eval, cs.body, b))
    ensures wires + WiresClauses(eval, cs, b, h)
            == wires + WiresOpt(eval, cs.body, b)
               + OneWire(p.entry != 0, h, p.entry)
               + WiresClauses(eval, cs.rest, b + SizeOpt(cs.body), h)
  {
  }
}
