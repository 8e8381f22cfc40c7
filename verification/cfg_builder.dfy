/** The control-flow graph builder: it appends blocks, keeps the labels and the
    waiting jumps in maps, and draws edges in place. */
module CfgBuilder {
  import opened Collections
  import opened Syntax
  import opened CfgFragments
  import opened CfgGraph
  import opened CfgCompile
  import opened CfgEdges

  class Builder {
    const env: Env
    var blocks: seq<Block>
    var labels: map<string, nat>
    var gotos: map<string, seq<Goto>>

    ghost function State(): Work
      reads this
    {
      Work(blocks, labels, gotos)
    }

    constructor (env: Env)
      ensures State() == FRESH && this.env == env
    {
      this.env := env;
      blocks, labels, gotos := [], map[], map[];
    }

    method NewBlock(s: Stmt) returns (id: nat)
      modifies this`blocks
      ensures State() == CfgGraph.NewBlock(env, s, old(State())) && id == |blocks|
    {
      id := |blocks| + 1;
      blocks := blocks + [Block(id, KindOf(s), SpanIn(env.file, s.at), [])];
    }

    method Edge(from: nat, to: nat)
      modifies this`blocks
      ensures blocks == AddEdge(old(blocks), from, to)
    {
      if from == 0 || to == 0 || from > |blocks| {
        return;
      }
      var block := blocks[from - 1];
      for i := 0 to |block.successors|
        invariant to !in block.successors[..i]
      {
        if block.successors[i] == to {
          return;
        }
      }
      blocks := blocks[from - 1 := block.(successors := block.successors + [to])];
    }

    method Edges(from: seq<nat>, to: nat)
      modifies this`blocks
      ensures blocks == AddEdges(old(blocks), from, to)
    {
      for i := 0 to |from|
        invariant AddEdges(blocks, from[i..], to) == AddEdges(old(blocks), from, to)
      {
        assert from[i..][0] == from[i] && from[i..][1..] == from[i + 1..];
        Edge(from[i], to);
      }
    }

    method Statement(s: Stmt) returns (p: Part)
      modifies this
      ensures (State(), p) == Compile(env, s, old(State()))
      decreases Weight(s), 1
    {
      match s
      case Braces(_, children) => p := Sequence(children);
      case If(_, _, _, _) => p := Branch(s);
      case Switch(_, _) => p := SwitchStatement(s);
      case Loop(_, _, _, _) => p := LoopStatement(s);
      case Return(_) =>
        var id := NewBlock(s);
        p := Part(id, [], [], []);
      case Break(_) =>
        var id := NewBlock(s);
        p := Part(id, [], [id], []);
      case Continue(_) =>
        var id := NewBlock(s);
        p := Part(id, [], [], [id]);
      case GotoStmt(_, _) => p := GotoStatement(s);
      case LabelStmt(_, _) => p := LabelStatement(s);
      case Simple(_, _) =>
        var id := NewBlock(s);
        p := Part(id, [id], [], []);
    }

    method Optional(o: Option<Stmt>) returns (p: Part)
      modifies this
      ensures (State(), p) == CompileOpt(env, o, old(State()))
      decreases WeightOpt(o), 2
    {
      p := EMPTY;
      if o.Some? {
        p := Statement(o.value);
      }
    }

    method Sequence(children: Stmts) returns (result: Part)
      modifies this
      ensures (State(), result) == CompileAll(env, children, old(State()), EMPTY)
      decreases WeightAll(children), 2
    {
      result := EMPTY;
      var it := children;
      while it.Cons?
        invariant WeightAll(it) <= WeightAll(children)
        invariant CompileAll(env, it, State(), result) == CompileAll(env, children, old(State()), EMPTY)
        decreases it
      {
        var s := it.head;
        var part := Statement(s);
        if part.entry == 0 {
        } else if result.entry == 0 {
          result := part;
        } else {
          Edges(result.exits, part.entry);
          if result.exits != [] || s.LabelStmt? {
            result := result.(exits := part.exits);
          }
          result := result.(breaks := result.breaks + part.breaks);
          result := result.(continues := result.continues + part.continues);
        }
        it := it.tail;
      }
    }

    method GotoStatement(s: Stmt) returns (p: Part)
      requires s.GotoStmt?
      modifies this
      ensures (State(), p) == Compile(env, s, old(State()))
    {
      var id := NewBlock(s);
      p := Part(id, [], [], []);
      if s.name == "" {
        return;
      }
      if s.name in labels {
        Edge(id, labels[s.name]);
      } else {
        var waiting := if s.name in gotos then gotos[s.name] else [];
        gotos := gotos[s.name := waiting + [Goto(id, s.name, SpanIn(env.file, s.at))]];
      }
    }

    method LabelStatement(s: Stmt) returns (p: Part)
      requires s.LabelStmt?
      modifies this
      ensures (State(), p) == Compile(env, s, old(State()))
    {
      var id := NewBlock(s);
      p := Part(id, [id], [], []);
      if s.name == "" {
        return;
      }
      if s.name !in labels {
        labels := labels[s.name := id];
        var waiting := if s.name in gotos then gotos[s.name] else [];
        label L:
        for i := 0 to |waiting|
          invariant labels == old@L(labels) && gotos == old@L(gotos)
          invariant AddEdges(blocks, Jumps(waiting[i..]), id) == AddEdges(old@L(blocks), Jumps(waiting), id)
        {
          assert waiting[i..][0] == waiting[i] && waiting[i..][1..] == waiting[i + 1..];
          assert Jumps(waiting[i..])[1..] == Jumps(waiting[i + 1..]);
          Edge(waiting[i].block, id);
        }
        gotos := gotos - {s.name};
      }
    }

    method SwitchStatement(s: Stmt) returns (result: Part)
      requires s.Switch?
      modifies this
      ensures (State(), result) == Compile(env, s, old(State()))
      decreases Weight(s), 0
    {
      var header := NewBlock(s);
      result := Part(header, [], [], []);
      var hasDefault := false;
      var it := s.clauses;
      ghost var first := State();
      while it.Clause?
        invariant result.entry == header
        invariant WeightClauses(it) <= WeightClauses(s.clauses)
        invariant CompileClauses(env, it, State(), result) == CompileClauses(env, s.clauses, first, Part(header, [], [], []))
        invariant hasDefault || HasDefault(it) <==> HasDefault(s.clauses)
        decreases it
      {
        if it.isDefault {
          hasDefault := true;
        }
        var part := Optional(it.body);
        if part.entry == 0 {
          result := result.(exits := result.exits + [header]);
        } else {
          Edge(header, part.entry);
          result := result.(exits := result.exits + part.exits);
          result := result.(exits := result.exits + part.breaks);
          result := result.(continues := result.continues + part.continues);
        }
        it := it.rest;
      }
      if !hasDefault {
        result := result.(exits := result.exits + [header]);
      }
    }

    method Branch(s: Stmt) returns (p: Part)
      requires s.If?
      modifies this
      ensures (State(), p) == Compile(env, s, old(State()))
      decreases Weight(s), 0
    {
      var header := NewBlock(s);
      var exits, breaks, continues := [], [], [];
      var t := CondTruth(env.eval, s.cond);
      var part := Optional(s.consequence);
      if s.consequence.Some? {
        if t.MayHold() {
          Edge(header, part.entry);
          exits := exits + part.exits;
          breaks := breaks + part.breaks;
          continues := continues + part.continues;
        }
      } else {
        assert AddEdge(blocks, header, 0) == blocks;
        exits := exits + [header];
      }
      ghost var pc := part;
      part := Optional(s.alternative);
      if s.alternative.Some? {
        if t.MayFail() {
          Edge(header, part.entry);
          exits := exits + part.exits;
          breaks := breaks + part.breaks;
          continues := continues + part.continues;
        }
      } else if t.MayFail() {
        assert AddEdge(blocks, header, 0) == blocks;
        exits := exits + [header];
      }
      p := Part(header, exits, breaks, continues);
      assert p == IfPart(header, t, s.consequence.Some?, pc, s.alternative.Some?, part);
    }

    method LoopStatement(s: Stmt) returns (p: Part)
      requires s.Loop?
      modifies this
      ensures (State(), p) == Compile(env, s, old(State()))
      decreases Weight(s), 0
    {
      var header := NewBlock(s);
      var t := LoopTruth(env.eval, s.kind, s.cond);
      if s.body.Some? {
        assert Weight(s) == 1 + Weight(s.body.value);
        var part := Statement(s.body.value);
        if s.kind.DoWhile? {
          Edge(header, part.entry);
          if t.MayHold() {
            Edges(part.exits, header);
            Edges(part.continues, header);
          }
          var exits := if t.MayFail() then part.exits + part.continues else [];
          return Part(header, exits + part.breaks, [], []);
        }
        var bodyRuns := t.MayHold();
        if bodyRuns {
          Edge(header, part.entry);
          Edges(part.exits, header);
          Edges(part.continues, header);
        }
        var exits := if t.MayFail() then [header] else [];
        if bodyRuns {
          exits := exits + part.breaks;
        }
        p := Part(header, exits, [], []);
        assert p == LoopPart(header, s.kind, t, part);
        return;
      }
      return Part(header, if t.Holds? then [] else [header], [], []);
    }
  }
}
