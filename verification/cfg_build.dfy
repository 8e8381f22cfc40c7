/** The whole build: compile the body, list the jumps without a label, search the
    reachable blocks and see whether control can fall off the end. */
module CfgBuild {
  import opened Syntax
  import opened CfgFragments
  import opened CfgGraph
  import opened CfgCompile
  import opened CfgEdges
  import opened CfgBuilder

  // ---- Reachability search ----

  /** Edges lead to blocks. */
  ghost predicate InRange(bs: seq<Block>) {
    forall x: nat, y: nat :: HasEdge(bs, x, y) ==> 0 < y <= |bs|
  }

  lemma {:induction false} ReachableSelf(bs: seq<Block>, x: nat)
    requires x != 0
    ensures Reachable(bs, x, x)
  {
    assert IsPath(bs, [x]);
  }

  lemma {:induction false} ReachableFirst(bs: seq<Block>, x: nat, y: nat, z: nat)
    requires HasEdge(bs, x, y) && Reachable(bs, y, z)
    ensures Reachable(bs, x, z)
  {
    var path :| IsPath(bs, path) && path[0] == y && path[|path| - 1] == z;
    var longer := [x] + path;
    forall i | 0 <= i < |longer| - 1 ensures HasEdge(bs, longer[i], longer[i + 1]) {
      if i > 0 {
        assert longer[i] == path[i - 1] && longer[i + 1] == path[i];
      }
    }
    assert IsPath(bs, longer);
  }

  lemma {:induction false} ReachableNext(bs: seq<Block>, x: nat, y: nat, z: nat)
    requires Reachable(bs, x, y) && HasEdge(bs, y, z)
    ensures Reachable(bs, x, z)
  {
    var path :| IsPath(bs, path) && path[0] == x && path[|path| - 1] == y;
    var longer := path + [z];
    forall i | 0 <= i < |longer| - 1 ensures HasEdge(bs, longer[i], longer[i + 1]) {
      if i < |path| - 1 {
        assert longer[i] == path[i] && longer[i + 1] == path[i + 1];
      }
    }
    assert IsPath(bs, longer);
  }

  /** Everything reachable lies in every closed set that holds the start. */
  lemma {:induction false} ReachableLeast(bs: seq<Block>, entry: nat, x: nat, closed: iset<nat>)
    requires Reachable(bs, entry, x) && entry in closed
    requires forall y, z :: y in closed && HasEdge(bs, y, z) ==> z in closed
    ensures x in closed
  {
    var path :| IsPath(bs, path) && path[0] == entry && path[|path| - 1] == x;
    for i := 1 to |path|
      invariant path[i - 1] in closed
    {
      assert HasEdge(bs, path[i - 1], path[i - 1 + 1]);
    }
  }

  ghost function Ids(n: nat): (r: set<nat>)
    ensures forall x :: x in r <==> 0 < x <= n
  {
    if n == 0 then {} else Ids(n - 1) + {n}
  }

  /** Depth-first search from `id`, given the blocks already seen. */
  method Visit(bs: seq<Block>, id: nat, seen: set<nat>) returns (r: set<nat>)
    requires InRange(bs) && id <= |bs|
    requires forall x :: x in seen ==> 0 < x <= |bs|
    ensures seen <= r && (id != 0 ==> id in r)
    ensures forall x :: x in r ==> 0 < x <= |bs|
    ensures forall x :: x in r && x !in seen ==> Reachable(bs, id, x)
    ensures forall x, y :: x in r && x !in seen && HasEdge(bs, x, y) ==> y in r
    decreases Ids(|bs|) - seen
  {
    if id == 0 || id in seen {
      return seen;
    }
    r := seen + {id};
    ReachableSelf(bs, id);
    var next := bs[id - 1].successors;
    for i := 0 to |next|
      invariant seen + {id} <= r
      invariant forall x :: x in r ==> 0 < x <= |bs|
      invariant forall x :: x in r && x !in seen ==> Reachable(bs, id, x)
      invariant forall x, y :: x in r && x !in seen && x != id && HasEdge(bs, x, y) ==> y in r
      invariant forall k :: 0 <= k < i ==> next[k] in r
    {
      assert HasEdge(bs, id, next[i]);
      ghost var before := r;
      r := Visit(bs, next[i], r);
      forall x | x in r && x !in before ensures Reachable(bs, id, x) {
        ReachableFirst(bs, id, next[i], x);
      }
    }
  }

  method ReachableBlocks(bs: seq<Block>, entry: nat) returns (r: set<nat>)
    requires InRange(bs) && entry <= |bs|
    ensures forall x :: x in r <==> Reachable(bs, entry, x)
  {
    r := Visit(bs, entry, {});
    forall x | Reachable(bs, entry, x) ensures x in r {
      ReachableLeast(bs, entry, x, iset y | y in r);
    }
  }

  // ---- Jumps without a label ----

  /** The jumps of a list whose name has no label, in order. */
  function Unresolved(js: seq<Goto>, labels: map<string, nat>): seq<Goto> {
    if js == [] then []
    else (if js[0].name in labels then [] else [js[0]]) + Unresolved(js[1..], labels)
  }

  lemma {:induction false} AscendingTail(js: seq<Goto>, lo: nat, hi: nat)
    requires Ascending(js, lo, hi) && js != []
    ensures Ascending(js[1..], js[0].block, hi)
    ensures js == [js[0]] + js[1..]
  {
  }

  lemma {:induction false} AscendingCons(j: Goto, js: seq<Goto>, lo: nat, hi: nat)
    requires Ascending(js, j.block, hi) && lo < j.block <= hi && j.name != ""
    ensures Ascending([j] + js, lo, hi) && Ascending(js, lo, hi)
  {
  }

  lemma {:induction false} UnresolvedIn(js: seq<Goto>, labels: map<string, nat>, lo: nat, hi: nat)
    requires Ascending(js, lo, hi)
    ensures forall j :: j in Unresolved(js, labels) <==> j in js && j.name !in labels
    ensures Ascending(Unresolved(js, labels), lo, hi)
  {
    if js != [] {
      AscendingTail(js, lo, hi);
      UnresolvedIn(js[1..], labels, js[0].block, hi);
      AscendingCons(js[0], Unresolved(js[1..], labels), lo, hi);
      assert [] + Unresolved(js[1..], labels) == Unresolved(js[1..], labels);
    }
  }

  /** Distinct blocks, whatever the order. */
  ghost predicate Apart(js: seq<Goto>) {
    forall i, k :: 0 <= i < k < |js| ==> js[i].block != js[k].block
  }

  ghost predicate Sorted(js: seq<Goto>) {
    forall i, k :: 0 <= i < k < |js| ==> js[i].block < js[k].block
  }

  /** Insertion sort by block; the source leaves this to its sort library. */
  method SortByBlock(js: seq<Goto>) returns (r: seq<Goto>)
    requires Apart(js)
    ensures Sorted(r) && forall j :: j in r <==> j in js
  {
    r := [];
    for n := 0 to |js|
      invariant Sorted(r) && forall j :: j in r <==> j in js[..n]
    {
      forall j | j in r ensures j.block != js[n].block {
        var k :| 0 <= k < n && js[k] == j;
      }
      r := InsertByBlock(r, js[n]);
      assert js[..n + 1] == js[..n] + [js[n]];
    }
    assert js[..|js|] == js;
  }

  method InsertByBlock(js: seq<Goto>, j: Goto) returns (r: seq<Goto>)
    requires Sorted(js) && forall i :: i in js ==> i.block != j.block
    ensures Sorted(r) && forall i :: i in r <==> i in js || i == j
  {
    var at := 0;
    while at < |js| && js[at].block < j.block
      invariant 0 <= at <= |js|
      invariant forall k :: 0 <= k < at ==> js[k].block < j.block
    {
      at := at + 1;
    }
    assert at < |js| ==> js[at] in js;
    r := js[..at] + [j] + js[at..];
    SortedHalves(js[..at] + [j], js[at..]);
    assert js == js[..at] + js[at..];
  }

  lemma {:induction false} SortedHalves(a: seq<Goto>, b: seq<Goto>)
    requires Sorted(a) && Sorted(b)
    requires a != [] && b != [] ==> a[|a| - 1].block < b[0].block
    ensures Sorted(a + b)
  {
    forall i, k | 0 <= i < k < |a + b| ensures (a + b)[i].block < (a + b)[k].block {
      if i < |a| <= k {
        assert a[i].block <= a[|a| - 1].block;
        assert b[0].block <= b[k - |a|].block;
      }
    }
  }

  /** A sorted list is determined by its elements. */
  lemma {:induction false} SortedUnique(a: seq<Goto>, b: seq<Goto>)
    requires Sorted(a) && Sorted(b) && forall j :: j in a <==> j in b
    ensures a == b
    decreases |a|
  {
    if a == [] {
      if b != [] {
        HasElement(b);
        assert false;
      }
    } else {
      assert a[0] in b;
      var k :| 0 <= k < |b| && b[k] == a[0];
      assert b[0] in a;
      var i :| 0 <= i < |a| && a[i] == b[0];
      assert a[0] == b[0];
      forall j ensures j in a[1..] <==> j in b[1..] {
        TailIn(a, j);
        TailIn(b, j);
      }
      SortedUnique(a[1..], b[1..]);
      assert a == [a[0]] + a[1..] && b == [b[0]] + b[1..];
    }
  }

  lemma {:induction false} HasElement(b: seq<Goto>)
    requires b != []
    ensures exists j :: j in b
  {
    assert b[0] in b;
  }

  lemma {:induction false} TailIn(a: seq<Goto>, j: Goto)
    requires Sorted(a) && a != []
    ensures j in a[1..] <==> j in a && j != a[0]
  {
    assert a == [a[0]] + a[1..];
    if j in a[1..] {
      var k :| 0 <= k < |a[1..]| && a[1..][k] == j;
      assert a[k + 1] == j && a[0].block < a[k + 1].block;
    }
  }

  /** Gather what is left in the map of waiting jumps, name by name in whatever
      order the map gives them, and sort it by block. */
  method CollectUnresolved(w: Work, ghost js: seq<Goto>, ghost wires: iset<(nat, nat)>, ghost hi: nat) returns (r: seq<Goto>)
    requires Tracks(w, js, wires) && Ascending(js, 0, hi)
    ensures r == Unresolved(js, w.labels)
  {
    var all: seq<Goto> := [];
    var names := w.gotos.Keys;
    ghost var done: set<string> := {};
    while names != {}
      invariant names !! done && names + done == w.gotos.Keys
      invariant forall j :: j in all <==> j in js && j.name in done && j.name !in w.labels
      invariant Apart(all)
      decreases names
    {
      var name :| name in names;
      assert w.gotos[name] == Waiting(w, name);
      NamedAscends(js, name, 0, hi);
      ghost var before := all;
      all := all + w.gotos[name];
      names, done := names - {name}, done + {name};
      assert Apart(all) by {
        forall i, k | 0 <= i < k < |all| ensures all[i].block != all[k].block {
          if i < |before| <= k {
            assert all[i] in before && all[k] in w.gotos[name];
            OwnBlock(js, all[i], all[k], hi);
          } else if |before| <= i {
            assert all[i] == w.gotos[name][i - |before|] && all[k] == w.gotos[name][k - |before|];
          }
        }
      }
    }
    r := SortByBlock(all);
    UnresolvedIn(js, w.labels, 0, hi);
    forall j | j in js && j.name !in w.labels ensures j.name in done {
      NamedAscends(js, j.name, 0, hi);
      assert j in Waiting(w, j.name);
    }
    SortedUnique(r, Unresolved(js, w.labels));
  }

  lemma {:induction false} NamedAscends(js: seq<Goto>, name: string, lo: nat, hi: nat)
    requires Ascending(js, lo, hi)
    ensures Ascending(Named(js, name), lo, hi)
    ensures forall j :: j in Named(js, name) <==> j in js && j.name == name
  {
    if js != [] {
      AscendingTail(js, lo, hi);
      NamedAscends(js[1..], name, js[0].block, hi);
      AscendingCons(js[0], Named(js[1..], name), lo, hi);
      assert [] + Named(js[1..], name) == Named(js[1..], name);
    }
  }

  lemma {:induction false} OwnBlock(js: seq<Goto>, a: Goto, b: Goto, hi: nat)
    requires Ascending(js, 0, hi) && a in js && b in js && a != b
    ensures a.block != b.block
  {
    var i :| 0 <= i < |js| && js[i] == a;
    var k :| 0 <= k < |js| && js[k] == b;
    assert if i < k then js[i].block < js[k].block else js[k].block < js[i].block;
  }

  // ---- The build ----

  ghost function Built(env: Env, body: Stmt): Graph {
    var (w, p) := Compile(env, body, FRESH);
    Graph(w.blocks, p.entry,
          exists x :: x in p.exits && Reachable(w.blocks, p.entry, x),
          Unresolved(Gotos(env.file, body, 0), Labels(body, 0)))
  }

  /** What compiling a whole body leaves behind. */
  lemma {:induction false} CompiledBody(env: Env, body: Stmt)
    ensures var (w, p) := Compile(env, body, FRESH);
            && Tracks(w, Gotos(env.file, body, 0), Wires(env.eval, body, 0))
            && |w.blocks| == Size(body) && w.labels == Labels(body, 0)
            && Matches(p, Frag(env.eval, body, 0))
            && InRange(w.blocks) && p.entry <= Size(body)
            && Ascending(Gotos(env.file, body, 0), 0, Size(body))
  {
    hide Wires, Gotos, Labels, Compile, Frag, Ascending;
    assert Tracks(FRESH, [], iset{});
    CompileTracks(env, body, FRESH, [], iset{});
    assert iset{} + Wires(env.eval, body, 0) == Wires(env.eval, body, 0);
    assert [] + Gotos(env.file, body, 0) == Gotos(env.file, body, 0);
    assert Labels(body, 0) + map[] == Labels(body, 0);
    GotosAscend(env.file, body, 0);
    EdgesInRange(env, body);
    FragRange(env.eval, body, 0);
  }

  lemma {:induction false} EdgesInRange(env: Env, body: Stmt)
    requires var w := Compile(env, body, FRESH).0;
             Tracks(w, Gotos(env.file, body, 0), Wires(env.eval, body, 0)) && |w.blocks| == Size(body)
    ensures InRange(Compile(env, body, FRESH).0.blocks)
  {
    hide Compile, Gotos;
    var w := Compile(env, body, FRESH).0;
    forall x: nat, y: nat | HasEdge(w.blocks, x, y) ensures 0 < y <= |w.blocks| {
      if (x, y) in Wires(env.eval, body, 0) {
        WiresRange(env.eval, body, 0);
      }
    }
  }

  method AnyIn(exits: seq<nat>, reachable: set<nat>) returns (found: bool)
    ensures found <==> exists x :: x in exits && x in reachable
  {
    found := false;
    for i := 0 to |exits|
      invariant forall k :: 0 <= k < i ==> exits[k] !in reachable
    {
      if exits[i] in reachable {
        return true;
      }
    }
  }

  method Build(env: Env, body: Stmt) returns (g: Graph)
    ensures g == Built(env, body)
  {
    hide Tracks, Ascending, Matches, InRange, Compile, Unresolved, Gotos, Wires, Labels, Reachable;
    var b := new Builder(env);
    var part := b.Statement(body);
    CompiledBody(env, body);
    var w := Work(b.blocks, b.labels, b.gotos);
    var unresolved := CollectUnresolved(w, Gotos(env.file, body, 0), Wires(env.eval, body, 0), Size(body));
    var reachable := ReachableBlocks(b.blocks, part.entry);
    var fallsThrough := AnyIn(part.exits, reachable);
    g := Graph(b.blocks, part.entry, fallsThrough, unresolved);
  }
}
