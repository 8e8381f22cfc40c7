/** The cached control-flow check over any chain of revisions of a file: what it
    returns, and when exactly that is what a check without a cache returns. */
module FlowCache {
  import opened Collections
  import opened Syntax
  import opened CfgFragments
  import opened CfgGraph
  import opened CfgBuild
  import opened CfgShift
  import opened CfgCompile
  import opened CfgTheorems

  /** What names mean to a body: its parameters, and for a file-scope name the stable ID
      of the declaration that has it. Several declarations of the file may share a
      name; only one of them has it, and which one, no cache key says. */
  datatype Scope = Scope(params: seq<string>, outer: map<string, nat>) {
    /** The declaration that a name leads to, if no parameter takes it. */
    function Means(name: string): Option<nat> {
      if name in params || name !in outer then None else Some(outer[name])
    }
  }

  /** A function definition: its body text, where it starts, what names mean to it, and
      what the symbol table says of it (`declared` is false when the table does not know it). */
  datatype Function = Function(declared: bool, symbol: nat, stable: Option<nat>, scope: Scope, text: string,
                               start: int, name: string, tag: string, isTest: bool, span: Span)

  /** One revision of a file, with the fingerprint of its file-scope constants. */
  datatype Revision = Revision(file: nat, functions: seq<Function>, constants: nat, eval: Evaluator)

  datatype Entry = Entry(body: nat, constants: nat, start: int, graph: Graph)

  datatype Flow = Flow(symbol: nat, graph: Graph)

  datatype Diagnostic =
    | UnreachableCode(span: Span)
    | UndefinedLabel(name: string, span: Span)
    | MissingReturn(name: string, tag: string, span: Span)

  /** What lies outside: the parser (the tree of a body text at offset 0), the hash,
      the values by stable ID behind a fingerprint of the file-scope constants, the names
      from outside the body that a condition's value depends on, and that value when
      some of them are known. */
  datatype Host = Host(
    parse: string -> Stmt, digest: string -> nat, constants: nat -> map<nat, int>,
    needs: (string, Expr) -> set<string>, compute: (string, Expr, map<string, int>) -> Option<int>)
  {
    ghost predicate CollisionFree() {
      forall a, b :: digest(a) == digest(b) ==> a == b
    }

    /** The value of the constant that a name means, if it means one. */
    function Known(c: nat, scope: Scope, name: string): Option<int> {
      var id := scope.Means(name);
      if id.None? || id.value !in constants(c) then None else Some(constants(c)[id.value])
    }

    /** Of some names, the ones with a value. */
    function Visible(c: nat, scope: Scope, names: set<string>): map<string, int> {
      map n | n in names && Known(c, scope, n).Some? :: Known(c, scope, n).value
    }

    function Answers(c: nat, scope: Scope, text: string): Evaluator {
      e => compute(text, e, Visible(c, scope, needs(text, e)))
    }

    /** The evaluator of a revision depends on nothing but the constants, the body and
        what names mean to it. */
    ghost predicate Explains(file: nat, rev: Revision) {
      && rev.file == file
      && forall f :: f in rev.functions ==>
           AnswersAlike(Answers(rev.constants, f.scope, f.text), rev.eval, parse(f.text), f.start)
    }

    function Body(f: Function): Stmt { Move(parse(f.text), f.start) }

    ghost function CleanGraph(rev: Revision, f: Function): Graph { Built(Env(rev.file, rev.eval), Body(f)) }

    /** The body's graph at offset 0 in a given scope. */
    ghost function Plain(file: nat, c: nat, scope: Scope, text: string): Graph {
      Built(Env(file, Answers(c, scope, text)), parse(text))
    }

    /** The function's graph, were this its scope. */
    ghost function GraphUnder(rev: Revision, f: Function, scope: Scope): Graph {
      Shifted(Plain(rev.file, rev.constants, scope, f.text), rev.file, f.start)
    }

    /** The entry was built from some text with that hash, under those constants and in
        this scope. */
    ghost predicate EntryFrom(file: nat, e: Entry, scope: Scope) {
      exists text :: digest(text) == e.body && e.graph == Shifted(Plain(file, e.constants, scope, text), file, e.start)
    }

    ghost predicate CacheFrom(file: nat, cache: map<nat, Entry>, origins: map<nat, Scope>) {
      forall id :: id in cache ==> id in origins && EntryFrom(file, cache[id], origins[id])
    }

    /** The cache holds an entry under the function's stable ID for its body and constants. */
    predicate Hit(cache: map<nat, Entry>, rev: Revision, f: Function) {
      && f.stable.Some? && f.stable.value in cache
      && cache[f.stable.value].body == digest(f.text) && cache[f.stable.value].constants == rev.constants
    }

    /** The scope in which the function's graph is taken. */
    ghost function ScopeOf(cache: map<nat, Entry>, origins: map<nat, Scope>, rev: Revision, f: Function): Scope {
      if Hit(cache, rev, f) && f.stable.value in origins then origins[f.stable.value] else f.scope
    }

    ghost function GraphOf(cache: map<nat, Entry>, origins: map<nat, Scope>, rev: Revision, f: Function): Graph {
      GraphUnder(rev, f, ScopeOf(cache, origins, rev, f))
    }

    /** The flows and diagnostics of the first `n` functions. */
    ghost function Flows(cache: map<nat, Entry>, origins: map<nat, Scope>, rev: Revision, n: nat): seq<Flow>
      requires n <= |rev.functions|
    {
      if n == 0 then []
      else
        var f := rev.functions[n - 1];
        Flows(cache, origins, rev, n - 1) + if f.declared then [Flow(f.symbol, GraphOf(cache, origins, rev, f))] else []
    }

    ghost function Diagnostics(cache: map<nat, Entry>, origins: map<nat, Scope>, rev: Revision, n: nat): seq<Diagnostic>
      requires n <= |rev.functions|
    {
      if n == 0 then []
      else
        var f := rev.functions[n - 1];
        Diagnostics(cache, origins, rev, n - 1) + if f.declared then Reports(GraphOf(cache, origins, rev, f), f) else []
    }

    /** The cache after the first `n` functions, and the scopes its graphs were built in. */
    ghost function Next(cache: map<nat, Entry>, origins: map<nat, Scope>, rev: Revision, n: nat)
      : (map<nat, Entry>, map<nat, Scope>)
      requires n <= |rev.functions|
    {
      if n == 0 then (map[], map[])
      else
        var f, (next, scopes) := rev.functions[n - 1], Next(cache, origins, rev, n - 1);
        var g := GraphOf(cache, origins, rev, f);
        if f.declared && |g.blocks| >= 5 && f.stable.Some? then
          (next[f.stable.value := Entry(digest(f.text), rev.constants, f.start, g)],
           scopes[f.stable.value := ScopeOf(cache, origins, rev, f)])
        else (next, scopes)
    }

    /** The cache that a chain of revisions leaves behind. */
    ghost function After(revs: seq<Revision>, n: nat): (map<nat, Entry>, map<nat, Scope>)
      requires n <= |revs|
    {
      if n == 0 then (map[], map[])
      else
        var (cache, origins) := After(revs, n - 1);
        Next(cache, origins, revs[n - 1], |revs[n - 1].functions|)
    }

    /** What the check of revision `i` of a chain returns. */
    ghost predicate Gives(revs: seq<Revision>, i: nat, flows: seq<Flow>, reports: seq<Diagnostic>)
      requires i < |revs|
    {
      var (cache, origins) := After(revs, i);
      && flows == Flows(cache, origins, revs[i], |revs[i].functions|)
      && reports == Diagnostics(cache, origins, revs[i], |revs[i].functions|)
    }

    // ---- A check without a cache ----

    ghost function CleanFlows(rev: Revision, n: nat): seq<Flow>
      requires n <= |rev.functions|
    {
      if n == 0 then []
      else
        var f := rev.functions[n - 1];
        CleanFlows(rev, n - 1) + if f.declared then [Flow(f.symbol, CleanGraph(rev, f))] else []
    }

    ghost function CleanReports(rev: Revision, n: nat): seq<Diagnostic>
      requires n <= |rev.functions|
    {
      if n == 0 then []
      else
        var f := rev.functions[n - 1];
        CleanReports(rev, n - 1) + if f.declared then Reports(CleanGraph(rev, f), f) else []
    }
  }

  ghost function Reports(g: Graph, f: Function): seq<Diagnostic> {
    var spans := ReportedSpans(g, |g.blocks|);
    seq(|spans|, i requires 0 <= i < |spans| => UnreachableCode(spans[i]))
    + seq(|g.unresolved|, i requires 0 <= i < |g.unresolved| => UndefinedLabel(g.unresolved[i].name, g.unresolved[i].span))
    + if f.tag != "" && f.tag != "void" && g.fallsThrough && !f.isTest then [MissingReturn(f.name, f.tag, f.span)] else []
  }

  method Report(g: Graph, f: Function) returns (r: seq<Diagnostic>)
    requires InRange(g.blocks) && Numbered(g.blocks) && g.entry <= |g.blocks|
    ensures r == Reports(g, f)
  {
    var spans := UnreachableSpans(g);
    r := [];
    for i := 0 to |spans|
      invariant r == seq(i, k requires 0 <= k < i => UnreachableCode(spans[k]))
    {
      r := r + [UnreachableCode(spans[i])];
    }
    ghost var unreachable := r;
    for i := 0 to |g.unresolved|
      invariant r == unreachable
                     + seq(i, k requires 0 <= k < i => UndefinedLabel(g.unresolved[k].name, g.unresolved[k].span))
    {
      r := r + [UndefinedLabel(g.unresolved[i].name, g.unresolved[i].span)];
    }
    if f.tag != "" && f.tag != "void" && g.fallsThrough && !f.isTest {
      r := r + [MissingReturn(f.name, f.tag, f.span)];
    }
  }

  // ---- The cached check ----

  method ReuseFlow(h: Host, cached: Entry, ghost scope: Scope, rev: Revision, f: Function) returns (g: Option<Graph>)
    requires h.CollisionFree() && h.EntryFrom(rev.file, cached, scope)
    ensures g.Some? <==> cached.body == h.digest(f.text) && cached.constants == rev.constants
    ensures g.Some? ==> g.value == h.GraphUnder(rev, f, scope)
  {
    if cached.body != h.digest(f.text) || cached.constants != rev.constants {
      return None;
    }
    var r := ShiftGraph(cached.graph, rev.file, f.start - cached.start);
    ShiftTwice(h.Plain(rev.file, rev.constants, scope, f.text), rev.file, rev.file, cached.start, f.start - cached.start);
    g := Some(r);
  }

  /** A graph built afresh is the one in the function's own scope. */
  lemma {:induction false} FreshIsShifted(h: Host, rev: Revision, f: Function)
    requires h.Explains(rev.file, rev) && f in rev.functions
    ensures h.CleanGraph(rev, f) == h.GraphUnder(rev, f, f.scope)
  {
    BuildMoves(Env(rev.file, h.Answers(rev.constants, f.scope, f.text)), Env(rev.file, rev.eval), h.parse(f.text), f.start);
  }

  lemma {:induction false} GraphOK(h: Host, rev: Revision, f: Function, scope: Scope)
    ensures var g := h.GraphUnder(rev, f, scope);
            InRange(g.blocks) && Numbered(g.blocks) && g.entry <= |g.blocks|
  {
    var env := Env(rev.file, h.Answers(rev.constants, scope, f.text));
    CompiledBody(env, h.parse(f.text));
    var g, r := Built(env, h.parse(f.text)), h.GraphUnder(rev, f, scope);
    assert forall x: nat, y: nat :: HasEdge(r.blocks, x, y) <==> HasEdge(g.blocks, x, y);
  }

  method CheckFunction(h: Host, rev: Revision, f: Function, previous: map<nat, Entry>, ghost origins: map<nat, Scope>)
    returns (g: Graph, reused: bool)
    requires h.CollisionFree() && h.Explains(rev.file, rev) && f in rev.functions && h.CacheFrom(rev.file, previous, origins)
    ensures g == h.GraphOf(previous, origins, rev, f) && (reused <==> h.Hit(previous, rev, f))
  {
    reused := false;
    if previous != map[] && f.stable.Some? && f.stable.value in previous {
      var cached := ReuseFlow(h, previous[f.stable.value], origins[f.stable.value], rev, f);
      if cached.Some? {
        return cached.value, true;
      }
    }
    g := Build(Env(rev.file, rev.eval), h.Body(f));
    FreshIsShifted(h, rev, f);
  }

  /** The cached check of one revision. */
  method CheckControlFlow(h: Host, rev: Revision, previous: map<nat, Entry>, ghost origins: map<nat, Scope>)
    returns (flows: seq<Flow>, reports: seq<Diagnostic>, next: map<nat, Entry>, reused: nat)
    requires h.CollisionFree() && h.Explains(rev.file, rev) && h.CacheFrom(rev.file, previous, origins)
    ensures flows == h.Flows(previous, origins, rev, |rev.functions|)
    ensures reports == h.Diagnostics(previous, origins, rev, |rev.functions|)
    ensures next == h.Next(previous, origins, rev, |rev.functions|).0
    ensures forall id :: id in next ==> |next[id].graph.blocks| >= 5
  {
    flows, reports, next, reused := [], [], map[], 0;
    for i := 0 to |rev.functions|
      invariant flows == h.Flows(previous, origins, rev, i)
      invariant reports == h.Diagnostics(previous, origins, rev, i)
      invariant next == h.Next(previous, origins, rev, i).0
      invariant forall id :: id in next ==> |next[id].graph.blocks| >= 5
    {
      var f := rev.functions[i];
      if !f.declared {
        continue;
      }
      var graph, again := CheckFunction(h, rev, f, previous, origins);
      if again {
        reused := reused + 1;
      }
      if |graph.blocks| >= 5 && f.stable.Some? {
        next := next[f.stable.value := Entry(h.digest(f.text), rev.constants, f.start, graph)];
      }
      flows := flows + [Flow(f.symbol, graph)];
      GraphOK(h, rev, f, h.ScopeOf(previous, origins, rev, f));
      var more := Report(graph, f);
      reports := reports + more;
    }
  }

  lemma {:induction false} NextIsFrom(h: Host, cache: map<nat, Entry>, origins: map<nat, Scope>, rev: Revision, n: nat)
    requires n <= |rev.functions|
    ensures h.CacheFrom(rev.file, h.Next(cache, origins, rev, n).0, h.Next(cache, origins, rev, n).1)
  {
    if n != 0 {
      NextIsFrom(h, cache, origins, rev, n - 1);
    }
  }

  lemma {:induction false} AfterIsFrom(h: Host, file: nat, revs: seq<Revision>, n: nat)
    requires n <= |revs| && forall rev :: rev in revs ==> rev.file == file
    ensures h.CacheFrom(file, h.After(revs, n).0, h.After(revs, n).1)
  {
    if n != 0 {
      var (cache, origins) := h.After(revs, n - 1);
      assert revs[n - 1] in revs;
      NextIsFrom(h, cache, origins, revs[n - 1], |revs[n - 1].functions|);
    }
  }

  /** Over any chain of revisions, each starting from the cache of the one before. */
  method CheckRevisions(h: Host, file: nat, revs: seq<Revision>) returns (flows: seq<seq<Flow>>, reports: seq<seq<Diagnostic>>)
    requires h.CollisionFree() && forall rev :: rev in revs ==> h.Explains(file, rev)
    ensures |flows| == |reports| == |revs|
    ensures forall i :: 0 <= i < |revs| ==> h.Gives(revs, i, flows[i], reports[i])
  {
    hide Host.Flows, Host.Diagnostics, Host.Next, Host.CollisionFree, Host.CacheFrom, Host.Gives;
    flows, reports := [], [];
    var cache: map<nat, Entry> := map[];
    for i := 0 to |revs|
      invariant |flows| == |reports| == i
      invariant cache == h.After(revs, i).0
      invariant forall k :: 0 <= k < i ==> h.Gives(revs, k, flows[k], reports[k])
    {
      assert h.Explains(file, revs[i]);
      assert forall rev :: rev in revs ==> rev.file == file;
      AfterIsFrom(h, file, revs, i);
      var f, r, next, _ := CheckControlFlow(h, revs[i], cache, h.After(revs, i).1);
      GivesThese(h, revs, i, f, r);
      flows, reports, cache := flows + [f], reports + [r], next;
    }
  }

  lemma {:induction false} GivesThese(h: Host, revs: seq<Revision>, i: nat, flows: seq<Flow>, reports: seq<Diagnostic>)
    requires i < |revs|
    requires
      var (cache, origins) := h.After(revs, i);
      && flows == h.Flows(cache, origins, revs[i], |revs[i].functions|)
      && reports == h.Diagnostics(cache, origins, revs[i], |revs[i].functions|)
    ensures h.Gives(revs, i, flows, reports)
  {
  }

  // ---- When the cached check is right ----

  lemma {:induction false} ShiftedBack(env: Env, body: Stmt, d: int)
    ensures Shifted(Shifted(Built(env, body), env.file, d), env.file, -d) == Built(env, body)
  {
    MoveNowhere(env.eval, body);
    BuildMoves(env, env, body, 0);
    ShiftTwice(Built(env, body), env.file, env.file, d, -d);
  }

  /** A graph taken over from a function to which names meant something else is the
      clean one exactly when the body's own graph is the same in both scopes. */
  lemma {:induction false} ReuseIsCleanExactly(h: Host, rev: Revision, f: Function, scope: Scope)
    requires h.Explains(rev.file, rev) && f in rev.functions
    ensures h.GraphUnder(rev, f, scope) == h.CleanGraph(rev, f) <==>
            h.Plain(rev.file, rev.constants, scope, f.text) == h.Plain(rev.file, rev.constants, f.scope, f.text)
  {
    FreshIsShifted(h, rev, f);
    ShiftedBack(Env(rev.file, h.Answers(rev.constants, scope, f.text)), h.parse(f.text), f.start);
    ShiftedBack(Env(rev.file, h.Answers(rev.constants, f.scope, f.text)), h.parse(f.text), f.start);
  }

  /** Every declared function has the same graph in the scope its cached graph was
      built in as in its own. */
  ghost predicate ScopesAgree(h: Host, cache: map<nat, Entry>, origins: map<nat, Scope>, rev: Revision, n: nat)
    requires n <= |rev.functions|
  {
    forall i :: 0 <= i < n && rev.functions[i].declared ==>
      var f := rev.functions[i];
      h.Plain(rev.file, rev.constants, h.ScopeOf(cache, origins, rev, f), f.text)
      == h.Plain(rev.file, rev.constants, f.scope, f.text)
  }

  /** The cached check of a revision gives the clean flows exactly when no cached graph
      depends on a change of what names mean; then its diagnostics are clean too. */
  lemma {:induction false} CheckIsCleanExactly(h: Host, cache: map<nat, Entry>, origins: map<nat, Scope>, rev: Revision, n: nat)
    requires h.Explains(rev.file, rev) && n <= |rev.functions|
    ensures |h.Flows(cache, origins, rev, n)| == |h.CleanFlows(rev, n)|
    ensures h.Flows(cache, origins, rev, n) == h.CleanFlows(rev, n) <==> ScopesAgree(h, cache, origins, rev, n)
    ensures ScopesAgree(h, cache, origins, rev, n) ==> h.Diagnostics(cache, origins, rev, n) == h.CleanReports(rev, n)
  {
    if n != 0 {
      var f := rev.functions[n - 1];
      CheckIsCleanExactly(h, cache, origins, rev, n - 1);
      ReuseIsCleanExactly(h, rev, f, h.ScopeOf(cache, origins, rev, f));
      var a, b := h.Flows(cache, origins, rev, n - 1), h.CleanFlows(rev, n - 1);
      if f.declared {
        LastDecides(a, b, Flow(f.symbol, h.GraphOf(cache, origins, rev, f)), Flow(f.symbol, h.CleanGraph(rev, f)));
      } else {
        assert a + [] == a && b + [] == b;
      }
      assert ScopesAgree(h, cache, origins, rev, n) ==> ScopesAgree(h, cache, origins, rev, n - 1);
    }
  }

  lemma {:induction false} LastDecides<T>(a: seq<T>, b: seq<T>, x: T, y: T)
    requires |a| == |b|
    ensures a + [x] == b + [y] <==> a == b && x == y
  {
    if a + [x] == b + [y] {
      assert a == (a + [x])[..|a|] && b == (b + [y])[..|b|];
      assert x == (a + [x])[|a|] && y == (b + [y])[|b|];
    }
  }

  // ---- A condition on the names alone ----

  /** The conditions of a body. */
  function Conditions(s: Stmt): set<Expr> {
    match s
    case Braces(_, children) => ConditionsAll(children)
    case If(_, cond, c, a) => ConditionOf(cond) + ConditionsOpt(c) + ConditionsOpt(a)
    case Switch(_, clauses) => ConditionsClauses(clauses)
    case Loop(_, _, cond, body) => ConditionOf(cond) + ConditionsOpt(body)
    case _ => {}
  }

  function ConditionOf(cond: Option<Expr>): set<Expr> { if cond.Some? then {cond.value} else {} }

  function ConditionsOpt(o: Option<Stmt>): set<Expr> { if o.Some? then Conditions(o.value) else {} }

  function ConditionsAll(ss: Stmts): set<Expr> {
    if ss.Cons? then Conditions(ss.head) + ConditionsAll(ss.tail) else {}
  }

  function ConditionsClauses(cs: Clauses): set<Expr> {
    if cs.Clause? then ConditionsOpt(cs.body) + ConditionsClauses(cs.rest) else {}
  }

  /** Evaluators that agree on the conditions of a body answer alike on it. */
  lemma {:induction false} AgreeingAlike(a: Evaluator, b: Evaluator, s: Stmt)
    requires forall e :: e in Conditions(s) ==> a(e) == b(e)
    ensures AnswersAlike(a, b, s, 0)
    decreases s
  {
    match s
    case Braces(_, children) => AgreeingAlikeAll(a, b, children);
    case If(_, cond, c, alt) =>
      assert cond.Some? ==> cond.value in Conditions(s) && MoveExpr(cond.value, 0) == cond.value;
      if c.Some? {
        assert Conditions(c.value) <= Conditions(s);
        AgreeingAlike(a, b, c.value);
      }
      if alt.Some? {
        assert Conditions(alt.value) <= Conditions(s);
        AgreeingAlike(a, b, alt.value);
      }
    case Switch(_, clauses) => AgreeingAlikeClauses(a, b, clauses);
    case Loop(_, _, cond, body) =>
      assert cond.Some? ==> cond.value in Conditions(s) && MoveExpr(cond.value, 0) == cond.value;
      if body.Some? {
        assert Conditions(body.value) <= Conditions(s);
        AgreeingAlike(a, b, body.value);
      }
    case _ =>
  }

  lemma {:induction false} AgreeingAlikeAll(a: Evaluator, b: Evaluator, ss: Stmts)
    requires forall e :: e in ConditionsAll(ss) ==> a(e) == b(e)
    ensures AnswersAlikeAll(a, b, ss, 0)
    decreases ss
  {
    if ss.Cons? {
      AgreeingAlike(a, b, ss.head);
      AgreeingAlikeAll(a, b, ss.tail);
    }
  }

  lemma {:induction false} AgreeingAlikeClauses(a: Evaluator, b: Evaluator, cs: Clauses)
    requires forall e :: e in ConditionsClauses(cs) ==> a(e) == b(e)
    ensures AnswersAlikeClauses(a, b, cs, 0)
    decreases cs
  {
    if cs.Clause? {
      if cs.body.Some? {
        assert Conditions(cs.body.value) <= ConditionsClauses(cs);
        AgreeingAlike(a, b, cs.body.value);
      }
      AgreeingAlikeClauses(a, b, cs.rest);
    }
  }

  /** Every name that a condition of the body depends on has the same value, or none,
      in both scopes. */
  ghost predicate Undisturbed(h: Host, c: nat, text: string, a: Scope, b: Scope) {
    forall e, n :: e in Conditions(h.parse(text)) && n in h.needs(text, e) ==> h.Known(c, a, n) == h.Known(c, b, n)
  }

  lemma {:induction false} UndisturbedIsSame(h: Host, file: nat, c: nat, text: string, a: Scope, b: Scope)
    requires Undisturbed(h, c, text, a, b)
    ensures h.Plain(file, c, a, text) == h.Plain(file, c, b, text)
  {
    var one, two, body := h.Answers(c, a, text), h.Answers(c, b, text), h.parse(text);
    forall e | e in Conditions(body) ensures one(e) == two(e) {
      assert h.Visible(c, a, h.needs(text, e)) == h.Visible(c, b, h.needs(text, e));
    }
    AgreeingAlike(one, two, body);
    MoveNowhere(one, body);
    BuildMoves(Env(file, one), Env(file, two), body, 0);
    BuildMoves(Env(file, one), Env(file, one), body, 0);
  }

  // ---- Chains of revisions ----

  /** A function of the first `n` revisions with this stable ID, body hash, constants and
      scope. */
  ghost predicate Seen(h: Host, revs: seq<Revision>, n: nat, id: nat, e: Entry, scope: Scope) {
    exists j, g :: 0 <= j < n <= |revs| && g in revs[j].functions && IsSource(h, revs[j], g, id, e, scope)
  }

  ghost predicate IsSource(h: Host, rev: Revision, g: Function, id: nat, e: Entry, scope: Scope) {
    g.stable == Some(id) && h.digest(g.text) == e.body && rev.constants == e.constants && g.scope == scope
  }

  /** Whatever the cache holds was built for an earlier function with that stable ID,
      body and constants, and in that function's scope. */
  lemma {:induction false} OriginsAreEarlier(h: Host, revs: seq<Revision>, n: nat, id: nat)
    requires n <= |revs| && id in h.After(revs, n).0
    ensures id in h.After(revs, n).1 && Seen(h, revs, n, id, h.After(revs, n).0[id], h.After(revs, n).1[id])
    decreases n
  {
    if n != 0 {
      NextIsEarlier(h, revs, n, |revs[n - 1].functions|, id);
    }
  }

  lemma {:induction false} NextIsEarlier(h: Host, revs: seq<Revision>, n: nat, m: nat, id: nat)
    requires 0 < n <= |revs| && m <= |revs[n - 1].functions|
    requires var (cache, origins) := h.After(revs, n - 1); id in h.Next(cache, origins, revs[n - 1], m).0
    ensures
      var (cache, origins) := h.After(revs, n - 1);
      var (next, scopes) := h.Next(cache, origins, revs[n - 1], m);
      id in scopes && Seen(h, revs, n, id, next[id], scopes[id])
    decreases n, m
  {
    hide IsSource, Host.GraphOf, Built;
    var (cache, origins) := h.After(revs, n - 1);
    var rev, f := revs[n - 1], revs[n - 1].functions[m - 1];
    var (before, scopes) := h.Next(cache, origins, rev, m - 1);
    var (next, scopes') := h.Next(cache, origins, rev, m);
    if f.declared && |h.GraphOf(cache, origins, rev, f).blocks| >= 5 && f.stable == Some(id) {
      var e := next[id];
      assert f in rev.functions;
      if h.Hit(cache, rev, f) {
        OriginsAreEarlier(h, revs, n - 1, id);
        var j, g :| 0 <= j < n - 1 && g in revs[j].functions && IsSource(h, revs[j], g, id, cache[id], origins[id]);
        assert IsSource(h, revs[j], g, id, e, scopes'[id]) by { SameSource(h, revs[j], g, id, cache[id], e, origins[id]); }
      } else {
        assert IsSource(h, rev, f, id, e, scopes'[id]) by { OwnSource(h, rev, f, id, e); }
      }
    } else {
      NextIsEarlier(h, revs, n, m - 1, id);
    }
  }

  lemma {:induction false} SameSource(h: Host, rev: Revision, g: Function, id: nat, a: Entry, b: Entry, scope: Scope)
    requires IsSource(h, rev, g, id, a, scope) && a.body == b.body && a.constants == b.constants
    ensures IsSource(h, rev, g, id, b, scope)
  {
  }

  lemma {:induction false} OwnSource(h: Host, rev: Revision, f: Function, id: nat, e: Entry)
    requires f.stable == Some(id) && e.body == h.digest(f.text) && e.constants == rev.constants
    ensures IsSource(h, rev, f, id, e, f.scope)
  {
  }

  /** Along the chain, two functions with one stable ID, body and constants give the names
      that the body's conditions depend on the same values. */
  ghost predicate Settled(h: Host, revs: seq<Revision>) {
    forall j, i, g, f :: 0 <= j < i < |revs| && g in revs[j].functions && f in revs[i].functions && Matching(revs[j], g, revs[i], f) ==>
      Undisturbed(h, revs[i].constants, f.text, g.scope, f.scope)
  }

  predicate Matching(r: Revision, g: Function, rev: Revision, f: Function) {
    g.stable.Some? && g.stable == f.stable && g.text == f.text && r.constants == rev.constants
  }

  /** Over any such chain of revisions every cached check gives the clean flows and
      diagnostics of its revision. */
  lemma {:induction false} ChainIsClean(h: Host, file: nat, revs: seq<Revision>, i: nat)
    requires h.CollisionFree() && (forall rev :: rev in revs ==> h.Explains(file, rev)) && Settled(h, revs) && i < |revs|
    ensures
      var (cache, origins) := h.After(revs, i);
      && h.Flows(cache, origins, revs[i], |revs[i].functions|) == h.CleanFlows(revs[i], |revs[i].functions|)
      && h.Diagnostics(cache, origins, revs[i], |revs[i].functions|) == h.CleanReports(revs[i], |revs[i].functions|)
  {
    hide Undisturbed;
    var (cache, origins) := h.After(revs, i);
    var rev := revs[i];
    assert h.Explains(file, rev);
    forall k | 0 <= k < |rev.functions|
      ensures h.Plain(rev.file, rev.constants, h.ScopeOf(cache, origins, rev, rev.functions[k]), rev.functions[k].text)
           == h.Plain(rev.file, rev.constants, rev.functions[k].scope, rev.functions[k].text)
    {
      HitIsClean(h, file, revs, i, rev.functions[k]);
    }
    CheckIsCleanExactly(h, cache, origins, rev, |rev.functions|);
  }

  lemma {:induction false} HitIsClean(h: Host, file: nat, revs: seq<Revision>, i: nat, f: Function)
    requires h.CollisionFree() && Settled(h, revs) && i < |revs| && f in revs[i].functions
    ensures
      var (cache, origins) := h.After(revs, i);
      h.Plain(revs[i].file, revs[i].constants, h.ScopeOf(cache, origins, revs[i], f), f.text)
      == h.Plain(revs[i].file, revs[i].constants, f.scope, f.text)
  {
    hide Undisturbed;
    var (cache, origins) := h.After(revs, i);
    if h.Hit(cache, revs[i], f) {
      var id := f.stable.value;
      OriginsAreEarlier(h, revs, i, id);
      var j, g :| 0 <= j < i && g in revs[j].functions && IsSource(h, revs[j], g, id, cache[id], origins[id]);
      assert Matching(revs[j], g, revs[i], f);
      UndisturbedIsSame(h, revs[i].file, revs[i].constants, f.text, g.scope, f.scope);
    }
  }

  // ---- Where it is not right ----

  const NAME := "DEBUG"

  const CONDITION := Expr(NAME, Range(0, 0))

  /** `if (DEBUG) return;` and three more statements. */
  function Guarded(): Stmt {
    var last := Simple(Range(0, 0), "");
    Braces(Range(0, 0), Cons(If(Range(0, 0), Some(CONDITION), Some(Return(Range(0, 0))), None),
                             Cons(last, Cons(last, Cons(last, Nil)))))
  }

  /** Every body is that one. Declaration 7 is a constant, zero, and declaration 8 one. */
  function DebugHost(digest: string -> nat): Host {
    Host(text => Guarded(), digest, c => map[7 := 0, 8 := 1], (text, e) => {NAME},
         (text, e, visible) => if NAME in visible then Some(visible[NAME]) else None)
  }

  function Checked(scope: Scope): Function {
    Function(true, 1, Some(1), scope, "", 0, "F", "", false, Span(0, 0, 0))
  }

  function DebugRevision(digest: string -> nat, scope: Scope): Revision {
    Revision(0, [Checked(scope)], 0, DebugHost(digest).Answers(0, scope, ""))
  }

  /** A chain of two revisions that differ in nothing but what names mean: the cached
      check of the second is a hit, whatever the hash, and wrong. */
  ghost predicate Misled(digest: string -> nat, before: Scope, now: Scope) {
    var h := DebugHost(digest);
    var first, second, f := DebugRevision(digest, before), DebugRevision(digest, now), Checked(now);
    var (cache, origins) := h.After([first, second], 1);
    && h.Explains(0, first) && h.Explains(0, second)
    && h.Hit(cache, second, f)
    && !HasEdge(h.GraphOf(cache, origins, second, f).blocks, 1, 2) && HasEdge(h.CleanGraph(second, f).blocks, 1, 2)
    && h.Flows(cache, origins, second, 1) != h.CleanFlows(second, 1)
  }

  /** Where a name meant the constant zero and no longer does, the cached graph lacks the
      edge into the branch that zero ruled out. */
  lemma {:induction false} OtherMeaningMisleads(digest: string -> nat, before: Scope, now: Scope)
    requires before.Means(NAME) == Some(7) && now.Means(NAME) != Some(7)
    ensures Misled(digest, before, now)
  {
    hide Built, HasEdge;
    var h := DebugHost(digest);
    var first, second, f := DebugRevision(digest, before), DebugRevision(digest, now), Checked(now);
    DebugExplained(digest, before);
    DebugExplained(digest, now);
    DebugGraph(digest, before);
    DebugGraph(digest, now);
    FreshIsShifted(h, second, f);
    assert h.After([first, second], 0) == (map[], map[]);
    var (cache, origins) := h.After([first, second], 1);
    assert h.Next(map[], map[], first, 0) == (map[], map[]);
    assert cache == map[1 := Entry(digest(""), 0, 0, h.GraphUnder(first, Checked(before), before))] && origins == map[1 := before];
    assert h.Flows(cache, origins, second, 0) == [] == h.CleanFlows(second, 0);
    assert h.Flows(cache, origins, second, 1)[0].graph == h.GraphUnder(second, f, before);
    assert h.GraphUnder(second, f, before) == h.GraphUnder(first, Checked(before), before);
  }

  /** A parameter takes the name of the constant. */
  lemma {:induction false} RenamedParameterMisleads(digest: string -> nat)
    ensures Misled(digest, Scope([], map[NAME := 7]), Scope([NAME], map[NAME := 7]))
  {
    OtherMeaningMisleads(digest, Scope([], map[NAME := 7]), Scope([NAME], map[NAME := 7]));
  }

  /** With equal parameters: an earlier declaration that is no constant, a variable say,
      takes the name of the constant, which keeps its stable ID and value. */
  lemma {:induction false} EarlierVariableMisleads(digest: string -> nat, params: seq<string>)
    requires NAME !in params
    ensures Misled(digest, Scope(params, map[NAME := 7]), Scope(params, map[NAME := 9]))
  {
    OtherMeaningMisleads(digest, Scope(params, map[NAME := 7]), Scope(params, map[NAME := 9]));
  }

  /** With equal parameters: two constants of one name, an enumerator say and a `const`,
      are swapped. */
  lemma {:induction false} SwappedConstantsMislead(digest: string -> nat, params: seq<string>)
    requires NAME !in params
    ensures Misled(digest, Scope(params, map[NAME := 7]), Scope(params, map[NAME := 8]))
  {
    OtherMeaningMisleads(digest, Scope(params, map[NAME := 7]), Scope(params, map[NAME := 8]));
  }

  lemma {:induction false} DebugExplained(digest: string -> nat, scope: Scope)
    ensures DebugHost(digest).Explains(0, DebugRevision(digest, scope))
  {
    MoveNowhere(DebugHost(digest).Answers(0, scope, ""), Guarded());
  }

  /** The graph has five blocks, and an edge into the branch unless the name means zero. */
  lemma {:induction false} DebugGraph(digest: string -> nat, scope: Scope)
    ensures
      var g := DebugHost(digest).GraphUnder(DebugRevision(digest, scope), Checked(scope), scope);
      |g.blocks| == 5 && (HasEdge(g.blocks, 1, 2) <==> scope.Means(NAME) != Some(7))
  {
    var h := DebugHost(digest);
    var eval := h.Answers(0, scope, "");
    var visible := h.Visible(0, scope, {NAME});
    assert eval(CONDITION) == h.compute("", CONDITION, visible);
    assert NAME in visible <==> h.Known(0, scope, NAME).Some?;
    assert eval(CONDITION) == h.Known(0, scope, NAME);
    var env := Env(0, eval);
    BuiltEdges(env, Guarded());
    GuardedEdge(eval);
    var g := Built(env, Guarded());
    assert HasEdge(Shifted(g, 0, 0).blocks, 1, 2) <==> HasEdge(g.blocks, 1, 2);
  }

  lemma {:induction false} GuardedEdge(eval: Evaluator)
    ensures Size(Guarded()) == 5
    ensures GraphEdge(eval, Guarded(), 1, 2) <==> TruthOf(eval(CONDITION)).MayHold()
  {
    var last := Simple(Range(0, 0), "");
    var three := Cons(last, Cons(last, Cons(last, Nil)));
    var s := If(Range(0, 0), Some(CONDITION), Some(Return(Range(0, 0))), None);
    assert SizeAll(three) == 3 && Size(s) == 2;
    var labels := Labels(Guarded(), 0);
    assert Edge(eval, labels, s, 0, 1, 2) <==> TruthOf(eval(CONDITION)).MayHold();
    LaterEdges(eval, labels, 2, Join(NOTHING, Frag(eval, s, 0), false));
    assert GraphEdge(eval, Guarded(), 1, 2) <==> SeqEdge(eval, labels, Cons(s, three), 0, NOTHING, 1, 2);
  }

  /** Simple statements further on bring no edge into block 2. */
  lemma {:induction false} LaterEdges(eval: Evaluator, labels: map<string, nat>, b: nat, acc: Fragment)
    requires b >= 2
    ensures var last := Simple(Range(0, 0), "");
            !SeqEdge(eval, labels, Cons(last, Cons(last, Cons(last, Nil))), b, acc, 1, 2)
  {
    var last := Simple(Range(0, 0), "");
    var a1 := Join(acc, Frag(eval, last, b), false);
    var a2 := Join(a1, Frag(eval, last, b + 1), false);
    var a3 := Join(a2, Frag(eval, last, b + 2), false);
    assert !SeqEdge(eval, labels, Nil, b + 3, a3, 1, 2);
    assert !SeqEdge(eval, labels, Cons(last, Nil), b + 2, a2, 1, 2);
    assert !SeqEdge(eval, labels, Cons(last, Cons(last, Nil)), b + 1, a1, 1, 2);
  }
}
