/** What the control-flow check of a function reports, in terms of its runs. */
module FlowReports {
  import opened Collections
  import opened Syntax
  import opened CfgFragments
  import opened CfgSemantics
  import opened CfgGraph
  import opened CfgBuild
  import opened CfgCompile
  import opened CfgListing
  import opened CfgTheorems
  import opened FlowCache

  /** A goto of the body to a name that labels nothing in it. */
  ghost predicate Dangles(file: nat, body: Stmt, j: Goto) {
    && 0 < j.block <= |Listing(body)| && IsJump(file, Listing(body)[j.block - 1], j)
    && forall s :: s in Listing(body) && s.LabelStmt? ==> s.name != j.name
  }

  /** Statement `x` of the body, which stands at `at`, is executed by no run, and no
      statement leads to it. */
  ghost predicate Stranded(env: Env, body: Stmt, x: nat, at: Span) {
    && 0 < x <= |Listing(body)| && at == Span(env.file, Listing(body)[x - 1].at.start, Listing(body)[x - 1].at.end)
    && !Executed(env.eval, body, x) && forall u: nat :: !GraphEdge(env.eval, body, u, x)
  }

  /** A function with a well-shaped body and a tag other than void may miss a return
      exactly when some run completes it, unless it is empty or a test. */
  lemma {:induction false} MissingReturnExactly(h: Host, rev: Revision, f: Function, d: Diagnostic)
    requires WellShaped(rev.eval, h.Body(f)) && d.MissingReturn?
    ensures d in Reports(h.CleanGraph(rev, f), f)
       <==> && d == MissingReturn(f.name, f.tag, f.span)
            && f.tag != "" && f.tag != "void" && !f.isTest
            && Completes(rev.eval, h.Body(f)) && Size(h.Body(f)) != 0
  {
    hide Built, Completes;
    FallsThroughIffCompletes(Env(rev.file, rev.eval), h.Body(f));
  }

  /** Undefined labels are those of the gotos that lead nowhere. */
  lemma {:induction false} UndefinedLabelExactly(h: Host, rev: Revision, f: Function, name: string, at: Span)
    ensures UndefinedLabel(name, at) in Reports(h.CleanGraph(rev, f), f)
       <==> exists j :: Dangles(rev.file, h.Body(f), j) && j.name == name && j.span == at
  {
    hide Built, IsLabel, ReportedSpans, Listing, Dangles, Gotos;
    UnresolvedExactly(Env(rev.file, rev.eval), h.Body(f));
    forall j ensures j in h.CleanGraph(rev, f).unresolved <==> Dangles(rev.file, h.Body(f), j) {
      DanglesExactly(rev.file, h.Body(f), j);
    }
    var u := h.CleanGraph(rev, f).unresolved;
    var spans := ReportedSpans(h.CleanGraph(rev, f), |h.CleanGraph(rev, f).blocks|);
    var reports := Reports(h.CleanGraph(rev, f), f);
    if j :| Dangles(rev.file, h.Body(f), j) && j.name == name && j.span == at {
      var i :| 0 <= i < |u| && u[i] == j;
      assert reports[|spans| + i] == UndefinedLabel(name, at);
    }
  }

  lemma {:induction false} DanglesExactly(file: nat, body: Stmt, j: Goto)
    ensures Dangles(file, body, j) <==> j in Gotos(file, body, 0) && !exists x :: IsLabel(body, x, j.name)
  {
    hide IsLabel, Listing, Gotos;
    forall x: nat {
      JumpsAndLabelsAreListed(file, body, j, x, j.name);
    }
    JumpsAndLabelsAreListed(file, body, j, 0, j.name);
    if exists x: nat :: IsLabel(body, x, j.name) {
      var x: nat :| IsLabel(body, x, j.name);
      assert Listing(body)[x - 1] in Listing(body);
    }
    if s :| s in Listing(body) && s.LabelStmt? && s.name == j.name && j.name != "" {
      var i :| 0 <= i < |Listing(body)| && Listing(body)[i] == s;
      assert IsLabel(body, i + 1, j.name);
    }
  }

  lemma {:induction false} SpansOfReported(g: Graph, n: nat, at: Span)
    requires n <= |g.blocks|
    ensures at in ReportedSpans(g, n) <==> exists x: nat :: 0 < x <= n && Reported(g, x) && g.blocks[x - 1].span == at
  {
    if n > 0 {
      SpansOfReported(g, n - 1, at);
    }
  }

  /** Code is reported as unreachable exactly where a statement of a well-shaped body is
      executed by no run and nothing leads to it. */
  lemma {:induction false} UnreachableExactly(h: Host, rev: Revision, f: Function, at: Span)
    requires WellShaped(rev.eval, h.Body(f))
    ensures UnreachableCode(at) in Reports(h.CleanGraph(rev, f), f)
       <==> exists x: nat :: Stranded(Env(rev.file, rev.eval), h.Body(f), x, at)
  {
    hide Built, Executed, WellShaped, GraphEdge, ReportedSpans, Listing;
    var env, body := Env(rev.file, rev.eval), h.Body(f);
    var g := h.CleanGraph(rev, f);
    BlocksAreStatements(env, body);
    UnreachableIsSpan(g, f, at);
    SpansOfReported(g, |g.blocks|, at);
    forall x: nat ensures Reported(g, x) <==> 0 < x <= |g.blocks| && Stranded(env, body, x, g.blocks[x - 1].span) {
      ReportedIsStranded(env, body, x);
    }
    if x: nat :| Stranded(env, body, x, at) {
      assert Reported(g, x) && g.blocks[x - 1].span == at;
    }
  }

  lemma {:induction false} UnreachableIsSpan(g: Graph, f: Function, at: Span)
    ensures UnreachableCode(at) in Reports(g, f) <==> at in ReportedSpans(g, |g.blocks|)
  {
    hide ReportedSpans;
    var spans := ReportedSpans(g, |g.blocks|);
    if at in spans {
      var i :| 0 <= i < |spans| && spans[i] == at;
      assert Reports(g, f)[i] == UnreachableCode(at);
    }
  }

  lemma {:induction false} ReportedIsStranded(env: Env, body: Stmt, x: nat)
    requires WellShaped(env.eval, body)
    ensures var g := Built(env, body);
            Reported(g, x) <==> 0 < x <= |g.blocks| && Stranded(env, body, x, g.blocks[x - 1].span)
  {
    hide Built, Executed, WellShaped, GraphEdge, Reachable, Listing;
    var g := Built(env, body);
    BlocksAreStatements(env, body);
    BuiltEdges(env, body);
    ReachableIffExecuted(env, body, x);
    PredecessorIsEdge(g, x);
  }

  lemma {:induction false} PredecessorIsEdge(g: Graph, x: nat)
    ensures Predecessor(g, x) <==> exists u: nat :: HasEdge(g.blocks, u, x)
  {
    if Predecessor(g, x) {
      var i :| 0 <= i < |g.blocks| && x in g.blocks[i].successors;
      assert HasEdge(g.blocks, i + 1, x);
    }
  }
}
