/** The effect iteration ends, and what it says of completely known functions
    does not depend on the order in which functions are visited. */
module EffectFixpoint {
  import opened Collections
  import opened Effects

  // ---- What holds throughout ----

  ghost predicate Inv(env: Env, direct: Graph, now: Graph) {
    && now.Keys == direct.Keys
    && (forall f :: f in direct ==> SameShape(direct[f], now[f]))
    && (forall f, a :: f in direct && Has(direct[f], a) ==> Has(now[f], a))
    && (forall f, a :: f in direct && Has(now[f], a) ==> Least(env, direct, f, a))
    && (forall f :: f in direct && now[f].complete ==> direct[f].complete)
    && (forall f :: f in direct && Knowable(env, direct, f) ==> now[f].complete)
  }

  /** A visit of `f` would change nothing. */
  ghost predicate Stable(env: Env, now: Graph, f: nat)
    requires f in now
  {
    Visited(env, now, now[f], now[f])
  }

  lemma {:induction false} DerivesMore(env: Env, direct: Graph, n: nat, m: nat, f: nat, a: Atom)
    requires Derives(env, direct, n, f, a) && n <= m
    ensures Derives(env, direct, m, f, a)
    decreases n
  {
    if !Has(direct[f], a) {
      var c :| c in direct[f].calls && DerivesByCall(env, direct, n, f, c, a);
      if c.target != 0 {
        var from :| Derives(env, direct, n - 1, c.target, from) && Carries(env, direct[f], c, from, a);
        DerivesMore(env, direct, n - 1, m - 1, c.target, from);
      }
      assert DerivesByCall(env, direct, m, f, c, a);
    }
  }

  lemma {:induction false} DirectIsLeast(env: Env, direct: Graph, f: nat, a: Atom)
    requires f in direct && Has(direct[f], a)
    ensures Least(env, direct, f, a)
  {
    assert Derives(env, direct, 0, f, a);
  }

  lemma {:induction false} LandSame(env: Env, f: Facts, g: Facts, c: Call, i: int)
    requires SameShape(f, g)
    ensures Land(env, f, c, i) == Land(env, g, c, i)
  {
    OwnSame(f, g, |f.parameters|);
  }

  lemma {:induction false} OwnSame(f: Facts, g: Facts, n: nat)
    requires SameShape(f, g) && n <= |f.parameters|
    ensures ReferenceParameters(f, n) == ReferenceParameters(g, n)
  {
    if n > 0 { OwnSame(f, g, n - 1); }
  }

  /** What a call adds can be derived. */
  lemma {:induction false} AddedIsLeast(env: Env, direct: Graph, now: Graph, f: nat, c: Call, a: Atom)
    requires Inv(env, direct, now) && f in direct && c in direct[f].calls && Adds(env, now, now[f], c, a)
    ensures Least(env, direct, f, a)
  {
    forall i ensures Land(env, now[f], c, i) == Land(env, direct[f], c, i) {
      LandSame(env, direct[f], now[f], c, i);
    }
    if c.target == 0 {
      assert DerivesByCall(env, direct, 0, f, c, a);
      assert Derives(env, direct, 0, f, a);
    } else {
      var from :| Has(now[c.target], from) && Carries(env, now[f], c, from, a);
      assert Least(env, direct, c.target, from);
      var n: nat :| Derives(env, direct, n, c.target, from);
      assert Carries(env, direct[f], c, from, a);
      assert DerivesByCall(env, direct, n + 1, f, c, a);
      assert Derives(env, direct, n + 1, f, a);
    }
  }

  /** A function that is knowable never loses its completeness. */
  lemma {:induction false} KnowableStaysComplete(env: Env, direct: Graph, now: Graph, f: nat, c: Call)
    requires Inv(env, direct, now) && f in direct && Knowable(env, direct, f) && c in direct[f].calls
    ensures CallOK(env, now, now[f], c)
  {
    ReachesSelf(direct, f);
    assert !Unknowable(env, direct, f);
    assert !UnknowableCall(env, direct, f, c);
    forall i ensures Land(env, now[f], c, i) == Land(env, direct[f], c, i) {
      LandSame(env, direct[f], now[f], c, i);
    }
    if c.target != 0 {
      assert Calls(direct, f, c.target);
      forall h | CallReaches(direct, c.target, h) ensures !Unknowable(env, direct, h) {
        ReachesFirst(direct, f, c.target, h);
      }
      assert Knowable(env, direct, c.target);
      forall i | i in now[c.target].mutated ensures !Land(env, now[f], c, i).Fails? {
        assert Has(now[c.target], Mutates(i));
        assert Least(env, direct, c.target, Mutates(i));
      }
    }
  }

  lemma {:induction false} VisitKeeps(env: Env, direct: Graph, now: Graph, f: nat, next: Facts)
    requires Inv(env, direct, now) && f in now && Visited(env, now, now[f], next)
    ensures Inv(env, direct, now[f := next])
  {
    forall a | Has(next, a) ensures Least(env, direct, f, a) {
      if !Has(now[f], a) {
        var c :| c in now[f].calls && Adds(env, now, now[f], c, a);
        AddedIsLeast(env, direct, now, f, c, a);
      }
    }
    if Knowable(env, direct, f) {
      forall c | c in now[f].calls ensures CallOK(env, now, now[f], c) {
        KnowableStaysComplete(env, direct, now, f, c);
      }
    }
  }

  // ---- Termination ----

  /** Every effect that can ever be recorded. */
  ghost function Universe(direct: Graph): set<Atom> {
    {Impure}
    + (set f, id | f in direct && id in direct[f].readIds :: Reads(id))
    + (set f, id | f in direct && id in direct[f].writeIds :: Writes(id))
    + (set f, i | f in direct && i in direct[f].mutated :: Mutates(i))
    + (set f, c, id | f in direct && c in direct[f].calls && id in c.arguments :: Writes(id))
    + (set f, p | f in direct && 0 <= p < |direct[f].parameters| :: Mutates(p))
  }

  lemma {:induction false} OwnIndexes(f: Facts, n: nat, id: nat)
    requires n <= |f.parameters| && id in ReferenceParameters(f, n)
    ensures ReferenceParameters(f, n)[id] < n
  {
    if n > 0 && id in ReferenceParameters(f, n - 1) { OwnIndexes(f, n - 1, id); }
  }

  lemma {:induction false} LandsInUniverse(env: Env, direct: Graph, f: nat, c: Call, i: int, a: Atom)
    requires f in direct && c in direct[f].calls && Lands(env, direct[f], c, i, a)
    ensures a in Universe(direct)
  {
    var id := c.arguments[i];
    if id in ReferenceParameters(direct[f], |direct[f].parameters|) {
      OwnIndexes(direct[f], |direct[f].parameters|, id);
    }
  }

  lemma {:induction false} LeastInUniverse(env: Env, direct: Graph, n: nat, f: nat, a: Atom)
    requires Derives(env, direct, n, f, a)
    ensures a in Universe(direct)
    decreases n
  {
    if !Has(direct[f], a) {
      var c :| c in direct[f].calls && DerivesByCall(env, direct, n, f, c, a);
      if c.target == 0 {
        if !a.Impure? {
          var i :| i in ExternalEffects(env, c.name).value.mutated && Lands(env, direct[f], c, i, a);
          LandsInUniverse(env, direct, f, c, i, a);
        }
      } else {
        var from :| Derives(env, direct, n - 1, c.target, from) && Carries(env, direct[f], c, from, a);
        LeastInUniverse(env, direct, n - 1, c.target, from);
        if from.Mutates? {
          LandsInUniverse(env, direct, f, c, from.index, a);
        }
      }
    }
  }

  ghost function Unrecorded(direct: Graph, now: Graph): set<(nat, Atom)> {
    set f, a | f in now && a in Universe(direct) && !Has(now[f], a) :: (f, a)
  }

  ghost function CompleteOnes(now: Graph): set<nat> { set f | f in now && now[f].complete }

  ghost function UntidyOnes(now: Graph): set<nat> { set f | f in now && !Tidy(now[f]) }

  /** What is left to change: every update makes this smaller. */
  ghost function Rank(direct: Graph, now: Graph): nat {
    |Unrecorded(direct, now)| + |CompleteOnes(now)| + |UntidyOnes(now)|
  }

  lemma {:induction false} FewerElements<T>(small: set<T>, large: set<T>)
    requires small <= large
    ensures |small| <= |large|
    ensures small != large ==> |small| < |large|
  {
    assert large == small + (large - small);
    if small != large {
      assert large - small != {};
    }
  }

  lemma {:induction false} AscendingUnique(a: seq<int>, b: seq<int>)
    requires Ascending(a) && Ascending(b) && forall x :: x in a <==> x in b
    ensures a == b
    decreases |a|
  {
    if a != [] { MemberAt(a, 0); }
    if b != [] { MemberAt(b, 0); }
    if a != [] && b != [] {
      assert a[0] in b && b[0] in a;
      assert a[0] == b[0];
      forall x ensures x in a[1..] <==> x in b[1..] {
        TailElements(a, x);
        TailElements(b, x);
      }
      AscendingUnique(a[1..], b[1..]);
      assert a == [a[0]] + a[1..] && b == [b[0]] + b[1..];
    }
  }

  lemma {:induction false} MemberAt<T>(s: seq<T>, i: nat)
    requires i < |s|
    ensures s[i] in s
  {
  }

  lemma {:induction false} TailElements(a: seq<int>, x: int)
    requires Ascending(a) && a != []
    ensures x in a[1..] <==> x in a && x != a[0]
  {
    assert a == [a[0]] + a[1..];
    if x in a[1..] {
      var k :| 0 <= k < |a[1..]| && a[1..][k] == x;
      assert a[k + 1] == x && a[0] < a[k + 1];
    }
  }

  /** Tidy facts with the same effects are the same facts. */
  lemma {:induction false} TidyUnique(f: Facts, g: Facts)
    requires Tidy(f) && Tidy(g) && SameShape(f, g) && f.complete == g.complete
    requires forall a :: Has(f, a) <==> Has(g, a)
    ensures f == g
  {
    forall x ensures x in f.mutated <==> x in g.mutated { assert Has(f, Mutates(x)) <==> Has(g, Mutates(x)); }
    forall x: int ensures (x in f.readIds <==> x in g.readIds) && (x in f.writeIds <==> x in g.writeIds) {
      if x >= 0 {
        assert Has(f, Reads(x)) <==> Has(g, Reads(x));
        assert Has(f, Writes(x)) <==> Has(g, Writes(x));
      }
    }
    AscendingUnique(f.readIds, g.readIds);
    AscendingUnique(f.writeIds, g.writeIds);
    AscendingUnique(f.mutated, g.mutated);
    assert Has(f, Impure) <==> Has(g, Impure);
  }

  lemma {:induction false} UpdateLowersRank(env: Env, direct: Graph, now: Graph, f: nat, next: Facts)
    requires Inv(env, direct, now) && f in now && Visited(env, now, now[f], next) && next != now[f]
    ensures Rank(direct, now[f := next]) < Rank(direct, now)
  {
    var after := now[f := next];
    VisitKeeps(env, direct, now, f, next);
    FewerElements(Unrecorded(direct, after), Unrecorded(direct, now));
    FewerElements(CompleteOnes(after), CompleteOnes(now));
    FewerElements(UntidyOnes(after), UntidyOnes(now));
    if exists a :: Has(next, a) && !Has(now[f], a) {
      var a :| Has(next, a) && !Has(now[f], a);
      var n: nat :| Derives(env, direct, n, f, a);
      LeastInUniverse(env, direct, n, f, a);
      assert (f, a) in Unrecorded(direct, now) && (f, a) !in Unrecorded(direct, after);
    } else if next.complete != now[f].complete {
      assert f in CompleteOnes(now) && f !in CompleteOnes(after);
    } else {
      if Tidy(now[f]) {
        TidyUnique(now[f], next);
      }
      assert f in UntidyOnes(now) && f !in UntidyOnes(after);
    }
  }

  // ---- The iteration ----

  /** An effect that every order of visits finds: a direct one, or one that a call
      brings from outside the graph or from a completely known function. */
  ghost predicate Sure(env: Env, direct: Graph, f: nat, a: Atom) {
    f in direct && (Has(direct[f], a) || exists c :: c in direct[f].calls && SureByCall(env, direct, f, c, a))
  }

  ghost predicate SureByCall(env: Env, direct: Graph, f: nat, c: Call, a: Atom)
    requires f in direct
  {
    if c.target == 0 then Outside(env, direct[f], c, a)
    else Knowable(env, direct, c.target)
         && exists from :: Least(env, direct, c.target, from) && Carries(env, direct[f], c, from, a)
  }

  /** What a resolved graph says, whatever the order of visits was: all of the complete
      functions, and bounds on the others from below and above. */
  ghost predicate Resolved(env: Env, direct: Graph, result: Graph) {
    && result.Keys == direct.Keys
    && (forall f :: f in direct ==> SameShape(direct[f], result[f]) && Tidy(result[f]))
    && (forall f :: f in direct ==> (result[f].complete <==> Knowable(env, direct, f)))
    && (forall f, a :: f in direct && result[f].complete ==> (Has(result[f], a) <==> Least(env, direct, f, a)))
    && (forall f, a :: f in direct && Sure(env, direct, f, a) ==> Has(result[f], a))
    && (forall f, a :: f in direct && Has(result[f], a) ==> Least(env, direct, f, a))
  }

  method ResolveFunctionFacts(env: Env, direct: Graph) returns (result: Graph)
    ensures Resolved(env, direct, result)
    ensures forall f :: f in result ==> Stable(env, result, f)
  {
    result := direct;
    forall f, a | f in direct && Has(direct[f], a) ensures Least(env, direct, f, a) {
      DirectIsLeast(env, direct, f, a);
    }
    forall f | f in direct && Knowable(env, direct, f) ensures direct[f].complete {
      ReachesSelf(direct, f);
      assert !Unknowable(env, direct, f);
    }
    var changed := true;
    while changed
      invariant Inv(env, direct, result)
      invariant !changed ==> forall f :: f in result ==> Stable(env, result, f)
      decreases Rank(direct, result), changed
    {
      changed := false;
      ghost var start := result;
      var todo := result.Keys;
      while todo != {}
        invariant Inv(env, direct, result) && todo <= direct.Keys
        invariant if changed then Rank(direct, result) < Rank(direct, start) else result == start
        invariant !changed ==> forall f :: f in result && f !in todo ==> Stable(env, result, f)
        decreases todo
      {
        var id := Pick(todo);
        todo := todo - {id};
        var next, different := Visit(env, result, result[id]);
        if different {
          VisitKeeps(env, direct, result, id, next);
          UpdateLowersRank(env, direct, result, id, next);
          result := result[id := next];
          changed := true;
        }
      }
    }
    FixpointIsResolved(env, direct, result);
  }

  // ---- The fixpoint ----

  lemma {:induction false} StableCall(env: Env, now: Graph, f: nat, c: Call)
    requires f in now && Stable(env, now, f) && now[f].complete && c in now[f].calls
    ensures CallOK(env, now, now[f], c)
  {
  }

  lemma {:induction false} StableAdds(env: Env, now: Graph, f: nat, c: Call, a: Atom)
    requires f in now && Stable(env, now, f) && c in now[f].calls && Adds(env, now, now[f], c, a)
    ensures Has(now[f], a)
  {
  }

  /** At the fixpoint a complete function has every effect that can be derived. */
  lemma {:induction false} LeastIsRecorded(env: Env, direct: Graph, now: Graph, n: nat, f: nat, a: Atom)
    requires Inv(env, direct, now) && forall g :: g in now ==> Stable(env, now, g)
    requires Derives(env, direct, n, f, a) && now[f].complete
    ensures Has(now[f], a)
    decreases n
  {
    if !Has(direct[f], a) {
      var c :| c in direct[f].calls && DerivesByCall(env, direct, n, f, c, a);
      forall i ensures Land(env, now[f], c, i) == Land(env, direct[f], c, i) {
        LandSame(env, direct[f], now[f], c, i);
      }
      StableCall(env, now, f, c);
      if c.target != 0 {
        var from :| Derives(env, direct, n - 1, c.target, from) && Carries(env, direct[f], c, from, a);
        LeastIsRecorded(env, direct, now, n - 1, c.target, from);
        assert Carries(env, now[f], c, from, a);
      }
      assert Adds(env, now, now[f], c, a);
      StableAdds(env, now, f, c, a);
    }
  }

  lemma {:induction false} CompleteIsNotUnknowable(env: Env, direct: Graph, now: Graph, f: nat)
    requires Inv(env, direct, now) && forall g :: g in now ==> Stable(env, now, g)
    requires f in direct && now[f].complete
    ensures !Unknowable(env, direct, f)
  {
    forall c | c in direct[f].calls ensures !UnknowableCall(env, direct, f, c) {
      forall i ensures Land(env, now[f], c, i) == Land(env, direct[f], c, i) {
        LandSame(env, direct[f], now[f], c, i);
      }
      StableCall(env, now, f, c);
      if c.target != 0 {
        forall i | Least(env, direct, c.target, Mutates(i)) ensures !Land(env, direct[f], c, i).Fails? {
          var n: nat :| Derives(env, direct, n, c.target, Mutates(i));
          LeastIsRecorded(env, direct, now, n, c.target, Mutates(i));
        }
      }
    }
  }

  lemma {:induction false} CompletePropagates(env: Env, direct: Graph, now: Graph, path: seq<nat>, k: nat)
    requires Inv(env, direct, now) && forall g :: g in now ==> Stable(env, now, g)
    requires IsPath(direct, path) && k < |path| && path[0] in direct && now[path[0]].complete
    ensures path[k] in direct && now[path[k]].complete
  {
    if k > 0 {
      CompletePropagates(env, direct, now, path, k - 1);
      assert Calls(direct, path[k - 1], path[k - 1 + 1]);
      var c :| c in direct[path[k - 1]].calls && c.target == path[k];
      StableCall(env, now, path[k - 1], c);
    }
  }

  /** Every graph that the iteration can stop at is the one resolved graph. */
  lemma {:induction false} FixpointIsResolved(env: Env, direct: Graph, now: Graph)
    requires Inv(env, direct, now) && forall g :: g in now ==> Stable(env, now, g)
    ensures Resolved(env, direct, now)
  {
    forall f | f in direct ensures Tidy(now[f]) {
      assert Stable(env, now, f);
    }
    forall f | f in direct && now[f].complete ensures Knowable(env, direct, f) {
      forall g | CallReaches(direct, f, g) ensures !Unknowable(env, direct, g) {
        var path :| IsPath(direct, path) && path[0] == f && path[|path| - 1] == g;
        CompletePropagates(env, direct, now, path, |path| - 1);
        CompleteIsNotUnknowable(env, direct, now, g);
      }
    }
    forall f, a | f in direct && now[f].complete && Least(env, direct, f, a) ensures Has(now[f], a) {
      var n: nat :| Derives(env, direct, n, f, a);
      LeastIsRecorded(env, direct, now, n, f, a);
    }
    forall f, a | f in direct && Sure(env, direct, f, a) ensures Has(now[f], a) {
      SureIsRecorded(env, direct, now, f, a);
    }
  }

  lemma {:induction false} SureIsRecorded(env: Env, direct: Graph, now: Graph, f: nat, a: Atom)
    requires Inv(env, direct, now) && forall g :: g in now ==> Stable(env, now, g)
    requires Sure(env, direct, f, a)
    ensures Has(now[f], a)
  {
    if !Has(direct[f], a) {
      var c :| c in direct[f].calls && SureByCall(env, direct, f, c, a);
      forall i ensures Land(env, now[f], c, i) == Land(env, direct[f], c, i) {
        LandSame(env, direct[f], now[f], c, i);
      }
      if c.target != 0 {
        ReachesSelf(direct, c.target);
        assert !Unknowable(env, direct, c.target);
        var from :| Least(env, direct, c.target, from) && Carries(env, direct[f], c, from, a);
        var n: nat :| Derives(env, direct, n, c.target, from);
        LeastIsRecorded(env, direct, now, n, c.target, from);
        assert Carries(env, now[f], c, from, a);
      }
      assert Adds(env, now, now[f], c, a);
      StableAdds(env, now, f, c, a);
    }
  }

  // ---- Order independence, and what the least solution is ----

  /** Every order finds the same facts: the function is complete, or what can be derived
      for it is what every order finds. */
  ghost predicate Settled(env: Env, direct: Graph, f: nat) {
    Knowable(env, direct, f) || forall a :: Least(env, direct, f, a) ==> Sure(env, direct, f, a)
  }

  /** Two runs, in whatever orders, agree on completeness and on all facts of complete
      functions, and of every incomplete one whose bounds meet. */
  lemma {:induction false} OrderDoesNotMatter(env: Env, direct: Graph, one: Graph, two: Graph)
    requires Resolved(env, direct, one) && Resolved(env, direct, two)
    ensures forall f :: f in direct ==> one[f].complete == two[f].complete
    ensures forall f :: f in direct && one[f].complete ==> one[f] == two[f]
    ensures forall f :: f in direct && Settled(env, direct, f) ==> one[f] == two[f]
  {
    forall f | f in direct && Settled(env, direct, f) ensures one[f] == two[f] {
      assert SameShape(direct[f], one[f]) && SameShape(direct[f], two[f]);
      TidyUnique(one[f], two[f]);
    }
  }

  /** The reads of a function are the direct reads of all it may call. */
  lemma {:induction false} ReadsAreReachableReads(env: Env, direct: Graph, f: nat, id: nat)
    ensures Least(env, direct, f, Reads(id))
       <==> exists g :: CallReaches(direct, f, g) && g in direct && id in direct[g].readIds
  {
    if Least(env, direct, f, Reads(id)) {
      var n: nat :| Derives(env, direct, n, f, Reads(id));
      ReadsComeFrom(env, direct, n, f, id);
    }
    if exists g :: CallReaches(direct, f, g) && g in direct && id in direct[g].readIds {
      var g :| CallReaches(direct, f, g) && g in direct && id in direct[g].readIds;
      var path :| IsPath(direct, path) && path[0] == f && path[|path| - 1] == g;
      ReadsGoBack(env, direct, path, 0, id);
    }
  }

  lemma {:induction false} ReadsComeFrom(env: Env, direct: Graph, n: nat, f: nat, id: nat)
    requires Derives(env, direct, n, f, Reads(id))
    ensures exists g :: CallReaches(direct, f, g) && g in direct && id in direct[g].readIds
    decreases n
  {
    if Has(direct[f], Reads(id)) {
      ReachesSelf(direct, f);
    } else {
      var c :| c in direct[f].calls && DerivesByCall(env, direct, n, f, c, Reads(id));
      var from :| Derives(env, direct, n - 1, c.target, from) && Carries(env, direct[f], c, from, Reads(id));
      assert from == Reads(id);
      ReadsComeFrom(env, direct, n - 1, c.target, id);
      var g :| CallReaches(direct, c.target, g) && g in direct && id in direct[g].readIds;
      assert Calls(direct, f, c.target);
      ReachesFirst(direct, f, c.target, g);
    }
  }

  lemma {:induction false} ReadsGoBack(env: Env, direct: Graph, path: seq<nat>, k: nat, id: nat)
    requires IsPath(direct, path) && k < |path|
    requires path[|path| - 1] in direct && id in direct[path[|path| - 1]].readIds
    ensures Derives(env, direct, |path| - 1 - k, path[k], Reads(id))
    decreases |path| - k
  {
    if k < |path| - 1 {
      ReadsGoBack(env, direct, path, k + 1, id);
      assert Calls(direct, path[k], path[k + 1]);
      var c :| c in direct[path[k]].calls && c.target == path[k + 1];
      assert Carries(env, direct[path[k]], c, Reads(id), Reads(id));
      assert DerivesByCall(env, direct, |path| - 1 - k, path[k], c, Reads(id));
    }
  }

  // ---- Incomplete functions ----

  /** One visit of some function. */
  ghost predicate Visits(env: Env, now: Graph, f: nat, after: Graph) {
    f in now && f in after && Visited(env, now, now[f], after[f]) && after == now[f := after[f]]
  }

  function Partial(complete: bool, ids: seq<nat>, target: nat): Facts {
    Facts(complete, false, ids, [], [], [Call(target, "", [])], [], [])
  }

  /** Function 1 calls 2, which reads 7 and calls a function that is not there. */
  function Pair(first: bool, ids: seq<nat>, second: bool): Graph {
    map[1 := Partial(first, ids, 2), 2 := Partial(second, [7], 9)]
  }

  /** The reads recorded for an incomplete function do depend on the order: the
      iteration can stop with 7 recorded for function 1 and without it. */
  lemma {:induction false} IncompleteFactsDependOnOrder(env: Env)
    ensures var direct, with, without := Pair(true, [], true), Pair(false, [7], false), Pair(false, [], false);
            // visiting 1, 2, 1
            && Visits(env, direct, 1, Pair(true, [7], true))
            && Visits(env, Pair(true, [7], true), 2, Pair(true, [7], false))
            && Visits(env, Pair(true, [7], false), 1, with)
            // visiting 2, 1
            && Visits(env, direct, 2, Pair(true, [], false))
            && Visits(env, Pair(true, [], false), 1, without)
            && (forall f :: f in with ==> Stable(env, with, f))
            && (forall f :: f in without ==> Stable(env, without, f))
            && with != without
  {
    VisitFirst(env, true, [], true);
    VisitSecond(env, true, [7], true);
    VisitFirst(env, true, [7], false);
    VisitSecond(env, true, [], true);
    VisitFirst(env, true, [], false);
    VisitFirst(env, false, [7], false);
    VisitFirst(env, false, [], false);
    VisitSecond(env, false, [7], false);
    VisitSecond(env, false, [], false);
    assert Pair(false, [], false)[1].readIds != [7];
  }

  lemma {:induction false} VisitFirst(env: Env, first: bool, ids: seq<nat>, second: bool)
    requires ids == [] || ids == [7]
    ensures Visits(env, Pair(first, ids, second), 1, Pair(first && second, if second then [7] else ids, second))
  {
    var now, c := Pair(first, ids, second), Call(2, "", []);
    var f, next := Partial(first, ids, 2), Partial(first && second, if second then [7] else ids, 2);
    forall a ensures Adds(env, now, f, c, a) <==> second && a == Reads(7) {
      if second && a == Reads(7) {
        assert Has(now[2], a) && Carries(env, f, c, a, a);
      }
    }
    assert forall a :: Has(next, a) <==> Has(f, a) || Adds(env, now, f, c, a);
    OneCall(env, now, f, c, next);
  }

  lemma {:induction false} VisitSecond(env: Env, first: bool, ids: seq<nat>, second: bool)
    ensures Visits(env, Pair(first, ids, second), 2, Pair(first, ids, false))
  {
    var now := Pair(first, ids, second);
    OneCall(env, now, now[2], Call(9, "", []), Partial(false, [7], 9));
  }

  lemma {:induction false} OneCall(env: Env, now: Graph, f: Facts, c: Call, next: Facts)
    requires f.calls == [c] && SameShape(f, next) && Tidy(next)
    requires forall a :: Has(next, a) <==> Has(f, a) || Adds(env, now, f, c, a)
    requires next.complete <==> f.complete && CallOK(env, now, f, c)
    ensures Visited(env, now, f, next)
  {
    assert forall d :: d in f.calls <==> d == c;
  }
}
