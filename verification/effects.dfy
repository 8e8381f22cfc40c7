/** Function effects through resolved calls: a chaotic iteration in any order,
    with in-place updates, that skips callees known to be incomplete. */
module Effects {
  import opened Collections

  /** A call site; function 0 stands for one outside the source graph. */
  datatype Call = Call(target: nat, name: string, arguments: seq<nat>)

  datatype Facts = Facts(
    complete: bool, impure: bool, readIds: seq<nat>, writeIds: seq<nat>, mutated: seq<int>,
    calls: seq<Call>, parameters: seq<nat>, references: seq<bool>)

  /** Effects that an external API declares for one of its functions. */
  datatype External = External(complete: bool, impure: bool, mutated: seq<int>)

  /** What the symbol table says of an argument. */
  datatype Place = Missing | Global | Elsewhere

  datatype Env = Env(resolve: string -> Option<External>, place: nat -> Place)

  function ExternalEffects(env: Env, name: string): Option<External> {
    if name == "" then None else env.resolve(name)
  }

  // ---- One mutated parameter seen from the caller ----

  datatype Landing = Fails | ToParameter(index: nat) | ToGlobal(id: nat) | Nowhere

  /** The caller's own reference parameters, by symbol; the last one wins. */
  function ReferenceParameters(f: Facts, n: nat): map<nat, nat>
    requires n <= |f.parameters|
  {
    if n == 0 then map[]
    else
      var before := ReferenceParameters(f, n - 1);
      if n - 1 < |f.references| && f.references[n - 1] then before[f.parameters[n - 1] := n - 1] else before
  }

  /** Where the mutation of the callee's parameter `index` lands in the caller. */
  function Land(env: Env, caller: Facts, c: Call, index: int): Landing {
    if index < 0 || index >= |c.arguments| || c.arguments[index] == 0 then Fails
    else
      var id := c.arguments[index];
      var own := ReferenceParameters(caller, |caller.parameters|);
      if id in own then ToParameter(own[id])
      else match env.place(id)
           case Missing => Fails
           case Global => ToGlobal(id)
           case Elsewhere => Nowhere
  }

  // ---- Atomic effects ----

  datatype Atom = Reads(id: nat) | Writes(id: nat) | Mutates(index: int) | Impure

  predicate Has(f: Facts, a: Atom) {
    match a
    case Reads(id) => id in f.readIds
    case Writes(id) => id in f.writeIds
    case Mutates(index) => index in f.mutated
    case Impure => f.impure
  }

  /** Effect `a` of the caller comes from effect `from` of the callee. */
  predicate Carries(env: Env, caller: Facts, c: Call, from: Atom, a: Atom) {
    match from
    case Mutates(index) => Lands(env, caller, c, index, a)
    case _ => a == from
  }

  predicate Lands(env: Env, caller: Facts, c: Call, index: int, a: Atom) {
    match Land(env, caller, c, index)
    case ToParameter(p) => a == Mutates(p)
    case ToGlobal(id) => a == Writes(id)
    case _ => false
  }

  /** Effects of a call that leaves the source graph. */
  ghost predicate Outside(env: Env, caller: Facts, c: Call, a: Atom) {
    var e := ExternalEffects(env, c.name);
    && e.Some? && e.value.complete
    && ((a.Impure? && e.value.impure) || exists i :: i in e.value.mutated && Lands(env, caller, c, i, a))
  }

  ghost predicate OutsideOK(env: Env, caller: Facts, c: Call) {
    var e := ExternalEffects(env, c.name);
    && e.Some? && e.value.complete
    && forall i :: i in e.value.mutated ==> !Land(env, caller, c, i).Fails?
  }

  // ---- The least solution ----

  type Graph = map<nat, Facts>

  /** Function `f` has effect `a` by a chain of at most `n` calls, whether or not
      any function on the way is complete. */
  ghost predicate Derives(env: Env, direct: Graph, n: nat, f: nat, a: Atom)
    decreases n, 1
  {
    f in direct &&
    (|| Has(direct[f], a)
     || exists c :: c in direct[f].calls && DerivesByCall(env, direct, n, f, c, a))
  }

  ghost predicate DerivesByCall(env: Env, direct: Graph, n: nat, f: nat, c: Call, a: Atom)
    requires f in direct
    decreases n, 0
  {
    if c.target == 0 then Outside(env, direct[f], c, a)
    else n > 0 && exists from :: Derives(env, direct, n - 1, c.target, from) && Carries(env, direct[f], c, from, a)
  }

  /** The least solution of the effect equations. */
  ghost predicate Least(env: Env, direct: Graph, f: nat, a: Atom) {
    exists n :: Derives(env, direct, n, f, a)
  }

  // ---- Completeness ----

  /** Something about `f` itself cannot be known. */
  ghost predicate Unknowable(env: Env, direct: Graph, f: nat) {
    || f !in direct
    || !direct[f].complete
    || exists c :: c in direct[f].calls && UnknowableCall(env, direct, f, c)
  }

  ghost predicate UnknowableCall(env: Env, direct: Graph, f: nat, c: Call)
    requires f in direct
  {
    if c.target == 0 then !OutsideOK(env, direct[f], c)
    else || c.target !in direct
         || exists i :: Least(env, direct, c.target, Mutates(i)) && Land(env, direct[f], c, i).Fails?
  }

  ghost predicate Calls(direct: Graph, f: nat, g: nat) {
    f in direct && g != 0 && exists c :: c in direct[f].calls && c.target == g
  }

  ghost predicate IsPath(direct: Graph, path: seq<nat>) {
    path != [] && forall i :: 0 <= i < |path| - 1 ==> Calls(direct, path[i], path[i + 1])
  }

  /** `g` may be called, directly or not, when `f` runs (or is `f`). */
  ghost predicate CallReaches(direct: Graph, f: nat, g: nat) {
    exists path :: IsPath(direct, path) && path[0] == f && path[|path| - 1] == g
  }

  /** Everything that `f` may call is knowable. */
  ghost predicate Knowable(env: Env, direct: Graph, f: nat) {
    forall g :: CallReaches(direct, f, g) ==> !Unknowable(env, direct, g)
  }

  lemma {:induction false} ReachesSelf(direct: Graph, f: nat)
    ensures CallReaches(direct, f, f)
  {
    assert IsPath(direct, [f]);
  }

  lemma {:induction false} ReachesFirst(direct: Graph, f: nat, g: nat, h: nat)
    requires Calls(direct, f, g) && CallReaches(direct, g, h)
    ensures CallReaches(direct, f, h)
  {
    var path :| IsPath(direct, path) && path[0] == g && path[|path| - 1] == h;
    var longer := [f] + path;
    forall i | 0 <= i < |longer| - 1 ensures Calls(direct, longer[i], longer[i + 1]) {
      if i > 0 { assert longer[i] == path[i - 1] && longer[i + 1] == path[i]; }
    }
    assert IsPath(direct, longer);
  }

  // ---- One update ----

  /** Effects that the call adds to the caller, given the facts at hand. */
  ghost predicate Adds(env: Env, now: Graph, caller: Facts, c: Call, a: Atom) {
    if c.target == 0 then Outside(env, caller, c, a)
    else && c.target in now && now[c.target].complete
         && exists from :: Has(now[c.target], from) && Carries(env, caller, c, from, a)
  }

  ghost predicate CallOK(env: Env, now: Graph, caller: Facts, c: Call) {
    if c.target == 0 then OutsideOK(env, caller, c)
    else && c.target in now && now[c.target].complete
         && forall i :: i in now[c.target].mutated ==> !Land(env, caller, c, i).Fails?
  }

  predicate SameShape(f: Facts, g: Facts) {
    f.calls == g.calls && f.parameters == g.parameters && f.references == g.references
  }

  ghost predicate Ascending(s: seq<int>) {
    forall i, j :: 0 <= i < j < |s| ==> s[i] < s[j]
  }

  ghost predicate Tidy(f: Facts) {
    Ascending(f.readIds) && Ascending(f.writeIds) && Ascending(f.mutated)
  }

  /** `next` is what one visit makes of `f`. */
  ghost predicate Visited(env: Env, now: Graph, f: Facts, next: Facts) {
    && SameShape(f, next) && Tidy(next)
    && (forall a :: Has(next, a) <==> Has(f, a) || exists c :: c in f.calls && Adds(env, now, f, c, a))
    && (next.complete <==> f.complete && forall c :: c in f.calls ==> CallOK(env, now, f, c))
  }

  // ---- Sorted sets ----

  method InsertSorted(s: seq<int>, x: int) returns (r: seq<int>)
    requires Ascending(s) && x !in s
    ensures Ascending(r) && forall y :: y in r <==> y in s || y == x
  {
    var at := 0;
    while at < |s| && s[at] < x
      invariant 0 <= at <= |s|
      invariant forall k :: 0 <= k < at ==> s[k] < x
    {
      at := at + 1;
    }
    assert at < |s| ==> s[at] in s;
    r := s[..at] + [x] + s[at..];
    AscendingHalves(s[..at] + [x], s[at..]);
    assert s == s[..at] + s[at..];
  }

  lemma {:induction false} AscendingHalves(a: seq<int>, b: seq<int>)
    requires Ascending(a) && Ascending(b)
    requires a != [] && b != [] ==> a[|a| - 1] < b[0]
    ensures Ascending(a + b)
  {
    forall i, k | 0 <= i < k < |a + b| ensures (a + b)[i] < (a + b)[k] {
      if i < |a| <= k {
        assert a[i] <= a[|a| - 1];
        assert b[0] <= b[k - |a|];
      }
    }
  }

  method Sorted(values: set<int>) returns (r: seq<int>)
    ensures Ascending(r) && forall x :: x in r <==> x in values
  {
    r := [];
    var left := values;
    while left != {}
      invariant left <= values
      invariant Ascending(r)
      invariant forall x: int :: x in r <==> x in values && x !in left
      decreases left
    {
      var x := Pick(left);
      r := InsertSorted(r, x);
      left := left - {x};
    }
  }

  method SortedIDs(values: set<nat>) returns (r: seq<nat>)
    ensures Ascending(r) && forall x: nat :: x in r <==> x in values
  {
    var all := Sorted((set x | x in values :: x as int));
    r := [];
    for i := 0 to |all|
      invariant |r| == i && forall k :: 0 <= k < i ==> r[k] == all[k]
    {
      assert all[i] in all;
      r := r + [all[i]];
    }
    assert forall x: nat :: x in r ==> x in all;
    forall x: nat | x in values ensures x in r {
      assert x in all;
      var k :| 0 <= k < |all| && all[k] == x;
      assert r[k] == x;
    }
  }

  method Equal(left: seq<int>, right: seq<int>) returns (same: bool)
    ensures same <==> left == right
  {
    if |left| != |right| {
      return false;
    }
    for i := 0 to |left|
      invariant left[..i] == right[..i]
    {
      if left[i] != right[i] {
        return false;
      }
    }
    assert left[..|left|] == left && right[..|right|] == right;
    same := true;
  }

  // ---- The visit of one function ----

  /** The effects gathered so far while a function is visited. */
  datatype Gathered = Gathered(complete: bool, impure: bool, readIds: set<nat>, writeIds: set<nat>, mutated: set<int>)

  predicate Holds(g: Gathered, a: Atom) {
    match a
    case Reads(id) => id in g.readIds
    case Writes(id) => id in g.writeIds
    case Mutates(index) => index in g.mutated
    case Impure => g.impure
  }

  method PropagateMutations(env: Env, c: Call, mutated: seq<int>, caller: Facts, g: Gathered)
    returns (r: Gathered, ok: bool)
    ensures forall a :: Holds(r, a) <==> Holds(g, a) || exists i :: i in mutated && Lands(env, caller, c, i, a)
    ensures r.complete == g.complete
    ensures ok <==> forall i :: i in mutated ==> !Land(env, caller, c, i).Fails?
  {
    var own: map<nat, nat> := map[];
    for n := 0 to |caller.parameters|
      invariant own == ReferenceParameters(caller, n)
    {
      if n < |caller.references| && caller.references[n] {
        own := own[caller.parameters[n] := n];
      }
    }
    r, ok := g, true;
    for n := 0 to |mutated|
      invariant r.complete == g.complete
      invariant forall a :: Holds(r, a) <==> Holds(g, a) || exists i :: i in mutated[..n] && Lands(env, caller, c, i, a)
      invariant ok <==> forall i :: i in mutated[..n] ==> !Land(env, caller, c, i).Fails?
    {
      var fine;
      r, fine := PropagateMutation(env, c, mutated[n], caller, own, r);
      ok := ok && fine;
      assert mutated[..n + 1] == mutated[..n] + [mutated[n]];
    }
    assert mutated[..|mutated|] == mutated;
  }

  method PropagateMutation(env: Env, c: Call, index: int, caller: Facts, own: map<nat, nat>, g: Gathered)
    returns (r: Gathered, ok: bool)
    requires own == ReferenceParameters(caller, |caller.parameters|)
    ensures forall a :: Holds(r, a) <==> Holds(g, a) || Lands(env, caller, c, index, a)
    ensures r.complete == g.complete
    ensures ok <==> !Land(env, caller, c, index).Fails?
  {
    r, ok := g, true;
    if index < 0 || index >= |c.arguments| || c.arguments[index] == 0 {
      return g, false;
    }
    var id := c.arguments[index];
    if id in own {
      r := r.(mutated := r.mutated + {own[id]});
      return;
    }
    match env.place(id)
    case Missing => ok := false;
    case Global => r := r.(writeIds := r.writeIds + {id});
    case Elsewhere =>
  }

  method VisitCall(env: Env, now: Graph, c: Call, caller: Facts, g: Gathered) returns (r: Gathered)
    ensures forall a :: Holds(r, a) <==> Holds(g, a) || Adds(env, now, caller, c, a)
    ensures r.complete <==> g.complete && CallOK(env, now, caller, c)
  {
    if c.target == 0 {
      var external := ExternalEffects(env, c.name);
      if external.None? || !external.value.complete {
        return g.(complete := false);
      }
      r := g.(impure := g.impure || external.value.impure);
      ghost var first := r;
      var ok;
      r, ok := PropagateMutations(env, c, external.value.mutated, caller, r);
      forall a ensures Holds(r, a) <==> Holds(g, a) || Adds(env, now, caller, c, a) {
        assert Holds(first, a) <==> Holds(g, a) || (a.Impure? && external.value.impure);
      }
      if !ok {
        r := r.(complete := false);
      }
      return;
    }
    if c.target !in now || !now[c.target].complete {
      return g.(complete := false);
    }
    var callee := now[c.target];
    r := g.(impure := g.impure || callee.impure,
            readIds := g.readIds + (set x | x in callee.readIds),
            writeIds := g.writeIds + (set x | x in callee.writeIds));
    ghost var plain := r;
    var ok;
    r, ok := PropagateMutations(env, c, callee.mutated, caller, r);
    forall a ensures Holds(r, a) <==> Holds(g, a) || Adds(env, now, caller, c, a) {
      CarriedEffects(env, callee, caller, c, a);
      assert Holds(plain, a) <==> Holds(g, a) || (Has(callee, a) && !a.Mutates?);
    }
    if !ok {
      r := r.(complete := false);
    }
  }

  lemma {:induction false} CarriedEffects(env: Env, callee: Facts, caller: Facts, c: Call, a: Atom)
    ensures (exists from :: Has(callee, from) && Carries(env, caller, c, from, a))
       <==> (Has(callee, a) && !a.Mutates?) || exists i :: i in callee.mutated && Lands(env, caller, c, i, a)
  {
    if Has(callee, a) && !a.Mutates? {
      assert Carries(env, caller, c, a, a);
    }
    if exists i :: i in callee.mutated && Lands(env, caller, c, i, a) {
      var i :| i in callee.mutated && Lands(env, caller, c, i, a);
      assert Has(callee, Mutates(i)) && Carries(env, caller, c, Mutates(i), a);
    }
  }

  method Visit(env: Env, now: Graph, current: Facts) returns (next: Facts, changed: bool)
    ensures if changed then Visited(env, now, current, next) else next == current && Visited(env, now, current, current)
    ensures changed ==> next != current
  {
    var g := Gathered(current.complete, current.impure, (set x | x in current.readIds), (set x | x in current.writeIds),
                      (set x | x in current.mutated));
    assert forall a :: Holds(g, a) <==> Has(current, a);
    for n := 0 to |current.calls|
      invariant forall a :: Holds(g, a) <==> Has(current, a) || exists k :: 0 <= k < n && Adds(env, now, current, current.calls[k], a)
      invariant g.complete <==> current.complete && forall k :: 0 <= k < n ==> CallOK(env, now, current, current.calls[k])
    {
      g := VisitCall(env, now, current.calls[n], current, g);
    }
    var readIds := SortedIDs(g.readIds);
    var writeIds := SortedIDs(g.writeIds);
    var mutated := Sorted(g.mutated);
    next := current.(complete := g.complete, impure := g.impure, readIds := readIds, writeIds := writeIds, mutated := mutated);
    forall a ensures Has(next, a) <==> Holds(g, a) {
    }
    assert Visited(env, now, current, next);
    var sameReads := Equal(readIds, current.readIds);
    var sameWrites := Equal(writeIds, current.writeIds);
    var sameMutated := Equal(mutated, current.mutated);
    changed := g.complete != current.complete || g.impure != current.impure || !sameReads || !sameWrites || !sameMutated;
    if !changed {
      next := current;
    }
  }
}
