/** What a resolved graph says of one function and its calls: its facts are its own
    direct ones and those its calls bring, and what a call does to an argument falls
    on the caller's reference parameter or on the global that was passed. */
module EffectLaws {
  import opened Collections
  import opened Effects
  import opened EffectFixpoint

  /** Parameter `p` of the function is a reference to symbol `id`. */
  predicate Reference(f: Facts, p: nat, id: nat) {
    p < |f.parameters| && p < |f.references| && f.references[p] && f.parameters[p] == id
  }

  ghost predicate LastReference(f: Facts, p: nat, id: nat) {
    Reference(f, p, id) && forall q: nat :: p < q ==> !Reference(f, q, id)
  }

  ghost predicate Referred(f: Facts, id: nat) { exists p: nat :: Reference(f, p, id) }

  /** What the call enters is fully known. */
  predicate Known(env: Env, result: Graph, c: Call) {
    if c.target == 0 then c.name != "" && env.resolve(c.name).Some? && env.resolve(c.name).value.complete
    else c.target in result && result[c.target].complete
  }

  /** What the call enters changes its parameter `i`. */
  predicate Alters(env: Env, result: Graph, c: Call, i: int) {
    if c.target == 0 then env.resolve(c.name).Some? && i in env.resolve(c.name).value.mutated
    else c.target in result && i in result[c.target].mutated
  }

  /** Symbol `id` is passed for parameter `i`. */
  predicate Passes(c: Call, i: int, id: nat) {
    0 <= i < |c.arguments| && c.arguments[i] == id && id != 0
  }

  /** The change of parameter `i` can be seen from the caller. */
  ghost predicate Visible(env: Env, f: Facts, c: Call, i: int) {
    exists id :: Passes(c, i, id) && (Referred(f, id) || !env.place(id).Missing?)
  }

  /** The call changes symbol `id` of its caller. */
  ghost predicate Changes(env: Env, result: Graph, c: Call, id: nat) {
    exists i :: Alters(env, result, c, i) && Passes(c, i, id)
  }

  // ---- Where one change falls ----

  lemma {:induction false} OwnIsLast(f: Facts, n: nat, id: nat)
    requires n <= |f.parameters|
    ensures var own := ReferenceParameters(f, n);
            if id in own then own[id] < n && Reference(f, own[id], id) && forall q: nat :: own[id] < q < n ==> !Reference(f, q, id)
            else forall q: nat :: q < n ==> !Reference(f, q, id)
  {
    if n > 0 {
      OwnIsLast(f, n - 1, id);
    }
  }

  lemma {:induction false} OwnIsReferred(f: Facts, id: nat)
    ensures var own := ReferenceParameters(f, |f.parameters|);
            && (id in own <==> Referred(f, id))
            && forall p: nat :: LastReference(f, p, id) <==> id in own && own[id] == p
  {
    OwnIsLast(f, |f.parameters|, id);
    if Referred(f, id) {
      var p: nat :| Reference(f, p, id);
    }
  }

  lemma {:induction false} LandingExactly(env: Env, f: Facts, c: Call, i: int)
    ensures !Land(env, f, c, i).Fails? <==> Visible(env, f, c, i)
    ensures forall p: nat :: Lands(env, f, c, i, Mutates(p)) <==> exists id :: Passes(c, i, id) && LastReference(f, p, id)
    ensures forall id :: Lands(env, f, c, i, Writes(id)) <==> Passes(c, i, id) && !Referred(f, id) && env.place(id).Global?
    ensures forall a :: Lands(env, f, c, i, a) && a.Mutates? ==> a.index >= 0
    ensures forall a :: Lands(env, f, c, i, a) ==> a.Mutates? || a.Writes?
  {
    hide ReferenceParameters, Referred, LastReference;
    if 0 <= i < |c.arguments| && c.arguments[i] != 0 {
      var id := c.arguments[i];
      OwnIsReferred(f, id);
      assert Passes(c, i, id);
    }
  }

  // ---- One step of the least solution ----

  ghost predicate LeastByCall(env: Env, direct: Graph, f: nat, c: Call, a: Atom)
    requires f in direct
  {
    if c.target == 0 then Outside(env, direct[f], c, a)
    else exists from :: Least(env, direct, c.target, from) && Carries(env, direct[f], c, from, a)
  }

  lemma {:induction false} LeastUnfolds(env: Env, direct: Graph, f: nat, a: Atom)
    requires f in direct
    ensures Least(env, direct, f, a)
       <==> Has(direct[f], a) || exists c :: c in direct[f].calls && LeastByCall(env, direct, f, c, a)
  {
    if Least(env, direct, f, a) && !Has(direct[f], a) {
      var n: nat :| Derives(env, direct, n, f, a);
      var c :| c in direct[f].calls && DerivesByCall(env, direct, n, f, c, a);
      if c.target != 0 {
        var from :| Derives(env, direct, n - 1, c.target, from) && Carries(env, direct[f], c, from, a);
        assert Least(env, direct, c.target, from);
      }
      assert LeastByCall(env, direct, f, c, a);
    }
    if Has(direct[f], a) {
      DirectIsLeast(env, direct, f, a);
    }
    if c :| c in direct[f].calls && LeastByCall(env, direct, f, c, a) {
      if c.target == 0 {
        assert DerivesByCall(env, direct, 0, f, c, a);
        assert Derives(env, direct, 0, f, a);
      } else {
        var from :| Least(env, direct, c.target, from) && Carries(env, direct[f], c, from, a);
        var n: nat :| Derives(env, direct, n, c.target, from);
        assert DerivesByCall(env, direct, n + 1, f, c, a);
        assert Derives(env, direct, n + 1, f, a);
      }
    }
  }

  // ---- Completeness ----

  /** A function is complete exactly when it is complete by itself, what it calls is
      known, and every change its calls make can be seen from it. */
  lemma {:induction false} CompleteExactly(env: Env, direct: Graph, result: Graph, f: nat)
    requires Resolved(env, direct, result) && f in direct
    ensures result[f].complete
       <==> direct[f].complete
            && forall c :: c in direct[f].calls ==>
                 Known(env, result, c) && forall i :: Alters(env, result, c, i) ==> Visible(env, direct[f], c, i)
  {
    if result[f].complete {
      assert Knowable(env, direct, f);
      ReachesSelf(direct, f);
      assert !Unknowable(env, direct, f);
      forall c | c in direct[f].calls
        ensures Known(env, result, c) && forall i :: Alters(env, result, c, i) ==> Visible(env, direct[f], c, i)
      {
        KnownCall(env, direct, result, f, c);
      }
    } else if direct[f].complete
        && forall c :: c in direct[f].calls ==>
             Known(env, result, c) && forall i :: Alters(env, result, c, i) ==> Visible(env, direct[f], c, i) {
      forall c | c in direct[f].calls ensures CallKnowable(env, direct, f, c) {
        KnownIsKnowable(env, direct, result, f, c);
      }
      KnowableByCalls(env, direct, f);
      assert false;
    }
  }

  ghost predicate CallKnowable(env: Env, direct: Graph, f: nat, c: Call)
    requires f in direct
  {
    !UnknowableCall(env, direct, f, c) && (c.target != 0 ==> Knowable(env, direct, c.target))
  }

  lemma {:induction false} KnownCall(env: Env, direct: Graph, result: Graph, f: nat, c: Call)
    requires Resolved(env, direct, result) && f in direct && result[f].complete && c in direct[f].calls
    ensures Known(env, result, c) && forall i :: Alters(env, result, c, i) ==> Visible(env, direct[f], c, i)
  {
    hide Visible, Land, CallReaches, Least;
    ReachesSelf(direct, f);
    assert !Unknowable(env, direct, f);
    assert !UnknowableCall(env, direct, f, c);
    if c.target != 0 {
      CalleeIsComplete(env, direct, result, f, c);
    }
    forall i | Alters(env, result, c, i) ensures Visible(env, direct[f], c, i) {
      LandingExactly(env, direct[f], c, i);
      if c.target != 0 {
        assert Has(result[c.target], Mutates(i));
      }
    }
  }

  lemma {:induction false} CalleeIsComplete(env: Env, direct: Graph, result: Graph, f: nat, c: Call)
    requires Resolved(env, direct, result) && f in direct && result[f].complete && c in direct[f].calls && c.target != 0
    ensures c.target in result && result[c.target].complete
  {
    hide CallReaches, Unknowable;
    assert Knowable(env, direct, f);
    assert Calls(direct, f, c.target);
    forall h | CallReaches(direct, c.target, h) ensures !Unknowable(env, direct, h) {
      ReachesFirst(direct, f, c.target, h);
    }
    ReachesSelf(direct, c.target);
    assert !Unknowable(env, direct, c.target);
    KnowableIsThere(env, direct, c.target);
  }

  lemma {:induction false} KnowableIsThere(env: Env, direct: Graph, f: nat)
    requires !Unknowable(env, direct, f)
    ensures f in direct
  {
  }

  lemma {:induction false} KnownIsKnowable(env: Env, direct: Graph, result: Graph, f: nat, c: Call)
    requires Resolved(env, direct, result) && f in direct && c in direct[f].calls
    requires Known(env, result, c) && forall i :: Alters(env, result, c, i) ==> Visible(env, direct[f], c, i)
    ensures CallKnowable(env, direct, f, c)
  {
    hide Visible, Land, CallReaches, Least;
    forall i ensures !Land(env, direct[f], c, i).Fails? <==> Visible(env, direct[f], c, i) {
      LandingExactly(env, direct[f], c, i);
    }
    if c.target != 0 {
      forall i | Least(env, direct, c.target, Mutates(i)) ensures Alters(env, result, c, i) {
        assert Has(result[c.target], Mutates(i));
      }
    }
  }

  lemma {:induction false} KnowableByCalls(env: Env, direct: Graph, f: nat)
    requires f in direct && direct[f].complete
    requires forall c :: c in direct[f].calls ==> CallKnowable(env, direct, f, c)
    ensures Knowable(env, direct, f)
  {
    hide UnknowableCall;
    forall g | CallReaches(direct, f, g) ensures !Unknowable(env, direct, g) {
      var path :| IsPath(direct, path) && path[0] == f && path[|path| - 1] == g;
      if |path| > 1 {
        assert Calls(direct, path[0], path[1]);
        var c :| c in direct[f].calls && c.target == path[1];
        forall i | 0 <= i < |path[1..]| - 1 ensures Calls(direct, path[1..][i], path[1..][i + 1]) {
          assert Calls(direct, path[i + 1], path[i + 1 + 1]);
        }
        assert IsPath(direct, path[1..]);
        assert CallReaches(direct, c.target, g);
      }
    }
  }

  // ---- The facts of a complete function ----

  lemma {:induction false} EffectOfCalls(env: Env, direct: Graph, result: Graph, f: nat, a: Atom)
    requires Resolved(env, direct, result) && f in direct && result[f].complete
    ensures Has(result[f], a)
       <==> Has(direct[f], a) || exists c :: c in direct[f].calls && ByCall(env, direct, result, f, c, a)
  {
    hide Least, Knowable, Sure, Has, Tidy, SameShape;
    LeastUnfolds(env, direct, f, a);
    forall c | c in direct[f].calls ensures ByCall(env, direct, result, f, c, a) <==> LeastByCall(env, direct, f, c, a) {
      if c.target != 0 {
        CalleeIsComplete(env, direct, result, f, c);
      }
    }
  }

  /** The call brings effect `a`, by the facts of the result. */
  ghost predicate ByCall(env: Env, direct: Graph, result: Graph, f: nat, c: Call, a: Atom)
    requires f in direct
  {
    if c.target == 0 then Outside(env, direct[f], c, a)
    else c.target in result && exists from :: Has(result[c.target], from) && Carries(env, direct[f], c, from, a)
  }

  /** A complete function reads what it reads itself and what its callees read. */
  lemma {:induction false} ReadsExactly(env: Env, direct: Graph, result: Graph, f: nat, id: nat)
    requires Resolved(env, direct, result) && f in direct && result[f].complete
    ensures id in result[f].readIds
       <==> || id in direct[f].readIds
            || exists c :: c in direct[f].calls && c.target != 0 && c.target in result && id in result[c.target].readIds
  {
    hide Resolved, Land;
    EffectOfCalls(env, direct, result, f, Reads(id));
    forall c ensures ByCall(env, direct, result, f, c, Reads(id))
        <==> c.target != 0 && c.target in result && id in result[c.target].readIds {
      if c.target != 0 && c.target in result && id in result[c.target].readIds {
        assert Has(result[c.target], Reads(id)) && Carries(env, direct[f], c, Reads(id), Reads(id));
      }
    }
  }

  /** It keeps state of its own, or calls what does. */
  lemma {:induction false} ImpureExactly(env: Env, direct: Graph, result: Graph, f: nat)
    requires Resolved(env, direct, result) && f in direct && result[f].complete
    ensures result[f].impure
       <==> || direct[f].impure
            || exists c :: c in direct[f].calls
                 && if c.target == 0 then env.resolve(c.name).Some? && env.resolve(c.name).value.impure
                    else c.target in result && result[c.target].impure
  {
    hide Resolved, Land;
    EffectOfCalls(env, direct, result, f, Impure);
    forall c | c in direct[f].calls ensures ByCall(env, direct, result, f, c, Impure)
        <==> if c.target == 0 then env.resolve(c.name).Some? && env.resolve(c.name).value.impure
             else c.target in result && result[c.target].impure {
      if c.target == 0 {
        CompleteExactly(env, direct, result, f);
        assert Known(env, result, c);
      } else if c.target in result && result[c.target].impure {
        assert Has(result[c.target], Impure) && Carries(env, direct[f], c, Impure, Impure);
      }
    }
  }

  /** What a call brings of changes to arguments. */
  lemma {:induction false} ByCallLands(env: Env, direct: Graph, result: Graph, f: nat, c: Call, a: Atom)
    requires Resolved(env, direct, result) && f in direct && result[f].complete && c in direct[f].calls
    requires a.Writes? || a.Mutates?
    ensures ByCall(env, direct, result, f, c, a)
       <==> || (a.Writes? && c.target != 0 && c.target in result && a.id in result[c.target].writeIds)
            || exists i :: Alters(env, result, c, i) && Lands(env, direct[f], c, i, a)
  {
    hide Resolved, Land;
    CompleteExactly(env, direct, result, f);
    assert Known(env, result, c);
    if c.target != 0 {
      if a.Writes? && a.id in result[c.target].writeIds {
        assert Has(result[c.target], a) && Carries(env, direct[f], c, a, a);
      }
      if i :| Alters(env, result, c, i) && Lands(env, direct[f], c, i, a) {
        assert Has(result[c.target], Mutates(i)) && Carries(env, direct[f], c, Mutates(i), a);
      }
      if from :| Has(result[c.target], from) && Carries(env, direct[f], c, from, a) {
        if from.Mutates? {
          assert Alters(env, result, c, from.index);
        }
      }
    }
  }

  /** A complete function writes what it writes itself, what its callees write, and every
      global that one of its calls changes through a parameter. */
  lemma {:induction false} WritesExactly(env: Env, direct: Graph, result: Graph, f: nat, id: nat)
    requires Resolved(env, direct, result) && f in direct && result[f].complete
    ensures id in result[f].writeIds
       <==> || id in direct[f].writeIds
            || (exists c :: c in direct[f].calls && c.target != 0 && c.target in result && id in result[c.target].writeIds)
            || (exists c :: c in direct[f].calls && Changes(env, result, c, id)
                            && !Referred(direct[f], id) && env.place(id).Global?)
  {
    hide Resolved, ByCall, Lands, Land, Passes, Referred;
    EffectOfCalls(env, direct, result, f, Writes(id));
    forall c | c in direct[f].calls ensures ByCall(env, direct, result, f, c, Writes(id))
        <==> || (c.target != 0 && c.target in result && id in result[c.target].writeIds)
             || (Changes(env, result, c, id) && !Referred(direct[f], id) && env.place(id).Global?) {
      ByCallLands(env, direct, result, f, c, Writes(id));
      forall i ensures Lands(env, direct[f], c, i, Writes(id))
          <==> Passes(c, i, id) && !Referred(direct[f], id) && env.place(id).Global? {
        LandingExactly(env, direct[f], c, i);
      }
    }
  }

  /** It changes through parameter `p` what it changes so itself, and what one of its calls
      changes where `p` is the last parameter that is a reference to it. */
  lemma {:induction false} MutationsExactly(env: Env, direct: Graph, result: Graph, f: nat, p: nat)
    requires Resolved(env, direct, result) && f in direct && result[f].complete
    ensures p in result[f].mutated
       <==> || p in direct[f].mutated
            || exists c, id :: c in direct[f].calls && Changes(env, result, c, id) && LastReference(direct[f], p, id)
  {
    hide Resolved, ByCall, Lands, Land, Passes, LastReference;
    EffectOfCalls(env, direct, result, f, Mutates(p));
    forall c | c in direct[f].calls ensures ByCall(env, direct, result, f, c, Mutates(p))
        <==> exists id :: Changes(env, result, c, id) && LastReference(direct[f], p, id) {
      ByCallLands(env, direct, result, f, c, Mutates(p));
      forall i ensures Lands(env, direct[f], c, i, Mutates(p))
          <==> exists id :: Passes(c, i, id) && LastReference(direct[f], p, id) {
        LandingExactly(env, direct[f], c, i);
      }
    }
  }

  /** Nothing but its direct facts makes it change through a parameter it does not have. */
  lemma {:induction false} StrayMutationsAreDirect(env: Env, direct: Graph, result: Graph, f: nat, p: int)
    requires Resolved(env, direct, result) && f in direct && result[f].complete
    requires p < 0 || p >= |direct[f].parameters|
    ensures p in result[f].mutated <==> p in direct[f].mutated
  {
    hide Resolved, ByCall, Lands, Land, Passes, LastReference;
    EffectOfCalls(env, direct, result, f, Mutates(p));
    if p >= 0 {
      MutationsExactly(env, direct, result, f, p);
      if id: nat :| LastReference(direct[f], p, id) {
        LastIsInRange(direct[f], p, id);
      }
    } else {
      forall c | c in direct[f].calls ensures !ByCall(env, direct, result, f, c, Mutates(p)) {
        ByCallLands(env, direct, result, f, c, Mutates(p));
        forall i ensures !Lands(env, direct[f], c, i, Mutates(p)) {
          LandingExactly(env, direct[f], c, i);
        }
      }
    }
  }

  lemma {:induction false} LastIsInRange(f: Facts, p: nat, id: nat)
    requires LastReference(f, p, id)
    ensures p < |f.parameters|
  {
  }
}
