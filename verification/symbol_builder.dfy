/** Building a symbol table while walking a file (symbol/build.go). */
module SymbolBuilder {
  import opened Collections
  import opened Symbols

  predicate IsForwardPair(a: Kind, b: Kind) {
    || (a == KindForward && IsCallable(b) && b != KindForward)
    || (b == KindForward && IsCallable(a) && a != KindForward)
  }

  /** A resolved reference names a symbol of its own name, declared in a scope around
      it. */
  predicate ReferenceOK(symbols: seq<Symbol>, scopes: seq<Scope>, r: Reference)
    requires ScopesOK(scopes)
  {
    && 1 <= r.scope <= |scopes|
    && (r.resolved != 0 ==>
          && r.resolved <= |symbols|
          && symbols[r.resolved - 1].name == r.name
          && Encloses(scopes, symbols[r.resolved - 1].scope, r.scope))
  }

  predicate ReferencesOK(symbols: seq<Symbol>, scopes: seq<Scope>, refs: seq<Reference>)
    requires ScopesOK(scopes)
  {
    forall r :: r in refs ==> ReferenceOK(symbols, scopes, r)
  }

  predicate NamesWithin(names: map<string, nat>, count: nat) {
    forall n :: n in names ==> 1 <= names[n] <= count
  }

  /** The name a declaration leaves in its scope: none for a test entry point, and a
      second declaration only takes over from a forward one. */
  function NamesAfter(symbols: seq<Symbol>, names: map<string, nat>, s: Symbol, id: nat): map<string, nat>
    requires NamesWithin(names, |symbols|)
  {
    if IsTestEntryPoint(s) then names
    else if s.name !in names then names[s.name := id]
    else
      var existing := symbols[names[s.name] - 1];
      if existing.kind == KindForward && IsForwardPair(existing.kind, s.kind) then names[s.name := id] else names
  }

  /** Whether the declaration is reported as a second one. */
  predicate Redeclares(symbols: seq<Symbol>, names: map<string, nat>, s: Symbol)
    requires NamesWithin(names, |symbols|)
  {
    && s.name in names && !IsTestEntryPoint(s)
    && var existing := symbols[names[s.name] - 1];
    && !IsForwardPair(existing.kind, s.kind)
    && !(IsCallable(existing.kind) && IsCallable(s.kind) && existing.stateSelector != "" && s.stateSelector != "")
  }

  function AddToIndex(index: Index, s: Symbol): Index {
    var byName := if s.scope in index then index[s.scope] else map[];
    var ids := if s.name in byName then byName[s.name] else [];
    index[s.scope := byName[s.name := ids + [s.id]]]
  }

  lemma {:induction false} AppendingKeepsIndex(symbols: seq<Symbol>, index: Index, s: Symbol)
    requires IndexOK(symbols, index)
    ensures IndexOK(symbols + [s], if Indexed(s) then AddToIndex(index, s) else index)
  {
    var after := symbols + [s];
    var next := if Indexed(s) then AddToIndex(index, s) else index;
    assert after[..|symbols|] == symbols;
    forall scope: nat, name: string
      ensures Ids(next, scope, name) == IdsOf(Candidates(after, scope, name))
    {
      var was := Candidates(symbols, scope, name);
      assert Ids(index, scope, name) == IdsOf(was);
      if s.scope == scope && s.name == name && Indexed(s) {
        assert Candidates(after, scope, name) == was + [s];
        assert IdsOf(was + [s]) == IdsOf(was) + [s.id];
      } else {
        assert Candidates(after, scope, name) == was;
      }
    }
  }

  /** Setting where a function's body lives changes nothing a lookup sees. */
  lemma {:induction false} FuncScopeKeepsCandidates(symbols: seq<Symbol>, i: nat, f: nat, scope: nat, name: string)
    requires i < |symbols|
    ensures IdsOf(Candidates(symbols[i := symbols[i].(funcScope := f)], scope, name)) == IdsOf(Candidates(symbols, scope, name))
    decreases |symbols|
  {
    var after := symbols[i := symbols[i].(funcScope := f)];
    var n := |symbols| - 1;
    if i < n {
      assert after[..n] == symbols[..n][i := symbols[i].(funcScope := f)];
      FuncScopeKeepsCandidates(symbols[..n], i, f, scope, name);
      assert after[n] == symbols[n];
    } else {
      assert after[..n] == symbols[..n];
    }
    var a, b := Candidates(symbols[..n], scope, name), Candidates(after[..n], scope, name);
    JoinIds(a, [symbols[n]]);
    JoinIds(b, [after[n]]);
    assert IdsOf([after[n]]) == IdsOf([symbols[n]]);
    assert a + [] == a && b + [] == b;
  }

  lemma {:induction false} JoinIds(a: seq<Symbol>, b: seq<Symbol>)
    ensures IdsOf(a + b) == IdsOf(a) + IdsOf(b)
  {
  }

  lemma {:induction false} OneMoreReference(symbols: seq<Symbol>, scopes: seq<Scope>, refs: seq<Reference>, r: Reference)
    requires ScopesOK(scopes) && ReferencesOK(symbols, scopes, refs) && ReferenceOK(symbols, scopes, r)
    ensures ReferencesOK(symbols, scopes, refs + [r])
  {
  }

  lemma {:induction false} OtherReference(symbols: seq<Symbol>, scopes: seq<Scope>, refs: seq<Reference>, i: nat, r: Reference)
    requires ScopesOK(scopes) && ReferencesOK(symbols, scopes, refs) && i < |refs| && ReferenceOK(symbols, scopes, r)
    ensures ReferencesOK(symbols, scopes, refs[i := r])
  {
  }

  lemma {:induction false} IsOK(symbols: seq<Symbol>, scopes: seq<Scope>, refs: seq<Reference>, i: nat)
    requires ScopesOK(scopes) && ReferencesOK(symbols, scopes, refs) && i < |refs|
    ensures ReferenceOK(symbols, scopes, refs[i])
  {
  }

  /** More scopes or symbols do not disturb a reference. */
  lemma {:induction false} EnclosingStays(scopes: seq<Scope>, more: seq<Scope>, outer: nat, inner: nat)
    requires ScopesOK(scopes) && ScopesOK(more) && |scopes| <= |more|
    requires forall i :: 0 <= i < |scopes| ==> more[i].parent == scopes[i].parent
    requires Encloses(scopes, outer, inner)
    ensures Encloses(more, outer, inner)
    decreases inner
  {
    if outer != inner {
      EnclosingStays(scopes, more, outer, scopes[inner - 1].parent);
    }
  }

  lemma {:induction false} ReferencesStay(
      symbols: seq<Symbol>, scopes: seq<Scope>, symbols': seq<Symbol>, scopes': seq<Scope>, refs: seq<Reference>)
    requires ScopesOK(scopes) && ScopesOK(scopes') && |scopes| <= |scopes'| && |symbols| <= |symbols'|
    requires forall i :: 0 <= i < |scopes| ==> scopes'[i].parent == scopes[i].parent
    requires forall i :: 0 <= i < |symbols| ==> symbols'[i].name == symbols[i].name && symbols'[i].scope == symbols[i].scope
    requires ReferencesOK(symbols, scopes, refs)
    ensures ReferencesOK(symbols', scopes', refs)
  {
    forall r | r in refs ensures ReferenceOK(symbols', scopes', r) {
      assert ReferenceOK(symbols, scopes, r);
      if r.resolved != 0 {
        EnclosingStays(scopes, scopes', symbols[r.resolved - 1].scope, r.scope);
      }
    }
  }

  class Builder {
    var symbols: seq<Symbol>
    var scopes: seq<Scope>
    var references: seq<Reference>
    var callables: Option<Index>
    var redeclared: seq<nat>

    ghost predicate Valid()
      reads this
    {
      && TableOK(symbols, scopes)
      && MaybeIndexOK(symbols, callables)
      && ReferencesOK(symbols, scopes, references)
    }

    /** A table with the file's scope. */
    constructor ()
      ensures Valid() && symbols == [] && references == [] && redeclared == []
      ensures scopes == [Scope(1, ScopeFile, 0, map[])]
    {
      symbols, references, redeclared := [], [], [];
      scopes := [Scope(1, ScopeFile, 0, map[])];
      callables := None;
    }

    method NewScope(kind: ScopeKind, parent: nat) returns (id: nat)
      requires Valid() && 1 <= parent <= |scopes|
      modifies this`scopes
      ensures Valid() && id == |scopes| && scopes == old(scopes) + [Scope(id, kind, parent, map[])]
    {
      hide MaybeIndexOK, ReferencesOK;
      id := |scopes| + 1;
      ghost var more := scopes + [Scope(id, kind, parent, map[])];
      ReferencesStay(symbols, scopes, symbols, more, references);
      scopes := scopes + [Scope(id, kind, parent, map[])];
    }

    method AppendSymbol(sym: Symbol) returns (id: nat)
      requires Valid() && 1 <= sym.scope <= |scopes|
      modifies this`symbols, this`callables
      ensures Valid() && id == |symbols| && symbols == old(symbols) + [sym.(id := id)]
    {
      hide IndexOK, ReferencesOK;
      id := |symbols| + 1;
      var s := sym.(id := id);
      AppendingKeepsIndex(symbols, if callables.Some? then callables.value else map[], s);
      ReferencesStay(symbols, scopes, symbols + [s], scopes, references);
      symbols := symbols + [s];
      if IsCallable(s.kind) && !IsTestEntryPoint(s) {
        var index := if callables.Some? then callables.value else map[];
        callables := Some(AddToIndex(index, s));
      }
    }

    /** Declare a symbol in a scope. */
    method Declare(scope: nat, sym: Symbol) returns (id: nat)
      requires Valid() && 1 <= scope <= |scopes|
      modifies this`symbols, this`callables, this`scopes, this`redeclared
      ensures Valid() && id == |symbols|
      ensures symbols == old(symbols) + [sym.(id := id, scope := scope)]
      ensures
        var s := sym.(id := id, scope := scope);
        var names := old(scopes)[scope - 1].names;
        && scopes == old(scopes)[scope - 1 := old(scopes)[scope - 1].(names := NamesAfter(old(symbols), names, s, id))]
        && redeclared == old(redeclared) + if Redeclares(old(symbols), names, s) then [id] else []
    {
      hide MaybeIndexOK, ReferencesOK, TableOK;
      NamesInRange(symbols, scopes, scope);
      var sc := scopes[scope - 1];
      if sym.name in sc.names {
        var existing := symbols[sc.names[sym.name] - 1];
        id := AppendSymbol(sym.(scope := scope));
        if IsTestEntryPoint(sym) {
          Unchanged(scopes, scope);
          return;
        }
        if IsForwardPair(existing.kind, sym.kind) {
          if existing.kind == KindForward {
            SetName(scope, sym.name, id);
          } else {
            Unchanged(scopes, scope);
          }
          return;
        }
        Unchanged(scopes, scope);
        if IsCallable(existing.kind) && IsCallable(sym.kind) && existing.stateSelector != "" && sym.stateSelector != "" {
          return;
        }
        redeclared := redeclared + [id];
        return;
      }
      id := AppendSymbol(sym.(scope := scope));
      if IsTestEntryPoint(sym) {
        Unchanged(scopes, scope);
        return;
      }
      SetName(scope, sym.name, id);
    }

    lemma {:induction false} NamesInRange(symbols: seq<Symbol>, scopes: seq<Scope>, scope: nat)
      requires TableOK(symbols, scopes) && 1 <= scope <= |scopes|
      ensures NamesWithin(scopes[scope - 1].names, |symbols|)
    {
    }

    lemma {:induction false} Unchanged(scopes: seq<Scope>, scope: nat)
      requires 1 <= scope <= |scopes|
      ensures scopes == scopes[scope - 1 := scopes[scope - 1].(names := scopes[scope - 1].names)]
    {
    }

    /** Let a name of a scope lead to a symbol. */
    method SetName(scope: nat, name: string, id: nat)
      requires Valid() && 1 <= scope <= |scopes|
      requires 1 <= id <= |symbols| && symbols[id - 1].name == name && symbols[id - 1].scope == scope
      modifies this`scopes
      ensures Valid()
      ensures scopes == old(scopes)[scope - 1 := old(scopes)[scope - 1].(names := old(scopes)[scope - 1].names[name := id])]
    {
      hide MaybeIndexOK, ReferencesOK;
      var sc := scopes[scope - 1];
      ghost var more := scopes[scope - 1 := sc.(names := sc.names[name := id])];
      ReferencesStay(symbols, scopes, symbols, more, references);
      scopes := scopes[scope - 1 := sc.(names := sc.names[name := id])];
    }

    /** A function's own scope, recorded in its symbol. */
    method OpenFunction(scope: nat, id: nat) returns (funcScope: nat)
      requires Valid() && 1 <= scope <= |scopes| && 1 <= id <= |symbols|
      modifies this`symbols, this`scopes
      ensures Valid() && funcScope == |scopes| && scopes == old(scopes) + [Scope(funcScope, ScopeFunction, scope, map[])]
      ensures symbols == old(symbols)[id - 1 := old(symbols)[id - 1].(funcScope := funcScope)]
    {
      hide ReferencesOK;
      funcScope := NewScope(ScopeFunction, scope);
      ghost var index := if callables.Some? then callables.value else map[];
      forall s: nat, name: string
        ensures Ids(index, s, name) == IdsOf(Candidates(symbols[id - 1 := symbols[id - 1].(funcScope := funcScope)], s, name))
      {
        FuncScopeKeepsCandidates(symbols, id - 1, funcScope, s, name);
      }
      ReferencesStay(symbols, scopes, symbols[id - 1 := symbols[id - 1].(funcScope := funcScope)], scopes, references);
      symbols := symbols[id - 1 := symbols[id - 1].(funcScope := funcScope)];
    }

    /** What a use of a name refers to now: for a call the callable that fits, or else
        what the name means. */
    method Resolve(scope: nat, name: string, isCall: bool, argCount: int) returns (r: Option<Symbol>)
      requires Valid() && 1 <= scope <= |scopes|
      ensures
        var call := FindCallable(symbols, scopes, scope, name, argCount);
        r == if isCall && call.Some? then call else Find(symbols, scopes, scope, name)
      ensures r.Some? ==>
        1 <= r.value.id <= |symbols| && symbols[r.value.id - 1] == r.value
        && r.value.name == name && Encloses(scopes, r.value.scope, scope)
    {
      hide MaybeIndexOK, Encloses, Find, FindCallable, ReferencesOK, NamesOK;
      if isCall {
        r := LookupCallable(symbols, scopes, callables, scope, name, argCount);
        if r.Some? {
          FoundCallableEncloses(symbols, scopes, scope, name, argCount);
          return;
        }
      }
      r := Lookup(symbols, scopes, scope, name);
      if r.Some? {
        FoundEncloses(symbols, scopes, scope, name);
      }
    }

    method AddReference(scope: nat, name: string, isCall: bool, argCount: int)
      requires Valid() && 1 <= scope <= |scopes|
      modifies this`references
      ensures Valid()
      ensures references == old(references) + [Reference(name, scope, ResolvedId(scope, name, isCall, argCount), isCall, argCount)]
    {
      hide MaybeIndexOK, ReferencesOK, Encloses, Find, FindCallable;
      var r := Resolve(scope, name, isCall, argCount);
      var ref := Reference(name, scope, if r.Some? then r.value.id else 0, isCall, argCount);
      OneMoreReference(symbols, scopes, references, ref);
      references := references + [ref];
    }

    /** The ID a use of a name resolves to, 0 for none. */
    ghost function ResolvedId(scope: nat, name: string, isCall: bool, argCount: int): nat
      requires TableOK(symbols, scopes)
      reads this`symbols, this`scopes
    {
      var call := FindCallable(symbols, scopes, scope, name, argCount);
      var s := if isCall && call.Some? then call else Find(symbols, scopes, scope, name);
      if s.Some? then s.value.id else 0
    }

    /** What an unresolved reference becomes once the file is read. */
    ghost function Late(r: Reference): Reference
      requires TableOK(symbols, scopes)
      reads this`symbols, this`scopes
    {
      if r.resolved != 0 then r
      else if r.isCall then r.(resolved := ResolvedId(r.scope, r.name, true, r.argCount))
      else r.(resolved := if r.name in scopes[0].names then scopes[0].names[r.name] else 0)
    }

    method ResolveLate(r: Reference) returns (late: Reference)
      requires Valid() && ReferenceOK(symbols, scopes, r)
      ensures late == Late(r) && ReferenceOK(symbols, scopes, late)
    {
      hide MaybeIndexOK, ReferencesOK, Encloses, Find, FindCallable;
      late := r;
      if r.resolved == 0 {
        if r.isCall {
          var s := Resolve(r.scope, r.name, true, r.argCount);
          if s.Some? {
            late := r.(resolved := s.value.id);
          }
        } else if r.name in scopes[0].names {
          FileScopeEnclosesAll(scopes, r.scope);
          late := r.(resolved := scopes[0].names[r.name]);
        }
      }
    }

    /** Names used before they are declared resolve at the end, other uses than calls
        only to the file's own names. What was resolved stays. */
    method ResolveFileReferences()
      requires Valid()
      modifies this`references
      ensures Valid() && |references| == |old(references)|
      ensures forall i :: 0 <= i < |references| ==> references[i] == Late(old(references)[i])
    {
      hide MaybeIndexOK, ReferencesOK, ReferenceOK, Late, SymbolsOK, ScopesOK, NamesOK;
      var i := 0;
      while i < |references|
        invariant 0 <= i <= |references| == |old(references)| && Valid()
        invariant forall j :: 0 <= j < i ==> references[j] == Late(old(references)[j])
        invariant forall j :: i <= j < |references| ==> references[j] == old(references)[j]
      {
        IsOK(symbols, scopes, references, i);
        var late := ResolveLate(references[i]);
        OtherReference(symbols, scopes, references, i, late);
        references := references[i := late];
        i := i + 1;
      }
    }
  }
}
