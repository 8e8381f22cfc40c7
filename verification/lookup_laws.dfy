/** What names and calls find, said of the symbols and scopes themselves
    (symbol/symbol.go, symbol/build.go). */
module LookupLaws {
  import opened Collections
  import opened Symbols
  import opened SymbolBuilder

  // ---- Calls ----

  /** The number of arguments is in the callable's range; an unknown number, or a missing
      upper bound, is no restriction. */
  predicate Takes(s: Symbol, argCount: int) {
    argCount < 0 || (s.minArgs <= argCount && (0 <= s.maxArgs ==> argCount <= s.maxArgs))
  }

  /** Something to call by this name is declared in this scope; test entry points are not. */
  predicate CallableIn(s: Symbol, scope: nat, name: string) {
    && s.scope == scope && s.name == name && s.tag != "Test"
    && (s.kind.KindFunction? || s.kind.KindPublic? || s.kind.KindNative?
        || s.kind.KindForward? || s.kind.KindStock? || s.kind.KindOperator?)
  }

  /** The first callable that takes the arguments; past the end if there is none. */
  lemma {:induction false} FirstTaker(symbols: seq<Symbol>, scope: nat, name: string, argCount: int) returns (i: nat)
    ensures i <= |symbols|
    ensures forall j :: 0 <= j < i && CallableIn(symbols[j], scope, name) ==> !Takes(symbols[j], argCount)
    ensures i < |symbols| ==> CallableIn(symbols[i], scope, name) && Takes(symbols[i], argCount)
    ensures FirstAccepting(Candidates(symbols, scope, name), argCount) == if i < |symbols| then Some(symbols[i]) else None
    decreases |symbols|
  {
    i := 0;
    if symbols != [] {
      var n := |symbols| - 1;
      i := FirstTaker(symbols[..n], scope, name, argCount);
      var last := if CallableIn(symbols[n], scope, name) then [symbols[n]] else [];
      AcceptingJoins(Candidates(symbols[..n], scope, name), last, argCount);
      if i == n && (last == [] || !Takes(symbols[n], argCount)) {
        i := |symbols|;
      }
      assert last != [] ==> last[1..] == [];
    }
  }

  /** The first callable; past the end if there is none. */
  lemma {:induction false} FirstCallable(symbols: seq<Symbol>, scope: nat, name: string) returns (i: nat)
    ensures i <= |symbols|
    ensures forall j :: 0 <= j < i ==> !CallableIn(symbols[j], scope, name)
    ensures i < |symbols| ==> CallableIn(symbols[i], scope, name)
    ensures var all := Candidates(symbols, scope, name);
            if i < |symbols| then all != [] && all[0] == symbols[i] else all == []
    decreases |symbols|
  {
    i := 0;
    if symbols != [] {
      var n := |symbols| - 1;
      i := FirstCallable(symbols[..n], scope, name);
      if i == n && !CallableIn(symbols[n], scope, name) {
        i := |symbols|;
      }
    }
  }

  /** A call finds the first callable, in order of declaration, whose range holds the
      number of arguments, of the nearest scope that has any callable of the name; if none
      there takes them, the first one there. */
  lemma {:induction false} CallFindsFirst(symbols: seq<Symbol>, scopes: seq<Scope>, from: nat, name: string, argCount: int)
    returns (scope: nat, i: nat)
    requires ScopesOK(scopes) && FindCallable(symbols, scopes, from, name, argCount).Some?
    ensures i < |symbols| && FindCallable(symbols, scopes, from, name, argCount) == Some(symbols[i])
    ensures CallableIn(symbols[i], scope, name) && Encloses(scopes, scope, from)
    ensures forall j :: 0 <= j < |symbols| && CallableIn(symbols[j], symbols[j].scope, name) ==>
              Encloses(scopes, symbols[j].scope, from) ==> Encloses(scopes, symbols[j].scope, scope)
    ensures forall j :: 0 <= j < |symbols| && CallableIn(symbols[j], scope, name) && Takes(symbols[j], argCount) ==>
              i <= j && Takes(symbols[i], argCount)
    ensures !Takes(symbols[i], argCount) ==> forall j :: 0 <= j < i ==> !CallableIn(symbols[j], scope, name)
    decreases from
  {
    hide Takes, CallableIn, Candidates, FirstAccepting;
    var taker := FirstTaker(symbols, from, name, argCount);
    var first := FirstCallable(symbols, from, name);
    if first < |symbols| {
      scope := from;
      i := if taker < |symbols| then taker else first;
    } else {
      scope, i := CallFindsFirst(symbols, scopes, scopes[from - 1].parent, name, argCount);
      forall j | 0 <= j < |symbols| && CallableIn(symbols[j], symbols[j].scope, name) && Encloses(scopes, symbols[j].scope, from)
        ensures Encloses(scopes, symbols[j].scope, scope)
      {
        assert symbols[j].scope != from;
      }
    }
  }

  /** A call finds nothing exactly when no scope around it has a callable of the name. */
  lemma {:induction false} CallFindsNothingExactly(symbols: seq<Symbol>, scopes: seq<Scope>, from: nat, name: string, argCount: int)
    requires ScopesOK(scopes)
    ensures FindCallable(symbols, scopes, from, name, argCount).None?
       <==> forall j :: 0 <= j < |symbols| && CallableIn(symbols[j], symbols[j].scope, name) ==>
              !Encloses(scopes, symbols[j].scope, from)
    decreases from
  {
    hide Takes, CallableIn, Candidates, FirstAccepting;
    if FindCallable(symbols, scopes, from, name, argCount).Some? {
      var scope, i := CallFindsFirst(symbols, scopes, from, name, argCount);
      ScopeOfCallable(symbols[i], scope, name);
    } else if 1 <= from <= |scopes| {
      var first := FirstCallable(symbols, from, name);
      forall j | 0 <= j < |symbols| && CallableIn(symbols[j], symbols[j].scope, name)
        ensures !Encloses(scopes, symbols[j].scope, from)
      {
        assert symbols[j].scope != from;
        if from > 1 {
          CallFindsNothingExactly(symbols, scopes, scopes[from - 1].parent, name, argCount);
        }
      }
    }
  }

  lemma {:induction false} ScopeOfCallable(s: Symbol, scope: nat, name: string)
    requires CallableIn(s, scope, name)
    ensures s.scope == scope
  {
  }

  // ---- Names ----

  /** A name finds what the nearest scope around its use has by that name. */
  lemma {:induction false} NameFindsNearest(symbols: seq<Symbol>, scopes: seq<Scope>, from: nat, name: string) returns (scope: nat)
    requires TableOK(symbols, scopes) && Find(symbols, scopes, from, name).Some?
    ensures 1 <= scope <= |scopes| && Encloses(scopes, scope, from) && name in scopes[scope - 1].names
    ensures Find(symbols, scopes, from, name) == Some(symbols[scopes[scope - 1].names[name] - 1])
    ensures forall n :: 1 <= n <= |scopes| && name in scopes[n - 1].names && Encloses(scopes, n, from) ==>
              Encloses(scopes, n, scope)
    decreases from
  {
    if name in scopes[from - 1].names {
      scope := from;
    } else {
      scope := NameFindsNearest(symbols, scopes, scopes[from - 1].parent, name);
    }
  }

  /** Scope `n` is around the use and has the name. */
  predicate Offers(scopes: seq<Scope>, n: nat, from: nat, name: string)
    requires ScopesOK(scopes)
  {
    1 <= n <= |scopes| && name in scopes[n - 1].names && Encloses(scopes, n, from)
  }

  /** It finds nothing exactly when no scope around its use has the name. */
  lemma {:induction false} NameFindsNothingExactly(symbols: seq<Symbol>, scopes: seq<Scope>, from: nat, name: string)
    requires TableOK(symbols, scopes)
    ensures Find(symbols, scopes, from, name).None? <==> forall n: nat :: !Offers(scopes, n, from, name)
    decreases from
  {
    if Find(symbols, scopes, from, name).Some? {
      var scope := NameFindsNearest(symbols, scopes, from, name);
      assert Offers(scopes, scope, from, name);
    } else {
      forall n: nat ensures !Offers(scopes, n, from, name) {
        if 1 < from <= |scopes| {
          NameFindsNothingExactly(symbols, scopes, scopes[from - 1].parent, name);
          assert !Offers(scopes, n, scopes[from - 1].parent, name);
        }
      }
    }
  }

  // ---- Declarations ----

  /** A symbol table after a declaration, as the builder leaves it. */
  function Named(symbols: seq<Symbol>, scopes: seq<Scope>, s: Symbol): seq<Scope>
    requires TableOK(symbols, scopes) && 1 <= s.scope <= |scopes|
  {
    var sc := scopes[s.scope - 1];
    scopes[s.scope - 1 := sc.(names := NamesAfter(symbols, sc.names, s, s.id))]
  }

  predicate Forward(k: Kind) { k.KindForward? }

  predicate Defines(k: Kind) { k.KindFunction? || k.KindPublic? || k.KindNative? || k.KindStock? || k.KindOperator? }

  predicate IsForward(s: Symbol) { Forward(s.kind) && s.tag != "Test" }

  predicate IsDefinition(s: Symbol) { Defines(s.kind) && s.tag != "Test" }

  lemma {:induction false} DeclaringKeepsTable(symbols: seq<Symbol>, scopes: seq<Scope>, s: Symbol)
    requires TableOK(symbols, scopes) && 1 <= s.scope <= |scopes| && s.id == |symbols| + 1
    ensures TableOK(symbols + [s], Named(symbols, scopes, s))
  {
    hide NamesOK, SymbolsOK, ScopesOK;
    ShapeIsKept(symbols, scopes, s);
    NamesAreKept(symbols, scopes, s);
  }

  lemma {:induction false} ShapeIsKept(symbols: seq<Symbol>, scopes: seq<Scope>, s: Symbol)
    requires TableOK(symbols, scopes) && 1 <= s.scope <= |scopes| && s.id == |symbols| + 1
    ensures SymbolsOK(symbols + [s], Named(symbols, scopes, s)) && ScopesOK(Named(symbols, scopes, s))
  {
    hide NamesOK, NamesAfter;
  }

  lemma {:induction false} NamesAreKept(symbols: seq<Symbol>, scopes: seq<Scope>, s: Symbol)
    requires TableOK(symbols, scopes) && 1 <= s.scope <= |scopes| && s.id == |symbols| + 1
    ensures NamesOK(symbols + [s], Named(symbols, scopes, s))
  {
    hide ScopesOK, SymbolsOK;
    var named, more := Named(symbols, scopes, s), symbols + [s];
    forall i, name | 0 <= i < |named| && name in named[i].names
      ensures var id := named[i].names[name];
              1 <= id <= |more| && more[id - 1].name == name && more[id - 1].scope == i + 1
    {
      if i == s.scope - 1 && named[i].names[name] == s.id && name == s.name {
        assert more[s.id - 1] == s;
      } else {
        assert name in scopes[i].names && named[i].names[name] == scopes[i].names[name];
      }
    }
  }

  /** What a name leads to in a scope after a declaration of it there: to the declaration
      if the name was free, or if a forward declaration had it and this is a definition;
      otherwise to what had it before. */
  lemma {:induction false} DeclaredNameFinds(symbols: seq<Symbol>, scopes: seq<Scope>, s: Symbol)
    requires TableOK(symbols, scopes) && 1 <= s.scope <= |scopes| && s.id == |symbols| + 1
    requires IsForward(s) || IsDefinition(s)
    ensures TableOK(symbols + [s], Named(symbols, scopes, s))
    ensures
      var names, found := scopes[s.scope - 1].names, Find(symbols + [s], Named(symbols, scopes, s), s.scope, s.name);
      if s.name !in names then found == Some(s)
      else
        var held := symbols[names[s.name] - 1];
        found == Some(if held.kind.KindForward? && IsDefinition(s) then s else held)
  {
    DeclaringKeepsTable(symbols, scopes, s);
  }

  /** After a forward declaration and its definition, in either order, the name leads to
      the definition. */
  lemma {:induction false} DefinitionIsFound(
      symbols: seq<Symbol>, scopes: seq<Scope>, first: Symbol, second: Symbol, definition: Symbol)
    requires TableOK(symbols, scopes) && 1 <= first.scope <= |scopes| && first.name !in scopes[first.scope - 1].names
    requires second.scope == first.scope && second.name == first.name
    requires first.id == |symbols| + 1 && second.id == |symbols| + 2
    requires || (IsForward(first) && IsDefinition(second) && definition == second)
             || (IsDefinition(first) && IsForward(second) && definition == first)
    ensures
      var one, two, named := symbols + [first], symbols + [first, second], Named(symbols, scopes, first);
      && TableOK(one, named) && |named| == |scopes| && TableOK(two, Named(one, named, second))
      && Find(two, Named(one, named, second), first.scope, first.name) == Some(definition)
  {
    hide TableOK, Named, Find;
    var one := symbols + [first];
    DeclaredNameFinds(symbols, scopes, first);
    NamedHere(symbols, scopes, first);
    assert one + [second] == symbols + [first, second];
    DeclaredNameFinds(one, Named(symbols, scopes, first), second);
  }

  /** A declaration that is no test entry point is reported as a second one exactly when
      its name is taken and the two are neither a forward declaration and its definition
      nor callables with state selectors. */
  lemma {:induction false} RedeclaredExactly(symbols: seq<Symbol>, names: map<string, nat>, s: Symbol)
    requires NamesWithin(names, |symbols|)
    ensures Redeclares(symbols, names, s) <==>
      && s.name in names && !((Forward(s.kind) || Defines(s.kind)) && s.tag == "Test")
      && var held := symbols[names[s.name] - 1];
      && !(Forward(held.kind) && Defines(s.kind)) && !(Defines(held.kind) && Forward(s.kind))
      && !((Forward(held.kind) || Defines(held.kind)) && (Forward(s.kind) || Defines(s.kind))
           && held.stateSelector != "" && s.stateSelector != "")
  {
  }

  lemma {:induction false} NamedHere(symbols: seq<Symbol>, scopes: seq<Scope>, s: Symbol)
    requires TableOK(symbols, scopes) && 1 <= s.scope <= |scopes| && s.name !in scopes[s.scope - 1].names
    requires s.id == |symbols| + 1 && (IsForward(s) || IsDefinition(s))
    ensures |Named(symbols, scopes, s)| == |scopes|
    ensures s.name in Named(symbols, scopes, s)[s.scope - 1].names
    ensures Named(symbols, scopes, s)[s.scope - 1].names[s.name] == s.id
  {
  }
}
