/** Symbol tables: scopes, declarations and the lookups through them
    (symbol/symbol.go). */
module Symbols {
  import opened Collections

  datatype Kind =
    | KindFunction | KindPublic | KindNative | KindForward | KindStock
    | KindVariable | KindConstant | KindEnum | KindParameter | KindOperator

  predicate IsCallable(k: Kind) { k in {KindFunction, KindPublic, KindNative, KindForward, KindStock, KindOperator} }

  /** IDs start at 1; 0 stands for none. */
  datatype Symbol = Symbol(
    id: nat, name: string, kind: Kind, tag: string, isArray: bool, isConst: bool, isStatic: bool,
    scope: nat, funcScope: nat, minArgs: int, maxArgs: int, paramTags: seq<string>, stateSelector: string)

  datatype ScopeKind = ScopeFile | ScopeFunction | ScopeBlock

  datatype Scope = Scope(id: nat, kind: ScopeKind, parent: nat, names: map<string, nat>)

  datatype Reference = Reference(name: string, scope: nat, resolved: nat, isCall: bool, argCount: int)

  type Index = map<nat, map<string, seq<nat>>>

  predicate IsTestEntryPoint(s: Symbol) { IsCallable(s.kind) && s.tag == "Test" }

  /** What a call may mean by a name. */
  predicate Indexed(s: Symbol) { IsCallable(s.kind) && !IsTestEntryPoint(s) }

  predicate Accepts(s: Symbol, argCount: int) {
    argCount < 0 || (argCount >= s.minArgs && (s.maxArgs < 0 || argCount <= s.maxArgs))
  }

  // ---- Well-formed tables ----

  predicate SymbolsOK(symbols: seq<Symbol>, scopes: seq<Scope>) {
    forall i :: 0 <= i < |symbols| ==> symbols[i].id == i + 1 && 1 <= symbols[i].scope <= |scopes|
  }

  /** The first scope is the file's, and every other one has a parent with a smaller
      ID. */
  predicate ScopesOK(scopes: seq<Scope>) {
    && |scopes| > 0 && scopes[0].parent == 0
    && (forall i :: 0 <= i < |scopes| ==> scopes[i].id == i + 1)
    && (forall i :: 0 < i < |scopes| ==> 1 <= scopes[i].parent <= i)
  }

  /** A name leads to a symbol of that name declared in that scope. */
  predicate NamesOK(symbols: seq<Symbol>, scopes: seq<Scope>) {
    forall i, name :: 0 <= i < |scopes| && name in scopes[i].names ==>
      var id := scopes[i].names[name];
      1 <= id <= |symbols| && symbols[id - 1].name == name && symbols[id - 1].scope == i + 1
  }

  predicate TableOK(symbols: seq<Symbol>, scopes: seq<Scope>) {
    SymbolsOK(symbols, scopes) && ScopesOK(scopes) && NamesOK(symbols, scopes)
  }

  /** A scope and everything around it. */
  predicate Encloses(scopes: seq<Scope>, outer: nat, inner: nat)
    requires ScopesOK(scopes)
    decreases inner
  {
    && 1 <= inner <= |scopes|
    && (outer == inner || (inner > 1 && Encloses(scopes, outer, scopes[inner - 1].parent)))
  }

  lemma {:induction false} FileScopeEnclosesAll(scopes: seq<Scope>, inner: nat)
    requires ScopesOK(scopes) && 1 <= inner <= |scopes|
    ensures Encloses(scopes, 1, inner)
    decreases inner
  {
    if inner > 1 {
      FileScopeEnclosesAll(scopes, scopes[inner - 1].parent);
    }
  }

  // ---- Lookup ----

  /** The symbol a name has in the nearest scope that names it. */
  function Find(symbols: seq<Symbol>, scopes: seq<Scope>, scope: nat, name: string): Option<Symbol>
    requires TableOK(symbols, scopes)
    decreases scope
  {
    if scope == 0 || scope > |scopes| then None
    else if name in scopes[scope - 1].names then Some(symbols[scopes[scope - 1].names[name] - 1])
    else if scope == 1 then None
    else Find(symbols, scopes, scopes[scope - 1].parent, name)
  }

  lemma {:induction false} FoundEncloses(symbols: seq<Symbol>, scopes: seq<Scope>, scope: nat, name: string)
    requires TableOK(symbols, scopes) && Find(symbols, scopes, scope, name).Some?
    ensures
      var s := Find(symbols, scopes, scope, name).value;
      s.name == name && s in symbols && Encloses(scopes, s.scope, scope)
    decreases scope
  {
    if name !in scopes[scope - 1].names {
      FoundEncloses(symbols, scopes, scopes[scope - 1].parent, name);
    }
  }

  method Lookup(symbols: seq<Symbol>, scopes: seq<Scope>, from: nat, name: string) returns (r: Option<Symbol>)
    requires TableOK(symbols, scopes)
    ensures r == Find(symbols, scopes, from, name)
  {
    var scope: nat := from;
    while scope != 0
      invariant Find(symbols, scopes, scope, name) == Find(symbols, scopes, from, name)
      decreases scope
    {
      if scope > |scopes| {
        return None;
      }
      var sc := scopes[scope - 1];
      if name in sc.names {
        return Some(symbols[sc.names[name] - 1]);
      }
      scope := sc.parent;
    }
    return None;
  }

  // ---- Lookup of callables ----

  /** The callables of a name in a scope, in order of declaration. */
  function Candidates(symbols: seq<Symbol>, scope: nat, name: string): seq<Symbol> {
    if symbols == [] then []
    else
      var n := |symbols| - 1;
      var last := symbols[n];
      Candidates(symbols[..n], scope, name)
      + if last.scope == scope && last.name == name && Indexed(last) then [last] else []
  }

  /** The first that takes the arguments, or else the first. */
  function Choose(candidates: seq<Symbol>, argCount: int): Option<Symbol> {
    var fit := FirstAccepting(candidates, argCount);
    if fit.Some? then fit
    else if candidates == [] then None
    else Some(candidates[0])
  }

  function FirstAccepting(candidates: seq<Symbol>, argCount: int): Option<Symbol> {
    if candidates == [] then None
    else if Accepts(candidates[0], argCount) then Some(candidates[0])
    else FirstAccepting(candidates[1..], argCount)
  }

  /** The choice in the nearest scope that has any. */
  function FindCallable(symbols: seq<Symbol>, scopes: seq<Scope>, scope: nat, name: string, argCount: int): Option<Symbol>
    requires ScopesOK(scopes)
    decreases scope
  {
    if scope == 0 || scope > |scopes| then None
    else
      var r := Choose(Candidates(symbols, scope, name), argCount);
      if r.Some? then r
      else if scope == 1 then None
      else FindCallable(symbols, scopes, scopes[scope - 1].parent, name, argCount)
  }

  lemma {:induction false} CandidatesMeet(symbols: seq<Symbol>, scope: nat, name: string)
    ensures forall s :: s in Candidates(symbols, scope, name) <==>
              s in symbols && s.scope == scope && s.name == name && Indexed(s)
    decreases |symbols|
  {
    if symbols != [] {
      var n := |symbols| - 1;
      CandidatesMeet(symbols[..n], scope, name);
      assert symbols == symbols[..n] + [symbols[n]];
    }
  }

  lemma {:induction false} ChosenIsCandidate(candidates: seq<Symbol>, argCount: int)
    requires Choose(candidates, argCount).Some?
    ensures Choose(candidates, argCount).value in candidates
  {
    if FirstAccepting(candidates, argCount).Some? {
      AcceptingIsCandidate(candidates, argCount);
    }
  }

  lemma {:induction false} AcceptingIsCandidate(candidates: seq<Symbol>, argCount: int)
    requires FirstAccepting(candidates, argCount).Some?
    ensures FirstAccepting(candidates, argCount).value in candidates
    decreases |candidates|
  {
    if !Accepts(candidates[0], argCount) {
      AcceptingIsCandidate(candidates[1..], argCount);
    }
  }

  lemma {:induction false} FoundCallableEncloses(
      symbols: seq<Symbol>, scopes: seq<Scope>, scope: nat, name: string, argCount: int)
    requires ScopesOK(scopes) && FindCallable(symbols, scopes, scope, name, argCount).Some?
    ensures
      var s := FindCallable(symbols, scopes, scope, name, argCount).value;
      s.name == name && s in symbols && Indexed(s) && Encloses(scopes, s.scope, scope)
    decreases scope
  {
    var here := Choose(Candidates(symbols, scope, name), argCount);
    if here.Some? {
      ChosenIsCandidate(Candidates(symbols, scope, name), argCount);
      CandidatesMeet(symbols, scope, name);
    } else {
      FoundCallableEncloses(symbols, scopes, scopes[scope - 1].parent, name, argCount);
    }
  }

  // ---- The two paths ----

  function IdsOf(symbols: seq<Symbol>): seq<nat> { seq(|symbols|, i requires 0 <= i < |symbols| => symbols[i].id) }

  function Ids(index: Index, scope: nat, name: string): seq<nat> {
    if scope in index && name in index[scope] then index[scope][name] else []
  }

  /** The index lists exactly the callables, scope by scope and name by name, in order. */
  ghost predicate IndexOK(symbols: seq<Symbol>, index: Index) {
    forall scope: nat, name: string :: Ids(index, scope, name) == IdsOf(Candidates(symbols, scope, name))
  }

  /** Without an index there are no callables. */
  ghost predicate MaybeIndexOK(symbols: seq<Symbol>, index: Option<Index>) {
    IndexOK(symbols, if index.Some? then index.value else map[])
  }

  /** The choice in one scope, by the list of IDs. */
  method ChooseById(symbols: seq<Symbol>, ids: seq<nat>, ghost candidates: seq<Symbol>, argCount: int)
      returns (r: Option<Symbol>)
    requires ids == IdsOf(candidates)
    requires forall s :: s in candidates ==> 1 <= s.id <= |symbols| && symbols[s.id - 1] == s
    ensures r == Choose(candidates, argCount)
  {
    var fallback: Option<Symbol> := None;
    var i := 0;
    while i < |ids|
      invariant 0 <= i <= |ids|
      invariant fallback == if i == 0 then None else Some(candidates[0])
      invariant FirstAccepting(candidates, argCount) == FirstAccepting(candidates[i..], argCount)
    {
      assert ids[i] == candidates[i].id && candidates[i] in candidates;
      assert candidates[i..][1..] == candidates[i + 1..];
      var item := symbols[ids[i] - 1];
      if fallback.None? {
        fallback := Some(item);
      }
      if Accepts(item, argCount) {
        return Some(item);
      }
      i := i + 1;
    }
    return fallback;
  }

  lemma {:induction false} CandidatesById(symbols: seq<Symbol>, scopes: seq<Scope>, scope: nat, name: string)
    requires SymbolsOK(symbols, scopes)
    ensures forall s :: s in Candidates(symbols, scope, name) ==> 1 <= s.id <= |symbols| && symbols[s.id - 1] == s
  {
    CandidatesMeet(symbols, scope, name);
  }

  /** The path through the index. */
  method LookupIndexed(symbols: seq<Symbol>, scopes: seq<Scope>, index: Index, from: nat, name: string, argCount: int)
      returns (r: Option<Symbol>)
    requires SymbolsOK(symbols, scopes) && ScopesOK(scopes) && IndexOK(symbols, index)
    ensures r == FindCallable(symbols, scopes, from, name, argCount)
  {
    var scope: nat := from;
    while scope != 0
      invariant FindCallable(symbols, scopes, scope, name, argCount) == FindCallable(symbols, scopes, from, name, argCount)
      decreases scope
    {
      if scope > |scopes| {
        return None;
      }
      CandidatesById(symbols, scopes, scope, name);
      var here := ChooseById(symbols, Ids(index, scope, name), Candidates(symbols, scope, name), argCount);
      if here.Some? {
        return here;
      }
      scope := scopes[scope - 1].parent;
    }
    return None;
  }

  /** The choice in one scope, by looking at every symbol. */
  method ChooseByScan(symbols: seq<Symbol>, scope: nat, name: string, argCount: int) returns (r: Option<Symbol>)
    ensures r == Choose(Candidates(symbols, scope, name), argCount)
  {
    var fallback: Option<Symbol> := None;
    var i := 0;
    assert symbols[..0] == [];
    while i < |symbols|
      invariant 0 <= i <= |symbols|
      invariant FirstAccepting(Candidates(symbols[..i], scope, name), argCount).None?
      invariant
        var seen := Candidates(symbols[..i], scope, name);
        fallback == if seen == [] then None else Some(seen[0])
    {
      var item := symbols[i];
      assert symbols[..i + 1][..i] == symbols[..i];
      ghost var seen := Candidates(symbols[..i], scope, name);
      if item.scope == scope && item.name == name && IsCallable(item.kind) && !IsTestEntryPoint(item) {
        assert Candidates(symbols[..i + 1], scope, name) == seen + [item];
        AcceptingJoins(seen, [item], argCount);
        assert [item][1..] == [];
        if fallback.None? {
          fallback := Some(item);
        }
        if Accepts(item, argCount) {
          CandidatesGrow(symbols, i + 1, scope, name);
          var later := Candidates(symbols, scope, name)[|seen| + 1..];
          AcceptingJoins(seen + [item], later, argCount);
          return Some(item);
        }
      } else {
        assert Candidates(symbols[..i + 1], scope, name) == seen;
      }
      i := i + 1;
    }
    assert symbols[..i] == symbols;
    return fallback;
  }

  lemma {:induction false} AcceptingJoins(a: seq<Symbol>, b: seq<Symbol>, argCount: int)
    ensures FirstAccepting(a + b, argCount)
            == if FirstAccepting(a, argCount).Some? then FirstAccepting(a, argCount) else FirstAccepting(b, argCount)
    decreases |a|
  {
    if a == [] {
      assert a + b == b;
    } else {
      assert (a + b)[1..] == a[1..] + b;
      AcceptingJoins(a[1..], b, argCount);
    }
  }

  lemma {:induction false} CandidatesGrow(symbols: seq<Symbol>, i: nat, scope: nat, name: string)
    requires i <= |symbols|
    ensures
      var seen := Candidates(symbols[..i], scope, name);
      var all := Candidates(symbols, scope, name);
      seen <= all && all == seen + all[|seen|..]
    decreases |symbols| - i
  {
    if i < |symbols| {
      assert symbols[..i + 1][..i] == symbols[..i];
      CandidatesGrow(symbols, i + 1, scope, name);
    } else {
      assert symbols[..i] == symbols;
    }
  }

  /** The path through the symbols. */
  method LookupByScan(symbols: seq<Symbol>, scopes: seq<Scope>, from: nat, name: string, argCount: int)
      returns (r: Option<Symbol>)
    requires ScopesOK(scopes)
    ensures r == FindCallable(symbols, scopes, from, name, argCount)
  {
    var scope: nat := from;
    while scope != 0
      invariant FindCallable(symbols, scopes, scope, name, argCount) == FindCallable(symbols, scopes, from, name, argCount)
      decreases scope
    {
      if scope > |scopes| {
        return None;
      }
      var here := ChooseByScan(symbols, scope, name, argCount);
      if here.Some? {
        return here;
      }
      scope := scopes[scope - 1].parent;
    }
    return None;
  }

  /** Whichever path is taken, the answer is the same. */
  method LookupCallable(
      symbols: seq<Symbol>, scopes: seq<Scope>, index: Option<Index>, from: nat, name: string, argCount: int)
      returns (r: Option<Symbol>)
    requires SymbolsOK(symbols, scopes) && ScopesOK(scopes) && MaybeIndexOK(symbols, index)
    ensures r == FindCallable(symbols, scopes, from, name, argCount)
  {
    if index.Some? {
      r := LookupIndexed(symbols, scopes, index.value, from, name, argCount);
    } else {
      r := LookupByScan(symbols, scopes, from, name, argCount);
    }
  }
}
