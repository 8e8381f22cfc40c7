/** Constant resolution: a memoised depth-first evaluator that computes the least
    fixpoint of the constant definitions, in any order of candidates. */
module Constants {
  import opened Collections
  import opened Cells

  datatype UnaryOp = Signed(sign: Sign) | OtherUnary

  datatype BinaryOp = Common(operator: Operator) | Ushr | OtherBinary

  /** Expressions as the evaluator sees them: a literal carries its parsed value,
      a name the symbol it resolves to, and missing fields are None. */
  datatype Expr =
    | Opaque
    | Literal(parsed: Option<Cell>)
    | Name(symbol: Option<nat>)
    | Group(inner: Option<Expr>)
    | Unary(uop: UnaryOp, operand: Option<Expr>)
    | Binary(op: BinaryOp, left: Option<Expr>, right: Option<Expr>)
    | Ternary(cond: Option<Expr>, yes: Option<Expr>, no: Option<Expr>)

  /** A definition: an expression, or an enum member that counts on from the one
      before it (0 when it is the first). */
  datatype Candidate = Explicit(expr: Expr) | Implicit(previous: nat)

  type Definitions = map<nat, Candidate>
  type Values = map<nat, Cell>

  function ApplyUnary(op: UnaryOp, a: Cell): Option<Cell> {
    match op
    case Signed(sign) => Some(OperateSign(sign, a))
    case OtherUnary => None
  }

  /** The unsigned shift is evaluated as a signed one. */
  function ApplyBinary(op: BinaryOp, a: Cell, b: Cell): Option<Cell> {
    match op
    case Common(operator) => Operate(operator, a, b)
    case Ushr => Some(ShiftRight(a, b))
    case OtherBinary => None
  }

  // ---- The equations ----

  /** The value of an expression when the constants in `known` are known. */
  function Eval(e: Expr, known: Values): Option<Cell> {
    match e
    case Opaque => None
    case Literal(parsed) => parsed
    case Name(symbol) => if symbol.Some? then Lookup(known, symbol.value) else None
    case Group(inner) => if inner.Some? then Eval(inner.value, known) else None
    case Unary(op, operand) =>
      if operand.None? then None
      else
        var a := Eval(operand.value, known);
        if a.Some? then ApplyUnary(op, a.value) else None
    case Binary(op, left, right) =>
      if left.None? || right.None? then None
      else
        var a, b := Eval(left.value, known), Eval(right.value, known);
        if a.Some? && b.Some? then ApplyBinary(op, a.value, b.value) else None
    case Ternary(cond, yes, no) =>
      if cond.None? || yes.None? || no.None? then None
      else
        var c := Eval(cond.value, known);
        if c.None? then None else if c.value != 0 then Eval(yes.value, known) else Eval(no.value, known)
  }

  function Lookup(known: Values, id: nat): Option<Cell> {
    if id in known then Some(known[id]) else None
  }

  function Define(c: Candidate, known: Values): Option<Cell> {
    match c
    case Explicit(e) => Eval(e, known)
    case Implicit(previous) =>
      if previous == 0 then Some(0)
      else if previous in known then Some(Wrap(known[previous] as int + 1)) else None
  }

  /** One round: every constant whose definition has a value under `known`. */
  function Round(defs: Definitions, known: Values): Values {
    map id | id in defs && Define(defs[id], known).Some? :: Define(defs[id], known).value
  }

  /** What `n` rounds from nothing make known. */
  function Level(defs: Definitions, n: nat): Values {
    if n == 0 then map[] else Round(defs, Level(defs, n - 1))
  }

  /** A finite evaluation gives `id` the value `v`. */
  ghost predicate Derives(defs: Definitions, id: nat, v: Cell) {
    exists n: nat :: AtLevel(defs, n, id, v)
  }

  ghost predicate AtLevel(defs: Definitions, n: nat, id: nat, v: Cell) {
    Lookup(Level(defs, n), id) == Some(v)
  }

  predicate Extends(a: Values, b: Values) {
    forall id :: id in a ==> id in b && b[id] == a[id]
  }

  lemma {:induction false} EvalMonotone(e: Expr, a: Values, b: Values)
    requires Extends(a, b) && Eval(e, a).Some?
    ensures Eval(e, b) == Eval(e, a)
    decreases e
  {
    hide ApplyBinary, ApplyUnary;
    match e
    case Group(inner) => EvalMonotone(inner.value, a, b);
    case Unary(_, operand) => EvalMonotone(operand.value, a, b);
    case Binary(_, left, right) =>
      EvalMonotone(left.value, a, b);
      EvalMonotone(right.value, a, b);
    case Ternary(cond, yes, no) =>
      EvalMonotone(cond.value, a, b);
      if Eval(cond.value, a).value != 0 {
        EvalMonotone(yes.value, a, b);
      } else {
        EvalMonotone(no.value, a, b);
      }
    case _ =>
  }

  lemma {:induction false} DefineMonotone(c: Candidate, a: Values, b: Values)
    requires Extends(a, b) && Define(c, a).Some?
    ensures Define(c, b) == Define(c, a)
  {
    if c.Explicit? { EvalMonotone(c.expr, a, b); }
  }

  lemma {:induction false} RoundMonotone(defs: Definitions, a: Values, b: Values)
    requires Extends(a, b)
    ensures Extends(Round(defs, a), Round(defs, b))
  {
    hide Eval, Define;
    forall id | id in Round(defs, a) ensures id in Round(defs, b) && Round(defs, b)[id] == Round(defs, a)[id] {
      DefineMonotone(defs[id], a, b);
    }
  }

  lemma {:induction false} LevelGrows(defs: Definitions, n: nat)
    ensures Extends(Level(defs, n), Level(defs, n + 1))
  {
    hide Eval, Define;
    if n > 0 {
      LevelGrows(defs, n - 1);
      RoundMonotone(defs, Level(defs, n - 1), Level(defs, n));
    }
  }

  lemma {:induction false} LevelMonotone(defs: Definitions, n: nat, m: nat)
    requires n <= m
    ensures Extends(Level(defs, n), Level(defs, m))
    decreases m - n
  {
    if n < m {
      LevelGrows(defs, n);
      LevelMonotone(defs, n + 1, m);
    }
  }

  /** Finite evaluations never disagree. */
  lemma {:induction false} DerivesOnce(defs: Definitions, id: nat, v: Cell, w: Cell)
    requires Derives(defs, id, v) && Derives(defs, id, w)
    ensures v == w
  {
    hide Eval, Define, Level;
    var n: nat :| AtLevel(defs, n, id, v);
    var m: nat :| AtLevel(defs, m, id, w);
    LevelMonotone(defs, n, n + m);
    LevelMonotone(defs, m, n + m);
  }

  lemma {:induction false} FirstLevel(defs: Definitions, n: nat, id: nat) returns (m: nat)
    requires id in Level(defs, n)
    ensures 0 < m <= n && id in Level(defs, m) && id !in Level(defs, m - 1)
    decreases n
  {
    if id in Level(defs, n - 1) {
      m := FirstLevel(defs, n - 1, id);
    } else {
      m := n;
    }
  }

  // ---- The evaluator ----

  class Resolver {
    const defs: Definitions
    var values: Values
    var visiting: set<nat>

    constructor (defs: Definitions)
      ensures this.defs == defs && values == map[] && visiting == {}
    {
      this.defs := defs;
      values, visiting := map[], {};
    }

    /** Only what a finite evaluation gives is ever kept. */
    ghost predicate Valid()
      reads this
    {
      visiting <= defs.Keys && forall id :: id in values ==> id in defs && Derives(defs, id, values[id])
    }

    /** Something with a value is found, unless it needs what is being visited. */
    method Value(id: nat) returns (r: Option<Cell>)
      requires Valid()
      modifies this
      ensures Valid() && visiting == old(visiting) && Extends(old(values), values)
      ensures r.Some? ==> Derives(defs, id, r.value) && id in values
      ensures forall n: nat :: id in Level(defs, n) && visiting !! Level(defs, n).Keys ==> r.Some?
      decreases defs.Keys - visiting, 0
    {
      if id in values {
        return Some(values[id]);
      }
      if id !in defs || id in visiting {
        forall n: nat | id in Level(defs, n) ensures id in defs {
          LevelInDefs(defs, n);
        }
        return None;
      }
      visiting := visiting + {id};
      if defs[id].Implicit? {
        r := NextAfter(id);
      } else {
        r := ExplicitValue(id);
      }
      visiting := visiting - {id};
      if r.Some? {
        values := values[id := r.value];
      }
    }

    method NextAfter(id: nat) returns (r: Option<Cell>)
      requires Valid() && id in defs && defs[id].Implicit? && id in visiting
      modifies this
      ensures Valid() && visiting == old(visiting) && Extends(old(values), values)
      ensures r.Some? ==> Derives(defs, id, r.value)
      ensures forall n: nat :: id in Level(defs, n) && visiting - {id} !! Level(defs, n).Keys ==> r.Some?
      decreases defs.Keys - visiting, 2
    {
      var previous := defs[id].previous;
      if previous == 0 {
        assert AtLevel(defs, 1, id, 0);
        return Some(0);
      }
      var before := Value(previous);
      if before.None? {
        forall n: nat | id in Level(defs, n) ensures !(visiting - {id} !! Level(defs, n).Keys) {
          NeededBefore(defs, id, n, visiting);
        }
        return None;
      }
      NextDerives(defs, id, before.value);
      r := Some(Wrap(before.value as int + 1));
    }

    method ExplicitValue(id: nat) returns (r: Option<Cell>)
      requires Valid() && id in defs && defs[id].Explicit? && id in visiting
      modifies this
      ensures Valid() && visiting == old(visiting) && Extends(old(values), values)
      ensures r.Some? ==> Derives(defs, id, r.value)
      ensures forall n: nat :: id in Level(defs, n) && visiting - {id} !! Level(defs, n).Keys ==> r.Some?
      decreases defs.Keys - visiting, 2
    {
      var e := defs[id].expr;
      r := EvalExpr(e);
      if r.Some? {
        ExprDerives(defs, id, r.value);
      } else {
        forall n: nat | id in Level(defs, n) ensures !(visiting - {id} !! Level(defs, n).Keys) {
          NeededBefore(defs, id, n, visiting);
        }
      }
    }

    method EvalExpr(e: Expr) returns (r: Option<Cell>)
      requires Valid()
      modifies this
      ensures Valid() && visiting == old(visiting) && Extends(old(values), values)
      ensures r.Some? ==> exists m: nat :: EvalAt(defs, m, e, r.value)
      ensures forall n: nat :: Eval(e, Level(defs, n)).Some? && visiting !! Level(defs, n).Keys ==> r.Some?
      decreases defs.Keys - visiting, 1, e
    {
      match e
      case Opaque => r := None;
      case Literal(parsed) =>
        r := parsed;
        assert r.Some? ==> EvalAt(defs, 0, e, r.value);
      case Name(symbol) =>
        if symbol.None? {
          return None;
        }
        r := Value(symbol.value);
        if r.Some? {
          ghost var m: nat :| AtLevel(defs, m, symbol.value, r.value);
          assert EvalAt(defs, m, e, r.value);
        }
      case Group(inner) =>
        if inner.None? {
          return None;
        }
        r := EvalExpr(inner.value);
        if r.Some? {
          ghost var m: nat :| EvalAt(defs, m, inner.value, r.value);
          assert EvalAt(defs, m, e, r.value);
        }
      case Unary(op, operand) =>
        if operand.None? {
          return None;
        }
        var a := EvalExpr(operand.value);
        if a.None? {
          return None;
        }
        r := ApplyUnary(op, a.value);
        UnaryStep(e, a.value);
      case Binary(op, left, right) =>
        if left.None? || right.None? {
          return None;
        }
        var a := EvalExpr(left.value);
        var b := EvalExpr(right.value);
        if a.None? || b.None? {
          return None;
        }
        r := ApplyBinary(op, a.value, b.value);
        BinaryStep(e, a.value, b.value);
      case Ternary(cond, yes, no) =>
        if cond.None? || yes.None? || no.None? {
          return None;
        }
        var c := EvalExpr(cond.value);
        if c.None? {
          return None;
        }
        var arm := if c.value != 0 then yes.value else no.value;
        r := EvalExpr(arm);
        TernaryStep(e, c.value, r);
    }

    lemma {:induction false} UnaryStep(e: Expr, a: Cell)
      requires e.Unary? && e.operand.Some?
      requires exists m: nat :: EvalAt(defs, m, e.operand.value, a)
      ensures var r := ApplyUnary(e.uop, a);
              if r.Some? then exists m: nat :: EvalAt(defs, m, e, r.value)
              else forall n: nat :: Eval(e, Level(defs, n)).None?
    {
      hide ApplyUnary;
      var m: nat :| EvalAt(defs, m, e.operand.value, a);
      assert Eval(e, Level(defs, m)) == ApplyUnary(e.uop, a);
      if ApplyUnary(e.uop, a).Some? {
        assert EvalAt(defs, m, e, ApplyUnary(e.uop, a).value);
      } else {
        forall n: nat ensures Eval(e, Level(defs, n)).None? {
          if Eval(e.operand.value, Level(defs, n)).Some? {
            SameValue(defs, e.operand.value, m, n);
          }
        }
      }
    }

    lemma {:induction false} BinaryStep(e: Expr, a: Cell, b: Cell)
      requires e.Binary? && e.left.Some? && e.right.Some?
      requires exists m: nat :: EvalAt(defs, m, e.left.value, a)
      requires exists m: nat :: EvalAt(defs, m, e.right.value, b)
      ensures var r := ApplyBinary(e.op, a, b);
              if r.Some? then exists m: nat :: EvalAt(defs, m, e, r.value)
              else forall n: nat :: Eval(e, Level(defs, n)).None?
    {
      hide ApplyBinary;
      var m: nat :| EvalAt(defs, m, e.left.value, a);
      var k: nat :| EvalAt(defs, k, e.right.value, b);
      EvalLater(defs, e.left.value, m, m + k);
      EvalLater(defs, e.right.value, k, m + k);
      assert Eval(e, Level(defs, m + k)) == ApplyBinary(e.op, a, b);
      if ApplyBinary(e.op, a, b).Some? {
        assert EvalAt(defs, m + k, e, ApplyBinary(e.op, a, b).value);
      } else {
        forall n: nat ensures Eval(e, Level(defs, n)).None? {
          if Eval(e.left.value, Level(defs, n)).Some? && Eval(e.right.value, Level(defs, n)).Some? {
            SameValue(defs, e.left.value, m, n);
            SameValue(defs, e.right.value, k, n);
          }
        }
      }
    }

    lemma {:induction false} TernaryStep(e: Expr, c: Cell, r: Option<Cell>)
      requires e.Ternary? && e.cond.Some? && e.yes.Some? && e.no.Some?
      requires exists m: nat :: EvalAt(defs, m, e.cond.value, c)
      requires var arm := if c != 0 then e.yes.value else e.no.value;
               r.Some? ==> exists m: nat :: EvalAt(defs, m, arm, r.value)
      ensures r.Some? ==> exists m: nat :: EvalAt(defs, m, e, r.value)
      ensures forall n: nat :: Eval(e, Level(defs, n)).Some? ==>
                Eval(e.cond.value, Level(defs, n)).Some?
                && Eval(if c != 0 then e.yes.value else e.no.value, Level(defs, n)).Some?
    {
      var m: nat :| EvalAt(defs, m, e.cond.value, c);
      if r.Some? {
        TernaryKnown(e, c, if c != 0 then e.yes.value else e.no.value, r.value, m);
      }
      forall n: nat | Eval(e, Level(defs, n)).Some?
        ensures Eval(e.cond.value, Level(defs, n)).Some?
             && Eval(if c != 0 then e.yes.value else e.no.value, Level(defs, n)).Some?
      {
        TernaryParts(e, Level(defs, n));
        SameValue(defs, e.cond.value, m, n);
      }
    }

    lemma {:induction false} TernaryKnown(e: Expr, c: Cell, arm: Expr, v: Cell, m: nat)
      requires e.Ternary? && e.cond.Some? && e.yes.Some? && e.no.Some? && EvalAt(defs, m, e.cond.value, c)
      requires arm == if c != 0 then e.yes.value else e.no.value
      requires exists k: nat :: EvalAt(defs, k, arm, v)
      ensures exists k: nat :: EvalAt(defs, k, e, v)
    {
      hide Level, Eval;
      var k: nat :| EvalAt(defs, k, arm, v);
      EvalLater(defs, e.cond.value, m, m + k);
      EvalLater(defs, arm, k, m + k);
      TernaryTakes(e, Level(defs, m + k));
      assert EvalAt(defs, m + k, e, v);
    }
  }

  lemma {:induction false} TernaryTakes(e: Expr, known: Values)
    requires e.Ternary? && e.cond.Some? && e.yes.Some? && e.no.Some? && Eval(e.cond.value, known).Some?
    ensures Eval(e, known) == Eval(if Eval(e.cond.value, known).value != 0 then e.yes.value else e.no.value, known)
  {
  }

  lemma {:induction false} TernaryParts(e: Expr, known: Values)
    requires e.Ternary? && e.cond.Some? && e.yes.Some? && e.no.Some? && Eval(e, known).Some?
    ensures Eval(e.cond.value, known).Some?
    ensures Eval(if Eval(e.cond.value, known).value != 0 then e.yes.value else e.no.value, known).Some?
  {
  }

  /** A value at some level comes from a definition that has one a level below,
      where `id` itself is not needed. */
  lemma {:induction false} NeededBefore(defs: Definitions, id: nat, n: nat, visiting: set<nat>)
    requires id in defs && id in Level(defs, n)
    ensures visiting - {id} !! Level(defs, n).Keys ==>
              exists m: nat :: Define(defs[id], Level(defs, m)).Some? && visiting !! Level(defs, m).Keys
  {
    hide Eval, Define;
    var m := FirstLevel(defs, n, id);
    LevelMonotone(defs, m - 1, n);
    assert Define(defs[id], Level(defs, m - 1)).Some?;
    assert Level(defs, m - 1).Keys <= Level(defs, n).Keys;
  }

  lemma {:induction false} NextDerives(defs: Definitions, id: nat, before: Cell)
    requires id in defs && defs[id].Implicit? && defs[id].previous != 0 && Derives(defs, defs[id].previous, before)
    ensures Derives(defs, id, Wrap(before as int + 1))
  {
    var m: nat :| AtLevel(defs, m, defs[id].previous, before);
    assert AtLevel(defs, m + 1, id, Wrap(before as int + 1));
  }

  lemma {:induction false} ExprDerives(defs: Definitions, id: nat, v: Cell)
    requires id in defs && defs[id].Explicit?
    requires exists m: nat :: EvalAt(defs, m, defs[id].expr, v)
    ensures Derives(defs, id, v)
  {
    var m: nat :| EvalAt(defs, m, defs[id].expr, v);
    assert AtLevel(defs, m + 1, id, v);
  }

  ghost predicate EvalAt(defs: Definitions, n: nat, e: Expr, v: Cell) {
    Eval(e, Level(defs, n)) == Some(v)
  }

  lemma {:induction false} EvalLater(defs: Definitions, e: Expr, n: nat, m: nat)
    requires n <= m && Eval(e, Level(defs, n)).Some?
    ensures Eval(e, Level(defs, m)) == Eval(e, Level(defs, n))
  {
    hide Eval, Level;
    LevelMonotone(defs, n, m);
    EvalMonotone(e, Level(defs, n), Level(defs, m));
  }

  lemma {:induction false} SameValue(defs: Definitions, e: Expr, n: nat, m: nat)
    requires Eval(e, Level(defs, n)).Some? && Eval(e, Level(defs, m)).Some?
    ensures Eval(e, Level(defs, n)) == Eval(e, Level(defs, m))
  {
    hide Eval, Level;
    EvalLater(defs, e, n, n + m);
    EvalLater(defs, e, m, n + m);
  }

  lemma {:induction false} LevelInDefs(defs: Definitions, n: nat)
    ensures Level(defs, n).Keys <= defs.Keys
  {
  }

  // ---- The result ----

  /** Whatever the order of the candidates, the result is exactly what finite
      evaluations give. */
  method ResolveConstants(defs: Definitions) returns (values: Values)
    ensures forall id, v: Cell :: Lookup(values, id) == Some(v) <==> Derives(defs, id, v)
  {
    var resolver := new Resolver(defs);
    var todo := defs.Keys;
    while todo != {}
      invariant resolver.Valid() && resolver.visiting == {} && resolver.defs == defs
      invariant forall id, n: nat :: id in defs && id !in todo && id in Level(defs, n) ==> id in resolver.values
      decreases todo
    {
      var id := Pick(todo);
      todo := todo - {id};
      var r := resolver.Value(id);
    }
    values := resolver.values;
    forall id, v: Cell | Derives(defs, id, v) ensures Lookup(values, id) == Some(v) {
      var n: nat :| AtLevel(defs, n, id, v);
      LevelInDefs(defs, n);
      DerivesOnce(defs, id, v, values[id]);
    }
  }

  // ---- The result is the least fixpoint ----

  /** Closed under the definitions: each one with a value under `m` has it in `m`. */
  ghost predicate Closed(defs: Definitions, m: Values) {
    forall id :: id in defs && Define(defs[id], m).Some? ==> Lookup(m, id) == Define(defs[id], m)
  }

  ghost predicate Fixpoint(defs: Definitions, m: Values) {
    m.Keys <= defs.Keys && forall id :: id in defs ==> Lookup(m, id) == Define(defs[id], m)
  }

  lemma {:induction false} ExtendsTransitive(a: Values, b: Values, c: Values)
    requires Extends(a, b) && Extends(b, c)
    ensures Extends(a, c)
  {
  }

  lemma {:induction false} RoundClosed(defs: Definitions, m: Values)
    requires Closed(defs, m)
    ensures Extends(Round(defs, m), m)
  {
    hide Eval, Define;
    forall id | id in Round(defs, m) ensures id in m && m[id] == Round(defs, m)[id] {
      assert Lookup(m, id) == Define(defs[id], m);
    }
  }

  lemma {:induction false} LevelBelowClosed(defs: Definitions, n: nat, m: Values)
    requires Closed(defs, m)
    ensures Extends(Level(defs, n), m)
  {
    hide Eval, Define;
    if n > 0 {
      LevelBelowClosed(defs, n - 1, m);
      RoundMonotone(defs, Level(defs, n - 1), m);
      RoundClosed(defs, m);
      ExtendsTransitive(Level(defs, n), Round(defs, m), m);
    }
  }

  /** All of finitely many derived values are there at some one level. */
  lemma {:induction false} CommonLevel(defs: Definitions, values: Values, keys: set<nat>) returns (n: nat)
    requires keys <= values.Keys && forall id :: id in keys ==> Derives(defs, id, values[id])
    ensures forall id :: id in keys ==> AtLevel(defs, n, id, values[id])
    decreases keys
  {
    hide Eval, Define, Level;
    n := 0;
    if keys != {} {
      var id :| id in keys;
      var k := CommonLevel(defs, values, keys - {id});
      var m: nat :| AtLevel(defs, m, id, values[id]);
      n := m + k;
      LevelMonotone(defs, m, n);
      LevelMonotone(defs, k, n);
    }
  }

  /** What `ResolveConstants` returns satisfies the definitions exactly and is part
      of everything else that is closed under them. */
  lemma {:induction false} ResultIsLeastFixpoint(defs: Definitions, values: Values)
    requires forall id, v: Cell :: Lookup(values, id) == Some(v) <==> Derives(defs, id, v)
    ensures Fixpoint(defs, values)
    ensures forall m :: Closed(defs, m) ==> Extends(values, m)
  {
    hide Eval, Define;
    forall id | id in values ensures Derives(defs, id, values[id]) {
      assert Lookup(values, id) == Some(values[id]);
    }
    var n := CommonLevel(defs, values, values.Keys);
    ValuesAreLevel(defs, values, n);
    forall id | id in defs ensures Lookup(values, id) == Define(defs[id], values) {
      if Define(defs[id], values).Some? {
        assert AtLevel(defs, n + 1, id, Define(defs[id], values).value);
      } else {
        LevelGrows(defs, n);
      }
    }
    LevelInDefs(defs, n);
    forall m | Closed(defs, m) ensures Extends(values, m) {
      LevelBelowClosed(defs, n, m);
    }
  }

  lemma {:induction false} ValuesAreLevel(defs: Definitions, values: Values, n: nat)
    requires forall id, v: Cell :: Lookup(values, id) == Some(v) <==> Derives(defs, id, v)
    requires forall id :: id in values ==> AtLevel(defs, n, id, values[id])
    ensures values == Level(defs, n)
  {
    hide Level;
    var level := Level(defs, n);
    forall id | id in level ensures id in values && values[id] == level[id] {
      assert AtLevel(defs, n, id, level[id]);
      assert Lookup(values, id) == Some(level[id]);
    }
    assert forall id :: id in values ==> id in level && level[id] == values[id];
  }

  /** Constants that need each other: none of them has a value unless one of them
      already has. A cycle is such a set, with all that strictly depends on it. */
  ghost predicate Unfounded(defs: Definitions, s: set<nat>) {
    forall id: nat, known: Values :: id in s && id in defs && known.Keys !! s ==> Define(defs[id], known).None?
  }

  /** Such constants are never resolved. */
  lemma {:induction false} UnfoundedIsAbsent(defs: Definitions, s: set<nat>, id: nat, v: Cell)
    requires Unfounded(defs, s) && id in s
    ensures !Derives(defs, id, v)
  {
    hide Define;
    if Derives(defs, id, v) {
      var n: nat :| AtLevel(defs, n, id, v);
      UnfoundedLevel(defs, s, n);
    }
  }

  lemma {:induction false} UnfoundedLevel(defs: Definitions, s: set<nat>, n: nat)
    requires Unfounded(defs, s)
    ensures Level(defs, n).Keys !! s
  {
    hide Define;
    if n > 0 {
      UnfoundedLevel(defs, s, n - 1);
      forall id | id in s ensures id !in Level(defs, n) {
        if id in defs {
          assert Define(defs[id], Level(defs, n - 1)).None?;
        }
      }
    }
  }
}
