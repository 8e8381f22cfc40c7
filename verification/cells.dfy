/** 64-bit cell arithmetic as the host language does it on int64: wrapping,
    truncating division, shift counts read as unsigned, operators on the bits of
    two's complement. */
module Cells {
  import opened Collections

  const HALF: int := 0x8000_0000_0000_0000
  const MODULUS: int := 0x1_0000_0000_0000_0000

  type Cell = x: int | -0x8000_0000_0000_0000 <= x < 0x8000_0000_0000_0000

  const LEAST: Cell := -0x8000_0000_0000_0000

  function Wrap(x: int): Cell { (x + HALF) % MODULUS - HALF }

  function FromBool(b: bool): Cell { if b then 1 else 0 }

  function Magnitude(a: int): nat { if a < 0 then -a else a }

  function Quotient(a: Cell, b: Cell): Cell
    requires b != 0
  {
    var q := Magnitude(a) / Magnitude(b);
    Wrap(if (a < 0) != (b < 0) then 0 - q else q)
  }

  function Remainder(a: Cell, b: Cell): Cell
    requires b != 0
  {
    var r := Magnitude(a) % Magnitude(b);
    RemainderIsSmall(Magnitude(a), Magnitude(b));
    if a < 0 then 0 - r else r
  }

  lemma {:induction false} RemainderIsSmall(a: nat, b: nat)
    requires b != 0
    ensures 0 <= a % b <= a && a % b < b
  {
  }

  function Pow2(n: nat): (p: int)
    ensures p > 0
  {
    if n == 0 then 1 else 2 * Pow2(n - 1)
  }

  /** A shift count: a negative one is a huge one. */
  function Count(b: Cell): nat { if b < 0 then b + MODULUS else b }

  function ShiftLeft(a: Cell, b: Cell): Cell {
    if Count(b) < 64 then Wrap(a * Pow2(Count(b))) else 0
  }

  /** Arithmetic shift: the sign fills in. */
  function ShiftRight(a: Cell, b: Cell): Cell {
    if Count(b) < 64 then
      RoundingDown(a, Pow2(Count(b)));
      a / Pow2(Count(b))
    else if a < 0 then -1 else 0
  }

  lemma {:induction false} RoundingDown(a: int, p: int)
    requires p > 0
    ensures (a / p) * p <= a < (a / p + 1) * p
    ensures a >= 0 ==> 0 <= a / p <= a
    ensures a < 0 ==> a <= a / p < 0
  {
    DivisionParts(a, p, a / p, a % p);
  }

  lemma {:induction false} DivisionParts(a: int, p: int, q: int, r: int)
    requires p > 0 && a == q * p + r && 0 <= r < p
    ensures q * p <= a < (q + 1) * p
    ensures a >= 0 ==> 0 <= q <= a
    ensures a < 0 ==> a <= q < 0
    ensures p > 1 && a > 0 ==> q < a
  {
    ProductPlus(q, p);
    if q < 0 {
      ProductGrows(q, -1, p);
      Scaled(q + 1, p);
    } else {
      Scaled(q, p);
    }
  }

  /** A factor takes a number away from zero. */
  lemma {:induction false} Scaled(q: int, p: int)
    requires p > 0
    ensures q >= 0 ==> q <= q * p && (p > 1 ==> q * 2 <= q * p)
    ensures q <= 0 ==> q * p <= q
  {
    if q >= 0 {
      ProductGrows(1, p, q);
      if p > 1 {
        ProductGrows(2, p, q);
      }
    } else {
      ProductGrows(1, p, 0 - q);
      ProductPlus(q, p);
    }
  }

  lemma {:induction false} ProductPlus(q: int, p: int)
    ensures (q + 1) * p == q * p + p
    ensures p * (0 - q) == 0 - q * p
  {
  }

  lemma {:induction false} ProductGrows(x: int, y: int, p: int)
    requires x <= y && p >= 0
    ensures x * p <= y * p
  {
  }

  // ---- Bits ----

  /** Bit `i` of a number in two's complement, the lowest first. */
  predicate Bit(a: int, i: nat)
    decreases i
  {
    if i == 0 then a % 2 == 1 else Bit(a / 2, i - 1)
  }

  predicate OnBits(op: Operator, x: bool, y: bool) {
    match op
    case OpAnd => x && y
    case OpOr => x || y
    case _ => x != y
  }

  /** The operator on the lowest `width` bits, and then on the signs. */
  function Bitwise(op: Operator, a: int, b: int, width: nat): (r: int)
    ensures -Pow2(width) <= r < Pow2(width)
    decreases width
  {
    if width == 0 then if OnBits(op, a < 0, b < 0) then -1 else 0
    else 2 * Bitwise(op, a / 2, b / 2, width - 1) + if OnBits(op, a % 2 == 1, b % 2 == 1) then 1 else 0
  }

  function OnCells(op: Operator, a: Cell, b: Cell): Cell {
    Pow63();
    Bitwise(op, a, b, 63)
  }

  lemma {:induction false} Pow63()
    ensures Pow2(63) == HALF
  {
    assert Pow2(8) == 256;
    PowSum(8, 8);
    PowSum(16, 16);
    PowSum(32, 32);
    assert Pow2(64) == 2 * Pow2(63);
  }

  lemma {:induction false} PowSum(n: nat, m: nat)
    ensures Pow2(n + m) == Pow2(n) * Pow2(m)
    decreases m
  {
    if m > 0 {
      PowSum(n, m - 1);
      assert Pow2(n + m) == 2 * Pow2(n + m - 1);
    }
  }

  // ---- The operators ----

  /** The operators that conditions of directives and constant expressions have in
      common. */
  datatype Operator =
    | OpAdd | OpSub | OpMul | OpDiv | OpMod | OpShl | OpShr | OpAnd | OpOr | OpXor
    | OpEq | OpNotEq | OpLt | OpLtEq | OpGt | OpGtEq | OpAndAnd | OpOrOr

  datatype Sign = OpPlus | OpMinus | OpNot | OpComplement

  /** No value for a division by zero. */
  function Operate(op: Operator, a: Cell, b: Cell): (r: Option<Cell>)
    ensures r.None? <==> (op == OpDiv || op == OpMod) && b == 0
  {
    if (op == OpDiv || op == OpMod) && b == 0 then None else Some(Compute(op, a, b))
  }

  function Compute(op: Operator, a: Cell, b: Cell): Cell
    requires !((op == OpDiv || op == OpMod) && b == 0)
  {
    match op
    case OpAdd => Wrap(a + b)
    case OpSub => Wrap(a - b)
    case OpMul => Wrap(a * b)
    case OpDiv => Quotient(a, b)
    case OpMod => Remainder(a, b)
    case OpShl => ShiftLeft(a, b)
    case OpShr => ShiftRight(a, b)
    case OpAnd => OnCells(op, a, b)
    case OpOr => OnCells(op, a, b)
    case OpXor => OnCells(op, a, b)
    case OpEq => FromBool(a == b)
    case OpNotEq => FromBool(a != b)
    case OpLt => FromBool(a < b)
    case OpLtEq => FromBool(a <= b)
    case OpGt => FromBool(a > b)
    case OpGtEq => FromBool(a >= b)
    case OpAndAnd => FromBool(a != 0 && b != 0)
    case OpOrOr => FromBool(a != 0 || b != 0)
  }

  function OperateSign(op: Sign, a: Cell): Cell {
    match op
    case OpPlus => a
    case OpMinus => Wrap(0 - a)
    case OpNot => FromBool(a == 0)
    case OpComplement => -1 - a
  }

  // ---- What the results are ----

  /** The cell is this number up to multiples of 2^64; no other cell is. */
  predicate Stands(r: Cell, x: int) { (r - x) % 0x1_0000_0000_0000_0000 == 0 }

  /** `a == q * b + r`, the rest smaller than the divisor and of the dividend's sign. */
  predicate Divides(a: int, b: int, q: int, r: int) {
    a == q * b + r && Magnitude(r) < Magnitude(b) && (r == 0 || (r < 0 <==> a < 0))
  }

  lemma {:induction false} StandsOnce(r: Cell, s: Cell, x: int)
    requires Stands(r, x) && Stands(s, x)
    ensures r == s
  {
  }

  lemma {:induction false} WrapStands(x: int)
    ensures Stands(Wrap(x), x)
    ensures -HALF <= x < HALF ==> Wrap(x) == x
  {
  }

  /** Truncating division: exact but for the least cell by -1, which has no negative. */
  lemma {:induction false} Truncates(a: Cell, b: Cell)
    requires b != 0
    ensures if a == LEAST && b == -1 then Quotient(a, b) == LEAST && Remainder(a, b) == 0
            else Divides(a, b, Quotient(a, b), Remainder(a, b))
  {
    hide Wrap, Divides, Quotient, Remainder, Magnitude;
    UnwrappedParts(a, b);
    QuotientWraps(a, b);
    assert (if a < 0 then 0 - Magnitude(a) % Magnitude(b) else Magnitude(a) % Magnitude(b)) == Remainder(a, b) by {
      RemainderIs(a, b);
    }
    if a == LEAST && b == -1 {
      LeastByMinusOne();
    }
  }

  /** The quotient before it is made a cell. */
  function Unwrapped(a: Cell, b: Cell): int
    requires b != 0
  {
    var q := Magnitude(a) / Magnitude(b);
    if (a < 0) != (b < 0) then 0 - q else q
  }

  lemma {:induction false} RemainderIs(a: Cell, b: Cell)
    requires b != 0
    ensures Magnitude(b) != 0
    ensures Remainder(a, b) == if a < 0 then 0 - Magnitude(a) % Magnitude(b) else Magnitude(a) % Magnitude(b)
  {
  }

  lemma {:induction false} UnwrappedParts(a: Cell, b: Cell)
    requires b != 0
    ensures Magnitude(b) != 0
    ensures Divides(a, b, Unwrapped(a, b), if a < 0 then 0 - Magnitude(a) % Magnitude(b) else Magnitude(a) % Magnitude(b))
  {
    hide Divides, Magnitude;
    RemainderIs(a, b);
    DivisionIdentity(Magnitude(a), Magnitude(b));
    SignedParts(a, b, Magnitude(a) / Magnitude(b), Magnitude(a) % Magnitude(b));
  }

  lemma {:induction false} DivisionIdentity(m: nat, n: nat)
    requires n != 0
    ensures m == (m / n) * n + m % n && 0 <= m % n < n
  {
  }

  lemma {:induction false} QuotientWraps(a: Cell, b: Cell)
    requires b != 0
    ensures Quotient(a, b) == if a == LEAST && b == -1 then LEAST else Unwrapped(a, b)
  {
    hide Wrap;
    QuotientIsSmall(Magnitude(a), Magnitude(b));
    WrapStands(Unwrapped(a, b));
    WrapsHalf();
  }

  lemma {:induction false} LeastByMinusOne()
    ensures Remainder(LEAST, -1) == 0
  {
  }

  lemma {:induction false} WrapsHalf()
    ensures Wrap(HALF) == LEAST
  {
  }

  lemma {:induction false} SignedParts(a: int, b: int, p: int, r: int)
    requires b != 0 && Magnitude(a) == p * Magnitude(b) + r && 0 <= r < Magnitude(b)
    ensures Divides(a, b, if (a < 0) != (b < 0) then 0 - p else p, if a < 0 then 0 - r else r)
  {
  }

  lemma {:induction false} QuotientIsSmall(m: nat, n: nat)
    requires n != 0
    ensures m / n <= m && (n > 1 && m > 0 ==> m / n < m) && (n == 1 ==> m / n == m)
  {
    DivisionParts(m, n, m / n, m % n);
  }

  lemma {:induction false} BitwiseBit(op: Operator, a: int, b: int, width: nat, i: nat)
    requires i < width
    ensures Bit(Bitwise(op, a, b, width), i) == OnBits(op, Bit(a, i), Bit(b, i))
    decreases width
  {
    if 0 < i {
      BitwiseBit(op, a / 2, b / 2, width - 1, i - 1);
    }
  }

  /** The bits past the width are all the sign. */
  lemma {:induction false} SignBit(a: int, width: nat)
    requires -Pow2(width) <= a < Pow2(width)
    ensures Bit(a, width) == (a < 0)
    decreases width
  {
    if width > 0 {
      SignBit(a / 2, width - 1);
    }
  }

  lemma {:induction false} BitwiseSign(op: Operator, a: int, b: int, width: nat)
    requires -Pow2(width) <= a < Pow2(width) && -Pow2(width) <= b < Pow2(width)
    ensures Bitwise(op, a, b, width) < 0 <==> OnBits(op, a < 0, b < 0)
    decreases width
  {
    if width > 0 {
      BitwiseSign(op, a / 2, b / 2, width - 1);
    }
  }

  /** The bitwise operators work on each of the 64 bits. */
  lemma {:induction false} EachBit(op: Operator, a: Cell, b: Cell, i: nat)
    requires i < 64
    ensures Bit(OnCells(op, a, b), i) == OnBits(op, Bit(a, i), Bit(b, i))
  {
    hide Bit, Bitwise, OnBits, Pow2;
    Pow63();
    if i < 63 {
      BitwiseBit(op, a, b, 63, i);
    } else {
      SignBit(a, 63);
      SignBit(b, 63);
      SignBit(Bitwise(op, a, b, 63), 63);
      BitwiseSign(op, a, b, 63);
    }
  }

  lemma {:induction false} ComplementBit(a: int, i: nat)
    ensures Bit(-1 - a, i) == !Bit(a, i)
    decreases i
  {
    if i > 0 {
      assert (-1 - a) / 2 == -1 - a / 2;
      ComplementBit(a / 2, i - 1);
    }
  }

  /** The 64 bits of a cell tell it from every other cell. */
  lemma {:induction false} BitsTell(a: Cell, b: Cell)
    requires forall i: nat :: i < 64 ==> Bit(a, i) == Bit(b, i)
    ensures a == b
  {
    hide Bit, Pow2;
    Pow63();
    SameBits(a, b, 63);
  }

  lemma {:induction false} SameBits(a: int, b: int, width: nat)
    requires -Pow2(width) <= a < Pow2(width) && -Pow2(width) <= b < Pow2(width)
    requires forall i: nat :: i <= width ==> Bit(a, i) == Bit(b, i)
    ensures a == b
    decreases width
  {
    if width == 0 {
      assert Bit(a, 0) == Bit(b, 0);
    } else {
      assert Bit(a, 0) == Bit(b, 0);
      forall i: nat | i <= width - 1 ensures Bit(a / 2, i) == Bit(b / 2, i) {
        assert Bit(a, i + 1) == Bit(b, i + 1);
      }
      SameBits(a / 2, b / 2, width - 1);
    }
  }

  /** A left shift moves the bits up. */
  lemma {:induction false} ShiftFacts(a: Cell, b: Cell)
    ensures ShiftRight(a, b) < 0 <==> a < 0
    ensures b < 0 || b >= 64 ==> ShiftLeft(a, b) == 0 && ShiftRight(a, b) == if a < 0 then -1 else 0
    ensures 0 <= b < 64 ==> Stands(ShiftLeft(a, b), a * Pow2(b))
    ensures 0 <= b < 64 ==> ShiftRight(a, b) * Pow2(b) <= a < (ShiftRight(a, b) + 1) * Pow2(b)
  {
    hide Pow2, Wrap, Stands;
    if 0 <= b < 64 {
      RoundingDown(a, Pow2(b));
      WrapStands(a * Pow2(b));
    }
  }

  /** What each operator makes of two cells. */
  lemma {:induction false} OperatorLaws(op: Operator, a: Cell, b: Cell)
    requires Operate(op, a, b).Some?
    ensures var r := Operate(op, a, b).value;
      && (op == OpAdd ==> Stands(r, a + b))
      && (op == OpSub ==> Stands(r, a - b))
      && (op == OpMul ==> Stands(r, a * b))
      && (op == OpDiv ==> IsQuotient(a, b, r))
      && (op == OpMod ==> IsRemainder(a, b, r))
      && (op == OpShl ==> IsShiftedLeft(a, b, r))
      && (op == OpShr ==> IsShiftedRight(a, b, r))
      && (op == OpAnd ==> forall i: nat :: i < 64 ==> (Bit(r, i) <==> Bit(a, i) && Bit(b, i)))
      && (op == OpOr ==> forall i: nat :: i < 64 ==> (Bit(r, i) <==> Bit(a, i) || Bit(b, i)))
      && (op == OpXor ==> forall i: nat :: i < 64 ==> (Bit(r, i) <==> Bit(a, i) != Bit(b, i)))
      && (op == OpEq ==> r == if a == b then 1 else 0)
      && (op == OpNotEq ==> r == if a == b then 0 else 1)
      && (op == OpLt ==> r == if a < b then 1 else 0)
      && (op == OpLtEq ==> r == if a <= b then 1 else 0)
      && (op == OpGt ==> r == if b < a then 1 else 0)
      && (op == OpGtEq ==> r == if b <= a then 1 else 0)
      && (op == OpAndAnd ==> r == if a == 0 || b == 0 then 0 else 1)
      && (op == OpOrOr ==> r == if a == 0 && b == 0 then 0 else 1)
  {
    hide Wrap, Stands, Bit, OnCells, Quotient, Remainder, ShiftLeft, ShiftRight;
    match op
    case OpAdd => WrapStands(a + b);
    case OpSub => WrapStands(a - b);
    case OpMul => WrapStands(a * b);
    case OpDiv => Truncates(a, b);
    case OpMod => Truncates(a, b);
    case OpShl => ShiftFacts(a, b);
    case OpShr => ShiftFacts(a, b);
    case OpAnd => forall i: nat | i < 64 ensures Bit(OnCells(op, a, b), i) <==> Bit(a, i) && Bit(b, i) { EachBit(op, a, b, i); }
    case OpOr => forall i: nat | i < 64 ensures Bit(OnCells(op, a, b), i) <==> Bit(a, i) || Bit(b, i) { EachBit(op, a, b, i); }
    case OpXor => forall i: nat | i < 64 ensures Bit(OnCells(op, a, b), i) <==> Bit(a, i) != Bit(b, i) { EachBit(op, a, b, i); }
    case _ =>
  }

  /** The quotient, rounded towards zero; the least cell by -1 stays the least cell. */
  ghost predicate IsQuotient(a: Cell, b: Cell, q: Cell) {
    if a == -0x8000_0000_0000_0000 && b == -1 then q == a else exists r :: Divides(a, b, q, r)
  }

  ghost predicate IsRemainder(a: Cell, b: Cell, r: Cell) {
    if a == -0x8000_0000_0000_0000 && b == -1 then r == 0 else exists q :: Divides(a, b, q, r)
  }

  /** A product with a power of two, as far as 64 bits go. */
  predicate IsShiftedLeft(a: Cell, b: Cell, r: Cell) {
    if 0 <= b < 64 then Stands(r, a * Pow2(b)) else r == 0
  }

  /** The quotient by a power of two, rounded down. */
  predicate IsShiftedRight(a: Cell, b: Cell, r: Cell) {
    if 0 <= b < 64 then r * Pow2(b) <= a < (r + 1) * Pow2(b) else r == if a < 0 then -1 else 0
  }

  lemma {:induction false} SignLaws(op: Sign, a: Cell)
    ensures var r := OperateSign(op, a);
      && (op == OpPlus ==> r == a)
      && (op == OpMinus ==> Stands(r, 0 - a))
      && (op == OpNot ==> r == if a == 0 then 1 else 0)
      && (op == OpComplement ==> forall i: nat :: i < 64 ==> (Bit(r, i) <==> !Bit(a, i)))
  {
    hide Wrap, Stands, Bit;
    match op
    case OpMinus => WrapStands(0 - a);
    case OpComplement => forall i: nat | i < 64 ensures Bit(OperateSign(op, a), i) <==> !Bit(a, i) { ComplementBit(a, i); }
    case _ =>
  }
}
