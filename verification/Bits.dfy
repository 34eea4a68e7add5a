/** Bitwise `&`, `|` and `^` on natural numbers, digit by digit in base two, and the few
    laws that the instruction codec, the flags and the shifts rest on. */
module Bits {
  import opened Words

  datatype BitOp = And | Or | Xor

  function OnBit(op: BitOp, x: nat, y: nat): nat
    requires x < 2 && y < 2
  {
    match op
    case And => if x == 1 && y == 1 then 1 else 0
    case Or => if x == 1 || y == 1 then 1 else 0
    case Xor => if x == y then 0 else 1
  }

  function Bitwise(op: BitOp, a: nat, b: nat): nat
    decreases a + b
  {
    if a == 0 && b == 0 then 0
    else 2 * Bitwise(op, a / 2, b / 2) + OnBit(op, a % 2, b % 2)
  }

  function BitAnd(a: nat, b: nat): nat { Bitwise(And, a, b) }
  function BitOr(a: nat, b: nat): nat { Bitwise(Or, a, b) }
  function BitXor(a: nat, b: nat): nat { Bitwise(Xor, a, b) }

  function Shl64(a: u64, count: nat): u64 { Wrap(a * Pow2(count)) }
  function Shr64(a: u64, count: nat): u64 {
    HighShrinks(a, count);
    High(a, count)
  }

  lemma DivShrinks(a: nat, d: nat)
    requires d > 0
    ensures 0 <= a / d <= a
  {
    var q := a / d;
    assert a == d * q + a % d;
    MulAtLeast(d, q);
  }

  lemma MulAtLeast(d: nat, k: nat)
    requires d > 0
    ensures d * k >= k
    ensures k > 0 ==> d * k >= d
  {
  }

  /** The bits of `a` from position k upwards, and the k bits below. */
  function High(a: nat, k: nat): nat
    decreases k, a
  {
    if k == 0 then a else High(a / 2, k - 1)
  }

  function Low(a: nat, k: nat): nat
    decreases k, a
  {
    if k == 0 then 0 else 2 * Low(a / 2, k - 1) + a % 2
  }

  lemma {:induction false} HighShrinks(a: nat, k: nat)
    ensures High(a, k) <= a
  {
    if k > 0 {
      HighShrinks(a / 2, k - 1);
    }
  }

  lemma {:induction false} LowBound(a: nat, k: nat)
    ensures Low(a, k) < Pow2(k)
  {
    if k > 0 {
      LowBound(a / 2, k - 1);
    }
  }

  lemma {:induction false} HighLowJoin(a: nat, k: nat)
    ensures a == High(a, k) * Pow2(k) + Low(a, k)
  {
    if k > 0 {
      HighLowJoin(a / 2, k - 1);
      Regroup(High(a, k), Pow2(k - 1), Low(a / 2, k - 1));
    }
  }

  lemma HighLowUnique(x: nat, y: nat, k: nat)
    requires y < Pow2(k)
    ensures High(x * Pow2(k) + y, k) == x && Low(x * Pow2(k) + y, k) == y
  {
    var a := x * Pow2(k) + y;
    HighLowJoin(a, k);
    LowBound(a, k);
    QuotientUnique(Pow2(k), x, y, High(a, k), Low(a, k));
  }

  /** Shifting right and masking are the division and the remainder by a power of two. */
  lemma HighLowIsDivMod(a: nat, k: nat)
    ensures High(a, k) == a / Pow2(k) && Low(a, k) == a % Pow2(k)
  {
    HighLowJoin(a, k);
    LowBound(a, k);
    Commute(High(a, k), Pow2(k));
    DivModUnique(a, Pow2(k), High(a, k), Low(a, k));
  }

  lemma Commute(x: int, y: int)
    ensures x * y == y * x
  {
  }

  lemma DivModUnique(a: int, d: int, q: int, r: int)
    requires d > 0 && 0 <= r < d && a == d * q + r
    ensures a / d == q && a % d == r
  {
    var q', r' := a / d, a % d;
    QuotientUnique(d, q, r, q', r');
  }

  lemma QuotientUnique(d: int, q: int, r: int, q': int, r': int)
    requires d > 0 && 0 <= r < d && 0 <= r' < d
    requires d * q + r == d * q' + r'
    ensures q == q' && r == r'
  {
    MulDistribute(d, q, q');
    if q > q' {
      MulAtLeast(d, q - q');
    } else if q < q' {
      MulDistribute(d, q', q);
      MulAtLeast(d, q' - q);
    }
  }

  lemma MulDistribute(d: int, x: int, y: int)
    ensures d * (x - y) == d * x - d * y
  {
  }

  lemma BitwiseStep(op: BitOp, a: nat, b: nat)
    ensures Bitwise(op, a, b) / 2 == Bitwise(op, a / 2, b / 2)
    ensures Bitwise(op, a, b) % 2 == OnBit(op, a % 2, b % 2)
  {
  }

  /** A bitwise operation works on the high part and on the low part separately. */
  lemma {:induction false} BitwiseHigh(op: BitOp, a: nat, b: nat, k: nat)
    ensures High(Bitwise(op, a, b), k) == Bitwise(op, High(a, k), High(b, k))
  {
    if k > 0 {
      BitwiseStep(op, a, b);
      BitwiseHigh(op, a / 2, b / 2, k - 1);
    }
  }

  lemma {:induction false} BitwiseLow(op: BitOp, a: nat, b: nat, k: nat)
    ensures Low(Bitwise(op, a, b), k) == Bitwise(op, Low(a, k), Low(b, k))
  {
    if k > 0 {
      BitwiseStep(op, a, b);
      BitwiseLow(op, a / 2, b / 2, k - 1);
      BitwiseDouble(op, Low(a / 2, k - 1), Low(b / 2, k - 1), a % 2, b % 2);
    }
  }

  /** A bitwise result, put together from the parts of its operands. */
  lemma BitwiseParts(op: BitOp, a: nat, b: nat, x: nat, y: nat, i: nat, j: nat, k: nat)
    requires High(a, k) == x && Low(a, k) == i && High(b, k) == y && Low(b, k) == j
    ensures Bitwise(op, a, b) == Bitwise(op, x, y) * Pow2(k) + Bitwise(op, i, j)
  {
    BitwiseHigh(op, a, b, k);
    BitwiseLow(op, a, b, k);
    HighLowJoin(Bitwise(op, a, b), k);
  }

  lemma SmallParts(y: nat, k: nat)
    requires y < Pow2(k)
    ensures High(y, k) == 0 && Low(y, k) == y
    ensures High(y + Pow2(k), k) == 1 && Low(y + Pow2(k), k) == y
  {
    HighLowUnique(0, y, k);
    HighLowUnique(1, y, k);
  }

  lemma BitwiseDouble(op: BitOp, x: nat, y: nat, i: nat, j: nat)
    requires i < 2 && j < 2
    ensures Bitwise(op, 2 * x + i, 2 * y + j) == 2 * Bitwise(op, x, y) + OnBit(op, i, j)
  {
    var a, b := 2 * x + i, 2 * y + j;
    assert a / 2 == x && b / 2 == y && a % 2 == i && b % 2 == j;
    BitwiseStep(op, a, b);
  }

  lemma Regroup(high: int, d: int, low: int)
    ensures 2 * (high * d + low) == high * (2 * d) + 2 * low
  {
  }

  lemma {:induction false} BitwiseBound(op: BitOp, a: nat, b: nat, k: nat)
    requires a < Pow2(k) && b < Pow2(k)
    ensures Bitwise(op, a, b) < Pow2(k)
  {
    if k > 0 {
      BitwiseBound(op, a / 2, b / 2, k - 1);
    }
  }

  lemma {:induction false} BitwiseZero(a: nat)
    ensures BitAnd(a, 0) == 0 && BitAnd(0, a) == 0
    ensures BitOr(a, 0) == a && BitOr(0, a) == a
    ensures BitXor(a, 0) == a && BitXor(0, a) == a
  {
    if a > 0 {
      BitwiseZero(a / 2);
    }
  }

  /** `x & (2^k - 1)` keeps the low k bits. */
  lemma {:induction false} AndMask(a: nat, k: nat)
    ensures BitAnd(a, Pow2(k) - 1) == Low(a, k)
  {
    if k == 0 {
      BitwiseZero(a);
    } else {
      AndMask(a / 2, k - 1);
      var m := Pow2(k) - 1;
      assert m / 2 == Pow2(k - 1) - 1 && m % 2 == 1;
      BitwiseStep(And, a, m);
    }
  }

  /** `|` of a multiple of 2^k and a number below 2^k is their sum. */
  lemma OrDisjoint(x: nat, y: nat, k: nat)
    requires y < Pow2(k)
    ensures BitOr(x * Pow2(k), y) == x * Pow2(k) + y
  {
    HighLowUnique(x, 0, k);
    SmallParts(y, k);
    BitwiseParts(Or, x * Pow2(k), y, x, 0, 0, y, k);
    BitwiseZero(x);
    BitwiseZero(y);
  }

  /** Flipping the top bit of a (k+1)-bit number. */
  lemma XorTopBit(t: nat, k: nat)
    requires t < 2 * Pow2(k)
    ensures BitXor(t, Pow2(k)) == if t < Pow2(k) then t + Pow2(k) else t - Pow2(k)
  {
    hide High, Low;
    var lo := if t < Pow2(k) then t else t - Pow2(k);
    SmallParts(lo, k);
    SmallParts(0, k);
    BitwiseParts(Xor, t, Pow2(k), if t < Pow2(k) then 0 else 1, 1, lo, 0, k);
    BitwiseZero(lo);
    assert Bitwise(Xor, 0, 1) == 1 && Bitwise(Xor, 1, 1) == 0;
  }
}
