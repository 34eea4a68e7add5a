/** What every ALU instruction computes, as pure functions shared by the machine and by the
    constant folder, and what their results mean as integers. */
module Alu {
  import opened Words
  import opened Bits
  import opened Isa

  datatype AluError = DivisionByZero | NotArithmetic

  datatype AluResult = AluResult(value: u64, flags: u64, writesValue: bool, writesFlags: bool)

  const FLAGS_MASK: u64 := 15

  /** ZF, SF, CF and OF are bits 0 to 3 of FLAGS. */
  predicate ZeroFlag(flags: u64) { flags % 2 == 1 }
  predicate SignFlag(flags: u64) { (flags / 2) % 2 == 1 }
  predicate CarryFlag(flags: u64) { (flags / 4) % 2 == 1 }
  predicate OverflowFlag(flags: u64) { (flags / 8) % 2 == 1 }

  /** The FLAGS word with the given bits set; the four flags are distinct powers of two. */
  function FlagWord(zero: bool, sign: bool, carry: bool, overflow: bool): (f: u64)
    ensures f <= FLAGS_MASK
    ensures ZeroFlag(f) == zero && SignFlag(f) == sign && CarryFlag(f) == carry && OverflowFlag(f) == overflow
  {
    (if zero then 1 else 0) + (if sign then 2 else 0) + (if carry then 4 else 0) + (if overflow then 8 else 0)
  }

  predicate TopBit(x: u64) {
    Shr64(x, 63) != 0
  }

  function ComputeFlags(result: u64, a: u64, b: u64, isSubtraction: bool): u64 {
    if isSubtraction then
      FlagWord(result == 0, TopBit(result), a < b, TopBitOfAnd(Word(Xor, a, b), Word(Xor, a, result)))
    else
      FlagWord(result == 0, TopBit(result), result < a,
               TopBitOfAnd(TWO64 - 1 - Word(Xor, a, b), Word(Xor, a, result)))
  }

  /** A bitwise operation on two 64-bit words. */
  function Word(op: BitOp, a: u64, b: u64): (r: u64)
    ensures r == Bitwise(op, a, b)
  {
    Pow2Values();
    BitwiseBound(op, a, b, 64);
    Bitwise(op, a, b)
  }

  predicate TopBitOfAnd(a: u64, b: u64) {
    TopBit(Word(And, a, b))
  }

  function Logical(result: u64): AluResult {
    AluResult(result, FlagWord(result == 0, TopBit(result), false, false), true, true)
  }

  /** C++ `/` and `%` on signed words: truncation toward zero. */
  function TruncDiv(a: int, b: int): int
    requires b != 0
  {
    var q := Abs(a) / Abs(b);
    if (a < 0) == (b < 0) then q else -q
  }

  function TruncMod(a: int, b: int): int
    requires b != 0
  {
    var r := Abs(a) % Abs(b);
    if a < 0 then -r else r
  }

  function Abs(x: int): nat { if x < 0 then -x else x }

  function DivideWords(a: u64, b: u64): u64
    requires b != 0
  {
    var lhs, rhs := ToI64(a), ToI64(b);
    if rhs == -1 then Wrap(TWO64 - 1 - a + 1) else Wrap(TruncDiv(lhs, rhs))
  }

  function ModuloWords(a: u64, b: u64): u64
    requires b != 0
  {
    var lhs, rhs := ToI64(a), ToI64(b);
    if rhs == -1 then 0 else Wrap(TruncMod(lhs, rhs))
  }

  function Multiply(a: u64, b: u64): AluResult {
    var r := Wrap(a * b);
    AluResult(r, FlagWord(r == 0, TopBit(r), a != 0 && r / a != b, false), true, true)
  }

  /** The arithmetic right shift, assembled from unsigned operations. */
  function ShiftArithmetic(a: u64, count: nat): u64
    requires count < 64
  {
    if count == 0 then a
    else Word(Or, Shr64(a, count), if TopBit(a) then Shl64(TWO64 - 1, 64 - count) else 0)
  }

  function ShiftCount(b: u64): (count: nat)
    ensures count < 64
  {
    AndMask(b, 6);
    LowBound(b, 6);
    assert Pow2(6) == 64;
    BitAnd(b, 63)
  }

  function ShiftLeft(a: u64, count: nat): u64 {
    if count == 0 then a else Shl64(a, count)
  }

  function Shifted(r: u64, carry: bool): AluResult {
    AluResult(r, FlagWord(r == 0, TopBit(r), carry, false), true, true)
  }

  /** Carry of a right shift: the last bit shifted out. */
  predicate LastBitOutRight(a: u64, count: nat) {
    count != 0 && Shr64(a, count - 1) % 2 != 0
  }

  function EvaluateBinary(op: Opcode, a: u64, b: u64): Result<AluResult, AluError> {
    match op
    case ADD => var r := Wrap(a + b); Ok(AluResult(r, ComputeFlags(r, a, b, false), true, true))
    case SUB => var r := Wrap(a - b); Ok(AluResult(r, ComputeFlags(r, a, b, true), true, true))
    case MUL => Ok(Multiply(a, b))
    case DIV =>
      if b == 0 then Err(DivisionByZero) else Ok(Logical(DivideWords(a, b)))
    case MOD =>
      if b == 0 then Err(DivisionByZero) else Ok(Logical(ModuloWords(a, b)))
    case AND => Ok(Logical(Word(And, a, b)))
    case OR => Ok(Logical(Word(Or, a, b)))
    case XOR => Ok(Logical(Word(Xor, a, b)))
    case SHL =>
      var count := ShiftCount(b);
      Ok(Shifted(ShiftLeft(a, count), count != 0 && Shr64(a, 64 - count) % 2 != 0))
    case SHR =>
      var count := ShiftCount(b);
      Ok(Shifted(if count == 0 then a else Shr64(a, count), LastBitOutRight(a, count)))
    case SAR =>
      var count := ShiftCount(b);
      Ok(Shifted(ShiftArithmetic(a, count), LastBitOutRight(a, count)))
    case CMP => var r := Wrap(a - b); Ok(AluResult(a, ComputeFlags(r, a, b, true), false, true))
    case TEST => var r := Word(And, a, b); Ok(AluResult(a, FlagWord(r == 0, TopBit(r), false, false), false, true))
    case _ => Err(NotArithmetic)
  }

  function EvaluateUnary(op: Opcode, a: u64): Result<AluResult, AluError> {
    match op
    case INC => var r := Wrap(a + 1); Ok(AluResult(r, ComputeFlags(r, a, 1, false), true, true))
    case DEC => var r := Wrap(a - 1); Ok(AluResult(r, ComputeFlags(r, a, 1, true), true, true))
    case NEG => var r := Wrap(TWO64 - 1 - a + 1); Ok(AluResult(r, ComputeFlags(r, 0, a, true), true, true))
    case NOT => Ok(AluResult(TWO64 - 1 - a, 0, true, false))
    case _ => Err(NotArithmetic)
  }

  predicate BranchTaken(op: Opcode, flags: u64) {
    var zero := ZeroFlag(flags);
    var sign := SignFlag(flags);
    var overflow := OverflowFlag(flags);
    match op
    case JMP | CALL => true
    case JE => zero
    case JNE => !zero
    case JG => !zero && sign == overflow
    case JL => sign != overflow
    case JGE => sign == overflow
    case JLE => zero || sign != overflow
    case _ => false
  }

  // ----- the integer meaning of the results -----

  lemma TopBitIsNegative(x: u64)
    ensures TopBit(x) <==> x >= TWO63
    ensures TopBit(x) <==> ToI64(x) < 0
    ensures High(x, 63) == if TopBit(x) then 1 else 0
  {
    Pow2Values();
    HighLowUnique(if x < TWO63 then 0 else 1, if x < TWO63 then x else x - TWO63, 63);
  }

  lemma BitwiseOnBit(op: BitOp, x: nat, y: nat)
    requires x < 2 && y < 2
    ensures Bitwise(op, x, y) == OnBit(op, x, y)
  {
    assert Bitwise(op, 0, 0) == 0;
  }

  lemma TopBitOfBitwise(op: BitOp, a: u64, b: u64)
    ensures TopBit(Word(op, a, b)) <==> OnBit(op, if TopBit(a) then 1 else 0, if TopBit(b) then 1 else 0) == 1
  {
    BitwiseHigh(op, a, b, 63);
    TopBitIsNegative(a);
    TopBitIsNegative(b);
    TopBitIsNegative(Word(op, a, b));
    BitwiseOnBit(op, High(a, 63), High(b, 63));
  }

  lemma TopBitOfComplement(x: u64)
    ensures TopBit(TWO64 - 1 - x) <==> !TopBit(x)
  {
    TopBitIsNegative(x);
    TopBitIsNegative(TWO64 - 1 - x);
  }

  /** The two overflow formulas of `computeFlags`, read on sign bits. */
  lemma OverflowBits(a: u64, b: u64, r: u64)
    ensures OverflowFlag(ComputeFlags(r, a, b, true)) <==> TopBit(a) != TopBit(b) && TopBit(a) != TopBit(r)
    ensures OverflowFlag(ComputeFlags(r, a, b, false)) <==> TopBit(a) == TopBit(b) && TopBit(a) != TopBit(r)
  {
    var x, y := Word(Xor, a, b), Word(Xor, a, r);
    TopBitOfBitwise(Xor, a, b);
    TopBitOfBitwise(Xor, a, r);
    TopBitOfBitwise(And, x, y);
    TopBitOfComplement(x);
    TopBitOfBitwise(And, TWO64 - 1 - x, y);
  }

  /** OF after a subtraction: the true signed difference does not fit 64 bits.
      OF after an addition: the true signed sum does not fit; CF: the unsigned sum does not. */
  lemma OverflowMeansSignedOverflow(a: u64, b: u64)
    ensures OverflowFlag(ComputeFlags(Wrap(a - b), a, b, true)) <==> !(-TWO63 <= ToI64(a) - ToI64(b) < TWO63)
    ensures OverflowFlag(ComputeFlags(Wrap(a + b), a, b, false)) <==> !(-TWO63 <= ToI64(a) + ToI64(b) < TWO63)
    ensures CarryFlag(ComputeFlags(Wrap(a + b), a, b, false)) <==> a + b >= TWO64
  {
    SubtractOverflow(a, b);
    AddOverflow(a, b);
  }

  lemma SubtractOverflow(a: u64, b: u64)
    ensures OverflowFlag(ComputeFlags(Wrap(a - b), a, b, true)) <==> !(-TWO63 <= ToI64(a) - ToI64(b) < TWO63)
  {
    OverflowBits(a, b, Wrap(a - b));
    TopBitIsNegative(a);
    TopBitIsNegative(b);
    TopBitIsNegative(Wrap(a - b));
  }

  lemma AddOverflow(a: u64, b: u64)
    ensures OverflowFlag(ComputeFlags(Wrap(a + b), a, b, false)) <==> !(-TWO63 <= ToI64(a) + ToI64(b) < TWO63)
    ensures CarryFlag(ComputeFlags(Wrap(a + b), a, b, false)) <==> a + b >= TWO64
  {
    OverflowBits(a, b, Wrap(a + b));
    TopBitIsNegative(a);
    TopBitIsNegative(b);
    TopBitIsNegative(Wrap(a + b));
  }

  /** After `CMP a, b` the six conditional branches decide the signed 64-bit order. */
  lemma CompareThenBranch(a: u64, b: u64, f: u64)
    requires EvaluateBinary(CMP, a, b) == Ok(AluResult(a, f, false, true))
    ensures BranchTaken(JE, f) <==> a == b
    ensures BranchTaken(JNE, f) <==> a != b
    ensures BranchTaken(JL, f) <==> ToI64(a) < ToI64(b)
    ensures BranchTaken(JLE, f) <==> ToI64(a) <= ToI64(b)
    ensures BranchTaken(JG, f) <==> ToI64(a) > ToI64(b)
    ensures BranchTaken(JGE, f) <==> ToI64(a) >= ToI64(b)
    ensures CarryFlag(f) <==> a < b
  {
    CompareFlags(a, b);
  }

  lemma CompareFlags(a: u64, b: u64)
    ensures var f := ComputeFlags(Wrap(a - b), a, b, true);
            && (ZeroFlag(f) <==> a == b)
            && (CarryFlag(f) <==> a < b)
            && ((SignFlag(f) != OverflowFlag(f)) <==> ToI64(a) < ToI64(b))
  {
    var d := Wrap(a - b);
    OverflowBits(a, b, d);
    TopBitIsNegative(a);
    TopBitIsNegative(b);
    TopBitIsNegative(d);
    assert d == if a >= b then a - b else a - b + TWO64;
  }

  /** MUL sets CF exactly when the true unsigned product needs more than 64 bits. */
  lemma MultiplyCarry(a: u64, b: u64)
    ensures EvaluateBinary(MUL, a, b).Ok?
    ensures CarryFlag(EvaluateBinary(MUL, a, b).value.flags) <==> a * b >= TWO64
  {
    var r := Wrap(a * b);
    if a != 0 {
      if a * b < TWO64 {
        assert r == a * b;
        DivModUnique(r, a, b, 0);
      } else {
        var q := r / a;
        assert r == a * q + r % a;
        assert q != b;
      }
    }
  }

  /** DIV and MOD satisfy the division law modulo 2^64 and on signed values, INT64_MIN / -1 included. */
  lemma DivisionLaw(a: u64, b: u64)
    requires b != 0
    ensures var q, r := ToI64(DivideWords(a, b)), ToI64(ModuloWords(a, b));
            && Wrap(ToI64(b) * q + r) == a
            && Abs(r) < Abs(ToI64(b))
            && (r == 0 || (r < 0) == (ToI64(a) < 0))
            && (!(ToI64(a) == -TWO63 && ToI64(b) == -1) ==> ToI64(a) == ToI64(b) * q + r)
  {
    var x, y := ToI64(a), ToI64(b);
    if y == -1 {
      assert ToI64(ModuloWords(a, b)) == 0;
    } else {
      TruncLaw(x, y);
      TruncInRange(x, y);
      WrapSigned(TruncDiv(x, y));
      WrapSigned(TruncMod(x, y));
      WrapSigned(x);
    }
  }

  lemma WrapSigned(x: int)
    requires -TWO63 <= x < TWO63
    ensures ToI64(Wrap(x)) == x
    ensures Wrap(x) == ToU64(x)
  {
  }

  lemma TruncLaw(x: int, y: int)
    requires y != 0
    ensures x == y * TruncDiv(x, y) + TruncMod(x, y)
    ensures Abs(TruncMod(x, y)) < Abs(y)
    ensures TruncMod(x, y) == 0 || (TruncMod(x, y) < 0) == (x < 0)
  {
    var n, d := Abs(x), Abs(y);
    var q := n / d;
    EuclidLaw(n, d);
    NegateProduct(d, q);
    assert y == d as int || y == -(d as int);
  }

  lemma EuclidLaw(n: nat, d: nat)
    requires d > 0
    ensures n == d * (n / d) + n % d && 0 <= n % d < d
  {
  }

  lemma NegateProduct(d: int, q: int)
    ensures (-d) * (-q) == d * q && (-d) * q == -(d * q) && d * (-q) == -(d * q)
  {
  }

  lemma TruncInRange(x: int, y: int)
    requires -TWO63 <= x < TWO63 && -TWO63 <= y < TWO63 && y != 0 && y != -1
    ensures -TWO63 <= TruncDiv(x, y) < TWO63 && -TWO63 <= TruncMod(x, y) < TWO63
  {
    var n, d := Abs(x), Abs(y);
    DivShrinks(n, d);
    TruncLaw(x, y);
    if n == TWO63 && d >= 2 {
      var q := n / d;
      assert n == d * q + n % d;
      MulGrows(d, q);
    }
  }

  lemma MulGrows(d: nat, q: nat)
    requires d >= 2
    ensures d * q >= 2 * q
  {
  }

  /** SAR is signed floor division by a power of two. */
  lemma ArithmeticShiftIsFloorDivision(a: u64, count: nat)
    requires count < 64
    ensures ToI64(ShiftArithmetic(a, count)) == ToI64(a) / Pow2(count)
  {
    TopBitIsNegative(a);
    if count == 0 {
      DivModUnique(ToI64(a), 1, ToI64(a), 0);
    } else if TopBit(a) {
      NegativeShift(a, count);
    } else {
      PositiveShift(a, count);
    }
  }

  lemma PositiveShift(a: u64, count: nat)
    requires 0 < count < 64 && !TopBit(a)
    ensures ToI64(ShiftArithmetic(a, count)) == a / Pow2(count)
  {
    TopBitIsNegative(a);
    BitwiseZero(High(a, count));
    HighShrinks(a, count);
    HighLowIsDivMod(a, count);
  }

  lemma NegativeShift(a: u64, count: nat)
    requires 0 < count < 64 && TopBit(a)
    ensures ToI64(ShiftArithmetic(a, count)) == (a - TWO64) / Pow2(count)
  {
    HighRangeOfNegative(a, count);
    SignFill(a, count);
    ShiftedParts(a, count);
    FloorByParts(a - TWO64, Pow2(count), High(a, count) - Pow2(64 - count), Low(a, count));
  }

  lemma HighRangeOfNegative(a: u64, count: nat)
    requires 0 < count < 64 && TopBit(a)
    ensures High(a, count) < Pow2(64 - count) <= 2 * High(a, count)
    ensures Pow2(64 - count) <= TWO63
  {
    TopBitIsNegative(a);
    HighRange(a, count);
    TwoPowers(count);
  }

  lemma ShiftedParts(a: u64, count: nat)
    requires 0 < count < 64
    ensures a - TWO64 == Pow2(count) * (High(a, count) - Pow2(64 - count)) + Low(a, count)
    ensures Low(a, count) < Pow2(count)
  {
    HighLowJoin(a, count);
    LowBound(a, count);
    TwoPowers(count);
    SubtractMultiple(a, TWO64, Pow2(count), High(a, count), Pow2(64 - count), Low(a, count));
  }

  lemma SubtractMultiple(a: int, b: int, p: int, h: int, n: int, l: int)
    requires a == h * p + l && n * p == b
    ensures a - b == p * (h - n) + l
  {
    MulDistribute(p, h, n);
  }

  lemma FloorByParts(x: int, p: int, q: int, l: int)
    requires 0 <= l < p && x == p * q + l
    ensures x / p == q
  {
    DivModUnique(x, p, q, l);
  }

  lemma TwoPowers(count: nat)
    requires 0 < count < 64
    ensures Pow2(64 - count) * Pow2(count) == TWO64
    ensures Pow2(63 - count) * Pow2(count) == TWO63
    ensures 2 * Pow2(63 - count) == Pow2(64 - count) <= TWO63
  {
    Pow2Values();
    Pow2Add(64 - count, count);
    Pow2Add(63 - count, count);
    Pow2Monotone(64 - count, 63);
  }

  /** The sign fill of SAR: ones above, the shifted word below. */
  lemma SignFill(a: u64, count: nat)
    requires 0 < count < 64 && TopBit(a)
    requires High(a, count) < Pow2(64 - count)
    ensures ShiftArithmetic(a, count) == TWO64 - Pow2(64 - count) + High(a, count)
  {
    ShiftedOnes(count);
    OnesAbove(count);
    OrDisjoint(Pow2(count) - 1, High(a, count), 64 - count);
    OrSwap(High(a, count), TWO64 - Pow2(64 - count));
  }

  lemma OnesAbove(count: nat)
    requires 0 < count < 64
    ensures (Pow2(count) - 1) * Pow2(64 - count) == TWO64 - Pow2(64 - count)
  {
    TwoPowers(count);
    MulDistribute(Pow2(64 - count), Pow2(count), 1);
  }

  /** A word with its top bit set keeps the upper half of the shifted range. */
  lemma HighRange(a: u64, count: nat)
    requires 0 < count < 64 && a >= TWO63
    ensures Pow2(63 - count) <= High(a, count) < Pow2(64 - count)
  {
    HighLowJoin(a, count);
    LowBound(a, count);
    TwoPowers(count);
    QuotientBound(High(a, count), Low(a, count), Pow2(count), Pow2(64 - count));
    QuotientBound(High(a, count), Low(a, count), Pow2(count), Pow2(63 - count));
  }

  lemma QuotientBound(h: nat, l: nat, p: nat, m: nat)
    requires l < p
    ensures h * p + l >= m * p <==> h >= m
  {
    if h >= m {
      MulMonotone(m, h, p);
    } else {
      MulMonotone(h + 1, m, p);
      MulDistribute(p, h, -1);
    }
  }

  lemma MulMonotone(x: nat, y: nat, p: nat)
    requires x <= y
    ensures x * p <= y * p
  {
  }

  lemma {:induction false} OrSwap(a: nat, b: nat)
    ensures BitOr(a, b) == BitOr(b, a)
    decreases a + b
  {
    if a != 0 || b != 0 {
      OrSwap(a / 2, b / 2);
    }
  }

  /** `~0 << (64 - count)` sets exactly the top `count` bits. */
  lemma ShiftedOnes(count: nat)
    requires 0 < count < 64
    ensures Shl64(TWO64 - 1, 64 - count) == TWO64 - Pow2(64 - count)
  {
    var n := Pow2(64 - count);
    TwoPowers(count);
    assert (TWO64 - 1) * n == TWO64 * (n - 1) + (TWO64 - n);
    DivModUnique((TWO64 - 1) * n, TWO64, n - 1, TWO64 - n);
  }

  /** The shift count of SHL, SHR and SAR is the low six bits of the source. */
  lemma ShiftCountIsLowSixBits(b: u64)
    ensures ShiftCount(b) == b % 64
  {
    AndMask(b, 6);
    HighLowIsDivMod(b, 6);
    assert Pow2(6) == 64;
  }

  /** No ALU operation produces a FLAGS bit outside the architectural four. */
  lemma FlagsStayInMask(op: Opcode, a: u64, b: u64)
    ensures EvaluateBinary(op, a, b).Ok? ==> EvaluateBinary(op, a, b).value.flags <= FLAGS_MASK
    ensures EvaluateUnary(op, a).Ok? ==> EvaluateUnary(op, a).value.flags <= FLAGS_MASK
  {
  }
}
