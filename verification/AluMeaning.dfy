/** What the two evaluators of the ALU compute, as integers and as bits, opcode by opcode. The machine
    and the constant folder both call them. */
module AluMeaning {
  import opened Words
  import opened Bits
  import opened Isa
  import opened Alu

  /** Two integers that differ by a multiple of 2^64. */
  ghost predicate Congruent(x: int, y: int) {
    exists k: int :: x - y == k * 0x1_0000_0000_0000_0000
  }

  lemma CongruentBy(x: int, y: int, k: int)
    requires x - y == k * 0x1_0000_0000_0000_0000
    ensures Congruent(x, y)
  {
  }

  /** Two signed words that are congruent are equal, so congruence pins a result. */
  lemma {:induction false} CongruentWordsEqual(x: int, y: int)
    requires -TWO63 <= x < TWO63 && -TWO63 <= y < TWO63 && Congruent(x, y)
    ensures x == y
  {
  }

  predicate InSigned64(x: int) { -0x8000_0000_0000_0000 <= x < 0x8000_0000_0000_0000 }

  predicate Bit(x: nat, k: nat) {
    (x / Pow2(k)) % 2 == 1
  }

  // ----- which operations succeed, and the flags that do not depend on the operation -----

  /** The thirteen binary opcodes evaluate, and only a division by zero fails. */
  lemma BinarySucceeds(op: Opcode, a: u64, b: u64)
    ensures EvaluateBinary(op, a, b).Ok? <==> IsBinaryAlu(op) && !((op.DIV? || op.MOD?) && b == 0)
    ensures EvaluateBinary(op, a, b) == Err(DivisionByZero) <==> (op.DIV? || op.MOD?) && b == 0
  {
    hide Word, Wrap, ShiftCount, ShiftLeft, Shr64, ComputeFlags, FlagWord, DivideWords, ModuloWords, TopBit, Logical,
         Shifted, Multiply, ShiftArithmetic;
  }

  /** The four unary opcodes always evaluate. */
  lemma UnarySucceeds(op: Opcode, a: u64)
    ensures EvaluateUnary(op, a).Ok? <==> IsUnaryAlu(op)
    ensures EvaluateUnary(op, a) == Err(NotArithmetic) <==> !IsUnaryAlu(op)
  {
    hide Wrap, ComputeFlags;
  }

  /** CF and OF are bits 2 and 3 of FLAGS. */
  predicate Carry(flags: u64) { flags % 8 >= 4 }
  predicate Overflow(flags: u64) { flags % 16 >= 8 }

  /** ZF and SF, bits 0 and 1, of a result: it is zero, it is negative when read as signed. */
  predicate ZeroAndSign(flags: u64, value: u64) {
    (flags % 2 == 1 <==> value == 0) && (flags % 4 >= 2 <==> ToI64(value) < 0)
  }

  lemma FlagWordMeans(flags: u64, value: u64, carry: bool, overflow: bool)
    requires flags == FlagWord(value == 0, TopBit(value), carry, overflow)
    ensures ZeroAndSign(flags, value) && (Carry(flags) <==> carry) && (Overflow(flags) <==> overflow)
  {
    TopBitIsNegative(value);
    hide TopBit;
  }

  lemma FlagBitsAgree(f: u64)
    requires f <= FLAGS_MASK
    ensures (Carry(f) <==> CarryFlag(f)) && (Overflow(f) <==> OverflowFlag(f))
  {
  }

  lemma ComputedFlagsMean(r: u64, a: u64, b: u64, isSubtraction: bool)
    ensures var f := ComputeFlags(r, a, b, isSubtraction);
            && ZeroAndSign(f, r)
            && (Carry(f) <==> CarryFlag(f)) && (Overflow(f) <==> OverflowFlag(f))
  {
    hide Word, TopBitOfAnd, FlagWord, TopBit, ZeroAndSign, Carry, Overflow, CarryFlag, OverflowFlag;
    FlagBitsAgree(ComputeFlags(r, a, b, isSubtraction));
    if isSubtraction {
      FlagWordMeans(ComputeFlags(r, a, b, true), r, a < b, TopBitOfAnd(Word(Xor, a, b), Word(Xor, a, r)));
    } else {
      FlagWordMeans(ComputeFlags(r, a, b, false), r, r < a, TopBitOfAnd(TWO64 - 1 - Word(Xor, a, b), Word(Xor, a, r)));
    }
  }

  // ----- addition and subtraction -----

  /** ADD: the sum modulo 2^64, exact on signed words unless OF, exact on unsigned words unless CF. */
  lemma AddMeans(a: u64, b: u64)
    ensures EvaluateBinary(ADD, a, b).Ok?
    ensures var r := EvaluateBinary(ADD, a, b).value;
            && r.writesValue && r.writesFlags
            && r.value == (if a + b < TWO64 then a + b else a + b - TWO64)
            && Congruent(ToI64(r.value), ToI64(a) + ToI64(b))
            && ZeroAndSign(r.flags, r.value)
            && (Carry(r.flags) <==> a + b >= TWO64)
            && (Overflow(r.flags) <==> !InSigned64(ToI64(a) + ToI64(b)))
            && (!Overflow(r.flags) ==> ToI64(r.value) == ToI64(a) + ToI64(b))
  {
    var r := Wrap(a + b);
    AddOverflow(a, b);
    ComputedFlagsMean(r, a, b, false);
    hide ComputeFlags;
    CongruentBy(ToI64(r), ToI64(a) + ToI64(b), ((ToI64(r) - ToI64(a) - ToI64(b)) / TWO64));
  }

  /** SUB: the difference modulo 2^64, exact on signed words unless OF, exact on unsigned words unless CF. */
  lemma SubMeans(a: u64, b: u64)
    ensures EvaluateBinary(SUB, a, b).Ok?
    ensures var r := EvaluateBinary(SUB, a, b).value;
            && r.writesValue && r.writesFlags
            && r.value == (if a >= b then a - b else a - b + TWO64)
            && Congruent(ToI64(r.value), ToI64(a) - ToI64(b))
            && ZeroAndSign(r.flags, r.value)
            && (Carry(r.flags) <==> a < b)
            && (Overflow(r.flags) <==> !InSigned64(ToI64(a) - ToI64(b)))
            && (!Overflow(r.flags) ==> ToI64(r.value) == ToI64(a) - ToI64(b))
  {
    var r := Wrap(a - b);
    SubtractOverflow(a, b);
    CompareFlags(a, b);
    ComputedFlagsMean(r, a, b, true);
    hide ComputeFlags;
    CongruentBy(ToI64(r), ToI64(a) - ToI64(b), ((ToI64(r) - ToI64(a) + ToI64(b)) / TWO64));
  }

  /** SUB undoes ADD, and ADD undoes SUB. */
  lemma AddSubInverse(a: u64, b: u64)
    ensures EvaluateBinary(ADD, a, b).Ok? && EvaluateBinary(SUB, a, b).Ok?
    ensures var sum := EvaluateBinary(ADD, a, b).value.value;
            EvaluateBinary(SUB, sum, b).Ok? && EvaluateBinary(SUB, sum, b).value.value == a
    ensures var difference := EvaluateBinary(SUB, a, b).value.value;
            EvaluateBinary(ADD, difference, b).Ok? && EvaluateBinary(ADD, difference, b).value.value == a
  {
    hide ComputeFlags;
  }

  /** CMP: the flags of SUB and no value. */
  lemma CompareMeans(a: u64, b: u64)
    ensures EvaluateBinary(CMP, a, b).Ok?
    ensures var r := EvaluateBinary(CMP, a, b).value;
            && !r.writesValue && r.writesFlags
            && (r.flags % 2 == 1 <==> a == b)
            && (Carry(r.flags) <==> a < b)
            && (Overflow(r.flags) <==> !InSigned64(ToI64(a) - ToI64(b)))
            && ((r.flags % 4 >= 2) != Overflow(r.flags) <==> ToI64(a) < ToI64(b))
  {
    var r := Wrap(a - b);
    SubtractOverflow(a, b);
    CompareFlags(a, b);
    ComputedFlagsMean(r, a, b, true);
    TopBitIsNegative(r);
    hide ComputeFlags;
  }

  /** INC: one up. OF at the end of the signed range, CF at the end of the unsigned one. */
  lemma IncrementMeans(a: u64)
    ensures EvaluateUnary(INC, a).Ok?
    ensures var r := EvaluateUnary(INC, a).value;
            && r.writesValue && r.writesFlags
            && r.value == (if a == TWO64 - 1 then 0 else a + 1)
            && ZeroAndSign(r.flags, r.value)
            && (Carry(r.flags) <==> a == TWO64 - 1)
            && (Overflow(r.flags) <==> ToI64(a) == TWO63 - 1)
  {
    AddOverflow(a, 1);
    ComputedFlagsMean(Wrap(a + 1), a, 1, false);
    hide ComputeFlags;
  }

  /** DEC: one down. OF at the start of the signed range, CF at the start of the unsigned one. */
  lemma DecrementMeans(a: u64)
    ensures EvaluateUnary(DEC, a).Ok?
    ensures var r := EvaluateUnary(DEC, a).value;
            && r.writesValue && r.writesFlags
            && r.value == (if a == 0 then TWO64 - 1 else a - 1)
            && ZeroAndSign(r.flags, r.value)
            && (Carry(r.flags) <==> a == 0)
            && (Overflow(r.flags) <==> ToI64(a) == -TWO63)
  {
    SubtractOverflow(a, 1);
    CompareFlags(a, 1);
    ComputedFlagsMean(Wrap(a - 1), a, 1, true);
    hide ComputeFlags;
  }

  /** NEG: the negative modulo 2^64; CF unless the operand is zero, OF only for INT64_MIN. */
  lemma NegateMeans(a: u64)
    ensures EvaluateUnary(NEG, a).Ok?
    ensures var r := EvaluateUnary(NEG, a).value;
            && r.writesValue && r.writesFlags
            && r.value == (if a == 0 then 0 else TWO64 - a)
            && (ToI64(a) != -TWO63 ==> ToI64(r.value) == -ToI64(a))
            && ZeroAndSign(r.flags, r.value)
            && (Carry(r.flags) <==> a != 0)
            && (Overflow(r.flags) <==> ToI64(a) == -TWO63)
  {
    assert Wrap(TWO64 - 1 - a + 1) == Wrap(0 - a);
    SubtractOverflow(0, a);
    CompareFlags(0, a);
    ComputedFlagsMean(Wrap(0 - a), 0, a, true);
    hide ComputeFlags;
  }

  // ----- multiplication and division -----

  lemma SignedProduct(a: u64, b: u64)
    ensures Congruent(a * b, ToI64(a) * ToI64(b))
  {
    var x, y := ToI64(a), ToI64(b);
    var i, j := if a < TWO63 then 0 else 1, if b < TWO63 then 0 else 1;
    assert a == x + i * TWO64 && b == y + j * TWO64;
    ProductExpands(x, i, y, j);
    CongruentBy(a * b, x * y, x * j + i * y + i * j * TWO64);
  }

  lemma ProductExpands(x: int, i: int, y: int, j: int)
    requires 0 <= i <= 1 && 0 <= j <= 1
    ensures (x + i * TWO64) * (y + j * TWO64) == x * y + (x * j + i * y + i * j * TWO64) * TWO64
  {
  }

  lemma CongruentTrans(x: int, y: int, z: int)
    requires Congruent(x, y) && Congruent(y, z)
    ensures Congruent(x, z)
  {
    var i: int :| x - y == i * 0x1_0000_0000_0000_0000;
    var j: int :| y - z == j * 0x1_0000_0000_0000_0000;
    CongruentBy(x, z, i + j);
  }

  lemma WrapCongruent(x: int)
    ensures Congruent(ToI64(Wrap(x)), x)
  {
    var q := x / TWO64;
    assert x == TWO64 * q + Wrap(x);
    CongruentBy(ToI64(Wrap(x)), x, if Wrap(x) < TWO63 then -q else -q - 1);
  }

  /** MUL: the low 64 bits of the product, signed or unsigned; CF when the unsigned product is longer. */
  lemma MultiplyMeans(a: u64, b: u64)
    ensures EvaluateBinary(MUL, a, b).Ok?
    ensures var r := EvaluateBinary(MUL, a, b).value;
            && r.writesValue && r.writesFlags
            && r.value == (a * b) % 0x1_0000_0000_0000_0000
            && Congruent(ToI64(r.value), ToI64(a) * ToI64(b))
            && ZeroAndSign(r.flags, r.value)
            && (Carry(r.flags) <==> a * b >= TWO64)
            && !Overflow(r.flags)
  {
    var r := Wrap(a * b);
    MultiplyCarry(a, b);
    FlagWordMeans(Multiply(a, b).flags, r, a != 0 && r / a != b, false);
    SignedProduct(a, b);
    WrapCongruent(a * b);
    CongruentTrans(ToI64(r), a * b, ToI64(a) * ToI64(b));
    hide FlagWord;
  }

  /** DIV and MOD: quotient and remainder of signed division, rounded toward zero, modulo 2^64. */
  lemma DivideMeans(a: u64, b: u64)
    requires b != 0
    ensures EvaluateBinary(DIV, a, b).Ok? && EvaluateBinary(MOD, a, b).Ok?
    ensures var d, m := EvaluateBinary(DIV, a, b).value, EvaluateBinary(MOD, a, b).value;
            var q, r := ToI64(d.value), ToI64(m.value);
            && d.writesValue && d.writesFlags && m.writesValue && m.writesFlags
            && Congruent(ToI64(b) * q + r, ToI64(a))
            && (!(ToI64(a) == -TWO63 && ToI64(b) == -1) ==> ToI64(a) == ToI64(b) * q + r)
            && Abs(r) < Abs(ToI64(b))
            && (r == 0 || (r < 0) == (ToI64(a) < 0))
            && ZeroAndSign(d.flags, d.value) && !Carry(d.flags) && !Overflow(d.flags)
            && ZeroAndSign(m.flags, m.value) && !Carry(m.flags) && !Overflow(m.flags)
  {
    DivisionLaw(a, b);
    var x, y := DivideWords(a, b), ModuloWords(a, b);
    FlagWordMeans(Logical(x).flags, x, false, false);
    FlagWordMeans(Logical(y).flags, y, false, false);
    hide FlagWord, DivideWords, ModuloWords;
    WrapCongruent(ToI64(b) * ToI64(x) + ToI64(y));
    CongruentFlip(ToI64(a), ToI64(b) * ToI64(x) + ToI64(y));
  }

  lemma CongruentFlip(x: int, y: int)
    requires Congruent(x, y)
    ensures Congruent(y, x)
  {
    var i: int :| x - y == i * 0x1_0000_0000_0000_0000;
    CongruentBy(y, x, -i);
  }

  // ----- shifts -----

  /** The carry of a shift by n: none for 0, else the last bit shifted out. */
  predicate LastOut(carry: bool, a: u64, n: nat, last: nat) {
    carry <==> n != 0 && Bit(a, last)
  }

  lemma HighIsBit(a: nat, k: nat)
    ensures High(a, k) % 2 != 0 <==> Bit(a, k)
  {
    HighLowIsDivMod(a, k);
  }

  lemma ShiftLeftIsProduct(a: u64, n: nat)
    ensures ShiftLeft(a, n) == (a * Pow2(n)) % 0x1_0000_0000_0000_0000
  {
    if n == 0 {
      assert a * Pow2(0) == a;
    }
  }

  /** SHL: multiplication by 2^n modulo 2^64, where n is b modulo 64. */
  lemma ShiftLeftMeans(a: u64, b: u64)
    ensures EvaluateBinary(SHL, a, b).Ok?
    ensures var r, n := EvaluateBinary(SHL, a, b).value, b % 64;
            && r.writesValue && r.writesFlags
            && r.value == (a * Pow2(n)) % 0x1_0000_0000_0000_0000
            && ZeroAndSign(r.flags, r.value)
            && LastOut(Carry(r.flags), a, n, 64 - n)
            && !Overflow(r.flags)
  {
    var n := ShiftCount(b);
    ShiftCountIsLowSixBits(b);
    hide ShiftCount;
    HighIsBit(a, 64 - n);
    ShiftLeftIsProduct(a, n);
    hide ShiftLeft;
    var v := ShiftLeft(a, n);
    FlagWordMeans(Shifted(v, n != 0 && Shr64(a, 64 - n) % 2 != 0).flags, v, n != 0 && Shr64(a, 64 - n) % 2 != 0, false);
    hide FlagWord, High, Bit;
  }

  /** SHR: division by 2^n. */
  lemma ShiftRightMeans(a: u64, b: u64)
    ensures EvaluateBinary(SHR, a, b).Ok?
    ensures var r, n := EvaluateBinary(SHR, a, b).value, b % 64;
            && r.writesValue && r.writesFlags
            && r.value == a / Pow2(n)
            && ZeroAndSign(r.flags, r.value)
            && LastOut(Carry(r.flags), a, n, if n == 0 then 0 else n - 1)
            && !Overflow(r.flags)
  {
    var n := ShiftCount(b);
    ShiftCountIsLowSixBits(b);
    hide ShiftCount;
    if n != 0 {
      HighIsBit(a, n - 1);
    }
    HighLowIsDivMod(a, n);
    var v := if n == 0 then a else Shr64(a, n);
    FlagWordMeans(Shifted(v, LastBitOutRight(a, n)).flags, v, LastBitOutRight(a, n), false);
    hide FlagWord, High, Bit;
  }

  /** SAR: signed division by 2^n, rounded down. */
  lemma ShiftArithmeticMeans(a: u64, b: u64)
    ensures EvaluateBinary(SAR, a, b).Ok?
    ensures var r, n := EvaluateBinary(SAR, a, b).value, b % 64;
            && r.writesValue && r.writesFlags
            && ToI64(r.value) == ToI64(a) / Pow2(n)
            && ZeroAndSign(r.flags, r.value)
            && LastOut(Carry(r.flags), a, n, if n == 0 then 0 else n - 1)
            && !Overflow(r.flags)
  {
    var n := ShiftCount(b);
    ShiftCountIsLowSixBits(b);
    hide ShiftCount;
    if n != 0 {
      HighIsBit(a, n - 1);
    }
    ArithmeticShiftIsFloorDivision(a, n);
    var v := ShiftArithmetic(a, n);
    hide ShiftArithmetic;
    FlagWordMeans(Shifted(v, LastBitOutRight(a, n)).flags, v, LastBitOutRight(a, n), false);
    hide FlagWord, High, Bit;
  }

  // ----- bitwise operations -----

  /** Bit k of a bitwise result is the operation on bits k of the operands. */
  lemma BitOfBitwise(op: BitOp, a: nat, b: nat, k: nat)
    ensures Bit(Bitwise(op, a, b), k) <==>
            match op
            case And => Bit(a, k) && Bit(b, k)
            case Or => Bit(a, k) || Bit(b, k)
            case Xor => Bit(a, k) != Bit(b, k)
  {
    BitwiseHigh(op, a, b, k);
    BitwiseStep(op, High(a, k), High(b, k));
    HighIsBit(Bitwise(op, a, b), k);
    HighIsBit(a, k);
    HighIsBit(b, k);
    hide Bitwise, Bit, High;
  }

  /** AND, OR and XOR: bit by bit. CF and OF are clear. */
  lemma LogicMeans(a: u64, b: u64)
    ensures EvaluateBinary(AND, a, b).Ok? && EvaluateBinary(OR, a, b).Ok? && EvaluateBinary(XOR, a, b).Ok?
    ensures var x, y, z := EvaluateBinary(AND, a, b).value, EvaluateBinary(OR, a, b).value, EvaluateBinary(XOR, a, b).value;
            && LogicalResult(x) && LogicalResult(y) && LogicalResult(z)
            && (forall k: nat :: Bit(x.value, k) <==> Bit(a, k) && Bit(b, k))
            && (forall k: nat :: Bit(y.value, k) <==> Bit(a, k) || Bit(b, k))
            && (forall k: nat :: Bit(z.value, k) <==> Bit(a, k) != Bit(b, k))
  {
    LogicalMeans(Word(And, a, b));
    LogicalMeans(Word(Or, a, b));
    LogicalMeans(Word(Xor, a, b));
    hide Logical, Bit, Bitwise;
    forall k: nat
      ensures Bit(Bitwise(And, a, b), k) <==> Bit(a, k) && Bit(b, k)
      ensures Bit(Bitwise(Or, a, b), k) <==> Bit(a, k) || Bit(b, k)
      ensures Bit(Bitwise(Xor, a, b), k) <==> Bit(a, k) != Bit(b, k)
    {
      BitOfBitwise(And, a, b, k);
      BitOfBitwise(Or, a, b, k);
      BitOfBitwise(Xor, a, b, k);
    }
  }

  /** A value with the flags of a logical operation. */
  predicate LogicalResult(r: AluResult) {
    r.writesValue && r.writesFlags && ZeroAndSign(r.flags, r.value) && !Carry(r.flags) && !Overflow(r.flags)
  }

  lemma LogicalMeans(x: u64)
    ensures LogicalResult(Logical(x)) && Logical(x).value == x
  {
    FlagWordMeans(Logical(x).flags, x, false, false);
    hide FlagWord;
  }

  /** TEST: the flags of AND and no value. */
  lemma TestMeans(a: u64, b: u64)
    ensures EvaluateBinary(TEST, a, b).Ok? && EvaluateBinary(AND, a, b).Ok?
    ensures var t := EvaluateBinary(TEST, a, b).value;
            && !t.writesValue && t.writesFlags
            && t.flags == EvaluateBinary(AND, a, b).value.flags
  {
    hide Word, TopBit;
  }

  lemma HalveComplement(x: nat, n: nat)
    requires 0 < n && x < Pow2(n)
    ensures x / 2 < Pow2(n - 1)
    ensures var y := Pow2(n) - 1 - x; y / 2 == Pow2(n - 1) - 1 - x / 2 && y % 2 == 1 - x % 2
  {
    var p := Pow2(n - 1);
    assert Pow2(n) == 2 * p;
    hide Pow2;
  }

  /** Bit k of the complement of a word. */
  lemma {:induction false} BitOfComplement(x: nat, k: nat, n: nat)
    requires k < n && x < Pow2(n)
    ensures Bit(Pow2(n) - 1 - x, k) <==> !Bit(x, k)
  {
    var y := Pow2(n) - 1 - x;
    HalveComplement(x, n);
    if k == 0 {
      assert Pow2(0) == 1;
    } else {
      BitOfComplement(x / 2, k - 1, n - 1);
      HalveBit(x, k);
      HalveBit(y, k);
      hide Bit, Pow2;
    }
  }

  lemma HalveBit(x: nat, k: nat)
    requires k > 0
    ensures Bit(x, k) <==> Bit(x / 2, k - 1)
  {
    HighIsBit(x, k);
    HighIsBit(x / 2, k - 1);
    hide Bit;
  }

  /** NOT: every bit flipped, FLAGS left alone. */
  lemma NotMeans(a: u64)
    ensures EvaluateUnary(NOT, a).Ok?
    ensures var r := EvaluateUnary(NOT, a).value;
            && r.writesValue && !r.writesFlags
            && (forall k: nat :: k < 64 ==> (Bit(r.value, k) <==> !Bit(a, k)))
  {
    Pow2Values();
    hide Bit, Pow2;
    forall k: nat | k < 64
      ensures Bit(TWO64 - 1 - a, k) <==> !Bit(a, k)
    {
      BitOfComplement(a, k, 64);
    }
  }

  /** The bits of a word determine it. */
  lemma {:induction false} BitsDetermine(x: nat, y: nat, n: nat)
    requires x < Pow2(n) && y < Pow2(n)
    requires forall k: nat :: k < n ==> (Bit(x, k) <==> Bit(y, k))
    ensures x == y
  {
    if n > 0 {
      assert Bit(x, 0) <==> Bit(y, 0);
      assert Pow2(0) == 1;
      forall k: nat | k < n - 1
        ensures Bit(x / 2, k) <==> Bit(y / 2, k)
      {
        HalveBit(x, k + 1);
        HalveBit(y, k + 1);
      }
      BitsDetermine(x / 2, y / 2, n - 1);
    }
  }
}
