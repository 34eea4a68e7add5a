/** CRC-32: the table-driven loop is the bit-by-bit reflected division by the generator polynomial
    (clause 3.2.9 of IEEE 802.3-2018), and it notices every change confined to four adjacent bytes. */
module Crc {
  import opened Words
  import opened Bits
  import opened ByteOrder

  /** The generator, bit-reversed: bit 31 stands for x^0. */
  const POLYNOMIAL: u32 := 0xEDB8_8320
  const ONES: u32 := 0xFFFF_FFFF

  function Xor32(a: u32, b: u32): (r: u32)
    ensures r == BitXor(a, b)
  {
    Pow2Values();
    BitwiseBound(Xor, a, b, 32);
    BitXor(a, b)
  }

  /** One step of the division: shift out the low bit, and subtract the generator if it was set. */
  function ShiftOnce(x: u32): u32 {
    if x % 2 == 1 then Xor32(POLYNOMIAL, x / 2) else x / 2
  }

  function Shifted(x: u32, n: nat): u32
    decreases n
  {
    if n == 0 then x else Shifted(ShiftOnce(x), n - 1)
  }

  /** The degrees of the generator x^32 + x^26 + ... + x + 1 of clause 3.2.9, below the leading one. */
  const DEGREES: set<nat> := {26, 23, 22, 16, 12, 11, 10, 8, 7, 5, 4, 2, 1, 0}

  function BitOf(x: nat, k: nat): nat { if k == 0 then x % 2 else BitOf(x / 2, k - 1) }

  /** Bit k of the constant stands for x^(31 - k), and is set exactly for those degrees. */
  lemma GeneratorIsStandard(k: nat)
    requires k < 32
    ensures BitOf(POLYNOMIAL, k) == 1 <==> 31 - k in DEGREES
  {
    if k >= 16 {
      HighBits(k - 16);
      SixteenUp(POLYNOMIAL, k - 16);
    } else {
      LowBits(k);
    }
  }

  lemma LowBits(k: nat)
    requires k < 16
    ensures BitOf(POLYNOMIAL, k) == 1 <==> 31 - k in DEGREES
  {
    hide BitOf;
    var x := POLYNOMIAL;
    if k >= 8 {
      EightUp(x, k - 8);
      assert x / 256 == 0xED_B883;
      BitsOfByte(0xED_B883, k - 8);
    } else {
      BitsOfByte(x, k);
    }
  }

  lemma HighBits(k: nat)
    requires k < 16
    ensures BitOf(0xEDB8, k) == 1 <==> 15 - k in DEGREES
  {
    hide BitOf;
    if k >= 8 {
      EightUp(0xEDB8, k - 8);
      assert 0xEDB8 / 256 == 0xED;
      BitsOfByte(0xED, k - 8);
    } else {
      BitsOfByte(0xEDB8, k);
    }
  }

  lemma EightUp(x: nat, k: nat)
    ensures BitOf(x, k + 8) == BitOf(x / 256, k)
  {
    FourUp(x, k + 4);
    FourUp(x / 16, k);
    assert x / 16 / 16 == x / 256;
  }

  lemma SixteenUp(x: nat, k: nat)
    ensures BitOf(x, k + 16) == BitOf(x / 0x1_0000, k)
  {
    EightUp(x, k + 8);
    EightUp(x / 256, k);
    assert x / 256 / 256 == x / 0x1_0000;
  }

  lemma FourUp(x: nat, k: nat)
    ensures BitOf(x, k + 4) == BitOf(x / 16, k)
  {
    hide BitOf;
    NextBit(x, k + 4);
    NextBit(x / 2, k + 3);
    NextBit(x / 2 / 2, k + 2);
    NextBit(x / 2 / 2 / 2, k + 1);
    assert x / 2 / 2 / 2 / 2 == x / 16;
  }

  lemma BitsOfByte(x: nat, k: nat)
    requires k < 8
    ensures k < 4 ==> BitOf(x, k) == NibbleBit(x, k)
    ensures k >= 4 ==> BitOf(x, k) == NibbleBit(x / 16, k - 4)
  {
    hide BitOf, NibbleBit;
    if k >= 4 {
      FourUp(x, k - 4);
      BitsOfNibble(x / 16, k - 4);
    } else {
      BitsOfNibble(x, k);
    }
  }

  function NibbleBit(x: nat, k: nat): nat
    requires k < 4
  {
    if k == 0 then x % 2 else if k == 1 then x / 2 % 2 else if k == 2 then x / 2 / 2 % 2 else x / 2 / 2 / 2 % 2
  }

  lemma BitsOfNibble(x: nat, k: nat)
    requires k < 4
    ensures BitOf(x, k) == NibbleBit(x, k)
  {
    NextBit(x, k);
    if k > 0 {
      NextBit(x / 2, k - 1);
    }
    if k > 1 {
      NextBit(x / 2 / 2, k - 2);
    }
    if k > 2 {
      NextBit(x / 2 / 2 / 2, k - 3);
    }
    hide BitOf;
  }

  lemma NextBit(x: nat, k: nat)
    ensures BitOf(x, k) == if k == 0 then x % 2 else BitOf(x / 2, k - 1)
  {
  }

  // ----- the division, bit by bit -----

  /** Divides in the n low bits of `b`, least significant first. */
  function FeedBits(state: u32, b: nat, n: nat): u32
    decreases n
  {
    if n == 0 then state else FeedBits(ShiftOnce(Xor32(state, b % 2)), b / 2, n - 1)
  }

  function Divide(state: u32, data: seq<u8>): u32 {
    if data == [] then state else FeedBits(Divide(state, data[..|data| - 1]), data[|data| - 1], 8)
  }

  /** The checksum of clause 3.2.9: preset to ones, complemented at the end. */
  function Checksum(data: seq<u8>): u32 {
    Xor32(Divide(ONES, data), ONES)
  }

  // ----- sums -----

  lemma {:induction false} XorCommutes(a: nat, b: nat)
    ensures BitXor(a, b) == BitXor(b, a)
    decreases a + b
  {
    if a > 0 || b > 0 {
      XorCommutes(a / 2, b / 2);
    }
  }

  lemma {:induction false} XorAssociates(a: nat, b: nat, c: nat)
    ensures BitXor(BitXor(a, b), c) == BitXor(a, BitXor(b, c))
    decreases a + b + c
  {
    if a > 0 || b > 0 || c > 0 {
      XorAssociates(a / 2, b / 2, c / 2);
      BitwiseStep(Xor, a, b);
      BitwiseStep(Xor, b, c);
      BitwiseStep(Xor, BitXor(a, b), c);
      BitwiseStep(Xor, a, BitXor(b, c));
      ParityAssociates(a % 2, b % 2, c % 2);
    }
  }

  lemma ParityAssociates(a: nat, b: nat, c: nat)
    requires a < 2 && b < 2 && c < 2
    ensures OnBit(Xor, OnBit(Xor, a, b), c) == OnBit(Xor, a, OnBit(Xor, b, c))
  {
  }

  lemma {:induction false} XorCancels(a: nat, b: nat)
    ensures BitXor(a, b) == 0 <==> a == b
    decreases a + b
  {
    if a > 0 || b > 0 {
      XorCancels(a / 2, b / 2);
    }
  }

  lemma XorSwap(p: nat, a: nat, q: nat, b: nat)
    ensures BitXor(BitXor(p, a), BitXor(q, b)) == BitXor(BitXor(p, q), BitXor(a, b))
  {
    hide Bitwise;
    XorAssociates(p, a, BitXor(q, b));
    XorAssociates(a, q, b);
    XorCommutes(a, q);
    XorAssociates(q, a, b);
    XorAssociates(p, q, BitXor(a, b));
  }

  /** The division is linear: one step of a sum is the sum of the steps. */
  lemma StepOfSum(x: u32, y: u32)
    ensures ShiftOnce(Xor32(x, y)) == Xor32(ShiftOnce(x), ShiftOnce(y))
  {
    BitwiseStep(Xor, x, y);
    var p := if x % 2 == 1 then POLYNOMIAL else 0;
    var q := if y % 2 == 1 then POLYNOMIAL else 0;
    XorSwap(p, x / 2, q, y / 2);
    XorCancels(POLYNOMIAL, POLYNOMIAL);
    BitwiseZero(POLYNOMIAL);
    BitwiseZero(x / 2);
    BitwiseZero(y / 2);
    BitwiseZero(BitXor(x / 2, y / 2));
  }

  lemma {:induction false} ShiftsOfSum(x: u32, y: u32, n: nat)
    ensures Shifted(Xor32(x, y), n) == Xor32(Shifted(x, n), Shifted(y, n))
    decreases n
  {
    hide ShiftOnce;
    if n > 0 {
      StepOfSum(x, y);
      ShiftsOfSum(ShiftOnce(x), ShiftOnce(y), n - 1);
    }
  }

  /** Feeding n bits one at a time is adding them all at once and shifting n times. */
  lemma {:induction false} FeedAtOnce(state: u32, b: u32, n: nat)
    requires b < Pow2(n)
    ensures FeedBits(state, b, n) == Shifted(Xor32(state, b), n)
    decreases n
  {
    if n == 0 {
      BitwiseZero(state);
    } else {
      hide ShiftOnce;
      FeedAtOnce(ShiftOnce(Xor32(state, b % 2)), b / 2, n - 1);
      FirstBit(state, b);
    }
  }

  lemma FirstBit(state: u32, b: u32)
    ensures Xor32(ShiftOnce(Xor32(state, b % 2)), b / 2) == ShiftOnce(Xor32(state, b))
  {
    BitwiseStep(Xor, state, b);
    BitwiseStep(Xor, state, b % 2);
    BitwiseZero(state / 2);
    XorAssociates(POLYNOMIAL, state / 2, b / 2);
  }

  lemma {:induction false} ShiftsOfMultiple(h: nat, n: nat)
    requires h * Pow2(n) < 0x1_0000_0000
    ensures h < 0x1_0000_0000 && Shifted(h * Pow2(n), n) == h
    decreases n
  {
    if n == 0 {
    } else {
      var x := h * Pow2(n);
      assert x == 2 * (h * Pow2(n - 1));
      assert x % 2 == 0 && x / 2 == h * Pow2(n - 1);
      ShiftsOfMultiple(h, n - 1);
    }
  }

  /** The table step: eight shifts of a word are those of its low byte, added to its upper bytes. */
  lemma EightShifts(x: u32)
    ensures Low(x, 8) < 256 && High(x, 8) < 0x1_0000_0000
    ensures Shifted(x, 8) == Xor32(Shifted(Low(x, 8), 8), High(x, 8))
  {
    hide Shifted;
    assert Pow2(8) == 256;
    var low, high := Low(x, 8), High(x, 8);
    HighLowJoin(x, 8);
    LowBound(x, 8);
    SplitXor(low, high);
    ShiftsOfSum(low, high * 256, 8);
    ShiftsOfMultiple(high, 8);
  }

  lemma SplitXor(low: nat, high: nat)
    requires low < 256
    ensures BitXor(low, high * 256) == high * 256 + low
  {
    assert Pow2(8) == 256;
    HighLowUnique(high, 0, 8);
    SmallParts(low, 8);
    BitwiseParts(Xor, low, high * 256, 0, high, low, 0, 8);
    BitwiseZero(low);
    BitwiseZero(high);
  }

  // ----- the implementation -----

  /** One entry of the table. */
  method TableEntry(i: u32) returns (value: u32)
    ensures value == Shifted(i, 8)
  {
    value := i;
    var bit := 0;
    while bit < 8
      invariant bit <= 8 && Shifted(value, 8 - bit) == Shifted(i, 8)
    {
      value := if value % 2 == 1 then Xor32(POLYNOMIAL, value / 2) else value / 2;
      bit := bit + 1;
    }
  }

  /** `makeTable` */
  method MakeTable() returns (table: array<u32>)
    ensures fresh(table) && table.Length == 256 && forall i :: 0 <= i < 256 ==> table[i] == Shifted(i, 8)
  {
    hide Shifted;
    table := new u32[256](_ => 0);
    var i := 0;
    while i < 256
      invariant i <= 256 && forall k :: 0 <= k < i ==> table[k] == Shifted(k, 8)
    {
      table[i] := TableEntry(i);
      i := i + 1;
    }
  }

  /** `crc32`: one table look-up per byte computes the bit-by-bit division. */
  method Crc32(data: seq<u8>) returns (crc: u32)
    ensures crc == Checksum(data)
  {
    hide Shifted, FeedBits;
    var table := MakeTable();
    var state: u32 := ONES;
    var n := 0;
    while n < |data|
      invariant n <= |data| && state == Divide(ONES, data[..n])
      invariant table.Length == 256 && forall i :: 0 <= i < 256 ==> table[i] == Shifted(i, 8)
    {
      assert data[..n + 1][..n] == data[..n];
      TableStep(state, data[n]);
      state := Xor32(table[BitAnd(Xor32(state, data[n]), 0xFF)], Shr64(state, 8));
      n := n + 1;
    }
    assert data[..n] == data;
    return Xor32(state, ONES);
  }

  lemma TableStep(state: u32, b: u8)
    ensures BitAnd(Xor32(state, b), 0xFF) < 256 && Shr64(state, 8) < 0x1_0000_0000
    ensures FeedBits(state, b, 8) == Xor32(Shifted(BitAnd(Xor32(state, b), 0xFF), 8), Shr64(state, 8))
  {
    hide Shifted, FeedBits;
    assert Pow2(8) == 256;
    var y := Xor32(state, b);
    FeedAtOnce(state, b, 8);
    EightShifts(y);
    AndMask(y, 8);
    BitwiseHigh(Xor, state, b, 8);
    SmallParts(b, 8);
    BitwiseZero(High(state, 8));
  }

  // ----- what it detects -----

  /** A step loses nothing: the generator has its top bit. */
  lemma StepInjective(x: u32)
    requires ShiftOnce(x) == 0
    ensures x == 0
  {
    if x % 2 == 1 {
      XorCancels(POLYNOMIAL, x / 2);
    }
  }

  lemma {:induction false} ShiftsInjective(x: u32, n: nat)
    requires Shifted(x, n) == 0
    ensures x == 0
    decreases n
  {
    hide ShiftOnce;
    if n > 0 {
      ShiftsInjective(ShiftOnce(x), n - 1);
      StepInjective(x);
    }
  }

  /** Different states stay different, whatever is fed to both. */
  lemma {:induction false} FeedInjective(s: u32, s': u32, b: nat, n: nat)
    requires s != s'
    ensures FeedBits(s, b, n) != FeedBits(s', b, n)
    decreases n
  {
    if n > 0 {
      hide ShiftOnce;
      var x, x' := Xor32(s, b % 2), Xor32(s', b % 2);
      SumsDiffer(s, s', b % 2);
      StepOfSum(x, x');
      XorCancels(x, x');
      XorCancels(ShiftOnce(x), ShiftOnce(x'));
      if ShiftOnce(x) == ShiftOnce(x') {
        StepInjective(Xor32(x, x'));
      }
      FeedInjective(ShiftOnce(x), ShiftOnce(x'), b / 2, n - 1);
    }
  }

  lemma SumsDiffer(a: nat, b: nat, c: nat)
    requires a != b
    ensures BitXor(a, c) != BitXor(b, c)
  {
    hide Bitwise;
    XorSwap(a, c, b, c);
    XorCancels(c, c);
    BitwiseZero(BitXor(a, b));
    XorCancels(a, b);
    XorCancels(BitXor(a, c), BitXor(b, c));
  }

  lemma {:induction false} DivideInjective(s: u32, s': u32, data: seq<u8>)
    requires s != s'
    ensures Divide(s, data) != Divide(s', data)
  {
    hide FeedBits;
    if data != [] {
      DivideInjective(s, s', data[..|data| - 1]);
      FeedInjective(Divide(s, data[..|data| - 1]), Divide(s', data[..|data| - 1]), data[|data| - 1], 8);
    }
  }

  lemma {:induction false} DivideConcat(s: u32, a: seq<u8>, b: seq<u8>)
    ensures Divide(s, a + b) == Divide(Divide(s, a), b)
  {
    hide FeedBits;
    if b == [] {
      assert a + b == a;
    } else {
      DivideConcat(s, a, b[..|b| - 1]);
      assert (a + b)[..|a + b| - 1] == a + b[..|b| - 1];
    }
  }

  /** The bytes of a burst, fed one after the other, are one number fed at once. */
  lemma {:induction false} FeedConcat(s: u32, b: nat, w: nat, m: nat, n: nat)
    requires b < Pow2(m)
    ensures FeedBits(s, b + w * Pow2(m), m + n) == FeedBits(FeedBits(s, b, m), w, n)
    decreases m
  {
    if m > 0 {
      hide ShiftOnce;
      var x := b + w * Pow2(m);
      DoubleUp(w, Pow2(m - 1));
      assert x % 2 == b % 2 && x / 2 == b / 2 + w * Pow2(m - 1);
      FeedConcat(ShiftOnce(Xor32(s, b % 2)), b / 2, w, m - 1, n);
    }
  }

  lemma DoubleUp(w: int, p: int)
    ensures w * (2 * p) == 2 * (w * p)
  {
  }

  lemma {:induction false} DivideWord(s: u32, data: seq<u8>)
    ensures Divide(s, data) == FeedBits(s, FromBytes(data), 8 * |data|)
  {
    if data != [] {
      hide FeedBits, FromBytes;
      var last := |data| - 1;
      DivideWord(s, data[..last]);
      FeedByte(s, data[..last], data[last]);
      assert data[..last] + [data[last]] == data;
    }
  }

  lemma FeedByte(s: u32, init: seq<u8>, b: u8)
    ensures FeedBits(s, FromBytes(init + [b]), 8 * |init + [b]|) == FeedBits(FeedBits(s, FromBytes(init), 8 * |init|), b, 8)
  {
    hide FeedBits, Pow2, FromBytes;
    FromBytesBound(init);
    AppendByte(init, b);
    FeedConcat(s, FromBytes(init), b, 8 * |init|, 8);
  }

  /** Two different bursts of the same length, four bytes at most, lead to different states. */
  lemma BurstsDiffer(s: u32, burst: seq<u8>, burst': seq<u8>)
    requires |burst| == |burst'| <= 4 && burst != burst'
    ensures Divide(s, burst) != Divide(s, burst')
  {
    hide FeedBits, Shifted, ShiftOnce, FromBytes;
    var n, w, w' := 8 * |burst|, FromBytes(burst), FromBytes(burst');
    FromBytesBound(burst);
    FromBytesBound(burst');
    Pow2Values();
    Pow2Monotone(n, 32);
    StoreAfterLoad(burst);
    StoreAfterLoad(burst');
    DivideWord(s, burst);
    DivideWord(s, burst');
    FeedAtOnce(s, w, n);
    FeedAtOnce(s, w', n);
    var x, x' := Xor32(s, w), Xor32(s, w');
    XorCommutes(s, w);
    XorCommutes(s, w');
    SumsDiffer(w, w', s);
    ShiftsOfSum(x, x', n);
    XorCancels(x, x');
    XorCancels(Shifted(x, n), Shifted(x', n));
    if Shifted(x, n) == Shifted(x', n) {
      ShiftsInjective(Xor32(x, x'), n);
    }
  }

  /** Any change confined to four adjacent bytes changes the checksum. */
  lemma BurstDetected(front: seq<u8>, burst: seq<u8>, burst': seq<u8>, back: seq<u8>)
    requires |burst| == |burst'| <= 4 && burst != burst'
    ensures Checksum(front + burst + back) != Checksum(front + burst' + back)
  {
    hide Divide;
    DivideConcat(ONES, front, burst);
    DivideConcat(ONES, front, burst');
    DivideConcat(ONES, front + burst, back);
    DivideConcat(ONES, front + burst', back);
    BurstsDiffer(Divide(ONES, front), burst, burst');
    DivideInjective(Divide(ONES, front + burst), Divide(ONES, front + burst'), back);
    SumsDiffer(Divide(ONES, front + burst + back), Divide(ONES, front + burst' + back), ONES);
  }

  // ----- the words of the standard -----

  function Complemented(data: seq<u8>): (r: seq<u8>)
    ensures |r| == |data|
  {
    seq(|data|, i requires 0 <= i < |data| => 255 - data[i])
  }

  lemma {:induction false} XorMask(x: nat, k: nat)
    requires x < Pow2(k)
    ensures BitXor(x, Pow2(k) - 1) == Pow2(k) - 1 - x
  {
    if k > 0 {
      var m := Pow2(k) - 1;
      assert m / 2 == Pow2(k - 1) - 1 && m % 2 == 1;
      XorMask(x / 2, k - 1);
      BitwiseStep(Xor, x, m);
    }
  }

  lemma XorOnes(x: u32)
    ensures Xor32(x, ONES) == 0xFFFF_FFFF - x && Xor32(ONES, x) == 0xFFFF_FFFF - x
  {
    Pow2Values();
    XorMask(x, 32);
    XorCommutes(x, ONES);
  }

  lemma {:induction false} ComplementedWord(data: seq<u8>)
    ensures FromBytes(Complemented(data)) == Pow2(8 * |data|) - 1 - FromBytes(data)
  {
    if data != [] {
      ComplementedWord(data[1..]);
      assert Complemented(data)[1..] == Complemented(data[1..]);
      Pow2Add(8, 8 * |data[1..]|);
      assert Pow2(8) == 256;
    }
  }

  lemma PresetMeans(data: seq<u8>)
    requires |data| == 4
    ensures Divide(ONES, data) == Divide(0, Complemented(data))
  {
    hide Divide, FeedBits, FromBytes, Bitwise, Shifted;
    Pow2Values();
    FromBytesBound(data);
    FromBytesBound(Complemented(data));
    ComplementedWord(data);
    DivideWord(ONES, data);
    DivideWord(0, Complemented(data));
    FeedAtOnce(ONES, FromBytes(data), 32);
    FeedAtOnce(0, FromBytes(Complemented(data)), 32);
    XorOnes(FromBytes(data));
    BitwiseZero(FromBytes(Complemented(data)));
  }

  /** The checksum as the clause states it: the first 32 bits are complemented, the whole is divided by the
      generator, and the remainder is complemented. */
  lemma FrameCheck(data: seq<u8>)
    requires |data| >= 4
    ensures Checksum(data) == 0xFFFF_FFFF - Divide(0, Complemented(data[..4]) + data[4..])
  {
    hide Divide, Xor32;
    PresetMeans(data[..4]);
    DivideConcat(ONES, data[..4], data[4..]);
    DivideConcat(0, Complemented(data[..4]), data[4..]);
    assert data[..4] + data[4..] == data;
    XorOnes(Divide(ONES, data));
  }
}
