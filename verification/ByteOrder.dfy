/** Little-endian integers in byte buffers. */
module ByteOrder {
  import opened Words
  import opened Bits

  /** The `width` low bytes of `value`, least significant first. */
  function Bytes(value: nat, width: nat): (r: seq<u8>)
    ensures |r| == width
    decreases width, value
  {
    if width == 0 then [] else [value % 256] + Bytes(value / 256, width - 1)
  }

  function FromBytes(bytes: seq<u8>): nat {
    if bytes == [] then 0 else bytes[0] + 256 * FromBytes(bytes[1..])
  }

  lemma {:induction false} FromBytesBound(bytes: seq<u8>)
    ensures FromBytes(bytes) < Pow2(8 * |bytes|)
  {
    if bytes != [] {
      FromBytesBound(bytes[1..]);
      Pow2Add(8, 8 * |bytes[1..]|);
      assert Pow2(8) == 256;
    }
  }

  /** Reading back the bytes of a value that fits gives the value. */
  lemma {:induction false} LoadAfterStore(value: nat, width: nat)
    requires value < Pow2(8 * width)
    ensures FromBytes(Bytes(value, width)) == value
  {
    if width > 0 {
      Pow2Add(8, 8 * (width - 1));
      assert Pow2(8) == 256;
      assert value / 256 < Pow2(8 * (width - 1));
      LoadAfterStore(value / 256, width - 1);
      assert Bytes(value, width)[1..] == Bytes(value / 256, width - 1);
    }
  }

  /** Storing a loaded value reproduces the bytes it was loaded from. */
  lemma {:induction false} StoreAfterLoad(bytes: seq<u8>)
    ensures Bytes(FromBytes(bytes), |bytes|) == bytes
  {
    if bytes != [] {
      StoreAfterLoad(bytes[1..]);
      var v := FromBytes(bytes);
      assert v / 256 == FromBytes(bytes[1..]) && v % 256 == bytes[0];
    }
  }

  lemma LoadAfterStore64(value: u64)
    ensures FromBytes(Bytes(value, 8)) == value
  {
    Pow2Values();
    LoadAfterStore(value, 8);
  }

  lemma FromBytes64(bytes: seq<u8>)
    requires |bytes| == 8
    ensures FromBytes(bytes) < TWO64
  {
    Pow2Values();
    FromBytesBound(bytes);
  }

  /** `byteorder::load<u64>` of the first eight bytes. */
  function Load64(bytes: seq<u8>): u64
    requires |bytes| == 8
  {
    FromBytes64(bytes);
    FromBytes(bytes)
  }

  /** Byte i of a word is what `(wide >> 8 * i) & 0xFF` computes. */
  lemma {:induction false} ByteAt(value: nat, width: nat, i: nat)
    requires i < width
    ensures Bytes(value, width)[i] == BitAnd(High(value, 8 * i), 255)
  {
    if i == 0 {
      AndMask(value, 8);
      assert Pow2(8) == 256;
      HighLowIsDivMod(value, 8);
    } else {
      ByteAt(value / 256, width - 1, i - 1);
      HighByByte(value, i);
    }
  }

  lemma {:induction false} HighAdd(a: nat, m: nat, n: nat)
    ensures High(High(a, m), n) == High(a, m + n)
  {
    if m > 0 {
      HighAdd(a / 2, m - 1, n);
    }
  }

  lemma HighByByte(value: nat, i: nat)
    requires i > 0
    ensures High(value, 8 * i) == High(value / 256, 8 * (i - 1))
  {
    HighAdd(value, 8, 8 * (i - 1));
    HighLowIsDivMod(value, 8);
    assert Pow2(8) == 256;
  }

  /** Overwrites the bytes of `data` from `at` on. */
  function Splice(data: seq<u8>, at: nat, bytes: seq<u8>): (r: seq<u8>)
    requires at + |bytes| <= |data|
    ensures |r| == |data|
    ensures r[at..at + |bytes|] == bytes
    ensures forall i :: 0 <= i < |data| && !(at <= i < at + |bytes|) ==> r[i] == data[i]
  {
    data[..at] + bytes + data[at + |bytes|..]
  }

  /** `byteorder::store`: the loop over the bytes of a buffer. */
  method StoreBytes(out: array<u8>, at: nat, value: u64, width: nat)
    requires at + width <= out.Length
    modifies out
    ensures out[..] == Splice(old(out[..]), at, Bytes(value, width))
  {
    var i := 0;
    while i < width
      invariant 0 <= i <= width
      invariant forall k :: 0 <= k < i ==> out[at + k] == Bytes(value, width)[k]
      invariant forall k :: 0 <= k < out.Length && !(at <= k < at + i) ==> out[k] == old(out[k])
    {
      ByteAt(value, width, i);
      out[at + i] := BitAnd(Shr64(value, 8 * i), 255);
      i := i + 1;
    }
    ghost var r := Splice(old(out[..]), at, Bytes(value, width));
    assert out[at..at + width] == Bytes(value, width) == r[at..at + width];
    forall k | 0 <= k < out.Length
      ensures out[..][k] == r[k]
    {
      if at <= k < at + width {
        assert out[k] == out[at..at + width][k - at] && r[k] == r[at..at + width][k - at];
      }
    }
  }

  /** `byteorder::load`: accumulates the bytes of a buffer, `wide |= byte << 8 * i`. */
  method LoadBytes(bytes: seq<u8>) returns (value: nat)
    ensures value == FromBytes(bytes)
  {
    value := 0;
    var i := 0;
    while i < |bytes|
      invariant 0 <= i <= |bytes|
      invariant value == FromBytes(bytes[..i])
    {
      hide FromBytes, Bitwise, Pow2;
      NextByte(bytes, i);
      value := BitOr(bytes[i] * Pow2(8 * i), value);
      i := i + 1;
    }
    assert bytes[..i] == bytes;
  }

  lemma NextByte(bytes: seq<u8>, i: nat)
    requires i < |bytes|
    ensures FromBytes(bytes[..i + 1]) == BitOr(bytes[i] * Pow2(8 * i), FromBytes(bytes[..i]))
  {
    hide FromBytes, Bitwise, Pow2;
    FromBytesBound(bytes[..i]);
    OrDisjoint(bytes[i], FromBytes(bytes[..i]), 8 * i);
    AppendByte(bytes[..i], bytes[i]);
    assert bytes[..i] + [bytes[i]] == bytes[..i + 1];
  }

  lemma {:induction false} AppendByte(bytes: seq<u8>, b: u8)
    ensures FromBytes(bytes + [b]) == FromBytes(bytes) + b * Pow2(8 * |bytes|)
  {
    if bytes == [] {
      assert bytes + [b] == [b];
    } else {
      AppendByte(bytes[1..], b);
      assert (bytes + [b])[1..] == bytes[1..] + [b];
      Pow2Add(8, 8 * |bytes[1..]|);
      assert Pow2(8) == 256;
      assert 256 * (b * Pow2(8 * |bytes[1..]|)) == b * Pow2(8 * |bytes|);
    }
  }
}
