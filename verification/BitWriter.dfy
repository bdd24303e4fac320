/**
 The bit writer of src/bs.h over its real byte buffer.  Bits that no longer fit are dropped,
 exactly as the code drops them: the ghost field `text` is everything the callers asked for,
 and the buffer always holds `text` clipped to its size.
 */
module BitWriter {
  import opened Bits
  import opened ExpGolomb

  /** The bits that rbsp_trailing_bits() adds when `n` bits precede it (section 7.3.2.11 of H.265). */
  function Trailing(n: nat): (r: seq<bool>)
    ensures |r| == 8 - n % 8 && r[0] && forall i :: 1 <= i < |r| ==> !r[i]
  {
    [true] + Zeros(7 - n % 8)
  }

  /** Bits missing to the next byte boundary. */
  function Padding(n: nat): nat {
    (8 - n % 8) % 8
  }

  class BSWriter {
    const data: array<byte>
    const capacity: nat
    var bytePos: nat
    var bitPos: nat
    ghost var text: seq<bool>

    ghost predicate Valid()
      reads this, data
    {
      && Consistent()
      && Written() == Clip(text, 8 * capacity)
    }

    ghost predicate Consistent()
      reads this, data
    {
      && capacity == data.Length
      && bytePos <= capacity && bitPos < 8 && (bytePos == capacity ==> bitPos == 0)
      && BitsOf(data[..])[Position()..] == Zeros(8 * capacity - Position())
    }

    ghost function Position(): nat
      reads this
    {
      8 * bytePos + bitPos
    }

    /** The bits written so far. */
    ghost function Written(): (r: seq<bool>)
      requires Consistent()
      reads this, data
      ensures |r| == Position() <= 8 * capacity
    {
      BitsOf(data[..])[..Position()]
    }

    constructor (buf: array<byte>)
      modifies buf
      ensures Valid() && data == buf && capacity == buf.Length && text == []
    {
      for i := 0 to buf.Length
        invariant forall j :: 0 <= j < i ==> buf[j] == 0
      {
        buf[i] := 0;
      }
      data, capacity := buf, buf.Length;
      bytePos, bitPos, text := 0, 0, [];
      BitsOfZeroBytes(buf[..]);
    }

    method Write1(bit: bool)
      requires Valid()
      modifies this, data
      ensures Valid() && text == old(text) + [bit]
      ensures bitPos == if old(bytePos) == capacity || old(bitPos) == 7 then 0 else old(bitPos) + 1
    {
      ghost var was := Written();
      StoreBit(bit);
      assert Written() == Clip(was + [bit], 8 * capacity);
      ClipTwice(text, [], [bit], 8 * capacity);
      assert text + [] == text && [] + [bit] == [bit];
      text := text + [bit];
    }

    /** bs_write1 on the buffer. */
    method StoreBit(bit: bool)
      requires Consistent()
      modifies this, data
      ensures Consistent() && text == old(text)
      ensures bitPos == if old(bytePos) == capacity || old(bitPos) == 7 then 0 else old(bitPos) + 1
      ensures Written() == Clip(old(Written()) + [bit], 8 * capacity)
    {
      if bytePos >= capacity {
        return;
      }
      hide BitsOf, OrBit;
      ghost var p, before := Position(), data[..];
      ghost var bits := BitsOf(before);
      data[bytePos] := OrBit(data[bytePos], bitPos, bit);
      assert data[..] == before[bytePos := OrBit(before[bytePos], bitPos, bit)];
      OrBitInPlace(before, bytePos, bitPos, bit);
      AppendInPlace(bits, p, bit);
      bitPos := bitPos + 1;
      if bitPos == 8 {
        bitPos := 0;
        bytePos := bytePos + 1;
      }
      assert Position() == p + 1;
    }

    /** bs_write: the low `n` bits of `val`, most significant first. */
    method Write(val: nat, n: nat)
      requires Valid() && val < WORD && n <= 32
      modifies this, data
      ensures Valid() && text == old(text) + UBits(val, n)
    {
      hide BitsOf, Clip;
      var i := n;
      while i > 0
        invariant 0 <= i <= n && Valid()
        invariant text == old(text) + UBits(Shr(val, i), n - i)
      {
        i := i - 1;
        var bit := Shr(val, i) % 2 == 1;
        Write1(bit);
        assert Shr(val, i + 1) == Shr(val, i) / 2;
      }
    }

    /** bs_write_ue. */
    method WriteUe(v: nat)
      requires Valid() && v < WORD
      modifies this, data
      ensures Valid() && text == old(text) + UeCode32(v)
    {
      hide UBits, UeCode32, BSWriter.Valid, Pow2, Log2;
      var val := (v + 1) % WORD;
      var bits := LeadingBit(val);
      UePieces(v, bits);
      Regroup(text, UBits(0, bits), UBits(val, bits + 1));
      Write(0, bits);
      Write(val, bits + 1);
    }

    /** The shifting loop of bs_write_ue. */
    static method LeadingBit(val: nat) returns (bits: nat)
      ensures bits == if val == 0 then 0 else Log2(val)
    {
      hide Pow2;
      var tmp := val;
      bits := 0;
      while tmp > 1
        invariant tmp >= 0
        invariant val > 0 ==> tmp > 0 && Log2(val) == bits + Log2(tmp)
        invariant val == 0 ==> tmp == 0 && bits == 0
      {
        tmp := tmp / 2;
        bits := bits + 1;
      }
    }

    /** bs_write_se, on the values whose doubling does not overflow int32_t. */
    method WriteSe(v: int)
      requires Valid() && -0x4000_0000 < v < 0x4000_0000
      modifies this, data
      ensures Valid() && text == old(text) + Code(Se(v))
    {
      var uval := if v <= 0 then -2 * v else 2 * v - 1;
      WriteUe(uval);
    }

    /** bs_rbsp_trailing: a stop bit and zero bits up to the byte boundary, while they fit. */
    method RbspTrailing()
      requires Valid()
      modifies this, data
      ensures Valid()
      ensures text == old(text) + (if |old(text)| < 8 * capacity then Trailing(|old(text)|) else [true])
    {
      hide *;
      Write1(true);
      AlignZero();
      TrailingIs(|old(text)|);
    }

    /** `while (bit_pos != 0) bs_write1(0)`: only a full buffer is aligned before the padding is out. */
    method AlignZero()
      requires Valid()
      modifies this, data
      ensures Valid()
      ensures text == old(text) + (if |old(text)| <= 8 * capacity then Zeros(Padding(|old(text)|)) else [])
    {
      hide *;
      PaddingLeft();
      ghost var start, n := bitPos, 0;
      assert Zeros(0) == [];
      while bitPos != 0
        invariant Valid() && text == old(text) + Zeros(n)
        invariant start + n <= 8 && (n > 0 ==> start > 0) && bitPos == if start + n == 8 then 0 else start + n
        decreases 8 - start - n
      {
        PaddingLeft();
        Write1(false);
        assert Zeros(n) + [false] == Zeros(n + 1);
        n := n + 1;
      }
    }

    /** The bit position tells how much padding the text needs. */
    lemma PaddingLeft()
      requires Valid()
      ensures bitPos < 8 && (bytePos == capacity ==> bitPos == 0)
      ensures |text| <= 8 * capacity ==> Padding(|text|) == if bitPos == 0 then 0 else 8 - bitPos
      ensures |text| > 8 * capacity ==> bitPos == 0
    {
      hide BitsOf;
      assert |Clip(text, 8 * capacity)| == 8 * bytePos + bitPos;
    }

    /** The array holds a text that fits, and the writer stands behind it. */
    lemma Holds()
      requires Valid() && |text| <= 8 * capacity
      ensures Position() == |text| && capacity == data.Length
      ensures |text| <= |BitsOf(data[..])| && BitsOf(data[..])[..|text|] == text
    {
      hide BitsOf;
    }

    /** bs_bytes: the bytes touched hold exactly the written bits, zero padded. */
    method Bytes() returns (n: nat)
      requires Valid()
      ensures n <= capacity
      ensures |text| <= 8 * capacity ==>
                n == (|text| + 7) / 8 && BitsOf(data[..n]) == text + Zeros(8 * n - |text|)
    {
      hide BitsOf;
      n := bytePos + (if bitPos > 0 then 1 else 0);
      BitsOfSlice(data[..], 0, n);
      assert data[..][0..n] == data[..n];
    }
  }

  /** One bs_write, bs_write_ue or bs_write_se after another. */
  method WriteAll(bs: BSWriter, syntax: seq<Syntax>)
    requires bs.Valid() && forall i :: 0 <= i < |syntax| ==> Representable(syntax[i])
    modifies bs, bs.data
    ensures bs.Valid() && bs.text == old(bs.text) + Encode(syntax)
  {
    hide BSWriter.Valid, Encode, UBits, UeCode;
    ghost var start := bs.text;
    for i := 0 to |syntax|
      invariant bs.Valid() && start + Encode(syntax) == bs.text + Encode(syntax[i..])
    {
      assert syntax[i..] == [syntax[i]] + syntax[i + 1..];
      EncodeCons(syntax[i], syntax[i + 1..]);
      match syntax[i] {
        case U(n, v) =>
          SmallEnough(n, v);
          bs.Write(v, n);
        case Ue(k) => bs.WriteUe(k);
        case Se(k) => bs.WriteSe(k);
      }
    }
    EncodeNothing(syntax[|syntax|..]);
  }

  lemma SmallEnough(n: nat, v: nat)
    requires n <= 32 && v < Pow2(n)
    ensures v < WORD
  {
    Pow2Monotone(n, 32);
    Pow2Values();
  }

  lemma EncodeNothing(syntax: seq<Syntax>)
    requires syntax == []
    ensures Encode(syntax) == []
  {
  }

  lemma AppendInPlace(bits: seq<bool>, p: nat, bit: bool)
    requires p < |bits| && bits[p..] == Zeros(|bits| - p)
    ensures var after := bits[p := bits[p] || bit];
            after[..p + 1] == bits[..p] + [bit] && after[p + 1..] == Zeros(|bits| - p - 1)
  {
    assert !bits[p..][0];
    assert forall j :: p < j < |bits| ==> bits[j] == bits[p..][j - p];
  }

  lemma TrailingIs(n: nat)
    ensures Trailing(n) == [true] + Zeros(Padding(n + 1))
  {
  }

  /** Trailing bits put a one into the last byte. */
  lemma TrailingEndsNonzero(s: seq<byte>, head: seq<bool>)
    requires BitsOf(s) == head + Trailing(|head|)
    ensures |s| > 0 && s[|s| - 1] != 0
  {
    var i := |head|;
    assert BitsOf(s)[i];
    assert |BitsOf(s)| == 8 * (i / 8 + 1);
    assert BitAt(s[|s| - 1], i % 8);
    assert forall k :: 0 <= k < 8 ==> !BitAt(0, k);
  }

  lemma {:induction false} BitsOfZeroBytes(s: seq<byte>)
    requires forall j :: 0 <= j < |s| ==> s[j] == 0
    ensures BitsOf(s) == Zeros(8 * |s|)
  {
    assert forall k :: 0 <= k < 8 ==> !BitAt(0, k);
  }

  lemma {:induction false} UBitsOfZero(n: nat)
    ensures UBits(0, n) == Zeros(n)
  {
    if n > 0 {
      UBitsOfZero(n - 1);
    }
  }

  /** The two writes of bs_write_ue are the ue(v) code, or a lone 0 after the increment wrapped. */
  lemma UePieces(v: nat, bits: nat)
    requires v < WORD
    requires v == WORD - 1 ==> bits == 0
    requires v < WORD - 1 ==> bits == Log2(v + 1)
    ensures bits < 32 && UeCode32(v) == UBits(0, bits) + UBits((v + 1) % WORD, bits + 1)
  {
    hide Pow2, Log2, UBits;
    UBitsOfZero(bits);
    if v < WORD - 1 {
      SmallLog2(v + 1);
    } else {
      UBitsOfZero(1);
      UBitsOfZero(0);
      assert UBits(0, 0) + UBits(0, 1) == [false];
    }
  }

  lemma SmallLog2(v: nat)
    requires 1 <= v < WORD
    ensures Log2(v) < 32
  {
    Pow2Values();
    Log2Bound(v, 32);
  }
}
