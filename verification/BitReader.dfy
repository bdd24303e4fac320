/**
 The bit cursor of src/hevc.c (br_read_bit, br_read_bits, br_read_ue, br_skip_bits), proved
 against the parsers of section 9.2 of H.265.
 */
module BitReader {
  import opened Bits
  import ExpGolomb
  import opened BitWriter

  class HEVCBitReader {
    const data: array<byte>
    const size: nat
    var bit: nat

    ghost predicate Valid()
      reads this
    {
      size <= data.Length && bit <= 8 * size
    }

    /** The bits not yet consumed. */
    ghost function Rest(): seq<bool>
      requires Valid()
      reads this, data
    {
      BitsOf(data[..size])[bit..]
    }

    lemma RestLength()
      requires Valid()
      ensures |Rest()| == 8 * size - bit
    {
    }

    constructor (data: array<byte>, size: nat)
      requires size <= data.Length
      ensures Valid() && this.data == data && this.size == size && bit == 0
      ensures Rest() == BitsOf(data[..size])
    {
      this.data, this.size, this.bit := data, size, 0;
    }

    method ReadBit() returns (ok: bool, value: nat)
      requires Valid()
      modifies this
      ensures Valid() && bit >= old(bit)
      ensures ok == (old(Rest()) != [])
      ensures ok ==> value == (if old(Rest())[0] then 1 else 0) && Rest() == old(Rest())[1..]
      ensures !ok ==> bit == old(bit)
    {
      if bit >= size * 8 {
        return false, 0;
      }
      value := if BitAt(data[bit / 8], bit % 8) then 1 else 0;
      bit := bit + 1;
      ok := true;
    }

    /** br_read_bits. */
    method ReadBits(count: nat) returns (ok: bool, value: nat)
      requires Valid()
      modifies this
      ensures Valid() && bit >= old(bit)
      ensures ok == (count <= 32 && ExpGolomb.ReadU(count, old(Rest())).Done?)
      ensures ok ==> ExpGolomb.ReadU(count, old(Rest())) == ExpGolomb.Done(value, Rest())
    {
      if count > 32 || count > size * 8 - bit {
        return false, 0;
      }
      ok, value := ReadDigits(count);
    }

    /** The accumulation loop of br_read_bits and of the suffix in br_read_ue. */
    method ReadDigits(count: nat) returns (ok: bool, value: nat)
      requires Valid()
      modifies this
      ensures Valid() && bit >= old(bit)
      ensures ok == (count <= |old(Rest())|)
      ensures ok ==> value == Value(old(Rest())[..count]) && Rest() == old(Rest())[count..]
    {
      ghost var start := Rest();
      value := 0;
      for i := 0 to count
        invariant Valid() && bit >= old(bit) && i <= |start|
        invariant Rest() == start[i..] && value == Value(start[..i])
      {
        var more, digit := ReadBit();
        if !more {
          return false, 0;
        }
        assert start[..i + 1][..i] == start[..i];
        value := value * 2 + digit;
      }
      ok := true;
    }

    /**
     br_read_ue.  The value agrees with section 9.2 except behind exactly 31 leading zeros,
     where the code adds UINT32_MAX instead of 2^31 - 1.
     */
    method ReadUe() returns (ok: bool, value: nat)
      requires Valid()
      modifies this
      ensures Valid() && bit >= old(bit)
      ensures ok == UeOfCode(old(Rest())).Done?
      ensures ok ==> UeOfCode(old(Rest())) == ExpGolomb.Done(value, Rest())
    {
      hide UeOfCode, Value, Pow2, HEVCBitReader.Rest;
      ghost var start := Rest();
      var found, zeros := ReadZeros();
      if !found {
        UeMissing(start, zeros);
        return false, 0;
      }
      UeSuffix(start, zeros);
      var suffix;
      ok, suffix := ReadDigits(zeros);
      value := ((if zeros == 31 then WORD - 1 else Pow2(zeros) - 1) + suffix) % WORD;
    }

    /** The loop of br_read_ue that counts leading zeros, giving up at the 32nd. */
    method ReadZeros() returns (ok: bool, zeros: nat)
      requires Valid()
      modifies this
      ensures Valid() && bit >= old(bit)
      ensures zeros <= 32 && zeros <= |old(Rest())| && forall i :: 0 <= i < zeros ==> !old(Rest())[i]
      ensures ok ==> zeros < 32 && zeros < |old(Rest())| && old(Rest())[zeros] && Rest() == old(Rest())[zeros + 1..]
      ensures !ok ==> zeros == 32 || zeros == |old(Rest())|
    {
      ghost var start := Rest();
      zeros := 0;
      var more, bit := ReadBit();
      while more && bit == 0
        invariant Valid() && this.bit >= old(this.bit) && zeros <= 31
        invariant zeros <= |start| && forall i :: 0 <= i < zeros ==> !start[i]
        invariant more ==> zeros < |start| && Rest() == start[zeros + 1..] && (bit == 0 <==> !start[zeros])
        invariant !more ==> zeros == |start|
        decreases 31 - zeros, more
      {
        zeros := zeros + 1;
        if zeros > 31 {
          return false, zeros;
        }
        more, bit := ReadBit();
      }
      ok := more;
    }

    /** br_read_bits and br_read_ue one after another, until one fails. */
    method ReadAll(shapes: seq<ExpGolomb.Syntax>) returns (ok: bool, values: seq<nat>)
      requires Valid()
      modifies this
      ensures Valid() && bit >= old(bit)
      ensures ok == ReadAllByCode(shapes, old(Rest())).Done?
      ensures ok ==> ReadAllByCode(shapes, old(Rest())) == ExpGolomb.Done(values, Rest())
    {
      hide HEVCBitReader.Rest, ReadAllByCode, UeOfCode, ExpGolomb.ReadU;
      ghost var all := ReadAllByCode(shapes, Rest());
      values := [];
      assert shapes[0..] == shapes;
      BehindNothing(all);
      for i := 0 to |shapes|
        invariant Valid() && bit >= old(bit)
        invariant all == Behind(values, ReadAllByCode(shapes[i..], Rest()))
      {
        ReadStep(shapes[i], shapes[i..], shapes[i + 1..], Rest());
        var value;
        match shapes[i] {
          case U(n, _) => ok, value := ReadBits(n);
          case Ue(_) => ok, value := ReadUe();
          case Se(_) => return false, [];
        }
        if !ok {
          return false, [];
        }
        if ReadAllByCode(shapes[i + 1..], Rest()).Done? {
          BehindMore(values, value, ReadAllByCode(shapes[i + 1..], Rest()));
        }
        values := values + [value];
      }
      NothingToRead(shapes[|shapes|..], Rest());
      assert values + [] == values;
      ok := true;
    }

    /** br_skip_bits. */
    method SkipBits(count: nat) returns (ok: bool)
      requires Valid()
      modifies this
      ensures Valid() && bit >= old(bit)
      ensures ok == (count <= |old(Rest())|)
      ensures ok ==> Rest() == old(Rest())[count..]
      ensures !ok ==> bit == old(bit)
    {
      if count > size * 8 - bit {
        return false;
      }
      bit := bit + count;
      return true;
    }
  }

  /** The number br_read_ue returns for the code at the front of `bits`. */
  function UeAsRead(bits: seq<bool>): (v: nat)
    requires ExpGolomb.ReadUe(bits).Done?
  {
    var v := ExpGolomb.ReadUe(bits).value;
    if ExpGolomb.LeadingZeros(bits) == 31 then (v + Pow2(31)) % WORD else v
  }

  /** br_read_ue as a parser. */
  function UeOfCode(bits: seq<bool>): ExpGolomb.Parsed<nat> {
    var (_, rest) :- ExpGolomb.ReadUe32(bits);
    ExpGolomb.Done(UeAsRead(bits), rest)
  }

  /** What a parsed prefix of `zeros` zeros and a one leaves to do, in both arms of br_read_ue. */
  lemma UeSuffix(bits: seq<bool>, zeros: nat)
    requires zeros < 32 && zeros < |bits| && bits[zeros] && forall i :: 0 <= i < zeros ==> !bits[i]
    ensures var tail := bits[zeros + 1..];
            UeOfCode(bits) ==
              if zeros > |tail| then ExpGolomb.Stuck
              else ExpGolomb.Done(((if zeros == 31 then WORD - 1 else Pow2(zeros) - 1) + Value(tail[..zeros])) % WORD, tail[zeros..])
  {
    hide Value, Pow2, ExpGolomb.LeadingZeros;
    ExpGolomb.LeadingZerosAre(bits, zeros);
    var tail := bits[zeros + 1..];
    if zeros <= |tail| {
      assert tail[..zeros] == bits[zeros + 1..2 * zeros + 1];
      UeFits(bits);
      Pow2Values();
    }
  }

  lemma UeMissing(bits: seq<bool>, zeros: nat)
    requires zeros <= |bits| && forall i :: 0 <= i < zeros ==> !bits[i]
    requires zeros == 32 || zeros == |bits|
    ensures UeOfCode(bits).Stuck?
  {
    AtLeast(bits, zeros);
  }

  lemma {:induction false} AtLeast(bits: seq<bool>, n: nat)
    requires n <= |bits| && forall i :: 0 <= i < n ==> !bits[i]
    ensures ExpGolomb.LeadingZeros(bits) >= n
  {
    if n > 0 {
      AtLeast(bits[1..], n - 1);
    }
  }

  /** Behind at most 31 leading zeros the standard value fits in a uint32_t. */
  lemma UeFits(bits: seq<bool>)
    requires ExpGolomb.ReadUe(bits).Done? && ExpGolomb.LeadingZeros(bits) <= 31
    ensures ExpGolomb.ReadUe(bits).value < WORD - 1
    ensures ExpGolomb.LeadingZeros(bits) < 31 ==> ExpGolomb.ReadUe(bits).value < Pow2(31) - 1
    ensures ExpGolomb.LeadingZeros(bits) == 31 ==> ExpGolomb.ReadUe(bits).value >= Pow2(31) - 1
  {
    hide Value, Pow2, ExpGolomb.LeadingZeros;
    var z := ExpGolomb.LeadingZeros(bits);
    ValueBound(bits[z + 1..2 * z + 1]);
    Pow2Monotone(z, 31);
    Pow2Twice(z);
    if z < 31 {
      Pow2Monotone(z + 1, 31);
    }
    Pow2Values();
  }

  /** br_read_ue meets section 9.2 exactly on the values below 2^31 - 1. */
  lemma ReadUeMeetsStandard(bits: seq<bool>)
    requires ExpGolomb.ReadUe(bits).Done? && ExpGolomb.LeadingZeros(bits) <= 31
    ensures UeAsRead(bits) == ExpGolomb.ReadUe(bits).value <==> ExpGolomb.ReadUe(bits).value < Pow2(31) - 1
  {
    hide Value, Pow2, ExpGolomb.LeadingZeros, ExpGolomb.ReadUe;
    UeFits(bits);
    Pow2Values();
  }

  /** The smallest number read back wrong: 2^31 - 1 is written as such and read as UINT32_MAX. */
  lemma ReadUeWrongBehind31Zeros(rest: seq<bool>)
    ensures var bits := ExpGolomb.UeCode32(0x7FFF_FFFF) + rest;
            ExpGolomb.ReadUe(bits).Done? && UeAsRead(bits) == WORD - 1
  {
    hide Pow2, ExpGolomb.ReadUe, ExpGolomb.LeadingZeros;
    Pow2Values();
    ExpGolomb.ReadUeOfUeCode(0x7FFF_FFFF, rest);
    ExpGolomb.UeCodeShape(0x7FFF_FFFF);
    LogOfTop();
    ExpGolomb.LeadingZerosAre(ExpGolomb.UeCode(0x7FFF_FFFF) + rest, 31);
  }

  lemma LogOfTop()
    ensures Log2(0x8000_0000) == 31
  {
    Pow2Values();
    Log2Bound(0x8000_0000, 32);
    if Log2(0x8000_0000) < 31 {
      Pow2Monotone(Log2(0x8000_0000) + 1, 31);
    }
  }

  /**
   Writer against reader: for every uint32_t, the code bs_write_ue leaves is read back by
   br_read_ue, whatever follows, exactly when the value is at most 2^31 - 2.
   */
  lemma WriteReadUe(v: nat)
    requires v < WORD
    ensures (forall rest: seq<bool> {:trigger ExpGolomb.UeCode32(v) + rest} ::
               var bits := ExpGolomb.UeCode32(v) + rest;
               ExpGolomb.ReadUe(bits).Done? && ExpGolomb.LeadingZeros(bits) <= 31 &&
               UeAsRead(bits) == v && ExpGolomb.ReadUe(bits).rest == rest)
            <==> v <= Pow2(31) - 2
  {
    Pow2Values();
    if v == WORD - 1 {
      var bits := ExpGolomb.UeCode32(v) + [];
      assert ExpGolomb.LeadingZeros(bits) == 1;
    } else {
      forall rest: seq<bool> {:trigger ExpGolomb.UeCode32(v) + rest}
        ensures var bits := ExpGolomb.UeCode32(v) + rest;
                ExpGolomb.ReadUe(bits) == ExpGolomb.Done(v, rest) && ExpGolomb.LeadingZeros(bits) <= 31 &&
                (UeAsRead(bits) == v <==> v <= Pow2(31) - 2)
      {
        var bits := ExpGolomb.UeCode32(v) + rest;
        ExpGolomb.ReadUeOfUeCode(v, rest);
        ExpGolomb.UeCodeShape(v);
        ExpGolomb.LeadingZerosAre(bits, Log2(v + 1));
        Log2Bound(v + 1, 32);
        ReadUeMeetsStandard(bits);
      }
      assert ExpGolomb.UeCode32(v) + [] == ExpGolomb.UeCode32(v);
    }
  }

  // ---------- sequences of elements ----------

  /** What the reader of src/hevc.c makes of one element: u(n) of at most 32 bits, or ue(v). */
  function ReadByCode(shape: ExpGolomb.Syntax, bits: seq<bool>): ExpGolomb.Parsed<nat> {
    match shape
    case U(n, _) => if n > 32 then ExpGolomb.Stuck else ExpGolomb.ReadU(n, bits)
    case Ue(_) => UeOfCode(bits)
    case Se(_) => ExpGolomb.Stuck
  }

  function ReadAllByCode(shapes: seq<ExpGolomb.Syntax>, bits: seq<bool>): ExpGolomb.Parsed<seq<nat>> {
    if |shapes| == 0 then ExpGolomb.Done([], bits)
    else
      var (first, b1) :- ReadByCode(shapes[0], bits);
      var (others, rest) :- ReadAllByCode(shapes[1..], b1);
      ExpGolomb.Done([first] + others, rest)
  }

  /** Elements the reader gets right: u(n) that fit, and ue(v) up to 2^31 - 2. */
  predicate Readable(s: ExpGolomb.Syntax) {
    match s
    case U(n, v) => n <= 32 && v < Pow2(n)
    case Ue(k) => k <= 0x7fff_fffe
    case Se(_) => false
  }

  function Number(s: ExpGolomb.Syntax): nat {
    match s
    case U(_, v) => v
    case Ue(k) => k
    case Se(_) => 0
  }

  lemma ReadByCodeOf(s: ExpGolomb.Syntax, rest: seq<bool>)
    requires Readable(s)
    ensures ReadByCode(s, ExpGolomb.Code(s) + rest) == ExpGolomb.Done(Number(s), rest)
  {
    hide ExpGolomb.UeCode, ExpGolomb.ReadUe, ExpGolomb.LeadingZeros, Pow2;
    Pow2Values();
    match s
    case U(n, v) => ExpGolomb.ReadUOfUBits(v, n, rest);
    case Ue(k) =>
      ExpGolomb.ReadUe32OfUeCode(k, rest);
      ReadUeMeetsStandard(ExpGolomb.UeCode(k) + rest);
  }

  lemma ReadStep(shape: ExpGolomb.Syntax, shapes: seq<ExpGolomb.Syntax>, tail: seq<ExpGolomb.Syntax>, bits: seq<bool>)
    requires shapes != [] && shape == shapes[0] && tail == shapes[1..]
    ensures var one := ReadByCode(shape, bits);
            ReadAllByCode(shapes, bits) ==
              if one.Stuck? then ExpGolomb.Stuck
              else
                var others := ReadAllByCode(tail, one.rest);
                if others.Stuck? then ExpGolomb.Stuck else ExpGolomb.Done([one.value] + others.value, others.rest)
  {
    hide ReadByCode;
  }

  lemma NothingToRead(shapes: seq<ExpGolomb.Syntax>, bits: seq<bool>)
    requires shapes == []
    ensures ReadAllByCode(shapes, bits) == ExpGolomb.Done([], bits)
  {
  }

  /** What has been read, and what is read behind it. */
  function Behind(values: seq<nat>, left: ExpGolomb.Parsed<seq<nat>>): ExpGolomb.Parsed<seq<nat>> {
    if left.Done? then ExpGolomb.Done(values + left.value, left.rest) else ExpGolomb.Stuck
  }

  lemma BehindNothing(left: ExpGolomb.Parsed<seq<nat>>)
    ensures Behind([], left) == left
  {
    assert left.Done? ==> [] + left.value == left.value;
  }

  lemma BehindMore(values: seq<nat>, value: nat, left: ExpGolomb.Parsed<seq<nat>>)
    requires left.Done?
    ensures Behind(values, ExpGolomb.Done([value] + left.value, left.rest)) == Behind(values + [value], left)
  {
    assert values + ([value] + left.value) == values + [value] + left.value;
  }

  function Numbers(syntax: seq<ExpGolomb.Syntax>): (r: seq<nat>)
    ensures |r| == |syntax|
  {
    seq(|syntax|, i requires 0 <= i < |syntax| => Number(syntax[i]))
  }

  /** The codes of readable elements are read back, whatever follows. */
  lemma {:induction false} ReadAllByCodeOfEncode(syntax: seq<ExpGolomb.Syntax>, rest: seq<bool>)
    requires forall i :: 0 <= i < |syntax| ==> Readable(syntax[i])
    ensures ReadAllByCode(syntax, ExpGolomb.Encode(syntax) + rest) == ExpGolomb.Done(Numbers(syntax), rest)
    decreases |syntax|
  {
    hide ReadByCode, ExpGolomb.Code, Readable;
    if |syntax| > 0 {
      var code, tail := ExpGolomb.Code(syntax[0]), syntax[1..];
      assert ExpGolomb.Encode(syntax) + rest == code + (ExpGolomb.Encode(tail) + rest);
      ReadByCodeOf(syntax[0], ExpGolomb.Encode(tail) + rest);
      ReadAllByCodeOfEncode(tail, rest);
      assert Numbers(syntax) == [Number(syntax[0])] + Numbers(tail);
    } else {
      assert ExpGolomb.Encode(syntax) + rest == rest;
    }
  }

  /**
   Writer against reader on one buffer: behind any text, with room left, the writer puts down
   readable elements and leaves the earlier bits of the array alone; a reader of the same array that
   skips those returns the elements and stops where the writer stands.
   */
  method BufferRoundTrip(bs: BSWriter, syntax: seq<ExpGolomb.Syntax>) returns (br: HEVCBitReader, values: seq<nat>)
    requires bs.Valid() && |bs.text| + |ExpGolomb.Encode(syntax)| <= 8 * bs.capacity
    requires forall i :: 0 <= i < |syntax| ==> Readable(syntax[i])
    modifies bs, bs.data
    ensures bs.Valid() && bs.text == old(bs.text) + ExpGolomb.Encode(syntax)
    ensures BitsOf(bs.data[..])[..|old(bs.text)|] == old(bs.text) == old(BitsOf(bs.data[..])[..|bs.text|])
    ensures values == Numbers(syntax)
    ensures fresh(br) && br.Valid() && br.data == bs.data && br.bit == |bs.text|
  {
    hide BSWriter.Valid, BitsOf, ExpGolomb.Encode, ReadAllByCode, Readable, Numbers;
    bs.Holds();
    var start := 8 * bs.bytePos + bs.bitPos;
    ghost var before := bs.text;
    forall i | 0 <= i < |syntax|
      ensures ExpGolomb.Representable(syntax[i])
    {
      ReadableIsRepresentable(syntax[i]);
    }
    WriteAll(bs, syntax);
    bs.Holds();
    Kept(BitsOf(bs.data[..]), before, ExpGolomb.Encode(syntax));
    br, values := ReadBehind(bs, start, before, syntax);
  }

  lemma Kept(bits: seq<bool>, before: seq<bool>, code: seq<bool>)
    requires |before + code| <= |bits| && bits[..|before + code|] == before + code
    ensures bits[..|before|] == before
  {
    assert bits[..|before|] == bits[..|before + code|][..|before|];
  }

  /** A reader on the bytes written so far, behind their first `start` bits. */
  method ReadBehind(bs: BSWriter, start: nat, ghost before: seq<bool>, syntax: seq<ExpGolomb.Syntax>) returns (br: HEVCBitReader, values: seq<nat>)
    requires bs.Valid() && |bs.text| <= 8 * bs.capacity && start == |before| && bs.text == before + ExpGolomb.Encode(syntax)
    requires forall i :: 0 <= i < |syntax| ==> Readable(syntax[i])
    ensures values == Numbers(syntax)
    ensures fresh(br) && br.Valid() && br.data == bs.data && br.bit == |bs.text|
  {
    hide BSWriter.Valid, BitsOf, ExpGolomb.Encode, ReadAllByCode, Readable, Numbers;
    bs.Holds();
    var n := bs.Bytes();
    br := new HEVCBitReader(bs.data, n);
    ghost var code, padding := ExpGolomb.Encode(syntax), Zeros(8 * n - |bs.text|);
    assert br.Rest() == before + code + padding;
    br.RestLength();
    var skipped := br.SkipBits(start);
    assert br.Rest() == code + padding;
    ReadAllByCodeOfEncode(syntax, padding);
    var ok;
    ok, values := br.ReadAll(syntax);
    br.RestLength();
  }

  lemma ReadableIsRepresentable(s: ExpGolomb.Syntax)
    requires Readable(s)
    ensures ExpGolomb.Representable(s)
  {
  }
}
