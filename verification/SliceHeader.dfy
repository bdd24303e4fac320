/**
 The part of the slice segment header that the rewriter touches, as section 7.3.6.1 of H.265
 defines it.  Every parser here is shown to depend only on the bits it consumes.
 */
module SliceHeader {
  import opened Bits
  import opened ExpGolomb
  import opened PictureParameters
  import opened ReferencePictureSets
  import opened LongTermReferences

  function ReadOptionalFlag(present: bool, bits: seq<bool>): Parsed<bool> {
    if present then ReadFlag(bits) else Done(false, bits)
  }

  // ---------- geometry ----------

  function CtbSize(pp: PicParams): (r: nat)
    ensures r >= 1
  {
    Pow2(pp.log2MinCbMinus3 + 3 + pp.log2DiffMaxMinCb)
  }

  function WidthInCtbs(pp: PicParams): nat {
    (pp.width + CtbSize(pp) - 1) / CtbSize(pp)
  }

  function HeightInCtbs(pp: PicParams): nat {
    (pp.height + CtbSize(pp) - 1) / CtbSize(pp)
  }

  /** `count` blocks of `size` samples cover a side of the picture, one less do not. */
  predicate Covers(count: nat, size: nat, side: nat) {
    count >= 1 && (count - 1) * size < side <= count * size
  }

  lemma MulGrows(c: nat, a: nat, b: nat)
    requires a <= b
    ensures c * a <= c * b
  {
  }

  lemma CoversIs(count: nat, size: nat, side: nat)
    requires Covers(count, size, side) && size >= 1
    ensures (side + size - 1) / size == count
  {
    var q := (side + size - 1) / size;
    assert size * q <= side + size - 1 < size * (q + 1);
    if q < count {
      MulGrows(size, q + 1, count);
    } else if q > count {
      MulGrows(size, count + 1, q);
    }
  }

  function BitLength(v: nat): nat {
    if v == 0 then 0 else 1 + BitLength(v / 2)
  }

  /** Ceil(Log2(v)), with 0 for v = 0. */
  function CeilLog2(v: nat): nat {
    BitLength(if v > 0 then v - 1 else 0)
  }

  lemma {:induction false} BitLengthBounds(v: nat)
    ensures v < Pow2(BitLength(v))
    ensures v > 0 ==> BitLength(v) > 0 && Pow2(BitLength(v) - 1) <= v
  {
    if v > 0 {
      BitLengthBounds(v / 2);
    }
  }

  /** CeilLog2 is the least exponent whose power of two reaches `v`. */
  lemma CeilLog2IsLeast(v: nat, n: nat)
    requires v >= 1
    ensures v <= Pow2(n) <==> CeilLog2(v) <= n
  {
    BitLengthBounds(v - 1);
    if CeilLog2(v) <= n {
      Pow2Monotone(CeilLog2(v), n);
    } else {
      Pow2Monotone(n, CeilLog2(v) - 1);
    }
  }

  // ---------- before the reference picture set ----------

  datatype Opening = Opening(first: bool, noOutputOfPriorPics: bool, ppsId: nat)

  datatype Address = Address(dependent: bool, address: nat)

  /** The fields of an independent slice segment up to slice_pic_order_cnt_lsb. */
  datatype Independent = Independent(reserved: nat, sliceType: nat, picOutput: bool, colourPlane: nat, pocLsb: nat)

  datatype PreRps = PreRps(opening: Opening, address: Address, fields: Independent)

  function ReadOpening(nalType: nat, bits: seq<bool>): Parsed<Opening> {
    var (first, b1) :- ReadFlag(bits);
    var (noOutput, b2) :- ReadOptionalFlag(16 <= nalType <= 23, b1);
    var (ppsId, rest) :- ReadUe32(b2);
    Done(Opening(first, noOutput, ppsId), rest)
  }

  function ReadAddress(pp: PicParams, first: bool, bits: seq<bool>): Parsed<Address> {
    if first then Done(Address(false, 0), bits)
    else
      var (dependent, b1) :- ReadOptionalFlag(pp.dependentSlicesEnabled, bits);
      var (address, rest) :- ReadU(CeilLog2(WidthInCtbs(pp) * HeightInCtbs(pp)), b1);
      Done(Address(dependent, address), rest)
  }

  function ReadIndependent(pp: PicParams, bits: seq<bool>): Parsed<Independent> {
    var (reserved, b1) :- ReadU(pp.numExtraSliceHeaderBits, bits);
    var (sliceType, b2) :- ReadUe32(b1);
    var (picOutput, b3) :- ReadOptionalFlag(pp.outputFlagPresent, b2);
    var (colourPlane, b4) :- ReadU(if pp.separateColourPlane then 2 else 0, b3);
    var (pocLsb, rest) :- ReadU(PocBits(pp), b4);
    Done(Independent(reserved, sliceType, picOutput, colourPlane, pocLsb), rest)
  }

  /** What precedes the fields of an independent slice segment. */
  function ReadStart(pp: PicParams, nalType: nat, bits: seq<bool>): Parsed<(Opening, Address)> {
    var (opening, b1) :- ReadOpening(nalType, bits);
    var (address, rest) :- ReadAddress(pp, opening.first, b1);
    Done((opening, address), rest)
  }

  function ReadPreRps(pp: PicParams, nalType: nat, bits: seq<bool>): Parsed<PreRps> {
    var (start, b1) :- ReadStart(pp, nalType, bits);
    if start.1.dependent then Stuck
    else
      var (fields, rest) :- ReadIndependent(pp, b1);
      Done(PreRps(start.0, start.1, fields), rest)
  }

  // ---------- the original reference picture set ----------

  /** The explicit long-term entries of the header, and how many entries index the SPS table. */
  datatype OriginalLongTerm = OriginalLongTerm(fromSps: nat, entries: seq<LongTermSyntax>)

  /** short_term_ref_pic_set_sps_flag and what it selects; VA-API gives the length of an inline set. */
  function SkipShortTerm(pp: PicParams, bits: seq<bool>): Parsed<()> {
    var (fromSps, b1) :- ReadFlag(bits);
    if fromSps && pp.numShortTermSets == 0 then Stuck
    else
      var (_, rest) :- ReadU(if fromSps then CeilLog2(pp.numShortTermSets) else pp.stRpsBits, b1);
      Done((), rest)
  }

  /** A fixed-length part followed by delta_poc_msb_present_flag and the cycle. */
  function SkipEntry(width: nat, bits: seq<bool>): Parsed<()> {
    var (_, b1) :- ReadU(width, bits);
    var (present, b2) :- ReadFlag(b1);
    var (_, rest) :- ReadCycle(present, b2);
    Done((), rest)
  }

  /** Entries that index the SPS table: lt_idx_sps and the MSB cycle. */
  function SkipSpsEntries(n: nat, idxBits: nat, bits: seq<bool>): Parsed<()> {
    if n == 0 then Done((), bits)
    else
      var (_, b1) :- SkipEntry(idxBits, bits);
      SkipSpsEntries(n - 1, idxBits, b1)
  }

  /** The long-term part under the original SPS. */
  function ReadOriginalLongTerm(pp: PicParams, bits: seq<bool>): Parsed<OriginalLongTerm> {
    if !pp.longTermPresent then Done(OriginalLongTerm(0, []), bits)
    else
      var (fromSps, b1) :- if pp.numLongTermSps > 0 then ReadUe32(bits) else Done(0, bits);
      var (n, b2) :- ReadUe32(b1);
      var (_, b3) :- SkipSpsEntries(fromSps, CeilLog2(pp.numLongTermSps), b2);
      var (entries, rest) :- ReadEntries(n, PocBits(pp), b3);
      Done(OriginalLongTerm(fromSps, entries), rest)
  }

  // ---------- the header under the rewritten SPS ----------

  datatype RewrittenHeader = RewrittenHeader(pre: PreRps, shortTerm: ShortTermSet, longTerm: seq<LongTermSyntax>)

  /** Section 7.3.6.1 with num_short_term_ref_pic_sets = num_long_term_ref_pics_sps = 0. */
  function ReadRewritten(pp: PicParams, nalType: nat, bits: seq<bool>): Parsed<RewrittenHeader> {
    var (pre, b1) :- ReadPreRps(pp, nalType, bits);
    var (fromSps, b2) :- ReadFlag(b1);
    if fromSps then Stuck
    else
      var (shortTerm, b3) :- ReadShortTermSet(0, b2);
      var (longTerm, rest) :- if pp.longTermPresent then ReadLongTerm(PocBits(pp), b3) else Done([], b3);
      Done(RewrittenHeader(pre, shortTerm, longTerm), rest)
  }

  // ---------- parsers see only what they consume ----------

  lemma UStable(n: nat, b: seq<bool>, t: seq<bool>) returns (c: seq<bool>)
    requires ReadU(n, b).Done?
    ensures b == c + ReadU(n, b).rest && ReadU(n, c + t) == Done(ReadU(n, b).value, t)
  {
    c := b[..n];
    assert (c + t)[..n] == c && (c + t)[n..] == t;
  }

  lemma FlagStable(present: bool, b: seq<bool>, t: seq<bool>) returns (c: seq<bool>)
    requires ReadOptionalFlag(present, b).Done?
    ensures b == c + ReadOptionalFlag(present, b).rest
    ensures ReadOptionalFlag(present, c + t) == Done(ReadOptionalFlag(present, b).value, t)
  {
    c := if present then b[..1] else [];
    assert [] + t == t;
  }

  lemma Ue32Stable(b: seq<bool>, t: seq<bool>) returns (c: seq<bool>)
    requires ReadUe32(b).Done?
    ensures b == c + ReadUe32(b).rest && ReadUe32(c + t) == Done(ReadUe32(b).value, t)
  {
    hide Pow2, Value;
    var z := LeadingZeros(b);
    c := b[..2 * z + 1];
    assert forall i :: 0 <= i < 2 * z + 1 ==> (c + t)[i] == b[i];
    LeadingZerosAre(c + t, z);
    assert (c + t)[z + 1..2 * z + 1] == b[z + 1..2 * z + 1];
    assert (c + t)[2 * z + 1..] == t;
  }

  lemma OpeningStable(nalType: nat, b: seq<bool>, t: seq<bool>) returns (c: seq<bool>)
    requires ReadOpening(nalType, b).Done?
    ensures b == c + ReadOpening(nalType, b).rest
    ensures ReadOpening(nalType, c + t) == Done(ReadOpening(nalType, b).value, t)
  {
    hide ReadUe32, ReadOptionalFlag;
    var b1 := ReadFlag(b).rest;
    var b2 := ReadOptionalFlag(16 <= nalType <= 23, b1).rest;
    var c3 := Ue32Stable(b2, t);
    var c2 := FlagStable(16 <= nalType <= 23, b1, c3 + t);
    ReadFlagOf(b[0], c2 + (c3 + t));
    c := [b[0]] + (c2 + c3);
    assert c + t == [b[0]] + (c2 + (c3 + t));
  }

  lemma AddressStable(pp: PicParams, first: bool, b: seq<bool>, t: seq<bool>) returns (c: seq<bool>)
    requires ReadAddress(pp, first, b).Done?
    ensures b == c + ReadAddress(pp, first, b).rest
    ensures ReadAddress(pp, first, c + t) == Done(ReadAddress(pp, first, b).value, t)
  {
    hide ReadU, ReadOptionalFlag, CeilLog2, WidthInCtbs, HeightInCtbs;
    if first {
      c := [];
      assert [] + t == t;
    } else {
      var n := CeilLog2(WidthInCtbs(pp) * HeightInCtbs(pp));
      var b1 := ReadOptionalFlag(pp.dependentSlicesEnabled, b).rest;
      var c2 := UStable(n, b1, t);
      var c1 := FlagStable(pp.dependentSlicesEnabled, b, c2 + t);
      c := c1 + c2;
      assert c + t == c1 + (c2 + t);
    }
  }

  lemma IndependentStable(pp: PicParams, b: seq<bool>, t: seq<bool>) returns (c: seq<bool>)
    requires ReadIndependent(pp, b).Done?
    ensures b == c + ReadIndependent(pp, b).rest
    ensures ReadIndependent(pp, c + t) == Done(ReadIndependent(pp, b).value, t)
  {
    hide ReadU, ReadUe32, ReadOptionalFlag;
    var n4 := if pp.separateColourPlane then 2 else 0;
    var b1 := ReadU(pp.numExtraSliceHeaderBits, b).rest;
    var b2 := ReadUe32(b1).rest;
    var b3 := ReadOptionalFlag(pp.outputFlagPresent, b2).rest;
    var b4 := ReadU(n4, b3).rest;
    var c5 := UStable(PocBits(pp), b4, t);
    var c4 := UStable(n4, b3, c5 + t);
    var c3 := FlagStable(pp.outputFlagPresent, b2, c4 + (c5 + t));
    var c2 := Ue32Stable(b1, c3 + (c4 + (c5 + t)));
    var c1 := UStable(pp.numExtraSliceHeaderBits, b, c2 + (c3 + (c4 + (c5 + t))));
    c := c1 + (c2 + (c3 + (c4 + c5)));
    assert c + t == c1 + (c2 + (c3 + (c4 + (c5 + t))));
    assert b == c + ReadIndependent(pp, b).rest;
  }

  lemma PreRpsStable(pp: PicParams, nalType: nat, b: seq<bool>, t: seq<bool>) returns (c: seq<bool>)
    requires ReadPreRps(pp, nalType, b).Done?
    ensures b == c + ReadPreRps(pp, nalType, b).rest
    ensures ReadPreRps(pp, nalType, c + t) == Done(ReadPreRps(pp, nalType, b).value, t)
  {
    hide ReadOpening, ReadAddress, ReadIndependent;
    var opening := ReadOpening(nalType, b);
    var address := ReadAddress(pp, opening.value.first, opening.rest);
    var c3 := IndependentStable(pp, address.rest, t);
    var c2 := AddressStable(pp, opening.value.first, opening.rest, c3 + t);
    var c1 := OpeningStable(nalType, b, c2 + (c3 + t));
    c := c1 + (c2 + c3);
    assert c + t == c1 + (c2 + (c3 + t));
  }

  lemma CycleStable(present: bool, b: seq<bool>, t: seq<bool>) returns (c: seq<bool>)
    requires ReadCycle(present, b).Done?
    ensures b == c + ReadCycle(present, b).rest && ReadCycle(present, c + t) == Done(ReadCycle(present, b).value, t)
  {
    if present {
      c := Ue32Stable(b, t);
    } else {
      c := [];
      assert [] + t == t;
    }
  }

  lemma EntryStable(pocBits: nat, b: seq<bool>, t: seq<bool>) returns (c: seq<bool>)
    requires ReadEntry(pocBits, b).Done?
    ensures b == c + ReadEntry(pocBits, b).rest
    ensures ReadEntry(pocBits, c + t) == Done(ReadEntry(pocBits, b).value, t)
  {
    hide ReadU, ReadCycle;
    var b1 := ReadU(pocBits, b).rest;
    var b2 := ReadFlag(b1).rest;
    var b3 := ReadFlag(b2).rest;
    var c4 := CycleStable(b2[0], b3, t);
    ReadFlagOf(b2[0], c4 + t);
    ReadFlagOf(b1[0], [b2[0]] + (c4 + t));
    var c1 := UStable(pocBits, b, [b1[0]] + ([b2[0]] + (c4 + t)));
    c := c1 + ([b1[0]] + ([b2[0]] + c4));
    assert c + t == c1 + ([b1[0]] + ([b2[0]] + (c4 + t)));
  }

  lemma {:induction false} EntriesStable(n: nat, pocBits: nat, b: seq<bool>, t: seq<bool>) returns (c: seq<bool>)
    requires ReadEntries(n, pocBits, b).Done?
    ensures b == c + ReadEntries(n, pocBits, b).rest
    ensures ReadEntries(n, pocBits, c + t) == Done(ReadEntries(n, pocBits, b).value, t)
  {
    hide ReadEntry;
    if n == 0 {
      c := [];
      assert [] + t == t;
    } else {
      var b1 := ReadEntry(pocBits, b).rest;
      var c2 := EntriesStable(n - 1, pocBits, b1, t);
      var c1 := EntryStable(pocBits, b, c2 + t);
      c := c1 + c2;
      assert c + t == c1 + (c2 + t);
    }
  }

  lemma LongTermStable(pocBits: nat, b: seq<bool>, t: seq<bool>) returns (c: seq<bool>)
    requires ReadLongTerm(pocBits, b).Done?
    ensures b == c + ReadLongTerm(pocBits, b).rest
    ensures ReadLongTerm(pocBits, c + t) == Done(ReadLongTerm(pocBits, b).value, t)
  {
    hide ReadUe32, ReadEntries;
    var count := ReadUe32(b);
    var c2 := EntriesStable(count.value, pocBits, count.rest, t);
    var c1 := Ue32Stable(b, c2 + t);
    c := c1 + c2;
    assert c + t == c1 + (c2 + t);
  }
}
