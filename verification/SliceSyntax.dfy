/**
 The other direction of the slice segment header: the code that section 7.3.6.1 of H.265 gives to a
 header.  Every header within the limits of the standard is read back, so the readers that module
 SliceMeaning relies on find each element where the standard puts it.
 */
module SliceSyntax {
  import opened Options
  import opened Integers
  import opened Bits
  import opened ExpGolomb
  import opened Emulation
  import opened PictureParameters
  import opened ReferencePictureSets
  import opened LongTermReferences
  import opened SliceHeader
  import opened SliceRewrite
  import opened SliceMeaning

  /** The least number of bits that tells `count` things apart: Ceil(Log2(count)). */
  predicate LeastBits(bits: nat, count: nat) {
    count <= Pow2(bits) && (bits > 0 ==> Pow2(bits - 1) < count)
  }

  /** An st_ref_pic_set() of the SPS, or one in the slice header whose bits are not told further. */
  datatype ShortTermSyntax = FromTable(idx: nat) | Inline(bits: seq<bool>)

  /** An entry that takes its picture order count from the table of the SPS. */
  datatype TableEntry = TableEntry(idx: nat, msbPresent: bool, delta: nat)

  /** The widths of the elements whose codes depend on the picture or on the tables of the SPS. */
  datatype Widths = Widths(address: nat, shortTerm: nat, entry: nat)

  predicate WidthsOf(pp: PicParams, n: Widths, width: nat, height: nat) {
    var ctb := Pow2(pp.log2MinCbMinus3 + 3 + pp.log2DiffMaxMinCb);
    && Covers(width, ctb, pp.width) && Covers(height, ctb, pp.height)
    && LeastBits(n.address, width * height)
    && (pp.numShortTermSets > 0 ==> LeastBits(n.shortTerm, pp.numShortTermSets))
    && (pp.numLongTermSps > 0 ==> LeastBits(n.entry, pp.numLongTermSps))
  }

  predicate StartFits(pp: PicParams, nalType: nat, o: Opening, a: Address, n: Widths) {
    && o.ppsId <= 63 && (o.noOutputOfPriorPics ==> 16 <= nalType <= 23)
    && a.address < Pow2(n.address) && (a.dependent ==> !o.first && pp.dependentSlicesEnabled) && (o.first ==> a.address == 0)
  }

  predicate FieldsFit(pp: PicParams, f: Independent) {
    && f.reserved < Pow2(pp.numExtraSliceHeaderBits) && f.sliceType <= 2
    && (f.picOutput ==> pp.outputFlagPresent) && f.colourPlane < (if pp.separateColourPlane then 4 else 1)
    && f.pocLsb < Pow2(pp.log2MaxPocLsbMinus4 + 4)
  }

  predicate ShortTermFits(pp: PicParams, s: ShortTermSyntax, n: Widths) {
    match s
    case FromTable(idx) => idx < pp.numShortTermSets && idx < Pow2(n.shortTerm)
    case Inline(bits) => |bits| == pp.stRpsBits
  }

  predicate LongTermFits(pp: PicParams, table: seq<TableEntry>, entries: seq<LongTermSyntax>, n: Widths) {
    && |table| <= pp.numLongTermSps && |table| + |entries| <= 15 && (!pp.longTermPresent ==> table == [] && entries == [])
    && (forall i :: 0 <= i < |table| ==> table[i].idx < Pow2(n.entry) && DeltaFits(table[i].msbPresent, table[i].delta))
    && (forall i :: 0 <= i < |entries| ==> entries[i].lsb < Pow2(pp.log2MaxPocLsbMinus4 + 4) && DeltaFits(entries[i].msbPresent, entries[i].delta))
  }

  predicate DeltaFits(present: bool, delta: nat) {
    delta < WORD - 1 && (!present ==> delta == 0)
  }

  // ---------- the codes ----------

  function StartCode(pp: PicParams, nalType: nat, o: Opening, a: Address, n: Widths): seq<bool> {
    [o.first] + ((if 16 <= nalType <= 23 then [o.noOutputOfPriorPics] else []) + (UeCode(o.ppsId) + AddressCode(pp, o.first, a, n)))
  }

  function AddressCode(pp: PicParams, first: bool, a: Address, n: Widths): seq<bool> {
    if first then [] else (if pp.dependentSlicesEnabled then [a.dependent] else []) + UBits(a.address, n.address)
  }

  function FieldsCode(pp: PicParams, f: Independent): seq<bool> {
    UBits(f.reserved, pp.numExtraSliceHeaderBits) + (UeCode(f.sliceType) + ((if pp.outputFlagPresent then [f.picOutput] else [])
    + ((if pp.separateColourPlane then UBits(f.colourPlane, 2) else []) + UBits(f.pocLsb, pp.log2MaxPocLsbMinus4 + 4))))
  }

  function ShortTermCode(s: ShortTermSyntax, n: Widths): seq<bool> {
    match s
    case FromTable(idx) => [true] + UBits(idx, n.shortTerm)
    case Inline(bits) => [false] + bits
  }

  function CycleCode(present: bool, delta: nat): seq<bool> {
    [present] + (if present then UeCode(delta) else [])
  }

  function TableCode(table: seq<TableEntry>, bits: nat): seq<bool> {
    if |table| == 0 then [] else (UBits(table[0].idx, bits) + CycleCode(table[0].msbPresent, table[0].delta)) + TableCode(table[1..], bits)
  }

  function EntriesCode(entries: seq<LongTermSyntax>, bits: nat): seq<bool> {
    if |entries| == 0 then []
    else
      (UBits(entries[0].lsb, bits) + ([entries[0].used] + CycleCode(entries[0].msbPresent, entries[0].delta)))
      + EntriesCode(entries[1..], bits)
  }

  function LongTermCode(pp: PicParams, table: seq<TableEntry>, entries: seq<LongTermSyntax>, n: Widths): seq<bool> {
    if !pp.longTermPresent then []
    else
      (if pp.numLongTermSps > 0 then UeCode(|table|) else []) + (UeCode(|entries|)
      + (TableCode(table, n.entry) + EntriesCode(entries, pp.log2MaxPocLsbMinus4 + 4)))
  }

  // ---------- the widths ----------

  lemma LeastBitsIs(bits: nat, count: nat)
    requires LeastBits(bits, count) && count >= 1
    ensures CeilLog2(count) == bits
  {
    CeilLog2IsLeast(count, bits);
    if bits > 0 {
      CeilLog2IsLeast(count, bits - 1);
    }
  }

  lemma WidthsAre(pp: PicParams, n: Widths, width: nat, height: nat)
    requires WidthsOf(pp, n, width, height)
    ensures CeilLog2(WidthInCtbs(pp) * HeightInCtbs(pp)) == n.address
    ensures pp.numShortTermSets > 0 ==> CeilLog2(pp.numShortTermSets) == n.shortTerm
    ensures pp.numLongTermSps > 0 ==> CeilLog2(pp.numLongTermSps) == n.entry
  {
    hide CeilLog2, LeastBits, Pow2;
    CoversIs(width, CtbSize(pp), pp.width);
    CoversIs(height, CtbSize(pp), pp.height);
    assert width * height >= 1;
    LeastBitsIs(n.address, width * height);
    if pp.numShortTermSets > 0 {
      LeastBitsIs(n.shortTerm, pp.numShortTermSets);
    }
    if pp.numLongTermSps > 0 {
      LeastBitsIs(n.entry, pp.numLongTermSps);
    }
  }

  // ---------- reading back ----------

  lemma OpeningIsRead(nalType: nat, o: Opening, rest: seq<bool>)
    requires o.ppsId <= 63 && (o.noOutputOfPriorPics ==> 16 <= nalType <= 23)
    ensures ReadOpening(nalType, [o.first] + ((if 16 <= nalType <= 23 then [o.noOutputOfPriorPics] else []) + (UeCode(o.ppsId) + rest))) == Done(o, rest)
  {
    hide ReadUe32, UeCode;
    var b2 := UeCode(o.ppsId) + rest;
    ReadUe32OfUeCode(o.ppsId, rest);
    assert [] + b2 == b2;
  }

  lemma AddressIsRead(pp: PicParams, first: bool, a: Address, n: Widths, width: nat, height: nat, rest: seq<bool>)
    requires WidthsOf(pp, n, width, height) && a.address < Pow2(n.address)
    requires (a.dependent ==> !first && pp.dependentSlicesEnabled) && (first ==> a.address == 0)
    ensures ReadAddress(pp, first, AddressCode(pp, first, a, n) + rest) == Done(a, rest)
  {
    hide UBits, Pow2, CeilLog2, ReadU, WidthsOf, WidthInCtbs, HeightInCtbs;
    WidthsAre(pp, n, width, height);
    if first {
      assert [] + rest == rest;
    } else {
      var b := UBits(a.address, n.address) + rest;
      ReadUOfUBits(a.address, n.address, rest);
      assert AddressCode(pp, first, a, n) + rest == if pp.dependentSlicesEnabled then [a.dependent] + b else b;
    }
  }

  lemma StartIsRead(pp: PicParams, nalType: nat, o: Opening, a: Address, n: Widths, width: nat, height: nat, rest: seq<bool>)
    requires WidthsOf(pp, n, width, height) && StartFits(pp, nalType, o, a, n)
    ensures ReadStart(pp, nalType, StartCode(pp, nalType, o, a, n) + rest) == Done((o, a), rest)
  {
    hide ReadOpening, ReadAddress, UeCode, AddressCode, Pow2, WidthsOf;
    var b := AddressCode(pp, o.first, a, n) + rest;
    OpeningIsRead(nalType, o, b);
    AddressIsRead(pp, o.first, a, n, width, height, rest);
    assert StartCode(pp, nalType, o, a, n) + rest ==
           [o.first] + ((if 16 <= nalType <= 23 then [o.noOutputOfPriorPics] else []) + (UeCode(o.ppsId) + b));
  }

  lemma FewBits()
    ensures Pow2(2) == 4 && UBits(0, 0) == []
  {
    assert Pow2(1) == 2;
  }

  lemma FieldsAreRead(pp: PicParams, f: Independent, rest: seq<bool>)
    requires FieldsFit(pp, f)
    ensures ReadIndependent(pp, FieldsCode(pp, f) + rest) == Done(f, rest)
  {
    hide ReadUe32, UeCode, UBits, Pow2, ReadU;
    FewBits();
    var b4 := UBits(f.pocLsb, pp.log2MaxPocLsbMinus4 + 4) + rest;
    var b3 := (if pp.separateColourPlane then UBits(f.colourPlane, 2) else []) + b4;
    var b2 := (if pp.outputFlagPresent then [f.picOutput] else []) + b3;
    var b1 := UeCode(f.sliceType) + b2;
    assert FieldsCode(pp, f) + rest == UBits(f.reserved, pp.numExtraSliceHeaderBits) + b1;
    ReadUOfUBits(f.reserved, pp.numExtraSliceHeaderBits, b1);
    ReadUe32OfUeCode(f.sliceType, b2);
    ReadUOfUBits(f.pocLsb, pp.log2MaxPocLsbMinus4 + 4, rest);
    if pp.separateColourPlane {
      ReadUOfUBits(f.colourPlane, 2, b4);
    } else {
      assert b3 == b4;
      ReadNothing(b4);
    }
    assert !pp.outputFlagPresent ==> b2 == b3;
  }

  lemma ReadNothing(bits: seq<bool>)
    ensures ReadU(0, bits) == Done(0, bits)
  {
    assert bits[..0] == [] && bits[0..] == bits;
  }

  lemma ShortTermIsSkipped(pp: PicParams, s: ShortTermSyntax, n: Widths, width: nat, height: nat, rest: seq<bool>)
    requires WidthsOf(pp, n, width, height) && ShortTermFits(pp, s, n)
    ensures SkipShortTerm(pp, ShortTermCode(s, n) + rest) == Done((), rest)
  {
    hide UBits, Pow2, CeilLog2, WidthsOf, Value;
    WidthsAre(pp, n, width, height);
    match s
    case FromTable(idx) =>
      assert ShortTermCode(s, n) + rest == [true] + (UBits(idx, n.shortTerm) + rest);
      ReadUOfUBits(idx, n.shortTerm, rest);
    case Inline(bits) =>
      assert ShortTermCode(s, n) + rest == [false] + (bits + rest);
      assert (bits + rest)[|bits|..] == rest;
  }

  lemma CycleIsRead(present: bool, delta: nat, rest: seq<bool>)
    requires DeltaFits(present, delta)
    ensures CycleCode(present, delta) + rest == [present] + ((if present then UeCode(delta) else []) + rest)
    ensures ReadCycle(present, (if present then UeCode(delta) else []) + rest) == Done(delta, rest)
  {
    hide UeCode, ReadUe32;
    if present {
      ReadUe32OfUeCode(delta, rest);
    }
  }

  lemma {:induction false} TableIsSkipped(table: seq<TableEntry>, bits: nat, rest: seq<bool>)
    requires forall i :: 0 <= i < |table| ==> table[i].idx < Pow2(bits) && DeltaFits(table[i].msbPresent, table[i].delta)
    ensures SkipSpsEntries(|table|, bits, TableCode(table, bits) + rest) == Done((), rest)
  {
    hide UBits, Pow2, ReadU, CycleCode, ReadCycle, DeltaFits;
    if |table| > 0 {
      var e, tail := table[0], TableCode(table[1..], bits) + rest;
      CycleIsRead(e.msbPresent, e.delta, tail);
      assert TableCode(table, bits) + rest == UBits(e.idx, bits) + (CycleCode(e.msbPresent, e.delta) + tail);
      ReadUOfUBits(e.idx, bits, CycleCode(e.msbPresent, e.delta) + tail);
      TableIsSkipped(table[1..], bits, rest);
    } else {
      assert [] + rest == rest;
    }
  }

  lemma {:induction false} EntriesAreRead(entries: seq<LongTermSyntax>, bits: nat, rest: seq<bool>)
    requires forall i :: 0 <= i < |entries| ==> entries[i].lsb < Pow2(bits) && DeltaFits(entries[i].msbPresent, entries[i].delta)
    ensures ReadEntries(|entries|, bits, EntriesCode(entries, bits) + rest) == Done(entries, rest)
  {
    hide UBits, Pow2, ReadU, CycleCode, ReadCycle, DeltaFits;
    if |entries| > 0 {
      var e, tail := entries[0], EntriesCode(entries[1..], bits) + rest;
      CycleIsRead(e.msbPresent, e.delta, tail);
      var b1 := [e.used] + (CycleCode(e.msbPresent, e.delta) + tail);
      assert EntriesCode(entries, bits) + rest == UBits(e.lsb, bits) + b1;
      ReadUOfUBits(e.lsb, bits, b1);
      EntriesAreRead(entries[1..], bits, rest);
      assert [e] + entries[1..] == entries;
    } else {
      assert [] + rest == rest;
    }
  }

  lemma LongTermIsRead(pp: PicParams, table: seq<TableEntry>, entries: seq<LongTermSyntax>, n: Widths, width: nat, height: nat, rest: seq<bool>)
    requires WidthsOf(pp, n, width, height) && LongTermFits(pp, table, entries, n)
    ensures ReadOriginalLongTerm(pp, LongTermCode(pp, table, entries, n) + rest) == Done(OriginalLongTerm(|table|, entries), rest)
  {
    hide UeCode, ReadUe32, ReadEntries, SkipSpsEntries, TableCode, EntriesCode, Pow2, CeilLog2, WidthsOf, DeltaFits;
    WidthsAre(pp, n, width, height);
    if pp.longTermPresent {
      var b3 := EntriesCode(entries, pp.log2MaxPocLsbMinus4 + 4) + rest;
      var b2 := TableCode(table, n.entry) + b3;
      var b1 := UeCode(|entries|) + b2;
      assert LongTermCode(pp, table, entries, n) + rest == (if pp.numLongTermSps > 0 then UeCode(|table|) else []) + b1;
      ReadUe32OfUeCode(|entries|, b2);
      EntriesAreRead(entries, pp.log2MaxPocLsbMinus4 + 4, rest);
      if pp.numLongTermSps > 0 {
        ReadUe32OfUeCode(|table|, b1);
        TableIsSkipped(table, n.entry, b3);
      } else {
        EmptyTable(n.entry, b3);
        EmptyTable(CeilLog2(pp.numLongTermSps), b3);
        assert [] + b1 == b1 && [] + b3 == b3;
      }
    } else {
      assert [] + rest == rest;
    }
  }

  lemma EmptyTable(bits: nat, b: seq<bool>)
    ensures SkipSpsEntries(0, bits, b) == Done((), b) && TableCode([], bits) == []
  {
  }

  /** Every header of an independent slice segment within the limits of the standard is read back, up to the rest of the slice. */
  lemma HeaderIsRead(pp: PicParams, nalType: nat, pre: PreRps, shortTerm: ShortTermSyntax, table: seq<TableEntry>, entries: seq<LongTermSyntax>,
                     n: Widths, width: nat, height: nat, rest: seq<bool>)
    requires WidthsOf(pp, n, width, height) && !pre.address.dependent
    requires StartFits(pp, nalType, pre.opening, pre.address, n) && FieldsFit(pp, pre.fields)
    requires ShortTermFits(pp, shortTerm, n) && LongTermFits(pp, table, entries, n)
    ensures ReadOriginal(pp, nalType, StartCode(pp, nalType, pre.opening, pre.address, n) + (FieldsCode(pp, pre.fields) + (ShortTermCode(shortTerm, n)
                                      + (LongTermCode(pp, table, entries, n) + rest))))
         == Done(OriginalHeader(pre, OriginalLongTerm(|table|, entries)), rest)
  {
    hide ReadStart, ReadIndependent, SkipShortTerm, ReadOriginalLongTerm, WidthsOf, StartFits, FieldsFit, ShortTermFits, StartCode, FieldsCode,
      ShortTermCode, LongTermCode;
    var b3 := LongTermCode(pp, table, entries, n) + rest;
    var b2 := ShortTermCode(shortTerm, n) + b3;
    StartIsRead(pp, nalType, pre.opening, pre.address, n, width, height, FieldsCode(pp, pre.fields) + b2);
    FieldsAreRead(pp, pre.fields, b2);
    ShortTermIsSkipped(pp, shortTerm, n, width, height, b3);
    LongTermIsRead(pp, table, entries, n, width, height, rest);
  }

  /** A dependent slice segment, which has no reference picture set, is passed through, and so is every IDR slice. */
  lemma OthersPassThrough(s: seq<byte>, at: nat, nalType: byte, rbsp: seq<byte>, pp: PicParams, offset: u32,
                          o: Opening, n: Widths, a: Address, width: nat, height: nat, rest: seq<bool>)
    requires WellFormed(pp) && WithinLimits(pp) && StartsAt(s, at) && SliceUnit(s, at, nalType)
    requires WidthsOf(pp, n, width, height) && StartFits(pp, nalType as nat, o, a, n)
    requires s[at + 2..] == Escape(rbsp) && BitsOf(rbsp) == StartCode(pp, nalType as nat, o, a, n) + rest
    ensures a.dependent || nalType == 19 || nalType == 20 ==> Rewrite(s, pp, offset) == Some(s)
  {
    hide WithinLimits, StartsAt, SliceUnit, WidthsOf, StartFits, ReadStart, BitsOf, EscapeFrom, UnescapeFrom, Rewrite, StartCode;
    UnescapeOfEscape(rbsp, 0);
    StartIsRead(pp, nalType as nat, o, a, n, width, height, rest);
    RewriteOtherwise(s, at, nalType, pp, offset);
  }
}
