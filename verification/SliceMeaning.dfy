/**
 What the slice rewriter means to a decoder: under an SPS without reference picture set tables
 the rewritten header (section 7.3.6.1 of H.265) carries the same fields, the reference picture
 set of the DPB, and the same slice data.
 */
module SliceMeaning {
  import opened Options
  import opened Integers
  import opened Bits
  import opened ExpGolomb
  import opened PictureParameters
  import opened BitWriter
  import opened BitReader
  import opened Emulation
  import opened ReferencePictureSets
  import opened LongTermReferences
  import opened SliceHeader
  import opened SliceRewrite

  /** The header of an independent slice segment up to its reference picture set, under the original SPS. */
  datatype OriginalHeader = OriginalHeader(pre: PreRps, longTerm: OriginalLongTerm)

  function ReadOriginal(pp: PicParams, nalType: nat, bits: seq<bool>): Parsed<OriginalHeader> {
    var (pre, b1) :- ReadPreRps(pp, nalType, bits);
    var (_, b2) :- SkipShortTerm(pp, b1);
    var (longTerm, rest) :- ReadOriginalLongTerm(pp, b2);
    if longTerm.fromSps > pp.numLongTermSps || longTerm.fromSps + |longTerm.entries| > 15 then Stuck
    else Done(OriginalHeader(pre, longTerm), rest)
  }

  // ---------- skipping against the standard ----------

  lemma {:induction false} EntryCount(n: nat, pocBits: nat, bits: seq<bool>)
    requires ReadEntries(n, pocBits, bits).Done?
    ensures |ReadEntries(n, pocBits, bits).value| == n
  {
    hide ReadEntry;
    if n > 0 {
      EntryCount(n - 1, pocBits, ReadEntry(pocBits, bits).rest);
    }
  }

  lemma SkipEntryIsReadEntry(pocBits: nat, bits: seq<bool>)
    requires ReadEntry(pocBits, bits).Done?
    ensures SkipEntry(pocBits + 1, bits) == Done((), ReadEntry(pocBits, bits).rest)
  {
    hide ReadCycle, Value;
    assert bits[pocBits..][1..] == bits[pocBits + 1..];
  }

  lemma {:induction false} SkipIsReadExplicit(i: nat, n: nat, fromSps: nat, idxBits: nat, pocBits: nat, bits: seq<bool>)
    requires i >= fromSps && ReadEntries(n, pocBits, bits).Done?
    ensures SkipEntriesFrom(i, fromSps, i + n, idxBits, pocBits, bits) == Done((), ReadEntries(n, pocBits, bits).rest)
    decreases n
  {
    hide SkipEntry, ReadEntry;
    if n > 0 {
      SkipEntryIsReadEntry(pocBits, bits);
      SkipIsReadExplicit(i + 1, n - 1, fromSps, idxBits, pocBits, ReadEntry(pocBits, bits).rest);
    }
  }

  /** One loop over all entries does what the two kinds of entries need, one kind after the other. */
  lemma {:induction false} SkipIsRead(i: nat, fromSps: nat, n: nat, idxBits: nat, pocBits: nat, bits: seq<bool>, mid: seq<bool>)
    requires i <= fromSps && SkipSpsEntries(fromSps - i, idxBits, bits).Done?
    requires SkipSpsEntries(fromSps - i, idxBits, bits).rest == mid
    requires ReadEntries(n, pocBits, mid).Done?
    ensures SkipEntriesFrom(i, fromSps, fromSps + n, idxBits, pocBits, bits) == Done((), ReadEntries(n, pocBits, mid).rest)
    decreases fromSps - i
  {
    hide SkipEntry, ReadEntries;
    if i < fromSps {
      SkipIsRead(i + 1, fromSps, n, idxBits, pocBits, SkipEntry(idxBits, bits).rest, mid);
    } else {
      SkipIsReadExplicit(i, n, fromSps, idxBits, pocBits, bits);
    }
  }

  lemma SmallUe(bits: seq<bool>)
    requires ReadUe32(bits).Done? && ReadUe32(bits).value <= 32
    ensures UeOfCode(bits) == ReadUe32(bits)
  {
    hide LeadingZeros, ReadUe;
    ReadUeMeetsStandard(bits);
    Pow2Values();
  }

  /** The pieces of the long-term part, and what the code makes of them. */
  lemma SkipPieces(pp: PicParams, bits: seq<bool>, fromSps: nat, b1: seq<bool>, n: nat, b2: seq<bool>, b3: seq<bool>)
    requires SliceSyntaxBounds(pp) && fromSps <= pp.numLongTermSps && fromSps + n <= 15
    requires if pp.numLongTermSps > 0 then ReadUe32(bits) == Done(fromSps, b1) else fromSps == 0 && b1 == bits
    requires ReadUe32(b1) == Done(n, b2)
    requires SkipSpsEntries(fromSps, CeilLog2(pp.numLongTermSps), b2).Done?
    requires SkipSpsEntries(fromSps, CeilLog2(pp.numLongTermSps), b2).rest == b3
    requires ReadEntries(n, PocBits(pp), b3).Done?
    ensures SkipLongTerm(pp, bits) == Done(Skipped(b1, fromSps == 0), ReadEntries(n, PocBits(pp), b3).rest)
    ensures fromSps == 0 ==> ReadLongTerm(PocBits(pp), b1) == ReadEntries(n, PocBits(pp), b3)
  {
    hide ReadUe32, UeOfCode, ReadEntries, SkipEntriesFrom, SkipSpsEntries, CeilLog2, SliceSyntaxBounds, PocBits;
    AtMost32(pp);
    NoSpsEntries(CeilLog2(pp.numLongTermSps), b2);
    assert (fromSps + n) % WORD == fromSps + n;
    if pp.numLongTermSps > 0 {
      SmallUe(bits);
    }
    SmallUe(b1);
    SkipIsRead(0, fromSps, n, CeilLog2(pp.numLongTermSps), PocBits(pp), b2, b3);
  }

  lemma NoSpsEntries(idxBits: nat, bits: seq<bool>)
    ensures SkipSpsEntries(0, idxBits, bits) == Done((), bits)
  {
  }

  lemma AtMost32(pp: PicParams)
    requires SliceSyntaxBounds(pp)
    ensures pp.numLongTermSps <= 32
  {
  }

  /** On every header within the limits of the standard the code skips what the standard reads. */
  lemma SkipMeetsStandard(pp: PicParams, bits: seq<bool>)
    requires SliceSyntaxBounds(pp) && pp.longTermPresent && ReadOriginalLongTerm(pp, bits).Done?
    requires var lt := ReadOriginalLongTerm(pp, bits).value;
             lt.fromSps <= pp.numLongTermSps && lt.fromSps + |lt.entries| <= 15
    ensures var lt := ReadOriginalLongTerm(pp, bits); var skip := SkipLongTerm(pp, bits);
            && skip.Done? && skip.rest == lt.rest
            && skip.value.verbatim == (lt.value.fromSps == 0)
            && (skip.value.verbatim ==> ReadLongTerm(PocBits(pp), skip.value.longTermAt) == Done(lt.value.entries, lt.rest))
  {
    hide ReadUe32, SkipLongTerm, ReadLongTerm, ReadEntries, SkipSpsEntries, CeilLog2, SliceSyntaxBounds;
    var lt := ReadOriginalLongTerm(pp, bits).value;
    var b1 := if pp.numLongTermSps > 0 then ReadUe32(bits).rest else bits;
    var n, b2 := ReadUe32(b1).value, ReadUe32(b1).rest;
    var b3 := SkipSpsEntries(lt.fromSps, CeilLog2(pp.numLongTermSps), b2).rest;
    EntryCount(n, PocBits(pp), b3);
    SkipPieces(pp, bits, lt.fromSps, b1, n, b2, b3);
  }

  // ---------- decoding the rewritten header ----------

  /** The long-term syntax behind the rewriter: kept, or printed from the DPB. */
  function NewLongTerm(pp: PicParams, header: OriginalHeader): seq<LongTermSyntax>
    requires header.longTerm.fromSps > 0 ==> Expressible(RpsOf(pp).longTerm, NowOf(pp, header.pre.fields.pocLsb), 0)
  {
    if header.longTerm.fromSps == 0 then header.longTerm.entries
    else SyntaxOf(RpsOf(pp).longTerm, NowOf(pp, header.pre.fields.pocLsb), 0)
  }

  /** What the header decodes to afterwards. */
  function NewHeader(pp: PicParams, header: OriginalHeader): RewrittenHeader
    requires header.longTerm.fromSps > 0 ==> Expressible(RpsOf(pp).longTerm, NowOf(pp, header.pre.fields.pocLsb), 0)
  {
    RewrittenHeader(header.pre, SetOf(RpsOf(pp)), NewLongTerm(pp, header))
  }

  /** The conditions under which the rewriter can express the picture's references. */
  predicate Rewritable(pp: PicParams, header: OriginalHeader) {
    && Describable(pp.references, pp.current.poc)
    && (header.longTerm.fromSps > 0 ==> Expressible(RpsOf(pp).longTerm, NowOf(pp, header.pre.fields.pocLsb), 0))
  }

  /** The long-term part as the code left it behind, in terms of the original header. */
  predicate Understood(pp: PicParams, header: OriginalHeader, skipped: Skipped, end: seq<bool>) {
    && skipped.verbatim == (pp.longTermPresent && header.longTerm.fromSps == 0)
    && (skipped.verbatim ==> ReadLongTerm(PocBits(pp), skipped.longTermAt) == Done(header.longTerm.entries, end))
    && (!pp.longTermPresent ==> header.longTerm == OriginalLongTerm(0, []))
  }

  /** What the code has parsed when it starts to write. */
  lemma Parse(pp: PicParams, nalType: nat, bits: seq<bool>)
    returns (atFields: seq<bool>, atRps: seq<bool>, skipped: Skipped, end: seq<bool>)
    requires SliceSyntaxBounds(pp) && ReadOriginal(pp, nalType, bits).Done?
    ensures var header := ReadOriginal(pp, nalType, bits).value;
            && end == ReadOriginal(pp, nalType, bits).rest
            && ReadStart(pp, nalType, bits) == Done((header.pre.opening, header.pre.address), atFields)
            && !header.pre.address.dependent
            && ReadIndependent(pp, atFields) == Done(header.pre.fields, atRps)
            && ReadPreRps(pp, nalType, bits) == Done(header.pre, atRps)
            && SkipRps(pp, atRps) == Done(skipped, end)
            && Understood(pp, header, skipped, end)
  {
    hide ReadStart, ReadIndependent, SkipShortTerm, SkipLongTerm, ReadLongTerm, CeilLog2, ReadUe32, SkipSpsEntries, ReadEntries;
    atFields := ReadStart(pp, nalType, bits).rest;
    atRps := ReadIndependent(pp, atFields).rest;
    var b2 := SkipShortTerm(pp, atRps).rest;
    if pp.longTermPresent {
      SkipMeetsStandard(pp, b2);
    }
    skipped, end := SkipRps(pp, atRps).value, SkipRps(pp, atRps).rest;
  }

  lemma ReadRewrittenPieces(pp: PicParams, nalType: nat, bits: seq<bool>, pre: PreRps, b2: seq<bool>,
                            shortTerm: ShortTermSet, b3: seq<bool>, longTerm: seq<LongTermSyntax>, t: seq<bool>)
    requires ReadPreRps(pp, nalType, bits) == Done(pre, [false] + b2)
    requires ReadShortTermSet(0, b2) == Done(shortTerm, b3)
    requires if pp.longTermPresent then ReadLongTerm(PocBits(pp), b3) == Done(longTerm, t) else b3 == t && longTerm == []
    ensures ReadRewritten(pp, nalType, bits) == Done(RewrittenHeader(pre, shortTerm, longTerm), t)
  {
    hide ReadPreRps, ReadShortTermSet, ReadLongTerm;
    ReadFlagOf(false, b2);
  }

  /** The text of the whole new header is decoded as intended, whatever follows it. */
  lemma NewHeaderDecodes(pp: PicParams, nalType: nat, bits: seq<bool>, atRps: seq<bool>,
                         header: OriginalHeader, skipped: Skipped, end: seq<bool>, t: seq<bool>)
    requires WellFormed(pp) && SliceSyntaxBounds(pp)
    requires ReadPreRps(pp, nalType, bits) == Done(header.pre, atRps) && Understood(pp, header, skipped, end)
    requires Rewritable(pp, header) && DistinctPocs(pp.references, pp.current.poc)
    requires header.longTerm.fromSps > 0 ==> NowOf(pp, header.pre.fields.pocLsb).Consistent()
    ensures var rps := RpsText(pp, header.pre.fields.pocLsb, skipped, end);
            && rps.Some?
            && ReadRewritten(pp, nalType, Between(bits, atRps) + rps.value + t) == Done(NewHeader(pp, header), t)
  {
    hide ReadPreRps, ReadShortTermSet, ReadLongTerm, Collected, ShortTermCode, Expressible, NewLongTerm, DistinctPocs, Acceptable, LongTermText, ReadRewritten,
      Describable;
    AcceptableIff(pp.references, pp.current.poc);
    CollectedBounds(pp.references, pp.current.poc);
    var longTerm, b3 := NewLongTermDecodes(pp, header, skipped, end, t);
    CollectedRoundTrip(pp.references, pp.current.poc, b3);
    var b2 := ShortTermCode(RpsOf(pp), 0) + b3;
    var c := PreRpsStable(pp, nalType, bits, [false] + b2);
    assert c == Between(bits, atRps);
    assert Between(bits, atRps) + RpsText(pp, header.pre.fields.pocLsb, skipped, end).value + t == c + ([false] + b2);
    ReadRewrittenPieces(pp, nalType, c + ([false] + b2), header.pre, b2, SetOf(RpsOf(pp)), b3, NewLongTerm(pp, header), t);
  }

  lemma NewLongTermDecodes(pp: PicParams, header: OriginalHeader, skipped: Skipped, end: seq<bool>, t: seq<bool>)
    returns (text: seq<bool>, b: seq<bool>)
    requires WellFormed(pp) && SliceSyntaxBounds(pp) && Rewritable(pp, header) && Understood(pp, header, skipped, end)
    requires header.longTerm.fromSps > 0 ==> NowOf(pp, header.pre.fields.pocLsb).Consistent()
    ensures LongTermText(pp, header.pre.fields.pocLsb, skipped, end) == Some(text) && b == text + t
    ensures pp.longTermPresent ==> ReadLongTerm(PocBits(pp), b) == Done(NewLongTerm(pp, header), t)
    ensures !pp.longTermPresent ==> b == t && NewLongTerm(pp, header) == []
  {
    hide ReadLongTerm, Collected, Expressible, SyntaxOf, Describable, LongTermCode;
    var now := NowOf(pp, header.pre.fields.pocLsb);
    CollectedBounds(pp.references, pp.current.poc);
    text := LongTermText(pp, header.pre.fields.pocLsb, skipped, end).value;
    b := text + t;
    if skipped.verbatim {
      var c := LongTermStable(PocBits(pp), skipped.longTermAt, t);
      assert c == text;
    } else if pp.longTermPresent {
      ReadLongTermOfCode(RpsOf(pp).longTerm, now, t);
    } else {
      assert [] + t == t;
    }
  }

  // ---------- the suffix ----------

  lemma {:induction false} LastOneIs(bits: seq<bool>, lo: nat, hi: nat, at: nat)
    requires lo <= at < hi <= |bits| && bits[at] && forall i :: at < i < hi ==> !bits[i]
    ensures LastOne(bits, lo, hi) == Some(at)
    decreases hi
  {
    if at < hi - 1 {
      LastOneIs(bits, lo, hi - 1, at);
    }
  }

  /**
   Between the reference picture set and the slice data stand the rest of the header and the
   byte alignment of section 7.3.2.12.
   */
  predicate AlignedAfter(bits: seq<bool>, rpsEnd: nat, offset: u32, headerRest: seq<bool>) {
    && offset >= 2 && rpsEnd <= 8 * (offset - 2) <= |bits|
    && bits[..8 * (offset - 2)] == bits[..rpsEnd] + headerRest + Trailing(rpsEnd + |headerRest|)
  }

  /** The suffix is the rest of the header, a fresh alignment, and the same slice data. */
  lemma SuffixIs(head: seq<bool>, bits: seq<bool>, rpsEnd: nat, offset: u32, headerRest: seq<bool>)
    requires AlignedAfter(bits, rpsEnd, offset, headerRest)
    ensures var h := head + headerRest;
            WithSuffix(head, bits, rpsEnd, offset) == Some(h + Trailing(|h|) + bits[8 * (offset - 2)..])
  {
    var d, at := 8 * (offset - 2), rpsEnd + |headerRest|;
    var front := bits[..rpsEnd] + headerRest + Trailing(at);
    assert forall i :: 0 <= i < d ==> bits[i] == front[i];
    LastOneIs(bits, rpsEnd, d, at);
    assert bits[rpsEnd..at] == headerRest;
  }

  // ---------- the theorem ----------

  /** The ranges of section 7.4.3.2.1 for what slice headers depend on: CtbLog2SizeY, MaxPicOrderCntLsb, the tables, the extra bits. */
  predicate WithinLimits(pp: PicParams) {
    var ctbLog2, pocBits := pp.log2MinCbMinus3 + 3 + pp.log2DiffMaxMinCb, pp.log2MaxPocLsbMinus4 + 4;
    && pp.current.id != 0xffff_ffff && Invalid !in pp.current.flags
    && pp.width > 0 && pp.height > 0 && ctbLog2 <= 6 && pocBits <= 16
    && pp.numShortTermSets <= 64 && pp.numLongTermSps <= 32 && pp.numExtraSliceHeaderBits <= 7
  }

  /** Where a NAL unit begins. */
  predicate StartsAt(s: seq<byte>, at: nat) {
    var long, short := |s| >= 4 && s[0] == 0 && s[1] == 0 && s[2] == 0 && s[3] == 1, |s| >= 3 && s[0] == 0 && s[1] == 0 && s[2] == 1;
    at == if long then 4 else if short then 3 else 0
  }

  /** The two bytes of section 7.3.1.2 in front of a slice: nal_unit_type, and a temporal id that is not forbidden. */
  predicate SliceUnit(s: seq<byte>, at: nat, nalType: byte) {
    && at + 3 <= |s| <= INT_MAX && s[at] / 2 == nalType <= 31 && s[at + 1] % 8 != 0
  }

  lemma Masks(h: byte)
    ensures (h >> 1) & 0x3f == h / 2 % 64 && (h & 0x80 == 0 <==> h < 128) && h & 7 == h % 8
  {
  }

  lemma SmallByte(b: byte)
    ensures b as nat <= 31 <==> b <= 31
  {
  }

  lemma TypeOf(h: byte)
    ensures (h < 128 && h / 2 % 64 <= 31 <==> h / 2 <= 31) && (h / 2 <= 31 ==> h / 2 % 64 == h / 2)
  {
  }

  lemma HeaderBytes(h0: byte, h1: byte)
    ensures ValidHeader(h0, h1) <==> h0 / 2 <= 31 && h1 % 8 != 0
    ensures ValidHeader(h0, h1) ==> NalType(h0) == (h0 / 2) as nat
  {
    Masks(h0);
    Masks(h1);
    SmallByte(h0 / 2 % 64);
    TypeOf(h0);
  }

  lemma OffsetIs(s: seq<byte>)
    ensures StartsAt(s, NalOffset(s))
  {
    if |s| >= 4 {
      assert s[..4] == [s[0], s[1], s[2], s[3]];
    }
    if |s| >= 3 {
      assert s[..3] == [s[0], s[1], s[2]];
    }
  }

  /** What the code asks of the bytes and of the picture, in the words of the standard. */
  lemma UnitIs(s: seq<byte>, at: nat, nalType: byte)
    requires StartsAt(s, at)
    ensures NalOffset(s) == at
    ensures SliceUnit(s, at, nalType) ==>
            |s| - at >= 3 && |s| <= INT_MAX && ValidHeader(s[at], s[at + 1]) && NalType(s[at]) == nalType as nat
    ensures |s| - at >= 3 && |s| <= INT_MAX && ValidHeader(s[at], s[at + 1]) ==> SliceUnit(s, at, s[at] / 2)
  {
    hide NalType, ValidHeader;
    OffsetIs(s);
    if |s| - at >= 3 {
      HeaderBytes(s[at], s[at + 1]);
    }
  }

  lemma LimitsAre(pp: PicParams)
    ensures WithinLimits(pp) <==> SliceSyntaxBounds(pp)
  {
  }

  /** What becomes of the slices the theorem below does not speak about. */
  lemma RewriteOtherwise(s: seq<byte>, at: nat, nalType: byte, pp: PicParams, offset: u32)
    requires WellFormed(pp) && StartsAt(s, at)
    ensures !WithinLimits(pp) || (forall t :: !SliceUnit(s, at, t)) ==> Rewrite(s, pp, offset) == None
    ensures WithinLimits(pp) && SliceUnit(s, at, nalType) && (nalType == 19 || nalType == 20) ==> Rewrite(s, pp, offset) == Some(s)
    ensures WithinLimits(pp) && SliceUnit(s, at, nalType) && nalType != 19 && nalType != 20 ==>
              var start := ReadStart(pp, nalType as nat, BitsOf(Unescape(s[at + 2..])));
              && (start.Stuck? ==> Rewrite(s, pp, offset) == None)
              && (start.Done? && start.value.1.dependent ==> Rewrite(s, pp, offset) == Some(s))
  {
    hide WithinLimits, SliceSyntaxBounds, NalOffset, NalType, ValidHeader, ReadStart, BitsOf, UnescapeFrom, SliceUnit, RewriteIndependent;
    LimitsAre(pp);
    UnitIs(s, at, nalType);
    SameType(nalType);
  }

  lemma SameType(b: byte)
    ensures (b as nat == 19 <==> b == 19) && (b as nat == 20 <==> b == 20)
  {
  }

  /** The input of the theorem: a canonically escaped independent slice segment of any type but 19 and 20. */
  predicate IndependentSlice(s: seq<byte>, rbsp: seq<byte>, pp: PicParams, header: OriginalHeader, end: seq<bool>) {
    var at := NalOffset(s);
    && WellFormed(pp) && WithinLimits(pp)
    && |s| >= at + 3 && SliceUnit(s, at, s[at] / 2) && s[at] / 2 != 19 && s[at] / 2 != 20
    && s[at + 2..] == Escape(rbsp)
    && ReadOriginal(pp, NalType(s[at]), BitsOf(rbsp)) == Done(header, end)
  }

  lemma IndependentIs(s: seq<byte>, rbsp: seq<byte>, pp: PicParams, header: OriginalHeader, end: seq<bool>)
    requires IndependentSlice(s, rbsp, pp, header, end)
    ensures SliceSyntaxBounds(pp) && !IsIdr(s)
    ensures var at := NalOffset(s); |s| - at >= 3 && |s| <= INT_MAX && ValidHeader(s[at], s[at + 1])
  {
    hide WithinLimits, SliceSyntaxBounds, NalOffset, NalType, ValidHeader, ReadOriginal, BitsOf;
    var at := NalOffset(s);
    LimitsAre(pp);
    OffsetIs(s);
    UnitIs(s, at, s[at] / 2);
    SameType(s[at] / 2);
  }

  /** The code up to the suffix. */
  lemma RewriteIs(s: seq<byte>, rbsp: seq<byte>, pp: PicParams, offset: u32, header: OriginalHeader, end: seq<bool>)
    returns (atRps: seq<bool>, skipped: Skipped)
    requires IndependentSlice(s, rbsp, pp, header, end)
    ensures var at := NalOffset(s); var bits := BitsOf(rbsp);
            var rps := RpsText(pp, header.pre.fields.pocLsb, skipped, end);
            && ReadPreRps(pp, NalType(s[at]), bits) == Done(header.pre, atRps)
            && Understood(pp, header, skipped, end) && SkipRps(pp, atRps) == Done(skipped, end)
            && (if !Describable(pp.references, pp.current.poc) || rps.None? then Rewrite(s, pp, offset) == None
                else
                  var text := WithSuffix(Between(bits, atRps) + rps.value, bits, Position(bits, end), offset);
                  Rewrite(s, pp, offset) == if text.None? then None else Some(s[..at + 2] + Escape(Pack(text.value))))
  {
    hide BitsOf, ReadOriginal, RpsText, WithSuffix, ReadStart, ReadIndependent, SkipRps, ReadPreRps, Understood, EscapeFrom, UnescapeFrom, Pack, Acceptable;
    var bits := BitsOf(rbsp);
    var nalType := NalType(s[NalOffset(s)]);
    IndependentIs(s, rbsp, pp, header, end);
    AcceptableIff(pp.references, pp.current.poc);
    UnescapeOfEscape(rbsp, 0);
    var atFields;
    var rest;
    atFields, atRps, skipped, rest := Parse(pp, nalType, bits);
  }

  lemma {:induction false} LastOneFound(bits: seq<bool>, lo: nat, hi: nat)
    requires hi <= |bits|
    ensures LastOne(bits, lo, hi).Some? <==> exists i :: lo <= i < hi && bits[i]
  {
    if lo < hi && !bits[hi - 1] {
      LastOneFound(bits, lo, hi - 1);
    }
  }

  lemma SuffixFound(head: seq<bool>, bits: seq<bool>, rpsEnd: nat, offset: u32)
    requires rpsEnd <= |bits|
    ensures WithSuffix(head, bits, rpsEnd, offset).Some? <==>
            offset < 2 || (8 * (offset - 2) <= |bits| && exists i :: rpsEnd <= i < 8 * (offset - 2) && bits[i])
  {
    if offset >= 2 && 8 * (offset - 2) <= |bits| {
      LastOneFound(bits, rpsEnd, 8 * (offset - 2));
    }
  }

  /**
   The rewriter succeeds exactly on the reference sets it can express, when the slice data it is told about lie
   inside the slice, behind the reference picture set and a byte alignment.
   */
  lemma RewriteSucceeds(s: seq<byte>, rbsp: seq<byte>, pp: PicParams, offset: u32, header: OriginalHeader, end: seq<bool>)
    requires IndependentSlice(s, rbsp, pp, header, end)
    ensures var bits := BitsOf(rbsp);
            Rewrite(s, pp, offset).Some? <==>
            && Rewritable(pp, header)
            && (offset >= 2 ==> 8 * (offset - 2) <= |bits| && exists i :: Position(bits, end) <= i < 8 * (offset - 2) && bits[i])
  {
    hide BitsOf, ReadOriginal, WithSuffix, ReadPreRps, EscapeFrom, Pack, Acceptable, Describable, Expressible, Rewrite, ReadLongTerm, Between,
      IndependentSlice;
    IndependentIs(s, rbsp, pp, header, end);
    SliceWellFormed(s, rbsp, pp, header, end);
    var bits := BitsOf(rbsp);
    var atRps, skipped := RewriteIs(s, rbsp, pp, offset, header, end);
    var rps := RpsText(pp, header.pre.fields.pocLsb, skipped, end);
    if rps.Some? {
      SuffixFound(Between(bits, atRps) + rps.value, bits, Position(bits, end), offset);
    }
  }

  lemma SliceWellFormed(s: seq<byte>, rbsp: seq<byte>, pp: PicParams, header: OriginalHeader, end: seq<bool>)
    requires IndependentSlice(s, rbsp, pp, header, end)
    ensures WellFormed(pp)
  {
  }

  /** The long-term pictures of the DPB as a decoder names them. */
  function LongTermOf(refs: seq<Picture>): seq<LongTermRef> {
    var pictures := LongTermRefs(refs);
    seq(|pictures|, i requires 0 <= i < |pictures| => Full(pictures[i].poc, LtCurr in pictures[i].flags))
  }

  /** How a decoder understands the long-term part of the new header: as before, or as section 8.3.2 derives it from the DPB. */
  predicate SameLongTerm(pp: PicParams, header: OriginalHeader, longTerm: seq<LongTermSyntax>) {
    if header.longTerm.fromSps == 0 then longTerm == header.longTerm.entries
    else Derive(longTerm, pp.current.poc, Pow2(pp.log2MaxPocLsbMinus4 + 4), 0) == LongTermOf(pp.references)
  }

  /**
   Slice rewriting preserves meaning.  The output is the same start code and NAL unit header, a
   new slice header, and the very bytes of the slice data, each escaped.  A decoder without RPS
   tables reads from the new header the original fields, the set collected from the DPB, the
   original long-term entries or (where those needed the SPS table) the full counts of the DPB,
   then the rest of the header and the alignment, and it finds the slice data behind that.
   */
  lemma SliceRewritePreservesMeaning(s: seq<byte>, rbsp: seq<byte>, pp: PicParams, offset: u32,
                                     header: OriginalHeader, end: seq<bool>, headerRest: seq<bool>)
    returns (newHeader: seq<byte>, rebuilt: RewrittenHeader, consumed: seq<bool>)
    requires IndependentSlice(s, rbsp, pp, header, end)
    requires AlignedAfter(BitsOf(rbsp), Position(BitsOf(rbsp), end), offset, headerRest)
    requires Rewritable(pp, header) && DistinctPocs(pp.references, pp.current.poc)
    requires header.longTerm.fromSps > 0 ==> NowOf(pp, header.pre.fields.pocLsb).Consistent()
    ensures offset - 2 <= |rbsp|
    ensures var at := NalOffset(s); var sliceData := rbsp[offset - 2..];
            && s == s[..at + 2] + Escape(rbsp[..offset - 2]) + Escape(sliceData)
            && Rewrite(s, pp, offset) == Some(s[..at + 2] + Escape(newHeader) + Escape(sliceData))
            && StandardUnescape(Escape(newHeader) + Escape(sliceData)) == newHeader + sliceData
            && BitsOf(newHeader) == consumed + headerRest + Trailing(|consumed + headerRest|)
            && ReadRewritten(pp, NalType(s[at]), BitsOf(newHeader + sliceData))
                 == Done(rebuilt, headerRest + Trailing(|consumed + headerRest|) + BitsOf(sliceData))
    ensures rebuilt.pre == header.pre
    ensures Describes(rebuilt.shortTerm, pp.references, pp.current.poc)
    ensures SameLongTerm(pp, header, rebuilt.longTerm)
  {
    hide BitsOf, ReadOriginal, WithSuffix, ReadPreRps, EscapeFrom, StandardUnescapeFrom, Pack, Acceptable, Expressible, Rewrite,
      ReadLongTerm, RpsText, Understood, Trailing, NewLongTerm, ReadRewritten, DistinctPocs, NalOffset, Between, Describable, Describes, WithinLimits, SliceUnit, SameLongTerm, IsIdr;
    var bits := BitsOf(rbsp);
    IndependentIs(s, rbsp, pp, header, end);
    var at, d := NalOffset(s), offset - 2;
    OldHeaderEndsNonzero(rbsp, Position(bits, end), offset, headerRest);
    var sliceData := rbsp[d..];
    BitsOfTail(rbsp, d);
    var atRps, skipped := RewriteIs(s, rbsp, pp, offset, header, end);
    NewHeaderDecodes(pp, NalType(s[at]), bits, atRps, header, skipped, end, []);
    consumed := Between(bits, atRps) + RpsText(pp, header.pre.fields.pocLsb, skipped, end).value;
    SuffixIs(consumed, bits, Position(bits, end), offset, headerRest);
    var h := consumed + headerRest;
    var text := h + Trailing(|h|);
    newHeader := PackAligned(text, sliceData);
    TrailingEndsNonzero(newHeader, h);
    EscapeDistributes(newHeader, sliceData);
    UnescapeOfEscape(newHeader + sliceData, 0);
    EscapeDistributes(rbsp[..d], sliceData);
    assert rbsp == rbsp[..d] + sliceData;
    BitsOfAppend(newHeader, sliceData);
    var t := headerRest + Trailing(|h|) + BitsOf(sliceData);
    NewHeaderDecodes(pp, NalType(s[at]), bits, atRps, header, skipped, end, t);
    assert consumed + t == text + BitsOf(sliceData);
    rebuilt := NewHeader(pp, header);
    CollectedSetMeaning(pp.references, pp.current.poc);
    NewLongTermMeans(pp, header);
    Regroup(s[..at + 2], Escape(newHeader), Escape(sliceData));
    Regroup(s[..at + 2], Escape(rbsp[..d]), Escape(sliceData));
    assert s == s[..at + 2] + s[at + 2..];
  }

  lemma RpsIsText(pp: PicParams, header: OriginalHeader, skipped: Skipped, end: seq<bool>) returns (rps: seq<bool>)
    requires WellFormed(pp) && Rewritable(pp, header) && Understood(pp, header, skipped, end)
    ensures RpsText(pp, header.pre.fields.pocLsb, skipped, end) == Some(rps)
  {
    hide Expressible, Describable, Collected, ReadLongTerm;
    rps := RpsText(pp, header.pre.fields.pocLsb, skipped, end).value;
  }

  lemma SuffixIsShorter(bits: seq<bool>, rest: seq<bool>)
    requires Suffix(bits, rest)
    ensures |rest| <= |bits| && Position(bits, rest) == |bits| - |rest|
  {
  }

  /** The positions in front of and behind the reference picture set. */
  lemma PositionsAdd(pp: PicParams, nalType: nat, bits: seq<bool>, header: OriginalHeader, atRps: seq<bool>, end: seq<bool>)
    requires ReadPreRps(pp, nalType, bits) == Done(header.pre, atRps) && ReadOriginal(pp, nalType, bits) == Done(header, end)
    ensures |Between(bits, atRps)| + Position(atRps, end) == Position(bits, end)
  {
    hide ReadPreRps, SkipShortTerm, ReadOriginalLongTerm, Suffix, Position;
    var b2 := SkipShortTerm(pp, atRps).rest;
    var c := PreRpsStable(pp, nalType, bits, []);
    SuffixSplit(c, atRps);
    ShortTermConsumes(pp, atRps);
    LongTermConsumes(pp, b2);
    SuffixTwice(atRps, b2, end);
    SuffixTwice(bits, atRps, end);
    SuffixIsShorter(bits, atRps);
    SuffixIsShorter(atRps, end);
    SuffixIsShorter(bits, end);
  }

  lemma UeShortens(bits: seq<bool>)
    requires UeOfCode(bits).Done?
    ensures |UeOfCode(bits).rest| <= |bits|
  {
    hide ReadUe32, UeAsRead, Suffix;
    UeConsumes(bits);
    SuffixIsShorter(bits, ReadUe32(bits).rest);
  }

  /** A long-term part that is kept stands inside the set. */
  lemma KeptIsShort(pp: PicParams, atRps: seq<bool>, skipped: Skipped, end: seq<bool>)
    requires SkipRps(pp, atRps) == Done(skipped, end)
    ensures skipped.verbatim ==> Position(skipped.longTermAt, end) <= Position(atRps, end)
  {
    hide SkipEntriesFrom, CeilLog2, UeOfCode, SkipShortTerm, Suffix, Position;
    var b1 := SkipShortTerm(pp, atRps).rest;
    ShortTermConsumes(pp, atRps);
    SuffixIsShorter(atRps, b1);
    if pp.longTermPresent && pp.numLongTermSps > 0 {
      UeShortens(b1);
    }
    PositionGrows(skipped.longTermAt, atRps, end);
  }

  lemma PositionGrows(a: seq<bool>, b: seq<bool>, rest: seq<bool>)
    ensures |a| <= |b| ==> Position(a, rest) <= Position(b, rest)
  {
  }

  lemma HeaderIsShort(bits: seq<bool>, rpsEnd: nat, offset: u32, headerRest: seq<bool>)
    requires AlignedAfter(bits, rpsEnd, offset, headerRest)
    ensures offset >= 2 && rpsEnd + |headerRest| <= 8 * (offset - 2) <= |bits|
  {
  }

  lemma TrailingIsShort(n: nat)
    ensures |Trailing(n)| <= 8 && (n + |Trailing(n)|) % 8 == 0
  {
  }

  lemma PayloadIs(s: seq<byte>, rbsp: seq<byte>, pp: PicParams, header: OriginalHeader, end: seq<bool>)
    requires IndependentSlice(s, rbsp, pp, header, end)
    ensures NalOffset(s) + 2 <= |s| && |s| == NalOffset(s) + 2 + |Escape(rbsp)|
    ensures ReadOriginal(pp, NalType(s[NalOffset(s)]), BitsOf(rbsp)) == Done(header, end)
  {
    assert s == s[..NalOffset(s) + 2] + s[NalOffset(s) + 2..];
  }

  /** The header in front of the slice data grows by at most 376 bytes before it is escaped. */
  lemma NewHeaderIsShort(s: seq<byte>, rbsp: seq<byte>, pp: PicParams, offset: u32, header: OriginalHeader, end: seq<bool>, headerRest: seq<bool>)
    returns (head: seq<bool>)
    requires IndependentSlice(s, rbsp, pp, header, end) && Rewritable(pp, header)
    requires AlignedAfter(BitsOf(rbsp), Position(BitsOf(rbsp), end), offset, headerRest)
    ensures WellFormed(pp) && offset >= 2 && |head + Trailing(|head|)| <= 8 * (offset - 2) + 3008
    ensures 8 * (offset - 2) <= |BitsOf(rbsp)|
    ensures Rewrite(s, pp, offset) == Some(s[..NalOffset(s) + 2] + Escape(Pack(head + Trailing(|head|) + BitsOf(rbsp)[8 * (offset - 2)..])))
  {
    hide BitsOf, ReadOriginal, WithSuffix, ReadPreRps, EscapeFrom, Pack, Describable, Expressible, Rewrite, ReadLongTerm, RpsText, Trailing,
      NalOffset, IndependentSlice, AlignedAfter, Rewritable, Understood, SkipRps, Position;
    IndependentIs(s, rbsp, pp, header, end);
    SliceWellFormed(s, rbsp, pp, header, end);
    var bits := BitsOf(rbsp);
    var atRps, skipped := RewriteIs(s, rbsp, pp, offset, header, end);
    var rps := RpsIsText(pp, header, skipped, end);
    RpsTextLength(pp, header.pre.fields.pocLsb, skipped, end);
    KeptIsShort(pp, atRps, skipped, end);
    PayloadIs(s, rbsp, pp, header, end);
    PositionsAdd(pp, NalType(s[NalOffset(s)]), bits, header, atRps, end);
    head := Between(bits, atRps) + rps + headerRest;
    HeaderIsShort(bits, Position(bits, end), offset, headerRest);
    SuffixIs(Between(bits, atRps) + rps, bits, Position(bits, end), offset, headerRest);
    TrailingIsShort(|head|);
    DescribableHere(pp, header);
  }

  lemma DescribableHere(pp: PicParams, header: OriginalHeader)
    requires Rewritable(pp, header)
    ensures Describable(pp.references, pp.current.poc)
  {
  }

  /**
   The buffer of the slice's size plus 4096 bytes holds the result whenever the slice data begin within the
   first 7000 bytes; the data themselves never grow.
   */
  lemma RewrittenSliceFits(s: seq<byte>, rbsp: seq<byte>, pp: PicParams, offset: u32, header: OriginalHeader, end: seq<bool>, headerRest: seq<bool>)
    requires IndependentSlice(s, rbsp, pp, header, end) && Rewritable(pp, header)
    requires AlignedAfter(BitsOf(rbsp), Position(BitsOf(rbsp), end), offset, headerRest) && offset <= 7000
    ensures WellFormed(pp) && Rewrite(s, pp, offset).Some? && |Rewrite(s, pp, offset).value| <= |s| + 4096
  {
    hide BitsOf, EscapeFrom, Pack, Rewrite, Trailing, NalOffset, IndependentSlice, AlignedAfter, Rewritable, Position;
    var d := offset - 2;
    var head := NewHeaderIsShort(s, rbsp, pp, offset, header, end, headerRest);
    OldHeaderEndsNonzero(rbsp, Position(BitsOf(rbsp), end), offset, headerRest);
    BitsOfTail(rbsp, d);
    TrailingIsShort(|head|);
    var newHeader := PackAligned(head + Trailing(|head|), rbsp[d..]);
    TrailingEndsNonzero(newHeader, head);
    EscapeDistributes(newHeader, rbsp[d..]);
    EscapeDistributes(rbsp[..d], rbsp[d..]);
    assert rbsp == rbsp[..d] + rbsp[d..];
    EscapeGrowth(newHeader, 0);
    EscapeGrowth(rbsp[..d], 0);
    PayloadIs(s, rbsp, pp, header, end);
  }

  lemma NewLongTermMeans(pp: PicParams, header: OriginalHeader)
    requires WellFormed(pp) && SliceSyntaxBounds(pp) && Rewritable(pp, header)
    requires header.longTerm.fromSps > 0 ==> NowOf(pp, header.pre.fields.pocLsb).Consistent()
    ensures SameLongTerm(pp, header, NewLongTerm(pp, header))
  {
    hide Expressible, Describable, Collected, LongTermRefs;
    CollectedLongTerm(pp.references, pp.current.poc);
    if header.longTerm.fromSps > 0 {
      DeriveOfSyntax(RpsOf(pp).longTerm, NowOf(pp, header.pre.fields.pocLsb), 0);
    }
  }

  lemma OldHeaderEndsNonzero(rbsp: seq<byte>, rpsEnd: nat, offset: u32, headerRest: seq<bool>)
    requires AlignedAfter(BitsOf(rbsp), rpsEnd, offset, headerRest)
    ensures offset - 2 <= |rbsp| && offset > 2 && rbsp[offset - 3] != 0
  {
    hide BitsOf;
    var d := offset - 2;
    BitsOfSlice(rbsp, 0, d);
    assert BitsOf(rbsp[..d]) == BitsOf(rbsp)[..8 * d];
    TrailingEndsNonzero(rbsp[..d], BitsOf(rbsp)[..rpsEnd] + headerRest);
  }

  // ---------- without an offset ----------

  /** `rest` is what a cursor at Position(bits, rest) has in front of it. */
  predicate Suffix(bits: seq<bool>, rest: seq<bool>) {
    bits[Position(bits, rest)..] == rest
  }

  lemma SuffixSplit(c: seq<bool>, rest: seq<bool>)
    ensures Suffix(c + rest, rest)
  {
  }

  lemma SuffixTwice(a: seq<bool>, b: seq<bool>, c: seq<bool>)
    requires Suffix(a, b) && Suffix(b, c)
    ensures Suffix(a, c)
  {
    assert a == a[..Position(a, b)] + b && b == b[..Position(b, c)] + c;
    assert a == a[..Position(a, b)] + b[..Position(b, c)] + c;
  }

  lemma SkipEntryConsumes(width: nat, bits: seq<bool>)
    requires SkipEntry(width, bits).Done?
    ensures Suffix(bits, SkipEntry(width, bits).rest)
  {
    hide ReadCycle, Value, Suffix;
    var b1, b2 := bits[width..], bits[width..][1..];
    var c := CycleStable(b1[0], b2, []);
    var front := bits[..width] + ([b1[0]] + c);
    var rest := SkipEntry(width, bits).rest;
    assert b1 == [b1[0]] + b2 && b2 == c + rest;
    assert bits == bits[..width] + b1;
    assert bits == front + rest;
    SuffixSplit(front, SkipEntry(width, bits).rest);
  }

  lemma {:induction false} SpsEntriesConsume(n: nat, idxBits: nat, bits: seq<bool>)
    requires SkipSpsEntries(n, idxBits, bits).Done?
    ensures Suffix(bits, SkipSpsEntries(n, idxBits, bits).rest)
  {
    hide SkipEntry, Suffix;
    if n > 0 {
      var rest := SkipEntry(idxBits, bits).rest;
      SkipEntryConsumes(idxBits, bits);
      SpsEntriesConsume(n - 1, idxBits, rest);
      SuffixTwice(bits, rest, SkipSpsEntries(n, idxBits, bits).rest);
    } else {
      assert [] + bits == bits;
      SuffixSplit([], bits);
    }
  }

  lemma UeConsumes(bits: seq<bool>)
    requires ReadUe32(bits).Done?
    ensures Suffix(bits, ReadUe32(bits).rest)
  {
    hide ReadUe32, Suffix;
    var c := Ue32Stable(bits, []);
    SuffixSplit(c, ReadUe32(bits).rest);
  }

  lemma LongTermConsumes(pp: PicParams, bits: seq<bool>)
    requires ReadOriginalLongTerm(pp, bits).Done?
    ensures Suffix(bits, ReadOriginalLongTerm(pp, bits).rest)
  {
    hide ReadUe32, SkipSpsEntries, ReadEntries, CeilLog2, Suffix;
    assert [] + bits == bits;
    SuffixSplit([], bits);
    if pp.longTermPresent {
      var r0 := if pp.numLongTermSps > 0 then ReadUe32(bits) else Done(0, bits);
      if pp.numLongTermSps > 0 {
        UeConsumes(bits);
      }
      UeConsumes(r0.rest);
      var b2 := ReadUe32(r0.rest).rest;
      SuffixTwice(bits, r0.rest, b2);
      SpsEntriesConsume(r0.value, CeilLog2(pp.numLongTermSps), b2);
      var b3 := SkipSpsEntries(r0.value, CeilLog2(pp.numLongTermSps), b2).rest;
      SuffixTwice(bits, b2, b3);
      var n := ReadUe32(r0.rest).value;
      var c := EntriesStable(n, PocBits(pp), b3, []);
      SuffixSplit(c, ReadEntries(n, PocBits(pp), b3).rest);
      SuffixTwice(bits, b3, ReadEntries(n, PocBits(pp), b3).rest);
    }
  }

  lemma ShortTermConsumes(pp: PicParams, bits: seq<bool>)
    requires SkipShortTerm(pp, bits).Done?
    ensures Suffix(bits, SkipShortTerm(pp, bits).rest)
  {
    hide CeilLog2, Value;
    var n := if bits[0] then CeilLog2(pp.numShortTermSets) else pp.stRpsBits;
    assert bits[1..][n..] == bits[n + 1..];
  }

  lemma OriginalConsumes(pp: PicParams, nalType: nat, bits: seq<bool>)
    requires ReadOriginal(pp, nalType, bits).Done?
    ensures Suffix(bits, ReadOriginal(pp, nalType, bits).rest)
  {
    hide ReadPreRps, SkipShortTerm, ReadOriginalLongTerm, Suffix;
    var b1 := ReadPreRps(pp, nalType, bits).rest;
    var b2 := SkipShortTerm(pp, b1).rest;
    var c := PreRpsStable(pp, nalType, bits, []);
    SuffixSplit(c, b1);
    ShortTermConsumes(pp, b1);
    LongTermConsumes(pp, b2);
    SuffixTwice(bits, b1, b2);
    SuffixTwice(bits, b2, ReadOriginal(pp, nalType, bits).rest);
  }

  /**
   Without a slice data offset everything behind the reference picture set is kept bit for bit;
   the new set may leave it at another position in its byte, with zero bits behind it.
   */
  lemma RewriteWithoutOffset(s: seq<byte>, rbsp: seq<byte>, pp: PicParams, offset: u32,
                             header: OriginalHeader, end: seq<bool>)
    returns (rebuilt: seq<byte>, consumed: seq<bool>)
    requires IndependentSlice(s, rbsp, pp, header, end) && offset < 2
    requires Rewritable(pp, header) && DistinctPocs(pp.references, pp.current.poc)
    requires header.longTerm.fromSps > 0 ==> NowOf(pp, header.pre.fields.pocLsb).Consistent()
    ensures Rewrite(s, pp, offset) == Some(s[..NalOffset(s) + 2] + Escape(rebuilt))
    ensures var r := ReadRewritten(pp, NalType(s[NalOffset(s)]), BitsOf(rebuilt));
            && r.Done? && r.value == NewHeader(pp, header) && SameLongTerm(pp, header, r.value.longTerm)
            && |end| <= |r.rest| < |end| + 8 && r.rest == end + Zeros(|r.rest| - |end|)
    ensures rebuilt == Pack(consumed + end) && Suffix(BitsOf(rbsp), end)
    ensures ReadRewritten(pp, NalType(s[NalOffset(s)]), consumed) == Done(NewHeader(pp, header), [])
    ensures forall d: u32 :: d >= 2 ==>
              var text := WithSuffix(consumed, BitsOf(rbsp), Position(BitsOf(rbsp), end), d);
              Rewrite(s, pp, d) == if text.None? then None else Some(s[..NalOffset(s) + 2] + Escape(Pack(text.value)))
  {
    hide BitsOf, ReadOriginal, ReadPreRps, EscapeFrom, Pack, Acceptable, Expressible, Rewrite, ReadLongTerm, RpsText,
      Understood, NewLongTerm, ReadRewritten, DistinctPocs, NalOffset, Between, SameLongTerm;
    var bits := BitsOf(rbsp);
    var nalType := NalType(s[NalOffset(s)]);
    var atRps, skipped := RewriteIs(s, rbsp, pp, offset, header, end);
    OriginalConsumes(pp, nalType, bits);
    NewHeaderDecodes(pp, nalType, bits, atRps, header, skipped, end, []);
    consumed := Between(bits, atRps) + RpsText(pp, header.pre.fields.pocLsb, skipped, end).value;
    assert consumed + [] == consumed;
    forall d: u32 | d >= 2
      ensures var text := WithSuffix(consumed, bits, Position(bits, end), d);
              Rewrite(s, pp, d) == if text.None? then None else Some(s[..NalOffset(s) + 2] + Escape(Pack(text.value)))
    {
      var again, same := RewriteIs(s, rbsp, pp, d, header, end);
      assert again == atRps && same == skipped;
    }
    var text := consumed + end;
    rebuilt := Pack(text);
    BitsOfPack(text);
    var t := end + Zeros(8 * |rebuilt| - |text|);
    assert BitsOf(rebuilt) == consumed + t;
    NewHeaderDecodes(pp, nalType, bits, atRps, header, skipped, end, t);
    NewLongTermMeans(pp, header);
  }

  // ---------- a slice the theorem speaks about ----------

  function NoPicture(): Picture {
    Picture(VA_INVALID_SURFACE, 0, {})
  }

  /** A 64x64 picture without references; the inline reference picture set of its slices has two bits. */
  function SamplePicture(sets: u8): PicParams {
    PicParams(Picture(1, 1, {}), seq(15, i => NoPicture()), 64, 64, 0, 3, 0, sets, 0, 2, 0, false, false, false, false,
              SpsParams(1, 0, true, 0, 0, 0, 3, 0, 0, false, false, false, 0, 0, 0, 0, false, false, false),
              PpsParams(false, false, 0, 0, 0, false, false, false, 0, 0, 0, false, false, false, false, false, false, 0, 0,
                        seq(19, i => 0), seq(21, i => 0), false, false, false, false, 0, 0, false, false, 0, false))
  }

  const SAMPLE_RBSP: seq<byte> := [0xd8, 0xb8, 0x80]
  const SAMPLE_SLICE: seq<byte> := [0x02, 0x01, 0xd8, 0xb8, 0x80]

  lemma SampleBits()
    ensures BitsOf(SAMPLE_RBSP) == [true] + ([true] + ([false, true, true] + ([false, false, false, true] + ([false] + ([true, true]
              + [true, false, false, false, true, false, false, false, false, false, false, false])))))
  {
    var b := BitsOf(SAMPLE_RBSP);
    assert BitAt(0xd8, 0) && BitAt(0xd8, 1) && !BitAt(0xd8, 2) && BitAt(0xd8, 3) && BitAt(0xd8, 4) && !BitAt(0xd8, 5) && !BitAt(0xd8, 6) && !BitAt(0xd8, 7);
    assert BitAt(0xb8, 0) && !BitAt(0xb8, 1) && BitAt(0xb8, 2) && BitAt(0xb8, 3) && BitAt(0xb8, 4) && !BitAt(0xb8, 5) && !BitAt(0xb8, 6) && !BitAt(0xb8, 7);
    assert BitAt(0x80, 0) && !BitAt(0x80, 1) && !BitAt(0x80, 2) && !BitAt(0x80, 3) && !BitAt(0x80, 4) && !BitAt(0x80, 5) && !BitAt(0x80, 6) && !BitAt(0x80, 7);
  }

  lemma SmallCodes()
    ensures UeCode(0) == [true] && UeCode(2) == [false, true, true] && UBits(1, 4) == [false, false, false, true] && Pow2(4) == 16
  {
    assert Log2(1) == 0 && Log2(3) == 1;
    assert UBits(1, 1) == UBits(0, 0) + [true];
    assert UBits(3, 2) == UBits(1, 1) + [true];
    assert UBits(1, 2) == UBits(0, 1) + [true];
    assert UBits(0, 1) == UBits(0, 0) + [false] && UBits(0, 2) == UBits(0, 1) + [false] && UBits(0, 3) == UBits(0, 2) + [false];
    assert UBits(1, 4) == UBits(0, 3) + [true];
  }

  /** The theorem's conditions are met, by an ordinary slice. */
  lemma SampleIsRewritten() returns (header: OriginalHeader, end: seq<bool>)
    ensures IndependentSlice(SAMPLE_SLICE, SAMPLE_RBSP, SamplePicture(0), header, end)
    ensures AlignedAfter(BitsOf(SAMPLE_RBSP), Position(BitsOf(SAMPLE_RBSP), end), 4, [])
    ensures Rewritable(SamplePicture(0), header) && DistinctPocs(SamplePicture(0).references, SamplePicture(0).current.poc)
    ensures header.longTerm.fromSps == 0
  {
    hide SamplePicture, BitsOf, ReadOriginal, AlignedAfter, EscapeFrom, Expressible, NalOffset, ValidHeader, NalType, ReadUe32, ReadU,
      UeCode, UBits, WellFormed, SliceSyntaxBounds, Describable, DistinctPocs, Pow2, Collected, WithinLimits, SliceUnit;
    SampleBits();
    SmallCodes();
    end := [true, false, false, false, true, false, false, false, false, false, false, false];
    var b6 := [true, true] + end;
    var b5 := [false] + b6;
    var b4 := UBits(1, 4) + b5;
    var b3 := UeCode(2) + b4;
    var b2 := UeCode(0) + b3;
    var bits := [true] + b2;
    assert BitsOf(SAMPLE_RBSP) == bits;
    ReadFlagOf(true, b2);
    ReadUe32OfUeCode(0, b3);
    ReadUe32OfUeCode(2, b4);
    ReadUOfUBits(1, 4, b5);
    ReadFlagOf(false, b6);
    header := SampleHeader();
    SampleReads(bits, b2, b3, b4, b5, b6, end);
    SampleAligned(bits, end);
    SampleNal();
  }

  function SampleHeader(): OriginalHeader {
    OriginalHeader(PreRps(Opening(true, false, 0), Address(false, 0), Independent(0, 2, false, 0, 1)), OriginalLongTerm(0, []))
  }

  lemma SampleReads(bits: seq<bool>, b2: seq<bool>, b3: seq<bool>, b4: seq<bool>, b5: seq<bool>, b6: seq<bool>, end: seq<bool>)
    requires ReadFlag(bits) == Done(true, b2) && ReadUe32(b2) == Done(0, b3) && ReadUe32(b3) == Done(2, b4)
    requires ReadU(4, b4) == Done(1, b5) && ReadFlag(b5) == Done(false, b6) && b6 == [true, true] + end
    ensures ReadOriginal(SamplePicture(0), 1, bits) == Done(SampleHeader(), end)
  {
    hide ReadUe32, CeilLog2, Value, SamplePicture;
    var pp := SamplePicture(0);
    SampleFields(0);
    NothingRead(b3);
    NothingRead(b4);
    assert b6[2..] == end;
    assert ReadIndependent(pp, b3) == Done(Independent(0, 2, false, 0, 1), b5);
    assert SkipShortTerm(pp, b5) == Done((), end);
  }

  lemma SampleFields(sets: u8)
    requires sets <= 64
    ensures var pp := SamplePicture(sets);
            && WellFormed(pp) && SliceSyntaxBounds(pp) && WithinLimits(pp) && PocBits(pp) == 4 && pp.numExtraSliceHeaderBits == 0 && pp.stRpsBits == 2
            && !pp.outputFlagPresent && !pp.separateColourPlane && !pp.longTermPresent && pp.numLongTermSps == 0 && pp.numShortTermSets == sets
            && pp.current.poc == 1 && forall i :: 0 <= i < 15 ==> pp.references[i] == NoPicture()
  {
  }

  lemma NothingRead(bits: seq<bool>)
    ensures ReadU(0, bits) == Done(0, bits)
  {
    assert bits[..0] == [] && bits[0..] == bits;
  }

  lemma SampleAligned(bits: seq<bool>, end: seq<bool>)
    requires end == [true, false, false, false, true, false, false, false, false, false, false, false]
    requires |bits| == 24 && bits[12..] == end
    ensures AlignedAfter(bits, Position(bits, end), 4, [])
  {
    assert bits[12..16] == end[..4] == Trailing(12);
    assert bits[..16] == bits[..12] + [] + Trailing(12);
  }

  lemma SampleNal()
    ensures var pp := SamplePicture(0); var s := SAMPLE_SLICE;
            && NalOffset(s) == 0 && ValidHeader(s[0], s[1]) && NalType(s[0]) == 1 && s[2..] == SAMPLE_RBSP == Escape(SAMPLE_RBSP)
            && WellFormed(pp) && SliceSyntaxBounds(pp)
            && Describable(pp.references, pp.current.poc) && DistinctPocs(pp.references, pp.current.poc)
            && WithinLimits(pp) && SliceUnit(s, 0, s[0] / 2) && s[0] / 2 == 1
  {
    var r := SAMPLE_RBSP;
    assert SAMPLE_SLICE[2..] == r;
    EscapeStep(r, r[1..], 0);
    EscapeStep(r[1..], r[2..], 0);
    EscapeStep(r[2..], r[3..], 0);
    assert r == [r[0]] + ([r[1]] + ([r[2]] + []));
    SampleFields(0);
  }
}
