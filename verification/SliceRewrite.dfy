/**
 rk_hevc_rewrite_slice_nal of src/hevc.c: the slice NAL unit is unescaped, its header parsed up
 to the reference picture set, the set replaced by the explicit one, the rest copied, and the
 result escaped again.  The method is proved against the function `Rewrite`; what that function
 means to a decoder is the subject of module SliceMeaning.
 */
module SliceRewrite {
  import opened Options
  import opened Integers
  import opened Bits
  import opened ExpGolomb
  import opened PictureParameters
  import opened BitWriter
  import opened BitReader
  import opened Emulation
  import opened ReferencePictureSets
  import opened LongTermReferences
  import opened SliceHeader


  // ---------- what the code parses ----------

  /** Where num_long_term_pics stands, and whether the long-term part behind it can be kept. */
  datatype Skipped = Skipped(longTermAt: seq<bool>, verbatim: bool)

  function SkipEntriesFrom(i: nat, fromSps: nat, total: nat, idxBits: nat, pocBits: nat, bits: seq<bool>): Parsed<()>
    decreases total - i
  {
    if i >= total then Done((), bits)
    else
      var (_, b1) :- SkipEntry(if i < fromSps then idxBits else pocBits + 1, bits);
      SkipEntriesFrom(i + 1, fromSps, total, idxBits, pocBits, b1)
  }

  function SkipLongTerm(pp: PicParams, bits: seq<bool>): Parsed<Skipped> {
    var (fromSps, b1) :- if pp.numLongTermSps > 0 then UeOfCode(bits) else Done(0, bits);
    var (n, b2) :- UeOfCode(b1);
    if fromSps > pp.numLongTermSps || (fromSps + n) % WORD > 15 then Stuck
    else
      var (_, rest) :- SkipEntriesFrom(0, fromSps, (fromSps + n) % WORD, CeilLog2(pp.numLongTermSps), PocBits(pp), b2);
      Done(Skipped(b1, fromSps == 0), rest)
  }

  /** skip_original_rps. */
  function SkipRps(pp: PicParams, bits: seq<bool>): Parsed<Skipped> {
    var (_, b1) :- SkipShortTerm(pp, bits);
    if pp.longTermPresent then SkipLongTerm(pp, b1) else Done(Skipped([], false), b1)
  }

  // ---------- what the code writes ----------

  /** The cursor position at which `rest` is left of `bits`. */
  function Position(bits: seq<bool>, rest: seq<bool>): (at: nat)
    ensures at <= |bits|
  {
    if |rest| <= |bits| then |bits| - |rest| else 0
  }

  function Between(from: seq<bool>, to: seq<bool>): seq<bool> {
    from[..Position(from, to)]
  }

  function RpsOf(pp: PicParams): Rps {
    Collected(pp.references, pp.current.poc)
  }

  function NowOf(pp: PicParams, pocLsb: nat): Now {
    Now(pp.current.poc, pocLsb, PocBits(pp))
  }

  /** The long-term part: kept, or printed from the DPB, or impossible. */
  function LongTermText(pp: PicParams, pocLsb: nat, skipped: Skipped, end: seq<bool>): Option<seq<bool>>
    requires WellFormed(pp)
  {
    var longTerm := RpsOf(pp).longTerm;
    CollectedBounds(pp.references, pp.current.poc);
    if skipped.verbatim then Some(Between(skipped.longTermAt, end))
    else if !pp.longTermPresent then Some([])
    else if !Expressible(longTerm, NowOf(pp, pocLsb), 0) then None
    else Some(LongTermCode(longTerm, NowOf(pp, pocLsb)))
  }

  /** short_term_ref_pic_set_sps_flag = 0 and both parts of the set. */
  function RpsText(pp: PicParams, pocLsb: nat, skipped: Skipped, end: seq<bool>): (text: Option<seq<bool>>)
    requires WellFormed(pp)
    ensures text.Some? ==> text.value != []
  {
    CollectedBounds(pp.references, pp.current.poc);
    var longTerm :- LongTermText(pp, pocLsb, skipped, end);
    Some([false] + (ShortTermCode(RpsOf(pp), 0) + longTerm))
  }

  /** The last set bit of `bits[lo..hi]`. */
  function LastOne(bits: seq<bool>, lo: nat, hi: nat): (at: Option<nat>)
    requires hi <= |bits|
    ensures at.Some? ==> lo <= at.value < hi && bits[at.value]
  {
    if hi <= lo then None
    else if bits[hi - 1] then Some(hi - 1)
    else LastOne(bits, lo, hi - 1)
  }

  /**
   What follows the reference picture set when `head` has been written: with an offset, the rest
   of the header, a fresh alignment, and the slice data.
   */
  function WithSuffix(head: seq<bool>, bits: seq<bool>, rpsEnd: nat, offset: u32): Option<seq<bool>>
    requires rpsEnd <= |bits|
  {
    if offset < 2 then Some(head + bits[rpsEnd..])
    else
      var sliceData := (offset - 2) * 8;
      if sliceData > |bits| then None
      else
        var align :- LastOne(bits, rpsEnd, sliceData);
        var aligned := head + bits[rpsEnd..align];
        Some(aligned + Trailing(|aligned|) + bits[sliceData..])
  }

  function RewriteIndependent(pp: PicParams, bits: seq<bool>, atFields: seq<bool>, offset: u32): Option<seq<bool>>
    requires WellFormed(pp)
  {
    match ReadIndependent(pp, atFields)
    case Stuck => None
    case Done(fields, atRps) =>
      match SkipRps(pp, atRps)
      case Stuck => None
      case Done(skipped, end) =>
        if !Acceptable(pp.references, pp.current.poc) then None
        else
          var rps :- RpsText(pp, fields.pocLsb, skipped, end);
          WithSuffix(Between(bits, atRps) + rps, bits, Position(bits, end), offset)
  }

  function NalOffset(s: seq<byte>): nat {
    if |s| >= 4 && s[..4] == [0, 0, 0, 1] then 4
    else if |s| >= 3 && s[..3] == [0, 0, 1] then 3
    else 0
  }

  function NalType(h0: byte): nat {
    ((h0 >> 1) & 0x3f) as nat
  }

  predicate ValidHeader(h0: byte, h1: byte) {
    h0 & 0x80 == 0 && NalType(h0) <= 31 && h1 & 7 != 0
  }

  /** The NAL unit that replaces `s`, start code included; None where the source fails. */
  function Rewrite(s: seq<byte>, pp: PicParams, offset: u32): Option<seq<byte>>
    requires WellFormed(pp)
  {
    var at := NalOffset(s);
    if !SliceSyntaxBounds(pp) || |s| - at < 3 || |s| > INT_MAX || !ValidHeader(s[at], s[at + 1]) then None
    else if NalType(s[at]) == 19 || NalType(s[at]) == 20 then Some(s)
    else RewriteNonIdr(s, at, pp, offset)
  }

  /** A dependent slice segment carries no reference picture set. */
  function RewriteNonIdr(s: seq<byte>, at: nat, pp: PicParams, offset: u32): Option<seq<byte>>
    requires WellFormed(pp) && at + 2 <= |s|
  {
    var bits := BitsOf(Unescape(s[at + 2..]));
    match ReadStart(pp, NalType(s[at]), bits)
    case Stuck => None
    case Done(start, atFields) =>
      if start.1.dependent then Some(s)
      else
        var text :- RewriteIndependent(pp, bits, atFields, offset);
        Some(s[..at + 2] + Escape(Pack(text)))
  }

  // ---------- the parsing methods ----------

  /** ceil_log2_u32. */
  method CeilLog2Of(value: u32) returns (bits: nat)
    ensures bits == CeilLog2(value)
  {
    bits := 0;
    var max := if value > 0 then value - 1 else 0;
    while max > 0
      invariant max >= 0 && bits + BitLength(max) == CeilLog2(value)
    {
      bits := bits + 1;
      max := max / 2;
    }
  }

  /** The number of CTBs, which the source multiplies in uint32_t. */
  lemma CtbsFit(pp: PicParams)
    requires SliceSyntaxBounds(pp)
    ensures WidthInCtbs(pp) * HeightInCtbs(pp) < WORD
  {
    Shrinks(pp.width, CtbSize(pp));
    Shrinks(pp.height, CtbSize(pp));
    Larger(0xffff, WidthInCtbs(pp), 0xffff, HeightInCtbs(pp));
  }

  lemma Shrinks(n: nat, c: nat)
    requires n >= 1 && c >= 1
    ensures (n + c - 1) / c <= n
  {
    var q := (n + c - 1) / c;
    assert c * q <= n + c - 1;
    assert c * (n + 1) == c * n + c && c * n >= n;
    if q > n {
      MulGrows(c, n + 1, q);
    }
  }

  method SkipFlag(br: HEVCBitReader, present: bool) returns (ok: bool, flag: bool)
    requires br.Valid()
    modifies br
    ensures br.Valid() && br.bit >= old(br.bit)
    ensures ok == ReadOptionalFlag(present, old(br.Rest())).Done?
    ensures ok ==> ReadOptionalFlag(present, old(br.Rest())) == Done(flag, br.Rest())
  {
    if !present {
      return true, false;
    }
    var value;
    ok, value := br.ReadBit();
    flag := value != 0;
  }

  method SkipUe(br: HEVCBitReader) returns (ok: bool)
    requires br.Valid()
    modifies br
    ensures br.Valid() && br.bit >= old(br.bit)
    ensures ok == ReadUe32(old(br.Rest())).Done?
    ensures ok ==> ReadUe32(old(br.Rest())).rest == br.Rest()
  {
    var value;
    ok, value := br.ReadUe();
  }

  method SkipU(br: HEVCBitReader, n: nat) returns (ok: bool)
    requires br.Valid()
    modifies br
    ensures br.Valid() && br.bit >= old(br.bit)
    ensures ok == ReadU(n, old(br.Rest())).Done?
    ensures ok ==> ReadU(n, old(br.Rest())).rest == br.Rest()
  {
    ok := br.SkipBits(n);
  }

  method ParseStart(br: HEVCBitReader, pp: PicParams, nalType: nat) returns (ok: bool, dependent: bool)
    requires br.Valid() && SliceSyntaxBounds(pp)
    modifies br
    ensures br.Valid() && br.bit >= old(br.bit)
    ensures var r := ReadStart(pp, nalType, old(br.Rest()));
            ok == r.Done? && (ok ==> r.rest == br.Rest() && dependent == r.value.1.dependent)
  {
    hide ReadU, ReadUe32, ReadOptionalFlag, CeilLog2, HEVCBitReader.Valid, HEVCBitReader.Rest, WidthInCtbs, HeightInCtbs, SliceSyntaxBounds;
    var first, ignored;
    dependent := false;
    ok, first := SkipFlag(br, true);
    if !ok { FlagAlways(old(br.Rest())); return; }
    FlagAlways(old(br.Rest()));
    ok, ignored := SkipFlag(br, 16 <= nalType <= 23);
    if !ok { return; }
    ok := SkipUe(br);
    if !ok || first { return; }
    ok, dependent := SkipFlag(br, pp.dependentSlicesEnabled);
    if !ok { return; }
    CtbsFit(pp);
    var bits := CeilLog2Of(WidthInCtbs(pp) * HeightInCtbs(pp));
    ok := SkipU(br, bits);
  }

  lemma FlagAlways(bits: seq<bool>)
    ensures ReadOptionalFlag(true, bits) == ReadFlag(bits)
  {
  }

  method ParseIndependent(br: HEVCBitReader, pp: PicParams) returns (ok: bool, pocLsb: u32)
    requires br.Valid() && SliceSyntaxBounds(pp)
    modifies br
    ensures br.Valid() && br.bit >= old(br.bit)
    ensures var r := ReadIndependent(pp, old(br.Rest()));
            ok == r.Done? && (ok ==> r.rest == br.Rest() && pocLsb == r.value.pocLsb)
  {
    hide ReadUe32, ReadOptionalFlag, HEVCBitReader.Valid, HEVCBitReader.Rest;
    var ignored, value;
    pocLsb := 0;
    ok := SkipExtraBits(br, pp.numExtraSliceHeaderBits);
    if !ok { return; }
    ok := SkipUe(br);
    if !ok { return; }
    ok, ignored := SkipFlag(br, pp.outputFlagPresent);
    if !ok { return; }
    ok := SkipU(br, if pp.separateColourPlane then 2 else 0);
    if !ok { return; }
    ghost var at := br.Rest();
    ok, value := br.ReadBits(PocBits(pp));
    if !ok { return; }
    ReadUBound(PocBits(pp), at);
    pocLsb := value;
  }

  lemma ReadUBound(n: nat, bits: seq<bool>)
    requires n <= 16 && ReadU(n, bits).Done?
    ensures ReadU(n, bits).value < 0x1_0000
  {
    ValueBound(bits[..n]);
    Pow2Monotone(n, 16);
    Pow2Values();
  }

  /** The loop over slice_reserved_flag. */
  method SkipExtraBits(br: HEVCBitReader, n: nat) returns (ok: bool)
    requires br.Valid()
    modifies br
    ensures br.Valid() && br.bit >= old(br.bit)
    ensures ok == ReadU(n, old(br.Rest())).Done?
    ensures ok ==> ReadU(n, old(br.Rest())).rest == br.Rest()
  {
    for i := 0 to n
      invariant br.Valid() && br.bit >= old(br.bit) && i <= |old(br.Rest())| && br.Rest() == old(br.Rest())[i..]
    {
      var ignored;
      ok, ignored := br.ReadBit();
      if !ok {
        return;
      }
    }
    ok := true;
  }

  /** The short-term part of skip_original_rps. */
  method SkipOriginalShortTerm(br: HEVCBitReader, pp: PicParams) returns (ok: bool)
    requires br.Valid()
    modifies br
    ensures br.Valid() && br.bit >= old(br.bit)
    ensures var r := SkipShortTerm(pp, old(br.Rest())); ok == r.Done? && (ok ==> r.rest == br.Rest())
  {
    hide ReadU, CeilLog2, HEVCBitReader.Valid, HEVCBitReader.Rest;
    var flag;
    FlagAlways(br.Rest());
    ok, flag := SkipFlag(br, true);
    if !ok { return; }
    if !flag {
      ok := SkipU(br, pp.stRpsBits);
    } else {
      if pp.numShortTermSets == 0 {
        return false;
      }
      var idxBits := CeilLog2Of(pp.numShortTermSets);
      ok := SkipU(br, idxBits);
    }
  }

  /** One iteration of the long-term loop of skip_original_rps. */
  method SkipOneEntry(br: HEVCBitReader, width: nat) returns (ok: bool)
    requires br.Valid()
    modifies br
    ensures br.Valid() && br.bit >= old(br.bit)
    ensures var r := SkipEntry(width, old(br.Rest())); ok == r.Done? && (ok ==> r.rest == br.Rest())
  {
    hide ReadU, ReadUe32, HEVCBitReader.Valid, HEVCBitReader.Rest;
    ok := SkipU(br, width);
    if !ok { return; }
    FlagAlways(br.Rest());
    var present;
    ok, present := SkipFlag(br, true);
    if ok && present {
      ok := SkipUe(br);
    }
  }

  /** The long-term part of skip_original_rps, with the position of num_long_term_pics. */
  method SkipOriginalLongTerm(br: HEVCBitReader, pp: PicParams) returns (ok: bool, verbatimBit: nat, verbatim: bool)
    requires br.Valid() && SliceSyntaxBounds(pp)
    modifies br
    ensures br.Valid() && br.bit >= verbatimBit >= old(br.bit)
    ensures var r := SkipLongTerm(pp, old(br.Rest()));
            ok == r.Done? && (ok ==> r.rest == br.Rest() && r.value == Skipped(BitsOf(br.data[..br.size])[verbatimBit..], verbatim))
  {
    hide BitsOf, UeOfCode, SkipEntry, CeilLog2;
    var fromSps, n := 0, 0;
    verbatimBit, verbatim := br.bit, false;
    if pp.numLongTermSps > 0 {
      ok, fromSps := br.ReadUe();
      if !ok { return; }
    }
    verbatimBit := br.bit;
    ok, n := br.ReadUe();
    if !ok { return; }
    if fromSps > pp.numLongTermSps || (fromSps + n) % WORD > 15 {
      return false, verbatimBit, false;
    }
    var total := (fromSps + n) % WORD;
    var idxBits := CeilLog2Of(pp.numLongTermSps);
    var pocBits := PocBits(pp);
    ghost var all := SkipEntriesFrom(0, fromSps, total, idxBits, pocBits, br.Rest());
    for i := 0 to total
      invariant br.Valid() && verbatimBit <= br.bit
      invariant all == SkipEntriesFrom(i, fromSps, total, idxBits, pocBits, br.Rest())
    {
      ok := SkipOneEntry(br, if i < fromSps then idxBits else pocBits + 1);
      if !ok { return; }
    }
    return true, verbatimBit, fromSps == 0;
  }

  method SkipOriginalRps(br: HEVCBitReader, pp: PicParams) returns (ok: bool, verbatimBit: nat, verbatim: bool)
    requires br.Valid() && SliceSyntaxBounds(pp)
    modifies br
    ensures br.Valid() && br.bit >= old(br.bit) && (ok && verbatim ==> old(br.bit) <= verbatimBit <= br.bit)
    ensures var r := SkipRps(pp, old(br.Rest()));
            && ok == r.Done?
            && (ok ==> r.rest == br.Rest() && r.value.verbatim == verbatim)
            && (ok && verbatim ==> r.value.longTermAt == BitsOf(br.data[..br.size])[verbatimBit..])
  {
    hide BitsOf, SkipShortTerm, SkipLongTerm;
    verbatimBit, verbatim := 0, false;
    ok := SkipOriginalShortTerm(br, pp);
    if ok && pp.longTermPresent {
      ok, verbatimBit, verbatim := SkipOriginalLongTerm(br, pp);
    }
  }

  // ---------- the writing methods ----------

  method CopyBits(bs: BSWriter, src: array<byte>, size: nat, start: nat, end: nat) returns (ok: bool)
    requires bs.Valid() && size <= src.Length && end <= 8 * size && bs.data != src
    modifies bs, bs.data
    ensures bs.Valid()
    ensures ok == (start <= end)
    ensures ok ==> bs.text == old(bs.text) + BitsOf(src[..size])[start..end]
  {
    hide BSWriter.Valid, BitAt;
    if start > end {
      return false;
    }
    ghost var all := BitsOf(src[..size]);
    for bit := start to end
      invariant bs.Valid() && bs.text == old(bs.text) + all[start..bit]
    {
      OneMore(all, start, bit);
      bs.Write1(BitAt(src[bit / 8], bit % 8));
    }
    ok := true;
  }

  method FindByteAlignmentStart(rbsp: array<byte>, size: nat, rpsEnd: nat, sliceData: nat) returns (at: Option<nat>)
    requires size <= rbsp.Length && sliceData <= 8 * size
    ensures at == LastOne(BitsOf(rbsp[..size]), rpsEnd, sliceData)
  {
    hide BitAt;
    if rpsEnd > sliceData {
      return None;
    }
    var bit := sliceData;
    while bit > rpsEnd
      invariant rpsEnd <= bit <= sliceData
      invariant LastOne(BitsOf(rbsp[..size]), rpsEnd, sliceData) == LastOne(BitsOf(rbsp[..size]), rpsEnd, bit)
    {
      var candidate := bit - 1;
      if BitAt(rbsp[candidate / 8], candidate % 8) {
        return Some(candidate);
      }
      bit := bit - 1;
    }
    at := None;
  }

  /** The replaced part of the header. */
  method WriteRps(bs: BSWriter, br: HEVCBitReader, rps: HEVCRPS, pp: PicParams, pocLsb: u32,
                  verbatim: bool, verbatimBit: nat, rpsEnd: nat, ghost skipped: Skipped) returns (ok: bool)
    requires WellFormed(pp) && SliceSyntaxBounds(pp)
    requires bs.Valid() && br.Valid() && rps.Valid() && rps.View() == RpsOf(pp)
    requires {bs, bs.data} !! rps.Repr() && bs.data != br.data
    requires rpsEnd <= 8 * br.size && skipped.verbatim == verbatim
    requires verbatim ==> verbatimBit <= rpsEnd && skipped.longTermAt == BitsOf(br.data[..br.size])[verbatimBit..]
    modifies bs, bs.data
    ensures bs.Valid()
    ensures var text := RpsText(pp, pocLsb, skipped, BitsOf(br.data[..br.size])[rpsEnd..]);
            ok == text.Some? && (ok ==> bs.text == old(bs.text) + text.value)
  {
    hide BSWriter.Valid, BitsOf, UBits, LongTermCode, ShortTermCode, Expressible, Collected;
    ghost var all := BitsOf(br.data[..br.size]);
    CollectedBounds(pp.references, pp.current.poc);
    bs.Write(0, 1);
    UBitsOfFlag(false);
    WriteShortTermRps(bs, rps, 0);
    if verbatim {
      assert all[verbatimBit..][..rpsEnd - verbatimBit] == all[verbatimBit..rpsEnd];
      ok := CopyBits(bs, br.data, br.size, verbatimBit, rpsEnd);
    } else {
      ok := WriteLongTermRps(bs, rps, pp, pocLsb);
    }
  }

  /** Everything behind the reference picture set. */
  method WriteSuffix(bs: BSWriter, br: HEVCBitReader, rpsEnd: nat, offset: u32) returns (ok: bool)
    requires bs.Valid() && br.Valid() && bs.data != br.data && rpsEnd <= 8 * br.size
    requires |bs.text| + (8 * br.size - rpsEnd) + 8 <= 8 * bs.capacity
    modifies bs, bs.data
    ensures bs.Valid()
    ensures var text := WithSuffix(old(bs.text), BitsOf(br.data[..br.size]), rpsEnd, offset);
            ok == text.Some? && (ok ==> bs.text == text.value)
  {
    hide BSWriter.Valid, BitsOf, LastOne, Trailing, Padding;
    ghost var bits := BitsOf(br.data[..br.size]);
    var suffixStart := rpsEnd;
    if offset >= 2 {
      var sliceData := (offset - 2) * 8;
      if sliceData > br.size * 8 {
        return false;
      }
      var align := FindByteAlignmentStart(br.data, br.size, rpsEnd, sliceData);
      if align == None {
        return false;
      }
      ok := CopyBits(bs, br.data, br.size, rpsEnd, align.value);
      TrailingIs(|bs.text|);
      bs.Write1(true);
      bs.AlignZero();
      ghost var aligned := old(bs.text) + bits[rpsEnd..align.value];
      assert bs.text == aligned + Trailing(|aligned|);
      suffixStart := sliceData;
    }
    assert bits[suffixStart..br.size * 8] == bits[suffixStart..];
    ok := CopyBits(bs, br.data, br.size, suffixStart, br.size * 8);
  }

  // ---------- the scratch buffer is large enough ----------

  lemma UeCode32Length(v: nat)
    requires v < WORD
    ensures |UeCode32(v)| <= 63
  {
    hide UeCode, Pow2;
    if v < WORD - 1 {
      Pow2Values();
      UeCodeLength(v, 32);
    }
  }

  lemma {:induction false} DeltaLength(s: seq<Entry>, previous: nat)
    ensures |DeltaCode(s, previous)| <= 64 * |s|
  {
    hide UeCode32;
    if |s| > 0 {
      UeCode32Length((s[0].delta - previous - 1) % WORD);
      DeltaLength(s[1..], s[0].delta);
    }
  }

  lemma {:induction false} EntriesLength(s: seq<Entry>, now: Now, previous: int)
    requires now.Valid() && Expressible(s, now, previous)
    ensures |EntriesCode(s, now, previous)| <= 81 * |s|
  {
    hide UeCode32, Cycle;
    if |s| > 0 {
      UeCode32Length(Cycle(s[0], now) - previous);
      EntriesLength(s[1..], now, Cycle(s[0], now));
    }
  }

  lemma RpsTextLength(pp: PicParams, pocLsb: nat, skipped: Skipped, end: seq<bool>)
    requires WellFormed(pp) && SliceSyntaxBounds(pp) && RpsText(pp, pocLsb, skipped, end).Some?
    ensures |RpsText(pp, pocLsb, skipped, end).value|
         <= 3000 + (if skipped.verbatim then Position(skipped.longTermAt, end) else 0)
  {
    hide DeltaCode, EntriesCode, Expressible, UeCode32, Collected;
    var rps, now := RpsOf(pp), NowOf(pp, pocLsb);
    CollectedBounds(pp.references, pp.current.poc);
    UeCode32Length(|rps.negative|);
    UeCode32Length(|rps.positive|);
    DeltaLength(rps.negative, 0);
    DeltaLength(rps.positive, 0);
    if !skipped.verbatim && pp.longTermPresent {
      UeCode32Length(|rps.longTerm|);
      EntriesLength(rps.longTerm, now, 0);
    }
  }

  // ---------- the rewriter ----------

  /** The writer never drops a bit: the scratch buffer has 4096 bytes more than the slice. */
  method WriteRewritten(br: HEVCBitReader, rewritten: array<byte>, rps: HEVCRPS, pp: PicParams, pocLsb: u32,
                        verbatim: bool, verbatimBit: nat, rpsStart: nat, rpsEnd: nat, offset: u32, ghost skipped: Skipped)
    returns (ok: bool, n: nat)
    requires WellFormed(pp) && SliceSyntaxBounds(pp)
    requires br.Valid() && rewritten != br.data && rewritten.Length >= br.size + 4096
    requires rps.Valid() && rps.View() == RpsOf(pp) && rewritten !in rps.Repr()
    requires rpsStart <= rpsEnd <= 8 * br.size && skipped.verbatim == verbatim
    requires verbatim ==> rpsStart <= verbatimBit <= rpsEnd
    requires verbatim ==> skipped.longTermAt == BitsOf(br.data[..br.size])[verbatimBit..]
    modifies rewritten
    ensures n <= rewritten.Length
    ensures var bits := BitsOf(br.data[..br.size]); var text := RpsText(pp, pocLsb, skipped, bits[rpsEnd..]);
            if text.None? then !ok else
            var all := WithSuffix(bits[..rpsStart] + text.value, bits, rpsEnd, offset);
            ok == all.Some? && (ok ==> n > 0 && rewritten[..n] == Pack(all.value))
  {
    hide BSWriter.Valid, BitsOf, RpsText, WithSuffix, Pack, RpsOf, SliceSyntaxBounds, WellFormed;
    ghost var bits := BitsOf(br.data[..br.size]);
    n := 0;
    var bs := new BSWriter(rewritten);
    ok := CopyBits(bs, br.data, br.size, 0, rpsStart);
    assert bs.text == bits[..rpsStart];
    ok := WriteRps(bs, br, rps, pp, pocLsb, verbatim, verbatimBit, rpsEnd, skipped);
    if !ok { return; }
    RpsTextLength(pp, pocLsb, skipped, bits[rpsEnd..]);
    ghost var head := bs.text;
    ok := WriteSuffix(bs, br, rpsEnd, offset);
    if !ok { return; }
    SuffixLength(head, bits, rpsEnd, offset);
    n := bs.Bytes();
    PackOfBits(rewritten[..n], bs.text);
  }

  lemma SuffixLength(head: seq<bool>, bits: seq<bool>, rpsEnd: nat, offset: u32)
    requires rpsEnd <= |bits| && WithSuffix(head, bits, rpsEnd, offset).Some?
    ensures |head| <= |WithSuffix(head, bits, rpsEnd, offset).value| <= |head| + (|bits| - rpsEnd) + 8
  {
  }

  method RewriteRbsp(br: HEVCBitReader, rewritten: array<byte>, pp: PicParams, offset: u32) returns (ok: bool, n: nat)
    requires WellFormed(pp) && SliceSyntaxBounds(pp)
    requires br.Valid() && rewritten != br.data && rewritten.Length >= br.size + 4096
    modifies br, rewritten
    ensures n <= rewritten.Length
    ensures var text := RewriteIndependent(pp, BitsOf(br.data[..br.size]), old(br.Rest()), offset);
            ok == text.Some? && (ok ==> n > 0 && rewritten[..n] == Pack(text.value))
  {
    hide BitsOf, RpsText, WithSuffix, ReadIndependent, SkipRps, Acceptable, Collected, Pack;
    n := 0;
    var pocLsb, verbatimBit, verbatim, rps;
    ok, pocLsb := ParseIndependent(br, pp);
    if !ok { return; }
    var rpsStart := br.bit;
    ghost var atRps := br.Rest();
    ok, verbatimBit, verbatim := SkipOriginalRps(br, pp);
    if !ok { return; }
    ghost var skipped := SkipRps(pp, atRps).value;
    ok, rps := CollectRps(pp);
    if !ok { return; }
    ok, n := WriteRewritten(br, rewritten, rps, pp, pocLsb, verbatim, verbatimBit, rpsStart, br.bit, offset, skipped);
  }

  /** The NAL unit is passed through before any scratch memory is needed. */
  predicate IsIdr(s: seq<byte>) {
    var at := NalOffset(s);
    |s| - at >= 1 && (NalType(s[at]) == 19 || NalType(s[at]) == 20)
  }

  method CopyThrough(buf: array<byte>, bufSize: nat, data: array<byte>, size: nat) returns (used: int)
    requires bufSize <= buf.Length && size <= data.Length && buf != data
    modifies buf
    ensures used == if bufSize < size then -1 else size
    ensures used >= 0 ==> buf[..used] == data[..size]
  {
    if bufSize < size {
      return -1;
    }
    forall i | 0 <= i < size {
      buf[i] := data[i];
    }
    used := size;
  }

  /**
   rk_hevc_rewrite_slice_nal.  `offset` is slice_data_byte_offset, 0 without slice parameters;
   `memory` says whether malloc delivered.
   */
  method RewriteSliceNal(buf: array<byte>, bufSize: nat, data: array<byte>, size: nat,
                         pp: PicParams, offset: u32, memory: bool) returns (used: int)
    requires WellFormed(pp) && bufSize <= buf.Length && size <= data.Length && buf != data
    modifies buf
    ensures var s := data[..size]; var out := Rewrite(s, pp, offset);
            if out.Some? && |out.value| <= bufSize && |out.value| <= INT_MAX && (memory || IsIdr(s)) then
              used == |out.value| && buf[..used] == out.value
            else used == -1
  {
    hide RewriteNonIdr, SliceSyntaxBounds, WellFormed;
    if !SliceSyntaxBounds(pp) {
      return -1;
    }
    var prefix := NalOffset(data[..size]);
    if size - prefix < 3 || size > INT_MAX {
      return -1;
    }
    var nalSize := size - prefix;
    var h0, h1 := data[prefix], data[prefix + 1];
    var nalType := NalType(h0);
    if !ValidHeader(h0, h1) {
      return -1;
    }
    if nalType == 19 || nalType == 20 {
      used := CopyThrough(buf, bufSize, data, size);
      return;
    }
    if !memory {
      return -1;
    }
    used := RewriteViaScratch(buf, bufSize, data, size, prefix, pp, nalType, offset);
  }

  /** The part between malloc and free. */
  method RewriteViaScratch(buf: array<byte>, bufSize: nat, data: array<byte>, size: nat, prefix: nat,
                           pp: PicParams, nalType: nat, offset: u32) returns (used: int)
    requires WellFormed(pp) && SliceSyntaxBounds(pp) && bufSize <= buf.Length && size <= data.Length && buf != data
    requires prefix <= 4 && prefix + 3 <= size <= INT_MAX && nalType == NalType(data[prefix])
    modifies buf
    ensures var out := RewriteNonIdr(data[..size], prefix, pp, offset);
            if out.Some? && |out.value| <= bufSize && |out.value| <= INT_MAX then
              used == |out.value| && buf[..used] == out.value
            else used == -1
  {
    hide BitsOf, RewriteIndependent, ReadStart, SliceSyntaxBounds, WellFormed, Escape, Unescape, Pack, NalType;
    var nalSize := size - prefix;
    var rewritten := new byte[nalSize + 4096];
    var rbsp, rbspSize := UnescapePayload(data, size, prefix);
    var br := new HEVCBitReader(rbsp, rbspSize);
    var ok, dependent := ParseStart(br, pp, nalType);
    if !ok {
      return -1;
    }
    if dependent {
      used := CopyThrough(buf, bufSize, data, size);
      return;
    }
    var n;
    ok, n := RewriteRbsp(br, rewritten, pp, offset);
    if !ok {
      return -1;
    }
    used := Assemble(buf, bufSize, data, prefix, rewritten, n);
  }

  /** The payload without its emulation prevention bytes; its buffer never clips it. */
  method UnescapePayload(data: array<byte>, size: nat, prefix: nat) returns (rbsp: array<byte>, rbspSize: nat)
    requires prefix + 3 <= size <= data.Length
    ensures fresh(rbsp) && rbspSize <= rbsp.Length == size - prefix
    ensures rbsp[..rbspSize] == Unescape(data[..size][prefix + 2..])
  {
    hide UnescapeFrom;
    var nalSize := size - prefix;
    rbsp := new byte[nalSize];
    assert data[prefix + 2..prefix + 2 + (nalSize - 2)] == data[..size][prefix + 2..];
    UnescapeShrinks(data[..size][prefix + 2..], 0);
    rbspSize := UnescapePrefix(data, prefix + 2, nalSize - 2, rbsp, nalSize);
  }

  /** Start code and NAL unit header, then the escaped payload. */
  method Assemble(buf: array<byte>, bufSize: nat, data: array<byte>, prefix: nat, rewritten: array<byte>, n: nat)
    returns (used: int)
    requires bufSize <= buf.Length && prefix + 2 <= data.Length && n <= rewritten.Length
    requires buf != data && buf != rewritten && n > 0 && prefix <= 4
    modifies buf
    ensures var out := data[..prefix + 2] + Escape(rewritten[..n]);
            if |out| <= bufSize && |out| <= INT_MAX then used == |out| && buf[..used] == out else used == -1
  {
    hide EscapeFrom;
    ghost var payload := Escape(rewritten[..n]);
    EscapeGrowth(rewritten[..n], 0);
    if bufSize < prefix + 2 {
      return -1;
    }
    forall i | 0 <= i < prefix {
      buf[i] := data[i];
    }
    buf[prefix], buf[prefix + 1] := data[prefix], data[prefix + 1];
    assert buf[..prefix + 2] == data[..prefix + 2];
    var escaped := EmulationPrevent(rewritten, n, buf, prefix + 2, bufSize - (prefix + 2));
    if escaped == 0 || escaped > INT_MAX - (prefix + 2) {
      return -1;
    }
    used := prefix + 2 + escaped;
    assert buf[..used] == buf[..prefix + 2] + buf[prefix + 2..used];
  }

  lemma {:induction false} UnescapeShrinks(s: seq<byte>, z: nat)
    ensures |UnescapeFrom(s, z)| <= |s|
  {
    if |s| > 0 {
      UnescapeShrinks(s[1..], if z >= 2 && s[0] == 3 && |s| > 1 && s[1] <= 3 then 0 else Run(s[0], z));
    }
  }
}
