/**
 What the slice rewriter loses without a slice data offset: the slice data keep their bits, but
 their place in the bytes only when the new reference picture set is as long as the old one modulo
 eight bits, and the NAL unit may end in a zero byte.
 */
module SliceAlignment {
  import opened Options
  import opened Integers
  import opened Bits
  import opened ExpGolomb
  import opened PictureParameters
  import opened BitWriter
  import opened Emulation
  import opened ReferencePictureSets
  import opened SliceHeader
  import opened SliceRewrite
  import opened SliceMeaning

  // ---------- shifted slice data ----------

  lemma {:induction false} ShiftedIntoZeros(data: seq<bool>, z: nat, i: nat)
    requires z > 0 && i < |data| && forall k :: 0 <= k < |data| ==> data[k] == (k + z < |data| && data[k + z])
    ensures !data[i]
    decreases |data| - i
  {
    assert data[i] == (i + z < |data| && data[i + z]);
    if i + z < |data| {
      ShiftedIntoZeros(data, z, i + z);
    }
  }

  /** Another amount of padding in front of data with a set bit makes other bits. */
  lemma PaddingShows(front: seq<bool>, a: seq<bool>, b: seq<bool>, data: seq<bool>, z: nat)
    requires front + a + data == front + b + data + Zeros(z) && |b| < |a|
    ensures forall i :: 0 <= i < |data| ==> !data[i]
  {
    var s, t := front + a + data, front + b + data + Zeros(z);
    assert |a| - |b| == z;
    forall k | 0 <= k < |data|
      ensures data[k] == (k + z < |data| && data[k + z])
    {
      assert s[|front| + |a| + k] == data[k];
      assert t[|front| + |b| + (k + z)] == if k + z < |data| then data[k + z] else false;
    }
    forall i | 0 <= i < |data|
      ensures !data[i]
    {
      ShiftedIntoZeros(data, z, i);
    }
  }

  lemma TrailingLength(n: nat)
    ensures |Trailing(n)| == 8 - n % 8
  {
  }

  /** Two texts that pack to the same bytes agree up to padding. */
  lemma PackedAlike(a: seq<bool>, b: seq<bool>, n: nat)
    requires Pack(a) == Pack(b) && |a| == 8 * n
    ensures |b| <= |a| && a == b + Zeros(|a| - |b|)
  {
    hide Pack, BitsOf, Zeros;
    PackLength(a, n);
    var y := Padded(a);
    var z := Padded(b);
    PaddedAlike(BitsOf(Pack(a)), a, b, y, z);
  }

  lemma Padded(text: seq<bool>) returns (z: nat)
    ensures BitsOf(Pack(text)) == text + Zeros(z)
  {
    BitsOfPack(text);
    z := 8 * |Pack(text)| - |text|;
  }

  lemma PackLength(text: seq<bool>, n: nat)
    requires |text| == 8 * n
    ensures |Pack(text)| == n
  {
    hide Pack;
  }

  lemma PaddedAlike(x: seq<bool>, a: seq<bool>, b: seq<bool>, m: nat, n: nat)
    requires x == a + Zeros(m) && x == b + Zeros(n) && m == 0
    ensures |b| <= |a| && a == b + Zeros(|a| - |b|)
  {
    assert |x| == |a| == |b| + n;
    NoPadding(a);
  }

  lemma NoPadding(a: seq<bool>)
    ensures a + Zeros(0) == a
  {
  }

  /** Packing the header with the alignment of another position gives the same bytes exactly at the same place in the byte. */
  lemma AlignmentKept(head: seq<bool>, oldEnd: nat, headerRest: seq<bool>, data: seq<bool>, n: nat)
    requires |data| == 8 * n && exists i :: 0 <= i < |data| && data[i]
    ensures var h := head + headerRest;
            Pack(h + Trailing(oldEnd + |headerRest|) + data) == Pack(h + Trailing(|h|) + data) <==> |head| % 8 == oldEnd % 8
  {
    hide Pack, Trailing;
    var h := head + headerRest;
    var at := oldEnd + |headerRest|;
    SameModulo(|head|, oldEnd, |headerRest|);
    if |h| % 8 == at % 8 {
      SameTrailing(at, |h|);
    } else {
      TrailingLength(|h|);
      TrailingLength(at);
      var q := |h| / 8;
      assert |h + Trailing(|h|) + data| == 8 * (q + 1 + n);
      PaddingMatters(h, Trailing(|h|), Trailing(at), data, q + 1 + n);
    }
  }

  /** A header ends at a byte boundary behind the alignment that was made for its place in the byte. */
  lemma AlignedFront(h: seq<bool>, n: nat)
    ensures |h + Trailing(n)| % 8 == 0 <==> |h| % 8 == n % 8
  {
    hide Trailing;
    TrailingLength(n);
  }

  lemma PaddingMatters(front: seq<bool>, a: seq<bool>, b: seq<bool>, data: seq<bool>, n: nat)
    requires |a| != |b| && |front + a + data| == 8 * n && exists i :: 0 <= i < |data| && data[i]
    ensures Pack(front + b + data) != Pack(front + a + data)
  {
    hide Pack;
    if Pack(front + b + data) == Pack(front + a + data) {
      PackedAlike(front + a + data, front + b + data, n);
      PaddingShows(front, a, b, data, |a| - |b|);
    }
  }

  lemma SameModulo(a: nat, b: nat, c: nat)
    ensures a % 8 == b % 8 <==> (a + c) % 8 == (b + c) % 8
  {
  }

  lemma SameTrailing(m: nat, n: nat)
    requires m % 8 == n % 8
    ensures Trailing(m) == Trailing(n)
  {
  }

  // ---------- the theorem ----------

  /**
   Without an offset (`offset` < 2) the rewriter makes what it makes with the right one (`dataAt`)
   if and only if the new reference picture set ends at the same bit of a byte as the old one.
   `consumed` is the new header up to there.  Otherwise the slice data stand where no decoder,
   looking at a byte boundary behind the alignment, finds them.
   */
  lemma AlignmentWithoutOffset(s: seq<byte>, rbsp: seq<byte>, pp: PicParams, offset: u32,
                               header: OriginalHeader, end: seq<bool>, dataAt: u32, headerRest: seq<bool>)
    returns (consumed: seq<bool>)
    requires IndependentSlice(s, rbsp, pp, header, end) && offset < 2
    requires AlignedAfter(BitsOf(rbsp), Position(BitsOf(rbsp), end), dataAt, headerRest)
    requires Rewritable(pp, header) && DistinctPocs(pp.references, pp.current.poc)
    requires header.longTerm.fromSps > 0 ==> NowOf(pp, header.pre.fields.pocLsb).Consistent()
    ensures dataAt - 2 <= |rbsp|
    ensures ReadRewritten(pp, NalType(s[NalOffset(s)]), consumed) == Done(NewHeader(pp, header), [])
    ensures var oldEnd := Position(BitsOf(rbsp), end); var sliceData := rbsp[dataAt - 2..];
            var front := consumed + headerRest + Trailing(oldEnd + |headerRest|);
            && Rewrite(s, pp, offset) == Some(s[..NalOffset(s) + 2] + Escape(Pack(front + BitsOf(sliceData))))
            && (|front| % 8 == 0 <==> |consumed| % 8 == oldEnd % 8)
            && ((exists i :: 0 <= i < |sliceData| && sliceData[i] != 0) ==>
                  (Rewrite(s, pp, offset) == Rewrite(s, pp, dataAt) <==> |consumed| % 8 == oldEnd % 8))
  {
    hide BitsOf, ReadOriginal, ReadPreRps, EscapeFrom, UnescapeFrom, Pack, Acceptable, Rewrite,
      ReadRewritten, DistinctPocs, NalOffset, WithSuffix, Trailing, AlignedAfter, IndependentSlice, SameLongTerm, Rewritable, NewHeader;
    var bits := BitsOf(rbsp);
    SliceShape(s, rbsp, pp, header, end);
    OffsetIsTwo(bits, Position(bits, end), dataAt, headerRest);
    var oldEnd := Position(bits, end);
    var rebuilt;
    rebuilt, consumed := RewriteWithoutOffset(s, rbsp, pp, offset, header, end);
    SuffixIs(consumed, bits, oldEnd, dataAt, headerRest);
    EndIs(rbsp, end, dataAt, headerRest);
    var sliceData := rbsp[dataAt - 2..];
    BitsOfTail(rbsp, dataAt - 2);
    var kept := Trailing(oldEnd + |headerRest|);
    var h := consumed + headerRest;
    var front := h + kept;
    assert consumed + end == front + BitsOf(sliceData);
    SameModulo(|consumed|, oldEnd, |headerRest|);
    AlignedFront(h, oldEnd + |headerRest|);
    var text := h + Trailing(|h|) + BitsOf(sliceData);
    assert Rewrite(s, pp, dataAt) == Some(s[..NalOffset(s) + 2] + Escape(Pack(text)));
    EscapedAlike(s[..NalOffset(s) + 2], Pack(front + BitsOf(sliceData)), Pack(text));
    if exists i :: 0 <= i < |sliceData| && sliceData[i] != 0 {
      SetBit(sliceData);
      AlignmentKept(consumed, oldEnd, headerRest, BitsOf(sliceData), |sliceData|);
    }
  }

  lemma SliceShape(s: seq<byte>, rbsp: seq<byte>, pp: PicParams, header: OriginalHeader, end: seq<bool>)
    requires IndependentSlice(s, rbsp, pp, header, end)
    ensures WellFormed(pp) && NalOffset(s) + 2 <= |s|
  {
  }

  lemma OffsetIsTwo(bits: seq<bool>, rpsEnd: nat, offset: u32, headerRest: seq<bool>)
    requires AlignedAfter(bits, rpsEnd, offset, headerRest)
    ensures offset >= 2
  {
  }

  /** The rest of the bits, in the parts AlignedAfter names. */
  lemma EndIs(rbsp: seq<byte>, end: seq<bool>, dataAt: u32, headerRest: seq<bool>)
    requires var bits := BitsOf(rbsp); AlignedAfter(bits, Position(bits, end), dataAt, headerRest) && Suffix(bits, end)
    ensures dataAt - 2 <= |rbsp|
    ensures var at := Position(BitsOf(rbsp), end);
            end == headerRest + Trailing(at + |headerRest|) + BitsOf(rbsp[dataAt - 2..])
  {
    hide BitsOf, Trailing;
    var bits, d := BitsOf(rbsp), 8 * (dataAt - 2);
    var at := Position(bits, end);
    BitsOfTail(rbsp, dataAt - 2);
    var middle := headerRest + Trailing(at + |headerRest|);
    assert bits[..d] == bits[..at] + middle;
    assert bits == bits[..d] + bits[d..];
    assert bits[at..] == middle + bits[d..];
  }

  lemma EscapedAlike(prefix: seq<byte>, a: seq<byte>, b: seq<byte>)
    ensures prefix + Escape(a) == prefix + Escape(b) <==> a == b
  {
    hide EscapeFrom, UnescapeFrom;
    UnescapeOfEscape(a, 0);
    UnescapeOfEscape(b, 0);
    if prefix + Escape(a) == prefix + Escape(b) {
      assert (prefix + Escape(a))[|prefix|..] == Escape(a);
      assert (prefix + Escape(b))[|prefix|..] == Escape(b);
    }
  }

  lemma SetBit(data: seq<byte>)
    requires exists i :: 0 <= i < |data| && data[i] != 0
    ensures exists i :: 0 <= i < |BitsOf(data)| && BitsOf(data)[i]
  {
    hide BitsOf, BitAt;
    var i :| 0 <= i < |data| && data[i] != 0;
    if forall k :: 0 <= k < 8 ==> !BitAt(data[i], k) {
      ZeroByte(data[i]);
    } else {
      var k :| 0 <= k < 8 && BitAt(data[i], k);
      BitOf(data, i, k);
    }
  }

  lemma ZeroByte(b: byte)
    requires forall k :: 0 <= k < 8 ==> !BitAt(b, k)
    ensures b == 0
  {
    assert forall k :: 0 <= k < 8 ==> !BitAt(0, k);
    EqualBytes(b, 0);
  }

  // ---------- the last byte ----------

  /** A packed text ends in a zero byte exactly when none of the bits that fell into its last byte is set. */
  lemma LastByte(text: seq<bool>)
    requires text != []
    ensures var s := Pack(text);
            |s| > 0 && (s[|s| - 1] == 0 <==> forall k :: 8 * (|s| - 1) <= k < |text| ==> !text[k])
  {
    hide Pack, BitsOf, BitAt;
    var s := Pack(text);
    BitsOfPack(text);
    forall k {:trigger BitAt(s[|s| - 1], k)} | 0 <= k < 8
      ensures BitAt(s[|s| - 1], k) == (8 * (|s| - 1) + k < |text| && text[8 * (|s| - 1) + k])
    {
      BitOf(s, |s| - 1, k);
    }
    if forall k :: 8 * (|s| - 1) <= k < |text| ==> !text[k] {
      ZeroByte(s[|s| - 1]);
    } else {
      var k :| 8 * (|s| - 1) <= k < |text| && text[k];
      assert BitAt(s[|s| - 1], k - 8 * (|s| - 1));
      NoBits(k - 8 * (|s| - 1));
    }
  }

  lemma NoBits(k: nat)
    requires k < 8
    ensures !BitAt(0, k)
  {
  }

  // ---------- a slice that loses its place ----------

  /** The slice of SliceMeaning.SampleIsRewritten, with its reference picture set taken from the SPS. */
  const FLAGGED_RBSP: seq<byte> := [0xd8, 0xe0, 0x80]
  const FLAGGED_SLICE: seq<byte> := [0x02, 0x01, 0xd8, 0xe0, 0x80]
  const MOVED_RBSP: seq<byte> := [0xd8, 0xb8, 0x20, 0x00]
  const MOVED_SLICE: seq<byte> := [0x02, 0x01, 0xd8, 0xb8, 0x20, 0x00]

  const FLAGGED_END: seq<bool> := [true, false, false, false, false, false, true, false, false, false, false, false, false, false]

  lemma ByteIs(b: byte, bits: seq<bool>)
    requires |bits| == 8 && forall k :: 0 <= k < 8 ==> BitAt(b, k) == bits[k]
    ensures BitsOf([b]) == bits
  {
  }

  lemma SampleBytes()
    ensures BitsOf([0xd8]) == [true, true, false, true, true, false, false, false]
    ensures BitsOf([0xe0]) == [true, true, true, false, false, false, false, false]
    ensures BitsOf([0x80]) == [true, false, false, false, false, false, false, false]
    ensures BitsOf([0xb8]) == [true, false, true, true, true, false, false, false]
    ensures BitsOf([0x20]) == [false, false, true, false, false, false, false, false]
    ensures BitsOf([0x00]) == [false, false, false, false, false, false, false, false]
  {
    hide BitsOf;
    ByteIs(0xd8, [true, true, false, true, true, false, false, false]);
    ByteIs(0xe0, [true, true, true, false, false, false, false, false]);
    ByteIs(0x80, [true, false, false, false, false, false, false, false]);
    ByteIs(0xb8, [true, false, true, true, true, false, false, false]);
    ByteIs(0x20, [false, false, true, false, false, false, false, false]);
    ByteIs(0x00, [false, false, false, false, false, false, false, false]);
  }

  lemma FlaggedBits()
    ensures BitsOf(FLAGGED_RBSP) == [true] + ([true] + ([false, true, true] + ([false, false, false, true] + ([true] + FLAGGED_END))))
  {
    hide BitsOf;
    SampleBytes();
    assert FLAGGED_RBSP == [0xd8] + [0xe0] + [0x80];
    BitsOfAppend([0xd8] + [0xe0], [0x80]);
    BitsOfAppend([0xd8], [0xe0]);
  }

  lemma MovedBits()
    ensures BitsOf(MOVED_RBSP) == [true, true, false, true, true, false, false, false, true] + [false, true, true] + FLAGGED_END + Zeros(6)
  {
    hide BitsOf;
    SampleBytes();
    assert MOVED_RBSP == [0xd8] + [0xb8] + [0x20] + [0x00];
    BitsOfAppend([0xd8] + [0xb8] + [0x20], [0x00]);
    BitsOfAppend([0xd8] + [0xb8], [0x20]);
    BitsOfAppend([0xd8], [0xb8]);
  }

  lemma FlaggedReads(bits: seq<bool>, b2: seq<bool>, b3: seq<bool>, b4: seq<bool>, b5: seq<bool>)
    requires ReadFlag(bits) == Done(true, b2) && ReadUe32(b2) == Done(0, b3) && ReadUe32(b3) == Done(2, b4)
    requires ReadU(4, b4) == Done(1, b5) && ReadFlag(b5) == Done(true, FLAGGED_END)
    ensures ReadOriginal(SamplePicture(1), 1, bits) == Done(SampleHeader(), FLAGGED_END)
    ensures ReadPreRps(SamplePicture(1), 1, bits) == Done(SampleHeader().pre, b5)
  {
    hide ReadUe32, CeilLog2, Value, SamplePicture;
    var pp := SamplePicture(1);
    SampleFields(1);
    NothingRead(b3);
    NothingRead(b4);
    NothingRead(FLAGGED_END);
    NoIndexBits();
    assert ReadIndependent(pp, b3) == Done(Independent(0, 2, false, 0, 1), b5);
    assert SkipShortTerm(pp, b5) == Done((), FLAGGED_END);
  }

  lemma NoIndexBits()
    ensures CeilLog2(1) == 0
  {
  }

  lemma {:induction false} NothingGathered(refs: seq<Picture>, current: i32)
    requires forall i :: 0 <= i < |refs| ==> refs[i] == NoPicture()
    ensures Gathered(refs, current) == Rps([], [], []) && Acceptable(refs, current)
  {
    assert Classify(NoPicture(), current) == Skip;
    if |refs| > 0 {
      NothingGathered(refs[..|refs| - 1], current);
    }
  }

  /** The new reference picture set of a picture without references. */
  lemma EmptySet(skipped: Skipped, end: seq<bool>)
    requires !skipped.verbatim
    ensures var pp := SamplePicture(1);
            WellFormed(pp) && Acceptable(pp.references, pp.current.poc) && RpsText(pp, 1, skipped, end) == Some([false, true, true])
  {
    hide SamplePicture, UeCode;
    var pp := SamplePicture(1);
    SampleFields(1);
    NothingGathered(pp.references, pp.current.poc);
    SmallCodes();
    assert RpsOf(pp) == Rps([], [], []);
    assert LongTermText(pp, 1, skipped, end) == Some([]);
    assert [false] + (ShortTermCode(RpsOf(pp), 0) + []) == [false, true, true];
    assert ShortTermCode(RpsOf(pp), 0) == [] + ([true] + ([true] + ([] + [])));
  }

  lemma FlaggedNal()
    ensures var s := FLAGGED_SLICE;
            && NalOffset(s) == 0 && ValidHeader(s[0], s[1]) && NalType(s[0]) == 1 && SliceUnit(s, 0, s[0] / 2) && s[0] / 2 == 1
            && s[2..] == FLAGGED_RBSP == Escape(FLAGGED_RBSP)
            && MOVED_SLICE == s[..2] + Escape(MOVED_RBSP)
  {
    var r, m := FLAGGED_RBSP, MOVED_RBSP;
    assert FLAGGED_SLICE[2..] == r;
    EscapeStep(r, r[1..], 0);
    EscapeStep(r[1..], r[2..], 0);
    EscapeStep(r[2..], r[3..], 0);
    assert r == [r[0]] + ([r[1]] + ([r[2]] + []));
    EscapeStep(m, m[1..], 0);
    EscapeStep(m[1..], m[2..], 0);
    EscapeStep(m[2..], m[3..], 0);
    EscapeStep(m[3..], m[4..], 0);
    assert m == [m[0]] + ([m[1]] + ([m[2]] + ([m[3]] + [])));
  }

  /**
   The code accepts the sample, whose slice data stand at byte 2 of the payload, and without an
   offset returns them three bits off a byte boundary, in a NAL unit that ends in a zero byte.
   */
  lemma SampleIsMoved() returns (end: seq<bool>)
    ensures IndependentSlice(FLAGGED_SLICE, FLAGGED_RBSP, SamplePicture(1), SampleHeader(), end)
    ensures AlignedAfter(BitsOf(FLAGGED_RBSP), Position(BitsOf(FLAGGED_RBSP), end), 4, [])
    ensures Position(BitsOf(FLAGGED_RBSP), end) == 10
    ensures WellFormed(SamplePicture(1)) && Rewrite(FLAGGED_SLICE, SamplePicture(1), 0) == Some(MOVED_SLICE)
  {
    hide SamplePicture, BitsOf, ReadOriginal, AlignedAfter, EscapeFrom, NalOffset, ValidHeader, NalType, ReadUe32, ReadU,
      UeCode, UBits, WellFormed, SliceSyntaxBounds, WithinLimits, SliceUnit, Acceptable, Describable, Pow2, Rewrite, RpsText, Understood, Pack, ReadPreRps;
    FlaggedBits();
    MovedBits();
    SmallCodes();
    SampleFields(1);
    end := FLAGGED_END;
    var b5 := [true] + end;
    var b4 := UBits(1, 4) + b5;
    var b3 := UeCode(2) + b4;
    var b2 := UeCode(0) + b3;
    var bits := [true] + b2;
    assert BitsOf(FLAGGED_RBSP) == bits;
    ReadFlagOf(true, b2);
    ReadUe32OfUeCode(0, b3);
    ReadUe32OfUeCode(2, b4);
    ReadUOfUBits(1, 4, b5);
    ReadFlagOf(true, end);
    FlaggedReads(bits, b2, b3, b4, b5);
    FlaggedAligned(bits, end);
    FlaggedNal();
    var atRps, skipped := RewriteIs(FLAGGED_SLICE, FLAGGED_RBSP, SamplePicture(1), 0, SampleHeader(), end);
    FlaggedUnderstood(skipped, end);
    EmptySet(skipped, end);
    AcceptableIff(SamplePicture(1).references, SamplePicture(1).current.poc);
    assert atRps == b5;
    FlaggedText(bits, b5, end);
    PackOfBits(MOVED_RBSP, Between(bits, b5) + [false, true, true] + end);
  }

  lemma FlaggedUnderstood(skipped: Skipped, end: seq<bool>)
    requires Understood(SamplePicture(1), SampleHeader(), skipped, end)
    ensures !skipped.verbatim
  {
  }

  lemma FlaggedText(bits: seq<bool>, b5: seq<bool>, end: seq<bool>)
    requires bits == [true] + ([true] + ([false, true, true] + ([false, false, false, true] + b5))) && b5 == [true] + end && |end| == 14
    ensures Between(bits, b5) == [true, true, false, true, true, false, false, false, true] && bits[Position(bits, end)..] == end
    ensures Position(bits, end) == 10
  {
  }

  lemma FlaggedAligned(bits: seq<bool>, end: seq<bool>)
    requires end == FLAGGED_END && |bits| == 24 && bits[10..] == end
    ensures AlignedAfter(bits, Position(bits, end), 4, [])
  {
    assert bits[10..16] == end[..6] == Trailing(10);
    assert bits[..16] == bits[..10] + [] + Trailing(10);
  }
}
