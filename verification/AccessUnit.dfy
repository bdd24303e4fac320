/**
 The slice loops of build_hevc_job and build_h264_job in src/mpp_dec.c: the packet they build is
 cut by a decoder into exactly the intended NAL units.
 */
module AccessUnit {
  import opened Options
  import opened Integers
  import opened Bits
  import opened PictureParameters
  import opened BitWriter
  import opened ReferencePictureSets
  import opened SliceHeader
  import opened Emulation
  import opened SliceRewrite
  import opened SliceMeaning
  import opened SliceAlignment
  import opened AnnexB

  /** What the loops look at in a pending VA buffer. */
  datatype VaBuffer = SliceParam(offset: u32) | SliceData(bytes: seq<byte>) | OtherBuffer

  datatype Pending = PendingParam(offset: u32) | PendingData(data: array<byte>) | PendingOther

  ghost function Viewed(b: Pending): VaBuffer
    reads if b.PendingData? then {b.data} else {}
  {
    match b
    case PendingParam(offset) => SliceParam(offset)
    case PendingData(data) => SliceData(data[..])
    case PendingOther => OtherBuffer
  }

  ghost function Arrays(buffers: seq<Pending>): set<array<byte>> {
    set i | 0 <= i < |buffers| && buffers[i].PendingData? :: buffers[i].data
  }

  ghost function View(buffers: seq<Pending>): (r: seq<VaBuffer>)
    reads Arrays(buffers)
    ensures |r| == |buffers|
  {
    seq(|buffers|, i requires 0 <= i < |buffers| reads Arrays(buffers) => Viewed(buffers[i]))
  }

  /** A start code unless the bytes bring their own (has_annex_b_prefix). */
  function Prefixed(s: seq<byte>): seq<byte> {
    (if NalOffset(s) == 0 then [0, 0, 0, 1] else []) + s
  }

  /** The rewritten slices, each with the parameters of the last slice parameter buffer before it. */
  function HevcSlices(buffers: seq<VaBuffer>, offset: u32, pp: PicParams): Option<seq<byte>>
    requires WellFormed(pp)
  {
    if |buffers| == 0 then Some([])
    else
      match buffers[0]
      case SliceParam(o) => HevcSlices(buffers[1..], o, pp)
      case OtherBuffer => HevcSlices(buffers[1..], offset, pp)
      case SliceData(s) =>
        if |s| == 0 then HevcSlices(buffers[1..], offset, pp)
        else
          var out :- Rewrite(s, pp, offset);
          if |out| > |s| + 4096 || |out| > INT_MAX then None
          else
            var tail :- HevcSlices(buffers[1..], offset, pp);
            Some(Prefixed(out) + tail)
  }

  // ---------- the loop of build_hevc_job ----------

  /** `memory`, `codeMemory` and `sliceMemory` tell whether the three allocations succeed. */
  method AppendHevcSlice(packet: Packet, data: array<byte>, pp: PicParams, offset: u32, memory: bool, codeMemory: bool, sliceMemory: bool)
    returns (ok: bool)
    requires WellFormed(pp) && packet.Valid() && data.Length > 0 && packet.data != data
    modifies packet, packet.data
    ensures packet.Valid() && (packet.data == old(packet.data) || fresh(packet.data))
    ensures var out := Rewrite(data[..], pp, offset);
            var fits := out.Some? && |out.value| <= data.Length + 4096 && |out.value| <= INT_MAX;
            && (ok ==> fits && packet.Contents() == old(packet.Contents()) + Prefixed(out.value))
            && (fits && memory && codeMemory && sliceMemory && old(packet.size) + |Prefixed(out.value)| <= SIZE_MAX ==> ok)
  {
    hide Rewrite, WellFormed, NalOffset;
    if !memory {
      return false;
    }
    var rewritten := new byte[data.Length + 4096];
    assert data[..data.Length] == data[..];
    var size := RewriteSliceNal(rewritten, rewritten.Length, data, data.Length, pp, offset, true);
    if size < 0 {
      return false;
    }
    ghost var out := rewritten[..size];
    if NalOffset(rewritten[..size]) == 0 {
      var startCode := new byte[4](i requires 0 <= i < 4 => if i == 3 then 1 else 0);
      ok := packet.Append(startCode, 4, codeMemory);
      if !ok {
        return;
      }
      assert startCode[..4] == [0, 0, 0, 1];
    }
    ok := packet.Append(rewritten, size, sliceMemory);
  }

  /** Every allocation succeeds. */
  /** Every slice data buffer in front of the first with bytes is skipped. */
  predicate FirstSlice(buffers: seq<VaBuffer>, i: nat, s: seq<byte>) {
    && i < |buffers| && buffers[i] == SliceData(s) && s != []
    && forall j :: 0 <= j < i && buffers[j].SliceData? ==> buffers[j].bytes == []
  }

  ghost predicate Enough(memory: nat -> bool) {
    forall k :: memory(k)
  }

  /** Pending buffers with slice data in them. */
  function SliceCount(buffers: seq<VaBuffer>): nat {
    if |buffers| == 0 then 0 else (if buffers[0].SliceData? && buffers[0].bytes != [] then 1 else 0) + SliceCount(buffers[1..])
  }

  lemma CountStep(buffers: seq<VaBuffer>, tail: seq<VaBuffer>)
    requires buffers != [] && tail == buffers[1..]
    ensures SliceCount(buffers) == (if buffers[0].SliceData? && buffers[0].bytes != [] then 1 else 0) + SliceCount(tail)
  {
  }

  method AppendHevcSlices(packet: Packet, buffers: seq<Pending>, pp: PicParams, memory: nat -> bool) returns (ok: bool, count: nat)
    requires WellFormed(pp) && packet.Valid() && packet.data !in Arrays(buffers)
    modifies packet, packet.data
    ensures packet.Valid()
    ensures var slices := HevcSlices(View(buffers), 0, pp);
            && (ok ==> slices.Some? && packet.Contents() == old(packet.Contents()) + slices.value)
            && (slices.Some? && Enough(memory) && old(packet.size) + |slices.value| <= SIZE_MAX ==> ok)
    ensures ok ==> count == SliceCount(View(buffers))
    ensures packet.data == old(packet.data) || fresh(packet.data)
  {
    hide Rewrite, WellFormed, HevcSlices, Prefixed, SliceCount;
    ghost var start, views := packet.Contents(), View(buffers);
    ghost var all := HevcSlices(views, 0, pp);
    var offset: u32 := 0;
    count := 0;
    for i := 0 to |buffers|
      invariant packet.Valid() && packet.data !in Arrays(buffers) && (packet.data == old(packet.data) || fresh(packet.data))
      invariant View(buffers) == views
      invariant count + SliceCount(views[i..]) == SliceCount(views)
      invariant HevcSlices(views[i..], offset, pp).Some? == all.Some?
      invariant all.Some? ==> start + all.value == packet.Contents() + HevcSlices(views[i..], offset, pp).value
    {
      assert views[i..][0] == Viewed(buffers[i]) && views[i..][1..] == views[i + 1..];
      SlicesStep(views[i..], views[i + 1..], offset, pp);
      CountStep(views[i..], views[i + 1..]);
      match buffers[i] {
        case PendingParam(o) => offset := o;
        case PendingOther =>
        case PendingData(data) =>
          assert data in Arrays(buffers);
          if data.Length > 0 {
            ok := AppendHevcSlice(packet, data, pp, offset, memory(3 * i), memory(3 * i + 1), memory(3 * i + 2));
            if !ok {
              return;
            }
            count := count + 1;
          }
      }
    }
    NoSlices(views[|buffers|..], offset, pp);
    NothingCounted(views[|buffers|..]);
    ok := true;
  }

  lemma NothingCounted(buffers: seq<VaBuffer>)
    requires buffers == []
    ensures SliceCount(buffers) == 0
  {
  }

  lemma NoSlices(buffers: seq<VaBuffer>, offset: u32, pp: PicParams)
    requires WellFormed(pp) && buffers == []
    ensures HevcSlices(buffers, offset, pp) == Some([])
  {
  }

  lemma SlicesStep(buffers: seq<VaBuffer>, tail: seq<VaBuffer>, offset: u32, pp: PicParams)
    requires WellFormed(pp) && buffers != [] && tail == buffers[1..]
    ensures buffers[0].SliceParam? ==> HevcSlices(buffers, offset, pp) == HevcSlices(tail, buffers[0].offset, pp)
    ensures buffers[0].OtherBuffer? || (buffers[0].SliceData? && buffers[0].bytes == []) ==>
              HevcSlices(buffers, offset, pp) == HevcSlices(tail, offset, pp)
    ensures buffers[0].SliceData? && buffers[0].bytes != [] ==>
              var out := Rewrite(buffers[0].bytes, pp, offset); var rest := HevcSlices(tail, offset, pp);
              HevcSlices(buffers, offset, pp) ==
                if out.None? || |out.value| > |buffers[0].bytes| + 4096 || |out.value| > INT_MAX || rest.None? then None
                else Some(Prefixed(out.value) + rest.value)
  {
    hide Rewrite, Prefixed, WellFormed;
  }

  // ---------- the NAL units of the packet ----------

  /**
   A slice as the application should hand it over: canonically escaped, ending in a nonzero byte.
   The code's unescaping is the witness of the escaped text.
   */
  predicate Canonical(s: seq<byte>) {
    var at := NalOffset(s);
    && |s| - at >= 3 && s[|s| - 1] != 0
    && s[at + 2..] == Escape(Unescape(s[at + 2..]))
  }

  /** The start code and the NAL unit of a slice in the packet. */
  function UnitOf(s: seq<byte>): Unit {
    if NalOffset(s) == 0 then Unit([0, 0, 0, 1], s) else Unit(s[..NalOffset(s)], s[NalOffset(s)..])
  }

  lemma UnitOfPrefixed(s: seq<byte>)
    ensures UnitOf(s).code + UnitOf(s).nal == Prefixed(s) && StartCode(UnitOf(s).code)
  {
    assert NalOffset(s) != 0 ==> s == s[..NalOffset(s)] + s[NalOffset(s)..];
    assert [] + s == s;
  }

  /** Escaping keeps the last byte, so the payload of a canonical slice ends in a nonzero byte. */
  lemma CanonicalPayload(s: seq<byte>)
    requires Canonical(s)
    ensures var rbsp := Unescape(s[NalOffset(s) + 2..]);
            |rbsp| > 0 && rbsp[|rbsp| - 1] != 0
  {
    var payload := s[NalOffset(s) + 2..];
    var rbsp := Unescape(payload);
    assert payload[|payload| - 1] == s[|s| - 1];
    if |rbsp| > 0 {
      EscapeKeepsLast(rbsp, 0);
    }
  }

  /** With an offset the new payload ends as the old one, or with the trailing bits of the new header. */
  lemma NewPayloadEndsNonzero(head: seq<bool>, rbsp: seq<byte>, rpsEnd: nat, offset: u32)
    requires offset >= 2 && rpsEnd <= |BitsOf(rbsp)| && WithSuffix(head, BitsOf(rbsp), rpsEnd, offset).Some?
    requires |rbsp| > 0 && rbsp[|rbsp| - 1] != 0
    ensures var rebuilt := Pack(WithSuffix(head, BitsOf(rbsp), rpsEnd, offset).value);
            |rebuilt| > 0 && rebuilt[|rebuilt| - 1] != 0
  {
    hide BitsOf, Pack, Trailing, LastOne;
    var bits, d := BitsOf(rbsp), offset - 2;
    var aligned := head + bits[rpsEnd..LastOne(bits, rpsEnd, 8 * d).value];
    BitsOfTail(rbsp, d);
    var h := PackAligned(aligned + Trailing(|aligned|), rbsp[d..]);
    TrailingEndsNonzero(h, aligned);
  }

  /**
   A rewritten canonical slice never contains a start code.  The stream can carry it if and only if
   it does not end in a zero byte, which an offset prevents, as does being passed through.
   */
  lemma RewrittenIsUnit(s: seq<byte>, pp: PicParams, offset: u32)
    requires WellFormed(pp) && Canonical(s) && Rewrite(s, pp, offset).Some?
    ensures var out := Rewrite(s, pp, offset).value;
            && UnitOf(out).Whole() && |out| > 0
            && (UnitOf(out).Valid() <==> out[|out| - 1] != 0)
            && (offset >= 2 || out == s ==> UnitOf(out).Valid())
  {
    hide Rewrite, Pack, Escape, Unescape, Carriable, Unit.Whole, Unit.Valid;
    var at, out := NalOffset(s), Rewrite(s, pp, offset).value;
    var rbsp := Unescape(s[at + 2..]);
    CanonicalPayload(s);
    AcceptedHeader(s, pp, offset);
    if out == s {
      BehindHeader(s, s, at, Escape(rbsp));
      HeaderAndPayload(out, at, rbsp);
    } else {
      var text := RewrittenText(s, pp, offset);
      SamePrefix(s, out);
      BehindHeader(s, out, at, Escape(Pack(text)));
      HeaderAndPayload(out, at, Pack(text));
    }
  }

  lemma HeaderAndPayload(out: seq<byte>, at: nat, payload: seq<byte>)
    requires NalOffset(out) == at && |out| >= at + 2 && out[at + 1] != 0 && out[at..] == [out[at], out[at + 1]] + Escape(payload)
    ensures UnitOf(out).Whole() && (UnitOf(out).Valid() <==> out[|out| - 1] != 0)
    ensures |payload| > 0 && payload[|payload| - 1] != 0 ==> UnitOf(out).Valid()
  {
    hide Escape, Clean;
    UnitOfPrefixed(out);
    HeaderThenEscapeIsClean(out[at], out[at + 1], payload);
    if |payload| > 0 && payload[|payload| - 1] != 0 {
      HeaderAndEscapedIsCarriable(out[at], out[at + 1], payload);
    }
  }

  lemma BehindHeader(s: seq<byte>, out: seq<byte>, at: nat, payload: seq<byte>)
    requires at + 2 <= |s| && (out == s[..at + 2] + payload || (out == s && s[at + 2..] == payload))
    ensures |out| >= at + 2 && out[at] == s[at] && out[at + 1] == s[at + 1]
    ensures out[at..] == [s[at], s[at + 1]] + payload && out[..at + 2] == s[..at + 2]
  {
  }

  lemma AcceptedHeader(s: seq<byte>, pp: PicParams, offset: u32)
    requires WellFormed(pp) && Rewrite(s, pp, offset).Some?
    ensures |s| - NalOffset(s) >= 3 && s[NalOffset(s) + 1] != 0
  {
    hide RewriteNonIdr;
    HeaderBitsNonzero(s[NalOffset(s) + 1]);
  }

  lemma HeaderBitsNonzero(h1: byte)
    requires h1 & 7 != 0
    ensures h1 != 0
  {
  }

  /** The payload the rewriter made, when it did not pass the slice through. */
  lemma RewrittenText(s: seq<byte>, pp: PicParams, offset: u32) returns (text: seq<bool>)
    requires WellFormed(pp) && Rewrite(s, pp, offset).Some? && Rewrite(s, pp, offset) != Some(s)
    requires var rbsp := Unescape(s[NalOffset(s) + 2..]); |rbsp| > 0 && rbsp[|rbsp| - 1] != 0
    ensures Rewrite(s, pp, offset).value == s[..NalOffset(s) + 2] + Escape(Pack(text))
    ensures offset >= 2 ==> |Pack(text)| > 0 && Pack(text)[|Pack(text)| - 1] != 0
  {
    hide BitsOf, Pack, ReadIndependent, SkipRps, RpsText, WithSuffix, Escape, Unescape, Acceptable;
    var at := NalOffset(s);
    var rbsp := Unescape(s[at + 2..]);
    var bits := BitsOf(rbsp);
    var atFields := ReadStart(pp, NalType(s[at]), bits).rest;
    text := RewriteIndependent(pp, bits, atFields, offset).value;
    var fields := ReadIndependent(pp, atFields);
    var skip := SkipRps(pp, fields.rest);
    var rps := RpsText(pp, fields.value.pocLsb, skip.value, skip.rest);
    if offset >= 2 {
      NewPayloadEndsNonzero(Between(bits, fields.rest) + rps.value, rbsp, Position(bits, skip.rest), offset);
    }
  }

  /** Changes behind the NAL unit header do not touch the start code. */
  lemma SamePrefix(s: seq<byte>, out: seq<byte>)
    requires var at := NalOffset(s); |s| >= at + 3 && s[at + 1] != 0 && |out| >= at + 2 && out[..at + 2] == s[..at + 2]
    ensures NalOffset(out) == NalOffset(s)
  {
    var at := NalOffset(s);
    assert forall i :: 0 <= i < at + 2 ==> out[i] == s[i];
    if at == 0 {
      assert out[1] == s[1] != 0;
    } else if at == 3 {
      assert out[2] == s[2] == 1;
    }
  }

  /** Every slice is canonical and has slice parameters with an offset before it. */
  predicate Ready(buffers: seq<VaBuffer>, offset: u32) {
    if |buffers| == 0 then true
    else
      match buffers[0]
      case SliceParam(o) => Ready(buffers[1..], o)
      case OtherBuffer => Ready(buffers[1..], offset)
      case SliceData(s) => (s != [] ==> Canonical(s) && offset >= 2) && Ready(buffers[1..], offset)
  }

  /** Every slice is canonical, whatever the offsets. */
  predicate AllCanonical(buffers: seq<VaBuffer>) {
    forall i :: 0 <= i < |buffers| && buffers[i].SliceData? && buffers[i].bytes != [] ==> Canonical(buffers[i].bytes)
  }

  lemma {:induction false} ReadyIsCanonical(buffers: seq<VaBuffer>, offset: u32)
    requires Ready(buffers, offset)
    ensures AllCanonical(buffers)
  {
    hide Canonical;
    if |buffers| > 0 {
      ReadyIsCanonical(buffers[1..], if buffers[0].SliceParam? then buffers[0].offset else offset);
      forall i | 0 < i < |buffers| && buffers[i].SliceData? && buffers[i].bytes != []
        ensures Canonical(buffers[i].bytes)
      {
        assert buffers[1..][i - 1] == buffers[i];
      }
    }
  }

  /** The rewritten slices as units, in order. */
  function HevcUnits(buffers: seq<VaBuffer>, offset: u32, pp: PicParams): seq<Unit>
    requires WellFormed(pp) && HevcSlices(buffers, offset, pp).Some?
  {
    if |buffers| == 0 then []
    else
      match buffers[0]
      case SliceParam(o) => HevcUnits(buffers[1..], o, pp)
      case OtherBuffer => HevcUnits(buffers[1..], offset, pp)
      case SliceData(s) =>
        (if s == [] then [] else [UnitOf(Rewrite(s, pp, offset).value)]) + HevcUnits(buffers[1..], offset, pp)
  }

  lemma {:induction false} SlicesAreUnits(buffers: seq<VaBuffer>, offset: u32, pp: PicParams)
    requires WellFormed(pp) && HevcSlices(buffers, offset, pp).Some? && AllCanonical(buffers)
    ensures var units := HevcUnits(buffers, offset, pp);
            && HevcSlices(buffers, offset, pp).value == Stream(units)
            && (forall i :: 0 <= i < |units| ==> units[i].Whole())
            && (Ready(buffers, offset) ==> forall i :: 0 <= i < |units| ==> units[i].Valid())
  {
    hide Rewrite, Canonical, Prefixed, UnitOf, Unit.Valid, Unit.Whole, WellFormed;
    if |buffers| > 0 {
      match buffers[0]
      case SliceParam(o) => SlicesAreUnits(buffers[1..], o, pp);
      case OtherBuffer => SlicesAreUnits(buffers[1..], offset, pp);
      case SliceData(s) =>
        SlicesAreUnits(buffers[1..], offset, pp);
        if s != [] {
          var out := Rewrite(s, pp, offset).value;
          RewrittenIsUnit(s, pp, offset);
          UnitOfPrefixed(out);
          var units := HevcUnits(buffers[1..], offset, pp);
          assert ([UnitOf(out)] + units)[1..] == units;
        } else {
          assert [] + HevcUnits(buffers[1..], offset, pp) == HevcUnits(buffers[1..], offset, pp);
        }
    }
  }

  /**
   An HEVC access unit splits back when every slice comes with an offset: cutting the packet at its
   start codes gives the parameter sets and the rewritten slices, in order and unchanged.
   */
  lemma HevcPacketSplitsBack(headers: seq<Unit>, buffers: seq<VaBuffer>, pp: PicParams)
    requires WellFormed(pp) && HevcSlices(buffers, 0, pp).Some? && Ready(buffers, 0)
    requires forall i :: 0 <= i < |headers| ==> headers[i].Valid()
    ensures Units(Stream(headers) + HevcSlices(buffers, 0, pp).value) == Nals(headers) + Nals(HevcUnits(buffers, 0, pp))
  {
    hide Units, HevcSlices, HevcUnits, Unit.Valid, WellFormed, Ready, Stream;
    ReadyIsCanonical(buffers, 0);
    SlicesAreUnits(buffers, 0, pp);
    TwoStreams(headers, HevcUnits(buffers, 0, pp));
  }

  /**
   With any offsets it splits back if and only if no rewritten slice but the last ends in a zero
   byte.
   */
  lemma HevcPacketSplitsBackIff(headers: seq<Unit>, buffers: seq<VaBuffer>, pp: PicParams)
    requires WellFormed(pp) && HevcSlices(buffers, 0, pp).Some? && AllCanonical(buffers)
    requires forall i :: 0 <= i < |headers| ==> headers[i].Valid()
    ensures var units := HevcUnits(buffers, 0, pp);
            Units(Stream(headers) + HevcSlices(buffers, 0, pp).value) == Nals(headers) + Nals(units)
            <==> forall i :: 0 <= i < |units| - 1 ==> units[i].EndsNonzero()
  {
    hide Units, HevcSlices, HevcUnits, Unit.Valid, Unit.Whole, Unit.EndsNonzero, WellFormed, Stream, Nals;
    SlicesAreUnits(buffers, 0, pp);
    StreamsSplitBackIff(headers, HevcUnits(buffers, 0, pp));
  }

  /** Two streams one behind the other, the first of valid units. */
  lemma StreamsSplitBackIff(headers: seq<Unit>, units: seq<Unit>)
    requires (forall i :: 0 <= i < |headers| ==> headers[i].Valid()) && forall i :: 0 <= i < |units| ==> units[i].Whole()
    ensures Units(Stream(headers) + Stream(units)) == Nals(headers) + Nals(units) <==> forall i :: 0 <= i < |units| - 1 ==> units[i].EndsNonzero()
  {
    hide Units, Unit.Valid, Unit.Whole, Unit.EndsNonzero, Stream, Nals;
    StreamAppend(headers, units);
    NalsAppend(headers, units);
    forall i | 0 <= i < |headers|
      ensures headers[i].Whole() && headers[i].EndsNonzero()
    {
      ValidMeans(headers[i]);
    }
    UnitsOfStreamIff(headers + units);
    if forall i :: 0 <= i < |headers + units| - 1 ==> (headers + units)[i].EndsNonzero() {
      forall i | 0 <= i < |units| - 1
        ensures units[i].EndsNonzero()
      {
        assert (headers + units)[|headers| + i] == units[i];
      }
    }
  }

  lemma ValidMeans(unit: Unit)
    ensures unit.Valid() <==> unit.Whole() && unit.EndsNonzero()
  {
  }

  /** Two copies of the slice that SliceAlignment.SampleIsMoved moves: the first loses its last byte. */
  lemma MovedSlicesDoNotSplit()
    ensures var pp, buffers := SamplePicture(1), [SliceData(FLAGGED_SLICE), SliceData(FLAGGED_SLICE)];
            && WellFormed(pp) && HevcSlices(buffers, 0, pp).Some? && AllCanonical(buffers)
            && Units(HevcSlices(buffers, 0, pp).value) != Nals(HevcUnits(buffers, 0, pp))
  {
    hide HevcSlices, HevcUnits, Rewrite, Canonical, SamplePicture, WellFormed, Units, Nals, NalOffset;
    var end := SampleIsMoved();
    FlaggedCanonical();
    MovedEndsInZero();
    SliceTwice(FLAGGED_SLICE, MOVED_SLICE, SamplePicture(1));
  }

  lemma SliceTwice(s: seq<byte>, out: seq<byte>, pp: PicParams)
    requires WellFormed(pp) && Canonical(s) && s != [] && Rewrite(s, pp, 0) == Some(out) && !UnitOf(out).EndsNonzero()
    requires |out| <= |s| + 4096 && |out| <= INT_MAX
    ensures var buffers := [SliceData(s), SliceData(s)];
            && HevcSlices(buffers, 0, pp).Some? && AllCanonical(buffers)
            && Units(HevcSlices(buffers, 0, pp).value) != Nals(HevcUnits(buffers, 0, pp))
  {
    hide HevcSlices, HevcUnits, Rewrite, Canonical, WellFormed, Units, Nals, Stream, UnitOf, Unit.EndsNonzero;
    NoSlices([], 0, pp);
    SliceInFront(s, [], out, pp);
    assert [SliceData(s)] == [SliceData(s)] + [];
    SliceInFront(s, [SliceData(s)], out, pp);
    var buffers := [SliceData(s), SliceData(s)];
    assert buffers == [SliceData(s)] + [SliceData(s)];
    HevcPacketSplitsBackIff([], buffers, pp);
    NoUnitsLeft(pp);
    assert HevcUnits(buffers, 0, pp)[0] == UnitOf(out);
    NothingInFront(HevcSlices(buffers, 0, pp).value, Nals(HevcUnits(buffers, 0, pp)));
  }

  lemma NoUnitsLeft(pp: PicParams)
    requires WellFormed(pp) && HevcSlices([], 0, pp).Some?
    ensures HevcUnits([], 0, pp) == []
  {
  }

  lemma SliceInFront(s: seq<byte>, tail: seq<VaBuffer>, out: seq<byte>, pp: PicParams)
    requires WellFormed(pp) && HevcSlices(tail, 0, pp).Some? && Rewrite(s, pp, 0) == Some(out) && s != []
    requires |out| <= |s| + 4096 && |out| <= INT_MAX
    ensures var buffers := [SliceData(s)] + tail;
            HevcSlices(buffers, 0, pp).Some? && HevcUnits(buffers, 0, pp) == [UnitOf(out)] + HevcUnits(tail, 0, pp)
  {
    hide Rewrite, Prefixed, WellFormed, UnitOf;
    var buffers := [SliceData(s)] + tail;
    assert buffers[1..] == tail;
    SlicesStep(buffers, tail, 0, pp);
  }

  lemma NothingInFront(stream: seq<byte>, nals: seq<seq<byte>>)
    ensures Stream([]) + stream == stream && Nals([]) + nals == nals
  {
  }

  lemma MovedEndsInZero()
    ensures !UnitOf(MOVED_SLICE).EndsNonzero()
  {
  }

  lemma FlaggedCanonical()
    ensures Canonical(FLAGGED_SLICE)
  {
    hide EscapeFrom, UnescapeFrom;
    FlaggedNal();
    UnescapeOfEscape(FLAGGED_RBSP, 0);
  }

  lemma TwoStreams(a: seq<Unit>, b: seq<Unit>)
    requires forall i :: 0 <= i < |a| ==> a[i].Valid()
    requires forall i :: 0 <= i < |b| ==> b[i].Valid()
    ensures Units(Stream(a) + Stream(b)) == Nals(a) + Nals(b)
  {
    hide Units, Unit.Valid, Stream, Nals;
    StreamAppend(a, b);
    NalsAppend(a, b);
    UnitsOfStream(a + b);
  }

  lemma NalsAppend(a: seq<Unit>, b: seq<Unit>)
    ensures Nals(a + b) == Nals(a) + Nals(b)
  {
  }

  // ---------- the loop of build_h264_job ----------

  function H264Units(buffers: seq<VaBuffer>): seq<Unit> {
    if |buffers| == 0 then []
    else (if buffers[0].SliceData? then [Unit([0, 0, 0, 1], buffers[0].bytes)] else []) + H264Units(buffers[1..])
  }

  method AppendH264Slices(packet: Packet, buffers: seq<Pending>, memory: nat -> bool) returns (ok: bool)
    requires packet.Valid() && packet.data !in Arrays(buffers)
    modifies packet, packet.data
    ensures packet.Valid()
    ensures ok ==> packet.Contents() == old(packet.Contents()) + Stream(H264Units(View(buffers)))
    ensures packet.data == old(packet.data) || fresh(packet.data)
    ensures Enough(memory) && old(packet.size) + |Stream(H264Units(View(buffers)))| <= SIZE_MAX ==> ok
  {
    hide H264Units, Stream;
    ghost var start, views := packet.Contents(), View(buffers);
    var startCode := new byte[4](i requires 0 <= i < 4 => if i == 3 then 1 else 0);
    assert startCode[..4] == [0, 0, 0, 1];
    for i := 0 to |buffers|
      invariant packet.Valid() && packet.data !in Arrays(buffers) && packet.data != startCode
      invariant packet.data == old(packet.data) || fresh(packet.data)
      invariant View(buffers) == views && startCode[..4] == [0, 0, 0, 1]
      invariant start + Stream(H264Units(views)) == packet.Contents() + Stream(H264Units(views[i..]))
    {
      assert views[i..][0] == Viewed(buffers[i]) && views[i..][1..] == views[i + 1..];
      H264Step(views[i..], views[i + 1..]);
      match buffers[i] {
        case PendingData(data) =>
          assert data in Arrays(buffers);
          assert data[..data.Length] == data[..];
          ok := packet.Append(startCode, 4, memory(2 * i));
          if !ok {
            return;
          }
          ok := packet.Append(data, data.Length, memory(2 * i + 1));
          if !ok {
            return;
          }
        case _ =>
      }
    }
    H264Nothing(views[|buffers|..]);
    ok := true;
  }

  lemma H264Step(buffers: seq<VaBuffer>, tail: seq<VaBuffer>)
    requires buffers != [] && tail == buffers[1..]
    ensures Stream(H264Units(buffers)) ==
              (if buffers[0].SliceData? then [0, 0, 0, 1] + buffers[0].bytes else []) + Stream(H264Units(tail))
  {
    if buffers[0].SliceData? {
      var unit := Unit([0, 0, 0, 1], buffers[0].bytes);
      assert H264Units(buffers) == [unit] + H264Units(tail);
      assert ([unit] + H264Units(tail))[1..] == H264Units(tail);
    } else {
      assert H264Units(buffers) == H264Units(tail);
    }
  }

  lemma H264Nothing(buffers: seq<VaBuffer>)
    requires buffers == []
    ensures Stream(H264Units(buffers)) == []
  {
  }

  /** An H.264 access unit splits back when its slices are carriable NAL units. */
  lemma {:induction false} H264UnitsValid(buffers: seq<VaBuffer>)
    requires forall i :: 0 <= i < |buffers| && buffers[i].SliceData? ==> Carriable(buffers[i].bytes)
    ensures forall i :: 0 <= i < |H264Units(buffers)| ==> H264Units(buffers)[i].Valid()
  {
    hide Carriable;
    if |buffers| > 0 {
      H264UnitsValid(buffers[1..]);
    }
  }

  lemma H264PacketSplitsBack(headers: seq<Unit>, buffers: seq<VaBuffer>)
    requires forall i :: 0 <= i < |headers| ==> headers[i].Valid()
    requires forall i :: 0 <= i < |buffers| && buffers[i].SliceData? ==> Carriable(buffers[i].bytes)
    ensures Units(Stream(headers) + Stream(H264Units(buffers))) == Nals(headers) + Nals(H264Units(buffers))
  {
    hide Units, H264Units, Unit.Valid, Carriable, Stream;
    H264UnitsValid(buffers);
    TwoStreams(headers, H264Units(buffers));
  }
}
