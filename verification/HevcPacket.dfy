/**
 build_hevc_job of src/mpp_dec.c: the packet of an HEVC picture is the driver's own parameter sets
 and the rewritten slices, and a decoder that cuts it at the start codes gets exactly those.
 */
module HevcPacket {
  import opened Options
  import opened Integers
  import opened Bits
  import opened ExpGolomb
  import opened PictureParameters
  import opened BitWriter
  import opened BitReader
  import opened Emulation
  import opened SliceHeader
  import opened SliceRewrite
  import opened SliceMeaning
  import opened SyntaxElements
  import ScalingLists
  import opened PictureValidation
  import opened PictureParameterSet
  import opened SequenceParameterSets
  import opened AnnexB
  import opened RawNal
  import opened AccessUnit

  // ---------- the picture parameter set a slice refers to ----------

  /** rk_hevc_parse_slice_info, as far as the packet needs it. */
  function SlicePpsId(s: seq<byte>): Option<nat> {
    var at := NalOffset(s);
    if |s| - at < 3 || !ValidHeader(s[at], s[at + 1]) then None
    else PpsIdIn(NalType(s[at]), BitsOf(Unescape(s[at + 2..])))
  }

  function PpsIdIn(nalType: nat, bits: seq<bool>): Option<nat> {
    match ReadFlag(bits)
    case Stuck => None
    case Done(_, b1) =>
      match ReadOptionalFlag(16 <= nalType <= 23, b1)
      case Stuck => None
      case Done(_, b2) =>
        var id := UeOfCode(b2);
        if id.Done? && id.value <= 63 then Some(id.value) else None
  }

  /** 63 bits are enough for any code the reader takes. */
  lemma UeOfPrefix(bits: seq<bool>, n: nat)
    requires 63 <= n <= |bits|
    ensures UeOfCode(bits[..n]).Done? == UeOfCode(bits).Done?
    ensures UeOfCode(bits).Done? ==> UeOfCode(bits[..n]).value == UeOfCode(bits).value
  {
    hide Value, Pow2, LeadingZeros;
    var z := LeadingZeros(bits);
    if z > 31 {
      AtLeast(bits[..n], 32);
    } else {
      LeadingZerosAre(bits[..n], z);
      assert bits[..n][z + 1..2 * z + 1] == bits[z + 1..2 * z + 1];
    }
  }

  lemma PpsIdOfPrefix(nalType: nat, bits: seq<bool>, n: nat)
    requires 65 <= n <= |bits|
    ensures PpsIdIn(nalType, bits[..n]) == PpsIdIn(nalType, bits)
  {
    hide UeOfCode;
    var b1 := bits[1..];
    assert bits[..n][1..] == b1[..n - 1];
    if 16 <= nalType <= 23 {
      assert b1[..n - 1][1..] == b1[1..][..n - 2];
      UeOfPrefix(b1[1..], n - 2);
    } else {
      UeOfPrefix(b1, n - 1);
    }
  }

  method ParseSliceInfo(data: array<byte>) returns (ppsId: Option<nat>)
    ensures ppsId == SlicePpsId(data[..])
  {
    hide BitsOf, UnescapeFrom, UeOfCode;
    var at := FindNal(data);
    if data.Length - at < 3 || !ValidHeader(data[at], data[at + 1]) {
      return None;
    }
    var rbsp := new byte[128];
    var size := UnescapePrefix(data, at + 2, data.Length - at - 2, rbsp, 128);
    ghost var all := Unescape(data[..][at + 2..]);
    assert data[at + 2..at + 2 + (data.Length - at - 2)] == data[..][at + 2..];
    PrefixBits(NalType(data[at]), all, size);
    var br := new HEVCBitReader(rbsp, size);
    ppsId := ReadPpsId(br, NalType(data[at]));
  }

  lemma PrefixBits(nalType: nat, all: seq<byte>, size: nat)
    requires size <= |all| && (size == |all| || size == 128)
    ensures PpsIdIn(nalType, BitsOf(all[..size])) == PpsIdIn(nalType, BitsOf(all))
  {
    hide BitsOf, PpsIdIn;
    if size == |all| {
      assert all[..size] == all;
    } else {
      BitsOfSlice(all, 0, 128);
      assert BitsOf(all)[..1024] == BitsOf(all[0..128]);
      PpsIdOfPrefix(nalType, BitsOf(all), 1024);
    }
  }

  method ReadPpsId(br: HEVCBitReader, nalType: nat) returns (ppsId: Option<nat>)
    requires br.Valid()
    modifies br
    ensures ppsId == PpsIdIn(nalType, old(br.Rest()))
  {
    hide UeOfCode, HEVCBitReader.Valid, HEVCBitReader.Rest;
    var ok, value := br.ReadBit();
    if !ok {
      return None;
    }
    if 16 <= nalType <= 23 {
      ok, value := br.ReadBit();
      if !ok {
        return None;
      }
    }
    ok, value := br.ReadUe();
    ppsId := if ok && value <= 63 then Some(value) else None;
  }

  /** nal_offset. */
  method FindNal(data: array<byte>) returns (at: nat)
    ensures at == NalOffset(data[..]) && at <= data.Length
  {
    if data.Length >= 4 && data[0] == 0 && data[1] == 0 && data[2] == 0 && data[3] == 1 {
      assert data[..][..4] == [0, 0, 0, 1];
      return 4;
    }
    if data.Length >= 3 && data[0] == 0 && data[1] == 0 && data[2] == 1 {
      assert data[..][..3] == [0, 0, 1];
      return 3;
    }
    at := 0;
  }

  /**
   The id is the one a decoder reads from the slice, or 2^31 below a number that no slice may
   carry, which br_read_ue misreads.
   */
  lemma PpsIdIsTheSlices(nalType: nat, bits: seq<bool>)
    requires ReadOpening(nalType, bits).Done?
    ensures var id := ReadOpening(nalType, bits).value.ppsId;
            && (id <= 63 ==> PpsIdIn(nalType, bits) == Some(id))
            && (PpsIdIn(nalType, bits).Some? ==> id == PpsIdIn(nalType, bits).value || id == PpsIdIn(nalType, bits).value + 0x8000_0000)
  {
    hide ReadUe, LeadingZeros, Pow2;
    var b1 := ReadFlag(bits).rest;
    var b2 := ReadOptionalFlag(16 <= nalType <= 23, b1).rest;
    ReadUeMeetsStandard(b2);
    UeFits(b2);
    Pow2Values();
  }

  // ---------- the packet ----------

  /** The id of the first slice with data. */
  function FirstPpsId(buffers: seq<VaBuffer>): Option<nat> {
    if |buffers| == 0 then None
    else if buffers[0].SliceData? && buffers[0].bytes != [] then SlicePpsId(buffers[0].bytes)
    else FirstPpsId(buffers[1..])
  }

  lemma FirstStep(buffers: seq<VaBuffer>, tail: seq<VaBuffer>)
    requires buffers != [] && tail == buffers[1..]
    ensures FirstPpsId(buffers) == if buffers[0].SliceData? && buffers[0].bytes != [] then SlicePpsId(buffers[0].bytes) else FirstPpsId(tail)
  {
    hide SlicePpsId;
  }

  /** The parameter sets in front of the slices; those of the sequence only when they have changed. */
  function HeaderUnits(pp: PicParams, iq: ScalingLists.IqMatrix, ppsId: nat, profile: nat, changed: bool): seq<Unit>
    requires iq.Valid()
  {
    (if changed then SequenceUnits(pp, profile) else []) + [NalOf(PpsText(pp, iq, ppsId))]
  }

  /** What build_hevc_job asks of the picture. */
  predicate Buildable(buffers: seq<VaBuffer>, pp: PicParams, hasIq: bool, iq: ScalingLists.IqMatrix, profile: nat)
    requires WellFormed(pp) && iq.Valid()
  {
    FirstPpsId(buffers).Some? && Validated(pp, profile, hasIq) && Printable(pp, iq) && HevcSlices(buffers, 0, pp).Some?
  }

  lemma {:induction false} FirstIdIsSmall(buffers: seq<VaBuffer>)
    requires FirstPpsId(buffers).Some?
    ensures FirstPpsId(buffers).value <= 63 && SliceCount(buffers) > 0
  {
    hide BitsOf, UnescapeFrom, UeOfCode;
    if !(buffers[0].SliceData? && buffers[0].bytes != []) {
      FirstIdIsSmall(buffers[1..]);
    }
  }

  method FindSlice(buffers: seq<Pending>) returns (ppsId: Option<nat>)
    ensures ppsId == FirstPpsId(View(buffers))
  {
    hide FirstPpsId, SlicePpsId;
    ghost var views := View(buffers);
    for i := 0 to |buffers|
      invariant View(buffers) == views && FirstPpsId(views) == FirstPpsId(views[i..])
    {
      assert views[i..][0] == Viewed(buffers[i]) && views[i..][1..] == views[i + 1..];
      FirstStep(views[i..], views[i + 1..]);
      if buffers[i].PendingData? && buffers[i].data.Length > 0 {
        assert Viewed(buffers[i]).bytes != [];
        ppsId := ParseSliceInfo(buffers[i].data);
        assert View(buffers) == views;
        return;
      }
    }
    NoFirst(views[|buffers|..]);
    ppsId := None;
  }

  lemma NoFirst(buffers: seq<VaBuffer>)
    requires buffers == []
    ensures FirstPpsId(buffers) == None
  {
  }

  /** The headers, in a buffer of 65536 bytes: None only where the parameters are refused. */
  method WriteHeaders(headers: array<byte>, pp: PicParams, hasIq: bool, iq: ScalingLists.IqMatrix, ppsId: nat, profile: nat, cached: seq<byte>)
    returns (size: Option<nat>, changed: bool)
    requires headers.Length == 65536 && WellFormed(pp) && iq.Valid() && ppsId <= 63
    modifies headers
    ensures size.Some? == (Validated(pp, profile, hasIq) && Printable(pp, iq))
    ensures size.Some? ==> changed == (cached != Stream(SequenceUnits(pp, profile)))
    ensures size.Some? ==> 0 < size.value <= headers.Length && headers[..size.value] == Stream(HeaderUnits(pp, iq, ppsId, profile, changed))
  {
    hide Validated, Printable, NalOf, PpsText, VpsText, SpsText, SequenceUnits, Stream;
    changed := false;
    var sequenceHeaders := new byte[4096];
    var sequenceSize := WriteSequenceParameterSets(sequenceHeaders, 4096, pp, hasIq, profile);
    if sequenceSize <= 0 {
      return None, false;
    }
    ValidatedBounds(pp, profile, hasIq);
    PpsNalFits(pp, iq, ppsId);
    changed := cached != sequenceHeaders[..sequenceSize];
    var at: nat := 0;
    if changed {
      forall i | 0 <= i < sequenceSize {
        headers[i] := sequenceHeaders[i];
      }
      at := sequenceSize;
      assert headers[..at] == sequenceHeaders[..at];
    }
    ghost var front := headers[..at];
    var used := WritePictureParameterSet(headers, at, 65536 - at, pp, hasIq, iq, ppsId, profile);
    if used <= 0 {
      return None, changed;
    }
    size := Some(at + used);
    assert headers[..at + used] == front + headers[at..at + used];
    OneUnit(NalOf(PpsText(pp, iq, ppsId)));
    StartCodes(PpsText(pp, iq, ppsId));
    NoUnitsInFront();
    StreamAppend(if changed then SequenceUnits(pp, profile) else [], [NalOf(PpsText(pp, iq, ppsId))]);
  }

  lemma OneUnit(a: Unit)
    ensures Stream([a]) == a.code + a.nal
  {
    assert [a][1..] == [] && a.code + a.nal + [] == a.code + a.nal;
  }

  lemma NoUnitsInFront()
    ensures Stream([]) == []
  {
  }

  lemma PpsNalFits(pp: PicParams, iq: ScalingLists.IqMatrix, ppsId: nat)
    requires PpsBounds(pp) && iq.Valid() && ppsId <= 63
    ensures |NalOf(PpsText(pp, iq, ppsId)).nal| <= 49152
  {
    hide NalOf, PpsText;
    PpsFits(pp, iq, ppsId);
    NalLength(PpsText(pp, iq, ppsId), 32768);
  }

  /**
   build_hevc_job, up to the job itself; `cached` are the sequence headers MPP has already got, and
   `memory` tells which allocations succeed.
   */
  method BuildPacket(buffers: seq<Pending>, pp: PicParams, hasIq: bool, iq: ScalingLists.IqMatrix, profile: nat, cached: seq<byte>, memory: nat -> bool)
    returns (packet: Packet, ok: bool, changed: bool)
    requires WellFormed(pp) && iq.Valid()
    ensures fresh(packet) && packet.Valid()
    ensures var views := View(buffers);
            && (ok ==> Buildable(views, pp, hasIq, iq, profile) && changed == (cached != Stream(SequenceUnits(pp, profile))) &&
                       packet.Contents() == Stream(HeaderUnits(pp, iq, FirstPpsId(views).value, profile, changed)) + HevcSlices(views, 0, pp).value)
            && (Buildable(views, pp, hasIq, iq, profile) && Enough(memory) && 65536 + |HevcSlices(views, 0, pp).value| <= SIZE_MAX ==> ok)
  {
    hide Validated, Printable, FirstPpsId, HeaderUnits, HevcSlices, SequenceUnits, Stream, WellFormed, SliceCount;
    packet := new Packet();
    ok, changed := false, false;
    var ppsId := FindSlice(buffers);
    if ppsId.None? || !memory(0) {
      return;
    }
    FirstIdIsSmall(View(buffers));
    var headers := new byte[65536];
    var size;
    size, changed := WriteHeaders(headers, pp, hasIq, iq, ppsId.value, profile, cached);
    if size.None? {
      return;
    }
    ok := packet.Append(headers, size.value, memory(1));
    if !ok {
      return;
    }
    var count;
    ok, count := AppendHevcSlices(packet, buffers, pp, (k: nat) => memory(k + 2));
    if count == 0 {
      ok := false;
    }
  }

  // ---------- what a decoder gets ----------

  lemma HeadersAreValid(pp: PicParams, iq: ScalingLists.IqMatrix, ppsId: nat, profile: nat, changed: bool)
    requires iq.Valid()
    ensures forall i :: 0 <= i < |HeaderUnits(pp, iq, ppsId, profile, changed)| ==> HeaderUnits(pp, iq, ppsId, profile, changed)[i].Valid()
  {
    hide NalOf, Unit.Valid, VpsText, SpsText, PpsText;
    NalDecodes(VpsText(pp, profile));
    NalDecodes(SpsText(pp, profile));
    NalDecodes(PpsText(pp, iq, ppsId));
  }

  /**
   The packet of a picture of canonical slices, cut at its start codes, is the driver's parameter
   sets and the rewritten slices, if and only if no rewritten slice but the last ends in a zero byte;
   with offsets this never happens.
   */
  lemma PacketSplitsBack(buffers: seq<VaBuffer>, pp: PicParams, hasIq: bool, iq: ScalingLists.IqMatrix, profile: nat, changed: bool)
    requires WellFormed(pp) && iq.Valid() && Buildable(buffers, pp, hasIq, iq, profile) && AllCanonical(buffers)
    ensures var headers, slices := HeaderUnits(pp, iq, FirstPpsId(buffers).value, profile, changed), HevcUnits(buffers, 0, pp);
            && (Units(Stream(headers) + HevcSlices(buffers, 0, pp).value) == Nals(headers) + Nals(slices)
                <==> forall i :: 0 <= i < |slices| - 1 ==> slices[i].EndsNonzero())
            && (Ready(buffers, 0) ==> Units(Stream(headers) + HevcSlices(buffers, 0, pp).value) == Nals(headers) + Nals(slices))
  {
    hide Units, HevcSlices, HevcUnits, Unit.Valid, Unit.EndsNonzero, WellFormed, Stream, Nals, HeaderUnits, FirstPpsId, Ready, Validated, Printable, AllCanonical;
    HeadersAreValid(pp, iq, FirstPpsId(buffers).value, profile, changed);
    HevcPacketSplitsBackIff(HeaderUnits(pp, iq, FirstPpsId(buffers).value, profile, changed), buffers, pp);
    if Ready(buffers, 0) {
      HevcPacketSplitsBack(HeaderUnits(pp, iq, FirstPpsId(buffers).value, profile, changed), buffers, pp);
    }
  }

  /** In front of the slices a decoder finds the picture's parameters, as the application gave them. */
  lemma HeadersDecode(buffers: seq<VaBuffer>, pp: PicParams, hasIq: bool, iq: ScalingLists.IqMatrix, profile: nat)
    requires WellFormed(pp) && iq.Valid() && Buildable(buffers, pp, hasIq, iq, profile)
    ensures var id := FirstPpsId(buffers).value; var units := HeaderUnits(pp, iq, id, profile, true);
            && |units| == 3
            && (forall i :: 0 <= i < 3 ==> ReadHevcUnit(Unescaped(units[i])) == Done([32, 33, 34][i], Payload(units[i], 16)))
            && ReadVps(Payload(units[0], 16)) == Done(IntendedVps(pp, profile), Trailing(|VpsText(pp, profile)|))
            && ReadSps(Payload(units[1], 16)) == Done(IntendedSps(pp, profile), Trailing(|SpsText(pp, profile)|))
            && ReadPps(Payload(units[2], 16)) == Done(Intended(pp, iq, id), Trailing(|PpsText(pp, iq, id)|))
  {
    hide HevcSlices, FirstPpsId, ReadVps, ReadSps, ReadPps, Intended, IntendedSps, IntendedVps, NalOf, VpsText, SpsText, PpsText, Trailing, Printable,
      Validated, SpsBounds, PpsBounds, WellFormed, Payload, Unescaped, ReadHevcUnit;
    FirstIdIsSmall(buffers);
    ValidatedBounds(pp, profile, hasIq);
    BoundsOf(pp, profile, hasIq);
    SequenceNalsDecode(pp, profile);
    PpsNalDecodes(pp, iq, FirstPpsId(buffers).value);
  }

  lemma {:induction false} FirstIdIs(buffers: seq<VaBuffer>, i: nat, s: seq<byte>)
    requires FirstSlice(buffers, i, s)
    ensures FirstPpsId(buffers) == SlicePpsId(s)
  {
    hide SlicePpsId;
    FirstStep(buffers, buffers[1..]);
    if i > 0 {
      FirstIdIs(buffers[1..], i - 1, s);
    }
  }

  /** The picture parameter set goes out under the id that a decoder reads from the first slice with bytes. */
  lemma IdOfTheFirstSlice(buffers: seq<VaBuffer>, i: nat, s: seq<byte>, at: nat, nalType: byte)
    requires FirstSlice(buffers, i, s) && StartsAt(s, at) && SliceUnit(s, at, nalType)
    requires var o := ReadOpening(nalType as nat, BitsOf(Unescape(s[at + 2..]))); o.Done? && o.value.ppsId <= 63
    ensures FirstPpsId(buffers) == Some(ReadOpening(nalType as nat, BitsOf(Unescape(s[at + 2..]))).value.ppsId)
  {
    hide NalOffset, NalType, ValidHeader, SliceUnit, StartsAt, ReadOpening, PpsIdIn, BitsOf, UnescapeFrom;
    FirstIdIs(buffers, i, s);
    UnitIs(s, at, nalType);
    PpsIdIsTheSlices(nalType as nat, BitsOf(Unescape(s[at + 2..])));
  }

  // ---------- sequence sets over many pictures ----------

  /** A picture of the context: the sequence sets it needs, whether its job was queued, and whether MPP took the packet. */
  datatype Sent = Sent(headers: seq<byte>, queued: bool, accepted: bool)

  /** hevc_sequence_headers, which rk_mpp_dec_enqueue_job takes over from a job that carries new ones. */
  function Cached(pictures: seq<Sent>): seq<byte> {
    if |pictures| == 0 then []
    else
      var cached, p := Cached(pictures[..|pictures| - 1]), pictures[|pictures| - 1];
      if p.queued && cached != p.headers then p.headers else cached
  }

  /** A job is queued whose packet has its sequence sets, as WriteHeaders decides. */
  predicate Carries(pictures: seq<Sent>, i: nat)
    requires i < |pictures|
  {
    pictures[i].queued && Cached(pictures[..i]) != pictures[i].headers
  }

  /** The sets MPP was given last. */
  function Given(pictures: seq<Sent>): seq<byte> {
    if |pictures| == 0 then []
    else
      var n := |pictures| - 1;
      if Carries(pictures, n) && pictures[n].accepted then pictures[n].headers else Given(pictures[..n])
  }

  lemma CarriesInPrefix(pictures: seq<Sent>, n: nat, i: nat)
    requires i < n <= |pictures|
    ensures Carries(pictures[..n], i) == Carries(pictures, i)
  {
    assert pictures[..n][..i] == pictures[..i];
  }

  lemma {:induction false} LastCarrier(pictures: seq<Sent>, n: nat) returns (k: nat)
    requires n <= |pictures| && Cached(pictures[..n]) != []
    ensures k < n && Carries(pictures, k) && pictures[k].headers == Cached(pictures[..n])
    ensures forall j :: k < j < n ==> !Carries(pictures, j)
  {
    assert n > 0 ==> pictures[..n][..n - 1] == pictures[..n - 1] && pictures[..n][n - 1] == pictures[n - 1];
    if Carries(pictures, n - 1) {
      k := n - 1;
    } else {
      k := LastCarrier(pictures, n - 1);
    }
  }

  lemma {:induction false} GivenSince(pictures: seq<Sent>, k: nat, n: nat)
    requires k < n <= |pictures| && Carries(pictures, k) && forall j :: k < j < n ==> !Carries(pictures, j)
    ensures Given(pictures[..n]) == if pictures[k].accepted then pictures[k].headers else Given(pictures[..k])
    decreases n
  {
    hide Carries;
    CarriesInPrefix(pictures, n, n - 1);
    assert pictures[..n][..n - 1] == pictures[..n - 1] && pictures[..n][n - 1] == pictures[n - 1];
    if n - 1 > k {
      GivenSince(pictures, k, n - 1);
    }
  }

  /**
   MPP decodes a packet with other sequence sets than its picture needs if and only if the last packet that carried
   those sets was refused, and MPP had others before it: they are remembered as soon as the job is queued.
   */
  lemma SetsAreMissedIff(pictures: seq<Sent>, i: nat) returns (k: nat)
    requires i < |pictures| && pictures[i].queued && pictures[i].headers != []
    ensures k <= i && Carries(pictures, k) && pictures[k].headers == pictures[i].headers
    ensures forall j :: k < j <= i ==> !Carries(pictures, j)
    ensures Given(pictures[..i + 1]) != pictures[i].headers <==> !pictures[k].accepted && Given(pictures[..k]) != pictures[i].headers
  {
    assert pictures[..i + 1][..i] == pictures[..i] && pictures[..i + 1][i] == pictures[i];
    k := LastCarrier(pictures, i + 1);
    GivenSince(pictures, k, i + 1);
  }

  /** Two pictures of one sequence: MPP refuses the packet of the first, and takes that of the second, which has no sequence sets. */
  lemma SecondPictureWithoutSets(headers: seq<byte>)
    requires headers != []
    ensures var pictures := [Sent(headers, true, false), Sent(headers, true, true)];
            !Carries(pictures, 1) && Given(pictures) == []
  {
    var pictures := [Sent(headers, true, false), Sent(headers, true, true)];
    assert pictures[..1] == [pictures[0]] && [pictures[0]][..0] == [] && pictures[..0] == [];
    assert Cached([pictures[0]]) == headers;
    assert Given([pictures[0]]) == [];
  }
}
