/**
 build_h264_job of src/mpp_dec.c: the packet of an H.264 picture is the driver's own parameter sets
 and the slices, and a decoder that cuts it at the start codes gets exactly those; but the flag that
 says that MPP has a sequence parameter set can be wrong.
 */
module H264Packet {
  import opened Options
  import opened Integers
  import opened Bits
  import opened ExpGolomb
  import ScalingLists
  import opened H264ParameterSets
  import opened BitWriter
  import opened AnnexB
  import opened RawNal
  import opened AccessUnit

  // ---------- the packet ----------

  /** The first slice with data is one of an IDR picture. */
  predicate StartsIdr(buffers: seq<VaBuffer>) {
    if |buffers| == 0 then false
    else if buffers[0].SliceData? && buffers[0].bytes != [] then buffers[0].bytes[0] & 0x1f == 5
    else StartsIdr(buffers[1..])
  }

  lemma IdrStep(buffers: seq<VaBuffer>, tail: seq<VaBuffer>)
    requires buffers != [] && tail == buffers[1..]
    ensures StartsIdr(buffers) == if buffers[0].SliceData? && buffers[0].bytes != [] then buffers[0].bytes[0] & 0x1f == 5 else StartsIdr(tail)
  {
  }

  lemma NoIdr(buffers: seq<VaBuffer>)
    requires buffers == []
    ensures !StartsIdr(buffers)
  {
  }

  method FindIdr(buffers: seq<Pending>) returns (idr: bool)
    ensures idr == StartsIdr(View(buffers))
  {
    hide StartsIdr;
    ghost var views := View(buffers);
    for i := 0 to |buffers|
      invariant View(buffers) == views && StartsIdr(views) == StartsIdr(views[i..])
    {
      assert views[i..][0] == Viewed(buffers[i]) && views[i..][1..] == views[i + 1..];
      IdrStep(views[i..], views[i + 1..]);
      if buffers[i].PendingData? && buffers[i].data.Length > 0 {
        assert Viewed(buffers[i]).bytes[0] == buffers[i].data[0];
        return buffers[i].data[0] & 0x1f == 5;
      }
    }
    NoIdr(views[|buffers|..]);
    idr := false;
  }

  /** Lists are only sent in the profiles that have them. */
  function Lists(hasIq: bool, iq: IqMatrix, profile: nat): (lists: Option<IqMatrix>)
    requires iq.Valid()
    ensures ValidIq(lists)
  {
    if hasIq && profile >= 100 then Some(iq) else None
  }

  function HeaderUnits(pp: PicParams, iq: Option<IqMatrix>, profile: nat, l0: u8, l1: u8, withSps: bool): seq<Unit>
    requires ValidIq(iq)
  {
    (if withSps then [NalOf(SpsText(pp, profile))] else []) + [NalOf(PpsText(pp, iq, l0, l1))]
  }

  /**
   build_h264_job, up to the job itself; `l0` and `l1` come from the first slice parameters, `spsSent`
   is sps_sent before and `sent` afterwards.
   */
  method BuildPacket(buffers: seq<Pending>, pp: PicParams, hasIq: bool, iq: IqMatrix, profile: nat, l0: u8, l1: u8, spsSent: bool, memory: nat -> bool)
    returns (packet: Packet, ok: bool, sent: bool, ghost outcome: Outcome)
    requires pp.WellFormed() && iq.Valid() && KnownProfile(profile)
    ensures fresh(packet) && packet.Valid()
    ensures var views := View(buffers); var withSps := StartsIdr(views) || !spsSent; var lists := Lists(hasIq, iq, profile);
            && (ok ==> Printable(pp, lists) && sent &&
                       packet.Contents() == Stream(HeaderUnits(pp, lists, profile, l0, l1, withSps)) + Stream(H264Units(views)))
            && (Printable(pp, lists) && Enough(memory) && 4096 + |Stream(H264Units(views))| <= SIZE_MAX ==> ok)
            && (ok <==> outcome.Delivered?) && (!Printable(pp, lists) && Enough(memory) && withSps ==> outcome.FailsBehind?)
            && forall delivered :: sent == Next(Known(spsSent, delivered), Picture(StartsIdr(views), outcome)).sent
  {
    hide StartsIdr, H264Units, Stream, Printable, HeaderUnits;
    packet := new Packet();
    ghost var views := View(buffers);
    var idr := FindIdr(buffers);
    assert View(buffers) == views;
    ok, sent := AppendHeaders(packet, pp, Lists(hasIq, iq, profile), profile, l0, l1, idr || !spsSent, memory);
    assert View(buffers) == views;
    outcome := if sent then FailsBehind else FailsBefore;
    sent := sent || spsSent;
    if ok {
      ok := AppendH264Slices(packet, buffers, (k: nat) => memory(k + 2));
      outcome := if ok then Delivered else outcome;
    }
  }

  /** The parameter sets of a new packet; `sent` tells that the sequence parameter set is in. */
  method AppendHeaders(packet: Packet, pp: PicParams, lists: Option<IqMatrix>, profile: nat, l0: u8, l1: u8, withSps: bool, memory: nat -> bool)
    returns (ok: bool, sent: bool)
    requires pp.WellFormed() && ValidIq(lists) && KnownProfile(profile)
    requires packet.Valid() && packet.Contents() == []
    modifies packet, packet.data
    ensures packet.Valid() && packet.size <= 4096 && (packet.data == old(packet.data) || fresh(packet.data))
    ensures ok ==> Printable(pp, lists) && packet.Contents() == Stream(HeaderUnits(pp, lists, profile, l0, l1, withSps)) && (withSps ==> sent)
    ensures Printable(pp, lists) && Enough(memory) ==> ok
    ensures (sent ==> withSps) && (Enough(memory) ==> sent == withSps)
  {
    hide Stream, Printable, NalOf, SpsText, PpsText, HeaderUnits;
    ok, sent := false, false;
    var hdr := new byte[2048];
    SpsFits(pp, profile);
    PpsFits(pp, lists, l0, l1);
    StreamOfHeaders(pp, lists, profile, l0, l1, withSps);
    ghost var sps, pps := NalOf(SpsText(pp, profile)), NalOf(PpsText(pp, lists, l0, l1));
    EmptyPacket(packet);
    if withSps {
      var n := WriteSps(hdr, 2048, pp, profile);
      ok := packet.Append(hdr, n, memory(0));
      if !ok {
        return;
      }
      sent := true;
      assert packet.Contents() == [] + (sps.code + sps.nal) == sps.code + sps.nal;
    }
    var n := WritePps(hdr, 2048, pp, lists, l0, l1);
    if n <= 0 {
      ok := false;
      return;
    }
    ok := packet.Append(hdr, n, memory(1));
  }

  lemma EmptyPacket(packet: Packet)
    requires packet.Valid() && packet.Contents() == []
    ensures packet.size == 0
  {
    assert |packet.Contents()| == packet.size;
  }

  lemma StreamOfHeaders(pp: PicParams, iq: Option<IqMatrix>, profile: nat, l0: u8, l1: u8, withSps: bool)
    requires ValidIq(iq)
    ensures var sps, pps := NalOf(SpsText(pp, profile)), NalOf(PpsText(pp, iq, l0, l1));
            && sps.code == pps.code == [0, 0, 0, 1]
            && Stream(HeaderUnits(pp, iq, profile, l0, l1, withSps)) == (if withSps then sps.code + sps.nal else []) + (pps.code + pps.nal)
  {
    hide Raw, SpsText, PpsText;
    var sps, pps := NalOf(SpsText(pp, profile)), NalOf(PpsText(pp, iq, l0, l1));
    assert [pps][1..] == [] && [sps, pps][1..] == [pps] && [sps] + [pps] == [sps, pps] && [] + [pps] == [pps];
    assert Stream([pps]) == pps.code + pps.nal + [];
  }

  // ---------- what a decoder gets ----------

  /**
   Cut at its start codes, the packet is the driver's parameter sets and the slices, if and only if
   no slice but the last ends in a zero byte.
   */
  lemma PacketSplitsBack(buffers: seq<VaBuffer>, pp: PicParams, iq: Option<IqMatrix>, profile: nat, l0: u8, l1: u8, withSps: bool)
    requires ValidIq(iq) && forall i :: 0 <= i < |H264Units(buffers)| ==> H264Units(buffers)[i].Whole()
    ensures var headers, slices := HeaderUnits(pp, iq, profile, l0, l1, withSps), H264Units(buffers);
            Units(Stream(headers) + Stream(slices)) == Nals(headers) + Nals(slices)
            <==> forall i :: 0 <= i < |slices| - 1 ==> slices[i].EndsNonzero()
  {
    hide Units, H264Units, Unit.Valid, Unit.Whole, Unit.EndsNonzero, Stream, Nals, NalOf, SpsText, PpsText;
    NalDecodes(SpsText(pp, profile));
    NalDecodes(PpsText(pp, iq, l0, l1));
    StreamsSplitBackIff(HeaderUnits(pp, iq, profile, l0, l1, withSps), H264Units(buffers));
  }

  // ---------- does MPP have the sequence parameter set? ----------

  /** How far a picture gets: up to its parameter sets, behind its sequence parameter set, or to MPP. */
  datatype Outcome = FailsBefore | FailsBehind | Delivered

  datatype Picture = Picture(idr: bool, outcome: Outcome)

  /** `sent` is sps_sent; `delivered` tells whether MPP has got a sequence parameter set. */
  datatype Known = Known(sent: bool, delivered: bool)

  /** A picture under sps_sent: its packet has the set when it is IDR or the flag is clear. */
  function Next(k: Known, p: Picture): Known {
    var withSps := p.idr || !k.sent;
    Known(k.sent || (withSps && !p.outcome.FailsBefore?), k.delivered || (withSps && p.outcome.Delivered?))
  }

  function After(pictures: seq<Picture>): Known {
    if |pictures| == 0 then Known(false, false) else Next(After(pictures[..|pictures| - 1]), pictures[|pictures| - 1])
  }

  /** The first picture that got as far as its sequence parameter set failed behind it, and no IDR picture has come through since. */
  predicate LostAt(pictures: seq<Picture>, i: nat) {
    && i < |pictures| && pictures[i].outcome.FailsBehind?
    && (forall j :: 0 <= j < i ==> pictures[j].outcome.FailsBefore?)
    && (forall j :: i < j < |pictures| ==> !(pictures[j].idr && pictures[j].outcome.Delivered?))
  }

  ghost predicate Lost(pictures: seq<Picture>) {
    exists i: nat :: LostAt(pictures, i)
  }

  lemma {:induction false} SentMeans(pictures: seq<Picture>)
    ensures After(pictures).delivered ==> After(pictures).sent
    ensures After(pictures).sent <==> exists i :: 0 <= i < |pictures| && !pictures[i].outcome.FailsBefore?
  {
    var n := |pictures|;
    if n > 0 {
      var front := pictures[..n - 1];
      SentMeans(front);
      assert forall i :: 0 <= i < n - 1 ==> front[i] == pictures[i];
    }
  }

  /**
   When sps_sent is set although MPP has never got a sequence parameter set: exactly when the first
   picture that got that far was lost behind it, and no IDR picture has come through since.  Until
   then every picture that is not IDR is handed on without one.
   */
  lemma {:induction false} FlagIsWrongIff(pictures: seq<Picture>)
    ensures After(pictures).sent && !After(pictures).delivered <==> Lost(pictures)
  {
    hide LostAt;
    var n := |pictures|;
    if n > 0 {
      var front, last := pictures[..n - 1], pictures[n - 1];
      FlagIsWrongIff(front);
      SentMeans(front);
      LostStep(pictures, After(front).sent);
    } else {
      NeverLost(pictures);
    }
  }

  lemma NeverLost(pictures: seq<Picture>)
    requires pictures == []
    ensures !Lost(pictures)
  {
  }

  lemma LostStep(pictures: seq<Picture>, sent: bool)
    requires |pictures| > 0
    requires var front := pictures[..|pictures| - 1]; sent <==> exists i :: 0 <= i < |front| && !front[i].outcome.FailsBefore?
    ensures var front, last := pictures[..|pictures| - 1], pictures[|pictures| - 1];
            Lost(pictures) <==> (Lost(front) && !(last.idr && last.outcome.Delivered?)) || (!sent && last.outcome.FailsBehind?)
  {
    var n := |pictures|;
    var front, last := pictures[..n - 1], pictures[n - 1];
    if Lost(front) && !(last.idr && last.outcome.Delivered?) {
      var i: nat :| LostAt(front, i);
      assert LostAt(pictures, i);
    }
    if !sent && last.outcome.FailsBehind? {
      assert forall i :: 0 <= i < n - 1 ==> front[i].outcome.FailsBefore?;
      assert LostAt(pictures, n - 1);
    }
    if Lost(pictures) {
      var i: nat :| LostAt(pictures, i);
      if i < n - 1 {
        assert LostAt(front, i);
      }
    }
  }

  /**
   Two pictures suffice: the first is refused for a zero in a scaling list, and the packet of the
   second, which is not IDR, has no sequence parameter set, although MPP has got none.
   */
  method SecondPictureWithoutSps(first: seq<Pending>, second: seq<Pending>, pp: PicParams, refused: IqMatrix, iq: IqMatrix, profile: nat,
                                 memory: nat -> bool)
    returns (packet: Packet, ok: bool)
    requires pp.WellFormed() && refused.Valid() && iq.Valid() && KnownProfile(profile) && Enough(memory)
    requires !Printable(pp, Lists(true, refused, profile)) && Printable(pp, Lists(true, iq, profile))
    requires !StartsIdr(View(second)) && 4096 + |Stream(H264Units(View(second)))| <= SIZE_MAX
    ensures packet.Valid() && ok
    ensures packet.Contents() == Stream(HeaderUnits(pp, Lists(true, iq, profile), profile, 0, 0, false)) + Stream(H264Units(View(second)))
  {
    hide StartsIdr, H264Units, Stream, Printable, HeaderUnits, KnownProfile;
    ghost var views := View(second);
    var sent;
    ghost var outcome;
    packet, ok, sent, outcome := BuildPacket(first, pp, true, refused, profile, 0, 0, false, memory);
    assert View(second) == views;
    assert sent == Next(Known(false, false), Picture(StartsIdr(View(first)), outcome)).sent;
    packet, ok, sent, outcome := BuildPacket(second, pp, true, iq, profile, 0, 0, sent, memory);
    assert View(second) == views;
  }

  // ---------- what a decoder reads ----------

  lemma IdrMask(b: byte)
    ensures b & 0x1f == 5 <==> b % 32 == 5
  {
  }

  lemma {:induction false} IdrIs(buffers: seq<VaBuffer>, i: nat, s: seq<byte>)
    requires FirstSlice(buffers, i, s)
    ensures StartsIdr(buffers) <==> s[0] % 32 == 5
  {
    IdrStep(buffers, buffers[1..]);
    if i > 0 {
      IdrIs(buffers[1..], i - 1, s);
    } else {
      IdrMask(s[0]);
    }
  }

  /** The sequence parameter set is in front when the first slice is of type 5 or none went out before, and nowhere else. */
  lemma SequenceSetDecodes(buffers: seq<VaBuffer>, i: nat, s: seq<byte>, pp: PicParams, lists: Option<IqMatrix>, profile: nat, l0: u8, l1: u8, spsSent: bool)
    requires ValidIq(lists) && KnownProfile(profile) && FirstSlice(buffers, i, s)
    ensures var units := HeaderUnits(pp, lists, profile, l0, l1, StartsIdr(buffers) || !spsSent);
            if s[0] % 32 == 5 || !spsSent then
              && |units| == 2 && ReadU(8, Unescaped(units[0])) == Done(3 * 32 + 7, Payload(units[0], 8))
              && (ReadSps(Payload(units[0], 8)) == Done(IntendedSps(pp, profile), Trailing(|SpsText(pp, profile)|)) <==>
                  pp.pocType <= 2 && (pp.frameMbsOnly || pp.heightMbsMinus1 % 2 == 1))
            else |units| == 1
  {
    hide StartsIdr, NalOf, SpsText, PpsText, ReadSps, IntendedSps, Trailing, Payload, Unescaped, ReadU;
    IdrIs(buffers, i, s);
    SpsNalDecodes(pp, profile);
  }

  /** The picture parameter set always is, with the application's scaling lists in the High profiles. */
  lemma PictureSetDecodes(pp: PicParams, hasIq: bool, iq: IqMatrix, profile: nat, l0: u8, l1: u8, withSps: bool)
    requires pp.WellFormed() && iq.Valid() && KnownProfile(profile)
    ensures var lists := if hasIq && (profile == 100 || profile == 110) then Some(iq) else None;
            var units := HeaderUnits(pp, Lists(hasIq, iq, profile), profile, l0, l1, withSps);
            var unit := units[|units| - 1];
            && ReadU(8, Unescaped(unit)) == Done(3 * 32 + 8, Payload(unit, 8))
            && (ReadPps(false, Payload(unit, 8)) == Done(IntendedPps(pp, lists, l0, l1), Trailing(|PpsText(pp, lists, l0, l1)|)) <==> Printable(pp, lists))
  {
    hide NalOf, SpsText, PpsText, ReadPps, IntendedPps, Trailing, Printable, Payload, Unescaped, ReadU;
    PpsNalDecodes(false, pp, Lists(hasIq, iq, profile), l0, l1);
  }

  // ---------- two such pictures ----------

  /** One macroblock in the High profile. */
  const SMALL := PicParams(0, 0, 0, 0, 1, 1, false, false, true, false, true, false, 0, 0, 0, false, true, false, false, 0, false,
                           0, 0, 0, 0, false, false, false)

  function Flat(value: ScalingLists.Entry): IqMatrix {
    IqMatrix(seq(6, i => seq(16, k => value)), seq(2, i => seq(64, k => value)))
  }

  lemma FlatLists(value: ScalingLists.Entry)
    ensures Flat(value).Valid() && (Printable(SMALL, Some(Flat(value))) <==> value != 0)
  {
    assert Flat(value).list4x4[0][0] == value;
  }

  /** Two slices of two bytes: an IDR picture with lists of zeros is refused, and the next picture goes to MPP without a sequence parameter set. */
  method TwoSmallPictures() returns (packet: Packet, ok: bool)
    ensures packet.Valid() && ok && ValidIq(Some(Flat(16)))
    ensures packet.Contents() == Stream([NalOf(PpsText(SMALL, Some(Flat(16)), 0, 0))]) + Stream([Unit([0, 0, 0, 1], [0x41, 0x80])])
  {
    hide Stream, NalOf, PpsText, Printable, Flat, IqMatrix.Valid;
    var idr := new byte[2](i requires 0 <= i < 2 => if i == 0 then 0x65 else 0x80);
    var next := new byte[2](i requires 0 <= i < 2 => if i == 0 then 0x41 else 0x80);
    FlatLists(0);
    FlatLists(16);
    assert next[..] == [0x41, 0x80];
    OneSlice([PendingData(next)], next);
    SmallStream();
    packet, ok := SecondPictureWithoutSps([PendingData(idr)], [PendingData(next)], SMALL, Flat(0), Flat(16), 100, k => true);
    OneSlice([PendingData(next)], next);
    assert [] + [NalOf(PpsText(SMALL, Some(Flat(16)), 0, 0))] == [NalOf(PpsText(SMALL, Some(Flat(16)), 0, 0))];
  }

  lemma OneSlice(buffers: seq<Pending>, next: array<byte>)
    requires buffers == [PendingData(next)] && next[..] == [0x41, 0x80]
    ensures !StartsIdr(View(buffers)) && H264Units(View(buffers)) == [Unit([0, 0, 0, 1], [0x41, 0x80])]
  {
    var views := View(buffers);
    assert views == [SliceData([0x41, 0x80])] && views[1..] == [];
    assert views[0].bytes[0] & 0x1f == 1;
    assert H264Units(views) == [Unit([0, 0, 0, 1], [0x41, 0x80])] + H264Units([]);
  }

  lemma SmallStream()
    ensures |Stream([Unit([0, 0, 0, 1], [0x41, 0x80])])| == 6
  {
    assert [Unit([0, 0, 0, 1], [0x41, 0x80])][1..] == [];
  }
}
