/**
 The video and the sequence parameter set: write_vps and write_sps of src/hevc.c against sections
 7.3.2.1, 7.3.2.2 and 7.3.3 of H.265.  The sequence parameter set leaves a decoder no tables of
 reference picture sets, which is what the rewritten slices rely on.
 */
module SequenceParameterSets {
  import opened Options
  import opened Bits
  import opened ExpGolomb
  import opened PictureParameters
  import opened BitWriter
  import opened SyntaxElements
  import opened PictureValidation
  import opened AnnexB
  import opened RawNal
  import opened HevcLevel

  const VPS_CAPACITY: nat := 512
  const SPS_CAPACITY: nat := 32768

  // ---------- the decoder ----------

  datatype Profile = Profile(
    space: int,
    tier: bool,
    idc: int,
    compatible: seq<int>,
    progressive: bool,
    interlaced: bool,
    nonPacked: bool,
    frameOnly: bool,
    reserved: seq<bool>,
    inbld: bool,
    level: int
  )

  datatype Format = Format(
    width: int,
    height: int,
    depthLumaMinus8: int,
    depthChromaMinus8: int,
    log2MaxPocLsbMinus4: int,
    orderingInfoPresent: bool,
    maxDecPicBufferingMinus1: int,
    numReorder: int,
    maxLatencyPlus1: int,
    log2MinCbMinus3: int,
    log2DiffMaxMinCb: int,
    log2MinTransformMinus2: int,
    log2DiffMaxMinTransform: int,
    maxDepthInter: int,
    maxDepthIntra: int
  )

  datatype Pcm = Pcm(depthLumaMinus1: int, depthChromaMinus1: int, log2MinMinus3: int, log2DiffMaxMin: int, loopFilterDisabled: bool)

  datatype Tools = Tools(scalingEnabled: bool, amp: bool, sampleAdaptiveOffset: bool, pcm: Option<Pcm>)

  /** `longTermSps` is the size of the table of long-term pictures, where such pictures are allowed. */
  datatype References = References(shortTermSets: int, longTermSps: Option<int>, temporalMvp: bool, strongIntraSmoothing: bool)

  datatype Sps = Sps(
    vpsId: int,
    temporalIdNesting: bool,
    profile: Profile,
    spsId: int,
    chromaFormatIdc: int,
    separateColourPlane: bool,
    format: Format,
    tools: Tools,
    references: References
  )

  datatype Vps = Vps(
    vpsId: int,
    baseLayerInternal: bool,
    baseLayerAvailable: bool,
    temporalIdNesting: bool,
    reserved: int,
    profile: Profile,
    orderingInfoPresent: bool,
    maxDecPicBufferingMinus1: int,
    numReorder: int,
    maxLatencyPlus1: int,
    maxLayerId: int
  )

  const U4 := U(4, 0)
  const PROFILE_HEAD: seq<Syntax> := [U(2, 0), FLAG, U(5, 0)]
  const PROFILE_END: seq<Syntax> := [FLAG, U(8, 0)]
  const VPS_HEAD: seq<Syntax> := [U4, FLAG, FLAG, U(6, 0), U(3, 0), FLAG, U(16, 0)]
  const VPS_TAIL: seq<Syntax> := [FLAG, UE, UE, UE, U(6, 0), UE, FLAG, FLAG]
  const SPS_HEAD: seq<Syntax> := [U4, U(3, 0), FLAG]
  const FORMAT: seq<Syntax> := [UE, UE, FLAG, UE, UE, UE, FLAG, UE, UE, UE, UE, UE, UE, UE, UE, UE]
  const PCM: seq<Syntax> := [U4, U4, UE, UE, FLAG]

  /** profile_tier_level(1, 0): in each profile 43 bits stand between the flags and general_inbld_flag. */
  function ReadProfile(bits: seq<bool>): Parsed<Profile> {
    var (v, b1) :- ReadVals(PROFILE_HEAD, bits);
    var (c, b2) :- ReadVals(Flags(32), b1);
    var (s, b3) :- ReadVals(Flags(4), b2);
    if |b3| < 43 || |v| != 3 || |s| != 4 then Stuck
    else
      var (l, rest) :- ReadVals(PROFILE_END, b3[43..]);
      if |l| != 2 then Stuck
      else Done(Profile(v[0], v[1] == 1, v[2], c, s[0] == 1, s[1] == 1, s[2] == 1, s[3] == 1, b3[..43], l[0] == 1, l[1]), rest)
  }

  /** video_parameter_set_rbsp() for one layer and one sub-layer, without timing information and extensions. */
  function ReadVps(bits: seq<bool>): Parsed<Vps> {
    var (h, b1) :- ReadVals(VPS_HEAD, bits);
    if |h| != 7 || h[3] != 0 || h[4] != 0 then Stuck
    else
      var (profile, b2) :- ReadProfile(b1);
      var (v, rest) :- ReadVals(VPS_TAIL, b2);
      if |v| != 8 || v[5] != 0 || v[6] != 0 || v[7] != 0 then Stuck
      else Done(Vps(h[0], h[1] == 1, h[2] == 1, h[5] == 1, h[6], profile, v[0] == 1, v[1], v[2], v[3], v[4]), rest)
  }

  /** seq_parameter_set_rbsp() for one sub-layer, without cropping, lists, tables, VUI and extensions. */
  function ReadSps(bits: seq<bool>): Parsed<Sps> {
    var (h, b1) :- ReadVals(SPS_HEAD, bits);
    if |h| != 3 || h[1] != 0 then Stuck
    else
      var (profile, b2) :- ReadProfile(b1);
      var (c, b3) :- ReadVals([UE, UE], b2);
      if |c| != 2 then Stuck
      else
        var (separate, b4) :- if c[1] == 3 then ReadFlag(b3) else Done(false, b3);
        var (f, b5) :- ReadVals(FORMAT, b4);
        if |f| != 16 || f[2] != 0 then Stuck
        else
          var (tools, b6) :- ReadTools(b5);
          var (references, rest) :- ReadReferences(b6);
          Done(Sps(h[0], h[2] == 1, profile, c[0], c[1], separate, FormatOf(f), tools, references), rest)
  }

  /** From pic_width_in_luma_samples to max_transform_hierarchy_depth_intra. */
  function FormatOf(f: seq<int>): Format
    requires |f| == 16
  {
    Format(f[0], f[1], f[3], f[4], f[5], f[6] == 1, f[7], f[8], f[9], f[10], f[11], f[12], f[13], f[14], f[15])
  }

  function ReadTools(bits: seq<bool>): Parsed<Tools> {
    var (scaling, b1) :- ReadScalingFlags(bits);
    var (amp, b2) :- ReadFlag(b1);
    var (sao, b3) :- ReadFlag(b2);
    var (pcm, rest) :- ReadPcm(b3);
    Done(Tools(scaling, amp, sao, pcm), rest)
  }

  /** scaling_list_enabled_flag and sps_scaling_list_data_present_flag. */
  function ReadScalingFlags(bits: seq<bool>): Parsed<bool> {
    var (scaling, b1) :- ReadFlag(bits);
    var (lists, rest) :- if scaling then ReadFlag(b1) else Done(false, b1);
    if lists then Stuck else Done(scaling, rest)
  }

  function ReadPcm(bits: seq<bool>): Parsed<Option<Pcm>> {
    var (enabled, b1) :- ReadFlag(bits);
    if !enabled then Done(None, b1)
    else
      var (v, rest) :- ReadVals(PCM, b1);
      if |v| != 5 then Stuck else Done(Some(Pcm(v[0], v[1], v[2], v[3], v[4] == 1)), rest)
  }

  function ReadReferences(bits: seq<bool>): Parsed<References> {
    var (sets, b1) :- ReadUe(bits);
    var (longTerm, b2) :- ReadFlag(b1);
    var (entries, b3) :- if longTerm then ReadUe(b2) else Done(0, b2);
    var (v, rest) :- ReadVals(Flags(4), b3);
    if sets != 0 || entries != 0 || |v| != 4 || v[2] != 0 || v[3] != 0 then Stuck
    else Done(References(sets, if longTerm then Some(entries) else None, v[0] == 1, v[1] == 1), rest)
  }

  // ---------- what the sets should carry ----------

  predicate FieldPicture(pp: PicParams) {
    FieldPic in pp.current.flags
  }

  function Reorder(pp: PicParams): nat {
    if pp.sps.noPicReordering then 0 else pp.sps.maxDecPicBufferingMinus1
  }

  /** Frames are progressive, field pictures interlaced; the profile is compatible with itself alone. */
  function IntendedProfile(pp: PicParams, profile: nat): Profile {
    var field := FieldPic in pp.current.flags;
    Profile(0, false, profile, seq(32, i => if i == profile then 1 else 0), !field, field, true, !field, seq(43, i => false), false, LevelIdc(pp))
  }

  function IntendedFormat(pp: PicParams): Format {
    Format(pp.width, pp.height, pp.sps.bitDepthLumaMinus8, pp.sps.bitDepthChromaMinus8, pp.log2MaxPocLsbMinus4,
           false, pp.sps.maxDecPicBufferingMinus1, if pp.sps.noPicReordering then 0 else pp.sps.maxDecPicBufferingMinus1, 0,
           pp.log2MinCbMinus3, pp.log2DiffMaxMinCb, pp.sps.log2MinTransformMinus2, pp.sps.log2DiffMaxMinTransform, pp.sps.maxDepthInter, pp.sps.maxDepthIntra)
  }

  function IntendedTools(pp: PicParams): Tools {
    Tools(pp.pps.scalingListEnabled, pp.sps.amp, pp.sps.sampleAdaptiveOffset,
          if pp.sps.pcm then Some(Pcm(pp.sps.pcmDepthLumaMinus1, pp.sps.pcmDepthChromaMinus1, pp.sps.log2MinPcmMinus3, pp.sps.log2DiffMaxMinPcm,
                                      pp.sps.pcmLoopFilterDisabled))
          else None)
  }

  /** No tables: every slice brings its own reference picture set. */
  function IntendedReferences(pp: PicParams): References {
    References(0, if pp.longTermPresent then Some(0) else None, pp.sps.temporalMvp, pp.sps.strongIntraSmoothing)
  }

  function IntendedSps(pp: PicParams, profile: nat): Sps {
    Sps(0, true, IntendedProfile(pp, profile), 0, 1, false, IntendedFormat(pp), IntendedTools(pp), IntendedReferences(pp))
  }

  function IntendedVps(pp: PicParams, profile: nat): Vps {
    Vps(0, true, true, true, 0xffff, IntendedProfile(pp, profile), false, pp.sps.maxDecPicBufferingMinus1,
        if pp.sps.noPicReordering then 0 else pp.sps.maxDecPicBufferingMinus1, 0, 0)
  }

  // ---------- what the code writes ----------

  function CompatibilityValues(profile: nat): (r: seq<int>)
    ensures |r| == 32 && forall i :: 0 <= i < 32 ==> r[i] == Bit(i == profile)
  {
    seq(32, i => Bit(i == profile))
  }

  function SourceValues(fieldPic: bool): seq<int> {
    [Bit(!fieldPic), Bit(fieldPic), 1, Bit(!fieldPic)]
  }

  /** 43 bits, in two forms. */
  function ReservedCode(profile: nat): seq<bool> {
    if profile == 2 then Print([U(7, 0), FLAG, U(24, 0), U(11, 0)], [0, 0, 0, 0]) else Print([U(24, 0), U(19, 0)], [0, 0])
  }

  function ProfileCode(pp: PicParams, profile: nat): seq<bool> {
    Print(PROFILE_HEAD, [0, 0, profile]) + (Print(Flags(32), CompatibilityValues(profile)) + (Print(Flags(4), SourceValues(FieldPicture(pp)))
    + (ReservedCode(profile) + Print(PROFILE_END, [0, LevelIdc(pp)]))))
  }

  function VpsTailValues(pp: PicParams): seq<int> {
    [0, pp.sps.maxDecPicBufferingMinus1, Reorder(pp), 0, 0, 0, 0, 0]
  }

  function VpsCode(pp: PicParams, profile: nat): seq<bool> {
    Print(VPS_HEAD, [0, 1, 1, 0, 0, 1, 0xffff]) + (ProfileCode(pp, profile) + Print(VPS_TAIL, VpsTailValues(pp)))
  }

  function FormatValues(pp: PicParams): (r: seq<int>)
    ensures |r| == 16
  {
    [pp.width, pp.height, 0, pp.sps.bitDepthLumaMinus8, pp.sps.bitDepthChromaMinus8, pp.log2MaxPocLsbMinus4, 0, pp.sps.maxDecPicBufferingMinus1,
     Reorder(pp), 0, pp.log2MinCbMinus3, pp.log2DiffMaxMinCb, pp.sps.log2MinTransformMinus2, pp.sps.log2DiffMaxMinTransform,
     pp.sps.maxDepthInter, pp.sps.maxDepthIntra]
  }

  function PcmValues(pp: PicParams): seq<int> {
    [pp.sps.pcmDepthLumaMinus1, pp.sps.pcmDepthChromaMinus1, pp.sps.log2MinPcmMinus3, pp.sps.log2DiffMaxMinPcm, Bit(pp.sps.pcmLoopFilterDisabled)]
  }

  function PcmCode(pp: PicParams): seq<bool> {
    if pp.sps.pcm then Print(PCM, PcmValues(pp)) else []
  }

  function ToolsCode(pp: PicParams): seq<bool> {
    (if pp.pps.scalingListEnabled then [true, false] else [false])
    + ([pp.sps.amp] + ([pp.sps.sampleAdaptiveOffset] + ([pp.sps.pcm] + PcmCode(pp))))
  }

  function LastValues(pp: PicParams): seq<int> {
    [Bit(pp.sps.temporalMvp), Bit(pp.sps.strongIntraSmoothing), 0, 0]
  }

  function ReferencesCode(pp: PicParams): seq<bool> {
    UeCode(0) + ((if pp.longTermPresent then [true] + UeCode(0) else [false]) + Print(Flags(4), LastValues(pp)))
  }

  function SpsCode(pp: PicParams, profile: nat): seq<bool> {
    Print(SPS_HEAD, [0, 0, 1]) + (ProfileCode(pp, profile) + (Print([UE, UE], [0, pp.sps.chromaFormatIdc]) + (Print(FORMAT, FormatValues(pp))
    + (ToolsCode(pp) + ReferencesCode(pp)))))
  }

  // ---------- every value fits its element ----------

  lemma ProfileFits(pp: PicParams, profile: nat)
    requires profile <= 2
    ensures Fit(PROFILE_HEAD, [0, 0, profile]) && Fit(Flags(32), CompatibilityValues(profile)) && Fit(Flags(4), SourceValues(FieldPicture(pp)))
    ensures Fit(PROFILE_END, [0, LevelIdc(pp)])
    ensures Fit([U(7, 0), FLAG, U(24, 0), U(11, 0)], [0, 0, 0, 0]) && Fit([U(24, 0), U(19, 0)], [0, 0])
  {
    hide LevelIdc, Pow2;
    SmallPowers();
  }

  lemma ValuesFit(pp: PicParams, profile: nat)
    requires SpsBounds(pp, profile)
    ensures 1 <= profile <= 2 && pp.sps.chromaFormatIdc == 1
    ensures Fit(VPS_HEAD, [0, 1, 1, 0, 0, 1, 0xffff]) && Fit(VPS_TAIL, VpsTailValues(pp)) && Fit(SPS_HEAD, [0, 0, 1])
    ensures Fit([UE, UE], [0, pp.sps.chromaFormatIdc]) && Fit(FORMAT, FormatValues(pp)) && Fit(Flags(4), LastValues(pp))
    ensures pp.sps.pcm ==> Fit(PCM, PcmValues(pp))
  {
    hide Pow2;
    SmallPowers();
  }

  // ---------- the round trips ----------

  lemma ReservedIsZero(profile: nat)
    ensures ReservedCode(profile) == Zeros(43)
  {
    hide UBits, Pow2;
    if profile == 2 {
      var f := Fill([U(7, 0), FLAG, U(24, 0), U(11, 0)], [0, 0, 0, 0]);
      assert f == [U(7, 0)] + ([U(1, 0)] + ([U(24, 0)] + [U(11, 0)]));
      EncodeCons(U(7, 0), [U(1, 0)] + ([U(24, 0)] + [U(11, 0)]));
      EncodeCons(U(1, 0), [U(24, 0)] + [U(11, 0)]);
      EncodeCons(U(24, 0), [U(11, 0)]);
      EncodeOne(U(11, 0));
      UBitsOfZero(7);
      UBitsOfZero(1);
      UBitsOfZero(24);
      UBitsOfZero(11);
      assert Zeros(7) + (Zeros(1) + (Zeros(24) + Zeros(11))) == Zeros(43);
    } else {
      assert Fill([U(24, 0), U(19, 0)], [0, 0]) == [U(24, 0)] + [U(19, 0)];
      EncodeCons(U(24, 0), [U(19, 0)]);
      EncodeOne(U(19, 0));
      UBitsOfZero(24);
      UBitsOfZero(19);
      assert Zeros(24) + Zeros(19) == Zeros(43);
    }
  }

  lemma ProfileRoundTrip(pp: PicParams, profile: nat, rest: seq<bool>)
    requires profile <= 2
    ensures ReadProfile(ProfileCode(pp, profile) + rest) == Done(IntendedProfile(pp, profile), rest)
  {
    hide ReadVals, Print, LevelIdc, ReservedCode, Fit;
    var b4 := Print(PROFILE_END, [0, LevelIdc(pp)]) + rest;
    var b3 := ReservedCode(profile) + b4;
    var b2 := Print(Flags(4), SourceValues(FieldPicture(pp))) + b3;
    var b1 := Print(Flags(32), CompatibilityValues(profile)) + b2;
    assert ProfileCode(pp, profile) + rest == Print(PROFILE_HEAD, [0, 0, profile]) + b1;
    ProfileFits(pp, profile);
    ReadPrinted(PROFILE_HEAD, [0, 0, profile], b1);
    ReadPrinted(Flags(32), CompatibilityValues(profile), b2);
    ReadPrinted(Flags(4), SourceValues(FieldPicture(pp)), b3);
    ReservedIsZero(profile);
    assert b3[43..] == b4 && b3[..43] == Zeros(43) == seq(43, i => false);
    assert CompatibilityValues(profile) == seq(32, i => if i == profile then 1 else 0);
    ReadPrinted(PROFILE_END, [0, LevelIdc(pp)], rest);
  }

  /** A decoder reads from the video parameter set the profile, the level and the buffering of the picture. */
  lemma VpsRoundTrip(pp: PicParams, profile: nat, rest: seq<bool>)
    requires SpsBounds(pp, profile)
    ensures ReadVps(VpsCode(pp, profile) + rest) == Done(IntendedVps(pp, profile), rest)
  {
    hide ReadVals, Print, ReadProfile, ProfileCode, SpsBounds, IntendedProfile, Fit;
    var b2 := Print(VPS_TAIL, VpsTailValues(pp)) + rest;
    var b1 := ProfileCode(pp, profile) + b2;
    assert VpsCode(pp, profile) + rest == Print(VPS_HEAD, [0, 1, 1, 0, 0, 1, 0xffff]) + b1;
    ValuesFit(pp, profile);
    ReadPrinted(VPS_HEAD, [0, 1, 1, 0, 0, 1, 0xffff], b1);
    ProfileRoundTrip(pp, profile, b2);
    ReadPrinted(VPS_TAIL, VpsTailValues(pp), rest);
  }

  lemma PcmRoundTrip(pp: PicParams, rest: seq<bool>)
    requires pp.sps.pcm ==> Fit(PCM, PcmValues(pp))
    ensures ReadPcm([pp.sps.pcm] + PcmCode(pp) + rest) == Done(IntendedTools(pp).pcm, rest)
  {
    hide ReadVals, Print, Fit;
    assert [pp.sps.pcm] + PcmCode(pp) + rest == [pp.sps.pcm] + (PcmCode(pp) + rest);
    ReadFlagOf(pp.sps.pcm, PcmCode(pp) + rest);
    if pp.sps.pcm {
      ReadPrinted(PCM, PcmValues(pp), rest);
    } else {
      assert [] + rest == rest;
    }
  }

  lemma ToolsSplit(a: seq<bool>, b: seq<bool>, c: seq<bool>, d: seq<bool>, e: seq<bool>, rest: seq<bool>)
    ensures a + (b + (c + (d + e))) + rest == a + (b + (c + (d + e + rest)))
  {
    assert b + (c + (d + e)) + rest == b + (c + (d + e) + rest);
  }

  lemma ScalingFlagsRoundTrip(scaling: bool, rest: seq<bool>)
    ensures ReadScalingFlags((if scaling then [true, false] else [false]) + rest) == Done(scaling, rest)
  {
    if scaling {
      assert [true, false] + rest == [true] + ([false] + rest);
      ReadFlagOf(true, [false] + rest);
    }
    ReadFlagOf(false, rest);
  }

  lemma ToolsRoundTrip(pp: PicParams, rest: seq<bool>)
    requires pp.sps.pcm ==> Fit(PCM, PcmValues(pp))
    ensures ReadTools(ToolsCode(pp) + rest) == Done(IntendedTools(pp), rest)
  {
    hide ReadPcm, ReadScalingFlags, PcmCode, Fit;
    var b3 := [pp.sps.pcm] + PcmCode(pp) + rest;
    var b2 := [pp.sps.sampleAdaptiveOffset] + b3;
    var b1 := [pp.sps.amp] + b2;
    ToolsSplit(if pp.pps.scalingListEnabled then [true, false] else [false], [pp.sps.amp], [pp.sps.sampleAdaptiveOffset], [pp.sps.pcm],
               PcmCode(pp), rest);
    ScalingFlagsRoundTrip(pp.pps.scalingListEnabled, b1);
    ReadFlagOf(pp.sps.amp, b2);
    ReadFlagOf(pp.sps.sampleAdaptiveOffset, b3);
    PcmRoundTrip(pp, rest);
  }

  lemma ReferencesRoundTrip(pp: PicParams, rest: seq<bool>)
    requires Fit(Flags(4), LastValues(pp))
    ensures ReadReferences(ReferencesCode(pp) + rest) == Done(IntendedReferences(pp), rest)
  {
    hide ReadVals, Print, UeCode, ReadUe, Fit;
    var b3 := Print(Flags(4), LastValues(pp)) + rest;
    var b2 := (if pp.longTermPresent then UeCode(0) else []) + b3;
    var b1 := [pp.longTermPresent] + b2;
    assert ReferencesCode(pp) + rest == UeCode(0) + b1;
    ReadUeOfUeCode(0, b1);
    ReadFlagOf(pp.longTermPresent, b2);
    if pp.longTermPresent {
      ReadUeOfUeCode(0, b3);
    } else {
      assert b2 == b3;
    }
    ReadPrinted(Flags(4), LastValues(pp), rest);
  }

  /**
   Printing is invertible: a decoder reads every applicable field of a validated picture back, and
   is left without tables of reference picture sets.
   */
  lemma SpsRoundTrip(pp: PicParams, profile: nat, rest: seq<bool>)
    requires SpsBounds(pp, profile)
    ensures ReadSps(SpsCode(pp, profile) + rest) == Done(IntendedSps(pp, profile), rest)
  {
    hide ReadVals, Print, ReadProfile, ProfileCode, SpsBounds, IntendedProfile, ReadTools, ToolsCode, IntendedTools, ReadReferences, ReferencesCode,
      IntendedReferences, Fit;
    var b5 := ReferencesCode(pp) + rest;
    var b4 := ToolsCode(pp) + b5;
    var b3 := Print(FORMAT, FormatValues(pp)) + b4;
    var b2 := Print([UE, UE], [0, pp.sps.chromaFormatIdc]) + b3;
    var b1 := ProfileCode(pp, profile) + b2;
    assert SpsCode(pp, profile) + rest == Print(SPS_HEAD, [0, 0, 1]) + b1;
    ValuesFit(pp, profile);
    ReadPrinted(SPS_HEAD, [0, 0, 1], b1);
    ProfileRoundTrip(pp, profile, b2);
    ReadPrinted([UE, UE], [0, pp.sps.chromaFormatIdc], b3);
    ReadPrinted(FORMAT, FormatValues(pp), b4);
    ToolsRoundTrip(pp, b5);
    ReferencesRoundTrip(pp, rest);
  }

  // ---------- the raw buffers are large enough ----------

  function VpsText(pp: PicParams, profile: nat): seq<bool> {
    HevcHeader(32) + VpsCode(pp, profile)
  }

  function SpsText(pp: PicParams, profile: nat): seq<bool> {
    HevcHeader(33) + SpsCode(pp, profile)
  }

  /** No bit is dropped, and the finished units stay far below the capacity of the headers. */
  lemma SetsFit(pp: PicParams, profile: nat)
    requires SpsBounds(pp, profile)
    ensures |VpsText(pp, profile)| + 8 <= 8 * VPS_CAPACITY && |SpsText(pp, profile)| + 8 <= 8 * 1024 <= 8 * SPS_CAPACITY
    ensures |NalOf(VpsText(pp, profile)).nal| <= 768 && |NalOf(SpsText(pp, profile)).nal| <= 1536
  {
    hide Print, HevcHeader, LevelIdc, NalOf, SpsBounds, Fit, UeCode;
    ValuesFit(pp, profile);
    ProfileFits(pp, profile);
    HevcHeaderFits(32);
    HevcHeaderFits(33);
    PrintLength(VPS_HEAD, [0, 1, 1, 0, 0, 1, 0xffff]);
    PrintLength(VPS_TAIL, VpsTailValues(pp));
    PrintLength(SPS_HEAD, [0, 0, 1]);
    PrintLength([UE, UE], [0, pp.sps.chromaFormatIdc]);
    PrintLength(FORMAT, FormatValues(pp));
    PrintLength(Flags(4), LastValues(pp));
    PrintLength(PROFILE_HEAD, [0, 0, profile]);
    PrintLength(Flags(32), CompatibilityValues(profile));
    PrintLength(Flags(4), SourceValues(FieldPicture(pp)));
    PrintLength(PROFILE_END, [0, LevelIdc(pp)]);
    ReservedIsZero(profile);
    CodeLength(Ue(0));
    if pp.sps.pcm {
      PrintLength(PCM, PcmValues(pp));
    }
    NalLength(VpsText(pp, profile), 512);
    NalLength(SpsText(pp, profile), 1024);
  }

  // ---------- the writers ----------

  /** write_profile_tier_level. */
  method WriteProfile(bs: BSWriter, pp: PicParams, profile: nat)
    requires bs.Valid() && profile <= 2
    modifies bs, bs.data
    ensures bs.Valid() && bs.text == old(bs.text) + ProfileCode(pp, profile)
  {
    hide BSWriter.Valid, Print, CompatibilityValues, LevelIdc, Fit;
    ghost var start := bs.text;
    ProfileFits(pp, profile);
    WriteGroup(bs, PROFILE_HEAD, [0, 0, profile]);
    WriteCompatibility(bs, profile);
    WriteGroup(bs, Flags(4), SourceValues(FieldPicture(pp)));
    if profile == 2 {
      WriteGroup(bs, [U(7, 0), FLAG, U(24, 0), U(11, 0)], [0, 0, 0, 0]);
    } else {
      WriteGroup(bs, [U(24, 0), U(19, 0)], [0, 0]);
    }
    WriteGroup(bs, PROFILE_END, [0, LevelIdc(pp)]);
    FivePieces(start, Print(PROFILE_HEAD, [0, 0, profile]), Print(Flags(32), CompatibilityValues(profile)),
               Print(Flags(4), SourceValues(FieldPicture(pp))), ReservedCode(profile), Print(PROFILE_END, [0, LevelIdc(pp)]));
  }

  lemma FivePieces(start: seq<bool>, a: seq<bool>, b: seq<bool>, c: seq<bool>, d: seq<bool>, e: seq<bool>)
    ensures start + a + b + c + d + e == start + (a + (b + (c + (d + e))))
  {
    assert a + b + c + d + e == a + (b + (c + (d + e)));
  }

  /** The loop over the compatibility flags. */
  method WriteCompatibility(bs: BSWriter, profile: nat)
    requires bs.Valid()
    modifies bs, bs.data
    ensures bs.Valid() && bs.text == old(bs.text) + Print(Flags(32), CompatibilityValues(profile))
  {
    hide BSWriter.Valid, Encode, UBits;
    ghost var start, flags := bs.text, Fill(Flags(32), CompatibilityValues(profile));
    for i := 0 to 32
      invariant bs.Valid() && start + Encode(flags) == bs.text + Encode(flags[i..])
    {
      assert flags[i..] == [flags[i]] + flags[i + 1..];
      EncodeCons(flags[i], flags[i + 1..]);
      assert flags[i] == Put(Flags(32)[i], Bit(i == profile)) == U(1, Bit(i == profile));
      bs.Write(if i == profile then 1 else 0, 1);
    }
    EncodeNothing(flags[32..]);
  }

  method WriteVps(buf: array<byte>, at: nat, bufSize: nat, pp: PicParams, profile: nat) returns (used: int)
    requires at + bufSize <= buf.Length && SpsBounds(pp, profile)
    modifies buf
    ensures var nal := NalOf(VpsText(pp, profile)).nal;
            if |nal| + 4 <= bufSize then used == |nal| + 4 && buf[at..at + used] == [0, 0, 0, 1] + nal else used == -1
    ensures buf[..at] == old(buf[..at])
  {
    hide BSWriter.Valid, Print, ProfileCode, SpsBounds, NalOf, Fit;
    var raw := new byte[VPS_CAPACITY];
    var bs := new BSWriter(raw);
    ValuesFit(pp, profile);
    HevcHeaderFits(32);
    WriteGroup(bs, HEVC_HEADER, [0, 32, 0, 1]);
    WriteGroup(bs, VPS_HEAD, [0, 1, 1, 0, 0, 1, 0xffff]);
    WriteProfile(bs, pp, profile);
    WriteGroup(bs, VPS_TAIL, VpsTailValues(pp));
    FivePieces([], HevcHeader(32), Print(VPS_HEAD, [0, 1, 1, 0, 0, 1, 0xffff]), ProfileCode(pp, profile), Print(VPS_TAIL, VpsTailValues(pp)), []);
    assert bs.text == VpsText(pp, profile);
    SetsFit(pp, profile);
    used := Finish(bs, buf, at, bufSize);
  }

  method WriteSps(buf: array<byte>, at: nat, bufSize: nat, pp: PicParams, profile: nat) returns (used: int)
    requires at + bufSize <= buf.Length && SpsBounds(pp, profile)
    modifies buf
    ensures var nal := NalOf(SpsText(pp, profile)).nal;
            if |nal| + 4 <= bufSize then used == |nal| + 4 && buf[at..at + used] == [0, 0, 0, 1] + nal else used == -1
    ensures buf[..at] == old(buf[..at])
  {
    hide BSWriter.Valid, Print, ProfileCode, ToolsCode, ReferencesCode, SpsBounds, NalOf, Fit;
    var raw := new byte[SPS_CAPACITY];
    var bs := new BSWriter(raw);
    ValuesFit(pp, profile);
    HevcHeaderFits(33);
    WriteGroup(bs, HEVC_HEADER, [0, 33, 0, 1]);
    WriteGroup(bs, SPS_HEAD, [0, 0, 1]);
    WriteProfile(bs, pp, profile);
    WriteGroup(bs, [UE, UE], [0, pp.sps.chromaFormatIdc]);
    WriteGroup(bs, FORMAT, FormatValues(pp));
    WriteTools(bs, pp);
    WriteReferences(bs, pp);
    SpsPieces(pp, profile);
    SetsFit(pp, profile);
    used := Finish(bs, buf, at, bufSize);
  }

  lemma SpsPieces(pp: PicParams, profile: nat)
    ensures [] + HevcHeader(33) + Print(SPS_HEAD, [0, 0, 1]) + ProfileCode(pp, profile) + Print([UE, UE], [0, pp.sps.chromaFormatIdc])
            + Print(FORMAT, FormatValues(pp)) + ToolsCode(pp) + ReferencesCode(pp) == SpsText(pp, profile)
  {
    hide Print, ProfileCode, ToolsCode, ReferencesCode;
    FivePieces(Print(SPS_HEAD, [0, 0, 1]), ProfileCode(pp, profile), Print([UE, UE], [0, pp.sps.chromaFormatIdc]), Print(FORMAT, FormatValues(pp)),
               ToolsCode(pp), ReferencesCode(pp));
  }

  method WriteTools(bs: BSWriter, pp: PicParams)
    requires bs.Valid() && (pp.sps.pcm ==> Fit(PCM, PcmValues(pp)))
    modifies bs, bs.data
    ensures bs.Valid() && bs.text == old(bs.text) + ToolsCode(pp)
  {
    hide BSWriter.Valid, Print, Fit, UBits;
    ghost var start := bs.text;
    UBitsOfFlag(pp.pps.scalingListEnabled);
    UBitsOfFlag(false);
    UBitsOfFlag(pp.sps.amp);
    UBitsOfFlag(pp.sps.sampleAdaptiveOffset);
    UBitsOfFlag(pp.sps.pcm);
    bs.Write(if pp.pps.scalingListEnabled then 1 else 0, 1);
    if pp.pps.scalingListEnabled {
      bs.Write(0, 1);
    }
    assert bs.text == start + (if pp.pps.scalingListEnabled then [true, false] else [false]);
    bs.Write(if pp.sps.amp then 1 else 0, 1);
    bs.Write(if pp.sps.sampleAdaptiveOffset then 1 else 0, 1);
    bs.Write(if pp.sps.pcm then 1 else 0, 1);
    if pp.sps.pcm {
      WriteGroup(bs, PCM, PcmValues(pp));
    }
    FivePieces(start, if pp.pps.scalingListEnabled then [true, false] else [false], [pp.sps.amp], [pp.sps.sampleAdaptiveOffset], [pp.sps.pcm],
               PcmCode(pp));
  }

  method WriteReferences(bs: BSWriter, pp: PicParams)
    requires bs.Valid() && Fit(Flags(4), LastValues(pp))
    modifies bs, bs.data
    ensures bs.Valid() && bs.text == old(bs.text) + ReferencesCode(pp)
  {
    hide BSWriter.Valid, Print, Fit, UeCode, UBits;
    bs.WriteUe(0);
    bs.Write(if pp.longTermPresent then 1 else 0, 1);
    UBitsOfFlag(pp.longTermPresent);
    if pp.longTermPresent {
      bs.WriteUe(0);
    }
    WriteGroup(bs, Flags(4), LastValues(pp));
  }

  /** The sequence headers as units of the stream. */
  function SequenceUnits(pp: PicParams, profile: nat): seq<Unit> {
    [NalOf(VpsText(pp, profile)), NalOf(SpsText(pp, profile))]
  }

  /** rk_hevc_write_sequence_parameter_sets; 4096 bytes are always enough. */
  method WriteSequenceParameterSets(buf: array<byte>, bufSize: nat, pp: PicParams, hasIq: bool, profile: nat) returns (used: int)
    requires bufSize <= buf.Length && WellFormed(pp)
    modifies buf
    ensures var stream := Stream(SequenceUnits(pp, profile));
            if Validated(pp, profile, hasIq) && |stream| <= bufSize then used == |stream| > 0 && buf[..used] == stream else used == -1
    ensures Validated(pp, profile, hasIq) ==> |Stream(SequenceUnits(pp, profile))| <= 4096
  {
    hide Validated, SpsBounds, VpsText, SpsText, NalOf;
    TwoUnits(NalOf(VpsText(pp, profile)), NalOf(SpsText(pp, profile)));
    StartCodes(VpsText(pp, profile));
    StartCodes(SpsText(pp, profile));
    var valid := Validate(pp, profile, hasIq);
    if !valid {
      return -1;
    }
    BoundsOf(pp, profile, hasIq);
    SetsFit(pp, profile);
    var vps := WriteVps(buf, 0, bufSize, pp, profile);
    if vps < 0 {
      return -1;
    }
    ghost var front := buf[..vps];
    var sps := WriteSps(buf, vps, bufSize - vps, pp, profile);
    if sps < 0 {
      return -1;
    }
    used := vps + sps;
    assert buf[..vps] == front && buf[vps..vps + sps] == buf[vps..used];
    assert buf[..used] == front + buf[vps..used];
  }

  lemma BoundsOf(pp: PicParams, profile: nat, hasIq: bool)
    requires Validated(pp, profile, hasIq)
    ensures SpsBounds(pp, profile)
  {
  }

  lemma StartCodes(text: seq<bool>)
    ensures NalOf(text).code == [0, 0, 0, 1]
  {
  }

  lemma TwoUnits(a: Unit, b: Unit)
    ensures Stream([a, b]) == a.code + a.nal + (b.code + b.nal)
  {
    assert [a, b][1..] == [b] && [b][1..] == [];
    assert Stream([b]) == b.code + b.nal + [];
  }

  /**
   Both units as a decoder sees them: the stream can carry them, and unescaped, behind their
   headers, they read as the intended fields and end in rbsp_trailing_bits().
   */
  lemma SequenceNalsDecode(pp: PicParams, profile: nat)
    requires SpsBounds(pp, profile)
    ensures NalOf(VpsText(pp, profile)).Valid() && NalOf(SpsText(pp, profile)).Valid()
    ensures ReadHevcUnit(Unescaped(NalOf(VpsText(pp, profile)))) == Done(32, Payload(NalOf(VpsText(pp, profile)), 16))
    ensures ReadHevcUnit(Unescaped(NalOf(SpsText(pp, profile)))) == Done(33, Payload(NalOf(SpsText(pp, profile)), 16))
    ensures ReadVps(Payload(NalOf(VpsText(pp, profile)), 16)) == Done(IntendedVps(pp, profile), Trailing(|VpsText(pp, profile)|))
    ensures ReadSps(Payload(NalOf(SpsText(pp, profile)), 16)) == Done(IntendedSps(pp, profile), Trailing(|SpsText(pp, profile)|))
  {
    hide VpsCode, SpsCode, SpsBounds, Trailing, ReadVps, ReadSps, IntendedVps, IntendedSps, NalOf, HevcHeader, Payload, Unit.Valid, Unescaped, ReadHevcUnit;
    HevcHeaderFits(32);
    HevcHeaderFits(33);
    PayloadOf(HevcHeader(32), VpsCode(pp, profile));
    PayloadOf(HevcHeader(33), SpsCode(pp, profile));
    ReadHevcUnitOf(32, Payload(NalOf(VpsText(pp, profile)), 16));
    ReadHevcUnitOf(33, Payload(NalOf(SpsText(pp, profile)), 16));
    VpsRoundTrip(pp, profile, Trailing(|VpsText(pp, profile)|));
    SpsRoundTrip(pp, profile, Trailing(|SpsText(pp, profile)|));
  }
}
