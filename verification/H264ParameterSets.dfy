/**
 The parameter sets of src/h264.c against sections 7.3.2.1.1 and 7.3.2.2 of H.264, and the level it
 derives against table A-1.
 */
module H264ParameterSets {
  import opened Options
  import opened Integers
  import opened Bits
  import opened ExpGolomb
  import opened BitWriter
  import opened SyntaxElements
  import opened ScalingLists
  import opened RawNal

  const SPS_CAPACITY: nat := 512
  const PPS_CAPACITY: nat := 1024

  /** VAPictureParameterBufferH264, as far as the parameter sets need it. */
  datatype PicParams = PicParams(
    widthMbsMinus1: u16,
    heightMbsMinus1: u16,
    bitDepthLumaMinus8: u8,
    bitDepthChromaMinus8: u8,
    numRefFrames: u8,
    chromaFormatIdc: u8,
    residualColourTransform: bool,
    gapsAllowed: bool,
    frameMbsOnly: bool,
    mbAdaptive: bool,
    direct8x8: bool,
    minLumaBiPred8x8: bool,
    log2MaxFrameNumMinus4: u8,
    pocType: u8,
    log2MaxPocLsbMinus4: u8,
    deltaOrderAlwaysZero: bool,
    entropyCoding: bool,
    picOrderPresent: bool,
    weightedPred: bool,
    weightedBipredIdc: u8,
    transform8x8: bool,
    initQpMinus26: i8,
    initQsMinus26: i8,
    chromaQpOffset: i8,
    secondChromaQpOffset: i8,
    deblockingControl: bool,
    constrainedIntra: bool,
    redundantPicCnt: bool
  ) {
    /** The widths of the bit fields. */
    predicate WellFormed() {
      chromaFormatIdc <= 3 && pocType <= 3 && weightedBipredIdc <= 3
    }

    function WidthMbs(): nat {
      widthMbsMinus1 + 1
    }

    function HeightMbs(): nat {
      heightMbsMinus1 + 1
    }
  }

  /** VAIQMatrixBufferH264. */
  datatype IqMatrix = IqMatrix(list4x4: seq<seq<Entry>>, list8x8: seq<seq<Entry>>) {
    predicate Valid() {
      && |list4x4| == 6 && (forall i :: 0 <= i < 6 ==> |list4x4[i]| == 16)
      && |list8x8| == 2 && (forall i :: 0 <= i < 2 ==> |list8x8[i]| == 64)
    }
  }

  /** Profiles whose sets the source gives the fields of the high profiles. */
  predicate SentHigh(profile: nat) {
    profile in {100, 110, 122, 244, 44, 83, 86, 118, 128}
  }

  /** h264_profile_idc. */
  predicate KnownProfile(profile: nat) {
    profile in {66, 77, 100, 110}
  }

  /** A number of reference pictures less one, as the slices give it. */
  type Count = x: int | 0 <= x <= INT_MAX

  // ---------- the level ----------

  datatype Limit = Limit(level: nat, maxFs: nat, maxDpbMbs: nat)

  const LIMITS: seq<Limit> := [
    Limit(10, 99, 396), Limit(11, 396, 900), Limit(12, 396, 2376), Limit(21, 792, 4752), Limit(22, 1620, 8100), Limit(31, 3600, 18000),
    Limit(32, 5120, 20480), Limit(40, 8192, 32768), Limit(42, 8704, 34816), Limit(50, 22080, 110400), Limit(51, 36864, 184320),
    Limit(60, 139264, 696320)
  ]

  /** The limits of section A.3 that the fields tell about. */
  predicate Admits(limit: Limit, pp: PicParams) {
    var frame := pp.WidthMbs() * pp.HeightMbs();
    && (pp.minLumaBiPred8x8 ==> limit.level >= 31)
    && frame <= limit.maxFs && frame * pp.numRefFrames <= limit.maxDpbMbs
    && pp.WidthMbs() * pp.WidthMbs() <= 8 * limit.maxFs && pp.HeightMbs() * pp.HeightMbs() <= 8 * limit.maxFs
  }

  /** The first entry of the table from `i` on that admits the picture. */
  function LevelFrom(pp: PicParams, i: nat): (level: nat)
    requires i <= |LIMITS|
    ensures level < 256
    decreases |LIMITS| - i
  {
    if i == |LIMITS| then 62 else if Admits(LIMITS[i], pp) then LIMITS[i].level else LevelFrom(pp, i + 1)
  }

  function LevelIdc(pp: PicParams): (level: nat)
    ensures level < 256
  {
    LevelFrom(pp, 0)
  }

  /** h264_derive_level_idc. */
  method DeriveLevelIdc(pp: PicParams) returns (level: nat)
    ensures level == LevelIdc(pp)
  {
    hide Admits;
    for i := 0 to |LIMITS|
      invariant LevelIdc(pp) == LevelFrom(pp, i)
    {
      if Admits(LIMITS[i], pp) {
        return LIMITS[i].level;
      }
    }
    level := 62;
  }

  /** The level is the least of the table that admits the picture, and 6.2 when none does. */
  lemma {:induction false} LevelIsLeast(pp: PicParams, i: nat)
    requires i <= |LIMITS|
    ensures var level := LevelFrom(pp, i);
            && (forall k :: i <= k < |LIMITS| && Admits(LIMITS[k], pp) ==> level <= LIMITS[k].level)
            && ((exists k :: i <= k < |LIMITS| && Admits(LIMITS[k], pp)) ==> exists k :: i <= k < |LIMITS| && LIMITS[k].level == level && Admits(LIMITS[k], pp))
            && ((forall k :: i <= k < |LIMITS| ==> !Admits(LIMITS[k], pp)) ==> level == 62)
    decreases |LIMITS| - i
  {
    hide Admits;
    if i < |LIMITS| {
      LevelIsLeast(pp, i + 1);
      LevelsRise(i);
    }
  }

  lemma LevelsRise(i: nat)
    requires i < |LIMITS|
    ensures forall k :: i <= k < |LIMITS| ==> LIMITS[i].level <= LIMITS[k].level
  {
  }

  /** The levels of table A-1, as level_idc; 1b has the limits of 1. */
  const LEVELS: set<nat> := {10, 11, 12, 13, 20, 21, 22, 30, 31, 32, 40, 41, 42, 50, 51, 52, 60, 61, 62}

  /** MaxFS of table A-1. */
  function MaxFs(level: nat): nat {
    if level <= 10 then 99 else if level <= 20 then 396 else if level <= 21 then 792 else if level <= 30 then 1620
    else if level <= 31 then 3600 else if level <= 32 then 5120 else if level <= 41 then 8192 else if level <= 42 then 8704
    else if level <= 50 then 22080 else if level <= 52 then 36864 else 139264
  }

  /** MaxDpbMbs of table A-1. */
  function MaxDpbMbs(level: nat): nat {
    if level <= 10 then 396 else if level <= 11 then 900 else if level <= 20 then 2376 else if level <= 21 then 4752
    else if level <= 30 then 8100 else if level <= 31 then 18000 else if level <= 32 then 20480 else if level <= 41 then 32768
    else if level <= 42 then 34816 else if level <= 50 then 110400 else if level <= 52 then 184320 else 696320
  }

  /** Section A.3.1 for a frame of width by height macroblocks; MinLumaBiPredSize is 8x8 from level 3.1 on (table A-4). */
  predicate LevelAdmits(level: nat, width: nat, height: nat, refs: nat, minLumaBiPred8x8: bool) {
    && width * height <= MaxFs(level) && width * height * refs <= MaxDpbMbs(level)
    && width * width <= 8 * MaxFs(level) && height * height <= 8 * MaxFs(level)
    && (minLumaBiPred8x8 ==> level >= 31)
  }

  /** The entry of the driver's table with the limits of a level. */
  function EntryOf(level: nat): (i: nat)
    ensures i < |LIMITS|
  {
    if level <= 10 then 0 else if level <= 11 then 1 else if level <= 20 then 2 else if level <= 21 then 3 else if level <= 30 then 4
    else if level <= 31 then 5 else if level <= 32 then 6 else if level <= 41 then 7 else if level <= 42 then 8 else if level <= 50 then 9
    else if level <= 52 then 10 else 11
  }

  lemma EntryAdmits(pp: PicParams, level: nat)
    requires level in LEVELS
    ensures LIMITS[EntryOf(level)].level <= level
    ensures Admits(LIMITS[EntryOf(level)], pp) <==>
            LevelAdmits(level, pp.widthMbsMinus1 + 1, pp.heightMbsMinus1 + 1, pp.numRefFrames, pp.minLumaBiPred8x8)
  {
    var limit := LIMITS[EntryOf(level)];
    assert limit.maxFs == MaxFs(level) && limit.maxDpbMbs == MaxDpbMbs(level) && (limit.level >= 31 <==> level >= 31);
  }

  lemma EntryIsLevel(k: nat)
    requires k < |LIMITS|
    ensures LIMITS[k].level in LEVELS && EntryOf(LIMITS[k].level) == k
  {
  }

  predicate Suits(level: nat, pp: PicParams) {
    LevelAdmits(level, pp.widthMbsMinus1 + 1, pp.heightMbsMinus1 + 1, pp.numRefFrames, pp.minLumaBiPred8x8)
  }

  lemma LevelBelow(pp: PicParams, level: nat)
    requires level in LEVELS && Suits(level, pp)
    ensures LevelIdc(pp) <= level
  {
    hide Admits, LevelAdmits, EntryOf, LevelFrom;
    EntryAdmits(pp, level);
    LevelIsLeast(pp, 0);
  }

  lemma LevelReached(pp: PicParams, level: nat)
    requires level in LEVELS && Suits(level, pp)
    ensures LevelIdc(pp) in LEVELS && Suits(LevelIdc(pp), pp)
  {
    hide Admits, LevelAdmits, EntryOf, LevelFrom;
    EntryAdmits(pp, level);
    LevelIsLeast(pp, 0);
    var k :| 0 <= k < |LIMITS| && LIMITS[k].level == LevelIdc(pp) && Admits(LIMITS[k], pp);
    EntryIsLevel(k);
    EntryAdmits(pp, LIMITS[k].level);
  }

  lemma NoLevel(pp: PicParams)
    requires forall level :: level in LEVELS ==> !Suits(level, pp)
    ensures LevelIdc(pp) == 62
  {
    hide Admits, LevelAdmits, EntryOf, LevelFrom, Suits;
    LevelIsLeast(pp, 0);
    if k :| 0 <= k < |LIMITS| && Admits(LIMITS[k], pp) {
      EntryIsLevel(k);
      EntrySuits(pp, k);
    }
  }

  lemma EntrySuits(pp: PicParams, k: nat)
    requires k < |LIMITS| && Admits(LIMITS[k], pp)
    ensures Suits(LIMITS[k].level, pp)
  {
    hide Admits, LevelAdmits, EntryOf;
    EntryIsLevel(k);
    EntryAdmits(pp, LIMITS[k].level);
  }

  /** The level is the least of table A-1 that admits the picture, and 6.2 when none does. */
  lemma LevelMeetsStandard(pp: PicParams)
    ensures var width, height := pp.widthMbsMinus1 + 1, pp.heightMbsMinus1 + 1;
            && (forall level :: level in LEVELS && LevelAdmits(level, width, height, pp.numRefFrames, pp.minLumaBiPred8x8) ==> LevelIdc(pp) <= level)
            && if exists level :: level in LEVELS && LevelAdmits(level, width, height, pp.numRefFrames, pp.minLumaBiPred8x8)
               then LevelIdc(pp) in LEVELS && LevelAdmits(LevelIdc(pp), width, height, pp.numRefFrames, pp.minLumaBiPred8x8)
               else LevelIdc(pp) == 62
  {
    hide LevelAdmits, LevelFrom;
    forall level | level in LEVELS && Suits(level, pp)
      ensures LevelIdc(pp) <= level
    {
      LevelBelow(pp, level);
    }
    if level :| level in LEVELS && Suits(level, pp) {
      LevelReached(pp, level);
    } else {
      NoLevel(pp);
    }
  }

  // ---------- the decoder: sequence parameter set ----------

  datatype Chroma = Chroma(idc: int, separateColourPlane: bool, depthLumaMinus8: int, depthChromaMinus8: int)

  datatype PicOrder = Lsb(log2MaxMinus4: int) | Cycle(alwaysZero: bool, nonRef: int, topToBottom: int, length: int) | OutputOrder

  datatype Sps = Sps(
    profile: int,
    set0: bool,
    set1: bool,
    set2: bool,
    reserved: int,
    level: int,
    spsId: int,
    chroma: Option<Chroma>,
    log2MaxFrameNumMinus4: int,
    order: PicOrder,
    numRefFrames: int,
    gapsAllowed: bool,
    widthMbs: int,
    frameHeightMbs: int,
    frameMbsOnly: bool,
    mbAdaptive: bool,
    direct8x8: bool
  )

  const SPS_HEAD: seq<Syntax> := [U(8, 0), FLAG, FLAG, FLAG, U(5, 0), U(8, 0), UE]
  const CHROMA: seq<Syntax> := [UE, UE, FLAG, FLAG]
  const CYCLE: seq<Syntax> := [FLAG, SE, SE, UE]
  const SIZE: seq<Syntax> := [UE, FLAG, UE]

  /** Profiles whose parameter sets tell about chroma. */
  predicate High(profile: int) {
    profile in {100, 110, 122, 244, 44, 83, 86, 118, 128, 138, 139, 134, 135}
  }

  function ReadChroma(profile: int, bits: seq<bool>): Parsed<Option<Chroma>> {
    if !High(profile) then Done(None, bits)
    else
      var (idc, b1) :- ReadUe(bits);
      var (separate, b2) :- if idc == 3 then ReadFlag(b1) else Done(false, b1);
      var (v, rest) :- ReadVals(CHROMA, b2);
      if |v| != 4 || v[3] != 0 then Stuck else Done(Some(Chroma(idc, separate, v[0], v[1])), rest)
  }

  function ReadOrder(bits: seq<bool>): Parsed<PicOrder> {
    var (kind, b1) :- ReadUe(bits);
    if kind == 0 then
      var (v, rest) :- ReadUe(b1);
      Done(Lsb(v), rest)
    else if kind == 1 then
      var (v, rest) :- ReadVals(CYCLE, b1);
      if |v| != 4 || v[3] != 0 then Stuck else Done(Cycle(v[0] == 1, v[1], v[2], v[3]), rest)
    else if kind == 2 then Done(OutputOrder, b1)
    else Stuck
  }

  /** seq_parameter_set_data() without scaling matrices, offsets of a cycle, cropping and VUI. */
  function ReadSps(bits: seq<bool>): Parsed<Sps> {
    var (h, b1) :- ReadVals(SPS_HEAD, bits);
    if |h| != 7 then Stuck
    else
      var (chroma, b2) :- ReadChroma(h[0], b1);
      var (frameNum, b3) :- ReadUe(b2);
      var (order, b4) :- ReadOrder(b3);
      var (size, b5) :- ReadSize(b4);
      var (v, rest) :- ReadVals(Flags(3), b5);
      if |v| != 3 || v[1] != 0 || v[2] != 0 then Stuck
      else
        Done(Sps(h[0], h[1] == 1, h[2] == 1, h[3] == 1, h[4], h[5], h[6], chroma, frameNum, order, size.numRefFrames, size.gapsAllowed, size.widthMbs,
                 (if size.frameMbsOnly then 1 else 2) * (size.heightUnits), size.frameMbsOnly, size.mbAdaptive, v[0] == 1), rest)
  }

  /** `heightUnits` is PicHeightInMapUnits: field pairs count once. */
  datatype Size = Size(numRefFrames: int, gapsAllowed: bool, widthMbs: int, heightUnits: int, frameMbsOnly: bool, mbAdaptive: bool)

  /** From max_num_ref_frames to mb_adaptive_frame_field_flag. */
  function ReadSize(bits: seq<bool>): Parsed<Size> {
    var (v, b1) :- ReadVals(SIZE, bits);
    var (units, b2) :- ReadUe(b1);
    var (frameOnly, b3) :- ReadFlag(b2);
    var (adaptive, rest) :- if frameOnly then Done(false, b3) else ReadFlag(b3);
    if |v| != 3 then Stuck else Done(Size(v[0], v[1] == 1, v[2] + 1, units + 1, frameOnly, adaptive), rest)
  }

  // ---------- what the sequence parameter set should carry ----------

  function IntendedChroma(pp: PicParams, profile: nat): Option<Chroma> {
    if profile !in {100, 110, 122, 244, 44, 83, 86, 118, 128} then None
    else Some(Chroma(pp.chromaFormatIdc, pp.chromaFormatIdc == 3 && pp.residualColourTransform, pp.bitDepthLumaMinus8, pp.bitDepthChromaMinus8))
  }

  function IntendedOrder(pp: PicParams): PicOrder {
    if pp.pocType == 0 then Lsb(pp.log2MaxPocLsbMinus4)
    else if pp.pocType == 1 then Cycle(pp.deltaOrderAlwaysZero, 0, 0, 0)
    else OutputOrder
  }

  function IntendedSps(pp: PicParams, profile: nat): Sps {
    Sps(profile, profile == 66, profile == 66 || profile == 77, false, 0, LevelIdc(pp), 0, IntendedChroma(pp, profile), pp.log2MaxFrameNumMinus4,
        IntendedOrder(pp), pp.numRefFrames, pp.gapsAllowed, pp.widthMbsMinus1 + 1, pp.heightMbsMinus1 + 1, pp.frameMbsOnly,
        !pp.frameMbsOnly && pp.mbAdaptive, pp.direct8x8)
  }

  // ---------- what h264_write_sps writes ----------

  function HeadValues(pp: PicParams, profile: nat): seq<int> {
    [profile, Bit(profile == 66), Bit(profile == 66 || profile == 77), 0, 0, LevelIdc(pp), 0]
  }

  function ChromaValues(pp: PicParams): seq<int> {
    [pp.bitDepthLumaMinus8, pp.bitDepthChromaMinus8, 0, 0]
  }

  function ChromaCode(pp: PicParams, profile: nat): seq<bool> {
    if !SentHigh(profile) then []
    else
      UeCode(pp.chromaFormatIdc) + ((if pp.chromaFormatIdc == 3 then [pp.residualColourTransform] else []) + Print(CHROMA, ChromaValues(pp)))
  }

  function CycleValues(pp: PicParams): seq<int> {
    [Bit(pp.deltaOrderAlwaysZero), 0, 0, 0]
  }

  function OrderCode(pp: PicParams): seq<bool> {
    UeCode(pp.pocType)
    + (if pp.pocType == 0 then UeCode(pp.log2MaxPocLsbMinus4) else if pp.pocType == 1 then Print(CYCLE, CycleValues(pp)) else [])
  }

  /** pic_height_in_map_units_minus1; one macroblock row in field pairs wraps around. */
  function MapUnitsMinus1(pp: PicParams): (units: nat)
    ensures units < WORD
  {
    if pp.frameMbsOnly then pp.heightMbsMinus1
    else if pp.heightMbsMinus1 == 0 then WORD - 1
    else (pp.heightMbsMinus1 + 1) / 2 - 1
  }

  function SizeValues(pp: PicParams): seq<int> {
    [pp.numRefFrames, Bit(pp.gapsAllowed), pp.widthMbsMinus1]
  }

  function SizeCode(pp: PicParams): seq<bool> {
    Print(SIZE, SizeValues(pp)) + (UeCode32(MapUnitsMinus1(pp)) + ([pp.frameMbsOnly] + (if pp.frameMbsOnly then [] else [pp.mbAdaptive])))
  }

  function TailValues(pp: PicParams): seq<int> {
    [Bit(pp.direct8x8), 0, 0]
  }

  function SpsCode(pp: PicParams, profile: nat): seq<bool> {
    Print(SPS_HEAD, HeadValues(pp, profile)) + (ChromaCode(pp, profile) + (UeCode(pp.log2MaxFrameNumMinus4) + (OrderCode(pp)
    + (SizeCode(pp) + Print(Flags(3), TailValues(pp))))))
  }

  // ---------- round trip ----------

  lemma SpsFitsElements(pp: PicParams, profile: nat)
    requires profile < 256
    ensures Fit(SPS_HEAD, HeadValues(pp, profile)) && Fit(CHROMA, ChromaValues(pp)) && Fit(CYCLE, CycleValues(pp)) && Fit(SIZE, SizeValues(pp))
    ensures Fit(Flags(3), TailValues(pp))
  {
    hide LevelFrom, Pow2;
    SmallPowers();
  }

  lemma ChromaRoundTrip(pp: PicParams, profile: nat, rest: seq<bool>)
    requires Fit(CHROMA, ChromaValues(pp)) && (SentHigh(profile) <==> High(profile))
    ensures ReadChroma(profile, ChromaCode(pp, profile) + rest) == Done(IntendedChroma(pp, profile), rest)
  {
    hide ReadVals, Print, Fit, UeCode, ReadUe, High;
    if SentHigh(profile) {
      var b2 := Print(CHROMA, ChromaValues(pp)) + rest;
      var b1 := (if pp.chromaFormatIdc == 3 then [pp.residualColourTransform] else []) + b2;
      assert ChromaCode(pp, profile) + rest == UeCode(pp.chromaFormatIdc) + b1;
      ReadUeOfUeCode(pp.chromaFormatIdc, b1);
      if pp.chromaFormatIdc == 3 {
        ReadFlagOf(pp.residualColourTransform, b2);
      } else {
        assert b1 == b2;
      }
      ReadPrinted(CHROMA, ChromaValues(pp), rest);
    } else {
      assert [] + rest == rest;
    }
  }

  lemma OrderRoundTrip(pp: PicParams, rest: seq<bool>)
    requires pp.pocType <= 2 && Fit(CYCLE, CycleValues(pp))
    ensures ReadOrder(OrderCode(pp) + rest) == Done(IntendedOrder(pp), rest)
  {
    hide ReadVals, Print, Fit, UeCode, ReadUe;
    var b1 := (if pp.pocType == 0 then UeCode(pp.log2MaxPocLsbMinus4) else if pp.pocType == 1 then Print(CYCLE, CycleValues(pp)) else []) + rest;
    assert OrderCode(pp) + rest == UeCode(pp.pocType) + b1;
    ReadUeOfUeCode(pp.pocType, b1);
    if pp.pocType == 0 {
      ReadUeOfUeCode(pp.log2MaxPocLsbMinus4, rest);
    } else if pp.pocType == 1 {
      ReadPrinted(CYCLE, CycleValues(pp), rest);
    } else {
      assert b1 == rest;
    }
  }

  lemma FourPieces(a: seq<bool>, b: seq<bool>, c: seq<bool>, d: seq<bool>, rest: seq<bool>)
    ensures a + (b + (c + d)) + rest == a + (b + (c + (d + rest)))
  {
  }

  lemma SizeRoundTrip(pp: PicParams, rest: seq<bool>)
    requires (pp.frameMbsOnly || pp.heightMbsMinus1 > 0) && Fit(SIZE, SizeValues(pp))
    ensures ReadSize(SizeCode(pp) + rest) ==
            Done(Size(pp.numRefFrames, pp.gapsAllowed, pp.WidthMbs(), MapUnitsMinus1(pp) + 1, pp.frameMbsOnly, !pp.frameMbsOnly && pp.mbAdaptive), rest)
  {
    hide ReadVals, Print, Fit, UeCode, ReadUe, MapUnitsMinus1;
    var b3 := (if pp.frameMbsOnly then [] else [pp.mbAdaptive]) + rest;
    var b2 := [pp.frameMbsOnly] + b3;
    var b1 := UeCode32(MapUnitsMinus1(pp)) + b2;
    FourPieces(Print(SIZE, SizeValues(pp)), UeCode32(MapUnitsMinus1(pp)), [pp.frameMbsOnly], if pp.frameMbsOnly then [] else [pp.mbAdaptive], rest);
    ReadPrinted(SIZE, SizeValues(pp), b1);
    UnitsSmall(pp);
    ReadUeOfUeCode(MapUnitsMinus1(pp), b2);
    ReadFlagOf(pp.frameMbsOnly, b3);
    if pp.frameMbsOnly {
      assert b3 == rest;
    } else {
      ReadFlagOf(pp.mbAdaptive, rest);
    }
    BitIsOne();
  }

  lemma UnitsSmall(pp: PicParams)
    requires pp.frameMbsOnly || pp.heightMbsMinus1 > 0
    ensures MapUnitsMinus1(pp) < WORD - 1
  {
  }

  /** A wrapped number of map units reads as at least four of them. */
  lemma WrappedSize(pp: PicParams, rest: seq<bool>)
    requires !pp.frameMbsOnly && pp.heightMbsMinus1 == 0 && Fit(SIZE, SizeValues(pp))
    ensures var r := ReadSize(SizeCode(pp) + rest); r.Done? ==> r.value.heightUnits >= 4
  {
    hide ReadVals, Print, Fit;
    var b2 := [false] + ([pp.mbAdaptive] + rest);
    var b1 := [false] + b2;
    FourPieces(Print(SIZE, SizeValues(pp)), [false], [false], [pp.mbAdaptive], rest);
    ReadPrinted(SIZE, SizeValues(pp), b1);
    assert b1 == [false, false] + ([pp.mbAdaptive] + rest);
    TwoZeros(b1);
  }

  lemma TwoZeros(bits: seq<bool>)
    requires |bits| >= 2 && !bits[0] && !bits[1]
    ensures ReadUe(bits).Done? ==> ReadUe(bits).value >= 3
  {
    hide Value;
    var z := LeadingZeros(bits);
    assert z >= 2 by {
      assert z < |bits| ==> bits[z];
    }
    Pow2Monotone(2, z);
    assert Pow2(2) == 4;
  }

  /** Up to the picture order count. */
  lemma SpsStart(pp: PicParams, profile: nat, rest: seq<bool>)
    returns (b4: seq<bool>, b3: seq<bool>)
    requires profile < 256 && (SentHigh(profile) <==> High(profile))
    ensures b4 == SizeCode(pp) + (Print(Flags(3), TailValues(pp)) + rest) && b3 == OrderCode(pp) + b4
    ensures ReadSps(SpsCode(pp, profile) + rest) ==
              (var (order, b4) :- ReadOrder(b3);
               var (size, b5) :- ReadSize(b4);
               var (v, rest) :- ReadVals(Flags(3), b5);
               if |v| != 3 || v[1] != 0 || v[2] != 0 then Stuck
               else
                 Done(Sps(profile, profile == 66, profile == 66 || profile == 77, false, 0, LevelIdc(pp), 0, IntendedChroma(pp, profile), pp.log2MaxFrameNumMinus4,
                          order, size.numRefFrames, size.gapsAllowed, size.widthMbs, (if size.frameMbsOnly then 1 else 2) * size.heightUnits,
                          size.frameMbsOnly, size.mbAdaptive, v[0] == 1), rest))
  {
    hide ReadVals, Print, Fit, UeCode, ReadUe, SizeCode, OrderCode, ChromaCode, LevelFrom, ReadChroma, ReadOrder, ReadSize, IntendedChroma, SentHigh, High;
    b4 := SizeCode(pp) + (Print(Flags(3), TailValues(pp)) + rest);
    b3 := OrderCode(pp) + b4;
    var b2 := UeCode(pp.log2MaxFrameNumMinus4) + b3;
    var b1 := ChromaCode(pp, profile) + b2;
    assert SpsCode(pp, profile) + rest == Print(SPS_HEAD, HeadValues(pp, profile)) + b1;
    SpsFitsElements(pp, profile);
    ReadPrinted(SPS_HEAD, HeadValues(pp, profile), b1);
    ChromaRoundTrip(pp, profile, b2);
    ReadUeOfUeCode(pp.log2MaxFrameNumMinus4, b3);
    BitIsOne();
  }

  /**
   A decoder reads the application's sequence back if and only if the profile is none of those that
   only the standard takes for high ones, the picture order count has a type that exists, and the
   macroblock rows of a sequence with field pictures come in pairs.
   */
  lemma SpsRoundTrip(pp: PicParams, profile: nat, rest: seq<bool>)
    requires profile < 256
    ensures ReadSps(SpsCode(pp, profile) + rest) == Done(IntendedSps(pp, profile), rest) <==>
            profile !in {138, 139, 134, 135} && pp.pocType <= 2 && (pp.frameMbsOnly || pp.heightMbsMinus1 % 2 == 1)
  {
    hide ReadVals, Print, Fit, SizeCode, OrderCode, LevelFrom, ReadOrder, ReadSize, IntendedOrder, ReadSps, SpsCode, MapUnitsMinus1, SentHigh, High;
    OtherHighProfiles(profile);
    if SentHigh(profile) <==> High(profile) {
      KnownSpsRoundTrip(pp, profile, rest);
    } else {
      HighTellsChroma(SpsCode(pp, profile) + rest);
      SentHighIsHigh(profile);
    }
  }

  lemma OtherHighProfiles(profile: nat)
    ensures (SentHigh(profile) <==> High(profile)) <==> profile !in {138, 139, 134, 135}
  {
  }

  lemma SentHighIsHigh(profile: nat)
    ensures SentHigh(profile) ==> High(profile)
  {
  }

  lemma HighTellsChroma(bits: seq<bool>)
    ensures ReadSps(bits).Done? && High(ReadSps(bits).value.profile) ==> ReadSps(bits).value.chroma.Some?
  {
    hide ReadVals, ReadUe, ReadOrder, ReadSize, High;
  }

  lemma KnownSpsRoundTrip(pp: PicParams, profile: nat, rest: seq<bool>)
    requires profile < 256 && (SentHigh(profile) <==> High(profile))
    ensures ReadSps(SpsCode(pp, profile) + rest) == Done(IntendedSps(pp, profile), rest) <==>
            pp.pocType <= 2 && (pp.frameMbsOnly || pp.HeightMbs() % 2 == 0)
  {
    hide ReadVals, Print, Fit, SizeCode, OrderCode, LevelFrom, ReadOrder, ReadSize, IntendedChroma, IntendedOrder, ReadSps, SpsCode, MapUnitsMinus1,
      SentHigh, High;
    SpsFitsElements(pp, profile);
    var b4, b3 := SpsStart(pp, profile, rest);
    if pp.pocType > 2 {
      NoSuchOrder(pp, b4);
    } else {
      OrderRoundTrip(pp, b4);
      if pp.frameMbsOnly || pp.heightMbsMinus1 > 0 {
        SizeRoundTrip(pp, Print(Flags(3), TailValues(pp)) + rest);
        ReadPrinted(Flags(3), TailValues(pp), rest);
        BitIsOne();
        RowsPaired(pp);
      } else {
        WrappedSize(pp, Print(Flags(3), TailValues(pp)) + rest);
      }
    }
  }

  lemma NoSuchOrder(pp: PicParams, rest: seq<bool>)
    requires pp.pocType > 2
    ensures ReadOrder(OrderCode(pp) + rest).Stuck?
  {
    hide UeCode, ReadUe;
    assert OrderCode(pp) + rest == UeCode(pp.pocType) + rest;
    ReadUeOfUeCode(pp.pocType, rest);
  }

  lemma RowsPaired(pp: PicParams)
    requires pp.frameMbsOnly || pp.heightMbsMinus1 > 0
    ensures (if pp.frameMbsOnly then 1 else 2) * (MapUnitsMinus1(pp) + 1) == pp.HeightMbs() <==> pp.frameMbsOnly || pp.HeightMbs() % 2 == 0
  {
  }

  // ---------- the decoder: picture parameter set ----------

  datatype Pps = Pps(
    ppsId: int,
    spsId: int,
    entropyCoding: bool,
    picOrderPresent: bool,
    l0Minus1: int,
    l1Minus1: int,
    weightedPred: bool,
    weightedBipredIdc: int,
    initQpMinus26: int,
    initQsMinus26: int,
    chromaQpOffset: int,
    deblockingControl: bool,
    constrainedIntra: bool,
    redundantPicCnt: bool,
    extension: Extension
  )

  /** Where it is not sent, it is inferred: no 8x8 transform, flat lists, one chroma offset. */
  datatype Extension = Extension(sent: bool, transform8x8: bool, lists: Option<seq<Option<seq<Entry>>>>, secondChromaQpOffset: int)

  /** more_rbsp_data(): something other than the trailing bits is left. */
  predicate MoreData(bits: seq<bool>) {
    !(|bits| > 0 && bits[0] && forall i :: 1 <= i < |bits| ==> !bits[i])
  }

  /** Lists in raster order; one that is not present falls back on another. */
  function ReadLists(n: nat, scan: Scan, bits: seq<bool>): Parsed<seq<Option<seq<Entry>>>> {
    if n == 0 then Done([], bits)
    else
      var (present, b1) :- ReadFlag(bits);
      var (list, b2) :- if present then ReadList264(scan.Size(), 8, 8, b1) else Done([], b1);
      var (others, rest) :- ReadLists(n - 1, scan, b2);
      if present && !IsMatrix(list, scan) then Stuck else Done([if present then Some(Placed(list, scan)) else None] + others, rest)
  }

  /** `chroma444` comes from the sequence parameter set: such pictures have six 8x8 lists. */
  function ReadExtension(chroma444: bool, chromaQpOffset: int, bits: seq<bool>): Parsed<Extension> {
    if !MoreData(bits) then Done(Extension(false, false, None, chromaQpOffset), bits)
    else
      var (transform, b1) :- ReadFlag(bits);
      var (present, b2) :- ReadFlag(b1);
      var (small, b3) :- if present then ReadLists(6, Frame4, b2) else Done([], b2);
      var (large, b4) :- if present && transform then ReadLists(if chroma444 then 6 else 2, Frame8, b3) else Done([], b3);
      var (second, rest) :- ReadSe(b4);
      Done(Extension(true, transform, if present then Some(small + large) else None, second), rest)
  }

  const PPS_HEAD: seq<Syntax> := [UE, UE, FLAG, FLAG, UE, UE, UE, FLAG, U(2, 0), SE, SE, SE, FLAG, FLAG, FLAG]

  /** pic_parameter_set_rbsp() for one slice group. */
  function ReadPps(chroma444: bool, bits: seq<bool>): Parsed<Pps> {
    var (h, b1) :- ReadVals(PPS_HEAD, bits);
    if |h| != 15 || h[4] != 0 then Stuck
    else
      var (extension, rest) :- ReadExtension(chroma444, h[11], b1);
      Done(PpsOf(h, extension), rest)
  }

  function PpsOf(h: seq<int>, extension: Extension): Pps
    requires |h| == 15
  {
    Pps(h[0], h[1], h[2] == 1, h[3] == 1, h[5], h[6], h[7] == 1, h[8], h[9], h[10], h[11], h[12] == 1, h[13] == 1, h[14] == 1, extension)
  }

  // ---------- what the picture parameter set should carry, and what h264_write_pps writes ----------

  function Given(lists: seq<seq<Entry>>): (r: seq<Option<seq<Entry>>>)
    ensures |r| == |lists|
  {
    seq(|lists|, i requires 0 <= i < |lists| => Some(lists[i]))
  }

  function IntendedExtension(pp: PicParams, iq: Option<IqMatrix>): Extension {
    Extension(iq.Some? || pp.transform8x8 || pp.secondChromaQpOffset != pp.chromaQpOffset, pp.transform8x8,
              if iq.None? then None else Some(Given(iq.value.list4x4) + (if pp.transform8x8 then Given(iq.value.list8x8) else [])),
              pp.secondChromaQpOffset)
  }

  /** `l0` and `l1` are the reference counts of the first slice. */
  function IntendedPps(pp: PicParams, iq: Option<IqMatrix>, l0: Count, l1: Count): Pps {
    Pps(0, 0, pp.entropyCoding, pp.picOrderPresent, l0, l1, pp.weightedPred, pp.weightedBipredIdc, pp.initQpMinus26, pp.initQsMinus26,
        pp.chromaQpOffset, pp.deblockingControl, pp.constrainedIntra, pp.redundantPicCnt, IntendedExtension(pp, iq))
  }

  function PpsHeadValues(pp: PicParams, l0: Count, l1: Count): (r: seq<int>)
    ensures |r| == 15
  {
    [0, 0, Bit(pp.entropyCoding), Bit(pp.picOrderPresent), 0, l0, l1, Bit(pp.weightedPred), pp.weightedBipredIdc, pp.initQpMinus26,
     pp.initQsMinus26, pp.chromaQpOffset, Bit(pp.deblockingControl), Bit(pp.constrainedIntra), Bit(pp.redundantPicCnt)]
  }

  predicate Extended(pp: PicParams, iq: Option<IqMatrix>) {
    iq.Some? || pp.transform8x8 || pp.secondChromaQpOffset != pp.chromaQpOffset
  }

  predicate Sized(lists: seq<seq<Entry>>, scan: Scan) {
    forall i :: 0 <= i < |lists| ==> IsMatrix(lists[i], scan)
  }

  /** The lists an application gave can only be coded without zero entries. */
  predicate NoZero(lists: seq<seq<Entry>>) {
    forall i :: 0 <= i < |lists| ==> forall k :: 0 <= k < |lists[i]| ==> lists[i][k] != 0
  }

  function ListsCode(lists: seq<seq<Entry>>, scan: Scan): seq<bool>
    requires Sized(lists, scan)
  {
    if |lists| == 0 then [] else [true] + (CoefCode(Scanned(lists[0], scan), 8) + ListsCode(lists[1..], scan))
  }

  function AllListsCode(iq: IqMatrix, transform8x8: bool): seq<bool>
    requires iq.Valid()
  {
    ListsCode(iq.list4x4, Frame4) + (if transform8x8 then ListsCode(iq.list8x8, Frame8) else [])
  }

  predicate ValidIq(iq: Option<IqMatrix>) {
    iq.Some? ==> iq.value.Valid()
  }

  function ExtensionCode(pp: PicParams, iq: Option<IqMatrix>): seq<bool>
    requires ValidIq(iq)
  {
    if !Extended(pp, iq) then []
    else
      [pp.transform8x8] + ([iq.Some?] + ((if iq.Some? then AllListsCode(iq.value, pp.transform8x8) else [])
      + Code(Se(pp.secondChromaQpOffset))))
  }

  function PpsCode(pp: PicParams, iq: Option<IqMatrix>, l0: Count, l1: Count): seq<bool>
    requires ValidIq(iq)
  {
    Print(PPS_HEAD, PpsHeadValues(pp, l0, l1)) + ExtensionCode(pp, iq)
  }

  predicate Printable(pp: PicParams, iq: Option<IqMatrix>) {
    iq.Some? ==> NoZero(iq.value.list4x4) && (pp.transform8x8 ==> NoZero(iq.value.list8x8))
  }

  // ---------- round trip ----------

  lemma {:induction false} ListsRoundTrip(lists: seq<seq<Entry>>, scan: Scan, rest: seq<bool>)
    requires Sized(lists, scan) && NoZero(lists)
    ensures ReadLists(|lists|, scan, ListsCode(lists, scan) + rest) == Done(Given(lists), rest)
  {
    hide ReadList264, CoefCode, Scanned, Placed, Scan.Size, Scan.Pos, Scan.At;
    if |lists| > 0 {
      var b2 := ListsCode(lists[1..], scan) + rest;
      var b1 := CoefCode(Scanned(lists[0], scan), 8) + b2;
      assert ListsCode(lists, scan) + rest == [true] + b1;
      ReadFlagOf(true, b1);
      ScalingList264RoundTrip(lists[0], scan, b2);
      ListsRoundTrip(lists[1..], scan, rest);
      assert Given(lists) == [Some(lists[0])] + Given(lists[1..]);
    } else {
      assert ListsCode(lists, scan) + rest == rest;
    }
  }

  /** A decoder returns as many lists as it looks for. */
  lemma {:induction false} ListCount(n: nat, scan: Scan, bits: seq<bool>)
    requires ReadLists(n, scan, bits).Done?
    ensures |ReadLists(n, scan, bits).value| == n
  {
    hide ReadList264, Placed;
    if n > 0 {
      var b1 := bits[1..];
      ListCount(n - 1, scan, if bits[0] then ReadList264(scan.Size(), 8, 8, b1).rest else b1);
    }
  }

  lemma TrailingIsNoData(n: nat)
    ensures !MoreData(Trailing(n))
  {
  }

  lemma TrailingBehindData(code: seq<bool>, n: nat)
    requires |code| > 0
    ensures MoreData(code + Trailing(n))
  {
    assert (code + Trailing(n))[|code|];
  }

  /** Behind the flags of the extension. */
  lemma ExtensionPieces(chroma444: bool, pp: PicParams, iq: Option<IqMatrix>, b3: seq<bool>)
    requires ValidIq(iq) && Extended(pp, iq) && MoreData([pp.transform8x8] + ([iq.Some?] + b3))
    ensures ReadExtension(chroma444, pp.chromaQpOffset, [pp.transform8x8] + ([iq.Some?] + b3)) ==
              (var (small, b4) :- if iq.Some? then ReadLists(6, Frame4, b3) else Done([], b3);
               var (large, b5) :- if iq.Some? && pp.transform8x8 then ReadLists(if chroma444 then 6 else 2, Frame8, b4) else Done([], b4);
               var (second, rest) :- ReadSe(b5);
               Done(Extension(true, pp.transform8x8, if iq.Some? then Some(small + large) else None, second), rest))
  {
    hide ReadLists, ReadSe, MoreData;
    ReadFlagOf(pp.transform8x8, [iq.Some?] + b3);
    ReadFlagOf(iq.Some?, b3);
  }

  /**
   A decoder that looks for six 8x8 lists, because the sequence is 4:4:4, does not find them: the
   application has only two.  In every other case it gets all of them.
   */
  lemma ExtensionRoundTrip(chroma444: bool, pp: PicParams, iq: Option<IqMatrix>, n: nat)
    requires ValidIq(iq) && Printable(pp, iq)
    ensures ReadExtension(chroma444, pp.chromaQpOffset, ExtensionCode(pp, iq) + Trailing(n)) == Done(IntendedExtension(pp, iq), Trailing(n))
            <==> !(chroma444 && iq.Some? && pp.transform8x8)
  {
    hide ReadLists, ReadSe, MoreData, UeCode, ListsCode, Trailing, Given;
    if !Extended(pp, iq) {
      assert ExtensionCode(pp, iq) + Trailing(n) == Trailing(n);
      TrailingIsNoData(n);
    } else {
      var second := Code(Se(pp.secondChromaQpOffset)) + Trailing(n);
      var b3 := (if iq.Some? then AllListsCode(iq.value, pp.transform8x8) else []) + second;
      assert ExtensionCode(pp, iq) + Trailing(n) == [pp.transform8x8] + ([iq.Some?] + b3);
      TrailingBehindData(ExtensionCode(pp, iq), n);
      ExtensionPieces(chroma444, pp, iq, b3);
      ReadSeOfSeCode(pp.secondChromaQpOffset, Trailing(n));
      if iq.Some? {
        ListsFound(chroma444, pp, iq.value, b3, second);
      } else {
        assert b3 == second;
      }
    }
  }

  lemma ListsFound(chroma444: bool, pp: PicParams, iq: IqMatrix, b3: seq<bool>, second: seq<bool>)
    requires iq.Valid() && Printable(pp, Some(iq)) && b3 == AllListsCode(iq, pp.transform8x8) + second
    requires ReadSe(second).Done? && ReadSe(second).value == pp.secondChromaQpOffset
    ensures var r := (var (small, b4) :- ReadLists(6, Frame4, b3);
                      var (large, b5) :- if pp.transform8x8 then ReadLists(if chroma444 then 6 else 2, Frame8, b4) else Done([], b4);
                      var (last, rest) :- ReadSe(b5);
                      Done(Extension(true, pp.transform8x8, Some(small + large), last), rest));
            r == Done(IntendedExtension(pp, Some(iq)), ReadSe(second).rest) <==> !(chroma444 && pp.transform8x8)
  {
    hide ReadLists, ReadSe, ListsCode, Given;
    var b4 := (if pp.transform8x8 then ListsCode(iq.list8x8, Frame8) else []) + second;
    assert b3 == ListsCode(iq.list4x4, Frame4) + b4;
    ListsRoundTrip(iq.list4x4, Frame4, b4);
    if !pp.transform8x8 {
      assert b4 == second;
    } else if !chroma444 {
      ListsRoundTrip(iq.list8x8, Frame8, second);
    } else if ReadLists(6, Frame8, b4).Done? {
      ListCount(6, Frame8, b4);
      assert |Given(iq.list4x4) + ReadLists(6, Frame8, b4).value| == 12;
    }
  }

  lemma PpsHeadFits(pp: PicParams, l0: Count, l1: Count)
    requires pp.WellFormed()
    ensures Fit(PPS_HEAD, PpsHeadValues(pp, l0, l1))
  {
    hide Pow2;
    SmallPowers();
  }

  /**
   A decoder reads the application's picture back, the extension sent or inferred, if and only if no
   list that is sent has a zero entry, and it does not look for the six 8x8 lists of a 4:4:4 sequence
   where two were given.
   */
  lemma PpsRoundTrip(chroma444: bool, pp: PicParams, iq: Option<IqMatrix>, l0: Count, l1: Count, n: nat)
    requires pp.WellFormed() && ValidIq(iq)
    ensures ReadPps(chroma444, PpsCode(pp, iq, l0, l1) + Trailing(n)) == Done(IntendedPps(pp, iq, l0, l1), Trailing(n))
            <==> Printable(pp, iq) && !(chroma444 && iq.Some? && pp.transform8x8)
  {
    hide ReadExtension, ExtensionCode, IntendedExtension, Trailing, Printable, ReadPps, PpsCode;
    var b1 := ExtensionCode(pp, iq) + Trailing(n);
    PpsPieces(chroma444, pp, iq, l0, l1, n);
    if Printable(pp, iq) {
      ExtensionRoundTrip(chroma444, pp, iq, n);
    } else {
      ZeroIsNeverRead(chroma444, pp, iq, b1);
    }
  }

  /** Up to the extension. */
  lemma PpsPieces(chroma444: bool, pp: PicParams, iq: Option<IqMatrix>, l0: Count, l1: Count, n: nat)
    requires pp.WellFormed() && ValidIq(iq)
    ensures var r := ReadExtension(chroma444, pp.chromaQpOffset, ExtensionCode(pp, iq) + Trailing(n));
            ReadPps(chroma444, PpsCode(pp, iq, l0, l1) + Trailing(n)) ==
              if r.Stuck? then Stuck else Done(IntendedPps(pp, iq, l0, l1).(extension := r.value), r.rest)
  {
    hide ReadVals, Print, Fit, ReadExtension, ExtensionCode, IntendedExtension, Trailing;
    var b1 := ExtensionCode(pp, iq) + Trailing(n);
    assert PpsCode(pp, iq, l0, l1) + Trailing(n) == Print(PPS_HEAD, PpsHeadValues(pp, l0, l1)) + b1;
    PpsHeadFits(pp, l0, l1);
    ReadPrinted(PPS_HEAD, PpsHeadValues(pp, l0, l1), b1);
  }

  predicate NoZeroRead(lists: seq<Option<seq<Entry>>>) {
    forall i, k :: 0 <= i < |lists| && lists[i].Some? && 0 <= k < |lists[i].value| ==> lists[i].value[k] != 0
  }

  lemma {:induction false} ListHasNoZero(n: nat, last: Entry, next: Entry, bits: seq<bool>)
    requires last != 0 && ReadList264(n, last, next, bits).Done?
    ensures forall k :: 0 <= k < |ReadList264(n, last, next, bits).value| ==> ReadList264(n, last, next, bits).value[k] != 0
  {
    hide ReadSe;
    if n > 0 {
      if next == 0 {
        ListHasNoZero(n - 1, last, 0, bits);
      } else {
        var delta := ReadSe(bits).value;
        var value: Entry := (last + delta + 256) % 256;
        ListHasNoZero(n - 1, if value == 0 then last else value, value, ReadSe(bits).rest);
      }
    }
  }

  lemma PlacedHasNoZero(list: seq<Entry>, scan: Scan)
    requires IsMatrix(list, scan) && forall k :: 0 <= k < |list| ==> list[k] != 0
    ensures forall k :: 0 <= k < |list| ==> Placed(list, scan)[k] != 0
  {
    hide Scan.At, Scan.Pos;
    forall k | 0 <= k < |list|
      ensures Placed(list, scan)[k] != 0
    {
      ScanIsBijection(scan, k);
    }
  }

  lemma {:induction false} ListsHaveNoZero(n: nat, scan: Scan, bits: seq<bool>)
    requires ReadLists(n, scan, bits).Done?
    ensures NoZeroRead(ReadLists(n, scan, bits).value)
  {
    hide ReadList264, Placed, Scan.Size, Scan.Pos, Scan.At;
    if n > 0 {
      var b1 := bits[1..];
      var b2 := if bits[0] then ReadList264(scan.Size(), 8, 8, b1).rest else b1;
      ListsHaveNoZero(n - 1, scan, b2);
      if bits[0] {
        ListHasNoZero(scan.Size(), 8, 8, b1);
        PlacedHasNoZero(ReadList264(scan.Size(), 8, 8, b1).value, scan);
      }
    }
  }

  lemma ExtensionHasNoZero(chroma444: bool, offset: int, bits: seq<bool>)
    requires ReadExtension(chroma444, offset, bits).Done? && ReadExtension(chroma444, offset, bits).value.lists.Some?
    ensures NoZeroRead(ReadExtension(chroma444, offset, bits).value.lists.value)
  {
    hide ReadLists, ReadSe, MoreData, NoZeroRead;
    var b2 := bits[2..];
    assert bits[1..][1..] == b2;
    ListsHaveNoZero(6, Frame4, b2);
    var b3 := ReadLists(6, Frame4, b2).rest;
    var large := if bits[0] then ReadLists(if chroma444 then 6 else 2, Frame8, b3) else Done([], b3);
    if bits[0] {
      ListsHaveNoZero(if chroma444 then 6 else 2, Frame8, b3);
    }
    NoZeroBoth(ReadLists(6, Frame4, b2).value, large.value);
  }

  lemma NoZeroBoth(a: seq<Option<seq<Entry>>>, b: seq<Option<seq<Entry>>>)
    requires NoZeroRead(a) && (b == [] || NoZeroRead(b))
    ensures NoZeroRead(a + b)
  {
  }

  lemma ZeroGiven(pp: PicParams, iq: Option<IqMatrix>)
    requires ValidIq(iq) && !Printable(pp, iq)
    ensures var lists := IntendedExtension(pp, iq).lists; lists.Some? && !NoZeroRead(lists.value)
  {
    var lists := IntendedExtension(pp, iq).lists.value;
    var small, large := iq.value.list4x4, iq.value.list8x8;
    if NoZero(small) {
      var i, k :| 0 <= i < |large| && 0 <= k < |large[i]| && large[i][k] == 0;
      assert lists[6 + i] == Some(large[i]) && lists[6 + i].value[k] == 0;
    } else {
      var i, k :| 0 <= i < |small| && 0 <= k < |small[i]| && small[i][k] == 0;
      assert lists[i] == Some(small[i]) && lists[i].value[k] == 0;
    }
  }

  /** The fall-back rule of the decoder puts something else where an entry is 0. */
  lemma ZeroIsNeverRead(chroma444: bool, pp: PicParams, iq: Option<IqMatrix>, bits: seq<bool>)
    requires ValidIq(iq) && !Printable(pp, iq)
    ensures var r := ReadExtension(chroma444, pp.chromaQpOffset, bits); r.Done? ==> r.value != IntendedExtension(pp, iq)
  {
    hide ReadExtension, IntendedExtension, NoZeroRead, Printable;
    ZeroGiven(pp, iq);
    var r := ReadExtension(chroma444, pp.chromaQpOffset, bits);
    if r.Done? && r.value.lists.Some? {
      ExtensionHasNoZero(chroma444, pp.chromaQpOffset, bits);
    }
  }

  // ---------- the raw buffers are large enough ----------

  function SpsText(pp: PicParams, profile: nat): seq<bool> {
    Print([U(8, 0)], [0x67]) + SpsCode(pp, profile)
  }

  function PpsText(pp: PicParams, iq: Option<IqMatrix>, l0: Count, l1: Count): seq<bool>
    requires ValidIq(iq)
  {
    Print([U(8, 0)], [0x68]) + PpsCode(pp, iq, l0, l1)
  }

  /** The header byte. */
  lemma HeaderByte(v: nat)
    requires v < 256
    ensures Fit([U(8, 0)], [v]) && |Print([U(8, 0)], [v])| == 8
  {
    SmallPowers();
    assert Fill([U(8, 0)], [v]) == [U(8, v)];
    EncodeOne(U(8, v));
    UnsignedLength(8, v);
  }

  lemma ReadHeaderByte(v: nat, rest: seq<bool>)
    requires v < 256
    ensures ReadU(8, Print([U(8, 0)], [v]) + rest) == Done(v, rest)
  {
    hide UBits, ReadU;
    SmallPowers();
    assert Fill([U(8, 0)], [v]) == [U(8, v)];
    EncodeOne(U(8, v));
    ReadUOfUBits(v, 8, rest);
  }

  lemma ShortCode(v: nat)
    requires v < WORD
    ensures |UeCode32(v)| <= 63 && (v < WORD - 1 ==> |UeCode(v)| <= 63)
  {
    hide UeCode;
    if v < WORD - 1 {
      CodeLength(Ue(v));
    }
  }

  /** No bit of a sequence parameter set is dropped, and 2048 bytes always hold the unit. */
  lemma SpsFits(pp: PicParams, profile: nat)
    requires profile < 256
    ensures |SpsText(pp, profile)| + 8 <= 8 * SPS_CAPACITY && 4 + 2 * |Raw(SpsText(pp, profile))| <= 2048
  {
    hide Print, Fit, UeCode, UeCode32, LevelFrom, Raw, MapUnitsMinus1, SentHigh;
    SpsFitsElements(pp, profile);
    HeaderByte(0x67);
    PrintLength(SPS_HEAD, HeadValues(pp, profile));
    PrintLength(CHROMA, ChromaValues(pp));
    PrintLength(CYCLE, CycleValues(pp));
    PrintLength(SIZE, SizeValues(pp));
    PrintLength(Flags(3), TailValues(pp));
    ShortCode(pp.chromaFormatIdc);
    ShortCode(pp.log2MaxFrameNumMinus4);
    ShortCode(pp.pocType);
    ShortCode(pp.log2MaxPocLsbMinus4);
    ShortCode(MapUnitsMinus1(pp));
    RawLength(SpsText(pp, profile), 512);
  }

  lemma {:induction false} CoefLength(list: seq<Entry>, last: Entry)
    ensures |CoefCode(list, last)| <= 17 * |list|
  {
    hide Code, Wrapped;
    if |list| > 0 {
      DeltaLength(Wrapped(list[0], last));
      CoefLength(list[1..], list[0]);
    }
  }

  lemma DeltaLength(delta: int)
    requires -128 <= delta <= 127
    ensures |Code(Se(delta))| <= 17
  {
    hide UeCode;
    assert Pow2(8) == 256 && Pow2(9) == 512 by { Pow2Values(); }
    UeCodeLength(UnsignedOf(delta), 9);
  }

  lemma {:induction false} ListsLength(lists: seq<seq<Entry>>, scan: Scan)
    requires Sized(lists, scan)
    ensures |ListsCode(lists, scan)| <= if scan.Size() == 16 then 273 * |lists| else 1089 * |lists|
  {
    hide CoefCode, Scanned;
    if |lists| > 0 {
      CoefLength(Scanned(lists[0], scan), 8);
      ListsLength(lists[1..], scan);
    }
  }

  lemma PpsFits(pp: PicParams, iq: Option<IqMatrix>, l0: Count, l1: Count)
    requires pp.WellFormed() && ValidIq(iq)
    ensures |PpsText(pp, iq, l0, l1)| + 8 <= 8 * 640 <= 8 * PPS_CAPACITY && 4 + 2 * |Raw(PpsText(pp, iq, l0, l1))| <= 2048
  {
    hide Print, Fit, Code, ListsCode, Raw;
    HeaderByte(0x68);
    PpsHeadFits(pp, l0, l1);
    PrintLength(PPS_HEAD, PpsHeadValues(pp, l0, l1));
    CodeLength(Se(pp.secondChromaQpOffset));
    if iq.Some? {
      ListsLength(iq.value.list4x4, Frame4);
      ListsLength(iq.value.list8x8, Frame8);
    }
    RawLength(PpsText(pp, iq, l0, l1), 640);
  }

  // ---------- the writers ----------

  /** h264_write_sps. */
  method WriteSps(buf: array<byte>, bufSize: nat, pp: PicParams, profile: nat) returns (used: int)
    requires bufSize <= buf.Length && profile < 256
    modifies buf
    ensures var text := SpsText(pp, profile);
            if 4 + 2 * |Raw(text)| <= bufSize then 0 < used <= bufSize && buf[..used] == [0, 0, 0, 1] + NalOf(text).nal else used == -1
  {
    hide BSWriter.Valid, Print, Fit, ChromaCode, OrderCode, SizeCode, UeCode, LevelFrom, NalOf, Raw;
    var raw := new byte[SPS_CAPACITY];
    var bs := new BSWriter(raw);
    SpsFitsElements(pp, profile);
    HeaderByte(0x67);
    WriteGroup(bs, [U(8, 0)], [0x67]);
    var level := DeriveLevelIdc(pp);
    WriteGroup(bs, SPS_HEAD, [profile, Bit(profile == 66), Bit(profile == 66 || profile == 77), 0, 0, level, 0]);
    WriteChroma(bs, pp, profile);
    bs.WriteUe(pp.log2MaxFrameNumMinus4);
    WriteOrder(bs, pp);
    WriteSize(bs, pp);
    WriteGroup(bs, Flags(3), TailValues(pp));
    SpsPieces(pp, profile);
    SpsFits(pp, profile);
    used := FinishH264(bs, buf, bufSize);
  }

  method WriteChroma(bs: BSWriter, pp: PicParams, profile: nat)
    requires bs.Valid() && Fit(CHROMA, ChromaValues(pp))
    modifies bs, bs.data
    ensures bs.Valid() && bs.text == old(bs.text) + ChromaCode(pp, profile)
  {
    hide BSWriter.Valid, Print, Fit, UeCode, UBits;
    if profile == 100 || profile == 110 || profile == 122 || profile == 244 || profile == 44 || profile == 83 || profile == 86 || profile == 118 ||
       profile == 128 {
      bs.WriteUe(pp.chromaFormatIdc);
      if pp.chromaFormatIdc == 3 {
        UBitsOfFlag(pp.residualColourTransform);
        bs.Write(if pp.residualColourTransform then 1 else 0, 1);
      }
      WriteGroup(bs, CHROMA, ChromaValues(pp));
    }
  }

  method WriteOrder(bs: BSWriter, pp: PicParams)
    requires bs.Valid() && Fit(CYCLE, CycleValues(pp))
    modifies bs, bs.data
    ensures bs.Valid() && bs.text == old(bs.text) + OrderCode(pp)
  {
    hide BSWriter.Valid, Print, Fit, UeCode;
    bs.WriteUe(pp.pocType);
    if pp.pocType == 0 {
      bs.WriteUe(pp.log2MaxPocLsbMinus4);
    } else if pp.pocType == 1 {
      WriteGroup(bs, CYCLE, CycleValues(pp));
    }
  }

  method WriteSize(bs: BSWriter, pp: PicParams)
    requires bs.Valid() && Fit(SIZE, SizeValues(pp))
    modifies bs, bs.data
    ensures bs.Valid() && bs.text == old(bs.text) + SizeCode(pp)
  {
    hide BSWriter.Valid, Print, Fit, UeCode32, UBits;
    WriteGroup(bs, SIZE, SizeValues(pp));
    var units := if pp.frameMbsOnly then pp.heightMbsMinus1 else ((pp.heightMbsMinus1 + 1) / 2 - 1 + WORD) % WORD;
    bs.WriteUe(units);
    UBitsOfFlag(pp.frameMbsOnly);
    bs.Write(if pp.frameMbsOnly then 1 else 0, 1);
    if !pp.frameMbsOnly {
      UBitsOfFlag(pp.mbAdaptive);
      bs.Write(if pp.mbAdaptive then 1 else 0, 1);
    }
  }

  lemma SpsPieces(pp: PicParams, profile: nat)
    ensures [] + Print([U(8, 0)], [0x67]) + Print(SPS_HEAD, HeadValues(pp, profile)) + ChromaCode(pp, profile) + UeCode(pp.log2MaxFrameNumMinus4)
            + OrderCode(pp) + SizeCode(pp) + Print(Flags(3), TailValues(pp)) == SpsText(pp, profile)
  {
    hide Print, ChromaCode, OrderCode, SizeCode, UeCode, LevelFrom;
    var a, b, c := Print(SPS_HEAD, HeadValues(pp, profile)), ChromaCode(pp, profile), UeCode(pp.log2MaxFrameNumMinus4);
    var d, e, f := OrderCode(pp), SizeCode(pp), Print(Flags(3), TailValues(pp));
    assert a + b + c + d + e + f == a + (b + (c + (d + (e + f))));
  }

  /** Negative counts are taken for 0. */
  function Clamped(minus1: i32): Count {
    if minus1 < 0 then 0 else minus1
  }

  /** h264_write_pps. */
  method WritePps(buf: array<byte>, bufSize: nat, pp: PicParams, iq: Option<IqMatrix>, l0Minus1: i32, l1Minus1: i32) returns (used: int)
    requires bufSize <= buf.Length && pp.WellFormed() && ValidIq(iq)
    modifies buf
    ensures var text := PpsText(pp, iq, Clamped(l0Minus1), Clamped(l1Minus1));
            if Printable(pp, iq) && 4 + 2 * |Raw(text)| <= bufSize then 0 < used <= bufSize && buf[..used] == [0, 0, 0, 1] + NalOf(text).nal
            else used == -1
  {
    hide BSWriter.Valid, Print, Fit, ExtensionCode, NalOf, Raw, Printable;
    var l0: Count := if l0Minus1 < 0 then 0 else l0Minus1;
    var l1: Count := if l1Minus1 < 0 then 0 else l1Minus1;
    var raw := new byte[PPS_CAPACITY];
    var bs := new BSWriter(raw);
    HeaderByte(0x68);
    PpsHeadFits(pp, l0, l1);
    WriteGroup(bs, [U(8, 0)], [0x68]);
    WriteGroup(bs, PPS_HEAD, PpsHeadValues(pp, l0, l1));
    var ok := WriteExtension(bs, pp, iq);
    if !ok {
      return -1;
    }
    PpsFits(pp, iq, l0, l1);
    assert bs.text == PpsText(pp, iq, l0, l1);
    used := FinishH264(bs, buf, bufSize);
  }

  method WriteExtension(bs: BSWriter, pp: PicParams, iq: Option<IqMatrix>) returns (ok: bool)
    requires bs.Valid() && ValidIq(iq)
    modifies bs, bs.data
    ensures bs.Valid() && ok == Printable(pp, iq)
    ensures ok ==> bs.text == old(bs.text) + ExtensionCode(pp, iq)
  {
    hide BSWriter.Valid, Code, AllListsCode, UBits, NoZero;
    if iq.None? && !pp.transform8x8 && pp.secondChromaQpOffset == pp.chromaQpOffset {
      return true;
    }
    ghost var start := bs.text;
    UBitsOfFlag(pp.transform8x8);
    bs.Write(if pp.transform8x8 then 1 else 0, 1);
    UBitsOfFlag(iq.Some?);
    bs.Write(if iq.Some? then 1 else 0, 1);
    if iq.Some? {
      ok := WriteAllLists(bs, iq.value, pp.transform8x8);
      if !ok {
        return;
      }
    }
    bs.WriteSe(pp.secondChromaQpOffset);
    ExtensionSplit(start, [pp.transform8x8], [iq.Some?], if iq.Some? then AllListsCode(iq.value, pp.transform8x8) else [],
                   Code(Se(pp.secondChromaQpOffset)));
    ok := true;
  }

  lemma ExtensionSplit(start: seq<bool>, a: seq<bool>, b: seq<bool>, c: seq<bool>, d: seq<bool>)
    ensures start + a + b + c + d == start + (a + (b + (c + d))) && start + a + b + [] == start + a + b
  {
    assert a + b + c + d == a + (b + (c + d));
  }

  method WriteAllLists(bs: BSWriter, iq: IqMatrix, transform8x8: bool) returns (ok: bool)
    requires bs.Valid() && iq.Valid()
    modifies bs, bs.data
    ensures bs.Valid() && ok == (NoZero(iq.list4x4) && (transform8x8 ==> NoZero(iq.list8x8)))
    ensures ok ==> bs.text == old(bs.text) + AllListsCode(iq, transform8x8)
  {
    hide BSWriter.Valid, ListsCode, NoZero;
    ok := WriteLists(bs, iq.list4x4, Frame4);
    if ok && transform8x8 {
      ok := WriteLists(bs, iq.list8x8, Frame8);
    }
  }

  /** The loops over the lists, each behind its flag. */
  method WriteLists(bs: BSWriter, lists: seq<seq<Entry>>, scan: Scan) returns (ok: bool)
    requires bs.Valid() && Sized(lists, scan)
    modifies bs, bs.data
    ensures bs.Valid() && ok == NoZero(lists)
    ensures ok ==> bs.text == old(bs.text) + ListsCode(lists, scan)
  {
    hide BSWriter.Valid, ListsCode, CoefCode, Scanned, UBits, Scan.Size;
    ghost var start := bs.text;
    for i := 0 to |lists|
      invariant bs.Valid() && forall k :: 0 <= k < i ==> forall j :: 0 <= j < |lists[k]| ==> lists[k][j] != 0
      invariant start + ListsCode(lists, scan) == bs.text + ListsCode(lists[i..], scan)
    {
      ListsStep(lists[i..], lists[i + 1..], scan);
      UBitsOfFlag(true);
      bs.Write(1, 1);
      ok := WriteScalingList264(bs, lists[i], scan);
      if !ok {
        return;
      }
    }
    NoLists(lists[|lists|..], scan);
    ok := true;
  }

  lemma ListsStep(lists: seq<seq<Entry>>, tail: seq<seq<Entry>>, scan: Scan)
    requires lists != [] && tail == lists[1..] && Sized(lists, scan)
    ensures Sized(tail, scan) && ListsCode(lists, scan) == [true] + CoefCode(Scanned(lists[0], scan), 8) + ListsCode(tail, scan)
  {
    hide CoefCode, Scanned;
  }

  lemma NoLists(lists: seq<seq<Entry>>, scan: Scan)
    requires lists == []
    ensures ListsCode(lists, scan) == []
  {
  }

  // ---------- the NAL units ----------

  /** The sequence parameter set as a decoder sees it: nal_ref_idc 3, nal_unit_type 7. */
  lemma SpsNalDecodes(pp: PicParams, profile: nat)
    requires profile < 256
    ensures NalOf(SpsText(pp, profile)).Valid()
    ensures ReadU(8, Unescaped(NalOf(SpsText(pp, profile)))) == Done(3 * 32 + 7, Payload(NalOf(SpsText(pp, profile)), 8))
    ensures ReadSps(Payload(NalOf(SpsText(pp, profile)), 8)) == Done(IntendedSps(pp, profile), Trailing(|SpsText(pp, profile)|)) <==>
            profile !in {138, 139, 134, 135} && pp.pocType <= 2 && (pp.frameMbsOnly || pp.heightMbsMinus1 % 2 == 1)
  {
    hide SpsCode, Trailing, ReadSps, IntendedSps, NalOf, Payload, Print, Unescaped, ReadU;
    HeaderByte(0x67);
    PayloadOf(Print([U(8, 0)], [0x67]), SpsCode(pp, profile));
    ReadHeaderByte(0x67, Payload(NalOf(SpsText(pp, profile)), 8));
    SpsRoundTrip(pp, profile, Trailing(|SpsText(pp, profile)|));
  }

  /** The picture parameter set: nal_ref_idc 3, nal_unit_type 8; a negative number of references stands for one picture. */
  lemma PpsNalDecodes(chroma444: bool, pp: PicParams, iq: Option<IqMatrix>, l0Minus1: i32, l1Minus1: i32)
    requires pp.WellFormed() && ValidIq(iq)
    ensures var unit := NalOf(PpsText(pp, iq, Clamped(l0Minus1), Clamped(l1Minus1)));
            && unit.Valid() && ReadU(8, Unescaped(unit)) == Done(3 * 32 + 8, Payload(unit, 8))
            && (ReadPps(chroma444, Payload(unit, 8)) ==
                  Done(IntendedPps(pp, iq, if l0Minus1 < 0 then 0 else l0Minus1, if l1Minus1 < 0 then 0 else l1Minus1),
                       Trailing(|PpsText(pp, iq, Clamped(l0Minus1), Clamped(l1Minus1))|))
                <==> Printable(pp, iq) && !(chroma444 && iq.Some? && pp.transform8x8))
  {
    hide PpsCode, Trailing, ReadPps, IntendedPps, NalOf, Payload, Print, Printable, Unescaped, ReadU;
    var l0, l1 := Clamped(l0Minus1), Clamped(l1Minus1);
    HeaderByte(0x68);
    PayloadOf(Print([U(8, 0)], [0x68]), PpsCode(pp, iq, l0, l1));
    ReadHeaderByte(0x68, Payload(NalOf(PpsText(pp, iq, l0, l1)), 8));
    PpsRoundTrip(chroma444, pp, iq, l0, l1, |PpsText(pp, iq, l0, l1)|);
  }
}
