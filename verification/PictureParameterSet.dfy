/**
 The picture parameter set: write_pps of src/hevc.c against the syntax of section 7.3.2.3 of H.265.
 The decoder's fields are named, so that every element is shown to land where it belongs.
 */
module PictureParameterSet {
  import opened Options
  import opened Integers
  import opened Bits
  import opened ExpGolomb
  import opened PictureParameters
  import opened BitWriter
  import opened SyntaxElements
  import opened SliceHeader
  import opened PictureValidation
  import opened TileLayout
  import opened ScalingLists
  import opened RawNal

  const RAW_CAPACITY: nat := 32768

  // ---------- the decoder ----------

  datatype TileSyntax = TileSyntax(columnsMinus1: int, rowsMinus1: int, uniform: bool, widths: seq<nat>, heights: seq<nat>, acrossTiles: bool)

  /** What a decoder knows about the filter, inferred values included. */
  datatype Deblocking = Deblocking(control: bool, overrideEnabled: bool, disabled: bool, beta: int, tc: int)

  datatype General = General(
    ppsId: int,
    spsId: int,
    dependentSlices: bool,
    outputFlagPresent: bool,
    numExtraBits: int,
    signDataHiding: bool,
    cabacInitPresent: bool,
    l0Minus1: int,
    l1Minus1: int,
    initQpMinus26: int,
    constrainedIntra: bool,
    transformSkip: bool,
    cuQpDelta: bool
  )

  datatype Coding = Coding(
    cbQpOffset: int,
    crQpOffset: int,
    sliceChromaQp: bool,
    weightedPred: bool,
    weightedBipred: bool,
    transquantBypass: bool,
    entropyCodingSync: bool
  )

  datatype Closing = Closing(listsModification: bool, log2ParMrgMinus2: int, sliceExtension: bool, extension: bool)

  datatype Pps = Pps(
    general: General,
    diffCuQpDeltaDepth: int,
    coding: Coding,
    tiles: Option<TileSyntax>,
    acrossSlices: bool,
    deblocking: Deblocking,
    scaling: Option<seq<Decoded>>,
    closing: Closing
  )

  function ReadTiles(enabled: bool, bits: seq<bool>): Parsed<Option<TileSyntax>> {
    if !enabled then Done(None, bits)
    else
      var (v, b1) :- ReadVals(TILES, bits);
      if |v| != 3 || v[0] < 0 || v[1] < 0 then Stuck
      else
        var (w, b2) :- if v[2] == 1 then Done([], b1) else ReadVals(Ues(v[0]), b1);
        var (h, b3) :- if v[2] == 1 then Done([], b2) else ReadVals(Ues(v[1]), b2);
        var (across, rest) :- ReadFlag(b3);
        Done(Some(TileSyntax(v[0], v[1], v[2] == 1, Naturals(w), Naturals(h), across)), rest)
  }

  function Naturals(s: seq<int>): seq<nat> {
    seq(|s|, i requires 0 <= i < |s| => if s[i] < 0 then 0 else s[i])
  }

  /** Elements that are not there are inferred to be 0 (section 7.4.3.3.1): the filter is on. */
  function ReadDeblocking(bits: seq<bool>): Parsed<Deblocking> {
    var (control, b1) :- ReadFlag(bits);
    if !control then Done(Deblocking(false, false, false, 0, 0), b1)
    else
      var (overrideEnabled, b2) :- ReadFlag(b1);
      var (disabled, b3) :- ReadFlag(b2);
      var (v, rest) :- if disabled then Done([0, 0], b3) else ReadVals([SE, SE], b3);
      if |v| != 2 then Stuck else Done(Deblocking(true, overrideEnabled, disabled, v[0], v[1]), rest)
  }

  function ReadScaling(sizes: seq<nat>, bits: seq<bool>): Parsed<seq<Decoded>> {
    if |sizes| == 0 then Done([], bits)
    else
      var (first, b1) :- ReadMatrix(sizes[0], bits);
      var (others, rest) :- ReadScaling(sizes[1..], b1);
      Done([first] + others, rest)
  }

  /** The size classes in the order of the loops of section 7.3.4, from one matrix on. */
  function SizeIds(sizeId: nat, matrixId: nat): seq<nat>
    decreases 4 - sizeId, 6 - matrixId
  {
    if sizeId >= 4 then []
    else if matrixId >= 6 then SizeIds(sizeId + 1, 0)
    else [sizeId] + SizeIds(sizeId, matrixId + (if sizeId == 3 then 3 else 1))
  }

  const HEAD: seq<Syntax> := [UE, UE, FLAG, FLAG, U(3, 0), FLAG, FLAG, UE, UE, SE, FLAG, FLAG, FLAG]
  const MIDDLE: seq<Syntax> := [SE, SE, FLAG, FLAG, FLAG, FLAG, FLAG, FLAG]
  const TILES: seq<Syntax> := [UE, UE, FLAG]
  const TAIL: seq<Syntax> := [FLAG, UE, FLAG, FLAG]

  /** pic_parameter_set_rbsp() of section 7.3.2.3, up to its trailing bits. */
  function ReadPps(bits: seq<bool>): Parsed<Pps> {
    var (h, b1) :- ReadVals(HEAD, bits);
    if |h| != 13 then Stuck
    else
      var (depth, b2) :- if h[12] == 1 then ReadUe(b1) else Done(0, b1);
      var (m, b3) :- ReadVals(MIDDLE, b2);
      if |m| != 8 then Stuck
      else
        var (tiles, b4) :- ReadTiles(m[6] == 1, b3);
        var (acrossSlices, b5) :- ReadFlag(b4);
        var (deblocking, b6) :- ReadDeblocking(b5);
        ReadPpsEnd(h, depth, m, tiles, acrossSlices, deblocking, b6)
  }

  /** Elements up to cu_qp_delta_enabled_flag. */
  function GeneralOf(h: seq<int>): General
    requires |h| == 13
  {
    General(h[0], h[1], h[2] == 1, h[3] == 1, h[4], h[5] == 1, h[6] == 1, h[7], h[8], h[9], h[10] == 1, h[11] == 1, h[12] == 1)
  }

  /** Elements from pps_cb_qp_offset to entropy_coding_sync_enabled_flag; the last but one announces tiles. */
  function CodingOf(m: seq<int>): Coding
    requires |m| == 8
  {
    Coding(m[0], m[1], m[2] == 1, m[3] == 1, m[4] == 1, m[5] == 1, m[7] == 1)
  }

  function ClosingOf(t: seq<int>): Closing
    requires |t| == 4
  {
    Closing(t[0] == 1, t[1], t[2] == 1, t[3] == 1)
  }

  /** From pps_scaling_list_data_present_flag on. */
  function ReadPpsEnd(h: seq<int>, depth: int, m: seq<int>, tiles: Option<TileSyntax>, acrossSlices: bool,
                      deblocking: Deblocking, bits: seq<bool>): Parsed<Pps>
    requires |h| == 13 && |m| == 8
  {
    var (scalingPresent, b1) :- ReadFlag(bits);
    var (scaling, b2) :- ReadScaling(if scalingPresent then SizeIds(0, 0) else [], b1);
    var (t, rest) :- ReadVals(TAIL, b2);
    if |t| != 4 then Stuck
    else
      Done(Pps(GeneralOf(h), depth, CodingOf(m), tiles, acrossSlices, deblocking, if scalingPresent then Some(scaling) else None, ClosingOf(t)), rest)
  }

  // ---------- what the application asked for ----------

  predicate Uniform(pp: PicParams) {
    SpacedEvenly(Widths(pp), WidthInCtbs(pp)) && SpacedEvenly(Heights(pp), HeightInCtbs(pp))
  }

  predicate DeblockingPresent(pp: PicParams) {
    pp.pps.deblockingOverrideEnabled || pp.pps.disableDeblocking || pp.pps.betaOffsetDiv2 != 0 || pp.pps.tcOffsetDiv2 != 0
  }

  function IntendedDepth(pp: PicParams): nat {
    if pp.pps.cuQpDeltaEnabled then pp.pps.diffCuQpDeltaDepth else 0
  }

  function IntendedTiles(pp: PicParams): Option<TileSyntax> {
    if pp.pps.tilesEnabled then
      Some(TileSyntax(pp.pps.numTileColumnsMinus1, pp.pps.numTileRowsMinus1, Uniform(pp),
                      if Uniform(pp) then [] else Widths(pp), if Uniform(pp) then [] else Heights(pp), pp.pps.loopFilterAcrossTiles))
    else None
  }

  /** The filter of the application; its offsets count only while it is on. */
  function IntendedDeblocking(pp: PicParams): Deblocking {
    var q := pp.pps;
    Deblocking(q.deblockingOverrideEnabled || q.disableDeblocking || q.betaOffsetDiv2 != 0 || q.tcOffsetDiv2 != 0,
               q.deblockingOverrideEnabled, q.disableDeblocking,
               if q.disableDeblocking then 0 else q.betaOffsetDiv2, if q.disableDeblocking then 0 else q.tcOffsetDiv2)
  }

  function IntendedScaling(pp: PicParams, iq: IqMatrix): Option<seq<Decoded>>
    requires iq.Valid()
  {
    if pp.pps.scalingListEnabled then Some(ListsOf(iq)) else None
  }

  /** The fields the set should carry. */
  function Intended(pp: PicParams, iq: IqMatrix, ppsId: nat): Pps
    requires iq.Valid()
  {
    Pps(IntendedGeneral(pp, ppsId), IntendedDepth(pp), IntendedCoding(pp.pps), IntendedTiles(pp), pp.pps.loopFilterAcrossSlices,
        IntendedDeblocking(pp), IntendedScaling(pp, iq),
        Closing(pp.pps.listsModificationPresent, pp.pps.log2ParallelMergeLevelMinus2, pp.pps.sliceHeaderExtensionPresent, false))
  }

  function IntendedGeneral(pp: PicParams, ppsId: nat): General {
    var q := pp.pps;
    General(ppsId, 0, pp.dependentSlicesEnabled, pp.outputFlagPresent, pp.numExtraSliceHeaderBits, q.signDataHiding, q.cabacInitPresent,
            q.numRefIdxL0Minus1, q.numRefIdxL1Minus1, q.initQpMinus26, q.constrainedIntraPred, q.transformSkip, q.cuQpDeltaEnabled)
  }

  function IntendedCoding(q: PpsParams): Coding {
    Coding(q.cbQpOffset, q.crQpOffset, q.sliceChromaQpOffsetsPresent, q.weightedPred, q.weightedBipred, q.transquantBypass,
           q.entropyCodingSync)
  }

  // ---------- what write_pps writes ----------

  function HeadValues(pp: PicParams, ppsId: nat): (r: seq<int>)
    ensures |r| == 13
  {
    [ppsId, 0, Bit(pp.dependentSlicesEnabled), Bit(pp.outputFlagPresent), pp.numExtraSliceHeaderBits,
     Bit(pp.pps.signDataHiding), Bit(pp.pps.cabacInitPresent), pp.pps.numRefIdxL0Minus1, pp.pps.numRefIdxL1Minus1,
     pp.pps.initQpMinus26, Bit(pp.pps.constrainedIntraPred), Bit(pp.pps.transformSkip), Bit(pp.pps.cuQpDeltaEnabled)]
  }

  function DepthCode(pp: PicParams): seq<bool> {
    if pp.pps.cuQpDeltaEnabled then UeCode(pp.pps.diffCuQpDeltaDepth) else []
  }

  function MiddleValues(pp: PicParams): (r: seq<int>)
    ensures |r| == 8
  {
    [pp.pps.cbQpOffset, pp.pps.crQpOffset, Bit(pp.pps.sliceChromaQpOffsetsPresent), Bit(pp.pps.weightedPred), Bit(pp.pps.weightedBipred),
     Bit(pp.pps.transquantBypass), Bit(pp.pps.tilesEnabled), Bit(pp.pps.entropyCodingSync)]
  }

  function TileValues(pp: PicParams, uniform: bool): seq<int> {
    [pp.pps.numTileColumnsMinus1, pp.pps.numTileRowsMinus1, Bit(uniform)]
  }

  /** The explicit sizes of columns or rows. */
  function SizesCode(minus1: seq<u16>): seq<bool> {
    Print(Ues(|minus1|), minus1)
  }

  function TileCode(pp: PicParams): seq<bool> {
    if !pp.pps.tilesEnabled then []
    else
      Print(TILES, TileValues(pp, Uniform(pp)))
      + ((if Uniform(pp) then [] else SizesCode(Widths(pp))) + ((if Uniform(pp) then [] else SizesCode(Heights(pp)))
      + [pp.pps.loopFilterAcrossTiles]))
  }

  function DeblockingValues(pp: PicParams): seq<int> {
    [pp.pps.betaOffsetDiv2, pp.pps.tcOffsetDiv2]
  }

  function DeblockingCode(pp: PicParams): seq<bool> {
    if !DeblockingPresent(pp) then [false]
    else
      [true] + ([pp.pps.deblockingOverrideEnabled] + ([pp.pps.disableDeblocking]
      + (if pp.pps.disableDeblocking then [] else Print([SE, SE], DeblockingValues(pp)))))
  }

  function ScalingCode(pp: PicParams, iq: IqMatrix): seq<bool>
    requires iq.Valid()
  {
    if pp.pps.scalingListEnabled then [true] + MatricesCode(Matrices(iq, 0, 0)) else [false]
  }

  function TailValues(pp: PicParams): (r: seq<int>)
    ensures |r| == 4
  {
    [Bit(pp.pps.listsModificationPresent), pp.pps.log2ParallelMergeLevelMinus2, Bit(pp.pps.sliceHeaderExtensionPresent), 0]
  }

  /** Behind the NAL unit header and in front of the trailing bits. */
  function PpsCode(pp: PicParams, iq: IqMatrix, ppsId: nat): seq<bool>
    requires iq.Valid()
  {
    PpsStart(pp, ppsId) + (DeblockingCode(pp) + (ScalingCode(pp, iq) + Print(TAIL, TailValues(pp))))
  }

  function PpsStart(pp: PicParams, ppsId: nat): seq<bool> {
    Print(HEAD, HeadValues(pp, ppsId)) + (DepthCode(pp) + (Print(MIDDLE, MiddleValues(pp)) + (TileCode(pp) + [pp.pps.loopFilterAcrossSlices])))
  }

  // ---------- the tiles a decoder derives ----------

  /** Section 6.5.1, in one direction. */
  function TileSizes(uniform: bool, n: nat, minus1: seq<nat>, total: nat): seq<int> {
    if uniform then UniformSizes(n, total) else ExplicitSizes(minus1, total)
  }

  // ---------- every value fits its element ----------

  lemma ValuesFit(pp: PicParams, ppsId: nat, uniform: bool)
    requires pp.numExtraSliceHeaderBits <= 7 && ppsId <= 63
    ensures Fit(HEAD, HeadValues(pp, ppsId)) && Fit(MIDDLE, MiddleValues(pp)) && Fit(TILES, TileValues(pp, uniform)) && Fit(TAIL, TailValues(pp))
    ensures Fit([SE, SE], DeblockingValues(pp)) && Fit(Ues(|Widths(pp)|), Widths(pp)) && Fit(Ues(|Heights(pp)|), Heights(pp))
  {
    hide Fit;
    HeadFits(pp, ppsId);
    MiddleFits(pp);
    TailFits(pp);
    OthersFit(pp, uniform);
  }

  lemma HeadFits(pp: PicParams, ppsId: nat)
    requires pp.numExtraSliceHeaderBits <= 7 && ppsId <= 63
    ensures Fit(HEAD, HeadValues(pp, ppsId))
  {
    hide Fit;
    var v := HeadValues(pp, ppsId);
    FrontFits(pp, ppsId);
    BackFits(pp, ppsId);
    assert HEAD == HEAD[..7] + HEAD[7..] && v == v[..7] + v[7..];
    FitBoth(HEAD[..7], v[..7], HEAD[7..], v[7..]);
  }

  lemma FrontFits(pp: PicParams, ppsId: nat)
    requires pp.numExtraSliceHeaderBits <= 7 && ppsId <= 63
    ensures Fit(HEAD[..7], HeadValues(pp, ppsId)[..7])
  {
    hide Pow2;
    SmallPowers();
  }

  lemma BackFits(pp: PicParams, ppsId: nat)
    ensures Fit(HEAD[7..], HeadValues(pp, ppsId)[7..])
  {
    hide Pow2;
    SmallPowers();
  }

  lemma MiddleFits(pp: PicParams)
    ensures Fit(MIDDLE, MiddleValues(pp))
  {
    hide Pow2;
    SmallPowers();
  }

  lemma TailFits(pp: PicParams)
    ensures Fit(TAIL, TailValues(pp))
  {
    hide Pow2;
    SmallPowers();
  }

  lemma OthersFit(pp: PicParams, uniform: bool)
    ensures Fit(TILES, TileValues(pp, uniform)) && Fit([SE, SE], DeblockingValues(pp))
    ensures Fit(Ues(|Widths(pp)|), Widths(pp)) && Fit(Ues(|Heights(pp)|), Heights(pp))
  {
    hide Pow2, Widths, Heights;
    SmallPowers();
  }

  // ---------- the round trip ----------

  lemma {:induction false} ReadScalingIsMatrices(ms: seq<Matrix>, sizes: seq<nat>, bits: seq<bool>)
    requires |ms| == |sizes| && forall i :: 0 <= i < |ms| ==> ms[i].sizeId == sizes[i]
    ensures ReadScaling(sizes, bits) == ReadMatrices(ms, bits)
  {
    hide ReadMatrix;
    if |ms| > 0 && ReadMatrix(sizes[0], bits).Done? {
      ReadScalingIsMatrices(ms[1..], sizes[1..], ReadMatrix(sizes[0], bits).rest);
    }
  }

  /** How many matrices the loops still visit. */
  function Left(sizeId: nat, matrixId: nat): nat {
    if sizeId > 3 then 0
    else if sizeId == 3 then (if matrixId >= 6 then 0 else if matrixId >= 3 then 1 else 2)
    else (if matrixId >= 6 then 0 else 6 - matrixId) + 6 * (2 - sizeId) + 2
  }

  lemma {:induction false} MatrixOrder(iq: IqMatrix, sizeId: nat, matrixId: nat)
    requires iq.Valid() && matrixId <= 6 && (sizeId == 3 ==> matrixId % 3 == 0)
    ensures var ms := Matrices(iq, sizeId, matrixId); var ids := SizeIds(sizeId, matrixId);
            |ms| == |ids| == Left(sizeId, matrixId) && forall i :: 0 <= i < |ms| ==> ms[i].sizeId == ids[i]
    decreases 4 - sizeId, 6 - matrixId
  {
    hide Matrix.Valid, IqMatrix.Valid, IqMatrix.Get;
    if sizeId <= 3 {
      if matrixId >= 6 {
        MatrixOrder(iq, sizeId + 1, 0);
      } else {
        MatrixOrder(iq, sizeId, matrixId + (if sizeId == 3 then 3 else 1));
      }
    }
  }

  lemma ScalingRoundTrip(pp: PicParams, iq: IqMatrix, rest: seq<bool>)
    requires iq.Valid()
    ensures var sizes := if pp.pps.scalingListEnabled then SizeIds(0, 0) else [];
            var b := (if pp.pps.scalingListEnabled then MatricesCode(Matrices(iq, 0, 0)) else []) + rest;
            ReadScaling(sizes, b) == if Printable(pp, iq) then Done(if pp.pps.scalingListEnabled then ListsOf(iq) else [], rest) else Stuck
  {
    hide ReadMatrix, MatrixCode, NoZeroDc, ListsOf, AllWritable;
    if pp.pps.scalingListEnabled {
      var ms := Matrices(iq, 0, 0);
      LoopsVisitAll(iq);
      MatrixOrder(iq, 0, 0);
      ReadScalingIsMatrices(ms, SizeIds(0, 0), MatricesCode(ms) + rest);
      ScalingListsRoundTrip(ms, rest);
    } else {
      assert [] + rest == rest;
    }
  }

  lemma DeblockingRoundTrip(pp: PicParams, rest: seq<bool>)
    ensures ReadDeblocking(DeblockingCode(pp) + rest) == Done(IntendedDeblocking(pp), rest)
  {
    hide ReadVals, Print, Fit;
    var b3 := (if pp.pps.disableDeblocking then [] else Print([SE, SE], DeblockingValues(pp))) + rest;
    if DeblockingPresent(pp) {
      assert DeblockingCode(pp) + rest == [true] + ([pp.pps.deblockingOverrideEnabled] + ([pp.pps.disableDeblocking] + b3));
      ReadFlagOf(true, [pp.pps.deblockingOverrideEnabled] + ([pp.pps.disableDeblocking] + b3));
      ReadFlagOf(pp.pps.deblockingOverrideEnabled, [pp.pps.disableDeblocking] + b3);
      ReadFlagOf(pp.pps.disableDeblocking, b3);
      if pp.pps.disableDeblocking {
        assert b3 == rest;
      } else {
        DeblockingFits(pp);
        ReadPrinted([SE, SE], DeblockingValues(pp), rest);
      }
    } else {
      ReadFlagOf(false, rest);
    }
  }

  lemma DeblockingFits(pp: PicParams)
    ensures Fit([SE, SE], DeblockingValues(pp))
  {
  }

  lemma SizesRoundTrip(minus1: seq<u16>, rest: seq<bool>)
    requires Fit(Ues(|minus1|), minus1)
    ensures ReadVals(Ues(|minus1|), SizesCode(minus1) + rest) == Done(minus1, rest) && Naturals(minus1) == minus1
  {
    hide ReadVals, Print, Fit;
    ReadPrinted(Ues(|minus1|), minus1, rest);
  }

  lemma TileCounts(pp: PicParams)
    requires PpsBounds(pp)
    ensures |Widths(pp)| == pp.pps.numTileColumnsMinus1 <= 19 && |Heights(pp)| == pp.pps.numTileRowsMinus1 <= 21
  {
  }

  lemma NoNaturals()
    ensures Naturals([]) == []
  {
  }

  lemma TilesRoundTrip(pp: PicParams, rest: seq<bool>)
    requires PpsBounds(pp)
    ensures ReadTiles(pp.pps.tilesEnabled, TileCode(pp) + rest) == Done(IntendedTiles(pp), rest)
  {
    hide ReadVals, Print, SizesCode, Fit, Uniform, Naturals, Ues, PpsBounds, Widths, Heights;
    TileCounts(pp);
    ValidatedBits(pp);
    ValuesFit(pp, 0, Uniform(pp));
    assert Naturals([]) == [] by { NoNaturals(); }
    if pp.pps.tilesEnabled {
      var b3 := [pp.pps.loopFilterAcrossTiles] + rest;
      var b2 := (if Uniform(pp) then [] else SizesCode(Heights(pp))) + b3;
      var b1 := (if Uniform(pp) then [] else SizesCode(Widths(pp))) + b2;
      assert TileCode(pp) + rest == Print(TILES, TileValues(pp, Uniform(pp))) + b1;
      ReadPrinted(TILES, TileValues(pp, Uniform(pp)), b1);
      if Uniform(pp) {
        assert b1 == b3 && b2 == b3;
      } else {
        SizesRoundTrip(Widths(pp), b2);
        SizesRoundTrip(Heights(pp), b3);
      }
      ReadFlagOf(pp.pps.loopFilterAcrossTiles, rest);
    } else {
      assert TileCode(pp) + rest == rest;
    }
  }

  lemma DepthRoundTrip(pp: PicParams, rest: seq<bool>)
    ensures (if pp.pps.cuQpDeltaEnabled then ReadUe(DepthCode(pp) + rest) else Done(0, DepthCode(pp) + rest)) == Done(IntendedDepth(pp), rest)
  {
    if pp.pps.cuQpDeltaEnabled {
      ReadUeOfUeCode(pp.pps.diffCuQpDeltaDepth, rest);
    } else {
      assert DepthCode(pp) + rest == rest;
    }
  }

  /** The end of the set, from the scaling lists on, with what was read before. */
  lemma PpsEndRoundTrip(pp: PicParams, iq: IqMatrix, h: seq<int>, depth: int, m: seq<int>, tiles: Option<TileSyntax>,
                        deblocking: Deblocking, rest: seq<bool>)
    requires iq.Valid() && |h| == 13 && |m| == 8
    ensures ReadPpsEnd(h, depth, m, tiles, pp.pps.loopFilterAcrossSlices, deblocking, ScalingCode(pp, iq) + (Print(TAIL, TailValues(pp)) + rest)) ==
            if !Printable(pp, iq) then Stuck
            else
              Done(Pps(GeneralOf(h), depth, CodingOf(m), tiles, pp.pps.loopFilterAcrossSlices, deblocking, IntendedScaling(pp, iq),
                       Intended(pp, iq, 0).closing), rest)
  {
    hide ReadVals, Print, Fit, ReadScaling, MatricesCode, Matrices, GeneralOf, CodingOf, Known, IntendedGeneral, IntendedCoding, Printable;
    var b2 := Print(TAIL, TailValues(pp)) + rest;
    var b1 := (if pp.pps.scalingListEnabled then MatricesCode(Matrices(iq, 0, 0)) else []) + b2;
    assert ScalingCode(pp, iq) + b2 == [pp.pps.scalingListEnabled] + b1;
    ReadFlagOf(pp.pps.scalingListEnabled, b1);
    ScalingRoundTrip(pp, iq, b2);
    TailFits(pp);
    ReadPrinted(TAIL, TailValues(pp), rest);
  }

  /** Everything up to the scaling lists. */
  lemma PpsStartRoundTrip(pp: PicParams, iq: IqMatrix, ppsId: nat, rest: seq<bool>)
    requires PpsBounds(pp) && iq.Valid() && ppsId <= 63
    ensures ReadPps(PpsCode(pp, iq, ppsId) + rest) ==
            ReadPpsEnd(HeadValues(pp, ppsId), IntendedDepth(pp), MiddleValues(pp), IntendedTiles(pp), pp.pps.loopFilterAcrossSlices,
                       IntendedDeblocking(pp), ScalingCode(pp, iq) + (Print(TAIL, TailValues(pp)) + rest))
  {
    hide ReadVals, Print, Fit, ReadTiles, ReadDeblocking, ReadPpsEnd, TileCode, DeblockingCode, ScalingCode, IntendedTiles, IntendedDeblocking,
      ReadPps, DepthCode, PpsBounds;
    var b7 := ScalingCode(pp, iq) + (Print(TAIL, TailValues(pp)) + rest);
    var b6 := DeblockingCode(pp) + b7;
    var b5 := [pp.pps.loopFilterAcrossSlices] + b6;
    var b4 := TileCode(pp) + b5;
    var b3 := Print(MIDDLE, MiddleValues(pp)) + b4;
    var b2 := DepthCode(pp) + b3;
    assert PpsCode(pp, iq, ppsId) + rest == Print(HEAD, HeadValues(pp, ppsId)) + b2;
    ValidatedBits(pp);
    ValuesFit(pp, ppsId, false);
    ReadPrinted(HEAD, HeadValues(pp, ppsId), b2);
    DepthRoundTrip(pp, b3);
    ReadPrinted(MIDDLE, MiddleValues(pp), b4);
    TilesRoundTrip(pp, b5);
    ReadFlagOf(pp.pps.loopFilterAcrossSlices, b6);
    DeblockingRoundTrip(pp, b7);
    ReadPpsPieces(Print(HEAD, HeadValues(pp, ppsId)) + b2, HeadValues(pp, ppsId), b2, IntendedDepth(pp), b3, MiddleValues(pp), b4, IntendedTiles(pp), b5,
                  pp.pps.loopFilterAcrossSlices, b6, IntendedDeblocking(pp), b7);
  }

  /** Printing is invertible, for exactly the scaling lists that are accepted: a decoder reads every applicable field of a validated picture back. */
  lemma PpsRoundTrip(pp: PicParams, iq: IqMatrix, ppsId: nat, rest: seq<bool>)
    requires PpsBounds(pp) && iq.Valid() && ppsId <= 63
    ensures ReadPps(PpsCode(pp, iq, ppsId) + rest) == if Printable(pp, iq) then Done(Intended(pp, iq, ppsId), rest) else Stuck
  {
    hide ReadPps, ReadPpsEnd, PpsCode, IntendedTiles, IntendedDeblocking, IntendedScaling, IntendedDepth, Print, ScalingCode, PpsBounds, Printable;
    PpsStartRoundTrip(pp, iq, ppsId, rest);
    PpsEndRoundTrip(pp, iq, HeadValues(pp, ppsId), IntendedDepth(pp), MiddleValues(pp), IntendedTiles(pp), IntendedDeblocking(pp), rest);
  }

  /** Sizes in CTBs that are the application's, the last one what is left, all positive and together the whole side. */
  predicate Rebuilt(sizes: seq<int>, minus1: seq<nat>, n: nat, total: nat) {
    && |sizes| == n + 1 && n <= |minus1| && Sum(sizes) == total
    && (forall i :: 0 <= i < n ==> sizes[i] == minus1[i] + 1) && (forall i :: 0 <= i <= n ==> sizes[i] > 0)
  }

  /** Whichever branch was written, a decoder rebuilds the columns and rows the application gave. */
  lemma TilesRebuilt(pp: PicParams, iq: IqMatrix, ppsId: nat, rest: seq<bool>, width: nat, height: nat)
    requires PpsBounds(pp) && iq.Valid() && ppsId <= 63 && Printable(pp, iq)
    requires var ctb := Pow2(pp.log2MinCbMinus3 + 3 + pp.log2DiffMaxMinCb); Covers(width, ctb, pp.width) && Covers(height, ctb, pp.height)
    ensures var d := ReadPps(PpsCode(pp, iq, ppsId) + rest);
            && d.Done? && (d.value.tiles.Some? <==> pp.pps.tilesEnabled)
            && (pp.pps.tilesEnabled ==>
                  var t, columns, rows := d.value.tiles.value, pp.pps.numTileColumnsMinus1, pp.pps.numTileRowsMinus1;
                  && t.columnsMinus1 == columns && t.rowsMinus1 == rows
                  && Rebuilt(TileSizes(t.uniform, columns, t.widths, width), pp.pps.columnWidthMinus1, columns, width)
                  && Rebuilt(TileSizes(t.uniform, rows, t.heights, height), pp.pps.rowHeightMinus1, rows, height))
  {
    hide ReadPps, PpsCode, Pow2, CtbSize, UniformSizes, ExplicitSizes, SpacedEvenly, ExplicitFits, Printable, IntendedScaling, IntendedDeblocking;
    PpsRoundTrip(pp, iq, ppsId, rest);
    SidesAre(pp, width, height);
    if pp.pps.tilesEnabled {
      TileSizesRecovered(Widths(pp), width);
      TileSizesRecovered(Heights(pp), height);
    }
  }

  lemma SidesAre(pp: PicParams, width: nat, height: nat)
    requires var ctb := Pow2(pp.log2MinCbMinus3 + 3 + pp.log2DiffMaxMinCb); Covers(width, ctb, pp.width) && Covers(height, ctb, pp.height)
    ensures WidthInCtbs(pp) == width && HeightInCtbs(pp) == height
  {
    hide Pow2;
    CoversIs(width, CtbSize(pp), pp.width);
    CoversIs(height, CtbSize(pp), pp.height);
  }

  lemma ValidatedBits(pp: PicParams)
    requires PpsBounds(pp)
    ensures pp.numExtraSliceHeaderBits <= 7
  {
  }

  lemma ReadPpsPieces(bits: seq<bool>, h: seq<int>, b2: seq<bool>, depth: int, b3: seq<bool>, m: seq<int>, b4: seq<bool>,
                      tiles: Option<TileSyntax>, b5: seq<bool>, across: bool, b6: seq<bool>, deblocking: Deblocking, b7: seq<bool>)
    requires |h| == 13 && |m| == 8 && ReadVals(HEAD, bits) == Done(h, b2)
    requires if h[12] == 1 then ReadUe(b2).Done? && ReadUe(b2).rest == b3 && ReadUe(b2).value == depth else depth == 0 && b3 == b2
    requires ReadVals(MIDDLE, b3) == Done(m, b4)
    requires ReadTiles(m[6] == 1, b4) == Done(tiles, b5) && ReadFlag(b5) == Done(across, b6)
    requires ReadDeblocking(b6) == Done(deblocking, b7)
    ensures ReadPps(bits) == ReadPpsEnd(h, depth, m, tiles, across, deblocking, b7)
  {
    hide ReadVals, ReadTiles, ReadDeblocking, ReadPpsEnd, ReadUe;
  }

  // ---------- write_pps ----------

  /** tile_spacing_is_uniform. */
  method TileSpacingIsUniform(pp: PicParams) returns (uniform: bool)
    requires PpsBounds(pp)
    ensures uniform == Uniform(pp)
  {
    uniform := SpacingIsUniform(pp.pps.columnWidthMinus1, pp.pps.numTileColumnsMinus1, WidthInCtbs(pp));
    if uniform {
      uniform := SpacingIsUniform(pp.pps.rowHeightMinus1, pp.pps.numTileRowsMinus1, HeightInCtbs(pp));
    }
  }

  /** The tile branch. */
  method WriteTiles(bs: BSWriter, pp: PicParams)
    requires bs.Valid() && PpsBounds(pp)
    modifies bs, bs.data
    ensures bs.Valid() && bs.text == old(bs.text) + TileCode(pp)
  {
    hide BSWriter.Valid, Print, Fit, UBits, Uniform, PpsBounds;
    if !pp.pps.tilesEnabled {
      return;
    }
    var uniform := TileSpacingIsUniform(pp);
    ValidatedBits(pp);
    ValuesFit(pp, 0, uniform);
    WriteGroup(bs, TILES, TileValues(pp, uniform));
    if !uniform {
      WriteGroup(bs, Ues(|Widths(pp)|), Widths(pp));
      WriteGroup(bs, Ues(|Heights(pp)|), Heights(pp));
    }
    bs.Write(if pp.pps.loopFilterAcrossTiles then 1 else 0, 1);
    UBitsOfFlag(pp.pps.loopFilterAcrossTiles);
  }

  method WriteDeblocking(bs: BSWriter, pp: PicParams)
    requires bs.Valid()
    modifies bs, bs.data
    ensures bs.Valid() && bs.text == old(bs.text) + DeblockingCode(pp)
  {
    hide BSWriter.Valid, Print, Fit, UBits;
    var present := pp.pps.deblockingOverrideEnabled || pp.pps.disableDeblocking || pp.pps.betaOffsetDiv2 != 0 || pp.pps.tcOffsetDiv2 != 0;
    bs.Write(if present then 1 else 0, 1);
    UBitsOfFlag(present);
    if present {
      bs.Write(if pp.pps.deblockingOverrideEnabled then 1 else 0, 1);
      UBitsOfFlag(pp.pps.deblockingOverrideEnabled);
      bs.Write(if pp.pps.disableDeblocking then 1 else 0, 1);
      UBitsOfFlag(pp.pps.disableDeblocking);
      if !pp.pps.disableDeblocking {
        DeblockingFits(pp);
        WriteGroup(bs, [SE, SE], DeblockingValues(pp));
      }
    }
  }

  /** write_pps up to finish_nal: everything the raw buffer should hold. */
  method WritePpsText(bs: BSWriter, pp: PicParams, iq: IqMatrix, ppsId: nat) returns (ok: bool)
    requires bs.Valid() && bs.text == [] && PpsBounds(pp) && iq.Valid() && ppsId <= 63
    modifies bs, bs.data
    ensures bs.Valid()
    ensures ok == Printable(pp, iq)
    ensures ok ==> bs.text == PpsText(pp, iq, ppsId)
  {
    hide BSWriter.Valid, Print, Fit, PpsBounds, DeblockingCode, ScalingCode, Matrices, NoZeroDc, PpsStart;
    HevcHeaderFits(34);
    WriteGroup(bs, HEVC_HEADER, [0, 34, 0, 1]);
    WritePpsStart(bs, pp, ppsId);
    WriteDeblocking(bs, pp);
    ok := WritePpsEnd(bs, pp, iq);
  }

  /** From pps_scaling_list_data_present_flag on. */
  method WritePpsEnd(bs: BSWriter, pp: PicParams, iq: IqMatrix) returns (ok: bool)
    requires bs.Valid() && PpsBounds(pp) && iq.Valid()
    modifies bs, bs.data
    ensures bs.Valid()
    ensures ok == Printable(pp, iq)
    ensures ok ==> bs.text == old(bs.text) + (ScalingCode(pp, iq) + Print(TAIL, TailValues(pp)))
  {
    hide BSWriter.Valid, Print, Fit, PpsBounds, MatricesCode, Matrices, NoZeroDc, UBits;
    TailFits(pp);
    bs.Write(if pp.pps.scalingListEnabled then 1 else 0, 1);
    UBitsOfFlag(pp.pps.scalingListEnabled);
    if pp.pps.scalingListEnabled {
      ok := WriteScalingLists(bs, iq);
      if !ok {
        return;
      }
    }
    WriteGroup(bs, TAIL, TailValues(pp));
    ok := true;
  }

  /** Up to pps_loop_filter_across_slices_enabled_flag. */
  method WritePpsStart(bs: BSWriter, pp: PicParams, ppsId: nat)
    requires bs.Valid() && PpsBounds(pp) && ppsId <= 63
    modifies bs, bs.data
    ensures bs.Valid() && bs.text == old(bs.text) + PpsStart(pp, ppsId)
  {
    hide BSWriter.Valid, Print, Fit, PpsBounds, TileCode, UBits, UeCode;
    ValidatedBits(pp);
    ValuesFit(pp, ppsId, false);
    WriteGroup(bs, HEAD, HeadValues(pp, ppsId));
    if pp.pps.cuQpDeltaEnabled {
      bs.WriteUe(pp.pps.diffCuQpDeltaDepth);
    }
    WriteGroup(bs, MIDDLE, MiddleValues(pp));
    WriteTiles(bs, pp);
    bs.Write(if pp.pps.loopFilterAcrossSlices then 1 else 0, 1);
    UBitsOfFlag(pp.pps.loopFilterAcrossSlices);
  }

  // ---------- the raw buffer is large enough ----------

  lemma {:induction false} CoefLength(list: seq<Entry>, last: Entry)
    ensures |CoefCode(list, last)| <= 63 * |list|
  {
    hide Code;
    if |list| > 0 {
      CodeLength(Se(Wrapped(list[0], last)));
      CoefLength(list[1..], list[0]);
    }
  }

  lemma MatrixLength(m: Matrix)
    requires m.Valid()
    ensures |MatrixCode(m)| <= 4096
  {
    hide Code, CoefCode, Scanned;
    if m.sizeId > 1 {
      CodeLength(Se(m.dc - 8));
    }
    CoefLength(Scanned(m.values, m.Order()), if m.sizeId > 1 then m.dc else 8);
  }

  lemma {:induction false} MatricesLength(ms: seq<Matrix>)
    requires forall i :: 0 <= i < |ms| ==> ms[i].Valid()
    ensures |MatricesCode(ms)| <= 4096 * |ms|
  {
    hide MatrixCode, Matrix.Valid;
    if |ms| > 0 {
      MatrixLength(ms[0]);
      MatricesLength(ms[1..]);
    }
  }

  /** No bit of a picture parameter set is dropped. */
  lemma PpsFits(pp: PicParams, iq: IqMatrix, ppsId: nat)
    requires PpsBounds(pp) && iq.Valid() && ppsId <= 63
    ensures |PpsText(pp, iq, ppsId)| + 8 <= 8 * RAW_CAPACITY
  {
    hide Print, Fit, Matrices, MatricesCode, Uniform, HevcHeader, UeCode, PpsBounds;
    ValidatedBits(pp);
    ValuesFit(pp, ppsId, Uniform(pp));
    HevcHeaderFits(34);
    PrintLength(HEAD, HeadValues(pp, ppsId));
    PrintLength(MIDDLE, MiddleValues(pp));
    PrintLength(TAIL, TailValues(pp));
    PrintLength([SE, SE], DeblockingValues(pp));
    CodeLength(Ue(pp.pps.diffCuQpDeltaDepth));
    TileLength(pp);
    MatrixOrder(iq, 0, 0);
    MatricesLength(Matrices(iq, 0, 0));
  }

  lemma TileLength(pp: PicParams)
    requires PpsBounds(pp)
    ensures |TileCode(pp)| <= 3000
  {
    hide Print, Fit, Uniform, Ues, PpsBounds, Widths, Heights;
    TileCounts(pp);
    ValidatedBits(pp);
    ValuesFit(pp, 0, Uniform(pp));
    PrintLength(TILES, TileValues(pp, Uniform(pp)));
    PrintLength(Ues(|Widths(pp)|), Widths(pp));
    PrintLength(Ues(|Heights(pp)|), Heights(pp));
  }

  // ---------- the NAL unit ----------

  /** The bits of the NAL unit in front of its trailing bits. */
  function PpsText(pp: PicParams, iq: IqMatrix, ppsId: nat): seq<bool>
    requires iq.Valid()
  {
    HevcHeader(34) + PpsCode(pp, iq, ppsId)
  }

  /** Only a scaling list with a zero DC coefficient cannot be written. */
  predicate Printable(pp: PicParams, iq: IqMatrix)
    requires iq.Valid()
  {
    pp.pps.scalingListEnabled ==> NoZeroDc(iq)
  }

  method WritePps(buf: array<byte>, at: nat, bufSize: nat, pp: PicParams, iq: IqMatrix, ppsId: nat) returns (used: int)
    requires at + bufSize <= buf.Length && PpsBounds(pp) && iq.Valid() && ppsId <= 63
    modifies buf
    ensures var nal := NalOf(PpsText(pp, iq, ppsId)).nal;
            if Printable(pp, iq) && |nal| + 4 <= bufSize && |nal| + 4 <= INT_MAX then
              used == |nal| + 4 && buf[at..at + used] == [0, 0, 0, 1] + nal
            else used == -1
    ensures buf[..at] == old(buf[..at])
  {
    hide BSWriter.Valid, PpsText, PpsBounds, Matrices, NoZeroDc, NalOf;
    var raw := new byte[RAW_CAPACITY];
    var bs := new BSWriter(raw);
    var ok := WritePpsText(bs, pp, iq, ppsId);
    if !ok {
      return -1;
    }
    PpsFits(pp, iq, ppsId);
    used := Finish(bs, buf, at, bufSize);
  }

  /**
   The NAL unit as a decoder sees it: the stream can carry it, and behind its header the unescaped
   bits read as the intended fields and end in rbsp_trailing_bits().
   */
  lemma PpsNalDecodes(pp: PicParams, iq: IqMatrix, ppsId: nat)
    requires PpsBounds(pp) && iq.Valid() && ppsId <= 63 && Printable(pp, iq)
    ensures NalOf(PpsText(pp, iq, ppsId)).Valid()
    ensures ReadHevcUnit(Unescaped(NalOf(PpsText(pp, iq, ppsId)))) == Done(34, Payload(NalOf(PpsText(pp, iq, ppsId)), 16))
    ensures ReadPps(Payload(NalOf(PpsText(pp, iq, ppsId)), 16)) == Done(Intended(pp, iq, ppsId), Trailing(|PpsText(pp, iq, ppsId)|))
  {
    hide PpsCode, PpsBounds, Trailing, ReadPps, Intended, NalOf, HevcHeader, Payload, Unescaped, ReadHevcUnit, Printable;
    HevcHeaderFits(34);
    PayloadOf(HevcHeader(34), PpsCode(pp, iq, ppsId));
    ReadHevcUnitOf(34, Payload(NalOf(PpsText(pp, iq, ppsId)), 16));
    PpsRoundTrip(pp, iq, ppsId, Trailing(|PpsText(pp, iq, ppsId)|));
  }

  /** rk_hevc_write_picture_parameter_set. */
  method WritePictureParameterSet(buf: array<byte>, at: nat, bufSize: nat, pp: PicParams, hasIq: bool, iq: IqMatrix, ppsId: nat, profile: int)
    returns (used: int)
    requires at + bufSize <= buf.Length && WellFormed(pp) && iq.Valid()
    modifies buf
    ensures var nal := NalOf(PpsText(pp, iq, ppsId)).nal;
            if ppsId <= 63 && Validated(pp, profile, hasIq) && Printable(pp, iq) && |nal| + 4 <= bufSize && |nal| + 4 <= INT_MAX then
              used == |nal| + 4 && buf[at..at + used] == [0, 0, 0, 1] + nal
            else used == -1
    ensures ppsId > 63 || !Validated(pp, profile, hasIq) ==> buf[..] == old(buf[..])
    ensures buf[..at] == old(buf[..at])
  {
    hide PpsText, Validated, NalOf, Printable;
    var valid := Validate(pp, profile, hasIq);
    if ppsId > 63 || !valid {
      return -1;
    }
    ValidatedBounds(pp, profile, hasIq);
    used := WritePps(buf, at, bufSize, pp, iq, ppsId);
  }

  lemma ValidatedBounds(pp: PicParams, profile: int, hasIq: bool)
    requires Validated(pp, profile, hasIq)
    ensures PpsBounds(pp)
  {
  }
}
