/** validate_picture_parameters of src/hevc.c: what the parameter sets and the slices may rely on. */
module PictureValidation {
  import opened Integers
  import opened PictureParameters
  import opened ReferencePictureSets
  import opened SliceHeader
  import opened TileLayout

  function Widths(pp: PicParams): seq<u16> {
    if pp.pps.numTileColumnsMinus1 <= |pp.pps.columnWidthMinus1| then pp.pps.columnWidthMinus1[..pp.pps.numTileColumnsMinus1] else []
  }

  function Heights(pp: PicParams): seq<u16> {
    if pp.pps.numTileRowsMinus1 <= |pp.pps.rowHeightMinus1| then pp.pps.rowHeightMinus1[..pp.pps.numTileRowsMinus1] else []
  }

  /** The bounds the code of the picture parameter set needs. */
  predicate PpsBounds(pp: PicParams) {
    && WellFormed(pp) && SliceSyntaxBounds(pp)
    && pp.pps.numTileColumnsMinus1 <= 19 && pp.pps.numTileRowsMinus1 <= 21
    && (pp.pps.tilesEnabled ==> ExplicitFits(Widths(pp), WidthInCtbs(pp)) && ExplicitFits(Heights(pp), HeightInCtbs(pp)))
  }

  /** QpBdOffsetY of section 7.4.3.2.1. */
  function QpBdOffset(pp: PicParams): nat {
    6 * pp.sps.bitDepthLumaMinus8
  }

  /** Profile 1 is Main, profile 2 Main 10. */
  predicate DepthFits(pp: PicParams, profile: int) {
    && pp.sps.bitDepthLumaMinus8 == pp.sps.bitDepthChromaMinus8
    && (profile == 1 ==> pp.sps.bitDepthLumaMinus8 == 0)
    && (profile == 2 ==> pp.sps.bitDepthLumaMinus8 <= 2)
  }

  /** What the code asks of the sequence's fields. */
  predicate SpsBounds(pp: PicParams, profile: int) {
    && (profile == 1 || profile == 2) && DepthFits(pp, profile)
    && pp.sps.chromaFormatIdc == 1 && !pp.separateColourPlane && pp.sps.maxDecPicBufferingMinus1 <= 15
    && pp.sps.log2MinTransformMinus2 <= 3 && pp.sps.log2DiffMaxMinTransform <= 3
    && PcmFits(pp)
  }

  predicate PcmFits(pp: PicParams) {
    pp.sps.pcm ==>
      && pp.sps.pcmDepthLumaMinus1 <= 15 && pp.sps.pcmDepthChromaMinus1 <= 15 && pp.sps.log2MinPcmMinus3 <= 2
      && pp.sps.log2MinPcmMinus3 + pp.sps.log2DiffMaxMinPcm <= CtbLog2(pp) - 3
  }

  function CtbLog2(pp: PicParams): nat {
    pp.log2MinCbMinus3 + 3 + pp.log2DiffMaxMinCb
  }

  /** The coded size is whole coding blocks, and the quantisation groups are not smaller than these. */
  predicate BlocksFit(pp: PicParams)
    requires SliceSyntaxBounds(pp)
  {
    && pp.width % MinCbSize(pp) == 0 && pp.height % MinCbSize(pp) == 0
    && pp.pps.log2ParallelMergeLevelMinus2 <= CtbLog2(pp) - 2
    && (pp.pps.cuQpDeltaEnabled ==> pp.pps.diffCuQpDeltaDepth <= pp.log2DiffMaxMinCb)
  }

  function MinCbSize(pp: PicParams): (r: nat)
    requires pp.log2MinCbMinus3 <= 3
    ensures r > 0
  {
    if pp.log2MinCbMinus3 == 0 then 8 else if pp.log2MinCbMinus3 == 1 then 16 else if pp.log2MinCbMinus3 == 2 then 32 else 64
  }

  predicate OffsetsFit(pp: PicParams) {
    && pp.pps.numRefIdxL0Minus1 <= 14 && pp.pps.numRefIdxL1Minus1 <= 14
    && -12 <= pp.pps.cbQpOffset <= 12 && -12 <= pp.pps.crQpOffset <= 12
    && -6 <= pp.pps.betaOffsetDiv2 <= 6 && -6 <= pp.pps.tcOffsetDiv2 <= 6
    && -(26 + QpBdOffset(pp)) <= pp.pps.initQpMinus26 <= 25
  }

  /** validate_picture_parameters; `hasIq` says whether the application gave scaling lists. */
  predicate Validated(pp: PicParams, profile: int, hasIq: bool) {
    && PpsBounds(pp) && SpsBounds(pp, profile) && OffsetsFit(pp) && BlocksFit(pp)
    && (pp.pps.scalingListEnabled ==> hasIq)
    && Acceptable(pp.references, pp.current.poc)
  }

  method Validate(pp: PicParams, profile: int, hasIq: bool) returns (ok: bool)
    requires WellFormed(pp)
    ensures ok == Validated(pp, profile, hasIq)
  {
    hide Acceptable, ExplicitFits, MinCbSize;
    ok := ValidFields(pp, profile, hasIq);
    if !ok {
      return;
    }
    var minCbSize := MinCbSize(pp);
    if pp.width % minCbSize != 0 || pp.height % minCbSize != 0 || pp.pps.log2ParallelMergeLevelMinus2 > CtbLog2(pp) - 2 ||
       (pp.pps.cuQpDeltaEnabled && pp.pps.diffCuQpDeltaDepth > pp.log2DiffMaxMinCb) {
      return false;
    }
    if pp.sps.pcm && (pp.sps.pcmDepthLumaMinus1 > 15 || pp.sps.pcmDepthChromaMinus1 > 15 || pp.sps.log2MinPcmMinus3 > 2 ||
                      pp.sps.log2MinPcmMinus3 + pp.sps.log2DiffMaxMinPcm > CtbLog2(pp) - 3) {
      return false;
    }
    ok := ValidTiles(pp);
    if ok {
      var rps;
      ok, rps := CollectRps(pp);
    }
  }

  /** The plain range checks at the head of the function. */
  method ValidFields(pp: PicParams, profile: int, hasIq: bool) returns (ok: bool)
    requires WellFormed(pp)
    ensures ok <==>
            && (profile == 1 || profile == 2) && DepthFits(pp, profile) && OffsetsFit(pp) && SliceSyntaxBounds(pp)
            && pp.sps.chromaFormatIdc == 1 && !pp.separateColourPlane && pp.sps.maxDecPicBufferingMinus1 <= 15
            && pp.sps.log2MinTransformMinus2 <= 3 && pp.sps.log2DiffMaxMinTransform <= 3
            && pp.pps.numTileColumnsMinus1 <= 19 && pp.pps.numTileRowsMinus1 <= 21
            && (pp.pps.scalingListEnabled ==> hasIq)
  {
    if (profile != 1 && profile != 2) || !SliceSyntaxBounds(pp) || pp.sps.chromaFormatIdc != 1 || pp.separateColourPlane ||
       pp.sps.maxDecPicBufferingMinus1 > 15 || pp.sps.bitDepthLumaMinus8 != pp.sps.bitDepthChromaMinus8 ||
       (profile == 1 && pp.sps.bitDepthLumaMinus8 != 0) || (profile == 2 && pp.sps.bitDepthLumaMinus8 > 2) {
      return false;
    }
    if pp.sps.log2MinTransformMinus2 > 3 || pp.sps.log2DiffMaxMinTransform > 3 || pp.pps.numRefIdxL0Minus1 > 14 || pp.pps.numRefIdxL1Minus1 > 14 ||
       pp.pps.cbQpOffset < -12 || pp.pps.cbQpOffset > 12 || pp.pps.crQpOffset < -12 || pp.pps.crQpOffset > 12 ||
       pp.pps.betaOffsetDiv2 < -6 || pp.pps.betaOffsetDiv2 > 6 || pp.pps.tcOffsetDiv2 < -6 || pp.pps.tcOffsetDiv2 > 6 ||
       pp.pps.numTileColumnsMinus1 > 19 || pp.pps.numTileRowsMinus1 > 21 || (pp.pps.scalingListEnabled && !hasIq) {
      return false;
    }
    ok := -(26 + QpBdOffset(pp)) <= pp.pps.initQpMinus26 <= 25;
  }

  /** The tile sizes that are given leave something for the last column and row. */
  method ValidTiles(pp: PicParams) returns (ok: bool)
    requires WellFormed(pp) && SliceSyntaxBounds(pp) && pp.pps.numTileColumnsMinus1 <= 19 && pp.pps.numTileRowsMinus1 <= 21
    ensures ok == PpsBounds(pp)
  {
    if pp.pps.tilesEnabled {
      var columns, rows := pp.pps.numTileColumnsMinus1 + 1, pp.pps.numTileRowsMinus1 + 1;
      if columns > WidthInCtbs(pp) || rows > HeightInCtbs(pp) {
        return false;
      }
      var width := SumOfSizes(pp.pps.columnWidthMinus1, pp.pps.numTileColumnsMinus1);
      var height := SumOfSizes(pp.pps.rowHeightMinus1, pp.pps.numTileRowsMinus1);
      if width >= WidthInCtbs(pp) || height >= HeightInCtbs(pp) {
        return false;
      }
    }
    ok := true;
  }
}
