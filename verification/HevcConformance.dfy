/**
 What validate_picture_parameters decides, in the variables of H.265: the ranges of sections 7.4.3.2 and
 7.4.3.3 and of the Main and Main 10 profiles, tiles that leave room for the last one, and references that
 a reference picture set can express.
 */
module HevcConformance {
  import opened Integers
  import opened Bits
  import opened PictureParameters
  import opened ReferencePictureSets
  import opened SliceHeader
  import opened SliceMeaning
  import opened TileLayout
  import opened PictureValidation

  /** Profile 1 is Main, with 8 bits, profile 2 Main 10; both are 4:2:0. */
  predicate ProfileRanges(pp: PicParams, profile: int) {
    var depthLuma, depthChroma := 8 + pp.sps.bitDepthLumaMinus8, 8 + pp.sps.bitDepthChromaMinus8;
    && pp.sps.chromaFormatIdc == 1 && !pp.separateColourPlane && depthLuma == depthChroma
    && if profile == 1 then depthLuma == 8 else profile == 2 && depthLuma <= 10
  }

  /** Section 7.4.3.2: buffering and block sizes. */
  predicate SequenceRanges(pp: PicParams) {
    var minCbLog2 := pp.log2MinCbMinus3 + 3;
    var ctbLog2 := minCbLog2 + pp.log2DiffMaxMinCb;
    var minPcmLog2 := pp.sps.log2MinPcmMinus3 + 3;
    && pp.sps.maxDecPicBufferingMinus1 + 1 <= 16
    && pp.width % Pow2(minCbLog2) == 0 && pp.height % Pow2(minCbLog2) == 0
    && pp.sps.log2MinTransformMinus2 + 2 <= 5 && pp.sps.log2DiffMaxMinTransform <= 3
    && (pp.sps.pcm ==>
          && pp.sps.pcmDepthLumaMinus1 + 1 <= 16 && pp.sps.pcmDepthChromaMinus1 + 1 <= 16
          && minPcmLog2 <= 5 && minPcmLog2 + pp.sps.log2DiffMaxMinPcm <= ctbLog2)
  }

  /** Section 7.4.3.3: quantization, references, merging and the filter. */
  predicate PictureRanges(pp: PicParams) {
    var ctbLog2 := pp.log2MinCbMinus3 + 3 + pp.log2DiffMaxMinCb;
    var qpBdOffset := 6 * pp.sps.bitDepthLumaMinus8;
    && pp.pps.numRefIdxL0Minus1 + 1 <= 15 && pp.pps.numRefIdxL1Minus1 + 1 <= 15
    && -qpBdOffset <= 26 + pp.pps.initQpMinus26 <= 51
    && -12 <= pp.pps.cbQpOffset <= 12 && -12 <= pp.pps.crQpOffset <= 12
    && -6 <= pp.pps.betaOffsetDiv2 <= 6 && -6 <= pp.pps.tcOffsetDiv2 <= 6
    && pp.pps.log2ParallelMergeLevelMinus2 + 2 <= ctbLog2
    && (pp.pps.cuQpDeltaEnabled ==> pp.pps.diffCuQpDeltaDepth <= pp.log2DiffMaxMinCb)
  }

  /** The CTBs that the first `n` sizes take. */
  function Taken(minus1: seq<nat>, n: nat): nat
    requires n <= |minus1|
  {
    if n == 0 then 0 else Taken(minus1, n - 1) + minus1[n - 1] + 1
  }

  /** At most 20 by 22 tiles (table A.8), the last column and row not empty in a picture of width by height CTBs. */
  predicate TileRanges(pp: PicParams, width: nat, height: nat)
    requires WellFormed(pp)
  {
    var columns, rows := pp.pps.numTileColumnsMinus1 + 1, pp.pps.numTileRowsMinus1 + 1;
    && columns <= 20 && rows <= 22
    && (pp.pps.tilesEnabled ==> Taken(pp.pps.columnWidthMinus1, columns - 1) < width && Taken(pp.pps.rowHeightMinus1, rows - 1) < height)
  }

  lemma {:induction false} TakenIsSum(minus1: seq<nat>, n: nat)
    requires n <= |minus1|
    ensures Sum(Given(minus1[..n])) == Taken(minus1, n) >= n
  {
    if n > 0 {
      TakenIsSum(minus1, n - 1);
      assert Given(minus1[..n])[..n - 1] == Given(minus1[..n - 1]);
    }
  }

  lemma MinCbSizeIs(pp: PicParams)
    requires pp.log2MinCbMinus3 <= 3
    ensures MinCbSize(pp) == Pow2(pp.log2MinCbMinus3 + 3)
  {
    Pow2Values();
    assert Pow2(3) == 8 && Pow2(5) == 32 && Pow2(6) == 64;
  }

  lemma TilesFit(pp: PicParams, width: nat, height: nat)
    requires WellFormed(pp) && SliceSyntaxBounds(pp) && WidthInCtbs(pp) == width && HeightInCtbs(pp) == height
    ensures PpsBounds(pp) <==> TileRanges(pp, width, height)
  {
    hide Sum, Given;
    if pp.pps.numTileColumnsMinus1 <= 19 && pp.pps.numTileRowsMinus1 <= 21 {
      TakenIsSum(pp.pps.columnWidthMinus1, pp.pps.numTileColumnsMinus1);
      TakenIsSum(pp.pps.rowHeightMinus1, pp.pps.numTileRowsMinus1);
    }
  }

  lemma RangesAgree(pp: PicParams, profile: int)
    requires SliceSyntaxBounds(pp)
    ensures SpsBounds(pp, profile) && OffsetsFit(pp) && BlocksFit(pp) <==> ProfileRanges(pp, profile) && SequenceRanges(pp) && PictureRanges(pp)
  {
    hide Pow2;
    MinCbSizeIs(pp);
  }

  /** A picture is accepted if and only if it keeps to those ranges; `width` and `height` are its sides in CTBs. */
  lemma ValidatedIff(pp: PicParams, profile: int, hasIq: bool, width: nat, height: nat)
    requires WellFormed(pp)
    requires var ctb := Pow2(pp.log2MinCbMinus3 + 3 + pp.log2DiffMaxMinCb);
             WithinLimits(pp) ==> Covers(width, ctb, pp.width) && Covers(height, ctb, pp.height)
    ensures Validated(pp, profile, hasIq) <==>
            && WithinLimits(pp) && ProfileRanges(pp, profile) && SequenceRanges(pp) && PictureRanges(pp) && TileRanges(pp, width, height)
            && (pp.pps.scalingListEnabled ==> hasIq) && Describable(pp.references, pp.current.poc)
  {
    hide Pow2, WithinLimits, SliceSyntaxBounds, SpsBounds, OffsetsFit, BlocksFit, PpsBounds, Acceptable, Describable, ProfileRanges, SequenceRanges, PictureRanges,
      TileRanges, Covers, CtbSize;
    LimitsAre(pp);
    AcceptableIff(pp.references, pp.current.poc);
    if WithinLimits(pp) {
      CtbIs(pp);
      CoversIs(width, CtbSize(pp), pp.width);
      CoversIs(height, CtbSize(pp), pp.height);
      TilesFit(pp, width, height);
      RangesAgree(pp, profile);
    } else {
      NoBounds(pp);
    }
  }

  lemma CtbIs(pp: PicParams)
    ensures CtbSize(pp) == Pow2(pp.log2MinCbMinus3 + 3 + pp.log2DiffMaxMinCb)
  {
  }

  lemma NoBounds(pp: PicParams)
    ensures PpsBounds(pp) ==> SliceSyntaxBounds(pp)
  {
  }
}
