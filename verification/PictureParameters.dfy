/** The VA-API structures the HEVC reconstruction reads, with their C widths. */
module PictureParameters {
  import opened Integers

  const VA_INVALID_SURFACE: u32 := 0xffff_ffff

  datatype PictureFlag = Invalid | LongTermReference | StCurrBefore | StCurrAfter | LtCurr | FieldPic

  /** VAPictureHEVC; the flag word is the set of its bits. */
  datatype Picture = Picture(id: u32, poc: i32, flags: set<PictureFlag>) {
    predicate Valid() {
      id != VA_INVALID_SURFACE && Invalid !in flags
    }

    /** The bits that put the picture into one of the "current" reference sets. */
    function RpsFlags(): set<PictureFlag> {
      flags * {StCurrBefore, StCurrAfter, LtCurr}
    }
  }

  datatype PicParams = PicParams(
    current: Picture,
    references: seq<Picture>,
    width: u16,
    height: u16,
    log2MinCbMinus3: u8,
    log2DiffMaxMinCb: u8,
    log2MaxPocLsbMinus4: u8,
    numShortTermSets: u8,
    numLongTermSps: u8,
    stRpsBits: u32,
    numExtraSliceHeaderBits: u8,
    longTermPresent: bool,
    dependentSlicesEnabled: bool,
    outputFlagPresent: bool,
    separateColourPlane: bool,
    sps: SpsParams,
    pps: PpsParams
  )

  /** The fields that only the sequence and video parameter sets carry. */
  datatype SpsParams = SpsParams(
    chromaFormatIdc: u8,
    maxDecPicBufferingMinus1: u8,
    noPicReordering: bool,
    bitDepthLumaMinus8: u8,
    bitDepthChromaMinus8: u8,
    log2MinTransformMinus2: u8,
    log2DiffMaxMinTransform: u8,
    maxDepthInter: u8,
    maxDepthIntra: u8,
    amp: bool,
    sampleAdaptiveOffset: bool,
    pcm: bool,
    pcmDepthLumaMinus1: u8,
    pcmDepthChromaMinus1: u8,
    log2MinPcmMinus3: u8,
    log2DiffMaxMinPcm: u8,
    pcmLoopFilterDisabled: bool,
    temporalMvp: bool,
    strongIntraSmoothing: bool
  )

  /** The fields that only the picture parameter set carries. */
  datatype PpsParams = PpsParams(
    signDataHiding: bool,
    cabacInitPresent: bool,
    numRefIdxL0Minus1: u8,
    numRefIdxL1Minus1: u8,
    initQpMinus26: i8,
    constrainedIntraPred: bool,
    transformSkip: bool,
    cuQpDeltaEnabled: bool,
    diffCuQpDeltaDepth: u8,
    cbQpOffset: i8,
    crQpOffset: i8,
    sliceChromaQpOffsetsPresent: bool,
    weightedPred: bool,
    weightedBipred: bool,
    transquantBypass: bool,
    tilesEnabled: bool,
    entropyCodingSync: bool,
    numTileColumnsMinus1: u8,
    numTileRowsMinus1: u8,
    columnWidthMinus1: seq<u16>,
    rowHeightMinus1: seq<u16>,
    loopFilterAcrossTiles: bool,
    loopFilterAcrossSlices: bool,
    deblockingOverrideEnabled: bool,
    disableDeblocking: bool,
    betaOffsetDiv2: i8,
    tcOffsetDiv2: i8,
    scalingListEnabled: bool,
    listsModificationPresent: bool,
    log2ParallelMergeLevelMinus2: u8,
    sliceHeaderExtensionPresent: bool
  )

  /** The arrays of the C structures have fixed lengths. */
  predicate WellFormed(pp: PicParams) {
    |pp.references| == 15 && |pp.pps.columnWidthMinus1| == 19 && |pp.pps.rowHeightMinus1| == 21
  }

  /** validate_slice_syntax_bounds. */
  predicate SliceSyntaxBounds(pp: PicParams) {
    && pp.current.Valid()
    && pp.width != 0 && pp.height != 0
    && pp.log2MinCbMinus3 <= 3 && pp.log2DiffMaxMinCb <= 3
    && pp.log2MaxPocLsbMinus4 <= 12
    && pp.numShortTermSets <= 64 && pp.numLongTermSps <= 32
    && pp.numExtraSliceHeaderBits <= 7
    && pp.log2MinCbMinus3 + 3 + pp.log2DiffMaxMinCb <= 6
  }

  function PocBits(pp: PicParams): nat {
    pp.log2MaxPocLsbMinus4 + 4
  }
}
