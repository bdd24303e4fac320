/**
 The level that src/hevc.c puts into its parameter sets, against table A.8 and section A.4.1 of H.265.
 */
module HevcLevel {
  import opened PictureParameters
  import opened PictureValidation
  import opened ReferencePictureSets
  import opened SliceMeaning
  import opened SliceAlignment

  /** derive_level_idc. */
  function LevelIdc(pp: PicParams): (level: nat)
    ensures level < 256
  {
    LevelFor(pp.width * pp.height)
  }

  function LevelFor(samples: nat): (level: nat)
    ensures level < 256
  {
    if samples <= 36864 then 30
    else if samples <= 122880 then 60
    else if samples <= 245760 then 63
    else if samples <= 552960 then 90
    else if samples <= 983040 then 93
    else if samples <= 2228224 then 123
    else if samples <= 8912896 then 156
    else 186
  }

  const LEVELS: set<nat> := {30, 60, 63, 90, 93, 123, 156, 186}

  /** MaxLumaPs of table A.8, for these levels. */
  function MaxLumaPs(level: nat): nat {
    if level == 30 then 36864
    else if level == 60 then 122880
    else if level == 63 then 245760
    else if level == 90 then 552960
    else if level == 93 then 983040
    else if level == 123 then 2228224
    else if level == 156 then 8912896
    else 35651584
  }

  function Square(n: nat): nat {
    n * n
  }

  /** The limits of section A.4.1 on the size of a picture. */
  predicate LevelAdmits(level: nat, width: nat, height: nat) {
    width * height <= MaxLumaPs(level) && Square(width) <= 8 * MaxLumaPs(level) && Square(height) <= 8 * MaxLumaPs(level)
  }

  /** The longest side for this many samples: the square root of eight times the next limit of the table, rounded down. */
  function LongestSide(samples: nat): nat {
    if samples <= 36864 then 543
    else if samples <= 122880 then 991
    else if samples <= 245760 then 1402
    else if samples <= 552960 then 2103
    else if samples <= 983040 then 2804
    else if samples <= 2228224 then 4222
    else if samples <= 8912896 then 8444
    else 16888
  }

  lemma SquareGrows(a: nat, b: nat)
    requires a <= b
    ensures Square(a) <= Square(b)
  {
    assert a * a <= a * b <= b * b;
  }

  lemma SquareAtMost(side: nat, root: nat, limit: nat)
    requires Square(root) <= limit < Square(root + 1)
    ensures Square(side) <= limit <==> side <= root
  {
    hide Square;
    if side <= root {
      SquareGrows(side, root);
    } else {
      SquareGrows(root + 1, side);
    }
  }

  lemma SideFits(side: nat, samples: nat)
    ensures Square(side) <= 8 * MaxLumaPs(LevelFor(samples)) <==> side <= LongestSide(samples)
  {
    SquareAtMost(side, LongestSide(samples), 8 * MaxLumaPs(LevelFor(samples)));
  }

  lemma LeastForSamples(samples: nat)
    ensures LevelFor(samples) in LEVELS && (samples <= MaxLumaPs(LevelFor(samples)) <==> samples <= 35651584)
    ensures forall level :: level in LEVELS && samples <= MaxLumaPs(level) ==> LevelFor(samples) <= level
    ensures samples > 35651584 ==> LevelFor(samples) == 186
  {
  }

  /**
   The level is the least of the table for the number of samples, and the highest beyond all of them.
   It admits the picture if and only if there are not too many samples for any level and no side is
   too long for their number.
   */
  lemma LevelAdmitsIff(pp: PicParams)
    ensures LevelIdc(pp) in LEVELS
    ensures forall level :: level in LEVELS && pp.width * pp.height <= MaxLumaPs(level) ==> LevelIdc(pp) <= level
    ensures pp.width * pp.height > 35651584 ==> LevelIdc(pp) == 186
    ensures LevelAdmits(LevelIdc(pp), pp.width, pp.height) <==>
            pp.width * pp.height <= 35651584 && pp.width <= LongestSide(pp.width * pp.height) && pp.height <= LongestSide(pp.width * pp.height)
  {
    hide Square, MaxLumaPs, LongestSide, LevelFor;
    LeastForSamples(pp.width * pp.height);
    SideFits(pp.width, pp.width * pp.height);
    SideFits(pp.height, pp.width * pp.height);
  }

  /**
   Some level of the table admits a picture exactly within the limits of the highest one; where none
   does, the code still answers with the level for the samples.
   */
  lemma SomeLevelAdmitsIff(width: nat, height: nat)
    ensures (exists level :: level in LEVELS && LevelAdmits(level, width, height)) <==>
            width * height <= 35651584 && width <= 16888 && height <= 16888
  {
    hide Square;
    LargestSquare();
    SquareAtMost(width, 16888, 8 * 35651584);
    SquareAtMost(height, 16888, 8 * 35651584);
    assert LevelAdmits(186, width, height) <==> width * height <= 35651584 && width <= 16888 && height <= 16888;
  }

  lemma LargestSquare()
    ensures Square(16888) <= 8 * 35651584 < Square(16889)
  {
  }

  /** A picture of 2048x16 samples. */
  function WidePicture(): PicParams {
    SamplePicture(0).(width := 2048, height := 16)
  }

  /** The driver accepts it and gives it level 1, which admits no side beyond 543 samples, although level 3 would do. */
  lemma WidePictureOutgrowsItsLevel() returns (pp: PicParams)
    ensures pp.width == 2048 && pp.height == 16 && Validated(pp, 1, false)
    ensures LevelIdc(pp) == 30 && !LevelAdmits(30, 2048, 16) && LevelAdmits(90, 2048, 16)
  {
    hide Validated, SamplePicture;
    pp := WidePicture();
    WideIsValid();
    assert Square(2048) == 4194304 && Square(16) == 256;
  }

  lemma WideIsValid()
    ensures Validated(WidePicture(), 1, false)
  {
    hide Acceptable;
    NothingGathered(WidePicture().references, WidePicture().current.poc);
  }
}
