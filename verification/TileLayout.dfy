/**
 Tile columns and rows: what src/hevc.c validates and writes, against the sizes a decoder derives
 in section 6.5.1 of H.265.
 */
module TileLayout {
  import opened Bits
  import opened Integers

  // ---------- the decoder's sizes ----------

  /** Equations (6-3) and (6-4) with uniform spacing: tile i of n + 1 over `total` CTBs. */
  function UniformStart(i: nat, n: nat, total: nat): nat {
    (i * total) / (n + 1)
  }

  function UniformSizes(n: nat, total: nat): (r: seq<int>)
    ensures |r| == n + 1
  {
    seq(n + 1, i requires 0 <= i < n + 1 => UniformStart(i + 1, n, total) - UniformStart(i, n, total))
  }

  function Sum(s: seq<int>): int {
    if |s| == 0 then 0 else Sum(s[..|s| - 1]) + s[|s| - 1]
  }

  /** With explicit sizes the last tile gets what is left. */
  function ExplicitSizes(minus1: seq<nat>, total: nat): (r: seq<int>)
    ensures |r| == |minus1| + 1
  {
    Given(minus1) + [total - Sum(Given(minus1))]
  }

  /** The sizes that are spelled out. */
  function Given(minus1: seq<nat>): (r: seq<int>)
    ensures |r| == |minus1|
  {
    seq(|minus1|, i requires 0 <= i < |minus1| => minus1[i] + 1)
  }

  // ---------- what the code checks ----------

  /** The tile part of validate_picture_parameters, in one direction. */
  predicate ExplicitFits(minus1: seq<nat>, total: nat) {
    |minus1| + 1 <= total && Sum(Given(minus1)) < total
  }

  /** tile_spacing_is_uniform, in one direction. */
  predicate SpacedEvenly(minus1: seq<nat>, total: nat) {
    forall i :: 0 <= i < |minus1| ==> EvenAt(minus1, total, i)
  }

  predicate EvenAt(minus1: seq<nat>, total: nat, i: nat)
    requires i < |minus1|
  {
    var start, end := i * total / (|minus1| + 1), (i + 1) * total / (|minus1| + 1);
    end > start && minus1[i] == end - start - 1
  }

  /** One loop of tile_spacing_is_uniform. */
  method SpacingIsUniform(minus1: seq<u16>, n: nat, total: nat) returns (uniform: bool)
    requires n <= |minus1|
    ensures uniform == SpacedEvenly(minus1[..n], total)
  {
    for i := 0 to n
      invariant forall j :: 0 <= j < i ==> EvenAt(minus1[..n], total, j)
    {
      var start, end := (i * total) / (n + 1), ((i + 1) * total) / (n + 1);
      if end <= start || minus1[i] != end - start - 1 {
        assert !EvenAt(minus1[..n], total, i);
        return false;
      }
    }
    uniform := true;
  }

  /** One summing loop of validate_picture_parameters. */
  method SumOfSizes(minus1: seq<u16>, n: nat) returns (sum: nat)
    requires n <= |minus1|
    ensures sum == Sum(Given(minus1[..n]))
  {
    sum := 0;
    for i := 0 to n
      invariant sum == Sum(Given(minus1[..n])[..i])
    {
      var given := Given(minus1[..n]);
      assert given[..i + 1][..i] == given[..i];
      sum := sum + minus1[i] + 1;
    }
    assert Given(minus1[..n])[..n] == Given(minus1[..n]);
  }

  // ---------- theorems ----------

  lemma {:induction false} Telescope(n: nat, total: nat, k: nat)
    requires k <= n + 1
    ensures Sum(UniformSizes(n, total)[..k]) == UniformStart(k, n, total)
  {
    if k > 0 {
      Telescope(n, total, k - 1);
      assert UniformSizes(n, total)[..k][..k - 1] == UniformSizes(n, total)[..k - 1];
    } else {
      assert UniformStart(0, n, total) == 0;
    }
  }

  /** All tiles together are the picture. */
  lemma WholePicture(n: nat, total: nat)
    ensures UniformStart(n + 1, n, total) == total
  {
    var m := n + 1;
    assert m * total == total * m;
    ModUnique(m * total, m, total, 0);
  }

  lemma UniformCoversPicture(n: nat, total: nat)
    ensures Sum(UniformSizes(n, total)) == total
  {
    Telescope(n, total, n + 1);
    WholePicture(n, total);
    assert UniformSizes(n, total)[..n + 1] == UniformSizes(n, total);
  }

  lemma EvenAtIs(minus1: seq<nat>, total: nat, i: nat)
    requires i < |minus1|
    ensures EvenAt(minus1, total, i) <==> UniformSizes(|minus1|, total)[i] == minus1[i] + 1
  {
  }

  /** The code finds the spacing even exactly when the decoder's uniform sizes are the explicit ones, the last included. */
  lemma EvenMeansUniform(minus1: seq<nat>, total: nat)
    ensures SpacedEvenly(minus1, total) <==> UniformSizes(|minus1|, total) == ExplicitSizes(minus1, total)
  {
    hide UniformStart, UniformSizes, EvenAt;
    var n := |minus1|;
    var u := UniformSizes(n, total);
    forall i | 0 <= i < n
      ensures EvenAt(minus1, total, i) <==> u[i] == Given(minus1)[i]
    {
      EvenAtIs(minus1, total, i);
    }
    if SpacedEvenly(minus1, total) {
      assert u[..n] == Given(minus1);
      UniformCoversPicture(n, total);
      assert u == u[..n] + [u[n]];
    } else {
      var i :| 0 <= i < n && !EvenAt(minus1, total, i);
      assert u[i] != ExplicitSizes(minus1, total)[i];
    }
  }

  /**
   Whichever branch is written, a decoder rebuilds the sizes the application gave: all positive,
   and together the picture.
   */
  lemma TileSizesRecovered(minus1: seq<nat>, total: nat)
    requires ExplicitFits(minus1, total)
    ensures var sizes := ExplicitSizes(minus1, total);
            && (SpacedEvenly(minus1, total) <==> UniformSizes(|minus1|, total) == sizes)
            && Sum(sizes) == total
            && (forall i :: 0 <= i < |sizes| ==> sizes[i] > 0)
            && (forall i :: 0 <= i < |minus1| ==> sizes[i] == minus1[i] + 1)
  {
    EvenMeansUniform(minus1, total);
    var sizes := ExplicitSizes(minus1, total);
    assert sizes[..|minus1|] == Given(minus1);
  }
}
