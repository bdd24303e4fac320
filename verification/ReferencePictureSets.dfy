/**
 Reference picture sets: how src/hevc.c collects them from the DPB, sorts them in place and
 writes them into a slice header, against the decoder of sections 7.3.7, 7.4.7.1, 7.4.8 and
 8.3.2 of H.265.
 */
module ReferencePictureSets {
  import opened Integers
  import opened Bits
  import opened ExpGolomb
  import opened PictureParameters
  import opened BitWriter

  datatype Entry = Entry(delta: nat, poc: i32, used: bool)

  datatype Rps = Rps(negative: seq<Entry>, positive: seq<Entry>, longTerm: seq<Entry>)

  // ---------- collection from the DPB ----------

  datatype Class = Skip | Reject | Negative(e: Entry) | Positive(e: Entry) | LongTerm(e: Entry)

  /** One iteration of collect_rps. */
  function Classify(ref: Picture, current: i32): Class {
    var delta := ref.poc - current;
    var curr := ref.RpsFlags();
    if !ref.Valid() then Skip
    else if |curr| > 1 then Reject
    else if LongTermReference in ref.flags || curr == {LtCurr} then
      LongTerm(Entry(0, ref.poc, curr == {LtCurr}))
    else if delta < 0 then
      if -delta > 0xffff then Reject else Negative(Entry(-delta, ref.poc, curr != {}))
    else if delta > 0 then
      if delta > 0xffff then Reject else Positive(Entry(delta, ref.poc, curr != {}))
    else Reject
  }

  predicate Acceptable(refs: seq<Picture>, current: i32) {
    forall i :: 0 <= i < |refs| ==> Classify(refs[i], current) != Reject
  }

  function Add(r: Rps, c: Class): Rps {
    match c
    case Negative(e) => r.(negative := r.negative + [e])
    case Positive(e) => r.(positive := r.positive + [e])
    case LongTerm(e) => r.(longTerm := r.longTerm + [e])
    case _ => r
  }

  /** The entries in DPB order. */
  function Gathered(refs: seq<Picture>, current: i32): (r: Rps)
    ensures |r.negative| + |r.positive| + |r.longTerm| <= |refs|
  {
    if |refs| == 0 then Rps([], [], [])
    else Add(Gathered(refs[..|refs| - 1], current), Classify(refs[|refs| - 1], current))
  }

  /** The reference picture set that collect_rps leaves behind when it succeeds. */
  function Collected(refs: seq<Picture>, current: i32): Rps {
    var r := Gathered(refs, current);
    Rps(Sorted(r.negative), Sorted(r.positive), r.longTerm)
  }

  /** struct HEVCRPS. */
  class HEVCRPS {
    const negative: array<Entry>
    const positive: array<Entry>
    const longTerm: array<Entry>
    var negativeCount: nat
    var positiveCount: nat
    var longTermCount: nat

    ghost predicate Valid()
      reads this
    {
      && negative.Length == positive.Length == longTerm.Length == 15
      && negative != positive && positive != longTerm && longTerm != negative
      && negativeCount <= 15 && positiveCount <= 15 && longTermCount <= 15
    }

    ghost function Repr(): set<object> {
      {this, negative, positive, longTerm}
    }

    ghost function View(): Rps
      requires Valid()
      reads this, negative, positive, longTerm
    {
      Rps(negative[..negativeCount], positive[..positiveCount], longTerm[..longTermCount])
    }

    constructor ()
      ensures Valid() && fresh(Repr()) && View() == Rps([], [], [])
    {
      var none := Entry(0, 0, false);
      negative := new Entry[15](_ => none);
      positive := new Entry[15](_ => none);
      longTerm := new Entry[15](_ => none);
      negativeCount, positiveCount, longTermCount := 0, 0, 0;
    }

    /** The body of the collect_rps loop. */
    method Collect(ref: Picture, current: i32) returns (ok: bool)
      requires Valid()
      requires |View().negative| + |View().positive| + |View().longTerm| < 15
      modifies Repr()
      ensures Valid()
      ensures ok == (Classify(ref, current) != Reject)
      ensures ok ==> View() == Add(old(View()), Classify(ref, current))
    {
      if !ref.Valid() {
        return true;
      }
      var rpsFlags := ref.RpsFlags();
      if |rpsFlags| > 1 {
        return false;
      }
      if negativeCount + positiveCount + longTermCount >= 15 {
        return false;
      }
      var delta := ref.poc - current;
      if LongTermReference in ref.flags || rpsFlags == {LtCurr} {
        longTerm[longTermCount] := Entry(0, ref.poc, rpsFlags == {LtCurr});
        longTermCount := longTermCount + 1;
      } else if delta < 0 {
        if -delta > 0xffff {
          return false;
        }
        negative[negativeCount] := Entry(-delta, ref.poc, rpsFlags != {});
        negativeCount := negativeCount + 1;
      } else if delta > 0 {
        if delta > 0xffff {
          return false;
        }
        positive[positiveCount] := Entry(delta, ref.poc, rpsFlags != {});
        positiveCount := positiveCount + 1;
      } else {
        return false;
      }
      return true;
    }
  }

  method CollectRps(pp: PicParams) returns (ok: bool, rps: HEVCRPS)
    requires WellFormed(pp)
    ensures rps.Valid() && fresh(rps.Repr())
    ensures ok == Acceptable(pp.references, pp.current.poc)
    ensures ok ==> rps.View() == Collected(pp.references, pp.current.poc)
  {
    ghost var refs, current := pp.references, pp.current.poc;
    rps := new HEVCRPS();
    for i := 0 to 15
      invariant rps.Valid() && fresh(rps.Repr())
      invariant Acceptable(refs[..i], current) && rps.View() == Gathered(refs[..i], current)
    {
      hide Classify, Add;
      assert refs[..i + 1][..i] == refs[..i] && refs[..i + 1][i] == refs[i];
      ok := rps.Collect(pp.references[i], pp.current.poc);
      if !ok {
        return;
      }
    }
    assert refs[..15] == refs;
    SortEntries(rps.negative, rps.negativeCount);
    SortEntries(rps.positive, rps.positiveCount);
    return true, rps;
  }

  // ---------- sorting ----------

  /** `e` placed behind the last element whose delta is not larger. */
  function Insert(s: seq<Entry>, e: Entry): (r: seq<Entry>)
    ensures |r| == |s| + 1
  {
    if |s| > 0 && s[|s| - 1].delta > e.delta then Insert(s[..|s| - 1], e) + [s[|s| - 1]] else s + [e]
  }

  function Sorted(s: seq<Entry>): (r: seq<Entry>)
    ensures |r| == |s|
  {
    if |s| == 0 then [] else Insert(Sorted(s[..|s| - 1]), s[|s| - 1])
  }

  /** sort_entries: the insertion sort, shifting in place. */
  method SortEntries(values: array<Entry>, count: nat)
    requires count <= values.Length
    modifies values
    ensures values[..count] == Sorted(old(values[..count]))
    ensures values[count..] == old(values[count..])
  {
    ghost var original := values[..];
    for i := 0 to count
      invariant values[..i] == Sorted(original[..i])
      invariant values[i..] == original[i..]
    {
      hide Insert;
      assert original[..i + 1][..i] == original[..i];
      InsertShifting(values, i);
    }
  }

  /** One round of the sort: values[i] moves into the sorted prefix before it. */
  method InsertShifting(values: array<Entry>, i: nat)
    requires i < values.Length
    modifies values
    ensures values[..i + 1] == Insert(old(values[..i]), old(values[i]))
    ensures values[i + 1..] == old(values[i + 1..])
  {
    hide Insert;
    var value := values[i];
    ghost var prefix, tail := values[..i], values[i + 1..];
    var j := i;
    while j > 0 && values[j - 1].delta > value.delta
      invariant 0 <= j <= i && HoleAt(values[..], prefix, j, tail)
      invariant Insert(prefix, value) == Insert(prefix[..j], value) + prefix[j..]
    {
      InsertStep(prefix, j, value);
      ShiftHole(values[..], prefix, j, tail);
      values[j] := values[j - 1];
      j := j - 1;
    }
    InsertStep(prefix, j, value);
    FillHole(values[..], prefix, j, tail, value);
    values[j] := value;
    assert values[..][..i + 1] == values[..i + 1] && values[..][i + 1..] == values[i + 1..];
  }

  /** The prefix is in place around position `j`, the part from `j` on moved up by one. */
  predicate HoleAt(v: seq<Entry>, prefix: seq<Entry>, j: nat, tail: seq<Entry>) {
    |v| == |prefix| + 1 + |tail| && j <= |prefix| && v[..j] == prefix[..j] && v[j + 1..] == prefix[j..] + tail
  }

  lemma ShiftHole(v: seq<Entry>, prefix: seq<Entry>, j: nat, tail: seq<Entry>)
    requires j > 0 && HoleAt(v, prefix, j, tail)
    ensures v[j - 1] == prefix[j - 1] && HoleAt(v[j := v[j - 1]], prefix, j - 1, tail)
  {
    var w := v[j := v[j - 1]];
    assert v[j - 1] == v[..j][j - 1] == prefix[j - 1];
    assert w[..j - 1] == v[..j][..j - 1] && w[j..] == [v[j - 1]] + v[j + 1..];
    assert prefix[j - 1..] == [prefix[j - 1]] + prefix[j..];
  }

  lemma FillHole(v: seq<Entry>, prefix: seq<Entry>, j: nat, tail: seq<Entry>, value: Entry)
    requires HoleAt(v, prefix, j, tail)
    ensures var w := v[j := value]; var i := |prefix|;
            w[..i + 1] == prefix[..j] + [value] + prefix[j..] && w[i + 1..] == tail
  {
    var w := v[j := value];
    assert w == v[..j] + [value] + v[j + 1..];
    assert w == (prefix[..j] + [value] + prefix[j..]) + tail;
  }

  lemma InsertStep(s: seq<Entry>, j: nat, e: Entry)
    requires j <= |s|
    ensures if j > 0 && s[j - 1].delta > e.delta then
              Insert(s[..j], e) + s[j..] == Insert(s[..j - 1], e) + s[j - 1..]
            else Insert(s[..j], e) == s[..j] + [e]
  {
    if j > 0 {
      assert s[..j][..j - 1] == s[..j - 1];
      assert s[j - 1..] == [s[j - 1]] + s[j..];
    }
  }

  predicate NonDecreasing(s: seq<Entry>) {
    forall i, j :: 0 <= i < j < |s| ==> s[i].delta <= s[j].delta
  }

  predicate Increasing(s: seq<Entry>) {
    forall i, j :: 0 <= i < j < |s| ==> s[i].delta < s[j].delta
  }

  lemma {:induction false} InsertMembers(s: seq<Entry>, e: Entry)
    ensures multiset(Insert(s, e)) == multiset(s) + multiset{e}
  {
    if |s| > 0 && s[|s| - 1].delta > e.delta {
      InsertMembers(s[..|s| - 1], e);
      assert s == s[..|s| - 1] + [s[|s| - 1]];
    }
  }

  lemma FrontIsSmaller(s: seq<Entry>, x: Entry)
    requires NonDecreasing(s) && |s| > 0 && x in multiset(s[..|s| - 1])
    ensures x.delta <= s[|s| - 1].delta
  {
    var i :| 0 <= i < |s| - 1 && s[i] == x;
  }

  lemma {:induction false} InsertKeepsOrder(s: seq<Entry>, e: Entry)
    requires NonDecreasing(s)
    ensures NonDecreasing(Insert(s, e)) && multiset(Insert(s, e)) == multiset(s) + multiset{e}
  {
    InsertMembers(s, e);
    if |s| > 0 && s[|s| - 1].delta > e.delta {
      hide NonDecreasing;
      var front, last := s[..|s| - 1], s[|s| - 1];
      FrontKeepsOrder(s);
      InsertKeepsOrder(front, e);
      forall x | x in multiset(Insert(front, e))
        ensures x.delta <= last.delta
      {
        if x != e {
          FrontIsSmaller(s, x);
        }
      }
      AppendKeepsOrder(Insert(front, e), last);
    } else {
      forall x | x in multiset(s)
        ensures x.delta <= e.delta
      {
        LastIsLargest(s, x);
      }
      AppendKeepsOrder(s, e);
    }
  }

  lemma FrontKeepsOrder(s: seq<Entry>)
    requires NonDecreasing(s) && |s| > 0
    ensures NonDecreasing(s[..|s| - 1])
  {
  }

  lemma LastIsLargest(s: seq<Entry>, x: Entry)
    requires NonDecreasing(s) && x in multiset(s)
    ensures |s| > 0 && x.delta <= s[|s| - 1].delta
  {
    var i :| 0 <= i < |s| && s[i] == x;
  }

  lemma AppendKeepsOrder(s: seq<Entry>, e: Entry)
    requires NonDecreasing(s) && forall x :: x in multiset(s) ==> x.delta <= e.delta
    ensures NonDecreasing(s + [e])
  {
    forall i | 0 <= i < |s|
      ensures s[i].delta <= e.delta
    {
      assert s[i] in multiset(s);
    }
  }

  lemma {:induction false} SortedIsSorted(s: seq<Entry>)
    ensures NonDecreasing(Sorted(s)) && multiset(Sorted(s)) == multiset(s)
  {
    if |s| > 0 {
      SortedIsSorted(s[..|s| - 1]);
      InsertKeepsOrder(Sorted(s[..|s| - 1]), s[|s| - 1]);
      assert s == s[..|s| - 1] + [s[|s| - 1]];
    }
  }

  lemma SortedMembers(s: seq<Entry>)
    ensures forall e :: e in Sorted(s) <==> e in s
  {
    SortedIsSorted(s);
    forall e
      ensures e in Sorted(s) <==> e in s
    {
      assert e in Sorted(s) <==> e in multiset(Sorted(s));
      assert e in s <==> e in multiset(s);
    }
  }

  // ---------- short-term sets ----------

  /** One signed list of entries: each delta is coded against its predecessor, less one, in uint32_t. */
  function DeltaCode(s: seq<Entry>, previous: nat): seq<bool>
  {
    if |s| == 0 then []
    else UeCode32((s[0].delta - previous - 1) % WORD) + ([s[0].used] + DeltaCode(s[1..], s[0].delta))
  }

  /** st_ref_pic_set() as write_short_term_rps codes it. */
  function ShortTermCode(rps: Rps, index: nat): seq<bool>
    requires |rps.negative| < WORD && |rps.positive| < WORD
  {
    (if index > 0 then [false] else [])
    + (UeCode32(|rps.negative|)
       + (UeCode32(|rps.positive|)
          + (DeltaCode(rps.negative, 0) + DeltaCode(rps.positive, 0))))
  }

  method WriteShortTermRps(bs: BSWriter, rps: HEVCRPS, index: nat)
    requires bs.Valid() && rps.Valid() && {bs, bs.data} !! rps.Repr()
    modifies bs, bs.data
    ensures bs.Valid() && bs.text == old(bs.text) + ShortTermCode(rps.View(), index)
  {
    hide BSWriter.Valid, UeCode32, DeltaCode;
    if index > 0 {
      bs.Write(0, 1);
      UBitsOfFlag(false);
    }
    bs.WriteUe(rps.negativeCount);
    bs.WriteUe(rps.positiveCount);
    WriteDeltas(bs, rps.negative, rps.negativeCount);
    WriteDeltas(bs, rps.positive, rps.positiveCount);
  }

  /** The two loops of write_short_term_rps. */
  method WriteDeltas(bs: BSWriter, entries: array<Entry>, count: nat)
    requires bs.Valid() && count <= entries.Length && bs.data as object != entries
    modifies bs, bs.data
    ensures bs.Valid() && bs.text == old(bs.text) + DeltaCode(entries[..count], 0)
  {
    hide BSWriter.Valid, DeltaCode, UeCode32, UeCode, UBits;
    ghost var start, code := bs.text, DeltaCode(entries[..count], 0);
    ghost var done: nat := 0;
    var previous := 0;
    for i := 0 to count
      invariant bs.Valid() && done <= |code| && bs.text == start + code[..done]
      invariant code[done..] == DeltaCode(entries[i..count], previous)
    {
      ghost var todo := code[done..];
      DeltaStep(entries[i..count], entries[i + 1..count], previous);
      var gap := (entries[i].delta - previous - 1) % WORD;
      bs.WriteUe(gap);
      bs.Write(if entries[i].used then 1 else 0, 1);
      UBitsOfFlag(entries[i].used);
      ghost var piece := UeCode32(gap) + [entries[i].used];
      assert todo == piece + DeltaCode(entries[i + 1..count], entries[i].delta);
      SplitFront(code, done, piece, DeltaCode(entries[i + 1..count], entries[i].delta));
      done := done + |piece|;
      previous := entries[i].delta;
    }
    DeltaNothing(entries[count..count], previous);
  }

  lemma DeltaNothing(s: seq<Entry>, previous: nat)
    requires s == []
    ensures DeltaCode(s, previous) == []
  {
  }

  lemma DeltaStep(s: seq<Entry>, tail: seq<Entry>, previous: nat)
    requires |s| > 0 && tail == s[1..]
    ensures DeltaCode(s, previous)
         == UeCode32((s[0].delta - previous - 1) % WORD) + ([s[0].used] + DeltaCode(tail, s[0].delta))
  {
  }

  // ---------- the decoder's view of a short-term set (sections 7.3.7 and 7.4.8) ----------

  /** DeltaPocS0[i] or DeltaPocS1[i], and the matching UsedByCurrPic flag. */
  datatype Delta = Delta(poc: int, used: bool)

  datatype ShortTermSet = ShortTermSet(s0: seq<Delta>, s1: seq<Delta>)

  function ReadDeltas(n: nat, previous: int, below: bool, bits: seq<bool>): Parsed<seq<Delta>> {
    if n == 0 then Done([], bits)
    else
      var (minus1, b1) :- ReadUe(bits);
      var (used, b2) :- ReadFlag(b1);
      var poc := if below then previous - (minus1 + 1) else previous + (minus1 + 1);
      var (others, rest) :- ReadDeltas(n - 1, poc, below, b2);
      Done([Delta(poc, used)] + others, rest)
  }

  /** st_ref_pic_set(index) without inter prediction, the only form the rewriter emits. */
  function ReadShortTermSet(index: nat, bits: seq<bool>): Parsed<ShortTermSet> {
    if index == 0 then ReadExplicitSet(bits)
    else
      var (predicted, b0) :- ReadFlag(bits);
      if predicted then Stuck else ReadExplicitSet(b0)
  }

  function ReadExplicitSet(bits: seq<bool>): Parsed<ShortTermSet> {
    var (n0, b1) :- ReadUe(bits);
    var (n1, b2) :- ReadUe(b1);
    ReadBothSides(n0, n1, b2)
  }

  function ReadBothSides(n0: nat, n1: nat, bits: seq<bool>): Parsed<ShortTermSet> {
    var (s0, b1) :- ReadDeltas(n0, 0, true, bits);
    var (s1, rest) :- ReadDeltas(n1, 0, false, b1);
    Done(ShortTermSet(s0, s1), rest)
  }

  function Signed(d: int, below: bool): int {
    if below then -d else d
  }

  function SignedDelta(e: Entry, below: bool): Delta {
    Delta(Signed(e.delta, below), e.used)
  }

  function SignedDeltas(s: seq<Entry>, below: bool): (r: seq<Delta>)
    ensures |r| == |s|
  {
    seq(|s|, i requires 0 <= i < |s| => SignedDelta(s[i], below))
  }

  /** The set a decoder should see. */
  function SetOf(rps: Rps): ShortTermSet {
    ShortTermSet(SignedDeltas(rps.negative, true), SignedDeltas(rps.positive, false))
  }

  predicate ShortTermBounds(s: seq<Entry>) {
    |s| <= 15 && forall i :: 0 <= i < |s| ==> 1 <= s[i].delta <= 0xffff
  }

  predicate Above(s: seq<Entry>, previous: nat) {
    forall i :: 0 <= i < |s| ==> previous < s[i].delta <= 0xffff
  }

  lemma {:induction false} ReadDeltasOfCode(s: seq<Entry>, previous: nat, below: bool, rest: seq<bool>)
    requires Increasing(s) && Above(s, previous)
    ensures ReadDeltas(|s|, Signed(previous, below), below, DeltaCode(s, previous) + rest)
         == Done(SignedDeltas(s, below), rest)
    decreases |s|
  {
    hide UeCode, ReadUe;
    if |s| > 0 {
      var tail, d := s[1..], s[0].delta;
      var gap := d - previous - 1;
      var b2 := DeltaCode(tail, d) + rest;
      assert DeltaCode(s, previous) + rest == UeCode(gap) + ([s[0].used] + b2);
      ReadUeOfUeCode(gap, [s[0].used] + b2);
      ReadFlagOf(s[0].used, b2);
      ReadDeltasOfCode(tail, d, below, rest);
      assert SignedDeltas(s, below) == [SignedDelta(s[0], below)] + SignedDeltas(tail, below);
    } else {
      assert DeltaCode(s, previous) + rest == rest;
    }
  }

  /** Whatever a decoder reads moves strictly away from the current picture. */
  lemma {:induction false} ReadDeltasMoveAway(n: nat, previous: int, below: bool, bits: seq<bool>)
    requires ReadDeltas(n, previous, below, bits).Done?
    ensures var r := ReadDeltas(n, previous, below, bits).value;
            && |r| == n
            && (forall i :: 0 <= i < n ==> if below then r[i].poc < previous else r[i].poc > previous)
            && (forall i, j :: 0 <= i < j < n ==> if below then r[j].poc < r[i].poc else r[j].poc > r[i].poc)
  {
    hide ReadUe;
    if n > 0 {
      var b1 := ReadUe(bits);
      var b2 := ReadFlag(b1.rest);
      var poc := if below then previous - (b1.value + 1) else previous + (b1.value + 1);
      ReadDeltasMoveAway(n - 1, poc, below, b2.rest);
    }
  }

  /**
   Short-term sets survive the slice header exactly when the deltas of either side strictly
   increase; a repeated delta makes the uint32_t subtraction wrap.
   */
  lemma {:induction false} ShortTermRoundTrip(rps: Rps, index: nat, rest: seq<bool>)
    requires ShortTermBounds(rps.negative) && ShortTermBounds(rps.positive)
    ensures ReadShortTermSet(index, ShortTermCode(rps, index) + rest) == Done(SetOf(rps), rest)
            <==> Increasing(rps.negative) && Increasing(rps.positive)
  {
    var b3 := DeltaCode(rps.negative, 0) + (DeltaCode(rps.positive, 0) + rest);
    ReadCounts(rps, index, rest, b3);
    BothSidesRoundTrip(rps, rest);
  }

  lemma {:induction false} ReadCounts(rps: Rps, index: nat, rest: seq<bool>, b3: seq<bool>)
    requires ShortTermBounds(rps.negative) && ShortTermBounds(rps.positive)
    requires b3 == DeltaCode(rps.negative, 0) + (DeltaCode(rps.positive, 0) + rest)
    ensures ReadShortTermSet(index, ShortTermCode(rps, index) + rest)
         == ReadBothSides(|rps.negative|, |rps.positive|, b3)
  {
    hide UeCode, ReadUe, DeltaCode, ReadBothSides;
    var n0, n1 := |rps.negative|, |rps.positive|;
    var b1 := UeCode(n0) + (UeCode(n1) + b3);
    ReadUeOfUeCode(n0, UeCode(n1) + b3);
    ReadUeOfUeCode(n1, b3);
    assert ReadExplicitSet(b1) == ReadBothSides(n0, n1, b3);
    if index > 0 {
      assert ShortTermCode(rps, index) + rest == [false] + b1;
      ReadFlagOf(false, b1);
    } else {
      assert ShortTermCode(rps, index) + rest == b1;
    }
  }

  lemma {:induction false} BothSidesRoundTrip(rps: Rps, rest: seq<bool>)
    requires ShortTermBounds(rps.negative) && ShortTermBounds(rps.positive)
    ensures var b3 := DeltaCode(rps.negative, 0) + (DeltaCode(rps.positive, 0) + rest);
            ReadBothSides(|rps.negative|, |rps.positive|, b3) == Done(SetOf(rps), rest)
            <==> Increasing(rps.negative) && Increasing(rps.positive)
  {
    hide DeltaCode, ReadDeltas;
    var c4 := DeltaCode(rps.positive, 0) + rest;
    var b3 := DeltaCode(rps.negative, 0) + c4;
    if Increasing(rps.negative) && Increasing(rps.positive) {
      ReadDeltasOfCode(rps.negative, 0, true, c4);
      ReadDeltasOfCode(rps.positive, 0, false, rest);
    } else if ReadBothSides(|rps.negative|, |rps.positive|, b3) == Done(SetOf(rps), rest) {
      var s0 := ReadDeltas(|rps.negative|, 0, true, b3);
      ReadDeltasMoveAway(|rps.negative|, 0, true, b3);
      ReadDeltasMoveAway(|rps.positive|, 0, false, s0.rest);
      DecodedIsIncreasing(rps.negative, true);
      DecodedIsIncreasing(rps.positive, false);
    }
  }

  lemma DecodedIsIncreasing(s: seq<Entry>, below: bool)
    requires var r := SignedDeltas(s, below);
             forall i, j :: 0 <= i < j < |s| ==> if below then r[j].poc < r[i].poc else r[j].poc > r[i].poc
    ensures Increasing(s)
  {
    var r := SignedDeltas(s, below);
    forall i, j | 0 <= i < j < |s|
      ensures s[i].delta < s[j].delta
    {
      assert if below then r[j].poc < r[i].poc else r[j].poc > r[i].poc;
    }
  }

  // ---------- from the DPB to the decoder ----------

  /** A reference that is not marked long-term, within the distance a reference picture set can express. */
  predicate ShortTerm(ref: Picture, current: i32) {
    && ref.id != 0xffff_ffff && Invalid !in ref.flags
    && LongTermReference !in ref.flags && LtCurr !in ref.flags && !(StCurrBefore in ref.flags && StCurrAfter in ref.flags)
    && ref.poc != current && -0xffff <= ref.poc - current <= 0xffff
  }

  /** A reference that is marked long-term, or that the current picture uses as one. */
  predicate LongTermRef(ref: Picture) {
    && ref.id != 0xffff_ffff && Invalid !in ref.flags
    && if LtCurr in ref.flags then StCurrBefore !in ref.flags && StCurrAfter !in ref.flags
       else LongTermReference in ref.flags && !(StCurrBefore in ref.flags && StCurrAfter in ref.flags)
  }

  lemma TwoMembers(flags: set<PictureFlag>, a: PictureFlag, b: PictureFlag)
    requires a in flags && b in flags && a != b
    ensures |flags| > 1
  {
    assert flags == {a} + (flags - {a}) && b in flags - {a};
  }

  /** What the flags of a picture say about the sets it is in. */
  lemma SubsetFlags(ref: Picture)
    ensures var before, after, longTerm := StCurrBefore in ref.flags, StCurrAfter in ref.flags, LtCurr in ref.flags;
            && (|ref.RpsFlags()| > 1 <==> (before && after) || (before && longTerm) || (after && longTerm))
            && (ref.RpsFlags() == {LtCurr} <==> longTerm && !before && !after)
            && (ref.RpsFlags() != {} <==> before || after || longTerm)
  {
    var flags, before, after, longTerm := ref.RpsFlags(), StCurrBefore in ref.flags, StCurrAfter in ref.flags, LtCurr in ref.flags;
    if before && after {
      TwoMembers(flags, StCurrBefore, StCurrAfter);
    } else if before && longTerm {
      TwoMembers(flags, StCurrBefore, LtCurr);
    } else if after && longTerm {
      TwoMembers(flags, StCurrAfter, LtCurr);
    } else {
      assert flags == if before then {StCurrBefore} else if after then {StCurrAfter} else if longTerm then {LtCurr} else {};
    }
    assert LtCurr in {LtCurr} && StCurrBefore !in {LtCurr} && StCurrAfter !in {LtCurr};
  }

  /** One iteration, told by the fields of the picture. */
  lemma ClassMeans(ref: Picture, current: i32)
    ensures var c := Classify(ref, current);
            && (c.Negative? || c.Positive? <==> ShortTerm(ref, current)) && (c.LongTerm? <==> LongTermRef(ref))
            && (c.Skip? <==> ref.id == 0xffff_ffff || Invalid in ref.flags)
            && (c.LongTerm? ==> c.e == Entry(0, ref.poc, LtCurr in ref.flags))
            && (ShortTerm(ref, current) ==>
                  c.e.used == (StCurrBefore in ref.flags || StCurrAfter in ref.flags) && c.e.poc == ref.poc && (c.Negative? <==> ref.poc < current))
  {
    SubsetFlags(ref);
  }

  /** Every picture that is there is a short-term or a long-term reference. */
  predicate Describable(refs: seq<Picture>, current: i32) {
    forall i :: 0 <= i < |refs| ==>
      refs[i].id == 0xffff_ffff || Invalid in refs[i].flags || ShortTerm(refs[i], current) || LongTermRef(refs[i])
  }

  /** Those are the DPBs that are accepted. */
  lemma AcceptableIff(refs: seq<Picture>, current: i32)
    ensures Acceptable(refs, current) <==> Describable(refs, current)
  {
    hide Classify, ShortTerm, LongTermRef;
    forall i | 0 <= i < |refs|
      ensures Classify(refs[i], current) != Reject <==>
              refs[i].id == 0xffff_ffff || Invalid in refs[i].flags || ShortTerm(refs[i], current) || LongTermRef(refs[i])
    {
      ClassMeans(refs[i], current);
    }
  }

  /** The long-term pictures of the DPB, in its order. */
  function LongTermRefs(refs: seq<Picture>): seq<Picture> {
    if |refs| == 0 then []
    else LongTermRefs(refs[..|refs| - 1]) + (if LongTermRef(refs[|refs| - 1]) then [refs[|refs| - 1]] else [])
  }

  /** Exactly those are collected, with their full picture order counts, used iff the flags say so. */
  lemma {:induction false} CollectedLongTerm(refs: seq<Picture>, current: i32)
    ensures var pictures, entries := LongTermRefs(refs), Collected(refs, current).longTerm;
            |entries| == |pictures| && forall i :: 0 <= i < |entries| ==> entries[i] == Entry(0, pictures[i].poc, LtCurr in pictures[i].flags)
  {
    hide Classify, LongTermRef, Sorted;
    if |refs| > 0 {
      CollectedLongTerm(refs[..|refs| - 1], current);
      ClassMeans(refs[|refs| - 1], current);
    }
  }

  /** No two short-term references share a picture order count. */
  predicate DistinctPocs(refs: seq<Picture>, current: i32) {
    forall i, j :: 0 <= i < j < |refs| && ShortTerm(refs[i], current) && ShortTerm(refs[j], current) ==>
      refs[i].poc != refs[j].poc
  }

  predicate HasDelta(s: seq<Entry>, d: nat) {
    exists i :: 0 <= i < |s| && s[i].delta == d
  }

  predicate DistinctDeltas(s: seq<Entry>) {
    forall i, j :: 0 <= i < j < |s| ==> s[i].delta != s[j].delta
  }

  lemma HasDeltaAppend(s: seq<Entry>, e: Entry, d: nat)
    ensures HasDelta(s + [e], d) == (HasDelta(s, d) || e.delta == d)
    ensures DistinctDeltas(s + [e]) == (DistinctDeltas(s) && !HasDelta(s, e.delta))
  {
    var t := s + [e];
    assert t[|s|] == e && forall i :: 0 <= i < |s| ==> t[i] == s[i];
    if DistinctDeltas(t) {
      forall i | 0 <= i < |s|
        ensures s[i].delta != e.delta
      {
        assert t[i].delta != t[|s|].delta;
      }
    }
  }

  lemma {:induction false} InsertKeepsDeltas(s: seq<Entry>, e: Entry)
    ensures forall d :: HasDelta(Insert(s, e), d) == (HasDelta(s, d) || e.delta == d)
    ensures DistinctDeltas(Insert(s, e)) == (DistinctDeltas(s) && !HasDelta(s, e.delta))
  {
    hide HasDelta, DistinctDeltas;
    if |s| > 0 && s[|s| - 1].delta > e.delta {
      var front, last := s[..|s| - 1], s[|s| - 1];
      InsertKeepsDeltas(front, e);
      assert s == front + [last];
      forall d
        ensures HasDelta(Insert(s, e), d) == (HasDelta(s, d) || e.delta == d)
      {
        HasDeltaAppend(Insert(front, e), last, d);
        HasDeltaAppend(front, last, d);
      }
      HasDeltaAppend(Insert(front, e), last, last.delta);
      HasDeltaAppend(front, last, e.delta);
    } else {
      forall d
        ensures HasDelta(s + [e], d) == (HasDelta(s, d) || e.delta == d)
      {
        HasDeltaAppend(s, e, d);
      }
      HasDeltaAppend(s, e, e.delta);
    }
  }

  lemma {:induction false} SortedKeepsDeltas(s: seq<Entry>)
    ensures forall d :: HasDelta(Sorted(s), d) == HasDelta(s, d)
    ensures DistinctDeltas(Sorted(s)) == DistinctDeltas(s)
  {
    hide HasDelta, DistinctDeltas;
    if |s| > 0 {
      var front, last := s[..|s| - 1], s[|s| - 1];
      assert s == front + [last];
      SortedKeepsDeltas(front);
      InsertKeepsDeltas(Sorted(front), last);
      forall d
        ensures HasDelta(s, d) == (HasDelta(front, d) || last.delta == d)
      {
        HasDeltaAppend(front, last, d);
      }
      HasDeltaAppend(front, last, last.delta);
    } else {
      assert Sorted(s) == s;
    }
  }

  lemma SortedIncreases(s: seq<Entry>)
    ensures Increasing(Sorted(s)) <==> DistinctDeltas(s)
  {
    SortedIsSorted(s);
    SortedKeepsDeltas(s);
  }

  /** The entries on one side of the current picture, in DPB order. */
  function Side(refs: seq<Picture>, current: i32, below: bool): seq<Entry> {
    if below then Gathered(refs, current).negative else Gathered(refs, current).positive
  }

  predicate OnSide(ref: Picture, current: i32, below: bool, e: Entry) {
    Classify(ref, current) == if below then Negative(e) else Positive(e)
  }

  /** Which references gave those entries. */
  lemma {:induction false} SideFrom(refs: seq<Picture>, current: i32, below: bool)
    ensures forall e :: e in Side(refs, current, below) <==> exists i :: 0 <= i < |refs| && OnSide(refs[i], current, below, e)
  {
    hide Classify;
    if |refs| > 0 {
      var front, last := refs[..|refs| - 1], refs[|refs| - 1];
      SideFrom(front, current, below);
      assert refs == front + [last];
      forall e
        ensures e in Side(refs, current, below) <==> exists i :: 0 <= i < |refs| && OnSide(refs[i], current, below, e)
      {
        if e in Side(front, current, below) {
          var i :| 0 <= i < |front| && OnSide(front[i], current, below, e);
          assert OnSide(refs[i], current, below, e);
        }
        if i :| 0 <= i < |refs| && OnSide(refs[i], current, below, e) {
          assert i < |front| ==> OnSide(front[i], current, below, e);
        }
      }
    }
  }

  lemma OnSideMeans(ref: Picture, current: i32, below: bool, e: Entry)
    requires OnSide(ref, current, below, e)
    ensures 1 <= e.delta <= 0xffff && ref.poc == current + Signed(e.delta, below)
    ensures ShortTerm(ref, current) && IsReference(ref, current, SignedDelta(e, below))
  {
    ClassMeans(ref, current);
  }

  lemma ShortTermSide(ref: Picture, current: i32) returns (e: Entry)
    requires ShortTerm(ref, current)
    ensures OnSide(ref, current, ref.poc < current, e)
    ensures Classify(ref, current).e == e
  {
    ClassMeans(ref, current);
    e := Classify(ref, current).e;
  }

  lemma {:induction false} GatheredDistinct(refs: seq<Picture>, current: i32)
    ensures var r := Gathered(refs, current);
            DistinctDeltas(r.negative) && DistinctDeltas(r.positive) <==> DistinctPocs(refs, current)
  {
    hide HasDelta, DistinctDeltas, DistinctPocs, ShortTerm;
    if |refs| > 0 {
      var front, last := refs[..|refs| - 1], refs[|refs| - 1];
      assert refs == front + [last];
      var r := Gathered(front, current);
      GatheredDistinct(front, current);
      DistinctPocsAppend(front, last, current);
      ClassMeans(last, current);
      match Classify(last, current) {
        case Negative(e) =>
          HasDeltaAppend(r.negative, e, e.delta);
          DeltaMeansPoc(front, last, current);
        case Positive(e) =>
          HasDeltaAppend(r.positive, e, e.delta);
          DeltaMeansPoc(front, last, current);
        case _ =>
      }
    } else {
      NothingDistinct(refs, current);
    }
  }

  lemma NothingDistinct(refs: seq<Picture>, current: i32)
    requires |refs| == 0
    ensures DistinctDeltas([]) && DistinctPocs(refs, current)
  {
  }

  lemma DistinctPocsAppend(front: seq<Picture>, last: Picture, current: i32)
    ensures DistinctPocs(front + [last], current) ==
            (DistinctPocs(front, current) &&
             (ShortTerm(last, current) ==>
                forall i :: 0 <= i < |front| && ShortTerm(front[i], current) ==> front[i].poc != last.poc))
  {
    hide Classify, ShortTerm;
    var refs := front + [last];
    assert refs[|front|] == last && forall i :: 0 <= i < |front| ==> refs[i] == front[i];
    if DistinctPocs(refs, current) && ShortTerm(last, current) {
      forall i | 0 <= i < |front| && ShortTerm(front[i], current)
        ensures front[i].poc != last.poc
      {
        assert refs[i].poc != refs[|front|].poc;
      }
    }
  }

  lemma DeltaMeansPoc(front: seq<Picture>, last: Picture, current: i32)
    requires ShortTerm(last, current)
    ensures HasDelta(Side(front, current, last.poc < current), if last.poc < current then current - last.poc else last.poc - current)
            <==> exists i :: 0 <= i < |front| && ShortTerm(front[i], current) && front[i].poc == last.poc
  {
    hide Classify, ShortTerm, OnSide, Side;
    var below, d := last.poc < current, if last.poc < current then current - last.poc else last.poc - current;
    var side := Side(front, current, below);
    SideFrom(front, current, below);
    var e := ShortTermSide(last, current);
    OnSideMeans(last, current, below, e);
    if HasDelta(side, d) {
      var k :| 0 <= k < |side| && side[k].delta == d;
      assert side[k] in side;
      var i :| 0 <= i < |front| && OnSide(front[i], current, below, side[k]);
      OnSideMeans(front[i], current, below, side[k]);
    }
    if i :| 0 <= i < |front| && ShortTerm(front[i], current) && front[i].poc == last.poc {
      var e' := ShortTermSide(front[i], current);
      OnSideMeans(front[i], current, below, e');
      assert e' in side && e'.delta == d;
    }
  }

  /**
   From the DPB to the decoder: the short-term set a decoder reads back is the collected one
   exactly when no two short-term references share a picture order count.
   */
  lemma CollectedRoundTrip(refs: seq<Picture>, current: i32, rest: seq<bool>)
    requires |refs| <= 15 && Acceptable(refs, current)
    ensures var rps := Collected(refs, current);
            ReadShortTermSet(0, ShortTermCode(rps, 0) + rest) == Done(SetOf(rps), rest) <==> DistinctPocs(refs, current)
  {
    CollectedBounds(refs, current);
    var r := Gathered(refs, current);
    ShortTermRoundTrip(Collected(refs, current), 0, rest);
    SortedIncreases(r.negative);
    SortedIncreases(r.positive);
    GatheredDistinct(refs, current);
  }

  lemma CollectedBounds(refs: seq<Picture>, current: i32)
    requires |refs| <= 15
    ensures var rps := Collected(refs, current);
            && ShortTermBounds(rps.negative) && ShortTermBounds(rps.positive)
            && |rps.negative| + |rps.positive| + |rps.longTerm| <= |refs|
  {
    SideBounds(refs, current, true);
    SideBounds(refs, current, false);
  }

  lemma SideBounds(refs: seq<Picture>, current: i32, below: bool)
    requires |refs| <= 15
    ensures ShortTermBounds(Sorted(Side(refs, current, below)))
  {
    hide Classify, OnSide;
    var side, sorted := Side(refs, current, below), Sorted(Side(refs, current, below));
    SideFrom(refs, current, below);
    SortedMembers(side);
    forall k | 0 <= k < |sorted|
      ensures 1 <= sorted[k].delta <= 0xffff
    {
      assert sorted[k] in sorted;
      var i :| 0 <= i < |refs| && OnSide(refs[i], current, below, sorted[k]);
      OnSideMeans(refs[i], current, below, sorted[k]);
    }
  }

  /**
   A decoded set describes the DPB: it holds exactly the short-term pictures, those kept for later
   pictures included, each with its distance from the current picture and whether the flags use it
   now; those in the past and those in the future each by growing distance.
   */
  ghost predicate Describes(decoded: ShortTermSet, refs: seq<Picture>, current: i32) {
    && (forall d: Delta :: d in decoded.s0 <==> exists i :: 0 <= i < |refs| && IsReference(refs[i], current, d) && d.poc < 0)
    && (forall d: Delta :: d in decoded.s1 <==> exists i :: 0 <= i < |refs| && IsReference(refs[i], current, d) && d.poc > 0)
    && (forall i, j :: 0 <= i < j < |decoded.s0| ==> decoded.s0[i].poc >= decoded.s0[j].poc)
    && (forall i, j :: 0 <= i < j < |decoded.s1| ==> decoded.s1[i].poc <= decoded.s1[j].poc)
    && (DistinctPocs(refs, current) ==>
          && (forall i, j :: 0 <= i < j < |decoded.s0| ==> decoded.s0[i].poc > decoded.s0[j].poc)
          && (forall i, j :: 0 <= i < j < |decoded.s1| ==> decoded.s1[i].poc < decoded.s1[j].poc))
  }

  /** What the collected set means. */
  lemma CollectedSetMeaning(refs: seq<Picture>, current: i32)
    ensures Describes(SetOf(Collected(refs, current)), refs, current)
  {
    hide Classify, IsReference, Sorted, DistinctPocs, DistinctDeltas;
    var decoded := SetOf(Collected(refs, current));
    forall d: Delta
      ensures d in decoded.s0 <==> exists i :: 0 <= i < |refs| && IsReference(refs[i], current, d) && d.poc < 0
      ensures d in decoded.s1 <==> exists i :: 0 <= i < |refs| && IsReference(refs[i], current, d) && d.poc > 0
    {
      SideMeaning(refs, current, true, d);
      SideMeaning(refs, current, false, d);
    }
    SortedIsSorted(Side(refs, current, true));
    SortedIsSorted(Side(refs, current, false));
    SortedIncreases(Side(refs, current, true));
    SortedIncreases(Side(refs, current, false));
    GatheredDistinct(refs, current);
  }

  lemma SideMeaning(refs: seq<Picture>, current: i32, below: bool, d: Delta)
    ensures d in SignedDeltas(Sorted(Side(refs, current, below)), below) <==>
            exists i :: 0 <= i < |refs| && IsReference(refs[i], current, d) && d.poc != 0 && (d.poc < 0) == below
  {
    hide Classify, OnSide, IsReference, Side, Sorted, ShortTerm;
    var side, sorted := Side(refs, current, below), Sorted(Side(refs, current, below));
    SideFrom(refs, current, below);
    SortedMembers(side);
    if d in SignedDeltas(sorted, below) {
      var k :| 0 <= k < |sorted| && SignedDeltas(sorted, below)[k] == d;
      assert sorted[k] in sorted;
      var i :| 0 <= i < |refs| && OnSide(refs[i], current, below, sorted[k]);
      OnSideMeans(refs[i], current, below, sorted[k]);
    }
    if i :| 0 <= i < |refs| && IsReference(refs[i], current, d) && d.poc != 0 && (d.poc < 0) == below {
      var e := EntryOf(refs[i], current, d);
      assert e in side && e in sorted;
      var k :| 0 <= k < |sorted| && sorted[k] == e;
      assert SignedDeltas(sorted, below)[k] == d;
    }
  }

  lemma EntryOf(ref: Picture, current: i32, d: Delta) returns (e: Entry)
    requires IsReference(ref, current, d)
    ensures OnSide(ref, current, d.poc < 0, e) && SignedDelta(e, d.poc < 0) == d
  {
    ClassMeans(ref, current);
    e := Classify(ref, current).e;
  }

  /** `ref` is a short-term reference at distance `d.poc`, used by the current picture iff flagged so. */
  predicate IsReference(ref: Picture, current: i32, d: Delta) {
    && ShortTerm(ref, current)
    && d.poc == ref.poc - current
    && d.used == (StCurrBefore in ref.flags || StCurrAfter in ref.flags)
  }
}
