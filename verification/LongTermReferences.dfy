/**
 Explicit long-term references in a slice header: write_long_term_rps of src/hevc.c against
 the decoder of sections 7.3.6.1, 7.4.7.1 and 8.3.2 of H.265.
 */
module LongTermReferences {
  import opened Integers
  import opened Bits
  import opened ExpGolomb
  import opened PictureParameters
  import opened BitWriter
  import opened ReferencePictureSets

  /** What the writer needs to know about the current picture. */
  datatype Now = Now(poc: i32, pocLsb: nat, pocBits: nat) {
    predicate Valid() {
      4 <= pocBits <= 16
    }

    function MaxLsb(): nat {
      Pow2(pocBits)
    }

    /** The slice header repeats the low bits of the current picture order count. */
    predicate Consistent() {
      pocLsb == poc % MaxLsb()
    }
  }

  /** Integer division of C: toward zero. */
  function TruncDiv(a: int, m: int): int
    requires m > 0
  {
    if a >= 0 then a / m else -((-a) / m)
  }

  /** The low bits of a signed count, through the cast to uint32_t and the mask. */
  function Lsb(poc: i32, now: Now): nat {
    (poc % WORD) % now.MaxLsb()
  }

  /** The count without its low bits. */
  function Msb(poc: int, now: Now): int {
    poc / now.MaxLsb()
  }

  /** The absolute DeltaPocMsbCycleLt the code computes for an entry. */
  function Cycle(e: Entry, now: Now): int {
    TruncDiv(Lsb(e.poc, now) + now.poc - now.pocLsb - e.poc, now.MaxLsb())
  }

  /** No entry needs a cycle below zero or below its predecessor's. */
  predicate Expressible(s: seq<Entry>, now: Now, previous: int) {
    |s| == 0 ||
    (Cycle(s[0], now) >= 0 && Cycle(s[0], now) >= previous && Cycle(s[0], now) - previous < WORD &&
     Expressible(s[1..], now, Cycle(s[0], now)))
  }

  function EntryCode(e: Entry, now: Now, delta: nat): seq<bool>
    requires delta < WORD
  {
    UBits(Lsb(e.poc, now), now.pocBits) + ([e.used] + ([true] + UeCode32(delta)))
  }

  function EntriesCode(s: seq<Entry>, now: Now, previous: int): seq<bool>
    requires Expressible(s, now, previous)
  {
    if |s| == 0 then []
    else EntryCode(s[0], now, Cycle(s[0], now) - previous) + EntriesCode(s[1..], now, Cycle(s[0], now))
  }

  function LongTermCode(s: seq<Entry>, now: Now): seq<bool>
    requires |s| < WORD && Expressible(s, now, 0)
  {
    UeCode32(|s|) + EntriesCode(s, now, 0)
  }

  method WriteLongTermRps(bs: BSWriter, rps: HEVCRPS, pp: PicParams, pocLsb: u32) returns (ok: bool)
    requires bs.Valid() && rps.Valid() && {bs, bs.data} !! rps.Repr() && SliceSyntaxBounds(pp)
    modifies bs, bs.data
    ensures bs.Valid()
    ensures !pp.longTermPresent ==> ok && bs.text == old(bs.text)
    ensures var now := Now(pp.current.poc, pocLsb, PocBits(pp)); var longTerm := rps.View().longTerm;
            pp.longTermPresent ==>
              && ok == Expressible(longTerm, now, 0)
              && (ok ==> bs.text == old(bs.text) + LongTermCode(longTerm, now))
  {
    hide BSWriter.Valid, Expressible, EntriesCode, UeCode32, UBits;
    if !pp.longTermPresent {
      return true;
    }
    ghost var now, s := Now(pp.current.poc, pocLsb, PocBits(pp)), rps.View().longTerm;
    bs.WriteUe(rps.longTermCount);
    ok := WriteEntries(bs, rps, pp, pocLsb);
  }

  /** The loop of write_long_term_rps. */
  method WriteEntries(bs: BSWriter, rps: HEVCRPS, pp: PicParams, pocLsb: u32) returns (ok: bool)
    requires bs.Valid() && rps.Valid() && {bs, bs.data} !! rps.Repr() && SliceSyntaxBounds(pp)
    modifies bs, bs.data
    ensures bs.Valid()
    ensures var now := Now(pp.current.poc, pocLsb, PocBits(pp)); var s := rps.View().longTerm;
            && ok == Expressible(s, now, 0)
            && (ok ==> bs.text == old(bs.text) + EntriesCode(s, now, 0))
  {
    hide BSWriter.Valid, Expressible, EntriesCode, EntryCode, Cycle;
    ghost var now, s := Now(pp.current.poc, pocLsb, PocBits(pp)), rps.View().longTerm;
    ghost var start := bs.text;
    ghost var code := if Expressible(s, now, 0) then EntriesCode(s, now, 0) else [];
    ghost var done: nat := 0;
    var previous := 0;
    for i := 0 to rps.longTermCount
      invariant bs.Valid() && rps.Valid() && rps.View().longTerm == s
      invariant Expressible(s[i..], now, previous) == Expressible(s, now, 0)
      invariant Expressible(s, now, 0) ==>
                  && done <= |code| && bs.text == start + code[..done]
                  && code[done..] == EntriesCode(s[i..], now, previous)
    {
      ghost var e := s[i];
      ExpressibleStep(s[i..], s[i + 1..], now, previous);
      var written := WriteEntry(bs, rps.longTerm[i], pp, pocLsb, previous);
      if written < 0 {
        return false;
      }
      if Expressible(s, now, 0) {
        ghost var piece := EntryCode(e, now, written - previous);
        SplitFront(code, done, piece, EntriesCode(s[i + 1..], now, written));
        done := done + |piece|;
      }
      previous := written;
    }
    ExpressibleNothing(s[rps.longTermCount..], now, previous);
    ok := true;
  }

  /** One iteration: the entry's absolute cycle, or -1 when it cannot follow `previous`. */
  method WriteEntry(bs: BSWriter, e: Entry, pp: PicParams, pocLsb: u32, previous: int) returns (written: int)
    requires bs.Valid() && SliceSyntaxBounds(pp) && previous >= 0
    modifies bs, bs.data
    ensures bs.Valid()
    ensures var now := Now(pp.current.poc, pocLsb, PocBits(pp)); var msb := Cycle(e, now);
            if msb >= 0 && msb >= previous && msb - previous < WORD then
              written == msb && bs.text == old(bs.text) + EntryCode(e, now, msb - previous)
            else written < 0
  {
    hide BSWriter.Valid, UeCode32, UBits, TruncDiv, Pow2;
    ghost var now := Now(pp.current.poc, pocLsb, PocBits(pp));
    var maxPocLsb := Pow2(PocBits(pp));
    LsbFits(e.poc, now);
    var refLsb := (e.poc % WORD) % maxPocLsb;
    var msb := TruncDiv(refLsb + pp.current.poc - pocLsb - e.poc, maxPocLsb);
    bs.Write(refLsb, PocBits(pp));
    bs.Write(if e.used then 1 else 0, 1);
    if msb < 0 || msb < previous || msb - previous > WORD - 1 {
      return -1;
    }
    bs.Write(1, 1);
    bs.WriteUe(msb - previous);
    UBitsOfFlag(e.used);
    UBitsOfFlag(true);
    written := msb;
  }

  lemma LsbFits(poc: i32, now: Now)
    requires now.Valid()
    ensures Lsb(poc, now) < Pow2(now.pocBits) <= 0x1_0000
    ensures Lsb(poc, now) == poc % Pow2(now.pocBits)
  {
    Pow2Monotone(now.pocBits, 16);
    Pow2Values();
    Pow2Add(now.pocBits, 32 - now.pocBits);
    ModOfMod(poc, Pow2(now.pocBits), Pow2(32 - now.pocBits));
  }

  lemma ModOfMod(a: int, m: int, k: int)
    requires m > 0 && k > 0
    ensures m * k > 0 && (a % (m * k)) % m == a % m
  {
    var r := a % (m * k);
    var q := a / (m * k);
    assert a == (m * k) * q + r;
    assert (m * k) * q == m * (k * q);
    var r' := r % m;
    assert r == m * (r / m) + r';
    assert a == m * (k * q + r / m) + r';
    ModUnique(a, m, k * q + r / m, r');
  }

  lemma ExpressibleStep(s: seq<Entry>, tail: seq<Entry>, now: Now, previous: int)
    requires |s| > 0 && tail == s[1..]
    ensures var msb := Cycle(s[0], now);
            && Expressible(s, now, previous) ==
                 (msb >= 0 && msb >= previous && msb - previous < WORD && Expressible(tail, now, msb))
            && (Expressible(s, now, previous) ==>
                  EntriesCode(s, now, previous) == EntryCode(s[0], now, msb - previous) + EntriesCode(tail, now, msb))
  {
    hide Cycle, EntryCode;
  }

  lemma ExpressibleNothing(s: seq<Entry>, now: Now, previous: int)
    requires |s| == 0
    ensures Expressible(s, now, previous) && EntriesCode(s, now, previous) == []
  {
  }

  // ---------- the decoder ----------

  /** One explicit entry of the slice header; `delta` is 0 when it is absent. */
  datatype LongTermSyntax = LongTermSyntax(lsb: nat, used: bool, msbPresent: bool, delta: nat)

  function ReadCycle(present: bool, bits: seq<bool>): Parsed<nat> {
    if present then ReadUe32(bits) else Done(0, bits)
  }

  function ReadEntry(pocBits: nat, bits: seq<bool>): Parsed<LongTermSyntax> {
    var (lsb, b1) :- ReadU(pocBits, bits);
    var (used, b2) :- ReadFlag(b1);
    var (present, b3) :- ReadFlag(b2);
    var (delta, rest) :- ReadCycle(present, b3);
    Done(LongTermSyntax(lsb, used, present, delta), rest)
  }

  /** Section 7.3.6.1, behind num_long_term_pics, without an SPS table. */
  function ReadEntries(n: nat, pocBits: nat, bits: seq<bool>): Parsed<seq<LongTermSyntax>> {
    if n == 0 then Done([], bits)
    else
      var (first, b1) :- ReadEntry(pocBits, bits);
      var (others, rest) :- ReadEntries(n - 1, pocBits, b1);
      Done([first] + others, rest)
  }

  function ReadLongTerm(pocBits: nat, bits: seq<bool>): Parsed<seq<LongTermSyntax>> {
    var (n, b1) :- ReadUe32(bits);
    ReadEntries(n, pocBits, b1)
  }

  /** An entry of the derived set: its full picture order count when the MSBs were given. */
  datatype LongTermRef = Full(poc: int, used: bool) | LsbOnly(lsb: int, used: bool)

  /** Equation (7-52) accumulates the cycles; section 8.3.2 turns them into pocLt. */
  function Derive(s: seq<LongTermSyntax>, poc: int, maxLsb: int, previous: int): seq<LongTermRef>
    requires maxLsb > 0
  {
    if |s| == 0 then []
    else
      var cycle := previous + s[0].delta;
      [if s[0].msbPresent then Full(s[0].lsb + poc - cycle * maxLsb - poc % maxLsb, s[0].used)
       else LsbOnly(s[0].lsb, s[0].used)]
      + Derive(s[1..], poc, maxLsb, cycle)
  }

  function SyntaxOf(s: seq<Entry>, now: Now, previous: int): seq<LongTermSyntax>
    requires Expressible(s, now, previous)
  {
    if |s| == 0 then []
    else [LongTermSyntax(Lsb(s[0].poc, now), s[0].used, true, Cycle(s[0], now) - previous)]
         + SyntaxOf(s[1..], now, Cycle(s[0], now))
  }

  function PocsOf(s: seq<Entry>): seq<LongTermRef> {
    seq(|s|, i requires 0 <= i < |s| => Full(s[i].poc, s[i].used))
  }

  lemma CycleIsMsbDifference(e: Entry, now: Now)
    requires now.Valid() && now.Consistent()
    ensures Cycle(e, now) == Msb(now.poc, now) - Msb(e.poc, now)
    ensures Cycle(e, now) * now.MaxLsb() == Lsb(e.poc, now) + now.poc - now.pocLsb - e.poc
    ensures Cycle(e, now) < 0x2000_0000
  {
    hide Pow2, TruncDiv, Msb, Lsb, Now.MaxLsb;
    MaxLsbAtLeast16(now);
    SplitPoc(now.poc, now);
    SplitPoc(e.poc, now);
    ExactCycle(now.MaxLsb(), Msb(now.poc, now), now.pocLsb, Msb(e.poc, now), Lsb(e.poc, now));
  }

  lemma SplitPoc(poc: i32, now: Now)
    requires now.Valid()
    ensures poc == now.MaxLsb() * Msb(poc, now) + Lsb(poc, now) && 0 <= Lsb(poc, now) < now.MaxLsb()
    ensures now.Consistent() ==> now.pocLsb == Lsb(now.poc, now)
  {
    hide Pow2, Lsb;
    LsbFits(poc, now);
    LsbFits(now.poc, now);
    QuotientAndRemainder(poc, now.MaxLsb());
  }

  lemma QuotientAndRemainder(a: int, m: int)
    requires m > 0
    ensures a == m * (a / m) + a % m && 0 <= a % m < m
  {
  }

  lemma MaxLsbAtLeast16(now: Now)
    requires now.Valid()
    ensures now.MaxLsb() >= 16
  {
    Pow2Monotone(4, now.pocBits);
  }

  /** `poc == m * p + pl` and `ref == m * r + rl` split two counts into MSBs and LSBs. */
  lemma ExactCycle(m: int, p: int, pl: int, r: int, rl: int)
    requires m >= 16 && 0 <= pl < m && 0 <= rl < m
    requires -0x8000_0000 <= m * r + rl && m * p + pl < 0x8000_0000
    ensures (p - r) * m == rl + (m * p + pl) - pl - (m * r + rl)
    ensures TruncDiv(rl + (m * p + pl) - pl - (m * r + rl), m) == p - r
    ensures p - r < 0x2000_0000
  {
    hide TruncDiv;
    var a := rl + (m * p + pl) - pl - (m * r + rl);
    assert a == m * p - m * r == m * (p - r);
    TruncDivExact(a, m, p - r);
    if p - r >= 0x2000_0000 {
      Larger(m, 16, p - r, 0x2000_0000);
    }
  }

  lemma Larger(a: int, b: int, c: int, d: int)
    requires a >= b >= 0 && c >= d >= 0
    ensures a * c >= b * d
  {
    assert a * c >= a * d >= b * d;
  }

  lemma TruncDivExact(a: int, m: int, k: int)
    requires m > 0 && a == m * k
    ensures TruncDiv(a, m) == k
  {
    if a >= 0 {
      ModUnique(a, m, k, 0);
    } else {
      assert -a == m * (-k);
      ModUnique(-a, m, -k, 0);
    }
  }

  /** Exactly when the code can express a list: MSBs not above the current one, and never growing. */
  lemma {:induction false} ExpressibleMeans(s: seq<Entry>, now: Now, previous: int)
    requires now.Valid() && now.Consistent() && previous >= 0
    ensures Expressible(s, now, previous) <==>
              && (forall i :: 0 <= i < |s| ==> Msb(s[i].poc, now) <= Msb(now.poc, now) - previous)
              && (forall i, j :: 0 <= i < j < |s| ==> Msb(s[j].poc, now) <= Msb(s[i].poc, now))
  {
    hide Now.MaxLsb, Cycle, Msb;
    if |s| > 0 {
      CycleIsMsbDifference(s[0], now);
      var cycle := Cycle(s[0], now);
      if cycle >= previous {
        ExpressibleMeans(s[1..], now, cycle);
      }
    }
  }

  lemma ReadEntryOfCode(e: Entry, now: Now, delta: nat, rest: seq<bool>)
    requires now.Valid() && delta < WORD - 1
    ensures ReadEntry(now.pocBits, EntryCode(e, now, delta) + rest)
         == Done(LongTermSyntax(Lsb(e.poc, now), e.used, true, delta), rest)
  {
    hide UBits, UeCode, ReadUe32, ReadU, ReadFlag, Lsb;
    var lsb := Lsb(e.poc, now);
    LsbFits(e.poc, now);
    var b3 := UeCode(delta) + rest;
    assert EntryCode(e, now, delta) + rest == UBits(lsb, now.pocBits) + ([e.used] + ([true] + b3));
    ReadUOfUBits(lsb, now.pocBits, [e.used] + ([true] + b3));
    ReadFlagOf(e.used, [true] + b3);
    ReadFlagOf(true, b3);
    ReadUe32OfUeCode(delta, rest);
  }

  lemma {:induction false} ReadEntriesOfCode(s: seq<Entry>, now: Now, previous: int, rest: seq<bool>)
    requires now.Valid() && now.Consistent() && previous >= 0 && Expressible(s, now, previous)
    ensures ReadEntries(|s|, now.pocBits, EntriesCode(s, now, previous) + rest)
         == Done(SyntaxOf(s, now, previous), rest)
  {
    hide Cycle, EntryCode, ReadEntry, Lsb;
    if |s| > 0 {
      var cycle := Cycle(s[0], now);
      var tail := EntriesCode(s[1..], now, cycle) + rest;
      CycleIsMsbDifference(s[0], now);
      assert EntriesCode(s, now, previous) + rest == EntryCode(s[0], now, cycle - previous) + tail;
      ReadEntryOfCode(s[0], now, cycle - previous, tail);
      ReadEntriesOfCode(s[1..], now, cycle, rest);
    } else {
      assert EntriesCode(s, now, previous) + rest == rest;
    }
  }

  lemma {:induction false} DeriveOfSyntax(s: seq<Entry>, now: Now, previous: int)
    requires now.Valid() && now.Consistent() && Expressible(s, now, previous)
    ensures Derive(SyntaxOf(s, now, previous), now.poc, now.MaxLsb(), previous) == PocsOf(s)
  {
    hide Cycle, Lsb, Now.MaxLsb;
    if |s| > 0 {
      CycleIsMsbDifference(s[0], now);
      DeriveOfSyntax(s[1..], now, Cycle(s[0], now));
      assert SyntaxOf(s, now, previous)[1..] == SyntaxOf(s[1..], now, Cycle(s[0], now));
      assert PocsOf(s) == [Full(s[0].poc, s[0].used)] + PocsOf(s[1..]);
    }
  }

  lemma ReadLongTermOfCode(s: seq<Entry>, now: Now, rest: seq<bool>)
    requires |s| <= 15 && now.Valid() && now.Consistent() && Expressible(s, now, 0)
    ensures ReadLongTerm(now.pocBits, LongTermCode(s, now) + rest) == Done(SyntaxOf(s, now, 0), rest)
  {
    hide UeCode, ReadUe32, EntriesCode, ReadEntries;
    assert LongTermCode(s, now) + rest == UeCode(|s|) + (EntriesCode(s, now, 0) + rest);
    ReadUe32OfUeCode(|s|, EntriesCode(s, now, 0) + rest);
    ReadEntriesOfCode(s, now, 0, rest);
  }

  /**
   Every list the code writes gives a decoder back each reference's full picture order count and
   used flag, in order.
   */
  lemma {:induction false} LongTermRoundTrip(s: seq<Entry>, now: Now, rest: seq<bool>)
    requires |s| <= 15 && now.Valid() && now.Consistent() && Expressible(s, now, 0)
    ensures var r := ReadLongTerm(now.pocBits, LongTermCode(s, now) + rest);
            r.Done? && r.rest == rest && Derive(r.value, now.poc, now.MaxLsb(), 0) == PocsOf(s)
  {
    ReadLongTermOfCode(s, now, rest);
    DeriveOfSyntax(s, now, 0);
  }
}
