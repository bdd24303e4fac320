/**
 The byte stream format of Annex B (of H.264 and H.265): the packets of src/mpp_dec.c are start
 codes and NAL units, and cutting them at the start codes gives the NAL units back.
 */
module AnnexB {
  import opened Integers
  import opened Bits
  import opened Emulation

  // ---------- the decoder: section B.2 ----------

  predicate CodeAt(s: seq<byte>, i: nat) {
    i + 3 <= |s| && s[i] == 0 && s[i + 1] == 0 && s[i + 2] == 1
  }

  /** 00 00 00 and 00 00 01 end a NAL unit. */
  predicate EndAt(s: seq<byte>, i: nat) {
    i + 3 <= |s| && s[i] == 0 && s[i + 1] == 0 && s[i + 2] <= 1
  }

  /** The first start code prefix at or behind `i`, or the length. */
  function FindCode(s: seq<byte>, i: nat): (at: nat)
    requires i <= |s|
    ensures i <= at <= |s| && (at < |s| ==> CodeAt(s, at)) && forall k :: i <= k < at ==> !CodeAt(s, k)
    decreases |s| - i
  {
    if i == |s| || CodeAt(s, i) then i else FindCode(s, i + 1)
  }

  function FindEnd(s: seq<byte>, i: nat): (at: nat)
    requires i <= |s|
    ensures i <= at <= |s| && (at < |s| ==> EndAt(s, at)) && forall k :: i <= k < at ==> !EndAt(s, k)
    decreases |s| - i
  {
    if i == |s| || EndAt(s, i) then i else FindEnd(s, i + 1)
  }

  /** The NAL units of a byte stream. */
  function Units(s: seq<byte>): seq<seq<byte>>
    decreases |s|
  {
    var at := FindCode(s, 0);
    if at == |s| then []
    else
      var r := s[at + 3..];
      var n := FindEnd(r, 0);
      [r[..n]] + Units(r[n..])
  }

  // ---------- the encoder ----------

  predicate StartCode(c: seq<byte>) {
    c == [0, 0, 1] || c == [0, 0, 0, 1]
  }

  /** A NAL unit that a byte stream can carry: nothing in it looks like a start code, and it ends in a nonzero byte. */
  predicate Carriable(nal: seq<byte>) {
    |nal| > 0 && Clean(nal, 0) && nal[|nal| - 1] != 0
  }

  datatype Unit = Unit(code: seq<byte>, nal: seq<byte>) {
    /** Nothing in the unit looks like a start code, but it may end in a zero byte. */
    predicate Whole() {
      StartCode(code) && |nal| > 0 && Clean(nal, 0)
    }

    predicate EndsNonzero() {
      |nal| > 0 && nal[|nal| - 1] != 0
    }

    predicate Valid() {
      StartCode(code) && Carriable(nal)
    }
  }

  function Stream(units: seq<Unit>): seq<byte> {
    if |units| == 0 then [] else units[0].code + units[0].nal + Stream(units[1..])
  }

  function Nals(units: seq<Unit>): (r: seq<seq<byte>>)
    ensures |r| == |units|
  {
    seq(|units|, i requires 0 <= i < |units| => units[i].nal)
  }

  lemma {:induction false} StreamAppend(a: seq<Unit>, b: seq<Unit>)
    ensures Stream(a + b) == Stream(a) + Stream(b)
  {
    if |a| == 0 {
      assert a + b == b;
    } else {
      assert (a + b)[1..] == a[1..] + b;
      StreamAppend(a[1..], b);
    }
  }

  /** What stands behind a NAL unit: nothing, or the next start code. */
  lemma StreamStarts(units: seq<Unit>)
    requires forall i :: 0 <= i < |units| ==> StartCode(units[i].code)
    ensures units == [] ==> Stream(units) == []
    ensures units != [] ==> EndAt(Stream(units), 0)
  {
  }

  /** A carriable unit ends exactly where the next start code begins. */
  lemma UnitEnds(nal: seq<byte>, rest: seq<byte>)
    requires Carriable(nal) && (rest == [] || EndAt(rest, 0))
    ensures FindEnd(nal + rest, 0) == |nal|
  {
    var s := nal + rest;
    forall i | 0 <= i < |nal|
      ensures !EndAt(s, i)
    {
      if i + 2 < |nal| {
        CleanWindows(nal, 0, i);
      } else if i + 1 < |nal| {
        assert s[i + 1] == nal[|nal| - 1];
      }
    }
    if rest != [] {
      assert s[|nal|] == rest[0] && s[|nal| + 1] == rest[1] && s[|nal| + 2] == rest[2];
      assert EndAt(s, |nal|);
    }
  }

  lemma CodeFound(code: seq<byte>, rest: seq<byte>)
    requires StartCode(code)
    ensures FindCode(code + rest, 0) == |code| - 3
    ensures (code + rest)[|code| - 3 + 3..] == rest
  {
    var s := code + rest;
    assert CodeAt(s, |code| - 3);
    assert forall k :: 0 <= k < |code| - 3 ==> !CodeAt(s, k);
  }

  lemma FirstUnit(code: seq<byte>, nal: seq<byte>, rest: seq<byte>)
    requires StartCode(code) && Carriable(nal) && (rest == [] || EndAt(rest, 0))
    ensures Units(code + (nal + rest)) == [nal] + Units(rest)
  {
    CodeFound(code, nal + rest);
    UnitEnds(nal, rest);
    assert (nal + rest)[..|nal|] == nal && (nal + rest)[|nal|..] == rest;
  }

  /** Cutting a stream of carriable units at its start codes gives exactly those units. */
  lemma {:induction false} UnitsOfStream(units: seq<Unit>)
    requires forall i :: 0 <= i < |units| ==> units[i].Valid()
    ensures Units(Stream(units)) == Nals(units)
  {
    hide Units, Carriable, StartCode;
    if |units| > 0 {
      var rest := Stream(units[1..]);
      assert units[0].Valid();
      assert Stream(units) == units[0].code + (units[0].nal + rest);
      StreamStarts(units[1..]);
      FirstUnit(units[0].code, units[0].nal, rest);
      UnitsOfStream(units[1..]);
      assert Nals(units) == [units[0].nal] + Nals(units[1..]);
    } else {
      NoUnits();
    }
  }

  /** The end of the stream also ends a unit whose last byte is zero. */
  lemma LastUnit(unit: Unit)
    requires unit.Whole()
    ensures Units(unit.code + unit.nal) == [unit.nal]
  {
    var nal := unit.nal;
    CodeFound(unit.code, nal);
    forall i | 0 <= i < |nal|
      ensures !EndAt(nal, i)
    {
      if i + 2 < |nal| {
        CleanWindows(nal, 0, i);
      }
    }
    assert FindEnd(nal, 0) == |nal| && nal[..|nal|] == nal && nal[|nal|..] == [];
    NoUnits();
  }

  /** A start code behind it takes that byte. */
  lemma UnitCut(unit: Unit, rest: seq<byte>)
    requires unit.Whole() && !unit.EndsNonzero() && EndAt(rest, 0)
    ensures var units := Units(unit.code + (unit.nal + rest));
            |units| > 0 && units[0] != unit.nal
  {
    var nal := unit.nal;
    var s := nal + rest;
    CodeFound(unit.code, s);
    assert s[|nal| - 1] == 0 && s[|nal|] == rest[0] && s[|nal| + 1] == rest[1];
    assert EndAt(s, |nal| - 1);
    assert |s[..FindEnd(s, 0)]| < |nal|;
  }

  /**
   Cutting a stream at its start codes gives back the units it was made of if and only if none of
   them, the last one excepted, ends in a zero byte.
   */
  lemma {:induction false} UnitsOfStreamIff(units: seq<Unit>)
    requires forall i :: 0 <= i < |units| ==> units[i].Whole()
    ensures Units(Stream(units)) == Nals(units) <==> forall i :: 0 <= i < |units| - 1 ==> units[i].EndsNonzero()
  {
    hide Units, StartCode, EndAt, Clean;
    if |units| > 0 {
      var rest := Stream(units[1..]);
      assert units[0].Whole();
      assert Stream(units) == units[0].code + (units[0].nal + rest);
      StreamStarts(units[1..]);
      RestStarts(units[1..]);
      UnitsOfStreamIff(units[1..]);
      assert Nals(units) == [units[0].nal] + Nals(units[1..]);
      if units[0].EndsNonzero() {
        FirstUnit(units[0].code, units[0].nal, rest);
        assert ([units[0].nal] + Units(rest))[1..] == Units(rest);
        assert Nals(units)[1..] == Nals(units[1..]);
      } else {
        if rest == [] {
          assert units[0].nal + rest == units[0].nal;
          LastUnit(units[0]);
        } else {
          UnitCut(units[0], rest);
        }
      }
    } else {
      NoUnits();
    }
  }

  lemma RestStarts(units: seq<Unit>)
    requires forall i :: 0 <= i < |units| ==> units[i].Whole()
    ensures units != [] <==> Stream(units) != []
  {
  }

  lemma NoUnits()
    ensures Units([]) == []
  {
  }

  // ---------- what the driver puts into a stream ----------

  /** A NAL unit made of an escaped payload whose last byte is not zero. */
  lemma EscapedIsCarriable(raw: seq<byte>)
    requires |raw| > 0 && raw[|raw| - 1] != 0
    ensures Carriable(Escape(raw))
  {
    EscapeIsClean(raw, 0);
    EscapeKeepsLast(raw, 0);
  }

  /** A two-byte header and an escaped payload, as in HEVC slices. */
  lemma HeaderAndEscapedIsCarriable(h0: byte, h1: byte, rbsp: seq<byte>)
    requires h1 != 0 && |rbsp| > 0 && rbsp[|rbsp| - 1] != 0
    ensures Carriable([h0, h1] + Escape(rbsp))
  {
    HeaderThenEscapeIsClean(h0, h1, rbsp);
    EscapeKeepsLast(rbsp, 0);
  }

  /** finish_nal: a start code and the escaped unit, or -1 when the buffer is too small. */
  method FinishNal(buf: array<byte>, at: nat, bufSize: nat, raw: array<byte>, rawSize: nat) returns (used: int)
    requires at + bufSize <= buf.Length && rawSize <= raw.Length && buf != raw
    modifies buf
    ensures var nal := Escape(raw[..rawSize]);
            if bufSize >= 4 && rawSize > 0 && |nal| + 4 <= bufSize && |nal| + 4 <= INT_MAX then
              used == |nal| + 4 && buf[at..at + used] == [0, 0, 0, 1] + nal
            else used == -1
    ensures buf[..at] == old(buf[..at])
  {
    hide EscapeFrom;
    if bufSize < 4 {
      return -1;
    }
    buf[at], buf[at + 1], buf[at + 2], buf[at + 3] := 0, 0, 0, 1;
    ghost var front := buf[..at + 4];
    assert front[at..] == [0, 0, 0, 1];
    var escaped := EmulationPrevent(raw, rawSize, buf, at + 4, bufSize - 4);
    assert front[..at] == buf[..at + 4][..at] == buf[..at];
    if escaped == 0 || escaped > INT_MAX - 4 {
      return -1;
    }
    used := escaped + 4;
    assert buf[at..at + used] == buf[..at + 4][at..] + buf[at + 4..at + used];
  }

  // ---------- packets ----------

  /** The growing packet of packet_append. */
  class Packet {
    var data: array<byte>
    var size: nat

    ghost predicate Valid()
      reads this
    {
      size <= data.Length <= SIZE_MAX
    }

    ghost function Contents(): seq<byte>
      reads this, data
      requires Valid()
    {
      data[..size]
    }

    constructor ()
      ensures Valid() && fresh(data) && Contents() == []
    {
      data, size := new byte[0], 0;
    }

    /** packet_append; `memory` says whether realloc delivers. */
    method Append(src: array<byte>, n: nat, memory: bool) returns (ok: bool)
      requires Valid() && n <= src.Length && src != data
      modifies this, data
      ensures Valid() && (data == old(data) || fresh(data))
      ensures ok ==> Contents() == old(Contents()) + src[..n]
      ensures !ok ==> Contents() == old(Contents()) && n > 0
      ensures !ok ==> !memory || old(size) + n > SIZE_MAX
    {
      if n == 0 {
        return true;
      }
      if size > SIZE_MAX - n {
        return false;
      }
      var needed := size + n;
      if needed > data.Length {
        var capacity := if needed <= (SIZE_MAX - 4096) / 2 then needed * 2 + 4096 else needed;
        if !memory {
          return false;
        }
        var grown := new byte[capacity];
        forall i | 0 <= i < size {
          grown[i] := data[i];
        }
        data := grown;
      }
      forall i | size <= i < needed {
        data[i] := src[i - size];
      }
      size := needed;
      ok := true;
    }
  }
}
