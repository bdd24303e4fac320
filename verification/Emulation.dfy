/**
 Emulation prevention (emulation_prevent of src/hevc.c, the same loop in src/h264.c) and its
 removal (unescape_prefix), against the decoder's rule in section 7.3.1.1 of H.265.
 */
module Emulation {
  import opened Bits

  /** Length of the run of zero bytes ending at `b`, after a run of `z`. */
  function Run(b: byte, z: nat): nat {
    if b == 0 then z + 1 else 0
  }

  /** What is written for a byte behind `z` zero bytes, and the run of zero bytes after it. */
  function Piece(b: byte, z: nat): seq<byte> {
    if z >= 2 && b <= 3 then [3, b] else [b]
  }

  function RunAfterPiece(b: byte, z: nat): nat {
    Run(b, if z >= 2 && b <= 3 then 0 else z)
  }

  function EscapeFrom(s: seq<byte>, z: nat): seq<byte> {
    if |s| == 0 then [] else Piece(s[0], z) + EscapeFrom(s[1..], RunAfterPiece(s[0], z))
  }

  function Escape(s: seq<byte>): seq<byte> {
    EscapeFrom(s, 0)
  }

  /** Section 7.3.1.1: every 03 behind two zero bytes is an emulation prevention byte. */
  function StandardUnescapeFrom(s: seq<byte>, z: nat): seq<byte> {
    if |s| == 0 then []
    else if z >= 2 && s[0] == 3 then StandardUnescapeFrom(s[1..], 0)
    else [s[0]] + StandardUnescapeFrom(s[1..], Run(s[0], z))
  }

  function StandardUnescape(s: seq<byte>): seq<byte> {
    StandardUnescapeFrom(s, 0)
  }

  /** The code's rule: the 03 is dropped only in front of another byte of at most 3. */
  function UnescapeFrom(s: seq<byte>, z: nat): seq<byte> {
    if |s| == 0 then []
    else if z >= 2 && s[0] == 3 && |s| > 1 && s[1] <= 3 then UnescapeFrom(s[1..], 0)
    else [s[0]] + UnescapeFrom(s[1..], Run(s[0], z))
  }

  function Unescape(s: seq<byte>): seq<byte> {
    UnescapeFrom(s, 0)
  }

  /** No 03 behind two zero bytes stands last or in front of a byte above 3. */
  predicate NoStrayThree(s: seq<byte>, z: nat) {
    |s| == 0 ||
    (if z >= 2 && s[0] == 3 then |s| > 1 && s[1] <= 3 && NoStrayThree(s[1..], 0)
     else NoStrayThree(s[1..], Run(s[0], z)))
  }

  /** Behind `z` zero bytes, `s` contains no 00 00 followed by 00, 01 or 02. */
  predicate Clean(s: seq<byte>, z: nat) {
    |s| == 0 || (!(z >= 2 && s[0] <= 2) && Clean(s[1..], Run(s[0], z)))
  }

  // ---------- the loops ----------

  /** `dst[out++] = b`, for the text that starts at `at`. */
  method Store(dst: array<byte>, at: nat, out: nat, b: byte) returns (next: nat)
    requires at + out < dst.Length
    modifies dst
    ensures next == out + 1
    ensures dst[at..at + next] == old(dst[at..at + out]) + [b]
    ensures dst[..at] == old(dst[..at])
  {
    dst[at + out] := b;
    next := out + 1;
  }

  /** One iteration of emulation_prevent. */
  method StorePiece(dst: array<byte>, at: nat, out: nat, dstSize: nat, b: byte, zeros: nat) returns (ok: bool, next: nat)
    requires out <= dstSize && at + dstSize <= dst.Length
    modifies dst
    ensures ok == (out + |Piece(b, zeros)| <= dstSize)
    ensures ok ==> next == out + |Piece(b, zeros)| && dst[at..at + next] == old(dst[at..at + out]) + Piece(b, zeros)
    ensures dst[..at] == old(dst[..at])
  {
    next := out;
    if zeros >= 2 && b <= 3 {
      if next >= dstSize {
        return false, 0;
      }
      next := Store(dst, at, next, 3);
    }
    if next >= dstSize {
      return false, 0;
    }
    next := Store(dst, at, next, b);
    ok := true;
  }

  method EmulationPrevent(src: array<byte>, srcSize: nat, dst: array<byte>, at: nat, dstSize: nat)
    returns (out: nat)
    requires srcSize <= src.Length && at + dstSize <= dst.Length && src != dst
    modifies dst
    ensures out == 0 <==> srcSize == 0 || |Escape(src[..srcSize])| > dstSize
    ensures out > 0 ==> out <= dstSize && dst[at..at + out] == Escape(src[..srcSize])
    ensures dst[..at] == old(dst[..at])
  {
    hide EscapeFrom;
    ghost var all := Escape(src[..srcSize]);
    out := 0;
    var zeros := 0;
    for i := 0 to srcSize
      invariant out <= dstSize && (out == 0 <==> i == 0)
      invariant out <= |all| && dst[at..at + out] == all[..out]
      invariant all[out..] == EscapeFrom(src[i..srcSize], zeros)
      invariant dst[..at] == old(dst[..at])
    {
      EscapeStep(src[i..srcSize], src[i + 1..srcSize], zeros);
      SplitFront(all, out, Piece(src[i], zeros), EscapeFrom(src[i + 1..srcSize], RunAfterPiece(src[i], zeros)));
      var ok;
      ok, out := StorePiece(dst, at, out, dstSize, src[i], zeros);
      if !ok {
        return 0;
      }
      zeros := RunAfterPiece(src[i], zeros);
    }
    EscapeNothing(zeros);
  }

  lemma EscapeNothing(z: nat)
    ensures EscapeFrom([], z) == []
  {
  }

  lemma EscapeStep(s: seq<byte>, tail: seq<byte>, z: nat)
    requires |s| > 0 && tail == s[1..]
    ensures EscapeFrom(s, z) == Piece(s[0], z) + EscapeFrom(tail, RunAfterPiece(s[0], z))
  {
  }

  lemma UnescapeStep(s: seq<byte>, tail: seq<byte>, z: nat)
    requires |s| > 0 && tail == s[1..]
    ensures UnescapeFrom(s, z) == if z >= 2 && s[0] == 3 && |s| > 1 && s[1] <= 3 then UnescapeFrom(tail, 0)
                                  else [s[0]] + UnescapeFrom(tail, Run(s[0], z))
  {
  }

  lemma UnescapeNothing(z: nat)
    ensures UnescapeFrom([], z) == []
  {
  }

  /** unescape_prefix on the bytes from `from`, stopping when `dstSize` bytes are out. */
  method UnescapePrefix(src: array<byte>, from: nat, srcSize: nat, dst: array<byte>, dstSize: nat)
    returns (out: nat)
    requires from + srcSize <= src.Length && dstSize <= dst.Length && src != dst
    modifies dst
    ensures out == (var n := |Unescape(src[from..from + srcSize])|; if n <= dstSize then n else dstSize)
    ensures dst[..out] == Unescape(src[from..from + srcSize])[..out]
  {
    hide UnescapeFrom;
    ghost var s := src[from..from + srcSize];
    out := 0;
    var zeros, i := 0, 0;
    while i < srcSize && out < dstSize
      invariant i <= srcSize && out <= dstSize
      invariant dst[..out] + UnescapeFrom(s[i..], zeros) == Unescape(s)
    {
      UnescapeStep(s[i..], s[i + 1..], zeros);
      if zeros >= 2 && src[from + i] == 3 && i + 1 < srcSize && src[from + i + 1] <= 3 {
        zeros := 0;
      } else {
        ghost var before := dst[..out];
        dst[out] := src[from + i];
        out := out + 1;
        zeros := Run(src[from + i], zeros);
        assert dst[..out] == before + [src[from + i]];
      }
      i := i + 1;
    }
    if i == srcSize {
      UnescapeNothing(zeros);
    }
  }

  // ---------- theorems ----------

  /** Escaping is undone both by the decoder's rule and by the code's. */
  lemma {:induction false} UnescapeOfEscape(s: seq<byte>, z: nat)
    ensures StandardUnescapeFrom(EscapeFrom(s, z), z) == s
    ensures UnescapeFrom(EscapeFrom(s, z), z) == s
  {
    if |s| > 0 {
      var inserted := z >= 2 && s[0] <= 3;
      var z' := Run(s[0], if inserted then 0 else z);
      var tail := EscapeFrom(s[1..], z');
      UnescapeOfEscape(s[1..], z');
      assert ([s[0]] + tail)[1..] == tail;
      if inserted {
        assert EscapeFrom(s, z)[1..] == [s[0]] + tail;
      }
    }
  }

  /** The code's unescaping agrees with the standard's exactly on texts without a stray 03. */
  lemma {:induction false} UnescapeMeetsStandard(s: seq<byte>, z: nat)
    ensures |StandardUnescapeFrom(s, z)| <= |UnescapeFrom(s, z)|
    ensures UnescapeFrom(s, z) == StandardUnescapeFrom(s, z) <==> NoStrayThree(s, z)
  {
    if |s| > 0 {
      UnescapeMeetsStandard(s[1..], if z >= 2 && s[0] == 3 then 0 else Run(s[0], z));
      if z >= 2 && s[0] == 3 && !(|s| > 1 && s[1] <= 3) {
        assert |UnescapeFrom(s, z)| == 1 + |UnescapeFrom(s[1..], 0)|;
      } else if !(z >= 2 && s[0] == 3) {
        assert UnescapeFrom(s, z)[1..] == UnescapeFrom(s[1..], Run(s[0], z));
        assert StandardUnescapeFrom(s, z)[1..] == StandardUnescapeFrom(s[1..], Run(s[0], z));
      }
    }
  }

  /** Emulation prevention costs at most one byte in every two, and none before the third. */
  lemma {:induction false} EscapeGrowth(s: seq<byte>, z: nat)
    ensures |s| <= |EscapeFrom(s, z)|
    ensures |s| >= 1 ==> |EscapeFrom(s, z)| <= |s| + (|s| + (if z >= 2 then 2 else z) - 1) / 2
  {
    if |s| > 0 {
      EscapeGrowth(s[1..], RunAfterPiece(s[0], z));
    }
  }

  function RunAfter(s: seq<byte>, z: nat): nat {
    if |s| == 0 then z else RunAfter(s[1..], RunAfterPiece(s[0], z))
  }

  lemma {:induction false} EscapeAppend(a: seq<byte>, b: seq<byte>, z: nat)
    ensures EscapeFrom(a + b, z) == EscapeFrom(a, z) + EscapeFrom(b, RunAfter(a, z))
  {
    hide EscapeFrom;
    if |a| == 0 {
      assert a + b == b;
      EscapeNothing(z);
    } else {
      var z' := RunAfterPiece(a[0], z);
      EscapeAppend(a[1..], b, z');
      EscapeStep(a, a[1..], z);
      EscapeStep(a + b, a[1..] + b, z);
    }
  }

  lemma {:induction false} RunAfterNonzero(a: seq<byte>, z: nat)
    requires |a| > 0 && a[|a| - 1] != 0
    ensures RunAfter(a, z) == 0
  {
    if |a| > 1 {
      RunAfterNonzero(a[1..], RunAfterPiece(a[0], z));
    }
  }

  /** Behind a nonzero byte the text is escaped as if it stood alone. */
  lemma EscapeDistributes(a: seq<byte>, b: seq<byte>)
    requires |a| > 0 && a[|a| - 1] != 0
    ensures Escape(a + b) == Escape(a) + Escape(b)
  {
    EscapeAppend(a, b, 0);
    RunAfterNonzero(a, 0);
  }

  lemma {:induction false} EscapeKeepsLast(s: seq<byte>, z: nat)
    requires |s| > 0
    ensures var e := EscapeFrom(s, z); |e| > 0 && e[|e| - 1] == s[|s| - 1]
  {
    if |s| > 1 {
      EscapeKeepsLast(s[1..], RunAfterPiece(s[0], z));
    }
  }

  lemma {:induction false} EscapeIsClean(s: seq<byte>, z: nat)
    ensures Clean(EscapeFrom(s, z), z)
  {
    if |s| > 0 {
      var inserted := z >= 2 && s[0] <= 3;
      var z' := Run(s[0], if inserted then 0 else z);
      var tail := EscapeFrom(s[1..], z');
      EscapeIsClean(s[1..], z');
      assert ([s[0]] + tail)[1..] == tail;
      if inserted {
        assert EscapeFrom(s, z)[1..] == [s[0]] + tail;
      }
    }
  }

  /** A clean text holds 00 00 followed by 00, 01 or 02 nowhere. */
  lemma {:induction false} CleanWindows(s: seq<byte>, z: nat, i: nat)
    requires Clean(s, z) && i + 2 < |s|
    ensures !(s[i] == 0 && s[i + 1] == 0 && s[i + 2] <= 2)
  {
    if i > 0 {
      CleanWindows(s[1..], Run(s[0], z), i - 1);
    } else {
      var z' := Run(s[0], z);
      assert s[1..][0] == s[1] && s[1..][1..][0] == s[2];
      assert Clean(s[1..], z') && Clean(s[1..][1..], Run(s[1], z'));
    }
  }

  /** A two-byte NAL unit header with a nonzero second byte does not touch the escaping behind it. */
  lemma HeaderThenEscapeIsClean(h0: byte, h1: byte, payload: seq<byte>)
    requires h1 != 0
    ensures Clean([h0, h1] + Escape(payload), 0)
  {
    var s := [h0, h1] + Escape(payload);
    EscapeIsClean(payload, 0);
    assert s[1..][1..] == Escape(payload);
  }
}
