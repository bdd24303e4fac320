/**
 Bytes, the bits inside them, and fixed-length codes u(n).  Bit 0 of a byte is its most
 significant bit, the order in which the writer of src/bs.h fills a byte and the reader of
 src/hevc.c consumes it.
 */
module Bits {
  type byte = bv8

  /** Number of values of the source's uint32_t. */
  const WORD := 0x1_0000_0000

  predicate BitAt(b: byte, k: nat)
    requires k < 8
  {
    (b >> (7 - k)) & 1 == 1
  }

  /** The update `byte |= (bit & 1) << (7 - k)`. */
  function OrBit(b: byte, k: nat, bit: bool): (r: byte)
    requires k < 8
    ensures forall j :: 0 <= j < 8 ==> BitAt(r, j) == (BitAt(b, j) || (j == k && bit))
  {
    b | ((if bit then 1 else 0) << (7 - k))
  }

  lemma EqualBytes(a: byte, b: byte)
    requires forall k :: 0 <= k < 8 ==> BitAt(a, k) == BitAt(b, k)
    ensures a == b
  {
    assert BitAt(a, 0) == BitAt(b, 0) && BitAt(a, 1) == BitAt(b, 1);
    assert BitAt(a, 2) == BitAt(b, 2) && BitAt(a, 3) == BitAt(b, 3);
    assert BitAt(a, 4) == BitAt(b, 4) && BitAt(a, 5) == BitAt(b, 5);
    assert BitAt(a, 6) == BitAt(b, 6) && BitAt(a, 7) == BitAt(b, 7);
  }

  /** The bits of a byte string, in stream order. */
  function BitsOf(s: seq<byte>): (r: seq<bool>)
    ensures |r| == 8 * |s|
  {
    seq(8 * |s|, i requires 0 <= i < 8 * |s| => BitAt(s[i / 8], i % 8))
  }

  lemma BitsOfAppend(a: seq<byte>, b: seq<byte>)
    ensures BitsOf(a + b) == BitsOf(a) + BitsOf(b)
  {
    hide BitAt, BitsOf;
    forall i | 0 <= i < 8 * |a + b|
      ensures BitsOf(a + b)[i] == (BitsOf(a) + BitsOf(b))[i]
    {
      var at, k := i / 8, i % 8;
      BitOf(a + b, at, k);
      if at < |a| {
        BitOf(a, at, k);
      } else {
        BitOf(b, at - |a|, k);
      }
    }
  }

  lemma BitOf(s: seq<byte>, at: nat, k: nat)
    requires at < |s| && k < 8
    ensures BitsOf(s)[8 * at + k] == BitAt(s[at], k)
  {
    hide BitAt;
    BitPosition(at, k);
  }

  lemma {:induction false} OrBitInPlace(s: seq<byte>, at: nat, k: nat, bit: bool)
    requires at < |s| && k < 8
    ensures var i := 8 * at + k;
            BitsOf(s[at := OrBit(s[at], k, bit)]) == BitsOf(s)[i := BitsOf(s)[i] || bit]
  {
    hide BitAt, OrBit, BitsOf;
    var i, t := 8 * at + k, s[at := OrBit(s[at], k, bit)];
    forall j | 0 <= j < 8 * |s|
      ensures BitsOf(t)[j] == BitsOf(s)[i := BitsOf(s)[i] || bit][j]
    {
      var q, r := j / 8, j % 8;
      BitOf(t, q, r);
      BitOf(s, q, r);
      assert j == i <==> q == at && r == k;
      if q != at {
        assert t[q] == s[q];
      }
    }
  }

  lemma BitPosition(at: nat, k: nat)
    requires k < 8
    ensures (8 * at + k) / 8 == at && (8 * at + k) % 8 == k
  {
  }

  lemma BitsOfSlice(s: seq<byte>, lo: nat, hi: nat)
    requires lo <= hi <= |s|
    ensures BitsOf(s)[8 * lo..8 * hi] == BitsOf(s[lo..hi])
  {
    hide BitsOf;
    assert s == s[..lo] + s[lo..hi] + s[hi..];
    BitsOfAppend(s[..lo] + s[lo..hi], s[hi..]);
    BitsOfAppend(s[..lo], s[lo..hi]);
  }

  lemma BitsOfTail(s: seq<byte>, d: nat)
    requires d <= |s|
    ensures BitsOf(s)[8 * d..] == BitsOf(s[d..])
  {
    BitsOfSlice(s, d, |s|);
    assert s[d..|s|] == s[d..] && 8 * |s| == |BitsOf(s)|;
  }

  lemma {:induction false} BitsOfInjective(a: seq<byte>, b: seq<byte>)
    requires BitsOf(a) == BitsOf(b)
    ensures a == b
  {
    forall i | 0 <= i < |a|
      ensures a[i] == b[i]
    {
      forall k | 0 <= k < 8
        ensures BitAt(a[i], k) == BitAt(b[i], k)
      {
        hide BitAt;
        assert (8 * i + k) / 8 == i && (8 * i + k) % 8 == k;
        assert BitsOf(a)[8 * i + k] == BitsOf(b)[8 * i + k];
      }
      EqualBytes(a[i], b[i]);
    }
  }

  /** The byte whose leading bits are `bits`, the others 0. */
  function ByteOf(bits: seq<bool>): (r: byte)
    requires |bits| <= 8
    ensures forall k :: 0 <= k < 8 ==> BitAt(r, k) == (k < |bits| && bits[k])
  {
    if |bits| == 0 then
      assert forall k :: 0 <= k < 8 ==> !BitAt(0, k);
      0
    else OrBit(ByteOf(bits[..|bits| - 1]), |bits| - 1, bits[|bits| - 1])
  }

  /** A bit string laid out in bytes, the last one padded with zero bits. */
  function Pack(bits: seq<bool>): (r: seq<byte>)
    ensures |r| == (|bits| + 7) / 8
  {
    if |bits| == 0 then []
    else if |bits| < 8 then [ByteOf(bits)]
    else [ByteOf(bits[..8])] + Pack(bits[8..])
  }

  lemma BitsOfByte(bits: seq<bool>)
    requires |bits| <= 8
    ensures BitsOf([ByteOf(bits)]) == bits + Zeros(8 - |bits|)
  {
    hide BitAt, ByteOf;
    forall i | 0 <= i < 8
      ensures BitsOf([ByteOf(bits)])[i] == (bits + Zeros(8 - |bits|))[i]
    {
      BitPosition(0, i);
    }
  }

  lemma {:induction false} BitsOfPack(bits: seq<bool>)
    ensures BitsOf(Pack(bits)) == bits + Zeros(8 * |Pack(bits)| - |bits|)
  {
    hide BitsOf, ByteOf;
    if |bits| == 0 {
      assert BitsOf([]) == [];
    } else if |bits| < 8 {
      BitsOfByte(bits);
    } else {
      BitsOfByte(bits[..8]);
      BitsOfPack(bits[8..]);
      BitsOfAppend([ByteOf(bits[..8])], Pack(bits[8..]));
    }
  }

  /** Bytes are determined by their bits. */
  lemma PackOfBits(s: seq<byte>, bits: seq<bool>)
    requires |s| == (|bits| + 7) / 8 && BitsOf(s) == bits + Zeros(8 * |s| - |bits|)
    ensures s == Pack(bits)
  {
    hide BitsOf, Pack;
    BitsOfPack(bits);
    BitsOfInjective(s, Pack(bits));
  }

  lemma PackAligned(head: seq<bool>, tail: seq<byte>) returns (h: seq<byte>)
    requires |head| % 8 == 0
    ensures BitsOf(h) == head && Pack(head + BitsOf(tail)) == h + tail
  {
    hide BitsOf, Pack;
    h := Pack(head);
    BitsOfPack(head);
    BitsOfAppend(h, tail);
    PackOfBits(h + tail, head + BitsOf(tail));
  }

  function Zeros(n: nat): (r: seq<bool>)
    ensures |r| == n && forall i :: 0 <= i < n ==> !r[i]
  {
    seq(n, i => false)
  }

  /** What is left of `s` in a buffer of `n` bits. */
  function Clip(s: seq<bool>, n: nat): (r: seq<bool>)
    ensures |r| == if |s| <= n then |s| else n
    ensures |s| <= n ==> r == s
  {
    if |s| <= n then s else s[..n]
  }

  /** Appending piece by piece clips to the same text as appending at once. */
  lemma ClipTwice(a: seq<bool>, b: seq<bool>, c: seq<bool>, n: nat)
    ensures Clip(Clip(a + b, n) + c, n) == Clip(a + (b + c), n)
  {
    assert a + (b + c) == (a + b) + c;
  }

  /** What is still to be written begins with `piece`. */
  lemma SplitFront<T>(code: seq<T>, done: nat, piece: seq<T>, rest: seq<T>)
    requires done <= |code| && code[done..] == piece + rest
    ensures done + |piece| <= |code|
    ensures code[..done + |piece|] == code[..done] + piece && code[done + |piece|..] == rest
  {
    assert code == code[..done] + (piece + rest);
  }

  lemma OneMore<T>(s: seq<T>, lo: nat, hi: nat)
    requires lo <= hi < |s|
    ensures s[lo..hi + 1] == s[lo..hi] + [s[hi]]
  {
  }

  lemma Regroup<T>(a: seq<T>, b: seq<T>, c: seq<T>)
    ensures a + (b + c) == a + b + c
  {
  }

  // ---------- numbers ----------

  function Pow2(n: nat): (r: nat)
    ensures r >= 1
  {
    if n == 0 then 1 else 2 * Pow2(n - 1)
  }

  lemma {:induction false} Pow2Add(a: nat, b: nat)
    ensures Pow2(a + b) == Pow2(a) * Pow2(b)
    decreases a
  {
    if a > 0 {
      Pow2Add(a - 1, b);
    }
  }

  lemma Pow2Twice(n: nat)
    ensures Pow2(n + 1) == 2 * Pow2(n)
  {
  }

  lemma {:induction false} Pow2Monotone(a: nat, b: nat)
    requires a <= b
    ensures Pow2(a) <= Pow2(b)
    decreases b - a
  {
    if a < b {
      Pow2Monotone(a, b - 1);
    }
  }

  lemma Pow2Values()
    ensures Pow2(4) == 16 && Pow2(8) == 256 && Pow2(16) == 0x1_0000
    ensures Pow2(31) == 0x8000_0000 && Pow2(32) == WORD
  {
    assert Pow2(20) == 0x10_0000 && Pow2(24) == 0x100_0000 && Pow2(28) == 0x1000_0000;
  }

  /** The unsigned number with binary digits `bits`, most significant first. */
  function Value(bits: seq<bool>): nat
  {
    if |bits| == 0 then 0
    else 2 * Value(bits[..|bits| - 1]) + (if bits[|bits| - 1] then 1 else 0)
  }

  /** The low `n` binary digits of `v`, most significant first: the code u(n). */
  function UBits(v: nat, n: nat): (r: seq<bool>)
    ensures |r| == n
  {
    if n == 0 then [] else UBits(v / 2, n - 1) + [v % 2 == 1]
  }

  lemma UBitsOfFlag(b: bool)
    ensures UBits(if b then 1 else 0, 1) == [b]
  {
    assert UBits(if b then 1 else 0, 1) == UBits(0, 0) + [b];
  }

  lemma {:induction false} ValueBound(bits: seq<bool>)
    ensures Value(bits) < Pow2(|bits|)
  {
    if |bits| > 0 {
      ValueBound(bits[..|bits| - 1]);
    }
  }

  /** u(n) writes a number modulo 2^n, so it is read back exactly when it fits. */
  lemma {:induction false} ValueOfUBits(v: nat, n: nat)
    ensures Value(UBits(v, n)) == v % Pow2(n)
  {
    if n > 0 {
      var bits := UBits(v, n);
      assert bits[..n - 1] == UBits(v / 2, n - 1);
      ValueOfUBits(v / 2, n - 1);
      ModDouble(v, Pow2(n - 1));
    }
  }

  lemma ValueFits(v: nat, n: nat)
    requires v < Pow2(n)
    ensures Value(UBits(v, n)) == v
  {
    ValueOfUBits(v, n);
    ModUnique(v, Pow2(n), 0, v);
  }

  lemma ModDouble(v: nat, m: nat)
    requires m >= 1
    ensures v % (2 * m) == 2 * ((v / 2) % m) + v % 2
  {
    var q, r := (v / 2) / m, (v / 2) % m;
    assert v == (2 * m) * q + (2 * r + v % 2) by {
      assert v / 2 == m * q + r;
      assert v == 2 * (v / 2) + v % 2;
    }
    ModUnique(v, 2 * m, q, 2 * r + v % 2);
  }

  lemma MulBounds(m: int, k: int)
    requires m > 0
    ensures k >= 1 ==> m * k >= m
    ensures k <= -1 ==> m * k <= -m
  {
  }

  lemma ModUnique(v: int, m: int, q: int, r: int)
    requires m > 0 && v == m * q + r && 0 <= r < m
    ensures v % m == r && v / m == q
  {
    var q', r' := v / m, v % m;
    assert v == m * q' + r';
    assert m * (q - q') == r' - r;
    MulBounds(m, q - q');
  }

  lemma {:induction false} UBitsOfValue(bits: seq<bool>)
    ensures UBits(Value(bits), |bits|) == bits
  {
    if |bits| > 0 {
      UBitsOfValue(bits[..|bits| - 1]);
    }
  }

  /** Splitting off the leading digit of an (n+1)-digit number. */
  lemma {:induction false} UBitsTop(v: nat, n: nat)
    requires Pow2(n) <= v < 2 * Pow2(n)
    ensures UBits(v, n + 1) == [true] + UBits(v - Pow2(n), n)
  {
    if n > 0 {
      UBitsTop(v / 2, n - 1);
      assert (v - Pow2(n)) / 2 == v / 2 - Pow2(n - 1);
    } else {
      assert UBits(v / 2, 0) == [];
    }
  }

  /** Index of the leading binary digit. */
  function Log2(v: nat): (r: nat)
    requires v >= 1
    ensures Pow2(r) <= v < 2 * Pow2(r)
  {
    if v == 1 then 0 else 1 + Log2(v / 2)
  }

  lemma {:induction false} Log2Bound(v: nat, n: nat)
    requires 1 <= v < Pow2(n)
    ensures Log2(v) < n
  {
    if n <= Log2(v) {
      Pow2Monotone(n, Log2(v));
    }
  }

  /** `val >> i` for an unsigned `val`. */
  function Shr(val: nat, i: nat): nat {
    if i == 0 then val else Shr(val, i - 1) / 2
  }

  lemma {:induction false} ShrDivides(val: nat, i: nat)
    ensures Shr(val, i) == val / Pow2(i)
  {
    if i > 0 {
      ShrDivides(val, i - 1);
      DivideTwice(val, Pow2(i - 1));
    }
  }

  lemma {:induction false} DivideTwice(v: nat, p: nat)
    requires p >= 1
    ensures v / (2 * p) == v / p / 2
  {
    var w := v / p;
    var q, r := w / 2, (w % 2) * p + v % p;
    assert v == p * w + v % p;
    assert w == 2 * q + w % 2;
    assert p * w == (2 * p) * q + (w % 2) * p;
    ModUnique(v, 2 * p, q, r);
  }
}
