/**
 Variable-length codes as the decoder defines them: section 9.2 of ITU-T H.265 (section 9.1
 of H.264).  Parsers consume the front of a bit string; every code is proved to be read back
 by its parser, whatever follows it.
 */
module ExpGolomb {
  import opened Bits

  /** Outcome of reading one element from the front of a bit string; usable with `:-`. */
  datatype Parsed<+T> = Done(value: T, rest: seq<bool>) | Stuck {
    predicate IsFailure() {
      Stuck?
    }

    function PropagateFailure<U>(): Parsed<U>
      requires Stuck?
    {
      Stuck
    }

    function Extract(): (T, seq<bool>)
      requires Done?
    {
      (value, rest)
    }
  }

  // ---------- parsers ----------

  function ReadU(n: nat, bits: seq<bool>): Parsed<nat> {
    if |bits| < n then Stuck else Done(Value(bits[..n]), bits[n..])
  }

  function ReadFlag(bits: seq<bool>): Parsed<bool> {
    if |bits| < 1 then Stuck else Done(bits[0], bits[1..])
  }

  function LeadingZeros(bits: seq<bool>): (z: nat)
    ensures z <= |bits|
    ensures forall i :: 0 <= i < z ==> !bits[i]
    ensures z < |bits| ==> bits[z]
  {
    if |bits| == 0 || bits[0] then 0 else 1 + LeadingZeros(bits[1..])
  }

  /** ue(v): leading zeros, a one, and as many suffix digits as there were zeros. */
  function ReadUe(bits: seq<bool>): Parsed<nat> {
    var z := LeadingZeros(bits);
    if |bits| < 2 * z + 1 then Stuck
    else Done(Pow2(z) - 1 + Value(bits[z + 1..2 * z + 1]), bits[2 * z + 1..])
  }

  /** ue(v) within the range that section 9.2 allows for 32-bit elements. */
  function ReadUe32(bits: seq<bool>): Parsed<nat> {
    if LeadingZeros(bits) > 31 then Stuck else ReadUe(bits)
  }

  /** se(v): codeNum k stands for (-1)^(k+1) * ceil(k / 2). */
  function SignedOf(k: nat): int {
    if k % 2 == 1 then (k + 1) / 2 else -(k / 2)
  }

  function ReadSe(bits: seq<bool>): Parsed<int> {
    var (k, rest) :- ReadUe(bits);
    Done(SignedOf(k), rest)
  }

  // ---------- codes ----------

  function UeCode(v: nat): seq<bool> {
    Zeros(Log2(v + 1)) + UBits(v + 1, Log2(v + 1) + 1)
  }

  /** What src/bs.h writes for a uint32_t: the increment wraps, and UINT32_MAX becomes a lone 0. */
  function UeCode32(v: nat): seq<bool>
    requires v < WORD
  {
    if v == WORD - 1 then [false] else UeCode(v)
  }

  function UnsignedOf(v: int): nat {
    if v <= 0 then -2 * v else 2 * v - 1
  }

  lemma LeadingZerosAre(bits: seq<bool>, z: nat)
    requires z < |bits| && bits[z] && forall i :: 0 <= i < z ==> !bits[i]
    ensures LeadingZeros(bits) == z
  {
  }

  lemma ReadUOfUBits(v: nat, n: nat, rest: seq<bool>)
    requires v < Pow2(n)
    ensures ReadU(n, UBits(v, n) + rest) == Done(v, rest)
  {
    ValueFits(v, n);
    assert (UBits(v, n) + rest)[..n] == UBits(v, n);
    assert (UBits(v, n) + rest)[n..] == rest;
  }

  lemma ReadFlagOf(b: bool, rest: seq<bool>)
    ensures ReadFlag([b] + rest) == Done(b, rest)
  {
  }

  lemma UeCodeShape(v: nat)
    ensures var n := Log2(v + 1);
            UeCode(v) == Zeros(n) + ([true] + UBits(v + 1 - Pow2(n), n))
  {
    UBitsTop(v + 1, Log2(v + 1));
  }

  lemma ReadUeOfShape(n: nat, suffix: seq<bool>, rest: seq<bool>)
    requires |suffix| == n
    ensures ReadUe(Zeros(n) + ([true] + suffix) + rest) == Done(Pow2(n) - 1 + Value(suffix), rest)
  {
    hide LeadingZeros, Value, Pow2;
    var bits := Zeros(n) + ([true] + suffix) + rest;
    LeadingZerosAre(bits, n);
    assert bits[n + 1..2 * n + 1] == suffix;
    assert bits[2 * n + 1..] == rest;
  }

  lemma ReadUeOfUeCode(v: nat, rest: seq<bool>)
    ensures ReadUe(UeCode(v) + rest) == Done(v, rest)
  {
    hide UeCode, ReadUe, UBits, Value, LeadingZeros, Log2, Pow2;
    var n := Log2(v + 1);
    var suffix := UBits(v + 1 - Pow2(n), n);
    UeCodeShape(v);
    ReadUeOfShape(n, suffix, rest);
    ValueFits(v + 1 - Pow2(n), n);
  }

  lemma ReadUe32OfUeCode(v: nat, rest: seq<bool>)
    requires v < WORD - 1
    ensures ReadUe32(UeCode(v) + rest) == Done(v, rest)
  {
    hide UeCode, ReadUe, UBits, LeadingZeros, Log2, Pow2;
    ReadUeOfUeCode(v, rest);
    UeCodeShape(v);
    LeadingZerosAre(UeCode(v) + rest, Log2(v + 1));
    Pow2Values();
    Log2Bound(v + 1, 32);
  }

  lemma ReadSeOfSeCode(v: int, rest: seq<bool>)
    ensures ReadSe(UeCode(UnsignedOf(v)) + rest) == Done(v, rest)
  {
    ReadUeOfUeCode(UnsignedOf(v), rest);
  }

  lemma UeCodeLength(v: nat, n: nat)
    requires v + 1 < Pow2(n)
    ensures |UeCode(v)| <= 2 * n - 1
  {
    Log2Bound(v + 1, n);
  }

  // ---------- sequences of syntax elements ----------

  datatype Syntax = U(n: nat, v: nat) | Ue(k: nat) | Se(i: int)

  /** The element can be written without wrap-around by the 32-bit writers. */
  predicate Representable(s: Syntax) {
    match s
    case U(n, v) => n <= 32 && v < Pow2(n)
    case Ue(k) => k < WORD - 1
    case Se(i) => -0x4000_0000 < i < 0x4000_0000
  }

  function Code(s: Syntax): seq<bool> {
    match s
    case U(n, v) => UBits(v, n)
    case Ue(k) => UeCode(k)
    case Se(i) => UeCode(UnsignedOf(i))
  }

  function Encode(syntax: seq<Syntax>): seq<bool> {
    if |syntax| == 0 then [] else Code(syntax[0]) + Encode(syntax[1..])
  }

  lemma EncodeCons(s: Syntax, syntax: seq<Syntax>)
    ensures Encode([s] + syntax) == Code(s) + Encode(syntax)
  {
    assert ([s] + syntax)[1..] == syntax;
  }

  /** Reading elements of the given shapes, one after another. */
  function ReadAll(shapes: seq<Syntax>, bits: seq<bool>): Parsed<seq<Syntax>> {
    if |shapes| == 0 then Done([], bits)
    else
      var (first, afterFirst) :- ReadOne(shapes[0], bits);
      var (others, rest) :- ReadAll(shapes[1..], afterFirst);
      Done([first] + others, rest)
  }

  function ReadOne(shape: Syntax, bits: seq<bool>): Parsed<Syntax> {
    match shape
    case U(n, _) => var (v, rest) :- ReadU(n, bits); Done(U(n, v), rest)
    case Ue(_) => var (k, rest) :- ReadUe(bits); Done(Ue(k), rest)
    case Se(_) => var (i, rest) :- ReadSe(bits); Done(Se(i), rest)
  }

  lemma ReadOneOfCode(s: Syntax, rest: seq<bool>)
    requires Representable(s)
    ensures ReadOne(s, Code(s) + rest) == Done(s, rest)
  {
    match s
    case U(n, v) => ReadUOfUBits(v, n, rest);
    case Ue(k) => ReadUeOfUeCode(k, rest);
    case Se(i) => ReadSeOfSeCode(i, rest);
  }

  /** Any sequence of u(n), ue(v) and se(v) elements is read back, and the reader ends where it ended. */
  lemma {:induction false} ReadAllOfEncode(syntax: seq<Syntax>, rest: seq<bool>)
    requires forall s :: s in syntax ==> Representable(s)
    ensures ReadAll(syntax, Encode(syntax) + rest) == Done(syntax, rest)
  {
    if |syntax| > 0 {
      var tail := Encode(syntax[1..]) + rest;
      assert Encode(syntax) + rest == Code(syntax[0]) + tail;
      ReadOneOfCode(syntax[0], tail);
      ReadAllOfEncode(syntax[1..], rest);
      assert [syntax[0]] + syntax[1..] == syntax;
    } else {
      assert Encode(syntax) + rest == rest;
    }
  }
}
