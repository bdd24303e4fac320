/**
 Groups of syntax elements as the parameter sets use them: the shapes are what the standard's syntax
 table says, the values what the driver puts there.  One lemma reads every group back.
 */
module SyntaxElements {
  import opened Bits
  import opened ExpGolomb
  import opened BitWriter

  /** The value a syntax element carries. */
  function Val(s: Syntax): int {
    match s
    case U(_, v) => v
    case Ue(k) => k
    case Se(i) => i
  }

  function Vals(s: seq<Syntax>): (r: seq<int>)
    ensures |r| == |s|
  {
    seq(|s|, i requires 0 <= i < |s| => Val(s[i]))
  }

  /** Reads elements of constant shapes as numbers. */
  function ReadVals(shapes: seq<Syntax>, bits: seq<bool>): Parsed<seq<int>> {
    var (s, rest) :- ReadAll(shapes, bits);
    if |s| != |shapes| then Stuck else Done(Vals(s), rest)
  }

  const FLAG := U(1, 0)
  const UE := Ue(0)
  const SE := Se(0)

  function Ues(n: nat): (r: seq<Syntax>)
    ensures |r| == n && forall i :: 0 <= i < n ==> r[i] == UE
  {
    seq(n, i => UE)
  }

  function Flags(n: nat): (r: seq<Syntax>)
    ensures |r| == n && forall i :: 0 <= i < n ==> r[i] == FLAG
  {
    seq(n, i => FLAG)
  }

  function Bit(b: bool): int {
    if b then 1 else 0
  }

  /** The element of a shape with a value. */
  function Put(shape: Syntax, value: int): Syntax {
    match shape
    case U(n, _) => U(n, if value < 0 then 0 else value)
    case Ue(_) => Ue(if value < 0 then 0 else value)
    case Se(_) => Se(value)
  }

  /** A value that an element of the shape can carry. */
  predicate Holds(shape: Syntax, value: int) {
    match shape
    case U(n, _) => n <= 32 && 0 <= value < Pow2(n)
    case Ue(_) => 0 <= value < WORD - 1
    case Se(_) => -0x4000_0000 < value < 0x4000_0000
  }

  predicate Fit(shapes: seq<Syntax>, values: seq<int>) {
    |shapes| == |values| && forall i :: 0 <= i < |shapes| ==> Holds(shapes[i], values[i])
  }

  function Fill(shapes: seq<Syntax>, values: seq<int>): (r: seq<Syntax>)
    ensures |shapes| == |values| ==> |r| == |shapes|
  {
    if |shapes| != |values| then []
    else seq(|shapes|, i requires 0 <= i < |shapes| => Put(shapes[i], values[i]))
  }

  /** The code of a group of elements. */
  function Print(shapes: seq<Syntax>, values: seq<int>): seq<bool> {
    Encode(Fill(shapes, values))
  }

  lemma FitBoth(front: seq<Syntax>, frontValues: seq<int>, back: seq<Syntax>, backValues: seq<int>)
    requires Fit(front, frontValues) && Fit(back, backValues)
    ensures Fit(front + back, frontValues + backValues)
  {
    hide Holds;
  }

  /** The widths that occur in the parameter sets. */
  lemma SmallPowers()
    ensures Pow2(1) == 2 && Pow2(2) == 4 && Pow2(3) == 8 && Pow2(4) == 16 && Pow2(5) == 32 && Pow2(6) == 64 && Pow2(8) == 256 && Pow2(16) == 0x1_0000
  {
    Pow2Values();
    assert Pow2(2) == 4 && Pow2(3) == 8;
    assert Pow2(5) == 32 && Pow2(6) == 64;
  }

  lemma {:induction false} ReadFilled(shapes: seq<Syntax>, values: seq<int>, bits: seq<bool>)
    requires |shapes| == |values|
    ensures ReadAll(Fill(shapes, values), bits) == ReadAll(shapes, bits)
  {
    if |shapes| > 0 {
      assert Fill(shapes, values)[1..] == Fill(shapes[1..], values[1..]);
      if ReadOne(shapes[0], bits).Done? {
        ReadFilled(shapes[1..], values[1..], ReadOne(shapes[0], bits).rest);
      }
    }
  }

  lemma FilledRepresentable(shapes: seq<Syntax>, values: seq<int>)
    requires Fit(shapes, values)
    ensures forall i :: 0 <= i < |Fill(shapes, values)| ==> Representable(Fill(shapes, values)[i])
    ensures Vals(Fill(shapes, values)) == values
  {
  }

  /** Every group whose values fit is read back, whatever follows, and takes at most 63 bits for an element. */
  lemma ReadPrinted(shapes: seq<Syntax>, values: seq<int>, rest: seq<bool>)
    requires Fit(shapes, values)
    ensures ReadVals(shapes, Print(shapes, values) + rest) == Done(values, rest)
    ensures |Print(shapes, values)| <= 63 * |shapes|
  {
    hide ReadAll, Encode, Representable, Fill, Holds;
    FilledRepresentable(shapes, values);
    ReadFilled(shapes, values, Print(shapes, values) + rest);
    ReadAllOfEncode(Fill(shapes, values), rest);
    EncodeLength(Fill(shapes, values));
  }

  lemma PrintLength(shapes: seq<Syntax>, values: seq<int>)
    requires Fit(shapes, values)
    ensures |Print(shapes, values)| <= 63 * |shapes|
  {
    ReadPrinted(shapes, values, []);
  }

  /** The writer's calls for a group, one after another. */
  method WriteGroup(bs: BSWriter, shapes: seq<Syntax>, values: seq<int>)
    requires bs.Valid() && Fit(shapes, values)
    modifies bs, bs.data
    ensures bs.Valid() && bs.text == old(bs.text) + Print(shapes, values)
  {
    hide BSWriter.Valid, Encode, Representable, Holds, Fill;
    FilledRepresentable(shapes, values);
    WriteAll(bs, Fill(shapes, values));
  }

  lemma EncodeOne(s: Syntax)
    ensures Encode([s]) == Code(s)
  {
    assert Encode([s]) == Code(s) + Encode([]);
  }

  lemma CodeLength(s: Syntax)
    requires Representable(s)
    ensures |Code(s)| <= 63
  {
    hide UeCode, Pow2;
    Pow2Values();
    match s
    case U(_, _) =>
    case Ue(k) => UeCodeLength(k, 32);
    case Se(i) => UeCodeLength(UnsignedOf(i), 32);
  }

  lemma {:induction false} EncodeLength(syntax: seq<Syntax>)
    requires forall i :: 0 <= i < |syntax| ==> Representable(syntax[i])
    ensures |Encode(syntax)| <= 63 * |syntax|
  {
    hide Code, Representable;
    if |syntax| > 0 {
      CodeLength(syntax[0]);
      EncodeLength(syntax[1..]);
    }
  }

  lemma BitIsOne()
    ensures forall b :: (Bit(b) == 1) == b
  {
  }

  // ---------- the two-byte header of H.265 ----------

  const HEVC_HEADER: seq<Syntax> := [FLAG, U(6, 0), U(6, 0), U(3, 0)]

  /** write_nal_header. */
  function HevcHeader(nalType: nat): seq<bool> {
    Print(HEVC_HEADER, [0, nalType, 0, 1])
  }

  lemma HevcHeaderFits(nalType: nat)
    requires nalType < 64
    ensures Fit(HEVC_HEADER, [0, nalType, 0, 1]) && |HevcHeader(nalType)| == 16
  {
    hide Code;
    SmallPowers();
    var f := Fill(HEVC_HEADER, [0, nalType, 0, 1]);
    assert f == [U(1, 0), U(6, nalType), U(6, 0), U(3, 1)];
    assert f == [f[0]] + ([f[1]] + ([f[2]] + [f[3]]));
    EncodeCons(f[0], [f[1]] + ([f[2]] + [f[3]]));
    EncodeCons(f[1], [f[2]] + [f[3]]);
    EncodeCons(f[2], [f[3]]);
    EncodeOne(f[3]);
    UnsignedLength(1, 0);
    UnsignedLength(6, nalType);
    UnsignedLength(6, 0);
    UnsignedLength(3, 1);
  }

  /** nal_unit_header() of section 7.3.1.2 for the base layer and the lowest temporal sub-layer: its type. */
  function ReadHevcUnit(bits: seq<bool>): Parsed<int> {
    var (v, rest) :- ReadVals(HEVC_HEADER, bits);
    if |v| != 4 || v[0] != 0 || v[2] != 0 || v[3] != 1 then Stuck else Done(v[1], rest)
  }

  lemma ReadHevcUnitOf(nalType: nat, rest: seq<bool>)
    requires nalType < 64
    ensures ReadHevcUnit(HevcHeader(nalType) + rest) == Done(nalType, rest)
  {
    hide ReadVals, Print, Fit;
    HevcHeaderFits(nalType);
    ReadPrinted(HEVC_HEADER, [0, nalType, 0, 1], rest);
  }

  lemma UnsignedLength(n: nat, v: nat)
    ensures |Code(U(n, v))| == n
  {
  }
}
