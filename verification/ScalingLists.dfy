/**
 Scaling lists: write_scaling_lists of src/hevc.c against section 7.3.4 of H.265, and
 write_scaling_list of src/h264.c against section 7.3.2.1.1.1 of H.264.  Values go through a scan
 and are coded as differences that wrap to a signed byte.
 */
module ScalingLists {
  import opened Bits
  import opened ExpGolomb
  import opened BitWriter

  // ---------- scan tables ----------

  function DiagonalX4(i: nat): nat {
    match i
    case 0 => 0 case 1 => 0 case 2 => 1 case 3 => 0 case 4 => 1 case 5 => 2 case 6 => 0 case 7 => 1
    case 8 => 2 case 9 => 3 case 10 => 1 case 11 => 2 case 12 => 3 case 13 => 2 case 14 => 3 case _ => 3
  }

  function DiagonalY4(i: nat): nat {
    match i
    case 0 => 0 case 1 => 1 case 2 => 0 case 3 => 2 case 4 => 1 case 5 => 0 case 6 => 3 case 7 => 2
    case 8 => 1 case 9 => 0 case 10 => 3 case 11 => 2 case 12 => 1 case 13 => 3 case 14 => 2 case _ => 3
  }

  function DiagonalX8(i: nat): nat {
    match i
    case 0 => 0 case 1 => 0 case 2 => 1 case 3 => 0 case 4 => 1 case 5 => 2 case 6 => 0 case 7 => 1
    case 8 => 2 case 9 => 3 case 10 => 0 case 11 => 1 case 12 => 2 case 13 => 3 case 14 => 4 case 15 => 0
    case 16 => 1 case 17 => 2 case 18 => 3 case 19 => 4 case 20 => 5 case 21 => 0 case 22 => 1 case 23 => 2
    case 24 => 3 case 25 => 4 case 26 => 5 case 27 => 6 case 28 => 0 case 29 => 1 case 30 => 2 case 31 => 3
    case 32 => 4 case 33 => 5 case 34 => 6 case 35 => 7 case 36 => 1 case 37 => 2 case 38 => 3 case 39 => 4
    case 40 => 5 case 41 => 6 case 42 => 7 case 43 => 2 case 44 => 3 case 45 => 4 case 46 => 5 case 47 => 6
    case 48 => 7 case 49 => 3 case 50 => 4 case 51 => 5 case 52 => 6 case 53 => 7 case 54 => 4 case 55 => 5
    case 56 => 6 case 57 => 7 case 58 => 5 case 59 => 6 case 60 => 7 case 61 => 6 case 62 => 7 case _ => 7
  }

  function DiagonalY8(i: nat): nat {
    match i
    case 0 => 0 case 1 => 1 case 2 => 0 case 3 => 2 case 4 => 1 case 5 => 0 case 6 => 3 case 7 => 2
    case 8 => 1 case 9 => 0 case 10 => 4 case 11 => 3 case 12 => 2 case 13 => 1 case 14 => 0 case 15 => 5
    case 16 => 4 case 17 => 3 case 18 => 2 case 19 => 1 case 20 => 0 case 21 => 6 case 22 => 5 case 23 => 4
    case 24 => 3 case 25 => 2 case 26 => 1 case 27 => 0 case 28 => 7 case 29 => 6 case 30 => 5 case 31 => 4
    case 32 => 3 case 33 => 2 case 34 => 1 case 35 => 0 case 36 => 7 case 37 => 6 case 38 => 5 case 39 => 4
    case 40 => 3 case 41 => 2 case 42 => 1 case 43 => 7 case 44 => 6 case 45 => 5 case 46 => 4 case 47 => 3
    case 48 => 2 case 49 => 7 case 50 => 6 case 51 => 5 case 52 => 4 case 53 => 3 case 54 => 7 case 55 => 6
    case 56 => 5 case 57 => 4 case 58 => 7 case 59 => 6 case 60 => 5 case 61 => 7 case 62 => 6 case _ => 7
  }

  function ZigZag4(i: nat): nat {
    match i
    case 0 => 0 case 1 => 1 case 2 => 4 case 3 => 8 case 4 => 5 case 5 => 2 case 6 => 3 case 7 => 6
    case 8 => 9 case 9 => 12 case 10 => 13 case 11 => 10 case 12 => 7 case 13 => 11 case 14 => 14 case _ => 15
  }

  function ZigZag8(i: nat): nat {
    match i
    case 0 => 0 case 1 => 1 case 2 => 8 case 3 => 16 case 4 => 9 case 5 => 2 case 6 => 3 case 7 => 10
    case 8 => 17 case 9 => 24 case 10 => 32 case 11 => 25 case 12 => 18 case 13 => 11 case 14 => 4 case 15 => 5
    case 16 => 12 case 17 => 19 case 18 => 26 case 19 => 33 case 20 => 40 case 21 => 48 case 22 => 41 case 23 => 34
    case 24 => 27 case 25 => 20 case 26 => 13 case 27 => 6 case 28 => 7 case 29 => 14 case 30 => 21 case 31 => 28
    case 32 => 35 case 33 => 42 case 34 => 49 case 35 => 56 case 36 => 57 case 37 => 50 case 38 => 43 case 39 => 36
    case 40 => 29 case 41 => 22 case 42 => 15 case 43 => 23 case 44 => 30 case 45 => 37 case 46 => 44 case 47 => 51
    case 48 => 58 case 49 => 59 case 50 => 52 case 51 => 45 case 52 => 38 case 53 => 31 case 54 => 39 case 55 => 46
    case 56 => 53 case 57 => 60 case 58 => 61 case 59 => 54 case 60 => 47 case 61 => 55 case 62 => 62 case _ => 63
  }

  datatype Scan = Diagonal4 | Diagonal8 | Frame4 | Frame8 {
    function Size(): nat {
      if Diagonal4? || Frame4? then 16 else 64
    }

    /** The raster position of entry `i`. */
    function Pos(i: nat): nat {
      match this
      case Diagonal4 => 4 * DiagonalY4(i) + DiagonalX4(i)
      case Diagonal8 => 8 * DiagonalY8(i) + DiagonalX8(i)
      case Frame4 => ZigZag4(i)
      case Frame8 => ZigZag8(i)
    }

    /** The entry that visits position `p`. */
    function At(p: nat): nat {
      match this
      case Diagonal4 => Diagonal4At(p)
      case Diagonal8 => Diagonal8At(p)
      case Frame4 => ZigZag4At(p)
      case Frame8 => ZigZag8At(p)
    }
  }

  function Diagonal4At(i: nat): nat {
    match i
    case 0 => 0 case 1 => 2 case 2 => 5 case 3 => 9 case 4 => 1 case 5 => 4 case 6 => 8 case 7 => 12
    case 8 => 3 case 9 => 7 case 10 => 11 case 11 => 14 case 12 => 6 case 13 => 10 case 14 => 13 case _ => 15
  }

  function Diagonal8At(i: nat): nat {
    match i
    case 0 => 0 case 1 => 2 case 2 => 5 case 3 => 9 case 4 => 14 case 5 => 20 case 6 => 27 case 7 => 35
    case 8 => 1 case 9 => 4 case 10 => 8 case 11 => 13 case 12 => 19 case 13 => 26 case 14 => 34 case 15 => 42
    case 16 => 3 case 17 => 7 case 18 => 12 case 19 => 18 case 20 => 25 case 21 => 33 case 22 => 41 case 23 => 48
    case 24 => 6 case 25 => 11 case 26 => 17 case 27 => 24 case 28 => 32 case 29 => 40 case 30 => 47 case 31 => 53
    case 32 => 10 case 33 => 16 case 34 => 23 case 35 => 31 case 36 => 39 case 37 => 46 case 38 => 52 case 39 => 57
    case 40 => 15 case 41 => 22 case 42 => 30 case 43 => 38 case 44 => 45 case 45 => 51 case 46 => 56 case 47 => 60
    case 48 => 21 case 49 => 29 case 50 => 37 case 51 => 44 case 52 => 50 case 53 => 55 case 54 => 59 case 55 => 62
    case 56 => 28 case 57 => 36 case 58 => 43 case 59 => 49 case 60 => 54 case 61 => 58 case 62 => 61 case _ => 63
  }

  function ZigZag4At(i: nat): nat {
    match i
    case 0 => 0 case 1 => 1 case 2 => 5 case 3 => 6 case 4 => 2 case 5 => 4 case 6 => 7 case 7 => 12
    case 8 => 3 case 9 => 8 case 10 => 11 case 11 => 13 case 12 => 9 case 13 => 10 case 14 => 14 case _ => 15
  }

  function ZigZag8At(i: nat): nat {
    match i
    case 0 => 0 case 1 => 1 case 2 => 5 case 3 => 6 case 4 => 14 case 5 => 15 case 6 => 27 case 7 => 28
    case 8 => 2 case 9 => 4 case 10 => 7 case 11 => 13 case 12 => 16 case 13 => 26 case 14 => 29 case 15 => 42
    case 16 => 3 case 17 => 8 case 18 => 12 case 19 => 17 case 20 => 25 case 21 => 30 case 22 => 41 case 23 => 43
    case 24 => 9 case 25 => 11 case 26 => 18 case 27 => 24 case 28 => 31 case 29 => 40 case 30 => 44 case 31 => 53
    case 32 => 10 case 33 => 19 case 34 => 23 case 35 => 32 case 36 => 39 case 37 => 45 case 38 => 52 case 39 => 54
    case 40 => 20 case 41 => 22 case 42 => 33 case 43 => 38 case 44 => 46 case 45 => 51 case 46 => 55 case 47 => 60
    case 48 => 21 case 49 => 34 case 50 => 37 case 51 => 47 case 52 => 50 case 53 => 56 case 54 => 59 case 55 => 61
    case 56 => 35 case 57 => 36 case 58 => 48 case 59 => 49 case 60 => 57 case 61 => 58 case 62 => 62 case _ => 63
  }

  /** The step of section 6.5.3 of H.265: up and to the right, then to the foot of the next diagonal. */
  function NextDiagonal(n: nat, x: nat, y: nat): (nat, nat)
    requires n > 0
  {
    if y > 0 && x + 1 < n then (x + 1, y - 1)
    else if x + y + 1 < n then (0, x + y + 1)
    else (x + y + 2 - n, n - 1)
  }

  /** The tables of src/hevc.c are the up-right diagonal scans of that section. */
  lemma DiagonalTablesMeetStandard(i: nat)
    ensures (DiagonalX4(0), DiagonalY4(0)) == (0, 0) == (DiagonalX8(0), DiagonalY8(0))
    ensures i < 15 ==> (DiagonalX4(i + 1), DiagonalY4(i + 1)) == NextDiagonal(4, DiagonalX4(i), DiagonalY4(i))
    ensures i < 63 ==> (DiagonalX8(i + 1), DiagonalY8(i + 1)) == NextDiagonal(8, DiagonalX8(i), DiagonalY8(i))
  {
  }

  /** The step of the frame zig-zag of section 8.5.6 of H.264: even diagonals run up and to the right, odd ones down and to the left. */
  function NextZigZag(n: nat, x: nat, y: nat): (nat, nat)
    requires n > 0
  {
    if (x + y) % 2 == 0 then
      if x + 1 == n then (x, y + 1) else if y == 0 then (x + 1, 0) else (x + 1, y - 1)
    else
      if y + 1 == n then (x + 1, y) else if x == 0 then (0, y + 1) else (x - 1, y + 1)
  }

  /** The tables of src/h264.c are that zig-zag, as positions in raster order. */
  lemma ZigZagTablesMeetStandard(i: nat)
    ensures ZigZag4(0) == 0 == ZigZag8(0)
    ensures i < 15 ==> (ZigZag4(i + 1) % 4, ZigZag4(i + 1) / 4) == NextZigZag(4, ZigZag4(i) % 4, ZigZag4(i) / 4)
    ensures i < 63 ==> (ZigZag8(i + 1) % 8, ZigZag8(i + 1) / 8) == NextZigZag(8, ZigZag8(i) % 8, ZigZag8(i) / 8)
  {
    hide ZigZag8, NextZigZag;
    ZigZag4Step(i);
    ZigZag8Start();
    if i < 32 {
      ZigZag8Top(i, i / 4 * 4);
    } else if i < 63 {
      ZigZag8Bottom(i, i / 4 * 4);
    }
  }

  lemma ZigZag4Step(i: nat)
    ensures i < 15 ==> (ZigZag4(i + 1) % 4, ZigZag4(i + 1) / 4) == NextZigZag(4, ZigZag4(i) % 4, ZigZag4(i) / 4)
  {
  }

  lemma ZigZag8Start()
    ensures ZigZag8(0) == 0
  {
  }

  lemma ZigZag8Top(i: nat, low: nat)
    requires low <= i < low + 4 && low in {0, 4, 8, 12, 16, 20, 24, 28}
    ensures (ZigZag8(i + 1) % 8, ZigZag8(i + 1) / 8) == NextZigZag(8, ZigZag8(i) % 8, ZigZag8(i) / 8)
  {
    if i < low + 2 { } else { }
  }

  lemma ZigZag8Bottom(i: nat, low: nat)
    requires low <= i < low + 4 && low in {32, 36, 40, 44, 48, 52, 56, 60} && i < 63
    ensures (ZigZag8(i + 1) % 8, ZigZag8(i + 1) / 8) == NextZigZag(8, ZigZag8(i) % 8, ZigZag8(i) / 8)
  {
    if i < low + 2 { } else { }
  }

  lemma Diagonal8Inverse(i: nat, low: nat)
    requires low <= i < low + 8 && low in {0, 8, 16, 24, 32, 40, 48, 56}
    ensures 8 * DiagonalY8(i) + DiagonalX8(i) < 64 && Diagonal8At(8 * DiagonalY8(i) + DiagonalX8(i)) == i
  {
  }

  lemma Diagonal8Covers(p: nat, low: nat)
    requires low <= p < low + 8 && low in {0, 8, 16, 24, 32, 40, 48, 56}
    ensures Diagonal8At(p) < 64 && 8 * DiagonalY8(Diagonal8At(p)) + DiagonalX8(Diagonal8At(p)) == p
  {
    var q := p - low;
    if q < 4 {
      if q < 2 { } else { }
    } else {
      if q < 6 { } else { }
    }
  }

  lemma Frame8Inverse(i: nat, low: nat)
    requires low <= i < low + 8 && low in {0, 8, 16, 24, 32, 40, 48, 56}
    ensures ZigZag8(i) < 64 && ZigZag8At(ZigZag8(i)) == i
  {
    var q := i - low;
    if q < 4 {
      if q < 2 { } else { }
    } else {
      if q < 6 { } else { }
    }
  }

  lemma Frame8Covers(p: nat, low: nat)
    requires low <= p < low + 8 && low in {0, 8, 16, 24, 32, 40, 48, 56}
    ensures ZigZag8At(p) < 64 && ZigZag8(ZigZag8At(p)) == p
  {
    var q := p - low;
    if q < 4 {
      if q < 2 { } else { }
    } else {
      if q < 6 { } else { }
    }
  }

  /** Every scan visits every position exactly once. */
  lemma ScanIsBijection(scan: Scan, i: nat)
    requires i < scan.Size()
    ensures scan.Pos(i) < scan.Size() && scan.At(scan.Pos(i)) == i
    ensures scan.At(i) < scan.Size() && scan.Pos(scan.At(i)) == i
  {
    hide DiagonalX8, DiagonalY8, Diagonal8At, ZigZag8, ZigZag8At;
    match scan
    case Diagonal8 =>
      Diagonal8Inverse(i, i / 8 * 8);
      Diagonal8Covers(i, i / 8 * 8);
    case Frame8 =>
      Frame8Inverse(i, i / 8 * 8);
      Frame8Covers(i, i / 8 * 8);
    case _ =>
  }

  // ---------- matrices and lists ----------

  type Entry = x: int | 0 <= x < 0x100

  predicate IsMatrix(m: seq<Entry>, scan: Scan) {
    |m| == scan.Size()
  }

  /** A matrix in scan order. */
  function Scanned(m: seq<Entry>, scan: Scan): (list: seq<Entry>)
    requires IsMatrix(m, scan)
    ensures |list| == |m|
  {
    seq(|m|, i requires 0 <= i < |m| => ScanIsBijection(scan, i); m[scan.Pos(i)])
  }

  /** The decoder's way back (section 7.3.4): entry i goes to position Pos(i). */
  function Placed(list: seq<Entry>, scan: Scan): (m: seq<Entry>)
    requires IsMatrix(list, scan)
    ensures |m| == |list|
  {
    seq(|list|, p requires 0 <= p < |list| => ScanIsBijection(scan, p); list[scan.At(p)])
  }

  lemma PlacedScanned(m: seq<Entry>, scan: Scan)
    requires IsMatrix(m, scan)
    ensures Placed(Scanned(m, scan), scan) == m
    ensures forall i :: 0 <= i < |m| ==> scan.Pos(i) < |m| && Scanned(m, scan)[i] == m[scan.Pos(i)]
  {
    hide Scan.Pos, Scan.At;
    forall i | 0 <= i < |m|
      ensures scan.Pos(i) < |m| && scan.At(i) < |m| && scan.Pos(scan.At(i)) == i
    {
      ScanIsBijection(scan, i);
    }
  }

  /** The difference as the code wraps it. */
  function Wrapped(value: Entry, last: Entry): (d: int)
    ensures -128 <= d <= 127
    ensures (last + d + 256) % 256 == value
  {
    var delta := value - last;
    if delta > 127 then delta - 256 else if delta < -128 then delta + 256 else delta
  }

  // ---------- codes ----------

  /** Coefficients behind the value `last`, as both writers code them. */
  function CoefCode(list: seq<Entry>, last: Entry): seq<bool> {
    if |list| == 0 then [] else Code(Se(Wrapped(list[0], last))) + CoefCode(list[1..], list[0])
  }

  /** scaling_list_data() behind its flags: nextCoef is reduced modulo 256. */
  function ReadCoefs(n: nat, last: int, bits: seq<bool>): Parsed<seq<Entry>> {
    if n == 0 then Done([], bits)
    else
      var (delta, b1) :- ReadSe(bits);
      var next := (last + delta + 256) % 256;
      var (others, rest) :- ReadCoefs(n - 1, next, b1);
      Done([next] + others, rest)
  }

  lemma ReadOneCoef(n: nat, last: Entry, value: Entry, tail: seq<bool>)
    ensures var b := Code(Se(Wrapped(value, last))) + tail; var others := ReadCoefs(n, value, tail);
            ReadCoefs(n + 1, last, b) == if others.Stuck? then Stuck else Done([value] + others.value, others.rest)
  {
    hide ReadSe, Wrapped, UeCode, UnsignedOf;
    ReadSeOfSeCode(Wrapped(value, last), tail);
  }

  lemma {:induction false} ReadCoefsOfCode(list: seq<Entry>, last: Entry, rest: seq<bool>)
    ensures ReadCoefs(|list|, last, CoefCode(list, last) + rest) == Done(list, rest)
  {
    hide Code, ReadCoefs;
    if |list| > 0 {
      var tail := CoefCode(list[1..], list[0]) + rest;
      assert CoefCode(list, last) + rest == Code(Se(Wrapped(list[0], last))) + tail;
      ReadOneCoef(|list| - 1, last, list[0], tail);
      ReadCoefsOfCode(list[1..], list[0], rest);
      assert list == [list[0]] + list[1..];
    } else {
      NoCoefs(last, CoefCode(list, last) + rest);
      assert CoefCode(list, last) + rest == rest;
    }
  }

  lemma NoCoefs(last: Entry, bits: seq<bool>)
    ensures ReadCoefs(0, last, bits) == Done([], bits)
  {
  }

  /** scaling_list() of H.264: a value of 0 ends the list, whose rest repeats the last value. */
  function ReadList264(n: nat, last: Entry, next: Entry, bits: seq<bool>): Parsed<seq<Entry>> {
    if n == 0 then Done([], bits)
    else if next == 0 then
      var (others, rest) :- ReadList264(n - 1, last, 0, bits);
      Done([last] + others, rest)
    else
      var (delta, b1) :- ReadSe(bits);
      var value: Entry := (last + delta + 256) % 256;
      var kept := if value == 0 then last else value;
      var (others, rest) :- ReadList264(n - 1, kept, value, b1);
      Done([kept] + others, rest)
  }

  lemma {:induction false} ReadList264OfCode(list: seq<Entry>, last: Entry, next: Entry, rest: seq<bool>)
    requires next != 0 && forall i :: 0 <= i < |list| ==> list[i] != 0
    ensures ReadList264(|list|, last, next, CoefCode(list, last) + rest) == Done(list, rest)
  {
    hide Code, ReadList264;
    if |list| > 0 {
      var tail := CoefCode(list[1..], list[0]) + rest;
      assert CoefCode(list, last) + rest == Code(Se(Wrapped(list[0], last))) + tail;
      ReadOneOf264(|list| - 1, last, next, list[0], tail);
      ReadList264OfCode(list[1..], list[0], list[0], rest);
      assert list == [list[0]] + list[1..];
    } else {
      NoneOf264(last, next, CoefCode(list, last) + rest);
      assert CoefCode(list, last) + rest == rest;
    }
  }

  lemma ReadOneOf264(n: nat, last: Entry, next: Entry, value: Entry, tail: seq<bool>)
    requires next != 0 && value != 0
    ensures var others := ReadList264(n, value, value, tail);
            var all := ReadList264(n + 1, last, next, Code(Se(Wrapped(value, last))) + tail);
            all == if others.Stuck? then Stuck else Done([value] + others.value, others.rest)
  {
    hide ReadSe, Wrapped, UeCode, UnsignedOf;
    ReadSeOfSeCode(Wrapped(value, last), tail);
  }

  lemma NoneOf264(last: Entry, next: Entry, bits: seq<bool>)
    ensures ReadList264(0, last, next, bits) == Done([], bits)
  {
  }

  /** One matrix of H.265: its size class, its entries in raster order, and its DC value. */
  datatype Matrix = Matrix(sizeId: nat, values: seq<Entry>, dc: Entry) {
    function Order(): Scan {
      if sizeId == 0 then Diagonal4 else Diagonal8
    }

    predicate Valid() {
      sizeId <= 3 && IsMatrix(values, Order())
    }

    /** What the writer can express. */
    predicate Writable() {
      sizeId > 1 ==> dc != 0
    }
  }

  /** scaling_list_pred_mode_flag = 1, the DC difference, and the coefficients. */
  function MatrixCode(m: Matrix): seq<bool>
    requires m.Valid()
  {
    [true] + ((if m.sizeId > 1 then Code(Se(m.dc - 8)) else [])
              + CoefCode(Scanned(m.values, m.Order()), if m.sizeId > 1 then m.dc else 8))
  }

  /** What a decoder knows of a matrix: entries in raster order and, for the larger sizes, the DC value. */
  datatype Decoded = Decoded(values: seq<Entry>, dc: int)

  function ReadMatrix(sizeId: nat, bits: seq<bool>): Parsed<Decoded> {
    var (explicit, b1) :- ReadFlag(bits);
    if !explicit then Stuck
    else
      var (dcMinus8, b2) :- if sizeId > 1 then ReadSe(b1) else Done(0, b1);
      if dcMinus8 < -7 then Stuck else ReadValues(if sizeId == 0 then Diagonal4 else Diagonal8, dcMinus8 + 8, b2)
  }

  function ReadValues(order: Scan, dc: int, bits: seq<bool>): Parsed<Decoded> {
    var (list, rest) :- ReadCoefs(order.Size(), dc, bits);
    Done(Decoded(if IsMatrix(list, order) then Placed(list, order) else list, dc), rest)
  }

  lemma ValuesRoundTrip(values: seq<Entry>, order: Scan, last: Entry, rest: seq<bool>)
    requires IsMatrix(values, order)
    ensures ReadValues(order, last, CoefCode(Scanned(values, order), last) + rest) == Done(Decoded(values, last), rest)
  {
    hide Scanned, Placed, CoefCode, ReadCoefs, Scan.Size;
    ReadCoefsOfCode(Scanned(values, order), last, rest);
    PlacedScanned(values, order);
  }

  /** A matrix is read back, entries and DC value, if and only if its DC value is not 0, which section 7.4.5 forbids. */
  lemma MatrixRoundTrip(m: Matrix, rest: seq<bool>)
    requires m.Valid()
    ensures ReadMatrix(m.sizeId, MatrixCode(m) + rest) ==
            if m.sizeId > 1 && m.dc == 0 then Stuck else Done(Decoded(m.values, if m.sizeId > 1 then m.dc else 8), rest)
  {
    hide Scanned, UeCode, UnsignedOf, CoefCode, ReadValues, ReadSe;
    var last := if m.sizeId > 1 then m.dc else 8;
    var b2 := CoefCode(Scanned(m.values, m.Order()), last) + rest;
    var b1 := (if m.sizeId > 1 then UeCode(UnsignedOf(m.dc - 8)) else []) + b2;
    assert MatrixCode(m) + rest == [true] + b1;
    ReadFlagOf(true, b1);
    if m.sizeId > 1 {
      ReadSeOfSeCode(m.dc - 8, b2);
    } else {
      assert b1 == b2;
    }
    ValuesRoundTrip(m.values, m.Order(), last, rest);
  }

  // ---------- VAIQMatrixBufferHEVC and write_scaling_lists ----------

  datatype IqMatrix = IqMatrix(
    list4x4: seq<seq<Entry>>,
    list8x8: seq<seq<Entry>>,
    list16x16: seq<seq<Entry>>,
    list32x32: seq<seq<Entry>>,
    dc16x16: seq<Entry>,
    dc32x32: seq<Entry>
  ) {
    predicate Valid() {
      && |list4x4| == |list8x8| == |list16x16| == |dc16x16| == 6 && |list32x32| == |dc32x32| == 2
      && (forall i :: 0 <= i < 6 ==> |list4x4[i]| == 16 && |list8x8[i]| == 64 && |list16x16[i]| == 64)
      && (forall i :: 0 <= i < 2 ==> |list32x32[i]| == 64)
    }

    /** scaling_matrix and scaling_dc. */
    function Get(sizeId: nat, matrixId: nat): (m: Matrix)
      requires Valid() && sizeId <= 3 && matrixId < 6
      ensures m.Valid() && m.sizeId == sizeId
    {
      match sizeId
      case 0 => Matrix(0, list4x4[matrixId], 8)
      case 1 => Matrix(1, list8x8[matrixId], 8)
      case 2 => Matrix(2, list16x16[matrixId], dc16x16[matrixId])
      case _ => Matrix(3, list32x32[matrixId / 3], dc32x32[matrixId / 3])
    }
  }

  /** The matrices from one on, in the order of the loops. */
  function Matrices(iq: IqMatrix, sizeId: nat, matrixId: nat): (ms: seq<Matrix>)
    requires iq.Valid()
    ensures forall i :: 0 <= i < |ms| ==> ms[i].Valid()
    decreases 4 - sizeId, 6 - matrixId
  {
    if sizeId > 3 then []
    else if matrixId >= 6 then Matrices(iq, sizeId + 1, 0)
    else [iq.Get(sizeId, matrixId)] + Matrices(iq, sizeId, matrixId + (if sizeId == 3 then 3 else 1))
  }

  function MatricesCode(ms: seq<Matrix>): seq<bool>
    requires forall i :: 0 <= i < |ms| ==> ms[i].Valid()
  {
    if |ms| == 0 then [] else MatrixCode(ms[0]) + MatricesCode(ms[1..])
  }

  predicate AllWritable(ms: seq<Matrix>) {
    forall i :: 0 <= i < |ms| ==> ms[i].Writable()
  }

  /** The coefficient loop: `matrix` is read through the scan. */
  method WriteCoefs(bs: BSWriter, values: seq<Entry>, order: Scan, first: Entry)
    requires bs.Valid() && IsMatrix(values, order)
    modifies bs, bs.data
    ensures bs.Valid() && bs.text == old(bs.text) + CoefCode(Scanned(values, order), first)
  {
    hide BSWriter.Valid, Code, Scan.Pos, CoefCode;
    ghost var start, list := bs.text, Scanned(values, order);
    var next: Entry := first;
    for i := 0 to order.Size()
      invariant bs.Valid()
      invariant start + CoefCode(list, first) == bs.text + CoefCode(list[i..], next)
    {
      ScanIsBijection(order, i);
      var value: Entry := values[order.Pos(i)];
      assert list[i..][0] == value && list[i..][1..] == list[i + 1..];
      CoefStep(list[i..], list[i + 1..], next);
      var delta: int := value as int - next;
      if delta > 127 {
        delta := delta - 256;
      }
      if delta < -128 {
        delta := delta + 256;
      }
      bs.WriteSe(delta);
      next := value;
    }
    CoefNothing(list[order.Size()..], next);
  }

  lemma CoefStep(list: seq<Entry>, tail: seq<Entry>, last: Entry)
    requires list != [] && tail == list[1..]
    ensures CoefCode(list, last) == Code(Se(Wrapped(list[0], last))) + CoefCode(tail, list[0])
  {
  }

  lemma CoefNothing(list: seq<Entry>, last: Entry)
    requires list == []
    ensures CoefCode(list, last) == []
  {
  }

  /** One round of the matrix loop. */
  method WriteMatrix(bs: BSWriter, m: Matrix) returns (ok: bool)
    requires bs.Valid() && m.Valid()
    modifies bs, bs.data
    ensures bs.Valid() && ok == m.Writable()
    ensures ok ==> bs.text == old(bs.text) + MatrixCode(m)
  {
    hide BSWriter.Valid, Code, UBits, CoefCode, Scanned;
    bs.Write(1, 1);
    UBitsOfFlag(true);
    var next: Entry := 8;
    if m.sizeId > 1 {
      if m.dc == 0 {
        return false;
      }
      bs.WriteSe(m.dc - 8);
      next := m.dc;
    }
    WriteCoefs(bs, m.values, m.Order(), next);
    ok := true;
  }

  method WriteScalingLists(bs: BSWriter, iq: IqMatrix) returns (ok: bool)
    requires bs.Valid() && iq.Valid()
    modifies bs, bs.data
    ensures bs.Valid() && ok == NoZeroDc(iq)
    ensures ok ==> bs.text == old(bs.text) + MatricesCode(Matrices(iq, 0, 0))
  {
    hide BSWriter.Valid, MatrixCode, Matrices, MatricesCode, Matrix.Writable, Known, ListsOf;
    LoopsVisitAll(iq);
    ghost var start, all := bs.text, Matrices(iq, 0, 0);
    for sizeId := 0 to 4
      invariant bs.Valid() && AllWritable(all) == AllWritable(Matrices(iq, sizeId, 0))
      invariant start + MatricesCode(all) == bs.text + MatricesCode(Matrices(iq, sizeId, 0))
    {
      var step := if sizeId == 3 then 3 else 1;
      var matrixId := 0;
      while matrixId < 6
        invariant matrixId <= 6 && (sizeId == 3 ==> matrixId % 3 == 0)
        invariant bs.Valid() && AllWritable(all) == AllWritable(Matrices(iq, sizeId, matrixId))
        invariant start + MatricesCode(all) == bs.text + MatricesCode(Matrices(iq, sizeId, matrixId))
      {
        MatricesStep(iq, sizeId, matrixId);
        ok := WriteMatrix(bs, iq.Get(sizeId, matrixId));
        if !ok {
          return;
        }
        matrixId := matrixId + step;
      }
      MatricesStep(iq, sizeId, matrixId);
    }
    MatricesStep(iq, 4, 0);
    ok := true;
  }

  lemma MatricesStep(iq: IqMatrix, sizeId: nat, matrixId: nat)
    requires iq.Valid()
    ensures var ms := Matrices(iq, sizeId, matrixId);
            if sizeId > 3 then MatricesCode(ms) == [] && AllWritable(ms)
            else if matrixId >= 6 then ms == Matrices(iq, sizeId + 1, 0)
            else
              var tail := Matrices(iq, sizeId, matrixId + (if sizeId == 3 then 3 else 1)); var m := iq.Get(sizeId, matrixId);
              MatricesCode(ms) == MatrixCode(m) + MatricesCode(tail) && AllWritable(ms) == (m.Writable() && AllWritable(tail))
  {
    hide MatrixCode, Matrix.Writable, Matrix.Valid;
    if sizeId <= 3 && matrixId < 6 {
      var m, tail := iq.Get(sizeId, matrixId), Matrices(iq, sizeId, matrixId + (if sizeId == 3 then 3 else 1));
      assert ([m] + tail)[1..] == tail;
      assert forall i :: 0 <= i < |tail| ==> ([m] + tail)[i + 1] == tail[i];
      if AllWritable([m] + tail) {
        assert ([m] + tail)[0].Writable();
      }
    }
  }

  // ---------- the decoder's view of all lists ----------

  function ReadMatrices(ms: seq<Matrix>, bits: seq<bool>): Parsed<seq<Decoded>> {
    if |ms| == 0 then Done([], bits)
    else
      var (first, b1) :- ReadMatrix(ms[0].sizeId, bits);
      var (others, rest) :- ReadMatrices(ms[1..], b1);
      Done([first] + others, rest)
  }

  function Known(ms: seq<Matrix>): seq<Decoded> {
    seq(|ms|, i requires 0 <= i < |ms| => Decoded(ms[i].values, if ms[i].sizeId > 1 then ms[i].dc else 8))
  }

  /** A set of matrices and DC values is recovered by section 7.3.4 if and only if no DC value is 0. */
  lemma {:induction false} ScalingListsRoundTrip(ms: seq<Matrix>, rest: seq<bool>)
    requires forall i :: 0 <= i < |ms| ==> ms[i].Valid()
    ensures var r := ReadMatrices(ms, MatricesCode(ms) + rest);
            if AllWritable(ms) then r == Done(Known(ms), rest) else r == Stuck
  {
    hide ReadMatrix, MatrixCode, Matrix.Valid;
    if |ms| > 0 {
      var tail := MatricesCode(ms[1..]) + rest;
      assert MatricesCode(ms) + rest == MatrixCode(ms[0]) + tail;
      MatrixRoundTrip(ms[0], tail);
      ScalingListsRoundTrip(ms[1..], rest);
      assert Known(ms) == [Known(ms)[0]] + Known(ms[1..]);
      assert ms == [ms[0]] + ms[1..];
    } else {
      assert MatricesCode(ms) + rest == rest && Known(ms) == [];
    }
  }

  /** What the application gives for the twenty matrices of section 7.3.4, in their order. */
  function ListsOf(iq: IqMatrix): (r: seq<Decoded>)
    requires iq.Valid()
    ensures |r| == 20
  {
    seq(20, i requires 0 <= i < 20 =>
      if i < 6 then Decoded(iq.list4x4[i], 8)
      else if i < 12 then Decoded(iq.list8x8[i - 6], 8)
      else if i < 18 then Decoded(iq.list16x16[i - 12], iq.dc16x16[i - 12])
      else Decoded(iq.list32x32[i - 18], iq.dc32x32[i - 18]))
  }

  predicate NoZeroDc(iq: IqMatrix)
    requires iq.Valid()
  {
    (forall i :: 0 <= i < 6 ==> iq.dc16x16[i] != 0) && forall i :: 0 <= i < 2 ==> iq.dc32x32[i] != 0
  }

  /** Where the loops stand in that order. */
  function Place(sizeId: nat, matrixId: nat): nat {
    if sizeId > 3 then 20 else if sizeId == 3 then 18 + matrixId / 3 else 6 * sizeId + matrixId
  }

  lemma KnownCons(m: Matrix, tail: seq<Matrix>)
    ensures Known([m] + tail) == [Decoded(m.values, if m.sizeId > 1 then m.dc else 8)] + Known(tail)
  {
  }

  lemma {:induction false} KnownFrom(iq: IqMatrix, sizeId: nat, matrixId: nat)
    requires iq.Valid() && sizeId <= 4 && matrixId <= 6 && (sizeId == 3 ==> matrixId % 3 == 0)
    ensures Place(sizeId, matrixId) <= 20 && Known(Matrices(iq, sizeId, matrixId)) == ListsOf(iq)[Place(sizeId, matrixId)..]
    decreases 4 - sizeId, 6 - matrixId
  {
    hide Known, ListsOf, Matrix.Valid, IqMatrix.Get, IqMatrix.Valid;
    if sizeId > 3 {
      NothingKnown();
    } else if matrixId >= 6 {
      KnownFrom(iq, sizeId + 1, 0);
    } else {
      var next := matrixId + (if sizeId == 3 then 3 else 1);
      KnownFrom(iq, sizeId, next);
      var at := Place(sizeId, matrixId);
      assert Place(sizeId, next) == at + 1;
      KnownCons(iq.Get(sizeId, matrixId), Matrices(iq, sizeId, next));
      ListsAt(iq, sizeId, matrixId);
      assert ListsOf(iq)[at..] == [ListsOf(iq)[at]] + ListsOf(iq)[at + 1..];
    }
  }

  lemma NothingKnown()
    ensures Known([]) == []
  {
  }

  lemma ListsAt(iq: IqMatrix, sizeId: nat, matrixId: nat)
    requires iq.Valid() && sizeId <= 3 && matrixId < 6 && (sizeId == 3 ==> matrixId % 3 == 0)
    ensures var m := iq.Get(sizeId, matrixId);
            Place(sizeId, matrixId) < 20 && ListsOf(iq)[Place(sizeId, matrixId)] == Decoded(m.values, if m.sizeId > 1 then m.dc else 8)
  {
  }

  /** The loops visit every matrix of the application in its place, and can write them exactly without a zero DC value. */
  lemma LoopsVisitAll(iq: IqMatrix)
    requires iq.Valid()
    ensures Known(Matrices(iq, 0, 0)) == ListsOf(iq)
    ensures AllWritable(Matrices(iq, 0, 0)) <==> NoZeroDc(iq)
  {
    KnownFrom(iq, 0, 0);
    assert ListsOf(iq)[0..] == ListsOf(iq);
    WritableFrom(iq);
  }

  lemma WritableFrom(iq: IqMatrix)
    requires iq.Valid()
    ensures AllWritable(Matrices(iq, 0, 0)) <==> NoZeroDc(iq)
  {
    hide Matrices, Matrix.Valid, Matrix.Writable, AllWritable, IqMatrix.Get;
    WritableSize(iq, 0, 0);
    WritableSize(iq, 1, 0);
    WritableSize(iq, 2, 0);
    WritableSize(iq, 3, 0);
    NothingLeft(iq);
  }

  lemma NothingLeft(iq: IqMatrix)
    requires iq.Valid()
    ensures AllWritable(Matrices(iq, 4, 0))
  {
  }

  lemma {:induction false} WritableSize(iq: IqMatrix, sizeId: nat, matrixId: nat)
    requires iq.Valid() && sizeId <= 3 && matrixId <= 6 && (sizeId == 3 ==> matrixId % 3 == 0)
    ensures AllWritable(Matrices(iq, sizeId, matrixId)) <==>
            && AllWritable(Matrices(iq, sizeId + 1, 0))
            && (sizeId == 2 ==> forall i :: matrixId <= i < 6 ==> iq.dc16x16[i] != 0)
            && (sizeId == 3 ==> forall i :: matrixId / 3 <= i < 2 ==> iq.dc32x32[i] != 0)
    decreases 6 - matrixId
  {
    hide Matrices, Matrix.Valid, AllWritable, MatricesCode, MatrixCode;
    MatricesStep(iq, sizeId, matrixId);
    if matrixId < 6 {
      var next := matrixId + (if sizeId == 3 then 3 else 1);
      WritableSize(iq, sizeId, next);
      assert sizeId == 2 ==> ((forall i :: matrixId <= i < 6 ==> iq.dc16x16[i] != 0) <==>
                              iq.dc16x16[matrixId] != 0 && forall i :: next <= i < 6 ==> iq.dc16x16[i] != 0);
      assert sizeId == 3 ==> ((forall i :: matrixId / 3 <= i < 2 ==> iq.dc32x32[i] != 0) <==>
                              iq.dc32x32[matrixId / 3] != 0 && forall i :: next / 3 <= i < 2 ==> iq.dc32x32[i] != 0);
    }
  }

  // ---------- write_scaling_list of src/h264.c ----------

  method WriteScalingList264(bs: BSWriter, list: seq<Entry>, scan: Scan) returns (ok: bool)
    requires bs.Valid() && IsMatrix(list, scan)
    modifies bs, bs.data
    ensures bs.Valid() && ok == (forall i :: 0 <= i < |list| ==> list[i] != 0)
    ensures ok ==> bs.text == old(bs.text) + CoefCode(Scanned(list, scan), 8)
  {
    hide BSWriter.Valid, Code, Scan.Pos, CoefCode, Scanned, Placed;
    ghost var start, scanned := bs.text, Scanned(list, scan);
    PlacedScanned(list, scan);
    var last: Entry := 8;
    for i := 0 to scan.Size()
      invariant bs.Valid() && forall j :: 0 <= j < i ==> scanned[j] != 0
      invariant start + CoefCode(scanned, 8) == bs.text + CoefCode(scanned[i..], last)
    {
      ScanIsBijection(scan, i);
      var next: Entry := list[scan.Pos(i)];
      assert scanned[i..][0] == next && scanned[i..][1..] == scanned[i + 1..];
      CoefStep(scanned[i..], scanned[i + 1..], last);
      if next == 0 {
        return false;
      }
      var delta: int := next as int - last;
      if delta > 127 {
        delta := delta - 256;
      } else if delta < -128 {
        delta := delta + 256;
      }
      bs.WriteSe(delta);
      last := next;
    }
    CoefNothing(scanned[scan.Size()..], last);
    NonzeroEverywhere(list, scan);
    ok := true;
  }

  lemma NonzeroEverywhere(list: seq<Entry>, scan: Scan)
    requires IsMatrix(list, scan) && forall j :: 0 <= j < |list| ==> Scanned(list, scan)[j] != 0
    ensures forall i :: 0 <= i < |list| ==> list[i] != 0
  {
    PlacedScanned(list, scan);
    forall i | 0 <= i < |list|
      ensures list[i] != 0
    {
      assert Placed(Scanned(list, scan), scan)[i] == list[i];
    }
  }

  /** Every accepted H.264 list is recovered; none of its entries triggers the fall-back rule. */
  lemma ScalingList264RoundTrip(list: seq<Entry>, scan: Scan, rest: seq<bool>)
    requires IsMatrix(list, scan) && forall i :: 0 <= i < |list| ==> list[i] != 0
    ensures var r := ReadList264(|list|, 8, 8, CoefCode(Scanned(list, scan), 8) + rest);
            r == Done(Scanned(list, scan), rest) && Placed(r.value, scan) == list
  {
    hide Scan.Pos, Scan.At;
    PlacedScanned(list, scan);
    ReadList264OfCode(Scanned(list, scan), 8, 8, rest);
  }
}
