/**
 Image upload and readback: rk_CreateImage and rk_PutImage of src/buffer.c, rk_GetImage of
 src/surface.c.  The strided and interleaving copies are proved to undo each other.
 */
module ImageCopy {
  import opened Options
  import opened Integers
  import opened Bits
  import opened FrameLayout
  import StableExport

  datatype Fourcc = NV12 | P010 | I420 | YV12 | OtherFormat

  /** Where a plane starts and how far apart its rows are. */
  datatype Plane = Plane(off: nat, pitch: nat)

  datatype Layout = Layout(fourcc: Fourcc, width: nat, height: nat, planes: seq<Plane>) {
    predicate Planar() {
      fourcc == I420 || fourcc == YV12
    }

    /** Which plane holds the first and the second chroma sample. */
    function U(): nat {
      if fourcc == I420 then 1 else 2
    }

    function V(): nat {
      if fourcc == I420 then 2 else 1
    }
  }

  // ---------- rows of a strided plane ----------

  function At(p: Plane, r: nat): nat {
    p.off + r * p.pitch
  }

  /** image_plane_fits. */
  predicate PlaneFits(l: Layout, plane: nat, rowBytes: nat, rows: nat, capacity: nat) {
    && plane < |l.planes| && l.planes[plane].pitch >= rowBytes && l.planes[plane].off <= capacity
    && (rows > 0 ==>
          (rows - 1) * l.planes[plane].pitch <= capacity - l.planes[plane].off &&
          rowBytes <= capacity - l.planes[plane].off - (rows - 1) * l.planes[plane].pitch)
  }

  /** First byte behind the last of `rows` rows of `n` bytes. */
  function EndOf(p: Plane, n: nat, rows: nat): nat {
    if rows == 0 then p.off else At(p, rows - 1) + n
  }

  predicate RowsFit(p: Plane, n: nat, rows: nat, size: nat) {
    n <= p.pitch && (rows > 0 ==> EndOf(p, n, rows) <= size)
  }

  predicate Inside(p: Plane, n: nat, rows: nat, k: nat) {
    p.off <= k < EndOf(p, n, rows)
  }

  function Row(data: seq<byte>, p: Plane, r: nat, n: nat): (row: seq<byte>)
    ensures At(p, r) + n <= |data| ==> |row| == n
  {
    if At(p, r) + n <= |data| then data[At(p, r)..At(p, r) + n] else []
  }

  lemma RowsApart(p: Plane, r: nat, q: nat)
    requires r < q
    ensures At(p, r) + p.pitch <= At(p, q)
  {
    var k := q - r - 1;
    assert q * p.pitch == r * p.pitch + p.pitch + k * p.pitch;
  }

  lemma RowFits(p: Plane, n: nat, rows: nat, size: nat, r: nat)
    requires RowsFit(p, n, rows, size) && r < rows
    ensures p.off <= At(p, r) && At(p, r) + n <= EndOf(p, n, rows) <= size
  {
    if r < rows - 1 {
      RowsApart(p, r, rows - 1);
    }
  }

  lemma RowIs(a: array<byte>, p: Plane, r: nat, n: nat)
    requires At(p, r) + n <= a.Length
    ensures Row(a[..], p, r, n) == a[At(p, r)..At(p, r) + n]
  {
  }

  /** Row `r` of one plane holds the same bytes as row `r` of another. */
  predicate SameRow(a: seq<byte>, p: Plane, b: seq<byte>, q: Plane, r: nat, n: nat) {
    Row(a, p, r, n) == Row(b, q, r, n)
  }

  /** Writing row `r` leaves the rows before it alone. */
  lemma EarlierRow(before: seq<byte>, after: seq<byte>, p: Plane, n: nat, rows: nat, q: nat, r: nat)
    requires RowsFit(p, n, rows, |before|) && |after| == |before| && q < r < rows
    requires forall k :: 0 <= k < |before| && !(At(p, r) <= k < At(p, r) + n) && Inside(p, n, rows, k) ==> after[k] == before[k]
    ensures Row(after, p, q, n) == Row(before, p, q, n)
  {
    hide At, EndOf;
    RowFits(p, n, rows, |before|, q);
    RowsApart(p, q, r);
  }

  // ---------- interleaving ----------

  function Interleave(u: seq<byte>, v: seq<byte>): (r: seq<byte>)
    requires |u| == |v|
    ensures |r| == 2 * |u|
  {
    seq(2 * |u|, i requires 0 <= i < 2 * |u| => if i % 2 == 0 then u[i / 2] else v[i / 2])
  }

  /** Every second byte, from byte `first` on. */
  function Every2(s: seq<byte>, first: nat, n: nat): (r: seq<byte>)
    requires first <= 1 && 2 * n <= |s|
    ensures |r| == n
  {
    seq(n, i requires 0 <= i < n => s[2 * i + first])
  }

  lemma Every2OfInterleave(u: seq<byte>, v: seq<byte>)
    requires |u| == |v|
    ensures Every2(Interleave(u, v), 0, |u|) == u && Every2(Interleave(u, v), 1, |u|) == v
  {
  }

  /** Row `r` of the chroma plane holds the samples of the two planes, pair by pair. */
  predicate Woven(uv: seq<byte>, c: Plane, planes: seq<byte>, u: Plane, v: Plane, r: nat, n: nat) {
    var x, y := Row(planes, u, r, n), Row(planes, v, r, n);
    |x| == n && |y| == n && Row(uv, c, r, 2 * n) == Interleave(x, y)
  }

  predicate Unwoven(planes: seq<byte>, u: Plane, v: Plane, uv: seq<byte>, c: Plane, r: nat, n: nat) {
    var z := Row(uv, c, r, 2 * n);
    |z| == 2 * n && Row(planes, u, r, n) == Every2(z, 0, n) && Row(planes, v, r, n) == Every2(z, 1, n)
  }

  // ---------- the copying loops ----------

  /** memcpy of one row. */
  method CopyRow(dst: array<byte>, d: nat, src: array<byte>, s: nat, n: nat)
    requires dst != src && d + n <= dst.Length && s + n <= src.Length
    modifies dst
    ensures dst[d..d + n] == src[s..s + n]
    ensures forall k :: 0 <= k < dst.Length && !(d <= k < d + n) ==> dst[k] == old(dst[k])
  {
    forall k | d <= k < d + n {
      dst[k] := src[k - d + s];
    }
  }

  /** The row loops of both directions. */
  method CopyRows(dst: array<byte>, d: Plane, src: array<byte>, s: Plane, n: nat, rows: nat)
    requires dst != src && RowsFit(d, n, rows, dst.Length) && RowsFit(s, n, rows, src.Length)
    modifies dst
    ensures forall r :: 0 <= r < rows ==> SameRow(dst[..], d, src[..], s, r, n)
    ensures forall k :: 0 <= k < dst.Length && !Inside(d, n, rows, k) ==> dst[k] == old(dst[k])
  {
    hide At, EndOf, Row;
    for r := 0 to rows
      invariant forall q :: 0 <= q < r ==> SameRow(dst[..], d, src[..], s, q, n)
      invariant forall k :: 0 <= k < dst.Length && !Inside(d, n, rows, k) ==> dst[k] == old(dst[k])
    {
      RowFits(d, n, rows, dst.Length, r);
      RowFits(s, n, rows, src.Length, r);
      ghost var before := dst[..];
      CopyRow(dst, At(d, r), src, At(s, r), n);
      forall q | 0 <= q < r
        ensures SameRow(dst[..], d, src[..], s, q, n)
      {
        assert SameRow(before, d, src[..], s, q, n);
        EarlierRow(before, dst[..], d, n, rows, q, r);
      }
      RowIs(dst, d, r, n);
      RowIs(src, s, r, n);
      assert SameRow(dst[..], d, src[..], s, r, n);
    }
  }

  /** The column loop of rk_PutImage for a planar image. */
  method InterleaveRow(dst: array<byte>, d: nat, src: array<byte>, u: nat, v: nat, n: nat)
    requires dst != src && d + 2 * n <= dst.Length && u + n <= src.Length && v + n <= src.Length
    modifies dst
    ensures dst[d..d + 2 * n] == Interleave(src[u..u + n], src[v..v + n])
    ensures forall k :: 0 <= k < dst.Length && !(d <= k < d + 2 * n) ==> dst[k] == old(dst[k])
  {
    hide Interleave;
    InterleaveNothing();
    for column := 0 to n
      invariant dst[d..d + 2 * column] == Interleave(src[u..u + column], src[v..v + column])
      invariant forall k :: 0 <= k < dst.Length && !(d <= k < d + 2 * column) ==> dst[k] == old(dst[k])
    {
      ghost var done := dst[d..d + 2 * column];
      dst[d + 2 * column] := src[u + column];
      dst[d + 2 * column + 1] := src[v + column];
      assert dst[d..d + 2 * column + 2] == done + [src[u + column], src[v + column]];
      InterleaveMore(src[u..u + column], src[v..v + column], src[u + column], src[v + column]);
      assert src[u..u + column + 1] == src[u..u + column] + [src[u + column]];
      assert src[v..v + column + 1] == src[v..v + column] + [src[v + column]];
    }
  }

  lemma InterleaveNothing()
    ensures Interleave([], []) == []
  {
  }

  lemma InterleaveMore(u: seq<byte>, v: seq<byte>, a: byte, b: byte)
    requires |u| == |v|
    ensures Interleave(u + [a], v + [b]) == Interleave(u, v) + [a, b]
  {
  }

  method InterleaveRows(dst: array<byte>, c: Plane, src: array<byte>, u: Plane, v: Plane, n: nat, rows: nat)
    requires dst != src && RowsFit(c, 2 * n, rows, dst.Length)
    requires RowsFit(u, n, rows, src.Length) && RowsFit(v, n, rows, src.Length)
    modifies dst
    ensures forall r :: 0 <= r < rows ==> Woven(dst[..], c, src[..], u, v, r, n)
    ensures forall k :: 0 <= k < dst.Length && !Inside(c, 2 * n, rows, k) ==> dst[k] == old(dst[k])
  {
    hide At, EndOf, Interleave, Row;
    for r := 0 to rows
      invariant forall q :: 0 <= q < r ==> Woven(dst[..], c, src[..], u, v, q, n)
      invariant forall k :: 0 <= k < dst.Length && !Inside(c, 2 * n, rows, k) ==> dst[k] == old(dst[k])
    {
      RowFits(c, 2 * n, rows, dst.Length, r);
      RowFits(u, n, rows, src.Length, r);
      RowFits(v, n, rows, src.Length, r);
      ghost var before := dst[..];
      InterleaveRow(dst, At(c, r), src, At(u, r), At(v, r), n);
      forall q | 0 <= q < r
        ensures Woven(dst[..], c, src[..], u, v, q, n)
      {
        assert Woven(before, c, src[..], u, v, q, n);
        EarlierRow(before, dst[..], c, 2 * n, rows, q, r);
      }
      RowIs(src, u, r, n);
      RowIs(src, v, r, n);
      RowIs(dst, c, r, 2 * n);
      assert Woven(dst[..], c, src[..], u, v, r, n);
    }
  }

  /** The column loop of rk_GetImage for a planar image. */
  method SplitRow(dst: array<byte>, u: nat, v: nat, src: array<byte>, s: nat, n: nat)
    requires dst != src && u + n <= dst.Length && v + n <= dst.Length && s + 2 * n <= src.Length
    requires u + n <= v || v + n <= u
    modifies dst
    ensures dst[u..u + n] == Every2(src[s..s + 2 * n], 0, n) && dst[v..v + n] == Every2(src[s..s + 2 * n], 1, n)
    ensures forall k :: 0 <= k < dst.Length && !(u <= k < u + n) && !(v <= k < v + n) ==> dst[k] == old(dst[k])
  {
    hide Every2;
    ghost var z := src[s..s + 2 * n];
    Every2Nothing(z);
    for column := 0 to n
      invariant dst[u..u + column] == Every2(z, 0, column) && dst[v..v + column] == Every2(z, 1, column)
      invariant forall k :: 0 <= k < dst.Length && !(u <= k < u + column) && !(v <= k < v + column) ==> dst[k] == old(dst[k])
    {
      ghost var us, vs := dst[u..u + column], dst[v..v + column];
      dst[u + column] := src[s + 2 * column];
      dst[v + column] := src[s + 2 * column + 1];
      assert dst[u..u + column + 1] == us + [z[2 * column]];
      assert dst[v..v + column + 1] == vs + [z[2 * column + 1]];
      Every2More(z, column);
    }
  }

  lemma Every2Nothing(z: seq<byte>)
    ensures Every2(z, 0, 0) == [] && Every2(z, 1, 0) == []
  {
  }

  lemma Every2More(z: seq<byte>, n: nat)
    requires 2 * n + 2 <= |z|
    ensures Every2(z, 0, n + 1) == Every2(z, 0, n) + [z[2 * n]]
    ensures Every2(z, 1, n + 1) == Every2(z, 1, n) + [z[2 * n + 1]]
  {
  }

  predicate Apart(u: Plane, v: Plane, n: nat, m: nat, rows: nat, lines: nat) {
    EndOf(u, n, rows) <= v.off || EndOf(v, m, lines) <= u.off
  }

  method SplitRows(dst: array<byte>, u: Plane, v: Plane, src: array<byte>, c: Plane, n: nat, rows: nat)
    requires dst != src && RowsFit(c, 2 * n, rows, src.Length)
    requires RowsFit(u, n, rows, dst.Length) && RowsFit(v, n, rows, dst.Length) && Apart(u, v, n, n, rows, rows)
    modifies dst
    ensures forall r :: 0 <= r < rows ==> Unwoven(dst[..], u, v, src[..], c, r, n)
    ensures forall k :: 0 <= k < dst.Length && !Inside(u, n, rows, k) && !Inside(v, n, rows, k) ==> dst[k] == old(dst[k])
  {
    hide At, EndOf, Every2, Row;
    for r := 0 to rows
      invariant forall q :: 0 <= q < r ==> Unwoven(dst[..], u, v, src[..], c, q, n)
      invariant forall k :: 0 <= k < dst.Length && !Inside(u, n, rows, k) && !Inside(v, n, rows, k) ==> dst[k] == old(dst[k])
    {
      RowFits(c, 2 * n, rows, src.Length, r);
      RowFits(u, n, rows, dst.Length, r);
      RowFits(v, n, rows, dst.Length, r);
      ghost var before := dst[..];
      SplitRow(dst, At(u, r), At(v, r), src, At(c, r), n);
      forall q | 0 <= q < r
        ensures Unwoven(dst[..], u, v, src[..], c, q, n)
      {
        assert Unwoven(before, u, v, src[..], c, q, n);
        EarlierRow(before, dst[..], u, n, rows, q, r);
        EarlierRow(before, dst[..], v, n, rows, q, r);
      }
      RowIs(dst, u, r, n);
      RowIs(dst, v, r, n);
      RowIs(src, c, r, 2 * n);
      assert Unwoven(dst[..], u, v, src[..], c, r, n);
    }
  }

  // ---------- rk_CreateImage ----------

  /** Bytes between two lines of luma: whole blocks of 16 samples. */
  function LumaPitch(fourcc: Fourcc, width: nat): (pitch: nat)
    ensures pitch >= width * (if fourcc == P010 then 2 else 1) && pitch / 2 >= width / 2
  {
    AlignUp(width, 16) * (if fourcc == P010 then 2 else 1)
  }

  /** The layout rk_CreateImage gives an image, and the size of its buffer. */
  function CreatedLayout(fourcc: Fourcc, width: int, height: int): Option<(Layout, nat)> {
    var planar := fourcc == I420 || fourcc == YV12;
    if width <= 0 || height <= 0 || width > 0xffff || height > 0xffff || fourcc == OtherFormat ||
       (planar && (width % 2 == 1 || height % 2 == 1)) then None
    else LayoutFor(fourcc, width, height)
  }

  function LayoutFor(fourcc: Fourcc, width: nat, height: nat): Option<(Layout, nat)> {
    var planar := fourcc == I420 || fourcc == YV12;
    var pitch := LumaPitch(fourcc, width);
    var chroma := if planar then pitch / 2 else pitch;
    var lumaSize, chromaSize := PlaneSize(pitch, height), PlaneSize(chroma, height / 2);
    var size := if planar then Some(lumaSize + 2 * chromaSize) else Nv12Size(pitch, height);
    if size.None? || size.value > UINT_MAX then None
    else
      Some((Layout(fourcc, width, height,
                   [Plane(0, pitch), Plane(lumaSize, chroma)] + (if planar then [Plane(lumaSize + chromaSize, chroma)] else [])),
            size.value))
  }

  /** The image planes hold the visible samples of a surface of this size. */
  predicate ImageHolds(l: Layout, width: nat, height: nat, rowBytes: nat, capacity: nat) {
    && PlaneFits(l, 0, if l.Planar() then width else rowBytes, height, capacity)
    && PlaneFits(l, 1, if l.Planar() then width / 2 else rowBytes, height / 2, capacity)
    && (l.Planar() ==> PlaneFits(l, 2, width / 2, height / 2, capacity))
  }

  /** No two planes share a visible byte. */
  predicate Disjoint(l: Layout, width: nat, height: nat, rowBytes: nat)
    requires |l.planes| >= 2 && (l.Planar() ==> |l.planes| >= 3)
  {
    var m, n := if l.Planar() then width else rowBytes, if l.Planar() then width / 2 else rowBytes;
    && Apart(l.planes[0], l.planes[1], m, n, height, height / 2)
    && (l.Planar() ==>
          Apart(l.planes[0], l.planes[2], m, n, height, height / 2) && Apart(l.planes[1], l.planes[2], n, n, height / 2, height / 2))
  }

  lemma PlaneEnds(p: Plane, n: nat, rows: nat, limit: nat)
    requires n <= p.pitch && rows <= limit
    ensures EndOf(p, n, rows) <= p.off + PlaneSize(p.pitch, limit)
  {
    if rows > 0 {
      var k := limit - rows;
      assert p.pitch * limit == (rows - 1) * p.pitch + p.pitch + p.pitch * k;
    }
  }

  /** Whatever the format and size, the planes of a created image never overlap where samples go. */
  lemma CreatedIsDisjoint(fourcc: Fourcc, width: int, height: int, w: nat, h: nat, rowBytes: nat)
    requires CreatedLayout(fourcc, width, height).Some? && h <= height
    requires var l := CreatedLayout(fourcc, width, height).value.0;
             (if l.Planar() then w else rowBytes) <= l.planes[0].pitch && (if l.Planar() then w / 2 else rowBytes) <= l.planes[1].pitch
    ensures Disjoint(CreatedLayout(fourcc, width, height).value.0, w, h, rowBytes)
  {
    hide EndOf, LumaPitch, Nv12Size, PlaneSize;
    var l := CreatedLayout(fourcc, width, height).value.0;
    var m, n := if l.Planar() then w else rowBytes, if l.Planar() then w / 2 else rowBytes;
    PlaneEnds(l.planes[0], m, h, height);
    PlaneEnds(l.planes[1], n, h / 2, height / 2);
  }

  // ---------- surfaces ----------

  datatype Geometry = Geometry(fourcc: Fourcc, width: nat, height: nat, tenBit: bool, hstride: nat, vstride: nat) {
    function BytesPerSample(): nat {
      if tenBit then 2 else 1
    }

    function RowBytes(): nat {
      width * BytesPerSample()
    }

    /** Surfaces are created, and rebound to decoded frames, with strides that cover them. */
    predicate Valid() {
      0 < height && (vstride == 0 || height <= vstride)
    }
  }

  /** What the image calls see of a surface; the format it was created with stays. */
  function GeometryOf(s: StableExport.Surface, fourcc: Fourcc): Geometry {
    Geometry(fourcc, s.width, s.height, s.tenBit, s.hstride, s.vstride)
  }

  /** Whatever is created, decoded, failed, reused and exported, the strides cover the picture. */
  lemma GeometryStaysValid(width: nat, height: nat, tenBit: bool, encoderInput: bool, placeholder: StableExport.Buffer, bytes: nat,
                           schedule: seq<StableExport.Action>, fourcc: Fourcc)
    requires width > 0 && height > 0
    ensures var created := StableExport.Created(width, height, tenBit, encoderInput, placeholder, bytes);
            var g := GeometryOf(StableExport.Run(StableExport.State(created, multiset{}), schedule).surface, fourcc);
            g.Valid() && g.hstride > 0 && g.vstride > 0
  {
    StableExport.SurfacesCoverPictures(width, height, tenBit, encoderInput, placeholder, bytes, schedule);
  }

  /** A surface exported before its first picture shows its own buffer ever after. */
  lemma StableSurfaceShowsItsOwn(width: nat, height: nat, tenBit: bool, placeholder: StableExport.Buffer, bytes: nat,
                                 schedule: seq<StableExport.Action>)
    requires width > 0 && height > 0
    ensures var s := StableExport.Run(StableExport.FirstExported(width, height, tenBit, placeholder, bytes), schedule).surface;
            StableExport.ActiveBuffer(s) == placeholder
  {
    hide StableExport.Run, StableExport.FirstExported, StableExport.Created;
    StableExport.FirstIsSteady(width, height, tenBit, placeholder, bytes, true, true);
    StableExport.SteadyRun(StableExport.FirstExported(width, height, tenBit, placeholder, bytes), schedule,
                           StableExport.Created(width, height, tenBit, false, placeholder, bytes));
  }

  /** Any NV12 or P010 image of its own size goes into a surface as it was created. */
  lemma CreatedSurfaceAccepts(width: nat, height: nat, tenBit: bool, encoderInput: bool, placeholder: StableExport.Buffer, bytes: nat)
    requires StableExport.Creatable(width, height, tenBit, bytes)
    requires CreatedLayout(if tenBit then P010 else NV12, width, height).Some?
    ensures var fourcc := if tenBit then P010 else NV12;
            var k := CreatedLayout(fourcc, width, height).value;
            PutAccepted(k.0, k.1, GeometryOf(StableExport.Created(width, height, tenBit, encoderInput, placeholder, bytes), fourcc), false,
                        Area(0, 0, width, height, 0, 0, width, height), bytes)
  {
    hide AlignUp, PlaceholderSize, ImageHolds, Disjoint;
    var s := StableExport.Created(width, height, tenBit, encoderInput, placeholder, bytes);
    CreatedHolds(if tenBit then P010 else NV12, width, height, width, height, width * (if tenBit then 2 else 1));
    PlaceholderHolds(width, height, tenBit, s.hstride, s.vstride);
    LumaCovers(s.hstride, width, if tenBit then 2 else 1);
  }

  lemma LumaCovers(hstride: nat, width: nat, samples: nat)
    requires width <= hstride
    ensures width * samples <= hstride * samples
  {
  }

  /** The chroma plane of a linear NV12 or P010 buffer. */
  function Chroma(pitch: nat, vstride: nat): Plane {
    Plane(PlaneSize(pitch, vstride), pitch)
  }

  /** The copy is of the whole surface. */
  datatype Area = Area(srcX: int, srcY: int, srcWidth: nat, srcHeight: nat, dstX: int, dstY: int, dstWidth: nat, dstHeight: nat)

  predicate PutAccepted(l: Layout, capacity: nat, g: Geometry, imported: bool, area: Area, bufferSize: nat) {
    && !imported
    && area == Area(0, 0, l.width, l.height, 0, 0, g.width, g.height) && l.width == g.width && l.height == g.height
    && l.fourcc == g.fourcc && !(l.Planar() && g.tenBit)
    && ImageHolds(l, g.width, g.height, g.RowBytes(), capacity)
    && g.RowBytes() <= g.hstride * g.BytesPerSample()
    && Nv12Size(g.hstride * g.BytesPerSample(), g.vstride).Some?
    && Nv12Size(g.hstride * g.BytesPerSample(), g.vstride).value <= bufferSize
  }

  predicate GetAccepted(l: Layout, capacity: nat, g: Geometry, x: int, y: int, w: nat, h: nat, bufferSize: nat) {
    var pitch := (if g.hstride > 0 then g.hstride else g.width) * g.BytesPerSample();
    var vstride := if g.vstride > 0 then g.vstride else g.height;
    && x == 0 && y == 0 && w == g.width && h == g.height && l.width >= w && l.height >= h
    && l.fourcc == g.fourcc && !(l.Planar() && g.tenBit)
    && g.RowBytes() <= pitch
    && Nv12Size(pitch, vstride).Some? && Nv12Size(pitch, vstride).value <= bufferSize
    && ImageHolds(l, g.width, g.height, g.RowBytes(), capacity)
  }

  /** The luma plane of an NV12 or P010 buffer. */
  function Luma(pitch: nat): Plane {
    Plane(0, pitch)
  }

  /** Bytes of a luma row that are copied, and of a chroma row of the image. */
  function LumaBytes(l: Layout, g: Geometry): nat {
    if l.Planar() then g.width else g.RowBytes()
  }

  function ChromaBytes(l: Layout, g: Geometry): nat {
    if l.Planar() then g.width / 2 else g.RowBytes()
  }

  /** Bytes of a chroma row of the surface. */
  function PairBytes(l: Layout, g: Geometry): nat {
    if l.Planar() then 2 * (g.width / 2) else g.RowBytes()
  }

  /** The byte belongs to the visible part of a linear buffer. */
  predicate InBuffer(l: Layout, g: Geometry, pitch: nat, vstride: nat, k: nat) {
    Inside(Luma(pitch), LumaBytes(l, g), g.height, k) || Inside(Chroma(pitch, vstride), PairBytes(l, g), g.height / 2, k)
  }

  /** The byte belongs to the visible part of an image. */
  predicate InImage(l: Layout, g: Geometry, k: nat)
    requires |l.planes| >= 2 && (l.Planar() ==> |l.planes| >= 3)
  {
    || Inside(l.planes[0], LumaBytes(l, g), g.height, k)
    || Inside(l.planes[1], ChromaBytes(l, g), g.height / 2, k)
    || (l.Planar() && Inside(l.planes[2], ChromaBytes(l, g), g.height / 2, k))
  }

  /** What rk_PutImage leaves in the surface buffer. */
  ghost predicate Uploaded(l: Layout, image: seq<byte>, buffer: seq<byte>, g: Geometry, pitch: nat, vstride: nat)
    requires |l.planes| >= 2 && (l.Planar() ==> |l.planes| >= 3)
  {
    && (forall r :: 0 <= r < g.height ==> SameRow(image, l.planes[0], buffer, Luma(pitch), r, LumaBytes(l, g)))
    && (forall r :: 0 <= r < g.height / 2 ==>
          if l.Planar() then Woven(buffer, Chroma(pitch, vstride), image, l.planes[l.U()], l.planes[l.V()], r, g.width / 2)
          else SameRow(image, l.planes[1], buffer, Chroma(pitch, vstride), r, g.RowBytes()))
  }

  /** What rk_GetImage leaves in the image. */
  ghost predicate Downloaded(l: Layout, image: seq<byte>, buffer: seq<byte>, g: Geometry, pitch: nat, vstride: nat)
    requires |l.planes| >= 2 && (l.Planar() ==> |l.planes| >= 3)
  {
    && (forall r :: 0 <= r < g.height ==> SameRow(image, l.planes[0], buffer, Luma(pitch), r, LumaBytes(l, g)))
    && (forall r :: 0 <= r < g.height / 2 ==>
          if l.Planar() then Unwoven(image, l.planes[l.U()], l.planes[l.V()], buffer, Chroma(pitch, vstride), r, g.width / 2)
          else SameRow(image, l.planes[1], buffer, Chroma(pitch, vstride), r, g.RowBytes()))
  }

  /** Both images show the same visible samples, plane by plane. */
  ghost predicate SameSamples(l: Layout, image: seq<byte>, k: Layout, copy: seq<byte>, g: Geometry)
    requires |l.planes| >= 2 && (l.Planar() ==> |l.planes| >= 3) && |k.planes| >= 2 && (k.Planar() ==> |k.planes| >= 3)
  {
    var m, n := LumaBytes(l, g), ChromaBytes(l, g);
    && (forall r :: 0 <= r < g.height ==> SameRow(copy, k.planes[0], image, l.planes[0], r, m))
    && (forall r :: 0 <= r < g.height / 2 ==> SameRow(copy, k.planes[1], image, l.planes[1], r, n))
    && (l.Planar() && k.Planar() ==> forall r :: 0 <= r < g.height / 2 ==> SameRow(copy, k.planes[2], image, l.planes[2], r, n))
  }

  /** Uploading and reading back returns every visible sample. */
  lemma RoundTrip(l: Layout, image: seq<byte>, k: Layout, copy: seq<byte>, buffer: seq<byte>, g: Geometry, pitch: nat, vstride: nat)
    requires |l.planes| >= 2 && (l.Planar() ==> |l.planes| >= 3) && |k.planes| >= 2 && (k.Planar() ==> |k.planes| >= 3)
    requires l.fourcc == k.fourcc
    requires Uploaded(l, image, buffer, g, pitch, vstride) && Downloaded(k, copy, buffer, g, pitch, vstride)
    ensures SameSamples(l, image, k, copy, g)
  {
    hide Interleave, Every2, Row;
    var n := g.width / 2;
    forall r | 0 <= r < g.height
      ensures SameRow(copy, k.planes[0], image, l.planes[0], r, LumaBytes(l, g))
    {
      assert SameRow(image, l.planes[0], buffer, Luma(pitch), r, LumaBytes(l, g));
      assert SameRow(copy, k.planes[0], buffer, Luma(pitch), r, LumaBytes(k, g));
    }
    forall r | 0 <= r < g.height / 2
      ensures SameRow(copy, k.planes[1], image, l.planes[1], r, ChromaBytes(l, g))
      ensures l.Planar() ==> SameRow(copy, k.planes[2], image, l.planes[2], r, n)
    {
      if l.Planar() {
        assert Woven(buffer, Chroma(pitch, vstride), image, l.planes[l.U()], l.planes[l.V()], r, n);
        assert Unwoven(copy, k.planes[k.U()], k.planes[k.V()], buffer, Chroma(pitch, vstride), r, n);
        Every2OfInterleave(Row(image, l.planes[l.U()], r, n), Row(image, l.planes[l.V()], r, n));
      } else {
        assert SameRow(image, l.planes[1], buffer, Chroma(pitch, vstride), r, g.RowBytes());
        assert SameRow(copy, k.planes[1], buffer, Chroma(pitch, vstride), r, g.RowBytes());
      }
    }
  }

  lemma InterleaveOfEvery2(z: seq<byte>, n: nat)
    requires |z| == 2 * n
    ensures z == Interleave(Every2(z, 0, n), Every2(z, 1, n))
  {
    var w := Interleave(Every2(z, 0, n), Every2(z, 1, n));
    forall i | 0 <= i < |z|
      ensures z[i] == w[i]
    {
      assert i == 2 * (i / 2) + i % 2;
    }
  }

  /** Reading the samples of an image back means that they were in the buffer that was read. */
  lemma ReadBackMeansUploaded(l: Layout, image: seq<byte>, k: Layout, copy: seq<byte>, buffer: seq<byte>, g: Geometry, pitch: nat, vstride: nat)
    requires |l.planes| >= 2 && (l.Planar() ==> |l.planes| >= 3) && |k.planes| >= 2 && (k.Planar() ==> |k.planes| >= 3)
    requires l.fourcc == k.fourcc
    requires Downloaded(k, copy, buffer, g, pitch, vstride) && SameSamples(l, image, k, copy, g)
    ensures Uploaded(l, image, buffer, g, pitch, vstride)
  {
    hide Interleave, Every2, Row;
    var n := g.width / 2;
    forall r | 0 <= r < g.height
      ensures SameRow(image, l.planes[0], buffer, Luma(pitch), r, LumaBytes(l, g))
    {
      assert SameRow(copy, k.planes[0], image, l.planes[0], r, LumaBytes(l, g));
      assert SameRow(copy, k.planes[0], buffer, Luma(pitch), r, LumaBytes(k, g));
    }
    forall r | 0 <= r < g.height / 2
      ensures if l.Planar() then Woven(buffer, Chroma(pitch, vstride), image, l.planes[l.U()], l.planes[l.V()], r, n)
              else SameRow(image, l.planes[1], buffer, Chroma(pitch, vstride), r, g.RowBytes())
    {
      assert SameRow(copy, k.planes[1], image, l.planes[1], r, ChromaBytes(l, g));
      if l.Planar() {
        assert SameRow(copy, k.planes[2], image, l.planes[2], r, n);
        assert Unwoven(copy, k.planes[k.U()], k.planes[k.V()], buffer, Chroma(pitch, vstride), r, n);
        InterleaveOfEvery2(Row(buffer, Chroma(pitch, vstride), r, 2 * n), n);
      } else {
        assert SameRow(copy, k.planes[1], buffer, Chroma(pitch, vstride), r, g.RowBytes());
      }
    }
  }

  lemma PlaneFitsIn(l: Layout, plane: nat, n: nat, rows: nat, limit: nat, capacity: nat)
    requires plane < |l.planes| && n <= l.planes[plane].pitch && rows <= limit
    requires l.planes[plane].off + PlaneSize(l.planes[plane].pitch, limit) <= capacity
    ensures PlaneFits(l, plane, n, rows, capacity)
  {
    PlaneEnds(l.planes[plane], n, rows, limit);
  }

  lemma HalfRows(pitch: nat, height: nat)
    ensures PlaneSize(pitch, height / 2) <= PlaneSize(pitch, height) / 2
  {
    var h := height / 2;
    assert pitch * height == pitch * (2 * h) + pitch * (height % 2);
    assert pitch * (2 * h) == 2 * (pitch * h);
  }

  /** Every plane of a created image ends inside its buffer. */
  lemma CreatedPlanes(fourcc: Fourcc, width: int, height: int)
    requires CreatedLayout(fourcc, width, height).Some?
    ensures var k := CreatedLayout(fourcc, width, height).value; var l := k.0;
            && |l.planes| == (if l.Planar() then 3 else 2) && l.fourcc == fourcc
            && l.planes[0].off + PlaneSize(l.planes[0].pitch, height) <= k.1
            && l.planes[1].off + PlaneSize(l.planes[1].pitch, height / 2) <= k.1
            && (l.Planar() ==> l.planes[2].off + PlaneSize(l.planes[2].pitch, height / 2) <= k.1)
            && l.planes[0].pitch >= width * (if fourcc == P010 then 2 else 1)
            && l.planes[1].pitch >= (if l.Planar() then width / 2 else width * (if fourcc == P010 then 2 else 1))
            && (l.Planar() ==> l.planes[2].pitch >= width / 2)
  {
    hide Nv12Size, LumaPitch, PlaneSize;
    var l := CreatedLayout(fourcc, width, height).value.0;
    HalfRows(l.planes[0].pitch, height);
    if !l.Planar() {
      Nv12SizeIs(l.planes[0].pitch, height);
    }
  }

  /** A created image holds every surface that is not larger and has its sample size. */
  lemma CreatedHolds(fourcc: Fourcc, width: int, height: int, w: nat, h: nat, rowBytes: nat)
    requires CreatedLayout(fourcc, width, height).Some? && w <= width && h <= height
    requires rowBytes <= w * (if fourcc == P010 then 2 else 1)
    ensures var k := CreatedLayout(fourcc, width, height).value;
            |k.0.planes| == (if k.0.Planar() then 3 else 2) &&
            ImageHolds(k.0, w, h, rowBytes, k.1) && Disjoint(k.0, w, h, rowBytes)
  {
    hide PlaneFits, CreatedLayout, Disjoint;
    var k := CreatedLayout(fourcc, width, height).value;
    var l := k.0;
    CreatedPlanes(fourcc, width, height);
    PlaneFitsIn(l, 0, if l.Planar() then w else rowBytes, h, height, k.1);
    PlaneFitsIn(l, 1, if l.Planar() then w / 2 else rowBytes, h / 2, height / 2, k.1);
    if l.Planar() {
      PlaneFitsIn(l, 2, w / 2, h / 2, height / 2, k.1);
    }
    CreatedIsDisjoint(fourcc, width, height, w, h, rowBytes);
  }

  lemma Nv12SizeIs(stride: nat, vstride: nat)
    requires Nv12Size(stride, vstride).Some?
    ensures Nv12Size(stride, vstride).value == PlaneSize(stride, vstride) + PlaneSize(stride, vstride) / 2
  {
  }

  /** What rk_PutImage accepted can be read back into any created image of the format that is as large. */
  lemma ReadBackAccepted(l: Layout, capacity: nat, g: Geometry, area: Area, bufferSize: nat, width: int, height: int)
    requires PutAccepted(l, capacity, g, false, area, bufferSize)
    requires CreatedLayout(g.fourcc, width, height).Some? && width >= g.width && height >= g.height
    requires g.tenBit ==> g.fourcc == P010
    ensures var k := CreatedLayout(g.fourcc, width, height).value;
            GetAccepted(k.0, k.1, g, 0, 0, g.width, g.height, bufferSize) && Disjoint(k.0, g.width, g.height, g.RowBytes())
  {
    hide Disjoint, ImageHolds;
    CreatedHolds(g.fourcc, width, height, g.width, g.height, g.RowBytes());
  }

  // ---------- the source's objects ----------

  class RKImage {
    const layout: Layout
    const data: array<byte>

    /** rk_CreateImage for a supported format and size. */
    constructor (fourcc: Fourcc, width: int, height: int)
      requires CreatedLayout(fourcc, width, height).Some?
      ensures Valid() && layout == CreatedLayout(fourcc, width, height).value.0
      ensures fresh(data) && data.Length == CreatedLayout(fourcc, width, height).value.1
    {
      var created := CreatedLayout(fourcc, width, height).value;
      layout := created.0;
      data := new byte[created.1];
    }

    /** Images are not changed once they are created. */
    predicate Valid() {
      CreatedLayout(layout.fourcc, layout.width, layout.height) == Some((layout, data.Length))
    }

    lemma HasPlanes()
      requires Valid()
      ensures |layout.planes| == if layout.Planar() then 3 else 2
    {
      CreatedPlanes(layout.fourcc, layout.width, layout.height);
    }
  }

  class RKSurface {
    var geometry: Geometry
    /** A linear import; surfaces over two objects are not modelled. */
    const importBuf: Option<array<byte>>
    /** The driver's own buffer, and the buffer of a decoded picture shown instead. */
    const priv: array<byte>
    var decoded: Option<array<byte>>

    constructor (geometry: Geometry, priv: array<byte>, importBuf: Option<array<byte>>)
      ensures this.geometry == geometry && this.priv == priv && this.importBuf == importBuf && decoded == None
    {
      this.geometry, this.priv, this.importBuf, decoded := geometry, priv, importBuf, None;
    }

    /** The buffer whose picture the surface shows. */
    function Shown(): array<byte>
      reads this
    {
      if importBuf.Some? then importBuf.value else if decoded.Some? then decoded.value else priv
    }

    /**
     rk_PutImage; `syncStart` and `syncEnd` are the outcomes of the cache maintenance around it.
     Bytes of the buffer's layout outside the visible planes become 0, those behind it are kept.
     */
    method PutImage(source: RKImage, area: Area, syncStart: bool, syncEnd: bool) returns (ok: bool)
      requires source.Valid() && source.data != priv && geometry.Valid()
      modifies priv
      ensures |source.layout.planes| == if source.layout.Planar() then 3 else 2
      ensures var accepted := PutAccepted(source.layout, source.data.Length, geometry, importBuf.Some?, area, priv.Length);
              var pitch, vstride := geometry.hstride * geometry.BytesPerSample(), geometry.vstride;
              && ok == (accepted && syncStart && syncEnd)
              && (if accepted && syncStart then
                    && Uploaded(source.layout, source.data[..], priv[..], geometry, pitch, vstride)
                    && forall k :: 0 <= k < priv.Length && !InBuffer(source.layout, geometry, pitch, vstride, k) ==>
                         priv[k] == if k < Nv12Size(pitch, vstride).value then 0 else old(priv[k])
                  else priv[..] == old(priv[..]))
    {
      hide Nv12Size, ImageHolds, Uploaded, InBuffer;
      var l, g := source.layout, geometry;
      source.HasPlanes();
      if !PutAccepted(l, source.data.Length, g, importBuf.Some?, area, priv.Length) || !syncStart {
        return false;
      }
      var pitch := g.hstride * g.BytesPerSample();
      CoversPicture(g, pitch, g.vstride);
      Zero(priv, Nv12Size(pitch, g.vstride).value);
      Upload(source, g, pitch);
      ok := syncEnd;
    }

    /** The copies of rk_PutImage. */
    method Upload(source: RKImage, g: Geometry, pitch: nat)
      requires |source.layout.planes| == (if source.layout.Planar() then 3 else 2) && source.data != priv && g.height <= g.vstride && g.RowBytes() <= pitch
      requires Nv12Size(pitch, g.vstride).Some? && Nv12Size(pitch, g.vstride).value <= priv.Length
      requires ImageHolds(source.layout, g.width, g.height, g.RowBytes(), source.data.Length)
      modifies priv
      ensures Uploaded(source.layout, source.data[..], priv[..], g, pitch, g.vstride)
      ensures forall k :: 0 <= k < priv.Length && !InBuffer(source.layout, g, pitch, g.vstride, k) ==> priv[k] == old(priv[k])
    {
      hide Nv12Size, RowsFit, Inside, ImageHolds, Row, Woven;
      var l := source.layout;
      BufferFits(g, pitch, g.vstride, priv.Length);
      ImageFits(l, g, source.data.Length);
      CopyRows(priv, Luma(pitch), source.data, l.planes[0], LumaBytes(l, g), g.height);
      ghost var before := priv[..];
      ChromaAbove(pitch, g.vstride, ChromaBytes(l, g), g.height / 2);
      ChromaAbove(pitch, g.vstride, 2 * (g.width / 2), g.height / 2);
      if l.Planar() {
        InterleaveRows(priv, Chroma(pitch, g.vstride), source.data, l.planes[l.U()], l.planes[l.V()], g.width / 2, g.height / 2);
      } else {
        CopyRows(priv, Chroma(pitch, g.vstride), source.data, l.planes[1], g.RowBytes(), g.height / 2);
      }
      LumaBelowChroma(before, priv[..], g, l, pitch, g.vstride);
      forall r | 0 <= r < g.height
        ensures SameRow(source.data[..], l.planes[0], priv[..], Luma(pitch), r, LumaBytes(l, g))
      {
        assert SameRow(before, Luma(pitch), source.data[..], l.planes[0], r, LumaBytes(l, g));
      }
      if !l.Planar() {
        forall r | 0 <= r < g.height / 2
          ensures SameRow(source.data[..], l.planes[1], priv[..], Chroma(pitch, g.vstride), r, g.RowBytes())
        {
          assert SameRow(priv[..], Chroma(pitch, g.vstride), source.data[..], l.planes[1], r, g.RowBytes());
        }
      }
    }

    /** rk_GetImage; it reads the buffer that is shown. */
    method GetImage(target: RKImage, x: int, y: int, w: nat, h: nat, syncStart: bool, syncEnd: bool) returns (ok: bool)
      requires target.Valid() && geometry.Valid() && target.data != Shown()
      modifies target.data
      ensures |target.layout.planes| == if target.layout.Planar() then 3 else 2
      ensures var pitch := (if geometry.hstride > 0 then geometry.hstride else geometry.width) * geometry.BytesPerSample();
              var vstride := if geometry.vstride > 0 then geometry.vstride else geometry.height;
              var accepted := GetAccepted(target.layout, target.data.Length, geometry, x, y, w, h, Shown().Length);
              && ok == (accepted && syncStart && syncEnd)
              && (if accepted && syncStart then
                    && Downloaded(target.layout, target.data[..], Shown()[..], geometry, pitch, vstride)
                    && forall k :: 0 <= k < target.data.Length && !InImage(target.layout, geometry, k) ==> target.data[k] == 0
                  else target.data[..] == old(target.data[..]))
    {
      hide Nv12Size, ImageHolds, Downloaded, InImage, Disjoint, CreatedLayout;
      var l, g := target.layout, geometry;
      target.HasPlanes();
      var buffer := if importBuf.Some? then importBuf.value else if decoded.Some? then decoded.value else priv;
      if !GetAccepted(l, target.data.Length, g, x, y, w, h, buffer.Length) || !syncStart {
        return false;
      }
      AcceptedIsDisjoint(target, g);
      var pitch := (if g.hstride > 0 then g.hstride else g.width) * g.BytesPerSample();
      var vstride := if g.vstride > 0 then g.vstride else g.height;
      Zero(target.data, target.data.Length);
      Download(target, buffer, g, pitch, vstride);
      ok := syncEnd;
    }

    /** Into an image that is as large as the surface the planes never run into each other. */
    static lemma AcceptedIsDisjoint(target: RKImage, g: Geometry)
      requires target.Valid() && |target.layout.planes| == (if target.layout.Planar() then 3 else 2)
      requires g.height <= target.layout.height && ImageHolds(target.layout, g.width, g.height, g.RowBytes(), target.data.Length)
      ensures Disjoint(target.layout, g.width, g.height, g.RowBytes())
    {
      hide CreatedLayout, Disjoint;
      var l := target.layout;
      CreatedIsDisjoint(l.fourcc, l.width, l.height, g.width, g.height, g.RowBytes());
    }

    /**
     rk_PutImage, then rk_GetImage, with no decode in between.  On a surface that shows no decoded
     picture every visible sample comes back; on one that does, exactly when the picture shown has
     the samples of the image already.
     */
    method PutThenGet(source: RKImage, area: Area, target: RKImage, x: int, y: int, w: nat, h: nat,
                      putStart: bool, putEnd: bool, getStart: bool, getEnd: bool)
      returns (put: bool, got: bool)
      requires source.Valid() && target.Valid() && geometry.Valid() && source.data != priv && target.data != priv && target.data != Shown()
      requires decoded.Some? ==> decoded.value != priv
      modifies priv, target.data
      ensures |source.layout.planes| == (if source.layout.Planar() then 3 else 2) && |target.layout.planes| == (if target.layout.Planar() then 3 else 2)
      ensures put == (putStart && putEnd && PutAccepted(source.layout, source.data.Length, geometry, importBuf.Some?, area, priv.Length))
      ensures got == (getStart && getEnd && GetAccepted(target.layout, target.data.Length, geometry, x, y, w, h, Shown().Length))
      ensures put && got ==>
                var pitch := geometry.hstride * geometry.BytesPerSample();
                (SameSamples(source.layout, old(source.data[..]), target.layout, target.data[..], geometry) <==>
                 decoded.None? || Uploaded(source.layout, old(source.data[..]), decoded.value[..], geometry, pitch, geometry.vstride))
    {
      hide Nv12Size, ImageHolds, Uploaded, Downloaded, InBuffer, InImage, SameSamples, CreatedLayout;
      ghost var image := source.data[..];
      put := PutImage(source, area, putStart, putEnd);
      ghost var shown := Shown()[..];
      assert decoded.Some? && importBuf.None? ==> shown == old(Shown()[..]);
      got := GetImage(target, x, y, w, h, getStart, getEnd);
      if put && got {
        StridesKnown(geometry);
        var pitch := geometry.hstride * geometry.BytesPerSample();
        RoundTripIff(source.layout, image, target.layout, target.data[..], shown, geometry, pitch, geometry.vstride);
      }
    }

    /** The copies of rk_GetImage. */
    static method Download(target: RKImage, buffer: array<byte>, g: Geometry, pitch: nat, vstride: nat)
      requires |target.layout.planes| == (if target.layout.Planar() then 3 else 2) && target.data != buffer && g.height <= vstride && g.RowBytes() <= pitch
      requires Nv12Size(pitch, vstride).Some? && Nv12Size(pitch, vstride).value <= buffer.Length
      requires ImageHolds(target.layout, g.width, g.height, g.RowBytes(), target.data.Length)
      requires Disjoint(target.layout, g.width, g.height, g.RowBytes())
      modifies target.data
      ensures Downloaded(target.layout, target.data[..], buffer[..], g, pitch, vstride)
      ensures forall k :: 0 <= k < target.data.Length && !InImage(target.layout, g, k) ==> target.data[k] == old(target.data[k])
    {
      hide Nv12Size, RowsFit, Inside, ImageHolds, Row, Unwoven, Apart;
      var l, dp := target.layout, target.data;
      BufferFits(g, pitch, vstride, buffer.Length);
      ImageFits(l, g, dp.Length);
      CopyRows(dp, l.planes[0], buffer, Luma(pitch), LumaBytes(l, g), g.height);
      ghost var before := dp[..];
      ApartMeans(l.planes[0], l.planes[1], LumaBytes(l, g), ChromaBytes(l, g), g.height, g.height / 2);
      if l.Planar() {
        ApartMeans(l.planes[0], l.planes[2], LumaBytes(l, g), ChromaBytes(l, g), g.height, g.height / 2);
        ApartEitherWay(l.planes[1], l.planes[2], ChromaBytes(l, g), g.height / 2);
        SplitRows(dp, l.planes[l.U()], l.planes[l.V()], buffer, Chroma(pitch, vstride), g.width / 2, g.height / 2);
      } else {
        CopyRows(dp, l.planes[1], buffer, Chroma(pitch, vstride), g.RowBytes(), g.height / 2);
      }
      RowsUntouched(before, dp[..], l.planes[0], LumaBytes(l, g), g.height);
      forall r | 0 <= r < g.height
        ensures SameRow(dp[..], l.planes[0], buffer[..], Luma(pitch), r, LumaBytes(l, g))
      {
        assert SameRow(before, l.planes[0], buffer[..], Luma(pitch), r, LumaBytes(l, g));
      }
    }
  }

  lemma StridesKnown(g: Geometry)
    requires Nv12Size(g.hstride * g.BytesPerSample(), g.vstride).Some?
    ensures g.hstride > 0 && g.vstride > 0
  {
  }

  const SMALL := Layout(NV12, 2, 2, [Plane(0, 16), Plane(32, 16)])
  const SMALL_SURFACE := Geometry(NV12, 2, 2, false, 16, 4)
  const SMALL_AREA := Area(0, 0, 2, 2, 0, 0, 2, 2)

  lemma SmallImage()
    ensures CreatedLayout(NV12, 2, 2) == Some((SMALL, 48))
    ensures PutAccepted(SMALL, 48, SMALL_SURFACE, false, SMALL_AREA, 96)
    ensures GetAccepted(SMALL, 48, SMALL_SURFACE, 0, 0, 2, 2, 96)
    ensures SMALL_SURFACE.Valid()
  {
    assert AlignUp(2, 16) == 16;
    assert SMALL.planes + [] == SMALL.planes;
  }

  lemma BrightOnBlack(image: seq<byte>, picture: seq<byte>)
    requires |image| == 48 && |picture| == 96 && image[0] == 255 && picture[0] == 0
    ensures !Uploaded(SMALL, image, picture, SMALL_SURFACE, 16, 4)
  {
    hide Uploaded, Row, At;
    if Uploaded(SMALL, image, picture, SMALL_SURFACE, 16, 4) {
      FirstRow(SMALL, image, picture, SMALL_SURFACE, 16, 4);
      FirstByte(image, Plane(0, 16), 2);
      FirstByte(picture, Luma(16), 2);
      assert false;
    }
  }

  lemma FirstByte(data: seq<byte>, p: Plane, n: nat)
    requires p.off + n <= |data| && n > 0
    ensures |Row(data, p, 0, n)| == n && Row(data, p, 0, n)[0] == data[p.off]
  {
  }

  lemma FirstRow(l: Layout, image: seq<byte>, buffer: seq<byte>, g: Geometry, pitch: nat, vstride: nat)
    requires |l.planes| >= 2 && (l.Planar() ==> |l.planes| >= 3) && g.height > 0
    requires Uploaded(l, image, buffer, g, pitch, vstride)
    ensures SameRow(image, l.planes[0], buffer, Luma(pitch), 0, LumaBytes(l, g))
  {
    hide SameRow, Woven;
  }

  /**
   On a 2x2 NV12 surface that shows a decoded black picture an uploaded image is not read back,
   although both calls succeed.
   */
  method OldPictureReadBack() returns (source: RKImage, target: RKImage, put: bool, got: bool)
    ensures put && got && source.layout == target.layout == SMALL
    ensures !SameSamples(SMALL, source.data[..], SMALL, target.data[..], SMALL_SURFACE)
  {
    hide CreatedLayout, PutAccepted, GetAccepted, Uploaded, SameSamples;
    SmallImage();
    source := new RKImage(NV12, 2, 2);
    target := new RKImage(NV12, 2, 2);
    source.data[0] := 255;
    var priv := new byte[96];
    var picture := new byte[96];
    Zero(picture, 96);
    var surface := new RKSurface(SMALL_SURFACE, priv, None);
    surface.decoded := Some(picture);
    BrightOnBlack(source.data[..], picture[..]);
    put, got := surface.PutThenGet(source, SMALL_AREA, target, 0, 0, 2, 2, true, true, true, true);
  }

  lemma RoundTripIff(l: Layout, image: seq<byte>, k: Layout, copy: seq<byte>, buffer: seq<byte>, g: Geometry, pitch: nat, vstride: nat)
    requires |l.planes| >= 2 && (l.Planar() ==> |l.planes| >= 3) && |k.planes| >= 2 && (k.Planar() ==> |k.planes| >= 3)
    requires l.fourcc == k.fourcc && Downloaded(k, copy, buffer, g, pitch, vstride)
    ensures SameSamples(l, image, k, copy, g) <==> Uploaded(l, image, buffer, g, pitch, vstride)
  {
    hide Uploaded, Downloaded, SameSamples;
    if Uploaded(l, image, buffer, g, pitch, vstride) {
      RoundTrip(l, image, k, copy, buffer, g, pitch, vstride);
    }
    if SameSamples(l, image, k, copy, g) {
      ReadBackMeansUploaded(l, image, k, copy, buffer, g, pitch, vstride);
    }
  }

  lemma ApartMeans(u: Plane, v: Plane, n: nat, m: nat, rows: nat, lines: nat)
    requires Apart(u, v, n, m, rows, lines)
    ensures forall k: nat :: Inside(u, n, rows, k) ==> !Inside(v, m, lines, k)
  {
  }

  lemma ApartEitherWay(u: Plane, v: Plane, n: nat, rows: nat)
    requires Apart(u, v, n, n, rows, rows)
    ensures Apart(v, u, n, n, rows, rows)
  {
  }

  lemma RowsUntouched(before: seq<byte>, after: seq<byte>, p: Plane, n: nat, rows: nat)
    requires RowsFit(p, n, rows, |before|) && |after| == |before|
    requires forall k :: 0 <= k < |before| && Inside(p, n, rows, k) ==> after[k] == before[k]
    ensures forall r :: 0 <= r < rows ==> Row(after, p, r, n) == Row(before, p, r, n)
  {
    forall r | 0 <= r < rows
      ensures Row(after, p, r, n) == Row(before, p, r, n)
    {
      RowFits(p, n, rows, |before|, r);
    }
  }

  lemma CoversPicture(g: Geometry, pitch: nat, vstride: nat)
    requires g.Valid() && vstride == g.vstride && Nv12Size(pitch, vstride).Some?
    ensures g.height <= vstride && Nv12Size(pitch, vstride).value >= 0
  {
  }

  /** Chroma rows lie behind all luma rows. */
  lemma ChromaAbove(pitch: nat, vstride: nat, n: nat, rows: nat)
    ensures forall k: nat :: Inside(Chroma(pitch, vstride), n, rows, k) ==> k >= PlaneSize(pitch, vstride)
  {
  }

  /** memset. */
  method Zero(a: array<byte>, n: nat)
    requires n <= a.Length
    modifies a
    ensures forall k :: 0 <= k < a.Length ==> a[k] == if k < n then 0 else old(a[k])
  {
    forall k | 0 <= k < n {
      a[k] := 0;
    }
  }

  /** The planes of a large enough buffer hold the rows of the picture. */
  lemma BufferFits(g: Geometry, pitch: nat, vstride: nat, size: nat)
    requires g.height <= vstride && g.RowBytes() <= pitch
    requires Nv12Size(pitch, vstride).Some? && Nv12Size(pitch, vstride).value <= size
    ensures PlaneSize(pitch, vstride) <= size
    ensures RowsFit(Luma(pitch), g.width, g.height, size) && RowsFit(Luma(pitch), g.RowBytes(), g.height, size)
    ensures RowsFit(Chroma(pitch, vstride), g.RowBytes(), g.height / 2, size)
    ensures RowsFit(Chroma(pitch, vstride), 2 * (g.width / 2), g.height / 2, size)
  {
    hide EndOf;
    PlaneEnds(Luma(pitch), g.RowBytes(), g.height, vstride);
    PlaneEnds(Luma(pitch), g.width, g.height, vstride);
    HalfRows(pitch, vstride);
    PlaneEnds(Chroma(pitch, vstride), g.RowBytes(), g.height / 2, vstride / 2);
    PlaneEnds(Chroma(pitch, vstride), 2 * (g.width / 2), g.height / 2, vstride / 2);
  }

  lemma ImageFits(l: Layout, g: Geometry, capacity: nat)
    requires |l.planes| >= 2 && (l.Planar() ==> |l.planes| >= 3) && ImageHolds(l, g.width, g.height, g.RowBytes(), capacity)
    ensures RowsFit(l.planes[0], LumaBytes(l, g), g.height, capacity)
    ensures RowsFit(l.planes[1], ChromaBytes(l, g), g.height / 2, capacity)
    ensures l.Planar() ==> RowsFit(l.planes[2], ChromaBytes(l, g), g.height / 2, capacity)
  {
  }

  /** Writing chroma leaves the luma rows. */
  lemma LumaBelowChroma(before: seq<byte>, after: seq<byte>, g: Geometry, l: Layout, pitch: nat, vstride: nat)
    requires g.height <= vstride && LumaBytes(l, g) <= pitch && |after| == |before|
    requires forall k :: 0 <= k < |before| && k < PlaneSize(pitch, vstride) ==> after[k] == before[k]
    requires PlaneSize(pitch, vstride) <= |before|
    ensures forall r :: 0 <= r < g.height ==> Row(after, Luma(pitch), r, LumaBytes(l, g)) == Row(before, Luma(pitch), r, LumaBytes(l, g))
  {
    var m := LumaBytes(l, g);
    forall r | 0 <= r < g.height
      ensures Row(after, Luma(pitch), r, m) == Row(before, Luma(pitch), r, m)
    {
      PlaneEnds(Luma(pitch), m, r + 1, vstride);
    }
  }
}
