/**
 What an exported handle, a copied picture and an uploaded image are to those who use them: the handle names
 the planes that the image calls read, copies stay inside both buffers, pictures of a surface's own kind are
 taken, and the chroma samples of every image format go where that format has them.
 */
module SurfaceMeaning {
  import opened Options
  import opened Integers
  import opened Bits
  import opened FrameLayout
  import opened StableExport
  import opened ImageCopy

  // ---------- exporting ----------

  /** The row stride in bytes and the rows of luma, as rk_GetImage takes them from a surface. */
  function BytesPerRow(s: Surface): nat {
    (if s.hstride > 0 then s.hstride else s.width) * (if s.tenBit then 2 else 1)
  }

  function LumaRows(s: Surface): nat {
    if s.vstride > 0 then s.vstride else s.height
  }

  /** NV12 that was decoded with rows that are not whole blocks of 64 bytes. */
  predicate Misaligned(s: Surface) {
    s.decoded && !s.tenBit && BytesPerRow(s) % 64 != 0
  }

  lemma HandleIs(s: Surface, buffer: Buffer)
    ensures HandleOf(buffer, s.tenBit, Stride(s), VerticalStride(s))
         == Handle(buffer, BytesPerRow(s), Chroma(BytesPerRow(s), LumaRows(s)).off)
  {
    var h, v := Stride(s), VerticalStride(s);
    assert h * v * 2 == h * 2 * v;
  }

  /**
   A surface under decoding is not exported.  Otherwise, unless its rows are misaligned, the handle names
   the buffer that is shown and the planes of that buffer that rk_GetImage reads, P010 included; only a
   surface that shows its placeholder becomes a stable export.
   */
  lemma ExportNamesThePlanes(s: Surface, memory: bool, copied: bool)
    ensures var (after, handle) := Export(s, memory, copied);
            && (!s.decoded && s.begun ==> handle == None && after == s)
            && (s.decoded || !s.begun ==>
                  && (!Misaligned(s) ==>
                        handle == Some(Handle(ActiveBuffer(s), BytesPerRow(s), Chroma(BytesPerRow(s), LumaRows(s)).off)))
                  && (after.stable <==> s.stable || (!s.decoded && s.frame.None? && s.backing.None? && !s.encoderInput)))
  {
    HandleIs(s, ActiveBuffer(s));
  }

  lemma AlignedUp(value: nat, alignment: nat)
    requires alignment > 0
    ensures AlignUp(value, alignment) % alignment == 0
  {
    var q, r := value / alignment, value % alignment;
    assert value == alignment * q + r;
    if r > 0 {
      assert AlignUp(value, alignment) == alignment * (q + 1);
      ModUnique(AlignUp(value, alignment), alignment, q + 1, 0);
    }
  }

  /**
   Misaligned rows are exported from a buffer of their own: it is as tall, its rows are the least whole
   blocks of 64 bytes that hold the others, and its contents were copied for the surface's present fence, now or before.
   The export fails exactly when no such layout, buffer or copy can be had.
   */
  lemma RepackedExport(s: Surface, memory: bool, copied: bool)
    requires Misaligned(s)
    ensures var (after, handle) := Export(s, memory, copied);
            var v := LumaRows(s);
            var kept := s.repacked.Some? && s.repacked.value.hstride == AlignUp(BytesPerRow(s), 64) && s.repacked.value.vstride == v;
            && (handle.Some? ==>
                  var pitch := handle.value.pitch;
                  && pitch % 64 == 0 && BytesPerRow(s) <= pitch < BytesPerRow(s) + 64 && handle.value.chromaOffset == Chroma(pitch, v).off
                  && after.repacked == Some(Repacked(handle.value.buffer, pitch, v)) && after.repackFence == s.fence
                  && handle.value.buffer == if kept then s.repacked.value.buffer else s.nextBuffer)
            && (handle.Some? <==>
                  && AlignUp(BytesPerRow(s), 64) >= s.width && v >= s.height && v > 0 && v % 2 == 0
                  && (kept || memory) && ((kept && s.repackFence == s.fence) || copied || (!kept && s.fence == 0)))
            && after.(repacked := s.repacked, repackFence := s.repackFence, nextBuffer := s.nextBuffer) == s
  {
    hide AlignUp;
    AlignedUp(BytesPerRow(s), 64);
  }

  // ---------- copies into a stable export ----------

  /** The rows of both planes of a picture lie inside a buffer. */
  predicate PictureInside(tenBit: bool, width: nat, height: nat, hstride: nat, vstride: nat, bytes: nat) {
    var bytesPerSample := if tenBit then 2 else 1;
    var pitch := hstride * bytesPerSample;
    && RowsFit(Luma(pitch), width * bytesPerSample, height, bytes)
    && RowsFit(Chroma(pitch, vstride), width * bytesPerSample, height / 2, bytes)
  }

  lemma LayoutHolds(tenBit: bool, width: nat, height: nat, hstride: nat, vstride: nat, bytes: nat)
    requires width <= hstride && height <= vstride && LayoutSize(tenBit, hstride, vstride).Some? && LayoutSize(tenBit, hstride, vstride).value <= bytes
    ensures PictureInside(tenBit, width, height, hstride, vstride, bytes)
  {
    hide Nv12Size, RowsFit;
    var bytesPerSample := if tenBit then 2 else 1;
    var g := Geometry(if tenBit then P010 else NV12, width, height, tenBit, hstride, vstride);
    assert width * bytesPerSample <= hstride * bytesPerSample;
    assert 2 * hstride == hstride * 2;
    BufferFits(g, hstride * bytesPerSample, vstride, bytes);
  }

  /** A picture copied into an exported surface has the surface's size and lies inside the frame and inside the exported buffer. */
  lemma CopyStaysInside(s: Surface, fence: nat, f: Frame, copied: bool)
    requires s.stable && CopyToStable(s, fence, f, copied).Some?
    ensures copied && fence == s.fence && (f.width == 0 || f.width == s.width) && (f.height == 0 || f.height == s.height)
    ensures PictureInside(f.tenBit, s.width, s.height, f.hstride, f.vstride, f.bytes)
    ensures PictureInside(f.tenBit, s.width, s.height, s.hstride, s.vstride, s.bytes)
    ensures var r := CopyToStable(s, fence, f, copied).value;
            r.copied && r.hstride == s.hstride && r.vstride == s.vstride && r.frame == f && r.fence == fence
  {
    LayoutHolds(f.tenBit, s.width, s.height, f.hstride, f.vstride, f.bytes);
    LayoutHolds(f.tenBit, s.width, s.height, s.hstride, s.vstride, s.bytes);
  }

  /** Pictures of a surface's own size and depth that lie inside their frame are copied, at every fence, once it was exported before its first. */
  lemma OwnPictureIsTaken(width: nat, height: nat, tenBit: bool, placeholder: Buffer, bytes: nat, schedule: seq<StableExport.Action>, f: Frame)
    requires Creatable(width, height, tenBit, bytes) && width % 2 == 0 && height % 2 == 0
    requires f.tenBit == tenBit && (f.width == 0 || f.width == width) && (f.height == 0 || f.height == height)
    requires width <= f.hstride <= INT_MAX && height <= f.vstride <= INT_MAX
    requires LayoutSize(tenBit, f.hstride, f.vstride).Some? && LayoutSize(tenBit, f.hstride, f.vstride).value <= f.bytes <= INT_MAX
    ensures var s := StableExport.Run(FirstExported(width, height, tenBit, placeholder, bytes), schedule).surface;
            s.stable && CopyToStable(s, s.fence, f, true).Some?
  {
    hide Nv12Size, PlaceholderSize, AlignUp, StableExport.Run, Steady, LayoutSize;
    var first := Created(width, height, tenBit, false, placeholder, bytes);
    FirstIsSteady(width, height, tenBit, placeholder, bytes, true, true);
    SteadyRun(FirstExported(width, height, tenBit, placeholder, bytes), schedule, first);
    var s := StableExport.Run(FirstExported(width, height, tenBit, placeholder, bytes), schedule).surface;
    SteadyMeans(StableExport.Run(FirstExported(width, height, tenBit, placeholder, bytes), schedule), first);
    PlaceholderHolds(width, height, tenBit, s.hstride, s.vstride);
    SmallLayout(width, height, s.hstride, s.vstride, tenBit);
  }

  lemma SteadyMeans(st: State, first: Surface)
    requires Steady(st, first)
    ensures var s := st.surface;
            s.stable && s.width == first.width && s.height == first.height && s.hstride == first.hstride > 0 && s.vstride == first.vstride > 0 && s.bytes == first.bytes
  {
  }

  /** No surface that can be created has a layout beyond the range of int. */
  lemma SmallLayout(width: nat, height: nat, hstride: nat, vstride: nat, tenBit: bool)
    requires 0 < width <= 8192 && 0 < height <= 8192
    requires hstride == (if tenBit then AlignUp(width, 16) else AlignUp(width, 64)) && vstride == AlignUp(height, 16)
    ensures LayoutSize(tenBit, hstride, vstride).Some? ==> LayoutSize(tenBit, hstride, vstride).value <= INT_MAX
  {
    hide PlaneSize;
    var pitch := if tenBit then 2 * hstride else hstride;
    PlaneGrows(pitch, vstride, 2 * 8256, 8208);
    PlaneSizeIs(2 * 8256, 8208);
  }

  // ---------- what is shown ----------

  /**
   A published picture is what the surface shows from then on: its buffer, depth, size and strides, or, copied
   into a stable export, the exported buffer with its strides.
   */
  lemma PublishedPictureIsShown(s: Surface, f: Frame, copied: bool)
    requires Usable(s, f) && CopyToStable(s, s.fence, f, copied).Some?
    ensures var p := Published(s, CopyToStable(s, s.fence, f, copied).value);
            && p.decoded && !p.failed && p.fence == s.fence && p.stable == s.stable && p.tenBit == f.tenBit
            && p.width == (if f.width > 0 then f.width else s.width) && p.height == (if f.height > 0 then f.height else s.height)
            && if s.stable then
                 ActiveBuffer(p) == s.placeholder && p.hstride == s.hstride && p.vstride == s.vstride
               else
                 && BytesPerRow(p) == f.hstride * (if f.tenBit then 2 else 1) && (f.vstride > 0 ==> LumaRows(p) == f.vstride)
                 && ActiveBuffer(p) == if f.backing.Some? then f.backing.value else if f.stored.Some? then f.stored.value else s.placeholder
  {
  }

  /** A picture that was begun or has failed at the present fence is not exported, nor is one whose frame does not pass the layout test. */
  lemma OnlyShownPicturesAreExported(st: State, a: StableExport.Action, memory: bool, copied: bool)
    requires a.Begins? || a.Fails? || a.Copies?
    requires a.Fails? ==> a.fence == st.surface.fence && st.surface.begun
    requires a.Copies? ==> a.fence == st.surface.fence && st.surface.begun && !Usable(st.surface, a.frame) && forall r :: r in st.ready ==> r.fence != a.fence
    ensures Export(StableExport.Apply(st, a).surface, memory, copied).1 == None
  {
    hide Usable;
  }

  // ---------- chroma in every format ----------

  /** The plane of an image that has the Cb samples, and the one that has Cr: I420 stores Y, Cb, Cr, YV12 stores Y, Cr, Cb. */
  function CbPlane(fourcc: Fourcc): nat {
    if fourcc == I420 then 1 else 2
  }

  function CrPlane(fourcc: Fourcc): nat {
    if fourcc == I420 then 2 else 1
  }

  /** NV12 has each Cb sample in front of its Cr sample. */
  predicate ChromaAgrees(l: Layout, image: seq<byte>, buffer: seq<byte>, chroma: Plane, r: nat, c: nat)
    requires |l.planes| >= 3
  {
    var cb, cr := At(l.planes[CbPlane(l.fourcc)], r) + c, At(l.planes[CrPlane(l.fourcc)], r) + c;
    var pair := At(chroma, r) + 2 * c;
    && cb < |image| && cr < |image| && pair + 1 < |buffer|
    && buffer[pair] == image[cb] && buffer[pair + 1] == image[cr]
  }

  lemma RowAt(data: seq<byte>, p: Plane, r: nat, n: nat, k: nat)
    requires |Row(data, p, r, n)| == n && k < n
    ensures At(p, r) + k < |data| && Row(data, p, r, n)[k] == data[At(p, r) + k]
  {
  }

  lemma WovenSamples(l: Layout, image: seq<byte>, buffer: seq<byte>, chroma: Plane, r: nat, n: nat, c: nat)
    requires l.Planar() && |l.planes| >= 3 && Woven(buffer, chroma, image, l.planes[l.U()], l.planes[l.V()], r, n) && c < n
    ensures ChromaAgrees(l, image, buffer, chroma, r, c)
  {
    hide Row, At;
    var u, v := l.planes[l.U()], l.planes[l.V()];
    RowAt(image, u, r, n, c);
    RowAt(image, v, r, n, c);
    InterleavedAt(Row(image, u, r, n), Row(image, v, r, n), c);
    RowAt(buffer, chroma, r, 2 * n, 2 * c);
    RowAt(buffer, chroma, r, 2 * n, 2 * c + 1);
  }

  lemma InterleavedAt(u: seq<byte>, v: seq<byte>, c: nat)
    requires |u| == |v| && c < |u|
    ensures Interleave(u, v)[2 * c] == u[c] && Interleave(u, v)[2 * c + 1] == v[c]
  {
  }

  lemma UnwovenSamples(l: Layout, image: seq<byte>, buffer: seq<byte>, chroma: Plane, r: nat, n: nat, c: nat)
    requires l.Planar() && |l.planes| >= 3 && Unwoven(image, l.planes[l.U()], l.planes[l.V()], buffer, chroma, r, n) && c < n
    ensures ChromaAgrees(l, image, buffer, chroma, r, c)
  {
    hide Row, At;
    var u, v := l.planes[l.U()], l.planes[l.V()];
    var z := Row(buffer, chroma, r, 2 * n);
    EveryAt(z, n, c);
    RowAt(image, u, r, n, c);
    RowAt(image, v, r, n, c);
    RowAt(buffer, chroma, r, 2 * n, 2 * c);
    RowAt(buffer, chroma, r, 2 * n, 2 * c + 1);
  }

  lemma EveryAt(z: seq<byte>, n: nat, c: nat)
    requires |z| == 2 * n && c < n
    ensures Every2(z, 0, n)[c] == z[2 * c] && Every2(z, 1, n)[c] == z[2 * c + 1]
  {
  }

  /** Uploading a planar image puts every chroma sample of its format where NV12 has it. */
  lemma UploadedChroma(l: Layout, image: seq<byte>, buffer: seq<byte>, g: Geometry, pitch: nat, vstride: nat, r: nat, c: nat)
    requires l.Planar() && |l.planes| >= 3 && Uploaded(l, image, buffer, g, pitch, vstride) && r < g.height / 2 && c < g.width / 2
    ensures ChromaAgrees(l, image, buffer, Chroma(pitch, vstride), r, c)
  {
    hide Woven;
    WovenSamples(l, image, buffer, Chroma(pitch, vstride), r, g.width / 2, c);
  }

  /** Reading one takes every chroma sample of NV12 where its format has it. */
  lemma DownloadedChroma(l: Layout, image: seq<byte>, buffer: seq<byte>, g: Geometry, pitch: nat, vstride: nat, r: nat, c: nat)
    requires l.Planar() && |l.planes| >= 3 && Downloaded(l, image, buffer, g, pitch, vstride) && r < g.height / 2 && c < g.width / 2
    ensures ChromaAgrees(l, image, buffer, Chroma(pitch, vstride), r, c)
  {
    hide Unwoven;
    UnwovenSamples(l, image, buffer, Chroma(pitch, vstride), r, g.width / 2, c);
  }

  // ---------- layouts and bounds ----------

  /** A layout ends exactly behind the last row of its chroma plane; odd heights and sizes beyond size_t have none. */
  lemma LayoutIsExact(tenBit: bool, hstride: nat, vstride: nat)
    ensures var pitch := hstride * (if tenBit then 2 else 1);
            var size := EndOf(Chroma(pitch, vstride), pitch, vstride / 2);
            LayoutSize(tenBit, hstride, vstride) == if hstride > 0 && vstride > 0 && vstride % 2 == 0 && size <= SIZE_MAX then Some(size) else None
  {
    var pitch := hstride * (if tenBit then 2 else 1);
    assert 2 * hstride == hstride * 2;
    if vstride % 2 == 0 && vstride > 0 {
      var half := vstride / 2;
      assert vstride == 2 * half && pitch * vstride == 2 * (pitch * half);
      assert (half - 1) * pitch + pitch == half * pitch;
    }
  }

  /** The test of a plane, which the source forms without overflow, is that its rows lie inside the memory. */
  lemma PlaneFitsIff(l: Layout, plane: nat, n: nat, rows: nat, capacity: nat)
    ensures PlaneFits(l, plane, n, rows, capacity) <==>
            plane < |l.planes| && l.planes[plane].off <= capacity && RowsFit(l.planes[plane], n, rows, capacity)
  {
  }

  /** An upload is of the whole image to a whole surface of its size and format, and stays inside both. */
  lemma AcceptedUpload(l: Layout, capacity: nat, g: Geometry, imported: bool, area: Area, bufferSize: nat)
    requires g.Valid() && PutAccepted(l, capacity, g, imported, area, bufferSize)
    ensures !imported && l.fourcc == g.fourcc && (g.tenBit ==> l.fourcc != I420 && l.fourcc != YV12)
    ensures l.width == g.width == area.srcWidth == area.dstWidth && l.height == g.height == area.srcHeight == area.dstHeight
    ensures area.srcX == 0 == area.srcY && area.dstX == 0 == area.dstY
    ensures PictureInside(g.tenBit, g.width, g.height, g.hstride, g.vstride, bufferSize)
    ensures |l.planes| >= 2 && (l.Planar() ==> |l.planes| >= 3)
    ensures RowsFit(l.planes[0], LumaBytes(l, g), g.height, capacity) && RowsFit(l.planes[1], ChromaBytes(l, g), g.height / 2, capacity)
    ensures l.Planar() ==> RowsFit(l.planes[2], ChromaBytes(l, g), g.height / 2, capacity)
  {
    hide RowsFit;
    BufferFits(g, g.hstride * g.BytesPerSample(), g.vstride, bufferSize);
    ImageFits(l, g, capacity);
  }

  /** Reading back is of a whole surface into an image of its format that is as large, and stays inside both. */
  lemma AcceptedReadBack(l: Layout, capacity: nat, g: Geometry, x: int, y: int, w: nat, h: nat, bufferSize: nat)
    requires g.Valid() && g.hstride > 0 && g.vstride > 0 && GetAccepted(l, capacity, g, x, y, w, h, bufferSize)
    ensures x == 0 == y && w == g.width <= l.width && h == g.height <= l.height
    ensures l.fourcc == g.fourcc && (g.tenBit ==> l.fourcc != I420 && l.fourcc != YV12)
    ensures PictureInside(g.tenBit, g.width, g.height, g.hstride, g.vstride, bufferSize)
    ensures |l.planes| >= 2 && (l.Planar() ==> |l.planes| >= 3)
    ensures RowsFit(l.planes[0], LumaBytes(l, g), g.height, capacity) && RowsFit(l.planes[1], ChromaBytes(l, g), g.height / 2, capacity)
    ensures l.Planar() ==> RowsFit(l.planes[2], ChromaBytes(l, g), g.height / 2, capacity)
  {
    hide Nv12Size, RowsFit;
    BufferFits(g, g.hstride * g.BytesPerSample(), g.vstride, bufferSize);
    ImageFits(l, g, capacity);
  }

  /**
   The layout test of a decoded frame: a 10-bit picture that passes lies inside its frame, an 8-bit one if and only if its
   rows are not longer than the stride, which is not tested.
   */
  lemma UsableInsideIff(s: Surface, f: Frame)
    requires Usable(s, f)
    ensures var width, height := if f.width > 0 then f.width else s.width, if f.height > 0 then f.height else s.height;
            && height <= f.vstride
            && (PictureInside(f.tenBit, width, height, f.hstride, f.vstride, f.bytes) <==> f.tenBit || width <= f.hstride)
  {
    hide LayoutSize;
    var width, height := if f.width > 0 then f.width else s.width, if f.height > 0 then f.height else s.height;
    if width <= f.hstride {
      LayoutHolds(f.tenBit, width, height, f.hstride, f.vstride, f.bytes);
    }
  }
}
