/** Sizes of linear NV12 and P010 buffers (src/frame_layout.c). */
module FrameLayout {
  import opened Options
  import opened Integers

  /** The smallest multiple of `alignment` that is not smaller. */
  function AlignUp(value: nat, alignment: nat): (r: nat)
    requires alignment > 0
    ensures value <= r < value + alignment
  {
    var rest := value % alignment;
    if rest == 0 then value else value + (alignment - rest)
  }

  /** Bytes from the first of `rows` rows to the end of the last, padding included. */
  function PlaneSize(pitch: nat, rows: nat): nat {
    pitch * rows
  }

  /** rk_nv12_layout_size. */
  function Nv12Size(stride: nat, vstride: nat): Option<nat> {
    var luma := PlaneSize(stride, vstride);
    if stride == 0 || vstride == 0 || vstride % 2 == 1 || luma + luma / 2 > SIZE_MAX then None else Some(luma + luma / 2)
  }

  /** rk_p010_layout_size. */
  function P010Size(pixelStride: nat, vstride: nat): Option<nat> {
    Nv12Size(2 * pixelStride, vstride)
  }

  /** The linear layout of a depth. */
  function LayoutSize(tenBit: bool, stride: nat, vstride: nat): Option<nat> {
    if tenBit then P010Size(stride, vstride) else Nv12Size(stride, vstride)
  }

  /** `aligned | 256` for a multiple of 256. */
  function Odd256(aligned: nat): (r: nat)
    ensures aligned <= r <= aligned + 256
  {
    if aligned / 256 % 2 == 1 then aligned else aligned + 256
  }

  /** rk_surface_buffer_size. */
  function SurfaceBufferSize(width: nat, height: nat): Option<nat> {
    var luma := PlaneSize(Odd256(AlignUp(width, 256)), AlignUp(height, 64));
    if width == 0 || height == 0 || luma > SIZE_MAX / 2 then None else Some(2 * luma)
  }

  /** rk_surface_placeholder_size. */
  function PlaceholderSize(width: nat, height: nat, tenBit: bool): Option<nat> {
    var conservative := SurfaceBufferSize(width, height);
    if !tenBit || conservative.None? then conservative
    else
      var p010 := P010Size(AlignUp(width, 16), AlignUp(height, 16));
      if p010.None? then None else Some(if p010.value > conservative.value then p010.value else conservative.value)
  }

  lemma PlaneGrows(pitch: nat, rows: nat, pitch': nat, rows': nat)
    requires pitch <= pitch' && rows <= rows'
    ensures PlaneSize(pitch, rows) <= PlaneSize(pitch', rows')
  {
    assert pitch * rows <= pitch' * rows;
  }

  /** A finer alignment never overtakes a coarser one. */
  lemma AlignUpNested(value: nat)
    ensures AlignUp(value, 16) <= AlignUp(value, 64) <= AlignUp(value, 256)
  {
    var q, r := value / 64, value % 64;
    assert value == 64 * q + r;
    assert AlignUp(value, 64) == if r == 0 then 64 * q else 64 * q + 64;
    AlignUpTo(value, 16, 4 * (if r == 0 then q else q + 1));
    var u, v := value / 256, value % 256;
    assert value == 256 * u + v;
    assert AlignUp(value, 256) == if v == 0 then 256 * u else 256 * u + 256;
    AlignUpTo(value, 64, 4 * (if v == 0 then u else u + 1));
  }

  /** No multiple that is not smaller lies below the aligned value. */
  lemma AlignUpTo(value: nat, alignment: nat, times: nat)
    requires (alignment == 16 || alignment == 64) && value <= alignment * times
    ensures AlignUp(value, alignment) <= alignment * times
  {
    var q, r := value / alignment, value % alignment;
    assert value == alignment * q + r;
  }

  /** The placeholder of every surface that can be created holds the surface's own linear layout. */
  lemma PlaceholderHolds(width: nat, height: nat, tenBit: bool, hstride: nat, vstride: nat)
    requires 0 < width <= 8192 && 0 < height <= 8192
    requires hstride == AlignUp(width, 16) || (!tenBit && hstride == AlignUp(width, 64))
    requires vstride == AlignUp(height, 16)
    ensures PlaceholderSize(width, height, tenBit).Some? && LayoutSize(tenBit, hstride, vstride).Some?
    ensures LayoutSize(tenBit, hstride, vstride).value <= PlaceholderSize(width, height, tenBit).value
  {
    hide AlignUp, Odd256, PlaneSize;
    AlignUpNested(width);
    AlignUpNested(height);
    var wide, high := Odd256(AlignUp(width, 256)), AlignUp(height, 64);
    PlaneGrows(hstride, vstride, wide, high);
    PlaneGrows(2 * hstride, vstride, 16640, 8256);
    PlaneGrows(wide, high, 8704, 8256);
    PlaneSizeIs(16640, 8256);
    PlaneSizeIs(8704, 8256);
    PlaneSizeIs(hstride, vstride);
    EvenAlignment(height);
  }

  lemma PlaneSizeIs(pitch: nat, rows: nat)
    ensures PlaneSize(pitch, rows) == pitch * rows
  {
  }

  lemma EvenAlignment(height: nat)
    ensures AlignUp(height, 16) % 2 == 0
  {
    var blocks, rest := height / 16, height % 16;
    assert height == 2 * (8 * blocks) + rest;
    assert AlignUp(height, 16) == if rest == 0 then 2 * (8 * blocks) else 2 * (8 * blocks + 8);
  }
}
