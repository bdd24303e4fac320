/**
 Export of a surface before its first picture (src/export.c, src/surface.c, assign_mpp_frame in
 src/mpp_dec.c): afterwards decoded pictures are copied into the exported buffer, so that every
 later export names the same storage.
 */
module StableExport {
  import opened Options
  import opened Integers
  import opened FrameLayout

  type Buffer = nat

  /**
   A picture as it leaves the conversion to P010, if it needs one: its visible size (0 when unknown),
   strides in samples, depth, the bytes of its buffer, and what keeps that alive.
   */
  datatype Frame = Frame(width: nat, height: nat, hstride: nat, vstride: nat, tenBit: bool, bytes: nat,
                         stored: Option<Buffer>, backing: Option<Buffer>)

  datatype Repacked = Repacked(buffer: Buffer, hstride: nat, vstride: nat)

  datatype Surface = Surface(
    width: nat,
    height: nat,
    tenBit: bool,
    hstride: nat,
    vstride: nat,
    frame: Option<Buffer>,
    backing: Option<Buffer>,
    placeholder: Buffer,
    bytes: nat,
    encoderInput: bool,
    repacked: Option<Repacked>,
    repackFence: nat,
    fence: nat,
    decoded: bool,
    failed: bool,
    begun: bool,
    stable: bool,
    nextBuffer: Buffer
  )

  /** A frame that has passed rk_surface_copy_to_stable_export and waits to be published. */
  datatype Ready = Ready(fence: nat, frame: Frame, copied: bool, hstride: nat, vstride: nat)

  /** The storage a PRIME descriptor names. */
  datatype Handle = Handle(buffer: Buffer, pitch: nat, chromaOffset: nat)

  /** create_surfaces without an import; `bytes` is the size MPP gave the placeholder. */
  function Created(width: nat, height: nat, tenBit: bool, encoderInput: bool, placeholder: Buffer, bytes: nat): Surface {
    Surface(width, height, tenBit, if tenBit || encoderInput then AlignUp(width, 16) else AlignUp(width, 64), AlignUp(height, 16),
            None, None, placeholder, bytes, encoderInput, None, 0, 0, false, false, false, false, placeholder + 1)
  }

  /** What create_surfaces accepts, and the placeholder it asks MPP for. */
  predicate Creatable(width: nat, height: nat, tenBit: bool, bytes: nat) {
    && 0 < width <= 8192 && 0 < height <= 8192 && (tenBit ==> width % 2 == 0 && height % 2 == 0)
    && PlaceholderSize(width, height, tenBit).Some? && PlaceholderSize(width, height, tenBit).value <= bytes
  }

  /** rk_BeginPicture on the surface; the second field of a picture continues its fence. */
  function Begun(s: Surface, continuation: bool): Surface {
    if continuation && s.begun && !s.decoded && !s.failed && s.fence != 0 then s
    else s.(frame := None, backing := None, fence := s.fence + 1, decoded := false, failed := false, begun := true)
  }

  /** complete_surface_ref with a failure. */
  function FailedAt(s: Surface, fence: nat): Surface {
    if s.fence == fence then s.(decoded := false, failed := true) else s
  }

  /** A value MPP reports as 0 leaves the surface's own. */
  function Known(n: nat, otherwise: nat): nat {
    if n > 0 then n else otherwise
  }

  /** The layout tests of assign_mpp_frame; a frame that fails them fails the picture. */
  predicate Usable(s: Surface, f: Frame) {
    && f.hstride > 0 && f.vstride >= Known(f.height, s.height)
    && LayoutSize(f.tenBit, f.hstride, f.vstride).Some? && LayoutSize(f.tenBit, f.hstride, f.vstride).value <= f.bytes
    && (f.tenBit ==> f.hstride >= Known(f.width, s.width) && f.hstride % 64 == 0)
  }

  /** The buffer behind the surface takes a picture of this depth in the surface's strides. */
  predicate Takes(s: Surface, tenBit: bool) {
    && s.width > 0 && s.height > 0 && s.width % 2 == 0 && s.height % 2 == 0 && s.width <= s.hstride && s.height <= s.vstride
    && LayoutSize(tenBit, s.hstride, s.vstride).Some? && LayoutSize(tenBit, s.hstride, s.vstride).value <= s.bytes
    && (!tenBit ==> LayoutSize(tenBit, s.hstride, s.vstride).value <= INT_MAX)
  }

  /** The tests of rk_repack_nv12 and rk_repack_p010 for a frame of the surface's size. */
  predicate Repackable(s: Surface, f: Frame) {
    && Takes(s, f.tenBit) && f.hstride >= s.width && f.vstride >= s.height
    && LayoutSize(f.tenBit, f.hstride, f.vstride).Some? && LayoutSize(f.tenBit, f.hstride, f.vstride).value <= f.bytes
    && (!f.tenBit ==> LayoutSize(f.tenBit, f.hstride, f.vstride).value <= INT_MAX && f.hstride <= INT_MAX && f.vstride <= INT_MAX)
  }

  /**
   rk_surface_copy_to_stable_export as assign_mpp_frame calls it; None when the decode then fails.
   `copied` says whether the copy succeeds once its sizes have been found right.
   */
  function CopyToStable(s: Surface, fence: nat, f: Frame, copied: bool): Option<Ready> {
    if !s.stable then Some(Ready(fence, f, false, f.hstride, f.vstride))
    else if Known(f.width, s.width) != s.width || Known(f.height, s.height) != s.height || s.hstride == 0 || s.vstride == 0 ||
            s.fence != fence || !Repackable(s, f) || !copied then None
    else Some(Ready(fence, f, true, s.hstride, s.vstride))
  }

  /** The publication in assign_mpp_frame. */
  function Published(s: Surface, r: Ready): Surface {
    if s.fence != r.fence then s
    else
      s.(frame := if r.copied then None else r.frame.stored,
         backing := if r.copied then None else r.frame.backing,
         tenBit := r.frame.tenBit,
         width := Known(r.frame.width, s.width),
         height := Known(r.frame.height, s.height),
         hstride := Known(r.hstride, s.hstride),
         vstride := Known(r.vstride, s.vstride),
         decoded := true, failed := false)
  }

  function ActiveBuffer(s: Surface): Buffer {
    if s.backing.Some? then s.backing.value else if s.frame.Some? then s.frame.value else s.placeholder
  }

  predicate IsPlaceholder(s: Surface) {
    !s.decoded && s.frame.None? && s.backing.None? && !s.encoderInput
  }

  function HandleOf(buffer: Buffer, tenBit: bool, hstride: nat, vstride: nat): Handle {
    if tenBit then Handle(buffer, hstride * 2, hstride * vstride * 2) else Handle(buffer, hstride, hstride * vstride)
  }

  function Stride(s: Surface): nat {
    if s.hstride > 0 then s.hstride else s.width
  }

  function VerticalStride(s: Surface): nat {
    if s.vstride > 0 then s.vstride else s.height
  }

  /** A decoded 8-bit surface whose pitch a linear import rejects is exported from a repacked copy. */
  predicate NeedsRepack(s: Surface) {
    s.decoded && !s.tenBit && Stride(s) % 64 != 0
  }

  /** The repacking half of rk_ExportSurfaceHandle; `memory` and `copied` are its allocation and its copy. */
  function Repack(s: Surface, memory: bool, copied: bool): (Surface, Option<Handle>) {
    var hstride, vstride := AlignUp(Stride(s), 64), VerticalStride(s);
    var valid := s.repacked.Some? && s.repacked.value.hstride == hstride && s.repacked.value.vstride == vstride;
    if hstride < s.width || vstride < s.height || vstride % 2 != 0 || hstride == 0 || vstride == 0 then (s, None)
    else
      var s1 := if !valid && memory
                then s.(repacked := Some(Repacked(s.nextBuffer, hstride, vstride)), repackFence := 0, nextBuffer := s.nextBuffer + 1)
                else s;
      if (!valid && !memory) || (s1.repackFence != s1.fence && !copied) then (s1, None)
      else (s1.(repackFence := s1.fence), Some(HandleOf(s1.repacked.value.buffer, false, hstride, vstride)))
  }

  /**
   rk_ExportSurfaceHandle on a driver-owned surface.  While a picture is under way it waits for
   the decode and fails with it, so only decoded and untouched surfaces get further.
   */
  function Export(s: Surface, memory: bool, copied: bool): (Surface, Option<Handle>) {
    if !s.decoded && s.begun then (s, None)
    else
      var s1 := if IsPlaceholder(s) then s.(stable := true) else s;
      if NeedsRepack(s1) then Repack(s1, memory, copied)
      else (s1, Some(HandleOf(ActiveBuffer(s1), s1.tenBit, Stride(s1), VerticalStride(s1))))
  }

  // ---------- the source's object ----------

  class RKSurface {
    var width: nat
    var height: nat
    var tenBit: bool
    var hstride: nat
    var vstride: nat
    var frame: Option<Buffer>
    var backing: Option<Buffer>
    var placeholder: Buffer
    var bytes: nat
    var encoderInput: bool
    var repacked: Option<Repacked>
    var repackFence: nat
    var fence: nat
    var decoded: bool
    var failed: bool
    var begun: bool
    var stable: bool
    var nextBuffer: Buffer

    ghost function View(): Surface
      reads this
    {
      Surface(width, height, tenBit, hstride, vstride, frame, backing, placeholder, bytes, encoderInput, repacked, repackFence, fence,
              decoded, failed, begun, stable, nextBuffer)
    }

    constructor (width: nat, height: nat, tenBit: bool, encoderInput: bool, placeholder: Buffer, bytes: nat)
      ensures View() == Created(width, height, tenBit, encoderInput, placeholder, bytes)
    {
      this.width, this.height, this.tenBit, this.placeholder := width, height, tenBit, placeholder;
      this.bytes, this.encoderInput := bytes, encoderInput;
      hstride := AlignUp(width, if tenBit || encoderInput then 16 else 64);
      vstride := AlignUp(height, 16);
      frame, backing, repacked, repackFence := None, None, None, 0;
      fence, decoded, failed, begun, stable := 0, false, false, false, false;
      nextBuffer := placeholder + 1;
    }

    /** rk_repack_nv12 and rk_repack_p010 from a frame into the placeholder; `copied` is the outcome of the copy itself. */
    method Repacks(frameWidth: nat, frameHeight: nat, f: Frame, copied: bool) returns (ok: bool)
      requires frameWidth == width && frameHeight == height
      ensures ok == (Repackable(View(), f) && copied)
    {
      var source, destination := LayoutSize(f.tenBit, f.hstride, f.vstride), LayoutSize(f.tenBit, hstride, vstride);
      if frameWidth == 0 || frameHeight == 0 || frameWidth % 2 == 1 || frameHeight % 2 == 1 || f.hstride < frameWidth ||
         f.vstride < frameHeight || hstride < frameWidth || vstride < frameHeight {
        return false;
      }
      if source.None? || destination.None? || source.value > f.bytes || destination.value > bytes {
        return false;
      }
      if !f.tenBit && (source.value > INT_MAX || destination.value > INT_MAX || f.hstride > INT_MAX || f.vstride > INT_MAX) {
        return false;
      }
      ok := copied;
    }

    /** rk_surface_copy_to_stable_export, up to the failure of the decode. */
    method CopyToStableExport(fence: nat, f: Frame, copied: bool) returns (ready: Option<Ready>)
      ensures ready == CopyToStable(View(), fence, f, copied)
    {
      var frameWidth, frameHeight := if f.width > 0 then f.width else width, if f.height > 0 then f.height else height;
      if !stable {
        return Some(Ready(fence, f, false, f.hstride, f.vstride));
      }
      if frameWidth != width || frameHeight != height || hstride == 0 || vstride == 0 || this.fence != fence {
        return None;
      }
      var repacks := Repacks(frameWidth, frameHeight, f, copied);
      ready := if repacks then Some(Ready(fence, f, true, hstride, vstride)) else None;
    }

    /** The publication, once the fence was found current. */
    method Publish(r: Ready)
      modifies this
      ensures View() == Published(old(View()), r)
    {
      if fence == r.fence {
        PublishStorage(r);
        PublishLayout(r);
      }
    }

    method PublishStorage(r: Ready)
      modifies this`frame, this`backing, this`decoded, this`failed
      ensures frame == if r.copied then None else r.frame.stored
      ensures backing == if r.copied then None else r.frame.backing
      ensures decoded && !failed
    {
      frame := if r.copied then None else r.frame.stored;
      backing := if r.copied then None else r.frame.backing;
      decoded, failed := true, false;
    }

    method PublishLayout(r: Ready)
      modifies this`tenBit, this`width, this`height, this`hstride, this`vstride
      ensures tenBit == r.frame.tenBit
      ensures width == Known(r.frame.width, old(width)) && height == Known(r.frame.height, old(height))
      ensures hstride == Known(r.hstride, old(hstride)) && vstride == Known(r.vstride, old(vstride))
    {
      tenBit := r.frame.tenBit;
      if r.frame.width > 0 { width := r.frame.width; }
      if r.frame.height > 0 { height := r.frame.height; }
      if r.hstride > 0 { hstride := r.hstride; }
      if r.vstride > 0 { vstride := r.vstride; }
    }

    /** The repacking half of rk_ExportSurfaceHandle. */
    method RepackForExport(memory: bool, copied: bool) returns (handle: Option<Handle>)
      modifies this
      ensures (View(), handle) == Repack(old(View()), memory, copied)
    {
      var alignedStride := AlignUp(if hstride > 0 then hstride else width, 64);
      var vertical := if vstride > 0 then vstride else height;
      var layoutValid := alignedStride >= width && vertical >= height && vertical % 2 == 0 && alignedStride > 0 && vertical > 0;
      if !layoutValid {
        return None;
      }
      var allocationValid := repacked.Some? && repacked.value.hstride == alignedStride && repacked.value.vstride == vertical;
      if !allocationValid && memory {
        repacked := Some(Repacked(nextBuffer, alignedStride, vertical));
        nextBuffer := nextBuffer + 1;
        repackFence := 0;
        allocationValid := true;
      }
      if !allocationValid || (repackFence != fence && !copied) {
        return None;
      }
      repackFence := fence;
      handle := Some(HandleOf(repacked.value.buffer, false, alignedStride, vertical));
    }

    method ExportSurfaceHandle(memory: bool, copied: bool) returns (handle: Option<Handle>)
      modifies this
      ensures (View(), handle) == Export(old(View()), memory, copied)
    {
      if !decoded && begun {
        return None;
      }
      if !decoded && frame.None? && backing.None? && !encoderInput {
        stable := true;
      }
      if decoded && !tenBit && (if hstride > 0 then hstride else width) % 64 != 0 {
        handle := RepackForExport(memory, copied);
        return;
      }
      var active := if backing.Some? then backing.value else if frame.Some? then frame.value else placeholder;
      handle := Some(HandleOf(active, tenBit, if hstride > 0 then hstride else width, if vstride > 0 then vstride else height));
    }
  }

  // ---------- runs ----------

  datatype State = State(surface: Surface, ready: multiset<Ready>)

  /** Steps of API calls on the surface, one at a time, and of decode workers at any moment. */
  datatype Action =
    | Begins(continuation: bool)
    | Copies(fence: nat, frame: Frame, copied: bool)
    | Publishes(r: Ready)
    | Fails(fence: nat)
    | Exports(memory: bool, copied: bool)

  /** A fence belongs to one context, whose one worker copies and publishes frame by frame. */
  predicate HasReady(st: State, fence: nat) {
    exists r :: r in st.ready && r.fence == fence
  }

  function Apply(st: State, a: Action): State {
    var s := st.surface;
    match a
    case Begins(continuation) => st.(surface := Begun(s, continuation))
    case Copies(fence, f, copied) =>
      if !s.begun || fence > s.fence || HasReady(st, fence) then st
      else if !Usable(s, f) then st.(surface := FailedAt(s, fence))
      else
        (match CopyToStable(s, fence, f, copied)
         case None => st.(surface := FailedAt(s, fence))
         case Some(r) => st.(ready := st.ready + multiset{r}))
    case Publishes(r) => if r in st.ready then State(Published(s, r), st.ready - multiset{r}) else st
    case Fails(fence) => if s.begun then st.(surface := FailedAt(s, fence)) else st
    case Exports(memory, copied) => st.(surface := Export(s, memory, copied).0)
  }

  function Run(st: State, schedule: seq<Action>): State {
    if |schedule| == 0 then st else Apply(Run(st, schedule[..|schedule| - 1]), schedule[|schedule| - 1])
  }

  // ---------- every surface covers its picture ----------

  /** The strides cover the visible size, now and once a waiting frame is published. */
  ghost predicate Shaped(st: State) {
    var s := st.surface;
    && s.width > 0 && s.hstride > 0 && 0 < s.height <= s.vstride
    && (forall r :: r in st.ready ==> r.fence <= s.fence && st.ready[r] == 1)
    && (forall r, q :: r in st.ready && q in st.ready && r.fence == q.fence ==> r == q)
    && (forall r :: r in st.ready && r.fence == s.fence ==> r.hstride > 0 && r.vstride >= Known(r.frame.height, s.height))
  }

  lemma ShapedExport(st: State, memory: bool, copied: bool)
    requires Shaped(st)
    ensures Shaped(st.(surface := Export(st.surface, memory, copied).0))
  {
    hide AlignUp;
  }

  lemma ShapedCopy(st: State, fence: nat, f: Frame, copied: bool)
    requires Shaped(st)
    ensures Shaped(Apply(st, Copies(fence, f, copied)))
  {
    hide LayoutSize, Repackable;
  }

  lemma ShapedPublish(st: State, r: Ready)
    requires Shaped(st)
    ensures Shaped(Apply(st, Publishes(r)))
  {
    if r in st.ready {
      forall x | x in st.ready - multiset{r}
        ensures x in st.ready && x != r && x.fence != r.fence
      {
      }
    }
  }

  lemma ShapedStep(st: State, a: Action)
    requires Shaped(st)
    ensures Shaped(Apply(st, a))
  {
    hide Export, CopyToStable, Published, Usable, HasReady;
    match a
    case Exports(memory, copied) => ShapedExport(st, memory, copied);
    case Copies(fence, f, copied) => ShapedCopy(st, fence, f, copied);
    case Publishes(r) => ShapedPublish(st, r);
    case _ =>
  }

  /** Creation and publication never leave a surface whose buffer is shorter than its picture. */
  lemma {:induction false} SurfacesCoverPictures(width: nat, height: nat, tenBit: bool, encoderInput: bool, placeholder: Buffer, bytes: nat,
                                                 schedule: seq<Action>)
    requires width > 0 && height > 0
    ensures var st := Run(State(Created(width, height, tenBit, encoderInput, placeholder, bytes), multiset{}), schedule);
            Shaped(st) && st.surface.hstride > 0 && 0 < st.surface.height <= st.surface.vstride
  {
    hide Apply, Shaped;
    var first := State(Created(width, height, tenBit, encoderInput, placeholder, bytes), multiset{});
    if |schedule| > 0 {
      SurfacesCoverPictures(width, height, tenBit, encoderInput, placeholder, bytes, schedule[..|schedule| - 1]);
      ShapedStep(Run(first, schedule[..|schedule| - 1]), schedule[|schedule| - 1]);
    } else {
      ShapedAtFirst(first);
    }
    ShapedMeans(Run(first, schedule));
  }

  lemma ShapedAtFirst(st: State)
    requires st.ready == multiset{} && st.surface.width > 0 && st.surface.hstride > 0 && 0 < st.surface.height <= st.surface.vstride
    ensures Shaped(st)
  {
  }

  lemma ShapedMeans(st: State)
    requires Shaped(st)
    ensures st.surface.hstride > 0 && 0 < st.surface.height <= st.surface.vstride
  {
  }

  // ---------- identity of a pre-decode export ----------

  /**
   After an export before the first picture nothing the surface shows lives outside its placeholder,
   which takes every depth the surface has had.
   */
  ghost predicate Steady(st: State, first: Surface) {
    var s := st.surface;
    && s.stable && s.placeholder == first.placeholder && s.bytes == first.bytes && s.encoderInput == first.encoderInput
    && s.frame.None? && s.backing.None?
    && s.width == first.width && s.height == first.height
    && s.hstride == first.hstride > 0 && s.vstride == first.vstride > 0
    && s.placeholder < s.nextBuffer
    && (s.repacked.Some? ==> s.placeholder < s.repacked.value.buffer)
    && (!s.begun ==> !s.decoded && st.ready == multiset{})
    && (s.tenBit == first.tenBit || Takes(first, s.tenBit))
    && (forall r :: r in st.ready ==>
          r.fence <= s.fence && (r.fence == s.fence ==> r.copied && FitsSurface(r, first)))
  }

  predicate FitsSurface(r: Ready, first: Surface) {
    && r.hstride == first.hstride && r.vstride == first.vstride && Takes(first, r.frame.tenBit)
    && Known(r.frame.width, first.width) == first.width && Known(r.frame.height, first.height) == first.height
  }

  lemma SteadyExport(st: State, memory: bool, copied: bool, first: Surface)
    requires Steady(st, first)
    ensures Steady(st.(surface := Export(st.surface, memory, copied).0), first)
  {
    hide AlignUp, Takes, FitsSurface;
  }

  lemma SteadyCopy(st: State, fence: nat, f: Frame, copied: bool, first: Surface)
    requires Steady(st, first)
    ensures Steady(Apply(st, Copies(fence, f, copied)), first)
  {
    hide Usable, Takes, HasReady;
    if Takes(st.surface, f.tenBit) {
      TakesSame(st.surface, first, f.tenBit);
    }
  }

  lemma TakesSame(s: Surface, first: Surface, tenBit: bool)
    requires Takes(s, tenBit) && s.bytes == first.bytes && s.width == first.width && s.height == first.height
    requires s.hstride == first.hstride && s.vstride == first.vstride
    ensures Takes(first, tenBit)
  {
  }

  lemma SteadyPublish(st: State, r: Ready, first: Surface)
    requires Steady(st, first)
    ensures Steady(Apply(st, Publishes(r)), first)
  {
    hide Takes;
  }

  lemma SteadyStep(st: State, a: Action, first: Surface)
    requires Steady(st, first)
    ensures Steady(Apply(st, a), first)
  {
    hide Export, CopyToStable, Published, Usable, Takes, HasReady;
    match a
    case Exports(memory, copied) => SteadyExport(st, memory, copied, first);
    case Copies(fence, f, copied) => SteadyCopy(st, fence, f, copied, first);
    case Publishes(r) => SteadyPublish(st, r, first);
    case _ =>
  }

  lemma {:induction false} SteadyRun(st: State, schedule: seq<Action>, first: Surface)
    requires Steady(st, first)
    ensures Steady(Run(st, schedule), first)
  {
    hide Apply, Steady;
    if |schedule| > 0 {
      SteadyRun(st, schedule[..|schedule| - 1], first);
      SteadyStep(Run(st, schedule[..|schedule| - 1]), schedule[|schedule| - 1], first);
    }
  }

  /** The surface after its first export, with nothing begun. */
  function FirstExported(width: nat, height: nat, tenBit: bool, placeholder: Buffer, bytes: nat): State {
    State(Export(Created(width, height, tenBit, false, placeholder, bytes), true, true).0, multiset{})
  }

  /** The first export establishes the placeholder as the surface's storage. */
  lemma FirstIsSteady(width: nat, height: nat, tenBit: bool, placeholder: Buffer, bytes: nat, memory: bool, copied: bool)
    requires width > 0 && height > 0
    ensures var s := Created(width, height, tenBit, false, placeholder, bytes);
            && Steady(FirstExported(width, height, tenBit, placeholder, bytes), s)
            && Export(s, memory, copied).1 == Some(HandleOf(placeholder, tenBit, s.hstride, s.vstride))
            && s.placeholder == placeholder && s.tenBit == tenBit && !s.encoderInput && (!tenBit ==> s.hstride % 64 == 0)
            && FirstExported(width, height, tenBit, placeholder, bytes) == State(s.(stable := true), multiset{})
  {
    hide Takes, FitsSurface, HandleOf, AlignUp;
    AlignedPitch(width);
  }

  lemma AlignedPitch(width: nat)
    ensures AlignUp(width, 64) % 64 == 0
  {
  }

  /** The depths of the frames published on the surface, in order. */
  function Depths(st: State, schedule: seq<Action>): seq<bool> {
    if |schedule| == 0 then []
    else
      var front, a := schedule[..|schedule| - 1], schedule[|schedule| - 1];
      var before := Run(st, front);
      if a.Publishes? && a.r in before.ready && a.r.fence == before.surface.fence then Depths(st, front) + [a.r.frame.tenBit]
      else Depths(st, front)
  }

  /** Only a publication changes the depth. */
  lemma DepthStep(st: State, a: Action)
    ensures Apply(st, a).surface.tenBit ==
            if a.Publishes? && a.r in st.ready && a.r.fence == st.surface.fence then a.r.frame.tenBit else st.surface.tenBit
  {
    hide AlignUp, Usable, Repackable, HasReady;
  }

  lemma {:induction false} DepthIsTheLast(st: State, schedule: seq<Action>)
    ensures var depths := Depths(st, schedule);
            Run(st, schedule).surface.tenBit == if depths == [] then st.surface.tenBit else depths[|depths| - 1]
  {
    hide Apply;
    if |schedule| > 0 {
      DepthIsTheLast(st, schedule[..|schedule| - 1]);
      DepthStep(Run(st, schedule[..|schedule| - 1]), schedule[|schedule| - 1]);
    }
  }

  /**
   Identity of a pre-decode export: after any sequence of pictures, failures, reuses and further
   exports, an export that succeeds names the buffer, pitch and chroma offset of the first one
   exactly when no frame was published or the last one had the depth the surface was created with.
   */
  lemma StableExportIdentity(width: nat, height: nat, tenBit: bool, placeholder: Buffer, bytes: nat, schedule: seq<Action>, memory: bool, copied: bool)
    requires width > 0 && height > 0
    ensures var first := Export(Created(width, height, tenBit, false, placeholder, bytes), memory, copied).1;
            var st := FirstExported(width, height, tenBit, placeholder, bytes);
            var later := Export(Run(st, schedule).surface, memory, copied).1;
            var depths := Depths(st, schedule);
            first.Some? && (later.Some? ==> (later == first <==> depths == [] || depths[|depths| - 1] == tenBit))
  {
    hide Run, Created, FirstExported, Export, Steady, HandleOf, Depths;
    var st := FirstExported(width, height, tenBit, placeholder, bytes);
    var s := Created(width, height, tenBit, false, placeholder, bytes);
    FirstIsSteady(width, height, tenBit, placeholder, bytes, memory, copied);
    SteadyRun(st, schedule, s);
    DepthIsTheLast(st, schedule);
    SteadyHandle(Run(st, schedule), s, memory, copied);
  }

  lemma SteadyHandle(st: State, first: Surface, memory: bool, copied: bool)
    requires Steady(st, first) && !first.encoderInput && (!first.tenBit ==> first.hstride % 64 == 0)
    ensures var later := Export(st.surface, memory, copied).1;
            later.Some? ==> (later == Some(HandleOf(first.placeholder, first.tenBit, first.hstride, first.vstride)) <==> st.surface.tenBit == first.tenBit)
  {
    hide Takes, FitsSurface;
  }

  /** With frames of the surface's own depth the identity holds for all later exports. */
  lemma StableExportKept(width: nat, height: nat, tenBit: bool, placeholder: Buffer, bytes: nat, schedule: seq<Action>, memory: bool, copied: bool)
    requires width > 0 && height > 0
    requires forall i :: 0 <= i < |schedule| && schedule[i].Publishes? ==> schedule[i].r.frame.tenBit == tenBit
    ensures var later := Export(Run(FirstExported(width, height, tenBit, placeholder, bytes), schedule).surface, memory, copied).1;
            later.Some? ==> later == Export(Created(width, height, tenBit, false, placeholder, bytes), memory, copied).1
  {
    DepthsOfFrames(FirstExported(width, height, tenBit, placeholder, bytes), schedule, tenBit);
    StableExportIdentity(width, height, tenBit, placeholder, bytes, schedule, memory, copied);
  }

  lemma DepthsOfFrames(st: State, schedule: seq<Action>, tenBit: bool)
    requires forall i :: 0 <= i < |schedule| && schedule[i].Publishes? ==> schedule[i].r.frame.tenBit == tenBit
    ensures forall i :: 0 <= i < |Depths(st, schedule)| ==> Depths(st, schedule)[i] == tenBit
  {
    hide Apply;
  }

  // ---------- when the identity can break at all ----------

  /** A later export that names something else than the first. */
  predicate Breaks(width: nat, height: nat, tenBit: bool, placeholder: Buffer, bytes: nat, schedule: seq<Action>) {
    var later := Export(Run(FirstExported(width, height, tenBit, placeholder, bytes), schedule).surface, true, true).1;
    later.Some? && later != Export(Created(width, height, tenBit, false, placeholder, bytes), true, true).1
  }

  /** One picture of the other depth, as large as the surface and with its strides. */
  function OtherDepth(s: Surface): Frame {
    Frame(0, 0, s.hstride, s.vstride, !s.tenBit,
          if LayoutSize(!s.tenBit, s.hstride, s.vstride).Some? then LayoutSize(!s.tenBit, s.hstride, s.vstride).value else 0, None, None)
  }

  function OtherPicture(s: Surface): seq<Action> {
    [Begins(false), Copies(1, OtherDepth(s), true), Publishes(Ready(1, OtherDepth(s), true, s.hstride, s.vstride))]
  }

  lemma OtherPictureBreaks(width: nat, height: nat, tenBit: bool, placeholder: Buffer, bytes: nat)
    requires Creatable(width, height, tenBit, bytes) && Takes(Created(width, height, tenBit, false, placeholder, bytes), !tenBit)
    ensures Breaks(width, height, tenBit, placeholder, bytes, OtherPicture(Created(width, height, tenBit, false, placeholder, bytes)))
  {
    hide LayoutSize, Export, Run, AlignUp, Created, FirstExported, HandleOf, Creatable;
    CreatedAligned(width, height, tenBit, placeholder, bytes);
    FirstIsSteady(width, height, tenBit, placeholder, bytes, true, true);
    var s := Created(width, height, tenBit, false, placeholder, bytes);
    var st := FirstExported(width, height, tenBit, placeholder, bytes);
    var p := OtherPicture(s);
    var s1 := Apply(st, p[0]);
    assert !HasReady(s1, 1);
    var r := Ready(1, OtherDepth(s), true, s.hstride, s.vstride);
    var s2 := Apply(s1, p[1]);
    assert s2 == s1.(ready := multiset{r});
    var s3 := Apply(s2, p[2]);
    RunThree(st, p);
    DecodedExports(s3.surface);
    SteadyRun(st, p, s);
    SteadyHandle(s3, s, true, true);
  }

  lemma CreatedAligned(width: nat, height: nat, tenBit: bool, placeholder: Buffer, bytes: nat)
    requires Creatable(width, height, tenBit, bytes)
    ensures var s := Created(width, height, tenBit, false, placeholder, bytes);
            && s.tenBit == tenBit && s.fence == 0 && !s.begun && s.width == width <= s.hstride && 0 < s.height <= s.vstride
            && s.vstride % 2 == 0 && s.hstride > 0 && s.frame == s.backing == None && (!tenBit ==> s.hstride % 64 == 0)
            && s.hstride <= INT_MAX && s.vstride <= INT_MAX && width > 0 && height > 0
  {
    EvenAlignment(height);
    AlignedPitch(width);
  }

  lemma RunThree(st: State, p: seq<Action>)
    requires |p| == 3
    ensures Run(st, p) == Apply(Apply(Apply(st, p[0]), p[1]), p[2])
  {
    hide Apply;
    assert p[..2][..1] == p[..1] && p[..1][..0] == [];
    assert Run(st, p[..1]) == Apply(st, p[0]);
    assert Run(st, p[..2]) == Apply(Run(st, p[..1]), p[1]);
  }

  /** Memory and the copies permitting, a decoded surface can be exported. */
  lemma DecodedExports(s: Surface)
    requires s.decoded && s.hstride > 0 && s.width <= s.hstride && 0 < s.height <= s.vstride && s.vstride % 2 == 0
    ensures Export(s, true, true).1.Some?
  {
    hide HandleOf;
  }

  /**
   Which surfaces are safe whatever is decoded into them: some sequence of pictures makes a later
   export name other storage if and only if the placeholder takes a picture of the other depth.
   */
  lemma IdentityCanBreakIff(width: nat, height: nat, tenBit: bool, placeholder: Buffer, bytes: nat)
    requires Creatable(width, height, tenBit, bytes)
    ensures (exists schedule :: Breaks(width, height, tenBit, placeholder, bytes, schedule)) <==>
            Takes(Created(width, height, tenBit, false, placeholder, bytes), !tenBit)
  {
    hide Takes, Run, Created, Export, FirstExported, Steady, HandleOf;
    FirstIsSteady(width, height, tenBit, placeholder, bytes, true, true);
    var s := Created(width, height, tenBit, false, placeholder, bytes);
    if Takes(s, !tenBit) {
      OtherPictureBreaks(width, height, tenBit, placeholder, bytes);
    } else if schedule :| Breaks(width, height, tenBit, placeholder, bytes, schedule) {
      var st := FirstExported(width, height, tenBit, placeholder, bytes);
      SteadyRun(st, schedule, s);
      SteadyHandle(Run(st, schedule), s, true, true);
      DepthTaken(Run(st, schedule), s);
    }
  }

  lemma DepthTaken(st: State, first: Surface)
    requires Steady(st, first)
    ensures st.surface.tenBit == first.tenBit || Takes(first, st.surface.tenBit)
  {
  }

  /** P010 surfaces always take 8-bit pictures; NV12 surfaces of even size take 10-bit ones if these fit the placeholder. */
  lemma WhatPlaceholdersTake(width: nat, height: nat, tenBit: bool, placeholder: Buffer, bytes: nat)
    requires Creatable(width, height, tenBit, bytes)
    ensures Takes(Created(width, height, tenBit, false, placeholder, bytes), !tenBit) <==>
            tenBit || (width % 2 == 0 && height % 2 == 0 && 3 * (AlignUp(width, 64) * AlignUp(height, 16)) <= bytes)
  {
    hide AlignUp, PlaceholderSize, Takes, LayoutSize;
    var hstride, vstride := AlignUp(width, if tenBit then 16 else 64), AlignUp(height, 16);
    var s := Created(width, height, tenBit, false, placeholder, bytes);
    PlaceholderHolds(width, height, tenBit, hstride, vstride);
    EvenAlignment(height);
    TakesBySize(s, !tenBit);
    TakesBySize(s, tenBit);
    BytesIs(hstride, vstride);
  }

  lemma BytesIs(hstride: nat, vstride: nat)
    ensures LayoutBytes(true, hstride, vstride) == 3 * (hstride * vstride) && LayoutBytes(false, hstride, vstride) <= 3 * (hstride * vstride)
  {
    assert hstride * vstride >= 0;
  }

  /** For a surface of at most 8192x8192 pixels with its strides, only the size of the placeholder matters. */
  lemma TakesBySize(s: Surface, tenBit: bool)
    requires 0 < s.width <= s.hstride <= 8256 && 0 < s.height <= s.vstride <= 8208 && s.vstride % 2 == 0
    ensures Takes(s, tenBit) <==>
            s.width % 2 == 0 && s.height % 2 == 0 && LayoutBytes(tenBit, s.hstride, s.vstride) <= s.bytes
    ensures LayoutSize(tenBit, s.hstride, s.vstride) == Some(LayoutBytes(tenBit, s.hstride, s.vstride))
  {
    hide PlaneSize;
    PlaneGrows(s.hstride, s.vstride, 8256, 8208);
    PlaneSizeIs(8256, 8208);
    PlaneSizeIs(s.hstride, s.vstride);
    PlaneTwice(s.hstride, s.vstride);
    HalfExact(s.hstride, s.vstride);
  }

  function LayoutBytes(tenBit: bool, hstride: nat, vstride: nat): nat {
    if tenBit then 3 * (hstride * vstride) else hstride * vstride * 3 / 2
  }

  lemma PlaneTwice(pitch: nat, rows: nat)
    ensures PlaneSize(2 * pitch, rows) == 2 * PlaneSize(pitch, rows)
  {
  }

  lemma HalfExact(pitch: nat, rows: nat)
    requires rows % 2 == 0
    ensures PlaneSize(pitch, rows) % 2 == 0
  {
    var half := rows / 2;
    assert pitch * rows == 2 * (pitch * half);
  }

  /** CIF surfaces can lose their identity, 1080p surfaces cannot: their placeholders take 491520 and 5013504 bytes. */
  lemma CifBreaksHdDoesNot(placeholder: Buffer)
    ensures PlaceholderSize(352, 288, false) == Some(491520) && PlaceholderSize(1920, 1088, false) == Some(5013504)
    ensures exists schedule :: Breaks(352, 288, false, placeholder, 491520, schedule)
    ensures !exists schedule :: Breaks(1920, 1088, false, placeholder, 5013504, schedule)
  {
    hide Breaks;
    WhatPlaceholdersTake(352, 288, false, placeholder, 491520);
    WhatPlaceholdersTake(1920, 1088, false, placeholder, 5013504);
    IdentityCanBreakIff(352, 288, false, placeholder, 491520);
    IdentityCanBreakIff(1920, 1088, false, placeholder, 5013504);
  }
}
