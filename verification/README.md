# Verified model of the Rockchip VA-API driver

The driver sits between VA-API applications and the Rockchip MPP decoder.  This project models the
parts of it that have to be right for pictures to come out right, and proves what they promise.

* **Bitstreams** (`src/hevc.c`, `src/h264.c`, `src/bs.h`, the packet builders of `src/mpp_dec.c`).
  VA-API delivers parsed parameter structures and bare slices; MPP wants an Annex B stream.  The
  driver prints parameter sets and rewrites each HEVC slice header so that its reference picture set
  is explicit.  Modules `Bits`, `ExpGolomb`, `BitWriter`, `BitReader`, `Emulation`, `RawNal`,
  `ReferencePictureSets`, `LongTermReferences`, `SliceHeader`, `SliceRewrite`, `ScalingLists`,
  `TileLayout`, `PictureValidation`, `PictureParameterSet`, `HevcLevel`, `SequenceParameterSets`,
  `H264ParameterSets`, `AnnexB`, `AccessUnit`, `HevcPacket` and `H264Packet` model the byte-level
  code as methods over arrays and prove it against decoders written from ITU-T H.265 and H.264;
  `SliceSyntax` codes slice headers as the standard does and `HevcConformance` states its ranges;
  `SliceMeaning` proves that rewriting preserves what a decoder understands, `SliceAlignment` when
  it does not.
* **Decoding** (`src/mpp_dec.c`, `src/context.c`).  Application threads begin and end pictures, a
  worker feeds MPP and routes frames back to surfaces.  `DecodeState` is the protocol as a state
  machine whose steps are at most one critical section long; MPP is an oracle that emits frames of
  accepted packets.  `DecodeCoverage` proves that no fence is orphaned, `DecodeOutcome` how each
  ends, `FieldPairs` that two fields share theirs, `DecodeRouting` that the worker's books are right
  and that frames with tokens reach the surface and fence they were decoded for, `DecodeFifo` exactly
  when VP9 frames do by their order alone, `RouteLifetime` exactly when every route is destroyed
  once, `DecodeStall` shows the runs in which this fails, and `DecodeWorker` ties the worker's
  methods to the steps.
* **Objects** (`src/object_heap.c`).  `ObjectPool` and `ObjectHeap` prove that the generation-tagged
  slot array is a finite map whose keys are never reused; `ReferenceCount` proves the life of an
  object under every interleaving of its atomic operations.
* **Surfaces** (`src/export.c`, `src/surface.c`, `src/buffer.c`, `src/frame_layout.c`).
  `StableExport` proves when a surface exported before its first picture keeps its storage;
  `ImageCopy` when uploading and reading back an image returns its samples, `SurfaceMeaning` what
  handles, copies and images are to their users.  The image calls see the geometry that
  `StableExport` keeps (`ImageCopy.GeometryOf`).

A writer's ghost field `text` is everything its callers asked for; its buffer holds that text
clipped to its size, so each user of a buffer proves that nothing was clipped.  `Integers` holds the
widths of the source's types; `Options`, `PictureParameters` and `SyntaxElements` what the
bitstream modules share.

## Where the code needs a condition

Each of these is proved with the exact condition, most also with an input or a run that fails:

* `br_read_ue` adds UINT32_MAX instead of 2^31 - 1 behind 31 leading zeros, so ue(v) is read back
  only up to 2^31 - 2 (`BitReader.WriteReadUe`, `BitReader.ReadUeWrongBehind31Zeros`).
* `bs_write_ue(UINT32_MAX)` wraps and writes a single zero bit (`BitWriter.BSWriter.WriteUe`).
  `h264_write_sps` asks for that when a sequence with field pictures has one macroblock row; a
  decoder recovers the height exactly when such a sequence has an even number of rows, and the whole
  set exactly when the picture order count also has a type that exists and the profile is none of
  138, 139, 134 and 135, which the writer does not take for high ones and the driver never asks for
  (`H264ParameterSets.SpsRoundTrip`).
* `h264_write_pps` sends two 8x8 scaling lists, all that VA-API carries; a decoder of a 4:4:4
  sequence looks for six (`H264ParameterSets.PpsRoundTrip`).
* `derive_level_idc` of HEVC looks at the number of samples but not at the sides.  Its level admits
  the picture if and only if there are at most 35651584 samples and no side is longer than
  `LongestSide` of their number, from 543 for up to 36864 samples to 16888; a picture of 2048x16
  passes the validation and gets a level that does not admit it (`HevcLevel.LevelAdmitsIff`,
  `HevcLevel.WidePictureOutgrowsItsLevel`).
* `unescape_prefix` keeps a 03 that stands last or in front of a byte above 3
  (`Emulation.UnescapeMeetsStandard`).
* `collect_rps` sorts but does not reject equal picture order counts, for which the difference in
  `write_short_term_rps` wraps (`ReferencePictureSets.CollectedRoundTrip`).
* `write_long_term_rps` refuses lists whose MSB cycles are negative or shrink
  (`LongTermReferences.ExpressibleMeans`).
* Without a slice data offset a rewritten slice is what it would be with the right one if and only
  if the new reference picture set ends at the same bit of a byte as the old one
  (`SliceAlignment.AlignmentWithoutOffset`); `SliceAlignment.SampleIsMoved` is a slice of five bytes
  whose slice data end up three bits into a byte.
* The same slice then ends in a zero byte, which a byte stream takes for the beginning of the next
  start code.  A packet is cut back into its units if and only if none but the last ends in a zero
  byte (`AnnexB.UnitsOfStreamIff`, `HevcPacket.PacketSplitsBack`,
  `AccessUnit.MovedSlicesDoNotSplit`).
* `sps_sent` is set when the sequence parameter set is put into an H.264 packet, but the packet can
  still be dropped.  The flag is wrong if and only if the first picture that got that far was dropped
  and no IDR picture has come through since (`H264Packet.FlagIsWrongIff`,
  `H264Packet.TwoSmallPictures`).
* The sequence sets of HEVC are remembered when a job is queued, but its packet can still be refused.
  MPP then lacks them for the next pictures, unless it had the same ones before
  (`HevcPacket.SetsAreMissedIff`, `HevcPacket.SecondPictureWithoutSets`).
* VP9 frames take the oldest route.  After a stall flush a late frame can take the route of a newer
  packet: a frame that takes a route takes its own if and only if there are as many routes of
  accepted packets as frames to come (`DecodeFifo.FrameTakesItsRouteIff`,
  `DecodeStall.LateFrameMisrouted`).
* Such a frame can take the route of the very packet that is being put; accepting that packet then
  leaves `outstanding_frames` at one with no route.  The count is one too high exactly when that has
  happened and no flush has ended and no packet without its route was refused since
  (`DecodeFifo.OutstandingRightIff`, `DecodeStall.FrameWithoutRouteCounted`).
* When such a packet is refused instead, its route is destroyed a second time.  Every route is
  destroyed once if and only if that never happens (`RouteLifetime.RoutesDestroyedOnceIff`,
  `RouteLifetime.StopDestroysRoutesOnceIff`, `DecodeStall.RouteDestroyedAgain`).
* A picture of the other bit depth changes what a stable export names
  (`StableExport.StableExportIdentity`).  Some sequence of pictures does that if and only if the
  placeholder takes such a picture: always for P010 surfaces, for NV12 ones of even size when the
  P010 layout fits (`StableExport.IdentityCanBreakIff`, `StableExport.WhatPlaceholdersTake`), which
  is so at 352x288 and not at 1920x1088 (`StableExport.CifBreaksHdDoesNot`).  The comment in
  `src/surface.c` promises permanent storage for linear NV12 without that condition.
* The layout test of a decoded 8-bit frame does not compare its rows with the stride MPP reports: the
  picture lies inside the frame if and only if they are not longer (`SurfaceMeaning.UsableInsideIff`).
* `rk_PutImage` writes the surface's own buffer and `rk_GetImage` reads the one that is shown: on a
  surface that shows a decoded picture of its own storage, an uploaded image is read back if and only
  if that picture has its samples already (`ImageCopy.RKSurface.PutThenGet`,
  `ImageCopy.OldPictureReadBack`).

## Model

| member | source | states |
|---|---|---|
| `Bits.OrBitInPlace` | src/bs.h:25-29 | oring one bit into a byte changes exactly one bit of the whole buffer |
| `Bits.BitsOfPack` | src/bs.h:31-56 | packed bits are the text followed by zero bits up to the byte boundary |
| `Bits.ValueOfUBits` | src/bs.h:31-33 | u(n) written is read back modulo 2^n, so exactly when it fits |
| `Bits.UBitsOfValue` | src/hevc.c:83-99 | the bits read are the only n bits with that value |
| `ExpGolomb.ReadUeOfUeCode` | src/bs.h:35-42 | ue(v) of section 9.2 reads every code back, whatever follows |
| `ExpGolomb.ReadUe32OfUeCode` | src/hevc.c:60-81 | codes of 32-bit values stay within 31 leading zeros |
| `ExpGolomb.ReadSeOfSeCode` | src/bs.h:44-47 | se(v) reads every signed value back |
| `ExpGolomb.ReadAllOfEncode` | src/bs.h:25-52 | any sequence of u(n), ue(v), se(v) elements is read back and the reader ends where the writer did |
| `ExpGolomb.UeCodeLength` | src/bs.h:35-42 | a code of a 32-bit value has at most 63 bits |
| `BitWriter.BSWriter.constructor` | src/bs.h:19-23 | an empty text over a cleared buffer |
| `BitWriter.BSWriter.StoreBit` | src/bs.h:25-29 | the buffer holds the old bits and the new one, clipped to its size |
| `BitWriter.BSWriter.Write1` | src/bs.h:25-29 | one bit is appended to the text |
| `BitWriter.BSWriter.Write` | src/bs.h:31-33 | the low n bits are appended, most significant first |
| `BitWriter.BSWriter.WriteUe` | src/bs.h:35-42 | the ue(v) code is appended; UINT32_MAX wraps to a lone zero bit |
| `BitWriter.BSWriter.WriteSe` | src/bs.h:44-47 | the se(v) code is appended |
| `BitWriter.BSWriter.RbspTrailing` | src/bs.h:49-52 | rbsp_trailing_bits() is appended; in a full buffer the loop ends after one bit |
| `BitWriter.BSWriter.AlignZero` | src/hevc.c:888-890 | zero bits up to the byte boundary are appended while they fit |
| `BitWriter.BSWriter.Bytes` | src/bs.h:54-56 | the bytes counted hold the text and zero padding whenever the text fits |
| `BitWriter.TrailingEndsNonzero` | src/bs.h:49-52 | a byte string that ends in trailing bits ends in a nonzero byte |
| `BitReader.HEVCBitReader.ReadBit` | src/hevc.c:51-58 | the next bit, or failure at the end with the cursor unmoved |
| `BitReader.HEVCBitReader.ReadBits` | src/hevc.c:83-99 | u(count) of the bits ahead, failing exactly beyond 32 bits or beyond the end |
| `BitReader.HEVCBitReader.ReadUe` | src/hevc.c:60-81 | succeeds exactly where ue(v) with at most 31 leading zeros does, with the same cursor; the value is that of `UeOfCode` |
| `BitReader.HEVCBitReader.ReadZeros` | src/hevc.c:65-70 | counts the zeros before the first one, giving up at the 32nd |
| `BitReader.HEVCBitReader.SkipBits` | src/hevc.c:101-107 | moves exactly `count` bits or not at all |
| `BitReader.HEVCBitReader.ReadAll` | src/hevc.c:60-99 | a sequence of elements is read exactly where `ReadAllByCode` reads it, with the same cursor |
| `BitReader.ReadUeMeetsStandard` | src/hevc.c:72-80 | the value agrees with section 9.2 if and only if it is below 2^31 - 1 |
| `BitReader.ReadUeWrongBehind31Zeros` | src/hevc.c:78-79 | 2^31 - 1 is written correctly and read as UINT32_MAX |
| `BitReader.WriteReadUe` | src/bs.h:35-42 | for every uint32_t, writing then reading returns it behind any tail if and only if it is at most 2^31 - 2 |
| `BitReader.BufferRoundTrip` | src/hevc.c:51-99 | on one buffer, behind any text with room left: the writer keeps the earlier bits, and a reader of the same bytes returns the u(n) and ue(v) elements and stops where the writer stands |
| `Emulation.EmulationPrevent` | src/hevc.c:191-210 | writes the escaped text exactly when it fits, returns 0 otherwise, and touches nothing before it |
| `Emulation.UnescapePrefix` | src/hevc.c:133-148 | writes the longest prefix of the unescaped text that fits |
| `Emulation.UnescapeOfEscape` | src/hevc.c:133-210 | escaping is undone by the decoder's rule and by the code's, for every byte string |
| `Emulation.UnescapeMeetsStandard` | src/hevc.c:139-145 | the code's unescaping is that of section 7.3.1.1 if and only if no stray 03 stands behind two zeros |
| `Emulation.EscapeGrowth` | src/hevc.c:191-210 | n bytes grow by at most (n - 1) / 2 |
| `Emulation.EscapeDistributes` | src/h264.c:83-98 | behind a nonzero byte the rest is escaped as if it stood alone |
| `Emulation.EscapeAppend` | src/hevc.c:191-210 | escaping a concatenation continues with the zero run of the first part |
| `Emulation.EscapeKeepsLast` | src/hevc.c:191-210 | the last byte survives escaping |
| `Emulation.EscapeIsClean` | src/hevc.c:197-208 | no escaped text contains a forbidden pattern |
| `Emulation.CleanWindows` | src/hevc.c:197-208 | that is: nowhere 00 00 followed by a byte up to 02 |
| `Emulation.HeaderThenEscapeIsClean` | src/hevc.c:902-905 | nor across an unescaped two-byte NAL unit header |
| `ReferencePictureSets.HEVCRPS.Collect` | src/hevc.c:301-343 | one DPB entry joins the list its flags and distance choose, or the picture is rejected |
| `ReferencePictureSets.CollectRps` | src/hevc.c:295-350 | succeeds exactly on acceptable DPBs and leaves the three lists, the short-term ones sorted |
| `ReferencePictureSets.SortEntries` | src/hevc.c:282-293 | in place, the sorted list, nothing else touched |
| `ReferencePictureSets.InsertShifting` | src/hevc.c:285-291 | shifting makes room for one entry behind the last not larger one |
| `ReferencePictureSets.SortedIsSorted` | src/hevc.c:282-293 | the result is ordered and a permutation |
| `ReferencePictureSets.WriteShortTermRps` | src/hevc.c:592-612 | appends st_ref_pic_set() as the code forms it, wrap-around of the subtraction included |
| `ReferencePictureSets.WriteDeltas` | src/hevc.c:600-611 | appends the chain of delta-minus-one codes |
| `ReferencePictureSets.ShortTermRoundTrip` | src/hevc.c:592-612 | sections 7.3.7 and 7.4.8 recover the set if and only if the distances increase strictly |
| `ReferencePictureSets.CollectedRoundTrip` | src/hevc.c:295-350 | from the DPB: recovered if and only if no two short-term references share a picture order count |
| `ReferencePictureSets.CollectedSetMeaning` | src/hevc.c:301-340 | the decoded set holds exactly the short-term pictures by their fields, those without reference flags included, with their distances and whether the flags use them now; past and future each by growing distance |
| `ReferencePictureSets.CollectedLongTerm` | src/hevc.c:315-326 | the long-term list holds exactly the long-term pictures, in the order of the DPB, with full counts, used iff flagged so |
| `ReferencePictureSets.AcceptableIff` | src/hevc.c:301-343 | the accepted DPBs: every picture present is a long-term one, or a short-term one that is neither the current count nor more than 65535 away, and is in at most one set |
| `ReferencePictureSets.CollectedBounds` | src/hevc.c:310-343 | at most fifteen entries, distances between 1 and 65535 |
| `LongTermReferences.WriteLongTermRps` | src/hevc.c:614-656 | succeeds exactly on expressible lists, and then appends the entries with their cycle differences |
| `LongTermReferences.WriteEntry` | src/hevc.c:628-653 | one entry, its signed cycle computed by truncating division |
| `LongTermReferences.CycleIsMsbDifference` | src/hevc.c:630-632 | with a consistent slice header the truncating division is exact: the difference of the MSBs |
| `LongTermReferences.ExpressibleMeans` | src/hevc.c:645-649 | lists succeed if and only if no MSB lies above the current one and none above its predecessor's |
| `LongTermReferences.LongTermRoundTrip` | src/hevc.c:614-656 | equation (7-52) and section 8.3.2 recover every full picture order count and used flag, in order |
| `SliceHeader.CeilLog2IsLeast` | src/hevc.c:109-119 | the least number of bits that reaches the value |
| `SliceHeader.PreRpsStable` | src/hevc.c:800-853 | the fields before the reference picture set depend only on the bits they consume |
| `SliceHeader.LongTermStable` | src/hevc.c:723-757 | so does an explicit long-term part |
| `SliceRewrite.CeilLog2Of` | src/hevc.c:109-119 | the shifting loop computes Ceil(Log2(v)) |
| `SliceRewrite.ParseStart` | src/hevc.c:800-827 | accepts exactly what section 7.3.6.1 reads up to the segment address, finds the dependent flag |
| `SliceRewrite.ParseIndependent` | src/hevc.c:837-853 | accepts exactly the fields up to slice_pic_order_cnt_lsb, returns that value |
| `SliceRewrite.SkipOriginalRps` | src/hevc.c:704-760 | skips what `SkipRps` skips, and reports where the long-term part can be kept |
| `SliceRewrite.SkipOriginalLongTerm` | src/hevc.c:728-758 | the same for the long-term loop with its two kinds of entries |
| `SliceRewrite.CopyBits` | src/hevc.c:658-668 | appends a range of bits of the input |
| `SliceRewrite.FindByteAlignmentStart` | src/hevc.c:675-691 | the last set bit before the slice data |
| `SliceRewrite.WriteRewritten` | src/hevc.c:865-894 | the scratch buffer of the slice size plus 4096 bytes never drops a bit |
| `SliceRewrite.RpsTextLength` | src/hevc.c:867-876 | the bound behind that: the new set needs at most 3000 bits beyond what is kept |
| `SliceRewrite.RewriteSliceNal` | src/hevc.c:762-917 | the function `Rewrite` or -1: exactly when the slice is accepted, the output fits and memory is there |
| `SliceMeaning.SkipMeetsStandard` | src/hevc.c:704-760 | on headers within the limits of the standard the code skips exactly what section 7.3.6.1 reads |
| `SliceMeaning.NewHeaderDecodes` | src/hevc.c:867-876 | the new header is decoded under an SPS without tables, whatever follows it |
| `SliceMeaning.LimitsAre` | src/hevc.c:392-407 | the bounds on the picture are the ranges of section 7.4.3.2.1 for what slice headers depend on |
| `SliceMeaning.RewriteOtherwise` | src/hevc.c:767-836 | the other slices: malformed units and pictures out of range are refused, types 19 and 20 and dependent segments passed through unchanged |
| `SliceMeaning.RewriteSucceeds` | src/hevc.c:762-917 | an independent slice of any other type is rewritten if and only if the DPB is acceptable, a replaced long-term list expressible, and the slice data, if told, lie inside the slice behind an alignment |
| `SliceSyntax.HeaderIsRead` | src/hevc.c:800-860 | every header that section 7.3.6.1 can code within its limits is read back, whatever follows: each element is looked for where the standard puts it |
| `SliceSyntax.OthersPassThrough` | src/hevc.c:784-836 | so every slice coded as a dependent segment, and every one of type 19 or 20, is passed through |
| `SliceMeaning.SliceRewritePreservesMeaning` | src/hevc.c:762-917 | for every independent slice of a type other than 19 and 20: same fields, the reference set that describes the DPB, same long-term entries or the long-term pictures of the DPB, same rest of the header, aligned slice data with the same escaped bytes |
| `SliceMeaning.RewrittenSliceFits` | src/mpp_dec.c:1036-1042 | the buffer of the slice plus 4096 bytes suffices whenever the slice data begin within 7000 bytes |
| `SliceMeaning.RewriteWithoutOffset` | src/hevc.c:877-894 | without an offset everything behind the set is kept bit for bit, at most seven zero bits follow, and the new header is decoded as intended |
| `SliceAlignment.AlignmentWithoutOffset` | src/hevc.c:877-894 | the result is that of the right offset if and only if the new set ends at the same bit of a byte as the old one; otherwise the slice data leave their byte boundary |
| `SliceAlignment.LastByte` | src/hevc.c:896-908 | a packed text ends in a zero byte exactly when no bit that fell into its last byte is set |
| `SliceAlignment.SampleIsMoved` | src/hevc.c:877-894 | an accepted slice whose data are moved three bits off a byte boundary, in a unit that ends in 00 |
| `SliceMeaning.SampleIsRewritten` | src/hevc.c:762-917 | an ordinary slice meets all conditions of that theorem |
| `AnnexB.FinishNal` | src/hevc.c:212-225 | start code and escaped unit, or -1 exactly when they do not fit |
| `AnnexB.Packet.Append` | src/mpp_dec.c:43-68 | contents grow by the data, or stay on failure; failure only without memory or at SIZE_MAX |
| `AnnexB.EscapedIsCarriable` | src/hevc.c:212-225 | an escaped unit that ends in a nonzero byte can stand in a byte stream |
| `AnnexB.UnitsOfStream` | src/mpp_dec.c:895-914 | cutting a stream at its start codes (section B.2) returns exactly its units |
| `AnnexB.UnitsOfStreamIff` | src/mpp_dec.c:1055-1063 | with units that may end in 00: exactly its units if and only if none but the last does |
| `AccessUnit.AppendHevcSlices` | src/mpp_dec.c:1014-1075 | the packet grows by each rewritten slice, with a start code where it brings none; only refused slices, missing memory at any of the allocations, or SIZE_MAX stop it |
| `AccessUnit.RewrittenIsUnit` | src/hevc.c:896-908 | a rewritten canonical slice never contains a start code, and can stand in a byte stream if and only if it does not end in 00; with an offset, or passed through, it never does |
| `AccessUnit.HevcPacketSplitsBack` | src/mpp_dec.c:1014-1070 | with offsets, valid headers and the rewritten slices are cut apart again, in order and unchanged |
| `AccessUnit.HevcPacketSplitsBackIff` | src/mpp_dec.c:1014-1070 | with any offsets, if and only if no rewritten slice but the last ends in 00 |
| `AccessUnit.MovedSlicesDoNotSplit` | src/mpp_dec.c:1055-1063 | two copies of the moved slice are not cut apart again |
| `AccessUnit.AppendH264Slices` | src/mpp_dec.c:895-914 | the packet grows by every slice behind a four-byte start code |
| `AccessUnit.H264PacketSplitsBack` | src/mpp_dec.c:895-914 | valid headers and carriable H.264 slices are cut apart again |
| `RawNal.NalDecodes` | src/hevc.c:212-225 | whatever its elements, a set finished with trailing bits and escaping can be carried, and unescapes to its bits and rbsp_trailing_bits() |
| `RawNal.Close` | src/bs.h:49-56 | a text that fits with its trailing bits is in the raw buffer to the last bit |
| `RawNal.Finish` | src/hevc.c:212-225 | start code and unit, or -1 exactly when they do not fit |
| `RawNal.FinishH264` | src/h264.c:169-177 | the same, asking for twice the raw bytes; the escaping then always fits |
| `SequenceParameterSets.WriteProfile` | src/hevc.c:251-274 | appends profile_tier_level(), the loop over the compatibility flags included |
| `HevcLevel.LevelAdmitsIff` | src/hevc.c:235-249 | the least level of table A.8 for the number of samples, the highest one beyond all of them; it admits the picture if and only if there are at most 35651584 samples and no side is longer than the limit for their number, which is tabled without the level |
| `HevcLevel.SomeLevelAdmitsIff` | src/hevc.c:235-249 | when any level of the table admits a picture at all |
| `HevcLevel.WidePictureOutgrowsItsLevel` | src/hevc.c:235-249 | a picture of 2048x16 that passes the validation and gets level 1, which does not admit it; level 3 would |
| `SequenceParameterSets.SetsFit` | src/hevc.c:487-516 | neither raw buffer drops a bit, and both units stay far below the 4096 bytes there are |
| `SequenceParameterSets.WriteVps` | src/hevc.c:487-516 | start code and video parameter set |
| `SequenceParameterSets.WriteSps` | src/hevc.c:919-979 | start code and sequence parameter set |
| `SequenceParameterSets.VpsRoundTrip` | src/hevc.c:487-516 | section 7.3.2.1 reads every element: progressive or interlaced as the picture is flagged, buffering, no reordering if the application says so and else as much as is buffered |
| `SequenceParameterSets.SpsRoundTrip` | src/hevc.c:919-979 | section 7.3.2.2 reads every applicable field of a validated picture back, reordering and field flags in the same terms, with no tables of reference picture sets |
| `SequenceParameterSets.SequenceNalsDecode` | src/hevc.c:512-515 | both finished units have types 32 and 33, can be carried and unescape to those sets |
| `SequenceParameterSets.WriteSequenceParameterSets` | src/hevc.c:1052-1080 | both units, failing exactly on invalid parameters or a buffer shorter than they are; 4096 bytes always suffice |
| `H264ParameterSets.DeriveLevelIdc` | src/h264.c:51-80 | the loop over table A-1 |
| `H264ParameterSets.LevelIsLeast` | src/h264.c:36-80 | the first entry of the driver's table that admits the picture is the least |
| `H264ParameterSets.LevelMeetsStandard` | src/h264.c:27-80 | and it is the least of all levels of table A-1 that admit frame size, sides, DPB and bi-prediction, 6.2 when none does |
| `H264ParameterSets.SpsFits` | src/h264.c:104-106 | the raw buffer drops no bit and the caller's 2048 bytes suffice |
| `H264ParameterSets.WriteSps` | src/h264.c:100-178 | start code and sequence parameter set, or -1 exactly without room |
| `H264ParameterSets.SpsRoundTrip` | src/h264.c:100-178 | section 7.3.2.1.1 reads the sequence back, ids and constraint flags included, if and only if the profile is none of 138, 139, 134 and 135, the order type exists and rows of field pairs are even |
| `H264ParameterSets.SpsNalDecodes` | src/h264.c:167-177 | the finished unit has type 7, can be carried, and reads back under the same condition |
| `H264ParameterSets.PpsFits` | src/h264.c:226-228 | the raw buffer drops no bit, eight scaling lists included |
| `H264ParameterSets.WriteLists` | src/h264.c:259-273 | appends every list behind its flag, failing exactly on a zero entry |
| `H264ParameterSets.WritePps` | src/h264.c:206-288 | start code and picture parameter set, negative reference counts taken for 0, or -1 exactly on a zero entry or without room |
| `H264ParameterSets.PpsRoundTrip` | src/h264.c:206-288 | section 7.3.2.2 reads the picture back, its extension sent exactly where it is not inferred, if and only if no list that is sent has a zero entry and it does not look for six 8x8 lists where there are two |
| `H264ParameterSets.PpsNalDecodes` | src/h264.c:233-287 | the finished unit has type 8, can be carried, and reads back under the same condition, negative reference counts as 0 |
| `HevcPacket.ParseSliceInfo` | src/hevc.c:150-189 | 128 bytes are enough to find the id that the whole slice carries |
| `HevcPacket.PpsIdIsTheSlices` | src/hevc.c:171-180 | that id is the one a decoder reads, or 2^31 below one that no slice may carry |
| `HevcPacket.WriteHeaders` | src/mpp_dec.c:976-1012 | the units of the sequence exactly when they have changed, then the picture parameter set; 65536 bytes always suffice |
| `HevcPacket.BuildPacket` | src/mpp_dec.c:927-1075 | a packet of exactly these headers and the rewritten slices, built whenever the parameters and slices are acceptable and memory is there |
| `HevcPacket.PacketSplitsBack` | src/mpp_dec.c:927-1075 | a decoder cuts it back into the driver's own parameter sets and the rewritten slices, if and only if no slice but the last ends in 00; with offsets always |
| `HevcPacket.HeadersDecode` | src/mpp_dec.c:976-1012 | and reads from units of types 32, 33 and 34 the fields the application gave, under the id of the first slice |
| `HevcPacket.IdOfTheFirstSlice` | src/mpp_dec.c:957-968 | that id is the one in the first slice data buffer with bytes, as section 7.3.6.1 reads it |
| `HevcPacket.SetsAreMissedIff` | src/mpp_dec.c:992-1009 | over many pictures: MPP lacks the sequence sets of a packet if and only if the last packet that carried them was refused and it had others before |
| `HevcPacket.SecondPictureWithoutSets` | src/mpp_dec.c:1470-1483 | two such pictures |
| `H264Packet.BuildPacket` | src/mpp_dec.c:808-925 | a packet of the sequence set where it is due, the picture set and the slices; sps_sent is set even when the packet then fails |
| `H264Packet.PacketSplitsBack` | src/mpp_dec.c:808-925 | a decoder cuts it back into those, if and only if no slice but the last ends in 00 |
| `H264Packet.FlagIsWrongIff` | src/mpp_dec.c:871-891 | sps_sent is set without MPP having the set if and only if the first picture that got that far was dropped and no IDR picture has come through since |
| `H264Packet.SequenceSetDecodes` | src/mpp_dec.c:845-877 | the sequence set is in front exactly when the first slice with bytes is of type 5 or none was sent, and reads back |
| `H264Packet.PictureSetDecodes` | src/mpp_dec.c:878-891 | the picture set always is, with the scaling lists of the application in the profiles 100 and 110 |
| `H264Packet.SecondPictureWithoutSps` | src/mpp_dec.c:871-891 | two pictures built one after the other: the first is refused, and the packet of the second has no sequence parameter set |
| `H264Packet.TwoSmallPictures` | src/mpp_dec.c:871-891 | such a pair, given out in full: slices of two bytes, lists of zeros and then of sixteens |
| `ScalingLists.DiagonalTablesMeetStandard` | src/hevc.c:518-535 | the tables are the up-right diagonal scans of section 6.5.3 |
| `ScalingLists.ZigZagTablesMeetStandard` | src/h264.c:212-224 | the tables are the frame zig-zag scans of section 8.5.6 of H.264 |
| `ScalingLists.ScanIsBijection` | src/h264.c:212-224 | every scan visits every position exactly once |
| `ScalingLists.WriteCoefs` | src/hevc.c:576-587 | appends the wrapped differences in scan order |
| `ScalingLists.WriteScalingLists` | src/hevc.c:559-590 | succeeds exactly without a zero DC value, and then appends all twenty matrices |
| `ScalingLists.LoopsVisitAll` | src/hevc.c:559-572 | the loops visit the twenty matrices of the application in the order of section 7.3.4 |
| `ScalingLists.MatrixRoundTrip` | src/hevc.c:563-588 | section 7.3.4 recovers every entry at its raster position and the DC value, exactly unless that is 0 |
| `ScalingLists.ScalingListsRoundTrip` | src/hevc.c:559-590 | and so exactly the accepted sets of matrices |
| `ScalingLists.WriteScalingList264` | src/h264.c:180-204 | fails exactly on a zero entry |
| `ScalingLists.ScalingList264RoundTrip` | src/h264.c:180-204 | section 7.3.2.1.1.1 recovers every accepted list without its fall-back rule |
| `TileLayout.SpacingIsUniform` | src/hevc.c:374-384 | decides even spacing against the floor divisions |
| `TileLayout.SumOfSizes` | src/hevc.c:476-479 | the sum of the explicit sizes |
| `TileLayout.UniformCoversPicture` | src/hevc.c:374-378 | the floor divisions telescope to the whole picture |
| `TileLayout.EvenMeansUniform` | src/hevc.c:362-385 | the code finds the spacing even if and only if the uniform sizes of section 6.5.1 are the explicit ones, the last included |
| `TileLayout.TileSizesRecovered` | src/hevc.c:465-483 | whichever branch: positive sizes that sum to the picture |
| `PictureValidation.Validate` | src/hevc.c:409-485 | decides the whole validation, tile sums and the reference pictures included |
| `HevcConformance.ValidatedIff` | src/hevc.c:409-485 | it accepts exactly the pictures within the ranges of sections 7.4.3.2 and 7.4.3.3 and of the two profiles, told in their variables, with room for the last tiles and acceptable references |
| `PictureParameterSet.TileSpacingIsUniform` | src/hevc.c:362-385 | both directions are evenly spaced |
| `PictureParameterSet.WritePpsText` | src/hevc.c:994-1048 | the raw text of the set, failing exactly on an inexpressible scaling list |
| `PictureParameterSet.PpsFits` | src/hevc.c:985-987 | the raw buffer never drops a bit |
| `PictureParameterSet.WritePps` | src/hevc.c:981-1050 | start code and escaped set, or -1 |
| `PictureParameterSet.WritePictureParameterSet` | src/hevc.c:1104-1116 | start code and set exactly for valid, printable parameters that fit; nothing is written for invalid ones |
| `PictureParameterSet.PpsRoundTrip` | src/hevc.c:981-1050 | section 7.3.2.3 reads every applicable field of a validated picture back, for exactly the printable scaling lists; the filter with the values that are inferred where they are not sent |
| `PictureParameterSet.TilesRebuilt` | src/hevc.c:1017-1028 | from the set that was read section 6.5.1 derives the columns and rows of the application, positive and covering the picture |
| `PictureParameterSet.PpsNalDecodes` | src/hevc.c:1047-1049 | the finished NAL unit has type 34, can be carried, unescapes to the set and ends in trailing bits |
| `ObjectPool.ShiftsAndOrsAddUp` | src/object_heap.c:27-45 | shifts and ors of the id fields are their weighted sum, and the masks take them apart |
| `ObjectPool.DecodeOfMakeId` | src/object_heap.c:27-50 | an id decodes to its type, generation and index |
| `ObjectPool.InsertKeepsValid` | src/object_heap.c:136-165 | the free list stays free of cycles and holds exactly the vacant slots |
| `ObjectPool.RemoveKeepsValid` | src/object_heap.c:182-207 | the same for removal, retirement included |
| `ObjectPool.InsertSucceeds` | src/object_heap.c:136-160 | inserting fails exactly on a full heap, and then changes nothing; the failure behind a popped slot cannot happen |
| `ObjectPool.FullMeansExhausted` | src/object_heap.c:136-160 | with memory at hand it fails only when all 2^20 slots are taken or have used up 255 generations |
| `ObjectPool.InsertRefines` | src/object_heap.c:136-165 | inserting binds an id that was never issued |
| `ObjectPool.RemoveRefines` | src/object_heap.c:182-207 | removing returns and drops exactly that binding |
| `ObjectPool.LookupIsBinding` | src/object_heap.c:167-180 | looking up an id is looking it up in the map |
| `ObjectPool.HeapRefinesMap` | src/object_heap.c:136-207 | every run is a run of a finite map whose keys are never reused |
| `ObjectPool.NeverReissued` | src/object_heap.c:136-207 | no id is issued twice, through generation exhaustion and retirement |
| `ObjectPool.RemovedStaysGone` | src/object_heap.c:182-207 | over every run: a removed id is never found, removed or issued again |
| `ObjectPool.KindsAreDisjoint` | src/object_heap.c:34-50 | heaps of different types never share an id |
| `ObjectHeap.RKObject.Ref` | src/object_heap.c:83-97 | the count grows unless it is 0 or saturated |
| `ObjectHeap.RKObject.Unref` | src/object_heap.c:99-108 | the count drops, destruction at the last reference |
| `ObjectHeap.RKObjectHeap.constructor` | src/object_heap.c:110-119 | the empty heap |
| `ObjectHeap.RKObjectHeap.Grow` | src/object_heap.c:52-73 | 16 slots first, then doubled up to 2^20; every slot kept; unchanged on failure |
| `ObjectHeap.RKObjectHeap.Insert` | src/object_heap.c:136-165 | does to the slots and the threaded free list what `ObjectPool.Insert` says; a finished heap takes nothing |
| `ObjectHeap.RKObjectHeap.Acquire` | src/object_heap.c:167-180 | the bound object with one more reference, or nothing changed; a finished heap has nothing |
| `ObjectHeap.RKObjectHeap.Remove` | src/object_heap.c:182-207 | what `ObjectPool.Remove` says; a finished heap has nothing |
| `ObjectHeap.RKObjectHeap.Finish` | src/object_heap.c:121-134 | every slot gives up one reference; each object is destroyed at its last one; the heap is cleared, its type included |
| `ReferenceCount.StepKeepsInv` | src/object_heap.c:83-108 | every interleaving keeps the count equal to the references owned |
| `ReferenceCount.DestroyedExactlyOnce` | src/object_heap.c:99-108 | alive while owned, destroyed exactly once after the last release |
| `ReferenceCount.NeverRevived` | src/object_heap.c:83-97 | a count of 0 stays 0 |
| `ReferenceCount.RefFailsOnlyAtTheLimit` | src/object_heap.c:88-96 | taking a reference fails only at UINT_MAX |
| `ReferenceCount.HeldObjectSurvives` | src/object_heap.c:167-207 | an acquired object outlives its removal from the heap |
| `DecodeCoverage.SurfaceStep` | src/mpp_dec.c:312-326 | no step but the opening of a picture makes a fence unsettled |
| `DecodeCoverage.KnownStep` | src/mpp_dec.c:1183-1304 | whoever holds a fence may act for it |
| `DecodeCoverage.CoveredStep` | src/context.c:335-381 | every step keeps each unsettled fence in somebody's hands |
| `DecodeCoverage.PutCoveredStep` | src/mpp_dec.c:748-779 | also while backpressure drains frames during a put |
| `DecodeCoverage.LabelledStep` | src/mpp_dec.c:1470-1497 | jobs and routes carry tokens that were given out for their surface and fence |
| `DecodeCoverage.NoOrphanFence` | src/mpp_dec.c:1183-1304 | in every reachable state an unsettled fence is held by a job, a route, a delivery, the render target or an API call |
| `DecodeCoverage.StopSettlesEverything` | src/mpp_dec.c:1511-1562 | after the stop every fence of the context is settled or superseded |
| `DecodeOutcome.OutcomeOfAFence` | src/mpp_dec.c:312-326 | in every run a surface is decoded, failed or neither exactly as the steps of the run last decided about its fence |
| `DecodeOutcome.SubmissionsThatEnd` | src/mpp_dec.c:1183-1304 | which submissions end at once: refusals, jobs without bytes, routes that cannot be made, hidden pictures nothing repeats |
| `DecodeOutcome.SubmissionDecides` | src/mpp_dec.c:1215-1262 | whatever else happens meanwhile, a refusal or a missing route leaves a current fence failed and not decoded, a job with nothing to show decoded |
| `DecodeOutcome.DecodedShowsAFrame` | src/mpp_dec.c:1183-1304 | in every run a decoded surface shows a frame, or a job at its fence had no bytes or was a hidden picture without repeat |
| `DecodeOutcome.TokenFrameIsShown` | src/mpp_dec.c:426-470 | a frame whose token has a route is shown on the surface of the first such route at its current fence |
| `FieldPairs.SecondFieldContinues` | src/context.c:335-352 | a picture goes on at the fence of a surface if and only if this H.264 context left it undecided behind a field; otherwise a new fence begins |
| `FieldPairs.FieldsShareARoute` | src/mpp_dec.c:1192-1208 | in every H.264 run at most one route waits at a fence of fields, and only a field is put under the token of another |
| `DecodeRouting.OrderedStep` | src/mpp_dec.c:1470-1497 | tokens in use stay in order: accepted, at hand, queued |
| `DecodeRouting.LedgerStep` | src/mpp_dec.c:1183-1304 | every step, stall flushes included, keeps the routes accepted and in order and the count at what `Owed` says |
| `DecodeRouting.TokenFramesReachTheirSurface` | src/mpp_dec.c:426-650 | a frame shown came with a token given out for that surface at its present fence, in every H.264 or HEVC run |
| `DecodeFifo.RoutesAreTheNewest` | src/mpp_dec.c:385-405 | in every VP9 run the routes of accepted packets are the newest shown packets, in order |
| `DecodeFifo.FrameTakesItsRouteIff` | src/mpp_dec.c:385-405 | a frame that takes a route takes its own packet's if and only if there are as many such routes as frames to come |
| `DecodeFifo.MisledIffMisrouted` | src/mpp_dec.c:385-405 | the flag of the model tells exactly whether some frame of the run took another packet's route |
| `DecodeFifo.FifoFramesReachTheirSurface` | src/mpp_dec.c:385-405 | every published VP9 frame was decoded for that surface at its present fence, unless some frame of the run was misrouted, which takes a stall flush |
| `DecodeFifo.AcceptCountsRightIff` | src/mpp_dec.c:1267-1281 | accepting a packet leaves the count right if and only if its route is still there |
| `DecodeFifo.SingleStep` | src/context.c:335-381 | outside H.264 a fence is submitted at most once |
| `DecodeFifo.MiscountedIff` | src/mpp_dec.c:1267-1304 | the flag `miscounted` is set exactly when a packet was accepted after a late frame took its route, and since then no flush has ended and no such packet was refused |
| `DecodeFifo.OutstandingRightIff` | src/mpp_dec.c:729-779 | the count of every VP9 run told by its steps: one too many exactly then |
| `DecodeRouting.OutstandingIsRoutes` | src/mpp_dec.c:729-779 | between packets outstanding_frames is the number of routes and of the frame under way, in every run, and one more exactly while `miscounted` is set, which takes a VP9 stall flush |
| `RouteLifetime.RunBalances` | src/mpp_dec.c:328-351 | in every run of any codec each route is destroyed as often as it was made, less those still held, and again by each refusal that finds it gone |
| `RouteLifetime.RoutesDestroyedOnceIff` | src/mpp_dec.c:1257-1304 | every route is still held or was destroyed once if and only if no packet was refused after a late frame took its route; that takes VP9 and a stall flush |
| `RouteLifetime.StopDestroysRoutesOnceIff` | src/mpp_dec.c:1511-1562 | so after the stop each route was destroyed once, under the same condition |
| `DecodeStall.LateFrameMisrouted` | src/mpp_dec.c:1450-1462 | after a stall flush a late VP9 frame is shown on a newer picture's surface |
| `DecodeStall.FrameWithoutRouteCounted` | src/mpp_dec.c:1450-1462 | a run after which one frame is outstanding and no route is left |
| `DecodeStall.RouteDestroyedAgain` | src/mpp_dec.c:1295-1301 | a run in which such a packet is refused |
| `DecodeWorker.RKContext.CompleteSurfaceRef` | src/mpp_dec.c:312-326 | settles a surface at its current fence only |
| `DecodeWorker.RKContext.FailSurface` | src/mpp_dec.c:1499-1509 | fails a surface at its current fence unless decoded |
| `DecodeWorker.RKContext.RouteFindSurface` | src/mpp_dec.c:359-368 | the first route of a surface and fence |
| `DecodeWorker.RKContext.RouteTake` | src/mpp_dec.c:370-383 | unlinks the first route with the token |
| `DecodeWorker.RKContext.PublishFrame` | src/mpp_dec.c:616-650 | shows a frame at the current fence only |
| `DecodeWorker.RKContext.EnqueueJob` | src/mpp_dec.c:1470-1497 | the step of the state machine: refused once the worker stops, else numbered and queued; behind INT64_MAX the numbers start again at 1 |
| `DecodeWorker.RKContext.DrainTokenFrame` | src/mpp_dec.c:729-746 | undisturbed, the three steps of the state machine in a row |
| `DecodeWorker.RKContext.FailPendingRoutes` | src/mpp_dec.c:1356-1383 | fails every route's fence and empties the list |
| `DecodeWorker.FlushIsFailAll` | src/mpp_dec.c:1356-1383 | the stepwise flush, left alone, does the same |
| `StableExport.RKSurface.constructor` | src/surface.c:293-306 | strides of a new surface: 64 bytes aligned for NV12 that is decoded into, else 16 samples |
| `StableExport.RKSurface.Repacks` | src/convert.c:129-246 | the size, parity and stride tests in front of both copies |
| `StableExport.RKSurface.CopyToStableExport` | src/surface.c:430-492 | a frame for an exported surface that passes them is copied into it, or its decode fails |
| `StableExport.RKSurface.Publish` | src/mpp_dec.c:616-650 | publication at the current fence |
| `StableExport.RKSurface.ExportSurfaceHandle` | src/export.c:116-195 | which buffer, pitch and chroma offset are exported, and when the export becomes permanent |
| `StableExport.SteadyStep` | src/surface.c:430-492 | after a pre-decode export no step puts visible storage outside the exported buffer |
| `StableExport.StableExportIdentity` | src/export.c:116-195 | a later export names the same storage if and only if no frame was published or the last one had the depth the surface was created with |
| `StableExport.IdentityCanBreakIff` | src/surface.c:430-492 | some sequence of pictures breaks the identity if and only if the placeholder takes a picture of the other depth |
| `StableExport.WhatPlaceholdersTake` | src/convert.c:214-230 | P010 surfaces always take 8-bit pictures, NV12 surfaces 10-bit ones exactly when sizes are even and fit |
| `StableExport.CifBreaksHdDoesNot` | src/frame_layout.c:37-80 | 352x288 does, 1920x1088 does not |
| `FrameLayout.PlaceholderHolds` | src/frame_layout.c:37-80 | the placeholder of every surface that can be created holds its own linear layout |
| `StableExport.SurfacesCoverPictures` | src/mpp_dec.c:616-645 | creation, publication and everything else keep the vertical stride at the height or above |
| `StableExport.StableExportKept` | src/export.c:116-195 | with frames of the surface's depth, always |
| `SurfaceMeaning.ExportNamesThePlanes` | src/export.c:116-195 | no surface under decoding is exported; else the handle names the shown buffer and the planes that vaGetImage reads, for both depths |
| `SurfaceMeaning.RepackedExport` | src/export.c:139-186 | misaligned NV12 rows are exported from a buffer with the least whole blocks of 64 bytes, copied for the present fence; failing exactly without layout, buffer or copy |
| `SurfaceMeaning.OnlyShownPicturesAreExported` | src/export.c:40-52 | a picture that was begun, has failed or does not pass the layout test is not exported |
| `SurfaceMeaning.PublishedPictureIsShown` | src/mpp_dec.c:608-650 | a published picture is what the surface shows: buffer, depth, size and strides, or the exported buffer with its own |
| `SurfaceMeaning.CopyStaysInside` | src/convert.c:129-246 | a picture copied into a stable export has the surface's size and lies inside the frame and the exported buffer |
| `SurfaceMeaning.OwnPictureIsTaken` | src/surface.c:430-492 | pictures of the surface's own size and depth inside their frame are taken, over every run |
| `SurfaceMeaning.UsableInsideIff` | src/mpp_dec.c:524-533 | a frame that passes the layout test holds its picture, an 8-bit one if and only if its rows are not longer than its stride |
| `SurfaceMeaning.LayoutIsExact` | src/frame_layout.c:13-35 | a layout ends exactly behind the last row of chroma |
| `ImageCopy.RKImage.constructor` | src/buffer.c:436-540 | an image with the created layout |
| `ImageCopy.CreatedIsDisjoint` | src/buffer.c:458-520 | planes of a created image never overlap where samples go |
| `ImageCopy.CreatedHolds` | src/buffer.c:436-520 | a created image holds every surface that is not larger |
| `ImageCopy.CopyRows` | src/buffer.c:832-836 | strided rows are copied, nothing else touched, every access in bounds |
| `ImageCopy.InterleaveRows` | src/buffer.c:838-854 | chroma pairs are woven from two planes |
| `ImageCopy.SplitRows` | src/surface.c:818-831 | and taken apart again |
| `ImageCopy.RKSurface.PutImage` | src/buffer.c:752-870 | uploads exactly the accepted images; padding becomes 0 |
| `ImageCopy.RKSurface.GetImage` | src/surface.c:724-844 | reads the shown buffer, an import's included, back exactly for the accepted requests; padding becomes 0 |
| `ImageCopy.RoundTrip` | src/surface.c:724-844 | when both calls use one buffer, every visible sample returns, for all formats, pitches and offsets |
| `ImageCopy.ReadBackMeansUploaded` | src/surface.c:744-748 | and samples read back were in the buffer that was read |
| `ImageCopy.RKSurface.PutThenGet` | src/surface.c:744-748 | the two calls on one surface: every sample returns if and only if no decoded picture is shown or it has the samples already |
| `ImageCopy.OldPictureReadBack` | src/surface.c:744-748 | a surface on which both succeed and the old picture is read |
| `ImageCopy.GeometryStaysValid` | src/surface.c:293-306 | the geometry the image calls ask for, over every run of a surface |
| `ImageCopy.StableSurfaceShowsItsOwn` | src/surface.c:744-748 | a surface exported before its first picture never shows another buffer |
| `ImageCopy.CreatedSurfaceAccepts` | src/buffer.c:797-812 | any image of its own size and format goes into a surface as it was created |
| `ImageCopy.ReadBackAccepted` | src/surface.c:753-790 | what was uploaded can be read back into any created image as large |
| `SurfaceMeaning.AcceptedUpload` | src/buffer.c:752-836 | an accepted upload is of a whole image to a whole surface of its size and format, inside both |
| `SurfaceMeaning.AcceptedReadBack` | src/surface.c:724-790 | and an accepted read of a whole surface into an image of its format that is as large, inside both |
| `SurfaceMeaning.PlaneFitsIff` | src/buffer.c:738-750 | the overflow-free test of a plane is that its rows lie inside the memory |
| `SurfaceMeaning.UploadedChroma` | src/buffer.c:838-854 | every Cb and Cr sample of I420 and YV12 goes where NV12 has it |
| `SurfaceMeaning.DownloadedChroma` | src/surface.c:818-831 | and comes back from there |

## Left out

- Missing arguments: buffers, parameters and surfaces are present; of the HEVC scaling matrices only their absence is told.
- What follows a finished packet in `build_hevc_job` and `build_h264_job`: making the job; which sequence headers are kept is in `HevcPacket.SetsAreMissedIff`.
- The first slice parameter buffer of H.264: the reference counts taken from it are arguments of `H264Packet.BuildPacket`.
- HEVC sequence parameter sets with tables, scaling lists, cropping or VUI: the driver writes none, and the decoder of the model does not read them.
- MPP, RGA, dma-buf, mmap and DRM calls: their outcomes are parameters or nondeterministic steps; buffer contents matter only in `ImageCopy`.
- The sizes a repacking for export tests: its outcome is one parameter in `StableExport.RKSurface.RepackForExport`; those of the copy into a stable export are modelled.
- Clocks: the deadlines of the drain and of the stall are step choices, so nothing is claimed about real time.
- Encoder contexts, 10-bit and RGB conversion, imports over two objects and derived images.
- Linked lists of jobs and routes: modelled as sequences in list order; a node's address is not modelled.
- The two route lists of a context: one list, since a codec only ever uses one of them.
- Fences and tokens are unbounded in the state machine; `DecodeWorker.RKContext.EnqueueJob` models the wrap of the 63-bit token.
- Information-change and error frames other than as unusable ones: they end like a failed delivery or are dropped without a route.
- Locks: a critical section is one step, and steps of different threads interleave freely; lock order and condition variables are not modelled.
- Waiting in `rk_SyncSurface`: an export that would wait for a picture fails in the model until the picture is there.
- Liveness: that a worker makes progress is not claimed.
- Memory order of the atomics: `ReferenceCount` interleaves whole atomic operations.
- ImageCopy.RKSurface.GetImage: images are created ones; a derived image may share the surface's memory.
- ImageCopy.RKSurface.PutImage: asks for a vertical stride that covers the picture, which the method itself does not check; `ImageCopy.GeometryStaysValid` proves that every surface has one at all times.
- StableExport.StableExportIdentity: one surface, API calls one at a time, decode workers of any number of contexts at any moment.
- BitWriter.BSWriter.WriteSe: values whose doubling would overflow a signed int are excluded, no caller has any.
