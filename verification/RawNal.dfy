/**
 The end of every reconstructed parameter set: trailing bits, emulation prevention and a start code.
 Whatever its syntax elements are, the NAL unit is one that a byte stream can carry, provided that
 the raw buffer held them all.
 */
module RawNal {
  import opened Integers
  import opened Bits
  import opened BitWriter
  import opened Emulation
  import opened AnnexB

  /** The raw bytes of a NAL unit with these bits, header included, behind its trailing bits. */
  function Raw(text: seq<bool>): seq<byte> {
    Pack(text + Trailing(|text|))
  }

  /** The start code and the NAL unit. */
  function NalOf(text: seq<bool>): Unit {
    Unit([0, 0, 0, 1], Escape(Raw(text)))
  }

  lemma RawBits(text: seq<bool>)
    ensures BitsOf(Raw(text)) == text + Trailing(|text|)
  {
    hide Pack, BitsOf, Trailing;
    var t := text + Trailing(|text|);
    WholeBytes(text);
    BitsOfPack(t);
    assert t + Zeros(0) == t;
  }

  lemma WholeBytes(text: seq<bool>)
    ensures var t := text + Trailing(|text|); 8 * |Pack(t)| == |t|
  {
  }

  /** The stream can carry it, and unescaped it is the text again, followed by rbsp_trailing_bits(). */
  lemma NalDecodes(text: seq<bool>)
    ensures NalOf(text).Valid()
    ensures StandardUnescape(NalOf(text).nal) == Raw(text) && BitsOf(Raw(text)) == text + Trailing(|text|)
  {
    hide Raw, BitsOf, EscapeFrom, StandardUnescapeFrom, Carriable;
    RawBits(text);
    TrailingEndsNonzero(Raw(text), text);
    EscapedIsCarriable(Raw(text));
    UnescapeOfEscape(Raw(text), 0);
  }

  /** A NAL unit as a decoder unescapes it, its header included. */
  function Unescaped(unit: Unit): seq<bool> {
    BitsOf(StandardUnescape(unit.nal))
  }

  /** The bits behind a NAL unit header of `header` bits. */
  function Payload(unit: Unit, header: nat): seq<bool> {
    var bits := Unescaped(unit);
    if |bits| < header then [] else bits[header..]
  }

  /** A finished unit: the stream can carry it, and a decoder finds its code and rbsp_trailing_bits() behind its header. */
  lemma PayloadOf(header: seq<bool>, code: seq<bool>)
    ensures NalOf(header + code).Valid()
    ensures Payload(NalOf(header + code), |header|) == code + Trailing(|header + code|)
    ensures Unescaped(NalOf(header + code)) == header + Payload(NalOf(header + code), |header|)
  {
    hide NalOf, Raw, BitsOf, StandardUnescapeFrom, Trailing;
    var text := header + code;
    NalDecodes(text);
    assert (text + Trailing(|text|))[|header|..] == code + Trailing(|text|);
  }

  /** Trailing bits, and the bytes counted: nothing was dropped. */
  method Close(bs: BSWriter) returns (n: nat)
    requires bs.Valid() && |bs.text| + 8 <= 8 * bs.capacity
    modifies bs, bs.data
    ensures bs.Valid() && n <= bs.capacity == bs.data.Length && n > 0 && bs.data[..n] == Raw(old(bs.text))
  {
    hide BSWriter.Valid, BitsOf, Pack, Trailing;
    ghost var text := bs.text;
    bs.RbspTrailing();
    TrailingFits(text, bs.capacity);
    bs.Holds();
    n := bs.Bytes();
    PackOfBits(bs.data[..n], bs.text);
  }

  lemma TrailingFits(text: seq<bool>, capacity: nat)
    requires |text| + 8 <= 8 * capacity
    ensures 0 < |text + Trailing(|text|)| <= 8 * capacity
  {
  }

  /** bs_rbsp_trailing and finish_nal of src/hevc.c. */
  method Finish(bs: BSWriter, buf: array<byte>, at: nat, bufSize: nat) returns (used: int)
    requires bs.Valid() && |bs.text| + 8 <= 8 * bs.capacity && at + bufSize <= buf.Length && buf != bs.data
    modifies bs, bs.data, buf
    ensures var nal := NalOf(old(bs.text)).nal;
            if |nal| + 4 <= bufSize && |nal| + 4 <= INT_MAX then used == |nal| + 4 && buf[at..at + used] == [0, 0, 0, 1] + nal
            else used == -1
    ensures buf[..at] == old(buf[..at])
  {
    hide BSWriter.Valid, Raw, EscapeFrom;
    var n := Close(bs);
    used := FinishNal(buf, at, bufSize, bs.data, n);
  }

  /** The end of h264_write_sps and h264_write_pps, which ask for room for twice the raw bytes. */
  method FinishH264(bs: BSWriter, buf: array<byte>, bufSize: nat) returns (used: int)
    requires bs.Valid() && |bs.text| + 8 <= 8 * bs.capacity && bufSize <= buf.Length && buf != bs.data
    modifies bs, bs.data, buf
    ensures var nal := NalOf(old(bs.text)).nal;
            if 4 + 2 * |Raw(old(bs.text))| <= bufSize then used == |nal| + 4 && used <= bufSize && buf[..used] == [0, 0, 0, 1] + nal
            else used == -1
  {
    hide BSWriter.Valid, Raw, EscapeFrom;
    var n := Close(bs);
    if 4 + n * 2 > bufSize {
      return -1;
    }
    buf[0], buf[1], buf[2], buf[3] := 0, 0, 0, 1;
    EscapeGrowth(bs.data[..n], 0);
    var escaped := EmulationPrevent(bs.data, n, buf, 4, bufSize - 4);
    if escaped == 0 {
      return -1;
    }
    used := 4 + escaped;
  }

  /** Emulation prevention adds at most one byte to two. */
  lemma NalLength(text: seq<bool>, bytes: nat)
    requires |text| + 8 <= 8 * bytes
    ensures 2 * |NalOf(text).nal| <= 3 * bytes
  {
    hide Pack, EscapeFrom, Trailing;
    TrailingFits(text, bytes);
    EscapeGrowth(Raw(text), 0);
  }

  lemma RawLength(text: seq<bool>, bytes: nat)
    requires |text| + 8 <= 8 * bytes
    ensures |Raw(text)| <= bytes
  {
    hide Pack, Trailing;
    TrailingFits(text, bytes);
  }
}
