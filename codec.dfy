/** The wire formats of the sensor's protocol: a 16-bit word travels as two
    bytes, most significant first, and a response frame is a data word
    followed by the checksum of its two bytes. */
module Codec {
  import opened Wrappers
  import opened Crc

  /** The word made of two wire bytes, most significant first. */
  function DecodeWord(msb: bv8, lsb: bv8): (w: bv16)
    ensures (w >> 8) as bv8 == msb && (w & 0xFF) as bv8 == lsb
  {
    (msb as bv16 << 8) | lsb as bv16
  }

  /** The two wire bytes of a word, most significant first. */
  function EncodeWord(w: bv16): (bytes: seq<bv8>)
    ensures |bytes| == 2 && DecodeWord(bytes[0], bytes[1]) == w
  {
    [((w >> 8) & 0xFF) as bv8, (w & 0xFF) as bv8]
  }

  /** Splitting the word made of two bytes gives the bytes back. */
  lemma EncodeDecodeWord(msb: bv8, lsb: bv8)
    ensures EncodeWord(DecodeWord(msb, lsb)) == [msb, lsb]
  {
  }

  /** The three-byte frame in which the sensor sends data word `w`: its
      first two bytes reassemble to `w`, and its third is their checksum. */
  function EncodeFrame(w: bv16): (frame: seq<bv8>)
    ensures |frame| == 3 && DecodeWord(frame[0], frame[1]) == w && frame[2] == Crc8(frame[0], frame[1])
  {
    var bytes := EncodeWord(w);
    bytes + [Crc8(bytes[0], bytes[1])]
  }

  /** The data word of a received frame, if its checksum byte matches the
      checksum of its two data bytes; no word at all otherwise. */
  function DecodeFrame(frame: seq<bv8>): (r: Option<bv16>)
    requires |frame| == 3
    ensures forall w :: r == Some(w) <==> frame == EncodeFrame(w)
  {
    if frame[2] == Crc8(frame[0], frame[1]) then
      EncodeDecodeWord(frame[0], frame[1]);
      Some(DecodeWord(frame[0], frame[1]))
    else
      None
  }

  /** A frame in which any one byte, data or checksum, was corrupted on the
      way is rejected. */
  lemma CorruptedFrameRejected(w: bv16, k: nat, x: bv8)
    requires k < 3 && x != EncodeFrame(w)[k]
    ensures DecodeFrame(EncodeFrame(w)[k := x]) == None
  {
    var f, g := EncodeFrame(w), EncodeFrame(w)[k := x];
    if k < 2 {
      CrcDetectsSingleByteError(f[0], f[1], g[0], g[1]);
    }
  }
}
