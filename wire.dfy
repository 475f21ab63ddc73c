/** The frame as it travels on the wire: an 8-byte header (version, command,
    16-bit payload length, 32-bit stream ID, both little-endian) followed by
    the payload, and the 8-byte body of a window-update frame. */
module Wire {
  import opened Base

  const HeaderSize: nat := 8
  const UpdSize: nat := 8

  const CmdNOP: byte := 0
  const CmdSYN: byte := 1
  const CmdFIN: byte := 2
  const CmdPSH: byte := 3
  const CmdUPD: byte := 4

  /** A frame handed to the writer. `data` is the payload view
      (`Data[Offset..Offset+Length]`), absent for control frames. */
  datatype Frame = Frame(ver: byte, cmd: byte, sid: uint32, data: Option<seq<byte>>)

  function Payload(f: Frame): seq<byte> {
    if f.data.Some? then f.data.value else []
  }

  function PayloadLength(f: Frame): nat {
    |Payload(f)|
  }

  /** The decoded fields of a frame header. */
  datatype Header = Header(ver: byte, cmd: byte, length: nat, sid: uint32)

  /** The decoded body of a window-update frame. */
  datatype Upd = Upd(consumed: uint32, window: uint32)

  function Pow256(n: nat): (p: nat)
    ensures p > 0
  {
    if n == 0 then 1 else 256 * Pow256(n - 1)
  }

  lemma Pow256Four()
    ensures Pow256(2) == 0x1_0000 && Pow256(4) == TwoTo32
  {
    assert Pow256(1) == 256;
    assert Pow256(2) == 256 * 256;
    assert Pow256(3) == 256 * 256 * 256;
  }

  /** The low `width` bytes of `x`, least significant first. */
  function LittleEndian(x: nat, width: nat): (bytes: seq<byte>)
    ensures |bytes| == width
  {
    if width == 0 then [] else [x % 256] + LittleEndian(x / 256, width - 1)
  }

  /** The number whose little-endian bytes are `bytes`. */
  function FromLittleEndian(bytes: seq<byte>): (x: nat)
    ensures x < Pow256(|bytes|)
  {
    if bytes == [] then 0 else bytes[0] + 256 * FromLittleEndian(bytes[1..])
  }

  lemma {:induction false} DecodeEncode(x: nat, width: nat)
    requires x < Pow256(width)
    ensures FromLittleEndian(LittleEndian(x, width)) == x
  {
    if width > 0 {
      var bytes := LittleEndian(x, width);
      assert bytes[1..] == LittleEndian(x / 256, width - 1);
      DecodeEncode(x / 256, width - 1);
    }
  }

  lemma {:induction false} EncodeDecode(bytes: seq<byte>)
    ensures LittleEndian(FromLittleEndian(bytes), |bytes|) == bytes
  {
    if bytes != [] {
      var rest := FromLittleEndian(bytes[1..]);
      var x := bytes[0] + 256 * rest;
      assert x % 256 == bytes[0];
      assert x / 256 == rest;
      EncodeDecode(bytes[1..]);
    }
  }

  /** The header bytes `sendLoop` writes: `(short)length` keeps the low 16 bits. */
  function EncodeHeader(h: Header): (bytes: seq<byte>)
    ensures |bytes| == HeaderSize
  {
    [h.ver, h.cmd] + LittleEndian(h.length % 0x1_0000, 2) + LittleEndian(h.sid, 4)
  }

  function DecodeHeader(bytes: seq<byte>): (h: Header)
    requires |bytes| == HeaderSize
    ensures h.ver == bytes[0] && h.cmd == bytes[1]
    ensures h.length < 0x1_0000
  {
    Pow256Four();
    Header(bytes[0], bytes[1], FromLittleEndian(bytes[2..4]), FromLittleEndian(bytes[4..8]))
  }

  /** Everything `sendLoop` puts in its buffer for one request: the header,
      with length 0 when there is no payload, then the payload. */
  function EncodeFrame(f: Frame): (bytes: seq<byte>)
    ensures |bytes| == HeaderSize + PayloadLength(f)
    ensures bytes[0] == f.ver && bytes[1] == f.cmd
    ensures bytes[HeaderSize..] == Payload(f)
  {
    EncodeHeader(Header(f.ver, f.cmd, PayloadLength(f), f.sid)) + Payload(f)
  }

  /** The peer decodes exactly the fields that were encoded; the length field
      carries the payload length modulo 2^16. */
  lemma FrameRoundTrip(f: Frame)
    ensures |EncodeFrame(f)| == HeaderSize + PayloadLength(f)
    ensures DecodeHeader(EncodeFrame(f)[..HeaderSize])
         == Header(f.ver, f.cmd, PayloadLength(f) % 0x1_0000, f.sid)
    ensures EncodeFrame(f)[HeaderSize..] == Payload(f)
  {
    var bytes := EncodeFrame(f);
    var hdr := EncodeHeader(Header(f.ver, f.cmd, PayloadLength(f), f.sid));
    assert bytes[..HeaderSize] == hdr;
    Pow256Four();
    assert hdr[2..4] == LittleEndian(PayloadLength(f) % 0x1_0000, 2);
    assert hdr[4..8] == LittleEndian(f.sid, 4);
    DecodeEncode(PayloadLength(f) % 0x1_0000, 2);
    DecodeEncode(f.sid, 4);
  }

  /** Every 8 bytes are the encoding of the header they decode to. */
  lemma HeaderBytesRoundTrip(bytes: seq<byte>)
    requires |bytes| == HeaderSize
    ensures EncodeHeader(DecodeHeader(bytes)) == bytes
  {
    var h := DecodeHeader(bytes);
    Pow256Four();
    assert h.length < 0x1_0000;
    EncodeDecode(bytes[2..4]);
    EncodeDecode(bytes[4..8]);
    assert bytes == [bytes[0], bytes[1]] + bytes[2..4] + bytes[4..8];
  }

  /** The body of the window-update frame `sendWindowUpdate` builds. */
  function EncodeUpd(u: Upd): (bytes: seq<byte>)
    ensures |bytes| == UpdSize
  {
    LittleEndian(u.consumed, 4) + LittleEndian(u.window, 4)
  }

  function DecodeUpd(bytes: seq<byte>): (u: Upd)
    requires |bytes| == UpdSize
    ensures EncodeUpd(u) == bytes
  {
    Pow256Four();
    EncodeDecode(bytes[..4]);
    EncodeDecode(bytes[4..]);
    assert bytes == bytes[..4] + bytes[4..];
    Upd(FromLittleEndian(bytes[..4]), FromLittleEndian(bytes[4..]))
  }

  lemma UpdRoundTrip(u: Upd)
    ensures DecodeUpd(EncodeUpd(u)) == u
  {
    var bytes := EncodeUpd(u);
    Pow256Four();
    assert bytes[..4] == LittleEndian(u.consumed, 4);
    assert bytes[4..] == LittleEndian(u.window, 4);
    DecodeEncode(u.consumed, 4);
    DecodeEncode(u.window, 4);
  }

  lemma UpdBytesRoundTrip(bytes: seq<byte>)
    requires |bytes| == UpdSize
    ensures EncodeUpd(DecodeUpd(bytes)) == bytes
  {
    EncodeDecode(bytes[..4]);
    EncodeDecode(bytes[4..]);
    assert bytes == bytes[..4] + bytes[4..];
  }
}
