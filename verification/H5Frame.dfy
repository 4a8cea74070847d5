/** Frames of the three-wire UART link: SLIP byte stuffing, the four-byte
    header, and the encoder `h5_prepare_pkt` writes a frame with. */
module H5Frame {
  import opened Common
  import opened H5Crc

  const DELIM: byte := 0xc0
  const ESC: byte := 0xdb
  const XON: byte := 0x11
  const XOFF: byte := 0x13

  const MAX_LEN := 0xFFF

  // HCI packet types and the link's own packet types
  const HCI_COMMAND_PKT: byte := 1
  const HCI_ACLDATA_PKT: byte := 2
  const HCI_SCODATA_PKT: byte := 3
  const HCI_EVENT_PKT: byte := 4
  const H5_ACK_PKT: byte := 0
  const H5_LE_PKT: byte := 0x0F
  const H5_VDRSPEC_PKT: byte := 0x0E

  /** An skb as the queues hold it: `bt_cb(skb)->pkt_type` and the data. */
  datatype Packet = Packet(ptype: byte, data: seq<byte>)

  /** What one frame says on the wire. */
  datatype Frame = Frame(reliable: bool, seqno: nat, ack: nat, crc: bool, chan: nat, payload: seq<byte>)

  ghost predicate FrameOk(f: Frame) {
    f.seqno < 8 && f.ack < 8 && f.chan < 16 && |f.payload| <= MAX_LEN && (!f.reliable ==> f.seqno == 0)
  }

  // ---- SLIP ----

  /** `h5_slip_one_byte`. */
  function Slip(c: byte): (r: seq<byte>)
    ensures 1 <= |r| <= 2
    ensures DELIM !in r && XON !in r && XOFF !in r
  {
    if c == DELIM then [ESC, 0xdc]
    else if c == ESC then [ESC, 0xdd]
    else if c == XON then [ESC, 0xde]
    else if c == XOFF then [ESC, 0xdf]
    else [c]
  }

  function SlipAll(s: seq<byte>): (r: seq<byte>)
    ensures |s| <= |r| <= 2 * |s|
    ensures DELIM !in r && XON !in r && XOFF !in r
  {
    if s == [] then [] else Slip(s[0]) + SlipAll(s[1..])
  }

  lemma {:induction false} SlipAllConcat(s: seq<byte>, t: seq<byte>)
    ensures SlipAll(s + t) == SlipAll(s) + SlipAll(t)
  {
    if s == [] {
      assert s + t == t;
    } else {
      assert (s + t)[1..] == s[1..] + t;
      SlipAllConcat(s[1..], t);
    }
  }

  lemma SlipAllOne(s: seq<byte>, c: byte)
    ensures SlipAll(s + [c]) == SlipAll(s) + Slip(c)
  {
    SlipAllConcat(s, [c]);
    assert SlipAll([c]) == Slip(c) + SlipAll([]);
  }

  /** What stuffed bytes stand for. */
  function Unstuffed(s: seq<byte>): (r: seq<byte>)
    decreases |s|
  {
    if s == [] then []
    else if s[0] == 0xdb && |s| >= 2 then
      (if s[1] == 0xdc then [0xc0] else if s[1] == 0xdd then [0xdb] else if s[1] == 0xde then [0x11]
       else if s[1] == 0xdf then [0x13] else []) + Unstuffed(s[2..])
    else [s[0]] + Unstuffed(s[1..])
  }

  lemma {:induction false} StuffingReadsBack(s: seq<byte>)
    ensures Unstuffed(SlipAll(s)) == s
  {
    if s != [] {
      StuffingReadsBack(s[1..]);
      var a, t := Slip(s[0]), SlipAll(s[1..]);
      assert |a| == 2 ==> (a + t)[2..] == t && (a + t)[0] == a[0] && (a + t)[1] == a[1];
      assert |a| == 1 ==> (a + t)[1..] == t && (a + t)[0] == a[0];
    }
  }

  // ---- The header ----

  /** The four header bytes; the last one makes the byte sum 0xff. */
  function Header(f: Frame): (h: seq<byte>)
    requires FrameOk(f)
    ensures |h| == 4
  {
    var h0 := f.ack * 8 + (if f.reliable then 0x80 + f.seqno else 0) + (if f.crc then 0x40 else 0);
    var h1 := |f.payload| % 16 * 16 + f.chan;
    var h2 := |f.payload| / 16;
    [h0, h1, h2, Checksum(h0, h1, h2)]
  }

  /** `~(h0 + h1 + h2)` in eight bits. */
  function Checksum(h0: byte, h1: byte, h2: byte): byte {
    255 - (h0 + h1 + h2) % 256
  }

  // The fields, as the receiver takes them out with masks and shifts.
  predicate IsReliable(h0: byte) { h0 / 128 % 2 == 1 }
  predicate HasCrc(h0: byte) { h0 / 64 % 2 == 1 }
  function AckOf(h0: byte): (r: nat) ensures r < 8 { h0 / 8 % 8 }
  function SeqOf(h0: byte): (r: nat) ensures r < 8 { h0 % 8 }
  function ChanOf(h1: byte): (r: nat) ensures r < 16 { h1 % 16 }
  function LenOf(h1: byte, h2: byte): (r: nat) ensures r <= MAX_LEN { h1 / 16 + h2 * 16 }

  /** Reading back a written header. */
  lemma HeaderRoundTrip(f: Frame)
    requires FrameOk(f)
    ensures var h := Header(f);
      && IsReliable(h[0]) == f.reliable && HasCrc(h[0]) == f.crc
      && AckOf(h[0]) == f.ack && (f.reliable ==> SeqOf(h[0]) == f.seqno)
      && ChanOf(h[1]) == f.chan && LenOf(h[1], h[2]) == |f.payload|
      && h[3] == Checksum(h[0], h[1], h[2])
  {
    FirstByte(f.ack, f.seqno, f.reliable, f.crc);
    LengthBytes(|f.payload|, f.chan);
    hide IsReliable, HasCrc, AckOf, SeqOf, ChanOf, LenOf, Checksum;
  }

  lemma FirstByte(ack: nat, seqno: nat, reliable: bool, crc: bool)
    requires ack < 8 && seqno < 8
    ensures var h0 := ack * 8 + (if reliable then 0x80 + seqno else 0) + (if crc then 0x40 else 0);
      && h0 < 256 && IsReliable(h0) == reliable && HasCrc(h0) == crc
      && AckOf(h0) == ack && (reliable ==> SeqOf(h0) == seqno)
  {
  }

  lemma LengthBytes(len: nat, chan: nat)
    requires len <= MAX_LEN && chan < 16
    ensures var h1, h2 := len % 16 * 16 + chan, len / 16;
      h1 < 256 && h2 < 256 && ChanOf(h1) == chan && LenOf(h1, h2) == len
  {
  }

  /** The header as the standard lays it out: sequence number, acknowledgement, CRC and
      reliability in the first byte, channel and length in the next two, and a last
      byte that makes the sum of all four 0xff. */
  lemma HeaderLayout(f: Frame)
    requires FrameOk(f)
    ensures var h := Header(f);
      && h[0] % 8 == (if f.reliable then f.seqno else 0) && h[0] / 8 % 8 == f.ack
      && (h[0] / 64 % 2 == 1 <==> f.crc) && (h[0] / 128 == 1 <==> f.reliable)
      && h[1] % 16 == f.chan && h[1] / 16 + 16 * h[2] as int == |f.payload|
      && ((h[0] as int) + h[1] as int + h[2] as int + h[3] as int) % 256 == 0xff
  {
    FirstByte(f.ack, f.seqno, f.reliable, f.crc);
    LengthBytes(|f.payload|, f.chan);
    SumsTo(Header(f)[0], Header(f)[1], Header(f)[2]);
    hide Checksum;
  }

  lemma SumsTo(a: byte, b: byte, c: byte)
    ensures ((a as int) + b as int + c as int + Checksum(a, b, c) as int) % 256 == 0xff
  {
  }

  /** Any change of a single header byte is caught by the checksum. */
  lemma HeaderByteDetected(h: seq<byte>, k: nat, b: byte)
    requires |h| == 4 && h[3] == Checksum(h[0], h[1], h[2])
    requires k < 4 && h[k] != b
    ensures var g := h[k := b]; g[3] != Checksum(g[0], g[1], g[2])
  {
    var rest := (h[0] as int) + h[1] + h[2] - h[k];
    if k < 3 {
      SumMoves(h[k], b, rest);
    }
  }

  lemma SumMoves(x: byte, y: byte, rest: int)
    requires x != y
    ensures (x + rest) % 256 != (y + rest) % 256
  {
  }

  // ---- The whole frame ----

  /** Header, payload and CRC, before stuffing. */
  function Body(f: Frame): seq<byte>
    requires FrameOk(f)
  {
    Header(f) + f.payload + Trailer(f)
  }

  function Trailer(f: Frame): seq<byte>
    requires FrameOk(f)
  {
    if f.crc then CrcBytes(CrcAll(CRC_INIT, Header(f) + f.payload)) else []
  }

  /** The bytes `h5_prepare_pkt` leaves in the new skb. */
  function Encode(f: Frame): seq<byte>
    requires FrameOk(f)
  {
    [DELIM] + SlipAll(Body(f)) + [DELIM]
  }

  /** On the wire, bit by bit: without a CRC nothing follows the payload; with one,
      two bytes follow that spell, highest bit last, the remainder of dividing header
      and payload, taken lowest bit first, by x^16 + x^12 + x^5 + 1 from 0xffff. */
  lemma TrailerOnWire(f: Frame, k: nat)
    requires FrameOk(f) && k < 16
    ensures var b, n := Body(f), 4 + |f.payload|;
      && |b| == n + (if f.crc then 2 else 0) && b[..n] == Header(f) + f.payload
      && (f.crc ==> NumberBit((b[n] as nat) * 256 + b[n + 1] as nat, k) == RegBit(CrcBits(0xffff, Bits(b[..n])), 15 - k))
  {
    hide CrcBytes, NumberBit, RegBit, CrcBits, Bits, CrcAll, Header;
    var s := Header(f) + f.payload;
    assert Body(f)[..|s|] == s;
    if f.crc {
      TableIsBitSerial(CRC_INIT, s);
      CrcBytesReversed(CrcAll(CRC_INIT, s), k);
      assert Body(f)[|s|] == Trailer(f)[0] && Body(f)[|s| + 1] == Trailer(f)[1];
    }
  }

  /** Every encoded frame starts and ends with the delimiter, contains neither
      the delimiter nor a flow-control byte in between, and fits the buffer the
      driver allocates for it. */
  lemma EncodeTransparent(f: Frame)
    requires FrameOk(f)
    ensures var e := Encode(f);
      && |e| <= (|f.payload| + 6) * 2 + 2
      && |e| >= 6
      && e[0] == DELIM && e[|e| - 1] == DELIM
      && (forall i :: 0 < i < |e| - 1 ==> e[i] != DELIM && e[i] != XON && e[i] != XOFF)
  {
    var e, m := Encode(f), SlipAll(Body(f));
    assert |e| == |m| + 2;
    forall i | 0 < i < |e| - 1 ensures e[i] != DELIM && e[i] != XON && e[i] != XOFF {
      assert e[i] == m[i - 1];
    }
  }
}
