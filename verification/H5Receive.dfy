/** The resumable byte parser `h5_recv`: receive states, escape state, the live
    skb and its CRC, stepping over an `Endpoint`. */
module H5Receive {
  import opened Common
  import opened H5Crc
  import opened H5Frame
  import opened H5Endpoint

  datatype RxState = W4Delimiter | W4Start | W4Hdr | W4Data | W4Crc

  datatype EscState = NoEsc | Esc

  /** `rx_skb`: the pointer may be NULL, or dangle after `kfree_skb`. */
  datatype Skb = Null | Freed | Live(data: seq<byte>)

  datatype Rx = Rx(state: RxState, count: nat, esc: EscState, skb: Skb, crc: bv16)

  /** The driver's state, with the packets handed to `hci_recv_frame` so far. */
  datatype Link = Link(tx: Endpoint, rx: Rx, up: seq<Packet>)

  function OpenLink(txcrc: bool): Link {
    Link(Open(txcrc), Rx(W4Delimiter, 0, NoEsc, Null, 0), [])
  }

  // ---- One byte into the live skb ----

  /** `skb_put` of an unstuffed byte, the CRC over everything but the CRC itself. */
  function Put(rx: Rx, b: byte): Rx
    requires rx.skb.Live? && rx.count > 0
  {
    var data := rx.skb.data + [b];
    rx.(skb := Live(data),
        crc := if HasCrc(data[0]) && rx.state != W4Crc then CrcUpdate(rx.crc, b) else rx.crc,
        esc := NoEsc,
        count := rx.count - 1)
  }

  /** `h5_unslip_one_byte`. */
  function Unslip(rx: Rx, b: byte): Rx
    requires rx.skb.Live? && rx.count > 0
  {
    match rx.esc
    case NoEsc => if b == ESC then rx.(esc := Esc) else Put(rx, b)
    case Esc =>
      if b == 0xdc then Put(rx, DELIM)
      else if b == 0xdd then Put(rx, ESC)
      else if b == 0xde then Put(rx, XON)
      else if b == 0xdf then Put(rx, XOFF)
      else rx.(skb := Null, state := W4Delimiter, count := 0)
  }

  // ---- Well-formed receive states ----

  ghost predicate InFrame(s: RxState) {
    s == W4Hdr || s == W4Data || s == W4Crc
  }

  /** The skb is live exactly inside a frame; its length and the count of bytes
      still to come add up to the part of the frame being read; the register
      holds the CRC of header and payload so far. */
  ghost predicate RxValid(rx: Rx) {
    && (rx.skb.Live? <==> InFrame(rx.state))
    && (if InFrame(rx.state) then FrameValid(rx) else rx.count == 0)
  }

  ghost predicate FrameValid(rx: Rx)
    requires rx.skb.Live?
  {
    var data := rx.skb.data;
    && (rx.count == 0 ==> rx.esc == NoEsc)
    && (match rx.state
        case W4Hdr => |data| + rx.count == 4
        case W4Data => HeaderRead(data) && |data| + rx.count == 4 + PayloadLen(data)
        case _ => HeaderRead(data) && HasCrc(data[0]) && rx.count <= 2
                  && |data| + rx.count == 6 + PayloadLen(data))
    && (data == [] || HasCrc(data[0]) ==> rx.crc == CrcAll(CRC_INIT, Summed(rx)))
  }

  ghost predicate HeaderRead(data: seq<byte>) {
    |data| >= 4 && data[3] == Checksum(data[0], data[1], data[2])
  }

  function PayloadLen(data: seq<byte>): (r: nat)
    requires |data| >= 3
    ensures r <= MAX_LEN
  {
    LenOf(data[1], data[2])
  }

  /** The bytes the register has summed: header and payload, never the CRC. */
  ghost function Summed(rx: Rx): seq<byte>
    requires rx.skb.Live?
  {
    if rx.state == W4Crc && rx.count <= 2 && rx.count + |rx.skb.data| >= 2
    then rx.skb.data[..|rx.skb.data| - (2 - rx.count)]
    else rx.skb.data
  }

  /** The skb never outgrows the 0x1005 bytes allocated for it. */
  lemma BufferBound(rx: Rx)
    requires RxValid(rx) && rx.skb.Live?
    ensures |rx.skb.data| + rx.count <= 0x1005
  {
  }

  // ---- The steps of the loop that consume nothing ----

  /** A frame state whose bytes have all arrived; it is acted on only when the
      loop next runs. */
  predicate Pending(rx: Rx) {
    rx.count == 0 && (rx.state == W4Hdr || rx.state == W4Data || rx.state == W4Crc)
  }

  function Drop(rx: Rx): Rx {
    rx.(skb := Freed, state := W4Delimiter, count := 0)
  }

  /** `h5_complete_rx_pkt` on a skb already trimmed of its CRC. */
  function CompletePkt(l: Link, data: seq<byte>): Link
    requires |data| >= 4
  {
    Link(Complete(l.tx, IsReliable(data[0]), AckOf(data[0])),
         l.rx.(state := W4Delimiter, skb := Null),
         l.up + PassUp(IsReliable(data[0]), ChanOf(data[1]), data[4..]))
  }

  function SettleStep(l: Link): Link
    requires RxValid(l.rx) && Pending(l.rx)
  {
    hide CrcMatches, CrcAll;
    var data := l.rx.skb.data;
    match l.rx.state
    case W4Hdr =>
      if Checksum(data[0], data[1], data[2]) != data[3] then
        l.(rx := Drop(l.rx))
      else if IsReliable(data[0]) && SeqOf(data[0]) != l.tx.rxseqTxack then
        l.(tx := OutOfOrder(l.tx), rx := Drop(l.rx))
      else
        l.(rx := l.rx.(state := W4Data, count := PayloadLen(data)))
    case W4Data =>
      if HasCrc(data[0]) then l.(rx := l.rx.(state := W4Crc, count := 2))
      else CompletePkt(l, data)
    case W4Crc =>
      var n := |data| - 2;
      if !CrcMatches(l.rx.crc, data[n], data[n + 1]) then
        l.(rx := Drop(l.rx))
      else
        CompletePkt(l, data[..n])
  }

  /** How many more such steps there can be. */
  function Rank(rx: Rx): nat {
    if !Pending(rx) then 0
    else if rx.state == W4Hdr then 3 else if rx.state == W4Data then 2 else 1
  }

  lemma SettleStepValid(l: Link)
    requires RxValid(l.rx) && Pending(l.rx)
    ensures RxValid(SettleStep(l).rx)
    ensures Rank(SettleStep(l).rx) < Rank(l.rx) && SettleStep(l).rx.state != W4Start
  {
    hide CrcUpdate, CrcMatches, CrcAll;
    var data := l.rx.skb.data;
    assert data[..|data|] == data;
  }

  function Settle(l: Link): (r: Link)
    requires RxValid(l.rx)
    ensures RxValid(r.rx) && !Pending(r.rx)
    decreases Rank(l.rx)
  {
    if Pending(l.rx) then
      SettleStepValid(l);
      Settle(SettleStep(l))
    else l
  }

  // ---- The step that consumes a byte ----

  /** A fresh skb; the byte that starts the frame is still to be read. */
  function Allocate(rx: Rx): Rx {
    Rx(W4Hdr, 4, NoEsc, Live([]), CRC_INIT)
  }

  function Consume(l: Link, b: byte): Link
    requires RxValid(l.rx) && !Pending(l.rx)
  {
    if l.rx.count > 0 then
      if b == DELIM then l.(rx := l.rx.(skb := Freed, state := W4Start, count := 0))
      else l.(rx := Unslip(l.rx, b))
    else if l.rx.state == W4Delimiter then
      if b == DELIM then l.(rx := l.rx.(state := W4Start)) else l
    else if b == DELIM then l
    else l.(rx := Unslip(Allocate(l.rx), b))
  }

  lemma PutValid(rx: Rx, b: byte)
    requires RxValid(rx) && rx.skb.Live? && rx.count > 0
    ensures RxValid(Put(rx, b))
  {
    hide CrcUpdate;
    var rx' := Put(rx, b);
    var data := rx.skb.data;
    if data == [] || HasCrc(data[0]) {
      if rx.state != W4Crc {
        CrcAllAppend(CRC_INIT, data, b);
        assert Summed(rx') == data + [b];
      } else {
        assert Summed(rx') == Summed(rx);
      }
    }
  }

  lemma UnslipValid(rx: Rx, b: byte)
    requires RxValid(rx) && rx.skb.Live? && rx.count > 0
    ensures RxValid(Unslip(rx, b))
  {
    hide Put, CrcUpdate, CrcAll;
    if rx.esc == NoEsc {
      if b != ESC {
        hide RxValid;
        PutValid(rx, b);
      }
    } else if 0xdc <= b <= 0xdf {
      hide RxValid;
      PutValid(rx, if b == 0xdc then DELIM else if b == 0xdd then ESC else if b == 0xde then XON else XOFF);
    }
  }

  lemma ConsumeValid(l: Link, b: byte)
    requires RxValid(l.rx) && !Pending(l.rx)
    ensures RxValid(Consume(l, b).rx)
  {
    hide Unslip;
    if l.rx.count > 0 {
      UnslipValid(l.rx, b);
    } else {
      UnslipValid(Allocate(l.rx), b);
    }
  }

  /** Everything the loop does up to and including the byte `b`. */
  function RecvByte(l: Link, b: byte): (r: Link)
    requires RxValid(l.rx)
    ensures RxValid(r.rx)
  {
    ConsumeValid(Settle(l), b);
    Consume(Settle(l), b)
  }

  /** `h5_recv` as a left fold over the bytes. */
  function Recv(l: Link, data: seq<byte>): (r: Link)
    requires RxValid(l.rx)
    ensures RxValid(r.rx)
    decreases |data|
  {
    if data == [] then l else Recv(RecvByte(l, data[0]), data[1..])
  }

  /** Feeding `a` and then `b` is feeding `a + b`: how the tty layer cuts the
      stream into buffers does not matter. */
  lemma {:induction false} RecvConcat(l: Link, a: seq<byte>, b: seq<byte>)
    requires RxValid(l.rx)
    ensures Recv(l, a + b) == Recv(Recv(l, a), b)
    decreases |a|
  {
    hide RecvByte, RxValid;
    if a == [] {
      assert a + b == b;
    } else {
      assert (a + b)[1..] == a[1..] + b;
      RecvConcat(RecvByte(l, a[0]), a[1..], b);
    }
  }

  lemma SettleUnfold(l: Link)
    requires RxValid(l.rx) && Pending(l.rx)
    ensures RxValid(SettleStep(l).rx) && Settle(l) == Settle(SettleStep(l))
  {
    SettleStepValid(l);
  }

  // ---- Self-synchronisation ----

  /** One delimiter brings every receive state, however it came about, to the
      start of a frame with no live buffer. */
  lemma SelfSynchronises(l: Link)
    requires RxValid(l.rx)
    ensures var r := RecvByte(l, DELIM).rx; r.state == W4Start && r.count == 0 && !r.skb.Live?
  {
    hide CrcUpdate, CrcAll, CrcMatches;
    var s := Settle(l);
  }

  /** After an escape a frame goes on with one of the four codes and ends, dropped, with
      any other byte; nothing is passed up or acknowledged either way. */
  lemma EscapeEndsFrame(l: Link, b: byte)
    requires RxValid(l.rx) && InFrame(l.rx.state) && l.rx.esc == Esc
    ensures var r := RecvByte(l, b);
      && r.tx == l.tx && r.up == l.up
      && (r.rx.skb.Live? <==> b == 0xdc || b == 0xdd || b == 0xde || b == 0xdf)
      && (!r.rx.skb.Live? ==> r.rx.count == 0 && r.rx.state == if b == 0xc0 then W4Start else W4Delimiter)
  {
    hide CrcUpdate, CrcAll;
  }

  /** What comes before the first delimiter is ignored. */
  lemma {:induction false} NoiseIgnored(txcrc: bool, noise: seq<byte>)
    requires 0xc0 !in noise
    ensures Recv(OpenLink(txcrc), noise) == OpenLink(txcrc)
    decreases |noise|
  {
    if noise != [] {
      assert noise[0] in noise;
      NoiseIgnored(txcrc, noise[1..]);
    }
  }

  /** A header with one byte damaged is dropped, whatever the byte: nothing is passed
      up, nothing is acknowledged, no counter moves. */
  lemma DamagedHeaderIsDropped(l: Link, f: Frame, k: nat, b: byte)
    requires RxValid(l.rx) && l.rx.state == W4Hdr && l.rx.count == 0 && FrameOk(f)
    requires k < 4 && b != Header(f)[k] && l.rx.skb.data == Header(f)[k := b]
    ensures Settle(l) == l.(rx := Drop(l.rx))
  {
    HeaderRoundTrip(f);
    HeaderByteDetected(Header(f), k, b);
    hide Header, CrcAll;
    SettleUnfold(l);
  }

  /** A frame whose header and payload were hit by one burst of up to 16 bits,
      its CRC bytes intact, is dropped: nothing is passed up, nothing is
      acknowledged, no counter moves. */
  lemma BurstIsDropped(l: Link, sent: seq<byte>)
    requires RxValid(l.rx) && l.rx.state == W4Crc && l.rx.count == 0
    requires l.rx.skb.data[|l.rx.skb.data| - 2..] == CrcBytes(CrcAll(CRC_INIT, sent))
    requires OneBurst(sent, Summed(l.rx)) && sent != Summed(l.rx)
    ensures Settle(l) == l.(rx := Drop(l.rx))
  {
    var data := l.rx.skb.data;
    var n := |data| - 2;
    hide CrcUpdate, CrcAll, CrcMatches, CrcBytes, OneBurst;
    BurstDetected(CRC_INIT, sent, Summed(l.rx));
    CrcMatchesExactly(l.rx.crc, CrcAll(CRC_INIT, sent));
    assert data[n] == data[n..][0] && data[n + 1] == data[n..][1];
    SettleUnfold(l);
  }
}
