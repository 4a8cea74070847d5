/** `struct h5_struct` and the functions of the driver that update it in place,
    each proved against the value-level step it performs. */
module H5Driver {
  import opened Common
  import opened H5Crc
  import opened H5Frame
  import Ep = H5Endpoint
  import Rv = H5Receive

  /** Counting back from one sequence number to another. */
  lemma OneFewer(all: seq<Packet>, i: nat)
    requires i < |all|
    ensures all[i..] != [] && all[i..][1..] == all[i + 1..]
  {
  }

  lemma LastGoesBack(unack: seq<Packet>, rel: seq<Packet>)
    requires unack != []
    ensures unack[..|unack| - 1] + ([unack[|unack| - 1]] + rel) == unack + rel
  {
  }

  lemma CountsBack(txseq: nat, rxack: nat, d: nat)
    requires txseq < 8 && rxack < 8 && d <= (txseq - rxack) % 8
    ensures (txseq - d) % 8 == rxack <==> d == (txseq - rxack) % 8
    ensures ((txseq - d) % 8 + 7) % 8 == (txseq - (d + 1)) % 8
  {
  }

  class H5 {
    var unack: seq<Packet>
    var rel: seq<Packet>
    var unrel: seq<Packet>
    var rxCount: nat
    var rxSkb: Rv.Skb
    var retransWork: bool
    var rxState: Rv.RxState
    var rxEscState: Rv.EscState
    var messageCrc: bv16
    var useCrc: bool
    var rxack: nat
    var rxseqTxack: nat
    var txackReq: bool
    var msgqTxseq: nat
    var passedUp: seq<Packet>  // what hci_recv_frame was called with

    function Tx(): Ep.Endpoint
      reads this
    {
      Ep.Endpoint(unack, rel, unrel, msgqTxseq, rxseqTxack, txackReq, rxack, retransWork, useCrc)
    }

    function Rx(): Rv.Rx
      reads this
    {
      Rv.Rx(rxState, rxCount, rxEscState, rxSkb, messageCrc)
    }

    function Abs(): Rv.Link
      reads this
    {
      Rv.Link(Tx(), Rx(), passedUp)
    }

    ghost predicate Counters()
      reads this
    {
      msgqTxseq < 8 && rxseqTxack < 8 && rxack < 8
    }

    ghost predicate Valid()
      reads this
    {
      Counters() && Rv.RxValid(Rx())
    }

    /** `h5_open`. */
    constructor (txcrc: bool)
      ensures Valid() && Abs() == Rv.OpenLink(txcrc)
    {
      unack, rel, unrel := [], [], [];
      rxCount, rxSkb, rxState, rxEscState := 0, Rv.Null, Rv.W4Delimiter, Rv.NoEsc;
      retransWork, messageCrc, useCrc := false, 0, txcrc;
      rxack, rxseqTxack, txackReq, msgqTxseq := 0, 0, false, 0;
      passedUp := [];
    }

    /** `h5_enqueue`. */
    method Enqueue(p: Packet)
      requires Counters()
      modifies this`rel, this`unrel
      ensures Counters() && Tx() == Ep.Enqueue(old(Tx()), p)
    {
      if |p.data| > MAX_LEN {
        return;
      }
      if p.ptype == HCI_ACLDATA_PKT || p.ptype == HCI_COMMAND_PKT {
        rel := rel + [p];
      } else if p.ptype == HCI_SCODATA_PKT || p.ptype == H5_LE_PKT || p.ptype == H5_ACK_PKT
                || p.ptype == H5_VDRSPEC_PKT {
        unrel := unrel + [p];
      }
    }

    /** `h5_prepare_pkt`: the new skb, or None for an unknown type. */
    method PreparePkt(p: Packet) returns (nskb: Option<seq<byte>>)
      requires Counters() && |p.data| <= MAX_LEN
      modifies this`txackReq, this`msgqTxseq
      ensures Counters()
      ensures var (tx, f) := Ep.Prepare(old(Tx()), p);
        Tx() == tx && Writes(nskb, f)
    {
      var chan: byte, reliable: bool;
      if p.ptype == HCI_ACLDATA_PKT {
        chan, reliable := 2, true;
      } else if p.ptype == HCI_COMMAND_PKT {
        chan, reliable := 1, true;
      } else if p.ptype == HCI_EVENT_PKT {
        chan, reliable := 4, true;
      } else if p.ptype == HCI_SCODATA_PKT {
        chan, reliable := 3, false;
      } else if p.ptype == H5_LE_PKT {
        chan, reliable := 15, false;
      } else if p.ptype == H5_ACK_PKT {
        chan, reliable := 0, false;
      } else if p.ptype == H5_VDRSPEC_PKT {
        chan, reliable := 14, false;
      } else {
        return None;
      }
      ghost var f := Ep.Prepare(Tx(), p).1.value;
      var hdr0: byte := rxseqTxack * 8;
      txackReq := false;
      if reliable {
        hdr0 := hdr0 + 0x80 + msgqTxseq;
        msgqTxseq := (msgqTxseq + 1) % 8;
      }
      if useCrc {
        hdr0 := hdr0 + 0x40;
      }
      hide Encode;
      var skb := WriteFrame(hdr0, chan, p.data, useCrc, f);
      nskb := Some(skb);
    }

    /** The first loop of `h5_pkt_cull`: count back from the next sequence number to
        the one acknowledged. */
    method CountAcked() returns (toRemove: nat)
      requires Counters()
      ensures toRemove == Ep.CullCount(|unack|, msgqTxseq, rxack)
    {
      toRemove := |unack|;
      var seqno := msgqTxseq;
      while toRemove > 0
        invariant 0 <= toRemove <= |unack| && 0 <= seqno < 8
        invariant seqno == (msgqTxseq - (|unack| - toRemove)) % 8
        invariant |unack| - toRemove <= (msgqTxseq - rxack) % 8
      {
        CountsBack(msgqTxseq, rxack, |unack| - toRemove);
        if rxack == seqno {
          break;
        }
        toRemove := toRemove - 1;
        seqno := (seqno + 7) % 8;
      }
      CountsBack(msgqTxseq, rxack, |unack| - toRemove);
    }

    /** `h5_pkt_cull`: unlink that many packets from the head of `unack`. */
    method PktCull()
      requires Counters()
      modifies this`unack, this`retransWork
      ensures Counters() && Tx() == Ep.Cull(old(Tx()))
    {
      hide Ep.CullCount;
      var toRemove := CountAcked();
      var i := 0;
      ghost var all := unack;
      assert all[0..] == all;
      while i < toRemove
        invariant 0 <= i <= toRemove <= |all|
        invariant unack == all[i..] && retransWork == old(retransWork)
      {
        OneFewer(all, i);
        unack := unack[1..];
        i := i + 1;
      }
      if unack == [] {
        retransWork := false;
      }
    }

    /** `h5_dequeue`: the next skb to put on the line. */
    method Dequeue() returns (nskb: Option<seq<byte>>)
      requires Counters()
      requires unrel != [] ==> |unrel[0].data| <= MAX_LEN
      requires rel != [] ==> |rel[0].data| <= MAX_LEN
      modifies this`unrel, this`rel, this`unack, this`retransWork, this`txackReq, this`msgqTxseq
      ensures Counters()
      ensures var (tx, f) := Ep.Dequeue(old(Tx())); Tx() == tx && Writes(nskb, f)
    {
      hide Writes, Ep.Prepare, Ep.DequeueReliable;
      ghost var e := Tx();
      if unrel != [] {
        var skb := unrel[0];
        unrel := unrel[1..];
        nskb := PreparePkt(skb);
        PrepareKeepsQueues(e.(unrel := e.unrel[1..]), skb);
        WritesWhenSome(nskb, Ep.Prepare(e.(unrel := e.unrel[1..]), skb).1);
        if nskb.Some? {
          return;
        }
        unrel := [skb] + unrel;
        assert Tx() == e;
      }
      nskb := DequeueReliable();
    }

    /** The rest of `h5_dequeue`: a reliable packet if the window has room, then
        a bare acknowledgement. */
    method DequeueReliable() returns (nskb: Option<seq<byte>>)
      requires Counters()
      requires rel != [] ==> |rel[0].data| <= MAX_LEN
      modifies this`rel, this`unack, this`retransWork, this`txackReq, this`msgqTxseq
      ensures Counters()
      ensures var (tx, f) := Ep.DequeueReliable(old(Tx())); Tx() == tx && Writes(nskb, f)
    {
      hide Writes, Ep.Prepare;
      ghost var e := Tx();
      WritesWhenSome(None, None);
      if |unack| < Ep.WINDOW && rel != [] {
        var skb := rel[0];
        rel := rel[1..];
        nskb := PreparePkt(skb);
        PrepareKeepsQueues(e.(rel := e.rel[1..]), skb);
        PrepareKeepsQueues(e, skb);
        WritesWhenSome(nskb, Ep.Prepare(e.(rel := e.rel[1..]), skb).1);
        if nskb.Some? {
          unack := unack + [skb];
          retransWork := true;
          return;
        }
        rel := [skb] + rel;
        assert Tx() == e;
      }
      if txackReq {
        nskb := PreparePkt(Packet(H5_ACK_PKT, []));
        return;
      }
      nskb := None;
    }

    /** `h5_timed_event`. */
    method TimedEvent()
      requires Counters()
      modifies this`unack, this`rel, this`msgqTxseq, this`retransWork
      ensures Counters() && Tx() == Ep.TimedEvent(old(Tx()))
    {
      retransWork := false;  // the work item is running, so no longer pending
      while unack != []
        invariant unack + rel == old(unack + rel) && |unack| <= |old(unack)| && !retransWork
        invariant 0 <= msgqTxseq < 8
        invariant msgqTxseq == (old(msgqTxseq) - (|old(unack)| - |unack|)) % 8
        decreases |unack|
      {
        var last := |unack| - 1;
        var skb := unack[last];
        LastGoesBack(unack, rel);
        unack := unack[..last];
        msgqTxseq := (msgqTxseq + 7) % 8;
        rel := [skb] + rel;
      }
      assert unack + rel == rel;
    }

    /** `skb_put` of one unstuffed byte. */
    method PutByte(b: byte)
      requires rxSkb.Live? && rxCount > 0
      modifies this`rxSkb, this`messageCrc, this`rxEscState, this`rxCount
      ensures Rx() == Rv.Put(old(Rx()), b)
    {
      hide CrcUpdate;
      rxSkb := Rv.Live(rxSkb.data + [b]);
      if HasCrc(rxSkb.data[0]) && rxState != Rv.W4Crc {
        messageCrc := CrcUpdate(messageCrc, b);
      }
      rxEscState := Rv.NoEsc;
      rxCount := rxCount - 1;
    }

    /** `h5_unslip_one_byte`. */
    method UnslipOneByte(b: byte)
      requires rxSkb.Live? && rxCount > 0
      modifies this`rxSkb, this`messageCrc, this`rxEscState, this`rxCount, this`rxState
      ensures Rx() == Rv.Unslip(old(Rx()), b)
    {
      hide Rv.Put;
      match rxEscState
      case NoEsc =>
        if b == ESC {
          rxEscState := Rv.Esc;
        } else {
          PutByte(b);
        }
      case Esc =>
        if b == 0xdc {
          PutByte(DELIM);
        } else if b == 0xdd {
          PutByte(ESC);
        } else if b == 0xde {
          PutByte(XON);
        } else if b == 0xdf {
          PutByte(XOFF);
        } else {
          rxSkb := Rv.Null;
          rxState := Rv.W4Delimiter;
          rxCount := 0;
        }
    }

    /** The first half of `h5_complete_rx_pkt`: counters and queues. */
    method Acknowledge(hdr0: byte)
      requires Counters()
      modifies this`rxseqTxack, this`txackReq, this`rxack, this`unack, this`retransWork
      ensures Counters() && Tx() == Ep.Complete(old(Tx()), IsReliable(hdr0), AckOf(hdr0))
    {
      hide Ep.Cull;
      if IsReliable(hdr0) {
        rxseqTxack := (rxseqTxack + 1) % 8;
        txackReq := true;
      }
      rxack := AckOf(hdr0);
      PktCull();
    }

    /** `h5_complete_rx_pkt`. */
    method CompleteRxPkt()
      requires Counters() && rxSkb.Live? && |rxSkb.data| >= 4 && rxCount == 0
      modifies this
      ensures Valid() && Abs() == Rv.CompletePkt(old(Abs()), old(rxSkb.data))
    {
      hide Ep.Complete, Ep.PassUpType, Rv.FrameValid;
      var data := rxSkb.data;
      Acknowledge(data[0]);
      var ptype := Ep.PassUpType(IsReliable(data[0]), ChanOf(data[1]));
      if ptype.Some? {
        passedUp := passedUp + [Packet(ptype.value, data[4..])];
      }
      rxState := Rv.W4Delimiter;
      rxSkb := Rv.Null;
    }

    /** The H5_W4_HDR case: checksum, then sequence number. */
    method CheckHeader()
      requires Valid() && Rv.Pending(Rx()) && rxState == Rv.W4Hdr
      modifies this
      ensures Abs() == Rv.SettleStep(old(Abs()))
    {
      hide CrcMatches, CrcAll;
      var data := rxSkb.data;
      if Checksum(data[0], data[1], data[2]) != data[3] {
        rxSkb, rxState := Rv.Freed, Rv.W4Delimiter;
      } else if IsReliable(data[0]) && SeqOf(data[0]) != rxseqTxack {
        txackReq := true;
        rxSkb, rxState := Rv.Freed, Rv.W4Delimiter;
      } else {
        rxState, rxCount := Rv.W4Data, LenOf(data[1], data[2]);
      }
    }

    /** The H5_W4_CRC case. */
    method CheckCrc()
      requires Valid() && Rv.Pending(Rx()) && rxState == Rv.W4Crc
      modifies this
      ensures Abs() == Rv.SettleStep(old(Abs())) && Counters()
    {
      hide CrcMatches, CrcAll, Rv.CompletePkt;
      var data := rxSkb.data;
      var n := |data| - 2;
      if !CrcMatches(messageCrc, data[n], data[n + 1]) {
        rxSkb, rxState := Rv.Freed, Rv.W4Delimiter;
      } else {
        ghost var before := Abs();
        rxSkb := Rv.Live(data[..n]);
        rxState := Rv.W4Data;
        TrimmedValid(before, Abs());
        TrimmedCompletes(before, Abs(), data[..n]);
        CompleteRxPkt();
      }
    }

    /** One round of the `h5_recv` loop in a state whose bytes have all come. */
    method SettleOnce()
      requires Valid() && Rv.Pending(Rx())
      modifies this
      ensures Valid() && Abs() == Rv.SettleStep(old(Abs()))
    {
      Rv.SettleStepValid(Abs());
      hide CrcMatches, CrcAll;
      match rxState
      case W4Hdr =>
        CheckHeader();
      case W4Data =>
        if HasCrc(rxSkb.data[0]) {
          rxState, rxCount := Rv.W4Crc, 2;
        } else {
          CompleteRxPkt();
        }
      case W4Crc =>
        CheckCrc();
    }

    /** A byte in the middle of a frame. */
    method TakeInFrame(b: byte)
      requires Valid() && rxCount > 0
      modifies this`rxSkb, this`messageCrc, this`rxEscState, this`rxCount, this`rxState
      ensures Abs() == Rv.Consume(old(Abs()), b)
    {
      hide Rv.Unslip;
      if b == DELIM {
        rxSkb, rxState, rxCount := Rv.Freed, Rv.W4Start, 0;
      } else {
        UnslipOneByte(b);
      }
    }

    /** A fresh skb for the frame that the byte at hand starts. */
    method AllocateSkb()
      modifies this`rxSkb, this`messageCrc, this`rxEscState, this`rxCount, this`rxState
      ensures Rx() == Rv.Allocate(old(Rx()))
    {
      rxState, rxCount, rxEscState := Rv.W4Hdr, 4, Rv.NoEsc;
      messageCrc := CRC_INIT;
      rxSkb := Rv.Live([]);
    }

    /** One round of the `h5_recv` loop with the byte `b` at hand. */
    method RecvRound(b: byte) returns (consumed: bool)
      requires Valid()
      modifies this
      ensures Valid()
      ensures consumed ==> Abs() == Rv.RecvByte(old(Abs()), b)
      ensures !consumed ==> Rv.RecvByte(Abs(), b) == Rv.RecvByte(old(Abs()), b)
      ensures !consumed ==> RoundsLeft() < old(RoundsLeft())
    {
      hide CrcUpdate, CrcAll, Rv.SettleStep, Rv.Unslip, Rv.RxValid;
      ghost var l := Abs();
      consumed := false;
      if Rv.Pending(Rx()) {
        Rv.SettleUnfold(l);
        Rv.SettleStepValid(l);
        SettleOnce();
        return;
      }
      Rv.ConsumeValid(l, b);
      if rxCount > 0 {
        TakeInFrame(b);
        consumed := true;
      } else if rxState == Rv.W4Delimiter {
        if b == DELIM {
          rxState := Rv.W4Start;
        }
        consumed := true;
      } else if b == DELIM {
        consumed := true;
      } else {
        AtStart(l);
        AllocateSkb();
        AllocatedSame(l, b);
      }
    }

    /** How many rounds may pass before the next byte is consumed. */
    ghost function RoundsLeft(): nat
      reads this
    {
      Rv.Rank(Rx()) + if rxState == Rv.W4Start then 1 else 0
    }

    /** `h5_recv`: the loop over the received bytes.  Some rounds consume
        nothing; the second component of the measure counts those down. */
    method Recv(data: seq<byte>)
      requires Valid()
      modifies this
      ensures Valid() && Abs() == Rv.Recv(old(Abs()), data)
    {
      hide Rv.RecvByte, Rv.RxValid;
      var i := 0;
      while i < |data|
        invariant 0 <= i <= |data| && Valid()
        invariant Rv.Recv(Abs(), data[i..]) == Rv.Recv(old(Abs()), data)
        decreases |data| - i, RoundsLeft()
      {
        RecvStartsWith(Abs(), data[i..]);
        var consumed := RecvRound(data[i]);
        RecvStartsWith(Abs(), data[i..]);
        if consumed {
          i := i + 1;
        }
      }
      assert data[i..] == [];
    }
  }

  /** The skb, if there is one, holds the encoding of the frame. */
  ghost predicate Writes(nskb: Option<seq<byte>>, f: Option<Frame>) {
    match f
    case None => nskb.None?
    case Some(frame) => FrameOk(frame) && nskb == Some(Encode(frame))
  }

  lemma WritesWhenSome(nskb: Option<seq<byte>>, f: Option<Frame>)
    ensures Writes(nskb, f) ==> (nskb.None? <==> f.None?)
    ensures Writes(None, None)
  {
    hide Encode;
  }

  /** Preparing a packet reads and writes counters only. */
  lemma PrepareKeepsQueues(e: Ep.Endpoint, p: Packet)
    ensures var (e', f) := Ep.Prepare(e, p);
      && e' == e.(txackReq := e'.txackReq, txseq := e'.txseq)
      && (f.None? <==> Ep.Channel(p.ptype).None?)
      && (f.None? ==> e' == e)
      && forall u, r :: Ep.Prepare(e.(unrel := u, rel := r), p) == (e'.(unrel := u, rel := r), f)
  {
  }

  /** The byte loops of `h5_prepare_pkt`: header, payload and CRC stuffed
      between two delimiters. */
  method WriteBytes(skb: seq<byte>, crc: bv16, bytes: seq<byte>, useCrc: bool)
    returns (skb': seq<byte>, crc': bv16)
    ensures skb' == skb + SlipAll(bytes)
    ensures crc' == if useCrc then CrcAll(crc, bytes) else crc
  {
    hide CrcUpdate, Slip;
    skb', crc' := skb, crc;
    var i := 0;
    while i < |bytes|
      invariant 0 <= i <= |bytes|
      invariant skb' == skb + SlipAll(bytes[..i])
      invariant crc' == if useCrc then CrcAll(crc, bytes[..i]) else crc
    {
      skb' := skb' + Slip(bytes[i]);
      if useCrc {
        crc' := CrcUpdate(crc', bytes[i]);
      }
      SlipAllOne(bytes[..i], bytes[i]);
      CrcAllAppend(crc, bytes[..i], bytes[i]);
      assert bytes[..i + 1] == bytes[..i] + [bytes[i]];
      i := i + 1;
    }
    assert bytes[..|bytes|] == bytes;
  }

  /** The rest of `h5_prepare_pkt`, once the first header byte is made up. */
  method WriteFrame(hdr0: byte, chan: byte, data: seq<byte>, useCrc: bool, ghost f: Frame) returns (nskb: seq<byte>)
    requires FrameOk(f) && f.chan == chan && f.payload == data && f.crc == useCrc
    requires hdr0 == Header(f)[0]
    ensures nskb == Encode(f)
  {
    var len := |data|;
    var hdr1: byte := len % 16 * 16 + chan;
    var hdr2: byte := len / 16;
    var hdr := [hdr0, hdr1, hdr2, Checksum(hdr0, hdr1, hdr2)];
    assert hdr == Header(f);
    hide Header, Checksum, CrcBytes, SlipAll, CrcAll, FrameOk;
    var skb, crc := WriteBytes([DELIM], CRC_INIT, hdr, useCrc);
    skb, crc := WriteBytes(skb, crc, data, useCrc);
    ghost var body := skb;
    if useCrc {
      CrcAllConcat(CRC_INIT, hdr, data);
      skb, crc := WriteBytes(skb, crc, CrcBytes(crc), false);
    } else {
      NothingStuffed();
    }
    assert skb == body + SlipAll(Trailer(f));
    StuffedBody(f);
    nskb := skb + [DELIM];
  }

  lemma NothingStuffed()
    ensures SlipAll([]) == []
  {
  }

  lemma NothingSummed()
    ensures CrcAll(CRC_INIT, []) == CRC_INIT
  {
  }

  lemma StuffedBody(f: Frame)
    requires FrameOk(f)
    ensures Encode(f) == [DELIM] + SlipAll(Header(f)) + SlipAll(f.payload) + SlipAll(Trailer(f)) + [DELIM]
  {
    hide Header, SlipAll, Trailer;
    SlipAllConcat(Header(f), f.payload);
    SlipAllConcat(Header(f) + f.payload, Trailer(f));
  }

  lemma TrimmedCompletes(before: Rv.Link, after: Rv.Link, data: seq<byte>)
    requires after == before.(rx := before.rx.(state := Rv.W4Data, skb := Rv.Live(data))) && |data| >= 4
    ensures Rv.CompletePkt(after, data) == Rv.CompletePkt(before, data)
  {
  }

  lemma AtStart(l: Rv.Link)
    requires Rv.RxValid(l.rx) && !Rv.Pending(l.rx) && l.rx.count == 0 && l.rx.state != Rv.W4Delimiter
    ensures l.rx.state == Rv.W4Start
  {
  }

  /** Allocating the skb early changes nothing. */
  lemma AllocatedSame(l: Rv.Link, b: byte)
    requires Rv.RxValid(l.rx) && l.rx.state == Rv.W4Start && b != DELIM
    ensures var a := l.(rx := Rv.Allocate(l.rx));
      Rv.RxValid(a.rx) && Rv.RecvByte(a, b) == Rv.RecvByte(l, b)
  {
    hide Rv.Unslip, CrcUpdate;
    NothingSummed();
  }

  /** The receive state with the CRC trimmed off is that of a finished payload. */
  lemma TrimmedValid(before: Rv.Link, after: Rv.Link)
    requires Rv.RxValid(before.rx) && before.rx.state == Rv.W4Crc && before.rx.count == 0
    requires after.rx == before.rx.(state := Rv.W4Data, skb := Rv.Live(before.rx.skb.data[..|before.rx.skb.data| - 2]))
    ensures Rv.RxValid(after.rx)
  {
    hide CrcAll;
  }

  lemma RecvStartsWith(l: Rv.Link, bytes: seq<byte>)
    requires Rv.RxValid(l.rx) && bytes != []
    ensures Rv.Recv(l, bytes) == Rv.Recv(Rv.RecvByte(l, bytes[0]), bytes[1..])
  {
    hide Rv.RxValid, Rv.RecvByte;
  }
}
