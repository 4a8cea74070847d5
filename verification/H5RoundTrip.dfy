/** What the encoder writes, the parser reads: one frame in any idle state, and
    whole streams of prepared packets. */
module H5RoundTrip {
  import opened Common
  import opened H5Crc
  import opened H5Frame
  import opened H5Endpoint
  import opened H5Receive

  ghost predicate Idle(l: Link) {
    RxValid(l.rx) && !InFrame(l.rx.state)
  }

  // ---- Feeding stuffed bytes ----

  /** The receive state after the unstuffed bytes `bs`. */
  function PutAll(rx: Rx, bs: seq<byte>): (r: Rx)
    requires RxValid(rx) && rx.skb.Live? && |bs| <= rx.count
    ensures RxValid(r) && r.skb.Live?
    decreases |bs|
  {
    hide RxValid, CrcUpdate;
    if bs == [] then rx
    else
      PutValid(rx, bs[0]);
      PutAll(Put(rx, bs[0]), bs[1..])
  }

  lemma {:induction false} PutAllClosed(rx: Rx, bs: seq<byte>)
    requires RxValid(rx) && rx.skb.Live? && 0 < |bs| <= rx.count
    ensures var data := rx.skb.data + bs;
      PutAll(rx, bs) == rx.(skb := Live(data), count := rx.count - |bs|, esc := NoEsc,
        crc := if HasCrc(data[0]) && rx.state != W4Crc then CrcAll(rx.crc, bs) else rx.crc)
    decreases |bs|
  {
    PutValid(rx, bs[0]);
    hide RxValid, CrcUpdate;
    var rx' := Put(rx, bs[0]);
    FirstThenRest(rx.skb.data, bs);
    CrcFirst(rx.crc, bs);
    hide CrcAll, HasCrc;
    if |bs| > 1 {
      PutAllClosed(rx', bs[1..]);
    } else {
      assert PutAll(rx', bs[1..]) == rx';
    }
  }

  lemma FirstThenRest(a: seq<byte>, bs: seq<byte>)
    requires bs != []
    ensures (a + [bs[0]]) + bs[1..] == a + bs && (a + [bs[0]])[0] == (a + bs)[0]
    ensures |bs| == 1 ==> a + [bs[0]] == a + bs
  {
  }

  lemma CrcFirst(reg: bv16, bs: seq<byte>)
    requires bs != []
    ensures CrcAll(reg, bs) == CrcAll(CrcUpdate(reg, bs[0]), bs[1..])
    ensures |bs| == 1 ==> CrcAll(reg, bs) == CrcUpdate(reg, bs[0])
  {
    hide CrcUpdate;
  }

  lemma RecvOne(l: Link, b: byte)
    requires RxValid(l.rx)
    ensures Recv(l, [b]) == RecvByte(l, b)
  {
    hide RecvByte, RxValid;
    assert [b][1..] == [];
    assert Recv(l, [b]) == Recv(RecvByte(l, b), []);
  }

  lemma RecvTwo(l: Link, a: byte, b: byte)
    requires RxValid(l.rx)
    ensures Recv(l, [a, b]) == RecvByte(RecvByte(l, a), b)
  {
    hide RecvByte, RxValid;
    assert [a, b][1..] == [b];
    RecvOne(RecvByte(l, a), b);
  }

  /** A byte arriving in the middle of a frame. */
  lemma RecvMidFrame(l: Link, b: byte)
    requires RxValid(l.rx) && l.rx.count > 0 && b != DELIM
    ensures l.rx.skb.Live? && RecvByte(l, b) == l.(rx := Unslip(l.rx, b))
  {
    hide Unslip;
  }

  /** The stuffed form of a byte, unstuffed again. */
  lemma UnslipSlip(rx: Rx, c: byte)
    requires rx.skb.Live? && rx.count > 0 && rx.esc == NoEsc
    ensures var s := Slip(c);
      if |s| == 1 then Unslip(rx, s[0]) == Put(rx, c)
      else s[0] == ESC && Unslip(rx, ESC) == rx.(esc := Esc) && Unslip(rx.(esc := Esc), s[1]) == Put(rx, c)
  {
    PutIgnoresEsc(rx, c);
    hide Put;
  }

  lemma PutIgnoresEsc(rx: Rx, c: byte)
    requires rx.skb.Live? && rx.count > 0
    ensures Put(rx.(esc := Esc), c) == Put(rx, c)
  {
    hide CrcUpdate;
  }

  lemma FeedByte(l: Link, c: byte)
    requires RxValid(l.rx) && l.rx.skb.Live? && l.rx.count > 0 && l.rx.esc == NoEsc
    ensures Recv(l, Slip(c)) == l.(rx := Put(l.rx, c))
  {
    var s := Slip(c);
    UnslipSlip(l.rx, c);
    UnslipValid(l.rx, s[0]);
    hide RxValid, Put, RecvByte, Recv, Slip, Unslip;
    RecvMidFrame(l, s[0]);
    if |s| == 1 {
      assert s == [s[0]];
      RecvOne(l, s[0]);
    } else {
      assert s == [ESC, s[1]];
      RecvTwo(l, ESC, s[1]);
      RecvMidFrame(l.(rx := l.rx.(esc := Esc)), s[1]);
    }
  }

  lemma {:induction false} FeedAll(l: Link, bs: seq<byte>)
    requires RxValid(l.rx) && l.rx.skb.Live? && l.rx.esc == NoEsc && |bs| <= l.rx.count
    ensures Recv(l, SlipAll(bs)) == l.(rx := PutAll(l.rx, bs))
    decreases |bs|
  {
    hide RxValid, CrcUpdate, RecvByte;
    if bs != [] {
      FeedByte(l, bs[0]);
      RecvConcat(l, Slip(bs[0]), SlipAll(bs[1..]));
      PutValid(l.rx, bs[0]);
      FeedAll(l.(rx := Put(l.rx, bs[0])), bs[1..]);
    }
  }

  /** Steps that consume nothing may be taken early. */
  lemma RecvSettleStep(l: Link, bs: seq<byte>)
    requires RxValid(l.rx) && Pending(l.rx) && bs != []
    ensures RxValid(SettleStep(l).rx) && Recv(l, bs) == Recv(SettleStep(l), bs)
  {
    SettleUnfold(l);
    hide RxValid, SettleStep;
  }

  /** At the start of a frame the skb may be taken early. */
  lemma RecvAllocate(l: Link, bs: seq<byte>)
    requires RxValid(l.rx) && l.rx.state == W4Start && bs != [] && bs[0] != DELIM
    ensures RxValid(Allocate(l.rx)) && Recv(l, bs) == Recv(l.(rx := Allocate(l.rx)), bs)
  {
    hide CrcUpdate;
    assert RecvByte(l, bs[0]) == RecvByte(l.(rx := Allocate(l.rx)), bs[0]) by {
      hide Unslip;
    }
    hide RxValid, RecvByte;
  }

  /** While waiting for a delimiter everything else is skipped. */
  lemma {:induction false} SkipsToDelimiter(l: Link, bs: seq<byte>)
    requires RxValid(l.rx) && l.rx.state == W4Delimiter && DELIM !in bs
    ensures Recv(l, bs) == l
    decreases |bs|
  {
    if bs != [] {
      assert bs[0] in bs;
      assert RecvByte(l, bs[0]) == l;
      SkipsToDelimiter(l, bs[1..]);
    }
  }

  lemma DelimiterWhenIdle(l: Link)
    requires Idle(l)
    ensures Recv(l, [DELIM]) == l.(rx := l.rx.(state := W4Start))
  {
    RecvOne(l, DELIM);
  }

  // ---- One frame ----

  /** The receiver holding the whole header of `f`. */
  function AfterHeader(l: Link, f: Frame): Link
    requires FrameOk(f)
  {
    l.(rx := Rx(W4Hdr, 0, NoEsc, Live(Header(f)),
                if f.crc then CrcAll(CRC_INIT, Header(f)) else CRC_INIT))
  }

  lemma FeedHeader(l: Link, f: Frame)
    requires Idle(l) && l.rx.state == W4Start && FrameOk(f)
    ensures RxValid(AfterHeader(l, f).rx)
    ensures Recv(l, SlipAll(Header(f))) == AfterHeader(l, f)
  {
    var h := Header(f);
    var l1 := l.(rx := Allocate(l.rx));
    assert SlipAll(h)[0] != DELIM by {
      assert SlipAll(h)[0] in SlipAll(h);
    }
    RecvAllocate(l, SlipAll(h));
    FeedAll(l1, h);
    PutAllClosed(l1.rx, h);
    HeaderRoundTrip(f);
    assert [] + h == h;
    hide RxValid, Recv, SlipAll, CrcAll, Header;
  }

  /** A reliable frame out of sequence: dropped, with an acknowledgement owed. */
  lemma DeliverOutOfOrder(l: Link, f: Frame, rest: seq<byte>)
    requires FrameOk(f) && !InOrder(l.tx, f) && RxValid(AfterHeader(l, f).rx)
    requires DELIM !in rest
    ensures var r := Recv(AfterHeader(l, f), rest + [DELIM]);
      r.tx == OutOfOrder(l.tx) && r.up == l.up && r.rx.state == W4Start
  {
    var a := AfterHeader(l, f);
    HeaderRoundTrip(f);
    RecvSettleStep(a, rest + [DELIM]);
    var d := SettleStep(a);
    assert d == l.(tx := OutOfOrder(l.tx), rx := Drop(a.rx)) by {
      hide CrcAll, Header;
    }
    RecvConcat(d, rest, [DELIM]);
    SkipsToDelimiter(d, rest);
    DelimiterWhenIdle(d);
    hide Recv, CrcAll, Header;
  }

  /** The receiver holding header and payload. */
  function AfterPayload(l: Link, f: Frame): Link
    requires FrameOk(f)
  {
    l.(rx := Rx(W4Data, 0, NoEsc, Live(Header(f) + f.payload),
                if f.crc then CrcAll(CRC_INIT, Header(f) + f.payload) else CRC_INIT))
  }

  lemma FeedPayload(l: Link, f: Frame, rest: seq<byte>)
    requires FrameOk(f) && InOrder(l.tx, f) && RxValid(AfterHeader(l, f).rx)
    requires rest != []
    ensures RxValid(AfterPayload(l, f).rx)
    ensures Recv(AfterHeader(l, f), SlipAll(f.payload) + rest) == Recv(AfterPayload(l, f), rest)
  {
    var a := AfterHeader(l, f);
    HeaderRoundTrip(f);
    RecvSettleStep(a, SlipAll(f.payload) + rest);
    var d := SettleStep(a);
    assert d == l.(rx := a.rx.(state := W4Data, count := |f.payload|)) by {
      hide CrcAll, Header;
    }
    RecvConcat(d, SlipAll(f.payload), rest);
    if f.payload != [] {
      FeedAll(d, f.payload);
      PutAllClosed(d.rx, f.payload);
      CrcAllConcat(CRC_INIT, Header(f), f.payload);
      assert (Header(f) + f.payload)[0] == Header(f)[0];
    } else {
      assert Header(f) + f.payload == Header(f);
    }
    hide RxValid, Recv, SlipAll, CrcAll, Header;
  }

  /** The header bytes are those of `f`, so completing acts on its fields. */
  lemma CompletesFrame(l: Link, f: Frame)
    requires FrameOk(f) && InOrder(l.tx, f)
    ensures var c := CompletePkt(l, Header(f) + f.payload);
      c.tx == Receive(l.tx, f) && c.up == l.up + Received(l.tx, f)
      && c.rx == l.rx.(state := W4Delimiter, skb := Null)
  {
    HeaderRoundTrip(f);
    var data := Header(f) + f.payload;
    assert data[0] == Header(f)[0] && data[1] == Header(f)[1];
    assert data[4..] == f.payload;
    hide Header;
  }

  lemma FinishPlain(l: Link, f: Frame)
    requires FrameOk(f) && InOrder(l.tx, f) && !f.crc && RxValid(AfterPayload(l, f).rx)
    ensures var r := Recv(AfterPayload(l, f), [DELIM]);
      r.tx == Receive(l.tx, f) && r.up == l.up + Received(l.tx, f) && r.rx.state == W4Start
  {
    var p := AfterPayload(l, f);
    RecvSettleStep(p, [DELIM]);
    HeaderRoundTrip(f);
    assert SettleStep(p) == CompletePkt(p, Header(f) + f.payload);
    CompletesFrame(p, f);
    DelimiterWhenIdle(SettleStep(p));
    hide RxValid, Recv, SettleStep, Header;
  }

  lemma FinishWithCrc(l: Link, f: Frame)
    requires FrameOk(f) && InOrder(l.tx, f) && f.crc && RxValid(AfterPayload(l, f).rx)
    ensures var r := Recv(AfterPayload(l, f), SlipAll(Trailer(f)) + [DELIM]);
      r.tx == Receive(l.tx, f) && r.up == l.up + Received(l.tx, f) && r.rx.state == W4Start
  {
    var p := AfterPayload(l, f);
    var t := Trailer(f);
    HeaderRoundTrip(f);
    RecvSettleStep(p, SlipAll(t) + [DELIM]);
    var q := SettleStep(p);
    var data := Header(f) + f.payload;
    assert q == p.(rx := p.rx.(state := W4Crc, count := 2)) by {
      hide CrcAll, Header;
    }
    RecvConcat(q, SlipAll(t), [DELIM]);
    FeedAll(q, t);
    PutAllClosed(q.rx, t);
    var c := q.(rx := PutAll(q.rx, t));
    assert c.rx == p.rx.(state := W4Crc, skb := Live(data + t));
    RecvSettleStep(c, [DELIM]);
    CrcMatchesExactly(c.rx.crc, c.rx.crc);
    assert (data + t)[..|data + t| - 2] == data;
    assert (data + t)[|data|] == t[0] && (data + t)[|data| + 1] == t[1];
    assert SettleStep(c) == CompletePkt(c, data) by {
      hide CrcMatches, CrcAll, CrcBytes, Header;
    }
    CompletesFrame(c, f);
    DelimiterWhenIdle(SettleStep(c));
    hide RxValid, Recv, SettleStep, Header, CrcAll, CrcBytes;
  }

  lemma DeliverBody(s: Link, f: Frame)
    requires Idle(s) && s.rx.state == W4Start && FrameOk(f)
    ensures var r := Recv(s, SlipAll(Header(f)) + (SlipAll(f.payload) + (SlipAll(Trailer(f)) + [DELIM])));
      r.rx.state == W4Start && r.tx == Receive(s.tx, f) && r.up == s.up + Received(s.tx, f)
  {
    hide Recv, SlipAll, Header, Complete, PassUp;
    var h, p, t := SlipAll(Header(f)), SlipAll(f.payload), SlipAll(Trailer(f));
    FeedHeader(s, f);
    RecvConcat(s, h, p + (t + [DELIM]));
    if !InOrder(s.tx, f) {
      assert p + (t + [DELIM]) == (p + t) + [DELIM];
      DeliverOutOfOrder(s, f, p + t);
    } else {
      FeedPayload(s, f, t + [DELIM]);
      if f.crc {
        FinishWithCrc(s, f);
      } else {
        assert t + [DELIM] == [DELIM] by {
          SlipAllEmpty(Trailer(f));
        }
        FinishPlain(s, f);
      }
    }
  }

  lemma SlipAllEmpty(bs: seq<byte>)
    requires bs == []
    ensures SlipAll(bs) == []
  {
  }

  /** One encoded frame, arriving at an idle receiver, does exactly what
      `Receive` and `Received` say and leaves it at the start of a frame. */
  lemma DeliverFrame(l: Link, f: Frame)
    requires Idle(l) && FrameOk(f)
    ensures var r := Recv(l, Encode(f));
      Idle(r) && r.rx.state == W4Start
      && r.tx == Receive(l.tx, f) && r.up == l.up + Received(l.tx, f)
  {
    hide Recv, SlipAll, Header, Trailer, Receive, Received;
    var h, p, t := SlipAll(Header(f)), SlipAll(f.payload), SlipAll(Trailer(f));
    SlipAllConcat(Header(f) + f.payload, Trailer(f));
    SlipAllConcat(Header(f), f.payload);
    assert Encode(f) == [DELIM] + (h + (p + (t + [DELIM])));
    DelimiterWhenIdle(l);
    RecvConcat(l, [DELIM], h + (p + (t + [DELIM])));
    DeliverBody(l.(rx := l.rx.(state := W4Start)), f);
  }

  // ---- Streams of prepared packets ----

  /** The frames a sender prepares for a list of packets, one after the other. */
  function PrepareAll(e: Endpoint, ps: seq<Packet>): (fs: seq<Frame>)
    requires Sendable(ps) && e.txseq < 8 && e.rxseqTxack < 8
    ensures forall i :: 0 <= i < |fs| ==> FrameOk(fs[i])
    decreases |ps|
  {
    if ps == [] then []
    else
      var (e', f) := Prepare(e, ps[0]);
      [f.value] + PrepareAll(e', ps[1..])
  }

  function EncodeAll(fs: seq<Frame>): seq<byte>
    requires forall i :: 0 <= i < |fs| ==> FrameOk(fs[i])
  {
    if fs == [] then [] else Encode(fs[0]) + EncodeAll(fs[1..])
  }

  /** The packets meant for the layer above: all but link establishment and
      acknowledgements. */
  function Visible(ps: seq<Packet>): seq<Packet> {
    if ps == [] then []
    else (if ps[0].ptype == H5_LE_PKT || ps[0].ptype == H5_ACK_PKT then [] else [ps[0]]) + Visible(ps[1..])
  }

  /** An in-order prepared packet comes up as itself, or silently. */
  lemma PreparedComesUp(s: Endpoint, p: Packet, r: Endpoint)
    requires Channel(p.ptype).Some? && s.txseq == r.rxseqTxack
    ensures var f := Prepare(s, p).1.value;
      InOrder(r, f) && Received(r, f) == Visible([p])
      && Prepare(s, p).0.txseq == (if f.reliable then (s.txseq + 1) % 8 else s.txseq)
      && Receive(r, f).rxseqTxack == (if f.reliable then (r.rxseqTxack + 1) % 8 else r.rxseqTxack)
  {
    assert [p][1..] == [];
    assert Visible([p]) == (if p.ptype == H5_LE_PKT || p.ptype == H5_ACK_PKT then [] else [p]) + [];
  }

  lemma VisibleFirst(ps: seq<Packet>)
    requires ps != []
    ensures Visible(ps) == Visible([ps[0]]) + Visible(ps[1..])
  {
    assert [ps[0]][1..] == [];
  }

  lemma EncodeAllFirst(s: Endpoint, ps: seq<Packet>)
    requires ps != [] && Sendable(ps) && s.txseq < 8 && s.rxseqTxack < 8
    ensures var (s', of) := Prepare(s, ps[0]);
      && of.Some? && FrameOk(of.value) && s'.txseq < 8 && s'.rxseqTxack < 8 && Sendable(ps[1..])
      && EncodeAll(PrepareAll(s, ps)) == Encode(of.value) + EncodeAll(PrepareAll(s', ps[1..]))
  {
    PrepareFrameOk(s, ps[0]);
    hide Encode, FrameOk, Prepare;
    var (s', of) := Prepare(s, ps[0]);
    var fs := PrepareAll(s', ps[1..]);
    assert PrepareAll(s, ps) == [of.value] + fs;
    assert ([of.value] + fs)[1..] == fs;
  }

  /** The first packet of a list arrives. */
  lemma FirstArrives(l: Link, s: Endpoint, ps: seq<Packet>)
    requires Idle(l) && ps != [] && Sendable(ps) && s.txseq < 8 && s.rxseqTxack < 8
    requires s.txseq == l.tx.rxseqTxack
    ensures var (s', of) := Prepare(s, ps[0]);
      && of.Some? && FrameOk(of.value) && s'.txseq < 8 && s'.rxseqTxack < 8 && Sendable(ps[1..])
      && var l' := Recv(l, Encode(of.value));
         Idle(l') && l'.rx.state == W4Start && l'.up == l.up + Visible([ps[0]]) && s'.txseq == l'.tx.rxseqTxack
  {
    PrepareFrameOk(s, ps[0]);
    assert Channel(ps[0].ptype).Some? && Sendable(ps[1..]);
    hide Prepare, FrameOk, Encode, Recv, Visible, InOrder, Idle, Channel, Receive, Received, Sendable;
    PreparedComesUp(s, ps[0], l.tx);
    var f := Prepare(s, ps[0]).1.value;
    DeliverFrame(l, f);
  }

  /** The round trip: a receiver expecting the sender's next sequence number,
      fed the encodings of any list of packets, passes up exactly their types
      and payloads in order and ends waiting for a frame. */
  lemma {:induction false} StreamRoundTrip(l: Link, s: Endpoint, ps: seq<Packet>)
    requires Idle(l) && l.rx.state == W4Start
    requires Sendable(ps) && s.txseq < 8 && s.rxseqTxack < 8
    requires s.txseq == l.tx.rxseqTxack
    ensures var r := Recv(l, EncodeAll(PrepareAll(s, ps)));
      Idle(r) && r.rx.state == W4Start && r.up == l.up + Visible(ps)
    decreases |ps|
  {
    if ps == [] {
      assert EncodeAll(PrepareAll(s, ps)) == [];
      hide RxValid;
    } else {
      EncodeAllFirst(s, ps);
      FirstArrives(l, s, ps);
      VisibleFirst(ps);
      assert RxValid(l.rx);
      hide Prepare, FrameOk, Encode, Recv, EncodeAll, PrepareAll, Sendable, Visible, Idle;
      var (s', of) := Prepare(s, ps[0]);
      var fs := PrepareAll(s', ps[1..]);
      RecvConcat(l, Encode(of.value), EncodeAll(fs));
      StreamRoundTrip(Recv(l, Encode(of.value)), s', ps[1..]);
      ConcatThree(l.up, Visible([ps[0]]), Visible(ps[1..]));
    }
  }
}
