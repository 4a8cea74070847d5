/** Two endpoints joined by two FIFO lines that may lose any frame.  Every run of
    enqueues, sends, deliveries, losses and timeouts delivers the reliable
    packets in order, each once, and no packet is forgotten by its sender before
    the other side has accepted it. */
module H5Channel {
  import opened Common
  import opened H5Crc
  import opened H5Frame
  import opened H5Endpoint
  import opened H5Receive

  // ---- Runs of one endpoint, whatever bytes arrive ----

  datatype Op = EnqueueOp(p: Packet) | DequeueOp | RecvOp(data: seq<byte>) | TimeoutOp

  function Step(l: Link, op: Op): (r: Link)
    requires RxValid(l.rx)
    ensures RxValid(r.rx)
  {
    match op
    case EnqueueOp(p) => l.(tx := Enqueue(l.tx, p))
    case DequeueOp => l.(tx := Dequeue(l.tx).0)
    case RecvOp(data) => Recv(l, data)
    case TimeoutOp => if l.tx.timer then l.(tx := TimedEvent(l.tx)) else l
  }

  function RunOps(txcrc: bool, ops: seq<Op>): (r: Link)
    ensures RxValid(r.rx)
  {
    if ops == [] then OpenLink(txcrc) else Step(RunOps(txcrc, ops[..|ops| - 1]), ops[|ops| - 1])
  }

  /** A packet enqueued with one of the types given and at most 0xfff bytes. */
  function EnqueuedBy(op: Op, types: set<byte>): seq<Packet> {
    if op.EnqueueOp? && op.p.ptype in types && |op.p.data| <= 0xfff then [op.p] else []
  }

  function EnqueuedOf(ops: seq<Op>, types: set<byte>): seq<Packet> {
    if ops == [] then [] else EnqueuedOf(ops[..|ops| - 1], types) + EnqueuedBy(ops[|ops| - 1], types)
  }

  /** A packet sent from the unreliable queue, with the type its channel says. */
  function UnreliableBy(e: Endpoint, op: Op): seq<Packet> {
    var f := Dequeue(e).1;
    if op.DequeueOp? && e.unrel != [] && f.Some? && f.value.chan < 256
    then [Packet(f.value.chan, f.value.payload)] else []
  }

  function UnreliableSent(txcrc: bool, ops: seq<Op>): seq<Packet> {
    if ops == [] then []
    else
      var before := ops[..|ops| - 1];
      UnreliableSent(txcrc, before) + UnreliableBy(RunOps(txcrc, before).tx, ops[|ops| - 1])
  }

  /** What one step of acting on a complete part does to the sending side. */
  lemma SettleStepTx(l: Link)
    requires RxValid(l.rx) && Pending(l.rx)
    ensures var f := AckFrame(l); var tx := SettleStep(l).tx;
      f.ack < 8 && (tx == l.tx || tx == OutOfOrder(l.tx) || tx == Receive(l.tx, f))
  {
    hide CrcMatches, CrcAll, Cull, CrcUpdate;
  }

  /** A frame with the fields that count for the sending side. */
  ghost function AckFrame(l: Link): Frame
    requires RxValid(l.rx) && Pending(l.rx)
  {
    var data := l.rx.skb.data;
    Frame(IsReliable(data[0]), l.tx.rxseqTxack, AckOf(data[0]), false, 0, [])
  }

  lemma OutOfOrderConserves(e: Endpoint, enqueued: seq<Packet>, acked: nat)
    requires Conserved(e, enqueued, acked)
    ensures Conserved(OutOfOrder(e), enqueued, acked)
  {
  }

  /** Acting on a complete part of a frame removes acknowledged packets only. */
  lemma SettleConserves(l: Link, enqueued: seq<Packet>, acked: nat) returns (acked': nat)
    requires RxValid(l.rx) && Conserved(l.tx, enqueued, acked)
    ensures acked <= acked' && Conserved(Settle(l).tx, enqueued, acked')
    decreases Rank(l.rx)
  {
    acked' := acked;
    if Pending(l.rx) {
      SettleUnfold(l);
      SettleStepValid(l);
      acked' := SettleStepConserves(l, enqueued, acked);
      hide SettleStep, RxValid, Conserved;
      acked' := SettleConserves(SettleStep(l), enqueued, acked');
    }
  }

  lemma SettleStepConserves(l: Link, enqueued: seq<Packet>, acked: nat) returns (acked': nat)
    requires RxValid(l.rx) && Pending(l.rx) && Conserved(l.tx, enqueued, acked)
    ensures acked <= acked' && Conserved(SettleStep(l).tx, enqueued, acked')
  {
    hide SettleStep, RxValid, Conserved, Receive, OutOfOrder, AckFrame, InOrder, CullCount;
    SettleStepTx(l);
    var s, f := SettleStep(l), AckFrame(l);
    ReceiveConserves(l.tx, f, enqueued, acked);
    OutOfOrderConserves(l.tx, enqueued, acked);
    acked' := acked;
    if s.tx == Receive(l.tx, f) && InOrder(l.tx, f) {
      acked' := acked + CullCount(|l.tx.unack|, l.tx.txseq, f.ack);
    }
  }

  lemma {:induction false} RecvConserves(l: Link, data: seq<byte>, enqueued: seq<Packet>, acked: nat) returns (acked': nat)
    requires RxValid(l.rx) && Conserved(l.tx, enqueued, acked)
    ensures acked <= acked' && Conserved(Recv(l, data).tx, enqueued, acked')
    decreases |data|
  {
    hide Conserved, RxValid, Unslip;
    acked' := acked;
    if data != [] {
      acked' := SettleConserves(l, enqueued, acked);
      assert RecvByte(l, data[0]).tx == Settle(l).tx;
      hide RecvByte;
      acked' := RecvConserves(RecvByte(l, data[0]), data[1..], enqueued, acked');
    }
  }

  /** In every reachable state, whatever bytes were received: the receive state
      is well formed, and the enqueued reliable packets are exactly those
      acknowledged, those sent and those waiting, in this order. */
  lemma {:induction false} RunConserves(txcrc: bool, ops: seq<Op>) returns (acked: nat)
    ensures RxValid(RunOps(txcrc, ops).rx)
    ensures Conserved(RunOps(txcrc, ops).tx, EnqueuedOf(ops, {1, 2}), acked)
  {
    if ops == [] {
      acked := 0;
    } else {
      var before, op := ops[..|ops| - 1], ops[|ops| - 1];
      var l, q := RunOps(txcrc, before), EnqueuedOf(before, {1, 2});
      acked := RunConserves(txcrc, before);
      match op
      case EnqueueOp(p) =>
        EnqueueConserves(l.tx, p, q, acked);
        assert q + [] == q;
      case DequeueOp =>
        DequeueConserves(l.tx, q, acked);
        assert q + [] == q;
      case RecvOp(data) =>
        acked := RecvConserves(l, data, q, acked);
        assert q + [] == q;
      case TimeoutOp =>
        TimedEventConserves(l.tx, q, acked);
        assert q + [] == q;
    }
  }

  // ---- The unreliable queue in every run ----

  lemma {:induction false} SettleKeepsUnrel(l: Link)
    requires RxValid(l.rx)
    ensures Settle(l).tx.unrel == l.tx.unrel
    decreases Rank(l.rx)
  {
    if Pending(l.rx) {
      SettleUnfold(l);
      SettleStepValid(l);
      SettleStepTx(l);
      hide SettleStep, RxValid, CullCount;
      SettleKeepsUnrel(SettleStep(l));
    }
  }

  lemma {:induction false} RecvKeepsUnrel(l: Link, data: seq<byte>)
    requires RxValid(l.rx)
    ensures Recv(l, data).tx.unrel == l.tx.unrel
    decreases |data|
  {
    if data != [] {
      hide RxValid, Unslip;
      SettleKeepsUnrel(l);
      assert RecvByte(l, data[0]).tx == Settle(l).tx;
      hide RecvByte;
      RecvKeepsUnrel(RecvByte(l, data[0]), data[1..]);
    }
  }

  /** What a call of `h5_dequeue` does to the unreliable queue. */
  lemma DequeuesUnreliable(e: Endpoint, enq: seq<Packet>, acked: nat)
    requires Conserved(e, enq, acked)
    ensures var (r, f) := Dequeue(e);
      if e.unrel == [] then r.unrel == []
      else f.Some? && !f.value.reliable && f.value.chan == e.unrel[0].ptype && f.value.payload == e.unrel[0].data
           && r.unrel == e.unrel[1..]
  {
    HeadsSendable(e, enq, acked);
    hide Conserved, Prepare;
    if e.unrel != [] {
      PreparedFrame(e.(unrel := e.unrel[1..]), e.unrel[0]);
      PreparedQueues(e.(unrel := e.unrel[1..]), e.unrel[0]);
    } else if e.rel != [] {
      PreparedQueues(e, e.rel[0]);
    }
    PreparedQueues(e, Packet(H5_ACK_PKT, []));
  }

  lemma PreparedQueues(e: Endpoint, p: Packet)
    ensures Prepare(e, p).0.unrel == e.unrel
  {
  }

  /** In every run, whatever bytes arrive: the unreliable packets sent, followed by those
      still waiting, are the SCO, link-establishment, acknowledgement and vendor packets
      enqueued that are not too long, in order. */
  lemma {:induction false} UnreliableConserved(txcrc: bool, ops: seq<Op>)
    ensures UnreliableSent(txcrc, ops) + RunOps(txcrc, ops).tx.unrel == EnqueuedOf(ops, {0, 3, 14, 15})
    decreases |ops|
  {
    if ops != [] {
      hide Step, UnreliableBy, EnqueuedBy;
      var before, op := ops[..|ops| - 1], ops[|ops| - 1];
      UnreliableConserved(txcrc, before);
      var l := RunOps(txcrc, before);
      var acked := RunConserves(txcrc, before);
      StepUnreliable(l, op, EnqueuedOf(before, {1, 2}), acked);
      ConcatThree(UnreliableSent(txcrc, before), UnreliableBy(l.tx, op), Step(l, op).tx.unrel);
      ConcatThree(UnreliableSent(txcrc, before), l.tx.unrel, EnqueuedBy(op, {0, 3, 14, 15}));
    }
  }

  lemma StepUnreliable(l: Link, op: Op, enq: seq<Packet>, acked: nat)
    requires RxValid(l.rx) && Conserved(l.tx, enq, acked)
    ensures UnreliableBy(l.tx, op) + Step(l, op).tx.unrel == l.tx.unrel + EnqueuedBy(op, {0, 3, 14, 15})
  {
    hide Enqueue, Dequeue, RxValid, Recv, TimedEvent, Conserved;
    match op
    case EnqueueOp(p) =>
      EnqueuesUnreliable(l.tx, p);
    case DequeueOp =>
      DequeuesUnreliable(l.tx, enq, acked);
    case RecvOp(data) =>
      RecvKeepsUnrel(l, data);
    case TimeoutOp =>
      TimeoutKeepsUnrel(l.tx);
  }

  lemma EnqueuesUnreliable(e: Endpoint, p: Packet)
    ensures Enqueue(e, p).unrel ==
      if p.ptype in {0, 3, 14, 15} && |p.data| <= 0xfff then e.unrel + [p] else e.unrel
  {
  }

  lemma TimeoutKeepsUnrel(e: Endpoint)
    ensures TimedEvent(e).unrel == e.unrel
  {
  }

  /** From every reachable state one delimiter byte reaches a clean frame start. */
  lemma ReachableSelfSynchronises(txcrc: bool, ops: seq<Op>)
    ensures var r := RunOps(txcrc, ops + [RecvOp([DELIM])]).rx;
      r.state == W4Start && r.count == 0 && !r.skb.Live?
  {
    var l := RunOps(txcrc, ops);
    assert (ops + [RecvOp([DELIM])])[..|ops|] == ops;
    SelfSynchronises(l);
    assert [DELIM][1..] == [];
    hide RecvByte, RxValid;
    assert Recv(l, [DELIM]) == Recv(RecvByte(l, DELIM), []);
  }

  // ---- The two-endpoint system ----

  datatype World = World(
    a: Endpoint, b: Endpoint,
    ab: seq<Frame>, ba: seq<Frame>,        // frames on the lines, oldest first
    enqA: seq<Packet>, enqB: seq<Packet>,  // reliable packets enqueued at each side
    upA: seq<Packet>, upB: seq<Packet>)    // packets passed up at each side

  datatype Side = A | B

  /** Each event happens at the side named: it enqueues, sends the next frame,
      takes the oldest frame off the line towards it, loses the frame at `i` on
      the line it sends on, or its retransmit timer fires. */
  datatype Event = Enq(s: Side, p: Packet) | Send(s: Side) | Deliver(s: Side) | Lose(s: Side, i: nat) | Timeout(s: Side)

  function Start(crcA: bool, crcB: bool): World {
    World(Open(crcA), Open(crcB), [], [], [], [], [], [])
  }

  function Swap(w: World): World {
    World(w.b, w.a, w.ba, w.ab, w.enqB, w.enqA, w.upB, w.upA)
  }

  /** An event at side A; one that is not possible changes nothing. */
  function ApplyA(w: World, ev: Event): World {
    match ev
    case Enq(_, p) =>
      w.(a := Enqueue(w.a, p), enqA := if EnqueuedReliable(p) then w.enqA + [p] else w.enqA)
    case Send(_) =>
      var (a', f) := Dequeue(w.a);
      w.(a := a', ab := if f.Some? then w.ab + [f.value] else w.ab)
    case Deliver(_) =>
      if w.ba == [] then w
      else w.(a := Receive(w.a, w.ba[0]), upA := w.upA + Received(w.a, w.ba[0]), ba := w.ba[1..])
    case Lose(_, i) =>
      if i < |w.ab| then w.(ab := w.ab[..i] + w.ab[i + 1..]) else w
    case Timeout(_) =>
      if w.a.timer then w.(a := TimedEvent(w.a)) else w
  }

  function Apply(w: World, ev: Event): World {
    if ev.s == A then ApplyA(w, ev) else Swap(ApplyA(Swap(w), ev))
  }

  function Run(w: World, evs: seq<Event>): World {
    if evs == [] then w else Apply(Run(w, evs[..|evs| - 1]), evs[|evs| - 1])
  }

  /** The packets of the reliable channels among those passed up. */
  function ReliableOf(ps: seq<Packet>): seq<Packet> {
    if ps == [] then []
    else ReliableOf(ps[..|ps| - 1]) + if IsReliableType(ps[|ps| - 1].ptype) then [ps[|ps| - 1]] else []
  }

  // ---- The invariant of one direction ----

  /** The unbounded numbers behind the three-bit ones: packets acknowledged at
      the sender, packets accepted by the receiver, the index of each frame on
      the data line, the acknowledged count of each frame on the way back. */
  datatype Tags = Tags(acked: nat, got: nat, idx: seq<nat>, ack: seq<nat>)

  ghost predicate DataOk(f: Frame, i: nat, enq: seq<Packet>, acked: nat, got: nat) {
    f.reliable ==>
      && i < |enq| && got <= i + WINDOW && i < acked + WINDOW
      && f.seqno == i % 8
      && PassUp(true, f.chan, f.payload) == [enq[i]]
  }

  ghost predicate AckOk(f: Frame, n: nat, acked: nat, got: nat) {
    acked <= n <= got && f.ack == n % 8
  }

  /** The data line: every frame in its place, and none more than a window
      ahead of a later one. */
  ghost predicate DataLine(data: seq<Frame>, idx: seq<nat>, enq: seq<Packet>, acked: nat, got: nat) {
    && |idx| == |data|
    && (forall p :: 0 <= p < |data| ==> DataOk(data[p], idx[p], enq, acked, got))
    && (forall q, p :: 0 <= q < p < |data| && data[q].reliable && data[p].reliable ==> idx[q] < idx[p] + WINDOW)
  }

  /** The line back: the acknowledgements on it never fall. */
  ghost predicate BackLine(back: seq<Frame>, ack: seq<nat>, acked: nat, got: nat) {
    && |ack| == |back|
    && (forall p :: 0 <= p < |back| ==> AckOk(back[p], ack[p], acked, got))
    && (forall q, p :: 0 <= q < p < |back| ==> ack[q] <= ack[p])
  }

  /** `s` sends to `r` over `data`; `back` is the line the other way. */
  ghost predicate Dir(s: Endpoint, r: Endpoint, data: seq<Frame>, back: seq<Frame>,
                      enq: seq<Packet>, up: seq<Packet>, t: Tags) {
    && Conserved(s, enq, t.acked)
    && t.acked <= t.got <= t.acked + WINDOW && t.got <= |enq|
    && ReliableOf(up) == enq[..t.got]
    && r.rxseqTxack == t.got % 8
    && DataLine(data, t.idx, enq, t.acked, t.got) && BackLine(back, t.ack, t.acked, t.got)
  }

  ghost predicate DirAB(w: World, t: Tags) {
    Dir(w.a, w.b, w.ab, w.ba, w.enqA, w.upB, t)
  }

  ghost predicate Inv(w: World) {
    (exists t :: DirAB(w, t)) && (exists t :: DirAB(Swap(w), t))
  }

  // ---- Each kind of step keeps the direction it sends on ----

  lemma AckExact(f: Frame, s: Endpoint, enq: seq<Packet>, n: nat, acked: nat, got: nat)
    requires Conserved(s, enq, acked) && AckOk(f, n, acked, got) && got <= acked + WINDOW
    ensures var k := CullCount(|s.unack|, s.txseq, f.ack);
      acked + k == if n <= acked + |s.unack| then n else acked
  {
    var top := acked + |s.unack|;
    if n <= top {
      assert (s.txseq - f.ack) % 8 == top - n by {
        ModDiff(top, n, top - n);
      }
    } else {
      assert (s.txseq - f.ack) % 8 == 8 - (n - top) by {
        ModDiff(top, n, 8 - (n - top));
      }
    }
  }

  lemma ModDiff(x: nat, y: nat, d: nat)
    requires d < 8 && (x - y - d) % 8 == 0
    ensures (x % 8 - y % 8) % 8 == d
  {
  }

  lemma SeqExact(i: nat, got: nat)
    requires got <= i + WINDOW && i < got + WINDOW
    ensures i % 8 == got % 8 <==> i == got
  {
  }

  lemma SenderEnqueues(s: Endpoint, r: Endpoint, data: seq<Frame>, back: seq<Frame>,
                       enq: seq<Packet>, up: seq<Packet>, t: Tags, p: Packet)
    requires Dir(s, r, data, back, enq, up, t)
    ensures Dir(Enqueue(s, p), r, data, back, if EnqueuedReliable(p) then enq + [p] else enq, up, t)
  {
    EnqueueConserves(s, p, enq, t.acked);
    var enq' := if EnqueuedReliable(p) then enq + [p] else enq;
    assert enq'[..t.got] == enq[..t.got];
    hide Conserved, BackLine, Enqueue, EnqueuedReliable, ReliableOf;
  }

  lemma DataAppended(data: seq<Frame>, idx: seq<nat>, f: Frame, i: nat, enq: seq<Packet>, acked: nat, got: nat)
    requires DataLine(data, idx, enq, acked, got) && DataOk(f, i, enq, acked, got) && acked <= i
    ensures DataLine(data + [f], idx + [i], enq, acked, got)
  {
    forall p | 0 <= p < |data| && data[p].reliable ensures idx[p] < i + WINDOW {
      assert DataOk(data[p], idx[p], enq, acked, got);
    }
    hide DataOk;
  }

  lemma SenderSends(s: Endpoint, r: Endpoint, data: seq<Frame>, back: seq<Frame>,
                    enq: seq<Packet>, up: seq<Packet>, t: Tags)
    requires Dir(s, r, data, back, enq, up, t)
    ensures var (s', f) := Dequeue(s);
      var data' := if f.Some? then data + [f.value] else data;
      var idx' := if f.Some? then t.idx + [t.acked + |s.unack|] else t.idx;
      Dir(s', r, data', back, enq, up, t.(idx := idx'))
  {
    hide Conserved, Dequeue, DataLine, BackLine, ReliableOf, DataOk;
    DequeueConserves(s, enq, t.acked);
    var (s', f) := Dequeue(s);
    if f.Some? {
      SentInPlace(s, enq, t.acked, t.got);
      DataAppended(data, t.idx, f.value, t.acked + |s.unack|, enq, t.acked, t.got);
    }
  }

  lemma SentInPlace(s: Endpoint, enq: seq<Packet>, acked: nat, got: nat)
    requires Conserved(s, enq, acked) && got <= acked + WINDOW && Dequeue(s).1.Some?
    ensures DataOk(Dequeue(s).1.value, acked + |s.unack|, enq, acked, got)
  {
    hide Conserved, Dequeue;
    if Dequeue(s).1.value.reliable {
      ReliableFrame(s, enq, acked);
    }
  }

  /** A reliable frame sent carries the packet after those outstanding. */
  lemma ReliableFrame(s: Endpoint, enq: seq<Packet>, acked: nat)
    requires Conserved(s, enq, acked)
    requires Dequeue(s).1.Some? && Dequeue(s).1.value.reliable
    ensures var f := Dequeue(s).1.value; var i := acked + |s.unack|;
      && |s.unack| < WINDOW && i < |enq| && f.seqno == i % 8
      && PassUp(true, f.chan, f.payload) == [enq[i]]
  {
    ConservedTypes(s, enq, acked);
    assert s.rel[0] == (s.unack + s.rel)[|s.unack|] == enq[acked + |s.unack|];
  }

  /** Every frame carries the count of packets its sender has accepted. */
  lemma SentAck(e: Endpoint)
    ensures Dequeue(e).1.Some? ==> Dequeue(e).1.value.ack == e.rxseqTxack
    ensures Dequeue(e).0.rxseqTxack == e.rxseqTxack
  {
  }

  lemma ReceiverSends(s: Endpoint, r: Endpoint, data: seq<Frame>, back: seq<Frame>,
                      enq: seq<Packet>, up: seq<Packet>, t: Tags)
    requires Dir(s, r, data, back, enq, up, t)
    ensures var (r', f) := Dequeue(r);
      Dir(s, r', data, if f.Some? then back + [f.value] else back, enq, up,
          t.(ack := if f.Some? then t.ack + [t.got] else t.ack))
  {
    SentAck(r);
    hide Conserved, Dequeue, DataLine, ReliableOf;
  }

  lemma ReliableOfAppend(ps: seq<Packet>, p: Packet)
    ensures ReliableOf(ps + [p]) == ReliableOf(ps) + if IsReliableType(p.ptype) then [p] else []
  {
    assert (ps + [p])[..|ps|] == ps;
  }

  /** Only the count the receiver acknowledges matters to the direction. */
  lemma ReceiverUnmoved(s: Endpoint, r: Endpoint, r': Endpoint, data: seq<Frame>, back: seq<Frame>,
                        enq: seq<Packet>, up: seq<Packet>, t: Tags)
    requires Dir(s, r, data, back, enq, up, t)
    ensures r'.rxseqTxack == r.rxseqTxack ==> Dir(s, r', data, back, enq, up, t)
    ensures forall p :: Enqueue(r, p).rxseqTxack == r.rxseqTxack
    ensures TimedEvent(r).rxseqTxack == r.rxseqTxack
  {
    hide Conserved, DataLine, BackLine, ReliableOf;
  }

  lemma ReceiveCount(r: Endpoint, f: Frame)
    ensures Receive(r, f).rxseqTxack == if f.reliable && InOrder(r, f) then (r.rxseqTxack + 1) % 8 else r.rxseqTxack
  {
    hide CullCount;
  }

  lemma DataAccepted(data: seq<Frame>, idx: seq<nat>, enq: seq<Packet>, acked: nat, got: nat)
    requires data != [] && DataLine(data, idx, enq, acked, got) && data[0].reliable && idx[0] == got
    ensures DataLine(data[1..], idx[1..], enq, acked, got + 1)
  {
    forall p | 0 <= p < |data| - 1 ensures DataOk(data[1..][p], idx[1..][p], enq, acked, got + 1) {
      assert DataOk(data[p + 1], idx[p + 1], enq, acked, got);
    }
    hide DataOk;
  }

  lemma BackAccepted(back: seq<Frame>, ack: seq<nat>, acked: nat, got: nat)
    requires BackLine(back, ack, acked, got)
    ensures BackLine(back, ack, acked, got + 1)
  {
    forall p | 0 <= p < |back| ensures AckOk(back[p], ack[p], acked, got + 1) {
      assert AckOk(back[p], ack[p], acked, got);
    }
  }

  /** A frame the receiver accepts as the next reliable packet. */
  lemma AcceptedFrame(r: Endpoint, f: Frame, i: nat, s: Endpoint, enq: seq<Packet>, acked: nat, got: nat)
    requires Conserved(s, enq, acked) && DataOk(f, i, enq, acked, got) && acked <= got <= acked + WINDOW
    requires f.reliable && InOrder(r, f) && r.rxseqTxack == got % 8
    ensures i == got < |enq| && got + 1 <= acked + WINDOW
    ensures Received(r, f) == [enq[got]] && IsReliableType(enq[got].ptype)
    ensures Receive(r, f).rxseqTxack == (got + 1) % 8
  {
    SeqExact(i, got);
    ReceiveCount(r, f);
    ReliableType(enq, i, s, acked);
    hide Conserved, Receive;
  }

  lemma ReceiverAccepts(s: Endpoint, r: Endpoint, data: seq<Frame>, back: seq<Frame>,
                        enq: seq<Packet>, up: seq<Packet>, t: Tags)
    requires Dir(s, r, data, back, enq, up, t) && data != []
    requires data[0].reliable && InOrder(r, data[0])
    ensures Dir(s, Receive(r, data[0]), data[1..], back, enq, up + Received(r, data[0]),
                t.(got := t.got + 1, idx := t.idx[1..]))
  {
    assert DataOk(data[0], t.idx[0], enq, t.acked, t.got);
    hide Conserved, Receive, Received, InOrder, ReliableOf, DataOk, BackLine;
    AcceptedFrame(r, data[0], t.idx[0], s, enq, t.acked, t.got);
    ReliableOfAppend(up, enq[t.got]);
    assert enq[..t.got + 1] == enq[..t.got] + [enq[t.got]];
    DataAccepted(data, t.idx, enq, t.acked, t.got);
    BackAccepted(back, t.ack, t.acked, t.got);
    hide DataLine;
  }

  /** Any other frame leaves the receiver's count and reliable output alone. */
  lemma ReceiverSkips(s: Endpoint, r: Endpoint, data: seq<Frame>, back: seq<Frame>,
                      enq: seq<Packet>, up: seq<Packet>, t: Tags)
    requires Dir(s, r, data, back, enq, up, t) && data != []
    requires !(data[0].reliable && InOrder(r, data[0]))
    ensures Dir(s, Receive(r, data[0]), data[1..], back, enq, up + Received(r, data[0]), t.(idx := t.idx[1..]))
  {
    var f := data[0];
    ReceiveCount(r, f);
    var got := Received(r, f);
    if got != [] {
      assert got == [got[0]];
      ReliableOfAppend(up, got[0]);
    } else {
      assert up + got == up;
    }
    hide Conserved, Receive, Received, InOrder, DataOk, BackLine, ReliableOf;
  }

  /** What an arriving frame of this line does to the receiver's count. */
  lemma ReceiverTakes(s: Endpoint, r: Endpoint, data: seq<Frame>, back: seq<Frame>,
                      enq: seq<Packet>, up: seq<Packet>, t: Tags) returns (t': Tags)
    requires Dir(s, r, data, back, enq, up, t) && data != []
    ensures Dir(s, Receive(r, data[0]), data[1..], back, enq, up + Received(r, data[0]), t') && t'.acked == t.acked
  {
    if data[0].reliable && InOrder(r, data[0]) {
      ReceiverAccepts(s, r, data, back, enq, up, t);
      t' := t.(got := t.got + 1, idx := t.idx[1..]);
    } else {
      ReceiverSkips(s, r, data, back, enq, up, t);
      t' := t.(idx := t.idx[1..]);
    }
    hide Dir, Receive, Received;
  }

  lemma ReliableType(enq: seq<Packet>, i: nat, s: Endpoint, acked: nat)
    requires Conserved(s, enq, acked) && i < |enq|
    ensures IsReliableType(enq[i].ptype)
  {
    assert EnqueuedReliable(enq[i]);
  }

  lemma DataAcked(data: seq<Frame>, idx: seq<nat>, enq: seq<Packet>, acked: nat, acked': nat, got: nat)
    requires DataLine(data, idx, enq, acked, got) && acked <= acked'
    ensures DataLine(data, idx, enq, acked', got)
  {
    forall p | 0 <= p < |data| ensures DataOk(data[p], idx[p], enq, acked', got) {
      assert DataOk(data[p], idx[p], enq, acked, got);
    }
    hide DataOk;
  }

  lemma BackTaken(back: seq<Frame>, ack: seq<nat>, acked: nat, acked': nat, got: nat)
    requires back != [] && BackLine(back, ack, acked, got) && acked <= acked' <= ack[0]
    ensures BackLine(back[1..], ack[1..], acked', got)
  {
    forall p | 0 <= p < |back| - 1 ensures AckOk(back[1..][p], ack[1..][p], acked', got) {
      assert AckOk(back[p + 1], ack[p + 1], acked, got) && ack[0] <= ack[p + 1];
    }
    hide AckOk;
  }

  /** The count of acknowledged packets after a frame arrives. */
  ghost function NewAcked(s: Endpoint, f: Frame, acked: nat): nat {
    if InOrder(s, f) then acked + CullCount(|s.unack|, s.txseq, f.ack) else acked
  }

  lemma NewAckedConserves(s: Endpoint, f: Frame, enq: seq<Packet>, acked: nat)
    requires Conserved(s, enq, acked) && f.ack < 8
    ensures Conserved(Receive(s, f), enq, NewAcked(s, f, acked))
  {
    hide Conserved, Receive, CullCount, InOrder;
    ReceiveConserves(s, f, enq, acked);
  }

  lemma AckTaken(s: Endpoint, f: Frame, n: nat, enq: seq<Packet>, acked: nat, got: nat)
    requires Conserved(s, enq, acked) && AckOk(f, n, acked, got) && got <= acked + WINDOW
    ensures acked <= NewAcked(s, f, acked) <= n && Conserved(Receive(s, f), enq, NewAcked(s, f, acked))
  {
    NewAckedConserves(s, f, enq, acked);
    hide Conserved, Receive, CullCount, InOrder;
    AckExact(f, s, enq, n, acked, got);
  }

  /** What an arriving frame of the other line does to the sender. */
  lemma SenderTakes(s: Endpoint, r: Endpoint, data: seq<Frame>, back: seq<Frame>,
                    enq: seq<Packet>, up: seq<Packet>, t: Tags) returns (t': Tags)
    requires Dir(s, r, data, back, enq, up, t) && back != []
    ensures Dir(Receive(s, back[0]), r, data, back[1..], enq, up, t') && t.acked <= t'.acked
  {
    var f := back[0];
    assert AckOk(f, t.ack[0], t.acked, t.got);
    assert t.ack[0] <= t.got;
    hide Conserved, Receive, ReliableOf, NewAcked, DataLine, AckOk;
    AckTaken(s, f, t.ack[0], enq, t.acked, t.got);
    var acked' := NewAcked(s, f, t.acked);
    t' := t.(acked := acked', ack := t.ack[1..]);
    DataAcked(data, t.idx, enq, t.acked, acked', t.got);
    BackTaken(back, t.ack, t.acked, acked', t.got);
    hide BackLine;
  }

  function Without<T>(q: seq<T>, i: nat): seq<T>
    requires i < |q|
  {
    q[..i] + q[i + 1..]
  }

  lemma WithoutAt<T>(q: seq<T>, i: nat, p: nat)
    requires i < |q| && p < |q| - 1
    ensures Without(q, i)[p] == q[if p < i then p else p + 1]
  {
  }

  lemma DataLost(s: Endpoint, r: Endpoint, data: seq<Frame>, back: seq<Frame>,
                 enq: seq<Packet>, up: seq<Packet>, t: Tags, i: nat)
    requires Dir(s, r, data, back, enq, up, t) && i < |data|
    ensures i < |t.idx|
    ensures Dir(s, r, Without(data, i), back, enq, up, t.(idx := Without(t.idx, i)))
  {
    hide Conserved;
    forall p | 0 <= p < |data| - 1
      ensures Without(data, i)[p] == data[if p < i then p else p + 1]
           && Without(t.idx, i)[p] == t.idx[if p < i then p else p + 1] {
      WithoutAt(data, i, p);
      WithoutAt(t.idx, i, p);
    }
    hide Without, BackLine, ReliableOf;
  }

  lemma BackLost(s: Endpoint, r: Endpoint, data: seq<Frame>, back: seq<Frame>,
                 enq: seq<Packet>, up: seq<Packet>, t: Tags, i: nat)
    requires Dir(s, r, data, back, enq, up, t) && i < |back|
    ensures i < |t.ack|
    ensures Dir(s, r, data, Without(back, i), enq, up, t.(ack := Without(t.ack, i)))
  {
    hide Conserved;
    forall p | 0 <= p < |back| - 1
      ensures Without(back, i)[p] == back[if p < i then p else p + 1]
           && Without(t.ack, i)[p] == t.ack[if p < i then p else p + 1] {
      WithoutAt(back, i, p);
      WithoutAt(t.ack, i, p);
    }
    hide Without, DataLine, ReliableOf;
  }

  lemma SenderTimesOut(s: Endpoint, r: Endpoint, data: seq<Frame>, back: seq<Frame>,
                       enq: seq<Packet>, up: seq<Packet>, t: Tags)
    requires Dir(s, r, data, back, enq, up, t)
    ensures Dir(TimedEvent(s), r, data, back, enq, up, t)
  {
    TimedEventConserves(s, enq, t.acked);
    hide Conserved, DataLine, BackLine, ReliableOf;
  }

  // ---- Every step keeps both directions ----

  /** The reliable packets side A has been told were received. */
  function Forgotten(w: World): seq<Packet> {
    var left := |w.a.unack| + |w.a.rel|;
    if left <= |w.enqA| then w.enqA[..|w.enqA| - left] else []
  }

  /** An event at side A, seen on the direction A sends on. */
  lemma StepAB(w: World, ev: Event, t: Tags) returns (t': Tags)
    requires DirAB(w, t)
    ensures DirAB(ApplyA(w, ev), t') && t.acked <= t'.acked
  {
    hide Dir, Enqueue, Dequeue, Receive, Received, TimedEvent;
    t' := t;
    match ev
    case Enq(_, p) =>
      SenderEnqueues(w.a, w.b, w.ab, w.ba, w.enqA, w.upB, t, p);
    case Send(_) =>
      SenderSends(w.a, w.b, w.ab, w.ba, w.enqA, w.upB, t);
      t' := t.(idx := if Dequeue(w.a).1.Some? then t.idx + [t.acked + |w.a.unack|] else t.idx);
    case Deliver(_) =>
      if w.ba != [] {
        t' := SenderTakes(w.a, w.b, w.ab, w.ba, w.enqA, w.upB, t);
      }
    case Lose(_, i) =>
      if i < |w.ab| {
        DataLost(w.a, w.b, w.ab, w.ba, w.enqA, w.upB, t, i);
        t' := t.(idx := Without(t.idx, i));
      }
    case Timeout(_) =>
      SenderTimesOut(w.a, w.b, w.ab, w.ba, w.enqA, w.upB, t);
  }

  /** The same event, seen on the direction towards A. */
  lemma StepBA(w: World, ev: Event, t: Tags) returns (t': Tags)
    requires DirAB(Swap(w), t)
    ensures DirAB(Swap(ApplyA(w, ev)), t') && t'.acked == t.acked
  {
    hide Dir, Enqueue, Dequeue, Receive, Received, TimedEvent;
    t' := t;
    match ev
    case Enq(_, p) =>
      ReceiverUnmoved(w.b, w.a, Enqueue(w.a, p), w.ba, w.ab, w.enqB, w.upA, t);
    case Send(_) =>
      ReceiverSends(w.b, w.a, w.ba, w.ab, w.enqB, w.upA, t);
      t' := t.(ack := if Dequeue(w.a).1.Some? then t.ack + [t.got] else t.ack);
    case Deliver(_) =>
      if w.ba != [] {
        t' := ReceiverTakes(w.b, w.a, w.ba, w.ab, w.enqB, w.upA, t);
      }
    case Lose(_, i) =>
      if i < |w.ab| {
        BackLost(w.b, w.a, w.ba, w.ab, w.enqB, w.upA, t, i);
        t' := t.(ack := Without(t.ack, i));
      }
    case Timeout(_) =>
      ReceiverUnmoved(w.b, w.a, TimedEvent(w.a), w.ba, w.ab, w.enqB, w.upA, t);
  }

  lemma ApplyKeepsInv(w: World, ev: Event)
    requires Inv(w)
    ensures Inv(Apply(w, ev))
  {
    hide Inv, Forgotten, ApplyA;
    SwapInv(w);
    StepKeeps(if ev.s == A then w else Swap(w), ev);
    SwapInv(ApplyA(Swap(w), ev));
  }

  lemma SwapInv(w: World)
    ensures Inv(Swap(w)) == Inv(w)
  {
    hide Dir;
    assert Swap(Swap(w)) == w;
  }

  /** An event at side A keeps both directions and takes back no acknowledgement. */
  lemma StepKeeps(w: World, ev: Event)
    requires Inv(w)
    ensures var r := ApplyA(w, ev);
      Inv(r) && Forgotten(w) <= Forgotten(r) && Forgotten(Swap(w)) <= Forgotten(Swap(r))
  {
    hide Dir, Forgotten;
    var t1 :| DirAB(w, t1);
    var t2 :| DirAB(Swap(w), t2);
    var t1' := StepAB(w, ev, t1);
    var t2' := StepBA(w, ev, t2);
    var r := ApplyA(w, ev);
    EnqueuedGrow(w, ev);
    hide ApplyA;
    ForgottenGrows(w, r, t1, t1');
    ForgottenGrows(Swap(w), Swap(r), t2, t2');
  }

  lemma EnqueuedGrow(w: World, ev: Event)
    ensures w.enqA <= ApplyA(w, ev).enqA && w.enqB == ApplyA(w, ev).enqB
  {
    hide Enqueue, Dequeue, Receive, Received, TimedEvent;
  }

  lemma ForgottenGrows(w: World, r: World, t: Tags, t': Tags)
    requires DirAB(w, t) && DirAB(r, t') && t.acked <= t'.acked && w.enqA <= r.enqA
    ensures Forgotten(w) <= Forgotten(r)
  {
    hide Dir;
    ForgottenAre(w, t);
    ForgottenAre(r, t');
    hide Forgotten;
  }

  lemma ForgottenAre(w: World, t: Tags)
    requires DirAB(w, t)
    ensures t.acked <= |w.enqA| && Forgotten(w) == w.enqA[..t.acked]
  {
    assert |w.a.unack + w.a.rel| == |w.enqA| - t.acked;
  }

  lemma StartInv(crcA: bool, crcB: bool)
    ensures Inv(Start(crcA, crcB))
  {
    var w := Start(crcA, crcB);
    assert DirAB(w, Tags(0, 0, [], []));
    assert DirAB(Swap(w), Tags(0, 0, [], []));
  }

  lemma {:induction false} RunKeepsInv(w: World, evs: seq<Event>)
    requires Inv(w)
    ensures Inv(Run(w, evs))
    decreases |evs|
  {
    hide Inv;
    if evs != [] {
      RunKeepsInv(w, evs[..|evs| - 1]);
      ApplyKeepsInv(Run(w, evs[..|evs| - 1]), evs[|evs| - 1]);
    }
  }

  /** Acknowledged packets never come back, at either side, in any run. */
  lemma {:induction false} RunMonotone(w: World, evs: seq<Event>)
    requires Inv(w)
    ensures var r := Run(w, evs);
      Inv(r) && Forgotten(w) <= Forgotten(r) && Forgotten(Swap(w)) <= Forgotten(Swap(r))
    decreases |evs|
  {
    hide Inv, Forgotten, ApplyA;
    if evs != [] {
      var before, ev := evs[..|evs| - 1], evs[|evs| - 1];
      RunMonotone(w, before);
      var x := Run(w, before);
      assert Swap(Swap(x)) == x;
      SwapInv(x);
      var y := if ev.s == A then x else Swap(x);
      StepKeeps(y, ev);
      assert Swap(Swap(ApplyA(y, ev))) == ApplyA(y, ev);
      SwapInv(ApplyA(y, ev));
    }
  }

  /** The guarantee of the reliable channel from A to B: what B has accepted is a
      prefix of what A enqueued; A has forgotten only a prefix of that; and the
      rest is still queued at A, in order. */
  ghost predicate Delivers(w: World) {
    && Forgotten(w) <= ReliableOf(w.upB) <= w.enqA
    && w.enqA == Forgotten(w) + w.a.unack + w.a.rel
    && |w.a.unack| <= WINDOW
  }

  lemma InvDelivers(w: World, t: Tags)
    requires DirAB(w, t)
    ensures Delivers(w)
  {
    assert w.enqA == w.enqA[..t.acked] + w.enqA[t.acked..];
    ForgottenAre(w, t);
  }

  /** Safety of the link, both ways, in every run. */
  lemma RunDelivers(crcA: bool, crcB: bool, evs: seq<Event>)
    ensures Delivers(Run(Start(crcA, crcB), evs)) && Delivers(Swap(Run(Start(crcA, crcB), evs)))
  {
    hide DirAB, Delivers;
    StartInv(crcA, crcB);
    var w := Run(Start(crcA, crcB), evs);
    RunKeepsInv(Start(crcA, crcB), evs);
    var t1 :| DirAB(w, t1);
    var t2 :| DirAB(Swap(w), t2);
    InvDelivers(w, t1);
    InvDelivers(Swap(w), t2);
  }
}
