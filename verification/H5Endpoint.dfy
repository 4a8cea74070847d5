/** One end of the reliable link: the queues, sequence counters and retransmit
    timer of `struct h5_struct`, as pure steps on a value.  Each function is one
    section the driver runs under its locks. */
module H5Endpoint {
  import opened Common
  import opened H5Frame

  const WINDOW := 4  // H5_TXWINSIZE

  datatype Endpoint = Endpoint(
    unack: seq<Packet>,    // sent, not acknowledged
    rel: seq<Packet>,      // reliable, waiting to be sent
    unrel: seq<Packet>,    // unreliable, waiting to be sent
    txseq: nat,            // msgq_txseq
    rxseqTxack: nat,       // next sequence number expected, which is what we acknowledge
    txackReq: bool,
    rxack: nat,
    timer: bool,           // retrans_work is pending
    useCrc: bool)

  /** `h5_open`, with the module's `txcrc` switch. */
  function Open(txcrc: bool): Endpoint {
    Endpoint([], [], [], 0, 0, false, 0, false, txcrc)
  }

  // ---- Sending ----

  predicate IsReliableType(ptype: byte) {
    ptype == HCI_ACLDATA_PKT || ptype == HCI_COMMAND_PKT || ptype == HCI_EVENT_PKT
  }

  /** The channel `h5_prepare_pkt` sends a packet type on; other types are refused. */
  function Channel(ptype: byte): (r: Option<nat>)
    ensures r.Some? ==> r.value < 16
  {
    if ptype == HCI_ACLDATA_PKT then Some(2)
    else if ptype == HCI_COMMAND_PKT then Some(1)
    else if ptype == HCI_EVENT_PKT then Some(4)
    else if ptype == HCI_SCODATA_PKT then Some(3)
    else if ptype == H5_LE_PKT then Some(15)
    else if ptype == H5_ACK_PKT then Some(0)
    else if ptype == H5_VDRSPEC_PKT then Some(14)
    else None
  }

  /** `h5_enqueue`: too long or of an unknown type, the packet is freed. */
  function Enqueue(e: Endpoint, p: Packet): Endpoint {
    if |p.data| > MAX_LEN then e
    else if p.ptype == HCI_ACLDATA_PKT || p.ptype == HCI_COMMAND_PKT then e.(rel := e.rel + [p])
    else if p.ptype == HCI_SCODATA_PKT || p.ptype == H5_LE_PKT || p.ptype == H5_ACK_PKT || p.ptype == H5_VDRSPEC_PKT
    then e.(unrel := e.unrel + [p])
    else e
  }

  /** Whether `h5_enqueue` puts the packet on the reliable queue. */
  predicate EnqueuedReliable(p: Packet) {
    |p.data| <= MAX_LEN && (p.ptype == HCI_ACLDATA_PKT || p.ptype == HCI_COMMAND_PKT)
  }

  /** `h5_prepare_pkt`: the frame for a packet and the counters afterwards, or
      nothing when the type is unknown. */
  function Prepare(e: Endpoint, p: Packet): (r: (Endpoint, Option<Frame>)) {
    match Channel(p.ptype)
    case None => (e, None)
    case Some(chan) =>
      var reliable := IsReliableType(p.ptype);
      (e.(txackReq := false, txseq := if reliable then (e.txseq + 1) % 8 else e.txseq),
       Some(Frame(reliable, if reliable then e.txseq else 0, e.rxseqTxack, e.useCrc, chan, p.data)))
  }

  /** Every packet type goes out on the channel of its own number, reliably exactly for
      commands, ACL data and events, with the sender's CRC switch, its count of packets
      accepted and, if reliable, its next sequence number. */
  lemma PreparedFrame(e: Endpoint, p: Packet)
    ensures var (r, f) := Prepare(e, p);
      && (f.Some? <==> p.ptype in {0, 1, 2, 3, 4, 14, 15})
      && (f.Some? ==>
            && f.value.chan == p.ptype && f.value.payload == p.data
            && f.value.crc == e.useCrc && f.value.ack == e.rxseqTxack
            && (f.value.reliable <==> p.ptype in {1, 2, 4}) && (f.value.reliable ==> f.value.seqno == e.txseq))
  {
  }

  /** The part of `h5_dequeue` below the unreliable queue. */
  function DequeueReliable(e: Endpoint): (Endpoint, Option<Frame>) {
    if |e.unack| < WINDOW && e.rel != [] && Channel(e.rel[0].ptype).Some? then
      var (e', f) := Prepare(e, e.rel[0]);
      (e'.(rel := e.rel[1..], unack := e.unack + [e.rel[0]], timer := true), f)
    else if e.txackReq then
      Prepare(e, Packet(H5_ACK_PKT, []))
    else
      (e, None)
  }

  /** `h5_dequeue`: unreliable packets first, then a reliable one if the window
      has room, then a bare acknowledgement if one is owed. */
  function Dequeue(e: Endpoint): (Endpoint, Option<Frame>) {
    if e.unrel != [] && Channel(e.unrel[0].ptype).Some? then
      Prepare(e.(unrel := e.unrel[1..]), e.unrel[0])
    else
      DequeueReliable(e)
  }

  /** With nothing unreliable waiting and no reliable packet that may go, an owed
      acknowledgement goes out by itself: unreliable, on channel 0, with no payload. */
  lemma BareAcknowledgement(e: Endpoint)
    requires e.unrel == [] && (|e.unack| >= 4 || e.rel == [])
    ensures Dequeue(e).1 == if e.txackReq then Some(Frame(false, 0, e.rxseqTxack, e.useCrc, 0, [])) else None
  {
  }

  // ---- Acknowledgement ----

  /** How many packets `h5_pkt_cull` takes off the head of `unack`. */
  function CullCount(unacked: nat, txseq: nat, rxack: nat): (k: nat)
    ensures k <= unacked
  {
    var d := (txseq - rxack) % 8;
    if d <= unacked then unacked - d else 0
  }

  /** `h5_pkt_cull`. */
  function Cull(e: Endpoint): Endpoint {
    var rest := e.unack[CullCount(|e.unack|, e.txseq, e.rxack)..];
    e.(unack := rest, timer := if rest == [] then false else e.timer)
  }

  /** What the acknowledgement names: the head of `unack` up to, and not
      including, the packet whose sequence number is `rxack`. */
  ghost predicate NamesPrefix(unacked: nat, txseq: nat, rxack: nat, k: nat) {
    k <= unacked && (txseq - unacked + k) % 8 == rxack
  }

  /** `h5_pkt_cull` removes the unique oldest prefix the acknowledgement names,
      and nothing when it names none. */
  lemma CullExact(unacked: nat, txseq: nat, rxack: nat)
    requires unacked <= 7 && txseq < 8 && rxack < 8
    ensures forall k :: NamesPrefix(unacked, txseq, rxack, k) ==> k == CullCount(unacked, txseq, rxack)
    ensures NamesPrefix(unacked, txseq, rxack, CullCount(unacked, txseq, rxack))
            || (CullCount(unacked, txseq, rxack) == 0 && forall k :: !NamesPrefix(unacked, txseq, rxack, k))
  {
    forall k: nat | k <= unacked
      ensures NamesPrefix(unacked, txseq, rxack, k) <==> unacked - k == (txseq - rxack) % 8 {
      Names(txseq, rxack, unacked - k);
    }
  }

  lemma Names(txseq: nat, rxack: nat, behind: nat)
    requires txseq < 8 && rxack < 8 && behind <= 7
    ensures (txseq - behind) % 8 == rxack <==> behind == (txseq - rxack) % 8
  {
  }

  // ---- Receiving a frame ----

  /** The type a packet of this channel is passed up with, or nothing. */
  function PassUpType(reliable: bool, chan: nat): Option<byte> {
    if chan == 2 && reliable then Some(HCI_ACLDATA_PKT)
    else if chan == 4 && reliable then Some(HCI_EVENT_PKT)
    else if chan == 3 then Some(HCI_SCODATA_PKT)
    else if chan == 15 && !reliable then None
    else if chan == 1 && reliable then Some(HCI_COMMAND_PKT)
    else if chan == 14 then Some(H5_VDRSPEC_PKT)
    else None
  }

  function PassUp(reliable: bool, chan: nat, payload: seq<byte>): seq<Packet> {
    match PassUpType(reliable, chan)
    case Some(t) => [Packet(t, payload)]
    case None => []
  }

  /** The counters and queues after `h5_complete_rx_pkt`. */
  function Complete(e: Endpoint, reliable: bool, ack: nat): Endpoint {
    var e1 := if reliable then e.(rxseqTxack := (e.rxseqTxack + 1) % 8, txackReq := true) else e;
    Cull(e1.(rxack := ack))
  }

  /** The out-of-order branch of `h5_recv`. */
  function OutOfOrder(e: Endpoint): Endpoint {
    e.(txackReq := true)
  }

  predicate InOrder(e: Endpoint, f: Frame) {
    f.reliable ==> f.seqno == e.rxseqTxack
  }

  /** What a whole undamaged frame does to the endpoint that receives it. */
  function Receive(e: Endpoint, f: Frame): Endpoint {
    if InOrder(e, f) then Complete(e, f.reliable, f.ack) else OutOfOrder(e)
  }

  /** What it passes up. */
  function Received(e: Endpoint, f: Frame): seq<Packet> {
    if InOrder(e, f) then PassUp(f.reliable, f.chan, f.payload) else []
  }

  /** A packet is passed up with the number of its channel as its type: SCO and vendor
      packets always, commands, ACL data and events when sent reliably, others never. */
  lemma PassedUp(reliable: bool, chan: nat, payload: seq<byte>)
    requires chan < 16
    ensures PassUp(reliable, chan, payload) ==
      if chan in {3, 14} || (reliable && chan in {1, 2, 4}) then [Packet(chan, payload)] else []
  {
  }

  // ---- Timeout ----

  /** `h5_timed_event`: everything unacknowledged goes back to the head of the
      reliable queue and the sequence number is rolled back. */
  function TimedEvent(e: Endpoint): Endpoint {
    e.(rel := e.unack + e.rel, unack := [], txseq := (e.txseq - |e.unack|) % 8, timer := false)
  }

  // ---- What every step of one endpoint keeps ----

  ghost predicate Sendable(q: seq<Packet>) {
    forall i :: 0 <= i < |q| ==> Channel(q[i].ptype).Some? && |q[i].data| <= MAX_LEN
  }

  ghost predicate AllReliable(q: seq<Packet>) {
    forall i :: 0 <= i < |q| ==> EnqueuedReliable(q[i])
  }

  ghost predicate NoneReliable(q: seq<Packet>) {
    forall i :: 0 <= i < |q| ==> !IsReliableType(q[i].ptype)
  }

  /** Against the reliable packets enqueued so far: the first `acked` are gone,
      the rest are in `unack` and `rel` in order; the window holds; the next
      sequence number counts the packets sent; the timer runs exactly while
      something is unacknowledged. */
  ghost predicate Conserved(e: Endpoint, enqueued: seq<Packet>, acked: nat) {
    && acked <= |enqueued|
    && e.unack + e.rel == enqueued[acked..]
    && |e.unack| <= WINDOW
    && e.txseq == (acked + |e.unack|) % 8
    && (e.timer <==> e.unack != [])
    && e.rxseqTxack < 8 && e.rxack < 8
    && AllReliable(enqueued)
    && Sendable(e.unrel) && NoneReliable(e.unrel)
  }

  lemma ConservedTypes(e: Endpoint, enqueued: seq<Packet>, acked: nat)
    requires Conserved(e, enqueued, acked)
    ensures AllReliable(e.rel) && AllReliable(e.unack)
    ensures Sendable(e.rel) && Sendable(e.unack)
  {
    forall i | 0 <= i < |e.unack| ensures EnqueuedReliable(e.unack[i]) {
      assert e.unack[i] == (e.unack + e.rel)[i] == enqueued[acked + i];
    }
    forall i | 0 <= i < |e.rel| ensures EnqueuedReliable(e.rel[i]) {
      assert e.rel[i] == (e.unack + e.rel)[|e.unack| + i] == enqueued[acked + |e.unack| + i];
    }
  }

  lemma EnqueueConserves(e: Endpoint, p: Packet, enqueued: seq<Packet>, acked: nat)
    requires Conserved(e, enqueued, acked)
    ensures Conserved(Enqueue(e, p), if EnqueuedReliable(p) then enqueued + [p] else enqueued, acked)
  {
    if EnqueuedReliable(p) {
      assert (enqueued + [p])[acked..] == enqueued[acked..] + [p];
      assert e.unack + (e.rel + [p]) == (e.unack + e.rel) + [p];
    }
  }

  lemma PrepareFrameOk(e: Endpoint, p: Packet)
    requires Channel(p.ptype).Some? && |p.data| <= MAX_LEN && e.txseq < 8 && e.rxseqTxack < 8
    ensures Prepare(e, p).1.Some? && FrameOk(Prepare(e, p).1.value)
    ensures Prepare(e, p).0 == e.(txackReq := false, txseq := if IsReliableType(p.ptype) then (e.txseq + 1) % 8 else e.txseq)
  {
  }

  lemma SendsReliable(e: Endpoint, e': Endpoint, enqueued: seq<Packet>, acked: nat)
    requires Conserved(e, enqueued, acked) && e.rel != [] && |e.unack| < WINDOW
    requires e' == e.(rel := e.rel[1..], unack := e.unack + [e.rel[0]], timer := true, txackReq := false,
                      txseq := (e.txseq + 1) % 8)
    ensures Conserved(e', enqueued, acked)
  {
    assert (e.unack + [e.rel[0]]) + e.rel[1..] == e.unack + e.rel;
    hide AllReliable, Sendable, NoneReliable;
  }

  lemma SendsUnreliable(e: Endpoint, enqueued: seq<Packet>, acked: nat)
    requires Conserved(e, enqueued, acked)
    ensures Conserved(e.(txackReq := false), enqueued, acked)
    ensures e.unrel != [] ==> Conserved(e.(unrel := e.unrel[1..], txackReq := false), enqueued, acked)
  {
  }

  /** What is at the head of a queue can be sent, with the type its queue is for. */
  lemma HeadsSendable(e: Endpoint, enqueued: seq<Packet>, acked: nat)
    requires Conserved(e, enqueued, acked)
    ensures e.txseq < 8 && e.rxseqTxack < 8
    ensures e.unrel != [] ==>
      Channel(e.unrel[0].ptype).Some? && |e.unrel[0].data| <= MAX_LEN && !IsReliableType(e.unrel[0].ptype)
    ensures e.rel != [] ==>
      Channel(e.rel[0].ptype).Some? && |e.rel[0].data| <= MAX_LEN && IsReliableType(e.rel[0].ptype)
  {
    ConservedTypes(e, enqueued, acked);
    if e.rel != [] {
      assert EnqueuedReliable(e.rel[0]);
    }
  }

  lemma DequeueConserves(e: Endpoint, enqueued: seq<Packet>, acked: nat)
    requires Conserved(e, enqueued, acked)
    ensures Conserved(Dequeue(e).0, enqueued, acked)
    ensures Dequeue(e).1.Some? ==> FrameOk(Dequeue(e).1.value)
  {
    hide Conserved, Prepare, FrameOk;
    HeadsSendable(e, enqueued, acked);
    SendsUnreliable(e, enqueued, acked);
    if e.unrel != [] {
      PrepareFrameOk(e.(unrel := e.unrel[1..]), e.unrel[0]);
    }
    PrepareFrameOk(e, Packet(H5_ACK_PKT, []));
    if e.rel != [] {
      PrepareFrameOk(e, e.rel[0]);
      if |e.unack| < WINDOW {
        SendsReliable(e, Prepare(e, e.rel[0]).0.(rel := e.rel[1..], unack := e.unack + [e.rel[0]], timer := true),
                      enqueued, acked);
      }
    }
  }

  lemma ReceiveConserves(e: Endpoint, f: Frame, enqueued: seq<Packet>, acked: nat)
    requires Conserved(e, enqueued, acked) && f.ack < 8
    ensures Conserved(Receive(e, f), enqueued,
              if InOrder(e, f) then acked + CullCount(|e.unack|, e.txseq, f.ack) else acked)
  {
    var k := CullCount(|e.unack|, e.txseq, f.ack);
    assert e.unack[k..] + e.rel == (e.unack + e.rel)[k..];
    assert enqueued[acked..][k..] == enqueued[acked + k..];
  }

  lemma TimedEventConserves(e: Endpoint, enqueued: seq<Packet>, acked: nat)
    requires Conserved(e, enqueued, acked)
    ensures Conserved(TimedEvent(e), enqueued, acked)
  {
    assert [] + (e.unack + e.rel) == e.unack + e.rel;
  }
}
