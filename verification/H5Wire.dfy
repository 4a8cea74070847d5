/** The frame-level system is what the bytes do: every frame that is ever on a
    line can be encoded, and feeding the encoding to the byte parser of an idle
    receiver is the delivery step. */
module H5Wire {
  import opened H5Frame
  import opened H5Endpoint
  import opened H5Receive
  import opened H5RoundTrip
  import opened H5Channel

  ghost predicate LinesOk(w: World) {
    (forall i :: 0 <= i < |w.ab| ==> FrameOk(w.ab[i])) && (forall i :: 0 <= i < |w.ba| ==> FrameOk(w.ba[i]))
  }

  lemma SentFrameOk(w: World, t: Tags)
    requires DirAB(w, t)
    ensures Dequeue(w.a).1.Some? ==> FrameOk(Dequeue(w.a).1.value)
  {
    DequeueConserves(w.a, w.enqA, t.acked);
  }

  lemma ApplyKeepsLines(w: World, ev: Event)
    requires Inv(w) && LinesOk(w)
    ensures LinesOk(Apply(w, ev))
  {
    var x := if ev.s == A then w else Swap(w);
    hide Dir, FrameOk;
    assert Swap(Swap(w)) == w;
    var t :| DirAB(x, t);
    SentFrameOk(x, t);
    hide Enqueue, Dequeue, Receive, Received, TimedEvent;
  }

  lemma {:induction false} RunKeepsLines(crcA: bool, crcB: bool, evs: seq<Event>)
    ensures Inv(Run(Start(crcA, crcB), evs)) && LinesOk(Run(Start(crcA, crcB), evs))
    decreases |evs|
  {
    hide Inv, Apply;
    StartInv(crcA, crcB);
    RunKeepsInv(Start(crcA, crcB), evs);
    if evs != [] {
      var before := evs[..|evs| - 1];
      RunKeepsLines(crcA, crcB, before);
      ApplyKeepsLines(Run(Start(crcA, crcB), before), evs[|evs| - 1]);
    }
  }

  /** Every frame on a line carries a CRC exactly when its sender was opened with the
      switch on, and is reliable exactly on the channels for commands, ACL data and events. */
  ghost predicate AsOpened(w: World, crcA: bool, crcB: bool) {
    && w.a.useCrc == crcA && w.b.useCrc == crcB
    && (forall i :: 0 <= i < |w.ab| ==> SentWith(w.ab[i], crcA))
    && (forall i :: 0 <= i < |w.ba| ==> SentWith(w.ba[i], crcB))
  }

  ghost predicate SentWith(f: Frame, crc: bool) {
    f.crc == crc && f.chan in {0, 1, 2, 3, 4, 14, 15} && (f.reliable <==> f.chan in {1, 2, 4})
  }

  lemma DequeuedWith(e: Endpoint)
    ensures var (r, f) := Dequeue(e); r.useCrc == e.useCrc && (f.Some? ==> SentWith(f.value, e.useCrc))
  {
    if e.unrel != [] {
      PreparedFrame(e.(unrel := e.unrel[1..]), e.unrel[0]);
    }
    if e.rel != [] {
      PreparedFrame(e, e.rel[0]);
    }
    PreparedFrame(e, Packet(H5_ACK_PKT, []));
    hide Channel, IsReliableType;
  }

  lemma SwitchKept(e: Endpoint, p: Packet, f: Frame)
    ensures Enqueue(e, p).useCrc == Receive(e, f).useCrc == TimedEvent(e).useCrc == e.useCrc
  {
    hide CullCount;
  }

  lemma ApplyAsOpened(w: World, ev: Event, crcA: bool, crcB: bool)
    requires AsOpened(w, crcA, crcB)
    ensures AsOpened(ApplyA(w, ev), crcA, crcB)
  {
    DequeuedWith(w.a);
    if ev.Enq? {
      SwitchKept(w.a, ev.p, Frame(false, 0, 0, false, 0, []));
    } else {
      SwitchKept(w.a, Packet(0, []), if w.ba == [] then Frame(false, 0, 0, false, 0, []) else w.ba[0]);
    }
    hide Enqueue, Dequeue, Receive, Received, TimedEvent, SentWith, EnqueuedReliable;
  }

  lemma {:induction false} RunAsOpened(crcA: bool, crcB: bool, evs: seq<Event>)
    ensures AsOpened(Run(Start(crcA, crcB), evs), crcA, crcB)
    decreases |evs|
  {
    if evs != [] {
      var before, ev := evs[..|evs| - 1], evs[|evs| - 1];
      RunAsOpened(crcA, crcB, before);
      var w := Run(Start(crcA, crcB), before);
      hide ApplyA, SentWith;
      if ev.s == A {
        ApplyAsOpened(w, ev, crcA, crcB);
      } else {
        ApplyAsOpened(Swap(w), ev, crcB, crcA);
      }
    }
  }

  /** In every run, a delivery at A is exactly what A's parser makes of the bytes
      of the frame, from any receive state between frames. */
  lemma DeliveryIsRecv(crcA: bool, crcB: bool, evs: seq<Event>, l: Link)
    requires var w := Run(Start(crcA, crcB), evs); w.ba != [] && Idle(l) && l.tx == w.a && l.up == w.upA
    ensures var w := Run(Start(crcA, crcB), evs);
      FrameOk(w.ba[0]) &&
      var r := Recv(l, Encode(w.ba[0])); var w' := Apply(w, Deliver(A));
      r.tx == w'.a && r.up == w'.upA && Idle(r)
  {
    hide Encode, Recv, Receive, Received, Run, Inv;
    RunKeepsLines(crcA, crcB, evs);
    DeliverFrame(l, Run(Start(crcA, crcB), evs).ba[0]);
  }
}
