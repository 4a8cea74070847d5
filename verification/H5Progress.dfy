/** Progress of the link: what one timeout and one loss-free exchange
    acknowledge, exactly when they do, and that repeating them empties both queues,
    everything accepted, from every reachable state. */
module H5Progress {
  import opened Common
  import opened H5Frame
  import opened H5Endpoint
  import opened H5Channel

  // ---- One side sends all it may, the other takes all of it ----

  function Backlog(e: Endpoint): nat {
    |e.unrel| + |e.rel| + if e.txackReq then 1 else 0
  }

  lemma DequeueShrinks(e: Endpoint)
    ensures Dequeue(e).1.Some? ==> Backlog(Dequeue(e).0) < Backlog(e)
  {
  }

  /** `h5_dequeue` until it has nothing left. */
  function Burst(e: Endpoint): (Endpoint, seq<Frame>)
    decreases Backlog(e)
  {
    DequeueShrinks(e);
    var (e', f) := Dequeue(e);
    if f.None? then (e', [])
    else var (e2, fs) := Burst(e'); (e2, [f.value] + fs)
  }

  function TakeAll(e: Endpoint, fs: seq<Frame>): Endpoint
    decreases |fs|
  {
    if fs == [] then e else TakeAll(Receive(e, fs[0]), fs[1..])
  }

  /** How many reliable packets a burst may send. */
  function Room(e: Endpoint): nat {
    if |e.unack| >= WINDOW then 0
    else if |e.rel| < WINDOW - |e.unack| then |e.rel| else WINDOW - |e.unack|
  }

  // The same on the two-endpoint system, event by event.

  function SendAll(w: World): World
    decreases Backlog(w.a)
  {
    DequeueShrinks(w.a);
    if Dequeue(w.a).1.None? then w else SendAll(Apply(w, Send(A)))
  }

  function DeliverAll(w: World): World
    decreases |w.ba|
  {
    if w.ba == [] then w else DeliverAll(Apply(w, Deliver(A)))
  }

  /** A sends all it may, B takes it and answers with all it may, A takes that. */
  function Exchange(w: World): World {
    DeliverAll(Swap(SendAll(DeliverAll(Swap(SendAll(w))))))
  }

  // ---- What a burst consists of ----

  /** The reliable frames among `fs` carry `n` consecutive sequence numbers from `s`. */
  ghost predicate SeqRun(fs: seq<Frame>, s: nat, n: nat)
    decreases |fs|
  {
    if fs == [] then n == 0
    else if fs[0].reliable then n > 0 && fs[0].seqno == s % 8 && SeqRun(fs[1..], s + 1, n - 1)
    else SeqRun(fs[1..], s, n)
  }

  ghost predicate AllAck(fs: seq<Frame>, n: nat) {
    forall i :: 0 <= i < |fs| ==> fs[i].ack == n
  }

  /** The endpoint after its burst. */
  function AfterBurst(e: Endpoint): Endpoint {
    var n := Room(e);
    e.(unack := e.unack + e.rel[..n], rel := e.rel[n..], unrel := [], txackReq := false,
       txseq := (e.txseq + n) % 8, timer := e.timer || n > 0)
  }

  ghost predicate OnlyReliable(fs: seq<Frame>) {
    forall i :: 0 <= i < |fs| ==> fs[i].reliable
  }

  ghost predicate BurstFrames(e: Endpoint, fs: seq<Frame>) {
    var n := Room(e);
    && SeqRun(fs, e.txseq, n) && AllAck(fs, e.rxseqTxack)
    && (fs == [] <==> e.unrel == [] && n == 0 && !e.txackReq)
    && (fs != [] ==> (!fs[0].reliable <==> e.unrel != [] || n == 0))
    && (e.unrel == [] && n > 0 ==> |fs| == n && OnlyReliable(fs))
  }

  /** The next frame and the endpoint after it, case by case. */
  lemma DequeueCases(e: Endpoint, enq: seq<Packet>, acked: nat)
    requires Conserved(e, enq, acked)
    ensures var (e1, f) := Dequeue(e);
      if e.unrel != [] then
        e1 == e.(unrel := e.unrel[1..], txackReq := false)
        && f.Some? && !f.value.reliable && f.value.ack == e.rxseqTxack
      else if Room(e) > 0 then
        e1 == e.(unack := e.unack + [e.rel[0]], rel := e.rel[1..], txackReq := false,
                 txseq := (e.txseq + 1) % 8, timer := true)
        && f.Some? && f.value.reliable && f.value.seqno == e.txseq && f.value.ack == e.rxseqTxack
      else if e.txackReq then
        e1 == e.(txackReq := false) && f.Some? && !f.value.reliable && f.value.ack == e.rxseqTxack
      else e1 == e && f.None?
  {
    ConservedTypes(e, enq, acked);
  }

  lemma SeqRunMod(fs: seq<Frame>, s: nat, s': nat, n: nat)
    requires SeqRun(fs, s, n) && s % 8 == s' % 8
    ensures SeqRun(fs, s', n)
    decreases |fs|
  {
    if fs != [] {
      if fs[0].reliable {
        SeqRunMod(fs[1..], s + 1, s' + 1, n - 1);
      } else {
        SeqRunMod(fs[1..], s, s', n);
      }
    }
  }

  lemma UnreliableFirst(e: Endpoint, e1: Endpoint, f: Frame, fs: seq<Frame>)
    requires !f.reliable && f.ack == e.rxseqTxack && (e.unrel != [] || (Room(e) == 0 && e.txackReq))
    requires e1 == e.(unrel := e1.unrel, txackReq := e1.txackReq)
    requires BurstFrames(e1, fs)
    ensures AfterBurst(e1) == AfterBurst(e)
    ensures BurstFrames(e, [f] + fs)
  {
    assert ([f] + fs)[1..] == fs;
  }

  lemma ReliableFirst(e: Endpoint, e1: Endpoint, f: Frame, fs: seq<Frame>)
    requires f.reliable && f.seqno == e.txseq && e.txseq < 8 && f.ack == e.rxseqTxack
    requires e.unrel == [] && Room(e) > 0
    requires e1 == e.(unack := e.unack + [e.rel[0]], rel := e.rel[1..], txackReq := false,
                      txseq := (e.txseq + 1) % 8, timer := true)
    requires BurstFrames(e1, fs)
    ensures AfterBurst(e1) == AfterBurst(e)
    ensures BurstFrames(e, [f] + fs)
  {
    var n := Room(e);
    RoomAfter(e, e1);
    SameAfter(e, e1);
    hide AfterBurst;
    SeqRunMod(fs, e1.txseq, e.txseq + 1, n - 1);
    OneMoreFrame(f, fs, e.txseq, n, e.rxseqTxack);
    hide SeqRun, AllAck, Room, OnlyReliable;
  }

  lemma SameAfter(e: Endpoint, e1: Endpoint)
    requires e.unrel == [] && Room(e) > 0
    requires e1 == e.(unack := e.unack + [e.rel[0]], rel := e.rel[1..], txackReq := false,
                      txseq := (e.txseq + 1) % 8, timer := true)
    ensures AfterBurst(e1) == AfterBurst(e)
  {
    RoomAfter(e, e1);
    MovesToUnack(e.unack, e.rel, Room(e));
    hide Room;
  }

  lemma RoomAfter(e: Endpoint, e1: Endpoint)
    requires Room(e) > 0 && e1.rel == e.rel[1..] && |e1.unack| == |e.unack| + 1
    ensures Room(e1) == Room(e) - 1 && Room(e) <= |e.rel|
  {
  }

  lemma MovesToUnack(unack: seq<Packet>, rel: seq<Packet>, n: nat)
    requires 0 < n <= |rel|
    ensures (unack + [rel[0]]) + rel[1..][..n - 1] == unack + rel[..n]
    ensures rel[1..][n - 1..] == rel[n..]
  {
    assert rel[..n] == [rel[0]] + rel[1..][..n - 1];
  }

  lemma OneMoreFrame(f: Frame, fs: seq<Frame>, s: nat, n: nat, ack: nat)
    requires f.reliable && f.seqno == s && s < 8 && f.ack == ack && n > 0
    requires SeqRun(fs, s + 1, n - 1) && AllAck(fs, ack)
    ensures SeqRun([f] + fs, s, n) && AllAck([f] + fs, ack)
    ensures fs == [] || OnlyReliable(fs) ==> OnlyReliable([f] + fs)
  {
    assert ([f] + fs)[1..] == fs;
  }

  lemma {:induction false} BurstShape(e: Endpoint, enq: seq<Packet>, acked: nat)
    requires Conserved(e, enq, acked)
    ensures Burst(e).0 == AfterBurst(e) && BurstFrames(e, Burst(e).1) && Conserved(Burst(e).0, enq, acked)
    decreases Backlog(e)
  {
    DequeueConserves(e, enq, acked);
    DequeueCases(e, enq, acked);
    DequeueShrinks(e);
    BurstUnfold(e);
    assert e.txseq < 8;
    hide Conserved, Dequeue, Burst;
    var (e1, f) := Dequeue(e);
    if f.Some? {
      BurstShape(e1, enq, acked);
      hide AfterBurst, BurstFrames;
      if f.value.reliable {
        ReliableFirst(e, e1, f.value, Burst(e1).1);
      } else {
        UnreliableFirst(e, e1, f.value, Burst(e1).1);
      }
    } else {
      assert e.rel[..0] == [] && e.unack + [] == e.unack;
    }
  }

  /** All four places of the window get used, in order. */
  lemma SendsUpToFour(e: Endpoint, enq: seq<Packet>, acked: nat)
    requires Conserved(e, enq, acked)
    ensures var r, n := Burst(e).0, |e.unack| + |e.rel|;
      |r.unack| == (if n < 4 then n else 4) && r.unack + r.rel == e.unack + e.rel && r.unrel == []
  {
    BurstShape(e, enq, acked);
    assert |e.unack| <= WINDOW;
    hide Burst, Conserved, BurstFrames;
    ConcatThree(e.unack, e.rel[..Room(e)], e.rel[Room(e)..]);
    assert e.rel[..Room(e)] + e.rel[Room(e)..] == e.rel;
  }

  lemma BurstUnfold(e: Endpoint)
    ensures var (e1, f) := Dequeue(e);
      Burst(e) == if f.None? then (e1, []) else (Burst(e1).0, [f.value] + Burst(e1).1)
  {
    hide Dequeue;
    DequeueShrinks(e);
  }

  // ---- Taking a burst ----

  lemma {:induction false} TakeKeeps(e: Endpoint, fs: seq<Frame>)
    ensures var r := TakeAll(e, fs);
      r.rel == e.rel && r.unrel == e.unrel && r.txseq == e.txseq
      && |r.unack| <= |e.unack| && (e.txackReq ==> r.txackReq)
    decreases |fs|
  {
    if fs != [] {
      TakeKeeps(Receive(e, fs[0]), fs[1..]);
    }
  }

  /** The receiver, wherever in the run it already was, ends just past it. */
  lemma {:induction false} CatchesUp(r: Endpoint, fs: seq<Frame>, base: nat, n: nat, got: nat)
    requires SeqRun(fs, base, n) && n <= WINDOW
    requires base <= got <= base + n && r.rxseqTxack == got % 8
    ensures var r' := TakeAll(r, fs);
      r'.rxseqTxack == (base + n) % 8 && (n > 0 ==> r'.txackReq)
    decreases |fs|
  {
    if fs != [] {
      var f := fs[0];
      ReceiveCount(r, f);
      if f.reliable {
        SeqExact(base, got);
        CatchesUp(Receive(r, f), fs[1..], base + 1, n - 1, if got == base then got + 1 else got);
        TakeKeeps(Receive(r, f), fs[1..]);
        assert Receive(r, f).txackReq by {
          hide CullCount;
        }
      } else {
        CatchesUp(Receive(r, f), fs[1..], base, n, got);
      }
    }
  }

  /** Some frame of the burst is not refused as out of order. */
  ghost predicate Heard(r: Endpoint, fs: seq<Frame>) {
    exists i :: 0 <= i < |fs| && InOrder(r, fs[i])
  }

  /** Frames that acknowledge everything sent empty the sender's queue exactly
      when one of them is in order. */
  lemma {:induction false} HearsAck(s: Endpoint, fs: seq<Frame>)
    requires AllAck(fs, s.txseq) && s.txseq < 8
    ensures var s' := TakeAll(s, fs);
      s'.unack == (if Heard(s, fs) then [] else s.unack)
      && (!Heard(s, fs) ==> s'.rxseqTxack == s.rxseqTxack && (fs != [] ==> s'.txackReq))
    decreases |fs|
  {
    if fs != [] {
      var s1 := Receive(s, fs[0]);
      assert AllAck(fs[1..], s1.txseq);
      HearsAck(s1, fs[1..]);
      if InOrder(s, fs[0]) {
        assert CullCount(|s.unack|, s.txseq, s.txseq) == |s.unack|;
        assert s1.unack == [];
      } else {
        assert s1 == OutOfOrder(s);
        TakeKeeps(s1, fs[1..]);
        HeardLater(s, fs);
      }
    }
  }

  lemma {:induction false} SeqRunAt(fs: seq<Frame>, s: nat, n: nat, i: nat)
    requires SeqRun(fs, s, n) && |fs| == n && i < n
    requires OnlyReliable(fs)
    ensures fs[i].seqno == (s + i) % 8
    decreases i
  {
    if i > 0 {
      SeqRunAt(fs[1..], s + 1, n - 1, i - 1);
    }
  }

  /** Whether the answer of an endpoint that owes an acknowledgement gets
      through to a peer expecting sequence number `x`: it sends unreliable data
      or a bare acknowledgement, or the reliable packets it may send include the
      one expected. */
  predicate AnswerHeard(b: Endpoint, x: nat) {
    b.unrel != [] || Room(b) == 0 || (x - b.txseq) % 8 < Room(b)
  }

  lemma Ahead(x: nat, base: nat, i: nat)
    requires x < 8 && base < 8 && i < 8
    ensures (base + i) % 8 == x <==> (x - base) % 8 == i
  {
  }

  lemma AnswerHeardExact(b: Endpoint, fs: seq<Frame>, a: Endpoint)
    requires BurstFrames(b, fs) && (b.txackReq || Room(b) > 0) && a.rxseqTxack < 8 && b.txseq < 8
    ensures Heard(a, fs) <==> AnswerHeard(b, a.rxseqTxack)
  {
    var n, x := Room(b), a.rxseqTxack;
    hide Room, SeqRun, AllAck;
    RoomBounded(b);
    if b.unrel != [] || n == 0 {
      assert InOrder(a, fs[0]);
    } else {
      forall i | 0 <= i < n ensures InOrder(a, fs[i]) <==> (x - b.txseq) % 8 == i {
        SeqRunAt(fs, b.txseq, n, i);
        Ahead(x, b.txseq, i);
      }
      if (x - b.txseq) % 8 < n {
        assert InOrder(a, fs[(x - b.txseq) % 8]);
      }
    }
  }

  lemma RoomBounded(e: Endpoint)
    ensures Room(e) <= WINDOW && Room(e) <= |e.rel|
  {
  }

  // ---- The system functions in terms of bursts ----

  lemma {:induction false} SendAllIsBurst(w: World)
    ensures SendAll(w) == w.(a := Burst(w.a).0, ab := w.ab + Burst(w.a).1)
    decreases Backlog(w.a)
  {
    hide Dequeue;
    DequeueShrinks(w.a);
    var (a', f) := Dequeue(w.a);
    if f.Some? {
      SendAllIsBurst(Apply(w, Send(A)));
      ConcatThree(w.ab, [f.value], Burst(a').1);
    } else {
      NothingToSend(w.a);
      assert w.ab + [] == w.ab;
    }
  }

  lemma NothingToSend(e: Endpoint)
    ensures Dequeue(e).1.None? ==> Dequeue(e).0 == e
  {
  }

  lemma {:induction false} DeliverAllIsTake(w: World)
    ensures var r := DeliverAll(w);
      r == w.(a := TakeAll(w.a, w.ba), ba := [], upA := r.upA)
    decreases |w.ba|
  {
    hide Receive, Received;
    if w.ba != [] {
      DeliverAllIsTake(Apply(w, Deliver(A)));
    }
  }

  /** The endpoints after an exchange over empty lines. */
  lemma ExchangeShape(w: World)
    requires w.ab == [] && w.ba == []
    ensures var (a1, fa) := Burst(w.a);
      var b1 := TakeAll(w.b, fa);
      var (b2, fb) := Burst(b1);
      var r := Exchange(w);
      r.a == TakeAll(a1, fb) && r.b == b2 && r.ab == [] && r.ba == []
      && r.enqA == w.enqA && r.enqB == w.enqB
  {
    hide Burst, TakeAll, SendAll, DeliverAll;
    HalfShape(w);
    HalfShape(DeliverAll(Swap(SendAll(w))));
  }

  /** One half: A sends all it may and B takes it. */
  lemma HalfShape(w: World)
    requires w.ab == [] && w.ba == []
    ensures var r := DeliverAll(Swap(SendAll(w)));
      r.a == TakeAll(w.b, Burst(w.a).1) && r.b == Burst(w.a).0 && r.ab == [] && r.ba == []
      && r.enqA == w.enqB && r.enqB == w.enqA
  {
    hide Burst, TakeAll, SendAll, DeliverAll;
    SendAllIsBurst(w);
    DeliverAllIsTake(Swap(SendAll(w)));
    assert [] + Burst(w.a).1 == Burst(w.a).1;
  }

  // ---- An exchange is a run ----

  /** Nothing is enqueued and nothing is lost. */
  ghost predicate NoLoss(evs: seq<Event>) {
    forall ev :: ev in evs ==> !ev.Enq? && !ev.Lose?
  }

  lemma {:induction false} RunConcat(w: World, x: seq<Event>, y: seq<Event>)
    ensures Run(w, x + y) == Run(Run(w, x), y)
    decreases |y|
  {
    hide Apply;
    if y == [] {
      assert x + y == x;
    } else {
      var last := |y| - 1;
      assert (x + y)[..|x + y| - 1] == x + y[..last];
      RunConcat(w, x, y[..last]);
    }
  }

  lemma RunOne(w: World, ev: Event)
    ensures Run(w, [ev]) == Apply(w, ev)
  {
    hide Apply;
    assert [ev][..0] == [];
    assert Run(w, [ev]) == Apply(Run(w, []), ev);
  }

  lemma {:induction false} SendAllIsRun(w: World) returns (evs: seq<Event>)
    ensures Run(w, evs) == SendAll(w) && NoLoss(evs)
    decreases Backlog(w.a)
  {
    hide Dequeue, Apply, ApplyA;
    DequeueShrinks(w.a);
    evs := [];
    if Dequeue(w.a).1.Some? {
      SendShrinks(w);
      var rest := SendAllIsRun(Apply(w, Send(A)));
      RunOne(w, Send(A));
      RunConcat(w, [Send(A)], rest);
      evs := [Send(A)] + rest;
    }
  }

  lemma SendShrinks(w: World)
    ensures Dequeue(w.a).1.Some? ==> Backlog(Apply(w, Send(A)).a) < Backlog(w.a)
  {
    hide Dequeue;
    DequeueShrinks(w.a);
  }

  lemma {:induction false} DeliverAllIsRun(w: World) returns (evs: seq<Event>)
    ensures Run(w, evs) == DeliverAll(w) && NoLoss(evs)
    decreases |w.ba|
  {
    hide Receive, Received;
    evs := [];
    if w.ba != [] {
      var rest := DeliverAllIsRun(Apply(w, Deliver(A)));
      RunOne(w, Deliver(A));
      RunConcat(w, [Deliver(A)], rest);
      evs := [Deliver(A)] + rest;
    }
  }

  function Mirror(evs: seq<Event>): seq<Event> {
    if evs == [] then []
    else
      var ev := evs[|evs| - 1];
      Mirror(evs[..|evs| - 1]) + [match ev
                                  case Enq(s, p) => Enq(if s == A then B else A, p)
                                  case Send(s) => Send(if s == A then B else A)
                                  case Deliver(s) => Deliver(if s == A then B else A)
                                  case Lose(s, i) => Lose(if s == A then B else A, i)
                                  case Timeout(s) => Timeout(if s == A then B else A)]
  }

  lemma {:induction false} MirrorRuns(w: World, evs: seq<Event>)
    ensures Run(Swap(w), Mirror(evs)) == Swap(Run(w, evs))
    decreases |evs|
  {
    hide Enqueue, Dequeue, Receive, Received, TimedEvent;
    if evs != [] {
      var before := evs[..|evs| - 1];
      MirrorRuns(w, before);
      var m := Mirror(evs);
      assert m[..|m| - 1] == Mirror(before);
      var x := Run(w, before);
      assert Swap(Swap(x)) == x;
      assert Run(Swap(w), m) == Apply(Swap(x), m[|m| - 1]);
    }
  }

  lemma {:induction false} MirrorNoLoss(evs: seq<Event>)
    requires NoLoss(evs)
    ensures NoLoss(Mirror(evs))
    decreases |evs|
  {
    if evs != [] {
      assert evs[|evs| - 1] in evs;
      MirrorNoLoss(evs[..|evs| - 1]);
    }
  }

  /** Every exchange is a run of sends and deliveries. */
  lemma ExchangeIsRun(w: World) returns (evs: seq<Event>)
    ensures Run(w, evs) == Exchange(w) && NoLoss(evs)
  {
    hide SendAll, DeliverAll, Run, Mirror;
    var e1 := SendAllIsRun(w);
    var w1 := SendAll(w);
    var e2 := DeliverAllIsRun(Swap(w1));
    var w2 := DeliverAll(Swap(w1));
    var e3 := SendAllIsRun(w2);
    var w3 := SendAll(w2);
    RunConcat(Swap(w1), e2, e3);
    MirrorRuns(Swap(w1), e2 + e3);
    MirrorNoLoss(e2 + e3);
    assert Swap(Swap(w1)) == w1;
    var e4 := DeliverAllIsRun(Swap(w3));
    RunConcat(w, e1, Mirror(e2 + e3));
    RunConcat(w, e1 + Mirror(e2 + e3), e4);
    evs := e1 + Mirror(e2 + e3) + e4;
  }

  lemma ExchangeKeepsInv(w: World)
    requires Inv(w)
    ensures Inv(Exchange(w))
  {
    hide Inv, Exchange;
    var evs := ExchangeIsRun(w);
    RunKeepsInv(w, evs);
  }

  // ---- Progress ----

  function Outstanding(w: World): nat {
    |w.a.unack| + |w.a.rel|
  }

  function Min(x: nat, y: nat): nat {
    if x < y then x else y
  }

  /** Side B as it is when, during an exchange, it comes to answer. */
  function Answering(w: World): Endpoint {
    TakeAll(w.b, Burst(w.a).1)
  }

  /** Conservation and the two counters of a reachable state. */
  ghost predicate Between(w: World, acked: nat, got: nat) {
    && Conserved(w.a, w.enqA, acked)
    && w.b.rxseqTxack == got % 8 && w.a.rxseqTxack < 8
    && acked <= got <= acked + WINDOW && got <= |w.enqA|
    && |Forgotten(w)| == acked
  }

  lemma InvBetween(w: World) returns (acked: nat, got: nat)
    requires Inv(w)
    ensures Between(w, acked, got)
  {
    hide Dir;
    var t :| DirAB(w, t);
    DirBetween(w, t);
    acked, got := t.acked, t.got;
  }

  lemma DirBetween(w: World, t: Tags)
    requires DirAB(w, t)
    ensures Between(w, t.acked, t.got)
  {
    assert |w.a.unack + w.a.rel| == |w.enqA| - t.acked;
  }

  /** B's own conservation survives what it takes from the line. */
  lemma {:induction false} TakeConserves(e: Endpoint, fs: seq<Frame>, enq: seq<Packet>, acked: nat) returns (acked': nat)
    requires Conserved(e, enq, acked) && AckedBelow(fs)
    ensures acked <= acked' && Conserved(TakeAll(e, fs), enq, acked')
    decreases |fs|
  {
    hide Conserved, Receive, CullCount;
    acked' := acked;
    if fs != [] {
      ReceiveConserves(e, fs[0], enq, acked);
      acked' := if InOrder(e, fs[0]) then acked + CullCount(|e.unack|, e.txseq, fs[0].ack) else acked;
      acked' := TakeConserves(Receive(e, fs[0]), fs[1..], enq, acked');
    }
  }

  /** One loss-free exchange after A has rolled back: everything in A's window
      reaches B, and then all of it is acknowledged or none is, according to
      whether B's answer is heard. */
  lemma ExchangeFromBase(w: World, acked: nat, got: nat)
    requires Between(w, acked, got) && Conserved(w.b, w.enqB, |Forgotten(Swap(w))|)
    requires w.ab == [] && w.ba == [] && w.a.unack == [] && w.a.rel != []
    ensures var r := Exchange(w); var m := Min(WINDOW, Outstanding(w));
      && |Forgotten(r)| == (if AnswerHeard(Answering(w), w.a.rxseqTxack) then acked + m else acked)
      && Answering(w).txackReq
      && r.b == Burst(Answering(w)).0
      && (!AnswerHeard(Answering(w), w.a.rxseqTxack) ==>
            r.a == Burst(w.a).0.(txackReq := true))
  {
    var (a1, fa) := Burst(w.a);
    var b1 := Answering(w);
    BaseBurst(w, acked, got);
    assert AckedBelow(fa) by {
      hide Burst, Conserved, TakeAll;
    }
    var ackedB := TakeConserves(w.b, fa, w.enqB, |Forgotten(Swap(w))|);
    hide Burst, TakeAll, Exchange, Conserved;
    AnswerOutcome(a1, b1, w.enqB, ackedB);
    ExchangeShape(w);
    hide AfterBurst, AnswerHeard;
    assert Outstanding(w) == |w.a.rel| && |w.enqA| == acked + |w.a.rel| by {
      BetweenCounts(w, acked, got);
    }
  }

  lemma BetweenCounts(w: World, acked: nat, got: nat)
    requires Between(w, acked, got)
    ensures |w.enqA| == acked + |w.a.unack| + |w.a.rel|
  {
    assert |w.a.unack + w.a.rel| == |w.enqA| - acked;
  }

  /** The second half: `b` answers `a`, acknowledging all that `a` has sent. */
  lemma AnswerOutcome(a: Endpoint, b: Endpoint, enqB: seq<Packet>, ackedB: nat)
    requires Conserved(b, enqB, ackedB) && (b.txackReq || Room(b) > 0)
    requires b.rxseqTxack == a.txseq < 8 && a.rxseqTxack < 8
    ensures var a2 := TakeAll(a, Burst(b).1);
      && a2.rel == a.rel
      && (if AnswerHeard(b, a.rxseqTxack) then a2.unack == [] else a2 == OutOfOrder(a))
  {
    BurstShape(b, enqB, ackedB);
    assert b.txseq < 8;
    hide Burst, Conserved;
    var fb := Burst(b).1;
    AnswerHeardExact(b, fb, a);
    HearsAck(a, fb);
    TakeKeeps(a, fb);
    if !Heard(a, fb) {
      NotHeard(a, fb);
    }
    hide TakeAll, SeqRun, Heard, AnswerHeard;
  }

  ghost predicate AckedBelow(fs: seq<Frame>) {
    forall i :: 0 <= i < |fs| ==> fs[i].ack < 8
  }

  /** The first half of that exchange. */
  lemma BaseBurst(w: World, acked: nat, got: nat)
    requires Between(w, acked, got) && w.a.unack == [] && w.a.rel != []
    ensures var (a1, fa) := Burst(w.a); var m := Min(WINDOW, Outstanding(w));
      && a1 == AfterBurst(w.a) && Room(w.a) == m && |a1.unack| == m && |a1.rel| == |w.a.rel| - m
      && a1.txseq == (acked + m) % 8
      && AllAck(fa, w.a.rxseqTxack)
      && Answering(w).rxseqTxack == (acked + m) % 8 && Answering(w).txackReq
      && (Answering(w).rel == w.b.rel && Answering(w).unrel == w.b.unrel && Answering(w).txseq == w.b.txseq)
  {
    var m := Min(WINDOW, Outstanding(w));
    BurstShape(w.a, w.enqA, acked);
    var fa := Burst(w.a).1;
    assert w.a.txseq == acked % 8;
    assert got <= acked + m;
    hide Burst, Conserved, TakeAll;
    SeqRunMod(fa, w.a.txseq, acked, m);
    CatchesUp(w.b, fa, acked, m, got);
    TakeKeeps(w.b, fa);
  }

  /** A burst no frame of which is in order only makes an acknowledgement owed. */
  lemma {:induction false} NotHeard(s: Endpoint, fs: seq<Frame>)
    requires !Heard(s, fs)
    ensures TakeAll(s, fs) == if fs == [] then s else OutOfOrder(s)
    decreases |fs|
  {
    if fs != [] {
      assert !InOrder(s, fs[0]);
      assert !Heard(OutOfOrder(s), fs[1..]) by {
        forall i | 0 <= i < |fs| - 1 ensures !InOrder(OutOfOrder(s), fs[1..][i]) {
          assert !InOrder(s, fs[i + 1]);
        }
      }
      NotHeard(OutOfOrder(s), fs[1..]);
    }
  }

  /** `Between` in both directions. */
  ghost predicate Both(w: World, acked: nat, got: nat, acked2: nat, got2: nat) {
    Between(w, acked, got) && Between(Swap(w), acked2, got2)
  }

  lemma InvBoth(w: World) returns (acked: nat, got: nat, acked2: nat, got2: nat)
    requires Inv(w)
    ensures Both(w, acked, got, acked2, got2)
  {
    hide Dir;
    acked, got := InvBetween(w);
    SwapInv(w);
    acked2, got2 := InvBetween(Swap(w));
    hide Between;
  }

  lemma TimeoutBase(w: World, acked: nat, got: nat)
    requires Between(w, acked, got)
    ensures var r := Apply(w, Timeout(A));
      r == w.(a := r.a) && r.a.unack == [] && r.a.rel == w.a.unack + w.a.rel
      && Forgotten(r) == Forgotten(w) && Outstanding(r) == Outstanding(w)
      && r.a.rxseqTxack == w.a.rxseqTxack && r.a.unrel == w.a.unrel
  {
    assert [] + w.a.rel == w.a.rel;
  }

  /** Whether B's answer will be heard, told from both ends before anything is
      sent: first whether A's burst is heard, so that B culls what A acknowledges,
      and then whether what B may send next is what A expects. */
  predicate Answered(a: Endpoint, b: Endpoint) {
    var b' := if AnswerHeard(a, b.rxseqTxack) then Cull(b.(rxack := a.rxseqTxack)) else b;
    AnswerHeard(b', a.rxseqTxack)
  }

  lemma CullTwice(unacked: nat, txseq: nat, ack: nat)
    ensures CullCount(unacked - CullCount(unacked, txseq, ack), txseq, ack) == 0
  {
  }

  /** Frames that all carry one acknowledgement act on the sent packets once, at
      the first of them that is in order. */
  lemma {:induction false} TakeUnack(b: Endpoint, fs: seq<Frame>, n: nat)
    requires AllAck(fs, n)
    ensures TakeAll(b, fs).unack == if Heard(b, fs) then b.unack[CullCount(|b.unack|, b.txseq, n)..] else b.unack
    decreases |fs|
  {
    if fs != [] {
      var b1 := Receive(b, fs[0]);
      assert AllAck(fs[1..], n);
      TakeUnack(b1, fs[1..], n);
      if InOrder(b, fs[0]) {
        CullTwice(|b.unack|, b.txseq, n);
        assert b1.unack[0..] == b1.unack;
      } else {
        HeardLater(b, fs);
      }
      hide CullCount, TakeAll;
    }
  }

  lemma HeardLater(s: Endpoint, fs: seq<Frame>)
    requires fs != [] && !InOrder(s, fs[0])
    ensures Heard(s, fs) <==> Heard(OutOfOrder(s), fs[1..])
  {
    var s1 := OutOfOrder(s);
    if Heard(s, fs) {
      var i :| 0 <= i < |fs| && InOrder(s, fs[i]);
      assert InOrder(s1, fs[1..][i - 1]);
    }
    if Heard(s1, fs[1..]) {
      var i :| 0 <= i < |fs| - 1 && InOrder(s1, fs[1..][i]);
      assert InOrder(s, fs[i + 1]);
    }
  }

  lemma SameAnswer(b: Endpoint, b': Endpoint, x: nat)
    requires b'.unrel == b.unrel && b'.rel == b.rel && b'.txseq == b.txseq && |b'.unack| == |b.unack|
    ensures AnswerHeard(b', x) == AnswerHeard(b, x)
  {
  }

  lemma AnsweredIsHeard(w: World, acked: nat, got: nat)
    requires Between(w, acked, got) && w.a.unack == [] && w.a.rel != []
    ensures Answered(w.a, w.b) == AnswerHeard(Answering(w), w.a.rxseqTxack)
  {
    var fa, x := Burst(w.a).1, w.a.rxseqTxack;
    BurstShape(w.a, w.enqA, acked);
    BaseBurst(w, acked, got);
    assert Room(w.a) > 0 && w.a.txseq < 8 && w.b.rxseqTxack < 8;
    hide Burst, TakeAll, BurstFrames, Between, Conserved, AnswerHeard, CullCount, Room;
    AnswerHeardExact(w.a, fa, w.b);
    TakeUnack(w.b, fa, x);
    TakeKeeps(w.b, fa);
    var b' := if AnswerHeard(w.a, w.b.rxseqTxack) then Cull(w.b.(rxack := x)) else w.b;
    SameAnswer(b', Answering(w), x);
  }

  /** Progress, exactly: in every reachable state with empty lines and packets
      outstanding at A, one timeout at A and one loss-free exchange acknowledge
      min(4, outstanding) packets if B's answer is heard, and none if not. */
  lemma ProgressExactly(w: World)
    requires Inv(w) && w.ab == [] && w.ba == [] && Outstanding(w) > 0
    ensures |Forgotten(Exchange(Apply(w, Timeout(A))))| == |Forgotten(w)| +
      if Answered(TimedEvent(w.a), w.b) then Min(WINDOW, Outstanding(w)) else 0
  {
    hide Inv, Exchange, AnswerHeard, Conserved, Answering, Answered;
    var acked0, got0, x, y := InvBoth(w);
    RollsBack(w, acked0, got0);
    hide Apply, TimedEvent;
    TimeoutBase(w, acked0, got0);
    ApplyKeepsInv(w, Timeout(A));
    var w1 := Apply(w, Timeout(A));
    var acked, got, acked2, got2 := InvBoth(w1);
    AnsweredIsHeard(w1, acked, got);
    ProgressByAnswer(w);
  }

  lemma RollsBack(w: World, acked: nat, got: nat)
    requires Between(w, acked, got)
    ensures Apply(w, Timeout(A)) == w.(a := TimedEvent(w.a))
  {
    assert [] + w.a.rel == w.a.rel;
  }

  /** The same, in terms of B as it comes to answer. */
  lemma ProgressByAnswer(w: World)
    requires Inv(w) && w.ab == [] && w.ba == [] && Outstanding(w) > 0
    ensures var w1 := Apply(w, Timeout(A));
      |Forgotten(Exchange(w1))| == |Forgotten(w)| +
        if AnswerHeard(Answering(w1), w.a.rxseqTxack) then Min(WINDOW, Outstanding(w)) else 0
  {
    hide Inv, Exchange, AnswerHeard, Conserved, Answering, Apply;
    var acked0, got0, x, y := InvBoth(w);
    TimeoutBase(w, acked0, got0);
    ApplyKeepsInv(w, Timeout(A));
    var w1 := Apply(w, Timeout(A));
    var acked, got, acked2, got2 := InvBoth(w1);
    ExchangeFromBase(w1, acked, got);
  }

  lemma QuietIsHeard(a: Endpoint, b: Endpoint)
    requires b.rel == [] || b.unrel != []
    ensures Answered(a, b)
  {
    hide CullCount;
  }

  /** In particular when B has no reliable packet waiting to be sent, or some
      unreliable one: then its first answer cannot be out of order. */
  lemma ProgressWhenPeerQuiet(w: World)
    requires Inv(w) && w.ab == [] && w.ba == []
    requires w.b.rel == [] || w.b.unrel != []
    ensures |Forgotten(Exchange(Apply(w, Timeout(A))))| >= |Forgotten(w)| + Min(WINDOW, Outstanding(w))
  {
    hide Inv, Exchange, Conserved, Apply;
    var acked, got, x, y := InvBoth(w);
    TimeoutBase(w, acked, got);
    var w1 := Apply(w, Timeout(A));
    if Outstanding(w) > 0 {
      ProgressExactly(w);
      QuietIsHeard(TimedEvent(w.a), w.b);
      hide Answered;
    } else {
      ApplyKeepsInv(w, Timeout(A));
      ExchangeMonotone(w1);
    }
  }

  /** An exchange never takes an acknowledgement back. */
  lemma ExchangeMonotone(w: World)
    requires Inv(w)
    ensures Forgotten(w) <= Forgotten(Exchange(w)) && Forgotten(Swap(w)) <= Forgotten(Swap(Exchange(w)))
  {
    hide Inv, Exchange, Run, Forgotten;
    var evs := ExchangeIsRun(w);
    RunMonotone(w, evs);
  }

  lemma ConservedRange(e: Endpoint, enq: seq<Packet>, acked: nat)
    requires Conserved(e, enq, acked)
    ensures e.rxseqTxack < 8 && e.txseq < 8
  {
  }

  /** Both sides have one packet sent and lost, and B has one more to send. */
  function Stuck(crcA: bool, crcB: bool, p: Packet, q: Packet, r: Packet): World {
    World(Endpoint([r], [], [], 1, 0, false, 0, true, crcA),
          Endpoint([p], [q], [], 1, 0, false, 0, true, crcB), [], [], [r], [p, q], [], [])
  }

  function StuckEvents(p: Packet, q: Packet, r: Packet): seq<Event> {
    [Enq(B, p), Send(B), Lose(B, 0), Enq(B, q), Enq(A, r), Send(A), Lose(A, 0)]
  }

  lemma StuckIsReachable(crcA: bool, crcB: bool, p: Packet, q: Packet, r: Packet)
    requires EnqueuedReliable(p) && EnqueuedReliable(q) && EnqueuedReliable(r)
    ensures Run(Start(crcA, crcB), StuckEvents(p, q, r)) == Stuck(crcA, crcB, p, q, r)
  {
    hide Run, Apply, Mirror, EnqueuedReliable;
    var s := Start(crcA, crcB);
    var atB := [Enq(B, p), Send(B), Lose(B, 0), Enq(B, q)];
    var atA := [Enq(A, r), Send(A), Lose(A, 0)];
    var mirrored := [Enq(A, p), Send(A), Lose(A, 0), Enq(A, q)];
    OneLost(Swap(s), p);
    var w1 := Run(Swap(s), [Enq(A, p), Send(A), Lose(A, 0)]);
    RunStep(Swap(s), [Enq(A, p), Send(A), Lose(A, 0)], Enq(A, q));
    OneMore(w1, q);
    assert [Enq(A, p), Send(A), Lose(A, 0)] + [Enq(A, q)] == mirrored;
    MirrorRuns(Swap(s), mirrored);
    MirrorFour(p, q);
    assert Swap(Swap(s)) == s;
    OneLost(Run(s, atB), r);
    RunConcat(s, atB, atA);
    assert StuckEvents(p, q, r) == atB + atA;
  }

  lemma MirrorFour(p: Packet, q: Packet)
    ensures Mirror([Enq(A, p), Send(A), Lose(A, 0), Enq(A, q)]) == [Enq(B, p), Send(B), Lose(B, 0), Enq(B, q)]
  {
    var evs := [Enq(A, p), Send(A), Lose(A, 0), Enq(A, q)];
    assert evs[..3] == [Enq(A, p), Send(A), Lose(A, 0)];
    assert evs[..3][..2] == [Enq(A, p), Send(A)];
    assert [Enq(A, p), Send(A)][..1] == [Enq(A, p)];
    assert [Enq(A, p)][..0] == [];
    assert Mirror([Enq(A, p)]) == [Enq(B, p)];
    assert Mirror([Enq(A, p), Send(A)]) == [Enq(B, p), Send(B)];
    assert Mirror(evs[..3]) == [Enq(B, p), Send(B), Lose(B, 0)];
  }

  lemma OneMore(w: World, q: Packet)
    requires EnqueuedReliable(q)
    ensures Apply(w, Enq(A, q)) == w.(a := w.a.(rel := w.a.rel + [q]), enqA := w.enqA + [q])
  {
  }

  lemma SendsFirst(w: World, r: Packet)
    requires EnqueuedReliable(r) && w.a == Open(w.a.useCrc).(rel := [r])
    ensures Apply(w, Send(A)) ==
      w.(a := Endpoint([r], [], [], 1, 0, false, 0, true, w.a.useCrc), ab := w.ab + [Prepare(w.a, r).1.value])
  {
  }

  lemma LosesOnly(w: World)
    requires |w.ab| == 1
    ensures Apply(w, Lose(A, 0)) == w.(ab := [])
  {
  }

  /** A fresh side sends one packet, which is lost. */
  lemma OneLost(w: World, r: Packet)
    requires EnqueuedReliable(r) && w.a == Open(w.a.useCrc) && w.ab == [] && w.enqA == []
    ensures Run(w, [Enq(A, r), Send(A), Lose(A, 0)]) ==
            w.(a := Endpoint([r], [], [], 1, 0, false, 0, true, w.a.useCrc), enqA := [r])
  {
    hide Run, Apply, EnqueuedReliable;
    OneMore(w, r);
    var w1 := Apply(w, Enq(A, r));
    assert [] + [r] == [r];
    SendsFirst(w1, r);
    LosesOnly(Apply(w1, Send(A)));
    RunOne(w, Enq(A, r));
    RunStep(w, [Enq(A, r)], Send(A));
    RunStep(w, [Enq(A, r), Send(A)], Lose(A, 0));
    assert [Enq(A, r)] + [Send(A)] == [Enq(A, r), Send(A)];
    assert [Enq(A, r), Send(A)] + [Lose(A, 0)] == [Enq(A, r), Send(A), Lose(A, 0)];
  }

  lemma RunStep(w: World, evs: seq<Event>, ev: Event)
    ensures Run(w, evs + [ev]) == Apply(Run(w, evs), ev)
  {
    hide Apply;
    assert (evs + [ev])[..|evs|] == evs;
  }

  /** Progress can fail: B's only answer is the packet after the one it lost,
      which A refuses together with the acknowledgement it carries. */
  lemma ProgressCanFail(crcA: bool, crcB: bool, p: Packet, q: Packet, r: Packet)
    requires EnqueuedReliable(p) && EnqueuedReliable(q) && EnqueuedReliable(r)
    ensures var w := Run(Start(crcA, crcB), StuckEvents(p, q, r));
      && Inv(w) && w.ab == [] && w.ba == [] && Outstanding(w) == 1
      && |Forgotten(Exchange(Apply(w, Timeout(A))))| == |Forgotten(w)|
  {
    hide Inv, Exchange, Run, Apply, Answered, TimedEvent, EnqueuedReliable;
    StuckIsReachable(crcA, crcB, p, q, r);
    StartInv(crcA, crcB);
    RunKeepsInv(Start(crcA, crcB), StuckEvents(p, q, r));
    var w := Stuck(crcA, crcB, p, q, r);
    ProgressExactly(w);
    StuckAnswer(crcA, crcB, p, q, r);
  }

  lemma StuckAnswer(crcA: bool, crcB: bool, p: Packet, q: Packet, r: Packet)
    ensures var w := Stuck(crcA, crcB, p, q, r); !Answered(TimedEvent(w.a), w.b)
  {
    assert CullCount(1, 1, 0) == 0;
  }

  /** The second exchange after both sides timed out and the first was not
      heard: A's bare acknowledgement frees B's window, and B's next packets are
      in order, so they are heard. */
  lemma SecondExchange(w: World)
    requires Inv(w) && w.ab == [] && w.ba == []
    requires w.a.unrel == [] && Room(w.a) == 0 && w.a.txackReq
    requires w.b.unrel == [] && w.b.rel != [] && w.b.txseq == w.a.rxseqTxack && w.b.rxseqTxack == w.a.txseq
    ensures |Forgotten(Exchange(w))| == |Forgotten(w)| + |w.a.unack|
  {
    hide Inv, Exchange, Burst, Heard, SeqRun, TakeAll;
    var acked, got, acked2, got2 := InvBoth(w);
    assert w.a.txseq < 8 && w.b.txseq < 8 && w.a.rxseqTxack < 8;
    assert Conserved(w.b, w.enqB, acked2) && Conserved(w.a, w.enqA, acked);
    hide Conserved;
    BareAnswer(w.a, w.enqA, acked);
    var (a1, fa) := Burst(w.a);
    var b1 := Answering(w);
    FreesWindow(w.b, fa, w.a.txseq);
    var acked2' := TakeConserves(w.b, fa, w.enqB, acked2);
    AnswerOutcome(a1, b1, w.enqB, acked2');
    ExchangeShape(w);
    BetweenCounts(w, acked, got);
    hide Both, Between, AckedBelow;
  }

  /** A burst with no room for reliable packets. */
  lemma BareAnswer(e: Endpoint, enq: seq<Packet>, acked: nat)
    requires Conserved(e, enq, acked) && e.unrel == [] && Room(e) == 0 && e.txackReq
    ensures var (e1, fs) := Burst(e);
      && e1.unack == e.unack && e1.rel == e.rel && e1.txseq == e.txseq && e1.rxseqTxack == e.rxseqTxack
      && fs != [] && !fs[0].reliable && SeqRun(fs, e.txseq, 0) && AllAck(fs, e.rxseqTxack) && AckedBelow(fs)
  {
    BurstShape(e, enq, acked);
    assert e.rxseqTxack < 8 && e.txseq < 8;
    hide Burst, Conserved, SeqRun;
    assert e.rel[..0] == [] && e.unack + [] == e.unack;
  }

  /** It acknowledges all that `b` has sent, and moves none of b's counters. */
  lemma FreesWindow(b: Endpoint, fs: seq<Frame>, s: nat)
    requires fs != [] && !fs[0].reliable && SeqRun(fs, s, 0) && AllAck(fs, b.txseq)
    requires b.txseq < 8 && b.rxseqTxack < 8
    ensures var r := TakeAll(b, fs);
      && r.unack == [] && r.rel == b.rel && r.unrel == b.unrel
      && r.txseq == b.txseq && r.rxseqTxack == b.rxseqTxack
  {
    assert InOrder(b, fs[0]);
    assert Heard(b, fs);
    HearsAck(b, fs);
    TakeKeeps(b, fs);
    NoReliable(fs, s, b.rxseqTxack);
    CatchesUp(b, fs, b.rxseqTxack, 0, b.rxseqTxack);
    hide TakeAll, SeqRun;
  }

  lemma NoReliable(fs: seq<Frame>, s: nat, s': nat)
    requires SeqRun(fs, s, 0)
    ensures SeqRun(fs, s', 0)
    decreases |fs|
  {
    if fs != [] {
      NoReliable(fs[1..], s, s');
    }
  }

  /** Where an unheard first exchange leaves the two sides, once both have rolled
      back: A owes an acknowledgement and has no room; B awaits exactly what A
      acknowledges and has sent all its window. */
  lemma UnheardLeaves(w: World, acked: nat, got: nat, acked2: nat, got2: nat)
    requires Both(w, acked, got, acked2, got2) && w.ab == [] && w.ba == []
    requires w.a.unack == [] && w.a.rel != [] && w.b.unack == []
    requires !AnswerHeard(Answering(w), w.a.rxseqTxack)
    ensures var r := Exchange(w);
      && r.a.unrel == [] && Room(r.a) == 0 && r.a.txackReq
      && |r.a.unack| == Min(WINDOW, Outstanding(w))
      && r.b.unrel == [] && r.b.txseq == r.a.rxseqTxack && r.b.rxseqTxack == r.a.txseq
      && |Forgotten(r)| == acked && r.ab == [] && r.ba == []
  {
    ExchangeFromBase(w, acked, got);
    BaseBurst(w, acked, got);
    var b1 := Answering(w);
    UnheardPeer(w, acked, got, acked2, got2);
    hide Exchange, Burst, Answering, Conserved, AnswerHeard, Between, Both;
    LinesEmpty(w);
  }

  /** B in that case: everything A expects is already past what B may send. */
  lemma UnheardPeer(w: World, acked: nat, got: nat, acked2: nat, got2: nat)
    requires Both(w, acked, got, acked2, got2)
    requires w.a.unack == [] && w.a.rel != [] && w.b.unack == []
    requires !AnswerHeard(Answering(w), w.a.rxseqTxack)
    ensures var b2 := Burst(Answering(w)).0;
      b2.unrel == [] && b2.txseq == w.a.rxseqTxack && b2.rxseqTxack == Answering(w).rxseqTxack
  {
    AnsweringConserved(w, acked, got, acked2);
    PeerCounts(w, acked2, got2);
    hide Both, Between, Answering, Burst, AnswerHeard, Conserved, Room;
    var b1 := Answering(w);
    RoomFromBase(b1);
    UnheardSends(b1, w.enqB, acked2, w.a.rxseqTxack);
    PastRoom(b1.txseq, w.a.rxseqTxack, acked2, got2, Room(b1));
  }

  lemma RoomFromBase(e: Endpoint)
    requires e.unack == []
    ensures Room(e) == Min(WINDOW, |e.rel|)
  {
  }

  /** What B has sent and A has accepted, B having rolled back. */
  lemma PeerCounts(w: World, acked2: nat, got2: nat)
    requires Between(Swap(w), acked2, got2) && w.b.unack == []
    ensures w.b.txseq == acked2 % 8 && w.a.rxseqTxack == got2 % 8
    ensures acked2 <= got2 <= acked2 + Min(WINDOW, |w.b.rel|)
  {
    BetweenCounts(Swap(w), acked2, got2);
  }

  lemma AnsweringConserved(w: World, acked: nat, got: nat, acked2: nat)
    requires Between(w, acked, got) && Conserved(w.b, w.enqB, acked2)
    requires w.a.unack == [] && w.a.rel != [] && w.b.unack == []
    ensures var b1 := Answering(w);
      b1.unack == [] && b1.rel == w.b.rel && b1.txseq == w.b.txseq && Conserved(b1, w.enqB, acked2)
  {
    var b1, fa := Answering(w), Burst(w.a).1;
    BaseBurst(w, acked, got);
    TakeKeeps(w.b, fa);
    ConservedRange(w.a, w.enqA, acked);
    hide Burst, TakeAll, Between;
    var acked2' := TakeConserves(w.b, fa, w.enqB, acked2);
    SameRest(w.b, b1, w.enqB, acked2, acked2');
  }

  /** With nothing sent and the same packets waiting, nothing was acknowledged. */
  lemma SameRest(e: Endpoint, e': Endpoint, enq: seq<Packet>, acked: nat, acked': nat)
    requires Conserved(e, enq, acked) && Conserved(e', enq, acked')
    requires e.unack == [] && e'.unack == [] && e.rel == e'.rel
    ensures acked' == acked
  {
    assert [] + e.rel == e.rel;
  }

  lemma UnheardSends(b: Endpoint, enq: seq<Packet>, acked: nat, x: nat)
    requires Conserved(b, enq, acked) && !AnswerHeard(b, x)
    ensures var b2 := Burst(b).0;
      && b2.unrel == [] && b2.txseq == (b.txseq + Room(b)) % 8 && b2.rxseqTxack == b.rxseqTxack
      && (x - b.txseq) % 8 >= Room(b)
  {
    BurstShape(b, enq, acked);
    hide Burst, Conserved, BurstFrames;
  }

  lemma PastRoom(txseq: nat, x: nat, acked: nat, got: nat, room: nat)
    requires txseq == acked % 8 && x == got % 8
    requires acked <= got <= acked + room && room <= WINDOW && (x - txseq) % 8 >= room
    ensures x == (txseq + room) % 8
  {
    ModDiff(got, acked, got - acked);
    Ahead(x, txseq, room);
  }

  /** Timeouts at both sides, two exchanges, a timeout at A and one more exchange. */
  function Recovery(w: World): World {
    var w1 := Apply(Apply(w, Timeout(A)), Timeout(B));
    var w3 := Exchange(Exchange(w1));
    Exchange(Apply(w3, Timeout(A)))
  }

  /** Whatever happened before, once the lines are empty, one recovery acknowledges
      at least min(4, outstanding) of A's packets: the link never locks up. */
  lemma AlwaysProgresses(w: World)
    requires Inv(w) && w.ab == [] && w.ba == []
    ensures |Forgotten(Recovery(w))| >= |Forgotten(w)| + Min(WINDOW, Outstanding(w))
  {
    hide Inv, Exchange, Apply, AnswerHeard, Answering, Room, Conserved, Forgotten;
    var w1 := BothTimeOut(w);
    var w2 := Exchange(w1);
    var w3 := Exchange(w2);
    var w3' := Apply(w3, Timeout(A));
    LinesEmpty(w1);
    LinesEmpty(w2);
    ExchangeKeepsInv(w1);
    ExchangeKeepsInv(w2);
    ExchangeMonotone(w2);
    ApplyKeepsInv(w3, Timeout(A));
    var a3, g3, x3, y3 := InvBoth(w3);
    TimeoutBase(w3, a3, g3);
    ExchangeMonotone(w3');
    var acked, got, acked2, got2 := InvBoth(w1);
    if Outstanding(w) > 0 {
      if AnswerHeard(Answering(w1), w1.a.rxseqTxack) {
        ExchangeFromBase(w1, acked, got);
      } else {
        UnheardLeaves(w1, acked, got, acked2, got2);
        if w2.b.rel != [] {
          SecondExchange(w2);
        } else {
          QuietStaysQuiet(w2);
          ProgressWhenPeerQuiet(w3);
          BetweenCounts(w3, a3, g3);
          BetweenCounts(w1, acked, got);
          ExchangeEnqueues(w1);
          ExchangeEnqueues(w2);
        }
      }
    } else {
      ExchangeMonotone(w1);
    }
  }

  lemma BothTimeOut(w: World) returns (w1: World)
    requires Inv(w) && w.ab == [] && w.ba == []
    ensures w1 == Apply(Apply(w, Timeout(A)), Timeout(B)) && Inv(w1) && w1.ab == [] && w1.ba == []
    ensures w1.a.unack == [] && w1.b.unack == [] && Forgotten(w1) == Forgotten(w)
    ensures Outstanding(w1) == Outstanding(w) && |w1.a.rel| == Outstanding(w)
  {
    hide Inv;
    var acked, got, acked2, got2 := InvBoth(w);
    TimeoutBase(w, acked, got);
    var x := Apply(w, Timeout(A));
    ApplyKeepsInv(w, Timeout(A));
    ApplyKeepsInv(x, Timeout(B));
    w1 := Apply(x, Timeout(B));
    acked, got, acked2, got2 := InvBoth(x);
    TimeoutBase(Swap(x), acked2, got2);
  }

  lemma LinesEmpty(w: World)
    requires w.ab == [] && w.ba == []
    ensures Exchange(w).ab == [] && Exchange(w).ba == []
  {
    hide Exchange;
    ExchangeShape(w);
  }

  lemma ExchangeEnqueues(w: World)
    requires w.ab == [] && w.ba == []
    ensures Exchange(w).enqA == w.enqA
  {
    hide Exchange;
    ExchangeShape(w);
  }

  lemma QuietStaysQuiet(w: World)
    requires Inv(w) && w.ab == [] && w.ba == [] && w.b.rel == []
    ensures Exchange(w).b.rel == []
  {
    hide Inv, Exchange;
    ExchangeShape(w);
    var acked, got, acked2, got2 := InvBoth(w);
    var fa := Burst(w.a).1;
    BurstShape(w.a, w.enqA, acked);
    assert w.a.rxseqTxack < 8;
    TakeKeeps(w.b, fa);
    assert AckedBelow(fa) by {
      hide Burst, Conserved;
    }
    var acked2' := TakeConserves(w.b, fa, w.enqB, acked2);
    BurstShape(TakeAll(w.b, fa), w.enqB, acked2');
    hide Burst, TakeAll;
  }

  // ---- Everything arrives ----

  function Recoveries(w: World, n: nat): World
    decreases n
  {
    if n == 0 then w else Recoveries(Recovery(w), n - 1)
  }

  /** What is still on the lines arrives. */
  function Arrived(w: World): World {
    Swap(DeliverAll(Swap(DeliverAll(w))))
  }

  /** The lines run empty, then `n` recoveries for A's packets and `k` for B's. */
  function Drained(w: World, n: nat, k: nat): World {
    Swap(Recoveries(Swap(Recoveries(Arrived(w), n)), k))
  }

  /** A later state of the same packets: nothing is enqueued or taken back. */
  ghost predicate Onward(w: World, r: World) {
    && Inv(r) && r.enqA == w.enqA && r.enqB == w.enqB
    && Forgotten(w) <= Forgotten(r) && Forgotten(Swap(w)) <= Forgotten(Swap(r))
  }

  lemma OnwardRun(w: World, r: World, evs: seq<Event>)
    requires Inv(w) && r == Run(w, evs) && r.enqA == w.enqA && r.enqB == w.enqB
    ensures Onward(w, r)
  {
    hide Inv, Run, Forgotten;
    RunMonotone(w, evs);
  }

  lemma ArrivedIsRun(w: World) returns (evs: seq<Event>)
    ensures Run(w, evs) == Arrived(w) && NoLoss(evs)
  {
    hide DeliverAll, Run, Mirror;
    var e1 := DeliverAllIsRun(w);
    var w1 := DeliverAll(w);
    var e2 := DeliverAllIsRun(Swap(w1));
    MirrorRuns(Swap(w1), e2);
    MirrorNoLoss(e2);
    assert Swap(Swap(w1)) == w1;
    RunConcat(w, e1, Mirror(e2));
    evs := e1 + Mirror(e2);
  }

  lemma ArrivedOnward(w: World)
    requires Inv(w)
    ensures Onward(w, Arrived(w)) && Arrived(w).ab == [] && Arrived(w).ba == []
  {
    hide Inv, Run, DeliverAll, TakeAll, Onward;
    DeliverAllIsTake(w);
    DeliverAllIsTake(Swap(DeliverAll(w)));
    var evs := ArrivedIsRun(w);
    OnwardRun(w, Arrived(w), evs);
  }

  lemma RecoveryIsRun(w: World) returns (evs: seq<Event>)
    ensures Run(w, evs) == Recovery(w) && NoLoss(evs)
  {
    hide Exchange, Run, Apply;
    var t := [Timeout(A)] + [Timeout(B)];
    RunOne(w, Timeout(A));
    RunOne(Apply(w, Timeout(A)), Timeout(B));
    RunConcat(w, [Timeout(A)], [Timeout(B)]);
    var w1 := Run(w, t);
    var e1 := ExchangeIsRun(w1);
    var e2 := ExchangeIsRun(Exchange(w1));
    var w3 := Exchange(Exchange(w1));
    RunOne(w3, Timeout(A));
    var e3 := ExchangeIsRun(Apply(w3, Timeout(A)));
    RunConcat(w, t, e1);
    RunConcat(w, t + e1, e2);
    RunConcat(w, t + e1 + e2, [Timeout(A)]);
    RunConcat(w, t + e1 + e2 + [Timeout(A)], e3);
    evs := t + e1 + e2 + [Timeout(A)] + e3;
  }

  lemma TimeoutKeeps(w: World, s: Side)
    ensures var r := Apply(w, Timeout(s)); r == w.(a := r.a, b := r.b)
  {
    hide TimedEvent;
  }

  /** A recovery is a later state, with fewer of A's packets outstanding. */
  lemma RecoveryOnward(w: World)
    requires Inv(w) && w.ab == [] && w.ba == []
    ensures var r := Recovery(w);
      && Onward(w, r) && r.ab == [] && r.ba == []
      && Outstanding(r) + Min(WINDOW, Outstanding(w)) <= Outstanding(w)
  {
    hide Inv, Run, Exchange, Apply, Forgotten;
    var w1 := Apply(Apply(w, Timeout(A)), Timeout(B));
    var w3 := Exchange(Exchange(w1));
    TimeoutKeeps(w, A);
    TimeoutKeeps(Apply(w, Timeout(A)), B);
    ExchangeShape(w1);
    ExchangeShape(Exchange(w1));
    TimeoutKeeps(w3, A);
    ExchangeShape(Apply(w3, Timeout(A)));
    var r := Recovery(w);
    var evs := RecoveryIsRun(w);
    OnwardRun(w, r, evs);
    AlwaysProgresses(w);
    hide Recovery;
    AllAccounted(w);
    AllAccounted(r);
  }

  /** Every packet enqueued at A is acknowledged or outstanding. */
  lemma AllAccounted(w: World)
    requires Inv(w)
    ensures |w.enqA| == |Forgotten(w)| + Outstanding(w)
  {
    hide Inv;
    var acked, got := InvBetween(w);
    BetweenCounts(w, acked, got);
  }

  lemma {:induction false} RecoveriesDrain(w: World, n: nat)
    requires Inv(w) && w.ab == [] && w.ba == [] && Outstanding(w) <= WINDOW * n
    ensures var r := Recoveries(w, n); Onward(w, r) && r.ab == [] && r.ba == [] && Outstanding(r) == 0
    decreases n
  {
    hide Inv, Recovery, Forgotten;
    if n > 0 {
      RecoveryOnward(w);
      RecoveriesDrain(Recovery(w), n - 1);
    }
  }

  /** Nothing outstanding: the other side has accepted all of A's packets. */
  lemma NothingLeft(w: World)
    requires Inv(w) && Outstanding(w) == 0
    ensures ReliableOf(w.upB) == w.enqA
  {
    AllAccounted(w);
    hide Dir, ReliableOf;
    var t :| DirAB(w, t);
    InvDelivers(w, t);
    hide DirAB, Forgotten;
  }

  lemma FewerLeft(w: World, r: World)
    requires Inv(w) && Onward(w, r)
    ensures Inv(r) && Inv(Swap(r))
    ensures Outstanding(r) <= Outstanding(w) && Outstanding(Swap(r)) <= Outstanding(Swap(w))
  {
    SwapInv(w);
    SwapInv(r);
    AllAccounted(w);
    AllAccounted(r);
    AllAccounted(Swap(w));
    AllAccounted(Swap(r));
    hide Inv, Forgotten, Outstanding;
  }

  lemma SameEnqueued(w: World, r: World)
    requires Onward(w, r)
    ensures r.enqA == w.enqA && r.enqB == w.enqB
  {
    hide Inv, Forgotten;
  }

  /** From every reachable state, as soon as no frame is lost any more, everything
      enqueued arrives, each packet once and in order, both ways, and both queues run
      empty, within a quarter as many recoveries as there are packets outstanding. */
  lemma EverythingArrives(w: World, n: nat, k: nat)
    requires Inv(w) && Outstanding(w) <= WINDOW * n && Outstanding(Swap(w)) <= WINDOW * k
    ensures var r := Drained(w, n, k);
      && r.enqA == w.enqA && r.enqB == w.enqB
      && Outstanding(r) == 0 && Outstanding(Swap(r)) == 0
      && ReliableOf(r.upB) == w.enqA && ReliableOf(r.upA) == w.enqB
  {
    hide Inv, Recoveries, Arrived, Outstanding, ReliableOf, Onward;
    var w1 := Arrived(w);
    ArrivedOnward(w);
    FewerLeft(w, w1);
    var w2 := Recoveries(w1, n);
    RecoveriesDrain(w1, n);
    FewerLeft(w1, w2);
    var w3 := Recoveries(Swap(w2), k);
    RecoveriesDrain(Swap(w2), k);
    FewerLeft(Swap(w2), w3);
    NothingLeft(w3);
    NothingLeft(Swap(w3));
    SameEnqueued(w, w1);
    SameEnqueued(w1, w2);
    SameEnqueued(Swap(w2), w3);
  }

  /** Those recoveries are events of the link: deliveries, timeouts and sends. */
  lemma DrainedIsRun(w: World, n: nat, k: nat) returns (evs: seq<Event>)
    ensures Run(w, evs) == Drained(w, n, k) && NoLoss(evs)
  {
    hide Run, Recoveries, Arrived, Mirror;
    var e1 := ArrivedIsRun(w);
    var w1 := Arrived(w);
    var e2 := RecoveriesIsRun(w1, n);
    var w2 := Recoveries(w1, n);
    var e3 := RecoveriesIsRun(Swap(w2), k);
    MirrorRuns(Swap(w2), e3);
    MirrorNoLoss(e3);
    assert Swap(Swap(w2)) == w2;
    RunConcat(w, e1, e2);
    RunConcat(w, e1 + e2, Mirror(e3));
    evs := e1 + e2 + Mirror(e3);
  }

  lemma {:induction false} RecoveriesIsRun(w: World, n: nat) returns (evs: seq<Event>)
    ensures Run(w, evs) == Recoveries(w, n) && NoLoss(evs)
    decreases n
  {
    hide Run, Recovery;
    if n == 0 {
      evs := [];
      RunNone(w);
    } else {
      var e1 := RecoveryIsRun(w);
      var e2 := RecoveriesIsRun(Recovery(w), n - 1);
      RunConcat(w, e1, e2);
      evs := e1 + e2;
    }
  }

  lemma RunNone(w: World)
    ensures Run(w, []) == w
  {
  }
}
