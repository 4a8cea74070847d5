/** The two-endpoint system down to the bytes: two byte parsers joined by lines of
    bytes, fed in chunks of any size with anything happening in between.  Every such
    run is a run of the frame-level system, so its guarantee holds of the bytes. */
module H5Bytes {
  import opened Common
  import opened H5Crc
  import opened H5Frame
  import opened H5Endpoint
  import opened H5Receive
  import opened H5RoundTrip
  import opened H5Channel
  import opened H5Wire
  import opened H5Progress

  // ---- Lines of bytes ----

  /** A line: what is left of the skb under way, and the skbs behind it. */
  datatype Line = Line(cur: seq<byte>, queue: seq<seq<byte>>)

  function Flat(queue: seq<seq<byte>>): seq<byte> {
    if queue == [] then [] else queue[0] + Flat(queue[1..])
  }

  /** The bytes on the line, in order. */
  function Content(line: Line): seq<byte> {
    line.cur + Flat(line.queue)
  }

  /** One byte off the line into the parser. */
  function TakeByte(l: Link, line: Line): (r: (Link, Line))
    requires RxValid(l.rx)
    ensures RxValid(r.0.rx)
  {
    if line.cur != [] then (RecvByte(l, line.cur[0]), line.(cur := line.cur[1..]))
    else if line.queue != [] && line.queue[0] != [] then
      (RecvByte(l, line.queue[0][0]), Line(line.queue[0][1..], line.queue[1..]))
    else (l, line)
  }

  function TakeBytes(l: Link, line: Line, n: nat): (r: (Link, Line))
    requires RxValid(l.rx)
    ensures RxValid(r.0.rx)
    decreases n
  {
    if n == 0 then (l, line)
    else
      var (l', line') := TakeByte(l, line);
      TakeBytes(l', line', n - 1)
  }

  ghost predicate NoEmpty(queue: seq<seq<byte>>) {
    forall i :: 0 <= i < |queue| ==> queue[i] != []
  }

  lemma ByteOff(l: Link, line: Line)
    requires RxValid(l.rx) && NoEmpty(line.queue) && Content(line) != []
    ensures var (l', line') := TakeByte(l, line);
      && l' == RecvByte(l, Content(line)[0]) && Content(line') == Content(line)[1..] && NoEmpty(line'.queue)
  {
    hide RecvByte, RxValid;
  }

  /** Taking `n` bytes is one call of `h5_recv` on the next `n` bytes of the line. */
  lemma {:induction false} ChunkIsRecv(l: Link, line: Line, n: nat)
    requires RxValid(l.rx) && NoEmpty(line.queue) && n <= |Content(line)|
    ensures var (l', line') := TakeBytes(l, line, n);
      l' == Recv(l, Content(line)[..n]) && Content(line') == Content(line)[n..]
    decreases n
  {
    hide RecvByte, RxValid, Content, TakeByte;
    var c := Content(line);
    if n > 0 {
      ByteOff(l, line);
      var (l', line') := TakeByte(l, line);
      ChunkIsRecv(l', line', n - 1);
      assert c[..n][1..] == c[1..][..n - 1] && c[..n][0] == c[0];
    }
  }

  // ---- The system ----

  datatype Net = Net(a: Link, b: Link, ab: Line, ba: Line, enqA: seq<Packet>, enqB: seq<Packet>)

  /** As at the frame level, but a side takes the next `n` bytes off the line towards
      it, or as many as there are; an skb not yet begun can be lost, and so can what
      is left of the one under way. */
  datatype NetEvent =
    | NetEnq(s: Side, p: Packet)
    | NetSend(s: Side)
    | Chunk(s: Side, n: nat)
    | NetLose(s: Side, i: nat)
    | NetCut(s: Side)
    | NetTimeout(s: Side)

  function NetStart(crcA: bool, crcB: bool): Net {
    Net(OpenLink(crcA), OpenLink(crcB), Line([], []), Line([], []), [], [])
  }

  function NetSwap(n: Net): Net {
    Net(n.b, n.a, n.ba, n.ab, n.enqB, n.enqA)
  }

  ghost predicate NetOk(n: Net) {
    RxValid(n.a.rx) && RxValid(n.b.rx)
  }

  /** The skb `h5_prepare_pkt` writes for a frame; it prepares well-formed ones only. */
  ghost function Skb(f: Frame): seq<byte> {
    if FrameOk(f) then Encode(f) else []
  }

  ghost function NetApplyA(n: Net, ev: NetEvent): (r: Net)
    requires NetOk(n)
    ensures NetOk(r)
  {
    match ev
    case NetEnq(_, p) =>
      n.(a := n.a.(tx := Enqueue(n.a.tx, p)), enqA := if EnqueuedReliable(p) then n.enqA + [p] else n.enqA)
    case NetSend(_) =>
      var (tx, f) := Dequeue(n.a.tx);
      n.(a := n.a.(tx := tx), ab := if f.Some? then n.ab.(queue := n.ab.queue + [Skb(f.value)]) else n.ab)
    case Chunk(_, k) =>
      var (a, ba) := TakeBytes(n.a, n.ba, k);
      n.(a := a, ba := ba)
    case NetLose(_, i) =>
      if i < |n.ab.queue| then n.(ab := n.ab.(queue := n.ab.queue[..i] + n.ab.queue[i + 1..])) else n
    case NetCut(_) =>
      n.(ab := n.ab.(cur := []))
    case NetTimeout(_) =>
      if n.a.tx.timer then n.(a := n.a.(tx := TimedEvent(n.a.tx))) else n
  }

  ghost function NetApply(n: Net, ev: NetEvent): (r: Net)
    requires NetOk(n)
    ensures NetOk(r)
  {
    if ev.s == A then NetApplyA(n, ev) else NetSwap(NetApplyA(NetSwap(n), ev))
  }

  ghost function NetRun(n: Net, evs: seq<NetEvent>): (r: Net)
    requires NetOk(n)
    ensures NetOk(r)
  {
    if evs == [] then n else NetApply(NetRun(n, evs[..|evs| - 1]), evs[|evs| - 1])
  }

  // ---- A parser in step with the frames on its line ----

  /** The parser's state in the middle of a frame says what the rest of it will do,
      whatever happens to the queues and timers meanwhile. */
  ghost predicate WillDeliver(l: Link, cur: seq<byte>, f: Frame) {
    RxValid(l.rx) &&
    forall tx: Endpoint :: tx.rxseqTxack == l.tx.rxseqTxack ==> Delivered(l.(tx := tx), cur, f)
  }

  ghost predicate Delivered(l: Link, cur: seq<byte>, f: Frame)
    requires RxValid(l.rx)
  {
    var r := Recv(l, cur);
    Idle(r) && r.rx.state == W4Start && r.tx == Receive(l.tx, f) && r.up == l.up + Received(l.tx, f)
  }

  /** The end of a frame: one delimiter, the last byte. */
  ghost predicate FrameEnd(cur: seq<byte>) {
    cur != [] && cur[|cur| - 1] == DELIM && DELIM !in cur[..|cur| - 1]
  }

  ghost predicate Carries(queue: seq<seq<byte>>, fs: seq<Frame>) {
    |queue| == |fs| && forall i :: 0 <= i < |fs| ==> CarriedBy(queue[i], fs[i])
  }

  ghost predicate CarriedBy(skb: seq<byte>, f: Frame) {
    FrameOk(f) && skb == Encode(f)
  }

  ghost predicate AtBoundary(l: Link, line: Line, fs: seq<Frame>) {
    line.cur == [] && Idle(l) && Carries(line.queue, fs)
  }

  /** The frame under way has had its effect; the rest of it is skipped. */
  ghost predicate Skipping(l: Link, line: Line, fs: seq<Frame>) {
    FrameEnd(line.cur) && Idle(l) && l.rx.state == W4Delimiter && Carries(line.queue, fs)
  }

  /** The frame under way has had no effect yet; for the frame level it is still on
      the line. */
  ghost predicate Reading(l: Link, line: Line, fs: seq<Frame>) {
    FrameEnd(line.cur) && fs != [] && Carries(line.queue, fs[1..]) && WillDeliver(l, line.cur, fs[0])
  }

  /** The delimiter of the next skb ends a frame that was cut short: either the
      whole of it takes effect, or nothing does. */
  ghost predicate EndsCut(l: Link, f: Frame)
    requires RxValid(l.rx)
  {
    var r := RecvByte(l, DELIM);
    Idle(r) && r.rx.state == W4Start &&
    ((r.tx == l.tx && r.up == l.up) || (r.tx == Receive(l.tx, f) && r.up == l.up + Received(l.tx, f)))
  }

  ghost predicate CutShort(l: Link, f: Frame) {
    RxValid(l.rx) && forall tx: Endpoint :: tx.rxseqTxack == l.tx.rxseqTxack ==> EndsCut(l.(tx := tx), f)
  }

  /** The rest of the frame under way was lost; the frame level does not know yet
      whether it counts as delivered or as lost. */
  ghost predicate Orphaned(l: Link, line: Line, fs: seq<Frame>) {
    line.cur == [] && fs != [] && Carries(line.queue, fs[1..]) && CutShort(l, fs[0])
  }

  ghost predicate InStep(l: Link, line: Line, fs: seq<Frame>) {
    AtBoundary(l, line, fs) || Skipping(l, line, fs) || Reading(l, line, fs) || Orphaned(l, line, fs)
  }

  // ---- One byte ----

  lemma StepSilent(l: Link, tx: Endpoint)
    requires RxValid(l.rx) && Pending(l.rx) && tx.rxseqTxack == l.tx.rxseqTxack
    requires InFrame(SettleStep(l).rx.state)
    ensures var r := SettleStep(l); r.tx == l.tx && r.up == l.up && SettleStep(l.(tx := tx)) == r.(tx := tx)
  {
    hide CrcAll, CrcMatches, Complete, PassUp;
  }

  lemma ConsumeSilent(l: Link, tx: Endpoint, b: byte)
    requires RxValid(l.rx) && !Pending(l.rx)
    ensures var r := Consume(l, b);
      && r.tx == l.tx && r.up == l.up && Consume(l.(tx := tx), b) == r.(tx := tx)
      && (InFrame(r.rx.state) ==> l.rx.state != W4Delimiter)
      && (r.rx.state == W4Start ==> b == DELIM)
  {
    hide CrcUpdate;
  }

  /** A byte that leaves the parser in a frame, or finds it between frames, touches
      neither queues nor counters, and moves the parser the same way whatever they
      are, the next expected number aside. */
  lemma Silent(l: Link, tx: Endpoint, b: byte)
    requires RxValid(l.rx) && tx.rxseqTxack == l.tx.rxseqTxack
    requires Idle(l) || InFrame(RecvByte(l, b).rx.state)
    ensures var r := RecvByte(l, b);
      r.tx == l.tx && r.up == l.up && RecvByte(l.(tx := tx), b) == r.(tx := tx)
  {
    hide SettleStep, RxValid, Consume;
    var s, m := l, l.(tx := tx);
    while Pending(s.rx)
      invariant RxValid(s.rx) && RxValid(m.rx) && m == s.(tx := tx) && s.tx == l.tx && s.up == l.up
      invariant Settle(s) == Settle(l) && Settle(m) == Settle(l.(tx := tx))
      invariant Idle(l) ==> s == l
      decreases Rank(s.rx)
    {
      SettleUnfold(s);
      SettleUnfold(m);
      SettleStepValid(s);
      if !InFrame(SettleStep(s).rx.state) {
        ConsumeSilent(SettleStep(s), tx, b);
        StepKind(s);
        assert false;
      }
      StepSilent(s, tx);
      s, m := SettleStep(s), SettleStep(m);
    }
    ConsumeSilent(s, tx, b);
  }

  /** Acting on a complete part goes on in the frame or ends it. */
  lemma StepKind(l: Link)
    requires RxValid(l.rx) && Pending(l.rx)
    ensures InFrame(SettleStep(l).rx.state) || SettleStep(l).rx.state == W4Delimiter
  {
    hide CrcAll, CrcMatches, Complete, PassUp;
  }

  // ---- A byte keeps parser and frames in step ----

  lemma EncodedEnd(f: Frame)
    requires FrameOk(f)
    ensures Encode(f)[0] == DELIM && |Encode(f)| > 1 && FrameEnd(Encode(f)[1..])
  {
    EncodeTransparent(f);
    var e := Encode(f);
    hide Encode;
    var inside := e[1..][..|e| - 2];
    forall i | 0 <= i < |inside| ensures inside[i] != DELIM {
      assert inside[i] == e[i + 1];
    }
  }

  lemma RecvFirst(l: Link, bytes: seq<byte>)
    requires RxValid(l.rx) && bytes != []
    ensures Recv(l, bytes) == Recv(RecvByte(l, bytes[0]), bytes[1..])
  {
    hide RecvByte, RxValid;
  }

  /** What a parser will do with a frame survives a byte that has no effect. */
  lemma StillWillDeliver(l: Link, cur: seq<byte>, f: Frame)
    requires WillDeliver(l, cur, f) && cur != []
    requires Idle(l) || InFrame(RecvByte(l, cur[0]).rx.state)
    ensures WillDeliver(RecvByte(l, cur[0]), cur[1..], f)
  {
    var r := RecvByte(l, cur[0]);
    forall tx: Endpoint | tx.rxseqTxack == r.tx.rxseqTxack ensures Delivered(r.(tx := tx), cur[1..], f) {
      Silent(l, l.tx, cur[0]);
      Silent(l, tx, cur[0]);
      assert Delivered(l.(tx := tx), cur, f);
      RecvFirst(l.(tx := tx), cur);
      hide RecvByte, Recv, RxValid, Receive, Received, Idle;
    }
  }

  /** A frame about to arrive at an idle parser. */
  lemma IdleWillDeliver(l: Link, f: Frame)
    requires Idle(l) && FrameOk(f)
    ensures WillDeliver(l, Encode(f), f)
  {
    forall tx: Endpoint | tx.rxseqTxack == l.tx.rxseqTxack ensures Delivered(l.(tx := tx), Encode(f), f) {
      DeliverFrame(l.(tx := tx), f);
    }
  }

  lemma {:induction false} SkipToEnd(l: Link, cur: seq<byte>)
    requires Idle(l) && l.rx.state == W4Delimiter && FrameEnd(cur)
    ensures Recv(l, cur) == l.(rx := l.rx.(state := W4Start))
  {
    var last := |cur| - 1;
    assert cur == cur[..last] + [DELIM];
    RecvConcat(l, cur[..last], [DELIM]);
    SkipsToDelimiter(l, cur[..last]);
    DelimiterWhenIdle(l);
    hide Recv;
  }

  lemma ShorterEnd(cur: seq<byte>)
    requires FrameEnd(cur) && |cur| > 1
    ensures FrameEnd(cur[1..]) && cur[0] != DELIM
  {
    assert cur[0] == cur[..|cur| - 1][0];
    var inside := cur[1..][..|cur| - 2];
    forall i | 0 <= i < |inside| ensures inside[i] != DELIM {
      assert inside[i] == cur[..|cur| - 1][i + 1];
    }
  }

  /** Where the next byte leads a parser that is reading a frame: on in the frame,
      with no effect; out of it, with the whole effect and the rest to skip; or, with
      the last byte, to the boundary. */
  lemma ReadingByte(l: Link, cur: seq<byte>, f: Frame)
    requires WillDeliver(l, cur, f) && FrameEnd(cur)
    ensures var r := RecvByte(l, cur[0]);
      if |cur| == 1 then Idle(r) && r.tx == Receive(l.tx, f) && r.up == l.up + Received(l.tx, f)
      else if r.rx.state == W4Delimiter then
        Idle(r) && r.tx == Receive(l.tx, f) && r.up == l.up + Received(l.tx, f) && FrameEnd(cur[1..])
      else
        r.tx == l.tx && r.up == l.up && WillDeliver(r, cur[1..], f) && FrameEnd(cur[1..])
  {
    var b := cur[0];
    var r := RecvByte(l, b);
    assert Delivered(l.(tx := l.tx), cur, f);
    assert l.(tx := l.tx) == l;
    RecvFirst(l, cur);
    if |cur| == 1 {
      assert cur[1..] == [];
      assert Recv(r, cur[1..]) == r;
    } else {
      ShorterEnd(cur);
      NotToStart(l, b);
      if r.rx.state == W4Delimiter {
        SkipToEnd(r, cur[1..]);
      } else {
        Silent(l, l.tx, b);
        StillWillDeliver(l, cur, f);
      }
    }
    hide RecvByte, Recv, RxValid, Receive, Received, WillDeliver;
  }

  lemma NotToStart(l: Link, b: byte)
    requires RxValid(l.rx) && b != DELIM
    ensures var r := RecvByte(l, b); InFrame(r.rx.state) || r.rx.state == W4Delimiter
  {
    hide Settle;
    ConsumeSilent(Settle(l), l.tx, b);
    hide Consume, RxValid;
  }

  lemma SkippingByte(l: Link, cur: seq<byte>)
    requires Idle(l) && l.rx.state == W4Delimiter && FrameEnd(cur)
    ensures var r := RecvByte(l, cur[0]);
      && Idle(r) && r.tx == l.tx && r.up == l.up
      && (|cur| > 1 ==> r == l && FrameEnd(cur[1..]))
  {
    Silent(l, l.tx, cur[0]);
    if |cur| > 1 {
      ShorterEnd(cur);
    }
  }

  // ---- A frame cut short ----

  /** What a byte does to queues and counters is done before it is looked at. */
  lemma SameEffect(l: Link, b: byte, b': byte)
    requires RxValid(l.rx)
    ensures RecvByte(l, b).tx == RecvByte(l, b').tx && RecvByte(l, b).up == RecvByte(l, b').up
  {
    hide Settle;
    ConsumeSilent(Settle(l), l.tx, b);
    ConsumeSilent(Settle(l), l.tx, b');
    hide Consume, RxValid;
  }

  lemma ReadingEndsCut(l: Link, cur: seq<byte>, f: Frame)
    requires WillDeliver(l, cur, f) && FrameEnd(cur)
    ensures EndsCut(l, f)
  {
    ReadingByte(l, cur, f);
    SameEffect(l, cur[0], DELIM);
    SelfSynchronises(l);
    hide RecvByte, RxValid, Receive, Received, WillDeliver;
  }

  lemma SameReading(l: Link, tx: Endpoint, cur: seq<byte>, f: Frame)
    requires WillDeliver(l, cur, f) && tx.rxseqTxack == l.tx.rxseqTxack
    ensures WillDeliver(l.(tx := tx), cur, f)
  {
    var m := l.(tx := tx);
    forall t: Endpoint | t.rxseqTxack == m.tx.rxseqTxack ensures Delivered(m.(tx := t), cur, f) {
      assert m.(tx := t) == l.(tx := t);
    }
    hide Delivered, RxValid;
  }

  lemma ReadingCutShort(l: Link, cur: seq<byte>, f: Frame)
    requires WillDeliver(l, cur, f) && FrameEnd(cur)
    ensures CutShort(l, f)
  {
    forall tx: Endpoint | tx.rxseqTxack == l.tx.rxseqTxack ensures EndsCut(l.(tx := tx), f) {
      SameReading(l, tx, cur, f);
      ReadingEndsCut(l.(tx := tx), cur, f);
    }
    hide WillDeliver, EndsCut, RxValid, FrameEnd;
  }

  /** Losing the rest of the skb under way keeps parser and frames in step. */
  lemma CutKeepsStep(l: Link, line: Line, fs: seq<Frame>)
    requires InStep(l, line, fs)
    ensures InStep(l, line.(cur := []), fs)
  {
    hide Carries, Idle, CutShort, FrameEnd, WillDeliver;
    var line' := line.(cur := []);
    if Reading(l, line, fs) {
      ReadingCutShort(l, line.cur, fs[0]);
      assert Orphaned(l, line', fs);
    } else if Orphaned(l, line, fs) {
      assert line' == line;
    } else {
      assert AtBoundary(l, line', fs);
    }
    hide InStep;
  }

  /** The next skb after a cut: the frame cut short takes effect or is lost, and the
      next one is being read. */
  lemma OrphanEnds(l: Link, line: Line, fs: seq<Frame>)
    requires Orphaned(l, line, fs) && line.queue != []
    ensures var (l', line') := TakeByte(l, line);
      && Reading(l', line', fs[1..])
      && ((l'.tx == l.tx && l'.up == l.up) ||
          (l'.tx == Receive(l.tx, fs[0]) && l'.up == l.up + Received(l.tx, fs[0])))
  {
    var f := fs[1];
    assert CarriedBy(line.queue[0], fs[1..][0]);
    EncodedEnd(f);
    assert l.(tx := l.tx) == l;
    assert EndsCut(l, fs[0]);
    var r := RecvByte(l, DELIM);
    DelimiterAtStart(r);
    IdleWillDeliver(r, f);
    StillWillDeliver(r, Encode(f), f);
    forall i | 0 <= i < |fs| - 2 ensures CarriedBy(line.queue[1..][i], fs[1..][1..][i]) {
      assert CarriedBy(line.queue[i + 1], fs[1..][i + 1]);
    }
    hide RecvByte, WillDeliver, CarriedBy, CutShort;
  }

  lemma DelimiterAtStart(l: Link)
    requires Idle(l) && l.rx.state == W4Start
    ensures RecvByte(l, DELIM) == l
  {
  }

  // ---- One byte off the line ----

  /** What a byte means to the frame level. */
  datatype Effect = Nothing | Takes | Loses

  /** Either the frames on the line stay as they are and nothing was done, or the
      oldest of them was delivered, or it turned out to be lost. */
  lemma TakeByteInStep(l: Link, line: Line, fs: seq<Frame>) returns (e: Effect)
    requires InStep(l, line, fs)
    ensures RxValid(l.rx)
    ensures var (l', line') := TakeByte(l, line);
      match e
      case Nothing => l'.tx == l.tx && l'.up == l.up && InStep(l', line', fs)
      case Takes =>
        fs != [] && l'.tx == Receive(l.tx, fs[0]) && l'.up == l.up + Received(l.tx, fs[0]) && InStep(l', line', fs[1..])
      case Loses => fs != [] && l'.tx == l.tx && l'.up == l.up && InStep(l', line', fs[1..])
  {
    e := Nothing;
    var (l', line') := TakeByte(l, line);
    if Reading(l, line, fs) {
      ReadingByte(l, line.cur, fs[0]);
      e := if |line.cur| == 1 || l'.rx.state == W4Delimiter then Takes else Nothing;
      if |line.cur| == 1 {
        assert line'.cur == [] && AtBoundary(l', line', fs[1..]);
      } else if l'.rx.state == W4Delimiter {
        assert Skipping(l', line', fs[1..]);
      } else {
        assert Reading(l', line', fs);
      }
    } else if Skipping(l, line, fs) {
      SkippingByte(l, line.cur);
      if |line.cur| == 1 {
        assert AtBoundary(l', line', fs);
      } else {
        assert Skipping(l', line', fs);
      }
    } else if Orphaned(l, line, fs) {
      if line.queue != [] {
        OrphanEnds(l, line, fs);
        e := if l'.tx == l.tx && l'.up == l.up then Loses else Takes;
      }
    } else if line.queue != [] {
      StartsFrame(l, line, fs);
    }
    hide InStep, RecvByte, Receive, Received;
  }

  lemma StartsFrame(l: Link, line: Line, fs: seq<Frame>)
    requires AtBoundary(l, line, fs) && line.queue != []
    ensures var (l', line') := TakeByte(l, line); l'.tx == l.tx && l'.up == l.up && Reading(l', line', fs)
  {
    var f := fs[0];
    assert CarriedBy(line.queue[0], f);
    EncodedEnd(f);
    IdleWillDeliver(l, f);
    StillWillDeliver(l, Encode(f), f);
    Silent(l, l.tx, DELIM);
    forall i | 0 <= i < |fs| - 1 ensures CarriedBy(line.queue[1..][i], fs[1..][i]) {
      assert CarriedBy(line.queue[i + 1], fs[i + 1]);
    }
    hide RecvByte, WillDeliver, CarriedBy;
  }

  // ---- Every run of bytes is a run of frames ----

  /** The two levels: same queues and counters, same packets passed up, and on each
      line the frames not yet delivered. */
  ghost predicate Sim(n: Net, w: World) {
    && n.a.tx == w.a && n.a.up == w.upA && n.enqA == w.enqA && InStep(n.a, n.ba, w.ba)
    && n.b.tx == w.b && n.b.up == w.upB && n.enqB == w.enqB && InStep(n.b, n.ab, w.ab)
  }

  lemma SimSwap(n: Net, w: World)
    ensures Sim(NetSwap(n), Swap(w)) == Sim(n, w)
    ensures NetSwap(NetSwap(n)) == n && Swap(Swap(w)) == w
  {
    hide InStep;
  }

  /** Queues and timers may change while a frame is being read. */
  lemma LocalKeepsStep(l: Link, tx: Endpoint, line: Line, fs: seq<Frame>)
    requires InStep(l, line, fs) && tx.rxseqTxack == l.tx.rxseqTxack
    ensures InStep(l.(tx := tx), line, fs)
  {
    var m := l.(tx := tx);
    if Reading(l, line, fs) {
      SameReading(l, tx, line.cur, fs[0]);
      assert Reading(m, line, fs);
    } else if Orphaned(l, line, fs) {
      SameCut(l, tx, fs[0]);
      assert Orphaned(m, line, fs);
    } else if AtBoundary(l, line, fs) {
      assert AtBoundary(m, line, fs);
    } else {
      assert Skipping(m, line, fs);
    }
    hide InStep, WillDeliver, CutShort, RxValid, Carries;
  }

  lemma SameCut(l: Link, tx: Endpoint, f: Frame)
    requires CutShort(l, f) && tx.rxseqTxack == l.tx.rxseqTxack
    ensures CutShort(l.(tx := tx), f)
  {
    var m := l.(tx := tx);
    forall t: Endpoint | t.rxseqTxack == m.tx.rxseqTxack ensures EndsCut(m.(tx := t), f) {
      assert m.(tx := t) == l.(tx := t);
    }
    hide EndsCut, RxValid;
  }

  lemma CarriesMore(queue: seq<seq<byte>>, fs: seq<Frame>, f: Frame)
    requires Carries(queue, fs) && FrameOk(f)
    ensures Carries(queue + [Skb(f)], fs + [f])
  {
    hide Encode, FrameOk;
  }

  lemma CarriesLess(queue: seq<seq<byte>>, fs: seq<Frame>, i: nat)
    requires Carries(queue, fs) && i < |queue|
    ensures Carries(queue[..i] + queue[i + 1..], fs[..i] + fs[i + 1..])
  {
    hide CarriedBy;
  }

  lemma SentKeepsStep(l: Link, line: Line, fs: seq<Frame>, f: Frame)
    requires InStep(l, line, fs) && FrameOk(f)
    ensures InStep(l, line.(queue := line.queue + [Skb(f)]), fs + [f])
  {
    hide AtBoundary, Skipping, Reading, Orphaned, Skb, FrameOk;
    if AtBoundary(l, line, fs) {
      SentAtBoundary(l, line, fs, f);
    } else if Skipping(l, line, fs) {
      SentSkipping(l, line, fs, f);
    } else if Reading(l, line, fs) {
      SentReading(l, line, fs, f);
    } else {
      SentOrphaned(l, line, fs, f);
    }
  }

  lemma SentAtBoundary(l: Link, line: Line, fs: seq<Frame>, f: Frame)
    requires AtBoundary(l, line, fs) && FrameOk(f)
    ensures AtBoundary(l, line.(queue := line.queue + [Skb(f)]), fs + [f])
  {
    hide Carries, Idle, Skb, FrameOk;
    CarriesMore(line.queue, fs, f);
  }

  lemma SentSkipping(l: Link, line: Line, fs: seq<Frame>, f: Frame)
    requires Skipping(l, line, fs) && FrameOk(f)
    ensures Skipping(l, line.(queue := line.queue + [Skb(f)]), fs + [f])
  {
    hide Carries, Idle, Skb, FrameOk, FrameEnd;
    CarriesMore(line.queue, fs, f);
  }

  lemma SentReading(l: Link, line: Line, fs: seq<Frame>, f: Frame)
    requires Reading(l, line, fs) && FrameOk(f)
    ensures Reading(l, line.(queue := line.queue + [Skb(f)]), fs + [f])
  {
    hide Carries, Skb, FrameOk, FrameEnd, WillDeliver;
    CarriesMore(line.queue, fs[1..], f);
    assert (fs + [f])[1..] == fs[1..] + [f];
  }

  lemma SentOrphaned(l: Link, line: Line, fs: seq<Frame>, f: Frame)
    requires Orphaned(l, line, fs) && FrameOk(f)
    ensures Orphaned(l, line.(queue := line.queue + [Skb(f)]), fs + [f])
  {
    hide Carries, Skb, FrameOk, CutShort;
    CarriesMore(line.queue, fs[1..], f);
    assert (fs + [f])[1..] == fs[1..] + [f];
  }

  lemma LostBehind(fs: seq<Frame>, i: nat)
    requires i + 1 < |fs|
    ensures var r := fs[..i + 1] + fs[i + 2..];
      r != [] && r[0] == fs[0] && r[1..] == fs[1..][..i] + fs[1..][i + 1..]
  {
  }

  /** A lost skb is a lost frame, one place further on if another has been begun. */
  lemma LostKeepsStep(l: Link, line: Line, fs: seq<Frame>, i: nat) returns (k: nat)
    requires InStep(l, line, fs) && i < |line.queue|
    ensures k < |fs| && InStep(l, line.(queue := line.queue[..i] + line.queue[i + 1..]), fs[..k] + fs[k + 1..])
  {
    hide AtBoundary, Skipping, Reading, Orphaned;
    if AtBoundary(l, line, fs) {
      k := i;
      LostAtBoundary(l, line, fs, i);
    } else if Skipping(l, line, fs) {
      k := i;
      LostSkipping(l, line, fs, i);
    } else {
      k := i + 1;
      if Reading(l, line, fs) {
        LostReading(l, line, fs, i);
      } else {
        LostOrphaned(l, line, fs, i);
      }
    }
  }

  lemma LostAtBoundary(l: Link, line: Line, fs: seq<Frame>, i: nat)
    requires AtBoundary(l, line, fs) && i < |line.queue|
    ensures i < |fs| && AtBoundary(l, line.(queue := line.queue[..i] + line.queue[i + 1..]), fs[..i] + fs[i + 1..])
  {
    hide Idle, CarriedBy;
    CarriesLess(line.queue, fs, i);
  }

  lemma LostSkipping(l: Link, line: Line, fs: seq<Frame>, i: nat)
    requires Skipping(l, line, fs) && i < |line.queue|
    ensures i < |fs| && Skipping(l, line.(queue := line.queue[..i] + line.queue[i + 1..]), fs[..i] + fs[i + 1..])
  {
    hide Idle, CarriedBy, FrameEnd;
    CarriesLess(line.queue, fs, i);
  }

  lemma LostReading(l: Link, line: Line, fs: seq<Frame>, i: nat)
    requires Reading(l, line, fs) && i < |line.queue|
    ensures i + 1 < |fs| && Reading(l, line.(queue := line.queue[..i] + line.queue[i + 1..]), fs[..i + 1] + fs[i + 2..])
  {
    assert |fs[1..]| == |line.queue|;
    hide Carries, WillDeliver, FrameEnd;
    CarriesLess(line.queue, fs[1..], i);
    LostBehind(fs, i);
  }

  lemma LostOrphaned(l: Link, line: Line, fs: seq<Frame>, i: nat)
    requires Orphaned(l, line, fs) && i < |line.queue|
    ensures i + 1 < |fs| && Orphaned(l, line.(queue := line.queue[..i] + line.queue[i + 1..]), fs[..i + 1] + fs[i + 2..])
  {
    assert |fs[1..]| == |line.queue|;
    hide Carries, CutShort;
    CarriesLess(line.queue, fs[1..], i);
    LostBehind(fs, i);
  }

  /** A chunk of bytes is as many deliveries as frames took effect in it, and as many
      losses as frames cut short ended in it without. */
  lemma {:induction false} ChunkSim(n: Net, w: World, k: nat) returns (evs: seq<Event>)
    requires Sim(n, w)
    ensures RxValid(n.a.rx)
    ensures var (a, ba) := TakeBytes(n.a, n.ba, k); Sim(n.(a := a, ba := ba), Run(w, evs))
    decreases k
  {
    hide InStep, Receive, Received, TakeByte, RxValid;
    if k == 0 {
      evs := [];
      StepOk(n.a, n.ba, w.ba);
      assert n.(a := n.a, ba := n.ba) == n;
    } else {
      var e := TakeByteInStep(n.a, n.ba, w.ba);
      var (a1, ba1) := TakeByte(n.a, n.ba);
      var n1 := n.(a := a1, ba := ba1);
      if e.Takes? {
        evs := ChunkSim(n1, Apply(w, Deliver(A)), k - 1);
        EventFirst(w, Deliver(A), evs);
        evs := [Deliver(A)] + evs;
      } else if e.Loses? {
        LosesOldest(w);
        evs := ChunkSim(n1, Apply(w, Lose(B, 0)), k - 1);
        EventFirst(w, Lose(B, 0), evs);
        evs := [Lose(B, 0)] + evs;
      } else {
        evs := ChunkSim(n1, w, k - 1);
      }
    }
  }

  lemma StepOk(l: Link, line: Line, fs: seq<Frame>)
    requires InStep(l, line, fs)
    ensures RxValid(l.rx)
  {
    hide RxValid;
  }

  lemma EventFirst(w: World, ev: Event, evs: seq<Event>)
    ensures Run(w, [ev] + evs) == Run(Apply(w, ev), evs)
  {
    hide Apply;
    RunConcat(w, [ev], evs);
    RunOne(w, ev);
  }

  /** The oldest frame on the line towards A is lost. */
  lemma LosesOldest(w: World)
    requires w.ba != []
    ensures Apply(w, Lose(B, 0)) == w.(ba := w.ba[1..])
  {
    assert w.ba[..0] + w.ba[1..] == w.ba[1..];
  }

  /** Every event at side A is a run of events of the frame level. */
  lemma StepSim(n: Net, w: World, ev: NetEvent, t: Tags) returns (evs: seq<Event>)
    requires Sim(n, w) && NetOk(n) && DirAB(w, t)
    ensures Sim(NetApplyA(n, ev), Run(w, evs))
  {
    hide InStep, Dequeue, Receive, Received, TakeBytes, Skb, FrameOk, Apply, Dir, NetOk;
    match ev
    case NetEnq(_, p) =>
      evs := [Enq(A, p)];
      RunOne(w, evs[0]);
      EnqSim(n, w, p);
    case NetSend(_) =>
      evs := [Send(A)];
      RunOne(w, evs[0]);
      SendSim(n, w, t);
    case Chunk(_, k) =>
      evs := ChunkSim(n, w, k);
    case NetLose(_, i) =>
      if i < |n.ab.queue| {
        var k := LostKeepsStep(n.b, n.ab, w.ab, i);
        evs := [Lose(A, k)];
        RunOne(w, evs[0]);
        assert Apply(w, Lose(A, k)) == w.(ab := w.ab[..k] + w.ab[k + 1..]) by {
          LosesAt(w, k);
        }
      } else {
        evs := [];
      }
    case NetCut(_) =>
      evs := [];
      CutKeepsStep(n.b, n.ab, w.ab);
    case NetTimeout(_) =>
      evs := [Timeout(A)];
      RunOne(w, evs[0]);
      TimeoutSim(n, w);
  }

  lemma LosesAt(w: World, k: nat)
    requires k < |w.ab|
    ensures Apply(w, Lose(A, k)) == w.(ab := w.ab[..k] + w.ab[k + 1..])
  {
  }

  lemma EnqSim(n: Net, w: World, p: Packet)
    requires Sim(n, w) && NetOk(n)
    ensures Sim(NetApplyA(n, NetEnq(A, p)), Apply(w, Enq(A, p)))
  {
    hide InStep;
    LocalKeepsStep(n.a, Enqueue(n.a.tx, p), n.ba, w.ba);
    hide EnqueuedReliable;
  }

  lemma TimeoutSim(n: Net, w: World)
    requires Sim(n, w) && NetOk(n)
    ensures Sim(NetApplyA(n, NetTimeout(A)), Apply(w, Timeout(A)))
  {
    hide InStep;
    assert TimedEvent(n.a.tx).rxseqTxack == n.a.tx.rxseqTxack;
    hide TimedEvent;
    LocalKeepsStep(n.a, TimedEvent(n.a.tx), n.ba, w.ba);
  }

  lemma SendSim(n: Net, w: World, t: Tags)
    requires Sim(n, w) && NetOk(n) && DirAB(w, t)
    ensures Sim(NetApplyA(n, NetSend(A)), Apply(w, Send(A)))
  {
    SentFrameOk(w, t);
    SentAck(n.a.tx);
    hide InStep, Dequeue, Skb, FrameOk, Dir;
    var (tx, f) := Dequeue(n.a.tx);
    LocalKeepsStep(n.a, tx, n.ba, w.ba);
    if f.Some? {
      SentKeepsStep(n.b, n.ab, w.ab, f.value);
    }
  }

  lemma {:induction false} RunSim(crcA: bool, crcB: bool, evs: seq<NetEvent>) returns (fevs: seq<Event>)
    ensures NetOk(NetStart(crcA, crcB))
    ensures Sim(NetRun(NetStart(crcA, crcB), evs), Run(Start(crcA, crcB), fevs))
    decreases |evs|
  {
    StartsInStep(crcA, crcB);
    var n0, w0 := NetStart(crcA, crcB), Start(crcA, crcB);
    hide Inv, Sim, NetOk, NetStart, Start, NetApplyA, Run, DirAB;
    fevs := [];
    if evs == [] {
      RunNone(w0);
    } else {
      var before, ev := evs[..|evs| - 1], evs[|evs| - 1];
      fevs := RunSim(crcA, crcB, before);
      var n, w := NetRun(n0, before), Run(w0, fevs);
      StartInv(crcA, crcB);
      RunKeepsInv(w0, fevs);
      var more := EventSim(n, w, ev);
      RunConcat(w0, fevs, more);
      fevs := fevs + more;
    }
  }

  lemma StartsInStep(crcA: bool, crcB: bool)
    ensures NetOk(NetStart(crcA, crcB)) && Sim(NetStart(crcA, crcB), Start(crcA, crcB))
  {
    assert AtBoundary(OpenLink(crcA), Line([], []), []);
    assert AtBoundary(OpenLink(crcB), Line([], []), []);
  }

  lemma EventSim(n: Net, w: World, ev: NetEvent) returns (evs: seq<Event>)
    requires Sim(n, w) && NetOk(n) && Inv(w)
    ensures Sim(NetApply(n, ev), Run(w, evs))
  {
    SimSwap(n, w);
    hide Sim, NetApplyA, DirAB, Run;
    if ev.s == A {
      var t :| DirAB(w, t);
      evs := StepSim(n, w, ev, t);
    } else {
      var t :| DirAB(Swap(w), t);
      var mirrored := StepSim(NetSwap(n), Swap(w), ev, t);
      evs := Mirror(mirrored);
      MirrorRuns(Swap(w), mirrored);
      SimSwap(NetApplyA(NetSwap(n), ev), Run(Swap(w), mirrored));
    }
  }

  /** What the frame-level guarantee says of the bytes. */
  function View(n: Net): World {
    World(n.a.tx, n.b.tx, [], [], n.enqA, n.enqB, n.a.up, n.b.up)
  }

  /** Safety of the link down to the bytes, both ways, in every run: however the
      lines are cut into chunks, whatever else happens between two of them, and
      whichever frames are lost or cut short. */
  lemma BytesDeliver(crcA: bool, crcB: bool, evs: seq<NetEvent>)
    ensures NetOk(NetStart(crcA, crcB))
    ensures var n := NetRun(NetStart(crcA, crcB), evs); Delivers(View(n)) && Delivers(Swap(View(n)))
  {
    var fevs := RunSim(crcA, crcB, evs);
    RunDelivers(crcA, crcB, fevs);
    hide Run, NetRun, InStep;
  }
}
