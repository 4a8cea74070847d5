/** The ring of received packets behind the character device: `rtk_enqueue`,
    `rtk_dequeue_try`, `rtk_clear_queue` and the read loop of `btchr_read`, seen
    by user space as one byte stream. */
module BtusbQueue {
  import opened Common

  const QUEUE_SIZE := 500
  const HELD_MAX := QUEUE_SIZE - 1

  // ---- The queue as a value ----

  type Skb = seq<byte>

  /** A full queue drops the packet being added. */
  function Enqueued(q: seq<Skb>, skb: Skb): seq<Skb> {
    if |q| >= HELD_MAX then q else q + [skb]
  }

  /** One read of at most `count` bytes from a queue that is not empty: the front
      packet, or as much of it as fits, the rest staying in front. */
  function ReadFrom(q: seq<Skb>, count: nat): (seq<Skb>, seq<byte>)
    requires q != []
  {
    if count >= |q[0]| then (q[1..], q[0])
    else ([q[0][count..]] + q[1..], q[0][..count])
  }

  // ---- The ring as slots ----

  function CountOf(front: nat, rear: nat): (n: nat)
    requires front < QUEUE_SIZE && rear < QUEUE_SIZE
    ensures n <= HELD_MAX
  {
    if front <= rear then rear - front else rear + QUEUE_SIZE - front
  }

  /** The slot of the `i`-th packet from the front. */
  function SlotAt(front: nat, i: nat): (r: nat)
    requires front < QUEUE_SIZE && i < QUEUE_SIZE
    ensures r < QUEUE_SIZE
  {
    if front + i < QUEUE_SIZE then front + i else front + i - QUEUE_SIZE
  }

  ghost predicate RingOk(a: seq<Option<Skb>>, front: nat, rear: nat) {
    && |a| == QUEUE_SIZE && front < QUEUE_SIZE && rear < QUEUE_SIZE
    && forall i :: 0 <= i < CountOf(front, rear) ==> a[SlotAt(front, i)].Some?
  }

  ghost function Held(a: seq<Option<Skb>>, front: nat, rear: nat): (q: seq<Skb>)
    requires RingOk(a, front, rear)
    ensures |q| == CountOf(front, rear)
    ensures forall i :: 0 <= i < |q| ==> q[i] == a[SlotAt(front, i)].value
  {
    seq(CountOf(front, rear), i requires 0 <= i < CountOf(front, rear) => a[SlotAt(front, i)].value)
  }

  lemma RingPush(a: seq<Option<Skb>>, front: nat, rear: nat, skb: Skb)
    requires RingOk(a, front, rear) && front != (rear + 1) % QUEUE_SIZE
    ensures var a', rear' := a[rear := Some(skb)], (rear + 1) % QUEUE_SIZE;
      RingOk(a', front, rear') && Held(a', front, rear') == Held(a, front, rear) + [skb]
  {
    var n := CountOf(front, rear);
    assert CountOf(front, (rear + 1) % QUEUE_SIZE) == n + 1;
    assert SlotAt(front, n) == rear;
    assert forall i :: 0 <= i < n ==> SlotAt(front, i) != rear;
  }

  lemma RingPop(a: seq<Option<Skb>>, front: nat, rear: nat)
    requires RingOk(a, front, rear) && front != rear
    ensures var a', front' := a[front := None], (front + 1) % QUEUE_SIZE;
      RingOk(a', front', rear) && Held(a', front', rear) == Held(a, front, rear)[1..]
  {
    var a', front' := a[front := None], (front + 1) % QUEUE_SIZE;
    var n := CountOf(front, rear);
    assert CountOf(front', rear) == n - 1;
    forall i | 0 <= i < n - 1
      ensures SlotAt(front', i) == SlotAt(front, i + 1) && a'[SlotAt(front', i)] == a[SlotAt(front, i + 1)] {
      assert SlotAt(front, i + 1) != front;
    }
  }

  lemma RingPull(a: seq<Option<Skb>>, front: nat, rear: nat, skb: Skb)
    requires RingOk(a, front, rear) && front != rear
    ensures var a' := a[front := Some(skb)];
      RingOk(a', front, rear) && Held(a', front, rear) == [skb] + Held(a, front, rear)[1..]
  {
    assert SlotAt(front, 0) == front;
    assert forall i :: 1 <= i < CountOf(front, rear) ==> SlotAt(front, i) != front;
  }

  lemma NotFull(front: nat, rear: nat)
    requires front < QUEUE_SIZE && rear < QUEUE_SIZE
    ensures front == (rear + 1) % QUEUE_SIZE <==> CountOf(front, rear) == HELD_MAX
  {
  }

  // ---- The ring ----

  class RtkQueue {
    const skbQueue: array<Option<Skb>>
    var front: nat
    var rear: nat

    ghost predicate Valid()
      reads this, skbQueue
    {
      RingOk(skbQueue[..], front, rear)
    }

    ghost function Contents(): (q: seq<Skb>)
      requires Valid()
      reads this, skbQueue
      ensures |q| <= HELD_MAX
    {
      Held(skbQueue[..], front, rear)
    }

    constructor ()
      ensures Valid() && fresh(skbQueue) && Contents() == []
    {
      skbQueue := new Option<Skb>[QUEUE_SIZE](i => None);
      front, rear := 0, 0;
    }

    /** `rtk_enqueue`. */
    method Enqueue(skb: Skb)
      requires Valid()
      modifies this`rear, skbQueue
      ensures Valid() && Contents() == Enqueued(old(Contents()), skb)
    {
      if front == (rear + 1) % QUEUE_SIZE {
        return;
      }
      NotFull(front, rear);
      RingPush(skbQueue[..], front, rear, skb);
      ghost var pushed := skbQueue[..][rear := Some(skb)];
      hide RingOk, Held;
      skbQueue[rear] := Some(skb);
      assert skbQueue[..] == pushed;
      rear := (rear + 1) % QUEUE_SIZE;
    }

    /** `is_queue_empty`. */
    method IsQueueEmpty() returns (empty: bool)
      requires Valid()
      ensures empty <==> Contents() == []
    {
      empty := front == rear;
    }

    /** `rtk_dequeue_try`: the skb the caller will copy from and free.  When only
        part of it is wanted this is a copy, and the original is pulled. */
    method DequeueTry(deqLen: nat) returns (skb: Option<Skb>)
      requires Valid()
      modifies this`front, skbQueue
      ensures Valid()
      ensures old(Contents()) == [] ==> skb == None && Contents() == []
      ensures old(Contents()) != [] ==>
        skb == Some(old(Contents())[0]) && Contents() == ReadFrom(old(Contents()), deqLen).0
    {
      if front == rear {
        return None;
      }
      assert SlotAt(front, 0) == front;
      skb := skbQueue[front];
      if deqLen >= |skb.value| {
        RingPop(skbQueue[..], front, rear);
        skbQueue[front] := None;
        front := (front + 1) % QUEUE_SIZE;
      } else {
        RingPull(skbQueue[..], front, rear, skb.value[deqLen..]);
        skbQueue[front] := Some(skb.value[deqLen..]);
      }
    }

    /** `rtk_clear_queue`. */
    method Clear()
      requires Valid()
      modifies this`front, skbQueue
      ensures Valid() && Contents() == []
    {
      while front != rear
        invariant Valid()
        decreases |Contents()|
      {
        RingPop(skbQueue[..], front, rear);
        skbQueue[front] := None;
        front := (front + 1) % QUEUE_SIZE;
      }
    }

    /** `btchr_read` with `usb_put_user`: None while the queue is empty, when the
        caller sleeps; otherwise the bytes copied to user space. */
    method Read(count: nat) returns (data: Option<seq<byte>>)
      requires Valid()
      modifies this`front, skbQueue
      ensures Valid()
      ensures count == 0 ==> data == Some([]) && Contents() == old(Contents())
      ensures count > 0 && old(Contents()) == [] ==> data == None && Contents() == []
      ensures count > 0 && old(Contents()) != [] ==>
        (Contents(), data) == (ReadFrom(old(Contents()), count).0, Some(ReadFrom(old(Contents()), count).1))
    {
      if count == 0 {
        return Some([]);
      }
      var empty := IsQueueEmpty();
      if empty {
        return None;
      }
      ghost var q := Contents();
      var skb := DequeueTry(count);
      var len := if |skb.value| < count then |skb.value| else count;
      assert skb.value[..|skb.value|] == skb.value;
      data := Some(skb.value[..len]);
    }
  }

  // ---- The byte stream over whole runs ----

  datatype Op = EnqueueOp(skb: Skb) | ReadOp(count: nat) | ClearOp

  /** The queue, the bytes read and the bytes of the packets accepted, the last two
      since the queue was last cleared. */
  datatype Stream = Stream(queue: seq<Skb>, read: seq<byte>, accepted: seq<byte>)

  function Apply(s: Stream, op: Op): Stream {
    match op
    case EnqueueOp(skb) =>
      Stream(Enqueued(s.queue, skb), s.read, if |s.queue| >= HELD_MAX then s.accepted else s.accepted + skb)
    case ReadOp(count) =>
      if count == 0 || s.queue == [] then s
      else
        var (q, data) := ReadFrom(s.queue, count);
        Stream(q, s.read + data, s.accepted)
    case ClearOp => Stream([], [], [])
  }

  function Run(ops: seq<Op>): Stream {
    if ops == [] then Stream([], [], []) else Apply(Run(ops[..|ops| - 1]), ops[|ops| - 1])
  }

  function Flatten(q: seq<Skb>): seq<byte> {
    if q == [] then [] else q[0] + Flatten(q[1..])
  }

  lemma {:induction false} FlattenConcat(a: seq<Skb>, b: seq<Skb>)
    ensures Flatten(a + b) == Flatten(a) + Flatten(b)
  {
    if a == [] {
      assert a + b == b;
    } else {
      assert (a + b)[1..] == a[1..] + b;
      FlattenConcat(a[1..], b);
    }
  }

  /** What a read takes off the queue is what it returns: as many bytes of the front
      packet as it asks for and the packet has.  The packet leaves the queue with its
      last byte; the packets behind it are untouched. */
  lemma ReadConserves(q: seq<Skb>, count: nat)
    requires q != []
    ensures var (r, data) := ReadFrom(q, count);
      && data + Flatten(r) == Flatten(q)
      && |data| == (if |q[0]| < count then |q[0]| else count)
      && (if count < |q[0]| then |r| == |q| && r[1..] == q[1..] else r == q[1..])
  {
    if count < |q[0]| {
      var front, rest := q[0][count..], q[1..];
      FlattenFirst(front, rest);
      assert q[0][..count] + front == q[0];
      hide Flatten;
      ConcatThree(q[0][..count], front, Flatten(rest));
      FlattenFirst(q[0], rest);
      assert [q[0]] + rest == q;
    }
  }

  lemma FlattenFirst(skb: Skb, rest: seq<Skb>)
    ensures Flatten([skb] + rest) == skb + Flatten(rest) && ([skb] + rest)[1..] == rest
  {
    assert ([skb] + rest)[1..] == rest;
  }

  /** For every interleaving of enqueues, reads of any size and clears: the bytes
      read followed by the bytes still queued are the bytes of the packets
      accepted, none lost, repeated or reordered. */
  lemma {:induction false} StreamConserved(ops: seq<Op>)
    ensures var s := Run(ops); s.read + Flatten(s.queue) == s.accepted && |s.queue| <= HELD_MAX
    decreases |ops|
  {
    if ops != [] {
      var op := ops[|ops| - 1];
      StreamConserved(ops[..|ops| - 1]);
      var s := Run(ops[..|ops| - 1]);
      match op {
        case EnqueueOp(skb) =>
          FlattenConcat(s.queue, [skb]);
          assert Flatten([skb]) == skb + Flatten([skb][1..]);
          assert skb + [] == skb;
          assert s.read + (Flatten(s.queue) + skb) == (s.read + Flatten(s.queue)) + skb;
        case ReadOp(count) =>
          if count > 0 && s.queue != [] {
            ReadConserves(s.queue, count);
            var (q, data) := ReadFrom(s.queue, count);
            assert (s.read + data) + Flatten(q) == s.read + (data + Flatten(q));
          }
        case ClearOp =>
      }
    }
  }

  /** How many reads of `count` bytes a packet takes; an empty one takes one. */
  function ReadsFor(len: nat, count: nat): (r: nat)
    requires count > 0
    ensures r > 0
  {
    if len == 0 then 1 else (len + count - 1) / count
  }

  function ReadsNeeded(q: seq<Skb>, count: nat): nat
    requires count > 0
  {
    if q == [] then 0 else ReadsFor(|q[0]|, count) + ReadsNeeded(q[1..], count)
  }

  lemma OneReadLess(len: nat, count: nat)
    requires count > 0
    ensures len <= count ==> ReadsFor(len, count) == 1
    ensures len > count ==> ReadsFor(len, count) == 1 + ReadsFor(len - count, count)
  {
    if 0 < len <= count {
      QuotientIs(len + count - 1, count, 1);
    } else if len > count {
      var q := (len - 1) / count;
      DivisionOf(len - 1, count);
      QuotientIs(len + count - 1, count, q + 1);
    }
  }

  lemma DivisionOf(x: nat, d: nat)
    requires d > 0
    ensures x / d * d <= x < x / d * d + d
  {
  }

  lemma QuotientIs(x: nat, d: nat, q: nat)
    requires d > 0 && q * d <= x < q * d + d
    ensures x / d == q
  {
    DivisionOf(x, d);
    Between(q, x / d, d);
    Between(x / d, q, d);
  }

  lemma Between(a: nat, b: nat, d: nat)
    requires a * d < b * d + d
    ensures a <= b
  {
    if b < a {
      Product(a, b, d, a - b - 1);
    }
  }

  lemma Product(a: nat, b: nat, d: nat, k: nat)
    requires a == b + 1 + k
    ensures a * d == b * d + d + k * d && k * d >= 0
  {
  }

  lemma ReadShortens(q: seq<Skb>, count: nat)
    requires q != [] && count > 0
    ensures ReadsNeeded(ReadFrom(q, count).0, count) == ReadsNeeded(q, count) - 1
  {
    OneReadLess(|q[0]|, count);
    hide ReadsFor;
    var r := ReadFrom(q, count).0;
    if count < |q[0]| {
      assert r[1..] == q[1..] && |r[0]| == |q[0]| - count;
    }
  }

  /** Reads of any size but zero return everything accepted, the queue running empty with
      exactly as many reads as its packets need and not before. */
  lemma {:induction false} Drains(s: Stream, count: nat, n: nat)
    requires s.read + Flatten(s.queue) == s.accepted && count > 0
    ensures Reads(s, count, n).queue == [] <==> n >= ReadsNeeded(s.queue, count)
    ensures Reads(s, count, n).queue == [] ==> Reads(s, count, n).read == s.accepted
    decreases n
  {
    hide ReadsFor;
    if s.queue == [] {
      assert s.read + [] == s.read;
      ReadsNothing(s, count, n);
    } else if n > 0 {
      ReadConserves(s.queue, count);
      ReadShortens(s.queue, count);
      var (q, data) := ReadFrom(s.queue, count);
      assert (s.read + data) + Flatten(q) == s.read + (data + Flatten(q));
      Drains(Apply(s, ReadOp(count)), count, n - 1);
    }
  }

  lemma {:induction false} ReadsNothing(s: Stream, count: nat, n: nat)
    requires s.queue == []
    ensures Reads(s, count, n) == s
    decreases n
  {
    if n > 0 {
      ReadsNothing(s, count, n - 1);
    }
  }

  /** Packets arriving while nothing is read: the first 499 are kept, in order. */
  lemma {:induction false} FirstKept(skbs: seq<Skb>)
    ensures Run(Enqueues(skbs)).queue == skbs[..if |skbs| < 499 then |skbs| else 499]
    decreases |skbs|
  {
    if skbs != [] {
      var before, skb := skbs[..|skbs| - 1], skbs[|skbs| - 1];
      FirstKept(before);
      assert Enqueues(skbs)[..|skbs| - 1] == Enqueues(before);
      if |skbs| <= 499 {
        assert before[..|before|] == before && before + [skb] == skbs;
      }
    }
  }

  function Enqueues(skbs: seq<Skb>): (r: seq<Op>)
    ensures |r| == |skbs| && forall i :: 0 <= i < |r| ==> r[i] == EnqueueOp(skbs[i])
  {
    seq(|skbs|, i requires 0 <= i < |skbs| => EnqueueOp(skbs[i]))
  }

  function Reads(s: Stream, count: nat, n: nat): Stream
    decreases n
  {
    if n == 0 then s else Reads(Apply(s, ReadOp(count)), count, n - 1)
  }
}
