/** `hci_reassembly` and `hci_recv_fragment`: HCI event, ACL and SCO frames put
    together again from the chunks the USB transfers deliver. */
module BtusbReassembly {
  import opened Common

  // HCI packet types with a reassembly slot
  const HCI_ACLDATA_PKT := 2
  const HCI_SCODATA_PKT := 3
  const HCI_EVENT_PKT := 4

  const NUM_REASSEMBLY := 4

  const EILSEQ := 84
  const ENOMEM := 12

  predicate KnownType(ptype: int) {
    HCI_ACLDATA_PKT <= ptype <= HCI_EVENT_PKT
  }

  /** The size of the skb asked for: HCI_MAX_FRAME_SIZE, HCI_MAX_SCO_SIZE or
      HCI_MAX_EVENT_SIZE. */
  function Capacity(ptype: int): nat {
    if ptype == HCI_ACLDATA_PKT then 1028 else if ptype == HCI_SCODATA_PKT then 255 else 260
  }

  /** A packet type, with the room an skb allocated for it has: at least what was
      asked for, as the allocator may round up. */
  datatype TypeAndRoom = TypeAndRoom(ptype: int, room: nat)

  type Kind = k: TypeAndRoom | k.room >= Capacity(k.ptype) witness TypeAndRoom(HCI_ACLDATA_PKT, 1028)

  function HeaderLen(kind: Kind): (r: nat)
    ensures 2 <= r <= 4
  {
    if kind.ptype == HCI_ACLDATA_PKT then 4 else if kind.ptype == HCI_SCODATA_PKT then 3 else 2
  }

  /** The payload length a complete header announces. */
  function AnnouncedLen(kind: Kind, data: seq<byte>): nat
    requires |data| >= HeaderLen(kind)
  {
    if kind.ptype == HCI_ACLDATA_PKT then data[2] as nat + (data[3] as nat) * 256
    else if kind.ptype == HCI_SCODATA_PKT then data[2] as nat
    else data[1] as nat
  }

  /** The announced frame does not fit its skb. */
  predicate Oversized(kind: Kind, data: seq<byte>)
    requires |data| >= HeaderLen(kind)
  {
    kind.room - HeaderLen(kind) < AnnouncedLen(kind, data)
  }

  /** `reassembly[index]`: NULL, or the skb with `scb->expect`. */
  datatype Slot = Empty | Partial(data: seq<byte>, expected: nat)

  /** A slot being filled: something is always still expected, and it always fits. */
  ghost predicate Filling(kind: Kind, slot: Slot) {
    slot.Partial? ==>
      && slot.expected > 0
      && |slot.data| + slot.expected <= kind.room
      && (|slot.data| < HeaderLen(kind) ==> |slot.data| + slot.expected == HeaderLen(kind))
      && (|slot.data| >= HeaderLen(kind) ==>
            |slot.data| + slot.expected == HeaderLen(kind) + AnnouncedLen(kind, slot.data))
  }

  /** What is stored between calls. */
  ghost predicate SlotOk(kind: Kind, slot: Slot) {
    Filling(kind, slot) && (slot.Partial? ==> slot.data != [])
  }

  // ---- One byte at a time ----

  datatype Put = More(slot: Slot) | Done(frame: seq<byte>) | TooLong

  /** One byte more in the slot. */
  function PutByte(kind: Kind, slot: Slot, b: byte): (r: Put)
    requires Filling(kind, slot)
    ensures r.More? ==> r.slot.Partial? && SlotOk(kind, r.slot)
  {
    var data := (if slot.Partial? then slot.data else []) + [b];
    var expected := (if slot.Partial? then slot.expected else HeaderLen(kind)) - 1;
    if |data| == HeaderLen(kind) && Oversized(kind, data) then TooLong
    else
      var expected' := if |data| == HeaderLen(kind) then AnnouncedLen(kind, data) else expected;
      if expected' == 0 then Done(data) else More(Partial(data, expected'))
  }

  /** What came of a stretch of bytes: the slot left, the frames passed on, and how
      many bytes were thrown away behind an oversized header. */
  datatype Outcome = Outcome(slot: Slot, frames: seq<seq<byte>>, failed: bool, dropped: nat)

  /** A stretch of bytes taken in one call of `hci_recv_fragment`. */
  function Take(kind: Kind, slot: Slot, data: seq<byte>): (r: Outcome)
    requires SlotOk(kind, slot)
    ensures SlotOk(kind, r.slot)
    ensures !r.failed ==> r.dropped == 0
    ensures r.failed ==> r.slot == Empty
    decreases |data|
  {
    if data == [] then Outcome(slot, [], false, 0)
    else
      match PutByte(kind, slot, data[0])
      case More(s) => Take(kind, s, data[1..])
      case Done(f) => var r := Take(kind, Empty, data[1..]); r.(frames := [f] + r.frames)
      case TooLong => Outcome(Empty, [], true, |data| - 1)
  }

  /** Up to the end of the first frame only: one call of `hci_reassembly`.  The
      last component counts the bytes not looked at. */
  function TakeOne(kind: Kind, slot: Slot, data: seq<byte>): (r: (Outcome, nat))
    requires Filling(kind, slot)
    ensures r.1 <= |data| && (data != [] ==> r.1 < |data|)
    ensures (data != [] || SlotOk(kind, slot) ==> SlotOk(kind, r.0.slot))
    decreases |data|
  {
    if data == [] then (Outcome(slot, [], false, 0), 0)
    else
      match PutByte(kind, slot, data[0])
      case More(s) => TakeOne(kind, s, data[1..])
      case Done(f) => (Outcome(Empty, [f], false, 0), |data| - 1)
      case TooLong => (Outcome(Empty, [], true, |data| - 1), |data| - 1)
  }

  lemma PutStores(kind: Kind, slot: Slot, b: byte)
    requires Filling(kind, slot) && slot.Partial? && slot.expected > 1
    ensures var s := Partial(slot.data + [b], slot.expected - 1);
      Filling(kind, s) && PutByte(kind, slot, b) == More(s)
  {
    if |slot.data| >= HeaderLen(kind) {
      assert AnnouncedLen(kind, slot.data + [b]) == AnnouncedLen(kind, slot.data);
    }
  }

  lemma StoreFirst(kind: Kind, slot: Slot, data: seq<byte>)
    requires Filling(kind, slot) && slot.Partial? && slot.expected > 1 && data != []
    ensures var s := Partial(slot.data + [data[0]], slot.expected - 1);
      Filling(kind, s) && TakeOne(kind, slot, data) == TakeOne(kind, s, data[1..])
  {
    PutStores(kind, slot, data[0]);
    hide Filling, PutByte;
  }

  /** Bytes that complete nothing are simply stored. */
  lemma {:induction false} StoreSome(kind: Kind, slot: Slot, data: seq<byte>, n: nat)
    requires Filling(kind, slot) && slot.Partial? && n <= |data| && n < slot.expected
    ensures var s := Partial(slot.data + data[..n], slot.expected - n);
      && Filling(kind, s)
      && TakeOne(kind, slot, data) == TakeOne(kind, s, data[n..])
    decreases n
  {
    hide Filling, TakeOne;
    if n == 0 {
      assert slot.data + data[..0] == slot.data && data[0..] == data;
    } else {
      var s := Partial(slot.data + [data[0]], slot.expected - 1);
      StoreFirst(kind, slot, data);
      StoreSome(kind, s, data[1..], n - 1);
      assert s.data + data[1..][..n - 1] == slot.data + data[..n];
      assert data[1..][n - 1..] == data[n..];
    }
  }

  // ---- The driver's two functions ----

  class HciDev {
    const reassembly: array<Slot>
    const aclRoom: nat  // what skb_tailroom gives for a fresh skb of each type
    const scoRoom: nat
    const eventRoom: nat
    var received: seq<(int, seq<byte>)>  // frames handed to hci_recv_frame, with their type

    ghost predicate Valid()
      reads this, reassembly
    {
      && reassembly.Length == NUM_REASSEMBLY && RoomOk()
      && SlotOk(KindOf(HCI_ACLDATA_PKT), reassembly[HCI_ACLDATA_PKT - 1])
      && SlotOk(KindOf(HCI_SCODATA_PKT), reassembly[HCI_SCODATA_PKT - 1])
      && SlotOk(KindOf(HCI_EVENT_PKT), reassembly[HCI_EVENT_PKT - 1])
    }

    predicate RoomOk() {
      aclRoom >= Capacity(HCI_ACLDATA_PKT) && scoRoom >= Capacity(HCI_SCODATA_PKT) && eventRoom >= Capacity(HCI_EVENT_PKT)
    }

    function KindOf(ptype: int): Kind
      requires RoomOk()
    {
      TypeAndRoom(ptype, if ptype == HCI_ACLDATA_PKT then aclRoom else if ptype == HCI_SCODATA_PKT then scoRoom else eventRoom)
    }

    constructor (aclRoom: nat, scoRoom: nat, eventRoom: nat)
      requires aclRoom >= Capacity(HCI_ACLDATA_PKT)
      requires scoRoom >= Capacity(HCI_SCODATA_PKT)
      requires eventRoom >= Capacity(HCI_EVENT_PKT)
      ensures Valid() && fresh(reassembly) && received == []
      ensures (this.aclRoom, this.scoRoom, this.eventRoom) == (aclRoom, scoRoom, eventRoom)
      ensures forall i :: 0 <= i < NUM_REASSEMBLY ==> reassembly[i] == Empty
    {
      reassembly := new Slot[NUM_REASSEMBLY](i => Empty);
      this.aclRoom, this.scoRoom, this.eventRoom := aclRoom, scoRoom, eventRoom;
      received := [];
    }

    /** `hci_reassembly`: fill the slot of this type up to the end of one frame;
        the result is the count of bytes left over, or an error. */
    method HciReassembly(ptype: int, data: seq<byte>) returns (remain: int)
      requires Valid() && KnownType(ptype) && data != []
      modifies this, reassembly
      ensures Valid()
      ensures var (r, left) := TakeOne(KindOf(ptype), old(reassembly[ptype - 1]), data);
        && reassembly[ptype - 1] == r.slot
        && received == old(received) + Tagged(ptype, r.frames)
        && remain == (if r.failed then -ENOMEM else left)
      ensures forall i :: 0 <= i < NUM_REASSEMBLY && i != ptype - 1 ==> reassembly[i] == old(reassembly[i])
    {
      hide Filling, TakeOne, Oversized, AnnouncedLen, HeaderLen, Capacity;
      var index := ptype - 1;
      var kind := KindOf(ptype);
      var slot := reassembly[index];
      ghost var start := slot;
      if slot == Empty {
        slot := Partial([], HeaderLen(kind));
        EmptyIsFresh(kind, data);
      }
      var i := 0;
      while i < |data|
        invariant 0 <= i <= |data|
        invariant slot.Partial? && Filling(kind, slot) && (i > 0 ==> slot.data != [])
        invariant TakeOne(kind, slot, data[i..]) == TakeOne(kind, start, data)
        invariant unchanged(this) && unchanged(reassembly)
      {
        FillingPositive(kind, slot);
        var len := if slot.expected < |data| - i then slot.expected else |data| - i;
        ghost var rest := data[i..];
        LastByte(kind, slot, rest, len);
        assert rest[..len] == data[i..i + len] && rest[len..] == data[i + len..];
        slot := Partial(slot.data + data[i..i + len], slot.expected - len);
        i := i + len;
        if |slot.data| == HeaderLen(kind) {
          slot := slot.(expected := AnnouncedLen(kind, slot.data));
          if Oversized(kind, slot.data) {  // skb_tailroom(skb) < scb->expect
            reassembly[index] := Empty;
            return -ENOMEM;
          }
        }
        if slot.expected == 0 {
          received := received + [(ptype, slot.data)];
          reassembly[index] := Empty;
          assert Tagged(ptype, [slot.data]) == [(ptype, slot.data)];
          return |data| - i;
        }
      }
      assert data[i..] == [];
      NothingToTake(kind, slot);
      reassembly[index] := slot;
      remain := 0;
    }

    /** `hci_recv_fragment`: frame after frame until the data is used up or an
        oversized header drops the rest of it. */
    method HciRecvFragment(ptype: int, data: seq<byte>) returns (rem: int)
      requires Valid()
      modifies this, reassembly
      ensures Valid()
      ensures !(2 <= ptype <= 4) ==>
        rem == -84 && received == old(received) && reassembly[..] == old(reassembly[..])
      ensures 2 <= ptype <= 4 ==>
        var r := Take(KindOf(ptype), old(reassembly[ptype - 1]), data);
        && reassembly[ptype - 1] == r.slot
        && received == old(received) + Tagged(ptype, r.frames)
        && rem == (if r.failed then -12 else 0)
        && forall i :: 0 <= i < NUM_REASSEMBLY && i != ptype - 1 ==> reassembly[i] == old(reassembly[i])
    {
      hide Filling, Take, TakeOne, Tagged;
      rem := 0;
      if !KnownType(ptype) {
        return -EILSEQ;
      }
      ghost var kind := KindOf(ptype);
      ghost var start := reassembly[ptype - 1];
      ghost var all := Take(kind, start, data);
      ghost var done: seq<seq<byte>> := [];
      TaggedNone(ptype);
      assert received + [] == received;
      var i := 0;
      while i < |data|
        invariant 0 <= i <= |data| && Valid() && rem == 0
        invariant all == Then(done, Take(kind, reassembly[ptype - 1], data[i..]))
        invariant received == old(received) + Tagged(ptype, done)
        invariant forall j :: 0 <= j < NUM_REASSEMBLY && j != ptype - 1 ==> reassembly[j] == old(reassembly[j])
      {
        ghost var slot := reassembly[ptype - 1];
        TakeInFrames(kind, slot, data[i..]);
        var count := |data| - i;
        rem := HciReassembly(ptype, data[i..]);
        ghost var frames := TakeOne(kind, slot, data[i..]).0.frames;
        TaggedConcat(ptype, done, frames);
        assert received == old(received) + Tagged(ptype, done + frames) by {
          assert old(received) + Tagged(ptype, done) + Tagged(ptype, frames)
              == old(received) + (Tagged(ptype, done) + Tagged(ptype, frames));
        }
        if rem < 0 {
          assert done + frames == all.frames;
          return;
        }
        assert data[i..][count - rem..] == data[i + (count - rem)..];
        i := i + (count - rem);
        done := done + frames;
        rem := 0;
      }
      assert data[i..] == [] && done + [] == done;
      TakeNothing(kind, reassembly[ptype - 1]);
    }
  }

  lemma TakeNothing(kind: Kind, slot: Slot)
    requires SlotOk(kind, slot)
    ensures Take(kind, slot, []) == Outcome(slot, [], false, 0)
  {
  }

  function Tagged(ptype: int, frames: seq<seq<byte>>): (r: seq<(int, seq<byte>)>)
    ensures |r| == |frames| && forall i :: 0 <= i < |r| ==> r[i] == (ptype, frames[i])
  {
    seq(|frames|, i requires 0 <= i < |frames| => (ptype, frames[i]))
  }

  lemma TaggedNone(ptype: int)
    ensures Tagged(ptype, []) == []
  {
  }

  lemma TaggedConcat(ptype: int, a: seq<seq<byte>>, b: seq<seq<byte>>)
    ensures Tagged(ptype, a + b) == Tagged(ptype, a) + Tagged(ptype, b)
  {
  }

  lemma FillingPositive(kind: Kind, slot: Slot)
    requires Filling(kind, slot) && slot.Partial?
    ensures slot.expected > 0
  {
  }

  lemma NothingToTake(kind: Kind, slot: Slot)
    requires Filling(kind, slot)
    ensures TakeOne(kind, slot, []) == (Outcome(slot, [], false, 0), 0)
  {
  }

  lemma EmptyIsFresh(kind: Kind, data: seq<byte>)
    ensures Filling(kind, Partial([], HeaderLen(kind)))
    ensures data != [] ==> TakeOne(kind, Empty, data) == TakeOne(kind, Partial([], HeaderLen(kind)), data)
  {
  }

  lemma PutCompletes(kind: Kind, s: Slot, b: byte)
    requires Filling(kind, s) && s.Partial?
    ensures var d := s.data + [b];
      PutByte(kind, s, b) ==
        if |d| == HeaderLen(kind) && Oversized(kind, d) then TooLong
        else
          var e := if |d| == HeaderLen(kind) then AnnouncedLen(kind, d) else s.expected - 1;
          if e == 0 then Done(d) else More(Partial(d, e))
  {
    hide Oversized, AnnouncedLen, Filling;
  }

  lemma TakeFirstByte(kind: Kind, s: Slot, rest: seq<byte>)
    requires Filling(kind, s) && s.Partial? && rest != []
    ensures var d := s.data + [rest[0]];
      if |d| == HeaderLen(kind) && Oversized(kind, d) then
        TakeOne(kind, s, rest) == (Outcome(Empty, [], true, |rest| - 1), |rest| - 1)
      else
        var e := if |d| == HeaderLen(kind) then AnnouncedLen(kind, d) else s.expected - 1;
        if e == 0 then TakeOne(kind, s, rest) == (Outcome(Empty, [d], false, 0), |rest| - 1)
        else Filling(kind, Partial(d, e)) && TakeOne(kind, s, rest) == TakeOne(kind, Partial(d, e), rest[1..])
  {
    PutCompletes(kind, s, rest[0]);
    hide Oversized, AnnouncedLen, HeaderLen, Capacity, PutByte, Filling;
  }

  /** The byte that may complete header or frame, after `n - 1` stored ones. */
  lemma LastByte(kind: Kind, slot: Slot, data: seq<byte>, n: nat)
    requires Filling(kind, slot) && slot.Partial? && 1 <= n <= |data| && n <= slot.expected
    ensures var d := slot.data + data[..n];
      if |d| == HeaderLen(kind) && Oversized(kind, d) then
        TakeOne(kind, slot, data) == (Outcome(Empty, [], true, |data| - n), |data| - n)
      else
        var e := if |d| == HeaderLen(kind) then AnnouncedLen(kind, d) else slot.expected - n;
        if e == 0 then TakeOne(kind, slot, data) == (Outcome(Empty, [d], false, 0), |data| - n)
        else Filling(kind, Partial(d, e)) && TakeOne(kind, slot, data) == TakeOne(kind, Partial(d, e), data[n..])
  {
    hide Filling, TakeOne, Oversized, AnnouncedLen, HeaderLen, Capacity;
    StoreSome(kind, slot, data, n - 1);
    var s := Partial(slot.data + data[..n - 1], slot.expected - (n - 1));
    OneMore(slot.data, data, n);
    TakeFirstByte(kind, s, data[n - 1..]);
  }

  lemma OneMore(a: seq<byte>, data: seq<byte>, n: nat)
    requires 1 <= n <= |data|
    ensures data[n - 1..] != [] && data[n - 1..][1..] == data[n..] && |data[n - 1..]| - 1 == |data| - n
    ensures (a + data[..n - 1]) + [data[n - 1..][0]] == a + data[..n]
  {
  }

  lemma Unfolded(kind: Kind, slot: Slot, data: seq<byte>)
    requires SlotOk(kind, slot) && data != []
    ensures match PutByte(kind, slot, data[0])
            case More(s) =>
              Take(kind, slot, data) == Take(kind, s, data[1..]) && TakeOne(kind, slot, data) == TakeOne(kind, s, data[1..])
            case Done(f) =>
              && Take(kind, slot, data) == Then([f], Take(kind, Empty, data[1..]))
              && TakeOne(kind, slot, data) == (Outcome(Empty, [f], false, 0), |data| - 1)
            case TooLong =>
              && Take(kind, slot, data) == Outcome(Empty, [], true, |data| - 1)
              && TakeOne(kind, slot, data) == (Outcome(Empty, [], true, |data| - 1), |data| - 1)
  {
    hide PutByte, SlotOk;
  }

  /** An outcome after frames already passed on. */
  function Then(frames: seq<seq<byte>>, r: Outcome): Outcome {
    r.(frames := frames + r.frames)
  }

  /** The whole stretch is its first frame followed by the rest. */
  lemma {:induction false} TakeInFrames(kind: Kind, slot: Slot, data: seq<byte>)
    requires SlotOk(kind, slot)
    ensures var (r, left) := TakeOne(kind, slot, data);
      Take(kind, slot, data) ==
        if r.failed then r
        else Then(r.frames, Take(kind, r.slot, data[|data| - left..]))
    decreases |data|
  {
    if data == [] {
      NoBytes(kind, slot, data);
    } else {
      Unfolded(kind, slot, data);
      hide Take, TakeOne, PutByte, SlotOk, Then;
      match PutByte(kind, slot, data[0]) {
        case More(s) =>
          TakeInFrames(kind, s, data[1..]);
          SameEnd(data, TakeOne(kind, s, data[1..]).1);
        case Done(f) =>
          SameEnd(data, |data| - 1);
        case TooLong =>
      }
    }
  }

  lemma SameEnd(data: seq<byte>, left: nat)
    requires left < |data|
    ensures data[1..][|data[1..]| - left..] == data[|data| - left..]
    ensures left == |data| - 1 ==> data[|data| - left..] == data[1..]
  {
  }

  lemma NoBytes(kind: Kind, slot: Slot, data: seq<byte>)
    requires SlotOk(kind, slot) && data == []
    ensures Take(kind, slot, data) == Outcome(slot, [], false, 0) && TakeOne(kind, slot, data) == (Outcome(slot, [], false, 0), 0)
    ensures Then([], Take(kind, slot, data[|data|..])) == Outcome(slot, [], false, 0)
  {
  }

  // ---- Fragmentation independence ----

  /** The chunks handed over one by one, as the USB completions do; after a
      failure the next chunk is taken all the same. */
  function TakeChunks(kind: Kind, slot: Slot, chunks: seq<seq<byte>>): (r: Outcome)
    requires SlotOk(kind, slot)
    ensures SlotOk(kind, r.slot)
    decreases |chunks|
  {
    if chunks == [] then Outcome(slot, [], false, 0)
    else
      var a := Take(kind, slot, chunks[0]);
      var b := TakeChunks(kind, a.slot, chunks[1..]);
      Outcome(b.slot, a.frames + b.frames, a.failed || b.failed, a.dropped + b.dropped)
  }

  function Concat(chunks: seq<seq<byte>>): seq<byte> {
    if chunks == [] then [] else chunks[0] + Concat(chunks[1..])
  }

  lemma {:induction false} TakeConcat(kind: Kind, slot: Slot, a: seq<byte>, b: seq<byte>)
    requires SlotOk(kind, slot)
    ensures var x := Take(kind, slot, a);
      Take(kind, slot, a + b) ==
        if x.failed then x.(dropped := x.dropped + |b|)
        else var y := Take(kind, x.slot, b); y.(frames := x.frames + y.frames)
    decreases |a|
  {
    if a == [] {
      assert a + b == b;
      var y := Take(kind, slot, b);
      assert [] + y.frames == y.frames;
    } else {
      assert (a + b)[0] == a[0] && (a + b)[1..] == a[1..] + b;
      match PutByte(kind, slot, a[0]) {
        case More(s) =>
          TakeConcat(kind, s, a[1..], b);
        case Done(f) =>
          TakeConcat(kind, Empty, a[1..], b);
          var x, y := Take(kind, Empty, a[1..]), Take(kind, slot, a);
          if !x.failed {
            var z := Take(kind, x.slot, b);
            assert [f] + (x.frames + z.frames) == ([f] + x.frames) + z.frames;
          }
        case TooLong =>
      }
    }
  }

  /** However the stream is cut, the same frames come out and the same partial
      frame is left, as long as taking it at once throws nothing away. */
  lemma {:induction false} FragmentationIndependent(kind: Kind, slot: Slot, chunks: seq<seq<byte>>)
    requires SlotOk(kind, slot) && Take(kind, slot, Concat(chunks)).dropped == 0
    ensures var whole := Take(kind, slot, Concat(chunks));
      TakeChunks(kind, slot, chunks) == whole
    decreases |chunks|
  {
    if chunks != [] {
      var a, rest := chunks[0], Concat(chunks[1..]);
      TakeConcat(kind, slot, a, rest);
      var x := Take(kind, slot, a);
      if x.failed {
        assert rest == [];
        NothingFromNothing(kind, chunks[1..]);
        assert x.frames + [] == x.frames;
      } else {
        FragmentationIndependent(kind, x.slot, chunks[1..]);
      }
    }
  }

  lemma {:induction false} NothingFromNothing(kind: Kind, chunks: seq<seq<byte>>)
    requires Concat(chunks) == []
    ensures TakeChunks(kind, Empty, chunks) == Outcome(Empty, [], false, 0)
    decreases |chunks|
  {
    if chunks != [] {
      assert chunks[0] == [] && Concat(chunks[1..]) == [];
      NothingFromNothing(kind, chunks[1..]);
    }
  }

  /** Otherwise the cut matters: with the last byte in a chunk of its own, that
      byte is kept, where taking everything at once loses it. */
  lemma CutMatters(kind: Kind, slot: Slot, data: seq<byte>)
    requires SlotOk(kind, slot) && Take(kind, slot, data).dropped > 0
    ensures var last := |data| - 1;
      last >= 0 && Concat([data[..last], data[last..]]) == data
      && TakeChunks(kind, slot, [data[..last], data[last..]]).slot != Take(kind, slot, data).slot
  {
    hide Take, SlotOk;
    NothingTaken(kind, slot);
    var last := |data| - 1;
    var a, b := data[..last], data[last..];
    assert a + b == data && b == [b[0]];
    TakeConcat(kind, slot, a, b);
    TakeOneByte(kind, Take(kind, slot, a).slot, b[0]);
    TwoChunks(kind, slot, a, b);
  }

  lemma NothingTaken(kind: Kind, slot: Slot)
    requires SlotOk(kind, slot)
    ensures Take(kind, slot, []).dropped == 0
  {
  }

  lemma TwoChunks(kind: Kind, slot: Slot, a: seq<byte>, b: seq<byte>)
    requires SlotOk(kind, slot)
    ensures Concat([a, b]) == a + b
    ensures TakeChunks(kind, slot, [a, b]).slot == Take(kind, Take(kind, slot, a).slot, b).slot
  {
    hide Take, SlotOk;
    var tail: seq<seq<byte>> := [b];
    assert [a, b][1..] == tail && tail[1..] == [];
    assert Concat(tail) == b + [];
    var s := Take(kind, slot, a).slot;
    assert TakeChunks(kind, s, tail).slot == Take(kind, s, b).slot;
  }

  lemma TakeOneByte(kind: Kind, slot: Slot, b: byte)
    requires SlotOk(kind, slot)
    ensures Take(kind, slot, [b]).dropped == 0
    ensures slot == Empty ==> Take(kind, slot, [b]).slot.Partial?
  {
    assert [b][1..] == [];
    if slot == Empty {
      assert PutByte(kind, slot, b) == More(Partial([] + [b], HeaderLen(kind) - 1));
    }
  }

  // ---- The reference parser ----

  function FrameLen(kind: Kind, data: seq<byte>): (r: nat)
    requires |data| >= HeaderLen(kind)
    ensures r >= HeaderLen(kind)
  {
    HeaderLen(kind) + AnnouncedLen(kind, data)
  }

  /** Cutting a whole stream at the lengths its headers announce. */
  function Parse(kind: Kind, data: seq<byte>): (seq<seq<byte>>, seq<byte>)
    decreases |data|
  {
    if |data| < HeaderLen(kind) || |data| < FrameLen(kind, data) then ([], data)
    else
      var n := FrameLen(kind, data);
      var r := Parse(kind, data[n..]);
      ([data[..n]] + r.0, r.1)
  }

  /** Every header in the stream announces a frame that fits. */
  predicate AllFit(kind: Kind, data: seq<byte>)
    decreases |data|
  {
    |data| < HeaderLen(kind)
    || (!Oversized(kind, data)
        && (|data| < FrameLen(kind, data) || AllFit(kind, data[FrameLen(kind, data)..])))
  }

  /** At most the last bytes of the stream are an oversized header. */
  predicate LosesNothing(kind: Kind, data: seq<byte>)
    decreases |data|
  {
    |data| < HeaderLen(kind)
    || (if Oversized(kind, data) then |data| == HeaderLen(kind)
        else |data| < FrameLen(kind, data) || LosesNothing(kind, data[FrameLen(kind, data)..]))
  }

  /** The slot in which the bytes `data` of an unfinished frame are kept. */
  function SlotFor(kind: Kind, data: seq<byte>): Slot {
    if data == [] then Empty
    else if |data| < HeaderLen(kind) then Partial(data, HeaderLen(kind) - |data|)
    else if |data| < FrameLen(kind, data) then Partial(data, FrameLen(kind, data) - |data|)
    else Empty
  }

  lemma SameHeader(kind: Kind, data: seq<byte>, n: nat)
    requires HeaderLen(kind) <= n <= |data|
    ensures AnnouncedLen(kind, data[..n]) == AnnouncedLen(kind, data)
    ensures Oversized(kind, data[..n]) == Oversized(kind, data)
  {
  }

  lemma ShortHeader(kind: Kind, data: seq<byte>)
    requires 0 < |data| < HeaderLen(kind)
    ensures TakeOne(kind, Empty, data) == (Outcome(SlotFor(kind, data), [], false, 0), 0)
  {
    var s := Partial([], HeaderLen(kind));
    EmptyIsFresh(kind, data);
    StoreSome(kind, s, data, |data|);
    assert [] + data[..|data|] == data && data[|data|..] == [];
    hide TakeOne;
    NothingToTake(kind, Partial(data, HeaderLen(kind) - |data|));
  }

  lemma HeaderDone(kind: Kind, data: seq<byte>)
    requires |data| >= HeaderLen(kind)
    ensures var h, e := HeaderLen(kind), AnnouncedLen(kind, data);
      if Oversized(kind, data) then TakeOne(kind, Empty, data) == (Outcome(Empty, [], true, |data| - h), |data| - h)
      else if e == 0 then TakeOne(kind, Empty, data) == (Outcome(Empty, [data[..h]], false, 0), |data| - h)
      else Filling(kind, Partial(data[..h], e))
           && TakeOne(kind, Empty, data) == TakeOne(kind, Partial(data[..h], e), data[h..])
  {
    var h := HeaderLen(kind);
    EmptyIsFresh(kind, data);
    LastByte(kind, Partial([], h), data, h);
    assert [] + data[..h] == data[..h];
    SameHeader(kind, data, h);
    hide TakeOne, Filling, Oversized, AnnouncedLen;
  }

  lemma PayloadDone(kind: Kind, header: seq<byte>, e: nat, rest: seq<byte>)
    requires |header| == HeaderLen(kind) && Filling(kind, Partial(header, e)) && e > 0
    ensures TakeOne(kind, Partial(header, e), rest) ==
      if |rest| < e then (Outcome(Partial(header + rest, e - |rest|), [], false, 0), 0)
      else (Outcome(Empty, [header + rest[..e]], false, 0), |rest| - e)
  {
    var p := Partial(header, e);
    if |rest| < e {
      StoreSome(kind, p, rest, |rest|);
      assert rest[..|rest|] == rest && rest[|rest|..] == [];
      hide TakeOne;
      NothingToTake(kind, Partial(header + rest, e - |rest|));
    } else {
      LastByte(kind, p, rest, e);
      hide TakeOne;
    }
  }

  /** The first frame of a stream that starts at a frame boundary. */
  lemma FirstFrame(kind: Kind, data: seq<byte>)
    requires data != []
    ensures var h := HeaderLen(kind);
      TakeOne(kind, Empty, data) ==
        if |data| < h then (Outcome(SlotFor(kind, data), [], false, 0), 0)
        else if Oversized(kind, data) then (Outcome(Empty, [], true, |data| - h), |data| - h)
        else if |data| < FrameLen(kind, data) then (Outcome(SlotFor(kind, data), [], false, 0), 0)
        else (Outcome(Empty, [data[..FrameLen(kind, data)]], false, 0), |data| - FrameLen(kind, data))
  {
    hide TakeOne, Filling, Oversized, AnnouncedLen, Capacity;
    var h := HeaderLen(kind);
    if |data| < h {
      ShortHeader(kind, data);
    } else {
      HeaderDone(kind, data);
      var e := AnnouncedLen(kind, data);
      if !Oversized(kind, data) && e > 0 {
        PayloadDone(kind, data[..h], e, data[h..]);
        assert data[..h] + data[h..] == data;
        assert |data| >= h + e ==> data[..h] + data[h..][..e] == data[..h + e];
      }
    }
  }

  lemma TakeFromBoundary(kind: Kind, data: seq<byte>)
    ensures var h := HeaderLen(kind);
      Take(kind, Empty, data) ==
        if |data| < h then Outcome(SlotFor(kind, data), [], false, 0)
        else if Oversized(kind, data) then Outcome(Empty, [], true, |data| - h)
        else if |data| < FrameLen(kind, data) then Outcome(SlotFor(kind, data), [], false, 0)
        else
          var n := FrameLen(kind, data);
          var t := Take(kind, Empty, data[n..]);
          t.(frames := [data[..n]] + t.frames)
  {
    if data != [] {
      FirstFrame(kind, data);
      TakeInFrames(kind, Empty, data);
      var (r, left) := TakeOne(kind, Empty, data);
      if left == 0 {
        assert data[|data| - left..] == [];
      }
    }
  }

  /** Bytes already in the slot count as the beginning of the stream. */
  lemma HeldFirst(kind: Kind, slot: Slot, data: seq<byte>)
    requires SlotOk(kind, slot)
    ensures Take(kind, Empty, Held(slot) + data) == Take(kind, slot, data)
  {
    TakeConcat(kind, Empty, Held(slot), data);
    TakeFromBoundary(kind, Held(slot));
    if slot.Partial? {
      NonEmptyHeld(kind, slot);
      var r := Take(kind, slot, data);
      assert [] + r.frames == r.frames;
    } else {
      assert [] + data == data;
    }
  }

  lemma NonEmptyHeld(kind: Kind, slot: Slot)
    requires SlotOk(kind, slot) && slot.Partial?
    ensures SlotFor(kind, slot.data) == slot && slot.data != []
    ensures |slot.data| >= HeaderLen(kind) ==> !Oversized(kind, slot.data) && |slot.data| < FrameLen(kind, slot.data)
  {
  }

  lemma {:induction false} DroppedFromBoundary(kind: Kind, data: seq<byte>)
    ensures Take(kind, Empty, data).dropped == 0 <==> LosesNothing(kind, data)
    decreases |data|
  {
    TakeFromBoundary(kind, data);
    if |data| >= HeaderLen(kind) && !Oversized(kind, data) && |data| >= FrameLen(kind, data) {
      DroppedFromBoundary(kind, data[FrameLen(kind, data)..]);
    }
  }

  /** Cutting the stream differently never matters exactly when nothing follows
      an oversized header. */
  lemma IndependentExactly(kind: Kind, slot: Slot, data: seq<byte>)
    requires SlotOk(kind, slot)
    ensures (forall chunks :: Concat(chunks) == data ==>
               TakeChunks(kind, slot, chunks).slot == Take(kind, slot, data).slot
               && TakeChunks(kind, slot, chunks).frames == Take(kind, slot, data).frames)
            <==> LosesNothing(kind, Held(slot) + data)
  {
    HeldFirst(kind, slot, data);
    DroppedFromBoundary(kind, Held(slot) + data);
    if LosesNothing(kind, Held(slot) + data) {
      forall chunks | Concat(chunks) == data
        ensures TakeChunks(kind, slot, chunks) == Take(kind, slot, data) {
        FragmentationIndependent(kind, slot, chunks);
      }
    } else {
      CutMatters(kind, slot, data);
    }
  }

  function Held(slot: Slot): seq<byte> {
    if slot.Partial? then slot.data else []
  }

  /** Frames that all fit are reassembled into exactly the frames the headers
      cut the stream into, the unfinished rest staying in the slot; one that does
      not fit is reported. */
  lemma {:induction false} TakeIsParse(kind: Kind, data: seq<byte>)
    ensures var (frames, rest) := Parse(kind, data);
      if AllFit(kind, data) then Take(kind, Empty, data) == Outcome(SlotFor(kind, rest), frames, false, 0)
      else Take(kind, Empty, data).failed
    decreases |data|
  {
    TakeFromBoundary(kind, data);
    if |data| >= HeaderLen(kind) && !Oversized(kind, data) && |data| >= FrameLen(kind, data) {
      TakeIsParse(kind, data[FrameLen(kind, data)..]);
    }
  }

  ghost predicate WellFormed(kind: Kind, f: seq<byte>) {
    |f| >= HeaderLen(kind) && !Oversized(kind, f) && |f| == FrameLen(kind, f)
  }

  /** Which byte strings are whole frames: the length stands in the third and fourth byte
      of ACL data, low byte first, in the third of SCO data and in the second of an event. */
  lemma WellFormedExactly(kind: Kind, f: seq<byte>)
    requires kind.ptype in {2, 3, 4}
    ensures WellFormed(kind, f) <==>
      && |f| <= kind.room
      && (kind.ptype == 2 ==> |f| >= 4 && |f| == 4 + (f[2] as nat) + 256 * (f[3] as nat))
      && (kind.ptype == 3 ==> |f| >= 3 && |f| == 3 + f[2] as nat)
      && (kind.ptype == 4 ==> |f| >= 2 && |f| == 2 + f[1] as nat)
  {
  }

  lemma OneFrame(kind: Kind, f: seq<byte>)
    requires WellFormed(kind, f)
    ensures Take(kind, Empty, f) == Outcome(Empty, [f], false, 0)
  {
    hide Take, WellFormed;
    FramesRoundTrip(kind, [f]);
    assert [f][1..] == [];
    assert Concat([f]) == f + [];
    assert f + [] == f;
  }

  /** A complete header is refused exactly when the frame it announces does not fit. */
  lemma RefusedExactly(kind: Kind, h: seq<byte>)
    requires kind.ptype in {2, 3, 4}
    requires |h| == if kind.ptype == 2 then 4 else if kind.ptype == 3 then 3 else 2
    ensures Take(kind, Empty, h).failed <==>
      kind.room < if kind.ptype == 2 then 4 + (h[2] as nat) + 256 * (h[3] as nat)
                  else if kind.ptype == 3 then 3 + h[2] as nat else 2 + h[1] as nat
  {
    TakeFromBoundary(kind, h);
    if !Oversized(kind, h) && |h| == FrameLen(kind, h) {
      assert h[|h|..] == [];
      TakeNothing(kind, Empty);
    }
    hide Take;
  }

  /** Every payload that fits its skb is delivered behind its header, and up to 1024
      bytes always fit. */
  lemma AclDelivered(kind: Kind, h0: byte, h1: byte, p: seq<byte>)
    requires kind.ptype == 2 && (|p| <= 1024 || (|p| <= 0xffff && 4 + |p| <= kind.room))
    ensures var f := [h0, h1, |p| % 256, |p| / 256] + p;
      Take(kind, Empty, f) == Outcome(Empty, [f], false, 0)
  {
    var header: seq<byte> := [h0, h1, |p| % 256, |p| / 256];
    WellFormedExactly(kind, header + p);
    hide WellFormed;
    OneFrame(kind, header + p);
  }

  lemma ScoDelivered(kind: Kind, h0: byte, h1: byte, p: seq<byte>)
    requires kind.ptype == 3 && (|p| <= 252 || (|p| <= 0xff && 3 + |p| <= kind.room))
    ensures var f := [h0, h1, |p|] + p;
      Take(kind, Empty, f) == Outcome(Empty, [f], false, 0)
  {
    var header: seq<byte> := [h0, h1, |p|];
    WellFormedExactly(kind, header + p);
    hide WellFormed;
    OneFrame(kind, header + p);
  }

  /** An event always fits. */
  lemma EventDelivered(kind: Kind, code: byte, p: seq<byte>)
    requires kind.ptype == 4 && |p| <= 0xff
    ensures var f := [code, |p|] + p;
      Take(kind, Empty, f) == Outcome(Empty, [f], false, 0)
  {
    var header: seq<byte> := [code, |p|];
    WellFormedExactly(kind, header + p);
    hide WellFormed;
    OneFrame(kind, header + p);
  }

  /** Whole frames, in whatever chunks they arrive, come out as themselves. */
  lemma {:induction false} FramesRoundTrip(kind: Kind, frames: seq<seq<byte>>)
    requires forall i :: 0 <= i < |frames| ==> WellFormed(kind, frames[i])
    ensures Take(kind, Empty, Concat(frames)) == Outcome(Empty, frames, false, 0)
    decreases |frames|
  {
    if frames != [] {
      var f, rest := frames[0], Concat(frames[1..]);
      FramesRoundTrip(kind, frames[1..]);
      TakeFromBoundary(kind, f + rest);
      assert (f + rest)[..|f|] == f && (f + rest)[|f|..] == rest;
      SameHeader(kind, f + rest, |f|);
      assert [f] + frames[1..] == frames;
    }
  }

  lemma ChunkedRoundTrip(kind: Kind, frames: seq<seq<byte>>, chunks: seq<seq<byte>>)
    requires forall i :: 0 <= i < |frames| ==> WellFormed(kind, frames[i])
    requires Concat(chunks) == Concat(frames)
    ensures TakeChunks(kind, Empty, chunks) == Outcome(Empty, frames, false, 0)
  {
    FramesRoundTrip(kind, frames);
    FragmentationIndependent(kind, Empty, chunks);
  }

  /** A header that announces too much, with one byte behind it: taken at once the
      byte is lost, in a chunk of its own it starts a new frame. */
  lemma OversizedLosesByte(room: nat, b: byte)
    requires Capacity(HCI_ACLDATA_PKT) <= room < 4 + 0xffff
    ensures var kind, data := TypeAndRoom(HCI_ACLDATA_PKT, room), [0, 0, 0xff, 0xff, b];
      && Take(kind, Empty, data) == Outcome(Empty, [], true, 1)
      && TakeChunks(kind, Empty, [data[..4], data[4..]]) == Outcome(Partial([b], 3), [], true, 0)
  {
    var kind: Kind := TypeAndRoom(HCI_ACLDATA_PKT, room);
    var header: seq<byte>, rest: seq<byte> := [0, 0, 0xff, 0xff], [b];
    var data: seq<byte> := [0, 0, 0xff, 0xff, b];
    TakeFromBoundary(kind, data);
    TakeFromBoundary(kind, header);
    TakeFromBoundary(kind, rest);
    assert Take(kind, Empty, header) == Outcome(Empty, [], true, 0);
    assert Take(kind, Empty, rest) == Outcome(Partial([b], 3), [], false, 0);
    assert data[..4] == header && data[4..] == rest;
    hide Take;
    var tail: seq<seq<byte>> := [rest];
    assert [header, rest][1..] == tail && tail[1..] == [];
    assert TakeChunks(kind, Empty, tail) == Outcome(Partial([b], 3), [], false, 0);
  }
}
