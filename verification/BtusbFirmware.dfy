/** `download_data`: a firmware image sent to the controller in fragments, as many
    at a time as the last command-complete event allows. */
module BtusbFirmware {
  import opened Common

  const PATCH_SEG_MAX := 252
  const DATA_END: byte := 0x80

  type error = code: int | code < 0 witness -1

  /** What `rcv_hci_evt` brings: an error, or the command-complete event. */
  datatype Reply = Failed(code: error) | Complete(status: byte, index: byte, ncmd: byte)

  /** One thing that happened: a fragment was sent or could not be, an event came or
      could not be received. */
  datatype Step =
    | Sent(index: byte, data: seq<byte>)
    | Refused(code: error)
    | Got(status: byte, index: byte, ncmd: byte)
    | Missed(code: error)

  // ---- The fragments of an image ----

  function FragNum(len: nat): (n: nat)
    ensures n >= 1
  {
    len / PATCH_SEG_MAX + 1
  }

  /** The index byte of fragment `i` of `n`: 0, then 1 to 127 round and round, the
      last one marked. */
  function FragIndex(i: nat, n: nat): byte {
    var low := if i == 0 then 0 else (i - 1) % 0x7f + 1;
    if i == n - 1 then low + DATA_END else low
  }

  function FragData(fw: seq<byte>, i: nat): seq<byte>
    requires i < FragNum(|fw|)
  {
    if i == FragNum(|fw|) - 1 then fw[i * PATCH_SEG_MAX..] else fw[i * PATCH_SEG_MAX..(i + 1) * PATCH_SEG_MAX]
  }

  function Frag(fw: seq<byte>, i: nat): Step
    requires i < FragNum(|fw|)
  {
    Sent(FragIndex(i, FragNum(|fw|)), FragData(fw, i))
  }

  /** The first `k` fragments. */
  function Frags(fw: seq<byte>, k: nat): seq<Step>
    requires k <= FragNum(|fw|)
  {
    if k == 0 then [] else Frags(fw, k - 1) + [Frag(fw, k - 1)]
  }

  // ---- What can be said of a trace ----

  function SentIn(trace: seq<Step>): seq<Step> {
    if trace == [] then []
    else
      var last := |trace| - 1;
      SentIn(trace[..last]) + if trace[last].Sent? then [trace[last]] else []
  }

  /** The attempts to send, and the attempts to receive, in order. */
  function TriesIn(trace: seq<Step>): seq<Step> {
    if trace == [] then []
    else
      var last := |trace| - 1;
      TriesIn(trace[..last]) + if trace[last].Sent? || trace[last].Refused? then [trace[last]] else []
  }

  function AnswersIn(trace: seq<Step>): seq<Step> {
    if trace == [] then []
    else
      var last := |trace| - 1;
      AnswersIn(trace[..last]) + if trace[last].Got? || trace[last].Missed? then [trace[last]] else []
  }

  /** Commands sent and not yet completed. */
  function Outstanding(trace: seq<Step>): int {
    if trace == [] then 0
    else
      var last := |trace| - 1;
      Outstanding(trace[..last]) + if trace[last].Sent? then 1 else if trace[last].Got? then -1 else 0
  }

  /** The number of commands the latest event allows; one before any event. */
  function Granted(trace: seq<Step>): nat {
    if trace == [] then 1
    else
      var last := |trace| - 1;
      if trace[last].Got? then trace[last].ncmd else Granted(trace[..last])
  }

  /** No command was ever sent beyond the number granted. */
  ghost predicate WithinCredit(trace: seq<Step>) {
    trace != [] ==>
      var last := |trace| - 1;
      WithinCredit(trace[..last]) && (trace[last].Sent? ==> Outstanding(trace) <= Granted(trace))
  }

  /** Fragments numbered below `k`, each at most once and in increasing order. */
  ghost predicate Increasing(sent: seq<Step>, fw: seq<byte>, k: nat)
    requires k <= FragNum(|fw|)
  {
    if k == 0 then sent == []
    else
      || Increasing(sent, fw, k - 1)
      || (sent != [] && sent[|sent| - 1] == Frag(fw, k - 1) && Increasing(sent[..|sent| - 1], fw, k - 1))
  }

  // ---- How a download ends ----

  /** The result of `send_hci_cmd` and what `rcv_hci_evt` brings the `k`-th time;
      past the end of the inputs both fail. */
  function SendResult(sends: seq<int>, k: nat): int {
    if k < |sends| then sends[k] else -1
  }

  function Answer(replies: seq<Reply>, k: nat): Step {
    if k >= |replies| then Missed(-1)
    else
      match replies[k]
      case Failed(code) => Missed(code)
      case Complete(status, index, ncmd) => Got(status, index, ncmd)
  }

  predicate LastIndex(index: byte, fragNum: nat) {
    index >= DATA_END || index == fragNum - 1
  }

  /** The error a step ends the download with. */
  function Failure(s: Step): Option<error> {
    match s
    case Sent(_, _) => None
    case Refused(code) => Some(code)
    case Got(status, _, _) => if status != 0 then Some(-1) else None
    case Missed(code) => Some(code)
  }

  predicate Ends(s: Step, fragNum: nat) {
    Failure(s).Some? || (s.Got? && LastIndex(s.index, fragNum))
  }

  ghost predicate Running(trace: seq<Step>, fragNum: nat) {
    forall i :: 0 <= i < |trace| ==> !Ends(trace[i], fragNum)
  }

  /** Nothing follows a failed send or receive, a bad status or the last index. */
  ghost predicate Orderly(trace: seq<Step>, fragNum: nat) {
    trace == [] || Running(trace[..|trace| - 1], fragNum)
  }

  /** The trace is what the inputs make of it. */
  ghost predicate Follows(trace: seq<Step>, sends: seq<int>, replies: seq<Reply>) {
    && (forall k :: 0 <= k < |AnswersIn(trace)| ==> AnswersIn(trace)[k] == Answer(replies, k))
    && (forall k :: 0 <= k < |TriesIn(trace)| ==> TriedAs(TriesIn(trace)[k], SendResult(sends, k)))
  }

  ghost predicate TriedAs(s: Step, result: int) {
    if result < 0 then s == Refused(result) else s.Sent?
  }

  /** The result that belongs to a trace: the error of its last step, or the length. */
  function Result(trace: seq<Step>, fwLen: nat): int {
    if trace != [] && Failure(trace[|trace| - 1]).Some? then Failure(trace[|trace| - 1]).value else fwLen
  }

  /** What the result tells, step by step: after an error, a status other than 0 or the
      index of the last fragment nothing follows, and the result is the error, -1 or the
      length; if nothing of the kind happened it is the length. */
  ghost predicate Verdict(trace: seq<Step>, fwLen: nat, ret: int) {
    && (forall i :: 0 <= i < |trace| ==> (i == |trace| - 1 && StepResult(trace[i], fwLen, ret)) || GoesOn(trace[i], fwLen))
    && (trace == [] || GoesOn(trace[|trace| - 1], fwLen) ==> ret == fwLen)
  }

  predicate GoesOn(s: Step, fwLen: nat) {
    s.Sent? || (s.Got? && s.status == 0 && s.index < 0x80 && s.index as nat != fwLen / 252)
  }

  predicate StepResult(s: Step, fwLen: nat, ret: int) {
    match s
    case Sent(_, _) => false
    case Refused(code) => ret == code
    case Missed(code) => ret == code
    case Got(status, index, _) =>
      if status != 0 then ret == -1 else (index >= 0x80 || index as nat == fwLen / 252) && ret == fwLen
  }

  lemma VerdictHolds(trace: seq<Step>, fwLen: nat)
    requires Orderly(trace, FragNum(fwLen))
    ensures Verdict(trace, fwLen, Result(trace, fwLen))
  {
    forall i | 0 <= i < |trace| - 1 ensures GoesOn(trace[i], fwLen) {
      assert !Ends(trace[..|trace| - 1][i], FragNum(fwLen));
    }
  }

  lemma Extend(trace: seq<Step>, s: Step)
    ensures SentIn(trace + [s]) == SentIn(trace) + (if s.Sent? then [s] else [])
    ensures TriesIn(trace + [s]) == TriesIn(trace) + (if s.Sent? || s.Refused? then [s] else [])
    ensures AnswersIn(trace + [s]) == AnswersIn(trace) + (if s.Got? || s.Missed? then [s] else [])
    ensures Outstanding(trace + [s]) == Outstanding(trace) + (if s.Sent? then 1 else if s.Got? then -1 else 0)
    ensures Granted(trace + [s]) == if s.Got? then s.ncmd else Granted(trace)
    ensures WithinCredit(trace + [s]) <==>
      WithinCredit(trace) && (s.Sent? ==> Outstanding(trace) + 1 <= Granted(trace))
  {
    assert (trace + [s])[..|trace|] == trace;
  }

  // ---- A controller that answers every fragment ----

  /** Reply `k` echoes the index of fragment `k` and reports success. */
  ghost predicate Echoes(replies: seq<Reply>, n: nat) {
    |replies| >= n && forall k :: 0 <= k < n ==> EchoOf(replies[k], k, n)
  }

  ghost predicate EchoOf(r: Reply, k: nat, n: nat) {
    r.Complete? && r.status == 0 && r.index == FragIndex(k, n)
  }

  /** How many fragments get sent to such a controller, once the batch of `size`
      from fragment `start` is under way: a batch ended by a grant of zero is the
      last. */
  function Reach(replies: seq<Reply>, n: nat, start: nat, size: nat): (r: nat)
    requires start < n && AllComplete(replies, n)
    ensures r <= n
    decreases n - start
  {
    if size == 0 then start
    else if start + size >= n then n
    else if replies[start + size - 1].ncmd == 0 then start + size
    else Reach(replies, n, start + size, replies[start + size - 1].ncmd)
  }

  lemma IncreasingNone(fw: seq<byte>)
    ensures Increasing([], fw, 0)
  {
  }

  lemma IncreasingSend(sent: seq<Step>, fw: seq<byte>, k: nat)
    requires k < FragNum(|fw|) && Increasing(sent, fw, k)
    ensures Increasing(sent + [Frag(fw, k)], fw, k + 1)
  {
    var s := sent + [Frag(fw, k)];
    assert s[..|s| - 1] == sent;
  }

  lemma {:induction false} IncreasingSkip(sent: seq<Step>, fw: seq<byte>, k: nat, n: nat)
    requires k <= n <= FragNum(|fw|) && Increasing(sent, fw, k)
    ensures Increasing(sent, fw, n)
    decreases n - k
  {
    if k < n {
      assert Increasing(sent, fw, k + 1);
      IncreasingSkip(sent, fw, k + 1, n);
    }
  }

  /** What the memcpy copies for fragment `i` is its part of the image. */
  lemma Copied(fw: seq<byte>, i: nat)
    requires i < FragNum(|fw|)
    ensures var n := if i == FragNum(|fw|) - 1 then |fw| % PATCH_SEG_MAX else PATCH_SEG_MAX;
      i * PATCH_SEG_MAX + n <= |fw| && FragData(fw, i) == fw[i * PATCH_SEG_MAX..i * PATCH_SEG_MAX + n]
  {
  }

  /** Among echoed replies only the last one ends the download. */
  lemma EchoEnds(r: Reply, k: nat, n: nat)
    requires k < n && EchoOf(r, k, n)
    ensures r.index >= DATA_END || r.index == n - 1 <==> k == n - 1
  {
  }

  /** One step more in a running download. */
  lemma Advance(trace: seq<Step>, s: Step, sends: seq<int>, replies: seq<Reply>, fragNum: nat)
    requires Running(trace, fragNum) && Follows(trace, sends, replies)
    requires s.Got? || s.Missed? ==> s == Answer(replies, |AnswersIn(trace)|)
    requires s.Sent? || s.Refused? ==> TriedAs(s, SendResult(sends, |TriesIn(trace)|))
    ensures var t := trace + [s];
      && Orderly(t, fragNum) && Follows(t, sends, replies)
      && (Running(t, fragNum) <==> !Ends(s, fragNum))
  {
    Extend(trace, s);
    hide SentIn, TriesIn, AnswersIn, Outstanding, Granted, WithinCredit, Answer, SendResult, TriedAs, Ends;
    var t := trace + [s];
    assert t[..|t| - 1] == trace && t[|trace|] == s;
    assert !Ends(s, fragNum) ==> Running(t, fragNum);
  }

  /** The inner loop: wait for the completions of the batch.  It goes on exactly when
      every event of the batch came, with status 0 and not the last index; otherwise
      the first that did not ends the download with its error or the length. */
  method AwaitBatch(ghost sends: seq<int>, replies: seq<Reply>, rcvd: nat, ncmd: nat, fragNum: nat, fwLen: nat,
                    lastNcmd: nat, trace: seq<Step>)
      returns (ret: Option<int>, rcvd': nat, lastNcmd': nat, trace': seq<Step>)
    requires fragNum >= 1 && WithinCredit(trace) && Running(trace, fragNum)
    requires Follows(trace, sends, replies) && rcvd == |AnswersIn(trace)|
    ensures WithinCredit(trace') && SentIn(trace') == SentIn(trace) && TriesIn(trace') == TriesIn(trace)
    ensures Orderly(trace', fragNum) && Follows(trace', sends, replies)
    ensures rcvd' == |AnswersIn(trace')|
    ensures ret.None? <==> forall k :: rcvd <= k < rcvd + ncmd ==> !Ends(Answer(replies, k), fragNum)
    ensures ret.Some? ==>
      && rcvd < rcvd' <= rcvd + ncmd && Ends(Answer(replies, rcvd' - 1), fragNum)
      && (forall k :: rcvd <= k < rcvd' - 1 ==> !Ends(Answer(replies, k), fragNum))
      && trace' != [] && trace'[|trace'| - 1] == Answer(replies, rcvd' - 1) && ret.value == Result(trace', fwLen)
    ensures ret.None? ==>
      && Running(trace', fragNum)
      && rcvd' == rcvd + ncmd && Outstanding(trace') == Outstanding(trace) - ncmd
      && (ncmd > 0 ==> rcvd' <= |replies| && replies[rcvd' - 1].Complete?
                       && lastNcmd' == replies[rcvd' - 1].ncmd == Granted(trace'))
      && (ncmd == 0 ==> lastNcmd' == lastNcmd && trace' == trace)
    ensures Echoes(replies, fragNum) && rcvd < fragNum ==>
      ret == if rcvd + ncmd >= fragNum then Some(fwLen) else None
  {
    hide SentIn, TriesIn, AnswersIn, Outstanding, Granted, WithinCredit, Running, Orderly, Follows, Echoes;
    StillOrderly(trace, fragNum);
    var left := ncmd;
    rcvd', lastNcmd', trace' := rcvd, lastNcmd, trace;
    while left > 0
      invariant 0 <= left <= ncmd && rcvd' == rcvd + (ncmd - left) == |AnswersIn(trace')|
      invariant WithinCredit(trace') && SentIn(trace') == SentIn(trace) && TriesIn(trace') == TriesIn(trace)
      invariant Running(trace', fragNum) && Orderly(trace', fragNum) && Follows(trace', sends, replies)
      invariant Outstanding(trace') == Outstanding(trace) - (ncmd - left)
      invariant left == ncmd ==> lastNcmd' == lastNcmd && trace' == trace
      invariant left < ncmd ==> rcvd' <= |replies| && replies[rcvd' - 1].Complete?
                                && lastNcmd' == replies[rcvd' - 1].ncmd == Granted(trace')
      invariant forall k :: rcvd <= k < rcvd' ==> !Ends(Answer(replies, k), fragNum)
      invariant Echoes(replies, fragNum) && rcvd < fragNum ==> rcvd' < fragNum
    {
      if Echoes(replies, fragNum) && rcvd' < fragNum {
        EchoBatch(replies, fragNum, rcvd');
      }
      var event := Answer(replies, rcvd');
      Extend(trace', event);
      Advance(trace', event, sends, replies, fragNum);
      assert SentIn(trace) + [] == SentIn(trace) && TriesIn(trace) + [] == TriesIn(trace);
      trace' := trace' + [event];
      rcvd' := rcvd' + 1;
      if event.Missed? {
        return Some(event.code), rcvd', lastNcmd', trace';
      }
      lastNcmd' := event.ncmd;
      left := left - 1;
      if event.status != 0 {
        return Some(-1), rcvd', lastNcmd', trace';
      }
      if LastIndex(event.index, fragNum) {
        return Some(fwLen), rcvd', lastNcmd', trace';
      }
    }
    ret := None;
  }

  lemma StillOrderly(trace: seq<Step>, fragNum: nat)
    requires Running(trace, fragNum)
    ensures Orderly(trace, fragNum)
  {
    hide Ends;
  }

  /** A controller that echoes every fragment ends the download with the last one. */
  lemma EchoBatch(replies: seq<Reply>, n: nat, k: nat)
    requires Echoes(replies, n) && k < n
    ensures Ends(Answer(replies, k), n) <==> k == n - 1
    ensures Failure(Answer(replies, k)).None?
  {
    assert EchoOf(replies[k], k, n);
    EchoEnds(replies[k], k, n);
    hide FragIndex;
  }

  lemma EchoGood(r: Reply, k: nat, n: nat)
    requires EchoOf(r, k, n)
    ensures r.Complete? && r.status == 0
  {
  }

  lemma EchoesComplete(replies: seq<Reply>, n: nat)
    requires Echoes(replies, n)
    ensures AllComplete(replies, n)
  {
    hide EchoOf;
    forall k | 0 <= k < n ensures replies[k].Complete? {
      EchoGood(replies[k], k, n);
    }
  }

  ghost predicate AllComplete(replies: seq<Reply>, n: nat) {
    n <= |replies| && forall k :: 0 <= k < n ==> replies[k].Complete?
  }

  ghost predicate SendsSucceed(sends: seq<int>, n: nat) {
    |sends| >= n && forall k :: 0 <= k < n ==> sends[k] >= 0
  }

  /** The batch under way, when the controller answers well: fragments up to `i`
      are sent, those before `start` completed. */
  ghost predicate InBatch(fw: seq<byte>, replies: seq<Reply>, trace: seq<Step>,
                          i: nat, start: nat, step: nat, ncmd: nat, sent: nat, rcvd: nat) {
    var n := FragNum(|fw|);
    && AllComplete(replies, n) && start <= i < n
    && sent == i && rcvd == start && ncmd - step == i - start
    && SentIn(trace) == Frags(fw, i)
    && Reach(replies, n, start, ncmd) == Reach(replies, n, 0, 1)
  }

  /** `download_data` against arbitrary results of the sends and replies; when they
      run out, sending and receiving fail.  The trace is what crossed the wire.  A
      failed send, a failed receive, a bad status or the last index is the end of it,
      and the result is the error, or the length of the image. */
  method DownloadData(fw: seq<byte>, sends: seq<int>, replies: seq<Reply>) returns (ret: int, trace: seq<Step>)
    ensures WithinCredit(trace)
    ensures Increasing(SentIn(trace), fw, FragNum(|fw|))
    ensures Follows(trace, sends, replies) && Orderly(trace, FragNum(|fw|)) && ret == Result(trace, |fw|)
    ensures Verdict(trace, |fw|, ret)
    ensures var n := FragNum(|fw|);
      SendsSucceed(sends, n) && Echoes(replies, n) ==>
        AllComplete(replies, n) && ret == |fw| && SentIn(trace) == Frags(fw, Reach(replies, n, 0, 1))
  {
    hide SentIn, Outstanding, Granted, WithinCredit, FragIndex, FragData, Echoes, SendsSucceed, SendResult;
    hide TraceOk, TraceEnd, Running, Follows, TriesIn, AnswersIn, Increasing, Orderly, Result, Ends, Answer, Verdict;
    var fragNum := |fw| / PATCH_SEG_MAX + 1;
    var fragLen := PATCH_SEG_MAX;
    var ncmd, step, lastNcmd := 1, 1, 0;
    var pcur, sent, rcvd := 0, 0, 0;
    trace := [];
    ghost var good := SendsSucceed(sends, fragNum) && Echoes(replies, fragNum);
    ghost var start := 0;
    NothingYet(sends, replies, fw);
    if good {
      EchoesComplete(replies, fragNum);
    }
    var i := 0;
    while i < fragNum
      invariant 0 <= i <= fragNum && pcur == i * PATCH_SEG_MAX && (i < fragNum ==> fragLen == PATCH_SEG_MAX)
      invariant 0 <= step <= ncmd && 0 <= rcvd && 0 <= sent && 0 <= lastNcmd && 0 <= start
      invariant TraceOk(trace, sends, replies, fw, i, sent, rcvd)
      invariant i < fragNum && step > 0 ==> Outstanding(trace) == ncmd - step && Granted(trace) == ncmd
      invariant i < fragNum && step == 0 ==> ncmd == 0 && lastNcmd == 0
      invariant good && i < fragNum && step > 0 ==> InBatch(fw, replies, trace, i, start, step, ncmd, sent, rcvd)
      invariant good && (i == fragNum || step == 0) ==> SentIn(trace) == Frags(fw, Reach(replies, fragNum, 0, 1))
    {
      var index := FragIndex(i, fragNum);
      if i == fragNum - 1 {
        fragLen := |fw| % PATCH_SEG_MAX;
      }
      Copied(fw, i);
      var data := fw[pcur..pcur + fragLen];
      if step > 0 {
        var result := SendResult(sends, sent);
        SendGood(sends, fragNum, sent);
        if result < 0 {
          Refuses(trace, sends, replies, fw, i, sent, rcvd);
          EndParts(trace + [Refused(result)], sends, replies, fw, result);
          return result, trace + [Refused(result)];
        }
        Sends(trace, sends, replies, fw, i, sent, rcvd);
        sent := sent + 1;
        trace := trace + [Sent(index, data)];
        step := step - 1;
        if step > 0 && i < fragNum - 1 {
          pcur := pcur + PATCH_SEG_MAX;
          i := i + 1;
          continue;
        }
      } else {
        Skips(trace, sends, replies, fw, i, sent, rcvd);
      }
      ghost var before := trace;
      TraceParts(trace, sends, replies, fw, i + 1, sent, rcvd);
      var done;
      done, rcvd, lastNcmd, trace := AwaitBatch(sends, replies, rcvd, ncmd, fragNum, |fw|, lastNcmd, trace);
      if done.Some? {
        Ended(before, trace, sends, replies, fw, i + 1, sent, done.value);
        EndParts(trace, sends, replies, fw, done.value);
        return done.value, trace;
      }
      Continued(before, trace, sends, replies, fw, i + 1, sent);
      start := start + ncmd;
      ncmd := lastNcmd;
      step := lastNcmd;
      pcur := pcur + PATCH_SEG_MAX;
      i := i + 1;
    }
    Finished(trace, sends, replies, fw, sent, rcvd);
    EndParts(trace, sends, replies, fw, |fw|);
    ret := |fw|;
  }

  /** What holds of the trace of a running download before fragment `i`. */
  ghost predicate TraceOk(trace: seq<Step>, sends: seq<int>, replies: seq<Reply>, fw: seq<byte>, i: nat, sent: nat, rcvd: nat) {
    && i <= FragNum(|fw|) && WithinCredit(trace) && Increasing(SentIn(trace), fw, i)
    && Running(trace, FragNum(|fw|)) && Follows(trace, sends, replies)
    && sent == |TriesIn(trace)| && rcvd == |AnswersIn(trace)|
  }

  /** And of the trace a download returns with. */
  ghost predicate TraceEnd(trace: seq<Step>, sends: seq<int>, replies: seq<Reply>, fw: seq<byte>, ret: int) {
    && WithinCredit(trace) && Increasing(SentIn(trace), fw, FragNum(|fw|))
    && Follows(trace, sends, replies) && Orderly(trace, FragNum(|fw|)) && ret == Result(trace, |fw|)
  }

  lemma TraceParts(trace: seq<Step>, sends: seq<int>, replies: seq<Reply>, fw: seq<byte>, i: nat, sent: nat, rcvd: nat)
    requires TraceOk(trace, sends, replies, fw, i, sent, rcvd)
    ensures WithinCredit(trace) && Running(trace, FragNum(|fw|)) && Follows(trace, sends, replies) && rcvd == |AnswersIn(trace)|
  {
    hide WithinCredit, Running, Follows, AnswersIn, Increasing;
  }

  lemma EndParts(trace: seq<Step>, sends: seq<int>, replies: seq<Reply>, fw: seq<byte>, ret: int)
    requires TraceEnd(trace, sends, replies, fw, ret)
    ensures WithinCredit(trace) && Increasing(SentIn(trace), fw, FragNum(|fw|))
    ensures Follows(trace, sends, replies) && Orderly(trace, FragNum(|fw|)) && ret == Result(trace, |fw|)
    ensures Verdict(trace, |fw|, ret)
  {
    hide WithinCredit, Increasing, Follows, Orderly, Result, Verdict;
    VerdictHolds(trace, |fw|);
  }

  lemma Sends(trace: seq<Step>, sends: seq<int>, replies: seq<Reply>, fw: seq<byte>, i: nat, sent: nat, rcvd: nat)
    requires TraceOk(trace, sends, replies, fw, i, sent, rcvd) && i < FragNum(|fw|)
    requires SendResult(sends, sent) >= 0 && Outstanding(trace) + 1 <= Granted(trace)
    ensures var t := trace + [Frag(fw, i)];
      && TraceOk(t, sends, replies, fw, i + 1, sent + 1, rcvd)
      && Outstanding(t) == Outstanding(trace) + 1 && Granted(t) == Granted(trace) && SentIn(t) == SentIn(trace) + [Frag(fw, i)]
  {
    var s, fragNum := Frag(fw, i), FragNum(|fw|);
    hide Increasing, SentIn, TriesIn, AnswersIn, Outstanding, Granted, WithinCredit, FragIndex, FragData;
    hide Running, Orderly, Follows, Answer, SendResult;
    SentAsTried(s.index, s.data, SendResult(sends, sent), fragNum);
    Extend(trace, s);
    Advance(trace, s, sends, replies, fragNum);
    IncreasingSend(SentIn(trace), fw, i);
    assert AnswersIn(trace) + [] == AnswersIn(trace);
  }

  lemma Skips(trace: seq<Step>, sends: seq<int>, replies: seq<Reply>, fw: seq<byte>, i: nat, sent: nat, rcvd: nat)
    requires TraceOk(trace, sends, replies, fw, i, sent, rcvd) && i < FragNum(|fw|)
    ensures TraceOk(trace, sends, replies, fw, i + 1, sent, rcvd)
  {
    hide Increasing, SentIn, TriesIn, AnswersIn, WithinCredit, Running, Follows;
    IncreasingSkip(SentIn(trace), fw, i, i + 1);
  }

  lemma Refuses(trace: seq<Step>, sends: seq<int>, replies: seq<Reply>, fw: seq<byte>, i: nat, sent: nat, rcvd: nat)
    requires TraceOk(trace, sends, replies, fw, i, sent, rcvd) && SendResult(sends, sent) < 0
    ensures var code := SendResult(sends, sent);
      TraceEnd(trace + [Refused(code)], sends, replies, fw, code) && SentIn(trace + [Refused(code)]) == SentIn(trace)
  {
    var code, fragNum := SendResult(sends, sent), FragNum(|fw|);
    SendGood(sends, fragNum, sent);
    hide Increasing, SentIn, TriesIn, AnswersIn, Outstanding, Granted, WithinCredit;
    hide Running, Orderly, Follows, Answer, SendResult, Result;
    Extend(trace, Refused(code));
    Advance(trace, Refused(code), sends, replies, fragNum);
    IncreasingSkip(SentIn(trace), fw, i, fragNum);
    RefusedResult(trace, code, |fw|);
    assert SentIn(trace) + [] == SentIn(trace);
  }

  lemma Ended(before: seq<Step>, trace: seq<Step>, sends: seq<int>, replies: seq<Reply>, fw: seq<byte>, i: nat, sent: nat, ret: int)
    requires exists rcvd :: TraceOk(before, sends, replies, fw, i, sent, rcvd)
    requires WithinCredit(trace) && SentIn(trace) == SentIn(before) && Follows(trace, sends, replies)
    requires Orderly(trace, FragNum(|fw|)) && ret == Result(trace, |fw|)
    ensures TraceEnd(trace, sends, replies, fw, ret)
  {
    hide Increasing, SentIn, TriesIn, AnswersIn, WithinCredit, Running, Orderly, Follows, Result;
    IncreasingSkip(SentIn(before), fw, i, FragNum(|fw|));
  }

  lemma Continued(before: seq<Step>, trace: seq<Step>, sends: seq<int>, replies: seq<Reply>, fw: seq<byte>, i: nat, sent: nat)
    requires exists rcvd :: TraceOk(before, sends, replies, fw, i, sent, rcvd)
    requires WithinCredit(trace) && SentIn(trace) == SentIn(before) && TriesIn(trace) == TriesIn(before)
    requires Running(trace, FragNum(|fw|)) && Follows(trace, sends, replies)
    ensures TraceOk(trace, sends, replies, fw, i, sent, |AnswersIn(trace)|)
  {
    hide Increasing, SentIn, TriesIn, AnswersIn, WithinCredit, Running, Follows;
  }

  lemma Finished(trace: seq<Step>, sends: seq<int>, replies: seq<Reply>, fw: seq<byte>, sent: nat, rcvd: nat)
    requires TraceOk(trace, sends, replies, fw, FragNum(|fw|), sent, rcvd)
    ensures TraceEnd(trace, sends, replies, fw, |fw|)
  {
    hide Increasing, SentIn, TriesIn, AnswersIn, WithinCredit, Running, Orderly, Follows, Result;
    RunningResult(trace, FragNum(|fw|), |fw|);
  }

  lemma RefusedResult(trace: seq<Step>, code: error, fwLen: nat)
    ensures Result(trace + [Refused(code)], fwLen) == code
  {
  }

  lemma RunningResult(trace: seq<Step>, fragNum: nat, fwLen: nat)
    requires Running(trace, fragNum)
    ensures Result(trace, fwLen) == fwLen && Orderly(trace, fragNum)
  {
    StillOrderly(trace, fragNum);
  }

  lemma SendGood(sends: seq<int>, n: nat, k: nat)
    ensures SendsSucceed(sends, n) && k < n ==> SendResult(sends, k) >= 0
    ensures SendResult(sends, k) < 0 ==> TriedAs(Refused(SendResult(sends, k)), SendResult(sends, k))
  {
  }

  lemma SentAsTried(index: byte, data: seq<byte>, result: int, fragNum: nat)
    requires result >= 0
    ensures TriedAs(Sent(index, data), result) && !Ends(Sent(index, data), fragNum)
  {
  }

  lemma NothingYet(sends: seq<int>, replies: seq<Reply>, fw: seq<byte>)
    ensures SentIn([]) == [] && Outstanding([]) == 0 && Granted([]) == 1
    ensures TraceOk([], sends, replies, fw, 0, 0, 0)
  {
    IncreasingNone(fw);
  }

  // ---- All of it, exactly when credit keeps coming ----

  /** Every event that ends a batch before the last fragment allows a command. */
  ghost predicate CreditFlows(replies: seq<Reply>, n: nat, start: nat, size: nat)
    requires start < n && AllComplete(replies, n)
    decreases n - start
  {
    size > 0 &&
    (start + size < n ==> CreditFlows(replies, n, start + size, replies[start + size - 1].ncmd))
  }

  lemma {:induction false} ReachExactly(replies: seq<Reply>, n: nat, start: nat, size: nat)
    requires start < n && AllComplete(replies, n)
    ensures Reach(replies, n, start, size) == n <==> CreditFlows(replies, n, start, size)
    decreases n - start
  {
    if 0 < size && start + size < n {
      var g: nat := replies[start + size - 1].ncmd;
      ReachExactly(replies, n, start + size, g);
    }
  }

  /** The data of the fragments, put together. */
  function DataOf(steps: seq<Step>): seq<byte> {
    if steps == [] then []
    else
      var last := |steps| - 1;
      DataOf(steps[..last]) + if steps[last].Sent? then steps[last].data else []
  }

  lemma {:induction false} FragsAre(fw: seq<byte>, k: nat)
    requires k <= FragNum(|fw|)
    ensures |Frags(fw, k)| == k && forall i :: 0 <= i < k ==> Frags(fw, k)[i] == Frag(fw, i)
    decreases k
  {
    hide Frag, FragNum;
    if k > 0 {
      FragsAre(fw, k - 1);
    }
  }

  /** How many bytes of the image the first `k` fragments carry. */
  function Carried(len: nat, k: nat): (r: nat)
    requires k <= FragNum(len)
    ensures r <= len && (k == FragNum(len) ==> r == len) && (k == 0 ==> r == 0)
  {
    if k == FragNum(len) then len else k * PATCH_SEG_MAX
  }

  lemma CarriedStep(fw: seq<byte>, k: nat)
    requires 0 < k <= FragNum(|fw|)
    ensures Carried(|fw|, k - 1) <= Carried(|fw|, k)
    ensures FragData(fw, k - 1) == fw[Carried(|fw|, k - 1)..Carried(|fw|, k)]
  {
  }

  lemma CarriedConcat(fw: seq<byte>, x: nat, y: nat)
    requires x <= y <= |fw|
    ensures fw[..x] + fw[x..y] == fw[..y]
  {
  }

  /** The data of the first `k` fragments is the first part of the image. */
  lemma {:induction false} FragsConcatenate(fw: seq<byte>, k: nat)
    requires k <= FragNum(|fw|)
    ensures DataOf(Frags(fw, k)) == fw[..Carried(|fw|, k)]
    decreases k
  {
    if k > 0 {
      hide Frags, FragData, Carried, FragNum, FragIndex, DataOf;
      FragsConcatenate(fw, k - 1);
      CarriedStep(fw, k);
      FragsUnfold(fw, k);
      DataAppend(Frags(fw, k - 1), Frag(fw, k - 1));
      CarriedConcat(fw, Carried(|fw|, k - 1), Carried(|fw|, k));
    }
  }

  /** All fragments together carry exactly the image. */
  lemma FragsCarryImage(fw: seq<byte>)
    ensures DataOf(Frags(fw, FragNum(|fw|))) == fw
  {
    hide Frags, DataOf;
    FragsConcatenate(fw, FragNum(|fw|));
    assert fw[..|fw|] == fw;
  }

  lemma FragsUnfold(fw: seq<byte>, k: nat)
    requires 0 < k <= FragNum(|fw|)
    ensures Frags(fw, k) == Frags(fw, k - 1) + [Frag(fw, k - 1)]
  {
  }

  lemma DataAppend(steps: seq<Step>, s: Step)
    requires s.Sent?
    ensures DataOf(steps + [s]) == DataOf(steps) + s.data
  {
    assert (steps + [s])[..|steps|] == steps;
  }

  /** Every fragment but the last has 252 bytes; the last has fewer, maybe none. */
  lemma FragSizes(fw: seq<byte>, i: nat)
    requires i < FragNum(|fw|)
    ensures FragNum(|fw|) == |fw| / 252 + 1
    ensures |FragData(fw, i)| == if i < |fw| / 252 then 252 else |fw| % 252
  {
    Copied(fw, i);
  }

  /** Index bytes: the first fragment is 0, the others 1 to 127, and only the last
      carries the end mark. */
  lemma FragIndices(i: nat, n: nat)
    requires i < n
    ensures var x := FragIndex(i, n);
      && (x >= 0x80 <==> i == n - 1)
      && (x % 128 == 0 <==> i == 0)
      && (1 <= i ==> x % 128 == (i - 1) % 127 + 1)
  {
  }

  /** A download to a controller that answers every fragment returns success in any
      case; the image has arrived whole if and only if every batch-ending event
      granted at least one command.  A grant of zero silently loses the rest. */
  method DownloadExactly(fw: seq<byte>, sends: seq<int>, replies: seq<Reply>) returns (ret: int, trace: seq<Step>)
    requires SendsSucceed(sends, FragNum(|fw|)) && Echoes(replies, FragNum(|fw|))
    ensures ret == |fw| && AllComplete(replies, FragNum(|fw|))
    ensures SentIn(trace) == Frags(fw, FragNum(|fw|)) <==> CreditFlows(replies, FragNum(|fw|), 0, 1)
  {
    hide Frags, SentIn, Reach, CreditFlows;
    ret, trace := DownloadData(fw, sends, replies);
    var n := FragNum(|fw|);
    ReachExactly(replies, n, 0, 1);
    FragsAre(fw, n);
    FragsAre(fw, Reach(replies, n, 0, 1));
  }

  /** A grant of zero after the first fragment is the end of the sending. */
  lemma ZeroGrantStops(fw: seq<byte>, replies: seq<Reply>)
    requires FragNum(|fw|) >= 2 && AllComplete(replies, FragNum(|fw|)) && replies[0].ncmd == 0
    ensures Reach(replies, FragNum(|fw|), 0, 1) == 1
    ensures Frags(fw, 1) == [Frag(fw, 0)] && DataOf([Frag(fw, 0)]) == fw[..PATCH_SEG_MAX]
  {
    FragsUnfold(fw, 1);
    assert Frags(fw, 0) == [] && [] + [Frag(fw, 0)] == [Frag(fw, 0)];
    FragsConcatenate(fw, 1);
  }

  /** An image of two fragments, and a controller that accepts the first and grants
      nothing more: the last byte is never sent, and the full length is returned. */
  method ZeroGrantLosesImage() returns (fw: seq<byte>, ret: int, trace: seq<Step>)
    ensures |fw| == 253 && ret == 253 && SentIn(trace) == [Frag(fw, 0)] && DataOf(SentIn(trace)) == fw[..252]
  {
    hide SentIn, DataOf, Frag, Frags, Reach, FragIndex;
    fw := seq(PATCH_SEG_MAX + 1, i => 0);
    var replies := [Complete(0, 0, 0), Complete(0, 1 + DATA_END, 0)];
    EchoesTwo(replies);
    EchoesComplete(replies, 2);
    ZeroGrantStops(fw, replies);
    ret, trace := DownloadData(fw, [0, 0], replies);
  }

  lemma EchoesTwo(replies: seq<Reply>)
    requires replies == [Complete(0, 0, 0), Complete(0, 1 + DATA_END, 0)]
    ensures Echoes(replies, 2)
  {
  }
}
