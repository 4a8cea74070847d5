/** The Bluetooth low-power machine of `bcm_btlpm.c`: when the UART is stopped and
    started again, driven by the sleep work, the receive timer, the host-wake line
    and user writes. */
module BtSleep {

  /** `bluesleep_uart_dev` and its driver data at the time of a write. */
  datatype UartDev = NoDevice | Device(portBound: bool)

  /** The driver's globals.  Both lines are given as asserted or not, whatever their
      polarity. */
  datatype State = State(
    proto: bool,      // BT_PROTO
    asleep: bool,     // BT_ASLEEP
    rxTimer: bool,    // BT_RXTIMER
    btWake: bool,     // ext_wake asserted
    hostWake: bool,   // host_wake asserted
    uport: bool,      // bsi->uport != NULL
    uartOn: bool,     // RTS raised by hsuart_power
    openCount: int,
    timer: bool,      // rx_timer pending
    work: bool,       // sleep_workqueue scheduled
    lpm: bool)        // has_lpm_enabled

  datatype Event =
    | WorkRuns(txEmpty: bool)
    | TimerExpires
    | HostWakeChanges(level: bool)
    | WriteBtWrite(data: bool)                              // anything but '0', or '0'
    | WriteLpm(enable: bool, dev: UartDev, irqOk: bool)     // anything but '0', or '0'

  /** After `bluesleep_probe` and `bluesleep_init`. */
  function Initial(hostWake: bool): State {
    State(false, false, false, true, hostWake, false, true, 1, false, false, false)
  }

  // ---- The handlers on values ----

  function HsuartPower(s: State, on: bool): State {
    if s.uport then s.(uartOn := on) else s
  }

  predicate CanSleep(s: State) {
    !s.btWake && !s.hostWake && !s.rxTimer && s.uport
  }

  /** `bluesleep_sleep_work`. */
  function SleepWork(s: State, txEmpty: bool): State {
    if CanSleep(s) then
      if s.asleep || !txEmpty then s else HsuartPower(s.(asleep := true), false)
    else if s.asleep then HsuartPower(s.(asleep := false, timer := true, rxTimer := true), true)
    else s
  }

  /** `bluesleep_outgoing_data`. */
  function OutgoingData(s: State): State {
    if !s.btWake then HsuartPower(s.(btWake := true, asleep := false), true) else s
  }

  /** `bluesleep_tx_allow_sleep`. */
  function TxAllowSleep(s: State): State {
    s.(btWake := false, work := true)
  }

  /** `bluesleep_rx_timer_expire`. */
  function RxTimerExpire(s: State): State {
    s.(timer := false, rxTimer := false, work := true)
  }

  /** `bluesleep_start`. */
  function Start(s: State, irqOk: bool): State {
    if s.proto || s.openCount != 1 then s
    else if irqOk then s.(timer := true, btWake := true, proto := true, openCount := 0)
    else s.(timer := false, btWake := true)
  }

  /** `bluesleep_stop`. */
  function Stop(s: State): State {
    if !s.proto then s
    else
      var s1 := s.(btWake := true, timer := false, proto := false, openCount := s.openCount + 1);
      if s.asleep then HsuartPower(s1.(asleep := false), true) else s1
  }

  /** `bluesleep_write_proc_lpm`. */
  function WriteProcLpm(s: State, enable: bool, dev: UartDev, irqOk: bool): State {
    if !enable then Stop(s).(lpm := false, uport := false)
    else if s.lpm then s
    else Start(s.(lpm := true, uport := if dev.Device? then dev.portBound else s.uport), irqOk)
  }

  /** One event; work and timer happen only when scheduled, and the host-wake line
      raises its interrupt only while it is requested. */
  function Apply(s: State, e: Event): State {
    match e
    case WorkRuns(txEmpty) => if s.work then SleepWork(s.(work := false), txEmpty) else s
    case TimerExpires => if s.timer then RxTimerExpire(s) else s
    case HostWakeChanges(level) => s.(hostWake := level, work := s.work || s.proto)
    case WriteBtWrite(data) => if data then OutgoingData(s) else TxAllowSleep(s)
    case WriteLpm(enable, dev, irqOk) => WriteProcLpm(s, enable, dev, irqOk)
  }

  function Run(s: State, es: seq<Event>): State {
    if es == [] then s else Apply(Run(s, es[..|es| - 1]), es[|es| - 1])
  }

  // ---- The driver's handlers on its globals ----

  /** Each handler is the step above on the driver's globals; its contract also
      says what the step is for. */
  class Bluesleep {
    var btProto: bool
    var btAsleep: bool
    var btRxTimer: bool
    var extWake: bool
    var hostWake: bool
    var uport: bool
    var uartOn: bool
    var openCount: int
    var rxTimer: bool
    var sleepWork: bool
    var hasLpmEnabled: bool

    function Abs(): State
      reads this
    {
      State(btProto, btAsleep, btRxTimer, extWake, hostWake, uport, uartOn, openCount, rxTimer, sleepWork, hasLpmEnabled)
    }

    /** What holds as long as no interrupt request has failed. */
    ghost predicate Valid()
      reads this
    {
      Inv(Abs())
    }

    constructor (hostWake: bool)
      ensures Valid() && Abs() == Initial(hostWake)
      ensures extWake && uartOn && !btAsleep && !btProto && !uport && !rxTimer && !sleepWork && openCount == 1
    {
      btProto, btAsleep, btRxTimer := false, false, false;
      extWake, this.hostWake := true, hostWake;
      uport, uartOn, openCount := false, true, 1;
      rxTimer, sleepWork, hasLpmEnabled := false, false, false;
    }

    /** `hsuart_power`: without a port nothing happens. */
    method SetHsuartPower(on: bool)
      modifies this`uartOn
      ensures uport ==> uartOn == on
      ensures !uport ==> uartOn == old(uartOn)
    {
      if uport {
        uartOn := on;
      }
    }

    /** `bluesleep_can_sleep`: the guard under which, and under which alone, the
        sleep work may stop the UART. */
    method BluesleepCanSleep() returns (ok: bool)
      ensures ok <==> CanSleep(Abs())
    {
      ok := !extWake && !hostWake && !btRxTimer && uport;
    }

    /** `bluesleep_sleep_work`.  In a valid state: with sleep possible and the UART
        drained it ends asleep with the UART off; with sleep impossible it ends awake
        with the UART on, the timer running if it was the work that woke it up. */
    method BluesleepSleepWork(txEmpty: bool)
      modifies this
      ensures Abs() == SleepWork(old(Abs()), txEmpty)
      ensures old(Valid()) ==> Valid() && WorkDone(old(Abs()), txEmpty, Abs())
    {
      WorkDoes(Abs(), txEmpty);
      hide Inv, WorkDone;
      var canSleep := BluesleepCanSleep();
      if canSleep {
        if btAsleep {
          return;
        }
        if txEmpty {
          btAsleep := true;
          SetHsuartPower(false);
        }
      } else if btAsleep {
        btAsleep := false;
        rxTimer := true;
        btRxTimer := true;
        SetHsuartPower(true);
      }
    }

    /** `bluesleep_outgoing_data`: afterwards the controller is being woken and, from
        a valid state, the UART runs. */
    method BluesleepOutgoingData()
      modifies this
      ensures Abs() == OutgoingData(old(Abs()))
      ensures extWake && (old(Valid()) ==> Valid() && !btAsleep && uartOn)
      ensures old(extWake) ==> Abs() == old(Abs())
    {
      var powerOnUart := false;
      if !extWake {
        extWake := true;
        btAsleep := false;
        powerOnUart := true;
      }
      if powerOnUart {
        SetHsuartPower(true);
      }
    }

    /** `bluesleep_tx_allow_sleep`: it never stops the UART itself, but the work it
        schedules does, once nothing else holds sleep back. */
    method BluesleepTxAllowSleep()
      modifies this`extWake, this`sleepWork
      ensures Abs() == TxAllowSleep(old(Abs()))
      ensures old(Valid()) ==> Valid()
      ensures !hostWake && !btRxTimer && uport && !btAsleep ==> Apply(Abs(), WorkRuns(true)).asleep
    {
      extWake := false;
      sleepWork := true;
    }

    /** `bluesleep_rx_timer_expire`: the flag no longer holds sleep back, and the
        work that finds out is scheduled. */
    method BluesleepRxTimerExpire()
      modifies this`rxTimer, this`btRxTimer, this`sleepWork
      ensures Abs() == RxTimerExpire(old(Abs()))
      ensures old(Valid()) ==> Valid()
      ensures !hostWake && !extWake && uport && !btAsleep ==> Apply(Abs(), WorkRuns(true)).asleep
    {
      rxTimer := false;
      btRxTimer := false;
      sleepWork := true;
    }

    /** `bluesleep_start`, called with the mode already marked as enabled.  The result
        is 0, -EBUSY or the error of `request_irq`. */
    method BluesleepStart(irqResult: int) returns (ret: int)
      modifies this
      ensures Abs() == Start(old(Abs()), irqResult >= 0)
      ensures ret == 0 <==> old(btProto) || (old(openCount) == 1 && irqResult >= 0)
      ensures openCount + (if btProto then 1 else 0) == old(openCount + (if btProto then 1 else 0))
      ensures ret == 0 <==> btProto
      ensures ret != 0 ==> ret == if old(openCount) == 1 then irqResult else -16
      ensures ret == 0 && !old(btProto) && old(!btAsleep && uartOn) && hasLpmEnabled ==> Valid() && extWake && rxTimer
    {
      if btProto {
        return 0;
      }
      openCount := openCount - 1;
      if openCount != 0 {
        openCount := openCount + 1;
        return -16;
      }
      rxTimer := true;
      extWake := true;
      if irqResult < 0 {
        rxTimer := false;
        openCount := openCount + 1;
        return irqResult;
      }
      btProto := true;
      return 0;
    }

    /** `bluesleep_stop`: from a valid state the UART runs afterwards, the wake line is
        asserted if the protocol ran, and the machine can be started again. */
    method BluesleepStop()
      modifies this
      ensures Abs() == Stop(old(Abs()))
      ensures !btProto && (old(!btProto) ==> Abs() == old(Abs()))
      ensures old(Valid()) ==> !btAsleep && uartOn && openCount == 1 && Weak(Abs())
      ensures old(btProto) ==> extWake && !rxTimer
    {
      if !btProto {
        return;
      }
      extWake := true;
      rxTimer := false;
      btProto := false;
      if btAsleep {
        btAsleep := false;
        SetHsuartPower(true);
      }
      openCount := openCount + 1;
    }

    /** `bluesleep_write_proc_lpm`: afterwards the mode is what was written; turned off
        the machine is awake and without a port; turned on the protocol runs, unless
        the interrupt request failed. */
    method BluesleepWriteProcLpm(enable: bool, dev: UartDev, irqResult: int)
      modifies this
      ensures Abs() == WriteProcLpm(old(Abs()), enable, dev, irqResult >= 0)
      ensures old(Valid()) ==> LpmDone(old(Abs()), enable, dev, irqResult >= 0, Abs())
    {
      LpmWritten(Abs(), enable, dev, irqResult >= 0);
      hide Start, Stop, Inv, Weak, Exposed, LpmDone;
      if !enable {
        BluesleepStop();
        hasLpmEnabled := false;
        uport := false;
      } else if !hasLpmEnabled {
        hasLpmEnabled := true;
        if dev.Device? {
          uport := dev.portBound;
        }
        var ret := BluesleepStart(irqResult);
      }
    }
  }

  // ---- Safety ----

  /** What every run keeps: asleep only under the running protocol, on a bound port,
      with the wake line released and the UART off, and off only when asleep; the
      open count and the protocol bit balance; the timer flag is never set without
      a timer to clear it. */
  ghost predicate Inv(s: State) {
    && (s.asleep ==> s.proto && s.uport && !s.btWake && !s.uartOn)
    && (!s.uartOn ==> s.asleep)
    && s.openCount + (if s.proto then 1 else 0) == 1
    && (s.proto && s.rxTimer ==> s.timer)
    && (s.uport ==> s.proto) && (s.proto <==> s.lpm)
  }

  /** The step that loses it: enabling the mode when the interrupt cannot be had. */
  predicate IrqLost(s: State, e: Event) {
    e.WriteLpm? && e.enable && !e.irqOk && !s.lpm
  }

  lemma StepKeepsInv(s: State, e: Event)
    requires Inv(s) && !IrqLost(s, e)
    ensures Inv(Apply(s, e))
  {
    match e
    case WorkRuns(txEmpty) =>
      WorkDoes(s.(work := false), txEmpty);
      hide SleepWork, WorkDone;
    case WriteLpm(enable, dev, irqOk) =>
      LpmWritten(s, enable, dev, irqOk);
      hide WriteProcLpm, Inv;
    case _ =>
  }

  /** What the sleep work achieves: asleep with the UART off if sleep is possible and
      the UART drained; awake with it on if sleep is impossible, the timer running if
      it was asleep before. */
  ghost predicate WorkDone(s: State, txEmpty: bool, r: State) {
    && (CanSleep(s) ==> if txEmpty then r.asleep && !r.uartOn else r == s)
    && (!CanSleep(s) ==> !r.asleep && r.uartOn && (s.asleep ==> r.rxTimer && r.timer))
  }

  lemma WorkDoes(s: State, txEmpty: bool)
    ensures Inv(s) ==> Inv(SleepWork(s, txEmpty)) && WorkDone(s, txEmpty, SleepWork(s, txEmpty))
  {
  }

  /** What a write to the mode file achieves: turned off, the machine is awake without
      a port; turned on, the protocol runs, unless the interrupt request failed, which
      exposes a bound port whose timer flag is clear. */
  ghost predicate LpmDone(s: State, enable: bool, dev: UartDev, irqOk: bool, r: State) {
    && r.lpm == enable && Weak(r)
    && (!enable || s.lpm || irqOk ==> Inv(r) && r.proto == enable)
    && (!enable ==> !r.asleep && r.uartOn && !r.uport)
    && (!s.lpm && enable && !irqOk ==> (Exposed(r) <==> dev == Device(true) && !r.rxTimer))
  }

  lemma LpmWritten(s: State, enable: bool, dev: UartDev, irqOk: bool)
    ensures Inv(s) ==> LpmDone(s, enable, dev, irqOk, WriteProcLpm(s, enable, dev, irqOk))
  {
  }

  /** Of all events only the sleep work puts an awake machine to sleep, and exactly
      when the UART is drained and `bluesleep_can_sleep` allows it. */
  lemma FallsAsleepExactly(s: State, e: Event)
    requires !s.asleep
    ensures Apply(s, e).asleep <==> e == WorkRuns(true) && s.work && CanSleep(s)
  {
    match e {
      case WorkRuns(txEmpty) =>
        hide WriteProcLpm, OutgoingData, TxAllowSleep;
      case TimerExpires =>
        hide WriteProcLpm, OutgoingData, TxAllowSleep, SleepWork;
      case HostWakeChanges(level) =>
        hide WriteProcLpm, OutgoingData, TxAllowSleep, SleepWork;
      case WriteBtWrite(data) =>
        hide WriteProcLpm, SleepWork;
      case WriteLpm(enable, dev, irqOk) =>
        hide SleepWork, OutgoingData;
    }
  }

  /** The promises that matter to a user, without the bookkeeping. */
  ghost predicate Promised(s: State) {
    && (s.asleep ==> s.proto && s.uport && !s.btWake && !s.uartOn)
    && (!s.uartOn ==> s.asleep)
    && s.openCount + (if s.proto then 1 else 0) == 1
    && (s.proto && s.rxTimer ==> s.timer)
  }

  ghost predicate NeverLost(s: State, es: seq<Event>) {
    forall i :: 0 <= i < |es| ==> !IrqLost(Run(s, es[..i]), es[i])
  }

  /** In every run where each interrupt request succeeds, the promises hold. */
  lemma {:induction false} RunKeepsInv(hostWake: bool, es: seq<Event>)
    requires NeverLost(Initial(hostWake), es)
    ensures Inv(Run(Initial(hostWake), es)) && Promised(Run(Initial(hostWake), es))
    decreases |es|
  {
    if es != [] {
      var s, before := Initial(hostWake), es[..|es| - 1];
      forall i | 0 <= i < |before| ensures !IrqLost(Run(s, before[..i]), before[i]) {
        assert before[..i] == es[..i];
      }
      RunKeepsInv(hostWake, before);
      StepKeepsInv(Run(s, before), es[|es| - 1]);
    }
  }

  /** A failed request: later the machine sleeps outside the protocol, and turning
      the mode off leaves the UART stopped. */
  lemma IrqFailureBreaks(hostWake: bool)
    ensures var es := [HostWakeChanges(false), WriteLpm(true, Device(true), false), WriteBtWrite(false),
                       WorkRuns(true), WriteLpm(false, NoDevice, true)];
      var s4, s5 := Run(Initial(hostWake), es[..4]), Run(Initial(hostWake), es);
      && s4.asleep && !s4.proto && !Promised(s4)
      && s5.asleep && !s5.uport && !s5.uartOn && !s5.lpm
  {
    var es := [HostWakeChanges(false), WriteLpm(true, Device(true), false), WriteBtWrite(false),
               WorkRuns(true), WriteLpm(false, NoDevice, true)];
    var s0 := Initial(hostWake);
    var s1 := Apply(s0, es[0]);
    var s2 := Apply(s1, es[1]);
    var s3 := Apply(s2, es[2]);
    var s4 := Apply(s3, es[3]);
    assert es[..1][..0] == [] && es[..2][..1] == es[..1] && es[..3][..2] == es[..2];
    assert es[..4][..3] == es[..3] && es[..4] == es[..|es| - 1];
    assert Run(s0, es[..1]) == s1;
    assert Run(s0, es[..2]) == s2;
    assert Run(s0, es[..3]) == s3;
    assert Run(s0, es[..4]) == s4;
  }

  // ---- With failed interrupt requests ----

  /** What also runs with failed requests keep, up to the step that breaks the
      promises: the mode outlives the protocol, and a bound port without the
      protocol has no timer. */
  ghost predicate Weak(s: State) {
    && Promised(s)
    && (s.proto ==> s.lpm) && (s.uport ==> s.lpm)
    && (s.uport && !s.proto ==> !s.timer)
  }

  /** The step that breaks the promises: the sleep work stops the UART of a port
      whose protocol never started. */
  predicate SleepsOutside(s: State, e: Event) {
    e == WorkRuns(true) && s.work && CanSleep(s) && !s.proto
  }

  /** Any other step, a failed request included, keeps the promises; this one never
      does. */
  lemma StepBreaksExactly(s: State, e: Event)
    requires Weak(s)
    ensures Promised(Apply(s, e)) <==> !SleepsOutside(s, e)
    ensures Weak(Apply(s, e)) <==> !SleepsOutside(s, e)
  {
    match e {
      case WorkRuns(txEmpty) =>
        hide WriteProcLpm, OutgoingData, TxAllowSleep;
      case TimerExpires =>
        hide WriteProcLpm, OutgoingData, TxAllowSleep, SleepWork;
      case HostWakeChanges(level) =>
        hide WriteProcLpm, OutgoingData, TxAllowSleep, SleepWork;
      case WriteBtWrite(data) =>
        hide WriteProcLpm, SleepWork;
      case WriteLpm(enable, dev, irqOk) =>
        hide SleepWork, OutgoingData;
    }
  }

  ghost predicate AlwaysPromised(s: State, es: seq<Event>) {
    forall i :: 0 <= i <= |es| ==> Promised(Run(s, es[..i]))
  }

  ghost predicate NeverSleepsOutside(s: State, es: seq<Event>) {
    forall i :: 0 <= i < |es| ==> !SleepsOutside(Run(s, es[..i]), es[i])
  }

  /** Over all runs, with any number of failed requests: the promises hold throughout
      if and only if no step sleeps outside the protocol. */
  lemma {:induction false} RunBreaksExactly(s: State, es: seq<Event>)
    requires Weak(s)
    ensures AlwaysPromised(s, es) <==> NeverSleepsOutside(s, es)
    ensures NeverSleepsOutside(s, es) ==> Weak(Run(s, es))
    decreases |es|
  {
    hide Weak, Promised, SleepsOutside, Apply;
    if es == [] {
      WeakPromised(s);
      assert es[..0] == [];
    } else {
      var last := |es| - 1;
      var before, e := es[..last], es[last];
      RunBreaksExactly(s, before);
      assert Run(s, es) == Apply(Run(s, before), e);
      hide Run, AlwaysPromised, NeverSleepsOutside;
      OneEventMore(s, before, e);
      assert before + [e] == es;
      if NeverSleepsOutside(s, before) {
        StepBreaksExactly(Run(s, before), e);
      }
    }
  }

  lemma OneEventMore(s: State, es: seq<Event>, e: Event)
    ensures AlwaysPromised(s, es + [e]) <==> AlwaysPromised(s, es) && Promised(Run(s, es + [e]))
    ensures NeverSleepsOutside(s, es + [e]) <==> NeverSleepsOutside(s, es) && !SleepsOutside(Run(s, es), e)
  {
    hide Run, Promised, SleepsOutside;
    var t := es + [e];
    assert t[..|t|] == t && t[..|es|] == es && t[|es|] == e;
    forall i | 0 <= i <= |es| ensures es[..i] == t[..i] {
    }
    if AlwaysPromised(s, t) {
      assert Promised(Run(s, t[..|t|]));
      forall i | 0 <= i <= |es| ensures Promised(Run(s, es[..i])) {
        assert Promised(Run(s, t[..i]));
      }
    }
    if NeverSleepsOutside(s, t) {
      assert !SleepsOutside(Run(s, t[..|es|]), t[|es|]);
      forall i | 0 <= i < |es| ensures !SleepsOutside(Run(s, es[..i]), es[i]) {
        assert !SleepsOutside(Run(s, t[..i]), t[i]);
      }
    }
  }

  lemma WeakPromised(s: State)
    requires Weak(s)
    ensures Promised(s)
  {
  }

  /** A port bound without the protocol, and no timer flag to hold sleep back. */
  predicate Exposed(s: State) {
    s.uport && !s.proto && !s.rxTimer
  }

  lemma ExposedStep(s: State, e: Event)
    requires Weak(s) && !Exposed(s) && !IrqLost(s, e)
    ensures Weak(Apply(s, e)) && !Exposed(Apply(s, e))
  {
    StepBreaksExactly(s, e);
    match e {
      case WorkRuns(txEmpty) =>
        hide WriteProcLpm, OutgoingData, TxAllowSleep;
      case TimerExpires =>
        hide WriteProcLpm, OutgoingData, TxAllowSleep, SleepWork;
      case HostWakeChanges(level) =>
        hide WriteProcLpm, OutgoingData, TxAllowSleep, SleepWork;
      case WriteBtWrite(data) =>
        hide WriteProcLpm, SleepWork;
      case WriteLpm(enable, dev, irqOk) =>
        hide SleepWork, OutgoingData;
    }
  }

  lemma {:induction false} UnexposedStaysSafe(s: State, es: seq<Event>)
    requires Weak(s) && !Exposed(s) && NeverLost(s, es)
    ensures Weak(Run(s, es)) && !Exposed(Run(s, es))
    decreases |es|
  {
    hide Weak, Exposed, IrqLost, Apply;
    if es != [] {
      var last := |es| - 1;
      var before := es[..last];
      forall i | 0 <= i < last ensures !IrqLost(Run(s, before[..i]), before[i]) {
        assert before[..i] == es[..i];
      }
      UnexposedStaysSafe(s, before);
      assert es[..last] == before;
      ExposedStep(Run(s, before), es[last]);
    }
  }

  /** How an exposed machine breaks the promises. */
  lemma ExposedBreaks(s: State)
    requires Weak(s) && Exposed(s)
    ensures var es := [HostWakeChanges(false), WriteBtWrite(false), WorkRuns(true)];
      NeverLost(s, es) && !Promised(Run(s, es))
  {
    var es := [HostWakeChanges(false), WriteBtWrite(false), WorkRuns(true)];
    var s1 := Apply(s, es[0]);
    var s2 := Apply(s1, es[1]);
    assert es[..1][..0] == [] && es[..2][..1] == es[..1] && es[..|es| - 1] == es[..2];
    assert Run(s, es[..1]) == s1;
    assert Run(s, es[..2]) == s2;
    assert Run(s, es) == Apply(s2, es[2]);
    assert SleepsOutside(s2, es[2]);
    StepBreaksExactly(s, es[0]);
    StepBreaksExactly(s1, es[1]);
    StepBreaksExactly(s2, es[2]);
    hide Apply, Promised, Weak;
  }

  /** No further request failing, the promises hold for ever if and only if the
      machine is not exposed. */
  lemma SafeExactly(s: State)
    requires Weak(s)
    ensures (forall es :: NeverLost(s, es) ==> Promised(Run(s, es))) <==> !Exposed(s)
  {
    hide Weak, Exposed, Promised, NeverLost, Run;
    if Exposed(s) {
      ExposedBreaks(s);
    } else {
      forall es | NeverLost(s, es) ensures Promised(Run(s, es)) {
        UnexposedStaysSafe(s, es);
        WeakPromised(Run(s, es));
      }
    }
  }

  /** The failed request that matters: one for a bound port with the timer flag clear. */
  predicate RequestExposes(s: State, e: Event) {
    IrqLost(s, e) && e.dev == Device(true) && !s.rxTimer
  }

  /** Where the promises are lost, exactly: after a step from a good state they hold
      in every continuation without a further failed request if and only if the step
      was not such a request.  The step itself never breaks them. */
  lemma LostExactly(s: State, e: Event)
    requires Inv(s)
    ensures Promised(Apply(s, e))
    ensures (forall es :: NeverLost(Apply(s, e), es) ==> Promised(Run(Apply(s, e), es))) <==> !RequestExposes(s, e)
  {
    InvIsWeak(s);
    StepBreaksExactly(s, e);
    StepExposes(s, e);
    SafeExactly(Apply(s, e));
    hide Inv, Weak, Promised, Apply, Run, NeverLost, Exposed;
  }

  lemma InvIsWeak(s: State)
    requires Inv(s)
    ensures Weak(s) && !Exposed(s) && forall e :: !SleepsOutside(s, e)
  {
  }

  lemma StepExposes(s: State, e: Event)
    requires Inv(s)
    ensures Exposed(Apply(s, e)) <==> RequestExposes(s, e)
  {
    if !IrqLost(s, e) {
      StepKeepsInv(s, e);
      InvIsWeak(Apply(s, e));
      hide Apply, Inv;
    } else {
      hide SleepWork, OutgoingData;
    }
  }

  /** A failed request without a port costs the invariant, yet never the promises. */
  lemma PortlessFailureHarmless(hostWake: bool, es: seq<Event>)
    requires NeverLost(Apply(Initial(hostWake), WriteLpm(true, NoDevice, false)), es)
    ensures var s := Apply(Initial(hostWake), WriteLpm(true, NoDevice, false));
      !Inv(s) && Promised(Run(s, es))
  {
    LostExactly(Initial(hostWake), WriteLpm(true, NoDevice, false));
  }

  // ---- The timer keeps the UART from flapping ----

  ghost predicate NoExpiry(es: seq<Event>) {
    forall i :: 0 <= i < |es| ==> es[i] != TimerExpires
  }

  /** Once the flag is set, nothing but the expiry of the timer allows sleep. */
  lemma {:induction false} AwakeUntilExpiry(s: State, es: seq<Event>)
    requires s.rxTimer && !s.asleep && NoExpiry(es)
    ensures Run(s, es).rxTimer && !Run(s, es).asleep
    decreases |es|
  {
    hide Apply;
    if es != [] {
      var before := es[..|es| - 1];
      AwakeUntilExpiry(s, before);
      AwakeStep(Run(s, before), es[|es| - 1]);
    }
  }

  lemma AwakeStep(s: State, e: Event)
    requires s.rxTimer && !s.asleep && e != TimerExpires
    ensures Apply(s, e).rxTimer && !Apply(s, e).asleep
  {
    match e {
      case WorkRuns(txEmpty) =>
        hide WriteProcLpm, OutgoingData, TxAllowSleep;
      case TimerExpires =>
      case HostWakeChanges(level) =>
        hide WriteProcLpm, OutgoingData, TxAllowSleep, SleepWork;
      case WriteBtWrite(data) =>
        hide WriteProcLpm, SleepWork;
      case WriteLpm(enable, dev, irqOk) =>
        hide SleepWork, OutgoingData;
    }
  }

  /** After the sleep work has woken the UART up, in whatever follows there is no
      sleep before the timer has expired. */
  lemma NoSleepAfterWake(s: State, txEmpty: bool, es: seq<Event>)
    requires s.asleep && !Apply(s, WorkRuns(txEmpty)).asleep && NoExpiry(es)
    ensures !Run(Apply(s, WorkRuns(txEmpty)), es).asleep
  {
    AwakeUntilExpiry(Apply(s, WorkRuns(txEmpty)), es);
  }

  // ---- It does sleep, and it does wake ----

  /** Outgoing data always finds the UART running. */
  lemma DataFindsUartOn(s: State)
    requires Inv(s)
    ensures var r := Apply(s, WriteBtWrite(true)); !r.asleep && r.uartOn && r.btWake
  {
  }

  /** A running machine that may sleep does: the wake line released, the host not
      waking, the timer, if it holds sleep back, left to expire. */
  lemma CanAlwaysSleep(s: State)
    requires Inv(s) && s.uport && !s.hostWake
    ensures var r := Apply(Apply(Apply(s, WriteBtWrite(false)), TimerExpires), WorkRuns(true));
      r.asleep && !r.uartOn
  {
  }

  /** And the host-wake line wakes it again. */
  lemma HostWakes(s: State)
    requires Inv(s) && s.asleep
    ensures var r := Apply(Apply(s, HostWakeChanges(true)), WorkRuns(true));
      !r.asleep && r.uartOn && r.rxTimer && r.timer
  {
  }
}
