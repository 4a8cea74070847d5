/** `sunxi_governor_get_target`: the DRAM frequency asked for on a measured load,
    with hysteresis between two thresholds.  The counts of a sample come from
    `sunxi_get_event`: the total is the clock's own count, so a sample is given by
    the clock rate and the traffic. */
module DmcGovernor {
  import opened Common

  const DFSO_UPTHRESHOLD := 90
  const DFSO_DOWNDIFFERENTIAL := 5
  const SECOND := 1000
  const POOLING_MS := 1
  const WORD: nat := 0x1_0000_0000           // unsigned int
  const LONG_WORD: nat := 0x1_0000_0000_0000_0000  // unsigned long long

  /** `struct devfreq_simple_ondemand_data`; zero means not set. */
  datatype Tuning = Tuning(upthreshold: nat, downdifferential: nat)

  /** `DEVFREQ_MAX_FREQ`, a frequency, or the error -EINVAL. */
  datatype Request = MaxFreq | Freq(hz: nat) | Invalid

  /** The sample the governor works on. */
  datatype Status = Status(busy: nat, total: nat, current: nat)

  // ---- The sample ----

  /** `load_count`, from the words read and written. */
  function LoadCount(rwData: nat, lpddr4: bool): nat {
    rwData * if lpddr4 then 64 else 32
  }

  /** `total_count` at a clock rate. */
  function TotalCount(rate: nat): nat {
    rate / SECOND * 8 * POOLING_MS
  }

  /** What `sunxi_get_dev_status` returns at a clock rate under a load. */
  function Sample(rate: nat, load: nat): Status {
    Status(if load > TotalCount(rate) then TotalCount(rate) else load, TotalCount(rate), rate)
  }

  // ---- The decision ----

  /** The up threshold in force: 20 points lower on the lowest frequency, in
      32-bit unsigned arithmetic. */
  function UpThreshold(data: Option<Tuning>, current: nat, freq0: nat): (up: nat)
  {
    if data.None? || data.value.upthreshold == 0 then DFSO_UPTHRESHOLD
    else if current / 1000000 == freq0 / 1000000 then (data.value.upthreshold - 20) % WORD
    else data.value.upthreshold
  }

  function DownDifferential(data: Option<Tuning>): (diff: nat)
    ensures diff >= 1
  {
    if data.None? || data.value.downdifferential == 0 then DFSO_DOWNDIFFERENTIAL else data.value.downdifferential
  }

  predicate ThresholdsOk(up: nat, diff: nat) {
    up <= 100 && up >= diff
  }

  /** The counts after "prevent overflow". */
  function Shifted(s: Status): Status {
    if s.busy >= 0x100_0000 || s.total >= 0x100_0000 then s.(busy := s.busy / 128, total := s.total / 128) else s
  }

  /** The middle of the hysteresis band, the load aimed at. */
  function Aim(up: nat, diff: nat): (m: nat)
    requires diff <= up
  {
    up - diff / 2
  }

  /** The busy share of the sample, weighed by the frequency it ran at. */
  function Work(s: Status): nat {
    s.busy * s.current
  }

  /** Busy cycles a second, as the driver divides them out. */
  function Demand(s: Status): nat
    requires s.total > 0
  {
    Work(s) / s.total
  }

  function Scaled(s: Status, up: nat, diff: nat): nat
    requires s.total > 0 && 1 <= diff <= up
  {
    Demand(s) * 100 / Aim(up, diff)
  }

  datatype Branch = Raise | Keep | Drop

  function BranchOf(s: Status, up: nat, diff: nat): Branch
    requires diff <= up
  {
    if s.busy * 100 > s.total * up then Raise
    else if s.busy * 100 > s.total * (up - diff) then Keep
    else Drop
  }

  /** A busy count within the total, and values of 32 bits. */
  ghost predicate Clamped(s: Status) {
    s.busy <= s.total < WORD && s.current < WORD
  }

  lemma SampleClamped(rate: nat, load: nat)
    requires rate < WORD
    ensures Clamped(Sample(rate, load))
    ensures Sample(rate, load).total > 0 <==> rate >= SECOND
    ensures Sample(rate, load).busy > 0 <==> rate >= SECOND && load > 0
  {
  }

  /** `unsigned long` and `div_u64` never meet a zero divisor and no product
      overflows: 32 bits for the load comparisons, 64 for the scaled frequency. */
  lemma NoOverflow(s: Status, up: nat, diff: nat)
    requires Clamped(s) && s.total > 0 && ThresholdsOk(up, diff) && diff >= 1
    ensures var t := Shifted(s);
      && t.total > 0 && t.busy <= t.total && Aim(up, diff) >= 1
      && t.busy * 100 < WORD && t.total * up < WORD && t.total * (up - diff) < WORD
      && t.busy * t.current < LONG_WORD && Demand(t) <= t.current && Demand(t) * 100 < LONG_WORD
  {
    var t := Shifted(s);
    ShiftBounds(s);
    hide Shifted, Demand, Work;
    MulLe(t.total, 0x1ff_ffff, up, 100);
    MulLe(t.total, 0x1ff_ffff, up - diff, 100);
    ProductFits(t.busy, t.current);
    DemandLe(t);
    AimBounds(up, diff);
    hide Aim;
  }

  lemma ShiftBounds(s: Status)
    requires Clamped(s) && s.total > 0
    ensures var t := Shifted(s);
      0 < t.total <= 0x1ff_ffff && t.busy <= t.total && t.current == s.current < WORD
  {
  }

  lemma ProductFits(busy: nat, current: nat)
    requires busy <= 0x1ff_ffff && current < WORD
    ensures busy * current < LONG_WORD
  {
    MulLe(busy, 0x1ff_ffff, current, WORD);
  }

  lemma DemandLe(t: Status)
    requires 0 < t.total && t.busy <= t.total
    ensures Demand(t) <= t.current
  {
    MulLe(t.busy, t.total, t.current, t.current);
    DivLe(Work(t), t.current, t.total);
  }

  lemma MulLe(a: nat, b: nat, c: nat, d: nat)
    ensures a <= b && c <= d ==> a * c <= b * d
  {
    if a <= b && c <= d {
      assert a * c + (b - a) * c == b * c;
      assert b * c + b * (d - c) == b * d;
    }
  }

  lemma DivLe(x: nat, q: nat, d: nat)
    requires d > 0 && x <= d * q
    ensures x / d <= q
  {
    DivBounds(x, d);
    assert (q + 1) * d == d * q + d;
    MulLe(q + 1, x / d, d, d);
  }

  // ---- The driver's objects ----

  class Devfreq {
    var busyTime: nat
    var totalTime: nat
    var currentFrequency: nat

    function Stat(): Status
      reads this
    {
      Status(busyTime, totalTime, currentFrequency)
    }

    constructor ()
      ensures Stat() == Sample(0, 0)
    {
      busyTime, totalTime, currentFrequency := 0, 0, 0;
    }

    /** `sunxi_get_dev_status` with `sunxi_get_event`: `rate` is the clock rate and
        `rwData` the traffic counted. */
    method GetDevStatus(rate: nat, rwData: nat, lpddr4: bool)
      requires rate < WORD
      modifies this
      ensures Stat() == Sample(rate, LoadCount(rwData, lpddr4)) && Clamped(Stat())
      ensures currentFrequency == rate && totalTime == 8 * (rate / 1000)
      ensures busyTime == totalTime || (busyTime < totalTime && busyTime == if lpddr4 then 64 * rwData else 32 * rwData)
    {
      SampleClamped(rate, LoadCount(rwData, lpddr4));
      var loadCount := if lpddr4 then rwData * 64 else rwData * 32;
      var totalCount := rate / SECOND * 8 * POOLING_MS;
      currentFrequency := rate;
      busyTime := loadCount;
      totalTime := totalCount;
      if busyTime > totalTime {
        busyTime := totalTime;
      }
    }

    /** `sunxi_governor_get_target`: takes a sample and decides; the counts are
        shifted in place. */
    method GetTarget(data: Option<Tuning>, freq0: nat, rate: nat, rwData: nat, lpddr4: bool) returns (freq: Request)
      requires rate < WORD
      requires data.Some? ==> data.value.upthreshold < WORD && data.value.downdifferential < WORD
      modifies this
      ensures freq == Ask(data, freq0, rate, LoadCount(rwData, lpddr4))
      ensures TrafficDecides(freq, data, freq0, rate, if lpddr4 then 64 * rwData else 32 * rwData)
      ensures var up, diff, s := UpThreshold(data, rate, freq0), DownDifferential(data), Sample(rate, LoadCount(rwData, lpddr4));
        Stat() == if ThresholdsOk(up, diff) && s.busy > 0 && s.total > 0 then Shifted(s) else s
    {
      Decided(data, freq0, rate, LoadCount(rwData, lpddr4));
      assert LoadCount(rwData, lpddr4) == if lpddr4 then 64 * rwData else 32 * rwData;
      hide Chosen, Sample, LoadCount, TrafficDecides;
      GetDevStatus(rate, rwData, lpddr4);
      ghost var s := Stat();
      assert s.current == rate by {
        SampleRate(rate, LoadCount(rwData, lpddr4));
      }
      var up := DFSO_UPTHRESHOLD;
      var diff := DFSO_DOWNDIFFERENTIAL;
      if data.Some? {
        if data.value.upthreshold != 0 {
          if currentFrequency / 1000000 == freq0 / 1000000 {
            up := (data.value.upthreshold - 20) % WORD;
          } else {
            up := data.value.upthreshold;
          }
        }
        if data.value.downdifferential != 0 {
          diff := data.value.downdifferential;
        }
      }
      if up > 100 || up < diff {
        return Invalid;
      }
      if totalTime == 0 || busyTime == 0 {
        return MaxFreq;
      }
      NoOverflow(Stat(), up, diff);
      if busyTime >= 0x100_0000 || totalTime >= 0x100_0000 {
        busyTime := busyTime / 128;
        totalTime := totalTime / 128;
      }
      freq := ChooseTarget(up, diff);
    }

    /** The part of `sunxi_governor_get_target` below the overflow shift. */
    method ChooseTarget(up: nat, diff: nat) returns (freq: Request)
      requires totalTime > 0 && 1 <= diff <= up
      ensures freq == Chosen(Stat(), up, diff)
      ensures Clocked(Stat()) && up <= 100 ==> (
        && freq.Freq?
        && (busyTime * 100 > totalTime * up <==> freq.hz > currentFrequency)
        && (busyTime * 100 <= totalTime * (up - diff) <==> freq.hz < currentFrequency))
    {
      Directions(Stat(), up, diff);
      ghost var t := Stat();
      hide Demand, Scaled;
      if busyTime * 100 > totalTime * up {
        freq := ScaledFreq(up, diff);
        assert BranchOf(t, up, diff) == Raise;
        return;
      }
      if currentFrequency == 0 {
        return MaxFreq;
      }
      if busyTime * 100 > totalTime * (up - diff) {
        assert BranchOf(t, up, diff) == Keep;
        return Freq(currentFrequency);
      }
      freq := ScaledFreq(up, diff);
    }

    /** The scaled frequency, computed step by step on the 64-bit `a` and `b`. */
    method ScaledFreq(up: nat, diff: nat) returns (freq: Request)
      requires totalTime > 0 && 1 <= diff <= up
      ensures freq == Freq(Scaled(Stat(), up, diff))
      ensures forall hz: nat :: hz <= freq.hz <==> Covers(Stat(), up, diff, hz)
    {
      forall hz: nat ensures hz <= Scaled(Stat(), up, diff) <==> Covers(Stat(), up, diff, hz) {
        ScaledIsLargest(Stat(), up, diff, hz);
      }
      hide Covers;
      var a := busyTime;
      a := a * currentFrequency;
      var b := a / totalTime;
      b := b * 100;
      b := b / (up - diff / 2);
      freq := Freq(b);
    }
  }

  /** The request for a sample already shifted. */
  function Chosen(t: Status, up: nat, diff: nat): Request
    requires t.total > 0 && 1 <= diff <= up
  {
    match BranchOf(t, up, diff)
    case Raise => Freq(Scaled(t, up, diff))
    case Keep => if t.current == 0 then MaxFreq else Freq(t.current)
    case Drop => if t.current == 0 then MaxFreq else Freq(Scaled(t, up, diff))
  }

  /** The frequency asked for. */
  function Target(s: Status, up: nat, diff: nat): Request
    requires Clamped(s) && diff >= 1
  {
    if !ThresholdsOk(up, diff) then Invalid
    else if s.total == 0 || s.busy == 0 then MaxFreq
    else
      NoOverflow(s, up, diff);
      Chosen(Shifted(s), up, diff)
  }

  /** The frequency asked for at a clock rate under a load. */
  function Ask(data: Option<Tuning>, freq0: nat, rate: nat, load: nat): Request
    requires rate < WORD
  {
    SampleClamped(rate, load);
    Target(Sample(rate, load), UpThreshold(data, rate, freq0), DownDifferential(data))
  }

  lemma SampleRate(rate: nat, load: nat)
    ensures Sample(rate, load).current == rate
  {
  }

  // ---- Arithmetic ----

  lemma LessCancel(k: nat, x: nat, y: nat)
    requires x * k < y * k
    ensures x < y
  {
    MulLe(y, x, k, k);
  }

  lemma LeCancel(k: nat, x: nat, y: nat)
    requires k > 0 && k * x <= k * y
    ensures x <= y
  {
    assert k * (y + 1) == k * y + k;
    MulLe(k, k, y + 1, x);
  }

  lemma DivBounds(x: nat, d: nat)
    requires d > 0
    ensures Quotient(x / d, d, x)
  {
  }

  /** `q` is the whole part of `x / d`. */
  ghost predicate Quotient(q: nat, d: nat, x: nat) {
    q * d <= x < q * d + d
  }

  lemma DemandBounds(s: Status)
    requires s.total > 0
    ensures Quotient(Demand(s), s.total, Work(s))
  {
    DivBounds(Work(s), s.total);
  }

  lemma ScaledBounds(s: Status, up: nat, diff: nat)
    requires s.total > 0 && 1 <= diff <= up
    ensures Quotient(Scaled(s, up, diff), Aim(up, diff), Demand(s) * 100)
  {
    hide Demand;
    DivBounds(Demand(s) * 100, Aim(up, diff));
  }

  lemma AimBounds(up: nat, diff: nat)
    requires 1 <= diff <= up
    ensures up - diff + 1 <= Aim(up, diff) && Aim(up, diff) + diff / 2 == up
  {
  }

  /** The work is at most what load `p` out of 100 amounts to. */
  ghost predicate WorkAtMost(work: nat, t: nat, p: nat, c: nat) {
    work * 100 <= t * (p * c)
  }

  lemma DropWork(s: Status, up: nat, diff: nat)
    requires diff <= up && BranchOf(s, up, diff) == Drop
    ensures WorkAtMost(Work(s), s.total, up - diff, s.current)
  {
    WorkLe(s.busy, s.current, s.total, up - diff);
  }

  lemma WorkLe(busy: nat, c: nat, t: nat, p: nat)
    requires busy * 100 <= t * p
    ensures WorkAtMost(busy * c, t, p, c)
  {
    MulLe(busy * 100, t * p, c, c);
    Regroup(busy, c, 100);
    Assoc(t, p, c);
  }

  /** A drop always asks for a strictly lower frequency. */
  lemma DropsBelow(s: Status, up: nat, diff: nat)
    requires s.total > 0 && s.current > 0 && 1 <= diff <= up
    requires BranchOf(s, up, diff) == Drop
    ensures Scaled(s, up, diff) < s.current
  {
    DemandBounds(s);
    ScaledBounds(s, up, diff);
    AimBounds(up, diff);
    DropWork(s, up, diff);
    hide Demand, Scaled, Aim, Work, BranchOf, Quotient, WorkAtMost;
    DropCore(s.total, Work(s), s.current, Demand(s), Scaled(s, up, diff), up - diff, Aim(up, diff));
  }

  lemma DropCore(t: nat, work: nat, c: nat, d: nat, f: nat, low: nat, m: nat)
    requires t > 0 && c > 0 && low < m
    requires Quotient(f, m, d * 100) && Quotient(d, t, work) && WorkAtMost(work, t, low, c)
    ensures f < c
  {
    MulLe(t, t, f * m, d * 100);
    Regroup(d, t, 100);
    LeCancel(t, f * m, low * c);
    MulLe(low + 1, m, c, c);
    assert (low + 1) * c == low * c + c;
    LessCancel(m, f, c);
  }

  lemma Assoc(a: nat, b: nat, c: nat)
    ensures (a * b) * c == a * (b * c)
  {
  }

  lemma Regroup(a: nat, b: nat, c: nat)
    ensures (a * b) * c == (a * c) * b == b * (a * c)
  {
  }

  /** The demand covers frequency `hz` at the load aimed at. */
  predicate Covers(s: Status, up: nat, diff: nat, hz: nat)
    requires s.total > 0 && 1 <= diff <= up
  {
    hz * Aim(up, diff) <= Demand(s) * 100
  }

  /** The scaled frequency is the largest one the demand covers. */
  lemma ScaledIsLargest(s: Status, up: nat, diff: nat, hz: nat)
    requires s.total > 0 && 1 <= diff <= up
    ensures hz <= Scaled(s, up, diff) <==> Covers(s, up, diff, hz)
  {
    ScaledBounds(s, up, diff);
    hide Demand, Scaled, Aim;
    QuotientIsLargest(Scaled(s, up, diff), Aim(up, diff), Demand(s) * 100, hz);
  }

  lemma QuotientIsLargest(q: nat, d: nat, x: nat, k: nat)
    requires Quotient(q, d, x)
    ensures k <= q <==> k * d <= x
  {
    MulLe(k, q, d, d);
    assert (q + 1) * d == q * d + d;
    MulLe(q + 1, k, d, d);
  }

  // ---- Direction ----

  /** What every sample has after the overflow shift: the clock makes at least 125
      cycles a second for each unit of the total, and the total is a multiple of
      eight; or it was shifted, and the clock makes at least 16000. */
  ghost predicate Clocked(t: Status) {
    t.total > 0 && ((t.current >= 125 * t.total && t.total % 8 == 0) || t.current >= 16000 * t.total)
  }

  lemma SampleIsClocked(rate: nat, load: nat)
    requires SECOND <= rate < WORD
    ensures Clocked(Shifted(Sample(rate, load)))
  {
    var khz := rate / SECOND;
    assert TotalCount(rate) == 8 * khz && rate >= 1000 * khz;
    if 8 * khz >= 0x100_0000 {
      assert 8 * khz / 128 == khz / 16;
    }
  }

  /** A load above the threshold is above it by at least 200 once weighed by the
      clock, more than the two divisions can lose. */
  lemma Surplus(t: Status, up: nat, diff: nat) returns (w: nat)
    requires Clocked(t) && diff <= up && BranchOf(t, up, diff) == Raise
    ensures t.current >= w * t.total && w * (t.busy * 100 - t.total * up) >= 200
  {
    if t.current >= 16000 * t.total {
      w := 16000;
    } else {
      w := 125;
      MultipleOfFour(t.busy, t.total, up);
    }
  }

  lemma MultipleOfFour(busy: nat, total: nat, up: nat)
    requires total % 8 == 0 && busy * 100 > total * up
    ensures busy * 100 - total * up >= 4
  {
    var k := total / 8;
    assert total == 8 * k;
    Assoc(8, k, up);
    assert busy * 100 - total * up == 4 * (25 * busy - 2 * (k * up));
  }

  /** A raise always asks for a strictly higher frequency. */
  lemma RaisesAbove(t: Status, up: nat, diff: nat)
    requires Clocked(t) && 1 <= diff <= up <= 100
    requires BranchOf(t, up, diff) == Raise
    ensures Scaled(t, up, diff) > t.current
  {
    var w := Surplus(t, up, diff);
    DemandBounds(t);
    ScaledIsLargest(t, up, diff, t.current + 1);
    AimBounds(up, diff);
    RaiseCore(t.total, t.busy, t.current, Demand(t), up, Aim(up, diff), w);
    hide Demand, Scaled, Aim, BranchOf;
  }

  lemma RaiseCore(t: nat, busy: nat, c: nat, d: nat, up: nat, m: nat, w: nat)
    requires t > 0 && m <= up <= 100 && busy * 100 >= t * up
    requires c >= w * t && w * (busy * 100 - t * up) >= 200 && Quotient(d, t, busy * c)
    ensures (c + 1) * m <= d * 100
  {
    // (d + 1) * 100 * t > busy * 100 * c == t * (up * c) + j * c, and j * c >= j * w * t >= 200 * t
    var j := busy * 100 - t * up;
    Surplus200(j, w, t, c);
    Regroup(busy, c, 100);
    Regroup(d + 1, t, 100);
    Assoc(t, up, c);
    Split(t * up, j, c);
    assert t * (up * c + 200) == t * (up * c) + t * 200;
    LeCancel(t, up * c + 200, (d + 1) * 100);
    MulLe(c + 1, c + 1, m, up);
    assert (c + 1) * up == up * c + up;
  }

  lemma Surplus200(j: nat, w: nat, t: nat, c: nat)
    requires w * j >= 200 && c >= w * t
    ensures j * c >= t * 200
  {
    MulLe(j, j, w * t, c);
    Assoc(w, j, t);
    Regroup(w, t, j);
    MulLe(200, w * j, t, t);
  }

  lemma Split(a: nat, b: nat, c: nat)
    ensures (a + b) * c == a * c + b * c
  {
  }

  // ---- The band ----

  /** The load a sample would show at frequency `f`, the demand unchanged, lies in
      the band where the frequency is kept. */
  ghost predicate InBand(s: Status, f: nat, up: nat, diff: nat)
    requires diff <= up
  {
    && Work(s) * 100 > f * s.total * (up - diff)
    && Work(s) * 100 <= f * s.total * up
  }

  /** The lowest frequency at which the demand is a load of at most `up` percent. */
  function Least(s: Status, up: nat): nat
    requires s.total > 0 && up > 0
  {
    RoundUp(Work(s) * 100, s.total * up)
  }

  function Whole(x: nat, k: nat): nat {
    if k == 0 then 0 else x / k
  }

  function RoundUp(x: nat, k: nat): nat {
    if k == 0 then 0 else (x + k - 1) / k
  }

  lemma RoundUpIsLeast(x: nat, k: nat, f: nat)
    requires k > 0
    ensures x <= f * k <==> RoundUp(x, k) <= f
  {
    var q := RoundUp(x, k);
    DivBounds(x + k - 1, k);
    hide RoundUp;
    assert (q + 1) * k == q * k + k && (f + 1) * k == f * k + k;
    MulLe(q, f, k, k);
    MulLe(f + 1, q, k, k);
  }

  lemma LeastExactly(s: Status, up: nat, f: nat)
    requires s.total > 0 && up > 0
    ensures Work(s) * 100 <= f * s.total * up <==> Least(s, up) <= f
  {
    Positives(s.total, up);
    Assoc(f, s.total, up);
    RoundUpIsLeast(Work(s) * 100, s.total * up, f);
    hide Work, RoundUp;
  }

  /** The frequency asked for, in either direction, puts the demand in the band
      exactly when the demand covers the least frequency at which it is a load of
      at most `up` percent. */
  lemma BandExactly(s: Status, up: nat, diff: nat)
    requires s.total > 0 && 1 <= diff <= up
    ensures InBand(s, Scaled(s, up, diff), up, diff) <==> Work(s) > 0 && Covers(s, up, diff, Least(s, up))
  {
    var f := Scaled(s, up, diff);
    ScaledIsLargest(s, up, diff, Least(s, up));
    LeastExactly(s, up, f);
    NotBelowBand(s, up, diff);
    hide Covers, Least, Scaled;
    NoFrequency(f, s.total, up);
  }

  lemma NoFrequency(f: nat, t: nat, p: nat)
    ensures f == 0 ==> f * t * p == 0
  {
  }

  /** The frequency asked for, if any, is never more than the band allows. */
  lemma NotBelowBand(s: Status, up: nat, diff: nat)
    requires s.total > 0 && 1 <= diff <= up
    ensures Scaled(s, up, diff) > 0 ==> Work(s) * 100 > Scaled(s, up, diff) * s.total * (up - diff)
  {
    DemandBounds(s);
    ScaledBounds(s, up, diff);
    AimBounds(up, diff);
    hide Demand, Scaled, Aim, Work;
    if Scaled(s, up, diff) > 0 {
      LowerEdge(s.total, Work(s), Demand(s), Scaled(s, up, diff), up - diff, Aim(up, diff));
    }
  }

  /** With a differential of 1 the band has no slack: the demand stays in it only
      if neither division leaves a remainder. */
  lemma BandWithoutSlack(s: Status, up: nat)
    requires s.total > 0 && up > 0
    ensures Covers(s, up, 1, Least(s, up)) <==> Work(s) % s.total == 0 && Demand(s) * 100 % up == 0
  {
    var t, d, least := s.total, Demand(s), Least(s, up);
    DemandBounds(s);
    LeastExactly(s, up, least);
    LeastExactly(s, up, d * 100 / up);
    Remainder(Work(s), t);
    Remainder(d * 100, up);
    hide Work, Least, Demand;
    SlackCore(t, Work(s), d, least, up, d * 100 / up);
  }

  lemma Remainder(x: nat, d: nat)
    requires d > 0
    ensures x % d == 0 <==> (x / d) * d == x
    ensures (x / d) * d <= x < (x / d) * d + d
  {
  }

  lemma SlackCore(t: nat, work: nat, d: nat, least: nat, up: nat, j: nat)
    requires t > 0 && up > 0 && d * t <= work && j * up <= d * 100 < j * up + up
    requires work * 100 <= least * t * up && (work * 100 <= j * t * up <==> least <= j)
    ensures least * up <= d * 100 <==> d * t == work && j * up == d * 100
  {
    Regroup(least, t, up);
    Regroup(j, t, up);
    Regroup(d, t, 100);
    MulLe(t, t, least * up, d * 100);
    MulLe(t, t, j * up, d * 100);
    MulLe(least, j, up, up);
    assert (j + 1) * up == j * up + up;
    MulLe(j + 1, least, up, up);
    if least * up <= d * 100 {
      LeCancel(t, d * 100, least * up);
    }
  }

  /** On samples with a differential of at least 2 the roundings never matter, as
      soon as two units of load are left after the overflow shift. */
  lemma ScaledInBand(t: Status, up: nat, diff: nat)
    requires Clocked(t) && 2 <= diff <= up <= 100 && t.busy >= 2
    ensures Scaled(t, up, diff) > 0 && InBand(t, Scaled(t, up, diff), up, diff)
  {
    DemandBounds(t);
    ScaledBounds(t, up, diff);
    AimBounds(up, diff);
    DemandAtLeast(t);
    MulLe(200, Demand(t), 1, diff / 2);
    hide Demand, Scaled, Aim, Work, Quotient;
    BandCore(t.total, Work(t), Demand(t), Scaled(t, up, diff), up - diff, Aim(up, diff), diff / 2, up);
  }

  lemma DemandAtLeast(t: Status)
    requires Clocked(t)
    ensures Demand(t) >= 125 * t.busy
  {
    DemandBounds(t);
    hide Demand;
    assert t.current >= 125 * t.total;
    AtLeastCore(t.total, t.busy, t.current, Demand(t), 125);
  }

  lemma AtLeastCore(t: nat, busy: nat, c: nat, d: nat, w: nat)
    requires t > 0 && c >= w * t && Quotient(d, t, busy * c)
    ensures d >= w * busy
  {
    MulLe(busy, busy, w * t, c);
    Assoc(busy, w, t);
    Swapped(busy, w);
    assert (d + 1) * t == d * t + t;
    LessCancel(t, w * busy, d + 1);
  }

  lemma Swapped(a: nat, b: nat)
    ensures a * b == b * a
  {
  }

  lemma BandCore(t: nat, work: nat, d: nat, f: nat, low: nat, m: nat, half: nat, up: nat)
    requires t > 0 && low < m && m + half == up <= 100 && d * half >= 200
    requires Quotient(f, m, d * 100) && Quotient(d, t, work)
    ensures f > 0 && work * 100 > f * t * low && work * 100 <= f * t * up
  {
    AtLeastDemand(d, f, m);
    MulLe(d, f, half, half);
    Positive(d, half);
    LowerEdge(t, work, d, f, low, m);
    UpperEdge(t, work, d, f, m, half);
  }

  lemma Positive(d: nat, half: nat)
    requires d * half >= 200
    ensures d > 0
  {
  }

  lemma AtLeastDemand(d: nat, f: nat, m: nat)
    requires 1 <= m <= 100 && d * 100 < f * m + m
    ensures d <= f
  {
    MulLe(d, d, m, 100);
    assert (f + 1) * m == f * m + m;
    LessCancel(m, d, f + 1);
  }

  lemma LowerEdge(t: nat, work: nat, d: nat, f: nat, low: nat, m: nat)
    requires d * t <= work && f * m <= d * 100 && low + 1 <= m && f > 0 && t > 0
    ensures work * 100 > f * t * low
  {
    MulLe(f, f, low + 1, m);
    assert f * (low + 1) == f * low + f;
    MulLe(t, t, f * low + 1, d * 100);
    assert t * (f * low + 1) == t * (f * low) + t;
    Regroup(f, t, low);
    Regroup(d, t, 100);
  }

  lemma UpperEdge(t: nat, work: nat, d: nat, f: nat, m: nat, half: nat)
    requires work < d * t + t && d * 100 < f * m + m && m <= 100 && f * half >= 200
    ensures work * 100 <= f * t * (m + half)
  {
    assert f * (m + half) == f * m + f * half;
    MulLe(t, t, (d + 1) * 100, f * (m + half));
    Regroup(d + 1, t, 100);
    Regroup(f, t, m + half);
  }

  /** At a whole number of kHz, nothing shifted, the first division is exact. */
  lemma DemandExact(rate: nat, load: nat)
    requires rate >= SECOND && rate % SECOND == 0 && TotalCount(rate) < 0x100_0000
    ensures var s := Sample(rate, load); Shifted(s) == s && s.total > 0 && Demand(s) == 125 * s.busy
  {
    var s := Sample(rate, load);
    assert rate == 125 * s.total;
    hide Sample;
    ExactCore(s.busy, s.total, rate);
  }

  lemma ExactCore(b: nat, t: nat, c: nat)
    requires t > 0 && c == 125 * t
    ensures b * c / t == 125 * b
  {
    DivBounds(b * c, t);
    var q := b * c / t;
    Assoc(b, 125, t);
    assert (q + 1) * t == q * t + t && (125 * b + 1) * t == (125 * b) * t + t;
    LessCancel(t, q, 125 * b + 1);
    LessCancel(t, 125 * b, q + 1);
  }

  /** There only the second division decides: some whole frequency has to carry the
      demand at a load between the middle of the band and its upper end. */
  lemma BandOnSamples(rate: nat, load: nat, up: nat, diff: nat)
    requires rate >= SECOND && rate % SECOND == 0 && TotalCount(rate) < 0x100_0000 && 1 <= diff <= up && load > 0
    ensures var s := Sample(rate, load);
      InBand(s, Scaled(s, up, diff), up, diff) <==> RoundUp(12500 * s.busy, up) * Aim(up, diff) <= 12500 * s.busy
  {
    var s := Sample(rate, load);
    DemandExact(rate, load);
    BandExactly(s, up, diff);
    var f := Scaled(s, up, diff);
    ScaledIsLargest(s, up, diff, RoundUp(12500 * s.busy, up));
    RoundUpIsLeast(12500 * s.busy, up, f);
    LeastExactly(s, up, f);
    ScaledIsLargest(s, up, diff, Least(s, up));
    SampleCounts(rate, load);
    Positives(s.busy, rate);
    hide Scaled, Least, RoundUp, Sample;
    WorkInTotals(s.busy, s.total, rate, f, up);
  }

  lemma SampleCounts(rate: nat, load: nat)
    requires rate >= SECOND && rate % SECOND == 0 && load > 0
    ensures var s := Sample(rate, load); rate == 125 * s.total && s.total > 0 && s.busy > 0 && s.current == rate
  {
  }

  lemma WorkInTotals(b: nat, t: nat, c: nat, f: nat, up: nat)
    requires t > 0 && c == 125 * t
    ensures b * c * 100 <= f * t * up <==> 12500 * b <= f * up
  {
    Assoc(b, 125, t);
    Regroup(b * 125, t, 100);
    Regroup(f, t, up);
    assert b * c * 100 == t * (12500 * b);
    if 12500 * b <= f * up {
      MulLe(t, t, 12500 * b, f * up);
    }
    if t * (12500 * b) <= t * (f * up) {
      LeCancel(t, 12500 * b, f * up);
    }
  }

  lemma Positives(a: nat, b: nat)
    requires a > 0 && b > 0
    ensures a * b > 0
  {
  }

  /** With a differential of 1 the next request can already miss the band. */
  lemma DropCanMissBand()
    ensures var s := Sample(1000000, 4000);
      Scaled(s, 90, 1) == 555555 && BranchOf(s, 90, 1) == Drop && !InBand(s, 555555, 90, 1)
  {
  }

  // ---- Requests ----

  /** The three directions of a request. */
  lemma Directions(t: Status, up: nat, diff: nat)
    requires t.total > 0 && 1 <= diff <= up
    ensures Clocked(t) && up <= 100 ==> (
      && Chosen(t, up, diff).Freq?
      && (BranchOf(t, up, diff) == Raise <==> Chosen(t, up, diff).hz > t.current)
      && (BranchOf(t, up, diff) == Drop <==> Chosen(t, up, diff).hz < t.current))
    ensures t.total * (up - diff) <= t.total * up
  {
    if Clocked(t) && up <= 100 {
      if BranchOf(t, up, diff) == Raise {
        RaisesAbove(t, up, diff);
      } else if BranchOf(t, up, diff) == Drop {
        DropsBelow(t, up, diff);
      }
    }
    MulLe(t.total, t.total, up - diff, up);
    hide Scaled, Demand, Work, BranchOf;
  }

  /** The direction of every request, through the driver's own decision: up exactly
      when the load is above the band, down exactly when it is below. */
  lemma MovesTheRightWay(data: Option<Tuning>, freq0: nat, rate: nat, load: nat)
    requires SECOND <= rate < WORD && load > 0
    requires ThresholdsOk(UpThreshold(data, rate, freq0), DownDifferential(data))
    ensures var r, t := Ask(data, freq0, rate, load), Shifted(Sample(rate, load));
      var up, diff := UpThreshold(data, rate, freq0), DownDifferential(data);
      && r.Freq? && t.total > 0
      && (BranchOf(t, up, diff) == Raise <==> r.hz > rate)
      && (BranchOf(t, up, diff) == Keep <==> r.hz == rate)
      && (BranchOf(t, up, diff) == Drop <==> r.hz < rate)
  {
    var up, diff, s := UpThreshold(data, rate, freq0), DownDifferential(data), Sample(rate, load);
    SampleClamped(rate, load);
    SampleIsClocked(rate, load);
    NoOverflow(s, up, diff);
    Directions(Shifted(s), up, diff);
    ShiftKeepsRate(s);
    hide UpThreshold, DownDifferential, Sample, Scaled, Clocked, Shifted;
  }

  lemma ShiftKeepsRate(s: Status)
    ensures Shifted(s).current == s.current
  {
  }

  /** The maximum is asked for exactly when there is nothing to divide by: no load, or
      a clock rate below 1 kHz, an unknown one of zero included. */
  lemma MaximumExactly(data: Option<Tuning>, freq0: nat, rate: nat, load: nat)
    requires rate < WORD && ThresholdsOk(UpThreshold(data, rate, freq0), DownDifferential(data))
    ensures Ask(data, freq0, rate, load) == MaxFreq <==> rate < SECOND || load == 0
  {
    SampleClamped(rate, load);
    if rate >= SECOND && load > 0 {
      MovesTheRightWay(data, freq0, rate, load);
    }
    hide Sample, Chosen, Shifted;
  }

  /** So an unknown frequency asks for the maximum, whatever the load. */
  lemma UnknownFrequency(data: Option<Tuning>, freq0: nat, load: nat)
    requires ThresholdsOk(UpThreshold(data, 0, freq0), DownDifferential(data))
    ensures Ask(data, freq0, 0, load) == MaxFreq
  {
    MaximumExactly(data, freq0, 0, load);
  }

  /** The whole decision in the driver's own numbers.  Thresholds not set are 90 and 5, and
      the upper one is 20 points lower on freq[0]; they must satisfy diff <= up <= 100.
      The traffic is at most the clock's own count, eight a kHz; from 2^24 on both are
      divided by 128.  Above `up` percent more is asked for, at `up - diff` or below less,
      and in between the same; what is asked for instead is the largest frequency that
      carries the busy cycles a second at a load of `up - diff / 2` percent. */
  predicate TrafficDecides(freq: Request, data: Option<Tuning>, freq0: nat, rate: nat, traffic: nat) {
    var up: nat := match data
      case None => 90
      case Some(t) => if t.upthreshold == 0 then 90
                      else if rate / 1000000 == freq0 / 1000000 then (t.upthreshold - 20) % 0x1_0000_0000
                      else t.upthreshold;
    var diff: nat := if data.None? || data.value.downdifferential == 0 then 5 else data.value.downdifferential;
    var count := 8 * (rate / 1000);
    var counted := if traffic < count then traffic else count;
    var (b, t) := if count >= 0x100_0000 then (counted / 128, count / 128) else (counted, count);
    if up > 100 || up < diff then freq == Invalid
    else if rate < 1000 || traffic == 0 then freq == MaxFreq
    else freq.Freq? && t > 0 && Answers(freq.hz, rate, b, t, up, diff)
  }

  predicate Answers(hz: nat, rate: nat, b: nat, t: nat, up: nat, diff: nat)
    requires t > 0 && diff <= up
  {
    && (hz > rate <==> 100 * b > t * up)
    && (hz < rate <==> 100 * b <= t * (up - diff))
    && (hz != rate ==> hz * (up - diff / 2) <= b * rate / t * 100 < (hz + 1) * (up - diff / 2))
  }

  lemma Decided(data: Option<Tuning>, freq0: nat, rate: nat, load: nat)
    requires rate < WORD
    ensures TrafficDecides(Ask(data, freq0, rate, load), data, freq0, rate, load)
  {
    var up, diff := UpThreshold(data, rate, freq0), DownDifferential(data);
    if ThresholdsOk(up, diff) && rate >= SECOND && load > 0 {
      AnswersAsked(data, freq0, rate, load);
      SampleCounted(rate, load);
      hide Shifted, Sample, Ask, Answers;
    } else {
      SampleClamped(rate, load);
      hide Sample, Chosen, Answers, Shifted;
    }
  }

  lemma AnswersAsked(data: Option<Tuning>, freq0: nat, rate: nat, load: nat)
    requires SECOND <= rate < WORD && load > 0
    requires ThresholdsOk(UpThreshold(data, rate, freq0), DownDifferential(data))
    ensures var r, s := Ask(data, freq0, rate, load), Shifted(Sample(rate, load));
      r.Freq? && s.total > 0 && s.current == rate
      && Answers(r.hz, rate, s.busy, s.total, UpThreshold(data, rate, freq0), DownDifferential(data))
  {
    var up, diff, s := UpThreshold(data, rate, freq0), DownDifferential(data), Shifted(Sample(rate, load));
    MovesTheRightWay(data, freq0, rate, load);
    AskIsScaled(data, freq0, rate, load);
    SampleCounted(rate, load);
    hide UpThreshold, DownDifferential, Ask, Sample, Shifted;
    ScaledAnswers(s, up, diff);
    BranchSaid(s, up, diff);
    hide Scaled, BranchOf;
  }

  lemma BranchSaid(s: Status, up: nat, diff: nat)
    requires diff <= up
    ensures BranchOf(s, up, diff) == Raise <==> 100 * s.busy > s.total * up
    ensures BranchOf(s, up, diff) == Drop ==> 100 * s.busy <= s.total * (up - diff)
    ensures BranchOf(s, up, diff) == Keep ==> 100 * s.busy > s.total * (up - diff)
    ensures s.total * (up - diff) <= s.total * up
  {
    MulLe(s.total, s.total, up - diff, up);
  }

  lemma ScaledAnswers(s: Status, up: nat, diff: nat)
    requires s.total > 0 && 1 <= diff <= up
    ensures var f := Scaled(s, up, diff);
      f * (up - diff / 2) <= s.busy * s.current / s.total * 100 < (f + 1) * (up - diff / 2)
  {
    ScaledBounds(s, up, diff);
    NextWhole(Scaled(s, up, diff), up - diff / 2);
    hide Scaled;
  }

  lemma NextWhole(f: nat, m: nat)
    ensures (f + 1) * m == f * m + m
  {
  }

  /** The sample decided on, spelled out. */
  lemma SampleCounted(rate: nat, load: nat)
    requires rate >= SECOND
    ensures var count := 8 * (rate / 1000);
      var counted := if load < count then load else count;
      var (b, t) := if count >= 0x100_0000 then (counted / 128, count / 128) else (counted, count);
      Shifted(Sample(rate, load)) == Status(b, t, rate)
  {
  }

  // ---- Stability ----

  /** The load is in the band of the clock rate. */
  predicate Kept(rate: nat, load: nat, up: nat, diff: nat)
    requires diff <= up
  {
    var total := TotalCount(rate);
    var (l, t) := if total >= 0x100_0000 then (load / 128, total / 128) else (load, total);
    l * 100 > t * (up - diff) && (l * 100 <= t * up || up == 100)
  }

  lemma KeptIsKeep(rate: nat, load: nat, up: nat, diff: nat)
    requires SECOND <= rate < WORD && 1 <= diff <= up <= 100
    ensures BranchOf(Shifted(Sample(rate, load)), up, diff) == Keep <==> Kept(rate, load, up, diff)
  {
    var total := TotalCount(rate);
    var (l, t) := if total >= 0x100_0000 then (load / 128, total / 128) else (load, total);
    SampleClamped(rate, load);
    Saturated(rate, load);
    hide Sample, Shifted;
    KeptCore(l, t, up - diff, up);
  }

  /** A load that saturates the total is above every threshold but 100. */
  lemma KeptCore(l: nat, t: nat, low: nat, up: nat)
    requires t > 0 && low < up <= 100
    ensures var b := if l > t then t else l;
      (b * 100 > t * low && b * 100 <= t * up) <==> (l * 100 > t * low && (l * 100 <= t * up || up == 100))
  {
    MulLe(t, t, low + 1, 100);
    assert t * (low + 1) == t * low + t;
    if up < 100 {
      MulLe(t, t, up + 1, 100);
      assert t * (up + 1) == t * up + t;
    }
  }

  /** The counts after clamping and shifting. */
  lemma Saturated(rate: nat, load: nat)
    requires rate >= SECOND
    ensures var total := TotalCount(rate);
      var (l, t) := if total >= 0x100_0000 then (load / 128, total / 128) else (load, total);
      var s := Shifted(Sample(rate, load));
      t > 0 && s.total == t && s.busy == if l > t then t else l
  {
  }

  /** A request is repeated, call after call, exactly when the load is in the band of
      the clock rate under the threshold in force at that rate. */
  lemma RepeatsExactly(data: Option<Tuning>, freq0: nat, rate: nat, load: nat)
    requires SECOND <= rate < WORD && load > 0
    requires ThresholdsOk(UpThreshold(data, rate, freq0), DownDifferential(data))
    ensures Ask(data, freq0, rate, load) == Freq(rate) <==>
      Kept(rate, load, UpThreshold(data, rate, freq0), DownDifferential(data))
  {
    MovesTheRightWay(data, freq0, rate, load);
    KeptIsKeep(rate, load, UpThreshold(data, rate, freq0), DownDifferential(data));
    hide UpThreshold, DownDifferential, Sample, Kept, BranchOf, Shifted, Ask;
  }

  /** Stability over two calls under the same load: the request of the first is
      repeated by the second exactly when the load is in the band of the frequency
      asked for, under the threshold in force there. */
  lemma Stable(data: Option<Tuning>, freq0: nat, rate: nat, load: nat, hz: nat)
    requires rate < WORD && SECOND <= hz < WORD && load > 0
    requires Ask(data, freq0, rate, load) == Freq(hz)
    requires ThresholdsOk(UpThreshold(data, hz, freq0), DownDifferential(data))
    ensures Ask(data, freq0, hz, load) == Ask(data, freq0, rate, load) <==>
      Kept(hz, load, UpThreshold(data, hz, freq0), DownDifferential(data))
  {
    RepeatsExactly(data, freq0, hz, load);
    hide Ask;
  }

  // ---- The band as a range of frequencies ----

  /** The lowest and the highest number of kHz whose band holds the load. */
  function LowestKhz(load: nat, up: nat): nat {
    RoundUp(25 * load, 2 * up)
  }

  function HighestKhz(load: nat, low: nat): nat
    requires load > 0 && low > 0
  {
    Whole(25 * load - 1, 2 * low)
  }

  /** Nothing shifted, the rates whose band holds a load are those between two whole
      numbers of kHz; the upper threshold of 100 and a band down to zero have no
      end on their side. */
  lemma KeptRange(rate: nat, load: nat, up: nat, diff: nat)
    requires TotalCount(rate) < 0x100_0000 && load > 0 && 1 <= diff <= up
    ensures Kept(rate, load, up, diff) <==>
      && (up == 100 || LowestKhz(load, up) <= rate / SECOND)
      && (up == diff || rate / SECOND <= HighestKhz(load, up - diff))
  {
    var khz := rate / SECOND;
    RoundUpIsLeast(25 * load, 2 * up, khz);
    Regroup(khz, 2, up);
    assert load * 100 <= 8 * khz * up <==> 25 * load <= khz * (2 * up) by {
      Eight(khz, up);
    }
    if up > diff {
      FloorIsLargest(25 * load - 1, 2 * (up - diff), khz);
      Eight(khz, up - diff);
    } else {
      assert 8 * khz * (up - diff) == 0;
    }
    hide RoundUp;
  }

  lemma Eight(a: nat, p: nat)
    ensures 8 * a * p == 4 * (a * (2 * p))
  {
  }

  lemma FloorIsLargest(x: nat, k: nat, f: nat)
    requires k > 0
    ensures f * k <= x <==> f <= Whole(x, k)
  {
    DivBounds(x, k);
    QuotientIsLargest(x / k, k, x, f);
  }

  /** Whether the second call repeats the first, told from the first sample and the
      thresholds: the demand covers the lowest kHz of the band and not the one after
      the highest.  `t` is the first sample as decided on. */
  lemma NextCallKeeps(data: Option<Tuning>, freq0: nat, rate: nat, load: nat, hz: nat, t: Status)
    requires SECOND <= rate < WORD && SECOND <= hz < WORD && load > 0 && TotalCount(hz) < 0x100_0000
    requires ThresholdsOk(UpThreshold(data, rate, freq0), DownDifferential(data))
    requires ThresholdsOk(UpThreshold(data, hz, freq0), DownDifferential(data))
    requires t == Shifted(Sample(rate, load)) && BranchOf(t, UpThreshold(data, rate, freq0), DownDifferential(data)) != Keep
    requires Ask(data, freq0, rate, load) == Freq(hz)
    ensures t.total > 0
    ensures var up, next, diff := UpThreshold(data, rate, freq0), UpThreshold(data, hz, freq0), DownDifferential(data);
      Ask(data, freq0, hz, load) == Freq(hz) <==>
        && (next == 100 || Covers(t, up, diff, SECOND * LowestKhz(load, next)))
        && (next == diff || !Covers(t, up, diff, SECOND * (HighestKhz(load, next - diff) + 1)))
  {
    var up, next, diff := UpThreshold(data, rate, freq0), UpThreshold(data, hz, freq0), DownDifferential(data);
    AskIsScaled(data, freq0, rate, load);
    hide UpThreshold, DownDifferential, Sample, Shifted, Ask, Scaled, BranchOf, Kept, Covers, LowestKhz, HighestKhz;
    RepeatsExactly(data, freq0, hz, load);
    RequestInRange(t, up, load, next, diff);
  }

  lemma RequestInRange(s: Status, up: nat, load: nat, next: nat, diff: nat)
    requires s.total > 0 && load > 0 && 1 <= diff <= up && diff <= next
    requires TotalCount(Scaled(s, up, diff)) < 0x100_0000
    ensures Kept(Scaled(s, up, diff), load, next, diff) <==>
      && (next == 100 || Covers(s, up, diff, SECOND * LowestKhz(load, next)))
      && (next == diff || !Covers(s, up, diff, SECOND * (HighestKhz(load, next - diff) + 1)))
  {
    var hz := Scaled(s, up, diff);
    KeptRange(hz, load, next, diff);
    ScaledIsLargest(s, up, diff, SECOND * LowestKhz(load, next));
    WholeKhz(hz, LowestKhz(load, next));
    if next > diff {
      ScaledIsLargest(s, up, diff, SECOND * (HighestKhz(load, next - diff) + 1));
      WholeKhz(hz, HighestKhz(load, next - diff) + 1);
    }
    hide Kept, Covers, Scaled, LowestKhz, HighestKhz;
  }

  lemma WholeKhz(hz: nat, k: nat)
    ensures k <= hz / SECOND <==> SECOND * k <= hz
  {
  }

  /** From a whole number of kHz, with a load that fits it and is not tiny, a
      differential of at least 2 and the same threshold at both rates, the governor
      settles with its first request. */
  lemma SettlesAtOnce(data: Option<Tuning>, freq0: nat, rate: nat, load: nat, hz: nat)
    requires SECOND <= rate < WORD && rate % SECOND == 0 && TotalCount(rate) < 0x100_0000
    requires 800 <= load <= TotalCount(rate)
    requires DownDifferential(data) >= 2 && ThresholdsOk(UpThreshold(data, rate, freq0), DownDifferential(data))
    requires Ask(data, freq0, rate, load) == Freq(hz) && hz < WORD && TotalCount(hz) < 0x100_0000
    requires UpThreshold(data, hz, freq0) == UpThreshold(data, rate, freq0)
    ensures Ask(data, freq0, hz, load) == Freq(hz)
  {
    var up, diff, s := UpThreshold(data, rate, freq0), DownDifferential(data), Sample(rate, load);
    MovesTheRightWay(data, freq0, rate, load);
    DemandExact(rate, load);
    if BranchOf(s, up, diff) != Keep {
      assert s.busy == load;
      AskIsScaled(data, freq0, rate, load);
      AimBounds(up, diff);
      ScaledIsLargest(s, up, diff, SECOND);
      SettleCore(load, up, diff);
      hide UpThreshold, DownDifferential, Sample, Ask, Scaled, Aim, Demand, BranchOf, Shifted;
      RepeatsExactly(data, freq0, hz, load);
      RequestInRange(s, up, load, up, diff);
    }
  }

  lemma AskIsScaled(data: Option<Tuning>, freq0: nat, rate: nat, load: nat)
    requires SECOND <= rate < WORD && load > 0
    requires ThresholdsOk(UpThreshold(data, rate, freq0), DownDifferential(data))
    ensures var up, diff, t := UpThreshold(data, rate, freq0), DownDifferential(data), Shifted(Sample(rate, load));
      t.total > 0 && (BranchOf(t, up, diff) != Keep ==> Ask(data, freq0, rate, load) == Freq(Scaled(t, up, diff)))
  {
    SampleClamped(rate, load);
    SampleIsClocked(rate, load);
    ShiftKeepsRate(Sample(rate, load));
    hide UpThreshold, DownDifferential, Scaled, Demand;
  }

  /** The slack of the band at such loads is at least one whole kHz. */
  lemma SettleCore(load: nat, up: nat, diff: nat)
    requires load >= 800 && 2 <= diff <= up <= 100
    ensures var m := Aim(up, diff);
      && SECOND * m <= 12500 * load
      && SECOND * LowestKhz(load, up) * m <= 12500 * load
      && (up > diff ==> SECOND * (HighestKhz(load, up - diff) + 1) * m > 12500 * load)
  {
    var m, k := Aim(up, diff), LowestKhz(load, up);
    AimBounds(up, diff);
    LowestBounds(load, up);
    hide Aim, LowestKhz;
    LowestCore(load, up, m, k);
    if up > diff {
      var h := HighestKhz(load, up - diff);
      FloorIsLargest(25 * load - 1, 2 * (up - diff), h + 1);
      hide HighestKhz;
      HighestCore(load, up - diff, m, h);
    }
  }

  lemma LowestBounds(load: nat, up: nat)
    requires up > 0
    ensures LowestKhz(load, up) * (2 * up) < 25 * load + 2 * up
  {
    DivBounds(25 * load + 2 * up - 1, 2 * up);
  }

  lemma LowestCore(load: nat, up: nat, m: nat, k: nat)
    requires load >= 800 && m < up <= 100 && k * (2 * up) < 25 * load + 2 * up
    ensures SECOND * k * m <= 12500 * load
  {
    LowestProducts(25 * load, up, m, k);
    assert SECOND * k * m == 500 * (k * m * 2);
  }

  lemma LowestProducts(x: nat, up: nat, m: nat, k: nat)
    requires x >= 20000 && m < up <= 100 && k * (2 * up) < x + 2 * up
    ensures k * m * 2 <= x
  {
    // k * 2 * up * m <= (x + 2 * up - 1) * m <= x * m + x <= x * up
    MulLe(k * (2 * up), x + 199, m, m);
    Split(x, 199, m);
    MulLe(x, x, m + 1, up);
    assert x * (m + 1) == x * m + x;
    assert k * (2 * up) * m == up * (k * m * 2) by {
      Reorder(k, up, m);
    }
    LeCancel(up, k * m * 2, x);
  }

  lemma Reorder(k: nat, up: nat, m: nat)
    ensures k * (2 * up) * m == up * (k * m * 2)
  {
  }

  lemma HighestCore(load: nat, low: nat, m: nat, h: nat)
    requires load > 0 && low < m && (h + 1) * (2 * low) > 25 * load - 1
    ensures SECOND * (h + 1) * m > 12500 * load
  {
    MulLe(h + 1, h + 1, 2 * low + 2, 2 * m);
    assert (h + 1) * (2 * low + 2) == (h + 1) * (2 * low) + 2 * (h + 1);
    assert SECOND * (h + 1) * m == 500 * ((h + 1) * (2 * m));
  }

  /** Without slack the second call can still move. */
  lemma SecondCallMoves()
    ensures var tuning := Some(Tuning(90, 1));
      && Ask(tuning, 500000000, 1000000, 4000) == Freq(555555)
      && Ask(tuning, 500000000, 555555, 4000) == Freq(556111)
      && Ask(tuning, 500000000, 556111, 4000) == Freq(556111)
  {
    assert Sample(1000000, 4000) == Status(4000, 8000, 1000000);
    assert Sample(555555, 4000) == Status(4000, 4440, 555555);
    assert Sample(556111, 4000) == Status(4000, 4448, 556111);
    hide Sample;
  }

  /** The clock rate after a call, the request taken as it is. */
  function Next(data: Option<Tuning>, freq0: nat, rate: nat, load: nat): (r: nat)
    requires rate < WORD
    ensures r < WORD
  {
    var r := Ask(data, freq0, rate, load);
    if r.Freq? && r.hz < WORD then r.hz else rate
  }

  /** And after `n` calls. */
  function After(data: Option<Tuning>, freq0: nat, rate: nat, load: nat, n: nat): (r: nat)
    requires rate < WORD
    ensures r < WORD
  {
    if n == 0 then rate else Next(data, freq0, After(data, freq0, rate, load, n - 1), load)
  }

  predicate FlapLow(rate: nat) {
    500000000 <= rate < 500001000
  }

  predicate FlapHigh(rate: nat) {
    647058000 <= rate < 647061000
  }

  /** Across the lower threshold of freq[0] a steady load need not settle at all: here
      it is above the band of 500 MHz and below the band of 647 MHz, and the requests
      go back and forth for ever. */
  lemma {:induction false} FlapsForever(n: nat)
    ensures var rate := After(Some(Tuning(90, 5)), 500000000, 880000000, 3520000, n + 1);
      var next := After(Some(Tuning(90, 5)), 500000000, 880000000, 3520000, n + 2);
      (FlapLow(rate) && FlapHigh(next)) || (FlapHigh(rate) && FlapLow(next))
    decreases n
  {
    var data := Some(Tuning(90, 5));
    hide Next, FlapLow, FlapHigh;
    var rate := After(data, 500000000, 880000000, 3520000, n + 1);
    if n > 0 {
      FlapsForever(n - 1);
    } else {
      FirstFlap();
    }
    assert After(data, 500000000, 880000000, 3520000, n + 2) == Next(data, 500000000, rate, 3520000);
    hide After;
    FlapUp(rate);
    FlapDown(rate);
  }

  lemma FirstFlap()
    ensures FlapLow(After(Some(Tuning(90, 5)), 500000000, 880000000, 3520000, 1))
  {
    var data := Some(Tuning(90, 5));
    assert Ask(data, 500000000, 880000000, 3520000) == Freq(500000000);
    hide Ask;
    assert After(data, 500000000, 880000000, 3520000, 0) == 880000000;
    assert After(data, 500000000, 880000000, 3520000, 1) == Next(data, 500000000, 880000000, 3520000);
  }

  lemma FlapUp(rate: nat)
    ensures FlapLow(rate) ==> FlapHigh(Next(Some(Tuning(90, 5)), 500000000, rate, 3520000))
  {
    if FlapLow(rate) {
      assert Sample(rate, 3520000) == Status(3520000, 4000000, rate);
      assert 647058000 <= Scaled(Status(3520000, 4000000, rate), 70, 5) < 647061000;
      FlapAsks(rate, 4000000, 70);
      hide Ask, Scaled, Sample;
    }
  }

  lemma FlapDown(rate: nat)
    ensures FlapHigh(rate) ==> FlapLow(Next(Some(Tuning(90, 5)), 500000000, rate, 3520000))
  {
    if FlapHigh(rate) {
      var total := FlapTotal(rate);
      hide Sample, Scaled, Ask;
      FlapAsks(rate, total, 90);
    }
  }

  lemma FlapTotal(rate: nat) returns (total: nat)
    requires FlapHigh(rate)
    ensures 5176464 <= total <= 5176480 && Sample(rate, 3520000) == Status(3520000, total, rate)
    ensures FlapLow(Scaled(Status(3520000, total, rate), 90, 5))
  {
    total := if rate < 647059000 then 5176464 else if rate < 647060000 then 5176472 else 5176480;
    FlapDemand(rate);
    assert Sample(rate, 3520000) == Status(3520000, total, rate);
    hide Demand, Sample, Scaled, FlapLow;
    FlapScaled(Status(3520000, total, rate));
  }

  lemma FlapScaled(t: Status)
    requires t.total > 0 && 440000000 <= Demand(t) < 440000880
    ensures FlapLow(Scaled(t, 90, 5))
  {
    var d := Demand(t);
    assert Scaled(t, 90, 5) == d * 100 / 88;
    hide Demand, Scaled;
  }

  lemma FlapDemand(rate: nat)
    ensures 647058000 <= rate < 647059000 ==> 440000000 <= Demand(Status(3520000, 5176464, rate)) < 440000880
    ensures 647059000 <= rate < 647060000 ==> 440000000 <= Demand(Status(3520000, 5176472, rate)) < 440000880
    ensures 647060000 <= rate < 647061000 ==> 440000000 <= Demand(Status(3520000, 5176480, rate)) < 440000880
  {
  }

  lemma FlapAsks(rate: nat, total: nat, up: nat)
    requires SECOND <= rate < WORD && (up == 70 || up == 90)
    requires Sample(rate, 3520000) == Status(3520000, total, rate) && total < 0x100_0000
    requires up == UpThreshold(Some(Tuning(90, 5)), rate, 500000000)
    requires BranchOf(Status(3520000, total, rate), up, 5) != Keep
    ensures Ask(Some(Tuning(90, 5)), 500000000, rate, 3520000) == Freq(Scaled(Status(3520000, total, rate), up, 5))
  {
    AskIsScaled(Some(Tuning(90, 5)), 500000000, rate, 3520000);
    hide Sample, UpThreshold, BranchOf, Ask, Scaled;
  }
}
