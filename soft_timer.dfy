/** The firmware's software timers (`Timer.c`, `Timer.h`): a table of
    `MaxTIMER` records `{En, SV, PV, Output}` of `uint32_t`, counted up by
    `scanTimer` once per hardware tick, which the TIM2 interrupt signals by
    setting `tim1msTick`. */
module SoftTimer {

  const U32Limit: int := 0x1_0000_0000

  newtype u32 = x: int | 0 <= x < 0x1_0000_0000

  /** `MaxTIMER`. */
  const MaxTimer: nat := 20

  /** `timer_Objt`: enabled flag, set value, present value, output latch. */
  datatype Timer = Timer(en: u32, sv: u32, pv: u32, output: u32)

  /** A record as `stopTim` leaves it, and as the zero-initialised table starts. */
  const Idle: Timer := Timer(0, 0, 0, 0)

  /** `++x` on a `uint32_t`, wrapping at 2^32. */
  function Inc(x: u32): (r: u32)
    ensures x as int + 1 < U32Limit ==> r as int == x as int + 1
    ensures x as int + 1 == U32Limit ==> r == 0
  {
    ((x as int + 1) % U32Limit) as u32
  }

  /** The record invariant: the present value never passes the set value,
      and the set value is below the largest `uint32_t`, so `++PV` cannot
      wrap. */
  predicate TimerOk(t: Timer) {
    t.pv <= t.sv && (t.sv as int) < U32Limit - 1
  }

  /** What `startTim(pTim, SV)` makes of `*pTim`: an enabled timer is left
      alone; a disabled one is enabled with `SV - 1` (an `SV` of 0 taken as
      1), a zero count and a clear output. */
  function Started(t: Timer, sv: u32): (r: Timer)
    ensures t.en != 0 ==> r == t
    ensures t.en == 0 ==> r.en == 1 && r.pv == 0 && r.output == 0 && r.sv as int == Period(sv) - 1
  {
    if t.en == 0 then Timer(1, (if sv < 1 then 1 else sv) - 1, 0, 0) else t
  }

  /** The number of ticks between two firings of a timer started with `sv`. */
  function Period(sv: u32): (p: nat)
    ensures 1 <= p < U32Limit
  {
    if sv < 1 then 1 else sv as int
  }

  /** One record's part of `scanTimer`: an enabled record counts one tick;
      once the count passes the set value it restarts at 0 and latches the
      output. */
  function Step(t: Timer): Timer {
    if t.en == 1 then
      var pv := Inc(t.pv);
      if pv > t.sv then t.(pv := 0, output := 1) else t.(pv := pv)
    else t
  }

  /** `n` scans of one record. */
  function Steps(t: Timer, n: nat): Timer {
    if n == 0 then t else Step(Steps(t, n - 1))
  }

  /** The table after one scan. */
  function Scanned(ts: seq<Timer>): (r: seq<Timer>)
    ensures |r| == |ts| && forall k :: 0 <= k < |ts| ==> r[k] == Step(ts[k])
  {
    if ts == [] then [] else Scanned(ts[..|ts| - 1]) + [Step(ts[|ts| - 1])]
  }

  // ------------------------------------------------------------------------
  // Properties of one record.

  /** A scan keeps the invariant; the increment never wraps; a disabled
      record is left unchanged; the output is never cleared; the enable flag
      and set value never change. */
  lemma StepSpec(t: Timer)
    requires TimerOk(t)
    ensures TimerOk(Step(t))
    ensures t.en == 1 ==> Inc(t.pv) as int == t.pv as int + 1
    ensures t.en != 1 ==> Step(t) == t
    ensures t.output == 1 ==> Step(t).output == 1
    ensures Step(t).en == t.en && Step(t).sv == t.sv
  {
  }

  /** Without the bound on the set value the invariant alone does not keep
      the count from wrapping: a record with `PV == SV == 0xFFFFFFFF` counts
      to 0 without firing. */
  lemma WrapWithoutBound()
    ensures var t := Timer(1, 0xFFFF_FFFF, 0xFFFF_FFFF, 0);
            t.pv <= t.sv && Step(t) == t.(pv := 0)
  {
  }

  /** `startTim` keeps the invariant. */
  lemma StartedOk(t: Timer, sv: u32)
    requires TimerOk(t)
    ensures TimerOk(Started(t, sv))
  {
  }

  /** A timer started on a disabled record, after `n` ticks, holds the count
      `n % P` for its period `P`, and its output is latched once a whole
      period has passed. */
  lemma {:induction false} StepsFromStart(t: Timer, sv: u32, n: nat)
    requires t.en == 0
    ensures var p := Period(sv);
            Steps(Started(t, sv), n) == Timer(1, (p - 1) as u32, (n % p) as u32, if n >= p then 1 else 0)
  {
    if n > 0 {
      StepsFromStart(t, sv, n - 1);
      var p := Period(sv);
      ModSucc(n - 1, p);
      StepCounts(p, (n - 1) % p, if n - 1 >= p then 1 else 0);
    }
  }

  /** Counting on by one modulo `p`. */
  lemma ModSucc(m: nat, p: nat)
    requires p >= 1
    ensures m % p + 1 < p ==> (m + 1) % p == m % p + 1 && m + 1 != p
    ensures m % p + 1 == p ==> (m + 1) % p == 0 && m + 1 >= p
  {
    var q := m / p;
    assert m == q * p + m % p;
    if m % p + 1 < p {
      ModUnique(m + 1, p, q, m % p + 1);
    } else {
      assert m + 1 == (q + 1) * p;
      ModUnique(m + 1, p, q + 1, 0);
    }
  }

  /** Euclidean division has one quotient and one remainder. */
  lemma ModUnique(x: int, p: int, q: int, r: int)
    requires p >= 1 && x == q * p + r && 0 <= r < p
    ensures x % p == r
  {
    var q', r' := x / p, x % p;
    assert x == q' * p + r';
    assert (q - q') * p == r' - r;
    if q > q' {
      MulAtLeast(q - q', p);
    } else if q < q' {
      assert (q' - q) * p == r - r';
      MulAtLeast(q' - q, p);
    }
  }

  lemma {:induction false} MulAtLeast(k: int, p: nat)
    requires k >= 1
    ensures k * p >= p
  {
    if k > 1 {
      MulAtLeast(k - 1, p);
      assert k * p == (k - 1) * p + p;
    }
  }

  /** The output of a started timer is latched exactly from the `P`-th tick
      on, and the count stays below `P`. */
  lemma FiresAfterPeriod(t: Timer, sv: u32, n: nat)
    requires t.en == 0
    ensures Steps(Started(t, sv), n).output == 1 <==> n >= Period(sv)
    ensures Steps(Started(t, sv), n).pv as int == n % Period(sv) < Period(sv)
  {
    StepsFromStart(t, sv, n);
  }

  /** One scan of a started record holding the count `r` of a period `p`. */
  lemma StepCounts(p: nat, r: nat, o: u32)
    requires 1 <= p < U32Limit && r < p && o <= 1
    ensures Step(Timer(1, (p - 1) as u32, r as u32, o)) ==
            if r + 1 < p then Timer(1, (p - 1) as u32, (r + 1) as u32, o) else Timer(1, (p - 1) as u32, 0, 1)
  {
  }

  // ------------------------------------------------------------------------
  // The table.

  /** The TIM peripheral whose period elapsed. */
  datatype Instance = Tim2 | OtherTim

  class TimerTable {
    /** `Tim_1ms`. */
    var timers: array<Timer>
    /** `tim1msTick`. */
    var tick: u32

    ghost predicate Valid()
      reads this, timers
    {
      timers.Length == MaxTimer && forall k :: 0 <= k < MaxTimer ==> TimerOk(timers[k])
    }

    /** The zero-initialised globals. */
    constructor ()
      ensures Valid() && fresh(timers) && tick == 0
      ensures forall k :: 0 <= k < MaxTimer ==> timers[k] == Idle
    {
      timers := new Timer[MaxTimer](_ => Idle);
      tick := 0;
    }

    /** `startTim(&Tim_1ms[i], sv)`: that record alone becomes `Started`. */
    method StartTim(i: nat, sv: u32)
      requires Valid() && i < MaxTimer
      modifies timers
      ensures Valid()
      ensures timers[..] == old(timers[..])[i := Started(old(timers[i]), sv)]
    {
      StartedOk(timers[i], sv);
      var t := timers[i];
      if t.en == 0 {
        var s := if sv < 1 then 1 else sv;
        timers[i] := Timer(1, s - 1, 0, 0);
      }
    }

    /** `stopTim(&Tim_1ms[i])`: that record is cleared, whatever it held. */
    method StopTim(i: nat)
      requires Valid() && i < MaxTimer
      modifies timers
      ensures Valid()
      ensures timers[..] == old(timers[..])[i := Idle]
    {
      timers[i] := Timer(0, 0, 0, 0);
    }

    /** `scanTimer`: nothing happens without a pending tick; with one, the
        tick is consumed and each of the `MaxTIMER` records takes one step. */
    method ScanTimer()
      requires Valid()
      modifies this, timers
      ensures Valid() && timers == old(timers)
      ensures old(tick) != 1 ==> tick == old(tick) && timers[..] == old(timers[..])
      ensures old(tick) == 1 ==> tick == 0 && timers[..] == Scanned(old(timers[..]))
    {
      if tick == 1 {
        tick := 0;
        ghost var before := timers[..];
        for i := 0 to MaxTimer
          invariant timers == old(timers) && tick == 0
          invariant forall k :: 0 <= k < i ==> timers[k] == Step(before[k])
          invariant forall k :: i <= k < MaxTimer ==> timers[k] == before[k]
        {
          StepSpec(before[i]);
          var t := timers[i];
          if t.en == 1 {
            var pv := Inc(t.pv);
            if pv > t.sv {
              timers[i] := t.(pv := 0, output := 1);
            } else {
              timers[i] := t.(pv := pv);
            }
          }
        }
        assert timers[..] == Scanned(before);
      }
    }

    /** `HAL_TIM_PeriodElapsedCallback`: only TIM2 raises the tick. */
    method PeriodElapsed(instance: Instance)
      requires Valid()
      modifies this
      ensures Valid()
      ensures timers == old(timers)
      ensures tick == if instance == Tim2 then 1 else old(tick)
    {
      if instance == Tim2 {
        tick := 1;
      }
    }

    /** The main loop's consumer: `Tim_1ms[i].Output = 0`. */
    method ClearOutput(i: nat)
      requires Valid() && i < MaxTimer
      modifies timers
      ensures Valid()
      ensures timers[..] == old(timers[..])[i := old(timers[i]).(output := 0)]
    {
      timers[i] := timers[i].(output := 0);
    }

    /** The main loop's test `Tim_1ms[i].En && Tim_1ms[i].Output`. */
    method Fired(i: nat) returns (fired: bool)
      requires Valid() && i < MaxTimer
      ensures fired <==> timers[i].en != 0 && timers[i].output != 0
    {
      fired := timers[i].en != 0 && timers[i].output != 0;
    }
  }
}
