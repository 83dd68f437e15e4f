/** The low-voltage guard and the shutdown it may ask for, over every run of the power monitor (pcs_power_monitor.py). */
module LowVoltage {
  import opened Basics

  datatype Mode = Auto | Volts12 | Volts24

  datatype Config = Config(mode: Mode, threshold: real, hysteresis: real, confirmSamples: int, delaySeconds: int, allowShutdown: bool)

  datatype Guard = Guard(nominal: Option<Mode>, lowSamples: int, started: Option<real>)

  const NEW := Guard(None, 0, None)

  /** One turn of the service: the source setting, the voltage if it could be read, and the setting read again before a shutdown. */
  datatype Tick = Tick(now: real, onBattery: bool, voltage: Option<real>, stillOnBattery: bool)

  function Ceiling(x: real): int { -((-x).Floor) }

  function Remaining(c: Config, g: Guard, now: real): Option<int> {
    if g.started.None? then None
    else
      var left := Ceiling(c.delaySeconds as real - (now - g.started.value));
      Some(if left < 0 then 0 else left)
  }

  lemma RemainingZero(c: Config, g: Guard, now: real)
    ensures Remaining(c, g, now) == Some(0) <==> g.started.Some? && now - g.started.value >= c.delaySeconds as real
  {
  }

  /** The supply that the voltage shows, kept below ten volts. */
  function Nominal(c: Config, g: Guard, voltage: real): Option<Mode> {
    if c.mode == Auto && voltage >= 10.0 then Some(if voltage >= 18.0 then Volts24 else Volts12) else g.nominal
  }

  predicate On12Volts(c: Config, g: Guard, voltage: real) {
    (if c.mode == Auto then Nominal(c, g, voltage) else Some(c.mode)) == Some(Volts12)
  }

  function Update(c: Config, g: Guard, t: Tick): Guard {
    if !t.onBattery then g.(lowSamples := 0, started := None)
    else if t.voltage.None? then g
    else
      var v := t.voltage.value;
      var g1 := g.(nominal := Nominal(c, g, v));
      if !On12Volts(c, g, v) then g1.(lowSamples := 0, started := None)
      else if v < c.threshold then
        g1.(lowSamples := g.lowSamples + 1,
            started := if g.lowSamples + 1 >= c.confirmSamples && g.started.None? then Some(t.now) else g.started)
      else if v >= c.threshold + c.hysteresis then g1.(lowSamples := 0, started := None)
      else g1
  }

  // ---- Every run ----

  datatype Service = Service(guard: Guard, requested: bool)

  /** A shutdown is asked for at this turn. */
  predicate Asks(c: Config, s: Service, t: Tick) {
    && Remaining(c, Update(c, s.guard, t), t.now) == Some(0) && c.allowShutdown && t.onBattery && !s.requested && t.stillOnBattery
  }

  function Turn(c: Config, s: Service, t: Tick): Service {
    var g := Update(c, s.guard, t);
    if Remaining(c, g, t.now) == Some(0) && c.allowShutdown && t.onBattery && !s.requested && !t.stillOnBattery
    then Service(g, s.requested)
    else Service(g, (s.requested || Asks(c, s, t)) && g.started.Some?)
  }

  function Run(c: Config, ticks: seq<Tick>): Service {
    if ticks == [] then Service(NEW, false) else Turn(c, Run(c, ticks[..|ticks| - 1]), ticks[|ticks| - 1])
  }

  function Before(c: Config, ticks: seq<Tick>, i: int): Service
    requires 0 <= i < |ticks|
  {
    Run(c, ticks[..i])
  }

  lemma PrefixBefore(c: Config, ticks: seq<Tick>, i: int)
    requires 0 <= i < |ticks| - 1
    ensures Before(c, ticks[..|ticks| - 1], i) == Before(c, ticks, i)
  {
    assert ticks[..|ticks| - 1][..i] == ticks[..i];
  }

  /** A reading below the threshold of a twelve-volt source. */
  predicate Low(c: Config, g: Guard, t: Tick) {
    t.onBattery && t.voltage.Some? && On12Volts(c, g, t.voltage.value) && t.voltage.value < c.threshold
  }

  /** A reading at or above threshold plus hysteresis, or another source. */
  predicate Clears(c: Config, g: Guard, t: Tick) {
    || !t.onBattery
    || (t.voltage.Some?
        && (!On12Volts(c, g, t.voltage.value)
            || (t.voltage.value >= c.threshold && t.voltage.value >= c.threshold + c.hysteresis)))
  }

  /** What one reading does to the alarm. */
  lemma AlarmStep(c: Config, g: Guard, t: Tick)
    ensures Update(c, g, t).started.Some? <==>
      (g.started.Some? && !Clears(c, g, t)) || (Low(c, g, t) && g.lowSamples + 1 >= c.confirmSamples)
    ensures g.started.Some? && !Clears(c, g, t) ==> Update(c, g, t).started == g.started
  {
  }

  predicate LowAt(c: Config, ticks: seq<Tick>, i: int)
    requires 0 <= i < |ticks|
  {
    Low(c, Before(c, ticks, i).guard, ticks[i])
  }

  predicate ClearsAt(c: Config, ticks: seq<Tick>, i: int)
    requires 0 <= i < |ticks|
  {
    Clears(c, Before(c, ticks, i).guard, ticks[i])
  }

  /** The low readings from the m-th tick on, before the n-th. */
  function Lows(c: Config, ticks: seq<Tick>, m: nat, n: nat): nat
    requires m <= n <= |ticks|
    decreases n
  {
    if m == n then 0 else Lows(c, ticks, m, n - 1) + if LowAt(c, ticks, n - 1) then 1 else 0
  }

  predicate Uncleared(c: Config, ticks: seq<Tick>, m: nat) {
    m <= |ticks| && forall i :: m <= i < |ticks| ==> !ClearsAt(c, ticks, i)
  }

  lemma {:induction false} LowsPrefix(c: Config, ticks: seq<Tick>, m: nat, n: nat)
    requires m <= n < |ticks|
    ensures Lows(c, ticks[..|ticks| - 1], m, n) == Lows(c, ticks, m, n)
    decreases n
  {
    if m < n {
      LowsPrefix(c, ticks, m, n - 1);
      PrefixBefore(c, ticks, n - 1);
    }
  }

  lemma UnclearedExtends(c: Config, ticks: seq<Tick>, m: nat)
    requires ticks != [] && Uncleared(c, ticks[..|ticks| - 1], m) && !ClearsAt(c, ticks, |ticks| - 1)
    ensures Uncleared(c, ticks, m)
  {
    hide Clears, Before;
    forall i | m <= i < |ticks| ensures !ClearsAt(c, ticks, i) {
      if i < |ticks| - 1 {
        PrefixBefore(c, ticks, i);
        assert !ClearsAt(c, ticks[..|ticks| - 1], i);
      }
    }
  }

  /** The count is that of the low readings since the last clearing one. */
  lemma {:induction false} CountedSince(c: Config, ticks: seq<Tick>) returns (m: nat)
    ensures Uncleared(c, ticks, m) && Run(c, ticks).guard.lowSamples == Lows(c, ticks, m, |ticks|)
  {
    m := 0;
    if ticks != [] {
      var rest, last := ticks[..|ticks| - 1], |ticks| - 1;
      assert Before(c, ticks, last) == Run(c, rest);
      if ClearsAt(c, ticks, last) {
        m := |ticks|;
      } else {
        m := CountedSince(c, rest);
        UnclearedExtends(c, ticks, m);
        LowsPrefix(c, ticks, m, last);
        hide Run, Uncleared;
      }
    }
  }

  predicate ActiveAfter(c: Config, ticks: seq<Tick>, i: int)
    requires 0 <= i < |ticks|
  {
    Update(c, Before(c, ticks, i).guard, ticks[i]).started.Some?
  }

  /** The alarm began at the i-th tick, with enough low readings since the m-th and none that clears it up to the end. */
  predicate Confirmed(c: Config, ticks: seq<Tick>, m: nat, i: nat) {
    && m <= i < |ticks| && LowAt(c, ticks, i) && Uncleared(c, ticks, m) && Lows(c, ticks, m, i + 1) >= c.confirmSamples
  }

  lemma ConfirmedExtends(c: Config, ticks: seq<Tick>, m: nat, i: nat)
    requires ticks != [] && Confirmed(c, ticks[..|ticks| - 1], m, i) && !ClearsAt(c, ticks, |ticks| - 1)
    ensures Confirmed(c, ticks, m, i)
  {
    hide Before, Low, Clears;
    UnclearedExtends(c, ticks, m);
    LowsPrefix(c, ticks, m, i + 1);
    PrefixBefore(c, ticks, i);
  }

  /** The alarm stands only after enough low readings without a clearing one among them or since. */
  lemma {:induction false} AlarmIsConfirmed(c: Config, ticks: seq<Tick>) returns (m: nat, i: nat)
    requires Run(c, ticks).guard.started.Some?
    ensures Confirmed(c, ticks, m, i) && ticks[i].now == Run(c, ticks).guard.started.value
  {
    var rest, last := ticks[..|ticks| - 1], |ticks| - 1;
    var s := Run(c, rest);
    assert Before(c, ticks, last) == s;
    AlarmStep(c, s.guard, ticks[last]);
    assert Run(c, ticks).guard == Update(c, s.guard, ticks[last]);
    if s.guard.started.Some? && !ClearsAt(c, ticks, last) {
      m, i := AlarmIsConfirmed(c, rest);
      hide *;
      ConfirmedExtends(c, ticks, m, i);
    } else {
      m := CountedSince(c, rest);
      i := last;
      UnclearedExtends(c, ticks, m);
      LowsPrefix(c, ticks, m, last);
      hide Run, Uncleared, Before;
    }
  }

  /** The alarm, once on, stays exactly until a reading or a source clears it. */
  lemma AlarmStays(c: Config, ticks: seq<Tick>, i: int)
    requires 0 <= i < |ticks| && Before(c, ticks, i).guard.started.Some?
    ensures ActiveAfter(c, ticks, i) <==> !ClearsAt(c, ticks, i)
    ensures !ClearsAt(c, ticks, i) ==> Update(c, Before(c, ticks, i).guard, ticks[i]).started == Before(c, ticks, i).guard.started
  {
    hide Before;
    AlarmStep(c, Before(c, ticks, i).guard, ticks[i]);
  }

  // ---- The alarm in volts ----

  /** The latest voltage of at least ten that was read on battery. */
  function LatestPlain(ticks: seq<Tick>): Option<real> {
    if ticks == [] then None
    else
      var last := ticks[|ticks| - 1];
      if last.onBattery && last.voltage.Some? && last.voltage.value >= 10.0 then last.voltage
      else LatestPlain(ticks[..|ticks| - 1])
  }

  /** The supply is taken for one of twelve volts, by its setting or by its latest reading of at least ten volts. */
  predicate TwelveVolts(c: Config, ticks: seq<Tick>) {
    match c.mode
    case Volts12 => true
    case Volts24 => false
    case Auto => LatestPlain(ticks).Some? && LatestPlain(ticks).value < 18.0
  }

  /** The i-th reading is one of a twelve-volt supply on battery, below the threshold. */
  predicate LowVolts(c: Config, ticks: seq<Tick>, i: int)
    requires 0 <= i < |ticks|
  {
    ticks[i].onBattery && ticks[i].voltage.Some? && TwelveVolts(c, ticks[..i + 1]) && ticks[i].voltage.value < c.threshold
  }

  /** Off battery, another supply, or above the hysteresis. */
  predicate ClearVolts(c: Config, ticks: seq<Tick>, i: int)
    requires 0 <= i < |ticks|
  {
    || !ticks[i].onBattery
    || (ticks[i].voltage.Some?
        && (!TwelveVolts(c, ticks[..i + 1])
            || (ticks[i].voltage.value >= c.threshold && ticks[i].voltage.value >= c.threshold + c.hysteresis)))
  }

  lemma {:induction false} NominalExact(c: Config, ticks: seq<Tick>)
    requires c.mode == Auto
    ensures Run(c, ticks).guard.nominal == match LatestPlain(ticks)
      case None => None
      case Some(v) => Some(if v >= 18.0 then Volts24 else Volts12)
  {
    if ticks != [] {
      NominalExact(c, ticks[..|ticks| - 1]);
    }
  }

  lemma {:induction false} NominalUnused(c: Config, ticks: seq<Tick>)
    requires c.mode != Auto
    ensures Run(c, ticks).guard.nominal == None
  {
    if ticks != [] {
      NominalUnused(c, ticks[..|ticks| - 1]);
    }
  }

  /** What counts as low and what clears, in volts. */
  lemma ReadingsInVolts(c: Config, ticks: seq<Tick>, i: int)
    requires 0 <= i < |ticks|
    ensures LowAt(c, ticks, i) <==> LowVolts(c, ticks, i)
    ensures ClearsAt(c, ticks, i) <==> ClearVolts(c, ticks, i)
  {
    assert ticks[..i + 1][..i] == ticks[..i];
    if c.mode == Auto {
      NominalExact(c, ticks[..i]);
    } else {
      NominalUnused(c, ticks[..i]);
    }
    hide Run;
  }

  function LowCount(c: Config, ticks: seq<Tick>, m: nat, n: nat): nat
    requires m <= n <= |ticks|
    decreases n
  {
    if m == n then 0 else LowCount(c, ticks, m, n - 1) + if LowVolts(c, ticks, n - 1) then 1 else 0
  }

  lemma {:induction false} CountGrows(c: Config, ticks: seq<Tick>, m: nat, k: nat, n: nat)
    requires m <= k <= n <= |ticks|
    ensures LowCount(c, ticks, m, n) == LowCount(c, ticks, m, k) + LowCount(c, ticks, k, n)
    decreases n
  {
    hide LowVolts;
    if k < n {
      CountGrows(c, ticks, m, k, n - 1);
    }
  }

  /** Since the m-th reading nothing has cleared the alarm, and enough readings were low. */
  predicate Sustained(c: Config, ticks: seq<Tick>, m: nat) {
    && m <= |ticks| && (forall i :: m <= i < |ticks| ==> !ClearVolts(c, ticks, i))
    && LowCount(c, ticks, m, |ticks|) >= c.confirmSamples
  }

  lemma {:induction false} StartedIsCounted(c: Config, ticks: seq<Tick>)
    requires c.confirmSamples >= 1
    ensures Run(c, ticks).guard.started.Some? <==> Run(c, ticks).guard.lowSamples >= c.confirmSamples
  {
    if ticks != [] {
      StartedIsCounted(c, ticks[..|ticks| - 1]);
      hide On12Volts, Nominal;
    }
  }

  /** The readings that the count stands for are those since the latest that cleared it, and there is such a place. */
  lemma {:induction false} CountedFrom(c: Config, ticks: seq<Tick>) returns (m: nat)
    ensures m <= |ticks| && Run(c, ticks).guard.lowSamples == LowCount(c, ticks, m, |ticks|)
    ensures (forall i :: m <= i < |ticks| ==> !ClearVolts(c, ticks, i)) && (m > 0 ==> ClearVolts(c, ticks, m - 1))
  {
    m := 0;
    if ticks != [] {
      var rest, last := ticks[..|ticks| - 1], |ticks| - 1;
      ReadingsInVolts(c, ticks, last);
      assert Before(c, ticks, last) == Run(c, rest);
      StepCounts(c, ticks);
      if ClearsAt(c, ticks, last) {
        m := |ticks|;
      } else {
        m := CountedFrom(c, rest);
        hide Run, Before, ClearVolts, LowVolts, ClearsAt, LowAt;
        VoltsPrefix(c, ticks, m);
      }
    }
  }

  lemma StepCounts(c: Config, ticks: seq<Tick>)
    requires ticks != []
    ensures var last := |ticks| - 1;
      var before, after := Before(c, ticks, last).guard.lowSamples, Run(c, ticks).guard.lowSamples;
      && (ClearsAt(c, ticks, last) ==> after == 0)
      && (!ClearsAt(c, ticks, last) ==> after == before + if LowAt(c, ticks, last) then 1 else 0)
  {
  }

  lemma {:induction false} VoltsPrefix(c: Config, ticks: seq<Tick>, m: nat)
    requires ticks != [] && m <= |ticks| - 1
    ensures var rest := ticks[..|ticks| - 1];
      && (forall i :: 0 <= i < |rest| ==> (ClearVolts(c, rest, i) <==> ClearVolts(c, ticks, i)))
      && LowCount(c, rest, m, |rest|) == LowCount(c, ticks, m, |rest|)
  {
    var rest := ticks[..|ticks| - 1];
    forall i | 0 <= i < |rest|
      ensures ClearVolts(c, rest, i) <==> ClearVolts(c, ticks, i)
      ensures LowVolts(c, rest, i) <==> LowVolts(c, ticks, i) {
      assert rest[..i + 1] == ticks[..i + 1];
    }
    hide ClearVolts, LowVolts;
    SameCount(c, rest, ticks, m, |rest|);
  }

  lemma {:induction false} SameCount(c: Config, a: seq<Tick>, b: seq<Tick>, m: nat, n: nat)
    requires m <= n <= |a| <= |b| && forall i :: m <= i < n ==> (LowVolts(c, a, i) <==> LowVolts(c, b, i))
    ensures LowCount(c, a, m, n) == LowCount(c, b, m, n)
    decreases n
  {
    hide LowVolts;
    if m < n {
      SameCount(c, a, b, m, n - 1);
    }
  }

  lemma SustainedFrom(c: Config, ticks: seq<Tick>, m: nat, k: nat)
    requires k <= |ticks| && (k > 0 ==> ClearVolts(c, ticks, k - 1)) && Sustained(c, ticks, m)
    ensures m >= k
  {
    hide ClearVolts, LowCount;
  }

  /**
   The alarm in volts: it is on exactly when, since some reading, nothing has cleared it and at least the configured
   number of readings of a twelve-volt supply on battery were below the threshold.
   */
  lemma AlarmExact(c: Config, ticks: seq<Tick>)
    requires c.confirmSamples >= 1
    ensures Run(c, ticks).guard.started.Some? <==> exists m: nat :: Sustained(c, ticks, m)
  {
    StartedIsCounted(c, ticks);
    var k := CountedFrom(c, ticks);
    hide Run, ClearVolts, LowVolts;
    if Run(c, ticks).guard.started.Some? {
      assert Sustained(c, ticks, k);
    }
    if m: nat :| Sustained(c, ticks, m) {
      SustainedFrom(c, ticks, m, k);
      CountGrows(c, ticks, k, m, |ticks|);
    }
  }

  /** An automatic guard of a low but plausible battery does alarm: enough readings between ten volts and the threshold. */
  lemma LowRunAlarms(c: Config, ticks: seq<Tick>, m: nat)
    requires c.mode == Auto && 1 <= c.confirmSamples <= |ticks| - m && c.threshold <= 18.0 && c.hysteresis >= 0.0
    requires forall i :: m <= i < |ticks| ==>
      ticks[i].onBattery && ticks[i].voltage.Some? && 10.0 <= ticks[i].voltage.value < c.threshold
    ensures Run(c, ticks).guard.started.Some?
  {
    forall i | m <= i < |ticks| ensures LowVolts(c, ticks, i) && !ClearVolts(c, ticks, i) {
      assert ticks[..i + 1][i] == ticks[i];
    }
    hide LowVolts, ClearVolts;
    AllCounted(c, ticks, m, |ticks|);
    assert Sustained(c, ticks, m);
    AlarmExact(c, ticks);
    hide Run;
  }

  lemma {:induction false} AllCounted(c: Config, ticks: seq<Tick>, m: nat, n: nat)
    requires m <= n <= |ticks| && forall i :: m <= i < n ==> LowVolts(c, ticks, i)
    ensures LowCount(c, ticks, m, n) == n - m
    decreases n
  {
    hide LowVolts;
    if m < n {
      AllCounted(c, ticks, m, n - 1);
    }
  }

  /** An automatic guard is quiet after a reading of at least eighteen volts, and a fixed one of 24 volts always. */
  lemma EighteenVoltsClear(c: Config, ticks: seq<Tick>)
    requires c.confirmSamples >= 1
    requires c.mode == Volts24
      || (c.mode == Auto && ticks != [] && ticks[|ticks| - 1].voltage.Some? && ticks[|ticks| - 1].voltage.value >= 18.0)
    ensures Run(c, ticks).guard.started.None?
  {
    AlarmExact(c, ticks);
    hide Run;
    forall m: nat ensures !Sustained(c, ticks, m) {
      if c.mode == Auto {
        NotSustained(c, ticks, m);
      } else if m <= |ticks| {
        NeverLow(c, ticks, m, |ticks|);
      }
    }
  }

  lemma NotSustained(c: Config, ticks: seq<Tick>, m: nat)
    requires c.confirmSamples >= 1 && c.mode == Auto && ticks != []
    requires ticks[|ticks| - 1].voltage.Some? && ticks[|ticks| - 1].voltage.value >= 18.0
    ensures !Sustained(c, ticks, m)
  {
    var last := |ticks| - 1;
    assert ClearVolts(c, ticks, last) by { assert ticks[..|ticks|] == ticks; }
    hide ClearVolts;
    if m <= |ticks| {
      CountedNonempty(c, ticks, m, |ticks|);
    }
  }

  lemma CountedNonempty(c: Config, ticks: seq<Tick>, m: nat, n: nat)
    requires m <= n <= |ticks|
    ensures LowCount(c, ticks, m, n) <= n - m
    decreases n
  {
    if m < n {
      CountedNonempty(c, ticks, m, n - 1);
    }
  }

  lemma {:induction false} NeverLow(c: Config, ticks: seq<Tick>, m: nat, n: nat)
    requires m <= n <= |ticks| && c.mode == Volts24
    ensures LowCount(c, ticks, m, n) == 0
    decreases n
  {
    if m < n {
      NeverLow(c, ticks, m, n - 1);
    }
  }

  /** The whole seconds that remain are rounded up. */
  lemma RemainingExact(c: Config, g: Guard, now: real, k: nat)
    requires g.started.Some?
    ensures k > 0 ==>
      (Remaining(c, g, now) == Some(k) <==>
         (k - 1) as real < c.delaySeconds as real - (now - g.started.value) <= k as real)
    ensures Remaining(c, g, now).Some? && Remaining(c, g, now).value >= 0
  {
  }

  // ---- Shutdown ----

  predicate AsksAt(c: Config, ticks: seq<Tick>, j: int)
    requires 0 <= j < |ticks|
  {
    Asks(c, Before(c, ticks, j), ticks[j])
  }

  /**
   A shutdown is asked for only on battery, with shutdown allowed, after the configured delay with the alarm on
   without interruption.
   */
  lemma ShutdownAfterDelay(c: Config, ticks: seq<Tick>, j: int) returns (m: nat, i: nat)
    requires 0 <= j < |ticks| && AsksAt(c, ticks, j)
    ensures c.allowShutdown && ticks[j].onBattery && ticks[j].stillOnBattery
    ensures i <= j && Confirmed(c, ticks[..j + 1], m, i) && ticks[j].now - ticks[i].now >= c.delaySeconds as real
  {
    var past := ticks[..j + 1];
    assert past[..j] == ticks[..j];
    assert Run(c, past).guard == Update(c, Before(c, ticks, j).guard, ticks[j]);
    RemainingZero(c, Run(c, past).guard, ticks[j].now);
    hide Run, Update;
    m, i := AlarmIsConfirmed(c, past);
  }

  /** After the k-th tick and up to the end the alarm was on. */
  predicate ActiveFrom(c: Config, ticks: seq<Tick>, k: int) {
    0 <= k < |ticks| && forall i :: k <= i < |ticks| ==> ActiveAfter(c, ticks, i)
  }

  lemma ActiveFromExtends(c: Config, ticks: seq<Tick>, k: int)
    requires ticks != [] && ActiveFrom(c, ticks[..|ticks| - 1], k) && ActiveAfter(c, ticks, |ticks| - 1)
    ensures ActiveFrom(c, ticks, k)
  {
    hide Before, Update;
    forall i | k <= i < |ticks| ensures ActiveAfter(c, ticks, i) {
      if i < |ticks| - 1 {
        PrefixBefore(c, ticks, i);
        assert ActiveAfter(c, ticks[..|ticks| - 1], i);
      }
    }
  }

  lemma {:induction false} RequestedMeansAsked(c: Config, ticks: seq<Tick>) returns (k: int)
    requires Run(c, ticks).requested
    ensures ActiveFrom(c, ticks, k) && AsksAt(c, ticks, k)
  {
    var rest, last := ticks[..|ticks| - 1], |ticks| - 1;
    var s := Run(c, rest);
    assert Before(c, ticks, last) == s;
    hide Update;
    if s.requested {
      k := RequestedMeansAsked(c, rest);
      assert ActiveAfter(c, ticks, last);
      hide Run, Before, Asks;
      ActiveFromExtends(c, ticks, k);
      PrefixBefore(c, ticks, k);
    } else {
      k := last;
    }
  }

  lemma {:induction false} StaysRequested(c: Config, ticks: seq<Tick>, k: int)
    requires ActiveFrom(c, ticks, k) && AsksAt(c, ticks, k)
    ensures Run(c, ticks).requested
  {
    var rest, last := ticks[..|ticks| - 1], |ticks| - 1;
    assert Before(c, ticks, last) == Run(c, rest);
    hide Update;
    assert ActiveAfter(c, ticks, last);
    if k < last {
      PrefixBefore(c, ticks, k);
      forall i | k <= i < |rest| ensures ActiveAfter(c, rest, i) {
        PrefixBefore(c, ticks, i);
        assert ActiveAfter(c, ticks, i);
      }
      StaysRequested(c, rest, k);
    }
  }

  /** Between two requests the alarm was off: a shutdown is asked for at most once per episode. */
  lemma OncePerEpisode(c: Config, ticks: seq<Tick>, j: int, k: int)
    requires 0 <= j < k < |ticks| && AsksAt(c, ticks, j) && AsksAt(c, ticks, k)
    ensures exists i :: j < i < k && !ActiveAfter(c, ticks, i)
  {
    var past := ticks[..k];
    if forall i :: j < i < k ==> ActiveAfter(c, ticks, i) {
      hide Update;
      forall i | j <= i < k ensures ActiveAfter(c, past, i) {
        assert past[..i] == ticks[..i];
        assert i > j ==> ActiveAfter(c, ticks, i);
      }
      assert past[..j] == ticks[..j];
      StaysRequested(c, past, j);
    }
  }

  /** When the delay is over and shutdown is armed, it has been asked for in this episode. */
  lemma DueIsAsked(c: Config, ticks: seq<Tick>, j: int) returns (k: int)
    requires 0 <= j < |ticks| && c.allowShutdown && ticks[j].onBattery && ticks[j].stillOnBattery
    requires Remaining(c, Update(c, Before(c, ticks, j).guard, ticks[j]), ticks[j].now) == Some(0)
    ensures ActiveFrom(c, ticks[..j + 1], k) && AsksAt(c, ticks, k)
  {
    var past := ticks[..j + 1];
    assert past[..j] == ticks[..j];
    hide Update;
    assert Run(c, past).requested;
    k := RequestedMeansAsked(c, past);
    assert past[..k] == ticks[..k];
  }

  // ---- The object ----

  class LowVoltageGuard {
    const config: Config
    var nominal: Option<Mode>
    var lowSamples: int
    var started: Option<real>

    function Contents(): Guard
      reads this
    {
      Guard(nominal, lowSamples, started)
    }

    constructor (config: Config)
      ensures Contents() == NEW && this.config == config
    {
      this.config := config;
      nominal, lowSamples, started := None, 0, None;
    }

    method TakeReading(t: Tick) returns (active: bool, remaining: Option<int>)
      modifies this
      ensures Contents() == Update(config, old(Contents()), t)
      ensures active == started.Some? && remaining == Remaining(config, Contents(), t.now)
    {
      if !t.onBattery {
        lowSamples, started := 0, None;
        return false, None;
      }
      if t.voltage.None? {
        return started.Some?, Remaining(config, Contents(), t.now);
      }
      var voltage := t.voltage.value;
      if config.mode == Auto && voltage >= 10.0 {
        nominal := Some(if voltage >= 18.0 then Volts24 else Volts12);
      }
      var effective := if config.mode == Auto then nominal else Some(config.mode);
      if effective != Some(Volts12) {
        lowSamples, started := 0, None;
        return false, None;
      }
      if voltage < config.threshold {
        lowSamples := lowSamples + 1;
        if lowSamples >= config.confirmSamples && started.None? {
          started := Some(t.now);
        }
      } else if voltage >= config.threshold + config.hysteresis {
        lowSamples, started := 0, None;
      }
      return started.Some?, Remaining(config, Contents(), t.now);
    }
  }

  /** The service's loop over its ticks: which of them asked for a shutdown. */
  method RunService(config: Config, ticks: seq<Tick>) returns (asked: seq<bool>)
    ensures |asked| == |ticks| && forall j :: 0 <= j < |ticks| ==> (asked[j] <==> AsksAt(config, ticks, j))
  {
    hide Update;
    var guard := new LowVoltageGuard(config);
    var requested := false;
    asked := [];
    for i := 0 to |ticks|
      invariant fresh(guard) && guard.config == config
      invariant Service(guard.Contents(), requested) == Run(config, ticks[..i])
      invariant |asked| == i && forall j :: 0 <= j < i ==> (asked[j] <==> AsksAt(config, ticks, j))
    {
      var t := ticks[i];
      assert ticks[..i + 1][..i] == ticks[..i];
      var active, remaining := guard.TakeReading(t);
      var asks := false;
      if remaining == Some(0) && config.allowShutdown && t.onBattery && !requested {
        if !t.stillOnBattery {
          asked := asked + [false];
          continue;
        }
        requested := true;
        asks := true;
      }
      if !active {
        requested := false;
      }
      asked := asked + [asks];
    }
    assert ticks[..|ticks|] == ticks;
  }
}
