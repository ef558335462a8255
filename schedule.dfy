/**
 * The dispatch of `loop`: the firmware waits for a millisecond count that
 * is a multiple of 250, splits time into four 250 ms phases, and in each
 * phase runs a fixed list of actions, some of them only on a coarser
 * cadence. The current version and its earlier form differ in where the
 * setpoint is recomputed.
 */
module Schedule {
  import opened Types

  /** What one turn of `loop` can do: recompute the setpoint
      (`calculerConsigne`), regulate the lamp (`regulerLampe`), send the
      report (`envoyerLog`) and read the AM2302 (`mesurerMeteo`). */
  datatype Action = UpdateSetpoint | RegulateLamp | Report | Measure

  /** The phase of an aligned millisecond count. */
  function Phase(t: nat): (ph: nat)
    ensures ph < 4
  {
    (t / 250) % 4
  }

  /** The actions the current `loop` runs at time `t`, in order. */
  function Plan(t: nat): seq<Action>
  {
    match Phase(t)
    case 0 => [UpdateSetpoint, RegulateLamp] + (if t % 5000 == 0 then [Report] else [])
    case 1 => [UpdateSetpoint, RegulateLamp]
    case 2 => [UpdateSetpoint, RegulateLamp] + (if t % 2000 == 500 then [Measure] else [])
    case 3 => [UpdateSetpoint, RegulateLamp]
  }

  /** The actions the earlier `loop` runs at time `t`, in order. */
  function EarlyPlan(t: nat): seq<Action>
  {
    match Phase(t)
    case 0 => [RegulateLamp] + (if t % 5000 == 0 then [Report] else [])
    case 1 => [RegulateLamp]
    case 2 => [RegulateLamp] + (if t % 2000 == 500 then [Measure] else [])
    case 3 => [RegulateLamp] + (if t % 60000 == 750 then [UpdateSetpoint] else [])
  }

  /** The phase of `250 * m` milliseconds. */
  lemma PhaseOf(t: nat, m: nat)
    requires t == 250 * m
    ensures Phase(t) == m % 4
  {
  }

  lemma QuarterOf(m: nat, q: nat, r: nat)
    requires m == 4 * q + r && r < 4
    ensures m % 4 == r
  {
  }

  /** A whole number of 5 seconds is phase 0. */
  lemma ReportPhase(t: nat)
    requires t % 5000 == 0
    ensures Phase(t) == 0
  {
    var k := t / 5000;
    assert t == 5000 * k;
    PhaseOf(t, 20 * k);
    QuarterOf(20 * k, 5 * k, 0);
  }

  /** Half a second past a whole number of 2 seconds is phase 2. */
  lemma MeasurePhase(t: nat)
    requires t % 2000 == 500
    ensures Phase(t) == 2
  {
    var k := t / 2000;
    assert t == 2000 * k + 500;
    PhaseOf(t, 8 * k + 2);
    QuarterOf(8 * k + 2, 2 * k, 2);
  }

  /** 750 ms past a whole number of minutes is phase 3. */
  lemma MinutePhase(t: nat)
    requires t % 60000 == 750
    ensures Phase(t) == 3
  {
    var k := t / 60000;
    assert t == 60000 * k + 750;
    PhaseOf(t, 240 * k + 3);
    QuarterOf(240 * k + 3, 60 * k, 3);
  }

  /** Every turn of the current loop recomputes the setpoint and then
      regulates, before anything else. */
  lemma AlwaysRegulates(t: nat)
    ensures |Plan(t)| >= 2 && Plan(t)[0] == UpdateSetpoint && Plan(t)[1] == RegulateLamp
  {
  }

  /** The report runs exactly when `t` is a whole number of 5 seconds,
      which is phase 0; the reading exactly half a second past a whole
      number of 2 seconds, which is phase 2. */
  lemma Cadence(t: nat)
    ensures Report in Plan(t) <==> t % 5000 == 0
    ensures Measure in Plan(t) <==> t % 2000 == 500
    ensures Report in Plan(t) ==> Phase(t) == 0
    ensures Measure in Plan(t) ==> Phase(t) == 2
  {
    if t % 5000 == 0 {
      ReportPhase(t);
    }
    if t % 2000 == 500 {
      MeasurePhase(t);
    }
  }

  /** The report and the reading never share a turn. */
  lemma Exclusive(t: nat)
    ensures !(Report in Plan(t) && Measure in Plan(t))
    ensures !(Report in EarlyPlan(t) && Measure in EarlyPlan(t))
  {
    Cadence(t);
    EarlyCadence(t);
  }

  /** Each action is listed at most once in a turn. */
  lemma NoRepeat(t: nat)
    ensures forall i, j :: 0 <= i < j < |Plan(t)| ==> Plan(t)[i] != Plan(t)[j]
    ensures forall i, j :: 0 <= i < j < |EarlyPlan(t)| ==> EarlyPlan(t)[i] != EarlyPlan(t)[j]
  {
  }

  /** Every turn of the earlier loop regulates first; it reports and reads
      on the same cadence as the current one, and recomputes the setpoint
      only 750 ms past a whole number of minutes, which is phase 3. */
  lemma EarlyCadence(t: nat)
    ensures |EarlyPlan(t)| >= 1 && EarlyPlan(t)[0] == RegulateLamp
    ensures Report in EarlyPlan(t) <==> t % 5000 == 0
    ensures Measure in EarlyPlan(t) <==> t % 2000 == 500
    ensures UpdateSetpoint in EarlyPlan(t) <==> t % 60000 == 750
    ensures UpdateSetpoint in EarlyPlan(t) ==> Phase(t) == 3
  {
    if t % 5000 == 0 {
      ReportPhase(t);
    }
    if t % 2000 == 500 {
      MeasurePhase(t);
    }
    if t % 60000 == 750 {
      MinutePhase(t);
    }
  }

  /** The earlier loop runs the same turn as the current one, except that
      it recomputes the setpoint once a minute, after regulating, instead
      of before every regulation. */
  lemma EarlyDiffers(t: nat)
    ensures Plan(t)[1..] == EarlyPlan(t)[..1] + (if Phase(t) == 3 then [] else EarlyPlan(t)[1..])
    ensures Phase(t) == 3 ==> EarlyPlan(t) == [RegulateLamp] + (if t % 60000 == 750 then [UpdateSetpoint] else [])
  {
  }

  /** The turn at time `t` and its successor 250 ms later are in
      successive phases. */
  lemma NextPhase(t: nat)
    requires t % 250 == 0
    ensures Phase(t + 250) == (Phase(t) + 1) % 4
  {
    assert (t + 250) / 250 == t / 250 + 1;
  }

  /** Two reports are at least 5 seconds apart, and two readings at least
      2 seconds apart. */
  lemma Spacing(t: nat, u: nat)
    requires t < u
    ensures Report in Plan(t) && Report in Plan(u) ==> u - t >= 5000
    ensures Measure in Plan(t) && Measure in Plan(u) ==> u - t >= 2000
  {
    Cadence(t);
    Cadence(u);
    if t % 5000 == 0 && u % 5000 == 0 {
      assert u - t == 5000 * (u / 5000 - t / 5000);
    }
    if t % 2000 == 500 && u % 2000 == 500 {
      assert u - t == 2000 * (u / 2000 - t / 2000);
    }
  }

  /** The milliseconds from reading `t` to a later reading `u` of the
      `unsigned long` clock, by unsigned subtraction. */
  function Since(t: u32, u: u32): (d: nat)
    ensures d < 0x1_0000_0000
    ensures t <= u ==> d == u as int - t as int
    ensures u < t ==> d == u as int + 0x1_0000_0000 - t as int
  {
    (u as int - t as int) % 0x1_0000_0000
  }

  /** When `millis()` wraps to 0 after 2^32 ms, the last report before the
      wrap (at 4294965000) is followed by the next one (at 0) only 2296 ms
      later, the last reading (at 4294966500) by the next (at 500) 1296 ms
      later, and the last turn (at 4294967250, phase 1) by the next (at 0,
      phase 0) 46 ms later. */
  lemma WrapGaps()
    ensures Report in Plan(4294965000) && Report in Plan(0) && Since(4294965000, 0) == 2296
    ensures forall u: nat | 4294965000 < u < 0x1_0000_0000 :: Report !in Plan(u)
    ensures Measure in Plan(4294966500) && Measure in Plan(500) && Since(4294966500, 500) == 1296
    ensures forall u: nat | 4294966500 < u < 0x1_0000_0000 || u < 500 :: Measure !in Plan(u)
    ensures Phase(4294967250) == 1 && Phase(0) == 0 && Since(4294967250, 0) == 46
  {
    Cadence(4294965000);
    Cadence(0);
    Cadence(4294966500);
    Cadence(500);
    forall u: nat | 4294965000 < u < 0x1_0000_0000
      ensures Report !in Plan(u)
    {
      Cadence(u);
    }
    forall u: nat | 4294966500 < u < 0x1_0000_0000 || u < 500
      ensures Measure !in Plan(u)
    {
      Cadence(u);
    }
  }

  /** `while ((t = millis()) % 250) delay(1);`: the clock is read until
      it shows a multiple of 250 ms; `clock` holds the successive readings
      and the first aligned one is returned, with its position. */
  method WaitAligned(clock: seq<u32>) returns (t: u32, k: nat)
    requires exists n :: 0 <= n < |clock| && clock[n] % 250 == 0
    ensures k < |clock| && t == clock[k] && t % 250 == 0
    ensures forall j :: 0 <= j < k ==> clock[j] % 250 != 0
  {
    k := 0;
    t := clock[0];
    while t % 250 != 0
      invariant k < |clock| && t == clock[k]
      invariant forall j :: 0 <= j < k ==> clock[j] % 250 != 0
      invariant exists n :: k <= n < |clock| && clock[n] % 250 == 0
      decreases |clock| - k
    {
      k := k + 1;
      t := clock[k];
    }
  }
}
