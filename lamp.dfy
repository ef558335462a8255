/**
 * The lamp's light: the setpoint `calculerConsigne` draws from the time of
 * day, and the step `regulerLampe` takes towards it from the measured
 * luminosity, in the current application and in its earlier version.
 *
 * Both are computed over `real`; the firmware's `float`/`double` rounding
 * is not modelled. Cosine is any function bounded by -1 and 1.
 */
module Lamp {
  import opened Types

  /** Any cosine: a function of the angle bounded by -1 and 1. */
  type Cosine = f: real -> real | forall x :: -1.0 <= f(x) <= 1.0
    witness (x: real) => 0.0

  /** `M_PI` of `math.h`. */
  const Pi: real := 3.14159265358979323846
  /** The value of pi the earlier version writes out. */
  const EarlyPi: real := 3.141592654
  /** The setpoint's peak, in the current version and in the earlier one. */
  const Peak: real := 1000.0
  const EarlyPeak: real := 1500.0

  /** Arduino's `constrain(x, lo, hi)`. */
  function Clamp(x: real, lo: real, hi: real): (r: real)
    requires lo <= hi
    ensures lo <= r <= hi
    ensures lo <= x <= hi ==> r == x
    ensures x < lo ==> r == lo
    ensures x > hi ==> r == hi
  {
    if x < lo then lo else if x > hi then hi else x
  }

  /** C's `round`: the nearest integer, halfway cases away from zero. */
  function Round(x: real): (r: int)
    ensures x >= 0.0 ==> x - 0.5 < r as real <= x + 0.5
    ensures x < 0.0 ==> x - 0.5 <= r as real < x + 0.5
  {
    if x >= 0.0 then (x + 0.5).Floor else -((0.5 - x).Floor)
  }

  /** A duty between 0 and 255 rounds to a duty `analogWrite` accepts. */
  lemma RoundDuty(x: real)
    requires 0.0 <= x <= 255.0
    ensures 0 <= Round(x) <= 255
  {
  }

  // ---------------------------------------------------------------------
  // Setpoint.

  /** The time of day in hours, from `Time.hour()` and `Time.minute()`. */
  function HourOfDay(hour: nat, minute: nat): real
  {
    hour as real + minute as real / 60.0
  }

  /** The lamp is lit from 6 h for 14 hours. */
  predicate Lit(hms: real)
  {
    !(hms < 6.0 || hms > 6.0 + 14.0)
  }

  /** The setpoint at time `hms`: 0 outside the window, otherwise a raised
      cosine of peak `a`. */
  function SetPoint(hms: real, a: real, pi: real, cos: Cosine): (c: real)
    ensures !Lit(hms) ==> c == 0.0
    ensures a >= 0.0 ==> 0.0 <= c <= a
  {
    if hms < 6.0 || hms > 6.0 + 14.0 then 0.0
    else
      var x := cos((2.0 * pi) * (hms - 6.0) / 14.0);
      RaisedCosine(a, x);
      a * (1.0 - x) / 2.0
  }

  /** A raised cosine of nonnegative peak `a` lies between 0 and `a`. */
  lemma RaisedCosine(a: real, x: real)
    requires -1.0 <= x <= 1.0
    ensures a >= 0.0 ==> 0.0 <= a * (1.0 - x) / 2.0 <= a
  {
    if a >= 0.0 {
      var u := 1.0 - x;
      assert 0.0 <= u <= 2.0;
      assert a * u <= a * 2.0 by {
        assert a * 2.0 - a * u == a * (2.0 - u);
      }
    }
  }

  /** On a clock of whole minutes the window runs from 6:00 to 20:00,
      both included. */
  lemma LitWindow(hour: nat, minute: nat)
    requires minute < 60
    ensures Lit(HourOfDay(hour, minute)) <==> (6 <= hour < 20 || (hour == 20 && minute == 0))
  {
    var f := minute as real / 60.0;
    assert 0.0 <= f < 1.0;
    assert minute > 0 ==> f > 0.0;
  }

  /** The earlier version's peak is one and a half times the current one:
      with the same cosine and value of pi, its setpoint is too. */
  lemma EarlySetPointScaled(hms: real, pi: real, cos: Cosine)
    ensures SetPoint(hms, EarlyPeak, pi, cos) == 1.5 * SetPoint(hms, Peak, pi, cos)
  {
  }

  /** The setpoint is at its peak exactly when the cosine is -1. */
  lemma SetPointPeak(hms: real, a: real, pi: real, cos: Cosine)
    requires a > 0.0 && Lit(hms)
    ensures SetPoint(hms, a, pi, cos) == a <==> cos((2.0 * pi) * (hms - 6.0) / 14.0) == -1.0
  {
    var x := cos((2.0 * pi) * (hms - 6.0) / 14.0);
    assert SetPoint(hms, a, pi, cos) == a * (1.0 - x) / 2.0;
    if a * (1.0 - x) / 2.0 == a {
      assert a * (1.0 - x) == a * 2.0;
      assert a * (-1.0 - x) == 0.0;
    }
  }

  // ---------------------------------------------------------------------
  // Regulation, current version: a proportional-integral step with an
  // integrator that stops winding up once the output saturates.

  /** The proportional term, `0.8 * fConsigne`: the measured luminosity
      does not enter it. */
  function Proportional(c: real): real
  {
    c * 0.8
  }

  /** The integrator's increment for setpoint `c` and luminosity `lum`. */
  function Increment(c: real, lum: real): real
  {
    (c - lum) / 200.0
  }

  /** The integrator after one step: it takes the increment only while
      the output it feeds is not already past the side the increment
      pushes towards. */
  function Integrate(c: real, lum: real, i: real): (i': real)
    ensures i' == i || i' == i + Increment(c, lum)
    ensures i' != i <==>
      (Proportional(c) + i <= 255.0 && c > lum) || (Proportional(c) + i >= 0.0 && c < lum)
  {
    var p := Proportional(c);
    var d := 0.0;
    var di := Increment(c, lum);
    if (p + i + d <= 255.0 && di > 0.0) || (p + i + d >= 0.0 && di < 0.0) then i + di else i
  }

  /** The outcome of one regulation step: the new integrator, the output
      level (0 to 255), the new stored lamp power (0 to 100 %) and the
      duty written to the lamp's pin, if one is. */
  datatype Regulation = Regulation(integ: real, level: real, lamp: real, duty: Option<int>)

  /** `regulerLampe` with setpoint `c`, measured luminosity `lum`, the
      integrator `i` and the stored lamp power `lamp` it starts from. */
  function Regulate(c: real, lum: real, i: real, lamp: real): (r: Regulation)
    ensures r.integ == Integrate(c, lum, i)
    ensures 0.0 <= Proportional(c) + r.integ <= 255.0 ==> r.level == Proportional(c) + r.integ
    ensures Proportional(c) + r.integ > 255.0 ==> r.level == 255.0
    ensures Proportional(c) + r.integ < 0.0 ==> r.level == 0.0
    ensures 0.0 <= r.level <= 255.0 && 0.0 <= r.lamp <= 100.0
    ensures r.lamp * 2.55 == r.level
    ensures r.duty.Some? <==> Round(r.level) != Round(lamp * 2.55)
    ensures r.duty.Some? ==> r.duty.value == Round(r.level) && 0 <= r.duty.value <= 255
  {
    var i' := Integrate(c, lum, i);
    var l := Clamp(Proportional(c) + i' + 0.0, 0.0, 255.0);
    RoundDuty(l);
    var duty := if Round(l) != Round(lamp * 2.55) then Some(Round(l)) else None;
    Regulation(i', l, l / 2.55, duty)
  }

  /** A step that leaves the output level where the previous step put it
      writes nothing to the pin. */
  lemma SteadyLevelSilent(c: real, lum: real, i: real, lamp: real, c': real, lum': real)
    requires Regulate(c', lum', Regulate(c, lum, i, lamp).integ, Regulate(c, lum, i, lamp).lamp).level
          == Regulate(c, lum, i, lamp).level
    ensures Regulate(c', lum', Regulate(c, lum, i, lamp).integ, Regulate(c, lum, i, lamp).lamp).duty == None
  {
  }

  /** With the output saturated high and the lamp still too dark, or
      saturated low and the lamp too bright, the integrator is frozen and
      the output stays at its bound. */
  lemma SaturatedFrozen(c: real, lum: real, i: real, lamp: real)
    requires (Proportional(c) + i > 255.0 && c > lum) || (Proportional(c) + i < 0.0 && c < lum)
    ensures Regulate(c, lum, i, lamp).integ == i
    ensures Regulate(c, lum, i, lamp).level == if c > lum then 255.0 else 0.0
  {
  }

  /** One sample of the regulator's inputs: the setpoint and the measured
      luminosity at one step. */
  datatype Sample = Sample(consigne: real, luminosity: real)

  /** The integrator after the steps of `ss`, from `i0`. */
  function Integrator(ss: seq<Sample>, i0: real): real
  {
    if |ss| == 0 then i0
    else
      var last := ss[|ss| - 1];
      Integrate(last.consigne, last.luminosity, Integrator(ss[..|ss| - 1], i0))
  }

  /** Setpoints within [0, a] and luminosities within [m, b]. */
  predicate Bounded(ss: seq<Sample>, a: real, m: real, b: real)
  {
    forall k :: 0 <= k < |ss| ==> 0.0 <= ss[k].consigne <= a && m <= ss[k].luminosity <= b
  }

  function Max(x: real, y: real): real { if x < y then y else x }
  function Min(x: real, y: real): real { if x < y then x else y }

  /** One step keeps the integrator within the band the anti-windup rule
      allows. An increment is taken only from below the saturation the
      proportional term leaves room for, and that term outweighs the
      setpoint's share of the increment. */
  lemma IntegrateInBand(c: real, lum: real, i: real, a: real, m: real, b: real, lo: real, hi: real)
    requires 0.0 <= c <= a && m <= lum <= b
    requires 255.0 - m / 200.0 <= hi && lo <= -0.795 * a - b / 200.0
    requires lo <= i <= hi
    ensures lo <= Integrate(c, lum, i) <= hi
  {
  }

  /** Anti-windup: however long the lamp stays too dark or too bright,
      with setpoints in [0, a] and luminosities in [m, b], the integrator
      stays between `-0.795 a - b / 200` and `255 - m / 200` (or where it
      started, if that is further out). With a luminosity that is never
      negative, it never goes past 255. */
  lemma {:induction false} WindupBounded(ss: seq<Sample>, i0: real, a: real, m: real, b: real)
    requires Bounded(ss, a, m, b)
    ensures var lo := Min(i0, -0.795 * a - b / 200.0);
      var hi := Max(i0, 255.0 - m / 200.0);
      lo <= Integrator(ss, i0) <= hi
  {
    if |ss| > 0 {
      var front := ss[..|ss| - 1];
      assert Bounded(front, a, m, b);
      WindupBounded(front, i0, a, m, b);
      var last := ss[|ss| - 1];
      IntegrateInBand(last.consigne, last.luminosity, Integrator(front, i0), a, m, b,
        Min(i0, -0.795 * a - b / 200.0), Max(i0, 255.0 - m / 200.0));
    }
  }

  /** `fLuminosity` from the two values `Wire.read()` returns: each is a
      byte, or -1 when the bus delivered fewer bytes than requested.
      `b0` is the operand multiplied by 256. C++ does not fix which of
      the two calls is evaluated first, so `b0` is whichever read lands
      in that operand. */
  function Luminosity(b0: int, b1: int): real
  {
    (b0 * 256 + b1) as real / 1.2 / 2.0
  }

  /** The lowest luminosity a short read can store. */
  const ShortReadLuminosity: real := -257.0 / 2.4

  /** The stored luminosity lies between the value of two empty reads and
      that of two 255 bytes; it is negative exactly when the operand
      multiplied by 256 is -1, or is 0 with the other -1. The range holds
      whichever read fills which operand. */
  lemma LuminosityRange(b0: int, b1: int)
    requires -1 <= b0 <= 255 && -1 <= b1 <= 255
    ensures ShortReadLuminosity <= Luminosity(b0, b1) <= 65535.0 / 2.4
    ensures Luminosity(b0, b1) < 0.0 <==> b0 == -1 || (b0 == 0 && b1 == -1)
  {
  }

  // ---------------------------------------------------------------------
  // Regulation, earlier version: a pure integrator on a 0 to 100 scale.

  /** The earlier integrator after one step: it always takes the
      increment `(c - lum) / 250`, so unlike `Integrate` it never freezes
      and moves whenever setpoint and luminosity differ, in the direction
      of the error. */
  function EarlyIntegrate(c: real, lum: real, i: real): (i': real)
    ensures i' > i <==> c > lum
    ensures i' < i <==> c < lum
  {
    i + (c - lum) / 250.0
  }

  /** The earlier `regulerLampe`: the output is the integrator clamped to
      [0, 100], the stored lamp power is that output, and the pin is
      written when the output's duty differs from the stored one's. */
  function EarlyRegulate(c: real, lum: real, i: real, lamp: real): (r: Regulation)
    ensures r.integ == EarlyIntegrate(c, lum, i)
    ensures 0.0 <= r.integ <= 100.0 ==> r.level == r.integ
    ensures r.integ > 100.0 ==> r.level == 100.0
    ensures r.integ < 0.0 ==> r.level == 0.0
    ensures 0.0 <= r.lamp <= 100.0 && r.lamp == r.level
    ensures r.duty.Some? <==> Round(r.level * 2.55) != Round(lamp * 2.55)
    ensures r.duty.Some? ==> r.duty.value == Round(r.level * 2.55) && 0 <= r.duty.value <= 255
  {
    var i' := EarlyIntegrate(c, lum, i);
    var l := Clamp(0.0 + i' + 0.0, 0.0, 100.0);
    RoundDuty(l * 2.55);
    var duty := if Round(l * 2.55) != Round(lamp * 2.55) then Some(Round(l * 2.55)) else None;
    Regulation(i', l, l, duty)
  }

  /** The earlier integrator after the steps of `ss`, from `i0`. */
  function EarlyIntegrator(ss: seq<Sample>, i0: real): real
  {
    if |ss| == 0 then i0
    else
      var last := ss[|ss| - 1];
      EarlyIntegrate(last.consigne, last.luminosity, EarlyIntegrator(ss[..|ss| - 1], i0))
  }

  /** Without anti-windup the earlier integrator grows without bound while
      the lamp stays too dark: by at least `e / 250` per step when the
      setpoint exceeds the luminosity by at least `e`. */
  lemma {:induction false} EarlyWindup(ss: seq<Sample>, i0: real, e: real)
    requires forall k :: 0 <= k < |ss| ==> ss[k].consigne - ss[k].luminosity >= e
    ensures EarlyIntegrator(ss, i0) >= i0 + (|ss| as real) * e / 250.0
  {
    if |ss| > 0 {
      var n := |ss| - 1;
      var front := ss[..n];
      assert forall k :: 0 <= k < |front| ==> front[k] == ss[k];
      EarlyWindup(front, i0, e);
      assert (n as real) * e / 250.0 + e / 250.0 == ((n + 1) as real) * e / 250.0;
    }
  }
}
