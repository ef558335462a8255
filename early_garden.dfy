/**
 * The application object of the earlier firmware, `App` of `app.h`: the
 * same members as the current one, with the decoder's `p`, `humid`, `temp`
 * and `cs` as static members (`Am2302.Receiver` again), a regulator that
 * only integrates, and a `loop` that recomputes the setpoint itself, once
 * a minute.
 */
module EarlyGarden {
  import opened Types
  import opened Am2302
  import opened Lamp
  import opened Schedule
  import Garden

  class EarlyApp {
    var lamp: real
    var luminosity: real
    var consigne: real
    var humidity: int
    var temperature: int
    /** The integrator of `regulerLampe`. */
    var integ: real
    /** The static members `p`, `humid`, `temp`, `cs` and the edge
        handler's statics. */
    const sensor: Receiver

    /** The application is a global object: its members and the statics
        start at 0. */
    constructor ()
      ensures fresh(sensor)
      ensures lamp == 0.0 && luminosity == 0.0 && consigne == 0.0 && integ == 0.0
      ensures humidity == 0 && temperature == 0
      ensures sensor.State() == EdgeDecoder.Edges(0, 0, 0, 0, 0, 0)
    {
      lamp, luminosity, consigne, integ := 0.0, 0.0, 0.0, 0.0;
      humidity, temperature := 0, 0;
      sensor := new Receiver();
    }

    /** The earlier `regulerLampe` with the luminosity `lum` read from the
        BH1750; returns the duty written to the lamp's pin, if one is. */
    method RegulerLampe(lum: real) returns (duty: Option<int>)
      modifies this
      ensures var r := EarlyRegulate(old(consigne), lum, old(integ), old(lamp));
        luminosity == lum && integ == r.integ && lamp == r.lamp && duty == r.duty
      ensures consigne == old(consigne) && humidity == old(humidity) && temperature == old(temperature)
    {
      luminosity := lum;
      var p := 0.0;
      integ := integ + (consigne - luminosity) / 250.0;
      var d := 0.0;
      var l := Clamp(p + integ + d, 0.0, 100.0);
      if Round(l * 2.55) != Round(lamp * 2.55) {
        duty := Some(Round(l * 2.55));
      } else {
        duty := None;
      }
      lamp := l;
    }

    /** The setpoint computation the earlier `loop` runs inline at
        `hour`:`minute`, with the firmware's own cosine. */
    method RecomputeSetpoint(hour: nat, minute: nat, cos: Cosine)
      modifies this
      ensures consigne == SetPoint(HourOfDay(hour, minute), EarlyPeak, EarlyPi, cos)
      ensures lamp == old(lamp) && luminosity == old(luminosity) && integ == old(integ)
      ensures humidity == old(humidity) && temperature == old(temperature)
    {
      var hms := HourOfDay(hour, minute);
      var S := 6.0;
      var D := 14.0;
      var A := EarlyPeak;
      if hms < S || hms > S + D {
        consigne := 0.0;
      } else {
        var angle := (2.0 * EarlyPi) * (hms - S) / D;
        assert angle == (2.0 * EarlyPi) * (hms - 6.0) / 14.0;
        consigne := A * (1.0 - cos(angle)) / 2.0;
      }
    }

    /** The reading the earlier `loop` runs inline: `readOnce` into
        `humidity` and `temperature`, with the edges that arrive during
        each poll. */
    method ReadSensor(bursts: seq<seq<u32>>) returns (rc: int)
      modifies this, sensor
      ensures sensor.State() == Acquire(old(sensor.State()), bursts)
      ensures rc == Code(Outcome(old(sensor.State()), bursts))
      ensures (humidity, temperature) == Garden.Store(Outcome(old(sensor.State()), bursts), old(humidity), old(temperature))
      ensures lamp == old(lamp) && luminosity == old(luminosity) && consigne == old(consigne) && integ == old(integ)
    {
      rc, humidity, temperature := sensor.ReadOnce(bursts, humidity, temperature);
    }

    /** The earlier `loop`: waits for an aligned clock reading `t`, then
        runs the turn `EarlyPlan(t)`, reading the AM2302 in phase 2 every
        2 seconds and recomputing the setpoint (peak 1500, with the
        firmware's own cosine) in phase 3 once a minute. */
    method Loop(clock: seq<u32>, hour: nat, minute: nat, cos: Cosine, lum: real, bursts: seq<seq<u32>>)
      returns (t: u32, k: nat, acts: seq<Action>, duty: Option<int>, rc: Option<int>)
      requires exists n :: 0 <= n < |clock| && clock[n] % 250 == 0
      modifies this, sensor
      ensures k < |clock| && t == clock[k] && t % 250 == 0
      ensures forall j :: 0 <= j < k ==> clock[j] % 250 != 0
      ensures acts == EarlyPlan(t as nat)
      ensures var r := EarlyRegulate(old(consigne), lum, old(integ), old(lamp));
        luminosity == lum && integ == r.integ && lamp == r.lamp && duty == r.duty
      ensures consigne == if UpdateSetpoint in acts
        then SetPoint(HourOfDay(hour, minute), EarlyPeak, EarlyPi, cos) else old(consigne)
      ensures Measure in acts ==>
        && rc == Some(Code(Outcome(old(sensor.State()), bursts)))
        && sensor.State() == Acquire(old(sensor.State()), bursts)
        && (humidity, temperature) == Garden.Store(Outcome(old(sensor.State()), bursts), old(humidity), old(temperature))
      ensures Measure !in acts ==>
        rc == None && sensor.State() == old(sensor.State()) && humidity == old(humidity) && temperature == old(temperature)
    {
      t, k := WaitAligned(clock);
      rc := None;
      match (t / 250) % 4
      case 0 =>
        duty := RegulerLampe(lum);
        acts := [RegulateLamp];
        if t % 5000 == 0 {
          acts := acts + [Report];
        }
      case 1 =>
        duty := RegulerLampe(lum);
        acts := [RegulateLamp];
      case 2 =>
        duty := RegulerLampe(lum);
        acts := [RegulateLamp];
        if t % 2000 == 500 {
          var code := ReadSensor(bursts);
          rc := Some(code);
          acts := acts + [Measure];
        }
      case 3 =>
        duty := RegulerLampe(lum);
        acts := [RegulateLamp];
        if t % 60000 == 750 {
          RecomputeSetpoint(hour, minute, cos);
          acts := acts + [UpdateSetpoint];
        }
    }
  }
}
