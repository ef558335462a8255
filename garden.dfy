/**
 * The application object of the current firmware, `App` of
 * `classApp.h`/`classApp.cpp`: the last lamp power, luminosity, setpoint,
 * humidity and temperature it keeps, the regulator's integrator (a
 * function-local static of `regulerLampe`), and the AM2302 decoder's state
 * (`Am2302.Receiver`). Inputs that the firmware reads from the platform
 * (the clock, the time of day, the luminosity sensor, the sensor's edges)
 * are parameters.
 */
module Garden {
  import opened Types
  import opened Am2302
  import opened Lamp
  import opened Schedule

  /** The caller's humidity and temperature after a reading with
      outcome `v`: the new values when it is valid, the old ones
      otherwise. */
  function Store(v: Reading, humidity: int, temperature: int): (r: (int, int))
    ensures v.Valid? ==> r == (v.humidity, v.temperature)
    ensures !v.Valid? ==> r == (humidity, temperature)
  {
    match v
    case Valid(h, t) => (h, t)
    case _ => (humidity, temperature)
  }

  class App {
    var lamp: real
    var luminosity: real
    var consigne: real
    var humidity: int
    var temperature: int
    /** The integrator of `regulerLampe`. */
    var integ: real
    /** `p`, `humid`, `temp`, `cs` and the edge handler's statics. */
    const sensor: Receiver

    /** The application is a global object: its members and the statics
        start at 0. */
    constructor ()
      ensures fresh(sensor)
      ensures lamp == 0.0 && luminosity == 0.0 && consigne == 0.0 && integ == 0.0
      ensures humidity == 0 && temperature == 0
      ensures sensor.State() == EdgeDecoder.Edges(0, 0, 0, 0, 0, 0)
    {
      lamp, luminosity, consigne, integ := 0.0, 0.0, 0.0, 0.0;
      humidity, temperature := 0, 0;
      sensor := new Receiver();
    }

    /** `calculerConsigne` at `hour`:`minute`, with `math.h`'s cosine. */
    method CalculerConsigne(hour: nat, minute: nat, cos: Cosine)
      modifies this
      ensures consigne == SetPoint(HourOfDay(hour, minute), Peak, Pi, cos)
      ensures lamp == old(lamp) && luminosity == old(luminosity) && integ == old(integ)
      ensures humidity == old(humidity) && temperature == old(temperature)
    {
      var hms := HourOfDay(hour, minute);
      var S := 6.0;
      var D := 14.0;
      var A := Peak;
      if hms < S || hms > S + D {
        consigne := 0.0;
      } else {
        var angle := (2.0 * Pi) * (hms - S) / D;
        assert angle == (2.0 * Pi) * (hms - 6.0) / 14.0;
        consigne := A * (1.0 - cos(angle)) / 2.0;
      }
    }

    /** `regulerLampe` with the luminosity `lum` read from the BH1750;
        returns the duty written to the lamp's pin, if one is. */
    method RegulerLampe(lum: real) returns (duty: Option<int>)
      modifies this
      ensures var r := Regulate(old(consigne), lum, old(integ), old(lamp));
        luminosity == lum && integ == r.integ && lamp == r.lamp && duty == r.duty
      ensures consigne == old(consigne) && humidity == old(humidity) && temperature == old(temperature)
    {
      luminosity := lum;
      var p := consigne * 0.8;
      var d := 0.0;
      var di := (consigne - luminosity) / 200.0;
      if (p + integ + d <= 255.0 && di > 0.0) || (p + integ + d >= 0.0 && di < 0.0) {
        integ := integ + di;
      }
      var l := Clamp(p + integ + d, 0.0, 255.0);
      if Round(l) != Round(lamp * 2.55) {
        duty := Some(Round(l));
      } else {
        duty := None;
      }
      lamp := l / 2.55;
    }

    /** `mesurerMeteo`: one reading of the AM2302 into `humidity` and
        `temperature`, with the edges that arrive during each poll. */
    method MesurerMeteo(bursts: seq<seq<u32>>) returns (rc: int)
      modifies this, sensor
      ensures sensor.State() == Acquire(old(sensor.State()), bursts)
      ensures rc == Code(Outcome(old(sensor.State()), bursts))
      ensures (humidity, temperature) == Store(Outcome(old(sensor.State()), bursts), old(humidity), old(temperature))
      ensures lamp == old(lamp) && luminosity == old(luminosity) && consigne == old(consigne) && integ == old(integ)
    {
      rc, humidity, temperature := sensor.ReadOnce(bursts, humidity, temperature);
    }

    /** `loop`: waits for an aligned clock reading `t`, then runs the turn
        `Plan(t)`. Returns `t`, the actions run, the duty written to the
        lamp and the reading's return code, if a reading was made. The
        report is I/O only and appears only in the actions. */
    method Loop(clock: seq<u32>, hour: nat, minute: nat, cos: Cosine, lum: real, bursts: seq<seq<u32>>)
      returns (t: u32, k: nat, acts: seq<Action>, duty: Option<int>, rc: Option<int>)
      requires exists n :: 0 <= n < |clock| && clock[n] % 250 == 0
      modifies this, sensor
      ensures k < |clock| && t == clock[k] && t % 250 == 0
      ensures forall j :: 0 <= j < k ==> clock[j] % 250 != 0
      ensures acts == Plan(t as nat)
      ensures consigne == SetPoint(HourOfDay(hour, minute), Peak, Pi, cos)
      ensures var r := Regulate(consigne, lum, old(integ), old(lamp));
        luminosity == lum && integ == r.integ && lamp == r.lamp && duty == r.duty
      ensures Measure in acts ==>
        && rc == Some(Code(Outcome(old(sensor.State()), bursts)))
        && sensor.State() == Acquire(old(sensor.State()), bursts)
        && (humidity, temperature) == Store(Outcome(old(sensor.State()), bursts), old(humidity), old(temperature))
      ensures Measure !in acts ==>
        rc == None && sensor.State() == old(sensor.State()) && humidity == old(humidity) && temperature == old(temperature)
    {
      t, k := WaitAligned(clock);
      rc := None;
      match (t / 250) % 4
      case 0 =>
        CalculerConsigne(hour, minute, cos);
        duty := RegulerLampe(lum);
        acts := [UpdateSetpoint, RegulateLamp];
        if t % 5000 == 0 {
          acts := acts + [Report];
        }
      case 1 =>
        CalculerConsigne(hour, minute, cos);
        duty := RegulerLampe(lum);
        acts := [UpdateSetpoint, RegulateLamp];
      case 2 =>
        CalculerConsigne(hour, minute, cos);
        duty := RegulerLampe(lum);
        acts := [UpdateSetpoint, RegulateLamp];
        if t % 2000 == 500 {
          var code := MesurerMeteo(bursts);
          rc := Some(code);
          acts := acts + [Measure];
        }
      case 3 =>
        CalculerConsigne(hour, minute, cos);
        duty := RegulerLampe(lum);
        acts := [UpdateSetpoint, RegulateLamp];
    }
  }
}
