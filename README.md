# Garden-V2 `App`: AM2302 decoder, lamp regulator and scheduler in Dafny

This project models the `App` class of the Garden-V2 Particle Photon
firmware and proves properties of it. The class drives a lamp from a
light sensor and reads an AM2302 (DHT22) humidity and temperature sensor.
Two versions are modelled:

- the current one, `Particle/classApp.h` and `Particle/classApp.cpp`;
- the earlier, single-file one, `Particle/app.h`.

What is modelled, module by module:

- `Types` (`types.dfy`): the Photon's fixed-width integers as `newtype`s
  `u8` and `u32` over `int`, with every wrap written out. It also holds
  two's-complement reading of a 32-bit pattern (`Signed32`), C's
  truncating division (`Quot`) and `Option`.
- `EdgeDecoder` (`edges.dfy`): the edge handler `interruptDataAM2302` as
  a function `Step` on its state. The state is the edge counter `p`, the
  accumulators `humid`, `temp`, `cs`, and the function-local statics
  `high` and `last`. `Run` folds `Step` over a sequence of edge
  timestamps. `WindowBits` and `Value` say, by edge number alone, which
  bits a sequence of edges carries and what number they make. The lemmas
  connect the fold to that reference definition. They also show that
  leftovers from an earlier acquisition and a common time shift do not
  change the decoded frame.
- `Am2302` (`am2302.dfy`): `readOnce`. The class `Receiver` holds the
  decoder's fields. It has the imperative `OnEdge` (the handler), `Hear`
  (the edges that arrive during one poll) and `ReadOnce` (reset, the
  polling loop, the timeout and checksum tests, and the outputs).
  Interrupts are modelled as an input: `bursts[i]` holds the timestamps of
  the edges that arrive during the `i`-th one-millisecond delay.
  `ReadOnce` is proved against the function `Outcome`, and the lemmas
  describe `Outcome`.
- `PulseTrain` (`pulses.dfy`): what the sensor sends. A 40-bit frame is
  encoded as 84 edge timestamps, for any timing where a 0 is shorter and
  a 1 longer than the low pulse. The round trip through the decoder and
  `readOnce` gives the frame back, accepted exactly when its checksum
  matches.
- `Lamp` (`lamp.dfy`): `calculerConsigne`'s setpoint curve (`SetPoint`),
  and `regulerLampe`'s step for both versions (`Regulate`,
  `EarlyRegulate`), over `real`. The cosine is any function bounded by
  -1 and 1. The lemmas cover the saturation bounds, the anti-windup band
  over any sequence of steps, and the earlier version's unbounded windup.
- `Schedule` (`schedule.dfy`): `loop`'s busy wait (`WaitAligned`) and its
  four 250 ms phases, as the list of actions each turn runs (`Plan`,
  `EarlyPlan`). The lemmas give the phase and the cadence of every action.
- `Garden` (`garden.dfy`) and `EarlyGarden` (`early_garden.dfy`): the
  application object of each version, as a class whose fields the methods
  update. Each method's contract ties the new state to the functions
  above.

The model follows the code in these places:

- The anti-windup test is on `p + i + d`, the output before the
  increment, with `d` the zero derivative term. The unclamped sum
  `0.8 fConsigne + i` can therefore end one increment past 255. The
  integrator itself cannot: the proportional term outweighs the
  setpoint's share of the increment. With a luminosity that is never
  negative, `Lamp.WindupBounded` keeps it at or below 255 (or its
  starting value).
- A short read from the light sensor still overwrites the luminosity
  with what `Wire.read()` returns, -1 for a missing byte. The stored
  luminosity can then be negative, down to -257 / 2.4, about -107.08
  (`Lamp.LuminosityRange`). With a negative luminosity `m`, each step
  can push the integrator up to `255 - m / 200`, and `Lamp.WindupBounded`
  states the band for luminosities in `[m, b]`. The model takes the
  luminosity as a parameter; `Lamp.Luminosity` is how the firmware
  computes it.
- The temperature is not decoded as sign and magnitude. `temp` is a C
  `int`, kept as its 32-bit pattern and read as two's complement. A
  complete frame fills only 16 bits, so it is always below 65536 and
  non-negative.
- Humidity and temperature are returned as integer tenths. The
  firmware's division by `10.0` is not modelled.
- The edge counter `p` is a byte. With 256 or more edges in the
  listening window, it wraps and the outcome is a timeout or a
  misdecoded frame. The decoding lemmas therefore hold for fewer than 256
  edges.
- `millis()` is an `unsigned long` and wraps to 0 after 2^32 ms (about
  49.7 days). The clock readings are `u32`. At the wrap, the report and
  reading cadence and the phase order break (`Schedule.WrapGaps`).

The model assumes that the application object has static storage. Its
members, the decoder's fields and the function-local statics therefore
start at 0. The constructor in the source (classApp.cpp:154-156) sets
only the BH1750 address, and the sketch that creates the object is not
part of this model.

## Model

| member | source | states |
|---|---|---|
| Types.Signed32 | Particle/classApp.h:159 | the value of the `int` `temp` lies in the 32-bit signed range and agrees with its bit pattern modulo 2^32 |
| EdgeDecoder.Interval | Particle/classApp.h:114-115 | definition: the interval since the previous edge, `front - last` as an unsigned 32-bit difference |
| EdgeDecoder.Step | Particle/classApp.h:109-131 | each edge advances `p` by one modulo 256 and becomes `last`. An even edge stores the interval since the previous edge in `high` and changes no accumulator. An odd edge in (4,36), (36,68) or (68,84) shifts the bit `high > low` into `humid`, `temp` or `cs` and leaves the other two alone. Edges 0 to 4 and from 84 on change no accumulator |
| EdgeDecoder.Run | Particle/classApp.h:129 | after `n` edges the counter has moved by `n` modulo 256, and `last` is the last edge seen |
| EdgeDecoder.RunAppend | Particle/classApp.h:109-131 | handling two runs of edges one after the other is handling their concatenation |
| EdgeDecoder.WindowBitAt | Particle/classApp.h:117-125 | the `i`-th bit of a window is the bit carried by odd edge `lo + 1 + 2i` |
| EdgeDecoder.RunDecodes | Particle/classApp.h:117-128 | from a cleared counter and cleared accumulators, after up to 256 edges, each accumulator is the most-significant-first value of the bits its window's odd edges carry; `last` is the last edge, and after an odd number of edges `high` is the last interval |
| EdgeDecoder.FullFrame | Particle/classApp.h:119-125 | 84 to 255 edges shift exactly 16 bits into `humid`, 16 into `temp` and 8 into `cs`, so `humid` and `temp` are below 65536 and the counter equals the number of edges |
| EdgeDecoder.FirstThree | Particle/classApp.h:117-128 | the first three edges of an acquisition touch no accumulator; afterwards `high` and `last` depend only on those edges |
| EdgeDecoder.LeftoverForgotten | Particle/classApp.h:111-128 | the state after three or more edges does not depend on the `high` and `last` left by an earlier acquisition |
| EdgeDecoder.IntervalShift | Particle/classApp.h:114-116 | moving two edges by the same number of ticks leaves the unsigned interval between them unchanged, even across a wrap of the tick counter |
| EdgeDecoder.RunShift | Particle/classApp.h:114-116 | moving every edge and the previous `last` by the same amount changes nothing in the state but `last` |
| EdgeDecoder.ShiftedFrame | Particle/classApp.h:114-125 | a time-shifted acquisition decodes the same `p`, `humid`, `temp`, `cs` and `high` |
| Am2302.Verdict | Particle/classApp.cpp:144-151 | definition: a timeout below 84 edges, a wrong checksum when the checksum of `humid` and `temp` differs from `cs`, otherwise the reading |
| Am2302.Polls | Particle/classApp.cpp:140-142 | definition: the number of polls the wait loop runs from a given counter and poll number |
| Am2302.Acquire | Particle/classApp.cpp:123-143 | definition: the decoder's state after the reset and the polls the loop runs |
| Am2302.Outcome | Particle/classApp.cpp:122-152 | definition: the verdict on the state `Acquire` reaches |
| Am2302.Checksum | Particle/classApp.cpp:148 | the checksum `readOnce` expects is a byte |
| Am2302.Code | Particle/classApp.h:76 | the return code is 0 exactly for a valid reading, -1 exactly for a timeout and -2 exactly for a wrong checksum |
| Am2302.PollsAtMostTen | Particle/classApp.cpp:140-142 | the wait loop polls at most ten times |
| Am2302.PolledBelow84 | Particle/classApp.cpp:140 | every poll the loop runs starts with fewer than 84 edges counted |
| Am2302.StoppedEarly | Particle/classApp.cpp:140-142 | a loop that stops before its tenth poll has counted at least 84 edges |
| Am2302.OnePoll | Particle/classApp.cpp:140-142 | a first burst of 84 to 255 edges ends the loop after one poll, having heard exactly that burst |
| Am2302.PollsUntil | Particle/classApp.cpp:140-142 | when the edges heard first reach 84 (below 256) during poll `k - 1`, exactly `k - j` polls remain from poll `j` |
| Am2302.ReachedAt | Particle/classApp.cpp:140-143 | edges that first reach 84 during poll `k - 1` end the loop after exactly `k` polls, in the state of the edges those polls heard |
| Am2302.PollsByLength | Particle/classApp.cpp:140-141 | the number of polls depends only on how many edges arrive in each poll |
| Am2302.ShortTimeout | Particle/classApp.cpp:144-146 | fewer than 84 edges heard is a timeout |
| Am2302.FewEdgesTimeout | Particle/classApp.cpp:140-146 | fewer than 84 edges in all ten polls is a timeout |
| Am2302.AcquireDecodes | Particle/classApp.cpp:144-151 | 84 to 255 edges heard give the values their timing carries, accepted exactly when the checksum of humidity and temperature equals the checksum byte |
| Am2302.SameVerdict | Particle/classApp.cpp:144-151 | the verdict reads only the counter and the accumulators |
| Am2302.OutcomeForgetsLeftover | Particle/classApp.h:111-112 | the outcome of `readOnce` does not depend on the `high` and `last` left by the previous acquisition |
| Am2302.OutcomeShiftInvariant | Particle/classApp.h:114-116 | when every edge arrives `c` ticks later, wrapping or not, `readOnce` reaches the same outcome |
| Am2302.PollStep | Particle/classApp.cpp:140-142 | one turn of the wait loop extends the edges heard by that poll's burst and uses up one remaining poll |
| Am2302.WaitEnded | Particle/classApp.cpp:140-143 | when the loop condition fails, the state reached is the one `Acquire` describes |
| Am2302.Receiver.constructor | Particle/classApp.h:111-112 | the statics and the object's members start at 0 |
| Am2302.Receiver.OnEdge | Particle/classApp.h:109-131 | the handler's new state is `Step` of the old one |
| Am2302.Receiver.Hear | Particle/classApp.cpp:141 | the edges of one poll are handled in order: the new state is `Run` of the old one over them |
| Am2302.Receiver.ReadOnce | Particle/classApp.cpp:122-152 | resets, polls and leaves the decoder in the state `Acquire` gives; returns `Code(Outcome)`; outputs are the decoded values when the code is 0 and the caller's values otherwise |
| PulseTrain.ToBits | Particle/classApp.h:120 | a number as `len` binary digits, most significant first, whose value is that number |
| PulseTrain.MeasuredExactly | Particle/classApp.h:114-115 | a pulse shorter than the tick counter's period is measured as its length, across a wrap too |
| PulseTrain.TrainWidth | Particle/classApp.h:114-116 | every pulse of a transmitted frame is measured as its width |
| PulseTrain.TrainBit | Particle/classApp.h:117-128 | odd edge `5 + 2k` of the train decodes bit `k` of the frame |
| PulseTrain.TrainWindow | Particle/classApp.h:117-125 | a window of the train carries the frame's bits from the matching offset |
| PulseTrain.TrainWindows | Particle/classApp.h:117-125 | the humidity, temperature and checksum windows carry bits 0-15, 16-31 and 32-39 of the frame |
| PulseTrain.FrameParts | Particle/classApp.h:119-124 | the three parts of an encoded frame have the values encoded |
| PulseTrain.DecodeTransmitted | Particle/classApp.h:109-131 | round trip: the decoder recovers humidity, temperature and checksum from the train that sends them, for any leftover `high` and `last` and any start tick |
| PulseTrain.AcquireTransmitted | Particle/classApp.cpp:122-152 | a train that arrives spread over the first `k` polls, completed by the last of them, yields `Valid(h, t)` when its checksum byte matches and `BadChecksum` otherwise |
| PulseTrain.SplitArrival | Particle/classApp.cpp:140-141 | a train split between two polls at any edge arrives that way |
| PulseTrain.ValidFrameExample | Particle/classApp.cpp:148-151 | 0x0258, 0x00C8 with checksum 0x22, however spread over the polls, is read as 60.0 % and 20.0 degrees |
| PulseTrain.CorruptFrameExample | Particle/classApp.cpp:148 | the same frame with checksum 0x23 is refused |
| Lamp.Clamp | Particle/classApp.cpp:58 | `constrain` returns a value within the bounds, `x` itself when inside, and the crossed bound otherwise |
| Lamp.Round | Particle/classApp.cpp:60 | C `round`: the nearest integer, halves away from zero |
| Lamp.RoundDuty | Particle/classApp.cpp:60 | an output in [0, 255] rounds to a duty in [0, 255] |
| Lamp.HourOfDay | Particle/classApp.cpp:27 | definition: `Time.hour() + Time.minute() / 60.0` |
| Lamp.SetPoint | Particle/classApp.cpp:25-38 | the setpoint is 0 outside the lit window and between 0 and the peak inside it |
| Lamp.RaisedCosine | Particle/classApp.cpp:36 | `A (1 - cos) / 2` lies in [0, A] |
| Lamp.LitWindow | Particle/classApp.cpp:27-33 | on whole minutes the lamp is lit exactly from 6:00 to 20:00, both included |
| Lamp.SetPointPeak | Particle/classApp.cpp:36 | inside the window the setpoint reaches the peak exactly when the cosine is -1 |
| Lamp.EarlySetPointScaled | Particle/app.h:303-314 | the earlier setpoint, with the same cosine and pi, is 1.5 times the current one |
| Lamp.Proportional | Particle/classApp.cpp:51 | definition: `0.8 fConsigne`, without the luminosity |
| Lamp.Increment | Particle/classApp.cpp:53 | definition: `(fConsigne - fLuminosity) / 200` |
| Lamp.Integrate | Particle/classApp.cpp:51-56 | the integrator either stays or moves by exactly `(consigne - lum) / 200`, and it moves exactly when `0.8 consigne + i <= 255` with a positive error or `>= 0` with a negative error |
| Lamp.Regulate | Particle/classApp.cpp:51-61 | the output level is `0.8 consigne` plus the new integrator, clamped to [0, 255]: that sum when inside, 255 above and 0 below; it lies in [0, 255] and the stored lamp power in [0, 100] with `lamp * 2.55 == level`; the pin is written exactly when the rounded level differs from the rounded previous duty, and then with a duty in [0, 255] |
| Lamp.SteadyLevelSilent | Particle/classApp.cpp:60-61 | a step that reproduces the previous output level writes nothing to the pin |
| Lamp.SaturatedFrozen | Particle/classApp.cpp:53-58 | when the output is saturated in the direction of the error, the integrator is frozen and the output stays at its bound |
| Lamp.IntegrateInBand | Particle/classApp.cpp:53-56 | one step keeps the integrator inside the anti-windup band |
| Lamp.WindupBounded | Particle/classApp.cpp:41-56 | over any sequence of setpoints in [0, a] and luminosities in [m, b], the integrator stays between `-0.795 a - b/200` and `255 - m/200`, or within its starting value if that is further out; with `m = 0` it never passes 255 |
| Lamp.Luminosity | Particle/classApp.cpp:49 | definition: `(b0 * 256 + b1) / 1.2 / 2` of the two values read |
| Lamp.LuminosityRange | Particle/classApp.cpp:43-49 | with each read a byte or -1 (missing), the luminosity lies in [-257/2.4, 65535/2.4], and it is negative exactly when the operand multiplied by 256 is -1, or is 0 with the other operand -1 |
| Lamp.EarlyIntegrate | Particle/app.h:132 | the earlier integrator never freezes: it rises exactly when the setpoint exceeds the luminosity and falls exactly when it is below |
| Lamp.EarlyRegulate | Particle/app.h:120-139 | the earlier output is the new integrator clamped to [0, 100]: the integrator when inside, 100 above and 0 below; the stored power equals the output; the pin is written exactly when `round(l * 2.55)` differs from `round(fLamp * 2.55)`, with a duty in [0, 255] |
| Lamp.EarlyWindup | Particle/app.h:121-135 | without anti-windup, a persistent error of at least `e` makes the integrator grow by at least `e / 250` per step, without bound |
| Schedule.Plan | Particle/classApp.cpp:177-201 | definition: the actions of the turn at `t` in each phase, in order |
| Schedule.EarlyPlan | Particle/app.h:238-317 | definition: the actions of the earlier turn at `t` in each phase, in order |
| Schedule.Phase | Particle/classApp.cpp:177 | the phase is one of four |
| Schedule.ReportPhase | Particle/classApp.cpp:177-184 | a multiple of 5000 ms falls in phase 0 |
| Schedule.MeasurePhase | Particle/classApp.cpp:190-194 | 500 ms past a multiple of 2000 ms falls in phase 2 |
| Schedule.MinutePhase | Particle/app.h:300-303 | 750 ms past a whole minute falls in phase 3 |
| Schedule.AlwaysRegulates | Particle/classApp.cpp:177-201 | every turn starts by recomputing the setpoint and then regulating |
| Schedule.Cadence | Particle/classApp.cpp:182-194 | the report runs exactly when `t % 5000 == 0`, always in phase 0; the reading runs exactly when `t % 2000 == 500`, always in phase 2 |
| Schedule.Exclusive | Particle/classApp.cpp:177-201 | the report and the reading never share a turn, in either version |
| Schedule.NoRepeat | Particle/classApp.cpp:177-201 | no action runs twice in one turn, in either version |
| Schedule.EarlyCadence | Particle/app.h:238-317 | the earlier loop regulates first in every turn, reports and reads on the same cadence, and recomputes the setpoint exactly when `t % 60000 == 750`, always in phase 3 |
| Schedule.EarlyDiffers | Particle/app.h:238-317 | the earlier turn is the current one without the leading setpoint computation, except in phase 3 where it recomputes the setpoint once a minute |
| Schedule.NextPhase | Particle/classApp.cpp:175-177 | the aligned time 250 ms later is in the next phase |
| Schedule.Spacing | Particle/classApp.cpp:182-193 | two reports are at least 5 s apart and two readings at least 2 s apart |
| Schedule.Since | Particle/classApp.cpp:174-175 | the milliseconds between two `unsigned long` readings: their difference, plus 2^32 when the later one has wrapped |
| Schedule.WrapGaps | Particle/classApp.cpp:174-194 | at the wrap of `millis()`, the report at 4294965000 is followed by the next at 0 after 2296 ms, the reading at 4294966500 by the next at 500 after 1296 ms, and the phase-1 turn at 4294967250 by the phase-0 turn at 0 after 46 ms |
| Schedule.WaitAligned | Particle/classApp.cpp:175 | returns the first clock reading that is a multiple of 250 ms |
| Garden.App.constructor | Particle/classApp.cpp:154-156 | the object's members, the integrator and the decoder's state start at 0, for an object with static storage |
| Garden.App.CalculerConsigne | Particle/classApp.cpp:25-38 | the setpoint becomes `SetPoint` of the time of day with peak 1000 and `M_PI`; nothing else changes |
| Garden.App.RegulerLampe | Particle/classApp.cpp:40-62 | the luminosity, integrator, lamp power and duty become those of `Regulate`; setpoint and sensor values unchanged |
| Garden.App.MesurerMeteo | Particle/classApp.cpp:110-120 | one `readOnce` into `fHumidity` and `fTemperature`, which change only on a valid reading |
| Garden.App.Loop | Particle/classApp.cpp:173-202 | waits for the first clock reading `t` that is a multiple of 250 (returned with its index `k`), runs `Plan(t)`, recomputes the setpoint and regulates with it, and reads the sensor exactly in the turns that list the reading |
| EarlyGarden.EarlyApp.constructor | Particle/app.h:193-195 | the object's members, the integrator and the statics start at 0, for an object with static storage |
| EarlyGarden.EarlyApp.RegulerLampe | Particle/app.h:120-139 | the luminosity, integrator, lamp power and duty become those of `EarlyRegulate` |
| EarlyGarden.EarlyApp.RecomputeSetpoint | Particle/app.h:303-315 | the setpoint becomes `SetPoint` with peak 1500 and pi written as 3.141592654 |
| EarlyGarden.EarlyApp.ReadSensor | Particle/app.h:156-186 | one `readOnce` into humidity and temperature, which change only on a valid reading |
| EarlyGarden.EarlyApp.Loop | Particle/app.h:234-319 | waits for the first clock reading `t` that is a multiple of 250 (returned with its index `k`), runs `EarlyPlan(t)`, regulates with the setpoint it had, recomputes the setpoint only once a minute, and reads the sensor exactly in the turns that list the reading |

## Left out

- `envoyerLog` and the inline report of the earlier `loop`: HTTP and JSON I/O. The report appears only as the `Report` action of a turn.
- `Particle.publish` error messages in `mesurerMeteo` and the earlier `loop`: I/O. The return code they are chosen from is modelled.
- `setup` and the BH1750 I2C transactions: platform calls.
- The I2C read of the luminosity: a library call. Its conversion is `Lamp.Luminosity`, and `RegulerLampe` takes the luminosity as a parameter.
- Lamp.Luminosity: C++ leaves unspecified which of the two `Wire.read()` calls in `Wire.read() * 256 + Wire.read()` runs first; the model takes the left call as the high byte `b0`. `LuminosityRange`'s bounds hold in either order, but after a one-byte short read its sign depends on that order.
- Pin writes, `delay`, `delayMicroseconds`, `attachInterrupt` and `detachInterrupt`: hardware timing. The edges are an input, split into the bursts that arrive during each poll and handled before the loop tests `p` again. Interrupts that arrive in the middle of the loop's test are not modelled.
- The clock, the time of day and the sensor's edges are parameters; `millis()` is the sequence of readings `WaitAligned` scans.
- The earlier version's polynomial `cos` with its angle-wrapping loops, and `math.h`'s `cos`: floating-point numerics. The cosine is any function bounded by -1 and 1.
- `float` and `double` rounding: the regulator and setpoint are computed over `real`. Sensor values are integer tenths rather than `humid / 10.0`.
- The BH1750 address and mode enums, and the constructor's address choice: constants that the model never uses.
- `setConsigne` and the `consigne` accessors of the earlier version: one-line field assignments that nothing in the modelled core calls.
- PulseTrain.Transmit: models one frame with fixed pulse lengths per kind of pulse, not jitter from pulse to pulse.
- Schedule.Spacing: states the spacing between readings of the clock, not the elapsed time across the 2^32 ms wrap of `millis()`. At the wrap the gaps are 2296 ms and 1296 ms (`Schedule.WrapGaps`).
- Schedule.NextPhase: holds while `t + 250` does not wrap. The turn at 4294967250 (phase 1) is followed by the one at 0 (phase 0), as `Schedule.WrapGaps` states.
- EdgeDecoder.RunDecodes: holds for at most 256 edges; past that the byte counter wraps back into the windows and the accumulators take further bits.
