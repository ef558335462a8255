/**
 * One acquisition of the AM2302 (DHT22) humidity and temperature sensor:
 * `readOnce` clears the decoder's counter and accumulators, listens for at
 * most ten polls of one millisecond while the edge handler runs, and then
 * judges what it received (too few edges, a wrong checksum, or a reading).
 *
 * The edges arrive asynchronously. Here they are an input: `bursts[i]` is
 * the sequence of edge timestamps that arrive during the `i`-th one
 * millisecond delay of the wait loop, handled in order before the loop
 * tests the counter again. A poll without a burst hears nothing.
 */
module Am2302 {
  import opened Types
  import opened EdgeDecoder

  // ---------------------------------------------------------------------
  // The verdict on the decoder's state after listening.

  /** The checksum `readOnce` expects: the low byte of the sum of the two
      low bytes (`x & 0xff`) and the two high parts (`x / 0x100`) of the
      unsigned `humid` and the signed `temp`, with C's truncating division. */
  function Checksum(humid: int, temp: int): (c: int)
    ensures 0 <= c < 0x100
  {
    (humid % 0x100 + humid / 0x100 + temp % 0x100 + Quot(temp, 0x100)) % 0x100
  }

  /** What one acquisition yields. Humidity and temperature are in tenths
      (of a percent, of a degree): `readOnce` divides both by 10. */
  datatype Reading = Timeout | BadChecksum | Valid(humidity: int, temperature: int)

  /** The outcome of an acquisition that left the decoder in state `s`. */
  function Verdict(s: Edges): Reading
  {
    if s.p < 84 then Timeout
    else if Checksum(s.humid as int, Signed32(s.temp)) != s.cs as int then BadChecksum
    else Valid(s.humid as int, Signed32(s.temp))
  }

  /** The value `readOnce` returns for each outcome. */
  function Code(v: Reading): (rc: int)
    ensures rc == 0 <==> v.Valid?
    ensures rc == -1 <==> v == Timeout
    ensures rc == -2 <==> v == BadChecksum
  {
    match v
    case Timeout => -1
    case BadChecksum => -2
    case Valid(_, _) => 0
  }

  // ---------------------------------------------------------------------
  // Listening: how many polls run, and which edges they hear.

  /** The edges that arrive during poll `i` (none past the last burst). */
  function Burst(bursts: seq<seq<u32>>, i: nat): seq<u32>
  {
    if i < |bursts| then bursts[i] else []
  }

  /** The edges heard during the `n` polls starting with poll `i`. */
  function Heard(bursts: seq<seq<u32>>, i: nat, n: nat): seq<u32>
    decreases n
  {
    if n == 0 then [] else Heard(bursts, i, n - 1) + Burst(bursts, i + n - 1)
  }

  /** The number of one millisecond delays the wait loop executes when it
      reaches poll `i` with the counter at `p`: it goes on while fewer than
      ten polls ran and fewer than 84 edges were counted, and each delay
      advances the byte counter by the number of edges it hears. */
  function Polls(p: int, bursts: seq<seq<u32>>, i: nat): nat
    decreases if i <= 10 then 10 - i else 0
  {
    if i < 10 && p < 84 then 1 + Polls((p + |Burst(bursts, i)|) % 0x100, bursts, i + 1)
    else 0
  }

  /** The decoder's state at the end of the wait loop, from state `s0`
      before `readOnce`. */
  function Acquire(s0: Edges, bursts: seq<seq<u32>>): Edges
  {
    Run(Reset(s0), Heard(bursts, 0, Polls(0, bursts, 0)))
  }

  /** The outcome of one `readOnce`. */
  function Outcome(s0: Edges, bursts: seq<seq<u32>>): Reading
  {
    Verdict(Acquire(s0, bursts))
  }

  /** The edges of `n` polls from poll `i` are those of poll `i`
      followed by those of the next `m = n - 1` polls. `n` is passed
      beside `m` so that the solver sees both terms `Heard(_, _, n)` and
      `Heard(_, _, m)` as written at the call sites. */
  lemma {:induction false} HeardCons(bursts: seq<seq<u32>>, i: nat, n: nat, m: nat)
    requires n == m + 1
    ensures |Heard(bursts, i, n)| == |Burst(bursts, i)| + |Heard(bursts, i + 1, m)|
    decreases m
  {
    if m > 0 {
      HeardCons(bursts, i, n - 1, m - 1);
      HeardLast(bursts, i, n, m, i + m);
      HeardLast(bursts, i + 1, m, m - 1, i + m);
    }
  }

  /** The edges of `n = m + 1` polls from poll `i` end with those of poll
      `j = i + m`. `n` and `j` are passed beside `m` so that the solver
      sees the exact terms the callers use. */
  lemma HeardLast(bursts: seq<seq<u32>>, i: nat, n: nat, m: nat, j: nat)
    requires n == m + 1 && j == i + m
    ensures |Heard(bursts, i, n)| == |Heard(bursts, i, m)| + |Burst(bursts, j)|
  {
  }

  /** Adding to a value already reduced modulo 256. */
  lemma AddMod(a: int, b: int)
    ensures (a % 0x100 + b) % 0x100 == (a + b) % 0x100
  {
    assert a == 0x100 * (a / 0x100) + a % 0x100;
  }

  /** Counting `h = b + x` edges from `p` is counting `x` edges from where
      `b` edges left the byte counter. `h` is passed beside `b` and `x`
      so that the solver sees the caller's own length term. */
  lemma ModShift(p: int, b: int, x: int, h: int)
    requires h == b + x
    ensures (p + h) % 0x100 == ((p + b) % 0x100 + x) % 0x100
  {
    AddMod(p + b, x);
  }

  /** The wait loop polls at most ten times. */
  lemma {:induction false} PollsAtMostTen(p: int, bursts: seq<seq<u32>>, i: nat)
    requires i <= 10
    ensures i + Polls(p, bursts, i) <= 10
    decreases 10 - i
  {
    if i < 10 && p < 84 {
      PollsAtMostTen((p + |Burst(bursts, i)|) % 0x100, bursts, i + 1);
    }
  }

  /** Before every poll the loop ran, fewer than 84 edges (modulo 256)
      had been counted. */
  lemma {:induction false} PolledBelow84(p: int, bursts: seq<seq<u32>>, i: nat, k: nat)
    requires 0 <= p < 0x100 && k < Polls(p, bursts, i)
    ensures (p + |Heard(bursts, i, k)|) % 0x100 < 84
    decreases k
  {
    if k > 0 {
      var b := |Burst(bursts, i)|;
      var q := (p + b) % 0x100;
      PollUnfold(p, q, bursts, i);
      PolledBelow84(q, bursts, i + 1, k - 1);
      HeardCons(bursts, i, k, k - 1);
      ModShift(p, b, |Heard(bursts, i + 1, k - 1)|, |Heard(bursts, i, k)|);
    }
  }

  /** A loop that stopped before its tenth poll had counted 84 edges
      (modulo 256). */
  lemma {:induction false} StoppedEarly(p: int, bursts: seq<seq<u32>>, i: nat)
    requires 0 <= p < 0x100 && i + Polls(p, bursts, i) < 10
    ensures (p + |Heard(bursts, i, Polls(p, bursts, i))|) % 0x100 >= 84
    decreases 10 - i
  {
    if i < 10 && p < 84 {
      var b := |Burst(bursts, i)|;
      var q := (p + b) % 0x100;
      StoppedEarly(q, bursts, i + 1);
      HeardCons(bursts, i, Polls(p, bursts, i), Polls(q, bursts, i + 1));
      ModShift(p, b, |Heard(bursts, i + 1, Polls(q, bursts, i + 1))|, |Heard(bursts, i, Polls(p, bursts, i))|);
    }
  }

  /** The edges heard by the first `n` polls are a prefix of all the edges
      that arrive in ten polls. */
  lemma {:induction false} HeardPrefix(bursts: seq<seq<u32>>, n: nat, m: nat)
    requires n <= m
    ensures |Heard(bursts, 0, n)| <= |Heard(bursts, 0, m)|
    decreases m
  {
    if n < m {
      HeardPrefix(bursts, n, m - 1);
    }
  }

  /** Fewer than 84 edges in the whole listening window is a timeout. */
  lemma FewEdgesTimeout(s0: Edges, bursts: seq<seq<u32>>)
    requires |Heard(bursts, 0, 10)| < 84
    ensures Outcome(s0, bursts) == Timeout
  {
    PollsAtMostTen(0, bursts, 0);
    HeardPrefix(bursts, Polls(0, bursts, 0), 10);
    ShortTimeout(s0, bursts);
  }

  /** Between 84 and 255 edges heard: the outcome is the reading carried
      by the edges' timing, accepted exactly when its checksum matches the
      checksum byte the edges carry. */
  lemma AcquireDecodes(s0: Edges, bursts: seq<seq<u32>>)
    requires var heard := Heard(bursts, 0, Polls(0, bursts, 0)); 84 <= |heard| < 0x100
    ensures var heard := Heard(bursts, 0, Polls(0, bursts, 0));
      var h := Value(HumidBits(heard));
      var t := Value(TempBits(heard));
      Outcome(s0, bursts) == if Checksum(h, t) == Value(SumBits(heard)) then Valid(h, t) else BadChecksum
  {
    var heard := Heard(bursts, 0, Polls(0, bursts, 0));
    var r := Acquire(s0, bursts);
    FullFrame(Reset(s0), heard);
    assert Signed32(r.temp) == r.temp as int;
  }

  /** A first burst of 84 to 255 edges ends the wait loop after one poll. */
  lemma OnePoll(bursts: seq<seq<u32>>)
    requires |bursts| >= 1 && 84 <= |bursts[0]| < 0x100
    ensures Polls(0, bursts, 0) == 1 && Heard(bursts, 0, 1) == bursts[0]
  {
    SmallMod(|bursts[0]|);
    assert Polls(|bursts[0]|, bursts, 1) == 0;
    assert Heard(bursts, 0, 0) == [];
  }

  /** When the edges heard first reach 84 (and stay below 256) during
      poll `k - 1`, the wait loop runs exactly `k` polls: from poll `j` on,
      `k - j` remain. */
  lemma {:induction false} PollsUntil(bursts: seq<seq<u32>>, j: nat, k: nat)
    requires 1 <= k <= 10 && j <= k
    requires |Heard(bursts, 0, k - 1)| < 84 <= |Heard(bursts, 0, k)| < 0x100
    ensures Polls(|Heard(bursts, 0, j)|, bursts, j) == k - j
    decreases k - j
  {
    if j < k {
      HeardPrefix(bursts, j, k - 1);
      HeardSnoc(bursts, j + 1, j);
      HeardPrefix(bursts, j + 1, k);
      SmallMod(|Heard(bursts, 0, j + 1)|);
      PollUnfold(|Heard(bursts, 0, j)|, |Heard(bursts, 0, j + 1)|, bursts, j);
      PollsUntil(bursts, j + 1, k);
    }
  }

  /** Edges that first reach 84 (and stay below 256) during poll `k - 1`
      end the wait loop after `k` polls, having heard the edges of those
      `k` polls. */
  lemma ReachedAt(s0: Edges, bursts: seq<seq<u32>>, k: nat)
    requires 1 <= k <= 10
    requires |Heard(bursts, 0, k - 1)| < 84 <= |Heard(bursts, 0, k)| < 0x100
    ensures Polls(0, bursts, 0) == k
    ensures Acquire(s0, bursts) == Run(Reset(s0), Heard(bursts, 0, k))
  {
    PollsUntil(bursts, 0, k);
    assert Heard(bursts, 0, 0) == [];
  }

  /** The number of polls depends only on how many edges each burst holds. */
  lemma {:induction false} PollsByLength(p: int, b1: seq<seq<u32>>, b2: seq<seq<u32>>, i: nat)
    requires forall k: nat :: |Burst(b1, k)| == |Burst(b2, k)|
    ensures Polls(p, b1, i) == Polls(p, b2, i)
    decreases if i <= 10 then 10 - i else 0
  {
    if i < 10 && p < 84 {
      PollsByLength((p + |Burst(b1, i)|) % 0x100, b1, b2, i + 1);
    }
  }

  /** The outcome of `readOnce` does not depend on the `high` and `last`
      the previous acquisition left behind. */
  lemma OutcomeForgetsLeftover(s0: Edges, s1: Edges, bursts: seq<seq<u32>>)
    ensures Outcome(s0, bursts) == Outcome(s1, bursts)
  {
    var heard := Heard(bursts, 0, Polls(0, bursts, 0));
    if |heard| >= 3 {
      LeftoverForgotten(Reset(s0), Reset(s1), heard);
    } else {
      ShortTimeout(s0, bursts);
      ShortTimeout(s1, bursts);
    }
  }

  /** Every timestamp of every burst moved `c` ticks later. */
  function ShiftBursts(bursts: seq<seq<u32>>, c: int): (r: seq<seq<u32>>)
    ensures |r| == |bursts|
    ensures forall i :: 0 <= i < |bursts| ==> r[i] == Shift(bursts[i], c)
  {
    seq(|bursts|, i requires 0 <= i < |bursts| => Shift(bursts[i], c))
  }

  lemma {:induction false} HeardShift(bursts: seq<seq<u32>>, c: int, n: nat)
    ensures Heard(ShiftBursts(bursts, c), 0, n) == Shift(Heard(bursts, 0, n), c)
    decreases n
  {
    if n > 0 {
      HeardShift(bursts, c, n - 1);
      var a := Heard(bursts, 0, n - 1);
      var b := Burst(bursts, n - 1);
      assert Burst(ShiftBursts(bursts, c), n - 1) == Shift(b, c);
      assert Shift(a, c) + Shift(b, c) == Shift(a + b, c);
    }
  }

  /** When every edge arrives `c` ticks later (the tick counter wrapping
      at 2^32 or not), `readOnce` reaches the same outcome. */
  lemma OutcomeShiftInvariant(s0: Edges, bursts: seq<seq<u32>>, c: int)
    ensures Outcome(s0, ShiftBursts(bursts, c)) == Outcome(s0, bursts)
  {
    var moved := ShiftBursts(bursts, c);
    MovedPolls(bursts, c);
    var n := Polls(0, bursts, 0);
    HeardShift(bursts, c, n);
    var heard := Heard(bursts, 0, n);
    var a := Acquire(s0, bursts);
    var b := Acquire(s0, moved);
    assert b == Run(Reset(s0), Shift(heard, c));
    if |heard| >= 3 {
      ShiftedFrame(Reset(s0), heard, c);
      SameVerdict(a, b);
    } else {
      ShortTimeout(s0, bursts);
      ShortTimeout(s0, moved);
    }
  }

  /** Moving the edges in time leaves the number of polls alone. */
  lemma MovedPolls(bursts: seq<seq<u32>>, c: int)
    ensures Polls(0, ShiftBursts(bursts, c), 0) == Polls(0, bursts, 0)
  {
    var moved := ShiftBursts(bursts, c);
    forall k: nat
      ensures |Burst(moved, k)| == |Burst(bursts, k)|
    {
    }
    PollsByLength(0, moved, bursts, 0);
  }

  /** Hearing fewer than 84 edges is a timeout. */
  lemma ShortTimeout(s0: Edges, bursts: seq<seq<u32>>)
    requires |Heard(bursts, 0, Polls(0, bursts, 0))| < 84
    ensures Outcome(s0, bursts) == Timeout
  {
    ShortCount(Reset(s0), Heard(bursts, 0, Polls(0, bursts, 0)));
  }

  lemma ShortCount(s: Edges, ts: seq<u32>)
    requires s.p == 0 && |ts| < 84
    ensures Run(s, ts).p < 84
  {
    SmallMod(|ts|);
  }

  /** The verdict reads only the counter and the accumulators. */
  lemma SameVerdict(a: Edges, b: Edges)
    requires a.p == b.p && a.humid == b.humid && a.temp == b.temp && a.cs == b.cs
    ensures Verdict(a) == Verdict(b)
  {
  }

  // ---------------------------------------------------------------------
  // The decoder's state as the firmware holds it.

  /** One turn of the wait loop: the edges of poll `i` extend what was
      heard, and one poll fewer remains. */
  lemma PollStep(start: Edges, bursts: seq<seq<u32>>, i: nat, q: Edges)
    requires i < 10 && q == Run(start, Heard(bursts, 0, i)) && q.p < 84
    ensures Polls(q.p as int, bursts, i) == 1 + Polls(Run(q, Burst(bursts, i)).p as int, bursts, i + 1)
    ensures Run(start, Heard(bursts, 0, i + 1)) == Run(q, Burst(bursts, i))
  {
    var r := Run(q, Burst(bursts, i));
    PollUnfold(q.p as int, r.p as int, bursts, i);
    HeardSnoc(bursts, i + 1, i);
    RunAppend(start, Heard(bursts, 0, i), Burst(bursts, i));
  }

  /** A poll that runs leaves one poll fewer, from the counter it reaches.
      `p'` is passed beside `p` so that the solver sees the caller's own
      counter term. */
  lemma PollUnfold(p: int, p': int, bursts: seq<seq<u32>>, i: nat)
    requires i < 10 && p < 84 && p' == (p + |Burst(bursts, i)|) % 0x100
    ensures Polls(p, bursts, i) == 1 + Polls(p', bursts, i + 1)
  {
  }

  /** The edges of the first `n = m + 1` polls are those of the first `m`
      followed by those of poll `m`. `n` is passed beside `m` so that the
      solver sees the caller's own term. */
  lemma HeardSnoc(bursts: seq<seq<u32>>, n: nat, m: nat)
    requires n == m + 1
    ensures Heard(bursts, 0, n) == Heard(bursts, 0, m) + Burst(bursts, m)
  {
  }

  /** When the wait loop stops after `i` polls, the state it reached is
      the one `Acquire` describes. */
  lemma WaitEnded(s0: Edges, bursts: seq<seq<u32>>, i: nat, q: Edges)
    requires q == Run(Reset(s0), Heard(bursts, 0, i))
    requires Polls(0, bursts, 0) == i + Polls(q.p as int, bursts, i)
    requires !(i < 10 && q.p < 84)
    ensures Acquire(s0, bursts) == q
  {
    assert Polls(q.p as int, bursts, i) == 0;
  }

  /** The fields `p`, `humid`, `temp` (a C `int`, kept here as its 32-bit
      pattern) and `cs` of the application, and the handler's two
      function-local statics `high` and `last`. */
  class Receiver {
    var p: u8
    var humid: u32
    var temp: u32
    var cs: u8
    var high: u32
    var last: u32

    function State(): Edges
      reads this
    {
      Edges(p, humid, temp, cs, high, last)
    }

    /** Statics start at 0, and so do the members of the global
        application object. */
    constructor ()
      ensures State() == Edges(0, 0, 0, 0, 0, 0)
    {
      p, humid, temp, cs, high, last := 0, 0, 0, 0, 0, 0;
    }

    /** `interruptDataAM2302`: called on every edge of the data line with
        the tick count `front` at which it was seen. */
    method OnEdge(front: u32)
      modifies this
      ensures State() == Step(old(State()), front)
    {
      var d := Interval(front, last);
      last := front;
      if p % 2 == 1 {
        var low := d;
        if 4 < p < 36 {
          humid := Push32(humid, Longer(high, low));
        } else if 36 < p < 68 {
          temp := Push32(temp, Longer(high, low));
        } else if 68 < p < 84 {
          cs := Push8(cs, Longer(high, low));
        }
      } else {
        high := d;
      }
      p := Next(p);
    }

    /** The edges of one burst, handled in order. */
    method Hear(burst: seq<u32>)
      modifies this
      ensures State() == Run(old(State()), burst)
    {
      var j := 0;
      while j < |burst|
        invariant 0 <= j <= |burst|
        invariant State() == Run(old(State()), burst[..j])
      {
        OnEdge(burst[j]);
        assert burst[..j + 1][..j] == burst[..j];
        j := j + 1;
      }
      assert burst[..j] == burst;
    }

    /** `readOnce`: `humidity` and `temperature` are the caller's
        variables, in tenths, and the method returns their new values,
        which are the old ones unless the reading is valid. */
    method ReadOnce(bursts: seq<seq<u32>>, humidity: int, temperature: int)
      returns (rc: int, humidity': int, temperature': int)
      modifies this
      ensures State() == Acquire(old(State()), bursts)
      ensures rc == Code(Outcome(old(State()), bursts))
      ensures rc == 0 ==> humidity' == State().humid as int && temperature' == Signed32(State().temp)
      ensures rc != 0 ==> humidity' == humidity && temperature' == temperature
    {
      p := 0;
      humid := 0;
      temp := 0;
      cs := 0;
      ghost var start := State();
      assert start == Reset(old(State()));
      var i: u8 := 0;
      while i < 10 && p < 84
        invariant i <= 10
        invariant State() == Run(start, Heard(bursts, 0, i as nat))
        invariant Polls(0, bursts, 0) == i as nat + Polls(p as int, bursts, i as nat)
        decreases 10 - i
      {
        PollStep(start, bursts, i as nat, State());
        Hear(Burst(bursts, i as nat));
        i := i + 1;
      }
      WaitEnded(old(State()), bursts, i as nat, State());
      if p < 84 {
        return -1, humidity, temperature;
      }
      if Checksum(humid as int, Signed32(temp)) != cs as int {
        return -2, humidity, temperature;
      }
      humidity' := humid as int;
      temperature' := Signed32(temp);
      return 0, humidity', temperature';
    }
  }
}
