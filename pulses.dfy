/**
 * What the AM2302 sends, as the edge handler sees it: the 40-bit frame
 * (16 bits of humidity, 16 of temperature, 8 of checksum, most
 * significant first) as a train of 84 line transitions. After the host's
 * start signal the sensor answers with a low and a high pulse of the same
 * length, then sends every bit as a fixed low pulse followed by a short
 * high pulse (0) or a long one (1), and ends with one more low pulse.
 *
 * Here the frame is encoded into edge timestamps and the decoder of
 * `EdgeDecoder` and `Am2302` is run over them: the round trip gives back
 * the frame's three fields, and `readOnce` accepts them exactly when the
 * checksum byte matches.
 */
module PulseTrain {
  import opened Types
  import opened EdgeDecoder
  import opened Am2302

  /** Pulse lengths in ticks: the response pulses, the low pulse before
      every bit, and the high pulse of a 0 and of a 1. */
  datatype Timing = Timing(start: nat, low: nat, zero: nat, one: nat)

  /** A 0 is shorter and a 1 longer than the low pulse that follows it,
      and every pulse is shorter than the tick counter's period. */
  predicate Distinguishable(tm: Timing)
  {
    0 < tm.zero < tm.low < tm.one < 0x1_0000_0000 && tm.start < 0x1_0000_0000
  }

  /** The sensor's nominal timing in microseconds (one tick per
      microsecond; any tick rate scales all four alike). */
  const Nominal := Timing(80, 50, 26, 70)

  /** `n` as `len` binary digits, most significant first. */
  function ToBits(n: nat, len: nat): (bs: seq<bool>)
    requires n < Pow2(len)
    ensures |bs| == len && Value(bs) == n
    decreases len
  {
    if len == 0 then []
    else
      var bs := ToBits(n / 2, len - 1) + [n % 2 == 1];
      assert bs[..len - 1] == ToBits(n / 2, len - 1);
      bs
  }

  /** The 40 bits of a frame. */
  function FrameBits(h: nat, t: nat, c: nat): (bs: seq<bool>)
    requires h < 0x1_0000 && t < 0x1_0000 && c < 0x100
    ensures |bs| == 40
  {
    Pow2Of16();
    ToBits(h, 16) + ToBits(t, 16) + ToBits(c, 8)
  }

  /** The length of the pulse that ends at edge `j` of the train that
      sends `bits`: edges 1 and 2 end the response pulses, odd edges from
      3 on end the low pulse before a bit (or after the last one), and
      even edges from 4 on end the high pulse of bit `(j - 4) / 2`. */
  function Width(tm: Timing, bits: seq<bool>, j: nat): nat
  {
    if j <= 2 then tm.start
    else if j % 2 == 1 then tm.low
    else if (j - 4) / 2 < |bits| && bits[(j - 4) / 2] then tm.one
    else tm.zero
  }

  /** The ticks from edge 0 to edge `j`. */
  function Elapsed(tm: Timing, bits: seq<bool>, j: nat): nat
  {
    if j == 0 then 0 else Elapsed(tm, bits, j - 1) + Width(tm, bits, j)
  }

  /** The timestamps of the 84 edges of the train that sends `bits`, the
      first one at tick `t0`. */
  function Transmit(tm: Timing, bits: seq<bool>, t0: u32): (ts: seq<u32>)
    ensures |ts| == 84
  {
    seq(84, j requires 0 <= j < 84 => Later(t0, Elapsed(tm, bits, j)))
  }

  /** A pulse of `w` ticks, shorter than the counter's period, that began
      `e` ticks and ended `a` ticks after tick `t0` is measured exactly,
      across a wrap of the counter too. */
  lemma MeasuredExactly(t0: u32, e: nat, w: nat, a: nat)
    requires w < 0x1_0000_0000 && a == e + w
    ensures Interval(Later(t0, a), Later(t0, e)) as int == w
  {
    var M := 0x1_0000_0000;
    var x := t0 as int + e;
    assert (x + w) - x == ((x + w) % M - x % M) + M * ((x + w) / M - x / M);
  }

  /** Every pulse of the train is measured as its width. */
  lemma TrainWidth(tm: Timing, bits: seq<bool>, t0: u32, j: nat)
    requires Distinguishable(tm)
    requires 1 <= j < 84
    ensures Interval(Transmit(tm, bits, t0)[j], Transmit(tm, bits, t0)[j - 1]) as int == Width(tm, bits, j)
  {
    var e, w, a := Elapsed(tm, bits, j - 1), Width(tm, bits, j), Elapsed(tm, bits, j);
    WidthFits(tm, bits, j);
    ElapsedStep(tm, bits, j);
    TransmitAt(tm, bits, t0, j - 1);
    TransmitAt(tm, bits, t0, j);
    MeasuredExactly(t0, e, w, a);
  }

  lemma WidthFits(tm: Timing, bits: seq<bool>, j: nat)
    requires Distinguishable(tm)
    ensures Width(tm, bits, j) < 0x1_0000_0000
  {
  }

  lemma ElapsedStep(tm: Timing, bits: seq<bool>, j: nat)
    requires j >= 1
    ensures Elapsed(tm, bits, j) == Elapsed(tm, bits, j - 1) + Width(tm, bits, j)
  {
  }

  lemma TransmitAt(tm: Timing, bits: seq<bool>, t0: u32, j: nat)
    requires j < 84
    ensures Transmit(tm, bits, t0)[j] == Later(t0, Elapsed(tm, bits, j))
  {
  }

  /** The high pulse of bit `k` ends at edge `4 + 2 * k`. */
  lemma BitWidth(tm: Timing, bits: seq<bool>, k: nat)
    requires k < |bits|
    ensures Width(tm, bits, 4 + 2 * k) == if bits[k] then tm.one else tm.zero
  {
    assert (4 + 2 * k - 4) / 2 == k;
  }

  /** The low pulse after bit `k` ends at edge `5 + 2 * k`. */
  lemma LowWidth(tm: Timing, bits: seq<bool>, k: nat)
    ensures Width(tm, bits, 5 + 2 * k) == tm.low
  {
    assert (5 + 2 * k) % 2 == 1;
  }

  /** Odd edge `5 + 2 * k` decodes bit `k` of the frame. */
  lemma TrainBit(tm: Timing, bits: seq<bool>, t0: u32, k: nat)
    requires Distinguishable(tm) && |bits| == 40 && k < 40
    ensures BitAt(Transmit(tm, bits, t0), 5 + 2 * k) == bits[k]
  {
    var ts := Transmit(tm, bits, t0);
    var j := 5 + 2 * k;
    TrainWidth(tm, bits, t0, j - 1);
    TrainWidth(tm, bits, t0, j);
    BitWidth(tm, bits, k);
    LowWidth(tm, bits, k);
  }

  /** The window of edges `lo < j < hi` of the train holds the frame's
      bits from `off` on. */
  lemma TrainWindow(tm: Timing, bits: seq<bool>, t0: u32, lo: nat, hi: nat, off: nat)
    requires Distinguishable(tm) && |bits| == 40
    requires 4 <= lo < hi <= 84 && lo % 2 == 0 && hi % 2 == 0
    requires lo == 4 + 2 * off && off + (hi - lo) / 2 <= 40
    ensures WindowBits(Transmit(tm, bits, t0), lo, hi) == bits[off..off + (hi - lo) / 2]
  {
    var ts := Transmit(tm, bits, t0);
    var w := WindowBits(ts, lo, hi);
    var n := (hi - lo) / 2;
    var want := bits[off..off + n];
    assert |w| == n == |want|;
    forall i | 0 <= i < n
      ensures w[i] == want[i]
    {
      WindowBitIs(tm, bits, t0, lo, hi, off, i);
    }
    assert w == want;
  }

  lemma WindowBitIs(tm: Timing, bits: seq<bool>, t0: u32, lo: nat, hi: nat, off: nat, i: nat)
    requires Distinguishable(tm) && |bits| == 40
    requires 4 <= lo < hi <= 84 && lo % 2 == 0 && hi % 2 == 0
    requires lo == 4 + 2 * off && off + (hi - lo) / 2 <= 40
    requires i < |WindowBits(Transmit(tm, bits, t0), lo, hi)|
    ensures WindowBits(Transmit(tm, bits, t0), lo, hi)[i] == bits[off + i]
  {
    WindowBitAt(Transmit(tm, bits, t0), lo, hi, i);
    assert lo + 1 + 2 * i == 5 + 2 * (off + i);
    TrainBit(tm, bits, t0, off + i);
  }

  /** The three windows of the train hold the three parts of the frame. */
  lemma TrainWindows(tm: Timing, bits: seq<bool>, t0: u32)
    requires Distinguishable(tm) && |bits| == 40
    ensures var ts := Transmit(tm, bits, t0);
      HumidBits(ts) == bits[..16] && TempBits(ts) == bits[16..32] && SumBits(ts) == bits[32..]
  {
    TrainWindow(tm, bits, t0, 4, 36, 0);
    TrainWindow(tm, bits, t0, 36, 68, 16);
    TrainWindow(tm, bits, t0, 68, 84, 32);
    assert bits[0..16] == bits[..16] && bits[32..40] == bits[32..];
  }

  /** Round trip: the decoder, started from a cleared counter and cleared
      accumulators, recovers humidity, temperature and checksum from the
      train that sends them, whatever `high` and `last` held before and
      whenever the train begins. */
  lemma DecodeTransmitted(s: Edges, tm: Timing, h: nat, t: nat, c: nat, t0: u32)
    requires s.p == 0 && s.humid == 0 && s.temp == 0 && s.cs == 0
    requires Distinguishable(tm)
    requires h < 0x1_0000 && t < 0x1_0000 && c < 0x100
    ensures var r := Run(s, Transmit(tm, FrameBits(h, t, c), t0));
      r.p == 84 && r.humid as int == h && r.temp as int == t && r.cs as int == c
  {
    var bits := FrameBits(h, t, c);
    TrainWindows(tm, bits, t0);
    FrameParts(h, t, c);
    FullFrame(s, Transmit(tm, bits, t0));
  }

  /** The three parts of a frame are the values it carries. */
  lemma FrameParts(h: nat, t: nat, c: nat)
    requires h < 0x1_0000 && t < 0x1_0000 && c < 0x100
    ensures var bits := FrameBits(h, t, c);
      Value(bits[..16]) == h && Value(bits[16..32]) == t && Value(bits[32..]) == c
  {
    Pow2Of16();
    var a, b, d := ToBits(h, 16), ToBits(t, 16), ToBits(c, 8);
    Slices(a, b, d);
  }

  lemma Slices(a: seq<bool>, b: seq<bool>, d: seq<bool>)
    requires |a| == 16 && |b| == 16 && |d| == 8
    ensures (a + b + d)[..16] == a && (a + b + d)[16..32] == b && (a + b + d)[32..] == d
  {
  }

  /** A train whose edges arrive spread over the first `k` polls, the
      last of them completing it, ends the wait loop there, and `readOnce`
      accepts the frame exactly when its checksum byte is the checksum of
      its humidity and temperature. */
  lemma AcquireTransmitted(s0: Edges, tm: Timing, h: nat, t: nat, c: nat, t0: u32, bursts: seq<seq<u32>>, k: nat)
    requires Distinguishable(tm)
    requires h < 0x1_0000 && t < 0x1_0000 && c < 0x100
    requires 1 <= k <= 10 && |Heard(bursts, 0, k - 1)| < 84
    requires Heard(bursts, 0, k) == Transmit(tm, FrameBits(h, t, c), t0)
    ensures Outcome(s0, bursts) == if Checksum(h, t) == c then Valid(h, t) else BadChecksum
  {
    ReachedAt(s0, bursts, k);
    DecodeTransmitted(Reset(s0), tm, h, t, c, t0);
    var r := Acquire(s0, bursts);
    assert r.p == 84 && r.humid as int == h && r.temp as int == t && r.cs as int == c;
    assert Signed32(r.temp) == t;
  }

  /** A train split at any edge `n` between two polls arrives as
      `AcquireTransmitted` asks: both polls together hear it all, and the
      first alone hears fewer than 84 edges. */
  lemma SplitArrival(ts: seq<u32>, n: nat)
    requires |ts| == 84 && n < 84
    ensures var bursts := [ts[..n], ts[n..]];
      Heard(bursts, 0, 2) == ts && |Heard(bursts, 0, 1)| < 84
  {
    var bursts := [ts[..n], ts[n..]];
    assert Heard(bursts, 0, 0) == [];
    assert Heard(bursts, 0, 1) == ts[..n];
    assert ts[..n] + ts[n..] == ts;
  }

  /** 0x0258 (60.0 %) and 0x00C8 (20.0 degrees) have the checksum 0x22. */
  lemma ExampleChecksum()
    ensures Checksum(0x0258, 0x00C8) == 0x22
  {
  }

  /** The frame 0x0258, 0x00C8, 0x22 (60.0 %, 20.0 degrees and their
      checksum), however its edges are spread over the polls, is read back
      as sent. */
  lemma ValidFrameExample(s0: Edges, t0: u32, bursts: seq<seq<u32>>, k: nat)
    requires 1 <= k <= 10 && |Heard(bursts, 0, k - 1)| < 84
    requires Heard(bursts, 0, k) == Transmit(Nominal, FrameBits(0x0258, 0x00C8, 0x22), t0)
    ensures Outcome(s0, bursts) == Valid(600, 200)
  {
    ExampleChecksum();
    AcquireTransmitted(s0, Nominal, 0x0258, 0x00C8, 0x22, t0, bursts, k);
  }

  /** The same frame with its checksum's last bit flipped is refused. */
  lemma CorruptFrameExample(s0: Edges, t0: u32, bursts: seq<seq<u32>>, k: nat)
    requires 1 <= k <= 10 && |Heard(bursts, 0, k - 1)| < 84
    requires Heard(bursts, 0, k) == Transmit(Nominal, FrameBits(0x0258, 0x00C8, 0x23), t0)
    ensures Outcome(s0, bursts) == BadChecksum
  {
    ExampleChecksum();
    AcquireTransmitted(s0, Nominal, 0x0258, 0x00C8, 0x23, t0, bursts, k);
  }
}
