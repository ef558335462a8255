/**
 * The AM2302 (DHT22) edge handler `interruptDataAM2302` as a function on
 * the state it reads and writes, and what a run of it over a sequence of
 * edge timestamps decodes.
 *
 * Every transition of the data line calls the handler with the current tick
 * count. The handler measures the interval since the previous edge as an
 * unsigned 32-bit difference. An even-numbered edge stores that interval in
 * `high`; an odd-numbered edge compares it (as `low`) with `high` and, when
 * the edge number lies in one of three windows, shifts the resulting bit
 * into the humidity, temperature or checksum accumulator. The byte counter
 * `p` numbers the edges and wraps at 256.
 */
module EdgeDecoder {
  import opened Types

  /** The handler's state: the edge counter `p`, the three accumulators, and
      the two function-local statics `high` and `last`. */
  datatype Edges = Edges(p: u8, humid: u32, temp: u32, cs: u8, high: u32, last: u32)

  /** 1 for a set bit, 0 otherwise. */
  function Digit(b: bool): int { if b then 1 else 0 }

  /** Edge numbers (bounds excluded) whose bits go to each accumulator. */
  predicate InHumid(k: int) { 4 < k < 36 }
  predicate InTemp(k: int) { 36 < k < 68 }
  predicate InSum(k: int) { 68 < k < 84 }

  /** The interval since the previous edge: an unsigned 32-bit difference,
      correct across a wrap of the tick counter. */
  function Interval(front: u32, last: u32): u32
  {
    ((front as int - last as int) % 0x1_0000_0000) as u32
  }

  /** The decoded bit: 1 when the interval ending at the even edge (`high`)
      is longer than the one ending at the odd edge (`low`), by unsigned
      comparison. */
  function Longer(high: u32, low: u32): bool { high > low }

  /** `x * 2 + bit` stored back into an unsigned 32-bit variable. */
  function Push32(x: u32, b: bool): u32
  {
    ((2 * x as int + Digit(b)) % 0x1_0000_0000) as u32
  }

  /** `x * 2 + bit` stored back into a byte. */
  function Push8(x: u8, b: bool): u8
  {
    ((2 * x as int + Digit(b)) % 0x100) as u8
  }

  /** `++p` on a byte. */
  function Next(p: u8): u8
  {
    ((p as int + 1) % 0x100) as u8
  }

  /** The bit an odd edge at tick `front` carries: `high > low`, where
      `low` is the interval since the previous edge. */
  function OddBit(s: Edges, front: u32): bool { Longer(s.high, Interval(front, s.last)) }

  /** One call of the handler for an edge seen at tick `front`. */
  function Step(s: Edges, front: u32): (r: Edges)
    ensures r.p == Next(s.p) && r.last == front
    ensures s.p % 2 == 0 ==>
      r.high == Interval(front, s.last) && r.humid == s.humid && r.temp == s.temp && r.cs == s.cs
    ensures s.p % 2 == 1 ==> r.high == s.high
    ensures s.p % 2 == 1 && InHumid(s.p as int) ==>
      r.humid == Push32(s.humid, OddBit(s, front)) && r.temp == s.temp && r.cs == s.cs
    ensures s.p % 2 == 1 && InTemp(s.p as int) ==>
      r.temp == Push32(s.temp, OddBit(s, front)) && r.humid == s.humid && r.cs == s.cs
    ensures s.p % 2 == 1 && InSum(s.p as int) ==>
      r.cs == Push8(s.cs, OddBit(s, front)) && r.humid == s.humid && r.temp == s.temp
    ensures s.p <= 4 || s.p >= 84 ==> r.humid == s.humid && r.temp == s.temp && r.cs == s.cs
  {
    if s.p % 2 == 1 then
      if InHumid(s.p as int) then Edges(Next(s.p), Push32(s.humid, OddBit(s, front)), s.temp, s.cs, s.high, front)
      else if InTemp(s.p as int) then Edges(Next(s.p), s.humid, Push32(s.temp, OddBit(s, front)), s.cs, s.high, front)
      else if InSum(s.p as int) then Edges(Next(s.p), s.humid, s.temp, Push8(s.cs, OddBit(s, front)), s.high, front)
      else Edges(Next(s.p), s.humid, s.temp, s.cs, s.high, front)
    else
      Edges(Next(s.p), s.humid, s.temp, s.cs, Interval(front, s.last), front)
  }

  /** The handler called once per timestamp of `ts`, in order. */
  function Run(s: Edges, ts: seq<u32>): (r: Edges)
    ensures r.p as int == (s.p as int + |ts|) % 0x100
    ensures |ts| > 0 ==> r.last == ts[|ts| - 1]
    decreases |ts|
  {
    if ts == [] then s
    else
      NextMod(s.p as int + |ts| - 1);
      Step(Run(s, ts[..|ts| - 1]), ts[|ts| - 1])
  }

  lemma NextMod(a: int)
    ensures (a % 0x100 + 1) % 0x100 == (a + 1) % 0x100
  {
  }

  lemma SmallMod(a: int)
    requires 0 <= a < 0x100
    ensures a % 0x100 == a
  {
  }

  /** Running over two sequences one after the other is running over their
      concatenation. */
  lemma {:induction false} RunAppend(s: Edges, a: seq<u32>, b: seq<u32>)
    ensures Run(s, a + b) == Run(Run(s, a), b)
    decreases |b|
  {
    if b == [] {
      assert a + b == a;
    } else {
      var n := |b|;
      assert (a + b)[..|a + b| - 1] == a + b[..n - 1];
      RunAppend(s, a, b[..n - 1]);
    }
  }

  /** The state at the start of an acquisition: counter and accumulators
      cleared, `high` and `last` left from the previous one. */
  function Reset(s: Edges): (r: Edges)
    ensures r.p == 0 && r.humid == 0 && r.temp == 0 && r.cs == 0
    ensures r.high == s.high && r.last == s.last
  {
    s.(p := 0, humid := 0, temp := 0, cs := 0)
  }

  // ---------------------------------------------------------------------
  // The frame a sequence of edges carries, defined by edge number alone.

  function Pow2(n: nat): (r: nat)
    ensures r >= 1
  {
    if n == 0 then 1 else 2 * Pow2(n - 1)
  }

  lemma {:induction false} Pow2Monotone(a: nat, b: nat)
    requires a <= b
    ensures Pow2(a) <= Pow2(b)
    decreases b
  {
    if a < b { Pow2Monotone(a, b - 1); }
  }

  /** The number whose binary digits, most significant first, are `bits`. */
  function Value(bits: seq<bool>): (v: nat)
    ensures v < Pow2(|bits|)
    decreases |bits|
  {
    if bits == [] then 0
    else Value(bits[..|bits| - 1]) * 2 + Digit(bits[|bits| - 1])
  }

  /** The bit carried by odd edge `j`: the interval ending at edge `j - 1`
      is longer than the interval ending at edge `j`. */
  function BitAt(ts: seq<u32>, j: int): bool
    requires 2 <= j < |ts|
  {
    Longer(Interval(ts[j - 1], ts[j - 2]), Interval(ts[j], ts[j - 1]))
  }

  function Min(a: int, b: int): int { if a <= b then a else b }

  /** The bits carried by the odd edges `j` of `ts` with `lo < j < hi`, in
      order: there is one per odd edge number in the window that `ts`
      reaches, and the `i`-th is the bit of edge `lo + 1 + 2 * i`. */
  function WindowBits(ts: seq<u32>, lo: nat, hi: nat): (r: seq<bool>)
    requires 2 <= lo <= hi && lo % 2 == 0 && hi % 2 == 0
    ensures |r| == if |ts| <= lo then 0 else (Min(|ts|, hi) - lo) / 2
    decreases |ts|
  {
    if |ts| <= lo then []
    else
      var j := |ts| - 1;
      var before := WindowBits(ts[..j], lo, hi);
      if j % 2 == 1 && j < hi then before + [BitAt(ts, j)] else before
  }

  /** A bit carried by an earlier edge does not change when more edges
      follow. */
  lemma BitAtPrefix(ts: seq<u32>, n: nat, j: int)
    requires 2 <= j < n <= |ts|
    ensures BitAt(ts[..n], j) == BitAt(ts, j)
  {
  }

  /** The `i`-th bit of a window is the bit of odd edge `lo + 1 + 2 * i`. */
  lemma {:induction false} WindowBitAt(ts: seq<u32>, lo: nat, hi: nat, i: nat)
    requires 2 <= lo <= hi && lo % 2 == 0 && hi % 2 == 0
    requires i < |WindowBits(ts, lo, hi)|
    ensures lo + 1 + 2 * i < |ts| && WindowBits(ts, lo, hi)[i] == BitAt(ts, lo + 1 + 2 * i)
    decreases |ts|
  {
    var j := |ts| - 1;
    var before := WindowBits(ts[..j], lo, hi);
    if i < |before| {
      WindowBitAt(ts[..j], lo, hi, i);
      BitAtPrefix(ts, j, lo + 1 + 2 * i);
    } else {
      assert j % 2 == 1 && j < hi && j > lo;
      assert i == (j - lo) / 2;
    }
  }

  function HumidBits(ts: seq<u32>): seq<bool> { WindowBits(ts, 4, 36) }
  function TempBits(ts: seq<u32>): seq<bool> { WindowBits(ts, 36, 68) }
  function SumBits(ts: seq<u32>): seq<bool> { WindowBits(ts, 68, 84) }

  lemma Pow2Of16()
    ensures Pow2(8) == 0x100 && Pow2(16) == 0x1_0000
  {
  }

  /** Shifting one more bit into a value of fewer than `n` bits gives a
      value of at most `n` bits. */
  lemma {:induction false} ShiftFits(bits: seq<bool>, b: bool, n: nat)
    requires |bits| < n
    ensures Value(bits + [b]) == 2 * Value(bits) + Digit(b)
    ensures Value(bits + [b]) < Pow2(n)
  {
    assert (bits + [b])[..|bits|] == bits;
    Pow2Monotone(|bits| + 1, n);
  }

  lemma PushExact32(x: u32, b: bool)
    requires 2 * x as int + Digit(b) < 0x1_0000_0000
    ensures Push32(x, b) as int == 2 * x as int + Digit(b)
  {
  }

  lemma PushExact8(x: u8, b: bool)
    requires 2 * x as int + Digit(b) < 0x100
    ensures Push8(x, b) as int == 2 * x as int + Digit(b)
  {
  }

  /** What the handler's state says about the edges `ts` it has seen since
      its counter and accumulators were cleared. */
  ghost predicate Decoded(r: Edges, ts: seq<u32>)
  {
    && r.p as int == |ts| % 0x100
    && r.humid as int == Value(HumidBits(ts))
    && r.temp as int == Value(TempBits(ts))
    && r.cs as int == Value(SumBits(ts))
    && (|ts| >= 1 ==> r.last == ts[|ts| - 1])
    && (|ts| >= 2 && |ts| % 2 == 1 ==> r.high == Interval(ts[|ts| - 1], ts[|ts| - 2]))
  }

  /** An odd edge inside a window appends its bit to that window. */
  lemma OddEdgeBits(ts: seq<u32>)
    requires |ts| >= 1 && (|ts| - 1) % 2 == 1
    ensures var j := |ts| - 1; var pre := ts[..j];
      && HumidBits(ts) == (if InHumid(j) then HumidBits(pre) + [BitAt(ts, j)] else HumidBits(pre))
      && TempBits(ts) == (if InTemp(j) then TempBits(pre) + [BitAt(ts, j)] else TempBits(pre))
      && SumBits(ts) == (if InSum(j) then SumBits(pre) + [BitAt(ts, j)] else SumBits(pre))
  {
  }

  /** An even edge carries no bit. */
  lemma EvenEdgeBits(ts: seq<u32>)
    requires |ts| >= 1 && (|ts| - 1) % 2 == 0
    ensures var pre := ts[..|ts| - 1];
      HumidBits(ts) == HumidBits(pre) && TempBits(ts) == TempBits(pre) && SumBits(ts) == SumBits(pre)
  {
  }

  /** An even edge records the interval ending at it in `high`. */
  lemma EvenStepDecodes(q: Edges, ts: seq<u32>)
    requires 1 <= |ts| <= 256 && (|ts| - 1) % 2 == 0
    requires Decoded(q, ts[..|ts| - 1])
    ensures Decoded(Step(q, ts[|ts| - 1]), ts)
  {
    var j := |ts| - 1;
    EvenEdgeBits(ts);
    if j >= 1 {
      assert q.last == ts[j - 1];
    }
    var r := Step(q, ts[j]);
    SmallMod(j);
    assert q.p as int == j;
    assert q.p % 2 == 0;
    assert r.humid == q.humid && r.temp == q.temp && r.cs == q.cs;
  }

  /** An odd edge inside a window appends its bit to the window's bits,
      of which there were fewer than the window holds. */
  lemma WindowGrows(ts: seq<u32>, lo: nat, hi: nat)
    requires 2 <= lo < hi && lo % 2 == 0 && hi % 2 == 0
    requires |ts| >= 1 && (|ts| - 1) % 2 == 1 && lo < |ts| - 1 < hi
    ensures WindowBits(ts, lo, hi) == WindowBits(ts[..|ts| - 1], lo, hi) + [BitAt(ts, |ts| - 1)]
    ensures |WindowBits(ts[..|ts| - 1], lo, hi)| < (hi - lo) / 2
  {
    WindowRoom(ts[..|ts| - 1], lo, hi);
  }

  lemma WindowRoom(pre: seq<u32>, lo: nat, hi: nat)
    requires 2 <= lo < hi && lo % 2 == 0 && hi % 2 == 0
    requires lo < |pre| < hi
    ensures |WindowBits(pre, lo, hi)| < (hi - lo) / 2
  {
    var m := (hi - lo) / 2;
    assert hi - lo == 2 * m;
    assert |WindowBits(pre, lo, hi)| == (|pre| - lo) / 2;
  }

  /** An odd edge in the humidity window shifts the bit it carries into
      `humid`, which then holds the value of the window's bits so far. */
  lemma HumidShift(q: Edges, ts: seq<u32>)
    requires |ts| <= 256 && (|ts| - 1) % 2 == 1 && InHumid(|ts| - 1)
    requires q.p as int == |ts| - 1
    requires q.humid as int == Value(HumidBits(ts[..|ts| - 1]))
    requires q.high == Interval(ts[|ts| - 2], ts[|ts| - 3]) && q.last == ts[|ts| - 2]
    ensures Step(q, ts[|ts| - 1]).humid as int == Value(HumidBits(ts))
  {
    var j := |ts| - 1;
    WindowGrows(ts, 4, 36);
    assert OddBit(q, ts[j]) == BitAt(ts, j);
    Pow2Of16();
    ShiftFits(HumidBits(ts[..j]), BitAt(ts, j), 16);
    PushExact32(q.humid, BitAt(ts, j));
  }

  /** An odd edge in the temperature window shifts the bit it carries into
      `temp`, which then holds the value of the window's bits so far. */
  lemma TempShift(q: Edges, ts: seq<u32>)
    requires |ts| <= 256 && (|ts| - 1) % 2 == 1 && InTemp(|ts| - 1)
    requires q.p as int == |ts| - 1
    requires q.temp as int == Value(TempBits(ts[..|ts| - 1]))
    requires q.high == Interval(ts[|ts| - 2], ts[|ts| - 3]) && q.last == ts[|ts| - 2]
    ensures Step(q, ts[|ts| - 1]).temp as int == Value(TempBits(ts))
  {
    var j := |ts| - 1;
    WindowGrows(ts, 36, 68);
    assert OddBit(q, ts[j]) == BitAt(ts, j);
    Pow2Of16();
    ShiftFits(TempBits(ts[..j]), BitAt(ts, j), 16);
    PushExact32(q.temp, BitAt(ts, j));
  }

  /** An odd edge in the checksum window shifts the bit it carries into
      `cs`, which then holds the value of the window's bits so far. */
  lemma SumShift(q: Edges, ts: seq<u32>)
    requires |ts| <= 256 && (|ts| - 1) % 2 == 1 && InSum(|ts| - 1)
    requires q.p as int == |ts| - 1
    requires q.cs as int == Value(SumBits(ts[..|ts| - 1]))
    requires q.high == Interval(ts[|ts| - 2], ts[|ts| - 3]) && q.last == ts[|ts| - 2]
    ensures Step(q, ts[|ts| - 1]).cs as int == Value(SumBits(ts))
  {
    var j := |ts| - 1;
    WindowGrows(ts, 68, 84);
    assert OddBit(q, ts[j]) == BitAt(ts, j);
    Pow2Of16();
    ShiftFits(SumBits(ts[..j]), BitAt(ts, j), 8);
    PushExact8(q.cs, BitAt(ts, j));
  }

  /** An odd edge in the humidity window keeps the state decoded. */
  lemma HumidStepDecodes(q: Edges, ts: seq<u32>)
    requires 1 <= |ts| <= 256 && (|ts| - 1) % 2 == 1 && InHumid(|ts| - 1)
    requires Decoded(q, ts[..|ts| - 1])
    ensures Decoded(Step(q, ts[|ts| - 1]), ts)
  {
    SmallMod(|ts| - 1);
    OddEdgeBits(ts);
    HumidShift(q, ts);
  }

  /** An odd edge in the temperature window keeps the state decoded. */
  lemma TempStepDecodes(q: Edges, ts: seq<u32>)
    requires 1 <= |ts| <= 256 && (|ts| - 1) % 2 == 1 && InTemp(|ts| - 1)
    requires Decoded(q, ts[..|ts| - 1])
    ensures Decoded(Step(q, ts[|ts| - 1]), ts)
  {
    SmallMod(|ts| - 1);
    OddEdgeBits(ts);
    TempShift(q, ts);
  }

  /** An odd edge in the checksum window keeps the state decoded. */
  lemma SumStepDecodes(q: Edges, ts: seq<u32>)
    requires 1 <= |ts| <= 256 && (|ts| - 1) % 2 == 1 && InSum(|ts| - 1)
    requires Decoded(q, ts[..|ts| - 1])
    ensures Decoded(Step(q, ts[|ts| - 1]), ts)
  {
    SmallMod(|ts| - 1);
    OddEdgeBits(ts);
    SumShift(q, ts);
  }

  /** An odd edge outside the windows changes no accumulator. */
  lemma OtherStepDecodes(q: Edges, ts: seq<u32>)
    requires 1 <= |ts| <= 256 && (|ts| - 1) % 2 == 1
    requires !InHumid(|ts| - 1) && !InTemp(|ts| - 1) && !InSum(|ts| - 1)
    requires Decoded(q, ts[..|ts| - 1])
    ensures Decoded(Step(q, ts[|ts| - 1]), ts)
  {
    var j := |ts| - 1;
    SmallMod(j);
    assert q.p as int == j;
    QuietStep(q, ts[j]);
    QuietEdgeBits(ts);
    KeptDecoded(q, Step(q, ts[j]), ts);
  }

  /** An odd edge outside the windows adds no bit to any of them. */
  lemma QuietEdgeBits(ts: seq<u32>)
    requires |ts| >= 1 && (|ts| - 1) % 2 == 1
    requires !InHumid(|ts| - 1) && !InTemp(|ts| - 1) && !InSum(|ts| - 1)
    ensures var pre := ts[..|ts| - 1];
      HumidBits(ts) == HumidBits(pre) && TempBits(ts) == TempBits(pre) && SumBits(ts) == SumBits(pre)
  {
    OddEdgeBits(ts);
  }

  /** An odd edge outside the windows leaves the accumulators alone. */
  lemma QuietStep(q: Edges, front: u32)
    requires q.p % 2 == 1 && !InHumid(q.p as int) && !InTemp(q.p as int) && !InSum(q.p as int)
    ensures var r := Step(q, front); r.humid == q.humid && r.temp == q.temp && r.cs == q.cs
  {
  }

  /** A step that leaves the accumulators alone over an edge that adds no
      bit to any window keeps the state decoded. */
  lemma KeptDecoded(q: Edges, r: Edges, ts: seq<u32>)
    requires 1 <= |ts| <= 256 && (|ts| - 1) % 2 == 1
    requires Decoded(q, ts[..|ts| - 1])
    requires r.humid == q.humid && r.temp == q.temp && r.cs == q.cs
    requires r.p == Next(q.p) && r.last == ts[|ts| - 1]
    requires var pre := ts[..|ts| - 1];
      HumidBits(ts) == HumidBits(pre) && TempBits(ts) == TempBits(pre) && SumBits(ts) == SumBits(pre)
    ensures Decoded(r, ts)
  {
    SmallMod(|ts| - 1);
  }

  /**
   * Starting with a cleared counter and accumulators, and for at most 256
   * edges (before the counter wraps to an edge number that shifts again),
   * each accumulator holds the most-significant-first value of the bits of
   * its window, whatever `high` and `last` were before.
   */
  lemma {:induction false} RunDecodes(s: Edges, ts: seq<u32>)
    requires s.p == 0 && s.humid == 0 && s.temp == 0 && s.cs == 0
    requires |ts| <= 256
    ensures Decoded(Run(s, ts), ts)
    decreases |ts|
  {
    if ts != [] {
      RunDecodes(s, ts[..|ts| - 1]);
      if (|ts| - 1) % 2 == 0 {
        EvenStepDecodes(Run(s, ts[..|ts| - 1]), ts);
      } else if InHumid(|ts| - 1) {
        HumidStepDecodes(Run(s, ts[..|ts| - 1]), ts);
      } else if InTemp(|ts| - 1) {
        TempStepDecodes(Run(s, ts[..|ts| - 1]), ts);
      } else if InSum(|ts| - 1) {
        SumStepDecodes(Run(s, ts[..|ts| - 1]), ts);
      } else {
        OtherStepDecodes(Run(s, ts[..|ts| - 1]), ts);
      }
    }
  }

  /** Once 84 to 255 edges have been seen from a cleared state, the
      counter is their number, exactly 16 bits have gone into `humid`, 16
      into `temp` and 8 into `cs`, so `humid` and `temp` are below 65536. */
  lemma FullFrame(s: Edges, ts: seq<u32>)
    requires s.p == 0 && s.humid == 0 && s.temp == 0 && s.cs == 0
    requires 84 <= |ts| < 0x100
    ensures |HumidBits(ts)| == 16 && |TempBits(ts)| == 16 && |SumBits(ts)| == 8
    ensures var r := Run(s, ts);
      && r.p as int == |ts|
      && r.humid as int == Value(HumidBits(ts)) < 0x1_0000
      && r.temp as int == Value(TempBits(ts)) < 0x1_0000
      && r.cs as int == Value(SumBits(ts))
  {
    RunDecodes(s, ts);
    Pow2Of16();
    SmallMod(|ts|);
  }

  /** The state after the first three edges of an acquisition does not
      depend on the `high` and `last` left from a previous one: edge 0 only
      overwrites `high`, edge 1 is outside every window, and edge 2
      overwrites `high` again with an interval between two new edges. */
  lemma LeftoverForgotten(s1: Edges, s2: Edges, ts: seq<u32>)
    requires s1.p == 0 && s1.p == s2.p && s1.humid == s2.humid && s1.temp == s2.temp && s1.cs == s2.cs
    requires |ts| >= 3
    ensures Run(s1, ts) == Run(s2, ts)
  {
    var head := ts[..3];
    assert head + ts[3..] == ts;
    RunAppend(s1, head, ts[3..]);
    RunAppend(s2, head, ts[3..]);
    FirstThree(s1, head);
    FirstThree(s2, head);
  }

  /** The state after the first three edges from a cleared counter. */
  lemma FirstThree(s: Edges, ts: seq<u32>)
    requires s.p == 0 && |ts| == 3
    ensures Run(s, ts) == Edges(3, s.humid, s.temp, s.cs, Interval(ts[2], ts[1]), ts[2])
  {
    var r1 := Run(s, ts[..1]);
    assert ts[..1][..0] == [];
    assert r1 == Step(Run(s, []), ts[0]);
    assert r1.p == 1 && r1.humid == s.humid && r1.temp == s.temp && r1.cs == s.cs;
    var r2 := Run(s, ts[..2]);
    assert ts[..2][..1] == ts[..1];
    assert r2 == Step(r1, ts[1]);
    assert r2.p == 2 && r2.humid == s.humid && r2.temp == s.temp && r2.cs == s.cs && r2.last == ts[1];
    assert ts[..2] == ts[..|ts| - 1];
  }

  /** `c` ticks later on the 32-bit tick counter. */
  function Later(x: u32, c: int): u32
  {
    ((x as int + c) % 0x1_0000_0000) as u32
  }

  /** Every timestamp of `ts` moved `c` ticks later, wrapping at 2^32. */
  function Shift(ts: seq<u32>, c: int): (r: seq<u32>)
    ensures |r| == |ts|
    ensures forall i :: 0 <= i < |ts| ==> r[i] == Later(ts[i], c)
  {
    seq(|ts|, i requires 0 <= i < |ts| => Later(ts[i], c))
  }

  /** The interval between two edges is the same when both are moved by
      the same amount, across a wrap of the tick counter too. */
  lemma IntervalShift(front: u32, last: u32, c: int)
    ensures Interval(Later(front, c), Later(last, c)) == Interval(front, last)
  {
    var M := 0x1_0000_0000;
    var f := front as int + c;
    var l := last as int + c;
    assert (f % M - l % M) % M == (f - l) % M by {
      assert f - l == (f % M - l % M) + M * (f / M - l / M);
    }
  }

  /** One handler call on a moved edge, from a state whose `last` was moved
      alike, computes the same state but for `last`. */
  lemma StepShift(s: Edges, front: u32, c: int)
    ensures Step(s.(last := Later(s.last, c)), Later(front, c)) == Step(s, front).(last := Later(front, c))
  {
    IntervalShift(front, s.last, c);
  }

  /** Moving every edge, and the `last` edge before them, by the same
      number of ticks changes nothing but `last`. */
  lemma {:induction false} RunShift(s: Edges, ts: seq<u32>, c: int)
    ensures Run(s.(last := Later(s.last, c)), Shift(ts, c)) == Run(s, ts).(last := Later(Run(s, ts).last, c))
    decreases |ts|
  {
    if ts != [] {
      var n := |ts| - 1;
      assert Shift(ts, c)[..n] == Shift(ts[..n], c);
      RunShift(s, ts[..n], c);
      StepShift(Run(s, ts[..n]), ts[n], c);
    }
  }

  /** An acquisition of at least three edges decodes the same `humid`,
      `temp` and `cs` when every edge arrives `c` ticks later. */
  lemma ShiftedFrame(s: Edges, ts: seq<u32>, c: int)
    requires s.p == 0 && s.humid == 0 && s.temp == 0 && s.cs == 0
    requires |ts| >= 3
    ensures var r := Run(s, ts); var r' := Run(s, Shift(ts, c));
      r'.p == r.p && r'.humid == r.humid && r'.temp == r.temp && r'.cs == r.cs && r'.high == r.high
  {
    RunShift(s, ts, c);
    LeftoverForgotten(s, s.(last := Later(s.last, c)), Shift(ts, c));
  }
}
