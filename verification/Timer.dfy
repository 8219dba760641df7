/** Tick and nanosecond conversions of a free-running counter, and the deadlines armed with them. */
module Timer {

  const NANOS_PER_SECOND: nat := 1_000_000_000
  const U64_MAX: nat := 0xFFFF_FFFF_FFFF_FFFF
  const U128_MAX: nat := 0xFFFF_FFFF_FFFF_FFFF_FFFF_FFFF_FFFF_FFFF

  type u64 = x: nat | x <= U64_MAX

  function Saturate(x: nat): u64 {
    if x > U64_MAX then U64_MAX else x
  }

  function CeilDiv(x: nat, d: nat): nat
    requires d > 0
  {
    if x % d == 0 then x / d else x / d + 1
  }

  function TicksToNs(count: u64, frequencyHz: u64): u64
    requires frequencyHz != 0
  {
    Saturate((count * NANOS_PER_SECOND) / frequencyHz)
  }

  function NsToTicks(ns: u64, frequencyHz: u64): u64
    requires frequencyHz != 0
  {
    Saturate(CeilDiv(ns * frequencyHz, NANOS_PER_SECOND))
  }

  function ResolutionNs(frequencyHz: u64): u64
    requires frequencyHz != 0
  {
    ResolutionFits(frequencyHz);
    var raw := (NANOS_PER_SECOND + frequencyHz / 2) / frequencyHz;
    if raw == 0 then 1 else raw
  }

  // ----- division, without division --------------------------------------------------------------------

  lemma DivBounds(x: nat, d: nat)
    requires d > 0
    ensures x / d * d <= x < x / d * d + d
  {
  }

  lemma MulMonotone(a: nat, b: nat, d: nat)
    requires a <= b
    ensures a * d <= b * d
  {
    assert b * d == a * d + (b - a) * d;
  }

  /** `k` is the quotient of `x` by `d`; how it compares to `q`, without division. */
  lemma QuotientAtLeast(x: nat, d: nat, k: nat, q: nat)
    requires k * d <= x < k * d + d
    ensures k >= q <==> x >= q * d
  {
    if k >= q {
      MulMonotone(q, k, d);
    } else {
      MulMonotone(k + 1, q, d);
      assert (k + 1) * d == k * d + d;
    }
  }

  /** Floor division against a multiplication. */
  lemma FloorAtLeast(x: nat, d: nat, q: nat)
    requires d > 0
    ensures x / d >= q <==> x >= q * d
  {
    DivBounds(x, d);
    QuotientAtLeast(x, d, x / d, q);
  }

  /** Ceiling division against a multiplication. */
  lemma CeilAtMost(x: nat, d: nat, q: nat)
    requires d > 0
    ensures CeilDiv(x, d) <= q <==> x <= q * d
  {
    DivBounds(x, d);
    DivExact(x, d);
    QuotientAtLeast(x, d, x / d, q);
    QuotientAtLeast(x, d, x / d, q + 1);
    assert (q + 1) * d == q * d + d;
  }

  lemma DivExact(x: nat, d: nat)
    requires d > 0
    ensures x % d == 0 <==> x == x / d * d
  {
  }

  // ----- no intermediate overflows -----------------------------------------------------------------------

  lemma ProductFits(a: nat, b: nat, m: nat, n: nat)
    requires a <= m && b <= n
    ensures a * b <= m * n
  {
    assert a * b <= m * b <= m * n;
  }

  /** The 128-bit intermediates of both conversions never overflow. */
  lemma IntermediatesFit(x: u64, frequencyHz: u64)
    ensures x * NANOS_PER_SECOND <= U128_MAX && x * frequencyHz <= U128_MAX
  {
    ProductFits(x, frequencyHz, U64_MAX, U64_MAX);
  }

  /** Nor does the 64-bit sum of the resolution. */
  lemma ResolutionFits(frequencyHz: u64)
    requires frequencyHz != 0
    ensures NANOS_PER_SECOND + frequencyHz / 2 <= U64_MAX
    ensures (NANOS_PER_SECOND + frequencyHz / 2) / frequencyHz <= U64_MAX
  {
    QuotientIsSmaller(NANOS_PER_SECOND + frequencyHz / 2, frequencyHz);
  }

  lemma QuotientIsSmaller(x: nat, d: nat)
    requires d > 0
    ensures x / d <= x
  {
    DivBounds(x, d);
    MulMonotone(1, d, x / d);
  }

  // ----- deadlines ----------------------------------------------------------------------------------------

  /** The comparator armed for a deadline matches from exactly the first tick whose time reaches the deadline, unless
      the tick count is not representable and the counter stands at its very last value. */
  lemma DeadlineIsExactIff(c: u64, d: u64, f: u64)
    requires f != 0
    ensures (c >= NsToTicks(d, f) <==> TicksToNs(c, f) >= d)
      <==> !(CeilDiv(d * f, NANOS_PER_SECOND) > U64_MAX && c == U64_MAX)
  {
    var ticks := CeilDiv(d * f, NANOS_PER_SECOND);
    CeilAtMost(d * f, NANOS_PER_SECOND, c);
    FloorAtLeast(c * NANOS_PER_SECOND, f, d);
    assert ticks <= c <==> TicksToNs(c, f) >= d;
  }

  /** At 2 GHz a deadline of 2^64 - 1 ns is armed at the last tick, and the comparator holds there at a time of about
      half the deadline. */
  lemma LastTickFiresEarly()
    ensures NsToTicks(U64_MAX, 2 * NANOS_PER_SECOND) == U64_MAX
    ensures TicksToNs(U64_MAX, 2 * NANOS_PER_SECOND) == 0x7FFF_FFFF_FFFF_FFFF
    ensures !(U64_MAX >= NsToTicks(U64_MAX, 2 * NANOS_PER_SECOND)
              <==> TicksToNs(U64_MAX, 2 * NANOS_PER_SECOND) >= U64_MAX)
  {
  }

  /** The units: a second is as many ticks as the frequency says, and as many nanoseconds as there are in one. */
  lemma OneSecond(f: u64)
    requires f != 0
    ensures TicksToNs(f, f) == 1_000_000_000 && NsToTicks(1_000_000_000, f) == f
  {
    FloorAtLeast(f * NANOS_PER_SECOND, f, NANOS_PER_SECOND);
    FloorAtLeast(f * NANOS_PER_SECOND, f, NANOS_PER_SECOND + 1);
    CeilAtMost(NANOS_PER_SECOND * f, NANOS_PER_SECOND, f);
    if f > 0 {
      CeilAtMost(NANOS_PER_SECOND * f, NANOS_PER_SECOND, f - 1);
    }
  }

  /** Both conversions are monotone, at saturation as well. */
  lemma ConversionsAreMonotone(x: u64, y: u64, f: u64)
    requires f != 0 && x <= y
    ensures TicksToNs(x, f) <= TicksToNs(y, f) && NsToTicks(x, f) <= NsToTicks(y, f)
  {
    var qx := x * NANOS_PER_SECOND / f;
    FloorAtLeast(x * NANOS_PER_SECOND, f, qx);
    FloorAtLeast(y * NANOS_PER_SECOND, f, qx);
    var cy := CeilDiv(y * f, NANOS_PER_SECOND);
    CeilAtMost(y * f, NANOS_PER_SECOND, cy);
    CeilAtMost(x * f, NANOS_PER_SECOND, cy);
    ProductFits(x, f, y, f);
  }

  /** Without saturation, going to nanoseconds and back never gains a tick, and loses none exactly when the
      nanoseconds dropped are worth less than a tick's share of a second; up to 1 GHz they always are. */
  lemma RoundTripIff(c: u64, f: u64)
    requires f != 0 && c * NANOS_PER_SECOND / f <= U64_MAX
    ensures NsToTicks(TicksToNs(c, f), f) <= c
    ensures NsToTicks(TicksToNs(c, f), f) == c <==> (c * NANOS_PER_SECOND) % f < NANOS_PER_SECOND
    ensures f <= NANOS_PER_SECOND ==> NsToTicks(TicksToNs(c, f), f) == c
  {
    var x := c * NANOS_PER_SECOND;
    DivBounds(x, f);
    assert x / f * f + x % f == x;
    CeilOfRemainder(c, NANOS_PER_SECOND, x / f * f, x % f);
    SmallRemainder(x, f);
  }

  lemma SmallRemainder(x: nat, f: nat)
    requires f > 0
    ensures x % f < f
  {
  }

  /** Of `c` whole units of `n`, all but `rest` round up to `c` units again exactly when `rest` is less than one. */
  lemma CeilOfRemainder(c: nat, n: nat, part: nat, rest: nat)
    requires n > 0 && part + rest == c * n
    ensures CeilDiv(part, n) <= c && (CeilDiv(part, n) == c <==> rest < n)
  {
    CeilAtMost(part, n, c);
    if c > 0 {
      CeilAtMost(part, n, c - 1);
      assert (c - 1) * n == c * n - n;
    }
  }

  /** The reported resolution is never zero, and up to 2 GHz it is the true period rounded to the nearest whole
      nanosecond: `r * f` differs from a second by at most half of `f`. */
  lemma ResolutionIsNearest(f: u64)
    requires f != 0
    ensures ResolutionNs(f) >= 1
    ensures f <= 2 * NANOS_PER_SECOND ==>
      && 2 * NANOS_PER_SECOND - f <= 2 * (ResolutionNs(f) * f) <= 2 * NANOS_PER_SECOND + f
    ensures ResolutionNs(f) > 1 ==> f < 2 * NANOS_PER_SECOND
  {
    var sum := NANOS_PER_SECOND + f / 2;
    DivBounds(sum, f);
    FloorAtLeast(sum, f, 1);
    FloorAtLeast(sum, f, 2);
  }

  // ----- the comparator over time ---------------------------------------------------------------------------

  /** Does the armed comparator hold when the counter stands at `count`? */
  predicate Fires(count: u64, comparator: u64) {
    count >= comparator
  }

  /** Arm a deadline and let the counter run: it first fires at the first count whose time has reached the deadline. */
  lemma FiresAtFirstReachingTick(d: u64, f: u64, first: u64)
    requires f != 0 && CeilDiv(d * f, NANOS_PER_SECOND) <= U64_MAX
    ensures (Fires(first, NsToTicks(d, f)) && forall c: u64 | c < first :: !Fires(c, NsToTicks(d, f)))
      <==> (TicksToNs(first, f) >= d && forall c: u64 | c < first :: TicksToNs(c, f) < d)
  {
    forall c: u64 ensures Fires(c, NsToTicks(d, f)) <==> TicksToNs(c, f) >= d {
      DeadlineIsExactIff(c, d, f);
    }
  }
}
