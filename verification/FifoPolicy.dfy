/** The interval after which the sensor FIFO is read even without an interrupt,
    in 32-bit unsigned arithmetic. */
module FifoPolicy {
  const WORD: nat := 0x1_0000_0000
  const AXES: nat := 3
  const CAPACITY: nat := 96

  function CeilDiv(numerator: nat, denominator: nat): nat
    requires denominator > 0
  {
    ((numerator + denominator - 1) % WORD) / denominator
  }

  /** The output rate in force: zero stands for 250 Hz. */
  function Rate(odrHz: nat): nat { if odrHz == 0 then 250 else odrHz }

  function Watermark(entries: nat): (w: nat)
    ensures AXES <= w <= CAPACITY
  {
    if entries < AXES then AXES else if entries > CAPACITY then CAPACITY else entries
  }

  function EntriesPerSecond(odrHz: nat): nat { Rate(odrHz) * AXES % WORD }

  lemma EntriesPositive(odrHz: nat)
    requires odrHz < WORD
    ensures EntriesPerSecond(odrHz) > 0
  {
  }

  function FallbackIntervalMs(odrHz: nat, watermarkEntries: nat): nat
    requires odrHz < WORD
  {
    EntriesPositive(odrHz);
    var e := EntriesPerSecond(odrHz);
    var watermarkMs := CeilDiv(Watermark(watermarkEntries) * 1000 % WORD, e);
    Bounded((watermarkMs + watermarkMs / 4 + 1) % WORD, FullMs(e))
  }

  function FullMs(entriesPerSecond: nat): nat
    requires entriesPerSecond > 0
  {
    CeilDiv(CAPACITY * 1000 % WORD, entriesPerSecond)
  }

  /** At least one, and two short of the time to fill where that leaves one. */
  function Bounded(wanted: nat, fullMs: nat): (interval: nat)
    ensures 1 <= interval <= (if fullMs > 2 then fullMs - 2 else 1)
  {
    var latest := if fullMs > 2 then fullMs - 2 else 1;
    var interval := if wanted > latest then latest else wanted;
    if interval == 0 then 1 else interval
  }

  lemma CeilBelow(n: nat, d: nat, c: nat)
    requires d > 0 && c == (n + d - 1) / d
    ensures c * d < n + d
  {
    assert c * d <= n + d - 1;
  }

  lemma Scaled(a: nat, b: nat, e: nat)
    requires a <= b
    ensures a * e <= b * e
  {
  }

  /** The FIFO cannot overflow within the interval if and only if the rate is at
      most 32 kHz. */
  lemma DeadlineIff(odrHz: nat, watermarkEntries: nat)
    requires odrHz < WORD
    ensures FallbackIntervalMs(odrHz, watermarkEntries) >= 1
    ensures FallbackIntervalMs(odrHz, watermarkEntries) * (Rate(odrHz) * AXES) <= CAPACITY * 1000
            <==> Rate(odrHz) <= 32000
  {
    EntriesPositive(odrHz);
    var i, r := FallbackIntervalMs(odrHz, watermarkEntries), Rate(odrHz);
    if r <= 32000 {
      Slack(odrHz, watermarkEntries);
    } else {
      Scaled(1, i, r * AXES);
    }
  }

  /** Up to 32 kHz nothing wraps around, and whenever the FIFO takes more than two
      milliseconds to fill, more than one of them is left after the interval. */
  lemma Slack(odrHz: nat, watermarkEntries: nat)
    requires odrHz <= 32000
    ensures var e, i := Rate(odrHz) * AXES, FallbackIntervalMs(odrHz, watermarkEntries);
            && EntriesPerSecond(odrHz) == e && CAPACITY * 1000 + e - 1 < WORD
            && i * e <= CAPACITY * 1000
            && (CAPACITY * 1000 > 2 * e ==> (i + 1) * e < CAPACITY * 1000)
  {
    NoWrap(odrHz);
    IntervalBound(odrHz, watermarkEntries);
    Room(FallbackIntervalMs(odrHz, watermarkEntries), FullMs(EntriesPerSecond(odrHz)), Rate(odrHz) * AXES,
         CAPACITY * 1000);
  }

  lemma IntervalBound(odrHz: nat, watermarkEntries: nat)
    requires odrHz < WORD
    ensures EntriesPerSecond(odrHz) > 0
    ensures var full := FullMs(EntriesPerSecond(odrHz));
            1 <= FallbackIntervalMs(odrHz, watermarkEntries) <= (if full > 2 then full - 2 else 1)
  {
    EntriesPositive(odrHz);
  }

  lemma NoWrap(odrHz: nat)
    requires odrHz <= 32000
    ensures var e := Rate(odrHz) * AXES;
            && 0 < EntriesPerSecond(odrHz) == e <= CAPACITY * 1000 && CAPACITY * 1000 + e - 1 < WORD
            && CAPACITY * 1000 <= FullMs(e) * e < CAPACITY * 1000 + e
  {
    var e := Rate(odrHz) * AXES;
    CeilBelow(CAPACITY * 1000, e, FullMs(e));
    CeilAbove(CAPACITY * 1000, e, FullMs(e));
  }

  lemma Room(i: nat, full: nat, e: nat, n: nat)
    requires 1 <= i <= (if full > 2 then full - 2 else 1) && n <= full * e < n + e && e <= n
    ensures i * e <= n && (n > 2 * e ==> (i + 1) * e < n)
  {
    if full > 2 {
      Scaled(i + 1, full - 1, e);
      assert (full - 1) * e == full * e - e;
      assert (i + 1) * e == i * e + e;
    } else {
      Scaled(full, 2, e);
    }
  }

  lemma CeilAbove(n: nat, d: nat, c: nat)
    requires d > 0 && c == (n + d - 1) / d
    ensures n <= c * d
  {
    assert n + d - 1 < (c + 1) * d;
    assert (c + 1) * d == c * d + d;
  }

  lemma CeilIs(n: nat, d: nat, c: nat)
    requires d > 0 && 0 < n && n + d - 1 < WORD && (c - 1) * d < n <= c * d
    ensures CeilDiv(n, d) == c
  {
    var q := (n + d - 1) / d;
    CeilAbove(n, d, q);
    CeilBelow(n, d, q);
    assert (c - 1) * d == c * d - d && (q - 1) * d == q * d - d;
    if q < c {
      Scaled(q, c - 1, d);
    } else if c < q {
      Scaled(c, q - 1, d);
    }
  }

  /** Up to 32 kHz: a quarter more than the milliseconds to reach the watermark, and
      one more, but no later than two before the FIFO is full. The rate 0 stands for
      250 Hz, and the watermark counts as at least 3 and at most 96 entries. */
  lemma IntervalIs(odrHz: nat, watermarkEntries: nat, e: nat, w: nat, reached: nat, full: nat)
    requires odrHz <= 32000 && e == 3 * (if odrHz == 0 then 250 else odrHz)
    requires w == if watermarkEntries < 3 then 3 else if watermarkEntries > 96 then 96 else watermarkEntries
    requires (reached - 1) * e < w * 1000 <= reached * e
    requires (full - 1) * e < 96000 <= full * e
    ensures var wanted, latest := reached + reached / 4 + 1, if full > 2 then full - 2 else 1;
            FallbackIntervalMs(odrHz, watermarkEntries) == if wanted > latest then latest else wanted
  {
    NoWrap(odrHz);
    Reaches(w * 1000, e, reached);
    Reaches(96000, e, full);
    IntervalOf(odrHz, watermarkEntries, e, w, reached, full);
  }

  lemma Reaches(n: nat, e: nat, c: nat)
    requires 0 < e <= 96000 && 0 < n <= 96000 && (c - 1) * e < n <= c * e
    ensures CeilDiv(n % WORD, e) == c <= n
  {
    Small(n);
    CeilIs(n, e, c);
    CeilAtMost(n, e, c);
  }

  lemma IntervalOf(odrHz: nat, watermarkEntries: nat, e: nat, w: nat, reached: nat, full: nat)
    requires odrHz < WORD && e == EntriesPerSecond(odrHz) > 0 && w == Watermark(watermarkEntries)
    requires reached == CeilDiv(w * 1000 % WORD, e) <= 96000 && full == FullMs(e)
    ensures FallbackIntervalMs(odrHz, watermarkEntries) == Limited(reached + reached / 4 + 1, full)
  {
    Small(reached + reached / 4 + 1);
    LimitedIs(reached + reached / 4 + 1, full);
  }

  function Limited(wanted: nat, full: nat): nat {
    var latest := if full > 2 then full - 2 else 1;
    if wanted > latest then latest else wanted
  }

  lemma Small(n: nat)
    requires n < WORD
    ensures n % WORD == n
  {
  }

  lemma LimitedIs(wanted: nat, full: nat)
    requires wanted > 0
    ensures Bounded(wanted, full) == Limited(wanted, full)
  {
  }

  lemma CeilAtMost(n: nat, d: nat, c: nat)
    requires d > 0 && (c - 1) * d < n
    ensures c <= n
  {
    if c > 0 {
      Scaled(1, d, c - 1);
      assert d * (c - 1) == (c - 1) * d;
    }
  }

  lemma CeilExists(n: nat, d: nat) returns (c: nat)
    requires d > 0
    ensures (c - 1) * d < n <= c * d
  {
    c := (n + d - 1) / d;
    CeilAbove(n, d, c);
    CeilBelow(n, d, c);
    assert (c - 1) * d == c * d - d;
  }

  /** The read does not come before the interrupt could: by then the watermark is
      passed, or the FIFO is within two milliseconds of being full, or it is the
      shortest interval. */
  lemma WatermarkFirst(odrHz: nat, watermarkEntries: nat)
    requires odrHz <= 32000
    ensures var e, i := 3 * (if odrHz == 0 then 250 else odrHz), FallbackIntervalMs(odrHz, watermarkEntries);
            var w := if watermarkEntries < 3 then 3 else if watermarkEntries > 96 then 96 else watermarkEntries;
            i * e > w * 1000 || (i + 2) * e >= 96000 || i == 1
  {
    var e := 3 * (if odrHz == 0 then 250 else odrHz);
    var w := if watermarkEntries < 3 then 3 else if watermarkEntries > 96 then 96 else watermarkEntries;
    var reached := CeilExists(w * 1000, e);
    var full := CeilExists(96000, e);
    IntervalIs(odrHz, watermarkEntries, e, w, reached, full);
    var i := FallbackIntervalMs(odrHz, watermarkEntries);
    if i == reached + reached / 4 + 1 {
      Scaled(reached + 1, i, e);
      assert (reached + 1) * e == reached * e + e;
    }
  }
}
