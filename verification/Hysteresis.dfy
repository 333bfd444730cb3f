/**
 The hysteresis of one shard's saturation latch, as arithmetic on its counters: how far occupancy must travel between
 latching hot and cooling down.
 */
module Hysteresis {

  /** A shard's latch and counters; heats and cools count how often it latched hot and cleared. */
  datatype Latch = Latch(hot: bool, ingested: nat, consumed: nat, heats: nat, cools: nat) {
    function Pending(): int { ingested - consumed }
  }

  /** occupancyPct, as the thresholds see it: the percentage is rounded down. */
  function Percent(pending: nat, capacity: nat): nat
    requires 0 < capacity
  {
    pending * 100 / capacity
  }

  /** The least consumption, in hundredths, that k coolings take. */
  function Toll(k: nat, high: nat, low: nat, capacity: nat): nat
    requires low < high
  {
    k * ((high - low - 1) * capacity)
  }

  ghost predicate Below(l: Latch, high: nat, capacity: nat) { 100 * l.Pending() < high * capacity }

  /** What the latch guarantees at all times, except that a shard above the mark may be about to latch. */
  ghost predicate Paced(l: Latch, high: nat, low: nat, capacity: nat) {
    && low < high && l.consumed <= l.ingested
    && l.heats == l.cools + (if l.hot then 1 else 0)
    && Toll(l.cools, high, low, capacity) <= 100 * l.consumed
    && (l.cools > 0 ==> Toll(l.cools, high, low, capacity) < 100 * l.consumed)
    && (l.hot ==> high * capacity + Toll(l.cools, high, low, capacity) <= 100 * l.ingested)
  }

  lemma TimesMonotone(a: nat, b: nat, c: nat)
    requires a <= b
    ensures a * c <= b * c
  {
    assert b * c == a * c + (b - a) * c;
  }

  /** The rounded percentage reaches a mark exactly if the occupancy does. */
  lemma PercentAtLeast(pending: nat, capacity: nat, mark: nat)
    requires 0 < capacity
    ensures Percent(pending, capacity) >= mark <==> pending * 100 >= mark * capacity
  {
    var n := pending * 100;
    var q := n / capacity;
    Quotient(n, capacity);
    if q >= mark {
      TimesMonotone(mark, q, capacity);
    } else {
      TimesMonotone(q + 1, mark, capacity);
      assert (q + 1) * capacity == q * capacity + capacity;
    }
  }

  lemma Quotient(n: nat, d: nat)
    requires 0 < d
    ensures (n / d) * d <= n < (n / d) * d + d
  {
  }

  /** Latching hot at or above the high mark. */
  lemma HeatPaced(l: Latch, high: nat, low: nat, capacity: nat)
    requires Paced(l, high, low, capacity) && !l.hot && !Below(l, high, capacity)
    ensures Paced(l.(hot := true, heats := l.heats + 1), high, low, capacity)
  {
  }

  /** Clearing at or below the low mark: another (high - low - 1) percent of the capacity has been consumed. */
  lemma CoolPaced(l: Latch, high: nat, low: nat, capacity: nat)
    requires 0 < capacity && Paced(l, high, low, capacity) && l.hot && Percent(l.Pending(), capacity) <= low
    ensures Paced(l.(hot := false, cools := l.cools + 1), high, low, capacity)
    ensures Below(l.(hot := false, cools := l.cools + 1), high, capacity)
  {
    PercentAtLeast(l.Pending(), capacity, low + 1);
    var d := (high - low - 1) * capacity;
    assert d == high * capacity - (low + 1) * capacity;
    assert Toll(l.cools + 1, high, low, capacity) == l.cools * d + d;
    assert d >= 0;
  }

  lemma IngestPaced(l: Latch, high: nat, low: nat, capacity: nat)
    requires Paced(l, high, low, capacity)
    ensures Paced(l.(ingested := l.ingested + 1), high, low, capacity)
  {
  }

  lemma ConsumePaced(l: Latch, high: nat, low: nat, capacity: nat)
    requires Paced(l, high, low, capacity) && l.consumed < l.ingested
    ensures Paced(l.(consumed := l.consumed + 1), high, low, capacity)
  {
  }
}
