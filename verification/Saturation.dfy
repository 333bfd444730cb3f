/** The engine-wide saturation counter and gate over the shards' latches, for operations that run one at a time. */
module Saturation {
  import opened Bits
  import opened Hysteresis
  import opened Sums

  const HotOf: Latch -> int := (l: Latch) => if l.hot then 1 else 0
  const HeatsOf: Latch -> int := (l: Latch) => l.heats

  /** The counter, the gate with its closings, and whether Close has not yet run. */
  datatype Valve = Valve(saturated: nat, closed: bool, closes: nat, running: bool)

  datatype Limits = Limits(high: nat, low: nat, capacity: nat)

  /**
   The counter counts the hot shards; until Close the gate is closed exactly if it is not zero; the gate has not
   closed more often than shards have latched hot; every latch is paced, and every shard but possibly k is hot or
   below the mark.
   */
  ghost predicate SteadyBut(states: seq<Latch>, v: Valve, m: Limits, k: int) {
    && 0 < m.capacity && |states| < TWO63
    && v.saturated == Sum(states, HotOf)
    && (v.running ==> (v.closed <==> v.saturated > 0))
    && v.closes <= Sum(states, HeatsOf)
    && forall i :: 0 <= i < |states| ==>
      Paced(states[i], m.high, m.low, m.capacity) && (i == k || states[i].hot || Below(states[i], m.high, m.capacity))
  }

  ghost predicate Steady(states: seq<Latch>, v: Valve, m: Limits) { SteadyBut(states, v, m, -1) }

  /** markSaturated on shard k, and shut. */
  function Heated(l: Latch): Latch { if l.hot then l else l.(hot := true, heats := l.heats + 1) }

  function Shut(v: Valve, was: bool): Valve {
    if was then v
    else Valve(Word64(v.saturated + 1), true, if v.closed then v.closes else v.closes + 1, v.running)
  }

  lemma HeatSteady(states: seq<Latch>, v: Valve, m: Limits, k: nat)
    requires k < |states| && SteadyBut(states, v, m, k) && !Below(states[k], m.high, m.capacity)
    ensures Steady(states[k := Heated(states[k])], Shut(v, states[k].hot), m)
  {
    hide Paced;
    hide Below;
    hide Sum;
    SumUpdate(states, k, Heated(states[k]), HotOf);
    SumUpdate(states, k, Heated(states[k]), HeatsOf);
    SumBounds(states, HotOf);
    if !states[k].hot {
      HeatPaced(states[k], m.high, m.low, m.capacity);
    }
  }

  /** markDrained on shard k: it clears the latch if the shard has come down to the low mark. */
  predicate Cools(l: Latch, m: Limits)
    requires 0 < m.capacity && l.consumed <= l.ingested
  {
    l.hot && Percent(l.Pending(), m.capacity) <= m.low
  }

  function Cooled(l: Latch): Latch { l.(hot := false, cools := l.cools + 1) }

  function Released(v: Valve): Valve {
    var left := Word64(v.saturated - 1);
    v.(saturated := left, closed := v.closed && left != 0)
  }

  lemma CoolSteady(states: seq<Latch>, v: Valve, m: Limits, k: nat)
    requires k < |states| && Steady(states, v, m) && Cools(states[k], m)
    ensures Steady(states[k := Cooled(states[k])], Released(v), m)
  {
    hide Paced;
    hide Below;
    hide Sum;
    hide Percent;
    SumUpdate(states, k, Cooled(states[k]), HotOf);
    SumUpdate(states, k, Cooled(states[k]), HeatsOf);
    SumBounds(states, HotOf);
    CoolPaced(states[k], m.high, m.low, m.capacity);
    assert HotOf(states[k]) == 1;
  }

  /** Counting an ingested record on shard k: the shard may now be above the mark. */
  lemma IngestSteady(states: seq<Latch>, v: Valve, m: Limits, k: nat)
    requires k < |states| && Steady(states, v, m)
    ensures SteadyBut(states[k := states[k].(ingested := states[k].ingested + 1)], v, m, k)
  {
    var l := states[k].(ingested := states[k].ingested + 1);
    SumUpdate(states, k, l, HotOf);
    SumUpdate(states, k, l, HeatsOf);
    IngestPaced(states[k], m.high, m.low, m.capacity);
    hide Paced;
    hide Below;
    hide Sum;
  }

  /** Counting a consumed record on shard k. */
  lemma ConsumeSteady(states: seq<Latch>, v: Valve, m: Limits, k: nat)
    requires k < |states| && Steady(states, v, m) && states[k].consumed < states[k].ingested
    ensures Steady(states[k := states[k].(consumed := states[k].consumed + 1)], v, m)
  {
    var l := states[k].(consumed := states[k].consumed + 1);
    SumUpdate(states, k, l, HotOf);
    SumUpdate(states, k, l, HeatsOf);
    ConsumePaced(states[k], m.high, m.low, m.capacity);
    assert Below(states[k], m.high, m.capacity) ==> Below(l, m.high, m.capacity);
    hide Paced;
    hide Below;
    hide Sum;
  }

  lemma BelowSteady(states: seq<Latch>, v: Valve, m: Limits, k: nat)
    requires k < |states| && SteadyBut(states, v, m, k) && Below(states[k], m.high, m.capacity)
    ensures Steady(states, v, m)
  {
    hide Paced;
    hide Below;
    hide Sum;
  }

  lemma InitSteady(states: seq<Latch>, v: Valve, m: Limits)
    requires m.low < m.high && 0 < m.capacity && |states| < TWO63
    requires forall i :: 0 <= i < |states| ==> states[i] == Latch(false, 0, 0, 0, 0)
    requires v == Valve(0, false, 0, true)
    ensures Steady(states, v, m)
  {
    SumZero(states, HotOf);
    SumZero(states, HeatsOf);
    TimesMonotone(1, m.high, m.capacity);
  }

  // ----------------------------------------------------------------- what it means

  /** Until Close, the gate is closed exactly if some shard is hot. */
  lemma ClosedIffHot(states: seq<Latch>, v: Valve, m: Limits)
    requires Steady(states, v, m) && v.running
    ensures v.closed <==> v.saturated > 0
    ensures v.closed <==> exists i :: 0 <= i < |states| && states[i].hot
  {
    SumBounds(states, HotOf);
    if v.closed {
      var i :| 0 <= i < |states| && HotOf(states[i]) == 1;
      assert states[i].hot;
    } else {
      forall i | 0 <= i < |states| ensures !states[i].hot {
        assert HotOf(states[i]) <= Sum(states, HotOf);
      }
    }
  }

  /** Behind an open gate every shard has a free cell: the gate always trips before a ring fills. */
  lemma OpenMeansRoom(states: seq<Latch>, v: Valve, m: Limits, k: nat)
    requires Steady(states, v, m) && v.running && !v.closed && k < |states| && m.high <= 100
    ensures states[k].Pending() < m.capacity
  {
    ClosedIffHot(states, v, m);
    TimesMonotone(m.high, 100, m.capacity);
    assert Below(states[k], m.high, m.capacity);
  }

  /**
   The hysteresis bound: a shard that has cooled down k times, k at least 1, has consumed more than
   k * (high - low - 1) percent of its capacity; and the gate has closed at most once per hot episode of any shard.
   */
  lemma HysteresisBound(states: seq<Latch>, v: Valve, m: Limits)
    requires Steady(states, v, m)
    ensures forall i :: 0 <= i < |states| && states[i].cools >= 1 ==>
      states[i].cools * ((m.high - m.low - 1) * m.capacity) < 100 * states[i].consumed
    ensures forall i :: 0 <= i < |states| ==> states[i].heats == states[i].cools + if states[i].hot then 1 else 0
    ensures v.closes <= Sum(states, HeatsOf)
  {
    forall i | 0 <= i < |states| && states[i].cools >= 1
      ensures states[i].cools * ((m.high - m.low - 1) * m.capacity) < 100 * states[i].consumed
    {
      assert Paced(states[i], m.high, m.low, m.capacity);
    }
  }
}
