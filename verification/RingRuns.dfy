/** Runs of the ring put together. */
module RingRuns {
  import opened RingMachine

  lemma {:induction false} RingConcat(r: Ring, a: seq<Action>, b: seq<Action>)
    requires Runs(r, a) && Runs(Exec(r, a), b)
    ensures Runs(r, a + b) && Exec(r, a + b) == Exec(Exec(r, a), b)
    decreases |a|
  {
    hide Apply;
    hide Enabled;
    if |a| == 0 {
      assert a + b == b;
    } else {
      assert (a + b)[1..] == a[1..] + b;
      RingConcat(Apply(r, a[0]), a[1..], b);
    }
  }

  lemma RingNone(r: Ring)
    ensures Runs(r, []) && Exec(r, []) == r
  {
  }

  lemma RingOne(r: Ring, a: Action)
    requires Enabled(r, a)
    ensures Runs(r, [a]) && Exec(r, [a]) == Apply(r, a)
  {
    hide Apply;
    hide Enabled;
    RingNone(Apply(r, a));
  }

  lemma RingTwo(r: Ring, a: Action, b: Action)
    requires Enabled(r, a) && Enabled(Apply(r, a), b)
    ensures Runs(r, [a, b])
    ensures Exec(r, [a, b]) == Apply(Apply(r, a), b)
  {
    hide Apply;
    hide Enabled;
    RingOne(r, a);
    RingOne(Apply(r, a), b);
    RingConcat(r, [a], [b]);
    assert [a] + [b] == [a, b];
  }
}
