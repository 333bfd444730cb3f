/** The backpressure valve. */
module Gates {
  import opened Errors

  class Gate {
    const highPct: nat
    const lowPct: nat
    var closed: bool
    var closes: nat
    var opens: nat
    var rejects: nat
    /** How often forceOpen found the gate closed. */
    ghost var forcedOpen: nat

    /** Every closing but the one in force was undone by an opening or by force. */
    ghost predicate Valid()
      reads this
    {
      && lowPct < highPct <= 100
      && closes == opens + forcedOpen + if closed then 1 else 0
    }

    /** A gate with sound marks starts out open. */
    constructor (highPct: nat, lowPct: nat)
      requires lowPct < highPct <= 100
      ensures Valid() && this.highPct == highPct && this.lowPct == lowPct
      ensures !closed && closes == opens == rejects == 0
    {
      this.highPct, this.lowPct := highPct, lowPct;
      closed, closes, opens, rejects, forcedOpen := false, 0, 0, 0, 0;
    }

    /** initGate. */
    static method Init(highPct: nat, lowPct: nat) returns (res: Result<Gate>)
      ensures res.Ok? <==> lowPct < highPct <= 100
      ensures res.Err? ==> res.error == ErrConfig
      ensures res.Ok? ==> var g := res.value;
        && fresh(g) && g.Valid() && !g.closed && g.closes == g.opens == g.rejects == 0
        && g.highPct == highPct && g.lowPct == lowPct
    {
      if highPct == 0 || highPct > 100 || lowPct >= highPct {
        return Err(ErrConfig);
      }
      var g := new Gate(highPct, lowPct);
      return Ok(g);
    }

    /** shut: latches the gate closed, and counts the transition only if there was one. */
    method Shut() returns (did: bool)
      requires Valid()
      modifies this`closed, this`closes
      ensures Valid() && closed && did == !old(closed)
      ensures closes == old(closes) + if did then 1 else 0
    {
      if !closed {
        closed := true;
        closes := closes + 1;
        return true;
      }
      return false;
    }

    /** release: reopens the gate, and counts the transition only if there was one. */
    method Release() returns (did: bool)
      requires Valid()
      modifies this`closed, this`opens
      ensures Valid() && !closed && did == old(closed)
    {
      if closed {
        closed := false;
        opens := opens + 1;
        return true;
      }
      return false;
    }

    /** forceOpen: opens without counting. */
    method ForceOpen()
      requires Valid()
      modifies this`closed, this`forcedOpen
      ensures Valid() && !closed
    {
      if closed {
        forcedOpen := forcedOpen + 1;
      }
      closed := false;
    }

    method Reject()
      modifies this`rejects
      ensures rejects == old(rejects) + 1
    {
      rejects := rejects + 1;
    }
  }
}
