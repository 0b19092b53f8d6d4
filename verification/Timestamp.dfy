/** Reading a running 64-bit counter through two 32-bit registers. */
module Timestamp {

  const HALF: nat := 0x1_0000_0000

  function High(t: nat): nat {
    t / HALF
  }

  function Low(t: nat): nat {
    t % HALF
  }

  /** The counter at the four instants at which a register may be read never runs backwards. */
  predicate Running(t0: nat, t1: nat, t2: nat, t3: nat) {
    t0 <= t1 <= t2 <= t3 < HALF * HALF
  }

  /** The value put together from what is read at the four instants. */
  function Returned(t0: nat, t1: nat, t2: nat, t3: nat): nat {
    High(t2) * HALF + Low(if High(t0) != High(t2) then t3 else t1)
  }

  /** `ctucan_hw_read_timestamp`: a counter that passes at most 2^32 during the call is read as
      it was at the second or at the fourth of the call's own instants. */
  method ReadTimestamp(t0: nat, t1: nat, t2: nat, t3: nat) returns (r: nat)
    requires Running(t0, t1, t2, t3)
    ensures r == Returned(t0, t1, t2, t3)
    ensures t3 - t0 <= HALF ==> r == if High(t0) != High(t2) then t3 else t1
  {
    var high := High(t0);
    var low := Low(t1);
    var high2 := High(t2);
    if high != high2 {
      low := Low(t3);
    }
    r := high2 * HALF + low;
  }

  /** The value is the counter's at the instant of the low read exactly when the high word did not
      change between that read and the second read of the high word. */
  lemma AtomicExactly(t0: nat, t1: nat, t2: nat, t3: nat)
    requires Running(t0, t1, t2, t3)
    ensures Returned(t0, t1, t2, t3) == (if High(t0) != High(t2) then t3 else t1) <==>
              High(t0) == High(t2) || High(t2) == High(t3)
  {
    var t := if High(t0) != High(t2) then t3 else t1;
    assert t == High(t) * HALF + Low(t);
    if High(t0) == High(t2) {
      assert High(t0) <= High(t1) <= High(t2);
    }
  }

  /** The bound on the advance is sharp: one tick more, and the value returned is one the counter
      had at none of the four instants. */
  lemma BoundIsSharp()
    ensures var t0, t1, t2, t3 := HALF - 1, HALF - 1, HALF + 1, 2 * HALF;
            && Running(t0, t1, t2, t3) && t3 - t0 == HALF + 1
            && Returned(t0, t1, t2, t3) !in {t0, t1, t2, t3}
  {
  }
}
