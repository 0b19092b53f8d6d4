/** What the bit timing calculation promises. */
module BitTheorems {
  import opened Frames
  import opened Division
  import opened SamplePoint
  import opened BitSearch
  import opened BitTiming

  // ------------------------------------------------------------ prescaler search

  /** |a - b|, over the integers. */
  function Dist(a: nat, b: nat): nat {
    if a < b then b - a else a - b
  }

  /** Within the no-overflow bounds the unsigned error is the true one. */
  lemma RateErrorMeaning(r: Request, brp: nat, total: nat)
    requires NoOverflow(r) && brp > 0 && total > 0
    ensures RateError(r, brp, total) == Dist(r.bitrate, RateOf(r.freq, brp, total))
  {
    RateAtMostClock(r.freq, brp, total);
    assert r.bitrate < 0x8000_0000 by {
      MulMonotone(2, 1 + r.l.tseg1Max + r.l.tseg2Max, r.bitrate);
    }
  }

  lemma RateAtMostClock(freq: nat, brp: nat, total: nat)
    requires brp > 0 && total > 0
    ensures RateOf(freq, brp, total) <= freq
  {
    PosMul(brp, total);
    MulMonotone(1, brp * total, freq);
    QuotAtMost(freq, brp * total, freq);
  }

  /** The actual rate is at least `b` exactly when the product of all three fits into the clock. */
  lemma RateAtLeast(freq: nat, brp: nat, total: nat, b: nat)
    requires brp > 0 && total > 0 && b > 0
    ensures RateOf(freq, brp, total) >= b <==> brp * (total * b) <= freq
  {
    PosMul(brp, total);
    QuotAtMost(freq, brp * total, b - 1);
    assert (b - 1) * (brp * total) + brp * total == brp * (total * b);
  }

  lemma RateFalls(freq: nat, a: nat, b: nat, total: nat)
    requires 0 < a <= b && total > 0
    ensures RateOf(freq, b, total) <= RateOf(freq, a, total)
  {
    PosMul(a, total);
    MulMonotone(a, b, total);
    QuotAntitone(freq, a * total, b * total);
  }

  /** Of two prescalers that both overshoot or both undershoot, the one closer to the quotient wins. */
  lemma CloserPrescaler(r: Request, q: nat, brp: nat, total: nat)
    requires NoOverflow(r) && total > 0 && brp > 0 && q == RateOf(r.freq, total, r.bitrate)
    ensures brp <= q ==> RateError(r, q, total) <= RateError(r, brp, total)
    ensures q < brp ==> RateError(r, q + 1, total) <= RateError(r, brp, total)
  {
    PosMul(total, r.bitrate);
    var p := total * r.bitrate;
    assert q * p <= r.freq < (q + 1) * p;
    RateErrorMeaning(r, brp, total);
    if brp <= q {
      RateErrorMeaning(r, q, total);
      RateFalls(r.freq, brp, q, total);
      RateAtLeast(r.freq, q, total, r.bitrate);
    } else {
      RateErrorMeaning(r, q + 1, total);
      RateFalls(r.freq, q + 1, brp, total);
      RateAtLeast(r.freq, q + 1, total, r.bitrate);
    }
  }

  /** The prescaler tried is the ideal one, rounded down or up, and then down to a multiple of the step. */
  lemma PrescalerStep(r: Request, x: nat)
    requires NoOverflow(r)
    ensures var ideal := RateOf(r.freq, Total(x), r.bitrate) + x % 2;
            && BrpAt(r, x) <= ideal < BrpAt(r, x) + r.l.brpInc
            && exists k: nat :: BrpAt(r, x) == k * r.l.brpInc
  {
  }

  /** Sum `tseg` of segments is one the search looks at. */
  predicate Searched(l: Limits, tseg: nat) {
    l.tseg1Min + l.tseg2Min <= tseg <= l.tseg1Max + l.tseg2Max
  }

  lemma NeighbourTried(r: Request, tseg: nat, up: nat)
    requires NoOverflow(r) && r.l.brpInc == 1 && Searched(r.l, tseg) && up <= 1
    ensures var x := 2 * tseg + up;
            Last(r) <= x <= First(r) && Total(x) == tseg + 1 && BrpAt(r, x) == RateOf(r.freq, tseg + 1, r.bitrate) + up
  {
    var x := 2 * tseg + up;
    var b := RateOf(r.freq, Total(x), r.bitrate) + x % 2;
    QuotUnique(b, 1, b);
  }

  /** One of the two prescalers tried for `tseg`, the ideal one rounded down or up, can be in range. */
  predicate IdealInRange(r: Request, tseg: nat)
    requires r.bitrate > 0
  {
    var q := RateOf(r.freq, tseg + 1, r.bitrate);
    r.l.brpMin <= q + 1 && q <= r.l.brpMax
  }

  /** For every number of quanta whose ideal prescaler is not beyond the range, one of the two
      prescalers tried is no worse than any other in range. */
  lemma PrescalerExact(r: Request, tseg: nat, brp: nat) returns (x: nat)
    requires NoOverflow(r) && r.l.brpInc == 1 && Searched(r.l, tseg) && InRange(r.l, brp) && IdealInRange(r, tseg)
    ensures Last(r) <= x <= First(r) && Tried(r, x) && x / 2 == tseg
    ensures RateErrorAt(r, x) <= RateError(r, brp, tseg + 1)
  {
    var q := RateOf(r.freq, tseg + 1, r.bitrate);
    CloserPrescaler(r, q, brp, tseg + 1);
    if brp <= q {
      NeighbourTried(r, tseg, 0);
      x := 2 * tseg;
    } else {
      NeighbourTried(r, tseg, 1);
      x := 2 * tseg + 1;
    }
  }

  /** The rate error found is minimal over all prescalers and all sums of segments whose ideal
      prescaler is not beyond the range. */
  lemma RateErrorMinimal(r: Request, tseg: nat, brp: nat)
    requires NoOverflow(r) && r.l.brpInc == 1 && Searched(r.l, tseg) && InRange(r.l, brp) && IdealInRange(r, tseg)
    ensures Result(r).rateError <= RateError(r, brp, tseg + 1)
  {
    var x := PrescalerExact(r, tseg, brp);
    ResultBeats(r, x);
  }

  lemma ResultBeats(r: Request, x: nat)
    requires NoOverflow(r) && Last(r) <= x <= First(r) && Tried(r, x)
    ensures Result(r).rateError <= RateErrorAt(r, x)
  {
    SearchFinds(r);
    var s := Result(r);
    var y: nat :| Chosen(r, s, y);
    ChosenBeats(r, s, y, x);
  }

  lemma ChosenBeats(r: Request, s: Search, y: nat, x: nat)
    requires NoOverflow(r) && Chosen(r, s, y) && Last(r) <= x <= First(r) && Tried(r, x)
    ensures s.rateError <= RateErrorAt(r, x)
  {
    assert NoWorse(r, y, x);
  }

  // ---------------------------------------------------------------- completeness

  /** A prescaler and a sum of segments that give the requested rate within 5.0%. */
  ghost predicate Within(r: Request, brp: nat, tseg: nat)
    requires r.bitrate > 0
  {
    && InRange(r.l, brp) && brp > 0 && Searched(r.l, tseg)
    && Dist(r.bitrate, RateOf(r.freq, brp, tseg + 1)) * 1000 < 51 * r.bitrate
  }

  /** A candidate is never off by more than the rate itself, so the 32-bit cut is harmless. */
  lemma TriedErrorSmall(r: Request, x: nat)
    requires NoOverflow(r) && x <= First(r) && Tried(r, x)
    ensures RateErrorAt(r, x) <= r.bitrate
  {
    var total, brp := Total(x), BrpAt(r, x);
    var q := RateOf(r.freq, total, r.bitrate);
    RoundDown(q + x % 2, r.l.brpInc);
    DoubleRate(r.freq, brp, total, r.bitrate, q);
    RateErrorMeaning(r, brp, total);
  }

  lemma RoundDown(b: nat, inc: nat)
    requires inc > 0 && Quot(b, inc) * inc > 0
    ensures b + 1 <= 2 * (Quot(b, inc) * inc)
  {
    var k := Quot(b, inc);
    assert k > 0;
    MulMonotone(1, k, inc);
  }

  lemma DoubleRate(freq: nat, brp: nat, total: nat, b: nat, q: nat)
    requires brp > 0 && total > 0 && b > 0 && q == RateOf(freq, total, b) && q + 1 <= 2 * brp
    ensures RateOf(freq, brp, total) < 2 * b
  {
    PosMul(total, b);
    DoubleProduct(freq, brp, total * b, q);
    TwiceInside(total, b);
    RateAtLeast(freq, brp, total, 2 * b);
  }

  lemma DoubleProduct(freq: nat, brp: nat, p: nat, q: nat)
    requires freq < q * p + p && q + 1 <= 2 * brp
    ensures freq < brp * (2 * p)
  {
    MulMonotone(q + 1, 2 * brp, p);
    TwiceInside(brp, p);
    assert q * p + p == (q + 1) * p;
    assert (2 * brp) * p == 2 * (brp * p);
  }

  lemma TwiceInside(a: nat, b: nat)
    ensures a * (2 * b) == 2 * (a * b)
  {
  }

  lemma NotTooFar(error: nat, bitrate: nat)
    requires 0 < bitrate && error <= bitrate
    ensures TooFar(error, bitrate) <==> error * 1000 >= 51 * bitrate
  {
    QuotAtMost(error * 1000, bitrate, 50);
    QuotAtMost(error * 1000, bitrate, 1000);
  }

  /** Below the range of ideal prescalers the rate is too far off anyway. */
  lemma BeyondRange(r: Request, brp: nat, tseg: nat)
    requires NoOverflow(r) && InRange(r.l, brp) && r.l.brpMax <= 10 && r.l.brpMax <= r.bitrate
    requires RateOf(r.freq, tseg + 1, r.bitrate) > r.l.brpMax
    ensures Dist(r.bitrate, RateOf(r.freq, brp, tseg + 1)) * 1000 >= 51 * r.bitrate
  {
    var b, m, total := r.bitrate, r.l.brpMax, tseg + 1;
    var f := Quot(b, m);
    QuotAtMost(b, m, 0);
    assert f * m <= b < f * m + m;
    PosMul(total, b);
    MulMonotone(m + 1, RateOf(r.freq, total, b), total * b);
    assert (m + 1) * (total * b) <= r.freq;
    ScaledRate(m, total, b, f);
    RateAtLeast(r.freq, m, total, b + f);
    RateFalls(r.freq, brp, m, total);
    assert 51 * b <= 1000 * f by { ShareOfRate(b, m, f); }
  }

  lemma ScaledRate(m: nat, total: nat, b: nat, f: nat)
    requires f * m <= b
    ensures m * (total * (b + f)) <= (m + 1) * (total * b)
  {
    assert m * (total * (b + f)) == m * (total * b) + total * (f * m);
    MulMonotone(f * m, b, total);
    assert (m + 1) * (total * b) == m * (total * b) + total * b;
  }

  lemma ShareOfRate(b: nat, m: nat, f: nat)
    requires 1 <= m <= 10 && f >= 1 && b < f * m + m
    ensures 51 * b <= 1000 * f
  {
    if m == 1 {} else if m == 2 {} else if m == 3 {} else if m == 4 {} else if m == 5 {}
    else if m == 6 {} else if m == 7 {} else if m == 8 {} else if m == 9 {} else {}
  }

  /** For all limits: the calculation succeeds exactly when some candidate is within 5.0%. */
  lemma CalcCandidates(freq: nat, l: Limits, t: Timing)
    requires NoOverflow(RequestOf(freq, l, t))
    ensures CalcTiming(freq, l, t).Some? <==> exists x: nat :: Close(RequestOf(freq, l, t), x)
  {
    var r := RequestOf(freq, l, t);
    if CalcTiming(freq, l, t).Some? {
      var y := ResultChosen(r);
      ChosenClose(r, Result(r), y);
    }
    forall x: nat | Close(r, x) ensures CalcTiming(freq, l, t).Some? {
      CloseFound(r, x);
    }
  }

  /** Loop value `x` is a candidate within 5.0%. */
  ghost predicate Close(r: Request, x: nat)
    requires NoOverflow(r)
  {
    Last(r) <= x <= First(r) && Tried(r, x) && RateErrorAt(r, x) * 1000 < 51 * r.bitrate
  }

  lemma ChosenClose(r: Request, s: Search, y: nat)
    requires NoOverflow(r) && Chosen(r, s, y) && !TooFar(s.rateError, r.bitrate)
    ensures Close(r, y)
  {
    TriedErrorSmall(r, y);
    NotTooFar(s.rateError, r.bitrate);
  }

  lemma CloseFound(r: Request, x: nat)
    requires NoOverflow(r) && Close(r, x)
    ensures !TooFar(Result(r).rateError, r.bitrate)
  {
    ResultBeats(r, x);
    NotTooFar(Result(r).rateError, r.bitrate);
  }

  /** With a prescaler step of 1: the calculation succeeds exactly when some prescaler and sum of
      segments within the limits give the requested rate within 5.0%, counting only sums of segments
      whose ideal prescaler is not beyond the range. */
  lemma CalcExact(freq: nat, l: Limits, t: Timing)
    requires NoOverflow(RequestOf(freq, l, t)) && l.brpInc == 1
    ensures CalcTiming(freq, l, t).Some? <==> exists brp: nat, tseg: nat :: Reachable(RequestOf(freq, l, t), brp, tseg)
  {
    var r := RequestOf(freq, l, t);
    if CalcTiming(freq, l, t).Some? {
      ResultReachable(r);
    }
    forall brp: nat, tseg: nat | Reachable(r, brp, tseg) ensures CalcTiming(freq, l, t).Some? {
      ReachableFound(r, brp, tseg);
    }
  }

  ghost predicate Reachable(r: Request, brp: nat, tseg: nat)
    requires r.bitrate > 0
  {
    Within(r, brp, tseg) && IdealInRange(r, tseg)
  }

  lemma ResultReachable(r: Request)
    requires NoOverflow(r) && r.l.brpInc == 1 && !TooFar(Result(r).rateError, r.bitrate)
    ensures Reachable(r, Result(r).brp, Result(r).tseg)
  {
    ResultWithin(r);
    var y := ResultChosen(r);
    ChosenInRange(r, Result(r), y);
  }

  lemma ChosenInRange(r: Request, s: Search, y: nat)
    requires NoOverflow(r) && r.l.brpInc == 1 && Chosen(r, s, y)
    ensures IdealInRange(r, s.tseg)
  {
    NeighbourTried(r, y / 2, y % 2);
  }

  lemma ReachableFound(r: Request, brp: nat, tseg: nat)
    requires NoOverflow(r) && r.l.brpInc == 1 && Reachable(r, brp, tseg)
    ensures !TooFar(Result(r).rateError, r.bitrate)
  {
    RateErrorMeaning(r, brp, tseg + 1);
    RateErrorMinimal(r, tseg, brp);
    NotTooFar(Result(r).rateError, r.bitrate);
  }

  /** Up to 10 prescalers, as in the shipped limits, the ideal prescaler need not be looked at. */
  lemma CalcComplete(freq: nat, l: Limits, t: Timing)
    requires NoOverflow(RequestOf(freq, l, t)) && l.brpMin == 1 && l.brpInc == 1
    requires l.brpMax <= 10 && l.brpMax <= t.bitrate
    ensures CalcTiming(freq, l, t).Some? <==> exists brp: nat, tseg: nat :: Within(RequestOf(freq, l, t), brp, tseg)
  {
    var r := RequestOf(freq, l, t);
    CalcExact(freq, l, t);
    forall brp: nat, tseg: nat | Within(r, brp, tseg) ensures Reachable(r, brp, tseg) {
      if RateOf(r.freq, tseg + 1, r.bitrate) > r.l.brpMax {
        BeyondRange(r, brp, tseg);
      }
    }
    if CalcTiming(freq, l, t).Some? {
      ResultWithin(r);
    }
  }

  lemma ResultWithin(r: Request)
    requires NoOverflow(r) && !TooFar(Result(r).rateError, r.bitrate)
    ensures Result(r).brp > 0 && Within(r, Result(r).brp, Result(r).tseg)
  {
    var y := ResultChosen(r);
    ResultUsable(r);
    ChosenWithin(r, Result(r), y);
  }

  lemma ResultChosen(r: Request) returns (y: nat)
    requires NoOverflow(r) && !TooFar(Result(r).rateError, r.bitrate)
    ensures Chosen(r, Result(r), y)
  {
    SearchFinds(r);
    ResultUsable(r);
    y :| Chosen(r, Result(r), y);
  }

  lemma ChosenWithin(r: Request, s: Search, y: nat)
    requires NoOverflow(r) && Chosen(r, s, y) && s.brp > 0 && InRange(r.l, s.brp) && Searched(r.l, s.tseg)
    requires !TooFar(s.rateError, r.bitrate)
    ensures Within(r, s.brp, s.tseg)
  {
    ChosenError(r, s, y);
    NotTooFar(s.rateError, r.bitrate);
  }

  lemma ChosenError(r: Request, s: Search, y: nat)
    requires NoOverflow(r) && Chosen(r, s, y) && s.brp > 0
    ensures s.rateError <= r.bitrate && s.rateError == Dist(r.bitrate, RateOf(r.freq, s.brp, s.tseg + 1))
  {
    TriedErrorSmall(r, y);
    RateErrorMeaning(r, s.brp, s.tseg + 1);
  }
}
