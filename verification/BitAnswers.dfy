/** What the calculation and the fix-up of a bit timing answer, field by field. */
module BitAnswers {
  import opened Frames
  import opened Division
  import opened SamplePoint
  import opened BitSearch
  import opened BitTiming
  import opened BitTheorems
  import opened BitResults

  // ---------------------------------------------------------------------- calculation

  /** A request without a sample point is answered as one that asks for the point recommended by CiA. */
  lemma Recommended(freq: nat, l: Limits, t: Timing)
    requires t.samplePoint == 0 && NoOverflow(RequestOf(freq, l, t))
    ensures t.bitrate > 800_000 ==> CalcTiming(freq, l, t) == CalcTiming(freq, l, t.(samplePoint := 750))
    ensures 500_000 < t.bitrate <= 800_000 ==> CalcTiming(freq, l, t) == CalcTiming(freq, l, t.(samplePoint := 800))
    ensures t.bitrate <= 500_000 ==> CalcTiming(freq, l, t) == CalcTiming(freq, l, t.(samplePoint := 875))
  {
    var p := if t.bitrate > 800_000 then 750 else if t.bitrate > 500_000 then 800 else 875;
    var u := t.(samplePoint := p);
    assert RequestOf(freq, l, u) == RequestOf(freq, l, t);
    SameAnswer(freq, l, t, u);
  }

  /** The answer depends on the request and on the sjw asked for alone. */
  lemma SameAnswer(freq: nat, l: Limits, t: Timing, u: Timing)
    requires NoOverflow(RequestOf(freq, l, t)) && RequestOf(freq, l, u) == RequestOf(freq, l, t) && u.sjw == t.sjw
    ensures CalcTiming(freq, l, u) == CalcTiming(freq, l, t)
  {
    hide Result, FinalSplit, TooFar, NoOverflow, RequestOf, Sjw;
  }

  /** A requested sample point is met from below as closely as the chosen number of quanta allows. */
  lemma Requested(freq: nat, l: Limits, t: Timing)
    requires t.samplePoint != 0 && NoOverflow(RequestOf(freq, l, t)) && Usable(l) && CalcTiming(freq, l, t).Some?
    requires Feasible(l, t.samplePoint, ChosenTseg(freq, l, t))
    ensures var c := CalcTiming(freq, l, t).value;
            && Closest(l, t.samplePoint, Quanta(c) - 1, c.phaseSeg2) && 0 < c.samplePoint <= t.samplePoint
            && c.samplePoint == PointOf(Quanta(c), c.phaseSeg2)
  {
    hide Feasible, Leftover, CalcTiming, PointOf;
    CalcValid(freq, l, t);
  }

  /** `sjw` is the greatest width not above `a`, `b` and `c`. */
  predicate GreatestUpTo(sjw: nat, a: nat, b: nat, c: nat) {
    sjw <= a && sjw <= b && sjw <= c && (sjw == a || sjw == b || sjw == c)
  }

  /** Of every successful calculation: the two parts of tseg1 differ by at most one; the jump width is the greatest
      one not above the request, its limit and phase segment 2, and 1 without a request; the bit rate is
      that of the segments; and the time quantum is that of the prescaler, rounded down. */
  lemma CalcDetails(freq: nat, l: Limits, t: Timing)
    requires NoOverflow(RequestOf(freq, l, t)) && CalcTiming(freq, l, t).Some?
    ensures var c := CalcTiming(freq, l, t).value;
            && c.propSeg <= c.phaseSeg1 <= c.propSeg + 1
            && (if t.sjw == 0 || l.sjwMax == 0 then c.sjw == 1 else GreatestUpTo(c.sjw, t.sjw, l.sjwMax, c.phaseSeg2))
            && c.brp > 0 && c.bitrate == RateOf(freq, c.brp, Quanta(c))
            && (c.brp * BILLION < U32 * freq ==> c.tq * freq <= c.brp * BILLION < c.tq * freq + freq)
  {
    hide Result, FinalSplit, TooFar;
    var r := RequestOf(freq, l, t);
    ResultUsable(r);
    DetailsOf(freq, l, t, Result(r).brp, FinalSplit(r));
  }

  lemma DetailsOf(freq: nat, l: Limits, t: Timing, brp: nat, b: Best)
    requires freq > 0 && brp > 0
    ensures var c := TimingFrom(freq, l, t, brp, b);
            && c.propSeg <= c.phaseSeg1 <= c.propSeg + 1
            && (if t.sjw == 0 || l.sjwMax == 0 then c.sjw == 1 else GreatestUpTo(c.sjw, t.sjw, l.sjwMax, c.phaseSeg2))
            && c.brp > 0 && c.bitrate == RateOf(freq, c.brp, Quanta(c))
            && (c.brp * BILLION < U32 * freq ==> c.tq * freq <= c.brp * BILLION < c.tq * freq + freq)
  {
    var c := TimingFrom(freq, l, t, brp, b);
    assert Quanta(c) == 1 + b.tseg1 + b.tseg2;
    if brp * BILLION < U32 * freq {
      QuantumFits(freq, brp, brp);
    }
  }

  // --------------------------------------------------------------------------- fix-up

  /** The step of the prescaler; a step of 0 counts as 1. */
  function Step(l: Limits): nat {
    if l.brpInc > 1 then l.brpInc else 1
  }

  /** `k` is the number nearest to x / 10^9; halves are rounded down. */
  predicate Nearest(x: nat, k: nat) {
    k * BILLION - 500_000_000 < x <= k * BILLION + 500_000_000
  }

  lemma NearestExists(x: nat) returns (k: nat)
    ensures Nearest(x, k) && forall j: nat :: Nearest(x, j) ==> j == k
  {
    k := (x + 499_999_999) / BILLION;
  }

  lemma PracticalIsNearest(freq: nat, tq: nat, l: Limits, k: nat)
    requires Nearest(Quot(freq * tq, Step(l)), k)
    ensures PracticalBrp(freq, tq, l.brpInc) == k * Step(l)
  {
    if l.brpInc > 1 {
      NearestIsRounded(Quot(freq * tq, l.brpInc), k);
    } else {
      QuotUnique(freq * tq, 1, freq * tq);
      NearestIsRounded(freq * tq, k);
    }
  }

  lemma NearestIsRounded(x: nat, k: nat)
    requires Nearest(x, k)
    ensures (x + 499_999_999) / BILLION == k
  {
  }

  /** The segments and the jump width, which is 1 if none is given, are within their limits. */
  predicate SegmentsOk(l: Limits, t: Timing) {
    && (if t.sjw == 0 then 1 else t.sjw) <= l.sjwMax
    && l.tseg1Min <= W(Tseg1(t)) <= l.tseg1Max && l.tseg2Min <= t.phaseSeg2 <= l.tseg2Max
  }

  /** What fix-up answers to every timing: -ERANGE exactly if the segments or the jump width are out of their limits;
      otherwise -EINVAL exactly if the prescaler nearest to the time quantum, cut to 32 bits, is out of
      range; otherwise 0, with that prescaler and with the bit rate and the sample point of the segments
      given. Nothing else changes, but that a missing jump width becomes 1. */
  lemma FixupExact(freq: nat, l: Limits, t: Timing, k: nat)
    requires 0 < freq < U32 && Fixable(l) && Nearest(Quot(freq * t.tq, Step(l)), k)
    ensures var (err, u) := FixTiming(freq, l, t);
            var brp, total := W(k * Step(l)), 1 + W(Tseg1(t)) + t.phaseSeg2;
            && (err == ERANGE <==> !SegmentsOk(l, t))
            && (err == EINVAL <==> SegmentsOk(l, t) && !InRange(l, brp))
            && (err == 0 <==> SegmentsOk(l, t) && InRange(l, brp))
            && u.sjw == (if t.sjw == 0 then 1 else t.sjw) && u.brp == (if err == ERANGE then t.brp else brp)
            && u == t.(sjw := u.sjw, brp := u.brp, bitrate := u.bitrate, samplePoint := u.samplePoint)
            && (if err == 0 then && brp > 0 && u.bitrate == RateOf(freq, brp, total)
                                 && u.samplePoint == PointOf(total, t.phaseSeg2)
                else u.bitrate == t.bitrate && u.samplePoint == t.samplePoint)
  {
    PracticalIsNearest(freq, t.tq, l, k);
    hide PracticalBrp, Nearest;
    assert 1000 * (1 + W(Tseg1(t))) == (W(Tseg1(t)) + 1) * 1000;
  }

  /** The cut to 32 bits is harmless for every clock up to 1 GHz. */
  lemma FixupNoCut(freq: nat, l: Limits, t: Timing, k: nat)
    requires 0 < freq <= BILLION && t.tq < U32 && Step(l) == 1 && Nearest(freq * t.tq, k)
    ensures W(k * Step(l)) == k
  {
    MulMonotone(freq, BILLION, t.tq);
  }

  /** Beyond, it is not: at 4294967293 Hz fix-up takes a time quantum of 1.000000001 s for prescaler 1. */
  lemma FixupCutWitness()
    ensures var (err, u) := FixTiming(4_294_967_293, NOMINAL_LIMITS, Timing(0, 0, 1_000_000_001, 3, 4, 2, 1, 0));
            err == 0 && u.brp == 1
  {
    var t := Timing(0, 0, 1_000_000_001, 3, 4, 2, 1, 0);
    var x := 4_294_967_293 * 1_000_000_001;
    QuotUnique(x, 1, x);
    assert Nearest(x, U32 + 1);
    FixupExact(4_294_967_293, NOMINAL_LIMITS, t, U32 + 1);
  }
}
