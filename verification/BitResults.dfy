/** What a calculated bit timing is worth: validity, its exact condition, and fix-up. */
module BitResults {
  import opened Frames
  import opened Division
  import opened SamplePoint
  import opened BitSearch
  import opened BitTiming
  import opened BitTheorems

  /** The limits the driver registers for the nominal and for the data bit rate. */
  const NOMINAL_LIMITS := Limits(2, 190, 1, 63, 31, 1, 8, 1)
  const DATA_LIMITS := Limits(2, 94, 1, 31, 31, 1, 2, 1)

  // --------------------------------------------------------------------- no candidate

  /** With no prescaler in range for any number of quanta, every bit rate is refused. */
  lemma NoCandidateRefused(freq: nat, l: Limits, t: Timing)
    requires NoOverflow(RequestOf(freq, l, t)) && NoCandidate(RequestOf(freq, l, t))
    ensures CalcTiming(freq, l, t) == None
  {
    var r := RequestOf(freq, l, t);
    if !TooFar(Result(r).rateError, r.bitrate) {
      var y := ResultChosen(r);
      assert false;
    }
  }

  /** Beyond 10 prescalers completeness fails: 84 kHz, 1 kbit/s and 4 quanta. Prescaler 20 is within 5%,
      but the ideal one is 21, and only that and 22 are tried. */
  lemma CompletenessFails(t: Timing)
    requires t.bitrate == 1000 && t.samplePoint == 750
    ensures var l := Limits(2, 2, 1, 1, 1, 1, 20, 1);
            && NoOverflow(RequestOf(84_000, l, t)) && Within(RequestOf(84_000, l, t), 20, 3)
            && CalcTiming(84_000, l, t) == None
  {
    var l := Limits(2, 2, 1, 1, 1, 1, 20, 1);
    MissedRequest(RequestOf(84_000, l, t), l);
    NoCandidateRefused(84_000, l, t);
  }

  lemma MissedRequest(r: Request, l: Limits)
    requires l == Limits(2, 2, 1, 1, 1, 1, 20, 1) && r == Request(84_000, l, 1000, 750)
    ensures NoOverflow(r) && Within(r, 20, 3) && NoCandidate(r)
  {
    QuotUnique(84_000, 80, 1050);
    QuotUnique(84_000, 4000, 21);
    NeighbourTried(r, 3, 0);
    NeighbourTried(r, 3, 1);
  }

  /** Below `brpMax` bit/s it fails for two prescalers already: 12 Hz, 1 bit/s and 4 quanta. Prescaler 2 hits the
      rate, but the ideal one is 3, and only that and 4 are tried. */
  lemma CompletenessFailsSlow(t: Timing)
    requires t.bitrate == 1 && t.samplePoint == 750
    ensures var l := Limits(2, 2, 1, 1, 1, 1, 2, 1);
            && NoOverflow(RequestOf(12, l, t)) && Within(RequestOf(12, l, t), 2, 3) && CalcTiming(12, l, t) == None
  {
    var l := Limits(2, 2, 1, 1, 1, 1, 2, 1);
    MissedSlowly(RequestOf(12, l, t), l);
    NoCandidateRefused(12, l, t);
  }

  lemma MissedSlowly(r: Request, l: Limits)
    requires l == Limits(2, 2, 1, 1, 1, 1, 2, 1) && r == Request(12, l, 1, 750)
    ensures NoOverflow(r) && Within(r, 2, 3) && NoCandidate(r)
  {
    QuotUnique(12, 8, 1);
    QuotUnique(12, 4, 3);
    NeighbourTried(r, 3, 0);
    NeighbourTried(r, 3, 1);
  }

  // ---------------------------------------------------------------------- feasibility

  /** The largest tseg2 already brings the sample point down to nominal. */
  predicate Feasible(l: Limits, nominal: nat, tseg: nat) {
    PointOf(tseg + 1, Most2(l, tseg)) <= nominal
  }

  lemma FeasibleExact(l: Limits, nominal: nat, tseg: nat)
    requires Fits(l, nominal, tseg)
    ensures Feasible(l, nominal, tseg) <==> !Infeasible(l, nominal, tseg)
  {
    var m := Most2(l, tseg);
    assert Allowed(l, tseg, m);
    forall u | Allowed(l, tseg, u) ensures PointOf(tseg + 1, m) <= PointOf(tseg + 1, u) {
      PointFalls(tseg + 1, u, m);
    }
  }

  /** The usual condition, that the ideal tseg2 is within its limit, is enough. */
  lemma IdealIsFeasible(l: Limits, nominal: nat, tseg: nat)
    requires Fits(l, nominal, tseg) && tseg < 1000 && Ideal2(nominal, tseg + 1) <= l.tseg2Max
    ensures Feasible(l, nominal, tseg)
  {
    ShareBounds(nominal, tseg + 1);
    IdealBounds(nominal, tseg + 1, Most2(l, tseg));
  }

  // ----------------------------------------------------------------- the final split

  /** Sums of segments for which one quantum of tseg2 moves the sample point. */
  predicate Fine(l: Limits) {
    l.tseg1Max + l.tseg2Max < 1000
  }

  lemma FinalExact(r: Request)
    requires NoOverflow(r) && Fine(r.l) && !TooFar(Result(r).rateError, r.bitrate)
    ensures var b, tseg := FinalSplit(r), Result(r).tseg;
            && Fits(r.l, r.nominal, tseg)
            && (if Feasible(r.l, r.nominal, tseg)
                then && Closest(r.l, r.nominal, tseg, b.tseg2) && b.tseg1 == tseg - b.tseg2
                     && b.point == PointOf(tseg + 1, b.tseg2)
                else b == Best(0, UINT_MAX, Result(r).tseg1, Result(r).tseg2))
  {
    var s := Result(r);
    ResultUsable(r);
    FitsAt(r, s.tseg);
    FeasibleExact(r.l, r.nominal, s.tseg);
    SplitExact(r.l, r.nominal, s.tseg, s.tseg1, s.tseg2);
  }

  /** With at most 1000 quanta a larger tseg2 gives a strictly smaller sample point, never 0. */
  lemma PointStrict(total: nat, a: nat, b: nat)
    requires 0 < total <= 1000 && a < b < total
    ensures 0 < PointOf(total, b) < PointOf(total, a)
  {
    var p := PointOf(total, a);
    var q := PointOf(total, b);
    QuotAtMost(1000 * (total - b), total, 0);
    assert 1000 * (total - b) <= 1000 * (total - a) - total;
    if p == 0 {
      assert false;
    }
    assert (p - 1) * total + total == p * total;
    QuotAtMost(1000 * (total - b), total, p - 1);
  }

  /** A sample point is never 0. */
  lemma PointPositive(total: nat, t2: nat)
    requires t2 < total <= 1000
    ensures PointOf(total, t2) > 0
  {
    QuotAtMost(1000 * (total - t2), total, 0);
  }

  /** The smallest tseg1 is out of reach of tseg2, or it does not sample later than nominal. */
  predicate LowerOk(l: Limits, nominal: nat, tseg: nat)
    requires l.tseg1Min <= tseg
  {
    tseg - l.tseg1Min > l.tseg2Max || PointOf(tseg + 1, tseg - l.tseg1Min) <= nominal
  }

  /** The lower limit of tseg1, which the search does not look at, is respected by the closest split exactly then. */
  lemma LowerLimitExact(l: Limits, nominal: nat, tseg: nat, t2: nat)
    requires Fits(l, nominal, tseg) && tseg < 1000 && Closest(l, nominal, tseg, t2)
    requires l.tseg1Min <= l.tseg1Max && l.tseg1Min + l.tseg2Min <= tseg
    ensures l.tseg1Min <= tseg - t2 <==> LowerOk(l, nominal, tseg)
  {
    var u := tseg - l.tseg1Min;
    if t2 <= u {
      PointFalls(tseg + 1, t2, u);
    } else if PointOf(tseg + 1, u) <= nominal {
      assert Allowed(l, tseg, u);
      PointStrict(tseg + 1, u, t2);
      assert false;
    }
  }

  lemma EarliestPoint(nominal: nat, tseg: nat, t1: nat, t2: nat)
    requires t1 + t2 <= tseg && 1000 * (1 + t1) <= nominal * (1 + t1 + t2)
    ensures PointOf(tseg + 1, tseg - t1) <= nominal
  {
    MulMonotone(1 + t1 + t2, tseg + 1, nominal);
    QuotAtMost(1000 * (1 + t1), tseg + 1, nominal);
  }

  // -------------------------------------------------------------------- validity

  predicate Usable(l: Limits) {
    Fine(l) && l.tseg2Min >= 1 && l.sjwMax >= 1
  }

  /** The nominal point is late enough for the smallest tseg1. */
  predicate Late(l: Limits, nominal: nat) {
    1000 * (1 + l.tseg1Min) <= nominal * (1 + l.tseg1Min + l.tseg2Min)
  }

  function Tseg1(c: Timing): nat {
    c.propSeg + c.phaseSeg1
  }

  function Quanta(c: Timing): nat {
    1 + Tseg1(c) + c.phaseSeg2
  }

  /** A timing within all limits but the lower one of tseg1, whose rate and sample point are those of
      its own segments. */
  ghost predicate NearlyValid(freq: nat, l: Limits, c: Timing) {
    && InRange(l, c.brp) && c.brp > 0
    && Tseg1(c) <= l.tseg1Max && l.tseg2Min <= c.phaseSeg2 <= l.tseg2Max
    && 1 <= c.sjw <= l.sjwMax && c.sjw <= c.phaseSeg2
    && c.bitrate == RateOf(freq, c.brp, Quanta(c)) && c.samplePoint == PointOf(Quanta(c), c.phaseSeg2)
  }

  ghost predicate Valid(freq: nat, l: Limits, c: Timing) {
    NearlyValid(freq, l, c) && l.tseg1Min <= Tseg1(c)
  }

  /** Within 5.0% of the rate, and with no allowed split of as many quanta closer to the nominal point
      from below. */
  ghost predicate Answers(l: Limits, t: Timing, c: Timing) {
    && Dist(t.bitrate, c.bitrate) * 1000 < 51 * t.bitrate
    && Closest(l, Nominal(t), Quanta(c) - 1, c.phaseSeg2)
  }

  /** A valid timing that meets the request. */
  ghost predicate Meets(freq: nat, l: Limits, t: Timing, c: Timing) {
    Valid(freq, l, c) && Answers(l, t, c)
  }

  /** The sum of segments chosen by the search. */
  function ChosenTseg(freq: nat, l: Limits, t: Timing): nat
    requires NoOverflow(RequestOf(freq, l, t))
  {
    Result(RequestOf(freq, l, t)).tseg
  }

  /** A split that the search may leave behind: none at all, or the best one of some candidate. */
  ghost predicate Leftover(r: Request, tseg1: nat, tseg2: nat)
    requires NoOverflow(r)
  {
    (tseg1 == 0 && tseg2 == 0)
    || exists z: nat :: Last(r) <= z <= First(r) && Tried(r, z) && BestSplit(r.l, r.nominal, z / 2, tseg1, tseg2)
  }

  ghost predicate BestSplit(l: Limits, nominal: nat, tseg: nat, tseg1: nat, tseg2: nat) {
    Closest(l, nominal, tseg, tseg2) && tseg1 == tseg - tseg2
  }

  lemma BodyLeftover(r: Request, x: nat, s: Search)
    requires NoOverflow(r) && Fine(r.l) && Last(r) <= x <= First(r) && Leftover(r, s.tseg1, s.tseg2)
    ensures var t := Body(r, x, s).0; Leftover(r, t.tseg1, t.tseg2)
  {
    hide RateErrorAt, BrpAt, Update;
    if Tried(r, x) {
      FitsAt(r, x / 2);
      SplitExact(r.l, r.nominal, x / 2, s.tseg1, s.tseg2);
    }
  }

  lemma {:induction false} RunLeftover(r: Request, x: nat, s: Search)
    requires NoOverflow(r) && Fine(r.l) && x <= First(r) && Leftover(r, s.tseg1, s.tseg2)
    ensures var t := Run(r, x, s); Leftover(r, t.tseg1, t.tseg2)
    decreases x
  {
    hide Leftover, Body;
    if x >= Last(r) {
      BodyLeftover(r, x, s);
      var (s', stop) := Body(r, x, s);
      if !stop {
        RunLeftover(r, x - 1, s');
      }
    }
  }

  /** A leftover split is never one of an infeasible sum of segments. */
  lemma LeftoverElsewhere(r: Request, tseg1: nat, tseg2: nat, tseg: nat)
    requires NoOverflow(r) && Leftover(r, tseg1, tseg2) && Searched(r.l, tseg) && !Feasible(r.l, r.nominal, tseg)
    ensures tseg1 + tseg2 != tseg
  {
    FitsAt(r, tseg);
    FeasibleExact(r.l, r.nominal, tseg);
  }

  lemma ChosenSearched(freq: nat, l: Limits, t: Timing)
    requires NoOverflow(RequestOf(freq, l, t)) && CalcTiming(freq, l, t).Some?
    ensures Searched(l, ChosenTseg(freq, l, t))
  {
    ResultUsable(RequestOf(freq, l, t));
  }

  /** Candidate `y` wins: no candidate is better, and of equally good ones it is the smallest or, if it is perfect, the
      largest. This is decided by the request alone. */
  ghost predicate Wins(r: Request, y: nat)
    requires NoOverflow(r)
  {
    && Last(r) <= y <= First(r) && Tried(r, y)
    && forall z: nat :: Last(r) <= z <= First(r) && Tried(r, z) ==>
         && NoWorse(r, y, z)
         && (z != y && NoWorse(r, z, y) ==> if Perfect(r, y) then z < y else y < z)
  }

  /** The sum of segments chosen is that of the winner, and there is one whenever there is a candidate. */
  lemma WinnerIsChosen(freq: nat, l: Limits, t: Timing)
    requires NoOverflow(RequestOf(freq, l, t)) && !NoCandidate(RequestOf(freq, l, t))
    ensures var r := RequestOf(freq, l, t);
            && (exists y: nat :: Wins(r, y))
            && (forall y: nat :: Wins(r, y) ==> ChosenTseg(freq, l, t) == y / 2)
  {
    hide Chosen, Wins, NoOverflow, NoCandidate;
    var r := RequestOf(freq, l, t);
    SearchFinds(r);
    var x: nat :| Chosen(r, Result(r), x);
    ChosenWins(r, Result(r), x);
    forall y: nat | Wins(r, y) ensures y == x {
      OneWinner(r, x, y);
    }
  }

  lemma ChosenWins(r: Request, s: Search, y: nat)
    requires NoOverflow(r) && Chosen(r, s, y)
    ensures Wins(r, y) && s.tseg == y / 2
  {
    hide NoWorse, Tried;
  }

  lemma OneWinner(r: Request, x: nat, y: nat)
    requires NoOverflow(r) && Wins(r, x) && Wins(r, y)
    ensures x == y
  {
    assert NoWorse(r, x, y) && NoWorse(r, y, x);
  }

  /** The condition under which a calculation is right: the chosen sum of segments has a feasible
      split, and its best one respects the lower limit of tseg1. */
  predicate Sound(l: Limits, nominal: nat, tseg: nat)
    requires l.tseg1Min <= tseg
  {
    Feasible(l, nominal, tseg) && LowerOk(l, nominal, tseg)
  }

  /** A successful calculation meets the request exactly when the chosen sum of segments is sound. With a
      feasible split only the lower limit of tseg1 can be missed. Without one there is no sample point,
      and the segments are what the search left behind: none, or those of another candidate, so that
      the bit rate is not the one that was found either. */
  lemma CalcValid(freq: nat, l: Limits, t: Timing)
    requires NoOverflow(RequestOf(freq, l, t)) && Usable(l) && CalcTiming(freq, l, t).Some?
    ensures Searched(l, ChosenTseg(freq, l, t))
    ensures var c, tseg := CalcTiming(freq, l, t).value, ChosenTseg(freq, l, t);
            && (Meets(freq, l, t, c) <==> Sound(l, Nominal(t), tseg))
            && (if Feasible(l, Nominal(t), tseg)
                then NearlyValid(freq, l, c) && Answers(l, t, c) && c.samplePoint > 0 && Quanta(c) == tseg + 1
                else c.samplePoint == 0 && Leftover(RequestOf(freq, l, t), Tseg1(c), c.phaseSeg2)
                     && Quanta(c) != tseg + 1)
  {
    hide Result, FinalSplit, Leftover, NearlyValid, Answers, Feasible, LowerOk, Nominal, TooFar, Closest, TimingFrom;
    hide Within, Tseg1, Quanta, PointOf;
    var r := RequestOf(freq, l, t);
    ChosenSearched(freq, l, t);
    FinalMeets(r);
    if Feasible(l, r.nominal, Result(r).tseg) {
      SplitValid(r, t, Result(r).brp, Result(r).tseg, FinalSplit(r));
    } else {
      ResultLeftover(r);
      LeftTiming(freq, l, t, Result(r).brp, Result(r).tseg1, Result(r).tseg2);
      NoPointNotValid(freq, l, CalcTiming(freq, l, t).value);
    }
  }

  /** A timing without a sample point is not a valid one. */
  lemma NoPointNotValid(freq: nat, l: Limits, c: Timing)
    requires Fine(l) && c.samplePoint == 0
    ensures !NearlyValid(freq, l, c)
  {
    if NearlyValid(freq, l, c) {
      PointPositive(Quanta(c), c.phaseSeg2);
    }
  }

  lemma ResultLeftover(r: Request)
    requires NoOverflow(r) && Fine(r.l) && !TooFar(Result(r).rateError, r.bitrate)
    requires !Feasible(r.l, r.nominal, Result(r).tseg)
    ensures Leftover(r, Result(r).tseg1, Result(r).tseg2) && Result(r).tseg1 + Result(r).tseg2 != Result(r).tseg
  {
    hide Leftover, Feasible, TooFar;
    LeftoverStart(r);
    RunLeftover(r, First(r), START);
    ResultUsable(r);
    LeftoverElsewhere(r, Result(r).tseg1, Result(r).tseg2, Result(r).tseg);
  }

  lemma LeftoverStart(r: Request)
    requires NoOverflow(r)
    ensures Leftover(r, START.tseg1, START.tseg2)
  {
  }

  lemma LeftTiming(freq: nat, l: Limits, t: Timing, brp: nat, tseg1: nat, tseg2: nat)
    requires freq > 0 && brp > 0
    ensures var c := TimingFrom(freq, l, t, brp, Best(0, UINT_MAX, tseg1, tseg2));
            c.samplePoint == 0 && Tseg1(c) == tseg1 && c.phaseSeg2 == tseg2 && Quanta(c) == 1 + tseg1 + tseg2
  {
  }

  /** What the final split has to offer. */
  lemma FinalMeets(r: Request)
    requires NoOverflow(r) && Fine(r.l) && !TooFar(Result(r).rateError, r.bitrate)
    ensures Result(r).brp > 0 && Within(r, Result(r).brp, Result(r).tseg)
    ensures var b, tseg := FinalSplit(r), Result(r).tseg;
            if Feasible(r.l, r.nominal, tseg)
            then Closest(r.l, r.nominal, tseg, b.tseg2) && b.tseg1 == tseg - b.tseg2
                 && b.point == PointOf(tseg + 1, b.tseg2)
                 && (r.l.tseg1Min <= b.tseg1 <==> LowerOk(r.l, r.nominal, tseg))
            else b == Best(0, UINT_MAX, Result(r).tseg1, Result(r).tseg2)
  {
    FinalExact(r);
    ResultWithin(r);
    if Feasible(r.l, r.nominal, Result(r).tseg) {
      LowerLimitExact(r.l, r.nominal, Result(r).tseg, FinalSplit(r).tseg2);
    }
  }

  lemma SplitValid(r: Request, t: Timing, brp: nat, tseg: nat, b: Best)
    requires Usable(r.l) && r.freq > 0 && r.bitrate == t.bitrate > 0 && r.nominal == Nominal(t) && Within(r, brp, tseg)
    requires Closest(r.l, r.nominal, tseg, b.tseg2) && b.tseg1 == tseg - b.tseg2
    requires b.point == PointOf(tseg + 1, b.tseg2)
    ensures var c := TimingFrom(r.freq, r.l, t, brp, b);
            && NearlyValid(r.freq, r.l, c) && Answers(r.l, t, c) && c.samplePoint > 0
            && Tseg1(c) == b.tseg1 && Quanta(c) == tseg + 1
  {
    var c := TimingFrom(r.freq, r.l, t, brp, b);
    assert Tseg1(c) == b.tseg1 && Quanta(c) == tseg + 1;
    PointPositive(tseg + 1, b.tseg2);
  }

  // ------------------------------------------------------------- conditions on the limits

  /** With a nominal point that is late enough, every sum of segments respects the lower limit. */
  lemma LateIsLow(l: Limits, nominal: nat, tseg: nat)
    requires Late(l, nominal) && Searched(l, tseg)
    ensures LowerOk(l, nominal, tseg)
  {
    EarliestPoint(nominal, tseg, l.tseg1Min, l.tseg2Min);
  }

  /** With a late nominal point a successful calculation meets the request exactly when it is feasible. */
  lemma CalcValidLate(freq: nat, l: Limits, t: Timing)
    requires NoOverflow(RequestOf(freq, l, t)) && Usable(l) && Late(l, Nominal(t)) && CalcTiming(freq, l, t).Some?
    ensures Meets(freq, l, t, CalcTiming(freq, l, t).value) <==>
              Feasible(l, Nominal(t), ChosenTseg(freq, l, t))
  {
    hide Meets, Feasible, LowerOk, CalcTiming, Late;
    CalcValid(freq, l, t);
    LateIsLow(l, Nominal(t), ChosenTseg(freq, l, t));
  }

  /** The ideal tseg2 is within its limit, and the lower limit of tseg1 respected, for every sum of segments. */
  ghost predicate IdealSplits(l: Limits, nominal: nat) {
    forall tseg: nat :: Searched(l, tseg) ==> Ideal2(nominal, tseg + 1) <= l.tseg2Max && LowerOk(l, nominal, tseg)
  }

  lemma ChosenFeasible(r: Request)
    requires NoOverflow(r) && Fine(r.l) && IdealSplits(r.l, r.nominal) && !TooFar(Result(r).rateError, r.bitrate)
    ensures Searched(r.l, Result(r).tseg) && Sound(r.l, r.nominal, Result(r).tseg)
  {
    ResultUsable(r);
    assert Searched(r.l, Result(r).tseg);
    FitsAt(r, Result(r).tseg);
    IdealIsFeasible(r.l, r.nominal, Result(r).tseg);
  }

  /** If that is so for every sum of segments, every successful calculation meets the request. */
  lemma CalcAlwaysValid(freq: nat, l: Limits, t: Timing)
    requires NoOverflow(RequestOf(freq, l, t)) && Usable(l) && IdealSplits(l, Nominal(t))
    ensures CalcTiming(freq, l, t).Some? ==> Meets(freq, l, t, CalcTiming(freq, l, t).value)
  {
    hide Meets, Sound, IdealSplits;
    if CalcTiming(freq, l, t).Some? {
      ChosenFeasible(RequestOf(freq, l, t));
      CalcValid(freq, l, t);
    }
  }

  // --------------------------------------------- when the split fails, from the inputs alone

  /** Candidate `z` has the smallest rate error of all candidates. */
  ghost predicate BestRate(r: Request, z: nat)
    requires NoOverflow(r)
  {
    && Last(r) <= z <= First(r) && Tried(r, z)
    && forall w: nat :: Last(r) <= w <= First(r) && Tried(r, w) ==> RateErrorAt(r, z) <= RateErrorAt(r, w)
  }

  lemma PointErrorFeasible(r: Request, z: nat)
    requires NoOverflow(r) && Fine(r.l) && Last(r) <= z <= First(r)
    ensures Fits(r.l, r.nominal, z / 2)
    ensures PointErrorAt(r, z) < UINT_MAX <==> Feasible(r.l, r.nominal, z / 2)
  {
    FitsAt(r, z / 2);
    FeasibleExact(r.l, r.nominal, z / 2);
    SplitExact(r.l, r.nominal, z / 2, 0, 0);
    ErrorIgnoresScratch(r.l, r.nominal, z / 2, 0, 0);
  }

  /** The final split has no sample point exactly when the chosen sum of segments is infeasible. */
  lemma FinalPoint(r: Request)
    requires NoOverflow(r) && Fine(r.l) && !TooFar(Result(r).rateError, r.bitrate)
    ensures FinalSplit(r).point == 0 <==> !Feasible(r.l, r.nominal, Result(r).tseg)
  {
    hide Feasible;
    FinalExact(r);
    if Feasible(r.l, r.nominal, Result(r).tseg) {
      PointPositive(Result(r).tseg + 1, FinalSplit(r).tseg2);
    }
  }

  /** The calculation ends without a sample point exactly when every candidate of smallest rate
      error is infeasible. */
  lemma SamplePointLost(freq: nat, l: Limits, t: Timing)
    requires NoOverflow(RequestOf(freq, l, t)) && Fine(l) && CalcTiming(freq, l, t).Some?
    ensures var r := RequestOf(freq, l, t);
            CalcTiming(freq, l, t).value.samplePoint == 0 <==>
              forall z: nat :: BestRate(r, z) ==> !Feasible(l, Nominal(t), z / 2)
  {
    hide Feasible, FinalSplit, Result, BestRate, Chosen, TooFar;
    var r := RequestOf(freq, l, t);
    FinalPoint(r);
    var y := ResultChosen(r);
    ChosenIsBest(r, Result(r), y);
    forall z: nat | BestRate(r, z) && Feasible(r.l, r.nominal, z / 2) ensures Feasible(r.l, r.nominal, y / 2) {
      FeasibleWins(r, Result(r), y, z);
    }
  }

  lemma ChosenIsBest(r: Request, s: Search, y: nat)
    requires NoOverflow(r) && Chosen(r, s, y)
    ensures BestRate(r, y) && s.tseg == y / 2
  {
    forall w: nat | Last(r) <= w <= First(r) && Tried(r, w) ensures RateErrorAt(r, y) <= RateErrorAt(r, w) {
      assert NoWorse(r, y, w);
    }
  }

  lemma FeasibleWins(r: Request, s: Search, y: nat, z: nat)
    requires NoOverflow(r) && Fine(r.l) && Chosen(r, s, y) && BestRate(r, z) && Feasible(r.l, r.nominal, z / 2)
    ensures Feasible(r.l, r.nominal, y / 2)
  {
    assert NoWorse(r, y, z);
    PointErrorFeasible(r, y);
    PointErrorFeasible(r, z);
  }

  // ------------------------------------------------------------------------ witness

  /** 125 MHz, 1 Mbit/s, data limits: only 125 quanta with prescaler 1 hit the rate, and there
      every allowed split samples later than 75.1%. For every nominal point up to that, and for the
      recommended one, the call succeeds, with no sample point, no segments, and a bit rate of
      125 Mbit/s. */
  lemma InfeasibleWitness(t: Timing)
    requires t.bitrate == 1_000_000 && (t.samplePoint == 0 || 250 <= t.samplePoint <= 751)
    ensures NoOverflow(RequestOf(125_000_000, DATA_LIMITS, t))
    ensures CalcTiming(125_000_000, DATA_LIMITS, t) ==
              Some(Timing(125_000_000, 0, 8, 0, 0, 0, if t.sjw == 0 then 1 else 0, 1))
  {
    var r := RequestOf(125_000_000, DATA_LIMITS, t);
    hide NoOverflow, TimingFrom, FinalSplit, Result, TooFar;
    WitnessResult(r);
    WitnessSplit(r);
    WitnessTiming(t);
  }

  lemma WitnessTiming(t: Timing)
    ensures TimingFrom(125_000_000, DATA_LIMITS, t, 1, Best(0, UINT_MAX, 0, 0)) ==
              Timing(125_000_000, 0, 8, 0, 0, 0, if t.sjw == 0 then 1 else 0, 1)
  {
    QuotUnique(125_000_000, 1, 125_000_000);
    QuotUnique(BILLION, 125_000_000, 8);
  }

  lemma WitnessResult(r: Request)
    requires WitnessRequest(r)
    ensures NoOverflow(r) && !TooFar(Result(r).rateError, r.bitrate)
    ensures var s := Result(r); s.tseg == 124 && s.brp == 1 && s.tseg1 == 0 && s.tseg2 == 0
  {
    WitnessRate(r);
    ResultBeats(r, 248);
    var y := ResultChosen(r);
    WitnessOnly(r, Result(r), y);
    WitnessRun(r, First(r), START);
  }

  lemma WitnessSplit(r: Request)
    requires WitnessRequest(r) && NoOverflow(r) && !TooFar(Result(r).rateError, r.bitrate)
    requires var s := Result(r); s.tseg == 124 && s.tseg1 == 0 && s.tseg2 == 0
    ensures FinalSplit(r) == Best(0, UINT_MAX, 0, 0)
  {
    FinalExact(r);
    WitnessInfeasible(r, 124);
  }

  /** Neither 125 nor 126 quanta have a feasible split. */
  lemma WitnessInfeasible(r: Request, tseg: nat)
    requires WitnessRequest(r) && 124 <= tseg <= 125
    ensures !Feasible(r.l, r.nominal, tseg)
  {
    QuotUnique(94_000, 125, 752);
    QuotUnique(95_000, 126, 753);
  }

  /** From 248 up nothing is feasible, and below nothing hits the rate: no split is ever left. */
  lemma {:induction false} WitnessRun(r: Request, x: nat, s: Search)
    requires WitnessRequest(r) && NoOverflow(r) && x <= First(r) && s.tseg1 == 0 && s.tseg2 == 0
    requires s.pointError <= UINT_MAX && (x < 248 ==> s.rateError == 0)
    ensures Run(r, x, s).tseg1 == 0 && Run(r, x, s).tseg2 == 0
    decreases x
  {
    if x >= Last(r) {
      var (s', stop) := Body(r, x, s);
      if x < 248 {
        WitnessBelow(r, x, s);
      } else {
        WitnessAbove(r, x, s);
      }
      if !stop {
        WitnessRun(r, x - 1, s');
      }
    }
  }

  lemma WitnessBelow(r: Request, x: nat, s: Search)
    requires WitnessRequest(r) && NoOverflow(r) && x < 248 && s.rateError == 0
    ensures Body(r, x, s) == (s, false)
  {
    if Tried(r, x) {
      RateErrorMeaning(r, BrpAt(r, x), Total(x));
      if RateErrorAt(r, x) == 0 {
        Only125(BrpAt(r, x), Total(x));
      }
    }
  }

  lemma WitnessAbove(r: Request, x: nat, s: Search)
    requires WitnessRequest(r) && NoOverflow(r) && 248 <= x <= First(r) && s.tseg1 == 0 && s.tseg2 == 0
    requires s.pointError <= UINT_MAX
    ensures var t := Body(r, x, s).0;
            t.tseg1 == 0 && t.tseg2 == 0 && t.pointError <= UINT_MAX && (x == 248 ==> t.rateError == 0)
  {
    FitsAt(r, x / 2);
    WitnessInfeasible(r, x / 2);
    FeasibleExact(r.l, r.nominal, x / 2);
    SplitExact(r.l, r.nominal, x / 2, 0, 0);
    WitnessRate(r);
  }

  predicate WitnessRequest(r: Request) {
    r == Request(125_000_000, DATA_LIMITS, 1_000_000, r.nominal) && 250 <= r.nominal <= 751
  }

  lemma WitnessRate(r: Request)
    requires WitnessRequest(r)
    ensures NoOverflow(r) && Tried(r, 248) && RateErrorAt(r, 248) == 0
  {
    QuotUnique(125_000_000, 125_000_000, 1);
    QuotUnique(1, 1, 1);
    QuotUnique(125_000_000, 125, 1_000_000);
  }

  lemma WitnessOnly(r: Request, s: Search, y: nat)
    requires WitnessRequest(r) && NoOverflow(r) && Chosen(r, s, y) && s.rateError == 0
    ensures s.tseg == 124 && s.brp == 1
  {
    RateErrorMeaning(r, s.brp, s.tseg + 1);
    Only125(s.brp, s.tseg + 1);
  }

  lemma Only125(brp: nat, total: nat)
    requires 1 <= brp <= 2 && total > 0 && RateOf(125_000_000, brp, total) == 1_000_000
    ensures total == 125 && brp == 1
  {
    PosMul(brp, total);
    assert brp * total == if brp == 1 then total else 2 * total;
  }

  /** 4 MHz, 1 Mbit/s, nominal limits, sample point 50.0%: only 4 quanta with prescaler 1 hit the rate, and
      their best split has a tseg1 of 1, below its limit of 2. The call succeeds; fix-up refuses the
      result. */
  lemma EarlyWitness(t: Timing)
    requires t.bitrate == 1_000_000 && t.samplePoint == 500
    ensures NoOverflow(RequestOf(4_000_000, NOMINAL_LIMITS, t))
    ensures var c := Timing(1_000_000, 500, 250, 0, 1, 2, Sjw(t.sjw, 31, 2), 1);
            && CalcTiming(4_000_000, NOMINAL_LIMITS, t) == Some(c)
            && !Meets(4_000_000, NOMINAL_LIMITS, t, c) && FixTiming(4_000_000, NOMINAL_LIMITS, c).0 == ERANGE
  {
    var r := RequestOf(4_000_000, NOMINAL_LIMITS, t);
    hide NoOverflow, TimingFrom, FinalSplit, Result, TooFar;
    EarlyResult(r);
    EarlySplit(r);
    EarlyTiming(t);
  }

  predicate EarlyRequest(r: Request) {
    r == Request(4_000_000, NOMINAL_LIMITS, 1_000_000, 500)
  }

  lemma EarlyTiming(t: Timing)
    ensures TimingFrom(4_000_000, NOMINAL_LIMITS, t, 1, Best(500, 0, 1, 2)) ==
              Timing(1_000_000, 500, 250, 0, 1, 2, Sjw(t.sjw, 31, 2), 1)
  {
    QuotUnique(4_000_000, 4, 1_000_000);
    QuotUnique(BILLION, 4_000_000, 250);
  }

  lemma EarlyRate(r: Request)
    requires EarlyRequest(r)
    ensures NoOverflow(r) && Tried(r, 6) && RateErrorAt(r, 6) == 0
  {
    QuotUnique(4_000_000, 4_000_000, 1);
    QuotUnique(1, 1, 1);
    QuotUnique(4_000_000, 4, 1_000_000);
  }

  lemma EarlyResult(r: Request)
    requires EarlyRequest(r)
    ensures NoOverflow(r) && !TooFar(Result(r).rateError, r.bitrate) && Result(r).tseg == 3 && Result(r).brp == 1
  {
    EarlyRate(r);
    ResultBeats(r, 6);
    var y := ResultChosen(r);
    EarlyOnly(r, Result(r), y);
  }

  lemma EarlyOnly(r: Request, s: Search, y: nat)
    requires EarlyRequest(r) && NoOverflow(r) && Chosen(r, s, y) && s.rateError == 0
    ensures s.tseg == 3 && s.brp == 1
  {
    RateErrorMeaning(r, s.brp, s.tseg + 1);
    Only4(s.brp, s.tseg + 1);
  }

  lemma Only4(brp: nat, total: nat)
    requires brp > 0 && total >= 4 && RateOf(4_000_000, brp, total) == 1_000_000
    ensures total == 4 && brp == 1
  {
    PosMul(brp, total);
    if brp > 1 {
      MulMonotone(2, brp, total);
    }
  }

  lemma EarlySplit(r: Request)
    requires EarlyRequest(r) && NoOverflow(r) && !TooFar(Result(r).rateError, r.bitrate) && Result(r).tseg == 3
    ensures FinalSplit(r) == Best(500, 0, 1, 2)
  {
    hide Result, TooFar, NoOverflow;
    ResultUsable(r);
    EarlyProbes(r.l, Result(r).tseg1, Result(r).tseg2);
  }

  lemma EarlyProbes(l: Limits, tseg1: nat, tseg2: nat)
    requires l == NOMINAL_LIMITS
    ensures Update(l, 500, 3, tseg1, tseg2) == Best(500, 0, 1, 2)
  {
    QuotUnique(2000, 4, 500);
    QuotUnique(3000, 4, 750);
    UpdateIsTwoProbes(l, 500, 3, tseg1, tseg2);
  }

  // --------------------------------------------------------------------- fix-up

  /** What the time quantum loses to rounding, in units of the clock period over 10^9. */
  function Lost(freq: nat, c: Timing): int {
    c.brp * BILLION - c.tq * freq
  }

  /** The prescaler that a time quantum, rounded down, stands for is the original one exactly when the
      rounding lost less than half a nanosecond's worth of clock. */
  lemma QuantumBack(freq: nat, brp: nat, tq: nat)
    requires tq * freq <= brp * BILLION
    ensures PracticalBrp(freq, tq, 1) <= brp
    ensures PracticalBrp(freq, tq, 1) == brp <==> brp * BILLION - tq * freq < 500_000_000
  {
    assert freq * tq == tq * freq;
  }

  /** A valid timing with a time quantum rounded down is a fixed point of fix-up exactly when the rounding
      is that small. */
  lemma FixupFixedPoint(freq: nat, l: Limits, c: Timing)
    requires 0 < freq < U32 && Fixable(l) && Usable(l) && l.brpInc == 1 && Valid(freq, l, c) && Lost(freq, c) >= 0
    ensures FixTiming(freq, l, c) == (0, c) <==> Lost(freq, c) < 500_000_000
  {
    BrpIsWord(l);
    QuantumBack(freq, c.brp, c.tq);
    assert 1000 * (Quanta(c) - c.phaseSeg2) == (Tseg1(c) + 1) * 1000;
  }

  lemma BrpIsWord(l: Limits)
    requires Fixable(l)
    ensures l.brpMax < U32
  {
    MulMonotone(1, 1 + l.tseg1Max + l.tseg2Max, l.brpMax);
  }

  /** Fix-up refuses a timing that misses the lower limit of tseg1. */
  lemma FixupTooShort(freq: nat, l: Limits, c: Timing)
    requires 0 < freq < U32 && Fixable(l) && Tseg1(c) < l.tseg1Min
    ensures FixTiming(freq, l, c).0 == ERANGE
  {
  }

  /** Fix-up never leaves a timing without a sample point. */
  lemma FixupPoint(freq: nat, l: Limits, c: Timing)
    requires 0 < freq < U32 && Fixable(l) && Fine(l) && c.samplePoint == 0 && Tseg1(c) < U32
    ensures FixTiming(freq, l, c) != (0, c)
  {
    if Quanta(c) <= 1000 {
      QuotAtMost((Tseg1(c) + 1) * 1000, Quanta(c), 0);
    }
  }

  /** The stored time quantum is rounded down, also where its 32 bits are not enough. */
  lemma QuantumRounded(freq: nat, brp: nat)
    requires freq > 0
    ensures var q := Quot(brp * BILLION, freq);
            && W(q) * freq <= brp * BILLION
            && (q < U32 && freq <= 500_000_000 ==> brp * BILLION - W(q) * freq < 500_000_000)
  {
    var q := Quot(brp * BILLION, freq);
    WrapBelow(q);
    MulMonotone(W(q), q, freq);
  }

  lemma {:induction false} WrapBelow(x: nat)
    ensures W(x) <= x
    decreases x
  {
    if x >= U32 {
      WrapBelow(x - U32);
    }
  }

  lemma QuantumFits(freq: nat, brp: nat, brpMax: nat)
    requires freq > 0 && brp <= brpMax && brpMax * BILLION < U32 * freq
    ensures Quot(brp * BILLION, freq) < U32
  {
    QuotAtMost(brp * BILLION, freq, UINT_MAX);
  }

  /** Feeding a calculated timing back into fix-up succeeds and changes nothing exactly when the chosen sum of
      segments is sound and the time quantum precise enough. The latter is so for every clock up to
      500 MHz whose time quanta fit into 32 bits. */
  lemma CalcThenFixup(freq: nat, l: Limits, t: Timing)
    requires NoOverflow(RequestOf(freq, l, t)) && Usable(l) && l.brpInc == 1 && CalcTiming(freq, l, t).Some?
    ensures Searched(l, ChosenTseg(freq, l, t))
    ensures var c, tseg := CalcTiming(freq, l, t).value, ChosenTseg(freq, l, t);
            && (FixTiming(freq, l, c) == (0, c) <==> Sound(l, Nominal(t), tseg) && Lost(freq, c) < 500_000_000)
            && (l.brpMax * BILLION < U32 * freq && freq <= 500_000_000 ==> Lost(freq, c) < 500_000_000)
            && (Feasible(l, Nominal(t), tseg) && !LowerOk(l, Nominal(t), tseg) ==> FixTiming(freq, l, c).0 == ERANGE)
  {
    hide FixTiming, Feasible, LowerOk, NearlyValid, Answers, Leftover;
    var c, tseg := CalcTiming(freq, l, t).value, ChosenTseg(freq, l, t);
    CalcValid(freq, l, t);
    CalcQuantum(freq, l, t);
    if Sound(l, Nominal(t), tseg) {
      FixupFixedPoint(freq, l, c);
    } else if Feasible(l, Nominal(t), tseg) {
      FixupTooShort(freq, l, c);
    } else {
      FixupPoint(freq, l, c);
    }
  }

  /** What is left to say about a calculated timing: its prescaler, its time quantum and its size. */
  lemma CalcQuantum(freq: nat, l: Limits, t: Timing)
    requires NoOverflow(RequestOf(freq, l, t)) && CalcTiming(freq, l, t).Some?
    ensures var c := CalcTiming(freq, l, t).value;
            && InRange(l, c.brp) && Tseg1(c) <= l.tseg1Max && c.phaseSeg2 <= l.tseg2Max && Lost(freq, c) >= 0
            && (l.brpMax * BILLION < U32 * freq && freq <= 500_000_000 ==> Lost(freq, c) < 500_000_000)
  {
    hide Result, FinalSplit, TooFar;
    var r := RequestOf(freq, l, t);
    ResultUsable(r);
    FinalScratch(r);
    QuantumRounded(freq, Result(r).brp);
    if l.brpMax * BILLION < U32 * freq {
      QuantumFits(freq, Result(r).brp, l.brpMax);
    }
  }
}
