/** Bit timing: calculation from a bit rate, and fix-up of given segments. */
module BitTiming {
  import opened Frames
  import opened Division
  import opened SamplePoint
  import opened BitSearch

  /** The values of `struct can_bittiming`. */
  datatype Timing = Timing(bitrate: nat, samplePoint: nat, tq: nat, propSeg: nat, phaseSeg1: nat,
                           phaseSeg2: nat, sjw: nat, brp: nat)

  const BILLION: nat := 1_000_000_000
  const EDOM: int := -33
  const ERANGE: int := -34
  const EINVAL: int := -22

  /** The requested sample point, or the one recommended for the bit rate. */
  function Nominal(t: Timing): nat {
    if t.samplePoint != 0 then t.samplePoint
    else if t.bitrate > 800000 then 750
    else if t.bitrate > 500000 then 800
    else 875
  }

  function RequestOf(freq: nat, l: Limits, t: Timing): Request {
    Request(freq, l, t.bitrate, Nominal(t))
  }

  /** The bit rate error exceeds 5.0%; the 64-bit quotient is cut to 32 bits. */
  predicate TooFar(error: nat, bitrate: nat)
    requires bitrate > 0
  {
    error != 0 && W(Quot(error * 1000, bitrate)) > 50
  }

  /** A bit rate that divides 1000: the quotient is `a` short of a multiple of 2^32. */
  lemma EvenQuotient(a: nat, b: nat)
    requires a > 0 && a * b == 1000
    ensures Quot(UINT_MAX * 1000, b) == (a - 1) * U32 + (U32 - a)
  {
    var q := (a - 1) * U32 + (U32 - a);
    assert q == UINT_MAX * a;
    assert q * b == UINT_MAX * (a * b);
    QuotUnique(UINT_MAX * 1000, b, q);
  }

  /** Any other small bit rate: the low half of the quotient is itself a large quotient. */
  lemma OddQuotient(a: nat, b: nat, c: nat)
    requires 0 < c < b < 1000 && a * b + c == 1000
    ensures var q := Quot(U32 * c - 1000, b);
            50 < q < U32 && Quot(UINT_MAX * 1000, b) == a * U32 + q
  {
    var rest := U32 * c - 1000;
    var q := Quot(rest, b);
    QuotAtMost(rest, b, 50);
    assert rest < UINT_MAX * b + b;
    QuotAtMost(rest, b, UINT_MAX);
    assert (a * U32 + q) * b == U32 * (a * b) + q * b;
    QuotUnique(UINT_MAX * 1000, b, a * U32 + q);
  }

  lemma SmallRateTooFar(b: nat)
    requires 0 < b < 1000
    ensures 50 < W(Quot(UINT_MAX * 1000, b))
  {
    var a, c := 1000 / b, 1000 % b;
    assert a * b + c == 1000;
    if c == 0 {
      EvenQuotient(a, b);
      assert a <= 1000;
      WrapDown(a - 1, U32 - a);
    } else {
      OddQuotient(a, b, c);
      WrapDown(a, Quot(U32 * c - 1000, b));
    }
  }

  lemma {:induction false} WrapDown(a: nat, x: nat)
    requires x < U32
    ensures W(a * U32 + x) == x
    decreases a
  {
    if a > 0 {
      assert a * U32 + x - U32 == (a - 1) * U32 + x;
      WrapDown(a - 1, x);
    }
  }

  /** With no candidate at all the initial error is still too far, for every bit rate. */
  lemma InitialErrorTooFar(bitrate: nat)
    requires 0 < bitrate < U32
    ensures TooFar(UINT_MAX, bitrate)
  {
    if bitrate < 1000 {
      SmallRateTooFar(bitrate);
    } else {
      var q := Quot(UINT_MAX * 1000, bitrate);
      assert q > 50 by { QuotAtMost(UINT_MAX * 1000, bitrate, 50); }
      assert q <= UINT_MAX by { QuotAtMost(UINT_MAX * 1000, bitrate, UINT_MAX); }
    }
  }

  // --------------------------------------------------------- the scratch split

  predicate ScratchOk(l: Limits, tseg1: nat, tseg2: nat) {
    tseg1 <= l.tseg1Max && tseg2 <= l.tseg2Max
  }

  lemma FitsAt(r: Request, tseg: nat)
    requires NoOverflow(r) && r.l.tseg1Min + r.l.tseg2Min <= tseg <= r.l.tseg1Max + r.l.tseg2Max
    ensures Fits(r.l, r.nominal, tseg)
  {
    MulMonotone(1 + r.l.tseg1Min + r.l.tseg2Min, tseg + 1, r.nominal);
  }

  lemma UpdateScratch(l: Limits, nominal: nat, tseg: nat, tseg1: nat, tseg2: nat)
    requires Fits(l, nominal, tseg) && ScratchOk(l, tseg1, tseg2)
    ensures var b := Update(l, nominal, tseg, tseg1, tseg2); ScratchOk(l, b.tseg1, b.tseg2)
  {
    ProbeScratch(l, nominal, tseg, 0);
    ProbeScratch(l, nominal, tseg, 1);
    UpdateIsTwoProbes(l, nominal, tseg, tseg1, tseg2);
    TwoScratch(l, Best(0, UINT_MAX, tseg1, tseg2), ProbeAt(l, nominal, tseg, 0), ProbeAt(l, nominal, tseg, 1), nominal);
  }

  lemma TwoScratch(l: Limits, b: Best, p: Probe, q: Probe, nominal: nat)
    requires ScratchOk(l, b.tseg1, b.tseg2) && ScratchOk(l, p.tseg1, p.tseg2) && ScratchOk(l, q.tseg1, q.tseg2)
    ensures var c := Improve(Improve(b, p, nominal), q, nominal); ScratchOk(l, c.tseg1, c.tseg2)
  {
  }

  lemma ProbeScratch(l: Limits, nominal: nat, tseg: nat, i: nat)
    requires Fits(l, nominal, tseg) && i <= 1
    ensures var p := ProbeAt(l, nominal, tseg, i); ScratchOk(l, p.tseg1, p.tseg2)
  {
    ProbeMeaning(l, nominal, tseg, i);
  }

  lemma {:induction false} RunScratch(r: Request, x: nat, s: Search)
    requires NoOverflow(r) && x <= First(r) && ScratchOk(r.l, s.tseg1, s.tseg2)
    ensures var t := Run(r, x, s); ScratchOk(r.l, t.tseg1, t.tseg2)
    decreases x
  {
    if x >= Last(r) {
      FitsAt(r, x / 2);
      UpdateScratch(r.l, r.nominal, x / 2, s.tseg1, s.tseg2);
      var (s', stop) := Body(r, x, s);
      if !stop {
        RunScratch(r, x - 1, s');
      }
    }
  }

  // ----------------------------------------------------------------- calculation

  function Result(r: Request): Search
    requires NoOverflow(r)
  {
    Run(r, First(r), START)
  }

  /** A result that is not too far off is that of a candidate. */
  lemma ResultUsable(r: Request)
    requires NoOverflow(r) && !TooFar(Result(r).rateError, r.bitrate)
    ensures InRange(r.l, Result(r).brp) && Result(r).brp > 0
    ensures r.l.tseg1Min + r.l.tseg2Min <= Result(r).tseg <= r.l.tseg1Max + r.l.tseg2Max
  {
    hide Chosen, NoCandidate, TooFar;
    SearchFinds(r);
    RateFits(r);
    InitialErrorTooFar(r.bitrate);
    var y: nat :| Chosen(r, Result(r), y);
    ChosenUsable(r, Result(r), y);
  }

  lemma RateFits(r: Request)
    requires NoOverflow(r)
    ensures r.bitrate < U32
  {
    MulMonotone(1, 1 + r.l.tseg1Max + r.l.tseg2Max, r.bitrate);
  }

  lemma ChosenUsable(r: Request, s: Search, y: nat)
    requires NoOverflow(r) && Chosen(r, s, y)
    ensures InRange(r.l, s.brp) && s.brp > 0 && r.l.tseg1Min + r.l.tseg2Min <= s.tseg <= r.l.tseg1Max + r.l.tseg2Max
  {
  }

  function Sjw(sjw: nat, sjwMax: nat, tseg2: nat): nat {
    if sjw == 0 || sjwMax == 0 then 1
    else
      var capped := if sjw > sjwMax then sjwMax else sjw;
      if tseg2 < capped then tseg2 else capped
  }

  /** The split the calculation ends with. */
  function FinalSplit(r: Request): Best
    requires NoOverflow(r) && !TooFar(Result(r).rateError, r.bitrate)
  {
    var s := Result(r);
    ResultUsable(r);
    Update(r.l, r.nominal, s.tseg, s.tseg1, s.tseg2)
  }

  /** The struct after a successful calculation with prescaler `brp` and split `b`. */
  function TimingFrom(freq: nat, l: Limits, t: Timing, brp: nat, b: Best): Timing
    requires freq > 0 && brp > 0
  {
    Timing(RateOf(freq, brp, 1 + b.tseg1 + b.tseg2), b.point, W(Quot(brp * BILLION, freq)), b.tseg1 / 2,
           b.tseg1 - b.tseg1 / 2, b.tseg2, Sjw(t.sjw, l.sjwMax, b.tseg2), brp)
  }

  /** `can_calc_bittiming`: the new values, or `None` for -EDOM. */
  function CalcTiming(freq: nat, l: Limits, t: Timing): Option<Timing>
    requires NoOverflow(RequestOf(freq, l, t))
  {
    var r := RequestOf(freq, l, t);
    var s := Result(r);
    if TooFar(s.rateError, r.bitrate) then None
    else
      ResultUsable(r);
      Some(TimingFrom(freq, l, t, s.brp, FinalSplit(r)))
  }

  /** No 32-bit product wraps in the last lines of the calculation either. */
  lemma CalcNoWrap(r: Request)
    requires NoOverflow(r) && !TooFar(Result(r).rateError, r.bitrate)
    ensures var b := FinalSplit(r); Result(r).brp * (1 + b.tseg1 + b.tseg2) < U32
  {
    FinalScratch(r);
    ResultUsable(r);
    var b := FinalSplit(r);
    ProductBound(Result(r).brp, r.l.brpMax, 1 + b.tseg1 + b.tseg2, 1 + r.l.tseg1Max + r.l.tseg2Max);
  }

  lemma ProductBound(a: nat, b: nat, c: nat, d: nat)
    requires a <= b && c <= d
    ensures a * c <= b * d
  {
    MulMonotone(a, b, c);
    MulMonotone(c, d, b);
  }

  lemma FinalScratch(r: Request)
    requires NoOverflow(r) && !TooFar(Result(r).rateError, r.bitrate)
    ensures ScratchOk(r.l, FinalSplit(r).tseg1, FinalSplit(r).tseg2)
  {
    var s := Result(r);
    RunScratch(r, First(r), START);
    ResultUsable(r);
    FitsAt(r, s.tseg);
    UpdateScratch(r.l, r.nominal, s.tseg, s.tseg1, s.tseg2);
  }

  // --------------------------------------------------------------------- fix-up

  /** Limits for which no product wraps. */
  predicate Fixable(l: Limits) {
    1 <= l.brpMin && l.tseg1Max + l.tseg2Max < 0x10_0000 && l.brpMax * (1 + l.tseg1Max + l.tseg2Max) < U32
  }

  /** Return code and new values of `can_fixup_bittiming`. */
  function FixTiming(freq: nat, l: Limits, t: Timing): (int, Timing)
    requires 0 < freq < U32 && Fixable(l)
  {
    var tseg1 := W(t.propSeg + t.phaseSeg1);
    var t1 := t.(sjw := if t.sjw == 0 then 1 else t.sjw);
    if t1.sjw > l.sjwMax || tseg1 < l.tseg1Min || tseg1 > l.tseg1Max
       || t.phaseSeg2 < l.tseg2Min || t.phaseSeg2 > l.tseg2Max then (ERANGE, t1)
    else
      var brp := W(PracticalBrp(freq, t.tq, l.brpInc));
      var t2 := t1.(brp := brp);
      if brp < l.brpMin || brp > l.brpMax then (EINVAL, t2)
      else
        var total := tseg1 + t.phaseSeg2 + 1;
        (0, t2.(bitrate := RateOf(freq, brp, total), samplePoint := Quot((tseg1 + 1) * 1000, total)))
  }

  /** The prescaler a time quantum stands for, in 64-bit arithmetic. */
  function PracticalBrp(freq: nat, tq: nat, inc: nat): nat {
    if inc > 1 then (Quot(freq * tq, inc) + 499_999_999) / BILLION * inc
    else (freq * tq + 499_999_999) / BILLION
  }

  // ------------------------------------------------------------- the struct itself

  class CanBittiming {
    var bitrate: nat
    var samplePoint: nat
    var tq: nat
    var propSeg: nat
    var phaseSeg1: nat
    var phaseSeg2: nat
    var sjw: nat
    var brp: nat

    function Value(): Timing
      reads this
    {
      Timing(bitrate, samplePoint, tq, propSeg, phaseSeg1, phaseSeg2, sjw, brp)
    }

    method Calc(freq: nat, l: Limits) returns (err: int)
      requires NoOverflow(RequestOf(freq, l, Value()))
      modifies this
      ensures var c := CalcTiming(freq, l, old(Value()));
              if c.Some? then err == 0 && Value() == c.value else err == EDOM && Value() == old(Value())
    {
      hide Result, Update, Nominal;
      ghost var r := RequestOf(freq, l, Value());
      var nominal := Nominal(Value());
      var s := FindBest(freq, l, nominal);
      if s.rateError != 0 {
        var permille := W(Quot(s.rateError * 1000, bitrate));
        if permille > 50 {
          return EDOM;
        }
      }
      ResultUsable(r);
      var point, _, t1, t2 := UpdateSamplePoint(l, nominal, s.tseg, s.tseg1, s.tseg2);
      samplePoint := point;
      tq := W(Quot(s.brp * BILLION, freq));
      propSeg := t1 / 2;
      phaseSeg1 := t1 - propSeg;
      phaseSeg2 := t2;
      if sjw == 0 || l.sjwMax == 0 {
        sjw := 1;
      } else {
        if sjw > l.sjwMax {
          sjw := l.sjwMax;
        }
        if t2 < sjw {
          sjw := t2;
        }
      }
      brp := s.brp;
      bitrate := RateOf(freq, brp, 1 + t1 + t2);
      err := 0;
    }

    /** The search loop. */
    method FindBest(freq: nat, l: Limits, nominal: nat) returns (s: Search)
      requires NoOverflow(Request(freq, l, bitrate, nominal))
      ensures s == Result(Request(freq, l, bitrate, nominal))
    {
      ghost var r := Request(freq, l, bitrate, nominal);
      s := START;
      var x := (l.tseg1Max + l.tseg2Max) * 2 + 1;
      while x >= (l.tseg1Min + l.tseg2Min) * 2
        invariant 0 < x <= First(r) && Run(r, x, s) == Result(r)
        decreases x
      {
        var stop;
        s, stop := TryOne(freq, l, nominal, x, s);
        if stop {
          return;
        }
        x := x - 1;
      }
    }

    /** The body of the search loop; an early return is its `continue`. */
    method TryOne(freq: nat, l: Limits, nominal: nat, x: nat, best: Search) returns (s: Search, stop: bool)
      requires NoOverflow(Request(freq, l, bitrate, nominal)) && x <= First(Request(freq, l, bitrate, nominal))
      ensures (s, stop) == Body(Request(freq, l, bitrate, nominal), x, best)
    {
      s, stop := best, false;
      var total := 1 + x / 2;
      var b := RateOf(freq, total, bitrate) + x % 2;
      b := Quot(b, l.brpInc) * l.brpInc;
      if b < l.brpMin || b > l.brpMax {
        return;
      }
      var rateError := Abs32(W(bitrate - RateOf(freq, b, total)));
      if rateError > s.rateError {
        return;
      }
      if rateError < s.rateError {
        s := s.(pointError := UINT_MAX);
      }
      var _, pointError, t1, t2 := UpdateSamplePoint(l, nominal, x / 2, s.tseg1, s.tseg2);
      s := s.(tseg1 := t1, tseg2 := t2);
      if pointError > s.pointError {
        return;
      }
      s := s.(pointError := pointError, rateError := rateError, tseg := x / 2, brp := b);
      stop := rateError == 0 && pointError == 0;
    }

    method Fixup(freq: nat, l: Limits) returns (err: int)
      requires 0 < freq < U32 && Fixable(l)
      modifies this
      ensures (err, Value()) == FixTiming(freq, l, old(Value()))
    {
      var tseg1 := W(propSeg + phaseSeg1);
      if sjw == 0 {
        sjw := 1;
      }
      if sjw > l.sjwMax || tseg1 < l.tseg1Min || tseg1 > l.tseg1Max
         || phaseSeg2 < l.tseg2Min || phaseSeg2 > l.tseg2Max {
        return ERANGE;
      }
      var brp64 := freq * tq;
      if l.brpInc > 1 {
        brp64 := Quot(brp64, l.brpInc);
      }
      brp64 := brp64 + 499_999_999;
      brp64 := brp64 / BILLION;
      if l.brpInc > 1 {
        brp64 := brp64 * l.brpInc;
      }
      brp := W(brp64);
      if brp < l.brpMin || brp > l.brpMax {
        return EINVAL;
      }
      var total := tseg1 + phaseSeg2 + 1;
      bitrate := RateOf(freq, brp, total);
      samplePoint := Quot((tseg1 + 1) * 1000, total);
      err := 0;
    }
  }
}
