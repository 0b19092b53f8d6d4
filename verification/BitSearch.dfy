/** The search of `can_calc_bittiming` for the prescaler and the number of time quanta. */
module BitSearch {
  import opened Division
  import opened SamplePoint

  /** Clock, limits and request of one call. */
  datatype Request = Request(freq: nat, l: Limits, bitrate: nat, nominal: nat)

  /** What the arithmetic of the search needs so that no product wraps and no divisor is zero. */
  predicate NoOverflow(r: Request) {
    && 0 < r.freq < 0x8000_0000 && 0 < r.bitrate
    && r.l.tseg2Min <= r.l.tseg2Max && r.l.tseg1Min <= r.l.tseg1Max && 1 <= r.l.tseg1Min + r.l.tseg2Min
    && r.l.tseg1Max + r.l.tseg2Max < 0x10_0000
    && 1 <= r.l.brpMin && 1 <= r.l.brpInc && r.l.brpMax * (1 + r.l.tseg1Max + r.l.tseg2Max) < U32
    && (1 + r.l.tseg1Max + r.l.tseg2Max) * r.bitrate < U32
    && r.nominal <= 999 && 1000 <= r.nominal * (1 + r.l.tseg1Min + r.l.tseg2Min)
  }

  /** First and last value of the loop variable: even rounds the prescaler down, odd up. */
  function First(r: Request): nat {
    (r.l.tseg1Max + r.l.tseg2Max) * 2 + 1
  }

  function Last(r: Request): nat {
    (r.l.tseg1Min + r.l.tseg2Min) * 2
  }

  function Total(x: nat): nat {
    1 + x / 2
  }

  /** The prescaler tried at loop value `x`. */
  function BrpAt(r: Request, x: nat): nat
    requires r.bitrate > 0 && r.l.brpInc > 0
  {
    var brp := RateOf(r.freq, Total(x), r.bitrate) + x % 2;
    Quot(brp, r.l.brpInc) * r.l.brpInc
  }

  predicate InRange(l: Limits, brp: nat) {
    l.brpMin <= brp <= l.brpMax
  }

  /** |requested - actual| for a prescaler and a number of quanta per bit. */
  function RateError(r: Request, brp: nat, total: nat): nat
    requires brp > 0 && total > 0
  {
    Abs32(W(r.bitrate - RateOf(r.freq, brp, total)))
  }

  /** The loop's variables: best errors, best tseg and brp, and the scratch split. */
  datatype Search = Search(rateError: nat, pointError: nat, tseg: nat, brp: nat, tseg1: nat, tseg2: nat)

  const START := Search(UINT_MAX, UINT_MAX, 0, 0, 0, 0)

  /** Loop value `x` is tried: its prescaler is in range. */
  predicate Tried(r: Request, x: nat)
    requires NoOverflow(r)
  {
    InRange(r.l, BrpAt(r, x))
  }

  function RateErrorAt(r: Request, x: nat): nat
    requires NoOverflow(r) && Tried(r, x)
  {
    RateError(r, BrpAt(r, x), Total(x))
  }

  function PointErrorAt(r: Request, x: nat): nat
    requires x <= First(r) && r.l.tseg1Max + r.l.tseg2Max < 0x10_0000
  {
    Update(r.l, r.nominal, x / 2, 0, 0).error
  }

  /** One pass of the loop body; the flag is the early exit. */
  function Body(r: Request, x: nat, s: Search): (Search, bool)
    requires NoOverflow(r) && x <= First(r)
  {
    if !Tried(r, x) then (s, false)
    else
      var rateError := RateErrorAt(r, x);
      if rateError > s.rateError then (s, false)
      else
        var bar := if rateError < s.rateError then UINT_MAX else s.pointError;
        var b := Update(r.l, r.nominal, x / 2, s.tseg1, s.tseg2);
        if b.error > bar then (s.(pointError := bar, tseg1 := b.tseg1, tseg2 := b.tseg2), false)
        else (Search(rateError, b.error, x / 2, BrpAt(r, x), b.tseg1, b.tseg2), rateError == 0 && b.error == 0)
  }

  /** The loop from value `x` down. */
  function Run(r: Request, x: nat, s: Search): Search
    requires NoOverflow(r) && x <= First(r)
    decreases x
  {
    if x < Last(r) then s
    else
      var (s', stop) := Body(r, x, s);
      if stop then s' else Run(r, x - 1, s')
  }

  // ------------------------------------------------------- lexicographic minimum

  lemma {:induction false} ErrorIgnoresScratch(l: Limits, nominal: nat, tseg: nat, a: nat, b: nat)
    requires tseg + 1 < U32
    ensures Update(l, nominal, tseg, a, b).error == Update(l, nominal, tseg, 0, 0).error
    ensures Update(l, nominal, tseg, a, b).error <= UINT_MAX
  {
    assert Probed(l, nominal, tseg, a, b, 1).error == Probed(l, nominal, tseg, 0, 0, 1).error;
  }

  /** (rate error, point error) of two candidates in lexicographic order. */
  predicate LexLe(a: nat, b: nat, c: nat, d: nat) {
    a < c || (a == c && b <= d)
  }

  /** `s` records loop value `y`. */
  ghost predicate Records(r: Request, s: Search, y: nat)
    requires NoOverflow(r) && y <= First(r)
  {
    && Tried(r, y) && s.tseg == y / 2 && s.brp == BrpAt(r, y)
    && s.rateError == RateErrorAt(r, y) && s.pointError == PointErrorAt(r, y)
  }

  /** Candidate `y` is no worse than candidate `z`. */
  ghost predicate NoWorse(r: Request, y: nat, z: nat)
    requires NoOverflow(r) && y <= First(r) && z <= First(r) && Tried(r, y) && Tried(r, z)
  {
    LexLe(RateErrorAt(r, y), PointErrorAt(r, y), RateErrorAt(r, z), PointErrorAt(r, z))
  }

  /** Of the values above `x`, `y` is a best one and the one visited last among the best. */
  ghost predicate BestAbove(r: Request, x: int, y: nat)
    requires NoOverflow(r)
  {
    && x < y <= First(r) && Tried(r, y)
    && (forall z: nat :: x < z <= First(r) && Tried(r, z) ==> NoWorse(r, y, z))
    && (forall z: nat :: x < z < y && Tried(r, z) ==> !NoWorse(r, z, y))
  }

  ghost predicate NoneAbove(r: Request, x: int)
    requires NoOverflow(r)
  {
    forall z: nat :: x < z <= First(r) ==> !Tried(r, z)
  }

  ghost predicate Untouched(s: Search) {
    s.rateError == UINT_MAX && s.pointError == UINT_MAX && s.tseg == 0 && s.brp == 0
  }

  /** The loop's record after the values above `x`. */
  ghost predicate Summary(r: Request, x: int, s: Search)
    requires NoOverflow(r)
  {
    || (NoneAbove(r, x) && Untouched(s))
    || exists y: nat :: BestAbove(r, x, y) && Records(r, s, y)
  }

  lemma ErrorRange(r: Request, x: nat)
    requires NoOverflow(r) && x <= First(r) && Tried(r, x)
    ensures RateErrorAt(r, x) < UINT_MAX && PointErrorAt(r, x) <= UINT_MAX
  {
    ErrorIgnoresScratch(r.l, r.nominal, x / 2, 0, 0);
  }

  /** The body records `x` exactly when it is no worse than the record so far. */
  lemma BodyMeaning(r: Request, x: nat, s: Search)
    requires NoOverflow(r) && x <= First(r) && s.pointError <= UINT_MAX
    ensures var (s', stop) := Body(r, x, s);
            if Tried(r, x) && LexLe(RateErrorAt(r, x), PointErrorAt(r, x), s.rateError, s.pointError)
            then Records(r, s', x) && (stop <==> s'.rateError == 0 && s'.pointError == 0)
            else s'.(tseg1 := s.tseg1, tseg2 := s.tseg2) == s && !stop
  {
    if Tried(r, x) {
      ErrorRange(r, x);
      ErrorIgnoresScratch(r.l, r.nominal, x / 2, s.tseg1, s.tseg2);
    }
  }

  lemma RecordsScratch(r: Request, s: Search, s': Search, y: nat)
    requires NoOverflow(r) && y <= First(r) && Records(r, s, y) && s'.(tseg1 := s.tseg1, tseg2 := s.tseg2) == s
    ensures Records(r, s', y)
  {
  }

  lemma BodyKeeps(r: Request, x: nat, s: Search)
    requires NoOverflow(r) && x <= First(r) && Summary(r, x, s)
    ensures Summary(r, x - 1, Body(r, x, s).0)
  {
    if NoneAbove(r, x) && Untouched(s) {
      BodyFirst(r, x, s);
    } else {
      var y: nat :| BestAbove(r, x, y) && Records(r, s, y);
      BodyNext(r, x, s, y);
    }
  }

  lemma BodyFirst(r: Request, x: nat, s: Search)
    requires NoOverflow(r) && x <= First(r) && NoneAbove(r, x) && Untouched(s)
    ensures Summary(r, x - 1, Body(r, x, s).0)
  {
    var s' := Body(r, x, s).0;
    BodyMeaning(r, x, s);
    if Tried(r, x) {
      ErrorRange(r, x);
      OnlyBest(r, x);
      assert BestAbove(r, x - 1, x) && Records(r, s', x);
    } else {
      assert NoneAbove(r, x - 1) && Untouched(s');
    }
  }

  lemma OnlyBest(r: Request, x: nat)
    requires NoOverflow(r) && x <= First(r) && NoneAbove(r, x) && Tried(r, x)
    ensures BestAbove(r, x - 1, x)
  {
    NoWorseTotal(r, x, x);
  }

  lemma BodyNext(r: Request, x: nat, s: Search, y: nat)
    requires NoOverflow(r) && x <= First(r) && BestAbove(r, x, y) && Records(r, s, y)
    ensures Summary(r, x - 1, Body(r, x, s).0)
  {
    var s' := Body(r, x, s).0;
    ErrorRange(r, y);
    BodyMeaning(r, x, s);
    if Tried(r, x) && NoWorse(r, x, y) {
      NewBest(r, x, y);
      assert BestAbove(r, x - 1, x) && Records(r, s', x);
    } else {
      OldBest(r, x, y);
      RecordsScratch(r, s, s', y);
      assert BestAbove(r, x - 1, y) && Records(r, s', y);
    }
  }

  lemma NewBest(r: Request, x: nat, y: nat)
    requires NoOverflow(r) && x <= First(r) && BestAbove(r, x, y) && Tried(r, x) && NoWorse(r, x, y)
    ensures BestAbove(r, x - 1, x)
  {
    forall z: nat | x - 1 < z <= First(r) && Tried(r, z) ensures NoWorse(r, x, z) {
      if z != x {
        NoWorseTrans(r, x, y, z);
      }
    }
  }

  lemma NoWorseTrans(r: Request, x: nat, y: nat, z: nat)
    requires NoOverflow(r) && x <= First(r) && y <= First(r) && z <= First(r)
    requires Tried(r, x) && Tried(r, y) && Tried(r, z) && NoWorse(r, x, y) && NoWorse(r, y, z)
    ensures NoWorse(r, x, z)
  {
  }

  lemma NoWorseTotal(r: Request, y: nat, z: nat)
    requires NoOverflow(r) && y <= First(r) && z <= First(r) && Tried(r, y) && Tried(r, z)
    ensures NoWorse(r, y, z) || NoWorse(r, z, y)
  {
  }

  lemma OldBest(r: Request, x: nat, y: nat)
    requires NoOverflow(r) && x <= First(r) && BestAbove(r, x, y) && (Tried(r, x) ==> !NoWorse(r, x, y))
    ensures BestAbove(r, x - 1, y)
  {
    if Tried(r, x) {
      NoWorseTotal(r, x, y);
    }
  }

  /** Both errors of a candidate are zero, which ends the search. */
  ghost predicate Perfect(r: Request, y: nat)
    requires NoOverflow(r) && y <= First(r) && Tried(r, y)
  {
    RateErrorAt(r, y) == 0 && PointErrorAt(r, y) == 0
  }

  /** The search ends with candidate `y`: no candidate of the whole range is better; of equally good
      ones the last visited is taken, except that a perfect one ends the search at once. */
  ghost predicate Chosen(r: Request, s: Search, y: nat)
    requires NoOverflow(r)
  {
    && Last(r) <= y <= First(r) && Tried(r, y) && Records(r, s, y)
    && (forall z: nat :: Last(r) <= z <= First(r) && Tried(r, z) ==> NoWorse(r, y, z))
    && (forall z: nat :: Last(r) <= z <= First(r) && Tried(r, z) && z != y && NoWorse(r, z, y) ==>
          if Perfect(r, y) then z < y else y < z)
  }

  ghost predicate NoCandidate(r: Request)
    requires NoOverflow(r)
  {
    forall z: nat :: Last(r) <= z <= First(r) ==> !Tried(r, z)
  }

  /** What the loop promises about its result. */
  ghost predicate Found(r: Request, s: Search)
    requires NoOverflow(r)
  {
    (NoCandidate(r) && Untouched(s)) || exists y: nat :: Chosen(r, s, y)
  }

  ghost predicate Imperfect(s: Search) {
    s.rateError != 0 || s.pointError != 0
  }

  lemma EndOfLoop(r: Request, s: Search)
    requires NoOverflow(r) && Summary(r, Last(r) - 1, s) && Imperfect(s)
    ensures Found(r, s)
  {
    if !(NoneAbove(r, Last(r) - 1) && Untouched(s)) {
      var y: nat :| BestAbove(r, Last(r) - 1, y) && Records(r, s, y);
      assert Chosen(r, s, y);
    }
  }

  lemma PerfectIsBest(r: Request, y: nat, z: nat)
    requires NoOverflow(r) && y <= First(r) && z <= First(r) && Tried(r, y) && Tried(r, z) && Perfect(r, y)
    ensures NoWorse(r, y, z) && (NoWorse(r, z, y) <==> Perfect(r, z))
  {
  }

  lemma NonePerfectAbove(r: Request, x: nat, s: Search, z: nat)
    requires NoOverflow(r) && Summary(r, x, s) && Imperfect(s) && x < z <= First(r) && Tried(r, z)
    ensures !Perfect(r, z)
  {
    var y: nat :| BestAbove(r, x, y) && Records(r, s, y);
    assert NoWorse(r, y, z);
  }

  lemma EarlyExit(r: Request, x: nat, s: Search, s': Search)
    requires NoOverflow(r) && Last(r) <= x <= First(r) && Summary(r, x, s) && Imperfect(s)
    requires Records(r, s', x) && !Imperfect(s')
    ensures Found(r, s')
  {
    forall z: nat | Last(r) <= z <= First(r) && Tried(r, z)
      ensures NoWorse(r, x, z) && (z != x && NoWorse(r, z, x) ==> z < x)
    {
      PerfectIsBest(r, x, z);
      if z > x {
        NonePerfectAbove(r, x, s, z);
      }
    }
    assert Chosen(r, s', x);
  }

  /** The loop, with its resets, continues and early exit, finds the lexicographic minimum of
      (rate error, point error) over the whole range, or nothing when nothing is in range. */
  lemma {:induction false} RunFinds(r: Request, x: nat, s: Search)
    requires NoOverflow(r) && Last(r) - 1 <= x <= First(r) && Summary(r, x, s) && Imperfect(s)
    ensures Found(r, Run(r, x, s))
    decreases x
  {
    hide Summary, Found, NoOverflow, Body, Imperfect, Last, First;
    LastPositive(r);
    if x < Last(r) {
      EndOfLoop(r, s);
    } else {
      var (s', stop) := Body(r, x, s);
      PassFinds(r, x, s);
      if !stop {
        RunFinds(r, x - 1, s');
      }
    }
  }

  lemma LastPositive(r: Request)
    requires NoOverflow(r)
    ensures Last(r) > 0
  {
  }

  /** One pass of the loop: it is over, or the record is kept. */
  lemma PassFinds(r: Request, x: nat, s: Search)
    requires NoOverflow(r) && Last(r) <= x <= First(r) && Summary(r, x, s) && Imperfect(s)
    ensures var (s', stop) := Body(r, x, s);
            if stop then Found(r, s') else Summary(r, x - 1, s') && Imperfect(s')
  {
    hide Summary, Found, NoOverflow, Body;
    var (s', stop) := Body(r, x, s);
    BodyKeeps(r, x, s);
    SummaryRange(r, x, s);
    BodyMeaning(r, x, s);
    if stop {
      EarlyExit(r, x, s, s');
    }
  }

  lemma SummaryRange(r: Request, x: int, s: Search)
    requires NoOverflow(r) && Summary(r, x, s)
    ensures s.pointError <= UINT_MAX
  {
    if !Untouched(s) {
      var y: nat :| BestAbove(r, x, y) && Records(r, s, y);
      ErrorRange(r, y);
    }
  }

  lemma SearchFinds(r: Request)
    requires NoOverflow(r)
    ensures Found(r, Run(r, First(r), START))
  {
    assert NoneAbove(r, First(r)) && Untouched(START);
    RunFinds(r, First(r), START);
  }
}
