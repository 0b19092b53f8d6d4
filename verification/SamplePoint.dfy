/** The split of a bit time into tseg1 and tseg2: two probes for the sample point. Numbers are
    32-bit unsigned; `W` marks where the arithmetic wraps. */
module SamplePoint {
  import opened Division

  const U32: nat := 0x1_0000_0000
  const UINT_MAX: nat := 0xFFFF_FFFF

  /** `x` modulo 2^32. */
  function W(x: int): (r: nat)
    ensures r < U32
    ensures 0 <= x < U32 ==> r == x
    decreases x < 0, if x < 0 then -x else x
  {
    if x < 0 then W(x + U32) else if x < U32 then x else W(x - U32)
  }

  /** The share of `nominal` per mille in `total` quanta, rounded down. */
  function Share(nominal: nat, total: nat): nat {
    W(nominal * total) / 1000
  }

  /** `abs` of an unsigned difference, taken as a signed number. */
  function Abs32(d: nat): nat
    requires d < U32
  {
    if d < 0x8000_0000 then d else U32 - d
  }

  function Clamp(v: nat, lo: nat, hi: nat): nat {
    var m := if v > lo then v else lo;
    if m < hi then m else hi
  }

  /** `struct can_bittiming_const`. */
  datatype Limits = Limits(tseg1Min: nat, tseg1Max: nat, tseg2Min: nat, tseg2Max: nat, sjwMax: nat,
                           brpMin: nat, brpMax: nat, brpInc: nat)

  /** One probe: a split and the sample point it gives, in one-tenth of a percent. */
  datatype Probe = Probe(tseg1: nat, tseg2: nat, point: nat)

  function ProbeAt(l: Limits, nominal: nat, tseg: nat, i: nat): Probe
    requires tseg + 1 < U32
  {
    var total := tseg + 1;
    var t2 := Clamp(W(total - Share(nominal, total) - i), l.tseg2Min, l.tseg2Max);
    var t1 := W(tseg - t2);
    var (s1, s2) := if t1 > l.tseg1Max then (l.tseg1Max, W(tseg - l.tseg1Max)) else (t1, t2);
    Probe(s1, s2, Quot(W(1000 * W(total - s2)), total))
  }

  /** What `can_update_sample_point` returns and leaves in its out-parameters. */
  datatype Best = Best(point: nat, error: nat, tseg1: nat, tseg2: nat)

  function Improve(b: Best, p: Probe, nominal: nat): Best {
    var error := Abs32(W(nominal - p.point));
    if p.point <= nominal && error < b.error then Best(p.point, error, p.tseg1, p.tseg2) else b
  }

  /** The best of the first `i` probes; without one, the out-parameters keep their values. */
  function Probed(l: Limits, nominal: nat, tseg: nat, tseg1: nat, tseg2: nat, i: nat): Best
    requires tseg + 1 < U32
  {
    if i == 0 then Best(0, UINT_MAX, tseg1, tseg2)
    else Improve(Probed(l, nominal, tseg, tseg1, tseg2, i - 1), ProbeAt(l, nominal, tseg, i - 1), nominal)
  }

  function Update(l: Limits, nominal: nat, tseg: nat, tseg1: nat, tseg2: nat): Best
    requires tseg + 1 < U32
  {
    Probed(l, nominal, tseg, tseg1, tseg2, 2)
  }

  /** `can_update_sample_point`; `tseg1` and `tseg2` are what its pointers refer to before. */
  method UpdateSamplePoint(l: Limits, nominal: nat, tseg: nat, tseg1: nat, tseg2: nat)
    returns (point: nat, error: nat, s1: nat, s2: nat)
    requires tseg + 1 < U32
    ensures Best(point, error, s1, s2) == Update(l, nominal, tseg, tseg1, tseg2)
  {
    point, error, s1, s2 := 0, UINT_MAX, tseg1, tseg2;
    for i := 0 to 2
      invariant Best(point, error, s1, s2) == Probed(l, nominal, tseg, tseg1, tseg2, i)
    {
      var p := ProbeAt(l, nominal, tseg, i);
      var e := Abs32(W(nominal - p.point));
      ghost var before := Best(point, error, s1, s2);
      if p.point <= nominal && e < error {
        point, error, s1, s2 := p.point, e, p.tseg1, p.tseg2;
      }
      assert Best(point, error, s1, s2) == Improve(before, p, nominal);
    }
  }

  // ---------------------------------------------------------------- reference

  /** The sample point of a split, as the Bosch CAN Specification defines it. */
  function PointOf(total: nat, tseg2: nat): nat
    requires 0 < total && tseg2 <= total
  {
    Quot(1000 * (total - tseg2), total)
  }

  /** A split the hardware limits allow; the lower limit of tseg1 is not looked at. */
  predicate Allowed(l: Limits, tseg: nat, tseg2: nat) {
    l.tseg2Min <= tseg2 <= l.tseg2Max && tseg2 <= tseg && tseg - tseg2 <= l.tseg1Max
  }

  /** A sum of segments within the limits, and a nominal point for which nothing wraps. */
  predicate Fits(l: Limits, nominal: nat, tseg: nat) {
    && l.tseg2Min <= l.tseg2Max && l.tseg2Min <= tseg <= l.tseg1Max + l.tseg2Max
    && nominal <= 999 && 1000 <= nominal * (tseg + 1) && tseg < 0x10_0000
  }

  /** The smallest and the largest tseg2 that are allowed. */
  function Least2(l: Limits, tseg: nat): nat {
    if tseg > l.tseg1Max && tseg - l.tseg1Max > l.tseg2Min then tseg - l.tseg1Max else l.tseg2Min
  }

  function Most2(l: Limits, tseg: nat): nat {
    if l.tseg2Max < tseg then l.tseg2Max else tseg
  }

  lemma PointFalls(total: nat, a: nat, b: nat)
    requires 0 < total && a <= b <= total
    ensures PointOf(total, b) <= PointOf(total, a)
  {
    QuotMonotone(1000 * (total - b), 1000 * (total - a), total);
  }

  /** The tseg2 at which the sample point would be exactly nominal, rounded up. */
  function Ideal2(nominal: nat, total: nat): int {
    total - nominal * total / 1000
  }

  /** Each probe is the ideal tseg2, or one less, moved into the allowed range. */
  lemma ProbeMeaning(l: Limits, nominal: nat, tseg: nat, i: nat)
    requires Fits(l, nominal, tseg) && i <= 1
    ensures var total, p := tseg + 1, ProbeAt(l, nominal, tseg, i);
            var x := Ideal2(nominal, total) - i;
            && Least2(l, tseg) <= Most2(l, tseg) && p.tseg2 == Into(x, Least2(l, tseg), Most2(l, tseg))
            && Allowed(l, tseg, p.tseg2) && p.tseg1 == tseg - p.tseg2 && p.point == PointOf(total, p.tseg2)
  {
    var total := tseg + 1;
    ShareBounds(nominal, total);
  }

  lemma ShareBounds(nominal: nat, total: nat)
    requires 0 < total <= 0x10_0000 && nominal <= 999 && 1000 <= nominal * total
    ensures 1 <= Share(nominal, total) < total && Share(nominal, total) == nominal * total / 1000
  {
    MulMonotone(nominal, 999, total);
    var x := nominal * total;
    assert 1000 <= x <= 999 * total;
  }

  /** The nominal point is met or undershot from the ideal tseg2 on, and overshot two below it. */
  lemma IdealBounds(nominal: nat, total: nat, t2: nat)
    requires 0 < total <= 1000 && nominal <= 999 && t2 <= total
    ensures t2 >= Ideal2(nominal, total) ==> PointOf(total, t2) <= nominal
    ensures t2 <= Ideal2(nominal, total) - 2 ==> PointOf(total, t2) > nominal
  {
    QuotAtMost(1000 * (total - t2), total, nominal);
    var q := nominal * total / 1000;
    assert 1000 * q <= nominal * total < 1000 * q + 1000;
  }

  lemma UpdateIsTwoProbes(l: Limits, nominal: nat, tseg: nat, tseg1: nat, tseg2: nat)
    requires tseg + 1 < U32
    ensures Update(l, nominal, tseg, tseg1, tseg2) ==
              Improve(Improve(Best(0, UINT_MAX, tseg1, tseg2), ProbeAt(l, nominal, tseg, 0), nominal),
                      ProbeAt(l, nominal, tseg, 1), nominal)
  {
    assert Probed(l, nominal, tseg, tseg1, tseg2, 1) ==
      Improve(Probed(l, nominal, tseg, tseg1, tseg2, 0), ProbeAt(l, nominal, tseg, 0), nominal);
  }

  lemma ImproveMeaning(b: Best, p: Probe, nominal: nat)
    requires nominal <= 999
    ensures Improve(b, p, nominal) ==
              if p.point <= nominal && nominal - p.point < b.error
              then Best(p.point, nominal - p.point, p.tseg1, p.tseg2) else b
  {
  }

  /** The best allowed split: `t2` meets the nominal point from below and nothing gets closer. */
  ghost predicate Closest(l: Limits, nominal: nat, tseg: nat, t2: nat) {
    && Allowed(l, tseg, t2) && PointOf(tseg + 1, t2) <= nominal
    && forall u :: Allowed(l, tseg, u) && PointOf(tseg + 1, u) <= nominal ==>
         PointOf(tseg + 1, u) <= PointOf(tseg + 1, t2)
  }

  /** No allowed split meets the nominal point from below. */
  ghost predicate Infeasible(l: Limits, nominal: nat, tseg: nat) {
    forall u :: Allowed(l, tseg, u) ==> PointOf(tseg + 1, u) > nominal
  }

  /** `x` moved into `lo..hi`. */
  function Into(x: int, lo: nat, hi: nat): nat
    requires lo <= hi
  {
    if x <= lo then lo else if x >= hi then hi else x
  }

  lemma NeighboursAreEnough(nominal: nat, total: nat, lo: nat, hi: nat, u: nat)
    requires 0 < total <= 1000 && nominal <= 999 && lo <= u <= hi <= total && PointOf(total, u) <= nominal
    ensures var x := Ideal2(nominal, total);
            || PointOf(total, u) <= PointOf(total, Into(x, lo, hi)) <= nominal
            || PointOf(total, u) <= PointOf(total, Into(x - 1, lo, hi)) <= nominal
  {
    var x := Ideal2(nominal, total);
    IdealBounds(nominal, total, u);
    if u > x - 1 {
      var a := Into(x, lo, hi);
      IdealBounds(nominal, total, a);
      PointFalls(total, a, u);
    }
  }

  lemma ProbesAreEnough(l: Limits, nominal: nat, tseg: nat, u: nat)
    requires Fits(l, nominal, tseg) && tseg < 1000 && Allowed(l, tseg, u) && PointOf(tseg + 1, u) <= nominal
    ensures var a, b := ProbeAt(l, nominal, tseg, 0), ProbeAt(l, nominal, tseg, 1);
            || PointOf(tseg + 1, u) <= a.point <= nominal
            || PointOf(tseg + 1, u) <= b.point <= nominal
  {
    ProbeMeaning(l, nominal, tseg, 0);
    ProbeMeaning(l, nominal, tseg, 1);
    NeighboursAreEnough(nominal, tseg + 1, Least2(l, tseg), Most2(l, tseg), u);
  }

  /** The two probes find the greatest sample point not above nominal among all allowed
      splits, and find none exactly when there is none. */
  lemma SplitExact(l: Limits, nominal: nat, tseg: nat, tseg1: nat, tseg2: nat)
    requires Fits(l, nominal, tseg) && tseg < 1000
    ensures var b := Update(l, nominal, tseg, tseg1, tseg2);
            && (b.error == UINT_MAX <==> Infeasible(l, nominal, tseg))
            && (b.error == UINT_MAX ==> b == Best(0, UINT_MAX, tseg1, tseg2))
            && (b.error != UINT_MAX ==>
                  && Closest(l, nominal, tseg, b.tseg2) && b.tseg1 == tseg - b.tseg2
                  && b.point == PointOf(tseg + 1, b.tseg2) && b.error == nominal - b.point)
  {
    var p, q := ProbeAt(l, nominal, tseg, 0), ProbeAt(l, nominal, tseg, 1);
    ProbeMeaning(l, nominal, tseg, 0);
    ProbeMeaning(l, nominal, tseg, 1);
    var b0 := Best(0, UINT_MAX, tseg1, tseg2);
    var b1 := Improve(b0, p, nominal);
    UpdateIsTwoProbes(l, nominal, tseg, tseg1, tseg2);
    ImproveMeaning(b0, p, nominal);
    ImproveMeaning(b1, q, nominal);
    forall u | Allowed(l, tseg, u) && PointOf(tseg + 1, u) <= nominal
      ensures PointOf(tseg + 1, u) <= p.point <= nominal || PointOf(tseg + 1, u) <= q.point <= nominal
    {
      ProbesAreEnough(l, nominal, tseg, u);
    }
  }
}
