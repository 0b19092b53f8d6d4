/** A ring buffer read from a moving base: frame number `q` lives at index `q % n`. */
module Rings {
  import P = Priority

  /** `q % n`, by repeated subtraction. */
  function Idx(n: nat, q: nat): (r: nat)
    requires n > 0
    ensures r < n
  {
    if q < n then q else Idx(n, q - n)
  }

  lemma {:induction false} IdxIsMod(n: nat, q: nat)
    requires n > 0
    ensures Idx(n, q) == q % n
    decreases q
  {
    if q >= n {
      IdxIsMod(n, q - n);
      P.DivModUnique(q, n, (q - n) / n + 1, (q - n) % n);
    } else {
      P.DivModUnique(q, n, 0, q);
    }
  }

  /** The ring as seen from frame number `base`: element `k` is that of frame `base + k`. */
  function View<T>(ring: seq<T>, base: nat): (v: seq<T>)
    requires |ring| > 0
    ensures |v| == |ring|
  {
    if base == 0 then ring
    else
      var v := View(ring, base - 1);
      v[1..] + [v[0]]
  }

  lemma {:induction false} ViewAt<T>(ring: seq<T>, base: nat, k: nat)
    requires k < |ring|
    ensures View(ring, base)[k] == ring[Idx(|ring|, base + k)]
    decreases base
  {
    var n := |ring|;
    if base > 0 {
      if k + 1 < n {
        ViewAt(ring, base - 1, k + 1);
      } else {
        ViewAt(ring, base - 1, 0);
      }
    }
  }

  lemma NoMultipleBetween(d: int, n: nat)
    ensures d * n <= 0 || d * n >= n
  {
    if d >= 1 {
      assert d * n == (d - 1) * n + n;
    }
  }

  /** Frame numbers less than `n` apart use different buffers. */
  lemma IdxDistinct(n: nat, a: nat, b: nat)
    requires n > 0 && a < b < a + n
    ensures Idx(n, a) != Idx(n, b)
  {
    IdxIsMod(n, a);
    IdxIsMod(n, b);
    var d := b / n - a / n;
    NoMultipleBetween(d, n);
    assert d * n == (b / n) * n - (a / n) * n;
  }

  /** Writing frame `base + k`'s buffer changes element `k` of the view and no other. */
  lemma ViewUpdate<T>(ring: seq<T>, base: nat, k: nat, x: T)
    requires k < |ring|
    ensures View(ring[Idx(|ring|, base + k) := x], base) == View(ring, base)[k := x]
  {
    var n := |ring|;
    var ring' := ring[Idx(n, base + k) := x];
    forall j | 0 <= j < n
      ensures View(ring', base)[j] == View(ring, base)[k := x][j]
    {
      ViewAt(ring', base, j);
      ViewAt(ring, base, j);
      if j < k {
        IdxDistinct(n, base + j, base + k);
      } else if k < j {
        IdxDistinct(n, base + k, base + j);
      }
    }
  }

  /** Every buffer is that of one frame in any `n` consecutive ones. */
  lemma IndexOf(n: nat, base: nat, i: nat) returns (k: nat)
    requires i < n
    ensures k < n && Idx(n, base + k) == i
  {
    var d := base / n;
    P.DivModUnique(d * n + i, n, d, i);
    if d * n + i >= base {
      k := d * n + i - base;
    } else {
      P.DivModUnique(d * n + i + n, n, d + 1, i);
      k := d * n + i + n - base;
    }
    IdxIsMod(n, base + k);
  }

  lemma ViewStep<T>(ring: seq<T>, base: nat)
    requires |ring| > 0
    ensures View(ring, base + 1) == View(ring, base)[1..] + [View(ring, base)[0]]
  {
  }
}
