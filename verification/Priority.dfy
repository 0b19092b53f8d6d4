/** The TX_PRIORITY word: one nibble per TXT buffer, rotated by the driver each
    time the oldest buffer is retired. Words are 32-bit unsigned numbers. */
module Priority {

  const WORD: nat := 0x1_0000_0000
  const INITIAL_PRIORITY: nat := 0x0123_4567

  /** Nibble `i` of a word: `(p >> 4*i) & 0xF`. */
  function Nibble(p: nat, i: nat): (r: nat)
    ensures r < 16
  {
    if i == 0 then p % 16 else Nibble(p / 16, i - 1)
  }

  /** The three priority bits that the TX_PRIORITY register keeps of a nibble. */
  function Prio(p: nat, i: nat): nat {
    Nibble(p, i) % 8
  }

  /** One rotation over `n` buffers. The left shift drops the top nibble of the 32-bit
      word and leaves the low nibble zero, so the bitwise or is an addition. */
  function Rotate(p: nat, n: nat): (r: nat)
    requires 1 <= n <= 8
    ensures r < WORD
  {
    p * 16 % WORD + Nibble(p, n - 1)
  }

  function Pow16(m: nat): (r: nat)
    ensures r > 0
  {
    if m == 0 then 1 else 16 * Pow16(m - 1)
  }

  lemma DivModUnique(a: int, n: int, q: int, m: int)
    requires n > 0 && a == q * n + m && 0 <= m < n
    ensures a / n == q && a % n == m
  {
    var d := a / n - q;
    assert -n < d * n < n;
  }

  lemma SuccMod(a: nat, n: nat)
    requires n > 0
    ensures (a + 1) % n == if a % n + 1 == n then 0 else a % n + 1
  {
    var q, m := a / n, a % n;
    if m + 1 == n {
      DivModUnique(a + 1, n, q + 1, 0);
    } else {
      DivModUnique(a + 1, n, q, m + 1);
    }
  }

  /** Cutting a word to its low `m` nibbles keeps them. */
  lemma {:induction false} NibbleOfLow(p: nat, m: nat, i: nat)
    requires i < m
    ensures Nibble(p % Pow16(m), i) == Nibble(p, i)
  {
    var c := Pow16(m - 1);
    var q, r := p / 16 / c, p / 16 % c;
    DivModUnique(p, 16 * c, q, 16 * r + p % 16);
    if i > 0 {
      NibbleOfLow(p / 16, m - 1, i - 1);
    }
  }

  /** Rotation moves the priority of every buffer to its cyclic successor. */
  lemma RotateMovesNibble(p: nat, n: nat, i: nat)
    requires 1 <= n <= 8 && i < n
    ensures Nibble(Rotate(p, n), if i + 1 == n then 0 else i + 1) == Nibble(p, i)
  {
    var low := p % 0x1000_0000;
    assert p * 16 % WORD == low * 16;
    assert Rotate(p, n) / 16 == low && Rotate(p, n) % 16 == Nibble(p, n - 1);
    if i + 1 < n {
      assert Pow16(7) == 0x1000_0000 by {
        assert Pow16(2) == 0x100 && Pow16(4) == 0x1_0000 && Pow16(6) == 0x100_0000;
      }
      NibbleOfLow(p, 7, i);
    }
  }

  /** The word after `r` rotations of the initial word. */
  function Rotated(n: nat, r: nat): (p: nat)
    requires 1 <= n <= 8
    ensures p < WORD
  {
    if r == 0 then INITIAL_PRIORITY else Rotate(Rotated(n, r - 1), n)
  }

  lemma InitialNibble(k: nat)
    requires k < 8
    ensures Nibble(INITIAL_PRIORITY, k) == 7 - k
  {
    assert Nibble(0x0123, 0) == 3 && Nibble(0x0123, 1) == 2;
    assert Nibble(0x01, 0) == 1 && Nibble(0x01, 1) == 0;
    assert Nibble(0x0123, 2) == Nibble(0x01, 0) && Nibble(0x0123, 3) == Nibble(0x01, 1);
    assert Nibble(0x01_2345, 0) == 5 && Nibble(0x01_2345, 1) == 4;
    assert Nibble(0x01_2345, 2) == Nibble(0x0123, 0);
    assert Nibble(0x01_2345, 3) == Nibble(0x0123, 1);
    assert Nibble(0x01_2345, 4) == Nibble(0x0123, 2);
    assert Nibble(0x01_2345, 5) == Nibble(0x0123, 3);
  }

  lemma RotateStep(p: nat, n: nat, a: nat)
    requires 1 <= n <= 8
    ensures Nibble(Rotate(p, n), (a + 1) % n) == Nibble(p, a % n)
  {
    RotateMovesNibble(p, n, a % n);
    SuccMod(a, n);
  }

  /** Whatever the word holds above nibble n-1, the buffer `k` places behind the
      oldest one has priority 7-k, after any number of rotations. */
  lemma {:induction false} RotatedClosedForm(n: nat, r: nat, k: nat)
    requires 1 <= n <= 8 && k < n
    ensures Nibble(Rotated(n, r), (r + k) % n) == 7 - k
    decreases r
  {
    if r == 0 {
      InitialNibble(k);
      DivModUnique(k, n, 0, k);
    } else {
      var p := Rotated(n, r - 1);
      RotatedClosedForm(n, r - 1, k);
      RotateStep(p, n, r - 1 + k);
    }
  }
}
