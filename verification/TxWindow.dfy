/** The TXT buffers read as a window that starts at the oldest buffer in use, and how the
    window changes with each kind of step. */
module TxWindow {
  import opened Frames
  import opened Rings
  import opened TxRing
  import A = Arbiter
  import P = Priority

  /** The first `m` buffers of a view are in use, all others are empty. */
  ghost predicate Occupied(v: seq<Slot>, m: nat) {
    m <= |v| && forall k | 0 <= k < |v| :: v[k].status.Empty? <==> k >= m
  }

  /** The first `m` buffers hold the frames of `line` from number `base` on. */
  ghost predicate Holds(v: seq<Slot>, m: nat, line: seq<Frame>, base: nat) {
    base + m <= |line| && forall k | 0 <= k < m && k < |v| :: v[k].frame == line[base + k]
  }

  /** The window reads finished*, at most one transmitting, ready*. */
  ghost predicate Ordered(v: seq<Slot>, m: nat) {
    forall j, k | 0 <= j < k < m && k < |v| :: v[k].status.Ready? || Finished(v[j].status)
  }

  /** Buffer `k` of the window is the oldest one that has not finished. */
  ghost predicate Oldest(v: seq<Slot>, m: nat, k: nat) {
    && k < m && k < |v| && !Finished(v[k].status)
    && forall j | 0 <= j < k :: Finished(v[j].status)
  }

  /** The buffer latched by the arbiter is the oldest unfinished one, and a transmitting
      buffer is always the latched one. */
  ghost predicate Latched(v: seq<Slot>, m: nat, base: nat, sel: A.Selection) {
    && |v| > 0
    && (sel.Buffer? ==> exists k: nat :: Oldest(v, m, k) && sel.index == Idx(|v|, base + k))
    && (forall k: nat :: k < |v| && v[k].status.Transmitting? ==> sel == A.Buffer(Idx(|v|, base + k)))
  }

  ghost predicate WindowInv(v: seq<Slot>, m: int, line: seq<Frame>, base: nat, sel: A.Selection) {
    0 <= m && Occupied(v, m) && Holds(v, m, line, base) && Ordered(v, m) && Latched(v, m, base, sel)
  }

  /** The buffer of frame `base + r` is finished. */
  ghost predicate HeadFinished(v: seq<Slot>, m: int, r: int) {
    0 <= r < m && r < |v| && Finished(v[r].status)
  }

  lemma FillKeeps(v: seq<Slot>, m: nat, line: seq<Frame>, base: nat, sel: A.Selection, f: Frame)
    requires WindowInv(v, m, line, base, sel) && m < |v|
    ensures WindowInv(v[m := v[m].(frame := f)], m, line + [f], base, sel)
  {
    var v' := v[m := v[m].(frame := f)];
    assert forall k | 0 <= k < |v| :: v'[k].status == v[k].status;
    if sel.Buffer? {
      var k: nat :| Oldest(v, m, k) && sel.index == Idx(|v|, base + k);
      assert Oldest(v', m, k);
    }
  }

  lemma ReadyKeeps(v: seq<Slot>, m: nat, line: seq<Frame>, base: nat, sel: A.Selection)
    requires WindowInv(v, m, line, base, sel)
    requires m < |v| && base + m < |line| && v[m].frame == line[base + m]
    ensures WindowInv(v[m := v[m].(status := Ready)], m + 1, line, base, sel)
  {
    var v' := v[m := v[m].(status := Ready)];
    if sel.Buffer? {
      var k: nat :| Oldest(v, m, k) && sel.index == Idx(|v|, base + k);
      assert Oldest(v', m + 1, k);
    }
  }

  lemma FreeKeeps(v: seq<Slot>, m: nat, line: seq<Frame>, base: nat, sel: A.Selection)
    requires WindowInv(v, m, line, base, sel) && m > 0 && Finished(v[0].status)
    ensures WindowInv(v[1..] + [v[0].(status := Empty)], m - 1, line, base + 1, sel)
  {
    var v' := v[1..] + [v[0].(status := Empty)];
    assert forall k | 0 <= k < |v| - 1 :: v'[k] == v[k + 1];
    if sel.Buffer? {
      var k: nat :| Oldest(v, m, k) && sel.index == Idx(|v|, base + k);
      assert Oldest(v', m - 1, k - 1) && base + 1 + (k - 1) == base + k;
    }
    forall k: nat | k < |v| && v'[k].status.Transmitting?
      ensures sel == A.Buffer(Idx(|v|, base + 1 + k))
    {
      assert v[k + 1].status.Transmitting? && base + 1 + k == base + (k + 1);
    }
  }

  /** Changing the status of the oldest unfinished buffer `k`, to lock, retry or finish. */
  lemma OldestKeeps(v: seq<Slot>, m: nat, line: seq<Frame>, base: nat, sel: A.Selection, k: nat, st: Status)
    requires WindowInv(v, m, line, base, sel) && Oldest(v, m, k)
    requires sel == A.Buffer(Idx(|v|, base + k)) && !st.Empty?
    ensures var v' := v[k := v[k].(status := st)];
            WindowInv(v', m, line, base, if st.Transmitting? then sel else A.NoBuffer)
  {
    var v' := v[k := v[k].(status := st)];
    if st.Transmitting? {
      assert Oldest(v', m, k);
    }
    assert forall j: nat | j < |v| && j != k :: !v[j].status.Transmitting?;
  }

  lemma BusOffKeeps(v: seq<Slot>, m: nat, line: seq<Frame>, base: nat, sel: A.Selection)
    requires WindowInv(v, m, line, base, sel)
    ensures WindowInv(FailOnBusOff(v), m, line, base, A.NoBuffer)
  {
  }

  /** Priority falls with the frame number, from frame `r` on. */
  ghost predicate Falling(p: nat, n: nat, r: nat)
    requires n > 0
  {
    forall q: nat :: r <= q < r + n ==> P.Prio(p, Idx(n, q)) == 7 - (q - r)
  }

  lemma RotatedFalls(n: nat, r: nat)
    requires 1 <= n <= 8
    ensures Falling(P.Rotated(n, r), n, r)
  {
    forall q: nat | r <= q < r + n
      ensures P.Prio(P.Rotated(n, r), Idx(n, q)) == 7 - (q - r)
    {
      RotatedPrio(n, r, q - r);
    }
  }

  lemma RotatedPrio(n: nat, r: nat, k: nat)
    requires 1 <= n <= 8 && k < n
    ensures P.Prio(P.Rotated(n, r), Idx(n, r + k)) == 7 - k
  {
    P.RotatedClosedForm(n, r, k);
    IdxIsMod(n, r + k);
  }

  /** No buffer older than the arbiter's pick is ready. */
  lemma PickIsOldest(slots: seq<Slot>, m: nat, base: nat, p: nat, r: nat, k: nat)
    requires 1 <= |slots| <= 8 && k < |slots| && Falling(p, |slots|, r)
    requires Occupied(View(slots, base), m) && View(slots, base)[k].status.Ready?
    requires r == base || (r == base + 1 && Finished(View(slots, base)[0].status))
    requires forall i | 0 <= i < |slots| :: !slots[i].status.Transmitting?
    requires forall i | 0 <= i < |slots| && slots[i].status.Ready? :: P.Prio(p, i) <= P.Prio(p, Idx(|slots|, base + k))
    ensures Oldest(View(slots, base), m, k)
  {
    var n, v := |slots|, View(slots, base);
    forall j | 0 <= j < k ensures Finished(v[j].status) {
      ViewAt(slots, base, j);
    }
  }

  /** What the decoder promises about the buffers. */
  ghost predicate Picks(slots: seq<Slot>, p: nat, sel: A.Selection) {
    sel.Buffer? ==>
      && sel.index < |slots| && slots[sel.index].status.Ready?
      && forall i | 0 <= i < |slots| && slots[i].status.Ready? :: P.Prio(p, i) <= P.Prio(p, sel.index)
  }

  lemma DecodePicks(slots: seq<Slot>, p: nat)
    requires 1 <= |slots| <= 8
    ensures Picks(slots, p, A.Decode(ReadyMask(slots), Priorities(p, |slots|)))
  {
    var ready, prio := ReadyMask(slots), Priorities(p, |slots|);
    var sel := A.Decode(ready, prio);
    A.DecodePicksHighest(ready, prio);
    if sel.Buffer? {
      HighestPicks(slots, p, sel.index);
    }
  }

  lemma HighestPicks(slots: seq<Slot>, p: nat, d: nat)
    requires A.Highest(ReadyMask(slots), Priorities(p, |slots|), d)
    ensures Picks(slots, p, A.Buffer(d))
  {
    forall i | 0 <= i < |slots| && slots[i].status.Ready? ensures P.Prio(p, i) <= P.Prio(p, d) {
      assert ReadyMask(slots)[i];
      assert Priorities(p, |slots|)[i] <= Priorities(p, |slots|)[d];
    }
  }

  /** The arbiter picks the oldest unfinished buffer, whether or not the word has already
      been rotated past a finished one that is about to be set empty. */
  lemma SelectKeeps(slots: seq<Slot>, m: nat, line: seq<Frame>, base: nat, sel: A.Selection, p: nat, r: nat,
                    sel': A.Selection)
    requires 1 <= |slots| <= 8 && Falling(p, |slots|, r) && Picks(slots, p, sel')
    requires WindowInv(View(slots, base), m, line, base, sel)
    requires r == base || (r == base + 1 && Finished(View(slots, base)[0].status))
    requires forall k | 0 <= k < |slots| :: !slots[k].status.Transmitting?
    ensures WindowInv(View(slots, base), m, line, base, sel')
  {
    var n, v := |slots|, View(slots, base);
    forall k: nat | k < n ensures !v[k].status.Transmitting? {
      ViewAt(slots, base, k);
    }
    if sel'.Buffer? {
      var k := IndexOf(n, base, sel'.index);
      ViewAt(slots, base, k);
      PickIsOldest(slots, m, base, p, r, k);
    }
  }

  // ------------------------------------------------------------------ echo slots

  /** The first `m` echo slots hold the frames of `line` from number `base` on, the others none. */
  ghost predicate Echoes(e: seq<Option<Frame>>, m: int, line: seq<Frame>, base: nat) {
    && 0 <= m <= |e| && base + m <= |line|
    && (forall k | 0 <= k < m :: e[k] == Some(line[base + k]))
    && (forall k | m <= k < |e| :: e[k].None?)
  }

  lemma EchoPut(e: seq<Option<Frame>>, m: nat, line: seq<Frame>, base: nat)
    requires Echoes(e, m, line, base) && m < |e| && base + m < |line|
    ensures Echoes(e[m := Some(line[base + m])], m + 1, line, base)
  {
  }

  lemma EchoTake(e: seq<Option<Frame>>, m: nat, line: seq<Frame>, base: nat)
    requires Echoes(e, m, line, base) && m > 0
    ensures Echoes(e[0 := None][1..] + [None], m - 1, line, base + 1)
  {
    var e' := e[0 := None][1..] + [None];
    forall k | 0 <= k < m - 1 ensures e'[k] == Some(line[base + 1 + k]) {
      assert e'[k] == e[k + 1];
    }
  }

  // --------------------------------------------------------- what reached the wire

  /** Frames of the stretch `lo..hi` of the window that were sent. */
  function SentIn(v: seq<Slot>, lo: nat, hi: nat): seq<Frame>
    requires hi <= |v|
  {
    if lo >= hi then []
    else SentIn(v, lo, hi - 1) + (if v[hi - 1].status.Sent? then [v[hi - 1].frame] else [])
  }

  lemma {:induction false} SentInSame(v: seq<Slot>, v': seq<Slot>, lo: nat, hi: nat)
    requires hi <= |v| && hi <= |v'|
    requires forall k | lo <= k < hi :: v'[k] == v[k] || (!v[k].status.Sent? && !v'[k].status.Sent?)
    ensures SentIn(v', lo, hi) == SentIn(v, lo, hi)
    decreases hi
  {
    if lo < hi {
      SentInSame(v, v', lo, hi - 1);
    }
  }

  lemma {:induction false} SentInShift(v: seq<Slot>, v': seq<Slot>, lo: nat, hi: nat)
    requires 0 < hi <= |v| && hi - 1 <= |v'|
    requires forall k | lo < k < hi :: v'[k - 1] == v[k]
    ensures SentIn(v', lo, hi - 1) == SentIn(v, lo + 1, hi)
    decreases hi
  {
    if lo + 1 < hi {
      SentInShift(v, v', lo, hi - 1);
    }
  }

  lemma {:induction false} SentInHead(v: seq<Slot>, lo: nat, hi: nat)
    requires lo < hi <= |v|
    ensures SentIn(v, lo, hi) == (if v[lo].status.Sent? then [v[lo].frame] else []) + SentIn(v, lo + 1, hi)
    decreases hi
  {
    if lo + 1 < hi {
      SentInHead(v, lo, hi - 1);
    }
  }

  /** A finish appends to what was sent, because nothing younger has been sent. */
  lemma {:induction false} SentInFinish(v: seq<Slot>, lo: nat, k: nat, hi: nat, st: Status)
    requires lo <= k < hi <= |v| && forall j | k <= j < hi :: !v[j].status.Sent?
    ensures SentIn(v[k := v[k].(status := st)], lo, hi) == SentIn(v, lo, hi) + if st.Sent? then [v[k].frame] else []
    decreases hi
  {
    var v' := v[k := v[k].(status := st)];
    if k + 1 == hi {
      SentInSame(v, v', lo, k);
    } else {
      SentInFinish(v, lo, k, hi - 1, st);
    }
  }
}
