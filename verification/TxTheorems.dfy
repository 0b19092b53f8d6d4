/** What the transmit path promises, over every schedule of start_xmit, interrupt handler
    and hardware steps. Frame number `q` uses buffer `q % n`. */
module TxTheorems {
  import opened Frames
  import opened Rings
  import opened TxRing
  import opened TxWindow
  import opened TxInvariant
  import TxSafety
  import TxControlSteps
  import P = Priority
  import A = Arbiter

  /** `s` is what some schedule leads to from the state after chip start. */
  ghost predicate Reached(c: Config, s0: State, steps: seq<Step>, s: State) {
    ValidConfig(c) && Init(c, s0) && Exec(c, s0, steps) == Some(s)
  }

  // -------------------------------------------------------------- every run

  lemma InitHolds(c: Config, s: State)
    requires ValidConfig(c) && Init(c, s)
    ensures Inv(c, s)
  {
    InitData(c, s);
    InitControl(c, s);
    hide BuffersOk, EchoesOk, WireOk, Ledger, Control, Rotation;
  }

  lemma InitData(c: Config, s: State)
    requires ValidConfig(c) && Init(c, s)
    ensures Bounds(c, s) && Data(c, s)
  {
    assert Bounds(c, s);
    hide BuffersOk, EchoesOk;
    InitBuffers(c, s);
    InitEchoes(c, s);
  }

  lemma InitBuffers(c: Config, s: State)
    requires ValidConfig(c) && Init(c, s)
    ensures BuffersOk(c, s)
  {
    assert Window(c, s) == s.core.slots;
  }

  lemma InitEchoes(c: Config, s: State)
    requires ValidConfig(c) && Init(c, s)
    ensures EchoesOk(c, s)
  {
    assert View(s.drv.echo, 0) == s.drv.echo;
  }

  lemma InitControl(c: Config, s: State)
    requires ValidConfig(c) && Init(c, s)
    ensures Control(c, s) && Rotation(c, s)
  {
    assert P.Rotated(c.n, 0) == P.INITIAL_PRIORITY;
  }

  lemma StepHolds(c: Config, s: State, step: Step)
    requires ValidConfig(c) && Inv(c, s) && Enabled(c, s, step)
    ensures Inv(c, Do(c, s, step))
  {
    hide Inv;
    match step
    case Xmit(x) => TxSafety.XmitKeeps(c, s, x);
    case Irq(i) => TxSafety.IrqKeeps(c, s, i);
    case Hw(h) => TxSafety.HwKeeps(c, s, h);
  }

  lemma {:induction false} RunHolds(c: Config, s: State, steps: seq<Step>, t: State)
    requires ValidConfig(c) && Inv(c, s) && Exec(c, s, steps) == Some(t)
    ensures Inv(c, t)
    decreases |steps|
  {
    assert Sized(c, s);
    hide Inv;
    if steps != [] {
      StepHolds(c, s, steps[0]);
      RunHolds(c, Do(c, s, steps[0]), steps[1..], t);
    }
  }

  lemma ReachedHolds(c: Config, s0: State, steps: seq<Step>, s: State)
    requires Reached(c, s0, steps, s)
    ensures Inv(c, s)
  {
    hide Inv;
    InitHolds(c, s0);
    RunHolds(c, s0, steps, s);
  }

  // ------------------------------------------------------------------ FIFO

  /** Frame `q` was transmitted: its outcome says so, or its buffer does. */
  predicate Delivered(c: Config, s: State, q: nat)
    requires Sized(c, s)
  {
    if q < |s.log.retired| then s.log.retired[q].ok else s.core.slots[q % c.n].status.Sent?
  }

  /** The transmitted ones among the first `q` frames, in submission order. */
  function DeliveredUpTo(c: Config, s: State, q: nat): seq<Frame>
    requires Sized(c, s) && q <= |Line(s)|
  {
    if q == 0 then []
    else DeliveredUpTo(c, s, q - 1) + (if Delivered(c, s, q - 1) then [Line(s)[q - 1]] else [])
  }

  lemma {:induction false} DeliveredRetired(c: Config, s: State, q: nat)
    requires Bounds(c, s) && Ledger(s.log) && q <= |s.log.retired|
    ensures DeliveredUpTo(c, s, q) == OkFrames(s.log.retired[..q])
  {
    if q > 0 {
      DeliveredRetired(c, s, q - 1);
      assert s.log.retired[..q][..q - 1] == s.log.retired[..q - 1];
    }
  }

  /** The buffer of frame `q`, directly and through the window. */
  lemma SlotOf(c: Config, s: State, q: nat)
    requires Sized(c, s) && Emptied(s) <= q < Emptied(s) + c.n
    ensures s.core.slots[q % c.n] == Window(c, s)[q - Emptied(s)]
  {
    RingSlot(s.core.slots, Emptied(s), q);
  }

  lemma DeliveredNext(c: Config, s: State, q: nat)
    requires Bounds(c, s) && Holds(Window(c, s), Span(s), Line(s), Emptied(s))
    requires |s.log.retired| <= q < Readied(s)
    ensures DeliveredUpTo(c, s, q + 1) == DeliveredUpTo(c, s, q) +
              (var b := Window(c, s)[q - Emptied(s)]; if b.status.Sent? then [b.frame] else [])
  {
    SlotOf(c, s, q);
  }

  lemma {:induction false} DeliveredInFlight(c: Config, s: State, k: nat)
    requires Bounds(c, s) && Ledger(s.log) && Lead(s) <= k <= Span(s)
    requires Holds(Window(c, s), Span(s), Line(s), Emptied(s))
    ensures DeliveredUpTo(c, s, Emptied(s) + k) == OkFrames(s.log.retired) + SentIn(Window(c, s), Lead(s), k)
    decreases k
  {
    hide Holds, Ledger, Delivered, OkFrames, DeliveredUpTo;
    if k == Lead(s) {
      DeliveredRetired(c, s, |s.log.retired|);
      assert s.log.retired[..|s.log.retired|] == s.log.retired;
    } else {
      DeliveredInFlight(c, s, k - 1);
      DeliveredNext(c, s, Emptied(s) + k - 1);
      SentInLast(OkFrames(s.log.retired), Window(c, s), Lead(s), k);
    }
  }

  lemma SentInLast(before: seq<Frame>, v: seq<Slot>, lo: nat, hi: nat)
    requires lo < hi <= |v|
    ensures before + SentIn(v, lo, hi) ==
              before + SentIn(v, lo, hi - 1) + (if v[hi - 1].status.Sent? then [v[hi - 1].frame] else [])
  {
  }

  /** Frames are transmitted in submission order, each at most once, and the handler
      reports them in that order with the outcome the hardware gave. */
  lemma FifoOrder(c: Config, s0: State, steps: seq<Step>, s: State)
    requires Reached(c, s0, steps, s)
    ensures s.log.wire == DeliveredUpTo(c, s, Readied(s))
    ensures |s.log.retired| <= |s.log.sent|
    ensures forall k | 0 <= k < |s.log.retired| :: s.log.retired[k].frame == s.log.sent[k]
  {
    hide EchoesOk, Control, Rotation;
    ReachedHolds(c, s0, steps, s);
    DeliveredInFlight(c, s, Span(s));
  }

  /** In flight, whatever lies behind a buffer that is not ready has finished, at most one
      buffer transmits, and priorities fall strictly from the oldest frame to the youngest,
      also between txb_tail++, the rotation and SET_EMPTY. */
  lemma WindowOrder(c: Config, s0: State, steps: seq<Step>, s: State, q: nat, r: nat)
    requires Reached(c, s0, steps, s)
    requires |s.log.retired| <= q < r < Readied(s)
    ensures s.core.slots[r % c.n].status.Ready? || Finished(s.core.slots[q % c.n].status)
    ensures !(s.core.slots[q % c.n].status.Transmitting? && s.core.slots[r % c.n].status.Transmitting?)
    ensures !s.core.slots[q % c.n].status.Empty? && s.core.slots[q % c.n].frame == Line(s)[q]
    ensures P.Prio(s.core.prio, q % c.n) > P.Prio(s.core.prio, r % c.n)
  {
    hide EchoesOk, WireOk, Ledger, Control;
    ReachedHolds(c, s0, steps, s);
    SlotOf(c, s, q);
    SlotOf(c, s, r);
    WindowPair(Window(c, s), Span(s), Line(s), Emptied(s), s.core.sel, q - Emptied(s), r - Emptied(s));
    PrioritiesFall(c, s, q, r);
    IdxIsMod(c.n, q);
    IdxIsMod(c.n, r);
  }

  lemma WindowPair(v: seq<Slot>, m: nat, line: seq<Frame>, base: nat, sel: A.Selection, j: nat, k: nat)
    requires WindowInv(v, m, line, base, sel) && j < k < m
    ensures v[k].status.Ready? || Finished(v[j].status)
    ensures !v[j].status.Empty? && v[j].frame == line[base + j]
  {
  }

  lemma PrioritiesFall(c: Config, s: State, q: nat, r: nat)
    requires Bounds(c, s) && Rotation(c, s) && |s.log.retired| <= q < r < Readied(s)
    ensures P.Prio(s.core.prio, Idx(c.n, q)) > P.Prio(s.core.prio, Idx(c.n, r))
  {
    RotatedFalls(c.n, Rotations(s));
    assert Rotations(s) <= q < r < Rotations(s) + c.n;
  }

  // ------------------------------------------------------------- interrupts

  /** Outside the handler TXBHCI is pending exactly when the oldest frame in flight has
      finished: no completion is lost to the clear, and no interrupt finds nothing to do. */
  lemma InterruptExact(c: Config, s0: State, steps: seq<Step>, s: State)
    requires Reached(c, s0, steps, s) && s.i.IIdle?
    ensures var t := |s.log.retired|;
            s.core.txbhci <==> t < Readied(s) && Finished(s.core.slots[t % c.n].status)
  {
    hide BuffersOk, EchoesOk, WireOk, Ledger, Rotation, Counters, XmitOk, Filled, IrqOk;
    ReachedHolds(c, s0, steps, s);
    ViewAt(s.core.slots, Emptied(s), 0);
    IdxIsMod(c.n, |s.log.retired|);
  }

  /** The only branch reported as a bug that a run takes is the refusal of a frame that is too long:
      a free buffer is found whenever the queue is awake, the chosen buffer is writable, echo slots
      are never overwritten nor found empty, and the handler never meets an unfinished first buffer. */
  lemma NoBugBranch(c: Config, s0: State, steps: seq<Step>, s: State)
    requires Reached(c, s0, steps, s)
    ensures s.log.bugs == if s.log.refused == [] then {} else {CannotInsert}
    ensures forall k | 0 <= k < |s.log.refused| :: s.log.refused[k].len > CANFD_MAX_DLEN
  {
    ReachedHolds(c, s0, steps, s);
  }

  // ----------------------------------------------------------- flow control

  /** While the queue is awake or start_xmit works outside the lock, the next buffer is empty and
      thus neither the hardware's nor the handler's; a stopped queue means every buffer is in use
      or the handler still has its wake check ahead. */
  lemma FlowControl(c: Config, s0: State, steps: seq<Step>, s: State)
    requires Reached(c, s0, steps, s)
    ensures InXmit(s.x) || (s.x.XIdle? && !s.drv.stopped) ==>
              s.core.slots[s.drv.head % c.n].status.Empty? && |s.log.sent| - |s.log.retired| < c.n
    ensures s.drv.stopped && !WillWake(s.i) ==> forall k | 0 <= k < c.n :: !s.core.slots[k].status.Empty?
    ensures s.drv.stopped ==> s.x.XIdle?
  {
    hide EchoesOk, WireOk, Ledger, Rotation, InterruptOk, Filled;
    ReachedHolds(c, s0, steps, s);
    WrapIdx(c, |s.log.sent|);
    if InXmit(s.x) || (s.x.XIdle? && !s.drv.stopped) {
      ViewAt(s.core.slots, Emptied(s), Span(s));
    }
    TxControlSteps.TxnfExact(c, s);
  }

  // ------------------------------------------------------- echo and statistics

  /** Echo slots are occupied exactly for the frames between echo put and echo get, and every
      accepted frame is counted as sent, counted as dropped, or still in flight. */
  lemma EchoConservation(c: Config, s0: State, steps: seq<Step>, s: State)
    requires Reached(c, s0, steps, s)
    ensures forall q: nat :: |s.log.retired| <= q < Echoed(s) ==> s.drv.echo[q % c.n] == Some(Line(s)[q])
    ensures forall q: nat :: Echoed(s) <= q < |s.log.retired| + c.n ==> s.drv.echo[q % c.n] == None
    ensures s.log.packets + s.log.drops == |s.log.retired| <= |s.log.sent| <= |s.log.retired| + c.n
    ensures |s.log.sent| <= Echoed(s) <= |s.log.sent| + 1
    ensures s.log.packets == |OkFrames(s.log.retired)|
  {
    hide BuffersOk, EchoesOk, WireOk, Rotation, Control;
    ReachedHolds(c, s0, steps, s);
    EchoSlots(c, s);
  }

  lemma EchoSlots(c: Config, s: State)
    requires Bounds(c, s) && EchoesOk(c, s)
    ensures forall q: nat :: |s.log.retired| <= q < Echoed(s) ==> s.drv.echo[q % c.n] == Some(Line(s)[q])
    ensures forall q: nat :: Echoed(s) <= q < |s.log.retired| + c.n ==> s.drv.echo[q % c.n] == None
  {
    forall q: nat | |s.log.retired| <= q < |s.log.retired| + c.n
      ensures s.drv.echo[q % c.n] == if q < Echoed(s) then Some(Line(s)[q]) else None
    {
      EchoAt(c, s, q);
    }
  }

  lemma EchoAt(c: Config, s: State, q: nat)
    requires Bounds(c, s) && EchoesOk(c, s) && |s.log.retired| <= q < |s.log.retired| + c.n
    ensures q < Echoed(s) ==> q < |Line(s)|
    ensures s.drv.echo[q % c.n] == if q < Echoed(s) then Some(Line(s)[q]) else None
  {
    RingSlot(s.drv.echo, |s.log.retired|, q);
  }

  lemma RingSlot<T>(ring: seq<T>, r: nat, q: nat)
    requires |ring| > 0 && r <= q < r + |ring|
    ensures ring[q % |ring|] == View(ring, r)[q - r]
  {
    ViewAt(ring, r, q - r);
    IdxIsMod(|ring|, q);
  }

  // ------------------------------------------------------------ counter wrap

  /** The same state with unbounded counters. */
  function Unwrapped(s: State): State {
    s.(drv := s.drv.(head := |s.log.sent|, tail := TailCount(s)))
  }

  lemma UnwrapXmit(c: Config, s: State, step: XmitStep)
    requires ValidConfig(c) && Sized(c, s) && Counters(c, s) && XmitEnabled(s, step)
    ensures Sized(c, Unwrapped(s)) && XmitEnabled(Unwrapped(s), step)
    ensures DoXmit(c.(bounded := false), Unwrapped(s), step) == Unwrapped(DoXmit(c, s, step))
  {
    WrapIdx(c, |s.log.sent|);
    IdxIsMod(c.n, |s.log.sent|);
  }

  lemma UnwrapScan(c: Config, s: State)
    requires ValidConfig(c) && Bounds(c, s) && Counters(c, s) && s.i.IScan?
    ensures DoIrq(c.(bounded := false), Unwrapped(s), IrqScan) == Unwrapped(DoIrq(c, s, IrqScan))
  {
    PendingExact(c, |s.log.sent|, |s.log.retired|);
    WrapIdx(c, |s.log.retired|);
    IdxIsMod(c.n, |s.log.retired|);
  }

  lemma UnwrapSwitch(c: Config, s: State)
    requires Sized(c, s) && s.i.ISwitch? && s.i.id < c.n
    requires DoneCode(s.i.code) ==> s.drv.echo[s.i.id].Some?
    ensures DoIrq(c.(bounded := false), Unwrapped(s), IrqSwitch) == Unwrapped(DoIrq(c, s, IrqSwitch))
  {
  }

  lemma EchoPresent(c: Config, s: State)
    requires Bounds(c, s) && EchoesOk(c, s) && IrqOk(c, s) && s.i.ISwitch?
    ensures s.i.id < c.n && s.drv.echo[s.i.id].Some?
  {
    ViewAt(s.drv.echo, |s.log.retired|, 0);
  }

  lemma UnwrapIrq(c: Config, s: State, step: IrqStep)
    requires ValidConfig(c) && Bounds(c, s) && Counters(c, s) && IrqEnabled(c, s, step)
    requires s.i.ISwitch? ==> s.drv.echo[s.i.id].Some?
    ensures Sized(c, Unwrapped(s)) && IrqEnabled(c.(bounded := false), Unwrapped(s), step)
    ensures DoIrq(c.(bounded := false), Unwrapped(s), step) == Unwrapped(DoIrq(c, s, step))
  {
    if step.IrqScan? {
      UnwrapScan(c, s);
    } else if step.IrqSwitch? {
      UnwrapSwitch(c, s);
    }
  }

  lemma UnwrapHw(c: Config, s: State, step: HwStep)
    requires Sized(c, s) && HwEnabled(s.core, step)
    ensures Sized(c, Unwrapped(s))
    ensures DoHw(c.(bounded := false), Unwrapped(s), step) == Unwrapped(DoHw(c, s, step))
  {
  }

  lemma UnwrapStep(c: Config, s: State, step: Step)
    requires ValidConfig(c) && Inv(c, s)
    ensures Sized(c, Unwrapped(s))
    ensures Enabled(c.(bounded := false), Unwrapped(s), step) <==> Enabled(c, s, step)
    ensures Enabled(c, s, step) ==>
              Do(c.(bounded := false), Unwrapped(s), step) == Unwrapped(Do(c, s, step))
  {
    if s.i.ISwitch? {
      EchoPresent(c, s);
    }
    if Enabled(c, s, step) {
      match step
      case Xmit(x) => UnwrapXmit(c, s, x);
      case Irq(i) => UnwrapIrq(c, s, i);
      case Hw(h) => UnwrapHw(c, s, h);
    }
  }

  /** The ring with 32-bit counters, signed difference and modulo takes exactly the schedules of a
      ring with unbounded counters and does the same at every step, over runs of any length. */
  lemma {:induction false} WrapInvisible(c: Config, s: State, steps: seq<Step>)
    requires ValidConfig(c) && Inv(c, s)
    ensures Sized(c, Unwrapped(s))
    ensures var r := Exec(c, s, steps);
            Exec(c.(bounded := false), Unwrapped(s), steps) == if r.Some? then Some(Unwrapped(r.value)) else None
    decreases |steps|
  {
    if steps != [] {
      UnwrapStep(c, s, steps[0]);
      if Enabled(c, s, steps[0]) {
        StepHolds(c, s, steps[0]);
        WrapInvisible(c, Do(c, s, steps[0]), steps[1..]);
      }
    }
  }

  lemma SuccIndex(n: nat, g: nat)
    requires n > 0
    ensures (g % n + 1) % n == (g + 1) % n
  {
    P.SuccMod(g, n);
    P.SuccMod(g % n, n);
    P.DivModUnique(g % n, n, 0, g % n);
  }

  /** `txb % n` steps to the next buffer after an increment modulo `m`. */
  ghost predicate NextBuffer(m: nat, n: nat, h: nat)
    requires m > 0 && n > 0
  {
    (h + 1) % m % n == (h % m % n + 1) % n
  }

  lemma NextBufferExact(m: nat, n: nat, h: nat)
    requires m > 0 && n > 0
    ensures NextBuffer(m, n, h) <==> h % m + 1 < m || m % n == 0
  {
    SuccIndex(n, h % m);
    P.SuccMod(h, m);
    if h % m + 1 == m {
      P.DivModUnique(0, n, 0, 0);
    }
  }

  /** The buffer index survives the wrap of a 32-bit counter exactly when the number of
      buffers divides 2^32. */
  lemma IndexSurvivesWrap(n: nat)
    requires n > 0
    ensures (forall h: nat :: NextBuffer(P.WORD, n, h)) <==> P.WORD % n == 0
  {
    forall h: nat ensures NextBuffer(P.WORD, n, h) <==> h % P.WORD + 1 < P.WORD || P.WORD % n == 0 {
      NextBufferExact(P.WORD, n, h);
    }
    assert NextBuffer(P.WORD, n, P.WORD - 1) <==> P.WORD % n == 0;
  }
}
