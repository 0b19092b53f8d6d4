/** Frames that have finished stay finished until the handler retires them. */
module TxProgress {
  import opened Frames
  import opened Rings
  import opened TxRing
  import opened TxInvariant
  import opened TxBufferSteps
  import opened TxSafety
  import opened TxTheorems
  import opened TxWindow

  /** A run, one step longer. */
  lemma {:induction false} ExecStep(c: Config, s: State, steps: seq<Step>, t: State, step: Step)
    requires Sized(c, s) && Exec(c, s, steps) == Some(t) && Enabled(c, t, step)
    ensures Exec(c, s, steps + [step]) == Some(Do(c, t, step))
    decreases |steps|
  {
    var more := steps + [step];
    if steps == [] {
      assert more[1..] == [];
    } else {
      assert more[1..] == steps[1..] + [step];
      ExecStep(c, Do(c, s, steps[0]), steps[1..], t, step);
    }
  }

  lemma RunExtends(c: Config, s0: State, steps: seq<Step>, s: State, step: Step)
    requires Reached(c, s0, steps, s)
    ensures Sized(c, s) && |s.log.retired| <= |s.log.sent|
    ensures Enabled(c, s, step) ==> Reached(c, s0, steps + [step], Do(c, s, step))
  {
    ReachedHolds(c, s0, steps, s);
    if Enabled(c, s, step) {
      ExecStep(c, s0, steps, s, step);
    }
  }

  /** Every frame below `due` is retired or has finished. */
  ghost predicate FinishedTo(c: Config, s: State, due: nat) {
    Sized(c, s) && due <= Readied(s)
    && forall q: nat :: |s.log.retired| <= q < due ==> Finished(s.core.slots[q % c.n].status)
  }

  /** The first frame from `q` on that has not finished. */
  ghost function FirstOpen(c: Config, s: State, q: nat): (d: nat)
    requires Sized(c, s) && q <= Readied(s)
    ensures q <= d <= Readied(s)
    ensures d < Readied(s) ==> !Finished(s.core.slots[d % c.n].status)
    decreases Readied(s) - q
  {
    if q < Readied(s) && Finished(s.core.slots[q % c.n].status) then FirstOpen(c, s, q + 1) else q
  }

  lemma {:induction false} BelowFirstOpen(c: Config, s: State, q: nat, k: nat)
    requires Sized(c, s) && q <= Readied(s) && q <= k < FirstOpen(c, s, q)
    ensures Finished(s.core.slots[k % c.n].status)
    decreases Readied(s) - q
  {
    if q < k {
      BelowFirstOpen(c, s, q + 1, k);
    }
  }

  /** All frames in flight that have finished lie below the first one that has not. */
  lemma FirstOpenExact(c: Config, s0: State, steps: seq<Step>, s: State)
    requires Reached(c, s0, steps, s) && |s.log.retired| <= Readied(s)
    ensures var due := FirstOpen(c, s, |s.log.retired|);
            && FinishedTo(c, s, due)
            && forall r: nat :: |s.log.retired| <= r < Readied(s) && Finished(s.core.slots[r % c.n].status) ==> r < due
  {
    var t := |s.log.retired|;
    var due := FirstOpen(c, s, t);
    forall k: nat | t <= k < due ensures Finished(s.core.slots[k % c.n].status) {
      BelowFirstOpen(c, s, t, k);
    }
    forall r: nat | due < r < Readied(s) ensures !Finished(s.core.slots[r % c.n].status) {
      WindowOrder(c, s0, steps, s, due, r);
    }
  }

  /** A step takes no frame back. */
  lemma StepGrows(c: Config, s: State, step: Step)
    requires Sized(c, s) && Enabled(c, s, step)
    ensures var t := Do(c, s, step);
            Readied(s) <= Readied(t) && |s.log.retired| <= |t.log.retired|
  {
  }

  /** A finished buffer stays so, but for SET_READY and SET_EMPTY. */
  lemma SlotStays(c: Config, s: State, step: Step, id: nat)
    requires Sized(c, s) && Enabled(c, s, step) && id < c.n && Finished(s.core.slots[id].status)
    requires step == Xmit(XmitReady) ==> id != s.drv.head % c.n
    requires step == Irq(IrqFree) ==> id != s.i.id
    ensures Do(c, s, step).core.slots[id].status == s.core.slots[id].status
  {
  }

  /** Neither command goes to the buffer of a frame that is in flight. */
  lemma NotCommanded(c: Config, s0: State, steps: seq<Step>, s: State, step: Step, q: nat)
    requires Reached(c, s0, steps, s) && Enabled(c, s, step)
    requires |s.log.retired| <= q < Readied(s) && Finished(s.core.slots[q % c.n].status)
    ensures step == Xmit(XmitReady) ==> q % c.n != s.drv.head % c.n
    ensures step == Irq(IrqFree) ==> q % c.n != s.i.id
  {
    if step == Xmit(XmitReady) {
      FlowControl(c, s0, steps, s);
    }
    if step == Irq(IrqFree) {
      ReachedHolds(c, s0, steps, s);
      FreedApart(c, s, q);
    }
  }

  lemma FreedApart(c: Config, s: State, q: nat)
    requires Bounds(c, s) && IrqOk(c, s) && s.i.IFree? && |s.log.retired| <= q < Readied(s)
    ensures q % c.n != s.i.id
  {
    IdxDistinct(c.n, Emptied(s), q);
    IdxIsMod(c.n, q);
  }

  lemma FinishedStays(c: Config, s0: State, steps: seq<Step>, s: State, step: Step, due: nat)
    requires Reached(c, s0, steps, s) && Sized(c, s) && Enabled(c, s, step) && FinishedTo(c, s, due)
    ensures FinishedTo(c, Do(c, s, step), due)
  {
    var t := Do(c, s, step);
    StepGrows(c, s, step);
    forall q: nat | |t.log.retired| <= q < due ensures Finished(t.core.slots[q % c.n].status) {
      NotCommanded(c, s0, steps, s, step, q);
      SlotStays(c, s, step, q % c.n);
    }
  }

  /** When the handler finds nothing more to retire, every frame below `due` is retired. */
  lemma NothingLeft(c: Config, s0: State, steps: seq<Step>, s: State, due: nat)
    requires Reached(c, s0, steps, s) && s.i.IScan? && FinishedTo(c, s, due)
    ensures !Pending(c, s.drv.head, s.drv.tail) ==> due <= |s.log.retired|
    ensures !DoneCode(ReadStatus(s.core.slots[s.drv.tail % c.n].status)) ==> due <= |s.log.retired|
  {
    hide Inv, Pending, Init, Exec;
    ReachedHolds(c, s0, steps, s);
    NothingPending(c, s);
    ScannedBuffer(c, s);
  }

  lemma NothingPending(c: Config, s: State)
    requires ValidConfig(c) && Inv(c, s) && s.i.IScan?
    ensures Readied(s) == |s.log.sent|
    ensures Pending(c, s.drv.head, s.drv.tail) <==> |s.log.retired| < |s.log.sent|
  {
    hide BuffersOk, EchoesOk, WireOk, Rotation, Filled, InterruptOk;
    PendingExact(c, |s.log.sent|, |s.log.retired|);
  }

  lemma ScannedBuffer(c: Config, s: State)
    requires ValidConfig(c) && Inv(c, s) && s.i.IScan?
    ensures s.drv.tail % c.n == |s.log.retired| % c.n
  {
    hide BuffersOk, EchoesOk, WireOk, Rotation, Filled, InterruptOk, XmitOk, IrqOk, Ledger;
    WrapIdx(c, |s.log.retired|);
    IdxIsMod(c.n, |s.log.retired|);
  }

  // ------------------------------------------------------------------------- outcomes

  /** The outcome of frame `q`: in its buffer, or, once it is retired, in the log. */
  predicate HasOutcome(c: Config, s: State, q: nat, ok: bool)
    requires Sized(c, s)
  {
    if q < |s.log.retired| then s.log.retired[q].ok == ok
    else q < Readied(s) && Finished(s.core.slots[q % c.n].status) && s.core.slots[q % c.n].status.Sent? == ok
  }

  /** A step retires at most the oldest frame, and leaves what is retired as it is. */
  lemma RetiredStays(c: Config, s: State, step: Step)
    requires Sized(c, s) && Enabled(c, s, step)
    ensures var t := Do(c, s, step);
            && s.log.retired <= t.log.retired && |t.log.retired| <= |s.log.retired| + 1
            && (|t.log.retired| > |s.log.retired| ==>
                  && s.i.ISwitch? && DoneCode(s.i.code)
                  && t.log.retired[|s.log.retired|].ok == (s.i.code == 0x4))
  {
  }

  /** The handler's status of the oldest buffer is still the right one when it acts on it. */
  lemma CodeIsOutcome(c: Config, s: State)
    requires Inv(c, s) && s.i.ISwitch? && DoneCode(s.i.code)
    ensures s.i.code == 0x4 <==> s.core.slots[|s.log.retired| % c.n].status.Sent?
  {
    hide EchoesOk, WireOk, Ledger, Rotation, Counters, XmitOk, Filled, InterruptOk;
    RetireFacts(c, s);
    RingSlot(s.core.slots, |s.log.retired|, |s.log.retired|);
  }

  lemma OutcomeRetires(c: Config, s0: State, steps: seq<Step>, s: State, step: Step)
    requires Reached(c, s0, steps, s) && Sized(c, s) && Enabled(c, s, step)
    requires |Do(c, s, step).log.retired| > |s.log.retired|
    ensures Do(c, s, step).log.retired[|s.log.retired|].ok == s.core.slots[|s.log.retired| % c.n].status.Sent?
  {
    hide Do, Inv;
    RetiredStays(c, s, step);
    ReachedHolds(c, s0, steps, s);
    CodeIsOutcome(c, s);
  }

  lemma OutcomeStays(c: Config, s0: State, steps: seq<Step>, s: State, step: Step, q: nat, ok: bool)
    requires Reached(c, s0, steps, s) && Sized(c, s) && Enabled(c, s, step) && HasOutcome(c, s, q, ok)
    ensures HasOutcome(c, Do(c, s, step), q, ok)
  {
    hide Reached, Do, Enabled, Readied;
    RetiredStays(c, s, step);
    StepGrows(c, s, step);
    if |s.log.retired| <= q {
      NotCommanded(c, s0, steps, s, step, q);
      SlotStays(c, s, step, q % c.n);
      if q < |Do(c, s, step).log.retired| {
        OutcomeRetires(c, s0, steps, s, step);
      }
    }
  }

  lemma {:induction false} OutcomeKept(c: Config, s0: State, steps: seq<Step>, s: State, more: seq<Step>, t: State,
                                       q: nat, ok: bool)
    requires Reached(c, s0, steps, s) && Sized(c, s) && Sized(c, t) && HasOutcome(c, s, q, ok)
    requires Exec(c, s, more) == Some(t)
    ensures HasOutcome(c, t, q, ok)
    decreases |more|
  {
    hide Reached, HasOutcome;
    if more != [] {
      OutcomeStays(c, s0, steps, s, more[0], q, ok);
      RunExtends(c, s0, steps, s, more[0]);
      OutcomeKept(c, s0, steps + [more[0]], Do(c, s, more[0]), more[1..], t, q, ok);
    }
  }

  /** The buffer that finishes is that of the oldest frame that has not. */
  lemma FinishIsOldest(c: Config, s0: State, steps: seq<Step>, s: State, o: Status) returns (q: nat)
    requires Reached(c, s0, steps, s) && Sized(c, s) && Enabled(c, s, Hw(HwFinish(o)))
    ensures |s.log.retired| <= q < Readied(s) && !Finished(s.core.slots[q % c.n].status)
    ensures forall r: nat :: |s.log.retired| <= r < q ==> Finished(s.core.slots[r % c.n].status)
    ensures HasOutcome(c, Do(c, s, Hw(HwFinish(o))), q, o.Sent?)
  {
    hide Inv;
    ReachedHolds(c, s0, steps, s);
    q := LockedFrame(c, s);
  }

  /** The locked buffer is that of the oldest frame that has not finished. */
  lemma LockedFrame(c: Config, s: State) returns (q: nat)
    requires Inv(c, s) && Selected(s.core, Transmitting)
    ensures |s.log.retired| <= q < Readied(s) && q % c.n == s.core.sel.index
    ensures forall r: nat :: |s.log.retired| <= r < q ==> Finished(s.core.slots[r % c.n].status)
  {
    hide EchoesOk, WireOk, Ledger, Rotation, Counters, XmitOk, Filled, InterruptOk;
    var k := SelectedAt(c, s, Transmitting);
    q := Emptied(s) + k;
    IdxIsMod(c.n, q);
    OldestIsFirst(c, s, k);
    hide IrqOk, BuffersOk;
    forall r: nat | |s.log.retired| <= r < q ensures Finished(s.core.slots[r % c.n].status) {
      RingSlot(s.core.slots, Emptied(s), r);
    }
  }

  lemma OldestIsFirst(c: Config, s: State, k: nat)
    requires Bounds(c, s) && IrqOk(c, s) && Oldest(Window(c, s), Span(s), k)
    ensures |s.log.retired| <= Emptied(s) + k < Readied(s)
  {
  }

  /** The outcome that the hardware gives to a frame is the one that the handler reports for that very frame,
      whatever happens in between, also among frames that are equal. */
  lemma OutcomeReported(c: Config, s0: State, steps: seq<Step>, s: State, o: Status, more: seq<Step>, t: State)
    returns (q: nat)
    requires Reached(c, s0, steps, s) && Sized(c, s) && Enabled(c, s, Hw(HwFinish(o)))
    requires Exec(c, Do(c, s, Hw(HwFinish(o))), more) == Some(t)
    ensures |s.log.retired| <= q < Readied(s) && !Finished(s.core.slots[q % c.n].status)
    ensures forall r: nat :: |s.log.retired| <= r < q ==> Finished(s.core.slots[r % c.n].status)
    ensures q < |t.log.retired| ==> t.log.retired[q].ok == o.Sent?
  {
    hide Reached;
    q := FinishIsOldest(c, s0, steps, s, o);
    RunExtends(c, s0, steps, s, Hw(HwFinish(o)));
    OutcomeKept(c, s0, steps + [Hw(HwFinish(o))], Do(c, s, Hw(HwFinish(o))), more, t, q, o.Sent?);
  }
}
