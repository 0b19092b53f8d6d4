/** `ctucan_start_xmit` and `ctucan_tx_interrupt` as the driver writes them: with their loops,
    locals and early returns, and with the rest of the system moving between any two of their
    accesses. Every call is a run of the step system. */
module TxDriver {
  import opened Frames
  import opened TxRing
  import opened TxProgress
  import opened TxTheorems
  import TxInvariant
  import Rings
  import A = Arbiter
  import P = Priority

  /** Every frame in flight that has finished lies below `due`. */
  ghost predicate FinishedBelow(c: Config, s: State, due: nat) {
    Sized(c, s)
    && forall q: nat :: |s.log.retired| <= q < TxInvariant.Readied(s) && Finished(s.core.slots[q % c.n].status) ==>
         q < due
  }

  /** What a rotation does to the priorities while the oldest buffer is being retired. */
  lemma RotateShifts(c: Config, s: State)
    requires TxInvariant.Inv(c, s) && s.i.IRotate?
    ensures s.i.id < c.n && P.Nibble(P.Rotate(s.drv.prio, c.n), s.i.id) == 8 - c.n
    ensures forall k: nat :: k < c.n && k != s.i.id ==>
              P.Nibble(P.Rotate(s.drv.prio, c.n), k) == P.Nibble(s.drv.prio, k) + 1
  {
    hide TxInvariant.BuffersOk, TxInvariant.EchoesOk, TxInvariant.WireOk, TxInvariant.Ledger;
    hide TxInvariant.Counters, TxInvariant.XmitOk, TxInvariant.Filled, TxInvariant.InterruptOk;
    var n, r := c.n, TxInvariant.Rotations(s);
    assert P.Rotate(s.drv.prio, n) == P.Rotated(n, r + 1);
    RotatedNibble(n, r + 1, n - 1);
    Rings.IdxIsMod(n, r);
    Rings.IdxIsMod(n, r + n);
    forall k: nat | k < n && k != s.i.id ensures P.Nibble(P.Rotated(n, r + 1), k) == P.Nibble(P.Rotated(n, r), k) + 1 {
      var j := Rings.IndexOf(n, r, k);
      RotatedNibble(n, r, j);
      RotatedNibble(n, r + 1, j - 1);
    }
  }

  lemma RotatedNibble(n: nat, r: nat, k: nat)
    requires 1 <= n <= 8 && k < n
    ensures P.Nibble(P.Rotated(n, r), Rings.Idx(n, r + k)) == 7 - k
  {
    P.RotatedClosedForm(n, r, k);
    Rings.IdxIsMod(n, r + k);
  }

  /** Which of the two calls is running; the rest of the system is the other one and the hardware. */
  datatype Side = XmitSide | IrqSide

  /** What belongs to the running call alone: where it stands, and the log of what it does. */
  predicate OwnKept(side: Side, s: State, t: State) {
    if side.IrqSide? then t.i == s.i && t.log.retired == s.log.retired
    else t.x == s.x && t.log.sent == s.log.sent && t.log.refused == s.log.refused
  }

  predicate Other(side: Side, step: Step) {
    match step
    case Xmit(_) => side.IrqSide?
    case Irq(_) => side.XmitSide?
    case Hw(_) => true
  }

  class Device {
    const c: Config
    var drv: Driver
    var core: Core
    var log: Log
    /** Where either call stands; the running call keeps its own up to date. */
    var x: XmitPc
    var i: IrqPc
    /** How many steps the rest of the system still takes during the running call. */
    var budget: nat
    /** The state after chip start, and the steps taken since. */
    ghost var origin: State
    ghost var steps: seq<Step>
    /** The steps taken before the running call, and the frames finished when it began. */
    ghost var past: seq<Step>
    ghost var due: nat

    /** The ring after `ctucan_chip_start`; `held` is what the buffers' memory happens to hold. */
    constructor (n: nat, bounded: bool, held: seq<Frame>)
      requires ValidConfig(Config(n, bounded)) && |held| == n
      ensures Ok() && steps == [] && Init(c, Value()) && c == Config(n, bounded)
    {
      c := Config(n, bounded);
      drv := Driver(0, 0, P.INITIAL_PRIORITY, false, Free, seq(n, k => None));
      core := Core(seq(n, k requires 0 <= k < n => Slot(Empty, held[k])), P.INITIAL_PRIORITY, A.NoBuffer, false);
      log := Log([], [], [], 0, 0, [], {});
      x, i, budget := XIdle, IIdle, 0;
      new;
      origin, steps, past, due := Value(), [], [], 0;
    }

    function Value(): State
      reads this
    {
      State(drv, core, log, x, i)
    }

    ghost predicate Ok()
      reads this
    {
      Reached(c, origin, steps, Value()) && Sized(c, Value()) && past <= steps && FinishedTo(c, Value(), due)
    }

    /** What is left to do: steps of the others, and frames in flight. */
    function Rest(): nat
      reads `budget, `log
    {
      budget + if |log.retired| <= |log.sent| then |log.sent| - |log.retired| else 0
    }

    /** One step of the system. */
    method Take(step: Step)
      requires Ok() && Enabled(c, Value(), step)
      modifies `drv, `core, `log, `x, `i, `steps
      ensures Ok() && Sized(c, old(Value())) && Value() == Do(c, old(Value()), step)
    {
      ghost var before := Value();
      var t := Do(c, Value(), step);
      drv, core, log, x, i := t.drv, t.core, t.log, t.x, t.i;
      Record(step, before);
    }

    /** The rest of the system takes any number of steps. */
    method Others(side: Side)
      requires Ok()
      modifies `drv, `core, `log, `x, `i, `steps, `budget
      ensures Ok() && Rest() <= old(Rest())
      ensures OwnKept(side, old(Value()), Value())
    {
      while budget > 0
        invariant Ok() && Rest() <= old(Rest())
        invariant OwnKept(side, old(Value()), Value())
        decreases budget
      {
        var step: Step := *;
        if Other(side, step) && Enabled(c, Value(), step) {
          OneOther(side, step);
        }
        budget := budget - 1;
        var enough: bool := *;
        if enough {
          return;
        }
      }
    }

    method OneOther(side: Side, step: Step)
      requires Ok() && Other(side, step) && Enabled(c, Value(), step) && budget > 0
      modifies `drv, `core, `log, `x, `i, `steps
      ensures Ok() && Rest() <= old(Rest()) + 1
      ensures OwnKept(side, old(Value()), Value())
    {
      ghost var before := Value();
      RunExtends(c, origin, steps, before, step);
      Take(step);
      OtherKeeps(c, side, before, step);
    }

    /** The driver itself has just done what `step` does. */
    ghost method Record(step: Step, before: State)
      requires Reached(c, origin, steps, before) && Sized(c, before) && Enabled(c, before, step) && past <= steps
      requires Value() == Do(c, before, step) && FinishedTo(c, before, due)
      modifies `steps
      ensures Ok()
    {
      hide FinishedTo, Do;
      RunExtends(c, origin, steps, before, step);
      FinishedStays(c, origin, steps, before, step, due);
      steps := steps + [step];
    }

    // --------------------------------------------------------- accesses of the handler

    /** `spin_lock_irqsave` in the outer loop; `false` while start_xmit still holds the lock. */
    method LockTx(first: bool) returns (got: bool)
      requires Ok() && i == IEnter(first)
      modifies `drv, `i, `steps
      ensures Ok() && i == (if got then IScan(first, false) else IEnter(first)) && (!got ==> !drv.lock.Free?)
    {
      ghost var before := Value();
      got := drv.lock.Free?;
      if got {
        drv := drv.(lock := ByIrq);
        i := IScan(first, false);
        Record(Irq(IrqLock), before);
      }
    }

    /** The inner loop's condition, and the status of the oldest buffer. */
    method ReadOldest(first: bool, some: bool) returns (pending: bool, id: nat, code: nat)
      requires Ok() && i == IScan(first, some)
      modifies `i, `steps
      ensures Ok()
      ensures i == if pending then ISwitch(first, some, id, code) else IUnlock(first, some)
      ensures pending ==> id < c.n
      ensures !pending || !(code == 0x4 || code == 0x6 || code == 0x7) ==> due <= |log.retired|
    {
      ghost var before := Value();
      NothingLeft(c, origin, steps, before, due);
      pending, id, code := Pending(c, drv.head, drv.tail), 0, 0;
      if pending {
        id := drv.tail % c.n;
        code := ReadStatus(core.slots[id].status);
        i := ISwitch(first, some, id, code);
      } else {
        i := IUnlock(first, some);
      }
      Record(Irq(IrqScan), before);
    }

    /** `can_get_echo_skb` or `can_free_echo_skb`, with the statistics. */
    method GetEcho(id: nat, code: nat)
      requires id < |drv.echo|
      modifies `drv, `log, `i
      ensures Value() == Retire(old(Value()), id, code)
    {
      var echo := drv.echo[id];
      log := if echo.Some? then log.(retired := log.retired + [Outcome(echo.value, code == 0x4)])
             else log.(bugs := log.bugs + {EchoMissing});
      drv := drv.(echo := drv.echo[id := None]);
      if code == 0x4 {
        log := log.(packets := log.packets + 1);
      } else {
        log := log.(drops := log.drops + 1);
      }
      i := IAdvance(id);
    }

    /** The echo of a finished buffer is taken or freed, and the statistics counted. */
    method TakeEcho(id: nat, code: nat)
      requires Ok() && i.ISwitch? && i.id == id < c.n && i.code == code
      requires code == 0x4 || code == 0x6 || code == 0x7
      modifies `drv, `log, `i, `steps
      ensures Ok() && i == IAdvance(id) && Rest() < old(Rest())
    {
      ghost var before := Value();
      ReachedHolds(c, origin, steps, Value());
      EchoPresent(c, Value());
      hide TxInvariant.Inv, FinishedTo, Reached;
      GetEcho(id, code);
      Record(Irq(IrqSwitch), before);
      RunExtends(c, origin, steps, Value(), Hw(HwBusOff));
    }

    /** The default branch of the switch; its early return is never taken. */
    method NotFinishedBranch(first: bool, some: bool, id: nat, code: nat) returns (out: bool)
      requires Ok() && i == ISwitch(first, some, id, code) && id < c.n
      requires !(code == 0x4 || code == 0x6 || code == 0x7)
      modifies `drv, `log, `i, `steps
      ensures Ok() && !out && i == IUnlock(first, some) && Rest() == old(Rest()) && log.retired == old(log.retired)
    {
      ghost var before := Value();
      out := first;
      if first {
        log := log.(bugs := log.bugs + {NotFinished});
        drv := drv.(lock := Free);
        i := IIdle;
      } else {
        i := IUnlock(first, some);
      }
      Record(Irq(IrqSwitch), before);
      NoBugBranch(c, origin, steps, Value());
    }

    method AdvanceTail(id: nat)
      requires Ok() && i == IAdvance(id)
      modifies `drv, `i, `steps
      ensures Ok() && i == IRotate(id)
    {
      ghost var before := Value();
      drv := drv.(tail := Wrap(c, drv.tail + 1));
      i := IRotate(id);
      Record(Irq(IrqAdvance), before);
    }

    /** `ctucan_rotate_txb_prio`: the buffer about to be freed becomes the last in line, and every
        other one moves up by one. */
    method RotateTxbPrio(id: nat)
      requires Ok() && i == IRotate(id) && id < c.n
      modifies `drv, `core, `i, `steps
      ensures Ok() && i == IFree(id) && core.prio == drv.prio && P.Nibble(drv.prio, id) == 8 - c.n
      ensures forall k: nat :: k < c.n && k != id ==> P.Nibble(drv.prio, k) == P.Nibble(old(drv.prio), k) + 1
    {
      ghost var before := Value();
      ReachedHolds(c, origin, steps, before);
      RotateShifts(c, before);
      hide TxInvariant.Inv, FinishedTo, Reached;
      var prio := P.Rotate(drv.prio, c.n);
      drv := drv.(prio := prio);
      core := core.(prio := prio);
      i := IFree(id);
      Record(Irq(IrqRotate), before);
    }

    /** TXT_CMD_SET_EMPTY. */
    method FreeBuffer(id: nat)
      requires Ok() && i == IFree(id) && id < c.n
      modifies `core, `i, `steps
      ensures Ok() && i == IScan(false, true)
    {
      ghost var before := Value();
      core := SetStatus(core, id, SetEmpty(core.slots[id].status));
      i := IScan(false, true);
      Record(Irq(IrqFree), before);
    }

    method UnlockTx(first: bool, some: bool)
      requires Ok() && i == IUnlock(first, some)
      modifies `drv, `i, `steps
      ensures Ok() && i == IClear(first, some)
    {
      ghost var before := Value();
      drv := drv.(lock := Free);
      i := IClear(first, some);
      Record(Irq(IrqUnlock), before);
    }

    /** TXBHCI is cleared only if some buffer was processed. */
    method ClearInterrupt(first: bool, some: bool)
      requires Ok() && i == IClear(first, some)
      modifies `core, `i, `steps
      ensures Ok() && i == if some then IEnter(first) else IWake
    {
      ghost var before := Value();
      if some {
        core := core.(txbhci := false);
        i := IEnter(first);
      } else {
        i := IWake;
      }
      Record(Irq(IrqClear), before);
    }

    /** The wake check at the end; `false` while start_xmit still holds the lock. */
    method WakeQueue() returns (got: bool)
      requires Ok() && i == IWake
      modifies `drv, `i, `steps
      ensures Ok() && i == if got then IIdle else IWake
      ensures if got then drv.stopped ==> !Txnf(core) else !drv.lock.Free?
    {
      ghost var before := Value();
      got := drv.lock.Free?;
      if got {
        if Txnf(core) {
          drv := drv.(stopped := false);
        }
        i := IIdle;
        Record(Irq(IrqWake), before);
      }
    }

    // ----------------------------------------------------------------- the handler

    /** Entry into the handler; the frames that have finished by now are due. */
    method Enter() returns (ghost d: nat)
      requires Ok() && i.IIdle? && core.txbhci
      modifies `i, `steps, `due
      ensures Ok() && i == IEnter(true) && d == due > |log.retired|
      ensures FinishedBelow(c, old(Value()), due)
    {
      ghost var before := Value();
      RunExtends(c, origin, steps, before, Irq(IrqEnter));
      FirstOpenExact(c, origin, steps, before);
      InterruptExact(c, origin, steps, before);
      due := FirstOpen(c, before, |log.retired|);
      d := due;
      i := IEnter(true);
      Record(Irq(IrqEnter), before);
    }

    /** One finished buffer, from the switch to the end of the inner loop's body. */
    method ProcessBuffer(id: nat, code: nat)
      requires Ok() && i.ISwitch? && i.id == id < c.n && i.code == code
      requires code == 0x4 || code == 0x6 || code == 0x7
      modifies `drv, `core, `log, `x, `i, `steps, `budget
      ensures Ok() && i == IScan(false, true) && Rest() < old(Rest())
    {
      hide FinishedTo, Reached;
      TakeEcho(id, code);
      Others(IrqSide);
      ReleaseBuffer(id);
    }

    /** The tail, the priorities and the buffer, in this order. */
    method ReleaseBuffer(id: nat)
      requires Ok() && i == IAdvance(id) && id < c.n
      modifies `drv, `core, `log, `x, `i, `steps, `budget
      ensures Ok() && i == IScan(false, true) && Rest() <= old(Rest())
    {
      hide FinishedTo, Reached;
      AdvanceTail(id);
      Others(IrqSide);
      RotateTxbPrio(id);
      Others(IrqSide);
      FreeBuffer(id);
      Others(IrqSide);
    }

    /** The inner loop; `out` is the early return of the branch that reports a bug. */
    method ProcessFinished(first0: bool) returns (first: bool, some: bool, out: bool)
      requires Ok() && i == IScan(first0, false)
      modifies `drv, `core, `log, `x, `i, `steps, `budget
      ensures Ok() && i == IUnlock(first, some)
      ensures Rest() <= old(Rest()) && (some ==> Rest() < old(Rest())) && !out && due <= |log.retired|
    {
      hide FinishedTo, Reached;
      first, some, out := first0, false, false;
      while true
        invariant Ok() && i == IScan(first, some)
        invariant Rest() <= old(Rest()) && (some ==> Rest() < old(Rest()))
        decreases Rest()
      {
        var pending, id, code := ReadOldest(first, some);
        if !pending {
          return;
        }
        Others(IrqSide);
        if !(code == 0x4 || code == 0x6 || code == 0x7) {
          out := NotFinishedBranch(first, some, id, code);
          return;
        }
        ProcessBuffer(id, code);
        first, some := false, true;
      }
    }

    /** From the label `clear` to the end of the outer loop's body. */
    method EndPass(first: bool, some: bool)
      requires Ok() && i == IUnlock(first, some)
      modifies `drv, `core, `log, `x, `i, `steps, `budget
      ensures Ok() && i == (if some then IEnter(first) else IWake) && Rest() <= old(Rest())
      ensures log.retired == old(log.retired)
    {
      hide FinishedTo, Reached;
      Others(IrqSide);
      UnlockTx(first, some);
      Others(IrqSide);
      ClearInterrupt(first, some);
    }

    /** One pass of the outer loop; `cut` if the call leaves early or is left spinning on the lock. */
    method OnePass(first0: bool) returns (first: bool, some: bool, cut: bool)
      requires Ok() && i == IEnter(first0)
      modifies `drv, `core, `log, `x, `i, `steps, `budget
      ensures Ok() && (!cut ==> i == (if some then IEnter(first) else IWake) && due <= |log.retired|)
      ensures cut ==> i.IEnter? && !drv.lock.Free?
      ensures !cut && some ==> Rest() < old(Rest())
      ensures Rest() <= old(Rest())
    {
      hide FinishedTo, Reached;
      first, some := first0, false;
      Others(IrqSide);
      var got := LockTx(first);
      if !got {
        cut := true;
        return;
      }
      first, some, cut := ProcessFinished(first);
      if cut {
        return;
      }
      EndPass(first, some);
    }

    /** `ctucan_tx_interrupt`, while the rest of the system takes up to `others` steps; `done` is false
        if the call is left spinning on the lock. Every frame that had finished when the call began,
        and there is one, is retired when it is done. */
    method TxInterrupt(others: nat) returns (done: bool)
      requires Ok() && i.IIdle? && core.txbhci
      modifies this
      ensures Ok() && past == old(steps) && NotFinished !in log.bugs
      ensures due > |old(log.retired)| && FinishedBelow(c, old(Value()), due)
      ensures done ==> i.IIdle? && due <= |log.retired| && (drv.stopped ==> !Txnf(core))
      ensures done ==> forall q: nat ::
                (&& |old(log.retired)| <= q < TxInvariant.Readied(old(Value()))
                 && Finished(old(core).slots[q % c.n].status)) ==> q < |log.retired|
      ensures !done ==> Spinning()
    {
      hide FinishedTo, Reached;
      past := steps;
      due := Enter();
      done := ResumeInterrupt(others);
    }

    /** The handler waits for the lock, at one of the two places where it takes it. */
    ghost predicate Spinning()
      reads this
    {
      !drv.lock.Free? && (i.IEnter? || (i.IWake? && due <= |log.retired|))
    }

    /** The handler from one of these places on, while the rest of the system takes up to `others` steps. */
    method ResumeInterrupt(others: nat) returns (done: bool)
      requires Ok() && (i.IEnter? || (i.IWake? && due <= |log.retired|))
      modifies `drv, `core, `log, `x, `i, `steps, `budget
      ensures Ok() && NotFinished !in log.bugs
      ensures done ==> i.IIdle? && due <= |log.retired| && (drv.stopped ==> !Txnf(core))
      ensures !done ==> Spinning()
    {
      hide FinishedTo, Reached;
      budget := others;
      var first, some, cut := i.IEnter? && i.first, i.IEnter?, false;
      while some && !cut
        invariant Ok() && (cut ==> i.IEnter? && !drv.lock.Free?)
        invariant !cut ==> i == (if some then IEnter(first) else IWake) && (!some ==> due <= |log.retired|)
        decreases Rest(), some, !cut
      {
        first, some, cut := OnePass(first);
      }
      done := false;
      if !cut {
        Others(IrqSide);
        done := WakeQueue();
      }
      NoBugBranch(c, origin, steps, Value());
    }

    // ------------------------------------------------------------------- start_xmit

    /** The check of TXNF; the branch that reports a bug is never taken. */
    method CheckTxnf(frame: Frame) returns (ok: bool)
      requires Ok() && x.XIdle? && !drv.stopped
      modifies `drv, `log, `x, `steps
      ensures Ok() && ok && x == XChecked(frame) && log.sent == old(log.sent) && log.refused == old(log.refused)
    {
      ghost var before := Value();
      ok := Txnf(core);
      if ok {
        x := XChecked(frame);
      } else {
        drv := drv.(stopped := true);
        log := log.(bugs := log.bugs + {NoBufferFree});
      }
      Record(Xmit(XmitCheck(frame)), before);
      NoBugBranch(c, origin, steps, Value());
    }

    /** The tests of `ctucan_insert_frame`: only a frame that is too long is refused, and dropped. */
    method MayInsert(frame: Frame) returns (ok: bool)
      requires Ok() && x == XChecked(frame)
      modifies `log, `x, `steps
      ensures Ok() && (ok <==> frame.len <= CANFD_MAX_DLEN) && x == if ok then XWritable(frame) else XIdle
      ensures log.sent == old(log.sent) && log.refused == if ok then old(log.refused) else old(log.refused) + [frame]
    {
      ghost var before := Value();
      var code := ReadStatus(core.slots[drv.head % c.n].status);
      ok := !(code == 0x1 || code == 0x2 || code == 0x3 || frame.len > CANFD_MAX_DLEN);
      if ok {
        x := XWritable(frame);
      } else {
        log := log.(refused := log.refused + [frame], bugs := log.bugs + {CannotInsert});
        x := XIdle;
      }
      Record(Xmit(XmitStatus), before);
      assert !ok ==> log.refused[|log.refused| - 1] == frame;
      NoBugBranch(c, origin, steps, Value());
    }

    method FillBuffer(frame: Frame)
      requires Ok() && x == XWritable(frame)
      modifies `core, `x, `steps
      ensures Ok() && x == XFilled(frame)
    {
      ghost var before := Value();
      var id := drv.head % c.n;
      core := core.(slots := core.slots[id := core.slots[id].(frame := frame)]);
      x := XFilled(frame);
      Record(Xmit(XmitFill), before);
    }

    /** `can_put_echo_skb`. */
    method PutEcho(frame: Frame)
      requires Ok() && x == XFilled(frame)
      modifies `drv, `log, `x, `steps
      ensures Ok() && x == XEchoed(frame) && log.sent == old(log.sent) && log.refused == old(log.refused)
    {
      ghost var before := Value();
      var id := drv.head % c.n;
      if drv.echo[id].Some? {
        log := log.(bugs := log.bugs + {EchoOccupied});
      } else {
        drv := drv.(echo := drv.echo[id := Some(frame)]);
      }
      x := XEchoed(frame);
      Record(Xmit(XmitEcho), before);
    }

    method LockXmit(frame: Frame) returns (got: bool)
      requires Ok() && x == XEchoed(frame)
      modifies `drv, `x, `steps
      ensures Ok() && x == (if got then XLocked(frame) else XEchoed(frame)) && (!got ==> !drv.lock.Free?)
      ensures log == old(log)
    {
      ghost var before := Value();
      got := drv.lock.Free?;
      if got {
        drv := drv.(lock := ByXmit);
        x := XLocked(frame);
        Record(Xmit(XmitLock), before);
      }
    }

    /** TXT_CMD_SET_READY. */
    method ReadyBuffer(frame: Frame)
      requires Ok() && x == XLocked(frame)
      modifies `core, `x, `steps
      ensures Ok() && x == XReadied(frame)
    {
      ghost var before := Value();
      var id := drv.head % c.n;
      core := SetStatus(core, id, SetReady(core.slots[id].status));
      x := XReadied(frame);
      Record(Xmit(XmitReady), before);
    }

    method AdvanceHead(frame: Frame)
      requires Ok() && x == XReadied(frame)
      modifies `drv, `log, `x, `steps
      ensures Ok() && x == XCounted && log.sent == old(log.sent) + [frame] && log.refused == old(log.refused)
    {
      ghost var before := Value();
      drv := drv.(head := Wrap(c, drv.head + 1));
      log := log.(sent := log.sent + [frame]);
      x := XCounted;
      Record(Xmit(XmitCount), before);
    }

    /** The queue is stopped if no buffer is free, and the lock is given back. */
    method StopIfFull()
      requires Ok() && x == XCounted
      modifies `drv, `x, `steps
      ensures Ok() && x == XIdle
    {
      ghost var before := Value();
      if !Txnf(core) {
        drv := drv.(stopped := true);
      }
      drv := drv.(lock := Free);
      x := XIdle;
      Record(Xmit(XmitRelease), before);
    }

    /** Whether the frame can go into the next buffer. */
    method Admit(frame: Frame) returns (ok: bool)
      requires Ok() && x.XIdle? && !drv.stopped
      modifies `drv, `core, `log, `x, `i, `steps, `budget
      ensures Ok() && (ok <==> frame.len <= CANFD_MAX_DLEN) && x == if ok then XWritable(frame) else XIdle
      ensures log.sent == old(log.sent) && log.refused == if ok then old(log.refused) else old(log.refused) + [frame]
    {
      hide FinishedTo, Reached;
      ok := CheckTxnf(frame);
      if !ok {
        return;
      }
      Others(XmitSide);
      ok := MayInsert(frame);
    }

    /** The unlocked part: the frame goes into the buffer and into the echo slot. */
    method Prepare(frame: Frame) returns (ok: bool)
      requires Ok() && x.XIdle? && !drv.stopped
      modifies `drv, `core, `log, `x, `i, `steps, `budget
      ensures Ok() && (ok <==> frame.len <= CANFD_MAX_DLEN) && x == if ok then XEchoed(frame) else XIdle
      ensures log.sent == old(log.sent) && log.refused == if ok then old(log.refused) else old(log.refused) + [frame]
    {
      hide FinishedTo, Reached;
      ok := Admit(frame);
      Others(XmitSide);
      if ok {
        FillBuffer(frame);
        Others(XmitSide);
        PutEcho(frame);
        Others(XmitSide);
      }
    }

    /** The locked part: the buffer is made ready and counted. */
    method Submit(frame: Frame)
      requires Ok() && x == XLocked(frame)
      modifies `drv, `core, `log, `x, `i, `steps, `budget
      ensures Ok() && x == XIdle && log.sent == old(log.sent) + [frame] && log.refused == old(log.refused)
    {
      hide FinishedTo, Reached;
      Others(XmitSide);
      ReadyBuffer(frame);
      Others(XmitSide);
      AdvanceHead(frame);
      Others(XmitSide);
      StopIfFull();
    }

    /** `ctucan_start_xmit`, while the rest of the system takes up to `others` steps; `done` is false if
        the call is left spinning on the lock. A frame is submitted exactly if it is accepted, and
        refused exactly if it is too long. */
    method StartXmit(frame: Frame, others: nat) returns (done: bool, accepted: bool)
      requires Ok() && x.XIdle? && !drv.stopped
      modifies this
      ensures Ok() && past == old(steps)
      ensures done ==> x.XIdle? && (accepted <==> frame.len <= CANFD_MAX_DLEN)
      ensures !done ==> x == XEchoed(frame) && !accepted && !drv.lock.Free?
      ensures log.sent == if accepted then old(log.sent) + [frame] else old(log.sent)
      ensures log.refused == if frame.len > CANFD_MAX_DLEN then old(log.refused) + [frame] else old(log.refused)
    {
      hide FinishedTo, Reached;
      budget := others;
      past := steps;
      done, accepted := true, false;
      var ok := Prepare(frame);
      if ok {
        done := TakeLock(frame);
        accepted := done;
      }
    }

    /** The call, left spinning on the lock, goes on: while the rest of the system takes up to `others`
        steps it submits the frame, or is left spinning again. */
    method ResumeXmit(frame: Frame, others: nat) returns (done: bool)
      requires Ok() && x == XEchoed(frame)
      modifies this
      ensures Ok() && past == old(steps) && x == (if done then XIdle else XEchoed(frame)) && (!done ==> !drv.lock.Free?)
      ensures log.sent == if done then old(log.sent) + [frame] else old(log.sent)
      ensures log.refused == old(log.refused)
    {
      hide FinishedTo, Reached;
      budget := others;
      past := steps;
      Others(XmitSide);
      done := TakeLock(frame);
    }

    /** From taking the lock to the end of the call. */
    method TakeLock(frame: Frame) returns (done: bool)
      requires Ok() && x == XEchoed(frame)
      modifies `drv, `core, `log, `x, `i, `steps, `budget
      ensures Ok() && x == (if done then XIdle else XEchoed(frame)) && (!done ==> !drv.lock.Free?)
      ensures log.sent == if done then old(log.sent) + [frame] else old(log.sent)
      ensures log.refused == old(log.refused)
    {
      hide FinishedTo, Reached;
      done := LockXmit(frame);
      if done {
        Submit(frame);
      }
    }
  }

  /** A step of the others leaves the running call where it is and adds at most one frame. */
  lemma OtherKeeps(c: Config, side: Side, s: State, step: Step)
    requires Sized(c, s) && Enabled(c, s, step) && Other(side, step)
    ensures var t := Do(c, s, step);
            && OwnKept(side, s, t)
            && |t.log.sent| <= |s.log.sent| + 1 && |t.log.retired| >= |s.log.retired|
  {
  }
}
