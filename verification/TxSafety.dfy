/** Safety of the transmit path over all runs. */
module TxSafety {
  import opened Frames
  import opened Rings
  import opened TxRing
  import opened TxWindow
  import opened TxInvariant
  import opened TxControlSteps
  import opened TxBufferSteps
  import A = Arbiter

  lemma SameKeeps(c: Config, s: State, t: State)
    requires Inv(c, s) && SameData(s, t)
    requires Bounds(c, t) ==> Control(c, t)
    ensures Inv(c, t)
  {
    SameDataKeeps(c, s, t);
  }

  lemma XmitKeeps(c: Config, s: State, step: XmitStep)
    requires ValidConfig(c) && Inv(c, s) && XmitEnabled(s, step)
    ensures Inv(c, DoXmit(c, s, step))
  {
    hide BuffersOk, EchoesOk, WireOk, Rotation, Ledger, InterruptOk, Filled, IrqOk, XmitOk;
    var t := DoXmit(c, s, step);
    WrapIdx(c, |s.log.sent|);
    match step
    case XmitCheck(f) => CheckKeeps(c, s, t, f);
    case XmitStatus => StatusKeeps(c, s, t);
    case XmitFill => FillKeepsInv(c, s, t);
    case XmitEcho => EchoKeeps(c, s, t);
    case XmitLock => LockKeeps(c, s, t);
    case XmitReady => ReadyKeepsInv(c, s, t);
    case XmitCount => CountKeeps(c, s, t);
    case XmitRelease => ReleaseKeeps(c, s, t);
  }

  lemma CheckKeeps(c: Config, s: State, t: State, f: Frame)
    requires ValidConfig(c) && Inv(c, s) && s.x.XIdle? && !s.drv.stopped
    requires Txnf(s.core) ==> t == s.(x := XChecked(f))
    ensures Inv(c, t)
  {
    TxnfExact(c, s);
    CheckControl(c, s, t, f);
    SameKeeps(c, s, t);
  }

  lemma StatusKeeps(c: Config, s: State, t: State)
    requires ValidConfig(c) && Inv(c, s) && s.x.XChecked?
    requires var st := s.core.slots[Idx(c.n, |s.log.sent|)].status;
             st.Empty? ==>
               t == if s.x.frame.len <= CANFD_MAX_DLEN then s.(x := XWritable(s.x.frame))
                    else s.(x := XIdle, log := s.log.(refused := s.log.refused + [s.x.frame],
                                                      bugs := s.log.bugs + {CannotInsert}))
    ensures Inv(c, t)
  {
    hide EchoesOk, WireOk, Rotation, Ledger, InterruptOk, IrqOk, Counters;
    ViewAt(s.core.slots, Emptied(s), Span(s));
    var mid := s.(x := if s.x.frame.len <= CANFD_MAX_DLEN then XWritable(s.x.frame) else XIdle);
    StatusControl(c, s, mid);
    SameKeeps(c, s, mid);
    if s.x.frame.len > CANFD_MAX_DLEN {
      RefusalKeeps(c, mid, t, s.x.frame);
    }
  }

  /** A refusal is only logged. */
  lemma RefusalKeeps(c: Config, s: State, t: State, f: Frame)
    requires Inv(c, s) && f.len > CANFD_MAX_DLEN
    requires t == s.(log := s.log.(refused := s.log.refused + [f], bugs := s.log.bugs + {CannotInsert}))
    ensures Inv(c, t)
  {
    hide BuffersOk, EchoesOk, WireOk, Control;
    RefusalControl(c, s, t);
    BuffersSame(c, s, t);
    EchoesSame(c, s, t);
    WireSame(c, s, t);
  }

  lemma FillKeepsInv(c: Config, s: State, t: State)
    requires Inv(c, s) && s.x.XWritable?
    requires var id := Idx(c.n, |s.log.sent|);
             t == s.(x := XFilled(s.x.frame),
                     core := s.core.(slots := s.core.slots[id := s.core.slots[id].(frame := s.x.frame)]))
    ensures Inv(c, t)
  {
    FillBuffers(c, s, t);
    EchoesSame(c, s, t);
    FillWire(c, s, t);
    FillControl(c, s, t);
  }

  lemma EchoKeeps(c: Config, s: State, t: State)
    requires Inv(c, s) && s.x.XFilled?
    requires var id := Idx(c.n, |s.log.sent|);
             s.drv.echo[id].None? ==>
               t == s.(x := XEchoed(s.x.frame), drv := s.drv.(echo := s.drv.echo[id := Some(s.x.frame)]))
    ensures Inv(c, t)
  {
    hide BuffersOk, EchoesOk, WireOk, Ledger, InterruptOk, Filled, IrqOk, Counters;
    var t' := s.(x := XEchoed(s.x.frame), drv := s.drv.(echo := s.drv.echo[Idx(c.n, |s.log.sent|) := Some(s.x.frame)]));
    EchoEchoes(c, s, t');
    BuffersSame(c, s, t);
    WireSame(c, s, t);
    EchoControl(c, s, t);
  }

  lemma LockKeeps(c: Config, s: State, t: State)
    requires Inv(c, s) && s.x.XEchoed? && s.drv.lock.Free?
    requires t == s.(x := XLocked(s.x.frame), drv := s.drv.(lock := ByXmit))
    ensures Inv(c, t)
  {
    LockControl(c, s, t);
    SameKeeps(c, s, t);
  }

  lemma ReadyKeepsInv(c: Config, s: State, t: State)
    requires Inv(c, s) && s.x.XLocked?
    requires var id := Idx(c.n, |s.log.sent|);
             t == s.(x := XReadied(s.x.frame), core := SetStatus(s.core, id, SetReady(s.core.slots[id].status)))
    ensures Inv(c, t)
  {
    ReadyBuffers(c, s, t);
    EchoesSame(c, s, t);
    ReadyWire(c, s, t);
    ReadyControl(c, s, t);
  }

  lemma CountKeeps(c: Config, s: State, t: State)
    requires Inv(c, s) && s.x.XReadied?
    requires t == s.(x := XCounted, drv := s.drv.(head := Wrap(c, s.drv.head + 1)),
                     log := s.log.(sent := s.log.sent + [s.x.frame]))
    ensures Inv(c, t)
  {
    CountFrame(c, s, t);
    BuffersSame(c, s, t);
    EchoesSame(c, s, t);
    WireSame(c, s, t);
    CountControl(c, s, t);
  }

  lemma CountFrame(c: Config, s: State, t: State)
    requires Bounds(c, s) && Ledger(s.log) && s.x.XReadied? && t.x.XCounted? && t.i == s.i
    requires |t.core.slots| == c.n && |t.drv.echo| == c.n && t.log == s.log.(sent := s.log.sent + [s.x.frame])
    ensures Bounds(c, t) && Ledger(t.log) && Line(t) == Line(s)
    ensures Span(t) == Span(s) && Emptied(t) == Emptied(s) && Echoed(t) == Echoed(s)
  {
  }

  lemma ReleaseKeeps(c: Config, s: State, t: State)
    requires ValidConfig(c) && Inv(c, s) && s.x.XCounted?
    requires t == s.(x := XIdle, drv := s.drv.(lock := Free, stopped := s.drv.stopped || !Txnf(s.core)))
    ensures Inv(c, t)
  {
    TxnfExact(c, s);
    ReleaseControl(c, s, t);
    SameKeeps(c, s, t);
  }

  // -------------------------------------------------------------- the handler

  lemma IrqKeeps(c: Config, s: State, step: IrqStep)
    requires ValidConfig(c) && Inv(c, s) && IrqEnabled(c, s, step)
    ensures Inv(c, DoIrq(c, s, step))
  {
    hide BuffersOk, EchoesOk, WireOk, Rotation, Ledger, InterruptOk, Filled, IrqOk, XmitOk, Counters;
    var t := DoIrq(c, s, step);
    match step
    case IrqEnter => EnterKeeps(c, s, t);
    case IrqLock => IrqLockKeeps(c, s, t);
    case IrqScan => ScanKeeps(c, s, t);
    case IrqSwitch => SwitchKeeps(c, s, t);
    case IrqAdvance => AdvanceKeeps(c, s, t);
    case IrqRotate => RotateKeeps(c, s, t);
    case IrqFree => FreeKeepsInv(c, s, t);
    case IrqUnlock => UnlockKeeps(c, s, t);
    case IrqClear => ClearKeeps(c, s, t);
    case IrqWake => WakeKeeps(c, s, t);
  }

  lemma EnterKeeps(c: Config, s: State, t: State)
    requires Inv(c, s) && s.i.IIdle? && s.core.txbhci
    requires t == s.(i := IEnter(true))
    ensures Inv(c, t)
  {
    EnterControl(c, s, t);
    SameKeeps(c, s, t);
  }

  lemma IrqLockKeeps(c: Config, s: State, t: State)
    requires Inv(c, s) && s.i.IEnter? && s.drv.lock.Free?
    requires t == s.(i := IScan(s.i.first, false), drv := s.drv.(lock := ByIrq))
    ensures Inv(c, t)
  {
    IrqLockControl(c, s, t);
    SameKeeps(c, s, t);
  }

  lemma AdvanceKeeps(c: Config, s: State, t: State)
    requires Inv(c, s) && s.i.IAdvance?
    requires t == s.(i := IRotate(s.i.id), drv := s.drv.(tail := Wrap(c, s.drv.tail + 1)))
    ensures Inv(c, t)
  {
    AdvanceControl(c, s, t);
    SameKeeps(c, s, t);
  }

  lemma UnlockKeeps(c: Config, s: State, t: State)
    requires Inv(c, s) && s.i.IUnlock?
    requires t == s.(i := IClear(s.i.first, s.i.some), drv := s.drv.(lock := Free))
    ensures Inv(c, t)
  {
    UnlockControl(c, s, t);
    SameKeeps(c, s, t);
  }

  lemma ClearKeeps(c: Config, s: State, t: State)
    requires Inv(c, s) && s.i.IClear?
    requires t == if s.i.some then s.(i := IEnter(s.i.first), core := s.core.(txbhci := false)) else s.(i := IWake)
    ensures Inv(c, t)
  {
    ClearControl(c, s, t);
    SameKeeps(c, s, t);
  }

  lemma ScanKeeps(c: Config, s: State, t: State)
    requires ValidConfig(c) && Inv(c, s) && s.i.IScan?
    requires t == if Pending(c, s.drv.head, s.drv.tail)
                  then var id := s.drv.tail % c.n;
                       s.(i := ISwitch(s.i.first, s.i.some, id, ReadStatus(s.core.slots[id].status)))
                  else s.(i := IUnlock(s.i.first, s.i.some))
    ensures Inv(c, t)
  {
    PendingExact(c, |s.log.sent|, |s.log.retired|);
    WrapIdx(c, |s.log.retired|);
    ScanControl(c, s, t);
    SameKeeps(c, s, t);
  }

  lemma SwitchKeeps(c: Config, s: State, t: State)
    requires Inv(c, s) && s.i.ISwitch? && s.i.id < c.n && t == DoIrq(c, s, IrqSwitch)
    ensures Inv(c, t)
  {
    if DoneCode(s.i.code) {
      RetireKeeps(c, s, t);
    } else {
      var t' := s.(i := IUnlock(s.i.first, s.i.some));
      SwitchControl(c, s, t');
      SameKeeps(c, s, t);
    }
  }

  /** The handler's oldest frame: its number, its echo and its outcome. */
  lemma RetireFacts(c: Config, s: State)
    requires Bounds(c, s) && BuffersOk(c, s) && IrqOk(c, s) && s.i.ISwitch? && DoneCode(s.i.code)
    ensures var r := |s.log.retired|;
            && r < |s.log.sent| && s.i.id == Idx(c.n, r) && Emptied(s) == r && Lead(s) == 0 < Span(s)
            && (s.i.code == 0x4 <==> Window(c, s)[0].status.Sent?) && Window(c, s)[0].frame == s.log.sent[r]
  {
  }

  lemma RetireKeeps(c: Config, s: State, t: State)
    requires Inv(c, s) && s.i.ISwitch? && DoneCode(s.i.code) && s.i.id < c.n && t == Retire(s, s.i.id, s.i.code)
    ensures Inv(c, t)
  {
    hide BuffersOk, Ledger, InterruptOk, Filled, XmitOk, Counters, IrqOk, Echoes, WireIs;
    RetireFacts(c, s);
    var r, ok, m := |s.log.retired|, s.i.code == 0x4, Span(s);
    var mid := s.(drv := t.drv, log := s.log.(retired := s.log.retired + [Outcome(s.log.sent[r], ok)]));
    RetireEchoes(c, s, mid);
    RetireLedger(s.log, t.log, ok);
    RetireBounds(c, s, t);
    BuffersSame(c, s, t);
    SentInHead(Window(c, s), 0, m);
    RetireWire(s.log, t.log, Window(c, s), m, ok);
    RetireControl(c, s, t);
  }

  lemma RotateKeeps(c: Config, s: State, t: State)
    requires Inv(c, s) && s.i.IRotate? && t == DoIrq(c, s, IrqRotate)
    ensures Inv(c, t)
  {
    RotateControl(c, s, t);
    BuffersSame(c, s, t);
    EchoesSame(c, s, t);
    WireSame(c, s, t);
    RotateRotation(c, s, t);
  }

  lemma FreeKeepsInv(c: Config, s: State, t: State)
    requires Inv(c, s) && s.i.IFree? && s.i.id < c.n && t == DoIrq(c, s, IrqFree)
    ensures Inv(c, t)
  {
    FreeBuffers(c, s, t);
    EchoesSame(c, s, t);
    FreeWire(c, s, t);
    FreeControl(c, s, t);
  }

  lemma WakeKeeps(c: Config, s: State, t: State)
    requires ValidConfig(c) && Inv(c, s) && s.i.IWake? && s.drv.lock.Free? && t == DoIrq(c, s, IrqWake)
    ensures Inv(c, t)
  {
    TxnfExact(c, s);
    WakeControl(c, s, t);
    SameKeeps(c, s, t);
  }

  // -------------------------------------------------------------- the hardware

  lemma HwKeeps(c: Config, s: State, step: HwStep)
    requires Inv(c, s) && HwEnabled(s.core, step)
    ensures Inv(c, DoHw(c, s, step))
  {
    hide BuffersOk, EchoesOk, WireOk, Rotation, Ledger, InterruptOk, Filled, IrqOk, XmitOk, Counters;
    var t := DoHw(c, s, step);
    match step
    case HwSelect =>
      DecodePicks(s.core.slots, s.core.prio);
      SelectKeepsInv(c, s, t);
    case HwLock => UnfinishedKeeps(c, s, t, Ready, Transmitting);
    case HwFinish(o) => FinishKeeps(c, s, t, o);
    case HwRetry => UnfinishedKeeps(c, s, t, Transmitting, Ready);
    case HwBusOff => BusOffKeepsInv(c, s, t);
  }

  lemma SelectKeepsInv(c: Config, s: State, t: State)
    requires Inv(c, s) && HwEnabled(s.core, HwSelect)
    requires t == s.(core := s.core.(sel := t.core.sel)) && Picks(s.core.slots, s.core.prio, t.core.sel)
    ensures Inv(c, t)
  {
    hide BuffersOk, EchoesOk, WireOk, Ledger, InterruptOk, Counters, XmitOk, Filled;
    SelectBuffers(c, s, t);
    EchoesSame(c, s, t);
    WireSame(c, s, t);
    SelectionControl(c, s, t);
  }

  lemma SelectionControl(c: Config, s: State, t: State)
    requires Bounds(c, s) && Control(c, s) && t == s.(core := s.core.(sel := t.core.sel))
    ensures Control(c, t)
  {
  }

  lemma UnfinishedKeeps(c: Config, s: State, t: State, from: Status, to: Status)
    requires Inv(c, s) && Selected(s.core, from) && !Finished(to) && !to.Empty?
    requires t == s.(core := SetStatus(s.core, s.core.sel.index, to).(sel := t.core.sel))
    requires t.core.sel == if to.Transmitting? then s.core.sel else A.NoBuffer
    ensures Inv(c, t)
  {
    var k := SelectedAt(c, s, from);
    OldestBuffers(c, s, t, k, to);
    EchoesSame(c, s, t);
    UnsentWire(c, s, t, k, to);
    UnfinishedControl(c, s, t, k, to);
  }

  lemma FinishWire(c: Config, s: State, t: State, k: nat, o: Status)
    requires Bounds(c, s) && Bounds(c, t) && WireOk(c, s) && IrqOk(c, s)
    requires Ordered(Window(c, s), Span(s)) && Oldest(Window(c, s), Span(s), k)
    requires t.x == s.x && t.i == s.i
    requires t.log == if o.Sent? then s.log.(wire := s.log.wire + [Window(c, s)[k].frame]) else s.log
    requires Window(c, t) == Window(c, s)[k := Window(c, s)[k].(status := o)]
    ensures WireOk(c, t)
  {
    if o.Sent? {
      SentWireOk(c, s, t, k);
    } else {
      UnsentWire(c, s, t, k, o);
    }
  }

  lemma FinishKeeps(c: Config, s: State, t: State, o: Status)
    requires Inv(c, s) && Selected(s.core, Transmitting) && Finished(o)
    requires var i := s.core.sel.index;
             t == s.(core := SetStatus(s.core, i, o).(sel := A.NoBuffer, txbhci := true),
                     log := if o.Sent? then s.log.(wire := s.log.wire + [s.core.slots[i].frame]) else s.log)
    ensures Inv(c, t)
  {
    hide EchoesOk, WireOk, InterruptOk, Filled, XmitOk, Counters;
    var k := SelectedAt(c, s, Transmitting);
    OldestBuffers(c, s, t, k, o);
    EchoesSame(c, s, t);
    FinishWire(c, s, t, k, o);
    FinishControl(c, s, t, k, o);
  }

  lemma BusOffKeepsInv(c: Config, s: State, t: State)
    requires Inv(c, s) && t == DoHw(c, s, HwBusOff)
    ensures Inv(c, t)
  {
    BusOffBuffers(c, s, t);
    EchoesSame(c, s, t);
    BusOffWire(c, s, t);
    if t.core.slots == s.core.slots {
      SelectionControl(c, s, t);
    } else {
      BusOffHead(c, s, t);
      BusOffControl(c, s, t);
    }
  }
}
