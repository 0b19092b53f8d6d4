/** Steps that leave the buffers alone preserve the invariant. */
module TxControlSteps {
  import opened Frames
  import opened Rings
  import opened TxRing
  import opened TxWindow
  import opened TxInvariant

  /** Steps that leave the buffers, the echo slots and the log alone. */
  ghost predicate SameData(s: State, t: State) {
    && t.core.slots == s.core.slots && t.core.sel == s.core.sel && t.core.prio == s.core.prio
    && t.drv.echo == s.drv.echo && t.drv.prio == s.drv.prio
    && t.log == s.log
    && Readied(t) == Readied(s) && Echoed(t) == Echoed(s) && Line(t) == Line(s)
    && Emptied(t) == Emptied(s) && Rotations(t) == Rotations(s) && (Retiring(t.i) ==> Retiring(s.i))
  }

  lemma SameDataKeeps(c: Config, s: State, t: State)
    requires Bounds(c, s) && Data(c, s) && Rotation(c, s) && SameData(s, t)
    ensures Bounds(c, t) && Data(c, t) && Rotation(c, t)
  {
    assert Bounds(c, t);
    assert BuffersOk(c, t) && EchoesOk(c, t) && Ledger(t.log);
    SameWire(c, s, t);
  }

  lemma SameWire(c: Config, s: State, t: State)
    requires Bounds(c, s) && Bounds(c, t) && SameData(s, t) && WireOk(c, s)
    ensures WireOk(c, t)
  {
  }

  /** TXNF says that the window leaves a buffer free. */
  lemma TxnfExact(c: Config, s: State)
    requires ValidConfig(c) && Bounds(c, s) && BuffersOk(c, s)
    ensures Txnf(s.core) <==> Span(s) < c.n
  {
    var base, m := Emptied(s), Span(s);
    if m < c.n {
      ViewAt(s.core.slots, base, m);
      assert s.core.slots[Idx(c.n, base + m)].status.Empty?;
    } else {
      forall i | 0 <= i < c.n ensures !s.core.slots[i].status.Empty? {
        var k := IndexOf(c.n, base, i);
        ViewAt(s.core.slots, base, k);
      }
    }
  }

  lemma CheckControl(c: Config, s: State, t: State, f: Frame)
    requires Bounds(c, s) && Control(c, s) && s.x.XIdle? && !s.drv.stopped
    requires t == s.(x := XChecked(f))
    ensures Control(c, t)
  {
  }

  lemma StatusControl(c: Config, s: State, t: State)
    requires Bounds(c, s) && Control(c, s) && s.x.XChecked?
    requires t == s.(x := XWritable(s.x.frame)) || t == s.(x := XIdle)
    ensures Control(c, t)
  {
  }

  lemma RefusalControl(c: Config, s: State, t: State)
    requires Bounds(c, s) && Control(c, s)
    requires t == s.(log := s.log.(refused := t.log.refused, bugs := t.log.bugs))
    ensures Bounds(c, t) && Control(c, t)
  {
  }

  lemma LockControl(c: Config, s: State, t: State)
    requires Bounds(c, s) && Control(c, s) && s.x.XEchoed? && s.drv.lock.Free?
    requires t == s.(x := XLocked(s.x.frame), drv := s.drv.(lock := ByXmit))
    ensures Control(c, t)
  {
  }

  lemma ReleaseControl(c: Config, s: State, t: State)
    requires Bounds(c, s) && Control(c, s) && s.x.XCounted?
    requires t == s.(x := XIdle, drv := s.drv.(lock := Free, stopped := s.drv.stopped || Span(s) >= c.n))
    ensures Control(c, t)
  {
  }

  lemma EnterControl(c: Config, s: State, t: State)
    requires Bounds(c, s) && Control(c, s) && s.i.IIdle? && s.core.txbhci
    requires t == s.(i := IEnter(true))
    ensures Control(c, t)
  {
  }

  lemma IrqLockControl(c: Config, s: State, t: State)
    requires Bounds(c, s) && Control(c, s) && s.i.IEnter? && s.drv.lock.Free?
    requires t == s.(i := IScan(s.i.first, false), drv := s.drv.(lock := ByIrq))
    ensures Control(c, t)
  {
  }

  lemma UnlockControl(c: Config, s: State, t: State)
    requires Bounds(c, s) && Control(c, s) && s.i.IUnlock?
    requires t == s.(i := IClear(s.i.first, s.i.some), drv := s.drv.(lock := Free))
    ensures Control(c, t)
  {
  }

  lemma ClearControl(c: Config, s: State, t: State)
    requires Bounds(c, s) && Control(c, s) && s.i.IClear?
    requires t == if s.i.some then s.(i := IEnter(s.i.first), core := s.core.(txbhci := false)) else s.(i := IWake)
    ensures Control(c, t)
  {
  }

  lemma WakeControl(c: Config, s: State, t: State)
    requires Bounds(c, s) && Control(c, s) && s.i.IWake? && s.drv.lock.Free?
    requires t == s.(i := IIdle, drv := s.drv.(stopped := s.drv.stopped && Span(s) >= c.n))
    ensures Control(c, t)
  {
  }

  lemma AdvanceControl(c: Config, s: State, t: State)
    requires Bounds(c, s) && Control(c, s) && s.i.IAdvance?
    requires t == s.(i := IRotate(s.i.id), drv := s.drv.(tail := Wrap(c, s.drv.tail + 1)))
    ensures Control(c, t)
  {
    WrapSucc(c, TailCount(s));
  }

  lemma RotateControl(c: Config, s: State, t: State)
    requires Bounds(c, s) && Control(c, s) && s.i.IRotate?
    requires t.i == IFree(s.i.id) && t.x == s.x && t.log == s.log
    requires t.drv.(prio := 0) == s.drv.(prio := 0) && t.core.(prio := 0) == s.core.(prio := 0)
    ensures Control(c, t)
  {
  }
}
