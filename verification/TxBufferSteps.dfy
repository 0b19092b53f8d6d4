/** Steps that change the buffers, the echo slots or the log preserve the invariant. */
module TxBufferSteps {
  import opened Frames
  import opened Rings
  import opened TxRing
  import opened TxWindow
  import opened TxInvariant
  import A = Arbiter
  import P = Priority

  // ------------------------------------------------------------ what is framed

  lemma EchoesSame(c: Config, s: State, t: State)
    requires Sized(c, s) && Sized(c, t) && EchoesOk(c, s)
    requires t.drv.echo == s.drv.echo && |t.log.retired| == |s.log.retired|
    requires Echoed(t) == Echoed(s) && Line(s) <= Line(t)
    ensures EchoesOk(c, t)
  {
  }

  lemma BuffersSame(c: Config, s: State, t: State)
    requires Sized(c, s) && Sized(c, t) && BuffersOk(c, s)
    requires t.core.slots == s.core.slots && t.core.sel == s.core.sel
    requires Span(t) == Span(s) && Emptied(t) == Emptied(s) && Line(t) == Line(s)
    ensures BuffersOk(c, t)
  {
  }

  lemma WireSame(c: Config, s: State, t: State)
    requires Bounds(c, s) && Bounds(c, t) && WireOk(c, s)
    requires t.log.wire == s.log.wire && t.log.retired == s.log.retired
    requires SentIn(Window(c, t), Lead(t), Span(t)) == SentIn(Window(c, s), Lead(s), Span(s))
    ensures WireOk(c, t)
  {
  }

  // --------------------------------------------------------------- start_xmit

  lemma FillBuffers(c: Config, s: State, t: State)
    requires Bounds(c, s) && BuffersOk(c, s) && s.x.XWritable? && Span(s) < c.n
    requires var id := Idx(c.n, |s.log.sent|);
             t == s.(x := XFilled(s.x.frame),
                     core := s.core.(slots := s.core.slots[id := s.core.slots[id].(frame := s.x.frame)]))
    ensures Bounds(c, t) && BuffersOk(c, t)
    ensures Window(c, t) == Window(c, s)[Span(s) := Window(c, s)[Span(s)].(frame := s.x.frame)]
  {
    hide Occupied, Holds, Ordered, Latched;
    var v, m, base, f := Window(c, s), Span(s), Emptied(s), s.x.frame;
    ViewAt(s.core.slots, base, m);
    ViewUpdate(s.core.slots, base, m, v[m].(frame := f));
    FillKeeps(v, m, Line(s), base, s.core.sel, f);
  }

  lemma FillWire(c: Config, s: State, t: State)
    requires Bounds(c, s) && Bounds(c, t) && WireOk(c, s) && s.x.XWritable? && Span(s) < c.n
    requires t.x == XFilled(s.x.frame) && t.i == s.i && t.log == s.log
    requires Window(c, t) == Window(c, s)[Span(s) := Window(c, s)[Span(s)].(frame := s.x.frame)]
    ensures WireOk(c, t)
  {
    SentInSame(Window(c, s), Window(c, t), Lead(s), Span(s));
  }

  lemma FillControl(c: Config, s: State, t: State)
    requires Bounds(c, s) && Bounds(c, t) && Control(c, s) && s.x.XWritable?
    requires t.x == XFilled(s.x.frame) && t.i == s.i && t.drv == s.drv && t.log == s.log
    requires t.core.txbhci == s.core.txbhci
    requires Window(c, t) == Window(c, s)[Span(s) := Window(c, s)[Span(s)].(frame := s.x.frame)]
    ensures Control(c, t)
  {
  }

  lemma EchoEchoes(c: Config, s: State, t: State)
    requires Bounds(c, s) && EchoesOk(c, s) && s.x.XFilled? && Span(s) < c.n
    requires t == s.(x := XEchoed(s.x.frame),
                     drv := s.drv.(echo := s.drv.echo[Idx(c.n, |s.log.sent|) := Some(s.x.frame)]))
    ensures s.drv.echo[Idx(c.n, |s.log.sent|)].None?
    ensures Bounds(c, t) && EchoesOk(c, t)
  {
    var r := |s.log.retired|;
    var m := |s.log.sent| - r;
    ViewAt(s.drv.echo, r, m);
    ViewUpdate(s.drv.echo, r, m, Some(s.x.frame));
    EchoPut(View(s.drv.echo, r), m, Line(s), r);
  }

  lemma EchoControl(c: Config, s: State, t: State)
    requires Bounds(c, s) && Bounds(c, t) && Control(c, s) && s.x.XFilled?
    requires t.x == XEchoed(s.x.frame) && t.i == s.i && t.core == s.core && t.log == s.log
    requires t.drv.(echo := []) == s.drv.(echo := [])
    ensures Control(c, t)
  {
  }

  lemma ReadyBuffers(c: Config, s: State, t: State)
    requires Bounds(c, s) && BuffersOk(c, s) && Filled(c, s) && s.x.XLocked?
    requires var id := Idx(c.n, |s.log.sent|);
             t == s.(x := XReadied(s.x.frame), core := SetStatus(s.core, id, SetReady(s.core.slots[id].status)))
    ensures Bounds(c, t) && BuffersOk(c, t)
    ensures Window(c, t) == Window(c, s)[Span(s) := Window(c, s)[Span(s)].(status := Ready)]
  {
    hide Holds, Ordered, Latched;
    var v, m, base := Window(c, s), Span(s), Emptied(s);
    ViewAt(s.core.slots, base, m);
    ViewUpdate(s.core.slots, base, m, v[m].(status := Ready));
    ReadyKeeps(v, m, Line(s), base, s.core.sel);
  }

  lemma ReadyWire(c: Config, s: State, t: State)
    requires Bounds(c, s) && Bounds(c, t) && WireOk(c, s) && s.x.XLocked? && Span(s) < c.n
    requires t.x == XReadied(s.x.frame) && t.i == s.i && t.log == s.log
    requires Window(c, t) == Window(c, s)[Span(s) := Window(c, s)[Span(s)].(status := Ready)]
    ensures WireOk(c, t)
  {
    SentInSame(Window(c, s), Window(c, t), Lead(s), Span(s));
  }

  lemma ReadyControl(c: Config, s: State, t: State)
    requires Bounds(c, s) && Bounds(c, t) && Control(c, s) && s.x.XLocked?
    requires t.x == XReadied(s.x.frame) && t.i == s.i && t.drv == s.drv && t.log == s.log
    requires t.core.txbhci == s.core.txbhci
    requires Window(c, t) == Window(c, s)[Span(s) := Window(c, s)[Span(s)].(status := Ready)]
    ensures Control(c, t)
  {
  }

  lemma CountControl(c: Config, s: State, t: State)
    requires Bounds(c, s) && Bounds(c, t) && Control(c, s) && s.x.XReadied?
    requires t == s.(x := XCounted, drv := s.drv.(head := Wrap(c, s.drv.head + 1)),
                     log := s.log.(sent := s.log.sent + [s.x.frame]))
    ensures Control(c, t)
  {
    WrapSucc(c, |s.log.sent|);
  }

  // -------------------------------------------------------------- the handler

  lemma ScanIrq(c: Config, s: State, t: State)
    requires Bounds(c, s) && IrqOk(c, s) && InterruptOk(c, s) && s.i.IScan?
    requires t == if |s.log.sent| > |s.log.retired|
                  then var id := Idx(c.n, |s.log.retired|);
                       s.(i := ISwitch(s.i.first, s.i.some, id, ReadStatus(s.core.slots[id].status)))
                  else s.(i := IUnlock(s.i.first, s.i.some))
    requires s.x.XReadied? ==> s.drv.lock.ByXmit?
    ensures IrqOk(c, t) && InterruptOk(c, t)
  {
    ViewAt(s.core.slots, Emptied(s), 0);
  }

  lemma ScanControl(c: Config, s: State, t: State)
    requires ValidConfig(c) && Bounds(c, s) && Control(c, s) && s.i.IScan?
    requires t == if |s.log.sent| > |s.log.retired|
                  then var id := Idx(c.n, |s.log.retired|);
                       s.(i := ISwitch(s.i.first, s.i.some, id, ReadStatus(s.core.slots[id].status)))
                  else s.(i := IUnlock(s.i.first, s.i.some))
    ensures Control(c, t)
  {
    hide IrqOk, InterruptOk;
    ScanIrq(c, s, t);
  }

  /** The "not in a finished state" branch is never taken on the first buffer. */
  lemma SwitchControl(c: Config, s: State, t: State)
    requires Bounds(c, s) && Control(c, s) && s.i.ISwitch? && !DoneCode(s.i.code)
    requires t == s.(i := IUnlock(s.i.first, s.i.some))
    ensures !s.i.first && Control(c, t)
  {
  }

  lemma RetireEchoes(c: Config, s: State, t: State)
    requires Bounds(c, s) && EchoesOk(c, s) && s.i.ISwitch? && |s.log.retired| < |s.log.sent|
    requires t.drv.echo == s.drv.echo[Idx(c.n, |s.log.retired|) := None] && t.x == s.x
    requires |t.log.retired| == |s.log.retired| + 1 && t.log.sent == s.log.sent
    ensures s.drv.echo[Idx(c.n, |s.log.retired|)] == Some(s.log.sent[|s.log.retired|])
    ensures |t.drv.echo| == c.n
    ensures Echoes(View(t.drv.echo, |t.log.retired|), Echoed(t) - |t.log.retired|, Line(t), |t.log.retired|)
  {
    var r := |s.log.retired|;
    ViewAt(s.drv.echo, r, 0);
    ViewUpdate(s.drv.echo, r, 0, None);
    ViewStep(t.drv.echo, r);
    EchoTake(View(s.drv.echo, r), Echoed(s) - r, Line(s), r);
  }

  lemma RetireLedger(log: Log, log': Log, ok: bool)
    requires Ledger(log) && |log.retired| < |log.sent|
    requires log' == log.(packets := if ok then log.packets + 1 else log.packets,
                          drops := if ok then log.drops else log.drops + 1,
                          retired := log.retired + [Outcome(log.sent[|log.retired|], ok)])
    ensures Ledger(log')
    ensures OkFrames(log'.retired) == OkFrames(log.retired) + if ok then [log.sent[|log.retired|]] else []
  {
    assert log'.retired[..|log'.retired| - 1] == log.retired;
  }

  lemma RetireBounds(c: Config, s: State, t: State)
    requires Bounds(c, s) && s.i.ISwitch? && |s.log.retired| < |s.log.sent|
    requires t.log.sent == s.log.sent && |t.log.retired| == |s.log.retired| + 1
    requires t.core == s.core && t.x == s.x && t.i.IAdvance? && |t.drv.echo| == c.n
    ensures Bounds(c, t) && Span(t) == Span(s) && Emptied(t) == Emptied(s)
    ensures Line(t) == Line(s) && Lead(t) == Lead(s) + 1
  {
  }

  lemma RetireWire(log: Log, log': Log, v: seq<Slot>, m: nat, ok: bool)
    requires WireIs(log, v, 0, m) && m > 0 && log'.wire == log.wire
    requires ok == v[0].status.Sent?
    requires OkFrames(log'.retired) == OkFrames(log.retired) + if ok then [v[0].frame] else []
    requires SentIn(v, 0, m) == (if v[0].status.Sent? then [v[0].frame] else []) + SentIn(v, 1, m)
    ensures WireIs(log', v, 1, m)
  {
  }

  lemma RetireControl(c: Config, s: State, t: State)
    requires Bounds(c, s) && Bounds(c, t) && Control(c, s) && s.i.ISwitch? && DoneCode(s.i.code)
    requires t.i == IAdvance(s.i.id) && t.x == s.x && t.core == s.core
    requires t.drv.(echo := []) == s.drv.(echo := [])
    requires t.log.sent == s.log.sent && |t.log.retired| == |s.log.retired| + 1
    ensures Control(c, t)
  {
  }

  lemma RotateRotation(c: Config, s: State, t: State)
    requires Bounds(c, s) && Rotation(c, s) && s.i.IRotate? && t.i.IFree? && t.log == s.log
    requires t.drv.prio == t.core.prio == P.Rotate(s.drv.prio, c.n) && |t.core.slots| == c.n && |t.drv.echo| == c.n
    ensures Rotation(c, t)
  {
  }

  /** The window moves on by one buffer. */
  lemma FreeWindow(c: Config, s: State, t: State)
    requires Bounds(c, s) && s.i.IFree? && s.i.id == Idx(c.n, Emptied(s)) && Finished(Window(c, s)[0].status)
    requires t == s.(i := IScan(false, true), core := SetStatus(s.core, s.i.id, SetEmpty(s.core.slots[s.i.id].status)))
    ensures Bounds(c, t) && Span(t) == Span(s) - 1 && Line(t) == Line(s) && Emptied(t) == Emptied(s) + 1
    ensures Window(c, t) == Window(c, s)[1..] + [Window(c, s)[0].(status := Empty)]
  {
    var v, base := Window(c, s), Emptied(s);
    ViewAt(s.core.slots, base, 0);
    ViewUpdate(s.core.slots, base, 0, v[0].(status := Empty));
    ViewStep(t.core.slots, base);
  }

  lemma FreeBuffers(c: Config, s: State, t: State)
    requires Bounds(c, s) && BuffersOk(c, s) && s.i.IFree?
    requires s.i.id == Idx(c.n, Emptied(s)) && Finished(Window(c, s)[0].status)
    requires t == s.(i := IScan(false, true), core := SetStatus(s.core, s.i.id, SetEmpty(s.core.slots[s.i.id].status)))
    ensures Bounds(c, t) && BuffersOk(c, t)
    ensures Window(c, t) == Window(c, s)[1..] + [Window(c, s)[0].(status := Empty)]
  {
    hide WindowInv;
    FreeWindow(c, s, t);
    FreeKeeps(Window(c, s), Span(s), Line(s), Emptied(s), s.core.sel);
  }

  lemma FreeWire(c: Config, s: State, t: State)
    requires Bounds(c, s) && Bounds(c, t) && WireOk(c, s) && s.i.IFree? && t.i == IScan(false, true)
    requires t.x == s.x && t.log == s.log
    requires Window(c, t) == Window(c, s)[1..] + [Window(c, s)[0].(status := Empty)]
    ensures WireOk(c, t)
  {
    SentInShift(Window(c, s), Window(c, t), 0, Span(s));
  }

  lemma FreeControl(c: Config, s: State, t: State)
    requires Bounds(c, s) && Bounds(c, t) && Control(c, s) && s.i.IFree? && t.i == IScan(false, true)
    requires t.x == s.x && t.drv == s.drv && t.log == s.log
    requires Window(c, t) == Window(c, s)[1..] + [Window(c, s)[0].(status := Empty)]
    ensures Control(c, t)
  {
  }

  // --------------------------------------------------------------- the hardware

  lemma SelectBuffers(c: Config, s: State, t: State)
    requires Bounds(c, s) && BuffersOk(c, s) && Rotation(c, s)
    requires Retiring(s.i) ==> Finished(Window(c, s)[0].status)
    requires forall k | 0 <= k < c.n :: !s.core.slots[k].status.Transmitting?
    requires t == s.(core := s.core.(sel := t.core.sel)) && Picks(s.core.slots, s.core.prio, t.core.sel)
    ensures Bounds(c, t) && BuffersOk(c, t)
  {
    hide WindowInv, Falling, Picks;
    RotatedFalls(c.n, Rotations(s));
    SelectKeeps(s.core.slots, Span(s), Line(s), Emptied(s), s.core.sel, s.core.prio, Rotations(s), t.core.sel);
  }

  /** The selected buffer sits in the window as the oldest unfinished one. */
  lemma SelectedAt(c: Config, s: State, st: Status) returns (k: nat)
    requires Bounds(c, s) && BuffersOk(c, s) && Selected(s.core, st)
    ensures k < c.n && Oldest(Window(c, s), Span(s), k) && s.core.sel == A.Buffer(Idx(c.n, Emptied(s) + k))
    ensures Window(c, s)[k] == s.core.slots[s.core.sel.index]
  {
    k :| Oldest(Window(c, s), Span(s), k) && s.core.sel.index == Idx(c.n, Emptied(s) + k);
    ViewAt(s.core.slots, Emptied(s), k);
  }

  /** A change of one buffer's state changes no frame number. */
  lemma OldestWindow(c: Config, s: State, t: State, k: nat, st: Status)
    requires Bounds(c, s) && k < c.n && s.core.sel == A.Buffer(Idx(c.n, Emptied(s) + k))
    requires t.x == s.x && t.i == s.i && t.drv == s.drv
    requires t.log.sent == s.log.sent && t.log.retired == s.log.retired
    requires t.core.slots == SetStatus(s.core, s.core.sel.index, st).slots
    ensures Bounds(c, t) && Span(t) == Span(s) && Line(t) == Line(s) && Emptied(t) == Emptied(s)
    ensures Window(c, t) == Window(c, s)[k := Window(c, s)[k].(status := st)]
  {
    ViewAt(s.core.slots, Emptied(s), k);
    ViewUpdate(s.core.slots, Emptied(s), k, Window(c, s)[k].(status := st));
  }

  lemma OldestBuffers(c: Config, s: State, t: State, k: nat, st: Status)
    requires Bounds(c, s) && BuffersOk(c, s)
    requires k < c.n && Oldest(Window(c, s), Span(s), k) && s.core.sel == A.Buffer(Idx(c.n, Emptied(s) + k))
    requires t.x == s.x && t.i == s.i && t.drv == s.drv && !st.Empty?
    requires t.log.sent == s.log.sent && t.log.retired == s.log.retired
    requires t.core.slots == SetStatus(s.core, s.core.sel.index, st).slots
    requires t.core.sel == if st.Transmitting? then s.core.sel else A.NoBuffer
    ensures Bounds(c, t) && BuffersOk(c, t)
    ensures Window(c, t) == Window(c, s)[k := Window(c, s)[k].(status := st)]
  {
    hide WindowInv, Oldest;
    OldestWindow(c, s, t, k, st);
    OldestKeeps(Window(c, s), Span(s), Line(s), Emptied(s), s.core.sel, k, st);
  }

  lemma UnsentWire(c: Config, s: State, t: State, k: nat, st: Status)
    requires Bounds(c, s) && Bounds(c, t) && WireOk(c, s)
    requires Oldest(Window(c, s), Span(s), k) && !st.Sent?
    requires t.x == s.x && t.i == s.i && t.log == s.log
    requires Window(c, t) == Window(c, s)[k := Window(c, s)[k].(status := st)]
    ensures WireOk(c, t)
  {
    SentInSame(Window(c, s), Window(c, t), Lead(s), Span(s));
  }

  lemma SentWireOk(c: Config, s: State, t: State, k: nat)
    requires Bounds(c, s) && Bounds(c, t) && WireOk(c, s)
    requires Ordered(Window(c, s), Span(s)) && Oldest(Window(c, s), Span(s), k) && Lead(s) <= k
    requires t.x == s.x && t.i == s.i
    requires t.log == s.log.(wire := s.log.wire + [Window(c, s)[k].frame])
    requires Window(c, t) == Window(c, s)[k := Window(c, s)[k].(status := Sent)]
    ensures WireOk(c, t)
  {
    var v := Window(c, s);
    assert forall j | k < j < Span(s) :: v[j].status.Ready?;
    SentInFinish(v, Lead(s), k, Span(s), Sent);
    SentWire(s.log, t.log, v, Window(c, t), Lead(s), Span(s), v[k].frame);
  }

  lemma SentWire(log: Log, log': Log, v: seq<Slot>, v': seq<Slot>, lo: nat, hi: nat, f: Frame)
    requires WireIs(log, v, lo, hi) && |v'| == |v|
    requires log'.retired == log.retired && log'.wire == log.wire + [f]
    requires SentIn(v', lo, hi) == SentIn(v, lo, hi) + [f]
    ensures WireIs(log', v', lo, hi)
  {
  }

  /** Lock and retry do not touch a finished buffer and finish none. */
  lemma UnfinishedControl(c: Config, s: State, t: State, k: nat, st: Status)
    requires Bounds(c, s) && Bounds(c, t) && Control(c, s)
    requires Oldest(Window(c, s), Span(s), k) && !Finished(st)
    requires t.x == s.x && t.i == s.i && t.drv == s.drv && t.log == s.log && t.core.txbhci == s.core.txbhci
    requires Window(c, t) == Window(c, s)[k := Window(c, s)[k].(status := st)]
    ensures Control(c, t)
  {
  }

  /** A finish makes the oldest frame in flight finished, so raising TXBHCI is right. */
  lemma FinishControl(c: Config, s: State, t: State, k: nat, st: Status)
    requires Bounds(c, s) && Bounds(c, t) && Control(c, s)
    requires Oldest(Window(c, s), Span(s), k) && Finished(st)
    requires t.x == s.x && t.i == s.i && t.drv == s.drv && t.core.txbhci
    requires t.log.sent == s.log.sent && t.log.retired == s.log.retired
    requires Window(c, t) == Window(c, s)[k := Window(c, s)[k].(status := st)]
    ensures Control(c, t)
  {
    assert Lead(s) <= k;
  }

  lemma BusOffView(slots: seq<Slot>, base: nat)
    requires |slots| > 0
    ensures View(FailOnBusOff(slots), base) == FailOnBusOff(View(slots, base))
  {
    forall k | 0 <= k < |slots|
      ensures View(FailOnBusOff(slots), base)[k] == FailOnBusOff(View(slots, base))[k]
    {
      ViewAt(slots, base, k);
      ViewAt(FailOnBusOff(slots), base, k);
    }
  }

  lemma BusOffBuffers(c: Config, s: State, t: State)
    requires Bounds(c, s) && BuffersOk(c, s)
    requires t == s.(core := s.core.(slots := FailOnBusOff(s.core.slots), sel := A.NoBuffer, txbhci := t.core.txbhci))
    ensures Bounds(c, t) && BuffersOk(c, t)
    ensures Window(c, t) == FailOnBusOff(Window(c, s))
  {
    BusOffView(s.core.slots, Emptied(s));
    BusOffKeeps(Window(c, s), Span(s), Line(s), Emptied(s), s.core.sel);
  }

  lemma BusOffWire(c: Config, s: State, t: State)
    requires Bounds(c, s) && Bounds(c, t) && WireOk(c, s)
    requires t.x == s.x && t.i == s.i && t.log == s.log && Window(c, t) == FailOnBusOff(Window(c, s))
    ensures WireOk(c, t)
  {
    SentInSame(Window(c, s), Window(c, t), Lead(s), Span(s));
  }

  /** Bus-off changes a buffer only if one in flight had not finished; all have then. */
  lemma BusOffHead(c: Config, s: State, t: State)
    requires Bounds(c, s) && Bounds(c, t) && Occupied(Window(c, s), Span(s))
    requires Retiring(s.i) ==> Finished(Window(c, s)[0].status)
    requires t.x == s.x && t.i == s.i && t.log == s.log
    requires t.core.slots == FailOnBusOff(s.core.slots) && Window(c, t) == FailOnBusOff(Window(c, s))
    requires t.core.slots != s.core.slots
    ensures HeadFinished(Window(c, t), Span(t), Lead(t))
  {
    var v := Window(c, s);
    var i :| 0 <= i < c.n && t.core.slots[i] != s.core.slots[i];
    var k := IndexOf(c.n, Emptied(s), i);
    ViewAt(s.core.slots, Emptied(s), k);
    assert Lead(s) <= k < Span(s);
    assert !v[Lead(s)].status.Empty?;
  }

  lemma BusOffControl(c: Config, s: State, t: State)
    requires Bounds(c, s) && Bounds(c, t) && Control(c, s)
    requires t.x == s.x && t.i == s.i && t.drv == s.drv && t.log == s.log
    requires Window(c, t) == FailOnBusOff(Window(c, s))
    requires HeadFinished(Window(c, t), Span(t), Lead(t)) && t.core.txbhci
    ensures Control(c, t)
  {
  }
}

