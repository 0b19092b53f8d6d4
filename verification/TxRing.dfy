/** The transmit path as a step system: `ctucan_start_xmit`, `ctucan_tx_interrupt` and
    the TXT buffer hardware, interleaved step by step in any order. */
module TxRing {
  import opened Frames
  import P = Priority
  import A = Arbiter

  // ---------------------------------------------------------------- hardware view

  /** State of one TXT buffer. */
  datatype Status = Empty | Ready | Transmitting | Sent | Failed | Aborted

  predicate Finished(st: Status) {
    st.Sent? || st.Failed? || st.Aborted?
  }

  /** The code of a state in its TX_STATUS nibble. */
  function Code(st: Status): nat {
    match st
    case Ready => 0x1
    case Transmitting => 0x2
    case Sent => 0x4
    case Failed => 0x6
    case Aborted => 0x7
    case Empty => 0x8
  }

  /** What `ctucan_get_tx_status` returns: only three bits of the nibble survive. */
  function ReadStatus(st: Status): nat {
    Code(st) % 8
  }

  datatype Slot = Slot(status: Status, frame: Frame)

  // ------------------------------------------------------------------ driver view

  datatype Owner = Free | ByXmit | ByIrq

  /** Where a call of `ctucan_start_xmit` stands. */
  datatype XmitPc =
    | XIdle
    | XChecked(frame: Frame)   // TXNF was read as set
    | XWritable(frame: Frame)  // the buffer state and the length were accepted
    | XFilled(frame: Frame)    // the buffer holds the frame
    | XEchoed(frame: Frame)    // the echo slot holds the frame
    | XLocked(frame: Frame)    // tx_lock is held
    | XReadied(frame: Frame)   // SET_READY was given
    | XCounted                 // txb_head was incremented

  /** Where `ctucan_tx_interrupt` stands; `id` and `code` are its locals `txtb_id` and
      `txtb_status`, `first` and `some` its flags. */
  datatype IrqPc =
    | IIdle
    | IEnter(first: bool)                                       // top of the outer loop
    | IScan(first: bool, some: bool)                            // inner loop condition
    | ISwitch(first: bool, some: bool, id: nat, code: nat)      // status was read
    | IAdvance(id: nat)                                         // echo handled, txb_tail++ is next
    | IRotate(id: nat)                                          // rotation is next
    | IFree(id: nat)                                            // SET_EMPTY is next
    | IUnlock(first: bool, some: bool)                          // label `clear`
    | IClear(first: bool, some: bool)                           // lock released
    | IWake                                                     // before the final wake check

  /** Branches the source reports as bugs, and misuse of the echo slots. */
  datatype Bug = NoBufferFree | CannotInsert | EchoOccupied | EchoMissing | NotFinished

  datatype Outcome = Outcome(frame: Frame, ok: bool)

  /** `n` is priv->ntxbufs, which is taken to be the number of buffers of the core; `bounded`
      selects 32-bit counters, its negation ideal ones. */
  datatype Config = Config(n: nat, bounded: bool)

  ghost predicate ValidConfig(c: Config) {
    && 1 <= c.n <= 8
    && (c.bounded ==> P.WORD % c.n == 0)
  }

  /** The driver's own fields; `stopped` is the flag of the netdev queue. */
  datatype Driver = Driver(head: nat, tail: nat, prio: nat, stopped: bool, lock: Owner, echo: seq<Option<Frame>>)

  /** The TXT buffers, TX_PRIORITY, the buffer latched by the arbiter, and TXBHCI. */
  datatype Core = Core(slots: seq<Slot>, prio: nat, sel: A.Selection, txbhci: bool)

  /** What happened so far: frames accepted, in order of txb_head++; frames the handler
      finished with, in order; frames transmitted successfully, in order; statistics; frames
      that could not be inserted; and the bug reports. */
  datatype Log = Log(sent: seq<Frame>, retired: seq<Outcome>, wire: seq<Frame>,
                     packets: nat, drops: nat, refused: seq<Frame>, bugs: set<Bug>)

  datatype State = State(drv: Driver, core: Core, log: Log, x: XmitPc, i: IrqPc)

  function Wrap(c: Config, k: nat): nat {
    if c.bounded then k % P.WORD else k
  }

  /** The loop condition `(int)(txb_head - txb_tail) > 0`. */
  predicate Pending(c: Config, head: nat, tail: nat) {
    if c.bounded then 0 < (head - tail) % P.WORD < 0x8000_0000 else head > tail
  }

  /** STATUS[TXNF]: at least one buffer of the core is empty. */
  predicate Txnf(core: Core) {
    exists k | 0 <= k < |core.slots| :: core.slots[k].status.Empty?
  }

  predicate Sized(c: Config, s: State) {
    1 <= c.n <= 8 && |s.core.slots| == c.n && |s.drv.echo| == c.n
  }

  function ReadyMask(slots: seq<Slot>): (r: seq<bool>)
    ensures |r| == |slots|
  {
    seq(|slots|, k requires 0 <= k < |slots| => slots[k].status.Ready?)
  }

  function Priorities(prio: nat, n: nat): (r: seq<nat>)
    ensures |r| == n
  {
    seq(n, k requires 0 <= k => P.Prio(prio, k))
  }

  /** SET_READY and SET_EMPTY, which the buffer ignores in every other state. */
  function SetReady(st: Status): Status {
    if st.Empty? || Finished(st) then Ready else st
  }

  function SetEmpty(st: Status): Status {
    if Finished(st) then Empty else st
  }

  function FailOnBusOff(slots: seq<Slot>): (r: seq<Slot>)
    ensures |r| == |slots|
  {
    seq(|slots|, k requires 0 <= k < |slots| =>
      if slots[k].status.Ready? || slots[k].status.Transmitting? then slots[k].(status := Failed) else slots[k])
  }

  // ------------------------------------------------------------------------ steps

  datatype XmitStep =
    | XmitCheck(frame: Frame) | XmitStatus | XmitFill | XmitEcho | XmitLock | XmitReady | XmitCount | XmitRelease

  datatype IrqStep =
    | IrqEnter | IrqLock | IrqScan | IrqSwitch | IrqAdvance | IrqRotate | IrqFree | IrqUnlock | IrqClear | IrqWake

  datatype HwStep =
    | HwSelect | HwLock | HwFinish(outcome: Status) | HwRetry | HwBusOff

  datatype Step = Xmit(xmit: XmitStep) | Irq(irq: IrqStep) | Hw(hw: HwStep)

  /** The kernel calls start_xmit one call at a time and only while the queue is awake. */
  predicate XmitEnabled(s: State, step: XmitStep) {
    match step
    case XmitCheck(_) => s.x.XIdle? && !s.drv.stopped
    case XmitStatus => s.x.XChecked?
    case XmitFill => s.x.XWritable?
    case XmitEcho => s.x.XFilled?
    case XmitLock => s.x.XEchoed? && s.drv.lock.Free?
    case XmitReady => s.x.XLocked?
    case XmitCount => s.x.XReadied?
    case XmitRelease => s.x.XCounted?
  }

  /** The handler runs when TXBHCI is pending and is not re-entered. */
  predicate IrqEnabled(c: Config, s: State, step: IrqStep) {
    match step
    case IrqEnter => s.i.IIdle? && s.core.txbhci
    case IrqLock => s.i.IEnter? && s.drv.lock.Free?
    case IrqScan => s.i.IScan?
    case IrqSwitch => s.i.ISwitch? && s.i.id < c.n
    case IrqAdvance => s.i.IAdvance?
    case IrqRotate => s.i.IRotate?
    case IrqFree => s.i.IFree? && s.i.id < c.n
    case IrqUnlock => s.i.IUnlock?
    case IrqClear => s.i.IClear?
    case IrqWake => s.i.IWake? && s.drv.lock.Free?
  }

  predicate Selected(core: Core, st: Status) {
    core.sel.Buffer? && core.sel.index < |core.slots| && core.slots[core.sel.index].status == st
  }

  /** The arbiter revalidates its choice whenever it is not locked to a transmission; only
      the validated buffer is locked, and only the locked one finishes or retries. */
  predicate HwEnabled(core: Core, step: HwStep) {
    match step
    case HwSelect => forall k | 0 <= k < |core.slots| :: !core.slots[k].status.Transmitting?
    case HwLock => Selected(core, Ready)
    case HwFinish(o) => Selected(core, Transmitting) && Finished(o)
    case HwRetry => Selected(core, Transmitting)
    case HwBusOff => true
  }

  predicate Enabled(c: Config, s: State, step: Step) {
    match step
    case Xmit(x) => XmitEnabled(s, x)
    case Irq(i) => IrqEnabled(c, s, i)
    case Hw(h) => HwEnabled(s.core, h)
  }

  function SetStatus(core: Core, id: nat, st: Status): Core
    requires id < |core.slots|
  {
    core.(slots := core.slots[id := core.slots[id].(status := st)])
  }

  /** A step of `ctucan_start_xmit`; `id` is its local `txtb_id`. */
  function DoXmit(c: Config, s: State, step: XmitStep): (t: State)
    requires Sized(c, s) && XmitEnabled(s, step)
    ensures Sized(c, t)
  {
    var id := s.drv.head % c.n;
    match step
    case XmitCheck(f) =>
      if Txnf(s.core) then s.(x := XChecked(f))
      else s.(drv := s.drv.(stopped := true), log := s.log.(bugs := s.log.bugs + {NoBufferFree}))
    case XmitStatus =>
      var code := ReadStatus(s.core.slots[id].status);
      if code == 0x1 || code == 0x2 || code == 0x3 || s.x.frame.len > CANFD_MAX_DLEN then
        s.(x := XIdle, log := s.log.(refused := s.log.refused + [s.x.frame], bugs := s.log.bugs + {CannotInsert}))
      else
        s.(x := XWritable(s.x.frame))
    case XmitFill =>
      s.(x := XFilled(s.x.frame),
         core := s.core.(slots := s.core.slots[id := s.core.slots[id].(frame := s.x.frame)]))
    case XmitEcho =>
      if s.drv.echo[id].Some? then
        s.(x := XEchoed(s.x.frame), log := s.log.(bugs := s.log.bugs + {EchoOccupied}))
      else
        s.(x := XEchoed(s.x.frame), drv := s.drv.(echo := s.drv.echo[id := Some(s.x.frame)]))
    case XmitLock => s.(x := XLocked(s.x.frame), drv := s.drv.(lock := ByXmit))
    case XmitReady =>
      s.(x := XReadied(s.x.frame), core := SetStatus(s.core, id, SetReady(s.core.slots[id].status)))
    case XmitCount =>
      s.(x := XCounted, drv := s.drv.(head := Wrap(c, s.drv.head + 1)),
         log := s.log.(sent := s.log.sent + [s.x.frame]))
    case XmitRelease =>
      s.(x := XIdle, drv := s.drv.(lock := Free, stopped := s.drv.stopped || !Txnf(s.core)))
  }

  /** A finished buffer: its echo is taken and its outcome counted. */
  function Retire(s: State, id: nat, code: nat): State
    requires id < |s.drv.echo|
  {
    var ok, log := code == 0x4, s.log;
    var log' := log.(packets := if ok then log.packets + 1 else log.packets,
                     drops := if ok then log.drops else log.drops + 1);
    s.(i := IAdvance(id), drv := s.drv.(echo := s.drv.echo[id := None]),
       log := if s.drv.echo[id].Some?
              then log'.(retired := log.retired + [Outcome(s.drv.echo[id].value, ok)])
              else log'.(bugs := log.bugs + {EchoMissing}))
  }

  /** A step of `ctucan_tx_interrupt`. */
  function DoIrq(c: Config, s: State, step: IrqStep): (t: State)
    requires Sized(c, s) && IrqEnabled(c, s, step)
    ensures Sized(c, t)
  {
    match step
    case IrqEnter => s.(i := IEnter(true))
    case IrqLock => s.(i := IScan(s.i.first, false), drv := s.drv.(lock := ByIrq))
    case IrqScan =>
      if Pending(c, s.drv.head, s.drv.tail) then
        var id := s.drv.tail % c.n;
        s.(i := ISwitch(s.i.first, s.i.some, id, ReadStatus(s.core.slots[id].status)))
      else s.(i := IUnlock(s.i.first, s.i.some))
    case IrqSwitch =>
      if s.i.code == 0x4 || s.i.code == 0x6 || s.i.code == 0x7 then Retire(s, s.i.id, s.i.code)
      else if s.i.first then
        s.(i := IIdle, drv := s.drv.(lock := Free), log := s.log.(bugs := s.log.bugs + {NotFinished}))
      else s.(i := IUnlock(s.i.first, s.i.some))
    case IrqAdvance => s.(i := IRotate(s.i.id), drv := s.drv.(tail := Wrap(c, s.drv.tail + 1)))
    case IrqRotate =>
      var p := P.Rotate(s.drv.prio, c.n);
      s.(i := IFree(s.i.id), drv := s.drv.(prio := p), core := s.core.(prio := p))
    case IrqFree =>
      s.(i := IScan(false, true), core := SetStatus(s.core, s.i.id, SetEmpty(s.core.slots[s.i.id].status)))
    case IrqUnlock => s.(i := IClear(s.i.first, s.i.some), drv := s.drv.(lock := Free))
    case IrqClear =>
      if s.i.some then s.(i := IEnter(s.i.first), core := s.core.(txbhci := false)) else s.(i := IWake)
    case IrqWake => s.(i := IIdle, drv := s.drv.(stopped := s.drv.stopped && !Txnf(s.core)))
  }

  /** A step of the hardware. */
  function DoHw(c: Config, s: State, step: HwStep): (t: State)
    requires Sized(c, s) && HwEnabled(s.core, step)
    ensures Sized(c, t)
  {
    var core := s.core;
    match step
    case HwSelect =>
      s.(core := core.(sel := A.Decode(ReadyMask(core.slots), Priorities(core.prio, |core.slots|))))
    case HwLock => s.(core := SetStatus(core, core.sel.index, Transmitting))
    case HwFinish(o) =>
      s.(core := SetStatus(core, core.sel.index, o).(sel := A.NoBuffer, txbhci := true),
         log := if o.Sent? then s.log.(wire := s.log.wire + [core.slots[core.sel.index].frame]) else s.log)
    case HwRetry => s.(core := SetStatus(core, core.sel.index, Ready).(sel := A.NoBuffer))
    case HwBusOff =>
      s.(core := core.(slots := FailOnBusOff(core.slots), sel := A.NoBuffer,
                       txbhci := core.txbhci || FailOnBusOff(core.slots) != core.slots))
  }

  function Do(c: Config, s: State, step: Step): (t: State)
    requires Sized(c, s) && Enabled(c, s, step)
    ensures Sized(c, t)
  {
    match step
    case Xmit(x) => DoXmit(c, s, x)
    case Irq(i) => DoIrq(c, s, i)
    case Hw(h) => DoHw(c, s, h)
  }

  /** The state `ctucan_chip_start` leaves: nothing in flight, whatever the buffers last held. */
  ghost predicate Init(c: Config, s: State) {
    && Sized(c, s)
    && s.drv == Driver(0, 0, P.INITIAL_PRIORITY, false, Free, s.drv.echo)
    && s.core == Core(s.core.slots, P.INITIAL_PRIORITY, A.NoBuffer, false)
    && s.log == Log([], [], [], 0, 0, [], {})
    && s.x.XIdle? && s.i.IIdle?
    && (forall k | 0 <= k < c.n :: s.core.slots[k].status.Empty? && s.drv.echo[k].None?)
  }

  /** The state after a schedule, `None` when the schedule takes a step that is not enabled. */
  function Exec(c: Config, s: State, steps: seq<Step>): (r: Option<State>)
    requires Sized(c, s)
    ensures r.Some? ==> Sized(c, r.value)
    decreases |steps|
  {
    if steps == [] then Some(s)
    else if Enabled(c, s, steps[0]) then Exec(c, Do(c, s, steps[0]), steps[1..])
    else None
  }
}
