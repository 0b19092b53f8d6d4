/** What every step of the transmit system keeps. Frames are numbered in submission
    order and the buffers are read as a window that starts at the oldest one in use. */
module TxInvariant {
  import opened Frames
  import opened Rings
  import opened TxRing
  import opened TxWindow
  import P = Priority

  // ------------------------------------------------------------- frame numbers

  predicate Retiring(i: IrqPc) {
    i.IAdvance? || i.IRotate? || i.IFree?
  }

  /** Frames counted by txb_tail, rotated out, and set empty. */
  function TailCount(s: State): nat {
    if s.i.IAdvance? && |s.log.retired| > 0 then |s.log.retired| - 1 else |s.log.retired|
  }

  function Rotations(s: State): nat {
    if (s.i.IAdvance? || s.i.IRotate?) && |s.log.retired| > 0 then |s.log.retired| - 1 else |s.log.retired|
  }

  function Emptied(s: State): nat {
    if Retiring(s.i) && |s.log.retired| > 0 then |s.log.retired| - 1 else |s.log.retired|
  }

  /** All accepted frames and the one start_xmit has put into a buffer. */
  function Line(s: State): seq<Frame> {
    if s.x.XFilled? || s.x.XEchoed? || s.x.XLocked? || s.x.XReadied? then s.log.sent + [s.x.frame] else s.log.sent
  }

  /** Frames given SET_READY, and frames with an echo. */
  function Readied(s: State): nat {
    if s.x.XReadied? then |s.log.sent| + 1 else |s.log.sent|
  }

  function Echoed(s: State): nat {
    if s.x.XEchoed? || s.x.XLocked? || s.x.XReadied? then |s.log.sent| + 1 else |s.log.sent|
  }

  function OkFrames(o: seq<Outcome>): seq<Frame> {
    if o == [] then []
    else OkFrames(o[..|o| - 1]) + (if o[|o| - 1].ok then [o[|o| - 1].frame] else [])
  }

  /** The wire saw exactly the frames retired as successful and then those still in flight
      that were sent. */
  ghost predicate WireIs(log: Log, v: seq<Slot>, lo: int, hi: int) {
    0 <= lo <= hi <= |v| && log.wire == OkFrames(log.retired) + SentIn(v, lo, hi)
  }

  // ------------------------------------------------------------ the invariant

  ghost predicate Bounds(c: Config, s: State) {
    && Sized(c, s)
    && (Retiring(s.i) ==> |s.log.retired| > 0)
    && |s.log.retired| <= |s.log.sent|
    && Readied(s) <= Emptied(s) + c.n
  }

  function Window(c: Config, s: State): seq<Slot>
    requires Sized(c, s)
  {
    View(s.core.slots, Emptied(s))
  }

  function Span(s: State): int {
    Readied(s) - Emptied(s)
  }

  function Lead(s: State): int {
    |s.log.retired| - Emptied(s)
  }

  /** start_xmit has seen a free buffer and has not yet used it. */
  ghost predicate InXmit(x: XmitPc) {
    x.XChecked? || x.XWritable? || x.XFilled? || x.XEchoed? || x.XLocked?
  }

  ghost predicate XmitOk(c: Config, s: State) {
    && (!s.x.XIdle? ==> !s.drv.stopped)
    && (InXmit(s.x) || (s.x.XIdle? && !s.drv.stopped) ==> Span(s) < c.n)
    && (s.drv.lock.ByXmit? <==> s.x.XLocked? || s.x.XReadied? || s.x.XCounted?)
  }

  /** Between fill and SET_READY the next buffer already holds the frame. */
  ghost predicate Filled(c: Config, s: State)
    requires Sized(c, s)
  {
    s.x.XFilled? || s.x.XEchoed? || s.x.XLocked? ==>
      0 <= Span(s) < c.n && Window(c, s)[Span(s)].frame == s.x.frame
  }

  /** The handler has set a buffer empty and has not yet made its wake check. */
  ghost predicate WillWake(i: IrqPc) {
    match i
    case IEnter(first) => !first
    case IScan(first, _) => !first
    case ISwitch(first, _, _, _) => !first
    case IUnlock(first, _) => !first
    case IClear(first, _) => !first
    case IIdle => false
    case _ => true
  }

  ghost predicate IrqHoldsLock(i: IrqPc) {
    i.IScan? || i.ISwitch? || i.IUnlock? || Retiring(i)
  }

  predicate DoneCode(code: nat) {
    code == 0x4 || code == 0x6 || code == 0x7
  }

  ghost predicate IrqOk(c: Config, s: State)
    requires Sized(c, s)
  {
    && (s.drv.lock.ByIrq? <==> IrqHoldsLock(s.i))
    && (Retiring(s.i) ==> s.i.id == Idx(c.n, Emptied(s)) && Finished(Window(c, s)[0].status))
    && (s.i.ISwitch? ==>
          && |s.log.retired| < |s.log.sent| && s.i.id == Idx(c.n, |s.log.retired|)
          && (DoneCode(s.i.code) ==> s.i.code == Code(Window(c, s)[0].status)))
    && (s.drv.stopped ==> Span(s) == c.n || WillWake(s.i))
  }

  /** TXBHCI against the oldest frame in flight, by phase of the handler. */
  ghost predicate Interrupt(i: IrqPc, txbhci: bool, headDone: bool) {
    match i
    case IIdle => txbhci <==> headDone
    case IWake => txbhci <==> headDone
    case IEnter(first) => if first then txbhci && headDone else txbhci ==> headDone
    case IScan(first, some) =>
      if some then !first
      else if first then txbhci && headDone else txbhci ==> headDone
    case ISwitch(first, some, _, code) =>
      if some then !first
      else if first then txbhci && headDone && DoneCode(code)
      else DoneCode(code) || (txbhci <==> headDone)
    case IUnlock(first, some) => !first && (some || (txbhci <==> headDone))
    case IClear(first, some) => !first && (some || (txbhci <==> headDone))
    case _ => true
  }

  ghost predicate Ledger(log: Log) {
    && |log.retired| <= |log.sent|
    && (forall k | 0 <= k < |log.retired| :: log.retired[k].frame == log.sent[k])
    && log.packets == |OkFrames(log.retired)|
    && log.packets + log.drops == |log.retired|
    && Refusals(log)
  }

  /** Only frames that are too long are refused, and only a refusal is reported as a bug. */
  ghost predicate Refusals(log: Log) {
    && (forall k | 0 <= k < |log.refused| :: log.refused[k].len > CANFD_MAX_DLEN)
    && log.bugs == if log.refused == [] then {} else {CannotInsert}
  }

  ghost predicate Counters(c: Config, s: State) {
    && s.drv.head == Wrap(c, |s.log.sent|)
    && s.drv.tail == Wrap(c, TailCount(s))
  }

  ghost predicate Rotation(c: Config, s: State)
    requires Sized(c, s)
  {
    s.drv.prio == s.core.prio == P.Rotated(c.n, Rotations(s))
  }

  ghost predicate BuffersOk(c: Config, s: State)
    requires Sized(c, s)
  {
    WindowInv(Window(c, s), Span(s), Line(s), Emptied(s), s.core.sel)
  }

  ghost predicate EchoesOk(c: Config, s: State)
    requires Sized(c, s)
  {
    Echoes(View(s.drv.echo, |s.log.retired|), Echoed(s) - |s.log.retired|, Line(s), |s.log.retired|)
  }

  ghost predicate InterruptOk(c: Config, s: State)
    requires Sized(c, s)
  {
    Interrupt(s.i, s.core.txbhci, HeadFinished(Window(c, s), Span(s), Lead(s)))
  }

  ghost predicate WireOk(c: Config, s: State)
    requires Sized(c, s)
  {
    WireIs(s.log, Window(c, s), Lead(s), Span(s))
  }

  ghost predicate Data(c: Config, s: State)
    requires Sized(c, s)
  {
    BuffersOk(c, s) && EchoesOk(c, s) && Ledger(s.log) && WireOk(c, s)
  }

  ghost predicate Control(c: Config, s: State)
    requires Sized(c, s)
  {
    Counters(c, s) && XmitOk(c, s) && Filled(c, s) && IrqOk(c, s) && InterruptOk(c, s)
  }

  ghost predicate Inv(c: Config, s: State) {
    Bounds(c, s) && Data(c, s) && Control(c, s) && Rotation(c, s)
  }

  // ------------------------------------------------------------ 32-bit counters

  lemma ModOfMod(k: nat, m: nat, n: nat)
    requires m > 0 && n > 0 && m % n == 0
    ensures k % m % n == k % n
  {
    var d, e, j := m / n, k / m, k % m / n;
    assert k == e * (d * n) + (j * n + k % m % n);
    assert e * (d * n) == (e * d) * n;
    assert k == (e * d + j) * n + k % m % n;
    P.DivModUnique(k, n, e * d + j, k % m % n);
  }

  lemma WrapIdx(c: Config, k: nat)
    requires ValidConfig(c)
    ensures Wrap(c, k) % c.n == Idx(c.n, k)
  {
    IdxIsMod(c.n, k);
    if c.bounded {
      ModOfMod(k, P.WORD, c.n);
    }
  }

  lemma WrapSucc(c: Config, k: nat)
    ensures Wrap(c, Wrap(c, k) + 1) == Wrap(c, k + 1)
  {
  }

  /** The signed 32-bit difference sees a window of at most n frames exactly. */
  lemma PendingExact(c: Config, h: nat, t: nat)
    requires t <= h <= t + 8
    ensures Pending(c, Wrap(c, h), Wrap(c, t)) <==> h > t
  {
  }
}
