/** The receive path: frames as words in the RX FIFO, read by a poll routine that may run out of
    socket buffers after it has read a frame's first word. Frames may arrive before any read of a
    register. */
module RxStream {
  import opened Frames
  import opened Codec

  const EAGAIN: int := -11

  // --------------------------------------------------------------------- the RX FIFO

  /** Words not yet read, words left of the frame being read, and RXFRC. */
  datatype Fifo = Fifo(words: seq<bv32>, counter: nat, frames: nat)

  /** What a read of RX_DATA returns; an empty FIFO returns 0. */
  function Front(f: Fifo): bv32 {
    if f.words == [] then 0 else f.words[0]
  }

  /** What a read of RX_DATA does; an empty FIFO does not move. The format word loads the counter,
      and the read of the last word takes the frame off RXFRC. */
  function Pop(f: Fifo): Fifo {
    if f.words == [] then f
    else Fifo(f.words[1..], if f.counter > 0 then f.counter - 1 else Rwcnt(f.words[0]),
              if f.counter == 1 && f.frames > 0 then f.frames - 1 else f.frames)
  }

  /** The core commits a whole frame. */
  function Commit(f: Fifo, frame: seq<bv32>): Fifo {
    f.(words := f.words + frame, frames := f.frames + 1)
  }

  // --------------------------------------------------------------------- driver state

  /** FIFO, stashed first word, frames handed to the network layer; and, as history, all frames
      the core ever committed and the number of register reads so far. */
  datatype Rx = Rx(fifo: Fifo, stash: Option<bv32>, delivered: seq<Frame>, wire: seq<seq<bv32>>, now: nat)

  const INIT := Rx(Fifo([], 0, 0), None, [], [], 0)

  /** What is outside the driver's hands, by the number of register reads so far: whether an
      allocation succeeds, and which frames the core commits before the next read. */
  datatype Schedule = Schedule(alloc: nat -> bool, arrive: nat -> seq<seq<bv32>>)

  function CommitAll(s: Rx, frames: seq<seq<bv32>>): Rx
    decreases |frames|
  {
    if frames == [] then s
    else CommitAll(s.(fifo := Commit(s.fifo, frames[0]), wire := s.wire + [frames[0]]), frames[1..])
  }

  /** Time passes up to the next read of a register. */
  function Tick(s: Rx, c: Schedule): Rx {
    CommitAll(s, c.arrive(s.now)).(now := s.now + 1)
  }

  /** A read of RX_DATA: the word and the new state. */
  function ReadData(s: Rx, c: Schedule): (bv32, Rx) {
    var t := Tick(s, c);
    (Front(t.fifo), t.(fifo := Pop(t.fifo)))
  }

  /** `n` reads of RX_DATA. */
  function ReadWords(s: Rx, c: Schedule, n: nat): (r: (seq<bv32>, Rx))
    ensures |r.0| == n
  {
    if n == 0 then ([], s)
    else
      var (ws, t) := ReadWords(s, c, n - 1);
      var (w, u) := ReadData(t, c);
      (ws + [w], u)
  }

  /** The first word of the next frame: the stashed one, or a new one. */
  function TakeFirst(s: Rx, c: Schedule): (bv32, Rx) {
    if s.stash.Some? then (s.stash.value, s.(stash := None)) else ReadData(s, c)
  }

  /** A first word the decoder can handle: none, or one with a word count in bounds. */
  predicate Readable(s: Rx, c: Schedule) {
    var ffw := TakeFirst(s, c).0;
    Rwcnt(ffw) == 0 || Safe(ffw)
  }

  /** `ctucan_rx`: result and new state. */
  function RxOne(s: Rx, c: Schedule): (int, Rx)
    requires Readable(s, c)
  {
    var (ffw, t) := TakeFirst(s, c);
    if Rwcnt(ffw) == 0 then (EAGAIN, t)
    else if !c.alloc(t.now) then (0, t.(stash := Some(ffw)))
    else
      var (ws, u) := ReadWords(t, c, Rwcnt(ffw));
      (1, u.(delivered := u.delivered + [Decode(ffw, ws)]))
  }

  /** The loop of `ctucan_rx_poll` from its next read of RXFRC on: work done and new state. That the
      first word is readable is no test of the driver's: with well-formed frames it always is. */
  function PollFrom(s: Rx, quota: nat, c: Schedule, work: nat, res: int): (nat, Rx)
    requires work <= quota
    decreases quota - work
  {
    var t := Tick(s, c);
    if t.fifo.frames > 0 && work < quota && res > 0 && Readable(t, c) then
      var (r, u) := RxOne(t, c);
      PollFrom(u, quota, c, work + 1, r)
    else (work, t)
  }

  function Poll(s: Rx, quota: nat, c: Schedule): (nat, Rx) {
    PollFrom(s, quota, c, 0, 1)
  }

  /** Any number of polls, each with its own quota. */
  function Runs(s: Rx, quotas: seq<nat>, c: Schedule): Rx {
    if quotas == [] then s
    else Poll(Runs(s, quotas[..|quotas| - 1], c), quotas[|quotas| - 1], c).1
  }

  // ------------------------------------------------------------------- well-formedness

  /** A frame as the core stores it: the format word counts the words that follow. */
  predicate WellFormed(ws: seq<bv32>) {
    |ws| > 0 && Safe(ws[0]) && |ws| == 1 + Rwcnt(ws[0])
  }

  function Meaning(ws: seq<bv32>): Frame
    requires WellFormed(ws)
  {
    Decode(ws[0], ws[1..])
  }

  predicate AllWellFormed(wire: seq<seq<bv32>>) {
    forall i :: 0 <= i < |wire| ==> WellFormed(wire[i])
  }

  ghost predicate ValidSchedule(c: Schedule) {
    forall k: nat :: AllWellFormed(c.arrive(k))
  }

  /** The words of frame `k` and all later ones. */
  function Flat(wire: seq<seq<bv32>>, k: nat): seq<bv32>
    requires k <= |wire|
    decreases |wire| - k
  {
    if k == |wire| then [] else wire[k] + Flat(wire, k + 1)
  }

  /** `m` words of frame `k` have been read; `m == 0` is the boundary before it. */
  ghost predicate At(f: Fifo, wire: seq<seq<bv32>>, k: nat, m: nat) {
    if m == 0 then k <= |wire| && f == Fifo(Flat(wire, k), 0, |wire| - k)
    else
      && k < |wire| && m <= |wire[k]|
      && f == Fifo(wire[k][m..] + Flat(wire, k + 1), |wire[k]| - m,
                   if m == |wire[k]| then |wire| - k - 1 else |wire| - k)
  }

  /** The read position is before frame `k`, or exactly one stashed word past its beginning. */
  ghost predicate Positioned(f: Fifo, stash: Option<bv32>, wire: seq<seq<bv32>>, k: nat) {
    match stash
    case None => At(f, wire, k, 0)
    case Some(w) => k < |wire| && |wire[k]| > 1 && w == wire[k][0] && At(f, wire, k, 1)
  }

  /** The frames delivered are the meanings of the first `|delivered|` frames of the wire. */
  ghost predicate Prefix(delivered: seq<Frame>, wire: seq<seq<bv32>>)
    requires AllWellFormed(wire)
  {
    |delivered| <= |wire| && forall i :: 0 <= i < |delivered| ==> delivered[i] == Meaning(wire[i])
  }

  ghost predicate Inv(s: Rx) {
    && AllWellFormed(s.wire) && Prefix(s.delivered, s.wire)
    && Positioned(s.fifo, s.stash, s.wire, |s.delivered|)
  }

  // -------------------------------------------------------------------------- arrivals

  lemma {:induction false} FlatGrows(wire: seq<seq<bv32>>, frame: seq<bv32>, k: nat)
    requires k <= |wire|
    ensures Flat(wire + [frame], k) == Flat(wire, k) + frame
    decreases |wire| - k
  {
    var all := wire + [frame];
    if k < |wire| {
      FlatGrows(wire, frame, k + 1);
    } else {
      assert Flat(all, k) == frame + Flat(all, k + 1);
      assert Flat(all, k + 1) == [];
    }
  }

  /** A frame committed at any moment leaves the read position where it is. */
  lemma CommitKeepsPlace(f: Fifo, wire: seq<seq<bv32>>, frame: seq<bv32>, k: nat, m: nat)
    requires At(f, wire, k, m)
    ensures At(Commit(f, frame), wire + [frame], k, m)
  {
    if m == 0 {
      FlatGrows(wire, frame, k);
    } else {
      FlatGrows(wire, frame, k + 1);
      assert wire[k][m..] + Flat(wire, k + 1) + frame == wire[k][m..] + (Flat(wire, k + 1) + frame);
    }
  }

  /** Time has passed: frames may have been added, nothing else has changed. */
  ghost predicate Later(s: Rx, t: Rx) {
    s.wire <= t.wire && AllWellFormed(t.wire) && t.stash == s.stash && t.delivered == s.delivered
  }

  lemma {:induction false} CommitAllKeepsPlace(s: Rx, frames: seq<seq<bv32>>, k: nat, m: nat)
    requires AllWellFormed(s.wire) && AllWellFormed(frames) && At(s.fifo, s.wire, k, m)
    ensures var t := CommitAll(s, frames); Later(s, t) && At(t.fifo, t.wire, k, m) && t.now == s.now
    decreases |frames|
  {
    hide At;
    if frames != [] {
      CommitKeepsPlace(s.fifo, s.wire, frames[0], k, m);
      CommitAllKeepsPlace(s.(fifo := Commit(s.fifo, frames[0]), wire := s.wire + [frames[0]]), frames[1..], k, m);
    }
  }

  lemma TickKeepsPlace(s: Rx, c: Schedule, k: nat, m: nat)
    requires ValidSchedule(c) && AllWellFormed(s.wire) && At(s.fifo, s.wire, k, m)
    ensures var t := Tick(s, c); Later(s, t) && At(t.fifo, t.wire, k, m)
  {
    hide At;
    CommitAllKeepsPlace(s, c.arrive(s.now), k, m);
  }

  lemma TickKeeps(s: Rx, c: Schedule)
    requires ValidSchedule(c) && Inv(s)
    ensures Inv(Tick(s, c)) && Later(s, Tick(s, c))
  {
    hide At;
    TickKeepsPlace(s, c, |s.delivered|, if s.stash.Some? then 1 else 0);
  }

  // --------------------------------------------------------------------- reading a frame

  /** A read within frame `k` gives its next word. */
  lemma PopKeepsPlace(f: Fifo, wire: seq<seq<bv32>>, k: nat, m: nat)
    requires At(f, wire, k, m) && k < |wire| && WellFormed(wire[k]) && m < |wire[k]|
    ensures Front(f) == wire[k][m] && At(Pop(f), wire, k, m + 1)
  {
    var ws, rest := wire[k], Flat(wire, k + 1);
    assert f.words == ws[m..] + rest;
    assert ws[m..] == [ws[m]] + ws[m + 1..];
    assert f.words == [ws[m]] + (ws[m + 1..] + rest);
    assert f.words[1..] == ws[m + 1..] + rest;
  }

  /** The end of frame `k` is the boundary before the next one. */
  lemma NextFrame(f: Fifo, wire: seq<seq<bv32>>, k: nat)
    requires k < |wire| && |wire[k]| > 0 && At(f, wire, k, |wire[k]|)
    ensures At(f, wire, k + 1, 0)
  {
    assert wire[k][|wire[k]|..] + Flat(wire, k + 1) == Flat(wire, k + 1);
  }

  lemma DataRead(s: Rx, c: Schedule, k: nat, m: nat)
    requires ValidSchedule(c) && AllWellFormed(s.wire) && At(s.fifo, s.wire, k, m) && k < |s.wire| && m < |s.wire[k]|
    ensures var (w, t) := ReadData(s, c);
            Later(s, t) && w == s.wire[k][m] && At(t.fifo, t.wire, k, m + 1)
  {
    hide At, Pop;
    TickKeepsPlace(s, c, k, m);
    var t := Tick(s, c);
    PopKeepsPlace(t.fifo, t.wire, k, m);
  }

  /** Whatever arrives meanwhile, the reads after the first word give the rest of the frame. */
  lemma {:induction false} WordsRead(s: Rx, c: Schedule, k: nat, n: nat)
    requires ValidSchedule(c) && AllWellFormed(s.wire) && At(s.fifo, s.wire, k, 1) && k < |s.wire| && n < |s.wire[k]|
    ensures var (ws, t) := ReadWords(s, c, n);
            Later(s, t) && ws == s.wire[k][1..n + 1] && At(t.fifo, t.wire, k, n + 1)
  {
    hide At, ReadData;
    if n > 0 {
      WordsRead(s, c, k, n - 1);
      DataRead(ReadWords(s, c, n - 1).1, c, k, n);
    }
  }

  // -------------------------------------------------------------------------- one call

  /** The first word is that of the next frame, if there is one. */
  lemma FirstTaken(s: Rx, c: Schedule)
    requires ValidSchedule(c) && Inv(s)
    ensures var (ffw, t) := TakeFirst(s, c);
            var k := |s.delivered|;
            && Later(s, t.(stash := s.stash)) && t.stash == None && k <= |t.wire|
            && (if k < |t.wire| then ffw == t.wire[k][0] && At(t.fifo, t.wire, k, 1)
                else Rwcnt(ffw) == 0 && At(t.fifo, t.wire, k, 0))
            && (|s.wire| > k ==> |t.wire| > k)
  {
    var k := |s.delivered|;
    if s.stash == None {
      TickKeeps(s, c);
      var t := Tick(s, c);
      if k < |t.wire| {
        PopKeepsPlace(t.fifo, t.wire, k, 0);
      } else {
        assert t.fifo.words == [];
      }
    }
  }

  /** What one call does, whatever arrives while it runs: it delivers the next frame, or stashes its
      first word because the allocation failed, or reports that there is no frame. */
  ghost predicate RxOk(s: Rx, res: int, t: Rx) {
    && Inv(t) && s.wire <= t.wire
    && (if res == 1 then && |s.delivered| < |t.wire| && t.stash == None
                         && t.delivered == s.delivered + [Meaning(t.wire[|s.delivered|])]
        else t.delivered == s.delivered)
    && (res == 1 || res == 0 || res == EAGAIN)
    && (res == 0 ==> t.stash.Some?)
    && (res == EAGAIN ==> |s.wire| == |s.delivered| && t.fifo.frames == 0)
  }

  lemma RxOneMeaning(s: Rx, c: Schedule)
    requires ValidSchedule(c) && Inv(s)
    ensures Readable(s, c)
    ensures var (res, t) := RxOne(s, c); RxOk(s, res, t)
    ensures var u := TakeFirst(s, c).1;
            RxOne(s, c).0 == if |u.wire| == |s.delivered| then EAGAIN else if c.alloc(u.now) then 1 else 0
  {
    FirstTaken(s, c);
    var (ffw, t) := TakeFirst(s, c);
    var k := |s.delivered|;
    if k < |t.wire| {
      assert WellFormed(t.wire[k]);
      if c.alloc(t.now) {
        FrameDelivered(t, c, ffw);
      }
    }
  }

  lemma FrameDelivered(t: Rx, c: Schedule, ffw: bv32)
    requires ValidSchedule(c) && AllWellFormed(t.wire) && Prefix(t.delivered, t.wire) && |t.delivered| < |t.wire|
    requires t.stash == None && ffw == t.wire[|t.delivered|][0] && At(t.fifo, t.wire, |t.delivered|, 1)
    ensures var (ws, u) := ReadWords(t, c, Rwcnt(ffw));
            && Later(t, u) && Safe(ffw) && Decode(ffw, ws) == Meaning(t.wire[|t.delivered|])
            && Inv(u.(delivered := u.delivered + [Decode(ffw, ws)]))
  {
    hide At, Decode;
    var k := |t.delivered|;
    assert WellFormed(t.wire[k]);
    WordsRead(t, c, k, Rwcnt(ffw));
    var u := ReadWords(t, c, Rwcnt(ffw)).1;
    NextFrame(u.fifo, u.wire, k);
    assert t.wire[k][1..Rwcnt(ffw) + 1] == t.wire[k][1..];
  }

  // --------------------------------------------------------------------------- polling

  /** What the loop promises from its next look at RXFRC on. The work done is one for every frame delivered, and one for
      the allocation that failed, if that is how the loop ended. */
  ghost predicate PollOk(s: Rx, quota: nat, work: nat, res: int, done: nat, t: Rx) {
    && Inv(t) && s.wire <= t.wire && s.delivered <= t.delivered && work <= done <= quota
    && done - work == |t.delivered| - |s.delivered| + (if done > work && t.stash.Some? then 1 else 0)
    && (done == work ==> t.stash == s.stash)
    && (res > 0 ==> done == quota || t.fifo.frames == 0 || (done > work && t.stash.Some?))
    && (res <= 0 ==> done == work)
  }

  lemma {:induction false} PollFromKeeps(s: Rx, quota: nat, c: Schedule, work: nat, res: int)
    requires Inv(s) && ValidSchedule(c) && work <= quota
    ensures var (done, t) := PollFrom(s, quota, c, work, res); PollOk(s, quota, work, res, done, t)
    decreases quota - work
  {
    hide Inv;
    TickKeeps(s, c);
    var t := Tick(s, c);
    if t.fifo.frames > 0 && work < quota && res > 0 {
      RxOneMeaning(t, c);
      var (r, u) := RxOne(t, c);
      FramesLeft(t);
      PollFromKeeps(u, quota, c, work + 1, r);
    }
  }

  /** RXFRC counts the frames that have not been read to their end. */
  lemma FramesLeft(s: Rx)
    requires Inv(s)
    ensures s.fifo.frames == |s.wire| - |s.delivered|
  {
  }

  /** One poll: never more work than the quota, exactly one unit for each frame delivered and one for a failed
      allocation, never a frame taken back, and, if it ends early, then with no frame left at its last
      look or with a failed allocation. */
  lemma PollBounded(s: Rx, quota: nat, c: Schedule)
    requires Inv(s) && ValidSchedule(c)
    ensures var (done, t) := Poll(s, quota, c); PollOk(s, quota, 0, 1, done, t)
  {
    PollFromKeeps(s, quota, c, 0, 1);
  }

  /** One pass of the loop, as the function unfolds it. */
  lemma PollUnfolds(s: Rx, quota: nat, c: Schedule, work: nat, res: int)
    requires Inv(s) && ValidSchedule(c) && work < quota && res > 0 && Tick(s, c).fifo.frames > 0
    ensures var t := Tick(s, c);
            && Readable(t, c)
            && var (r, u) := RxOne(t, c);
            && Inv(u) && PollFrom(s, quota, c, work, res) == PollFrom(u, quota, c, work + 1, r)
  {
    hide Inv;
    TickKeeps(s, c);
    RxOneMeaning(Tick(s, c), c);
  }

  /** Inside a poll the call never finds the FIFO empty. */
  lemma NeverAgain(s: Rx, c: Schedule)
    requires Inv(s) && ValidSchedule(c) && s.fifo.frames > 0
    ensures Readable(s, c) && RxOne(s, c).0 != EAGAIN
  {
    RxOneMeaning(s, c);
    FramesLeft(s);
  }

  /** With no frame in the FIFO and none arriving, the call says so and changes nothing. */
  lemma RxOneEmpty(s: Rx, c: Schedule)
    requires Inv(s) && s.fifo.frames == 0 && c.arrive(s.now) == []
    ensures Readable(s, c) && RxOne(s, c) == (EAGAIN, s.(now := s.now + 1))
  {
    FramesLeft(s);
  }

  // ------------------------------------------------------------------------ whole runs

  /** Over all runs, with frames arriving before any read of a register: the frames delivered are the
      meanings of a prefix of the frames committed, in order; and the FIFO is at the next frame's
      first word or one stashed word past it. */
  lemma {:induction false} StreamCorrect(quotas: seq<nat>, c: Schedule)
    requires ValidSchedule(c)
    ensures Inv(Runs(INIT, quotas, c))
    decreases |quotas|
  {
    if quotas == [] {
      assert Flat([], 0) == [];
    } else {
      var n := |quotas| - 1;
      StreamCorrect(quotas[..n], c);
      PollBounded(Runs(INIT, quotas[..n], c), quotas[n], c);
    }
  }

  // --------------------------------------------------------------- reads in two stretches

  lemma {:induction false} ReadWordsTwice(s: Rx, c: Schedule, a: nat, b: nat)
    ensures var (ws, t) := ReadWords(s, c, a);
            var (vs, u) := ReadWords(t, c, b);
            ReadWords(s, c, a + b) == (ws + vs, u)
    decreases b
  {
    hide ReadData;
    if b > 0 {
      ReadWordsTwice(s, c, a, b - 1);
      var (ws, t) := ReadWords(s, c, a);
      var (vs, u) := ReadWords(t, c, b - 1);
      assert ws + (vs + [ReadData(u, c).0]) == (ws + vs) + [ReadData(u, c).0];
    } else {
      assert ReadWords(s, c, a).0 + [] == ReadWords(s, c, a).0;
    }
  }
}
