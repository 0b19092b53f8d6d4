/** The receive path as the driver runs it. */
module RxDriver {
  import opened Frames
  import opened Codec
  import opened RxStream

  class RxPath {
    // the core's RX buffer
    var words: seq<bv32>
    var counter: nat
    var frames: nat
    // the driver's private data
    var firstWord: bv32
    var buffered: bool
    // the network layer's side
    var delivered: seq<Frame>
    var rxPackets: nat
    var rxBytes: nat
    // the surroundings
    const c: Schedule
    var now: nat
    ghost var wire: seq<seq<bv32>>

    ghost function Value(): Rx
      reads this
    {
      Rx(Fifo(words, counter, frames), if buffered then Some(firstWord) else None, delivered, wire, now)
    }

    constructor (schedule: Schedule)
      ensures Value() == INIT && rxPackets == 0 && rxBytes == 0 && c == schedule
    {
      words, counter, frames, wire := [], 0, 0, [];
      firstWord, buffered := 0, false;
      delivered, rxPackets, rxBytes := [], 0, 0;
      c, now := schedule, 0;
    }

    /** Time passes up to the next read of a register. */
    method Wait()
      modifies `words, `frames, `wire, `now
      ensures Value() == Tick(old(Value()), c)
    {
      var arrivals := c.arrive(now);
      ghost var all := CommitAll(Value(), arrivals);
      var i := 0;
      while i < |arrivals|
        invariant i <= |arrivals| && CommitAll(Value(), arrivals[i..]) == all && now == old(now)
      {
        words := words + arrivals[i];
        frames := frames + 1;
        wire := wire + [arrivals[i]];
        assert arrivals[i..][1..] == arrivals[i + 1..];
        i := i + 1;
      }
      now := now + 1;
    }

    /** A read of RX_DATA. */
    method ReadRxData() returns (w: bv32)
      modifies `words, `counter, `frames, `wire, `now
      ensures (w, Value()) == ReadData(old(Value()), c)
    {
      Wait();
      if words == [] {
        return 0;
      }
      w := words[0];
      if counter == 1 && frames > 0 {
        frames := frames - 1;
      }
      counter := if counter > 0 then counter - 1 else Rwcnt(w);
      words := words[1..];
    }

    /** A read of RXFRC. */
    method ReadFrameCount() returns (n: nat)
      modifies `words, `frames, `wire, `now
      ensures Value() == Tick(old(Value()), c) && n == frames
    {
      Wait();
      n := frames;
    }

    /** Stores a word at `data[i..i + 4]`, least significant byte first. */
    static method StoreWord(data: array<bv8>, i: nat, w: bv32)
      requires i + 4 <= data.Length
      modifies data
      ensures forall k :: 0 <= k < data.Length ==> data[k] == if i <= k < i + 4 then ByteOf(w, k - i) else old(data[k])
    {
      data[i] := ByteOf(w, 0);
      data[i + 1] := ByteOf(w, 1);
      data[i + 2] := ByteOf(w, 2);
      data[i + 3] := ByteOf(w, 3);
    }

    /** The copy loop: as many whole words as `len` bytes need. */
    method CopyData(data: array<bv8>, len: nat) returns (i: nat)
      requires 4 * WordsFor(len) <= data.Length
      modifies `words, `counter, `frames, `wire, `now, data
      ensures i == 4 * WordsFor(len) && Value() == ReadWords(old(Value()), c, WordsFor(len)).1
      ensures forall k :: 0 <= k < data.Length ==>
                data[k] == if k < i then ByteOf(ReadWords(old(Value()), c, WordsFor(len)).0[k / 4], k % 4)
                           else old(data[k])
    {
      hide ReadData;
      ghost var s := Value();
      ghost var j := 0;
      i := 0;
      while i < len
        invariant i == 4 * j && j <= WordsFor(len) && Value() == ReadWords(s, c, j).1
        invariant forall k :: 0 <= k < data.Length ==>
                    data[k] == if k < i then ByteOf(ReadWords(s, c, j).0[k / 4], k % 4) else old(data[k])
      {
        var w := ReadRxData();
        assert ReadWords(s, c, j + 1).0 == ReadWords(s, c, j).0 + [w];
        StoreWord(data, i, w);
        i := i + 4;
        j := j + 1;
      }
    }

    /** The drain loop: reads and drops words up to byte position `end`. */
    method Drain(start: nat, end: nat)
      requires start % 4 == 0 && end % 4 == 0 && start <= end
      modifies `words, `counter, `frames, `wire, `now
      ensures Value() == ReadWords(old(Value()), c, (end - start) / 4).1
    {
      hide ReadData;
      ghost var s := Value();
      ghost var j := 0;
      var i := start;
      while i < end
        invariant i == start + 4 * j && i <= end && Value() == ReadWords(s, c, j).1
      {
        var _ := ReadRxData();
        i := i + 4;
        j := j + 1;
      }
    }

    /** The three words before the data: the identifier and the timestamp. */
    method ReadHeader() returns (idw: bv32, low: bv32, high: bv32)
      modifies `words, `counter, `frames, `wire, `now
      ensures ([idw, low, high], Value()) == ReadWords(old(Value()), c, 3)
    {
      hide ReadData;
      ghost var s := Value();
      idw := ReadRxData();
      ghost var t := Value();
      low := ReadRxData();
      ghost var u := Value();
      high := ReadRxData();
      ThreeReads(s, c, idw, t, low, u, high, Value());
    }

    /** The data words: copied up to `copy` bytes, dropped up to `wc` words. */
    method ReadBody(data: array<bv8>, copy: nat, wc: nat)
      requires copy <= 4 * wc && 4 * WordsFor(copy) <= data.Length
      modifies `words, `counter, `frames, `wire, `now, data
      ensures Value() == ReadWords(old(Value()), c, wc).1
      ensures forall k :: 0 <= k < data.Length ==>
                data[k] == if k < 4 * WordsFor(copy) then ByteOf(ReadWords(old(Value()), c, wc).0[k / 4], k % 4)
                           else old(data[k])
    {
      hide ReadData, ByteOf;
      ghost var s, n := Value(), WordsFor(copy);
      var i := CopyData(data, copy);
      Drain(i, 4 * wc);
      assert (4 * wc - i) / 4 == wc - n;
      ReadWordsTwice(s, c, n, wc - n);
      ghost var ws := ReadWords(s, c, n).0;
      assert ReadWords(s, c, wc).0[..n] == ws;
      assert forall k :: 0 <= k < 4 * n ==> ReadWords(s, c, wc).0[k / 4] == ws[k / 4];
    }

    /** All words after the format word: identifier and timestamp are returned, the data words stored. */
    method ReadRest(data: array<bv8>, len: nat, wc: nat) returns (idw: bv32, low: bv32, high: bv32)
      requires 4 * WordsFor(CopyLen(len, wc)) <= data.Length && forall k :: 0 <= k < data.Length ==> data[k] == 0
      modifies `words, `counter, `frames, `wire, `now, data
      ensures var (ws, t) := ReadWords(old(Value()), c, 3 + wc);
              && Value() == t && idw == ws[0] && low == ws[1] && high == ws[2]
              && data[..] == Payload(ws[3..], WordsFor(CopyLen(len, wc)), data.Length)
    {
      hide ReadData, ByteOf;
      ghost var s := Value();
      idw, low, high := ReadHeader();
      ghost var mid := Value();
      var copy := len;
      if copy > wc * 4 {
        copy := wc * 4;
      }
      ReadBody(data, copy, wc);
      RestRead(s, c, wc, mid, idw, low, high);
    }

    /** `ctucan_read_rx_frame`: the rest of a frame, into a zeroed payload array. */
    method ReadRxFrame(ffw: bv32, data: array<bv8>) returns (canId: bv32, len: nat, flags: bv8)
      requires Safe(ffw) && data.Length == Capacity(ffw) && forall k :: 0 <= k < data.Length ==> data[k] == 0
      modifies `words, `counter, `frames, `wire, `now, data
      ensures var (ws, t) := ReadWords(old(Value()), c, Rwcnt(ffw));
              Value() == t && Frame(canId, len, flags, data[..], Fdf(ffw)) == Decode(ffw, ws)
    {
      hide DecodedId, DecodedFlags, DecodedLen, Payload, Fdf;
      len := DecodedLen(ffw);
      CopyInBounds(ffw);
      var idw, _, _ := ReadRest(data, len, WordCount(ffw));
      canId, flags := DecodedId(ffw, idw), DecodedFlags(ffw);
    }

    /** `ctucan_hw_read_rx_frame_ffw`: the bit field layer reads the same words and leaves the same frame,
        and returns the timestamp as well. */
    method HwReadRxFrame(ffw: bv32, data: array<bv8>) returns (canId: bv32, len: nat, flags: bv8, ts: bv64)
      requires Safe(ffw) && data.Length == Capacity(ffw) && forall k :: 0 <= k < data.Length ==> data[k] == 0
      modifies `words, `counter, `frames, `wire, `now, data
      ensures var (ws, t) := ReadWords(old(Value()), c, Rwcnt(ffw));
              && Value() == t && Frame(canId, len, flags, data[..], Fdf(ffw)) == Decode(ffw, ws)
              && ts == Stamp(ws[1], ws[2])
    {
      hide HwDecodedId, HwDecodedFlags, HwDecodedLen, Payload, Fdf, Stamp, HwRwcnt, Capacity;
      LengthsAgree(ffw);
      CopyInBounds(ffw);
      len := HwDecodedLen(ffw);
      ghost var s := Value();
      var idw, low, high := ReadRest(data, len, HwRwcnt(ffw) - 3);
      canId, flags := HwDecodedId(ffw, idw), HwDecodedFlags(ffw);
      ts := Stamp(low, high);
      DecodersAgree(ffw, ReadWords(s, c, Rwcnt(ffw)).0);
    }

    /** The first word of the next frame: the stashed one, or a new one. */
    method TakeFirstWord() returns (ffw: bv32)
      modifies `words, `counter, `frames, `wire, `now, `buffered
      ensures (ffw, Value()) == TakeFirst(old(Value()), c) && !buffered
    {
      if buffered {
        ffw := firstWord;
        buffered := false;
      } else {
        ffw := ReadRxData();
      }
    }

    /** `ctucan_rx`. */
    method Receive() returns (res: int)
      requires Readable(Value(), c)
      modifies this
      ensures (res, Value()) == RxOne(old(Value()), c)
      ensures rxPackets == old(rxPackets) + |delivered| - |old(delivered)|
      ensures rxBytes == old(rxBytes) + if res == 1 then delivered[|delivered| - 1].len else 0
    {
      var ffw := TakeFirstWord();
      if Rwcnt(ffw) == 0 {
        return EAGAIN;
      }
      if !c.alloc(now) {
        firstWord := ffw;
        buffered := true;
        return 0;
      }
      var data := new bv8[Capacity(ffw)](i => 0);
      var canId, len, flags := ReadRxFrame(ffw, data);
      rxBytes := rxBytes + len;
      rxPackets := rxPackets + 1;
      delivered := delivered + [Frame(canId, len, flags, data[..], Fdf(ffw))];
      res := 1;
    }

    /** `ctucan_rx_poll`. */
    method RxPoll(quota: nat) returns (work: nat)
      requires Inv(Value()) && ValidSchedule(c)
      modifies this
      ensures (work, Value()) == Poll(old(Value()), quota, c)
      ensures PollOk(old(Value()), quota, 0, 1, work, Value())
    {
      hide Inv, Readable, RxOne, Tick, PollOk;
      PollBounded(Value(), quota, c);
      work := 0;
      var res := 1;
      ghost var last := Value();
      var count := ReadFrameCount();
      while count > 0 && work < quota && res > 0
        invariant work <= quota && count == frames && Inv(last) && Value() == Tick(last, c)
        invariant PollFrom(last, quota, c, work, res) == Poll(old(Value()), quota, c)
        decreases quota - work
      {
        PollUnfolds(last, quota, c, work, res);
        res := Receive();
        last := Value();
        work := work + 1;
        count := ReadFrameCount();
      }
    }
  }

  lemma ThreeReads(s: Rx, c: Schedule, a: bv32, t: Rx, b: bv32, u: Rx, d: bv32, v: Rx)
    requires (a, t) == ReadData(s, c) && (b, u) == ReadData(t, c) && (d, v) == ReadData(u, c)
    ensures ([a, b, d], v) == ReadWords(s, c, 3)
  {
    hide ReadData;
    assert ReadWords(s, c, 0) == ([], s);
    assert [] + [a] == [a] && [a] + [b] == [a, b] && [a, b] + [d] == [a, b, d];
    OneMore(s, c, 0, [], s, a, t);
    OneMore(s, c, 1, [a], t, b, u);
    OneMore(s, c, 2, [a, b], u, d, v);
  }

  lemma OneMore(s: Rx, c: Schedule, n: nat, ws: seq<bv32>, t: Rx, w: bv32, u: Rx)
    requires ReadWords(s, c, n) == (ws, t) && ReadData(t, c) == (w, u)
    ensures ReadWords(s, c, n + 1) == (ws + [w], u)
  {
  }

  /** Header and data words, read one after the other. */
  lemma RestRead(s: Rx, c: Schedule, wc: nat, mid: Rx, idw: bv32, low: bv32, high: bv32)
    requires ([idw, low, high], mid) == ReadWords(s, c, 3)
    ensures ReadWords(s, c, 3 + wc) == ([idw, low, high] + ReadWords(mid, c, wc).0, ReadWords(mid, c, wc).1)
  {
    ReadWordsTwice(s, c, 3, wc);
  }
}
