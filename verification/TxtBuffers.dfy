/** Frames written into TXT buffer memory, by both of the driver's layers. */
module TxtBuffers {
  import opened Frames
  import opened Codec

  /** Word index of the format word of buffer `buf`; buffers lie 0x100 bytes apart. */
  function Base(buf: nat): nat {
    (buf + 1) * 0x100 / 4
  }

  /** Word `k` of memory after `n` payload words were written behind the header at word `base`. */
  function DataCell(ram: seq<bv32>, base: nat, data: seq<bv8>, n: nat, k: nat): bv32
    requires k < |ram| && 4 * n <= |data|
  {
    if base + 4 <= k < base + 4 + n then WordAt(data, 4 * (k - base - 4)) else ram[k]
  }

  /** Word `k` of memory after a whole frame was written at word `base`. */
  function Cell(ram: seq<bv32>, base: nat, ffw: bv32, idw: bv32, data: seq<bv8>, n: nat, k: nat): bv32
    requires k < |ram| && 4 * n <= |data|
  {
    if k == base then ffw else if k == base + 1 then idw else DataCell(ram, base, data, n, k)
  }

  /** Memory after `cf` was written at word `base`; the two timestamp words are left alone. */
  function Image(ram: seq<bv32>, base: nat, cf: Frame): seq<bv32>
    requires Holding(cf)
  {
    seq(|ram|, k requires 0 <= k < |ram| =>
      Cell(ram, base, FormatWord(cf), IdWord(cf.canId), cf.data, DataCount(cf), k))
  }

  /** The same for the bit field layer, which sets the timestamp too. */
  function HwImage(ram: seq<bv32>, base: nat, cf: Frame, ts: bv64): seq<bv32>
    requires Holding(cf)
  {
    seq(|ram|, k requires 0 <= k < |ram| =>
      if k == base + 2 then Low(ts) else if k == base + 3 then High(ts)
      else Cell(ram, base, HwFormatWord(cf), HwIdWord(cf.canId), cf.data, DataCount(cf), k))
  }

  /** Both layers write the same words to the same addresses, but for the timestamp. */
  lemma ImagesAgree(ram: seq<bv32>, base: nat, cf: Frame, ts: bv64, k: nat)
    requires Holding(cf) && k < |ram| && k != base + 2 && k != base + 3
    ensures HwImage(ram, base, cf, ts)[k] == Image(ram, base, cf)[k]
  {
    EncodersAgree(cf);
  }

  /** An insert into buffer `buf` changes no word outside the 0x100 bytes from address 0x100 * (buf + 1) on: no
      control register and no word of another buffer. */
  lemma InsertWindow(ram: seq<bv32>, buf: nat, cf: Frame, ts: bv64, k: nat)
    requires Holding(cf) && cf.len <= CANFD_MAX_DLEN && k < |ram|
    requires !(0x100 * (buf + 1) <= 4 * k < 0x100 * (buf + 2))
    ensures Image(ram, Base(buf), cf)[k] == ram[k] && HwImage(ram, Base(buf), cf, ts)[k] == ram[k]
  {
    hide FormatWord, HwFormatWord, IdWord, HwIdWord, WordAt, Remote, Low, High;
  }

  /** The format word is at the beginning of these, the identifier word 4 bytes and the data words 16 bytes
      further on; every other word, the timestamp among them, is left alone. */
  lemma InsertPlaces(ram: seq<bv32>, buf: nat, cf: Frame, k: nat, j: nat)
    requires Holding(cf) && k < |ram|
    ensures 4 * k == 0x100 * (buf + 1) ==> Image(ram, Base(buf), cf)[k] == FormatWord(cf)
    ensures 4 * k == 0x100 * (buf + 1) + 0x4 ==> Image(ram, Base(buf), cf)[k] == IdWord(cf.canId)
    ensures j < DataCount(cf) && 4 * k == 0x100 * (buf + 1) + 0x10 + 4 * j ==>
              Image(ram, Base(buf), cf)[k] == WordAt(cf.data, 4 * j)
    ensures 0x100 * (buf + 1) + 0x8 <= 4 * k < 0x100 * (buf + 1) + 0x10 ==> Image(ram, Base(buf), cf)[k] == ram[k]
    ensures 0x100 * (buf + 1) + 0x10 + 4 * DataCount(cf) <= 4 * k ==> Image(ram, Base(buf), cf)[k] == ram[k]
  {
    hide FormatWord, IdWord, WordAt, Remote;
  }

  /** The bit field layer leaves the timestamp 8 bytes behind the format word, its low word first. */
  lemma StampWindow(ram: seq<bv32>, buf: nat, cf: Frame, ts: bv64, k: nat)
    requires Holding(cf) && k + 1 < |ram| && 4 * k == 0x100 * (buf + 1) + 0x8
    ensures var after := HwImage(ram, Base(buf), cf, ts);
            && after[k] == (ts & 0xFFFF_FFFF) as bv32 && after[k + 1] == (ts >> 32) as bv32
            && Stamp(after[k], after[k + 1]) == ts
  {
    StampRoundTrip(ts);
  }

  const TXT_RDY: nat := 0x1
  const TXT_TRAN: nat := 0x2
  const TXT_ABTP: nat := 0x3

  class Memory {
    const ntxbufs: nat
    /** Status codes of the buffers, as TX_STATUS shows them. */
    var status: seq<nat>
    /** Register space as words: word `k` is at address 4 * k. */
    const ram: array<bv32>

    constructor (n: nat, size: nat)
      ensures ntxbufs == n && ram.Length == size && fresh(ram) && status == seq(n, i => 8)
    {
      ntxbufs := n;
      ram := new bv32[size];
      status := seq(n, i => 8);
    }

    predicate Valid()
      reads this
    {
      |status| >= ntxbufs && ram.Length >= Base(ntxbufs)
    }

    /** Neither ready, nor in transmission, nor with an abort in progress. */
    predicate Writable(buf: nat)
      requires buf < |status|
      reads this
    {
      var s := status[buf] % 8;
      !(s == TXT_RDY || s == TXT_TRAN || s == TXT_ABTP)
    }

    /** `ctucan_insert_frame`. */
    method InsertFrame(cf: Frame, buf: nat) returns (ok: bool)
      requires Valid() && (cf.len <= CANFD_MAX_DLEN ==> Holding(cf))
      modifies ram
      ensures ok <==> buf < ntxbufs && status[buf] % 8 !in {TXT_RDY, TXT_TRAN, TXT_ABTP} && cf.len <= CANFD_MAX_DLEN
      ensures ram[..] == if ok then Image(old(ram[..]), Base(buf), cf) else old(ram[..])
    {
      if buf >= ntxbufs || !Writable(buf) || cf.len > CANFD_MAX_DLEN {
        return false;
      }
      ghost var before := ram[..];
      var ffw := FormatOf(cf);
      var idw := IdWord(cf.canId);
      var base := Base(buf);
      ram[base] := ffw;
      ram[base + 1] := idw;
      if !Remote(cf.canId) {
        WriteData(cf.data, cf.len, base);
      }
      ok := true;
      assert ram[..] == Image(before, base, cf);
    }

    /** The format word, bit by bit. */
    static method FormatOf(cf: Frame) returns (ffw: bv32)
      ensures ffw == FormatWord(cf)
    {
      ffw := 0;
      if Remote(cf.canId) {
        ffw := ffw | 0x20;
      }
      if Extended(cf.canId) {
        ffw := ffw | 0x40;
      }
      if cf.fd {
        ffw := ffw | 0x80;
        if cf.flags & CANFD_BRS != 0 {
          ffw := ffw | 0x200;
        }
      }
      ffw := ffw | (Len2Dlc(cf.len) & 0xF);
    }

    /** The loop over the payload, four bytes at a time. */
    method WriteData(data: seq<bv8>, len: nat, base: nat)
      requires 4 * WordsFor(len) <= |data| && base + 4 + WordsFor(len) <= ram.Length
      modifies ram
      ensures forall k :: 0 <= k < ram.Length ==> ram[k] == DataCell(old(ram[..]), base, data, WordsFor(len), k)
    {
      ghost var before := ram[..];
      var i := 0;
      ghost var j := 0;
      while i < len
        invariant i == 4 * j && j <= WordsFor(len)
        invariant forall k :: 0 <= k < ram.Length ==> ram[k] == DataCell(before, base, data, j, k)
      {
        var w := WordAt(data, i);
        ram[base + 4 + i / 4] := w;
        i := i + 4;
        j := j + 1;
      }
    }

    /** `ctucan_hw_insert_frame`. */
    method HwInsertFrame(cf: Frame, ts: bv64, buf: nat) returns (ok: bool)
      requires Valid() && ntxbufs == 4 && (cf.len <= CANFD_MAX_DLEN ==> Holding(cf))
      modifies ram
      ensures ok <==> buf < 4 && status[buf] % 8 !in {TXT_RDY, TXT_TRAN, TXT_ABTP} && cf.len <= CANFD_MAX_DLEN
      ensures ram[..] == if ok then HwImage(old(ram[..]), Base(buf), cf, ts) else old(ram[..])
    {
      if buf >= 4 {
        return false;
      }
      if !Writable(buf) {
        return false;
      }
      if cf.len > CANFD_MAX_DLEN {
        return false;
      }
      ghost var before := ram[..];
      var base := Base(buf);
      ram[base] := HwFormatWord(cf);
      ram[base + 1] := HwIdWord(cf.canId);
      ram[base + 2] := Low(ts);
      ram[base + 3] := High(ts);
      if !Remote(cf.canId) {
        WriteData(cf.data, cf.len, base);
      }
      ok := true;
      assert ram[..] == HwImage(before, base, cf, ts);
    }
  }
}
