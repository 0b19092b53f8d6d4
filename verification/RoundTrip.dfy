/** A frame inserted on one side and decoded on the other. */
module RoundTrip {
  import opened Frames
  import opened Codec
  import opened TxtBuffers

  // --------------------------------------------------------------- the bus in between

  /** How many words the receiver stores after the format word. */
  function RwcntFor(dlc: bv32, rtr: bool, fdf: bool): nat {
    if rtr then 3 else if !fdf && dlc >= 8 then 5 else 3 + WordsFor(Dlc2Len(dlc))
  }

  /** How many bytes of payload go over the bus. */
  function BusLen(dlc: bv32, rtr: bool, fdf: bool): nat {
    if rtr then 0 else if !fdf && dlc >= 8 then 8 else Dlc2Len(dlc)
  }

  /** The received format word `rx` of a frame sent with format word `tx`. An FD frame has no
      remote bit; error state, loopback and filter bits are the receiver's own. */
  predicate FormatCarried(tx: bv32, rx: bv32) {
    && Dlc(rx) == Dlc(tx) && (Ide(rx) <==> Ide(tx)) && (Fdf(rx) <==> Fdf(tx)) && (Fdf(tx) ==> (Brs(rx) <==> Brs(tx)))
    && (Rtr(rx) <==> Rtr(tx) && !Fdf(tx)) && Rwcnt(rx) == RwcntFor(Dlc(tx), Rtr(rx), Fdf(tx))
  }

  predicate IdCarried(ide: bool, tx: bv32, rx: bv32) {
    if ide then rx & 0x1FFF_FFFF == tx & 0x1FFF_FFFF else rx & 0x1FFC_0000 == tx & 0x1FFC_0000
  }

  /** `rx` is what the receiver stores for the frame that lies at word `base` of `ram`. */
  ghost predicate Carried(ram: seq<bv32>, base: nat, rx: seq<bv32>)
    requires base + 20 <= |ram|
  {
    && |rx| > 0 && FormatCarried(ram[base], rx[0]) && |rx| == 1 + Rwcnt(rx[0]) && |rx| >= 4
    && IdCarried(Ide(rx[0]), ram[base + 1], rx[1])
    && forall k: nat :: k < BusLen(Dlc(rx[0]), Rtr(rx[0]), Fdf(rx[0])) && 4 + k / 4 < |rx| && k / 4 < 16 ==>
         ByteOf(rx[4 + k / 4], k % 4) == ByteOf(ram[base + 4 + k / 4], k % 4)
  }

  // ------------------------------------------------------------------- what comes back

  /** The identifier bits that count, with the flag for an extended identifier. */
  function MaskedId(id: bv32): bv32 {
    if Extended(id) then (id & EFF_MASK) | EFF_FLAG else id & SFF_MASK
  }

  function CanonicalId(id: bv32, fd: bool): bv32 {
    TaggedId(MaskedId(id), Remote(id) && !fd)
  }

  function ReceivedLen(cf: Frame): nat {
    if cf.fd then Dlc2Len(Len2Dlc(cf.len)) else if cf.len <= 8 then cf.len else 8
  }

  // --------------------------------------------------------------------------- lemmas

  lemma FormatBits(cf: Frame)
    requires cf.len <= CANFD_MAX_DLEN
    ensures var w := FormatWord(cf);
            && (Ide(w) <==> Extended(cf.canId)) && (Rtr(w) <==> Remote(cf.canId)) && (Fdf(w) <==> cf.fd)
            && (Brs(w) <==> cf.fd && cf.flags & CANFD_BRS != 0) && Dlc(w) == Len2Dlc(cf.len)
  {
    LengthRoundTrip(cf.len);
    BitsOfFormat(Remote(cf.canId), Extended(cf.canId), cf.fd, cf.fd && cf.flags & CANFD_BRS != 0, Len2Dlc(cf.len));
  }

  lemma BitsOfFormat(rtr: bool, ide: bool, fd: bool, brs: bool, dlc: bv32)
    requires dlc <= 15
    ensures var w := (if rtr then 0x20 else 0) | (if ide then 0x40 else 0) | (if fd then 0x80 else 0)
                     | (if brs then 0x200 else 0) | (dlc & 0xF);
            && (Ide(w) <==> ide) && (Rtr(w) <==> rtr) && (Fdf(w) <==> fd) && (Brs(w) <==> brs) && Dlc(w) == dlc
  {
  }

  lemma LongIdBack(id: bv32, rx: bv32)
    requires rx & 0x1FFF_FFFF == (id & 0x1FFF_FFFF) & 0x1FFF_FFFF
    ensures (rx & 0x1FFF_FFFF) | 0x8000_0000 == (id & 0x1FFF_FFFF) | 0x8000_0000
  {
  }

  lemma ShortIdBack(id: bv32, rx: bv32)
    requires rx & 0x1FFC_0000 == (((id & 0x7FF) << 18) & 0x1FFC_0000) & 0x1FFC_0000
    ensures (rx >> 18) & 0x7FF == id & 0x7FF
  {
  }

  lemma IdBack(cf: Frame, ffw: bv32, idw: bv32)
    requires Ide(ffw) <==> Extended(cf.canId)
    requires Rtr(ffw) && !Fdf(ffw) <==> Remote(cf.canId) && !cf.fd
    requires IdCarried(Ide(ffw), IdWord(cf.canId), idw)
    ensures DecodedId(ffw, idw) == CanonicalId(cf.canId, cf.fd)
  {
    hide Ide, Rtr, Fdf, Extended, Remote, IdWord, IdCarried, MaskedId, TaggedId, WordId;
    BaseBack(Ide(ffw), cf.canId, idw);
  }

  lemma BaseBack(ide: bool, id: bv32, idw: bv32)
    requires ide == Extended(id) && IdCarried(ide, IdWord(id), idw)
    ensures WordId(idw, ide) == MaskedId(id)
  {
    if ide {
      LongBits(id, idw);
    } else {
      ShortBits(id, idw);
    }
  }

  lemma LongBits(id: bv32, idw: bv32)
    requires Extended(id) && IdCarried(true, IdWord(id), idw)
    ensures (idw & EFF_MASK) | EFF_FLAG == (id & EFF_MASK) | EFF_FLAG
  {
    LongIdBack(id, idw);
  }

  lemma ShortBits(id: bv32, idw: bv32)
    requires !Extended(id) && IdCarried(false, IdWord(id), idw)
    ensures (idw >> 18) & SFF_MASK == id & SFF_MASK
  {
    ShortIdBack(id, idw);
  }

  lemma FlagsBack(cf: Frame, ffw: bv32)
    requires Fdf(ffw) <==> cf.fd
    requires cf.fd ==> (Brs(ffw) <==> cf.flags & CANFD_BRS != 0)
    ensures DecodedFlags(ffw) & CANFD_BRS == if cf.fd then cf.flags & CANFD_BRS else 0
  {
  }

  /** Lengths and word counts fit together for every length code. */
  lemma LengthBack(cf: Frame, ffw: bv32)
    requires cf.len <= CANFD_MAX_DLEN && Dlc(ffw) == Len2Dlc(cf.len) && (Fdf(ffw) <==> cf.fd)
    requires Rtr(ffw) ==> Remote(cf.canId) && !cf.fd
    requires Rwcnt(ffw) == RwcntFor(Dlc(ffw), Rtr(ffw), Fdf(ffw))
    ensures Safe(ffw) && DecodedLen(ffw) == ReceivedLen(cf)
    ensures !Rtr(ffw) ==>
              BusLen(Dlc(ffw), Rtr(ffw), Fdf(ffw)) == ReceivedLen(cf) && CopyWords(ffw) == WordsFor(ReceivedLen(cf))
  {
    LengthRoundTrip(cf.len);
    if cf.len <= 8 {
      SmallCode(cf.len);
      EightCode(cf.len);
    }
  }

  lemma EightCode(len: nat)
    requires len <= 8
    ensures Len2Dlc(len) >= 8 <==> len == 8
  {
    if len == 0 {} else if len == 1 {} else if len == 2 {} else if len == 3 {} else if len == 4 {}
    else if len == 5 {} else if len == 6 {} else if len == 7 {} else {}
  }

  lemma ImageWord(ram: seq<bv32>, base: nat, cf: Frame, j: nat)
    requires base + 20 <= |ram| && Holding(cf) && cf.len <= CANFD_MAX_DLEN && !Remote(cf.canId) && j < WordsFor(cf.len)
    ensures Image(ram, base, cf)[base + 4 + j] == WordAt(cf.data, 4 * j)
  {
  }

  lemma PayloadByte(ffw: bv32, ws: seq<bv32>, j: nat, n: nat)
    requires Safe(ffw) && |ws| == Rwcnt(ffw) && j < CopyWords(ffw) && n < 4
    ensures var g := Decode(ffw, ws);
            4 * j + n < |g.data| && 3 + j < |ws| && g.data[4 * j + n] == ByteOf(ws[3 + j], n)
  {
    CopyInBounds(ffw);
  }

  lemma BusByte(ram: seq<bv32>, base: nat, rx: seq<bv32>, j: nat, n: nat)
    requires base + 20 <= |ram| && Carried(ram, base, rx) && j < 16 && n < 4 && 4 + j < |rx|
    requires 4 * j + n < BusLen(Dlc(rx[0]), Rtr(rx[0]), Fdf(rx[0]))
    ensures ByteOf(rx[4 + j], n) == ByteOf(ram[base + 4 + j], n)
  {
    var k := 4 * j + n;
    assert k / 4 == j && k % 4 == n;
  }

  /** A byte of the array, through memory, bus and FIFO. */
  lemma ByteBack(image: seq<bv32>, base: nat, data: seq<bv8>, rx: seq<bv32>, j: nat, n: nat)
    requires base + 20 <= |image| && Carried(image, base, rx) && Safe(rx[0])
    requires j < CopyWords(rx[0]) && j < 16 && n < 4 && 4 * j + 4 <= |data|
    requires image[base + 4 + j] == WordAt(data, 4 * j)
    requires 4 * j + n < BusLen(Dlc(rx[0]), Rtr(rx[0]), Fdf(rx[0]))
    ensures var g := Decode(rx[0], rx[1..]);
            4 * j + n < |g.data| && g.data[4 * j + n] == data[4 * j + n]
  {
    PayloadByte(rx[0], rx[1..], j, n);
    BusByte(image, base, rx, j, n);
    ByteOfWord(data, 4 * j, n);
  }

  /** The payload bytes that both sides count come back as they were. */
  lemma DataBack(ram: seq<bv32>, base: nat, cf: Frame, rx: seq<bv32>, k: nat, received: nat)
    requires base + 20 <= |ram| && Holding(cf) && cf.len <= CANFD_MAX_DLEN && !Remote(cf.canId)
    requires Carried(Image(ram, base, cf), base, rx) && Safe(rx[0])
    requires BusLen(Dlc(rx[0]), Rtr(rx[0]), Fdf(rx[0])) == received && CopyWords(rx[0]) == WordsFor(received)
    requires k < cf.len && k < received
    ensures k < |Decode(rx[0], rx[1..]).data| && Decode(rx[0], rx[1..]).data[k] == cf.data[k]
  {
    var j := k / 4;
    ImageWord(ram, base, cf, j);
    ByteBack(Image(ram, base, cf), base, cf.data, rx, j, k - 4 * j);
  }

  /** Data words that the driver does not write are what the buffer held before: padding up to the
      coded length, and the whole payload of an FD frame with the remote flag. */
  lemma PaddingIsOld(ram: seq<bv32>, base: nat, cf: Frame, rx: seq<bv32>, j: nat, n: nat)
    requires base + 20 <= |ram| && Holding(cf) && cf.len <= CANFD_MAX_DLEN
    requires Carried(Image(ram, base, cf), base, rx) && Safe(rx[0]) && DataCount(cf) <= j < CopyWords(rx[0]) && n < 4
    requires j < 16 && 4 * j + n < BusLen(Dlc(rx[0]), Rtr(rx[0]), Fdf(rx[0]))
    ensures var g := Decode(rx[0], rx[1..]);
            4 * j + n < |g.data| && g.data[4 * j + n] == ByteOf(ram[base + 4 + j], n)
  {
    ImageKept(ram, base, cf, j);
    PaddingBack(Image(ram, base, cf), base, rx, j, n);
  }

  lemma ImageKept(ram: seq<bv32>, base: nat, cf: Frame, j: nat)
    requires base + 20 <= |ram| && Holding(cf) && DataCount(cf) <= j < 16
    ensures Image(ram, base, cf)[base + 4 + j] == ram[base + 4 + j]
  {
  }

  lemma PaddingBack(image: seq<bv32>, base: nat, rx: seq<bv32>, j: nat, n: nat)
    requires base + 20 <= |image| && Carried(image, base, rx) && Safe(rx[0]) && j < CopyWords(rx[0]) && j < 16 && n < 4
    requires 4 * j + n < BusLen(Dlc(rx[0]), Rtr(rx[0]), Fdf(rx[0]))
    ensures var g := Decode(rx[0], rx[1..]);
            4 * j + n < |g.data| && g.data[4 * j + n] == ByteOf(image[base + 4 + j], n)
  {
    PayloadByte(rx[0], rx[1..], j, n);
    BusByte(image, base, rx, j, n);
  }

  /** Everything but the payload follows from the format and identifier words. */
  lemma HeaderBack(cf: Frame, ffw: bv32, idw: bv32)
    requires cf.len <= CANFD_MAX_DLEN && FormatCarried(FormatWord(cf), ffw)
    requires IdCarried(Ide(ffw), IdWord(cf.canId), idw)
    ensures Safe(ffw) && DecodedLen(ffw) == ReceivedLen(cf) && DecodedId(ffw, idw) == CanonicalId(cf.canId, cf.fd)
    ensures (Fdf(ffw) <==> cf.fd) && DecodedFlags(ffw) & CANFD_BRS == if cf.fd then cf.flags & CANFD_BRS else 0
    ensures !Remote(cf.canId) ==>
              BusLen(Dlc(ffw), Rtr(ffw), Fdf(ffw)) == ReceivedLen(cf) && CopyWords(ffw) == WordsFor(ReceivedLen(cf))
  {
    FormatBits(cf);
    LengthBack(cf, ffw);
    IdBack(cf, ffw, idw);
    FlagsBack(cf, ffw);
  }

  /** `g` has the identifier bits and flags of `cf`, and its length rounded up. */
  predicate HeaderReturned(cf: Frame, g: Frame) {
    && g.canId == CanonicalId(cf.canId, cf.fd) && g.fd == cf.fd && g.len == ReceivedLen(cf)
    && g.flags & CANFD_BRS == if cf.fd then cf.flags & CANFD_BRS else 0
  }

  /** `g` has the payload bytes of `cf`. */
  predicate PayloadReturned(cf: Frame, g: Frame)
    requires cf.len <= |cf.data|
  {
    forall k: nat :: k < cf.len && k < g.len ==> k < |g.data| && g.data[k] == cf.data[k]
  }

  lemma DecodedHeader(cf: Frame, ffw: bv32, ws: seq<bv32>)
    requires cf.len <= CANFD_MAX_DLEN && FormatCarried(FormatWord(cf), ffw) && |ws| == Rwcnt(ffw) && |ws| > 0
    requires IdCarried(Ide(ffw), IdWord(cf.canId), ws[0])
    ensures Safe(ffw) && HeaderReturned(cf, Decode(ffw, ws))
  {
    HeaderBack(cf, ffw, ws[0]);
  }

  lemma DecodedPayload(ram: seq<bv32>, base: nat, cf: Frame, rx: seq<bv32>, received: nat)
    requires base + 20 <= |ram| && Holding(cf) && cf.len <= CANFD_MAX_DLEN && !Remote(cf.canId)
    requires Carried(Image(ram, base, cf), base, rx) && Safe(rx[0]) && Decode(rx[0], rx[1..]).len == received
    requires BusLen(Dlc(rx[0]), Rtr(rx[0]), Fdf(rx[0])) == received && CopyWords(rx[0]) == WordsFor(received)
    ensures PayloadReturned(cf, Decode(rx[0], rx[1..]))
  {
    forall k: nat | k < cf.len && k < received
      ensures k < |Decode(rx[0], rx[1..]).data| && Decode(rx[0], rx[1..]).data[k] == cf.data[k]
    {
      DataBack(ram, base, cf, rx, k, received);
    }
  }

  /** Every frame that can be inserted comes back with its identifier bits and flags, with its length
      rounded up to the next one that has a code, and with its payload unchanged. */
  lemma FrameRoundTrip(ram: seq<bv32>, base: nat, cf: Frame, rx: seq<bv32>)
    requires base + 20 <= |ram| && Holding(cf) && cf.len <= CANFD_MAX_DLEN
    requires Carried(Image(ram, base, cf), base, rx)
    ensures Safe(rx[0]) && HeaderReturned(cf, Decode(rx[0], rx[1..]))
    ensures !Remote(cf.canId) ==> PayloadReturned(cf, Decode(rx[0], rx[1..]))
  {
    DecodedHeader(cf, rx[0], rx[1..]);
    if !Remote(cf.canId) {
      HeaderBack(cf, rx[0], rx[1]);
      DecodedPayload(ram, base, cf, rx, ReceivedLen(cf));
    }
  }

  /** An FD frame with the remote flag comes back as a data frame of old buffer content. */
  lemma FdRemoteIsOld(ram: seq<bv32>, base: nat, cf: Frame, rx: seq<bv32>, k: nat)
    requires base + 20 <= |ram| && Holding(cf) && cf.len <= CANFD_MAX_DLEN && cf.fd && Remote(cf.canId)
    requires Carried(Image(ram, base, cf), base, rx) && k < ReceivedLen(cf)
    ensures Safe(rx[0])
    ensures var g := Decode(rx[0], rx[1..]);
            && !Remote(g.canId) && g.len == ReceivedLen(cf) && k < |g.data|
            && k / 4 < 16 && g.data[k] == ByteOf(ram[base + 4 + k / 4], k % 4)
  {
    hide BusLen, CopyWords, FormatWord, FormatCarried, IdCarried, IdWord;
    hide CanonicalId, Decode, ReceivedLen, Safe, Remote;
    DecodedHeader(cf, rx[0], rx[1..]);
    FdRemoteId(cf.canId);
    FdRemoteLength(cf, rx[0]);
    PaddingIsOld(ram, base, cf, rx, k / 4, k % 4);
  }

  lemma FdRemoteId(id: bv32)
    ensures !Remote(CanonicalId(id, true))
  {
  }

  lemma FdRemoteLength(cf: Frame, ffw: bv32)
    requires cf.len <= CANFD_MAX_DLEN && cf.fd && FormatCarried(FormatWord(cf), ffw)
    ensures BusLen(Dlc(ffw), Rtr(ffw), Fdf(ffw)) == ReceivedLen(cf) <= 64
    ensures Safe(ffw) && CopyWords(ffw) == WordsFor(ReceivedLen(cf))
  {
    FormatBits(cf);
    LengthBack(cf, ffw);
    LengthRoundTrip(cf.len);
  }

  // ------------------------------------------------------------ when nothing is changed

  /** An identifier as the bus knows it: no error flag, no FD remote frame, no bits beyond the mask. */
  predicate PlainId(id: bv32, fd: bool) {
    id & ERR_FLAG == 0 && !(fd && Remote(id)) && (!Extended(id) ==> id & 0x1FFF_F800 == 0)
  }

  /** A length that has a code. */
  predicate PlainLen(len: nat, fd: bool) {
    if fd then DlcLength(len) else len <= 8
  }

  /** The length comes back as it was exactly if it has a code. */
  lemma LenExactly(cf: Frame)
    requires cf.len <= CANFD_MAX_DLEN
    ensures ReceivedLen(cf) == cf.len <==> PlainLen(cf.len, cf.fd)
  {
    LengthRoundTrip(cf.len);
  }

  /** The identifier comes back as it was exactly if it is plain. */
  lemma IdExactly(id: bv32, fd: bool)
    ensures CanonicalId(id, fd) == id <==> PlainId(id, fd)
  {
    hide MaskedId, Extended, Remote;
    if Extended(id) {
      if Remote(id) {
        LongRemote(id);
      } else {
        LongData(id);
      }
    } else {
      if Remote(id) {
        ShortRemote(id);
      } else {
        ShortData(id);
      }
    }
  }

  lemma LongRemote(id: bv32)
    requires Extended(id) && Remote(id)
    ensures MaskedId(id) != id && (MaskedId(id) | RTR_FLAG == id <==> id & ERR_FLAG == 0)
  {
  }

  lemma LongData(id: bv32)
    requires Extended(id) && !Remote(id)
    ensures MaskedId(id) == id <==> id & ERR_FLAG == 0
  {
  }

  lemma ShortRemote(id: bv32)
    requires !Extended(id) && Remote(id)
    ensures MaskedId(id) != id && (MaskedId(id) | RTR_FLAG == id <==> id & ERR_FLAG == 0 && id & 0x1FFF_F800 == 0)
  {
  }

  lemma ShortData(id: bv32)
    requires !Extended(id) && !Remote(id)
    ensures MaskedId(id) == id <==> id & ERR_FLAG == 0 && id & 0x1FFF_F800 == 0
  {
  }
}
