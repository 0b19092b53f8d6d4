/** Frames as words: the format word, the identifier word and the data words, in both of the
    driver's layers. */
module Codec {
  import opened Frames

  const EFF_FLAG: bv32 := 0x8000_0000
  const RTR_FLAG: bv32 := 0x4000_0000
  const ERR_FLAG: bv32 := 0x2000_0000
  const SFF_MASK: bv32 := 0x7FF
  const EFF_MASK: bv32 := 0x1FFF_FFFF
  const CANFD_BRS: bv8 := 1
  const CANFD_ESI: bv8 := 2

  predicate Extended(id: bv32) {
    id & EFF_FLAG != 0
  }

  predicate Remote(id: bv32) {
    id & RTR_FLAG != 0
  }

  // ------------------------------------------------------------- length and its code

  /** `can_len2dlc`: the table, by its ranges. */
  function Len2Dlc(len: nat): bv32 {
    if len <= 8 then len as bv32
    else if len <= 12 then 9
    else if len <= 16 then 10
    else if len <= 20 then 11
    else if len <= 24 then 12
    else if len <= 32 then 13
    else if len <= 48 then 14
    else 15
  }

  /** `can_dlc2len`; the code is cut to its four bits. */
  function Dlc2Len(dlc: bv32): nat {
    var d := dlc & 0xF;
    if d <= 8 then d as nat
    else if d == 9 then 12
    else if d == 10 then 16
    else if d == 11 then 20
    else if d == 12 then 24
    else if d == 13 then 32
    else if d == 14 then 48
    else 64
  }

  /** A length that some code stands for. */
  predicate DlcLength(len: nat) {
    len <= 8 || len == 12 || len == 16 || len == 20 || len == 24 || len == 32 || len == 48 || len == 64
  }

  lemma SmallCode(len: nat)
    requires len <= 8
    ensures Len2Dlc(len) <= 8 && Len2Dlc(len) & 0xF == Len2Dlc(len) && Len2Dlc(len) as nat == len
  {
    if len == 0 {} else if len == 1 {} else if len == 2 {} else if len == 3 {} else if len == 4 {}
    else if len == 5 {} else if len == 6 {} else if len == 7 {} else {}
  }

  /** Coding and decoding a length rounds it up to the next length that has a code. */
  lemma LengthRoundTrip(len: nat)
    requires len <= CANFD_MAX_DLEN
    ensures var r := Dlc2Len(Len2Dlc(len));
            && Len2Dlc(len) <= 15 && DlcLength(r) && len <= r
            && (forall n :: len <= n && DlcLength(n) ==> r <= n)
            && (len <= 8 <==> Len2Dlc(len) <= 8)
  {
    if len <= 8 {
      SmallCode(len);
    }
  }

  /** Codes are given to lengths in increasing order. */
  lemma CodesInOrder(d: bv32, e: bv32)
    requires d < e <= 15
    ensures Dlc2Len(d) < Dlc2Len(e) && DlcLength(Dlc2Len(d)) && DlcLength(Dlc2Len(e))
  {
    CodeValue(d);
    CodeValue(e);
  }

  lemma CodeValue(d: bv32)
    requires d <= 15
    ensures d & 0xF == d && (d <= 8 ==> Dlc2Len(d) == d as nat <= 8)
  {
  }

  // ------------------------------------------------------------------ bytes and words

  /** The little-endian word at `data[i..i + 4]`. */
  function WordAt(data: seq<bv8>, i: nat): bv32
    requires i + 4 <= |data|
  {
    Join(data[i], data[i + 1], data[i + 2], data[i + 3])
  }

  function Join(a: bv8, b: bv8, c: bv8, d: bv8): bv32 {
    (a as bv32) | ((b as bv32) << 8) | ((c as bv32) << 16) | ((d as bv32) << 24)
  }

  function ByteOf(w: bv32, k: nat): bv8
    requires k < 4
  {
    if k == 0 then (w & 0xFF) as bv8
    else if k == 1 then ((w >> 8) & 0xFF) as bv8
    else if k == 2 then ((w >> 16) & 0xFF) as bv8
    else ((w >> 24) & 0xFF) as bv8
  }

  lemma ByteOfJoin(a: bv8, b: bv8, c: bv8, d: bv8)
    ensures var w := Join(a, b, c, d);
            ByteOf(w, 0) == a && ByteOf(w, 1) == b && ByteOf(w, 2) == c && ByteOf(w, 3) == d
  {
  }

  /** Splitting a word that was read from an array gives the array's bytes. */
  lemma ByteOfWord(data: seq<bv8>, i: nat, k: nat)
    requires i + 4 <= |data| && k < 4
    ensures ByteOf(WordAt(data, i), k) == data[i + k]
  {
    ByteOfJoin(data[i], data[i + 1], data[i + 2], data[i + 3]);
  }

  /** The first byte is the least significant one. */
  lemma LittleEndian(data: seq<bv8>, i: nat)
    requires i + 4 <= |data|
    ensures WordAt(data, i) == (data[i] as bv32) + (data[i + 1] as bv32) * 0x100
                               + (data[i + 2] as bv32) * 0x1_0000 + (data[i + 3] as bv32) * 0x100_0000
  {
    JoinIsSum(data[i], data[i + 1], data[i + 2], data[i + 3]);
  }

  lemma JoinIsSum(a: bv8, b: bv8, c: bv8, d: bv8)
    ensures Join(a, b, c, d) ==
              (a as bv32) + (b as bv32) * 0x100 + (c as bv32) * 0x1_0000 + (d as bv32) * 0x100_0000
  {
  }

  function WordsFor(len: nat): nat {
    (len + 3) / 4
  }

  // ------------------------------------------------------------------ encoding, mask style

  /** The payload array holds every word that is read for `len` bytes. */
  predicate Holding(cf: Frame) {
    4 * WordsFor(cf.len) <= |cf.data|
  }

  function FormatWord(cf: Frame): bv32 {
    var rtr: bv32 := if Remote(cf.canId) then 0x20 else 0;
    var ide: bv32 := if Extended(cf.canId) then 0x40 else 0;
    var fdf: bv32 := if cf.fd then 0x80 else 0;
    var brs: bv32 := if cf.fd && cf.flags & CANFD_BRS != 0 then 0x200 else 0;
    rtr | ide | fdf | brs | (Len2Dlc(cf.len) & 0xF)
  }

  function IdWord(id: bv32): bv32 {
    if Extended(id) then id & EFF_MASK else ((id & SFF_MASK) << 18) & 0x1FFC_0000
  }

  /** The number of data words written for a frame; none for a remote frame. */
  function DataCount(cf: Frame): nat {
    if Remote(cf.canId) then 0 else WordsFor(cf.len)
  }

  // ------------------------------------------------------------------ decoding, mask style

  predicate Ide(ffw: bv32) {
    (ffw & 0x40) >> 6 != 0
  }

  predicate Fdf(ffw: bv32) {
    (ffw & 0x80) >> 7 != 0
  }

  predicate Rtr(ffw: bv32) {
    (ffw & 0x20) >> 5 != 0
  }

  predicate Brs(ffw: bv32) {
    (ffw & 0x200) >> 9 != 0
  }

  predicate Esi(ffw: bv32) {
    (ffw & 0x400) >> 10 != 0
  }

  function Dlc(ffw: bv32): bv32 {
    ffw & 0xF
  }

  /** RWCNT: the number of words that follow the format word. */
  function Rwcnt(ffw: bv32): (n: nat)
    ensures n < 32
  {
    ((ffw & 0xF800) >> 11) as nat
  }

  /** The identifier in an identifier word. */
  function WordId(idw: bv32, extended: bool): bv32 {
    if extended then (idw & EFF_MASK) | EFF_FLAG else (idw >> 18) & SFF_MASK
  }

  function TaggedId(id: bv32, remote: bool): bv32 {
    if remote then id | RTR_FLAG else id
  }

  function DecodedId(ffw: bv32, idw: bv32): bv32 {
    TaggedId(WordId(idw, Ide(ffw)), !Fdf(ffw) && Rtr(ffw))
  }

  function DecodedFlags(ffw: bv32): bv8 {
    if !Fdf(ffw) then 0
    else (if Brs(ffw) then CANFD_BRS else 0) | (if Esi(ffw) then CANFD_ESI else 0)
  }

  /** Words of data in the FIFO after identifier and timestamp. */
  function WordCount(ffw: bv32): nat
    requires Rwcnt(ffw) >= 3
  {
    Rwcnt(ffw) - 3
  }

  function DecodedLen(ffw: bv32): nat
    requires Rwcnt(ffw) >= 3
  {
    if Dlc(ffw) <= 8 then Dlc(ffw) as nat
    else if Fdf(ffw) then 4 * WordCount(ffw)
    else 8
  }

  /** No more bytes are copied than `wc` words hold. */
  function CopyLen(len: nat, wc: nat): nat {
    if len > 4 * wc then 4 * wc else len
  }

  /** Words of data that are copied. */
  function CopyWords(ffw: bv32): nat
    requires Rwcnt(ffw) >= 3
  {
    WordsFor(CopyLen(DecodedLen(ffw), WordCount(ffw)))
  }

  /** Size of the payload array of the socket buffer that is allocated. */
  function Capacity(ffw: bv32): nat {
    if Fdf(ffw) then 64 else 8
  }

  lemma SmallDlc(ffw: bv32)
    ensures Dlc(ffw) <= 8 <==> Dlc(ffw) as nat <= 8
  {
  }

  /** Copying stays within the payload array for every format word, except an FD frame with a
      long code and more than 16 words of data. */
  lemma CopyInBounds(ffw: bv32)
    requires Rwcnt(ffw) >= 3
    ensures 4 * CopyWords(ffw) <= Capacity(ffw) <==> !(Fdf(ffw) && Dlc(ffw) > 8 && Rwcnt(ffw) > 19)
    ensures CopyWords(ffw) <= WordCount(ffw)
  {
    SmallDlc(ffw);
  }

  predicate Safe(ffw: bv32) {
    Rwcnt(ffw) >= 3 && (Fdf(ffw) && Dlc(ffw) > 8 ==> Rwcnt(ffw) <= 19)
  }

  /** The frame that the format word and the words after it stand for. */
  function Decode(ffw: bv32, ws: seq<bv32>): Frame
    requires Safe(ffw) && |ws| == Rwcnt(ffw)
  {
    CopyInBounds(ffw);
    var data := Payload(ws[3..], CopyWords(ffw), Capacity(ffw));
    Frame(DecodedId(ffw, ws[0]), DecodedLen(ffw), DecodedFlags(ffw), data, Fdf(ffw))
  }

  /** The first `n` words as bytes, in a zeroed array of `cap` bytes. */
  function Payload(ws: seq<bv32>, n: nat, cap: nat): seq<bv8>
    requires n <= |ws|
  {
    seq(cap, k requires 0 <= k < cap => if k < 4 * n then ByteOf(ws[k / 4], k % 4) else 0)
  }

  // ------------------------------------------------------------------- where the bits are

  /** The format word written: DLC in bits 3..0, RTR in 5, IDE in 6, FDF in 7, BRS in 9, nothing else. */
  lemma FormatLayout(cf: Frame)
    requires cf.len <= CANFD_MAX_DLEN
    ensures var w := FormatWord(cf);
            && w & 0xF == Len2Dlc(cf.len) && w & 0xFFFF_FD10 == 0
            && (w & 0x20 != 0 <==> Remote(cf.canId)) && (w & 0x40 != 0 <==> Extended(cf.canId))
            && (w & 0x80 != 0 <==> cf.fd) && (w & 0x200 != 0 <==> cf.fd && cf.flags & CANFD_BRS != 0)
  {
    LengthRoundTrip(cf.len);
    LayoutOf(Remote(cf.canId), Extended(cf.canId), cf.fd, cf.fd && cf.flags & CANFD_BRS != 0, Len2Dlc(cf.len));
  }

  lemma LayoutOf(rtr: bool, ide: bool, fd: bool, brs: bool, dlc: bv32)
    requires dlc <= 15
    ensures var w := (if rtr then 0x20 else 0) | (if ide then 0x40 else 0) | (if fd then 0x80 else 0)
                     | (if brs then 0x200 else 0) | (dlc & 0xF);
            && w & 0xF == dlc && w & 0xFFFF_FD10 == 0 && (w & 0x20 != 0 <==> rtr) && (w & 0x40 != 0 <==> ide)
            && (w & 0x80 != 0 <==> fd) && (w & 0x200 != 0 <==> brs)
  {
  }

  /** The identifier word written: the 11 bits of the base identifier in 28..18, the 18 of the extension in 17..0. */
  lemma IdLayout(id: bv32)
    ensures IdWord(id) < 0x2000_0000
    ensures Extended(id) ==> IdWord(id) >> 18 == (id >> 18) & 0x7FF && IdWord(id) & 0x3_FFFF == id & 0x3_FFFF
    ensures !Extended(id) ==> IdWord(id) >> 18 == id & 0x7FF && IdWord(id) & 0x3_FFFF == 0
  {
    if Extended(id) {
      LongLayout(id);
    } else {
      ShortLayout(id);
    }
  }

  lemma LongLayout(id: bv32)
    requires Extended(id)
    ensures IdWord(id) < 0x2000_0000
    ensures IdWord(id) >> 18 == (id >> 18) & 0x7FF && IdWord(id) & 0x3_FFFF == id & 0x3_FFFF
  {
  }

  lemma ShortLayout(id: bv32)
    requires !Extended(id)
    ensures IdWord(id) < 0x2000_0000 && IdWord(id) >> 18 == id & 0x7FF && IdWord(id) & 0x3_FFFF == 0
  {
  }

  /** The flags read: bit rate switch and error state of an FD frame, none of a classical one. */
  lemma FlagsExact(ffw: bv32)
    ensures DecodedFlags(ffw) & 0xFC == 0
    ensures DecodedFlags(ffw) & 1 != 0 <==> ffw & 0x80 != 0 && ffw & 0x200 != 0
    ensures DecodedFlags(ffw) & 2 != 0 <==> ffw & 0x80 != 0 && ffw & 0x400 != 0
  {
    FlagBits(ffw);
    FlagBytes(Fdf(ffw), Brs(ffw), Esi(ffw));
  }

  lemma FlagBits(ffw: bv32)
    ensures (Fdf(ffw) <==> ffw & 0x80 != 0) && (Brs(ffw) <==> ffw & 0x200 != 0) && (Esi(ffw) <==> ffw & 0x400 != 0)
  {
  }

  lemma FlagBytes(fdf: bool, brs: bool, esi: bool)
    ensures var f: bv8 := if !fdf then 0 else (if brs then CANFD_BRS else 0) | (if esi then CANFD_ESI else 0);
            f & 0xFC == 0 && (f & 1 != 0 <==> fdf && brs) && (f & 2 != 0 <==> fdf && esi)
  {
  }

  // ---------------------------------------------------------------- bit field style

  /** The bit field at position `at`, as wide as `mask`. */
  function GetField(w: bv32, mask: bv32, at: bv6): bv32
    requires at < 32
  {
    (w >> at) & mask
  }

  /** Assignment to that bit field. */
  function SetField(w: bv32, mask: bv32, at: bv6, v: bv32): bv32
    requires at < 32
  {
    (w & !(mask << at)) | ((v & mask) << at)
  }

  function HwFormatWord(cf: Frame): bv32 {
    var w1 := if Remote(cf.canId) then SetField(0, 1, 5, 1) else 0;
    var w2 := SetField(w1, 1, 6, if Extended(cf.canId) then 1 else 0);
    var w3 := SetField(w2, 0xF, 0, Len2Dlc(cf.len));
    var w4 := if cf.fd then SetField(w3, 1, 7, 1) else w3;
    if cf.fd && cf.flags & CANFD_BRS != 0 then SetField(w4, 1, 9, 1) else w4
  }

  /** `ctucan_hw_id_to_hwid`. */
  function HwIdWord(id: bv32): bv32 {
    if Extended(id) then SetField(SetField(0, 0x7FF, 18, (id & EFF_MASK) >> 18), 0x3_FFFF, 0, id & 0x3_FFFF)
    else SetField(0, 0x7FF, 18, id & SFF_MASK)
  }

  /** `ctucan_hw_hwid_to_id`. */
  function HwId(idw: bv32, extended: bool): bv32 {
    if extended then EFF_FLAG | (GetField(idw, 0x7FF, 18) << 18) | GetField(idw, 0x3_FFFF, 0)
    else GetField(idw, 0x7FF, 18)
  }

  function HwDecodedId(ffw: bv32, idw: bv32): bv32 {
    TaggedId(HwId(idw, GetField(ffw, 1, 6) == 1), GetField(ffw, 1, 7) != 1 && GetField(ffw, 1, 5) == 1)
  }

  function HwDecodedFlags(ffw: bv32): bv8 {
    if GetField(ffw, 1, 7) != 1 then 0
    else (if GetField(ffw, 1, 9) == 1 then CANFD_BRS else 0) | (if GetField(ffw, 1, 10) == 1 then CANFD_ESI else 0)
  }

  /** Both layers write the same format and identifier words. */
  lemma EncodersAgree(cf: Frame)
    ensures HwFormatWord(cf) == FormatWord(cf) && HwIdWord(cf.canId) == IdWord(cf.canId)
  {
    FormatAgrees(Remote(cf.canId), Extended(cf.canId), cf.fd, cf.flags & CANFD_BRS != 0, Len2Dlc(cf.len));
    IdWordsAgree(cf.canId);
  }

  lemma IdWordsAgree(id: bv32)
    ensures HwIdWord(id) == IdWord(id)
  {
    if Extended(id) {
      LongIdWords(id);
    } else {
      ShortIdWords(id);
    }
  }

  lemma LongIdWords(id: bv32)
    requires Extended(id)
    ensures HwIdWord(id) == IdWord(id) == id & EFF_MASK
  {
    LongIdSet(id);
  }

  lemma ShortIdWords(id: bv32)
    requires !Extended(id)
    ensures HwIdWord(id) == IdWord(id)
  {
    ShortIdSet(id);
  }

  lemma LongIdSet(id: bv32)
    ensures SetField(SetField(0, 0x7FF, 18, (id & 0x1FFF_FFFF) >> 18), 0x3_FFFF, 0, id & 0x3_FFFF) == id & 0x1FFF_FFFF
  {
  }

  lemma ShortIdSet(id: bv32)
    ensures SetField(0, 0x7FF, 18, id & 0x7FF) == ((id & 0x7FF) << 18) & 0x1FFC_0000
  {
  }

  lemma FormatAgrees(rtr: bool, ide: bool, fd: bool, brs: bool, dlc: bv32)
    ensures
      var w1 := if rtr then SetField(0, 1, 5, 1) else 0;
      var w2 := SetField(w1, 1, 6, if ide then 1 else 0);
      var w3 := SetField(w2, 0xF, 0, dlc);
      var w4 := if fd then SetField(w3, 1, 7, 1) else w3;
      (if fd && brs then SetField(w4, 1, 9, 1) else w4) ==
        (if rtr then 0x20 else 0) | (if ide then 0x40 else 0) | (if fd then 0x80 else 0)
        | (if fd && brs then 0x200 else 0) | (dlc & 0xF)
  {
  }

  /** Both layers read the same identifier out of every pair of words. */
  lemma IdsAgree(ffw: bv32, idw: bv32)
    ensures HwDecodedId(ffw, idw) == DecodedId(ffw, idw)
  {
    hide GetField, Rtr, Ide, Fdf, TaggedId, WordId, HwId;
    BitsAgree(ffw);
    WordIdsAgree(idw, Ide(ffw));
  }

  lemma WordIdsAgree(idw: bv32, extended: bool)
    ensures HwId(idw, extended) == WordId(idw, extended)
  {
    hide HwId, WordId;
    if extended {
      LongWordIds(idw);
    } else {
      ShortWordIds(idw);
    }
  }

  lemma LongWordIds(idw: bv32)
    ensures HwId(idw, true) == WordId(idw, true)
  {
    LongIdGet(idw);
  }

  lemma ShortWordIds(idw: bv32)
    ensures HwId(idw, false) == WordId(idw, false)
  {
    ShortIdGet(idw);
  }

  lemma LongIdGet(idw: bv32)
    ensures 0x8000_0000 | (GetField(idw, 0x7FF, 18) << 18) | GetField(idw, 0x3_FFFF, 0) ==
              (idw & 0x1FFF_FFFF) | 0x8000_0000
  {
  }

  lemma ShortIdGet(idw: bv32)
    ensures GetField(idw, 0x7FF, 18) == (idw >> 18) & 0x7FF
  {
  }

  lemma BitsAgree(ffw: bv32)
    ensures GetField(ffw, 1, 5) == 1 <==> Rtr(ffw)
    ensures GetField(ffw, 1, 6) == 1 <==> Ide(ffw)
    ensures GetField(ffw, 1, 7) == 1 <==> Fdf(ffw)
    ensures GetField(ffw, 1, 9) == 1 <==> Brs(ffw)
    ensures GetField(ffw, 1, 10) == 1 <==> Esi(ffw)
  {
  }

  /** ... and the same flags, code and word count out of every format word. */
  lemma FormatsAgree(ffw: bv32)
    ensures HwDecodedFlags(ffw) == DecodedFlags(ffw)
    ensures GetField(ffw, 0xF, 0) == Dlc(ffw) && GetField(ffw, 0x1F, 11) == (ffw & 0xF800) >> 11
    ensures GetField(ffw, 1, 7) == 1 <==> Fdf(ffw)
  {
    BitsAgree(ffw);
  }

  /** `rwcnt` as the bit field layer reads it. */
  function HwRwcnt(ffw: bv32): (n: nat)
    ensures n < 32
  {
    GetField(ffw, 0x1F, 11) as nat
  }

  function HwDecodedLen(ffw: bv32): nat
    requires HwRwcnt(ffw) >= 3
  {
    if GetField(ffw, 0xF, 0) <= 8 then GetField(ffw, 0xF, 0) as nat
    else if GetField(ffw, 1, 7) == 1 then 4 * (HwRwcnt(ffw) - 3)
    else 8
  }

  /** `ctucan_hw_read_rx_frame_ffw`: the frame, in an array of `cap` bytes; the timestamp aside. */
  function HwDecode(ffw: bv32, ws: seq<bv32>, cap: nat): Frame
    requires 3 <= HwRwcnt(ffw) == |ws|
  {
    var wc := HwRwcnt(ffw) - 3;
    var n := WordsFor(CopyLen(HwDecodedLen(ffw), wc));
    var data := Payload(ws[3..], n, cap);
    Frame(HwDecodedId(ffw, ws[0]), HwDecodedLen(ffw), HwDecodedFlags(ffw), data, GetField(ffw, 1, 7) == 1)
  }

  lemma LengthsAgree(ffw: bv32)
    ensures HwRwcnt(ffw) == Rwcnt(ffw) && (Rwcnt(ffw) >= 3 ==> HwDecodedLen(ffw) == DecodedLen(ffw))
  {
    FormatsAgree(ffw);
  }

  /** Both layers read the same frame, from the same number of words, out of every word stream. */
  lemma DecodersAgree(ffw: bv32, ws: seq<bv32>)
    requires Safe(ffw) && |ws| == Rwcnt(ffw)
    ensures HwRwcnt(ffw) == Rwcnt(ffw) && HwDecode(ffw, ws, Capacity(ffw)) == Decode(ffw, ws)
  {
    LengthsAgree(ffw);
    FormatsAgree(ffw);
    IdsAgree(ffw, ws[0]);
  }

  /** The two words of a timestamp. */
  function Low(ts: bv64): bv32 {
    (ts & 0xFFFF_FFFF) as bv32
  }

  function High(ts: bv64): bv32 {
    (ts >> 32) as bv32
  }

  /** The timestamp that two words stand for. */
  function Stamp(low: bv32, high: bv32): bv64 {
    (low as bv64) | ((high as bv64) << 32)
  }

  lemma StampRoundTrip(ts: bv64)
    ensures Stamp(Low(ts), High(ts)) == ts
  {
  }

  /** The identifier conversions of the bit field layer are inverse on valid identifiers. */
  lemma IdRoundTrip(id: bv32)
    ensures HwId(HwIdWord(id), Extended(id)) == id & (if Extended(id) then EFF_FLAG | EFF_MASK else SFF_MASK)
  {
    IdWordsAgree(id);
    if Extended(id) {
      LongIdGet(id & 0x1FFF_FFFF);
    } else {
      ShortIdGet(((id & 0x7FF) << 18) & 0x1FFC_0000);
    }
  }
}
