/** From the timing struct to the bit timing registers BTR and BTR_FD. */
module Btr {
  import opened Frames
  import opened Division
  import opened SamplePoint
  import opened BitSearch
  import opened BitTiming
  import opened BitTheorems
  import opened BitResults
  import Codec

  const EPERM: int := -1

  /** Every member of the struct is a 32-bit word. */
  predicate Words(t: Timing) {
    t.propSeg < U32 && t.phaseSeg1 < U32 && t.phaseSeg2 < U32 && t.brp < U32 && t.sjw < U32
  }

  /** The longest phase segment 1 the register can hold. */
  function MaxPh1(nominal: bool): nat {
    if nominal then 63 else 31
  }

  function MaxProp(nominal: bool): nat {
    if nominal then 127 else 63
  }

  function MaxPh2(nominal: bool): nat {
    if nominal then 63 else 31
  }

  /** What does not fit into phase segment 1 moves to the propagation segment. */
  function Redistribute(t: Timing, nominal: bool): Timing
    requires Words(t)
  {
    var m := MaxPh1(nominal);
    if t.phaseSeg1 > m then t.(propSeg := W(t.propSeg + W(t.phaseSeg1 - m)), phaseSeg1 := m) else t
  }

  /** The five fields of either register. */
  datatype Fields = Fields(prop: bv32, ph1: bv32, ph2: bv32, brp: bv32, sjw: bv32)

  function FieldsOf(t: Timing): Fields
    requires Words(t)
  {
    Fields(t.propSeg as bv32, t.phaseSeg1 as bv32, t.phaseSeg2 as bv32, t.brp as bv32, t.sjw as bv32)
  }

  // --------------------------------------------------------------- mask style packing

  function Word(f: Fields, nominal: bool): bv32 {
    if nominal then
      (f.prop & 0x7F) | ((f.ph1 << 7) & 0x1F80) | ((f.ph2 << 13) & 0x7_E000)
      | ((f.brp << 19) & 0x7F8_0000) | ((f.sjw << 27) & 0xF800_0000)
    else
      (f.prop & 0x3F) | ((f.ph1 << 7) & 0xF80) | ((f.ph2 << 13) & 0x3_E000)
      | ((f.brp << 19) & 0x7F8_0000) | ((f.sjw << 27) & 0xF800_0000)
  }

  /** Reading the fields back, as the core does. */
  function Unpack(w: bv32, nominal: bool): Fields {
    if nominal then
      Fields(w & 0x7F, (w >> 7) & 0x3F, (w >> 13) & 0x3F, (w >> 19) & 0xFF, (w >> 27) & 0x1F)
    else
      Fields(w & 0x3F, (w >> 7) & 0x1F, (w >> 13) & 0x1F, (w >> 19) & 0xFF, (w >> 27) & 0x1F)
  }

  // ----------------------------------------------------------- bit field style packing

  function FieldWord(f: Fields, nominal: bool): bv32 {
    var w0 := Codec.SetField(0, if nominal then 0x7F else 0x3F, 0, f.prop);
    var w1 := Codec.SetField(w0, if nominal then 0x3F else 0x1F, 7, f.ph1);
    var w2 := Codec.SetField(w1, if nominal then 0x3F else 0x1F, 13, f.ph2);
    var w3 := Codec.SetField(w2, 0xFF, 19, f.brp);
    Codec.SetField(w3, 0x1F, 27, f.sjw)
  }

  /** Both layers write the same word. */
  lemma LayersAgree(f: Fields, nominal: bool)
    ensures FieldWord(f, nominal) == Word(f, nominal)
  {
  }

  /** Where the fields are: from bit 0, 7, 13, 19 and 27 up, in both registers. */
  lemma WordLayout(prop: bv32, ph1: bv32, ph2: bv32, brp: bv32, sjw: bv32, nominal: bool)
    requires prop < (if nominal then 0x80 else 0x40) && ph1 < (if nominal then 0x40 else 0x20)
    requires ph2 < (if nominal then 0x40 else 0x20) && brp < 0x100 && sjw < 0x20
    ensures Word(Fields(prop, ph1, ph2, brp, sjw), nominal) ==
              prop | (ph1 << 7) | (ph2 << 13) | (brp << 19) | (sjw << 27)
  {
    HighFields(brp, sjw);
    if nominal {
      NominalFields(prop, ph1, ph2);
    } else {
      DataFields(prop, ph1, ph2);
    }
  }

  lemma HighFields(brp: bv32, sjw: bv32)
    requires brp < 0x100 && sjw < 0x20
    ensures (brp << 19) & 0x7F8_0000 == brp << 19 && (sjw << 27) & 0xF800_0000 == sjw << 27
  {
  }

  lemma NominalFields(prop: bv32, ph1: bv32, ph2: bv32)
    requires prop < 0x80 && ph1 < 0x40 && ph2 < 0x40
    ensures prop & 0x7F == prop && (ph1 << 7) & 0x1F80 == ph1 << 7 && (ph2 << 13) & 0x7_E000 == ph2 << 13
  {
  }

  lemma DataFields(prop: bv32, ph1: bv32, ph2: bv32)
    requires prop < 0x40 && ph1 < 0x20 && ph2 < 0x20
    ensures prop & 0x3F == prop && (ph1 << 7) & 0xF80 == ph1 << 7 && (ph2 << 13) & 0x3_E000 == ph2 << 13
  {
  }

  /** Packing loses nothing exactly when each field is within its width. */
  lemma PackLossless(f: Fields, nominal: bool)
    ensures Unpack(Word(f, nominal), nominal) == f <==>
              && f.prop < (if nominal then 0x80 else 0x40) && f.ph1 < (if nominal then 0x40 else 0x20)
              && f.ph2 < (if nominal then 0x40 else 0x20) && f.brp < 0x100 && f.sjw < 0x20
  {
  }

  lemma Below32(x: nat)
    requires x < U32
    ensures (x as bv32) < 0x20 <==> x < 32
  {
  }

  lemma Below64(x: nat)
    requires x < U32
    ensures (x as bv32) < 0x40 <==> x < 64
  {
  }

  lemma Below128(x: nat)
    requires x < U32
    ensures (x as bv32) < 0x80 <==> x < 128
  {
  }

  lemma Below256(x: nat)
    requires x < U32
    ensures (x as bv32) < 0x100 <==> x < 256
  {
  }

  // ------------------------------------------------------------------- the whole call

  function Min(a: nat, b: nat): nat {
    if a < b then a else b
  }

  /** Phase segment 1 keeps as much as its field holds, and the call changes nothing if all of it fits. The call
      leaves the number of quanta alone, and a second one changes nothing more. */
  lemma RedistributeKeeps(t: Timing, nominal: bool)
    requires Words(t)
    ensures var u := Redistribute(t, nominal);
            && Words(u) && W(Tseg1(u)) == W(Tseg1(t))
            && u.phaseSeg1 == Min(t.phaseSeg1, if nominal then 63 else 31)
            && (t.phaseSeg1 <= (if nominal then 63 else 31) ==> u == t)
            && (Tseg1(t) < U32 ==> Tseg1(u) == Tseg1(t))
            && u == t.(propSeg := u.propSeg, phaseSeg1 := u.phaseSeg1) && Redistribute(u, nominal) == u
  {
  }

  /** Register word `w` holds the segments, the prescaler and the jump width of `t`. */
  predicate Holds(w: bv32, t: Timing, nominal: bool) {
    Words(t) && if nominal then NominalHolds(w, t) else DataHolds(w, t)
  }

  predicate NominalHolds(w: bv32, t: Timing)
    requires Words(t)
  {
    && w & 0x7F == t.propSeg as bv32 && (w >> 7) & 0x3F == t.phaseSeg1 as bv32
    && (w >> 13) & 0x3F == t.phaseSeg2 as bv32 && (w >> 19) & 0xFF == t.brp as bv32 && (w >> 27) & 0x1F == t.sjw as bv32
  }

  predicate DataHolds(w: bv32, t: Timing)
    requires Words(t)
  {
    && w & 0x3F == t.propSeg as bv32 && (w >> 7) & 0x1F == t.phaseSeg1 as bv32
    && (w >> 13) & 0x1F == t.phaseSeg2 as bv32 && (w >> 19) & 0xFF == t.brp as bv32 && (w >> 27) & 0x1F == t.sjw as bv32
  }

  lemma HoldsExact(w: bv32, t: Timing, nominal: bool)
    requires Words(t)
    ensures Holds(w, t, nominal) <==> Unpack(w, nominal) == FieldsOf(t)
  {
    hide NominalHolds, DataHolds, Unpack, FieldsOf;
    if nominal {
      NominalHoldsExact(w, t);
    } else {
      DataHoldsExact(w, t);
    }
  }

  lemma NominalHoldsExact(w: bv32, t: Timing)
    requires Words(t)
    ensures NominalHolds(w, t) <==> Unpack(w, true) == FieldsOf(t)
  {
  }

  lemma DataHoldsExact(w: bv32, t: Timing)
    requires Words(t)
    ensures DataHolds(w, t) <==> Unpack(w, false) == FieldsOf(t)
  {
  }

  /** The timing, as given, is within the register once phase segment 1 is cut to its field. */
  predicate Fitting(t: Timing, nominal: bool) {
    && (if t.phaseSeg1 <= MaxPh1(nominal) then t.propSeg <= MaxProp(nominal)
        else W(Tseg1(t) - MaxPh1(nominal)) <= MaxProp(nominal))
    && t.phaseSeg2 <= MaxPh2(nominal) && t.brp <= 255 && t.sjw <= 31
  }

  /** The register holds the timing that ends up in the struct exactly when it fits; and, if the sum of
      the two segments does not wrap, that is when the propagation segment is within its field and
      the sum within both fields. */
  lemma RegisterExact(t: Timing, nominal: bool)
    requires Words(t)
    ensures var u := Redistribute(t, nominal);
            Words(u) && (Holds(Word(FieldsOf(u), nominal), u, nominal) <==> Fitting(t, nominal))
    ensures Tseg1(t) < U32 ==>
              (Fitting(t, nominal) <==>
                 && t.propSeg <= MaxProp(nominal) && Tseg1(t) <= MaxProp(nominal) + MaxPh1(nominal)
                 && t.phaseSeg2 <= MaxPh2(nominal) && t.brp <= 255 && t.sjw <= 31)
  {
    hide Word, Unpack, FieldsOf, Holds;
    var u := Redistribute(t, nominal);
    RedistributeKeeps(t, nominal);
    PackLossless(FieldsOf(u), nominal);
    InWidth(u, nominal);
    HoldsExact(Word(FieldsOf(u), nominal), u, nominal);
  }

  lemma InWidth(u: Timing, nominal: bool)
    requires Words(u)
    ensures var f := FieldsOf(u);
            (&& f.prop < (if nominal then 0x80 else 0x40) && f.ph1 < (if nominal then 0x40 else 0x20)
             && f.ph2 < (if nominal then 0x40 else 0x20) && f.brp < 0x100 && f.sjw < 0x20) <==>
            (&& u.propSeg <= MaxProp(nominal) && u.phaseSeg1 <= MaxPh1(nominal) && u.phaseSeg2 <= MaxPh2(nominal)
             && u.brp <= 255 && u.sjw <= 31)
  {
    if nominal {
      Below128(u.propSeg);
      Below64(u.phaseSeg1);
      Below64(u.phaseSeg2);
    } else {
      Below64(u.propSeg);
      Below32(u.phaseSeg1);
      Below32(u.phaseSeg2);
    }
    Below256(u.brp);
    Below32(u.sjw);
  }

  function ShippedLimits(nominal: bool): Limits {
    if nominal then NOMINAL_LIMITS else DATA_LIMITS
  }

  /** With the shipped limits every calculated timing reaches the register without loss; and what is there
      meets the request exactly when the chosen sum of segments is sound. */
  lemma CalcReachesRegister(freq: nat, t: Timing, nominal: bool)
    requires NoOverflow(RequestOf(freq, ShippedLimits(nominal), t)) && CalcTiming(freq, ShippedLimits(nominal), t).Some?
    ensures var l := ShippedLimits(nominal);
            var c, tseg := CalcTiming(freq, l, t).value, ChosenTseg(freq, l, t);
            && Words(c) && Searched(l, tseg)
            && var u := Redistribute(c, nominal);
            && Words(u) && Holds(Word(FieldsOf(u), nominal), u, nominal)
            && (Meets(freq, l, t, u) <==> Sound(l, Nominal(t), tseg))
  {
    hide Meets, Sound, Holds, Word, FieldsOf, Redistribute;
    var l := ShippedLimits(nominal);
    var c := CalcTiming(freq, l, t).value;
    CalcValid(freq, l, t);
    CalcIsSmall(freq, l, t);
    RegisterExact(c, nominal);
    RedistributeKeeps(c, nominal);
    KeptMeets(freq, l, t, c, Redistribute(c, nominal));
  }

  lemma CalcIsSmall(freq: nat, l: Limits, t: Timing)
    requires NoOverflow(RequestOf(freq, l, t)) && CalcTiming(freq, l, t).Some? && l.sjwMax >= 1
    ensures var c := CalcTiming(freq, l, t).value;
            && c.propSeg <= c.phaseSeg1 && Tseg1(c) <= l.tseg1Max && c.phaseSeg2 <= l.tseg2Max
            && c.brp <= l.brpMax && c.sjw <= l.sjwMax
  {
    hide Result, FinalSplit, TooFar;
    CalcQuantum(freq, l, t);
  }

  lemma KeptMeets(freq: nat, l: Limits, t: Timing, c: Timing, u: Timing)
    requires Tseg1(u) == Tseg1(c) && u == c.(propSeg := u.propSeg, phaseSeg1 := u.phaseSeg1)
    ensures Meets(freq, l, t, u) <==> Meets(freq, l, t, c)
  {
    assert Quanta(u) == Quanta(c);
  }

  /** Fix-up bounds only the sum of the two segments: it accepts a timing that the register cannot hold. */
  lemma FixupTooLong()
    ensures var t := Timing(0, 0, 10, 150, 2, 30, 1, 0);
            var (err, u) := FixTiming(100_000_000, NOMINAL_LIMITS, t);
            && err == 0 && Words(u)
            && var v := Redistribute(u, true); Words(v) && !Holds(Word(FieldsOf(v), true), v, true)
  {
    var t := Timing(0, 0, 10, 150, 2, 30, 1, 0);
    var (err, u) := FixTiming(100_000_000, NOMINAL_LIMITS, t);
    RegisterExact(u, true);
  }

  // --------------------------------------------------------------------- the driver

  method PackWord(prop: bv32, ph1: bv32, ph2: bv32, brp: bv32, sjw: bv32, nominal: bool) returns (w: bv32)
    ensures w == Word(Fields(prop, ph1, ph2, brp, sjw), nominal)
  {
    if nominal {
      w := prop & 0x7F;
      w := w | ((ph1 << 7) & 0x1F80);
      w := w | ((ph2 << 13) & 0x7_E000);
      w := w | ((brp << 19) & 0x7F8_0000);
      w := w | ((sjw << 27) & 0xF800_0000);
    } else {
      w := prop & 0x3F;
      w := w | ((ph1 << 7) & 0xF80);
      w := w | ((ph2 << 13) & 0x3_E000);
      w := w | ((brp << 19) & 0x7F8_0000);
      w := w | ((sjw << 27) & 0xF800_0000);
    }
  }

  /** The first half of `ctucan_set_btr`: phase segment 1 is cut to its field. */
  method CutPh1(bt: CanBittiming, nominal: bool)
    requires Words(bt.Value())
    modifies bt
    ensures bt.Value() == Redistribute(old(bt.Value()), nominal)
  {
    var prop, ph1 := bt.propSeg, bt.phaseSeg1;
    var maxPh1 := 31;
    if nominal {
      maxPh1 := 63;
    }
    if ph1 > maxPh1 {
      prop := W(prop + W(ph1 - maxPh1));
      ph1 := maxPh1;
      bt.propSeg := prop;
      bt.phaseSeg1 := ph1;
    }
  }

  /** The part of the controller the call touches. */
  class Controller {
    var enabled: bool
    var btr: bv32
    var btrFd: bv32

    /** `ctucan_set_btr`. */
    method SetBtr(bt: CanBittiming, nominal: bool) returns (err: int)
      requires Words(bt.Value())
      modifies this, bt
      ensures enabled == old(enabled)
      ensures enabled ==> err == EPERM && unchanged(this) && unchanged(bt)
      ensures !enabled ==> err == 0 && bt.Value() == Redistribute(old(bt.Value()), nominal)
      ensures !enabled ==> Words(bt.Value()) && (if nominal then btr else btrFd) == Word(FieldsOf(bt.Value()), nominal)
      ensures if nominal then btrFd == old(btrFd) else btr == old(btr)
    {
      if enabled {
        return EPERM;
      }
      RedistributeKeeps(bt.Value(), nominal);
      CutPh1(bt, nominal);
      var f := FieldsOf(bt.Value());
      var w := PackWord(f.prop, f.ph1, f.ph2, f.brp, f.sjw, nominal);
      if nominal {
        btr := w;
      } else {
        btrFd := w;
      }
      err := 0;
    }

    /** `ctucan_hw_set_nom_bittiming`: the bit field layer sets what the mask style layer sets while the
        controller is disabled, and does not ask whether it is. */
    method HwSetNomBittiming(nbt: CanBittiming)
      requires Words(nbt.Value())
      modifies `btr, nbt
      ensures nbt.Value() == Redistribute(old(nbt.Value()), true)
      ensures Words(nbt.Value()) && btr == Word(FieldsOf(nbt.Value()), true)
    {
      RedistributeKeeps(nbt.Value(), true);
      HwCutPh1(nbt, true, 63);
      var f := FieldsOf(nbt.Value());
      LayersAgree(f, true);
      btr := FieldWord(f, true);
    }

    /** `ctucan_hw_set_data_bittiming`. */
    method HwSetDataBittiming(dbt: CanBittiming)
      requires Words(dbt.Value())
      modifies `btrFd, dbt
      ensures dbt.Value() == Redistribute(old(dbt.Value()), false)
      ensures Words(dbt.Value()) && btrFd == Word(FieldsOf(dbt.Value()), false)
    {
      RedistributeKeeps(dbt.Value(), false);
      HwCutPh1(dbt, false, 31);
      var f := FieldsOf(dbt.Value());
      LayersAgree(f, false);
      btrFd := FieldWord(f, false);
    }
  }

  /** The bit field layer's own cut of phase segment 1. */
  method HwCutPh1(bt: CanBittiming, nominal: bool, limit: nat)
    requires Words(bt.Value()) && limit == (if nominal then 63 else 31)
    modifies bt
    ensures bt.Value() == Redistribute(old(bt.Value()), nominal)
  {
    var propSeg := bt.propSeg;
    var phaseSeg1 := bt.phaseSeg1;
    if phaseSeg1 > limit {
      propSeg := W(propSeg + W(phaseSeg1 - limit));
      phaseSeg1 := limit;
      bt.propSeg := propSeg;
      bt.phaseSeg1 := phaseSeg1;
    }
  }
}
