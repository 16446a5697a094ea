/** The Armv8 GCM multiply: registers are polynomials of at most 128 bits, lanes are 64 bits wide. */
module GcmAarch64 {
  import opened Poly
  import opened Gf128

  /** Lane 0 and lane 1 of a register. */
  function Lane0(a: Poly): Poly { set i | i in a && i < 64 }
  function Lane1(a: Poly): Poly { set i | i in a && 64 <= i :: i - 64 }

  /** Carry-less 64 by 64 bit product of the low lanes, and of the high lanes. */
  function PmullLow(a: Poly, b: Poly): Poly { MulUpTo(Lane0(a), Lane0(b), 64) }
  function PmullHigh(a: Poly, b: Poly): Poly { MulUpTo(Lane1(a), Lane1(b), 64) }

  /** vextq_u8(a, b, 8): the high lane of a below the low lane of b. */
  function Ext8(a: Poly, b: Poly): Poly { Lane1(a) + Shift(Lane0(b), 64) }

  /** The three overlapping 128-bit parts of a 256-bit product. */
  datatype Wide = Wide(high: Poly, middle: Poly, low: Poly)

  function PolyMult128(a: Poly, b: Poly): Wide {
    var h := PmullHigh(a, b);
    var l := PmullLow(a, b);
    var c := Ext8(b, b);
    var d := PmullHigh(a, c);
    var e := PmullLow(a, c);
    var m := Plus(d, e);
    Wide(h, m, l)
  }

  /** 0x87 in both 64-bit lanes. */
  const MODULO: Poly := {0, 1, 2, 7, 64, 65, 66, 71}

  function PolyMultReduce(input: Wide): Poly {
    var c := PmullHigh(input.high, MODULO);
    var d := PmullLow(input.high, MODULO);
    var e := Plus(c, input.middle);
    var f := PmullHigh(e, MODULO);
    var g := Ext8({}, e);
    var n := Plus(d, input.low);
    var o := Plus(n, f);
    Plus(o, g)
  }

  /** The 256-bit number that the three parts stand for. */
  function Value(w: Wide): Poly { Plus(Shift(w.high, 128), Plus(Shift(w.middle, 64), w.low)) }

  lemma InLanes(a: Poly, i: nat)
    ensures i in Lane0(a) <==> i in a && i < 64
    ensures i in Lane1(a) <==> i + 64 in a
  {
    if i + 64 in a {
      assert (i + 64) - 64 in Lane1(a);
    }
  }

  lemma LanesMakeTheRegister(a: Poly)
    ensures a == Plus(Lane0(a), Shift(Lane1(a), 64))
    ensures Below(Lane0(a), 64) && (Below(a, 128) ==> Below(Lane1(a), 64))
  {
    forall i: nat
      ensures i in a <==> i in Plus(Lane0(a), Shift(Lane1(a), 64))
    {
      InLanes(a, i);
      InShift(Lane1(a), 64, i);
      if 64 <= i {
        InLanes(a, i - 64);
      }
    }
  }

  lemma LanesOfExt8(a: Poly, b: Poly)
    requires Below(a, 128)
    ensures Lane0(Ext8(a, b)) == Lane1(a) && Lane1(Ext8(a, b)) == Lane0(b)
  {
    forall i: nat
      ensures i in Lane0(Ext8(a, b)) <==> i in Lane1(a)
      ensures i in Lane1(Ext8(a, b)) <==> i in Lane0(b)
    {
      InLanes(Ext8(a, b), i);
      InLanes(a, i);
      InLanes(a, i + 64);
      InLanes(b, i);
      InShift(Lane0(b), 64, i);
      InShift(Lane0(b), 64, i + 64);
    }
  }

  lemma LanesOfModulo()
    ensures Lane0(MODULO) == R && Lane1(MODULO) == R
  {
    forall i: nat
      ensures i in Lane0(MODULO) <==> i in R
      ensures i in Lane1(MODULO) <==> i in R
    {
      InLanes(MODULO, i);
    }
  }

  /** One 64-bit lane times a 128-bit register. */
  lemma LaneTimesRegister(x: Poly, b: Poly)
    ensures MulUpTo(x, b, 64) == Plus(MulUpTo(x, Lane0(b), 64), Shift(MulUpTo(x, Lane1(b), 64), 64))
  {
    LanesMakeTheRegister(b);
    MulPlusRight(x, Lane0(b), Shift(Lane1(b), 64), 64);
    MulShiftRight(x, Lane1(b), 64, 64);
  }

  /** A product splits over the lanes of its left factor. */
  lemma RegisterTimes(a: Poly, b: Poly)
    requires Below(a, 128)
    ensures Product(a, b) == Plus(MulUpTo(Lane0(a), b, 64), Shift(MulUpTo(Lane1(a), b, 64), 64))
  {
    LanesMakeTheRegister(a);
    MulPlusLeft(Lane0(a), Shift(Lane1(a), 64), b, 128);
    MulExtend(Lane0(a), b, 64, 128);
    MulShiftLeft(Lane1(a), b, 64, 64);
  }

  /** The three parts carry the exact product. */
  lemma MultIsProduct(a: Poly, b: Poly)
    requires Below(a, 128) && Below(b, 128)
    ensures Value(PolyMult128(a, b)) == Product(a, b)
    ensures Below(PolyMult128(a, b).high, 127)
    ensures Below(PolyMult128(a, b).middle, 127)
    ensures Below(PolyMult128(a, b).low, 127)
  {
    hide Plus, Shift, MulUpTo, Lane0, Lane1, Ext8;
    LanesOfExt8(b, b);
    RegisterTimes(a, b);
    LaneTimesRegister(Lane0(a), b);
    LaneTimesRegister(Lane1(a), b);
    var ll, lh := MulUpTo(Lane0(a), Lane0(b), 64), MulUpTo(Lane0(a), Lane1(b), 64);
    var hl, hh := MulUpTo(Lane1(a), Lane0(b), 64), MulUpTo(Lane1(a), Lane1(b), 64);
    ShiftPlus(hl, Shift(hh, 64), 64);
    ShiftShift(hh, 64, 64);
    FourParts(ll, Shift(lh, 64), Shift(hl, 64), Shift(hh, 128));
    ShiftPlus(hl, lh, 64);
    LanesMakeTheRegister(a);
    LanesMakeTheRegister(b);
    MulBelow(Lane0(a), Lane0(b), 64, 64);
    MulBelow(Lane0(a), Lane1(b), 64, 64);
    MulBelow(Lane1(a), Lane0(b), 64, 64);
    MulBelow(Lane1(a), Lane1(b), 64, 64);
    PlusBelow(hl, lh, 127);
  }

  lemma PlusBelow(a: Poly, b: Poly, n: nat)
    requires Below(a, n) && Below(b, n)
    ensures Below(Plus(a, b), n)
  {
  }

  lemma FourParts(ll: Poly, lh: Poly, hl: Poly, hh: Poly)
    ensures Plus(Plus(ll, lh), Plus(hl, hh)) == Plus(hh, Plus(Plus(hl, lh), ll))
  {
  }

  /** Multiplying the high lane of e, standing at z^128, by R instead leaves the value congruent. */
  lemma FoldRegister(h: Poly)
    requires Below(h, 128)
    ensures TimesF(h) == Plus(Shift(h, 128), Plus(PmullLow(h, MODULO), Shift(PmullHigh(h, MODULO), 64)))
  {
    hide Plus, Shift, MulUpTo, Lane0, Lane1;
    TimesFExpands(h);
    RegisterTimes(h, R);
    LanesOfModulo();
  }

  lemma FoldLane(x: Poly)
    requires Below(x, 64)
    ensures TimesF(x) == Plus(Shift(x, 128), MulUpTo(x, R, 64))
  {
    TimesFExpands(x);
    MulExtend(x, R, 64, 128);
  }

  /** Whatever the three parts are, the reduction leaves the remainder of their value. */
  lemma ReduceIsRemainder(w: Wide)
    requires Below(w.high, 128) && Below(w.middle, 128) && Below(w.low, 128)
    ensures var e := Plus(PmullHigh(w.high, MODULO), w.middle);
      LeavesRemainder(Value(w), Plus(w.high, Lane1(e)), PolyMultReduce(w))
  {
    hide Plus, Shift, MulUpTo, Lane0, Lane1, Ext8, Below, TimesF;
    var h := w.high;
    var c, d := PmullHigh(h, MODULO), PmullLow(h, MODULO);
    var e := Plus(c, w.middle);
    var f := PmullHigh(e, MODULO);
    LanesOfModulo();
    Lane64(h);
    ProductWithR(Lane0(h));
    ProductWithR(Lane1(h));
    PlusBelow(c, w.middle, 128);
    Lane64(e);
    ProductWithR(Lane1(e));
    PlusBelow(h, Lane1(e), 128);
    FoldRegister(h);
    FoldLane(Lane1(e));
    TimesFPlus(h, Lane1(e));
    LanesMakeTheRegister(e);
    var g := Shift(Lane0(e), 64);
    Ext8OfZero(e);
    ShiftBelow(Lane0(e), 64, 64);
    PlusBelow(d, w.low, 128);
    PlusBelow(Plus(d, w.low), f, 128);
    PlusBelow(Plus(Plus(d, w.low), f), g, 128);
    ShiftPlus(c, w.middle, 64);
    ShiftPlus(Lane0(e), Shift(Lane1(e), 64), 64);
    ShiftShift(Lane1(e), 64, 64);
    Balance(Shift(h, 128), Shift(w.middle, 64), w.low, d, Shift(c, 64), Shift(Lane1(e), 128), f, g);
  }

  lemma Lane64(a: Poly)
    requires Below(a, 128)
    ensures Below(Lane0(a), 64) && Below(Lane1(a), 64) && Below(Lane1(a), 128)
  {
  }

  lemma Ext8OfZero(e: Poly)
    ensures Ext8({}, e) == Shift(Lane0(e), 64)
  {
  }

  lemma ProductWithR(x: Poly)
    requires Below(x, 64)
    ensures Below(MulUpTo(x, R, 64), 128)
  {
    MulBelow(x, R, 64, 8);
  }

  /** The exchange of terms: all letters name one summand each. */
  lemma Balance(h: Poly, m: Poly, l: Poly, d: Poly, c: Poly, e1: Poly, f: Poly, g: Poly)
    requires Plus(c, m) == Plus(g, e1)
    ensures Plus(h, Plus(m, l)) == Plus(Plus(Plus(h, Plus(d, c)), Plus(e1, f)), Plus(Plus(Plus(d, l), f), g))
  {
    forall i: nat
      ensures i in Plus(h, Plus(m, l)) <==>
        i in Plus(Plus(Plus(h, Plus(d, c)), Plus(e1, f)), Plus(Plus(Plus(d, l), f), g))
    {
      assert i in Plus(c, m) <==> i in Plus(g, e1);
    }
  }

  /** The Armv8 multiply is multiplication in GF(2^128): the exact product, divided with remainder. */
  lemma MultiplyIsFieldProduct(a: Poly, b: Poly)
    requires Below(a, 128) && Below(b, 128)
    ensures exists q :: LeavesRemainder(Product(a, b), q, PolyMultReduce(PolyMult128(a, b)))
  {
    hide PolyMult128, PolyMultReduce, Value;
    MultIsProduct(a, b);
    ReduceIsRemainder(PolyMult128(a, b));
  }
}
