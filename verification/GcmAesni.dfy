/** The AES-NI GCM multiply, which works on bit-reflected registers, and its agreement with the Armv8 one. */
module GcmAesni {
  import opened Poly
  import opened Gf128
  import opened GcmAarch64

  // The shift intrinsics: within each 64-bit lane, and of the whole register by eight bytes.
  function SlliEpi64(x: Poly, k: nat): Poly { set i | i in x && i % 64 + k < 64 :: i + k }
  function SrliEpi64(x: Poly, k: nat): Poly { set i | i in x && k <= i % 64 :: i - k }
  function SlliSi8(x: Poly): Poly { set i | i in x && i < 64 :: i + 64 }
  function SrliSi8(x: Poly): Poly { set i | i in x && 64 <= i :: i - 64 }

  /** A 256-bit number in two registers. */
  datatype Pair = Pair(cc: Poly, dd: Poly)

  function GcmClmul(aa: Poly, bb: Poly): Pair {
    var cc := MulUpTo(Lane0(aa), Lane0(bb), 64);
    var dd := MulUpTo(Lane1(aa), Lane1(bb), 64);
    var ee := MulUpTo(Lane0(aa), Lane1(bb), 64);
    var ff := MulUpTo(Lane1(aa), Lane0(bb), 64);
    var mid := Plus(ff, ee);
    Pair(Plus(cc, SlliSi8(mid)), Plus(dd, SrliSi8(mid)))
  }

  function GcmShift(p: Pair): Pair {
    var ccLo := SlliEpi64(p.cc, 1);
    var ddLo := SlliEpi64(p.dd, 1);
    var ccHi := SrliEpi64(p.cc, 63);
    var ddHi := SrliEpi64(p.dd, 63);
    var xmm5 := SrliSi8(ccHi);
    Pair(ccLo + SlliSi8(ccHi), ddLo + SlliSi8(ddHi) + xmm5)
  }

  function GcmReduce(xx: Poly): Poly {
    var aa := SlliEpi64(xx, 63);
    var bb := SlliEpi64(xx, 62);
    var cc := SlliEpi64(xx, 57);
    Plus(SlliSi8(Plus(Plus(aa, bb), cc)), xx)
  }

  function GcmMix(dx: Poly): Poly {
    var ee, ff, gg := SrliEpi64(dx, 1), SrliEpi64(dx, 2), SrliEpi64(dx, 7);
    var eh, fh, gh := SlliEpi64(dx, 63), SlliEpi64(dx, 62), SlliEpi64(dx, 57);
    var hh := SrliSi8(Plus(Plus(eh, fh), gh));
    Plus(Plus(Plus(Plus(ee, ff), gg), hh), dx)
  }

  /** Loading with the bytes reversed puts bit k of the block, counted from its first, at 127 - k. */
  function Reflect(a: Poly): Poly { Mirror(a, 127) }

  function Mirror(a: Poly, n: nat): Poly { set i | i in a && i <= n :: n - i }

  /** Blocks are given by their bits in transmission order. */
  function GcmMult(a: Poly, b: Poly): Poly {
    var p := GcmShift(GcmClmul(Reflect(a), Reflect(b)));
    var xh := GcmMix(GcmReduce(p.cc));
    Reflect(Plus(xh, p.dd))
  }

  lemma InShifts(x: Poly, k: nat, i: nat)
    ensures i in SlliEpi64(x, k) <==> k <= i && i - k in x && (i - k) % 64 + k < 64
    ensures i in SrliEpi64(x, k) <==> i + k in x && k <= (i + k) % 64
    ensures i in SlliSi8(x) <==> 64 <= i < 128 && i - 64 in x
    ensures i in SrliSi8(x) <==> i + 64 in x
  {
    if i + k in x && k <= (i + k) % 64 {
      assert (i + k) - k in SrliEpi64(x, k);
    }
    if i + 64 in x {
      assert (i + 64) - 64 in SrliSi8(x);
    }
    if k <= i && i - k in x && (i - k) % 64 + k < 64 {
      assert (i - k) + k in SlliEpi64(x, k);
    }
    if 64 <= i < 128 && i - 64 in x {
      assert (i - 64) + 64 in SlliSi8(x);
    }
  }

  lemma InMirror(a: Poly, n: nat, i: nat)
    ensures i in Mirror(a, n) <==> i <= n && n - i in a
  {
    if i <= n && n - i in a {
      assert n - (n - i) in Mirror(a, n);
    }
  }

  /** The two registers hold the exact product. */
  lemma ClmulIsProduct(aa: Poly, bb: Poly)
    requires Below(aa, 128) && Below(bb, 128)
    ensures var p := GcmClmul(aa, bb);
      Below(p.cc, 128) && Below(p.dd, 128) && Product(aa, bb) == Plus(Shift(p.dd, 128), p.cc)
  {
    hide Plus, Shift, MulUpTo, Lane0, Lane1, SlliSi8, SrliSi8;
    MultIsProduct(aa, bb);
    LanesOfExt8(bb, bb);
    var w := PolyMult128(aa, bb);
    LanesMakeTheRegister(w.middle);
    ShiftPlus(Lane0(w.middle), Shift(Lane1(w.middle), 64), 64);
    ShiftShift(Lane1(w.middle), 64, 64);
    ShiftPlus(w.high, Lane1(w.middle), 128);
    ByteShiftsAreLanes(w.middle);
    Lane64(w.middle);
    ShiftBelow(Lane0(w.middle), 64, 64);
    PlusBelow(w.low, Shift(Lane0(w.middle), 64), 128);
    PlusBelow(w.high, Lane1(w.middle), 128);
    Carry(Shift(w.high, 128), Shift(Lane1(w.middle), 128), Shift(Lane0(w.middle), 64), w.low);
  }

  lemma ByteShiftsAreLanes(m: Poly)
    ensures SlliSi8(m) == Shift(Lane0(m), 64) && SrliSi8(m) == Lane1(m)
  {
    forall i: nat
      ensures i in SlliSi8(m) <==> i in Shift(Lane0(m), 64)
    {
      InShifts(m, 0, i);
      InShift(Lane0(m), 64, i);
    }
  }

  lemma Carry(h: Poly, m1: Poly, m0: Poly, l: Poly)
    ensures Plus(h, Plus(Plus(m0, m1), l)) == Plus(Plus(h, m1), Plus(l, m0))
  {
  }

  /** The one-bit shift moves every bit up by one, across all lanes. */
  lemma ShiftMovesUp(p: Pair, i: nat)
    requires Below(p.cc, 128) && Below(p.dd, 127) && i < 128
    ensures i in GcmShift(p).cc <==> 0 < i && i - 1 in p.cc
    ensures i in GcmShift(p).dd <==> if i == 0 then 127 in p.cc else i - 1 in p.dd
  {
    InShifts(p.cc, 1, i);
    InShifts(p.dd, 1, i);
    InShifts(SrliEpi64(p.cc, 63), 0, i);
    InShifts(SrliEpi64(p.dd, 63), 0, i);
    InShifts(p.cc, 63, i + 64);
    if 64 <= i {
      InShifts(p.cc, 63, i - 64);
      InShifts(p.dd, 63, i - 64);
    }
  }

  /** The parts of a polynomial below and from z^128 on. */
  function Low(a: Poly): Poly { set i | i in a && i < 128 }
  function High(a: Poly): Poly { set i | i in a && 128 <= i :: i - 128 }

  lemma InHalves(a: Poly, i: nat)
    ensures i in Low(a) <==> i in a && i < 128
    ensures i in High(a) <==> i + 128 in a
  {
    if i + 128 in a {
      assert (i + 128) - 128 in High(a);
    }
  }

  lemma HalvesMake(a: Poly)
    ensures a == Plus(Shift(High(a), 128), Low(a)) && Below(Low(a), 128)
  {
    forall i: nat
      ensures i in a <==> i in Plus(Shift(High(a), 128), Low(a))
    {
      InHalves(a, i);
      InShift(High(a), 128, i);
      if 128 <= i {
        InHalves(a, i - 128);
      }
    }
  }

  /** What z*h, z^2*h and z^7*h carry beyond z^128. */
  function Fold(h: Poly): Poly {
    Plus(Plus(High(Shift(h, 1)), High(Shift(h, 2))), High(Shift(h, 7)))
  }

  lemma LaneShiftReflected(h: Poly, k: nat, i: nat)
    requires Below(h, 128) && i < 64 && 1 <= k <= 63
    ensures 63 - i in SlliEpi64(Reflect(h), 64 - k) <==> i + 128 in Shift(h, k)
  {
    InShifts(Reflect(h), 64 - k, 63 - i);
    if i < k {
      InMirror(h, 127, k - 1 - i);
    }
    InShift(h, k, i + 128);
  }

  /** The first reduction step adds the folded carries, seen in transmission order. */
  lemma ReduceAddsFold(h: Poly)
    requires Below(h, 128)
    ensures Reflect(GcmReduce(Reflect(h))) == Plus(h, Fold(h))
  {
    forall i: nat
      ensures i in Reflect(GcmReduce(Reflect(h))) <==> i in Plus(h, Fold(h))
    {
      ReduceAddsFoldAt(h, i);
    }
  }

  lemma ReduceAddsFoldAt(h: Poly, i: nat)
    requires Below(h, 128)
    ensures i in Reflect(GcmReduce(Reflect(h))) <==> i in Plus(h, Fold(h))
  {
    hide Plus, Shift, Mirror, SlliEpi64, SlliSi8, High;
    var x := Reflect(h);
    var aa, bb, cc := SlliEpi64(x, 63), SlliEpi64(x, 62), SlliEpi64(x, 57);
    var y := Plus(Plus(aa, bb), cc);
    InHalves(Shift(h, 1), i);
    InHalves(Shift(h, 2), i);
    InHalves(Shift(h, 7), i);
    InShift(h, 1, i + 128);
    InShift(h, 2, i + 128);
    InShift(h, 7, i + 128);
    InPlus(h, Fold(h), i);
    InPlus(Plus(High(Shift(h, 1)), High(Shift(h, 2))), High(Shift(h, 7)), i);
    InPlus(High(Shift(h, 1)), High(Shift(h, 2)), i);
    InMirror(GcmReduce(x), 127, i);
    if i <= 127 {
      InMirror(h, 127, 127 - i);
      InPlus(SlliSi8(y), x, 127 - i);
      InShifts(y, 0, 127 - i);
      if i < 64 {
        InPlus(Plus(aa, bb), cc, 63 - i);
        InPlus(aa, bb, 63 - i);
        LaneShiftReflected(h, 1, i);
        LaneShiftReflected(h, 2, i);
        LaneShiftReflected(h, 7, i);
      }
    }
  }

  /** Shifting right across the lanes, seen in transmission order, is shifting left below z^128. */
  lemma LaneRightReflected(d: Poly, k: nat, i: nat)
    requires Below(d, 128) && i < 128 && 1 <= k <= 63
    ensures (127 - i in SrliEpi64(Reflect(d), k)) != (191 - i in SlliEpi64(Reflect(d), 64 - k)) <==>
      i in Low(Shift(d, k))
  {
    hide Mirror, SlliEpi64, SrliEpi64;
    InShifts(Reflect(d), k, 127 - i);
    InShifts(Reflect(d), 64 - k, 191 - i);
    InMirror(d, 127, 127 - i + k);
    InShift(d, k, i);
  }

  /** d + z*d + z^2*d + z^7*d, cut off at z^128. */
  function Spread(d: Poly): Poly {
    Plus(Plus(Plus(Low(Shift(d, 1)), Low(Shift(d, 2))), Low(Shift(d, 7))), d)
  }

  lemma MixSpreads(d: Poly)
    requires Below(d, 128)
    ensures Reflect(GcmMix(Reflect(d))) == Spread(d)
  {
    forall i: nat
      ensures i in Reflect(GcmMix(Reflect(d))) <==> i in Spread(d)
    {
      MixSpreadsAt(d, i);
    }
  }

  lemma MixSpreadsAt(d: Poly, i: nat)
    requires Below(d, 128)
    ensures i in Reflect(GcmMix(Reflect(d))) <==> i in Spread(d)
  {
    hide Plus, Shift, Mirror, SlliEpi64, SrliEpi64, SrliSi8, Low;
    var x := Reflect(d);
    var ee, ff, gg := SrliEpi64(x, 1), SrliEpi64(x, 2), SrliEpi64(x, 7);
    var eh, fh, gh := SlliEpi64(x, 63), SlliEpi64(x, 62), SlliEpi64(x, 57);
    var hh := SrliSi8(Plus(Plus(eh, fh), gh));
    var a, b, c := Low(Shift(d, 1)), Low(Shift(d, 2)), Low(Shift(d, 7));
    InPlus(Plus(Plus(a, b), c), d, i);
    InPlus(Plus(a, b), c, i);
    InPlus(a, b, i);
    InMirror(GcmMix(x), 127, i);
    if i <= 127 {
      LaneRightReflected(d, 1, i);
      LaneRightReflected(d, 2, i);
      LaneRightReflected(d, 7, i);
      InMirror(d, 127, 127 - i);
      InPlus(Plus(Plus(Plus(ee, ff), gg), hh), x, 127 - i);
      InPlus(Plus(Plus(ee, ff), gg), hh, 127 - i);
      InPlus(Plus(ee, ff), gg, 127 - i);
      InPlus(ee, ff, 127 - i);
      InShifts(Plus(Plus(eh, fh), gh), 0, 127 - i);
      InPlus(Plus(eh, fh), gh, 191 - i);
      InPlus(eh, fh, 191 - i);
    } else {
      InHalves(Shift(d, 1), i);
      InHalves(Shift(d, 2), i);
      InHalves(Shift(d, 7), i);
    }
  }

  lemma TimesR(d: Poly)
    requires Below(d, 128)
    ensures MulUpTo(d, R, 128) == Plus(Plus(Plus(Shift(d, 1), Shift(d, 2)), Shift(d, 7)), d)
  {
    hide MulUpTo;
    assert R == Plus(Plus(Plus({1}, {2}), {7}), {0});
    MulPlusRight(d, Plus(Plus({1}, {2}), {7}), {0}, 128);
    MulPlusRight(d, Plus({1}, {2}), {7}, 128);
    MulPlusRight(d, {1}, {2}, 128);
    TimesPower(d, 0);
    TimesPower(d, 1);
    TimesPower(d, 2);
    TimesPower(d, 7);
    ShiftZero(d);
  }

  lemma TimesPower(d: Poly, k: nat)
    requires Below(d, 128)
    ensures MulUpTo(d, {k}, 128) == Shift(d, k)
  {
    assert Shift({0}, k) == {k} by {
      assert 0 + k in Shift({0}, k);
    }
    MulShiftRight(d, {0}, k, 128);
    MulUnit(d, 128);
  }

  /** The folded carries reach z^6 at most and so carry nothing themselves. */
  lemma FoldIsShort(h: Poly)
    requires Below(h, 128)
    ensures Below(Fold(h), 7) && Below(Plus(h, Fold(h)), 128) && Fold(Plus(h, Fold(h))) == Fold(h)
  {
    forall k: nat | k <= 7
      ensures High(Shift(Plus(h, Fold(h)), k)) == High(Shift(h, k))
    {
      FoldIsShortAt(h, k);
    }
    HighBelow(h, 1);
    HighBelow(h, 2);
    HighBelow(h, 7);
  }

  lemma HighBelow(h: Poly, k: nat)
    requires Below(h, 128)
    ensures Below(High(Shift(h, k)), k)
  {
    ShiftBelow(h, k, 128);
  }

  lemma FoldIsShortAt(h: Poly, k: nat)
    requires Below(h, 128) && k <= 7
    ensures High(Shift(Plus(h, Fold(h)), k)) == High(Shift(h, k))
  {
    hide Shift;
    HighBelow(h, 1);
    HighBelow(h, 2);
    HighBelow(h, 7);
    ShiftPlus(h, Fold(h), k);
    ShiftBelow(Fold(h), k, 7);
  }

  /** h*z^128 is congruent to the spread of h with its carries folded in. */
  lemma SpreadIsRemainder(h: Poly)
    requires Below(h, 128)
    ensures LeavesRemainder(Shift(h, 128), Plus(h, Fold(h)), Spread(Plus(h, Fold(h))))
  {
    hide Plus, Shift, MulUpTo, High, Low, Below;
    var d := Plus(h, Fold(h));
    FoldIsShort(h);
    TimesFExpands(d);
    TimesR(d);
    var s1, s2, s7 := Shift(d, 1), Shift(d, 2), Shift(d, 7);
    HalvesMake(s1);
    HalvesMake(s2);
    HalvesMake(s7);
    PlusBelow(Low(s1), Low(s2), 128);
    PlusBelow(Plus(Low(s1), Low(s2)), Low(s7), 128);
    PlusBelow(Plus(Plus(Low(s1), Low(s2)), Low(s7)), d, 128);
    ShiftPlus(h, Fold(h), 128);
    ShiftPlus(Plus(High(s1), High(s2)), High(s7), 128);
    ShiftPlus(High(s1), High(s2), 128);
    Settle(Shift(h, 128), Shift(High(s1), 128), Shift(High(s2), 128), Shift(High(s7), 128),
           Low(s1), Low(s2), Low(s7), d);
  }

  lemma Settle(h: Poly, h1: Poly, h2: Poly, h7: Poly, l1: Poly, l2: Poly, l7: Poly, d: Poly)
    ensures h == Plus(
      Plus(Plus(h, Plus(Plus(h1, h2), h7)), Plus(Plus(Plus(Plus(h1, l1), Plus(h2, l2)), Plus(h7, l7)), d)),
      Plus(Plus(Plus(l1, l2), l7), d))
  {
  }

  /** The product of two mirrored polynomials is the mirrored product. */
  lemma {:induction false} ProductMirrored(a: Poly, b: Poly)
    requires Below(a, 128) && Below(b, 128)
    ensures Product(Reflect(a), Reflect(b)) == Mirror(Product(a, b), 254)
    decreases |a|
  {
    if a == {} {
      NothingBelow({}, Reflect(b), 128);
      NothingBelow({}, b, 128);
      assert Reflect(a) == {} && Mirror({}, 254) == {};
    } else {
      var x :| x in a;
      var rest := a - {x};
      ProductMirrored(rest, b);
      MulSplit(a, x, b, 128);
      InMirror(a, 127, 127 - x);
      MulSplit(Reflect(a), 127 - x, Reflect(b), 128);
      ReflectWithout(a, x);
      ShiftMirrored(b, x);
      MirrorPlus(Product(rest, b), Shift(b, x), 254);
    }
  }

  lemma ReflectWithout(a: Poly, x: nat)
    requires x in a && x < 128
    ensures Reflect(a) - {127 - x} == Reflect(a - {x})
  {
    forall i: nat
      ensures i in Reflect(a) - {127 - x} <==> i in Reflect(a - {x})
    {
      InMirror(a, 127, i);
      InMirror(a - {x}, 127, i);
    }
  }

  lemma ShiftMirrored(b: Poly, x: nat)
    requires Below(b, 128) && x < 128
    ensures Mirror(Shift(b, x), 254) == Shift(Reflect(b), 127 - x)
  {
    forall i: nat
      ensures i in Mirror(Shift(b, x), 254) <==> i in Shift(Reflect(b), 127 - x)
    {
      InMirror(Shift(b, x), 254, i);
      InShift(Reflect(b), 127 - x, i);
      if i <= 254 {
        InShift(b, x, 254 - i);
      }
      if 127 - x <= i {
        InMirror(b, 127, i - (127 - x));
      }
    }
  }

  lemma MirrorPlus(a: Poly, b: Poly, n: nat)
    ensures Mirror(Plus(a, b), n) == Plus(Mirror(a, n), Mirror(b, n))
  {
    forall i: nat
      ensures i in Mirror(Plus(a, b), n) <==> i in Plus(Mirror(a, n), Mirror(b, n))
    {
      InMirror(Plus(a, b), n, i);
      InMirror(a, n, i);
      InMirror(b, n, i);
    }
  }

  /** After the one-bit shift the registers are the two halves of the product, each reflected. */
  lemma ShiftedHalves(a: Poly, b: Poly)
    requires Below(a, 128) && Below(b, 128)
    ensures var p := GcmShift(GcmClmul(Reflect(a), Reflect(b)));
      p.cc == Reflect(High(Product(a, b))) && p.dd == Reflect(Low(Product(a, b)))
  {
    var p := GcmClmul(Reflect(a), Reflect(b));
    ClmulIsProduct(Reflect(a), Reflect(b));
    ProductMirrored(a, b);
    MulBelow(a, b, 128, 128);
    DdIsShort(p, Product(a, b));
    forall i: nat
      ensures i in GcmShift(p).cc <==> i in Reflect(High(Product(a, b)))
      ensures i in GcmShift(p).dd <==> i in Reflect(Low(Product(a, b)))
    {
      ShiftedHalvesAt(p, Product(a, b), i);
    }
  }

  lemma DdIsShort(p: Pair, w: Poly)
    requires Plus(Shift(p.dd, 128), p.cc) == Mirror(w, 254) && Below(p.cc, 128)
    ensures Below(p.dd, 127)
  {
    forall i: nat
      ensures i in p.dd ==> i < 127
    {
      InShift(p.dd, 128, i + 128);
      InPlus(Shift(p.dd, 128), p.cc, i + 128);
      InMirror(w, 254, i + 128);
    }
  }

  lemma ShiftedHalvesAt(p: Pair, w: Poly, i: nat)
    requires Plus(Shift(p.dd, 128), p.cc) == Mirror(w, 254)
    requires Below(p.cc, 128) && Below(p.dd, 127) && Below(w, 255)
    ensures i in GcmShift(p).cc <==> i in Reflect(High(w))
    ensures i in GcmShift(p).dd <==> i in Reflect(Low(w))
  {
    hide Plus, Shift, Mirror, GcmShift, High, Low;
    InMirror(High(w), 127, i);
    InMirror(Low(w), 127, i);
    if i < 128 {
      ShiftMovesUp(p, i);
      InHalves(w, 127 - i);
      if 0 < i {
        MirrorHalves(p, w, i - 1);
      } else {
        MirrorHalves(p, w, 127);
      }
    } else {
      ShiftStaysInside(p, i);
    }
  }

  lemma ShiftStaysInside(p: Pair, i: nat)
    requires Below(p.cc, 128) && Below(p.dd, 127) && 128 <= i
    ensures i !in GcmShift(p).cc && i !in GcmShift(p).dd
  {
    hide SlliEpi64, SrliEpi64, SlliSi8, SrliSi8;
    InShifts(p.cc, 1, i);
    InShifts(p.dd, 1, i);
    InShifts(SrliEpi64(p.cc, 63), 0, i);
    InShifts(SrliEpi64(p.dd, 63), 0, i);
    InShifts(p.cc, 63, i + 64);
  }

  lemma MirrorHalves(p: Pair, w: Poly, j: nat)
    requires Plus(Shift(p.dd, 128), p.cc) == Mirror(w, 254)
    requires Below(p.cc, 128) && Below(p.dd, 127) && j < 128
    ensures j in p.cc <==> 254 - j in w
    ensures j in p.dd <==> j <= 126 && 126 - j in w
  {
    InPlus(Shift(p.dd, 128), p.cc, j);
    InPlus(Shift(p.dd, 128), p.cc, j + 128);
    InShift(p.dd, 128, j);
    InShift(p.dd, 128, j + 128);
    InMirror(w, 254, j);
    InMirror(w, 254, j + 128);
  }

  lemma HighOfProduct(a: Poly, b: Poly)
    requires Below(b, 128)
    ensures Below(High(Product(a, b)), 128)
  {
    MulBelow(a, b, 128, 128);
  }

  lemma ReduceFits(h: Poly)
    ensures Below(GcmReduce(Reflect(h)), 128)
  {
  }

  lemma ReflectTwice(a: Poly)
    requires Below(a, 128)
    ensures Reflect(Reflect(a)) == a
  {
    forall i: nat
      ensures i in Reflect(Reflect(a)) <==> i in a
    {
      InMirror(Reflect(a), 127, i);
      if i <= 127 {
        InMirror(a, 127, 127 - i);
      }
    }
  }

  /** The AES-NI multiply is multiplication in GF(2^128) too. */
  lemma MultiplyIsFieldProduct(a: Poly, b: Poly)
    requires Below(a, 128) && Below(b, 128)
    ensures exists q :: LeavesRemainder(Product(a, b), q, GcmMult(a, b))
  {
    hide Plus, Shift, Mirror, MulUpTo, GcmReduce, GcmMix, GcmShift, GcmClmul, Spread, Low, High, Below, Fold;
    var w := Product(a, b);
    var h, l := High(w), Low(w);
    HalvesMake(w);
    HighOfProduct(a, b);
    ShiftedHalves(a, b);
    ReduceAddsFold(h);
    var d := Plus(h, Fold(h));
    FoldIsShort(h);
    ReduceFits(h);
    ReflectTwice(GcmReduce(Reflect(h)));
    MixSpreads(d);
    MirrorPlus(GcmMix(Reflect(d)), Reflect(l), 127);
    ReflectTwice(l);
    SpreadIsRemainder(h);
    PlusBelow(Spread(d), l, 128);
    PlusAssoc(TimesF(d), Spread(d), l);
    assert LeavesRemainder(w, d, GcmMult(a, b));
  }

  /** So both accelerated multiplies give the same block, always. */
  lemma AcceleratorsAgree(a: Poly, b: Poly)
    requires Below(a, 128) && Below(b, 128)
    ensures GcmMult(a, b) == PolyMultReduce(PolyMult128(a, b))
  {
    hide GcmMult, PolyMultReduce, PolyMult128;
    MultiplyIsFieldProduct(a, b);
    GcmAarch64.MultiplyIsFieldProduct(a, b);
    var q :| LeavesRemainder(Product(a, b), q, GcmMult(a, b));
    var q' :| LeavesRemainder(Product(a, b), q', PolyMultReduce(PolyMult128(a, b)));
    RemainderIsUnique(Product(a, b), q, GcmMult(a, b), q', PolyMultReduce(PolyMult128(a, b)));
  }
}
