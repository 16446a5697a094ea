/** The field GF(2^128) of the GCM multiply: division by z^128 + z^7 + z^2 + z + 1. */
module Gf128 {
  import opened Poly

  const R: Poly := {0, 1, 2, 7}
  const F: Poly := {0, 1, 2, 7, 128}

  /** The carry-less product of two 128-bit polynomials. */
  function Product(a: Poly, b: Poly): Poly { MulUpTo(a, b, 128) }

  /** q * (z^128 + z^7 + z^2 + z + 1), for q of at most 128 bits. */
  function TimesF(q: Poly): Poly { MulUpTo(q, F, 128) }

  /** r is what division of p by the field polynomial with quotient q leaves. */
  predicate LeavesRemainder(p: Poly, q: Poly, r: Poly) {
    Below(q, 128) && Below(r, 128) && p == Plus(TimesF(q), r)
  }

  lemma FIsTopPlusR()
    ensures F == Plus(Shift({0}, 128), R)
  {
    assert Shift({0}, 128) == {128} by {
      assert 0 + 128 in Shift({0}, 128);
    }
  }

  /** z^128 is congruent to z^7 + z^2 + z + 1. */
  lemma TimesFExpands(q: Poly)
    requires Below(q, 128)
    ensures TimesF(q) == Plus(Shift(q, 128), MulUpTo(q, R, 128))
  {
    hide MulUpTo, Plus, Shift;
    FIsTopPlusR();
    MulPlusRight(q, Shift({0}, 128), R, 128);
    MulShiftRight(q, {0}, 128, 128);
    MulUnit(q, 128);
  }

  lemma TimesFPlus(p: Poly, q: Poly)
    ensures TimesF(Plus(p, q)) == Plus(TimesF(p), TimesF(q))
  {
    MulPlusLeft(p, q, F, 128);
  }

  lemma {:induction false} MulUnit(a: Poly, n: nat)
    requires Below(a, n)
    ensures MulUpTo(a, {0}, n) == a
    decreases |a|
  {
    if a == {} {
      NothingBelow(a, {0}, n);
    } else {
      var x :| x in a;
      MulSplit(a, x, {0}, n);
      MulUnit(a - {x}, n);
      assert Shift({0}, x) == {x} by {
        assert 0 + x in Shift({0}, x);
      }
    }
  }

  /** The highest power of a non-zero polynomial. */
  lemma Top(a: Poly) returns (t: nat)
    requires a != {}
    ensures t in a && Below(a, t + 1)
    decreases |a|
  {
    var x :| x in a;
    if a == {x} {
      t := x;
    } else {
      t := Top(a - {x});
      assert forall i :: i in a ==> i == x || i in a - {x};
      if t < x {
        t := x;
      }
    }
  }

  /** A non-zero multiple of the field polynomial does not fit 128 bits. */
  lemma MultiplesAreLong(q: Poly)
    requires q != {} && Below(q, 128)
    ensures !Below(TimesF(q), 128)
  {
    var t := Top(q);
    TimesFExpands(q);
    MulExtend(q, R, t + 1, 128);
    MulBelow(q, R, t + 1, 8);
    InShift(q, 128, t + 128);
    InPlus(Shift(q, 128), MulUpTo(q, R, 128), t + 128);
    assert t + 128 in TimesF(q);
  }

  /** Division leaves one remainder only: it is what a product means in the field. */
  lemma RemainderIsUnique(p: Poly, q: Poly, r: Poly, q': Poly, r': Poly)
    requires LeavesRemainder(p, q, r) && LeavesRemainder(p, q', r')
    ensures q == q' && r == r'
  {
    TimesFPlus(q, q');
    var d := Plus(q, q');
    assert TimesF(d) == Plus(r, r');
    if d != {} {
      MultiplesAreLong(d);
      assert false;
    }
    PlusCancel(q, q');
    PlusCancel(r, r');
  }
}
