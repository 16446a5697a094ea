/** Polynomials over GF(2) as finite sets of exponents, and their carry-less product. */
module Poly {

  type Poly = set<nat>

  /** Sum: the exponents that occur in exactly one of the two. */
  function Plus(a: Poly, b: Poly): Poly { (a - b) + (b - a) }

  /** Product with z^k. */
  function Shift(a: Poly, k: nat): Poly { set i | i in a :: i + k }

  /** The sum of z^i * b over the exponents i of a that are below n. */
  function MulUpTo(a: Poly, b: Poly, n: nat): Poly {
    if n == 0 then {}
    else if n - 1 in a then Plus(MulUpTo(a, b, n - 1), Shift(b, n - 1))
    else MulUpTo(a, b, n - 1)
  }

  /** All exponents are below n: the polynomial fits n bits. */
  predicate Below(a: Poly, n: nat) { forall i :: i in a ==> i < n }

  lemma InPlus(a: Poly, b: Poly, i: nat)
    ensures i in Plus(a, b) <==> (i in a) != (i in b)
  {
  }

  lemma InShift(a: Poly, k: nat, i: nat)
    ensures i in Shift(a, k) <==> k <= i && i - k in a
  {
    if k <= i && i - k in a {
      assert (i - k) + k in Shift(a, k);
    }
  }

  lemma PlusComm(a: Poly, b: Poly)
    ensures Plus(a, b) == Plus(b, a)
  {
  }

  lemma PlusAssoc(a: Poly, b: Poly, c: Poly)
    ensures Plus(Plus(a, b), c) == Plus(a, Plus(b, c))
  {
  }

  lemma PlusRegroup(a: Poly, b: Poly, c: Poly, d: Poly)
    ensures Plus(Plus(a, b), Plus(c, d)) == Plus(Plus(a, c), Plus(b, d))
  {
  }

  lemma PlusCancel(a: Poly, b: Poly)
    ensures Plus(a, a) == {} && Plus(a, {}) == a && Plus(Plus(a, b), b) == a
  {
  }

  lemma ShiftPlus(a: Poly, b: Poly, k: nat)
    ensures Shift(Plus(a, b), k) == Plus(Shift(a, k), Shift(b, k))
  {
    forall i: nat
      ensures i in Shift(Plus(a, b), k) <==> i in Plus(Shift(a, k), Shift(b, k))
    {
      InShift(Plus(a, b), k, i);
      InShift(a, k, i);
      InShift(b, k, i);
    }
  }

  lemma ShiftShift(a: Poly, k: nat, l: nat)
    ensures Shift(Shift(a, k), l) == Shift(a, k + l)
  {
    forall i: nat
      ensures i in Shift(Shift(a, k), l) <==> i in Shift(a, k + l)
    {
      InShift(Shift(a, k), l, i);
      if l <= i {
        InShift(a, k, i - l);
      }
      InShift(a, k + l, i);
    }
  }

  lemma ShiftZero(a: Poly)
    ensures Shift(a, 0) == a && forall k :: Shift({}, k) == {}
  {
  }

  lemma {:induction false} MulPlusRight(a: Poly, b: Poly, c: Poly, n: nat)
    ensures MulUpTo(a, Plus(b, c), n) == Plus(MulUpTo(a, b, n), MulUpTo(a, c, n))
  {
    hide Plus, Shift;
    if n == 0 {
      PlusCancel({}, {});
    } else {
      MulPlusRight(a, b, c, n - 1);
      ShiftPlus(b, c, n - 1);
      PlusRegroup(MulUpTo(a, b, n - 1), MulUpTo(a, c, n - 1), Shift(b, n - 1), Shift(c, n - 1));
    }
  }

  lemma {:induction false} MulPlusLeft(a: Poly, b: Poly, c: Poly, n: nat)
    ensures MulUpTo(Plus(a, b), c, n) == Plus(MulUpTo(a, c, n), MulUpTo(b, c, n))
  {
    hide Plus, Shift;
    if n == 0 {
      PlusCancel({}, {});
    } else {
      MulPlusLeft(a, b, c, n - 1);
      InPlus(a, b, n - 1);
      var x, y, s := MulUpTo(a, c, n - 1), MulUpTo(b, c, n - 1), Shift(c, n - 1);
      PlusRegroup(x, y, s, s);
      PlusRegroup(x, y, s, {});
      PlusRegroup(x, y, {}, s);
      PlusCancel(s, s);
      PlusCancel(x, y);
      PlusCancel(y, y);
      PlusCancel(Plus(x, y), s);
      PlusComm({}, s);
    }
  }

  lemma {:induction false} MulShiftRight(a: Poly, b: Poly, k: nat, n: nat)
    ensures MulUpTo(a, Shift(b, k), n) == Shift(MulUpTo(a, b, n), k)
  {
    hide Plus, Shift;
    if n == 0 {
      ShiftZero({});
    } else {
      MulShiftRight(a, b, k, n - 1);
      ShiftShift(b, k, n - 1);
      ShiftShift(b, n - 1, k);
      ShiftPlus(MulUpTo(a, b, n - 1), Shift(b, n - 1), k);
    }
  }

  lemma {:induction false} MulShiftLeft(a: Poly, b: Poly, k: nat, n: nat)
    ensures MulUpTo(Shift(a, k), b, n + k) == Shift(MulUpTo(a, b, n), k)
  {
    hide Plus, Shift;
    if n == 0 {
      NothingBelow(Shift(a, k), b, k) by {
        forall i: nat
          ensures i in Shift(a, k) ==> k <= i
        {
          InShift(a, k, i);
        }
      }
      ShiftZero({});
    } else {
      MulShiftLeft(a, b, k, n - 1);
      InShift(a, k, n - 1 + k);
      ShiftShift(b, n - 1, k);
      ShiftPlus(MulUpTo(a, b, n - 1), Shift(b, n - 1), k);
    }
  }

  lemma {:induction false} NothingBelow(a: Poly, b: Poly, n: nat)
    requires forall i :: i in a ==> n <= i
    ensures MulUpTo(a, b, n) == {}
  {
    if n != 0 {
      NothingBelow(a, b, n - 1);
    }
  }

  lemma {:induction false} MulExtend(a: Poly, b: Poly, n: nat, m: nat)
    requires Below(a, n) && n <= m
    ensures MulUpTo(a, b, m) == MulUpTo(a, b, n)
    decreases m
  {
    if n < m {
      MulExtend(a, b, n, m - 1);
    }
  }

  /** A product with the single power z^k is a shift. */
  lemma {:induction false} MulPower(k: nat, b: Poly, n: nat)
    ensures MulUpTo({k}, b, n) == if k < n then Shift(b, k) else {}
  {
    hide Shift;
    if n != 0 {
      MulPower(k, b, n - 1);
      PlusCancel({}, {});
      PlusComm({}, Shift(b, n - 1));
      PlusCancel(Shift(b, n - 1), {});
    }
  }

  /** Taking one power out of the left factor. */
  lemma MulSplit(a: Poly, x: nat, b: Poly, n: nat)
    requires x in a && x < n
    ensures MulUpTo(a, b, n) == Plus(MulUpTo(a - {x}, b, n), Shift(b, x))
  {
    hide MulUpTo, Shift;
    assert a == Plus(a - {x}, {x});
    MulPlusLeft(a - {x}, {x}, b, n);
    MulPower(x, b, n);
  }

  lemma ShiftBelow(a: Poly, k: nat, n: nat)
    requires Below(a, n)
    ensures Below(Shift(a, k), n + k)
  {
  }

  lemma {:induction false} MulBelow(a: Poly, b: Poly, n: nat, m: nat)
    requires Below(b, m) && 0 < m
    ensures Below(MulUpTo(a, b, n), n + m - 1)
  {
    if n != 0 {
      MulBelow(a, b, n - 1, m);
      ShiftBelow(b, n - 1, m);
    }
  }
}
