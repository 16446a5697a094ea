/** The byte field of the ciphers, built from XTIME: its sums, the products by fixed factors, and the rows of
    MixColumns and InvMixColumns. */
module GF256 {
  function Add(x: bv8, y: bv8): bv8 { x ^ y }

  function Add4(a: bv8, b: bv8, c: bv8, d: bv8): bv8 { Add(Add(a, b), Add(c, d)) }

  function Xtime(x: bv8): bv8 { (x << 1) ^ (if x & 0x80 != 0 then 0x1b else 0) }

  function Mul3(x: bv8): bv8 { Add(Xtime(x), x) }

  function Mul4(x: bv8): bv8 { Xtime(Xtime(x)) }

  function Mul8(x: bv8): bv8 { Xtime(Xtime(Xtime(x))) }

  function Mul9(x: bv8): bv8 { Add(Mul8(x), x) }

  function MulB(x: bv8): bv8 { Add(Mul8(x), Mul3(x)) }

  function MulD(x: bv8): bv8 { Add(Mul9(x), Mul4(x)) }

  function MulE(x: bv8): bv8 { Add(Mul8(x), Add(Mul4(x), Xtime(x))) }

  /** The polynomial x times the polynomial whose four coefficients are the bits of k, not reduced. */
  function Product(k: bv8, x: bv8): bv16 {
    var p: bv16 := x as bv16;
    (if k & 1 != 0 then p else 0) ^ (if k & 2 != 0 then p << 1 else 0) ^
    (if k & 4 != 0 then p << 2 else 0) ^ (if k & 8 != 0 then p << 3 else 0)
  }

  /** A product of degree below 11 modulo x^8 + x^4 + x^3 + x + 1, the polynomial of section 4.2 of FIPS 197. */
  function Reduced(p: bv16): bv16 {
    var q := if p & 0x400 != 0 then p ^ 0x46C else p;
    var r := if q & 0x200 != 0 then q ^ 0x236 else q;
    if r & 0x100 != 0 then r ^ 0x11B else r
  }

  /** The fixed factors are products in the field of the standard. */
  lemma FactorsAreProducts(x: bv8)
    ensures Xtime(x) as bv16 == Reduced(Product(0x2, x)) && Mul3(x) as bv16 == Reduced(Product(0x3, x))
    ensures Mul9(x) as bv16 == Reduced(Product(0x9, x)) && MulB(x) as bv16 == Reduced(Product(0xB, x))
    ensures MulD(x) as bv16 == Reduced(Product(0xD, x)) && MulE(x) as bv16 == Reduced(Product(0xE, x))
  {
    XtimeIsProduct(x);
    Mul3IsProduct(x);
    Mul9IsProduct(x);
    MulBIsProduct(x);
    MulDIsProduct(x);
    MulEIsProduct(x);
    hide Xtime, Mul3, Mul9, MulB, MulD, MulE, Reduced, Product;
  }

  lemma XtimeIsProduct(x: bv8)
    ensures Xtime(x) as bv16 == Reduced(Product(0x2, x))
  {
  }

  lemma Mul3IsProduct(x: bv8)
    ensures Mul3(x) as bv16 == Reduced(Product(0x3, x))
  {
  }

  lemma Mul9IsProduct(x: bv8)
    ensures Mul9(x) as bv16 == Reduced(Product(0x9, x))
  {
  }

  lemma MulBIsProduct(x: bv8)
    ensures MulB(x) as bv16 == Reduced(Product(0xB, x))
  {
  }

  lemma MulDIsProduct(x: bv8)
    ensures MulD(x) as bv16 == Reduced(Product(0xD, x))
  {
  }

  lemma MulEIsProduct(x: bv8)
    ensures MulE(x) as bv16 == Reduced(Product(0xE, x))
  {
  }

  lemma Comm(a: bv8, b: bv8)
    ensures Add(a, b) == Add(b, a)
  {
  }

  lemma Assoc(a: bv8, b: bv8, c: bv8)
    ensures Add(Add(a, b), c) == Add(a, Add(b, c))
  {
    assert (a ^ b) ^ c == a ^ (b ^ c);
  }

  lemma Regroup(a: bv8, b: bv8, c: bv8, d: bv8)
    ensures Add(Add(a, b), Add(c, d)) == Add(Add(a, c), Add(b, d))
  {
    assert (a ^ b) ^ (c ^ d) == (a ^ c) ^ (b ^ d);
  }

  lemma XtimeLinear(x: bv8, y: bv8)
    ensures Xtime(Add(x, y)) == Add(Xtime(x), Xtime(y))
  {
    if x & 0x80 != 0 {
      if y & 0x80 != 0 {
        assert (x ^ y) & 0x80 == 0;
      } else {
        assert (x ^ y) & 0x80 != 0;
      }
    } else {
      if y & 0x80 != 0 {
        assert (x ^ y) & 0x80 != 0;
      } else {
        assert (x ^ y) & 0x80 == 0;
      }
    }
  }

  lemma MulLinear(x: bv8, y: bv8)
    ensures Mul3(Add(x, y)) == Add(Mul3(x), Mul3(y))
    ensures Mul9(Add(x, y)) == Add(Mul9(x), Mul9(y))
    ensures MulB(Add(x, y)) == Add(MulB(x), MulB(y))
    ensures MulD(Add(x, y)) == Add(MulD(x), MulD(y))
    ensures MulE(Add(x, y)) == Add(MulE(x), MulE(y))
  {
    hide Add, Xtime;
    XtimeLinear(x, y);
    XtimeLinear(Xtime(x), Xtime(y));
    XtimeLinear(Mul4(x), Mul4(y));
    Regroup(Xtime(x), Xtime(y), x, y);
    Regroup(Mul8(x), Mul8(y), x, y);
    Regroup(Mul8(x), Mul8(y), Mul3(x), Mul3(y));
    Regroup(Mul9(x), Mul9(y), Mul4(x), Mul4(y));
    Regroup(Mul4(x), Mul4(y), Xtime(x), Xtime(y));
    Regroup(Mul8(x), Mul8(y), Add(Mul4(x), Xtime(x)), Add(Mul4(y), Xtime(y)));
  }

  lemma RegroupRows(a0: bv8, a1: bv8, a2: bv8, a3: bv8, b0: bv8, b1: bv8, b2: bv8, b3: bv8)
    ensures Add(Add4(a0, a1, a2, a3), Add4(b0, b1, b2, b3)) == Add4(Add(a0, b0), Add(a1, b1), Add(a2, b2), Add(a3, b3))
  {
    hide Add;
    Regroup(Add(a0, a1), Add(a2, a3), Add(b0, b1), Add(b2, b3));
    Regroup(a0, a1, b0, b1);
    Regroup(a2, a3, b2, b3);
  }

  lemma Transpose(a0: bv8, a1: bv8, a2: bv8, a3: bv8, b0: bv8, b1: bv8, b2: bv8, b3: bv8,
                  c0: bv8, c1: bv8, c2: bv8, c3: bv8, d0: bv8, d1: bv8, d2: bv8, d3: bv8)
    ensures Add4(Add4(a0, a1, a2, a3), Add4(b0, b1, b2, b3), Add4(c0, c1, c2, c3), Add4(d0, d1, d2, d3)) ==
            Add4(Add4(a0, b0, c0, d0), Add4(a1, b1, c1, d1), Add4(a2, b2, c2, d2), Add4(a3, b3, c3, d3))
  {
    hide Add;
    RegroupRows(a0, a1, a2, a3, b0, b1, b2, b3);
    RegroupRows(c0, c1, c2, c3, d0, d1, d2, d3);
    RegroupRows(Add(a0, b0), Add(a1, b1), Add(a2, b2), Add(a3, b3), Add(c0, d0), Add(c1, d1), Add(c2, d2), Add(c3, d3));
  }

  lemma MulLinear4(a: bv8, b: bv8, c: bv8, d: bv8)
    ensures Mul9(Add4(a, b, c, d)) == Add4(Mul9(a), Mul9(b), Mul9(c), Mul9(d))
    ensures MulB(Add4(a, b, c, d)) == Add4(MulB(a), MulB(b), MulB(c), MulB(d))
    ensures MulD(Add4(a, b, c, d)) == Add4(MulD(a), MulD(b), MulD(c), MulD(d))
    ensures MulE(Add4(a, b, c, d)) == Add4(MulE(a), MulE(b), MulE(c), MulE(d))
  {
    hide Add, Xtime, Mul9, MulB, MulD, MulE;
    MulLinear(a, b);
    MulLinear(c, d);
    MulLinear(Add(a, b), Add(c, d));
  }

  lemma Rotate(a: bv8, b: bv8, c: bv8, d: bv8)
    ensures Add4(a, b, c, d) == Add4(b, c, d, a)
  {
    hide Add;
    Comm(a, b);
    Regroup(b, a, c, d);
    Comm(a, d);
  }

  function MixRow(a: bv8, b: bv8, c: bv8, d: bv8): bv8 { Add4(Xtime(a), Mul3(b), c, d) }

  function InvMixRow(a: bv8, b: bv8, c: bv8, d: bv8): bv8 { Add4(MulE(a), MulB(b), MulD(c), Mul9(d)) }

  lemma InvMixRowLinear(a: bv8, b: bv8, c: bv8, d: bv8, p: bv8, q: bv8, r: bv8, s: bv8)
    ensures InvMixRow(Add(a, p), Add(b, q), Add(c, r), Add(d, s)) == Add(InvMixRow(a, b, c, d), InvMixRow(p, q, r, s))
  {
    hide Add, Add4, Mul9, MulB, MulD, MulE;
    MulLinear(a, p);
    MulLinear(b, q);
    MulLinear(c, r);
    MulLinear(d, s);
    RegroupRows(MulE(a), MulB(b), MulD(c), Mul9(d), MulE(p), MulB(q), MulD(r), Mul9(s));
  }

  lemma DiagonalEntry(x: bv8)
    ensures Add4(MulE(Xtime(x)), MulB(x), MulD(x), Mul9(Mul3(x))) == x
  {}
  lemma OffDiagonalEntry1(x: bv8)
    ensures Add4(MulE(Mul3(x)), MulB(Xtime(x)), MulD(x), Mul9(x)) == 0
  {}
  lemma OffDiagonalEntry2(x: bv8)
    ensures Add4(MulE(x), MulB(Mul3(x)), MulD(Xtime(x)), Mul9(x)) == 0
  {}
  lemma OffDiagonalEntry3(x: bv8)
    ensures Add4(MulE(x), MulB(x), MulD(Mul3(x)), Mul9(Xtime(x))) == 0
  {}
  lemma Cancel(x: bv8, k: bv8)
    ensures Add(Add(x, k), k) == x
  {
    assert (x ^ k) ^ k == x;
  }

  lemma XorOrders(k: bv8, s: bv8, c: bv8)
    ensures Add(Add(k, c), s) == Add(k, Add(s, c))
    ensures Add(s, Add(c, k)) == Add(k, Add(s, c))
    ensures Add(Add(s, c), k) == Add(k, Add(s, c))
    ensures Add(k, s) == Add(s, k)
  {
    hide Add;
    Assoc(k, c, s);
    Comm(c, s);
    Comm(c, k);
    Comm(k, s);
    Assoc(s, c, k);
    Comm(Add(s, c), k);
  }

  lemma AddZeros(x: bv8)
    ensures Add4(x, 0, 0, 0) == x
  {}
  lemma InvMixRowUndoesMixRow(a: bv8, b: bv8, c: bv8, d: bv8)
    ensures InvMixRow(MixRow(a, b, c, d), MixRow(b, c, d, a), MixRow(c, d, a, b), MixRow(d, a, b, c)) == a
  {
    hide Add, Add4, Xtime, Mul3, Mul9, MulB, MulD, MulE;
    MulLinear4(Xtime(a), Mul3(b), c, d);
    MulLinear4(Xtime(b), Mul3(c), d, a);
    MulLinear4(Xtime(c), Mul3(d), a, b);
    MulLinear4(Xtime(d), Mul3(a), b, c);
    Rotate(MulB(a), MulB(Xtime(b)), MulB(Mul3(c)), MulB(d));
    Rotate(MulD(a), MulD(b), MulD(Xtime(c)), MulD(Mul3(d)));
    Rotate(MulD(b), MulD(Xtime(c)), MulD(Mul3(d)), MulD(a));
    Rotate(Mul9(Xtime(d)), Mul9(Mul3(a)), Mul9(b), Mul9(c));
    Transpose(MulE(Xtime(a)), MulE(Mul3(b)), MulE(c), MulE(d), MulB(a), MulB(Xtime(b)), MulB(Mul3(c)), MulB(d),
      MulD(a), MulD(b), MulD(Xtime(c)), MulD(Mul3(d)), Mul9(Mul3(a)), Mul9(b), Mul9(c), Mul9(Xtime(d)));
    DiagonalEntry(a);
    OffDiagonalEntry1(b);
    OffDiagonalEntry2(c);
    OffDiagonalEntry3(d);
    AddZeros(a);
  }
}
