/** ARIA as aria.c computes it (RFC 5794): the diffusion layer on words, the two substitution
    layers, and a block function that also decrypts when given transformed round keys. */
module Aria {
  import opened GF256
  import opened CipherState
  import opened AriaRotation

  // ---- Byte permutations of a word ----

  function P1(x: Word): Word { Word(x.b1, x.b0, x.b3, x.b2) }
  function P2(x: Word): Word { Word(x.b2, x.b3, x.b0, x.b1) }
  function P3(x: Word): Word { Word(x.b3, x.b2, x.b1, x.b0) }

  /** aria_a, assignment by assignment. */
  function A(s: State): State {
    var ta := s.w1;
    var b := s.w0;
    var a := P2(ta);
    var tb := P2(s.w3);
    var d := P1(s.w2);
    var c := P1(tb);
    var ta := ta.Xor(d);
    var tc := P2(b);
    var ta := P1(ta).Xor(tc).Xor(c);
    var tb := tb.Xor(P2(d));
    var tc := tc.Xor(P1(a));
    var b := b.Xor(ta.Xor(tb));
    var tb := P2(tb).Xor(ta);
    var a := a.Xor(P1(tb));
    var ta := P2(ta);
    var d := d.Xor(P1(ta).Xor(tc));
    var tc := P2(tc);
    var c := c.Xor(P1(tc).Xor(ta));
    State(a, b, c, d)
  }

  // ---- Linear forms: a word written as a sum of permuted input words ----

  /** Which of w, P1(w), P2(w), P3(w) a sum contains. */
  datatype Coef = Coef(k0: bool, k1: bool, k2: bool, k3: bool) {
    function Plus(o: Coef): Coef { Coef(k0 != o.k0, k1 != o.k1, k2 != o.k2, k3 != o.k3) }
    function Swap1(): Coef { Coef(k1, k0, k3, k2) }
    function Swap2(): Coef { Coef(k2, k3, k0, k1) }
  }

  /** A sum of permuted copies of the four input words. */
  datatype Form = Form(a: Coef, b: Coef, c: Coef, d: Coef) {
    function Plus(o: Form): Form { Form(a.Plus(o.a), b.Plus(o.b), c.Plus(o.c), d.Plus(o.d)) }
    function Swap1(): Form { Form(a.Swap1(), b.Swap1(), c.Swap1(), d.Swap1()) }
    function Swap2(): Form { Form(a.Swap2(), b.Swap2(), c.Swap2(), d.Swap2()) }
  }

  const ZERO := Word(0, 0, 0, 0)

  function Pick(k: bool, w: Word): Word { if k then w else ZERO }

  function Sum(k: Coef, w: Word): Word {
    Pick(k.k0, w).Xor(Pick(k.k1, P1(w))).Xor(Pick(k.k2, P2(w)).Xor(Pick(k.k3, P3(w))))
  }

  function Eval(f: Form, s: State): Word {
    Sum(f.a, s.w0).Xor(Sum(f.b, s.w1)).Xor(Sum(f.c, s.w2).Xor(Sum(f.d, s.w3)))
  }

  lemma WordRegroup(a: Word, b: Word, c: Word, d: Word)
    ensures a.Xor(b).Xor(c.Xor(d)) == a.Xor(c).Xor(b.Xor(d))
  {
    hide Add;
    Regroup(a.b0, b.b0, c.b0, d.b0);
    Regroup(a.b1, b.b1, c.b1, d.b1);
    Regroup(a.b2, b.b2, c.b2, d.b2);
    Regroup(a.b3, b.b3, c.b3, d.b3);
  }

  lemma WordZero(x: Word)
    ensures x.Xor(ZERO) == x && ZERO.Xor(x) == x && x.Xor(x) == ZERO
  {
    hide Add;
    AddZeroOne(x.b0);
    AddZeroOne(x.b1);
    AddZeroOne(x.b2);
    AddZeroOne(x.b3);
  }

  lemma AddZeroOne(x: bv8)
    ensures Add(x, 0) == x && Add(0, x) == x && Add(x, x) == 0
  {
  }

  lemma PickPlus(k: bool, l: bool, w: Word)
    ensures Pick(k, w).Xor(Pick(l, w)) == Pick(k != l, w)
  {
    hide Word.Xor;
    WordZero(w);
    WordZero(ZERO);
  }

  lemma SumPlus(k: Coef, l: Coef, w: Word)
    ensures Sum(k, w).Xor(Sum(l, w)) == Sum(k.Plus(l), w)
  {
    hide Word.Xor, Pick, P1, P2, P3;
    PickPlus(k.k0, l.k0, w);
    PickPlus(k.k1, l.k1, P1(w));
    PickPlus(k.k2, l.k2, P2(w));
    PickPlus(k.k3, l.k3, P3(w));
    WordRegroup(Pick(k.k0, w).Xor(Pick(k.k1, P1(w))), Pick(k.k2, P2(w)).Xor(Pick(k.k3, P3(w))),
      Pick(l.k0, w).Xor(Pick(l.k1, P1(w))), Pick(l.k2, P2(w)).Xor(Pick(l.k3, P3(w))));
    WordRegroup(Pick(k.k0, w), Pick(k.k1, P1(w)), Pick(l.k0, w), Pick(l.k1, P1(w)));
    WordRegroup(Pick(k.k2, P2(w)), Pick(k.k3, P3(w)), Pick(l.k2, P2(w)), Pick(l.k3, P3(w)));
  }

  lemma EvalPlus(f: Form, g: Form, s: State)
    ensures Eval(f, s).Xor(Eval(g, s)) == Eval(f.Plus(g), s)
  {
    hide Word.Xor, Sum, Coef.Plus;
    SumPlus(f.a, g.a, s.w0);
    SumPlus(f.b, g.b, s.w1);
    SumPlus(f.c, g.c, s.w2);
    SumPlus(f.d, g.d, s.w3);
    WordRegroup(Sum(f.a, s.w0).Xor(Sum(f.b, s.w1)), Sum(f.c, s.w2).Xor(Sum(f.d, s.w3)),
      Sum(g.a, s.w0).Xor(Sum(g.b, s.w1)), Sum(g.c, s.w2).Xor(Sum(g.d, s.w3)));
    WordRegroup(Sum(f.a, s.w0), Sum(f.b, s.w1), Sum(g.a, s.w0), Sum(g.b, s.w1));
    WordRegroup(Sum(f.c, s.w2), Sum(f.d, s.w3), Sum(g.c, s.w2), Sum(g.d, s.w3));
  }

  lemma PermXor(x: Word, y: Word)
    ensures P1(x.Xor(y)) == P1(x).Xor(P1(y)) && P2(x.Xor(y)) == P2(x).Xor(P2(y))
  {
    hide Add;
  }

  lemma PermPick(k: bool, w: Word)
    ensures P1(Pick(k, w)) == Pick(k, P1(w)) && P2(Pick(k, w)) == Pick(k, P2(w))
  {
  }

  lemma PermPerm(w: Word)
    ensures P1(P1(w)) == w && P2(P2(w)) == w
    ensures P1(P2(w)) == P3(w) && P2(P1(w)) == P3(w) && P1(P3(w)) == P2(w) && P2(P3(w)) == P1(w)
  {
  }

  lemma WordComm(a: Word, b: Word)
    ensures a.Xor(b) == b.Xor(a)
  {
    hide Add;
    Comm(a.b0, b.b0);
    Comm(a.b1, b.b1);
    Comm(a.b2, b.b2);
    Comm(a.b3, b.b3);
  }

  lemma SumPerm(k: Coef, w: Word)
    ensures P1(Sum(k, w)) == Sum(k.Swap1(), w) && P2(Sum(k, w)) == Sum(k.Swap2(), w)
  {
    hide Word.Xor, Pick, P1, P2, P3;
    var p0, p1, p2, p3 := Pick(k.k0, w), Pick(k.k1, P1(w)), Pick(k.k2, P2(w)), Pick(k.k3, P3(w));
    PermXor(p0.Xor(p1), p2.Xor(p3));
    PermXor(p0, p1);
    PermXor(p2, p3);
    PermPick(k.k0, w);
    PermPick(k.k1, P1(w));
    PermPick(k.k2, P2(w));
    PermPick(k.k3, P3(w));
    PermPerm(w);
    WordComm(P1(p0), P1(p1));
    WordComm(P1(p2), P1(p3));
    WordComm(P2(p0).Xor(P2(p1)), P2(p2).Xor(P2(p3)));
  }

  lemma EvalPerm(f: Form, s: State)
    ensures P1(Eval(f, s)) == Eval(f.Swap1(), s) && P2(Eval(f, s)) == Eval(f.Swap2(), s)
  {
    hide Word.Xor, Sum, P1, P2, P3, Coef.Swap1, Coef.Swap2;
    PermXor(Sum(f.a, s.w0).Xor(Sum(f.b, s.w1)), Sum(f.c, s.w2).Xor(Sum(f.d, s.w3)));
    PermXor(Sum(f.a, s.w0), Sum(f.b, s.w1));
    PermXor(Sum(f.c, s.w2), Sum(f.d, s.w3));
    SumPerm(f.a, s.w0);
    SumPerm(f.b, s.w1);
    SumPerm(f.c, s.w2);
    SumPerm(f.d, s.w3);
  }

  /** Four linear forms: a linear map on states. */
  datatype Forms = Forms(w0: Form, w1: Form, w2: Form, w3: Form) {
    function On(s: State): State { State(Eval(w0, s), Eval(w1, s), Eval(w2, s), Eval(w3, s)) }
  }

  /** aria_a on linear forms instead of words: A composed with the map f. */
  function AForms(f: Forms): Forms {
    var ta := f.w1;
    var b := f.w0;
    var a := ta.Swap2();
    var tb := f.w3.Swap2();
    var d := f.w2.Swap1();
    var c := tb.Swap1();
    var ta := ta.Plus(d);
    var tc := b.Swap2();
    var ta := ta.Swap1().Plus(tc).Plus(c);
    var tb := tb.Plus(d.Swap2());
    var tc := tc.Plus(a.Swap1());
    var b := b.Plus(ta.Plus(tb));
    var tb := tb.Swap2().Plus(ta);
    var a := a.Plus(tb.Swap1());
    var ta := ta.Swap2();
    var d := d.Plus(ta.Swap1().Plus(tc));
    var tc := tc.Swap2();
    var c := c.Plus(tc.Swap1().Plus(ta));
    Forms(a, b, c, d)
  }

  lemma AOfForms(f: Forms, s: State)
    ensures A(f.On(s)) == AForms(f).On(s)
  {
    hide Word.Xor, P1, P2, P3, Eval, Form.Plus, Form.Swap1, Form.Swap2;
    var ta := f.w1;
    var b := f.w0;
    var a := ta.Swap2();                 EvalPerm(ta, s);
    var tb := f.w3.Swap2();              EvalPerm(f.w3, s);
    var d := f.w2.Swap1();               EvalPerm(f.w2, s);
    var c := tb.Swap1();                 EvalPerm(tb, s);
    EvalPlus(ta, d, s);
    ta := ta.Plus(d);
    var tc := b.Swap2();                 EvalPerm(b, s);
    EvalPerm(ta, s);
    EvalPlus(ta.Swap1(), tc, s);
    EvalPlus(ta.Swap1().Plus(tc), c, s);
    ta := ta.Swap1().Plus(tc).Plus(c);
    EvalPerm(d, s);
    EvalPlus(tb, d.Swap2(), s);
    tb := tb.Plus(d.Swap2());
    EvalPerm(a, s);
    EvalPlus(tc, a.Swap1(), s);
    tc := tc.Plus(a.Swap1());
    EvalPlus(ta, tb, s);
    EvalPlus(b, ta.Plus(tb), s);
    EvalPerm(tb, s);
    EvalPlus(tb.Swap2(), ta, s);
    tb := tb.Swap2().Plus(ta);
    EvalPerm(tb, s);
    EvalPlus(a, tb.Swap1(), s);
    EvalPerm(ta, s);
    ta := ta.Swap2();
    EvalPerm(ta, s);
    EvalPlus(ta.Swap1(), tc, s);
    EvalPlus(d, ta.Swap1().Plus(tc), s);
    EvalPerm(tc, s);
    tc := tc.Swap2();
    EvalPerm(tc, s);
    EvalPlus(tc.Swap1(), ta, s);
    EvalPlus(c, tc.Swap1().Plus(ta), s);
  }

  const NONE := Coef(false, false, false, false)
  const SELF := Coef(true, false, false, false)
  const IDENTITY := Forms(Form(SELF, NONE, NONE, NONE), Form(NONE, SELF, NONE, NONE),
                          Form(NONE, NONE, SELF, NONE), Form(NONE, NONE, NONE, SELF))

  lemma IdentityOn(s: State)
    ensures IDENTITY.On(s) == s
  {
    hide Word.Xor, P1, P2, P3;
    SelfAndNone(s.w0);
    SelfAndNone(s.w1);
    SelfAndNone(s.w2);
    SelfAndNone(s.w3);
    hide Sum;
    WordZero(s.w0);
    WordZero(s.w1);
    WordZero(s.w2);
    WordZero(s.w3);
    WordZero(ZERO);
  }

  lemma SelfAndNone(w: Word)
    ensures Sum(SELF, w) == w && Sum(NONE, w) == ZERO
  {
    hide Word.Xor, P1, P2, P3;
    WordZero(w);
    WordZero(ZERO);
  }

  /** Section 2.4.3: the diffusion layer is its own inverse. */
  lemma AIsAnInvolution(s: State)
    ensures A(A(s)) == s
  {
    IdentityOn(s);
    AOfForms(IDENTITY, s);
    MatrixOfA();
    AOfForms(MATRIX, s);
    hide A, AForms, Forms.On;
    SquareIsIdentity();
  }

  /** aria_a as four linear forms, one for each output word. */
  const FORM0 := Form(Coef(false, false, false, true), Coef(true, false, true, false), Coef(true, true, false,
          false), Coef(false, true, true, false))
  const FORM1 := Form(Coef(true, false, true, false), Coef(false, true, false, false), Coef(true, false, false,
          true), Coef(false, false, true, true))
  const FORM2 := Form(Coef(true, true, false, false), Coef(true, false, false, true), Coef(false, false, true,
          false), Coef(false, true, false, true))
  const FORM3 := Form(Coef(false, true, true, false), Coef(false, false, true, true), Coef(false, true, false,
          true), Coef(true, false, false, false))
  const MATRIX := Forms(FORM0, FORM1, FORM2, FORM3)

  lemma MatrixOfA()
    ensures AForms(IDENTITY) == MATRIX
  {
  }

  lemma SquareIsIdentity()
    ensures AForms(MATRIX) == IDENTITY
  {
  }

  lemma SumOfXor(k: Coef, x: Word, y: Word)
    ensures Sum(k, x.Xor(y)) == Sum(k, x).Xor(Sum(k, y))
  {
    hide Word.Xor, P1, P2, P3;
    PermXor(x, y);
    PermPerm(x);
    PermPerm(y);
    PermPerm(x.Xor(y));
    PermXor(P2(x), P2(y));
    WordZero(ZERO);
    var (x0, x1, x2, x3) := (Pick(k.k0, x), Pick(k.k1, P1(x)), Pick(k.k2, P2(x)), Pick(k.k3, P3(x)));
    var (y0, y1, y2, y3) := (Pick(k.k0, y), Pick(k.k1, P1(y)), Pick(k.k2, P2(y)), Pick(k.k3, P3(y)));
    WordRegroup(x0, x1, y0, y1);
    WordRegroup(x2, x3, y2, y3);
    WordRegroup(x0.Xor(x1), x2.Xor(x3), y0.Xor(y1), y2.Xor(y3));
  }

  lemma EvalOfXor(f: Form, s: State, t: State)
    ensures Eval(f, s.Xor(t)) == Eval(f, s).Xor(Eval(f, t))
  {
    hide Word.Xor, Sum;
    SumOfXor(f.a, s.w0, t.w0);
    SumOfXor(f.b, s.w1, t.w1);
    SumOfXor(f.c, s.w2, t.w2);
    SumOfXor(f.d, s.w3, t.w3);
    WordRegroup(Sum(f.a, s.w0), Sum(f.b, s.w1), Sum(f.a, t.w0), Sum(f.b, t.w1));
    WordRegroup(Sum(f.c, s.w2), Sum(f.d, s.w3), Sum(f.c, t.w2), Sum(f.d, t.w3));
    WordRegroup(Sum(f.a, s.w0).Xor(Sum(f.b, s.w1)), Sum(f.c, s.w2).Xor(Sum(f.d, s.w3)),
      Sum(f.a, t.w0).Xor(Sum(f.b, t.w1)), Sum(f.c, t.w2).Xor(Sum(f.d, t.w3)));
  }

  /** The diffusion layer is linear. */
  lemma AIsLinear(s: State, t: State)
    ensures A(s.Xor(t)) == A(s).Xor(A(t))
  {
    hide A, AForms, Word.Xor;
    var m := AForms(IDENTITY);
    IdentityOn(s);
    IdentityOn(t);
    IdentityOn(s.Xor(t));
    AOfForms(IDENTITY, s);
    AOfForms(IDENTITY, t);
    AOfForms(IDENTITY, s.Xor(t));
    hide Eval;
    EvalOfXor(m.w0, s, t);
    EvalOfXor(m.w1, s, t);
    EvalOfXor(m.w2, s, t);
    EvalOfXor(m.w3, s, t);
  }

  // ---- The matrix of section 2.4.3, seven permuted words to each output word ----

  const ONE1 := Coef(false, true, false, false)
  const ONE2 := Coef(false, false, true, false)
  const ONE3 := Coef(false, false, false, true)

  /** One permuted input word: word a to d of the state as it is (0) or under P1, P2, P3. */
  datatype Term =
    | A0 | A1 | A2 | A3
    | B0 | B1 | B2 | B3
    | C0 | C1 | C2 | C3
    | D0 | D1 | D2 | D3
  {
    function At(s: State): Word {
      match this
      case A0 => s.w0 case A1 => P1(s.w0) case A2 => P2(s.w0) case A3 => P3(s.w0)
      case B0 => s.w1 case B1 => P1(s.w1) case B2 => P2(s.w1) case B3 => P3(s.w1)
      case C0 => s.w2 case C1 => P1(s.w2) case C2 => P2(s.w2) case C3 => P3(s.w2)
      case D0 => s.w3 case D1 => P1(s.w3) case D2 => P2(s.w3) case D3 => P3(s.w3)
    }

    function AsForm(): Form {
      match this
      case A0 => Form(SELF, NONE, NONE, NONE)
      case A1 => Form(ONE1, NONE, NONE, NONE)
      case A2 => Form(ONE2, NONE, NONE, NONE)
      case A3 => Form(ONE3, NONE, NONE, NONE)
      case B0 => Form(NONE, SELF, NONE, NONE)
      case B1 => Form(NONE, ONE1, NONE, NONE)
      case B2 => Form(NONE, ONE2, NONE, NONE)
      case B3 => Form(NONE, ONE3, NONE, NONE)
      case C0 => Form(NONE, NONE, SELF, NONE)
      case C1 => Form(NONE, NONE, ONE1, NONE)
      case C2 => Form(NONE, NONE, ONE2, NONE)
      case C3 => Form(NONE, NONE, ONE3, NONE)
      case D0 => Form(NONE, NONE, NONE, SELF)
      case D1 => Form(NONE, NONE, NONE, ONE1)
      case D2 => Form(NONE, NONE, NONE, ONE2)
      case D3 => Form(NONE, NONE, NONE, ONE3)
    }
  }

  datatype Row = Row(t1: Term, t2: Term, t3: Term, t4: Term, t5: Term, t6: Term, t7: Term) {
    function At(s: State): Word {
      t1.At(s).Xor(t2.At(s)).Xor(t3.At(s)).Xor(t4.At(s)).Xor(t5.At(s)).Xor(t6.At(s)).Xor(t7.At(s))
    }

    function AsForm(): Form {
      t1.AsForm().Plus(t2.AsForm()).Plus(t3.AsForm()).Plus(t4.AsForm()).Plus(t5.AsForm()).Plus(t6.AsForm()).Plus(t7.AsForm())
    }
  }

  const ROW0 := Row(A3, B0, B2, C0, C1, D1, D2)
  const ROW1 := Row(A0, A2, B1, C0, C3, D2, D3)
  const ROW2 := Row(A0, A1, B0, B3, C2, D1, D3)
  const ROW3 := Row(A1, A2, B2, B3, C1, C3, D0)

  lemma PermutedOnce(w: Word)
    ensures Sum(ONE1, w) == P1(w) && Sum(ONE2, w) == P2(w) && Sum(ONE3, w) == P3(w)
  {
    hide Word.Xor, P1, P2, P3;
    WordZero(P1(w));
    WordZero(P2(w));
    WordZero(P3(w));
    WordZero(ZERO);
  }

  lemma TermIsForm(t: Term, s: State)
    ensures t.At(s) == Eval(t.AsForm(), s)
  {
    hide Word.Xor, P1, P2, P3, Sum;
    SelfAndNone(s.w0);
    SelfAndNone(s.w1);
    SelfAndNone(s.w2);
    SelfAndNone(s.w3);
    PermutedOnce(s.w0);
    PermutedOnce(s.w1);
    PermutedOnce(s.w2);
    PermutedOnce(s.w3);
    WordZero(t.At(s));
    WordZero(ZERO);
  }

  lemma RowIsForm(r: Row, s: State)
    ensures r.At(s) == Eval(r.AsForm(), s)
  {
    hide Word.Xor, Eval, Form.Plus, Term.At, Term.AsForm;
    TermIsForm(r.t1, s);
    TermIsForm(r.t2, s);
    TermIsForm(r.t3, s);
    TermIsForm(r.t4, s);
    TermIsForm(r.t5, s);
    TermIsForm(r.t6, s);
    TermIsForm(r.t7, s);
    var f2 := r.t1.AsForm().Plus(r.t2.AsForm());
    var f3 := f2.Plus(r.t3.AsForm());
    var f4 := f3.Plus(r.t4.AsForm());
    var f5 := f4.Plus(r.t5.AsForm());
    EvalPlus(r.t1.AsForm(), r.t2.AsForm(), s);
    EvalPlus(f2, r.t3.AsForm(), s);
    EvalPlus(f3, r.t4.AsForm(), s);
    EvalPlus(f4, r.t5.AsForm(), s);
    EvalPlus(f5, r.t6.AsForm(), s);
    EvalPlus(f5.Plus(r.t6.AsForm()), r.t7.AsForm(), s);
  }

  lemma RowForm0()
    ensures ROW0.AsForm() == FORM0
  {
  }

  lemma RowForm1()
    ensures ROW1.AsForm() == FORM1
  {
  }

  lemma RowForm2()
    ensures ROW2.AsForm() == FORM2
  {
  }

  lemma RowForm3()
    ensures ROW3.AsForm() == FORM3
  {
  }

  /** The eleven in-place assignments of aria_a compute the matrix of section 2.4.3. */
  lemma AIsTheMatrix(s: State)
    ensures A(s) == State(ROW0.At(s), ROW1.At(s), ROW2.At(s), ROW3.At(s))
  {
    hide A, AForms, Eval, Row.At, Row.AsForm;
    IdentityOn(s);
    AOfForms(IDENTITY, s);
    MatrixOfA();
    RowForm0();
    RowForm1();
    RowForm2();
    RowForm3();
    RowIsForm(ROW0, s);
    RowIsForm(ROW1, s);
    RowIsForm(ROW2, s);
    RowIsForm(ROW3, s);
  }

  function Seven(a: bv8, b: bv8, c: bv8, d: bv8, e: bv8, f: bv8, g: bv8): bv8 { a ^ b ^ c ^ d ^ e ^ f ^ g }

  /** A sum of seven words, byte by byte. */
  lemma SumOfSeven(a: Word, b: Word, c: Word, d: Word, e: Word, f: Word, g: Word)
    ensures var s := a.Xor(b).Xor(c).Xor(d).Xor(e).Xor(f).Xor(g);
      && s.b0 == Seven(a.b0, b.b0, c.b0, d.b0, e.b0, f.b0, g.b0)
      && s.b1 == Seven(a.b1, b.b1, c.b1, d.b1, e.b1, f.b1, g.b1)
      && s.b2 == Seven(a.b2, b.b2, c.b2, d.b2, e.b2, f.b2, g.b2)
      && s.b3 == Seven(a.b3, b.b3, c.b3, d.b3, e.b3, f.b3, g.b3)
  {
    SevenBytes(a.b0, b.b0, c.b0, d.b0, e.b0, f.b0, g.b0);
    SevenBytes(a.b1, b.b1, c.b1, d.b1, e.b1, f.b1, g.b1);
    SevenBytes(a.b2, b.b2, c.b2, d.b2, e.b2, f.b2, g.b2);
    SevenBytes(a.b3, b.b3, c.b3, d.b3, e.b3, f.b3, g.b3);
    hide Add, Seven;
  }

  lemma SevenBytes(a: bv8, b: bv8, c: bv8, d: bv8, e: bv8, f: bv8, g: bv8)
    ensures Add(Add(Add(Add(Add(Add(a, b), c), d), e), f), g) == Seven(a, b, c, d, e, f, g)
  {
  }

  // The rows of the matrix of section 2.4.3, byte by byte.

  lemma DiffusedWord0(s: State)
    ensures var y := A(s).w0;
      && y.b0 == Seven(s.w0.b3, s.w1.b0, s.w1.b2, s.w2.b0, s.w2.b1, s.w3.b1, s.w3.b2)
      && y.b1 == Seven(s.w0.b2, s.w1.b1, s.w1.b3, s.w2.b1, s.w2.b0, s.w3.b0, s.w3.b3)
      && y.b2 == Seven(s.w0.b1, s.w1.b2, s.w1.b0, s.w2.b2, s.w2.b3, s.w3.b3, s.w3.b0)
      && y.b3 == Seven(s.w0.b0, s.w1.b3, s.w1.b1, s.w2.b3, s.w2.b2, s.w3.b2, s.w3.b1)
  {
    AIsTheMatrix(s);
    hide A, Word.Xor, Seven;
    var r := ROW0;
    SumOfSeven(r.t1.At(s), r.t2.At(s), r.t3.At(s), r.t4.At(s), r.t5.At(s), r.t6.At(s), r.t7.At(s));
  }

  lemma DiffusedWord1(s: State)
    ensures var y := A(s).w1;
      && y.b0 == Seven(s.w0.b0, s.w0.b2, s.w1.b1, s.w2.b0, s.w2.b3, s.w3.b2, s.w3.b3)
      && y.b1 == Seven(s.w0.b1, s.w0.b3, s.w1.b0, s.w2.b1, s.w2.b2, s.w3.b3, s.w3.b2)
      && y.b2 == Seven(s.w0.b2, s.w0.b0, s.w1.b3, s.w2.b2, s.w2.b1, s.w3.b0, s.w3.b1)
      && y.b3 == Seven(s.w0.b3, s.w0.b1, s.w1.b2, s.w2.b3, s.w2.b0, s.w3.b1, s.w3.b0)
  {
    AIsTheMatrix(s);
    hide A, Word.Xor, Seven;
    var r := ROW1;
    SumOfSeven(r.t1.At(s), r.t2.At(s), r.t3.At(s), r.t4.At(s), r.t5.At(s), r.t6.At(s), r.t7.At(s));
  }

  lemma DiffusedWord2(s: State)
    ensures var y := A(s).w2;
      && y.b0 == Seven(s.w0.b0, s.w0.b1, s.w1.b0, s.w1.b3, s.w2.b2, s.w3.b1, s.w3.b3)
      && y.b1 == Seven(s.w0.b1, s.w0.b0, s.w1.b1, s.w1.b2, s.w2.b3, s.w3.b0, s.w3.b2)
      && y.b2 == Seven(s.w0.b2, s.w0.b3, s.w1.b2, s.w1.b1, s.w2.b0, s.w3.b3, s.w3.b1)
      && y.b3 == Seven(s.w0.b3, s.w0.b2, s.w1.b3, s.w1.b0, s.w2.b1, s.w3.b2, s.w3.b0)
  {
    AIsTheMatrix(s);
    hide A, Word.Xor, Seven;
    var r := ROW2;
    SumOfSeven(r.t1.At(s), r.t2.At(s), r.t3.At(s), r.t4.At(s), r.t5.At(s), r.t6.At(s), r.t7.At(s));
  }

  lemma DiffusedWord3(s: State)
    ensures var y := A(s).w3;
      && y.b0 == Seven(s.w0.b1, s.w0.b2, s.w1.b2, s.w1.b3, s.w2.b1, s.w2.b3, s.w3.b0)
      && y.b1 == Seven(s.w0.b0, s.w0.b3, s.w1.b3, s.w1.b2, s.w2.b0, s.w2.b2, s.w3.b1)
      && y.b2 == Seven(s.w0.b3, s.w0.b0, s.w1.b0, s.w1.b1, s.w2.b3, s.w2.b1, s.w3.b2)
      && y.b3 == Seven(s.w0.b2, s.w0.b1, s.w1.b1, s.w1.b0, s.w2.b2, s.w2.b0, s.w3.b3)
  {
    AIsTheMatrix(s);
    hide A, Word.Xor, Seven;
    var r := ROW3;
    SumOfSeven(r.t1.At(s), r.t2.At(s), r.t3.At(s), r.t4.At(s), r.t5.At(s), r.t6.At(s), r.t7.At(s));
  }

  // ---- Substitution layers ----

  /** The four S-boxes; is1 and is2 are the inverses of sb1 and sb2. */
  datatype SBoxes = SBoxes(sb1: bv8 -> bv8, sb2: bv8 -> bv8, is1: bv8 -> bv8, is2: bv8 -> bv8) {
    ghost predicate Inverse() {
      && (forall x :: is1(sb1(x)) == x) && (forall x :: sb1(is1(x)) == x)
      && (forall x :: is2(sb2(x)) == x) && (forall x :: sb2(is2(x)) == x)
    }
  }

  /** aria_sl on one word. */
  function SlWord(w: Word, sa: bv8 -> bv8, sb: bv8 -> bv8, sc: bv8 -> bv8, sd: bv8 -> bv8): Word {
    Word(sa(w.b0), sb(w.b1), sc(w.b2), sd(w.b3))
  }

  function Sl(s: State, sa: bv8 -> bv8, sb: bv8 -> bv8, sc: bv8 -> bv8, sd: bv8 -> bv8): State {
    State(SlWord(s.w0, sa, sb, sc, sd), SlWord(s.w1, sa, sb, sc, sd), SlWord(s.w2, sa, sb, sc, sd), SlWord(s.w3,
            sa, sb, sc, sd))
  }

  /** SL1 in odd rounds, SL2 in even rounds. */
  function SL(t: SBoxes, odd: bool, s: State): State {
    if odd then Sl(s, t.sb1, t.sb2, t.is1, t.is2) else Sl(s, t.is1, t.is2, t.sb1, t.sb2)
  }

  lemma SLUndoesSL(t: SBoxes, odd: bool, s: State)
    requires t.Inverse()
    ensures SL(t, !odd, SL(t, odd, s)) == s
  {
  }

  /** Which S-box each byte goes through: the four in turn, beginning with the third in even rounds. */
  lemma SubstitutedWord(t: SBoxes, odd: bool, s: State, j: nat)
    requires j < 4
    ensures var x, y := s.At(j), SL(t, odd, s).At(j);
      y == if odd then Word(t.sb1(x.b0), t.sb2(x.b1), t.is1(x.b2), t.is2(x.b3))
           else Word(t.is1(x.b0), t.is2(x.b1), t.sb1(x.b2), t.sb2(x.b3))
  {
  }

  // ---- The cipher ----

  /** The input of the substitution layer of round r, for r = 1 .. nr. */
  function Keyed(t: SBoxes, rk: seq<State>, r: nat, s: State): State
    requires 1 <= r <= |rk|
  {
    if r == 1 then s.Xor(rk[0]) else A(SL(t, Odd(r - 1), Keyed(t, rk, r - 1, s))).Xor(rk[r - 1])
  }

  /** The cipher of section 2.3.3: nr rounds, the last without diffusion, then the last key. */
  function Crypt(t: SBoxes, rk: seq<State>, nr: nat, s: State): State
    requires 0 < nr < |rk|
  {
    SL(t, Odd(nr), Keyed(t, rk, nr, s)).Xor(rk[nr])
  }

  /** dk holds the round keys in reverse order, the middle ones passed through A. */
  ghost predicate IsDecryptionSchedule(rk: seq<State>, dk: seq<State>, nr: nat) {
    && nr < |rk| && nr < |dk|
    && dk[0] == rk[nr] && dk[nr] == rk[0]
    && forall r :: 0 < r < nr ==> dk[r] == A(rk[nr - r])
  }

  /** Substitution, diffusion and a key passed through A undo diffusion, key and substitution. */
  lemma RoundUndone(t: SBoxes, odd: bool, u: State, k: State)
    requires t.Inverse()
    ensures A(SL(t, !odd, SL(t, odd, A(u).Xor(k)))).Xor(A(k)) == u
  {
    hide A, SL, State.Xor;
    SLUndoesSL(t, odd, A(u).Xor(k));
    AIsLinear(A(u), k);
    AIsAnInvolution(u);
    XorCancel(u, A(k));
  }

  /** Rounds are counted from 1, so the odd ones use SL1. */
  predicate Odd(r: nat) { r % 2 == 1 }

  lemma Parity(nr: nat, r: nat)
    requires nr % 2 == 0 && 1 <= r <= nr
    ensures Odd(nr + 1 - r) == !Odd(r) && !Odd(nr) && (1 < r ==> Odd(r - 1) == !Odd(r)) && Odd(nr + 2 - r) == Odd(r)
  {
  }

  lemma KeyedNext(t: SBoxes, rk: seq<State>, r: nat, s: State)
    requires 1 <= r < |rk|
    ensures Keyed(t, rk, r + 1, s) == A(SL(t, Odd(r), Keyed(t, rk, r, s))).Xor(rk[r])
  {
  }

  /** Decryption round r starts from what encryption round nr + 1 - r had after substitution. */
  lemma {:induction false} KeyedTracksBack(t: SBoxes, rk: seq<State>, dk: seq<State>, nr: nat, r: nat, s: State)
    requires t.Inverse() && nr % 2 == 0 && IsDecryptionSchedule(rk, dk, nr) && 1 <= r <= nr
    ensures Keyed(t, dk, r, Crypt(t, rk, nr, s)) == SL(t, Odd(nr + 1 - r), Keyed(t, rk, nr + 1 - r, s))
  {
    hide A, SL, State.Xor;
    if r == 1 {
      XorCancel(SL(t, Odd(nr), Keyed(t, rk, nr, s)), rk[nr]);
    } else {
      KeyedTracksBack(t, rk, dk, nr, r - 1, s);
      hide Keyed, Crypt;
      var n := nr + 1 - r;
      Parity(nr, r);
      hide Odd;
      KeyedNext(t, dk, r - 1, Crypt(t, rk, nr, s));
      KeyedNext(t, rk, n, s);
      RoundUndone(t, Odd(n + 1), SL(t, Odd(n), Keyed(t, rk, n, s)), rk[n]);
    }
  }

  /** The encryption routine run on a decryption schedule undoes encryption. */
  lemma CryptUndoesCrypt(t: SBoxes, rk: seq<State>, dk: seq<State>, nr: nat, s: State)
    requires t.Inverse() && 0 < nr && nr % 2 == 0 && IsDecryptionSchedule(rk, dk, nr)
    ensures Crypt(t, dk, nr, Crypt(t, rk, nr, s)) == s
  {
    hide A, SL, State.Xor;
    KeyedTracksBack(t, rk, dk, nr, nr, s);
    SLUndoesSL(t, Odd(1), Keyed(t, rk, 1, s));
    XorCancel(s, rk[0]);
  }

  // ---- The code ----

  const ERR_ARIA_BAD_INPUT_DATA: int := -0x005C

  /** Reverses elements 0 to n in place. */
  method Flip<T>(a: array<T>, n: nat)
    requires n < a.Length
    modifies a
    ensures forall r :: 0 <= r <= n ==> a[r] == old(a[n - r])
  {
    var i, j := 0, n;
    while i < j
      invariant 0 <= i <= j + 1 && i + j == n
      invariant forall r :: 0 <= r < i || j < r <= n ==> a[r] == old(a[n - r])
      invariant forall r :: i <= r <= j ==> a[r] == old(a[r])
    {
      a[i], a[j] := a[j], a[i];
      i, j := i + 1, j - 1;
    }
  }

  // ---- Key expansion ----

  /** The constants of section 2.2 of RFC 5794: of each group of four bytes the first is the lowest of the word. */
  const RC1 := State(Word(0x51, 0x7c, 0xc1, 0xb7), Word(0x27, 0x22, 0x0a, 0x94),
                      Word(0xfe, 0x13, 0xab, 0xe8), Word(0xfa, 0x9a, 0x6e, 0xe0))
  const RC2 := State(Word(0x6d, 0xb1, 0x4a, 0xcc), Word(0x9e, 0x21, 0xc8, 0x20),
                      Word(0xff, 0x28, 0xb1, 0xd5), Word(0xef, 0x5d, 0xe2, 0xb0))
  const RC3 := State(Word(0xdb, 0x92, 0x37, 0x1d), Word(0x21, 0x26, 0xe9, 0x70),
                      Word(0x03, 0x24, 0x97, 0x75), Word(0x04, 0xe8, 0xc9, 0x0e))

  /** FO for odd and FE for even: a round function without its key addition at the end. */
  function F(t: SBoxes, odd: bool, d: State, k: State): State { A(SL(t, odd, d.Xor(k))) }

  /** CK1, CK2 and CK3 for a key of so many bytes. */
  function CK(len: nat, i: nat): State
    requires len in {16, 24, 32} && 1 <= i <= 3
  {
    match ((len - 16) / 8 + i) % 3
    case 1 => RC1
    case 2 => RC2
    case 0 => RC3
  }

  function KL(key: seq<bv8>): State
    requires |key| >= 16
  {
    GetState(key[..16])
  }

  /** The rest of the key, filled up with zeros. */
  function KR(key: seq<bv8>): State
    requires 16 <= |key| <= 32
  {
    GetState(key[16..] + seq(32 - |key|, _ => 0))
  }

  function W1(t: SBoxes, key: seq<bv8>): State
    requires |key| in {16, 24, 32}
  {
    F(t, true, KL(key), CK(|key|, 1)).Xor(KR(key))
  }

  function W2(t: SBoxes, key: seq<bv8>): State
    requires |key| in {16, 24, 32}
  {
    F(t, false, W1(t, key), CK(|key|, 2)).Xor(KL(key))
  }

  function W3(t: SBoxes, key: seq<bv8>): State
    requires |key| in {16, 24, 32}
  {
    F(t, true, W2(t, key), CK(|key|, 3)).Xor(W1(t, key))
  }

  /** Rotation to the right. */
  function Rotr(s: State, n: nat): State
    requires n <= 128
  {
    Rotl(s, 128 - n)
  }

  /** The seventeen encryption round keys. */
  function RoundKeys(w0: State, w1: State, w2: State, w3: State): (ek: seq<State>)
    ensures |ek| == 17
  {
    [w0.Xor(Rotr(w1, 19)), w1.Xor(Rotr(w2, 19)), w2.Xor(Rotr(w3, 19)), w3.Xor(Rotr(w0, 19)),
     w0.Xor(Rotr(w1, 31)), w1.Xor(Rotr(w2, 31)), w2.Xor(Rotr(w3, 31)), w3.Xor(Rotr(w0, 31)),
     w0.Xor(Rotl(w1, 61)), w1.Xor(Rotl(w2, 61)), w2.Xor(Rotl(w3, 61)), w3.Xor(Rotl(w0, 61)),
     w0.Xor(Rotl(w1, 31)), w1.Xor(Rotl(w2, 31)), w2.Xor(Rotl(w3, 31)), w3.Xor(Rotl(w0, 31)),
     w0.Xor(Rotl(w1, 19))]
  }

  function KeyExpansion(t: SBoxes, key: seq<bv8>): (ek: seq<State>)
    requires |key| in {16, 24, 32}
    ensures |ek| == 17
  {
    RoundKeys(KL(key), W1(t, key), W2(t, key), W3(t, key))
  }

  /** The words of the key in front of zeros, read as the code reads them. */
  lemma KeyWords(key: seq<bv8>)
    requires |key| in {16, 24, 32}
    ensures var z := Word(0, 0, 0, 0);
      && KL(key) == State(GetWord(key, 0), GetWord(key, 4), GetWord(key, 8), GetWord(key, 12))
      && KR(key) == State(if |key| >= 24 then GetWord(key, 16) else z, if |key| >= 24 then GetWord(key, 20) else z,
                          if |key| == 32 then GetWord(key, 24) else z, if |key| == 32 then GetWord(key, 28) else z)
  {
  }

  /** The constants of the standard, in the order that the length of the key gives them. */
  lemma ConstantsInOrder()
    ensures CK(16, 1) ==
        State(Word(0x51, 0x7c, 0xc1, 0xb7), Word(0x27, 0x22, 0x0a, 0x94),
              Word(0xfe, 0x13, 0xab, 0xe8), Word(0xfa, 0x9a, 0x6e, 0xe0))
    ensures CK(16, 2) ==
        State(Word(0x6d, 0xb1, 0x4a, 0xcc), Word(0x9e, 0x21, 0xc8, 0x20),
              Word(0xff, 0x28, 0xb1, 0xd5), Word(0xef, 0x5d, 0xe2, 0xb0))
    ensures CK(16, 3) ==
        State(Word(0xdb, 0x92, 0x37, 0x1d), Word(0x21, 0x26, 0xe9, 0x70),
              Word(0x03, 0x24, 0x97, 0x75), Word(0x04, 0xe8, 0xc9, 0x0e))
    ensures CK(24, 1) == CK(16, 2) && CK(24, 2) == CK(16, 3) && CK(24, 3) == CK(16, 1)
    ensures CK(32, 1) == CK(16, 3) && CK(32, 2) == CK(16, 1) && CK(32, 3) == CK(16, 2)
  {
  }

  /** A key byte with a byte of the first constant added. */
  function Keyed1(key: seq<bv8>, i: nat, c: bv8): bv8
    requires i < |key|
  {
    key[i] ^ c
  }

  /**
   * The first word of W1 for a 128-bit key, on the bytes of the key: each byte is the sum of seven bytes of the
   * key with the first constant added, behind their S-boxes.
   */
  lemma W1OnBytes(t: SBoxes, key: seq<bv8>)
    requires |key| == 16
    ensures var w := W1(t, key).w0;
      && w.b0 == Seven(t.is2(Keyed1(key, 3, 0xb7)), t.sb1(Keyed1(key, 4, 0x27)), t.is1(Keyed1(key, 6, 0x0a)),
                       t.sb1(Keyed1(key, 8, 0xfe)), t.sb2(Keyed1(key, 9, 0x13)), t.sb2(Keyed1(key, 13, 0x9a)),
                       t.is1(Keyed1(key, 14, 0x6e)))
      && w.b1 == Seven(t.is1(Keyed1(key, 2, 0xc1)), t.sb2(Keyed1(key, 5, 0x22)), t.is2(Keyed1(key, 7, 0x94)),
                       t.sb2(Keyed1(key, 9, 0x13)), t.sb1(Keyed1(key, 8, 0xfe)), t.sb1(Keyed1(key, 12, 0xfa)),
                       t.is2(Keyed1(key, 15, 0xe0)))
      && w.b2 == Seven(t.sb2(Keyed1(key, 1, 0x7c)), t.is1(Keyed1(key, 6, 0x0a)), t.sb1(Keyed1(key, 4, 0x27)),
                       t.is1(Keyed1(key, 10, 0xab)), t.is2(Keyed1(key, 11, 0xe8)), t.is2(Keyed1(key, 15, 0xe0)),
                       t.sb1(Keyed1(key, 12, 0xfa)))
      && w.b3 == Seven(t.sb1(Keyed1(key, 0, 0x51)), t.is2(Keyed1(key, 7, 0x94)), t.sb2(Keyed1(key, 5, 0x22)),
                       t.is2(Keyed1(key, 11, 0xe8)), t.is1(Keyed1(key, 10, 0xab)), t.is1(Keyed1(key, 14, 0x6e)),
                       t.sb2(Keyed1(key, 13, 0x9a)))
  {
    hide A, Seven, Keyed1, Rotl;
    var x := KL(key).Xor(CK(16, 1));
    var y := SL(t, true, x);
    KeyWords(key);
    FirstKeyed(key);
    SubstitutedWord(t, true, x, 0);
    SubstitutedWord(t, true, x, 1);
    SubstitutedWord(t, true, x, 2);
    SubstitutedWord(t, true, x, 3);
    DiffusedWord0(y);
    hide SL, State.Xor, KL, KR;
    WordZero(A(y).w0);
    XorOfFirst(A(y), KR(key));
  }

  lemma XorOfFirst(x: State, y: State)
    ensures x.Xor(y).w0 == x.w0.Xor(y.w0)
  {
  }

  /** The input of the substitution layer. */
  lemma FirstKeyed(key: seq<bv8>)
    requires |key| == 16
    ensures KL(key).Xor(CK(16, 1)) ==
      State(Word(Keyed1(key, 0, 0x51), Keyed1(key, 1, 0x7c), Keyed1(key, 2, 0xc1), Keyed1(key, 3, 0xb7)),
            Word(Keyed1(key, 4, 0x27), Keyed1(key, 5, 0x22), Keyed1(key, 6, 0x0a), Keyed1(key, 7, 0x94)),
            Word(Keyed1(key, 8, 0xfe), Keyed1(key, 9, 0x13), Keyed1(key, 10, 0xab), Keyed1(key, 11, 0xe8)),
            Word(Keyed1(key, 12, 0xfa), Keyed1(key, 13, 0x9a), Keyed1(key, 14, 0x6e), Keyed1(key, 15, 0xe0)))
  {
    ConstantsInOrder();
    KeyWords(key);
    OneKeyed(key, 0, 0x51);
    OneKeyed(key, 1, 0x7c);
    OneKeyed(key, 2, 0xc1);
    OneKeyed(key, 3, 0xb7);
    OneKeyed(key, 4, 0x27);
    OneKeyed(key, 5, 0x22);
    OneKeyed(key, 6, 0x0a);
    OneKeyed(key, 7, 0x94);
    OneKeyed(key, 8, 0xfe);
    OneKeyed(key, 9, 0x13);
    OneKeyed(key, 10, 0xab);
    OneKeyed(key, 11, 0xe8);
    OneKeyed(key, 12, 0xfa);
    OneKeyed(key, 13, 0x9a);
    OneKeyed(key, 14, 0x6e);
    OneKeyed(key, 15, 0xe0);
    hide Add, Keyed1, KL, CK;
  }

  lemma OneKeyed(key: seq<bv8>, i: nat, c: bv8)
    requires i < |key|
    ensures Add(key[i], c) == Keyed1(key, i, c)
  {
  }

  class AriaContext {
    var nr: nat
    const rk: array<State>

    constructor ()
      ensures rk.Length == 17 && fresh(rk)
    {
      nr := 0;
      var z := Word(0, 0, 0, 0);
      rk := new State[17](_ => State(z, z, z, z));
    }

    ghost predicate Ready()
      reads this
    {
      nr in {12, 14, 16} && rk.Length == 17
    }

    /** mbedtls_aria_setkey_enc */
    method SetkeyEnc(t: SBoxes, key: seq<bv8>, keybits: nat) returns (ret: int)
      requires rk.Length == 17 && (keybits in {128, 192, 256} ==> |key| == keybits / 8)
      modifies this, rk
      ensures keybits !in {128, 192, 256} ==> ret == ERR_ARIA_BAD_INPUT_DATA && nr == old(nr) && rk[..] == old(rk[..])
      ensures keybits in {128, 192, 256} ==>
        ret == 0 && Ready() && nr == keybits / 32 + 8 && rk[..] == KeyExpansion(t, key)
    {
      hide A, SL, State.Xor, Rotl, KL, KR, GetWord;
      if keybits != 128 && keybits != 192 && keybits != 256 {
        return ERR_ARIA_BAD_INPUT_DATA;
      }
      KeyWords(key);
      var rc := [RC1, RC2, RC3];
      var z := Word(0, 0, 0, 0);
      var w0 := State(GetWord(key, 0), GetWord(key, 4), GetWord(key, 8), GetWord(key, 12));
      var w1 := State(z, z, z, z);
      if keybits >= 192 {
        w1 := w1.(w0 := GetWord(key, 16), w1 := GetWord(key, 20));
      }
      if keybits == 256 {
        w1 := w1.(w2 := GetWord(key, 24), w3 := GetWord(key, 28));
      }
      var i := (keybits - 128) / 64;
      nr := 12 + 2 * i;
      w1 := F(t, true, w0, rc[i]).Xor(w1);
      i := if i < 2 then i + 1 else 0;
      var w2 := F(t, false, w1, rc[i]).Xor(w0);
      i := if i < 2 then i + 1 else 0;
      var w3 := F(t, true, w2, rc[i]).Xor(w1);
      MakeRoundKeys(w0, w1, w2, w3);
      return 0;
    }

    /** The loop over the four words, five rotations in all. */
    method MakeRoundKeys(w0: State, w1: State, w2: State, w3: State)
      requires rk.Length == 17
      modifies rk
      ensures rk[..] == RoundKeys(w0, w1, w2, w3)
    {
      hide State.Xor, Rotl;
      var w := [w0, w1, w2, w3];
      ghost var ek := RoundKeys(w0, w1, w2, w3);
      for i := 0 to 4
        invariant forall k :: 0 <= k < 16 && k % 4 < i ==> rk[k] == ek[k]
      {
        var next := w[(i + 1) % 4];
        rk[i] := Rot128(w[i], next, 128 - 19);
        rk[i + 4] := Rot128(w[i], next, 128 - 31);
        rk[i + 8] := Rot128(w[i], next, 61);
        rk[i + 12] := Rot128(w[i], next, 31);
      }
      rk[16] := Rot128(w0, w1, 19);
      assert rk[..] == ek;
    }

    /** mbedtls_aria_setkey_dec */
    method SetkeyDec(t: SBoxes, key: seq<bv8>, keybits: nat) returns (ret: int)
      requires rk.Length == 17 && (keybits in {128, 192, 256} ==> |key| == keybits / 8)
      modifies this, rk
      ensures keybits !in {128, 192, 256} ==> ret == ERR_ARIA_BAD_INPUT_DATA && nr == old(nr) && rk[..] == old(rk[..])
      ensures keybits in {128, 192, 256} ==>
        ret == 0 && Ready() && nr == keybits / 32 + 8 && IsDecryptionSchedule(KeyExpansion(t, key), rk[..], nr)
    {
      hide KeyExpansion, IsDecryptionSchedule;
      ret := SetkeyEnc(t, key, keybits);
      if ret != 0 {
        return;
      }
      InvertSchedule();
    }

    /** The two loops of mbedtls_aria_setkey_dec, on a context that holds encryption keys. */
    method InvertSchedule()
      requires Ready()
      modifies rk
      ensures IsDecryptionSchedule(old(rk[..]), rk[..], nr)
    {
      hide A;
      ghost var was := rk[..];
      Flip(rk, nr);
      ghost var flipped := rk[..];
      var i := 1;
      while i < nr
        invariant 1 <= i <= nr
        invariant forall r :: i <= r <= nr ==> rk[r] == flipped[r]
        invariant rk[0] == flipped[0] && forall r :: 0 < r < i ==> rk[r] == A(flipped[r])
      {
        rk[i] := A(rk[i]);
        i := i + 1;
      }
    }

    /** mbedtls_aria_crypt_ecb; input and output may be the same array. */
    method CryptEcb(t: SBoxes, input: array<bv8>, output: array<bv8>)
      requires Ready() && input.Length == 16 && output.Length == 16
      modifies output
      ensures output[..] == Crypt(t, rk[..], nr, GetState(old(input[..]))).Bytes()
    {
      hide A, State.Xor, GetState, State.Bytes, Sl;
      ghost var s, keys := GetState(input[..]), rk[..];
      var x := GetState(input[..]);
      var i := 0;
      while true
        invariant 0 <= i < nr && i % 2 == 0
        invariant x.Xor(keys[i]) == Keyed(t, keys, i + 1, s)
        decreases nr - i
      {
        x := x.Xor(rk[i]);
        i := i + 1;
        x := Sl(x, t.sb1, t.sb2, t.is1, t.is2);
        x := A(x);
        x := x.Xor(rk[i]);
        i := i + 1;
        x := Sl(x, t.is1, t.is2, t.sb1, t.sb2);
        if i >= nr {
          break;
        }
        x := A(x);
      }
      x := x.Xor(rk[i]);
      PutState(x, output);
    }
  }

  /** The four calls one after the other: whatever the key and its size, the block comes back. */
  method EncryptThenDecrypt(t: SBoxes, key: seq<bv8>, enc: AriaContext, dec: AriaContext, block: array<bv8>)
    requires t.Inverse() && |key| in {16, 24, 32} && block.Length == 16
    requires enc.rk.Length == 17 == dec.rk.Length && enc != dec && enc.rk != dec.rk
    modifies enc, enc.rk, dec, dec.rk, block
    ensures block[..] == old(block[..])
  {
    hide Crypt, IsDecryptionSchedule, GetState, State.Bytes, KeyExpansion;
    ghost var s, keys := GetState(block[..]), KeyExpansion(t, key);
    BytesOfGetState(block[..]);
    var _ := enc.SetkeyEnc(t, key, 8 * |key|);
    var _ := dec.SetkeyDec(t, key, 8 * |key|);
    CryptUndoesCrypt(t, keys, dec.rk[..], enc.nr, s);
    GetStateOfBytes(Crypt(t, keys, enc.nr, s));
    enc.CryptEcb(t, block, block);
    dec.CryptEcb(t, block, block);
  }
}
