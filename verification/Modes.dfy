/** The block cipher modes of NIST SP 800-38A as step machines, for an arbitrary block
    function, and what every run of them guarantees. */
module Modes {
  import opened GF256
  import opened StreamRun
  import Counter

  type Block = b: seq<bv8> | |b| == 16 witness seq(16, _ => 0)

  type Offset = n: nat | n < 16

  function XorBlock(a: Block, b: Block): Block { seq(16, i requires 0 <= i < 16 => Add(a[i], b[i])) }

  lemma XorBlockCancel(a: Block, b: Block)
    ensures XorBlock(XorBlock(a, b), b) == a
  {
    hide Add;
    forall i | 0 <= i < 16
      ensures Add(Add(a[i], b[i]), b[i]) == a[i]
    {
      Cancel(a[i], b[i]);
    }
  }

  // ---- CBC, section 6.2 ----

  function CbcEnc(E: Block -> Block): (Block, Block) -> (Block, Block) {
    (iv, p) => var c := E(XorBlock(p, iv)); (c, c)
  }

  function CbcDec(D: Block -> Block): (Block, Block) -> (Block, Block) {
    (iv, c) => (c, XorBlock(D(c), iv))
  }

  lemma CbcUndone(E: Block -> Block, D: Block -> Block, iv: Block, ps: seq<Block>)
    requires forall b :: D(E(b)) == b
    ensures Run(CbcDec(D), iv, Run(CbcEnc(E), iv, ps).1) == (Run(CbcEnc(E), iv, ps).0, ps)
  {
    forall s: Block, p: Block
      ensures CbcDec(D)(s, CbcEnc(E)(s, p).1) == (CbcEnc(E)(s, p).0, p)
    {
      XorBlockCancel(p, s);
    }
    RunUndone(CbcEnc(E), CbcDec(D), iv, ps);
  }

  // ---- CFB with 128-bit segments, section 6.3, byte by byte ----

  /** The feedback register and the read position in it. */
  datatype Feedback = Feedback(iv: Block, off: Offset)

  function Refill(E: Block -> Block, s: Feedback): Feedback {
    if s.off == 0 then s.(iv := E(s.iv)) else s
  }

  function Advance(off: Offset): Offset { (off + 1) % 16 }

  function CfbEnc(E: Block -> Block): (Feedback, bv8) -> (Feedback, bv8) {
    (s, p) => CfbEncStep(E, s, p)
  }

  function CfbEncStep(E: Block -> Block, s: Feedback, p: bv8): (Feedback, bv8) {
    var iv := Refill(E, s).iv;
    var c := Add(iv[s.off], p);
    (Feedback(iv[s.off := c], Advance(s.off)), c)
  }

  function CfbDec(E: Block -> Block): (Feedback, bv8) -> (Feedback, bv8) {
    (s, c) => CfbDecStep(E, s, c)
  }

  function CfbDecStep(E: Block -> Block, s: Feedback, c: bv8): (Feedback, bv8) {
    var iv := Refill(E, s).iv;
    (Feedback(iv[s.off := c], Advance(s.off)), Add(c, iv[s.off]))
  }

  lemma AddTwice(x: bv8, y: bv8)
    ensures Add(Add(x, y), x) == y && Add(Add(y, x), x) == y && Add(x, Add(x, y)) == y
  {
    hide Add;
    Comm(x, y);
    Cancel(y, x);
    Comm(x, Add(y, x));
  }

  lemma CfbUndone(E: Block -> Block, s: Feedback, ps: seq<bv8>)
    ensures Run(CfbDec(E), s, Run(CfbEnc(E), s, ps).1) == (Run(CfbEnc(E), s, ps).0, ps)
  {
    hide Add;
    forall t: Feedback, p: bv8
      ensures CfbDec(E)(t, CfbEnc(E)(t, p).1) == (CfbEnc(E)(t, p).0, p)
    {
      AddTwice(Refill(E, t).iv[t.off], p);
    }
    RunUndone(CfbEnc(E), CfbDec(E), s, ps);
  }

  // ---- CFB with 8-bit segments ----

  function Cfb8Enc(E: Block -> Block): (Block, bv8) -> (Block, bv8) {
    (iv, p) => Cfb8EncStep(E, iv, p)
  }

  function Cfb8EncStep(E: Block -> Block, iv: Block, p: bv8): (Block, bv8) {
    var c := Add(E(iv)[0], p);
    (iv[1..] + [c], c)
  }

  function Cfb8Dec(E: Block -> Block): (Block, bv8) -> (Block, bv8) {
    (iv, c) => Cfb8DecStep(E, iv, c)
  }

  function Cfb8DecStep(E: Block -> Block, iv: Block, c: bv8): (Block, bv8) {
    (iv[1..] + [c], Add(E(iv)[0], c))
  }

  lemma Cfb8Undone(E: Block -> Block, iv: Block, ps: seq<bv8>)
    ensures Run(Cfb8Dec(E), iv, Run(Cfb8Enc(E), iv, ps).1) == (Run(Cfb8Enc(E), iv, ps).0, ps)
  {
    hide Add;
    forall t: Block, p: bv8
      ensures Cfb8Dec(E)(t, Cfb8Enc(E)(t, p).1) == (Cfb8Enc(E)(t, p).0, p)
    {
      AddTwice(E(t)[0], p);
    }
    RunUndone(Cfb8Enc(E), Cfb8Dec(E), iv, ps);
  }

  // ---- OFB, section 6.4 ----

  function OfbStep(E: Block -> Block, s: Feedback, x: bv8): (Feedback, bv8) {
    var iv := Refill(E, s).iv;
    (Feedback(iv, Advance(s.off)), Add(x, iv[s.off]))
  }

  function Ofb(E: Block -> Block): (Feedback, bv8) -> (Feedback, bv8) {
    (s, x) => OfbStep(E, s, x)
  }

  lemma OfbUndone(E: Block -> Block, s: Feedback, xs: seq<bv8>)
    ensures Run(Ofb(E), s, Run(Ofb(E), s, xs).1) == (Run(Ofb(E), s, xs).0, xs)
  {
    hide Add;
    forall t: Feedback, x: bv8
      ensures Ofb(E)(t, Ofb(E)(t, x).1) == (Ofb(E)(t, x).0, x)
    {
      AddTwice(Refill(E, t).iv[t.off], x);
    }
    RunUndone(Ofb(E), Ofb(E), s, xs);
  }

  // ---- CTR, section 6.5 ----

  /** The counter, the current key stream block and the read position in it. */
  datatype Counting = Counting(counter: Block, stream: Block, off: Offset)

  function Next(E: Block -> Block, s: Counting): Counting {
    if s.off == 0 then s.(stream := E(s.counter), counter := Counter.Inc(s.counter)) else s
  }

  function CtrStep(E: Block -> Block, s: Counting, x: bv8): (Counting, bv8) {
    var t := Next(E, s);
    (t.(off := Advance(s.off)), Add(x, t.stream[s.off]))
  }

  function Ctr(E: Block -> Block): (Counting, bv8) -> (Counting, bv8) {
    (s, x) => CtrStep(E, s, x)
  }

  lemma CtrUndone(E: Block -> Block, s: Counting, xs: seq<bv8>)
    ensures Run(Ctr(E), s, Run(Ctr(E), s, xs).1) == (Run(Ctr(E), s, xs).0, xs)
  {
    hide Add;
    forall t: Counting, x: bv8
      ensures Ctr(E)(t, Ctr(E)(t, x).1) == (Ctr(E)(t, x).0, x)
    {
      AddTwice(Next(E, t).stream[t.off], x);
    }
    RunUndone(Ctr(E), Ctr(E), s, xs);
  }

  /** x is a block whose every byte is the sum of the two bytes in its place. */
  predicate IsSum(x: Block, a: Block, b: Block) { forall i :: 0 <= i < 16 ==> x[i] == a[i] ^ b[i] }

  lemma XorBlockIsSum(a: Block, b: Block)
    ensures IsSum(XorBlock(a, b), a, b)
    ensures forall x: Block :: IsSum(x, a, b) ==> x == XorBlock(a, b)
  {
    forall i | 0 <= i < 16
      ensures XorBlock(a, b)[i] == a[i] ^ b[i]
    {
    }
  }

  /** The block before block k: the previous ciphertext block, or the initialization vector. */
  function Before(iv: Block, c: seq<Block>, k: nat): Block
    requires k <= |c|
  {
    if k == 0 then iv else c[k - 1]
  }

  /** The saved vector of either direction is the last ciphertext block. */
  lemma {:induction false} CbcEncState(E: Block -> Block, iv: Block, ps: seq<Block>)
    ensures var (s, c) := Run(CbcEnc(E), iv, ps); s == Before(iv, c, |ps|)
  {
    hide XorBlock;
    if ps != [] {
      CbcEncState(E, iv, ps[..|ps| - 1]);
    }
  }

  lemma {:induction false} CbcDecState(D: Block -> Block, iv: Block, cs: seq<Block>)
    ensures Run(CbcDec(D), iv, cs).0 == Before(iv, cs, |cs|)
  {
    hide XorBlock;
    if cs != [] {
      CbcDecState(D, iv, cs[..|cs| - 1]);
    }
  }

  /** Section 6.2: output block k is the cipher of input block k added, byte by byte, to the block before. */
  lemma CbcIsTheStandard(E: Block -> Block, iv: Block, ps: seq<Block>, k: nat, x: Block)
    requires k < |ps|
    ensures var c := Run(CbcEnc(E), iv, ps).1;
      IsSum(x, ps[k], Before(iv, c, k)) ==> c[k] == E(x)
  {
    hide XorBlock, IsSum, Run;
    RunAt(CbcEnc(E), iv, ps, k);
    CbcEncState(E, iv, ps[..k]);
    RunPrefix(CbcEnc(E), iv, ps, k);
    XorBlockIsSum(ps[k], Before(iv, Run(CbcEnc(E), iv, ps).1, k));
  }

  /** Decryption: output block k is the block before added, byte by byte, to the decipherment of input block k. */
  lemma CbcDecIsTheStandard(D: Block -> Block, iv: Block, cs: seq<Block>, k: nat)
    requires k < |cs|
    ensures IsSum(Run(CbcDec(D), iv, cs).1[k], D(cs[k]), Before(iv, cs, k))
  {
    hide XorBlock, IsSum, Run;
    RunAt(CbcDec(D), iv, cs, k);
    CbcDecState(D, iv, cs[..k]);
    XorBlockIsSum(D(cs[k]), Before(iv, cs, k));
  }

  // ---- The definitions of the standard, byte by byte from the start of a message ----

  /** The counter block n steps after c. */
  function IncBy(c: Block, n: nat): Block {
    if n == 0 then c else Counter.Inc(IncBy(c, n - 1))
  }

  function Iterate(E: Block -> Block, iv: Block, n: nat): Block {
    if n == 0 then iv else E(Iterate(E, iv, n - 1))
  }

  /** Number of blocks that n bytes start. */
  function Started(n: nat): nat { (n + 15) / 16 }

  lemma StartedNext(n: nat)
    ensures Started(n + 1) == (if n % 16 == 0 then Started(n) + 1 else Started(n)) == n / 16 + 1
    ensures (n + 1) % 16 == (n % 16 + 1) % 16
  {
  }

  lemma IncByNext(c: Block, n: nat)
    ensures IncBy(c, n + 1) == Counter.Inc(IncBy(c, n)) && IncBy(c, 0) == c
  {
  }

  lemma {:induction false} CtrState(E: Block -> Block, s: Counting, xs: seq<bv8>)
    requires s.off == 0
    ensures var t := Run(Ctr(E), s, xs).0;
            && t.off == |xs| % 16 && t.counter == IncBy(s.counter, Started(|xs|))
            && (xs != [] ==> t.stream == E(IncBy(s.counter, Started(|xs|) - 1)))
  {
    hide Add, Counter.Inc;
    if xs != [] {
      var front := xs[..|xs| - 1];
      CtrState(E, s, front);
      StartedNext(|front|);
      IncByNext(s.counter, Started(|front|));
      hide Started, IncBy;
      assert Run(Ctr(E), s, xs).0 == CtrStep(E, Run(Ctr(E), s, front).0, xs[|xs| - 1]).0;
    }
  }

  /** The key stream block in use for byte k. */
  lemma CtrStream(E: Block -> Block, s: Counting, xs: seq<bv8>)
    requires s.off == 0
    ensures var t := Run(Ctr(E), s, xs).0;
            t.off == |xs| % 16 && Next(E, t).stream == E(IncBy(s.counter, |xs| / 16))
  {
    hide Add, Counter.Inc, IncBy, Run, Started, Next;
    CtrState(E, s, xs);
    CtrStreamOfState(E, s.counter, Run(Ctr(E), s, xs).0, |xs|);
  }

  lemma CtrStreamOfState(E: Block -> Block, c: Block, t: Counting, n: nat)
    requires t.off == n % 16 && t.counter == IncBy(c, Started(n))
    requires n != 0 ==> t.stream == E(IncBy(c, Started(n) - 1))
    ensures Next(E, t).stream == E(IncBy(c, n / 16))
  {
    hide Counter.Inc, IncBy;
    StartedNext(n);
  }

  /** Section 6.5: byte k of the output is byte k of the input under byte k mod 16 of the
      encryption of counter block k / 16. */
  lemma CtrIsTheStandard(E: Block -> Block, s: Counting, xs: seq<bv8>, k: nat)
    requires s.off == 0 && k < |xs|
    ensures Run(Ctr(E), s, xs).1[k] == Add(xs[k], E(IncBy(s.counter, k / 16))[k % 16])
  {
    hide Add, Counter.Inc, IncBy, Next, Run;
    RunAt(Ctr(E), s, xs, k);
    CtrStream(E, s, xs[..k]);
  }

  lemma {:induction false} OfbState(E: Block -> Block, s: Feedback, xs: seq<bv8>)
    requires s.off == 0
    ensures Run(Ofb(E), s, xs).0 == Feedback(Iterate(E, s.iv, Started(|xs|)), |xs| % 16)
  {
    hide Add;
    if xs != [] {
      var front := xs[..|xs| - 1];
      OfbState(E, s, front);
      StartedNext(|front|);
      hide Started;
      assert Run(Ofb(E), s, xs).0 == OfbStep(E, Run(Ofb(E), s, front).0, xs[|xs| - 1]).0;
    }
  }

  /** Section 6.4: the key stream is the repeated encryption of the initialization vector. */
  lemma OfbIsTheStandard(E: Block -> Block, s: Feedback, xs: seq<bv8>, k: nat)
    requires s.off == 0 && k < |xs|
    ensures Run(Ofb(E), s, xs).1[k] == Add(xs[k], Iterate(E, s.iv, k / 16 + 1)[k % 16])
  {
    hide Add, Run;
    RunAt(Ofb(E), s, xs, k);
    OfbState(E, s, xs[..k]);
    StartedNext(k);
    hide Started;
  }

  /** The block that feeds back into segment n / 16: the previous ciphertext block, or the
      initialization vector. */
  function Previous<T>(iv: seq<T>, c: seq<T>, n: nat): (p: seq<T>)
    requires n <= |c| && |iv| == 16
    ensures |p| == 16
  {
    var m := 16 * (n / 16);
    if m == 0 then iv else c[m - 16..m]
  }

  /** The feedback register just before the next byte: the ciphertext of the segment so far, then
      what is left of the encrypted previous block. */
  function Refilled(E: Block -> Block, iv0: Block, c: seq<bv8>): Block {
    c[|c| - |c| % 16..] + E(Previous(iv0, c, |c|))[|c| % 16..]
  }

  function Register(E: Block -> Block, iv0: Block, c: seq<bv8>): Block {
    if |c| % 16 == 0 then Previous(iv0, c, |c|) else Refilled(E, iv0, c)
  }

  lemma RefillOfRegister(E: Block -> Block, iv0: Block, c: seq<bv8>)
    ensures Refill(E, Feedback(Register(E, iv0, c), |c| % 16)).iv == Refilled(E, iv0, c)
  {
    if |c| % 16 == 0 {
      assert c[|c|..] + E(Previous(iv0, c, |c|))[0..] == E(Previous(iv0, c, |c|));
    }
  }

  /** Writing one ciphertext byte into the register. */
  lemma RegisterNext(E: Block -> Block, iv0: Block, c: seq<bv8>, b: bv8)
    ensures Refilled(E, iv0, c)[|c| % 16 := b] == Register(E, iv0, c + [b])
  {
    SegmentNext(iv0, c, E(Previous(iv0, c, |c|)), b);
  }

  lemma SegmentNext<T>(iv0: seq<T>, c: seq<T>, block: seq<T>, b: T)
    requires |iv0| == 16 && |block| == 16
    ensures var n := |c| + 1;
            (c[|c| - |c| % 16..] + block[|c| % 16..])[|c| % 16 := b] ==
              (if n % 16 == 0 then Previous(iv0, c + [b], n) else (c + [b])[n - n % 16..] + block[n % 16..])
    ensures (|c| + 1) % 16 != 0 ==> Previous(iv0, c + [b], |c| + 1) == Previous(iv0, c, |c|)
  {
    var k, n := |c|, |c| + 1;
    var d := c + [b];
    if n % 16 == 0 {
      assert n == 16 * (n / 16) && k % 16 == 15;
      assert d[n - 16..n] == c[k - 15..] + [b];
    } else {
      assert n / 16 == k / 16 && n % 16 == k % 16 + 1;
      assert d[n - n % 16..] == c[k - k % 16..] + [b];
      PreviousOfPrefix(iv0, d, k);
      assert d[..k] == c;
    }
  }

  lemma {:induction false} CfbState(E: Block -> Block, s: Feedback, ps: seq<bv8>)
    requires s.off == 0
    ensures var (t, c) := Run(CfbEnc(E), s, ps);
            t == Feedback(Register(E, s.iv, c), |ps| % 16)
  {
    hide Add, Refill, Register, Refilled;
    if ps == [] {
      RegisterOfNothing(E, s.iv);
    } else {
      var front, p := ps[..|ps| - 1], ps[|ps| - 1];
      CfbState(E, s, front);
      var (t, c) := Run(CfbEnc(E), s, front);
      assert front + [p] == ps;
      RunSnoc(CfbEnc(E), s, front, p);
      StartedNext(|front|);
      hide Run, Started;
      RefillOfRegister(E, s.iv, c);
      RegisterNext(E, s.iv, c, CfbEncStep(E, t, p).1);
    }
  }

  lemma RegisterOfNothing(E: Block -> Block, iv: Block)
    ensures Register(E, iv, []) == iv
  {
  }

  /** Section 6.3: byte k of the ciphertext is byte k of the plaintext under byte k mod 16 of the
      encryption of the previous ciphertext block. */
  lemma CfbIsTheStandard(E: Block -> Block, s: Feedback, ps: seq<bv8>, k: nat)
    requires s.off == 0 && k < |ps|
    ensures var c := Run(CfbEnc(E), s, ps).1;
            c[k] == Add(E(Previous(s.iv, c, k))[k % 16], ps[k])
  {
    hide Add, Refill, Register, Run;
    RunAt(CfbEnc(E), s, ps, k);
    CfbState(E, s, ps[..k]);
    RunPrefix(CfbEnc(E), s, ps, k);
    var c := Run(CfbEnc(E), s, ps).1;
    RefillOfRegister(E, s.iv, c[..k]);
    PreviousOfPrefix(s.iv, c, k);
  }

  lemma PreviousOfPrefix<T>(iv: seq<T>, c: seq<T>, k: nat)
    requires k <= |c| && |iv| == 16
    ensures Previous(iv, c[..k], k) == Previous(iv, c, k)
  {
    var m := 16 * (k / 16);
    if m != 0 {
      assert c[..k][m - 16..m] == c[m - 16..m];
    }
  }

  lemma {:induction false} Cfb8State(E: Block -> Block, iv: Block, ps: seq<bv8>)
    ensures var (t, c) := Run(Cfb8Enc(E), iv, ps);
            t == (iv + c)[|ps|..]
  {
    hide Add;
    if ps != [] {
      Cfb8State(E, iv, ps[..|ps| - 1]);
      var (t, c) := Run(Cfb8Enc(E), iv, ps[..|ps| - 1]);
      var (u, b) := Cfb8EncStep(E, t, ps[|ps| - 1]);
      assert (iv + (c + [b]))[|ps|..] == (iv + c)[|ps| - 1..][1..] + [b];
    }
  }

  /** Section 6.3 with one-byte segments: the register is the last sixteen bytes of the vector
      followed by the ciphertext so far. */
  lemma Cfb8IsTheStandard(E: Block -> Block, iv: Block, ps: seq<bv8>, k: nat)
    requires k < |ps|
    ensures var c := Run(Cfb8Enc(E), iv, ps).1;
            c[k] == Add(E((iv + c)[k..k + 16])[0], ps[k])
  {
    hide Add;
    RunAt(Cfb8Enc(E), iv, ps, k);
    Cfb8State(E, iv, ps[..k]);
    RunPrefix(Cfb8Enc(E), iv, ps, k);
    var c := Run(Cfb8Enc(E), iv, ps).1;
    assert (iv + c[..k])[k..] == (iv + c)[k..k + 16];
  }
}
