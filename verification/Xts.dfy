/** XTS mode with ciphertext stealing: the definition of IEEE Std 1619 (clauses 5.3 and 5.4) and
    the loop of mbedtls_aes_crypt_xts. */
module Xts {
  import opened GF256
  import opened Modes
  import opened AesModes

  // ---- Multiplication of the tweak by x ----

  /** MBEDTLS_GET_UINT64_LE of eight bytes. */
  function Get64(b0: bv8, b1: bv8, b2: bv8, b3: bv8, b4: bv8, b5: bv8, b6: bv8, b7: bv8): bv64 {
    (b0 as bv64) | (b1 as bv64 << 8) | (b2 as bv64 << 16) | (b3 as bv64 << 24) |
    (b4 as bv64 << 32) | (b5 as bv64 << 40) | (b6 as bv64 << 48) | (b7 as bv64 << 56)
  }

  function Byte0(w: bv64): bv8 { (w & 0xff) as bv8 }
  function Byte1(w: bv64): bv8 { ((w >> 8) & 0xff) as bv8 }
  function Byte2(w: bv64): bv8 { ((w >> 16) & 0xff) as bv8 }
  function Byte3(w: bv64): bv8 { ((w >> 24) & 0xff) as bv8 }
  function Byte4(w: bv64): bv8 { ((w >> 32) & 0xff) as bv8 }
  function Byte5(w: bv64): bv8 { ((w >> 40) & 0xff) as bv8 }
  function Byte6(w: bv64): bv8 { ((w >> 48) & 0xff) as bv8 }
  function Byte7(w: bv64): bv8 { ((w >> 56) & 0xff) as bv8 }

  /** MBEDTLS_PUT_UINT64_LE */
  function Put64(w: bv64): (s: seq<bv8>)
    ensures |s| == 8
  {
    [Byte0(w), Byte1(w), Byte2(w), Byte3(w), Byte4(w), Byte5(w), Byte6(w), Byte7(w)]
  }

  /** The word a << 1 with the bit that leaves b folded in. */
  function LowWord(a: bv64, b: bv64): bv64 {
    var p: bv64 := 0x0087;
    (a << 1) ^ (p >> (8 - ((b >> 63) << 3)))
  }

  function HighWord(a: bv64, b: bv64): bv64 { (a >> 63) | (b << 1) }

  function LowHalf(x: Block): bv64 { Get64(x[0], x[1], x[2], x[3], x[4], x[5], x[6], x[7]) }
  function HighHalf(x: Block): bv64 { Get64(x[8], x[9], x[10], x[11], x[12], x[13], x[14], x[15]) }

  /** mbedtls_gf128mul_x_ble, on two 64-bit words. */
  function MulX(x: Block): Block {
    var a, b := LowHalf(x), HighHalf(x);
    Put64(LowWord(a, b)) + Put64(HighWord(a, b))
  }

  /** The same step as clause 5.2 writes it, byte by byte: shift left by one bit across the
      bytes and fold the bit that falls out back into byte 0 as 135. */
  function Alpha(x: Block): Block { seq(16, i requires 0 <= i < 16 => AlphaByte(x, i)) }

  function AlphaByte(x: Block, i: nat): bv8
    requires i < 16
  {
    if i == 0 then Shifted(x[0], Fold(x[15])) else Shifted(x[i], Carry(x[i - 1]))
  }

  function Shifted(b: bv8, c: bv8): bv8 { (b << 1) ^ c }
  function Carry(b: bv8): bv8 { b >> 7 }
  function Fold(b: bv8): bv8 { if b & 0x80 != 0 then 135 else 0 }

  /** The bytes of (w << 1) with eight low bits v added, for w given by its bytes. */
  lemma ShiftedBytes(b0: bv8, b1: bv8, b2: bv8, b3: bv8, b4: bv8, b5: bv8, b6: bv8, b7: bv8, v: bv8)
    ensures var w := AddLow(Get64(b0, b1, b2, b3, b4, b5, b6, b7), v);
            && Byte0(w) == Shifted(b0, v)
            && Byte1(w) == Shifted(b1, Carry(b0)) && Byte2(w) == Shifted(b2, Carry(b1)) && Byte3(w) == Shifted(b3, Carry(b2))
            && Byte4(w) == Shifted(b4, Carry(b3)) && Byte5(w) == Shifted(b5, Carry(b4)) && Byte6(w) == Shifted(b6, Carry(b5))
            && Byte7(w) == Shifted(b7, Carry(b6))
  {
  }

  function AddLow(w: bv64, v: bv8): bv64 { (w << 1) ^ (v as bv64) }

  lemma TopBitCarried(b0: bv8, b1: bv8, b2: bv8, b3: bv8, b4: bv8, b5: bv8, b6: bv8, b7: bv8)
    ensures Get64(b0, b1, b2, b3, b4, b5, b6, b7) >> 63 == Carry(b7) as bv64
  {
  }

  lemma CarryIsOneBit(c: bv64, a: bv64)
    requires c <= 1
    ensures c | (a << 1) == (a << 1) ^ c
  {
  }

  lemma CarryBound(b: bv8)
    ensures Carry(b) as bv64 <= 1
  {
  }

  lemma HighWordAdds(b0: bv8, b1: bv8, b2: bv8, b3: bv8, b4: bv8, b5: bv8, b6: bv8, b7: bv8, a: bv64)
    ensures HighWord(Get64(b0, b1, b2, b3, b4, b5, b6, b7), a) == AddLow(a, Carry(b7))
  {
    TopBitCarried(b0, b1, b2, b3, b4, b5, b6, b7);
    CarryBound(b7);
    hide Get64, Carry;
    CarryIsOneBit(Carry(b7) as bv64, a);
  }

  lemma FoldOfTopBit(b: bv64, c: bv8)
    requires b >> 63 == Carry(c) as bv64
    ensures var p: bv64 := 0x0087;
            p >> (8 - ((b >> 63) << 3)) == Fold(c) as bv64
  {
  }

  lemma LowWordFolds(b0: bv8, b1: bv8, b2: bv8, b3: bv8, b4: bv8, b5: bv8, b6: bv8, b7: bv8, a: bv64)
    ensures LowWord(a, Get64(b0, b1, b2, b3, b4, b5, b6, b7)) == AddLow(a, Fold(b7))
  {
    TopBitCarried(b0, b1, b2, b3, b4, b5, b6, b7);
    FoldOfTopBit(Get64(b0, b1, b2, b3, b4, b5, b6, b7), b7);
    hide Get64, Carry, Fold;
  }

  lemma LowBytes(x: Block)
    ensures var s := Put64(LowWord(LowHalf(x), HighHalf(x)));
            && s[0] == AlphaByte(x, 0) && s[1] == AlphaByte(x, 1) && s[2] == AlphaByte(x, 2)
            && s[3] == AlphaByte(x, 3) && s[4] == AlphaByte(x, 4) && s[5] == AlphaByte(x, 5)
            && s[6] == AlphaByte(x, 6) && s[7] == AlphaByte(x, 7)
  {
    hide Get64, LowWord, AddLow, Byte0, Byte1, Byte2, Byte3, Byte4, Byte5, Byte6, Byte7, Shifted, Carry, Fold;
    LowWordFolds(x[8], x[9], x[10], x[11], x[12], x[13], x[14], x[15], LowHalf(x));
    ShiftedBytes(x[0], x[1], x[2], x[3], x[4], x[5], x[6], x[7], Fold(x[15]));
  }

  lemma HighBytes(x: Block)
    ensures var s := Put64(HighWord(LowHalf(x), HighHalf(x)));
            && s[0] == AlphaByte(x, 8) && s[1] == AlphaByte(x, 9) && s[2] == AlphaByte(x, 10)
            && s[3] == AlphaByte(x, 11) && s[4] == AlphaByte(x, 12) && s[5] == AlphaByte(x, 13)
            && s[6] == AlphaByte(x, 14) && s[7] == AlphaByte(x, 15)
  {
    hide Get64, HighWord, AddLow, Byte0, Byte1, Byte2, Byte3, Byte4, Byte5, Byte6, Byte7, Shifted, Carry;
    HighWordAdds(x[0], x[1], x[2], x[3], x[4], x[5], x[6], x[7], HighHalf(x));
    ShiftedBytes(x[8], x[9], x[10], x[11], x[12], x[13], x[14], x[15], Carry(x[7]));
  }

  lemma TwoHalves<T>(f: nat -> T, low: seq<T>, high: seq<T>)
    requires |low| == 8 && |high| == 8
    requires low[0] == f(0) && low[1] == f(1) && low[2] == f(2) && low[3] == f(3)
    requires low[4] == f(4) && low[5] == f(5) && low[6] == f(6) && low[7] == f(7)
    requires high[0] == f(8) && high[1] == f(9) && high[2] == f(10) && high[3] == f(11)
    requires high[4] == f(12) && high[5] == f(13) && high[6] == f(14) && high[7] == f(15)
    ensures forall i :: 0 <= i < 16 ==> (low + high)[i] == f(i)
  {
  }

  /** Clause 5.2: the word-wise step multiplies the tweak by x. */
  lemma MulXIsAlpha(x: Block)
    ensures MulX(x) == Alpha(x)
  {
    hide LowHalf, HighHalf, LowWord, HighWord, AlphaByte, Put64;
    LowBytes(x);
    HighBytes(x);
    TwoHalves(i => if i < 16 then AlphaByte(x, i) else 0, Put64(LowWord(LowHalf(x), HighHalf(x))),
            Put64(HighWord(LowHalf(x), HighHalf(x))));
  }

  // ---- The definition, clauses 5.3 and 5.4 ----

  /** The tweak of block j: the first one times x^j. */
  function Tweak(t0: Block, j: nat): Block { if j == 0 then t0 else MulX(Tweak(t0, j - 1)) }

  /** One block under its tweak. */
  function Xex(F: Block -> Block, t: Block, b: Block): Block { XorBlock(F(XorBlock(b, t)), t) }

  /** The first n full blocks, each under its own tweak. */
  function Full(F: Block -> Block, t0: Block, p: seq<bv8>, n: nat): (c: seq<bv8>)
    requires 16 * n <= |p|
    ensures |c| == 16 * n
  {
    if n == 0 then [] else Full(F, t0, p, n - 1) + Xex(F, Tweak(t0, n - 1), BlockAt(p, n - 1))
  }

  /** A data unit of m full blocks and b more bytes, 0 < b: the last full block is processed under
      tweak ta, its first b bytes become the short block, and the rest of it completes the last
      bytes of the input to a block that is processed under tweak tb. */
  function Steal(F: Block -> Block, t0: Block, ta: Block, tb: Block, p: seq<bv8>, m: nat): (c: seq<bv8>)
    requires 0 < m && 16 * m < |p| < 16 * m + 16
    ensures |c| == |p|
  {
    var b := |p| - 16 * m;
    var cc := Xex(F, ta, BlockAt(p, m - 1));
    Full(F, t0, p, m - 1) + Xex(F, tb, p[16 * m..] + cc[b..]) + cc[..b]
  }

  function Encrypt(E: Block -> Block, t0: Block, p: seq<bv8>): (c: seq<bv8>)
    requires 16 <= |p|
    ensures |c| == |p|
  {
    var m := |p| / 16;
    if |p| % 16 == 0 then Full(E, t0, p, m) else Steal(E, t0, Tweak(t0, m - 1), Tweak(t0, m), p, m)
  }

  /** Decryption uses the last two tweaks in the other order. */
  function Decrypt(D: Block -> Block, t0: Block, c: seq<bv8>): (p: seq<bv8>)
    requires 16 <= |c|
    ensures |p| == |c|
  {
    var m := |c| / 16;
    if |c| % 16 == 0 then Full(D, t0, c, m) else Steal(D, t0, Tweak(t0, m), Tweak(t0, m - 1), c, m)
  }

  // ---- The definition, byte by byte ----

  /** The tweak is added to every byte before and after the cipher. */
  lemma XexIsTheStandard(F: Block -> Block, t: Block, b: Block, x: Block)
    requires IsSum(x, b, t)
    ensures IsSum(Xex(F, t, b), F(x), t)
  {
    hide XorBlock, IsSum;
    XorBlockIsSum(b, t);
    XorBlockIsSum(F(x), t);
  }

  /** Clause 5.3.1: block j of the output, under the first tweak times x^j. */
  lemma {:induction false} FullIsTheStandard(F: Block -> Block, t0: Block, p: seq<bv8>, n: nat, j: nat, x: Block)
    requires j < n && 16 * n <= |p| && IsSum(x, BlockAt(p, j), Tweak(t0, j))
    ensures IsSum(BlockAt(Full(F, t0, p, n), j), F(x), Tweak(t0, j))
  {
    hide Xex, Tweak, IsSum;
    var front, last := Full(F, t0, p, n - 1), Xex(F, Tweak(t0, n - 1), BlockAt(p, n - 1));
    LastBlock(front, last, n - 1);
    if j == n - 1 {
      XexIsTheStandard(F, Tweak(t0, j), BlockAt(p, j), x);
    } else {
      FullIsTheStandard(F, t0, p, n - 1, j, x);
      assert (front + last)[16 * j..16 * j + 16] == front[16 * j..16 * j + 16];
    }
  }

  /**
   * Clause 5.3.2: with x and y the two last inputs of the cipher, the block before the last is made of the
   * partial block and the end of cc, and the partial block of the output is the beginning of cc.
   */
  lemma StealIsTheStandard(F: Block -> Block, t0: Block, ta: Block, tb: Block, p: seq<bv8>, m: nat,
                           x: Block, cc: Block, y: Block)
    requires 0 < m && 16 * m < |p| < 16 * m + 16
    requires IsSum(x, BlockAt(p, m - 1), ta) && IsSum(cc, F(x), ta)
    requires IsSum(y, p[16 * m..] + cc[|p| - 16 * m..], tb)
    ensures var c := Steal(F, t0, ta, tb, p, m);
      IsSum(BlockAt(c, m - 1), F(y), tb) && c[16 * m..] == cc[..|p| - 16 * m]
    ensures Steal(F, t0, ta, tb, p, m)[..16 * (m - 1)] == Full(F, t0, p, m - 1)
  {
    hide Xex, IsSum, Full;
    var b := |p| - 16 * m;
    XexIsTheStandard(F, ta, BlockAt(p, m - 1), x);
    XorBlockIsSum(F(x), ta);
    SumIsOne(cc, Xex(F, ta, BlockAt(p, m - 1)), F(x), ta);
    XexIsTheStandard(F, tb, p[16 * m..] + cc[b..], y);
    StolenPieces(Full(F, t0, p, m - 1), Xex(F, tb, p[16 * m..] + cc[b..]), cc, b, m);
  }

  lemma SumIsOne(x: Block, y: Block, a: Block, b: Block)
    requires IsSum(x, a, b) && IsSum(y, a, b)
    ensures x == y
  {
  }

  // ---- Decryption undoes encryption ----

  lemma XexUndone(E: Block -> Block, D: Block -> Block, t: Block, b: Block)
    requires forall x :: D(E(x)) == x
    ensures Xex(D, t, Xex(E, t, b)) == b
  {
    hide XorBlock;
    XorBlockCancel(E(XorBlock(b, t)), t);
    XorBlockCancel(b, t);
  }

  lemma BlockOfPrefix<T>(p: seq<T>, q: seq<T>, j: nat, n: nat)
    requires 16 * j + 16 <= n <= |p| && n <= |q| && p[..n] == q[..n]
    ensures p[16 * j..16 * j + 16] == q[16 * j..16 * j + 16]
  {
    assert p[..n][16 * j..16 * j + 16] == p[16 * j..16 * j + 16];
    assert q[..n][16 * j..16 * j + 16] == q[16 * j..16 * j + 16];
  }

  /** Full looks at no more than its n blocks. */
  lemma {:induction false} FullOfPrefix(F: Block -> Block, t0: Block, p: seq<bv8>, q: seq<bv8>, n: nat)
    requires 16 * n <= |p| && 16 * n <= |q| && p[..16 * n] == q[..16 * n]
    ensures Full(F, t0, p, n) == Full(F, t0, q, n)
  {
    hide Xex, Tweak;
    if n != 0 {
      BlockOfPrefix(p, q, n - 1, 16 * n);
      Shorter(p, q, 16 * n - 16, 16 * n);
      FullOfPrefix(F, t0, p, q, n - 1);
    }
  }

  lemma Shorter<T>(p: seq<T>, q: seq<T>, k: nat, n: nat)
    requires k <= n <= |p| && n <= |q| && p[..n] == q[..n]
    ensures p[..k] == q[..k]
  {
    assert p[..n][..k] == p[..k] && q[..n][..k] == q[..k];
  }

  lemma {:induction false} FullUndone(E: Block -> Block, D: Block -> Block, t0: Block, p: seq<bv8>, n: nat)
    requires 16 * n <= |p| && forall x :: D(E(x)) == x
    ensures Full(D, t0, Full(E, t0, p, n), n) == p[..16 * n]
  {
    hide Xex, Tweak;
    if n != 0 {
      var c, front := Full(E, t0, p, n), Full(E, t0, p, n - 1);
      var last := BlockAt(p, n - 1);
      LastBlock(front, Xex(E, Tweak(t0, n - 1), last), n - 1);
      FullOfPrefix(D, t0, c, front, n - 1);
      FullUndone(E, D, t0, p, n - 1);
      XexUndone(E, D, Tweak(t0, n - 1), last);
      Rejoin(p, 16 * n - 16, 16 * n);
    }
  }

  lemma LastBlock<T>(front: seq<T>, last: seq<T>, j: nat)
    requires |front| == 16 * j && |last| == 16
    ensures (front + last)[16 * j..16 * j + 16] == last && (front + last)[..16 * j] == front[..16 * j]
  {
  }

  lemma Rejoin<T>(p: seq<T>, i: nat, n: nat)
    requires i <= n <= |p|
    ensures p[..i] + p[i..n] == p[..n]
  {
  }

  /** The pieces of a stolen data unit. */
  lemma StolenPieces<T>(head: seq<T>, last: seq<T>, cc: seq<T>, b: nat, m: nat)
    requires |head| == 16 * (m - 1) && 0 < m && |last| == 16 && |cc| == 16 && 0 < b < 16
    ensures var c := head + last + cc[..b];
            && |c| == 16 * m + b && c[16 * (m - 1)..16 * (m - 1) + 16] == last && c[16 * m..] == cc[..b]
            && c[..16 * (m - 1)] == head[..16 * (m - 1)]
            && c[16 * m..] + cc[b..] == cc
  {
  }

  /** A stolen data unit comes back when the two tweaks are exchanged. */
  lemma StealUndone(E: Block -> Block, D: Block -> Block, t0: Block, ta: Block, tb: Block, p: seq<bv8>, m: nat)
    requires 0 < m && 16 * m < |p| < 16 * m + 16 && forall x :: D(E(x)) == x
    ensures Steal(D, t0, tb, ta, Steal(E, t0, ta, tb, p, m), m) == p
  {
    hide Xex, Full;
    var b := |p| - 16 * m;
    var cc := Xex(E, ta, BlockAt(p, m - 1));
    var mixed: Block := p[16 * m..] + cc[b..];
    var head, last := Full(E, t0, p, m - 1), Xex(E, tb, mixed);
    var c := Steal(E, t0, ta, tb, p, m);
    StolenPieces(head, last, cc, b, m);
    XexUndone(E, D, tb, mixed);
    assert mixed[b..] == cc[b..] && mixed[..b] == p[16 * m..];
    XexUndone(E, D, ta, BlockAt(p, m - 1));
    FullOfPrefix(D, t0, c, head, m - 1);
    FullUndone(E, D, t0, p, m - 1);
    Rejoin(p, 16 * (m - 1), 16 * m);
    Rejoin(p, 16 * m, |p|);
  }

  /** XTS decryption returns the plaintext, whatever its length from one block up. */
  lemma DecryptUndoesEncrypt(E: Block -> Block, D: Block -> Block, t0: Block, p: seq<bv8>)
    requires 16 <= |p| && forall x :: D(E(x)) == x
    ensures Decrypt(D, t0, Encrypt(E, t0, p)) == p
  {
    hide Full, Steal, Tweak;
    var m := |p| / 16;
    if |p| % 16 == 0 {
      FullUndone(E, D, t0, p, m);
      assert p[..16 * m] == p;
    } else {
      StealUndone(E, D, t0, Tweak(t0, m - 1), Tweak(t0, m), p, m);
    }
  }

  /** The data unit with its partial block replaced by the first bytes that the last full block became. */
  function Overlaid(F: Block -> Block, ta: Block, p: seq<bv8>, m: nat): (q: seq<bv8>)
    requires 0 < m && 16 * m <= |p| < 16 * m + 16
    ensures |q| == |p|
  {
    p[..16 * m] + Xex(F, ta, BlockAt(p, m - 1))[..|p| - 16 * m]
  }

  /** The tweak of the last full block of a data unit with a partial block. */
  function LastTweak(t0: Block, m: nat, decrypt: bool): Block
    requires 0 < m
  {
    if decrypt then Tweak(t0, m) else Tweak(t0, m - 1)
  }

  // ---- The code ----

  /** The input bytes from position n on have not been overwritten. */
  ghost predicate Unread(xs: seq<bv8>, n: nat, input: array<bv8>)
    reads input
  {
    |xs| <= input.Length && forall k :: n <= k < |xs| ==> input[k] == xs[k]
  }

  /** One pass of the block loop: output block at takes the block of the input there. */
  method CryptBlock(F: Block -> Block, tweak: Block, ghost xs: seq<bv8>, at: nat, input: array<bv8>, output: array<bv8>)
    requires at + 16 <= |xs| <= output.Length && Unread(xs, at, input)
    modifies output
    ensures output[..at + 16] == old(output[..at]) + Xex(F, tweak, xs[at..at + 16])
    ensures output[|xs|..] == old(output[|xs|..])
    ensures Unread(xs, at + 16, input)
  {
    hide XorBlock;
    ghost var was := output[..];
    assert input[at..at + 16] == xs[at..at + 16];
    var tmp: Block := XorBlock(input[at..at + 16], tweak);
    tmp := F(tmp);
    ghost var ins := input[..];
    PutBlock(output, at, XorBlock(tmp, tweak));
    TailOfSplice(was[..at], XorBlock(tmp, tweak), was[at + 16..], |xs| - at - 16);
    assert was[at + 16..][|xs| - at - 16..] == was[|xs|..];
    if input == output {
      forall k | at + 16 <= k < |xs|
        ensures input[k] == xs[k]
      {
        assert input[..][k] == ins[k];
      }
    }
  }

  lemma TailOfSplice<T>(head: seq<T>, block: seq<T>, tail: seq<T>, k: nat)
    requires k <= |tail|
    ensures (head + block + tail)[|head| + |block| + k..] == tail[k..]
  {
  }

  /** Ciphertext stealing after the block loop: b bytes are left and the last output block, at
      prev, holds cc. The output is filled before the input is read, in the same place or not. */
  method StealTail(F: Block -> Block, t: Block, ghost xs: seq<bv8>, at: nat, b: nat, input: array<bv8>,
          output: array<bv8>,
                   ghost cc: Block)
    requires 16 <= at && 0 < b < 16 && at + b == |xs| <= output.Length && Unread(xs, at, input)
    requires output[at - 16..at] == cc
    modifies output
    ensures output[..|xs|] ==
            old(output[..at - 16]) + Xex(F, t, (if input == output then cc[..b] else xs[at..]) + cc[b..]) + cc[..b]
    ensures output[|xs|..] == old(output[|xs|..])
  {
    hide XorBlock;
    var prev := at - 16;
    ghost var was := output[..];
    var i := 0;
    while i < b
      invariant 0 <= i <= b && output[..at] == was[..at] && output[at + b..] == was[at + b..]
      invariant forall k :: 0 <= k < i ==> output[at + k] == cc[k]
    {
      assert output[prev + i] == output[..at][prev + i] == was[prev + i] == was[prev..at][i];
      output[at + i] := output[prev + i];
      i := i + 1;
    }
    assert output[at..at + b] == cc[..b];
    assert input != output ==> input[at..at + b] == xs[at..];
    assert output[prev + b..at] == output[..at][prev + b..at] == was[prev..at][b..];
    var tmp: Block := XorBlock(input[at..at + b] + output[prev + b..at], t);
    tmp := F(tmp);
    ghost var filled := output[..];
    PutBlock(output, prev, XorBlock(tmp, t));
    Overwritten(filled, was, output[..], XorBlock(tmp, t), cc[..b], at, b);
  }

  lemma Overwritten<T>(filled: seq<T>, was: seq<T>, s: seq<T>, block: seq<T>, tail: seq<T>, at: nat, b: nat)
    requires 16 <= at && at + b <= |filled| == |was| && |block| == 16 && |tail| == b
    requires s == filled[..at - 16] + block + filled[at..]
    requires filled[..at] == was[..at] && filled[at..at + b] == tail && filled[at + b..] == was[at + b..]
    ensures s[..at + b] == was[..at - 16] + block + tail && s[at + b..] == was[at + b..]
  {
    assert filled[..at - 16] == filled[..at][..at - 16] && was[..at - 16] == was[..at][..at - 16];
    assert filled[at..] == filled[at..at + b] + filled[at + b..];
  }

  lemma NoBlocks(F: Block -> Block, t0: Block, p: seq<bv8>)
    ensures Full(F, t0, p, 0) == [] && Tweak(t0, 0) == t0
  {
  }

  lemma FullNext(F: Block -> Block, t0: Block, p: seq<bv8>, n: nat)
    requires 16 * n + 16 <= |p|
    ensures Full(F, t0, p, n + 1) == Full(F, t0, p, n) + Xex(F, Tweak(t0, n), BlockAt(p, n))
    ensures Tweak(t0, n + 1) == MulX(Tweak(t0, n))
  {
  }

  /** What the code makes of a data unit, into another buffer or in place. */
  function Crypted(E: Block -> Block, D: Block -> Block, decrypt: bool, t0: Block, p: seq<bv8>, inPlace: bool): seq<bv8>
    requires 16 <= |p|
  {
    var m, F := |p| / 16, if decrypt then D else E;
    var q := if inPlace && |p| % 16 != 0 then Overlaid(F, LastTweak(t0, m, decrypt), p, m) else p;
    if decrypt then Decrypt(D, t0, q) else Encrypt(E, t0, q)
  }

  lemma EncryptUndoesDecrypt(E: Block -> Block, D: Block -> Block, t0: Block, c: seq<bv8>)
    requires 16 <= |c| && forall y :: E(D(y)) == y
    ensures Encrypt(E, t0, Decrypt(D, t0, c)) == c
  {
    hide Full, Steal, Tweak;
    var m := |c| / 16;
    if |c| % 16 == 0 {
      FullUndone(D, E, t0, c, m);
      assert c[..16 * m] == c;
    } else {
      StealUndone(D, E, t0, Tweak(t0, m), Tweak(t0, m - 1), c, m);
    }
  }

  /**
   * In place, the code computes what the standard says if and only if there is no partial block, or the partial
   * block happens to be the beginning of what the last full block becomes.
   */
  lemma InPlaceIsRight(E: Block -> Block, D: Block -> Block, decrypt: bool, t0: Block, p: seq<bv8>)
    requires 16 <= |p| && (forall x :: D(E(x)) == x) && (forall y :: E(D(y)) == y)
    ensures var m, F := |p| / 16, if decrypt then D else E;
      Crypted(E, D, decrypt, t0, p, true) == Crypted(E, D, decrypt, t0, p, false) <==>
      |p| % 16 == 0 || p[16 * m..] == Xex(F, LastTweak(t0, m, decrypt), BlockAt(p, m - 1))[..|p| % 16]
  {
    hide Xex, Encrypt, Decrypt, LastTweak;
    var m, F := |p| / 16, if decrypt then D else E;
    if |p| % 16 != 0 {
      var q := Overlaid(F, LastTweak(t0, m, decrypt), p, m);
      DecryptUndoesEncrypt(E, D, t0, p);
      DecryptUndoesEncrypt(E, D, t0, q);
      EncryptUndoesDecrypt(E, D, t0, p);
      EncryptUndoesDecrypt(E, D, t0, q);
      assert p == p[..16 * m] + p[16 * m..];
      assert q[16 * m..] == Xex(F, LastTweak(t0, m, decrypt), BlockAt(p, m - 1))[..|p| % 16];
    }
  }

  /** In place, data units that differ in their partial block only become the same: the block is lost. */
  lemma PartialBlockIsLost(E: Block -> Block, D: Block -> Block, decrypt: bool, t0: Block, p: seq<bv8>, q: seq<bv8>)
    requires 16 <= |p| == |q| && |p| % 16 != 0 && p[..|p| / 16 * 16] == q[..|p| / 16 * 16]
    ensures Crypted(E, D, decrypt, t0, p, true) == Crypted(E, D, decrypt, t0, q, true)
  {
    hide Xex, Encrypt, Decrypt, LastTweak;
    var m := |p| / 16;
    BlockOfPrefix(p, q, m - 1, 16 * m);
  }

  /** A data unit that goes wrong in place: under a cipher that changes nothing, zeros with a one behind them. */
  lemma InPlaceGoesWrong(t0: Block)
    ensures var F, p := (b: Block) => b, seq(16, _ => 0 as bv8) + [1];
      Crypted(F, F, false, t0, p, true) != Crypted(F, F, false, t0, p, false)
  {
    hide Crypted, XorBlock;
    var F, p := (b: Block) => b, seq(16, _ => 0 as bv8) + [1];
    var t, b := LastTweak(t0, 1, false), BlockAt(p, 0);
    XorBlockCancel(b, t);
    assert Xex(F, t, b) == b;
    assert p[16..][0] == 1 && b[..1][0] == 0;
    InPlaceIsRight(F, F, false, t0, p);
  }

  lemma CryptedWhole(E: Block -> Block, D: Block -> Block, decrypt: bool, t0: Block, p: seq<bv8>, inPlace: bool)
    requires 16 <= |p| && |p| % 16 == 0
    ensures Crypted(E, D, decrypt, t0, p, inPlace) == Full(if decrypt then D else E, t0, p, |p| / 16)
  {
  }

  /** Stealing with the partial block in its place or overlaid. */
  lemma StealParts(F: Block -> Block, t0: Block, ta: Block, tb: Block, p: seq<bv8>, m: nat)
    requires 0 < m && 16 * m < |p| < 16 * m + 16
    ensures var b, cc := |p| - 16 * m, Xex(F, ta, BlockAt(p, m - 1));
      && Steal(F, t0, ta, tb, p, m) == Full(F, t0, p, m - 1) + Xex(F, tb, p[16 * m..] + cc[b..]) + cc[..b]
      && Steal(F, t0, ta, tb, Overlaid(F, ta, p, m), m) ==
         Full(F, t0, p, m - 1) + Xex(F, tb, cc[..b] + cc[b..]) + cc[..b]
  {
    hide Xex, Full;
    var q := Overlaid(F, ta, p, m);
    assert q[..16 * m] == p[..16 * m];
    Shorter(p, q, 16 * (m - 1), 16 * m);
    FullOfPrefix(F, t0, p, q, m - 1);
    BlockOfPrefix(p, q, m - 1, 16 * m);
    assert q[16 * m..] == Xex(F, ta, BlockAt(p, m - 1))[..|p| - 16 * m];
  }

  /** A partial block brings two tweaks into play. */
  lemma CryptedPartial(E: Block -> Block, D: Block -> Block, decrypt: bool, t0: Block, p: seq<bv8>, inPlace: bool)
    requires 16 < |p| && |p| % 16 != 0
    ensures var m, F := |p| / 16, if decrypt then D else E;
      var ta, tb := LastTweak(t0, m, decrypt), LastTweak(t0, m, !decrypt);
      Crypted(E, D, decrypt, t0, p, inPlace) ==
      Steal(F, t0, ta, tb, if inPlace then Overlaid(F, ta, p, m) else p, m)
  {
    hide Xex, Full, Tweak, Steal;
  }

  /** mbedtls_aes_crypt_xts. T is the tweak cipher, E and D the data cipher and its inverse. The
      buffers are disjoint or the same; a partial block in the same buffer is overwritten before it is read. */
  method CryptXts(T: Block -> Block, E: Block -> Block, D: Block -> Block, mode: int, length: nat, dataUnit: Block,
                  input: array<bv8>, output: array<bv8>)
      returns (ret: int)
    requires length <= input.Length && length <= output.Length
    modifies output
    ensures mode !in {AES_ENCRYPT, AES_DECRYPT} ==> ret == ERR_AES_BAD_INPUT_DATA
    ensures mode in {AES_ENCRYPT, AES_DECRYPT} && (length < 16 || 0x100_0000 < length) ==> ret == ERR_AES_INVALID_INPUT_LENGTH
    ensures ret != 0 ==> output[..] == old(output[..])
    ensures mode in {AES_ENCRYPT, AES_DECRYPT} && 16 <= length <= 0x100_0000 ==>
              ret == 0 && output[length..] == old(output[length..]) &&
              output[..length] == Crypted(E, D, mode == AES_DECRYPT, T(dataUnit), old(input[..length]), input == output)
  {
    hide MulX, Xex, Full, Tweak, Crypted, Steal, Overlaid, BlockAt, XorBlock;
    if mode != AES_ENCRYPT && mode != AES_DECRYPT {
      return ERR_AES_BAD_INPUT_DATA;
    }
    if length < 16 {
      return ERR_AES_INVALID_INPUT_LENGTH;
    }
    if length > 0x10_0000 * 16 {
      return ERR_AES_INVALID_INPUT_LENGTH;
    }
    var blocks, leftover := length / 16, length % 16;
    ghost var m, xs := blocks, input[..length];
    var F := if mode == AES_ENCRYPT then E else D;
    var t0 := T(dataUnit);
    ghost var swap := leftover != 0 && mode == AES_DECRYPT;
    var tweak, prevTweak := CryptBlocks(F, t0, xs, blocks, leftover != 0 && mode == AES_DECRYPT, input, output);
    if leftover != 0 {
      var at := 16 * blocks;
      var t := if mode == AES_DECRYPT then prevTweak else tweak;
      ghost var cc := Xex(F, if swap then Tweak(t0, m) else Tweak(t0, m - 1), BlockAt(xs, m - 1));
      FullNext(F, t0, xs, m - 1);
      SplitLast(Full(F, t0, xs, m - 1), cc, output[..], at);
      StealTail(F, t, xs, at, leftover, input, output, cc);
      CryptedPartial(E, D, swap, t0, xs, input == output);
      StealParts(F, t0, LastTweak(t0, m, swap), t, xs, m);
    } else {
      CryptedWhole(E, D, mode == AES_DECRYPT, t0, xs, input == output);
    }
    ret := 0;
  }

  /** The block loop. Before the last block of a decryption with a partial block behind it, the tweaks swap. */
  method CryptBlocks(F: Block -> Block, t0: Block, ghost xs: seq<bv8>, m: nat, swap: bool, input: array<bv8>,
                     output: array<bv8>)
      returns (tweak: Block, prevTweak: Block)
    requires 0 < m && 16 * m <= |xs| <= output.Length && Unread(xs, 0, input)
    modifies output
    ensures output[|xs|..] == old(output[|xs|..]) && Unread(xs, 16 * m, input)
    ensures !swap ==> tweak == Tweak(t0, m) && output[..16 * m] == Full(F, t0, xs, m)
    ensures swap ==> prevTweak == Tweak(t0, m - 1)
    ensures swap ==> output[..16 * m] == Full(F, t0, xs, m - 1) + Xex(F, Tweak(t0, m), BlockAt(xs, m - 1))
  {
    hide MulX, Xex, Full, Tweak, Unread;
    tweak, prevTweak := t0, t0;
    var at, blocks := 0, m;
    NoBlocks(F, t0, xs);
    ghost var rest := output[|xs|..];
    while blocks > 0
      invariant 0 <= blocks <= m && at == 16 * (m - blocks) && Unread(xs, at, input)
      invariant output[|xs|..] == rest
      invariant !(swap && blocks == 0) ==> tweak == Tweak(t0, m - blocks) && output[..at] == Full(F, t0, xs, m - blocks)
      invariant swap && blocks == 0 ==> prevTweak == Tweak(t0, m - 1)
      invariant swap && blocks == 0 ==> output[..at] == Full(F, t0, xs, m - 1) + Xex(F, Tweak(t0, m), BlockAt(xs, m - 1))
    {
      blocks := blocks - 1;
      if swap && blocks == 0 {
        prevTweak := tweak;
        tweak := MulX(tweak);
      }
      FullNext(F, t0, xs, m - blocks - 1);
      CryptBlock(F, tweak, xs, at, input, output);
      tweak := MulX(tweak);
      at := at + 16;
    }
  }

  /** A data unit encrypted and decrypted again, through any buffers, is what it was or was refused. */
  method XtsThereAndBack(T: Block -> Block, E: Block -> Block, D: Block -> Block, length: nat, dataUnit: Block,
                         plain: array<bv8>, cipher: array<bv8>, back: array<bv8>)
      returns (ret: int)
    requires length <= plain.Length && length <= cipher.Length && length <= back.Length
    requires forall x :: D(E(x)) == x
    requires length % 16 == 0 || (plain != cipher && cipher != back)
    modifies cipher, back
    ensures ret == 0 <==> 16 <= length <= 0x100_0000
    ensures ret == 0 ==> back[..length] == old(plain[..length])
  {
    hide Encrypt, Decrypt;
    ghost var was := plain[..length];
    ret := CryptXts(T, E, D, AES_ENCRYPT, length, dataUnit, plain, cipher);
    if ret == 0 {
      DecryptUndoesEncrypt(E, D, T(dataUnit), was);
      ret := CryptXts(T, E, D, AES_DECRYPT, length, dataUnit, cipher, back);
    }
  }

  lemma SplitLast<T>(head: seq<T>, cc: seq<T>, s: seq<T>, at: nat)
    requires |cc| == 16 && |head| + 16 == at <= |s| && s[..at] == head + cc
    ensures s[..at - 16] == head && s[at - 16..at] == cc
  {
    assert s[..at - 16] == s[..at][..at - 16] && s[at - 16..at] == s[..at][at - 16..];
  }
}
