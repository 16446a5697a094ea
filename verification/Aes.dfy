/** The table-driven AES of aes.c: key schedules written into the context buffer and the
    unrolled round loops, each proved to compute what FIPS 197 defines. */
module Aes {
  import opened GF256
  import opened CipherState
  import opened Fips197

  const ERR_AES_INVALID_KEY_LENGTH: int := -0x0020

  /** round_constants[10] */
  const ROUND_CONSTANTS: seq<bv8> := [0x01, 0x02, 0x04, 0x08, 0x10, 0x20, 0x40, 0x80, 0x1B, 0x36]

  // ---- The lookup tables FT0 and RT0; FT1..FT3 and RT1..RT3 are their rotations ----

  function FT0(sb: SBox, i: bv8): Word {
    var x := sb.fsb(i);
    Word(Xtime(x), x, x, Add(Xtime(x), x))
  }

  function RT0(sb: SBox, i: bv8): Word {
    var x := sb.rsb(i);
    Word(MulE(x), Mul9(x), MulD(x), MulB(x))
  }

  function FT1(sb: SBox, i: bv8): Word { FT0(sb, i).Rotl8() }
  function FT2(sb: SBox, i: bv8): Word { FT1(sb, i).Rotl8() }
  function FT3(sb: SBox, i: bv8): Word { FT2(sb, i).Rotl8() }
  function RT1(sb: SBox, i: bv8): Word { RT0(sb, i).Rotl8() }
  function RT2(sb: SBox, i: bv8): Word { RT1(sb, i).Rotl8() }
  function RT3(sb: SBox, i: bv8): Word { RT2(sb, i).Rotl8() }

  function FColumn(sb: SBox, k: Word, p: Word, q: Word, r: Word, s: Word): Word {
    k.Xor(FT0(sb, p.b0)).Xor(FT1(sb, q.b1)).Xor(FT2(sb, r.b2)).Xor(FT3(sb, s.b3))
  }

  function RColumn(sb: SBox, k: Word, p: Word, q: Word, r: Word, s: Word): Word {
    k.Xor(RT0(sb, p.b0)).Xor(RT1(sb, q.b1)).Xor(RT2(sb, r.b2)).Xor(RT3(sb, s.b3))
  }

  /** AES_FROUND */
  function FRound(sb: SBox, k: State, y: State): State {
    State(FColumn(sb, k.w0, y.w0, y.w1, y.w2, y.w3), FColumn(sb, k.w1, y.w1, y.w2, y.w3, y.w0),
          FColumn(sb, k.w2, y.w2, y.w3, y.w0, y.w1), FColumn(sb, k.w3, y.w3, y.w0, y.w1, y.w2))
  }

  /** AES_RROUND */
  function RRound(sb: SBox, k: State, y: State): State {
    State(RColumn(sb, k.w0, y.w0, y.w3, y.w2, y.w1), RColumn(sb, k.w1, y.w1, y.w0, y.w3, y.w2),
          RColumn(sb, k.w2, y.w2, y.w1, y.w0, y.w3), RColumn(sb, k.w3, y.w3, y.w2, y.w1, y.w0))
  }

  lemma XorOrder(k: bv8, a: bv8, b: bv8, c: bv8, d: bv8)
    ensures Add(Add(Add(Add(k, a), b), c), d) == Add(Add4(a, b, c, d), k)
  {
    assert (((k ^ a) ^ b) ^ c) ^ d == ((a ^ b) ^ (c ^ d)) ^ k;
  }

  /** Four table lookups and a key word make one mixed column. */
  lemma FColumnIsMixColumn(sb: SBox, k: Word, p: Word, q: Word, r: Word, s: Word)
    ensures FColumn(sb, k, p, q, r, s) ==
            MixColumn(Word(sb.fsb(p.b0), sb.fsb(q.b1), sb.fsb(r.b2), sb.fsb(s.b3))).Xor(k)
  {
    hide Add, Add4, Xtime;
    var a, b, c, d := sb.fsb(p.b0), sb.fsb(q.b1), sb.fsb(r.b2), sb.fsb(s.b3);
    XorOrder(k.b0, Xtime(a), Mul3(b), c, d);
    XorOrder(k.b1, a, Xtime(b), Mul3(c), d);
    XorOrder(k.b2, a, b, Xtime(c), Mul3(d));
    XorOrder(k.b3, Mul3(a), b, c, Xtime(d));
    MixRowOrder(a, b, c, d);
  }

  lemma MixRowOrder(a: bv8, b: bv8, c: bv8, d: bv8)
    ensures MixRow(b, c, d, a) == Add4(a, Xtime(b), Mul3(c), d)
    ensures MixRow(c, d, a, b) == Add4(a, b, Xtime(c), Mul3(d))
    ensures MixRow(d, a, b, c) == Add4(Mul3(a), b, c, Xtime(d))
  {
    hide Add, Add4, Xtime, Mul3;
    Rotate(a, Xtime(b), Mul3(c), d);
    Rotate(a, b, Xtime(c), Mul3(d));
    Rotate(b, Xtime(c), Mul3(d), a);
    Rotate(Xtime(d), Mul3(a), b, c);
  }

  lemma InvMixRowOrder(a: bv8, b: bv8, c: bv8, d: bv8)
    ensures InvMixRow(b, c, d, a) == Add4(Mul9(a), MulE(b), MulB(c), MulD(d))
    ensures InvMixRow(c, d, a, b) == Add4(MulD(a), Mul9(b), MulE(c), MulB(d))
    ensures InvMixRow(d, a, b, c) == Add4(MulB(a), MulD(b), Mul9(c), MulE(d))
  {
    hide Add, Add4, Mul9, MulB, MulD, MulE;
    Rotate(Mul9(a), MulE(b), MulB(c), MulD(d));
    Rotate(MulD(a), Mul9(b), MulE(c), MulB(d));
    Rotate(Mul9(b), MulE(c), MulB(d), MulD(a));
    Rotate(MulE(d), MulB(a), MulD(b), Mul9(c));
  }

  lemma RColumnIsInvMixColumn(sb: SBox, k: Word, p: Word, q: Word, r: Word, s: Word)
    ensures RColumn(sb, k, p, q, r, s) ==
            InvMixColumn(Word(sb.rsb(p.b0), sb.rsb(q.b1), sb.rsb(r.b2), sb.rsb(s.b3))).Xor(k)
  {
    hide Add, Add4, Mul9, MulB, MulD, MulE;
    var a, b, c, d := sb.rsb(p.b0), sb.rsb(q.b1), sb.rsb(r.b2), sb.rsb(s.b3);
    XorOrder(k.b0, MulE(a), MulB(b), MulD(c), Mul9(d));
    XorOrder(k.b1, Mul9(a), MulE(b), MulB(c), MulD(d));
    XorOrder(k.b2, MulD(a), Mul9(b), MulE(c), MulB(d));
    XorOrder(k.b3, MulB(a), MulD(b), Mul9(c), MulE(d));
    InvMixRowOrder(a, b, c, d);
  }

  /** AES_FROUND is one full round of the standard. */
  lemma FRoundIsRound(sb: SBox, k: State, y: State)
    ensures FRound(sb, k, y) == MixColumns(SubShift(sb, y)).Xor(k)
  {
    hide FColumn, MixColumn;
    FColumnIsMixColumn(sb, k.w0, y.w0, y.w1, y.w2, y.w3);
    FColumnIsMixColumn(sb, k.w1, y.w1, y.w2, y.w3, y.w0);
    FColumnIsMixColumn(sb, k.w2, y.w2, y.w3, y.w0, y.w1);
    FColumnIsMixColumn(sb, k.w3, y.w3, y.w0, y.w1, y.w2);
  }

  /** AES_RROUND is one full round of the equivalent inverse cipher. */
  lemma RRoundIsInvRound(sb: SBox, k: State, y: State)
    ensures RRound(sb, k, y) == InvMixColumns(InvSubShift(sb, y)).Xor(k)
  {
    hide RColumn, InvMixColumn;
    RColumnIsInvMixColumn(sb, k.w0, y.w0, y.w3, y.w2, y.w1);
    RColumnIsInvMixColumn(sb, k.w1, y.w1, y.w0, y.w3, y.w2);
    RColumnIsInvMixColumn(sb, k.w2, y.w2, y.w1, y.w0, y.w3);
    RColumnIsInvMixColumn(sb, k.w3, y.w3, y.w2, y.w1, y.w0);
  }

  // ---- Key schedules ----

  lemma RoundConstantsAreRcon()
    ensures forall i :: 0 <= i < 10 ==> ROUND_CONSTANTS[i] == Rcon(i + 1)
  {
    assert Rcon(1) == 0x01;
    assert Rcon(2) == 0x02;
    assert Rcon(3) == 0x04;
    assert Rcon(4) == 0x08;
    assert Rcon(5) == 0x10;
    assert Rcon(6) == 0x20;
    assert Rcon(7) == 0x40;
    assert Rcon(8) == 0x80;
    assert Rcon(9) == 0x1B;
    assert Rcon(10) == 0x36;
  }

  /** The first n words of the buffer are the first n words of the standard's schedule. */
  ghost predicate Expanded(sb: SBox, key: seq<bv8>, nk: nat, rk: array<Word>, n: nat)
    requires nk in {4, 6, 8} && |key| == 4 * nk && n <= rk.Length
    reads rk
  {
    forall i :: 0 <= i < n ==> rk[i] == KeyWord(sb, key, nk, i)
  }

  /** The non-linear word of schedule step i, from the last word of the previous key block:
      RotWord, SubWord and round constant, folded into k in the code's order. */
  function FirstWord(sb: SBox, k: Word, last: Word, i: nat): Word
    requires i < 10
  {
    k.Xor(Word(ROUND_CONSTANTS[i], 0, 0, 0)).Xor(last.Rotr8().Map(sb.fsb))
  }

  lemma WordXorOrders(k: Word, s: Word, c: Word)
    ensures k.Xor(c).Xor(s) == k.Xor(s.Xor(c))
    ensures s.Xor(c.Xor(k)) == k.Xor(s.Xor(c))
    ensures s.Xor(c).Xor(k) == k.Xor(s.Xor(c))
    ensures k.Xor(s) == s.Xor(k)
  {
    hide Add;
    XorOrders(k.b0, s.b0, c.b0);
    XorOrders(k.b1, s.b1, c.b1);
    XorOrders(k.b2, s.b2, c.b2);
    XorOrders(k.b3, s.b3, c.b3);
  }

  lemma Index4(g: nat, j: nat)
    requires j < 4
    ensures (4 * g + j) % 4 == j && (4 * g + j) / 4 == g
  {
  }

  lemma Index6(g: nat, j: nat)
    requires j < 6
    ensures (6 * g + j) % 6 == j && (6 * g + j) / 6 == g
  {
  }

  lemma Index8(g: nat, j: nat)
    requires j < 8
    ensures (8 * g + j) % 8 == j && (8 * g + j) / 8 == g
  {
  }

  lemma BlockIndex(nk: nat, g: nat, j: nat)
    requires nk in {4, 6, 8} && j < nk
    ensures (nk * g + j) % nk == j && (nk * g + j) / nk == g
  {
    if nk == 4 {
      Index4(g, j);
    } else if nk == 6 {
      Index6(g, j);
    } else {
      Index8(g, j);
    }
  }

  /** One block of the schedule, nk words from word nk * g: what each word is made of. */
  lemma KeyBlock(sb: SBox, key: seq<bv8>, nk: nat, g: nat, j: nat)
    requires nk in {4, 6, 8} && |key| == 4 * nk && 1 <= g <= 10 && j < nk
    ensures var i := nk * g + j; var w := KeyWord(sb, key, nk, i); var back := KeyWord(sb, key, nk, i - nk);
            var prev := KeyWord(sb, key, nk, i - 1);
            w == if j == 0 then FirstWord(sb, back, prev, g - 1)
                 else if nk == 8 && j == 4 then back.Xor(prev.Map(sb.fsb))
                 else back.Xor(prev)
  {
    hide Word.Xor, Word.Map, Rcon;
    RoundConstantsAreRcon();
    var i := nk * g + j;
    BlockIndex(nk, g, j);
    var prev := KeyWord(sb, key, nk, i - 1);
    WordXorOrders(KeyWord(sb, key, nk, i - nk), prev.Rotr8().Map(sb.fsb), RconWord(g));
  }

  /** Writes the next word of the schedule. */
  method Append(ghost sb: SBox, ghost key: seq<bv8>, ghost nk: nat, rk: array<Word>, n: nat, w: Word)
    requires nk in {4, 6, 8} && |key| == 4 * nk && n < rk.Length
    requires Expanded(sb, key, nk, rk, n) && w == KeyWord(sb, key, nk, n)
    modifies rk
    ensures Expanded(sb, key, nk, rk, n + 1)
  {
    rk[n] := w;
  }

  lemma KeyBlock128(sb: SBox, key: seq<bv8>, g: nat)
    requires |key| == 16 && 1 <= g <= 10
    ensures KeyWord(sb, key, 4, 4 * g) == FirstWord(sb, KeyWord(sb, key, 4, 4 * g - 4), KeyWord(sb, key, 4, 4 * g - 1), g - 1)
    ensures KeyWord(sb, key, 4, 4 * g + 1) == KeyWord(sb, key, 4, 4 * g - 3).Xor(KeyWord(sb, key, 4, 4 * g))
    ensures KeyWord(sb, key, 4, 4 * g + 2) == KeyWord(sb, key, 4, 4 * g - 2).Xor(KeyWord(sb, key, 4, 4 * g + 1))
    ensures KeyWord(sb, key, 4, 4 * g + 3) == KeyWord(sb, key, 4, 4 * g - 1).Xor(KeyWord(sb, key, 4, 4 * g + 2))
  {
    hide Word.Xor, Word.Map, FirstWord, KeyWord;
    KeyBlock(sb, key, 4, g, 0);
    KeyBlock(sb, key, 4, g, 1);
    KeyBlock(sb, key, 4, g, 2);
    KeyBlock(sb, key, 4, g, 3);
  }

  /** case 10: fills 44 words of the buffer. */
  method Expand128(sb: SBox, key: seq<bv8>, rk: array<Word>)
    requires |key| == 16 && 44 <= rk.Length && Expanded(sb, key, 4, rk, 4)
    modifies rk
    ensures Expanded(sb, key, 4, rk, 44)
  {
    hide Word.Xor, Word.Map, FirstWord, KeyWord;
    for i := 0 to 10
      invariant forall j :: 0 <= j < 4 * i + 4 ==> rk[j] == KeyWord(sb, key, 4, j)
    {
      var b := 4 * i;
      KeyBlock128(sb, key, i + 1);
      Append(sb, key, 4, rk, b + 4, FirstWord(sb, rk[b], rk[b + 3], i));
      Append(sb, key, 4, rk, b + 5, rk[b + 1].Xor(rk[b + 4]));
      Append(sb, key, 4, rk, b + 6, rk[b + 2].Xor(rk[b + 5]));
      Append(sb, key, 4, rk, b + 7, rk[b + 3].Xor(rk[b + 6]));
    }
  }

  lemma KeyBlock192(sb: SBox, key: seq<bv8>, g: nat)
    requires |key| == 24 && 1 <= g <= 8
    ensures KeyWord(sb, key, 6, 6 * g) == FirstWord(sb, KeyWord(sb, key, 6, 6 * g - 6), KeyWord(sb, key, 6, 6 * g - 1), g - 1)
    ensures KeyWord(sb, key, 6, 6 * g + 1) == KeyWord(sb, key, 6, 6 * g - 5).Xor(KeyWord(sb, key, 6, 6 * g))
    ensures KeyWord(sb, key, 6, 6 * g + 2) == KeyWord(sb, key, 6, 6 * g - 4).Xor(KeyWord(sb, key, 6, 6 * g + 1))
    ensures KeyWord(sb, key, 6, 6 * g + 3) == KeyWord(sb, key, 6, 6 * g - 3).Xor(KeyWord(sb, key, 6, 6 * g + 2))
    ensures KeyWord(sb, key, 6, 6 * g + 4) == KeyWord(sb, key, 6, 6 * g - 2).Xor(KeyWord(sb, key, 6, 6 * g + 3))
    ensures KeyWord(sb, key, 6, 6 * g + 5) == KeyWord(sb, key, 6, 6 * g - 1).Xor(KeyWord(sb, key, 6, 6 * g + 4))
  {
    hide Word.Xor, Word.Map, FirstWord, KeyWord;
    KeyBlock(sb, key, 6, g, 0);
    KeyBlock(sb, key, 6, g, 1);
    KeyBlock(sb, key, 6, g, 2);
    KeyBlock(sb, key, 6, g, 3);
    KeyBlock(sb, key, 6, g, 4);
    KeyBlock(sb, key, 6, g, 5);
  }

  /** case 12: fills 54 words of the buffer. */
  method Expand192(sb: SBox, key: seq<bv8>, rk: array<Word>)
    requires |key| == 24 && 54 <= rk.Length && Expanded(sb, key, 6, rk, 6)
    modifies rk
    ensures Expanded(sb, key, 6, rk, 54)
  {
    hide Word.Xor, Word.Map, FirstWord, KeyWord;
    for i := 0 to 8
      invariant forall j :: 0 <= j < 6 * i + 6 ==> rk[j] == KeyWord(sb, key, 6, j)
    {
      var b := 6 * i;
      KeyBlock192(sb, key, i + 1);
      Append(sb, key, 6, rk, b + 6, FirstWord(sb, rk[b], rk[b + 5], i));
      Append(sb, key, 6, rk, b + 7, rk[b + 1].Xor(rk[b + 6]));
      Append(sb, key, 6, rk, b + 8, rk[b + 2].Xor(rk[b + 7]));
      Append(sb, key, 6, rk, b + 9, rk[b + 3].Xor(rk[b + 8]));
      Append(sb, key, 6, rk, b + 10, rk[b + 4].Xor(rk[b + 9]));
      Append(sb, key, 6, rk, b + 11, rk[b + 5].Xor(rk[b + 10]));
    }
  }

  lemma KeyBlock256(sb: SBox, key: seq<bv8>, g: nat)
    requires |key| == 32 && 1 <= g <= 7
    ensures KeyWord(sb, key, 8, 8 * g) == FirstWord(sb, KeyWord(sb, key, 8, 8 * g - 8), KeyWord(sb, key, 8, 8 * g - 1), g - 1)
    ensures KeyWord(sb, key, 8, 8 * g + 1) == KeyWord(sb, key, 8, 8 * g - 7).Xor(KeyWord(sb, key, 8, 8 * g))
    ensures KeyWord(sb, key, 8, 8 * g + 2) == KeyWord(sb, key, 8, 8 * g - 6).Xor(KeyWord(sb, key, 8, 8 * g + 1))
    ensures KeyWord(sb, key, 8, 8 * g + 3) == KeyWord(sb, key, 8, 8 * g - 5).Xor(KeyWord(sb, key, 8, 8 * g + 2))
    ensures KeyWord(sb, key, 8, 8 * g + 4) == KeyWord(sb, key, 8, 8 * g - 4).Xor(KeyWord(sb, key, 8, 8 * g + 3).Map(sb.fsb))
    ensures KeyWord(sb, key, 8, 8 * g + 5) == KeyWord(sb, key, 8, 8 * g - 3).Xor(KeyWord(sb, key, 8, 8 * g + 4))
    ensures KeyWord(sb, key, 8, 8 * g + 6) == KeyWord(sb, key, 8, 8 * g - 2).Xor(KeyWord(sb, key, 8, 8 * g + 5))
    ensures KeyWord(sb, key, 8, 8 * g + 7) == KeyWord(sb, key, 8, 8 * g - 1).Xor(KeyWord(sb, key, 8, 8 * g + 6))
  {
    hide Word.Xor, Word.Map, FirstWord, KeyWord;
    KeyBlock(sb, key, 8, g, 0);
    KeyBlock(sb, key, 8, g, 1);
    KeyBlock(sb, key, 8, g, 2);
    KeyBlock(sb, key, 8, g, 3);
    KeyBlock(sb, key, 8, g, 4);
    KeyBlock(sb, key, 8, g, 5);
    KeyBlock(sb, key, 8, g, 6);
    KeyBlock(sb, key, 8, g, 7);
  }

  /** case 14: fills 64 words of the buffer. */
  method Expand256(sb: SBox, key: seq<bv8>, rk: array<Word>)
    requires |key| == 32 && 64 <= rk.Length && Expanded(sb, key, 8, rk, 8)
    modifies rk
    ensures Expanded(sb, key, 8, rk, 64)
  {
    hide Word.Xor, Word.Map, FirstWord, KeyWord;
    for i := 0 to 7
      invariant forall j :: 0 <= j < 8 * i + 8 ==> rk[j] == KeyWord(sb, key, 8, j)
    {
      var b := 8 * i;
      KeyBlock256(sb, key, i + 1);
      Append(sb, key, 8, rk, b + 8, FirstWord(sb, rk[b], rk[b + 7], i));
      Append(sb, key, 8, rk, b + 9, rk[b + 1].Xor(rk[b + 8]));
      Append(sb, key, 8, rk, b + 10, rk[b + 2].Xor(rk[b + 9]));
      Append(sb, key, 8, rk, b + 11, rk[b + 3].Xor(rk[b + 10]));
      Append(sb, key, 8, rk, b + 12, rk[b + 4].Xor(rk[b + 11].Map(sb.fsb)));
      Append(sb, key, 8, rk, b + 13, rk[b + 5].Xor(rk[b + 12]));
      Append(sb, key, 8, rk, b + 14, rk[b + 6].Xor(rk[b + 13]));
      Append(sb, key, 8, rk, b + 15, rk[b + 7].Xor(rk[b + 14]));
    }
  }

  /** Number of rounds for a key length the library accepts. */
  function KeyRounds(keybits: nat): nat { keybits / 32 + 6 }

  class AesContext {
    var nr: nat
    const buf: array<Word>

    constructor ()
      ensures buf.Length == 68 && fresh(buf)
    {
      nr := 0;
      buf := new Word[68](_ => Word(0, 0, 0, 0));
    }

    /** mbedtls_aes_setkey_enc, portable path. */
    method SetkeyEnc(sb: SBox, key: seq<bv8>, keybits: nat) returns (ret: int)
      requires buf.Length == 68
      requires keybits in {128, 192, 256} ==> |key| == keybits / 8
      modifies this, buf
      ensures keybits !in {128, 192, 256} ==>
                ret == ERR_AES_INVALID_KEY_LENGTH && nr == old(nr) && buf[..] == old(buf[..])
      ensures keybits in {128, 192, 256} ==>
                ret == 0 && nr == KeyRounds(keybits) && Expanded(sb, key, keybits / 32, buf, 4 * (nr + 1))
    {
      hide KeyWord;
      match keybits {
        case 128 => nr := 10;
        case 192 => nr := 12;
        case 256 => nr := 14;
        case _ => return ERR_AES_INVALID_KEY_LENGTH;
      }
      for i := 0 to keybits / 32
        modifies buf
        invariant forall j :: 0 <= j < i ==> buf[j] == GetWord(key, 4 * j)
      {
        buf[i] := GetWord(key, 4 * i);
      }
      KeyWordsOfKey(sb, key, keybits / 32);
      assert Expanded(sb, key, keybits / 32, buf, keybits / 32);
      match nr {
        case 10 => Expand128(sb, key, buf);
        case 12 => Expand192(sb, key, buf);
        case _ => Expand256(sb, key, buf);
      }
      ret := 0;
    }

    /** mbedtls_aes_setkey_dec, portable path: the schedule of a scratch context is copied
        backwards, the middle words passed through the reverse tables. */
    method SetkeyDec(sb: SBox, key: seq<bv8>, keybits: nat) returns (ret: int)
      requires buf.Length == 68 && sb.Inverse()
      requires keybits in {128, 192, 256} ==> |key| == keybits / 8
      modifies this, buf
      ensures keybits !in {128, 192, 256} ==>
                ret == ERR_AES_INVALID_KEY_LENGTH && nr == old(nr) && buf[..] == old(buf[..])
      ensures keybits in {128, 192, 256} ==>
                ret == 0 && nr == KeyRounds(keybits) &&
                IsInverseSchedule(KeyExpansion(sb, key, keybits / 32), buf[..], nr)
    {
      hide KeyWord, Expanded, IsInverseSchedule;
      var cty := new AesContext();
      ret := cty.SetkeyEnc(sb, key, keybits);
      if ret != 0 {
        return;
      }
      nr := cty.nr;
      InvertSchedule(sb, cty.buf, buf, nr);
      ExpandedIsKeyExpansion(sb, key, keybits / 32, cty.buf);
      PrefixIsSchedule(KeyExpansion(sb, key, keybits / 32), cty.buf[..], buf[..], nr);
    }

    ghost predicate Ready()
      reads this
    {
      nr in {10, 12, 14} && buf.Length == 68
    }

    /** mbedtls_internal_aes_encrypt; input and output may be the same array. */
    method Encrypt(sb: SBox, input: array<bv8>, output: array<bv8>)
      requires Ready() && input.Length == 16 && output.Length == 16
      modifies output
      ensures output[..] == Cipher(sb, buf[..], nr, GetState(old(input[..]))).Bytes()
    {
      hide FRound, FLast, Rounds, Cipher, State.Xor, State.Bytes, GetState, KeyAt, RoundKey;
      FRoundSteps(sb, buf[..], nr, GetState(input[..]));
      ghost var rk, s := buf[..], GetState(input[..]);
      var next := 1;
      var x := GetState(input[..]).Xor(KeyAt(buf, 0));
      var y := x;
      var i := nr / 2 - 1;
      while i > 0
        invariant 0 <= i && next == nr - 1 - 2 * i && x == Rounds(sb, rk, next - 1, s)
      {
        y := FRound(sb, KeyAt(buf, next), x);
        x := FRound(sb, KeyAt(buf, next + 1), y);
        next, i := next + 2, i - 1;
      }
      y := FRound(sb, KeyAt(buf, next), x);
      x := FLast(sb, KeyAt(buf, next + 1), y);
      PutState(x, output);
    }

    /** mbedtls_internal_aes_decrypt */
    method Decrypt(sb: SBox, input: array<bv8>, output: array<bv8>)
      requires Ready() && input.Length == 16 && output.Length == 16
      modifies output
      ensures output[..] == EqInvCipher(sb, buf[..], nr, GetState(old(input[..]))).Bytes()
    {
      hide RRound, RLast, InvRounds, EqInvCipher, State.Xor, State.Bytes, GetState, KeyAt, RoundKey;
      RRoundSteps(sb, buf[..], nr, GetState(input[..]));
      ghost var dk, s := buf[..], GetState(input[..]);
      var next := 1;
      var x := GetState(input[..]).Xor(KeyAt(buf, 0));
      var y := x;
      var i := nr / 2 - 1;
      while i > 0
        invariant 0 <= i && next == nr - 1 - 2 * i && x == InvRounds(sb, dk, next - 1, s)
      {
        y := RRound(sb, KeyAt(buf, next), x);
        x := RRound(sb, KeyAt(buf, next + 1), y);
        next, i := next + 2, i - 1;
      }
      y := RRound(sb, KeyAt(buf, next), x);
      x := RLast(sb, KeyAt(buf, next + 1), y);
      PutState(x, output);
    }
  }

  /** The cipher in terms of the macros the code applies. */
  lemma FRoundSteps(sb: SBox, rk: seq<Word>, nr: nat, s: State)
    requires 0 < nr && 4 * nr + 4 <= |rk|
    ensures Rounds(sb, rk, 0, s) == s.Xor(RoundKey(rk, 0))
    ensures forall r :: 0 < r < nr ==> Rounds(sb, rk, r, s) == FRound(sb, RoundKey(rk, r), Rounds(sb, rk, r - 1, s))
    ensures Cipher(sb, rk, nr, s) == FLast(sb, RoundKey(rk, nr), Rounds(sb, rk, nr - 1, s))
  {
    hide FRound, FLast, State.Xor, SubShift, MixColumns;
    forall r | 0 < r < nr
      ensures Rounds(sb, rk, r, s) == FRound(sb, RoundKey(rk, r), Rounds(sb, rk, r - 1, s))
    {
      FRoundIsRound(sb, RoundKey(rk, r), Rounds(sb, rk, r - 1, s));
    }
    FLastIsLastRound(sb, RoundKey(rk, nr), Rounds(sb, rk, nr - 1, s));
  }

  /** The inverse cipher in terms of the macros the code applies. */
  lemma RRoundSteps(sb: SBox, dk: seq<Word>, nr: nat, s: State)
    requires 0 < nr && 4 * nr + 4 <= |dk|
    ensures InvRounds(sb, dk, 0, s) == s.Xor(RoundKey(dk, 0))
    ensures forall r :: 0 < r < nr ==> InvRounds(sb, dk, r, s) == RRound(sb, RoundKey(dk, r), InvRounds(sb, dk, r - 1, s))
    ensures EqInvCipher(sb, dk, nr, s) == RLast(sb, RoundKey(dk, nr), InvRounds(sb, dk, nr - 1, s))
  {
    hide RRound, RLast, State.Xor, InvSubShift, InvMixColumns;
    forall r | 0 < r < nr
      ensures InvRounds(sb, dk, r, s) == RRound(sb, RoundKey(dk, r), InvRounds(sb, dk, r - 1, s))
    {
      RRoundIsInvRound(sb, RoundKey(dk, r), InvRounds(sb, dk, r - 1, s));
    }
    RLastIsLastRound(sb, RoundKey(dk, nr), InvRounds(sb, dk, nr - 1, s));
  }

  /** The four words that RK steps over in round r. */
  function KeyAt(rk: array<Word>, r: nat): (k: State)
    requires 4 * r + 4 <= rk.Length
    reads rk
    ensures k == RoundKey(rk[..], r)
  {
    State(rk[4 * r], rk[4 * r + 1], rk[4 * r + 2], rk[4 * r + 3])
  }

  /** One column of the last round: substitution and key, no mixing. */
  function LastColumn(f: bv8 -> bv8, k: Word, p: Word, q: Word, r: Word, s: Word): Word {
    k.Xor(Word(f(p.b0), 0, 0, 0)).Xor(Word(0, f(q.b1), 0, 0)).Xor(Word(0, 0, f(r.b2), 0)).Xor(Word(0, 0, 0, f(s.b3)))
  }

  function FLast(sb: SBox, k: State, y: State): State {
    State(LastColumn(sb.fsb, k.w0, y.w0, y.w1, y.w2, y.w3), LastColumn(sb.fsb, k.w1, y.w1, y.w2, y.w3, y.w0),
          LastColumn(sb.fsb, k.w2, y.w2, y.w3, y.w0, y.w1), LastColumn(sb.fsb, k.w3, y.w3, y.w0, y.w1, y.w2))
  }

  function RLast(sb: SBox, k: State, y: State): State {
    State(LastColumn(sb.rsb, k.w0, y.w0, y.w3, y.w2, y.w1), LastColumn(sb.rsb, k.w1, y.w1, y.w0, y.w3, y.w2),
          LastColumn(sb.rsb, k.w2, y.w2, y.w1, y.w0, y.w3), LastColumn(sb.rsb, k.w3, y.w3, y.w2, y.w1, y.w0))
  }

  lemma LastColumnIsKeyAddition(f: bv8 -> bv8, k: Word, p: Word, q: Word, r: Word, s: Word)
    ensures LastColumn(f, k, p, q, r, s) == Word(f(p.b0), f(q.b1), f(r.b2), f(s.b3)).Xor(k)
  {
    hide Add;
    SingleTerm(k.b0, f(p.b0));
    SingleTerm(k.b1, f(q.b1));
    SingleTerm(k.b2, f(r.b2));
    SingleTerm(k.b3, f(s.b3));
  }

  lemma SingleTerm(k: bv8, a: bv8)
    ensures Add(k, 0) == k && Add(Add(k, a), 0) == Add(k, a) && Add(k, a) == Add(a, k)
  {
  }

  lemma FLastIsLastRound(sb: SBox, k: State, y: State)
    ensures FLast(sb, k, y) == SubShift(sb, y).Xor(k)
  {
    hide LastColumn, Word.Xor;
    LastColumnIsKeyAddition(sb.fsb, k.w0, y.w0, y.w1, y.w2, y.w3);
    LastColumnIsKeyAddition(sb.fsb, k.w1, y.w1, y.w2, y.w3, y.w0);
    LastColumnIsKeyAddition(sb.fsb, k.w2, y.w2, y.w3, y.w0, y.w1);
    LastColumnIsKeyAddition(sb.fsb, k.w3, y.w3, y.w0, y.w1, y.w2);
  }

  lemma RLastIsLastRound(sb: SBox, k: State, y: State)
    ensures RLast(sb, k, y) == InvSubShift(sb, y).Xor(k)
  {
    hide LastColumn, Word.Xor;
    LastColumnIsKeyAddition(sb.rsb, k.w0, y.w0, y.w3, y.w2, y.w1);
    LastColumnIsKeyAddition(sb.rsb, k.w1, y.w1, y.w0, y.w3, y.w2);
    LastColumnIsKeyAddition(sb.rsb, k.w2, y.w2, y.w1, y.w0, y.w3);
    LastColumnIsKeyAddition(sb.rsb, k.w3, y.w3, y.w2, y.w1, y.w0);
  }

  /** The copying loops of mbedtls_aes_setkey_dec, reading at sk and writing at rk. */
  method InvertSchedule(sb: SBox, fwd: array<Word>, inv: array<Word>, nr: nat)
    requires 0 < nr && 4 * nr + 4 <= fwd.Length && 4 * nr + 4 <= inv.Length && fwd != inv && sb.Inverse()
    modifies inv
    ensures IsInverseSchedule(fwd[..], inv[..], nr)
  {
    hide InvMixColumn, InverseWord, ReverseLookup;
    ghost var w := fwd[..];
    var rk, sk := 0, 4 * nr;
    while rk < 4
      invariant rk <= 4 && sk == 4 * nr + rk
      invariant Inverted(w, inv, nr, rk)
    {
      InverseWordAt(w, nr, 0, rk);
      StoreInverse(w, inv, nr, rk, fwd[sk]);
      rk, sk := rk + 1, sk + 1;
    }
    sk := sk - 8;
    var i := nr - 1;
    while i > 0
      invariant 0 <= i < nr && rk == 4 * (nr - i) && sk == 4 * i
      invariant Inverted(w, inv, nr, rk)
    {
      var j := 0;
      while j < 4
        invariant j <= 4 && rk == 4 * (nr - i) + j && sk == 4 * i + j
        invariant Inverted(w, inv, nr, rk)
      {
        ReverseLookupIsInvMixColumn(sb, fwd[sk]);
        InverseWordAt(w, nr, nr - i, j);
        StoreInverse(w, inv, nr, rk, ReverseLookup(sb, fwd[sk]));
        j, rk, sk := j + 1, rk + 1, sk + 1;
      }
      i, sk := i - 1, sk - 8;
    }
    while rk < 4 * nr + 4
      invariant 4 * nr <= rk <= 4 * nr + 4 && sk == rk - 4 * nr
      invariant Inverted(w, inv, nr, rk)
    {
      InverseWordAt(w, nr, nr, sk);
      StoreInverse(w, inv, nr, rk, fwd[sk]);
      rk, sk := rk + 1, sk + 1;
    }
    InverseWordsMakeInverseSchedule(w, inv[..], nr);
  }

  /** Word i of the decryption schedule made from the encryption schedule w. */
  ghost function InverseWord(w: seq<Word>, nr: nat, i: nat): Word
    requires i < 4 * nr + 4 <= |w|
  {
    var back := w[4 * (nr - i / 4) + i % 4];
    if i / 4 == 0 || i / 4 == nr then back else InvMixColumn(back)
  }

  ghost predicate Inverted(w: seq<Word>, inv: array<Word>, nr: nat, n: nat)
    requires n <= 4 * nr + 4 <= |w| && 4 * nr + 4 <= inv.Length
    reads inv
  {
    forall i :: 0 <= i < n ==> inv[i] == InverseWord(w, nr, i)
  }

  method StoreInverse(ghost w: seq<Word>, inv: array<Word>, ghost nr: nat, n: nat, x: Word)
    requires n < 4 * nr + 4 <= |w| && 4 * nr + 4 <= inv.Length
    requires Inverted(w, inv, nr, n) && x == InverseWord(w, nr, n)
    modifies inv
    ensures Inverted(w, inv, nr, n + 1)
  {
    inv[n] := x;
  }

  /** Stores round key r of the decryption schedule as one 16-byte block. */
  method StoreInverseBlock(ghost w: seq<Word>, inv: array<Word>, ghost nr: nat, r: nat, k: State)
    requires r <= nr && 4 * nr + 4 <= |w| && 4 * nr + 4 <= inv.Length
    requires Inverted(w, inv, nr, 4 * r)
    requires k == if r == 0 || r == nr then RoundKey(w, nr - r) else InvMixColumns(RoundKey(w, nr - r))
    modifies inv
    ensures Inverted(w, inv, nr, 4 * r + 4)
  {
    hide InvMixColumn, InverseWord;
    InverseWordAt(w, nr, r, 0);
    StoreInverse(w, inv, nr, 4 * r, k.w0);
    InverseWordAt(w, nr, r, 1);
    StoreInverse(w, inv, nr, 4 * r + 1, k.w1);
    InverseWordAt(w, nr, r, 2);
    StoreInverse(w, inv, nr, 4 * r + 2, k.w2);
    InverseWordAt(w, nr, r, 3);
    StoreInverse(w, inv, nr, 4 * r + 3, k.w3);
  }

  lemma InverseWordAt(w: seq<Word>, nr: nat, r: nat, j: nat)
    requires r <= nr && j < 4 && 4 * nr + 4 <= |w|
    ensures InverseWord(w, nr, 4 * r + j) ==
            if r == 0 || r == nr then w[4 * (nr - r) + j] else InvMixColumn(w[4 * (nr - r) + j])
  {
    hide InvMixColumn;
    assert (4 * r + j) / 4 == r && (4 * r + j) % 4 == j;
  }

  lemma InverseWordsMakeInverseSchedule(w: seq<Word>, dk: seq<Word>, nr: nat)
    requires 0 < nr && 4 * nr + 4 <= |w| && 4 * nr + 4 <= |dk|
    requires forall i :: 0 <= i < 4 * nr + 4 ==> dk[i] == InverseWord(w, nr, i)
    ensures IsInverseSchedule(w, dk, nr)
  {
    hide InvMixColumn, InverseWord;
    forall r | 0 <= r <= nr
      ensures RoundKey(dk, r) == if r == 0 || r == nr then RoundKey(w, nr - r) else InvMixColumns(RoundKey(w, nr - r))
    {
      InverseWordAt(w, nr, r, 0);
      InverseWordAt(w, nr, r, 1);
      InverseWordAt(w, nr, r, 2);
      InverseWordAt(w, nr, r, 3);
    }
  }

  lemma KeyWordsOfKey(sb: SBox, key: seq<bv8>, nk: nat)
    requires nk in {4, 6, 8} && |key| == 4 * nk
    ensures forall j :: 0 <= j < nk ==> KeyWord(sb, key, nk, j) == GetWord(key, 4 * j)
  {
  }

  lemma ExpandedIsKeyExpansion(sb: SBox, key: seq<bv8>, nk: nat, rk: array<Word>)
    requires nk in {4, 6, 8} && |key| == 4 * nk && 4 * (nk + 7) <= rk.Length
    requires Expanded(sb, key, nk, rk, 4 * (nk + 7))
    ensures rk[..4 * (nk + 7)] == KeyExpansion(sb, key, nk)
  {
    hide KeyWord;
  }

  /** The expression setkey_dec applies to each middle word. */
  function ReverseLookup(sb: SBox, w: Word): Word {
    RT0(sb, sb.fsb(w.b0)).Xor(RT1(sb, sb.fsb(w.b1))).Xor(RT2(sb, sb.fsb(w.b2))).Xor(RT3(sb, sb.fsb(w.b3)))
  }

  lemma ReverseLookupIsInvMixColumn(sb: SBox, w: Word)
    requires sb.Inverse()
    ensures ReverseLookup(sb, w) == InvMixColumn(w)
  {
    hide Add, Add4, Mul9, MulB, MulD, MulE;
    SumOrder(MulE(w.b0), MulB(w.b1), MulD(w.b2), Mul9(w.b3));
    SumOrder(Mul9(w.b0), MulE(w.b1), MulB(w.b2), MulD(w.b3));
    SumOrder(MulD(w.b0), Mul9(w.b1), MulE(w.b2), MulB(w.b3));
    SumOrder(MulB(w.b0), MulD(w.b1), Mul9(w.b2), MulE(w.b3));
    InvMixRowOrder(w.b0, w.b1, w.b2, w.b3);
  }

  lemma SumOrder(a: bv8, b: bv8, c: bv8, d: bv8)
    ensures Add(Add(Add(a, b), c), d) == Add4(a, b, c, d)
  {
    hide Add;
    Assoc(Add(a, b), c, d);
  }

  /** A schedule buffer may be longer than the schedule in it. */
  lemma PrefixIsSchedule(w: seq<Word>, ek: seq<Word>, dk: seq<Word>, nr: nat)
    requires |w| == 4 * nr + 4 <= |ek| && ek[..4 * nr + 4] == w
    ensures IsInverseSchedule(w, dk, nr) <==> IsInverseSchedule(ek, dk, nr)
  {
    hide InvMixColumns;
    forall r | 0 <= r <= nr
      ensures RoundKey(ek, r) == RoundKey(w, r)
    {
      assert ek[..4 * nr + 4][4 * r] == ek[4 * r] && ek[..4 * nr + 4][4 * r + 1] == ek[4 * r + 1];
      assert ek[..4 * nr + 4][4 * r + 2] == ek[4 * r + 2] && ek[..4 * nr + 4][4 * r + 3] == ek[4 * r + 3];
    }
  }

  /** Decryption under the keys that setkey_dec makes undoes encryption under those of setkey_enc. */
  lemma DecryptUndoesEncrypt(sb: SBox, key: seq<bv8>, nk: nat, ek: seq<Word>, dk: seq<Word>, block: seq<bv8>)
    requires sb.Inverse() && nk in {4, 6, 8} && |key| == 4 * nk && |block| == 16
    requires 4 * (nk + 7) <= |ek| && ek[..4 * (nk + 7)] == KeyExpansion(sb, key, nk)
    requires IsInverseSchedule(KeyExpansion(sb, key, nk), dk, nk + 6)
    ensures |Cipher(sb, ek, nk + 6, GetState(block)).Bytes()| == 16
    ensures EqInvCipher(sb, dk, nk + 6, GetState(Cipher(sb, ek, nk + 6, GetState(block)).Bytes())).Bytes() == block
  {
    hide KeyWord, KeyExpansion, Cipher, EqInvCipher, IsInverseSchedule, GetState, State.Bytes;
    PrefixIsSchedule(KeyExpansion(sb, key, nk), ek, dk, nk + 6);
    EqInvCipherUndoesCipher(sb, ek, dk, nk + 6, GetState(block));
    GetStateOfBytes(Cipher(sb, ek, nk + 6, GetState(block)));
    BytesOfGetState(block);
  }

  /** The four calls together, for every key of each size and every block: the block comes back. */
  method EncryptThenDecrypt(sb: SBox, key: seq<bv8>, keybits: nat, block: array<bv8>)
    requires sb.Inverse() && keybits in {128, 192, 256} && |key| == keybits / 8 && block.Length == 16
    modifies block
    ensures block[..] == old(block[..])
  {
    hide KeyWord, KeyExpansion, Cipher, EqInvCipher, IsInverseSchedule, GetState, State.Bytes, Expanded;
    var enc := new AesContext();
    var _ := enc.SetkeyEnc(sb, key, keybits);
    ExpandedIsKeyExpansion(sb, key, keybits / 32, enc.buf);
    ghost var ek := enc.buf[..];
    var dec := new AesContext();
    var _ := dec.SetkeyDec(sb, key, keybits);
    DecryptUndoesEncrypt(sb, key, keybits / 32, ek, dec.buf[..], block[..]);
    enc.Encrypt(sb, block, block);
    dec.Decrypt(sb, block, block);
  }
}
