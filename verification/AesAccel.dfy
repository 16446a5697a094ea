/** The AES-NI key schedule of aesni.c: 128-bit registers as four words, lowest word first. */
module AesNi {
  import opened GF256
  import opened CipherState
  import opened Fips197
  import opened Aes

  const ZERO := Word(0, 0, 0, 0)

  /** _mm_aeskeygenassist_si128 */
  function KeygenAssist(sb: SBox, x: State, rcon: bv8): State {
    var s1, s3 := x.w1.Map(sb.fsb), x.w3.Map(sb.fsb);
    State(s1, s1.Rotr8().Xor(Word(rcon, 0, 0, 0)), s3, s3.Rotr8().Xor(Word(rcon, 0, 0, 0)))
  }

  /** _mm_slli_si128(x, 4) */
  function ShiftWord(x: State): State { State(ZERO, x.w0, x.w1, x.w2) }

  function Broadcast(w: Word): State { State(w, w, w, w) }

  /** The shift-and-xor ladder shared by the three expansion helpers. */
  function Ladder(x: Word, state: State): State {
    var s1 := ShiftWord(state);
    var s2 := ShiftWord(s1);
    Broadcast(x).Xor(state).Xor(s1).Xor(s2).Xor(ShiftWord(s2))
  }

  lemma LadderByte(x: bv8, a: bv8, b: bv8, c: bv8, d: bv8)
    ensures Add(Add(Add(Add(x, a), 0), 0), 0) == Add(a, x)
    ensures Add(Add(Add(Add(x, b), a), 0), 0) == Add(b, Add(a, x))
    ensures Add(Add(Add(Add(x, c), b), a), 0) == Add(c, Add(b, Add(a, x)))
    ensures Add(Add(Add(Add(x, d), c), b), a) == Add(d, Add(c, Add(b, Add(a, x))))
    ensures Add(Add(x, a), 0) == Add(a, x) && Add(Add(x, b), a) == Add(b, Add(a, x))
  {
    hide Add;
    AddZero(Add(x, a));
    AddZero(Add(Add(x, b), a));
    AddZero(Add(Add(Add(x, c), b), a));
    Comm(x, a);
    MoveToFront(b, x, a);
    MoveToFront(c, x, b);
    MoveToFront(c, Add(x, b), a);
    MoveToFront(d, x, c);
    MoveToFront(d, Add(x, c), b);
    MoveToFront(d, Add(Add(x, c), b), a);
    Comm(x, c);
    Comm(x, d);
  }

  lemma AddZero(x: bv8)
    ensures Add(x, 0) == x
  {
  }

  lemma MoveToFront(b: bv8, x: bv8, a: bv8)
    ensures Add(Add(x, b), a) == Add(b, Add(x, a)) && Add(Add(b, x), a) == Add(b, Add(x, a))
  {
    hide Add;
    Assoc(b, x, a);
    Comm(x, b);
  }

  /** Each word of the ladder is the old word added to the previous new one. */
  lemma LadderIsRunningSum(x: Word, s: State)
    ensures var r := Ladder(x, s);
            r.w0 == s.w0.Xor(x) && r.w1 == s.w1.Xor(r.w0) && r.w2 == s.w2.Xor(r.w1) && r.w3 == s.w3.Xor(r.w2)
  {
    hide Add;
    LadderByte(x.b0, s.w0.b0, s.w1.b0, s.w2.b0, s.w3.b0);
    LadderByte(x.b1, s.w0.b1, s.w1.b1, s.w2.b1, s.w3.b1);
    LadderByte(x.b2, s.w0.b2, s.w1.b2, s.w2.b2, s.w3.b2);
    LadderByte(x.b3, s.w0.b3, s.w1.b3, s.w2.b3, s.w3.b3);
  }

  /** The assist word added to k is the first word of a key block. */
  lemma AssistIsFirstWord(sb: SBox, k: Word, last: Word, i: nat)
    requires i < 10
    ensures k.Xor(last.Map(sb.fsb).Rotr8().Xor(Word(ROUND_CONSTANTS[i], 0, 0, 0))) == FirstWord(sb, k, last, i)
  {
    hide Word.Xor;
    WordXorOrders(k, last.Map(sb.fsb).Rotr8(), Word(ROUND_CONSTANTS[i], 0, 0, 0));
  }

  /** The register holds words n to n + 3 of the schedule. */
  ghost predicate HoldsWords(sb: SBox, key: seq<bv8>, nk: nat, n: nat, r: State)
    requires nk in {4, 6, 8} && |key| == 4 * nk
  {
    && r.w0 == KeyWord(sb, key, nk, n) && r.w1 == KeyWord(sb, key, nk, n + 1)
    && r.w2 == KeyWord(sb, key, nk, n + 2) && r.w3 == KeyWord(sb, key, nk, n + 3)
  }

  // ---- 128-bit keys ----

  /** aesni_set_rk_128 */
  function SetRk128(state: State, xword: State): State { Ladder(xword.w3, state) }

  lemma SetRk128IsKeyBlock(sb: SBox, key: seq<bv8>, i: nat, prev: State)
    requires |key| == 16 && 1 <= i <= 10
    requires HoldsWords(sb, key, 4, 4 * i - 4, prev)
    ensures HoldsWords(sb, key, 4, 4 * i, SetRk128(prev, KeygenAssist(sb, prev, ROUND_CONSTANTS[i - 1])))
  {
    hide Word.Xor, Word.Map, Word.Rotr8, Ladder, FirstWord, KeyWord;
    LadderIsRunningSum(KeygenAssist(sb, prev, ROUND_CONSTANTS[i - 1]).w3, prev);
    AssistIsFirstWord(sb, prev.w0, prev.w3, i - 1);
    KeyBlock128(sb, key, i);
  }

  method Step128(sb: SBox, ghost key: seq<bv8>, rk: array<Word>, i: nat, rcon: bv8)
    requires |key| == 16 && 1 <= i <= 10 && 44 <= rk.Length && rcon == ROUND_CONSTANTS[i - 1]
    requires Expanded(sb, key, 4, rk, 4 * i)
    modifies rk
    ensures Expanded(sb, key, 4, rk, 4 * i + 4)
  {
    hide KeygenAssist, SetRk128, KeyWord;
    var prev := KeyAt(rk, i - 1);
    var r := SetRk128(prev, KeygenAssist(sb, prev, rcon));
    SetRk128IsKeyBlock(sb, key, i, prev);
    AppendBlock(sb, key, 4, rk, 4 * i, r);
  }

  /** Stores one register of four schedule words. */
  method AppendBlock(ghost sb: SBox, ghost key: seq<bv8>, ghost nk: nat, rk: array<Word>, n: nat, r: State)
    requires nk in {4, 6, 8} && |key| == 4 * nk && n + 4 <= rk.Length && Expanded(sb, key, nk, rk, n)
    requires HoldsWords(sb, key, nk, n, r)
    modifies rk
    ensures Expanded(sb, key, nk, rk, n + 4)
  {
    hide KeyWord;
    Append(sb, key, nk, rk, n, r.w0);
    Append(sb, key, nk, rk, n + 1, r.w1);
    Append(sb, key, nk, rk, n + 2, r.w2);
    Append(sb, key, nk, rk, n + 3, r.w3);
  }

  /** aesni_setkey_enc_128 */
  method SetkeyEnc128(sb: SBox, key: seq<bv8>, rk: array<Word>)
    requires |key| == 16 && 44 <= rk.Length
    modifies rk
    ensures Expanded(sb, key, 4, rk, 44)
  {
    hide KeyWord, Expanded;
    CopyKey(sb, key, 4, rk);
    Step128(sb, key, rk, 1, 0x01);
    Step128(sb, key, rk, 2, 0x02);
    Step128(sb, key, rk, 3, 0x04);
    Step128(sb, key, rk, 4, 0x08);
    Step128(sb, key, rk, 5, 0x10);
    Step128(sb, key, rk, 6, 0x20);
    Step128(sb, key, rk, 7, 0x40);
    Step128(sb, key, rk, 8, 0x80);
    Step128(sb, key, rk, 9, 0x1B);
    Step128(sb, key, rk, 10, 0x36);
  }

  /** memcpy of the key into the first words of the schedule. */
  method CopyKey(ghost sb: SBox, key: seq<bv8>, nk: nat, rk: array<Word>)
    requires nk in {4, 6, 8} && |key| == 4 * nk && nk <= rk.Length
    modifies rk
    ensures Expanded(sb, key, nk, rk, nk)
  {
    hide KeyWord;
    KeyWordsOfKey(sb, key, nk);
    for i := 0 to nk
      invariant Expanded(sb, key, nk, rk, i)
    {
      Append(sb, key, nk, rk, i, GetWord(key, 4 * i));
    }
  }

  // ---- 192-bit keys ----

  /** aesni_set_rk_192: the next six words, in a register pair of which the upper half of the
      second register is never used. */
  function SetRk192(state0: State, state1: State, xword: State): (State, State) {
    var next0 := Ladder(xword.w1, state0);
    (next0, Broadcast(next0.w3).Xor(state1).Xor(ShiftWord(state1)))
  }

  lemma SetRk192IsKeyBlock(sb: SBox, key: seq<bv8>, i: nat, state0: State, state1: State)
    requires |key| == 24 && 1 <= i <= 8
    requires HoldsSix(sb, key, 6 * i - 6, state0, state1)
    ensures var (next0, next1) := SetRk192(state0, state1, KeygenAssist(sb, state1, ROUND_CONSTANTS[i - 1]));
            HoldsSix(sb, key, 6 * i, next0, next1)
  {
    hide Word.Xor, Word.Map, Word.Rotr8, State.Xor, Ladder, FirstWord, KeyWord;
    var x := KeygenAssist(sb, state1, ROUND_CONSTANTS[i - 1]).w1;
    LadderIsRunningSum(x, state0);
    HalfLadder(Ladder(x, state0).w3, state1);
    AssistIsFirstWord(sb, state0.w0, state1.w1, i - 1);
    KeyBlock192(sb, key, i);
  }

  method Step192(sb: SBox, ghost key: seq<bv8>, rk: array<Word>, i: nat, state0: State, state1: State, rcon: bv8)
      returns (next0: State, next1: State)
    requires |key| == 24 && 1 <= i <= 8 && 54 <= rk.Length && rcon == ROUND_CONSTANTS[i - 1]
    requires Expanded(sb, key, 6, rk, 6 * i)
    requires HoldsSix(sb, key, 6 * i - 6, state0, state1)
    modifies rk
    ensures Expanded(sb, key, 6, rk, 6 * i + 6)
    ensures HoldsSix(sb, key, 6 * i, next0, next1)
  {
    hide KeygenAssist, SetRk192, KeyWord;
    SetRk192IsKeyBlock(sb, key, i, state0, state1);
    var (n0, n1) := SetRk192(state0, state1, KeygenAssist(sb, state1, rcon));
    next0, next1 := n0, n1;
    AppendBlock(sb, key, 6, rk, 6 * i, next0);
    Append(sb, key, 6, rk, 6 * i + 4, next1.w0);
    Append(sb, key, 6, rk, 6 * i + 5, next1.w1);
  }

  /** The live words of the register pair are words n to n + 5 of the schedule. */
  ghost predicate HoldsSix(sb: SBox, key: seq<bv8>, n: nat, state0: State, state1: State)
    requires |key| == 24
  {
    && HoldsWords(sb, key, 6, n, state0)
    && state1.w0 == KeyWord(sb, key, 6, n + 4) && state1.w1 == KeyWord(sb, key, 6, n + 5)
  }

  lemma HalfLadder(x: Word, s: State)
    ensures var r := Broadcast(x).Xor(s).Xor(ShiftWord(s));
            r.w0 == s.w0.Xor(x) && r.w1 == s.w1.Xor(r.w0)
  {
    hide Add;
    LadderByte(x.b0, s.w0.b0, s.w1.b0, 0, 0);
    LadderByte(x.b1, s.w0.b1, s.w1.b1, 0, 0);
    LadderByte(x.b2, s.w0.b2, s.w1.b2, 0, 0);
    LadderByte(x.b3, s.w0.b3, s.w1.b3, 0, 0);
  }

  lemma FirstPair(sb: SBox, key: seq<bv8>, rk: array<Word>)
    requires |key| == 24 && 6 <= rk.Length && Expanded(sb, key, 6, rk, 6)
    ensures HoldsSix(sb, key, 0, KeyAt(rk, 0), State(rk[4], rk[5], ZERO, ZERO))
  {
    hide KeyWord;
  }

  /** aesni_setkey_enc_192 */
  method SetkeyEnc192(sb: SBox, key: seq<bv8>, rk: array<Word>)
    requires |key| == 24 && 54 <= rk.Length
    modifies rk
    ensures Expanded(sb, key, 6, rk, 54)
  {
    hide KeyWord, HoldsSix, Expanded;
    CopyKey(sb, key, 6, rk);
    var s0, s1 := KeyAt(rk, 0), State(rk[4], rk[5], ZERO, ZERO);
    FirstPair(sb, key, rk);
    s0, s1 := Step192(sb, key, rk, 1, s0, s1, 0x01);
    s0, s1 := Step192(sb, key, rk, 2, s0, s1, 0x02);
    s0, s1 := Step192(sb, key, rk, 3, s0, s1, 0x04);
    s0, s1 := Step192(sb, key, rk, 4, s0, s1, 0x08);
    s0, s1 := Step192(sb, key, rk, 5, s0, s1, 0x10);
    s0, s1 := Step192(sb, key, rk, 6, s0, s1, 0x20);
    s0, s1 := Step192(sb, key, rk, 7, s0, s1, 0x40);
    s0, s1 := Step192(sb, key, rk, 8, s0, s1, 0x80);
  }

  // ---- 256-bit keys ----

  /** aesni_set_rk_256: two more round keys. */
  function SetRk256(sb: SBox, state0: State, state1: State, xword: State): (State, State) {
    var rk0 := Ladder(xword.w3, state0);
    (rk0, Ladder(KeygenAssist(sb, rk0, 0x00).w2, state1))
  }

  lemma SetRk256IsKeyBlock(sb: SBox, key: seq<bv8>, i: nat, state0: State, state1: State)
    requires |key| == 32 && 1 <= i <= 7
    requires HoldsWords(sb, key, 8, 8 * i - 8, state0) && HoldsWords(sb, key, 8, 8 * i - 4, state1)
    ensures var (rk0, rk1) := SetRk256(sb, state0, state1, KeygenAssist(sb, state1, ROUND_CONSTANTS[i - 1]));
            HoldsWords(sb, key, 8, 8 * i, rk0) && HoldsWords(sb, key, 8, 8 * i + 4, rk1)
  {
    hide Word.Xor, Word.Map, Word.Rotr8, Ladder, FirstWord, KeyWord;
    var x := KeygenAssist(sb, state1, ROUND_CONSTANTS[i - 1]).w3;
    LadderIsRunningSum(x, state0);
    LadderIsRunningSum(KeygenAssist(sb, Ladder(x, state0), 0x00).w2, state1);
    AssistIsFirstWord(sb, state0.w0, state1.w3, i - 1);
    KeyBlock256(sb, key, i);
  }

  method Step256(sb: SBox, ghost key: seq<bv8>, rk: array<Word>, i: nat, rcon: bv8)
    requires |key| == 32 && 1 <= i <= 7 && 64 <= rk.Length && rcon == ROUND_CONSTANTS[i - 1]
    requires Expanded(sb, key, 8, rk, 8 * i)
    modifies rk
    ensures Expanded(sb, key, 8, rk, 8 * i + 8)
  {
    hide KeygenAssist, SetRk256, KeyWord;
    var state0, state1 := KeyAt(rk, 2 * i - 2), KeyAt(rk, 2 * i - 1);
    SetRk256IsKeyBlock(sb, key, i, state0, state1);
    var (rk0, rk1) := SetRk256(sb, state0, state1, KeygenAssist(sb, state1, rcon));
    AppendBlock(sb, key, 8, rk, 8 * i, rk0);
    AppendBlock(sb, key, 8, rk, 8 * i + 4, rk1);
  }

  /** aesni_setkey_enc_256: one round key more than the cipher uses. */
  method SetkeyEnc256(sb: SBox, key: seq<bv8>, rk: array<Word>)
    requires |key| == 32 && 64 <= rk.Length
    modifies rk
    ensures Expanded(sb, key, 8, rk, 64)
  {
    hide KeyWord, Expanded;
    CopyKey(sb, key, 8, rk);
    Step256(sb, key, rk, 1, 0x01);
    Step256(sb, key, rk, 2, 0x02);
    Step256(sb, key, rk, 3, 0x04);
    Step256(sb, key, rk, 4, 0x08);
    Step256(sb, key, rk, 5, 0x10);
    Step256(sb, key, rk, 6, 0x20);
    Step256(sb, key, rk, 7, 0x40);
  }

  /** mbedtls_aesni_inverse_key, with _mm_aesimc_si128 as InvMixColumns. */
  method InverseKey(fwd: array<Word>, inv: array<Word>, nr: nat)
    requires 0 < nr && 4 * nr + 4 <= fwd.Length && 4 * nr + 4 <= inv.Length && fwd != inv
    modifies inv
    ensures IsInverseSchedule(fwd[..], inv[..], nr)
  {
    hide InvMixColumns, InverseWord, RoundKey;
    ghost var w := fwd[..];
    var fk, ik := nr, 0;
    StoreInverseBlock(w, inv, nr, ik, KeyAt(fwd, fk));
    fk, ik := fk - 1, ik + 1;
    while fk > 0
      invariant 0 <= fk < nr && ik == nr - fk && Inverted(w, inv, nr, 4 * ik)
    {
      StoreInverseBlock(w, inv, nr, ik, InvMixColumns(KeyAt(fwd, fk)));
      fk, ik := fk - 1, ik + 1;
    }
    StoreInverseBlock(w, inv, nr, ik, KeyAt(fwd, fk));
    InverseWordsMakeInverseSchedule(w, inv[..], nr);
  }
}

/** The Armv8 key schedule of aesce.c: one loop for the three key sizes, writing no word past
    the end of the schedule. */
module AesCe {
  import opened GF256
  import opened CipherState
  import opened Fips197
  import opened Aes
  import AesNi

  /** rcon[] */
  const RCON: seq<bv8> := ROUND_CONSTANTS

  /** rki is the first word of a block from which the next one is made. */
  ghost predicate BlockStart(nk: nat, rki: nat) {
    nk in {4, 6, 8} && rki % nk == 0 && rki / nk < 10
  }

  /** KeyBlock with the block's first word index as the loop variable. */
  lemma KeyBlockFrom(sb: SBox, key: seq<bv8>, nk: nat, rki: nat, j: nat)
    requires BlockStart(nk, rki) && |key| == 4 * nk && j < nk
    ensures var w := KeyWord(sb, key, nk, rki + nk + j);
            var prev := KeyWord(sb, key, nk, rki + nk + j - 1);
            var back := KeyWord(sb, key, nk, rki + j);
            w == if j == 0 then FirstWord(sb, back, prev, rki / nk)
                 else if nk == 8 && j == 4 then back.Xor(prev.Map(sb.fsb))
                 else back.Xor(prev)
  {
    hide KeyWord, Word.Xor, Word.Map, FirstWord;
    KeyBlock(sb, key, nk, rki / nk + 1, j);
    match nk {
      case 4 => assert 4 * (rki / 4 + 1) == rki + 4;
      case 6 => assert 6 * (rki / 6 + 1) == rki + 6;
      case _ => assert 8 * (rki / 8 + 1) == rki + 8;
    }
  }

  /** rko[0] = rot(sub(rki[nk - 1])), then rko[0] ^= rcon[iteration] ^ rki[0]. */
  method PutFirst(sb: SBox, ghost key: seq<bv8>, nk: nat, rk: array<Word>, rki: nat)
    requires BlockStart(nk, rki) && |key| == 4 * nk && rki + nk < rk.Length
    requires Expanded(sb, key, nk, rk, rki + nk)
    modifies rk
    ensures Expanded(sb, key, nk, rk, rki + nk + 1)
  {
    hide KeyWord, Word.Xor, FirstWord, RotSub;
    var w := RotSub(sb, rk[rki + nk - 1]);
    w := w.Xor(Word(RCON[rki / nk], 0, 0, 0).Xor(rk[rki]));
    FirstWordOrder(sb, rk[rki], rk[rki + nk - 1], rki / nk);
    KeyBlockFrom(sb, key, nk, rki, 0);
    Append(sb, key, nk, rk, rki + nk, w);
  }

  /** rko[j] = rko[j - 1] ^ rki[j], or with SubWord of rko[3] in the fifth word of a 256-bit key. */
  method PutNext(sb: SBox, ghost key: seq<bv8>, nk: nat, rk: array<Word>, rki: nat, j: nat)
    requires BlockStart(nk, rki) && |key| == 4 * nk && 0 < j < nk && rki + nk + j < rk.Length
    requires Expanded(sb, key, nk, rk, rki + nk + j)
    modifies rk
    ensures Expanded(sb, key, nk, rk, rki + nk + j + 1)
  {
    hide KeyWord, Word.Xor, Word.Map, FirstWord;
    KeyBlockFrom(sb, key, nk, rki, j);
    var prev := rk[rki + nk + j - 1];
    if nk == 8 && j == 4 {
      prev := prev.Map(sb.fsb);
    }
    Append(sb, key, nk, rk, rki + nk + j, rk[rki + j].Xor(prev));
  }

  /** aes_rot_word(aes_sub_word(in)) */
  function RotSub(sb: SBox, w: Word): Word { w.Map(sb.fsb).Rotr8() }

  /** aesce_setkey_enc; the buffer holds exactly 4 * (Nr + 1) words. */
  method SetkeyEnc(sb: SBox, key: seq<bv8>, nk: nat, rk: array<Word>)
    requires nk in {4, 6, 8} && |key| == 4 * nk && rk.Length == 4 * (nk + 7)
    modifies rk
    ensures Expanded(sb, key, nk, rk, rk.Length)
  {
    hide KeyWord, BlockStart, Expanded;
    AesNi.CopyKey(sb, key, nk, rk);
    var rki := 0;
    FirstBlock(nk);
    while rki + nk < rk.Length
      invariant rki < rk.Length && (rki + nk < rk.Length ==> BlockStart(nk, rki))
      invariant Expanded(sb, key, nk, rk, if rki + nk <= rk.Length then rki + nk else rk.Length)
    {
      var rko := rki + nk;
      BlockFollows(nk, rki);
      PutFirst(sb, key, nk, rk, rki);
      PutNext(sb, key, nk, rk, rki, 1);
      PutNext(sb, key, nk, rk, rki, 2);
      PutNext(sb, key, nk, rk, rki, 3);
      if rko + nk > rk.Length {
        rki := rko;
        continue;
      }
      match nk {
        case 4 =>
        case 6 =>
          PutNext(sb, key, nk, rk, rki, 4);
          PutNext(sb, key, nk, rk, rki, 5);
        case _ =>
          PutNext(sb, key, nk, rk, rki, 4);
          PutNext(sb, key, nk, rk, rki, 5);
          PutNext(sb, key, nk, rk, rki, 6);
          PutNext(sb, key, nk, rk, rki, 7);
      }
      rki := rko;
    }
  }

  lemma FirstBlock(nk: nat)
    requires nk in {4, 6, 8}
    ensures BlockStart(nk, 0)
  {
  }

  /** The block that starts at rki has at least four words left in the schedule, and the next
      one is again a block start unless the schedule is complete. */
  lemma BlockFollows(nk: nat, rki: nat)
    requires BlockStart(nk, rki) && rki + nk < 4 * (nk + 7)
    ensures rki + nk + 4 <= 4 * (nk + 7)
    ensures rki + nk + nk < 4 * (nk + 7) ==> BlockStart(nk, rki + nk)
    ensures rki + nk + nk > 4 * (nk + 7) ==> rki + nk + 4 == 4 * (nk + 7)
  {
    match nk {
      case 4 => assert rki == 4 * (rki / 4);
      case 6 => assert rki == 6 * (rki / 6);
      case _ => assert rki == 8 * (rki / 8);
    }
  }

  /** The order in which the Armv8 code adds the three terms of a block's first word. */
  lemma FirstWordOrder(sb: SBox, k: Word, last: Word, i: nat)
    requires i < 10
    ensures RotSub(sb, last).Xor(Word(RCON[i], 0, 0, 0).Xor(k)) == FirstWord(sb, k, last, i)
  {
    hide Word.Xor;
    WordXorOrders(k, last.Map(sb.fsb).Rotr8(), Word(RCON[i], 0, 0, 0));
  }

  /** mbedtls_aesce_inverse_key, with vaesimcq_u8 as InvMixColumns. */
  method InverseKey(fwd: array<Word>, inv: array<Word>, nr: nat)
    requires 0 < nr && 4 * nr + 4 <= fwd.Length && 4 * nr + 4 <= inv.Length && fwd != inv
    modifies inv
    ensures IsInverseSchedule(fwd[..], inv[..], nr)
  {
    hide InvMixColumns, InverseWord, RoundKey;
    ghost var w := fwd[..];
    var j := nr;
    StoreInverseBlock(w, inv, nr, 0, KeyAt(fwd, j));
    var i := 1;
    j := j - 1;
    while j > 0
      invariant 0 <= j < nr && i == nr - j && Inverted(w, inv, nr, 4 * i)
    {
      StoreInverseBlock(w, inv, nr, i, InvMixColumns(KeyAt(fwd, j)));
      i, j := i + 1, j - 1;
    }
    StoreInverseBlock(w, inv, nr, i, KeyAt(fwd, j));
    InverseWordsMakeInverseSchedule(w, inv[..], nr);
  }
}
