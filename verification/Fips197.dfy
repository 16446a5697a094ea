/** The AES cipher as FIPS 197 defines it (sections 5.1 to 5.3), the reference that the
    table-driven code is proved against. */
module Fips197 {
  import opened GF256
  import opened CipherState

  /** The forward and the reverse substitution table; the cipher needs only that the second
      undoes the first. */
  datatype SBox = SBox(fsb: bv8 -> bv8, rsb: bv8 -> bv8) {
    ghost predicate Inverse() { forall x :: rsb(fsb(x)) == x }
  }

  function ShiftRows(s: State): State {
    State(Word(s.w0.b0, s.w1.b1, s.w2.b2, s.w3.b3), Word(s.w1.b0, s.w2.b1, s.w3.b2, s.w0.b3),
          Word(s.w2.b0, s.w3.b1, s.w0.b2, s.w1.b3), Word(s.w3.b0, s.w0.b1, s.w1.b2, s.w2.b3))
  }

  function InvShiftRows(s: State): State {
    State(Word(s.w0.b0, s.w3.b1, s.w2.b2, s.w1.b3), Word(s.w1.b0, s.w0.b1, s.w3.b2, s.w2.b3),
          Word(s.w2.b0, s.w1.b1, s.w0.b2, s.w3.b3), Word(s.w3.b0, s.w2.b1, s.w1.b2, s.w0.b3))
  }

  function MixColumn(w: Word): Word {
    Word(MixRow(w.b0, w.b1, w.b2, w.b3), MixRow(w.b1, w.b2, w.b3, w.b0),
         MixRow(w.b2, w.b3, w.b0, w.b1), MixRow(w.b3, w.b0, w.b1, w.b2))
  }

  function InvMixColumn(w: Word): Word {
    Word(InvMixRow(w.b0, w.b1, w.b2, w.b3), InvMixRow(w.b1, w.b2, w.b3, w.b0),
         InvMixRow(w.b2, w.b3, w.b0, w.b1), InvMixRow(w.b3, w.b0, w.b1, w.b2))
  }

  function MixColumns(s: State): State { s.Columns(MixColumn) }

  function InvMixColumns(s: State): State { s.Columns(InvMixColumn) }

  /** Round key r out of an expanded key. */
  function RoundKey(rk: seq<Word>, r: nat): State
    requires 4 * r + 4 <= |rk|
  {
    State(rk[4 * r], rk[4 * r + 1], rk[4 * r + 2], rk[4 * r + 3])
  }

  /** SubBytes then ShiftRows: the part of a round that mixes no columns. */
  function SubShift(sb: SBox, s: State): State { ShiftRows(s.Map(sb.fsb)) }

  function InvSubShift(sb: SBox, s: State): State { InvShiftRows(s.Map(sb.rsb)) }

  /** The state after the initial key addition and the first r full rounds. */
  function Rounds(sb: SBox, rk: seq<Word>, r: nat, s: State): State
    requires 4 * r + 4 <= |rk|
  {
    if r == 0 then s.Xor(RoundKey(rk, 0))
    else MixColumns(SubShift(sb, Rounds(sb, rk, r - 1, s))).Xor(RoundKey(rk, r))
  }

  /** Section 5.1. */
  function Cipher(sb: SBox, rk: seq<Word>, nr: nat, s: State): State
    requires 0 < nr && 4 * nr + 4 <= |rk|
  {
    SubShift(sb, Rounds(sb, rk, nr - 1, s)).Xor(RoundKey(rk, nr))
  }

  function InvRounds(sb: SBox, dk: seq<Word>, r: nat, s: State): State
    requires 4 * r + 4 <= |dk|
  {
    if r == 0 then s.Xor(RoundKey(dk, 0))
    else InvMixColumns(InvSubShift(sb, InvRounds(sb, dk, r - 1, s))).Xor(RoundKey(dk, r))
  }

  /** The equivalent inverse cipher of section 5.3.5. */
  function EqInvCipher(sb: SBox, dk: seq<Word>, nr: nat, s: State): State
    requires 0 < nr && 4 * nr + 4 <= |dk|
  {
    InvSubShift(sb, InvRounds(sb, dk, nr - 1, s)).Xor(RoundKey(dk, nr))
  }

  /** dk is the decryption schedule for rk: round keys in reverse order, the middle ones
      passed through InvMixColumns (section 5.3.5). */
  ghost predicate IsInverseSchedule(rk: seq<Word>, dk: seq<Word>, nr: nat) {
    && 4 * nr + 4 <= |rk| && 4 * nr + 4 <= |dk|
    && RoundKey(dk, 0) == RoundKey(rk, nr)
    && RoundKey(dk, nr) == RoundKey(rk, 0)
    && forall r :: 0 < r < nr ==> RoundKey(dk, r) == InvMixColumns(RoundKey(rk, nr - r))
  }

  // ---- Key expansion, section 5.2 ----

  /** Rcon[j], the byte x^(j-1). */
  function Rcon(j: nat): bv8
    requires 1 <= j
  {
    if j == 1 then 1 else Xtime(Rcon(j - 1))
  }

  function RconWord(j: nat): Word
    requires 1 <= j
  {
    Word(Rcon(j), 0, 0, 0)
  }

  /** Word i of the key schedule for a key of nk words. */
  function KeyWord(sb: SBox, key: seq<bv8>, nk: nat, i: nat): Word
    requires nk in {4, 6, 8} && |key| == 4 * nk
  {
    if i < nk then GetWord(key, 4 * i)
    else
      var temp := KeyWord(sb, key, nk, i - 1);
      KeyWord(sb, key, nk, i - nk).Xor(
        if i % nk == 0 then temp.Rotr8().Map(sb.fsb).Xor(RconWord(i / nk))
        else if nk > 6 && i % nk == 4 then temp.Map(sb.fsb)
        else temp)
  }

  /** The expanded key: 4 * (Nr + 1) words with Nr = Nk + 6. */
  function KeyExpansion(sb: SBox, key: seq<bv8>, nk: nat): (w: seq<Word>)
    requires nk in {4, 6, 8} && |key| == 4 * nk
  {
    seq(4 * (nk + 7), i requires 0 <= i => KeyWord(sb, key, nk, i))
  }

  /** The recurrence on bytes, for the word that begins a block of nk. */
  lemma FirstWordBytes(sb: SBox, key: seq<bv8>, nk: nat, i: nat)
    requires nk in {4, 6, 8} && |key| == 4 * nk <= 4 * i && i % nk == 0
    ensures var w, b, p := KeyWord(sb, key, nk, i), KeyWord(sb, key, nk, i - nk), KeyWord(sb, key, nk, i - 1);
      && w.b0 == b.b0 ^ sb.fsb(p.b1) ^ Rcon(i / nk) && w.b1 == b.b1 ^ sb.fsb(p.b2)
      && w.b2 == b.b2 ^ sb.fsb(p.b3) && w.b3 == b.b3 ^ sb.fsb(p.b0)
  {
    hide KeyWord, Rcon, Word.Xor, Word.Map, Word.Rotr8;
    KeyWordUnfolds(sb, key, nk, i);
    BytesOfFirst(KeyWord(sb, key, nk, i - nk), KeyWord(sb, key, nk, i - 1), sb.fsb, Rcon(i / nk));
  }

  /** The same for the other words: one of a long key goes through the S-box once more. */
  lemma OtherWordBytes(sb: SBox, key: seq<bv8>, nk: nat, i: nat)
    requires nk in {4, 6, 8} && |key| == 4 * nk <= 4 * i && i % nk != 0
    ensures var w, b, p := KeyWord(sb, key, nk, i), KeyWord(sb, key, nk, i - nk), KeyWord(sb, key, nk, i - 1);
      if nk == 8 && i % 8 == 4 then
        && w.b0 == b.b0 ^ sb.fsb(p.b0) && w.b1 == b.b1 ^ sb.fsb(p.b1)
        && w.b2 == b.b2 ^ sb.fsb(p.b2) && w.b3 == b.b3 ^ sb.fsb(p.b3)
      else
        w.b0 == b.b0 ^ p.b0 && w.b1 == b.b1 ^ p.b1 && w.b2 == b.b2 ^ p.b2 && w.b3 == b.b3 ^ p.b3
  {
    hide KeyWord, Rcon, Word.Xor, Word.Map, Word.Rotr8;
    KeyWordUnfolds(sb, key, nk, i);
    BytesOfOther(KeyWord(sb, key, nk, i - nk), KeyWord(sb, key, nk, i - 1), sb.fsb);
  }

  lemma BytesOfFirst(b: Word, p: Word, f: bv8 -> bv8, c: bv8)
    ensures var w := b.Xor(p.Rotr8().Map(f).Xor(Word(c, 0, 0, 0)));
      w.b0 == b.b0 ^ f(p.b1) ^ c && w.b1 == b.b1 ^ f(p.b2) && w.b2 == b.b2 ^ f(p.b3) && w.b3 == b.b3 ^ f(p.b0)
  {
    hide Add;
    WithConstant(b.b0, f(p.b1), c);
    WithConstant(b.b1, f(p.b2), 0);
    WithConstant(b.b2, f(p.b3), 0);
    WithConstant(b.b3, f(p.b0), 0);
  }

  lemma AddIsXor(a: bv8, b: bv8)
    ensures Add(a, b) == a ^ b
  {
  }

  lemma BytesOfOther(b: Word, p: Word, f: bv8 -> bv8)
    ensures var w := b.Xor(p.Map(f));
      w.b0 == b.b0 ^ f(p.b0) && w.b1 == b.b1 ^ f(p.b1) && w.b2 == b.b2 ^ f(p.b2) && w.b3 == b.b3 ^ f(p.b3)
    ensures var w := b.Xor(p);
      w.b0 == b.b0 ^ p.b0 && w.b1 == b.b1 ^ p.b1 && w.b2 == b.b2 ^ p.b2 && w.b3 == b.b3 ^ p.b3
  {
    hide Add;
    AddIsXor(b.b0, f(p.b0));
    AddIsXor(b.b1, f(p.b1));
    AddIsXor(b.b2, f(p.b2));
    AddIsXor(b.b3, f(p.b3));
    AddIsXor(b.b0, p.b0);
    AddIsXor(b.b1, p.b1);
    AddIsXor(b.b2, p.b2);
    AddIsXor(b.b3, p.b3);
  }

  lemma KeyWordUnfolds(sb: SBox, key: seq<bv8>, nk: nat, i: nat)
    requires nk in {4, 6, 8} && |key| == 4 * nk <= 4 * i
    ensures var b, p := KeyWord(sb, key, nk, i - nk), KeyWord(sb, key, nk, i - 1);
      KeyWord(sb, key, nk, i) == b.Xor(
        if i % nk == 0 then p.Rotr8().Map(sb.fsb).Xor(RconWord(i / nk))
        else if nk > 6 && i % nk == 4 then p.Map(sb.fsb)
        else p)
  {
    hide Word.Xor, Word.Map, Word.Rotr8, RconWord;
  }

  lemma WithConstant(b: bv8, s: bv8, c: bv8)
    ensures Add(b, Add(s, c)) == b ^ s ^ c && (c == 0 ==> b ^ s ^ c == b ^ s)
  {
  }

  /** The first word that is not key material, on the bytes of the key. */
  lemma FirstNewWord(sb: SBox, key: seq<bv8>, nk: nat)
    requires nk in {4, 6, 8} && |key| == 4 * nk
    ensures var w, n := KeyExpansion(sb, key, nk)[nk], 4 * nk;
      && w.b0 == key[0] ^ sb.fsb(key[n - 3]) ^ 1 && w.b1 == key[1] ^ sb.fsb(key[n - 2])
      && w.b2 == key[2] ^ sb.fsb(key[n - 1]) && w.b3 == key[3] ^ sb.fsb(key[n - 4])
  {
    FirstRcon();
    hide KeyWord, Rcon;
    assert nk % nk == 0 && nk / nk == 1;
    FirstWordBytes(sb, key, nk, nk);
    KeyMaterial(sb, key, nk);
  }

  lemma FirstRcon()
    ensures Rcon(1) == 1
  {
  }

  lemma KeyMaterial(sb: SBox, key: seq<bv8>, nk: nat)
    requires nk in {4, 6, 8} && |key| == 4 * nk
    ensures KeyWord(sb, key, nk, 0) == Word(key[0], key[1], key[2], key[3])
    ensures var n := 4 * nk; KeyWord(sb, key, nk, nk - 1) == Word(key[n - 4], key[n - 3], key[n - 2], key[n - 1])
  {
  }

  // ---- InvMixColumns is linear and undoes MixColumns ----

  lemma InvMixColumnLinear(x: Word, y: Word)
    ensures InvMixColumn(x.Xor(y)) == InvMixColumn(x).Xor(InvMixColumn(y))
  {
    hide Add, InvMixRow;
    InvMixRowLinear(x.b0, x.b1, x.b2, x.b3, y.b0, y.b1, y.b2, y.b3);
    InvMixRowLinear(x.b1, x.b2, x.b3, x.b0, y.b1, y.b2, y.b3, y.b0);
    InvMixRowLinear(x.b2, x.b3, x.b0, x.b1, y.b2, y.b3, y.b0, y.b1);
    InvMixRowLinear(x.b3, x.b0, x.b1, x.b2, y.b3, y.b0, y.b1, y.b2);
  }

  lemma InvMixColumnUndoesMixColumn(w: Word)
    ensures InvMixColumn(MixColumn(w)) == w
  {
    hide MixRow, InvMixRow;
    InvMixRowUndoesMixRow(w.b0, w.b1, w.b2, w.b3);
    InvMixRowUndoesMixRow(w.b1, w.b2, w.b3, w.b0);
    InvMixRowUndoesMixRow(w.b2, w.b3, w.b0, w.b1);
    InvMixRowUndoesMixRow(w.b3, w.b0, w.b1, w.b2);
  }

  lemma InvMixColumnsLinear(x: State, y: State)
    ensures InvMixColumns(x.Xor(y)) == InvMixColumns(x).Xor(InvMixColumns(y))
  {
    hide InvMixColumn;
    InvMixColumnLinear(x.w0, y.w0);
    InvMixColumnLinear(x.w1, y.w1);
    InvMixColumnLinear(x.w2, y.w2);
    InvMixColumnLinear(x.w3, y.w3);
  }

  lemma InvMixColumnsUndoesMixColumns(s: State)
    ensures InvMixColumns(MixColumns(s)) == s
  {
    hide MixColumn, InvMixColumn;
    InvMixColumnUndoesMixColumn(s.w0);
    InvMixColumnUndoesMixColumn(s.w1);
    InvMixColumnUndoesMixColumn(s.w2);
    InvMixColumnUndoesMixColumn(s.w3);
  }

  lemma InvSubShiftUndoesSubShift(sb: SBox, s: State)
    requires sb.Inverse()
    ensures InvSubShift(sb, SubShift(sb, s)) == s
  {
  }

  /** One round of the equivalent inverse cipher, with a round key already passed through
      InvMixColumns, undoes one round of the cipher. */
  lemma RoundUndone(sb: SBox, s: State, k: State)
    requires sb.Inverse()
    ensures var t := MixColumns(SubShift(sb, s)).Xor(k);
            InvMixColumns(InvSubShift(sb, SubShift(sb, t))).Xor(InvMixColumns(k)) == SubShift(sb, s)
  {
    hide MixColumns, InvMixColumns, SubShift, InvSubShift;
    var m := MixColumns(SubShift(sb, s));
    InvSubShiftUndoesSubShift(sb, m.Xor(k));
    InvMixColumnsLinear(m, k);
    InvMixColumnsUndoesMixColumns(SubShift(sb, s));
    XorCancel(SubShift(sb, s), InvMixColumns(k));
  }

  /** After r rounds of decryption the state is the one encryption had r rounds before its
      end, just after SubBytes and ShiftRows. */
  lemma {:induction false} InvRoundsTrackRounds(sb: SBox, rk: seq<Word>, dk: seq<Word>, nr: nat, r: nat, s: State)
    requires sb.Inverse() && IsInverseSchedule(rk, dk, nr) && r < nr
    ensures InvRounds(sb, dk, r, Cipher(sb, rk, nr, s)) == SubShift(sb, Rounds(sb, rk, nr - 1 - r, s))
  {
    hide MixColumns, InvMixColumns, SubShift, InvSubShift;
    if r == 0 {
      XorCancel(SubShift(sb, Rounds(sb, rk, nr - 1, s)), RoundKey(rk, nr));
    } else {
      InvRoundsTrackRounds(sb, rk, dk, nr, r - 1, s);
      RoundUndone(sb, Rounds(sb, rk, nr - 1 - r, s), RoundKey(rk, nr - r));
    }
  }

  /** Section 5.3: the equivalent inverse cipher undoes the cipher. */
  lemma EqInvCipherUndoesCipher(sb: SBox, rk: seq<Word>, dk: seq<Word>, nr: nat, s: State)
    requires 0 < nr && sb.Inverse() && IsInverseSchedule(rk, dk, nr)
    ensures EqInvCipher(sb, dk, nr, Cipher(sb, rk, nr, s)) == s
  {
    hide MixColumns, InvMixColumns, SubShift, InvSubShift;
    InvRoundsTrackRounds(sb, rk, dk, nr, nr - 1, s);
    InvSubShiftUndoesSubShift(sb, Rounds(sb, rk, 0, s));
    XorCancel(s, RoundKey(rk, 0));
  }
}
