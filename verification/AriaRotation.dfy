/** Rotation of 128 bits, big endian, over four words of four bytes each. */
module AriaRotation {
  import opened GF256
  import opened CipherState

  /** The eight bits that begin k bits into x and go on in y. */
  function Across(x: bv8, y: bv8, k: nat): bv8
    requires k < 8
  {
    match k
    case 0 => x
    case 1 => (x << 1) | (y >> 7)
    case 2 => (x << 2) | (y >> 6)
    case 3 => (x << 3) | (y >> 5)
    case 4 => (x << 4) | (y >> 4)
    case 5 => (x << 5) | (y >> 3)
    case 6 => (x << 6) | (y >> 2)
    case 7 => (x << 7) | (y >> 1)
  }

  function ByteOf(w: Word, k: nat): bv8
    requires k < 4
  {
    if k == 0 then w.b0 else if k == 1 then w.b1 else if k == 2 then w.b2 else w.b3
  }

  /** Byte m of two words in a row. */
  function ByteOfTwo(t: Word, u: Word, m: nat): bv8
    requires m < 8
  {
    if m < 4 then ByteOf(t, m) else ByteOf(u, m - 4)
  }

  function AcrossByte(t: Word, u: Word, n1: nat, k: nat): bv8
    requires n1 < 32 && k < 4
  {
    Across(ByteOfTwo(t, u, k + n1 / 8), ByteOfTwo(t, u, k + n1 / 8 + 1), n1 % 8)
  }

  /** The four bytes that begin n1 bits into t and go on in u. */
  function AcrossWords(t: Word, u: Word, n1: nat): Word
    requires n1 < 32
  {
    Word(AcrossByte(t, u, n1, 0), AcrossByte(t, u, n1, 1), AcrossByte(t, u, n1, 2), AcrossByte(t, u, n1, 3))
  }

  function RotlWord(s: State, n: nat, j: nat): Word {
    AcrossWords(s.At((n / 32 + j) % 4), s.At((n / 32 + j + 1) % 4), n % 32)
  }

  /** Rotation to the left by n bits, written byte by byte. */
  function Rotl(s: State, n: nat): State {
    State(RotlWord(s, n, 0), RotlWord(s, n, 1), RotlWord(s, n, 2), RotlWord(s, n, 3))
  }

  /** Bit k of a byte, from the most significant. */
  predicate BitOf(b: bv8, k: nat)
    requires k < 8
  {
    match k
    case 0 => b & 0x80 != 0
    case 1 => b & 0x40 != 0
    case 2 => b & 0x20 != 0
    case 3 => b & 0x10 != 0
    case 4 => b & 0x08 != 0
    case 5 => b & 0x04 != 0
    case 6 => b & 0x02 != 0
    case 7 => b & 0x01 != 0
  }

  predicate BitOfWord(w: Word, p: nat)
    requires p < 32
  {
    BitOf(ByteOf(w, p / 8), p % 8)
  }

  /** Bit i of the state, from the most significant. */
  predicate BitAt(s: State, i: nat)
    requires i < 128
  {
    BitOfWord(s.At(i / 32), i % 32)
  }

  lemma Across1(x: bv8, y: bv8, i: nat)
    requires i < 8
    ensures BitOf((x << 1) | (y >> 7), i) == if i + 1 < 8 then BitOf(x, i + 1) else BitOf(y, i + 1 - 8)
  {
  }

  lemma Across2(x: bv8, y: bv8, i: nat)
    requires i < 8
    ensures BitOf((x << 2) | (y >> 6), i) == if i + 2 < 8 then BitOf(x, i + 2) else BitOf(y, i + 2 - 8)
  {
  }

  lemma Across3(x: bv8, y: bv8, i: nat)
    requires i < 8
    ensures BitOf((x << 3) | (y >> 5), i) == if i + 3 < 8 then BitOf(x, i + 3) else BitOf(y, i + 3 - 8)
  {
  }

  lemma Across4(x: bv8, y: bv8, i: nat)
    requires i < 8
    ensures BitOf((x << 4) | (y >> 4), i) == if i + 4 < 8 then BitOf(x, i + 4) else BitOf(y, i + 4 - 8)
  {
  }

  lemma Across5(x: bv8, y: bv8, i: nat)
    requires i < 8
    ensures BitOf((x << 5) | (y >> 3), i) == if i + 5 < 8 then BitOf(x, i + 5) else BitOf(y, i + 5 - 8)
  {
  }

  lemma Across6(x: bv8, y: bv8, i: nat)
    requires i < 8
    ensures BitOf((x << 6) | (y >> 2), i) == if i + 6 < 8 then BitOf(x, i + 6) else BitOf(y, i + 6 - 8)
  {
  }

  lemma Across7(x: bv8, y: bv8, i: nat)
    requires i < 8
    ensures BitOf((x << 7) | (y >> 1), i) == if i + 7 < 8 then BitOf(x, i + 7) else BitOf(y, i + 7 - 8)
  {
  }

  lemma AcrossBit(x: bv8, y: bv8, k: nat, i: nat)
    requires k < 8 && i < 8
    ensures BitOf(Across(x, y, k), i) == if i + k < 8 then BitOf(x, i + k) else BitOf(y, i + k - 8)
  {
    hide BitOf;
    match k
    case 0 =>
    case 1 => Across1(x, y, i);
    case 2 => Across2(x, y, i);
    case 3 => Across3(x, y, i);
    case 4 => Across4(x, y, i);
    case 5 => Across5(x, y, i);
    case 6 => Across6(x, y, i);
    case 7 => Across7(x, y, i);
  }

  lemma AcrossWordsBit(t: Word, u: Word, n1: nat, p: nat)
    requires n1 < 32 && p < 32
    ensures BitOfWord(AcrossWords(t, u, n1), p) ==
      if p + n1 < 32 then BitOfWord(t, p + n1) else BitOfWord(u, p + n1 - 32)
  {
    hide BitOf, Across, ByteOf;
    var k, q := p / 8, n1 / 8;
    assert ByteOf(AcrossWords(t, u, n1), k) == AcrossByte(t, u, n1, k) by { ByteOfAcross(t, u, n1, k); }
    AcrossBit(ByteOfTwo(t, u, k + q), ByteOfTwo(t, u, k + q + 1), n1 % 8, p % 8);
    if p % 8 + n1 % 8 < 8 {
      assert (p + n1) / 8 == k + q && (p + n1) % 8 == p % 8 + n1 % 8;
    } else {
      assert (p + n1) / 8 == k + q + 1 && (p + n1) % 8 == p % 8 + n1 % 8 - 8;
    }
  }

  lemma ByteOfAcross(t: Word, u: Word, n1: nat, k: nat)
    requires n1 < 32 && k < 4
    ensures ByteOf(AcrossWords(t, u, n1), k) == AcrossByte(t, u, n1, k)
  {
  }

  lemma WordOfRotl(s: State, n: nat, j: nat)
    requires j < 4
    ensures Rotl(s, n).At(j) == RotlWord(s, n, j)
  {
  }

  lemma Places(n: nat, i: nat)
    requires i < 128
    ensures i % 32 + n % 32 < 32 ==>
      (i + n) % 128 / 32 == (n / 32 + i / 32) % 4 && (i + n) % 128 % 32 == i % 32 + n % 32
    ensures i % 32 + n % 32 >= 32 ==>
      (i + n) % 128 / 32 == (n / 32 + i / 32 + 1) % 4 && (i + n) % 128 % 32 == i % 32 + n % 32 - 32
  {
    var a, b := n / 32 + i / 32, n % 32 + i % 32;
    assert i + n == 32 * a + b;
    if b < 32 {
      WordAndBit(a, b);
    } else {
      WordAndBit(a + 1, b - 32);
    }
  }

  lemma WordAndBit(a: nat, b: nat)
    requires b < 32
    ensures (32 * a + b) % 128 / 32 == a % 4 && (32 * a + b) % 128 % 32 == b
  {
    assert 32 * a + b == 128 * (a / 4) + (32 * (a % 4) + b);
  }

  /** Every bit moves n places to the left, around the end. */
  lemma RotlMovesBits(s: State, n: nat, i: nat)
    requires i < 128
    ensures BitAt(Rotl(s, n), i) == BitAt(s, (i + n) % 128)
  {
    hide BitOfWord, AcrossWords, State.At, Rotl;
    WordOfRotl(s, n, i / 32);
    Places(n, i);
    AcrossWordsBit(s.At((n / 32 + i / 32) % 4), s.At((n / 32 + i / 32 + 1) % 4), n % 32, i % 32);
  }

  // ---- The code ----

  /** ARIA_P3 of a word that was read as a little-endian number. */
  function Be(w: Word): bv32 {
    (w.b0 as bv32 << 24) | (w.b1 as bv32 << 16) | (w.b2 as bv32 << 8) | (w.b3 as bv32)
  }

  function FromBe(x: bv32): Word {
    Word(((x >> 24) & 0xff) as bv8, ((x >> 16) & 0xff) as bv8, ((x >> 8) & 0xff) as bv8, (x & 0xff) as bv8)
  }

  /** The shifts by which the key expansion rotates. */
  predicate Used(n: bv8) { n == 19 || n == 31 || n == 61 || n == 97 || n == 109 }

  /** One word of the rotation: shifted up, with the top of the next word shifted in. */
  function Step(t: bv32, u: bv32, n1: bv8, n2: bv8): bv32
    requires n1 < 32 && n2 < 32
  {
    (t << n1) | (u >> n2)
  }

  lemma Shifted1(t: Word, u: Word)
    ensures FromBe(Step(Be(t), Be(u), 1, 31)) == AcrossWords(t, u, 1)
  {
  }

  lemma Shifted13(t: Word, u: Word)
    ensures FromBe(Step(Be(t), Be(u), 13, 19)) == AcrossWords(t, u, 13)
  {
  }

  lemma Shifted19(t: Word, u: Word)
    ensures FromBe(Step(Be(t), Be(u), 19, 13)) == AcrossWords(t, u, 19)
  {
  }

  lemma Shifted29(t: Word, u: Word)
    ensures FromBe(Step(Be(t), Be(u), 29, 3)) == AcrossWords(t, u, 29)
  {
  }

  lemma Shifted31(t: Word, u: Word)
    ensures FromBe(Step(Be(t), Be(u), 31, 1)) == AcrossWords(t, u, 31)
  {
  }

  lemma Amount(n: bv8)
    requires Used(n)
    ensures n == 19 ==> n as nat == 19 && (n / 32) as nat == 0 && n % 32 == 19
    ensures n == 31 ==> n as nat == 31 && (n / 32) as nat == 0 && n % 32 == 31
    ensures n == 61 ==> n as nat == 61 && (n / 32) as nat == 1 && n % 32 == 29
    ensures n == 97 ==> n as nat == 97 && (n / 32) as nat == 3 && n % 32 == 1
    ensures n == 109 ==> n as nat == 109 && (n / 32) as nat == 3 && n % 32 == 13
  {
  }

  /** Word i of the rotation, as the code makes it of two neighbouring words. */
  lemma ShiftedWord(s: State, n: bv8, i: nat)
    requires Used(n) && i < 4
    ensures var j := (n / 32) as nat;
      var t, u := s.At((j + i) % 4), s.At((j + i + 1) % 4);
      0 < n % 32 && FromBe(Step(Be(t), Be(u), n % 32, 32 - n % 32)) == RotlWord(s, n as nat, i)
  {
    hide Be, FromBe, Step, AcrossWords, State.At;
    var j := (n / 32) as nat;
    var t, u := s.At((j + i) % 4), s.At((j + i + 1) % 4);
    Amount(n);
    Shifted1(t, u);
    Shifted13(t, u);
    Shifted19(t, u);
    Shifted29(t, u);
    Shifted31(t, u);
  }

  lemma FourWords(a: State, b: State, n: nat, words: seq<Word>)
    requires |words| == 4 && forall k :: 0 <= k < 4 ==> words[k] == a.At(k).Xor(RotlWord(b, n, k))
    ensures State(words[0], words[1], words[2], words[3]) == a.Xor(Rotl(b, n))
  {
    hide Word.Xor, RotlWord;
  }

  /** aria_rot128, called with five amounts, none of them a multiple of 32. */
  method Rot128(a: State, b: State, n: bv8) returns (r: State)
    requires Used(n)
    ensures r == a.Xor(Rotl(b, n as nat))
  {
    hide Be, FromBe, Step, Word.Xor, RotlWord, State.At;
    var n1 := n % 32;
    var n2 := if n1 != 0 then 32 - n1 else 0;
    ghost var first := (n / 32) as nat;
    Amount(n);
    var j := (n / 32) as nat % 4;
    var t := Be(b.At(j));
    var words: seq<Word> := [];
    for i := 0 to 4
      invariant j == (first + i) % 4 && t == Be(b.At(j)) && |words| == i
      invariant forall k :: 0 <= k < i ==> words[k] == a.At(k).Xor(RotlWord(b, n as nat, k))
    {
      ShiftedWord(b, n, i);
      j := (j + 1) % 4;
      var u := Be(b.At(j));
      t := Step(t, u, n1, n2);
      words := words + [a.At(i).Xor(FromBe(t))];
      t := u;
    }
    FourWords(a, b, n as nat, words);
    r := State(words[0], words[1], words[2], words[3]);
  }
}
