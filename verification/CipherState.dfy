/** The AES state as the cipher code sees it: four 32-bit words, each word kept as its four
    bytes in little-endian order, so that byte extraction is field selection and a rotation
    by eight bits is a permutation of fields. */
module CipherState {
  import opened GF256

  datatype Word = Word(b0: bv8, b1: bv8, b2: bv8, b3: bv8) {
    function Xor(o: Word): Word {
      Word(Add(b0, o.b0), Add(b1, o.b1), Add(b2, o.b2), Add(b3, o.b3))
    }

    /** (x << 8) | (x >> 24) */
    function Rotl8(): Word { Word(b3, b0, b1, b2) }

    /** (x >> 8) | (x << 24): the standard's RotWord. */
    function Rotr8(): Word { Word(b1, b2, b3, b0) }

    function Map(f: bv8 -> bv8): Word { Word(f(b0), f(b1), f(b2), f(b3)) }

    function Bytes(): seq<bv8> { [b0, b1, b2, b3] }
  }

  datatype State = State(w0: Word, w1: Word, w2: Word, w3: Word) {
    function Xor(o: State): State { State(w0.Xor(o.w0), w1.Xor(o.w1), w2.Xor(o.w2), w3.Xor(o.w3)) }

    function At(i: nat): Word
      requires i < 4
    {
      match i case 0 => w0 case 1 => w1 case 2 => w2 case 3 => w3
    }

    function Map(f: bv8 -> bv8): State { State(w0.Map(f), w1.Map(f), w2.Map(f), w3.Map(f)) }

    function Columns(f: Word -> Word): State { State(f(w0), f(w1), f(w2), f(w3)) }

    function Bytes(): seq<bv8> { w0.Bytes() + w1.Bytes() + w2.Bytes() + w3.Bytes() }
  }

  /** On the number that a word is to the code the two permutations are rotations by eight bits, left and right. */
  lemma RotationsOfNumber(w: Word)
    ensures var x: bv32 := (w.b0 as bv32) | (w.b1 as bv32 << 8) | (w.b2 as bv32 << 16) | (w.b3 as bv32 << 24);
      var l, r := w.Rotl8(), w.Rotr8();
      && (l.b0 as bv32) | (l.b1 as bv32 << 8) | (l.b2 as bv32 << 16) | (l.b3 as bv32 << 24) == (x << 8) | (x >> 24)
      && (r.b0 as bv32) | (r.b1 as bv32 << 8) | (r.b2 as bv32 << 16) | (r.b3 as bv32 << 24) == (x >> 8) | (x << 24)
  {
  }

  /** MBEDTLS_GET_UINT32_LE at byte offset i. */
  function GetWord(s: seq<bv8>, i: nat): Word
    requires i + 4 <= |s|
  {
    Word(s[i], s[i + 1], s[i + 2], s[i + 3])
  }

  function GetState(s: seq<bv8>): State
    requires |s| == 16
  {
    State(GetWord(s, 0), GetWord(s, 4), GetWord(s, 8), GetWord(s, 12))
  }

  lemma GetStateOfBytes(x: State)
    ensures |x.Bytes()| == 16 && GetState(x.Bytes()) == x
  {
  }

  lemma BytesOfGetState(s: seq<bv8>)
    requires |s| == 16
    ensures GetState(s).Bytes() == s
  {
  }

  lemma XorCancel(x: State, k: State)
    ensures x.Xor(k).Xor(k) == x
  {
    WordXorCancel(x.w0, k.w0);
    WordXorCancel(x.w1, k.w1);
    WordXorCancel(x.w2, k.w2);
    WordXorCancel(x.w3, k.w3);
  }

  lemma WordXorCancel(x: Word, k: Word)
    ensures x.Xor(k).Xor(k) == x
  {
    hide Add;
    Cancel(x.b0, k.b0);
    Cancel(x.b1, k.b1);
    Cancel(x.b2, k.b2);
    Cancel(x.b3, k.b3);
  }

  /** MBEDTLS_PUT_UINT32_LE for the four words. */
  method PutState(x: State, output: array<bv8>)
    requires output.Length == 16
    modifies output
    ensures output[..] == x.Bytes()
  {
    var bytes := x.Bytes();
    for i := 0 to 16
      invariant output[..i] == bytes[..i]
    {
      output[i] := bytes[i];
    }
  }
}
