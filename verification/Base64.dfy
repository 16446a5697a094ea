/** Base64: three bytes are four digits, and the decoder's two passes over text with line breaks. */
module Base64 {
  import opened Octets

  type Bytes = seq<byte>

  const EQUALS: byte := 0x3D
  const SPACE: byte := 0x20
  const CR: byte := 0x0D
  const LF: byte := 0x0A

  const BUFFER_TOO_SMALL: int := -0x002A
  const INVALID_CHARACTER: int := -0x002C
  const SIZE_MAX: nat := 0xFFFF_FFFF_FFFF_FFFF

  // ---- digits ----

  function EncChar(v: nat): (c: byte)
    requires v < 64
  {
    if v < 26 then 0x41 + v
    else if v < 52 then 0x61 + (v - 26)
    else if v < 62 then 0x30 + (v - 52)
    else if v == 62 then 0x2B
    else 0x2F
  }

  /** The value of a digit, or -1. */
  function DecValue(c: byte): (v: int)
    ensures -1 <= v < 64
  {
    if 0x41 <= c <= 0x5A then c - 0x41
    else if 0x61 <= c <= 0x7A then c - 0x61 + 26
    else if 0x30 <= c <= 0x39 then c - 0x30 + 52
    else if c == 0x2B then 62
    else if c == 0x2F then 63
    else -1
  }

  predicate IsDigit(c: byte) { DecValue(c) >= 0 }

  /** A character has the value v exactly when it is the digit for v; and every digit has a digit's value. */
  lemma DigitRoundTrip(v: nat)
    requires v < 64
    ensures forall c: byte :: DecValue(c) == v <==> c == EncChar(v)
    ensures DecValue(EncChar(v)) == v && IsDigit(EncChar(v)) && EncChar(v) != EQUALS
  {
  }

  // ---- encoding ----

  /** The four digits of three bytes. */
  function Quad(a: byte, b: byte, c: byte): Bytes {
    [EncChar(a / 4), EncChar(a % 4 * 16 + b / 16), EncChar(b % 16 * 4 + c / 64), EncChar(c % 64)]
  }

  /** The digits of the last one or two bytes. */
  function LastQuad(s: Bytes): Bytes
    requires 1 <= |s| <= 2
  {
    var b := if |s| == 2 then s[1] else 0;
    Quad(s[0], b, 0)[..|s| + 1] + (if |s| == 2 then [EQUALS] else [EQUALS, EQUALS])
  }

  function Encode(s: Bytes): Bytes {
    if s == [] then []
    else if |s| < 3 then LastQuad(s)
    else Quad(s[0], s[1], s[2]) + Encode(s[3..])
  }

  function EncodedLength(n: nat): nat { (n / 3 + if n % 3 != 0 then 1 else 0) * 4 }

  lemma {:induction false} EncodeLength(s: Bytes)
    ensures |Encode(s)| == EncodedLength(|s|)
  {
    if |s| >= 3 {
      EncodeLength(s[3..]);
    }
  }

  // ---- decoding ----

  type Sextet = v: int | 0 <= v < 64

  /** The three bytes of four digits. */
  function Triple(a: int, b: int, c: int, d: int): Bytes
    requires 0 <= a < 64 && 0 <= b < 64 && 0 <= c < 64 && 0 <= d < 64
  {
    [a * 4 + b / 16, b % 16 * 16 + c / 4, c % 4 * 64 + d]
  }

  /** The bytes of a run of digits; a single left-over digit says nothing. */
  function FromDigits(d: seq<Sextet>): Bytes {
    if |d| >= 4 then Triple(d[0], d[1], d[2], d[3]) + FromDigits(d[4..])
    else if |d| == 3 then Triple(d[0], d[1], d[2], 0)[..2]
    else if |d| == 2 then Triple(d[0], d[1], 0, 0)[..1]
    else []
  }

  /** The digits up to the first equals sign, line breaks and spaces left out. */
  function Significant(t: Bytes): seq<Sextet> {
    if t == [] || t[0] == EQUALS then []
    else if t[0] == CR || t[0] == LF || t[0] == SPACE || !IsDigit(t[0]) then Significant(t[1..])
    else [DecValue(t[0])] + Significant(t[1..])
  }

  datatype Scanned = Bad | Chars(chars: Bytes)

  function Behind(seen: Bytes, r: Scanned): Scanned {
    if r.Bad? then Bad else Chars(seen + r.chars)
  }

  function SkipSpaces(t: Bytes): (r: Bytes)
    ensures |r| <= |t| && (r != [] ==> r[0] != SPACE) && (|r| == |t| ==> r == t)
  {
    if t != [] && t[0] == SPACE then SkipSpaces(t[1..]) else t
  }

  /** The digits and equals signs of a text in lines: spaces only at the end of a line or of the text. */
  function Scan(t: Bytes): Scanned
    decreases |t|
  {
    var u := SkipSpaces(t);
    if u == [] then Chars([])
    else if |u| >= 2 && u[0] == CR && u[1] == LF then Scan(u[1..])
    else if u[0] == LF then Scan(u[1..])
    else if |u| < |t| then Bad
    else if u[0] == EQUALS || IsDigit(u[0]) then Behind([u[0]], Scan(u[1..]))
    else Bad
  }

  /** The number of characters before the first equals sign. */
  function DigitCount(c: Bytes): (n: nat)
    ensures n <= |c| && (n < |c| ==> c[n] == EQUALS) && forall i :: 0 <= i < n ==> c[i] != EQUALS
  {
    if c == [] || c[0] == EQUALS then 0 else 1 + DigitCount(c[1..])
  }

  /** Equals signs, at most two, stand at the end only. */
  predicate Padded(c: Bytes) {
    |c| - DigitCount(c) <= 2 && forall i :: DigitCount(c) <= i < |c| ==> c[i] == EQUALS
  }

  /** The text is base64. */
  predicate Accepted(t: Bytes) {
    var r := Scan(t);
    r.Chars? && Padded(r.chars) && DigitCount(r.chars) % 4 != 1 && |r.chars| % 4 == 0
  }

  /** What the first pass predicts for the length of the output. */
  function Predicted(t: Bytes): (n: int)
    requires Scan(t).Chars?
  {
    var c := Scan(t).chars;
    |c| / 4 * 3 - (|c| - DigitCount(c))
  }

  function Decode(t: Bytes): Bytes { FromDigits(Significant(t)) }

  lemma {:induction false} SkippedSpaces(t: Bytes)
    ensures Significant(t) == Significant(SkipSpaces(t))
  {
    if t != [] && t[0] == SPACE {
      SkippedSpaces(t[1..]);
    }
  }

  /** The second pass meets as many digits as the first one counted. */
  lemma {:induction false} SignificantCount(t: Bytes)
    requires Scan(t).Chars?
    ensures |Significant(t)| == DigitCount(Scan(t).chars)
    decreases |t|
  {
    var u := SkipSpaces(t);
    SkippedSpaces(t);
    if u != [] {
      if (|u| >= 2 && u[0] == CR && u[1] == LF) || u[0] == LF {
        SignificantCount(u[1..]);
      } else {
        SignificantCount(u[1..]);
        var c := Scan(u[1..]).chars;
        assert Scan(t).chars == [u[0]] + c && ([u[0]] + c)[1..] == c;
      }
    }
  }

  lemma {:induction false} FromDigitsLength(d: seq<Sextet>)
    ensures |FromDigits(d)| == |d| / 4 * 3 + if |d| % 4 == 3 then 2 else if |d| % 4 == 2 then 1 else 0
  {
    if |d| >= 4 {
      FromDigitsLength(d[4..]);
    }
  }

  /** For every accepted text the output has exactly the predicted length. */
  lemma PredictionIsExact(t: Bytes)
    requires Accepted(t)
    ensures |Decode(t)| == Predicted(t)
  {
    hide Scan, Significant, FromDigits;
    SignificantCount(t);
    FromDigitsLength(Significant(t));
    var c := Scan(t).chars;
    var equals := |c| - DigitCount(c);
    assert 0 <= equals <= 2;
  }

  // ---- round trip ----

  /** w is the text t with line breaks, LF or CRLF, put in at any places. */
  predicate Wraps(w: Bytes, t: Bytes)
    decreases |w|
  {
    if w == [] then t == []
    else if w[0] == LF then Wraps(w[1..], t)
    else if w[0] == CR then |w| >= 2 && w[1] == LF && Wraps(w[2..], t)
    else t != [] && w[0] == t[0] && Wraps(w[1..], t[1..])
  }

  predicate Alphabet(t: Bytes) { forall i :: 0 <= i < |t| ==> t[i] == EQUALS || IsDigit(t[i]) }

  lemma {:induction false} WrappedScans(w: Bytes, t: Bytes)
    requires Wraps(w, t) && Alphabet(t)
    ensures Scan(w) == Chars(t) && Significant(w) == Significant(t)
    decreases |w|
  {
    if w == [] {
    } else if w[0] == LF {
      WrappedScans(w[1..], t);
    } else if w[0] == CR {
      WrappedScans(w[2..], t);
      assert w[1..][1..] == w[2..];
      assert Scan(w[1..]) == Scan(w[2..]);
    } else {
      assert t == [t[0]] + t[1..];
      WrappedScans(w[1..], t[1..]);
    }
  }

  /** Digits in front of a text are its first digits. */
  lemma {:induction false} DigitsFirst(d: seq<Sextet>, q: Bytes, t: Bytes)
    requires |q| == |d| && forall i :: 0 <= i < |d| ==> q[i] == EncChar(d[i])
    ensures Significant(q + t) == d + Significant(t)
  {
    if d == [] {
      assert q + t == t && d + Significant(t) == Significant(t);
    } else {
      DigitRoundTrip(d[0]);
      DigitsFirst(d[1..], q[1..], t);
      assert (q + t)[1..] == q[1..] + t && d == [d[0]] + d[1..];
      PlainDigit(q[0]);
    }
  }

  lemma PlainDigit(c: byte)
    requires IsDigit(c)
    ensures c != CR && c != LF && c != SPACE && c != EQUALS
  {
  }

  /** The digits of three bytes give the three bytes. */
  lemma TripleOfQuad(a: byte, b: byte, c: byte)
    ensures Triple(a / 4, a % 4 * 16 + b / 16, b % 16 * 4 + c / 64, c % 64) == [a, b, c]
  {
  }

  function Sextets(a: int, b: int, c: int): (d: seq<Sextet>)
    requires 0 <= a < 256 && 0 <= b < 256 && 0 <= c < 256
    ensures |d| == 4
  {
    [a / 4, a % 4 * 16 + b / 16, b % 16 * 4 + c / 64, c % 64]
  }

  lemma QuadReads(s: Bytes, t: Bytes)
    requires |s| == 3
    ensures FromDigits(Significant(Quad(s[0], s[1], s[2]) + t)) == s + FromDigits(Significant(t))
  {
    hide EncChar, Significant, Triple;
    var d := Sextets(s[0], s[1], s[2]);
    DigitsFirst(d, Quad(s[0], s[1], s[2]), t);
    TripleOfQuad(s[0], s[1], s[2]);
    assert (d + Significant(t))[4..] == Significant(t);
  }

  lemma LastQuadReads(s: Bytes)
    requires 1 <= |s| <= 2
    ensures FromDigits(Significant(LastQuad(s))) == s
  {
    hide EncChar, Triple, DecValue;
    var b := if |s| == 2 then s[1] else 0;
    var d := Sextets(s[0], b, 0)[..|s| + 1];
    var equals := if |s| == 2 then [EQUALS] else [EQUALS, EQUALS];
    DigitsFirst(d, Quad(s[0], b, 0)[..|s| + 1], equals);
    TripleOfQuad(s[0], b, 0);
    assert Significant(equals) == [] && d + [] == d;
  }

  lemma {:induction false} EncodeReads(s: Bytes)
    ensures FromDigits(Significant(Encode(s))) == s
  {
    hide EncChar, Significant, FromDigits, Quad, LastQuad;
    if s == [] {
      NothingReads();
    } else if |s| < 3 {
      LastQuadReads(s);
    } else {
      EncodeReads(s[3..]);
      QuadReads(s[..3], Encode(s[3..]));
      assert s == s[..3] + s[3..];
    }
  }

  lemma NothingReads()
    ensures FromDigits(Significant([])) == []
  {
  }

  /** A text of digits first, then as many equals signs as given. */
  ghost predicate WellFormed(e: Bytes, equals: nat) {
    Alphabet(e) && Padded(e) && |e| % 4 == 0 && |e| - DigitCount(e) == equals
  }

  lemma LastQuadWellFormed(s: Bytes)
    requires 1 <= |s| <= 2
    ensures WellFormed(LastQuad(s), 3 - |s|)
  {
    hide EncChar, DecValue;
    var b := if |s| == 2 then s[1] else 0;
    var q := Quad(s[0], b, 0)[..|s| + 1];
    var equals := if |s| == 2 then [EQUALS] else [EQUALS, EQUALS];
    QuadIsDigits(s[0], b, 0);
    assert Padded(equals) && DigitCount(equals) == 0;
    DigitsCounted(q, equals);
    assert LastQuad(s) == q + equals;
  }

  lemma NextQuadWellFormed(q: Bytes, e: Bytes, equals: nat)
    requires |q| == 4 && WellFormed(e, equals) && forall i :: 0 <= i < 4 ==> IsDigit(q[i]) && q[i] != EQUALS
    ensures WellFormed(q + e, equals)
  {
    hide DecValue, DigitCount, Padded;
    DigitsCounted(q, e);
  }

  lemma {:induction false} EncodeIsPadded(s: Bytes)
    ensures WellFormed(Encode(s), if |s| % 3 == 0 then 0 else 3 - |s| % 3)
  {
    hide WellFormed, Quad, LastQuad;
    if |s| >= 3 {
      EncodeIsPadded(s[3..]);
      QuadIsDigits(s[0], s[1], s[2]);
      NextQuadWellFormed(Quad(s[0], s[1], s[2]), Encode(s[3..]), if |s| % 3 == 0 then 0 else 3 - |s| % 3);
    } else if s != [] {
      LastQuadWellFormed(s);
    } else {
      NothingWellFormed();
    }
  }

  lemma NothingWellFormed()
    ensures WellFormed([], 0)
  {
  }

  lemma QuadIsDigits(a: byte, b: byte, c: byte)
    ensures |Quad(a, b, c)| == 4
    ensures forall i :: 0 <= i < 4 ==> IsDigit(Quad(a, b, c)[i]) && Quad(a, b, c)[i] != EQUALS
  {
    hide EncChar, DecValue;
    forall i | 0 <= i < 4
      ensures IsDigit(Quad(a, b, c)[i]) && Quad(a, b, c)[i] != EQUALS
    {
      DigitRoundTrip(Sextets(a, b, c)[i]);
    }
  }

  lemma {:induction false} DigitsCounted(q: Bytes, t: Bytes)
    requires forall i :: 0 <= i < |q| ==> q[i] != EQUALS
    ensures DigitCount(q + t) == |q| + DigitCount(t)
    ensures Padded(t) ==> Padded(q + t)
  {
    if q == [] {
      assert q + t == t;
    } else {
      assert (q + t)[1..] == q[1..] + t;
      DigitsCounted(q[1..], t);
    }
  }

  /** An encoding, broken into lines at any places, is accepted and gives the bytes back. */
  lemma RoundTrip(s: Bytes, w: Bytes)
    requires Wraps(w, Encode(s))
    ensures Accepted(w) && Decode(w) == s && Predicted(w) == |s|
  {
    hide Scan, Significant, FromDigits, Encode, Padded, Wraps;
    EncodeIsPadded(s);
    WrappedScans(w, Encode(s));
    EncodeReads(s);
    PredictionIsExact(w);
  }

  // ---- the definition of RFC 4648, in its own characters ----

  /** Table 1 of RFC 4648. */
  function Alphabet64(): Bytes {
    [0x41, 0x42, 0x43, 0x44, 0x45, 0x46, 0x47, 0x48, 0x49, 0x4A, 0x4B, 0x4C, 0x4D, 0x4E, 0x4F, 0x50] +
    [0x51, 0x52, 0x53, 0x54, 0x55, 0x56, 0x57, 0x58, 0x59, 0x5A, 0x61, 0x62, 0x63, 0x64, 0x65, 0x66] +
    [0x67, 0x68, 0x69, 0x6A, 0x6B, 0x6C, 0x6D, 0x6E, 0x6F, 0x70, 0x71, 0x72, 0x73, 0x74, 0x75, 0x76] +
    [0x77, 0x78, 0x79, 0x7A, 0x30, 0x31, 0x32, 0x33, 0x34, 0x35, 0x36, 0x37, 0x38, 0x39, 0x2B, 0x2F]
  }

  lemma DigitIsInTable(v: nat)
    requires v < 64
    ensures |Alphabet64()| == 64 && EncChar(v) == Alphabet64()[v]
  {
  }

  /** Three bytes are four digits of the same 24 bits. */
  lemma GroupOfThree(a: byte, b: byte, c: byte, t: Bytes)
    ensures exists p, q, r, s | 0 <= p < 64 && 0 <= q < 64 && 0 <= r < 64 && 0 <= s < 64 ::
      && Encode([a, b, c] + t) == [Alphabet64()[p], Alphabet64()[q], Alphabet64()[r], Alphabet64()[s]] + Encode(t)
      && ((p * 64 + q) * 64 + r) * 64 + s == (a * 256 + b) * 256 + c
  {
    hide Encode, EncChar;
    EncodeThree(a, b, c, t);
    var p, q, r, s := a / 4, a % 4 * 16 + b / 16, b % 16 * 4 + c / 64, c % 64;
    DigitIsInTable(p);
    DigitIsInTable(q);
    DigitIsInTable(r);
    DigitIsInTable(s);
    SameBits(a, b, c);
    assert Encode([a, b, c] + t) == [Alphabet64()[p], Alphabet64()[q], Alphabet64()[r], Alphabet64()[s]] + Encode(t);
  }

  lemma EncodeThree(a: byte, b: byte, c: byte, t: Bytes)
    ensures Encode([a, b, c] + t) == Quad(a, b, c) + Encode(t)
  {
    assert ([a, b, c] + t)[3..] == t;
  }

  lemma SameBits(a: byte, b: byte, c: byte)
    ensures ((a / 4 * 64 + (a % 4 * 16 + b / 16)) * 64 + (b % 16 * 4 + c / 64)) * 64 + c % 64 == (a * 256 + b) * 256 + c
  {
  }

  lemma OneByte(a: byte)
    ensures Encode([a]) == [EncChar(a / 4), EncChar(a % 4 * 16), 0x3D, 0x3D]
  {
  }

  lemma TwoBytes(a: byte, b: byte)
    ensures Encode([a, b]) == [EncChar(a / 4), EncChar(a % 4 * 16 + b / 16), EncChar(b % 16 * 4), 0x3D]
  {
  }

  /** One or two bytes at the end: zero bits fill the last digit, and equals signs the group. */
  lemma LastGroup(a: byte, b: byte)
    ensures exists p, q | 0 <= p < 64 && 0 <= q < 64 ::
      Encode([a]) == [Alphabet64()[p], Alphabet64()[q], 0x3D, 0x3D] && p * 64 + q == a * 16
    ensures exists p, q, r | 0 <= p < 64 && 0 <= q < 64 && 0 <= r < 64 ::
      Encode([a, b]) == [Alphabet64()[p], Alphabet64()[q], Alphabet64()[r], 0x3D] && (p * 64 + q) * 64 + r == (a * 256 + b) * 4
    ensures Encode([]) == []
  {
    NothingEncoded();
    OneByte(a);
    TwoBytes(a, b);
    hide Encode, EncChar;
    var p, q, u, r := a / 4, a % 4 * 16, a % 4 * 16 + b / 16, b % 16 * 4;
    DigitIsInTable(p);
    DigitIsInTable(q);
    DigitIsInTable(u);
    DigitIsInTable(r);
    hide Alphabet64;
    assert Encode([a]) == [Alphabet64()[p], Alphabet64()[q], 0x3D, 0x3D];
    assert Encode([a, b]) == [Alphabet64()[p], Alphabet64()[u], Alphabet64()[r], 0x3D];
  }

  lemma NothingEncoded()
    ensures Encode([]) == []
  {
  }

  lemma IsDigitInTable(c: byte)
    ensures IsDigit(c) <==> c in Alphabet64()
  {
    if IsDigit(c) {
      DigitIsInTable(DecValue(c));
      DigitRoundTrip(DecValue(c));
    }
    if c in Alphabet64() {
      var v :| 0 <= v < |Alphabet64()| && Alphabet64()[v] == c;
      TableLength();
      DigitIsInTable(v);
      DigitRoundTrip(v);
    }
    hide EncChar, DecValue, Alphabet64;
  }

  lemma TableLength()
    ensures |Alphabet64()| == 64
  {
  }

  lemma NoSpaces(c: byte, t: Bytes)
    requires c != 0x20
    ensures SkipSpaces([c] + t) == [c] + t && ([c] + t)[1..] == t
  {
  }

  /** Line feeds, with or without a carriage return, and spaces in front of them are skipped. */
  lemma LineBreaksAreSkipped(t: Bytes)
    ensures Scan([0x0A] + t) == Scan(t)
    ensures Scan([0x0D] + ([0x0A] + t)) == Scan(t)
    ensures Scan([0x20] + ([0x0A] + t)) == Scan(t)
    ensures Scan([0x20]) == Chars([])
  {
    NoSpaces(0x0A, t);
    NoSpaces(0x0D, [0x0A] + t);
    assert ([0x20] + ([0x0A] + t))[1..] == [0x0A] + t;
  }

  /** The 64 digits and the equals sign count; nothing else may stand in the text, nor a space within a line. */
  lemma OnlyDigitsCount(c: byte, t: Bytes)
    requires c !in {0x20, 0x0A, 0x0D}
    ensures c in Alphabet64() || c == 0x3D ==> Scan([c] + t) == Behind([c], Scan(t))
    ensures !(c in Alphabet64() || c == 0x3D) ==> Scan([c] + t).Bad?
    ensures Scan([0x20] + ([c] + t)).Bad?
  {
    IsDigitInTable(c);
    hide DecValue, Alphabet64;
    NoSpaces(c, t);
    assert ([0x20] + ([c] + t))[1..] == [c] + t;
  }

  /** A carriage return stands in front of a line feed only. */
  lemma LoneReturnIsBad(c: byte, t: Bytes)
    requires c != 0x0A
    ensures Scan([0x0D] + ([c] + t)).Bad? && Scan([0x0D]).Bad?
  {
    hide DecValue;
    NoSpaces(0x0D, [c] + t);
    NoSpaces(0x0D, []);
    assert [0x0D] + [] == [0x0D];
    ReturnIsNoDigit();
  }

  lemma ReturnIsNoDigit()
    ensures !IsDigit(0x0D)
  {
  }
}
