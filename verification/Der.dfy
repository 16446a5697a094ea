/** DER: lengths, integers, bit strings and lists, as they are written and as they are read. */
module Der {
  import opened Octets

  type Bytes = seq<byte>

  datatype Asn1Err = OutOfData | UnexpectedTag | InvalidLength | LengthMismatch | Callback(code: int)

  /** A value and the bytes behind it. */
  datatype Result<T> = Err(e: Asn1Err) | Ok(value: T, rest: Bytes)

  const TAG_BIT_STRING: byte := 0x03
  const TAG_OCTET_STRING: byte := 0x04
  const TAG_OID: byte := 0x06
  const TAG_SEQUENCE: byte := 0x30

  // ---- numbers in base 256 ----

  function BigEndian(n: nat): (s: Bytes)
    ensures |s| >= 1
  {
    if n < 256 then [n] else BigEndian(n / 256) + [n % 256]
  }

  function Number(s: Bytes): nat {
    if s == [] then 0 else Number(s[..|s| - 1]) * 256 + s[|s| - 1]
  }

  lemma {:induction false} NumberOfBigEndian(n: nat)
    ensures Number(BigEndian(n)) == n && (BigEndian(n)[0] == 0 <==> n == 0)
    ensures n == 0 ==> |BigEndian(n)| == 1
  {
    var s := BigEndian(n);
    if n >= 256 {
      NumberOfBigEndian(n / 256);
      assert s[..|s| - 1] == BigEndian(n / 256);
    } else {
      assert s[..0] == [];
    }
  }

  function Power256(k: nat): (p: nat)
    ensures p >= 1
  {
    if k == 0 then 1 else 256 * Power256(k - 1)
  }

  lemma {:induction false} NumberBound(s: Bytes)
    ensures Number(s) < Power256(|s|)
  {
    if s != [] {
      NumberBound(s[..|s| - 1]);
    }
  }

  /** A number below 256^k has at most k digits, and one from 256^(k-1) on at least k. */
  lemma {:induction false} DigitCount(n: nat, k: nat)
    requires k >= 1
    ensures |BigEndian(n)| <= k <==> n < Power256(k)
  {
    if k == 1 {
      assert Power256(1) == 256 * Power256(0);
      if n >= 256 {
        assert |BigEndian(n)| == |BigEndian(n / 256)| + 1;
      }
    } else if n >= 256 {
      DigitCount(n / 256, k - 1);
      assert n / 256 < Power256(k - 1) <==> n < 256 * Power256(k - 1);
    } else {
      PowerGrows(k);
    }
  }

  lemma {:induction false} PowerGrows(k: nat)
    requires k >= 1
    ensures Power256(k) >= 256
  {
    if k > 1 {
      PowerGrows(k - 1);
    }
  }

  /** Leading zeros say nothing. */
  lemma {:induction false} LeadingZero(s: Bytes)
    ensures Number([0] + s) == Number(s)
  {
    if s != [] {
      LeadingZero(s[..|s| - 1]);
      assert ([0] + s)[..|s|] == [0] + s[..|s| - 1];
    } else {
      assert ([0] + s)[..0] == [];
    }
  }

  // ---- lengths ----

  const MAX_LEN: nat := 0xFFFF_FFFF

  /** The length octets: short form below 128, else the digits behind their number. */
  function LenBytes(n: nat): (s: Bytes)
    requires n <= MAX_LEN
    ensures 1 <= |s| <= 5
  {
    if n < 0x80 then [n]
    else
      assert |BigEndian(n)| <= 4 by { FourDigits(n); }
      [0x80 + |BigEndian(n)|] + BigEndian(n)
  }

  lemma FourDigits(n: nat)
    requires n <= MAX_LEN
    ensures |BigEndian(n)| <= 4
  {
    PowersOf256();
    DigitCount(n, 4);
  }

  /** The content the length speaks of must be there. */
  function Checked(len: nat, rest: Bytes): (r: Result<nat>)
    ensures r.Ok? ==> r.value <= |r.rest| && r.rest == rest
  {
    if len > |rest| then Err(OutOfData) else Ok(len, rest)
  }

  function GetLen(t: Bytes): (r: Result<nat>)
    ensures r.Ok? ==> r.value <= |r.rest| < |t|
  {
    if |t| < 1 then Err(OutOfData)
    else if t[0] < 0x80 then Checked(t[0], t[1..])
    else
      var n := t[0] - 0x80;
      if n == 0 || n > 4 then Err(InvalidLength)
      else if |t| <= n then Err(OutOfData)
      else Checked(Number(t[1..1 + n]), t[1 + n..])
  }

  /** The short form and the two shortest long forms. */
  lemma LengthForms(n: nat)
    requires n <= 0xFFFF_FFFF
    ensures n < 0x80 ==> LenBytes(n) == [n]
    ensures 0x80 <= n < 0x100 ==> LenBytes(n) == [0x81, n]
    ensures 0x100 <= n < 0x1_0000 ==> LenBytes(n) == [0x82, n / 0x100, n % 0x100]
  {
    if 0x100 <= n < 0x1_0000 {
      assert BigEndian(n / 256) == [n / 256];
      assert BigEndian(n) == [n / 0x100, n % 0x100];
    }
  }

  /** Every length up to 2^32 - 1 is read back. */
  lemma LenRoundTrip(n: nat, t: Bytes)
    requires n <= 0xFFFF_FFFF && n <= |t|
    ensures GetLen(LenBytes(n) + t) == Ok(n, t)
  {
    var s := LenBytes(n) + t;
    if n < 0x80 {
      assert s[1..] == t;
    } else {
      FourDigits(n);
      NumberOfBigEndian(n);
      var k := |BigEndian(n)|;
      assert s[1..1 + k] == BigEndian(n) && s[1 + k..] == t;
    }
  }

  /** No form that the reader accepts for the same length is shorter than the one written. */
  lemma LenIsShortest(e: Bytes, t: Bytes, n: nat)
    requires n <= MAX_LEN && GetLen(e + t) == Ok(n, t)
    ensures |LenBytes(n)| <= |e|
  {
    var s := e + t;
    if s[0] >= 0x80 {
      var k := s[0] - 0x80;
      NumberBound(s[1..1 + k]);
      DigitCount(n, k);
      assert |s[1 + k..]| == |t|;
    } else {
      assert |s[1..]| == |t|;
    }
  }

  // ---- tag, length, value ----

  function Header(tag: byte, len: nat): Bytes
    requires len <= MAX_LEN
  {
    [tag] + LenBytes(len)
  }

  function Tlv(tag: byte, content: Bytes): Bytes
    requires |content| <= MAX_LEN
  {
    Header(tag, |content|) + content
  }

  function GetTag(t: Bytes, tag: byte): (r: Result<nat>)
    ensures r.Ok? ==> r.value <= |r.rest| < |t|
  {
    if |t| < 1 then Err(OutOfData)
    else if t[0] != tag then Err(UnexpectedTag)
    else GetLen(t[1..])
  }

  /** The identifier octets of section 8 of X.690 for the types that are written here. */
  lemma TagsOnTheWire(content: Bytes)
    requires |content| <= 0xFFFF_FFFF
    ensures Tlv(TAG_BIT_STRING, content)[0] == 0x03 && Tlv(TAG_OCTET_STRING, content)[0] == 0x04
    ensures Tlv(TAG_OID, content)[0] == 0x06 && Tlv(TAG_SEQUENCE, content)[0] == 0x30
  {
  }

  lemma HeaderReads(tag: byte, len: nat, t: Bytes)
    requires len <= MAX_LEN && len <= |t|
    ensures GetTag(Header(tag, len) + t, tag) == Ok(len, t)
    ensures GetLen((Header(tag, len) + t)[1..]) == Ok(len, t) && (Header(tag, len) + t)[0] == tag
  {
    hide LenBytes, GetLen;
    assert (Header(tag, len) + t)[1..] == LenBytes(len) + t;
    LenRoundTrip(len, t);
  }

  lemma TagReads(tag: byte, content: Bytes, t: Bytes)
    requires |content| <= MAX_LEN
    ensures GetTag(Tlv(tag, content) + t, tag) == Ok(|content|, content + t)
    ensures GetLen((Tlv(tag, content) + t)[1..]) == Ok(|content|, content + t) && (Tlv(tag, content) + t)[0] == tag
  {
    HeaderReads(tag, |content|, content + t);
    assert Tlv(tag, content) + t == Header(tag, |content|) + (content + t);
  }

  // ---- integers ----

  /** What the writer puts into an integer: of a negative number the lowest byte only. */
  function IntContent(val: int): (s: Bytes)
    ensures |s| >= 1
  {
    var digits := if val < 0 then [val % 256] else BigEndian(val);
    if digits[0] >= 0x80 then [0] + digits else digits
  }

  function LeadingZeros(s: Bytes): (n: nat)
    ensures n <= |s| && (n < |s| ==> s[n] != 0)
  {
    if s != [] && s[0] == 0 then 1 + LeadingZeros(s[1..]) else 0
  }

  function GetTaggedInt(t: Bytes, tag: byte): (r: Result<nat>)
    ensures r.Ok? ==> |r.rest| < |t|
  {
    match GetTag(t, tag)
    case Err(e) => Err(e)
    case Ok(len, rest) =>
      if len == 0 then Err(InvalidLength)
      else if rest[0] >= 0x80 then Err(InvalidLength)
      else
        var digits := rest[..len][LeadingZeros(rest[..len])..];
        if |digits| > 4 then Err(InvalidLength)
        else if |digits| == 4 && digits[0] >= 0x80 then Err(InvalidLength)
        else Ok(Number(digits), rest[len..])
  }

  lemma {:induction false} StripZeros(s: Bytes)
    ensures Number(s[LeadingZeros(s)..]) == Number(s)
  {
    if s != [] && s[0] == 0 {
      StripZeros(s[1..]);
      LeadingZero(s[1..]);
      assert s == [0] + s[1..];
      assert s[LeadingZeros(s)..] == s[1..][LeadingZeros(s[1..])..];
    } else {
      assert s[0..] == s;
    }
  }

  /** The content of an integer: its number, its shortness and the zero sign bit. */
  lemma IntContentOf(val: int)
    requires -0x8000_0000 <= val <= 0x7FFF_FFFF
    ensures var c := IntContent(val);
      && Number(c) == (if val < 0 then val % 256 else val)
      && c[0] < 0x80 && |c| <= 5
      && (|c| > 1 && c[0] == 0 ==> c[1] >= 0x80)
  {
    var n := if val < 0 then val % 256 else val;
    assert IntContent(val) == IntContent(n) by { assert n < 256 ==> BigEndian(n) == [n]; }
    NumberOfBigEndian(n);
    LeadingZero(BigEndian(n));
    FourDigits(n);
  }

  lemma FourDigitsBelow(s: Bytes)
    requires |s| >= 4 && Number(s) <= 0x7FFF_FFFF && s[0] != 0
    ensures |s| == 4 && s[0] < 0x80
  {
    PowersOf256();
    FirstDigit(s);
    if |s| > 4 {
      LongIsLarge(s);
      assert false;
    }
  }

  lemma PowersOf256()
    ensures Power256(3) == 0x100_0000 && Power256(4) == 0x1_0000_0000
  {
    assert Power256(4) == 256 * Power256(3) && Power256(3) == 256 * Power256(2);
    assert Power256(2) == 256 * Power256(1) && Power256(1) == 256 * Power256(0);
  }

  lemma LongIsLarge(s: Bytes)
    requires |s| > 4 && s[0] != 0
    ensures Number(s) >= Power256(4)
  {
    FirstDigit(s);
    PowerMonotone(4, |s| - 1);
    Multiple(s[0], Power256(|s| - 1));
  }

  lemma Multiple(a: nat, p: nat)
    requires a > 0
    ensures a * p >= p
  {
    assert a * p == p + (a - 1) * p;
  }

  lemma {:induction false} PowerMonotone(a: nat, b: nat)
    requires a <= b
    ensures Power256(a) <= Power256(b)
    decreases b
  {
    if a < b {
      PowerMonotone(a, b - 1);
    }
  }

  lemma {:induction false} FirstDigit(s: Bytes)
    requires s != []
    ensures Number(s) >= s[0] * Power256(|s| - 1)
  {
    if |s| > 1 {
      FirstDigit(s[..|s| - 1]);
      var p := Power256(|s| - 2);
      assert Power256(|s| - 1) == 256 * p;
      assert s[0] * (256 * p) == (s[0] * p) * 256;
    } else {
      assert s[..0] == [];
    }
  }

  /**
   * What comes back for an integer: non-negative numbers themselves, negative ones only their lowest byte.
   * So the round trip works exactly for the numbers that are not negative.
   */
  lemma IntRoundTrip(val: int, tag: byte, t: Bytes)
    requires -0x8000_0000 <= val <= 0x7FFF_FFFF
    ensures |IntContent(val)| <= MAX_LEN
    ensures GetTaggedInt(Tlv(tag, IntContent(val)) + t, tag) == Ok(if val < 0 then val % 256 else val, t)
    ensures GetTaggedInt(Tlv(tag, IntContent(val)) + t, tag) == Ok(val, t) <==> val >= 0
  {
    hide Tlv, GetTag, IntContent, Power256;
    var c := IntContent(val);
    IntContentOf(val);
    TagReads(tag, c, t);
    assert (c + t)[..|c|] == c && (c + t)[|c|..] == t;
    var digits := c[LeadingZeros(c)..];
    StripZeros(c);
    if |digits| >= 4 {
      FourDigitsBelow(digits);
    }
  }

  // ---- bit strings ----

  /** b >> k */
  function Shr(b: byte, k: nat): (r: byte)
    ensures r <= b
  {
    if k == 0 then b else Shr(b, k - 1) / 2
  }

  /** A shift by k is a division by 2^k. */
  lemma ShrDivides(b: byte)
    ensures Shr(b, 0) == b && Shr(b, 1) == b / 2 && Shr(b, 2) == b / 4 && Shr(b, 3) == b / 8
    ensures Shr(b, 4) == b / 16 && Shr(b, 5) == b / 32 && Shr(b, 6) == b / 64 && Shr(b, 7) == b / 128
  {
    assert Shr(b, 1) == b / 2;
    assert Shr(b, 2) == b / 4;
    assert Shr(b, 3) == b / 8;
    assert Shr(b, 4) == b / 16;
    assert Shr(b, 5) == b / 32;
    assert Shr(b, 6) == b / 64;
  }

  lemma {:induction false} ShrFirst(b: byte, k: nat)
    requires k > 0
    ensures Shr(b, k) == Shr(b / 2, k - 1)
  {
    if k > 1 {
      ShrFirst(b, k - 1);
    }
  }

  /** Bits are counted from the most significant of the first byte. */
  predicate BitAt(s: Bytes, i: nat)
    requires i < 8 * |s|
  {
    Shr(s[i / 8], 7 - i % 8) % 2 == 1
  }

  /** The first bit of a byte is worth 128, the last one 1. */
  lemma BitsOfByte(b: byte)
    ensures BitAt([b], 0) == (b / 128 % 2 == 1) && BitAt([b], 1) == (b / 64 % 2 == 1)
    ensures BitAt([b], 2) == (b / 32 % 2 == 1) && BitAt([b], 3) == (b / 16 % 2 == 1)
    ensures BitAt([b], 4) == (b / 8 % 2 == 1) && BitAt([b], 5) == (b / 4 % 2 == 1)
    ensures BitAt([b], 6) == (b / 2 % 2 == 1) && BitAt([b], 7) == (b % 2 == 1)
  {
    ShrDivides(b);
    hide Shr;
  }

  function ByteLen(bits: nat): nat { (bits + 7) / 8 }

  function Unused(bits: nat): (u: nat)
    ensures u < 8
  {
    ByteLen(bits) * 8 - bits
  }

  /** The byte with its lowest bits cleared. */
  function Masked(b: byte, unused: nat): (m: byte)
    ensures m <= b
  {
    if unused == 0 then b else 2 * Masked(b / 2, unused - 1)
  }

  /** Number of unused bits, then the bytes with the unused bits zeroed. */
  function BitContent(buf: Bytes, bits: nat): Bytes
    requires ByteLen(bits) <= |buf|
  {
    var n := ByteLen(bits);
    if n == 0 then [0]
    else [Unused(bits)] + buf[..n - 1] + [Masked(buf[n - 1], Unused(bits))]
  }

  datatype BitString = BitString(unused: nat, bytes: Bytes)

  /** The value must end where the input does. */
  function GetBitString(t: Bytes): Result<BitString> {
    match GetTag(t, TAG_BIT_STRING)
    case Err(e) => Err(e)
    case Ok(len, rest) =>
      if len < 1 then Err(OutOfData)
      else if rest[0] > 7 then Err(InvalidLength)
      else if len != |rest| then Err(LengthMismatch)
      else Ok(BitString(rest[0], rest[1..]), [])
  }

  /** A bit string is read back with its length and its bits, and nothing but zeros behind them. */
  lemma BitStringRoundTrip(buf: Bytes, bits: nat)
    requires ByteLen(bits) <= |buf| && ByteLen(bits) + 1 <= MAX_LEN
    ensures |BitContent(buf, bits)| == ByteLen(bits) + 1
    ensures var r := GetBitString(Tlv(TAG_BIT_STRING, BitContent(buf, bits)));
      && r.Ok? && 8 * |r.value.bytes| - r.value.unused == bits
      && (forall i :: 0 <= i < bits ==> BitAt(r.value.bytes, i) == BitAt(buf, i))
      && (forall i :: bits <= i < 8 * |r.value.bytes| ==> !BitAt(r.value.bytes, i))
  {
    hide Tlv, GetTag, BitAt, Masked;
    var c := BitContent(buf, bits);
    TagReads(TAG_BIT_STRING, c, []);
    assert Tlv(TAG_BIT_STRING, c) + [] == Tlv(TAG_BIT_STRING, c) && c + [] == c;
    forall i: nat | i < 8 * (|c| - 1)
      ensures BitAt(c[1..], i) == (i < bits && BitAt(buf, i))
    {
      BitOfContent(buf, bits, i);
    }
  }

  lemma BitOfContent(buf: Bytes, bits: nat, i: nat)
    requires ByteLen(bits) <= |buf| && i < 8 * ByteLen(bits)
    ensures BitAt(BitContent(buf, bits)[1..], i) == (i < bits && BitAt(buf, i))
  {
    var n := ByteLen(bits);
    var bytes := BitContent(buf, bits)[1..];
    if i / 8 < n - 1 {
      assert bytes[i / 8] == buf[i / 8];
    } else {
      assert bytes[i / 8] == Masked(buf[n - 1], Unused(bits));
      MaskedBit(buf[n - 1], Unused(bits), 7 - i % 8);
    }
  }

  /** Masking clears exactly the bits below the given place. */
  lemma {:induction false} MaskedBit(b: byte, unused: nat, k: nat)
    ensures Shr(Masked(b, unused), k) % 2 == if k < unused then 0 else Shr(b, k) % 2
  {
    if unused > 0 && k > 0 {
      MaskedBit(b / 2, unused - 1, k - 1);
      ShrFirst(Masked(b, unused), k);
      ShrFirst(b, k);
    }
  }

  // ---- named bit strings ----

  /** The number of bits up to the last one set. */
  function NamedBits(buf: Bytes, bits: nat): (n: nat)
    requires bits <= 8 * |buf|
    ensures n <= bits
  {
    if bits == 0 || BitAt(buf, bits - 1) then bits else NamedBits(buf, bits - 1)
  }

  /** No set bit lies beyond it. */
  lemma {:induction false} NamedBitsCover(buf: Bytes, bits: nat)
    requires bits <= 8 * |buf|
    ensures forall i :: NamedBits(buf, bits) <= i < bits ==> !BitAt(buf, i)
  {
    if bits != 0 && !BitAt(buf, bits - 1) {
      NamedBitsCover(buf, bits - 1);
    }
  }

  /** It is the least such number: the length of the shortest prefix with every set bit in it. */
  lemma {:induction false} NamedBitsLeast(buf: Bytes, bits: nat, m: nat)
    requires m <= bits <= 8 * |buf| && forall i :: m <= i < bits ==> !BitAt(buf, i)
    ensures NamedBits(buf, bits) <= m
  {
    if m < bits {
      assert !BitAt(buf, bits - 1);
      NamedBitsLeast(buf, bits - 1, m);
    }
  }

  /** So a named bit string is read back as exactly that prefix. */
  lemma NamedBitStringRoundTrip(buf: Bytes, bits: nat)
    requires bits <= 8 * |buf| && ByteLen(bits) + 1 <= MAX_LEN
    ensures var n := NamedBits(buf, bits);
      && ByteLen(n) <= |buf| && |BitContent(buf, n)| <= MAX_LEN
      && var r := GetBitString(Tlv(TAG_BIT_STRING, BitContent(buf, n)));
      && r.Ok? && 8 * |r.value.bytes| - r.value.unused == n
      && (forall i :: 0 <= i < bits ==>
            BitAt(buf, i) == (i < 8 * |r.value.bytes| && BitAt(r.value.bytes, i)))
  {
    hide Tlv, BitContent, GetBitString, BitAt, NamedBits;
    NamedBitsCover(buf, bits);
    BitStringRoundTrip(buf, NamedBits(buf, bits));
  }

  // ---- lists ----

  datatype Entry = Entry(tag: byte, content: Bytes)

  function Entries(es: seq<Entry>): Bytes
    requires forall i :: 0 <= i < |es| ==> |es[i].content| <= MAX_LEN
  {
    if es == [] then [] else Tlv(es[0].tag, es[0].content) + Entries(es[1..])
  }

  /**
   * The entries up to the end: each tag must pass the first test, and the entry is handed to the callback if it
   * passes the second. answers says what the callback returns at each of its calls, of which k are over.
   */
  function GetEntries(t: Bytes, must: byte -> bool, may: byte -> bool, answers: nat -> int, k: nat): Result<seq<Entry>>
    decreases |t|
  {
    if t == [] then Ok([], [])
    else if !must(t[0]) then Err(UnexpectedTag)
    else
      match GetLen(t[1..])
      case Err(e) => Err(e)
      case Ok(len, rest) =>
        if !may(t[0]) then GetEntries(rest[len..], must, may, answers, k)
        else if answers(k) != 0 then Err(Callback(answers(k)))
        else Prefixed([Entry(t[0], rest[..len])], GetEntries(rest[len..], must, may, answers, k + 1))
  }

  /** A result with the entries found before it. */
  function Prefixed(es: seq<Entry>, r: Result<seq<Entry>>): Result<seq<Entry>> {
    if r.Err? then r else Ok(es + r.value, r.rest)
  }

  function GetSequenceOf(t: Bytes, must: byte -> bool, may: byte -> bool, answers: nat -> int): Result<seq<Entry>> {
    match GetTag(t, TAG_SEQUENCE)
    case Err(e) => Err(e)
    case Ok(len, rest) => if len != |rest| then Err(LengthMismatch) else GetEntries(rest, must, may, answers, 0)
  }

  lemma {:induction false} EntriesRead(es: seq<Entry>, tag: byte, answers: nat -> int, k: nat)
    requires forall i :: 0 <= i < |es| ==> es[i].tag == tag && |es[i].content| <= MAX_LEN
    ensures var r := GetEntries(Entries(es), x => x == tag, _ => true, answers, k);
      && (r.Ok? ==> r == Ok(es, []))
      && (r.Ok? <==> forall i: nat :: k <= i < k + |es| ==> answers(i) == 0)
  {
    hide Tlv, GetLen;
    if es != [] {
      var c, t := es[0].content, Entries(es[1..]);
      TagReads(tag, c, t);
      assert (c + t)[|c|..] == t && (c + t)[..|c|] == c;
      EntriesRead(es[1..], tag, answers, k + 1);
      assert es == [Entry(tag, c)] + es[1..];
      assert (forall i: nat :: k <= i < k + |es| ==> answers(i) == 0) <==>
        answers(k) == 0 && forall i: nat :: k + 1 <= i < k + 1 + |es[1..]| ==> answers(i) == 0;
    }
  }

  /**
   * A whole list is read back, the same values in the same order, if and only if the callback takes each of
   * them; otherwise it is not read at all.
   */
  lemma SequenceRoundTrip(es: seq<Entry>, tag: byte, answers: nat -> int)
    requires forall i :: 0 <= i < |es| ==> es[i].tag == tag && |es[i].content| <= MAX_LEN
    requires |Entries(es)| <= MAX_LEN
    ensures var r := GetSequenceOf(Tlv(TAG_SEQUENCE, Entries(es)), x => x == tag, _ => true, answers);
      && (r.Ok? ==> r == Ok(es, []))
      && (r.Ok? <==> forall i: nat :: i < |es| ==> answers(i) == 0)
  {
    hide Tlv, GetTag, GetEntries, Entries;
    TagReads(TAG_SEQUENCE, Entries(es), []);
    assert Tlv(TAG_SEQUENCE, Entries(es)) + [] == Tlv(TAG_SEQUENCE, Entries(es)) && Entries(es) + [] == Entries(es);
    EntriesRead(es, tag, answers, 0);
  }
}
