/** The grammar and the printed text in the characters of RFC 8259, without the names that the code gives them. */
module JsonLaws {
  import opened Octets
  import opened Json
  import opened JsonGrammar

  lemma OnePast<T>(a: T, t: seq<T>)
    ensures ([a] + t)[0] == a && ([a] + t)[1..] == t
  {
  }

  lemma TwoPast<T>(a: T, b: T, t: seq<T>)
    ensures ([a, b] + t)[0] == a && ([a, b] + t)[1] == b && ([a, b] + t)[1..] == [b] + t && ([a, b] + t)[2..] == t
  {
  }

  // ---- strings ----

  lemma EscapeReads(c: byte, b: byte, t: Text, last: int, out: Text)
    requires -1 <= last < 0x10000 && c != 0x75 && EscapeByte(c) == Ok(b, [])
    ensures StringRest([0x5C, c] + t, last, out) == StringRest(t, -1, out + Utf8(last) + [b])
  {
    hide Utf8;
    TwoPast(0x5C, c, t);
  }

  /** The eight escapes of one letter. */
  lemma EscapesRead(t: Text, last: int, out: Text)
    requires -1 <= last < 0x10000
    ensures StringRest([0x5C, 0x22] + t, last, out) == StringRest(t, -1, out + Utf8(last) + [0x22])
    ensures StringRest([0x5C, 0x5C] + t, last, out) == StringRest(t, -1, out + Utf8(last) + [0x5C])
    ensures StringRest([0x5C, 0x2F] + t, last, out) == StringRest(t, -1, out + Utf8(last) + [0x2F])
    ensures StringRest([0x5C, 0x62] + t, last, out) == StringRest(t, -1, out + Utf8(last) + [0x08])
    ensures StringRest([0x5C, 0x66] + t, last, out) == StringRest(t, -1, out + Utf8(last) + [0x0C])
    ensures StringRest([0x5C, 0x6E] + t, last, out) == StringRest(t, -1, out + Utf8(last) + [0x0A])
    ensures StringRest([0x5C, 0x72] + t, last, out) == StringRest(t, -1, out + Utf8(last) + [0x0D])
    ensures StringRest([0x5C, 0x74] + t, last, out) == StringRest(t, -1, out + Utf8(last) + [0x09])
  {
    hide StringRest, Utf8;
    EscapeReads(0x22, 0x22, t, last, out);
    EscapeReads(0x5C, 0x5C, t, last, out);
    EscapeReads(0x2F, 0x2F, t, last, out);
    EscapeReads(0x62, 0x08, t, last, out);
    EscapeReads(0x66, 0x0C, t, last, out);
    EscapeReads(0x6E, 0x0A, t, last, out);
    EscapeReads(0x72, 0x0D, t, last, out);
    EscapeReads(0x74, 0x09, t, last, out);
  }

  /** There are no others. */
  lemma OtherEscapesFail(c: byte, t: Text, last: int, out: Text)
    requires -1 <= last < 0x10000 && c !in {0x22, 0x5C, 0x2F, 0x62, 0x66, 0x6E, 0x72, 0x74, 0x75}
    ensures StringRest([0x5C, c] + t, last, out).Fail? && StringRest([0x5C], last, out).Fail?
  {
    hide Utf8;
    TwoPast(0x5C, c, t);
  }

  /** A quote ends the string, a control character is not allowed, any other byte stands for itself. */
  lemma BytesRead(c: byte, t: Text, last: int, out: Text)
    requires -1 <= last < 0x10000
    ensures c == 0x22 ==> StringRest([c] + t, last, out) == Ok(out + Utf8(last), t)
    ensures c < 0x20 ==> StringRest([c] + t, last, out).Fail?
    ensures c >= 0x20 && c != 0x22 && c != 0x5C ==>
      StringRest([c] + t, last, out) == StringRest(t, -1, out + Utf8(last) + [c])
    ensures StringRest([], last, out).Fail?
  {
    hide Utf8;
    OnePast(c, t);
  }

  const LOWER: Text := [0x30, 0x31, 0x32, 0x33, 0x34, 0x35, 0x36, 0x37, 0x38, 0x39, 0x61, 0x62, 0x63, 0x64, 0x65, 0x66]
  const UPPER: Text := [0x30, 0x31, 0x32, 0x33, 0x34, 0x35, 0x36, 0x37, 0x38, 0x39, 0x41, 0x42, 0x43, 0x44, 0x45, 0x46]

  /** b is the digit n, in either case. */
  predicate Spells(b: byte, n: nat) { n < 16 && (b == LOWER[n] || b == UPPER[n]) }

  lemma HexDigitsAre(b: byte)
    ensures IsHex(b) <==> b in LOWER || b in UPPER
    ensures forall n: nat :: Spells(b, n) <==> IsHex(b) && HexValue(b) == n
  {
    if IsHex(b) {
      assert Spells(b, HexValue(b));
    }
  }

  /** Four hexadecimal digits, of whatever case, are a number; anything else there is an error. */
  lemma CodeUnitReads(a: byte, b: byte, c: byte, d: byte, t: Text)
    ensures forall h: nat, i: nat, j: nat, k: nat :: Spells(a, h) && Spells(b, i) && Spells(c, j) && Spells(d, k) ==>
      CodeUnit([a, b, c, d] + t) == Ok(((h * 16 + i) * 16 + j) * 16 + k, t)
    ensures !(IsHex(a) && IsHex(b) && IsHex(c) && IsHex(d)) ==> CodeUnit([a, b, c, d] + t).Fail?
    ensures |t| < 4 ==> CodeUnit(t).Fail?
  {
    hide IsHex, HexValue, Spells;
    HexDigitsAre(a);
    HexDigitsAre(b);
    HexDigitsAre(c);
    HexDigitsAre(d);
    assert ([a, b, c, d] + t)[4..] == t;
  }

  /** A low surrogate behind a high one is joined to it; any other code unit waits for what follows it. */
  lemma UnicodeEscapeReads(four: Text, u: nat, t: Text, last: int, out: Text)
    requires |four| == 4 && u < 0x10000 && -1 <= last < 0x10000 && CodeUnit(four + t) == Ok(u, t)
    ensures 0xD800 <= last < 0xDC00 <= u < 0xE000 ==>
      StringRest([0x5C, 0x75] + (four + t), last, out) ==
      StringRest(t, -1, out + Utf8(0x10000 + (last - 0xD800) * 0x400 + (u - 0xDC00)))
    ensures !(0xD800 <= last < 0xDC00 <= u < 0xE000) ==>
      StringRest([0x5C, 0x75] + (four + t), last, out) == StringRest(t, u, out + Utf8(last))
  {
    hide Utf8, CodeUnit;
    TwoPast(0x5C, 0x75, four + t);
  }

  /** A code unit that is no escape is an error. */
  lemma BadUnicodeEscapeFails(t: Text, last: int, out: Text)
    requires -1 <= last < 0x10000 && CodeUnit(t).Fail?
    ensures StringRest([0x5C, 0x75] + t, last, out).Fail?
  {
    hide Utf8, CodeUnit;
    TwoPast(0x5C, 0x75, t);
  }

  // ---- white space and comments ----

  /** Space, carriage return, line feed and tab are skipped, and no other byte. */
  lemma SpaceIsSkipped(b: byte, t: Text, comments: bool)
    ensures b in {0x20, 0x0D, 0x0A, 0x09} ==> Garbage([b] + t, comments) == Garbage(t, comments)
    ensures b !in {0x20, 0x0D, 0x0A, 0x09} && (b != 0x2F || !comments) ==> Garbage([b] + t, comments) == Ok((), [b] + t)
  {
    OnePast(b, t);
    assert SkipSpace([b] + t) == if b in {0x20, 0x0D, 0x0A, 0x09} then SkipSpace(t) else [b] + t;
  }

  lemma {:induction false} LineSkipped(line: Text, t: Text)
    requires 0x0A !in line && (t == [] || t[0] == 0x0A)
    ensures SkipLine(line + t) == t
  {
    if line == [] {
      assert line + t == t;
    } else {
      assert (line + t)[1..] == line[1..] + t;
      LineSkipped(line[1..], t);
    }
  }

  lemma AfterComment(u: Text, t: Text)
    requires u != [] && u[0] == 0x2F && SkipComment(u) == Ok(true, t)
    ensures Garbage(u, true) == Garbage(t, true)
  {
    assert SkipSpace(u) == u;
  }

  /** Two slashes begin a comment that ends before the next line feed, or with the text. */
  lemma LineCommentIsSkipped(line: Text, t: Text)
    requires 0x0A !in line && (t == [] || t[0] == 0x0A)
    ensures Garbage([0x2F, 0x2F] + (line + t), true) == Garbage(t, true)
  {
    hide SkipLine, Garbage;
    TwoPast(0x2F, 0x2F, line + t);
    LineSkipped(line, t);
    AfterComment([0x2F, 0x2F] + (line + t), t);
  }

  predicate Closes(body: Text) { exists i :: 0 <= i < |body| - 1 && body[i] == 0x2A && body[i + 1] == 0x2F }

  lemma ClosesLater(body: Text)
    requires body != [] && !Closes(body)
    ensures !Closes(body[1..]) && !(|body| > 1 && body[0] == 0x2A && body[1] == 0x2F)
  {
    forall i | 0 <= i < |body[1..]| - 1
      ensures !(body[1..][i] == 0x2A && body[1..][i + 1] == 0x2F)
    {
      assert !(body[i + 1] == 0x2A && body[i + 2] == 0x2F);
    }
    if |body| > 1 {
      assert !(body[0] == 0x2A && body[0 + 1] == 0x2F);
    }
  }

  lemma {:induction false} BlockSkipped(body: Text, t: Text)
    requires !Closes(body)
    ensures SkipBlock(body + ([0x2A, 0x2F] + t)) == Ok((), t)
  {
    var u := body + ([0x2A, 0x2F] + t);
    if body == [] {
      assert u == [0x2A, 0x2F] + t;
      TwoPast(0x2A, 0x2F, t);
    } else {
      ClosesLater(body);
      assert u[1..] == body[1..] + ([0x2A, 0x2F] + t);
      assert u[1] == if |body| > 1 then body[1] else 0x2A;
      BlockSkipped(body[1..], t);
    }
  }

  lemma {:induction false} BlockUnclosed(body: Text)
    requires !Closes(body)
    ensures SkipBlock(body).Fail?
  {
    if body != [] {
      ClosesLater(body);
      BlockUnclosed(body[1..]);
    }
  }

  /** Slash and star begin a comment that ends with the first star and slash. */
  lemma BlockCommentIsSkipped(body: Text, t: Text)
    requires !Closes(body)
    ensures Garbage([0x2F, 0x2A] + (body + ([0x2A, 0x2F] + t)), true) == Garbage(t, true)
    ensures Garbage([0x2F, 0x2A] + body, true).Fail?
  {
    hide SkipBlock, Garbage;
    TwoPast(0x2F, 0x2A, body + ([0x2A, 0x2F] + t));
    TwoPast(0x2F, 0x2A, body);
    BlockSkipped(body, t);
    BlockUnclosed(body);
    AfterComment([0x2F, 0x2A] + (body + ([0x2A, 0x2F] + t)), t);
    CommentFails([0x2F, 0x2A] + body);
  }

  lemma CommentFails(u: Text)
    requires u != [] && u[0] == 0x2F && SkipComment(u).Fail?
    ensures Garbage(u, true).Fail?
  {
    assert SkipSpace(u) == u;
  }

  /** Nothing else may follow the slash. */
  lemma OtherCommentsFail(t: Text)
    requires t == [] || (t[0] != 0x2F && t[0] != 0x2A)
    ensures Garbage([0x2F] + t, true).Fail?
  {
    OnePast(0x2F, t);
    CommentFails([0x2F] + t);
  }

  // ---- numbers ----

  /** The number that decimal digits spell. */
  lemma DecimalsSpell(d: Text, b: byte)
    ensures IsDigit(b) <==> 0x30 <= b <= 0x39
    ensures DecimalValue([]) == 0
    ensures AllDigits(d) && IsDigit(b) ==> AllDigits(d + [b]) && DecimalValue(d + [b]) == 10 * DecimalValue(d) + (b - 0x30)
  {
    assert (d + [b])[..|d|] == d;
  }

  lemma PowersOfTen(k: nat)
    ensures Power10(0) == 1 && Power10(k + 1) == 10 * Power10(k)
  {
  }

  lemma {:induction false} RunEnds(d: Text, t: Text)
    requires AllDigits(d) && (t == [] || !IsDigit(t[0]))
    ensures DigitRun(d + t) == |d| && (d + t)[..|d|] == d && (d + t)[|d|..] == t
  {
    if d == [] {
      assert d + t == t;
    } else {
      assert (d + t)[1..] == d[1..] + t;
      RunEnds(d[1..], t);
    }
  }

  /** A number with a fraction, an exponent or both, as its text is made up. */
  datatype Decimal = Decimal(negative: bool, whole: Text, fraction: Text, letter: byte, sign: Text, exponent: Text) {
    predicate Valid() {
      && AllDigits(whole) && AllDigits(fraction) && AllDigits(exponent)
      && whole != [] && (whole[0] == 0x30 ==> |whole| == 1) && (fraction != [] || exponent != [])
      && (letter == 0x65 || letter == 0x45) && (sign == [] || sign == [0x2B] || sign == [0x2D])
    }

    function ExponentText(): Text { if exponent == [] then [] else [letter] + (sign + exponent) }

    function FractionText(): Text { if fraction == [] then [] else [0x2E] + fraction }

    function TextOf(t: Text): Text {
      (if negative then [0x2D] else []) + (whole + (FractionText() + (ExponentText() + t)))
    }

    /** The digits on both sides of the point, as one number. */
    function Digits(): nat
      requires Valid()
    {
      DecimalValue(whole) * Power10(|fraction|) + DecimalValue(fraction)
    }

    function Exponent(): int
      requires Valid()
    {
      if sign == [0x2D] then -(DecimalValue(exponent) as int) else DecimalValue(exponent)
    }
  }

  /** What may stand behind a number. */
  predicate Stops(t: Text) { t == [] || !(IsDigit(t[0]) || t[0] == 0x65 || t[0] == 0x45 || t[0] == 0x2E) }

  lemma ExponentReads(n: Decimal, t: Text)
    requires n.Valid() && Stops(t)
    ensures ExponentPart(n.ExponentText() + t) == Ok(n.Exponent(), t)
  {
    hide DecimalValue, DigitRun, AllDigits;
    if n.exponent == [] {
      NothingSpelled();
      assert [] + t == t;
    } else {
      ExponentDigits(n, t);
    }
  }

  lemma ExponentDigits(n: Decimal, t: Text)
    requires n.Valid() && Stops(t) && n.exponent != []
    ensures ExponentPart(n.ExponentText() + t) == Ok(n.Exponent(), t)
  {
    hide DecimalValue, DigitRun, AllDigits;
    var x := n.exponent;
    RunEnds(x, t);
    FirstIsDigit(x);
    ExponentPieces(n.letter, n.sign, x, t);
  }

  lemma ExponentPieces(letter: byte, sign: Text, x: Text, t: Text)
    requires (sign == [] || sign == [0x2B] || sign == [0x2D]) && x != []
    ensures var u := ([letter] + (sign + x)) + t;
      && u != [] && u[0] == letter && (if sign == [] then u[1..] else u[2..]) == x + t
      && Head(u[1..]) == if sign == [] then x[0] else sign[0]
  {
    var u := ([letter] + (sign + x)) + t;
    assert u[1..] == sign + (x + t);
    assert sign != [] ==> u[2..] == u[1..][1..] == x + t;
    assert sign == [] ==> u[1..] == x + t;
  }

  lemma FirstIsDigit(x: Text)
    requires x != [] && AllDigits(x)
    ensures IsDigit(x[0])
  {
  }

  lemma NothingSpelled()
    ensures DecimalValue([]) == 0
  {
  }

  lemma FractionReads(f: Text, t: Text)
    requires AllDigits(f) && (t == [] || (!IsDigit(t[0]) && t[0] != 0x2E))
    ensures FractionPart((if f == [] then [] else [0x2E] + f) + t) == Ok(f, t)
  {
    hide DigitRun, AllDigits;
    RunEnds(f, t);
    if f == [] {
      assert [] + t == t;
    } else {
      assert ([0x2E] + f) + t == [0x2E] + (f + t);
      OnePast(0x2E, f + t);
    }
  }

  function Times(x: real, n: nat): real { x * n as real }

  /** r is the decimal fraction m / 10^k times ten to the power e, or its negative. */
  predicate IsDecimal(r: real, negative: bool, m: nat, k: nat, e: int) {
    var a := if negative then -r else r;
    if e >= 0 then Times(a, Power10(k)) == Times(m as real, Power10(e))
    else Times(Times(a, Power10(k)), Power10(-e)) == m as real
  }

  lemma {:induction false} PowersAdd(a: nat, b: nat)
    ensures Power10(a + b) == Power10(a) * Power10(b)
  {
    if a > 0 {
      PowersAdd(a - 1, b);
    }
  }

  lemma TimesTwice(x: real, p: nat, q: nat)
    ensures Times(Times(x, p), q) == Times(x, p * q)
  {
    assert (p * q) as real == p as real * q as real;
    assert x * p as real * q as real == x * (p as real * q as real);
  }

  lemma PowerTwice(x: real, a: nat, b: nat)
    ensures Times(Times(x, Power10(a)), Power10(b)) == Times(x, Power10(a + b))
  {
    PowersAdd(a, b);
    TimesTwice(x, Power10(a), Power10(b));
    hide Times;
  }

  lemma ScaledByPower(m: nat, n: nat)
    ensures Scaled(m, n) == Times(m as real, Power10(n))
    ensures Times(Scaled(m, 0 - n), Power10(n)) == m as real
  {
    var p := Power10(n);
    assert Power10(0) == 1;
    assert (m * p) as real == m as real * p as real;
    Quotient(m as real, p);
  }

  lemma Quotient(x: real, p: nat)
    requires p > 0
    ensures Times(x / p as real, p) == x
  {
  }

  lemma ScaledIsDecimal(negative: bool, m: nat, k: nat, e: int)
    ensures IsDecimal(Signed(negative, Scaled(m, e - k)), negative, m, k, e)
  {
    hide Power10, Scaled, Times;
    var x := Scaled(m, e - k);
    if e >= k {
      ScaledByPower(m, e - k);
      PowerTwice(m as real, e - k, k);
    } else if e >= 0 {
      ScaledByPower(m, k - e);
      assert 0 - (k - e) == e - k;
      PowerTwice(x, k - e, e);
    } else {
      ScaledByPower(m, k - e);
      assert 0 - (k - e) == e - k;
      PowerTwice(x, k, -e);
    }
  }

  lemma WholeReads(d: Text, w: Text)
    requires AllDigits(d) && d != [] && (d[0] == 0x30 ==> |d| == 1) && (w == [] || !IsDigit(w[0]))
    ensures IntegerPart(d + w) == |d| && (d + w)[..|d|] == d && (d + w)[|d|..] == w && Head(d + w) != 0x2D
  {
    RunEnds(d, w);
  }

  lemma StopsHere(n: Decimal, t: Text)
    requires n.Valid() && Stops(t)
    ensures var v := n.ExponentText() + t; v == [] || (!IsDigit(v[0]) && v[0] != 0x2E)
    ensures var w := n.FractionText() + (n.ExponentText() + t); w != [] && !IsDigit(w[0]) && StartsDouble(w[0])
  {
    hide AllDigits;
  }

  /**
   * A number with a fraction, an exponent or both is the decimal number that it spells: the digits before and
   * behind the point, shifted by the exponent.
   */
  lemma DoubleReads(n: Decimal, t: Text)
    requires n.Valid() && Stops(t)
    ensures var r := Number(n.TextOf(t));
      && r.Ok? && r.rest == t && r.value.Double?
      && IsDecimal(r.value.r, n.negative, n.Digits(), |n.fraction|, n.Exponent())
  {
    hide DecimalValue, AllDigits, DoubleRest, IsDecimal, Stops, IntegerPart, Decimal.ExponentText,
         Decimal.FractionText, Decimal.Digits, Decimal.Exponent;
    var w := n.FractionText() + (n.ExponentText() + t);
    BehindWhole(n, t);
    StopsHere(n, t);
    WholeReads(n.whole, w);
    SignInFront(n.negative, n.whole + w);
  }

  lemma BehindWhole(n: Decimal, t: Text)
    requires n.Valid() && Stops(t)
    ensures var r := DoubleRest(n.negative, DecimalValue(n.whole), n.FractionText() + (n.ExponentText() + t));
      && r.Ok? && r.rest == t && r.value.Double?
      && IsDecimal(r.value.r, n.negative, n.Digits(), |n.fraction|, n.Exponent())
  {
    hide DecimalValue, FractionPart, ExponentPart, AllDigits, Scaled, Power10, IsDecimal, Stops, Decimal.ExponentText;
    ExponentReads(n, t);
    StopsHere(n, t);
    FractionReads(n.fraction, n.ExponentText() + t);
    ScaledIsDecimal(n.negative, n.Digits(), |n.fraction|, n.Exponent());
  }

  lemma SignInFront(negative: bool, u: Text)
    requires Head(u) != 0x2D
    ensures var text := (if negative then [0x2D] else []) + u;
      (Head(text) == 0x2D <==> negative) && (if negative then text[1..] == u else text == u)
  {
    if !negative {
      assert [] + u == u;
    }
  }

  /** A point without digits, an exponent without digits and a needless zero in front are errors. */
  lemma BadNumbersFail(d: Text, t: Text)
    requires AllDigits(d) && d != [] && (d[0] == 0x30 ==> |d| == 1) && (t == [] || !IsDigit(t[0]))
    ensures Number(d + ([0x2E] + t)).Fail?
    ensures t == [] || (t[0] != 0x2B && t[0] != 0x2D) ==> Number(d + ([0x65] + t)).Fail? && Number(d + ([0x45] + t)).Fail?
    ensures Number([0x30] + (d + t)).Fail?
  {
    hide DecimalValue, AllDigits, Scaled, IntegerPart, DigitRun;
    WholeReads(d, [0x2E] + t);
    WholeReads(d, [0x65] + t);
    WholeReads(d, [0x45] + t);
    NoRun(t);
    OnePast(0x2E, t);
    OnePast(0x65, t);
    OnePast(0x45, t);
    LeadingZeroFails(d, t);
  }

  lemma NoRun(t: Text)
    requires t == [] || !IsDigit(t[0])
    ensures DigitRun(t) == 0
  {
  }

  lemma LeadingZeroFails(d: Text, t: Text)
    requires AllDigits(d) && d != [] && (t == [] || !IsDigit(t[0]))
    ensures IntegerPart([0x30] + (d + t)) == 0
  {
    RunEnds([0x30] + d, t);
    assert ([0x30] + d) + t == [0x30] + (d + t);
  }

  // ---- values ----

  lemma TokenIs(c: byte, t: Text, comments: bool)
    requires c !in {0x20, 0x0D, 0x0A, 0x09, 0x2F}
    ensures Token([c] + t, comments) == Ok(c, t)
  {
    hide Garbage;
    SpaceIsSkipped(c, t, comments);
    OnePast(c, t);
  }

  lemma WordReads(c: byte, word: Text, t: Text, v: Json)
    requires word != [] && word[0] == c
    ensures JsonGrammar.Expect([c] + (word[1..] + t), word, v) == Ok(v, t)
  {
    assert [c] + (word[1..] + t) == word + t;
    assert (word + t)[|word|..] == t;
  }

  /** The three words, and the containers with nothing in them. */
  lemma WordsRead(t: Text, depth: nat, comments: bool)
    requires depth <= 200
    ensures Value([0x74] + ([0x72, 0x75, 0x65] + t), depth, comments) == Ok(Bool(true), t)
    ensures Value([0x66] + ([0x61, 0x6C, 0x73, 0x65] + t), depth, comments) == Ok(Bool(false), t)
    ensures Value([0x6E] + ([0x75, 0x6C, 0x6C] + t), depth, comments) == Ok(Null, t)
    ensures Value([0x5B] + ([0x5D] + t), depth, comments) == Ok(Arr([]), t)
    ensures Value([0x7B] + ([0x7D] + t), depth, comments) == Ok(Obj([]), t)
  {
    hide Token, JsonGrammar.Expect;
    TokenIs(0x74, [0x72, 0x75, 0x65] + t, comments);
    TokenIs(0x66, [0x61, 0x6C, 0x73, 0x65] + t, comments);
    TokenIs(0x6E, [0x75, 0x6C, 0x6C] + t, comments);
    TokenIs(0x5B, [0x5D] + t, comments);
    TokenIs(0x5D, t, comments);
    TokenIs(0x7B, [0x7D] + t, comments);
    TokenIs(0x7D, t, comments);
    WordReads(0x74, [0x74, 0x72, 0x75, 0x65], t, Bool(true));
    WordReads(0x66, [0x66, 0x61, 0x6C, 0x73, 0x65], t, Bool(false));
    WordReads(0x6E, [0x6E, 0x75, 0x6C, 0x6C], t, Null);
  }

  /** Beyond 200 levels nothing is read. */
  lemma TooDeepFails(t: Text, depth: nat, comments: bool)
    requires depth > 200
    ensures Value(t, depth, comments).Fail?
  {
  }

  /** Assigning to a key leaves the other members alone and replaces the one with that key. */
  lemma {:induction false} PutUpdates(m: seq<Member>, key: Text, value: Json)
    requires Sorted(m)
    ensures forall x :: x in Put(m, key, value) <==> x == Member(key, value) || (x in m && x.key != key)
  {
    if m != [] {
      LessTotal(key, m[0].key);
      if Less(key, m[0].key) {
        forall x | x in m
          ensures x.key != key
        {
          var i :| 0 <= i < |m| && m[i] == x;
          if i > 0 {
            LessTransitive(key, m[0].key, m[i].key);
          }
          LessTotal(key, key);
        }
      } else {
        assert m == [m[0]] + m[1..];
        PutUpdates(m[1..], key, value);
        if key == m[0].key {
          forall x | x in m[1..]
            ensures x.key != key
          {
            var i :| 0 <= i < |m[1..]| && m[1..][i] == x;
            assert Less(m[0].key, m[i + 1].key);
            LessTotal(key, key);
          }
        }
      }
    }
  }

  // ---- printing ----

  /** Scalars, the brackets of containers, and what stands between items and members. */
  lemma PrintedForms(v: Json, items: seq<Json>, k: Text, members: seq<Member>)
    ensures Dump(Null) == [0x6E, 0x75, 0x6C, 0x6C]
    ensures Dump(Bool(true)) == [0x74, 0x72, 0x75, 0x65] && Dump(Bool(false)) == [0x66, 0x61, 0x6C, 0x73, 0x65]
    ensures Dump(Arr([])) == [0x5B, 0x5D] && Dump(Arr([v])) == [0x5B] + Dump(v) + [0x5D]
    ensures items != [] ==>
      [0x5B] + Dump(v) + [0x2C, 0x20] + Dump(Arr(items))[1..] == Dump(Arr([v] + items))
    ensures Dump(Obj([])) == [0x7B, 0x7D]
    ensures Dump(Obj([Member(k, v)])) == [0x7B] + (Dump(Str(k)) + [0x3A, 0x20] + Dump(v)) + [0x7D]
    ensures members != [] ==>
      [0x7B] + (Dump(Str(k)) + [0x3A, 0x20] + Dump(v)) + [0x2C, 0x20] + Dump(Obj(members))[1..] ==
      Dump(Obj([Member(k, v)] + members))
  {
    NothingInside();
    OneItem(v);
    OneMember(k, v);
    MoreItems(v, items);
    MoreMembers(k, v, members);
    hide Dump;
  }

  lemma NothingInside()
    ensures Dump(Arr([])) == [0x5B, 0x5D] && Dump(Obj([])) == [0x7B, 0x7D]
    ensures Dump(Null) == [0x6E, 0x75, 0x6C, 0x6C]
    ensures Dump(Bool(true)) == [0x74, 0x72, 0x75, 0x65] && Dump(Bool(false)) == [0x66, 0x61, 0x6C, 0x73, 0x65]
  {
  }

  lemma OneItem(v: Json)
    ensures Dump(Arr([v])) == [0x5B] + Dump(v) + [0x5D]
  {
    assert DumpItems([v]) == Dump(v);
  }

  lemma OneMember(k: Text, v: Json)
    ensures Dump(Obj([Member(k, v)])) == [0x7B] + (Dump(Str(k)) + [0x3A, 0x20] + Dump(v)) + [0x7D]
  {
    var m := [Member(k, v)];
    assert Dump(Str(k)) == Quoted(k);
    assert DumpMembers(m) == DumpMember(m[0]);
  }

  lemma MoreItems(v: Json, items: seq<Json>)
    ensures items != [] ==>
      [0x5B] + Dump(v) + [0x2C, 0x20] + Dump(Arr(items))[1..] == Dump(Arr([v] + items))
  {
    if items != [] {
      assert ([v] + items)[1..] == items;
      var d := DumpItems(items);
      assert Dump(Arr([v] + items)) == [0x5B] + (Dump(v) + [0x2C, 0x20] + d) + [0x5D];
      assert Dump(Arr(items)) == [0x5B] + d + [0x5D];
      hide Dump, DumpItems;
      assert ([0x5B] + d + [0x5D])[1..] == d + [0x5D];
      Joined([0x5B], Dump(v), d, [0x5D]);
    }
  }

  lemma MoreMembers(k: Text, v: Json, members: seq<Member>)
    ensures members != [] ==>
      [0x7B] + (Dump(Str(k)) + [0x3A, 0x20] + Dump(v)) + [0x2C, 0x20] + Dump(Obj(members))[1..] ==
      Dump(Obj([Member(k, v)] + members))
  {
    if members != [] {
      var all := [Member(k, v)] + members;
      assert all[1..] == members && all[0] == Member(k, v);
      var d, m := DumpMembers(members), Dump(Str(k)) + [0x3A, 0x20] + Dump(v);
      assert Dump(Str(k)) == Quoted(k);
      assert DumpMembers(all) == m + [0x2C, 0x20] + d;
      assert Dump(Obj(all)) == [0x7B] + (m + [0x2C, 0x20] + d) + [0x7D];
      assert Dump(Obj(members)) == [0x7B] + d + [0x7D];
      hide Dump, DumpMembers, Quoted;
      assert ([0x7B] + d + [0x7D])[1..] == d + [0x7D];
      Joined([0x7B], m, d, [0x7D]);
    }
  }

  lemma Joined(a: Text, b: Text, c: Text, d: Text)
    ensures a + b + [0x2C, 0x20] + (c + d) == a + (b + [0x2C, 0x20] + c) + d
  {
  }

  lemma QuotedIs(s: Text)
    ensures Dump(Str(s)) == [0x22] + Escaped(s) + [0x22] && Escaped([]) == []
  {
  }

  /** What is printed for the next byte of a string. */
  lemma PrintedByte(c: byte, s: Text)
    ensures c == 0x22 ==> Escaped([c] + s) == [0x5C, 0x22] + Escaped(s)
    ensures c == 0x5C ==> Escaped([c] + s) == [0x5C, 0x5C] + Escaped(s)
    ensures c == 0x08 ==> Escaped([c] + s) == [0x5C, 0x62] + Escaped(s)
    ensures c == 0x0C ==> Escaped([c] + s) == [0x5C, 0x66] + Escaped(s)
    ensures c == 0x0A ==> Escaped([c] + s) == [0x5C, 0x6E] + Escaped(s)
    ensures c == 0x0D ==> Escaped([c] + s) == [0x5C, 0x72] + Escaped(s)
    ensures c == 0x09 ==> Escaped([c] + s) == [0x5C, 0x74] + Escaped(s)
    ensures c < 0x20 && c !in {0x08, 0x09, 0x0A, 0x0C, 0x0D} ==>
      Escaped([c] + s) == [0x5C, 0x75, 0x30, 0x30, LOWER[c / 16], LOWER[c % 16]] + Escaped(s)
    ensures c >= 0x20 && c !in {0x22, 0x5C, 0xE2} ==> Escaped([c] + s) == [c] + Escaped(s)
  {
    hide Escaped;
    OnePast(c, s);
    EscapedOnce([c] + s);
    if c < 0x20 {
      LowDigit(c / 16);
      LowDigit(c % 16);
    }
  }

  lemma LowDigit(n: nat)
    requires n < 16
    ensures HexDigit(n) == LOWER[n]
  {
  }

  lemma EscapedOnce(t: Text)
    requires t != []
    ensures Escaped(t) == StepText(t) + Escaped(t[StepLength(t)..])
  {
  }

  /** The two line separators are printed as escapes of their code points; a byte that only looks like one is not. */
  lemma PrintedSeparator(s: Text)
    ensures Escaped([0xE2, 0x80, 0xA8] + s) == [0x5C, 0x75, 0x32, 0x30, 0x32, 0x38] + Escaped(s)
    ensures Escaped([0xE2, 0x80, 0xA9] + s) == [0x5C, 0x75, 0x32, 0x30, 0x32, 0x39] + Escaped(s)
    ensures !([0x80, 0xA8] <= s || [0x80, 0xA9] <= s) ==> Escaped([0xE2] + s) == [0xE2] + Escaped(s)
  {
    hide Escaped;
    OnePast(0xE2, s);
    Separator(0xA8, s);
    Separator(0xA9, s);
    EscapedOnce([0xE2] + s);
  }

  lemma Separator(c: byte, s: Text)
    requires c == 0xA8 || c == 0xA9
    ensures Escaped([0xE2, 0x80, c] + s) == [0x5C, 0x75, 0x32, 0x30, 0x32, if c == 0xA8 then 0x38 else 0x39] + Escaped(s)
  {
    hide Escaped;
    var t := [0xE2, 0x80, c] + s;
    assert t[0] == 0xE2 && t[1] == 0x80 && t[2] == c && t[3..] == s;
    EscapedOnce(t);
    FourOfSeparator();
    hide Hex4;
  }

  lemma FourOfSeparator()
    ensures Hex4(0x2028) == [0x32, 0x30, 0x32, 0x38] && Hex4(0x2029) == [0x32, 0x30, 0x32, 0x39]
  {
  }

  /** What is printable: everything but a double, an integer beyond the 32 bits of an int, or a container of such. */
  lemma PrintableValues(b: bool, s: Text, n: int, items: seq<Json>)
    ensures Printable(Null) && Printable(Bool(b)) && Printable(Str(s))
    ensures Printable(Int(n)) <==> -2147483648 <= n <= 2147483647
    ensures Printable(Arr(items)) <==> forall v :: v in items ==> Printable(v)
  {
    if forall v :: v in items ==> Printable(v) {
      assert forall i :: 0 <= i < |items| ==> items[i] in items;
    }
  }

  /** An integer is printed in decimal digits, the highest first, behind its sign. */
  lemma PrintedInt(n: nat)
    ensures n > 0 ==> Dump(Int(0 - n)) == [0x2D] + Dump(Int(n))
    ensures n < 10 ==> Dump(Int(n)) == [0x30 + n]
    ensures n >= 10 ==> Dump(Int(n)) == Dump(Int(n / 10)) + [0x30 + n % 10]
  {
  }
}
