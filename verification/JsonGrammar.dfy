/** What the JSON text means: the grammar that the parser follows, on the text that is left. */
module JsonGrammar {
  import opened Octets
  import opened Json

  /** A value and what follows it, or no value. */
  datatype Result<T> = Fail | Ok(value: T, rest: Text)

  const MAX_DEPTH: nat := 200

  function Head(t: Text): byte { if t == [] then 0 else t[0] }

  // ---- white space and comments ----

  predicate IsSpace(b: byte) { b == SPACE || b == RETURN || b == NEWLINE || b == TAB }

  function SkipSpace(t: Text): (r: Text)
    ensures |r| <= |t| && !IsSpace(Head(r))
  {
    if t != [] && IsSpace(t[0]) then SkipSpace(t[1..]) else t
  }

  /** To the end of the line, which stays. */
  function SkipLine(t: Text): (r: Text)
    ensures |r| <= |t|
  {
    if t != [] && t[0] != NEWLINE then SkipLine(t[1..]) else t
  }

  /** Past the closing tokens of a comment. */
  function SkipBlock(t: Text): (r: Result<()>)
    ensures r.Ok? ==> |r.rest| < |t|
  {
    if |t| < 2 then Fail
    else if t[0] == STAR && t[1] == SLASH then Ok((), t[2..])
    else SkipBlock(t[1..])
  }

  /** One comment; the value says whether there was one. */
  function SkipComment(t: Text): (r: Result<bool>)
    ensures r.Ok? ==> |r.rest| <= |t| && (r.value <==> |r.rest| < |t|)
  {
    if Head(t) != SLASH then Ok(false, t)
    else if Head(t[1..]) == SLASH && |t| > 1 then Ok(true, SkipLine(t[2..]))
    else if Head(t[1..]) == STAR && |t| > 1 then
      match SkipBlock(t[2..])
      case Fail => Fail
      case Ok(_, rest) => Ok(true, rest)
    else Fail
  }

  /** Everything between tokens. */
  function Garbage(t: Text, comments: bool): (r: Result<()>)
    ensures r.Ok? ==> |r.rest| <= |t|
    decreases |t|
  {
    var w := SkipSpace(t);
    if !comments then Ok((), w)
    else
      match SkipComment(w)
      case Fail => Fail
      case Ok(found, rest) => if found then Garbage(rest, comments) else Ok((), w)
  }

  /** The next token character. */
  function Token(t: Text, comments: bool): (r: Result<byte>)
    ensures r.Ok? ==> |r.rest| < |t|
  {
    match Garbage(t, comments)
    case Fail => Fail
    case Ok(_, w) => if w == [] then Fail else Ok(w[0], w[1..])
  }

  // ---- strings ----

  /** UTF-8, with nothing for the absent code point. */
  function Utf8(pt: int): Text
    requires pt < 0x20_0000
  {
    if pt < 0 then []
    else if pt < 0x80 then [pt]
    else if pt < 0x800 then [0xC0 + pt / 64, 0x80 + pt % 64]
    else if pt < 0x1_0000 then [0xE0 + pt / 4096, 0x80 + pt / 64 % 64, 0x80 + pt % 64]
    else [0xF0 + pt / 262144, 0x80 + pt / 4096 % 64, 0x80 + pt / 64 % 64, 0x80 + pt % 64]
  }

  predicate IsHex(b: byte) { 0x61 <= b <= 0x66 || 0x41 <= b <= 0x46 || 0x30 <= b <= 0x39 }

  function HexValue(b: byte): (n: nat)
    requires IsHex(b)
    ensures n < 16
  {
    if b >= 0x61 then b - 0x61 + 10 else if b >= 0x41 then b - 0x41 + 10 else b - 0x30
  }

  /** The number that four hexadecimal digits spell. */
  function CodeUnit(t: Text): (r: Result<nat>)
    ensures r.Ok? ==> r.value < 0x10000 && |r.rest| < |t|
  {
    if |t| < 4 || !(IsHex(t[0]) && IsHex(t[1]) && IsHex(t[2]) && IsHex(t[3])) then Fail
    else Ok(HexValue(t[0]) * 4096 + HexValue(t[1]) * 256 + HexValue(t[2]) * 16 + HexValue(t[3]), t[4..])
  }

  predicate IsLead(u: int) { 0xD800 <= u <= 0xDBFF }

  predicate IsTrail(u: int) { 0xDC00 <= u <= 0xDFFF }

  function Combined(lead: int, trail: int): (pt: int)
    requires IsLead(lead) && IsTrail(trail)
    ensures 0x10000 <= pt < 0x11_0000
  {
    (lead - 0xD800) * 1024 + (trail - 0xDC00) + 0x10000
  }

  /** The byte that an escape letter stands for. */
  function EscapeByte(c: byte): Result<byte> {
    if c == 0x62 then Ok(8, [])
    else if c == 0x66 then Ok(12, [])
    else if c == 0x6E then Ok(NEWLINE, [])
    else if c == 0x72 then Ok(RETURN, [])
    else if c == 0x74 then Ok(TAB, [])
    else if c == QUOTE || c == BACKSLASH || c == SLASH then Ok(c, [])
    else Fail
  }

  /**
   * The rest of a string: last is the escaped code point that is not written yet, because a trailing
   * surrogate might follow it, or -1.
   */
  function StringRest(t: Text, last: int, out: Text): (r: Result<Text>)
    requires -1 <= last < 0x10000
    ensures r.Ok? ==> |r.rest| < |t|
    decreases |t|
  {
    if t == [] then Fail
    else if t[0] == QUOTE then Ok(out + Utf8(last), t[1..])
    else if t[0] <= 0x1F then Fail
    else if t[0] != BACKSLASH then StringRest(t[1..], -1, out + Utf8(last) + [t[0]])
    else if |t| == 1 then Fail
    else if t[1] == LETTER_U then
      match CodeUnit(t[2..])
      case Fail => Fail
      case Ok(u, rest) =>
        if IsLead(last) && IsTrail(u) then StringRest(rest, -1, out + Utf8(Combined(last, u)))
        else StringRest(rest, u, out + Utf8(last))
    else
      match EscapeByte(t[1])
      case Fail => Fail
      case Ok(b, _) => StringRest(t[2..], -1, out + Utf8(last) + [b])
  }

  // ---- numbers ----

  predicate IsDigit(b: byte) { 0x30 <= b <= 0x39 }

  /** The longest run of digits at the front. */
  function DigitRun(t: Text): (n: nat)
    ensures n <= |t| && AllDigits(t[..n])
  {
    if t != [] && IsDigit(t[0]) then 1 + DigitRun(t[1..]) else 0
  }

  predicate AllDigits(t: Text) { forall i :: 0 <= i < |t| ==> IsDigit(t[i]) }

  function DigitValue(b: byte): (n: nat)
    requires IsDigit(b)
    ensures n < 10
  {
    b - 0x30
  }

  function DecimalValue(t: Text): nat
    requires AllDigits(t)
  {
    if t == [] then 0 else DecimalValue(t[..|t| - 1]) * 10 + DigitValue(t[|t| - 1])
  }

  function Power10(n: nat): (p: nat)
    ensures p >= 1
  {
    if n == 0 then 1 else 10 * Power10(n - 1)
  }

  /** mantissa * 10^exponent */
  function Scaled(mantissa: nat, exponent: int): real {
    if exponent >= 0 then (mantissa * Power10(exponent)) as real
    else mantissa as real / Power10(-exponent) as real
  }

  /** The integer part: a single zero, or digits that do not begin with one. */
  function IntegerPart(t: Text): (n: nat)
    ensures n <= |t| && AllDigits(t[..n])
  {
    var n := DigitRun(t);
    if n > 1 && t[0] == 0x30 then 0 else n
  }

  /** The digits of the fraction, which is empty when there is no point. */
  function FractionPart(t: Text): (r: Result<Text>)
    ensures r.Ok? ==> |r.rest| <= |t| && AllDigits(r.value)
  {
    if Head(t) != DOT then Ok([], t)
    else
      var n := DigitRun(t[1..]);
      if n == 0 then Fail else Ok(t[1..][..n], t[1..][n..])
  }

  /** The digits of the exponent, none when there is no exponent, behind its sign. */
  function ExponentPart(t: Text): (r: Result<int>)
    ensures r.Ok? ==> |r.rest| <= |t|
  {
    if Head(t) != 0x65 && Head(t) != 0x45 then Ok(0, t)
    else
      var sign := Head(t[1..]);
      var u := if sign == PLUS || sign == MINUS then t[2..] else t[1..];
      var n := DigitRun(u);
      if n == 0 then Fail
      else
        var e: int := DecimalValue(u[..n]);
        Ok(if sign == MINUS then 0 - e else e, u[n..])
  }

  function Signed(negative: bool, r: real): real { if negative then -r else r }

  predicate StartsDouble(b: byte) { b == DOT || b == 0x65 || b == 0x45 }

  /** The digits on both sides of the point, as one number. */
  function Mantissa(whole: nat, fraction: Text): nat
    requires AllDigits(fraction)
  {
    whole * Power10(|fraction|) + DecimalValue(fraction)
  }

  /** What follows the integer part of a double. */
  function DoubleRest(negative: bool, whole: nat, t: Text): (r: Result<Json>)
    ensures r.Ok? ==> |r.rest| <= |t|
  {
    match FractionPart(t)
    case Fail => Fail
    case Ok(fraction, x) =>
      match ExponentPart(x)
      case Fail => Fail
      case Ok(e, rest) =>
        Ok(Double(Signed(negative, Scaled(Mantissa(whole, fraction), e - |fraction|))), rest)
  }

  /** A number: short ones without fraction and exponent are integers, all others doubles. */
  function Number(t: Text): (r: Result<Json>)
    ensures r.Ok? ==> |r.rest| < |t|
  {
    var negative := Head(t) == MINUS;
    var u := if negative then t[1..] else t;
    var n := IntegerPart(u);
    if n == 0 then Fail
    else
      var whole := DecimalValue(u[..n]);
      var w := u[n..];
      if !StartsDouble(Head(w)) && |t| - |w| <= 9 then Ok(Int(if negative then 0 - whole else whole), w)
      else DoubleRest(negative, whole, w)
  }

  // ---- values ----

  function Expect(t: Text, expected: Text, v: Json): (r: Result<Json>)
    requires expected != []
    ensures r.Ok? ==> |r.rest| < |t|
  {
    if expected <= t then Ok(v, t[|expected|..]) else Fail
  }

  function Value(t: Text, depth: nat, comments: bool): (r: Result<Json>)
    ensures r.Ok? ==> |r.rest| < |t|
    decreases |t|, 2
  {
    if depth > MAX_DEPTH then Fail
    else
      match Token(t, comments)
      case Fail => Fail
      case Ok(ch, rest) =>
        if ch == MINUS || IsDigit(ch) then Number([ch] + rest)
        else if ch == 0x74 then Expect([ch] + rest, TRUE_TEXT, Bool(true))
        else if ch == 0x66 then Expect([ch] + rest, FALSE_TEXT, Bool(false))
        else if ch == 0x6E then Expect([ch] + rest, NULL_TEXT, Null)
        else if ch == QUOTE then
          match StringRest(rest, -1, [])
          case Fail => Fail
          case Ok(s, after) => Ok(Str(s), after)
        else if ch == OPEN_OBJECT then
          match Token(rest, comments)
          case Fail => Fail
          case Ok(c, after) =>
            if c == CLOSE_OBJECT then Ok(Obj([]), after) else Members([c] + after, depth, comments, [])
        else if ch == OPEN_ARRAY then
          match Token(rest, comments)
          case Fail => Fail
          case Ok(c, after) =>
            if c == CLOSE_ARRAY then Ok(Arr([]), after) else Items([c] + after, depth, comments, [])
        else Fail
  }

  /** The items of an array from one on; what came before them is given. */
  function Items(t: Text, depth: nat, comments: bool, before: seq<Json>): (r: Result<Json>)
    ensures r.Ok? ==> |r.rest| < |t|
    decreases |t|, 3
  {
    match Value(t, depth + 1, comments)
    case Fail => Fail
    case Ok(v, rest) =>
      match Token(rest, comments)
      case Fail => Fail
      case Ok(c, after) =>
        if c == CLOSE_ARRAY then Ok(Arr(before + [v]), after)
        else if c != COMMA then Fail
        else
          match Token(after, comments)
          case Fail => Fail
          case Ok(d, more) => Items([d] + more, depth, comments, before + [v])
  }

  /** The members of an object from one on, its opening quote included. */
  function Members(t: Text, depth: nat, comments: bool, before: seq<Member>): (r: Result<Json>)
    ensures r.Ok? ==> |r.rest| < |t|
    decreases |t|, 3
  {
    if Head(t) != QUOTE then Fail
    else
      match StringRest(t[1..], -1, [])
      case Fail => Fail
      case Ok(key, afterKey) =>
        match Token(afterKey, comments)
        case Fail => Fail
        case Ok(c, atValue) =>
          if c != COLON then Fail
          else
            match Value(atValue, depth + 1, comments)
            case Fail => Fail
            case Ok(v, rest) =>
              match Token(rest, comments)
              case Fail => Fail
              case Ok(e, after) =>
                if e == CLOSE_OBJECT then Ok(Obj(Put(before, key, v)), after)
                else if e != COMMA then Fail
                else
                  match Token(after, comments)
                  case Fail => Fail
                  case Ok(d, more) => Members([d] + more, depth, comments, Put(before, key, v))
  }

  /** A whole document. */
  function Document(t: Text, comments: bool): Result<Json> {
    match Value(t, 0, comments)
    case Fail => Fail
    case Ok(v, rest) =>
      match Garbage(rest, comments)
      case Fail => Fail
      case Ok(_, end) => if end == [] then Ok(v, []) else Fail
  }
}
