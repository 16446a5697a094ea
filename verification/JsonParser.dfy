/** The recursive-descent parser over its cursor, and the printer over its output. */
module JsonParser {
  import opened Octets
  import opened Json
  import opened JsonGrammar

  /** encode_utf8: appends the bytes of a code point, or nothing for -1. */
  method EncodeUtf8(pt: int, before: Text) returns (out: Text)
    requires -1 <= pt < 0x11_0000
    ensures out == before + Utf8(pt)
  {
    out := before;
    if pt < 0 {
      return;
    }
    if pt < 0x80 {
      out := out + [pt];
    } else if pt < 0x800 {
      out := out + [pt / 64 + 0xC0];
      out := out + [pt % 64 + 0x80];
    } else if pt < 0x10000 {
      out := out + [pt / 4096 + 0xE0];
      out := out + [pt / 64 % 64 + 0x80];
      out := out + [pt % 64 + 0x80];
    } else {
      out := out + [pt / 262144 + 0xF0];
      out := out + [pt / 4096 % 64 + 0x80];
      out := out + [pt / 64 % 64 + 0x80];
      out := out + [pt % 64 + 0x80];
    }
  }

  class JsonParser {
    const str: Text
    const comments: bool
    var i: nat
    var failed: bool

    constructor (text: Text, strategy: bool)
      ensures str == text && comments == strategy && i == 0 && !failed
    {
      str := text;
      comments := strategy;
      i := 0;
      failed := false;
    }

    /** The character at the cursor, NUL at the end. */
    function Here(): (b: byte)
      requires i <= |str|
      reads this
      ensures b == Head(str[i..])
    {
      if i < |str| then str[i] else 0
    }

    method Fail()
      modifies this`failed
      ensures failed
    {
      failed := true;
    }

    method ConsumeWhitespace()
      requires i <= |str|
      modifies this`i
      ensures old(i) <= i <= |str| && str[i..] == SkipSpace(str[old(i)..])
    {
      ghost var start := i;
      while IsSpace(Here())
        invariant start <= i <= |str| && SkipSpace(str[i..]) == SkipSpace(str[start..])
        decreases |str| - i
      {
        Beyond(str, i, 1);
        i := i + 1;
      }
    }

    /** Up to the end of the line, or of the input. */
    method ConsumeLine()
      requires i <= |str|
      modifies this`i
      ensures old(i) <= i <= |str| && str[i..] == SkipLine(str[old(i)..])
    {
      ghost var start := i;
      while i < |str| && Here() != NEWLINE
        invariant start <= i <= |str| && SkipLine(str[i..]) == SkipLine(str[start..])
      {
        Beyond(str, i, 1);
        i := i + 1;
      }
    }

    /** Past the closing tokens, or failure at the end of the input. */
    method ConsumeBlock() returns (closed: bool)
      requires i <= |str|
      modifies this
      ensures old(i) <= i <= |str|
      ensures match SkipBlock(str[old(i)..])
        case Fail => failed && !closed
        case Ok(_, rest) => failed == old(failed) && closed && str[i..] == rest
    {
      ghost var start := i;
      if i + 2 > |str| {
        Fail();
        return false;
      }
      while !(str[i] == STAR && str[i + 1] == SLASH)
        invariant start <= i && i + 2 <= |str| && SkipBlock(str[i..]) == SkipBlock(str[start..])
        invariant failed == old(failed)
        decreases |str| - i
      {
        Beyond(str, i, 1);
        i := i + 1;
        if i + 2 > |str| {
          Fail();
          return false;
        }
      }
      Beyond(str, i, 2);
      i := i + 2;
      closed := true;
    }

    method ConsumeComment() returns (found: bool)
      requires i <= |str|
      modifies this
      ensures old(i) <= i <= |str|
      ensures match SkipComment(str[old(i)..])
        case Fail => failed && !found
        case Ok(f, rest) => failed == old(failed) && found == f && str[i..] == rest && (f ==> old(i) < i)
    {
      hide SkipLine, SkipBlock;
      found := false;
      ghost var t := str[i..];
      if Here() == SLASH {
        i := i + 1;
        assert t[1..] == str[i..];
        if i == |str| {
          Fail();
          return false;
        }
        if Here() == SLASH {
          i := i + 1;
          assert t[2..] == str[i..];
          ConsumeLine();
          found := true;
        } else if Here() == STAR {
          i := i + 1;
          assert t[2..] == str[i..];
          found := ConsumeBlock();
        } else {
          Fail();
          return false;
        }
      }
    }

    method ConsumeGarbage()
      requires i <= |str|
      modifies this
      ensures old(i) <= i <= |str| && (old(failed) ==> failed)
      ensures !old(failed) ==>
        match Garbage(str[old(i)..], comments)
        case Fail => failed
        case Ok(_, rest) => !failed && str[i..] == rest
    {
      hide SkipSpace, SkipComment;
      ghost var start := i;
      ConsumeWhitespace();
      if comments {
        var found := true;
        ghost var here := start;
        while found
          invariant start <= here <= i <= |str| && (old(failed) ==> failed)
          invariant !old(failed) ==> !failed && str[i..] == SkipSpace(str[here..])
          invariant !old(failed) && found ==> Garbage(str[here..], comments) == Garbage(str[start..], comments)
          invariant !old(failed) && !found ==> Garbage(str[start..], comments) == Ok((), str[i..])
          decreases |str| - i, found
        {
          SpaceOnce(str[here..]);
          found := ConsumeComment();
          if failed {
            return;
          }
          here := i;
          ConsumeWhitespace();
        }
      }
    }

    lemma SpaceOnce(t: Text)
      ensures SkipSpace(SkipSpace(t)) == SkipSpace(t)
    {
    }

    method GetNextToken() returns (ch: byte)
      requires i <= |str|
      modifies this
      ensures old(i) <= i <= |str| && (old(failed) ==> failed)
      ensures !old(failed) ==>
        match Token(str[old(i)..], comments)
        case Fail => failed && ch == 0
        case Ok(c, rest) => !failed && ch == c && str[i..] == rest && old(i) < i && str[i - 1..] == [c] + rest
    {
      hide Garbage;
      ConsumeGarbage();
      if failed {
        return 0;
      }
      if i == |str| {
        Fail();
        return 0;
      }
      ch := str[i];
      Beyond(str, i, 1);
      i := i + 1;
    }

    /** From behind the opening quote to behind the closing one. */
    method ParseString() returns (out: Text)
      requires i <= |str| && !failed
      modifies this
      ensures old(i) <= i <= |str|
      ensures match StringRest(str[old(i)..], -1, [])
        case Fail => failed
        case Ok(s, rest) => !failed && out == s && str[i..] == rest && old(i) < i
    {
      hide Utf8;
      out := [];
      var last := -1;
      ghost var start := i;
      while true
        invariant start <= i <= |str| && !failed && -1 <= last < 0x10000
        invariant StringRest(str[i..], last, out) == StringRest(str[start..], -1, [])
        decreases |str| - i
      {
        ghost var t := str[i..];
        if i == |str| {
          Fail();
          return [];
        }
        var ch := str[i];
        i := i + 1;
        assert t[1..] == str[i..];
        if ch == QUOTE {
          out := EncodeUtf8(last, out);
          return;
        }
        if ch <= 0x1F {
          Fail();
          return [];
        }
        if ch != BACKSLASH {
          out := EncodeUtf8(last, out);
          last := -1;
          out := out + [ch];
          continue;
        }
        last, out := ParseEscape(last, out, t);
        if failed {
          return [];
        }
      }
    }

    /** What follows a backslash. */
    method ParseEscape(last: int, before: Text, ghost t: Text) returns (pending: int, out: Text)
      requires 0 < i <= |str| && !failed && -1 <= last < 0x10000
      requires t == str[i - 1..] && t[0] == BACKSLASH
      modifies this
      ensures old(i) <= i <= |str| && -1 <= pending < 0x10000
      ensures failed ==> StringRest(t, last, before).Fail?
      ensures !failed ==> StringRest(str[i..], pending, out) == StringRest(t, last, before)
    {
      hide Utf8;
      pending, out := -1, before;
      assert t[1..] == str[i..];
      if i == |str| {
        Fail();
        return;
      }
      var ch := str[i];
      i := i + 1;
      assert t[2..] == str[i..];
      if ch == LETTER_U {
        var unit := ReadCodeUnit();
        if unit < 0 {
          Fail();
          return;
        }
        if IsLead(last) && IsTrail(unit) {
          out := EncodeUtf8((last - 0xD800) * 1024 + (unit - 0xDC00) + 0x10000, out);
        } else {
          out := EncodeUtf8(last, out);
          pending := unit;
        }
        assert t[2..][4..] == str[i + 4..];
        i := i + 4;
        return;
      }
      out := EncodeUtf8(last, out);
      if EscapeByte(ch).Ok? {
        out := out + [EscapeByte(ch).value];
      } else {
        Fail();
      }
    }

    /** Four hexadecimal digits at the cursor, or -1. */
    method ReadCodeUnit() returns (unit: int)
      requires i <= |str|
      ensures -1 <= unit < 0x10000
      ensures match CodeUnit(str[i..])
        case Fail => unit == -1
        case Ok(u, rest) => unit == u && i + 4 <= |str| && rest == str[i..][4..]
    {
      var esc := if i + 4 <= |str| then str[i..i + 4] else str[i..];
      if |esc| < 4 {
        return -1;
      }
      var j := 0;
      unit := 0;
      while j < 4
        invariant 0 <= j <= 4 && forall k :: 0 <= k < j ==> IsHex(esc[k])
        invariant j >= 0 && unit == Spelled(esc[..j]) && 0 <= unit
      {
        if !IsHex(esc[j]) {
          assert !IsHex(str[i..][j]);
          return -1;
        }
        assert esc[..j + 1][..j] == esc[..j];
        unit := unit * 16 + HexValue(esc[j]);
        j := j + 1;
      }
      assert esc[..4] == esc;
      SpelledFour(esc);
    }

    method ConsumeDigits()
      requires i <= |str|
      modifies this`i
      ensures old(i) <= i <= |str| && i - old(i) == DigitRun(str[old(i)..])
      ensures str[i..] == str[old(i)..][DigitRun(str[old(i)..])..]
    {
      hide AllDigits;
      ghost var start := i;
      while IsDigit(Here())
        invariant start <= i <= |str| && i - start + DigitRun(str[i..]) == DigitRun(str[start..])
        decreases |str| - i
      {
        Beyond(str, i, 1);
        i := i + 1;
      }
    }

    /** The integer part: its end is the cursor. */
    method ConsumeInteger()
      requires i <= |str| && !failed
      modifies this
      ensures old(i) <= i <= |str|
      ensures failed <==> IntegerPart(str[old(i)..]) == 0
      ensures !failed ==> i - old(i) == IntegerPart(str[old(i)..])
    {
      ghost var t := str[i..];
      if Here() == 0x30 {
        i := i + 1;
        assert t[1..] == str[i..] && DigitRun(t) == 1 + DigitRun(str[i..]);
        assert IsDigit(Here()) <==> DigitRun(str[i..]) > 0;
        if IsDigit(Here()) {
          Fail();
        }
      } else if IsDigit(Here()) {
        ConsumeDigits();
      } else {
        Fail();
      }
    }

    method ConsumeFraction() returns (fraction: Text)
      requires i <= |str| && !failed
      modifies this
      ensures old(i) <= i <= |str|
      ensures match FractionPart(str[old(i)..])
        case Fail => failed
        case Ok(f, rest) => !failed && fraction == f && str[i..] == rest
    {
      fraction := [];
      ghost var t := str[i..];
      if Here() == DOT {
        i := i + 1;
        assert t[1..] == str[i..];
        if !IsDigit(Here()) {
          assert DigitRun(str[i..]) == 0;
          Fail();
          return;
        }
        var start := i;
        ConsumeDigits();
        fraction := str[start..i];
        assert fraction == str[start..][..DigitRun(str[start..])];
      }
    }

    /** The digits of an exponent, behind its sign. */
    method ConsumeMagnitude() returns (e: nat)
      requires i <= |str| && !failed
      modifies this
      ensures old(i) <= i <= |str|
      ensures failed <==> DigitRun(str[old(i)..]) == 0
      ensures !failed ==> i - old(i) == DigitRun(str[old(i)..])
      ensures !failed ==> str[i..] == str[old(i)..][DigitRun(str[old(i)..])..]
      ensures !failed ==> e == DecimalValue(str[old(i)..][..DigitRun(str[old(i)..])])
    {
      hide DecimalValue;
      e := 0;
      if !IsDigit(Here()) {
        Fail();
        return;
      }
      var start := i;
      ConsumeDigits();
      assert str[start..i] == str[start..][..DigitRun(str[start..])];
      e := DecimalValue(str[start..i]);
    }

    method ConsumeExponent() returns (e: int)
      requires i <= |str| && !failed
      modifies this
      ensures old(i) <= i <= |str|
      ensures match ExponentPart(str[old(i)..])
        case Fail => failed
        case Ok(x, rest) => !failed && e == x && str[i..] == rest
    {
      hide DecimalValue, DigitRun;
      e := 0;
      ghost var t := str[i..];
      if Here() == 0x65 || Here() == 0x45 {
        i := i + 1;
        assert t[1..] == str[i..];
        var negative := Here() == MINUS;
        if Here() == PLUS || Here() == MINUS {
          assert t[2..] == str[i + 1..];
          i := i + 1;
        }
        e := ConsumeMagnitude();
        if negative {
          e := 0 - e;
        }
      }
    }

    /** The text from start to the cursor, handed to the C library unless it is wrong. */
    method ParseNumber() returns (v: Json)
      requires i <= |str| && !failed
      modifies this
      ensures old(i) <= i <= |str|
      ensures match Number(str[old(i)..])
        case Fail => failed
        case Ok(n, rest) => !failed && v == n && str[i..] == rest
    {
      hide DecimalValue, IntegerPart, DoubleRest;
      v := Null;
      var start := i;
      ghost var t := str[i..];
      var negative := Here() == MINUS;
      if negative {
        assert t[1..] == str[i + 1..];
        i := i + 1;
      }
      var first := i;
      ConsumeInteger();
      if failed {
        return;
      }
      assert str[first..i] == str[first..][..i - first] && str[first..][i - first..] == str[i..];
      var whole: int := DecimalValue(str[first..i]);
      if !StartsDouble(Here()) && i - start <= 9 {
        return Int(if negative then 0 - whole else whole);
      }
      v := ParseDouble(negative, whole);
    }

    /** The rest of a number that is not a short integer. */
    method ParseDouble(negative: bool, whole: nat) returns (v: Json)
      requires i <= |str| && !failed
      modifies this
      ensures old(i) <= i <= |str|
      ensures match DoubleRest(negative, whole, str[old(i)..])
        case Fail => failed
        case Ok(n, rest) => !failed && v == n && str[i..] == rest
    {
      hide Power10, DecimalValue, FractionPart, ExponentPart, Scaled;
      v := Null;
      var fraction := ConsumeFraction();
      if failed {
        return;
      }
      var e := ConsumeExponent();
      if failed {
        return;
      }
      v := Double(Signed(negative, Scaled(Mantissa(whole, fraction), e - |fraction|)));
    }

    /** The word that began with the character just read. */
    method Expect(expected: Text, res: Json) returns (v: Json)
      requires 0 < i <= |str| && !failed && expected != []
      modifies this
      ensures old(i) - 1 <= i <= |str|
      ensures match JsonGrammar.Expect(str[old(i) - 1..], expected, res)
        case Fail => failed
        case Ok(r, rest) => !failed && v == r && str[i..] == rest
    {
      i := i - 1;
      if expected <= str[i..] {
        assert str[i..][|expected|..] == str[i + |expected|..];
        i := i + |expected|;
        v := res;
      } else {
        Fail();
        v := Null;
      }
    }

    /**
     * Reads one value. Neither the steps back nor a failure let the cursor leave the input or go behind the
     * place where the value began, and the recursion ends.
     */
    method ParseJson(depth: nat) returns (v: Json)
      requires i <= |str|
      modifies this
      ensures old(i) <= i <= |str| && (old(failed) ==> failed)
      ensures !old(failed) ==>
        match Value(str[old(i)..], depth, comments)
        case Fail => failed
        case Ok(r, rest) => !failed && v == r && str[i..] == rest
      decreases |str| - i, !failed, 2
    {
      hide Token, Number, StringRest, Items, Members, JsonGrammar.Expect;
      v := Null;
      if depth > MAX_DEPTH {
        Fail();
        return;
      }
      var ch := GetNextToken();
      if failed {
        return;
      }
      if ch == MINUS || IsDigit(ch) {
        i := i - 1;
        v := ParseNumber();
      } else if ch == 0x74 {
        v := Expect(TRUE_TEXT, Bool(true));
      } else if ch == 0x66 {
        v := Expect(FALSE_TEXT, Bool(false));
      } else if ch == 0x6E {
        v := Expect(NULL_TEXT, Null);
      } else if ch == QUOTE {
        var s := ParseString();
        v := Str(s);
      } else if ch == OPEN_OBJECT {
        v := ParseObject(depth);
      } else if ch == OPEN_ARRAY {
        v := ParseArray(depth);
      } else {
        Fail();
      }
    }

    /** The result of reading on behind an opening bracket. */
    static ghost function AfterOpening(t: Text, depth: nat, comments: bool, isArray: bool): Result<Json> {
      match Token(t, comments)
      case Fail => Result<Json>.Fail
      case Ok(c, after) =>
        if isArray then
          if c == CLOSE_ARRAY then Ok(Arr([]), after) else Items([c] + after, depth, comments, [])
        else if c == CLOSE_OBJECT then Ok(Obj([]), after)
        else Members([c] + after, depth, comments, [])
    }

    method ParseArray(depth: nat) returns (v: Json)
      requires 0 < i <= |str| && !failed
      modifies this
      ensures old(i) - 1 <= i <= |str|
      ensures match AfterOpening(str[old(i)..], depth, comments, true)
        case Fail => failed
        case Ok(r, rest) => !failed && v == r && str[i..] == rest
      decreases |str| - i + 1, false, 3
    {
      hide Token, Value;
      v := Null;
      var data: seq<Json> := [];
      ghost var start := i;
      ghost var goal := AfterOpening(str[i..], depth, comments, true);
      var ch := GetNextToken();
      if !failed && ch == CLOSE_ARRAY {
        return Arr(data);
      }
      while true
        invariant start <= i <= |str|
        invariant failed ==> goal == Result<Json>.Fail
        invariant !failed ==> start < i && Items(str[i - 1..], depth, comments, data) == goal
        decreases |str| - i
      {
        ghost var here := i;
        i := i - 1;
        var item := ParseJson(depth + 1);
        data := data + [item];
        if failed {
          return;
        }
        ch := GetNextToken();
        if !failed && ch == CLOSE_ARRAY {
          return Arr(data);
        }
        if failed || ch != COMMA {
          Fail();
          return;
        }
        ch := GetNextToken();
      }
    }

    method ParseObject(depth: nat) returns (v: Json)
      requires 0 < i <= |str| && !failed
      modifies this
      ensures old(i) - 1 <= i <= |str|
      ensures match AfterOpening(str[old(i)..], depth, comments, false)
        case Fail => failed
        case Ok(r, rest) => !failed && v == r && str[i..] == rest
      decreases |str| - i + 1, false, 3
    {
      hide Token, Value, StringRest, Put;
      v := Null;
      var data: seq<Member> := [];
      ghost var start := i;
      ghost var goal := AfterOpening(str[i..], depth, comments, false);
      var ch := GetNextToken();
      if !failed && ch == CLOSE_OBJECT {
        return Obj(data);
      }
      while true
        invariant start <= i <= |str|
        invariant failed ==> goal == Result<Json>.Fail && ch == 0
        invariant !failed ==> start < i && str[i - 1] == ch
        invariant !failed ==> Members(str[i - 1..], depth, comments, data) == goal
        decreases |str| - i
      {
        if ch != QUOTE {
          Fail();
          return;
        }
        Beyond(str, i - 1, 1);
        var key := ParseString();
        if failed {
          return;
        }
        ch := GetNextToken();
        if failed || ch != COLON {
          Fail();
          return;
        }
        var value := ParseJson(depth + 1);
        data := Put(data, key, value);
        if failed {
          return;
        }
        ch := GetNextToken();
        if !failed && ch == CLOSE_OBJECT {
          return Obj(data);
        }
        if failed || ch != COMMA {
          Fail();
          return;
        }
        ch := GetNextToken();
      }
    }
  }

  /** Json::parse: one value and nothing but garbage behind it. */
  method ParseDocument(text: Text, comments: bool) returns (v: Json, ok: bool)
    ensures match Document(text, comments)
      case Fail => !ok && v == Null
      case Ok(r, _) => ok && v == r
  {
    hide Value, Garbage;
    var parser := new JsonParser(text, comments);
    assert text[0..] == text;
    v := parser.ParseJson(0);
    parser.ConsumeGarbage();
    if parser.failed {
      return Null, false;
    }
    if parser.i != |text| {
      return Null, false;
    }
    ok := true;
  }

  lemma Beyond<T>(s: seq<T>, k: nat, n: nat)
    requires k + n <= |s|
    ensures s[k..][n..] == s[k + n..]
  {
  }

  /** The number that hexadecimal digits spell. */
  function Spelled(t: Text): nat
    requires forall k :: 0 <= k < |t| ==> IsHex(t[k])
  {
    if t == [] then 0 else Spelled(t[..|t| - 1]) * 16 + HexValue(t[|t| - 1])
  }

  lemma SpelledFour(t: Text)
    requires |t| == 4 && forall k :: 0 <= k < |t| ==> IsHex(t[k])
    ensures Spelled(t) == HexValue(t[0]) * 4096 + HexValue(t[1]) * 256 + HexValue(t[2]) * 16 + HexValue(t[3])
  {
    assert t[..1][..0] == [] && Spelled(t[..1]) == HexValue(t[0]);
    assert t[..2][..1] == t[..1] && Spelled(t[..2]) == HexValue(t[0]) * 16 + HexValue(t[1]);
    assert t[..3][..2] == t[..2];
  }

  /** The printer's output grows at its end only. */
  class Printer {
    var out: Text

    constructor ()
      ensures out == []
    {
      out := [];
    }

    method DumpString(value: Text)
      modifies this
      ensures out == old(out) + Quoted(value)
    {
      hide StepText, UnicodeEscape;
      out := out + [QUOTE];
      var i := 0;
      ghost var start := out;
      while i < |value|
        invariant 0 <= i <= |value| && out + Escaped(value[i..]) == start + Escaped(value)
        decreases |value| - i
      {
        ghost var rest := value[i..];
        assert rest[StepLength(rest)..] == value[i + StepLength(rest)..];
        out := out + StepText(value[i..]);
        if StepLength(value[i..]) == 3 {
          i := i + 2;
        }
        i := i + 1;
      }
      assert value[i..] == [] && out == start + Escaped(value);
      out := out + [QUOTE];
    }

    method DumpArray(values: seq<Json>)
      modifies this
      ensures out == old(out) + Dump(Arr(values))
      decreases values, 1
    {
      hide Dump, DumpItems, ItemsFrom;
      DumpOfArray(values);
      var first := true;
      ghost var before := out;
      out := out + [OPEN_ARRAY];
      ghost var start := out;
      var i := 0;
      while i < |values|
        invariant 0 <= i <= |values| && first == (i == 0)
        invariant out + ItemsFrom(values, i) == start + DumpItems(values)
      {
        ItemNext(out, values, i);
        if !first {
          out := out + SEPARATOR;
        }
        DumpJson(values[i]);
        first := false;
        i := i + 1;
      }
      assert out + [] == out && before + [OPEN_ARRAY] == start;
      out := out + [CLOSE_ARRAY];
      Bracketed(before, [OPEN_ARRAY], DumpItems(values), [CLOSE_ARRAY]);
    }

    method DumpObject(members: seq<Member>)
      modifies this
      ensures out == old(out) + Dump(Obj(members))
      decreases members, 1
    {
      hide Dump, DumpMembers, MembersFrom;
      DumpOfObject(members);
      var first := true;
      ghost var before := out;
      out := out + [OPEN_OBJECT];
      ghost var start := out;
      var i := 0;
      while i < |members|
        invariant 0 <= i <= |members| && first == (i == 0)
        invariant out + MembersFrom(members, i) == start + DumpMembers(members)
      {
        MemberNext(out, members, i);
        if !first {
          out := out + SEPARATOR;
        }
        DumpString(members[i].key);
        out := out + [COLON, SPACE];
        DumpJson(members[i].value);
        first := false;
        i := i + 1;
      }
      assert out + [] == out && before + [OPEN_OBJECT] == start;
      out := out + [CLOSE_OBJECT];
      Bracketed(before, [OPEN_OBJECT], DumpMembers(members), [CLOSE_OBJECT]);
    }

    /** Doubles, which the C library prints, leave no text here. */
    method DumpJson(v: Json)
      modifies this
      ensures out == old(out) + Dump(v)
      decreases v, 2
    {
      match v
      case Null => out := out + NULL_TEXT;
      case Bool(b) => out := out + if b then TRUE_TEXT else FALSE_TEXT;
      case Int(n) => out := out + IntText(n);
      case Double(_) =>
      case Str(s) => DumpString(s);
      case Arr(items) => DumpArray(items);
      case Obj(members) => DumpObject(members);
    }
  }

  /** What is still to be printed of an array from item i on, its separator included. */
  function ItemsFrom(items: seq<Json>, i: nat): Text
    requires i <= |items|
  {
    if i == |items| then [] else (if i == 0 then [] else SEPARATOR) + DumpItems(items[i..])
  }

  function MembersFrom(members: seq<Member>, i: nat): Text
    requires i <= |members|
  {
    if i == |members| then [] else (if i == 0 then [] else SEPARATOR) + DumpMembers(members[i..])
  }

  lemma DumpOfArray(items: seq<Json>)
    ensures Dump(Arr(items)) == [OPEN_ARRAY] + DumpItems(items) + [CLOSE_ARRAY]
    ensures ItemsFrom(items, 0) == DumpItems(items) && ItemsFrom(items, |items|) == []
  {
    hide Dump;
    assert items[0..] == items && (items == [] ==> DumpItems(items) == []);
    assert [] + DumpItems(items) == DumpItems(items);
    DumpArrayUnfolds(items);
  }

  lemma DumpArrayUnfolds(items: seq<Json>)
    ensures Dump(Arr(items)) == [OPEN_ARRAY] + DumpItems(items) + [CLOSE_ARRAY]
  {
  }

  lemma DumpOfObject(members: seq<Member>)
    ensures Dump(Obj(members)) == [OPEN_OBJECT] + DumpMembers(members) + [CLOSE_OBJECT]
    ensures MembersFrom(members, 0) == DumpMembers(members) && MembersFrom(members, |members|) == []
  {
    hide DumpMember;
    assert members[0..] == members && (members == [] ==> DumpMembers(members) == []);
    assert [] + DumpMembers(members) == DumpMembers(members);
  }

  lemma DumpItemsUnfolds(items: seq<Json>)
    requires items != []
    ensures DumpItems(items) == Dump(items[0]) + if |items| == 1 then [] else SEPARATOR + DumpItems(items[1..])
  {
    hide Dump;
    if |items| > 1 {
      Assoc3(Dump(items[0]), SEPARATOR, DumpItems(items[1..]));
    }
  }

  lemma DumpMembersUnfolds(members: seq<Member>)
    requires members != []
    ensures DumpMembers(members) ==
      DumpMember(members[0]) + if |members| == 1 then [] else SEPARATOR + DumpMembers(members[1..])
  {
    hide DumpMember;
    if |members| > 1 {
      Assoc3(DumpMember(members[0]), SEPARATOR, DumpMembers(members[1..]));
    }
  }

  lemma Assoc3(a: Text, b: Text, c: Text)
    ensures (a + b) + c == a + (b + c)
  {
  }

  /** One more item moves from what is to be printed to what is. */
  lemma ItemNext(out: Text, items: seq<Json>, i: nat)
    requires i < |items|
    ensures (if i == 0 then out else out + SEPARATOR) + Dump(items[i]) + ItemsFrom(items, i + 1) ==
            out + ItemsFrom(items, i)
  {
    hide Dump, DumpItems;
    DumpItemsUnfolds(items[i..]);
    assert items[i..][1..] == items[i + 1..];
    ItemAssoc(out, if i == 0 then [] else SEPARATOR, Dump(items[i]), ItemsFrom(items, i + 1));
  }

  lemma ItemAssoc(out: Text, separator: Text, item: Text, rest: Text)
    ensures ((out + separator) + item) + rest == out + (separator + (item + rest)) && out + [] == out
  {
  }

  lemma MembersFromUnfolds(members: seq<Member>, i: nat)
    requires i < |members|
    ensures MembersFrom(members, i) ==
      (if i == 0 then [] else SEPARATOR) + (DumpMember(members[i]) + MembersFrom(members, i + 1))
  {
    hide DumpMember, DumpMembers;
    DumpMembersUnfolds(members[i..]);
    assert members[i..][1..] == members[i + 1..];
  }

  lemma MemberNext(out: Text, members: seq<Member>, i: nat)
    requires i < |members|
    ensures (if i == 0 then out else out + SEPARATOR) + Quoted(members[i].key) + [COLON, SPACE] +
            Dump(members[i].value) + MembersFrom(members, i + 1) == out + MembersFrom(members, i)
  {
    hide Dump, Quoted, MembersFrom;
    MembersFromUnfolds(members, i);
    MemberAssoc(out, if i == 0 then [] else SEPARATOR, Quoted(members[i].key), Dump(members[i].value),
                MembersFrom(members, i + 1));
  }

  lemma MemberAssoc(out: Text, separator: Text, key: Text, value: Text, rest: Text)
    ensures (out + separator) + key + [COLON, SPACE] + value + rest ==
            out + (separator + ((key + [COLON, SPACE] + value) + rest))
    ensures out + [] == out
  {
  }

  lemma Bracketed(a: Text, b: Text, c: Text, d: Text)
    ensures ((a + b) + c) + d == a + (b + c + d)
  {
  }
}
