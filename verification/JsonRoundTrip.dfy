/** The parser reads back what the printer writes. */
module JsonRoundTrip {
  import opened Octets
  import opened Json
  import opened JsonGrammar

  // ---- strings ----

  lemma HexDigitValue(n: nat)
    requires n < 16
    ensures IsHex(HexDigit(n)) && HexValue(HexDigit(n)) == n
  {
  }

  lemma CodeUnitOfHex4(n: nat, t: Text)
    requires n < 0x10000
    ensures CodeUnit(Hex4(n) + t) == Ok(n, t)
  {
    hide HexDigit, HexValue, IsHex;
    HexDigitValue(n / 16 / 16 / 16);
    HexDigitValue(n / 16 / 16 % 16);
    HexDigitValue(n / 16 % 16);
    HexDigitValue(n % 16);
    FourDigits(n);
    assert (Hex4(n) + t)[4..] == t;
  }

  lemma FourDigits(n: nat)
    ensures n / 16 / 16 / 16 * 4096 + n / 16 / 16 % 16 * 256 + n / 16 % 16 * 16 + n % 16 == n
  {
    var a := n / 16;
    var b := a / 16;
    assert n == a * 16 + n % 16 && a == b * 16 + a % 16 && b == b / 16 * 16 + b % 16;
  }

  /** An escape leaves its code point pending until it is clear that no surrogate pair begins with it. */
  lemma UnicodeEscapeReads(u: nat, t: Text, last: int, out: Text)
    requires u < 0x10000 && -1 <= last < 0x10000 && !(IsLead(last) && IsTrail(u))
    ensures StringRest(UnicodeEscape(u) + t, last, out) == StringRest(t, u, out + Utf8(last))
  {
    hide Hex4, Utf8;
    var w := UnicodeEscape(u) + t;
    assert w[2..] == Hex4(u) + t;
    CodeUnitOfHex4(u, t);
  }

  /** A surrogate pair of escapes becomes the UTF-8 bytes of one code point. */
  lemma SurrogatePairReads(lead: nat, trail: nat, t: Text, last: int, out: Text)
    requires IsLead(lead) && IsTrail(trail) && -1 <= last < 0x10000 && !IsLead(last)
    ensures StringRest(UnicodeEscape(lead) + (UnicodeEscape(trail) + t), last, out) ==
            StringRest(t, -1, out + Utf8(last) + Utf8(Combined(lead, trail)))
  {
    hide Hex4, Utf8;
    UnicodeEscapeReads(lead, UnicodeEscape(trail) + t, last, out);
    var w := UnicodeEscape(trail) + t;
    assert w[2..] == Hex4(trail) + t;
    CodeUnitOfHex4(trail, t);
  }

  /** The code point that a UTF-8 sequence stands for. */
  function Utf8Value(t: Text): int
    requires 1 <= |t| <= 4
  {
    var a: int := t[0];
    if |t| == 1 then a
    else
      var b: int := t[1];
      if |t| == 2 then (a - 0xC0) * 64 + (b - 0x80)
      else
        var c: int := t[2];
        if |t| == 3 then (a - 0xE0) * 4096 + (b - 0x80) * 64 + (c - 0x80)
        else
          var d: int := t[3];
          (a - 0xF0) * 262144 + (b - 0x80) * 4096 + (c - 0x80) * 64 + (d - 0x80)
  }

  lemma SixBits(pt: nat)
    ensures pt / 4096 * 4096 + pt / 64 % 64 * 64 + pt % 64 == pt
    ensures pt / 262144 * 262144 + pt / 4096 % 64 * 4096 + pt / 64 % 64 * 64 + pt % 64 == pt
  {
    var a := pt / 64;
    assert a / 64 == pt / 4096 && pt / 4096 / 64 == pt / 262144;
    var b := pt / 4096;
    assert pt == a * 64 + pt % 64 && a == b * 64 + a % 64 && b == b / 64 * 64 + b % 64;
  }

  /** The bytes written for a code point stand for it; their number is the least that can. */
  lemma Utf8RoundTrip(pt: nat)
    requires pt < 0x11_0000
    ensures 1 <= |Utf8(pt)| <= 4 && Utf8Value(Utf8(pt)) == pt
    ensures |Utf8(pt)| == if pt < 0x80 then 1 else if pt < 0x800 then 2 else if pt < 0x10000 then 3 else 4
  {
    SixBits(pt);
  }

  /** Every code point beyond the basic plane has a surrogate pair that combines to it, and only one. */
  lemma SurrogatesOf(pt: int)
    requires 0x10000 <= pt < 0x11_0000
    ensures var lead, trail := 0xD800 + (pt - 0x10000) / 1024, 0xDC00 + (pt - 0x10000) % 1024;
      && IsLead(lead) && IsTrail(trail) && Combined(lead, trail) == pt
      && (forall l, r :: IsLead(l) && IsTrail(r) && Combined(l, r) == pt ==> l == lead && r == trail)
  {
  }

  /** So the two escapes of a code point beyond the basic plane become the UTF-8 bytes that stand for it. */
  lemma AstralEscapesRead(pt: nat, t: Text, last: int, out: Text)
    requires 0x10000 <= pt < 0x11_0000 && -1 <= last < 0x10000 && !IsLead(last)
    ensures var lead, trail := 0xD800 + (pt - 0x10000) / 1024, 0xDC00 + (pt - 0x10000) % 1024;
      StringRest(UnicodeEscape(lead) + (UnicodeEscape(trail) + t), last, out) ==
      StringRest(t, -1, out + Utf8(last) + Utf8(pt))
    ensures |Utf8(pt)| == 4 && Utf8Value(Utf8(pt)) == pt
  {
    hide StringRest, UnicodeEscape, Utf8, Utf8Value;
    SurrogatesOf(pt);
    Utf8RoundTrip(pt);
    SurrogatePairReads(0xD800 + (pt - 0x10000) / 1024, 0xDC00 + (pt - 0x10000) % 1024, t, last, out);
  }

  /** What one step of the printer leaves pending in the reader: an escaped code point, or nothing. */
  function Pending(s: Text): (u: int)
    requires s != []
    ensures -1 <= u < 0x10000 && !IsLead(u)
  {
    if StepLength(s) == 3 then (if s[2] == 0xA8 then 0x2028 else 0x2029)
    else if s[0] <= 0x1F && !(8 <= s[0] <= 10) && s[0] != 12 && s[0] != 13 then s[0]
    else -1
  }

  lemma StepReads(s: Text, t: Text, last: int, out: Text)
    requires s != [] && -1 <= last < 0x10000 && !IsLead(last)
    ensures Pending(s) >= 0 ==>
      StringRest(StepText(s) + t, last, out) == StringRest(t, Pending(s), out + Utf8(last))
    ensures Pending(s) < 0 ==>
      StringRest(StepText(s) + t, last, out) == StringRest(t, -1, out + Utf8(last) + [s[0]])
  {
    hide Hex4, Utf8, CodeUnit, StringRest;
    if Pending(s) >= 0 {
      UnicodeEscapeReads(Pending(s), t, last, out);
    } else if |StepText(s)| == 2 {
      LetterReads(StepText(s)[1], t, last, out);
      assert StepText(s) == [BACKSLASH, StepText(s)[1]];
    } else {
      PlainReads(s[0], t, last, out);
    }
  }

  lemma LetterReads(c: byte, t: Text, last: int, out: Text)
    requires -1 <= last < 0x10000 && EscapeByte(c).Ok?
    ensures StringRest([BACKSLASH, c] + t, last, out) == StringRest(t, -1, out + Utf8(last) + [EscapeByte(c).value])
  {
    hide Utf8, CodeUnit;
    assert ([BACKSLASH, c] + t)[2..] == t;
  }

  lemma PlainReads(c: byte, t: Text, last: int, out: Text)
    requires -1 <= last < 0x10000 && c > 0x1F && c != QUOTE && c != BACKSLASH
    ensures StringRest([c] + t, last, out) == StringRest(t, -1, out + Utf8(last) + [c])
  {
    hide Utf8, CodeUnit;
    assert ([c] + t)[1..] == t;
  }

  lemma StepBytes(s: Text)
    requires s != []
    ensures s == (if Pending(s) >= 0 then Utf8(Pending(s)) else [s[0]]) + s[StepLength(s)..]
  {
    if StepLength(s) == 3 {
      assert s == [0xE2, 0x80, s[2]] + s[3..];
    } else {
      assert s == [s[0]] + s[1..];
    }
  }

  lemma EscapedUnfolds(s: Text, t: Text)
    requires s != []
    ensures Escaped(s) + t == StepText(s) + (Escaped(s[StepLength(s)..]) + t)
  {
    hide StepText, StepLength;
  }

  /** Any byte string, printed and read. */
  lemma {:induction false} StringRoundTrip(s: Text, t: Text, last: int, out: Text)
    requires -1 <= last < 0x10000 && !IsLead(last)
    ensures StringRest(Escaped(s) + ([QUOTE] + t), last, out) == Ok(out + Utf8(last) + s, t)
    decreases |s|
  {
    hide Utf8, StepText, Pending, StepLength;
    if s == [] {
      assert Escaped(s) + ([QUOTE] + t) == [QUOTE] + t && ([QUOTE] + t)[1..] == t;
      assert out + Utf8(last) + s == out + Utf8(last);
    } else {
      hide StringRest, Escaped;
      var rest := s[StepLength(s)..];
      EscapedUnfolds(s, [QUOTE] + t);
      StepReads(s, Escaped(rest) + ([QUOTE] + t), last, out);
      StepBytes(s);
      Regroup(out + Utf8(last), if Pending(s) >= 0 then Utf8(Pending(s)) else [s[0]], rest);
      if Pending(s) >= 0 {
        StringRoundTrip(rest, t, Pending(s), out + Utf8(last));
      } else {
        StringRoundTrip(rest, t, -1, out + Utf8(last) + [s[0]]);
        NothingPending(out + Utf8(last) + [s[0]]);
      }
    }
  }

  lemma Regroup<T>(a: seq<T>, b: seq<T>, c: seq<T>)
    ensures (a + b) + c == a + (b + c)
  {
  }

  lemma NothingPending(out: Text)
    ensures out + Utf8(-1) == out
  {
  }

  lemma QuotedReads(s: Text, t: Text)
    ensures Quoted(s) + t == [QUOTE] + (Escaped(s) + ([QUOTE] + t))
    ensures StringRest(Escaped(s) + ([QUOTE] + t), -1, []) == Ok(s, t)
  {
    hide StringRest, Escaped;
    StringRoundTrip(s, t, -1, []);
    NothingPending([]);
    assert [] + s == s;
  }

  // ---- numbers ----

  /** What may follow a number in a printed text. */
  predicate Ends(t: Text) { t == [] || t[0] == COMMA || t[0] == CLOSE_ARRAY || t[0] == CLOSE_OBJECT }

  lemma {:induction false} DigitsRead(n: nat)
    ensures AllDigits(Digits(n)) && DecimalValue(Digits(n)) == n
    ensures |Digits(n)| >= 1 && (Digits(n)[0] == 0x30 <==> n == 0) && (n < 10 ==> |Digits(n)| == 1)
  {
    if n >= 10 {
      DigitsRead(n / 10);
      assert Digits(n)[..|Digits(n)| - 1] == Digits(n / 10);
    } else {
      assert Digits(n)[..0] == [];
    }
  }

  lemma {:induction false} RunStops(d: Text, t: Text)
    requires AllDigits(d) && Ends(t)
    ensures DigitRun(d + t) == |d|
  {
    if d == [] {
      assert d + t == t;
    } else {
      assert (d + t)[1..] == d[1..] + t;
      RunStops(d[1..], t);
    }
  }

  /** Integers whose text is longer than nine characters come back as doubles of the same value. */
  function RereadInt(v: int): Json { if |IntText(v)| <= 9 then Int(v) else Double(v as real) }

  lemma DoubleRestOfNothing(negative: bool, n: nat, t: Text)
    requires Ends(t)
    ensures DoubleRest(negative, n, t) == Ok(Double((if negative then -(n as int) else n) as real), t)
  {
    assert Power10(0) == 1;
    var none: Text := [];
    assert FractionPart(t) == Ok(none, t) && ExponentPart(t) == Ok(0, t);
    assert DecimalValue(none) == 0;
    assert n * Power10(|none|) + DecimalValue(none) == n;
    assert Scaled(n, 0) == n as real;
  }

  lemma WholePart(d: Text, t: Text)
    requires AllDigits(d) && Ends(t) && |d| >= 1 && (d[0] == 0x30 ==> |d| == 1)
    ensures IntegerPart(d + t) == |d| && (d + t)[..|d|] == d && (d + t)[|d|..] == t && Head(d + t) == d[0]
  {
    RunStops(d, t);
  }

  /** A number text is its sign, its digits and what follows. */
  lemma NumberOf(negative: bool, d: Text, t: Text)
    requires AllDigits(d) && Ends(t) && |d| >= 1 && (d[0] == 0x30 ==> |d| == 1)
    ensures var text := (if negative then [MINUS] else []) + d;
      var n := DecimalValue(d);
      Number(text + t) ==
        if |text| <= 9 then Ok(Int(if negative then 0 - n else n), t) else DoubleRest(negative, n, t)
  {
    hide DecimalValue, DoubleRest, IntegerPart;
    WholePart(d, t);
    var text := (if negative then [MINUS] else []) + d;
    assert text + t == if negative then [MINUS] + (d + t) else d + t;
    assert ([MINUS] + (d + t))[1..] == d + t;
  }

  lemma IntRoundTrip(v: int, t: Text)
    requires Ends(t)
    ensures Number(IntText(v) + t) == Ok(RereadInt(v), t)
  {
    hide DecimalValue, Digits, DoubleRest, Number;
    var n: nat := if v < 0 then -v else v;
    DigitsRead(n);
    NumberOf(v < 0, Digits(n), t);
    assert [] + Digits(n) == Digits(n);
    DoubleRestOfNothing(v < 0, n, t);
  }

  // ---- values ----

  /** How deep values nest: containers with nothing in them count like scalars. */
  function Height(v: Json): nat {
    match v
    case Arr(items) => if items == [] then 0 else 1 + ItemsHeight(items)
    case Obj(members) => if members == [] then 0 else 1 + MembersHeight(members)
    case _ => 0
  }

  function Max(a: nat, b: nat): nat { if a < b then b else a }

  function ItemsHeight(items: seq<Json>): nat {
    if items == [] then 0 else Max(Height(items[0]), ItemsHeight(items[1..]))
  }

  function MembersHeight(members: seq<Member>): nat {
    if members == [] then 0 else Max(Height(members[0].value), MembersHeight(members[1..]))
  }

  /** The value that comes back: the same, but for the kind of long integers. */
  function Reread(v: Json): Json {
    match v
    case Int(n) => RereadInt(n)
    case Arr(items) => Arr(RereadItems(items))
    case Obj(members) => Obj(RereadMembers(members))
    case _ => v
  }

  function RereadItems(items: seq<Json>): (r: seq<Json>)
    ensures |r| == |items|
  {
    if items == [] then [] else [Reread(items[0])] + RereadItems(items[1..])
  }

  function RereadMembers(members: seq<Member>): (r: seq<Member>)
    ensures |r| == |members| && forall i :: 0 <= i < |r| ==> r[i].key == members[i].key
  {
    if members == [] then []
    else [Member(members[0].key, Reread(members[0].value))] + RereadMembers(members[1..])
  }

  /** The equality of the JSON library: numbers by value, whatever their kind. */
  predicate Same(a: Json, b: Json) {
    match a
    case Int(m) => (b.Int? && b.n == m) || (b.Double? && b.r == m as real)
    case Double(r) => (b.Int? && b.n as real == r) || (b.Double? && b.r == r)
    case Arr(items) => b.Arr? && |b.items| == |items| && forall i :: 0 <= i < |items| ==> Same(items[i], b.items[i])
    case Obj(members) => b.Obj? && |b.members| == |members| &&
      forall i :: 0 <= i < |members| ==>
        members[i].key == b.members[i].key && Same(members[i].value, b.members[i].value)
    case _ => a == b
  }

  lemma {:induction false} RereadIsSame(v: Json)
    ensures Same(v, Reread(v))
  {
    match v
    case Arr(items) => RereadItemsAreSame(items);
    case Obj(members) => RereadMembersAreSame(members);
    case _ =>
  }

  lemma {:induction false} RereadItemsAreSame(items: seq<Json>)
    ensures forall i :: 0 <= i < |items| ==> Same(items[i], RereadItems(items)[i])
  {
    if items != [] {
      RereadIsSame(items[0]);
      RereadItemsAreSame(items[1..]);
    }
  }

  lemma {:induction false} RereadMembersAreSame(members: seq<Member>)
    ensures forall i :: 0 <= i < |members| ==> Same(members[i].value, RereadMembers(members)[i].value)
  {
    if members != [] {
      RereadIsSame(members[0].value);
      RereadMembersAreSame(members[1..]);
    }
  }

  /** Text that begins with a token character is neither white space nor a comment. */
  lemma TokenAtOnce(t: Text, comments: bool)
    requires t != [] && !IsSpace(t[0]) && t[0] != SLASH
    ensures Token(t, comments) == Ok(t[0], t[1..])
  {
  }

  lemma TokenAfterSpace(t: Text, comments: bool)
    requires t != [] && !IsSpace(t[0]) && t[0] != SLASH
    ensures Token([SPACE] + t, comments) == Ok(t[0], t[1..])
  {
    assert ([SPACE] + t)[1..] == t;
    assert SkipSpace(t) == t && SkipSpace([SPACE] + t) == t;
  }

  predicate TokenStart(t: Text) { t != [] && !IsSpace(t[0]) && t[0] != SLASH }

  lemma DumpStarts(v: Json)
    requires Printable(v)
    ensures TokenStart(Dump(v)) && Dump(v)[0] != CLOSE_ARRAY
  {
    if v.Int? {
      DigitsRead(if v.n < 0 then -v.n else v.n);
    }
  }

  /** The result expected for a value whose nesting reaches the given depth. */
  function Expected(depth: nat, v: Json, t: Text): Result<Json> {
    if depth <= MAX_DEPTH then Ok(v, t) else Fail
  }

  /** A space in front of a value makes no difference. */
  lemma ValueAfterSpace(t: Text, depth: nat, comments: bool)
    requires TokenStart(t)
    ensures Value([SPACE] + t, depth, comments) == Value(t, depth, comments)
  {
    hide Token, Number, Expect, StringRest, Items, Members;
    TokenAtOnce(t, comments);
    TokenAfterSpace(t, comments);
  }

  lemma StartsStay(a: Text, t: Text)
    requires TokenStart(a)
    ensures TokenStart(a + t) && (a + t)[0] == a[0] && [a[0]] + (a + t)[1..] == a + t
  {
  }

  lemma ScalarReads(v: Json, t: Text, depth: nat, comments: bool)
    requires Printable(v) && Ends(t) && !v.Arr? && !v.Obj? && depth <= MAX_DEPTH
    ensures Value(Dump(v) + t, depth, comments) == Ok(Reread(v), t)
  {
    hide Token, Number, StringRest, Items, Members, Escaped, IntText;
    DumpStarts(v);
    StartsStay(Dump(v), t);
    TokenAtOnce(Dump(v) + t, comments);
    match v
    case Int(n) =>
      IntRoundTrip(n, t);
      IntStarts(n);
    case Str(s) =>
      QuotedReads(s, t);
      assert (Quoted(s) + t)[1..] == Escaped(s) + ([QUOTE] + t);
    case Bool(b) =>
      var text := if b then TRUE_TEXT else FALSE_TEXT;
      assert (text + t)[|text|..] == t;
    case Null =>
      assert (NULL_TEXT + t)[|NULL_TEXT|..] == t;
  }

  lemma IntStarts(n: int)
    ensures IntText(n) != [] && (IntText(n)[0] == MINUS || IsDigit(IntText(n)[0]))
  {
    DigitsRead(if n < 0 then -n else n);
  }

  function ItemsText(items: seq<Json>, t: Text): Text { DumpItems(items) + ([CLOSE_ARRAY] + t) }

  function MembersText(members: seq<Member>, t: Text): Text { DumpMembers(members) + ([CLOSE_OBJECT] + t) }

  /** What stands behind the first item. */
  function BehindItem(items: seq<Json>, t: Text): Text
    requires items != []
  {
    if |items| == 1 then [CLOSE_ARRAY] + t else [COMMA] + ([SPACE] + ItemsText(items[1..], t))
  }

  lemma ItemsTextUnfolds(items: seq<Json>, t: Text)
    requires items != []
    ensures ItemsText(items, t) == Dump(items[0]) + BehindItem(items, t) && Ends(BehindItem(items, t))
  {
    hide Dump;
    if |items| > 1 {
      assert SEPARATOR + ItemsText(items[1..], t) == [COMMA] + ([SPACE] + ItemsText(items[1..], t));
    }
  }

  lemma ItemsStart(items: seq<Json>, t: Text)
    requires items != [] && Printable(items[0])
    ensures TokenStart(ItemsText(items, t)) && ItemsText(items, t)[0] != CLOSE_ARRAY
  {
    hide Dump, ItemsText, BehindItem;
    ItemsTextUnfolds(items, t);
    DumpStarts(items[0]);
    StartsStay(Dump(items[0]), BehindItem(items, t));
  }

  lemma OpensArray(text: Text, rest: Text, depth: nat, comments: bool)
    requires depth <= MAX_DEPTH && Token(text, comments) == Ok(OPEN_ARRAY, rest) && TokenStart(rest)
    ensures Value(text, depth, comments) ==
      if rest[0] == CLOSE_ARRAY then Ok(Arr([]), rest[1..]) else Items(rest, depth, comments, [])
  {
    hide Token, Items, Members, StringRest, Number, Expect;
    TokenAtOnce(rest, comments);
    assert [rest[0]] + rest[1..] == rest;
  }

  lemma OpensObject(text: Text, rest: Text, depth: nat, comments: bool)
    requires depth <= MAX_DEPTH && Token(text, comments) == Ok(OPEN_OBJECT, rest) && TokenStart(rest)
    ensures Value(text, depth, comments) ==
      if rest[0] == CLOSE_OBJECT then Ok(Obj([]), rest[1..]) else Members(rest, depth, comments, [])
  {
    hide Token, Items, Members, StringRest, Number, Expect;
    TokenAtOnce(rest, comments);
    assert [rest[0]] + rest[1..] == rest;
  }

  lemma ArrayReads(items: seq<Json>, t: Text, depth: nat, comments: bool)
    requires depth <= MAX_DEPTH && (items != [] ==> Printable(items[0]))
    ensures Value(Dump(Arr(items)) + t, depth, comments) ==
      if items == [] then Ok(Arr([]), t) else Items(ItemsText(items, t), depth, comments, [])
  {
    hide Token, Value, Items, DumpItems;
    var text, rest := Dump(Arr(items)) + t, ItemsText(items, t);
    assert text == [OPEN_ARRAY] + rest && text[1..] == rest;
    TokenAtOnce(text, comments);
    if items == [] {
      NoItems();
      assert rest == [CLOSE_ARRAY] + t && rest[1..] == t;
    } else {
      ItemsStart(items, t);
    }
    OpensArray(text, rest, depth, comments);
  }

  lemma NoItems()
    ensures DumpItems([]) == [] && DumpMembers([]) == []
  {
  }

  /** One item and what follows it. */
  lemma ItemReads(items: seq<Json>, t: Text, depth: nat, comments: bool, before: seq<Json>)
    requires items != [] && Printable(items[0]) && (|items| > 1 ==> Printable(items[1]))
    requires Value(ItemsText(items, t), depth + 1, comments) ==
      Expected(depth + 1 + Height(items[0]), Reread(items[0]), BehindItem(items, t))
    ensures Items(ItemsText(items, t), depth, comments, before) ==
      if depth + 1 + Height(items[0]) > MAX_DEPTH then Fail
      else if |items| == 1 then Ok(Arr(before + [Reread(items[0])]), t)
      else Items(ItemsText(items[1..], t), depth, comments, before + [Reread(items[0])])
  {
    hide Token, Value, ItemsText, Dump, DumpItems, Height, Reread;
    var u := BehindItem(items, t);
    TokenAtOnce(u, comments);
    if |items| == 1 {
      assert u[1..] == t;
    } else {
      var next := ItemsText(items[1..], t);
      assert u[1..] == [SPACE] + next;
      ItemsStart(items[1..], t);
      TokenAfterSpace(next, comments);
      assert [next[0]] + next[1..] == next;
    }
  }

  /** Printed and read, a value comes back the same, unless it nests beyond the limit. */
  lemma {:induction false} ValueRoundTrip(v: Json, t: Text, depth: nat, comments: bool)
    requires Printable(v) && Ends(t)
    ensures Value(Dump(v) + t, depth, comments) == Expected(depth + Height(v), Reread(v), t)
    decreases v, 2
  {
    hide Token, Value, Items, Members, ItemsText, MembersText, RereadItems, RereadMembers;
    if depth > MAX_DEPTH {
      TooDeep(Dump(v) + t, depth, comments);
    } else {
      match v
      case Arr(items) =>
        ArrayReads(items, t, depth, comments);
        if items != [] {
          ItemsRoundTrip(items, t, depth, comments, []);
          assert [] + RereadItems(items) == RereadItems(items);
        } else {
          RereadNothing();
        }
      case Obj(members) =>
        ObjectReads(members, t, depth, comments);
        if members != [] {
          MembersRoundTrip(members, t, depth, comments, []);
          assert [] + RereadMembers(members) == RereadMembers(members);
        } else {
          RereadNothing();
        }
      case _ =>
        ScalarReads(v, t, depth, comments);
    }
  }

  lemma RereadNothing()
    ensures RereadItems([]) == [] && RereadMembers([]) == []
  {
  }

  lemma TooDeep(t: Text, depth: nat, comments: bool)
    requires depth > MAX_DEPTH
    ensures Value(t, depth, comments) == Fail
  {
  }

  lemma {:induction false} ItemsRoundTrip(items: seq<Json>, t: Text, depth: nat, comments: bool, before: seq<Json>)
    requires items != [] && Ends(t) && forall i :: 0 <= i < |items| ==> Printable(items[i])
    ensures Items(ItemsText(items, t), depth, comments, before) ==
      Expected(depth + 1 + ItemsHeight(items), Arr(before + RereadItems(items)), t)
    decreases items, 1
  {
    hide Token, Value, Items, ItemsText, Dump, Height, Reread, BehindItem;
    ItemsTextUnfolds(items, t);
    ValueRoundTrip(items[0], BehindItem(items, t), depth + 1, comments);
    ItemReads(items, t, depth, comments, before);
    if |items| == 1 {
      assert items[1..] == [] && [Reread(items[0])] + RereadItems([]) == [Reread(items[0])];
    } else {
      ItemsRoundTrip(items[1..], t, depth, comments, before + [Reread(items[0])]);
      Regroup(before, [Reread(items[0])], RereadItems(items[1..]));
    }
  }

  /** What stands behind the first member. */
  function BehindMember(members: seq<Member>, t: Text): Text
    requires members != []
  {
    if |members| == 1 then [CLOSE_OBJECT] + t else [COMMA] + ([SPACE] + MembersText(members[1..], t))
  }

  lemma MemberFirst(members: seq<Member>, t: Text)
    requires members != []
    ensures MembersText(members, t) == DumpMember(members[0]) + BehindMember(members, t)
    ensures Ends(BehindMember(members, t))
  {
    hide DumpMember;
    if |members| > 1 {
      assert SEPARATOR + MembersText(members[1..], t) == [COMMA] + ([SPACE] + MembersText(members[1..], t));
    }
  }

  lemma MembersTextUnfolds(members: seq<Member>, t: Text)
    requires members != []
    ensures Ends(BehindMember(members, t))
    ensures MembersText(members, t) == Quoted(members[0].key) +
      ([COLON] + ([SPACE] + (Dump(members[0].value) + BehindMember(members, t))))
  {
    hide Dump, Quoted, MembersText, BehindMember;
    MemberFirst(members, t);
    ColonSplits(Quoted(members[0].key), Dump(members[0].value), BehindMember(members, t));
  }

  lemma ColonSplits(a: Text, b: Text, c: Text)
    ensures (a + [COLON, SPACE] + b) + c == a + ([COLON] + ([SPACE] + (b + c)))
  {
  }

  lemma MembersStart(members: seq<Member>, t: Text)
    requires members != []
    ensures TokenStart(MembersText(members, t)) && MembersText(members, t)[0] == QUOTE
  {
    hide Dump, MembersText, BehindMember, Escaped;
    MembersTextUnfolds(members, t);
  }

  lemma ObjectReads(members: seq<Member>, t: Text, depth: nat, comments: bool)
    requires depth <= MAX_DEPTH
    ensures Value(Dump(Obj(members)) + t, depth, comments) ==
      if members == [] then Ok(Obj([]), t) else Members(MembersText(members, t), depth, comments, [])
  {
    hide Token, Value, Members, DumpMembers;
    var text, rest := Dump(Obj(members)) + t, MembersText(members, t);
    assert text == [OPEN_OBJECT] + rest && text[1..] == rest;
    TokenAtOnce(text, comments);
    if members == [] {
      NoItems();
      assert rest == [CLOSE_OBJECT] + t && rest[1..] == t;
    } else {
      MembersStart(members, t);
    }
    OpensObject(text, rest, depth, comments);
  }

  /** One member and what follows it. */
  lemma MemberReads(members: seq<Member>, t: Text, depth: nat, comments: bool, before: seq<Member>)
    requires members != [] && Printable(members[0].value)
    requires Value(Dump(members[0].value) + BehindMember(members, t), depth + 1, comments) ==
      Expected(depth + 1 + Height(members[0].value), Reread(members[0].value), BehindMember(members, t))
    ensures var now := Put(before, members[0].key, Reread(members[0].value));
      Members(MembersText(members, t), depth, comments, before) ==
        if depth + 1 + Height(members[0].value) > MAX_DEPTH then Fail
        else if |members| == 1 then Ok(Obj(now), t)
        else Members(MembersText(members[1..], t), depth, comments, now)
  {
    hide Token, Value, MembersText, Dump, DumpMembers, Height, Reread, Quoted, Escaped, StringRest, Put;
    var key, u := members[0].key, BehindMember(members, t);
    var text := Dump(members[0].value) + u;
    var afterKey := [COLON] + ([SPACE] + text);
    MembersTextUnfolds(members, t);
    QuotedReads(key, afterKey);
    assert ([QUOTE] + (Escaped(key) + ([QUOTE] + afterKey)))[1..] == Escaped(key) + ([QUOTE] + afterKey);
    TokenAtOnce(afterKey, comments);
    assert afterKey[1..] == [SPACE] + text;
    DumpStarts(members[0].value);
    StartsStay(Dump(members[0].value), u);
    ValueAfterSpace(text, depth + 1, comments);
    TokenAtOnce(u, comments);
    if |members| == 1 {
      assert u[1..] == t;
    } else {
      var next := MembersText(members[1..], t);
      assert u[1..] == [SPACE] + next;
      MembersStart(members[1..], t);
      TokenAfterSpace(next, comments);
      assert [next[0]] + next[1..] == next;
    }
  }

  lemma {:induction false} MembersRoundTrip(members: seq<Member>, t: Text, depth: nat, comments: bool,
          before: seq<Member>)
    requires members != [] && Ends(t) && Sorted(members)
    requires forall i :: 0 <= i < |members| ==> Printable(members[i].value)
    requires forall i, j :: 0 <= i < |before| && 0 <= j < |members| ==> Less(before[i].key, members[j].key)
    ensures Members(MembersText(members, t), depth, comments, before) ==
      Expected(depth + 1 + MembersHeight(members), Obj(before + RereadMembers(members)), t)
    decreases members, 1
  {
    hide Token, Value, Members, MembersText, Dump, Height, Reread, BehindMember, Less, Put;
    MembersTextUnfolds(members, t);
    ValueRoundTrip(members[0].value, BehindMember(members, t), depth + 1, comments);
    MemberReads(members, t, depth, comments, before);
    PutLast(before, members[0].key, Reread(members[0].value));
    var now := before + [Member(members[0].key, Reread(members[0].value))];
    if |members| == 1 {
      assert members[1..] == [] && RereadMembers(members) == [Member(members[0].key, Reread(members[0].value))];
    } else {
      MembersRoundTrip(members[1..], t, depth, comments, now);
      Regroup(before, [Member(members[0].key, Reread(members[0].value))], RereadMembers(members[1..]));
    }
  }

  /** A printed document is read back completely, with the same value, exactly when it nests within the limit. */
  lemma DocumentRoundTrip(v: Json, comments: bool)
    requires Printable(v)
    ensures Document(Dump(v), comments) == Expected(Height(v), Reread(v), [])
    ensures Document(Dump(v), comments).Ok? <==> Height(v) <= 200
    ensures Same(v, Reread(v))
  {
    hide Value, Dump;
    assert Dump(v) + [] == Dump(v);
    ValueRoundTrip(v, [], 0, comments);
    RereadIsSame(v);
  }
}
