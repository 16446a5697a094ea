/** JSON values and the text that the printer gives them. */
module Json {
  import opened Octets

  const QUOTE: byte := 0x22
  const BACKSLASH: byte := 0x5C
  const SLASH: byte := 0x2F
  const STAR: byte := 0x2A
  const COMMA: byte := 0x2C
  const COLON: byte := 0x3A
  const MINUS: byte := 0x2D
  const PLUS: byte := 0x2B
  const DOT: byte := 0x2E
  const SPACE: byte := 0x20
  const TAB: byte := 9
  const NEWLINE: byte := 10
  const RETURN: byte := 13
  const OPEN_ARRAY: byte := 0x5B
  const CLOSE_ARRAY: byte := 0x5D
  const OPEN_OBJECT: byte := 0x7B
  const CLOSE_OBJECT: byte := 0x7D
  const LETTER_U: byte := 0x75

  const NULL_TEXT: seq<byte> := [0x6E, 0x75, 0x6C, 0x6C]
  const TRUE_TEXT: seq<byte> := [0x74, 0x72, 0x75, 0x65]
  const FALSE_TEXT: seq<byte> := [0x66, 0x61, 0x6C, 0x73, 0x65]
  const SEPARATOR: seq<byte> := [COMMA, SPACE]

  type Text = seq<byte>

  /** The members of an object are kept in the order of their keys. */
  datatype Json =
    | Null
    | Bool(b: bool)
    | Int(n: int)
    | Double(r: real)
    | Str(s: Text)
    | Arr(items: seq<Json>)
    | Obj(members: seq<Member>)

  datatype Member = Member(key: Text, value: Json)

  /** The order of the keys: byte by byte, a proper prefix first. */
  predicate Less(a: Text, b: Text) {
    b != [] && (a == [] || a[0] < b[0] || (a[0] == b[0] && Less(a[1..], b[1..])))
  }

  lemma {:induction false} LessTransitive(a: Text, b: Text, c: Text)
    requires Less(a, b) && Less(b, c)
    ensures Less(a, c)
  {
    if a != [] && a[0] == b[0] == c[0] {
      LessTransitive(a[1..], b[1..], c[1..]);
    }
  }

  lemma {:induction false} LessTotal(a: Text, b: Text)
    ensures Less(a, b) || a == b || Less(b, a)
    ensures !(Less(a, b) && Less(b, a)) && !Less(a, a)
  {
    if a != [] && b != [] {
      LessTotal(a[1..], b[1..]);
      LessTotal(a[1..], a[1..]);
      if a[1..] == b[1..] && a[0] == b[0] {
        assert a == [a[0]] + a[1..] && b == [b[0]] + b[1..];
      }
    } else if a != [] {
      LessTotal(a[1..], a[1..]);
    }
  }

  predicate Sorted(m: seq<Member>) {
    forall i, j :: 0 <= i < j < |m| ==> Less(m[i].key, m[j].key)
  }

  /** Assigning to a key: a new member in its place, or a new value for the old one. */
  function Put(m: seq<Member>, key: Text, value: Json): seq<Member> {
    if m == [] || Less(key, m[0].key) then [Member(key, value)] + m
    else if m[0].key == key then [Member(key, value)] + m[1..]
    else [m[0]] + Put(m[1..], key, value)
  }

  lemma {:induction false} PutKeys(m: seq<Member>, key: Text, value: Json)
    ensures forall x :: x in Put(m, key, value) ==> x == Member(key, value) || x in m
  {
    if m != [] {
      PutKeys(m[1..], key, value);
    }
  }

  lemma {:induction false} PutSorted(m: seq<Member>, key: Text, value: Json)
    requires Sorted(m)
    ensures Sorted(Put(m, key, value)) && Member(key, value) in Put(m, key, value)
  {
    if m != [] {
      LessTotal(key, m[0].key);
      var p := Put(m, key, value);
      if Less(key, m[0].key) {
        forall j | 0 < j < |p|
          ensures Less(key, p[j].key)
        {
          if j > 1 {
            LessTransitive(key, m[0].key, m[j - 1].key);
          }
        }
      } else if m[0].key != key {
        PutSorted(m[1..], key, value);
        PutKeys(m[1..], key, value);
        forall j | 0 < j < |p|
          ensures Less(m[0].key, p[j].key)
        {
          assert p[j] in Put(m[1..], key, value);
        }
      }
    }
  }

  /** A key beyond all others goes to the end. */
  lemma {:induction false} PutLast(m: seq<Member>, key: Text, value: Json)
    requires forall i :: 0 <= i < |m| ==> Less(m[i].key, key)
    ensures Put(m, key, value) == m + [Member(key, value)]
  {
    if m != [] {
      LessTotal(key, m[0].key);
      PutLast(m[1..], key, value);
    }
  }

  // ---- printing ----

  function Digits(n: nat): Text {
    if n < 10 then [0x30 + n] else Digits(n / 10) + [0x30 + n % 10]
  }

  function IntText(v: int): Text { if v < 0 then [MINUS] + Digits(-v) else Digits(v) }

  function HexDigit(n: nat): byte
    requires n < 16
  {
    if n < 10 then 0x30 + n else 0x61 + n - 10
  }

  function Hex4(n: nat): Text
    requires n < 0x10000
  {
    [HexDigit(n / 16 / 16 / 16), HexDigit(n / 16 / 16 % 16), HexDigit(n / 16 % 16), HexDigit(n % 16)]
  }

  function UnicodeEscape(n: nat): Text
    requires n < 0x10000
  {
    [BACKSLASH, LETTER_U] + Hex4(n)
  }

  /** How many bytes of a string the next escape takes: three for the two Unicode line separators. */
  function StepLength(s: Text): (n: nat)
    requires s != []
    ensures 1 <= n <= |s|
  {
    if |s| >= 3 && s[0] == 0xE2 && s[1] == 0x80 && (s[2] == 0xA8 || s[2] == 0xA9) then 3 else 1
  }

  /** The text for the next byte, or line separator, of a string. */
  function StepText(s: Text): Text
    requires s != []
  {
    if s[0] == BACKSLASH then [BACKSLASH, BACKSLASH]
    else if s[0] == QUOTE then [BACKSLASH, QUOTE]
    else if s[0] == 8 then [BACKSLASH, 0x62]
    else if s[0] == 12 then [BACKSLASH, 0x66]
    else if s[0] == NEWLINE then [BACKSLASH, 0x6E]
    else if s[0] == RETURN then [BACKSLASH, 0x72]
    else if s[0] == TAB then [BACKSLASH, 0x74]
    else if s[0] <= 0x1F then UnicodeEscape(s[0])
    else if StepLength(s) == 3 then UnicodeEscape(if s[2] == 0xA8 then 0x2028 else 0x2029)
    else [s[0]]
  }

  function Escaped(s: Text): Text
    decreases |s|
  {
    if s == [] then [] else StepText(s) + Escaped(s[StepLength(s)..])
  }

  function Quoted(s: Text): Text { [QUOTE] + Escaped(s) + [QUOTE] }

  /** Doubles are printed by the C library and are not part of this model. */
  predicate Printable(v: Json) {
    match v
    case Int(n) => -0x8000_0000 <= n <= 0x7FFF_FFFF
    case Double(_) => false
    case Arr(items) => forall i :: 0 <= i < |items| ==> Printable(items[i])
    case Obj(members) => Sorted(members) && forall i :: 0 <= i < |members| ==> Printable(members[i].value)
    case _ => true
  }

  function Dump(v: Json): Text {
    match v
    case Null => NULL_TEXT
    case Bool(b) => if b then TRUE_TEXT else FALSE_TEXT
    case Int(n) => IntText(n)
    case Double(_) => []
    case Str(s) => Quoted(s)
    case Arr(items) => [OPEN_ARRAY] + DumpItems(items) + [CLOSE_ARRAY]
    case Obj(members) => [OPEN_OBJECT] + DumpMembers(members) + [CLOSE_OBJECT]
  }

  function DumpItems(items: seq<Json>): Text {
    if items == [] then []
    else if |items| == 1 then Dump(items[0])
    else Dump(items[0]) + SEPARATOR + DumpItems(items[1..])
  }

  function DumpMember(m: Member): Text { Quoted(m.key) + [COLON, SPACE] + Dump(m.value) }

  function DumpMembers(members: seq<Member>): Text {
    if members == [] then []
    else if |members| == 1 then DumpMember(members[0])
    else DumpMember(members[0]) + SEPARATOR + DumpMembers(members[1..])
  }
}
