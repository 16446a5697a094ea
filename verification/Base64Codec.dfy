/** The encoder and the two-pass decoder over their buffers. */
module Base64Codec {
  import opened Octets
  import opened Base64

  /** Writes a run of bytes at a position. */
  method Emit(dst: array<byte>, p: nat, chunk: Bytes)
    requires p + |chunk| <= dst.Length
    modifies dst
    ensures dst[..] == old(dst[..p]) + chunk + old(dst[p + |chunk|..])
  {
    forall i | 0 <= i < |chunk| {
      dst[p + i] := chunk[i];
    }
  }

  /** The buffer with out at its front. */
  ghost predicate Holds(dst: array<byte>, out: Bytes, was: Bytes)
    reads dst
  {
    |was| == dst.Length && |out| <= |was| && dst[..] == out + was[|out|..]
  }

  method Append(dst: array<byte>, p: nat, chunk: Bytes, ghost out: Bytes, ghost was: Bytes)
    requires Holds(dst, out, was) && p == |out| && p + |chunk| <= dst.Length
    modifies dst
    ensures Holds(dst, out + chunk, was)
  {
    Emit(dst, p, chunk);
  }

  lemma EncodeUnfolds(s: Bytes, i: nat, out: Bytes)
    requires i <= |s|
    ensures |s| - i >= 3 ==>
      (out + Quad(s[i], s[i + 1], s[i + 2])) + Encode(s[i + 3..]) == out + Encode(s[i..])
    ensures 1 <= |s| - i < 3 ==> Encode(s[i..]) == LastQuad(s[i..])
    ensures |s| == i ==> Encode(s[i..]) == []
    ensures |Encode(s[i..])| == EncodedLength(|s| - i)
  {
    hide Quad, LastQuad;
    EncodeLength(s[i..]);
    if |s| - i >= 3 {
      assert s[i..][3..] == s[i + 3..];
    }
  }

  /** mbedtls_base64_encode: the text and a NUL behind it, or how much room they need. */
  method EncodeBuffer(dst: array?<byte>, dlen: nat, src: Bytes) returns (ret: int, olen: nat)
    requires dst != null ==> dlen <= dst.Length
    modifies dst
    ensures src == [] ==> ret == 0 && olen == 0
    ensures ret == 0 || ret == BUFFER_TOO_SMALL
    ensures src != [] && ret == 0 ==> dst != null && olen == |Encode(src)| < dlen
    ensures src != [] && ret == 0 ==> dst[..] == Encode(src) + [0] + old(dst[..])[olen + 1..]
    ensures src != [] && EncodedLength(|src|) < SIZE_MAX ==>
      (ret == 0 <==> dst != null && |Encode(src)| < dlen) && (ret != 0 ==> olen == |Encode(src)| + 1)
    ensures ret != 0 && dst != null ==> dst[..] == old(dst[..])
  {
    hide Encode;
    EncodeLength(src);
    if src == [] {
      return 0, 0;
    }
    var n := |src| / 3 + if |src| % 3 != 0 then 1 else 0;
    if n > (SIZE_MAX - 1) / 4 {
      return BUFFER_TOO_SMALL, SIZE_MAX;
    }
    n := n * 4;
    if dlen < n + 1 || dst == null {
      return BUFFER_TOO_SMALL, n + 1;
    }
    ghost var was := dst[..];
    olen := EncodeInto(dst, src);
    Append(dst, olen, [0], Encode(src), was);
    ret := 0;
  }

  /** The loop over groups of three, and the one or two bytes behind them. */
  method EncodeInto(dst: array<byte>, src: Bytes) returns (p: nat)
    requires |Encode(src)| < dst.Length
    modifies dst
    ensures p == |Encode(src)| && Holds(dst, Encode(src), old(dst[..]))
  {
    hide Quad, LastQuad, Encode, Holds;
    EncodeLength(src);
    var n := |src| / 3 * 3;
    ghost var was, out: Bytes := dst[..], [];
    HoldsNothing(dst);
    var i := 0;
    p := 0;
    assert [] + Encode(src) == Encode(src) && src[0..] == src;
    while i < n
      invariant i % 3 == 0 && i <= n && p == |out| && Holds(dst, out, was)
      invariant out + Encode(src[i..]) == Encode(src)
    {
      p := EncodeGroup(dst, p, src, i, out, was);
      out := out + Quad(src[i], src[i + 1], src[i + 2]);
      i := i + 3;
    }
    EncodeUnfolds(src, i, out);
    if i < |src| {
      LastQuadLength(src[i..]);
      var quad := LastQuad(src[i..]);
      Append(dst, p, quad, out, was);
      out := out + quad;
      p := p + 4;
    }
    assert out + [] == out;
  }

  /** One group of three bytes. */
  method EncodeGroup(dst: array<byte>, p: nat, src: Bytes, i: nat, ghost out: Bytes, ghost was: Bytes) returns (q: nat)
    requires i + 3 <= |src| && p == |out| && Holds(dst, out, was) && |out + Encode(src[i..])| < dst.Length
    modifies dst
    ensures var all := out + Quad(src[i], src[i + 1], src[i + 2]);
      && Holds(dst, all, was) && q == |all|
      && all + Encode(src[i + 3..]) == out + Encode(src[i..])
  {
    hide Quad, LastQuad, Encode, Holds;
    EncodeUnfolds(src, i, out);
    var quad := Quad(src[i], src[i + 1], src[i + 2]);
    QuadLength(src[i], src[i + 1], src[i + 2]);
    Append(dst, p, quad, out, was);
    q := p + 4;
  }

  lemma HoldsNothing(dst: array<byte>)
    ensures Holds(dst, [], dst[..])
  {
  }

  lemma QuadLength(a: byte, b: byte, c: byte)
    ensures |Quad(a, b, c)| == 4
  {
  }

  lemma LastQuadLength(s: Bytes)
    requires 1 <= |s| <= 2
    ensures |LastQuad(s)| == 4
  {
  }

  // ---- first pass ----

  lemma BehindBehind(a: Bytes, b: Bytes, r: Scanned)
    ensures Behind(a, Behind(b, r)) == Behind(a + b, r)
  {
    if r.Chars? {
      assert a + (b + r.chars) == (a + b) + r.chars;
    }
  }

  /** More than two equals signs, or a digit behind one, cannot be mended by what follows. */
  lemma NotPadded(seen: Bytes, c: byte, more: Bytes)
    requires Padded(seen)
    requires (c == EQUALS && |seen| - DigitCount(seen) >= 2) || (c != EQUALS && DigitCount(seen) < |seen|)
    ensures !Padded(seen + [c] + more)
  {
    var all := seen + [c] + more;
    FirstEquals(seen, [c] + more);
    assert all == seen + ([c] + more) && all[|seen|] == c;
  }

  lemma {:induction false} FirstEquals(seen: Bytes, more: Bytes)
    requires DigitCount(seen) < |seen|
    ensures DigitCount(seen + more) == DigitCount(seen)
  {
    if seen[0] != EQUALS {
      assert (seen + more)[1..] == seen[1..] + more;
      FirstEquals(seen[1..], more);
    }
  }

  lemma {:induction false} OneMore(seen: Bytes, c: byte)
    requires Padded(seen)
    requires if c == EQUALS then |seen| - DigitCount(seen) < 2 else DigitCount(seen) == |seen|
    ensures Padded(seen + [c])
    ensures DigitCount(seen + [c]) == DigitCount(seen) + if c == EQUALS then 0 else 1
  {
    if seen != [] && seen[0] != EQUALS {
      assert (seen + [c])[1..] == seen[1..] + [c];
      assert seen == [seen[0]] + seen[1..];
      assert Padded(seen[1..]) by {
        assert forall i :: DigitCount(seen[1..]) <= i < |seen| - 1 ==> seen[1..][i] == seen[i + 1];
      }
      OneMore(seen[1..], c);
    }
  }

  /** What the first pass has found: characters and equals signs, or that the text is not base64. */
  method Check(src: Bytes) returns (ok: bool, n: nat, equals: nat)
    ensures ok ==> Scan(src).Chars? && Padded(Scan(src).chars)
    ensures ok ==> n == |Scan(src).chars| && equals == n - DigitCount(Scan(src).chars)
    ensures !ok ==> Scan(src).Bad? || !Padded(Scan(src).chars)
  {
    hide Scan, Padded, DigitCount, DecValue;
    n, equals := 0, 0;
    var i := 0;
    ghost var seen: Bytes := [];
    StartOfScan(src);
    while i < |src|
      invariant i <= |src| && n == |seen| && equals == n - DigitCount(seen) && Padded(seen)
      invariant Behind(seen, Scan(src[i..])) == Scan(src)
    {
      ghost var t := src[i..];
      var spaces := false;
      ghost var line := i;
      while i < |src| && src[i] == SPACE
        invariant line <= i <= |src| && spaces == (i > line)
        invariant SkipSpaces(src[i..]) == SkipSpaces(t)
      {
        assert src[i..][1..] == src[i + 1..];
        i := i + 1;
        spaces := true;
      }
      ScanUnfolds(t, src[i..]);
      if i == |src| {
        break;
      }
      assert src[i..][1..] == src[i + 1..];
      if |src| - i >= 2 && src[i] == CR && src[i + 1] == LF {
        i := i + 1;
        continue;
      }
      if src[i] == LF {
        i := i + 1;
        continue;
      }
      if spaces {
        return false, n, equals;
      }
      if src[i] > 127 {
        HighIsNoDigit(src[i]);
        return false, n, equals;
      }
      BehindBehind(seen, [src[i]], Scan(src[i + 1..]));
      if src[i] == EQUALS {
        equals := equals + 1;
        if equals > 2 {
          Refused(seen, src[i], Scan(src[i + 1..]));
          return false, n, equals;
        }
      } else {
        if equals != 0 {
          Refused(seen, src[i], Scan(src[i + 1..]));
          return false, n, equals;
        }
        if DecValue(src[i]) < 0 {
          return false, n, equals;
        }
      }
      OneMore(seen, src[i]);
      seen := seen + [src[i]];
      n := n + 1;
      i := i + 1;
    }
    EndOfScan(src[i..], seen);
    ok := true;
  }

  lemma StartOfScan(src: Bytes)
    ensures Behind([], Scan(src[0..])) == Scan(src) && Padded([]) && DigitCount([]) == 0
  {
    hide Scan;
    assert src[0..] == src;
    if Scan(src).Chars? {
      assert [] + Scan(src).chars == Scan(src).chars;
    }
  }

  lemma EndOfScan(t: Bytes, seen: Bytes)
    ensures SkipSpaces(t) == [] ==> Behind(seen, Scan(t)) == Chars(seen)
  {
  }

  /** One line of the first pass, with u what is behind the spaces. */
  lemma ScanUnfolds(t: Bytes, u: Bytes)
    requires SkipSpaces(u) == SkipSpaces(t) && (u == [] || u[0] != SPACE)
    ensures u == SkipSpaces(t)
    ensures Scan(t) ==
      if u == [] then Chars([])
      else if (|u| >= 2 && u[0] == CR && u[1] == LF) || u[0] == LF then Scan(u[1..])
      else if |u| < |t| then Bad
      else if u[0] == EQUALS || IsDigit(u[0]) then Behind([u[0]], Scan(u[1..]))
      else Bad
  {
  }

  lemma HighIsNoDigit(c: byte)
    requires c > 127
    ensures !IsDigit(c) && c != EQUALS
  {
  }

  lemma Refused(seen: Bytes, c: byte, r: Scanned)
    requires Padded(seen)
    requires (c == EQUALS && |seen| - DigitCount(seen) >= 2) || (c != EQUALS && DigitCount(seen) < |seen|)
    ensures Behind(seen + [c], r).Bad? || !Padded(Behind(seen + [c], r).chars)
  {
    if r.Chars? {
      NotPadded(seen, c, r.chars);
    }
  }

  // ---- second pass ----

  const TWO_32: nat := 0x1_0000_0000

  /** The number that digits spell. */
  function Packed(d: seq<Sextet>): nat {
    if d == [] then 0 else Packed(d[..|d| - 1]) * 64 + d[|d| - 1]
  }

  function Span(n: nat): (m: nat)
    requires n <= 4
    ensures m > 0
  {
    if n == 0 then 1 else if n == 1 then 64 else if n == 2 then 4096 else if n == 3 then 262144 else 16777216
  }

  /** The accumulator's low bits are the digits taken since the last output. */
  ghost predicate Low(x: nat, d: seq<Sextet>)
    requires |d| <= 4
  {
    x % Span(|d|) == Packed(d)
  }

  /** x << 6 | v, in 32 bits. */
  function Take(x: nat, v: Sextet): (y: nat) {
    x * 64 % TWO_32 + v
  }

  lemma Take1(x: nat, v: nat)
    requires v < 64
    ensures (x * 64 % TWO_32 + v) % 64 == v
  {
    var q := x * 64 / TWO_32;
    assert x * 64 % TWO_32 + v == (x - q * 0x400_0000) * 64 + v;
  }

  lemma Take2(x: nat, v: nat)
    requires v < 64
    ensures (x * 64 % TWO_32 + v) % 4096 == x % 64 * 64 + v
  {
    var q := x * 64 / TWO_32;
    assert x * 64 % TWO_32 + v == (x / 64 - q * 0x10_0000) * 4096 + (x % 64 * 64 + v);
  }

  lemma Take3(x: nat, v: nat)
    requires v < 64
    ensures (x * 64 % TWO_32 + v) % 262144 == x % 4096 * 64 + v
  {
    var q := x * 64 / TWO_32;
    assert x * 64 % TWO_32 + v == (x / 4096 - q * 0x4000) * 262144 + (x % 4096 * 64 + v);
  }

  lemma Take4(x: nat, v: nat)
    requires v < 64
    ensures (x * 64 % TWO_32 + v) % 16777216 == x % 262144 * 64 + v
  {
    var q := x * 64 / TWO_32;
    assert x * 64 % TWO_32 + v == (x / 262144 - q * 0x100) * 16777216 + (x % 262144 * 64 + v);
  }

  lemma TakeLow(x: nat, v: Sextet, d: seq<Sextet>)
    requires |d| < 4 && Low(x, d)
    ensures Low(Take(x, v), d + [v])
  {
    assert (d + [v])[..|d|] == d;
    Take1(x, v);
    Take2(x, v);
    Take3(x, v);
    Take4(x, v);
  }

  function Byte0(x: nat): byte { x % 256 }
  function Byte1(x: nat): byte { x / 256 % 256 }
  function Byte2(x: nat): byte { x / 65536 % 256 }

  lemma PackedFour(d: seq<Sextet>)
    requires |d| == 4
    ensures Packed(d) == Join(d[0], d[1], d[2], d[3])
  {
    assert d[..3][..2] == d[..2] && d[..2][..1] == d[..1] && d[..1][..0] == [];
    assert Packed(d[..1]) == d[0];
    assert Packed(d[..2]) == Packed(d[..1]) * 64 + d[1];
    assert Packed(d[..3]) == Packed(d[..2]) * 64 + d[2];
  }

  function Join(a: int, b: int, c: int, d: int): int { a * 262144 + b * 4096 + c * 64 + d }

  lemma BytesOfLow(x: nat, d: seq<Sextet>)
    requires |d| == 4 && Low(x, d)
    ensures [Byte2(x), Byte1(x), Byte0(x)] == Triple(d[0], d[1], d[2], d[3])
  {
    hide Packed;
    PackedFour(d);
    SplitBytes(d[0], d[1], d[2], d[3]);
    LowBytes(x);
  }

  lemma LowBytes(x: nat)
    ensures var y := x % 16777216; Byte2(x) == y / 65536 && Byte1(x) == y / 256 % 256 && Byte0(x) == y % 256
  {
    var y, q := x % 16777216, x / 16777216;
    assert x == q * 16777216 + y;
    assert x / 65536 == q * 256 + y / 65536;
    assert x / 256 == q * 65536 + y / 256;
  }

  lemma SplitBytes(a: int, b: int, c: int, d: int)
    requires 0 <= a < 64 && 0 <= b < 64 && 0 <= c < 64 && 0 <= d < 64
    ensures var y := Join(a, b, c, d);
      y / 65536 == a * 4 + b / 16 && y / 256 % 256 == b % 16 * 16 + c / 4 && y % 256 == c % 4 * 64 + d
  {
    var h, m, l := a * 4 + b / 16, b % 16 * 16 + c / 4, c % 4 * 64 + d;
    assert Join(a, b, c, d) == h * 65536 + m * 256 + l;
    ThreeBytes(h, m, l);
  }

  lemma ThreeBytes(h: int, m: int, l: int)
    requires 0 <= h < 256 && 0 <= m < 256 && 0 <= l < 256
    ensures var y := h * 65536 + m * 256 + l; y / 65536 == h && y / 256 % 256 == m && y % 256 == l
  {
    var y := h * 65536 + m * 256 + l;
    assert y / 256 == h * 256 + m;
  }

  /** x << 12 is x << 6 twice. */
  lemma ShiftTwice(x: nat)
    ensures x * 4096 % TWO_32 == Take(Take(x, 0), 0)
  {
    var y := x * 64 % TWO_32;
    var q := x * 64 / TWO_32;
    assert x * 64 == q * TWO_32 + y;
    assert x * 4096 == y * 64 + q * 64 * TWO_32;
    assert (y * 64 + q * 64 * TWO_32) % TWO_32 == y * 64 % TWO_32;
  }

  /** Every character is a digit, an equals sign, a space or part of a line break. */
  predicate Known(t: Bytes) {
    forall i :: 0 <= i < |t| ==> t[i] == CR || t[i] == LF || t[i] == SPACE || t[i] == EQUALS || IsDigit(t[i])
  }

  lemma {:induction false} ScannedIsKnown(t: Bytes)
    requires Scan(t).Chars?
    ensures Known(t)
    decreases |t|
  {
    hide DecValue;
    if t != [] {
      assert t == [t[0]] + t[1..];
      if t[0] == SPACE {
        SpaceMayGo(t);
        ScannedIsKnown(t[1..]);
      } else if Scan(t[1..]).Chars? {
        ScannedIsKnown(t[1..]);
      }
    }
  }

  lemma SpaceMayGo(t: Bytes)
    requires t != [] && t[0] == SPACE && Scan(t).Chars?
    ensures Scan(t[1..]).Chars?
  {
  }

  /** The second pass over an accepted text: the digits, four at a time. */
  method Fill(dst: array?<byte>, src: Bytes) returns (p: nat)
    requires Known(src) && (dst == null ==> Decode(src) == []) && (dst != null ==> |Decode(src)| <= dst.Length)
    requires |Significant(src)| % 4 != 1
    modifies dst
    ensures p == |Decode(src)|
    ensures dst != null ==> dst[..] == Decode(src) + old(dst[..])[p..]
  {
    hide Significant, FromDigits, Low, Triple, Take, Decode, Holds, DecValue;
    p := 0;
    var x, digits, k := 0, 0, 0;
    ghost var out, was: Bytes := [], if dst == null then [] else dst[..];
    ghost var d: seq<Sextet> := [];
    if dst != null {
      HoldsNothing(dst);
    }
    StartOfFill(src);
    while k < |src|
      invariant k <= |src| && digits == |d| < 4 && Low(x, d) && p == |out|
      invariant dst != null ==> Holds(dst, out, was)
      invariant out + FromDigits(d + Significant(src[k..])) == Decode(src)
      invariant (|d| + |Significant(src[k..])|) % 4 == |Significant(src)| % 4
    {
      var c := src[k];
      Unfold(src, k);
      if c == CR || c == LF || c == SPACE {
        k := k + 1;
        continue;
      }
      if c == EQUALS {
        break;
      }
      var v: Sextet := DecValue(c);
      Assoc(d, [v], Significant(src[k + 1..]));
      k := k + 1;
      TakeLow(x, v, d);
      x := Take(x, v);
      d := d + [v];
      digits := digits + 1;
      if digits == 4 {
        p := Output(dst, p, x, d, Significant(src[k..]), out, was);
        out := out + Triple(d[0], d[1], d[2], d[3]);
        d := [];
        digits := 0;
        NoDigits(x);
      }
    }
    Finished(src, k);
    assert d + Significant(src[k..]) == d;
    EndOfFill(src);
    p := OutputLast(dst, p, x, digits, d, out, was);
    if dst != null {
      HoldsAll(dst, Decode(src), was);
    }
  }

  lemma EndOfFill(src: Bytes)
    ensures Decode(src) == FromDigits(Significant(src))
  {
  }

  lemma HoldsAll(dst: array<byte>, out: Bytes, was: Bytes)
    requires Holds(dst, out, was)
    ensures |out| <= |was| && dst[..] == out + was[|out|..]
  {
  }

  lemma StartOfFill(src: Bytes)
    ensures [] + FromDigits([] + Significant(src[0..])) == Decode(src)
    ensures src[0..] == src && Low(0, [])
  {
    hide Significant, FromDigits;
    assert src[0..] == src && [] + Significant(src) == Significant(src) && [] + Decode(src) == Decode(src);
  }

  lemma Assoc<T>(a: seq<T>, b: seq<T>, c: seq<T>)
    ensures a + (b + c) == (a + b) + c
  {
  }

  /** Three bytes for four digits. */
  method Output(dst: array?<byte>, p: nat, x: nat, ghost d: seq<Sextet>, ghost rest: seq<Sextet>,
                ghost out: Bytes, ghost was: Bytes) returns (q: nat)
    requires |d| == 4 && Low(x, d) && p == |out|
    requires dst != null ==> Holds(dst, out, was) && |out + FromDigits(d + rest)| <= dst.Length
    requires dst == null ==> out + FromDigits(d + rest) == []
    modifies dst
    ensures dst != null && Holds(dst, out + Triple(d[0], d[1], d[2], d[3]), was)
    ensures q == p + 3 == |out + Triple(d[0], d[1], d[2], d[3])|
    ensures (out + Triple(d[0], d[1], d[2], d[3])) + FromDigits([] + rest) == out + FromDigits(d + rest)
  {
    hide FromDigits, Low;
    BytesOfLow(x, d);
    FourDigits(d, rest, out);
    Append(dst, p, [Byte2(x), Byte1(x), Byte0(x)], out, was);
    q := p + 3;
  }

  /** Two bytes or one for the digits left over. */
  method OutputLast(dst: array?<byte>, p: nat, x: nat, digits: nat, ghost d: seq<Sextet>,
                    ghost out: Bytes, ghost was: Bytes)
    returns (q: nat)
    requires digits == |d| < 4 && |d| != 1 && Low(x, d) && p == |out|
    requires dst != null ==> Holds(dst, out, was) && |out + FromDigits(d)| <= dst.Length
    requires dst == null ==> out + FromDigits(d) == []
    modifies dst
    ensures q == |out + FromDigits(d)| && (dst != null ==> Holds(dst, out + FromDigits(d), was))
  {
    hide FromDigits, Low, Take;
    q := p;
    if digits == 3 {
      LastThree(x, d);
      Append(dst, p, [Byte2(Take(x, 0)), Byte1(Take(x, 0))], out, was);
      q := p + 2;
    } else if digits == 2 {
      LastTwo(x, d);
      ShiftTwice(x);
      Append(dst, p, [Byte2(x * 4096 % TWO_32)], out, was);
      q := p + 1;
    } else {
      FewDigits(d);
      assert out + [] == out;
    }
  }

  lemma NoDigits(x: nat)
    ensures Low(x, [])
  {
  }

  lemma Unfold(src: Bytes, k: nat)
    requires k < |src| && Known(src)
    ensures var c := src[k];
      Significant(src[k..]) ==
        if c == EQUALS then []
        else if c == CR || c == LF || c == SPACE then Significant(src[k + 1..])
        else [DecValue(c)] + Significant(src[k + 1..])
    ensures src[k] != CR && src[k] != LF && src[k] != SPACE && src[k] != EQUALS ==> 0 <= DecValue(src[k]) < 64
  {
    assert src[k..][1..] == src[k + 1..];
  }

  lemma Finished(src: Bytes, k: nat)
    requires k <= |src| && (k < |src| ==> src[k] == EQUALS)
    ensures Significant(src[k..]) == []
  {
  }

  lemma FourDigits(d: seq<Sextet>, rest: seq<Sextet>, out: Bytes)
    requires |d| == 4
    ensures out + FromDigits(d + rest) == (out + Triple(d[0], d[1], d[2], d[3])) + FromDigits([] + rest)
    ensures |FromDigits(d + rest)| >= 3 && |Triple(d[0], d[1], d[2], d[3])| == 3
  {
    assert (d + rest)[4..] == rest && [] + rest == rest;
  }

  lemma FewDigits(d: seq<Sextet>)
    requires |d| <= 1
    ensures FromDigits(d) == []
  {
  }

  lemma LastThree(x: nat, d: seq<Sextet>)
    requires |d| == 3 && Low(x, d)
    ensures FromDigits(d) == [Byte2(Take(x, 0)), Byte1(Take(x, 0))]
  {
    hide Low, Take, Packed;
    TakeLow(x, 0, d);
    BytesOfLow(Take(x, 0), d + [0]);
  }

  lemma LastTwo(x: nat, d: seq<Sextet>)
    requires |d| == 2 && Low(x, d)
    ensures FromDigits(d) == [Byte2(Take(Take(x, 0), 0))]
  {
    hide Low, Take;
    TakeLow(x, 0, d);
    TakeLow(Take(x, 0), 0, d + [0]);
    assert d + [0] + [0] == [d[0], d[1], 0, 0];
    BytesOfLow(Take(Take(x, 0), 0), d + [0] + [0]);
  }

  /**
   * mbedtls_base64_decode: the bytes, or how much room they need, or that the text is not base64. The two
   * passes never disagree about the length, so the corruption report is never made.
   */
  method DecodeBuffer(dst: array?<byte>, dlen: nat, src: Bytes) returns (ret: int, olen: nat)
    requires dst != null ==> dlen <= dst.Length
    modifies dst
    ensures ret == 0 || ret == BUFFER_TOO_SMALL || ret == INVALID_CHARACTER
    ensures ret == INVALID_CHARACTER <==> !Accepted(src)
    ensures Accepted(src) ==> olen == |Decode(src)|
    ensures ret == 0 <==> Accepted(src) && |Decode(src)| <= dlen && (dst == null ==> Decode(src) == [])
    ensures ret == 0 && dst != null ==> dst[..] == Decode(src) + old(dst[..])[olen..]
    ensures ret != 0 && dst != null ==> dst[..] == old(dst[..])
  {
    hide Scan, Padded, DigitCount, Significant, FromDigits;
    olen := 0;
    var ok, n, equals := Check(src);
    if !ok {
      return INVALID_CHARACTER, olen;
    }
    if (n - equals) % 4 == 1 {
      return INVALID_CHARACTER, olen;
    }
    if n % 4 != 0 {
      return INVALID_CHARACTER, olen;
    }
    PredictionIsExact(src);
    SignificantCount(src);
    ScannedIsKnown(src);
    olen := n / 4 * 3 - equals;
    if (olen != 0 && dst == null) || dlen < olen {
      return BUFFER_TOO_SMALL, olen;
    }
    var p := Fill(dst, src);
    if olen != p {
      assert false;
    }
    ret := 0;
  }
}
