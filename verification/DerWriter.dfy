/** The DER writer: it fills a buffer from its end towards its start. */
module DerWriter {
  import opened Octets
  import opened Der

  const BUF_TOO_SMALL: int := -0x006C
  const INVALID_LENGTH: int := -0x0064

  const X509_BAD_INPUT_DATA: int := -0x2800
  const INT_MAX: nat := 0x7FFF_FFFF

  /** A size as the int that a writer returns. */
  function ToInt(n: nat): (i: int)
    ensures -0x8000_0000 <= i <= INT_MAX
    ensures i == n <==> n <= INT_MAX
  {
    (n + 0x8000_0000) % 0x1_0000_0000 - 0x8000_0000
  }

  /** The buffer s with enc put in front of position hi. */
  function Put(s: Bytes, enc: Bytes, hi: nat): Bytes
    requires |enc| <= hi <= |s|
  {
    s[..hi - |enc|] + enc + s[hi..]
  }

  /** Writing in front of what was written is writing both at once. */
  lemma PutPut(s: Bytes, a: Bytes, b: Bytes, hi: nat)
    requires |a| + |b| <= hi <= |s|
    ensures Put(Put(s, b, hi), a, hi - |b|) == Put(s, a + b, hi)
  {
  }

  lemma PutNothing(s: Bytes, hi: nat)
    requires hi <= |s|
    ensures Put(s, [], hi) == s
  {
  }

  lemma PutKeepsRest(s: Bytes, enc: Bytes, hi: nat)
    requires hi <= |s|
    ensures |enc| <= hi ==> Put(s, enc, hi)[hi..] == s[hi..]
  {
  }

  lemma BitContentSize(s: Bytes, bits: nat)
    requires ByteLen(bits) <= |s|
    ensures |BitContent(s, bits)| == ByteLen(bits) + 1
  {
  }

  class Writer {
    const buf: array<byte>
    const start: nat
    var p: nat

    ghost predicate Valid()
      reads this
    {
      start <= p <= buf.Length
    }

    constructor (buffer: array<byte>)
      ensures Valid() && buf == buffer && start == 0 && p == buffer.Length
    {
      buf := buffer;
      start := 0;
      p := buffer.Length;
    }

    /** *--(*p) = b */
    method PushFront(b: byte)
      requires Valid() && p > start
      modifies this`p, buf
      ensures Valid() && p == old(p) - 1 && buf[..] == Put(old(buf[..]), [b], old(p))
    {
      p := p - 1;
      buf[p] := b;
    }

    /** memcpy to just below the cursor. */
    method CopyFront(s: Bytes)
      requires Valid() && p - start >= |s|
      modifies this`p, buf
      ensures Valid() && p == old(p) - |s| && buf[..] == Put(old(buf[..]), s, old(p))
    {
      p := p - |s|;
      forall i | 0 <= i < |s| {
        buf[p + i] := s[i];
      }
    }

    method WriteLen(len: nat) returns (ret: int)
      requires Valid()
      modifies this`p, buf
      ensures Valid() && (len > MAX_LEN ==> ret == INVALID_LENGTH)
      ensures len <= MAX_LEN ==>
        ret == if |LenBytes(len)| <= old(p) - start then |LenBytes(len)| else BUF_TOO_SMALL
      ensures ret >= 0 ==> p == old(p) - ret && buf[..] == Put(old(buf[..]), LenBytes(len), old(p))
      ensures ret < 0 ==> p == old(p) && buf[..] == old(buf[..])
    {
      if len > MAX_LEN {
        return INVALID_LENGTH;
      }
      var required := 1;
      if len >= 0x80 {
        var l := len;
        while l != 0
          invariant required + (if l == 0 then 0 else |BigEndian(l)|) == 1 + |BigEndian(len)|
        {
          required := required + 1;
          l := l / 256;
        }
        FourDigits(len);
      }
      if required > p - start {
        return BUF_TOO_SMALL;
      }
      WriteDigits(len);
      ghost var digits, was := BigEndian(len), old(buf[..]);
      if required > 1 {
        PushFront(0x80 + required - 1);
        PutPut(was, [0x80 + required - 1], digits, old(p));
      }
      return required;
    }

    /** The loop that writes the digits of a number, the lowest last. */
    method WriteDigits(n: nat)
      requires Valid() && |BigEndian(n)| <= p - start
      modifies this`p, buf
      ensures Valid() && p == old(p) - |BigEndian(n)| && buf[..] == Put(old(buf[..]), BigEndian(n), old(p))
    {
      hide Put;
      ghost var was, hi, done: Bytes := buf[..], p, [];
      PutNothing(was, hi);
      var l, more := n, true;
      while more
        invariant Valid() && |done| == hi - p && hi <= |was| == buf.Length
        invariant buf[..] == Put(was, done, hi)
        invariant if more then BigEndian(l) + done == BigEndian(n) else done == BigEndian(n)
        decreases if more then l + 1 else 0
      {
        ghost var b: byte := l % 256;
        PutPut(was, [b], done, hi);
        PushFront(l % 256);
        LastDigit(l, done);
        done := [b] + done;
        l := l / 256;
        more := l != 0;
      }
    }

    method WriteTag(tag: byte) returns (ret: int)
      requires Valid()
      modifies this`p, buf
      ensures Valid() && ret == if old(p) - start >= 1 then 1 else BUF_TOO_SMALL
      ensures ret >= 0 ==> p == old(p) - 1 && buf[..] == Put(old(buf[..]), [tag], old(p))
      ensures ret < 0 ==> p == old(p) && buf[..] == old(buf[..])
    {
      if p - start < 1 {
        return BUF_TOO_SMALL;
      }
      PushFront(tag);
      return 1;
    }

    /** The header in front of content that is already written. The length is whatever the caller counted. */
    method WriteLenAndTag(ghost content: Bytes, ghost was: Bytes, ghost hi: nat, len: nat, tag: byte) returns (ret: int)
      requires Valid() && hi <= |was| && p + |content| == hi
      requires buf[..] == Put(was, content, hi)
      modifies this`p, buf
      ensures Valid() && buf[hi..] == was[hi..]
      ensures len > MAX_LEN ==> ret == INVALID_LENGTH
      ensures len <= MAX_LEN && |Header(tag, len)| > old(p) - start ==> ret == BUF_TOO_SMALL
      ensures len <= MAX_LEN && |Header(tag, len)| <= old(p) - start ==>
        && ret == ToInt(len + |Header(tag, len)|) && p == old(p) - |Header(tag, len)|
        && buf[..] == Put(was, Header(tag, len) + content, hi)
    {
      hide LenBytes, Put;
      PutKeepsRest(was, content, hi);
      var n := WriteLen(len);
      if n < 0 {
        return n;
      }
      PutPut(was, LenBytes(len), content, hi);
      PutKeepsRest(was, LenBytes(len) + content, hi);
      var t := WriteTag(tag);
      if t < 0 {
        return t;
      }
      PutPut(was, [tag], LenBytes(len) + content, hi);
      assert [tag] + (LenBytes(len) + content) == Header(tag, len) + content;
      PutKeepsRest(was, Header(tag, len) + content, hi);
      return ToInt(len + n + t);
    }

    method WriteRawBuffer(s: Bytes) returns (ret: int)
      requires Valid()
      modifies this`p, buf
      ensures Valid() && ret == if |s| <= old(p) - start then ToInt(|s|) else BUF_TOO_SMALL
      ensures |s| <= old(p) - start ==> p == old(p) - |s| && buf[..] == Put(old(buf[..]), s, old(p))
      ensures |s| > old(p) - start ==> p == old(p) && buf[..] == old(buf[..])
    {
      if p - start < |s| {
        return BUF_TOO_SMALL;
      }
      CopyFront(s);
      return ToInt(|s|);
    }

    /** Content, then length, then tag, into a buffer whose size is an int. */
    method WriteEntry(tag: byte, s: Bytes) returns (ret: int)
      requires Valid() && buf.Length <= INT_MAX
      modifies this`p, buf
      ensures Valid() && buf[old(p)..] == old(buf[..])[old(p)..]
      ensures |s| <= MAX_LEN && |Tlv(tag, s)| <= old(p) - start ==>
        ret == |Tlv(tag, s)| && p == old(p) - ret && buf[..] == Put(old(buf[..]), Tlv(tag, s), old(p))
      ensures !(|s| <= MAX_LEN && |Tlv(tag, s)| <= old(p) - start) ==> ret == BUF_TOO_SMALL
    {
      hide LenBytes, Put;
      ghost var was := buf[..];
      PutKeepsRest(was, s, p);
      ret := WriteRawBuffer(s);
      if ret < 0 {
        return;
      }
      ret := WriteLenAndTag(s, was, old(p), |s|, tag);
    }

    /** Content of any length; the length written is the int that the copy of the content returned. */
    method WriteOctetString(s: Bytes) returns (ret: int)
      requires Valid()
      modifies this`p, buf
      ensures Valid() && buf[old(p)..] == old(buf[..])[old(p)..]
      ensures |s| > old(p) - start ==> ret == BUF_TOO_SMALL && p == old(p) && buf[..] == old(buf[..])
      ensures |s| <= old(p) - start && ToInt(|s|) < 0 ==> ret == ToInt(|s|)
      ensures |s| <= old(p) - start && ToInt(|s|) >= 0 ==>
        var h := Header(TAG_OCTET_STRING, ToInt(|s|));
        if |h| + |s| > old(p) - start then ret == BUF_TOO_SMALL
        else ret == ToInt(ToInt(|s|) + |h|) && p == old(p) - |h| - |s| && buf[..] == Put(old(buf[..]), h + s, old(p))
    {
      hide LenBytes, Header, ToInt, Put;
      ghost var was := buf[..];
      PutKeepsRest(was, s, p);
      ret := WriteRawBuffer(s);
      if ret < 0 {
        return;
      }
      ret := WriteLenAndTag(s, was, old(p), ret, TAG_OCTET_STRING);
    }

    /** An int, of which only the lowest byte is written when it is negative. */
    method WriteTaggedInt(val: int, tag: byte) returns (ret: int)
      requires Valid() && -0x8000_0000 <= val <= 0x7FFF_FFFF
      modifies this`p, buf
      ensures Valid() && |IntContent(val)| <= MAX_LEN
      ensures var e := Tlv(tag, IntContent(val));
        && ret == (if |e| <= old(p) - start then |e| else BUF_TOO_SMALL)
        && (ret >= 0 ==> p == old(p) - ret && buf[..] == Put(old(buf[..]), e, old(p)))
      ensures buf[old(p)..] == old(buf[..])[old(p)..]
    {
      hide LenBytes, IntContent, Put;
      IntContentOf(val);
      TlvLonger(tag, IntContent(val));
      ghost var was := buf[..];
      ret := WriteIntContent(val);
      if ret < 0 {
        return;
      }
      ret := WriteLenAndTag(IntContent(val), was, old(p), ret, tag);
      PutKeepsRest(was, Tlv(tag, IntContent(val)), old(p));
    }

    /** The bytes of an int, with a zero in front when the first would look like a sign. */
    method WriteIntContent(val: int) returns (ret: int)
      requires Valid()
      modifies this`p, buf
      ensures Valid() && ret == if |IntContent(val)| <= old(p) - start then |IntContent(val)| else BUF_TOO_SMALL
      ensures ret >= 0 ==> p == old(p) - ret && buf[..] == Put(old(buf[..]), IntContent(val), old(p))
      ensures ret < 0 ==> buf[old(p)..] == old(buf[..])[old(p)..]
    {
      hide BigEndian;
      ghost var was, hi := buf[..], p;
      ghost var digits;
      ret, digits := WriteIntDigits(val);
      if ret < 0 {
        return;
      }
      assert buf[p] == buf[..][p] == digits[0];
      if buf[p] >= 0x80 {
        if p - start < 1 {
          PutKeepsRest(was, digits, hi);
          return BUF_TOO_SMALL;
        }
        PutPut(was, [0], digits, hi);
        PushFront(0x00);
        ret := ret + 1;
      }
    }

    /** The loop over the bytes of an int, which ends as soon as what remains is not positive. */
    method WriteIntDigits(val: int) returns (ret: int, ghost digits: Bytes)
      requires Valid()
      modifies this`p, buf
      ensures Valid() && digits == (if val < 0 then [val % 256] else BigEndian(val))
      ensures ret == if |digits| <= old(p) - start then |digits| else BUF_TOO_SMALL
      ensures ret >= 0 ==> p == old(p) - |digits| && buf[..] == Put(old(buf[..]), digits, old(p))
      ensures ret < 0 ==> buf[old(p)..] == old(buf[..])[old(p)..]
    {
      hide Put;
      ghost var was, hi, done: Bytes := buf[..], p, [];
      PutNothing(was, hi);
      digits := if val < 0 then [val % 256] else BigEndian(val);
      var v, more := val, true;
      ret := 0;
      while more
        invariant Valid() && ret == |done| == hi - p && hi <= |was| == buf.Length
        invariant buf[..] == Put(was, done, hi)
        invariant more ==> (if v < 0 then [v % 256] else BigEndian(v)) + done == digits
        invariant more && v < 0 ==> done == []
        invariant !more ==> done == digits
        decreases more, if v < 0 then 0 else v
      {
        if p - start < 1 {
          PutKeepsRest(was, done, hi);
          return BUF_TOO_SMALL, digits;
        }
        ghost var b: byte := v % 256;
        PutPut(was, [b], done, hi);
        PushFront(v % 256);
        if v >= 0 {
          LastDigit(v, done);
        }
        done := [b] + done;
        ret := ret + 1;
        v := v / 256;
        more := v > 0;
      }
    }

    method WriteBitString(s: Bytes, bits: nat) returns (ret: int)
      requires Valid() && ByteLen(bits) <= |s|
      modifies this`p, buf
      ensures Valid() && buf[old(p)..] == old(buf[..])[old(p)..]
      ensures WrittenAs(TAG_BIT_STRING, BitContent(s, bits), ret, old(buf[..]), old(p))
    {
      hide LenBytes, Header, BitContent, Put, ToInt;
      ghost var was := buf[..];
      BitContentSize(s, bits);
      ret := WriteBits(s, bits);
      if ret < 0 {
        return;
      }
      ret := WriteLenAndTag(BitContent(s, bits), was, old(p), ret, TAG_BIT_STRING);
    }

    /** The outcome of writing a content of exactly counted length behind its header. */
    ghost predicate WrittenAs(tag: byte, content: Bytes, ret: int, was: Bytes, hi: nat)
      requires start <= hi <= |was|
      reads this, buf
    {
      if |content| > hi - start then ret == BUF_TOO_SMALL
      else if |content| > MAX_LEN then ret == INVALID_LENGTH
      else if |Tlv(tag, content)| > hi - start then ret == BUF_TOO_SMALL
      else
        && ret == ToInt(|Tlv(tag, content)|) && p == hi - |Tlv(tag, content)|
        && buf[..] == Put(was, Tlv(tag, content), hi)
    }

    /** The bytes of a bit string, the last one masked, behind the number of unused bits. */
    method WriteBits(s: Bytes, bits: nat) returns (ret: int)
      requires Valid() && ByteLen(bits) <= |s|
      modifies this`p, buf
      ensures Valid() && |BitContent(s, bits)| == ByteLen(bits) + 1
      ensures ret == if ByteLen(bits) + 1 <= old(p) - start then ByteLen(bits) + 1 else BUF_TOO_SMALL
      ensures ret >= 0 ==> p == old(p) - ret && buf[..] == Put(old(buf[..]), BitContent(s, bits), old(p))
      ensures ret < 0 ==> p == old(p) && buf[..] == old(buf[..])
    {
      hide Masked, Put;
      ghost var was, hi := buf[..], p;
      var byteLen := ByteLen(bits);
      var unused := byteLen * 8 - bits;
      if p - start < byteLen + 1 {
        return BUF_TOO_SMALL;
      }
      ret := byteLen + 1;
      ghost var bytes: Bytes := [];
      PutNothing(was, hi);
      if byteLen > 0 {
        byteLen := byteLen - 1;
        PushFront(Masked(s[byteLen], unused));
        PutPut(was, s[..byteLen], [Masked(s[byteLen], unused)], hi);
        CopyFront(s[..byteLen]);
        bytes := s[..byteLen] + [Masked(s[byteLen], unused)];
      }
      PutPut(was, [unused], bytes, hi);
      PushFront(unused);
      assert [unused] + bytes == BitContent(s, bits);
    }

    /** Drops the trailing zero bits, byte by byte and bit by bit. */
    method WriteNamedBitString(s: Bytes, bits: nat) returns (ret: int)
      requires Valid() && bits <= 8 * |s|
      modifies this`p, buf
      ensures Valid() && buf[old(p)..] == old(buf[..])[old(p)..]
      ensures WrittenAs(TAG_BIT_STRING, BitContent(s, NamedBits(s, bits)), ret, old(buf[..]), old(p))
    {
      hide WrittenAs, BitContent;
      var n := TrailingZerosCut(s, bits);
      ret := WriteBitString(s, n);
    }
  }

  predicate Short(exts: seq<Entry>) { forall i :: 0 <= i < |exts| ==> |exts[i].content| <= MAX_LEN }

  /** With their header the entries fill the 256 bytes of the extension at most. */
  predicate Fits(exts: seq<Entry>) { Short(exts) && |Entries(exts)| <= 253 }

  lemma HeaderOfSequence(exts: seq<Entry>)
    requires Short(exts) && |Entries(exts)| <= 256
    ensures |Header(TAG_SEQUENCE, |Entries(exts)|)| <= 256 - |Entries(exts)| <==> Fits(exts)
    ensures Tlv(TAG_SEQUENCE, Entries(exts)) == Header(TAG_SEQUENCE, |Entries(exts)|) + Entries(exts)
  {
    hide Entries;
  }

  lemma {:induction false} EntriesConcat(es: seq<Entry>, fs: seq<Entry>)
    requires Short(es) && Short(fs)
    ensures Short(es + fs) && Entries(es + fs) == Entries(es) + Entries(fs)
  {
    hide Tlv;
    if es == [] {
      assert es + fs == fs;
    } else {
      assert (es + fs)[1..] == es[1..] + fs;
      EntriesConcat(es[1..], fs);
    }
  }

  /** One entry in front of the rest. */
  lemma EntriesStep(exts: seq<Entry>, k: nat)
    requires k < |exts| && Short(exts[k + 1..]) && |exts[k].content| <= MAX_LEN
    ensures Short(exts[k..])
    ensures Entries(exts[k..]) == Tlv(exts[k].tag, exts[k].content) + Entries(exts[k + 1..])
  {
    hide Tlv;
    assert exts[k..][1..] == exts[k + 1..];
    assert exts[k..] == [exts[k]] + exts[k + 1..];
  }

  lemma EntriesSuffix(exts: seq<Entry>, k: nat)
    requires k <= |exts| && Short(exts)
    ensures Short(exts[k..]) && |Entries(exts[k..])| <= |Entries(exts)|
  {
    hide Tlv;
    assert exts[..k] + exts[k..] == exts;
    EntriesConcat(exts[..k], exts[k..]);
  }

  /** An entry that finds no room in front of the others makes the whole too long. */
  lemma NoRoom(exts: seq<Entry>, k: nat)
    requires k < |exts| && Short(exts[k + 1..])
    requires |exts[k].content| > MAX_LEN ||
      |Tlv(exts[k].tag, exts[k].content)| > 256 - |Entries(exts[k + 1..])|
    ensures !Fits(exts)
  {
    hide Tlv, Entries;
    if Short(exts) {
      EntriesStep(exts, k);
      EntriesSuffix(exts, k);
    }
  }

  /** The buffer of the extension is filled from the last entry to the first, which is found by walking the list. */
  method ExtKeyUsage(exts: seq<Entry>) returns (ret: int, der: Bytes)
    ensures ret == 0 <==> exts != [] && (forall i :: 0 <= i < |exts| ==> exts[i].tag == TAG_OID) && Fits(exts)
    ensures ret == 0 ==> der == Tlv(TAG_SEQUENCE, Entries(exts))
    ensures ret == X509_BAD_INPUT_DATA ==> exts == [] || exists i :: 0 <= i < |exts| && exts[i].tag != TAG_OID
    ensures ret == BUF_TOO_SMALL ==> exts != [] && !Fits(exts)
    ensures ret != 0 ==> ret == X509_BAD_INPUT_DATA || ret == BUF_TOO_SMALL
  {
    hide Tlv, Put, Entries, Header, Fits;
    der := [];
    if exts == [] {
      return X509_BAD_INPUT_DATA, der;
    }
    var buffer := new byte[256](_ => 0);
    var w := new Writer(buffer);
    ghost var was := buffer[..];
    PutNothing(was, 256);
    NoEntries(exts);
    var len, last := 0, |exts|;
    while last != 0
      invariant 0 <= last <= |exts| && w.Valid() && w.buf == buffer && w.start == 0
      invariant Short(exts[last..]) && (forall i :: last <= i < |exts| ==> exts[i].tag == TAG_OID)
      invariant len == |Entries(exts[last..])| == 256 - w.p && buffer[..] == Put(was, Entries(exts[last..]), 256)
    {
      var ext := 0;
      while ext + 1 != last
        invariant 0 <= ext < last
      {
        ext := ext + 1;
      }
      if exts[ext].tag != TAG_OID {
        return X509_BAD_INPUT_DATA, der;
      }
      ret := w.WriteEntry(TAG_OID, exts[ext].content);
      if ret < 0 {
        NoRoom(exts, ext);
        return;
      }
      EntriesStep(exts, ext);
      PutPut(was, Tlv(TAG_OID, exts[ext].content), Entries(exts[last..]), 256);
      len := len + ret;
      last := ext;
    }
    assert exts[0..] == exts;
    HeaderOfSequence(exts);
    ret := w.WriteLenAndTag(Entries(exts), was, 256, len, TAG_SEQUENCE);
    if ret < 0 {
      return;
    }
    der := buffer[w.p..];
    PutEnds(was, Tlv(TAG_SEQUENCE, Entries(exts)));
    ret := 0;
  }

  /**
   * An octet string is read back whole if and only if its length is a non-negative int; behind a longer one the
   * header announces what is left of the length modulo 2^32.
   */
  lemma OctetStringComesBack(s: Bytes)
    requires ToInt(|s|) >= 0
    ensures var r := GetTag(Header(TAG_OCTET_STRING, ToInt(|s|)) + s, TAG_OCTET_STRING);
      && r == Ok(|s| % 0x1_0000_0000, s)
      && (r == Ok(|s|, s) <==> |s| <= INT_MAX)
  {
    hide Header;
    HeaderReads(TAG_OCTET_STRING, ToInt(|s|), s);
  }

  lemma NoEntries(exts: seq<Entry>)
    ensures Short(exts[|exts|..]) && Entries(exts[|exts|..]) == []
  {
  }

  lemma PutEnds(s: Bytes, enc: Bytes)
    requires |enc| <= |s|
    ensures Put(s, enc, |s|)[|s| - |enc|..] == enc
  {
  }

  method TrailingZerosCut(s: Bytes, total: nat) returns (bits: nat)
    requires total <= 8 * |s|
    ensures bits == NamedBits(s, total)
  {
    bits := total;
    var byteLen := ByteLen(bits);
    var unused := byteLen * 8 - bits;
    if bits != 0 {
      var cur := byteLen - 1;
      var shifted := Shr(s[cur], unused);
      while true
        invariant 0 < bits <= total && cur == (bits - 1) / 8 && shifted == Shr(s[cur], 7 - (bits - 1) % 8)
        invariant NamedBits(s, bits) == NamedBits(s, total)
        decreases bits
      {
        var bit := shifted % 2;
        shifted := shifted / 2;
        if bit != 0 {
          break;
        }
        bits := bits - 1;
        if bits == 0 {
          break;
        }
        if bits % 8 == 0 {
          cur := cur - 1;
          shifted := s[cur];
        }
      }
    }
  }

  /** One more digit in front of those already written. */
  lemma LastDigit(l: nat, done: Bytes)
    ensures BigEndian(l) + done ==
      if l < 256 then [l % 256] + done else BigEndian(l / 256) + ([l % 256] + done)
  {
  }

  lemma TlvLonger(tag: byte, content: Bytes)
    requires |content| <= MAX_LEN
    ensures |Tlv(tag, content)| >= |content| + 2
  {
  }
}
