/** The DER reader: a cursor that advances towards an end it never passes. */
module DerReader {
  import opened Octets
  import opened Der

  /** What a reader reports: no error, or one of the codes. */
  datatype Status = Done | Failed(e: Asn1Err)

  class Reader {
    const buf: Bytes
    var p: nat

    constructor (data: Bytes)
      ensures buf == data && p == 0
    {
      buf := data;
      p := 0;
    }

    /** What lies between the cursor and the end. */
    ghost function Left(end: nat): Bytes
      requires p <= end <= |buf|
      reads this
    {
      buf[p..end]
    }

    method GetLen(end: nat) returns (ret: Status, len: nat)
      requires p <= end <= |buf|
      modifies this
      ensures old(p) <= p <= end
      ensures match Der.GetLen(old(Left(end)))
        case Err(e) => ret == Failed(e)
        case Ok(n, rest) => ret == Done && len == n <= end - p && Left(end) == rest
    {
      len := 0;
      ghost var t := Left(end);
      if end - p < 1 {
        return Failed(OutOfData), len;
      }
      if buf[p] < 0x80 {
        len := buf[p];
        p := p + 1;
      } else {
        var n: int := buf[p] - 0x80;
        if n == 0 || n > 4 {
          return Failed(InvalidLength), len;
        }
        if end - p <= n {
          return Failed(OutOfData), len;
        }
        Inside(buf, p, end, n);
        p := p + 1;
        len := ReadNumber(n);
      }
      if len > end - p {
        return Failed(OutOfData), len;
      }
      return Done, len;
    }

    /** Bytes as a number, the highest first. */
    method ReadNumber(n: nat) returns (value: nat)
      requires p + n <= |buf|
      modifies this
      ensures p == old(p) + n && value == Number(buf[old(p)..p])
    {
      ghost var start := p;
      value := 0;
      var left := n;
      while left > 0
        invariant p + left == start + n && start <= p && left >= 0
        invariant value == Number(buf[start..p])
      {
        assert buf[start..p + 1][..p - start] == buf[start..p];
        value := value * 256 + buf[p];
        p := p + 1;
        left := left - 1;
      }
    }

    method GetTag(end: nat, tag: byte) returns (ret: Status, len: nat)
      requires p <= end <= |buf|
      modifies this
      ensures old(p) <= p <= end
      ensures match Der.GetTag(old(Left(end)), tag)
        case Err(e) => ret == Failed(e)
        case Ok(n, rest) => ret == Done && len == n <= end - p && Left(end) == rest
    {
      hide Der.GetLen;
      ghost var t := Left(end);
      if end - p < 1 {
        return Failed(OutOfData), 0;
      }
      if buf[p] != tag {
        return Failed(UnexpectedTag), 0;
      }
      p := p + 1;
      assert Left(end) == t[1..];
      ret, len := GetLen(end);
    }

    method GetTaggedInt(end: nat, tag: byte) returns (ret: Status, val: nat)
      requires p <= end <= |buf|
      modifies this
      ensures old(p) <= p <= end
      ensures match Der.GetTaggedInt(old(Left(end)), tag)
        case Err(e) => ret == Failed(e)
        case Ok(v, rest) => ret == Done && val == v && Left(end) == rest
    {
      hide Der.GetTag, Number, LeadingZeros;
      val := 0;
      var len;
      ret, len := GetTag(end, tag);
      if ret != Done {
        return;
      }
      if len == 0 {
        return Failed(InvalidLength), val;
      }
      if buf[p] >= 0x80 {
        return Failed(InvalidLength), val;
      }
      Slices(buf, p, end, len);
      ghost var from, upTo := p, p + len;
      len := SkipZeros(len);
      Slices(buf, from, upTo, upTo - len - from);
      if len > 4 {
        return Failed(InvalidLength), val;
      }
      if len == 4 && buf[p] >= 0x80 {
        return Failed(InvalidLength), val;
      }
      val := ReadNumber(len);
    }

    method SkipZeros(total: nat) returns (len: nat)
      requires p + total <= |buf|
      modifies this
      ensures len <= total && p == old(p) + (total - len)
      ensures total - len == LeadingZeros(buf[old(p)..old(p) + total])
    {
      hide LeadingZeros;
      ghost var start := p;
      len := total;
      ZerosOfPart(buf, p, start + total);
      while len > 0 && buf[p] == 0
        invariant len <= total && p == start + (total - len)
        invariant total - len + LeadingZeros(buf[p..start + total]) == LeadingZeros(buf[start..start + total])
        decreases len
      {
        ZerosOfPart(buf, p, start + total);
        p := p + 1;
        len := len - 1;
      }
      ZerosOfPart(buf, p, start + total);
    }

    method GetBitString(end: nat) returns (ret: Status, bs: BitString)
      requires p <= end <= |buf|
      modifies this
      ensures old(p) <= p <= end
      ensures match Der.GetBitString(old(Left(end)))
        case Err(e) => ret == Failed(e)
        case Ok(v, rest) => ret == Done && bs == v && p == end && rest == []
    {
      hide Der.GetTag;
      bs := BitString(0, []);
      var len;
      ret, len := GetTag(end, TAG_BIT_STRING);
      if ret != Done {
        return;
      }
      if len < 1 {
        return Failed(OutOfData), bs;
      }
      ghost var rest := Left(end);
      len := len - 1;
      var unused := buf[p];
      if unused > 7 {
        return Failed(InvalidLength), bs;
      }
      p := p + 1;
      bs := BitString(unused, buf[p..p + len]);
      p := p + len;
      if p != end {
        return Failed(LengthMismatch), bs;
      }
      assert rest[1..] == bs.bytes;
      ret := Done;
    }

    /** Visits the entries of a list; the callback collects those that pass the second test until it fails. */
    method TraverseSequenceOf(end: nat, must: byte -> bool, may: byte -> bool, answers: nat -> int)
        returns (ret: Status, es: seq<Entry>)
      requires p <= end <= |buf|
      modifies this
      ensures old(p) <= p <= end
      ensures match Der.GetSequenceOf(old(Left(end)), must, may, answers)
        case Err(e) => ret == Failed(e)
        case Ok(all, rest) => ret == Done && es == all && p == end
    {
      hide Der.GetTag, Der.GetLen;
      es := [];
      var len;
      ret, len := GetTag(end, TAG_SEQUENCE);
      if ret != Done {
        return;
      }
      if p + len != end {
        return Failed(LengthMismatch), es;
      }
      ghost var all := Left(end);
      PrefixedNone(GetEntries(all, must, may, answers, 0));
      while p < end
        invariant old(p) <= p <= end && ret == Done
        invariant Prefixed(es, GetEntries(Left(end), must, may, answers, |es|)) == GetEntries(all, must, may, answers, 0)
        decreases end - p
      {
        var found;
        ret, found := NextEntry(end, must, may, answers, |es|);
        if ret != Done {
          return;
        }
        Deeper(es, found, GetEntries(Left(end), must, may, answers, |es + found|));
        es := es + found;
      }
      assert es + [] == es;
    }

    /** One round of the loop: an entry is passed over, and handed on if it passes the second test. */
    method NextEntry(end: nat, must: byte -> bool, may: byte -> bool, answers: nat -> int, calls: nat)
        returns (ret: Status, found: seq<Entry>)
      requires p < end <= |buf|
      modifies this
      ensures old(p) < p <= end
      ensures match ret
        case Failed(e) => GetEntries(old(Left(end)), must, may, answers, calls) == Err(e)
        case Done =>
          var rest := GetEntries(Left(end), must, may, answers, calls + |found|);
          GetEntries(old(Left(end)), must, may, answers, calls) == Prefixed(found, rest)
    {
      hide Der.GetLen;
      found := [];
      ghost var t := Left(end);
      var tag := buf[p];
      p := p + 1;
      assert Left(end) == t[1..];
      if !must(tag) {
        return Failed(UnexpectedTag), found;
      }
      var len;
      ret, len := GetLen(end);
      if ret != Done {
        return;
      }
      Slices(buf, p, end, len);
      if may(tag) {
        found := [Entry(tag, buf[p..p + len])];
        if answers(calls) != 0 {
          return Failed(Callback(answers(calls))), found;
        }
      } else {
        PrefixedNone(GetEntries(buf[p + len..end], must, may, answers, calls));
      }
      p := p + len;
    }

    method GetSequenceOf(end: nat, tag: byte, answers: nat -> int) returns (ret: Status, es: seq<Entry>)
      requires p <= end <= |buf|
      modifies this
      ensures old(p) <= p <= end
      ensures match Der.GetSequenceOf(old(Left(end)), x => x == tag, _ => true, answers)
        case Err(e) => ret == Failed(e)
        case Ok(all, rest) => ret == Done && es == all && p == end
    {
      ret, es := TraverseSequenceOf(end, x => x == tag, _ => true, answers);
    }
  }

  lemma ZerosOfPart(s: Bytes, a: nat, b: nat)
    requires a <= b <= |s|
    ensures LeadingZeros(s[a..b]) == if a < b && s[a] == 0 then 1 + LeadingZeros(s[a + 1..b]) else 0
  {
    if a < b {
      assert s[a..b][1..] == s[a + 1..b];
    }
  }

  lemma Inside<T>(s: seq<T>, a: nat, b: nat, n: nat)
    requires a + 1 + n <= b <= |s|
    ensures s[a..b][1..1 + n] == s[a + 1..a + 1 + n] && s[a..b][1 + n..] == s[a + 1 + n..b]
  {
    var t := s[a..b];
    assert t[1..] == s[a + 1..b];
    assert t[1..1 + n] == t[1..][..n] && t[1 + n..] == t[1..][n..];
    Slices(s, a + 1, b, n);
  }

  lemma Slices<T>(s: seq<T>, a: nat, b: nat, n: nat)
    requires a + n <= b <= |s|
    ensures s[a..b][..n] == s[a..a + n] && s[a..b][n..] == s[a + n..b]
  {
  }

  lemma PrefixedNone(r: Result<seq<Entry>>)
    ensures Prefixed([], r) == r
  {
    if r.Ok? {
      assert [] + r.value == r.value;
    }
  }

  lemma Deeper(es: seq<Entry>, more: seq<Entry>, r: Result<seq<Entry>>)
    ensures Prefixed(es, Prefixed(more, r)) == Prefixed(es + more, r) && es + [] == es
  {
    if r.Ok? {
      assert es + (more + r.value) == (es + more) + r.value;
    }
  }
}
