/** Big-endian counters: the byte-wise increment of aria.c and the word-wise one of ctr.h. */
module Counter {

  /** The number that the bytes spell, most significant byte first. */
  function BeNat(s: seq<bv8>): nat {
    if s == [] then 0 else BeNat(s[..|s| - 1]) * 256 + s[|s| - 1] as nat
  }

  function Pow256(n: nat): nat { if n == 0 then 1 else 256 * Pow256(n - 1) }

  /** The next counter value, wrapping after the last one. */
  function Inc(s: seq<bv8>): (r: seq<bv8>)
    ensures |r| == |s|
  {
    if s == [] then []
    else if s[|s| - 1] == 255 then Inc(s[..|s| - 1]) + [0]
    else s[..|s| - 1] + [s[|s| - 1] + 1]
  }

  lemma NatOfByte(x: bv8)
    ensures x as nat < 256 && (x as nat == 255 <==> x == 255) && (x != 255 ==> (x + 1) as nat == x as nat + 1)
  {
  }

  lemma {:induction false} BeNatBound(s: seq<bv8>)
    ensures BeNat(s) < Pow256(|s|)
  {
    if s != [] {
      BeNatBound(s[..|s| - 1]);
      NatOfByte(s[|s| - 1]);
    }
  }

  /** Inc adds one, modulo 256^n. */
  lemma {:induction false} IncAddsOne(s: seq<bv8>)
    ensures BeNat(Inc(s)) == if BeNat(s) + 1 == Pow256(|s|) then 0 else BeNat(s) + 1
  {
    if s != [] {
      var front := s[..|s| - 1];
      IncAddsOne(front);
      BeNatBound(front);
      NatOfByte(s[|s| - 1]);
      assert Inc(s)[..|s| - 1] == if s[|s| - 1] == 255 then Inc(front) else front;
    }
  }

  predicate AllOnes(s: seq<bv8>) { forall i :: 0 <= i < |s| ==> s[i] == 255 }

  /** No carry leaves the low part unless it is all ones. */
  lemma {:induction false} IncConcat(a: seq<bv8>, b: seq<bv8>)
    ensures Inc(a + b) == (if AllOnes(b) then Inc(a) else a) + Inc(b)
  {
    if b == [] {
      assert a + b == a;
      assert Inc(a) + [] == Inc(a);
    } else {
      var front := b[..|b| - 1];
      assert (a + b)[..|a + b| - 1] == a + front && (a + b)[|a + b| - 1] == b[|b| - 1];
      IncUnfolds(a + b);
      IncUnfolds(b);
      hide Inc, AllOnes;
      if b[|b| - 1] == 255 {
        IncConcat(a, front);
        var high := if AllOnes(front) then Inc(a) else a;
        Assoc(high, Inc(front), [0]);
      } else {
        Assoc(a, front, [b[|b| - 1] + 1]);
      }
    }
  }

  lemma IncUnfolds(s: seq<bv8>)
    requires s != []
    ensures var front := s[..|s| - 1];
      && Inc(s) == (if s[|s| - 1] == 255 then Inc(front) + [0] else front + [s[|s| - 1] + 1])
      && AllOnes(s) == (s[|s| - 1] == 255 && AllOnes(front))
  {
    assert s == s[..|s| - 1] + [s[|s| - 1]];
  }

  lemma Assoc<T>(a: seq<T>, b: seq<T>, c: seq<T>)
    ensures (a + b) + c == a + (b + c)
  {
  }

  lemma TakeLast<T>(s: seq<T>, i: nat)
    requires 0 < i <= |s|
    ensures s[..i] == s[..i - 1] + [s[i - 1]]
  {
  }

  /** The loop of mbedtls_aria_crypt_ctr: byte by byte from the end until one does not wrap. */
  method IncrementBytes(n: array<bv8>)
    requires n.Length == 16
    modifies n
    ensures n[..] == Inc(old(n[..]))
  {
    ghost var was := n[..];
    var i := 16;
    assert was[..16] == was && n[16..] == [];
    while i > 0
      invariant 0 <= i <= 16 && n[..i] == was[..i] && Inc(was[..i]) + n[i..] == Inc(was)
    {
      ghost var tail := n[i..];
      TakeLast(was, i);
      IncConcat(was[..i - 1], [was[i - 1]]);
      assert was[i - 1] == n[..i][i - 1];
      n[i - 1] := n[i - 1] + 1;
      Splice(was[..i - 1], n[i - 1], tail, n[..], i - 1);
      Assoc(if was[i - 1] == 255 then Inc(was[..i - 1]) else was[..i - 1], [n[i - 1]], tail);
      if n[i - 1] != 0 {
        return;
      }
      i := i - 1;
    }
  }

  lemma Splice<T>(head: seq<T>, x: T, tail: seq<T>, s: seq<T>, i: nat)
    requires |head| == i < |s| && s[..i] == head && s[i] == x && s[i + 1..] == tail
    ensures s == head + ([x] + tail) && s[i..] == [x] + tail
  {
  }

  /** MBEDTLS_GET_UINT32_BE of four bytes. */
  function GetBe32(a: bv8, b: bv8, c: bv8, d: bv8): bv32 {
    (a as bv32 << 24) | (b as bv32 << 16) | (c as bv32 << 8) | d as bv32
  }

  /** The bytes MBEDTLS_PUT_UINT32_BE stores. */
  function Byte0(x: bv32): bv8 { (x >> 24) as bv8 }
  function Byte1(x: bv32): bv8 { ((x >> 16) & 0xff) as bv8 }
  function Byte2(x: bv32): bv8 { ((x >> 8) & 0xff) as bv8 }
  function Byte3(x: bv32): bv8 { (x & 0xff) as bv8 }

  function Be32(x: bv32): (s: seq<bv8>)
    ensures |s| == 4
  {
    [Byte0(x), Byte1(x), Byte2(x), Byte3(x)]
  }

  lemma Carry3(a: bv8, b: bv8, c: bv8, d: bv8)
    ensures Byte3(GetBe32(a, b, c, d) + 1) == d + 1
    ensures Byte2(GetBe32(a, b, c, d) + 1) == if d == 255 then c + 1 else c
  {
  }

  lemma Carry1(a: bv8, b: bv8, c: bv8, d: bv8)
    ensures Byte1(GetBe32(a, b, c, d) + 1) == if d == 255 && c == 255 then b + 1 else b
  {
  }

  lemma Carry0(a: bv8, b: bv8, c: bv8, d: bv8)
    ensures Byte0(GetBe32(a, b, c, d) + 1) == if d == 255 && c == 255 && b == 255 then a + 1 else a
  {
  }

  lemma WrapsToZero(a: bv8, b: bv8, c: bv8, d: bv8)
    ensures GetBe32(a, b, c, d) + 1 == 0 <==> d == 255 && c == 255 && b == 255 && a == 255
  {
  }

  lemma IncSnoc(s: seq<bv8>, x: bv8)
    ensures Inc(s + [x]) == if x == 255 then Inc(s) + [0] else s + [x + 1]
  {
    assert (s + [x])[..|s|] == s;
  }

  /** Inc on four bytes, each next byte changing only when all the lower ones wrap. */
  lemma IncFour(a: bv8, b: bv8, c: bv8, d: bv8)
    ensures Inc([a, b, c, d]) ==
            [if d == 255 && c == 255 && b == 255 then a + 1 else a, if d == 255 && c == 255 then b + 1 else b,
             if d == 255 then c + 1 else c, d + 1]
  {
    IncSnoc([], a);
    IncSnoc([a], b);
    IncSnoc([a, b], c);
    IncSnoc([a, b, c], d);
    hide Inc;
    assert [] + [a] == [a] && [a] + [b] == [a, b] && [a, b] + [c] == [a, b, c] && [a, b, c] + [d] == [a, b, c, d];
  }

  lemma AllOnesFour(a: bv8, b: bv8, c: bv8, d: bv8)
    ensures AllOnes([a, b, c, d]) <==> d == 255 && c == 255 && b == 255 && a == 255
  {
    var w := [a, b, c, d];
    assert w[0] == a && w[1] == b && w[2] == c && w[3] == d;
  }

  /** Adding one to the 32-bit word is Inc on its four bytes. */
  lemma WordIncremented(a: bv8, b: bv8, c: bv8, d: bv8)
    ensures Be32(GetBe32(a, b, c, d) + 1) == Inc([a, b, c, d])
    ensures GetBe32(a, b, c, d) + 1 == 0 <==> AllOnes([a, b, c, d])
  {
    hide GetBe32, Byte0, Byte1, Byte2, Byte3, Inc, AllOnes;
    Carry3(a, b, c, d);
    Carry1(a, b, c, d);
    Carry0(a, b, c, d);
    WrapsToZero(a, b, c, d);
    IncFour(a, b, c, d);
    AllOnesFour(a, b, c, d);
  }

  /** mbedtls_ctr_increment_counter: 32-bit big-endian words from the end, each stored back,
      until one does not wrap to zero. */
  method IncrementWords(n: array<bv8>)
    requires n.Length == 16
    modifies n
    ensures n[..] == Inc(old(n[..]))
  {
    hide Inc, AllOnes;
    ghost var was := n[..];
    var i := 3;
    assert was[..16] == was && n[16..] == [];
    while true
      invariant 0 <= i <= 3
      invariant n[..4 * i + 4] == was[..4 * i + 4] && Inc(was[..4 * i + 4]) + n[4 * i + 4..] == Inc(was)
      decreases i
    {
      ghost var head, word, tail := was[..4 * i], n[4 * i..4 * i + 4], n[4 * i + 4..];
      Cut(was, n[..], 4 * i);
      IncConcat(head, word);
      var x := IncrementWord(n, 4 * i);
      Assoc(if AllOnes(word) then Inc(head) else head, Inc(word), tail);
      Prefix(head, Inc(word) + tail);
      if x != 0 || i == 0 {
        IncOfNothing(head);
        break;
      }
      i := i - 1;
    }
  }

  /** One word read, incremented and stored back; it is zero exactly when all its bytes wrapped. */
  method IncrementWord(n: array<bv8>, p: nat) returns (x: bv32)
    requires p + 4 <= n.Length
    modifies n
    ensures n[..] == old(n[..p]) + (Inc(old(n[p..p + 4])) + old(n[p + 4..]))
    ensures x == 0 <==> AllOnes(old(n[p..p + 4]))
  {
    hide Inc, GetBe32, Be32, AllOnes;
    ghost var word := n[p..p + 4];
    assert word == [n[p], n[p + 1], n[p + 2], n[p + 3]];
    WordIncremented(n[p], n[p + 1], n[p + 2], n[p + 3]);
    x := GetBe32(n[p], n[p + 1], n[p + 2], n[p + 3]) + 1;
    PutWord(n, p, Be32(x));
  }

  lemma Prefix<T>(a: seq<T>, b: seq<T>)
    ensures (a + b)[..|a|] == a && (a + b)[|a|..] == b
  {
  }

  lemma IncOfNothing(s: seq<bv8>)
    ensures s == [] ==> Inc(s) == s
  {
  }

  lemma Cut<T>(was: seq<T>, n: seq<T>, p: nat)
    requires p + 4 <= |was| == |n| && n[..p + 4] == was[..p + 4]
    ensures was[..p + 4] == was[..p] + n[p..p + 4] && n[..p] == was[..p]
    ensures n == was[..p] + n[p..p + 4] + n[p + 4..]
  {
    assert n[..p + 4][..p] == n[..p] && n[..p + 4][p..] == n[p..p + 4] && was[..p + 4][..p] == was[..p];
  }

  method PutWord(n: array<bv8>, at: nat, bytes: seq<bv8>)
    requires |bytes| == 4 && at + 4 <= n.Length
    modifies n
    ensures n[..] == old(n[..at]) + (bytes + old(n[at + 4..]))
  {
    n[at] := bytes[0];
    n[at + 1] := bytes[1];
    n[at + 2] := bytes[2];
    n[at + 3] := bytes[3];
  }
}
