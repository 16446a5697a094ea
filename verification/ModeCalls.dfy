/** What two calls of the mode functions make of each other's output, on the buffers themselves. */
module ModeCalls {
  import opened GF256
  import opened StreamRun
  import opened Modes
  import opened Aes
  import opened AesModes

  /** The block-at-a-time and the byte-at-a-time loop agree on every call. */
  method CtrLoopsAgree(E: Block -> Block, length: nat, ncOff: nat,
                       counter1: array<bv8>, stream1: array<bv8>, input1: array<bv8>, output1: array<bv8>,
                       counter2: array<bv8>, stream2: array<bv8>, input2: array<bv8>, output2: array<bv8>)
      returns (off1: nat, off2: nat)
    requires Separate(counter1, stream1, input1, output1, length) && Separate(counter2, stream2, input2, output2, length)
    requires counter2 !in {counter1, stream1, output1} && stream2 !in {counter1, stream1, output1}
    requires input2 !in {counter1, stream1, output1} && output2 !in {counter1, stream1, output1}
    requires counter1[..] == counter2[..] && stream1[..] == stream2[..] && input1[..length] == input2[..length]
    modifies counter1, stream1, output1, counter2, stream2, output2
    ensures off1 == off2 && counter1[..] == counter2[..] && stream1[..] == stream2[..]
    ensures ncOff < 16 ==> output1[..length] == output2[..length]
  {
    hide CtrStep, Run;
    ghost var before := Counting(counter1[..], stream1[..], ncOff % 16);
    ghost var xs := input1[..length];
    var ret1, ret2;
    ret1, off1 := AriaCryptCtr(E, length, ncOff, counter1, stream1, input1, output1);
    assert ncOff < 16 ==> Run(Ctr(E), before, xs) == (Counting(counter1[..], stream1[..], off1), output1[..length]);
    ret2, off2 := AesCryptCtr(E, length, ncOff, counter2, stream2, input2, output2);
    assert ncOff < 16 ==> Run(Ctr(E), before, xs) == (Counting(counter2[..], stream2[..], off2), output2[..length]);
  }

  // ---- A call that is undone by another one, in place ----

  lemma SameBlocks(s: seq<bv8>, t: seq<bv8>)
    requires |s| == |t| && |s| % 16 == 0 && Blocks(s) == Blocks(t)
    ensures s == t
  {
    forall i | 0 <= i < |s|
      ensures s[i] == t[i]
    {
      assert Blocks(s)[i / 16] == Blocks(t)[i / 16];
      assert s[i] == BlockAt(s, i / 16)[i % 16] && t[i] == BlockAt(t, i / 16)[i % 16];
    }
  }

  lemma SameParts<T>(s: seq<T>, t: seq<T>, n: nat)
    requires n <= |s| == |t| && s[..n] == t[..n] && s[n..] == t[n..]
    ensures s == t
  {
    assert s == s[..n] + s[n..] && t == t[..n] + t[n..];
  }

  /** CBC: also when the length is refused, which happens both times. */
  method CbcThereAndBack(E: Block -> Block, D: Block -> Block, length: nat, iv: array<bv8>, ivBack: array<bv8>,
                         buffer: array<bv8>)
    requires forall b :: D(E(b)) == b
    requires iv.Length == 16 == ivBack.Length && iv != ivBack && buffer != iv && buffer != ivBack
    requires length <= buffer.Length && iv[..] == ivBack[..]
    modifies iv, ivBack, buffer
    ensures buffer[..] == old(buffer[..]) && iv[..] == ivBack[..]
  {
    hide Run, CbcEnc, CbcDec, Blocks;
    ghost var iv0, was := iv[..], buffer[..];
    var ret := CryptCbc(E, D, AES_ENCRYPT, length, iv, buffer, buffer);
    ghost var cipher := buffer[..length];
    if length % 16 == 0 {
      CbcUndone(E, D, iv0, Blocks(was[..length]));
      assert was[..length] == old(buffer[..length]);
    }
    ret := CryptCbc(E, D, AES_DECRYPT, length, ivBack, buffer, buffer);
    if length % 16 == 0 {
      SameBlocks(buffer[..length], was[..length]);
      SameParts(buffer[..], was, length);
    }
  }

  method CfbThereAndBack(E: Block -> Block, length: nat, ivOff: nat, iv: array<bv8>, ivBack: array<bv8>,
                         buffer: array<bv8>)
      returns (off: nat, offBack: nat)
    requires iv.Length == 16 == ivBack.Length && iv != ivBack && buffer != iv && buffer != ivBack
    requires length <= buffer.Length && iv[..] == ivBack[..]
    modifies iv, ivBack, buffer
    ensures buffer[..] == old(buffer[..]) && iv[..] == ivBack[..] && off == offBack
  {
    hide Run, CfbEnc, CfbDec;
    ghost var iv0, was := iv[..], buffer[..];
    var ret;
    ret, off := CryptCfb128(E, AES_ENCRYPT, length, ivOff, iv, buffer, buffer);
    ret, offBack := CryptCfb128(E, AES_DECRYPT, length, ivOff, ivBack, buffer, buffer);
    if ivOff <= 15 {
      CfbUndone(E, Feedback(iv0, ivOff), was[..length]);
      SameParts(buffer[..], was, length);
    }
  }

  method Cfb8ThereAndBack(E: Block -> Block, length: nat, iv: array<bv8>, ivBack: array<bv8>, buffer: array<bv8>)
    requires iv.Length == 16 == ivBack.Length && iv != ivBack && buffer != iv && buffer != ivBack
    requires length <= buffer.Length && iv[..] == ivBack[..]
    modifies iv, ivBack, buffer
    ensures buffer[..] == old(buffer[..]) && iv[..] == ivBack[..]
  {
    hide Run, Cfb8Enc, Cfb8Dec;
    ghost var iv0, was := iv[..], buffer[..];
    var ret := CryptCfb8(E, AES_ENCRYPT, length, iv, buffer, buffer);
    ret := CryptCfb8(E, AES_DECRYPT, length, ivBack, buffer, buffer);
    Cfb8Undone(E, iv0, was[..length]);
    SameParts(buffer[..], was, length);
  }

  method OfbThereAndBack(E: Block -> Block, length: nat, ivOff: nat, iv: array<bv8>, ivBack: array<bv8>,
                         buffer: array<bv8>)
      returns (off: nat, offBack: nat)
    requires iv.Length == 16 == ivBack.Length && iv != ivBack && buffer != iv && buffer != ivBack
    requires length <= buffer.Length && iv[..] == ivBack[..]
    modifies iv, ivBack, buffer
    ensures buffer[..] == old(buffer[..]) && iv[..] == ivBack[..] && off == offBack
  {
    hide Run, Ofb;
    ghost var iv0, was := iv[..], buffer[..];
    var ret;
    ret, off := CryptOfb(E, length, ivOff, iv, buffer, buffer);
    ret, offBack := CryptOfb(E, length, ivOff, ivBack, buffer, buffer);
    if ivOff <= 15 {
      OfbUndone(E, Feedback(iv0, ivOff), was[..length]);
      SameParts(buffer[..], was, length);
    }
  }

  /** CTR: the AES loop is undone by the ARIA loop over the same block function. */
  method CtrThereAndBack(E: Block -> Block, length: nat, ncOff: nat, counter: array<bv8>, stream: array<bv8>,
                         counterBack: array<bv8>, streamBack: array<bv8>, buffer: array<bv8>)
      returns (off: nat, offBack: nat)
    requires Separate(counter, stream, buffer, buffer, length) && Separate(counterBack, streamBack, buffer, buffer, length)
    requires counterBack !in {counter, stream} && streamBack !in {counter, stream}
    requires counter[..] == counterBack[..] && stream[..] == streamBack[..]
    modifies counter, stream, counterBack, streamBack, buffer
    ensures buffer[..] == old(buffer[..]) && off == offBack
    ensures counter[..] == counterBack[..] && stream[..] == streamBack[..]
  {
    hide Run, Ctr;
    ghost var counter0, stream0, was := counter[..], stream[..], buffer[..];
    var ret;
    ret, off := AesCryptCtr(E, length, ncOff, counter, stream, buffer, buffer);
    ret, offBack := AriaCryptCtr(E, length, ncOff, counterBack, streamBack, buffer, buffer);
    if ncOff <= 15 {
      CtrUndone(E, Counting(counter0, stream0, ncOff), was[..length]);
      SameParts(buffer[..], was, length);
    }
  }

  // ---- One call, or the same bytes in two calls with the saved state in between ----

  lemma Whole<T>(s: seq<T>)
    ensures s[..|s|] == s && s[|s|..] == []
  {
  }

  /** Three calls at work in place, on a whole buffer and on its two parts. */
  ghost predicate Parts(iv: array<bv8>, ivParts: array<bv8>, whole: array<bv8>, front: array<bv8>, back: array<bv8>)
    reads iv, ivParts, whole, front, back
  {
    && iv.Length == 16 == ivParts.Length && iv[..] == ivParts[..] && whole[..] == front[..] + back[..]
    && iv !in {ivParts, whole, front, back} && ivParts !in {whole, front, back}
    && whole !in {front, back} && front != back
  }

  method CfbInTwoCalls(E: Block -> Block, mode: int, ivOff: nat, iv: array<bv8>, ivParts: array<bv8>,
                       whole: array<bv8>, front: array<bv8>, back: array<bv8>)
      returns (off: nat, offParts: nat)
    requires Parts(iv, ivParts, whole, front, back)
    modifies iv, ivParts, whole, front, back
    ensures whole[..] == front[..] + back[..] && iv[..] == ivParts[..] && off == offParts
  {
    hide Run, CfbEnc, CfbDec;
    ghost var step, s := if mode == AES_DECRYPT then CfbDec(E) else CfbEnc(E), iv[..];
    ghost var xs, ys := front[..], back[..];
    Whole(xs);
    Whole(ys);
    Whole(xs + ys);
    var ret;
    ret, off := CryptCfb128(E, mode, whole.Length, ivOff, iv, whole, whole);
    ret, offParts := CryptCfb128(E, mode, front.Length, ivOff, ivParts, front, front);
    ret, offParts := CryptCfb128(E, mode, back.Length, offParts, ivParts, back, back);
    if ivOff <= 15 && mode in {AES_ENCRYPT, AES_DECRYPT} {
      RunConcat(step, Feedback(s, ivOff), xs, ys);
      Whole(whole[..]);
      Whole(front[..]);
      Whole(back[..]);
    }
  }

  method Cfb8InTwoCalls(E: Block -> Block, mode: int, iv: array<bv8>, ivParts: array<bv8>,
                        whole: array<bv8>, front: array<bv8>, back: array<bv8>)
    requires Parts(iv, ivParts, whole, front, back)
    modifies iv, ivParts, whole, front, back
    ensures whole[..] == front[..] + back[..] && iv[..] == ivParts[..]
  {
    hide Run, Cfb8Enc, Cfb8Dec;
    ghost var step: (Block, bv8) -> (Block, bv8) := if mode == AES_DECRYPT then Cfb8Dec(E) else Cfb8Enc(E);
    ghost var s: Block := iv[..];
    ghost var xs, ys := front[..], back[..];
    Whole(xs);
    Whole(ys);
    Whole(xs + ys);
    var ret := CryptCfb8(E, mode, whole.Length, iv, whole, whole);
    ret := CryptCfb8(E, mode, front.Length, ivParts, front, front);
    ret := CryptCfb8(E, mode, back.Length, ivParts, back, back);
    if mode in {AES_ENCRYPT, AES_DECRYPT} {
      RunConcat<Block, bv8, bv8>(step, s, xs, ys);
      Whole(whole[..]);
      Whole(front[..]);
      Whole(back[..]);
    }
  }

  method OfbInTwoCalls(E: Block -> Block, ivOff: nat, iv: array<bv8>, ivParts: array<bv8>,
                       whole: array<bv8>, front: array<bv8>, back: array<bv8>)
      returns (off: nat, offParts: nat)
    requires Parts(iv, ivParts, whole, front, back)
    modifies iv, ivParts, whole, front, back
    ensures whole[..] == front[..] + back[..] && iv[..] == ivParts[..] && off == offParts
  {
    hide Run, Ofb;
    ghost var s, xs, ys := iv[..], front[..], back[..];
    Whole(xs);
    Whole(ys);
    Whole(xs + ys);
    var ret;
    ret, off := CryptOfb(E, whole.Length, ivOff, iv, whole, whole);
    ret, offParts := CryptOfb(E, front.Length, ivOff, ivParts, front, front);
    ret, offParts := CryptOfb(E, back.Length, offParts, ivParts, back, back);
    if ivOff <= 15 {
      RunConcat(Ofb(E), Feedback(s, ivOff), xs, ys);
      Whole(whole[..]);
      Whole(front[..]);
      Whole(back[..]);
    }
  }

  /** CTR: a stream block begun by one call is used up by the next, although the loop takes whole blocks. */
  method CtrInTwoCalls(E: Block -> Block, ncOff: nat, counter: array<bv8>, stream: array<bv8>,
                       counterParts: array<bv8>, streamParts: array<bv8>,
                       whole: array<bv8>, front: array<bv8>, back: array<bv8>)
      returns (off: nat, offParts: nat)
    requires Parts(counter, counterParts, whole, front, back) && Parts(stream, streamParts, whole, front, back)
    requires counter !in {stream, streamParts} && counterParts !in {stream, streamParts}
    modifies counter, stream, counterParts, streamParts, whole, front, back
    ensures whole[..] == front[..] + back[..] && off == offParts
    ensures counter[..] == counterParts[..] && stream[..] == streamParts[..]
  {
    hide Run, Ctr;
    ghost var s, xs, ys := (counter[..], stream[..]), front[..], back[..];
    Whole(xs);
    Whole(ys);
    Whole(xs + ys);
    var ret;
    ret, off := AesCryptCtr(E, whole.Length, ncOff, counter, stream, whole, whole);
    ret, offParts := AesCryptCtr(E, front.Length, ncOff, counterParts, streamParts, front, front);
    ret, offParts := AesCryptCtr(E, back.Length, offParts, counterParts, streamParts, back, back);
    if ncOff <= 15 {
      RunConcat(Ctr(E), Counting(s.0, s.1, ncOff), xs, ys);
      Whole(whole[..]);
      Whole(front[..]);
      Whole(back[..]);
    }
  }

  lemma PieceOfFront<T>(s: seq<T>, t: seq<T>, i: nat, j: nat)
    requires i <= j <= |s|
    ensures (s + t)[i..j] == s[i..j]
  {
  }

  lemma PieceOfBack<T>(s: seq<T>, t: seq<T>, i: nat, j: nat)
    requires |s| <= i <= j <= |s| + |t|
    ensures (s + t)[i..j] == t[i - |s|..j - |s|]
  {
  }

  lemma BlocksConcat(s: seq<bv8>, t: seq<bv8>)
    requires |s| % 16 == 0 && |t| % 16 == 0
    ensures Blocks(s + t) == Blocks(s) + Blocks(t)
  {
    forall j | 0 <= j < |Blocks(s + t)|
      ensures Blocks(s + t)[j] == (Blocks(s) + Blocks(t))[j]
    {
      if 16 * j < |s| {
        PieceOfFront(s, t, 16 * j, 16 * j + 16);
      } else {
        PieceOfBack(s, t, 16 * j, 16 * j + 16);
      }
    }
  }

  /** CBC: both parts are whole blocks; any other length is refused. */
  method CbcInTwoCalls(E: Block -> Block, D: Block -> Block, mode: int, iv: array<bv8>, ivParts: array<bv8>,
                       whole: array<bv8>, front: array<bv8>, back: array<bv8>)
    requires Parts(iv, ivParts, whole, front, back) && front.Length % 16 == 0 && back.Length % 16 == 0
    modifies iv, ivParts, whole, front, back
    ensures whole[..] == front[..] + back[..] && iv[..] == ivParts[..]
  {
    hide Run, CbcEnc, CbcDec, Blocks;
    ghost var step: (Block, Block) -> (Block, Block) := if mode == AES_DECRYPT then CbcDec(D) else CbcEnc(E);
    ghost var s: Block := iv[..];
    ghost var xs, ys := front[..], back[..];
    Whole(xs);
    Whole(ys);
    Whole(xs + ys);
    BlocksConcat(xs, ys);
    var ret := CryptCbc(E, D, mode, whole.Length, iv, whole, whole);
    ret := CryptCbc(E, D, mode, front.Length, ivParts, front, front);
    ret := CryptCbc(E, D, mode, back.Length, ivParts, back, back);
    if mode in {AES_ENCRYPT, AES_DECRYPT} {
      RunConcat<Block, Block, Block>(step, s, Blocks(xs), Blocks(ys));
      Whole(whole[..]);
      Whole(front[..]);
      Whole(back[..]);
      BlocksConcat(front[..], back[..]);
      SameBlocks(whole[..], front[..] + back[..]);
    }
  }
}
