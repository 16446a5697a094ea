/** The mode loops of aes.c and aria.c over byte buffers, each proved to run the machine of its
    mode. The block function is any function on blocks; output may be the input buffer. */
module AesModes {
  import opened GF256
  import opened StreamRun
  import opened Modes
  import opened Aes
  import Aria
  import Counter

  const AES_ENCRYPT: int := 1
  const AES_DECRYPT: int := 0
  const ERR_AES_BAD_INPUT_DATA: int := -0x0021
  const ERR_AES_INVALID_INPUT_LENGTH: int := -0x0022

  /** memcpy of one block to the start of a buffer of one block. */
  method SetBlock(dst: array<bv8>, src: Block)
    requires dst.Length == 16
    modifies dst
    ensures dst[..] == src
  {
    for i := 0 to 16
      invariant dst[..i] == src[..i]
    {
      dst[i] := src[i];
    }
  }

  // ---- One pass of each loop body: refill the register when it is used up, then one byte ----

  method CfbDecByte(E: Block -> Block, n: nat, iv: array<bv8>, c: bv8) returns (p: bv8, next: nat)
    requires iv.Length == 16 && n < 16
    modifies iv
    ensures next < 16 && (Feedback(iv[..], next), p) == CfbDecStep(E, Feedback(old(iv[..]), n), c)
  {
    hide Add;
    if n == 0 {
      SetBlock(iv, E(iv[..]));
    }
    p := Add(c, iv[n]);
    iv[n] := c;
    next := (n + 1) % 16;
  }

  method CfbEncByte(E: Block -> Block, n: nat, iv: array<bv8>, p: bv8) returns (c: bv8, next: nat)
    requires iv.Length == 16 && n < 16
    modifies iv
    ensures next < 16 && (Feedback(iv[..], next), c) == CfbEncStep(E, Feedback(old(iv[..]), n), p)
  {
    hide Add;
    if n == 0 {
      SetBlock(iv, E(iv[..]));
    }
    c := Add(iv[n], p);
    iv[n] := c;
    next := (n + 1) % 16;
  }

  method OfbByte(E: Block -> Block, n: nat, iv: array<bv8>, x: bv8) returns (y: bv8, next: nat)
    requires iv.Length == 16 && n < 16
    modifies iv
    ensures next < 16 && (Feedback(iv[..], next), y) == OfbStep(E, Feedback(old(iv[..]), n), x)
  {
    hide Add;
    if n == 0 {
      SetBlock(iv, E(iv[..]));
    }
    y := Add(x, iv[n]);
    next := (n + 1) % 16;
  }

  /** The loop has run the machine over the first i bytes of xs; the rest of the input is still
      there to be read even when it shares the output buffer. */
  ghost predicate RunSoFar<S>(step: (S, bv8) -> (S, bv8), s0: S, xs: seq<bv8>, i: nat, s: S,
                              input: array<bv8>, output: array<bv8>, rest: seq<bv8>)
    reads input, output
  {
    && i <= |xs| <= input.Length && |xs| <= output.Length
    && (forall j :: i <= j < |xs| ==> input[j] == xs[j])
    && Run(step, s0, xs[..i]) == (s, output[..i])
    && output[|xs|..] == rest
  }

  /** Storing the output of one more step. */
  method Store<S>(ghost step: (S, bv8) -> (S, bv8), ghost s0: S, ghost xs: seq<bv8>, i: nat, ghost s: S, ghost t: S,
                  input: array<bv8>, output: array<bv8>, ghost rest: seq<bv8>, y: bv8)
    requires RunSoFar(step, s0, xs, i, s, input, output, rest) && i < |xs| && step(s, xs[i]) == (t, y)
    modifies output
    ensures RunSoFar(step, s0, xs, i + 1, t, input, output, rest)
  {
    RunSnoc(step, s0, xs[..i], xs[i]);
    ghost var done := output[..i];
    output[i] := y;
    assert xs[..i + 1] == xs[..i] + [xs[i]] && output[..i + 1] == done + [y];
  }

  /** What a call that ran a machine over its whole input leaves behind. */
  ghost predicate Ran<S>(step: (S, bv8) -> (S, bv8), s0: S, xs: seq<bv8>, s: S, output: array<bv8>, rest: seq<bv8>)
    requires |xs| <= output.Length
    reads output
  {
    Run(step, s0, xs) == (s, output[..|xs|]) && output[|xs|..] == rest
  }

  // ---- The mode functions ----

  /** mbedtls_aes_crypt_cfb128 */
  method CryptCfb128(E: Block -> Block, mode: int, length: nat, ivOff: nat, iv: array<bv8>, input: array<bv8>,
          output: array<bv8>)
      returns (ret: int, newOff: nat)
    requires iv.Length == 16 && length <= input.Length && length <= output.Length && iv != input && iv != output
    modifies iv, output
    ensures mode !in {AES_ENCRYPT, AES_DECRYPT} || 15 < ivOff ==>
              ret == ERR_AES_BAD_INPUT_DATA && newOff == ivOff && iv[..] == old(iv[..]) && output[..] == old(output[..])
    ensures mode in {AES_ENCRYPT, AES_DECRYPT} && ivOff <= 15 ==>
              ret == 0 && newOff < 16 &&
              Ran(if mode == AES_DECRYPT then CfbDec(E) else CfbEnc(E), Feedback(old(iv[..]), ivOff),
                      old(input[..length]),
                  Feedback(iv[..], newOff), output, old(output[length..]))
  {
    hide CfbDecStep, CfbEncStep;
    newOff := ivOff;
    if mode != AES_ENCRYPT && mode != AES_DECRYPT {
      return ERR_AES_BAD_INPUT_DATA, newOff;
    }
    var n := ivOff;
    if n > 15 {
      return ERR_AES_BAD_INPUT_DATA, newOff;
    }
    ghost var xs, rest := input[..length], output[length..];
    ghost var s0 := Feedback(iv[..], n);
    var i := 0;
    if mode == AES_DECRYPT {
      while i < length
        invariant n < 16 && RunSoFar(CfbDec(E), s0, xs, i, Feedback(iv[..], n), input, output, rest)
      {
        ghost var s := Feedback(iv[..], n);
        var y, next := CfbDecByte(E, n, iv, input[i]);
        Store(CfbDec(E), s0, xs, i, s, Feedback(iv[..], next), input, output, rest, y);
        i, n := i + 1, next;
      }
    } else {
      while i < length
        invariant n < 16 && RunSoFar(CfbEnc(E), s0, xs, i, Feedback(iv[..], n), input, output, rest)
      {
        ghost var s := Feedback(iv[..], n);
        var y, next := CfbEncByte(E, n, iv, input[i]);
        Store(CfbEnc(E), s0, xs, i, s, Feedback(iv[..], next), input, output, rest, y);
        i, n := i + 1, next;
      }
    }
    assert xs[..length] == xs;
    newOff := n;
    ret := 0;
  }

  /** One pass of the CFB8 loop, through the 17-byte shift buffer ov. */
  method Cfb8Byte(E: Block -> Block, mode: int, iv: array<bv8>, x: bv8) returns (c: bv8)
    requires iv.Length == 16 && mode in {AES_ENCRYPT, AES_DECRYPT}
    modifies iv
    ensures (iv[..], c) == if mode == AES_DECRYPT then Cfb8DecStep(E, old(iv[..]), x) else Cfb8EncStep(E, old(iv[..]), x)
  {
    hide Add;
    var ov := iv[..];
    ghost var was := ov;
    SetBlock(iv, E(iv[..]));
    c := Add(iv[0], x);
    if mode == AES_DECRYPT {
      ov := ov + [x];
    } else {
      ov := ov + [c];
    }
    assert ov[1..] == was[1..] + ov[16..];
    SetBlock(iv, ov[1..]);
  }

  /** mbedtls_aes_crypt_cfb8 */
  method CryptCfb8(E: Block -> Block, mode: int, length: nat, iv: array<bv8>, input: array<bv8>, output: array<bv8>)
      returns (ret: int)
    requires iv.Length == 16 && length <= input.Length && length <= output.Length && iv != input && iv != output
    modifies iv, output
    ensures mode !in {AES_ENCRYPT, AES_DECRYPT} ==>
              ret == ERR_AES_BAD_INPUT_DATA && iv[..] == old(iv[..]) && output[..] == old(output[..])
    ensures mode in {AES_ENCRYPT, AES_DECRYPT} ==>
              ret == 0 &&
              Ran<Block>(if mode == AES_DECRYPT then Cfb8Dec(E) else Cfb8Enc(E), old(iv[..]), old(input[..length]),
                  iv[..], output, old(output[length..]))
  {
    hide Cfb8DecStep, Cfb8EncStep;
    if mode != AES_ENCRYPT && mode != AES_DECRYPT {
      return ERR_AES_BAD_INPUT_DATA;
    }
    ghost var step: (Block, bv8) -> (Block, bv8) := if mode == AES_DECRYPT then Cfb8Dec(E) else Cfb8Enc(E);
    ghost var xs, rest := input[..length], output[length..];
    ghost var s0: Block := iv[..];
    var i := 0;
    while i < length
      invariant RunSoFar<Block>(step, s0, xs, i, iv[..], input, output, rest)
    {
      ghost var s: Block := iv[..];
      var c := Cfb8Byte(E, mode, iv, input[i]);
      Store<Block>(step, s0, xs, i, s, iv[..], input, output, rest, c);
      i := i + 1;
    }
    assert xs[..length] == xs;
    ret := 0;
  }

  /** mbedtls_aes_crypt_ofb */
  method CryptOfb(E: Block -> Block, length: nat, ivOff: nat, iv: array<bv8>, input: array<bv8>, output: array<bv8>)
      returns (ret: int, newOff: nat)
    requires iv.Length == 16 && length <= input.Length && length <= output.Length && iv != input && iv != output
    modifies iv, output
    ensures 15 < ivOff ==>
              ret == ERR_AES_BAD_INPUT_DATA && newOff == ivOff && iv[..] == old(iv[..]) && output[..] == old(output[..])
    ensures ivOff <= 15 ==>
              ret == 0 && newOff < 16 &&
              Ran(Ofb(E), Feedback(old(iv[..]), ivOff), old(input[..length]), Feedback(iv[..], newOff), output,
                      old(output[length..]))
  {
    hide OfbStep;
    newOff := ivOff;
    var n := ivOff;
    if n > 15 {
      return ERR_AES_BAD_INPUT_DATA, newOff;
    }
    ghost var xs, rest := input[..length], output[length..];
    ghost var s0 := Feedback(iv[..], n);
    var i := 0;
    while i < length
      invariant n < 16 && RunSoFar(Ofb(E), s0, xs, i, Feedback(iv[..], n), input, output, rest)
    {
      ghost var s := Feedback(iv[..], n);
      var y, next := OfbByte(E, n, iv, input[i]);
      Store(Ofb(E), s0, xs, i, s, Feedback(iv[..], next), input, output, rest, y);
      i, n := i + 1, next;
    }
    assert xs[..length] == xs;
    newOff := n;
    ret := 0;
  }

  // ---- Counter mode ----

  method CtrByte(E: Block -> Block, n: nat, counter: array<bv8>, stream: array<bv8>, x: bv8) returns (y: bv8, next: nat)
    requires counter.Length == 16 && stream.Length == 16 && counter != stream && n < 16
    modifies counter, stream
    ensures next < 16
    ensures (Counting(counter[..], stream[..], next), y) == CtrStep(E, Counting(old(counter[..]), old(stream[..]), n), x)
  {
    hide Add, Counter.Inc;
    if n == 0 {
      SetBlock(stream, E(counter[..]));
      Counter.IncrementBytes(counter);
    }
    y := Add(x, stream[n]);
    next := (n + 1) % 16;
  }

  ghost predicate Separate(counter: array<bv8>, stream: array<bv8>, input: array<bv8>, output: array<bv8>, length: nat) {
    && counter.Length == 16 && stream.Length == 16 && length <= input.Length && length <= output.Length
    && counter != stream && counter != input && counter != output && stream != input && stream != output
  }

  /** mbedtls_aria_crypt_ctr: one byte at a time. */
  method AriaCryptCtr(E: Block -> Block, length: nat, ncOff: nat, counter: array<bv8>, stream: array<bv8>,
                      input: array<bv8>, output: array<bv8>)
      returns (ret: int, newOff: nat)
    requires Separate(counter, stream, input, output, length)
    modifies counter, stream, output
    ensures 15 < ncOff ==>
              ret == Aria.ERR_ARIA_BAD_INPUT_DATA && newOff == ncOff && counter[..] == old(counter[..]) &&
              stream[..] == old(stream[..]) && output[..] == old(output[..])
    ensures ncOff <= 15 ==>
              ret == 0 && newOff < 16 &&
              Ran(Ctr(E), Counting(old(counter[..]), old(stream[..]), ncOff), old(input[..length]),
                  Counting(counter[..], stream[..], newOff), output, old(output[length..]))
  {
    hide CtrStep;
    newOff := ncOff;
    var n := ncOff;
    if n >= 16 {
      return Aria.ERR_ARIA_BAD_INPUT_DATA, newOff;
    }
    ghost var xs, rest := input[..length], output[length..];
    ghost var s0 := Counting(counter[..], stream[..], n);
    var i := 0;
    while i < length
      invariant n < 16 && RunSoFar(Ctr(E), s0, xs, i, Counting(counter[..], stream[..], n), input, output, rest)
    {
      ghost var s := Counting(counter[..], stream[..], n);
      var y, next := CtrByte(E, n, counter, stream, input[i]);
      Store(Ctr(E), s0, xs, i, s, Counting(counter[..], stream[..], next), input, output, rest, y);
      i, n := i + 1, next;
    }
    assert xs[..length] == xs;
    newOff := n;
    ret := 0;
  }

  lemma CtrStepWithin(E: Block -> Block, s: Counting, counter: Block, block: Block, x: bv8)
    requires Next(E, s) == Counting(counter, block, s.off)
    ensures var t := Counting(counter, block, Advance(s.off));
            CtrStep(E, s, x) == (t, Add(x, block[s.off])) && (t.off != 0 ==> Next(E, t) == t)
  {
    hide Add, Counter.Inc;
  }

  /** mbedtls_xor(&output[i], &input[i], &stream_block[offset], n) inside one stream block: the
      byte machine takes n steps, of which only the first may refill. */
  method XorChunk(ghost E: Block -> Block, ghost s0: Counting, ghost xs: seq<bv8>, i: nat, offset: nat, n: nat,
          ghost before: Counting,
                  ghost counter: Block, stream: array<bv8>, input: array<bv8>, output: array<bv8>, ghost rest: seq<bv8>)
    requires stream.Length == 16 && stream != output && offset + n <= 16 && 0 < n && i + n <= |xs|
    requires RunSoFar(Ctr(E), s0, xs, i, before, input, output, rest)
    requires before.off == offset && Next(E, before) == Counting(counter, stream[..], offset)
    modifies output
    ensures RunSoFar(Ctr(E), s0, xs, i + n, Counting(counter, stream[..], (offset + n) % 16), input, output, rest)
  {
    hide Add, Next, CtrStep, Run;
    ghost var block: Block := stream[..];
    ghost var s := before;
    for j := 0 to n
      invariant RunSoFar(Ctr(E), s0, xs, i + j, s, input, output, rest)
      invariant j < n ==> s.off == offset + j && Next(E, s) == Counting(counter, block, s.off)
      invariant 0 < j ==> s == Counting(counter, block, (offset + j) % 16)
    {
      ghost var t := Counting(counter, block, Advance(s.off));
      CtrStepWithin(E, s, counter, block, input[i + j]);
      Store(Ctr(E), s0, xs, i + j, s, t, input, output, rest, Add(input[i + j], stream[offset + j]));
      s := t;
    }
  }

  lemma NothingRunYet<S>(step: (S, bv8) -> (S, bv8), s0: S, xs: seq<bv8>, output: array<bv8>)
    ensures Run(step, s0, xs[..0]) == (s0, output[..0])
  {
  }

  /** At a block boundary: encrypt the counter into the stream block and step the counter. */
  method NextBlock(E: Block -> Block, offset: nat, counter: array<bv8>, stream: array<bv8>)
    requires counter.Length == 16 && stream.Length == 16 && counter != stream && offset < 16
    modifies counter, stream
    ensures Counting(counter[..], stream[..], offset) == Next(E, Counting(old(counter[..]), old(stream[..]), offset))
  {
    hide Counter.Inc;
    if offset == 0 {
      SetBlock(stream, E(counter[..]));
      Counter.IncrementWords(counter);
    }
  }

  /** mbedtls_aes_crypt_ctr: one stream block at a time, with the word-wise counter. */
  method AesCryptCtr(E: Block -> Block, length: nat, ncOff: nat, counter: array<bv8>, stream: array<bv8>,
                     input: array<bv8>, output: array<bv8>)
      returns (ret: int, newOff: nat)
    requires Separate(counter, stream, input, output, length)
    modifies counter, stream, output
    ensures 15 < ncOff ==>
              ret == ERR_AES_BAD_INPUT_DATA && newOff == ncOff && counter[..] == old(counter[..]) &&
              stream[..] == old(stream[..]) && output[..] == old(output[..])
    ensures ncOff <= 15 ==>
              ret == 0 && newOff < 16 &&
              Ran(Ctr(E), Counting(old(counter[..]), old(stream[..]), ncOff), old(input[..length]),
                  Counting(counter[..], stream[..], newOff), output, old(output[length..]))
  {
    hide Next, Run;
    newOff := ncOff;
    var offset := ncOff;
    if offset > 0x0F {
      return ERR_AES_BAD_INPUT_DATA, newOff;
    }
    ghost var xs, rest := input[..length], output[length..];
    ghost var s0 := Counting(counter[..], stream[..], ncOff);
    NothingRunYet(Ctr(E), s0, xs, output);
    var i := 0;
    while i < length
      invariant i <= length && (i < length ==> offset == (ncOff + i) % 16)
      invariant RunSoFar(Ctr(E), s0, xs, i, Counting(counter[..], stream[..], (ncOff + i) % 16), input, output, rest)
    {
      ghost var before := Counting(counter[..], stream[..], offset);
      NextBlock(E, offset, counter, stream);
      var n := 16 - offset;
      if n > length - i {
        n := length - i;
      }
      XorChunk(E, s0, xs, i, offset, n, before, counter[..], stream, input, output, rest);
      OffsetMod(ncOff, i, n);
      offset := 0;
      i := i + n;
    }
    assert xs[..length] == xs;
    newOff := (ncOff + length) % 16;
    ret := 0;
  }

  lemma OffsetMod(off: nat, i: nat, n: nat)
    ensures ((off + i) % 16 + n) % 16 == (off + i + n) % 16
  {
  }

  // ---- CBC ----

  function BlockAt(s: seq<bv8>, j: nat): Block
    requires 16 * j + 16 <= |s|
  {
    s[16 * j..16 * j + 16]
  }

  /** The blocks of a buffer whose length is a multiple of 16. */
  function Blocks(s: seq<bv8>): (b: seq<Block>)
    requires |s| % 16 == 0
    ensures |b| == |s| / 16
  {
    seq(|s| / 16, j requires 0 <= j < |s| / 16 => BlockAt(s, j))
  }

  method PutBlock(output: array<bv8>, at: nat, block: Block)
    requires at + 16 <= output.Length
    modifies output
    ensures output[..] == old(output[..at]) + block + old(output[at + 16..])
  {
    ghost var was := output[..];
    for k := 0 to 16
      invariant forall i :: 0 <= i < output.Length ==> output[i] == if at <= i < at + k then block[i - at] else was[i]
    {
      output[at + k] := block[k];
    }
  }

  /** The first j blocks of the output are what the machine made of the first j blocks of xs, and
      the rest of both buffers is as it was. */
  ghost predicate BlocksSoFar(step: (Block, Block) -> (Block, Block), iv0: Block, xs: seq<Block>, j: nat, iv: Block,
                              input: array<bv8>, output: array<bv8>, rest: seq<bv8>)
    reads input, output
  {
    var n := 16 * |xs|;
    && j <= |xs| && n <= input.Length && n <= output.Length
    && (forall k :: j <= k < |xs| ==> BlockAt(input[..], k) == xs[k])
    && Run(step, iv0, xs[..j]).0 == iv
    && (forall k :: 0 <= k < j ==> BlockAt(output[..], k) == Run(step, iv0, xs[..j]).1[k])
    && output[n..] == rest
  }

  /** Storing one more output block. */
  method StoreBlock(ghost step: (Block, Block) -> (Block, Block), ghost iv0: Block, ghost xs: seq<Block>, j: nat,
                    ghost iv: Block, ghost next: Block, input: array<bv8>, output: array<bv8>,
                            ghost rest: seq<bv8>, y: Block)
    requires BlocksSoFar(step, iv0, xs, j, iv, input, output, rest) && j < |xs| && step(iv, xs[j]) == (next, y)
    modifies output
    ensures BlocksSoFar(step, iv0, xs, j + 1, next, input, output, rest)
  {
    ghost var ins, outs := input[..], output[..];
    RunSnoc(step, iv0, xs[..j], xs[j]);
    assert xs[..j + 1] == xs[..j] + [xs[j]];
    PutBlock(output, 16 * j, y);
    SplicedBlocks(outs, y, output[..], j, 16 * |xs|);
    forall k | j + 1 <= k < |xs|
      ensures BlockAt(input[..], k) == xs[k]
    {
      assert BlockAt(ins, k) == xs[k];
    }
  }

  /** Replacing block j leaves every other block and the tail alone. */
  lemma SplicedBlocks(s: seq<bv8>, y: Block, t: seq<bv8>, j: nat, n: nat)
    requires 16 * j + 16 <= n <= |s| && t == s[..16 * j] + y + s[16 * j + 16..]
    ensures |t| == |s| && BlockAt(t, j) == y && t[n..] == s[n..]
    ensures forall k :: 0 <= k && 16 * k + 16 <= |s| && k != j ==> BlockAt(t, k) == BlockAt(s, k)
  {
  }

  lemma NoBlocksYet(step: (Block, Block) -> (Block, Block), iv0: Block, length: nat, input: array<bv8>,
          output: array<bv8>)
    requires length % 16 == 0 && length <= input.Length && length <= output.Length
    ensures BlocksSoFar(step, iv0, Blocks(input[..length]), 0, iv0, input, output, output[length..])
  {
    forall k | 0 <= k < length / 16
      ensures BlockAt(input[..], k) == Blocks(input[..length])[k]
    {
      assert input[..length][16 * k..16 * k + 16] == input[..][16 * k..16 * k + 16];
    }
  }

  lemma AllBlocks(step: (Block, Block) -> (Block, Block), iv0: Block, xs: seq<Block>, iv: Block,
                  input: array<bv8>, output: array<bv8>, rest: seq<bv8>)
    requires BlocksSoFar(step, iv0, xs, |xs|, iv, input, output, rest)
    ensures Run(step, iv0, xs) == (iv, Blocks(output[..16 * |xs|]))
  {
    hide Run;
    assert xs[..|xs|] == xs;
    var out, ys := output[..16 * |xs|], Run(step, iv0, xs).1;
    forall k | 0 <= k < |xs|
      ensures Blocks(out)[k] == ys[k]
    {
      assert out[16 * k..16 * k + 16] == output[..][16 * k..16 * k + 16];
      assert BlockAt(output[..], k) == ys[k];
    }
    assert Blocks(out) == ys;
  }

  method CbcDecrypt(D: Block -> Block, length: nat, iv: array<bv8>, input: array<bv8>, output: array<bv8>)
    requires iv.Length == 16 && length <= input.Length && length <= output.Length && iv != input && iv != output
    requires length % 16 == 0
    modifies iv, output
    ensures Run<Block, Block, Block>(CbcDec(D), old(iv[..]), Blocks(old(input[..length]))) == (iv[..], Blocks(output[..length]))
    ensures output[length..] == old(output[length..])
  {
    hide XorBlock, Run;
    ghost var iv0: Block, xs, rest := iv[..], Blocks(input[..length]), output[length..];
    NoBlocksYet(CbcDec(D), iv0, length, input, output);
    var j := 0;
    while 16 * j < length
      invariant BlocksSoFar(CbcDec(D), iv0, xs, j, iv[..], input, output, rest)
    {
      ghost var s: Block := iv[..];
      var temp := BlockAt(input[..], j);
      var y := XorBlock(D(temp), iv[..]);
      StoreBlock(CbcDec(D), iv0, xs, j, s, temp, input, output, rest, y);
      SetBlock(iv, temp);
      j := j + 1;
    }
    AllBlocks(CbcDec(D), iv0, xs, iv[..], input, output, rest);
  }

  method CbcEncrypt(E: Block -> Block, length: nat, iv: array<bv8>, input: array<bv8>, output: array<bv8>)
    requires iv.Length == 16 && length <= input.Length && length <= output.Length && iv != input && iv != output
    requires length % 16 == 0
    modifies iv, output
    ensures Run<Block, Block, Block>(CbcEnc(E), old(iv[..]), Blocks(old(input[..length]))) == (iv[..], Blocks(output[..length]))
    ensures output[length..] == old(output[length..])
  {
    hide XorBlock, Run;
    ghost var iv0: Block, xs, rest := iv[..], Blocks(input[..length]), output[length..];
    NoBlocksYet(CbcEnc(E), iv0, length, input, output);
    var j := 0;
    var ivp: Block := iv[..];
    while 16 * j < length
      invariant BlocksSoFar(CbcEnc(E), iv0, xs, j, ivp, input, output, rest)
    {
      var y := E(XorBlock(BlockAt(input[..], j), ivp));
      StoreBlock(CbcEnc(E), iv0, xs, j, ivp, y, input, output, rest, y);
      ivp := y;
      j := j + 1;
    }
    AllBlocks(CbcEnc(E), iv0, xs, ivp, input, output, rest);
    SetBlock(iv, ivp);
  }

  /** mbedtls_aes_crypt_cbc: E and D are the block function and its inverse under the key in use. */
  method CryptCbc(E: Block -> Block, D: Block -> Block, mode: int, length: nat, iv: array<bv8>, input: array<bv8>,
          output: array<bv8>)
      returns (ret: int)
    requires iv.Length == 16 && length <= input.Length && length <= output.Length && iv != input && iv != output
    modifies iv, output
    ensures mode !in {AES_ENCRYPT, AES_DECRYPT} || length % 16 != 0 ==> iv[..] == old(iv[..]) && output[..] == old(output[..])
    ensures mode !in {AES_ENCRYPT, AES_DECRYPT} ==> ret == ERR_AES_BAD_INPUT_DATA
    ensures mode in {AES_ENCRYPT, AES_DECRYPT} && length % 16 != 0 ==> ret == ERR_AES_INVALID_INPUT_LENGTH
    ensures mode in {AES_ENCRYPT, AES_DECRYPT} && length % 16 == 0 ==>
              ret == 0 && output[length..] == old(output[length..]) &&
              Run<Block, Block, Block>(if mode == AES_DECRYPT then CbcDec(D) else CbcEnc(E), old(iv[..]),
                      Blocks(old(input[..length])))
                == (iv[..], Blocks(output[..length]))
  {
    if mode != AES_ENCRYPT && mode != AES_DECRYPT {
      return ERR_AES_BAD_INPUT_DATA;
    }
    if length == 0 {
      return 0;
    }
    if length % 16 != 0 {
      return ERR_AES_INVALID_INPUT_LENGTH;
    }
    if mode == AES_DECRYPT {
      CbcDecrypt(D, length, iv, input, output);
    } else {
      CbcEncrypt(E, length, iv, input, output);
    }
    ret := 0;
  }
}
