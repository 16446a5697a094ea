# FortiRDP: the ciphers, the tunnel and the parsers

This project models the parts of FortiRDP whose correctness is an inverse, a refinement or an invariant over every
run, and proves them in Dafny 4.11. `dafny verify dfyconfig.toml` checks all of it.

What is modelled, and how:

- **Block ciphers (bundled Mbed TLS).** `Fips197` is the AES cipher, its equivalent inverse and its key expansion as
  FIPS 197 defines them, over `GF256`, a byte field built from XTIME. `Aes` is the table-driven code; `AesAccel` holds
  the AES-NI and the Armv8 key schedules; `Aria` the ARIA cipher with its key expansion, `AriaRotation` the 128-bit
  rotation in it. An S-box is any byte permutation with its inverse: nothing else about it is needed.
- **GCM multiply.** `Poly` has polynomials over GF(2) as finite sets of exponents, `Gf128` division by the field
  polynomial. `GcmAarch64` and `GcmAesni` give the carry-less multiply, lane and byte shift instructions their
  mathematical meaning, and both multiplies are proved to be the one field product.
- **Modes.** `StreamRun` and `Modes` describe CBC, CFB128, CFB8, OFB and CTR as machines that take one byte (CBC: one
  block) at a time; `AesModes` has the loops over buffers, `ModeCalls` what two calls make of each other's output,
  `Counter` the two counter increments, `Xts` tweaks and ciphertext stealing. The block function is any function, for
  decryption any permutation.
- **Tunnel byte path.** `PBufQueue` is the chained-buffer queue on linked nodes, `OutputQueue` its two drain loops,
  `PppOssl` the frame parser, `PppLink` the writer and both ends put together. A socket's answers are given
  beforehand, for all its calls; lwIP returns any status that its interface allows. Bytes, not buffers, are what the
  theorems speak of.
- **Forwarders.** `PortForwarder` is the six-state machine with every callback and timer as a method, `Tunneler` the
  loop over many forwarders, of which it needs only the states: each moves as `ForwarderState.Reaches` says.
  `ForwarderRuns` has whole lives of a forwarder, over any sequence of events, which obey the same relation.
- **Parsers and printers.** `Json`, `JsonGrammar`, `JsonParser`, `JsonRoundTrip`, `JsonLaws`; `Der`, `DerWriter`, `DerReader`,
  `DerCalls`; `Base64`, `Base64Codec`; `Url`, `UrlParser`, `UrlRoundTrip`, `UrlLaws`. In each group one module says what the
  text means, one has the loops over cursors and buffers, and the round trips are proved on the meanings. Laws in
  the characters themselves pin down what a round trip alone leaves open.

Code that updates state is modelled as classes and methods with loops, proved against functions; the properties are
then lemmas about those functions.

## Where the code does not do what one might expect

Each of these is part of a proved contract, with the exact condition:

- `PortForwarder::flush_reply_queue` tests the forward queue where the reply queue is meant, so it disconnects after a
  single write. Every acknowledged reply arrives if and only if the socket's next answers take all queued blocks
  before the first refusal (`FlushReplyQueue`); `ReplyIsLost` is a run in which one does not.
- `PortForwarder::recv` loses the bytes it has taken when no buffer can be allocated, and the forwarder still ends as
  if it had forwarded everything: what was taken is forwarded if and only if no allocation failed
  (`FlushForwardQueue`, `ByteIsLost`).
- `PortForwarder::connect` may return true although the forwarder has already failed (`Connect`).
- `PBufQueue::push` into an empty queue ignores the capacity: the queue fits afterwards if and only if the buffer does
  (`Push`), and otherwise its remaining space wraps (`SpaceLeft`, `PushTooMuch`). `size()` counts bytes already
  consumed (`SizeIsContentsPlusOffset`).
- `mbedtls_aes_crypt_xts` in place overwrites a partial last block before reading it; the result is right if and only
  if there is no such block or it equals what overwrites it (`InPlaceIsRight`, `InPlaceGoesWrong`).
- An octet string of 2^31 bytes or more is refused or gets the wrong length, because the length passes through an
  int (`WriteOctetString`, `OctetStringComesBack`).
- A PPP frame without payload is rejected, with the rest of its chunk, at the byte that follows it, because no byte
  can be stored into an empty packet buffer (`Parse`, `DataBytes`).
- A negative int written as DER comes back as its lowest byte (`IntRoundTrip`).
- Integers whose JSON text is longer than nine characters come back as doubles of the same value (`IntRoundTrip` of
  `JsonRoundTrip`), and a value nested deeper than 200 prints but does not parse (`DocumentRoundTrip`).
- A URL with a scheme, no authority and a path that begins with a slash loses that slash; a bare path `/` before a
  query swallows the query (`RoundTrip` of `UrlRoundTrip` has all cases).

## Model

| member | source | states |
|---|---|---|
| GF256.InvMixRowUndoesMixRow | lib/mbedtls/library/aes.c:370-371 | the 0E-0B-0D-09 row applied to the four 02-03-01-01 rows gives back the byte, for all bytes; the field product is built from XTIME alone |
| GF256.FactorsAreProducts | lib/mbedtls/library/aes.c:368-371 | the fixed factors 02, 03, 09, 0B, 0D and 0E are products modulo x^8 + x^4 + x^3 + x + 1, the field of section 4.2 of FIPS 197 |
| GF256.InvMixRowLinear | lib/mbedtls/library/aes.c:731-748 | the inverse row of a sum is the sum of the inverse rows, which is why round keys may be passed through InvMixColumns beforehand |
| Fips197.RoundUndone | lib/mbedtls/library/aes.c:855-879 | one equivalent-inverse round with a key passed through InvMixColumns undoes one cipher round, for every state and key |
| Fips197.InvRoundsTrackRounds | lib/mbedtls/library/aes.c:945-1000 | induction over rounds: after r rounds of decryption the state is the one encryption had r rounds before its end |
| Fips197.EqInvCipherUndoesCipher | lib/mbedtls/library/aes.c:687-754 | section 5.3 of FIPS 197: with any schedule and its inverse schedule the equivalent inverse cipher undoes the cipher, for any byte permutation as S-box |
| Aes.FRoundIsRound | lib/mbedtls/library/aes.c:831-853 | the table macro (four look-ups with rotated tables and a key word) is SubBytes, ShiftRows, MixColumns, AddRoundKey |
| Aes.RRoundIsInvRound | lib/mbedtls/library/aes.c:855-877 | the reverse table macro is the inverse round of the equivalent inverse cipher |
| Aes.KeyBlock | lib/mbedtls/library/aes.c:615-676 | one pass of the key expansion computes the words that section 5.2 of FIPS 197 gives by its recurrence, for all three key sizes |
| CipherState.RotationsOfNumber | lib/mbedtls/library/aes.c:621-625 | the two permutations of the bytes of a word are the rotations by eight bits, to the left and to the right, of the little-endian number that the code keeps |
| Fips197.FirstWordBytes | lib/mbedtls/library/aes.c:621-625 | on bytes, for every key size and every word that begins a block: byte j is the byte nk words back, the S-box at byte j+1 mod 4 of the word before, and for j = 0 the round constant, added up |
| Fips197.OtherWordBytes | lib/mbedtls/library/aes.c:627-672 | on bytes, for every other word: the byte nk words back and the byte of the word before, which in the middle of a block of a 256-bit key goes through the S-box |
| Fips197.FirstNewWord | lib/mbedtls/library/aes.c:613-625 | the first word behind the key, on the bytes of the key |
| Aes.AesContext.SetkeyEnc | lib/mbedtls/library/aes.c:576-680 | for 128, 192 and 256 bits: the round count, and the first 4(Nr+1) words equal to KeyExpansion of FIPS 197; any other size is an error that changes nothing |
| Aes.InvertSchedule | lib/mbedtls/library/aes.c:731-748 | the three copying loops over the source and destination cursors produce the inverse schedule: reversed round keys, middle ones through the reverse tables |
| Aes.ReverseLookupIsInvMixColumn | lib/mbedtls/library/aes.c:735-742 | a reverse table look-up behind a forward S-box look-up is InvMixColumns of the word |
| Aes.AesContext.SetkeyDec | lib/mbedtls/library/aes.c:687-754 | the buffer holds the inverse schedule of KeyExpansion of the key, for each key size |
| Aes.AesContext.Encrypt | lib/mbedtls/library/aes.c:883-938 | the loop over double rounds computes the FIPS 197 cipher of the input block under the words in the buffer, also in place |
| Aes.AesContext.Decrypt | lib/mbedtls/library/aes.c:945-1000 | the loop computes the equivalent inverse cipher of the input block under the words in the buffer, also in place |
| Aes.DecryptUndoesEncrypt | lib/mbedtls/library/aes.c:687-754 | for every key of each size and every block, decryption under setkey_dec words undoes encryption under setkey_enc words |
| Aes.EncryptThenDecrypt | lib/mbedtls/library/aes.c:576-1000 | the four calls one after the other leave the block as it was, for every key of each size |
| AesNi.LadderIsRunningSum | lib/mbedtls/library/aesni.c:255-276 | the shift-and-xor ladder over the register gives the running sums that the word recurrence gives |
| AesNi.SetRk128IsKeyBlock | lib/mbedtls/library/aesni.c:255-276 | the 128-bit step turns one round key into the next one of FIPS 197 |
| AesNi.SetRk192IsKeyBlock | lib/mbedtls/library/aesni.c:300-334 | the 192-bit step, across one and a half registers, computes the next six words of FIPS 197 |
| AesNi.SetRk256IsKeyBlock | lib/mbedtls/library/aesni.c:360-394 | the 256-bit step with its two assist instructions computes the next eight words of FIPS 197 |
| AesNi.SetkeyEnc128 | lib/mbedtls/library/aesni.c:278-294 | the unrolled schedule equals the words of FIPS 197, hence those of the portable code |
| AesNi.SetkeyEnc192 | lib/mbedtls/library/aesni.c:336-353 | the same for 192 bits |
| AesNi.SetkeyEnc256 | lib/mbedtls/library/aesni.c:396-415 | the same for 256 bits, with the one round key more that it writes |
| AesNi.InverseKey | lib/mbedtls/library/aesni.c:238-249 | aesimc over the reversed round keys makes the same inverse schedule as setkey_dec |
| AesCe.SetkeyEnc | lib/mbedtls/library/aesce.c:327-379 | the generic loop over rotate-word and substitute-word makes the words of FIPS 197 for each key size |
| AesCe.InverseKey | lib/mbedtls/library/aesce.c:292-305 | the Armv8 inverse key loop makes the same inverse schedule as setkey_dec |
| GcmAarch64.MultIsProduct | lib/mbedtls/library/aesce.c:531-548 | the three overlapping parts carry the exact carry-less product of two 128-bit polynomials |
| GcmAarch64.ReduceIsRemainder | lib/mbedtls/library/aesce.c:564-589 | whatever the three parts are, the two-step folding leaves the remainder below degree 128, with an explicit quotient |
| GcmAarch64.MultiplyIsFieldProduct | lib/mbedtls/library/aesce.c:594-603 | for all a and b the result has degree below 128 and is congruent to a*b modulo z^128+z^7+z^2+z+1 |
| Gf128.RemainderIsUnique | lib/mbedtls/library/aesce.c:550-563 | division by the field polynomial leaves one remainder only, so the congruence determines the result |
| GcmAesni.ClmulIsProduct | lib/mbedtls/library/aesni.c:138-155 | the two registers hold the exact product |
| GcmAesni.ShiftMovesUp | lib/mbedtls/library/aesni.c:157-173 | the lane shifts and ors move the 256-bit value up by exactly one bit across all lanes |
| GcmAesni.ProductMirrored | lib/mbedtls/library/aesni.c:203-221 | the product of bit-reflected operands is the bit-reflected product |
| GcmAesni.ReduceAddsFold | lib/mbedtls/library/aesni.c:175-184 | seen in transmission order, the first reduction step adds the carries of z, z^2 and z^7 times the high half |
| GcmAesni.MixSpreads | lib/mbedtls/library/aesni.c:186-201 | the shifts with their missing bits are d + z d + z^2 d + z^7 d cut off at z^128 |
| GcmAesni.MultiplyIsFieldProduct | lib/mbedtls/library/aesni.c:203-232 | the AES-NI multiply is multiplication in the same field |
| GcmAesni.AcceleratorsAgree | lib/mbedtls/library/aesni.c:203-232 | the AES-NI and the Armv8 multiply give the same block for all operands |
| Aria.AIsTheMatrix | lib/mbedtls/library/aria.c:109-131 | the word-and-permutation code of the diffusion layer is the 16 by 16 byte matrix of RFC 5794 |
| Aria.AIsLinear | lib/mbedtls/library/aria.c:109-131 | the diffusion layer of a sum is the sum of the diffused parts |
| Aria.AIsAnInvolution | lib/mbedtls/library/aria.c:109-131 | the diffusion layer is its own inverse, for every state |
| Aria.SLUndoesSL | lib/mbedtls/library/aria.c:141-162 | each substitution layer undoes the other |
| Aria.SubstitutedWord | lib/mbedtls/library/aria.c:141-162 | which of the four S-boxes each byte of a word goes through, in odd and in even rounds |
| Aria.KeyedTracksBack | lib/mbedtls/library/aria.c:441-490 | induction over rounds: running the encryption code on transformed keys passes through the encryption states backwards |
| Aria.CryptUndoesCrypt | lib/mbedtls/library/aria.c:441-490 | for every even number of rounds, every expanded key and every block, the encryption routine on the decryption schedule undoes encryption |
| Aria.AriaContext.InvertSchedule | lib/mbedtls/library/aria.c:420-432 | the swapping loop and the transforming loop make the decryption schedule in place |
| AriaRotation.RotlMovesBits | lib/mbedtls/library/aria.c:315-342 | the byte-wise definition of the rotation moves each of the 128 bits n places to the left, around the end, for every n |
| AriaRotation.ShiftedWord | lib/mbedtls/library/aria.c:333-341 | two neighbouring words, byte-reversed, shifted and joined, make the word of the rotated block, for the five amounts in use |
| AriaRotation.Rot128 | lib/mbedtls/library/aria.c:322-342 | the loop over the words adds the rotated block, for the five amounts the key expansion uses |
| Aria.AriaContext.SetkeyEnc | lib/mbedtls/library/aria.c:347-403 | for 128, 192 and 256 bits: the round count, and the seventeen round keys of section 2.2 of RFC 5794; any other size is an error that changes nothing |
| Aria.ConstantsInOrder | lib/mbedtls/library/aria.c:350-356 | the three constants of RFC 5794 and the order in which each key size takes them |
| Aria.W1OnBytes | lib/mbedtls/library/aria.c:274-291 | the first word of W1 for a 128-bit key, on the bytes of the key: each byte is the sum of seven bytes of key and first constant behind their S-boxes, as the rows of the diffusion matrix say |
| Aria.AriaContext.MakeRoundKeys | lib/mbedtls/library/aria.c:390-397 | the loop over four words with its five rotations fills the table in the order of the standard |
| Aria.AriaContext.SetkeyDec | lib/mbedtls/library/aria.c:409-435 | the context holds the decryption schedule of the key's round keys, for each key size |
| Aria.AriaContext.CryptEcb | lib/mbedtls/library/aria.c:441-490 | the two-rounds-at-a-time loop computes the ARIA cipher of the block under the keys in the context |
| Aria.EncryptThenDecrypt | lib/mbedtls/library/aria.c:347-490 | setkey_enc in one context, setkey_dec in another, and the block routine in each, one after the other, leave the block as it was, for every key of each size |
| StreamRun.RunConcat | lib/mbedtls/library/aes.c:1292-1481 | cutting the input of a mode anywhere and carrying the saved state over changes neither the bytes nor the final state |
| StreamRun.RunUndone | lib/mbedtls/library/aes.c:1292-1481 | a machine undone step by step is undone over every run, and both end in the same state |
| Modes.CbcUndone | lib/mbedtls/library/aes.c:1072-1147 | CBC decryption undoes CBC encryption for any number of blocks when the block function has the inverse, with the same saved IV |
| Modes.CfbUndone | lib/mbedtls/library/aes.c:1292-1349 | CFB128 decryption undoes encryption from any saved state, with the same final state |
| Modes.Cfb8Undone | lib/mbedtls/library/aes.c:1354-1391 | the same for CFB8 |
| Modes.OfbUndone | lib/mbedtls/library/aes.c:1398-1430 | OFB applied twice from the same state gives the input back |
| Modes.CtrUndone | lib/mbedtls/library/aes.c:1437-1481 | CTR applied twice from the same state gives the input back |
| Modes.CfbIsTheStandard | lib/mbedtls/library/aes.c:1292-1349 | byte k of the output is the input xored with byte k mod 16 of the cipher of the previous sixteen output bytes (section 6.3 of NIST SP 800-38A) |
| Modes.CbcIsTheStandard | lib/mbedtls/library/aes.c:1123-1137 | output block k is the cipher of the block whose every byte is the sum of the bytes in its place of input block k and of the output block before it, or the IV (section 6.2 of NIST SP 800-38A) |
| Modes.CbcDecIsTheStandard | lib/mbedtls/library/aes.c:1107-1122 | every byte of output block k is the sum of the bytes in its place of the deciphered input block k and of the input block before it, or the IV |
| Modes.Cfb8IsTheStandard | lib/mbedtls/library/aes.c:1354-1391 | byte k of the output is the input xored with the first byte of the cipher of the last sixteen bytes of IV and output |
| Modes.OfbIsTheStandard | lib/mbedtls/library/aes.c:1398-1430 | byte k is xored with byte k mod 16 of the cipher iterated k/16+1 times on the IV |
| Modes.CtrIsTheStandard | lib/mbedtls/library/aes.c:1437-1481 | byte k is xored with byte k mod 16 of the cipher of the counter advanced k/16 times |
| AesModes.CryptCbc | lib/mbedtls/library/aes.c:1072-1147 | the block loops, in place or not, compute the CBC machine; lengths that are not multiples of 16 and unknown modes are errors that change nothing |
| AesModes.CryptCfb128 | lib/mbedtls/library/aes.c:1292-1349 | the byte loop with its saved offset runs the CFB128 machine: output, IV and offset |
| AesModes.CryptCfb8 | lib/mbedtls/library/aes.c:1354-1391 | the shifting loop runs the CFB8 machine |
| AesModes.CryptOfb | lib/mbedtls/library/aes.c:1398-1430 | the loop runs the OFB machine: output, IV and offset |
| AesModes.AriaCryptCtr | lib/mbedtls/library/aria.c:620-658 | the byte-at-a-time loop runs the CTR machine: output, counter, stream block and offset |
| AesModes.AesCryptCtr | lib/mbedtls/library/aes.c:1437-1481 | the block-at-a-time loop runs the same CTR machine |
| ModeCalls.CtrLoopsAgree | lib/mbedtls/library/aes.c:1437-1481 | a call of the ARIA loop and a call of the AES loop on equal buffers leave equal output, counter, stream block and offset |
| ModeCalls.CbcThereAndBack | lib/mbedtls/library/aes.c:1072-1147 | a decrypting call in place behind an encrypting call in place gives the buffer back, with equal IVs, for every length |
| ModeCalls.CfbThereAndBack | lib/mbedtls/library/aes.c:1292-1349 | the same for CFB128, from every offset, with equal IVs and offsets at the end |
| ModeCalls.Cfb8ThereAndBack | lib/mbedtls/library/aes.c:1354-1391 | the same for CFB8 |
| ModeCalls.OfbThereAndBack | lib/mbedtls/library/aes.c:1398-1430 | the same for two calls of OFB |
| ModeCalls.CtrThereAndBack | lib/mbedtls/library/aes.c:1437-1481 | a call of the AES loop is undone by a call of the ARIA loop, with equal saved states |
| ModeCalls.CfbInTwoCalls | lib/mbedtls/library/aes.c:1292-1349 | two calls on the two parts of a buffer, wherever it is cut, do what one call does: bytes, IV and offset, in both directions |
| ModeCalls.Cfb8InTwoCalls | lib/mbedtls/library/aes.c:1354-1391 | the same for CFB8 |
| ModeCalls.OfbInTwoCalls | lib/mbedtls/library/aes.c:1398-1430 | the same for OFB |
| ModeCalls.CtrInTwoCalls | lib/mbedtls/library/aes.c:1437-1481 | the same for the block-at-a-time CTR loop: a stream block begun by one call is used up by the next |
| ModeCalls.CbcInTwoCalls | lib/mbedtls/library/aes.c:1072-1147 | the same for CBC cut between two blocks |
| Counter.IncAddsOne | lib/mbedtls/library/aria.c:643-647 | the counter step adds one to the big-endian number, modulo 256^n |
| Counter.IncrementBytes | lib/mbedtls/library/aria.c:643-647 | the loop that stops at the first byte that does not wrap is the counter step |
| Counter.IncrementWords | lib/mbedtls/library/ctr.h:21-33 | the loop over 32-bit words is the same counter step |
| Xts.MulXIsAlpha | lib/mbedtls/library/aes.c:1165-1178 | the two 64-bit halves with their carries are multiplication of the 128-bit tweak by alpha (section 5.2 of IEEE 1619) |
| Xts.XexIsTheStandard | lib/mbedtls/library/aes.c:1243-1255 | the tweak is added to every byte in its place before and after the cipher |
| Xts.FullIsTheStandard | lib/mbedtls/library/aes.c:1228-1263 | block j of a data unit of whole blocks, byte by byte, under the first tweak times x^j (clause 5.3.1 of IEEE 1619) |
| Xts.StealIsTheStandard | lib/mbedtls/library/aes.c:1265-1298 | the last two pieces of a data unit with a partial block, byte by byte (clause 5.3.2 of IEEE 1619) |
| Xts.XexUndone | lib/mbedtls/library/aes.c:1248-1262 | one tweaked block is undone under the same tweak |
| Xts.FullUndone | lib/mbedtls/library/aes.c:1228-1263 | any number of whole blocks is undone, tweak by tweak |
| Xts.StealUndone | lib/mbedtls/library/aes.c:1265-1283 | ciphertext stealing is undone: the last two pieces come back although their tweaks are used in swapped order |
| Xts.DecryptUndoesEncrypt | lib/mbedtls/library/aes.c:1189-1285 | for every keyed permutation, data unit and length of at least 16 bytes, XTS decryption of XTS encryption is the plaintext |
| Xts.CryptBlocks | lib/mbedtls/library/aes.c:1228-1263 | the block loop with its swap of tweak and previous tweak before the last block of a decryption |
| Xts.CryptXts | lib/mbedtls/library/aes.c:1189-1285 | the whole routine computes XTS encryption or decryption, into another buffer or in place; in place, a partial block is first replaced by the bytes that overwrite it; bad lengths and modes are errors that change nothing |
| Xts.InPlaceIsRight | lib/mbedtls/library/aes.c:1277-1285 | in place the routine computes the standard's result if and only if there is no partial block or it equals the bytes that overwrite it |
| Xts.PartialBlockIsLost | lib/mbedtls/library/aes.c:1277-1281 | in place, data units that differ in their partial block only give the same output |
| Xts.InPlaceGoesWrong | lib/mbedtls/library/aes.c:1277-1285 | a data unit of 17 bytes for which the result in place is not the standard's |
| Xts.XtsThereAndBack | lib/mbedtls/library/aes.c:1189-1285 | an encrypting and a decrypting call, through any buffers that are not in place with a partial block, give the data unit back |
| PBufQueue.TotalIsLength | lib/lwip/src/core/pbuf.c:857-880 | the total of a chain's head is the number of bytes in the chain, when every total is the node's length plus the rest |
| PBufQueue.Cat | lib/lwip/src/core/pbuf.c:857-880 | walking the head chain, raising its totals and linking the tail makes one well-formed chain |
| PBufQueue.PBufQueue.Push | src/util/PBufQueue.cpp:46-84 | all or nothing: exactly when the buffer is not empty, the queue not full and, if not empty, the capacity not exceeded, its bytes go behind the contents; and exactly when the queue fits its capacity afterwards |
| PBufQueue.PushTooMuch | src/util/PBufQueue.cpp:46-84 | two bytes go into an empty queue for one byte, whose remaining space then wraps and which does not count as full |
| PBufQueue.PBufQueue.Pop | src/util/PBufQueue.cpp:87-104 | the head leaves the chain with its own total, the rest stays a chain |
| PBufQueue.PBufQueue.GetCblock | src/util/PBufQueue.cpp:125-155 | the block is the longest prefix of the contents inside the head that is not longer than asked |
| PBufQueue.PBufQueue.GetWholeCblock | src/util/PBufQueue.cpp:158-161 | the block is the whole rest of the head |
| PBufQueue.PBufQueue.Move | src/util/PBufQueue.cpp:164-183 | exactly when the bytes are in the head they leave the front of the contents and of the list of block lengths, and a used-up head is dropped |
| PBufQueue.PBufQueue.BlocksAddUp | src/util/PBufQueue.cpp:125-155 | the lengths of the contiguous blocks add up to the length of the contents |
| PBufQueue.PBufQueue.Clear | src/util/PBufQueue.cpp:33-43 | nothing is left |
| PBufQueue.PBufQueue.SizeIsContentsPlusOffset | src/util/PBufQueue.cpp:107-110 | size() counts the bytes before the read offset too, so it overstates the contents by the offset |
| PBufQueue.PBufQueue.SpaceLeft | src/util/PBufQueue.cpp:113-116 | the remaining space is what is left of the capacity if and only if the queue fits; otherwise the subtraction wraps around |
| OutputQueue.SendBlock | src/net/OutputQueue.cpp:39-56 | what a partial send took and what stays in the queue are together what was there; the failure branch behind move is dead |
| OutputQueue.WriteSocket | src/net/OutputQueue.cpp:29-71 | the loop ends only with an empty queue or a socket that took nothing; sent bytes followed by remaining bytes are the old sent bytes followed by the old contents; the count is the one the socket's answers lead to, the status that of the last call, also for an error with code 0 |
| OutputQueue.AllLeaves | src/net/OutputQueue.cpp:39-56 | the loop over blocks takes everything if and only if the socket's answers suffice before the first refusal |
| OutputQueue.WriteBlock | src/net/OutputQueue.cpp:86-115 | one tcp_write of exactly as many bytes as the first block has and the send buffer takes; an empty block still makes progress |
| OutputQueue.WritePcb | src/net/OutputQueue.cpp:74-133 | the loop ends only with an empty queue, a full send buffer or a refusal; given bytes followed by queued bytes stay the same; tcp_output is called exactly when nothing was refused and something is unsent; the report is the refusal or its answer, where ERR_IF counts as none |
| PppOssl.PrefixParses | src/net/pppossl.c:254-331 | of any part of a stream of frames exactly the packets that arrived whole are delivered and the rest is kept; the stream is rejected if and only if the header of a packet of more than 16384 bytes has arrived |
| PppOssl.ParseResumes | src/net/pppossl.c:254-331 | a stream may be cut between any two bytes: parsing goes on from the unfinished frame with the same result |
| PppOssl.FrameHeader | src/net/pppossl.c:94-117 | a frame of 1 to 16384 payload bytes has a header that the parser accepts, and its payload stands where the parser looks |
| PppOssl.Receiver.HeaderByte | src/net/pppossl.c:263-296 | a byte joins the header; a sixth one leads to the payload state or, exactly for inconsistent or too large headers, to an error |
| PppOssl.Receiver.DataBytes | src/net/pppossl.c:297-318 | as many bytes as are due join the payload; a complete packet is delivered once, an empty one is an error |
| PppOssl.Receiver.Input | src/net/pppossl.c:254-331 | the chunk loop delivers, keeps and reports exactly what parsing the kept bytes followed by the chunk gives; after an error the rest of the chunk is gone |
| PppLink.Write | src/net/pppossl.c:83-145 | the queue gets one whole frame around the bytes of the packet chain, or nothing; the report says exactly which of allocation and room in the queue was missing |
| PppLink.NetifOutput | src/net/pppossl.c:148-173 | the frame's payload is FF 03, the protocol number and the packet; the report is exact |
| PppLink.Link.Send | src/net/PPInterface.cpp:266-272 | a packet of any size is either accepted whole or leaves the queue contents as they were |
| PppLink.Link.Drain | src/net/PPInterface.cpp:171-192 | draining by partial sends keeps the stream of accepted frames equal to sent bytes followed by queued bytes |
| PppLink.Link.Arrive | src/net/PPInterface.cpp:195-247 | any next piece of the sent bytes is parsed on from where the last one ended, and the link is closed exactly when it is rejected |
| PppLink.Link.DeliveredIsPrefix | src/net/pppossl.c:254-331 | in every state the delivered packets are a prefix of the accepted ones, and all of them once nothing is on the way, unless the link was closed by a packet that is too large, behind all packets before it |
| PppLink.Run | src/net/PPInterface.cpp:171-247 | from the constructor on, over every sequence of packets, socket answers and cuts of the stream: each event accepts, sends or lets arrive exactly what it should, the delivered packets stay a prefix of the accepted ones, and neither list is ever taken back |
| PppLink.Step | src/net/PPInterface.cpp:171-247 | which packet is accepted, how many bytes are sent and how many arrive, as facts before and after the event |
| PortForwarder.PortForwarder.Connect | src/net/PortForwarder.cpp:62-152 | exactly which answers lead from READY to CONNECTING and which to FAILED, and when the local socket is open afterwards; a synchronous name answer may fail the forwarder although true is returned |
| PortForwarder.PortForwarder.DnsFound | src/net/PortForwarder.cpp:378-424 | CONNECTING goes on exactly for the right name, an address and an accepted tcp_connect; otherwise FAILED, with the local socket closed only if tcp_connect failed |
| PortForwarder.PortForwarder.TcpConnected | src/net/PortForwarder.cpp:427-444 | the forwarder is CONNECTED with every invariant in force, the equations of both streams among them |
| PortForwarder.PortForwarder.TcpErr | src/net/PortForwarder.cpp:447-470 | from any live state to DISCONNECTED with both endpoints gone; the stale client field stays behind |
| PortForwarder.PortForwarder.TcpRecv | src/net/PortForwarder.cpp:483-517 | data is queued and acknowledged, refused without a trace exactly when the queue does not take it, or acknowledged and dropped when the local socket is gone |
| PortForwarder.PortForwarder.TcpClosed | src/net/PortForwarder.cpp:518-536 | remote close in CONNECTED drops the forward queue and leaves only the local endpoint |
| PortForwarder.PortForwarder.Disconnect | src/net/PortForwarder.cpp:155-177 | from CONNECTED to DISCONNECTING with only the remote endpoint, queued bytes untouched; elsewhere nothing |
| PortForwarder.PortForwarder.Abort | src/net/PortForwarder.cpp:180-203 | ends in DISCONNECTED at once, because the error callback comes before tcp_abort returns; both queues are empty |
| PortForwarder.PortForwarder.TimersGuardWaiting | src/net/PortForwarder.cpp:171-174 | whenever a forwarder waits for the handshake or for a queue to drain, the timer that ends the wait runs or has run out |
| PortForwarder.PortForwarder.Recv | src/net/PortForwarder.cpp:206-261 | what recv_data returns goes behind the forward queue, and only in CONNECTED; it is lost exactly when no buffer can be allocated for it, and then the call fails |
| PortForwarder.PushNew | src/net/PortForwarder.cpp:215-255 | a push of at most the remaining space never fails: the internal error branch is dead |
| PortForwarder.PortForwarder.Forward | src/net/PortForwarder.cpp:264-285 | succeeds if and only if the forwarder is connected and neither tcp_write nor tcp_output reported an error, where ERR_IF of tcp_output counts as none; tcp_output is called exactly when due; forwarded bytes followed by queued bytes stay what they were |
| PortForwarder.PortForwarder.Reply | src/net/PortForwarder.cpp:288-306 | succeeds if and only if the forwarder is connected and the socket reported no error code; as many bytes are sent as its answers allow; sent bytes followed by queued replies stay what they were |
| PortForwarder.PortForwarder.FlushForwardQueue | src/net/PortForwarder.cpp:309-347 | runs only with a control block; it ends exactly on an error, the timer or an empty queue; without the first two it has forwarded all that was queued, which is all that was taken from the local socket if and only if no allocation failed |
| PortForwarder.PortForwarder.FlushReplyQueue | src/net/PortForwarder.cpp:350-375 | runs only on an open socket and always disconnects, since it tests the forward queue; every acknowledged reply arrives if and only if the socket's next answers take all queued blocks before the first refusal |
| ForwarderRuns.ReplyIsLost | src/net/PortForwarder.cpp:350-375 | a run from the constructor in which one acknowledged byte never reaches the local client |
| ForwarderRuns.ByteIsLost | src/net/PortForwarder.cpp:229-237 | a run in which a byte taken from the local client is lost and the forwarder ends as if nothing had happened |
| ForwarderRuns.Step | src/net/PortForwarder.cpp:378-561 | what each callback, timer, acknowledgement and round does to the facts of a forwarder that it can happen to; every invariant is kept |
| ForwarderRuns.Run | src/net/Tunneler.cpp:195-252 | from the constructor on, over every sequence of events: each has its effect; after each, CONNECTED means both endpoints exist, DISCONNECTING exactly one; what was taken is forwarded bytes followed by queued ones, what was acknowledged is sent bytes followed by queued ones, as long as the side is there; states and streams never go back |
| PortForwarder.ServeLocal | src/net/Tunneler.cpp:195-216 | the local round, exactly: a connected forwarder takes what came and, unless that failed, replies, and it stays connected if and only if both succeeded; a disconnecting one is flushed on an open socket only; otherwise nothing changes |
| PortForwarder.ServeTunnel | src/net/Tunneler.cpp:234-250 | the tunnel round, exactly: a timed-out connection is aborted; a connected forwarder with something to do forwards it and stays connected if and only if TCP reported no error; a disconnecting one is flushed only with a control block; otherwise nothing changes |
| Tunneler.PortForwarders.DeleteHavingState | src/net/PortForwarders.cpp:30-48 | erasing while iterating leaves exactly the forwarders that do not pass the check, in order, and counts the others |
| Tunneler.PortForwarders.AbortAll | src/net/PortForwarders.cpp:51-62 | exactly the connected forwarders become disconnected, and their number is returned |
| Tunneler.PortForwarders.HasConnectingForwarders | src/net/PortForwarders.cpp:65-74 | true exactly when one is CONNECTING |
| Tunneler.PortForwarders.ConnectedCount | src/net/PortForwarders.cpp:77-87 | the number of CONNECTED forwarders |
| Tunneler.MovesFreeSlots | src/net/Tunneler.cpp:195-252 | whatever moves the forwarders make, and however many, none starts connecting and client slots are only given up |
| ForwarderState.ReachesIsClosure | src/net/PortForwarder.cpp:62-561 | one state reaches another exactly when some sequence of single events leads there |
| Tunneler.Tunneler.Accept | src/net/Tunneler.cpp:181-193 | admission keeps: at most one CONNECTING, CONNECTED plus CONNECTING at most max_clients, no CONNECTING without the flag |
| Tunneler.Tunneler.ServeSockets | src/net/Tunneler.cpp:123-228 | the list, the two flags and the connecting flag behind the sockets, exactly; the accept decision taken before select is still sound after the callbacks that follow it |
| Tunneler.Tunneler.Reap | src/net/Tunneler.cpp:254-258 | exactly the failed and the disconnected forwarders are gone and the bound still holds |
| Tunneler.Tunneler.SwitchState | src/net/Tunneler.cpp:260-334 | the next tunnel state, the abort of all connected forwarders, both timers and the connecting flag, exactly; closing the PPP interface may call any forwarder back |
| Tunneler.Tunneler.Turn | src/net/Tunneler.cpp:118-337 | every turn keeps the admission bound and does what TurnDone says: the next tunnel state, the forwarders that are left, every flag, timer and count, as functions of the turn before and what the turn meets |
| Tunneler.TurnReaps | src/net/Tunneler.cpp:254-258 | behind a turn that leaves the tunnel state alone no forwarder is in the list whose life is over, and closing goes on only while there are forwarders and the abort timer has not run out |
| Tunneler.ClosingEnds | src/net/Tunneler.cpp:305-320 | a turn in CLOSING over forwarders that have all ended, or with the abort timer run out, leads to DISCONNECTING |
| Tunneler.StateGoesOn | src/net/Tunneler.cpp:260-334 | a turn takes the tunnel at most one state further, or from CONNECTING straight to CLOSING |
| Tunneler.Tunneler.Run | src/net/Tunneler.cpp:92-355 | over every sequence of events: every turn does what it should, reaps, and ends CLOSING when there is nothing to wait for; the admission bound holds behind each; the tunnel states never go back; the loop stops exactly when a turn says so |
| JsonRoundTrip.StringRoundTrip | src/util/Json11.cpp:78-123 | any byte string, with control characters, NUL and the two line separators, is read back from its escaped text |
| JsonRoundTrip.IntRoundTrip | src/util/Json11.cpp:68-72 | every integer's text is read back as the same number, as an integer up to nine characters and as a double beyond |
| JsonRoundTrip.ValueRoundTrip | src/util/Json11.cpp:668-752 | a printed value is read back with what follows it left over exactly when its nesting stays within the limit at the given depth; otherwise the parse fails |
| JsonRoundTrip.DocumentRoundTrip | src/util/Json11.cpp:756-768 | parse(dump(v)) consumes everything and equals v if and only if v nests at most 200 deep, with and without comment support |
| JsonRoundTrip.AstralEscapesRead | src/util/Json11.cpp:540-557 | the two escapes of any code point from U+10000 to U+10FFFF become the four UTF-8 bytes that stand for it |
| JsonRoundTrip.SurrogatesOf | src/util/Json11.cpp:546-551 | every such code point has exactly one surrogate pair |
| JsonRoundTrip.Utf8RoundTrip | src/util/Json11.cpp:466-488 | the bytes written for a code point stand for it, and their number is that of section 3 of RFC 3629 |
| JsonRoundTrip.RereadIsSame | src/util/Json11.cpp:184-200 | what is read back equals the value under the library's own equality, which compares numbers by value |
| JsonLaws.EscapesRead | src/util/Json11.cpp:566-583 | the eight escapes of one letter and the byte each stands for, the solidus among them |
| JsonLaws.OtherEscapesFail | src/util/Json11.cpp:584-586 | a backslash before any other character, or at the end, is an error |
| JsonLaws.CodeUnitReads | src/util/Json11.cpp:525-538 | four hexadecimal digits of either case are the number that they spell; anything else is an error |
| JsonLaws.UnicodeEscapeReads | src/util/Json11.cpp:540-561 | a low surrogate behind a high one is joined to it, in the numbers of RFC 8259; any other code unit waits for what follows |
| JsonLaws.BytesRead | src/util/Json11.cpp:497-516 | a quote ends a string, a control character is an error, any other byte stands for itself |
| JsonLaws.DoubleReads | src/util/Json11.cpp:594-645 | a number with fraction, exponent or both, of either letter and any sign, is the decimal number that it spells |
| JsonLaws.BadNumbersFail | src/util/Json11.cpp:602-641 | a point or an exponent without digits and a needless leading zero are errors |
| JsonLaws.SpaceIsSkipped | src/util/Json11.cpp:389-392 | space, carriage return, line feed and tab are skipped between tokens, and no other byte |
| JsonLaws.LineCommentIsSkipped | src/util/Json11.cpp:405-411 | a comment of two slashes ends before the next line feed or with the text |
| JsonLaws.BlockCommentIsSkipped | src/util/Json11.cpp:412-425 | a comment of slash and star ends with the first star and slash; without them it is an error |
| JsonLaws.WordsRead | src/util/Json11.cpp:680-735 | true, false, null and the two empty containers, in their characters |
| JsonLaws.PutUpdates | src/util/Json11.cpp:712 | assigning to a key of an object replaces the member with that key and leaves all others alone |
| JsonLaws.PrintedForms | src/util/Json11.cpp:120-149 | what is printed for scalars and containers, with brackets, separators and colons in their characters |
| JsonLaws.PrintedByte | src/util/Json11.cpp:78-110 | what is printed for every byte of a string |
| JsonLaws.PrintedSeparator | src/util/Json11.cpp:106-115 | the two line separators are printed as escapes, a byte that only begins like them is not |
| JsonLaws.PrintableValues | src/util/Json11.cpp:68-149 | what the round trips cover: every value without a double, with integers in the 32 bits of an int |
| JsonLaws.PrintedInt | src/util/Json11.cpp:68-72 | an integer is printed in decimal digits behind its sign |
| Json.PutSorted | src/util/Json11.cpp:712 | assigning to a key of a sorted object keeps it sorted and stores the value under the key |
| JsonParser.JsonParser.ConsumeComment | src/util/Json11.cpp:398-430 | finds, skips or rejects one comment as the grammar says, cursor within the text |
| JsonParser.JsonParser.ConsumeGarbage | src/util/Json11.cpp:436-446 | skips exactly white space and, when allowed, comments |
| JsonParser.JsonParser.GetNextToken | src/util/Json11.cpp:453-460 | the next token character and the text behind it, or failure without a step |
| JsonParser.EncodeUtf8 | src/util/Json11.cpp:466-488 | appends the UTF-8 bytes of the code point, or nothing for -1 |
| JsonParser.JsonParser.ParseString | src/util/Json11.cpp:494-588 | the loop reads exactly the string of the grammar, pending surrogates included |
| JsonParser.JsonParser.ParseNumber | src/util/Json11.cpp:594-645 | the steps over the text accept exactly the number grammar, with the nine-character rule for integers |
| JsonParser.JsonParser.Expect | src/util/Json11.cpp:652-662 | the step back and the comparison accept exactly the expected word |
| JsonParser.JsonParser.ParseArray | src/util/Json11.cpp:727-749 | the item loop with its step back ends and reads exactly the items of the grammar |
| JsonParser.JsonParser.ParseObject | src/util/Json11.cpp:694-725 | the member loop ends and reads exactly the members of the grammar |
| JsonParser.JsonParser.ParseJson | src/util/Json11.cpp:668-752 | on every input the recursion ends, the cursor stays between where it began and the end, and result and rest are those of the grammar |
| JsonParser.ParseDocument | src/util/Json11.cpp:756-768 | on every input and for both strategies: a value exactly when the grammar has one with nothing behind it |
| JsonParser.Printer.DumpString | src/util/Json11.cpp:78-123 | the loop with its jump over line separators appends the escaped string |
| JsonParser.Printer.DumpArray | src/util/Json11.cpp:125-135 | the loop with its first-flag appends the items with separators between them |
| JsonParser.Printer.DumpObject | src/util/Json11.cpp:137-149 | the loop appends the members with separators between them |
| JsonParser.Printer.DumpJson | src/util/Json11.cpp:151-153 | appends the text of the value |
| Der.LenRoundTrip | lib/mbedtls/library/asn1parse.c:28-59 | every length up to 2^32-1 is read back from the octets written for it |
| Der.LenIsShortest | lib/mbedtls/library/asn1write.c:24-54 | no octets that the reader accepts for a length are fewer than those written (section 10.1 of X.690) |
| Der.LengthForms | lib/mbedtls/library/asn1write.c:35-53 | the short form and the two shortest long forms of a length, octet by octet |
| Der.TagsOnTheWire | lib/mbedtls/library/asn1write.c:56-65 | the identifier octets of bit strings, octet strings, object identifiers and sequences |
| Der.TagReads | lib/mbedtls/library/asn1parse.c:61-76 | tag and length are read back and the content begins right behind them |
| Der.IntRoundTrip | lib/mbedtls/library/asn1parse.c:101-146 | every int is read back as itself if and only if it is not negative; of a negative one only the lowest byte comes back |
| Der.IntContentOf | lib/mbedtls/library/asn1write.c:202-224 | the content written for an int spells its number, has a clear sign bit and no needless zero in front |
| Der.BitStringRoundTrip | lib/mbedtls/library/asn1parse.c:182-214 | a bit string is read back with its number of bits, its bits, and zeros in the unused places |
| Der.BitsOfByte | lib/mbedtls/library/asn1write.c:286-307 | which power of two each bit of a byte stands for, the first being the highest |
| Der.NamedBitsCover | lib/mbedtls/library/asn1write.c:286-307 | no set bit lies beyond the kept prefix |
| Der.NamedBitsLeast | lib/mbedtls/library/asn1write.c:286-307 | no shorter prefix holds every set bit (section 11.2.2 of X.690) |
| Der.NamedBitStringRoundTrip | lib/mbedtls/library/asn1write.c:268-310 | reading a named bit string gives exactly that prefix, for every bit count and buffer |
| Der.SequenceRoundTrip | lib/mbedtls/library/asn1parse.c:220-266 | a whole SEQUENCE OF is read back as the same contents in the same order, if and only if the callback takes each of them |
| DerWriter.Writer.WriteLen | lib/mbedtls/library/asn1write.c:24-54 | writes the length octets in front of the cursor, exactly when they fit; otherwise nothing changes |
| DerWriter.Writer.WriteTag | lib/mbedtls/library/asn1write.c:56-65 | writes the tag in front of the cursor, exactly when it fits |
| DerWriter.Writer.WriteLenAndTag | lib/mbedtls/library/asn1write.c:69-80 | puts the octets of any counted length and the tag in front of content already written; a length beyond 2^32-1 is an error |
| DerWriter.Writer.WriteIntDigits | lib/mbedtls/library/asn1write.c:206-213 | the do-while loop writes all digits of a non-negative int and one byte of a negative one |
| DerWriter.Writer.WriteTaggedInt | lib/mbedtls/library/asn1write.c:202-224 | the buffer gets tag, length and content, exactly when they fit, and is unchanged behind the cursor |
| DerWriter.Writer.WriteRawBuffer | lib/mbedtls/library/asn1write.c:82-98 | copies the bytes in front of the cursor, exactly when they fit |
| DerWriter.Writer.WriteOctetString | lib/mbedtls/library/asn1write.c:341-350 | for content of any size: the buffer gets it behind a header with the length that its copy returned as an int, exactly when both fit |
| DerWriter.OctetStringComesBack | lib/mbedtls/library/asn1write.c:341-350 | an octet string is read back whole if and only if its length is not beyond 2^31-1; otherwise the header announces less |
| DerWriter.Writer.WriteBitString | lib/mbedtls/library/asn1write.c:312-339 | the buffer gets the whole bit string with its unused bits cleared, exactly when it fits; a content beyond 2^32-1 bytes is an error |
| DerWriter.TrailingZerosCut | lib/mbedtls/library/asn1write.c:278-307 | the byte-wise shifting loop finds the number of bits up to the last one set |
| DerWriter.Writer.WriteNamedBitString | lib/mbedtls/library/asn1write.c:268-310 | the buffer gets the bit string of the shortest prefix with all set bits, with the same errors |
| DerWriter.ExtKeyUsage | lib/mbedtls/library/x509write_crt.c:328-363 | the loop from the last list element to the first fills the buffer with the whole SEQUENCE OF, exactly when there are entries, all are object identifiers and they take no more than 253 bytes |
| DerCalls.ExtKeyUsageThereAndBack | lib/mbedtls/library/x509write_crt.c:328-363 | the reader takes the same list in the same order out of the buffer that the writer filled, unless it cannot allocate |
| DerReader.Reader.GetLen | lib/mbedtls/library/asn1parse.c:28-59 | value, rest and error are those of the length rules; the content announced lies before the end |
| DerReader.Reader.GetTag | lib/mbedtls/library/asn1parse.c:61-76 | the same behind the expected tag; the cursor never passes the end |
| DerReader.Reader.GetTaggedInt | lib/mbedtls/library/asn1parse.c:101-146 | value, rest and error are those of the integer rules: leading zeros skipped, negative or too large numbers refused |
| DerReader.Reader.GetBitString | lib/mbedtls/library/asn1parse.c:182-214 | accepts exactly a bit string that ends where the input does |
| DerReader.Reader.TraverseSequenceOf | lib/mbedtls/library/asn1parse.c:220-266 | visits exactly the entries of the list in order until the callback fails; ends on every input, cursor at most at the end |
| DerReader.Reader.GetSequenceOf | lib/mbedtls/library/asn1parse.c:339-349 | the entries of one tag, in order |
| Base64.RoundTrip | lib/mbedtls/library/base64.c:129-255 | an encoding with LF or CRLF put in at any places is accepted, the predicted length is right, and the original bytes come back |
| Base64.PredictionIsExact | lib/mbedtls/library/base64.c:187-252 | for every accepted text the output has exactly the length that the first pass predicts |
| Base64.EncodeReads | lib/mbedtls/library/base64.c:62-124 | the digits of an encoding decode to the bytes |
| Base64.EncodeLength | lib/mbedtls/library/base64.c:74-81 | the encoding has four characters for every three bytes begun |
| Base64.GroupOfThree | lib/mbedtls/library/base64.c:93-103 | three bytes become the four characters of Table 1 of RFC 4648 that spell the same 24 bits |
| Base64.LastGroup | lib/mbedtls/library/base64.c:105-119 | one or two bytes at the end: zero bits fill the last digit, equals signs the group |
| Base64.LineBreaksAreSkipped | lib/mbedtls/library/base64.c:140-160 | line feeds, with or without a carriage return, and spaces before them are skipped |
| Base64.OnlyDigitsCount | lib/mbedtls/library/base64.c:160-185 | the 64 characters and the equals sign count, no other character may occur, nor a space within a line |
| Base64.DigitRoundTrip | lib/mbedtls/library/base64.c:27-57 | each digit map undoes the other: a character has a value exactly when it is the digit for that value |
| Base64Codec.EncodeBuffer | lib/mbedtls/library/base64.c:62-124 | the buffer gets the encoding and a NUL, or is untouched and the room needed is reported |
| Base64Codec.Check | lib/mbedtls/library/base64.c:140-185 | the first pass accepts exactly text in lines with at most two equals signs at its end |
| Base64Codec.Fill | lib/mbedtls/library/base64.c:224-248 | the second pass with its wrapping 32-bit accumulator writes exactly the decoded bytes |
| Base64Codec.DecodeBuffer | lib/mbedtls/library/base64.c:129-255 | success, each error and the length exactly; the corruption report is never made |
| UrlRoundTrip.RoundTrip | src/http/Url.cpp:241-270 | parsing to_string(false) yields the same five components if and only if they are canonical, a condition on the components alone |
| UrlRoundTrip.ParseShape | src/http/Url.cpp:19-208 | what any parse can yield: no NUL, a scheme without delimiters, an authority and a query without inner delimiters |
| UrlRoundTrip.AuthorityReads | src/http/Url.cpp:119-135 | behind an authority the path comes back if and only if it is empty or begins with a slash and holds no delimiter |
| UrlRoundTrip.SlashIsLost | src/http/Url.cpp:86-108 | directly behind a scheme, a slash that begins the path never comes back |
| UrlRoundTrip.BareReads | src/http/Url.cpp:46-84 | a path without scheme and authority comes back exactly under its own condition |
| UrlParser.UrlParser.constructor | src/http/Url.cpp:19-208 | the state machine ends and assigns exactly the components that the text has, up to its first NUL |
| UrlParser.UrlParser.Step | src/http/Url.cpp:46-202 | each branch keeps the meaning of what is left: component by component, state by state |
| UrlLaws.PrintedUrl | src/http/Url.cpp:241-270 | the printed text in its own characters: each delimiter stands only with its component |
| UrlLaws.LeadingSpaceIsSkipped | src/http/Url.cpp:28-30 | the six kinds of space are skipped in front of a URL |
| UrlLaws.OneCharacter | src/http/Url.cpp:46-68 | a single character is a path, unless it is a question mark or a number sign |
| UrlLaws.NulEndsTheText | src/http/Url.cpp:22-202 | nothing behind a NUL is read |

## Left out

- The user interface, registry, threads, logging, DNS and HTTP clients: foreign calls and plumbing.
- TLS, real sockets, zlib and the rest of lwIP: statuses, counts and callbacks are any that the interfaces allow.
- Memory ownership: reference counts, `pbuf_free`, zeroisation, aliasing of freed objects and callbacks that outlive
  a deleted forwarder. A packet handed to a queue must not be in it already.
- Allocation failure inside `pppossl_input`; in the writer it is any choice, in `recv` it is an input.
- Generation of the AES tables and the contents of the S-boxes: any byte permutation with its inverse is covered.
- AriaRotation.Rot128: covers the five amounts by which the key expansion rotates; by a multiple of 32 bits the code,
  which is never asked to, would not rotate.
- Splitting an XTS key into two halves, alignment offsets of key buffers, VIA PadLock, CPU detection and the assembly
  variants of the AES-NI code.
- Poly1305, GHASH and the GCM mode around the multiply.
- The PUSH flag, the `more` hint of a block and the counter of forwarded bytes: hints that change no byte.
- PppLink.Link.Arrive: the peer is taken to parse frames as this code does.
- Tunneler.Tunneler.Turn: sees forwarders by their state only; their bytes are in `PortForwarder`.
- Progress of the tunneler loop beyond `ClosingEnds`: that callbacks end every forwarder, or that the abort timer
  runs, which it does only if a connected forwarder was aborted.
- JsonParser.JsonParser.ParseNumber: `strtod` is taken as exact, without floating-point rounding.
- JsonParser.Printer.DumpJson: doubles, which the C library prints, leave no text.
- Error messages of the JSON parser, `parse_multi` and shape checks: text for people, and easy members.
- DerReader.Reader.TraverseSequenceOf: the two mask tests on a tag are any two tests; the callback collects entries and
  answers as it likes.
- DerWriter.ExtKeyUsage: ends with the encoded list; storing it in the certificate is not part of this model.
- ForwarderRuns.Run: a segment the reply queue refuses is one that does not arrive at this event; a later event may
  bring the same bytes again.
- DER booleans, multi-precision integers, object identifiers and algorithm identifiers: more of the same kind.
- Base64 decoding is not injective (bits behind the last byte are ignored); only the round trip from bytes is proved.
- URL decoding, query maps, the implicit form of `to_string` and the trimming constructor.
