# Verification of the phone's native media and crypto code

This project models three parts of the native code of the KYF42 phone and proves properties of them.

* **Ciphers and base64 of mbed TLS.** AES with generated tables, both key schedules and the table-driven
  rounds; ARIA; the modes CBC, CFB128, CFB8, OFB, CTR and XTS over an arbitrary invertible block cipher,
  which AES is shown to be; GCM multiplication by carry-less products; ARC4; the base64 encoder and the
  two-pass decoder. The theorems are inverse pairs, equality with the standards' definitions, block and byte
  formulas, known answers of the standards, and independence of how data is split over calls.
* **The RTP receive path of baresip.** The jitter buffer with its node pool, wrapping sequence numbers,
  frame count and adaptive depth; loss counting; the put-and-drain loop. The theorems are invariants of
  every reachable state, refinement to a sorted list of packets under unbounded sequence numbers, and
  guarantees over whole runs.
* **Video pacing and timestamp extension of baresip.** The transmit thread as a leaky bucket with burst
  credit, its NACK queue, and the extension of 32-bit RTP timestamps.

## Layout

| files | contents |
|---|---|
| `Bytes`, `Words`, `Words64`, `Arith` | bytes, little-endian words, division with remainder |
| `Gf256`, `AesTables`, `AesSpec`, `Aes`, `AesVectors`, `AesModes` | AES: field, generated tables, standard, code, known answers, instance for the modes |
| `AriaTables`, `SBoxes`, `AriaDiffusion`, `Aria`, `AriaContext`, `AriaVectors` | ARIA: S-boxes and what they compute, diffusion layer, rounds, keys and code, known answers |
| `BlockCipher`, `ByteStream` | what the modes share: an invertible block function, and byte-at-a-time ciphers over calls |
| `Cbc`, `Cfb`, `StreamModes`, `Xts` | modes of operation |
| `Gcm`, `GcmField`, `GcmVectors`, `XtsField` | GCM multiplication, the field laws, a known product, XTS tweaks in the field |
| `Arc4`, `Base64`, `Base64Text` | ARC4; base64, and what its texts stand for |
| `JbufState`, `JbufSound`, `JbufOrder`, `JbufFrames`, `JbufStream`, `JbufAdaptive`, `JbufEffects`, `Jbuf` | jitter buffer: operations on values, invariants, order, frame count, streams, depth, waiting and two puts in a row, and the imperative class |
| `RtpReceive`, `RtpRuns`, `RtpLean`, `RtpSource` | loss counting and the drain loop; order and losses over runs; streams that never overflow; a new source |
| `Pacing`, `Timestamp` | transmit thread; timestamp extension |

Code that works step by step is a method or a class proved against a function of its inputs or old
state; the properties are lemmas about those functions. `dafny verify dfyconfig.toml` checks everything.

## Reading notes

* Bit operations are wrapped in small named functions (`Xor`, `WXor`, `X64`, ...). Lemmas hide those
  bodies and use the algebraic laws; the few facts about bits are lemmas over plain variables.
* A buffer parameter that may be the same as another one in the source may be the same array here; where
  a method requires two arrays to differ, the source gives no meaningful result on equal ones either.
* XTS in one buffer: the source's loop over leftover bytes overwrites input before reading it. The code is
  kept as it is; `Xts.Crypt` says what each case computes and `Xts.InPlaceIsLosslessIff` when data is lost.
* Operations that C leaves undefined in the adaptive step (int32 overflow, conversion of an infinite or
  too large float) yield arbitrary values, the parameter `u: Undefined`; every theorem holds for all of them.
* The documentation of the base64 decoder says that `*olen` is always updated. On an invalid character the
  code leaves it alone (`base64.c:129-147`), and so does `Base64.DecodeInto`.
* Line breaks in base64 are not always neutral: one that follows a space inside a line, or completes a lone CR,
  lets the decoder accept a text it refuses without it. `Base64.InsertKeepsOutcome` has the exact condition.
* Time, the handler's answers and the verdict on a payload type are inputs.

## Model

| member | source | states |
|---|---|---|
| `Gf256.Pow3Order` | kyf42-phone/native/mbedtls/library/aes.c:392-396 | the powers of 3 that the log table is built from return to 1 after 255 steps and no sooner, by ruling out every proper divisor of 255 |
| `Gf256.Pow3Onto` | kyf42-phone/native/mbedtls/library/aes.c:392-396 | every nonzero byte is one of these powers, so the loop fills the whole log table |
| `AesTables.GenPowLog` | kyf42-phone/native/mbedtls/library/aes.c:392-396 | pow[i] is the ith power of 3 and log inverts it on every nonzero byte |
| `AesTables.TableMulCorrect` | kyf42-phone/native/mbedtls/library/aes.c:379 | products through the log and pow tables are the products by 9, 11, 13 and 14 in GF(2^8), for every byte, zero included |
| `AesTables.SBoxInjective` | kyf42-phone/native/mbedtls/library/aes.c:412-423 | inverse followed by the affine map takes no two bytes to the same value |
| `AesTables.GenSBoxes` | kyf42-phone/native/mbedtls/library/aes.c:409-423 | FSb is that map and RSb undoes FSb on every byte |
| `AesTables.GenTables` | kyf42-phone/native/mbedtls/library/aes.c:383-459 | all generated tables: each entry of FT0..FT3 and RT0..RT3 is the rotated column of a (inverse) MixColumns product of an S-box entry |
| `AesSpec.InvMixMix` | kyf42-phone/native/mbedtls/library/aes.c:829-875 | inverse MixColumns undoes MixColumns on every column |
| `AesSpec.InvMixLinear` | kyf42-phone/native/mbedtls/library/aes.c:829-875 | inverse MixColumns distributes over exclusive or, which lets it move into the round keys |
| `AesSpec.EqInvTracks` | kyf42-phone/native/mbedtls/library/aes.c:952-1007 | after i rounds the equivalent inverse cipher holds exactly the state encryption had, by induction over the rounds, for any mutually inverse S-boxes and any round keys |
| `AesSpec.DecryptionUndoesEncryption` | kyf42-phone/native/mbedtls/library/aes.c:691-746 | section 5.3.5 of FIPS 197: with inverse MixColumns applied to the inner round keys, decryption gives back every state |
| `Aes.ForwardRoundState` | kyf42-phone/native/mbedtls/library/aes.c:829-851 | one table-driven round is AddRoundKey after MixColumns after ShiftRows after SubBytes |
| `Aes.ReverseRoundState` | kyf42-phone/native/mbedtls/library/aes.c:853-875 | one table-driven decryption round is the corresponding round of the equivalent inverse cipher |
| `Aes.MixedWordCol` | kyf42-phone/native/mbedtls/library/aes.c:728-735 | RT0(FSb[b]) over the four bytes of a word is inverse MixColumns of the word: RSb(FSb) cancels |
| `Aes.AesContext.SetKeyEnc` | kyf42-phone/native/mbedtls/library/aes.c:589-684 | exactly 128, 192 and 256 bits are accepted, other sizes change nothing; the buffer holds the key schedule of section 5.2 of FIPS 197, and byte by byte: the key itself, then in each group FSb of bytes 1, 2, 3, 0 of the last word with the round constant on byte 0, FSb in the middle of a 256-bit group, and plain words, each XOR the word one group before |
| `Aes.ScheduleBytes` | kyf42-phone/native/mbedtls/library/aes.c:624-679 | every word of an expanded key is byte by byte what the expansion steps say, with the ten round constants in full |
| `AesVectors.KnownSchedule128` | kyf42-phone/native/mbedtls/library/aes.c:624-635 | all eleven round keys of appendix A.1 of FIPS 197, from any table with the values the generator computes |
| `AesVectors.KnownSchedule192` | kyf42-phone/native/mbedtls/library/aes.c:638-653 | the first group of appendix A.2 and the start of the next one |
| `AesVectors.KnownSchedule256` | kyf42-phone/native/mbedtls/library/aes.c:656-679 | the first group of appendix A.3, with the substitution in its middle, and the start of the next one |
| `AesVectors.KnownCipher` | kyf42-phone/native/mbedtls/library/aes.c:881-936 | the ciphertext of appendix B of FIPS 197 |
| `AesVectors.EncryptExample` | kyf42-phone/native/mbedtls/library/aes.c:383-936 | table generation, key setup and block encryption, run through the code, give that ciphertext |
| `Aes.AesContext.SetKeyDec` | kyf42-phone/native/mbedtls/library/aes.c:691-746 | the buffer holds the encryption schedule reversed round by round, inner keys through inverse MixColumns |
| `Aes.AesContext.Reverse` | kyf42-phone/native/mbedtls/library/aes.c:721-740 | the copying loops, with SK running backwards and RK forwards, produce the decryption schedule |
| `Aes.AesContext.Encrypt` | kyf42-phone/native/mbedtls/library/aes.c:881-936 | the loop over pairs of rounds computes the cipher of section 5.1 of FIPS 197, also in place |
| `Aes.AesContext.Decrypt` | kyf42-phone/native/mbedtls/library/aes.c:952-1007 | the loop computes the equivalent inverse cipher, also in place |
| `Aes.BlockRoundTrip` | kyf42-phone/native/mbedtls/library/aes.c:881-1007 | on bytes: decryption under the decryption schedule gives back every 16-byte block |
| `Aes.EncryptThenDecrypt` | kyf42-phone/native/mbedtls/library/aes.c:589-1007 | the whole path (generated tables, both schedules, both transforms in place) restores every block under every key of 16, 24 or 32 bytes |
| `AesModes.AesInvertible` | kyf42-phone/native/mbedtls/library/aes.c:1046-1078 | AES with a mutually inverse S-box pair is an invertible block cipher, so each theorem about a mode below holds of AES |
| `AesModes.AesXtsRoundTrip` | kyf42-phone/native/mbedtls/library/aes.c:1190-1299 | AES-XTS decryption undoes AES-XTS encryption for every length of at least 16 bytes |
| `AesModes.AesCbcRoundTrip` | kyf42-phone/native/mbedtls/library/aes.c:1084-1157 | AES-CBC decryption undoes AES-CBC encryption |
| `AriaTables.LookUndo` | kyf42-phone/native/mbedtls/library/aria.c:212-314 | the literal S-box tables are mutually inverse in pairs, on all 256 entries, both ways |
| `SBoxes.AesBoxIsSb1` | kyf42-phone/native/mbedtls/library/aria.c:212-236 | the first literal table is the S-box that the AES table generator computes: the affine map of the inverse, on every byte |
| `SBoxes.Sb2IsAffine` | kyf42-phone/native/mbedtls/library/aria.c:238-262 | the second literal table is its constant XOR a linear map of the inverse, on every byte |
| `Aria.StepsDiffuse` | kyf42-phone/native/mbedtls/library/aria.c:154-177 | the straight-line word program of aria_a computes the 16 by 16 matrix of section 2.4.3 of RFC 5794 |
| `Aria.AriaA` | kyf42-phone/native/mbedtls/library/aria.c:154-177 | the imperative aria_a on four words equals that matrix |
| `Aria.AriaSl` | kyf42-phone/native/mbedtls/library/aria.c:186-207 | aria_sl substitutes byte k of each word through box k of the layer |
| `AriaDiffusion.DiffuseLinear` | kyf42-phone/native/mbedtls/library/aria.c:154-177 | the matrix distributes over exclusive or |
| `AriaDiffusion.DiffuseInvolution` | kyf42-phone/native/mbedtls/library/aria.c:154-177 | the matrix is its own inverse, on every state |
| `Aria.CryptTracks` | kyf42-phone/native/mbedtls/library/aria.c:488-540 | running the same routine under the reversed, diffused keys passes backwards through the states of the first run; needs an even number of rounds |
| `Aria.CryptUndoesCrypt` | kyf42-phone/native/mbedtls/library/aria.c:455-540 | for every key sequence with an even number of rounds the second run restores the block |
| `AriaContext.RotatedIsRotation` | kyf42-phone/native/mbedtls/library/aria.c:367-387 | the word loop of aria_rot128, on big-endian 128-bit numbers, is a XOR b rotated left by n bits, for every n of the eight-bit range that is no multiple of 32 |
| `AriaContext.RotatesIff` | kyf42-phone/native/mbedtls/library/aria.c:373-374 | that condition is exact: for a multiple of 32 the loop mixes neighbouring words, and some operand is not rotated |
| `AriaContext.AriaContext.SetKeyEnc` | kyf42-phone/native/mbedtls/library/aria.c:392-450 | the round-key buffer holds the key schedule of section 2.2 of RFC 5794 for each key size; other sizes are refused |
| `AriaContext.AriaContext.Flip` | kyf42-phone/native/mbedtls/library/aria.c:468-474 | the swapping loop reverses the round keys, including the middle one for an even count |
| `AriaContext.AriaContext.SetKeyDec` | kyf42-phone/native/mbedtls/library/aria.c:455-483 | after flipping and diffusing, the buffer holds the decryption keys of some valid encryption schedule of the same key; other sizes are refused and change nothing |
| `AriaContext.ScheduleUnique` | kyf42-phone/native/mbedtls/library/aria.c:437-444 | the schedule of a key is unique, so both contexts of one key agree |
| `AriaContext.AriaContext.CryptEcb` | kyf42-phone/native/mbedtls/library/aria.c:488-540 | the loop with its exit in the middle computes the round sequence, also in place |
| `AriaContext.EncryptThenDecrypt` | kyf42-phone/native/mbedtls/library/aria.c:392-540 | for every key size and block, crypt_ecb under setkey_dec undoes crypt_ecb under setkey_enc, in place |
| `AriaVectors.KnownExpansion` | kyf42-phone/native/mbedtls/library/aria.c:412-435 | the four expanded words of the self-test key at 128, 192 and 256 bits |
| `AriaVectors.KnownSchedule128` | kyf42-phone/native/mbedtls/library/aria.c:437-444 | all thirteen round keys of the 128-bit key, with the first four rotations |
| `AriaVectors.KnownSchedule256` | kyf42-phone/native/mbedtls/library/aria.c:437-444 | the last five round keys of the 256-bit key, with the last rotation |
| `AriaVectors.KnownCipher` | kyf42-phone/native/mbedtls/library/aria.c:739-765 | the 128-bit ciphertext of the self-test and of appendix A.1 of RFC 5794 |
| `AriaVectors.EncryptExample` | kyf42-phone/native/mbedtls/library/aria.c:392-540 | key setup and block encryption, run through the code, give that ciphertext |
| `ByteStream.CallsAreOneRun` | kyf42-phone/native/mbedtls/library/aes.c:1306-1513 | for every byte-at-a-time mode, splitting the data over any sequence of calls changes neither output nor final state |
| `ByteStream.RunUndoes` | kyf42-phone/native/mbedtls/library/aes.c:1306-1513 | if one step is undone then every run is, and both runs end in the same state |
| `Cbc.RoundTrip` | kyf42-phone/native/mbedtls/library/aes.c:1118-1152 | CBC decryption from the same vector gives back every whole number of blocks |
| `Cbc.EncryptedBlock` | kyf42-phone/native/mbedtls/library/aes.c:1137-1151 | ciphertext block j is E of plaintext block j XOR ciphertext block j - 1, or the vector for the first |
| `Cbc.DecryptedBlock` | kyf42-phone/native/mbedtls/library/aes.c:1118-1135 | plaintext block j is D of ciphertext block j, XOR ciphertext block j - 1 or the vector |
| `Cbc.EncryptCallsAreOne` | kyf42-phone/native/mbedtls/library/aes.c:1084-1157 | however the data is split over encrypting calls that carry the vector, output and final vector are those of one call |
| `Cbc.DecryptCallsAreOne` | kyf42-phone/native/mbedtls/library/aes.c:1084-1157 | the same for decrypting calls |
| `Cbc.CryptEncrypt` | kyf42-phone/native/mbedtls/library/aes.c:1137-1151 | the loop writes section 6.2 of NIST SP 800-38A, leaves the last ciphertext block as vector, refuses a partial block unchanged, also in place |
| `Cbc.CryptDecrypt` | kyf42-phone/native/mbedtls/library/aes.c:1118-1135 | the decrypting loop, which saves each ciphertext block first, is right also in place, and leaves the same vector as encryption |
| `Cfb.Cfb128RoundTrip` | kyf42-phone/native/mbedtls/library/aes.c:1332-1360 | CFB128 decryption from the same vector and offset undoes encryption of any length, with equal final vectors and offsets |
| `Cfb.Cfb128Block` | kyf42-phone/native/mbedtls/library/aes.c:1347-1359 | 16 encrypting steps from offset 0 are one segment of section 6.3 of NIST SP 800-38A: E of the vector XOR the data, which becomes the vector |
| `Cfb.CryptCfb128` | kyf42-phone/native/mbedtls/library/aes.c:1306-1367 | both loops, with offset and vector carried between calls, are runs of these steps; a bad offset is refused unchanged |
| `Cfb.Cfb8RoundTrip` | kyf42-phone/native/mbedtls/library/aes.c:1372-1412 | CFB8 decryption undoes encryption, with equal final shift registers |
| `Cfb.Cfb8Byte` | kyf42-phone/native/mbedtls/library/aes.c:1389-1407 | ciphertext byte i is plaintext byte i XOR the first byte of E on the 16 bytes of vector and ciphertext before it |
| `Cfb.CryptCfb8` | kyf42-phone/native/mbedtls/library/aes.c:1372-1412 | the loop through the 17-byte window is the shift register of section 6.3, also in place |
| `StreamModes.OfbKeyStream` | kyf42-phone/native/mbedtls/library/aes.c:1441-1451 | from offset 0, output byte i is input byte i XOR byte i mod 16 of E iterated i div 16 + 1 times on the vector |
| `StreamModes.OfbRoundTrip` | kyf42-phone/native/mbedtls/library/aes.c:1441-1451 | a second OFB pass from the same state restores the data |
| `StreamModes.CryptOfb` | kyf42-phone/native/mbedtls/library/aes.c:1419-1457 | the loop is a run of OFB steps; a bad offset is refused unchanged |
| `StreamModes.IncrementIsPlusOne` | kyf42-phone/native/mbedtls/library/aes.c:1496-1500 | the byte-carry loop with early exit is +1 modulo 2^128 on the big-endian counter |
| `StreamModes.IncrementBytes` | kyf42-phone/native/mbedtls/library/aes.c:1496-1500 | byte i of the counter is incremented exactly when all bytes after it are 0xFF, and otherwise stays |
| `StreamModes.CtrKeyStream` | kyf42-phone/native/mbedtls/library/aes.c:1489-1506 | from offset 0, output byte i is input byte i XOR byte i mod 16 of E(counter0 + i div 16 mod 2^128) |
| `StreamModes.CtrRoundTrip` | kyf42-phone/native/mbedtls/library/aes.c:1489-1506 | a second CTR pass from the same state restores the data |
| `StreamModes.CryptCtr` | kyf42-phone/native/mbedtls/library/aes.c:1464-1513 | the loop is a run of CTR steps; a bad offset is refused unchanged |
| `Xts.DoubleIsAlpha` | kyf42-phone/native/mbedtls/library/aes.c:1172-1185 | the two-word shift with its 0x87 feedback is the byte-by-byte multiplication by the primitive element of section 5.2 of IEEE 1619-2007 |
| `Xts.KnownAlpha` | kyf42-phone/native/mbedtls/library/aes.c:1172-1185 | the first byte is the least significant: its carry goes into the second one, and the carry of the last byte comes back as 0x87 in the first |
| `Xts.WholeAt` | kyf42-phone/native/mbedtls/library/aes.c:1228-1258 | after n turns whole block i stands at its place, masked with the tweak of its own number; only the last whole block of a decryption with leftover bytes is under the next tweak |
| `Xts.WholeBlock` | kyf42-phone/native/mbedtls/library/aes.c:1228-1258 | each whole block that has no part in the stealing is masked with its tweak, transformed and masked again, in both modes and for one or two buffers |
| `Xts.StolenBlocks` | kyf42-phone/native/mbedtls/library/aes.c:1261-1296 | the last whole block under its tweak (the next one when decrypting) gives y; the first bytes of y end the output, and the leftover bytes completed by the rest of y are transformed before them under the other tweak; in one buffer the first bytes of y have taken the place of the leftover ones |
| `XtsField.AlphaIsMulX` | kyf42-phone/native/mbedtls/library/aes.c:1172-1185 | doubling a tweak is multiplying by x in the field GF(2^128) that GCM multiplies in, read with mirrored bits |
| `XtsField.TweakIsProduct` | kyf42-phone/native/mbedtls/library/aes.c:1254-1255 | the tweak of block j is the product of x^j and the first tweak in GF(2^128), for every j |
| `XtsField.TweaksEqualIff` | kyf42-phone/native/mbedtls/library/aes.c:1254-1255 | reading a tweak as a field element loses nothing: two blocks are masked alike if and only if these products are equal |
| `Xts.RoundTrip` | kyf42-phone/native/mbedtls/library/aes.c:1190-1299 | decryption, with the last two tweaks in the other order, undoes encryption for every length of at least 16, stolen bytes included |
| `Xts.CryptXts` | kyf42-phone/native/mbedtls/library/aes.c:1190-1299 | the code computes sections 5.3 and 5.4 of IEEE 1619-2007 for separate buffers, and exactly what it computes when input and output coincide; lengths under 16 or over 2^24 are refused unchanged |
| `Xts.TailLost` | kyf42-phone/native/mbedtls/library/aes.c:1275-1278 | in one buffer the leftover bytes never reach the output, when encrypting or decrypting |
| `Xts.InPlaceIsLosslessIff` | kyf42-phone/native/mbedtls/library/aes.c:1266-1296 | in one buffer encryption, and likewise decryption, keeps all data units of a length apart if and only if the length is a multiple of 16 |
| `Gcm.ClmulWideXor` | kyf42-phone/native/mbedtls/library/aesni.c:115-132 | the 256-bit product from four carry-less products is linear in its first factor |
| `Gcm.NextShifted` | kyf42-phone/native/mbedtls/library/aesni.c:134-150 | the one-bit shift of such a product moves every bit one place and loses none |
| `Gcm.FinishHalves` | kyf42-phone/native/mbedtls/library/aesni.c:152-178 | reducing a product is reducing its double and dividing by x in the field: the two-step reduction respects the polynomial |
| `Gcm.MultiplyIsDot` | kyf42-phone/native/mbedtls/library/aesni.c:115-209 | carry-less product, shift and reduction equal algorithm 1 of section 6.3 of NIST SP 800-38D, for all pairs of blocks |
| `GcmField.PolynomialReduces` | kyf42-phone/native/mbedtls/library/aesni.c:194-198 | x^128 times a block is (x^7 + x^2 + x + 1) times it: the field polynomial |
| `GcmField.Commutative` | kyf42-phone/native/mbedtls/library/aesni.c:180-209 | the product is commutative |
| `GcmField.Associative` | kyf42-phone/native/mbedtls/library/aesni.c:180-209 | the product is associative |
| `GcmField.TimesIsDot` | kyf42-phone/native/mbedtls/library/aesni.c:180-209 | multiplying n times by x is multiplying by the nth power of x; with linearity this fixes the product completely |
| `GcmVectors.KnownProduct` | kyf42-phone/native/mbedtls/library/aesni.c:180-209 | a known answer on bytes: x times x^127 is the block E1 00 .. 00 |
| `GcmVectors.MultiplyExample` | kyf42-phone/native/mbedtls/library/aesni.c:180-209 | the code computes that product in place |
| `Gcm.BlockLanes` | kyf42-phone/native/mbedtls/library/aesni.c:186-190 | reading a block into lanes and writing it back gives the block |
| `Gcm.LanesBlock` | kyf42-phone/native/mbedtls/library/aesni.c:186-206 | writing lanes as a block and reading them back gives the lanes |
| `Gcm.GcmMult` | kyf42-phone/native/mbedtls/library/aesni.c:180-209 | with the byte-reversal loops, c is the product of a and b in GF(2^128), also when c is a or b |
| `Arc4.ScheduledPermutes` | kyf42-phone/native/mbedtls/library/arc4.c:60-69 | after every round of setup, for every nonempty key, the table is a permutation of 0..255 |
| `Arc4.OneRound` | kyf42-phone/native/mbedtls/library/arc4.c:60-69 | round i of setup moves j on by entry i plus key byte i mod the key length and exchanges the two entries, all others staying |
| `Arc4.OneByte` | kyf42-phone/native/mbedtls/library/arc4.c:82-95 | an output byte moves x on by one and y by entry x, exchanges the two entries, and is the input XOR the entry at their sum |
| `Arc4.EveryTableHasKey` | kyf42-phone/native/mbedtls/library/arc4.c:43-70 | the key reaches the table: every permutation of 0..255 is the table of some key |
| `Arc4.StillKeyStream` | kyf42-phone/native/mbedtls/library/arc4.c:75-101 | a known answer: the key stream of a given key starts 02 05 07 |
| `Arc4.Arc4Context.Round` | kyf42-phone/native/mbedtls/library/arc4.c:60-69 | on the array: entries i and j are exchanged, for the j of the schedule, and every other entry is unchanged |
| `Arc4.Arc4Context.Advance` | kyf42-phone/native/mbedtls/library/arc4.c:82-95 | on the array: entries x and y are exchanged, every other entry is unchanged, and the key stream byte is the entry at their sum |
| `Arc4.AlwaysPermutation` | kyf42-phone/native/mbedtls/library/arc4.c:43-101 | after setup and any amount of output the table is still a permutation |
| `Arc4.KeyStream` | kyf42-phone/native/mbedtls/library/arc4.c:86-95 | output byte i is input byte i XOR a key stream byte that no input byte influences |
| `Arc4.RoundTrip` | kyf42-phone/native/mbedtls/library/arc4.c:75-101 | a second pass from the same context restores the data, however each pass is split over calls |
| `Arc4.Arc4Context.Setup` | kyf42-phone/native/mbedtls/library/arc4.c:43-70 | the loop with its wrapping key index leaves the table that 256 rounds of the schedule make of key byte i mod the key length |
| `Arc4.Arc4Context.Crypt` | kyf42-phone/native/mbedtls/library/arc4.c:75-101 | the swapping loop is a run of cipher steps and leaves the context ready for the next call |
| `Base64.DigitOfValue` | kyf42-phone/native/mbedtls/library/constant_time.c:288-317 | decoding a digit undoes encoding its value, and digits are neither padding nor white space |
| `Base64Text.WholeAlphabet` | kyf42-phone/native/mbedtls/library/constant_time.c:288-300 | the digits of the values 0 to 63, in order, are the alphabet of table 1 of RFC 4648 |
| `Base64Text.GroupIsNumber` | kyf42-phone/native/mbedtls/library/base64.c:55-66 | the four digits of three bytes are the base-64 digits of their 24-bit number, most significant first |
| `Base64Text.PaddedTexts` | kyf42-phone/native/mbedtls/library/base64.c:69-85 | the texts of section 10 of RFC 4648 for f, fo and foo |
| `Base64Text.AcceptedIff` | kyf42-phone/native/mbedtls/library/base64.c:105-150 | a text without white space is accepted if and only if it is letters of the alphabet followed by at most two = characters, and counted accordingly |
| `Base64Text.FourSymbols` | kyf42-phone/native/mbedtls/library/base64.c:170-192 | four symbols give the first bytes of their 24-bit number, one less for each = character, whatever the unused bits of the last digit |
| `Base64.RunEncode` | kyf42-phone/native/mbedtls/library/base64.c:170-192 | the second pass gives back every byte string that was encoded, whatever its accumulator held before |
| `Base64.ScanEncode` | kyf42-phone/native/mbedtls/library/base64.c:105-150 | the first pass accepts every encoding, with 4*ceil(n/3) symbols and the right padding |
| `Base64.RoundTrip` | kyf42-phone/native/mbedtls/library/base64.c:27-197 | decode of encode is the identity into any buffer of at least the data's size; a smaller one is refused with the exact size |
| `Base64.PromisedIsCeiling` | kyf42-phone/native/mbedtls/library/base64.c:157-162 | the overflow-free formula is ceil(6n/8) less padding |
| `Base64.WritesWithinPromise` | kyf42-phone/native/mbedtls/library/base64.c:105-192 | on every accepted text the second pass writes at most the promised length, and exactly that if and only if the symbols modulo 4 do not exceed the padding |
| `Base64.InsertKeepsOutcome` | kyf42-phone/native/mbedtls/library/base64.c:105-192 | for every text, accepted or not: inserting a line break anywhere, or spaces at the end of a line or of the text, changes the outcome if and only if it tears a CR LF of an accepted text, or mends a rejected one by ending a line after a space inside it or completing a lone CR |
| `Base64.AcceptedKeepsOutcome` | kyf42-phone/native/mbedtls/library/base64.c:105-192 | so an accepted text keeps its outcome if and only if no CR LF is torn apart |
| `Base64.SpaceInsideLine` | kyf42-phone/native/mbedtls/library/base64.c:128-131 | spaces inserted anywhere else make every text invalid |
| `Base64.BreakMendsText` | kyf42-phone/native/mbedtls/library/base64.c:128-131 | the inputs that show mending: AB, space, CD is refused and is accepted with a line feed after the space; a lone CR is refused and is accepted once LF follows |
| `Base64.EncodeInto` | kyf42-phone/native/mbedtls/library/base64.c:27-89 | the encoder with its size checks: contents, terminating zero, reported length in every case, and an untouched buffer on refusal |
| `Base64.CheckText` | kyf42-phone/native/mbedtls/library/base64.c:105-150 | the first-pass loops return the verdict, symbol count and padding of the scanner |
| `Base64.DecodeInto` | kyf42-phone/native/mbedtls/library/base64.c:94-197 | the two-pass decoder in every outcome; decoding into the source buffer itself is right too |
| `JbufSound.PlaceIs` | kyf42-phone/native/baresip/src/jbuf.c:425-460 | the search from the tail skips exactly packets that are neither smaller nor equal, and stops behind a smaller one or at an equal one |
| `JbufSound.InsertOrdered` | kyf42-phone/native/baresip/src/jbuf.c:425-460 | insertion keeps all neighbours in wrapping sequence order, with no assumption on the numbers |
| `JbufSound.AllocConserves` | kyf42-phone/native/baresip/src/jbuf.c:145-175 | taking or stealing a node takes exactly one node out of circulation |
| `JbufSound.StoreConserves` | kyf42-phone/native/baresip/src/jbuf.c:425-487 | storing or refusing the packet brings that node back into buffer or pool |
| `JbufSound.AlwaysSound` | kyf42-phone/native/baresip/src/jbuf.c:145-187 | in every state reachable by puts, gets, drains, flushes and timer steps, pool and buffer together hold each allocated node exactly once, n counts the buffer, neighbours are ordered and wish is at least min |
| `JbufEffects.GetIff` | kyf42-phone/native/baresip/src/jbuf.c:518-573 | get hands out the head if and only if nf is above wish and the list is not empty, never leaves fewer than wish frames, and asks to be called again exactly while nf stays above wish; otherwise nothing changes |
| `JbufEffects.FixedWaits` | kyf42-phone/native/baresip/src/jbuf.c:518 | after every run a fixed buffer hands out a packet exactly when more than min frames are buffered |
| `JbufEffects.DrainIff` | kyf42-phone/native/baresip/src/jbuf.c:600-625 | drain hands out the head of every buffer that is not empty, whatever is wished for |
| `JbufEffects.PutRemembers` | kyf42-phone/native/baresip/src/jbuf.c:376-396 | a put remembers its time, its SSRC and the first payload type |
| `JbufEffects.StartLeavesOne` | kyf42-phone/native/baresip/src/jbuf.c:380-393 | of two puts with any gets, drains and timer steps between: if the second comes from another SSRC than a nonzero first one, or carries the marker more than 400 ms after it, it leaves exactly its own packet, whatever was buffered |
| `JbufEffects.ContinuesOnList` | kyf42-phone/native/baresip/src/jbuf.c:380-393 | and with neither, it acts as a put on the sorted list of the packets before |
| `JbufEffects.TimerLowers` | kyf42-phone/native/baresip/src/jbuf.c:290-299 | k firings of the timer lower wish by k, as far as min |
| `JbufEffects.NextIsExpected` | kyf42-phone/native/baresip/src/jbuf.c:323-324 | after a put of number x, the sample of number x + 1 + d is 1024 times the distance d, early or late |
| `JbufOrder.SeqLessIsLess` | kyf42-phone/native/baresip/src/jbuf.c:85-88 | for numbers less than 2^15 apart the 16-bit comparison is the comparison of the unwrapped numbers |
| `JbufOrder.PutLockedShows` | kyf42-phone/native/baresip/src/jbuf.c:395-487 | within the window, put acts on the buffer as put acts on a duplicate-free sorted list of packets: late if not after the last played, a full list loses its smallest first, equal errors |
| `JbufOrder.PlayShows` | kyf42-phone/native/baresip/src/jbuf.c:529-566 | get and drain hand out the packet with the smallest number, with the header and data it was put with |
| `JbufOrder.StepShows` | kyf42-phone/native/baresip/src/jbuf.c:363-674 | every operation keeps the buffer in step with the list, flushes by SSRC change or timeout included |
| `JbufOrder.PlayedInOrder` | kyf42-phone/native/baresip/src/jbuf.c:404-412 | over every run within the window played numbers strictly increase, except right after a flush or after number 0 modulo 2^16 |
| `JbufOrder.OlderRefusedIff` | kyf42-phone/native/baresip/src/jbuf.c:404-412 | that exception is exact: in every state in step with a list, a put without a flush right after a packet is played refuses a number up to it if and only if the played 16-bit number is not 0 |
| `JbufOrder.OlderAfterZero` | kyf42-phone/native/baresip/src/jbuf.c:404-412 | the input that shows it: with number 0 put and played, number 65535 is let in and is the next one played |
| `JbufFrames.RunsAreTimestamps` | kyf42-phone/native/baresip/src/jbuf.c:474-486 | when packets of a frame are neighbours, the stretches of equal timestamps are the distinct timestamps |
| `JbufFrames.StoreCountsIff` | kyf42-phone/native/baresip/src/jbuf.c:474-486 | storing keeps nf in step with the frames if and only if the packet does not come between two packets of another frame |
| `JbufFrames.SplitUnderflows` | kyf42-phone/native/baresip/src/jbuf.c:474-486 | the input that shows the failing half: packets 1, 3 and 2, the last from another frame, put into a new buffer and drained, leave it empty with nf at 2^32 - 1 |
| `JbufFrames.CountIsExact` | kyf42-phone/native/baresip/src/jbuf.c:555-566 | nf is buffered frames plus stolen frames, so it never underflows, and an empty buffer has nf zero if and only if nothing was stolen |
| `JbufFrames.FramesAreCounted` | kyf42-phone/native/baresip/src/jbuf.c:145-187 | in every state of a run whose puts keep the packets of a frame together, nf is the number of distinct buffered timestamps plus the frames stealing has removed since the last flush |
| `JbufStream.StreamIsOrdered` | kyf42-phone/native/baresip/src/jbuf.c:425-487 | puts keep the packets of a frame together over every run within the window in which each packet carries the low 32 bits of a timestamp that does not decrease with its unwrapped number and moves less than 2^32 ticks within 2^15 numbers |
| `JbufStream.StreamFramesAreCounted` | kyf42-phone/native/baresip/src/jbuf.c:145-187 | so over every such stream from a new buffer, with reordering, duplicates, flushes and stealing, nf is distinct buffered timestamps plus stolen frames and never falls below zero |
| `JbufAdaptive.AverageIsBetween` | kyf42-phone/native/baresip/src/jbuf.c:323-328 | every update that does not overflow goes half of the way up to a larger sample, or down to a smaller one by 1/1024 of the way at a wish over 2, 2/1024 at 2 and 3/1024 below, never past it, and keeps the average in the range the overflow condition covers |
| `JbufAdaptive.WithinReach` | kyf42-phone/native/baresip/src/jbuf.c:323-328 | packets up to distance 4095 never overflow an average that such packets made, and leave one of the same kind |
| `JbufAdaptive.OverflowIff` | kyf42-phone/native/baresip/src/jbuf.c:323-328 | for every average from 0 to a third of the int32 range, which no update that fits leaves, the update overflows int32 if and only if the sample is 2^22 or more above it |
| `JbufAdaptive.SettledOverflowIff` | kyf42-phone/native/baresip/src/jbuf.c:323-328 | so from a zero average 4095 is exactly the largest distance that does not overflow |
| `JbufAdaptive.RatioDefinedIff` | kyf42-phone/native/baresip/src/jbuf.c:318-321 | the packet to frame ratio divides by zero exactly when frames were stolen and the buffer then ran empty |
| `JbufAdaptive.RatioIsLost` | kyf42-phone/native/baresip/src/jbuf.c:318-321 | the input that shows it: two puts into a new adaptive buffer of one node, then a get, leave no packet and one frame, with the next put due to divide |
| `JbufAdaptive.WishBelowMax` | kyf42-phone/native/baresip/src/jbuf.c:318-351 | with min below max and no more frames than packets, an update keeps wish between min and max - 1 |
| `JbufAdaptive.WishIsSmoothedDistance` | kyf42-phone/native/baresip/src/jbuf.c:302-351 | with no more frames than packets, wish moves up at once to the smoothed distance in frames, raised to min and cut below the frames that fit; it goes down only by the timer, which runs exactly while wish is above that target and fires within 1 s, or 6 s for the last step |
| `JbufAdaptive.AlwaysAdapted` | kyf42-phone/native/baresip/src/jbuf.c:290-351 | over every run within reach the average never overflows and wish stays between min and max - 1 |
| `Jbuf.Jbuf.PutPacket` | kyf42-phone/native/baresip/src/jbuf.c:363-494 | the imperative put, with its flushes, search and stealing, on the two lists and all fields; its time and SSRC are remembered |
| `Jbuf.Jbuf.StorePacket` | kyf42-phone/native/baresip/src/jbuf.c:422-486 | a duplicate is inserted and released again, leaving the list as it was; any other packet is inserted at the place found |
| `Jbuf.Jbuf.GetPacket` | kyf42-phone/native/baresip/src/jbuf.c:507-578 | the imperative get: nothing exactly when nf <= wish or the list is empty, otherwise the head, and EAGAIN exactly while nf stays above wish |
| `Jbuf.Jbuf.DrainPacket` | kyf42-phone/native/baresip/src/jbuf.c:589-632 | the imperative drain |
| `Jbuf.Jbuf.FlushAll` | kyf42-phone/native/baresip/src/jbuf.c:639-674 | the flushing loop returns every node to the pool in list order |
| `Jbuf.Jbuf.UpdateAverage` | kyf42-phone/native/baresip/src/jbuf.c:323-328 | unless the update overflows, the new average is half way up to a larger sample, or 1/1024, 2/1024 or 3/1024 of the way down to a smaller one by the wish, and stays in range |
| `Jbuf.Jbuf.CalcDepth` | kyf42-phone/native/baresip/src/jbuf.c:302-351 | the imperative adaptive step, from ratio and average to wish and timer |
| `RtpReceive.LossConservation` | kyf42-phone/native/baresip/src/rtprecv.c:230-248 | over every run of deliveries with steps from 1 to 2999, packets delivered after the first plus losses reported equal the unwrapped distance from first to last |
| `RtpReceive.RefusedIff` | kyf42-phone/native/baresip/src/rtprecv.c:230-248 | duplicate or misorder is reported exactly for steps of 0 to -100 modulo 2^16 |
| `RtpRuns.PlayedIsAccepted` | kyf42-phone/native/baresip/src/rtprecv.c:333-339 | over every jitter buffer run within the window, a packet played after a number that is not 0 modulo 2^16, with no flush between, is never reported as duplicate or misordered |
| `RtpRuns.StretchConserves` | kyf42-phone/native/baresip/src/rtprecv.c:230-248 | over every such run, in every stretch it plays with steps up to 2999, no flush and no number 0 modulo 2^16 on the way, packets plus losses are the whole distance and nothing is refused |
| `RtpRuns.DrainAccounts` | kyf42-phone/native/baresip/src/rtprecv.c:322-349 | the drain loop passes on exactly the packets the buffer plays, in order, and the losses it reports with them and pseq are those of lostcalc over their numbers |
| `RtpRuns.RunInOrder` | kyf42-phone/native/baresip/src/rtprecv.c:411-461 | over every receiver run within the window (packets, SSRC changes, flushes, timer) the numbers played increase, except right after a flush and after number 0 modulo 2^16 |
| `RtpRuns.RunAccounts` | kyf42-phone/native/baresip/src/rtprecv.c:411-461 | over every such run from one source, what is passed on is what the buffer plays, and all reported losses and the final pseq account for exactly these numbers |
| `RtpRuns.ReceiverConserves` | kyf42-phone/native/baresip/src/rtprecv.c:230-461 | so packets passed on plus the losses reported with them are the whole distance from the number passed on before the run to the last one, where pseq ends |
| `RtpRuns.RunPassesOn` | kyf42-phone/native/baresip/src/rtprecv.c:230-461 | a run whose last number is not 0 modulo 2^16 and not refused by lostcalc leaves the receiver where such a stretch can start |
| `RtpRuns.StretchAfterRun` | kyf42-phone/native/baresip/src/rtprecv.c:230-461 | so stretches chain: after any such run, from a new receiver on, the next stretch accounts for its whole distance from where the run ended |
| `RtpRuns.FirstPacketEndsAt` | kyf42-phone/native/baresip/src/rtprecv.c:411-461 | the first packet of a new receiver with no minimum is such a run, unless its number is 0 modulo 2^16 |
| `RtpSource.NewSource` | kyf42-phone/native/baresip/src/rtprecv.c:419-461 | a packet from another source leaves nothing of the old one: with a wish it is alone in the buffer and pseq is one before it, without one it is passed on at once with no loss reported |
| `RtpSource.RefusedKeepsBuffer` | kyf42-phone/native/baresip/src/rtprecv.c:432-436 | a packet the handler refuses passes nothing on and leaves the buffer alone; only the source is taken over |
| `RtpLean.DrainLean` | kyf42-phone/native/baresip/src/rtprecv.c:456-460 | with one packet per frame the drain loop takes exactly the frames above wish: from above wish it ends with nf equal to wish, from below it takes nothing, whatever the handler asks for |
| `RtpLean.PutLean` | kyf42-phone/native/baresip/src/jbuf.c:395-487 | with room in the buffer a put takes a free node, and packets stay frames of their own |
| `RtpLean.CalmNeverFull` | kyf42-phone/native/baresip/src/rtprecv.c:438-461 | over every run within the window in which no packet shares its timestamp with a buffered one of another number, every packet that reaches the buffer finds a free node, every decode leaves nf <= wish <= max - 1, and one that passes anything on leaves nf equal to wish |
| `RtpLean.StreamNeverOverflows` | kyf42-phone/native/baresip/src/rtprecv.c:438-461 | that holds from a new receiver with min below max, in fixed and adaptive mode and with flushes at any time, for every stream in which each packet carries the low 32 bits of a timestamp that grows with its unwrapped number |
| `RtpLean.NewCalm` | kyf42-phone/native/baresip/src/rtprecv.c:699-736 | a newly allocated receiver with min below max is in the state the run theorem starts from |
| `RtpReceive.RtpReceiver.CountLost` | kyf42-phone/native/baresip/src/rtprecv.c:230-248 | for every pair of unwrapped numbers behind pseq and sn: a step forward of less than 3000 reports the numbers between as lost and a longer one none, a step of 0 to -100 is refused and leaves pseq, and every other step moves pseq |
| `RtpReceive.RtpReceiver.DecodePacket` | kyf42-phone/native/baresip/src/rtprecv.c:411-461 | the imperative SSRC handling, put and drain, with every packet passed on and the losses reported before it |
| `Pacing.CapNeverFires` | kyf42-phone/native/baresip/src/video.c:546-554 | over every fair run the target is at most max_delay ahead of the clock, so the delay is never cut short |
| `Pacing.NextVirtual` | kyf42-phone/native/baresip/src/video.c:555-563 | the schedule never runs ahead of the packets and never lags the clock by more than the burst time |
| `Pacing.RateBound` | kyf42-phone/native/baresip/src/video.c:524-568 | between any two sends, bits sent are at most bitrate times (elapsed time plus burst time) plus one packet, up to one microsecond of rounding |
| `Pacing.ScheduleIsLargest` | kyf42-phone/native/baresip/src/video.c:546-563 | over every fair run the schedule is the largest of the accounts of bits sent since the start or since some earlier turn less its burst time |
| `Pacing.DelayIsExact` | kyf42-phone/native/baresip/src/video.c:546-560 | the converse of the bound, over every fair run: a packet waits past time t if and only if the bits sent since the start, or since some earlier turn, have used up bitrate times (time up to t plus burst time), to the microsecond; a packet taken when no account is used up is sent at once |
| `Pacing.BurstCredit` | kyf42-phone/native/baresip/src/video.c:526-527 | the burst time is worth the configured burst bits, up to one microsecond of rounding |
| `Pacing.CapRestarts` | kyf42-phone/native/baresip/src/video.c:548-554 | any sleep is at most the time of one full packet plus 1 microsecond, and after a longer wait was cut the schedule goes on from the time of that send |
| `Pacing.UnexpiredIs` | kyf42-phone/native/baresip/src/video.c:571-590 | the kept packets are exactly those sent at most 500 ms before |
| `Pacing.CapFitsIff` | kyf42-phone/native/baresip/src/video.c:525-553 | max_delay fits the unsigned int it is cast to if and only if the bitrate is at least 3 bit/s |
| `Pacing.DropIsExact` | kyf42-phone/native/baresip/src/video.c:579-590 | on a monotone clock dropping from the head of the NACK queue drops exactly the expired packets |
| `Pacing.TransmitThread` | kyf42-phone/native/baresip/src/video.c:512-595 | the sleeps the loop asks for over a run: under fair timing each one lasts exactly while some account of bits sent is used up, so packets on time are not held back; the NACK queue is left with exactly the packets taken at most 500 ms before the last one |
| `Timestamp.WrapByDifference` | kyf42-phone/native/baresip/src/timestamp.c:24-41 | both branches of timestamp_wrap depend on the difference modulo 2^32 only |
| `Timestamp.WrapIsEpochStep` | kyf42-phone/native/baresip/src/timestamp.c:24-41 | for any two true timestamps the result is the number of wraps between them if and only if they are less than 2^31 ticks apart, or 2^31 ticks with no wrap between |
| `Timestamp.RunTracks` | kyf42-phone/native/baresip/src/video.c:695-727 | over every run of packets whose wraps timestamp_wrap counts rightly against the last accepted one, the receiver holds the last accepted timestamp and the wraps since the first |
| `Timestamp.ExtendedIsTrue` | kyf42-phone/native/baresip/src/timestamp.c:65-86 | the extended timestamp and the duration are those of the unwrapped timestamps modulo 2^64, with backward wraps discarded and other reordering accepted |
| `Timestamp.HalfStepIsLost` | kyf42-phone/native/baresip/src/timestamp.c:24-41 | a step of exactly 2^31 ticks across a wrap is taken for no wrap |
| `Timestamp.TimestampRecv.UpdateRtp` | kyf42-phone/native/baresip/src/video.c:695-727 | a receiver that tracks a run of true timestamps tracks it after the next packet, which becomes the last one unless it is from before the last wrap |
| `Timestamp.TimestampRecv.Receive` | kyf42-phone/native/baresip/src/video.c:695-727 | a whole run through the imperative update ends with the true extended timestamp |

## Left out

- Hardware paths: AES-NI key schedule and rounds, VIA PadLock, inline assembly, buffer alignment and zeroising.
- mbedtls_aes_xts_decode_keys and the XTS key setup: the cipher and the tweak encryption are parameters of `Xts.CryptXts`.
- The branch of mbedtls_aes_crypt_ecb that passes on errors of the block function: the block transforms modelled here cannot fail.
- ARIA in CBC, CFB128 and CTR mode: the same loops as the AES modes, over another block cipher.
- GCM apart from the multiplication: GHASH over many blocks and the counter handling are in gcm.c.
- The masks of the constant-time character maps: `Base64.EncChar` and `Base64.DecValue` give their values by ranges.
- Parameter validation macros and NULL checks, apart from the NULL destination of base64.
- Jbuf.Jbuf.PutPacket: statistics counters, tracing and debug output are not modelled; the mutex makes each operation one atomic step.
- Jbuf.Jbuf.CalcDepth: the float ratio is an exact fraction, so single-precision rounding near a whole number of frames is not modelled.
- JbufAdaptive.WishBelowMax: max / ratio is an exact fraction too, so single-precision rounding of a max above 2^24 is not modelled.
- The doubly linked lists of struct jbuf are sequences of node numbers: pointer updates inside list_insert_after and list_unlink are not modelled.
- Memory reference counts of packets, and timer scheduling other than when the rdiff timer is set, restarted, cancelled and fires.
- jbuf_set_type after allocation: the buffer's type is fixed when it is created.
- rtprecv worker threads, deferred work items, RTP header extension decoding, RTCP and metrics.
- RtpReceive.RtpReceiver.DecodePacket: starts at the SSRC check; the checks before it only drop a packet.
- Pacing.TransmitThread: `sent` is an unbounded number, so the wrap of `sent * 1000000` in size_t is not modelled; the queue's mutex and condition variable are left out.
- The NACK handler's use of the queue, and everything else of video.c: codecs, filters, frames, RTCP.
- Timestamp.TimestampRecv.Receive: the audio receiver's timestamp path, which also moves `last` on a discarded packet, is not covered.
- Call control, SIP, audio devices, configuration and module loading of baresip.
