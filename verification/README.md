# Proofs for a smart-home hub

The repository holds a hub server, its nodes, and the libraries they share: the packet protocol, a receive ring buffer, an array list, tinyECDH and mbed TLS. This project models the parts of it whose correctness rests on algebra, on state kept across calls, or on two pieces of code undoing each other, and proves those properties for all inputs, runs and interleavings. `dafny verify dfyconfig.toml` checks everything.

## What is modelled

`ecdh/` is `misc/tinyECDH/ecdh.c`. `Bits` and `Field` are polynomials over GF(2), kept as natural numbers, modulo a polynomial of degree m. `WordVector` and `Ecdh` are the C routines on arrays of 32-bit words, each proved against the number its vectors denote, including the shift-and-swap inversion with its Euclid invariant. `RawField` and `RawCurve` say what multiplication, inversion, the check of a public key and the point arithmetic do on vectors that are not reduced, as keys from the network may be. `Curve` is the group law in the form the code computes it, with the proofs that it is the chord and tangent law, that it stays on the curve and that double-and-add gives two parties one secret. `SmallCurve` holds an instance over GF(8) and one over GF(4).

`ciphers/` is `aes.c`, `aria.c` and `camellia.c` of mbed TLS. `Spn` says why substitution-permutation rounds are inverted by the same rounds under a reversed schedule whose inner keys went through the linear layer; `Aes` and `Aria` are instances of it. `AesTables` and `AesColumns` connect the table rounds with MixColumns, `AesField` the S-box table with inversion and the columns with products in GF(2^8), `AesGen` proves the tables generated at start-up equal to the ROM tables, and `AesCode` holds key setup and block processing. `AesVector` follows a key of 128 bits and a block through the schedule and the rounds to the ciphertext that the repository's own test vector lists. `Camellia` proves that the reversed subkey pairs undo the Feistel rounds and the FL layers. `Cbc`, `Cfb`, `Ctr` and `Xts` are the modes over any cipher whose decryption inverts its encryption, with the state they carry between calls; `Gf128` is the tweak multiplication.

`codecs/` is `base64.c`, `asn1write.c` and `asn1parse.c`. `Base64` covers both passes of the decoder. `Der` defines the encodings and what a parser reads from them, `Asn1Write` the writers that move down a buffer, `Asn1Parse` the readers that move up, and `Asn1RoundTrip` runs them against each other on one buffer.

`protocol/` is the hub's own protocol: the packet container and its in-place byte-order walks (`PckData`), the message around AES-GCM (`Message`), the reassembly of messages from a ring buffer (`Receive`), the session-id handshake as a two-party state machine (`Handshake`), and the byte-level command list shared by two threads (`CommandQueue`).

A specification function says what a method leaves behind, the method is proved equal to it, and the lemmas are about that function: what it computes, written out without it, and what follows. Bytes are numbers below 256 where the code does arithmetic on them, and bit vectors where it only moves and combines bits.

## Hypotheses

- The reduction polynomial is irreducible and the base point lies on the curve (`Params.Valid`); both are facts about the B-163 constants that a reader can check separately. `SmallCurve.GF8Valid` proves them for a small curve.
- Associativity of the curve addition (`Associative`) is a hypothesis of the statements about multiples and of the key exchange; that the addition is the chord and tangent law, commutativity, the neutral element, negatives and closure are proved. `SmallCurve.GF4Associative` proves it for a curve over GF(4).
- The block cipher of a mode of operation inverts its own encryption; `AesSBox.AesCipherInverse` shows it for AES.
- AES-GCM is a pair of functions of which the second opens what the first sealed (`Aead.Correct`).

## Where the code differs from its description

- The comment at `misc/tinyECDH/ecdh.c:740` promises a private key of at least 1. The size check comes before the bits are cleared, so a key can become 0: `PrivateKeyCleared` gives one, `PrivateKeyNonZero` says exactly when the promise holds.
- The check of a public key (`misc/tinyECDH/ecdh.c:760-762`) does not look at the digits above the field degree except through arithmetic. `OnCurve` says exactly which pairs pass; beside every finite point there is one that passes and is no point (`AcceptsTwin`, `AcceptedOffCurve`). For reduced keys the check is right (`AcceptsReduced`).
- Inversion does not end if the polynomial divides x (`InversionEnds`), which a reduced non-zero x excludes. `ModulusKey` says which keys with the polynomial as x-coordinate pass the check; on them double-and-add ends for the scalars 0 and 1 alone. `SmallCurve.AcceptedEndless` is such a key on the small curve.
- `asn1_write_tagged_int` writes a negative int as its lowest byte; `IntRoundTripIff` proves that exactly the non-negative values come back, `MinusOneComesBackAs255` is an instance.
- `getElementFromPckData` takes a last element without data for an empty container and does not return it; its contract says exactly which elements can be read, `EmptyElement` builds one that cannot.
- A received chunk that reaches into a next message moves the write position more than once (`MovesOnce`, `HandleTwoMsgs`), so that it no longer is the received total modulo the ring size (`MovesTwiceLosesPosition`). Where no chunk spans two messages every message is handed over (`ReceiveStream`).
- The session id is the sum of the byte-swapped nonces, not of the nonces. If the swapped nonces cancel, no session is established and both sides wait: `SessionEstablished` is the exact condition, `SessionMayCancel` a run that ends there.
- `mbedtls_base64_decode` drops an incomplete last group and then reports fewer bytes than it announced; `SizeSuffices` says exactly when the two numbers agree, `ShortGroup` is an instance.

## Model

| member | source | states |
|---|---|---|
| `WordVector.GetBit` | misc/tinyECDH/ecdh.c:209-212 | the digit of the number that a word vector denotes |
| `WordVector.ClearBit` | misc/tinyECDH/ecdh.c:214-217 | clears exactly one binary digit |
| `WordVector.Copy` | misc/tinyECDH/ecdh.c:219-226 | the target denotes the source number |
| `WordVector.Swap` | misc/tinyECDH/ecdh.c:228-236 | exchanges the two numbers |
| `WordVector.Equal` | misc/tinyECDH/ecdh.c:252-262 | true if and only if the two vectors denote one number |
| `WordVector.SetZero` | misc/tinyECDH/ecdh.c:264-272 | the vector denotes 0 |
| `WordVector.IsZero` | misc/tinyECDH/ecdh.c:290-299 | true if and only if the number is 0 |
| `WordVector.Degree` | misc/tinyECDH/ecdh.c:303-328 | the bit length of the number, for every vector |
| `WordVector.Lshift` | misc/tinyECDH/ecdh.c:330-362 | multiplication by 2^n modulo 2^(32 NWORDS); a vector shifted onto itself by a word or more becomes 0 |
| `Ecdh.SetOne` | misc/tinyECDH/ecdh.c:372-384 | the vector denotes 1 |
| `Ecdh.IsOne` | misc/tinyECDH/ecdh.c:406-422 | true if and only if the number is 1 |
| `Ecdh.FieldAdd` | misc/tinyECDH/ecdh.c:426-433 | polynomial addition, with any aliasing |
| `Ecdh.FieldInc` | misc/tinyECDH/ecdh.c:436-440 | addition of 1 |
| `Ecdh.FieldMul` | misc/tinyECDH/ecdh.c:443-495 | for all operands, reduced or not, also when z is x: the field product of the low parts, and above it the margin of x times the low part of y as far as it fits |
| `RawField.ProductReduced` | misc/tinyECDH/ecdh.c:443-495 | for reduced operands this is the polynomial product modulo the reduction polynomial, reduced |
| `RawField.PowerNext` | misc/tinyECDH/ecdh.c:466-475 | one doubling of the loop: the shift drops the top digit, the reduction acts on the low part |
| `RawField.PartialNext` | misc/tinyECDH/ecdh.c:464-493 | one turn of the loop adds the next partial product, in both parts |
| `Field.MulAssoc` | misc/tinyECDH/ecdh.c:443-495 | the product the code computes is associative |
| `Field.MulAdd` | misc/tinyECDH/ecdh.c:443-495 | and distributes over addition |
| `Field.MulComm` | misc/tinyECDH/ecdh.c:443-495 | and commutes |
| `Ecdh.FieldInv` | misc/tinyECDH/ecdh.c:498-530 | terminates for every x, reduced or not, that the polynomial does not divide, and returns the reduced inverse of x modulo the polynomial |
| `RawField.InversionEnds` | misc/tinyECDH/ecdh.c:508-529 | the loop reaches u = 1 if and only if the polynomial does not divide x |
| `RawField.TurnEliminates` | misc/tinyECDH/ecdh.c:508-529 | a turn keeps the invariant (long division by the polynomial while u is longer, then z x = u, g x = v, gcd 1, degree bounds) and lowers deg u + deg v |
| `RawField.Endless` | misc/tinyECDH/ecdh.c:508-529 | if the polynomial divides u and v no number of turns makes u equal to 1 |
| `RawField.ModulusRepeats` | misc/tinyECDH/ecdh.c:508-529 | from x = the polynomial two turns lead to u = polynomial, v = 0, which every further turn keeps |
| `Ecdh.InverseStep` | misc/tinyECDH/ecdh.c:508-529 | the body of the loop is one turn of the elimination on the numbers the vectors denote, for all vectors |
| `Field.EuclidStart` | misc/tinyECDH/ecdh.c:503-506 | the invariant holds before the loop |
| `Field.EuclidStep` | misc/tinyECDH/ecdh.c:525-528 | a shift and subtraction keeps it; the shifted operands stay within the degree bound |
| `Field.EuclidSwap` | misc/tinyECDH/ecdh.c:512-517 | the exchange of both pairs keeps it |
| `Field.EuclidDone` | misc/tinyECDH/ecdh.c:508-530 | u = 1 gives z x = 1 with z reduced |
| `Field.InverseExists` | misc/tinyECDH/ecdh.c:498-530 | modulo an irreducible polynomial every non-zero element has an inverse |
| `Field.InverseUnique` | misc/tinyECDH/ecdh.c:498-530 | and only one, so the result does not depend on the algorithm |
| `Ecdh.PointIsZero` | misc/tinyECDH/ecdh.c:556-560 | recognises (0,0), the point at infinity |
| `Ecdh.PointDouble` | misc/tinyECDH/ecdh.c:563-587 | doubles every pair of vectors whose inversion ends: x is 0 or not divisible by the polynomial |
| `RawCurve.RawDoubleReduced` | misc/tinyECDH/ecdh.c:563-587 | on reduced coordinates the inversion ends and the result is the doubling of the curve law |
| `CurveLaw.TangentLaw` | misc/tinyECDH/ecdh.c:563-587 | the double of a point is the one reduced pair that meets the equations of the tangent, written without a division |
| `Ecdh.PointAdd` | misc/tinyECDH/ecdh.c:590-634 | adds every two pairs of vectors whose inversion ends, in all of its cases |
| `RawCurve.RawAddReduced` | misc/tinyECDH/ecdh.c:590-634 | on reduced coordinates the inversion ends and the result is the addition of the curve law |
| `CurveLaw.ChordLaw` | misc/tinyECDH/ecdh.c:590-634 | the sum of two points with different x is the one reduced pair that meets the equations of the chord, written without a division: the mirrored third point of the line |
| `CurveLaw.DoubleMember` | misc/tinyECDH/ecdh.c:563-587 | doubling a reduced point on the curve, or infinity, gives such a point again |
| `CurveLaw.AddMember` | misc/tinyECDH/ecdh.c:590-634 | adding two of them does |
| `CurveLaw.ZeroOffCurve` | misc/tinyECDH/ecdh.c:550-560 | with b != 0 the pair (0,0) is not on the curve, so it can stand for infinity |
| `CurveLaw.AddComm` | misc/tinyECDH/ecdh.c:590-634 | addition on the curve commutes |
| `CurveLaw.AddZero` | misc/tinyECDH/ecdh.c:590-634 | infinity is neutral |
| `CurveLaw.DoubleIsAdd` | misc/tinyECDH/ecdh.c:563-634 | doubling is the addition of a point to itself |
| `CurveLaw.NegMember` | misc/tinyECDH/ecdh.c:600-610 | the negative of (x, y) is (x, x + y), lies on the curve, is undone by another negation and added to the point gives infinity |
| `Ecdh.PointMul` | misc/tinyECDH/ecdh.c:640-657 | double-and-add from the highest bit wherever the inversions end; a point of the curve gives the multiple of the curve law, which is on the curve or infinity |
| `RawCurve.RawMulMember` | misc/tinyECDH/ecdh.c:640-657 | on the points of the curve every inversion of double-and-add ends, for every scalar |
| `RawCurve.RawMulEndless` | misc/tinyECDH/ecdh.c:640-657 | if the polynomial divides a non-zero x, exactly the scalars 0 and 1 come to an end |
| `CurveLaw.DoubleAddIsTimes` | misc/tinyECDH/ecdh.c:640-657 | if addition is associative, double-and-add is the n-fold sum, for every scalar |
| `CurveLaw.TimesTimes` | misc/tinyECDH/ecdh.c:640-657 | a multiple of a multiple is the product multiple |
| `Ecdh.OnCurve` | misc/tinyECDH/ecdh.c:692-716 | which pairs of vectors are accepted, reduced or not; of the reduced ones exactly infinity and the points on the curve |
| `RawCurve.CheckAccepts` | misc/tinyECDH/ecdh.c:692-716 | the two vectors compared are equal if and only if the low parts satisfy the equation and the lowest digits of the margins' contribution cancel |
| `RawCurve.AcceptsReduced` | misc/tinyECDH/ecdh.c:692-716 | for reduced pairs acceptance is membership |
| `RawCurve.AcceptsTwin` | misc/tinyECDH/ecdh.c:692-716 | every finite point has an accepted pair beside it that is not reduced: both top digits set |
| `Ecdh.AcceptedOffCurve` | misc/tinyECDH/ecdh.c:692-716 | a public key that is accepted and is no point: the base point with both top digits set |
| `RawCurve.ModulusKey` | misc/tinyECDH/ecdh.c:692-716 | which keys whose x is the polynomial are accepted, and that no scalar above 1 comes to an end on them |
| `SmallCurve.AcceptedEndless` | misc/tinyECDH/ecdh.c:758-773 | such a key, on a curve over GF(8): accepted, no point, and endless for every scalar above 1 |
| `SmallCurve.GF8Valid` | misc/tinyECDH/ecdh.c:563-716 | that curve meets every hypothesis made about a curve |
| `SmallCurve.GF4Associative` | misc/tinyECDH/ecdh.c:590-634 | on the four points of a curve over GF(4) the addition is associative, so the statements that assume it speak of something |
| `SmallCurve.Cyclic4` | misc/tinyECDH/ecdh.c:563-634 | those points form a cyclic group under the addition |
| `SmallCurve.Multiples4` | misc/tinyECDH/ecdh.c:640-657 | and double-and-add counts round it, with no hypothesis left |
| `Ecdh.GenerateKeys` | misc/tinyECDH/ecdh.c:728-754 | refuses short random numbers and leaves the base point in the output then; otherwise the key is cut below the order and the public point is its multiple of the base point |
| `Ecdh.ClearFrom` | misc/tinyECDH/ecdh.c:744-747 | clears every bit from a position up and no other |
| `Ecdh.PrivateKeyNonZero` | misc/tinyECDH/ecdh.c:728-754 | the key is below the order always, and non-zero if and only if a bit below the top of the order was set |
| `Ecdh.PrivateKeyCleared` | misc/tinyECDH/ecdh.c:734-747 | an input that passes the size check and is cleared to zero |
| `Ecdh.SharedSecret` | misc/tinyECDH/ecdh.c:758-790 | accepts exactly the finite pairs that pass the check, for all vectors, and multiplies them by the key if the inversions end; the output is untouched otherwise |
| `Ecdh.SharedSecretReduced` | misc/tinyECDH/ecdh.c:758-790 | for a reduced key they end, the accepted keys are the finite points of the curve and the product is one of its points |
| `CurveLaw.SharedSecretAgrees` | misc/tinyECDH/ecdh.c:758-790 | both orders of multiplying by two keys give one point |
| `Ecdh.BothSecrets` | misc/tinyECDH/ecdh.c:758-790 | each side accepts if and only if the other point is finite, and then both hold one point |
| `Ecdh.Exchange` | misc/tinyECDH/ecdh.c:728-790 | two complete key exchanges: each side accepts if and only if both random numbers are long enough and the other public point is finite, and then both hold one point on the curve |
| `Ecdh.B163Sizes` | misc/tinyECDH/ecdh.c:101-110 | the constants of the default curve have the sizes the proofs assume |
| `AesTables.ForwardColumn` | misc/mbedtls/library/aes.c:819-841 | four forward table entries sum to MixColumns of the substituted column |
| `AesTables.InverseColumn` | misc/mbedtls/library/aes.c:843-865 | four reverse table entries sum to InvMixColumns of the inversely substituted column |
| `AesColumns.InvMixMix` | misc/mbedtls/library/aes.c:453-479 | MixColumns and InvMixColumns undo each other on every column |
| `AesColumns.ColumnsLinear` | misc/mbedtls/library/aes.c:819-865 | both are linear over exclusive or |
| `Aes.SubShift` | misc/mbedtls/library/aes.c:819-865 | the substitution and row shift of a round and those of decryption undo each other |
| `Aes.DecryptUndoesEncrypt` | misc/mbedtls/library/aes.c:557-1015 | the equivalent inverse cipher of section 5.3.5 of FIPS 197: decryption undoes encryption and encryption decryption, for every block, schedule and number of rounds |
| `Spn.RunBack` | misc/mbedtls/library/aes.c:711-732 | why reversing the schedule and sending its inner keys through the linear layer inverts substitution-permutation rounds |
| `Spn.RunForth` | misc/mbedtls/library/aes.c:711-732 | and the converse direction |
| `Aes.ExpansionUnique` | misc/mbedtls/library/aes.c:597-652 | the FIPS 197 recurrence determines the schedule |
| `AesCode.SetkeyEnc` | misc/mbedtls/library/aes.c:557-656 | the schedule follows the recurrence of section 5.2 of FIPS 197 for 128, 192 and 256 bits; any other size is refused and changes nothing |
| `AesVector.EncryptsVector` | misc/mbedtls/library/aes.c:1551-1600 | for every schedule that follows the recurrence for the key of this test vector, the first initial vector encrypts to the known block, round by round |
| `AesVector.CfbVector` | misc/mbedtls/library/aes.c:1551-1600 | so CFB128 turns its first plaintext block into the ciphertext listed there |
| `AesCode.ExpandBlock` | misc/mbedtls/library/aes.c:602-652 | one pass of the expansion loop appends nk words that follow the recurrence |
| `AesCode.SetkeyDec` | misc/mbedtls/library/aes.c:673-738 | the decryption schedule is the encryption one reversed with InvMixColumns on the inner keys |
| `AesCode.FRound` | misc/mbedtls/library/aes.c:819-841 | the table round is AddRoundKey after MixColumns after ShiftRows after SubBytes |
| `AesCode.RRound` | misc/mbedtls/library/aes.c:843-865 | the reverse table round is the inverse layers followed by the round key |
| `AesField.MixColumnIs` | misc/mbedtls/library/aes.c:465-479 | MixColumns and InvMixColumns are products by 2, 3 and by 14, 11, 13, 9 in GF(2^8) |
| `AesCode.Encrypt` | misc/mbedtls/library/aes.c:871-935 | the unrolled table rounds compute the cipher |
| `AesCode.Decrypt` | misc/mbedtls/library/aes.c:951-1015 | and the equivalent inverse cipher |
| `AesCode.EncryptThenDecrypt` | misc/mbedtls/library/aes.c:557-1062 | two contexts set up from one key: what the first encrypts the second decrypts |
| `AesField.ForwardSBox` | misc/mbedtls/library/aes.c:436-448 | every FSb entry is the affine image of the inverse in GF(2^8) |
| `AesSBox.RomInverse` | misc/mbedtls/library/aes.c:98-290 | FSb and RSb undo each other |
| `AesGen.AesGenTables` | misc/mbedtls/library/aes.c:405-483 | the generated S-boxes, round tables and round constants are those of a ROM build |
| `AesGen.RconIs` | misc/mbedtls/library/aes.c:424-428 | the round constants are the powers of 2 in GF(2^8), from 1 on |
| `AesGen.RconValues` | misc/mbedtls/library/aes.c:360-365 | and those are the ten words of the ROM table |
| `AesGen.RolledTables` | misc/mbedtls/library/aes.c:464-482 | the four rows of each generated table are the tables the rounds look up |
| `AesField.Generates` | misc/mbedtls/library/aes.c:414-419 | every non-zero byte is a power of 3, so the log table is complete |
| `AesGen.PowLog` | misc/mbedtls/library/aes.c:414-419 | pow[i] = 3^i and log inverts it |
| `AesField.Substituted` | misc/mbedtls/library/aes.c:436-447 | pow[255 - log[x]] is the field inverse that the affine map of FSb is applied to |
| `AesField.PowerProduct` | misc/mbedtls/library/aes.c:401-401 | adding exponents of 3 multiplies in GF(2^8) |
| `AesField.TimesPower` | misc/mbedtls/library/aes.c:401-401 | MUL by logarithms is the product in the field |
| `AesField.ProductConstants` | misc/mbedtls/library/aes.c:465-479 | the RT0 entries are products by 9, 11, 13 and 14 |
| `AesSBox.AesCipherInverse` | misc/mbedtls/library/aes.c:1028-1062 | AES meets the hypothesis the modes below are proved under |
| `Cbc.DecryptEncrypt` | misc/mbedtls/library/aes.c:1068-1134 | CBC decryption with the same initial vector returns the plaintext |
| `Cbc.Joined` | misc/mbedtls/library/aes.c:1068-1134 | two calls that carry the vector over are one call on the joined data, in both directions |
| `Cbc.AesCryptCbc` | misc/mbedtls/library/aes.c:1068-1134 | the loops compute CBC and leave the next vector; other lengths are refused |
| `Gf128.WordsDouble` | misc/mbedtls/library/aes.c:1178-1193 | the two 64-bit words are the double reduced by x^128 + x^7 + x^2 + x + 1 |
| `Gf128.Gf128MulXBle` | misc/mbedtls/library/aes.c:1178-1193 | multiplication by x in GF(2^128), in place or not |
| `Xts.TweakIs` | misc/mbedtls/library/aes.c:1225-1260 | the tweak of block k is x^k times the first one |
| `Xts.BlockIs` | misc/mbedtls/library/aes.c:1225-1260 | every block before the stealing step, with its tweak x^j t0 added, is the encryption or decryption of the input block with the same tweak added |
| `Xts.StealingIs` | misc/mbedtls/library/aes.c:1262-1297 | the same for the two blocks of the stealing step: which tweak goes with which, which bytes move to the end and which fill up the leftover |
| `Xts.DecryptEncrypt` | misc/mbedtls/library/aes.c:1196-1300 | XTS decryption undoes encryption for every length, with ciphertext stealing and its swapped tweaks |
| `Xts.StolenBack` | misc/mbedtls/library/aes.c:1262-1297 | the ciphertext stealing step alone |
| `Xts.AesCryptXts` | misc/mbedtls/library/aes.c:1196-1300 | the code computes XTS for lengths from 16 to 2^24 and refuses any other |
| `Cfb.DecryptEncrypt` | misc/mbedtls/library/aes.c:1307-1361 | CFB128 decryption returns the plaintext and ends in the same state |
| `Cfb.Joined` | misc/mbedtls/library/aes.c:1307-1361 | calls that carry offset and vector over are one call on the joined data |
| `Cfb.WholeBlock` | misc/mbedtls/library/aes.c:1345-1356 | from a block boundary this is section 6.3 of NIST SP 800-38A |
| `Cfb.AesCryptCfb128` | misc/mbedtls/library/aes.c:1307-1361 | the loops compute it; an offset above 15 is refused |
| `Ctr.IncrementCounter` | misc/mbedtls/library/aes.c:1479-1481 | the byte loop adds one with carries |
| `Ctr.IncrementIs` | misc/mbedtls/library/aes.c:1479-1481 | which is addition of one modulo 2^128 to the big-endian number |
| `Ctr.KeyStream` | misc/mbedtls/library/aes.c:1451-1492 | byte k of the key stream is byte k mod 16 of the encryption of nonce + k/16 modulo 2^128 |
| `Ctr.CryptByte` | misc/mbedtls/library/aes.c:1451-1492 | byte k of the output is byte k of the input plus byte k mod 16 of the encryption of nonce + k/16 modulo 2^128 |
| `Ctr.CryptRest` | misc/mbedtls/library/aes.c:1451-1492 | a call that starts inside a block uses up the saved key stream block first and then continues from the counter |
| `Ctr.CryptTwice` | misc/mbedtls/library/aes.c:1451-1492 | the same call decrypts |
| `Ctr.CryptJoined` | misc/mbedtls/library/aes.c:1451-1492 | calls that carry the state over are one call on the joined data |
| `Ctr.AesCryptCtr` | misc/mbedtls/library/aes.c:1451-1492 | the loop computes it; an offset above 15 is refused |
| `Aria.DiffuseInvolution` | misc/mbedtls/library/aria.c:207-229 | the diffusion layer is its own inverse |
| `Aria.DiffuseLinear` | misc/mbedtls/library/aria.c:207-229 | and linear over exclusive or |
| `Aria.DiffuseIs` | misc/mbedtls/library/aria.c:207-229 | byte by byte, the sixteen sums of section 2.4.3 of RFC 5794 |
| `Aria.AriaA` | misc/mbedtls/library/aria.c:207-229 | the word steps compute the byte equations of section 2.4.3 of RFC 5794 |
| `Aria.Sl1Sl2` | misc/mbedtls/library/aria.c:239-260 | the substitution layers SL1 and SL2 invert each other |
| `SBoxes.Is1Sb1` | misc/mbedtls/library/aria.c:265-341 | the tables sb1 and is1 are inverse to each other |
| `SBoxes.Is2Sb2` | misc/mbedtls/library/aria.c:291-367 | the tables sb2 and is2 are inverse to each other |
| `AesField.SecondSBox` | misc/mbedtls/library/aria.c:291-316 | every sb2 entry is an affine image of the inverse in GF(2^8) |
| `Aria.DecryptUndoesEncrypt` | misc/mbedtls/library/aria.c:510-597 | block processing under the decryption schedule undoes it under the encryption schedule, and conversely, for every even number of rounds |
| `Aria.SetkeyDec` | misc/mbedtls/library/aria.c:510-540 | reverses the schedule and diffuses its middle keys |
| `Aria.CryptEcb` | misc/mbedtls/library/aria.c:545-597 | the loop computes the cipher for 12, 14 and 16 rounds |
| `Aria.EncryptThenDecrypt` | misc/mbedtls/library/aria.c:510-597 | a block encrypted, then decrypted under the schedule that SetkeyDec makes, comes back |
| `Camellia.FLInvUndoesFL` | misc/mbedtls/library/camellia.c:274-284 | FL and FLInv undo each other for every key |
| `Camellia.FLIs` | misc/mbedtls/library/camellia.c:274-284 | FL in bits: a rotation by one of a product with the key, and an inclusive or |
| `Camellia.FeistelIsPFunction` | misc/mbedtls/library/camellia.c:303-326 | the word rotations compute the P-function of section 2.4.1 of RFC 3713 |
| `Camellia.StepBack` | misc/mbedtls/library/camellia.c:533-554 | an inner step under the reversed keys takes back its counterpart; FL and FLInv trade places |
| `Camellia.DecryptUndoesEncrypt` | misc/mbedtls/library/camellia.c:454-567 | the block function under the reversed pairs undoes it, for any Feistel S-boxes and number of six-round groups |
| `Camellia.DecryptBytes` | misc/mbedtls/library/camellia.c:454-567 | the same on the 16 bytes of a block |
| `Camellia.SetkeyDec` | misc/mbedtls/library/camellia.c:472-494 | the walk of SK produces the reversed pairs, whitening keys kept in order |
| `Camellia.CamelliaFeistel` | misc/mbedtls/library/camellia.c:303-326 | XORs the round function of one half into the other |
| `Camellia.StepsAre` | misc/mbedtls/library/camellia.c:533-554 | which of the steps change which half, with which words of the schedule: six rounds, then FL on the left and FLInv on the right half |
| `Camellia.CryptIs` | misc/mbedtls/library/camellia.c:505-567 | around the steps, the first four words of the schedule are added to the block and the last four to the exchanged halves |
| `Camellia.CryptEcb` | misc/mbedtls/library/camellia.c:505-567 | the loop computes the block function, ending with the halves exchanged |
| `Camellia.EncryptThenDecrypt` | misc/mbedtls/library/camellia.c:454-567 | a block encrypted, then decrypted under the schedule that SetkeyDec makes, comes back |
| `Base64.MapsInverse` | misc/mbedtls/library/base64.c:44-70 | the decoding table inverts the encoding table and never yields padding for a digit |
| `Base64.AlphabetIs` | misc/mbedtls/library/base64.c:44-53 | the encoding table is the 64 characters of the alphabet of RFC 1521 in order |
| `Base64.DecMapIs` | misc/mbedtls/library/base64.c:55-70 | the decoding table inverts it and knows the padding and nothing else |
| `Base64.Encode` | misc/mbedtls/library/base64.c:77-139 | the encoding with a terminating zero, the size reports and the untouched buffer on errors |
| `Base64.Check` | misc/mbedtls/library/base64.c:151-187 | the checking pass over every text: spaces, line ends, padding, foreign characters |
| `Base64.ScanAccepts` | misc/mbedtls/library/base64.c:151-187 | what it accepts is alphabet characters and then at most two paddings, and what it counts |
| `Base64.WellFormedIs` | misc/mbedtls/library/base64.c:167-187 | that is: the paddings are the last characters, at most two, and all others are in the alphabet |
| `Base64.AcceptsLaid` | misc/mbedtls/library/base64.c:151-187 | a text passes the check if and only if it consists of such characters, LF or CRLF line ends with spaces before them, and trailing spaces |
| `Base64.SizeIs` | misc/mbedtls/library/base64.c:195-199 | the overflow-free size formula equals the plain one |
| `Base64.SizeSuffices` | misc/mbedtls/library/base64.c:151-223 | for every accepted text the writing pass writes at most the announced size, and exactly it if and only if n mod 4 is at most the padding |
| `Base64.DecodedLength` | misc/mbedtls/library/base64.c:208-223 | how many bytes the writing pass writes |
| `Base64.ShortGroup` | misc/mbedtls/library/base64.c:144-228 | two characters without padding: two bytes announced, none written |
| `Base64.DecodeEncode` | misc/mbedtls/library/base64.c:77-228 | decoding an encoding returns the bytes, with the right size announced |
| `Base64.LaidDecodes` | misc/mbedtls/library/base64.c:144-228 | also after inserting LF or CRLF line ends, spaces before them and trailing spaces |
| `Base64.WriteAll` | misc/mbedtls/library/base64.c:208-223 | the loop over a 32-bit accumulator that is never reset computes the decoding |
| `Base64.Decode` | misc/mbedtls/library/base64.c:144-228 | all outcomes of the call; the buffer is touched only on success |
| `Der.LenRoundTrip` | misc/mbedtls/library/asn1write.c:43-105 | every length below 2^32 is read back and exactly its octets are consumed |
| `Der.LenBytesIs` | misc/mbedtls/library/asn1write.c:43-105 | one octet below 0x80; otherwise the number of digits and the digits, without a leading zero |
| `Der.ParseLenIs` | misc/mbedtls/library/asn1parse.c:51-107 | which lengths are read, padded ones included, how many octets they take, and which of the two errors every other input gives |
| `Der.TagRoundTrip` | misc/mbedtls/library/asn1parse.c:109-122 | a value is found between its header and whatever follows |
| `Der.IntRoundTrip` | misc/mbedtls/library/asn1write.c:235-262 | an int comes back as itself, or as its lowest byte when negative |
| `Der.IntRoundTripIff` | misc/mbedtls/library/asn1write.c:235-262 | the round trip holds for exactly the non-negative values |
| `Der.IntContentIs` | misc/mbedtls/library/asn1write.c:235-262 | the content of a non-negative int is its shortest form with a clear top bit; of a negative one, that of its lowest byte |
| `Der.ParseIntIs` | misc/mbedtls/library/asn1parse.c:143-185 | exactly the contents that denote a number below 2^31 and start with a clear bit are accepted, whatever the number of leading zeros, and that number is read |
| `Der.MinusOneComesBackAs255` | misc/mbedtls/library/asn1write.c:235-262 | an int that does not come back |
| `Der.NamedBitsIs` | misc/mbedtls/library/asn1write.c:307-348 | the named form drops exactly the trailing zero bits |
| `Der.BitsRoundTrip` | misc/mbedtls/library/asn1write.c:350-381 | every bit comes back, unused bits as zeros, and trailing data is refused |
| `Der.BitContentIs` | misc/mbedtls/library/asn1write.c:350-381 | as few octets as hold the bits, behind the number of unused ones |
| `Der.ParseBitsIs` | misc/mbedtls/library/asn1parse.c:220-248 | what is read as a bit string: a value up to the end of the data with 0 to 7 unused bits |
| `Der.AlgRoundTrip` | misc/mbedtls/library/asn1write.c:197-216 | an algorithm identifier with NULL parameters is read by get_alg_null, consumed exactly, with the same OID |
| `Der.ParseAlgIs` | misc/mbedtls/library/asn1parse.c:385-427 | what is read as an algorithm identifier: a sequence of an OID and, where it does not end there, one more value up to its end |
| `Asn1Write.WriteLen` | misc/mbedtls/library/asn1write.c:43-105 | the shortest length form in front of p; on failure p and the buffer do not change |
| `Asn1Write.WriteTag` | misc/mbedtls/library/asn1write.c:107-115 | one tag byte in front of p; on failure p and the buffer do not change |
| `Asn1Write.WriteRawBuffer` | misc/mbedtls/library/asn1write.c:117-130 | the bytes in front of p; on failure p and the buffer do not change |
| `Asn1Write.WriteNull` | misc/mbedtls/library/asn1write.c:170-181 | a NULL value |
| `Asn1Write.WriteOid` | misc/mbedtls/library/asn1write.c:183-195 | an OID value; without room nothing from p on is touched |
| `Asn1Write.WriteAlgorithmIdentifier` | misc/mbedtls/library/asn1write.c:197-216 | the nested value, with parameters in place or NULL |
| `Asn1Write.WriteTaggedInt` | misc/mbedtls/library/asn1write.c:235-262 | header and content octets of every int |
| `Asn1Write.WriteOctets` | misc/mbedtls/library/asn1write.c:240-248 | the do-while loop writes the base-256 digits |
| `Asn1Write.WriteBitstring` | misc/mbedtls/library/asn1write.c:350-381 | the content octets with cleared unused bits |
| `Asn1Write.WriteNamedBitstring` | misc/mbedtls/library/asn1write.c:307-348 | the bit string without its trailing zeros |
| `Asn1Write.CountNamedBits` | misc/mbedtls/library/asn1write.c:325-345 | the loop over shifted bytes finds the last bit that is set |
| `Asn1Parse.GetLen` | misc/mbedtls/library/asn1parse.c:51-107 | length, consumed octets and every error code |
| `Asn1Parse.GetTag` | misc/mbedtls/library/asn1parse.c:109-122 | the same behind an expected tag |
| `Asn1Parse.GetTaggedInt` | misc/mbedtls/library/asn1parse.c:143-185 | value, consumed octets and error codes of an INTEGER or ENUMERATED |
| `Asn1Parse.GetBitstring` | misc/mbedtls/library/asn1parse.c:220-248 | length, unused bits and position of a bit string that must end the data |
| `Asn1Parse.TilesCover` | misc/mbedtls/library/asn1parse.c:254-300 | entries that tile a sequence, put together with their headers, are its content |
| `Asn1Parse.TilesOrdered` | misc/mbedtls/library/asn1parse.c:254-300 | they are in order and do not overlap |
| `Asn1Parse.TilesUnique` | misc/mbedtls/library/asn1parse.c:254-300 | there is only one tiling |
| `Asn1Parse.WalkedTiles` | misc/mbedtls/library/asn1parse.c:276-297 | the traversal succeeds on exactly the stretches that entries with fitting tags tile |
| `Asn1Parse.WalkedFails` | misc/mbedtls/library/asn1parse.c:276-297 | it fails with entries es and an error if and only if es tile the bytes up to a place before the end where the tag does not fit or the length has that error |
| `Asn1Parse.TraverseSequenceOf` | misc/mbedtls/library/asn1parse.c:254-300 | the loop terminates at end or with the error of the first bad entry, and calls back for exactly the selected entries passed, in order, up to the first call that does not return 0, whose result it then returns |
| `Asn1Parse.GetSequenceOf` | misc/mbedtls/library/asn1parse.c:341-383 | on success the list tiles the content with one tag; on failure of the loop no such tiling exists |
| `Asn1Parse.GetAlg` | misc/mbedtls/library/asn1parse.c:385-427 | both forms of an algorithm identifier |
| `Asn1Parse.GetAlgNull` | misc/mbedtls/library/asn1parse.c:429-445 | only absent or NULL parameters |
| `Asn1RoundTrip.IntThroughBuffer` | misc/mbedtls/library/asn1write.c:235-262 | written backwards, read forwards: the cursor ends where the writer began |
| `Asn1RoundTrip.AlgThroughBuffer` | misc/mbedtls/library/asn1write.c:197-216 | the same for an algorithm identifier |
| `Asn1RoundTrip.BitsThroughBuffer` | misc/mbedtls/library/asn1write.c:307-381 | the same for named bit strings at the end of a buffer |
| `Bytes.SwapOrders` | protocol/pckData/pckData.c:524-577 | byte swapping exchanges the two orders and is an involution |
| `Bytes.PackIs` | protocol/pckData/pckData.c:524-577 | host order puts the low byte first, network order last |
| `PckData.InitPckData` | protocol/pckData/pckData.c:355-372 | an empty container in host order |
| `PckData.AppendToPckData` | protocol/pckData/pckData.c:375-405 | one more element where the capacity check passes and the buffer has room |
| `PckData.PckDataToNetworkOrder` | protocol/pckData/pckData.c:524-548 | rewrites every length of the container and nothing else, while stepping by those lengths |
| `PckData.PckDataToHostOrder` | protocol/pckData/pckData.c:551-577 | the inverse walk |
| `PckData.GetElementFromPckData` | protocol/pckData/pckData.c:859-894 | element k, or the not-found value exactly when the index is outside or the element is an empty last one |
| `PckData.GetElementLengthFromPckData` | protocol/pckData/pckData.c:896-924 | the length of element k, also of an empty last one; in a container without elements index 0 gives the word behind the header |
| `PckData.EmptyElement` | protocol/pckData/pckData.c:859-924 | an element that has a length and is not found |
| `Message.EncryptPckData` | protocol/pckData/pckData.c:411-521 | the message layout, in network order, sealed in place |
| `Message.DecryptPckData` | protocol/pckData/pckData.c:585-660 | a message that opens is restored to host order; one that does not is unchanged, whatever the output then holds |
| `Message.Transfer` | protocol/pckData/pckData.c:411-660 | sealing, opening and reading element k gives nonce, settings, both containers and the k-th appended element |
| `Receive.RecvHolder.constructor` | protocol/pckData/pckData.c:1193-1213 | an empty holder |
| `Receive.RecvHolder.HandleMsgLen` | protocol/pckData/pckData.c:1069-1095 | finds the start of a message and its length once four bytes are there |
| `Receive.RecvHolder.HandleMsgData` | protocol/pckData/pckData.c:1100-1175 | hands over a complete message byte for byte, also one that wraps |
| `Receive.RecvHolder.HandleTwoMsgs` | protocol/pckData/pckData.c:1133-1154 | a chunk with a whole message and some or all of the next: what is complete is handed over, and the write position is moved as often as Moves says, twice |
| `Receive.MovesOnce` | protocol/pckData/pckData.c:1111-1169 | one call moves the write position more than once if and only if bytes of a next message are there, whatever is read as its length |
| `Receive.MovesTwiceLosesPosition` | protocol/pckData/pckData.c:1139-1188 | moved once, the position is the received total modulo the ring size; moved twice it is not, unless one chunk fills the whole ring |
| `Receive.RecvHolder.CirculateBuffer` | protocol/pckData/pckData.c:1178-1188 | the write position is the received total modulo the ring size |
| `Receive.RecvHolder.ReceiveChunk` | protocol/pckData/pckData.c:1018-1064 | one recv keeps the ring invariant and completes a message exactly when its last byte arrives |
| `Receive.ArrivesPrefix` | protocol/pckData/pckData.c:1018-1064 | the admissible chunks are the stream, cut up |
| `Receive.CanArrive` | protocol/pckData/pckData.c:1018-1064 | every stream whose messages start four bytes or more before the end of the ring can arrive in full in such chunks |
| `Receive.CompletedAll` | protocol/pckData/pckData.c:1018-1175 | when all bytes are there every message was handed over once, in order |
| `Receive.RecvAll` | protocol/pckData/pckData.c:933-1066 | one call hands over at most one message and keeps the rest of the stream pending |
| `Receive.ReceiveStream` | protocol/pckData/pckData.c:933-1188 | a whole connection hands over exactly the messages of its stream |
| `Handshake.ConnInfo.constructor` | nodeClient/mainClient/client.c:818-829 | a connection without session |
| `Handshake.ConnInfo.EncryptAndSendAll` | protocol/pckData/pckData.c:275-351 | which nonce a send passes on and how the session counters move |
| `Handshake.ConnInfo.ProcessMsgServer` | mainserver/mainServer/server.c:275-328 | the session-id branches of the server |
| `Handshake.ConnInfo.ProcessMsgClient` | nodeClient/mainClient/client.c:412-422 | the session branch of the node |
| `Handshake.InvKept` | mainserver/mainServer/server.c:275-328 | every event of the two-party system keeps the invariant |
| `Handshake.InvAlways` | mainserver/mainServer/server.c:275-328 | so does every run |
| `Handshake.SessionIdsAgree` | protocol/pckData/pckData.c:312-343 | in every reachable state two computed session ids are equal, and the n-th later send passes the swapped id + n |
| `Handshake.SessionEstablished` | mainserver/mainServer/server.c:284-326 | a session is established if and only if the swapped nonces do not cancel; otherwise both ends are stuck |
| `Handshake.HandshakeRuns` | mainserver/mainServer/server.c:284-326 | whatever is drawn, the three events of a handshake form a run |
| `Handshake.SessionMayCancel` | mainserver/mainServer/server.c:284-326 | a run that completes the handshake without a session, after which no event changes anything |
| `Handshake.NoncesDistinct` | protocol/pckData/pckData.c:312-343 | in every run fewer than 2^32 sends of one side never repeat a nonce |
| `CommandQueue.ArrayList.constructor` | misc/ArrayList/arrayList.c:21-48 | an empty list |
| `CommandQueue.ArrayList.AddToList` | misc/ArrayList/arrayList.c:50-91 | appends an entry, growing the buffer when it is full |
| `CommandQueue.ArrayList.Grow` | misc/ArrayList/arrayList.c:59-79 | the reallocation keeps the entries and doubles the increment |
| `CommandQueue.ArrayList.GetFromList` | misc/ArrayList/arrayList.c:94-108 | the bytes of entry index, or nothing outside the list |
| `CommandQueue.ArrayList.RemoveFromList` | misc/ArrayList/arrayList.c:130-147 | removes one entry and keeps the order of the others |
| `CommandQueue.DeserializeSerialize` | nodeClient/mainClient/client.c:883-899 | a command survives serialisation, its pointer included |
| `CommandQueue.SerializeIs` | nodeClient/mainClient/client.c:883-890 | every field at its place in the 36 bytes |
| `CommandQueue.AddToCommandQueue` | nodeClient/mainClient/client.c:851-859 | the byte list stands for the queue with the command appended |
| `CommandQueue.PopCommandQueue` | nodeClient/mainClient/client.c:840-849 | returns the first command and removes it |
| `CommandQueue.InvKept` | nodeClient/mainClient/socketThread.c:296-309 | every atomic section keeps the queue history and the sampled lower bound |
| `CommandQueue.InvAlways` | nodeClient/mainClient/socketThread.c:296-309 | so does every interleaving |
| `CommandQueue.DrainNeverEmpty` | nodeClient/mainClient/socketThread.c:296-309 | in every interleaving no pop finds the queue empty, and the popped commands are the added ones in order, each once |
| `CommandQueue.DrainPopsSampled` | nodeClient/mainClient/socketThread.c:296-309 | a finished loop has popped exactly the commands that were queued when the length was sampled, in order; what was added since then is left |
| `CommandQueue.RunOnBytes` | nodeClient/mainClient/socketThread.c:243-309 | every run on the byte list stands for the run on the queue |


## Left out

- Sockets, Wi-Fi, files, settings, JSON, broadcasting, timing threads, logging and printing, including the printers that convert containers in place.
- `recv`, `getrandom` and memory contents become parameters or arbitrary values; failing allocations are not modelled.
- GCM itself: `gcm.c` is not part of this model.
- Curves other than B-163 as constants, the branch for `coeff_a` = 0, the cofactor variant, the constant-time variants of tinyECDH and its ECDSA. Public keys are two word vectors instead of one byte array.
- Ecdh.FieldMul: requires `z` different from `y`, which the code asserts.
- Ecdh.PointMul: on coordinates that are not reduced its condition is that every inversion on the way ends; which unreduced pairs meet it for a given scalar is settled only when the polynomial divides x (`RawMulEndless`). For reduced points of the curve it always holds.
- Ecdh.SharedSecret: the same condition, for accepted keys only; a caller can meet it by refusing coordinates of 2^163 and more.
- WordVector.Lshift: a shift by more words than the vector has writes past its end and is excluded.
- The encryption key schedules of ARIA and Camellia and the Camellia S-boxes: their decryption is proved for every schedule and every S-box.
- In-place use of CBC, CFB and CTR, where input and output are one buffer; the input is a value here. In-place XTS with leftover bytes overwrites input before reading it.
- `MBEDTLS_AES_FEWER_TABLES`, AES-NI and Padlock code, CFB8, OFB, the modes of ARIA and Camellia, ARC4 and Blowfish, self tests.
- Asn1Write.WriteValue: lengths of 2^31 and more, which the int results cannot express; the writers for booleans, strings and multi-precision integers are further instances of it.
- The linked list of `mbedtls_asn1_get_sequence_of` is a sequence.
- Receive.RecvHolder.HandleMsgData: a chunk ends with its message. The branch for a second message is `HandleTwoMsgs`, where the chunk starts with the first one and holds the length of the second; a shorter rest has bytes behind it read as a length, and when the first message had begun in an earlier chunk the code looks for the second at a wrong position.
- Receive.RecvHolder.ReceiveChunk: requires that a length header does not straddle the end of the ring, where `handleMsgLen` reads four adjacent bytes.
- Reuse of a released receive holder, whose socket field is not set again.
- PckData.AppendToPckData: the branch that grows the container passes the address of the caller's pointer to `realloc`, which has no defined meaning; and since the capacity check leaves out the 4 bytes of the header, that the buffer has room for them is a condition of its own.
- PckData.GetElementLengthFromPckData: for a container without elements and another index than 0, excludes a word behind the header so large that the position wraps around.
- Message.EncryptPckData: without extra data, which writer and reader place on opposite sides of the additional data.
- Message.DecryptPckData: without extra data, and for messages whose opened body is one that a writer composed; the code walks any other body by whatever lengths it holds.
- CommandQueue.ArrayList.AddToList: a failing `realloc` and sizes beyond an int are not modelled.
- The command queue of the server, which removes entries while iterating over them.
