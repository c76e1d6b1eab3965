# Verified models of the BTool ciphers, RPC protocol, object pool and id generator

This project models four parts of the repository in Dafny and proves what they promise.

**Ciphers, modes, hashes and codecs** (`hp_websocket/HPSocket/crypto/crypto.cpp`).
`GaloisField`, `AesTables`, `Aes` and `AesImplementation` take AES from its lookup tables to
the in-place rounds over a 4 x 4 matrix; `KeySchedule` is the key expansion. `CipherModes`
and `Ccm` state CBC, CTR and CCM for any block cipher; `AesModes` and `AesCcm` are the loops
over buffers, in place where the code is. `DesPermutation` and `Des`, and `Blowfish`, are
the Feistel networks. `HashStreaming` is the buffering, counting and padding that MD5, SHA-1
and SHA-256 share. `Base64` is the encoder and decoder. `Arithmetic`, `Bytes`,
`Buffers` and `Feistel` hold what several of them use. `SubstitutionBox`, `AesStandard`,
`CcmStandard`, `DesStandard` and `Base64Standard` write down what the standards say, apart
from the code, and prove that the code computes it or exactly when it does.

**The RPC stream and protocol** (`boost_net/rpc_base.hpp`). `RpcFraming` is the frame
encoder and the incremental decoder, `RpcSession` a session fed in pieces. `SyncProxy` and
`CallbackProxy` are the two tables of pending requests, each as a class over its fields and
as atomic steps of concurrent threads. `RpcProtocol` puts any number of endpoints with both
tables into one transition system with frames under way, timers, lost frames and failed
writes. What an endpoint may answer is an arbitrary relation between arguments and replies,
so that a call which gets "an answer to its own arguments" cannot have got another's.
`RpcDelivery` proves that undisturbed requests do get their answers.

**The node pool** (`object_pool.hpp`). `ObjectPool` keeps the free list inside the memory of
the slots it links, so that a slot is either a link or an object and reading the wrong one
would show.

**The Snowflake generator** (`unique_id.hpp`). `SnowFlake` runs it against an arbitrary list
of clock readings.

Classes and methods make the assignments of the code in its order; each is proved against a
function of the old state, and the properties are proved about those functions. Where the
code calls a helper several times with other operands, the helper is a method of its own.
Byte and word arithmetic on data is in bit vectors; lengths, counters and timestamps are
unbounded numbers with the wrap-around written out.

## Where the code differs from what is said about it

- `crypto.h` promises that decoding without an output reports the size the output would
  have. For text with newlines the report is right and the decoding is not: `Base64.RoundTrip`
  gives the exact lengths, `Base64.SecondLineFails` the shortest failure. At some of them memory
  behind the text is read: `Base64.OverrunsExactly` gives the exact lengths, the shortest 114
  bytes (`Base64.TwoLinesOverrun`). Text without newlines is never left.
- The scratch buffer of CCM is said to round both inputs up and add a block (48 bytes);
  `Ccm.FormatFits` shows the one family of lengths for which 49 are needed,
  `Ccm.FormatOverflows` the smallest. The model allocates 49.
- A MAC of 16 bytes leaves no bytes to count in, so that the payload does not start at
  counter 1 (`Ccm.PayloadCounterValue`, `Ccm.MacCounterReused`). Nor is a payload limited to the
  counters of its nonce: one block more takes the MAC counter of the next nonce
  (`Ccm.CounterReachesNextNonce`); below that no counter is shared (`Ccm.NoncesShareNoCounter`).
- The formatted data of CCM differ from Appendix A.2 of NIST SP 800-38C in three ways: the
  length of the associated data is also written when there are none, data that fill whole
  blocks together with their length get a block of zeros more, and of the payload length only
  16 bits are stored. `CcmStandard.StandardExactly`: otherwise, and only then, they agree.
- The timestamp of an id is called a field of 41 bits with a clear bit above it; 42 bits of it
  reach the id (`SnowFlake.PackFields`), so that the bit is clear exactly while the time fits
  41 (`SnowFlake.TopBitClear`).
- The capacity of the node pool counts the first chunk twice (`ObjectPool.GrowKeeps`).

## Model

| member | source | states |
|---|---|---|
| GaloisField.TableIsMultiplication | hp_websocket/HPSocket/crypto/crypto.cpp:265-399 | Every one of the 256 rows of `gf_mul` holds the products of its byte by 02, 03, 09, 0b, 0d and 0e in GF(2^8), where multiplication is defined independently by shifting and reducing (section 4.2.1 of FIPS 197). |
| GaloisField.MulLinear | hp_websocket/HPSocket/crypto/crypto.cpp:917-924 | Multiplication distributes over exclusive or; what the precomputed products rely on. |
| GaloisField.PolynomialsInverse | hp_websocket/HPSocket/crypto/crypto.cpp:917-1103 | The polynomials of MixColumns and InvMixColumns are inverse modulo x^4 + 1, in both orders, for every column (section 5.3.3 of FIPS 197). |
| AesImplementation.MixColumnFormula | hp_websocket/HPSocket/crypto/crypto.cpp:929-949 | The four table-and-xor formulas of MixColumns equal multiplication of the column by the fixed polynomial. |
| AesImplementation.InvMixColumnFormula | hp_websocket/HPSocket/crypto/crypto.cpp:1019-1039 | The same for InvMixColumns and the inverse polynomial. |
| Aes.SBoxesInverse | hp_websocket/HPSocket/crypto/crypto.cpp:226-262 | The two substitution tables are inverse to each other on all 256 bytes, in both orders. |
| SubstitutionBox.SBoxIsStandard | hp_websocket/HPSocket/crypto/crypto.cpp:226-243 | Every entry of the substitution table is the affine image over GF(2) of the multiplicative inverse of its byte in GF(2^8), and that of 0 the image of 0 (section 5.1.1 of FIPS 197). |
| Aes.SubBytesInverse | hp_websocket/HPSocket/crypto/crypto.cpp:819-859 | SubBytes and InvSubBytes undo each other on every state. |
| Aes.ShiftRowsInverse | hp_websocket/HPSocket/crypto/crypto.cpp:865-915 | ShiftRows and InvShiftRows undo each other on every state. |
| Aes.MixColumnsInverse | hp_websocket/HPSocket/crypto/crypto.cpp:921-1103 | MixColumns and InvMixColumns undo each other on every state. |
| Aes.AddRoundKeyInverse | hp_websocket/HPSocket/crypto/crypto.cpp:768-813 | AddRoundKey undoes itself for every four round-key words, which is why the code has no separate inverse. |
| AesImplementation.AddKey | hp_websocket/HPSocket/crypto/crypto.cpp:772-813 | The in-place step on the 4 x 4 matrix is AddRoundKey on the state the matrix holds. |
| AesImplementation.Substitute | hp_websocket/HPSocket/crypto/crypto.cpp:821-839 | The in-place step replaces every byte of the state by its table entry and nothing else. |
| AesImplementation.InvSubstitute | hp_websocket/HPSocket/crypto/crypto.cpp:841-859 | The same with the inverse table. |
| AesImplementation.Shift | hp_websocket/HPSocket/crypto/crypto.cpp:866-889 | The sequence of single assignments moves row r by r places to the left, losing no byte. |
| AesImplementation.InvShift | hp_websocket/HPSocket/crypto/crypto.cpp:892-915 | The same to the right. |
| AesImplementation.Mix | hp_websocket/HPSocket/crypto/crypto.cpp:925-1013 | The in-place table arithmetic multiplies each column of the matrix by the fixed polynomial. |
| AesImplementation.InvMix | hp_websocket/HPSocket/crypto/crypto.cpp:1015-1103 | The same with the inverse polynomial. |
| Aes.DecryptRetraces | hp_websocket/HPSocket/crypto/crypto.cpp:1182-1249 | By induction over the rounds: halfway through decryption the state is the one encryption had after the same round, for any number of rounds. |
| Aes.EncryptRetraces | hp_websocket/HPSocket/crypto/crypto.cpp:1109-1180 | The same for encryption run on a decrypted state. |
| Aes.CiphersInverse | hp_websocket/HPSocket/crypto/crypto.cpp:1109-1249 | For any round-key words and any number of rounds, cipher and inverse cipher are inverse bijections of states. |
| Aes.AesRoundTrip | hp_websocket/HPSocket/crypto/crypto.cpp:1109-1249 | For every 16-byte block, each of the three key sizes and every array of round-key words, decrypting undoes encrypting and encrypting undoes decrypting. |
| Aes.RoundsAgree | hp_websocket/HPSocket/crypto/crypto.cpp:1147-1217 | The two functions choose the same number of rounds exactly for the key sizes 128, 192 and everything above 192, because one tests with `!=` and the other with `>`. |
| AesImplementation.AesEncrypt | hp_websocket/HPSocket/crypto/crypto.cpp:1109-1180 | The first 16 bytes of the output become the cipher of the first 16 of the input, also when both are the same array; the rest of the output stays. |
| AesImplementation.AesDecrypt | hp_websocket/HPSocket/crypto/crypto.cpp:1182-1249 | The same for the inverse cipher. |
| KeySchedule.AesKeySetup | hp_websocket/HPSocket/crypto/crypto.cpp:735-762 | The in-place expansion writes the whole schedule of section 5.2 of FIPS 197 for the three key sizes, touches no word behind it, and writes nothing for any other size. |
| KeySchedule.WindowDeterminesPrefix | hp_websocket/HPSocket/crypto/crypto.cpp:754-761 | Any window of Nk consecutive schedule words determines all words before it. |
| KeySchedule.WindowDeterminesKey | hp_websocket/HPSocket/crypto/crypto.cpp:749-761 | So it determines the key: keys that agree on Nk consecutive words anywhere in the schedule are equal. |
| KeySchedule.SubWordBytes | hp_websocket/HPSocket/crypto/crypto.cpp:720-730 | The shifts and table lookups on words substitute, and rotate by one place, the four bytes that section 5.2 of FIPS 197 speaks of. |
| KeySchedule.RoundConstants | hp_websocket/HPSocket/crypto/crypto.cpp:738-740 | The fifteen constants of the table are the successive powers of x in GF(2^8), each in the first byte of its word. |
| AesStandard.ScheduleIsStandard | hp_websocket/HPSocket/crypto/crypto.cpp:735-762 | For the three key sizes, the words of the schedule hold the bytes of the expanded key of section 5.2 of FIPS 197, given by one equation per byte with powers of x in GF(2^8). |
| AesStandard.EncryptIsStandard | hp_websocket/HPSocket/crypto/crypto.cpp:1109-1176 | For every block and every key of the three sizes, the cipher under the expanded key is AES, defined apart on 16 bytes by index arithmetic, the matrix of section 5.1.3 of FIPS 197 and the bytes of the expanded key; the number of rounds included. |
| AesStandard.DecryptIsStandard | hp_websocket/HPSocket/crypto/crypto.cpp:1182-1249 | Decryption gives a block if and only if AES encrypts that block to the one decrypted. |
| CipherModes.CbcRoundTrip | hp_websocket/HPSocket/crypto/crypto.cpp:414-483 | For any block cipher, IV and number of blocks: a text is the CBC decryption of another if and only if the latter is the CBC encryption of the former (section 6.2 of NIST SP 800-38A). |
| CipherModes.CbcRecovers | hp_websocket/HPSocket/crypto/crypto.cpp:462-483 | Whatever a CBC decryption of a ciphertext yields is the plaintext it was made from. |
| CipherModes.CbcIsStandard | hp_websocket/HPSocket/crypto/crypto.cpp:414-435 | Every block of a CBC encryption is E of the bytes of the plaintext block, each with the byte of the ciphertext block before it, or of the IV, added. |
| CipherModes.CtrInvolution | hp_websocket/HPSocket/crypto/crypto.cpp:500-529 | CTR undoes itself for every IV and every length, including partial last blocks (section 6.5 of NIST SP 800-38A). |
| CipherModes.CtrIsStandard | hp_websocket/HPSocket/crypto/crypto.cpp:502-523 | Byte i is masked with byte i % 16 of E(T), where the number of the block T is that of the IV plus i / 16, modulo 2^128. |
| CipherModes.CounterFrom | hp_websocket/HPSocket/crypto/crypto.cpp:513-519 | Counting on from a counter block, which may have wrapped, is counting on from the unbounded number it stands for. |
| CipherModes.CountersDistinct | hp_websocket/HPSocket/crypto/crypto.cpp:488-523 | Counter blocks fewer than 256^len steps apart are different. |
| Bytes.CarryIncrements | hp_websocket/HPSocket/crypto/crypto.cpp:488-498 | A carry that stops at a digit below 255, or runs off the front, adds one to the big-endian value modulo 256^n. |
| AesModes.AesIsSound | hp_websocket/HPSocket/crypto/crypto.cpp:1109-1249 | AES under any valid round keys is a block cipher for which the mode results hold. |
| AesModes.XorBuf | hp_websocket/HPSocket/crypto/crypto.cpp:403-409 | Adds the input to a region of the output byte by byte and changes nothing outside the region. |
| AesModes.IncrementIv | hp_websocket/HPSocket/crypto/crypto.cpp:488-498 | Adds one to the big-endian number in the last `counter_size` bytes, modulo 256^counter_size, leaves the other bytes alone, and does nothing for sizes below one. |
| AesModes.AesEncryptCbc | hp_websocket/HPSocket/crypto/crypto.cpp:414-435 | Refuses lengths that are no multiple of 16 without writing; otherwise the output is the CBC encryption of the input as it was before the call, also in place, and bytes behind it stay. |
| AesModes.AesEncryptCbcMac | hp_websocket/HPSocket/crypto/crypto.cpp:437-460 | For non-empty input the 16 bytes written are the last block of the CBC encryption of the input. |
| AesModes.AesDecryptCbc | hp_websocket/HPSocket/crypto/crypto.cpp:462-483 | The output is the CBC decryption of the input as it was before the call, also in place. |
| AesModes.AesEncryptCtr | hp_websocket/HPSocket/crypto/crypto.cpp:500-523 | Block i is masked with the cipher of IV + i modulo 2^128, whatever the length, for separate regions and for one region used as both. |
| Ccm.FormatIsBlocks | hp_websocket/HPSocket/crypto/crypto.cpp:673-711 | The formatted data are a whole number of blocks, at least two. |
| Ccm.FormatFits | hp_websocket/HPSocket/crypto/crypto.cpp:553 | The formatted data are at most 49 bytes longer than payload and associated data; they exceed the 48 extra bytes that are allocated if and only if the associated data with their length fill whole blocks and the payload is one byte over whole blocks. |
| Ccm.FormatOverflows | hp_websocket/HPSocket/crypto/crypto.cpp:553 | The smallest case: 14 bytes of associated data and one byte of payload need 64 bytes where 63 are allocated. |
| Ccm.FormatFitsDecryption | hp_websocket/HPSocket/crypto/crypto.cpp:609 | The 48 bytes that decryption adds to the ciphertext suffice, except by one byte for the same lengths if the MAC is empty. |
| Ccm.FormatInjective | hp_websocket/HPSocket/crypto/crypto.cpp:673-711 | The formatted data determine MAC length, nonce, associated data and payload, for payloads of every size although only 16 bits of their length are stored. |
| Ccm.NarrowStepIsWideStep | hp_websocket/HPSocket/crypto/crypto.cpp:582-584 | Stepping only the last bytes of the first counter block is the same as stepping the whole block. |
| Ccm.PayloadCounterValue | hp_websocket/HPSocket/crypto/crypto.cpp:582-584 | The payload starts at the counter block after the first one, except that MACs of 15 and 16 bytes leave no byte to count in. |
| Ccm.PayloadCountersDistinct | hp_websocket/HPSocket/crypto/crypto.cpp:582-585 | The blocks of one payload, up to 2^128 of them, are masked with different counter blocks, for every MAC length and nonce that fits. |
| Ccm.MacCounterReused | hp_websocket/HPSocket/crypto/crypto.cpp:582-588 | The counter that masks the MAC also masks a payload block exactly when the MAC has 15 or 16 bytes (encryption accepts only the latter), and then it is the first block. |
| Ccm.SealOpens | hp_websocket/HPSocket/crypto/crypto.cpp:535-663 | For any block cipher and all MAC lengths and nonces that fit their buffers, what is sealed unmasks to the payload and passes the check (sections 6.1 and 6.2 of NIST SP 800-38C). |
| Ccm.AuthenticIffSealed | hp_websocket/HPSocket/crypto/crypto.cpp:630-658 | A ciphertext passes the check if and only if it is the sealing of the payload it unmasks to. |
| Ccm.CounterKeepsNonce | hp_websocket/HPSocket/crypto/crypto.cpp:488-498 | While the count fits the bytes left of the block, the counter blocks of a payload keep flags and nonce. |
| Ccm.NoncesShareNoCounter | hp_websocket/HPSocket/crypto/crypto.cpp:582-588 | Below that bound different nonces, also of different lengths and with different MAC lengths, share no counter block, neither for payload nor for MAC. |
| Ccm.CounterReachesNextNonce | hp_websocket/HPSocket/crypto/crypto.cpp:582-588 | At the bound they do: the payload block there is masked with the counter that masks the MAC of the next nonce. |
| CcmStandard.StandardExactly | hp_websocket/HPSocket/crypto/crypto.cpp:673-711 | The formatted data are those of Appendix A.2 of NIST SP 800-38C, for every MAC length, nonce, payload that fits its length field and associated data of less than 65280 bytes, if and only if the associated data are not empty and do not fill whole blocks together with their length, and the payload has fewer than 65536 bytes. |
| CcmStandard.NoAssocDiffers | hp_websocket/HPSocket/crypto/crypto.cpp:686-698 | An instance: without associated data the formats always differ. |
| CcmStandard.FormatLayout | hp_websocket/HPSocket/crypto/crypto.cpp:673-711 | For every input the formatted data are flags, nonce, 16 bits of payload length, 16 bits of associated length, associated data, 1 to 16 zeros, payload, 0 to 15 zeros, with the flags as a number. |
| CcmStandard.SealExactly | hp_websocket/HPSocket/crypto/crypto.cpp:535-594 | A string is the sealed payload if and only if it is what section 6.1 of NIST SP 800-38C generates from the formatted blocks: payload bytes masked with the counter blocks of A.3 from number 1 on (0 for MACs of 15 and 16 bytes), then the first bytes of the last block Y, Y(0) = E(B(0)), Y(i) = E(B(i) + Y(i-1)), masked with counter block 0; for every block cipher, MAC length and payload whose counters fit their field. |
| CcmStandard.AuthenticExactly | hp_websocket/HPSocket/crypto/crypto.cpp:598-663 | A ciphertext passes the check if and only if it is generated that way from what it unmasks to. |
| AesCcm.CcmPrepareFirstCtrBlk | hp_websocket/HPSocket/crypto/crypto.cpp:665-671 | Flags, nonce and a counter of zero, over the whole block. |
| AesCcm.CcmPrepareFirstFormatBlk | hp_websocket/HPSocket/crypto/crypto.cpp:673-684 | The first block holds flags, nonce, and the low 16 bits of the payload length; nothing behind it is touched. |
| AesCcm.CcmFormatAssocData | hp_websocket/HPSocket/crypto/crypto.cpp:686-698 | Length, associated data, and one to sixteen zeros up to a block boundary are written at the end, and the end moves behind them. |
| AesCcm.CcmFormatPayloadData | hp_websocket/HPSocket/crypto/crypto.cpp:700-711 | Payload and zeros up to a block boundary are written at the end, and the end moves behind them. |
| AesCcm.FormatForMac | hp_websocket/HPSocket/crypto/crypto.cpp:553-569 | The three steps together produce exactly the formatted data, within 49 extra bytes. |
| AesCcm.ComputeMac | hp_websocket/HPSocket/crypto/crypto.cpp:574-576 | The first bytes of the buffer are the CBC-MAC of the formatted data under a zero IV. |
| AesCcm.PreparePayloadCounter | hp_websocket/HPSocket/crypto/crypto.cpp:582-584 | The last 15 - mac_len bytes of the first counter block are counted on by one; nothing happens if there are none. |
| AesCcm.AesEncryptCcm | hp_websocket/HPSocket/crypto/crypto.cpp:535-594 | Refuses illegal MAC lengths, nonces and associated lengths without writing; otherwise the output is the sealed payload, block by block as section 6.1 of NIST SP 800-38C has it, and its length is reported; through two in-place passes over the output. |
| AesCcm.AesDecryptCcm | hp_websocket/HPSocket/crypto/crypto.cpp:598-663 | For every MAC length up to 16 and every nonce up to 15 bytes, legal or not: refuses ciphertexts no longer than the MAC; otherwise sets the verdict to whether the ciphertext is authentic, and leaves the unmasked payload, or zeros when it is not. The verdict is true exactly if the ciphertext is the encryption of some payload in the sense of section 6.1 of NIST SP 800-38C, and then it is that of the one left. |
| AesCcm.CipherOfKey | hp_websocket/HPSocket/crypto/crypto.cpp:557-558 | For every key of a legal size there is a sound cipher that is AES under it, so the two contracts above apply to every key. |
| AesCcm.UnderKeyIsAes | hp_websocket/HPSocket/crypto/crypto.cpp:557-558 | On every block that cipher is AES under the key, byte by byte as FIPS 197 has it. |
| AesCcm.SealThenOpen | hp_websocket/HPSocket/crypto/crypto.cpp:535-663 | For every key, nonce, associated data, payload and MAC length that encryption accepts: decryption returns the payload and the verdict true if and only if the payload is not empty; an empty payload is refused. |
| DesPermutation.InvIpOfIp | hp_websocket/HPSocket/crypto/crypto.cpp:1315-1369 | The inverse initial permutation undoes the initial one for every block, bit by bit. |
| DesPermutation.IpOfInvIp | hp_websocket/HPSocket/crypto/crypto.cpp:1315-1369 | And the other way round, for every pair of words. |
| DesStandard.PermutationIsStandard | hp_websocket/HPSocket/crypto/crypto.cpp:1315-1334 | Every bit of both halves is the bit of the block that the initial permutation of NIST SP 800-67 names. |
| Des.RoundsUnwind | hp_websocket/HPSocket/crypto/crypto.cpp:1475-1481 | By induction: after j rounds with the keys in reverse, j rounds are undone, for every round function and any number of rounds. |
| Des.CryptInverse | hp_websocket/HPSocket/crypto/crypto.cpp:1469-1484 | For every round function, schedule and block, the reversed schedule decrypts. |
| Des.ScheduleReversed | hp_websocket/HPSocket/crypto/crypto.cpp:1448-1466 | The decryption schedule of a key is its encryption schedule in reverse, and the other way round. |
| Des.DesRoundTrip | hp_websocket/HPSocket/crypto/crypto.cpp:1429-1484 | With the schedule of either mode, the schedule of the other mode undoes it, for every key and block (section 2 of NIST SP 800-67). |
| Des.TripleRoundTrip | hp_websocket/HPSocket/crypto/crypto.cpp:1486-1505 | Triple DES set up for one mode is undone by triple DES set up for the other (section 3 of NIST SP 800-67). |
| DesStandard.ScheduleIsStandard | hp_websocket/HPSocket/crypto/crypto.cpp:1429-1467 | Every bit of each of the sixteen subkeys is the bit of the key that the two permuted choices and the shifts of NIST SP 800-67 name; encryption uses the subkeys in order and decryption in reverse. |
| DesStandard.CryptIsStandard | hp_websocket/HPSocket/crypto/crypto.cpp:1469-1484 | A block is encrypted through halves with L(n) = R(n-1), R(n) = L(n-1) + f(R(n-1), K(n)) from its permutation on, and its ciphertext permutes to R(16) and L(16), for every round function. |
| DesStandard.TripleIsStandard | hp_websocket/HPSocket/crypto/crypto.cpp:1486-1505 | Triple DES encrypts with the first key, decrypts with the second and encrypts with the third; decryption takes them from the last, with the modes exchanged. |
| Des.WriteSubkey | hp_websocket/HPSocket/crypto/crypto.cpp:1459-1465 | One row of the schedule becomes the compressed subkey; the other rows stay. |
| Des.DesKeySetup | hp_websocket/HPSocket/crypto/crypto.cpp:1429-1467 | The in-place loops write the sixteen subkeys, in reverse order for decryption. |
| Des.DesCrypt | hp_websocket/HPSocket/crypto/crypto.cpp:1469-1484 | The first eight bytes of the output become the sixteen-round result for the input as it was, also in place. |
| Des.TripleKeySetup | hp_websocket/HPSocket/crypto/crypto.cpp:1486-1498 | The three schedules alternate in mode; decryption takes the keys in reverse. |
| Des.TripleDesCrypt | hp_websocket/HPSocket/crypto/crypto.cpp:1500-1505 | Three passes, the second and third in place, compose to triple DES of the original input. |
| Blowfish.IterateBack | hp_websocket/HPSocket/crypto/crypto.cpp:2094 | An iteration with the subkey after the next undoes an iteration and moves the two outstanding subkeys one step on. |
| Blowfish.IterationsUnwind | hp_websocket/HPSocket/crypto/crypto.cpp:2281-2296 | By induction over the iterations of decryption. |
| Blowfish.EncryptedBackwards | hp_websocket/HPSocket/crypto/crypto.cpp:2238-2308 | For every subkey array and all S-box contents, encrypting with the subkeys in reverse undoes encrypting. |
| Blowfish.BlockRoundTrip | hp_websocket/HPSocket/crypto/crypto.cpp:2238-2308 | Each of the two operations undoes the other on every 8-byte block, hence after any key setup. |
| Blowfish.MixIsStandard | hp_websocket/HPSocket/crypto/crypto.cpp:2089-2092 | The four bytes of a word, from the left, select words of the four boxes, which are added, added by exclusive or, and added. |
| Blowfish.EncryptIsStandard | hp_websocket/HPSocket/crypto/crypto.cpp:2238-2272 | A block is encrypted through sixteen pairs of halves, each made from the one before by subkey, mix and switch, and the last two subkeys; with big-endian words on both ends. |
| Blowfish.BlowfishEncrypt | hp_websocket/HPSocket/crypto/crypto.cpp:2238-2272 | The fifteen iterations, the last one and the final subkeys, written out in place. |
| Blowfish.BlowfishDecrypt | hp_websocket/HPSocket/crypto/crypto.cpp:2274-2308 | The same with the subkeys from 17 down is encryption under the reversed subkeys. |
| HashStreaming.PaddingShortest | hp_websocket/HPSocket/crypto/crypto.cpp:2010-2034 | Padding fills to a multiple of 64 bytes and is the shortest that has room for the mark and the length (section 5.1.1 of FIPS 180-4, sections 3.1 and 3.2 of RFC 1321). |
| HashStreaming.PaddingInjective | hp_websocket/HPSocket/crypto/crypto.cpp:2004-2034 | Two messages have equal padded messages if and only if they are equal, for messages of every length and both byte orders of the length. |
| HashStreaming.PaddingLayout | hp_websocket/HPSocket/crypto/crypto.cpp:2004-2030 | Every byte of the padded message: the message, 0x80, zeros, and in the last eight bytes the number of bits, most significant byte first for SHA and last for MD5. |
| HashStreaming.DigestChain | hp_websocket/HPSocket/crypto/crypto.cpp:1934-2034 | The digest state is the end of a chain that starts with the initial state and takes one block of the padded message per link. |
| HashStreaming.AbsorbByte | hp_websocket/HPSocket/crypto/crypto.cpp:1993-2001 | Taking in one byte keeps the buffer below 64 bytes, the bit count equal to 8 times the bytes compressed modulo 2^64, and the state equal to the transform folded over the whole blocks. |
| HashStreaming.OneMoreBlock | hp_websocket/HPSocket/crypto/crypto.cpp:2011-2015 | The branch with room for the length yields the transform folded over the whole padded message. |
| HashStreaming.TwoMoreBlocks | hp_websocket/HPSocket/crypto/crypto.cpp:2016-2022 | So does the branch without, which needs two more blocks. |
| HashStreaming.Context.constructor | hp_websocket/HPSocket/crypto/crypto.cpp:1975-1987 | A new context has taken in the empty message. |
| HashStreaming.Context.Update | hp_websocket/HPSocket/crypto/crypto.cpp:1989-2002 | Afterwards the context has taken in the old message followed by the new bytes. |
| HashStreaming.Context.WriteLength | hp_websocket/HPSocket/crypto/crypto.cpp:1751-1760 | The eight shifted bytes are the bit count modulo 2^64 in the byte order of the hash. |
| HashStreaming.Context.Final | hp_websocket/HPSocket/crypto/crypto.cpp:2004-2034 | The result is the transform folded over the padded message, on both branches of the buffer length. |
| HashStreaming.HashInPieces | hp_websocket/HPSocket/crypto/crypto.cpp:1975-2034 | For any division of a message into updates the result is that of the whole message. |
| Base64.JoinBack | hp_websocket/HPSocket/crypto/crypto.cpp:54-57 | The four characters of any three bytes give the three bytes back. |
| Base64Standard.EncodeIsStandard | hp_websocket/HPSocket/crypto/crypto.cpp:35-84 | Every character of the encoder's output, for every message and both settings: a newline after each 76 characters if wanted, else the character that Table 1 of RFC 4648 has for the six bits in question of the three bytes in question, or the padding. |
| Base64Standard.DecodeIsStandard | hp_websocket/HPSocket/crypto/crypto.cpp:86-132 | In any text without newlines, also one the encoder has not written, each four characters of the alphabet are decoded to the three bytes with their bits. |
| Base64.EncodedSizeExact | hp_websocket/HPSocket/crypto/crypto.cpp:42-48 | The size reported without an output is the number of characters written, newlines included, for both settings. |
| Base64.StopsInTime | hp_websocket/HPSocket/crypto/crypto.cpp:90-112 | The decoding loop stops behind the last group with the right number of characters left exactly for the lengths of `Decodable`. |
| Base64.RoundTrip | hp_websocket/HPSocket/crypto/crypto.cpp:35-132 | Decoding undoes encoding of a non-empty string if and only if its length is decodable: always without newlines; with them, when the number of full lines is a multiple of four and a whole group follows them (or there is none), or is one more than that and no padding is needed. Otherwise a wrong number of bytes is written, or memory behind the text is read (`Base64.OverrunsExactly`). |
| Base64.UnwrappedRoundTrip | hp_websocket/HPSocket/crypto/crypto.cpp:35-132 | Without newlines decoding undoes encoding for every non-empty string (section 4 of RFC 4648). |
| Base64.SecondLineFails | hp_websocket/HPSocket/crypto/crypto.cpp:95-96 | The shortest failure: any 58 bytes, wrapped, are not decoded to themselves, whatever follows in memory. |
| Base64.OverrunsExactly | hp_websocket/HPSocket/crypto/crypto.cpp:111-128 | Decoding the encoder's output reads memory behind it if and only if it is wrapped and the number of full lines and the length of the rest are one of three cases, given by the length of the input alone (`ReadsBehind`). |
| Base64.TwoLinesOverrun | hp_websocket/HPSocket/crypto/crypto.cpp:121-127 | The smallest case: of all inputs up to 114 bytes, wrapped, exactly those of 114 bytes, encoded in 154 characters. |
| Base64.UnwrappedStaysInside | hp_websocket/HPSocket/crypto/crypto.cpp:86-132 | For any text without newlines, well formed or not, no read goes behind its end. |
| Base64.DecodedSizeExact | hp_websocket/HPSocket/crypto/crypto.cpp:98-108 | The size reported for encoded text without an output is right for both settings and every length, also where decoding itself is not. |
| Base64.Base64Encode | hp_websocket/HPSocket/crypto/crypto.cpp:35-84 | With an output the text is written and nothing behind it; without one only its size is returned. |
| Base64.Base64Decode | hp_websocket/HPSocket/crypto/crypto.cpp:86-132 | With an output, which may be the input itself, the decoded bytes are written and counted, provided no read leaves the text; without one the size is returned. |
| RpcFraming.HeadRoundTrip | boost_net/rpc_base.hpp:168-176 | The packed little-endian header of 11 bytes decodes to what was encoded, whatever follows. |
| RpcFraming.HeadLayout | boost_net/rpc_base.hpp:168-176 | The fields of the header by position, with the least significant byte of the two numbers first. |
| RpcFraming.PackageLayout | boost_net/rpc_base.hpp:325-344 | The bytes of a packaged message by position: header fields, name, content. |
| RpcFraming.UnpackageMsg | boost_net/rpc_base.hpp:348-380 | The loop over the read offset returns the whole frames at the front and their bytes, and only the error once a bad header is met. |
| RpcFraming.NoFrameLeftBehind | boost_net/rpc_base.hpp:351-378 | The guard of 12 bytes never leaves a complete frame in the rest. |
| RpcFraming.StreamRoundTrip | boost_net/rpc_base.hpp:322-380 | Decoding undoes encoding of any number of messages, whatever follows them. |
| RpcFraming.UnpackExactly | boost_net/rpc_base.hpp:348-380 | Decoding finds certain messages in the first n bytes if and only if these are the encoding of that many well-formed messages and what follows is less than a frame. |
| RpcFraming.UnpackFails | boost_net/rpc_base.hpp:356-360 | It fails if and only if a malformed header follows a number of well-formed messages, and then it returns none of them. |
| RpcFraming.PackageRoundTrip | boost_net/rpc_base.hpp:325-344 | A packaged message decodes to itself if and only if its name has 1 to 255 bytes and its content at most 2^31 - 1. |
| RpcSession.Reader.ReadCbk | boost_net/rpc_base.hpp:982-1017 | One read keeps what is not consumed, dispatches whole messages in order, and closes on a bad header or an unknown model. |
| RpcSession.Reader.Dispatch | boost_net/rpc_base.hpp:990-1014 | Messages up to the first of unknown model are handled; that one closes the session. |
| RpcSession.ParseAppend | boost_net/rpc_base.hpp:348-380 | Decoding a longer buffer first decodes what the shorter one held, then goes on from the rest. |
| RpcSession.ReceiveInPieces | boost_net/rpc_base.hpp:1016 | From any idle state, pieces and whole leave the same session. |
| RpcSession.StreamDelivered | boost_net/rpc_base.hpp:982-1017 | However the bytes of well-formed messages of known models arrive, with the beginning of a further frame behind them, each message is handled once and in order, and the beginning is kept. |
| RpcSession.StreamStopped | boost_net/rpc_base.hpp:1001-1012 | The first reply of unknown model closes the session; the messages before it are handled and none behind it. |
| RpcSession.ChunkingIrrelevant | boost_net/rpc_base.hpp:348-380 | However a stream without a bad header is cut, messages and leftover bytes are those of decoding it at once. |
| RpcSession.BadStreamCloses | boost_net/rpc_base.hpp:982-988 | With a bad header the session ends closed, having handled a prefix of the messages before it. |
| RpcSession.ChunkingExactly | boost_net/rpc_base.hpp:348-380 | Every cut of a stream leaves the session of the stream in one piece if and only if the stream has no bad header, or no frame before it that the session would handle. |
| RpcSession.ChunkingMattersBeforeBadHeader | boost_net/rpc_base.hpp:358-360 | An instance: routable messages that come in an earlier piece than the bad header are all handled, in one piece with it they are all dropped. |
| SyncProxy.Promise.Set | boost_net/rpc_base.hpp:408-409 | A promise takes a value once; a second attempt throws and changes nothing. |
| SyncProxy.Proxy.GetNextPromise | boost_net/rpc_base.hpp:412-417 | The next number gets a promise of its own; all others are unchanged. |
| SyncProxy.Proxy.Invoke | boost_net/rpc_base.hpp:405-410 | A reply sets the promise of its number if that is in the table and is dropped otherwise; it throws exactly if the promise was set before. |
| SyncProxy.Proxy.FinishWait | boost_net/rpc_base.hpp:422-427 | The promise leaves the table whether or not the reply came, and the reply is returned only if it did. |
| CallbackProxy.Proxy.InsertCallback | boost_net/rpc_base.hpp:474-487 | The callback is registered under the next number. |
| CallbackProxy.Proxy.RecordTimer | boost_net/rpc_base.hpp:494-495 | A timer is recorded only if none is recorded for the request. |
| CallbackProxy.Proxy.Invoke | boost_net/rpc_base.hpp:463-472 | A reply disarms the timer and runs the callback once if it is registered. |
| CallbackProxy.Proxy.Remove | boost_net/rpc_base.hpp:498-507 | A timeout or failed send does the same with its status and no reply. |
| CallbackProxy.CallbacksRunOnce | boost_net/rpc_base.hpp:463-519 | Under every interleaving of registering, arming, recording, sending, replies (also unknown and repeated), timeouts and failed sends: the numbers handed out are those still registered and those whose callback ran exactly once, and nothing else ran. |
| CallbackProxy.StartRunsOnce | boost_net/rpc_base.hpp:463-519 | The same for every run from an empty table. |
| CallbackProxy.StepRuns | boost_net/rpc_base.hpp:463-507 | In every reachable state and for every step, the callbacks the step runs and what they are given: a reply runs the callback registered under its number with status ok, that reply and the session once the timer is recorded; a timeout and a failed send run it with their status and no reply; no other step runs any. |
| CallbackProxy.CallAnswered | boost_net/rpc_base.hpp:463-496 | From every reachable state, a whole call whose reply comes runs its callback once with the reply and its session, disarms its timer, and changes nothing of any other call. |
| CallbackProxy.CallTimesOut | boost_net/rpc_base.hpp:489-507 | The same for a call without a reply: its own timer runs its callback with a timeout. |
| CallbackProxy.CallNotSent | boost_net/rpc_base.hpp:845-852 | And for a call whose send fails. |
| CallbackProxy.EveryCallbackRuns | boost_net/rpc_base.hpp:463-519 | No callback is lost: in every run that ends with all timers armed by their callers and none left, armed or fired but not yet run, no callback is registered and each number handed out has run exactly once. |
| CallbackProxy.SessionPassedOn | boost_net/rpc_base.hpp:489-496 | In every reachable state a registered callback would be given the session of its request if and only if its timer is recorded, or that session is 0. |
| CallbackProxy.StaleExactlyWhenRecordedLate | boost_net/rpc_base.hpp:489-496 | From every state, the timer record of a request turns stale, that is, left without a callback, in exactly one kind of step: recording it when the request is already completed and no record is there. |
| CallbackProxy.StaleExactlyInLateRuns | boost_net/rpc_base.hpp:489-519 | A run from a table without stale records passes through no state with one if and only if every timer it records finds its callback registered. |
| CallbackProxy.TimeoutBeforeRecord | boost_net/rpc_base.hpp:489-507 | A run in which the timeout comes between arming and recording: the callback gets session 0 and the record stays behind. |
| RpcProtocol.StepKeeps | boost_net/rpc_base.hpp:845-1017 | Every step of the network keeps the protocol invariant: one frame per request, replies that answer their request, promises set at most once. |
| RpcProtocol.ReachableInOrder | boost_net/rpc_base.hpp:845-1017 | So every reachable state of any number of endpoints, with any interleaving, loss, delay, timeout and failed write, satisfies it. |
| RpcProtocol.SyncCallGetsItsAnswer | boost_net/rpc_base.hpp:889-899 | No promise is ever set twice; a synchronous call that returns ok returns an answer of the endpoint it addressed to its own arguments, although both tables of all endpoints number requests from 1; otherwise it returns a timeout or send error without a reply. |
| RpcDelivery.SyncCallDelivered | boost_net/rpc_base.hpp:889-899 | From every reachable state, a call ready to be sent whose request and reply are not lost goes through all six steps of its threads and returns ok with the very content the service answered; nothing else changes. |
| RpcDelivery.WaitReturnsWhatWasSet | boost_net/rpc_base.hpp:419-427 | In every run, a wait that ends returns ok and the frame its promise was first set to, if it was set, and otherwise a timeout and nothing; its promise leaves the table. |
| RpcDelivery.SyncCallStarts | boost_net/rpc_base.hpp:412-417 | From every reachable state a new call gets the next number and a promise of its own. |
| RpcDelivery.SyncSendFails | boost_net/rpc_base.hpp:895-897 | A call whose send fails returns a send error at once and no frame goes out. |
| RpcDelivery.LateReplyDropped | boost_net/rpc_base.hpp:405-410 | A reply to a request that is no longer in the table is dropped and changes no endpoint. |
| RpcProtocol.CallbackGetsItsAnswer | boost_net/rpc_base.hpp:1001-1007 | Every callback runs at most once, and a reply it is given answers its own request. |
| RpcDelivery.TableReachable | boost_net/rpc_base.hpp:463-519 | The callback table of every endpoint of the network is one that its own steps reach, so that all results of `CallbackProxy` hold of it. |
| RpcDelivery.CallbackDelivered | boost_net/rpc_base.hpp:845-852 | From every reachable state, a callback request ready to be sent whose request and reply are not lost runs its callback once, with status ok, the session it was sent over and the very content the service answered. |
| RpcDelivery.CallbackCallStarts | boost_net/rpc_base.hpp:474-487 | From every reachable state a new callback request gets the next number of its table. |
| RpcProtocol.WaitFindsItsPromise | boost_net/rpc_base.hpp:419-421 | A waiting call always finds its promise in the table. |
| RpcProtocol.LookupsSucceed | boost_net/rpc_base.hpp:405-428 | In every reachable state the lookups of a thread between its steps succeed: a finished wait has its value, a request its session and arguments, a held reply its promise. |
| RpcProtocol.PromisesLeft | boost_net/rpc_base.hpp:895-898 | The promises in the table are exactly those of calls that have not returned and those whose send failed. |
| RpcProtocol.OneFrameUnderWay | boost_net/rpc_base.hpp:845-862 | At most one frame per request is under way, in either direction. |
| ObjectPool.GrowKeepsMemory | object_pool.hpp:178-189 | A new chunk leaves every existing link and object as it was. |
| ObjectPool.GrowKeeps | object_pool.hpp:170-190 | After growing, the free list is the slots of the new chunk in order followed by the old list; free and live slots still partition all slots, and the capacity is the initial count plus the number of slots. |
| ObjectPool.PopKeeps | object_pool.hpp:144-154 | Taking the head yields a slot that is not live and keeps the partition. |
| ObjectPool.PushKeeps | object_pool.hpp:157-166 | Giving back a live object makes its slot the head and keeps the partition. |
| ObjectPool.AllocateKeeps | object_pool.hpp:142-155 | An allocation always finds a link at the head, growing first if the list is empty, and never returns a live slot. |
| ObjectPool.PoolStaysInOrder | object_pool.hpp:128-190 | Over every run of a new pool: no object is ever read as a link; the list ends without visiting a slot twice; its slots and the live objects are exactly the slots of all chunks, each live object is the one put there, and the capacity counts the first chunk twice. |
| ObjectPool.PoolIsStack | object_pool.hpp:128-190 | Every run of a new pool is the run of a stack of slots: slots are handed out in order, a slot given back is the next one handed out, and only when none is free does the pool grow, by one block of the chunk size. |
| ObjectPool.ThreadChunk | object_pool.hpp:178-185 | The loop links each slot of the new memory to the one behind it and the last one to the old list. |
| ObjectPool.ObjectPoolNode.constructor | object_pool.hpp:128-131 | A new pool is one chunk, all of it free. |
| ObjectPool.ObjectPoolNode.AllocateNewChunk | object_pool.hpp:170-190 | The fields and the memory become those of the grown pool; older chunks are not written. |
| ObjectPool.ObjectPoolNode.Allocate | object_pool.hpp:142-155 | Returns a slot that was not live and now holds the new object; every other object stays. |
| ObjectPool.ObjectPoolNode.Deallocate | object_pool.hpp:157-166 | A live object becomes free; a null pointer changes nothing. |
| SnowFlake.PackFields | unique_id.hpp:86-88 | The wrapped subtraction and the shift keep 42 bits of the time, above ten bits of worker and twelve of sequence number. |
| SnowFlake.TopBitClear | unique_id.hpp:37-43 | The top bit of an id is clear if and only if the 42 bits kept of the time fit in 41. |
| SnowFlake.OrIsSum | unique_id.hpp:86-88 | On 64-bit words, or-ing the shifted time, the shifted worker and the sequence number adds them, for every time and all workers and sequence numbers that fit. |
| SnowFlake.PackEqual | unique_id.hpp:86-88 | Two ids are equal if and only if worker and sequence number are and the times agree modulo 2^42. |
| SnowFlake.PackInvalid | unique_id.hpp:49-51 | A generated id equals the invalid id if and only if worker and sequence number are 0 and the time is a multiple of 2^42 ms from the epoch. |
| SnowFlake.SnowFlakeID.SetWorkerId | unique_id.hpp:56-58 | Only the ten low bits of the worker id are kept. |
| SnowFlake.SnowFlakeID.TilNextMillis | unique_id.hpp:107-113 | The loop returns the first reading after the last timestamp, if there is one. |
| SnowFlake.SnowFlakeID.GetId | unique_id.hpp:61-89 | The three outcomes for any clock readings: a rollback is refused and changes nothing, an exhausted millisecond waits, anything else issues an id and moves the generator to its time and sequence number. |
| SnowFlake.ChoiceAdvances | unique_id.hpp:64-83 | Whatever the clock does, a call that gives an id moves time and sequence number strictly forward. |
| SnowFlake.Collision | unique_id.hpp:61-89 | Over every run with any clock and any changes of the worker id, two ids collide if and only if worker and sequence number are equal and the times are a positive multiple of 2^42 ms apart. |
| SnowFlake.Growth | unique_id.hpp:61-89 | Over every run, of two ids made with the same worker the later is the greater if and only if the low 42 bits of its time, and then its sequence number, are later. |
| SnowFlake.IdInWindow | unique_id.hpp:86-88 | In the window an id is the milliseconds since 1609430400000, the worker and the sequence number in 42, 10 and 12 bits. |
| SnowFlake.MillisecondNumbers | unique_id.hpp:67-83 | Up to 4096 calls that read the same later millisecond get its time, the worker and the sequence numbers from 0 on without a gap. |
| SnowFlake.ExhaustedWaits | unique_id.hpp:67-76 | The next call waits, past any readings that are not later, for the first that is, and gets sequence number 0; without one it does not return. |
| SnowFlake.RollbackRefused | unique_id.hpp:63-65 | A call that reads an earlier time is refused with the invalid id and changes nothing. |
| SnowFlake.IdsDistinct | unique_id.hpp:32-43 | For times strictly after the epoch and within 2^42 ms of it, all ids of a generator differ, none looks invalid, and they grow while the worker id is the same. |
| SnowFlake.WorkersDisjoint | unique_id.hpp:42-58 | Generators never produce the same id while the ten bits kept of their worker ids differ, whatever their clocks; 1 and 1025 are the same worker. |

## Left out

- The block transforms of MD5, SHA-1 and SHA-256 are a parameter of `HashStreaming`; its results hold for every transform. The initial state is a parameter too, and writing the final state out as bytes is not modelled.
- The round function of DES is a parameter of `Des` and `DesStandard`; its expansion, S-boxes and permutation are not modelled.
- The key setup of Blowfish is not modelled: the round trip holds for every subkey array and all S-boxes it could leave.
- MD2, RC4, URL coding and `rot13`: they would add a further padding rule, a swap loop and per-character maps.
- `ObjectPool` and `ObjectPoolUni`, which recycle objects through a stack and a queue: one push for each release and one pop for each acquire.
- HashStreaming.Context.Update: the 32-bit index of SHA-256 is a precondition on the length, because a longer input makes the code loop for ever.
- HashStreaming.Context.WriteLength: MD5, SHA-1 and SHA-256 each have their own copy of this code; it is modelled once with a flag for the byte order.
- AesModes.AesEncryptCbc: the number of blocks is an `int` in the code; lengths of 2^35 bytes and more are outside the model.
- CcmStandard.SealExactly: payloads whose counters overflow their field are in `Ccm.NoncesShareNoCounter` and `Ccm.CounterReachesNextNonce` only; nonces that encryption refuses are in `Ccm.SealOpens` and `Ccm.AuthenticIffSealed` only.
- AesModes.AesEncryptCbcMac: for empty input the code copies an uninitialised buffer; nothing is said about the output then.
- AesCcm.AesEncryptCcm: failure to allocate memory is left out, and the 32-bit width of the payload length, which is an unbounded number here.
- AesCcm.AesDecryptCcm: the key size must be a legal one; for others the code leaves the round keys uninitialised. The scratch buffer is allocated only where it is used.
- AesCcm.FormatForMac: the scratch buffer has 49 bytes more than the data where encryption allocates 48; on the lengths of `Ccm.FormatFits` the code writes one byte behind its buffer, which the model does not show.
- Base64.Base64Decode: a text that is nothing but one padding character makes the code read before its start; it is excluded, and so is every text on which the code reads behind its end. Which these are is exact for the encoder's output (`Base64.OverrunsExactly`), and none has no newline (`Base64.UnwrappedStaysInside`).
- Base64.Base64Encode: input and output must be different arrays; in one array the text would overwrite input not yet read.
- ObjectPool.ObjectPoolNode.Allocate: the constructor and destructor of the element type are left out, and so is memory running out. A slot is taken to be large enough for a link.
- RpcSession.Reader.ReadCbk: binding, replying and the promise and callback tables are modelled in `RpcProtocol`; here a message is only recorded as handled.
- RpcSession.Reader.Dispatch: handling a message is recording it; which table or binding gets it is decided in `RpcProtocol`.
- RpcProtocol.SyncCallGetsItsAnswer: request numbers are unbounded, where the code wraps at 2^32. Handlers are those of `bind_auto` and unbound names, which reply once; the delayed replies of `bind` are application code.
- CallbackProxy.Proxy.Invoke: callbacks run while the lock is held; callbacks that call back into the table are left out.
- SnowFlake.SnowFlakeID.GetId: the lock is not modelled; calls are atomic. Two generators that share a worker id are not compared.
- Packing of arguments into the content of a frame, and the status byte in it: the content is an opaque byte string.
- Sockets, sessions, reconnecting, thread pools and the timer manager's clock: a write may fail, a frame may be lost or delayed, a timer may fire at any time once armed.
