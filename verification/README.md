# Verified model of the device SDK's data path

The C SDK of the 5G ICT open platform packs sensor reports as JSON, protects them and sends them
over TCP or MQTT. This Dafny project models four clusters of that code and proves what they are
for. `dafny verify dfyconfig.toml` checks all of it.

**Ciphers and modes.** ARIA (section 2 of RFC 5794) with its S-boxes, diffusion layer, key
schedule and in-place decryption key setup; CBC with PKCS padding for ARIA and AES; AES in counter
mode with its 1024-byte restarts. That decryption undoes encryption is proved for ARIA from its
tables up, which are tied to their formulas over GF(2^8), and the whole cipher to the known answers of
the RFC. The AES block function is any function with an inverse. `AriaTables`, `AriaField`,
`AriaDiffusion`, `AriaCipher` and `AriaSchedule` are the cipher on values, `AriaVectors` the known
answers, `Aria` the code on byte arrays;
`BlockModes`, `AriaCbc`, `AesCbc` and `AesCtr` are the modes.

**SHA-256 and HMAC.** `Sha256Spec` is FIPS 180-2 and RFC 2104 on values. `Sha256` and `Hmac` are the
contexts that take a message in pieces: a buffer of words filled by OR-ing bytes in, and an 8-byte
bit counter with a carry loop from which the fill of the buffer is recovered. `Sha256Vectors` says what
the functions and constants of the standard are, and holds its first example.

**Paho list and wire codec.** `LinkedList` is the doubly linked list with its cached current
element, and the walk over pending writes that removes as it goes. `MqttPacket` is the remaining
length, the length-delimited strings and the PUBLISH packet.

**JSON.** `Utf8` validates; `JsonStrings` and `JsonNumbers` hold escapes and decimals; `JsonText` is
the text of a tree and the tree of a text, `JsonTokens` and `JsonGrammar` what both are in the literal
characters of RFC 8259, `JsonRoundTrip` that they undo each other, `JsonLayout`
that white space and comments between the tokens make no difference; `JsonUtf8` says when parsed
strings are in UTF-8; `JsonParser`, `JsonSerializer` and `JsonComments` are the cursor, buffer and
in-place code.
`JsonContainers` has objects and arrays as cells that are changed in place, `JsonPaths` the laws of
dotted paths, `JsonEquality` those of comparison. `JsonWrap`, `Body525` and `Body525Walk` are the
525 report: its writer and its reader, two cursor machines over one tree, and `Body525Schema` the names
in it. `JsonLibrary` puts the
serializer and the parsers together as a caller does.

Bytes of ciphers are `bv8`, bytes of C strings are integers from 0 to 255, and a string is the
sequence in front of its NUL. Memory allocation succeeds. JSON numbers are reals. The six decimals
of `%f` are modelled as they are; which reals are doubles, and what is rounded to them, is in
`Doubles`, and the laws that turn on it are stated for doubles: equality, and what comes back of a
number that is written and read (`JsonDoubles`). There the rounding of `strtod` is any function
that gives the nearest double.

Where the code departs from what one would expect, the model follows the code:

- The parser takes two more characters for white space than RFC 8259, a vertical tab and a form feed,
  does not look at the character that opens a name, takes `1.` and `-.5` for numbers, and stops reading
  with the root. It refuses an exponent right behind a leading zero, names that occur twice, more than
  19 levels, 960 members or 122880 items, and roots other than objects and arrays. A string ends at the
  first NUL in it. The grammar of `JsonGrammar` has all of that.
- A control byte read from a `\u` escape is written raw and then refused by the parser
  (`ControlByteIsLost`); the round trip is stated with the exact condition.
- `json_array_remove` looks the last item up after it has shortened the array, so that removing
  any but the last item stores a null pointer (`RemoveValue`).
- `get_quoted_string` neither looks at the opening character, so that a name can begin with half of
  one (`NameFromHalfACharacter`), nor accepts a text that ends with the closing quote.
- An unterminated comment loses only its start token, and a lone minus sign is read as zero without
  being consumed. Block comments are stripped first, and a quote in a line comment is then taken for the
  beginning of a string (`QuoteInLineComment`).
- `json_object_add` grows the object before it looks for the name, so that a failing call can leave
  a larger capacity, but never another tree.
- Two trees that are equal to a third need not be equal, because numbers are compared with a
  tolerance (`TransitivityFails`), not even with numbers of six decimals (`EqualNotTransitive`).
- The readers of the 525 report give -1 for a device without a row as for the end of the report, so
  that a walk does not get beyond such a device (`Reachable`).
- `MQTTPacket_publish` reads a message id without a look at the end of the data; the outcome
  `ReadsPastEnd` stands for whatever memory holds there (`LacksMsgId`).
- `aes_decrypt_cbc_pkcs5` does not look at the length of its output.
- `sha256_initialize` writes a 17th word, which the next statement overwrites; the buffer has 16.

## Model

| member | source | states |
|---|---|---|
| AriaTables.Box2InvertsBox0 | SDK_v4_geri/5G_ICT_Open_Platform_device_sdk_4.5.6_C_TCP/project/src/deps/cipher/ARIA/ARIA_core.c:24-97 | The third S-box undoes the first on every byte; with the three lemmas beside it, rows 0 and 2 and rows 1 and 3 of the table are mutual inverses. |
| AriaField.BoxFormulas | SDK_v4_geri/5G_ICT_Open_Platform_device_sdk_4.5.6_C_TCP/project/src/deps/cipher/ARIA/ARIA_core.c:24-97 | For every byte, the first two tables are the affine images of section 2.4.2 of RFC 5794 of its inverse over GF(2^8) and of the eighth power of that inverse. |
| AriaCipher.OddLayer | SDK_v4_geri/5G_ICT_Open_Platform_device_sdk_4.5.6_C_TCP/project/src/deps/cipher/ARIA/ARIA_core.c:226-226 | In odd rounds the sixteen bytes go through the tables 0, 1, 2, 3 four times. |
| AriaCipher.EvenLayer | SDK_v4_geri/5G_ICT_Open_Platform_device_sdk_4.5.6_C_TCP/project/src/deps/cipher/ARIA/ARIA_core.c:228-228 | In even rounds they go through the tables 2, 3, 0, 1 four times. |
| AriaDiffusion.DiffuseInvolution | SDK_v4_geri/5G_ICT_Open_Platform_device_sdk_4.5.6_C_TCP/project/src/deps/cipher/ARIA/ARIA_core.c:106-130 | The diffusion layer applied twice is the identity on every block (section 2.4.3 of RFC 5794). |
| AriaDiffusion.DiffuseLinear | SDK_v4_geri/5G_ICT_Open_Platform_device_sdk_4.5.6_C_TCP/project/src/deps/cipher/ARIA/ARIA_core.c:106-130 | The diffusion of a sum of blocks is the sum of the diffusions. |
| Aria.DL | SDK_v4_geri/5G_ICT_Open_Platform_device_sdk_4.5.6_C_TCP/project/src/deps/cipher/ARIA/ARIA_core.c:106-130 | The straight-line code of DL leaves in its output the image of the input under the binary matrix, also when the output buffer is another part of the same array. |
| AriaSchedule.RotateRightBit | SDK_v4_geri/5G_ICT_Open_Platform_device_sdk_4.5.6_C_TCP/project/src/deps/cipher/ARIA/ARIA_core.c:132-144 | The byte-wise shifts and ORs of a rotation move bit k of the 128 to position k + n modulo 128, for every amount n. |
| Aria.RotXOR | SDK_v4_geri/5G_ICT_Open_Platform_device_sdk_4.5.6_C_TCP/project/src/deps/cipher/ARIA/ARIA_core.c:132-144 | The target becomes its old value XORed with the source rotated right by n bits. |
| Aria.EncKeySetup | SDK_v4_geri/5G_ICT_Open_Platform_device_sdk_4.5.6_C_TCP/project/src/deps/cipher/ARIA/ARIA_core.c:146-193 | For keys of 128, 192 and 256 bits exactly 16 * (R + 1) bytes are written, they are the round keys of section 2.2 of RFC 5794, and R is 12, 14 or 16. |
| Aria.DecKeySetup | SDK_v4_geri/5G_ICT_Open_Platform_device_sdk_4.5.6_C_TCP/project/src/deps/cipher/ARIA/ARIA_core.c:197-215 | The in-place reversal and diffusion, the middle key included, leaves the keys of the encryption reversed, the inner ones diffused. |
| Aria.SwapDiffused | SDK_v4_geri/5G_ICT_Open_Platform_device_sdk_4.5.6_C_TCP/project/src/deps/cipher/ARIA/ARIA_core.c:205-214 | The loop that diffuses and exchanges keys from both ends reaches the same result where both ends meet and DL reads and writes one key. |
| Aria.Crypt | SDK_v4_geri/5G_ICT_Open_Platform_device_sdk_4.5.6_C_TCP/project/src/deps/cipher/ARIA/ARIA_core.c:218-233 | The loop over pairs of rounds computes the rounds of section 2.3.1 of RFC 5794 with the given keys, also in place. |
| AriaCipher.StateReversed | SDK_v4_geri/5G_ICT_Open_Platform_device_sdk_4.5.6_C_TCP/project/src/deps/cipher/ARIA/ARIA_core.c:197-233 | Running the rounds with the reversed and diffused keys passes through the states of the encryption backwards. |
| AriaCipher.DecryptInvertsEncrypt | SDK_v4_geri/5G_ICT_Open_Platform_device_sdk_4.5.6_C_TCP/project/src/deps/cipher/ARIA/ARIA_core.c:197-233 | For any odd number of round keys, the cipher with the decryption keys undoes the cipher with the encryption keys. |
| AriaSchedule.AriaDecryptsEncrypted | SDK_v4_geri/5G_ICT_Open_Platform_device_sdk_4.5.6_C_TCP/project/src/deps/cipher/ARIA/ARIA_core.c:146-233 | For every master key and every block, decryption undoes encryption. |
| AriaVectors.Answer128 | SDK_v4_geri/5G_ICT_Open_Platform_device_sdk_4.5.6_C_TCP/project/src/deps/cipher/ARIA/ARIA_core.c:146-233 | The 128-bit key 0001..0f takes 00112233445566778899aabbccddeeff to d718fbd6ab644c739da95f3be6451778, through the round keys and the intermediate values of appendix A of RFC 5794. |
| AriaVectors.Answer192 | SDK_v4_geri/5G_ICT_Open_Platform_device_sdk_4.5.6_C_TCP/project/src/deps/cipher/ARIA/ARIA_core.c:146-233 | The 192-bit key 0001..17 takes the same block to 26449c1805dbe7aa25a468ce263a9e79. |
| AriaVectors.Answer256 | SDK_v4_geri/5G_ICT_Open_Platform_device_sdk_4.5.6_C_TCP/project/src/deps/cipher/ARIA/ARIA_core.c:146-233 | The 256-bit key 0001..1f takes it to f92bd7c79fb72e2f2b8f80c1972d24fc. |
| BlockModes.UnpadPadded | SDK_v4_geri/5G_ICT_Open_Platform_device_sdk_4.5.6_C_TCP/project/src/deps/cipher/ARIA/aria.c:19-55 | Removing the padding of a padded text gives the text, for every length. |
| BlockModes.PaddedEndsInPadding | SDK_v4_geri/5G_ICT_Open_Platform_device_sdk_4.5.6_C_TCP/project/src/deps/cipher/ARIA/aria.c:19-39 | A padded text is the text and behind it 01, or 02 02, or 03 03 03 and so on up to sixteen times 10 (section 6.3 of RFC 5652). |
| BlockModes.PadRemain | SDK_v4_geri/5G_ICT_Open_Platform_device_sdk_4.5.6_C_TCP/project/src/deps/cipher/ARIA/aria.c:19-39 | The last block holds the rest of the text and as many bytes as are missing, each with their number. |
| BlockModes.UnpadRemain | SDK_v4_geri/5G_ICT_Open_Platform_device_sdk_4.5.6_C_TCP/project/src/deps/cipher/ARIA/aria.c:41-55 | The padding is recognised exactly when the last byte is between 1 and 16 and that many bytes hold it; it is then cleared. |
| BlockModes.CbcInverse | SDK_v4_geri/5G_ICT_Open_Platform_device_sdk_4.5.6_C_TCP/project/src/deps/cipher/ARIA/aria.c:238-269 | Chained decryption undoes chained encryption for any block cipher with an inverse, any initial vector and any number of blocks (section 6.2 of NIST SP 800-38A). |
| BlockModes.DecryptInvertsEncrypt | SDK_v4_geri/5G_ICT_Open_Platform_device_sdk_4.5.6_C_TCP/project/src/deps/cipher/ARIA/aria.c:274-342 | Padding, chaining, unchaining and unpadding together return the text, for every length. |
| AriaCbc.AriaContext.EncryptCbcPkcs5 | SDK_v4_geri/5G_ICT_Open_Platform_device_sdk_4.5.6_C_TCP/project/src/deps/cipher/ARIA/aria.c:274-304 | Returns 16 * (n / 16 + 1) and leaves the padded and chained encryption in the output, or -1 and an untouched buffer when it is too small; input and output may be one buffer. |
| AriaCbc.AriaContext.DecryptCbcPkcs5 | SDK_v4_geri/5G_ICT_Open_Platform_device_sdk_4.5.6_C_TCP/project/src/deps/cipher/ARIA/aria.c:306-342 | Returns the length of the unpadded text and leaves the text in the output, or -1 where the lengths or the padding do not fit, for every input. |
| AriaCbc.AriaCbcRoundTrip | SDK_v4_geri/5G_ICT_Open_Platform_device_sdk_4.5.6_C_TCP/project/src/deps/cipher/ARIA/aria.c:274-342 | Decryption under the ARIA keys set for a master key returns the text for every initial vector and length. |
| AriaCbc.EncryptThenDecrypt | SDK_v4_geri/5G_ICT_Open_Platform_device_sdk_4.5.6_C_TCP/project/src/deps/cipher/ARIA/aria.c:274-342 | With one context, decrypting what was encrypted returns n and the n bytes of the text. |
| AesCbc.AesCbcContext.EncryptCbcPkcs5 | SDK_v4_geri/5G_ICT_Open_Platform_device_sdk_4.5.6_C_TCP/project/src/deps/cipher/AES/aes.c:884-934 | Returns 16 * (n / 16 + 1) and leaves the padded and chained encryption in the output, or -1 when the output is too small, for any block function with an inverse. |
| AesCbc.AesCbcContext.DecryptCbcPkcs5 | SDK_v4_geri/5G_ICT_Open_Platform_device_sdk_4.5.6_C_TCP/project/src/deps/cipher/AES/aes.c:936-988 | Returns the length of the unpadded text and leaves the text in the output, or -1 where the length is no multiple of 16 or the padding is wrong, for every ciphertext and any block function with an inverse; the output must be as long as the ciphertext, which the code does not check. |
| AesCbc.EncryptThenDecrypt | SDK_v4_geri/5G_ICT_Open_Platform_device_sdk_4.5.6_C_TCP/project/src/deps/cipher/AES/aes.c:884-988 | With one context, decrypting what was encrypted returns n and the n bytes of the text. |
| AesCtr.IncrementIsPlusOne | SDK_v4_geri/5G_ICT_Open_Platform_device_sdk_4.5.6_C_TCP/project/src/deps/cipher/AES/aes_ctr.c:70-105 | The word-wise counter step with its carries is n + 1 modulo 2^128 on the number n that the sixteen bytes are, most significant first. |
| AesCtr.Inc | SDK_v4_geri/5G_ICT_Open_Platform_device_sdk_4.5.6_C_TCP/project/src/deps/cipher/AES/aes_ctr.c:70-105 | The step in place, word by word, is that function of the old counter. |
| AesCtr.AdvanceSplit | SDK_v4_geri/5G_ICT_Open_Platform_device_sdk_4.5.6_C_TCP/project/src/deps/cipher/AES/aes_ctr.c:122-147 | However an input is split over calls that carry the state, the key stream goes on as in one call. |
| AesCtr.CounterValue | SDK_v4_geri/5G_ICT_Open_Platform_device_sdk_4.5.6_C_TCP/project/src/deps/cipher/AES/aes_ctr.c:70-147 | After k steps the counter is n + k modulo 2^128. |
| AesCtr.StreamClosedForm | SDK_v4_geri/5G_ICT_Open_Platform_device_sdk_4.5.6_C_TCP/project/src/deps/cipher/AES/aes_ctr.c:122-147 | Byte i of the key stream is byte i mod 16 of the encryption of the counter i / 16 steps on (section 6.5 of NIST SP 800-38A). |
| AesCtr.CtrEncrypt | SDK_v4_geri/5G_ICT_Open_Platform_device_sdk_4.5.6_C_TCP/project/src/deps/cipher/AES/aes_ctr.c:122-147 | Each output byte is the input byte XORed with the key stream from the carried state, and the state left is the one to go on with. |
| AesCtr.EncryptCtr | SDK_v4_geri/5G_ICT_Open_Platform_device_sdk_4.5.6_C_TCP/project/src/deps/cipher/AES/aes_ctr.c:160-192 | For every length, output byte i is input byte i XORed with key stream byte i mod 1024; nothing behind is touched. |
| AesCtr.ApplyAt | SDK_v4_geri/5G_ICT_Open_Platform_device_sdk_4.5.6_C_TCP/project/src/deps/cipher/AES/aes_ctr.c:150-192 | For every length, output byte i is input byte i XORed with byte i mod 16 of the encrypted counter 0x66616365736561000000000000000000 + (i mod 1024) / 16. |
| AesCtr.StreamRepeats | SDK_v4_geri/5G_ICT_Open_Platform_device_sdk_4.5.6_C_TCP/project/src/deps/cipher/AES/aes_ctr.c:160-192 | Output bytes 1024 apart are combined with the same byte of the key stream. |
| AesCtr.ApplyTwice | SDK_v4_geri/5G_ICT_Open_Platform_device_sdk_4.5.6_C_TCP/project/src/deps/cipher/AES/aes_ctr.c:160-192 | Applying it twice gives the input back, for every length. |
| Sha256.Sha256Context.Initialize | SDK_v4_geri/5G_ICT_Open_Platform_device_sdk_4.5.6_C_TCP/project/src/deps/cipher/SHA256/hmac_sha256.c:94-106 | Whatever the context held, it then stands for the empty message. |
| Sha256.Sha256Context.Carry | SDK_v4_geri/5G_ICT_Open_Platform_device_sdk_4.5.6_C_TCP/project/src/deps/cipher/SHA256/hmac_sha256.c:127-129 | The carry loop adds one at the position above i, modulo 2^64, and touches no other byte below. |
| Sha256.Sha256Context.Count | SDK_v4_geri/5G_ICT_Open_Platform_device_sdk_4.5.6_C_TCP/project/src/deps/cipher/SHA256/hmac_sha256.c:118-131 | The eight bytes are the number of bits of all bytes so far modulo 2^64 after any 32-bit length is added. |
| Sha256.BitsFromStep | SDK_v4_geri/5G_ICT_Open_Platform_device_sdk_4.5.6_C_TCP/project/src/deps/cipher/SHA256/hmac_sha256.c:119-126 | The shifts and masks of the byte count give the digits of the bit count in base 256. |
| Sha256.IndexFromCounter | SDK_v4_geri/5G_ICT_Open_Platform_device_sdk_4.5.6_C_TCP/project/src/deps/cipher/SHA256/hmac_sha256.c:137-138 | The fill of the buffer can be read off the two low bytes of the bit counter. |
| Sha256Spec.AppendByte | SDK_v4_geri/5G_ICT_Open_Platform_device_sdk_4.5.6_C_TCP/project/src/deps/cipher/SHA256/hmac_sha256.c:141-143 | OR-ing a byte into its word of a buffer whose missing bytes are zero appends it to the bytes in the buffer. |
| Sha256Vectors.ChooseBit | SDK_v4_geri/5G_ICT_Open_Platform_device_sdk_4.5.6_C_TCP/project/src/deps/cipher/SHA256/hmac_sha256.c:203-203 | Bit i of the choice is the bit of the second word where the first has it, and that of the third otherwise. |
| Sha256Vectors.MajorityBit | SDK_v4_geri/5G_ICT_Open_Platform_device_sdk_4.5.6_C_TCP/project/src/deps/cipher/SHA256/hmac_sha256.c:204-204 | Bit i of the majority is what two of the three words have. |
| Sha256Vectors.SumsOfRotations | SDK_v4_geri/5G_ICT_Open_Platform_device_sdk_4.5.6_C_TCP/project/src/deps/cipher/SHA256/hmac_sha256.c:175-202 | The four sums are XORs of rotated words by the amounts of section 4.1.2 of FIPS 180-2, with one shift in each of the two of the schedule. |
| Sha256Vectors.CubeRoots0 | SDK_v4_geri/5G_ICT_Open_Platform_device_sdk_4.5.6_C_TCP/project/src/deps/cipher/SHA256/hmac_sha256.c:151-152 | Each of these constants holds the first 32 bits of the fraction of the cube root of a prime, from 2 to 19. |
| Sha256Vectors.CubeRoots1 | SDK_v4_geri/5G_ICT_Open_Platform_device_sdk_4.5.6_C_TCP/project/src/deps/cipher/SHA256/hmac_sha256.c:153-154 | Each of these constants holds the first 32 bits of the fraction of the cube root of a prime, from 23 to 53. |
| Sha256Vectors.CubeRoots2 | SDK_v4_geri/5G_ICT_Open_Platform_device_sdk_4.5.6_C_TCP/project/src/deps/cipher/SHA256/hmac_sha256.c:155-156 | Each of these constants holds the first 32 bits of the fraction of the cube root of a prime, from 59 to 89. |
| Sha256Vectors.CubeRoots3 | SDK_v4_geri/5G_ICT_Open_Platform_device_sdk_4.5.6_C_TCP/project/src/deps/cipher/SHA256/hmac_sha256.c:157-158 | Each of these constants holds the first 32 bits of the fraction of the cube root of a prime, from 97 to 131. |
| Sha256Vectors.CubeRoots4 | SDK_v4_geri/5G_ICT_Open_Platform_device_sdk_4.5.6_C_TCP/project/src/deps/cipher/SHA256/hmac_sha256.c:159-160 | Each of these constants holds the first 32 bits of the fraction of the cube root of a prime, from 137 to 173. |
| Sha256Vectors.CubeRoots5 | SDK_v4_geri/5G_ICT_Open_Platform_device_sdk_4.5.6_C_TCP/project/src/deps/cipher/SHA256/hmac_sha256.c:161-162 | Each of these constants holds the first 32 bits of the fraction of the cube root of a prime, from 179 to 223. |
| Sha256Vectors.CubeRoots6 | SDK_v4_geri/5G_ICT_Open_Platform_device_sdk_4.5.6_C_TCP/project/src/deps/cipher/SHA256/hmac_sha256.c:163-164 | Each of these constants holds the first 32 bits of the fraction of the cube root of a prime, from 227 to 263. |
| Sha256Vectors.CubeRoots7 | SDK_v4_geri/5G_ICT_Open_Platform_device_sdk_4.5.6_C_TCP/project/src/deps/cipher/SHA256/hmac_sha256.c:165-166 | Each of these constants holds the first 32 bits of the fraction of the cube root of a prime, from 269 to 311. |
| Sha256Vectors.SquareRoots | SDK_v4_geri/5G_ICT_Open_Platform_device_sdk_4.5.6_C_TCP/project/src/deps/cipher/SHA256/hmac_sha256.c:97-104 | The initial state holds the first 32 bits of the fractions of the square roots of the first eight primes. |
| Sha256Vectors.Abc | SDK_v4_geri/5G_ICT_Open_Platform_device_sdk_4.5.6_C_TCP/project/src/deps/cipher/SHA256/hmac_sha256.c:94-261 | The digest of abc is ba7816bf 8f01cfea 414140de 5dae2223 b00361a3 96177a9c b410ff61 f20015ad, byte by byte (appendix B.1 of FIPS 180-2). |
| Sha256.Extend | SDK_v4_geri/5G_ICT_Open_Platform_device_sdk_4.5.6_C_TCP/project/src/deps/cipher/SHA256/hmac_sha256.c:132-147 | A piece of a message either only lengthens the unfinished block or completes it. |
| Sha256.Sha256Context.CompressBuffer | SDK_v4_geri/5G_ICT_Open_Platform_device_sdk_4.5.6_C_TCP/project/src/deps/cipher/SHA256/hmac_sha256.c:145-222 | The state becomes the compression function of section 6.2.2 of FIPS 180-2 of the old state and the buffer, which is cleared. |
| Sha256.Sha256Context.Update | SDK_v4_geri/5G_ICT_Open_Platform_device_sdk_4.5.6_C_TCP/project/src/deps/cipher/SHA256/hmac_sha256.c:111-224 | For any message so far and any piece, the state is the fold of the compression function over the whole blocks, the buffer holds the rest with zeros behind and the counter the bits. |
| Sha256.Sha256Context.Terminator | SDK_v4_geri/5G_ICT_Open_Platform_device_sdk_4.5.6_C_TCP/project/src/deps/cipher/SHA256/hmac_sha256.c:234-241 | The bytes hashed last are the stop bit, zeros and the 64-bit length of section 5.1.1 of FIPS 180-2, also when they need a second block. |
| Sha256.Sha256Context.Finalize | SDK_v4_geri/5G_ICT_Open_Platform_device_sdk_4.5.6_C_TCP/project/src/deps/cipher/SHA256/hmac_sha256.c:229-248 | The hash is SHA-256 of everything since initialization. |
| Sha256.HashPieces | SDK_v4_geri/5G_ICT_Open_Platform_device_sdk_4.5.6_C_TCP/project/src/deps/cipher/SHA256/hmac_sha256.c:94-248 | For every way to cut a message into pieces, the digest is that of the whole. |
| Sha256.Sha256Get | SDK_v4_geri/5G_ICT_Open_Platform_device_sdk_4.5.6_C_TCP/project/src/deps/cipher/SHA256/hmac_sha256.c:253-261 | The digest of a message handed over at once. |
| HmacSha256.HmacContext.Initialize | SDK_v4_geri/5G_ICT_Open_Platform_device_sdk_4.5.6_C_TCP/project/src/deps/cipher/SHA256/hmac_sha256.c:280-296 | Keys of up to 64 bytes are filled with zeros and longer ones hashed first; the inner hash has taken the key block. |
| HmacSha256.HmacContext.Finalize | SDK_v4_geri/5G_ICT_Open_Platform_device_sdk_4.5.6_C_TCP/project/src/deps/cipher/SHA256/hmac_sha256.c:310-324 | The digest is the HMAC of section 2 of RFC 2104 of everything since initialization. |
| HmacSha256.Generate | SDK_v4_geri/5G_ICT_Open_Platform_device_sdk_4.5.6_C_TCP/project/src/deps/cipher/SHA256/hmac_sha256.c:339-354 | The result is the HMAC of the data followed by the digest. |
| LinkedLists.List.AppendNoMalloc | SDK_v4_geri/5G_ICT_Open_Platform_device_sdk_4.5.6_C_TCP/project/src/deps/org.eclipse.paho.mqtt.c/src/LinkedList.c:70-82 | The element goes behind the others, and the list keeps its shape; the current element stays. |
| LinkedLists.List.Insert | SDK_v4_geri/5G_ICT_Open_Platform_device_sdk_4.5.6_C_TCP/project/src/deps/org.eclipse.paho.mqtt.c/src/LinkedList.c:106-127 | The content goes in front of the element given, or to the end without one. |
| LinkedLists.List.FindItem | SDK_v4_geri/5G_ICT_Open_Platform_device_sdk_4.5.6_C_TCP/project/src/deps/org.eclipse.paho.mqtt.c/src/LinkedList.c:150-185 | The current element if it matches, else the first that does, which becomes the current one, else nothing. |
| LinkedLists.List.Unlink | SDK_v4_geri/5G_ICT_Open_Platform_device_sdk_4.5.6_C_TCP/project/src/deps/org.eclipse.paho.mqtt.c/src/LinkedList.c:197-229 | Exactly one matching element goes, the one the search finds; the current element moves to the successor if it was that one, and stays otherwise. |
| LinkedLists.List.DetachHead | SDK_v4_geri/5G_ICT_Open_Platform_device_sdk_4.5.6_C_TCP/project/src/deps/org.eclipse.paho.mqtt.c/src/LinkedList.c:261-279 | The first element goes; the current one moves on if it was that one. |
| LinkedLists.List.PopTail | SDK_v4_geri/5G_ICT_Open_Platform_device_sdk_4.5.6_C_TCP/project/src/deps/org.eclipse.paho.mqtt.c/src/LinkedList.c:299-317 | The last element goes; the current one moves back if it was that one. |
| LinkedLists.List.Empty | SDK_v4_geri/5G_ICT_Open_Platform_device_sdk_4.5.6_C_TCP/project/src/deps/org.eclipse.paho.mqtt.c/src/LinkedList.c:352-364 | Every content is freed once, in order, and the list is empty. |
| LinkedLists.List.Forward | SDK_v4_geri/5G_ICT_Open_Platform_device_sdk_4.5.6_C_TCP/project/src/deps/org.eclipse.paho.mqtt.c/src/LinkedList.c:400-403 | The n-th step of a forward walk is at the n-th element, and the walk ends after the last. |
| LinkedLists.List.BackwardReversesForward | SDK_v4_geri/5G_ICT_Open_Platform_device_sdk_4.5.6_C_TCP/project/src/deps/org.eclipse.paho.mqtt.c/src/LinkedList.c:400-416 | A backward walk meets the elements of a forward walk in reverse order. |
| LinkedLists.CheckPendingWrites | SDK_v4_geri/5G_ICT_Open_Platform_device_sdk_4.5.6_C_TCP/project/src/deps/org.eclipse.paho.mqtt.c/src/MQTTClient.c:1935-1955 | The walk that removes while it goes cleans up exactly the completed writes, each once and in order, and leaves the others in their order. |
| MqttPacket.Encode | SDK_v4_geri/5G_ICT_Open_Platform_device_sdk_4.5.6_C_TCP/project/src/deps/org.eclipse.paho.mqtt.c/src/MQTTPacket.c:264-280 | The loop writes the remaining length of a number at its place and nothing else. |
| MqttPacket.LengthBytesMinimal | SDK_v4_geri/5G_ICT_Open_Platform_device_sdk_4.5.6_C_TCP/project/src/deps/org.eclipse.paho.mqtt.c/src/MQTTPacket.c:264-280 | No form of a number is shorter than the one written, and no other one is as short. |
| MqttPacket.FourBytes | SDK_v4_geri/5G_ICT_Open_Platform_device_sdk_4.5.6_C_TCP/project/src/deps/org.eclipse.paho.mqtt.c/src/MQTTPacket.c:264-319 | A number takes at most four bytes exactly when it is at most 268435455 (section 2.2.3 of MQTT 3.1.1). |
| MqttPacket.Decode | SDK_v4_geri/5G_ICT_Open_Platform_device_sdk_4.5.6_C_TCP/project/src/deps/org.eclipse.paho.mqtt.c/src/MQTTPacket.c:289-319 | The number that the first bytes of the input spell, with exactly those bytes used; an error exactly when four bytes all announce another. |
| MqttPacket.DecodeEncoded | SDK_v4_geri/5G_ICT_Open_Platform_device_sdk_4.5.6_C_TCP/project/src/deps/org.eclipse.paho.mqtt.c/src/MQTTPacket.c:264-319 | What was written is read back, up to the limit; beyond it the read is an error. |
| MqttPacket.ReadUtf | SDK_v4_geri/5G_ICT_Open_Platform_device_sdk_4.5.6_C_TCP/project/src/deps/org.eclipse.paho.mqtt.c/src/MQTTPacket.c:348-366 | The length-delimited string at the cursor, refused exactly when none fits in front of the end. |
| MqttPacket.WriteUtf | SDK_v4_geri/5G_ICT_Open_Platform_device_sdk_4.5.6_C_TCP/project/src/deps/org.eclipse.paho.mqtt.c/src/MQTTPacket.c:416-436 | The two length bytes and the string are written, and nothing else. |
| MqttPacket.FirstByteIs | SDK_v4_geri/5G_ICT_Open_Platform_device_sdk_4.5.6_C_TCP/project/src/deps/org.eclipse.paho.mqtt.c/src/MQTTPacket.h:51-71 | A first byte is that of a header, and is read as that header, exactly when the packet type is in bits 7 to 4, DUP is bit 3, the quality of service is in bits 2 and 1 and RETAIN is bit 0 (section 3.3.1 of MQTT 3.1.1). |
| MqttPacket.PublishBytes | SDK_v4_geri/5G_ICT_Open_Platform_device_sdk_4.5.6_C_TCP/project/src/deps/org.eclipse.paho.mqtt.c/src/MQTTPacket.c:680-683 | The first byte of a PUBLISH packet is 0x30 with 0x08 for DUP, 0x02 or 0x04 for the quality of service and 0x01 for RETAIN. |
| MqttPacket.ParsePublish | SDK_v4_geri/5G_ICT_Open_Platform_device_sdk_4.5.6_C_TCP/project/src/deps/org.eclipse.paho.mqtt.c/src/MQTTPacket.c:481-504 | The packet whose bytes the data are; a refusal exactly when the topic does not fit; a read past the end exactly when it fits, the header says QoS above 0 and fewer than two bytes follow it. |
| MqttPacket.LacksMsgIdExample | SDK_v4_geri/5G_ICT_Open_Platform_device_sdk_4.5.6_C_TCP/project/src/deps/org.eclipse.paho.mqtt.c/src/MQTTPacket.c:495-496 | An empty topic at QoS 1 with nothing behind it makes the code read past the end. |
| MqttPacket.Receive | SDK_v4_geri/5G_ICT_Open_Platform_device_sdk_4.5.6_C_TCP/project/src/deps/org.eclipse.paho.mqtt.c/src/MQTTPacket.c:95-164 | A packet is read exactly when the input begins with a header, a length of at most four bytes and as many bytes as it says; which of the three outcomes a PUBLISH has is decided by its body. |
| MqttPacket.SendPublish | SDK_v4_geri/5G_ICT_Open_Platform_device_sdk_4.5.6_C_TCP/project/src/deps/org.eclipse.paho.mqtt.c/src/MQTTPacket.c:671-718 | The bytes sent are the header, the remaining length and the layout of section 3.3 of MQTT 3.1.1, with a message id exactly for QoS above 0. |
| MqttPacket.SamplePacket | SDK_v4_geri/5G_ICT_Open_Platform_device_sdk_4.5.6_C_TCP/project/src/deps/org.eclipse.paho.mqtt.c/src/MQTTPacket.c:671-718 | The message x for the topic a/b at quality of service 1 with id 10 is the bytes 32 08 00 03 61 2f 62 00 0a 78. |
| MqttPacket.SendThenReceive | SDK_v4_geri/5G_ICT_Open_Platform_device_sdk_4.5.6_C_TCP/project/src/deps/org.eclipse.paho.mqtt.c/src/MQTTPacket.c:95-718 | A packet sent is received unchanged exactly when topic and message id fit in 16 bits, the id is 0 for QoS 0 and the whole is at most 268435455 bytes. |
| Utf8.VerifySound | SDK_v4_geri/5G_ICT_Open_Platform_device_sdk_4.5.6_C_TCP/project/src/deps/parson/parson.c:151-206 | A sequence that is accepted is the encoding of one scalar value, neither overlong nor a surrogate (section 4 of RFC 3629). |
| Utf8.VerifyComplete | SDK_v4_geri/5G_ICT_Open_Platform_device_sdk_4.5.6_C_TCP/project/src/deps/parson/parson.c:151-206 | The encoding of every scalar value is accepted, with its length. |
| Utf8.IsValidUtf8 | SDK_v4_geri/5G_ICT_Open_Platform_device_sdk_4.5.6_C_TCP/project/src/deps/parson/parson.c:208-218 | A string is accepted exactly when it is a concatenation of encodings of scalar values; every step moves on. |
| JsonStrings.PieceIsLocal | SDK_v4_geri/5G_ICT_Open_Platform_device_sdk_4.5.6_C_TCP/project/src/deps/parson/parson.c:443-456 | Between quotes found by skip_quotes, no escape reads past the closing quote. |
| JsonStrings.UnescapeShrinks | SDK_v4_geri/5G_ICT_Open_Platform_device_sdk_4.5.6_C_TCP/project/src/deps/parson/parson.c:500-546 | Unescaping never gives more bytes than it takes. |
| JsonStrings.UnescapeKeepsUtf8 | SDK_v4_geri/5G_ICT_Open_Platform_device_sdk_4.5.6_C_TCP/project/src/deps/parson/parson.c:458-546 | Unescaping valid UTF-8, surrogate pairs included, gives valid UTF-8. |
| JsonStrings.UnescapeEscape | SDK_v4_geri/5G_ICT_Open_Platform_device_sdk_4.5.6_C_TCP/project/src/deps/parson/parson.c:500-546 | Unescaping what was escaped gives the string back exactly when it has no control byte but those with a short escape; otherwise it fails. |
| JsonTokens.StandsIsRead | SDK_v4_geri/5G_ICT_Open_Platform_device_sdk_4.5.6_C_TCP/project/src/deps/parson/parson.c:458-546 | An escape or a plain byte is read as what section 7 of RFC 8259 says it stands for: a short escape as its character, four hex digits as the UTF-8 of their code point, two such escapes as that of the pair of section 2.2 of RFC 2781. |
| JsonTokens.QuotedIs | SDK_v4_geri/5G_ICT_Open_Platform_device_sdk_4.5.6_C_TCP/project/src/deps/parson/parson.c:500-558 | A quoted string is read, and read as a sequence of bytes, exactly when it is a sequence of such pieces for these bytes up to the first quote, with something behind it. |
| JsonStrings.CloseEscape | SDK_v4_geri/5G_ICT_Open_Platform_device_sdk_4.5.6_C_TCP/project/src/deps/parson/parson.c:443-456 | The closing quote of an escaped string is found behind all of it. |
| JsonParser.SkipQuotes | SDK_v4_geri/5G_ICT_Open_Platform_device_sdk_4.5.6_C_TCP/project/src/deps/parson/parson.c:443-456 | The cursor goes behind the first quote that is not escaped, or to the end of the text. |
| JsonParser.ParseUtf16 | SDK_v4_geri/5G_ICT_Open_Platform_device_sdk_4.5.6_C_TCP/project/src/deps/parson/parson.c:458-495 | One escape, or two that are a surrogate pair (section 2.2 of RFC 2781), becomes the UTF-8 of its code point; nothing is written otherwise. |
| JsonParser.ProcessString | SDK_v4_geri/5G_ICT_Open_Platform_device_sdk_4.5.6_C_TCP/project/src/deps/parson/parson.c:500-546 | The buffer of one byte more than the contents is never overrun; the result is the unescaped contents, all of them, or a failure. |
| JsonParser.GetQuotedString | SDK_v4_geri/5G_ICT_Open_Platform_device_sdk_4.5.6_C_TCP/project/src/deps/parson/parson.c:550-558 | The string at the cursor and the cursor behind it; none where the text ends with the closing quote. |
| JsonParser.ParseValueAt | SDK_v4_geri/5G_ICT_Open_Platform_device_sdk_4.5.6_C_TCP/project/src/deps/parson/parson.c:560-582 | The cursor functions return the tree that the text at the cursor stands for and stop behind it, or fail when it stands for none. |
| JsonParser.ParseObjectAt | SDK_v4_geri/5G_ICT_Open_Platform_device_sdk_4.5.6_C_TCP/project/src/deps/parson/parson.c:584-631 | Members in order; a repeated name, a member too many or text that is no object fails. |
| JsonParser.ParseArrayAt | SDK_v4_geri/5G_ICT_Open_Platform_device_sdk_4.5.6_C_TCP/project/src/deps/parson/parson.c:633-669 | Items in order; an item too many or text that is no array fails. |
| JsonParser.JsonParseString | SDK_v4_geri/5G_ICT_Open_Platform_device_sdk_4.5.6_C_TCP/project/src/deps/parson/parson.c:909-916 | Only an object or an array is taken, and what follows it is ignored. |
| JsonGrammar.ParsedExactly | SDK_v4_geri/5G_ICT_Open_Platform_device_sdk_4.5.6_C_TCP/project/src/deps/parson/parson.c:560-716 | A text is parsed as a tree exactly when it is derived from the tree by the grammar of RFC 8259, written in literal characters, with the departures named above. |
| JsonNumbers.NumberReadBack | SDK_v4_geri/5G_ICT_Open_Platform_device_sdk_4.5.6_C_TCP/project/src/deps/parson/parson.c:697-708 | Every integer written in decimal is read back with exactly its characters, whatever follows that does not continue a number. |
| JsonNumbers.FixedReadBack | SDK_v4_geri/5G_ICT_Open_Platform_device_sdk_4.5.6_C_TCP/project/src/deps/parson/parson.c:697-708 | A number written with six decimals is read back as the nearest number of six decimals. |
| JsonNumbers.NearestIsNear | SDK_v4_geri/5G_ICT_Open_Platform_device_sdk_4.5.6_C_TCP/project/src/deps/parson/parson.c:816-829 | Which is at most half a millionth away. |
| JsonTokens.DecimalIsParsed | SDK_v4_geri/5G_ICT_Open_Platform_device_sdk_4.5.6_C_TCP/project/src/deps/parson/parson.c:697-708 | A number of the grammar, with sign, fraction and exponent, in front of anything that does not go on with it, is read as the number that it spells. |
| JsonTokens.ParsedIsDecimal | SDK_v4_geri/5G_ICT_Open_Platform_device_sdk_4.5.6_C_TCP/project/src/deps/parson/parson.c:697-708 | Whatever text is read as a number, and not left where it is, is such a number, with that value. |
| JsonTokens.AHundred | SDK_v4_geri/5G_ICT_Open_Platform_device_sdk_4.5.6_C_TCP/project/src/deps/parson/parson.c:697-708 | 1e2 is read as 100. |
| JsonTokens.NumberIsWritten | SDK_v4_geri/5G_ICT_Open_Platform_device_sdk_4.5.6_C_TCP/project/src/deps/parson/parson.c:816-828 | A C int is written as its digits, any other number with six decimals that are the nearest there are, the even ones from halfway. |
| JsonTokens.IntIsWritten | SDK_v4_geri/5G_ICT_Open_Platform_device_sdk_4.5.6_C_TCP/project/src/deps/parson/parson.c:816-828 | A C int is written as a number of the grammar without a point that spells it. |
| JsonTokens.FixedIsWritten | SDK_v4_geri/5G_ICT_Open_Platform_device_sdk_4.5.6_C_TCP/project/src/deps/parson/parson.c:816-828 | Any other number is written with a point and six digits behind it, and they spell the nearest such number. |
| JsonRoundTrip.ParseUndoesSerialize | SDK_v4_geri/5G_ICT_Open_Platform_device_sdk_4.5.6_C_TCP/project/src/deps/parson/parson.c:560-838 | For every object or array, both layouts and any text behind, parsing the serialization gives the tree, members in order and numbers to the sixth decimal, exactly when it is nested at most 19 deep and its strings have no control byte without a short escape; otherwise it fails. |
| JsonLibrary.TextHasNoNul | SDK_v4_geri/5G_ICT_Open_Platform_device_sdk_4.5.6_C_TCP/project/src/deps/parson/parson.c:730-867 | No text of a value has a NUL inside, so that it is one C string. |
| JsonLibrary.SerializeThenParse | SDK_v4_geri/5G_ICT_Open_Platform_device_sdk_4.5.6_C_TCP/project/src/deps/parson/parson.c:909-1328 | What json_serialize_to_string leaves in its buffer, json_parse_string reads as the tree with its numbers as strtod rounds their six decimals, exactly for trees at most 19 deep with clean strings, and fails on otherwise; for doubles and a correctly rounding strtod it is the very same tree exactly when moreover every number is what strtod makes of at most six decimals. |
| JsonLibrary.SerializeThenParseWithComments | SDK_v4_geri/5G_ICT_Open_Platform_device_sdk_4.5.6_C_TCP/project/src/deps/parson/parson.c:918-1328 | json_parse_string_with_comments reads it with the same result. |
| JsonLibrary.ThereAndBackAgain | SDK_v4_geri/5G_ICT_Open_Platform_device_sdk_4.5.6_C_TCP/project/src/deps/parson/parson.c:909-1328 | Whatever doubles the tree held, what has been written and read once comes back unchanged the second time, in any layout. |
| Doubles.StrtodRoundsAll | SDK_v4_geri/5G_ICT_Open_Platform_device_sdk_4.5.6_C_TCP/project/src/deps/parson/parson.c:699-699 | There is a function that gives every number in range a nearest double, the even one from halfway, as is assumed of strtod. |
| JsonDoubles.NumberComesBack | SDK_v4_geri/5G_ICT_Open_Platform_device_sdk_4.5.6_C_TCP/project/src/deps/parson/parson.c:697-829 | A double, of any size, is the same after it is written and read exactly when it is what strtod makes of at most six decimals. |
| JsonDoubles.ComesBack | SDK_v4_geri/5G_ICT_Open_Platform_device_sdk_4.5.6_C_TCP/project/src/deps/parson/parson.c:697-829 | A tree of doubles comes back unchanged exactly when all its numbers are of that kind. |
| JsonDoubles.ReadBackHasSixDecimals | SDK_v4_geri/5G_ICT_Open_Platform_device_sdk_4.5.6_C_TCP/project/src/deps/parson/parson.c:697-829 | A tree that has been written and read has only numbers that strtod makes of at most six decimals. |
| JsonDoubles.SecondTripIsExact | SDK_v4_geri/5G_ICT_Open_Platform_device_sdk_4.5.6_C_TCP/project/src/deps/parson/parson.c:697-829 | Writing and reading it once more changes no number. |
| JsonRoundTrip.RoundTripIsExact | SDK_v4_geri/5G_ICT_Open_Platform_device_sdk_4.5.6_C_TCP/project/src/deps/parson/parson.c:560-838 | With exact reals for numbers, it is the very same tree exactly when moreover every number is a 32-bit integer or has at most six decimals. |
| JsonRoundTrip.ParseText | SDK_v4_geri/5G_ICT_Open_Platform_device_sdk_4.5.6_C_TCP/project/src/deps/parson/parson.c:560-838 | The same for every value at every nesting, in front of whatever can follow it. |
| JsonRoundTrip.ControlByteIsLost | SDK_v4_geri/5G_ICT_Open_Platform_device_sdk_4.5.6_C_TCP/project/src/deps/parson/parson.c:519-527 | The text ["\u0001"] is parsed, but what is written for the result is not. |
| JsonRoundTrip.ParsedIsWellFormed | SDK_v4_geri/5G_ICT_Open_Platform_device_sdk_4.5.6_C_TCP/project/src/deps/parson/parson.c:560-669 | Whatever the parser returns has distinct names, at most 960 members and 122880 items in each container, and at most 19 levels below the root. |
| JsonUtf8.QuotedIsUtf8 | SDK_v4_geri/5G_ICT_Open_Platform_device_sdk_4.5.6_C_TCP/project/src/deps/parson/parson.c:548-558 | In a text in UTF-8, the string between quotes is in UTF-8 exactly when its opening character is one byte; what follows it always is. |
| JsonUtf8.ParsedIsUtf8 | SDK_v4_geri/5G_ICT_Open_Platform_device_sdk_4.5.6_C_TCP/project/src/deps/parson/parson.c:548-669 | Every name and string parsed from a text in UTF-8 is in UTF-8 exactly when every name along the text opens with a character of one byte. |
| JsonUtf8.NameFromHalfACharacter | SDK_v4_geri/5G_ICT_Open_Platform_device_sdk_4.5.6_C_TCP/project/src/deps/parson/parson.c:596-601 | An object whose name opens with the first byte of a two-byte character is parsed, with a name that is not UTF-8. |
| JsonSerializer.Serialize | SDK_v4_geri/5G_ICT_Open_Platform_device_sdk_4.5.6_C_TCP/project/src/deps/parson/parson.c:730-838 | With a buffer, exactly the text is written at its place, with one NUL behind; without one, nothing is written; both return the same size. |
| JsonSerializer.SerializeString | SDK_v4_geri/5G_ICT_Open_Platform_device_sdk_4.5.6_C_TCP/project/src/deps/parson/parson.c:840-867 | The quoted string with its escapes is written exactly at its place, or only measured, to the same size. |
| JsonSerializer.AppendIndent | SDK_v4_geri/5G_ICT_Open_Platform_device_sdk_4.5.6_C_TCP/project/src/deps/parson/parson.c:869-876 | Four spaces a level are written, or only measured. |
| JsonSerializer.SerializationSize | SDK_v4_geri/5G_ICT_Open_Platform_device_sdk_4.5.6_C_TCP/project/src/deps/parson/parson.c:1219-1223 | The size measured is that of the text and its terminator. |
| JsonSerializer.SerializeToBuffer | SDK_v4_geri/5G_ICT_Open_Platform_device_sdk_4.5.6_C_TCP/project/src/deps/parson/parson.c:1225-1290 | It succeeds exactly when the buffer is large enough for text and terminator, writes them and leaves the rest as it was; a failure changes nothing. |
| JsonSerializer.SerializeToString | SDK_v4_geri/5G_ICT_Open_Platform_device_sdk_4.5.6_C_TCP/project/src/deps/parson/parson.c:1257-1328 | The string returned is the text with its terminator, and no more. |
| JsonGrammar.TextIsWritten | SDK_v4_geri/5G_ICT_Open_Platform_device_sdk_4.5.6_C_TCP/project/src/deps/parson/parson.c:730-838 | What is serialized, compact or with line breaks and four spaces a level, is the text that a writer in literal characters builds. |
| JsonGrammar.TextIsDerived | SDK_v4_geri/5G_ICT_Open_Platform_device_sdk_4.5.6_C_TCP/project/src/deps/parson/parson.c:560-838 | What is serialized is derived by the grammar from the tree that is read of it. |
| JsonGrammar.SampleText | SDK_v4_geri/5G_ICT_Open_Platform_device_sdk_4.5.6_C_TCP/project/src/deps/parson/parson.c:730-838 | A tree of two members, one of them a nested array, is written as one literal text with a truth, a falsehood, an integer and an escape. |
| JsonGrammar.SampleIsParsed | SDK_v4_geri/5G_ICT_Open_Platform_device_sdk_4.5.6_C_TCP/project/src/deps/parson/parson.c:560-716 | That literal text is parsed as the tree. |
| JsonComments.RemoveComments | SDK_v4_geri/5G_ICT_Open_Platform_device_sdk_4.5.6_C_TCP/project/src/deps/parson/parson.c:263-292 | In place, comments outside strings become spaces; an unterminated one loses only its start token. |
| JsonComments.TokenIsFirst | SDK_v4_geri/5G_ICT_Open_Platform_device_sdk_4.5.6_C_TCP/project/src/deps/parson/parson.c:276-284 | The search for the end of a comment finds the first place where the token stands, and nothing exactly when it stands nowhere. |
| JsonComments.CommentBecomesSpaces | SDK_v4_geri/5G_ICT_Open_Platform_device_sdk_4.5.6_C_TCP/project/src/deps/parson/parson.c:263-292 | A comment behind text without one, outside strings, is replaced by as many spaces, and the scan goes on behind it. |
| JsonComments.SerializedHasNoComments | SDK_v4_geri/5G_ICT_Open_Platform_device_sdk_4.5.6_C_TCP/project/src/deps/parson/parson.c:263-292 | Stripping both kinds of comments leaves every serialization as it is. |
| JsonComments.ParseWithCommentsUndoesSerialize | SDK_v4_geri/5G_ICT_Open_Platform_device_sdk_4.5.6_C_TCP/project/src/deps/parson/parson.c:918-935 | The entry point that strips comments reads serializations back like the other one. |
| JsonComments.JsonParseStringWithComments | SDK_v4_geri/5G_ICT_Open_Platform_device_sdk_4.5.6_C_TCP/project/src/deps/parson/parson.c:918-935 | The tree of the stripped text. |
| JsonLayout.SpreadIsRead | SDK_v4_geri/5G_ICT_Open_Platform_device_sdk_4.5.6_C_TCP/project/src/deps/parson/parson.c:560-669 | Whatever white space stands between the tokens of an object or array, and whatever follows, the tree read is the one read from its serialization, under the same exact condition. |
| JsonLayout.SpreadIsCompact | SDK_v4_geri/5G_ICT_Open_Platform_device_sdk_4.5.6_C_TCP/project/src/deps/parson/parson.c:730-838 | Without any such space the text is the compact serialization. |
| JsonLayout.CommentTokens | SDK_v4_geri/5G_ICT_Open_Platform_device_sdk_4.5.6_C_TCP/project/src/deps/parson/parson.c:918-935 | Comments from /* to */ are stripped first, then those from // to the end of the line. |
| JsonLayout.CommentsAreStripped | SDK_v4_geri/5G_ICT_Open_Platform_device_sdk_4.5.6_C_TCP/project/src/deps/parson/parson.c:263-292 | With spaces and comments of both kinds between the tokens, stripping leaves the same tokens with white space between them. |
| JsonLayout.CommentedIsRead | SDK_v4_geri/5G_ICT_Open_Platform_device_sdk_4.5.6_C_TCP/project/src/deps/parson/parson.c:918-935 | So the entry point that strips comments reads the same tree, whatever comments stand between the tokens, if no line comment holds a quote or the start of a block comment. |
| JsonLayout.QuoteInLineComment | SDK_v4_geri/5G_ICT_Open_Platform_device_sdk_4.5.6_C_TCP/project/src/deps/parson/parson.c:263-292 | A quote in a line comment makes the stripping miss a block comment behind it, and the text is refused. |
| JsonContainers.JsonObject.Add | SDK_v4_geri/5G_ICT_Open_Platform_device_sdk_4.5.6_C_TCP/project/src/deps/parson/parson.c:306-327 | A member is added exactly when there is room or the object can grow and the name is new; a failure leaves the tree as it was. |
| JsonContainers.JsonObject.Position | SDK_v4_geri/5G_ICT_Open_Platform_device_sdk_4.5.6_C_TCP/project/src/deps/parson/parson.c:361-371 | The position of a name, or the count. |
| JsonContainers.JsonObject.SetValue | SDK_v4_geri/5G_ICT_Open_Platform_device_sdk_4.5.6_C_TCP/project/src/deps/parson/parson.c:1462-1479 | The value under a name is replaced, or a member added; it fails exactly when there is no room for a new one. |
| JsonContainers.JsonObject.Remove | SDK_v4_geri/5G_ICT_Open_Platform_device_sdk_4.5.6_C_TCP/project/src/deps/parson/parson.c:1572-1590 | The member goes and the last one takes its place. |
| JsonContainers.JsonObject.DotSetValue | SDK_v4_geri/5G_ICT_Open_Platform_device_sdk_4.5.6_C_TCP/project/src/deps/parson/parson.c:1497-1526 | It succeeds exactly when the objects on the way are objects or can be added; the tree is then the old one with the path set, and otherwise the old one. Everything stays unshared. |
| JsonContainers.JsonObject.DotGetValue | SDK_v4_geri/5G_ICT_Open_Platform_device_sdk_4.5.6_C_TCP/project/src/deps/parson/parson.c:966-972 | The value under the path, or nothing. |
| JsonContainers.JsonArray.Append | SDK_v4_geri/5G_ICT_Open_Platform_device_sdk_4.5.6_C_TCP/project/src/deps/parson/parson.c:394-405 | An item is added exactly when there is room or the array can grow. |
| JsonContainers.JsonArray.ReplaceValue | SDK_v4_geri/5G_ICT_Open_Platform_device_sdk_4.5.6_C_TCP/project/src/deps/parson/parson.c:1348-1355 | The item at an index is replaced. |
| JsonContainers.JsonArray.RemoveValue | SDK_v4_geri/5G_ICT_Open_Platform_device_sdk_4.5.6_C_TCP/project/src/deps/parson/parson.c:1335-1346 | The array stays whole exactly when the last item is removed; any other is replaced by a null pointer and the last item is lost. |
| JsonContainers.DeepCopy | SDK_v4_geri/5G_ICT_Open_Platform_device_sdk_4.5.6_C_TCP/project/src/deps/parson/parson.c:1147-1217 | A copy never fails, has the same tree and shares no cell with what was there. |
| JsonContainers.RoomBelowLimit | SDK_v4_geri/5G_ICT_Open_Platform_device_sdk_4.5.6_C_TCP/project/src/deps/parson/parson.c:311-317 | A container that grew from nothing takes entries up to 960 or 122880. |
| JsonContainers.HeldIsWellFormed | SDK_v4_geri/5G_ICT_Open_Platform_device_sdk_4.5.6_C_TCP/project/src/deps/parson/parson.c:306-405 | Whatever sequence of operations made it, a tree held by the containers has distinct names and keeps the limits. |
| JsonPaths.GetAfterPut | SDK_v4_geri/5G_ICT_Open_Platform_device_sdk_4.5.6_C_TCP/project/src/deps/parson/parson.c:966-972 | What was set under a path is what is got there, exactly when no member on the way is other than an object; otherwise nothing is. |
| JsonPaths.GetThroughPeriod | SDK_v4_geri/5G_ICT_Open_Platform_device_sdk_4.5.6_C_TCP/project/src/deps/parson/parson.c:966-972 | The value under a path with a period behind the first name is that under the rest of the path in the object under that name. |
| JsonPaths.PutThroughPeriod | SDK_v4_geri/5G_ICT_Open_Platform_device_sdk_4.5.6_C_TCP/project/src/deps/parson/parson.c:1497-1526 | Setting it sets the rest of the path in the object under that name, in a new one if there is none, and changes nothing where there is something else. |
| JsonPaths.SamplePath | SDK_v4_geri/5G_ICT_Open_Platform_device_sdk_4.5.6_C_TCP/project/src/deps/parson/parson.c:966-1526 | The path gw.id is the member id of the object under gw. |
| JsonContainers.JsonObject.CanDotSetIsPassable | SDK_v4_geri/5G_ICT_Open_Platform_device_sdk_4.5.6_C_TCP/project/src/deps/parson/parson.c:1497-1526 | Where setting succeeds, no member on the way is other than an object. |
| JsonContainers.SetThenGet | SDK_v4_geri/5G_ICT_Open_Platform_device_sdk_4.5.6_C_TCP/project/src/deps/parson/parson.c:966-1526 | After a successful set the path leads to the value, and a path that parts from it leads where it led before; after a failure every path does. |
| JsonPaths.PutKeepsOthers | SDK_v4_geri/5G_ICT_Open_Platform_device_sdk_4.5.6_C_TCP/project/src/deps/parson/parson.c:1497-1526 | A path that parts from the one set at some component gets what it got before. |
| JsonPaths.GetBeyondPut | SDK_v4_geri/5G_ICT_Open_Platform_device_sdk_4.5.6_C_TCP/project/src/deps/parson/parson.c:1497-1526 | A longer path leads into the value set, exactly when the way was open. |
| JsonPaths.PutKeepsDistinct | SDK_v4_geri/5G_ICT_Open_Platform_device_sdk_4.5.6_C_TCP/project/src/deps/parson/parson.c:1497-1526 | Names stay distinct in every object of the tree. |
| JsonPaths.SetMemberLaws | SDK_v4_geri/5G_ICT_Open_Platform_device_sdk_4.5.6_C_TCP/project/src/deps/parson/parson.c:1462-1479 | Setting changes the value of one name only. |
| JsonPaths.RemoveMemberLaws | SDK_v4_geri/5G_ICT_Open_Platform_device_sdk_4.5.6_C_TCP/project/src/deps/parson/parson.c:1572-1590 | Removing takes away one name and moves the last member; every other lookup is unchanged. |
| JsonEquality.EqualSymmetric | SDK_v4_geri/5G_ICT_Open_Platform_device_sdk_4.5.6_C_TCP/project/src/deps/parson/parson.c:1677-1736 | The one-way comparison is symmetric on trees with distinct names. |
| JsonEquality.EqualReflexive | SDK_v4_geri/5G_ICT_Open_Platform_device_sdk_4.5.6_C_TCP/project/src/deps/parson/parson.c:1677-1736 | Every tree of finite numbers with distinct names, so every deep copy of one, is equal to itself. |
| JsonEquality.EqualIsCorrespondence | SDK_v4_geri/5G_ICT_Open_Platform_device_sdk_4.5.6_C_TCP/project/src/deps/parson/parson.c:1677-1736 | For trees with distinct names: objects taken as finite maps and arrays as sequences, two trees are equal exactly when they are the same but for the numbers, and those in corresponding places are close. |
| JsonEquality.EqualIsSame | SDK_v4_geri/5G_ICT_Open_Platform_device_sdk_4.5.6_C_TCP/project/src/deps/parson/parson.c:1677-1736 | With numbers from a set in which close ones are the same, two trees are equal exactly when these values of them are. |
| JsonEquality.EqualToAThird | SDK_v4_geri/5G_ICT_Open_Platform_device_sdk_4.5.6_C_TCP/project/src/deps/parson/parson.c:1677-1736 | For trees of doubles: some third tree of doubles is equal to both exactly when they have the same shape and, wherever they have numbers, the largest double within the tolerance above the smaller one is close to the larger. |
| JsonEquality.TransitivityFails | SDK_v4_geri/5G_ICT_Open_Platform_device_sdk_4.5.6_C_TCP/project/src/deps/parson/parson.c:1677-1736 | For trees of doubles: transitivity fails between two of them exactly when they are related like that and two numbers in the same place are not close. |
| JsonEquality.EqualTransitive | SDK_v4_geri/5G_ICT_Open_Platform_device_sdk_4.5.6_C_TCP/project/src/deps/parson/parson.c:1677-1736 | Equality of trees of doubles is transitive as soon as the numbers of the first two come from a set in which close ones are the same. |
| JsonEquality.FiveDecimalsTransitive | SDK_v4_geri/5G_ICT_Open_Platform_device_sdk_4.5.6_C_TCP/project/src/deps/parson/parson.c:1677-1736 | The numbers up to 2^35 read from at most five decimals make such a set, whatever the correctly rounding strtod. |
| JsonEquality.EqualNotTransitive | SDK_v4_geri/5G_ICT_Open_Platform_device_sdk_4.5.6_C_TCP/project/src/deps/parson/parson.c:1728-1728 | Six decimals do not: of the doubles nearest to 0.000005, 0.000006 and 0.000007, each is equal to the next, but the first not to the last. |
| JsonEquality.ReorderedIsEqual | SDK_v4_geri/5G_ICT_Open_Platform_device_sdk_4.5.6_C_TCP/project/src/deps/parson/parson.c:1705-1720 | The order of members does not matter. |
| Doubles.CloseIsRounded | SDK_v4_geri/5G_ICT_Open_Platform_device_sdk_4.5.6_C_TCP/project/src/deps/parson/parson.c:1728-1728 | The test of the code on two doubles, with their difference rounded to the nearest double, ties to even, holds exactly when the exact difference is at most halfway between the constant and the double below it. |
| Doubles.EpsilonIsNearest | SDK_v4_geri/5G_ICT_Open_Platform_device_sdk_4.5.6_C_TCP/project/src/deps/parson/parson.c:1728-1728 | The constant of the comparison is the double nearest to 0.000001. |
| Doubles.DoubleIsBinary64 | SDK_v4_geri/5G_ICT_Open_Platform_device_sdk_4.5.6_C_TCP/project/src/deps/parson/parson.c:1727-1728 | The doubles are the finite numbers of the format binary64 of IEEE 754: less than 2^53 times a power of two from 2^-1074 to 2^971. |
| Doubles.ThirdDouble | SDK_v4_geri/5G_ICT_Open_Platform_device_sdk_4.5.6_C_TCP/project/src/deps/parson/parson.c:1728-1728 | For two doubles: some double is close to both exactly when the largest one close to the smaller is close to the larger. |
| JsonWrap.PlainNames | SDK_v4_geri/5G_ICT_Open_Platform_device_sdk_4.5.6_C_TCP/project/src/packet/body/json_wrap.c:26-53 | For names without periods the dotted functions are plain lookup and assignment, on an object grown from nothing; one that is full and has not the name stays as it is. |
| JsonWrap.AppendLaws | SDK_v4_geri/5G_ICT_Open_Platform_device_sdk_4.5.6_C_TCP/project/src/packet/body/json_wrap.c:213-221 | On an object grown from nothing: where the name is there or there is room for it, appending creates the array if there is none, adds one item unless it is full, and changes no other name. |
| JsonWrap.NotTaken | SDK_v4_geri/5G_ICT_Open_Platform_device_sdk_4.5.6_C_TCP/project/src/packet/body/json_wrap.c:213-221 | On an object grown from nothing: where it is not and there is none, appending changes nothing. |
| JsonWrap.WithItemLaws | SDK_v4_geri/5G_ICT_Open_Platform_device_sdk_4.5.6_C_TCP/project/src/packet/body/json_wrap.c:347-354 | A change inside an item changes no other item and no other name. |
| Body525.MadeItem | SDK_v4_geri/5G_ICT_Open_Platform_device_sdk_4.5.6_C_TCP/project/src/packet/body/body_util.c:32-39 | An item is found in the object built for it under its tag and value names, and what was not valid UTF-8 is not. |
| Body525.IMPacketBody.AppendDevCnvyData | SDK_v4_geri/5G_ICT_Open_Platform_device_sdk_4.5.6_C_TCP/project/src/packet/body/body_525_rep.c:67-74 | A device more at the end; the cursors stand at it, in front of its rows. |
| Body525.IMPacketBody.AppendCnvyRow | SDK_v4_geri/5G_ICT_Open_Platform_device_sdk_4.5.6_C_TCP/project/src/packet/body/body_525_rep.c:83-90 | A row more at the end of the current device, and no other change. |
| Body525.IMPacketBody.SetNumberData | SDK_v4_geri/5G_ICT_Open_Platform_device_sdk_4.5.6_C_TCP/project/src/packet/body/body_525_rep.c:108-115 | An item more at the end of the numbers of the current row, and no other change; without a row, none at all. |
| Body525.IMPacketBody.SetStringData | SDK_v4_geri/5G_ICT_Open_Platform_device_sdk_4.5.6_C_TCP/project/src/packet/body/body_525_rep.c:124-131 | An item more at the end of the strings of the current row; a text that is not UTF-8 leaves an item without a value. |
| Body525.IMPacketBody.SetIntData | SDK_v4_geri/5G_ICT_Open_Platform_device_sdk_4.5.6_C_TCP/project/src/packet/body/body_525_rep.c:136-143 | An item more at the end of the integers of the current row, and no other change. |
| Body525.IMPacketBody.SetRealnumData | SDK_v4_geri/5G_ICT_Open_Platform_device_sdk_4.5.6_C_TCP/project/src/packet/body/body_525_rep.c:145-152 | An item more at the end of the real numbers of the current row, and no other change. |
| Body525.IMPacketBody.GetNumdataWithIndex | SDK_v4_geri/5G_ICT_Open_Platform_device_sdk_4.5.6_C_TCP/project/src/packet/body/body_525_req.c:73-99 | In any tree, received or written: the item of the current row with its device, or -1 exactly when there is none. |
| Body525.IMPacketBody.GetStrdataWithIndex | SDK_v4_geri/5G_ICT_Open_Platform_device_sdk_4.5.6_C_TCP/project/src/packet/body/body_525_req.c:104-130 | The string item of the current row with its device, or -1 exactly when there is none. |
| Body525.IMPacketBody.GetIntegerdataWithIndex | SDK_v4_geri/5G_ICT_Open_Platform_device_sdk_4.5.6_C_TCP/project/src/packet/body/body_525_req.c:159-185 | The integer item of the current row with its device, or -1 exactly when there is none; its number cut towards zero if that is a C int, and no value where the conversion of C is undefined. |
| Body525.ConvertedTowardsZero | SDK_v4_geri/5G_ICT_Open_Platform_device_sdk_4.5.6_C_TCP/project/src/packet/body/body_525_req.c:182-182 | A number is got as the whole number nearest to it between zero and it, exactly if that has 32 bits. |
| Body525.IMPacketBody.GetFloatdataWithIndex | SDK_v4_geri/5G_ICT_Open_Platform_device_sdk_4.5.6_C_TCP/project/src/packet/body/body_525_req.c:188-214 | The real number item of the current row with its device, or -1 exactly when there is none. |
| Body525.IMPacketBody.GetGroupTagCode | SDK_v4_geri/5G_ICT_Open_Platform_device_sdk_4.5.6_C_TCP/project/src/packet/body/body_525_req.c:137-156 | The group of the current row, or -1 exactly when there is none. |
| Body525.ReportIs | SDK_v4_geri/5G_ICT_Open_Platform_device_sdk_4.5.6_C_TCP/project/src/packet/body/body_525_req.c:73-214 | The readers find in a written report exactly the devices, rows and items that were written, in order. |
| Body525Schema.RowIsAt | SDK_v4_geri/5G_ICT_Open_Platform_device_sdk_4.5.6_C_TCP/project/src/packet/body/body_525_req.c:73-214 | In any tree, the four kinds of items of a row are read under snsnDataInfoVOs, strDataInfoVOs, intDataInfoVOs and rlNumDataInfoVOs, each with its tag under dataTypeCd or, for strings, snsnTagCd and its value under snsnVal, strVal, intVal or rlNumVal; its time under occDt and its group under groupTagCd. |
| Body525Schema.DeviceIsAt | SDK_v4_geri/5G_ICT_Open_Platform_device_sdk_4.5.6_C_TCP/project/src/packet/body/body_525_req.c:73-214 | A device is read with its name under devId and its rows under cnvyRowVOs. |
| Body525Schema.DevicesAreAt | SDK_v4_geri/5G_ICT_Open_Platform_device_sdk_4.5.6_C_TCP/project/src/packet/body/body_525_req.c:73-214 | The devices are read under devCnvyDataVOs. |
| Body525Schema.ReportIsOf | SDK_v4_geri/5G_ICT_Open_Platform_device_sdk_4.5.6_C_TCP/project/src/packet/body/body_525_rep.c:67-152 | A report as the writers make it has exactly these members, in the devices, rows and items that were written, and its gateway under extrSysId. |
| Body525Schema.BodyIsOf | SDK_v4_geri/5G_ICT_Open_Platform_device_sdk_4.5.6_C_TCP/project/src/packet/body/body_525_rep.c:53-152 | So has the tree of every packet body at any time of its use. |
| Body525Walk.Walk | SDK_v4_geri/5G_ICT_Open_Platform_device_sdk_4.5.6_C_TCP/project/src/packet/body/body_525_req.c:51-214 | For any tree and each kind, walking the cursors and the getter of the kind reads every item by device and row, in order, up to the first device without a row. |
| Body525Walk.Reachable | SDK_v4_geri/5G_ICT_Open_Platform_device_sdk_4.5.6_C_TCP/project/src/packet/body/body_525_req.c:60-71 | The walk gets to the end exactly when every device has a row. |
| Body525Walk.SetIsGot | SDK_v4_geri/5G_ICT_Open_Platform_device_sdk_4.5.6_C_TCP/project/src/packet/body/body_525_req.c:94-213 | The getter of a kind returns what its setter was given; for integers and texts also after the report has been sent as text. |
| Body525Walk.ReportIsRead | SDK_v4_geri/5G_ICT_Open_Platform_device_sdk_4.5.6_C_TCP/project/src/packet/body/body_525_req.c:73-214 | For any tree, the readers find in what is read back of its text the same devices, rows and items, with the numbers as strtod rounds their six decimals. |
| Body525Walk.ReportIsClean | SDK_v4_geri/5G_ICT_Open_Platform_device_sdk_4.5.6_C_TCP/project/src/packet/body/body_525_rep.c:67-152 | A report as the writers make it has only clean strings exactly when every stored device, row, item and gateway string is clean. |
| Body525Walk.SendThenWalk | SDK_v4_geri/5G_ICT_Open_Platform_device_sdk_4.5.6_C_TCP/project/src/packet/body/body_525_rep.c:67-152 | A report that is written, serialized, parsed and walked gives every item, its number as strtod rounds its six decimals, exactly when no string stored in its devices or for its gateway has a control byte without a short escape; otherwise nothing arrives. |
| Body525Walk.ReportSurvivesAsText | SDK_v4_geri/5G_ICT_Open_Platform_device_sdk_4.5.6_C_TCP/project/src/packet/body/body_525_rep.c:67-152 | A written report, serialized and parsed, reports the same, numbers as strtod rounds their six decimals, exactly when its strings are clean; for doubles and a correctly rounding strtod it is then the same tree exactly when every number is what strtod makes of at most six decimals. |

## Left out

- Sockets, threads, TLS, HTTP, serial port, logging and samples: plumbing, or calls into code that is not part of this model. A socket read is a prefix of an input sequence.
- The AES tables and rounds (aes_core.c, `aes_encrypt`, `aes_decrypt`): the block function is abstract; ARIA carries a full block cipher.
- The ECB functions of both ciphers and `aes_enc_str`/`aes_dec_str`: the same padding without chaining would only add easier members.
- File helpers of the ciphers and of the JSON library, and the timing of packets.
- Failing allocations: every allocation succeeds; freeing has no effect in the model, so use after free is not captured. Contents passed as `const` buffers are values.
- The C widths of lengths: lengths are unbounded, except where the code depends on them (the 32-bit lengths of SHA-256, the 64-bit bit counter, the C ints of packet sizes).
- Heap.c: its tree is not among the modelled files.
- `json_validate`: its array branch compares a status with zero and does not do what its header documents.
- `json_object_dotremove`: it only adds a walk in front of `Remove`.
- LinkedLists.List.Unlink: does not model the field `size`, because no removal ever decreases it; only `count` is an invariant.
- JsonParser.ParseValueAt: does not read the spellings of infinities and not-a-numbers behind a minus sign, because numbers are exact reals; `strtod` takes them.
- JsonNumbers.NumberReadBack: gives the exact number that the text spells; `strtod` rounds it, if it is beyond 2^53.
- JsonNumbers.FixedReadBack: gives the exact number of six decimals; `JsonDoubles` puts the rounding of `strtod` on it.
- JsonRoundTrip.RoundTripIsExact: says of exact reals when a tree comes back; of doubles, `JsonDoubles.ComesBack` does.
- JsonRoundTrip.ParseUndoesSerialize: numbers are exact reals on both sides; what `strtod` makes of them is added in `JsonLibrary`.
- JsonEquality.EqualReflexive: leaves out infinities, because numbers are reals; the number 1e999 is parsed as one, and the code finds it unequal to itself.
- Doubles.CloseIsRounded: takes C doubles for those of IEEE 754 without wider intermediate results; differences too large for a double are far from the constant either way. Negative zero is zero.
- JsonLayout.CommentedIsRead: leaves out line comments with quotes or with the start of a block comment; whether they do harm depends on the comments behind them (`QuoteInLineComment`).
- JsonSerializer.Serialize: takes the `%f` branch for numbers outside the C int range, where the cast in the test for integers is undefined in C.
- Body525.IMPacketBody.GetIntegerdataWithIndex: does not say what the getter returns for a received number outside the C int range, because the conversion is undefined.
- JsonWrap.PlainNames: takes room for a new name for granted below 960 members, as in an object grown from nothing; a parsed object has its capacity trimmed to its count, so that it takes new names only as long as doubling that keeps below 960, and from 481 members on none.
- JsonWrap.AppendLaws: the same; the packet bodies only append to objects grown from nothing.
- JsonWrap.NotTaken: the same.
- AesCbc.AesCbcContext.DecryptCbcPkcs5: requires an output as long as the ciphertext, because the code writes that much whatever length it is told; what happens to memory behind a shorter output is not modelled.
- JsonNumbers.ParseNumber: does not model overflow to infinity or the spellings of infinities and not-a-numbers behind a minus sign, because numbers are exact reals.
- JsonParser.ParseNumberAt: the lexing done by `strtod` is the function `Signed`, since the C library is not part of the repository.
- Equality is modelled on trees, not on cells: the code only reads.
- MqttPacket.Receive: does not look into packets other than PUBLISH, and takes a socket for a sequence of bytes.
- Body525: the tree under a packet body is a value that each call replaces; that the code changes it in place through pointers into it is not captured. The time of a row is a parameter where the code would ask the clock. The writers are modelled on trees that they made themselves, the readers on any tree; a null root is shown as the value null. Booleans are left out: the reader takes them for numbers.
- MqttPacket.ParsePublish: where the code reads a message id without a look at the end of the data and none is left, the model has the outcome `ReadsPastEnd` in place of whatever memory holds.
- The delivery functions of simple_api.c: their loops over array members reuse the outer index, so that there is no delivery property to state.
