# Verified models of the network code

This project models the parts of the repository that compute something hard to see by
reading, and proves them correct for all inputs, all runs or all reachable states. Each
module models one component; methods and classes keep the form of the original code (arrays
filled in place, fields updated byte by byte, loops) and are proved against functions about
which the properties are then proved. `Octets` holds what several modules share.

| module | component | main result |
|---|---|---|
| `Crc32`, `Crc32Vectors` | table-driven CRC-32 of the bundled zlib | all fast forms equal the bit-serial CRC |
| `Crc32Combine` | `crc32_combine` | combining two CRCs gives the CRC of the concatenation |
| `Adler32` | Adler-32 of the bundled zlib | one reduction per 5552 bytes is enough, nothing overflows; combining is concatenation |
| `Sha1`, `Sha1Vectors` | SHA-1 | the digest of RFC 3174, however the input is split |
| `Frames`, `FramePayload`, `FrameHeaders`, `FrameRoundTrip`, `FrameExamples`, `FrameReader`, `FrameWriter` | WebSocket framing and truncated sends | frames round-trip in both directions; no byte is lost by short writes |
| `RxFlow`, `RxConnection` | receive flow control | no byte is lost or repeated by pauses |
| `EndToEnd` | client writes to server callback | in-order delivery over every schedule |
| `Lexer` | `minilex` and `lextable_decode` | the compiled table recognises exactly the word list |
| `Huffman`, `HuffmanBits` | `minihuf` and the HPACK decoder | the compiled table inverts the code |
| `UriPath`, `UriMeaning`, `UriRequests`, `UriBounds`, `UriParser` | request-URI parsing | stored paths never contain `//`, `/./` or `/..` |
| `PollTable` | the table of polled sockets | slots, lookup and positions stay inverse |
| `Resolve` | `WorkingSet.resolve` | the least closed set of requirements, or a justified error |
| `Base64` | Base64 | the encoder is RFC 4648; the decoder inverts it for one residue only |
| `KeepAlive` | the Java keep-alive pair | exact timing condition for never closing |

`send`, `recv`, `malloc`, random keys, user callbacks, clocks and the environment's choice of
a distribution are parameters or steps with any result. `dafny verify dfyconfig.toml` checks
the whole project.

Places where the code does less than its comments or names say, each with its exact condition:

- `lws_b64_decode_string` gives back what was encoded only for the empty string and lengths
  two more than a multiple of three (`Base64.DecodeString`).
- A receive disable from outside the connection's own callbacks can lose a read
  (`RxFlow.OutsideDisableLoses`). Over every run nothing is lost if and only if no read
  happens while a buffer waits (`RxFlow.AnyRunExact`).
- An enable from outside the connection's own callbacks does not switch POLLIN back on by
  itself (`RxFlow.EnableStrands`, and `RxFlow.ActSettled` for the exact condition).
- A '?' in a request writes the terminator of the path without looking at the room left, so a
  path that just fills the header store is terminated one byte past it
  (`UriBounds.QueryOverruns`); from then on the test for a full store no longer tells
  (`UriBounds.OverrunStores`). The store stays within its bounds if and only if no '?' finds
  it full (`UriBounds.RunBounded`), as for every request no longer than the store
  (`UriBounds.ShortRequest`).
- Adding up start skew, watchdog lateness, send time, transit time and polling lag to at most
  one second does not keep the Java connection open: the time inside `sendObject` can count
  twice, because a message may be received before `lastSendTime` is set. The exact condition
  is `KeepAlive.Safe`; `KeepAlive.NeverCloses` and `KeepAlive.MayClose` are its two directions,
  and `KeepAlive.SumIsNotEnough` is an input.
- The comment at `c/websocket/git/libwebsockets/lib/parsers.c:217` says a URI is made to start
  with a slash; a space before any path byte is skipped at lines 204-207 first, so the code there
  only ever affects the arguments. The model follows the code.
- The comment at `c/websocket/git/libwebsockets/lib/parsers.c:326-330` says that a slash was
  issued last after backing up; it was taken off, so "/a/b/c/../d" is stored as "/a/bd"
  (`UriRequests.BehindParent`).
- `resolve` lists an already active distribution once per requirement on it, not once
  (`Resolve.AllActive`).

## Model

| member | source | states |
|---|---|---|
| `Crc32.BitsLinear` | c/websocket/git/libwebsockets/win32port/zlib/crc32.c:129-134 | shifting zero bits through the register is linear over exclusive-or, for any number of bits |
| `Crc32.SplitByte` | c/websocket/git/libwebsockets/win32port/zlib/crc32.c:142-144 | k bytes of zeros act on a word as on its lowest byte, exclusive-or the shifted rest: the step from one table to the next |
| `Crc32.WordIsFourBytes` | c/websocket/git/libwebsockets/win32port/zlib/crc32.c:258-260 | feeding a little-endian word at once is feeding its four bytes one by one |
| `Crc32.ByteLookup` | c/websocket/git/libwebsockets/win32port/zlib/crc32.c:217-217 | a byte step of the bit-serial register is one look-up in the first table and a shift |
| `Crc32.WordLookup` | c/websocket/git/libwebsockets/win32port/zlib/crc32.c:258-260 | 32 zero bits through a register are four look-ups, one in each of the first four tables |
| `Crc32.BigWordLookup` | c/websocket/git/libwebsockets/win32port/zlib/crc32.c:298-300 | the same on byte-reversed registers with the last four tables |
| `Crc32.Tables.MakeCrcTable` | c/websocket/git/libwebsockets/win32port/zlib/crc32.c:108-151 | every entry of all eight tables is the register after the entry's index and 0 to 3 zero bytes, byte-reversed in the last four tables |
| `Crc32.Tables.FillColumn` | c/websocket/git/libwebsockets/win32port/zlib/crc32.c:139-147 | one column of the tables built from the first row, all other columns untouched |
| `Crc32.Tables.Do1` | c/websocket/git/libwebsockets/win32port/zlib/crc32.c:217-217 | one bit-serial byte step, by look-up |
| `Crc32.Tables.DoLit4` | c/websocket/git/libwebsockets/win32port/zlib/crc32.c:258-260 | four bit-serial byte steps, by four look-ups |
| `Crc32.Tables.DoBig1` | c/websocket/git/libwebsockets/win32port/zlib/crc32.c:315-315 | one byte step on the byte-reversed register |
| `Crc32.Tables.DoBig4` | c/websocket/git/libwebsockets/win32port/zlib/crc32.c:298-300 | four byte steps on the byte-reversed register |
| `Crc32.Tables.Bytewise` | c/websocket/git/libwebsockets/win32port/zlib/crc32.c:244-252 | for every buffer, the bit-serial CRC of section 8 of RFC 1952 |
| `Crc32.Tables.Little` | c/websocket/git/libwebsockets/win32port/zlib/crc32.c:264-295 | for every buffer, length and alignment, the bit-serial CRC |
| `Crc32.Tables.Big` | c/websocket/git/libwebsockets/win32port/zlib/crc32.c:304-337 | for every buffer, length and alignment, the bit-serial CRC, on a big-endian machine |
| `Crc32.Tables.Crc32` | c/websocket/git/libwebsockets/win32port/zlib/crc32.c:221-253 | 0 for a null buffer, else the bit-serial CRC whatever the byte order; tables made on first use |
| `Crc32.UpdateConcat` | c/websocket/git/libwebsockets/win32port/zlib/crc32.c:221-253 | the CRC of a concatenation is the CRC of its second part started from the CRC of its first |
| `Crc32Vectors.Terms` | c/websocket/git/libwebsockets/win32port/zlib/crc32.c:113-126 | the polynomial's terms are those listed, the lowest exponent in the highest bit |
| `Crc32Vectors.CheckValue` | c/websocket/git/libwebsockets/win32port/zlib/crc32.c:244-252 | the reference gives the customary check value cbf43926 for "123456789" |
| `Crc32Combine.TimesLinear` | c/websocket/git/libwebsockets/win32port/zlib/crc32.c:344-358 | the matrix product is linear over exclusive-or |
| `Crc32Combine.SquareComposes` | c/websocket/git/libwebsockets/win32port/zlib/crc32.c:361-369 | multiplying by a squared matrix is multiplying twice |
| `Crc32Combine.SquareDoubles` | c/websocket/git/libwebsockets/win32port/zlib/crc32.c:394-404 | squaring the operator for k zero bits gives the operator for 2k |
| `Crc32Combine.OneZeroBitStep` | c/websocket/git/libwebsockets/win32port/zlib/crc32.c:386-392 | the starting matrix acts as one zero bit through the register |
| `Crc32Combine.DigitStep` | c/websocket/git/libwebsockets/win32port/zlib/crc32.c:402-420 | one binary digit of the length: what the loop applies now and what is left to apply |
| `Crc32Combine.MatrixTimes` | c/websocket/git/libwebsockets/win32port/zlib/crc32.c:344-358 | the loop over the bits of the vector computes the matrix product, never reading past row 31 |
| `Crc32Combine.MatrixSquare` | c/websocket/git/libwebsockets/win32port/zlib/crc32.c:361-369 | every row is the matrix applied to that row |
| `Crc32Combine.OneBitOperator` | c/websocket/git/libwebsockets/win32port/zlib/crc32.c:386-392 | the rows stored form the operator for one zero bit |
| `Crc32Combine.RegisterAffine` | c/websocket/git/libwebsockets/win32port/zlib/crc32.c:400-406 | changing the starting register by y changes the result by y moved past that many zero bytes |
| `Crc32Combine.CombineIsConcatenation` | c/websocket/git/libwebsockets/win32port/zlib/crc32.c:372-425 | for all byte strings, the CRC of a + b is the CRC of a moved past |b| zero bytes, exclusive-or the CRC of b |
| `Crc32Combine.Combine` | c/websocket/git/libwebsockets/win32port/zlib/crc32.c:372-425 | for all byte strings a and b, from their CRCs and the length of b it returns the CRC of a + b; a length not above 0 returns the first CRC |
| `Adler32.RunClosed` | c/websocket/git/libwebsockets/win32port/zlib/adler32.c:99-128 | reducing after every byte and reducing once at the end give the same two residues, for every string and start |
| `Adler32.BlockBound` | c/websocket/git/libwebsockets/win32port/zlib/adler32.c:14-16 | with starts below 65521 and at most 5552 bytes neither sum reaches 2^32 |
| `Adler32.Do1` | c/websocket/git/libwebsockets/win32port/zlib/adler32.c:18-18 | adds a byte to both unreduced sums, within 32 bits |
| `Adler32.Block` | c/websocket/git/libwebsockets/win32port/zlib/adler32.c:103-106 | sixteen at a time and then singly, the two unreduced sums of a block, every intermediate value within 32 bits |
| `Adler32.BlockReduced` | c/websocket/git/libwebsockets/win32port/zlib/adler32.c:107-108 | one reduction after the block gives what a reduction per byte gives |
| `Adler32.Single` | c/websocket/git/libwebsockets/win32port/zlib/adler32.c:73-81 | the one-byte path equals the per-byte definition |
| `Adler32.Short` | c/websocket/git/libwebsockets/win32port/zlib/adler32.c:88-97 | the path below 16 bytes equals the per-byte definition, one conditional subtraction being enough for the first sum |
| `Adler32.Reduce` | c/websocket/git/libwebsockets/win32port/zlib/adler32.c:100-109 | a block and its reduction continue the per-byte checksum |
| `Adler32.Long` | c/websocket/git/libwebsockets/win32port/zlib/adler32.c:99-124 | blocks of 5552 bytes and a remainder equal the per-byte definition for every length |
| `Adler32.Checksum` | c/websocket/git/libwebsockets/win32port/zlib/adler32.c:60-128 | 1 for a null buffer, else the checksum of section 8.2 of RFC 1950 continued from any reduced start |
| `Adler32.ConcatSums` | c/websocket/git/libwebsockets/win32port/zlib/adler32.c:140-151 | the two sums of a concatenation from those of its parts and the length of the second, for all strings |
| `Adler32.CombineHalves` | c/websocket/git/libwebsockets/win32port/zlib/adler32.c:141-151 | the products and sums stay within 32 bits and the conditional subtractions leave exactly the residues, both below 65521 |
| `Adler32.Combine` | c/websocket/git/libwebsockets/win32port/zlib/adler32.c:131-152 | for all byte strings a and b, from their checksums and the length of b it returns the checksum of a + b |
| `Sha1.WindowReads` | c/websocket/git/libwebsockets/lib/sha-1.c:151-154 | before round t the four words read from the 16-word array are those of rounds t-3, t-8, t-14 and t-16 |
| `Sha1.WindowNext` | c/websocket/git/libwebsockets/lib/sha-1.c:151-154 | storing the new word keeps the array equal to the 16 newest words of the 80-word schedule |
| `Sha1.Phase` | c/websocket/git/libwebsockets/lib/sha-1.c:150-179 | rounds with the schedule updated in place equal the rounds of section 6.1 of RFC 3174 over the 80-word schedule |
| `Sha1.Context.LoadWords` | c/websocket/git/libwebsockets/lib/sha-1.c:110-146 | the 16 words of a block, most significant byte first |
| `Sha1.Context.Step` | c/websocket/git/libwebsockets/lib/sha-1.c:104-188 | the chaining value becomes the RFC's compression of the block, and the block is cleared |
| `Sha1.HashBlock` | c/websocket/git/libwebsockets/lib/sha-1.c:181-185 | hashing one more block is one more compression of the hash so far |
| `Sha1.Context.Absorb` | c/websocket/git/libwebsockets/lib/sha-1.c:252-257 | the context stays a function of all bytes fed: hash of the whole blocks, and the rest in the buffer |
| `Sha1.Context.Loop` | c/websocket/git/libwebsockets/lib/sha-1.c:237-260 | any input of any length extends the bytes fed by exactly itself and the bit count, modulo 2^64, by its length |
| `Sha1.SplitsAgree` | c/websocket/git/libwebsockets/lib/sha-1.c:237-260 | any two ways of splitting the same input over calls leave the same context, bit counter included, and it is a function of the input alone |
| `Sha1.Feed` | c/websocket/git/libwebsockets/lib/sha-1.c:237-260 | after any number of calls with any pieces the bytes fed are their concatenation and the bit count is its length in bits, modulo 2^64 |
| `Sha1.DigestOfPieces` | c/websocket/git/libwebsockets/lib/sha-1.c:237-283 | however a message is split over calls, the digest is the one of RFC 3174 |
| `Sha1.Context.Pad` | c/websocket/git/libwebsockets/lib/sha-1.c:203-235 | at every residue modulo 64 exactly the padding of section 4 of RFC 3174 is fed |
| `Sha1.Context.PutLength` | c/websocket/git/libwebsockets/lib/sha-1.c:224-234 | the eight bytes of the bit count, highest first |
| `Sha1.Context.Result` | c/websocket/git/libwebsockets/lib/sha-1.c:262-283 | the digest of RFC 3174 of the message fed |
| `Sha1.DigestOf` | c/websocket/git/libwebsockets/lib/sha-1.c:289-299 | for every message whose bit length fits 64 bits, the digest of RFC 3174 |
| `Sha1Vectors.ChooseLaw` | c/websocket/git/libwebsockets/lib/sha-1.c:73-73 | the first round function takes a bit of c where b is set and a bit of d elsewhere |
| `Sha1Vectors.ParityLaw` | c/websocket/git/libwebsockets/lib/sha-1.c:74-76 | the second and fourth are the parity of the three bits |
| `Sha1Vectors.MajorityLaw` | c/websocket/git/libwebsockets/lib/sha-1.c:75-75 | the third agrees with any two equal arguments |
| `Sha1Vectors.MajorityTurns` | c/websocket/git/libwebsockets/lib/sha-1.c:75-75 | the third does not depend on the order of its arguments |
| `Sha1Vectors.RoundFunctions` | c/websocket/git/libwebsockets/lib/sha-1.c:150-179 | which function and which constant each round uses |
| `Sha1Vectors.Roots` | c/websocket/git/libwebsockets/lib/sha-1.c:68-71 | the four constants are the integral parts of 2^30 times the square roots of 2, 3, 5 and 10 |
| `Sha1Vectors.Rotations` | c/websocket/git/libwebsockets/lib/sha-1.c:78-78 | the three rotations are rotations to the left |
| `Sha1Vectors.LongLength` | c/websocket/git/libwebsockets/lib/sha-1.c:224-234 | a bit count that uses all eight bytes is written highest byte first |
| `Sha1Vectors.AbcDigest` | c/websocket/git/libwebsockets/lib/sha-1.c:289-299 | the reference gives the digest of "abc" of section 7.3 of RFC 3174, followed through all eighty rounds |
| `Frames.RunConcat` | c/websocket/git/libwebsockets/lib/parsers.c:549-979 | a reader's run over two strings is its run over the first followed by its run over the second: packet boundaries do not matter |
| `FramePayload.PayloadByte` | c/websocket/git/libwebsockets/lib/parsers.c:798-805 | a masked payload byte is recovered although the mask index is one byte wide and wraps |
| `FramePayload.RunPayload` | c/websocket/git/libwebsockets/lib/parsers.c:793-828 | a data payload of any length comes out whole and in order, in non-empty pieces no larger than the buffer, and the reader is back at a frame start with an empty buffer |
| `FramePayload.RunControl` | c/websocket/git/libwebsockets/lib/parsers.c:829-909 | a control payload that fits the buffer is acted on only when complete: close ends the connection, a ping is kept or answered, a pong is dropped or passed on |
| `FrameHeaders.RunLength` | c/websocket/git/libwebsockets/lib/parsers.c:647-756 | whichever of the three length forms the writer chose, the reader ends up with that length |
| `FrameHeaders.RunKey` | c/websocket/git/libwebsockets/lib/parsers.c:758-790 | the four key bytes leave the key, its all-zero flag and a zero mask index |
| `FrameRoundTrip.RunHeader` | c/websocket/git/libwebsockets/lib/parsers.c:630-790 | a printed header leaves the reader with the frame's opcode, FIN, length and key |
| `FrameRoundTrip.DataRoundTrip` | c/websocket/git/libwebsockets/lib/client-parser.c:24-251 | in both directions, for every data frame with a payload below 2^31, empty ones included: opcode, FIN and payload are recovered and the reader is ready for the next frame |
| `FrameRoundTrip.ControlRoundTrip` | c/websocket/git/libwebsockets/lib/client-parser.c:251-310 | in both directions, the same for control frames whose payload fits the buffer |
| `Octets.XorBit` | c/websocket/git/libwebsockets/lib/output.c:420-424 | a bit of the masked byte is set when it is set in exactly one of payload and key |
| `FrameExamples.HelloMasked` | c/websocket/git/libwebsockets/lib/output.c:420-424 | the masked "Hello" of section 5.7 of RFC 6455 |
| `FrameExamples.TextFrames` | c/websocket/git/libwebsockets/lib/output.c:326-370 | the single-frame, masked, ping and pong examples of section 5.7 of RFC 6455, byte by byte |
| `FrameExamples.Fragments` | c/websocket/git/libwebsockets/lib/output.c:364-370 | the fragmented example |
| `FrameExamples.LongFrames` | c/websocket/git/libwebsockets/lib/output.c:371-398 | the headers of the 256-byte and 64 KiB examples |
| `FrameExamples.ReadHello` | c/websocket/git/libwebsockets/lib/parsers.c:549-979 | the server takes the masked example apart |
| `FrameExamples.ServerControls` | c/websocket/git/libwebsockets/lib/parsers.c:837-909 | at the bytes 88, 89 and 8a: the end of the connection, a payload kept for the pong, nothing |
| `FrameExamples.ClientControls` | c/websocket/git/libwebsockets/lib/client-parser.c:260-310 | the same on the client: the end, an answer at once, the payload passed on |
| `FrameExamples.ReservedIgnored` | c/websocket/git/libwebsockets/lib/parsers.c:916-936 | a reserved opcode passes without effect |
| `FrameExamples.LongControlRefused` | c/websocket/git/libwebsockets/lib/parsers.c:651-664 | every control frame with an extended length ends the connection, on either side |
| `FrameExamples.HugeLengthRefused` | c/websocket/git/libwebsockets/lib/parsers.c:698-703 | every length of 2^63 or more ends the connection |
| `FrameExamples.LongZero` | c/websocket/git/libwebsockets/lib/parsers.c:688-696 | a length zero in the 16-bit form completes a frame on the client but leaves the server waiting for payload |
| `FrameExamples.MaskedToClient` | c/websocket/git/libwebsockets/lib/client-parser.c:58-100 | the client takes the mask bit for part of a short length |
| `FrameReader.Reader.constructor` | c/websocket/git/libwebsockets/lib/server.c:568-572 | the buffer has room for the protocol's size, or 4096, and the paddings |
| `FrameReader.Reader.StoreByte` | c/websocket/git/libwebsockets/lib/parsers.c:798-807 | the unmasked byte lands at the head, inside the allocation |
| `FrameReader.Reader.SpillBuffer` | c/websocket/git/libwebsockets/lib/parsers.c:829-969 | what leaves the reader is exactly the collected bytes, and the buffer starts over; what a callback is given (on the client a pong too) is followed by a zero inside the allocation |
| `FrameReader.Reader.RxSm` | c/websocket/git/libwebsockets/lib/parsers.c:549-979 | for every byte and state the fields, the buffer and the events are those of the step function, all accesses are inside the buffer, and the head is below the limit again |
| `FrameWriter.IssueConserves` | c/websocket/git/libwebsockets/lib/output.c:93-217 | outside a flush for closing: wire plus pending grows by exactly the bytes reported; it fails only when the socket does or memory runs out |
| `FrameWriter.NewOutcomes` | c/websocket/git/libwebsockets/lib/output.c:170-216 | a part of a clean buffer is reported as such and nothing kept; a rewritten buffer, or one of which nothing went out, is kept and reported as taken, if there is memory |
| `FrameWriter.ResumeOutcomes` | c/websocket/git/libwebsockets/lib/output.c:148-168 | a resumed send moves on by what the socket takes, and at its end asks for the close when flushing |
| `FrameWriter.FlushingIgnoresNew` | c/websocket/git/libwebsockets/lib/output.c:102-105 | while flushing for a close new data is not sent and reported as taken |
| `FrameWriter.CallsConserve` | c/websocket/git/libwebsockets/lib/output.c:93-217 | over every sequence of new sends and resumes with any short writes: bytes on the wire followed by the pending slice equal the bytes reported as accepted, and the wire only grows |
| `FrameWriter.Sender.IssueRaw` | c/websocket/git/libwebsockets/lib/output.c:93-217 | the in-place version: the pending slice stays inside its allocation and the caller's buffer is unchanged |
| `FrameWriter.Sender.MoveOn` | c/websocket/git/libwebsockets/lib/output.c:148-168 | a resumed send moves bytes from the front of the pending slice to the wire |
| `FrameWriter.Sender.Stash` | c/websocket/git/libwebsockets/lib/output.c:184-216 | the unsent rest is kept in the store, which is reused when large enough; nothing is kept when memory runs out |
| `FrameWriter.Sender.ResumePending` | c/websocket/git/libwebsockets/lib/service.c:60-71 | a writable socket is given the pending slice first |
| `FrameWriter.Sender.PrintHeader` | c/websocket/git/libwebsockets/lib/output.c:364-398 | the right one of the three header forms of section 5.2 of RFC 6455 in front of the payload, nothing else changed |
| `FrameWriter.Sender.MaskPayload` | c/websocket/git/libwebsockets/lib/output.c:409-424 | every payload byte is exclusive-or'ed with its key byte in place, with a one-byte index, nothing else changed |
| `FrameWriter.Sender.PrintFrame` | c/websocket/git/libwebsockets/lib/output.c:317-429 | the bytes from the header on are the frame's encoding, for every length below 2^31, opcode, FIN and key |
| `FrameWriter.Sender.Write` | c/websocket/git/libwebsockets/lib/output.c:249-514 | the stream becomes exactly what lws_issue_raw makes of the printed frame, or of the rest of one; what the returned count means: the frame is out or kept, or that much payload is out and the caller's rest is the frame's rest, and inside_frame says which; the wire keeps what it carried |
| `FrameWriter.IndexWraps` | c/websocket/git/libwebsockets/lib/output.c:420-424 | wrapping the mask index at 256 keeps its position within the key |
| `RxFlow.InterpretConserves` | c/websocket/git/libwebsockets/lib/server.c:1134-1168 | bytes handed to the loop are parsed or held back, in order, whatever the callback requests |
| `RxFlow.InterpretInv` | c/websocket/git/libwebsockets/lib/server.c:1134-1168 | the poll mask keeps following the flow control bits, and the reader stays where the parsed bytes put it |
| `RxFlow.ActConserves` | c/websocket/git/libwebsockets/lib/service.c:491-573 | one read, drain, enable or callback keeps: bytes held back only with POLLIN off, and parsed plus held back equals received |
| `RxFlow.RunConserves` | c/websocket/git/libwebsockets/lib/service.c:491-573 | the same over every run of a connection |
| `RxFlow.DrainRearms` | c/websocket/git/libwebsockets/lib/service.c:566-573 | after a drain that empties the buffer no change is pending and POLLIN is on exactly if receiving is allowed |
| `RxFlow.ActSettled` | c/websocket/git/libwebsockets/lib/server.c:132-167 | what every step does to "with nothing held back, POLLIN is on exactly if receiving is allowed"; only an enable from outside can end it |
| `RxFlow.RunSettled` | c/websocket/git/libwebsockets/lib/service.c:491-573 | it holds over every run in which no enable from outside meets a paused connection with nothing held back |
| `RxFlow.EnableStrands` | c/websocket/git/libwebsockets/lib/libwebsockets.c:557-567 | such an enable leaves a connection that may receive without POLLIN until a callback of its own |
| `RxFlow.CallbackPauses` | c/websocket/git/libwebsockets/lib/server.c:1147-1162 | a pause asked for in the receive callback holds back the rest of the packet and switches POLLIN off |
| `RxFlow.PausedThenRead` | c/websocket/git/libwebsockets/lib/service.c:482-509 | a read reported before the connection's own writeable callback switched receiving off is held back whole |
| `RxFlow.AnyActExact` | c/websocket/git/libwebsockets/lib/libwebsockets.c:557-567 | with disables from outside too: a step loses exactly what a read brings while a buffer waits |
| `RxFlow.AnyRunExact` | c/websocket/git/libwebsockets/lib/libwebsockets.c:557-567 | over every run, outside disables included: nothing is lost if and only if no read happens while a buffer waits |
| `RxFlow.ReadKeepsIff` | c/websocket/git/libwebsockets/lib/service.c:297-314 | a read keeps its bytes if and only if no buffer is waiting |
| `RxFlow.OutsideDisableLoses` | c/websocket/git/libwebsockets/lib/libwebsockets.c:557-567 | a disable from outside the connection's own callbacks leaves POLLIN on and a later read is dropped |
| `RxConnection.Connection.FlowControl` | c/websocket/git/libwebsockets/lib/libwebsockets.c:557-567 | a changed request is recorded as pending |
| `RxConnection.Connection.ApplyFlowControl` | c/websocket/git/libwebsockets/lib/server.c:132-167 | a pending change reaches the poll mask only when nothing is held back |
| `RxConnection.Connection.HandleCallback` | c/websocket/git/libwebsockets/lib/libwebsockets.c:612-625 | the callback's requests in order, then their application |
| `RxConnection.Connection.HoldBack` | c/websocket/git/libwebsockets/lib/service.c:297-314 | the unparsed rest is copied, unless a buffer is already there |
| `RxConnection.Connection.InterpretPacket` | c/websocket/git/libwebsockets/lib/server.c:1134-1168 | the byte loop over fresh data or over the held-back buffer in place computes the specified new state, rxflow_pos included |
| `RxConnection.Connection.DrainHeldBack` | c/websocket/git/libwebsockets/lib/service.c:491-573 | draining parses on from rxflow_pos, and an emptied buffer is freed and POLLIN re-armed |
| `EndToEnd.WriteFrameConserves` | c/websocket/git/libwebsockets/lib/output.c:249-514 | a new frame under any send result that covers its header: no byte of the stream is lost, repeated or reordered |
| `EndToEnd.WriteIsMove` | c/websocket/git/libwebsockets/lib/output.c:475-513 | the write of a new frame, as the writer's contract states it, is the system's move, the caller's masked buffer from the returned count on being what is still to be passed |
| `EndToEnd.MoreIsMove` | c/websocket/git/libwebsockets/lib/output.c:277-280 | the same for a write that continues a frame |
| `EndToEnd.AcceptsConserves` | c/websocket/git/libwebsockets/lib/output.c:497-513 | what the returned count promises is enough to keep every byte of the stream in place |
| `EndToEnd.StreamRuns` | c/websocket/git/libwebsockets/lib/parsers.c:549-979 | the server survives every concatenation of client data frames and delivers exactly their payloads |
| `EndToEnd.NextKeeps` | c/websocket/git/libwebsockets/lib/service.c:491-573 | every step of client, network and server keeps: parsed, held back, on the wire, pending and with the caller, in that order, make up the stream |
| `EndToEnd.EndToEndDelivery` | c/websocket/git/libwebsockets/lib/output.c:249-514 | in every run: the connection is up, the bytes given to the callback are an in-order prefix of those written, and all of them once nothing is left on the way |
| `Lexer.Generator.AddWord` | c/websocket/git/libwebsockets/lib/minilex.c:90-129 | adding a word keeps the trie of the words so far, makes it lead to a terminal with the word's number, and adds at most one slot per letter and one more |
| `Lexer.Generator.FindSlot` | c/websocket/git/libwebsockets/lib/minilex.c:104-110 | the first slot with the character, or none |
| `Lexer.Generator.Advance` | c/websocket/git/libwebsockets/lib/minilex.c:101-124 | one more character: an existing successor is followed or a new state appended, and the trie invariant is kept |
| `Lexer.OneByteForm` | c/websocket/git/libwebsockets/lib/minilex.c:200-206 | the position test chooses the one-byte form exactly in states with a single slot |
| `Lexer.BytePositions` | c/websocket/git/libwebsockets/lib/minilex.c:131-135 | two units per slot of all earlier states |
| `Lexer.Measure` | c/websocket/git/libwebsockets/lib/minilex.c:145-160 | a state's size is two, one, or three per slot and one, as the emission pass will need |
| `Lexer.RealPositions` | c/websocket/git/libwebsockets/lib/minilex.c:137-161 | every state's position is the total size of the states before it |
| `Lexer.EmitState` | c/websocket/git/libwebsockets/lib/minilex.c:166-231 | a state's bytes, each below 256, are appended; refused exactly when one of its jumps exceeds 64K; no terminal is too big |
| `Lexer.Emit` | c/websocket/git/libwebsockets/lib/minilex.c:163-232 | the whole table, all of it bytes; refused exactly when some jump exceeds 64K |
| `Lexer.TableSize` | c/websocket/git/libwebsockets/lib/minilex.c:137-161 | the table is at most four bytes per slot |
| `Lexer.SmallNeverFar` | c/websocket/git/libwebsockets/lib/minilex.c:208-215 | a table of at most 64K bytes has no jump that is too far |
| `Lexer.DecodeState` | c/websocket/git/libwebsockets/lib/parsers.c:30-60 | from a state's position a character leads to the position of the successor, or fails; a terminal stays put |
| `Lexer.LexCorrect` | c/websocket/git/libwebsockets/lib/parsers.c:30-60 | walking the table of a word list's trie answers every input as the list alone defines it |
| `Lexer.SpellsFold` | c/websocket/git/libwebsockets/lib/parsers.c:33-33 | folding gives a lower-case word exactly when the input is that word with any of its letters in upper case |
| `Lexer.RecognisesWords` | c/websocket/git/libwebsockets/lib/parsers.c:30-60 | a table that answers as the list defines stops at terminal k after i characters exactly when these are word k in any case |
| `Lexer.AnswerUnique` | c/websocket/git/libwebsockets/lib/parsers.c:386-453 | for a prefix-free list there is only one such answer |
| `Lexer.Generate` | c/websocket/git/libwebsockets/lib/minilex.c:78-232 | for every legal word list, walking the printed bytes stops at terminal k after i characters exactly when these are word k with any of its letters in upper case, and fails at the first character leaving the list; refusal exactly when some jump exceeds 64K, never for lists of up to 16383 letters and words |
| `Lexer.DecodeLoop` | c/websocket/git/libwebsockets/lib/parsers.c:30-60 | the loop computes the specified move of the character, an upper-case letter standing for its lower-case one, and returns -1 for failure |
| `Huffman.Generator.AddCode` | c/websocket/git/libwebsockets/lib/minihuf.c:357-375 | adding a code keeps the binary trie of the codes so far and marks its terminal |
| `Huffman.StateForks` | c/websocket/git/libwebsockets/lib/minihuf.c:351-376 | for a complete code every inner state gets both successors, so no fail entry is printed |
| `Huffman.TrieDone` | c/websocket/git/libwebsockets/lib/minihuf.c:351-376 | all codes added: terminals are exactly the symbols' and every other state forks forward |
| `Huffman.Positions` | c/websocket/git/libwebsockets/lib/minihuf.c:384-396 | two bytes for every inner state before it |
| `Huffman.EmitSlot` | c/websocket/git/libwebsockets/lib/minihuf.c:407-459 | a byte of the table, its terminal flag and the length of its jump |
| `Huffman.EmitState` | c/websocket/git/libwebsockets/lib/minihuf.c:405-459 | a state's bytes, packed flags and jumps added, or refusal exactly when one of its jumps exceeds 0xffff |
| `Huffman.Emit` | c/websocket/git/libwebsockets/lib/minihuf.c:405-470 | the table, the flags packed eight to a byte and the biggest jump, or refusal exactly when a jump exceeds 0xffff |
| `Huffman.BiggestBounds` | c/websocket/git/libwebsockets/lib/minihuf.c:439-449 | no jump in the table is longer than the biggest jump reported |
| `HuffmanBits.BitsSpell` | c/websocket/git/libwebsockets/lib/minihuf.c:293-299 | the bits code_bit gives for a literal spell its code |
| `HuffmanBits.RaiseOne` | c/websocket/git/libwebsockets/lib/minihuf.c:432-433 | setting a packed flag sets that one and no other |
| `HuffmanBits.PacksNext` | c/websocket/git/libwebsockets/lib/minihuf.c:428-437 | the packed flags grow by one flag at a time, none being set beyond |
| `Huffman.Generate` | c/websocket/git/libwebsockets/lib/minihuf.c:327-464 | for every complete prefix code, the table of a complete trie of the code |
| `Huffman.DecodeState` | c/websocket/git/libwebsockets/lib/hpack.c:182-190 | one bit from a state's position leads to the next state's position or yields its symbol, when jumps fit a byte |
| `Huffman.HuffDecode` | c/websocket/git/libwebsockets/lib/hpack.c:182-190 | the look-up with its packed flag test computes the specified move |
| `Huffman.DecodePath` | c/websocket/git/libwebsockets/lib/hpack.c:182-190 | the bits of a path to a terminal yield its symbol and restart at the root |
| `Huffman.PaddingDecodes` | c/websocket/git/libwebsockets/lib/hpack.c:512-542 | fewer than eight ones of padding yield nothing (section 5.2 of RFC 7541) |
| `Huffman.DecodeMessage` | c/websocket/git/libwebsockets/lib/hpack.c:512-542 | the concatenated codes of any byte string, padded with ones, decode to exactly that string |
| `Huffman.DecodeByte` | c/websocket/git/libwebsockets/lib/hpack.c:512-542 | the eight-bit loop decodes a byte's bits from any carried position |
| `Huffman.ByteSpelled` | c/websocket/git/libwebsockets/lib/hpack.c:513-520 | the bits of a byte in the order they are decoded spell the byte, highest first |
| `Huffman.DecodeData` | c/websocket/git/libwebsockets/lib/hpack.c:512-542 | byte after byte with the position carried over equals decoding all bits at once |
| `Huffman.DecodeEncoded` | c/websocket/git/libwebsockets/lib/hpack.c:512-542 | generator and decoder together: whenever the generator reports a biggest jump of at most 255 and a table of at most 2^15 bytes, every encoded string is decoded to itself |
| `UriPath.CleanAdd` | c/websocket/git/libwebsockets/lib/parsers.c:268-274 | exactly when one more byte brings "//", "/./" or "/.." into a path that had none |
| `UriPath.BackUpClean` | c/websocket/git/libwebsockets/lib/parsers.c:301-309 | backing up leaves a clean beginning of what was stored |
| `UriPath.TrackDot` | c/websocket/git/libwebsockets/lib/parsers.c:293-321 | after "/." every byte is swallowed with the invariant kept, or may be stored without harm, even when the regurgitated dot did not fit |
| `UriPath.AssessKeeps` | c/websocket/git/libwebsockets/lib/parsers.c:276-374 | one decoded byte keeps the joint invariant of path state and stored bytes |
| `UriPath.RegurgitateKeeps` | c/websocket/git/libwebsockets/lib/parsers.c:251-262 | a broken escape: the stashed digit parsed again and then the byte itself keep the invariant, also past the length limit |
| `UriPath.ParseKeeps` | c/websocket/git/libwebsockets/lib/parsers.c:192-374 | one received byte keeps the invariant in all escape and path states, recursion included |
| `UriPath.StoredPathClean` | c/websocket/git/libwebsockets/lib/parsers.c:214-358 | for every request, whatever its escapes, regurgitated bytes and NULs, the stored path never contains "//", "/./" or "/.." |
| `UriMeaning.TokenRuns` | c/websocket/git/libwebsockets/lib/parsers.c:229-266 | however a character is written, plain or escaped, its value is what counts |
| `UriMeaning.StoredAsMeant` | c/websocket/git/libwebsockets/lib/parsers.c:214-358 | for every way of escaping a path that fits: it is stored as meant if and only if it is clean and does not end in "/." |
| `UriRequests.HexDigits` | c/websocket/git/libwebsockets/lib/parsers.c:158-170 | the sixteen digits in either case have their values, and no other byte has one |
| `UriRequests.BrokenEscape` | c/websocket/git/libwebsockets/lib/parsers.c:238-246 | a percent sign before a byte that is no digit stands for itself |
| `UriRequests.BrokenSecond` | c/websocket/git/libwebsockets/lib/parsers.c:251-262 | so it does before one digit and a byte that is none |
| `UriRequests.SlashesFold` | c/websocket/git/libwebsockets/lib/parsers.c:282-316 | after a slash, another slash or "./" changes nothing, whatever follows |
| `UriRequests.DropToSlash` | c/websocket/git/libwebsockets/lib/parsers.c:304-309 | the do-while loop takes off the last slash and what follows it, and no more |
| `UriRequests.DropToRoot` | c/websocket/git/libwebsockets/lib/parsers.c:304-309 | except for the first byte of the path, which stays |
| `UriRequests.ParentStored` | c/websocket/git/libwebsockets/lib/parsers.c:293-311 | for every path p/seg/ that fits, however escaped, ".." leaves p stored, or "/" when p is empty |
| `UriRequests.BehindParent` | c/websocket/git/libwebsockets/lib/parsers.c:323-332 | what follows "../" is put right behind p, whose slash is gone |
| `UriRequests.ArgumentsStored` | c/websocket/git/libwebsockets/lib/parsers.c:338-358 | for every clean path and arguments that fit, however escaped: both are stored as meant, separated by a NUL; empty arguments become "/" |
| `UriRequests.ReturnEnds` | c/websocket/git/libwebsockets/lib/parsers.c:362-370 | a CR, escaped or not, ends the header with the path stored |
| `UriRequests.CutAtLimit` | c/websocket/git/libwebsockets/lib/parsers.c:179-183 | every clean path at least two bytes beyond the limit is cut at the limit and the rest skipped |
| `UriBounds.AssessBounded` | c/websocket/git/libwebsockets/lib/parsers.c:338-374 | a decoded byte keeps the store within its bounds if and only if it is not a '?' that finds the store full |
| `UriBounds.ParseBounded` | c/websocket/git/libwebsockets/lib/parsers.c:229-374 | the same for a received byte with its escapes |
| `UriBounds.RunBounded` | c/websocket/git/libwebsockets/lib/parsers.c:192-374 | over a whole request: the bounds are kept if and only if no '?' finds the store full |
| `UriBounds.ShortRequest` | c/websocket/git/libwebsockets/lib/parsers.c:192-374 | a request no longer than the store never leaves its bounds |
| `UriBounds.QueryOverruns` | c/websocket/git/libwebsockets/lib/parsers.c:338-341 | every clean path that just fills the store, followed by a '?', has its terminator written one past the end |
| `UriBounds.FullDrops` | c/websocket/git/libwebsockets/lib/parsers.c:174-177 | a path byte for which there is no room drops the connection |
| `UriBounds.OverrunStores` | c/websocket/git/libwebsockets/lib/parsers.c:174-177 | past the end of the store bytes go on being stored |
| `UriParser.Parser.IssueChar` | c/websocket/git/libwebsockets/lib/parsers.c:172-190 | the byte is stored and counted (a NUL not counted), or the two refusals |
| `UriParser.Parser.BackUpLevel` | c/websocket/git/libwebsockets/lib/parsers.c:295-310 | the do-while loop drops what the specification drops |
| `UriParser.Parser.TrackPath` | c/websocket/git/libwebsockets/lib/parsers.c:276-336 | the path state machine |
| `UriParser.Parser.AssessByte` | c/websocket/git/libwebsockets/lib/parsers.c:276-374 | the path states, sealing at '?', ending at CR, storing |
| `UriParser.Parser.EndPath` | c/websocket/git/libwebsockets/lib/parsers.c:214-227 | a space ends the URI |
| `UriParser.Parser.ParseByte` | c/websocket/git/libwebsockets/lib/parsers.c:192-374 | the recursive parser computes the specified outcome |
| `PollTable.AddedContents` | c/websocket/git/libwebsockets/lib/pollfd.c:51-56 | a new last slot keeps the two directions inverse and adds exactly that socket, polled for reading |
| `PollTable.DeletedContents` | c/websocket/git/libwebsockets/lib/pollfd.c:99-116 | swapping the last slot into the vacant one keeps the two directions inverse and slot 0 the pipe's, and removes exactly that socket |
| `PollTable.MaskedContents` | c/websocket/git/libwebsockets/lib/pollfd.c:140-146 | a changed mask changes exactly that socket's events |
| `PollTable.BitsSet` | c/websocket/git/libwebsockets/lib/pollfd.c:146-146 | the bits to be set are set |
| `PollTable.BitsCleared` | c/websocket/git/libwebsockets/lib/pollfd.c:146-146 | the bits to be cleared and not to be set are cleared |
| `PollTable.BitsKept` | c/websocket/git/libwebsockets/lib/pollfd.c:146-146 | all other bits are as before |
| `PollTable.SlotCount` | c/websocket/git/libwebsockets/lib/pollfd.c:24-129 | there are as many slots as polled sockets, besides the pipe's |
| `PollTable.Table.constructor` | c/websocket/git/libwebsockets/lib/lws-plat-unix.c:265-269 | only the pipe in slot 0 |
| `PollTable.Table.Insert` | c/websocket/git/libwebsockets/lib/pollfd.c:24-69 | refused exactly when the table is full or the socket too high, and then nothing changes; else the contents gain the socket |
| `PollTable.Table.Remove` | c/websocket/git/libwebsockets/lib/pollfd.c:71-129 | the contents lose exactly the socket, whichever slot it was in, and the connection has no position |
| `PollTable.Table.ChangePollFd` | c/websocket/git/libwebsockets/lib/pollfd.c:131-178 | exactly that socket's events change; the result says whether they did |
| `PollTable.Table.WritableAll` | c/websocket/git/libwebsockets/lib/pollfd.c:256-273 | exactly the connections of the protocol are polled for writing from then on |
| `Resolve.Resolve` | python/mysite/lib/python2.6/site-packages/pkg_resources.py:589-634 | terminates, cycles included, and the outcome is explained: the distributions to activate in order, or the requirement it stopped at and why |
| `Resolve.Complete` | python/mysite/lib/python2.6/site-packages/pkg_resources.py:607-634 | the processed requirements contain the inputs and are closed under what the chosen distributions require, and one fixed distribution per project satisfies them all |
| `Resolve.Least` | python/mysite/lib/python2.6/site-packages/pkg_resources.py:607-634 | every set that contains the inputs and is closed contains all that was processed and queued |
| `Resolve.ActivatedChosen` | python/mysite/lib/python2.6/site-packages/pkg_resources.py:613-627 | the list to activate holds exactly the chosen distributions |
| `Resolve.ChosenStays` | python/mysite/lib/python2.6/site-packages/pkg_resources.py:613-620 | a choice once made for a project stays |
| `Resolve.ChosenFirst` | python/mysite/lib/python2.6/site-packages/pkg_resources.py:613-620 | the choice for a project that was not active is the best match of the first requirement for it |
| `Resolve.AllActive` | python/mysite/lib/python2.6/site-packages/pkg_resources.py:613-627 | with all projects active the list has one entry per requirement, in order |
| `Resolve.NoneActive` | python/mysite/lib/python2.6/site-packages/pkg_resources.py:613-627 | with none active it has one entry per project |
| `Resolve.StoppedForGood` | python/mysite/lib/python2.6/site-packages/pkg_resources.py:621-630 | the requirement an error names is in every closed set containing the inputs and is not met by the chosen distribution |
| `Resolve.ResultUnique` | python/mysite/lib/python2.6/site-packages/pkg_resources.py:607-634 | the order of processing is determined by the inputs |
| `Resolve.Pick` | python/mysite/lib/python2.6/site-packages/pkg_resources.py:613-627 | the distribution already chosen, the active one, or the best match, remembered and listed as the source does |
| `Base64.EncodeEntry` | c/websocket/git/libwebsockets/lib/base64-decode.c:46-47 | the encoder's table is the alphabet of RFC 4648 |
| `Base64.DecodeEntry` | c/websocket/git/libwebsockets/lib/base64-decode.c:48-49 | the decoder's table, entry by entry: digit plus 62, or the marker for characters to skip |
| `Base64.EncodedLength` | c/websocket/git/libwebsockets/lib/base64-decode.c:51-94 | the encoding has 4 * ceil(n / 3) characters |
| `Base64.Pieces` | c/websocket/git/libwebsockets/lib/base64-decode.c:77-82 | the shifts and masks give the four six-bit digits of the 24-bit group |
| `Base64.EncodeString` | c/websocket/git/libwebsockets/lib/base64-decode.c:51-94 | with room, the encoding of section 4 of RFC 4648 and a terminator; refused exactly when room is below the text plus two |
| `Base64.ReadDigit` | c/websocket/git/libwebsockets/lib/base64-decode.c:115-129 | skips to the next character that counts; the last character of the text is not counted and reads as zero |
| `Base64.ReadQuad` | c/websocket/git/libwebsockets/lib/base64-decode.c:112-130 | an inner group of an encoded text gives its four digits; the last group is counted as three characters whatever its padding |
| `Base64.GroupStep` | c/websocket/git/libwebsockets/lib/base64-decode.c:112-143 | the bytes written for a group of an encoded text are the next bytes of what is returned |
| `Base64.DecodeString` | c/websocket/git/libwebsockets/lib/base64-decode.c:100-152 | no text makes it write past the buffer; of the encoding of any s it returns s when |s| mod 3 is 2 or s is empty, s less its last byte when |s| mod 3 is 0, and s with a zero byte appended when |s| mod 3 is 1; so it gives s back if and only if s is empty or |s| mod 3 is 2 |
| `KeepAlive.StepKeeps` | java/keepalive/Server.java:82-111 | with safe delays every step keeps: the latest time of the next receive is within three seconds of the last one |
| `KeepAlive.NeverCloses` | java/keepalive/Server.java:82-111 | in every run with start skew, watchdog lateness, send time, transit and polling lag within safe bounds the server never closes by timeout |
| `KeepAlive.MayClose` | java/keepalive/Client.java:72-95 | beyond that condition there is a run within the bounds in which the server closes on a client that does everything in time |
| `KeepAlive.SumIsNotEnough` | java/keepalive/Client.java:77-84 | delays that add up to less than a second, 600 ms of them in sendObject, for which the server closes |
| `KeepAlive.SendsApart` | java/keepalive/Client.java:75-94 | in every run two messages leave the client more than two seconds apart |
| `KeepAlive.ClosesSilent` | java/keepalive/Server.java:82-111 | for any client: an open connection has received something within three seconds and one polling gap; a closed one was silent for more than three seconds |

## Left out

- Crc32.Tables.MakeCrcTable: the polynomial is the constant the comment at line 123 gives, not assembled from the list of exponents; the `first` flag for concurrent callers is not modelled.
- The width of `unsigned long` in `crc32.c` is 32 bits; its upper half on 64-bit hosts is not modelled.
- The `NO_DIVIDE` form of Adler-32, and a length of 1 with a null buffer.
- Sha1.Context.LoadWords: the byte swap on little-endian hosts is modelled by its result, the big-endian words of the block, in an array of its own.
- Lexer.Generate: the limits of 1000 states and 30 slots per state are not modelled, nor the 16-bit `lextable_pos`; word lists have at most 128 words, as a terminal's number is stored in a signed char.
- Huffman.Generate: the limit of 2000 states and the fail entries of incomplete codes are not modelled; a symbol above 255 keeps only its low byte, and the special case for symbol 0x100 at `hpack.c:528` does nothing in the source.
- Active extensions, and with them `lws_issue_raw_ext_access` beyond passing its arguments on.
- The phase of flushing before close: `FrameWriter.Sender.IssueRaw` models it, the conservation lemmas exclude it.
- Control frames under partial sends: the source returns a short count for them and keeps nothing; `FrameWriter.Sender.Write` models data writes.
- FrameWriter.Sender.Write: payloads are four bytes short of 2^31 or less, as the source counts them in an `int`.
- Client CLOSE frames with a reason code, masked server-to-client frames, protocol revisions other than 13, and reserved bits.
- FrameReader.Reader.RxSm: the reply to a CLOSE and the sending of a stored ping's pong are not modelled; a failing user callback is not modelled.
- RxFlow.RunConserves: the user callback returns 0, and a failing `lws_change_pollfd` is not modelled.
- EndToEnd.EndToEndDelivery: a first partial send covers the frame's header, and memory for keeping an entirely unsent frame is available.
- UriParser.Parser.ParseByte: past its end the store is modelled as if it went on, so what an overrun overwrites is not modelled; nor are the number of header fragments, reuse of the parser on a kept-alive connection and the other header states.
- PollTable.Table.Remove: callers pass a polled connection; the branch for an empty table cannot be reached while slot 0 holds the pipe. Callbacks for external polling, libev and waking the service thread are not modelled.
- Resolve.Resolve: requirements come from a finite universe, and the choice of the environment or the installer is a function of the requirement; each is asked at most once per project.
- Base64.DecodeString: for malformed text only memory safety is stated; entries of `quad` that the source leaves uninitialised are arbitrary six-bit values.
- KeepAlive.NeverCloses: closing on exceptions, replies of the server and other traffic of the client are not modelled.
- TLS, HTTP serving, the handshake, the HTTP/2 code beyond the Huffman loop, the Windows and libev back ends, the remaining Python packaging code, and the echo and chat programs.
