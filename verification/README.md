# A verified model of the TLS WebSocket server

The repository is a WebSocket server over TLS with its own frame codec, a resumable file-upload protocol,
a hand-off between worker threads and one IO thread, and the small pools they rest on. This project states
in Dafny what these parts do and proves what they are meant to guarantee.

`dafny verify dfyconfig.toml` checks everything.

## How it is laid out

| files | what they hold |
|---|---|
| `Bytes`, `Decimal` | bytes, big-endian and decimal numbers, concatenation |
| `FrameCodec`, `FrameBuilder`, `FrameRules` | the frame format: written, read back, decoded with fragments; the builders' loops; the format in numbers and which frames are refused |
| `StreamParser`, `Fragmentation` | the incremental parser and its round trips |
| `UpgradeRequest`, `UpgradeVerdicts` | the opening handshake: as a round trip, and exactly which requests are taken and what a client reads out of the response |
| `Crc32` | the table-driven CRC, bit-by-bit division, burst detection |
| `Bitmap`, `FileNames`, `FileProtocol`, `FileMessages` | chunk bitmaps, names on disk, messages and their bytes |
| `FileTransfer`, `FileManager`, `FileRuns`, `FileAnswers` | the session table, its object, whole runs, and which answer means what |
| `Upload`, `UploadFrames`, `OtherUsers`, `BrowserUpload` | one file on its way: what the server holds of it, chunks as frames, what others may do meanwhile, the browser's loop |
| `Outbound`, `Connection`, `ConnectionOrder`, `ConnectionRuns` | the output queue, the connection as a step system, its invariants and runs |
| `FrameAnswers`, `RunAnswers`, `Received`, `WorkerReplies` | over every run: which frames are answered and how, what the parser has seen, what the workers get and what becomes of their replies |
| `EarlyWrites`, `Closing`, `Conversation` | writes before the end of the handshake; when a connection is closed, read and written; a whole conversation |
| `ThreadPool`, `MemoryPool`, `NonceWindow` | worker pool, read buffers, replay check |
| `RequestHead`, `HttpLogPost` | the head of a plain-HTTP request, the browser log endpoint |

Code that updates things in place is modelled by classes with the source's fields and loops; every method is
proved equal to a function on values, and the properties are proved about these functions. Where threads
interleave (connection output, worker pool, buffer guards) the model is a step system: each locked region or
shared access is one step, memory is sequentially consistent, and what OpenSSL, the kernel or the scheduler
may do is an arbitrary choice.

Conventions that run through the project:

* Bytes are `bv8`. A 32-bit CRC register is a sequence of 32 bits, least significant first; `Crc` is its number.
* The clock, descriptors handed out by `open`, results of `ftruncate`, `pwrite`, `read`, `SSL_read`, `SSL_write`
  and `recv` are inputs. `pwrite` past the largest file offset fails.
* The digest of the handshake key is an arbitrary function of the key; masking keys are arbitrary.
* A parser that has thrown is dead: the server closes the connection then.

## Where the code does not do what it is meant to

* README.md line 64 of the repository forbids `SSL_write` before `tls_done`. The branch at
  src/server/WssServer.cpp:1341-1346 flushes a writable connection whose handshake is still pending without looking
  at that flag. `EarlyWrites.CalledEarlyExactly` shows that a step before the end of the handshake calls `SSL_write` if
  and only if it is that flush, on an open connection with something to send; `EarlyWrites.SentEarlyExactly` that
  bytes have gone out early if and only if some such flush had its first write succeed. With 0-RTT off there is
  never anything to send by then (`EarlyWrites.NothingEarlyWithoutEarlyData`); with 0-RTT on there are runs that
  do it (`EarlyWrites.WrittenEarly`), also with the client's own request (`EarlyWrites.ClientRequestWrittenEarly`).
* An upload does not look at the server's payload limit, and a chunk message is 17 bytes longer than its data. The
  page finishes an upload if and only if every chunk the server misses fits with these 17 bytes
  (`BrowserUpload.Browser.UploadFile`), for a new upload if and only if the chunk size, or the size of a smaller file,
  leaves room for them (`BrowserUpload.NewUploadFits`). Otherwise the connection is lost on the first chunk that
  does not fit. The command-line client's default chunk size equals the server's default limit
  (`UploadFrames.DefaultsDisagree`).
* The replay check subtracts unsigned clock readings. Whatever the clock does, a nonce is accepted if and only if
  each earlier acceptance of it has looked more than 300 seconds old to some call since (`NonceWindow.AcceptedExactly`). With a
  clock that never goes back that is the window (`NonceWindow.AcceptedOncePerWindow`); set back at all, the
  clock lets the next call with that nonce through (`NonceWindow.ReplayAfterClockSetBack`).
* The payload limit is per frame; reassembled messages are not bounded, in the code and in the model.

## Model

| member | source | states |
|---|---|---|
| `FrameBuilder.BuildFrame` | src/ws/WebSocketCodec.cpp:112-136 | the pushed bytes are exactly the unmasked frame of section 5.2 of RFC 6455, for all three length forms |
| `FrameBuilder.BuildClientFrame` | src/ws/WebSocketCodec.cpp:166-204 | the same for a final masked frame under any key: the four key bytes stand in front of the payload, and payload byte i has been combined with key byte i % 4 |
| `FrameBuilder.BuildClose` | src/ws/WebSocketCodec.cpp:158-164 | a Close frame with the status code in network order |
| `FrameBuilder.PushBigEndian` | src/ws/WebSocketCodec.cpp:125-132 | the shift loop appends the big-endian bytes of the length |
| `FrameCodec.NextFrameOfWritten` | src/ws/WebSocketCodec.cpp:335-400 | a written frame within the receiver's limits, whatever follows it, is read back whole: flag, opcode, payload and exact size |
| `FrameCodec.NextFrameStable` | src/ws/WebSocketCodec.cpp:335-386 | bytes that arrive later never change a verdict or a frame already decided |
| `FrameCodec.DecodeSplit` | src/ws/WebSocketCodec.cpp:334-456 | decoding a stream at once or in two parts gives the same frames, error, leftover and fragment state |
| `FrameCodec.DecodedFramesPresentable` | src/ws/WebSocketCodec.cpp:405-455 | from any bytes only whole text, binary, Close, Ping and Pong frames come out, control payloads at most 125 bytes, no one-byte Close |
| `FrameCodec.MaskRule` | src/ws/WebSocketCodec.cpp:389-394 | masking combines payload byte i with byte i % 4 of the key as it stands on the wire |
| `FrameRules.FrameLayout` | src/ws/WebSocketCodec.cpp:112-204 | every byte of a written frame in numbers: flag and opcode, mask bit and length form, extended length, key, masked payload |
| `FrameRules.VerdictExactly` | src/ws/WebSocketCodec.cpp:335-400 | for any bytes at all: each of the five errors if and only if its cause, a frame if and only if header, length, mask and payload are in order, and then which fields and which payload |
| `FrameRules.SequenceTaken` | src/ws/WebSocketCodec.cpp:405-452 | well-formed frames in an order that breaks no rule of fragmentation are all taken, however cut |
| `FrameRules.SequenceStopped` | src/ws/WebSocketCodec.cpp:405-456 | the first frame that breaks a rule in its place stops the parser with the error for it, behind everything the frames before it have brought |
| `StreamParser.BlankFromMeans` | src/ws/WebSocketCodec.cpp:247-253 | the header search finds the first empty line, or there is none |
| `StreamParser.FindHeaderValue` | src/ws/WebSocketCodec.cpp:45-63 | the line loop finds the first header of that name |
| `StreamParser.FindHeaderEnd` | src/ws/WebSocketCodec.cpp:247-253 | the scan loop computes the end of the head |
| `StreamParser.TryUpgradeStable` | src/ws/WebSocketCodec.cpp:239-299 | the verdict on an upgrade request does not depend on the bytes behind it |
| `StreamParser.UnmaskInPlace` | src/ws/WebSocketCodec.cpp:389-394 | the in-place loop combines byte i of the array with key byte i % 4 |
| `StreamParser.ReadFrameAt` | src/ws/WebSocketCodec.cpp:335-400 | reading at the parse cursor equals reading the front of the rest of the buffer |
| `StreamParser.WebSocketStreamParser.TryConsumeUpgrade` | src/ws/WebSocketCodec.cpp:239-299 | verdict, response and what is left in the buffer |
| `StreamParser.WebSocketStreamParser.Take` | src/ws/WebSocketCodec.cpp:405-455 | the fragment fields follow the reassembly rules |
| `StreamParser.WebSocketStreamParser.DecodeBuffer` | src/ws/WebSocketCodec.cpp:334-456 | the cursor loop decodes the whole buffer |
| `StreamParser.WebSocketStreamParser.FeedBytes` | src/ws/WebSocketCodec.cpp:301-465 | one call of `feed`: response, frames (those before an error included), error, and buffer and fragment state after compaction |
| `StreamParser.WebSocketStreamParser.SetOpenMode` | src/ws/WebSocketCodec.cpp:229-237 | a client's parser starts past the upgrade, empty |
| `StreamParser.FeedSplit` | src/ws/WebSocketCodec.cpp:301-465 | feeding two pieces is feeding their concatenation |
| `StreamParser.FeedAllIsOneFeed` | src/ws/WebSocketCodec.cpp:301-465 | any number of pieces shows the same as one |
| `StreamParser.CutIndependence` | src/ws/WebSocketCodec.cpp:239-465 | two ways of cutting one stream agree on response, frames, first error, leftover and fragment state, from the HTTP request on |
| `UpgradeRequest.HeaderRoundTrip` | src/ws/WebSocketCodec.cpp:45-63 | in a request built of header lines, lookup finds the first header of that name, letter case aside |
| `UpgradeRequest.RequestEnds` | src/ws/WebSocketCodec.cpp:243-254 | the head ends right behind such a request, whatever follows |
| `UpgradeRequest.ClientRequestGood` | src/client/main_client.cpp:495-511 | the request the command-line client sends, nonce included, is one the server accepts, for any host and key |
| `UpgradeRequest.HandshakeAndFrames` | src/ws/WebSocketCodec.cpp:239-465 | a good request followed by frames, cut anywhere, gives one 101 response for its key and every frame |
| `UpgradeVerdicts.UpgradeExactly` | src/ws/WebSocketCodec.cpp:239-299 | for every request made of header lines: taken, or refused with which of five errors, if and only if what its Sec-WebSocket-Key, Upgrade and X-Nonce headers are |
| `UpgradeVerdicts.ResponseRead` | src/ws/WebSocketCodec.cpp:286-291 | what a client reads out of the response: where it ends, its status line, Upgrade, Connection, and the accept value itself |
| `UpgradeVerdicts.HandshakeRead` | src/ws/WebSocketCodec.cpp:239-465 | end to end: request and frames cut anywhere get a response in which the client reads the digest of its own key |
| `UpgradeVerdicts.ClientRequestText` | src/client/main_client.cpp:495-511 | the client's request is exactly this text, with the nonce and without |
| `UpgradeVerdicts.ValueBehindSpaces` | src/ws/WebSocketCodec.cpp:57-60 | all spaces in front of a header value are skipped, and nothing else |
| `UpgradeVerdicts.TakeBareLine` | src/ws/WebSocketCodec.cpp:48-52 | a line may end with a bare LF |
| `Fragmentation.FragmentationRoundTrip` | src/ws/WebSocketCodec.cpp:388-452 | any messages in any number of fragments under any keys, with control frames between them, decode to whole messages at their last fragment and the control frames in place, however the bytes are cut |
| `Fragmentation.WholeFramesRoundTrip` | src/ws/WebSocketCodec.cpp:166-204 | concatenated frames of either side decode to their payloads in order |
| `Fragmentation.TruncatedStream` | src/ws/WebSocketCodec.cpp:334-465 | a stream that breaks off anywhere gives no error and a prefix of the frames |
| `Crc32.PolynomialCode` | src/common/Crc32.cpp:21 | the polynomial's exponents are the constant 0xEDB88320 |
| `Crc32.AllOnesCode` | src/common/Crc32.cpp:36-62 | the register starts, and the result is masked, with 0xFFFFFFFF |
| `Crc32.CRC32.InitTable` | src/common/Crc32.cpp:15-27 | the nested loops fill the table with eight bit steps of each index |
| `Crc32.CRC32.OneShot` | src/common/Crc32.cpp:34-41 | the table loop computes the checksum |
| `Crc32.CRC32.Feed` | src/common/Crc32.cpp:53-58 | a streamed block advances the register |
| `Crc32.CRC32.StreamBlocks` | src/common/Crc32.cpp:47-63 | reset, any split into blocks, finish: the one-shot checksum |
| `Crc32.UpdateSplit` | src/common/Crc32.cpp:53-58 | updates compose over concatenation |
| `Crc32.ByteStepIsEightBits` | src/common/Crc32.cpp:37-39 | one table step equals eight bit steps on register xor byte |
| `Crc32.UpdateIsSerial` | src/common/Crc32.cpp:34-41 | the table loop equals the bit-serial register |
| `Crc32.SerialIsDivision` | src/common/Crc32.cpp:20-23 | the bit-serial register is the remainder of a long division |
| `Crc32.ChecksumIsDivision` | src/common/Crc32.cpp:15-41 | for every message the table form equals the complemented remainder of bitwise polynomial division |
| `Crc32.ChecksumBits` | src/common/Crc32.cpp:34-63 | the same bit by bit: take the message bits, least significant first, and 32 zeros, negate the first 32 bits, divide, negate every bit of the remainder |
| `Crc32.StepInjective` | src/common/Crc32.cpp:21-22 | the bit step loses nothing |
| `Crc32.StepSurjective` | src/common/Crc32.cpp:21-22 | and reaches every register value |
| `Crc32.BurstDetected` | src/common/Crc32.cpp:34-41 | equal-length messages that differ within any 32 consecutive bits have different checksums |
| `Crc32.FourByteBurstDetected` | src/common/Crc32.cpp:34-41 | equal-length messages that differ only within some four consecutive bytes have different checksums |
| `Bitmap.SetGet` | src/file/FileTransferManager.cpp:159-171 | setting a bit marks that chunk and no other |
| `Bitmap.FirstMark` | src/file/FileTransferManager.cpp:159-171 | a single mark on the wire: byte i / 8 is 2 to the power i % 8, all other bytes are zero |
| `Bitmap.SetWellFormed` | src/file/FileTransferManager.cpp:441-445 | a new mark with its count keeps size, spare bits and counter right |
| `Bitmap.MissingEmpty` | src/file/FileTransferManager.cpp:462 | the counter reaches the total exactly when nothing is missing |
| `FileProtocol.ParseEncode` | src/file/FileTransferManager.cpp:230-390 | the server understands every START, QUERY and CHUNK a client can write |
| `FileProtocol.QueryResponseRead` | web/index.html:512-520 | the client reads back the bitmap of a QUERY_RESPONSE |
| `FileProtocol.ChunkAckRead` | web/index.html:573-576 | the client reads back the index of a CHUNK_ACK |
| `FileMessages.ParsedExactly` | src/file/FileTransferManager.cpp:214-390 | from any bytes: exactly which messages are understood, where each field is taken from, and the error code of the others |
| `FileMessages.RequestLayout` | web/index.html:479-510 | START, QUERY and CHUNK in bytes: type number and each field at its place |
| `FileMessages.QueryResponseLayout` | src/file/FileTransferManager.cpp:337-346 | QUERY_RESPONSE in bytes |
| `FileMessages.ChunkAckLayout` | src/file/FileTransferManager.cpp:452-460 | CHUNK_ACK in bytes, the flag 1 for a new chunk |
| `FileMessages.FinishAckLayout` | src/file/FileTransferManager.cpp:471-488 | FINISH_ACK in bytes, the flag 1 for success |
| `FileMessages.ErrorLayout` | src/file/FileTransferManager.cpp:218-228 | an error in bytes: type 255, its code, its text |
| `FileTransfer.HandleKeepsInv` | src/file/FileTransferManager.cpp:205-504 | every message, malformed ones and I/O failures included, keeps bitmaps, counters and descriptors right; without a failed read no session is left full |
| `FileNames.CleanIsSafe` | src/file/FileTransferManager.cpp:95-113 | a cleaned name has at most 200 bytes, none of them a control character or one of those that have a meaning in a path, and does not end with a space or dot |
| `FileNames.CleanTwice` | src/file/FileTransferManager.cpp:95-113 | cleaning a cleaned name changes nothing |
| `FileNames.NameKept` | src/file/FileTransferManager.cpp:95-113 | a name of at most 200 allowed bytes with no space or dot at its end is kept as it is |
| `FileNames.NameBehindPath` | src/file/FileTransferManager.cpp:88-113 | of any path exactly such a name behind its last slash or backslash is kept |
| `FileNames.LooseEndDropped` | src/file/FileTransferManager.cpp:111-113 | spaces and dots at the end of a name are dropped, and nothing before them |
| `FileNames.AllowedOneMore` | src/file/FileTransferManager.cpp:100-110 | byte by byte: dropped if it is forbidden or the name is full, else kept |
| `FileNames.NamesInText` | src/file/FileTransferManager.cpp:80-125 | the texts of temporary and final names |
| `FileNames.CutToBase` | src/file/FileTransferManager.cpp:88-92 | the scan finds what stands behind the last separator |
| `FileNames.FilterName` | src/file/FileTransferManager.cpp:100-110 | the loop keeps the first 200 allowed bytes |
| `FileNames.SanitizeName` | src/file/FileTransferManager.cpp:95-113 | cut, trim, filter and trim compute the cleaned name |
| `FileNames.FinalNamesDistinct` | src/file/FileTransferManager.cpp:116-125 | two uploads share a final file only if id and cleaned name are equal |
| `FileNames.TempNamesDistinct` | src/file/FileTransferManager.cpp:80-85 | two uploads share a temporary file only if their ids are equal |
| `FileNames.TempIsNotFinal` | src/file/FileTransferManager.cpp:80-125 | no final file, whatever its name, is a temporary one |
| `FileTransfer.DescriptorsOfSessions` | src/file/FileTransferManager.cpp:140-157 | the open descriptors are exactly those of the live sessions, each its own |
| `FileManager.FileTransferManager.HandleClientMessage` | src/file/FileTransferManager.cpp:205-504 | new session table, descriptors, files and replies of one message |
| `FileManager.FileTransferManager.OnStart` | src/file/FileTransferManager.cpp:230-347 | START: resumed, replaced or new |
| `FileManager.FileTransferManager.StartNew` | src/file/FileTransferManager.cpp:298-346 | a new session under its cleaned name, with the failure paths of `open` and `ftruncate` |
| `FileManager.FileTransferManager.OnQuery` | src/file/FileTransferManager.cpp:349-374 | QUERY: the bitmap, and a new time stamp |
| `FileManager.FileTransferManager.OnChunk` | src/file/FileTransferManager.cpp:376-439 | CHUNK: the checks in their order, the write and its failures |
| `FileManager.FileTransferManager.TakeChunk` | src/file/FileTransferManager.cpp:441-492 | the mark, the ACK and the end of the upload |
| `FileManager.FileTransferManager.FinishUpload` | src/file/FileTransferManager.cpp:462-490 | whole-file check, then rename to the id and the cleaned name, or unlink (what that comes to is `FileAnswers.FinishExactly`) |
| `FileManager.ComputeFileCrc` | src/file/FileTransferManager.cpp:174-193 | reading in blocks of 64 KiB gives the checksum of the file |
| `FileManager.SortByAge` | src/file/FileTransferManager.cpp:531-539 | the list is sorted by last update and still lists every session once |
| `FileManager.FileTransferManager.CleanupSessions` | src/file/FileTransferManager.cpp:506-551 | exactly the expired sessions and then the least recently used beyond the limit are gone, each descriptor closed and file unlinked, the others unchanged |
| `FileRuns.RunsKeepInv` | src/file/FileTransferManager.cpp:205-551 | the session invariant in every state of every run of messages and cleanups; a session has all its chunks only behind a chunk message of its own whose whole-file read failed |
| `FileRuns.FullSinceFailedRead` | src/file/FileTransferManager.cpp:462-466 | such a session was left full by that read and has been full ever since |
| `FileRuns.LiveSessions` | src/file/FileTransferManager.cpp:159-171 | spelled out for one session: bitmap length, spare bits, counter, a missing chunk unless a whole-file read of its own failed; and the descriptors |
| `FileRuns.WithoutKeepsInv` | src/file/FileTransferManager.cpp:519-526 | removing any sessions, with their descriptors and temporary files, keeps the invariant for the others |
| `FileAnswers.StartAnswered` | src/file/FileTransferManager.cpp:272-346 | START: resumed if and only if size, chunk size, count and checksum agree; else the old session is gone, and there is a new one, with every field as announced and a file of zeros, if and only if its file could be created and sized |
| `FileAnswers.QueryAnswered` | src/file/FileTransferManager.cpp:349-374 | QUERY: error 0x3001 if and only if there is no session; else its count and bitmap |
| `FileAnswers.ChunkAnswered` | src/file/FileTransferManager.cpp:376-460 | CHUNK: each error code if and only if its cause; a chunk that is turned away changes nothing, a short write the file only; every other one is acknowledged as new or not |
| `FileAnswers.ChunkTaken` | src/file/FileTransferManager.cpp:441-460 | a chunk that is not the last: its bytes are in the file, its bit is set, nothing else has changed |
| `FileAnswers.FinishExactly` | src/file/FileTransferManager.cpp:462-490 | over every message: FINISH_ACK if and only if a chunk completed its session and the file could be read; yes if and only if the assembled file has the announced checksum; then the finished file is that content, else no finished file is created or changed; session, descriptor and temporary file are gone |
| `FileAnswers.UnreadableFile` | src/file/FileTransferManager.cpp:463-467 | if the whole file cannot be read, the chunk is kept and the session stays, full |
| `FileAnswers.DamageRefused` | src/file/FileTransferManager.cpp:462-488 | an assembled file that differs from the announced one within four consecutive bytes never gets a yes |
| `FileAnswers.SessionFromStart` | src/file/FileTransferManager.cpp:298-306 | in every run a live session has the parameters and the cleaned name of some earlier START of its id |
| `FileAnswers.FinishedAgainstItsStart` | src/file/FileTransferManager.cpp:462-488 | in every run FINISH_ACK compares with the checksum of such a START, and a yes leaves the file under the name it asked for |
| `FileAnswers.UseRecorded` | src/file/FileTransferManager.cpp:280-448 | a session's time stamp is that of the last START, QUERY or new chunk of it |
| `FileAnswers.CleanupExactly` | src/file/FileTransferManager.cpp:506-551 | a cleanup leaves exactly as many sessions as it may, none idle for more than the limit, none used before one that had to go |
| `FileAnswers.CleanupFiles` | src/file/FileTransferManager.cpp:519-549 | and closes and unlinks for each session that is gone, and for no other |
| `Upload.TotalBounds` | src/client/main_client.cpp:747-748 | the rounded-up chunk count covers the file, and no chunk is superfluous |
| `Upload.ChunkInFile` | src/client/main_client.cpp:825-827 | every chunk lies inside the file, is not empty, and only the last may be short; no offset overflows |
| `Upload.ChunksDisjoint` | src/client/main_client.cpp:825-827 | chunks do not overlap |
| `Upload.AllChunksAreTheFile` | src/client/main_client.cpp:821-827 | content that has every chunk right is the file |
| `Upload.UploadStep` | src/file/FileTransferManager.cpp:205-504 | one message: the last missing chunk is answered by ACK and a positive FINISH_ACK and completes the file; any other leaves the upload going, with exactly its chunk no longer missing |
| `Upload.OthersLeaveAlone` | src/file/FileTransferManager.cpp:205-504 | messages for other ids change neither the session nor its files |
| `Upload.UploadGoesOn` | src/file/FileTransferManager.cpp:376-492 | over any run in any order, with repeats and rejected chunks: no FINISH_ACK before every missing chunk has come |
| `Upload.UploadFinishes` | src/file/FileTransferManager.cpp:441-492 | the message that brings the last missing chunk gets FINISH_ACK 1 and the finished file equals the client's |
| `Upload.StartOpensUpload` | src/file/FileTransferManager.cpp:298-346 | a START with nothing to resume opens a session, under the cleaned name, with every chunk missing and says so |
| `UploadFrames.BinaryReachesServer` | src/ws/WebSocketCodec.cpp:368-372 | a binary frame under any key, however cut, reaches the server if and only if its payload fits the limit; else the connection dies |
| `UploadFrames.ChunkReachesServer` | src/ws/WebSocketCodec.cpp:368-372 | for a chunk: if and only if its data and 17 bytes fit |
| `UploadFrames.Transmit` | src/ws/WebSocketCodec.cpp:166-204 | framing, masking, cutting and parsing a message delivers it, or loses the connection, by that rule |
| `UploadFrames.AllChunksFit` | src/client/main_client.cpp:825-845 | all chunks fit exactly if the largest one does |
| `UploadFrames.DefaultsDisagree` | src/client/main_client.cpp:341 | with both defaults the first chunk of any file of 64 KiB or more is refused |
| `OtherUsers.OthersAct` | src/file/FileTransferManager.cpp:205-551 | any number of messages for other ids or malformed ones, with any I/O results, and of cleanups that do not evict it leave a session and its files as they are |
| `OtherUsers.CleanupSpares` | src/file/FileTransferManager.cpp:506-551 | a cleanup with no reason to remove a session, neither its age nor the number of sessions, does not touch it |
| `BrowserUpload.Browser.OnClose` | web/index.html:413-419 | a lost connection ends the upload and drops the replies |
| `BrowserUpload.Browser.Send` | web/index.html:531-565 | a message travels as a masked frame: the server handles it and its replies start back, or the connection is lost, exactly by the limit |
| `BrowserUpload.Browser.PushBinary` | web/index.html:328-337 | a reply resolves the pending wait or joins the queue |
| `BrowserUpload.Browser.NextBinary` | web/index.html:352-367 | replies are taken in order, from the queue or as they arrive |
| `BrowserUpload.Browser.AwaitAck` | web/index.html:568-585 | the wait ends on the matching ACK; the early-FINISH branch is unreachable |
| `BrowserUpload.Browser.AwaitBitmap` | web/index.html:531-546 | START and QUERY are answered by the bitmap |
| `BrowserUpload.Browser.SendMissing` | web/index.html:548-586 | one chunk per clear bit, ascending, each once the one before is acknowledged; all of them if and only if each fits the server's limit, else up to the first that does not |
| `BrowserUpload.Browser.AwaitFinish` | web/index.html:587-594 | the last wait ends on FINISH_ACK |
| `BrowserUpload.Browser.UploadFile` | web/index.html:446-601 | from a live session of the file or none, with others using the server all the while: finishes if and only if every chunk the server misses fits its limit, having sent START, QUERY and one message per such chunk, at least one, without waiting in vain, the finished file on the server; else the connection is lost and the session stays, missing exactly the chunks from there on |
| `BrowserUpload.NewUploadFits` | web/index.html:457-462 | for a new upload that is: the chunk size, or the size of a smaller file, and 17 bytes fit the limit |
| `BrowserUpload.OthersBetween` | src/file/FileTransferManager.cpp:205-551 | what others do between two messages changes neither what is missing nor what is on its way |
| `BrowserUpload.ChunkExchange` | src/file/FileTransferManager.cpp:452-490 | ACK always precedes FINISH_ACK, and FINISH_ACK comes only with the last chunk |
| `BrowserUpload.NeededCount` | web/index.html:548-549 | the loop sends as many chunks as bits are clear |
| `Outbound.OutboundQueue.FlushOutbound` | src/server/WssServer.cpp:552-604 | queue, offsets, bytes sent, interest and end of a flush, for every pattern of partial writes |
| `Outbound.OutboundQueue.Enqueue` | src/server/WssServer.cpp:315-322 | an item goes to the end of the queue, unsent |
| `Outbound.FlushConserves` | src/server/WssServer.cpp:567-600 | a flush neither loses nor repeats nor reorders a byte |
| `Outbound.PushConserves` | src/server/WssServer.cpp:315-322 | queueing extends what will be sent by exactly the item |
| `Outbound.WriteLoopDrains` | src/server/WssServer.cpp:567-603 | with a willing TLS layer one flush empties the queue |
| `Outbound.FlushStops` | src/server/WssServer.cpp:567-603 | a flush stops at the first write that takes nothing or with an empty queue; writability is watched for behind it exactly if the TLS layer waits for it, or, after a failure, as before |
| `FrameAnswers.EveryFrameAnswered` | src/server/WssServer.cpp:310-426 | up to the first Close each Ping gets one Pong with its payload, each data message goes to the workers once in order, the Close gets one Close with the status code that answers its own |
| `FrameAnswers.CloseReplyAllowed` | src/server/WssServer.cpp:62-67 | the status code sent back: the peer's own if it is one of 1000 to 4999 without 1004, 1005, 1006 and 1015, else 1002, and 1000 if there is none |
| `RunAnswers.NextAnswers` | src/server/WssServer.cpp:275-443 | every step adds to the Pongs and Closes queued or about to be queued exactly those the frames it received call for |
| `RunAnswers.EverythingAnswered` | src/server/WssServer.cpp:310-358 | in every run, whenever the IO thread waits, the Pongs and Closes ever queued are exactly those the received frames call for, in order, payloads included |
| `Received.ParserSawStream` | src/server/WssServer.cpp:275-290 | in every run the parser is where one call on all bytes read would have left it, and the frames taken from it are those that call would have given |
| `Received.UpgradeAnswered` | src/server/WssServer.cpp:291-308 | in every run the 101 that was queued answers the request that was received: a client reads the digest of its key out of it |
| `WorkerReplies.RepliesQueued` | src/server/WssServer.cpp:363-420 | in every run the text and binary frames ever queued are, in order, exactly the replies of the workers that found the connection open and not closing and have pushed since |
| `WorkerReplies.MessagesConserved` | src/server/WssServer.cpp:359-426 | every message received is with one worker, waiting for one, or about to be handed over |
| `WorkerReplies.TextsEchoed` | src/server/WssServer.cpp:363-386 | until the connection begins to close, the texts queued or held by a worker are those taken, in that order |
| `WorkerReplies.EveryTextEchoed` | src/server/WssServer.cpp:359-386 | once nothing is left to do on a connection that is not closing, the texts sent are one for each text received, with its payload |
| `ConnectionOrder.FeedSpeaks` | src/server/WssServer.cpp:279-308 | frames come only from a parser past the upgrade, and the upgrade is accepted once |
| `ConnectionOrder.FrameOpsOrderly` | src/server/WssServer.cpp:310-439 | the operations for received frames queue control frames only, Close only after `closing` is set, and flush behind every item; the unsupported-opcode reply is unreachable |
| `ConnectionOrder.NextOrdered` | src/server/WssServer.cpp:275-443 | every step of IO thread and workers keeps the order of the queue |
| `ConnectionRuns.NextConserves` | src/server/WssServer.cpp:552-604 | every step keeps sent and unsent bytes equal to everything queued |
| `ConnectionRuns.NextWoken` | src/server/WssServer.cpp:1183-1202 | every step keeps a reason for the IO thread to look again |
| `ConnectionRuns.NoByteLost` | src/server/WssServer.cpp:552-604 | in every run, bytes sent and bytes waiting are everything ever queued, in order |
| `ConnectionRuns.QueueDiscipline` | src/server/WssServer.cpp:283-439 | in every run the 101 is queued first and once, and no text or binary frame behind a Close |
| `ConnectionRuns.NoLostWakeup` | src/server/WssServer.cpp:238-246 | whenever the IO thread waits with something to send, it is or will be woken, or the flush stopped where only the timer retries |
| `ConnectionRuns.TickReachesFlush` | src/server/WssServer.cpp:1104-1137 | a tick reaches its flush with the queue as it was, or with a Ping behind it if one is due |
| `ConnectionRuns.PingExactly` | src/server/WssServer.cpp:1108-1131 | a tick queues a Ping exactly if one is due, handshake and upgrade are done and the connection is not closing |
| `ConnectionRuns.TickRetries` | src/server/WssServer.cpp:1132-1136 | with a willing TLS layer that flush sends all that is queued, the Ping included |
| `ConnectionRuns.WireEndToEnd` | src/server/WssServer.cpp:552-604 | for every run and every partial write, a client fed the bytes behind the 101, however cut, sees a prefix of the queued frames, and all of them once the queue is empty |
| `ConnectionRuns.UpgradeOnTheWire` | src/server/WssServer.cpp:291-308 | the first bytes sent are those of the 101 |
| `Closing.ClosedExactly` | src/server/WssServer.cpp:1314-1400 | in every run, whenever the IO thread waits, the connection is closed if and only if there was a reason: hang-up, end of stream, failure of the TLS layer or the parser, idleness, or, closing, nothing more to send when it became writable |
| `Closing.ReadToTheEnd` | src/server/WssServer.cpp:1333-1386 | a readable event is followed through early data, handshake and messages until the TLS layer has to wait, unless the connection is closing or closed |
| `Closing.HandshakeExactly` | src/server/WssServer.cpp:449-548 | the handshake is done exactly when the TLS layer says so, and early data is over when it says so or the connection is closing |
| `Closing.WatchesFor` | src/server/WssServer.cpp:473-527 | the socket is watched for what the TLS layer waits for |
| `Closing.AsksForOutput` | src/server/WssServer.cpp:380-384 | whoever queues something asks for writability |
| `Closing.WritableSends` | src/server/WssServer.cpp:1387-1397 | a connection that becomes writable sends all it has to a willing TLS layer, and is closed then if it was closing |
| `Closing.BellSends` | src/server/WssServer.cpp:1183-1202 | so does the eventfd for a connection that is not closing |
| `Closing.SilentOnceClosed` | src/server/WssServer.cpp:197-220 | a closed connection stays closed, no action of any thread sends a byte on it, and socket events lead to nothing |
| `Closing.ClosingIsLeftAlone` | src/server/WssServer.cpp:1132-1136 | a connection that is closing is not read on, and neither timer nor eventfd flush it, nor before the handshake is done |
| `Conversation.TextEchoed` | src/server/WssServer.cpp:275-443 | for every good request and every text that fits, there is a run in which exactly the 101 and the echo are sent |
| `EarlyWrites.SentEarlyExactly` | src/server/WssServer.cpp:1341-1346 | in every run, bytes have been sent before the end of the handshake if and only if some earlier step flushed a writable, pending, open connection with something to send and its first write succeeded |
| `EarlyWrites.CalledEarlyExactly` | src/server/WssServer.cpp:1341-1346 | a step before the end of the handshake calls `SSL_write` if and only if it is such a flush, whether the write succeeds or not |
| `EarlyWrites.NothingEarlyWithoutEarlyData` | src/server/WssServer.cpp:1290-1296 | with 0-RTT off nothing is queued, sent or tried before the end of the handshake, whatever the events |
| `EarlyWrites.NothingWrittenEarly` | src/server/WssServer.cpp:304-307 | nor with 0-RTT on, as long as no event of the handshake reports writability |
| `EarlyWrites.WrittenEarly` | src/server/WssServer.cpp:1341-1346 | the condition can be met: for every upgrade that arrives as early data there is a run that writes application data before the end of the handshake |
| `EarlyWrites.ClientRequestWrittenEarly` | src/client/main_client.cpp:504-511 | in particular for the request the command-line client sends as early data |
| `ThreadPool.ThreadPool.Submit` | src/common/ThreadPool.cpp:37-50 | queue, counter and peak after a submission |
| `ThreadPool.ThreadPool.RaisePeak` | src/common/ThreadPool.cpp:43-46 | the compare-and-swap loop stores the maximum, spurious failures included |
| `ThreadPool.ThreadPool.Take` | src/common/ThreadPool.cpp:55-63 | a worker takes the oldest task, or leaves once stopped and empty |
| `ThreadPool.ThreadPool.Stop` | src/common/ThreadPool.cpp:24-29 | the destructor only raises the flag; tasks already queued stay |
| `ThreadPool.TasksConserved` | src/common/ThreadPool.cpp:37-70 | submitted = queued + in flight + completed in every run; the queue is in submission order |
| `ThreadPool.TakenInOrder` | src/common/ThreadPool.cpp:61-62 | tasks are handed out in submission order |
| `ThreadPool.NoTaskTwice` | src/common/ThreadPool.cpp:52-70 | no task runs twice |
| `ThreadPool.PeakIsMaximum` | src/common/ThreadPool.cpp:43-46 | the recorded peak is the greatest length after any submission |
| `ThreadPool.DestructorDrains` | src/common/ThreadPool.cpp:24-35 | when the destructor returns, the queue is empty and every task has run exactly once |
| `ThreadPool.WorkersStay` | src/common/ThreadPool.cpp:7-22 | the pool has the workers asked for, and at least one |
| `ThreadPool.WaitingMayGo` | src/common/ThreadPool.cpp:55-63 | a waiting worker may go on exactly when there is a task or the pool is stopped: with the oldest task, or for good |
| `ThreadPool.WorkersComeToRest` | src/common/ThreadPool.cpp:52-70 | without new submissions the workers make only so many steps, however they are scheduled |
| `ThreadPool.DestructorReturns` | src/common/ThreadPool.cpp:24-35 | from every stopped state the workers can all leave, so that the join returns |
| `MemoryPool.MemoryPool.Acquire` | src/common/MemoryPool.cpp:38-54 | the block freed last, or a counted heap block |
| `MemoryPool.MemoryPool.Release` | src/common/MemoryPool.cpp:56-64 | an owned block goes back to the free list, a heap block is deleted |
| `MemoryPool.MemoryPool.IsOwnedPointer` | src/common/MemoryPool.cpp:30-36 | the scan decides membership |
| `MemoryPool.BlocksPartitioned` | src/common/MemoryPool.cpp:38-87 | over all guard lifetimes, free and lent blocks partition the preallocated ones, and none is lent twice |
| `MemoryPool.FallbackOnlyWhenAllLent` | src/common/MemoryPool.cpp:45-53 | the heap is used only when every preallocated block is lent |
| `MemoryPool.LastFreedFirst` | src/common/MemoryPool.cpp:38-64 | the block freed last is lent next, and the pool is as it was |
| `MemoryPool.HeapBlocksDeletedOnce` | src/common/MemoryPool.cpp:56-87 | every heap block is deleted exactly once |
| `NonceWindow.NonceCache.AcceptNonce` | src/ws/WebSocketCodec.cpp:88-101 | the pruning loop and the verdict |
| `NonceWindow.AcceptedExactly` | src/ws/WebSocketCodec.cpp:88-101 | for any sequence of calls with any clock readings: a nonce is accepted if and only if it is not empty and every earlier acceptance of it has looked expired to some call since |
| `NonceWindow.LapsedMeans` | src/ws/WebSocketCodec.cpp:91-95 | expired in numbers: more than 300 seconds later, or earlier by less than the range of the clock without 300 seconds |
| `NonceWindow.AcceptedOncePerWindow` | src/ws/WebSocketCodec.cpp:88-101 | with a clock that does not go back: if and only if it is not empty and was not accepted in the 300 seconds before |
| `NonceWindow.ReplayAfterClockSetBack` | src/ws/WebSocketCodec.cpp:92-95 | of two calls with one nonce both are accepted if and only if the second comes more than 300 seconds later or with the clock set back |
| `NonceWindow.ReplayOneSecondBack` | src/ws/WebSocketCodec.cpp:92-95 | a concrete replay |
| `Decimal.ReadWritten` | src/server/WssServer.cpp:724-731 | `std::stoull` reads back any 64-bit number written in decimal |
| `Decimal.ReadInContext` | src/server/WssServer.cpp:731-738 | and in context: behind white space and a sign, with anything that is no digit behind it; none if it has more than 64 bits |
| `RequestHead.FindInHead` | src/server/WssServer.cpp:708-735 | the line loop finds the first header of that name in the head of a request |
| `RequestHead.PostUnderstood` | src/server/WssServer.cpp:690-735 | a POST to the log with any legal headers, the first Content-Length announcing n bytes, is understood as a POST of n bytes |
| `RequestHead.LineExactly` | src/server/WssServer.cpp:699-713 | a request line of three words: log POST, log OPTIONS or GET, if and only if which words |
| `RequestHead.LineRefused` | src/server/WssServer.cpp:699-713 | a line that starts with a space or has fewer words is refused |
| `RequestHead.LengthMissing` | src/server/WssServer.cpp:718-742 | without a Content-Length header nothing is announced |
| `HttpLogPost.HttpConnection.DriveHttpRead` | src/server/WssServer.cpp:803-947 | what one readable event does, in either reading phase, request line and Content-Length included |
| `HttpLogPost.LoggedOnce` | src/server/WssServer.cpp:808-916 | a complete POST, however split over receives, makes exactly one append, of exactly the body, and one 204 |
| `HttpLogPost.NothingBeforeTheEnd` | src/server/WssServer.cpp:808-916 | nothing is appended or answered before its last byte |
| `HttpLogPost.LoggedOnceOverEvents` | src/server/WssServer.cpp:803-947 | the same over any number of events and pauses |
| `HttpLogPost.WrittenPostLoggedOnce` | src/server/WssServer.cpp:803-947 | for the bytes of a POST: request line, any headers that announce the body, and the body, cut over any events, log exactly the body, once, with one 204 |
| `HttpLogPost.AtMostOneLine` | src/server/WssServer.cpp:803-947 | for any bytes in any pieces: at most one line is logged, only if logging is on, of 1 to 4096 bytes, and then the answer is 204; at most 16384 bytes of head and 4096 of body are held |
| `HttpLogPost.HeadAnswered` | src/server/WssServer.cpp:845-945 | once the head has ended: each answer if and only if its cause |
| `HttpLogPost.HeadNotEnded` | src/server/WssServer.cpp:845-851 | before that, only a head of more than 16384 bytes is answered |
| `HttpLogPost.BodyAnswered` | src/server/WssServer.cpp:808-834 | body bytes: too many, enough, or to be continued |
| `HttpLogPost.DriveStops` | src/server/WssServer.cpp:803-947 | a readable event is followed until the socket has no more, the peer has gone or the phase changes, and the connection is gone behind it exactly if the peer is |

## Left out

* OpenSSL, SHA-1, Base64, random bytes, epoll, eventfd and timerfd as such: they appear as arbitrary functions, arbitrary results, an interest flag, a counter and events.
* The check of X-Nonce during the upgrade is an arbitrary verdict of the header's value in `StreamParser`; its window is proved in `NonceWindow` over any sequence of calls.
* The command-line client's upload loop: it stops scanning a batch of replies at the matching ACK and sends START and QUERY without waiting; its chunk arithmetic is in `Upload`.
* The interval between server Pings, idle times and metrics: whether they are due is an arbitrary choice of each tick.
* What the file manager answers to a binary message is, on a connection, any list of binary frames; which it is, is stated in `FileAnswers`.
* Other connections: their notifications ring the same eventfd at any time; each connection's own steps do not touch another's queue.
* The text of the unsupported-opcode reply: it is shortened, and the reply is proved unreachable.
* Writes longer than an `int`: the cast of the remaining length handed to `SSL_write` is not modelled; items are assumed below 2 GiB.
* Failures of `rename`, `unlink` and `close`, of appending to the browser log, and a signed overflow of the chunk offset, which the model treats as a failing `pwrite`.
* Which of several equally old sessions a cleanup evicts first: the order of the hash table and of `std::sort` among equals is arbitrary.
* Static pages: answers with a path only; neither the file looked up nor the bytes of any HTTP response are modelled.
* Floating point in the browser's chunk count: `Math.ceil` of a quotient below 2^31 of integers below 2^53 is exact, and the model uses the integer quotient.
* Timeouts of the browser's waits: the model proves that a reply is always on its way.
* What `UploadFile` asks of the world: no other user of the same id, no cleanup that evicts the session, no failing write or read of its file, and no replies to an earlier, broken-off upload still on their way. How an upload that meets one of these ends is stated for the server (`Upload.UploadStep`, `FileRuns.RunsKeepInv`), not for the page.
* `stats()` of the worker pool as a snapshot: it reads its counters before it takes the lock.
* Logger, configuration, command lines, benchmarks, TLS session files: plumbing.
