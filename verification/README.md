# sendme transfer protocol: a verified model

This project models how sendme moves a collection of files from a provider to a client, and proves what
the two sides promise each other: the frames and messages on the wire, the database a provider builds from
a list of files, the provider's handling of a stream and its event log, the client's reading of that
stream, the two of them joined by byte channels under every schedule, the progress counter with any number
of concurrent callers, and the text forms of hashes, tokens, tickets and content identifiers.

## How it is organised

| file | what it holds |
|---|---|
| Base, Postcard, Messages, Blobs | bytes and outcomes; the postcard wire format; handshake, request, response; collections |
| Bao | the verified encoding of contents: a pre-order tree over a hash that is a parameter |
| Streams, Protocol | receiving and sending halves of a stream, the byte buffer, length-prefixed frames |
| Database | building the content-addressed map and the collection from files |
| Provider, Wire | the provider's methods for one stream; what they put on the wire and what their events mean |
| Get, Integrity | the client's methods; what can be concluded from a run on arbitrary bytes |
| EndToEnd, Transfer | client and provider composed: whole and partial transfers, authenticity, the single write |
| Task, Interleaving | the provider's task in small steps; many tasks over one shared log |
| Getter, System | the client in small steps; both joined by channels under any scheduler, with termination |
| Refusals, Shortened | when a provider answers to the end, and what both sides come to where it does not; how far a transfer comes that meets a file that is shorter or gone |
| Progress, Emissions | the progress emitter, called in sequence and concurrently; exactly when emissions rise |
| Text, Cid, Tickets | base64url and base32, hashes and tokens as text, content identifiers, tickets |

Code that changes things in place is modelled by classes and methods over streams, buffers and arrays
(`Streams`, `Protocol`, `Provider`, `Get`, `Database`, `Progress`, `Cid`). Each method is proved equal to a
function of its input, and the theorems are about those functions; the small-step machines are proved to
compute the same functions whatever the step sizes. An `Outcome` has a third case besides success and error:
`Panic`, for the slices, splits and overflowing additions that panic in the program.

Two assumptions appear as hypotheses and nowhere else. Collision-freeness is stated only for the contents
or tree nodes in play (`Distinct`, `CollisionFree`), and the collection's own hash must differ from every
blob's (`Separate`), because its insertion would replace that blob. What the types of the program say is
`Sound`: names are UTF-8 strings that are in memory together, lengths fit 64 bits.

Where code and documentation differ the model follows the code:

- The length prefix is eight little-endian bytes (`src/protocol.rs:74`), not a varint (`src/protocol.rs:65`).
- A stream that ends inside a frame's body makes the readers panic; `read_lp` takes a truncated prefix for
  "no message", `read_lp_data` takes it for an error.
- `read_request` leaves its bytes in the buffer although its comment says it is empty, and `write_response`
  leaves a buffer of at least 1024 bytes.
- A hash is encoded with a length byte, 33 bytes in all, although its declared maximum is 32. A request
  therefore fits its declared 42 bytes exactly when its id is below 2^63.
- `write_buf` on the collection's content is one write and may take only a part of it. `burst` is how much
  it takes. `DeliveryExactly` shows that a run on the resulting wire ends well if and only if it took all.
- A missing blob is answered by two not-found responses, one from `send_blob` and one from its caller.
- Overlapping callers can make progress emissions fall or repeat. `RisingExactly` says for which amounts they
  cannot: at most one caller; two callers of which neither alone reaches a step strictly between none and the
  last; everyone alone reaching the last step; or all but any one together reaching none.
- A task that ends without finishing its stream drops the writer, which ends what the client reads; whether
  that looks like a clean end is a parameter (`dropped`), and the theorems hold for either.

Sizes are those of a 64-bit platform, and additions and multiplications that overflow panic, as in a build
with overflow checks.

## Model

| member | source | states |
|---|---|---|
| Postcard.IntegersRoundTrip | src/protocol.rs:38-62 | integers of 64, 32 and 16 bits come back from their varint, with exactly the following bytes left |
| Postcard.VarintLength | src/provider.rs:741-744 | how the encoded length depends on the value, the cause of the size bounds below |
| Postcard.VarintAt | src/protocol.rs:38-62 | byte i of a varint is seven bits of weight 128^i, marked by the highest bit unless it is the last |
| Postcard.IntegersExactly | src/protocol.rs:38-62 | what is read of any bytes as an integer of 64, 32 or 16 bits: the value of the bytes up to the first unmarked one, if there are at most ten, five or three and the last is within its bound |
| Postcard.ValidUtf8Exactly | src/blobs.rs:12 | the byte strings taken for text are exactly the UTF-8 encodings of sequences of Unicode scalar values |
| Postcard.TakeHashOf | src/util.rs:81-114 | a hash takes 33 bytes and comes back with what follows it |
| Postcard.ItemsExactly | src/util.rs:107-114 | a hash is only read from 32 bytes and a string only from valid UTF-8 |
| Messages.HandshakeRoundTrip | src/protocol.rs:23-36 | decoding undoes encoding whatever bytes follow |
| Messages.RequestRoundTrip | src/protocol.rs:38-43 | decoding undoes encoding whatever bytes follow |
| Messages.ResponseRoundTrip | src/protocol.rs:45-62 | decoding undoes encoding for all three kinds of response |
| Messages.EncodedRequest | src/protocol.rs:23-43 | the client's two messages byte by byte |
| Messages.EncodedResponses | src/protocol.rs:51-62 | id, variant number 0, 1 or 2 in the order of the source, and the total |
| Messages.VariantsTold | src/protocol.rs:51-62 | a response is decoded by its variant number, and there are no others |
| Messages.DeclaredSizes | src/util.rs:117-119 | a handshake always fits the declared size; a request if and only if its id is below 2^63 |
| Messages.ResponseFits | src/provider.rs:777-780 | every response fits the 1024-byte buffer it is written into, so that call cannot fail |
| Blobs.CollectionRoundTrip | src/blobs.rs:8-25 | a collection comes back from its encoding followed by any bytes |
| Blobs.EncodingsDiffer | src/blobs.rs:8-25 | no collection's encoding is another's or begins another's |
| Blobs.CollectionBytes | src/blobs.rs:9-17 | the bytes of a collection of two blobs, with the order of all fields and entries |
| Blobs.DecodedIsValid | src/blobs.rs:21-25 | whatever is decoded has names that are strings and lengths that fit 64 bits |
| Blobs.TruncatedCollection | src/blobs.rs:21-25 | no proper front part of a collection's encoding decodes |
| Blobs.BufferBound | src/provider.rs:745-757 | the collection fits its estimated buffer iff lengths, count and total take at most 1024 bytes; always up to 505 short names, never from 511 sources on |
| Bao.ExtractIsEncode | src/provider.rs:427-437 | the slice extracted from an outboard and a file that begins with the content is the content's encoding, whatever has been appended |
| Bao.ExtractFits | src/provider.rs:579-588 | a slice is extracted whole iff the file has at least the recorded length, and is then as long as the encoding whatever the file holds; from a shorter file less is extracted |
| Bao.ShortFile | src/provider.rs:579-588 | from a file cut short the encoding is extracted up to the first chunk that is not there in full; a decoder has released exactly the full chunks by then and waits for the next one |
| Bao.LeftIsPower | src/protocol.rs:131-145 | a subtree splits at the largest power of two of chunks that leaves something for the right |
| Bao.ThreeChunks | src/protocol.rs:131-145 | the tree of three chunks: which hash is made of what, at which position, with which mark, and in which order all of it is encoded |
| Bao.DecodeOfEncode | src/protocol.rs:135-145 | decoding an encoding under its own hash returns the content and stops right behind it |
| Bao.DecodeSound | src/protocol.rs:131-145 | a complete decoding hashes to the expected hash and used exactly the encoded size of its length |
| Bao.DecodeTreeExtends | src/get.rs:99-117 | a decision of the decoder does not change when more bytes arrive |
| Bao.DecodeTreeUses | src/get.rs:99-117 | bytes that the decoder was missing are all used, so nothing behind the content is read |
| Bao.DecodeTreeGrows | src/get.rs:99-117 | content once verified is never taken back when more bytes arrive |
| Bao.DecodeTells | src/get.rs:99-117 | an encoding that is cut off is told from one that does not verify |
| Bao.VerifiedPrefix | src/get.rs:88-117 | whatever the input, the decoder releases only a prefix of the content behind the hash, unless two checked nodes collide |
| Streams.RecvStream.ReadExact | src/protocol.rs:159-163 | the bytes asked for or the error of the way the stream ended, whatever chunks arrive |
| Streams.RecvStream.ReadChunk | src/provider.rs:389-392 | nothing exactly at a clean end, otherwise a non-empty front part of the input |
| Protocol.WriteLp | src/protocol.rs:66-79 | sends exactly the frame, cut where the peer stops; refuses a payload at the limit before sending anything |
| Protocol.Fill | src/protocol.rs:93-102 | the reading loop appends exactly the available part of `size` bytes, whatever chunks arrive |
| Protocol.ReadLp | src/protocol.rs:82-108 | result, buffer and rest of the stream are those of `LpDecoded`, including the panic and the missing message |
| Protocol.ReadSizeData | src/protocol.rs:111-129 | splits the announced size off the buffer, panics if buffer and stream together hold less |
| Protocol.ReadLpData | src/protocol.rs:148-157 | result, buffer and rest of the stream are those of `LpSplit` |
| Protocol.ReadWholeFrame | src/protocol.rs:66-129 | reading what `WriteLp` wrote gives the payload back, leaves the reader at the next frame, and leaves the payload or nothing in the buffer |
| Protocol.SuccessIsWholeFrame | src/protocol.rs:111-157 | a read that succeeds from an empty buffer consumed exactly one frame of the returned payload: no stale bytes |
| Protocol.PanicsOnShortBody | src/protocol.rs:93-128 | from an empty buffer both readers panic iff what came, ended cleanly, is a length and then fewer bytes than it says |
| Protocol.ReadBackFrames | src/protocol.rs:66-163 | any list of frames followed by any bytes is read back payload by payload with one reused buffer |
| Database.ComputeOutboards | src/provider.rs:708-720 | succeeds iff every source is a file, with hash and outboard of each in order |
| Database.InsertBlobs | src/provider.rs:722-745 | the loop's map, list, total and estimate are those of the sources in order, duplicates counted, each under the name given or else its path's; panics iff the total overflows |
| Database.CreateCollection | src/provider.rs:700-766 | error iff a source is not a file, panic iff the total overflows, buffer error iff the collection does not fit its estimate; otherwise the entry under the returned hash decodes to the list of the sources' names (the given one, or the path's file name) and hashes, in order, with the sum of their lengths |
| Database.BlobsDbEntries | src/provider.rs:722-733 | a key is there iff a source has that hash, and it leads to the last such source |
| Database.CreatedDatabase | src/provider.rs:722-765 | every key is the hash of what its entry leads to, the collection decodes to the list, and every listed hash leads to a blob unless the collection's entry replaced it |
| Provider.ReadHandshake | src/provider.rs:361-380 | result, buffer and rest are those of `HandshakeRead`: version and token checked, bytes dropped on success |
| Provider.ReadRequest | src/provider.rs:387-399 | result and buffer are those of `RequestRead`, including the check for extra data |
| Provider.Acceptance | src/provider.rs:361-507 | a request is accepted iff the whole input is two frames, cleanly ended, with this version, the right token and that request |
| Provider.ReadingPanics | src/provider.rs:361-399 | reading panics iff the first frame is cut off behind its length, or the rest of the input is so behind an accepted handshake's frame |
| Provider.HandshakeDecided | src/provider.rs:360-379 | any whole first frame: not decodable, another version whatever the token, another token, or accepted, each told from the others |
| Provider.RequestDecided | src/provider.rs:387-399 | any whole second frame behind it: not decodable, followed by more, cut off from its end, or accepted |
| Provider.NoFrame | src/provider.rs:375-399 | less than a length in place of either frame is no message, or a lost connection |
| Provider.FrameBytes | src/provider.rs:768-783 | the frames of the responses byte by byte, for an id of one byte such as a client's 1 |
| Provider.WriteResponse | src/provider.rs:768-783 | sends exactly the response's frame, never old contents of the reused buffer |
| Provider.SendContent | src/provider.rs:573-592 | copies the slice as far as it can be extracted: all of it, the part a shorter file still yields and then the failure, or nothing of a file that is gone |
| Provider.SendBlob | src/provider.rs:558-599 | writes what the blob's plan says, the part copied before a failure included, and returns whether the blob was found |
| Provider.SendBlobs | src/provider.rs:455-468 | the loop writes what the plan for all blobs says, ending with the second not-found response or the finished stream |
| Provider.TransferCollection | src/provider.rs:412-469 | announcement, one write of the content, then the blobs; any failed write ends it as an error |
| Provider.HandleStream | src/provider.rs:482-550 | result, events and everything written are those of `Serve`, for every input and every stop by the peer; what these are is stated under `Wire` |
| Wire.MissingCollection | src/provider.rs:519-524 | a hash that names no collection: exactly one not-found response, the finished stream, received and aborted in the log, and the cut of that where the peer stops |
| Wire.UndecodableCollection | src/provider.rs:427-437 | a collection entry that does not decode: nothing is written, received and aborted in the log |
| Wire.NothingServed | src/provider.rs:494-507 | where no request is accepted nothing is written, and a refusal is logged unless reading panicked |
| Wire.AcceptedIsReported | src/provider.rs:509-548 | an accepted request is reported as received and then as completed, only if serving succeeded, or as aborted |
| Wire.SuccessWritesAll | src/provider.rs:439-468 | if operations that finish the stream succeed, all they write was taken and the stream is finished |
| Wire.BlobsPlanWire | src/provider.rs:455-468 | on a well-formed database the plan writes each blob's encoding up to the first missing one, then two not-found responses |
| Wire.MissingExactly | src/provider.rs:565-597 | the first missing blob is the first one whose hash has no blob entry |
| Wire.WireParts | src/provider.rs:439-468 | the whole wire of a complete collection: announcement, what the single write took of the collection, and for every blob in order a found response and its file's encoding, with the bytes of all responses |
| Wire.CompletionMeansWritten | src/provider.rs:528-535 | completion is reported only when announcement, the accepted part of the collection and every blob in full were written and the stream finished |
| Wire.FinishedOrAborted | src/provider.rs:494-548 | serving either succeeds and finishes the stream, or is an error that leaves it unfinished and logs nothing but a refusal or an aborted transfer |
| Wire.Served | src/provider.rs:509-548 | without a stop from the peer a known collection is served to the end, completed iff no blob is missing |
| Wire.GrownServesAlike | src/provider.rs:579-588 | what has been appended to files since the database was built changes nothing that a provider writes, logs or returns |
| Get.SendMessage | src/get.rs:147-162 | serialises into the reused fixed buffer and sends exactly that message's frame |
| Get.SendRequest | src/get.rs:142-164 | sends handshake and request and finishes, cut where the peer stops |
| Get.ClientBytes | src/get.rs:142-164 | everything a client sends, byte by byte |
| Get.ReadTree | src/get.rs:94-117 | reading unit by unit in any chunks yields the decoder's content and stops where it stops |
| Get.ReadBaoEncoded | src/protocol.rs:135-145 | content and rest of the stream are those of `Decode` |
| Get.HandleBlobResponse | src/get.rs:259-285 | each kind of response and each failure is told apart; the assertion that the buffer is empty holds |
| Get.HandOver | src/get.rs:208-218 | the callback's effect and the check that the content was read, for draining, partial and refusing callbacks |
| Get.ReceiveBlob | src/get.rs:198-219 | one round of the loop; `remaining` never underflows and the input buffer is empty again |
| Get.ReceiveCollection | src/get.rs:189-196 | result and variables are those of `ReadCollection`; see `EndToEnd.CollectionDecided` for what these are |
| Get.Run | src/get.rs:119-247 | sends the request, then ends with the result, deliveries and announced total of `ReadResponse`, in any chunking; see `EndToEnd.FirstResponse` and the rows below it for what these are |
| Integrity.BlobsIntegrity | src/get.rs:198-219 | from any point of the loop: entries delivered in order with matching hashes, sizes and remainder add up, at least the blobs' wire size consumed |
| Integrity.RunIntegrity | src/get.rs:166-246 | on arbitrary bytes, a run that ends well delivered every entry in order under its hash, the collection hashes to the request, delivered plus remaining is the announced total of at most 2^30 |
| Integrity.OkMeansAccepted | src/get.rs:194-219 | for any callbacks and any bytes, a run that ends well had its collection accepted, called each blob's callback once for its entry and in order, none of which refused or left content unread, and returns the announced total; with nothing left over the stream ended cleanly |
| Integrity.NothingForged | src/get.rs:198-219 | on arbitrary bytes, for any callbacks and any end of the run, what a callback saw was released by the decoder from some rest of the input, and is a prefix of the content behind the blob's hash |
| EndToEnd.RequestArrives | src/get.rs:145-164 | what the client sends is accepted by a provider with the same token, as that request |
| EndToEnd.RequestRefused | src/provider.rs:374 | a provider with another token refuses what the client sends, for its token |
| EndToEnd.FirstResponse | src/get.rs:166-188 | the first response decides: not found, unexpected, too large, each with nothing handed over, or the collection follows |
| EndToEnd.CollectionDecided | src/get.rs:189-196 | behind it: content that does not verify, ends early or does not decode, a collection the callback rejects, each before any blob is read, or the loop |
| EndToEnd.RejectedCollection | src/get.rs:194 | on an honest provider's bytes a rejected collection fails the run with nothing handed over and the blobs unread |
| EndToEnd.FrontOfBlobDecided | src/get.rs:199-213 | the response and size in front of a blob, each error told from the others |
| EndToEnd.CallbackDecides | src/get.rs:212-218 | a blob's content and the three kinds of callbacks: what is handed over and how the run goes on or ends |
| EndToEnd.BlobHandedOver | src/get.rs:212-218 | a whole blob goes to its callback in full, except to one that refuses or reads less of it, which ends the run |
| EndToEnd.LoopReceives | src/get.rs:198-219 | the client's loop on a well-formed database's wire: every blob before the first missing one, exactly |
| EndToEnd.PartialCollection | src/provider.rs:455-465 | first missing blob k: the collection, blobs 0..k-1 and exactly two not-found responses are sent, aborted is reported, the client delivers exactly those blobs, with the contents of their files, and fails |
| Transfer.EndToEndDelivery | src/get.rs:166-246 | every source once, in order, under the name given or else its path's, with hash and content; total right, nothing remaining, no byte left over; the provider completed |
| Transfer.AuthenticDelivery | src/get.rs:166-246 | whoever answers, a run that ends well for a created collection's hash delivered exactly its files, unless contents collide |
| Transfer.DeliveryExactly | src/provider.rs:453-454 | a run on the provider's wire ends well iff the total is within the limit and the single write took the collection whole |
| Transfer.Deliverable | src/provider.rs:700-766 | an instance that meets the hypotheses of the delivery theorems: one file of one byte, under a given hash |
| Transfer.OneByteShort | src/provider.rs:453-454 | the same instance with a single write one byte short: the hypotheses of `DeliveryExactly` hold and the run does not end well |
| Task.AdvanceKeepsFate | src/provider.rs:482-548 | a step of the task that uses no stream leaves the end it is heading for unchanged |
| Task.FeedKeepsFate | src/protocol.rs:93-102 | reading any number of the wanted bytes leaves that end unchanged |
| Task.WriteKeepsFate | src/provider.rs:439-468 | writing any part of the current frame leaves that end unchanged |
| Interleaving.FateIsServe | src/provider.rs:482-550 | that end, for a new task, is what serving the stream in one go produces |
| Interleaving.RunAloneKeeps | src/provider.rs:333-550 | after any steps a task has written a front part of what serving in one go writes; if no choice lost a write it is heading for that very end, otherwise it may have stopped unfinished with an aborted transfer |
| Interleaving.NonInterference | src/provider.rs:333-348 | in any interleaving of any number of streams each is where its own steps alone would have brought it, and its part of the log is its own |
| Interleaving.EventLogStories | src/provider.rs:333-348 | each stream's part of the log is a prefix of connected-refused, connected-received-aborted or connected-received-completed, whole once it stopped |
| Interleaving.CompletionInLog | src/provider.rs:528-533 | in any interleaving a logged completion means that stream's whole expected wire was written and finished |
| Getter.FeedClientKeeps | src/get.rs:166-219 | reading any number of the needed bytes does not change the verdict the client is heading for, and reads nothing beyond the current item |
| Getter.AdvanceClientKeeps | src/get.rs:166-219 | deciding an item does not change that verdict |
| Getter.ClientEndKeeps | src/get.rs:166-246 | at the end of the stream the client comes to that verdict |
| System.MoveKeeps | src/get.rs:145-246 | every move of either side keeps the invariant that ties client, channels and provider together |
| System.SomebodyCan | src/provider.rs:482-550 | no deadlock, for any tokens, database and files and any window of at least one byte: unless both are done somebody can move |
| System.MoveDescends | src/protocol.rs:93-102 | every move lowers a lexicographic rank of phases, blobs, actions and bytes |
| System.Settle | src/get.rs:119-247 | under every scheduler the two come to the end, with the invariant, for any tokens, database and files |
| System.NeverStuck | src/provider.rs:482-550 | a reachable state is final or has an enabled move; only one verdict can be reached, besides being stopped while sending by a provider that fails without writing anything |
| System.EveryScheduleEnds | src/get.rs:119-247 | every schedule ends, for any tokens, database, files and callbacks: with one of the three whole logs, one verdict if the provider answers, and after a clean success the log and wire of serving in one go |
| System.EveryScheduleDelivers | src/get.rs:166-246 | end-to-end delivery of a created collection under every schedule, also from files that have been appended to since, with the log connected-received-completed |
| System.EveryScheduleOfMiss | src/provider.rs:519-524 | under every schedule a client that asks for no collection fails with data not found and nothing handed over, and the log is connected, received, aborted |
| System.EveryScheduleOfPartial | src/provider.rs:455-465 | under every schedule exactly the blobs before the first missing one are delivered, and the log is connected, received, aborted |
| Refusals.AnswersExactly | src/provider.rs:482-599 | the provider answers a client to the end iff the token is right and a named collection decodes and its blobs' files have at least the recorded lengths up to the first missing blob |
| Refusals.RefusedNeverOk | src/provider.rs:494-507 | with a wrong token, under every schedule the client fails with nothing delivered, the log is a refusal and nothing is written |
| Refusals.FailsShort | src/provider.rs:558-599 | a plan that fails on a file, part of which it may have written, has written less than the wire of any matching deliveries |
| Refusals.UnansweredNeverOk | src/provider.rs:412-550 | where the provider does not answer to the end, under every schedule the client does not end well unless contents collide, and a refusal or an aborted transfer is logged |
| Shortened.LoopBreaks | src/provider.rs:573-592 | the loop up to a blob whose file is shorter or gone: what is written, and what a client makes of it |
| Shortened.EveryScheduleBreaks | src/provider.rs:558-599 | a file that is shorter or gone, under every schedule: the client is handed exactly the blobs before it and the full chunks that are left of it, and fails where the stream ends; an aborted transfer is logged |
| Progress.InnerProgressEmitter.Inc | src/progress.rs:95-104 | counter, last step and emission after one call, or a panic on overflow or a zero total; the last step is the floor of the reached share, as two inequalities |
| Progress.InnerProgressEmitter.SetTotal | src/progress.rs:106-108 | only the total changes |
| Progress.StepIsShare | src/progress.rs:97-99 | the step of a count is the one number whose multiple of the total is at most, and whose successor's is more than, the reached count times the steps |
| Progress.ProgressAsyncReader.PollRead | src/progress.rs:129-143 | exactly the bytes appended to the buffer are counted and the inner reader's own result comes back; a pending poll counts nothing |
| Progress.Sequential | src/progress.rs:95-104 | calls in sequence: exact sum, emissions strictly rising within 1..=steps, the last one is the floor of the reached share |
| Progress.Uninterrupted | src/progress.rs:95-104 | the four atomic parts of a call in a row are the whole call |
| Progress.LastNeverAhead | src/progress.rs:95-108 | in any interleaving, even with changing totals, the last step is at most the highest value emitted or about to be |
| Progress.Concurrent | src/progress.rs:95-104 | any callers, any interleaving, fixed total: no panic, nothing beyond the reached share emitted, and in the end exact sum and highest emission exactly the floor of the share |
| Emissions.RisingExactly | src/progress.rs:95-104 | emissions rise strictly within 1..=steps in every interleaving iff the amounts meet a condition that can be checked beforehand |
| Emissions.RisingExactlyWhenFinished | src/progress.rs:95-104 | the same for the interleavings in which all calls come to their end |
| Emissions.DoesNotRise | src/progress.rs:95-104 | from any amounts that violate the condition, a schedule whose emissions fall or repeat |
| Emissions.Falls | src/progress.rs:95-104 | a caller overtaken between swap and emission: the larger step is emitted, then the smaller |
| Emissions.Repeats | src/progress.rs:95-104 | a smaller step swapped in between two equal ones: that one is emitted twice |
| Emissions.EmissionsMayFall | src/progress.rs:95-104 | the instance of two callers that emits 2 and then 1 |
| Emissions.EmissionsMayRepeat | src/progress.rs:95-104 | the instance of three callers that emits 2 twice |
| Text.RoundTrip | src/util.rs:12-19 | unpadded base64url and base32 decode what they encode, for every length |
| Text.SymbolsAreListed | src/util.rs:12-19 | the symbols of both alphabets in order |
| Text.DecodesExactly | src/util.rs:12-19 | a text decodes to some bytes iff the number of its digits is that of the bytes, shifted left by less than a symbol to fill the last one |
| Text.FilledWithZeros | src/util.rs:12-19 | the bits that fill the last symbol are zero in every text that decodes |
| Text.Canonical | src/util.rs:12-19 | a text decodes to some bytes iff it is their encoding |
| Text.ParseDigest | src/util.rs:63-77 | parsing into the fixed array gives the digest, or tells a bad encoding from a wrong length |
| Text.DigestText | src/protocol.rs:184-212 | a hash or token is parsed from exactly one text, its 43 printed characters |
| Text.DigestErrors | src/util.rs:66-73 | any other text is no encoding, or that of another number of bytes, which the error names |
| Cid.ToBytes | src/main.rs:133-139 | the 36 bytes are the prefix and the hash |
| Cid.Print | src/main.rs:155-167 | the array that is filled and lowered in place is the printed form, 59 characters |
| Cid.Parse | src/main.rs:169-196 | the result is that of `Read`, the in-place path and the general decoder's path |
| Cid.ReadExactly | src/main.rs:172-188 | a 59-character text starting with `b` is read as a hash iff in lower case it is that hash's printed form |
| Cid.PrintedIsRead | src/main.rs:155-188 | every printed form is read back |
| Cid.PrintedStandsFor | src/main.rs:155-167 | the printed form is the letter and, in small letters and digits, the base32 text of version 1, raw, BLAKE3, 32 and the hash |
| Cid.ReadDecided | src/main.rs:141-196 | what any text is read as, the general decoder's included, and which of the four errors it gives |
| Tickets.TicketRoundTrip | src/provider.rs:804-815 | a ticket comes back from its bytes up to IPv6 flow label and scope, and whole iff there are none |
| Tickets.TicketText | src/provider.rs:817-834 | the same through its text, the base64url text of those bytes |
| Tickets.TicketBytes | src/provider.rs:793-802 | the bytes of a ticket: fields in order, both hashes behind a length, the bare token |
| Tickets.ParsedExactly | src/provider.rs:825-834 | a text is a ticket iff it is base64url and the bytes it stands for are one |
| Tickets.RefusedTicket | src/provider.rs:804-809 | no ticket with a peer that is no key, a hash of another length or an address of another kind |

## Left out

- System.Settle: the connection itself is not lost on the way; a client that is done may stop the provider's writes and a provider that is gone may stop a client that sends. Lost connections are covered for the provider by `Interleaving` and for the client by `Get.Run`.
- Refusals.UnansweredNeverOk: the client's callbacks read to a clean end, the database is one built from files, as every database of the program is, and contents in play do not collide.
- Shortened.EveryScheduleBreaks: the client's callbacks read to a clean end, and the single write takes the collection whole, which `DeliveryExactly` shows to be necessary for any delivery.
- Cid.Parse: the general multibase decoder for other texts is a parameter, because it belongs to another crate.
- Tickets.TicketRoundTrip: which 32 bytes are a valid public key is a parameter, because the check belongs to another crate.
- Text.RoundTrip: which symbol or length is wrong is not part of the decoding error.
- Bao: the encoder and decoder belong to another crate; leaf positions are counted in bytes and the hash is a parameter.
- Bao.ExtractFits: the slice extractor belongs to another crate; it is taken to read the first `size` bytes of the file chunk by chunk, to compare nothing with the file's length or hash, and to fail at the first chunk that the file does not have in full, everything before which has been copied.
- Streams.SendStream.WriteSome: how much the single write accepts is fixed per stream and given from outside.
- Database.ComputeOutboards: the files are read one after the other, not on a thread pool, and do not change while the database is built; afterwards they may differ, but not in the middle of a transfer.
- Names of files without an explicit name come from a function of the path, because they depend on the operating system.
- Endpoint setup, TLS, certificates, accepting connections and shutdown are library plumbing around a stream.
- The broadcast channel's capacity is not modelled: a log is what was sent, not what a slow subscriber sees.
- Relaxed memory ordering is modelled as interleaved atomic operations.
- Time measurement, throughput, tracing and the command line are left out.
- Large Dafny methods follow large source functions in several pieces (`run` is `SendRequest`, `ReceiveTotal`, `ReceiveCollection`, `ReceiveBlob`, `HandOver` and `Run`).
