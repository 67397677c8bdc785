# Soulrust: a verified model

A Dafny model of the parts of Soulrust that carry state, protocols or formats,
and proofs of what they keep. `dafny verify dfyconfig.toml` checks all of it.

| file | what it models |
|---|---|
| `RateLimiting.dfy` | the token bucket that all transfers in one direction share |
| `TransferIo.dfy` | the chunked copy, both ends of the offset handshake, resumed attempts |
| `Sharing.dfy` | any number of copies taking turns on one limiter |
| `Bytes.dfy`, `Utf8.dfy`, `Wire.dfy` | little-endian integers, UTF-8, the cursor and the primitive codec |
| `ShareTree.dfy`, `PeerMessages.dfy` | the share tree and every peer message that has an encoder |
| `Frame.dfy` | framing and the socket read loop |
| `Varint.dfy`, `Protobuf.dfy` | base-128 varints, the bus framings, the size-cached protobuf codec |
| `Search.dfy`, `SearchResponse.dfy`, `Shares.dfy` | search terms, query evaluation, ranking, the index being built |
| `Actors.dfy` | actors over bounded channels, as a step system, and their freedom from deadlock |
| `Progress.dfy` | runs of finite handlers end, with every message handled |
| `Deadlocks.dfy` | the deadlocks that every cycle of sends admits, of asks and of events |

How the parts are stated:

- A codec is a grammar of pure readers and byte-sequence encoders. The cursor
  (`Wire.Reader`), the buffers and the loops over them are imperative and are
  proved to follow the grammar; what the format promises is proved of the
  grammar.
- Lengths are unbounded and every narrowing cast of the source is written out,
  so results that need a length below 2^32 say so, and where a cast breaks a
  round trip the exact condition is proved. `usize` is 64 bits wide.
- Time, rates and allowances are exact reals in place of `f64`. The mutex of a
  limiter makes the acquires of all transfers one sequence. A sleep resumes no
  earlier than it is due.
- Streams and files are byte sequences. A read returns any number of bytes, a
  write may stop part-way, a flush may lose what was buffered, and any of them
  may fail at any point unless its end is marked reliable.
- A write leaves a stamp, of how long its destination then was and when it was
  made, so that what was written by a given time can be held against what the
  limiter had released by then.
- An uploader learns nothing of a downloader but the eight offset bytes, so one
  attempt is its uploading half followed by its downloading half, with any tail
  of either direction lost between them.
- The generated protobuf code is the same code for every message with its
  fields unrolled. It is modelled once, as an interpreter of message schemas,
  and the schemas of the search and transfer messages are given. How the
  `buffa` library reads a varint (at most ten groups and 64 bits), narrows a
  32-bit field and limits nesting (the `depth` parameter) is not in the
  repository and follows the Protocol Buffers encoding guide.
- The library's size cache is modelled from its use: a slot is reserved, filled
  by its number, and slots are consumed in order.
- zlib is a pair of functions of which one undoes the other, with the cap on
  the inflated size kept. Lower-casing, white space and the splitting of paths
  into words are functions supplied from outside.
- Paths compare by their UTF-8 bytes, as Rust strings do. Iterating over a hash
  map or set is an arbitrary choice at every step.
- An actor's handlers and a client's program are arbitrary sequential code,
  given by what they do next from each local state. A handler may give up on a
  send or an ask at any point and go on, and a task may go away at any point, and
  its inbox with it. A deadlock is a state with work left in which
  nothing can happen but giving up and going away.

## Where the code departs from what is said of it

- The actor crate advises to break request cycles by sending events instead
  (crates/actor_messenger/src/lib.rs:69-75). Events wait for room in a full
  inbox, so along every cycle events alone can deadlock, whatever the capacity:
  `Deadlocks.EventCyclesDeadlock`. What does suffice is that no task can send
  to itself through any chain of sends (`Actors.DeadlockFree`), and, clients
  aside, nothing less does.

## How long a transfer waits

With m transfers that each sleep off one wait before they acquire again, no wait
exceeds m chunks over the rate (`RateLimiting.WaitingBound`,
`Sharing.CopyTogether`). Sleeping is sufficient, not necessary: a wait is
within any given bound exactly when neither the whole history nor, a second's
burst aside, any window of it, the new acquire included, exceeds the rate by
more than the bound earns (`RateLimiting.WaitExactly`). A wait that is cancelled keeps its debit, so n
acquires at one moment wait for n chunks (`RateLimiting.CancelledWaitsAddUp`).

## Model

| member | source | states |
|---|---|---|
| RateLimiting.RateLimiter.SetRate | crates/soulrust/src/components/transfer_io.rs:48-50 | A new rate keeps the allowance and the clock, and starts a history of its own |
| RateLimiting.RateLimiter.Acquire | crates/soulrust/src/components/transfer_io.rs:55-77 | Unlimited when the rate is 0; otherwise the wait ends exactly when the history of acquires makes it due, and there is one just when the allowance is negative |
| RateLimiting.Conservation | crates/soulrust/src/components/transfer_io.rs:65-70 | Over any history, the allowance plus all bytes taken never exceeds what was there plus what the elapsed time earned |
| RateLimiting.Throughput | crates/soulrust/src/components/transfer_io.rs:55-77 | The bytes admitted up to and including any acquire never exceed the rate times its due time since creation |
| RateLimiting.WindowThroughput | crates/soulrust/src/components/transfer_io.rs:55-77 | Between any two acquires no more than one second's worth is admitted beyond the rate |
| RateLimiting.DueMonotone | crates/soulrust/src/components/transfer_io.rs:55-77 | Each further acquire in lock order is due no earlier than the one before |
| RateLimiting.DueInOrder | crates/soulrust/src/components/transfer_io.rs:55-77 | Over a whole history due times never decrease in lock order |
| RateLimiting.ReleaseBound | crates/soulrust/src/components/transfer_io.rs:55-77 | At no moment have more bytes been released than the rate allows by then |
| RateLimiting.DebtIsUnpaid | crates/soulrust/src/components/transfer_io.rs:55-77 | At any moment the debt left is covered by acquires not yet due for release |
| RateLimiting.WaitingBound | crates/soulrust/src/components/transfer_io.rs:55-77 | With one outstanding acquire of at most a chunk for each of m transfers, no delay exceeds m chunks over the rate |
| RateLimiting.DebtExactly | crates/soulrust/src/components/transfer_io.rs:55-77 | For every history whatever: the debt is at most x exactly when the bytes since creation, and those since each acquire beyond one second's worth, exceed what was earned by at most x |
| RateLimiting.WaitExactly | crates/soulrust/src/components/transfer_io.rs:55-77 | A wait is within a bound exactly when no window of the history exceeds the rate by more than the bound earns, so none waits longer than some window demands |
| RateLimiting.ChunksExactly | crates/soulrust/src/components/transfer_io.rs:55-77 | The bound of one chunk for each of m transfers holds of an acquire exactly when every window is within m chunks of the rate, slept off or not |
| RateLimiting.CancelledWaitsAddUp | crates/soulrust/src/components/transfer_io.rs:55-77 | n acquires of one transfer at one moment leave the last exactly n chunks to wait for, so cancelled waits break the bound that sleeping gives |
| TransferIo.OthersAcquire | crates/soulrust/src/components/transfer_io.rs:79-97 | Other transfers may take from the process-wide limiter any number of times, of any size and at any moment |
| TransferIo.Turn | crates/soulrust/src/components/transfer_io.rs:119-136 | One turn of the loop, on a limiter others have taken from, keeps: bytes read, admitted to this transfer, written and reported agree, in order, each of its acquires follows the end of its previous wait, and nothing is written before it is due |
| TransferIo.CopyExact | crates/soulrust/src/components/transfer_io.rs:109-137 | Under any short reads, faults and acquires of other transfers: exactly the first `len` bytes in order, nothing past them consumed, early end of the source reported with all of it written, progress strictly rising to the end, every byte admitted to this transfer in chunks of at most 64 KiB, each after the previous wait, and written no earlier than it was due |
| TransferIo.WritesAreWithinRate | crates/soulrust/src/components/transfer_io.rs:55-137 | At no write has a transfer put more on its way than its limiter's rate allows by then |
| Sharing.EveryWaitIsBounded | crates/soulrust/src/components/transfer_io.rs:55-77 | When the grants of each of m copies are paced, whatever the others were granted in between, no acquire waits longer than m chunks over the rate |
| Sharing.CopyTogether | crates/soulrust/src/components/transfer_io.rs:79-137 | In every interleaving of m copies on one limiter each that ends has all that a copy promises: exact bytes, rising reports up to date with them, and its own metering and pacing; each has one acquire outstanding, no wait exceeds m chunks over the rate, and at no time have all the copies together, ended or not, written more than the rate allows |
| Sharing.AllWritesAreWithinRate | crates/soulrust/src/components/transfer_io.rs:79-97 | The cap is on the sum: what any number of copies have written by any time is together within the rate, though each is metered on its own |
| TransferIo.StreamFromOffset | crates/soulrust/src/components/transfer_io.rs:164-191 | Sends exactly the file from the requested offset to the size; refuses an offset past the size before sending or taking anything; every byte sent is admitted by the limiter passed in, paced, and written no earlier than due; success leaves nothing buffered, and comes, when nothing fails, just when the file is long enough |
| TransferIo.Upload | crates/soulrust/src/components/transfer_io.rs:145-157 | The token comes first, and no part of the request is read before it is out; the wire holds a prefix of the token followed by the rest of the file, all of it and flushed on success; the file's bytes are metered as in `StreamFromOffset`, with the bytes admitted exactly those missing on success |
| TransferIo.Download | crates/soulrust/src/components/transfer_io.rs:199-226 | The offset goes out before anything is read; the sink only ever gains a prefix of what arrives, at most the missing bytes are taken from the connection, and all is on disk on success and when the peer ends early; success means exactly the missing bytes, each admitted by the limiter passed in and written no earlier than due, and comes, when nothing fails, just when enough arrives |
| TransferIo.ServeUpload | crates/soulrust/src/components/transfer_io.rs:145-191 | Whatever is lost in either direction, what reaches the downloader is a prefix of the bytes it asked for, each charged to the upload limiter |
| TransferIo.ReceiveToDisk | crates/soulrust/src/components/peer_net.rs:2135-2137 | The download into the opened file only adds to it, keeps the disk a prefix of the shared file, charges what it adds to the download limiter, and completes and persists the file on success |
| TransferIo.Attempt | crates/soulrust/src/components/peer_net.rs:2120-2137 | An attempt resumes: a partial file is only ever added to, and success charges each limiter exactly the bytes that were missing; a file of the size or longer starts afresh; any interruption leaves a prefix of the file; success leaves exactly its first `size` bytes, persisted; an attempt in which nothing fails succeeds |
| TransferIo.Fetch | crates/soulrust/src/components/peer_net.rs:2120-2137 | Over any sequence of attempts, whatever was lost on the way or on the disk, the partial file stays a prefix, the first to succeed completes and persists it, and one in which nothing fails suffices when the file is long enough |
| Utf8.DecodeEncode | crates/soulseek-proto/src/wire.rs:122-130 | The UTF-8 form of every string is valid and decodes to that string |
| Utf8.EncodeDecode | crates/soulseek-proto/src/wire.rs:122-130 | Valid UTF-8 is the encoding of what it decodes to |
| Wire.StringRoundTrip | crates/soulseek-proto/src/wire.rs:158-161 | A string survives writing and reading exactly when its UTF-8 form is shorter than 2^32 bytes |
| Wire.TextIsStable | crates/soulseek-proto/src/wire.rs:122-130 | Bytes that are not UTF-8 are read one character for each byte, of the byte's own number; any bytes, decoded, encoded and decoded again, give the same string, and come back just when they were valid UTF-8 |
| Wire.LittleEndian | crates/soulseek-proto/src/wire.rs:69-104 | Integers are read with their least significant byte first, and any byte but 0 is true |
| Wire.ReadFileSizeInverts | crates/soulseek-proto/src/wire.rs:93-100 | An encoded size is read back, reduced to its low 32 bits when its top byte is 255 |
| Wire.ListInverts | crates/soulseek-proto/src/peer_message.rs:177-184 | A count-prefixed list of elements that read back reads back |
| Wire.TruncationIsEof | crates/soulseek-proto/src/wire.rs:57-67 | Cutting into what a local reader consumed always fails with the end-of-input error |
| Wire.Reader.TakeBytes | crates/soulseek-proto/src/wire.rs:57-67 | The cursor hands out the next bytes or reports how many were needed and left, without moving |
| ShareTree.DecodeFile | crates/soulseek-proto/src/peer_message.rs:147-162 | The cursor reads a file as the grammar does, with the same error and the same bytes left |
| ShareTree.DecodeFiles | crates/soulseek-proto/src/peer_message.rs:177-184 | The loop over the cursor reads the list the grammar describes |
| ShareTree.DecodeDirectories | crates/soulseek-proto/src/peer_message.rs:193-207 | The nested loops over the cursor read the tree the grammar describes |
| ShareTree.WriteFile | crates/soulseek-proto/src/peer_message.rs:164-174 | Appends exactly the bytes of a file that `FileInverts` reads back, after whatever the buffer held |
| ShareTree.WriteFiles | crates/soulseek-proto/src/peer_message.rs:186-191 | Appends the encoding of a file list |
| ShareTree.WriteDirectories | crates/soulseek-proto/src/peer_message.rs:209-215 | Appends the encoding of a tree |
| ShareTree.FileInverts | crates/soulseek-proto/src/peer_message.rs:147-174 | A written file is read back with its size normalised, whatever follows |
| ShareTree.DirectoriesInvert | crates/soulseek-proto/src/peer_message.rs:193-215 | A written tree is read back with separators canonical and sizes normalised, whatever follows |
| ShareTree.NormalDirectoriesFixed | crates/soulseek-proto/src/peer_message.rs:193-215 | Normalising twice changes nothing more |
| ShareTree.ReadDirectoriesIsNormal | crates/soulseek-proto/src/peer_message.rs:193-207 | A tree read from any bytes whatever is in normal form |
| ShareTree.TreeIsLocal | crates/soulseek-proto/src/peer_message.rs:193-207 | Appended bytes never change a parsed tree, and any shorter prefix fails with end of input |
| ShareTree.TreeOnlyEof | crates/soulseek-proto/src/peer_message.rs:193-207 | Running out of bytes is the only way a tree fails to parse |
| ShareTree.TreeIsPaidFor | crates/soulseek-proto/src/peer_message.rs:193-207 | A parsed tree consumed at least 4 bytes plus 8 for each directory, 21 for each file and 8 for each attribute, whatever its counts claim |
| PeerMessages.TailInverts | crates/soulseek-proto/src/peer_message.rs:116-128 | The absent, unknown-only and unknown-plus-list tails are all read correctly, whatever the unknown field holds |
| PeerMessages.UserInfoInverts | crates/soulseek-proto/src/peer_message.rs:380-426 | User information reads back exactly when its picture is within the cap |
| PeerMessages.TransferRequestInverts | crates/soulseek-proto/src/transfer.rs:70-92 | A request reads back with its size present just for uploads, whatever follows |
| PeerMessages.TransferResponseInverts | crates/soulseek-proto/src/transfer.rs:107-136 | A response reads back with a size or a reason as its flag allows |
| PeerMessages.BodyInverts | crates/soulseek-proto/src/peer_message.rs:449-509 | Every variant's body decodes to its normal form, unless it carries too large a picture |
| PeerMessages.FrameArrives | crates/soulseek-proto/src/peer_message.rs:452-508 | On a connection of any frame cap below 2^32, a framed message is split off and decoded to its normal form exactly when it is within the frame, inflation and picture caps |
| PeerMessages.DistinctFrames | crates/soulseek-proto/src/peer_message.rs:452-508 | Messages with different normal forms have different frames |
| PeerMessages.NormalIsFixed | crates/soulseek-proto/src/peer_message.rs:452-508 | Encoding and decoding again changes nothing more |
| PeerMessages.DecodedIsNormal | crates/soulseek-proto/src/peer_message.rs:452-508 | A message decoded from any bytes whatever is in normal form |
| PeerMessages.ForwardedArrivesUnchanged | crates/soulseek-proto/src/peer_message.rs:452-508 | A message decoded from any payload and sent on arrives unchanged exactly when it is within the caps |
| PeerMessages.WireCodes | crates/soulseek-proto/src/peer_message.rs:14-22 | Each variant has its own number on the wire, and just share lists, search responses and folder contents travel compressed |
| PeerMessages.LeftoversAreIgnored | crates/soulseek-proto/src/peer_message.rs:452-508 | Bytes that follow a request, a path or a pair make no difference |
| PeerMessages.BrokenStreamsAreRefused | crates/soulseek-proto/src/peer_message.rs:217-244 | A compressed body is refused just when it inflates past the cap or its stream is broken, each with its own error; no other message depends on zlib |
| PeerMessages.UnknownIsKept | crates/soulseek-proto/src/peer_message.rs:500-506 | A payload becomes an unknown message, its body whole, exactly when its number is none of the fourteen; fewer than four bytes are refused |
| PeerMessages.AbsentFieldIsZero | crates/soulseek-proto/src/peer_message.rs:399-425 | User information that ends before or within its last field reads with that field 0 |
| PeerMessages.DirectionsAreKnown | crates/soulseek-proto/src/transfer.rs:41-56 | Direction 0 asks for a download, 1 offers an upload with its size, and any other is refused by its number |
| PeerMessages.Decode | crates/soulseek-proto/src/peer_message.rs:452-508 | The decoder over the cursor agrees with the grammar on every payload, errors included |
| PeerMessages.DecodeSharedFileList | crates/soulseek-proto/src/peer_message.rs:116-128 | Reads the tree and its optional private part as the grammar does |
| PeerMessages.DecodeFileSearchResponse | crates/soulseek-proto/src/peer_message.rs:260-283 | Reads a search response and its optional private files as the grammar does |
| PeerMessages.DecodeFolderContents | crates/soulseek-proto/src/peer_message.rs:336-345 | Reads folder contents as the grammar does |
| PeerMessages.DecodeUserInfoResponse | crates/soulseek-proto/src/peer_message.rs:399-425 | Reads user information, its picture cap and its optional last field as the grammar does |
| PeerMessages.DecodeTransferRequest | crates/soulseek-proto/src/transfer.rs:82-92 | Reads a transfer request, whose size is there just for uploads, as the grammar does |
| PeerMessages.DecodeTransferResponse | crates/soulseek-proto/src/transfer.rs:124-136 | Reads a transfer response and its flag-dependent tail as the grammar does |
| PeerMessages.ToFrame | crates/soulseek-proto/src/peer_message.rs:134-142 | The buffer built is the frame that the round-trip results are about |
| Frame.BuildFrameU32 | crates/soulseek-proto/src/frame.rs:80-86 | The buffer built is the frame of the code's four bytes and the body |
| Frame.BuildFrameU8 | crates/soulseek-proto/src/frame.rs:89-95 | The buffer built is the frame of the code's one byte and the body |
| Frame.SplitInvertsFraming | crates/soulseek-proto/src/frame.rs:57-69 | A frame is split off, with what follows it left over, exactly when its payload is within the cap |
| Frame.OversizedExactly | crates/soulseek-proto/src/frame.rs:57-69 | On a connection of any cap a declared length is refused exactly when it is over the cap, before any of its payload has come; one within the cap waits for its last byte |
| Frame.DrainExtends | crates/soulrust/src/components/net_edge.rs:152-167 | More bytes leave frames already found and any bad frame as they were |
| Frame.PendingIsUndelivered | crates/soulrust/src/components/net_edge.rs:152-167 | What is pending is always the undelivered end of the stream |
| Frame.FramesComeOutInOrder | crates/soulrust/src/components/net_edge.rs:152-167 | Frames sent back to back come out as the same payloads in order |
| Frame.BadFrameIsReported | crates/soulrust/src/components/net_edge.rs:152-167 | After any frames within the cap, a declared length over it ends the stream as a bad frame with those frames delivered, whatever follows |
| Frame.PartialFrameIsPending | crates/soulrust/src/components/net_edge.rs:152-167 | After any frames within the cap, part of one more is kept pending and nothing is bad |
| Frame.DeliverFrames | crates/soulrust/src/components/net_edge.rs:152-167 | The inner loop delivers what parsing everything received at once would, and stops at the first bad frame |
| Frame.ReadLoop | crates/soulrust/src/components/net_edge.rs:137-173 | Deliveries and verdict are those of parsing the concatenation of all chunks at once: closed, or a bad frame just when the stream has one (`BadFrameIsReported`) |
| Frame.SameForEveryChunking | crates/soulrust/src/components/net_edge.rs:137-173 | Two chunkings of one stream deliver the same payloads and the same verdict |
| Varint.VarintLen | crates/soulrust-proto/src/lib.rs:115-122 | The exact length of the base-128 form of every 64-bit value |
| Varint.VarintInverts | crates/soulrust-proto/src/lib.rs:115-122 | Every 64-bit varint is read back, whatever follows |
| Varint.ReadVarintExactly | crates/soulrust-proto/src/lib.rs:126-131 | A varint is read exactly when one of its first ten groups is its last, the tenth holding one bit |
| Varint.WriteDelimited | crates/soulrust-proto/src/lib.rs:152-155 | Fills the front of the bus buffer with the framed body and leaves the rest alone |
| Varint.WritePrefixed | crates/soulrust-proto/src/lib.rs:190-194 | Fills the front of the bus buffer with the prefixed body and leaves the rest alone |
| Varint.DelimitedSize | crates/soulrust-proto/src/lib.rs:147-150 | The size announced is the number of bytes written |
| Varint.PaddingIsIgnored | crates/soulrust-proto/src/lib.rs:139-195 | Either framing gives the body back whatever padding follows, the prefixed one exactly when the body is shorter than 2^32 bytes |
| Varint.CutBodyIsRefused | crates/soulrust-proto/src/lib.rs:139-195 | Whatever is missing from the end of a framed body, both framings refuse it |
| Protobuf.ComputeSize | crates/soulrust-proto/generated/api_buffa/soulrust.api.v1.api.rs:2493-2525 | The size is that of the naive encoding, and the sizes of all nested messages are left in the cache, each before those inside it |
| Protobuf.ItemsSize | crates/soulrust-proto/generated/api_buffa/soulrust.api.v1.api.rs:2762-2776 | Reserving, recursing and setting fills a repeated field's slots in pre-order |
| Protobuf.WriteTo | crates/soulrust-proto/generated/api_buffa/soulrust.api.v1.api.rs:2526-2585 | Given the sizes next in the cache, writes the naive encoding and consumes just those |
| Protobuf.WriteItems | crates/soulrust-proto/generated/api_buffa/soulrust.api.v1.api.rs:2777-2794 | Every nested length prefix taken from the cache is the length of the message after it |
| Protobuf.EncodeToVec | crates/soulrust-proto/generated/api_buffa/soulrust.api.v1.api.rs:3615-3664 | The two passes write the naive encoding, its length is the computed size, and every slot filled is consumed |
| Protobuf.Draft.MergeField | crates/soulrust-proto/generated/api_buffa/soulrust.api.v1.api.rs:2586-2675 | Merging a field in place agrees with the decoder as a function, wire-type errors and unknown fields included |
| Protobuf.Draft.MergeAll | crates/soulrust-proto/generated/api_buffa/soulrust.api.v1.api.rs:2283-2352 | Merging a whole buffer in place agrees with the decoder as a function, with field numbers out of range refused |
| Protobuf.MergeCombines | crates/soulrust-proto/generated/api_buffa/soulrust.api.v1.api.rs:2004-2091 | Merging an encoded message into any message combines the two and goes on with what follows |
| Protobuf.RoundTrip | crates/soulrust-proto/generated/api_buffa/soulrust.api.v1.api.rs:2794-2824 | Decoding the encoding of any nested message gives it back, default fields omitted or not |
| Protobuf.LastOneWins | crates/soulrust-proto/generated/api_buffa/soulrust.api.v1.api.rs:2004-2091 | Two encodings in a row decode to the last non-default scalars and the concatenated repeated fields |
| Protobuf.DecodedSurvives | crates/soulrust-proto/generated/api_buffa/soulrust.api.v1.api.rs:2586-2675 | What was decoded from any bytes whatever, unknown fields and all, is decoded again from its own encoding |
| Protobuf.MergedIsTyped | crates/soulrust-proto/generated/api_buffa/soulrust.api.v1.api.rs:2586-2675 | Merging any bytes into a well-typed message leaves every field of its kind and in range, and unknown fields ones that can be written |
| Protobuf.ReadScalarsAreCast | crates/soulrust-proto/generated/api_buffa/soulrust.api.v1.api.rs:2988-3706 | A varint read into a narrower kind keeps its low 32 bits, as a signed number for an enum; any but 0 is true |
| Protobuf.NegativesTakeTenGroups | crates/soulrust-proto/generated/api_buffa/soulrust.api.v1.api.rs:2988-3706 | A negative enum value is sign-extended to 64 bits and takes ten groups |
| Protobuf.ForbiddenNumbersAreRefused | crates/soulrust-proto/generated/api_buffa/soulrust.api.v1.api.rs:2586-2675 | A tag whose field number is 0 or has more than 29 bits is refused |
| Protobuf.WrongWireIsRefused | crates/soulrust-proto/generated/api_buffa/soulrust.api.v1.api.rs:2586-2675 | A field on the wrong wire type is refused with its number, the expected type and the one found |
| Protobuf.BadContentIsRefused | crates/soulrust-proto/generated/api_buffa/soulrust.api.v1.api.rs:2586-2675 | Text that is not UTF-8, and messages nested past the limit, are refused |
| Protobuf.BadUnknownIsRefused | crates/soulrust-proto/generated/api_buffa/soulrust.api.v1.api.rs:2671-2674 | An unknown field needs all its bytes, and is refused on a group or unassigned wire type |
| Protobuf.BusDelivers | crates/soulrust-proto/src/lib.rs:139-156 | A message written to the bus is decoded from it whatever padding follows |
| Protobuf.PaddingIsRefused | crates/soulrust-proto/src/lib.rs:126-131 | Without framing, a zero byte of padding after any message makes its decoding fail |
| Protobuf.FileSchemasAreValid | crates/soulrust-proto/generated/api_buffa/soulrust.api.v1.api.rs:1929-2352 | The results hold of result files and search results, whose tags are one byte as the sizes assume |
| Protobuf.SearchSchemasAreValid | crates/soulrust-proto/generated/api_buffa/soulrust.api.v1.api.rs:2493-2824 | The results hold of searches, whose tags are one byte as the sizes assume |
| Protobuf.TransferSchemasAreValid | crates/soulrust-proto/generated/api_buffa/soulrust.api.v1.api.rs:2988-3706 | The results hold of downloads, uploads and transfers, whose tags are one byte as the sizes assume |
| Search.SanitizeSearchTerm | crates/soulrust/src/search_response.rs:49-65 | Classifies the words of a term into the lists the next row determines |
| Search.TermsAreSplitAtSpaces | crates/soulrust/src/search_response.rs:49-65 | White space separates, each word is classified by its first character alone, and a bare mark is dropped |
| Search.EndsWithMeans | crates/soulrust/src/search_response.rs:113 | A word has a suffix exactly when it is something followed by the suffix |
| Search.AddToBuckets | crates/soulrust/src/search_response.rs:112-118 | One word extends the bucket of every suffix it ends with, by the candidates it lists |
| Search.FillBuckets | crates/soulrust/src/search_response.rs:108-119 | One pass over the vocabulary in any order leaves in each bucket exactly the candidates listed under a word with that suffix |
| Search.CreateSearchResultList | crates/soulrust/src/search_response.rs:70-139 | The result is exactly the set of matching ids, or nothing when there are none or no word is included, for every iteration order; a lone word gives the ids at the front of its list |
| SearchResponse.SelectByPath | crates/soulrust/src/search_response.rs:152-164 | Selecting, truncating and sorting keeps the smallest ids by path in path order, whatever order the set came in |
| SearchResponse.SelectionIsUnique | crates/soulrust/src/search_response.rs:152-164 | With distinct paths that selection is the front of the fully sorted list |
| SearchResponse.FirstDifferenceDecides | crates/soulrust/src/search_response.rs:158-164 | Paths are in ascending order of their first byte that differs, and a path comes before its extensions |
| SearchResponse.CreateFileInfoList | crates/soulrust/src/search_response.rs:145-176 | Equals sorting all candidates by path, taking the first, then dropping excluded phrases |
| SearchResponse.ContainsAnywhere | crates/soulrust/src/search_response.rs:172 | A path contains a phrase exactly when it is something, the phrase, and something |
| SearchResponse.Respond | crates/soulrust/src/search_response.rs:180-191 | Every response is within the cap, in path order, and the selection from the candidates with excluded phrases dropped; each file has the whole path, size and attributes of a selected entry, and no extension |
| SearchResponse.ResponseIsExact | crates/soulrust/src/search_response.rs:180-191 | When the matches fit the cap and lists have no duplicates, a response holds exactly the matching files without an excluded phrase, each with its path, size and attributes |
| Shares.Builder.AddFile | crates/soulrust/src/shares/mod.rs:92-103 | Indexing a file's words keeps every list ascending and holding exactly the files with its word, up to 2^32 files |
| Shares.SearchMeans | crates/soulrust/src/search_response.rs:180-191 | On a built index a query finds exactly the files whose path has every included word, a word with each suffix and no excluded word, and lists have no duplicates |
| Actors.StepKeepsSound | crates/actor_messenger/src/lib.rs:139-196 | Every step keeps inboxes bounded, the enqueued messages accounted for in order, and the state the fold of the handlers run |
| Actors.StepKeepsLinked | crates/actor_messenger/src/lib.rs:139-196 | Every step keeps reply channels single-use, replies results of handlers, and each sender's messages in order |
| Actors.InboxesAreBounded | crates/actor_messenger/src/lib.rs:174-178 | In every run no inbox exceeds its capacity |
| Actors.ActorsAreSerial | crates/actor_messenger/src/lib.rs:180-196 | In every run an actor's state is the fold of its handlers over the messages in the order they were enqueued |
| Actors.RepliesAreSerial | crates/actor_messenger/src/lib.rs:148-157 | Each reply is one ask's, computed from the state that exactly the messages enqueued before it leave |
| Actors.AskersGetTheirReplies | crates/actor_messenger/src/lib.rs:148-157 | A waiting asker goes on with the very reply computed for its ask, from the state the messages enqueued before it leave, or, if the actor has gone without one, with word that it stopped |
| Actors.SendersAreToldTheTruth | crates/actor_messenger/src/lib.rs:139-157 | A sender is told its message was sent exactly when it is now last in the inbox; told otherwise, nothing is in any inbox |
| Actors.AsksAreAnsweredOnce | crates/actor_messenger/src/lib.rs:188-194 | No ask is answered by two handler runs, in one actor or in two |
| Actors.RepliesAreFinal | crates/actor_messenger/src/lib.rs:188-194 | A reply once sent keeps its value through every later step |
| Actors.EarlierSendsAreSeen | crates/actor_messenger/src/lib.rs:139-157 | By the time a message is handled, so is everything its sender sent there before it |
| Actors.AcyclicLeadsOut | crates/actor_messenger/src/lib.rs:69-75 | Without a cycle of sends, every set of tasks has one that sends to none of them |
| Actors.DeadlockFree | crates/actor_messenger/src/lib.rs:69-75 | Without a cycle of sends, in every state of every run with something left to do some task can take a step |
| Progress.EverythingCosts | crates/actor_messenger/src/lib.rs:139-196 | Whatever happens, steps, giving up or a task going away, the weight of all that is left to do goes down: a message weighs more than anything it can lead to further down |
| Progress.RunsAreBounded | crates/actor_messenger/src/lib.rs:69-75 | Without a cycle of sends, and with handlers and programs that finish within some number of inputs, there is a bound on the length of all runs |
| Progress.EverythingIsHandled | crates/actor_messenger/src/lib.rs:180-196 | Where a run can go no further, every message ever put in a living task's inbox has been handled |
| Progress.RunsCanBeFinished | crates/actor_messenger/src/lib.rs:180-196 | Every run can be carried on to such an end by moves alone |
| Deadlocks.CyclesDeadlock | crates/actor_messenger/src/lib.rs:69-75 | Along every cycle of sends, asks can deadlock with one client added, whatever the capacity of inboxes |
| Deadlocks.EventCyclesDeadlock | crates/actor_messenger/src/lib.rs:139-147 | Along every cycle of sends, events alone can deadlock with only clients added, whatever the capacity of inboxes, since a full inbox holds up its senders |
| Deadlocks.ClientsAddNoCycle | crates/actor_messenger/src/lib.rs:69-75 | Clients, which nobody sends to, add no cycle, so having none is exactly what deadlock freedom takes |

## Left out

- The bounds on rate limiting are stated for one rate: `acquire` applies the current rate to the whole interval since the last acquire, so a change of rate re-prices time already past.
- Protobuf.ComputeSize: messages are under 2 GiB, the limit the generated code documents; the 32-bit sums overflow beyond 4 GiB.
- Protobuf.Merge: groups among unknown fields are refused, because how the library keeps them is not in the repository.
- Protobuf.Draft.MergeField: what a draft holds after a failed merge is not stated; the decoders above it drop it.
- Varint.ReadPrefixed: a buffer too short for its prefix, on which the source panics, is malformed input.
- Shares.Builder.AddFile: past 2^32 files ids wrap around and nothing is claimed; the maps from folders and from whole paths to ids are not part of searching.
- TransferIo.ReceiveToDisk: creating directories and the final rename are not modelled; where an attempt resumes and how it opens the file are part of `Attempt`.
- TransferIo.OthersAcquire: what other transfers do is arbitrary but finite between two turns of a loop.
- Sharing.CopyTogether: all copies run at one rate from a limiter with no debt; each has its own source, destination and progress.
- SearchResponse.SelectNth: the standard library's selection is known by its contract alone, of which sorting is one implementation.
- TransferIo.ByteSink.Flush: what survives a failed flush is any prefix that holds what was durable before; real disks and files under other writers are not modelled.
- Handlers that never finish: for these, deadlock freedom says some task can step, not that every message is handled in the end.
- Actors: a task ends by going away at an arbitrary point; ending because all its handles were dropped is not told apart, as nothing can be sent to it any more.
- `SearchFilter`, the reader's 16-bit and address fields, `put_u16` and `put_ipv4` would add only easy members.
- Server, distributed and peer-init messages, JSON forms and views of the generated code, and the rest of the API messages: more instances of the same codecs.
- Sockets, tasks, the disk, configuration, the updater, the API server and the frontend: input and output around the logic modelled here.
