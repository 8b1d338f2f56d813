# Alligator: verified models

Alligator is a metrics agent written in C. This project models its hand-written protocol and scheduling code in
Dafny and proves what that code is meant to guarantee, for all inputs and all runs:

- **the gRPC client over HTTP/2** (`src/common/http2_grpc.c`): frames, HPACK with its Huffman code and dynamic table,
  send and receive flow control, incremental parsing, response parsing, request building
  (`Bits`, `HuffmanCode`, `CanonicalCode`, `HuffmanTable`, `HuffmanOrder`, `HpackInt`, `HpackTable`, `HpackBlock`,
  `HpackWire`, `HpackSpill`, `HpackAppendix`, `HpackStrict`, `H2Frame`, `H2Flow`, `H2Response`, `GrpcResponse`,
  `H2Feed`, `H2Client`, `H2Request`, and what the frames themselves say: `H2Effects`, `GrpcExact`, `RequestMeaning`);
- **the HTTP rate limiter** (`src/common/http_limit.c`): one bucket, the bounded slot table, several rules deciding
  together, bucket ids (`Gcra`, `LimitTable`, `HttpLimit`, `LimitPath`, `LimitId`, `LimitClient`, `LimitCase`);
- **bound authorization tokens** (`src/common/authorize.c`): `LengthPrefix`, `GrowingBuffer`, `Authorize`;
- **cluster replication** (`src/cluster`): the per-peer log, placement of copies, the peer search
  (`Oplog`, `Placement`, `PeerSearch`, `Cluster`);
- **the DevTools crawler** (`src/chromecdp`): page life cycle, pending requests, crawl slots and deadlines
  (`Crawler`, `CrawlerSafety`, `CrawlerProgress`, `CrawlerLists`, `CrawlerClient`, `CrawlerScript`,
  `CrawlerFill`);
- **checksums and percent-encoding** (`src/common/crc32.c`, `src/common/http.c`): `Crc32`, `UrlCode`.

Each component has a specification on values, on which the properties over whole runs are proved. Code that works by
changing things in place is a class or a method with loops, proved to do what the specification says. What the program
cannot choose is a parameter: outcomes of writes and allocations, the clock, responses and events in any order, the
keyed hash, the shared server hash.

`dafny verify dfyconfig.toml` checks the whole project.

## What the code does that its documents or the standards do not say

- The Huffman decoder accepts up to 29 one-bits of padding and an embedded end-of-string code, where section 5.2 of
  RFC 7541 allows fewer than 8 and no such code. `HuffmanTable.HuffmanExact` gives the exact set.
- A Huffman string whose text has exactly the size of its destination (256 bytes for a name, 1024 for a value) is
  accepted and its terminator is written one byte behind the destination. `HpackBlock.SpillsExactly` gives the exact
  condition and `HpackSpill.FillingBlockSpills` such a block.
- The client's dynamic table ignores byte sizes and size updates. `HpackWire.WireAgrees` shows that it still reports the
  standard's headers if and only if every name, value and index keeps within its limits, and how it ends otherwise.
- A request whose body fits the default window of 65535 bytes is not attached, so its windows are never charged: a lawful
  WINDOW_UPDATE may then be refused and the stream ended (`H2Flow.FillingUpdateRefused`, `H2Feed.LawfulGrantResets`).
  `H2Flow.GrantsAccepted` shows that all lawful grants are accepted if and only if the body is empty or longer.
- The Retry-After of a refused request is that of the first denying rule; the table of a later rule may be full
  (`LimitCase.AnnouncedSecondIsNotEnough`). `HttpLimit.AnnouncedWait` gives the exact condition for the wait to suffice.
- A replica factor of zero loses every metric that is taken in by another node than its primary (`Placement.FactorZero`);
  a factor larger than the number of servers puts several copies on one server (`Placement.TargetsDiffer`).
- A request for which the pending entry cannot be allocated is counted in flight for ever: its page is not reported
  before its deadline, and only the deadline or a lost connection releases it (`CrawlerSafety.LostPageStays`, and
  `CrawlerSafety.LostPageOccurs` for a run that gets there).
- Percent-decoding uses its variable unset when the first escape cannot be read (`UrlCode.UnsetExactly`), as in
  the text of `UrlCode.UnreadableEscape`.

## Model

| member | source | states |
|---|---|---|
| `HuffmanCode.ParseSound` | src/common/http2_grpc.c:256-301 | every parse splits its bits into the codes of its symbols and a remainder that begins no code |
| `HuffmanCode.ParseEncode` | src/common/http2_grpc.c:256-301 | for any prefix-free code, the encoding of a string followed by bits that begin no code parses back to that string |
| `HuffmanCode.OutcomeExact` | src/common/http2_grpc.c:256-301 | for any well-formed code, the decoder accepts a bit string as `s` if and only if `s` fits and the bits spell `s` |
| `HuffmanCode.FindSymbol` | src/common/http2_grpc.c:269-287 | the inner search finds a symbol whose code the live bits begin with, and none exactly when there is none |
| `HuffmanCode.Drain` | src/common/http2_grpc.c:266-290 | the inner loop decodes exactly the symbols that the live bits complete |
| `HuffmanCode.HuffDecode` | src/common/http2_grpc.c:256-301 | the byte loop over a 64-bit accumulator computes the bit-level outcome; live bits never exceed 37 |
| `CanonicalCode.PrefixIsSame` | src/common/http2_grpc.c:40-87 | in a table whose code groups chain, a code word that starts another is the same word |
| `CanonicalCode.LongStartsWithCode` | src/common/http2_grpc.c:40-87 | in such a table every bit string of full length starts with a code word |
| `HuffmanTable.AppendixPrefixFree` | src/common/http2_grpc.c:40-87 | the 257 codes of the client are prefix-free |
| `HuffmanTable.AppendixComplete` | src/common/http2_grpc.c:40-87 | they are complete: every 30-bit string begins with one |
| `HuffmanTable.EosIsOnes` | src/common/http2_grpc.c:40-87 | the end-of-string code is thirty one-bits, which is why padding never completes a code |
| `HuffmanOrder.Canonical` | src/common/http2_grpc.c:40-87 | of two symbols with codes of one length the smaller has the smaller code: the code is the canonical one of its lengths |
| `HuffmanTable.HuffmanInversion` | src/common/http2_grpc.c:256-301 | for every byte string and every padding of fewer than 30 one-bits, decoding the encoding gives the string exactly when it fits |
| `HuffmanTable.HuffmanExact` | src/common/http2_grpc.c:256-301 | the bit strings accepted as `s` are exactly its encoding with fewer than 30 one-bits of padding, or its encoding followed by the end-of-string code and anything |
| `HuffmanTable.DecodeHuffman` | src/common/http2_grpc.c:256-301 | the decoding method on the client's own table computes that outcome |
| `HpackInt.EncodeInt` | src/common/http2_grpc.c:180-200 | the encoder loop appends the prefix-integer bytes of section 5.1 of RFC 7541 |
| `HpackInt.DecodeInt` | src/common/http2_grpc.c:222-254 | the decoder loop reads what the specification reads, including its overflow and truncation errors |
| `HpackInt.IntRoundTrip` | src/common/http2_grpc.c:180-254 | every 32-bit value with every prefix from 1 to 8 reads back, whatever bytes follow |
| `HpackStrict.IntegerExact` | src/common/http2_grpc.c:222-254 | which bytes are an integer and of what value: the prefix itself unless it is all ones, and otherwise a continuation that ends within five bytes, its seven-bit groups added modulo 2^32 |
| `HpackTable.DynTable.Insert` | src/common/http2_grpc.c:442-458 | the in-place shift and write make the table the inserted entry and the newest 63 before it |
| `HpackTable.DynTable.Find` | src/common/http2_grpc.c:460-487 | index lookup over the static table and the live dynamic entries |
| `HpackTable.TableIsHistory` | src/common/http2_grpc.c:442-458 | over every sequence of insertions the table is the newest-first history cut to 64 entries |
| `HpackTable.AgreeAfterInsert` | src/common/http2_grpc.c:442-458 | inserting keeps the size-evicting table of RFC 7541 a prefix of the client's table, up to its 64 entries |
| `HpackTable.AgreeAfterResize` | src/common/http2_grpc.c:543-552 | a size update that the client ignores keeps that agreement |
| `HpackTable.LiveIndexAgrees` | src/common/http2_grpc.c:460-487 | an index that is live in the standard's table and within the client's range resolves to the same header |
| `HpackAppendix.StaticTableExact` | src/common/http2_grpc.c:333-418 | every entry of the static table is the one RFC 7541 prints in Appendix A, name and value |
| `HpackBlock.DecodeString` | src/common/http2_grpc.c:303-330 | string decoding, raw or Huffman, into a destination of the given size with its terminator: the text, a refusal, or a Huffman text that fills the destination so that the terminator falls behind it |
| `HpackBlock.SpillsExactly` | src/common/http2_grpc.c:282-326 | the terminator falls behind the destination if and only if the string is a complete Huffman string whose text has exactly the size of the destination |
| `HpackBlock.DecodeLiteral` | src/common/http2_grpc.c:489-582 | name and value of a literal, indexed or new |
| `HpackBlock.DecodeField` | src/common/http2_grpc.c:489-582 | one turn of the block loop: the headers reported, the table after it and the bytes used, or a refusal or an overrun with the table untouched |
| `HpackBlock.DecodeBlock` | src/common/http2_grpc.c:489-582 | the whole loop: the headers reported before it ends, the final table, and whether it ends at the end of the block, at a refusal or at an overrun |
| `HpackWire.BlockRoundTrip` | src/common/http2_grpc.c:489-582 | decoding the printed form of any legal representations is running those representations one after the other |
| `HpackWire.StepAgrees` | src/common/http2_grpc.c:489-582 | one representation the standard gives a meaning to: within the client's limits it reports the standard's headers and keeps agreeing tables, and otherwise it refuses or overruns exactly as the limit it breaks says |
| `HpackWire.RunAgrees` | src/common/http2_grpc.c:489-582 | over every such block the client ends whole, refused or overrun exactly as the first broken limit says, and if whole with the standard's headers and agreeing tables |
| `HpackWire.WireAgrees` | src/common/http2_grpc.c:489-582 | the same from the bytes on the wire |
| `HpackStrict.LiteralTaken` | src/common/http2_grpc.c:489-582 | a literal is taken exactly when its name has at most 255 bytes and its value at most 1023, and at most 127 and 255 if it enters the table |
| `HpackStrict.CutRefused` | src/common/http2_grpc.c:489-582 | a block that is cut inside a representation is not accepted, whatever stands before the cut |
| `HpackStrict.IntegerExamples` | src/common/http2_grpc.c:180-200 | the integers of section C.1 of RFC 7541 |
| `HpackStrict.LiteralExample` | src/common/http2_grpc.c:489-582 | the literal of section C.2.1, which enters the table |
| `HpackStrict.IndexedNameExample` | src/common/http2_grpc.c:489-582 | the literal with an indexed name of section C.2.2 |
| `HpackStrict.NeverIndexedExample` | src/common/http2_grpc.c:489-582 | the literal of section C.2.3, which does not enter the table |
| `HpackStrict.IndexedExample` | src/common/http2_grpc.c:489-582 | the indexed field of section C.2.4 |
| `HpackSpill.FillingBlockSpills` | src/common/http2_grpc.c:303-330 | a block of 164 bytes whose Huffman-coded name is 256 times the digit 0 overruns the name buffer, whatever the dynamic table |
| `HpackSpill.NeighboursDoNot` | src/common/http2_grpc.c:303-330 | one digit less is reported, and the same name sent raw is refused |
| `H2Frame.FramesRoundTrip` | src/common/http2_grpc.c:135-178 | printing any frames and parsing the bytes gives the frames back, whatever follows |
| `H2Frame.FramesGrow` | src/common/http2_grpc.c:1118-1133 | appending bytes to a buffer only appends frames to its parse |
| `RequestMeaning.UpdateBytes` | src/common/http2_grpc.c:135-178 | a WINDOW_UPDATE of 65535 bytes for stream 1 is 00 00 04 08 00 00 00 00 01 00 00 ff ff, both ways |
| `H2Flow.FlushKeeps` | src/common/http2_grpc.c:826-905 | a flush with any pattern of failed writes keeps sent bytes plus pending tail equal to the body, both windows equal to their grants less the bytes sent, and END_STREAM only on the last byte |
| `H2Flow.FlushWithinWindows` | src/common/http2_grpc.c:826-905 | the bytes sent at any point of a flush stay within both windows as they were |
| `H2Flow.FlushStopsOnlyWhenBlocked` | src/common/http2_grpc.c:826-905 | a flush whose writes succeed stops only at the end of the body or at a window that is not positive |
| `H2Flow.FlushDelivers` | src/common/http2_grpc.c:826-905 | with enough credit and successful writes the whole body is delivered and the last frame ends the stream |
| `RequestMeaning.FlushFull` | src/common/http2_grpc.c:826-905 | every frame of a flush but the last has the full size and does not end the stream, and the last is full, too, or leaves nothing to send or an empty window |
| `RequestMeaning.FullSize` | src/common/http2_grpc.c:935-965 | that size is 16384 over every run of settings, updates and flushes |
| `H2Flow.BuildOk` | src/common/http2_grpc.c:636-723 | the frames built with the request carry exactly the first window of the body, each within 16384 bytes, END_STREAM only on its last byte |
| `H2Flow.AttachStarts` | src/common/http2_grpc.c:725-748 | attaching a request, whatever the length of its body, establishes the flow-control invariant |
| `H2Flow.SettingsKeep` | src/common/http2_grpc.c:935-965 | any list of peer settings keeps the invariant, the stream window shifting by the change of the initial window and possibly below zero |
| `H2Flow.UpdateKeeps` | src/common/http2_grpc.c:813-824 | WINDOW_UPDATE keeps it, refusing a zero increment and an overflow past 2^31 - 1 |
| `H2Flow.FlowControl` | src/common/http2_grpc.c:725-965 | the invariant over every run of settings, window updates and flushes, for every attached request |
| `H2Flow.FillingUpdateRefused` | src/common/http2_grpc.c:813-824 | for every body of 1 to 65535 bytes, which is not attached, a WINDOW_UPDATE that fills the peer's true window to 2^31 - 1 is refused, and would be accepted had the request been attached |
| `H2Flow.AttachedAccepts` | src/common/http2_grpc.c:725-965 | an attached request refuses no update or setting that keeps the peer's true windows within 2^31 - 1, over every run |
| `H2Flow.GrantsAccepted` | src/action/action.c:268-287 | as requests are started, every run of such updates and settings is accepted if and only if the body is empty or longer than 65535 bytes |
| `H2Flow.RunConserves` | src/common/http2_grpc.c:636-905 | over every run of a started request, attached or not, the frames built and sent carry the body without what remains |
| `H2Response.ParseIsContent` | src/common/http2_grpc.c:1112-1286 | the frame loop fails exactly on a malformed frame, and otherwise depends only on the header blocks, the body bytes and the first end of the stream |
| `H2Response.ContentAppend` | src/common/http2_grpc.c:1112-1286 | the content of a concatenation is the join of the contents |
| `H2Response.FirstEndStays` | src/common/http2_grpc.c:988-1024 | over any frames, stream_ended holds exactly when an end reason is set, and the first reason stays |
| `GrpcResponse.UnwrapWrap` | src/common/http2_grpc.c:90-133 | unwrapping a wrapped message gives it back, whatever follows |
| `GrpcResponse.ParseWire` | src/common/http2_grpc.c:1333-1475 | the answer to printed frames is a function of their content |
| `GrpcResponse.ReplaceFrames` | src/common/http2_grpc.c:1179-1271 | any stretch of frames may be replaced by another that carries the same, with the same content of the whole |
| `GrpcResponse.Interchangeable` | src/common/http2_grpc.c:1333-1475 | so the answer to the printed frames is the same, whatever frames are around, malformed ones included |
| `GrpcResponse.InsertNoise` | src/common/http2_grpc.c:1333-1475 | SETTINGS, PING, WINDOW_UPDATE, other streams and unknown types may be interleaved anywhere with the same answer |
| `GrpcResponse.RecutData` | src/common/http2_grpc.c:1333-1475 | DATA may be cut differently and padded differently with the same answer |
| `GrpcResponse.RepadFrame` | src/common/http2_grpc.c:1333-1475 | a frame may be replaced by one of the same kind, stream, end flag and fragment with the same answer |
| `GrpcResponse.RepadData` | src/common/http2_grpc.c:1333-1475 | any padding of the same DATA gives the same answer |
| `GrpcResponse.RepadHeaders` | src/common/http2_grpc.c:1333-1475 | any padding and any priority fields of the same HEADERS give the same answer |
| `GrpcResponse.AppendGoaway` | src/common/http2_grpc.c:1333-1475 | a GOAWAY with any last-stream id after the end does not change the answer |
| `GrpcResponse.InsertDrain` | src/common/http2_grpc.c:1333-1475 | a GOAWAY that keeps the stream does not change the answer before the end either |
| `GrpcResponse.BlocksHeard` | src/common/http2_grpc.c:1009-1024 | the header callbacks over all blocks are those of the standard's header list |
| `GrpcResponse.ResponseReceived` | src/common/http2_grpc.c:1333-1475 | end to end: however the peer represents its headers and cuts, pads and interleaves its frames, a stream that ends normally is answered with its grpc-status and with the wrapped message, if it carries one |
| `GrpcResponse.StatusIsLast` | src/common/http2_grpc.c:988-1024 | the grpc-status of a header list whose last such header is the decimal text of a number below 2^31 is that number, and -1 when it has none |
| `GrpcExact.CargoExact` | src/common/http2_grpc.c:1179-1271 | the header blocks and the body of a response are those of the HEADERS, CONTINUATION and DATA frames of stream 1, in order |
| `GrpcExact.EndExact` | src/common/http2_grpc.c:1179-1271 | the first frame that ends the stream gives the reason: END_STREAM on HEADERS, CONTINUATION or DATA, RST_STREAM, or a GOAWAY below stream 1 |
| `GrpcExact.UnwrapExact` | src/common/http2_grpc.c:90-133 | a message is unwrapped exactly when the body starts with it whole: a zero byte, its length in four bytes, and it |
| `GrpcExact.ParseExact` | src/common/http2_grpc.c:1333-1475 | the answer to every buffer: a failure without status if it is too long, holds a malformed frame or does not end; success without status and message for a reset or a GOAWAY; otherwise the status heard in its header blocks, success without a message for an empty body, and else success exactly if the body starts with a whole message, which is the one handed on |
| `GrpcExact.UnaryAnswered` | src/common/http2_grpc.c:1333-1475 | a unary response, however its message is cut and padded, is answered with the status its header blocks spell and the message, and without its trailers it is a failure |
| `GrpcExact.PaddingExact` | src/common/http2_grpc.c:1179-1271 | a payload without the padding flag is kept, and with it is accepted exactly when it holds the padding it announces, which is taken off |
| `GrpcExact.FragmentExact` | src/common/http2_grpc.c:1179-1271 | a CONTINUATION is a fragment as it is, HEADERS lose their padding and, with the priority flag, the five bytes of it |
| `GrpcExact.StatusName` | src/common/http2_grpc.c:988-1024 | a header is the status exactly when its name is grpc-status in any mixture of capital and small letters |
| `GrpcExact.NumberExact` | src/common/http2_grpc.c:988-1024 | the number of a status text: white space is skipped, one sign is read, and the digits count up to the first other byte |
| `GrpcExact.NoNumber` | src/common/http2_grpc.c:988-1024 | a text that starts with none of these counts as zero |
| `H2Feed.FeedOnce` | src/common/http2_grpc.c:1112-1286 | one read performs the effects of the frames from the commit offset on, each once and in order, whatever acknowledgement writes fail |
| `H2Feed.ExactlyOnce` | src/common/http2_grpc.c:1112-1326 | over every session of reads, the effects performed (what they are is `H2Effects.FramesRead`) are those of the frames below the commit offset plus at most one blocked SETTINGS, and the windows are their replay interleaved with flushes |
| `H2Feed.ReceiveTotal` | src/common/http2_grpc.c:1112-1326 | each receive window plus the DATA accounted to it always totals 2^20 |
| `H2Feed.SessionFlowControl` | src/common/http2_grpc.c:826-1326 | send flow control holds over every such session of an attached request, whatever the length of its body |
| `H2Feed.LawfulGrantResets` | src/common/http2_grpc.c:1112-1286 | in the session of a request of 1 to 65535 bytes that lawful WINDOW_UPDATE ends the stream as reset |
| `H2Feed.RepliesAreEffects` | src/common/http2_grpc.c:1156-1158 | the PING replies written by a read carry, in order, the payloads of exactly the PING effects it performs |
| `H2Feed.SplitsAgree` | src/common/http2_grpc.c:1112-1326 | with written acknowledgements, any two ways of splitting the same bytes across reads perform the same effects: those of the frames before the first malformed one |
| `H2Feed.FeedReachesEnd` | src/common/http2_grpc.c:1112-1286 | with well-formed frames and written acknowledgements the commit offset passes every frame |
| `H2Feed.WalkIsFeed` | src/common/http2_grpc.c:1112-1286 | re-reading the buffer from its start leaves the connection as continuing at the commit offset does |
| `H2Feed.WalkOk` | src/common/http2_grpc.c:1112-1286 | the loop succeeds exactly when every frame is well formed |
| `H2Effects.FramesRead` | src/common/http2_grpc.c:1135-1264 | what the effects of frames say, read off the frames: the increments of the WINDOW_UPDATEs of each window, the parameters of the SETTINGS, the bytes of the DATA of stream 1 and the payloads of the PINGs |
| `H2Effects.SessionReads` | src/common/http2_grpc.c:1112-1326 | over every session, the credit, the settings, the PINGs answered and the DATA counted are those of the frames below the commit offset and of at most one SETTINGS that waits there |
| `H2Effects.SessionWindows` | src/common/http2_grpc.c:813-1326 | over every session of an attached request, each send window is its initial size, moved by the settings, less the bytes sent and plus the increments of the WINDOW_UPDATEs that name it, without those refused |
| `H2Effects.PassExact` | src/common/http2_grpc.c:1135-1178 | the replies of a pass are, in order, a PING with the ACK flag and the same payload for each PING passed and an empty SETTINGS with the ACK flag for each SETTINGS passed and the one it waits at |
| `H2Effects.SessionAckFlag` | src/common/http2_grpc.c:1135-1178 | over every session a SETTINGS is recorded as acknowledged exactly when one is below the commit offset |
| `H2Effects.SettingsRoundTrip` | src/common/http2_grpc.c:935-965 | the parameters of a SETTINGS payload are those it was printed from |
| `H2Effects.SettingsExact` | src/common/http2_grpc.c:935-965 | a list of parameters is applied up to the first one that takes the stream window or the initial window past 2^31 - 1: the initial window is the last value given, the stream window moves by its change, and the frame size is 16384 once a legal one was given |
| `H2Effects.ResetExactly` | src/common/http2_grpc.c:1135-1286 | which frame resets the stream: RST_STREAM, an increment or a parameter past 2^31 - 1, or DATA beyond a receive window |
| `H2Effects.DoneExactly` | src/common/http2_grpc.c:1288-1331 | a call is done with the response exactly when a frame is malformed, a frame ends the stream, or one handled now for the first time is refused |
| `H2Client.RespState.Take` | src/common/http2_grpc.c:1179-1271 | one frame updates the response state as specified |
| `H2Client.FeedResponse` | src/common/http2_grpc.c:1112-1286 | the parse loop without a connection computes the specified state or failure |
| `H2Client.ResponseParse` | src/common/http2_grpc.c:1333-1475 | otlp_grpc_http2_response_parse computes the answer that `GrpcExact.ParseExact` states |
| `H2Client.Connection.FlowAttach` | src/common/http2_grpc.c:725-748 | the windows and pending tail after attaching |
| `H2Client.Connection.FlushPending` | src/common/http2_grpc.c:826-905 | the flush loop leaves the specified windows and tail and writes exactly the specified DATA frames |
| `H2Client.Connection.ApplyPeerSettings` | src/common/http2_grpc.c:935-965 | the six-byte parameter loop applies the settings up to the first refused one |
| `H2Client.Connection.Credit` | src/common/http2_grpc.c:813-824 | WINDOW_UPDATE on the window it names, with its error cases |
| `H2Client.Connection.Debit` | src/common/http2_grpc.c:1249-1264 | the receive debit of a DATA frame, padding included |
| `H2Client.Connection.Front` | src/common/http2_grpc.c:1112-1286 | the acknowledging part of the loop for the frame at the commit offset, and the SETTINGS or PING reply it writes, as `H2Effects.PassExact` and `H2Effects.ResetExactly` state them |
| `H2Client.Connection.Feed` | src/common/http2_grpc.c:1112-1286 | the whole loop over the buffer with effects and replies only at the commit offset |
| `H2Client.Connection.ExpectComplete` | src/common/http2_grpc.c:1288-1331 | one call: parse, effects, replies, flush, and whether the response is complete |
| `H2Client.ExpectCompleteIsRead` | src/common/http2_grpc.c:1288-1331 | such a call is one read of the session whose effects are proved exactly once |
| `H2Client.Connection.Begin` | src/action/action.c:268-296 | a started export leaves the connection in the state in which its session begins |
| `H2Client.Connection.Serve` | src/common/http2_grpc.c:1288-1331 | any sequence of calls on one connection is a session: same connection state, exactly its DATA frames and exactly one reply for each PING effect, in order |
| `H2Client.Connection.Export` | src/common/http2_grpc.c:636-1331 | a whole export, from starting the request through any sequence of calls: the DATA of the request and that written later is the body, in order, without what the connection still holds |
| `H2Request.HeaderBlockRoundTrip` | src/common/http2_grpc.c:180-220 | any block of static indices and raw literals written by the encoder decodes to exactly its header list if and only if names have at most 255 and values at most 1023 bytes, whatever the dynamic table |
| `H2Request.BuildHeaders` | src/common/http2_grpc.c:668-684 | the request's header block is the printed form of its representations, environment headers included |
| `H2Request.BuildData` | src/common/http2_grpc.c:685-704 | the DATA loop writes the frames of the first window of the body |
| `H2Request.RequestBuild` | src/common/http2_grpc.c:615-723 | preface, settings, headers and data, the remainder handed back, and failure exactly when an allocation fails or a remainder has no taker |
| `H2Request.RequestRoundTrip` | src/common/http2_grpc.c:615-723 | behind the preface the request parses back to exactly those frames |
| `H2Request.RequestHeadersRoundTrip` | src/common/http2_grpc.c:589-684 | a peer decodes the request's header block to exactly its headers when they are within the limits |
| `RequestMeaning.RequestMeans` | src/common/http2_grpc.c:589-684 | a decoder gets :method POST, :scheme, :path (that of the metrics service for an empty one and for a slash), :authority, content-type, te and user-agent, and then the configured headers in small letters without those the client sets itself, exactly when all are short enough for it |
| `RequestMeaning.SettingsAnnounced` | src/common/http2_grpc.c:652-662 | the settings announced are a window of 2^20 bytes and frames of at most 16384 |
| `RequestMeaning.RequestShape` | src/common/http2_grpc.c:652-704 | settings, one HEADERS frame that ends the headers and not the stream, and DATA frames of stream 1 with the first 65535 bytes of the body, all full but the last, which ends the stream exactly when that is the whole body |
| `Gcra.RateOf` | src/common/http_limit.c:204-218 | for 1 to 10^9 requests per second the interval is positive and one burst plus one interval is at most a second |
| `Gcra.IntervalExact` | src/common/http_limit.c:206-213 | the interval is the largest whole number of nanoseconds that fits rps times into a second, and the burst is rps - 1 of them |
| `Gcra.RetryIsOneSecond` | src/common/http_limit.c:478-501 | with a clock that does not go back every denial asks for exactly one second, and from one second later the bucket admits |
| `Gcra.SpanBound` | src/common/http_limit.c:478-501 | any two admissions of one bucket are at least their distance in intervals less one burst apart |
| `Gcra.RateBound` | src/common/http_limit.c:478-501 | in every window of L nanoseconds one bucket admits at most rps + floor(L / interval) requests |
| `Gcra.RateBoundReached` | src/common/http_limit.c:478-501 | the bound is exact: for every k some run reaches it in a window of k intervals |
| `LimitTable.PlaceOf` | src/common/http_limit.c:533-569 | where an id goes: its slot, a new one, the first slot idle for a minute, or nowhere |
| `LimitTable.TableDecides` | src/common/http_limit.c:509-570 | the decision is that of an unbounded map, except when all 4096 slots were used within the last minute and none holds the id |
| `LimitTable.PlannedKeeps` | src/common/http_limit.c:503-543 | refreshing a slot keeps unique ids, tat <= last + 10^9 and the map |
| `LimitTable.CommittedKeeps` | src/common/http_limit.c:572-617 | committing updates the map at one id only: a reused slot has nothing left to forget |
| `HttpLimit.BeforeQuery` | src/common/http_limit.c:344-356 | the path of a request is what precedes its first question mark |
| `LimitPath.MatchesExactly` | src/common/http_limit.c:344-356 | a rule concerns exactly the targets that are its path, or its path, a question mark and anything |
| `LimitPath.QueryIgnored` | src/common/http_limit.c:619-695 | a request with a query is answered, and changes the rules, as the same request without it |
| `LimitPath.StandsAside` | src/common/http_limit.c:639-646 | a rule the target does not concern is left as it was and has no say in the answer |
| `LimitPath.TakesPart` | src/common/http_limit.c:668-687 | a rule it concerns takes part: its denial refuses the request, and an allowed request advances it |
| `LimitPath.UnbuiltRefused` | src/common/http_limit.c:650-663 | a request whose id cannot be built is refused for one second and changes nothing |
| `LimitPath.Unlimited` | src/common/http_limit.c:639-648 | a target that concerns no rule is allowed and changes nothing |
| `HttpLimit.StepRefines` | src/common/http_limit.c:619-695 | one request, all matching rules: same decision as the maps, and the tables keep representing them |
| `HttpLimit.RunRefines` | src/common/http_limit.c:478-695 | over every run the decisions are those of unbounded maps, up to refusals for lack of room |
| `HttpLimit.FreshRefines` | src/common/http_limit.c:187-263 | freshly configured rules represent empty maps |
| `HttpLimit.ClientIsBucket` | src/common/http_limit.c:619-695 | over every run the admissions of one rule to one list of key values are those of one bucket |
| `HttpLimit.ClientRate` | src/common/http_limit.c:478-695 | over every run and window, a rule admits at most rps + floor(L / interval) requests with the same key values |
| `HttpLimit.RefusalKeepsTimes` | src/common/http_limit.c:678-687 | a refused request changes no arrival time of any rule |
| `HttpLimit.AdmissionAdvancesAll` | src/common/http_limit.c:678-682 | an allowed request advances every matching rule by one interval and leaves the others |
| `HttpLimit.RetryAfter` | src/common/http_limit.c:668-694 | a refusal names 60 seconds when the first denying rule has no room, and 1 otherwise |
| `HttpLimit.WaitingSuffices` | src/common/http_limit.c:478-570 | a rule that refused a client for its rate, and admitted none of its requests since, admits it from one second later on; only after a minute may its table be full instead |
| `HttpLimit.SilenceClears` | src/common/http_limit.c:619-695 | one second after the last request of any client, a request is allowed if and only if no rule matches it, or its ids can be built and no matching table is full |
| `HttpLimit.AnnouncedWait` | src/common/http_limit.c:668-694 | a refused request that comes back next, a second or more later, is allowed if and only if no matching table is full then |
| `LimitCase.AnnouncedSecondIsNotEnough` | src/common/http_limit.c:619-695 | with two rules on one path, from a fresh start: 4096 clients are admitted once each at one moment, the next is refused with 1 second, and the same call after that second is refused again, with 60 |
| `LimitClient.Rule.Find` | src/common/http_limit.c:533-543 | the scan finds the slot of an id |
| `LimitClient.Rule.FindIdle` | src/common/http_limit.c:553-565 | the scan finds the first idle slot |
| `LimitClient.Rule.Plan` | src/common/http_limit.c:509-570 | planning in place: the refreshed slots and the recorded decision and place |
| `LimitClient.Rule.Commit` | src/common/http_limit.c:572-617 | committing in place what was planned |
| `LimitClient.Collect` | src/common/http_limit.c:639-646 | the loop that collects the matching rules |
| `LimitClient.PlanAll` | src/common/http_limit.c:668-676 | the loop that plans every matching rule and remembers the first refusal |
| `LimitClient.CommitAll` | src/common/http_limit.c:680-681 | the loop that commits every matching rule |
| `LimitClient.BuildIds` | src/common/http_limit.c:650-663 | the ids of all matching rules from what the request says for their keys, whichever allocations fail, or none |
| `LimitClient.Limiter.Check` | src/common/http_limit.c:619-695 | http_limit_check over rule objects: its answer and the state of every rule are those of the specification |
| `LengthPrefix.FramedCut` | src/common/authorize.c:114-127 | a length-prefixed string can be cut off the front of any buffer in one way only |
| `LengthPrefix.LabelInjective` | src/common/authorize.c:129-146 | different keys have different labels |
| `LengthPrefix.FramedPairsInjective` | src/common/http_limit.c:438-476 | ids and messages are equal only when all keys and all values are |
| `LimitId.Doubled` | src/common/http_limit.c:369-384 | doubling finds a capacity with room unless it leaves size_t |
| `LimitId.AddFramed` | src/common/http_limit.c:358-392 | the buffer then holds its old bytes and the framed string, or is unchanged |
| `LimitId.BuildId` | src/common/http_limit.c:413-476 | the id is exactly the framing of labels and normalised values, and is built whenever every allocation succeeds and the configured limits hold |
| `LimitId.SameValue` | src/common/http_limit.c:413-436 | two requests say the same for a key exactly when their values are equal or both are missing, empty or, but for an address, longer than 4096 bytes |
| `Authorize.BoundMessageInjective` | src/common/authorize.c:148-206 | two bound messages are equal only for the same bucket, binds and values |
| `Authorize.Add` | src/common/authorize.c:80-112 | appends within 64 KiB exactly, or fails and changes nothing |
| `Authorize.AddFramed` | src/common/authorize.c:114-127 | appends a framed value of at most 4096 bytes exactly |
| `Authorize.BuildMessage` | src/common/authorize.c:172-196 | whichever allocations succeed, a message that is built is that of usable binds and fits, and with all allocations successful it is built whenever they are and it does |
| `Authorize.ComputeBound` | src/common/authorize.c:148-206 | the tag of the message, or none in exactly the error cases |
| `Authorize.ValidateBound` | src/common/authorize.c:208-254 | missing, wrong or match, match exactly for a tag of the current bucket or a neighbour when all three can be computed |
| `Authorize.ClaimExactly` | src/common/authorize.c:129-196 | binds and values can be used exactly when every value has 1 to 4096 bytes and every header or cookie name 1 to 152 |
| `Authorize.TagExactly` | src/common/authorize.c:148-206 | there is a tag exactly when the secret has 1 to 2^20 bytes, the bucket at most 31 digits, the binds can be used, their message has at most 2^16 bytes, and the hash can be computed |
| `Authorize.MessageInjective` | src/common/authorize.c:148-206 | two lists of binds, both empty or both not, have one message only when bucket, binds and values are the same |
| `Authorize.TokenMessage` | src/common/authorize.c:148-254 | where the keyed hash separates messages, a token is accepted exactly when a bucket of the window gives its message with the presented binds |
| `Authorize.TokenScope` | src/common/authorize.c:148-254 | a token issued for one bucket and one list of binds and values, an empty one included, is accepted exactly in that bucket's window and for that list; between an empty and a non-empty list never, unless the secret starts with the version of the bound message |
| `Oplog.BatchBound` | src/cluster/type.c:208-258 | a batch is within 1 MiB or is one oversized record |
| `Oplog.BatchFull` | src/cluster/type.c:208-258 | a batch ends only where the next record would exceed 1 MiB, or behind an oversized record |
| `Oplog.DrainEmpties` | src/cluster/type.c:208-258 | shifting as often as there are records ships all of them in order and empties the ring, so no record can stall it |
| `Oplog.ReadShowsShift` | src/cluster/type.c:169-206 | a read shows what the next shift ships, unless an oversized record leads |
| `Oplog.Conservation` | src/cluster/type.c:129-258 | over every run: accepted records are those that left and then the queued ones, in order; the bytes shipped are the shipped records in order; enqueued less overflow is shipped plus queued |
| `Oplog.Ring.constructor` | src/cluster/type.c:18-39 | an empty ring of at least two cells |
| `Oplog.Ring.Insert` | src/cluster/type.c:129-161 | appends, dropping the oldest exactly when the ring is full, and returns 1 exactly then |
| `Oplog.Ring.GetString` | src/cluster/type.c:169-206 | the text of the records within the budget, nothing removed |
| `Oplog.Ring.ShiftString` | src/cluster/type.c:208-258 | the batch is returned and removed from the front |
| `Placement.TargetsDiffer` | src/cluster/pass.c:87-90 | the targets of a metric differ if and only if there are no more copies than servers |
| `Placement.Successors` | src/cluster/pass.c:87-90 | the first copy is the primary's, and each further one goes to the next server of the ring |
| `Placement.SameWhoeverIngests` | src/cluster/pass.c:77-162 | with a factor of at least one the copies do not depend on the node that takes the metric in |
| `Placement.FactorZero` | src/cluster/pass.c:77-87 | with a factor of zero only the primary keeps what it takes in itself |
| `Placement.PlacementExact` | src/cluster/pass.c:77-162 | for a factor from one to the number of servers, exactly that many servers hold a copy, each exactly one |
| `Cluster.Server.Put` | src/cluster/pass.c:142-157 | one record on a peer's ring with its counters is one step of the conserved log |
| `Cluster.Server.Take` | src/cluster/api.c:85-106 | a drain is one step of the conserved log |
| `Cluster.Pass` | src/cluster/pass.c:77-163 | the loop puts on every other server's ring exactly the copies it is a target of, in order, and counts those this node keeps |
| `Cluster.DeliveredOnce` | src/cluster/pass.c:77-163 | rings and kept copies together hold one copy for each of exactly factor servers, whichever node this is |
| `Cluster.RecordsDue` | src/cluster/pass.c:87-163 | what every other server is due: the primary a record that begins with primary, each of the factor - 1 servers after it one that begins with replica and names the primary, and the others none |
| `PeerSearch.FindServer` | src/cluster/api.c:13-48 | on the sorted names the binary search ends with the server of that name, and with none if and only if there is none |
| `Cluster.ShiftFor` | src/cluster/api.c:85-106 | a known peer drains its own ring and no other, an unknown one drains none |
| `CrawlerSafety.SendKeeps` | src/chromecdp/target.c:56-88 | sending keeps the count of requests in flight equal to the page's pending entries and lost ones, and changes nothing else of the page |
| `CrawlerSafety.MessageKeeps` | src/chromecdp/cdp.c:108-145 | a response, to whatever page in whatever state, keeps the invariant |
| `CrawlerSafety.StartKeeps` | src/chromecdp/chromecdp.c:258-291 | starting a page for the next URL while a slot is free keeps it |
| `CrawlerSafety.DoneKeeps` | src/chromecdp/chromecdp.c:803-828 | reporting a finished page that was not reported before unlinks it and fills its slot within the bound |
| `CrawlerSafety.EnableDomainsKeeps` | src/chromecdp/target.c:588-639 | the four requests with one countdown, or the failed allocation of the countdown, keep the invariant |
| `CrawlerSafety.ContinueKeeps` | src/chromecdp/target.c:443-1293 | so does the callback of every step of a page |
| `CrawlerSafety.TimersKeep` | src/chromecdp/target.c:410-438 | so do the network-idle countdown and the navigation timeout |
| `CrawlerSafety.BeginCycleKeeps` | src/chromecdp/chromecdp.c:386-420 | so does a new cycle |
| `CrawlerSafety.ResponseDoneKeeps` | src/chromecdp/target.c:62-73 | answering a request keeps it too, and reports a finished page whose last answer this was |
| `CrawlerSafety.TryFinishKeeps` | src/chromecdp/target.c:1298-1310 | finishing keeps the invariant and reports at once when nothing is in flight |
| `CrawlerSafety.ForceFinishKeeps` | src/chromecdp/target.c:1345-1359 | a forced finish reports the page and keeps the invariant |
| `CrawlerSafety.FillSlotsKeeps` | src/chromecdp/chromecdp.c:309-330 | filling slots keeps the bound, the accounting of the queue and its release condition |
| `CrawlerSafety.CheckListActs` | src/chromecdp/chromecdp.c:332-355 | a deadline check finishes every overdue page of the list and releases those already finished |
| `CrawlerSafety.ClosedKeeps` | src/chromecdp/chromecdp.c:842-862 | a lost connection abandons all pages and keeps the invariant |
| `CrawlerSafety.StepKeeps` | src/chromecdp/chromecdp.c:258-420 | every event keeps the invariant |
| `CrawlerSafety.PageCompletion` | src/chromecdp/target.c:56-98 | over every run: done is reported at most once per page; the requests in flight of a live page are its pending entries and those whose entry was never allocated; a live finished page with none in flight has been reported; the list holds exactly the live unreported pages |
| `CrawlerSafety.CrawlerSlots` | src/chromecdp/chromecdp.c:258-420 | over every run: active pages never exceed the slots; the URLs taken are the first of the queue, each done, active or failed; a queue is released only when all of it was taken and none is active |
| `CrawlerSafety.QueueReleased` | src/chromecdp/chromecdp.c:293-307 | in any reachable state, an event other than a lost connection takes the queue away only by finishing its cycle, with all of it taken and each URL done or failed |
| `CrawlerSafety.OverdueReleased` | src/chromecdp/chromecdp.c:332-355 | a page on the list at a check at or past its deadline is off it after that check or the next, whatever happens in between |
| `CrawlerSafety.LostPageStays` | src/chromecdp/target.c:56-98 | in any reachable state, a live page with a request whose entry could not be allocated is linked and not reported, and any event leaves it so but for a forced finish at or past its deadline and a lost connection |
| `CrawlerSafety.LostPageOccurs` | src/chromecdp/target.c:56-88 | a run that reaches such a page: without memory for its entry, the first page of a connection |
| `CrawlerSafety.QueueGathered` | src/chromecdp/chromecdp.c:183-201 | the queue of a cycle holds configured URLs in their order, and all of them unless its array could not grow |
| `CrawlerFill.FillExact` | src/chromecdp/chromecdp.c:309-330 | filling slots starts pages in front of the list, no more than the batch, and stops only at the end of the queue, with all slots taken, or after a whole batch |
| `CrawlerFill.DoneFills` | src/chromecdp/chromecdp.c:803-828 | a page that is done is reported, and the slots it leaves are filled at once in the same way |
| `CrawlerFill.TicksFill` | src/chromecdp/chromecdp.c:332-420 | in any reachable state of a connection, either tick fills the slots that are free after its deadline check |
| `CrawlerFill.CyclesStart` | src/chromecdp/chromecdp.c:386-420 | with memory, a crawl tick that finds nothing to do and a new connection start a cycle of all configured URLs |
| `CrawlerFill.TakenStarts` | src/chromecdp/chromecdp.c:258-291 | every URL taken gets a page in front of the list, or counts as failed when it is no URL or no page can be created |
| `CrawlerFill.NumberUsed` | src/chromecdp/cdp.c:56-91 | in any reachable state a request on an open connection uses up a number, sent or not, and an answer is expected under it, which no pending request has, exactly if the request was sent and its entry allocated |
| `CrawlerFill.NetworkCounted` | src/chromecdp/target.c:180-276 | over every sequence of network events a page counts the requests begun and not ended, and a beginning starts its countdown anew |
| `CrawlerFill.QuietTicks` | src/chromecdp/target.c:410-438 | with at most two requests on the network ticks count up, and the fourth stops the timers and asks for the measurement |
| `CrawlerFill.BusyTick` | src/chromecdp/target.c:410-438 | with more a tick starts the countdown anew |
| `CrawlerScript.ScriptFollowed` | src/chromecdp/target.c:443-1293 | over every run, the requests a page has sent are a beginning of its script: context, target, session, the domains, navigation, measurement, entries, the screenshot exactly when it is asked for, close and disposal; and a page that is done has sent all of it |
| `CrawlerScript.StepReasons` | src/chromecdp/target.c:410-1293 | in any reachable state, what any event may do to a page: it measures only when its countdown ends, at its navigation timeout, or after the navigation when no timer can be had; it fails only by an error answer to one of its first three requests, a failed allocation or its deadline; a page that waits or is over sends nothing else |
| `CrawlerScript.ErrorFails` | src/chromecdp/target.c:443-1293 | an error answer to one of the first three requests finishes the page as failed, and it asks for nothing more |
| `CrawlerScript.CountdownStarts` | src/chromecdp/target.c:851-875 | a wait for idle starts with the whole countdown ahead |
| `CrawlerScript.CountdownHolds` | src/chromecdp/target.c:410-438 | without a timeout no run with fewer ticks than the countdown lacks measures the page |
| `CrawlerProgress.StepNears` | src/chromecdp/target.c:443-1310 | with requests accepted, every event that leaves the connection alone keeps an unfinished page on its way or reports it, and each answer to one of its requests and the end of its wait for idle bring it one step nearer |
| `CrawlerProgress.RunNears` | src/chromecdp/target.c:443-1310 | so in every run before its deadline the page is reported or nearer by the number of such events |
| `CrawlerProgress.EveryOrderCompletes` | src/chromecdp/target.c:1372-1395 | a page started in an open session is reported by every run before its deadline in which fourteen such events occur, in any order and among any others |
| `CrawlerProgress.MoveIsPossible` | src/chromecdp/target.c:443-1310 | until then some such event is always possible |
| `CrawlerLists.PageList.Count` | src/chromecdp/chromecdp.c:210-218 | the walk along the links counts the linked pages |
| `CrawlerLists.PageList.PushFront` | src/chromecdp/chromecdp.c:282-283 | a page that is not linked becomes the head of the list |
| `CrawlerLists.PageList.Unlink` | src/chromecdp/chromecdp.c:808-813 | redirecting the one link that leads to a page takes it out of the list, wherever it is, and leaves a list without it alone |
| `CrawlerLists.PendingList.Append` | src/chromecdp/cdp.c:76-91 | a new entry goes behind the last one, through the tail |
| `CrawlerLists.PendingList.Take` | src/chromecdp/cdp.c:119-145 | the first entry with a number is unlinked through the entry before it, head and tail moved as needed, and handed out with its page; none exactly when there is none |
| `CrawlerClient.CheckEnds` | src/chromecdp/chromecdp.c:332-355 | a deadline check of one page, which may unlink it and push new pages, leaves the pages after it linked in their order |
| `CrawlerClient.Browser.FillSlots` | src/chromecdp/chromecdp.c:309-330 | the loop, counting along the list that each round may lengthen, starts pages as the state machine does |
| `CrawlerClient.Browser.AbandonChain` | src/chromecdp/chromecdp.c:365-384 | the walk over the detached list abandons each of its pages |
| `CrawlerClient.Browser.CheckDeadlines` | src/chromecdp/chromecdp.c:332-355 | the walk along the live list, reading each link before a check that may unlink the page and push others, checks every page that was on the list when it began |
| `CrawlerClient.Browser.Handle` | src/chromecdp/chromecdp.c:771-906 | on the linked lists in memory every event of the loop is a step of the state machine, keeps the lists well formed and keeps its invariant |
| `Crc32.TableDivides` | src/common/crc32.c:3-69 | every one of the 256 table entries is its index divided bit by bit by 0x04c11db7 |
| `Crc32.RoundDivides` | src/common/crc32.c:71-80 | one table round is eight steps of the division, for every register and byte |
| `Crc32.DivideConcat` | src/common/crc32.c:71-80 | the division of a concatenation continues from the first part |
| `Crc32.Xcrc32` | src/common/crc32.c:71-80 | for every buffer and initial value the loop computes the bit-by-bit division |
| `Crc32.Xcrc32Concat` | src/common/crc32.c:71-80 | the checksum of a concatenation is that of the second part seeded with that of the first |
| `UrlCode.UrlEncode` | src/common/http.c:129-160 | the buffer holds the encoding of as many whole bytes as fit, and a zero after it |
| `UrlCode.UrlDecode` | src/common/http.c:162-189 | the decoding of any text: an escape is what sscanf makes of the one or two characters after the sign, one that it cannot read repeats the last value read, and none read yet is the unset variable |
| `UrlCode.PieceExact` | src/common/http.c:138-156 | a byte stands for itself exactly when it is a letter, a digit or one of - _ . ~, and is otherwise a percent sign and two small hexadecimal digits |
| `UrlCode.OnlyEscapes` | src/common/http.c:129-160 | whatever is encoded, the output is such characters and escapes only |
| `UrlCode.FittingFits` | src/common/http.c:143-153 | what is written and its zero fit the buffer |
| `UrlCode.FittingStops` | src/common/http.c:143-153 | and the next byte would not have fitted |
| `UrlCode.EscapeExact` | src/common/http.c:180-184 | what every escape is worth: two digits, one digit before another character or before the end of the text, a digit behind white space or a sign, a negative one modulo 256, and otherwise nothing |
| `UrlCode.DigitValues` | src/common/http.c:180-184 | the digits are 0 to 9 and a to f in either case, with their values |
| `UrlCode.PlusIsSpace` | src/common/http.c:169-178 | a text without a percent sign is kept, with a space for every plus |
| `UrlCode.UnsetExactly` | src/common/http.c:162-189 | the unset variable is used if and only if the first escape of the text cannot be read |
| `UrlCode.UnreadableEscape` | src/common/http.c:162-189 | a text on which it is used: %zz |
| `UrlCode.RoundTrip` | src/common/http.c:129-189 | for every source and every capacity, none included, decoding gives a prefix of the source, never a split escape, and all of it when the capacity is three times its length and one more |

## Left out

- Sockets, TLS and libuv: a write or a timer allocation is only a success or a failure.
- Diagnostics: status messages, HTTP status, error codes of GOAWAY and RST_STREAM, frame summaries, logging.
- GrpcResponse.BlocksHeard: requires header blocks within the client's limits; after a block that overruns its buffer the response model goes on as after a refused one, because the program has no defined behaviour there.
- GrpcResponse.StatusIsLast: a status of 2^31 or more, for which atoi has no defined result.
- CONTINUATION: each fragment of a split header block is decoded on its own, as the code does; joining them is not modelled.
- Strings other than the decoded header strings are byte sequences without their terminating zero; ids are compared as byte strings, which have no zero byte.
- Locks: the limiter's rule locks and the ring's read-write lock are taken as making each call atomic.
- Loading of rules from JSON beyond the rate arithmetic, and header, cookie and peer-address lookup: what they find is an input.
- Maglev hashing and sharding keys: the primary of a metric is any server, the same for all nodes.
- Serialization of labels and values in a replicated record, and the namespace name of a local copy: the text after the record's prefix is an input.
- Kubernetes peer refresh, which installs servers without sorting them, and the shared-lock election.
- Chrome start and discovery, metric emission, screenshots on disk, and freeing of pages: pages are never deallocated.
- Changes of crawler settings and of the URL list within a cycle.
- Base64, JSON configuration, scraping and the HTTP API.
- CrawlerClient.Browser.Handle: request numbers do not wrap at 2^32, which a session of fewer requests never reaches.
- UrlCode.UrlDecode: what sscanf stores for a hexadecimal prefix without digits differs between C libraries and is a parameter; the source is taken to end at its length.
- Crc32.Xcrc32: a negative length, for which the loop does not stop at the end of the buffer, is not modelled.
- HpackInt.EncodeInt: requires the pattern above the prefix to leave the prefix bits clear and to fit a byte, as every call does.
- Cluster.Pass: the caller's own copy when this node is the primary is counted by `Placement.Stored`, not stored.
