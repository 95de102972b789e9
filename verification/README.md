# cnproxy in Dafny

cnproxy is a debugging proxy. Between a client and an origin it parses WebSocket frames, negotiates SOCKS,
peeks at request heads, matches flows against filters and rules, mints certificates, pauses flows for editing,
relays responses whole or as they come, and keeps a bounded list of what it saw. This project models those parts
and proves what they promise, for all inputs, all chunkings of a byte stream, all interleavings and all runs.

Code that changes state is modelled as classes and loops; each method is proved against a function of its inputs
or of the old state, and the properties are lemmas about those functions. Sockets are modelled as chunks that
arrive and logs of what is written. Libraries (inflate, regular expressions, URL and number parsing, UTF-8
decoding, the IP address test, the file system) are function parameters, so every result holds whatever they do.
Each module sees of a flow what its code reads: `FlowModel.Flow` is the object that is paused and edited, the flow of
`FilterCompiler` is what atoms look at, and that of `Store` an identifier and an identity.

| module | models |
|---|---|
| `Prelude`, `Text`, `Numbers` | byte, string and number operations of JavaScript that several modules use |
| `WsFrame`, `WsParser`, `WsStream`, `WsRelay` | WebSocket frames (RFC 6455): the incremental parser, the encoder, whole conversations, server-side capture |
| `Diff` | the line diff |
| `FilterTokens`, `FilterGrammar`, `FilterCompiler`, `FilterMeaning`, `FilterLeniency` | the filter language, from characters to predicates: what each code means, and what becomes of text that is no filter |
| `Lru`, `Certs` | the cache and the certificate authorities (TypeScript and Rust) that share it |
| `SocksReader`, `Socks`, `SocksRefusals` | the exact-length reader and the SOCKS4/4a/5 negotiation (RFC 1928, RFC 1929), with what it grants and what it refuses, byte by byte |
| `HeadPeek`, `Handshake` | waiting for a request head, parsing it, and replaying a WebSocket handshake |
| `Curl`, `CurlCommands` | cURL export and import, and command lines that somebody typed |
| `Store`, `Headers`, `FlowModel` | the flow store, the header list, the flow and its pause |
| `Rules`, `RuleOutcomes` | the rule engine in both phases, and what its rules make of a request part by part |
| `Encoding`, `Streaming`, `Pipeline`, `PipelineRuns`, `PipelineChoices`, `PipelineEndings`, `PipelineErrors`, `Handler` | body encodings, buffered and streamed relaying, and the whole of handleRequest with its choices, ends and errors |

## What the proofs found

Where a property fails, the code is modelled as it is, a lemma gives an input that shows the failure, and the
exact condition is proved.

- `encodeFrame` and the parser agree exactly on payloads below 2^32 bytes with an opcode below 16
  (`WsParser.EncodeFrameExact`).
- A cached certificate covers every host of its key except hosts of three or more labels whose first label is
  empty, such as `.b.com`; so it is in every run and in every interleaving of the Rust version
  (`Certs.SharedCertificate`, `Certs.CacheIsSound`, `Certs.InterleavingsAreSoundIff`).
- Invalid filter text does not match everything, as the comment on `compileFilter` says: `~s)~e` is read as `~s`
  (`FilterGrammar.InvalidIsNotMatchAll`), and `!` matches nothing (`FilterLeniency.Bangs`). Any text at all tests no
  atom if and only if no atom token stands in the part that the parser reads; it then gives every flow one answer,
  which is yes when no `!` stands there (`FilterLeniency.AtomFree`). It matches every flow if and only if it does so
  under every choice of the atoms in that part (`FilterLeniency.MatchAllIff`).
- A head reaches the parser under every chunking exactly when its CRLFCRLF starts at or before 65533
  (`HeadPeek.HeadBound`).
- A replayed handshake is written as UTF-8 but was read as Latin-1, so it says the same exactly when it is ASCII
  (`Handshake.ReplayRoundTrip`).
- `shellQuote` and `tokenizeShell` undo each other exactly on text without a single quote (`Curl.QuoteRoundTrip`).
- Header lines of one name in two spellings are grouped apart, and Node sends only the group of the spelling that
  first appears last. A client then may decode a body that was recorded undecoded (`Encoding.TwoSpellingsDiverge`);
  the exact condition is `Encoding.UntouchedIffSameKind`. HTTP/2 lower-cases names first and is not affected.
- Streaming is chosen before the response rules run. A status rule can make a body rule match afterwards; the
  buffered path would then rewrite the body, the streamed one does not (`Streaming.StatusThenReplaceDiverges`). It can
  also make the response breakpoint match; the buffered path would then pause, the streamed one has sent everything
  (`Streaming.StatusThenBreakpointDiverges`). Whatever substitutions do, the buffered path sends the bytes that the
  stream sends if and only if no substitution rule fires on the collected response and the breakpoint does not match
  what the rules make of it (`Streaming.SameBytesIff`).
- The truncation flag of a streamed body differs from that of a buffered one exactly when the body fits and an empty
  chunk comes once the store is full to the last byte, and the streamed path never cuts the stored request body
  (`Streaming.Tee.Finish`, `Streaming.StreamingSameHead`).
- A killed flow is destroyed if and only if no listener of the store throws as it wakes. If one does, the error hook
  runs and the client is answered with 502 (`PipelineRuns.KilledWakes`, `PipelineRuns.KilledRuns`). The upstream is
  not contacted even then (`Pipeline.EveryRunIsLawful`).
- The maximum for stored bodies cuts the request body only when a whole response was the last thing written: a
  request that was blocked, killed, streamed or ended in an error keeps a body of any length
  (`PipelineEndings.RequestCutIff`).
- A response head that Node refuses leaves its headers behind, and the 502 is written over them: it declares the
  length of the refused body, right if and only if that is as long as the error text (`PipelineErrors.NoticeLength`);
  with the status 1000 and an empty body the text is sent with the length 0 (`PipelineErrors.StaleLength`).
- Without a configured login the SOCKS5 server selects method 0 whether it was offered or not: the method selected is
  one that was offered, or 0xff, if and only if a login is configured or 0 was offered
  (`Socks.SelectedIsOfferedIff`).
- A SOCKS4 negotiation cut off inside the user id or host name can still grant the request: an unfinished negotiation
  is granted at the end of the stream if and only if at least eight bytes came, the first of them 4 and the second 1
  (`Socks.TruncatedGrantIff`; `Socks.TruncatedGrant` is a SOCKS4a request for a host that begins with "a", granted
  for 0.0.0.1).
- A flow store that is given the identifier of a listed flow loses a flow from its index (`Store.ReuseLosesAFlow`).
  Adding keeps list and index in step if and only if no listed flow has the identifier (`Store.AddKeepsIff`), and
  every state of a run is in step if and only if every identifier was fresh in this sense (`Store.RunKeepsIff`).
- cURL export and import undo each other exactly when nothing exported holds a single quote
  (`Curl.CurlRoundTripExact`).

## Model

| member | source | states |
|---|---|---|
| `WsFrame.BigEndianRoundTrip` | src/core/ws-frame.ts:66-74 | a k-byte length field gives a number back if and only if it is below 256^k |
| `WsFrame.MaskInvolution` | src/core/ws-frame.ts:86-91 | masking with any four-byte key is its own inverse |
| `WsFrame.NextFrameStable` | src/core/ws-frame.ts:54-92 | a complete frame is cut off the same whatever bytes follow it |
| `WsFrame.Parse` | src/core/ws-frame.ts:50-123 | the loop ends, and leaves no complete frame in the buffer |
| `WsFrame.ParseChunks` | src/core/ws-frame.ts:50-123 | for every state and all x, y: pushing x and then y gives the output and the state of pushing x + y |
| `WsFrame.ParseAllIsParse` | src/core/ws-frame.ts:50-123 | any list of chunks gives the output and the state of one push of all the bytes |
| `WsFrame.CutWire` | src/core/ws-frame.ts:54-92 | from a frame with any valid length field that announces no more bytes than there are, masked or not, the parser takes the announced number of bytes with the flags and opcode sent |
| `WsFrame.WireRoundTrip` | src/core/ws-frame.ts:54-92 | every frame below 2^64 bytes, masked or not, in each of the three length classes, is read back whole whatever follows |
| `WsParser.MaskBytes` | src/core/ws-frame.ts:32-34 | the masking loop computes the repeated XOR |
| `WsParser.WsFrameParser.Push` | src/core/ws-frame.ts:50-123 | the output, buffer, fragments, opcode and compression flag after a chunk are those of the frame parse of the old buffer and the chunk |
| `WsParser.WsFrameParser.TryCut` | src/core/ws-frame.ts:54-92 | one round of the loop finds exactly the first complete frame and its size, or none |
| `WsParser.WsFrameParser.Take` | src/core/ws-frame.ts:94-121 | one frame changes the assembly state and yields a message as sections 5.4 and 5.5 of RFC 6455 say, inflating a compressed message or keeping it when inflating fails |
| `WsParser.IsProbablyText` | src/core/ws-frame.ts:37-40 | true exactly when no byte is below the horizontal tab |
| `WsParser.LengthField` | src/core/ws-frame.ts:22-25 | the shifted and masked length bytes are the low two or four bytes of the length |
| `WsParser.EncodeFrame` | src/core/ws-frame.ts:19-35 | the frame written is the wire form of one unfragmented frame, with the first byte 0x80 or the given opcode, or text or binary by content, and the fixed mask key |
| `WsParser.EncoderLengthValue` | src/core/ws-frame.ts:22-25 | the length a receiver reads never exceeds the real one, and is the real one if and only if that is below 2^32 |
| `WsParser.EncodeFrameExact` | src/core/ws-frame.ts:19-35 | the parser reads an encoded frame back whole, with the opcode asked for, if and only if the payload is below 2^32 bytes and the opcode below 16 |
| `WsParser.InjectedBytes` | src/core/ws-frame.ts:19-35 | a short masked frame as bytes: 128 plus the opcode, 128 plus the length, the key a1 b2 c3 d4, and the payload XORed with it |
| `WsParser.LengthInBytes` | src/core/ws-frame.ts:22-25 | one length byte below 126, 126 and two below 65536, 127, four zeros and four from there on, high byte first |
| `WsStream.FeedItem` | src/core/ws-frame.ts:94-121 | a message in any number of fragments with control frames between them comes out as the control messages in order and the joined message |
| `WsStream.ParseWire` | src/core/ws-frame.ts:50-123 | a stream of frames with any masks parses as exactly those frames |
| `WsStream.CaptureIsExact` | src/core/ws-frame.ts:50-123 | any conversation, fragmented, interleaved with control frames, masked and cut into chunks in any way, yields exactly its messages in order, and nothing is kept back |
| `WsStream.CaptureRecoversOriginals` | src/core/ws-frame.ts:50-123 | the data messages captured are the messages that were sent, compressed or not, the control messages are the closes, pings and pongs sent, in sending order, and there is nothing else |
| `WsStream.OneFrame` | src/core/ws-frame.ts:94-121 | a message in one frame, or a control frame, under any mask, in any chunks, whatever is being assembled and whatever follows: opcode 8 is a close, 9 a ping, 10 a pong, 2 binary and any other text; a compressed message is inflated with 0, 0, 255, 255 appended, and kept when that fails |
| `WsStream.FrameBytes` | src/core/ws-frame.ts:54-92 | the bytes of a short frame: FIN is worth 128 and RSV1 64, the mask bit 128 before the length, and the payload is XORed with the repeated key |
| `WsRelay.ChunkReflects` | src/core/websocket.ts:126-159 | one chunk keeps: bytes passed on are the stream so far, and what is captured is the frame parse of everything after its first CRLFCRLF, inflating when the response head agrees to it |
| `WsRelay.ServerCapture` | src/core/websocket.ts:119-159 | the same after any list of chunks: verbatim relaying, whole-stream capture |
| `WsRelay.HasDeflate` | src/core/websocket.ts:135-147 | the loop over the head lines finds an agreed permessage-deflate if and only if some line names it |
| `WsRelay.DeflateIff` | src/core/websocket.ts:135-147 | compression is on for exactly the heads with a line that names sec-websocket-extensions, in any spelling and with white space around it, and permessage-deflate in its value |
| `WsRelay.ServerSide.OnData` | src/core/websocket.ts:126-159 | the listener takes the step that `ChunkReflects` is about |
| `Diff.FillTable` | src/api/diff.ts:21-26 | the loops fill every cell with the longest-common-subsequence length of the two suffixes |
| `Diff.DiffLines` | src/api/diff.ts:18-46 | the walk through the table is the greedy walk by that length |
| `Diff.WalkIsScript` | src/api/diff.ts:27-45 | same and deleted lines spell the first input, same and added lines the second, in order |
| `Diff.LcsIsMaximal` | src/api/diff.ts:22-26 | no common subsequence is longer than the table says |
| `Diff.WalkKeepsLcs` | src/api/diff.ts:30-45 | the walk reports as many same lines as the table says |
| `Diff.DiffIsOptimal` | src/api/diff.ts:18-46 | the same lines are a longest common subsequence, and no edit script from the first input to the second has fewer insertions and deletions |
| `Diff.UnchangedIffEqual` | src/api/diff.ts:18-46 | all lines are the same if and only if the inputs are equal |
| `Diff.DeletionsComeFirst` | src/api/diff.ts:30-45 | no added line is directly followed by a deleted one: between unchanged lines the deletions come first |
| `FilterTokens.ReadArgument` | src/rules/filter.ts:69-87 | a quoted argument runs to its quote or the end, a bare one to white space, &, vertical bar or a closing parenthesis |
| `FilterTokens.ReadAtom` | src/rules/filter.ts:44-57 | code letters, white space and argument as `AtomArg` reads them |
| `FilterTokens.Tokenize` | src/rules/filter.ts:29-63 | the tokenizer ends on every text, with the tokens of `Tokens` |
| `FilterTokens.TokensOfLayout` | src/rules/filter.ts:29-87 | a token list written with any white space that its neighbours allow, arguments quoted or bare, is tokenized back exactly |
| `FilterGrammar.StopsAtClose` | src/rules/filter.ts:162-232 | the parser reads every token up to the end or a closing parenthesis |
| `FilterGrammar.ParsePrinted` | src/rules/filter.ts:162-232 | the tokens of a printed filter parse to its truth value under every valuation, and none is left |
| `FilterGrammar.CompileLayout` | src/rules/filter.ts:235-243 | compiling a laid-out token list is parsing its tokens |
| `FilterGrammar.CompilePrinted` | src/rules/filter.ts:29-87 | print any filter with the parentheses that ! over & over the bar needs (and any more), & or white space for AND, arguments quoted or bare, white space anywhere: compiling gives the same truth value under every valuation |
| `FilterGrammar.InvalidIsNotMatchAll` | src/rules/filter.ts:234-243 | the text "~s)~e" compiles to the test for a response, not to match-all |
| `FilterLeniency.TestsAreAtoms` | src/rules/filter.ts:162-232 | on every token list the tests of the formula are exactly, and in order, the atom tokens of the part read: none is lost or made up |
| `FilterLeniency.AtomFree` | src/rules/filter.ts:162-243 | any text tests no atom if and only if no atom token stands in the part read; then it gives one answer on all flows, and yes when no ! stands there |
| `FilterLeniency.MatchAllIff` | src/rules/filter.ts:162-243 | any text matches everything if and only if it holds for every subset of the atoms in the part read |
| `FilterLeniency.Bangs` | src/rules/filter.ts:162-243 | a text of n exclamation marks matches everything for even n and nothing for odd n |
| `FilterCompiler.Parser.ParseOr` | src/rules/filter.ts:176-185 | the closure decides, on every flow, the formula of the tokens read, and the position is after them |
| `FilterCompiler.Parser.ParseAnd` | src/rules/filter.ts:187-205 | the same for a conjunction, explicit or implicit |
| `FilterCompiler.Parser.ParseUnary` | src/rules/filter.ts:207-214 | the same for a negation |
| `FilterCompiler.Parser.ParsePrimary` | src/rules/filter.ts:216-231 | the same for an atom, a group and a stray combinator |
| `FilterCompiler.AtomPredicate` | src/rules/filter.ts:101-154 | the pattern is fixed once and one closure returned per code; on every flow the closure decides the truth of the atom that the grammar speaks of |
| `FilterCompiler.PatternTest` | src/rules/filter.ts:101-110 | the test built from the pattern compiled once, or from its escaped text when it does not compile, matches exactly the subjects that `Matches` says, and all of them without a pattern |
| `FilterCompiler.CompileFilter` | src/rules/filter.ts:235-243 | the predicate decides the compiled formula on every flow |
| `FilterCompiler.CompileExpr` | src/rules/filter.ts:235-243 | compiling the text of a filter gives a predicate that agrees with the filter on every flow |
| `FilterMeaning.QuotedAtom` | src/rules/filter.ts:29-87 | each of the eleven searching codes with a quoted argument compiles to its test |
| `FilterMeaning.BareAtom` | src/rules/filter.ts:29-87 | and so it does with a bare argument of printable ASCII without &, vertical bar or closing parenthesis |
| `FilterMeaning.NakedAtom` | src/rules/filter.ts:58-60 | quoted text alone is a search in the URL |
| `FilterMeaning.FlagAtom` | src/rules/filter.ts:29-67 | the eight codes without argument compile to their test |
| `FilterMeaning.RequestCodes` | src/rules/filter.ts:113-154 | the closures of u, d, m, hq, bq and a give one answer on flows that agree on the one part of the request that they look at, whatever the response |
| `FilterMeaning.ResponseCodes` | src/rules/filter.ts:113-154 | those of hs, bs, t, c and s give one answer on flows that agree on their part of the response, whatever the request; without a response c and s do not hold |
| `FilterMeaning.EitherHeader` | src/rules/filter.ts:123-126 | h holds if and only if hq or hs does |
| `FilterMeaning.FlagCodes` | src/rules/filter.ts:137-153 | s, e, marked, websocket and http each equal their field; q, tcp and unknown codes always hold |
| `FilterMeaning.EmptyArgument` | src/rules/filter.ts:101-111 | an empty argument finds everything, except that c still asks for a response |
| `FilterMeaning.StatusCode` | src/rules/filter.ts:119-120 | c with a three-digit number holds if and only if that is the status, and with one digit if and only if the status begins with it |
| `FilterMeaning.EscapedStandsFor` | src/rules/filter.ts:156-158 | the escaped form of any text is a pattern that stands for exactly that text |
| `FilterMeaning.TextCodes` | src/rules/filter.ts:101-136 | a text without metacharacters, or one that is no regular expression, is found as it is: by u in the URL, d in the host, m in the method, t in the content type, bq and bs in the bodies |
| `FilterMeaning.LineCodes` | src/rules/filter.ts:92-136 | a text of one line is found by hq and hs if and only if some header line of that side holds it, and by b if and only if either body does |
| `Lru.LRU.Get` | src/util/lru.ts:8-15 | the value under the key, which moves to the young end; nothing else changes |
| `Lru.LRU.Set` | src/util/lru.ts:17-24 | the key stands at the young end with the value; the oldest entry goes when there are too many |
| `Lru.RunIsFaithful` | src/util/lru.ts:8-24 | after any run the cache holds, in order of their last requests, exactly the keys since whose last request at most max different keys were asked for, each with the value last answered |
| `Lru.LargerHoldsMore` | src/util/lru.ts:8-24 | a larger cache holds after the same run everything a smaller one holds |
| `Certs.MintLeaf` | src/cert/ca.ts:145-184 | the names of a leaf: the address, or the key, its parent domain when it is a wildcard, and the host when it is not the key |
| `Certs.CollapsedKey` | src/cert/ca.ts:186-192 | a name of three or more labels is keyed by "*." and everything after its first dot |
| `Certs.CoversOwn` | src/cert/ca.ts:145-184 | a certificate covers the host it was minted for |
| `Certs.CoversParentIff` | src/cert/ca.ts:145-192 | a certificate for a host of three or more labels covers the part after its first dot if and only if that does not read as an address |
| `Certs.SharedCertificate` | cnproxy-core/src/cert.rs:205-281 | a certificate minted for one host of a key covers another (exact name, address, or one label under a wildcard, section 6.4.3 of RFC 6125) if and only if it is the same host or its first label is not empty |
| `Certs.CacheIsSound` | src/cert/ca.ts:118-192 | over all runs of requests with hits, misses and evictions a host is handed a certificate that covers it if and only if its first label is not empty |
| `Certs.CertificateAuthority.GetSecureContext` | src/cert/ca.ts:118-128 | the answer and the new cache are those of the run model, and the other cache is untouched |
| `Certs.CertificateAuthority.GetCredentialsFor` | src/cert/ca.ts:130-139 | the same on its own cache |
| `Certs.ExecutionKeeps` | cnproxy-core/src/cert.rs:180-201 | in every interleaving of locked lookups, minting and locked inserts, every certificate cached, held or returned was minted for a host of the right key |
| `Certs.InterleavingsAreSound` | cnproxy-core/src/cert.rs:180-281 | so every returned certificate covers its host, when the first label is not empty |
| `Certs.InterleavingsAreSoundIff` | cnproxy-core/src/cert.rs:180-281 | and not in every interleaving when it is empty |
| `SocksReader.Reader.Pump` | src/core/socks.ts:30-37 | queued reads are answered from the buffer in order while it holds enough |
| `SocksReader.Reader.OnData` | src/core/socks.ts:19-22 | bytes are appended and reads answered |
| `SocksReader.Reader.OnEnd` | src/core/socks.ts:23-26 | every waiting read is answered with null |
| `SocksReader.Reader.RequestRead` | src/core/socks.ts:38-44 | a read is queued and answered, or answered with null after the end |
| `SocksReader.ReadsCutTheStream` | src/core/socks.ts:15-54 | in any order of reads and chunks before the end, the answers are the stream cut at the sizes asked for, and the buffer is the rest |
| `SocksReader.NothingLost` | src/core/socks.ts:15-54 | answers and buffer are together the bytes received |
| `Socks.RunTranscript` | src/core/socks.ts:61-179 | on any bytes, with the connection ending anywhere, the replies written are those prescribed for the position reached, and a target is returned exactly with the granting reply |
| `Socks.EndGrantsIff` | src/core/socks.ts:148-179 | at every unfinished position the end of the stream grants a request if and only if the user id or host name of a SOCKS4 CONNECT is being read, and then for the four address bytes and the port of its head |
| `Socks.TruncatedGrantIff` | src/core/socks.ts:148-179 | any bytes in any chunks that do not finish the negotiation are granted at the end of the stream if and only if there are at least eight of which the first is 4 and the second 1 |
| `Socks.TruncatedGrant` | src/core/socks.ts:148-179 | a SOCKS4a request cut off in the host name is granted, for the address 0.0.0.1 |
| `Socks.ChunkingIsInvisible` | src/core/socks.ts:61-179 | any two chunkings of the same bytes reach the same position with the same replies and the same bytes left |
| `Socks.NothingLost` | src/core/socks.ts:45-53 | the bytes handed on are a tail of the bytes received |
| `Socks.HandshakeRoundTrip` | src/core/socks.ts:61-179 | every well-formed SOCKS5 CONNECT (IPv4, domain, IPv6, with or without the login of section 2 of RFC 1929, whatever methods it offers when no login is configured) and SOCKS4 or 4a CONNECT, followed by any payload, in any chunks: the encoded host and port, the greeting and granting replies that the program writes, and the payload left over |
| `Socks.SelectedIsOfferedIff` | src/core/socks.ts:78-109 | to every greeting, whatever follows it in whatever chunks, the method selected is one that was offered, or 0xff, as section 3 of RFC 1928 asks, if and only if a login is configured or method 0 was offered |
| `SocksRefusals.RequestInBytes` | src/core/socks.ts:61-179 | every request of the round trip, written out in bytes |
| `SocksRefusals.RepliesInBytes` | src/core/socks.ts:61-179 | and the replies to it |
| `SocksRefusals.LoginDecides` | src/core/socks.ts:84-106 | with a login configured and offered, for all user and password fields, whatever follows and in any chunks: the bytes written begin with 5 2 1 0 if and only if both fields decode to what is configured; else they are exactly 5 2 1 1 and there is no target, also at the end of the stream |
| `SocksRefusals.LoginNotOffered` | src/core/socks.ts:84-91 | when the login is not offered exactly 5 255 is written, and there is no target |
| `SocksRefusals.LoginVersion` | src/core/socks.ts:92-94 | a login of another version gets no answer and no target |
| `SocksRefusals.CommandRefused` | src/core/socks.ts:111-117 | a SOCKS5 command other than 1 is answered with 5 7 and zeros, an unknown address type with nothing, and neither yields a target |
| `SocksRefusals.CommandRefusedAfterLogin` | src/core/socks.ts:84-117 | the same after a right login |
| `SocksRefusals.CommandRefused4` | src/core/socks.ts:148-179 | on any bytes that begin with 4 and a command other than 1, in any chunks and with the connection ending anywhere, there is no target and no reply but 0 91 and zeros |
| `SocksRefusals.CommandAnswered4` | src/core/socks.ts:148-179 | and a complete request of that kind gets that reply |
| `SocksRefusals.CommandAnswered4a` | src/core/socks.ts:148-179 | also with a host name |
| `SocksRefusals.UnknownVersion` | src/core/socks.ts:61-78 | a first byte other than 4 and 5 gets no answer and no target |
| `Socks.DottedQuadReads` | src/core/socks.ts:120-124 | the host text of an IPv4 address splits into four decimal numbers that are its bytes in order |
| `Socks.HexGroupsReads` | src/core/socks.ts:130-135 | the host text of an IPv6 address splits into eight hexadecimal numbers that are its groups in order |
| `Socks.Negotiation.OnData` | src/core/socks.ts:61-179 | a chunk takes the object to the machine's next resting position |
| `Socks.Negotiation.OnEnd` | src/core/socks.ts:23-26 | the end of the stream takes it to a final position, as `EndStream` says |
| `HeadPeek.PeekExplained` | src/core/head-parser.ts:29-65 | under every chunking: while pending the buffer is everything received and at most 65536 bytes; a head is handed on with all bytes read by then; giving up happens only past the bound |
| `HeadPeek.ShortHeadIsHanded` | src/core/head-parser.ts:34-46 | a head within the bound is handed on under every chunking, as the same bytes |
| `HeadPeek.LongHeadDependsOnChunks` | src/core/head-parser.ts:34-46 | past the bound one chunking hands the head on and another gives up |
| `HeadPeek.HeadBound` | src/core/head-parser.ts:23-65 | a stream whose first CRLFCRLF starts at k is handed on under every chunking if and only if k + 3 <= 65536 |
| `HeadPeek.Peeker.OnData` | src/core/head-parser.ts:43-46 | the listener takes the step of the model |
| `Handshake.ParseHead` | src/core/head-parser.ts:67-86 | the loop gives the raw header list of `Parse` and a lookup map in which the last field of a name wins |
| `Handshake.ParseIsValid` | src/core/head-parser.ts:67-86 | what the parser accepts has words for method and target, a version number, trimmed names and values, and names without a colon |
| `Handshake.LookupLast` | src/core/head-parser.ts:72-84 | the lookup map holds exactly the names of the fields in small letters, each with the value of its last field |
| `Handshake.PrintHandshake` | src/core/websocket.ts:95-106 | the loop writes the request line and the fields with the compression rewrite |
| `Handshake.RenegotiatedIff` | src/core/websocket.ts:99-104 | the extensions header, in any spelling, becomes the offer without context takeover if and only if it offers compression; every other field stays |
| `Handshake.PrintedEndsOnce` | src/core/websocket.ts:95-106 | on the wire the first CRLFCRLF of a printed handshake is its end |
| `Handshake.ReplayRoundTrip` | src/core/websocket.ts:95-106 | parsing a printed handshake gives method, target, version and header list back (up to the compression rewrite) if and only if they are ASCII |
| `Handshake.ParsedReplay` | src/core/head-parser.ts:67-86 | both, for every head that the parser accepts |
| `Curl.TokenizeShell` | src/api/composer.ts:174-205 | the loop yields the tokens of `ShellTokens` |
| `Curl.QuoteRoundTrip` | src/api/composer.ts:244-246 | a quoted text is tokenized back to itself alone if and only if it has no single quote |
| `Curl.QuoteIsLost` | src/api/composer.ts:196-201 | a quoted single quote comes back as a backslash |
| `Curl.ParseCurlCommand` | src/api/composer.ts:141-172 | the loop over the tokens gives the specification of `ParseCurl` |
| `Curl.CurlRoundTrip` | src/api/composer.ts:141-222 | importing an export gives the same method, URL, headers but host in order, and body, with newlines and backslashes, for every request without a single quote |
| `Curl.CurlRoundTripExact` | src/api/composer.ts:141-246 | for every request with a word for method and trimmed header names and values, double quotes or not, the import gives the export back if and only if there is no single quote in what is exported |
| `Curl.ExportedAppend` | src/api/composer.ts:211-216 | exactly the fields named host, in any spelling, are not exported, and the others keep their order |
| `CurlCommands.PlainCommand` | src/api/composer.ts:141-172 | a quoted URL alone is a GET |
| `CurlCommands.CommandWithOption` | src/api/composer.ts:149-169 | what each of the thirteen option words does to a request with its argument |
| `CurlCommands.DefaultMethod` | src/api/composer.ts:170-171 | any command line without -X and --request is a POST if it gives a body and a GET otherwise |
| `CurlCommands.DoubleQuoted` | src/api/composer.ts:174-205 | any text, in double quotes with a backslash before each double quote and backslash, is tokenized back to itself alone |
| `Store.FlowStore.Trim` | src/flow/store.ts:60-65 | flows and their index entries are dropped from the front until the list fits |
| `Store.TrimmingEndsIff` | src/flow/store.ts:60-65 | dropping from the front can make the list fit if and only if the maximum is not negative |
| `Store.FlowStore.AddFlow` | src/flow/store.ts:24-29 | the flow is appended and indexed, then the list trimmed |
| `Store.FlowStore.SetMaximum` | src/flow/store.ts:19-22 | the maximum is replaced and the list trimmed |
| `Store.FlowStore.ClearAll` | src/flow/store.ts:44-48 | list and index are emptied |
| `Store.FlowStore.RemoveFlow` | src/flow/store.ts:51-58 | the first flow of the identifier and its index entry go, and the answer says whether there was one |
| `Store.FlowStore.Get` | src/flow/store.ts:36-38 | what the index holds for the identifier |
| `Store.EveryRun` | src/flow/store.ts:19-65 | over every run with fresh identifiers the list is a suffix of the flows added since the last clear minus those removed, is no longer than the maximum, and get finds a flow if and only if it is listed |
| `Store.ReuseLosesAFlow` | src/flow/store.ts:24-29 | a run in which, with the identifier of a listed flow used again, a listed flow is no longer found |
| `Store.AddKeepsIff` | src/flow/store.ts:24-29 | adding keeps list and index in step if and only if no listed flow has the identifier, and every listed flow findable likewise when the flow itself is not listed |
| `Store.RunKeepsIff` | src/flow/store.ts:19-65 | list and index are in step in every state of a run if and only if every flow was added with an identifier that no listed flow had |
| `Headers.HeaderList.Get` | src/flow/headers.ts:27-33 | all values of the name in any spelling, joined in order, or nothing |
| `Headers.HeaderList.Has` | src/flow/headers.ts:35-38 | whether there is a field of the name |
| `Headers.HeaderList.Set` | src/flow/headers.ts:41-58 | filtering and rewriting the slot puts the value in the first field of the name and removes the others, or appends it |
| `Headers.HeaderList.Delete` | src/flow/headers.ts:64-67 | all fields of the name go |
| `Headers.HeaderList.Clone` | src/flow/headers.ts:89-91 | a separate list of the same fields |
| `Headers.SetLaw` | src/flow/headers.ts:41-58 | after setting, the name in any spelling reads as exactly the value and every other name as before |
| `Headers.DeleteLaw` | src/flow/headers.ts:64-67 | after deleting, the name in any spelling is absent and every other name as before |
| `Headers.AddLaw` | src/flow/headers.ts:27-33 | one more field of a name, in any spelling, adds its value after a comma and a space, and changes no other name |
| `Headers.HasValues` | src/flow/headers.ts:27-38 | has is true if and only if get finds something |
| `FlowModel.Flow.Intercept` | src/flow/flow.ts:110-115 | the flow shows as intercepted and one more pause is open; one that was pending is never answered |
| `FlowModel.Flow.Resume` | src/flow/flow.ts:117-123 | the open pause gets this one answer; without one nothing happens |
| `FlowModel.Flow.Kill` | src/flow/flow.ts:125-131 | likewise |
| `Rules.RuleEngine.ApplyRequest` | src/rules/engine.ts:154-264 | the loop, with later rules matched against the changed flow, gives the flow and directive of `Requested` |
| `Rules.RequestReading` | src/rules/engine.ts:154-264 | block if and only if some block or abort fired; the largest delay; the status of the last redirect, status or missed directory, else 200; the body of the last body-giving rule; headers edited in order; names appended in order; mocked if and only if some rule asks for it |
| `Rules.OperatorEffect` | src/rules/engine.ts:167-230 | a header operator leaves its header with exactly its value and all others alone; each operator touches its own part of the flow and nothing else |
| `RuleOutcomes.FiredIff` | src/rules/engine.ts:161-164 | a rule fires if and only if it matches the flow as the rules before it left it and its operator is known |
| `RuleOutcomes.RequestOutcome` | src/rules/engine.ts:154-283 | over every rule list: host and port are those of the last host rule or rewrite to a URL that fired, path and scheme those of the last rewrite, the body the old one put through the substitutions in order, every header as the last rule that speaks of it says, the color that of the last highlight or yellow, and the response untouched |
| `RuleOutcomes.AppliedNames` | src/rules/engine.ts:164 | the name that each operator leaves on the flow |
| `RuleOutcomes.OneRule` | src/rules/engine.ts:166-264 | what each operator alone asks of the handler: 302 with location and an empty body, a status or 200, a delay or none, blocking, files, missing directories, mock bodies with their type |
| `RuleOutcomes.OneResponseRule` | src/rules/engine.ts:294-315 | what each operator alone does to a response: its status unless zero or no number, its body, each header, and the names resHeaders and resReplace that are left |
| `Rules.EditedLaw` | src/rules/engine.ts:339-362 | after a header specification every name reads as its last edit says, absent when that is empty, and as before when there is none |
| `Rules.SetEachLaw` | src/rules/engine.ts:206-227 | the headers of a mapped file read as the last one of their name, over what was there |
| `Rules.RuleEngine.HasResponseBodyRule` | src/rules/engine.ts:284-290 | true if and only if some resReplace, resBody, mock or file rule matches |
| `Rules.RuleEngine.ApplyResponse` | src/rules/engine.ts:294-315 | the loop gives the flow of `Responded`, and nothing without a response |
| `Rules.ResponseReading` | src/rules/engine.ts:294-315 | status, headers and body are each changed by their own operators alone in the order of the rules that matched, and nothing else of the flow but the noted names |
| `Rules.LastStatusWins` | src/rules/engine.ts:305-307 | the status is that of the last rule that asks for a number other than zero, else the old one |
| `Encoding.OutgoingValues` | src/core/request-handler.ts:374-389 | for every header list, grouping by exact name and setting one group after the other sends, under each name, the group of the spelling that first appears last |
| `Encoding.AllValuesGoOut` | src/core/request-handler.ts:374-389 | that is all values of the name in order if and only if they are written alike |
| `Streaming.HeadersOut` | src/core/request-handler.ts:362-389 | under each name the group of the newest spelling goes out, nothing under transfer-encoding and connection, and the length of the body, or of the upstream when streamed |
| `Encoding.KindDecides` | src/core/encoding.ts:13-42 | two encodings decode alike for all decompressors and bodies if and only if they select the same decompressor |
| `Encoding.DecodedIsDecode` | src/core/encoding.ts:13-42 | decoding only what is decodable is decoding: unknown encodings leave the body alone |
| `Encoding.Decompressors` | src/core/encoding.ts:13-42 | each encoding by name, in any spelling and with white space around it: its decompressor, the raw one as fallback of deflate, and the body as it is when all fail or the name is another |
| `Encoding.ClientSeesRecorded` | src/core/request-handler.ts:189-219 | with the encoding left alone and the body in place, decoding what was sent by the encoding sent gives the body recorded, the length sent is the byte count, and an untouched body goes out byte for byte; for an untouched body the encoding header must have one spelling |
| `Encoding.DeclaredLength` | src/core/request-handler.ts:386 | the content-length sent reads as the number of bytes sent |
| `Encoding.UntouchedIffSameKind` | src/core/request-handler.ts:374-389 | an untouched body is read as recorded, for all bodies and decompressors, if and only if the header sent selects the decompressor that the header recorded does |
| `Encoding.TwoSpellingsDiverge` | src/core/request-handler.ts:374-389 | with "Content-Encoding: gzip" and "content-encoding: br" the body is recorded undecoded and the client decodes it |
| `Encoding.ClientSeesRecordedH2` | src/core/h2-handler.ts:275-292 | the same claim on HTTP/2, for any spelling |
| `Encoding.NoForbiddenH2` | src/core/h2-handler.ts:24-31 | none of the six connection-specific headers is sent on HTTP/2 |
| `Encoding.HeadersOutH2` | src/core/h2-handler.ts:275-292 | under every other name all its values go out in order, with the length of the payload, and without the encoding when the body is changed |
| `Streaming.Collector.OnEnd` | src/core/stream-util.ts:8-15 | the collected body is the chunks joined in order |
| `Streaming.Tee.OnData` | src/core/request-handler.ts:325-340 | after every chunk: sent is all that came, captured is its bounded prefix, and the flag is set if and only if there was more or an empty chunk met a full store |
| `Streaming.Tee.Finish` | src/core/request-handler.ts:341-356 | the recorded body is `boundForStorage` of the whole body, and so is the flag if and only if no empty chunk met a full store that the body just fills |
| `Streaming.StreamingRefinesBuffering` | src/core/request-handler.ts:168-219 | when streaming is chosen and body rules and breakpoints look at the request only, every chunking sends and stores what collecting first would have sent and stored |
| `Streaming.SameBytesIff` | src/core/request-handler.ts:168-219 | for every rule list, breakpoint and undecodable encoding: whatever substitutions do, the buffered path sends exactly the upstream bytes if and only if no substitution rule fires on the collected response and the response breakpoint, asked after the rules, does not match what they make of it |
| `Streaming.StreamingSameHead` | src/core/request-handler.ts:362-389 | when rules do not look at the response body, status and headers other than content-length agree too, and the recorded flows are equal if and only if the request body fits |
| `Streaming.StatusThenReplaceDiverges` | src/rules/engine.ts:284-315 | two rules for which the request goes upstream unchanged, streaming is chosen, and the two paths send different bodies |
| `Streaming.StatusThenBreakpointDiverges` | src/core/request-handler.ts:168-207 | one status rule and a breakpoint on the new status: streaming is chosen, no substitution rule fires, and the buffered path pauses where the streamed one has sent the whole body |
| `Pipeline.NextKeeps` | src/core/request-handler.ts:91-231 | every event keeps the invariant of the handler |
| `Pipeline.EveryRunIsLawful` | src/core/request-handler.ts:91-231 | in every run, with resume, kill and edits at any time: at most one upstream contact or made-up response, as the rules asked, with nothing before it but the request hooks and resumed pauses (so never after kill, block or mock) and only after a matching breakpoint was resumed; destroyed only on kill or block; at most one response head; hooks a prefix of the order and then at most one error; each pause followed by its one answer; intercepted if and only if a resolver is pending; at the end answered or cut off, not both |
| `PipelineEndings.EveryRunEnds` | src/core/request-handler.ts:91-231 | in every run chunks stand only between the head of a streamed response and its close; after a whole response there is nothing but the error hook and the close; the error hook is followed by the close or by the 502, by whether a whole response went before; nothing follows a close, a 400 or 502, or the destruction; and the last thing done tells where the handler waits |
| `PipelineEndings.RequestCutIff` | src/core/request-handler.ts:234-245 | in every run, compared with the same events under any larger maximum: the same is done, and the request body recorded at the end exceeds the maximum if and only if it was longer and the last thing done was not to write a whole response |
| `PipelineErrors.NoticeLength` | src/core/request-handler.ts:221-231 | in every run, for an error caught before a head is out: the 502 carries its text; no length is declared when no head was refused; after a refused whole response with its headers set the length of that one is declared, which is right if and only if both bodies are equally long; after a refused stream head the length set with it is |
| `PipelineErrors.StaleLength` | src/core/request-handler.ts:374-389 | a status of 1000 on an empty response: the error text is sent with a declared length of 0 |
| `PipelineErrors.FailureAnswered` | src/core/request-handler.ts:221-231 | in every run, when the request body, the upstream or the response body fails, the error hook runs and then the client gets a 502 with the text of the failure and no declared length |
| `PipelineErrors.BadTarget` | src/core/request-handler.ts:75-78 | a request whose target cannot be read is answered with 400 and a fixed text, and nothing else happens |
| `PipelineErrors.ListenerThrows` | src/core/request-handler.ts:216-231 | when a listener throws once the reply is written, the error hook runs and then the response is closed |
| `Pipeline.FirstAnswerCounts` | src/flow/flow.ts:110-131 | a pause stands until the first resume or kill after it, which is its answer |
| `PipelineChoices.StreamsIff` | src/core/request-handler.ts:168-187 | in every state that a run reaches: a stream begins only when there is no hook on responses, no matching resReplace, resBody, mock or file rule, no matching breakpoint, no gzip, x-gzip, deflate or br encoding, and an event stream, no length, or one above 1048576; and then the body is collected if and only if one of these fails |
| `PipelineChoices.DelayWaits` | src/core/request-handler.ts:118-124 | in every run: between the rules asking for a delay and the request being sent, answered by a made-up response or blocked, the wait has ended |
| `PipelineChoices.NoDelayNoWait` | src/core/request-handler.ts:118 | the handler waits only for a delay that the rules asked for |
| `PipelineChoices.RequestPhase` | src/core/request-handler.ts:104-143 | at the end of the request hooks: the breakpoint is asked about what the rules made of the flow and pauses it, else a delay starts, else the request is cut off, answered, or sent upstream as the flow shows it |
| `PipelineChoices.DelayPhase` | src/core/request-handler.ts:118-143 | and so when the wait is over |
| `PipelineChoices.UpstreamPhase` | src/core/request-handler.ts:146-166 | the upstream's head is recorded without a body and goes through its hooks |
| `Pipeline.ReplyShowsRecord` | src/core/request-handler.ts:208-219 | a buffered reply is read by the client as what the flow showed, and the flow keeps that body cut to the maximum |
| `Pipeline.MachineBuffers` | src/core/request-handler.ts:189-219 | collecting, with hooks that leave the flow alone, ends in the pause or in the reply and the recorded flow of the buffered path |
| `PipelineRuns.MachineChooses` | src/core/request-handler.ts:168-187 | after the response head the machine streams, with the head of the incremental path, exactly when streaming is allowed, and collects otherwise |
| `PipelineRuns.MachineStreams` | src/core/request-handler.ts:312-357 | a streamed response, whatever else happens meanwhile, sends its head, its chunks as they came and the close, and leaves the flow of the incremental path with the bounded copy of exactly these chunks and its flag |
| `PipelineRuns.MachineRefines` | src/core/request-handler.ts:168-219 | for every chunking a streamed run of the machine sends and records the body that collecting first would have sent and recorded, and the exact condition on the flag |
| `PipelineRuns.KilledWakes` | src/core/request-handler.ts:108-116 | a killed flow that wakes is destroyed if and only if no listener throws; otherwise the error hook runs and then the client is answered with 502 |
| `PipelineRuns.KilledRuns` | src/core/request-handler.ts:91-231 | the same in every run, whatever happens between the kill and the waking |
| `Pipeline.MachineMocks` | src/core/request-handler.ts:126-143 | a synthesized response passes the response rules and hooks and goes out with its own headers and body |
| `Pipeline.RequestBodyCoherent` | src/core/request-handler.ts:96-102 | the request body as recorded is the decoded one, reads the same by the encoding header left on the request, and no other header changes |
| `Pipeline.EveryStepAdvances` | src/core/request-handler.ts:91-231 | every event brings the end nearer, edits the flow, or is a chunk of a streamed body |
| `Pipeline.CanFinish` | src/core/request-handler.ts:91-231 | from every reachable state at most fifteen events lead to the end |
| `Handler.Exchange.On` | src/core/request-handler.ts:91-231 | the code between two waits, on the flow object, takes the steps of the machine |
| `Handler.Exchange.Bound` | src/core/request-handler.ts:234-245 | both bodies are cut to the maximum and nothing else changes |

## Left out

- Sockets, TLS, timers, `node:http` and `node:http2` themselves, the upstream connection and `proxy.ts`: chunks,
  events and logs of effects stand for them; back-pressure (pause and drain) is not modelled.
- zlib, regular expressions, `URL`, UTF-8 and JSON: parameters without any assumption. Of the IP address test it is
  assumed that an address begins with a hexadecimal digit or a colon.
- Rule text and pattern compilation (`load`, `parseLine`, `compilePattern`), file and directory loading: a loaded rule
  is an operator, a value and a predicate on flows; files are found or not found by parameters. Operators that throw
  are not modelled.
- HAR, workspace, sessions, cookie jar, options, `applyEnv`, replay, the web inspector, the QR generator, the
  desktop shells and build scripts: mostly field copying, or user interface.
- Client-side WebSocket capture: the bytes read with the handshake go through a parser of their own, so capture there
  has no claim over the whole stream. Injecting frames into a live relay, timestamps and directions of captured messages.
- `WsFrame.WireRoundTrip`: lengths from 2^53 on are rounded by JavaScript; the model keeps them exact, because such
  a frame never completes in memory.
- `FilterGrammar.CompilePrinted`: text nested so deeply that the JavaScript stack overflows is caught and matches
  everything; the model has no stack limit.
- `FilterMeaning.TextCodes`: of regular expressions it is assumed only that a pattern of ordinary and escaped characters
  finds its text in any spelling; which texts are no regular expression is a parameter.
- `FilterCompiler.AtomPredicate`: the fields of a flow that atoms read (URL, host, content type, body text) are
  given as strings.
- `Text.Lower` folds ASCII letters only, and characters are code points, not UTF-16 units.
- `Handshake.ReplayRoundTrip`: targets in origin form; turning an absolute URI into origin form is a call of `URL`.
- `Store.FlowStore.SetMaximum`: the maximum is not negative, because with a negative one the trimming loop of the
  program does not end (`Store.TrimmingEndsIff`).
- `Socks.HandshakeRoundTrip`: the connection does not end before the payload; after the end every read is answered
  with null even when bytes are buffered.
- `SocksReader.ReadsCutTheStream`: the same condition.
- `Certs.InterleavingsAreSoundIff`: the two names involved are IA5 strings, without which minting fails.
- `Streaming.StreamingRefinesBuffering`: the maximum is not negative; an exception of a store listener inside the
  end-of-stream callback is not modelled.
- `Encoding.ClientSeesRecorded`: what Node itself adds to a head (date, connection, keep-alive) is not modelled.
- `PipelineErrors.NoticeLength`: which headers of a refused head stay set is a parameter (all of them when the status is
  refused), and what Node adds to the 502 is not modelled.
- `Pipeline.EveryRunIsLawful`: hooks and edits may leave the flow in any state, but not put another response object
  in the place of the one the handler holds; trailing effects of a client that has gone are not modelled.
- `Handler.Exchange.On`: header lists are values inside the flow; the HTTP/2 handler, which takes the same steps, has no
  object of its own here.
