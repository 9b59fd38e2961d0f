# A verified model of the iwnet protocol engines

This project models the two protocol engines of iwnet in Dafny and proves what they promise. The engines are the
HTTP/1.1 server with its reverse proxy (`src/http/iwn_http_server.c`) and the web framework on top of it
(`src/http/iwn_wf.c`). Three self-contained pieces are modelled as well: the string-literal tool, the MIME index
generator and the word arithmetic of the bundled BearSSL header.

`dafny verify dfyconfig.toml` checks the whole project.

## How the model is laid out

- `HttpTables`, `Characters`: the character classes and the two transition tables of the request tokeniser, and the
  characters, digits and numbers of the standards, listed without the tables, with what the tables make of them.
- `TokenSpec`: the two coupled machines over single bytes, without a buffer. It holds the joint invariant of the
  machines, the meaning of a session of reads, and read-split invariance.
- `HttpTokenizer`: the tokeniser as the source has it, a class whose fields are those of `struct stream` and
  `struct parser`. It is proved to hand out the tokens of `TokenSpec`, with their texts taken from the shared buffer
  at the moment of emission.
- `HttpMessage`, `HttpChunks`, `HttpRequest`, `HttpFraming`, `HttpRefusal`: requests as sections 3, 5, 6 and 7.1 of
  RFC 9112 write them, the tokens they must give, chunked bodies, the chunk writer, header insertion for the proxy,
  the framing of the body against section 6.3, and what is refused.
- `ReadRoom`, `RequestRoom`, `HttpSession`, `ChunkRoom`: the reads that are made of what arrives, the buffer space
  they take, the same space told from the layout of a request, whole sessions from the first read to the last token,
  and the exact condition under which a chunked request gets through however it arrives.
- `Sockets`: loops of reads and writes on a socket, by the answers that the socket gives.
- `ProxyChannel`: the two queues and two event handlers of the reverse proxy, as a state machine whose steps are
  handler runs with arbitrary socket answers, and a class whose methods compute the runs of that machine.
- `Routes`, `RoutePaths`, `Registration`, `Dispatch`: the route tree, the resumable stack iterator that matches a path
  against it, what that means for the text of the path, registration, and the loop that calls handlers.
- `HeaderParams`, `Multipart`, `Query`, `QueryText`, `Sessions`: header parameters, multipart forms, in-place query
  parsing, the percent-encoding that it undoes, and the session cache in front of the in-memory store, proved against
  a request that has no cache.
- `StrLiteral`, `MimeIndex`, `MimeLines`, `Words`: the two tools, the lines one of them reads, and the word arithmetic.
- `Folding`, `Options`: a predicate that keeps definitions folded in proofs, and an option type.

Bytes are Dafny characters. Sockets, clocks, handlers, the regular-expression engine and the random source are
parameters: reads and writes are scripts of answers, a handler is an answer for every hit, a compiled expression is
known by the length of its match. The mutex-protected sections are taken as atomic.

Some results are exact conditions for properties that do not hold in general:

- Cutting a message into reads changes the outcome exactly when a token outside the body is longer than
  `request_token_max_len`, since the length is measured only when input runs out.
- A body announced as fitting into the buffer can be two bytes too long for it.
- A method or a header name is made of the token characters of the standard, and of commas.
- Header names are classified as the standard says, except for proper prefixes of a framing name and for
  `content-length` continued by letters of `transfer-encoding`.
- The body is framed as the standard says exactly when the standard allows the message and a Transfer-Encoding, if
  there is one, is the first header that the tokeniser takes for the framing. A Content-Length in front of it, a
  beginning of `chunked` and a list of codings are the cases in which they differ.
- A session ends when a read is due and the buffer is full. A body that is kept whole gets through exactly when the
  message fits, and a streamed body of any length exactly when the buffer has one byte more than the head and its
  blank line. A chunked body gives space back only to reads that end inside chunk data: it gets through however it
  arrives exactly when the buffer, filled up from the start of the body or of the data of any chunk of two bytes or
  more, ends behind the message or inside the data of a later chunk. A buffer that holds the head with each chunk is
  not enough for that: a read that fills it at the end of a chunk is the last one.
- A hit without the prefix flag ends the path, except for a route without a pattern that is reached before the end.
- The pairs of an encoded form are read back exactly when none of their texts holds a NUL.
- SKIP_CHILD_ROUTES reaches direct children only, and a request that ends with it gets no response.
- The in-place decoding of a query stays within its keys and values exactly when every percent sign is followed by
  two more characters of the same key or value. Running on loses a pair in some queries and does no harm in others.
- Clearing a session in the in-memory store removes only an entry under the session's own id.

Where code and comments disagree the model follows the code. `iwn_wf.h` documents SKIP_CHILD_ROUTES as skipping
child routes; the dispatcher compares only the parent of the next hit.

## Model

| member | source | states |
|---|---|---|
| Characters.ClassesAreSets | src/http/iwn_http_server.c:271-289 | the character classes are sets that the standards list: a word character is a `tchar` of section 5.6.2 of RFC 9110 or a comma, a visible one lies between ! and ~ and is no colon or semicolon, and what a value may hold is visible, space or tab; digits are the listed digits |
| Characters.RefusesOthers | src/http/iwn_http_server.c:208-235 | outside bodies the state table refuses exactly the bytes that are not in the set listed for the state |
| Characters.DigitPlaces | src/http/iwn_http_server.c:806-820 | a digit is worth its place in the list of digits, in either letter case |
| Characters.LetterPlaces | src/http/iwn_http_server.c:759-763 | letter case is taken from the letters and from nothing else |
| TokenSpec.JointInvariant | src/http/iwn_http_server.c:208-269 | for every sequence of bytes and every outcome of the counter comparisons, up to the token that ends the message, no table is indexed from a row it does not have, meta is never M_ERR, and BR occurs only with an ERROR token |
| TokenSpec.JointStep | src/http/iwn_http_server.c:728-853 | one transition keeps the pair of character state and meta state among the allowed pairs, whatever the byte |
| TokenSpec.RunSplit | src/http/iwn_http_server.c:1392-1433 | reading resumes after any cut: the outcome of a concatenation is the outcome of its second part from where the first part ended |
| TokenSpec.BodyCompletes | src/http/iwn_http_server.c:821-842 | exactly the announced number of body bytes completes a body, and the tokens hold those bytes |
| TokenSpec.StreamContinues | src/http/iwn_http_server.c:821-842 | part of a streamed body leaves the machine streaming and hands out exactly those bytes |
| TokenSpec.LongTokenIsRejected | src/http/iwn_http_server.c:1425-1431 | a read that ends inside a token longer than request_token_max_len ends the session with ERROR |
| TokenSpec.LongTokenShows | src/http/iwn_http_server.c:1425-1431 | a token that is ever too long while it is read appears too long in the output of the uncut message |
| TokenSpec.ReadSplitInvariance | src/http/iwn_http_server.c:1392-1433 | all ways of cutting an input into reads give the same outcome if and only if no unfinished token along the way exceeds the limit |
| TokenSpec.MessageSplitInvariance | src/http/iwn_http_server.c:1392-1433 | for every complete message: all ways of cutting it give the same tokens if and only if every token outside the body is within the limit |
| TokenSpec.StreamedRoom | src/http/iwn_http_server.c:460-473 | a streamed body of any length, however it arrives, finds room when one byte is free behind the body start |
| HttpTokenizer.Tokenizer.Feed | src/http/iwn_http_server.c:663-706 | a read appends behind what is there and leaves the parsing state as it was |
| HttpTokenizer.Tokenizer.StreamShift | src/http/iwn_http_server.c:460-473 | the shift to the anchor keeps the bytes in front of the anchor and the bytes of the unfinished token, and forgets the rest |
| HttpTokenizer.Tokenizer.StreamJump | src/http/iwn_http_server.c:494-503 | a jump succeeds if and only if the buffer holds that many bytes, and moves index and token length by them |
| HttpTokenizer.Tokenizer.StreamJumpAll | src/http/iwn_http_server.c:505-512 | everything unread is taken and counted |
| HttpTokenizer.Tokenizer.MetaEmitToken | src/http/iwn_http_server.c:713-726 | the closing tokens: an empty chunk token after the last chunk, then the end of the request with the parser reset, and nothing in any other meta state |
| HttpTokenizer.Tokenizer.TransitionHead | src/http/iwn_http_server.c:728-820 | outside bodies the in-place transition does to the fields what the byte-at-a-time reading does to its state, opens and emits tokens at the right buffer positions, and signals an error only for BR and for too many headers |
| HttpTokenizer.Tokenizer.TransitionBody | src/http/iwn_http_server.c:821-842 | a body transition takes all it can: a complete body is emitted, a partial streamed one is emitted and the buffer reset to the anchor, any other partial body stays under construction |
| HttpTokenizer.Tokenizer.TokenParse | src/http/iwn_http_server.c:1392-1433 | one parser call: the returned token, its text read from the buffer at this moment, followed by what the remaining bytes lead to, is what the unread bytes led to before; also what the buffer still holds when input runs out |
| HttpTokenizer.Tokenizer.ParseAll | src/http/iwn_http_server.c:1451-1513 | tokens are taken until input runs out, is rejected or the message ends, and are together exactly those of the bytes read |
| HttpTokenizer.Tokenizer.Serve | src/http/iwn_http_server.c:663-706 | a message from whatever arrives, from any state: each read takes what has arrived or as much as the buffer has free; the session stops exactly when a read is due and the buffer is full, which is decided beforehand; the tokens are always those of the byte-at-a-time reading of the reads made |
| ReadRoom.RunPos | src/http/iwn_http_server.c:733-736 | while the head is read the offset counts its bytes; once it is complete the body start stands there and no byte moves it |
| ReadRoom.RoomForAll | src/http/iwn_http_server.c:663-706 | what fits into the buffer altogether finds room however it arrives, from every state |
| ReadRoom.ReadsBytes | src/http/iwn_http_server.c:663-706 | the reads made bring the beginning of what arrives, without loss or repetition, and all of it when the buffer is never full |
| ReadRoom.RoomSplit | src/http/iwn_http_server.c:663-706 | what arrives later finds room if and only if it does so in the state and with the space that the reads before leave behind |
| RequestRoom.BeginningGives | src/http/iwn_http_server.c:821-842 | after every proper beginning of a well-formed request the buffer holds what the layout of the request says: a part of a chunk at the body start, nothing of a streamed body, and everything otherwise |
| RequestRoom.RoomIffFits | src/http/iwn_http_server.c:663-706 | however a well-formed request arrives, it is read to its end if and only if by its layout no read before the end leaves the buffer full |
| RequestRoom.KeptFitsIff | src/http/iwn_http_server.c:663-706 | a request of which nothing is given back is received, however it arrives, if and only if it fits into the buffer |
| RequestRoom.StreamedFitsIff | src/http/iwn_http_server.c:460-473 | a streamed body of any length is received, however it arrives, if and only if the buffer has a byte more than the head and its blank line |
| ChunkRoom.FitsHoweverIff | src/http/iwn_http_server.c:1422-1424 | a chunked request gets through however it arrives if and only if the buffer, filled up from the start of the body or of the data of any chunk of two bytes or more, ends behind the message or inside the data of a later chunk |
| ChunkRoom.ServeChunked | src/http/iwn_http_server.c:1451-1513 | under that condition a connection serves the request from any arrivals with exactly its tokens, however long the body is |
| ChunkRoom.FullAtChunkEnd | src/http/iwn_http_server.c:663-706 | when the head and the first chunk just fill the buffer, the request does not get through if it arrives at once, nor in any way in which a read ends with that chunk |
| ChunkRoom.ServeOneByteChunks | src/http/iwn_http_server.c:1422-1424 | a request in chunks of one byte gets through, however it arrives, if and only if the whole message fits, and then gives exactly its tokens |
| ChunkRoom.InsideFits | src/http/iwn_http_server.c:460-473 | arrivals that end inside chunk data get through in a buffer for the first one, and then for the head, the unfinished part of a chunk and one arrival |
| RequestRoom.BeginningOfChunks | src/http/iwn_http_server.c:806-845 | a beginning of a chunked body that ends inside the data of a chunk leaves exactly that part of it unfinished at the body start; one that ends anywhere else gives nothing back |
| ChunkRoom.ServeInsideChunks | src/http/iwn_http_server.c:1451-1513 | a chunked body of any length, in arrivals that end inside chunk data, gives exactly the tokens of the request in such a buffer |
| HttpMessage.RequestLineTokens | src/http/iwn_http_server.c:208-235 | a request line, with a method of name characters that does not begin with a digit, a target of visible characters and a version without colon and semicolon, gives exactly its method, target and version |
| HttpRefusal.RequestLineIff | src/http/iwn_http_server.c:208-235 | a request line cut at its spaces and line end is read if and only if its three parts are of these characters; otherwise it is refused with ERROR |
| HttpRefusal.ByteOutOfPlace | src/http/iwn_http_server.c:846-848 | behind whatever was read, a byte that is not allowed where it stands ends the session with ERROR after the tokens so far, whatever follows |
| HttpRefusal.OneHeaderTooMany | src/http/iwn_http_server.c:745-749 | so does the first byte of a header line beyond the configured number |
| HttpMessage.NameRun | src/http/iwn_http_server.c:761-781 | reading a header name leaves the meta state that comparing it byte by byte with the two framing names gives |
| HttpMessage.ValueRun | src/http/iwn_http_server.c:782-790 | reading a value accumulates the decimal number of a Content-Length and follows the comparison with "chunked" |
| HttpMessage.DecimalSpelling | src/http/iwn_http_server.c:787-790 | a Content-Length is read as n if and only if it writes n in the listed decimal digits |
| HttpMessage.HeaderLine | src/http/iwn_http_server.c:772-790 | one header line gives one name token and one value token and reframes the body by the first framing header |
| HttpMessage.HeaderLines | src/http/iwn_http_server.c:728-805 | a header section gives its name and value tokens in order, counts the headers, and frames the body |
| HttpMessage.BlankLine | src/http/iwn_http_server.c:791-805 | the end of the headers decides between no body, a body kept whole, a streamed body and chunks |
| HttpChunks.HexSpelling | src/http/iwn_http_server.c:806-820 | a chunk size is read as n if and only if it writes n in base 16, with letters of either case and any zeros in front |
| HttpChunks.ChunkRun | src/http/iwn_http_server.c:806-845 | one non-empty chunk, whose size line writes its length in base 16 in either letter case and may have an extension, gives one token that holds its data |
| HttpChunks.ChunkedBody | src/http/iwn_http_server.c:806-845 | chunked decoding is exact: one token per non-empty chunk, one empty token for the last, then the end |
| HttpChunks.HexTextSpells | src/http/iwn_http_server.c:2203 | the "%X" text of a number writes that number in base 16 |
| HttpChunks.WriterReaderRoundTrip | src/http/iwn_http_server.c:2203-2228 | what the chunk writer frames for any list of non-empty bodies is read back as these bodies and one empty token |
| HttpRequest.RequestTokens | src/http/iwn_http_server.c:728-853 | every request that is well-formed for the tokeniser gives exactly its tokens: request line, headers in order, and body by its framing |
| HttpRequest.RequestReadSplit | src/http/iwn_http_server.c:1392-1433 | all ways of cutting a well-formed request into reads give exactly its tokens if and only if every part of its head is within request_token_max_len |
| HttpRequest.WholeBodyWaits | src/http/iwn_http_server.c:821-842 | a body that is kept whole yields no token before its last byte |
| HttpRequest.WholeBodyDelivery | src/http/iwn_http_server.c:490-492 | a body kept whole is delivered from what the buffer can hold if and only if the whole message fits; the check at the end of the headers admits up to two bytes more |
| HttpRequest.WholeBodyGap | src/http/iwn_http_server.c:490-492 | a concrete request that is announced as kept whole and does not fit |
| HttpRequest.NamesClassifiedExactly | src/http/iwn_http_server.c:761-781 | header names are classified as the standard says if and only if they are not among the mistaken ones |
| HttpFraming.ValuesClassifiedExactly | src/http/iwn_http_server.c:782-786 | a transfer coding is taken for "chunked" as the standard says if and only if it is not a proper beginning of it |
| HttpFraming.FramedAsStandardIff | src/http/iwn_http_server.c:236-247 | for all headers with known names: the framing is the one of section 6.3 of RFC 9112 if and only if that section allows the message and a Transfer-Encoding, if present, is the first header taken for the framing |
| HttpFraming.OrderDecides | src/http/iwn_http_server.c:236-247 | where every transfer coding is plainly "chunked" and the message is allowed, the framings agree if and only if no Content-Length comes before the first Transfer-Encoding |
| HttpFraming.StandardRequestTokens | src/http/iwn_http_server.c:728-853 | a request whose body is written as section 6.3 frames it gives exactly its tokens under that condition |
| HttpFraming.LengthBeforeCoding | src/http/iwn_http_server.c:236-247 | a Content-Length of 9 in front of a chunked Transfer-Encoding frames nine bytes, where the standard says chunked |
| HttpFraming.PrefixCoding | src/http/iwn_http_server.c:782-786 | a transfer coding "c" is chunked for the tokeniser and invalid by the standard |
| HttpFraming.CodingList | src/http/iwn_http_server.c:782-786 | the codings "gzip,chunked" are chunked by the standard and no framing for the tokeniser |
| HttpRequest.InsertHeaders | src/http/iwn_http_server.c:1249-1255 | repeated insertion at one offset puts the extra headers there, the last registered first, and moves nothing else |
| HttpRequest.InsertedAt | src/http/iwn_http_server.c:1249-1255 | the extra header registered i-th from the end becomes the i-th inserted line |
| HttpRequest.InsertionPoint | src/http/iwn_http_server.c:1406-1410 | when the tokeniser is about to leave the headers, index minus one is the end of the last header |
| HttpRequest.InsertionPreservesMessage | src/http/iwn_http_server.c:1249-1255 | the rewritten buffer is a well-formed request with the same request line, framing and body, whose header tokens are the original ones followed by the extra ones |
| HttpSession.ServeRequest | src/http/iwn_http_server.c:1451-1513 | a fresh connection to which a well-formed request arrives in any pieces gets through if and only if by its layout no read before its end leaves the buffer full, always if the message fits; it hands out exactly the tokens of the request, or the first of them when it stops |
| HttpSession.ServeWhole | src/http/iwn_http_server.c:490-492 | a request whose body is kept whole gets through, however it arrives, if and only if it fits, and then gives exactly its tokens |
| HttpSession.ServeStreamed | src/http/iwn_http_server.c:1451-1513 | a request with a streamed body of any length gets through, however it arrives, if and only if the buffer has a byte more than the head and its blank line, and then gives exactly its tokens |
| Sockets.ReadLoop | src/http/iwn_http_server.c:931-951 | the read loops append exactly the data in front of the first answer that is neither data nor an interruption, and report how it ended |
| Sockets.GatherByPosition | src/http/iwn_http_server.c:931-951 | with k the first such answer, the data in front of k is taken, and the status is the one that answer k calls for, or success at the end of the answers |
| Sockets.ReceivedAt | src/http/iwn_http_server.c:931-951 | the data of every answer stands behind as many bytes as the answers in front of it hold |
| Sockets.WriteLoop | src/http/iwn_http_server.c:909-929 | the write loops drop exactly the bytes that were written from the front of the queue |
| Sockets.DrainByPosition | src/http/iwn_http_server.c:909-929 | with k the first answer that is neither a write of something nor an interruption, the bytes dropped are the sum of the writes in front of k, but no more than there are; the status is success when all are gone and otherwise the one that answer k calls for |
| ProxyChannel.Channel.OnEndpointReady | src/http/iwn_http_server.c:953-1017 | the endpoint's handler does one step of the state machine: what it reads, sends and arms; when it closes; and that it keeps the channel invariant |
| ProxyChannel.Channel.OnClientReady | src/http/iwn_http_server.c:1188-1233 | the client's handler does one step of the state machine; the client is asked to leave exactly after an error or when the endpoint is gone and its queue is empty; the channel invariant is kept |
| ProxyChannel.Channel.OnEndpointDispose | src/http/iwn_http_server.c:891-907 | after the endpoint is gone the client stays armed to take the rest |
| ProxyChannel.EndpointRearmSound | src/http/iwn_http_server.c:997-1013 | whatever was moved, the masks after an endpoint run restore the invariant: non-empty queue, consumer armed for output; empty queue, producer armed for input |
| ProxyChannel.ClientRearmSound | src/http/iwn_http_server.c:1209-1229 | the masks after a client run restore the same invariant, and a client asked to leave without an error has received everything |
| ProxyChannel.ExecReads | src/http/iwn_http_server.c:931-951 | over every run, what was read from a side is the beginning of the concatenated data of the answers its handler heeds, and all of it while its handler is still called |
| ProxyChannel.SaysByPosition | src/http/iwn_http_server.c:931-951 | over every run, each answer has its data in that concatenation behind the data of the answers in front of it |
| ProxyChannel.EveryRun | src/http/iwn_http_server.c:953-1233 | over every interleaving: what each side was sent and what is queued for it is, in order, the concatenated data of the other side's answers, or a beginning of it once that side's handler is no longer called; no direction is stuck while both sides are up |
| ProxyChannel.EverythingArrives | src/http/iwn_http_server.c:953-1233 | after every run that leaves both sides up, both consumers are armed for what is queued, and one run of each handler completes the delivery in both directions |
| ProxyChannel.HeldBack | src/http/iwn_http_server.c:997-1013 | over every run, the endpoint is armed for input only while less than the channel limit is queued for the client, and the client likewise from its first handler run after the connection was made |
| ProxyChannel.Interleave | src/http/iwn_http_server.c:953-1233 | the handlers, called in any order with any answers of the sockets, end in the state of the run of the state machine |
| Routes.RouteIter.constructor | src/http/iwn_wf.c:638-649 | a new iterator stands in front of all hits of the request |
| Routes.MatchMeans | src/http/iwn_wf.c:573-636 | a route matches if and only if it has a method in common with the request and takes a piece of the path: nothing without a pattern, the text of a literal that stands there, the match of an expression, and without the prefix flag the whole rest |
| Routes.RouteIter.DoMatchNext | src/http/iwn_wf.c:573-636 | a slot is matched at the offset of its level, whatever its earlier sibling had taken; it matches exactly under the condition above, and the two path offsets enclose the piece it takes |
| Routes.RouteIter.PopThenNext | src/http/iwn_wf.c:651-662 | backtracking restores the offset of the parent's level and goes on with the parent's next sibling; no hit is lost or repeated |
| Routes.RouteIter.Next | src/http/iwn_wf.c:675-696 | every call returns the next hit of the recursive preorder meaning with its two path offsets, or null exactly when none is left; it terminates |
| Routes.HitOffsets | src/http/iwn_wf.c:573-636 | a hit is reported at offsets (m, u) if and only if a chain of matching routes leads to it whose ancestors took m in all and which with its own share took u; both lie within the path |
| RoutePaths.HitMeans | src/http/iwn_wf.c:573-636 | every hit has a method in common with the request, its offsets enclose the text of its literal or the match of its expression, and without the prefix flag the path ends there if and only if the route has a pattern or is reached at the end |
| RoutePaths.EmptyPatternInFront | src/http/iwn_wf.c:621-624 | a concrete route without pattern and prefix flag that is reported in front of the end of the path |
| RoutePaths.ReportedIff | src/http/iwn_wf.c:573-696 | a route reached over literal routes, or routes without a pattern, is reported if and only if the texts of its chain, joined, stand at the beginning of the path, each route of the chain has a method in common with the request, and each literal one without the prefix flag ends the path; the offsets are the lengths of the joined texts |
| RoutePaths.LevelIsChainLength | src/http/iwn_wf.c:123-130 | the level that registration limits is the length of the chain that leads to the route |
| Registration.AttachChildren | src/http/iwn_wf.c:77-91 | a new route becomes the last child of its parent and no other list of children changes |
| Registration.AttachHeight | src/http/iwn_wf.c:123-130 | attaching raises the height of the tree at most to one below the parent's level |
| Registration.AttachFinds | src/http/iwn_wf.c:77-91 | the new route is found in the tree as it was made, and no other route changes |
| Registration.MarkFinds | src/http/iwn_wf.c:1138-1139 | a marked route matches by prefix; nothing else about it or any other route changes |
| Registration.Context.Register | src/http/iwn_wf.c:115-173 | registration succeeds if and only if the parent is ours and less than 126 levels deep; the new route has the methods it was given, or GET if none, and its parent matches by prefix from then on; all else stays, siblings in registration order, and the height within the iterator's stack |
| Dispatch.Process | src/http/iwn_wf.c:913-965 | dispatch over the iterator has the calls and the result of the loop over the preorder list of hits |
| Dispatch.DispatchWithoutSkip | src/http/iwn_wf.c:913-965 | without skips: handlers run in match order up to the first answer that is not 0, a number above 1 is responded once, the root handler runs once if all answer 0, and 404 is sent exactly when it is absent or answers 0 |
| Dispatch.SkipReachesOnlyChildren | src/http/iwn_wf.c:923-930 | hits behind a skipping route are passed over if and only if it is their parent; otherwise the first other one is called next |
| Dispatch.ChildrenAreSiblings | src/http/iwn_wf.c:77-91 | in a tree of registered routes with unique ids, the hits below a route that have it as parent are those of its list of children |
| Dispatch.SkipInTree | src/http/iwn_wf.c:922-947 | below a matched route that skips, in a tree of registered routes, all handlers are passed over if and only if they belong to its direct children; otherwise the first one that lies deeper is called next |
| Dispatch.SkipMissesGrandchildren | src/http/iwn_wf.c:923-947 | a concrete tree in which a grandchild is called after a skip |
| Dispatch.UnhandledIsAnsweredIff | src/http/iwn_wf.c:945-963 | when every handler passes, the root handler or a response is reached if and only if no handler was called or the last one called, found from hits and answers alone, answered 0 |
| Dispatch.SkipAnswersNothing | src/http/iwn_wf.c:935-963 | a request that matches one route whose handler skips gets no response |
| HeaderParams.ParseNextParameter2 | src/http/iwn_wf.c:386-489 | the scanning loop finds the parameter that the recursive reading finds, at every position of every buffer |
| HeaderParams.WordIff | src/http/iwn_wf.c:328-363 | what the scanner takes in a word is a `tchar` of section 5.6.2 of RFC 9110, a brace, or a byte above 126 |
| HeaderParams.QuotedParam | src/http/iwn_wf.c:446-460 | a quoted parameter, its quotes written behind backslashes, is found with its key and value, and scanning goes on behind the closing quote |
| HeaderParams.UnescapeEscaped | src/utils/iwn_codec.c:212-233 | taking the backslashes away gives back every text whose quotes were written with one |
| HeaderParams.BareParam | src/http/iwn_wf.c:461-474 | an unquoted parameter is found with its key and value up to a semicolon, a blank or the end of the line, and scanning goes on behind the semicolon or blank |
| HeaderParams.HeaderValue | src/http/iwn_wf.c:400-422 | a header's own value, which may hold slashes, is found up to a semicolon or the end of the line |
| Multipart.ParseHeaders | src/http/iwn_wf.c:771-817 | the header loop of a part has the outcome of the recursive reading, for every buffer |
| Multipart.FindDelimiter | src/http/iwn_wf.c:829-862 | the data of a part ends at the first complete delimiter |
| Multipart.ParseForm | src/http/iwn_wf.c:888-896 | the parser of a whole body returns the parts and the end mark of the recursive reading, for every buffer and boundary |
| Multipart.NoEarlierDelimiter | src/http/iwn_wf.c:829-836 | a delimiter without a carriage return inside cannot be found earlier than where it was written |
| Multipart.FormRoundTrip | src/http/iwn_wf.c:734-896 | every list of parts written by section 4 of RFC 7578, with media type parameters bare or in quotes and any epilogue, is read back with the same names, file names, content types and data, and with the end recognised |
| Query.UrlDecodeInPlace | src/utils/iwn_codec.c:191-210 | the decoding loop changes the buffer as the recursive reading over memory says; where it stops reading is a function of the old content, and it runs off the buffer exactly when that function does |
| Query.DecodedText | src/utils/iwn_codec.c:191-210 | in a well-escaped text the loop leaves the decoded text and a NUL and touches no byte behind it |
| Query.StaysWithinText | src/utils/iwn_codec.c:191-210 | decoding stays within its text if and only if every percent sign is followed by two characters of the text |
| Query.StaysInSegments | src/http/iwn_wf.c:175-223 | in every query without NUL, all decodings of the parser read to the end of their own key or value and no further if and only if every percent sign is followed by two characters of the same key or value |
| Query.ParseQueryInPlace | src/http/iwn_wf.c:175-223 | the in-place parser changes the buffer and keeps the pairs as the recursive reading over memory says; for a query without NUL its decodings stay in their texts if and only if its escapes are complete, and then the kept pairs read as the pairs of the query |
| Query.ParseRefinesMeaning | src/http/iwn_wf.c:175-223 | for every query without NUL and with complete escapes, the kept pairs read as the segments between ampersands, each split at its first equals sign and decoded, without an empty last one; bytes behind the terminator stay |
| QueryText.EscapeOfTwo | src/utils/iwn_codec.c:196-200 | two digits of an escape, in either letter case, write its byte in base 16 |
| QueryText.EscapeOfOne | src/utils/iwn_codec.c:196-200 | what an escape with one digit stands for: the digit in front of none, behind a blank or plus, or negated behind a minus |
| QueryText.EscapeOfNone | src/utils/iwn_codec.c:196-200 | an escape without a digit that counts stands for NUL |
| QueryText.DecodeEncoded | src/utils/iwn_codec.c:191-210 | decoding undoes every encoding of a byte string by section 2.1 of RFC 3986, with spaces as plus or escaped and digits in either letter case |
| QueryText.EncodeRoundTrip | src/utils/iwn_codec.c:191-210 | every byte string has such an encoding, all but the unreserved characters escaped, and it decodes to the string |
| QueryText.QueryRoundTrip | src/http/iwn_wf.c:175-223 | for every list of pairs and every encoding of their keys and values, the pairs of the query are these pairs in order, each text up to its first NUL, and all of them if and only if there is no NUL |
| QueryText.FormRoundTrip | src/http/iwn_wf.c:175-223 | the in-place parser keeps of such a query slots that read as the pairs, whatever follows the terminator |
| Query.TruncatedEscapeSpills | src/http/iwn_wf.c:190-195 | a concrete query whose truncated escape makes the parser lose a pair |
| Query.SpillMayBeHarmless | src/http/iwn_wf.c:190-195 | a concrete query whose truncated escape runs on and leaves all pairs right |
| Sessions.OneEntryChanges | src/http/iwn_wf_sst_inmem.c:37-77 | storing and removing change one entry and no other, also where the emptied session is dropped |
| Sessions.MemoryStore.Put | src/http/iwn_wf_sst_inmem.c:37-64 | exactly one entry changes |
| Sessions.MemoryStore.Del | src/http/iwn_wf_sst_inmem.c:66-77 | exactly one entry disappears, and with the last one the session |
| Sessions.MemoryStore.Clear | src/http/iwn_wf_sst_inmem.c:94-102 | only an entry under the session's own id disappears |
| Sessions.ClearedIff | src/http/iwn_wf_sst_inmem.c:94-102 | clearing empties a session if and only if it holds no key but its own id |
| Sessions.Session.Read | src/http/iwn_wf.c:1214-1248 | a lookup through the cache agrees with a lookup in the store, changes nothing else and keeps the cache coherent |
| Sessions.Session.Write | src/http/iwn_wf.c:1250-1265 | a put changes store and session id as without a cache, deletes without data, makes up a session id if needed, and keeps the cache coherent also when the store refuses |
| Sessions.Session.Delete | src/http/iwn_wf.c:1306-1317 | a delete removes one entry of the current session and keeps the cache coherent |
| Sessions.Session.Forget | src/http/iwn_wf.c:1319-1329 | a clear leaves the request without session and cache |
| Sessions.Session.SetSessionId | src/http/iwn_wf.c:1200-1212 | an id of the right length becomes current and empties the cache; any other changes nothing |
| Sessions.Session.Run | src/http/iwn_wf.c:1200-1329 | every sequence of calls by the only writer is answered, and leaves store and session id, as by a request without a cache; the cache stays coherent |
| Sessions.LastWriteWins | src/http/iwn_wf.c:1214-1317 | after every sequence of calls within one session, a key has the value of the last accepted put or delete of it, or its old one |
| Sessions.OtherSessionsKept | src/http/iwn_wf.c:1200-1329 | no sequence of calls changes an entry of a session that it never makes current |
| Sessions.AnswerMeans | src/http/iwn_wf.c:1200-1329 | a write that is answered as taken is found by its key in a current session, one that is not changes nothing in the store; a deleted key is not found, nor any key after a clear; an id is taken if and only if it has 32 characters |
| Sessions.Session.WrittenElsewhere | src/http/iwn_wf.c:1214-1248 | another writer leaves the cache coherent if and only if it does not give a cached key of this session a different value |
| Sessions.ClearedSessionComesBack | src/http/iwn_wf.c:1319-1329 | an entry is found again when the id of a cleared session is taken up again |
| StrLiteral.Literal | tools/strliteral.c:118-175 | the loop over its bounded line buffer writes the text of the recursive definition, and the buffer of maxlength + 4 characters always suffices |
| StrLiteral.LiteralRoundTrip | tools/strliteral.c:118-184 | for all bytes, both escape modes and every line length, reading the adjacent literals by sections 6.4.4.4 and 6.4.5 of C11 gives back the input, so no escape is split |
| StrLiteral.LinesFit | tools/strliteral.c:118-168 | no line is longer than the buffer |
| StrLiteral.NoTrigraphs | tools/strliteral.c:129-153 | a question mark is never written |
| MimeIndex.Hash | tools/mimegen.c:19-26 | the loop computes the polynomial hash modulo 2^32 |
| MimeIndex.Index.Insert | tools/mimegen.c:52-68 | a name is appended to the chain of its bucket unless it is there; chains keep distinct names |
| MimeIndex.Index.AddLine | tools/mimegen.c:28-78 | after a line exactly its extensions that were unknown are known, with its type |
| MimeIndex.Index.MimetypeFind | tools/mimegen.c:107-125 | the generated lookup finds what the index holds |
| MimeLines.LineRead | tools/mimegen.c:28-72 | a line that gives a type and extensions of printable characters, with blanks between them, is read as that type and these extensions in order |
| MimeLines.CommentsListNothing | tools/mimegen.c:30-32 | a line that begins with a number sign or a blank lists nothing |
| MimeIndex.LookUp | tools/mimegen.c:28-125 | for every input of lines and every extension the generated lookup agrees with a linear scan for the first line that lists it |
| Words.WordIsShiftedValue | src/bearssl/inner.h:1179-1192 | for every word array and in-range offset the extracted word is the value divided by 2^off, modulo 2^32 |
| Words.Mul31IsProduct | src/bearssl/inner.h:968-971 | for all 31-bit operands the masked product is the product, below 2^62, and the masked factors multiply without 64-bit overflow |
| Words.Mul31LoIsLowProduct | src/bearssl/inner.h:972-983 | for all 31-bit operands the masked low product is the product modulo 2^31 |
| Words.Mul15IsProduct | src/bearssl/inner.h:1006-1012 | the masked 15-bit product is the product modulo 2^31, and the product itself when that fits |

## Left out

- Sockets, poller, scheduler, TLS, name resolution and memory allocation failures: foreign calls; their answers are parameters or are assumed to succeed.
- The handler results that close a socket: the source mixes `int` and `uint32_t` in `rc ? -1 : ret`, and what the poller does with the outcome is not part of this model; a handler that asks for closing is only marked.
- Reference counts, timeouts and connecting of the proxy: they follow rules of the poller and the scheduler.
- HttpTokenizer.Tokenizer.Serve: assumes what the code does not check, namely digits in a Content-Length below 2^31, a hexadecimal digit at the start of a chunked body, 16-bit counters that do not overflow, headers that end inside the buffer, and one message per session.
- HttpTokenizer.Tokenizer.Feed: growth of the buffer is modelled by its maximum only; a socket event that brings no bytes, and the end of the stream before the end of the message, are not modelled.
- HttpTokenizer.Tokenizer.StreamShift: the copy is modelled as a move, since source and target may overlap.
- HttpRequest.RequestTokens: a well-formed request has at least one header and non-empty header values, and its body is framed as the tokeniser frames it; HttpFraming compares that with section 6.3 of RFC 9112.
- HttpFraming.FramedAsStandardIff: is about headers whose names are not among the mistaken ones, which NamesClassifiedExactly singles out, and whose first length the tokeniser can read.
- HttpChunks.WriterReaderRoundTrip: the end of the stream is written without trailers; the code would write response headers set after the first chunk there, and the reader has no trailers.
- HttpTokenizer.Tokenizer.TokenParse: the proxy check at the end of the headers is taken as false; header insertion is a separate member.
- Header iteration for streamed requests, pipelined bytes behind a message, the response side apart from the chunk writer, and the WebSocket upgrade.
- ProxyChannel.Interleave: a handler run is one step, so a mask armed while the other handler runs is not lost; the queues of the source are guarded by a mutex, its masks by the poller.
- Routes.RouteIter.DoMatchNext: regular expressions are an uninterpreted matcher with bounded match length; submatches are not recorded.
- Registration.Context.Register: the tree is a value that is replaced, not linked nodes updated in place; a parent from another context is reported as such even where it is also nested too deeply, and invalid expressions are not modelled.
- Dispatch.Process: form parsing before dispatch and what handlers do to the request are not modelled.
- Multipart.FormRoundTrip: quoted texts hold no backslash, no line end, and no NUL beside a quote; an empty file name is stored as none.
- Multipart.ParseForm: boundaries and header texts are compared as whole byte strings, where the source stops at a NUL.
- HeaderParams.ParseNextParameter2: the value of an escaped parameter is given as a value; the source overwrites it in the buffer, where nothing reads it again.
- Query.ParseQueryInPlace: the source reads memory behind the buffer where the model reports running off it.
- Sessions.Session.Write: the session id is drawn outside; the mutexes are not modelled.
- StrLiteral.Literal: file errors and the 32-bit length printed behind the literal.
- MimeIndex.LookUp: quoting of names in the generated code, names longer than its format buffer, and lines longer than the input buffer.
- The rest of the BearSSL headers, status texts, dates, cookies, route printing and logging: they would only add easy members.
