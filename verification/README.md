# WatchU, modelled in Dafny

WatchU captures kernel and TLS events and rebuilds higher-level facts from them: HTTP
exchanges, Postgres statements, files written, connections made, request and response
pairs, containers.  This project models the rebuilding code and proves what it promises
over whole runs.  Libraries and the outside world are parameters: the header decoder and
payload handling of the HTTP/2 library, body decoding, clock readings, directory walks,
ring-buffer reservations and evictions are arbitrary, and the theorems hold for every choice.

Code that changes state is a class or a method proved against a function on values; the
lemmas are about those functions, over all traces, schedules and interleavings.

| file | part of the program |
|---|---|
| `Http2Framing`, `Http2`, `Http2Cuts`, `Http2Streams`, `Http2Ticks`, `Http2Responses` | HTTP/2 reassembly: frames, the parser object, cutting the byte stream, interleaved streams, the parse loop's schedule, the response side |
| `Records`, `Sessions` | per-connection records and their parse loops, session keys |
| `Capture`, `Store`, `Detect`, `EndToEnd` | capture in the kernel, the store of records, protocol detection, and the way from SSL calls to messages |
| `Chunked`, `PgFraming` | chunked HTTP/1 bodies, Postgres framing in the kernel and in the TLS parser |
| `Pairs`, `PairLinks`, `EventList`, `TailReader` | lanes, drawing, the bounded list and the line reader of the terminal UI |
| `FilePaths`, `FileOps`, `TcpConn` | the file and connection probes over traces of any threads |
| `Resolver` | the container-ID cache under every thread interleaving |
| `Common` | bytes, options, arrivals and visits of a record |

`dafny verify dfyconfig.toml` verifies everything.

Where the code does less than its name or its documentation suggests, the model follows the
code, and a lemma gives the exact condition:

- An HTTP/2 parser call that ends inside a header block loses the connection once the rest of
  the block arrives, because the frame reader and its order rule (section 6.10 of RFC 7540)
  start afresh in each call.  `CutIndependenceIff` has the condition, `CutInsideHeaderBlock` an
  input, and `QuietCallsAreGood` a condition on positions alone.
- A connection is judged by what the first visit finds.  An HTTP/2 client is taken for HTTP/1
  unless the whole preface is there (`ClientSeenIff`); the first bytes of an HTTP/2 server or a
  Postgres client are thrown away if there are fewer than nine (`ServerSeenIff`,
  `PostgresEndToEnd`); and what is missing of a Postgres startup message is later read as
  statements (`PostgresEndToEnd`, `TailDecides`, with the family `OneByteShortLosesAll`).
- Trailers split over HEADERS and CONTINUATION are lost, and the connection with them
  (`TrailersKeptIff`, `NextFrameReadIff`, with the input `SplitTrailersLoseConnection`).
- A chunked response is lost when a visit finds a part of its head that the library refuses
  rather than waits for, because the library takes a line that is not all there for the whole
  line (`ResponseIff`, with the input `VisitAfterFirstByte`); and when a visit finds a size line
  cut short (`RunIff`, with the input `VisitInsideLastSizeLine`).  A last chunk written other
  than "0" is not seen as the end (`EndIff`, `DoubleZeroIsNotAnEnd`).  A size that makes the 64-bit sum wrap makes the
  slice fail, which ends the program (`SliceFailsIff`, with the input `LongestSizeFails`).
- The kernel's Postgres loop stops at a message without payload, such as Sync, goes no further
  than 64 messages, and cuts payloads over 16384 bytes and reads on inside them
  (`FramersAgreeIff`, with the inputs of `SyncHidesQuery` and `LongPayloadIsMisread`).  When the
  first long message it gets to is not itself a statement, agreement depends on the bytes of
  that payload, because the loop takes them for messages: a payload that spells out what follows
  the message gives agreement, any other does not (`AgreeAtLongIff`).
- The entries of a record over-count its bytes after part of an entry is used up; `Consume` says
  by how much and when not, `OverCount` is an input, and what the loops need in order to end is
  that they never under-count.

## Model

| member | source | states |
|---|---|---|
| `Http2Framing.ReadFrameStable` | tls/http2.go:106-119 | bytes that arrive later never change how a complete (or rejected) frame is read |
| `Http2Framing.PartialPrefaceWaits` | tls/http2.go:100-110 | a proper prefix of the connection preface reads as an unfinished frame that breaks no order, so it waits |
| `Http2Framing.FrameReaderIsSound` | tls/http2.go:106-119 | the frame reader satisfies what the cut theorems assume of a reader, for every way the library may treat payloads, and whether it checks the order of frames on the header or on the whole frame |
| `Http2.Http2State.constructor` | tls/http2.go:94-98 | a new connection has no streams, no open header block and no preface seen |
| `Http2.Http2State.EnsureStream` | tls/http2.go:70-77 | finds or creates the stream and leaves every other stream, the decoder and the header buffer alone |
| `Http2.Http2State.TryCompleteStream` | tls/http2.go:79-92 | emits and forgets the stream exactly when its headers are ready and it has ended |
| `Http2.Http2State.Fragment` | tls/http2.go:121-174 | the common part of HEADERS and CONTINUATION: buffer, decode at END_HEADERS, complete at END_STREAM |
| `Http2.Http2State.ApplyFrame` | tls/http2.go:121-203 | the effect of one frame of any type equals the step function of the stream lemmas |
| `Http2.Http2State.ReadAndApply` | tls/http2.go:109-120 | reads one frame, rejects it out of order, also by its header alone where the library does, applies it; an incomplete frame changes nothing |
| `Http2.Http2State.FrameLoop` | tls/http2.go:109-204 | the frame loop stops at the first message or incomplete frame, with the exact number of bytes used up |
| `Http2.Http2State.ParseCall` | tls/http2.go:94-205 | one parser call, preface included, equals the parse function that all run theorems are about |
| `Http2Cuts.FramesThenFlow` | tls/http2.go:109-204 | a call over a prefix followed by the rest is one pass over both, when the reader keeps its memory |
| `Http2Cuts.CallThenOnePass` | tls/http2.go:94-205 | one call, then one pass over what it leaves, is one pass over everything, unless the call stopped inside a header block |
| `Http2Cuts.DrainIsOnePass` | tls/http2.go:94-205 | calling until nothing is used up gives the messages, leftover bytes and state of one pass, when no call is harmful |
| `Http2Cuts.CutIndependence` | tls/http2.go:94-205 | for every cutting into deliveries and calls with no harmful cut: messages, leftover bytes and final state are those of delivering all at once |
| `Http2Cuts.MidBlockCallBreaks` | tls/http2.go:106-108 | a call that stops inside a header block whose continuation follows leaves an unreadable frame, because the reader is rebuilt each call |
| `Http2Cuts.UnreadableBreaks` | tls/http2.go:109-120 | an unreadable frame drops the connection whatever deliveries and calls follow |
| `Http2Cuts.CutIndependenceIff` | tls/http2.go:94-205 | for every byte string that one pass reads without error, the cut run equals the one pass if and only if no call stops inside a header block that goes on |
| `Http2Cuts.QuietCallsAreGood` | tls/http2.go:94-205 | the condition by positions: if no call comes when the bytes delivered so far leave a header block open, no cut is harmful and the run is the one pass, errors included |
| `Http2Streams.OnePassRunsFrames` | tls/http2.go:109-204 | reading bytes in one pass is running the frames they contain |
| `Http2Streams.StreamsAreIndependent` | tls/http2.go:121-196 | in every interleaving, each stream ends in the state and emits the messages it would alone; streams meet only in the shared header decoder |
| `Http2Streams.EventsCarryContent` | tls/http2.go:121-186 | a stream is fed exactly its own DATA payloads in order and the decodings of its own header blocks |
| `Http2Streams.EventsCarryMarks` | tls/http2.go:121-196 | a stream is finished exactly when its frames hold a complete header block and an end mark |
| `Http2Streams.NothingBeforeTheEnd` | tls/http2.go:79-92 | no message of a stream before its last frame |
| `Http2Streams.OneMessagePerStream` | tls/http2.go:79-196 | whatever other streams do before, between and after its frames, a stream that ends yields nothing before its last frame and exactly one message then, with its own headers and body, and its state is gone for the rest of the run |
| `Http2Streams.EveryStreamOnce` | tls/http2.go:79-196 | a connection whose streams all end: exactly one message for each stream in any interleaving, as many messages as streams, and no stream state left |
| `Http2Streams.OnePassYieldsStreams` | tls/http2.go:94-205 | the same for one pass over the bytes of such a connection |
| `Http2Streams.ParserCutIndependence` | tls/http2.go:94-205 | the exact cut condition for a fresh connection with the parser as the program builds it |
| `Http2Streams.TrailersKeptIff` | tls/http2.go:121-174 | the message of a stream carries every header block begun on it, and no block stays open, if and only if the frame that ends the stream is not a header frame without END_HEADERS |
| `Http2Streams.NextFrameReadIff` | tls/http2.go:106-120 | exactly then the call after a message reads the next frame as a reader with memory would; else it drops the connection |
| `Http2Streams.SplitTrailersLoseConnection` | tls/http2.go:106-174 | concrete input from a fresh connection: headers, then trailers in HEADERS with the end mark and CONTINUATION, give a message without trailers and a lost connection |
| `Http2Streams.CutInsideHeaderBlock` | tls/http2.go:106-174 | concrete input for the failing family: a call between an empty HEADERS and its CONTINUATION loses the connection that one pass reads |
| `Http2Ticks.VisitIsCalls` | tls/protocol.go:485-565 | one visit of the parse loop is a definite number of parser calls |
| `Http2Ticks.ScheduleIsCutRun` | tls/protocol.go:485-565 | any schedule of arrivals and visits is one of the runs of deliveries and calls |
| `Http2Ticks.ScheduleIndependence` | tls/protocol.go:593-660 | whatever the timing of arrivals and visits, without a harmful cut the messages are those of one pass |
| `Http2Ticks.ScheduleIndependenceIff` | tls/protocol.go:593-660 | and only without one |
| `Http2Ticks.QuietScheduleIsOnePass` | tls/protocol.go:593-660 | visits that never find a header block open give the messages of one pass, whatever their number and timing |
| `Http2Responses.ResponseOnePass` | tls/http2.go:256-298 | the response side reads what the common parser reads, broken off before the first message whose :status is not a number |
| `Http2Responses.ResponseScheduleIff` | tls/http2.go:256-298 | its messages do not depend on the timing of arrivals and visits if and only if no cut is harmful |
| `Http2Responses.QuietResponses` | tls/http2.go:256-298 | with no visit inside a header block, the messages before the first refused one come out and the connection is lost with it, whatever the timing |
| `Records.FindEntry` | tls/protocol.go:243-258 | the walk over the entries stops at the entry the first unused byte belongs to |
| `Records.SslRecord.constructor` | tls/protocol.go:125-132 | a new record has received and used nothing |
| `Records.SslRecord.Append` | tls/protocol.go:134-138 | the bytes go behind those received, with an entry for them; the entries still cover the stream |
| `Records.SslRecord.TrimStartup` | tls/protocol.go:387 | cutting the startup message off uses up that many bytes and keeps the entries covering the rest |
| `Records.SslRecord.Consume` | tls/protocol.go:226-262 | bytes leave from the front only, at least one whenever there is one; time and command are those of the named entry; the count of the entries runs ahead of the bytes by exactly the part of an entry used up, and stays equal if and only if it was and whole entries went |
| `Records.OverCount` | tls/protocol.go:226-262 | concrete input: one of two bytes of an event used up leaves an entry that counts two for one byte |
| `Records.SslRecord.Advance` | tls/protocol.go:226-262 | the consumption of a parse loop takes exactly the parsed bytes |
| `Records.SslRecord.ParseLoop` | tls/protocol.go:485-565 | the loop of a visit terminates and has exactly the effects of the visit function, for every parser |
| `Sessions.SessionStore.constructor` | tls/protocol.go:140-165 | an empty store is well indexed |
| `Sessions.SessionStore.AddSessionScope` | tls/protocol.go:264-274 | the scope joins the index of its own connection; other connections are untouched |
| `Sessions.SessionStore.RemoveSessionScope` | tls/protocol.go:276-288 | the scope leaves that index, and an empty index entry goes with it |
| `Sessions.SessionStore.EnsureSessionKey` | tls/protocol.go:198-206 | a live scope keeps its key, any other gets a fresh one and is indexed |
| `Sessions.SessionStore.DeleteSessionKey` | tls/protocol.go:208-211 | the session and its index entry go together |
| `Sessions.Prune` | tls/protocol.go:290-310 | the walk over the index finds exactly the live scopes |
| `Sessions.SessionStore.SessionScopesForConn` | tls/protocol.go:290-310 | returns exactly the live sessions of the connection and drops stale index entries |
| `Sessions.SessionStore.DeleteConnectionSessions` | tls/protocol.go:213-217 | releases all sessions of the connection and no others |
| `Sessions.RunsKeepInv` | tls/protocol.go:198-310 | in every run every live session is indexed under its own connection |
| `Sessions.KeyHeld` | tls/protocol.go:198-217 | a key is held by the scope it was made for until that scope is released, and by no scope at any other time |
| `Sessions.SameKeyIff` | tls/protocol.go:543-658 | two records of a run carry the same key if and only if they share a scope that was not released in between |
| `Capture.EmitSslEvents` | tls/ssl_common.h:53-91 | the bounded loop with retried reservations computes the event list |
| `Capture.EventsArePrefix` | tls/ssl_common.h:63-90 | after k successful reservations the events are the first min(n, k times 64 KiB) bytes, without a gap |
| `Capture.EventsAreFull` | tls/ssl_common.h:63-90 | every event is full but the last, and none is empty |
| `Capture.CapturedAllIff` | tls/ssl_common.h:53-91 | everything is captured if and only if the turns with room suffice; up to 4 MiB always when none fails |
| `Detect.FindMethod` | tls/protocol.go:371-377 | the loop finds a method exactly when the bytes start with one |
| `Detect.FindBinary` | tls/protocol.go:98-105 | the loop finds a control byte other than tab, newline and carriage return exactly when there is one |
| `Detect.DetectBytes` | tls/protocol.go:359-425 | the chain of tests, failing slice included, computes the verdict of the lemmas |
| `Detect.PrefaceDetectedIff` | tls/protocol.go:361-403 | a client connection is known as HTTP/2 if and only if the whole preface is there, and taken for HTTP/1 before |
| `Detect.SettingsDetectedIff` | tls/protocol.go:404-425 | a server connection that starts with SETTINGS is known if and only if nine bytes are there, and unknown before |
| `Detect.StartupDetectedIff` | tls/protocol.go:378-390 | a Postgres connection is known if and only if nine bytes are there; exactly what is there of the startup message is cut off; a length below 8 makes the slice fail |
| `Detect.ResponseDetected` | tls/protocol.go:366-403 | any part of an HTTP/1 response, from its first byte on, is known as HTTP/1 |
| `Store.RecordsGetTheirOwn` | tls/protocol.go:428-460 | however the events of all connections and both directions are mixed, each record gets its own, in order, and no others |
| `Store.CapturedArrives` | tls/protocol.go:428-460 | from SSL calls on any connections: a record holds exactly what was captured of its connection and direction, calls captured in part included |
| `Store.RoomyIsPlaintext` | tls/ssl_common.h:53-91 | that is the plaintext when the calls of the connection find room |
| `Store.AddToSide` | tls/protocol.go:440-459 | the record of the connection, made if need be, gets the bytes and an entry that counts them, behind those it has |
| `Store.SslStore.constructor` | tls/protocol.go:160-188 | no records, nothing known of any connection |
| `Store.SslStore.Add` | tls/protocol.go:428-460 | the event goes to the one record of its key and direction, with its entry, and changes no other bytes; the entries of all records keep covering them |
| `Store.SslStore.DetectProtocol` | tls/protocol.go:351-426 | what the cache says, else what the bytes say; what becomes known is cached, and only a startup message is cut off |
| `Store.SslStore.VisitRecord` | tls/protocol.go:470-565 | a visit to a record of the store: judged, then parsed exactly as the visit function of the runs says, or removed when unknown or dropped; no other record changes |
| `Store.SslStore.VisitRequest` | tls/protocol.go:462-567 | the same for a record of the request side |
| `Store.SslStore.VisitResponse` | tls/protocol.go:569-662 | the same for a record of the response side |
| `EndToEnd.ArrivedIsCaptured` | tls/protocol.go:428-460 | whatever visits and events of other connections come in between, also inside a call, what arrives at a record is what was captured |
| `EndToEnd.RoundsAreTheStore` | tls/protocol.go:428-460 | the arrivals of a record are what the store, receiving the same events, holds for it |
| `EndToEnd.Http2EndToEnd` | tls/protocol.go:351-660 | from SSL calls to HTTP/2 messages, of either direction: those of one pass over the captured bytes if and only if the first visit takes the connection for HTTP/2 and no cut is harmful |
| `EndToEnd.StreamsEndToEnd` | tls/protocol.go:351-660 | from SSL calls to streams: taken for HTTP/2 and with no visit inside a header block, a connection whose streams all end yields exactly one message per stream, with its own headers and body, and leaves no stream state |
| `EndToEnd.ClientSeenIff` | tls/protocol.go:361-403 | for a client that first condition is that the first visit finds the whole preface; else the bytes go to the HTTP/1 parser |
| `EndToEnd.ServerSeenIff` | tls/protocol.go:404-425 | for a server it is that the first visit finds nine bytes; fewer are thrown away |
| `EndToEnd.PostgresEndToEnd` | tls/protocol.go:351-565 | from SSL calls that write a startup message and statements to messages: emitted and waiting ones are exactly those sent if and only if the first visit finds nine bytes and what it leaves of the startup message does not change the reading; it leaves nothing exactly when it finds all of it |
| `EndToEnd.TailDecides` | tls/protocol.go:378-390 | what such a tail does: if it spells out whole messages, right if and only if none of them is a statement; if its rest stays unreadable with everything behind it, nothing behind it is ever read |
| `EndToEnd.OneByteShortLosesAll` | tls/protocol.go:378-390 | failing family: a first visit one byte short of the startup message loses every statement of the connection |
| `EndToEnd.ChunkedEndToEnd` | tls/protocol.go:351-660 | from SSL calls to a chunked response in the bytes a connection reads, status line and headers first: always taken for HTTP/1, and lost, emitted with its exact body or awaited as the positions of the visits and the answers of the library to parts of the head say |
| `Chunked.SizeLineRoundTrip` | tls/http1.go:66-72 | every size below 2^64 has a size line, and the line parses back to it |
| `Chunked.SliceFailsIff` | tls/http1.go:66-80 | the slice is out of bounds if and only if the 64-bit sum wraps to a number of bytes already there |
| `Chunked.LongestSizeFails` | tls/http1.go:66-77 | concrete input: the size line fffffffffffffffc, whatever follows it |
| `Chunked.EndIff` | tls/http1.go:96-99 | five bytes are used up if and only if the size line is "0" |
| `Chunked.DoubleZeroIsNotAnEnd` | tls/http1.go:96-103 | a last chunk written "00" is taken for data: no response comes out |
| `Chunked.ParseAt` | tls/http1.go:66-80 | what one call makes of any prefix of a chunk: error inside the size line, wait inside the data, else the exact data and length |
| `Chunked.Response.constructor` | tls/http1.go:134-138 | a chunked response starts with an empty body |
| `Chunked.Response.ParseChunk` | tls/http1.go:91-106 | the chunked branch appends the data, marks the end, fails or panics, as the parser function of the runs |
| `Chunked.RunIff` | tls/http1.go:87-106 | for every arrival cut and visit: lost if and only if a visit finds a size line cut short, else the exact body with all bytes used up at the first visit after the last chunk, and not before |
| `Chunked.BodyIsRebuilt` | tls/http1.go:87-106 | the same from the first byte of a response body on |
| `Chunked.VisitInsideLastSizeLine` | tls/http1.go:66-106 | concrete input for the lost case: a visit between the 0 of the last chunk and its line end; without that visit the response comes out |
| `Chunked.ResponseIff` | tls/http1.go:87-151 | the same with status line and headers in front, in whatever pieces they come, for every library that reads the whole head: lost also when a visit finds a part of the head that the library does not wait for |
| `Chunked.VisitAfterFirstByte` | tls/http1.go:108-121 | concrete input: a visit after the first byte, which the library refuses as a status line, loses a response that otherwise comes out whole |
| `Chunked.AnyCutWorks` | tls/http1.go:66-80 | every cut of every body into nonempty chunks is such a wire form |
| `PgFraming.StatementIsStable` | tls/postgres.go:16-32 | a message that is there in full is read the same whatever follows |
| `PgFraming.StatementsOfWire` | tls/postgres.go:16-32 | round trip: iterating the parser over encoded messages of any size gives them back and uses up everything |
| `PgFraming.VisitEmitsNext` | tls/postgres.go:34-51 | a visit emits the next Q/P/B/E message if a whole one is there, and loses nothing |
| `PgFraming.TlsRunKeepsMessages` | tls/postgres.go:16-51 | for all arrivals and visits, emitted and waiting messages are together those of everything that arrived |
| `PgFraming.ReadMessage` | postgres/pg.bpf.c:187-201 | one turn of the kernel loop: header, 32-bit length arithmetic, clamp, stop conditions |
| `PgFraming.LoopTurn` | postgres/pg.bpf.c:187-208 | one turn with its reservation leaves exactly what the rest of the loop reports |
| `PgFraming.MessageLoop` | postgres/pg.bpf.c:186-209 | the loop computes the event list for any limit |
| `PgFraming.SendTo` | postgres/pg.bpf.c:181-209 | the kernel loop with its 64 turns and failing reservations computes the event list |
| `PgFraming.KernelOnWire` | postgres/pg.bpf.c:181-209 | when no message the loop gets to is over 16384 bytes, the events are the supported messages it gets to, with exact payloads, up to the first failed reservation |
| `PgFraming.LongPayloadIsMisread` | postgres/pg.bpf.c:194-207 | a longer payload, of any type, is cut to 16384 bytes, reported cut if its type is supported, and the loop goes on inside that payload |
| `PgFraming.AgreeOnSmallIff` | postgres/pg.bpf.c:181-209 | while the loop gets to no longer payload, kernel and TLS collect the same statements if and only if no statement lies after an empty message or past the turn limit |
| `PgFraming.AgreeAtLongIff` | postgres/pg.bpf.c:194-208 | at the first longer payload: never if it is a statement, whatever follows; else if and only if what the loop finds inside it is what follows the message |
| `PgFraming.FramersAgreeIff` | postgres/pg.bpf.c:181-209 | the exact condition for buffers of messages of all sizes, by the two cases above |
| `PgFraming.FramersAgree` | postgres/pg.bpf.c:181-209 | on messages of 1 to 16384 bytes, no more than the turn limit, they agree |
| `PgFraming.FramersAgreeUpTo64` | postgres/pg.bpf.c:186 | which is 64 in the program |
| `PgFraming.FramersAgreeOverTime` | tls/postgres.go:16-51 | the same when the TLS side gets the bytes in any pieces |
| `PgFraming.SyncHidesQuery` | postgres/pg.bpf.c:197-198 | concrete failing family: a Sync message hides every query behind it from the kernel loop only |
| `Pairs.EndpointsAreUnique` | tui/pairs.go:58-73 | each record is an endpoint of at most one match |
| `Pairs.MatchPairs` | tui/pairs.go:58-73 | the matching loop finds exactly the matches, in order of their responses |
| `Pairs.MatchingFinds` | tui/pairs.go:58-73 | over any prefix of the rows: each response is matched with the latest unmatched earlier request of its key, and the table holds the unmatched requests |
| `Pairs.SortIsSorted` | tui/pairs.go:78-83 | the sort orders by first row and keeps the pairs |
| `Pairs.AssignLanes` | tui/pairs.go:85-103 | the lane loops compute the greedy pass |
| `Pairs.LaneStep` | tui/pairs.go:87-103 | placing one pair keeps lanes free of overlap, and a new lane comes with a row that needs it |
| `Pairs.LanesAreOptimal` | tui/pairs.go:85-103 | no two pairs of a level overlap, and the number of levels equals the largest number of pairs over one row |
| `Pairs.NoFewerLanes` | tui/pairs.go:85-103 | no assignment without overlap uses fewer lanes |
| `Pairs.BuildSessionPairs` | tui/pairs.go:54-106 | matching, sorting and lane assignment together |
| `Pairs.PairsAreMatches` | tui/pairs.go:54-106 | a pair of rows is in the table if and only if it is a match |
| `Pairs.PairsAscend` | tui/pairs.go:78-83 | first rows strictly ascend, so nothing is repeated |
| `Pairs.PairLanesAreOptimal` | tui/pairs.go:54-106 | for all records the lanes are valid and as many as the fullest row needs |
| `PairLinks.DrawPair` | tui/pairs.go:30-50 | one pair is drawn into exactly the rows it covers |
| `PairLinks.VisibleAnnotations` | tui/pairs.go:23-52 | despite the early break, each cell shows endpoint, inside or nothing exactly as some pair of that level says |
| `PairLinks.CellIsUnique` | tui/pairs.go:23-52 | what a cell shows is determined |
| `PairLinks.WindowIsSlice` | tui/pairs.go:23-52 | the annotation of a window is that slice of the annotation of the whole list |
| `PairLinks.SessionPairsAreDrawable` | tui/pairs.go:23-106 | the table built from any records meets what drawing needs |
| `EventList.Search` | tui/model.go:268-270 | binary search finds the first later record |
| `EventList.LatestOfInsert` | tui/model.go:264-284 | dropping the oldest before an insertion loses nothing that dropping after it would keep |
| `EventList.StableOrderIsUnique` | tui/model.go:264-284 | there is only one stable order of the arrivals |
| `EventList.RanksAreStable` | tui/model.go:268-271 | repeated insertion produces that order |
| `EventList.TabIsStableSort` | tui/model.go:264-284 | after any operations, row k of the tab is the record that the stable time sort of everything ever appended puts there, last 4096 kept |
| `EventList.RunsStayInRange` | tui/model.go:264-320 | selection and scroll position stay in range in every run |
| `EventList.SelectionFollows` | tui/model.go:272-293 | an append keeps the selection on its record, or on the oldest kept one when that record is evicted |
| `EventList.WindowShowsSelection` | tui/model.go:488-515 | the window lies in the list and shows the selection, with a margin of 3 rows away from the ends from height 7 on |
| `EventList.WindowIsStable` | tui/model.go:488-515 | a window that already does is left alone |
| `EventList.Model.constructor` | tui/model.go:130-145 | all tabs start empty, with no valid cache |
| `EventList.Model.AppendRecord` | tui/model.go:264-297 | appends to one tab as the value function says, leaves other tabs alone, and never leaves a stale valid cache |
| `EventList.Model.MoveSelection` | tui/model.go:299-311 | moves the selection of the current tab within range |
| `EventList.Model.AdjustListStart` | tui/model.go:488-515 | returns and stores the window start |
| `EventList.Model.RefreshAllTabPairCache` | tui/model.go:585-593 | the cache is valid and equals recomputation |
| `EventList.Model.AllTabSessionPairs` | tui/model.go:595-600 | cached or not, the pairs returned are those of the records as they are now |
| `TailReader.SplitJoins` | tui/stream.go:64 | splitting at newlines loses nothing |
| `TailReader.SplitIsClean` | tui/stream.go:64-71 | no line handed on contains a newline |
| `TailReader.SplitMore` | tui/stream.go:61-68 | splitting more bytes changes only the last piece |
| `TailReader.Reader.constructor` | tui/stream.go:29-30 | nothing read, nothing kept |
| `TailReader.Reader.OnPoll` | tui/stream.go:37-71 | after every poll the lines handed on and the kept piece are the newline split of the bytes read since the last restart |
| `TailReader.GrowingFileIsReadInOrder` | tui/stream.go:37-59 | on an append-only file no poll restarts and each successful poll has read all it saw, in place |
| `FilePaths.CutJoin` | fileop/fileop.bpf.c:381-418 | cutting the parts to the buffer size first does not change what is left of the join |
| `FilePaths.CopyInto` | fileop/fileop.bpf.c:364-405 | copies a string behind what the buffer holds, inside the buffer |
| `FilePaths.CopyBase` | fileop/fileop.bpf.c:381-405 | the base and its slash, or a full buffer |
| `FilePaths.JoinPaths` | fileop/fileop.bpf.c:381-418 | every write is in bounds, and the buffer holds the first size-1 bytes of the slash-joined path, terminated |
| `FilePaths.ResolveDirfdPath` | fileop/fileop.bpf.c:420-453 | resolution through a tracked directory descriptor, with its failing cases, in buffers |
| `FileOps.InflightWriteIsPending` | fileop/fileop.bpf.c:729-762 | the in-flight table names the descriptor of the write a thread is inside |
| `FileOps.InflightOpenIsPending` | fileop/fileop.bpf.c:642-697 | the in-flight table holds the open a thread is inside, under the path resolved when it entered |
| `FileOps.ExitReportsOpen` | fileop/fileop.bpf.c:678-697 | the exit of an open reports exactly the open the thread entered, when it succeeded and was tracked |
| `FileOps.EntryStep` | fileop/fileop.bpf.c:678-804 | what one probe of any thread does to the entry of one descriptor |
| `FileOps.EntryAccounts` | fileop/fileop.bpf.c:642-804 | in every trace a descriptor is tracked exactly from open to close or eviction, and its entry accounts for every write and mapping since |
| `FileOps.CloseReportsWrites` | fileop/fileop.bpf.c:788-804 | a close reports exactly the sum modulo 2^64 of the positive write returns of that lifetime, and nothing if there were none |
| `FileOps.WritesComeFromCloses` | fileop/fileop.bpf.c:678-804 | no other probe reports a write |
| `FileOps.MappingReportedIff` | fileop/fileop.bpf.c:764-786 | a mapping is reported if and only if it is the first of its kind since the open and the event gets through |
| `FileOps.OneMappingPerLifetime` | fileop/fileop.bpf.c:764-786 | two reports of one kind have an open of that descriptor in between |
| `FileOps.NoiseIgnoresCut` | fileop/fileop.bpf.c:276-302 | the noise filter decides the same on a cut path as on the whole one |
| `FileOps.PathsAreCutOnce` | fileop/fileop.bpf.c:420-453 | in every trace, through any chain of tracked relative opens, each stored path is the first 255 bytes of the untruncated path |
| `FileOps.FileTracer.constructor` | fileop/fileop.bpf.c:211-242 | all maps start empty |
| `FileOps.FileTracer.Submit` | fileop/fileop.bpf.c:466-491 | an event is sent unless filtered or without room |
| `FileOps.FileTracer.RememberOpenPath` | fileop/fileop.bpf.c:642-664 | the entry of an open, in buffers, is the step of the trace lemmas |
| `FileOps.FileTracer.FinalizeOpenFd` | fileop/fileop.bpf.c:678-697 | the exit of an open installs the descriptor or forgets the attempt |
| `FileOps.FileTracer.TraceWrite` | fileop/fileop.bpf.c:729-739 | remembers the descriptor of a write that is not empty |
| `FileOps.FileTracer.TraceExitWrite` | fileop/fileop.bpf.c:741-762 | credits a positive return to the descriptor named at entry |
| `FileOps.FileTracer.TraceMmap` | fileop/fileop.bpf.c:764-786 | flags before it reports, once per kind |
| `FileOps.FileTracer.TraceClose` | fileop/fileop.bpf.c:788-804 | reports what was written and forgets the descriptor |
| `TcpConn.PendingIsLatest` | tcpconn/tcpconn.bpf.c:72-168 | the connect a socket waits for is the latest one that nothing ended since; without one, every connect of the socket was ended |
| `TcpConn.EventsAreAttributed` | tcpconn/tcpconn.bpf.c:115-168 | every event of every run comes from a step from SYN_SENT to ESTABLISHED, and carries the identity of the latest connect on that socket, which nothing ended in between, and the addresses of that step |
| `TcpConn.ConnectsAreReportedOnce` | tcpconn/tcpconn.bpf.c:115-168 | different events of a run name different connects |
| `TcpConn.CompletionsAreReported` | tcpconn/tcpconn.bpf.c:115-168 | a completed connect is in the run as its next event, unless the ring buffer was full |
| `TcpConn.AddressIsPadded` | tcpconn/tcpconn.bpf.c:157-162 | the event holds the IPv4 address and zeros, or the IPv6 address |
| `TcpConn.ConnectionTracer.constructor` | tcpconn/tcpconn.bpf.c:60-70 | no connect pending |
| `TcpConn.ConnectionTracer.RememberConnect` | tcpconn/tcpconn.bpf.c:72-91 | the table stays the pending connects of the run |
| `TcpConn.ConnectionTracer.TcpClose` | tcpconn/tcpconn.bpf.c:103-113 | a close ends the pending connect |
| `TcpConn.ConnectionTracer.LruEvict` | tcpconn/tcpconn.bpf.c:60-65 | so does an eviction |
| `TcpConn.ConnectionTracer.TcpSetState` | tcpconn/tcpconn.bpf.c:115-168 | table and events stay those of the run, in all branches |
| `Resolver.LockIsExclusive` | internal/container/containerid.go:107-137 | in every interleaving only the lock holder is between lock and unlock |
| `Resolver.WalksDoNotOverlap` | internal/container/containerid.go:122-123 | directory walks of two threads never overlap |
| `Resolver.RunKeepsHistory` | internal/container/containerid.go:107-131 | shared fields and history agree, up to what the lock holder has yet to store |
| `Resolver.WalksAreSpaced` | internal/container/containerid.go:116-130 | each walk starts at a reading at least 5 s after the reading at the end of the one before it, 1 s if that failed |
| `Resolver.TableChangesOnlyBySuccess` | internal/container/containerid.go:123-130 | the table changes only to the result of a walk that succeeded; a failed walk never changes it |
| `Resolver.AnswersWereCurrent` | internal/container/containerid.go:86-138 | a container ID returned was mapped to that cgroup by a table current during the call |
| `Resolver.UnknownWasLacked` | internal/container/containerid.go:86-138 | when no container ID is returned, some table current during the call lacked the cgroup |
| `Resolver.NegativesWereMissed` | internal/container/containerid.go:131-137 | a cgroup is cached as having no container only after a successful walk missed it |
| `Resolver.ContainerResolver.constructor` | internal/container/containerid.go:41-53 | an empty table, due for an update |
| `Resolver.ContainerResolver.LoadCached` | internal/container/containerid.go:86-96 | the table first, then the negative cache |
| `Resolver.ContainerResolver.Look` | internal/container/containerid.go:98-106 | the look without the lock, rate limit included |
| `Resolver.ContainerResolver.LockAndLook` | internal/container/containerid.go:107-115 | takes the lock and looks at the table again |
| `Resolver.ContainerResolver.LookAgain` | internal/container/containerid.go:107-121 | the second look, with the lock held |
| `Resolver.ContainerResolver.StoreTable` | internal/container/containerid.go:123-126 | a walk that succeeded gives the table, a failed one leaves it |
| `Resolver.ContainerResolver.Update` | internal/container/containerid.go:122-130 | walk, store, schedule |
| `Resolver.ContainerResolver.Finish` | internal/container/containerid.go:131-137 | the answer after a walk and the negative entry |
| `Resolver.ContainerResolver.Refresh` | internal/container/containerid.go:122-137 | a walk and what follows it, with the lock held |
| `Resolver.ContainerResolver.Locked` | internal/container/containerid.go:107-137 | everything between lock and unlock |
| `Resolver.ContainerResolver.Call` | internal/container/containerid.go:98-138 | the two looks, the walk and the reply of one call, step by step |
| `Resolver.ContainerResolver.Resolve` | internal/container/containerid.go:98-138 | a call without interference ends in the state of a run of the interleaving machine, with exactly these effects |

## Left out

- Libraries: HPACK, payload padding and frame validation, `http.ReadRequest` and `http.ReadResponse`, content decoding, UUIDs and the expiring caches are arbitrary parameters or steps; a frame type the program ignores is accepted whatever its payload.
- Store.SslStore.Add: the store holds what its records hold, and a record object is made of that for each event and visit, so that two records never share memory.  Locks around the two maps, stale-record cleanup and full export channels are not modelled.
- Store.SslStore.VisitRecord: a record whose bytes are used up stays in the store; the code removes it at the end of an HTTP/1 or Postgres message, which later bytes cannot tell, and releases sessions on the response side, which `Sessions` models.
- Store.SslStore.DetectProtocol: expiry of the protocol cache is not modelled.
- EndToEnd.Http2EndToEnd: what the other direction has put in the protocol cache before the first visit is an arbitrary parameter; a record removed as unknown, or dropped after an error, is not followed into the record that later bytes start.
- EndToEnd.PostgresEndToEnd: the connection is not yet in the protocol cache, as its first visit requires.
- EndToEnd.ChunkedEndToEnd: speaks of the first response of a connection, from its status line to its last chunk; the program supports one response at a time.
- HTTP/1 requests and responses with a Content-Length or without any framing, including the truncated oversized request: best effort in the code, with no clean contract; such a response is one outcome of the library parameter.
- A chunked body that does not decode is not followed past its last chunk; chunk extensions and trailers are errors or data to the parser and are only covered by `Chunked.ParseAt` through the size line they spoil.
- PgFraming.StatementsOfWire: does not model 32-bit wrap of the buffer length, which needs a record of 4 GiB.
- PgFraming.SendTo: the startup handshake that decides whether a descriptor is traced, and faults while reading user memory, are not modelled.
- Chunked.SliceFailsIff: buffers longer than the largest signed 64-bit number are excluded, as the language excludes them.
- Pairs.SortIsSorted: stands for the library sort; the order is total on the pairs that occur, so any sort gives the same list.
- EventList.Model.AdjustListStart: called as the view calls it, with the size and the selected row of the current tab.
- TailReader.Reader.OnPoll: blank lines, parsing of a line as JSON and sending on the channel come after the lines handed on.
- FileOps.NoiseIgnoresCut: the other filters, for shared objects and container overlays, are an arbitrary predicate.
- FileOps.FileTracer.RememberOpenPath: the kernel's copy of a user string is given as that string or a failure.
- Probes for unlink, rename, link and symlink, `dup`, `exec` and `close_range`: the first submit a path, the others are not traced.
- Resolver.WalksAreSpaced: speaks of clock readings, as the code does, and not of elapsed time; 64-bit overflow of nanoseconds is not modelled.
- Liveness: nothing is said about when a visit, a poll or a walk happens.
- Loading of probes, ring-buffer readers, exporters, command line and rendering: plumbing that would only add easy members.
