# smux (C#) session and stream core, in Dafny

This project models the sequential logic of the C# port of smux, a stream
multiplexer. smux carries many logical streams over one ordered byte
transport. The model has two main classes:

- `Session` (Session.cs) owns the transport. It has these parts:
  - a staging read buffer with `r`/`w` cursors;
  - the stream-ID allocator with its go-away flag;
  - the receive loop, which decodes 8-byte frame headers and dispatches NOP, SYN, FIN, PSH and UPD frames;
  - the connection-wide token bucket;
  - the priority shaper;
  - the writer, which encodes frames onto the transport.
- `Stream` (Stream.cs) has these parts:
  - a queue of received chunks, with reads taken from the front chunk;
  - the version-2 read accounting, which decides when a window-update (UPD) frame is sent;
  - writes split into PSH frames. Version 1 splits by frame size. Version 2 also bounds each round by the peer's send window;
  - `Close`, which acts once;
  - the classification of read errors.

What the async code does is modelled sequentially:

- Each background loop (`recvLoop`, `keepalive`, `shaperLoop`, `sendLoop`) becomes one step method. The receive, shaper and send steps return `Continue`, `Blocked` or `Stopped(error)`; the keepalive step returns whether the loop has ended.
- The channels become fields:
  - `shaper` and `writes` are sequences of requests;
  - `acceptCh` is a sequence of streams;
  - `chReadEvent` and `chUpdate` are token counters;
  - `bucketNotify`, which has capacity 1, is a flag.
- A cancellation token source becomes a boolean:
  - the session's `die` is `died`;
  - a stream's `die` is `die`;
  - a stream's `fin` is `finCancelled`. `fin` is linked to `die`, so `FinRequested()` is `finCancelled || die`.
- Writing a frame posts it to `shaper`. It is answered at once with the payload length, which is what `sendLoop` reports. If the session is dead, the wait for that answer is cancelled instead.
- A wait is resolved in a fixed order:
  1. a cancelled token wins;
  2. then a posted token;
  3. then a read timeout, if one is set;
  4. otherwise the call ends in a "blocks" outcome.
- The transport (`Net.Transport`) is a sequence of bytes still to arrive, plus a log of the bytes written. A read delivers some non-empty prefix of what is still to arrive; the model does not fix how long.
- C# `uint` arithmetic is modelled as arithmetic modulo 2^32 (`Add32`, `Sub32`), and the `(int)` cast as `ToInt32`.

Several properties are proved outside the step methods:

- **Wire encoding.** The wire layout round-trips in both directions (module `Wire`).
- **Stream IDs.** A client opens IDs 3, 5, 7, …; a server opens 2, 4, 6, …. Exactly 2^31 − 1 opens succeed, and then go-away holds forever (module `StreamIds`).
- **Shaper order.** The shaper forwards a permutation of what it drained, in ascending priority (module `Shaping`).
- **Flow control** (module `Flow`):
  - the PSH frames of a write carry exactly the written bytes, in order;
  - a version-2 write sends `min(len, win · rounds)` bytes after a given number of rounds.

### Where the code departs from the protocol's intent

The model follows the code in each case. Each item says what the code is
compared against.

- `numWritten` is never incremented.
  - Data frames are therefore posted with priority 0.
  - The "bytes in flight" are `0 − peerConsumed` in `uint` arithmetic.
  - So the v2 window is the advertised window *plus* the consumed count (`Flow.WindowAsWritten`). The smux protocol intends that a version-2 sender keeps no more than the peer's window in flight; that bound does not follow.
- `StreamClose` returns a stream's unread bytes to the bucket but never removes the stream from the table, although its name suggests removal.
- The token bucket is updated in both protocol versions. In the smux protocol the connection-wide bucket is the version-1 flow control; version 2 adds the per-stream window.
- The client's counter starts at 1 and is incremented before use, so the client's first stream ID is 3.
- `netstreamClosed` is never set, so `OpenStreamAsync`'s closed-pipe branch is modelled but cannot be reached from the modelled code.
- A `ReadAsync` with a zero-length buffer, on a stream that has FIN and still holds unread data, retries forever without any state change. The model reports this as `ReadSpins`.

## Model

| member | source | states |
|---|---|---|
| Base.Add32 | Stream.cs:193-194 | `uint` addition wraps: the exact sum below 2^32, the sum minus 2^32 otherwise |
| Base.Sub32 | Stream.cs:269 | `uint` subtraction wraps: the difference when it is not negative, the difference plus 2^32 otherwise |
| Base.ToUInt32 | Stream.cs:195 | the unchecked `(uint)` cast keeps a value already in range and adds 2^32 to a negative one down to −2^32 |
| Base.ToByte | Stream.cs:213 | the unchecked `(byte)` cast keeps a value already in range and adds 256 to a negative one down to −256 |
| Base.DivTrunc | Stream.cs:195 | C# division: Dafny's quotient for a non-negative dividend; a negative dividend gives a quotient of at most 0, and 0, not −1, when it is smaller in magnitude than the divisor |
| Base.ToInt32 | Stream.cs:274 | the `(int)` cast of a `uint` lies in the 32-bit signed range and agrees with its argument modulo 2^32 |
| Wire.DecodeEncode | Session.cs:341-348 | decoding the little-endian bytes of a number that fits in the width gives the number back |
| Wire.EncodeDecode | Session.cs:213-220 | re-encoding the number read from little-endian bytes gives the same bytes |
| Wire.EncodeHeader | Session.cs:341-348 | a header encodes into exactly 8 bytes |
| Wire.DecodeHeader | Session.cs:213-222 | the version and command are the first two header bytes, and the length field is below 2^16 |
| Wire.EncodeFrame | Session.cs:341-351 | the encoding is 8 bytes plus the payload; it starts with the version and command bytes, and after the header come exactly the payload bytes |
| Wire.FrameRoundTrip | Session.cs:341-353 | an encoded frame is 8 plus payload-length bytes; its header decodes to the frame's version, command, length modulo 2^16 and stream ID (length 0 when there is no payload); the payload follows |
| Wire.HeaderBytesRoundTrip | Session.cs:213-220 | every 8 header bytes the receive loop reads are the encoding of the header they decode to |
| Wire.EncodeUpd | Stream.cs:212-213 | a window-update body is 8 bytes |
| Wire.DecodeUpd | Session.cs:262-267 | the decoded consumed count and window are the ones whose encoding is exactly the 8 body bytes |
| Wire.UpdRoundTrip | Session.cs:262-267 | the receive loop decodes the consumed count and window the sender encoded |
| Wire.UpdBytesRoundTrip | Session.cs:262-267 | every 8-byte UPD body is the encoding of what it decodes to |
| Shaping.CompareTo | Session.cs:35-46 | a request compares greater than null; otherwise the sign of the result is the order of the two priorities |
| Shaping.CompareToIsTotalPreorder | Session.cs:35-46 | the comparison is antisymmetric, transitive and total, so sorting by it is well defined |
| Shaping.Insert | Session.cs:379 | inserting into an ascending list gives an ascending list with the same elements plus the new one |
| Shaping.SortByPrio | Session.cs:379 | the sorted list is ascending in priority and is a permutation of its input |
| StreamIds.Initial | Session.cs:96-101 | a new allocator has go-away clear and a counter below 2 whose parity is the role's: odd for a client, even for a server |
| StreamIds.Open | Session.cs:405-415 | with go-away set nothing changes and the open fails; every failed open leaves go-away set; a successful open returns an ID above the old counter and of its parity, and that ID becomes the counter |
| StreamIds.OpenSucceedsIffNoWrap | Session.cs:405-415 | an open succeeds exactly when go-away is clear and adding 2 does not wrap; the new ID is the old counter plus 2, of the same parity, and becomes the counter |
| StreamIds.WrapSetsGoAway | Session.cs:410-414 | an open whose increment wraps into 0 or 1 fails, sets go-away and leaves the wrapped counter |
| StreamIds.GoAwayIsPermanent | Session.cs:405-408 | once go-away is set, any number of later opens fail and leave the counter unchanged |
| StreamIds.CounterAfterOpens | Session.cs:96-101 | after k successful opens the counter is the role's start plus 2k |
| StreamIds.OpenedId | Session.cs:410-411 | the k-th open returns start + 2k: odd IDs from 3 for a client, even IDs from 2 for a server |
| StreamIds.ExhaustedAfterMaxOpens | Session.cs:405-415 | the open after the 2^31 − 1 successful ones fails with go-away, and so does every later open |
| Flow.PendingAppend | Stream.cs:312-318 | queueing a chunk appends its bytes after everything pending |
| Flow.FrontTake | Stream.cs:144-151 | a read takes no more than the buffer's room and nothing from an empty queue; otherwise it takes all the room or all of the front chunk's unread bytes, whichever is smaller |
| Flow.AfterTake | Stream.cs:152-156 | taking all of the front chunk's unread bytes removes it; taking fewer keeps it with its unread part shortened by what was taken, and the rest of the queue is untouched |
| Flow.TakeCount | Stream.cs:144-151 | a read takes at most the buffer's length and what is pending, and takes nothing exactly when the queue is empty or the buffer has no room |
| Flow.TakeNothing | Stream.cs:168-170 | taking zero bytes leaves the chunk queue unchanged |
| Flow.TakeFromFront | Stream.cs:144-157 | a read takes the first pending bytes, all from the front chunk, and leaves the rest pending in order |
| Flow.AccountRead | Stream.cs:193-198 | the cumulative count grows by the bytes read, wrapping at 2^32; an announcement carries that count and resets the unannounced count; the unannounced count is either reset to 0 or, with no announcement, grown by the bytes read |
| Flow.UpdThreshold | Stream.cs:195 | for any stream buffer size from 0 below 2^33 the threshold is half of it, rounded down |
| Flow.AnnounceIff | Stream.cs:193-198 | a v2 read announces exactly when the unannounced count reaches half the stream buffer or it is the first read, and the total is not zero; the announcement carries the total read and resets the unannounced count |
| Flow.UnannouncedBelowThreshold | Stream.cs:194-198 | after any read the unannounced count is zero or below the threshold |
| Flow.FirstReadAnnounces | Stream.cs:195-197 | the first non-empty read of a stream announces exactly what it read |
| Flow.PshRequests | Stream.cs:230-241 | a write produces no PSH frame exactly when there is nothing to send |
| Flow.PshRequestsCount | Stream.cs:230-241 | a non-empty write goes out as the fewest frames of at most the frame size that hold it |
| Flow.PshRequestsCover | Stream.cs:230-241 | the PSH frames of a write carry exactly the written bytes, in order |
| Flow.PshRequestsShape | Stream.cs:233-238 | each such frame is a PSH of the stream, with the write's priority and a non-empty payload of at most the frame size |
| Flow.SendWindow | Stream.cs:269-274 | the window lies in the 32-bit signed range, and when nothing is in flight it is the advertised window, whenever that fits in an `int` |
| Flow.WindowWhenCounted | Stream.cs:269-274 | if the written count were kept and the peer's counters were consistent, the window would be the advertised window minus the bytes in flight |
| Flow.WindowAsWritten | Stream.cs:269-274 | with the written count stuck at 0, the window is the advertised window plus the consumed count, wrapped to `int`; when the consumed count is positive and the sum stays below 2^31, the window is larger than the advertised window |
| Flow.RoundBudget | Stream.cs:274-285 | a round sends nothing, or no more than the window and the bytes left; with a positive window and bytes left it sends the whole window or all that is left |
| Flow.RoundStep | Stream.cs:274-296 | a round that sends its budget and posts its PSH frames after the earlier rounds' keeps every round budgeted and the posted frames equal to all rounds' frames |
| Flow.BudgetedSent | Stream.cs:266-297 | rounds that each send what the window allows have sent min(length, window × rounds) bytes in total when the window is positive, and nothing otherwise |
| Flow.RoundRequestsCover | Stream.cs:266-297 | the frames of all v2 rounds carry exactly the sent prefix of the buffer, in order |
| Flow.RoundRequestsShape | Stream.cs:287-293 | every frame of every round is a PSH of the stream with a non-empty payload of at most the frame size |
| Net.Transport.constructor | Session.cs:93 | a fresh transport has the given bytes to deliver, has written nothing and is open |
| Net.Transport.Read | Session.cs:195 | a read delivers a prefix of the available bytes, at most the requested count, nothing only when nothing is available or nothing was asked for, and leaves the rest of the buffer alone |
| Net.Transport.Write | Session.cs:352 | a write appends the bytes to the outgoing log unless the socket is closed, and reports which |
| Net.Transport.Close | Session.cs:130 | after closing, the socket is closed |
| Smux.NewStreamView | Stream.cs:71-86 | a new stream holds no bytes and no events or update tokens, is neither dead nor finished, has no timeouts, zero counters and the initial peer window |
| Smux.Delivered | Session.cs:236-270 | FIN sets `fin` with a read event, a non-empty PSH adds one read event, UPD sets the peer counters to the ones whose encoding is its body and adds one update token, and the peer counters change on no other command |
| Smux.DeliveredHolds | Session.cs:246-260 | handing a frame to a stream adds exactly a PSH body, in order, to the bytes it holds for its reader, and no other command changes how many it holds |
| Smux.ReadBuffer.constructor | Session.cs:56-59 | the staging buffer has the requested capacity and nothing staged |
| Smux.ReadBuffer.ReadFull | Session.cs:169-202 | see `Smux.Session.ReadFull`, stated over the staging buffer and a given transport |
| Smux.ReadBuffer.Advance | Session.cs:179-200 | one turn of the copy loop keeps the filled part equal to the input's prefix and the rest still to come; it makes progress or fails exactly when the input is exhausted before the buffer is full |
| Smux.ReadBuffer.Take | Session.cs:179-191 | the copy step moves min(room, staged) bytes in order, and resets both cursors to 0 when the staged bytes run out |
| Smux.ReadBuffer.Fill | Session.cs:192-200 | the refill step stages a non-empty prefix of what the transport has, or reports 0 when it has nothing |
| Smux.Session.constructor | Session.cs:89-110 | a new session has a full bucket of `MaxReceiveBuffer` tokens, an empty staging buffer of frame size plus 8, empty tables and queues, and a counter of 1 (client) or 0 (server) |
| Smux.Session.ReturnTokens | Session.cs:112-118 | adds exactly n tokens, and posts a wake-up exactly when tokens are then left |
| Smux.Session.Close | Session.cs:120-133 | only the first call acts: it kills every registered stream, closes the socket and cancels the session; later calls change none of those |
| Smux.Session.StreamClose | Session.cs:135-148 | a registered stream's unread bytes are dropped and returned to the bucket, with a wake-up when tokens are then left, so the bucket plus that stream's queued bytes is unchanged; the table keeps the entry; an unknown ID changes nothing |
| Smux.Session.WriteFrameInternal | Session.cs:155-167 | the request is posted to the shaper with its priority; the answer is the payload length, or cancellation when the session is dead |
| Smux.Session.WriteFrame | Session.cs:150-153 | the same, with priority 0 and no timeout |
| Smux.Session.ReadFull | Session.cs:169-202 | a request longer than the staging buffer fails with ErrMaxReceiveBuffer and consumes nothing; otherwise it fills the buffer with the next unread bytes in order and consumes exactly those, or fails with ErrClosedPipe after consuming everything when fewer remain; the cursor invariant holds throughout |
| Smux.Session.OpenStream | Session.cs:394-427 | ErrClosedPipe on a closed transport; otherwise the allocator advances as `StreamIds.Open`; ErrGoAway when it yields no ID; else a SYN for the new ID is posted, and unless the session is dead a fresh stream with that ID is registered; the returned stream belongs to this session, has the configured frame size and is ready for reads and writes |
| Smux.Session.Dispatch | Session.cs:214-273 | a wrong version or unknown command stops with ErrInvalidProtocol; an oversized or truncated body stops with its read error; otherwise exactly the body is consumed and the table, the accept queue, the bucket and the addressed stream change as the command prescribes (SYN registers only an absent ID, FIN/PSH/UPD to an unknown ID change nothing), and `dataReady` is set once the version matches |
| Smux.Session.HandleSyn | Session.cs:226-235 | an absent ID gets a fresh stream of this session, with the configured frame size, registered and queued for accept; an existing entry is left as it is |
| Smux.Session.HandleFin | Session.cs:236-245 | a registered stream is marked finished and gets a read event |
| Smux.Session.HandlePsh | Session.cs:246-260 | a non-empty payload is always consumed; only a registered stream gets it appended, with a read event, and the bucket drops by exactly its length, so the bucket plus that stream's queued bytes is unchanged; a zero-length PSH reads nothing |
| Smux.Session.HandleUpd | Session.cs:261-270 | the 8-byte body is consumed, and a registered stream's peer counters become the decoded values |
| Smux.Session.ReadHeader | Session.cs:213 | the next 8 unread bytes are consumed and decoded, or ErrClosedPipe when fewer remain |
| Smux.Session.ReceiveFrame | Session.cs:213-273 | a frame is read and dispatched as `Dispatch` states, and no other stream changes |
| Smux.Session.RecvStep | Session.cs:209-273 | with no tokens left the loop blocks (consuming a wake-up), or stops on cancellation, and nothing else changes; otherwise one frame is received and dispatched |
| Smux.Session.KeepaliveStep | Session.cs:311-332 | a dead session ends the loop; otherwise `dataReady` is cleared, and the session is closed exactly when no frame arrived since the last turn while tokens are left |
| Smux.Session.ShaperStep | Session.cs:364-392 | every posted request is drained and forwarded exactly once, in ascending priority, leaving nothing posted; blocks when nothing is posted |
| Smux.Session.SendStep | Session.cs:334-362 | the next forwarded request is encoded as `Wire.EncodeFrame` onto the transport and its payload length is reported; a closed transport stops the loop |
| Smux.Stream.constructor | Stream.cs:71-86 | a new stream has no data, no events, zero counters and the initial peer window |
| Smux.Stream.FinRequested | Stream.cs:82 | the `fin` token, linked to `die`, is cancelled exactly when `fin` or `die` is |
| Smux.Stream.SetReadTimeout | Stream.cs:48-53 | only a positive value replaces the read timeout |
| Smux.Stream.SetWriteTimeout | Stream.cs:63-68 | only a positive value replaces the write timeout |
| Smux.Stream.PushBytes | Stream.cs:312-318 | the payload becomes the last chunk, and its bytes follow everything pending |
| Smux.Stream.Deliver | Session.cs:254-255 | a PSH payload handed to a stream is appended after everything pending, with one read event, as `Smux.Delivered` describes |
| Smux.Stream.Update | Stream.cs:320-325 | the peer's consumed count and window are overwritten, and one update token is posted |
| Smux.Stream.Fin | Stream.cs:327-330 | the stream's `fin` is cancelled |
| Smux.Stream.NotifyReadEvent | Stream.cs:332-335 | one read-event token is posted |
| Smux.Stream.SessionClose | Stream.cs:337-340 | the stream's `die` is cancelled |
| Smux.Stream.RecycleTokens | Stream.cs:342-354 | returns the total unread bytes over all chunks and leaves the queue empty |
| Smux.Stream.TakeFront | Stream.cs:140-158 | copies min(room, unread in the front chunk) bytes, which are the first pending bytes, and advances or removes that chunk |
| Smux.Stream.TryRead | Stream.cs:133-165 | the front-chunk read; exactly n tokens go back to the session, so the bucket plus the stream's queued bytes is unchanged; in version 2 the counters follow the read accounting |
| Smux.Stream.TryReadV2 | Stream.cs:167-208 | a zero-length buffer changes nothing; otherwise the read and token return of `TakeFront`, with `numRead` and `incr` advanced and an UPD posted exactly when a non-empty read announces |
| Smux.Stream.UpdRequest | Stream.cs:210-214 | the request is a priority-0 UPD of this stream whose 8-byte body decodes to the consumed count and the configured stream buffer |
| Smux.Stream.SendWindowUpdate | Stream.cs:210-215 | posts an UPD of this stream carrying the consumed count and the configured stream buffer as window |
| Smux.Stream.ReadAsync | Stream.cs:98-131 | a successful read returns the next pending bytes after those a cancelled version-2 retry dropped, and such bytes are dropped only in version 2 on a dead session; the bucket regains every byte taken; the error is ErrClosedPipe when the stream is dead, ErrEof after FIN with nothing buffered, ErrReadTimeout otherwise; with data buffered the read returns it, and with nothing to read and no FIN it times out or blocks |
| Smux.Stream.SendChunks | Stream.cs:230-241 | posts the PSH frames of `b[from..upto]` in order, or only the first when the session is dead, which cancels the write |
| Smux.Stream.SendRound | Stream.cs:266-297 | a round sends the window's budget for the remaining bytes, as PSH frames, never past the end of the buffer |
| Smux.Stream.WriteV2 | Stream.cs:259-310 | an empty write returns 0; otherwise each round sends what the window allows, all frames posted are the rounds' PSH frames, it returns the full length exactly when everything was sent; a positive window on a dead session cancels the first round after its first frame; otherwise a write that is not complete ends cancelled by FIN or blocked waiting for an update |
| Smux.Stream.AwaitWindow | Stream.cs:297-306 | a complete write ends with its length; otherwise the wait for a window update ends cancelled when `fin` is, blocks when no update was posted, and else takes one update token and goes round again |
| Smux.Stream.WriteCancelError | Stream.cs:243-256 | a cancelled write reports ErrClosedPipe when the stream is dead, ErrEof when only `fin` is cancelled, and ErrWriteTimeout otherwise |
| Smux.Stream.WriteAsync | Stream.cs:217-257 | a dead stream fails with ErrClosedPipe and sends nothing; version 1 posts the PSH frames covering `b` and returns its length; a cancelled wait becomes ErrClosedPipe, ErrEof or ErrWriteTimeout by the stream's state; version 2 is `WriteV2` |
| Smux.Stream.Close | Stream.cs:356-377 | only the first call acts, and only on a stream not already killed: it kills the stream, posts FIN and returns the table entry's unread bytes to the bucket |

## Left out

- Concurrency is not modelled: tasks, `async`/`await`, the dataflow blocks and locks. Each loop is one step at a time, and interleavings are not explored.
- Timers are not modelled: `Task.Delay` and `CancelAfter`. A read timeout that is set is taken to fire when there is nothing to read. Write timeouts never fire.
- `ping` is left out because it only posts NOP frames and wake-ups on a timer. `AcceptStreamAsync` is left out because it is a channel receive, here the `acceptCh` sequence. `Server` and `Client` only call `Config.Verify` and the constructor, whose precondition `Config.Verified` stands for that call.
- Logging (`Console.WriteLine`) is not modelled.
- Frame.cs, RawHeader, UpdHeader, Endian, Config.Verify and SmuxException are not part of this model.
  - The header encoding is the one `sendLoop` writes (Session.cs:341-351). The decoder mirrors it; the receive loop only calls `RawHeader`'s accessors, whose byte offsets are not part of this model.
  - The UPD body layout, the consumed count and then the window, each 4 bytes little-endian, is the smux protocol's.
  - `Frame.initialPeerWindow` is taken as 262144, the initial window of the smux protocol.
- The `inflight < 0` branch of `writeV2` (Stream.cs:270-273) is not modelled. It can never be taken, because `inflight` is a `uint`.
- Exceptions from the transport are modelled as `ErrClosedPipe`: a failed `NetworkStream.WriteAsync` ends `sendLoop`, and a failed read ends `readfullAsync`.
- Token conservation is not stated as a session-wide invariant. Over every stream the session has created, the bucket plus all their queued bytes stays `MaxReceiveBuffer`: `HandlePsh`, `TryRead` and `StreamClose` each move tokens between the bucket and exactly one stream's queue, and each keeps the bucket plus that stream's queued bytes unchanged; `DeliveredHolds` says how a frame changes a stream's queue. Stating it as an invariant would need a ghost set of every stream created. The same sum counted over the table's entries does not hold: `OpenStreamAsync` stores its new stream with `streams[sid] = stream` (Session.cs:424), which can replace an entry a peer SYN created that still holds bytes. No bytes move, but the replaced stream's bytes are no longer counted through the table, and a later `Close` of that stream calls `StreamClose` with its ID (Stream.cs:373), which recycles the replacement's bytes.
- Smux.Stream.PushBytes: requires a non-empty payload. This is the only kind the receive loop passes (Session.cs:247), and it keeps every queued chunk non-empty.
- Smux.Stream.ReadAsync: does not state the new values of `numRead`, `incr`, `readEvents`, the shaper queue and the wake-up flag. `TryRead` states them for each attempt.
- Smux.Stream.WriteV2: the window is computed once per call. No other task runs during a call, so `peerConsumed` and `peerWindow` do not change, and `numWritten` is never written.
- Smux.Session.WriteFrameInternal: the timeout is ignored. The answer is the payload length unless the session is dead.
- Shaping.SortByPrio: is one particular sort, an insertion sort. Its contract promises only what `List.Sort` promises: ascending priority and the same requests. How equal priorities are ordered is left open, because `List.Sort` is not stable.
