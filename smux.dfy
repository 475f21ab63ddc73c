/** The session and its streams: the staging read buffer, the receive
    dispatch, the token bucket, the shaper and the writer as steps of the
    session's background loops, and the stream operations that queue, read,
    write, account for and close a stream's data. Session and Stream refer to
    each other, so they share one module, as they share one namespace. */
module Smux {
  import opened Base
  import opened Wire
  import opened Shaping
  import opened StreamIds
  import opened Flow
  import opened Net

  /** How one turn of a background loop ended: ready for the next turn,
      waiting for something only another task can provide, or stopped by the
      error that ended the loop. */
  datatype Step = Continue | Blocked | Stopped(error: Error)

  /** What `WriteFrameInternal` hands back: the count the writer reports,
      or the cancellation of the wait when the session is dead. */
  datatype WriteReply = Reply(n: nat) | Cancelled

  datatype OpenResult = Opened(stream: Stream) | OpenFailed(error: Error)

  /** The end of one `ReadAsync` call. `ReadBlocks`: it waits for an event
      nobody has posted yet. `ReadSpins`: it would retry forever without a
      state change (FIN seen, data buffered, zero-length buffer). */
  datatype ReadResult = ReadOk(n: nat) | ReadErr(error: Error) | ReadBlocks | ReadSpins

  /** The end of one `WriteAsync` call. `WriteBlocks`: a v2 write waits for a
      window update after sending `sent` bytes. */
  datatype WriteResult = Written(n: nat) | WriteErr(error: Error) | WriteBlocks(sent: nat)

  /** The values of a stream's fields. */
  datatype StreamView = StreamView(
    buffers: seq<LiveChunk>,
    readEvents: nat,
    die: bool,
    finCancelled: bool,
    closeOnce: int,
    readtimeout: Option<posint>,
    writetimeout: Option<posint>,
    numRead: uint32,
    numWritten: uint32,
    incr: uint32,
    peerConsumed: uint32,
    peerWindow: uint32,
    updates: nat)

  /** `Frame.initialPeerWindow`. Frame.cs is not part of this model; the value
      is the initial peer window of the smux protocol. */
  const InitialPeerWindow: uint32 := 262144

  /** A stream as its constructor leaves it. */
  function NewStreamView(): (v: StreamView)
    ensures Pending(v.buffers) == [] && v.readEvents == 0 && v.updates == 0
    ensures !v.die && !v.finCancelled && v.readtimeout.None? && v.writetimeout.None?
    ensures v.numRead == v.numWritten == v.incr == v.peerConsumed == 0
    ensures v.peerWindow == InitialPeerWindow
  {
    StreamView([], 0, false, false, 0, None, None, 0, 0, 0, 0, InitialPeerWindow, 0)
  }

  /** How a stream's fields change when the receive loop hands it a frame
      with body `body`. */
  function Delivered(cmd: byte, body: seq<byte>, v: StreamView): (r: StreamView)
    requires cmd == CmdUPD ==> |body| == UpdSize
    ensures r.finCancelled == (v.finCancelled || cmd == CmdFIN)
    ensures r.readEvents == v.readEvents + if cmd == CmdFIN || (cmd == CmdPSH && |body| > 0) then 1 else 0
    ensures cmd == CmdUPD ==> EncodeUpd(Upd(r.peerConsumed, r.peerWindow)) == body && r.updates == v.updates + 1
    ensures cmd != CmdUPD ==> r.peerConsumed == v.peerConsumed && r.peerWindow == v.peerWindow && r.updates == v.updates
  {
    if cmd == CmdFIN then
      v.(finCancelled := true, readEvents := v.readEvents + 1)
    else if cmd == CmdPSH && |body| > 0 then
      v.(buffers := v.buffers + [Chunk(body, 0)], readEvents := v.readEvents + 1)
    else if cmd == CmdUPD then
      var u := DecodeUpd(body);
      v.(peerConsumed := u.consumed, peerWindow := u.window, updates := v.updates + 1)
    else v
  }

  /** Handing a frame to a stream adds exactly a PSH body to what it holds for
      its reader, and changes nothing else that counts against the bucket. */
  lemma DeliveredHolds(cmd: byte, body: seq<byte>, v: StreamView)
    requires cmd == CmdUPD ==> |body| == UpdSize
    ensures |Pending(Delivered(cmd, body, v).buffers)|
         == |Pending(v.buffers)| + (if cmd == CmdPSH then |body| else 0)
    ensures cmd == CmdPSH ==> Pending(Delivered(cmd, body, v).buffers) == Pending(v.buffers) + body
  {
    if cmd == CmdPSH && |body| > 0 {
      PendingAppend(v.buffers, Chunk(body, 0));
    }
  }

  /** The session fields the receive loop may change, and the addressed stream's fields. */
  datatype Snapshot = Snapshot(
    streams: map<uint32, Stream>,
    bucket: int,
    acceptCh: seq<Stream>,
    dataReady: int,
    target: Option<StreamView>)

  /** The session's staging buffer: `buff[r..w]` was read from the transport
      and not yet consumed. */
  class ReadBuffer {
    const buff: array<byte>
    var w: int
    var r: int

    ghost predicate Valid()
      reads this
    {
      0 <= r <= w <= buff.Length && (r == w ==> w == 0)
    }

    ghost function Staged(): seq<byte>
      reads this, buff
      requires Valid()
    {
      buff[r..w]
    }

    constructor (maxReceiveBuffer: nat)
      ensures Valid() && fresh(buff) && buff.Length == maxReceiveBuffer && Staged() == []
    {
      buff := new byte[maxReceiveBuffer];
      w, r := 0, 0;
    }

    /** The bytes a read through this buffer delivers next from transport `t`. */
    ghost function Input(t: Transport): seq<byte>
      reads this, buff, t
      requires Valid()
    {
      Staged() + t.Available()
    }

    /** `readfullAsync` on the staging buffer and the transport `t`; see `Session.ReadFull`. */
    method ReadFull(b: array<byte>, t: Transport) returns (st: Outcome)
      requires Valid() && b != buff && buff.Length > 0
      modifies this, buff, t`incoming, b
      ensures Valid()
      ensures b.Length > buff.Length ==>
                st == Fail(ErrMaxReceiveBuffer) && Input(t) == old(Input(t)) && b[..] == old(b[..])
      ensures b.Length <= buff.Length && b.Length <= |old(Input(t))| ==>
                st == Pass && b[..] == old(Input(t))[..b.Length] && Input(t) == old(Input(t))[b.Length..]
      ensures b.Length <= buff.Length && b.Length > |old(Input(t))| ==>
                st == Fail(ErrClosedPipe) && Input(t) == [] && b[..|old(Input(t))|] == old(Input(t))
    {
      if b.Length > buff.Length {
        return Fail(ErrMaxReceiveBuffer);
      }
      ghost var input := Input(t);
      var offset := 0;
      while offset < b.Length
        invariant Valid() && 0 <= offset <= b.Length && offset <= |input|
        invariant b[..offset] == input[..offset] && Input(t) == input[offset..]
        decreases b.Length - offset, |t.Available()|
      {
        var ok;
        offset, ok := Advance(b, t, offset, input);
        if !ok {
          return Fail(ErrClosedPipe);
        }
      }
      assert b[..] == b[..offset];
      st := Pass;
    }

    /** One turn of the `readfullAsync` loop: copy what is staged, then
        refill from `t` if `b` is not full yet; fails when the transport has
        nothing more to deliver. */
    method Advance(b: array<byte>, t: Transport, offset: nat, ghost input: seq<byte>) returns (next: nat, ok: bool)
      requires Valid() && b != buff && buff.Length > 0 && offset < b.Length
      requires offset <= |input| && b[..offset] == input[..offset] && Input(t) == input[offset..]
      modifies this, buff, t`incoming, b
      ensures Valid() && offset <= next <= b.Length && next <= |input|
      ensures b[..next] == input[..next] && Input(t) == input[next..]
      ensures ok ==> next > offset || |t.Available()| < |old(t.Available())|
      ensures !ok <==> next == |input| < b.Length
    {
      ghost var staged, avail := Staged(), t.Available();
      var copy := Take(b, offset);
      next := offset + copy;
      ok := true;
      SplitInput(input, offset, copy, staged, avail);
      if next < b.Length {
        ghost var got := b[..next];
        var n := Fill(t);
        assert b[..next] == got;
        if n <= 0 {
          ok := false;
        } else {
          assert avail == avail[..n] + avail[n..];
        }
      }
    }

    /** Moving `copy` staged bytes from the front of `input[offset..]` to the
        filled part keeps the two parts adding up to `input`. */
    static lemma SplitInput(input: seq<byte>, offset: nat, copy: nat, staged: seq<byte>, avail: seq<byte>)
      requires offset <= |input| && input[offset..] == staged + avail && copy <= |staged|
      ensures input[..offset] + staged[..copy] == input[..offset + copy]
      ensures input[offset + copy..] == staged[copy..] + avail
    {
      assert input[offset..][..copy] == staged[..copy];
      assert input[..offset + copy] == input[..offset] + input[offset..][..copy];
      assert input[offset + copy..] == input[offset..][copy..];
    }

    /** The copy step of `readfullAsync`: moves as many staged bytes as fit
        into `b` at `offset`, and rewinds both cursors once nothing is staged. */
    method Take(b: array<byte>, offset: nat) returns (copy: nat)
      requires Valid() && b != buff && offset <= b.Length
      modifies this, b
      ensures Valid()
      ensures copy == Min(b.Length - offset, |old(Staged())|)
      ensures b[..offset + copy] == old(b[..offset]) + old(Staged())[..copy]
      ensures Staged() == old(Staged())[copy..]
      ensures offset + copy < b.Length ==> r == 0 && w == 0
    {
      var available := w - r;
      copy := b.Length - offset;
      if copy > available {
        copy := available;
      }
      ghost var front, moved := b[..offset], buff[r..r + copy];
      assert moved == Staged()[..copy];
      forall i | 0 <= i < copy {
        b[offset + i] := buff[r + i];
      }
      assert b[..offset] == front;
      assert b[offset..offset + copy] == moved;
      assert b[..offset + copy] == front + moved by {
        assert b[..offset + copy] == b[..offset] + b[offset..offset + copy];
      }
      r := r + copy;
      if r == w {
        r, w := 0, 0;
      }
    }

    /** The refill step of `readfullAsync`: one transport read into the free
        space of an empty staging buffer. */
    method Fill(t: Transport) returns (n: int)
      requires Valid() && r == 0 && w == 0 && buff.Length > 0
      modifies this, buff, t`incoming
      ensures Valid()
      ensures n <= 0 ==> Staged() == [] && old(t.Available()) == [] && t.Available() == []
      ensures n > 0 ==> n <= |old(t.Available())| && Staged() == old(t.Available())[..n]
                        && t.Available() == old(t.Available())[n..]
    {
      var space := buff.Length - w;
      n := t.Read(buff, w, space);
      if n > 0 {
        w := w + n;
        assert buff[0..w] == old(t.Available())[..n];
      }
    }
  }

  class Session {
    const config: Config
    const readBuffer: ReadBuffer
    const transport: Transport
    var netstreamClosed: bool
    var nextStreamID: uint32
    var goAway: int
    /** Receive tokens: bytes the receive loop may still buffer. */
    var bucket: int
    /** `bucketNotify` (capacity 1) holds a token. */
    var bucketNotified: bool
    var streams: map<uint32, Stream>
    /** `die` has been cancelled. */
    var died: bool
    var dieOnce: int
    /** Requests posted to `shaper` and not yet taken by the shaper loop. */
    var shaper: seq<WriteRequest>
    /** Requests the shaper has forwarded to `writes` and the writer has not taken. */
    var writes: seq<WriteRequest>
    /** Streams the peer opened, waiting in `acceptCh`. */
    var acceptCh: seq<Stream>
    var dataReady: int

    ghost predicate Valid()
      reads this, readBuffer
    {
      && config.Verified()
      && readBuffer.Valid()
      && readBuffer.buff.Length == config.maxFrameSize + HeaderSize
      && (forall sid | sid in streams ::
            streams[sid].Id == sid && streams[sid].sess == this && streams[sid].frameSize == config.maxFrameSize)
    }

    /** The bytes the receive side will read next: the staged ones, then the
        transport's. */
    ghost function Unread(): seq<byte>
      reads this, readBuffer, readBuffer.buff, transport
      requires Valid()
    {
      readBuffer.Staged() + transport.Available()
    }

    ghost function Snap(sid: uint32): Snapshot
      reads this, streams.Values
    {
      Snapshot(streams, bucket, acceptCh, dataReady,
               if sid in streams then Some(streams[sid].View()) else None)
    }

    /** The background loops are the step methods below; starting them is not modelled. */
    constructor (config: Config, s: Transport, client: bool)
      requires config.Verified()
      ensures Valid() && fresh(readBuffer) && fresh(readBuffer.buff)
      ensures this.config == config && transport == s
      ensures readBuffer.Staged() == []
      ensures bucket == config.maxReceiveBuffer
      ensures Allocator(nextStreamID, goAway > 0) == StreamIds.Initial(client)
      ensures streams == map[] && shaper == [] && writes == [] && acceptCh == []
      ensures !died && dieOnce == 0 && dataReady == 0 && !netstreamClosed && !bucketNotified
    {
      this.config := config;
      bucket := config.maxReceiveBuffer;
      transport := s;
      readBuffer := new ReadBuffer(config.maxFrameSize + HeaderSize);
      if client {
        nextStreamID := 1;
      } else {
        nextStreamID := 0;
      }
      netstreamClosed := false;
      goAway := 0;
      bucketNotified := false;
      streams := map[];
      died := false;
      dieOnce := 0;
      shaper := [];
      writes := [];
      acceptCh := [];
      dataReady := 0;
    }

    /** `returnTokens`: gives `n` tokens back and wakes the receive loop when any are left. */
    method ReturnTokens(n: int)
      modifies this`bucket, this`bucketNotified
      ensures bucket == old(bucket) + n
      ensures bucketNotified == (old(bucketNotified) || bucket > 0)
    {
      bucket := bucket + n;
      if bucket > 0 {
        bucketNotified := true;
      }
    }

    /** `Close`: only the first call acts; it kills every registered stream,
        closes the transport and cancels the session. */
    method Close()
      modifies this`dieOnce, this`died, transport`closed, streams.Values`die
      ensures CloseEffect()
    {
      if dieOnce == 0 {
        dieOnce := 1;
        var rest := streams.Values;
        while rest != {}
          invariant rest <= streams.Values
          invariant forall s | s in streams.Values && s !in rest :: s.die
          invariant forall s | s in rest :: s.die == old(s.die)
          invariant dieOnce == 1 && died == old(died) && transport.closed == old(transport.closed)
          decreases |rest|
        {
          var s :| s in rest;
          s.SessionClose();
          rest := rest - {s};
        }
        transport.Close();
        died := true;
      }
    }

    twostate predicate CloseEffect()
      reads this, transport, streams.Values
    {
      if old(dieOnce) == 0 then
        && dieOnce == 1 && died && transport.closed
        && (forall s | s in streams.Values :: s.die)
      else
        && dieOnce == old(dieOnce) && died == old(died) && transport.closed == old(transport.closed)
        && (forall s | s in streams.Values && old(allocated(s)) :: s.die == old(s.die))
    }

    /** `StreamClose`: returns a stream's unread bytes to the bucket; the
        table entry stays. */
    method StreamClose(sid: uint32)
      modifies this`bucket, this`bucketNotified, (if sid in streams then {streams[sid]} else {})`buffers
      ensures sid !in streams ==> bucket == old(bucket) && bucketNotified == old(bucketNotified)
      ensures sid in streams ==>
        var n := |Pending(old(streams[sid].buffers))|;
        && streams[sid].buffers == []
        && bucket == old(bucket) + n
        && bucketNotified == (old(bucketNotified) || (n > 0 && bucket > 0))
      // tokens move from the stream's queue back to the bucket
      ensures sid in streams ==>
        bucket + |Pending(streams[sid].buffers)| == old(bucket + |Pending(streams[sid].buffers)|)
    {
      if sid in streams {
        var stream := streams[sid];
        var n := stream.RecycleTokens();
        if n > 0 {
          bucket := bucket + n;
          if bucket > 0 {
            bucketNotified := true;
          }
        }
      }
    }

    /** `WriteFrameInternal`: posts the request to the shaper and waits for
        the writer's report, which is the payload length (see `SendStep`); a
        dead session cancels the wait. The timeout never fires before the
        report in this sequential model. */
    method WriteFrameInternal(f: Frame, prio: uint32, timeout: Option<posint>) returns (r: WriteReply)
      modifies this`shaper
      ensures shaper == old(shaper) + [WriteRequest(prio, f)]
      ensures r == if died then Cancelled else Reply(PayloadLength(f))
    {
      shaper := shaper + [WriteRequest(prio, f)];
      if died {
        r := Cancelled;
      } else {
        r := Reply(PayloadLength(f));
      }
    }

    method WriteFrame(f: Frame) returns (r: WriteReply)
      modifies this`shaper
      ensures shaper == old(shaper) + [WriteRequest(0, f)]
      ensures r == if died then Cancelled else Reply(PayloadLength(f))
    {
      r := WriteFrameInternal(f, 0, None);
    }

    /** `readfullAsync`: fills `b` from the staged bytes, then from the
        transport, refilling the staging buffer as needed. */
    method ReadFull(b: array<byte>) returns (st: Outcome)
      requires Valid() && b != readBuffer.buff
      modifies readBuffer, readBuffer.buff, transport`incoming, b
      ensures Valid()
      ensures b.Length > readBuffer.buff.Length ==>
                st == Fail(ErrMaxReceiveBuffer) && Unread() == old(Unread()) && b[..] == old(b[..])
      ensures b.Length <= readBuffer.buff.Length && b.Length <= |old(Unread())| ==>
                st == Pass && b[..] == old(Unread())[..b.Length] && Unread() == old(Unread())[b.Length..]
      ensures b.Length <= readBuffer.buff.Length && b.Length > |old(Unread())| ==>
                st == Fail(ErrClosedPipe) && Unread() == [] && b[..|old(Unread())|] == old(Unread())
    {
      st := readBuffer.ReadFull(b, transport);
    }

    /** `OpenStreamAsync`: allocates the next ID of the session's parity,
        announces it with SYN and registers the stream, overwriting any entry
        with that ID. */
    method OpenStream() returns (r: OpenResult)
      requires Valid()
      modifies this`nextStreamID, this`goAway, this`shaper, this`streams
      ensures Valid()
      ensures netstreamClosed ==>
        && r == OpenFailed(ErrClosedPipe) && nextStreamID == old(nextStreamID) && goAway == old(goAway)
        && shaper == old(shaper) && streams == old(streams)
      ensures !netstreamClosed ==>
        var a := StreamIds.Open(Allocator(old(nextStreamID), old(goAway) > 0));
        && nextStreamID == a.0.next && (goAway > 0) == a.0.goAway
        && (a.1.None? ==> r == OpenFailed(ErrGoAway) && shaper == old(shaper) && streams == old(streams))
        && (a.1.Some? ==>
              && shaper == old(shaper) + [WriteRequest(0, Frame(ToByte(config.version), CmdSYN, a.1.value, None))]
              && (died ==> r == OpenFailed(OperationCanceled) && streams == old(streams))
              && (!died ==>
                    && r.Opened? && fresh(r.stream) && r.stream.Id == a.1.value
                    && r.stream.sess == this && r.stream.Valid()
                    && r.stream.View() == NewStreamView()
                    && streams == old(streams)[a.1.value := r.stream]))
    {
      if netstreamClosed {
        return OpenFailed(ErrClosedPipe);
      }
      if goAway > 0 {
        return OpenFailed(ErrGoAway);
      }
      nextStreamID := Add32(nextStreamID, 2);
      var sid := nextStreamID;
      if sid == sid % 2 {
        goAway := 1;
        return OpenFailed(ErrGoAway);
      }
      var stream := new Stream(sid, config.maxFrameSize, this);
      var reply := WriteFrame(Frame(ToByte(config.version), CmdSYN, sid, None));
      if reply.Cancelled? {
        return OpenFailed(OperationCanceled);
      }
      streams := streams[sid := stream];
      r := Opened(stream);
    }

    /** The session fields and the addressed stream are as in `s0`. */
    ghost predicate Untouched(sid: uint32, s0: Snapshot)
      reads this, streams.Values
    {
      && streams == s0.streams && acceptCh == s0.acceptCh && bucket == s0.bucket
      && (sid in streams ==> s0.target == Some(streams[sid].View()))
    }

    /** What handling header `h` does to the session, given the bytes `before`
        that followed the header and the state `s0` before. */
    ghost predicate Dispatched(h: Header, before: seq<byte>, o: Step, s0: Snapshot)
      reads this, readBuffer, readBuffer.buff, transport, streams.Values
    {
      && Valid()
      && var verOk := h.ver == ToByte(config.version);
         var known := h.cmd == CmdNOP || h.cmd == CmdSYN || h.cmd == CmdFIN || h.cmd == CmdPSH || h.cmd == CmdUPD;
         var bodyLen := if h.cmd == CmdPSH then h.length else if h.cmd == CmdUPD then UpdSize else 0;
         var live := h.sid in s0.streams;
      && dataReady == (if verOk then 1 else s0.dataReady)
      && if !verOk || !known then
           o == Stopped(ErrInvalidProtocol) && Unread() == before && Untouched(h.sid, s0)
         else if bodyLen > readBuffer.buff.Length then
           o == Stopped(ErrMaxReceiveBuffer) && Unread() == before && Untouched(h.sid, s0)
         else if |before| < bodyLen then
           o == Stopped(ErrClosedPipe) && Unread() == [] && Untouched(h.sid, s0)
         else
           && o == Continue && Unread() == before[bodyLen..]
           && if h.cmd == CmdSYN && !live then
                && h.sid in streams && streams == s0.streams[h.sid := streams[h.sid]]
                && streams[h.sid] !in s0.streams.Values
                && streams[h.sid].Id == h.sid && streams[h.sid].View() == NewStreamView()
                && acceptCh == s0.acceptCh + [streams[h.sid]] && bucket == s0.bucket
              else
                && streams == s0.streams && acceptCh == s0.acceptCh
                && bucket == s0.bucket - (if live && h.cmd == CmdPSH then bodyLen else 0)
                && (live ==> s0.target.Some?
                             && streams[h.sid].View() == Delivered(h.cmd, before[..bodyLen], s0.target.value))
    }

    /** The body of `recvLoop` after the header is read. */
    method Dispatch(h: Header, ghost before: seq<byte>, ghost s0: Snapshot) returns (o: Step)
      requires Valid() && before == Unread() && s0 == Snap(h.sid)
      modifies this`streams, this`bucket, this`dataReady, this`acceptCh,
               readBuffer, readBuffer.buff, transport`incoming,
               (if h.sid in streams then {streams[h.sid]} else {})
      ensures Dispatched(h, before, o, s0)
      ensures h.sid !in old(streams) && h.sid in streams ==> fresh(streams[h.sid])
    {
      if h.ver != ToByte(config.version) {
        return Stopped(ErrInvalidProtocol);
      }
      dataReady := 1;
      if h.cmd == CmdNOP {
        o := Continue;
      } else if h.cmd == CmdSYN {
        HandleSyn(h.sid);
        o := Continue;
      } else if h.cmd == CmdFIN {
        HandleFin(h.sid);
        o := Continue;
      } else if h.cmd == CmdPSH {
        o := HandlePsh(h.sid, h.length);
      } else if h.cmd == CmdUPD {
        o := HandleUpd(h.sid);
      } else {
        o := Stopped(ErrInvalidProtocol);
      }
    }

    /** The SYN case: registers a new stream unless the ID is taken. */
    method HandleSyn(sid: uint32)
      requires Valid()
      modifies this`streams, this`acceptCh
      ensures Valid()
      ensures sid in old(streams) ==> streams == old(streams) && acceptCh == old(acceptCh)
      ensures sid !in old(streams) ==>
        && sid in streams && fresh(streams[sid]) && streams == old(streams)[sid := streams[sid]]
        && streams[sid].Id == sid && streams[sid].View() == NewStreamView()
        && streams[sid].sess == this && streams[sid].Valid()
        && acceptCh == old(acceptCh) + [streams[sid]]
    {
      if sid !in streams {
        var stream := new Stream(sid, config.maxFrameSize, this);
        streams := streams[sid := stream];
        acceptCh := acceptCh + [stream];
      }
    }

    /** The FIN case: marks a registered stream finished and posts a read event. */
    method HandleFin(sid: uint32)
      modifies (if sid in streams then {streams[sid]} else {})
      ensures sid in streams ==> streams[sid].View() == Delivered(CmdFIN, [], old(streams[sid].View()))
    {
      if sid in streams {
        var stream := streams[sid];
        stream.Fin();
        stream.NotifyReadEvent();
      }
    }

    /** The PSH case: reads a non-empty payload and hands it to a registered
        stream, taking its length from the bucket; for an unknown ID the
        payload is read and dropped. */
    method HandlePsh(sid: uint32, length: nat) returns (o: Step)
      requires Valid()
      modifies this`bucket, readBuffer, readBuffer.buff, transport`incoming,
               (if sid in streams then {streams[sid]} else {})
      ensures Valid()
      ensures length > readBuffer.buff.Length ==>
        && o == Stopped(ErrMaxReceiveBuffer) && Unread() == old(Unread()) && bucket == old(bucket)
        && (sid in streams ==> streams[sid].View() == old(streams[sid].View()))
      ensures length <= readBuffer.buff.Length && |old(Unread())| < length ==>
        && o == Stopped(ErrClosedPipe) && Unread() == [] && bucket == old(bucket)
        && (sid in streams ==> streams[sid].View() == old(streams[sid].View()))
      ensures length <= readBuffer.buff.Length && length <= |old(Unread())| ==>
        && o == Continue && Unread() == old(Unread())[length..]
        && (sid in streams ==>
              && streams[sid].View() == Delivered(CmdPSH, old(Unread())[..length], old(streams[sid].View()))
              && bucket == old(bucket) - length)
        && (sid !in streams ==> bucket == old(bucket))
      // tokens move from the bucket into the registered stream's queue
      ensures sid in streams ==>
        bucket + |Pending(streams[sid].buffers)| == old(bucket + |Pending(streams[sid].buffers)|)
    {
      if length > 0 {
        ghost var input := Unread();
        var buff := new byte[length];
        var st := ReadFull(buff);
        if st.Fail? {
          return Stopped(st.error);
        }
        assert buff[..] == input[..length];
        if sid in streams {
          streams[sid].Deliver(buff[..]);
          bucket := bucket - buff.Length;
        }
      }
      o := Continue;
    }

    /** The UPD case: reads the 8-byte body and hands it to a registered stream. */
    method HandleUpd(sid: uint32) returns (o: Step)
      requires Valid()
      modifies readBuffer, readBuffer.buff, transport`incoming,
               (if sid in streams then {streams[sid]} else {})
      ensures Valid()
      ensures |old(Unread())| < UpdSize ==>
        && o == Stopped(ErrClosedPipe) && Unread() == []
        && (sid in streams ==> streams[sid].View() == old(streams[sid].View()))
      ensures |old(Unread())| >= UpdSize ==>
        && o == Continue && Unread() == old(Unread())[UpdSize..]
        && (sid in streams ==>
              streams[sid].View() == Delivered(CmdUPD, old(Unread())[..UpdSize], old(streams[sid].View())))
    {
      var updHdr := new byte[UpdSize];
      var st := ReadFull(updHdr);
      if st.Fail? {
        return Stopped(st.error);
      }
      var u := DecodeUpd(updHdr[..]);
      if sid in streams {
        streams[sid].Update(u.consumed, u.window);
      }
      o := Continue;
    }

    /** Reads the next frame header from the transport. */
    method ReadHeader() returns (st: Outcome, h: Header)
      requires Valid()
      modifies readBuffer, readBuffer.buff, transport`incoming
      ensures Valid()
      ensures |old(Unread())| < HeaderSize ==> st == Fail(ErrClosedPipe) && Unread() == []
      ensures |old(Unread())| >= HeaderSize ==>
        st == Pass && h == DecodeHeader(old(Unread())[..HeaderSize]) && Unread() == old(Unread())[HeaderSize..]
    {
      var hdr := new byte[HeaderSize];
      st := ReadFull(hdr);
      h := DecodeHeader(hdr[..]);
    }

    /** The part of a `recvLoop` turn after the token wait: read a header
        and dispatch it. */
    method ReceiveFrame() returns (o: Step)
      requires Valid()
      modifies this`streams, this`bucket, this`dataReady, this`acceptCh,
               readBuffer, readBuffer.buff, transport`incoming, streams.Values
      ensures Valid()
      ensures |old(Unread())| < HeaderSize ==>
        && o == Stopped(ErrClosedPipe) && Unread() == []
        && Snap(0) == old(Snap(0)) && unchanged(old(streams).Values)
      ensures |old(Unread())| >= HeaderSize ==>
        var h := DecodeHeader(old(Unread())[..HeaderSize]);
        && Dispatched(h, old(Unread())[HeaderSize..], o, old(Snap(h.sid)))
        && (forall sid | sid in old(streams) && sid != h.sid :: unchanged(old(streams)[sid]))
    {
      var st, h := ReadHeader();
      if st.Fail? {
        o := Stopped(st.error);
      } else {
        o := Dispatch(h, old(Unread())[HeaderSize..], old(Snap(h.sid)));
      }
    }

    /** One turn of `recvLoop`: wait for tokens, then receive one frame. */
    method RecvStep() returns (o: Step)
      requires Valid()
      modifies this`bucketNotified, this`streams, this`bucket, this`dataReady, this`acceptCh,
               readBuffer, readBuffer.buff, transport`incoming, streams.Values
      ensures Valid()
      ensures old(bucket) <= 0 ==>
        && o == (if died then Stopped(OperationCanceled) else Blocked)
        && bucketNotified == (old(bucketNotified) && died)
        && Unread() == old(Unread()) && Snap(0) == old(Snap(0)) && unchanged(old(streams).Values)
      ensures old(bucket) > 0 && |old(Unread())| < HeaderSize ==>
        && o == Stopped(ErrClosedPipe) && Unread() == [] && bucketNotified == old(bucketNotified)
        && Snap(0) == old(Snap(0)) && unchanged(old(streams).Values)
      ensures old(bucket) > 0 && |old(Unread())| >= HeaderSize ==>
        var h := DecodeHeader(old(Unread())[..HeaderSize]);
        && bucketNotified == old(bucketNotified)
        && Dispatched(h, old(Unread())[HeaderSize..], o, old(Snap(h.sid)))
        && (forall sid | sid in old(streams) && sid != h.sid :: unchanged(old(streams)[sid]))
    {
      if bucket <= 0 {
        if died {
          return Stopped(OperationCanceled);
        }
        bucketNotified := false;
        return Blocked;
      }
      o := ReceiveFrame();
    }

    /** One turn of `keepalive` after its delay: a dead session ends the loop;
        otherwise it clears `dataReady`, and closes the session when no frame
        arrived since the last turn while receive tokens are left. */
    method KeepaliveStep() returns (ended: bool)
      modifies this`dataReady, this`dieOnce, this`died, transport`closed, streams.Values`die
      ensures old(died) ==> ended && dataReady == old(dataReady) && dieOnce == old(dieOnce)
                            && died && transport.closed == old(transport.closed)
                            && forall s | s in old(streams.Values) :: s.die == old(s.die)
      ensures !old(died) ==> dataReady == (if old(dataReady) == 1 then 0 else old(dataReady))
      ensures !old(died) ==> ended == (old(dataReady) != 1 && bucket > 0)
      ensures !old(died) && ended ==> CloseEffect()
      ensures !old(died) && !ended ==>
                dieOnce == old(dieOnce) && died == old(died) && transport.closed == old(transport.closed)
                && forall s | s in old(streams.Values) :: s.die == old(s.die)
    {
      if died {
        return true;
      }
      var previous := dataReady;
      if dataReady == 1 {
        dataReady := 0;
      }
      ended := false;
      if previous != 1 && bucket > 0 {
        Close();
        ended := true;
      }
    }

    /** One turn of `shaperLoop`: takes every posted request, sorts them by
        priority and forwards them in that order. */
    method ShaperStep() returns (o: Step, forwarded: seq<WriteRequest>)
      modifies this`shaper, this`writes
      ensures died ==> o == Stopped(OperationCanceled) && shaper == old(shaper) && writes == old(writes) && forwarded == []
      ensures !died && old(shaper) == [] ==> o == Blocked && shaper == [] && writes == old(writes) && forwarded == []
      ensures !died && old(shaper) != [] ==>
        && o == Continue && shaper == [] && writes == old(writes) + forwarded
        && multiset(forwarded) == multiset(old(shaper)) && Ascending(forwarded)
    {
      if died {
        return Stopped(OperationCanceled), [];
      }
      if shaper == [] {
        return Blocked, [];
      }
      var reqs := [shaper[0]];
      shaper := shaper[1..];
      while shaper != []
        invariant reqs + shaper == old(shaper)
        invariant writes == old(writes)
      {
        reqs := reqs + [shaper[0]];
        shaper := shaper[1..];
      }
      assert reqs == old(shaper);
      reqs := SortByPrio(reqs);
      forwarded := [];
      ghost var sorted := reqs;
      while |reqs| > 0
        invariant forwarded + reqs == sorted
        invariant writes == old(writes) + forwarded && shaper == []
      {
        var req := reqs[0];
        writes := writes + [req];
        forwarded := forwarded + [req];
        reqs := reqs[1..];
      }
      assert forwarded == sorted;
      o := Continue;
    }

    /** One turn of `sendLoop`: encodes the next forwarded request into the
        transport and reports the payload length to its writer. */
    method SendStep() returns (o: Step, result: int)
      modifies this`writes, transport`outgoing
      ensures died ==> o == Stopped(OperationCanceled) && writes == old(writes) && transport.outgoing == old(transport.outgoing)
      ensures !died && old(writes) == [] ==> o == Blocked && writes == [] && transport.outgoing == old(transport.outgoing)
      ensures !died && old(writes) != [] ==>
        var f := old(writes)[0].frame;
        && writes == old(writes)[1..]
        && (transport.closed ==> o == Stopped(ErrClosedPipe) && transport.outgoing == old(transport.outgoing))
        && (!transport.closed ==> o == Continue && result == PayloadLength(f)
                                  && transport.outgoing == old(transport.outgoing) + EncodeFrame(f))
    {
      if died {
        return Stopped(OperationCanceled), 0;
      }
      if writes == [] {
        return Blocked, 0;
      }
      var req := writes[0];
      writes := writes[1..];
      var f := req.frame;
      var buf: seq<byte> := [f.ver, f.cmd];
      if f.data.None? {
        buf := buf + LittleEndian(0, 2);
      } else {
        buf := buf + LittleEndian(|f.data.value| % 0x1_0000, 2);
      }
      buf := buf + LittleEndian(f.sid, 4);
      if f.data.Some? {
        buf := buf + f.data.value;
      }
      assert buf == EncodeFrame(f);
      FrameRoundTrip(f);
      var ok := transport.Write(buf);
      if !ok {
        return Stopped(ErrClosedPipe), 0;
      }
      o, result := Continue, |buf| - HeaderSize;
    }
  }

  class Stream {
    const Id: uint32
    const sess: Session
    const frameSize: int
    /** Received chunks not yet read, oldest first. */
    var buffers: seq<LiveChunk>
    /** Tokens posted to `chReadEvent` and not yet taken. */
    var readEvents: nat
    /** `die` has been cancelled. */
    var die: bool
    /** `fin` has been cancelled by `Fin`; `fin` is also cancelled with `die`. */
    var finCancelled: bool
    var closeOnce: int
    var readtimeout: Option<posint>
    var writetimeout: Option<posint>
    var numRead: uint32
    var numWritten: uint32
    var incr: uint32
    var peerConsumed: uint32
    var peerWindow: uint32
    /** Tokens posted to `chUpdate` and not yet taken. */
    var updates: nat

    constructor (id: uint32, frameSize: int, sess: Session)
      ensures Id == id && this.frameSize == frameSize && this.sess == sess
      ensures View() == NewStreamView()
    {
      Id := id;
      this.frameSize := frameSize;
      this.sess := sess;
      buffers := [];
      readEvents := 0;
      die := false;
      finCancelled := false;
      closeOnce := 0;
      readtimeout := None;
      writetimeout := None;
      numRead := 0;
      numWritten := 0;
      incr := 0;
      peerConsumed := 0;
      peerWindow := InitialPeerWindow;
      updates := 0;
    }

    ghost function View(): StreamView
      reads this
    {
      StreamView(buffers, readEvents, die, finCancelled, closeOnce, readtimeout, writetimeout,
                 numRead, numWritten, incr, peerConsumed, peerWindow, updates)
    }

    /** What the session promises every stream it creates. */
    ghost predicate Valid() {
      sess.config.Verified() && frameSize == sess.config.maxFrameSize
    }

    /** `fin.IsCancellationRequested`: `fin` is linked to `die`. */
    predicate FinRequested(): (b: bool)
      reads this
      ensures die ==> b
      ensures finCancelled ==> b
      ensures b ==> finCancelled || die
    {
      finCancelled || die
    }

    /** The UPD request `sendWindowUpdate` posts. */
    function UpdRequest(consumed: uint32): (req: WriteRequest)
      ensures req.prio == 0 && req.frame.cmd == CmdUPD && req.frame.sid == Id && req.frame.data.Some?
      ensures |req.frame.data.value| == UpdSize
      ensures DecodeUpd(req.frame.data.value) == Upd(consumed, ToUInt32(sess.config.maxStreamBuffer))
    {
      UpdRoundTrip(Upd(consumed, ToUInt32(sess.config.maxStreamBuffer)));
      WriteRequest(0, Frame(ToByte(sess.config.version), CmdUPD, Id,
                            Some(EncodeUpd(Upd(consumed, ToUInt32(sess.config.maxStreamBuffer))))))
    }

    /** The `ReadTimeout` setter: only a positive value replaces the timeout. */
    method SetReadTimeout(value: Option<int>)
      modifies this`readtimeout
      ensures readtimeout == if value.Some? && value.value > 0 then Some(value.value) else old(readtimeout)
    {
      if value.Some? && value.value > 0 {
        readtimeout := Some(value.value);
      }
    }

    /** The `WriteTimeout` setter: only a positive value replaces the timeout. */
    method SetWriteTimeout(value: Option<int>)
      modifies this`writetimeout
      ensures writetimeout == if value.Some? && value.value > 0 then Some(value.value) else old(writetimeout)
    {
      if value.Some? && value.value > 0 {
        writetimeout := Some(value.value);
      }
    }

    /** `pushBytes`: the receive loop queues a non-empty payload at the back. */
    method PushBytes(buf: seq<byte>)
      requires |buf| > 0
      modifies this`buffers
      ensures buffers == old(buffers) + [Chunk(buf, 0)]
      ensures Pending(buffers) == old(Pending(buffers)) + buf
    {
      buffers := buffers + [Chunk(buf, 0)];
      PendingAppend(old(buffers), Chunk(buf, 0));
    }

    /** The two calls the receive loop makes on a registered stream for a
        non-empty PSH payload: `pushBytes`, then `NotifyReadEvent`. */
    method Deliver(body: seq<byte>)
      requires |body| > 0
      modifies this`buffers, this`readEvents
      ensures View() == Delivered(CmdPSH, body, old(View()))
      ensures Pending(buffers) == old(Pending(buffers)) + body
    {
      PushBytes(body);
      NotifyReadEvent();
    }

    /** `Update`: records the peer's counters and posts an update token. */
    method Update(consumed: uint32, window: uint32)
      modifies this`peerConsumed, this`peerWindow, this`updates
      ensures peerConsumed == consumed && peerWindow == window && updates == old(updates) + 1
    {
      peerConsumed := consumed;
      peerWindow := window;
      updates := updates + 1;
    }

    method Fin()
      modifies this`finCancelled
      ensures finCancelled
    {
      finCancelled := true;
    }

    method NotifyReadEvent()
      modifies this`readEvents
      ensures readEvents == old(readEvents) + 1
    {
      readEvents := readEvents + 1;
    }

    method SessionClose()
      modifies this`die
      ensures die
    {
      die := true;
    }

    /** `RecycleTokens`: drops every chunk and counts the bytes left unread in them. */
    method RecycleTokens() returns (n: int)
      modifies this`buffers
      ensures n == |Pending(old(buffers))| && buffers == []
    {
      n := 0;
      while |buffers| > 0
        invariant n + |Pending(buffers)| == |Pending(old(buffers))|
      {
        var buff := buffers[0];
        n := n + (|buff.bytes| - buff.offset);
        buffers := buffers[1..];
      }
    }

    /** The locked block shared by `tryRead` and `tryReadv2`: copies from the
        front chunk only, as much as fits, and advances or removes that chunk. */
    method TakeFront(b: array<byte>) returns (n: nat)
      modifies this`buffers, b
      ensures n == FrontTake(old(buffers), b.Length)
      ensures buffers == AfterTake(old(buffers), n)
      ensures Pending(buffers) == old(Pending(buffers))[n..]
      ensures b[..n] == old(Pending(buffers))[..n] && b[n..] == old(b[n..])
    {
      n := 0;
      if |buffers| > 0 {
        var buff := buffers[0];
        n := b.Length;
        if |buff.bytes| - buff.offset < n {
          n := |buff.bytes| - buff.offset;
        }
        forall i | 0 <= i < n {
          b[i] := buff.bytes[buff.offset + i];
        }
        assert b[..n] == Unread(buff)[..n];
        if buff.offset + n >= |buff.bytes| {
          buffers := buffers[1..];
        } else {
          buffers := [Chunk(buff.bytes, buff.offset + n)] + buffers[1..];
        }
      }
      TakeFromFront(old(buffers), n);
    }

    /** The v2 bookkeeping of one read that had `room` bytes of space and took
        `n`: the counters follow `AccountRead`, and an UPD request is posted
        when it announces something after taking data; its wait is cancelled
        when the session is dead. */
    twostate predicate AccountedV2(room: nat, n: nat, cancelled: bool)
      reads this, sess
    {
      if room == 0 then
        numRead == old(numRead) && incr == old(incr) && sess.shaper == old(sess.shaper) && !cancelled
      else
        var acc := AccountRead(old(numRead), old(incr), ToUInt32(n), UpdThreshold(sess.config.maxStreamBuffer));
        var announce := n > 0 && acc.notifyConsumed > 0;
        && numRead == acc.numRead && incr == acc.incr
        && sess.shaper == old(sess.shaper) + (if announce then [UpdRequest(acc.notifyConsumed)] else [])
        && cancelled == (announce && sess.died)
    }

    /** `tryRead`: one non-blocking read; `cancelled` is the cancellation of
        the v2 window-update write. */
    method TryRead(b: array<byte>) returns (n: nat, cancelled: bool)
      modifies this`buffers, this`numRead, this`incr, b, sess`bucket, sess`bucketNotified, sess`shaper
      ensures n == FrontTake(old(buffers), b.Length)
      ensures buffers == AfterTake(old(buffers), n)
      ensures Pending(buffers) == old(Pending(buffers))[n..]
      ensures b[..n] == old(Pending(buffers))[..n] && b[n..] == old(b[n..])
      ensures sess.bucket == old(sess.bucket) + n
      ensures sess.bucketNotified == (old(sess.bucketNotified) || (n > 0 && sess.bucket > 0))
      ensures sess.bucket + |Pending(buffers)| == old(sess.bucket + |Pending(buffers)|)
      ensures sess.config.version == 2 ==> AccountedV2(b.Length, n, cancelled)
      ensures sess.config.version != 2 ==>
                numRead == old(numRead) && incr == old(incr) && sess.shaper == old(sess.shaper) && !cancelled
    {
      if sess.config.version == 2 {
        n, cancelled := TryReadV2(b);
        return;
      }
      n := TakeFront(b);
      cancelled := false;
      if n > 0 {
        sess.ReturnTokens(n);
      }
    }

    /** `tryReadv2`. */
    method TryReadV2(b: array<byte>) returns (n: nat, cancelled: bool)
      modifies this`buffers, this`numRead, this`incr, b, sess`bucket, sess`bucketNotified, sess`shaper
      ensures n == FrontTake(old(buffers), b.Length)
      ensures buffers == AfterTake(old(buffers), n)
      ensures Pending(buffers) == old(Pending(buffers))[n..]
      ensures b[..n] == old(Pending(buffers))[..n] && b[n..] == old(b[n..])
      ensures sess.bucket == old(sess.bucket) + n
      ensures sess.bucketNotified == (old(sess.bucketNotified) || (n > 0 && sess.bucket > 0))
      ensures AccountedV2(b.Length, n, cancelled)
    {
      if b.Length == 0 {
        TakeNothing(buffers);
        return 0, false;
      }
      n := TakeFront(b);
      numRead := Add32(numRead, ToUInt32(n));
      incr := Add32(incr, ToUInt32(n));
      var notifyConsumed: uint32 := 0;
      if incr >= UpdThreshold(sess.config.maxStreamBuffer) || numRead == ToUInt32(n) {
        notifyConsumed := numRead;
        incr := 0;
      }
      cancelled := false;
      if n > 0 {
        sess.ReturnTokens(n);
        if notifyConsumed > 0 {
          var reply := SendWindowUpdate(notifyConsumed);
          cancelled := reply.Cancelled?;
        }
      }
    }

    /** `sendWindowUpdate`: posts an UPD frame announcing `consumed` and the
        configured stream buffer as the window. */
    method SendWindowUpdate(consumed: uint32) returns (r: WriteReply)
      modifies sess`shaper
      ensures sess.shaper == old(sess.shaper) + [UpdRequest(consumed)]
      ensures r == if sess.died then Cancelled else Reply(UpdSize)
    {
      var hdr := EncodeUpd(Upd(consumed, ToUInt32(sess.config.maxStreamBuffer)));
      var frame := Frame(ToByte(sess.config.version), CmdUPD, Id, Some(hdr));
      r := sess.WriteFrameInternal(frame, 0, readtimeout);
    }

    /** `ReadAsync`: reads from the front chunk, waiting for read events
        while there is nothing to read. `discarded` holds the bytes taken by
        v2 reads whose window-update write was cancelled: they are consumed
        but never returned. */
    method ReadAsync(b: array<byte>) returns (r: ReadResult, ghost discarded: seq<byte>)
      modifies this`buffers, this`numRead, this`incr, this`readEvents, b,
               sess`bucket, sess`bucketNotified, sess`shaper
      ensures r.ReadOk? ==> 0 < r.n <= b.Length && old(Pending(buffers)) == discarded + b[..r.n] + Pending(buffers)
      ensures !r.ReadOk? ==> old(Pending(buffers)) == discarded + Pending(buffers)
      ensures sess.bucket == old(sess.bucket) + (|old(Pending(buffers))| - |Pending(buffers)|)
      ensures discarded != [] ==> sess.config.version == 2 && sess.died
      // what each outcome means
      ensures r.ReadErr? ==> r.error == ErrClosedPipe || r.error == ErrEof || r.error == ErrReadTimeout
      ensures r == ReadErr(ErrClosedPipe) ==> die
      ensures r == ReadErr(ErrEof) ==> !die && finCancelled && buffers == []
      ensures r == ReadErr(ErrReadTimeout) ==> !FinRequested() && (readtimeout.Some? || discarded != [])
      ensures r.ReadSpins? ==> b.Length == 0 && finCancelled && !die && buffers != []
      ensures r.ReadBlocks? ==> !FinRequested() && readtimeout.None? && readEvents == 0
      // when each outcome happens
      ensures b.Length > 0 && old(buffers) != [] && !(sess.config.version == 2 && sess.died) ==>
                r == ReadOk(FrontTake(old(buffers), b.Length))
      ensures (b.Length == 0 || old(buffers) == []) && die ==> r == ReadErr(ErrClosedPipe)
      ensures old(buffers) == [] && finCancelled && !die ==> r == ReadErr(ErrEof)
      ensures (b.Length == 0 || old(buffers) == []) && !FinRequested() ==>
                readEvents == 0 && r == (if readtimeout.Some? then ReadErr(ErrReadTimeout) else ReadBlocks)
    {
      discarded := [];
      while true
        invariant old(Pending(buffers)) == discarded + Pending(buffers)
        invariant sess.bucket == old(sess.bucket) + |discarded|
        invariant discarded != [] ==> sess.config.version == 2 && sess.died
        invariant discarded == [] ==> buffers == old(buffers)
        decreases |Pending(buffers)|, readEvents
      {
        ghost var pending := Pending(buffers);
        ghost var q := buffers;
        var n, cancelled := TryRead(b);
        TakeCount(q, b.Length);
        if !cancelled && n > 0 {
          assert pending[..n] == b[..n];
          assert pending == b[..n] + Pending(buffers);
          Assoc(discarded, b[..n], Pending(buffers));
          r := ReadOk(n);
          break;
        }
        if !cancelled {
          TakeNothing(q);
          // waitRead: a cancelled token wins, then a posted event, then the timeout.
          if FinRequested() {
            cancelled := true;
          } else if readEvents > 0 {
            readEvents := readEvents - 1;
            continue;
          } else if readtimeout.Some? {
            r := ReadErr(ErrReadTimeout);
            break;
          } else {
            r := ReadBlocks;
            break;
          }
        } else {
          assert pending == pending[..n] + Pending(buffers);
          Assoc(discarded, pending[..n], Pending(buffers));
          discarded := discarded + pending[..n];
        }
        if die {
          r := ReadErr(ErrClosedPipe);
          break;
        } else if FinRequested() {
          if buffers == [] {
            r := ReadErr(ErrEof);
            break;
          }
          if n == 0 {
            r := ReadSpins;
            break;
          }
        } else {
          r := ReadErr(ErrReadTimeout);
          break;
        }
      }
    }

    /** The error `WriteAsync` turns a cancelled write into. */
    function WriteCancelError(): (e: Error)
      reads this
      ensures die ==> e == ErrClosedPipe
      ensures !die && finCancelled ==> e == ErrEof
      ensures !die && !finCancelled ==> e == ErrWriteTimeout
    {
      if die then ErrClosedPipe else if FinRequested() then ErrEof else ErrWriteTimeout
    }

    /** What a v2 write of `b` did, with `rounds` the bytes sent in each round. */
    twostate predicate WroteV2(b: seq<byte>, r: WriteResult, rounds: seq<nat>)
      reads this, sess
      requires Valid()
    {
      var ver := ToByte(sess.config.version);
      var win := SendWindow(numWritten, peerConsumed, peerWindow);
      if b == [] then
        r == Written(0) && rounds == [] && sess.shaper == old(sess.shaper) && updates == old(updates)
      else if win > 0 && sess.died then
        && r == WriteErr(OperationCanceled) && rounds == [] && updates == old(updates)
        && sess.shaper == old(sess.shaper) + PshRequests(ver, Id, numWritten, b, 0, Min(win, |b|), frameSize)[..1]
      else
        && |rounds| > 0 && Sum(rounds) <= |b|
        && Budgeted(win, |b|, rounds)
        && sess.shaper == old(sess.shaper) + RoundRequests(ver, Id, numWritten, b, rounds, frameSize)
        && updates + |rounds| == old(updates) + 1
        && (r == Written(|b|) <==> Sum(rounds) == |b|)
        && (Sum(rounds) < |b| ==>
              || (r == WriteErr(OperationCanceled) && FinRequested())
              || (r == WriteBlocks(Sum(rounds)) && !FinRequested() && updates == 0))
    }

    /** The send loop shared by `WriteAsync` (version 1) and one round of
        `writeV2`: posts `b[from..upto]` as PSH frames of at most `frameSize`
        bytes each, and stops at the first frame whose wait is cancelled. */
    method SendChunks(b: seq<byte>, from: nat, upto: nat) returns (sent: nat, cancelled: bool)
      requires Valid() && from <= upto <= |b|
      modifies sess`shaper
      ensures cancelled <==> sess.died && from < upto
      ensures cancelled ==> (sent == from &&
        sess.shaper == old(sess.shaper) + PshRequests(ToByte(sess.config.version), Id, numWritten, b, from, upto, frameSize)[..1])
      ensures !cancelled ==> (sent == upto &&
        sess.shaper == old(sess.shaper) + PshRequests(ToByte(sess.config.version), Id, numWritten, b, from, upto, frameSize))
    {
      var ver := ToByte(sess.config.version);
      ghost var nw := numWritten;
      ghost var reqs := PshRequests(ver, Id, nw, b, from, upto, frameSize);
      ghost var done: seq<WriteRequest> := [];
      sent, cancelled := from, false;
      while sent < upto
        invariant from <= sent <= upto
        invariant done + PshRequests(ver, Id, nw, b, sent, upto, frameSize) == reqs
        invariant sess.shaper == old(sess.shaper) + done
        invariant sess.died ==> sent == from && done == []
        invariant numWritten == nw
      {
        var sz := upto - sent;
        if sz > frameSize {
          sz := frameSize;
        }
        var frame := Frame(ver, CmdPSH, Id, Some(b[sent..sent + sz]));
        ghost var req := WriteRequest(nw, frame);
        ghost var rest := PshRequests(ver, Id, nw, b, sent + sz, upto, frameSize);
        PshRequestsStep(ver, Id, nw, b, sent, upto, frameSize, sz);
        var reply := sess.WriteFrameInternal(frame, numWritten, writetimeout);
        Assoc(old(sess.shaper), done, [req]);
        Assoc(done, [req], rest);
        done := done + [req];
        if reply.Cancelled? {
          assert done == reqs[..1];
          cancelled := true;
          break;
        }
        assert reply.n == sz;
        sent := sent + reply.n;
      }
    }

    /** One round of `writeV2`: computes the window left by the bytes in
        flight and sends as much of the rest of `b` as it allows. */
    method SendRound(b: seq<byte>, from: nat) returns (sent: nat, amount: nat, cancelled: bool)
      requires Valid() && from <= |b|
      modifies sess`shaper
      ensures amount == RoundBudget(SendWindow(numWritten, peerConsumed, peerWindow), |b| - from)
      ensures from + amount <= |b|
      ensures var reqs := PshRequests(ToByte(sess.config.version), Id, numWritten, b, from, from + amount, frameSize);
        if sess.died && amount > 0 then
          cancelled && sent == from && sess.shaper == old(sess.shaper) + reqs[..1]
        else
          !cancelled && sent == from + amount && sess.shaper == old(sess.shaper) + reqs
    {
      var inflight := Sub32(numWritten, peerConsumed);
      var w := ToInt32(Sub32(peerWindow, inflight));
      amount := RoundBudget(w, |b| - from);
      if w > 0 {
        var available := if w > |b| - from then |b| - from else w;
        sent, cancelled := SendChunks(b, from, from + available);
      } else {
        sent, cancelled := from, false;
      }
    }

    /** `writeV2`: sends in rounds bounded by the send window, waiting for a
        window update between rounds. */
    method WriteV2(b: seq<byte>) returns (r: WriteResult, ghost rounds: seq<nat>)
      requires Valid()
      modifies sess`shaper, this`updates
      ensures WroteV2(b, r, rounds)
    {
      if |b| == 0 {
        return Written(0), [];
      }
      var ver := ToByte(sess.config.version);
      ghost var win := SendWindow(numWritten, peerConsumed, peerWindow);
      ghost var nw := numWritten;
      var sent := 0;
      rounds := [];
      while true
        invariant Sum(rounds) == sent < |b|
        invariant Budgeted(win, |b|, rounds)
        invariant sess.shaper == old(sess.shaper) + RoundRequests(ver, Id, nw, b, rounds, frameSize)
        invariant updates + |rounds| == old(updates) && numWritten == nw
        invariant win > 0 && sess.died ==> rounds == []
        decreases |b| - sent, updates
      {
        ghost var before := sess.shaper;
        var amount, cancelled;
        sent, amount, cancelled := SendRound(b, sent);
        if cancelled {
          r := WriteErr(OperationCanceled);
          break;
        }
        RoundStep(ver, Id, nw, b, rounds, amount, frameSize, win, old(sess.shaper), before, sess.shaper);
        rounds := rounds + [amount];
        var out := AwaitWindow(sent, |b|);
        if out.Some? {
          r := out.value;
          break;
        }
      }
    }

    /** The end of a `writeV2` round: when bytes are left, wait for a window
        update, a wait that observes `fin` only. `None` means go round again. */
    method AwaitWindow(sent: nat, len: nat) returns (out: Option<WriteResult>)
      requires sent <= len
      modifies this`updates
      ensures sent == len ==> out == Some(Written(sent)) && updates == old(updates)
      ensures sent < len && FinRequested() ==> out == Some(WriteErr(OperationCanceled)) && updates == old(updates)
      ensures sent < len && !FinRequested() && old(updates) == 0 ==> out == Some(WriteBlocks(sent)) && updates == 0
      ensures sent < len && !FinRequested() && old(updates) > 0 ==> out == None && updates == old(updates) - 1
    {
      if sent == len {
        return Some(Written(sent));
      }
      if FinRequested() {
        return Some(WriteErr(OperationCanceled));
      }
      if updates == 0 {
        return Some(WriteBlocks(sent));
      }
      updates := updates - 1;
      out := None;
    }

    /** `WriteAsync`. */
    method WriteAsync(b: seq<byte>) returns (r: WriteResult, ghost rounds: seq<nat>)
      requires Valid()
      modifies sess`shaper, this`updates
      ensures die ==> r == WriteErr(ErrClosedPipe) && sess.shaper == old(sess.shaper) && updates == old(updates)
      ensures !die && sess.config.version != 2 ==>
        var reqs := PshRequests(ToByte(sess.config.version), Id, numWritten, b, 0, |b|, frameSize);
        && updates == old(updates)
        && if sess.died && |b| > 0 then
             r == WriteErr(WriteCancelError()) && sess.shaper == old(sess.shaper) + reqs[..1]
           else
             r == Written(|b|) && sess.shaper == old(sess.shaper) + reqs
      ensures !die && sess.config.version == 2 ==>
        exists raw :: WroteV2(b, raw, rounds) && r == (if raw == WriteErr(OperationCanceled) then WriteErr(WriteCancelError()) else raw)
    {
      rounds := [];
      if die {
        return WriteErr(ErrClosedPipe), rounds;
      }
      if sess.config.version == 2 {
        var raw;
        raw, rounds := WriteV2(b);
        if raw == WriteErr(OperationCanceled) {
          r := WriteErr(WriteCancelError());
        } else {
          r := raw;
        }
        return;
      }
      var sent, cancelled := SendChunks(b, 0, |b|);
      if cancelled {
        return WriteErr(WriteCancelError()), rounds;
      }
      r := Written(sent);
    }

    /** `Close`: only the first call acts, and only on a stream the session
        has not already killed: it kills the stream, posts FIN and returns the
        unread bytes of the table's entry for this ID. */
    method Close()
      modifies this`closeOnce, this`die, sess`shaper, sess`bucket, sess`bucketNotified,
               (if Id in sess.streams then {sess.streams[Id]} else {})`buffers
      ensures closeOnce == (if old(closeOnce) == 0 then 1 else old(closeOnce))
      ensures die == (old(die) || old(closeOnce) == 0)
      ensures var acts := old(closeOnce) == 0 && !old(die);
        && sess.shaper == old(sess.shaper) + (if acts then [WriteRequest(0, Frame(ToByte(sess.config.version), CmdFIN, Id, None))] else [])
        && (Id !in sess.streams ==> sess.bucket == old(sess.bucket) && sess.bucketNotified == old(sess.bucketNotified))
        && (Id in sess.streams ==>
              var s := sess.streams[Id];
              var n := if acts then |Pending(old(s.buffers))| else 0;
              && s.buffers == (if acts then [] else old(s.buffers))
              && sess.bucket == old(sess.bucket) + n
              && sess.bucketNotified == (old(sess.bucketNotified) || (n > 0 && sess.bucket > 0)))
    {
      if closeOnce == 0 {
        closeOnce := 1;
        if !die {
          die := true;
          var _ := sess.WriteFrame(Frame(ToByte(sess.config.version), CmdFIN, Id, None));
          sess.StreamClose(Id);
        }
      }
    }
  }
}
