/** The value-level rules behind a stream's buffering and flow control: the
    queue of received chunks that reads take from, the v2 read accounting that
    decides when a window update goes out, the split of a write into PSH
    frames, and the v2 send window. */
module Flow {
  import opened Base
  import opened Wire
  import opened Shaping

  /** One entry of a stream's `buffers` list: the received bytes and how many
      of them have been read. */
  datatype Chunk = Chunk(bytes: seq<byte>, offset: nat)

  /** A queued chunk always has unread bytes: a read removes it once its
      offset reaches its length, and only non-empty payloads are queued. */
  type LiveChunk = c: Chunk | c.offset < |c.bytes| witness Chunk([0], 0)

  function Unread(c: LiveChunk): seq<byte> {
    c.bytes[c.offset..]
  }

  /** The bytes a stream holds for its reader, in arrival order. */
  function Pending(q: seq<LiveChunk>): seq<byte> {
    if q == [] then [] else Unread(q[0]) + Pending(q[1..])
  }

  /** Queueing a chunk at the back appends its bytes after everything pending. */
  lemma {:induction false} PendingAppend(q: seq<LiveChunk>, c: LiveChunk)
    ensures Pending(q + [c]) == Pending(q) + Unread(c)
  {
    if q != [] {
      assert (q + [c])[1..] == q[1..] + [c];
      PendingAppend(q[1..], c);
    }
  }

  /** How many bytes one read takes: only from the front chunk, at most `room`. */
  function FrontTake(q: seq<LiveChunk>, room: nat): (n: nat)
    ensures n <= room && (q == [] ==> n == 0)
    ensures q != [] ==> n <= |Unread(q[0])| && (n == room || n == |Unread(q[0])|)
  {
    if q == [] then 0 else Min(room, |Unread(q[0])|)
  }

  /** The queue after `n` bytes were taken from the front chunk: its offset
      advances, and it is removed once nothing is left unread in it. */
  function AfterTake(q: seq<LiveChunk>, n: nat): (r: seq<LiveChunk>)
    requires q != [] ==> n <= |Unread(q[0])|
    ensures q == [] ==> r == []
    ensures q != [] && n == |Unread(q[0])| ==> r == q[1..]
    ensures q != [] && n < |Unread(q[0])| ==>
              |r| == |q| && r[1..] == q[1..] && Unread(r[0]) == Unread(q[0])[n..]
  {
    if q == [] then []
    else if q[0].offset + n >= |q[0].bytes| then q[1..]
    else [Chunk(q[0].bytes, q[0].offset + n)] + q[1..]
  }

  /** A read takes at most `room` bytes, and nothing exactly when the queue
      is empty or there is no room. */
  lemma TakeCount(q: seq<LiveChunk>, room: nat)
    ensures FrontTake(q, room) <= room && FrontTake(q, room) <= |Pending(q)|
    ensures FrontTake(q, room) == 0 <==> q == [] || room == 0
  {
    if q != [] {
      assert |Pending(q)| == |Unread(q[0])| + |Pending(q[1..])|;
    }
  }

  /** Taking nothing leaves the queue as it was. */
  lemma TakeNothing(q: seq<LiveChunk>)
    ensures AfterTake(q, 0) == q
  {
    if q != [] {
      assert [Chunk(q[0].bytes, q[0].offset)] + q[1..] == q;
    }
  }

  /** A read takes the first `n` pending bytes, all from the front chunk, and
      leaves the rest pending in order. */
  lemma TakeFromFront(q: seq<LiveChunk>, n: nat)
    requires if q == [] then n == 0 else n <= |Unread(q[0])|
    ensures q != [] ==> Pending(q)[..n] == Unread(q[0])[..n]
    ensures Pending(q) == Pending(q)[..n] + Pending(AfterTake(q, n))
  {
    if q != [] {
      var c := q[0];
      var rest := Pending(q[1..]);
      assert Pending(q) == Unread(c) + rest;
      if c.offset + n >= |c.bytes| {
        assert AfterTake(q, n) == q[1..];
        assert |Unread(c)| == n;
        assert Pending(q)[..n] == Unread(c);
      } else {
        var c' := Chunk(c.bytes, c.offset + n);
        assert AfterTake(q, n) == [c'] + q[1..];
        assert Pending([c'] + q[1..]) == Unread(c') + rest by {
          assert ([c'] + q[1..])[1..] == q[1..];
        }
        var head := Unread(c)[..n];
        assert Unread(c) == head + Unread(c');
        Assoc(head, Unread(c'), rest);
        assert Pending(q)[..n] == head;
      }
    } else {
      assert n == 0;
    }
  }

  // ---- v2 read accounting (tryReadv2) ----

  /** `numRead` and `incr` after a read, and the consumed count to announce (0: none). */
  datatype ReadAccount = ReadAccount(numRead: uint32, incr: uint32, notifyConsumed: uint32)

  /** `(uint)(MaxStreamBuffer/2)`: the unannounced-read count that triggers an update. */
  function UpdThreshold(maxStreamBuffer: int): (t: uint32)
    ensures 0 <= maxStreamBuffer < 2 * TwoTo32 ==> t == maxStreamBuffer / 2
  {
    ToUInt32(DivTrunc(maxStreamBuffer, 2))
  }

  function AccountRead(numRead: uint32, incr: uint32, n: uint32, threshold: uint32): (r: ReadAccount)
    ensures r.numRead == Add32(numRead, n)
    ensures r.notifyConsumed == 0 || (r.notifyConsumed == r.numRead && r.incr == 0)
    ensures r.incr == 0 || (r.notifyConsumed == 0 && r.incr == Add32(incr, n))
  {
    var total := Add32(numRead, n);
    var pending := Add32(incr, n);
    if pending >= threshold || total == n then ReadAccount(total, 0, total)
    else ReadAccount(total, pending, 0)
  }

  /** A read announces the cumulative count exactly when the unannounced count
      reaches the threshold or this is the first read, and the cumulative count
      is not zero; announcing resets the unannounced count. */
  lemma AnnounceIff(numRead: uint32, incr: uint32, n: uint32, threshold: uint32)
    ensures AccountRead(numRead, incr, n, threshold).numRead == Add32(numRead, n)
    ensures AccountRead(numRead, incr, n, threshold).notifyConsumed > 0 <==>
              (Add32(incr, n) >= threshold || Add32(numRead, n) == n) && Add32(numRead, n) > 0
    ensures AccountRead(numRead, incr, n, threshold).notifyConsumed > 0 ==>
              AccountRead(numRead, incr, n, threshold).notifyConsumed == Add32(numRead, n)
              && AccountRead(numRead, incr, n, threshold).incr == 0
  {
  }

  /** After any read the unannounced count is below the threshold (or zero). */
  lemma UnannouncedBelowThreshold(numRead: uint32, incr: uint32, n: uint32, threshold: uint32)
    ensures AccountRead(numRead, incr, n, threshold).incr == 0
         || AccountRead(numRead, incr, n, threshold).incr < threshold
  {
  }

  /** The first read of a stream announces what it read. */
  lemma FirstReadAnnounces(incr: uint32, n: uint32, threshold: uint32)
    requires 0 < n
    ensures AccountRead(0, incr, n, threshold) == ReadAccount(n, 0, n)
  {
  }

  // ---- splitting a write into PSH frames ----

  /** The PSH requests covering `b[from..upto]`, in order, each payload at most
      `frameSize` bytes, all with priority `prio`. */
  function PshRequests(ver: byte, sid: uint32, prio: uint32, b: seq<byte>,
                       from: nat, upto: nat, frameSize: int): (r: seq<WriteRequest>)
    requires from <= upto <= |b| && frameSize > 0
    ensures r == [] <==> from == upto
    decreases upto - from
  {
    if from == upto then []
    else
      var sz := Min(upto - from, frameSize);
      [WriteRequest(prio, Frame(ver, CmdPSH, sid, Some(b[from..from + sz])))]
        + PshRequests(ver, sid, prio, b, from + sz, upto, frameSize)
  }

  lemma Assoc<T>(a: seq<T>, b: seq<T>, c: seq<T>)
    ensures (a + b) + c == a + (b + c)
  {
  }

  /** The payloads of a list of requests, concatenated. */
  function Payloads(rs: seq<WriteRequest>): seq<byte> {
    if rs == [] then [] else Payload(rs[0].frame) + Payloads(rs[1..])
  }

  lemma {:induction false} PayloadsAppend(a: seq<WriteRequest>, b: seq<WriteRequest>)
    ensures Payloads(a + b) == Payloads(a) + Payloads(b)
  {
    if a == [] {
      assert a + b == b;
    } else {
      assert (a + b)[1..] == a[1..] + b;
      PayloadsAppend(a[1..], b);
    }
  }

  /** The PSH frames of a write carry exactly the written bytes, in order. */
  lemma {:induction false} PshRequestsCover(ver: byte, sid: uint32, prio: uint32, b: seq<byte>,
                                            from: nat, upto: nat, frameSize: int)
    requires from <= upto <= |b| && frameSize > 0
    ensures Payloads(PshRequests(ver, sid, prio, b, from, upto, frameSize)) == b[from..upto]
    decreases upto - from
  {
    if from < upto {
      var sz := Min(upto - from, frameSize);
      var rs := PshRequests(ver, sid, prio, b, from, upto, frameSize);
      var tail := PshRequests(ver, sid, prio, b, from + sz, upto, frameSize);
      assert rs[1..] == tail;
      PshRequestsCover(ver, sid, prio, b, from + sz, upto, frameSize);
      assert b[from..upto] == b[from..from + sz] + b[from + sz..upto];
    } else {
      assert b[from..upto] == [];
    }
  }

  /** Each of those frames is a PSH of this stream, with priority `prio` and a
      non-empty payload of at most `frameSize` bytes. */
  lemma {:induction false} PshRequestsShape(ver: byte, sid: uint32, prio: uint32, b: seq<byte>,
                                            from: nat, upto: nat, frameSize: int, i: nat)
    requires from <= upto <= |b| && frameSize > 0
    requires i < |PshRequests(ver, sid, prio, b, from, upto, frameSize)|
    ensures var r := PshRequests(ver, sid, prio, b, from, upto, frameSize)[i];
              && r.prio == prio && r.frame.ver == ver && r.frame.cmd == CmdPSH && r.frame.sid == sid
              && r.frame.data.Some? && 0 < PayloadLength(r.frame) <= frameSize
    decreases upto - from
  {
    var sz := Min(upto - from, frameSize);
    if i > 0 {
      var rs := PshRequests(ver, sid, prio, b, from, upto, frameSize);
      assert rs[i] == PshRequests(ver, sid, prio, b, from + sz, upto, frameSize)[i - 1];
      PshRequestsShape(ver, sid, prio, b, from + sz, upto, frameSize, i - 1);
    }
  }

  /** The first request for `b[from..upto]` carries a full frame, or all that is
      left when less than a frame remains; the others cover what follows. */
  lemma PshRequestsStep(ver: byte, sid: uint32, prio: uint32, b: seq<byte>,
                        from: nat, upto: nat, frameSize: int, sz: nat)
    requires from < upto <= |b| && frameSize > 0 && sz == Min(upto - from, frameSize)
    ensures PshRequests(ver, sid, prio, b, from, upto, frameSize)
         == [WriteRequest(prio, Frame(ver, CmdPSH, sid, Some(b[from..from + sz])))]
            + PshRequests(ver, sid, prio, b, from + sz, upto, frameSize)
  {
  }

  /** A write of `d > 0` bytes goes out as the fewest frames of at most
      `frameSize` bytes that can hold it. */
  lemma {:induction false} PshRequestsCount(ver: byte, sid: uint32, prio: uint32, b: seq<byte>,
                                            from: nat, upto: nat, frameSize: int)
    requires from < upto <= |b| && frameSize > 0
    ensures var n := |PshRequests(ver, sid, prio, b, from, upto, frameSize)|;
            (n - 1) * frameSize < upto - from <= n * frameSize
    decreases upto - from
  {
    var sz := Min(upto - from, frameSize);
    if from + sz < upto {
      PshRequestsCount(ver, sid, prio, b, from + sz, upto, frameSize);
    }
  }

  // ---- the v2 send window (writeV2) ----

  /** `(int)(peerWindow - (numWritten - peerConsumed))` in `uint` arithmetic. */
  function SendWindow(numWritten: uint32, peerConsumed: uint32, peerWindow: uint32): (w: int)
    ensures -0x8000_0000 <= w < 0x8000_0000
    ensures numWritten == peerConsumed && peerWindow < 0x8000_0000 ==> w == peerWindow
  {
    ToInt32(Sub32(peerWindow, Sub32(numWritten, peerConsumed)))
  }

  /** When the written count is kept and the peer's numbers are consistent,
      the window is what the peer advertised minus the bytes in flight. */
  lemma WindowWhenCounted(numWritten: uint32, peerConsumed: uint32, peerWindow: uint32)
    requires peerConsumed <= numWritten
    requires numWritten - peerConsumed <= peerWindow < 0x8000_0000
    ensures SendWindow(numWritten, peerConsumed, peerWindow)
         == peerWindow - (numWritten - peerConsumed)
  {
  }

  /** With `numWritten` stuck at 0, as the stream leaves it, the window is the
      advertised window PLUS the consumed count, wrapped into an `int`. */
  lemma WindowAsWritten(peerConsumed: uint32, peerWindow: uint32)
    ensures SendWindow(0, peerConsumed, peerWindow) == ToInt32(Add32(peerWindow, peerConsumed))
    ensures 0 < peerConsumed && peerWindow + peerConsumed < 0x8000_0000 ==>
              SendWindow(0, peerConsumed, peerWindow) > peerWindow
  {
  }

  /** How many bytes one round of `writeV2` may send. */
  function RoundBudget(win: int, remaining: int): (n: nat)
    ensures n == 0 || (n <= win && n <= remaining)
    ensures win > 0 && remaining > 0 ==> n > 0 && (n == win || n == remaining)
  {
    if win > 0 && remaining > 0 then Min(win, remaining) else 0
  }

  /** The bytes sent by a v2 write whose successive rounds sent
      `rounds[0]`, `rounds[1]`, ... bytes. */
  function Sum(rounds: seq<nat>): nat {
    if rounds == [] then 0 else Sum(rounds[..|rounds| - 1]) + rounds[|rounds| - 1]
  }

  /** Each round sent the budget that the window left for it, given what the
      earlier rounds of the same `len`-byte write had sent. */
  ghost predicate Budgeted(win: int, len: int, rounds: seq<nat>) {
    rounds == [] ||
      var prev := rounds[..|rounds| - 1];
      Budgeted(win, len, prev) && rounds[|rounds| - 1] == RoundBudget(win, len - Sum(prev))
  }

  lemma BudgetedSnoc(win: int, len: int, rounds: seq<nat>, k: nat)
    ensures Budgeted(win, len, rounds + [k]) <==> Budgeted(win, len, rounds) && k == RoundBudget(win, len - Sum(rounds))
  {
    assert (rounds + [k])[..|rounds|] == rounds;
  }

  /** After `k` rounds a positive window `win` has let out `win` bytes per round
      until the whole write is out; a window of 0 or less lets nothing out. */
  lemma {:induction false} BudgetedSent(win: int, len: nat, rounds: seq<nat>)
    requires Budgeted(win, len, rounds)
    ensures Sum(rounds) == if win > 0 then Min(len, win * |rounds|) else 0
  {
    if rounds != [] {
      var prev := rounds[..|rounds| - 1];
      BudgetedSent(win, len, prev);
      if win > 0 {
        assert win * |rounds| == win * |prev| + win;
      }
    }
  }

  /** The PSH requests of such a write: each round is split into frames on its own. */
  function RoundRequests(ver: byte, sid: uint32, prio: uint32, b: seq<byte>,
                         rounds: seq<nat>, frameSize: int): seq<WriteRequest>
    requires Sum(rounds) <= |b| && frameSize > 0
  {
    if rounds == [] then []
    else
      var prev := rounds[..|rounds| - 1];
      RoundRequests(ver, sid, prio, b, prev, frameSize)
        + PshRequests(ver, sid, prio, b, Sum(prev), Sum(rounds), frameSize)
  }

  lemma RoundRequestsSnoc(ver: byte, sid: uint32, prio: uint32, b: seq<byte>,
                          rounds: seq<nat>, k: nat, frameSize: int)
    requires Sum(rounds) + k <= |b| && frameSize > 0
    ensures Sum(rounds + [k]) == Sum(rounds) + k
    ensures RoundRequests(ver, sid, prio, b, rounds + [k], frameSize)
         == RoundRequests(ver, sid, prio, b, rounds, frameSize)
            + PshRequests(ver, sid, prio, b, Sum(rounds), Sum(rounds) + k, frameSize)
  {
    assert (rounds + [k])[..|rounds|] == rounds;
  }
  /** One more round of a v2 write: the round sent its budget, and its PSH
      frames were posted after those of the earlier rounds. */
  lemma RoundStep(ver: byte, sid: uint32, prio: uint32, b: seq<byte>, rounds: seq<nat>, k: nat,
                  frameSize: int, win: int, posted0: seq<WriteRequest>, posted1: seq<WriteRequest>,
                  posted2: seq<WriteRequest>)
    requires Sum(rounds) + k <= |b| && frameSize > 0
    requires Budgeted(win, |b|, rounds) && k == RoundBudget(win, |b| - Sum(rounds))
    requires posted1 == posted0 + RoundRequests(ver, sid, prio, b, rounds, frameSize)
    requires posted2 == posted1 + PshRequests(ver, sid, prio, b, Sum(rounds), Sum(rounds) + k, frameSize)
    ensures Sum(rounds + [k]) == Sum(rounds) + k
    ensures Budgeted(win, |b|, rounds + [k])
    ensures posted2 == posted0 + RoundRequests(ver, sid, prio, b, rounds + [k], frameSize)
  {
    RoundRequestsSnoc(ver, sid, prio, b, rounds, k, frameSize);
    BudgetedSnoc(win, |b|, rounds, k);
    Assoc(posted0, RoundRequests(ver, sid, prio, b, rounds, frameSize),
          PshRequests(ver, sid, prio, b, Sum(rounds), Sum(rounds) + k, frameSize));
  }


  /** The frames of all rounds carry exactly the sent prefix of the buffer, in order. */
  lemma {:induction false} RoundRequestsCover(ver: byte, sid: uint32, prio: uint32, b: seq<byte>,
                                              rounds: seq<nat>, frameSize: int)
    requires Sum(rounds) <= |b| && frameSize > 0
    ensures Payloads(RoundRequests(ver, sid, prio, b, rounds, frameSize)) == b[..Sum(rounds)]
  {
    if rounds != [] {
      var prev := rounds[..|rounds| - 1];
      var lo, hi := Sum(prev), Sum(rounds);
      var front := RoundRequests(ver, sid, prio, b, prev, frameSize);
      var last := PshRequests(ver, sid, prio, b, lo, hi, frameSize);
      assert RoundRequests(ver, sid, prio, b, rounds, frameSize) == front + last;
      RoundRequestsCover(ver, sid, prio, b, prev, frameSize);
      PshRequestsCover(ver, sid, prio, b, lo, hi, frameSize);
      PayloadsAppend(front, last);
      assert b[..hi] == b[..lo] + b[lo..hi];
    }
  }

  /** Every frame of every round is a PSH of this stream with priority `prio`
      and a non-empty payload of at most `frameSize` bytes. */
  lemma {:induction false} RoundRequestsShape(ver: byte, sid: uint32, prio: uint32, b: seq<byte>,
                                              rounds: seq<nat>, frameSize: int, i: nat)
    requires Sum(rounds) <= |b| && frameSize > 0
    requires i < |RoundRequests(ver, sid, prio, b, rounds, frameSize)|
    ensures var r := RoundRequests(ver, sid, prio, b, rounds, frameSize)[i];
              && r.prio == prio && r.frame.ver == ver && r.frame.cmd == CmdPSH && r.frame.sid == sid
              && r.frame.data.Some? && 0 < PayloadLength(r.frame) <= frameSize
  {
    var prev := rounds[..|rounds| - 1];
    var front := RoundRequests(ver, sid, prio, b, prev, frameSize);
    if i < |front| {
      RoundRequestsShape(ver, sid, prio, b, prev, frameSize, i);
    } else {
      PshRequestsShape(ver, sid, prio, b, Sum(prev), Sum(rounds), frameSize, i - |front|);
    }
  }
}
