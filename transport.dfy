/** The duplex byte transport a session runs over (a `NetworkStream` in the
    source), reduced to what the core relies on: ordered reads that deliver
    some of the bytes the peer sent, ordered writes, and closing. */
module Net {
  import opened Base

  class Transport {
    /** Bytes the peer has sent that have not been read yet. */
    var incoming: seq<byte>
    /** Every byte written so far, in order. */
    var outgoing: seq<byte>
    /** `Socket.Close` has been called. */
    var closed: bool

    constructor (incoming: seq<byte>)
      ensures this.incoming == incoming && outgoing == [] && !closed
    {
      this.incoming := incoming;
      outgoing := [];
      closed := false;
    }

    /** What reads can still deliver: nothing once the socket is closed. */
    ghost function Available(): seq<byte>
      reads this
    {
      if closed then [] else incoming
    }

    /** `ReadAsync(buf, offset, count)`: delivers a non-empty prefix of the
        available bytes, at most `count` of them, or 0 when there is nothing
        left to deliver. How many bytes one call delivers is not determined. */
    method Read(buf: array<byte>, offset: nat, count: nat) returns (n: int)
      requires offset + count <= buf.Length
      modifies this`incoming, buf
      ensures 0 <= n <= count && n <= |old(Available())|
      ensures n == 0 <==> old(Available()) == [] || count == 0
      ensures buf[offset..offset + n] == old(Available())[..n]
      ensures Available() == old(Available())[n..]
      ensures forall i :: 0 <= i < buf.Length && !(offset <= i < offset + n) ==> buf[i] == old(buf[i])
    {
      if closed || incoming == [] || count == 0 {
        return 0;
      }
      n :| 1 <= n && n <= count && n <= |incoming|;
      forall i | 0 <= i < n {
        buf[offset + i] := incoming[i];
      }
      incoming := incoming[n..];
    }

    /** `WriteAsync` of a whole buffer; fails once the socket is closed. */
    method Write(bytes: seq<byte>) returns (ok: bool)
      modifies this`outgoing
      ensures ok == !closed
      ensures outgoing == if ok then old(outgoing) + bytes else old(outgoing)
    {
      ok := !closed;
      if ok {
        outgoing := outgoing + bytes;
      }
    }

    method Close()
      modifies this`closed
      ensures closed
    {
      closed := true;
    }
  }
}
