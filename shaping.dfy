/** Write requests and the order the shaper forwards them in. */
module Shaping {
  import opened Base
  import opened Wire

  /** A `writeRequest` waiting for the writer: its priority and its frame.
      The semaphore and the posted result belong to the waiting task. */
  datatype WriteRequest = WriteRequest(prio: uint32, frame: Frame)

  /** `UInt32.CompareTo`: the sign of `a - b`. */
  function CompareUInt(a: uint32, b: uint32): int {
    if a < b then -1 else if a == b then 0 else 1
  }

  /** `writeRequest.CompareTo`: by priority, and every request is greater than null. */
  function CompareTo(self: WriteRequest, obj: Option<WriteRequest>): (c: int)
    ensures obj.None? ==> c == 1
    ensures obj.Some? ==> (c < 0 <==> self.prio < obj.value.prio)
    ensures obj.Some? ==> (c == 0 <==> self.prio == obj.value.prio)
    ensures obj.Some? ==> (c > 0 <==> self.prio > obj.value.prio)
  {
    if obj.None? then 1 else CompareUInt(self.prio, obj.value.prio)
  }

  /** CompareTo is antisymmetric and transitive on requests, so sorting by it is sound. */
  lemma CompareToIsTotalPreorder(x: WriteRequest, y: WriteRequest, z: WriteRequest)
    ensures CompareTo(x, Some(y)) == -CompareTo(y, Some(x))
    ensures CompareTo(x, Some(y)) <= 0 && CompareTo(y, Some(z)) <= 0 ==> CompareTo(x, Some(z)) <= 0
    ensures CompareTo(x, Some(y)) <= 0 || CompareTo(y, Some(x)) <= 0
  {
  }

  ghost predicate Ascending(rs: seq<WriteRequest>) {
    forall i, j :: 0 <= i < j < |rs| ==> rs[i].prio <= rs[j].prio
  }

  /** Places `x` before the first request it does not compare greater than. */
  function Insert(x: WriteRequest, rs: seq<WriteRequest>): (r: seq<WriteRequest>)
    requires Ascending(rs)
    ensures Ascending(r)
    ensures multiset(r) == multiset(rs) + multiset{x}
    ensures |r| == |rs| + 1 && (r[0] == x || (rs != [] && r[0] == rs[0]))
  {
    if rs == [] then [x]
    else if CompareTo(x, Some(rs[0])) <= 0 then
      assert forall j | 0 <= j < |rs| :: x.prio <= rs[j].prio;
      [x] + rs
    else
      assert rs == [rs[0]] + rs[1..];
      var tail := Insert(x, rs[1..]);
      LowerBound(rs[0], x, rs[1..], tail);
      assert multiset([rs[0]] + tail) == multiset{rs[0]} + multiset(tail);
      [rs[0]] + tail
  }

  /** A head no greater than every element of an ascending tail keeps it ascending. */
  lemma LowerBound(h: WriteRequest, x: WriteRequest, rs: seq<WriteRequest>, tail: seq<WriteRequest>)
    requires Ascending([h] + rs) && h.prio <= x.prio
    requires Ascending(tail) && multiset(tail) == multiset(rs) + multiset{x}
    ensures Ascending([h] + tail)
  {
    forall j | 0 <= j < |tail|
      ensures h.prio <= tail[j].prio
    {
      assert tail[j] in multiset(tail);
      if tail[j] != x {
        assert tail[j] in multiset(rs);
        var k :| 0 <= k < |rs| && rs[k] == tail[j];
        assert ([h] + rs)[0] == h && ([h] + rs)[k + 1] == rs[k];
      }
    }
    forall i, j | 0 <= i < j < |[h] + tail|
      ensures ([h] + tail)[i].prio <= ([h] + tail)[j].prio
    {
      if i > 0 {
        assert ([h] + tail)[i] == tail[i - 1];
      }
      assert ([h] + tail)[j] == tail[j - 1];
    }
  }

  /** The ordering `List.Sort` gives the shaper: requests in ascending
      priority, with the same requests. `List.Sort` is not stable, so nothing
      is promised about the order of equal priorities. */
  function SortByPrio(rs: seq<WriteRequest>): (r: seq<WriteRequest>)
    ensures Ascending(r)
    ensures multiset(r) == multiset(rs)
  {
    if rs == [] then []
    else
      assert rs == [rs[0]] + rs[1..];
      Insert(rs[0], SortByPrio(rs[1..]))
  }
}
