/** The stream-ID decision inside `OpenStreamAsync`: the counter is advanced
    by two before use, so its parity, fixed by the role, never changes until the
    32-bit counter wraps into 0 or 1, which sets the permanent go-away flag. */
module StreamIds {
  import opened Base

  /** `nextStreamID` together with whether `goAway > 0`. */
  datatype Allocator = Allocator(next: uint32, goAway: bool)

  /** A client session starts its counter at 1, a server session at 0. */
  function Initial(client: bool): (a: Allocator)
    ensures !a.goAway && a.next < 2
    ensures a.next % 2 == if client then 1 else 0
  {
    Allocator(if client then 1 else 0, false)
  }

  /** Number of opens that succeed from either initial state. */
  const MaxOpens: nat := 0x7FFF_FFFF

  /** One allocation: the new allocator state and the ID, or None for ErrGoAway. */
  function Open(a: Allocator): (r: (Allocator, Option<uint32>))
    ensures a.goAway ==> r == (a, None)
    ensures r.1.None? ==> r.0.goAway
    ensures r.1.Some? ==> r.1.value > a.next && r.1.value % 2 == a.next % 2 && r.0 == Allocator(r.1.value, false)
  {
    if a.goAway then (a, None)
    else
      var sid := Add32(a.next, 2);
      if sid == sid % 2 then (Allocator(sid, true), None)
      else (Allocator(sid, false), Some(sid))
  }

  /** The allocator after `k` consecutive opens. */
  function AfterOpens(a: Allocator, k: nat): Allocator {
    if k == 0 then a else Open(AfterOpens(a, k - 1)).0
  }

  /** An open succeeds exactly when go-away is clear and adding 2 does not wrap;
      the new ID is the old counter plus 2, of the same parity, and it is stored. */
  lemma OpenSucceedsIffNoWrap(a: Allocator)
    ensures Open(a).1.Some? <==> !a.goAway && a.next + 2 < TwoTo32
    ensures Open(a).1.Some? ==>
      && Open(a).1.value == a.next + 2
      && Open(a).1.value % 2 == a.next % 2
      && Open(a).0 == Allocator(a.next + 2, false)
  {
  }

  /** A failed open on a clear allocator is the wrap into 0 or 1, and it sets go-away. */
  lemma WrapSetsGoAway(a: Allocator)
    requires !a.goAway && a.next + 2 >= TwoTo32
    ensures Open(a).1 == None
    ensures Open(a).0 == Allocator(a.next + 2 - TwoTo32, true)
    ensures Open(a).0.next == a.next % 2
  {
  }

  /** Once go-away is set, every later open fails and the counter never moves. */
  lemma {:induction false} GoAwayIsPermanent(a: Allocator, k: nat)
    requires a.goAway
    ensures AfterOpens(a, k) == a
    ensures Open(AfterOpens(a, k)) == (a, None)
  {
    if k > 0 {
      GoAwayIsPermanent(a, k - 1);
    }
  }

  /** After `k` successful opens the counter sits at `start + 2k`. */
  lemma {:induction false} CounterAfterOpens(client: bool, k: nat)
    requires k <= MaxOpens
    ensures AfterOpens(Initial(client), k) == Allocator(Initial(client).next + 2 * k, false)
  {
    if k > 0 {
      CounterAfterOpens(client, k - 1);
    }
  }

  /** The `k`-th open (counting from 1) returns `start + 2k`: 3, 5, 7, ... for a
      client, 2, 4, 6, ... for a server. */
  lemma OpenedId(client: bool, k: nat)
    requires 1 <= k <= MaxOpens
    ensures Open(AfterOpens(Initial(client), k - 1)).1 == Some(Initial(client).next + 2 * k)
    ensures (Initial(client).next + 2 * k) % 2 == (if client then 1 else 0)
  {
    CounterAfterOpens(client, k - 1);
  }

  /** The open after the last successful one fails with go-away, and so does every later one. */
  lemma ExhaustedAfterMaxOpens(client: bool, k: nat)
    ensures AfterOpens(Initial(client), MaxOpens + 1 + k) == Allocator(Initial(client).next, true)
    ensures Open(AfterOpens(Initial(client), MaxOpens + k)).1 == None
  {
    CounterAfterOpens(client, MaxOpens);
    var last := AfterOpens(Initial(client), MaxOpens);
    assert last.next + 2 == Initial(client).next + TwoTo32;
    WrapSetsGoAway(last);
    var exhausted := Allocator(Initial(client).next, true);
    assert AfterOpens(Initial(client), MaxOpens + 1) == Open(last).0 == exhausted;
    AfterOpensAdds(Initial(client), MaxOpens + 1, k);
    GoAwayIsPermanent(exhausted, k);
    if k > 0 {
      AfterOpensAdds(Initial(client), MaxOpens + 1, k - 1);
      GoAwayIsPermanent(exhausted, k - 1);
      assert MaxOpens + k == MaxOpens + 1 + (k - 1);
    }
  }

  lemma {:induction false} AfterOpensAdds(a: Allocator, m: nat, k: nat)
    ensures AfterOpens(a, m + k) == AfterOpens(AfterOpens(a, m), k)
  {
    if k > 0 {
      AfterOpensAdds(a, m, k - 1);
      assert m + k - 1 == m + (k - 1);
    }
  }
}
