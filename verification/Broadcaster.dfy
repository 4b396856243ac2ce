/**
 The change broadcaster as an object: a serial number and the channels of the
 calls that wait for it to grow.

 A channel is unbuffered, so a non-blocking send succeeds exactly when a
 goroutine is blocked in the receive.
 */
module Broadcaster {
  import opened Options
  import opened Collections

  /** The serial is a uint64 and wraps. */
  const LIMIT: nat := 0x1_0000_0000_0000_0000

  type Serial = n: nat | n < LIMIT

  datatype Change = Numbered(serial: Serial)

  /** The change that is the `n`th of its broadcaster. */
  function Nth(n: nat): Change {
    Numbered(n % LIMIT)
  }

  /** The test by which a wait returns at once. */
  predicate Newer(serial: Serial, since: Change) {
    serial > since.serial
  }

  /**
   Serials tell the later of two changes exactly when the counter did not
   overflow between them.
   */
  lemma NewerIff(n: nat, k: nat)
    requires n <= k < n + LIMIT
    ensures Newer(Nth(k).serial, Nth(n)) <==> n < k && n / LIMIT == k / LIMIT
  {
    var q, p := n / LIMIT, k / LIMIT;
    assert n == q * LIMIT + n % LIMIT && k == p * LIMIT + k % LIMIT;
    assert q <= p <= q + 1;
  }

  /** The first 2^64 changes compare as they were made; the next one starts again at zero. */
  lemma SerialsBelowLimit(n: nat, k: nat)
    requires n < k < 0x1_0000_0000_0000_0000
    ensures Newer(Nth(k).serial, Nth(n)) && !Newer(Nth(n).serial, Nth(k))
    ensures Nth(0x1_0000_0000_0000_0000).serial == 0 && !Newer(Nth(0x1_0000_0000_0000_0000).serial, Nth(n))
  {
    NewerIff(n, k);
  }

  predicate Distinct<T(==)>(s: seq<T>) {
    forall i, j :: 0 <= i < j < |s| ==> s[i] != s[j]
  }

  /** Swap removal: the last element takes the place of the first `x`. */
  function Removed<T(==)>(s: seq<T>, x: T): seq<T> {
    RemovedFrom(s, x, 0)
  }

  function RemovedFrom<T(==)>(s: seq<T>, x: T, i: nat): seq<T>
    requires i <= |s|
    decreases |s| - i
  {
    if i == |s| then s
    else if s[i] == x then s[i := s[|s| - 1]][..|s| - 1]
    else RemovedFrom(s, x, i + 1)
  }

  lemma SwapExact<T>(s: seq<T>, i: nat)
    requires i < |s|
    ensures var n := |s| - 1; multiset(s[i := s[n]][..n]) == multiset(s) - multiset{s[i]}
  {
    var n := |s| - 1;
    var front, t := s[..n], s[i := s[n]];
    BagOfFront(s);
    if i == n {
      assert t[..n] == front;
    } else {
      assert t[..n] == front[i := s[n]];
      BagOfUpdate(front, i, s[n]);
      BagSwap(multiset(front), s[i], s[n]);
    }
  }

  /** Swap removal takes away one `x` and nothing else, and creates no duplicate. */
  lemma {:induction false} RemovedFromExact<T>(s: seq<T>, x: T, i: nat)
    requires i <= |s| && x !in s[..i]
    ensures multiset(RemovedFrom(s, x, i)) == multiset(s) - multiset{x}
    ensures Distinct(s) ==> Distinct(RemovedFrom(s, x, i))
    decreases |s| - i
  {
    if i == |s| {
      assert s[..i] == s;
    } else if s[i] == x {
      SwapExact(s, i);
    } else {
      assert s[..i + 1] == s[..i] + [s[i]];
      RemovedFromExact(s, x, i + 1);
    }
  }

  lemma DistinctOnce<T>(s: seq<T>, x: T)
    requires Distinct(s)
    ensures multiset(s)[x] <= 1
  {
    if s == [] {
    } else {
      var n := |s| - 1;
      assert s == s[..n] + [s[n]];
      DistinctOnce(s[..n], x);
    }
  }

  lemma RemovedExact<T>(s: seq<T>, x: T)
    ensures multiset(Removed(s, x)) == multiset(s) - multiset{x}
    ensures Distinct(s) ==> Distinct(Removed(s, x))
    ensures Distinct(s) ==> forall y :: y in Removed(s, x) <==> y in s && y != x
  {
    RemovedFromExact(s, x, 0);
    if Distinct(s) {
      forall y ensures y in Removed(s, x) <==> y in s && y != x {
        DistinctOnce(s, y);
        assert y in Removed(s, x) <==> multiset(Removed(s, x))[y] > 0;
      }
    }
  }

  /** `receiving`: a goroutine is blocked in the receive. */
  class Channel {
    var receiving: bool
    var delivered: Option<Change>

    constructor ()
      ensures !receiving && delivered == None
    {
      receiving, delivered := false, None;
    }

    /** The non-blocking send. */
    method Offer(change: Change)
      modifies this
      ensures !receiving
      ensures delivered == if old(receiving) then Some(change) else old(delivered)
    {
      if receiving {
        receiving, delivered := false, Some(change);
      }
    }
  }

  class ChangeBroadcaster {
    var serial: Serial
    var waiters: seq<Channel>

    constructor ()
      ensures serial == 0 && waiters == []
    {
      serial, waiters := 0, [];
    }

    /**
     Serves every waiter that is blocked in its receive, and no other, as long
     as no waiter enters or leaves its receive during the call.  The transition
     system lets them do so between any two offers.
     */
    method Change() returns (change: Change)
      modifies this`serial, waiters
      ensures serial == (old(serial) + 1) % LIMIT && change == Numbered(serial)
      ensures forall ch :: ch in waiters ==> !ch.receiving
      ensures forall ch :: ch in waiters ==>
                ch.delivered == if old(ch.receiving) then Some(change) else old(ch.delivered)
    {
      serial := (serial + 1) % LIMIT;
      change := Numbered(serial);
      for i := 0 to |waiters|
        modifies waiters
        invariant forall ch :: ch in waiters ==>
                    if ch in waiters[..i] then
                      && !ch.receiving
                      && ch.delivered == if old(ch.receiving) then Some(change) else old(ch.delivered)
                    else
                      ch.receiving == old(ch.receiving) && ch.delivered == old(ch.delivered)
      {
        assert waiters[..i + 1] == waiters[..i] + [waiters[i]];
        waiters[i].Offer(change);
      }
      assert waiters[..|waiters|] == waiters;
    }

    method LastChange() returns (change: Change)
      ensures change.serial == serial
    {
      change := Numbered(serial);
    }

    method AddWaiter(ch: Channel)
      modifies this`waiters
      ensures waiters == old(waiters) + [ch]
    {
      waiters := waiters + [ch];
    }

    /** Exactly one occurrence of `ch` goes, and a list without duplicates stays one. */
    method RemoveWaiter(ch: Channel)
      modifies this`waiters
      ensures waiters == Removed(old(waiters), ch)
      ensures multiset(waiters) == multiset(old(waiters)) - multiset{ch}
      ensures Distinct(old(waiters)) ==> Distinct(waiters)
    {
      RemovedExact(waiters, ch);
      for i := 0 to |waiters|
        invariant waiters == old(waiters)
        invariant RemovedFrom(waiters, ch, i) == Removed(old(waiters), ch)
      {
        if waiters[i] == ch {
          waiters := waiters[i := waiters[|waiters| - 1]];
          waiters := waiters[..|waiters| - 1];
          break;
        }
      }
    }

    /**
     `WaitTimeout` up to its wait: an answer at once, or a new channel on the
     list.  `timeout` is none for `Wait`.
     */
    method BeginWait(since: Change, timeout: Option<int>) returns (answer: Option<Change>, ch: Option<Channel>)
      modifies this`waiters
      ensures answer == if Newer(serial, since) then Some(Numbered(serial)) else None
      ensures ch.Some? <==> !Newer(serial, since) && (timeout.None? || timeout.value > 0)
      ensures ch.None? ==> waiters == old(waiters)
      ensures ch.Some? ==> fresh(ch.value) && !ch.value.receiving && waiters == old(waiters) + [ch.value]
    {
      answer, ch := None, None;
      if serial > since.serial {
        answer := Some(Numbered(serial));
      } else if timeout.None? || timeout.value > 0 {
        var made := new Channel();
        AddWaiter(made);
        ch := Some(made);
      }
    }
  }
}
