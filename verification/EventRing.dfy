/**
  The agent's ring of recent user events. The ring is described by the whole history
  of events it ever stored; what it holds is the end of that history.
 */
module EventRing {
  import opened Basics

  datatype UserEvent = UserEvent(id: string, name: string, payload: seq<int>)

  /** Events with this name start a remote command and never enter the ring. */
  const REMOTE_EXEC_NAME := "_rexec"

  function Somes<T>(s: seq<T>): (r: seq<Option<T>>)
    ensures |r| == |s|
  {
    seq(|s|, i requires 0 <= i < |s| => Some(s[i]))
  }

  /** The last `n` elements, or all of them when there are fewer. */
  function Last<T>(s: seq<T>, n: nat): seq<T> {
    if |s| <= n then s else s[|s| - n..]
  }

  /** Go's remainder, which takes the sign of the dividend. */
  function GoRem(a: int, n: int): int
    requires n > 0
  {
    if a >= 0 then a % n else -((-a) % n)
  }

  /** Adding `n` before the second remainder steps back cyclically, from 0 to the end. */
  lemma LastIndex(idx: int, n: int)
    requires 0 <= idx < n
    ensures GoRem(GoRem(idx - 1, n) + n, n) == if idx == 0 then n - 1 else idx - 1
  {
    if idx == 0 {
      assert n == 1 || 1 % n == 1;
    } else {
      assert (idx - 1) % n == idx - 1;
      assert (idx - 1 + n) % n == idx - 1;
    }
  }

  lemma LastSnoc<T>(s: seq<T>, x: T, n: nat)
    requires |s| >= n > 0
    ensures Last(s + [x], n) == Last(s, n)[1..] + [x]
  {
  }

  /** The slots in the order in which they were written, once all have been. */
  function Rotated<T>(buf: seq<T>, idx: int): seq<T>
    requires 0 <= idx <= |buf|
  {
    buf[idx..] + buf[..idx]
  }

  /** Where the write position moves. */
  lemma NextIndex(idx: int, n: int)
    requires 0 <= idx < n
    ensures (idx + 1) % n == if idx + 1 == n then 0 else idx + 1
  {
  }

  /** Writing at the position and moving it on drops the oldest slot and appends. */
  lemma RotatedStore<T>(buf: seq<T>, idx: int, x: T)
    requires 0 <= idx < |buf|
    ensures Rotated(buf[idx := x], if idx + 1 == |buf| then 0 else idx + 1) == Rotated(buf, idx)[1..] + [x]
  {
  }

  /**
    The ring `buf` with write position `idx` holds the end of `history`: it fills from
    the left, and once full it starts at `idx` and wraps around.
   */
  ghost predicate Holds(buf: seq<Option<UserEvent>>, idx: int, history: seq<UserEvent>) {
    && 0 <= idx < |buf|
    && if |history| < |buf| then
         && idx == |history|
         && buf[..idx] == Somes(history)
         && forall k :: idx <= k < |buf| ==> buf[k] == None
       else
         Rotated(buf, idx) == Somes(Last(history, |buf|))
  }

  /** The slot at the write position tells whether the ring has wrapped. */
  lemma OccupiedIffFull(buf: seq<Option<UserEvent>>, idx: int, history: seq<UserEvent>)
    requires Holds(buf, idx, history)
    ensures buf[idx] != None <==> |history| >= |buf|
  {
    if |history| >= |buf| {
      assert Rotated(buf, idx)[0] == Somes(Last(history, |buf|))[0];
    }
  }

  lemma StoreWhileFilling(buf: seq<Option<UserEvent>>, idx: int, history: seq<UserEvent>, e: UserEvent)
    requires Holds(buf, idx, history) && |history| < |buf|
    ensures Holds(buf[idx := Some(e)], if idx + 1 == |buf| then 0 else idx + 1, history + [e])
  {
  }

  lemma StoreWhenFull(buf: seq<Option<UserEvent>>, idx: int, history: seq<UserEvent>, e: UserEvent)
    requires Holds(buf, idx, history) && |history| >= |buf|
    ensures Holds(buf[idx := Some(e)], if idx + 1 == |buf| then 0 else idx + 1, history + [e])
  {
    RotatedStore(buf, idx, Some(e));
    LastSnoc(history, e, |buf|);
    var held := Last(history, |buf|);
    assert Somes(held[1..] + [e]) == Somes(held)[1..] + [Some(e)];
  }

  /** Writing at the position and moving it on appends to the history. */
  lemma StoreAppends(buf: seq<Option<UserEvent>>, idx: int, history: seq<UserEvent>, e: UserEvent)
    requires Holds(buf, idx, history)
    ensures Holds(buf[idx := Some(e)], (idx + 1) % |buf|, history + [e])
  {
    NextIndex(idx, |buf|);
    if |history| < |buf| {
      StoreWhileFilling(buf, idx, history, e);
    } else {
      StoreWhenFull(buf, idx, history, e);
    }
  }

  /** The newest event sits just before the write position, cyclically. */
  lemma NewestSlot(buf: seq<Option<UserEvent>>, idx: int, history: seq<UserEvent>)
    requires Holds(buf, idx, history)
    ensures buf[if idx == 0 then |buf| - 1 else idx - 1]
         == if history == [] then None else Some(history[|history| - 1])
  {
    var n := |buf|;
    if |history| < n {
      if history != [] {
        assert buf[..idx][idx - 1] == Somes(history)[idx - 1];
      }
    } else {
      assert Rotated(buf, idx)[n - 1] == Somes(Last(history, n))[n - 1];
    }
  }

  class Ring {
    var eventBuf: array<Option<UserEvent>>
    var eventIndex: int

    /** Every event stored since the start, oldest first. */
    ghost var history: seq<UserEvent>

    ghost predicate Valid()
      reads this, eventBuf
    {
      Holds(eventBuf[..], eventIndex, history)
    }

    constructor (capacity: nat)
      requires capacity > 0
      ensures Valid() && history == [] && eventBuf.Length == capacity && fresh(eventBuf)
    {
      eventBuf := new Option<UserEvent>[capacity](_ => None);
      eventIndex, history := 0, [];
    }

    /** Stores an event; a remote-exec event is left to its own handler. */
    method Ingest(msg: UserEvent)
      requires Valid()
      modifies this`eventIndex, this`history, eventBuf
      ensures Valid()
      ensures history == if msg.name == REMOTE_EXEC_NAME then old(history) else old(history) + [msg]
    {
      if msg.name == REMOTE_EXEC_NAME {
        return;
      }
      StoreAppends(eventBuf[..], eventIndex, history, msg);
      var idx := eventIndex;
      eventBuf[idx] := Some(msg);
      eventIndex := (idx + 1) % eventBuf.Length;
      history := history + [msg];
      assert eventBuf[..] == old(eventBuf[..])[idx := Some(msg)];
    }

    /** The events the ring holds: the end of the history, oldest first. */
    method UserEvents() returns (out: seq<Option<UserEvent>>)
      requires Valid()
      ensures out == Somes(Last(history, eventBuf.Length))
    {
      OccupiedIffFull(eventBuf[..], eventIndex, history);
      if eventBuf[eventIndex] != None {
        if eventIndex == 0 {
          out := eventBuf[..];
          assert out == Rotated(eventBuf[..], 0);
        } else {
          out := eventBuf[eventIndex..] + eventBuf[..eventIndex];
          assert out == Rotated(eventBuf[..], eventIndex);
        }
      } else {
        out := eventBuf[..eventIndex];
        assert out == eventBuf[..][..eventIndex];
      }
    }

    /** The newest event, if any was stored. */
    method LastUserEvent() returns (r: Option<UserEvent>)
      requires Valid()
      ensures r == if history == [] then None else Some(history[|history| - 1])
    {
      NewestSlot(eventBuf[..], eventIndex, history);
      var n := eventBuf.Length;
      var idx := GoRem(GoRem(eventIndex - 1, n) + n, n);
      assert idx == if eventIndex == 0 then n - 1 else eventIndex - 1 by {
        LastIndex(eventIndex, n);
      }
      r := eventBuf[idx];
    }
  }
}
