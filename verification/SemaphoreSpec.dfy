/**
  The contender semaphore: what one handle decides from one listing of the
  semaphore's prefix. The lock entry sits under `LockKey`; every contender owns an
  entry under `ContenderKey(session)` that the server ties to its session.
 */
module SemaphoreSpec {
  import opened KvStore

  /** Magic flag that marks a key as used by a semaphore. */
  const SEMAPHORE_FLAG: nat := 0xe0f69a2baa414de0

  datatype Key = LockKey | ContenderKey(session: string)

  /** The values stored under the prefix; `NoValue` is a missing value. */
  datatype Value = NoValue | LockValue(limit: int, holders: set<string>) | ContenderValue(payload: string)

  type Pairs = map<Key, Entry<Value>>
  type SemStore = Store<Key, Value>

  /** What an attempt to take a slot does next. */
  datatype Attempt =
    | Conflict
    | Undecodable
    | LimitConflict
    | Wait
    | Swap(lock: Value, cidx: nat)

  /** What an attempt to destroy the semaphore does next. */
  datatype Removal = NothingThere | FlagConflict | BadLock | InUse | Remove(cidx: nat)

  /** The lock entry of a listing, or an empty one at index 0. */
  function LockOf(kvs: Pairs): Entry<Value> {
    if LockKey in kvs then kvs[LockKey] else Entry(NoValue, SEMAPHORE_FLAG, "", 0, 0, 0)
  }

  function Decoded(limit: int, v: Value): (r: Value)
    ensures v == NoValue ==> r == LockValue(limit, {})
  {
    if v == NoValue then LockValue(limit, {}) else v
  }

  /** The sessions that hold some key of the listing. */
  function Alive(kvs: Pairs): set<string> {
    set k | k in kvs && kvs[k].session != "" :: kvs[k].session
  }

  function Pruned(holders: set<string>, kvs: Pairs): set<string> {
    holders * Alive(kvs)
  }

  function TryAcquire(limit: int, kvs: Pairs, session: string): Attempt {
    var pair := LockOf(kvs);
    var lock := Decoded(limit, pair.value);
    if pair.flags != SEMAPHORE_FLAG then Conflict
    else if !lock.LockValue? then Undecodable
    else if lock.limit != limit then LimitConflict
    else
      var holders := Pruned(lock.holders, kvs);
      if |holders| >= lock.limit then Wait
      else Swap(LockValue(lock.limit, holders + {session}), pair.modifyIndex)
  }

  function TryDestroy(limit: int, kvs: Pairs): Removal {
    var pair := LockOf(kvs);
    var lock := Decoded(limit, pair.value);
    if pair.modifyIndex == 0 then NothingThere
    else if pair.flags != SEMAPHORE_FLAG then FlagConflict
    else if !lock.LockValue? then BadLock
    else if |Pruned(lock.holders, kvs)| > 0 then InUse
    else Remove(pair.modifyIndex)
  }

  /** Whether the ownership monitor of `session` keeps watching after this listing. */
  predicate MonitorKeepsSlot(limit: int, kvs: Pairs, session: string) {
    var lock := Decoded(limit, LockOf(kvs).value);
    lock.LockValue? && session in Pruned(lock.holders, kvs)
  }

  /**
    A listing without the lock entry reads as an empty lock at index 0. The write it leads
    to makes its session the first holder, and only if there is still no entry: of several
    handles that saw none, one creates it.
   */
  lemma MissingLockIsCreated(limit: nat, kvs: Pairs, x: string, s: SemStore, idx: nat)
    requires limit > 0 && LockKey !in kvs
    ensures var a := TryAcquire(limit, kvs, x);
            && a.Swap?
            && var (s', reply) := Apply(s, idx, Cas(LockKey, a.lock, SEMAPHORE_FLAG, a.cidx));
               && reply == Answer(LockKey !in s.kvs)
               && (if reply.ok
                   then LockKey in s'.kvs && s'.kvs[LockKey].value == LockValue(limit, {x})
                        && s'.kvs[LockKey].modifyIndex == idx && s'.kvs - {LockKey} == s.kvs
                   else s'.kvs == s.kvs)
  {
    assert Pruned({}, kvs) == {};
    assert {} + {x} == {x};
  }

  // ---- the same decisions, computed over the list of pairs the server returns ----

  datatype Pair = Pair(key: Key, entry: Entry<Value>)

  ghost predicate Lists(pairs: seq<Pair>, kvs: Pairs) {
    && (forall i :: 0 <= i < |pairs| ==> pairs[i].key in kvs && kvs[pairs[i].key] == pairs[i].entry)
    && (forall k :: k in kvs ==> Pair(k, kvs[k]) in pairs)
  }

  method FindLock(pairs: seq<Pair>, ghost kvs: Pairs) returns (pair: Entry<Value>)
    requires Lists(pairs, kvs)
    ensures pair == LockOf(kvs)
  {
    for i := 0 to |pairs|
      invariant forall j :: 0 <= j < i ==> pairs[j].key != LockKey
    {
      if pairs[i].key == LockKey {
        return pairs[i].entry;
      }
    }
    pair := Entry(NoValue, SEMAPHORE_FLAG, "", 0, 0, 0);
  }

  /** The pruning loop: gather the sessions seen, then delete every holder not among them. */
  method PruneDeadHolders(holders: set<string>, pairs: seq<Pair>, ghost kvs: Pairs) returns (rest: set<string>)
    requires Lists(pairs, kvs)
    ensures rest == Pruned(holders, kvs)
  {
    var alive := {};
    for i := 0 to |pairs|
      invariant forall x :: x in alive <==> x != "" && exists j :: 0 <= j < i && pairs[j].entry.session == x
    {
      if pairs[i].entry.session != "" {
        alive := alive + {pairs[i].entry.session};
      }
    }
    assert alive == Alive(kvs) by {
      forall x | x in Alive(kvs) ensures x in alive {
        var k :| k in kvs && kvs[k].session == x && x != "";
        assert Pair(k, kvs[k]) in pairs;
      }
    }
    rest := holders;
    var todo := holders;
    while todo != {}
      invariant todo <= holders
      invariant rest == (holders - todo) * alive + todo
      decreases todo
    {
      var holder :| holder in todo;
      if holder !in alive {
        rest := rest - {holder};
      }
      todo := todo - {holder};
    }
  }

  /** One pass of the acquire loop, from the listing to the decision. */
  method AttemptOnce(limit: int, pairs: seq<Pair>, session: string, ghost kvs: Pairs) returns (a: Attempt)
    requires Lists(pairs, kvs)
    ensures a == TryAcquire(limit, kvs, session)
  {
    var pair := FindLock(pairs, kvs);
    if pair.flags != SEMAPHORE_FLAG {
      return Conflict;
    }
    var lock := Decoded(limit, pair.value);
    if !lock.LockValue? {
      return Undecodable;
    }
    if lock.limit != limit {
      return LimitConflict;
    }
    var holders := PruneDeadHolders(lock.holders, pairs, kvs);
    if |holders| >= lock.limit {
      return Wait;
    }
    a := Swap(LockValue(lock.limit, holders + {session}), pair.modifyIndex);
  }
}
