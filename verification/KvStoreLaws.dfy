/**
  What commands do to one key of the store: who may come to own it, what a successful
  write leaves behind, and which index tells of it.
 */
module KvStoreLaws {
  import opened KvStore

  /** The sessions and contents apart, an entry is what the last successful write made it. */
  predicate Says<V(==)>(e: Entry<V>, value: V, flags: nat, session: string, lockIndex: nat) {
    e.value == value && e.flags == flags && e.session == session && e.lockIndex == lockIndex
  }

  /** How often the key was taken since it was created, or since its last check-and-set. */
  function LockIndexOf<K, V>(s: Store<K, V>, key: K): nat {
    if key in s.kvs then s.kvs[key].lockIndex else 0
  }

  function RevisionOf<K, V>(s: Store<K, V>, key: K): nat {
    if key in s.kvs then s.kvs[key].modifyIndex else 0
  }

  /** A check-and-set writes exactly if the revision is still the one given, 0 for no entry, and keeps the owner. */
  lemma CasIsExact<K, V>(s: Store<K, V>, idx: nat, key: K, value: V, flags: nat, cidx: nat)
    requires Consistent(s)
    ensures var (s', reply) := Apply(s, idx, Cas(key, value, flags, cidx));
            && reply == Answer(cidx == RevisionOf(s, key))
            && (if reply.ok then key in s'.kvs && Says(s'.kvs[key], value, flags, SessionOf(s, key), 0)
                else s'.kvs == s.kvs)
  {
  }

  /** A lock by a live session succeeds exactly if nobody else owns the key, and counts the times it changed hands. */
  lemma LockIsExact<K, V>(s: Store<K, V>, idx: nat, key: K, value: V, flags: nat, x: string)
    requires Consistent(s)
    ensures var (s', reply) := Apply(s, idx, Lock(key, value, flags, x));
            var owner, taken := SessionOf(s, key), LockIndexOf(s, key);
            && (reply == Refused <==> x !in s.live)
            && (reply == Answer(true) <==> x in s.live && owner in {"", x})
            && (if reply == Answer(true)
                then key in s'.kvs
                     && Says(s'.kvs[key], value, flags, x, if owner == x then taken else taken + 1)
                else s'.kvs == s.kvs)
  {
  }

  /** An unlock succeeds exactly for the owner, dead or live, and leaves the entry without one. */
  lemma UnlockIsExact<K, V>(s: Store<K, V>, idx: nat, key: K, value: V, flags: nat, x: string)
    requires Consistent(s)
    ensures var (s', reply) := Apply(s, idx, Unlock(key, value, flags, x));
            && (reply == Refused <==> x == "")
            && (reply == Answer(true) <==> x != "" && SessionOf(s, key) == x)
            && (if reply == Answer(true)
                then key in s'.kvs && Says(s'.kvs[key], value, flags, "", LockIndexOf(s, key))
                else s'.kvs == s.kvs)
  {
  }

  /** A delete by revision reports success exactly if the key is gone, and takes only that revision away. */
  lemma DeleteCasIsExact<K, V>(s: Store<K, V>, idx: nat, key: K, cidx: nat)
    requires Consistent(s)
    ensures var (s', reply) := Apply(s, idx, DeleteCas(key, cidx));
            && reply == Answer(key !in s'.kvs)
            && s'.kvs == if RevisionOf(s, key) == cidx then s.kvs - {key} else s.kvs
  {
  }

  /** A plain delete succeeds, with or without the key; so does the end of a session, live or not. */
  lemma DeletesSucceed<K, V>(s: Store<K, V>, idx: nat, key: K, x: string)
    ensures Apply(s, idx, Delete(key)) == (s.(kvs := s.kvs - {key}, index := idx), Answer(true))
    ensures Apply(s, idx, DestroySession(x)).1 == Answer(true)
    ensures x !in s.live ==> Apply(s, idx, DestroySession(x)).0 == s.(index := idx)
  {
  }

  /**
    A session lives with the behavior it was created with. Its end frees all its keys at
    once: they stay as they are without an owner, or go, as that behavior says.
   */
  lemma SessionEnds<K, V>(s: Store<K, V>, i: nat, x: string, b: Behavior, mid: Store<K, V>, j: nat, k: K)
    requires Consistent(s) && Consistent(mid) && x != "" && x !in s.created && k in mid.kvs
    requires mid.live == Apply(s, i, CreateSession(x, b)).0.live
    ensures var end := Apply(mid, j, DestroySession(x)).0;
            var e := mid.kvs[k];
            && end.live == s.live && end.kvs.Keys <= mid.kvs.Keys
            && (k in end.kvs <==> e.session != x || b == ReleaseKeys)
            && (k in end.kvs ==>
                  end.kvs[k] == if e.session != x then e
                                else Entry(e.value, e.flags, "", e.lockIndex, e.createIndex, j))
  {
    assert x in mid.live;
    assert mid.live - {x} == s.live;
  }

  /**
    Every command: an entry that says the same keeps its indexes, one that changed shows the
    command's, and a new one was also created at it.
   */
  lemma IndexesTell<K, V>(s: Store<K, V>, idx: nat, c: Command<K, V>, k: K)
    requires Consistent(s) && idx > s.index && k in Apply(s, idx, c).0.kvs
    ensures var e' := Apply(s, idx, c).0.kvs[k];
            if k !in s.kvs then e'.createIndex == e'.modifyIndex == idx
            else var e := s.kvs[k];
                 && e'.createIndex == e.createIndex
                 && e'.modifyIndex == if Says(e', e.value, e.flags, e.session, e.lockIndex) then e.modifyIndex else idx
  {
  }

  /**
    Every command: a key changes hands only by a lock of a free key, an unlock by its owner,
    its deletion or its owner's end.
   */
  lemma OwnersChange<K, V>(s: Store<K, V>, idx: nat, c: Command<K, V>, k: K)
    requires Consistent(s) && idx > s.index
    ensures var owner, owner' := SessionOf(s, k), SessionOf(Apply(s, idx, c).0, k);
            owner' != owner ==>
              || (owner == "" && c.Lock? && c.key == k && c.session == owner' && owner' in s.live)
              || (owner' == "" && (match c
                    case Unlock(key, _, _, x) => key == k && x == owner
                    case Delete(key) => key == k
                    case DeleteCas(key, cidx) => key == k && cidx == s.kvs[k].modifyIndex
                    case DestroySession(x) => x == owner
                    case _ => false))
  {
  }
}
