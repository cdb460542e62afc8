/**
  The key/value and session tables of the server, as the API clients see them.

  A store is a value; every write is a command that is applied at a raft index
  larger than any index applied before. The commands follow the transactions of
  the state store: a write that would not change an entry is skipped and keeps
  the old modify index, an index of zero in a check-and-set means "must not
  exist", and a check-and-delete of a missing key reports success.
 */
module KvStore {

  /** What happens to the keys of a session when the session is invalidated. */
  datatype Behavior = ReleaseKeys | DeleteKeys

  /** One entry; a session of "" means that no session holds the key. */
  datatype Entry<V> = Entry(value: V, flags: nat, session: string,
                            lockIndex: nat, createIndex: nat, modifyIndex: nat)

  /** `created` holds every session ID ever handed out; `live` the ones still valid. */
  datatype Store<K, V> = Store(kvs: map<K, Entry<V>>, index: nat,
                               live: map<string, Behavior>, created: set<string>)

  datatype Command<K, V> =
    | Cas(key: K, value: V, flags: nat, cidx: nat)
    | DeleteCas(key: K, cidx: nat)
    | Delete(key: K)
    | Lock(key: K, value: V, flags: nat, session: string)
    | Unlock(key: K, value: V, flags: nat, session: string)
    | CreateSession(session: string, behavior: Behavior)
    | DestroySession(session: string)

  /** `Answer(b)` is the boolean a write reports; `Refused` an error reply. */
  datatype Reply = Answer(ok: bool) | Refused

  predicate SameContent<V(==)>(a: Entry<V>, b: Entry<V>) {
    a.lockIndex == b.lockIndex && a.flags == b.flags && a.value == b.value && a.session == b.session
  }

  /** Insert or update an entry; an update that changes nothing is skipped. */
  function Put<K, V(==)>(s: Store<K, V>, idx: nat, key: K, e: Entry<V>): Store<K, V> {
    var e' := e.(createIndex := if key in s.kvs then s.kvs[key].createIndex else idx, modifyIndex := idx);
    if key in s.kvs && SameContent(s.kvs[key], e') then s.(index := idx)
    else s.(kvs := s.kvs[key := e'], index := idx)
  }

  function SessionOf<K, V>(s: Store<K, V>, key: K): string {
    if key in s.kvs then s.kvs[key].session else ""
  }

  function ApplyCas<K, V(==)>(s: Store<K, V>, idx: nat, key: K, value: V, flags: nat, cidx: nat): (Store<K, V>, Reply) {
    if (if key in s.kvs then cidx == s.kvs[key].modifyIndex && cidx != 0 else cidx == 0) then
      (Put(s, idx, key, Entry(value, flags, SessionOf(s, key), 0, 0, 0)), Answer(true))
    else (s.(index := idx), Answer(false))
  }

  function ApplyDeleteCas<K, V>(s: Store<K, V>, idx: nat, key: K, cidx: nat): (Store<K, V>, Reply) {
    if key in s.kvs && s.kvs[key].modifyIndex == cidx then
      (s.(kvs := s.kvs - {key}, index := idx), Answer(true))
    else (s.(index := idx), Answer(key !in s.kvs))
  }

  function ApplyLock<K, V(==)>(s: Store<K, V>, idx: nat, key: K, value: V, flags: nat, session: string)
    : (Store<K, V>, Reply)
  {
    if session == "" || session !in s.live then (s.(index := idx), Refused)
    else if SessionOf(s, key) != "" && SessionOf(s, key) != session then (s.(index := idx), Answer(false))
    else
      var lockIndex := if key !in s.kvs then 1
                       else if s.kvs[key].session == session then s.kvs[key].lockIndex
                       else s.kvs[key].lockIndex + 1;
      (Put(s, idx, key, Entry(value, flags, session, lockIndex, 0, 0)), Answer(true))
  }

  function ApplyUnlock<K, V(==)>(s: Store<K, V>, idx: nat, key: K, value: V, flags: nat, session: string)
    : (Store<K, V>, Reply)
  {
    if session == "" then (s.(index := idx), Refused)
    else if key !in s.kvs || s.kvs[key].session != session then (s.(index := idx), Answer(false))
    else (Put(s, idx, key, Entry(value, flags, "", s.kvs[key].lockIndex, 0, 0)), Answer(true))
  }

  /** Invalidation clears or deletes, in one transaction, every key the session holds. */
  function ApplyDestroySession<K, V>(s: Store<K, V>, idx: nat, session: string): Store<K, V> {
    if session !in s.live then s.(index := idx)
    else
      var kvs := match s.live[session]
        case ReleaseKeys =>
          map k | k in s.kvs ::
            if s.kvs[k].session == session then s.kvs[k].(session := "", modifyIndex := idx) else s.kvs[k]
        case DeleteKeys => map k | k in s.kvs && s.kvs[k].session != session :: s.kvs[k];
      s.(kvs := kvs, live := s.live - {session}, index := idx)
  }

  function Apply<K, V(==)>(s: Store<K, V>, idx: nat, c: Command<K, V>): (Store<K, V>, Reply) {
    match c
    case Cas(key, value, flags, cidx) => ApplyCas(s, idx, key, value, flags, cidx)
    case DeleteCas(key, cidx) => ApplyDeleteCas(s, idx, key, cidx)
    case Delete(key) => (s.(kvs := s.kvs - {key}, index := idx), Answer(true))
    case Lock(key, value, flags, session) => ApplyLock(s, idx, key, value, flags, session)
    case Unlock(key, value, flags, session) => ApplyUnlock(s, idx, key, value, flags, session)
    case CreateSession(session, behavior) =>
      if session == "" || session in s.created then (s.(index := idx), Refused)
      else (s.(live := s.live[session := behavior], created := s.created + {session}, index := idx), Answer(true))
    case DestroySession(session) => (ApplyDestroySession(s, idx, session), Answer(true))
  }

  /** What the server keeps true of its own tables. */
  ghost predicate Consistent<K, V>(s: Store<K, V>) {
    && (forall k :: k in s.kvs ==> 0 < s.kvs[k].modifyIndex <= s.index)
    && (forall k :: k in s.kvs ==> s.kvs[k].session == "" || s.kvs[k].session in s.live)
    && s.live.Keys <= s.created
    && "" !in s.created
  }

  /**
    `b` can have come after `a`: an entry of `b` whose modify index is not newer
    than `a` is an entry of `a`, unchanged, and a session that `a` knew to be dead
    stays dead.
   */
  ghost predicate Later<K, V>(a: Store<K, V>, b: Store<K, V>) {
    && a.index <= b.index
    && a.created <= b.created
    && (forall x :: x in a.created && x in b.live ==> x in a.live)
    && (forall k :: k in b.kvs && b.kvs[k].modifyIndex <= a.index ==> k in a.kvs && a.kvs[k] == b.kvs[k])
  }

  lemma LaterTransitive<K, V>(a: Store<K, V>, b: Store<K, V>, c: Store<K, V>)
    requires Later(a, b) && Later(b, c)
    ensures Later(a, c)
  {
  }

  lemma PutAdvances<K, V>(s: Store<K, V>, idx: nat, key: K, e: Entry<V>)
    requires Consistent(s) && idx > s.index
    requires e.session == "" || e.session in s.live
    ensures var s' := Put(s, idx, key, e); Consistent(s') && Later(s, s') && s'.index == idx
  {
  }

  lemma DestroySessionAdvances<K, V>(s: Store<K, V>, idx: nat, session: string)
    requires Consistent(s) && idx > s.index
    ensures var s' := ApplyDestroySession(s, idx, session); Consistent(s') && Later(s, s') && s'.index == idx
  {
  }

  lemma LockAdvances<K, V>(s: Store<K, V>, idx: nat, key: K, value: V, flags: nat, session: string)
    requires Consistent(s) && idx > s.index
    ensures var s' := ApplyLock(s, idx, key, value, flags, session).0;
            Consistent(s') && Later(s, s') && s'.index == idx
  {
  }

  lemma UnlockAdvances<K, V>(s: Store<K, V>, idx: nat, key: K, value: V, flags: nat, session: string)
    requires Consistent(s) && idx > s.index
    ensures var s' := ApplyUnlock(s, idx, key, value, flags, session).0;
            Consistent(s') && Later(s, s') && s'.index == idx
  {
  }

  lemma DeleteAdvances<K, V>(s: Store<K, V>, idx: nat, key: K, cidx: nat)
    requires Consistent(s) && idx > s.index
    ensures var s' := ApplyDeleteCas(s, idx, key, cidx).0; Consistent(s') && Later(s, s') && s'.index == idx
    ensures var s' := s.(kvs := s.kvs - {key}, index := idx); Consistent(s') && Later(s, s')
  {
  }

  lemma CreateSessionAdvances<K, V>(s: Store<K, V>, idx: nat, session: string, behavior: Behavior)
    requires Consistent(s) && idx > s.index
    ensures var s' := Apply(s, idx, CreateSession(session, behavior)).0;
            Consistent(s') && Later(s, s') && s'.index == idx
  {
  }

  /** Every command leads to a later, consistent store. */
  lemma ApplyAdvances<K, V>(s: Store<K, V>, idx: nat, c: Command<K, V>)
    requires Consistent(s) && idx > s.index
    ensures var s' := Apply(s, idx, c).0; Consistent(s') && Later(s, s') && s'.index == idx
  {
    var s' := Apply(s, idx, c).0;
    assert Consistent(s') && Later(s, s') && s'.index == idx by {
      match c
      case Cas(key, value, flags, cidx) =>
        PutAdvances(s, idx, key, Entry(value, flags, SessionOf(s, key), 0, 0, 0));
      case DeleteCas(key, cidx) => DeleteAdvances(s, idx, key, cidx);
      case Delete(key) => DeleteAdvances(s, idx, key, 0);
      case Lock(key, value, flags, session) => LockAdvances(s, idx, key, value, flags, session);
      case Unlock(key, value, flags, session) => UnlockAdvances(s, idx, key, value, flags, session);
      case CreateSession(session, behavior) => CreateSessionAdvances(s, idx, session, behavior);
      case DestroySession(session) => DestroySessionAdvances(s, idx, session);
    }
  }

  /** The store after a sequence of commands, with the raft index each is applied at. */
  ghost predicate Runs<K, V>(s: Store<K, V>, cs: seq<(nat, Command<K, V>)>, end: Store<K, V>)
    decreases |cs|
  {
    if cs == [] then s == end
    else s.index < cs[0].0 && Runs(Apply(s, cs[0].0, cs[0].1).0, cs[1..], end)
  }

  /**
    Over every run of commands, a modify index identifies a revision: a key that
    shows the same index at two moments shows the same entry at both, whatever was
    deleted and re-created in between, and a dead session is dead for good.
   */
  lemma {:induction false} RevisionsIdentifyEntries<K, V>(s: Store<K, V>, cs: seq<(nat, Command<K, V>)>,
                                                          end: Store<K, V>)
    requires Consistent(s) && Runs(s, cs, end)
    ensures Consistent(end) && Later(s, end)
    ensures forall k :: k in s.kvs && k in end.kvs && s.kvs[k].modifyIndex == end.kvs[k].modifyIndex
                        ==> s.kvs[k] == end.kvs[k]
    ensures forall x :: x in s.created && x !in s.live ==> x !in end.live
    decreases |cs|
  {
    if cs != [] {
      var next := Apply(s, cs[0].0, cs[0].1).0;
      ApplyAdvances(s, cs[0].0, cs[0].1);
      RevisionsIdentifyEntries(next, cs[1..], end);
      LaterTransitive(s, next, end);
    }
  }
}
