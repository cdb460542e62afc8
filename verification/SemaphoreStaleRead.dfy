/**
  Why a release must not read a store older than its own acquire. A release that
  reads the lock as it was before the slot was taken skips the removal and drops its
  contender entry. A rival then prunes the holder, while the holder takes its slot
  again with a write that changes nothing and so keeps the modify index the rival
  waits for.
 */
module SemaphoreStaleRead {
  import opened KvStore
  import opened SemaphoreSpec
  import opened SemaphoreProtocol
  import opened Runs

  // ---- the stores of the run, numbered by their raft index ----

  function Slot(holders: set<string>, idx: nat): Entry<Value> {
    Entry(LockValue(1, holders), SEMAPHORE_FLAG, "", 0, 4, idx)
  }

  function Contender(x: string, idx: nat): Entry<Value> {
    Entry(ContenderValue(""), SEMAPHORE_FLAG, x, 1, idx, idx)
  }

  const A := ContenderKey("a")
  const B := ContenderKey("b")

  const S0: SemStore := Store(map[], 0, map[], {})
  const S1: SemStore := Store(map[], 1, map["a" := DeleteKeys], {"a"})

  function StoreAt(kvs: Pairs, idx: nat): SemStore {
    Store(kvs, idx, map["a" := DeleteKeys, "b" := DeleteKeys], {"a", "b"})
  }

  const S2 := StoreAt(map[], 2)
  const S3 := StoreAt(map[A := Contender("a", 3)], 3)
  const S4 := StoreAt(map[A := Contender("a", 3), LockKey := Slot({"a"}, 4)], 4)
  const S5 := StoreAt(map[LockKey := Slot({"a"}, 4)], 5)
  const S6 := StoreAt(map[LockKey := Slot({"a"}, 4), B := Contender("b", 6)], 6)
  const S7 := StoreAt(map[LockKey := Slot({"a"}, 4), B := Contender("b", 6), A := Contender("a", 7)], 7)
  const S8 := S7.(index := 8)
  const S9 := StoreAt(map[LockKey := Slot({"b"}, 9), B := Contender("b", 6), A := Contender("a", 7)], 9)

  const H2: seq<SemStore> := [S0, S1, S2]
  const H3 := H2 + [S3]
  const H4 := H3 + [S4]
  const H5 := H4 + [S5]
  const H6 := H5 + [S6]
  const H7 := H6 + [S7]
  const H8 := H7 + [S8]
  const H9 := H8 + [S9]

  /** Two handles, 1 with session "a" and 2 with session "b", and one slot. */
  function At(history: seq<SemStore>, first: Handle, second: Handle): State {
    State(1, history, map[1 := first, 2 := second], map["a" := 1, "b" := 2])
  }

  const REST := Handle(false, "", Idle, 0)

  ghost predicate Seen(history: seq<SemStore>, first: Handle, second: Handle) {
    Reachable(Init, AnyStep, At(history, first, second))
  }

  lemma Goes(mid: State, a: Action, next: State)
    requires Reachable(Init, AnyStep, mid) && mid.history != [] && Enabled(mid, a)
    requires var st := Step(mid, a);
             && st.limit == next.limit && st.history == next.history
             && st.owner == next.owner && st.handles == next.handles
    ensures Reachable(Init, AnyStep, next)
  {
    Then(Init, AnyStep, mid, a, next);
  }

  /** A waiting handle lists the store at `read` and decides to swap. */
  lemma Lists(st: State, h: nat, read: nat)
    requires Reachable(Init, AnyStep, st) && st.history != [] && h in st.handles && st.handles[h].pc.Waiting?
    requires read < |st.history| && TryAcquire(st.limit, st.history[read].kvs, st.handles[h].lockSession).Swap?
    ensures Reachable(Init, AnyStep, SetHandle(st, h, st.handles[h].(pc := Swapping(read))))
  {
    Then(Init, AnyStep, st, ListForAcquire(h, read), SetHandle(st, h, st.handles[h].(pc := Swapping(read))));
  }

  /** The swap it decided on is applied and makes it a holder. */
  lemma Swaps(st: State, h: nat, idx: nat, a: Attempt, s': SemStore)
    requires Reachable(Init, AnyStep, st) && st.history != [] && idx > Current(st).index
    requires h in st.handles && st.handles[h].pc.Swapping? && st.handles[h].pc.read < |st.history|
    requires TryAcquire(st.limit, st.history[st.handles[h].pc.read].kvs, st.handles[h].lockSession) == a && a.Swap?
    requires Apply(Current(st), idx, Cas(LockKey, a.lock, SEMAPHORE_FLAG, a.cidx)) == (s', Answer(true))
    ensures Reachable(Init, AnyStep,
                      SetHandle(Write(st, s'), h, AfterAcquire(st.handles[h], Answer(true), |st.history|)))
  {
    Then(Init, AnyStep, st, SwapAcquire(h, idx, Delivered),
         SetHandle(Write(st, s'), h, AfterAcquire(st.handles[h], Answer(true), |st.history|)));
  }

  lemma SetFirst(history: seq<SemStore>, a: Handle, b: Handle, a': Handle)
    ensures SetHandle(At(history, a, b), 1, a') == At(history, a', b)
  {
    assert map[1 := a, 2 := b][1 := a'] == map[1 := a', 2 := b];
  }

  lemma SetSecond(history: seq<SemStore>, a: Handle, b: Handle, b': Handle)
    ensures SetHandle(At(history, a, b), 2, b') == At(history, a, b')
  {
    assert map[1 := a, 2 := b][2 := b'] == map[1 := a, 2 := b'];
  }

  // ---- the writes and the decisions ----

  lemma Contends(x: string, before: SemStore, idx: nat, after: SemStore)
    requires x != "" && x in before.live && ContenderKey(x) !in before.kvs && idx > before.index
    requires after == before.(kvs := before.kvs[ContenderKey(x) := Contender(x, idx)], index := idx)
    ensures Apply(before, idx, ContenderCommand(x, "")) == (after, Answer(true))
  {
  }

  lemma FirstTakes()
    ensures Apply(S3, 4, Cas(LockKey, LockValue(1, {"a"}), SEMAPHORE_FLAG, 0)) == (S4, Answer(true))
  {
  }

  lemma FirstDrops()
    ensures Apply(S4, 5, Command<Key, Value>.Delete(A)) == (S5, Answer(true))
  {
    assert S4.kvs - {A} == S5.kvs;
  }

  /** The write changes nothing, so the lock entry keeps its index 4. */
  lemma FirstRetakes()
    ensures Apply(S7, 8, Cas(LockKey, LockValue(1, {"a"}), SEMAPHORE_FLAG, 4)) == (S8, Answer(true))
  {
  }

  lemma SecondTakes()
    ensures Apply(S8, 9, Cas(LockKey, LockValue(1, {"b"}), SEMAPHORE_FLAG, 4)) == (S9, Answer(true))
  {
    assert S8.kvs[LockKey := Slot({"b"}, 9)] == S9.kvs;
  }

  lemma FirstDecides()
    ensures TryAcquire(1, S3.kvs, "a") == Swap(LockValue(1, {"a"}), 0)
  {
  }

  /** In the stores at 5 and 6 the session "a" owns no key, so it is pruned. */
  lemma BothDecide()
    ensures TryAcquire(1, S5.kvs, "a") == Swap(LockValue(1, {"a"}), 4)
    ensures TryAcquire(1, S6.kvs, "b") == Swap(LockValue(1, {"b"}), 4)
  {
    assert Pruned({"a"}, S5.kvs) == {} && Pruned({"a"}, S6.kvs) == {};
  }

  // ---- the run ----

  lemma FirstSession()
    ensures Reachable(Init, AnyStep, State(1, [S0, S1], map[1 := REST, 2 := REST], map["a" := 1]))
  {
    var st := State(1, [S0], map[1 := REST, 2 := REST], map[]);
    assert Init(st) && Reaches(AnyStep, st, [], st);
    assert S0.live["a" := DeleteKeys] == S1.live && S0.created + {"a"} == S1.created;
    Goes(st, NewSession(1, "a", DeleteKeys, 1), State(1, [S0, S1], map[1 := REST, 2 := REST], map["a" := 1]));
  }

  lemma SecondSession()
    ensures Seen(H2, REST, REST)
  {
    FirstSession();
    assert S1.live["b" := DeleteKeys] == S2.live && S1.created + {"b"} == S2.created;
    var mid := State(1, [S0, S1], map[1 := REST, 2 := REST], map["a" := 1]);
    Goes(mid, NewSession(2, "b", DeleteKeys, 2), At(H2, REST, REST));
  }

  lemma FirstContends()
    ensures Seen(H3, Handle(false, "a", Waiting, 0), REST)
  {
    SecondSession();
    Goes(At(H2, REST, REST), BeginAcquire(1, "a"), At(H2, Handle(false, "a", NeedContender, 0), REST));
    Contends("a", S2, 3, S3);
    Goes(At(H2, Handle(false, "a", NeedContender, 0), REST), MakeContender(1, "", 3, Delivered),
         At(H3, Handle(false, "a", Waiting, 0), REST));
  }

  lemma FirstAcquires()
    ensures Seen(H4, Handle(true, "a", Idle, 4), REST)
  {
    FirstContends();
    FirstDecides();
    assert H3[3] == S3;
    Lists(At(H3, Handle(false, "a", Waiting, 0), REST), 1, 3);
    SetFirst(H3, Handle(false, "a", Waiting, 0), REST, Handle(false, "a", Swapping(3), 0));
    FirstTakes();
    Swaps(At(H3, Handle(false, "a", Swapping(3), 0), REST), 1, 4, Swap(LockValue(1, {"a"}), 0), S4);
    SetFirst(H4, Handle(false, "a", Swapping(3), 0), REST, Handle(true, "a", Idle, 4));
  }

  /** The read is of the store at index 3, where the slot was not taken yet. */
  lemma FirstReadsStale()
    ensures Seen(H4, Handle(false, "", Dropping("a"), 4), REST)
  {
    FirstAcquires();
    Goes(At(H4, Handle(true, "a", Idle, 4), REST), BeginRelease(1),
         At(H4, Handle(false, "", Reading("a"), 4), REST));
    assert H4[3] == S3;
    Goes(At(H4, Handle(false, "", Reading("a"), 4), REST), ReadForRelease(1, 3),
         At(H4, Handle(false, "", Dropping("a"), 4), REST));
  }

  lemma FirstReleases()
    ensures Seen(H5, Handle(false, "", Idle, 4), REST)
  {
    FirstReadsStale();
    FirstDrops();
    Goes(At(H4, Handle(false, "", Dropping("a"), 4), REST), DropContender(1, 5, Delivered),
         At(H5, Handle(false, "", Idle, 4), REST));
  }

  lemma SecondContends()
    ensures Seen(H6, Handle(false, "", Idle, 4), Handle(false, "b", Waiting, 0))
  {
    FirstReleases();
    var first := Handle(false, "", Idle, 4);
    Goes(At(H5, first, REST), BeginAcquire(2, "b"), At(H5, first, Handle(false, "b", NeedContender, 0)));
    Contends("b", S5, 6, S6);
    Goes(At(H5, first, Handle(false, "b", NeedContender, 0)), MakeContender(2, "", 6, Delivered),
         At(H6, first, Handle(false, "b", Waiting, 0)));
  }

  lemma SecondPrunesFirst()
    ensures Seen(H6, Handle(false, "", Idle, 4), Handle(false, "b", Swapping(6), 0))
  {
    SecondContends();
    BothDecide();
    assert H6[6] == S6;
    Lists(At(H6, Handle(false, "", Idle, 4), Handle(false, "b", Waiting, 0)), 2, 6);
    SetSecond(H6, Handle(false, "", Idle, 4), Handle(false, "b", Waiting, 0), Handle(false, "b", Swapping(6), 0));
  }

  const RIVAL := Handle(false, "b", Swapping(6), 0)

  lemma FirstContendsAgain()
    ensures Seen(H7, Handle(false, "a", Waiting, 4), RIVAL)
  {
    SecondPrunesFirst();
    Goes(At(H6, Handle(false, "", Idle, 4), RIVAL), BeginAcquire(1, "a"),
         At(H6, Handle(false, "a", NeedContender, 4), RIVAL));
    Contends("a", S6, 7, S7);
    Goes(At(H6, Handle(false, "a", NeedContender, 4), RIVAL), MakeContender(1, "", 7, Delivered),
         At(H7, Handle(false, "a", Waiting, 4), RIVAL));
  }

  lemma FirstListsAgain()
    ensures Seen(H7, Handle(false, "a", Swapping(5), 4), RIVAL)
  {
    FirstContendsAgain();
    BothDecide();
    assert H7[5] == S5;
    Lists(At(H7, Handle(false, "a", Waiting, 4), RIVAL), 1, 5);
    SetFirst(H7, Handle(false, "a", Waiting, 4), RIVAL, Handle(false, "a", Swapping(5), 4));
  }

  lemma FirstReacquires()
    ensures Seen(H8, Handle(true, "a", Idle, 8), RIVAL)
  {
    FirstListsAgain();
    BothDecide();
    FirstRetakes();
    var st := At(H7, Handle(false, "a", Swapping(5), 4), RIVAL);
    assert st.history[5] == S5 && Current(st) == S7;
    Swaps(st, 1, 8, Swap(LockValue(1, {"a"}), 4), S8);
    SetFirst(H8, Handle(false, "a", Swapping(5), 4), RIVAL, Handle(true, "a", Idle, 8));
  }

  lemma SecondAcquires()
    ensures Seen(H9, Handle(true, "a", Idle, 8), Handle(true, "b", Idle, 9))
  {
    FirstReacquires();
    BothDecide();
    SecondTakes();
    var st := At(H8, Handle(true, "a", Idle, 8), RIVAL);
    assert st.history[6] == S6 && Current(st) == S8;
    Swaps(st, 2, 9, Swap(LockValue(1, {"b"}), 4), S9);
    SetSecond(H9, Handle(true, "a", Idle, 8), RIVAL, Handle(true, "b", Idle, 9));
  }

  /** With stale release reads two live handles can hold the only slot. */
  lemma StaleReleaseReadExceedsLimit() returns (end: State)
    ensures Reachable(Init, AnyStep, end)
    ensures end.history != [] && |HoldingHandles(end)| > end.limit
  {
    SecondAcquires();
    end := At(H9, Handle(true, "a", Idle, 8), Handle(true, "b", Idle, 9));
    assert Current(end) == S9 && "a" in S9.live && "b" in S9.live;
    assert HoldingHandles(end) == {1, 2};
  }
}
