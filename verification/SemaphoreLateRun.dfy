/**
  Why a session must not acquire again while its release is under way. The release was
  taken for failed; the session takes its slot again with a write that changes nothing,
  so the lock entry keeps the index that the release waits for, and the release arrives.
 */
module SemaphoreLateRun {
  import opened KvStore
  import opened SemaphoreSpec
  import opened SemaphoreProtocol
  import opened SemaphoreLate
  import opened Runs

  const CONTENDER: Entry<Value> := Entry(ContenderValue(""), SEMAPHORE_FLAG, "a", 1, 2, 2)

  function Slot(holders: set<string>, idx: nat): Entry<Value> {
    Entry(LockValue(2, holders), SEMAPHORE_FLAG, "", 0, 3, idx)
  }

  function StoreAt(kvs: Pairs, idx: nat): SemStore {
    Store(kvs, idx, map["a" := DeleteKeys], {"a"})
  }

  const S0: SemStore := Store(map[], 0, map[], {})
  const S1 := StoreAt(map[], 1)
  const S2 := StoreAt(map[ContenderKey("a") := CONTENDER], 2)
  const S3 := StoreAt(map[ContenderKey("a") := CONTENDER, LockKey := Slot({"a"}, 3)], 3)
  const S4 := S3.(index := 4)
  const S5 := S3.(index := 5)
  const S6 := StoreAt(map[ContenderKey("a") := CONTENDER, LockKey := Slot({}, 6)], 6)

  const H1: seq<SemStore> := [S0, S1]
  const H2 := H1 + [S2]
  const H3 := H2 + [S3]
  const H4 := H3 + [S4]
  const H5 := H4 + [S5]
  const H6 := H5 + [S6]

  /** One handle, 1, with session "a", and the writes under way. */
  function At(history: seq<SemStore>, hd: Handle, sent: set<Sent>): World {
    World(State(2, history, map[1 := hd], map["a" := 1]), sent)
  }

  ghost predicate Seen(wd: World) {
    Reachable(LateInit, LateStep, wd)
  }

  lemma Goes(mid: World, e: Event, next: World)
    requires Seen(mid) && Possible(mid, e)
    requires var wd := Happens(mid, e);
             && wd.st.limit == next.st.limit && wd.st.history == next.st.history
             && wd.st.owner == next.st.owner && wd.st.handles == next.st.handles && wd.sent == next.sent
    ensures Seen(next)
  {
    Then(LateInit, LateStep, mid, e, next);
  }

  /** The waiting handle lists the store at `read` and decides to swap. */
  lemma Lists(history: seq<SemStore>, hd: Handle, sent: set<Sent>, read: nat)
    requires Seen(At(history, hd, sent)) && hd.pc.Waiting? && read < |history|
    requires TryAcquire(2, history[read].kvs, hd.lockSession).Swap?
    ensures Seen(At(history, hd.(pc := Swapping(read)), sent))
  {
    Goes(At(history, hd, sent), Does(ListForAcquire(1, read)), At(history, hd.(pc := Swapping(read)), sent));
  }

  /** The swap it decided on is applied and makes it a holder. */
  lemma Swaps(history: seq<SemStore>, hd: Handle, sent: set<Sent>, idx: nat, a: Attempt, s': SemStore)
    requires Seen(At(history, hd, sent)) && hd.pc.Swapping? && hd.pc.read < |history| && a.Swap?
    requires TryAcquire(2, history[hd.pc.read].kvs, hd.lockSession) == a && idx > history[|history| - 1].index
    requires Apply(history[|history| - 1], idx, Cas(LockKey, a.lock, SEMAPHORE_FLAG, a.cidx)) == (s', Answer(true))
    ensures Seen(At(history + [s'], AfterAcquire(hd, Answer(true), |history|), sent))
  {
    Goes(At(history, hd, sent), Does(SwapAcquire(1, idx, Delivered)),
         At(history + [s'], AfterAcquire(hd, Answer(true), |history|), sent));
  }

  lemma Writes()
    ensures Apply(S1, 2, ContenderCommand("a", "")) == (S2, Answer(true))
    ensures Apply(S2, 3, Cas(LockKey, LockValue(2, {"a"}), SEMAPHORE_FLAG, 0)) == (S3, Answer(true))
  {
    assert S1.kvs[ContenderKey("a") := CONTENDER] == S2.kvs;
    assert S2.kvs[LockKey := Slot({"a"}, 3)] == S3.kvs;
  }

  /** Neither the contender entry nor the lock entry changes, so both keep their index. */
  lemma Rewrites()
    ensures Apply(S3, 4, ContenderCommand("a", "")) == (S4, Answer(true))
    ensures Apply(S4, 5, Cas(LockKey, LockValue(2, {"a"}), SEMAPHORE_FLAG, 3)) == (S5, Answer(true))
  {
  }

  lemma LateWrite()
    ensures Apply(S5, 6, Cas(LockKey, LockValue(2, {}), SEMAPHORE_FLAG, 3)) == (S6, Answer(true))
  {
    assert S5.kvs[LockKey := Slot({}, 6)] == S6.kvs;
  }

  lemma Decisions()
    ensures TryAcquire(2, S2.kvs, "a") == Swap(LockValue(2, {"a"}), 0)
    ensures TryAcquire(2, S4.kvs, "a") == Swap(LockValue(2, {"a"}), 3)
  {
    assert Pruned({}, S2.kvs) == {};
    assert S4.kvs[ContenderKey("a")].session == "a";
    assert Pruned({"a"}, S4.kvs) == {"a"} && {"a"} + {"a"} == {"a"} && |{"a"}| == 1;
  }

  lemma SessionMade()
    ensures Seen(At(H1, Handle(false, "", Idle, 0), {}))
  {
    var wd := World(State(2, [S0], map[1 := Handle(false, "", Idle, 0)], map[]), {});
    assert LateInit(wd) && Reaches(LateStep, wd, [], wd);
    assert S0.live["a" := DeleteKeys] == S1.live && S0.created + {"a"} == S1.created;
    Goes(wd, Does(NewSession(1, "a", DeleteKeys, 1)), At(H1, Handle(false, "", Idle, 0), {}));
  }

  lemma Contends()
    ensures Seen(At(H2, Handle(false, "a", Waiting, 0), {}))
  {
    SessionMade();
    var need := Handle(false, "a", NeedContender, 0);
    Goes(At(H1, Handle(false, "", Idle, 0), {}), Does(BeginAcquire(1, "a")), At(H1, need, {}));
    Writes();
    Goes(At(H1, need, {}), Does(MakeContender(1, "", 2, Delivered)), At(H2, Handle(false, "a", Waiting, 0), {}));
  }

  lemma Acquires()
    ensures Seen(At(H3, Handle(true, "a", Idle, 3), {}))
  {
    Contends();
    Decisions();
    assert H2[2] == S2;
    Lists(H2, Handle(false, "a", Waiting, 0), {}, 2);
    Writes();
    Swaps(H2, Handle(false, "a", Swapping(2), 0), {}, 3, Swap(LockValue(2, {"a"}), 0), S3);
  }

  lemma ReadsForRelease()
    ensures Seen(At(H3, Handle(false, "", Unholding("a", 3), 3), {}))
  {
    Acquires();
    var reading := Handle(false, "", Reading("a"), 3);
    Goes(At(H3, Handle(true, "a", Idle, 3), {}), Does(BeginRelease(1)), At(H3, reading, {}));
    assert H3[3] == S3;
    Goes(At(H3, reading, {}), Does(ReadForRelease(1, 3)), At(H3, Handle(false, "", Unholding("a", 3), 3), {}));
  }

  const LATE := Give("a", 3)

  lemma SendsRelease()
    ensures Seen(At(H3, Handle(false, "", Idle, 3), {LATE}))
  {
    ReadsForRelease();
    Goes(At(H3, Handle(false, "", Unholding("a", 3), 3), {}), Sends(1, ""), At(H3, Handle(false, "", Idle, 3), {LATE}));
  }

  lemma ContendsAgain()
    ensures Seen(At(H4, Handle(false, "a", Waiting, 3), {LATE}))
  {
    SendsRelease();
    var need := Handle(false, "a", NeedContender, 3);
    Goes(At(H3, Handle(false, "", Idle, 3), {LATE}), Does(BeginAcquire(1, "a")), At(H3, need, {LATE}));
    Rewrites();
    Goes(At(H3, need, {LATE}), Does(MakeContender(1, "", 4, Delivered)),
         At(H4, Handle(false, "a", Waiting, 3), {LATE}));
  }

  lemma AcquiresAgain()
    ensures Seen(At(H5, Handle(true, "a", Idle, 5), {LATE}))
  {
    ContendsAgain();
    Decisions();
    assert H4[4] == S4;
    Lists(H4, Handle(false, "a", Waiting, 3), {LATE}, 4);
    Rewrites();
    Swaps(H4, Handle(false, "a", Swapping(4), 3), {LATE}, 5, Swap(LockValue(2, {"a"}), 3), S5);
  }

  lemma LateCommand(st: State)
    requires st.limit == 2 && |st.history| > 3 && st.history[3] == S3
    ensures CommandFor(st, LATE) == Cas(LockKey, LockValue(2, {}), SEMAPHORE_FLAG, 3)
  {
    assert {"a"} - {"a"} == {};
  }

  /** With a late release a live handle holds a slot that the lock entry has already given back. */
  lemma LateReleaseLosesSlot() returns (end: World)
    ensures Reachable(LateInit, LateStep, end)
    ensures end.st.history != [] && 1 in HoldingHandles(end.st)
    ensures end.st.handles[1].lockSession !in Holders(Current(end.st))
  {
    AcquiresAgain();
    LateWrite();
    var wd := At(H5, Handle(true, "a", Idle, 5), {LATE});
    assert wd.st.history[3] == S3 && Current(wd.st) == S5;
    LateCommand(wd.st);
    end := At(H6, Handle(true, "a", Idle, 5), {});
    Goes(wd, Arrives(LATE, 6), end);
    assert Current(end.st) == S6;
  }
}
