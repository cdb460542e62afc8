/**
  Why a lock attempt must read fresh state: a read from before its own release
  shows the handle as the owner, and it takes the lock without any write.
 */
module LockStaleRead {
  import opened KvStore
  import opened LockProtocol
  import opened Runs

  const S0: LockStore := Store(map[], 0, map[], {})
  const S1: LockStore := Store(map[], 1, map["a" := ReleaseKeys], {"a"})
  const S2: LockStore := Store(map[LockKey := Entry("", LOCK_FLAG, "a", 1, 2, 2)], 2, map["a" := ReleaseKeys], {"a"})
  const S3: LockStore := Store(map[LockKey := Entry("", LOCK_FLAG, "", 1, 2, 3)], 3, map["a" := ReleaseKeys], {"a"})

  const H1: seq<LockStore> := [S0, S1]
  const H2 := H1 + [S2]
  const H3 := H2 + [S3]

  /** One handle, 7, with session "a", which is at `pc`. */
  function At(history: seq<LockStore>, isHeld: bool, session: string, pc: Pc, freed: nat): State {
    State(history, map[7 := Handle(isHeld, session, pc, freed)], map["a" := 7])
  }

  lemma Goes(mid: State, a: Action, next: State)
    requires Reachable(Init, AnyStep, mid) && mid.history != [] && Enabled(mid, a)
    requires Step(mid, a).history == next.history && Step(mid, a).owner == next.owner
    requires Step(mid, a).handles == next.handles
    ensures Reachable(Init, AnyStep, next)
  {
    Then(Init, AnyStep, mid, a, next);
  }

  lemma Writes()
    ensures Apply(S0, 1, Command<Key, string>.CreateSession("a", ReleaseKeys)) == (S1, Answer(true))
    ensures Apply(S1, 2, Lock(LockKey, "", LOCK_FLAG, "a")) == (S2, Answer(true))
    ensures Apply(S2, 3, Unlock(LockKey, "", LOCK_FLAG, "a")) == (S3, Answer(true))
  {
    assert S0.live["a" := ReleaseKeys] == S1.live && S0.created + {"a"} == S1.created;
    assert S1.kvs[LockKey := Entry("", LOCK_FLAG, "a", 1, 2, 2)] == S2.kvs;
    assert S2.kvs[LockKey := Entry("", LOCK_FLAG, "", 1, 2, 3)] == S3.kvs;
  }

  lemma SessionMade()
    ensures Reachable(Init, AnyStep, At(H1, false, "", Idle, 0))
  {
    Writes();
    var st := State([S0], map[7 := Handle(false, "", Idle, 0)], map[]);
    assert Init(st) && Reaches(AnyStep, st, [], st);
    Goes(st, NewSession(7, "a", ReleaseKeys, 1), At(H1, false, "", Idle, 0));
  }

  lemma LockTaken()
    ensures Reachable(Init, AnyStep, At(H2, true, "a", Idle, 0))
  {
    SessionMade();
    Goes(At(H1, false, "", Idle, 0), BeginLock(7, "a"), At(H1, false, "a", Trying, 0));
    Goes(At(H1, false, "a", Trying, 0), ReadForLock(7, 1), At(H1, false, "a", Acquiring, 0));
    Writes();
    Goes(At(H1, false, "a", Acquiring, 0), TakeKey(7, "", 2, Delivered), At(H2, true, "a", Idle, 0));
  }

  lemma LockFreed()
    ensures Reachable(Init, AnyStep, At(H3, false, "", Idle, 3))
  {
    LockTaken();
    Goes(At(H2, true, "a", Idle, 0), BeginUnlock(7), At(H2, false, "", Unlocking("a"), 0));
    Writes();
    Goes(At(H2, false, "", Unlocking("a"), 0), FreeKey(7, "", 3, Delivered), At(H3, false, "", Idle, 3));
  }

  /** With stale reads a live handle can believe to hold a lock that nobody owns. */
  lemma StaleLockReadHoldsNothing() returns (end: State)
    ensures Reachable(Init, AnyStep, end)
    ensures end.history != [] && Holds(end, 7) && !OwnsKey(Current(end), end.handles[7].lockSession)
  {
    LockFreed();
    Goes(At(H3, false, "", Idle, 3), BeginLock(7, "a"), At(H3, false, "a", Trying, 3));
    assert H3[2] == S2;
    Goes(At(H3, false, "a", Trying, 3), ReadForLock(7, 2), At(H3, false, "a", SawOwn, 3));
    end := At(H3, true, "a", Idle, 3);
    Goes(At(H3, false, "a", SawOwn, 3), BecomeHeld(7), end);
  }
}
