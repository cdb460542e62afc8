/**
  Why a session must not lock again while its unlock is under way: it still finds itself
  the owner and takes the lock without a write, and then the unlock arrives.
 */
module LockLateRun {
  import opened KvStore
  import opened LockProtocol
  import opened LockLate
  import opened Runs
  import LockStaleRead

  const H1 := LockStaleRead.H1
  const H2 := LockStaleRead.H2
  const H3 := LockStaleRead.H3

  /** One handle, 7, with session "a", which is at `pc`, and the writes under way. */
  function At(history: seq<LockStore>, isHeld: bool, session: string, pc: Pc, sent: set<Sent>): World {
    World(State(history, map[7 := Handle(isHeld, session, pc, 0)], map["a" := 7]), sent)
  }

  ghost predicate Seen(wd: World) {
    Reachable(LateInit, LateStep, wd)
  }

  lemma Goes(mid: World, e: Event, next: World)
    requires Seen(mid) && Possible(mid, e)
    requires var wd := Happens(mid, e);
             && wd.st.history == next.st.history && wd.st.owner == next.st.owner
             && wd.st.handles == next.st.handles && wd.sent == next.sent
    ensures Seen(next)
  {
    Then(LateInit, LateStep, mid, e, next);
  }

  lemma SessionMade()
    ensures Seen(At(H1, false, "", Idle, {}))
  {
    LockStaleRead.Writes();
    var wd := World(State([LockStaleRead.S0], map[7 := Handle(false, "", Idle, 0)], map[]), {});
    assert LateInit(wd) && Reaches(LateStep, wd, [], wd);
    Goes(wd, Does(NewSession(7, "a", ReleaseKeys, 1)), At(H1, false, "", Idle, {}));
  }

  lemma LockTaken()
    ensures Seen(At(H2, true, "a", Idle, {}))
  {
    SessionMade();
    Goes(At(H1, false, "", Idle, {}), Does(BeginLock(7, "a")), At(H1, false, "a", Trying, {}));
    Goes(At(H1, false, "a", Trying, {}), Does(ReadForLock(7, 1)), At(H1, false, "a", Acquiring, {}));
    LockStaleRead.Writes();
    Goes(At(H1, false, "a", Acquiring, {}), Does(TakeKey(7, "", 2, Delivered)), At(H2, true, "a", Idle, {}));
  }

  const LATE := Free("a", "")

  lemma UnlockSent()
    ensures Seen(At(H2, false, "", Idle, {LATE}))
  {
    LockTaken();
    Goes(At(H2, true, "a", Idle, {}), Does(BeginUnlock(7)), At(H2, false, "", Unlocking("a"), {}));
    Goes(At(H2, false, "", Unlocking("a"), {}), Sends(7, ""), At(H2, false, "", Idle, {LATE}));
  }

  lemma LockTakenAgain()
    ensures Seen(At(H2, true, "a", Idle, {LATE}))
  {
    UnlockSent();
    Goes(At(H2, false, "", Idle, {LATE}), Does(BeginLock(7, "a")), At(H2, false, "a", Trying, {LATE}));
    assert H2[2] == LockStaleRead.S2;
    Goes(At(H2, false, "a", Trying, {LATE}), Does(ReadForLock(7, 2)), At(H2, false, "a", SawOwn, {LATE}));
    Goes(At(H2, false, "a", SawOwn, {LATE}), Does(BecomeHeld(7)), At(H2, true, "a", Idle, {LATE}));
  }

  /** With a late unlock a live handle can hold a lock that nobody owns. */
  lemma LateUnlockHoldsNothing() returns (end: World)
    ensures Reachable(LateInit, LateStep, end)
    ensures end.st.history != [] && Holds(end.st, 7)
    ensures !OwnsKey(Current(end.st), end.st.handles[7].lockSession)
  {
    LockTakenAgain();
    LockStaleRead.Writes();
    end := At(H3, true, "a", Idle, {});
    Goes(At(H2, true, "a", Idle, {LATE}), Arrives(LATE, 3), end);
  }
}
