/**
  What every run keeps, whatever the age of its reads: the lock entry is well formed and
  within the limit, nobody meets a conflict, and the dead stay dead.
 */
module SemaphoreAnyReads {
  import opened Basics
  import opened KvStore
  import opened SemaphoreSpec
  import opened SemaphoreProtocol
  import opened Runs

  /** The lock entry belongs to no session, agrees on the limit and has no more holders than that. */
  ghost predicate LockShape(limit: nat, s: SemStore) {
    && Consistent(s)
    && (LockKey in s.kvs ==>
          var e := s.kvs[LockKey];
          e.flags == SEMAPHORE_FLAG && e.session == "" && e.value.LockValue?
          && e.value.limit == limit && |e.value.holders| <= limit)
  }

  /** A command that writes the lock entry writes one of that shape. */
  ghost predicate CommandShape(limit: nat, c: Command<Key, Value>) {
    match c
    case Cas(key, v, flags, _) =>
      key == LockKey && flags == SEMAPHORE_FLAG && v.LockValue? && v.limit == limit && |v.holders| <= limit
    case Lock(key, _, _, _) => key.ContenderKey?
    case Unlock(_, _, _, _) => false
    case _ => true
  }

  lemma ShapeKept(limit: nat, s: SemStore, idx: nat, c: Command<Key, Value>)
    requires LockShape(limit, s) && CommandShape(limit, c) && idx > s.index
    ensures LockShape(limit, Apply(s, idx, c).0) && Later(s, Apply(s, idx, c).0)
  {
    ApplyAdvances(s, idx, c);
  }

  /** The command that a step sends to the store, if any. */
  function CommandOf(st: State, a: Action): Option<Command<Key, Value>>
    requires st.history != [] && Enabled(st, a)
  {
    match a
    case NewSession(h, x, b, _) => Some(CreateSession(x, b))
    case Invalidate(x, _) => Some(DestroySession(x))
    case MakeContender(h, p, _, _) => Some(ContenderCommand(st.handles[h].lockSession, p))
    case SwapAcquire(h, _, _) => Some(AcquireCommand(st, st.handles[h].pc.read, st.handles[h].lockSession))
    case SwapRelease(h, _, _) => Some(ReleaseCommand(st, st.handles[h].pc.read, st.handles[h].pc.session))
    case DropContender(h, _, _) => Some(Delete(ContenderKey(st.handles[h].pc.session)))
    case SwapDestroy(h, _, _) => Some(DestroyCommand(st, st.handles[h].pc.read))
    case _ => None
  }

  function FateOf(a: Action): Fate {
    if a.NewSession? || a.Invalidate? then Delivered
    else if a.MakeContender? || a.SwapAcquire? || a.SwapRelease? || a.DropContender? || a.SwapDestroy? then a.fate
    else LostBefore
  }

  /** A step is its command, applied at a new index or lost. */
  lemma StepStore(st: State, a: Action)
    requires st.history != [] && Enabled(st, a)
    ensures var c := CommandOf(st, a);
            && Step(st, a).limit == st.limit
            && (c.None? ==> Step(st, a).history == st.history)
            && (c.Some? ==> a.idx > Current(st).index
                            && Step(st, a).history == st.history + [Call(Current(st), a.idx, c.value, FateOf(a)).0])
  {
  }

  ghost predicate AnyInv(st: State) {
    0 < st.limit && st.history != [] && forall i :: 0 <= i < |st.history| ==> LockShape(st.limit, st.history[i])
  }

  /** What an acquire or a release writes, from any listing, has the shape. */
  lemma WritesAreShaped(limit: nat, from: SemStore, x: string)
    requires 0 < limit && LockShape(limit, from)
    ensures var a := TryAcquire(limit, from.kvs, x);
            a.Swap? ==> a.lock.LockValue? && a.lock.limit == limit && |a.lock.holders| <= limit
    ensures var lock := Decoded(limit, LockOf(from.kvs).value);
            lock.LockValue? && lock.limit == limit && |lock.holders - {x}| <= limit
  {
  }

  lemma CommandIsShaped(st: State, a: Action)
    requires AnyInv(st) && Enabled(st, a) && CommandOf(st, a).Some?
    ensures CommandShape(st.limit, CommandOf(st, a).value)
  {
    if a.SwapAcquire? {
      WritesAreShaped(st.limit, st.history[st.handles[a.h].pc.read], st.handles[a.h].lockSession);
    } else if a.SwapRelease? {
      WritesAreShaped(st.limit, st.history[st.handles[a.h].pc.read], st.handles[a.h].pc.session);
    }
  }

  /** A command of that shape, applied or lost, keeps what every run keeps. */
  lemma CallKeepsAny(st: State, st': State, idx: nat, c: Command<Key, Value>, fate: Fate)
    requires AnyInv(st) && CommandShape(st.limit, c) && idx > Current(st).index
    requires st'.limit == st.limit && st'.history == st.history + [Call(Current(st), idx, c, fate).0]
    ensures AnyInv(st') && Later(Current(st), Current(st'))
  {
    ShapeKept(st.limit, Current(st), idx, c);
  }

  lemma AnyStepKeeps(st: State, a: Action)
    requires AnyInv(st) && Enabled(st, a)
    ensures AnyInv(Step(st, a)) && Step(st, a).limit == st.limit && Later(Current(st), Current(Step(st, a)))
  {
    var st', c := Step(st, a), CommandOf(st, a);
    StepStore(st, a);
    if c.Some? {
      CommandIsShaped(st, a);
      CallKeepsAny(st, st', a.idx, c.value, FateOf(a));
    }
  }

  lemma AnyRunKeeps(st: State, acts: seq<Action>, end: State)
    requires AnyInv(st) && Reaches(AnyStep, st, acts, end)
    ensures AnyInv(end) && end.limit == st.limit && Later(Current(st), Current(end))
  {
    var inv := (s: State) => AnyInv(s) && s.limit == st.limit && Later(Current(st), Current(s));
    forall s, a | inv(s) && AnyStep(s, a).Some? ensures inv(AnyStep(s, a).value) {
      AnyStepKeeps(s, a);
      LaterTransitive(Current(st), Current(s), Current(Step(s, a)));
    }
    RunKeeps(inv, AnyStep, st, acts, end);
  }

  // ---- the results ----

  /** In every state of every run the stored holders are at most the limit. */
  lemma HoldersWithinLimit(st: State, acts: seq<Action>, end: State)
    requires Init(st) && Reaches(AnyStep, st, acts, end)
    ensures end.history != [] && end.limit == st.limit && |Holders(Current(end))| <= end.limit
  {
    AnyRunKeeps(st, acts, end);
  }

  /** Handles that agree on the limit never meet a conflict, in any listing of any run. */
  lemma NoConflicts(st: State, acts: seq<Action>, end: State, read: nat, x: string)
    requires Init(st) && Reaches(AnyStep, st, acts, end) && read < |end.history|
    ensures var a := TryAcquire(end.limit, end.history[read].kvs, x); a.Wait? || a.Swap?
    ensures var r := TryDestroy(end.limit, end.history[read].kvs); !r.FlagConflict? && !r.BadLock?
  {
    AnyRunKeeps(st, acts, end);
    assert LockShape(end.limit, end.history[read]);
  }

  /** A session that is dead in some state is dead in every state of every run from there. */
  lemma DeadStayDead(st: State, acts: seq<Action>, end: State, x: string)
    requires AnyInv(st) && Reaches(AnyStep, st, acts, end)
    requires x in Current(st).created && x !in Current(st).live
    ensures end.history != [] && x !in Current(end).live
  {
    AnyRunKeeps(st, acts, end);
  }
}
