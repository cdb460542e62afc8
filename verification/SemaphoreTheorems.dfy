/** The invariant is kept by every step, and what follows from it over whole runs. */
module SemaphoreTheorems {
  import opened Basics
  import opened KvStore
  import opened SemaphoreSpec
  import opened SemaphoreProtocol
  import opened SemaphoreAnyReads
  import opened SemaphoreSafety
  import opened Runs

  lemma LocalStepKeeps(st: State, h: nat, hd: Handle)
    requires Inv(st) && h in st.handles
    requires HandleOk(st.limit, st.history, st.owner, h, hd)
    ensures Inv(SetHandle(st, h, hd))
  {
  }

  lemma AfterAcquireOk(limit: nat, history: seq<SemStore>, owner: map<string, nat>, id: nat, hd: Handle,
                       s': SemStore, reply: Reply)
    requires history != [] && HandleOk(limit, history, owner, id, hd) && hd.pc.Swapping?
    requires var s, y := history[|history| - 1], hd.lockSession;
             && s'.live == s.live
             && (HasContender(s, y) ==> HasContender(s', y))
             && (reply == Answer(true) ==> y in Holders(s'))
    ensures HandleOk(limit, history + [s'], owner, id, AfterAcquire(hd, reply, |history|))
  {
  }

  lemma AfterReleaseOk(limit: nat, history: seq<SemStore>, owner: map<string, nat>, id: nat, hd: Handle,
                       s': SemStore, reply: Reply)
    requires history != [] && HandleOk(limit, history, owner, id, hd) && hd.pc.Unholding?
    requires var s, y := history[|history| - 1], hd.pc.session;
             && s'.live == s.live
             && (reply == Answer(true) ==> y !in Holders(s'))
             && (reply == Answer(false) ==> Holders(s') == Holders(s))
    ensures HandleOk(limit, history + [s'], owner, id, AfterRelease(hd, reply))
  {
  }

  lemma SwapAcquireKeeps(st: State, h: nat, idx: nat, fate: Fate)
    requires Inv(st) && Enabled(st, SwapAcquire(h, idx, fate))
    ensures Inv(Step(st, SwapAcquire(h, idx, fate)))
  {
    var s, hd := Current(st), st.handles[h];
    assert HandleOk(st.limit, st.history, st.owner, h, hd);
    AcquireSwapKeeps(st.limit, st.history[hd.pc.read], s, idx, hd.lockSession, fate);
    var (s', reply) := Call(s, idx, AcquireCommand(st, hd.pc.read, hd.lockSession), fate);
    AfterAcquireOk(st.limit, st.history, st.owner, h, hd, s', reply);
    WriteKeepsInv(st, h, AfterAcquire(hd, reply, |st.history|), s', hd.lockSession);
  }

  lemma MakeContenderKeeps(st: State, h: nat, payload: string, idx: nat, fate: Fate)
    requires Inv(st) && Enabled(st, MakeContender(h, payload, idx, fate))
    ensures Inv(Step(st, MakeContender(h, payload, idx, fate)))
  {
    var s, hd := Current(st), st.handles[h];
    ContenderLockKeeps(st.limit, s, idx, hd.lockSession, payload, fate);
    var (s', reply) := Call(s, idx, ContenderCommand(hd.lockSession, payload), fate);
    WriteKeepsInv(st, h, hd.(pc := if reply == Answer(true) then Waiting else Idle), s', hd.lockSession);
  }

  lemma SwapReleaseKeeps(st: State, h: nat, idx: nat, fate: Fate)
    requires Inv(st) && Enabled(st, SwapRelease(h, idx, fate))
    ensures Inv(Step(st, SwapRelease(h, idx, fate)))
  {
    var s, hd := Current(st), st.handles[h];
    assert HandleOk(st.limit, st.history, st.owner, h, hd);
    var from := st.history[hd.pc.read];
    var c := Cas(LockKey, LockValue(st.limit, Holders(from) - {hd.pc.session}), SEMAPHORE_FLAG,
                 LockOf(from.kvs).modifyIndex);
    assert ReleaseCommand(st, hd.pc.read, hd.pc.session) == c by {
      ReleaseCommandIs(st, hd.pc.read, hd.pc.session);
    }
    ReleaseSwapKeeps(st.limit, from, s, idx, hd.pc.session, fate);
    var (s', reply) := Call(s, idx, c, fate);
    AfterReleaseOk(st.limit, st.history, st.owner, h, hd, s', reply);
    WriteKeepsInv(st, h, AfterRelease(hd, reply), s', hd.pc.session);
  }

  lemma ReleaseCommandIs(st: State, read: nat, x: string)
    requires read < |st.history| && StoreOk(st.limit, st.history[read]) && x in Holders(st.history[read])
    ensures ReleaseCommand(st, read, x) == Cas(LockKey, LockValue(st.limit, Holders(st.history[read]) - {x}),
                                               SEMAPHORE_FLAG, LockOf(st.history[read].kvs).modifyIndex)
  {
  }

  lemma DropContenderKeeps(st: State, h: nat, idx: nat, fate: Fate)
    requires Inv(st) && Enabled(st, DropContender(h, idx, fate))
    ensures Inv(Step(st, DropContender(h, idx, fate)))
  {
    var s, hd := Current(st), st.handles[h];
    ContenderDeleteKeeps(st.limit, s, idx, hd.pc.session, fate);
    var s' := Call(s, idx, Delete(ContenderKey(hd.pc.session)), fate).0;
    WriteKeepsInv(st, h, hd.(pc := Idle), s', hd.pc.session);
  }

  lemma SwapDestroyKeeps(st: State, h: nat, idx: nat, fate: Fate)
    requires Inv(st) && Enabled(st, SwapDestroy(h, idx, fate))
    ensures Inv(Step(st, SwapDestroy(h, idx, fate)))
  {
    var s, hd := Current(st), st.handles[h];
    DestroySwapKeeps(st.limit, st.history[hd.pc.read], s, idx, fate);
    WriteKeepsInv(st, h, hd.(pc := Idle), Call(s, idx, DestroyCommand(st, hd.pc.read), fate).0, "");
  }

  /** A write about a session `y` that no handle works with keeps every handle's part. */
  lemma EnvironmentKeeps(st: State, s': SemStore, y: string, owner': map<string, nat>)
    requires Inv(st) && StoreOk(st.limit, s') && Frame(Current(st), s', y)
    requires forall id :: id in st.handles ==> Uses(st.handles[id]) != Some(y)
    requires owner'.Keys <= s'.created && (forall x :: x in st.owner ==> x in owner' && owner'[x] == st.owner[x])
    ensures Inv(Write(st, s').(owner := owner'))
  {
    HistoryGrows(st.limit, st.history, s');
    forall id | id in st.handles ensures HandleOk(st.limit, st.history + [s'], owner', id, st.handles[id]) {
      OtherHandleKept(st.limit, st.history, st.owner, id, st.handles[id], s', y);
    }
  }

  /** No handle works with the empty session. */
  lemma NobodyUsesEmpty(st: State)
    requires Inv(st)
    ensures forall id :: id in st.handles ==> Uses(st.handles[id]) != Some("")
  {
    assert "" !in st.owner;
    forall id | id in st.handles && Uses(st.handles[id]).Some? ensures Uses(st.handles[id]).value != "" {
      UsesOwned(st.limit, st.history, st.owner, id, st.handles[id]);
    }
  }

  lemma StepKeepsInv(st: State, a: Action)
    requires Inv(st) && Enabled(st, a) && ReleaseReadIsSafe(st, a)
    ensures Inv(Step(st, a))
  {
    match a
    case NewSession(h, x, b, idx) =>
      NewSessionKeeps(st.limit, Current(st), idx, x, b);
      NobodyUsesEmpty(st);
      EnvironmentKeeps(st, Apply(Current(st), idx, CreateSession(x, b)).0, "", st.owner[x := h]);
    case Invalidate(x, idx) =>
      InvalidateKeeps(st.limit, Current(st), idx, x);
      var s' := Apply(Current(st), idx, DestroySession(x)).0;
      NobodyUsesEmpty(st);
      EnvironmentKeeps(st, s', "", st.owner);
      assert Write(st, s').(owner := st.owner) == Write(st, s');
    case MakeContender(h, p, idx, fate) => MakeContenderKeeps(st, h, p, idx, fate);
    case SwapAcquire(h, idx, fate) => SwapAcquireKeeps(st, h, idx, fate);
    case SwapRelease(h, idx, fate) => SwapReleaseKeeps(st, h, idx, fate);
    case DropContender(h, idx, fate) => DropContenderKeeps(st, h, idx, fate);
    case SwapDestroy(h, idx, fate) => SwapDestroyKeeps(st, h, idx, fate);
    case ListForAcquire(h, read) => ListingKeeps(st, a);
    case ListForDestroy(h, read) => ListingKeeps(st, a);
    case _ => LocalStepsKeep(st, a);
  }

  /** The steps of a handle between two writes: they only choose where it goes next. */
  lemma LocalStepsKeep(st: State, a: Action)
    requires Inv(st) && Enabled(st, a) && ReleaseReadIsSafe(st, a)
    requires a.BeginAcquire? || a.GiveUp? || a.BeginRelease? || a.ReadForRelease?
    ensures Inv(Step(st, a))
  {
    assert HandleOk(st.limit, st.history, st.owner, a.h, st.handles[a.h]);
    assert a.ReadForRelease? ==> StoreOk(st.limit, st.history[a.read]);
    LocalStepKeeps(st, a.h, Step(st, a).handles[a.h]);
  }

  lemma ListingKeeps(st: State, a: Action)
    requires Inv(st) && Enabled(st, a) && (a.ListForAcquire? || a.ListForDestroy?)
    ensures Inv(Step(st, a))
  {
    assert HandleOk(st.limit, st.history, st.owner, a.h, st.handles[a.h]);
    LocalStepKeeps(st, a.h, Step(st, a).handles[a.h]);
  }

  /** A release read keeps the invariant if and only if it is safe. */
  lemma SafeReadIsExact(st: State, h: nat, read: nat)
    requires Inv(st) && Enabled(st, ReadForRelease(h, read))
    ensures Inv(Step(st, ReadForRelease(h, read))) <==> ReleaseReadIsSafe(st, ReadForRelease(h, read))
  {
    var a := ReadForRelease(h, read);
    assert HandleOk(st.limit, st.history, st.owner, h, st.handles[h]);
    if ReleaseReadIsSafe(st, a) {
      StepKeepsInv(st, a);
    } else {
      assert StoreOk(st.limit, st.history[read]);
      var st' := Step(st, a);
      assert st'.handles[h].pc.Dropping? && !HandleOk(st'.limit, st'.history, st'.owner, h, st'.handles[h]);
    }
  }

  /** After an unsafe read the next write leaves a live holder without its contender entry, for anyone to prune. */
  lemma UnsafeReadExposesHolder(st: State, h: nat, read: nat, idx: nat)
    requires Inv(st) && Enabled(st, ReadForRelease(h, read)) && !ReleaseReadIsSafe(st, ReadForRelease(h, read))
    requires idx > Current(st).index
    ensures var mid := Step(st, ReadForRelease(h, read));
            var drop := DropContender(h, idx, Delivered);
            && Enabled(mid, drop)
            && var s, x := Current(Step(mid, drop)), st.handles[h].pc.session;
               x in s.live && x in Holders(s) && x !in Pruned(Holders(s), s.kvs)
  {
    assert HandleOk(st.limit, st.history, st.owner, h, st.handles[h]);
    assert StoreOk(st.limit, st.history[read]);
    DroppedIsPrunable(st.limit, Current(st), idx, st.handles[h].pc.session);
  }

  lemma DroppedIsPrunable(limit: nat, s: SemStore, idx: nat, x: string)
    requires StoreOk(limit, s) && idx > s.index && x in s.live && x in Holders(s)
    ensures var s' := Apply(s, idx, Command<Key, Value>.Delete(ContenderKey(x))).0;
            x in s'.live && x in Holders(s') && x !in Pruned(Holders(s'), s'.kvs)
  {
    var kvs := s.kvs - {ContenderKey(x)};
    forall k | k in kvs ensures kvs[k].session != x {
      assert k == LockKey || k == ContenderKey(k.session);
    }
  }

  lemma RunKeepsInv(st: State, acts: seq<Action>, end: State)
    requires Inv(st) && Reaches(SafeStep, st, acts, end)
    ensures Inv(end) && Later(Current(st), Current(end)) && end.limit == st.limit
  {
    var inv := (s: State) => Inv(s) && Later(Current(st), Current(s)) && s.limit == st.limit;
    forall s, a | inv(s) && SafeStep(s, a).Some? ensures inv(SafeStep(s, a).value) {
      StepKeepsInv(s, a);
      InvIsAny(s);
      AnyStepKeeps(s, a);
      LaterTransitive(Current(st), Current(s), Current(Step(s, a)));
    }
    RunKeeps(inv, SafeStep, st, acts, end);
  }

  lemma InvIsAny(st: State)
    requires Inv(st)
    ensures AnyInv(st)
  {
    forall i | 0 <= i < |st.history| ensures LockShape(st.limit, st.history[i]) {
      assert StoreOk(st.limit, st.history[i]);
    }
  }

  lemma InitInv(st: State)
    requires Init(st)
    ensures Inv(st)
  {
  }

  // ---- recent reads are safe ----

  /** What a step does to the history, and to the place of last acquires of handles that have a slot. */
  ghost predicate Moves(st: State, st': State)
    requires st.history != [] && st'.history != []
  {
    && st'.limit == st.limit
    && (st'.history == st.history || st'.history == st.history + [Current(st')])
    && forall h :: h in st'.handles && Claim(st'.handles[h]).Some? ==>
         || (st'.handles[h].since == |st.history| && st'.history != st.history)
         || (&& h in st.handles && Claim(st.handles[h]) == Claim(st'.handles[h])
             && st.handles[h].since == st'.handles[h].since)
  }

  lemma WriteMoves(st: State, h: nat, hd: Handle, s': SemStore)
    requires st.history != [] && h in st.handles
    requires Claim(hd).None? || hd.since == |st.history|
             || (Claim(hd) == Claim(st.handles[h]) && hd.since == st.handles[h].since)
    ensures Moves(st, SetHandle(Write(st, s'), h, hd))
  {
  }

  lemma OtherMoves(st: State, a: Action)
    requires st.history != [] && Enabled(st, a)
    requires !a.MakeContender? && !a.SwapAcquire? && !a.SwapRelease? && !a.DropContender? && !a.SwapDestroy?
    ensures Moves(st, Step(st, a))
  {
  }

  lemma SwapMoves(st: State, a: Action)
    requires st.history != [] && Enabled(st, a) && (a.SwapAcquire? || a.SwapRelease?)
    ensures Moves(st, Step(st, a))
  {
    var hd := st.handles[a.h];
    if a.SwapAcquire? {
      var (s', reply) := Call(Current(st), a.idx, AcquireCommand(st, hd.pc.read, hd.lockSession), a.fate);
      WriteMoves(st, a.h, AfterAcquire(hd, reply, |st.history|), s');
    } else {
      var (s', reply) := Call(Current(st), a.idx, ReleaseCommand(st, hd.pc.read, hd.pc.session), a.fate);
      WriteMoves(st, a.h, AfterRelease(hd, reply), s');
    }
  }

  lemma EntryMoves(st: State, a: Action)
    requires st.history != [] && Enabled(st, a) && (a.MakeContender? || a.DropContender? || a.SwapDestroy?)
    ensures Moves(st, Step(st, a))
  {
    var s, hd := Current(st), st.handles[a.h];
    match a
    case MakeContender(h, p, idx, fate) =>
      var (s', reply) := Call(s, idx, ContenderCommand(hd.lockSession, p), fate);
      WriteMoves(st, h, hd.(pc := if reply == Answer(true) then Waiting else Idle), s');
    case DropContender(h, idx, fate) =>
      WriteMoves(st, h, hd.(pc := Idle), Call(s, idx, Delete(ContenderKey(hd.pc.session)), fate).0);
    case SwapDestroy(h, idx, fate) =>
      WriteMoves(st, h, hd.(pc := Idle), Call(s, idx, DestroyCommand(st, hd.pc.read), fate).0);
  }

  lemma StepMoves(st: State, a: Action)
    requires st.history != [] && Enabled(st, a)
    ensures Moves(st, Step(st, a))
  {
    if a.SwapAcquire? || a.SwapRelease? {
      SwapMoves(st, a);
    } else if a.MakeContender? || a.DropContender? || a.SwapDestroy? {
      EntryMoves(st, a);
    } else {
      OtherMoves(st, a);
    }
  }

  /** From its acquire write on, a handle with a slot is stored as a holder while it is live. */
  ghost predicate HeldSince(history: seq<SemStore>, hd: Handle) {
    Claim(hd).Some? ==>
      && hd.since < |history|
      && forall i :: hd.since <= i < |history| ==>
           var x, s := Claim(hd).value, history[i];
           x in s.created && (x in s.live ==> x in Holders(s))
  }

  ghost predicate RecentInv(st: State) {
    Inv(st) && forall h :: h in st.handles ==> HeldSince(st.history, st.handles[h])
  }

  lemma RecentIsSafe(st: State, a: Action)
    requires RecentInv(st) && Enabled(st, a) && ReleaseReadIsRecent(st, a)
    ensures ReleaseReadIsSafe(st, a)
  {
    if a.ReadForRelease? {
      var x := st.handles[a.h].pc.session;
      assert HandleOk(st.limit, st.history, st.owner, a.h, st.handles[a.h]);
      assert HeldSince(st.history, st.handles[a.h]);
      assert Later(st.history[a.read], Current(st));
    }
  }

  lemma MovesKeepRecent(st: State, st': State)
    requires RecentInv(st) && Inv(st') && Moves(st, st')
    ensures RecentInv(st')
  {
    forall h | h in st'.handles ensures HeldSince(st'.history, st'.handles[h]) {
      assert HandleOk(st'.limit, st'.history, st'.owner, h, st'.handles[h]);
      if h in st.handles {
        assert HeldSince(st.history, st.handles[h]);
      }
    }
  }

  lemma RecentStepKeeps(st: State, a: Action)
    requires RecentInv(st) && RecentStep(st, a).Some?
    ensures RecentInv(Step(st, a)) && SafeStep(st, a) == RecentStep(st, a)
  {
    RecentIsSafe(st, a);
    StepKeepsInv(st, a);
    StepMoves(st, a);
    MovesKeepRecent(st, Step(st, a));
  }

  /** If no release reads a store older than the handle's own acquire write, all release reads are safe. */
  lemma RecentRunsAreSafe(st: State, acts: seq<Action>, end: State)
    requires Init(st) && Reaches(RecentStep, st, acts, end)
    ensures Reaches(SafeStep, st, acts, end)
  {
    InitInv(st);
    forall s, a | RecentInv(s) && RecentStep(s, a).Some?
      ensures RecentInv(RecentStep(s, a).value) && SafeStep(s, a) == RecentStep(s, a)
    {
      RecentStepKeeps(s, a);
    }
    RunRefines(RecentInv, RecentStep, SafeStep, st, acts, end);
  }

  // ---- the results ----

  lemma InjectionBound(handles: set<nat>, f: map<nat, string>, into: set<string>)
    requires handles <= f.Keys
    requires forall h :: h in handles ==> f[h] in into
    requires forall g, h :: g in handles && h in handles && f[g] == f[h] ==> g == h
    ensures |handles| <= |into|
  {
    if handles != {} {
      var h :| h in handles;
      InjectionBound(handles - {h}, f, into - {f[h]});
    }
  }

  /**
    In every reachable state the stored holders are at most the limit, every live
    handle that holds a slot is stored, and at most `limit` live handles hold one.
   */
  lemma SemaphoreIsSafe(st: State, acts: seq<Action>, end: State)
    requires Init(st) && Reaches(SafeStep, st, acts, end)
    ensures end.history != [] && |Holders(Current(end))| <= end.limit
    ensures forall h :: h in HoldingHandles(end) ==> end.handles[h].lockSession in Holders(Current(end))
    ensures |HoldingHandles(end)| <= end.limit
  {
    InitInv(st);
    RunKeepsInv(st, acts, end);
    InvIsSafe(end);
  }

  lemma InvIsSafe(end: State)
    requires Inv(end)
    ensures |Holders(Current(end))| <= end.limit
    ensures forall h :: h in HoldingHandles(end) ==> end.handles[h].lockSession in Holders(Current(end))
    ensures |HoldingHandles(end)| <= end.limit
  {
    assert StoreOk(end.limit, Current(end));
    var f := map h | h in end.handles :: end.handles[h].lockSession;
    forall g, h | g in HoldingHandles(end) && h in HoldingHandles(end) && f[g] == f[h] ensures g == h {
      assert HandleOk(end.limit, end.history, end.owner, g, end.handles[g]);
      assert HandleOk(end.limit, end.history, end.owner, h, end.handles[h]);
    }
    InjectionBound(HoldingHandles(end), f, Holders(Current(end)));
  }

  /**
    Whatever snapshot an acquiring handle listed, a holder that its write removes is
    dead, and is dead in every state reached from there, by reads of any age.
   */
  lemma PrunedHoldersStayDead(st: State, acts: seq<Action>, mid: State, h: nat, idx: nat, fate: Fate,
                              more: seq<Action>, end: State, x: string)
    requires Init(st) && Reaches(SafeStep, st, acts, mid)
    requires mid.history != [] && Enabled(mid, SwapAcquire(h, idx, fate))
    requires Reaches(AnyStep, Step(mid, SwapAcquire(h, idx, fate)), more, end)
    requires x in Holders(Current(mid)) && x !in Holders(Current(Step(mid, SwapAcquire(h, idx, fate))))
    ensures end.history != [] && x !in Current(mid).live && x !in Current(end).live
  {
    InitInv(st);
    RunKeepsInv(st, acts, mid);
    SwapRemovesOnlyDead(mid, h, idx, fate, x);
    InvIsAny(mid);
    AnyStepKeeps(mid, SwapAcquire(h, idx, fate));
    DeadStayDead(Step(mid, SwapAcquire(h, idx, fate)), more, end, x);
  }

  /** The same for one step: the write of an acquire never removes a live session, nor its own. */
  lemma SwapRemovesOnlyDead(st: State, h: nat, idx: nat, fate: Fate, x: string)
    requires Inv(st) && Enabled(st, SwapAcquire(h, idx, fate)) && x in Holders(Current(st))
    ensures x in Holders(Current(Step(st, SwapAcquire(h, idx, fate))))
            || (x != st.handles[h].lockSession && x !in Current(st).live && x in Current(st).created)
  {
    var s, hd := Current(st), st.handles[h];
    assert HandleOk(st.limit, st.history, st.owner, h, hd);
    AcquireRemovesOnlyDead(st.limit, st.history[hd.pc.read], s, idx, hd.lockSession, fate, x);
  }

  /** A destroy that removes the lock entry, from however old a listing, removes no live holder. */
  lemma DestroySparesLiveHolders(st: State, acts: seq<Action>, mid: State, h: nat, idx: nat, fate: Fate,
                                 x: string)
    requires Init(st) && Reaches(SafeStep, st, acts, mid)
    requires mid.history != [] && Enabled(mid, SwapDestroy(h, idx, fate))
    requires LockKey in Current(mid).kvs && LockKey !in Current(Step(mid, SwapDestroy(h, idx, fate))).kvs
    requires x in Holders(Current(mid))
    ensures x !in Current(mid).live
  {
    InitInv(st);
    RunKeepsInv(st, acts, mid);
    SwapRemovesDeadLock(mid, h, idx, fate, x);
  }

  lemma SwapRemovesDeadLock(st: State, h: nat, idx: nat, fate: Fate, x: string)
    requires Inv(st) && Enabled(st, SwapDestroy(h, idx, fate)) && x in Holders(Current(st))
    ensures LockKey in Current(Step(st, SwapDestroy(h, idx, fate))).kvs || x !in Current(st).live
  {
    assert HandleOk(st.limit, st.history, st.owner, h, st.handles[h]);
    DestroySwapKeeps(st.limit, st.history[st.handles[h].pc.read], Current(st), idx, fate);
  }

  /** With fresh listings the monitor of a held slot keeps watching exactly while the session is live. */
  lemma MonitorIsExact(st: State, acts: seq<Action>, end: State, h: nat)
    requires Init(st) && Reaches(SafeStep, st, acts, end)
    requires h in end.handles && end.handles[h].isHeld
    ensures end.history != []
    ensures MonitorKeepsSlot(end.limit, Current(end).kvs, end.handles[h].lockSession)
            <==> end.handles[h].lockSession in Current(end).live
  {
    InitInv(st);
    RunKeepsInv(st, acts, end);
    var s, x := Current(end), end.handles[h].lockSession;
    assert HandleOk(end.limit, end.history, end.owner, h, end.handles[h]);
    if x in s.live {
      PruneSparesLive(end.limit, s, s, x);
    }
  }
}
