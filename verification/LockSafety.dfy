/** Mutual exclusion of the lock over every run. */
module LockSafety {
  import opened Basics
  import opened KvStore
  import opened LockProtocol
  import opened Runs

  ghost predicate HistoryOk(history: seq<LockStore>) {
    && history != []
    && (forall i :: 0 <= i < |history| ==> Consistent(history[i]))
    && (forall i :: 0 <= i < |history| ==> Later(history[i], history[|history| - 1]))
  }

  predicate Owns(owner: map<string, nat>, id: nat, x: string) {
    x in owner && owner[x] == id
  }

  ghost predicate HandleOk(history: seq<LockStore>, owner: map<string, nat>, id: nat, hd: Handle)
    requires history != []
  {
    var s := history[|history| - 1];
    && (hd.isHeld ==> hd.pc.Idle?)
    && (hd.isHeld || hd.pc.SawOwn? ==>
          && Owns(owner, id, hd.lockSession)
          && (hd.lockSession in s.live ==> OwnsKey(s, hd.lockSession)))
    && (hd.pc.Trying? || hd.pc.Acquiring? ==> Owns(owner, id, hd.lockSession))
    && (hd.pc.Unlocking? ==> Owns(owner, id, hd.pc.session))
    && (hd.pc.Destroying? ==> hd.pc.read < |history| && MayDelete(history[hd.pc.read]))
  }

  /** The session that the handle is working with. */
  function Uses(hd: Handle): Option<string> {
    if hd.isHeld || hd.pc.SawOwn? || hd.pc.Trying? || hd.pc.Acquiring? then Some(hd.lockSession)
    else if hd.pc.Unlocking? then Some(hd.pc.session)
    else None
  }

  ghost predicate Inv(st: State) {
    && HistoryOk(st.history)
    && st.owner.Keys <= Current(st).created
    && (forall id :: id in st.handles ==> HandleOk(st.history, st.owner, id, st.handles[id]))
  }

  /** A live session other than `y` that owns the key in `s` still owns it in `s'`. */
  ghost predicate Frame(s: LockStore, s': LockStore, y: string) {
    && Consistent(s') && Later(s, s')
    && (forall x :: x != y && x in s.created && x in s'.live && OwnsKey(s, x) ==> OwnsKey(s', x))
  }

  lemma HistoryGrows(history: seq<LockStore>, s': LockStore)
    requires HistoryOk(history) && Consistent(s') && Later(history[|history| - 1], s')
    ensures HistoryOk(history + [s'])
  {
  }

  /** A write by handle `h` about its session `y` keeps the invariant if it keeps `h`'s own part. */
  lemma WriteKeepsInv(st: State, h: nat, hd: Handle, s': LockStore, y: string)
    requires Inv(st) && h in st.handles && Frame(Current(st), s', y)
    requires y == "" || Owns(st.owner, h, y)
    requires HandleOk(st.history + [s'], st.owner, h, hd)
    ensures Inv(SetHandle(Write(st, s'), h, hd))
  {
    HistoryGrows(st.history, s');
    assert "" !in st.owner;
    forall id | id in st.handles && id != h ensures HandleOk(st.history + [s'], st.owner, id, st.handles[id]) {
      assert HandleOk(st.history, st.owner, id, st.handles[id]);
    }
  }

  lemma CallFrames(s: LockStore, idx: nat, c: Command<Key, string>, fate: Fate)
    requires Consistent(s) && idx > s.index
    requires c.Lock? || c.Unlock?
    ensures Frame(s, Call(s, idx, c, fate).0, c.session)
    ensures c.Lock? && Call(s, idx, c, fate).1 == Answer(true) ==> OwnsKey(Call(s, idx, c, fate).0, c.session)
  {
    assert c.key == LockKey;
    if fate.Delivered? || fate.LostAfter? {
      ApplyAdvances(s, idx, c);
    }
  }

  /** A check-and-delete from any past read that saw no session never deletes a held key. */
  lemma DeleteFrames(from: LockStore, s: LockStore, idx: nat, fate: Fate)
    requires Consistent(from) && Consistent(s) && Later(from, s) && idx > s.index && MayDelete(from)
    ensures var s' := Call(s, idx, DeleteCas(LockKey, from.kvs[LockKey].modifyIndex), fate).0;
            Frame(s, s', "") && (LockKey in s.kvs && LockKey !in s'.kvs ==> s.kvs[LockKey].session == "")
  {
    var c := Command<Key, string>.DeleteCas(LockKey, from.kvs[LockKey].modifyIndex);
    if fate.Delivered? || fate.LostAfter? {
      ApplyAdvances(s, idx, c);
    }
    assert "" !in s.created;
  }

  lemma EnvironmentFrames(s: LockStore, idx: nat, c: Command<Key, string>)
    requires Consistent(s) && idx > s.index && (c.CreateSession? || c.DestroySession?)
    ensures Frame(s, Apply(s, idx, c).0, "")
  {
    ApplyAdvances(s, idx, c);
  }

  /** A handle works with a session of its own. */
  lemma UsesOwned(st: State, h: nat)
    requires Inv(st) && h in st.handles && Uses(st.handles[h]).Some?
    ensures Owns(st.owner, h, Uses(st.handles[h]).value) && Uses(st.handles[h]).value != ""
  {
    assert HandleOk(st.history, st.owner, h, st.handles[h]);
  }

  /** A write about a session `y` that no handle works with keeps every handle's part. */
  lemma EnvironmentKeeps(st: State, s': LockStore, y: string, owner': map<string, nat>)
    requires Inv(st) && Frame(Current(st), s', y)
    requires forall id :: id in st.handles ==> Uses(st.handles[id]) != Some(y)
    requires owner'.Keys <= s'.created && (forall x :: x in st.owner ==> x in owner' && owner'[x] == st.owner[x])
    ensures Inv(State(st.history + [s'], st.handles, owner'))
  {
    HistoryGrows(st.history, s');
    forall id | id in st.handles ensures HandleOk(st.history + [s'], owner', id, st.handles[id]) {
      assert HandleOk(st.history, st.owner, id, st.handles[id]);
    }
  }

  /** No handle works with the empty session. */
  lemma NobodyUsesEmpty(st: State)
    requires Inv(st)
    ensures forall id :: id in st.handles ==> Uses(st.handles[id]) != Some("")
  {
    forall id | id in st.handles && Uses(st.handles[id]).Some? ensures Uses(st.handles[id]).value != "" {
      UsesOwned(st, id);
    }
  }

  lemma TakeKeyKeeps(st: State, h: nat, v: string, idx: nat, fate: Fate)
    requires Inv(st) && Enabled(st, TakeKey(h, v, idx, fate))
    ensures Inv(Step(st, TakeKey(h, v, idx, fate)))
  {
    var hd, c := st.handles[h], Lock(LockKey, v, LOCK_FLAG, st.handles[h].lockSession);
    CallFrames(Current(st), idx, c, fate);
    var (s', reply) := Call(Current(st), idx, c, fate);
    var hd' := match reply
      case Answer(ok) => if ok then hd.(isHeld := true, pc := Idle) else hd.(pc := Trying)
      case Refused => hd.(pc := Idle);
    WriteKeepsInv(st, h, hd', s', hd.lockSession);
  }

  lemma FreeKeyKeeps(st: State, h: nat, v: string, idx: nat, fate: Fate)
    requires Inv(st) && Enabled(st, FreeKey(h, v, idx, fate))
    ensures Inv(Step(st, FreeKey(h, v, idx, fate)))
  {
    var hd, c := st.handles[h], Unlock(LockKey, v, LOCK_FLAG, st.handles[h].pc.session);
    CallFrames(Current(st), idx, c, fate);
    var s' := Call(Current(st), idx, c, fate).0;
    WriteKeepsInv(st, h, hd.(pc := Idle, freed := |st.history|), s', hd.pc.session);
  }

  lemma DeleteKeyKeeps(st: State, h: nat, idx: nat, fate: Fate)
    requires Inv(st) && Enabled(st, DeleteKey(h, idx, fate))
    ensures Inv(Step(st, DeleteKey(h, idx, fate)))
  {
    var hd := st.handles[h];
    var from := st.history[hd.pc.read];
    DeleteFrames(from, Current(st), idx, fate);
    var s' := Call(Current(st), idx, DeleteCas(LockKey, from.kvs[LockKey].modifyIndex), fate).0;
    WriteKeepsInv(st, h, hd.(pc := Idle), s', "");
  }

  lemma StepKeepsInv(st: State, a: Action)
    requires Inv(st) && Enabled(st, a) && LockReadIsSafe(st, a)
    ensures Inv(Step(st, a))
  {
    var s := Current(st);
    match a
    case NewSession(h, x, b, idx) =>
      EnvironmentFrames(s, idx, CreateSession(x, b));
      NobodyUsesEmpty(st);
      EnvironmentKeeps(st, Apply(s, idx, CreateSession(x, b)).0, "", st.owner[x := h]);
    case Invalidate(x, idx) =>
      EnvironmentFrames(s, idx, DestroySession(x));
      NobodyUsesEmpty(st);
      EnvironmentKeeps(st, Apply(s, idx, DestroySession(x)).0, "", st.owner);
    case TakeKey(h, v, idx, fate) => TakeKeyKeeps(st, h, v, idx, fate);
    case FreeKey(h, v, idx, fate) => FreeKeyKeeps(st, h, v, idx, fate);
    case DeleteKey(h, idx, fate) => DeleteKeyKeeps(st, h, idx, fate);
    case _ => LocalStepsKeep(st, a);
  }

  lemma LocalStepsKeep(st: State, a: Action)
    requires Inv(st) && Enabled(st, a) && LockReadIsSafe(st, a)
    requires a.BeginLock? || a.ReadForLock? || a.BecomeHeld? || a.GiveUp? || a.BeginUnlock? || a.ReadForDestroy?
    ensures Inv(Step(st, a))
  {
    assert HandleOk(st.history, st.owner, a.h, st.handles[a.h]);
  }

  /** A read keeps the invariant if and only if it is safe. */
  lemma SafeReadIsExact(st: State, h: nat, read: nat)
    requires Inv(st) && Enabled(st, ReadForLock(h, read))
    ensures Inv(Step(st, ReadForLock(h, read))) <==> LockReadIsSafe(st, ReadForLock(h, read))
  {
    var a := ReadForLock(h, read);
    if LockReadIsSafe(st, a) {
      StepKeepsInv(st, a);
    } else {
      var st' := Step(st, a);
      assert st'.handles[h].pc.SawOwn? && !HandleOk(st'.history, st'.owner, h, st'.handles[h]);
    }
  }

  /** After an unsafe read the next step makes a live handle hold a key it does not own. */
  lemma UnsafeReadBreaksExclusion(st: State, h: nat, read: nat)
    requires Inv(st) && Enabled(st, ReadForLock(h, read)) && !LockReadIsSafe(st, ReadForLock(h, read))
    ensures var mid := Step(st, ReadForLock(h, read));
            && Enabled(mid, BecomeHeld(h))
            && Holds(Step(mid, BecomeHeld(h)), h)
            && !OwnsKey(Current(Step(mid, BecomeHeld(h))), st.handles[h].lockSession)
  {
  }

  /** A read that shows another owner, or none, may be arbitrarily old. */
  lemma ForeignReadIsSafe(st: State, h: nat, read: nat)
    requires Inv(st) && Enabled(st, ReadForLock(h, read))
    requires !OwnsKey(st.history[read], st.handles[h].lockSession)
    ensures LockReadIsSafe(st, ReadForLock(h, read)) && LockReadIsRecent(st, ReadForLock(h, read))
  {
  }

  lemma RunKeepsInv(st: State, acts: seq<Action>, end: State)
    requires Inv(st) && Reaches(SafeStep, st, acts, end)
    ensures Inv(end)
  {
    forall s, a | Inv(s) && SafeStep(s, a).Some? ensures Inv(SafeStep(s, a).value) {
      StepKeepsInv(s, a);
    }
    RunKeeps(Inv, SafeStep, st, acts, end);
  }

  // ---- recent reads are safe ----

  /** If a session is live and owned the key at any moment from `from` on, it owns the key now. */
  ghost predicate OwnedSince(history: seq<LockStore>, from: nat, x: string)
    requires history != []
  {
    var s := history[|history| - 1];
    x in s.live ==> forall i :: from <= i < |history| && OwnsKey(history[i], x) ==> OwnsKey(s, x)
  }

  lemma OwnedSinceAppend(history: seq<LockStore>, s': LockStore, from: nat, x: string)
    requires history != [] && OwnedSince(history, from, x)
    requires x in history[|history| - 1].created && Later(history[|history| - 1], s')
    requires x in s'.live && OwnsKey(history[|history| - 1], x) ==> OwnsKey(s', x)
    ensures OwnedSince(history + [s'], from, x)
  {
    assert forall i :: 0 <= i < |history| ==> (history + [s'])[i] == history[i];
  }

  /** Before a session was created nobody saw it own the key. */
  lemma OwnedSinceCreation(history: seq<LockStore>, s': LockStore, from: nat, x: string)
    requires HistoryOk(history) && x != "" && x !in history[|history| - 1].created
    ensures OwnedSince(history + [s'], from, x)
  {
    forall i | 0 <= i < |history| ensures !OwnsKey((history + [s'])[i], x) {
      assert Consistent(history[i]) && Later(history[i], history[|history| - 1]);
    }
  }

  ghost predicate RecentInv(st: State) {
    && Inv(st)
    && forall h, x :: h in st.handles && Owns(st.owner, h, x) ==> OwnedSince(st.history, st.handles[h].freed, x)
  }

  /** The handle that an action lets unlock its session, if any. */
  function Unlocker(a: Action): Option<nat> {
    if a.FreeKey? then Some(a.h) else None
  }

  /** What a step does to the history, to the places of last unlocks and to the owners of sessions. */
  ghost predicate Moves(st: State, st': State, g: Option<nat>)
    requires st.history != [] && st'.history != []
  {
    && (st'.history == st.history || st'.history == st.history + [Current(st')])
    && (g.Some? ==> st'.history != st.history)
    && (forall h :: h in st'.handles ==>
          h in st.handles && st'.handles[h].freed == if g == Some(h) then |st.history| else st.handles[h].freed)
    && (forall x :: x in st'.owner && !(x in st.owner && st.owner[x] == st'.owner[x]) ==>
          x !in Current(st).created && st'.history != st.history)
  }

  lemma StepMoves(st: State, a: Action)
    requires st.history != [] && Enabled(st, a)
    ensures Moves(st, Step(st, a), Unlocker(a))
  {
  }

  /** The key is taken from no live session, except from one of `g`'s own. */
  ghost predicate KeepsOwners(st: State, s': LockStore, g: Option<nat>)
    requires st.history != []
  {
    forall x :: x in st.owner && g != Some(st.owner[x]) && x in s'.live && OwnsKey(Current(st), x) ==> OwnsKey(s', x)
  }

  lemma StepKeepsOwners(st: State, a: Action)
    requires Inv(st) && Enabled(st, a)
    ensures KeepsOwners(st, Current(Step(st, a)), Unlocker(a))
  {
    var s := Current(st);
    match a
    case NewSession(h, x, b, idx) => EnvironmentFrames(s, idx, CreateSession(x, b));
    case Invalidate(x, idx) => EnvironmentFrames(s, idx, DestroySession(x));
    case TakeKey(h, v, idx, fate) => CallFrames(s, idx, Lock(LockKey, v, LOCK_FLAG, st.handles[h].lockSession), fate);
    case FreeKey(h, v, idx, fate) =>
      assert HandleOk(st.history, st.owner, h, st.handles[h]);
      CallFrames(s, idx, Unlock(LockKey, v, LOCK_FLAG, st.handles[h].pc.session), fate);
    case DeleteKey(h, idx, fate) =>
      assert HandleOk(st.history, st.owner, h, st.handles[h]);
      DeleteFrames(st.history[st.handles[h].pc.read], s, idx, fate);
    case _ =>
  }

  lemma RecentIsSafe(st: State, a: Action)
    requires RecentInv(st) && Enabled(st, a) && LockReadIsRecent(st, a)
    ensures LockReadIsSafe(st, a)
  {
    if a.ReadForLock? {
      assert HandleOk(st.history, st.owner, a.h, st.handles[a.h]);
      assert OwnedSince(st.history, st.handles[a.h].freed, st.handles[a.h].lockSession);
    }
  }

  lemma StillOwned(history: seq<LockStore>, history': seq<LockStore>, from: nat, x: string)
    requires HistoryOk(history) && HistoryOk(history') && x != ""
    requires history' == history || history' == history + [history'[|history'| - 1]]
    requires var s, s' := history[|history| - 1], history'[|history'| - 1];
             if x in s.created
             then OwnedSince(history, from, x) && (x in s'.live && OwnsKey(s, x) ==> OwnsKey(s', x))
             else history' != history
    ensures OwnedSince(history', from, x)
  {
    var s, s' := history[|history| - 1], history'[|history'| - 1];
    if history' != history {
      if x in s.created {
        assert Later(s, s') by { assert history'[|history| - 1] == s; }
        OwnedSinceAppend(history, s', from, x);
      } else {
        OwnedSinceCreation(history, s', from, x);
      }
    }
  }

  lemma MovesKeepOwned(st: State, st': State, g: Option<nat>, h: nat, x: string)
    requires RecentInv(st) && Inv(st') && Moves(st, st', g) && KeepsOwners(st, Current(st'), g)
    requires h in st'.handles && Owns(st'.owner, h, x)
    ensures OwnedSince(st'.history, st'.handles[h].freed, x)
  {
    assert x != "";
    if g != Some(h) {
      assert Owns(st.owner, h, x) ==> OwnedSince(st.history, st.handles[h].freed, x);
      StillOwned(st.history, st'.history, st.handles[h].freed, x);
    }
  }

  lemma MovesKeepRecent(st: State, st': State, g: Option<nat>)
    requires RecentInv(st) && Inv(st') && Moves(st, st', g) && KeepsOwners(st, Current(st'), g)
    ensures RecentInv(st')
  {
    forall h, x | h in st'.handles && Owns(st'.owner, h, x)
      ensures OwnedSince(st'.history, st'.handles[h].freed, x)
    {
      MovesKeepOwned(st, st', g, h, x);
    }
  }

  lemma RecentStepKeeps(st: State, a: Action)
    requires RecentInv(st) && RecentStep(st, a).Some?
    ensures RecentInv(Step(st, a)) && SafeStep(st, a) == RecentStep(st, a)
  {
    RecentIsSafe(st, a);
    StepKeepsInv(st, a);
    StepMoves(st, a);
    StepKeepsOwners(st, a);
    MovesKeepRecent(st, Step(st, a), Unlocker(a));
  }

  /** If every read that shows the handle as owner is no older than its last unlock, all reads are safe. */
  lemma RecentRunsAreSafe(st: State, acts: seq<Action>, end: State)
    requires Init(st) && Reaches(RecentStep, st, acts, end)
    ensures Reaches(SafeStep, st, acts, end)
  {
    forall s, a | RecentInv(s) && RecentStep(s, a).Some?
      ensures RecentInv(RecentStep(s, a).value) && SafeStep(s, a) == RecentStep(s, a)
    {
      RecentStepKeeps(s, a);
    }
    RunRefines(RecentInv, RecentStep, SafeStep, st, acts, end);
  }

  // ---- the results ----

  /** Every live handle that holds the lock owns the key, so at most one does. */
  lemma LockIsExclusive(st: State, acts: seq<Action>, end: State)
    requires Init(st) && Reaches(SafeStep, st, acts, end)
    ensures end.history != []
    ensures forall h :: Holds(end, h) ==> OwnsKey(Current(end), end.handles[h].lockSession)
    ensures forall g, h :: Holds(end, g) && Holds(end, h) ==> g == h
  {
    RunKeepsInv(st, acts, end);
    InvIsExclusive(end);
  }

  lemma InvIsExclusive(end: State)
    requires Inv(end)
    ensures forall h :: Holds(end, h) ==> OwnsKey(Current(end), end.handles[h].lockSession)
    ensures forall g, h :: Holds(end, g) && Holds(end, h) ==> g == h
  {
    forall h | Holds(end, h)
      ensures OwnsKey(Current(end), end.handles[h].lockSession) && Owns(end.owner, h, end.handles[h].lockSession)
    {
      assert HandleOk(end.history, end.owner, h, end.handles[h]);
    }
  }

  lemma DeletedKeyWasFree(mid: State, h: nat, idx: nat, fate: Fate)
    requires Inv(mid) && Enabled(mid, DeleteKey(h, idx, fate))
    requires LockKey in Current(mid).kvs && LockKey !in Current(Step(mid, DeleteKey(h, idx, fate))).kvs
    ensures Current(mid).kvs[LockKey].session == "" && "" !in Current(mid).live
  {
  }

  /** When a destroy deletes the key, no session owns it and no live handle holds the lock. */
  lemma DestroySparesHolder(st: State, acts: seq<Action>, mid: State, h: nat, idx: nat, fate: Fate)
    requires Init(st) && Reaches(SafeStep, st, acts, mid)
    requires mid.history != [] && Enabled(mid, DeleteKey(h, idx, fate))
    requires LockKey in Current(mid).kvs && LockKey !in Current(Step(mid, DeleteKey(h, idx, fate))).kvs
    ensures Current(mid).kvs[LockKey].session == ""
    ensures forall g :: !Holds(mid, g)
  {
    LockIsExclusive(st, acts, mid);
    RunKeepsInv(st, acts, mid);
    DeletedKeyWasFree(mid, h, idx, fate);
  }

  /** With fresh reads the monitor of a held lock keeps watching exactly while the session is live. */
  lemma MonitorIsExact(st: State, acts: seq<Action>, end: State, h: nat)
    requires Init(st) && Reaches(SafeStep, st, acts, end) && h in end.handles && end.handles[h].isHeld
    ensures end.history != []
    ensures MonitorKeepsLock(Current(end), end.handles[h].lockSession)
            <==> end.handles[h].lockSession in Current(end).live
  {
    RunKeepsInv(st, acts, end);
    assert HandleOk(end.history, end.owner, h, end.handles[h]);
    assert Consistent(Current(end));
  }
}
