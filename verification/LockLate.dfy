/**
  Writes that reach the store after their caller has given up on them and gone on. Which
  arrivals keep the invariant is decided exactly, and the lock is exclusive over every
  run of such arrivals.
 */
module LockLate {
  import opened Basics
  import opened KvStore
  import opened LockProtocol
  import opened LockSafety
  import opened Runs

  /** A write under way: for which session it was sent, or from which read. */
  datatype Sent = Take(session: string, value: string) | Free(session: string, value: string) | Erase(read: nat)

  datatype World = World(st: State, sent: set<Sent>)

  /** A handle sends the write it stands before and takes it for failed; a write arrives. */
  datatype Event = Does(a: Action) | Sends(h: nat, value: string) | Arrives(w: Sent, idx: nat)

  /** The session whose write it is; a key is deleted in nobody's name. */
  function Sender(w: Sent): string {
    if w.Erase? then "" else w.session
  }

  /** The write that a handle stands before. */
  function Next(hd: Handle, value: string): Option<Sent> {
    match hd.pc
    case Acquiring => Some(Take(hd.lockSession, value))
    case Unlocking(x) => Some(Free(x, value))
    case Destroying(read) => Some(Erase(read))
    case _ => None
  }

  predicate WellSent(st: State, w: Sent) {
    w.Erase? ==> w.read < |st.history| && LockKey in st.history[w.read].kvs
  }

  function CommandFor(st: State, w: Sent): Command<Key, string>
    requires WellSent(st, w)
  {
    match w
    case Take(x, v) => Lock(LockKey, v, LOCK_FLAG, x)
    case Free(x, v) => Unlock(LockKey, v, LOCK_FLAG, x)
    case Erase(read) => DeleteCas(LockKey, st.history[read].kvs[LockKey].modifyIndex)
  }

  predicate Possible(wd: World, e: Event) {
    && wd.st.history != []
    && match e
       case Does(a) => Enabled(wd.st, a) && LockReadIsSafe(wd.st, a)
       case Sends(h, v) => h in wd.st.handles && Next(wd.st.handles[h], v).Some?
       case Arrives(w, idx) => w in wd.sent && idx > Current(wd.st).index && WellSent(wd.st, w)
  }

  /** A deletion may arrive more than once; every other write arrives once. */
  function Happens(wd: World, e: Event): World
    requires Possible(wd, e)
  {
    match e
    case Does(a) => World(Step(wd.st, a), wd.sent)
    case Sends(h, v) => World(Step(wd.st, GiveUp(h)), wd.sent + {Next(wd.st.handles[h], v).value})
    case Arrives(w, idx) =>
      World(Write(wd.st, Apply(Current(wd.st), idx, CommandFor(wd.st, w)).0),
            if w.Erase? then wd.sent else wd.sent - {w})
  }

  function LateStep(wd: World, e: Event): Option<World> {
    if Possible(wd, e) then Some(Happens(wd, e)) else None
  }

  ghost predicate LateInit(wd: World) {
    Init(wd.st) && wd.sent == {}
  }

  // ---- which arrivals are harmless ----

  /** The session for which the handle has the key, or has found that it has. */
  function Claim(hd: Handle): Option<string> {
    if hd.isHeld || hd.pc.SawOwn? then Some(hd.lockSession) else None
  }

  /** A late unlock of a live session must find nobody who counts on the key for it; any other write may arrive. */
  predicate Harmless(st: State, w: Sent)
    requires st.history != []
  {
    w.Free? && w.session in Current(st).live ==> forall h :: h in st.handles ==> Claim(st.handles[h]) != Some(w.session)
  }

  /** A deletion was decided on from a read that showed the key free. */
  ghost predicate Decided(st: State, w: Sent) {
    w.Erase? ==> w.read < |st.history| && MayDelete(st.history[w.read])
  }

  /** The store offers what the handle counts on. */
  ghost predicate Serves(s: LockStore, hd: Handle) {
    Claim(hd).Some? && Claim(hd).value in s.live ==> OwnsKey(s, Claim(hd).value)
  }

  /** A new store keeps the invariant exactly if it serves every handle. */
  lemma InvIffServed(st: State, s': LockStore)
    requires Inv(st) && Consistent(s') && Later(Current(st), s') && st.owner.Keys <= s'.created
    ensures Inv(Write(st, s')) <==> forall h :: h in st.handles ==> Serves(s', st.handles[h])
  {
    HistoryGrows(st.history, s');
    forall h | h in st.handles
      ensures HandleOk(st.history + [s'], st.owner, h, st.handles[h]) <==> Serves(s', st.handles[h])
    {
      assert HandleOk(st.history, st.owner, h, st.handles[h]);
    }
  }

  /** A handle is still served by a store that keeps the key with its session. */
  lemma StillServed(st: State, s': LockStore, h: nat, y: string)
    requires Inv(st) && h in st.handles && Frame(Current(st), s', y)
    requires Claim(st.handles[h]) == Some(y) && y in s'.live ==> (OwnsKey(Current(st), y) ==> OwnsKey(s', y))
    ensures Serves(s', st.handles[h])
  {
    assert HandleOk(st.history, st.owner, h, st.handles[h]);
  }

  /** An unlock by the owner gives the key away. */
  lemma OwnUnlock(s: LockStore, idx: nat, x: string, v: string)
    requires Consistent(s) && idx > s.index && OwnsKey(s, x) && x in s.live && x != ""
    ensures var s' := Apply(s, idx, Unlock(LockKey, v, LOCK_FLAG, x)).0; x in s'.live && !OwnsKey(s', x)
  {
  }

  /** A lock by the owner leaves the key with it. */
  lemma LockedKeyStays(s: LockStore, s': LockStore, idx: nat, x: string, v: string)
    requires Consistent(s) && idx > s.index && s' == Apply(s, idx, Lock(LockKey, v, LOCK_FLAG, x)).0
    ensures x in s'.live && OwnsKey(s, x) ==> OwnsKey(s', x)
  {
  }

  lemma TakeArrives(st: State, x: string, v: string, idx: nat)
    requires Inv(st) && idx > Current(st).index
    ensures Inv(Write(st, Apply(Current(st), idx, Lock(LockKey, v, LOCK_FLAG, x)).0))
  {
    var s, s' := Current(st), Apply(Current(st), idx, Lock(LockKey, v, LOCK_FLAG, x)).0;
    CallFrames(s, idx, Lock(LockKey, v, LOCK_FLAG, x), Delivered);
    LockedKeyStays(s, s', idx, x, v);
    forall h | h in st.handles ensures Serves(s', st.handles[h]) {
      StillServed(st, s', h, x);
    }
    InvIffServed(st, s');
  }

  lemma EraseArrives(st: State, read: nat, idx: nat)
    requires Inv(st) && read < |st.history| && MayDelete(st.history[read]) && idx > Current(st).index
    ensures Inv(Write(st, Apply(Current(st), idx, DeleteCas(LockKey, st.history[read].kvs[LockKey].modifyIndex)).0))
  {
    var s' := Apply(Current(st), idx, DeleteCas(LockKey, st.history[read].kvs[LockKey].modifyIndex)).0;
    DeleteFrames(st.history[read], Current(st), idx, Delivered);
    NobodyUsesEmpty(st);
    forall h | h in st.handles ensures Serves(s', st.handles[h]) {
      StillServed(st, s', h, "");
    }
    InvIffServed(st, s');
  }

  lemma FreeArrives(st: State, x: string, v: string, idx: nat)
    requires Inv(st) && idx > Current(st).index
    ensures Inv(Write(st, Apply(Current(st), idx, Unlock(LockKey, v, LOCK_FLAG, x)).0)) <==> Harmless(st, Free(x, v))
  {
    var s, s' := Current(st), Apply(Current(st), idx, Unlock(LockKey, v, LOCK_FLAG, x)).0;
    CallFrames(s, idx, Unlock(LockKey, v, LOCK_FLAG, x), Delivered);
    InvIffServed(st, s');
    forall h | h in st.handles
      ensures Serves(s', st.handles[h]) <==> !(Claim(st.handles[h]) == Some(x) && x in s.live)
    {
      if Claim(st.handles[h]) == Some(x) && x in s.live {
        assert HandleOk(st.history, st.owner, h, st.handles[h]);
        UsesOwned(st, h);
        OwnUnlock(s, idx, x, v);
      } else {
        StillServed(st, s', h, x);
      }
    }
  }

  /** The arrival of a write keeps the invariant exactly if it is harmless. */
  lemma ArrivalIsExact(st: State, w: Sent, idx: nat)
    requires Inv(st) && Decided(st, w) && idx > Current(st).index && WellSent(st, w)
    ensures Inv(Write(st, Apply(Current(st), idx, CommandFor(st, w)).0)) <==> Harmless(st, w)
  {
    match w
    case Take(x, v) => TakeArrives(st, x, v, idx);
    case Free(x, v) => FreeArrives(st, x, v, idx);
    case Erase(read) => EraseArrives(st, read, idx);
  }

  // ---- runs of harmless arrivals ----

  function HarmlessStep(wd: World, e: Event): Option<World> {
    if Possible(wd, e) && (e.Arrives? ==> Harmless(wd.st, e.w)) then Some(Happens(wd, e)) else None
  }

  ghost predicate LateInv(wd: World) {
    && Inv(wd.st)
    && (forall w :: w in wd.sent ==> Decided(wd.st, w))
  }

  lemma StepExtends(st: State, a: Action)
    requires st.history != [] && Enabled(st, a)
    ensures st.history <= Step(st, a).history
  {
  }

  lemma DoesKeeps(wd: World, a: Action)
    requires LateInv(wd) && Possible(wd, Does(a))
    ensures LateInv(Happens(wd, Does(a)))
  {
    StepKeepsInv(wd.st, a);
    StepExtends(wd.st, a);
  }

  lemma SendsKeeps(wd: World, h: nat, value: string)
    requires LateInv(wd) && Possible(wd, Sends(h, value))
    ensures LateInv(Happens(wd, Sends(h, value)))
  {
    DoesKeeps(wd, GiveUp(h));
    assert HandleOk(wd.st.history, wd.st.owner, h, wd.st.handles[h]);
  }

  lemma ArrivesKeeps(wd: World, w: Sent, idx: nat)
    requires LateInv(wd) && Possible(wd, Arrives(w, idx)) && Harmless(wd.st, w)
    ensures LateInv(Happens(wd, Arrives(w, idx)))
  {
    ArrivalIsExact(wd.st, w, idx);
  }

  lemma HarmlessStepKeeps(wd: World, e: Event)
    requires LateInv(wd) && HarmlessStep(wd, e).Some?
    ensures LateInv(Happens(wd, e))
  {
    match e
    case Does(a) => DoesKeeps(wd, a);
    case Sends(h, v) => SendsKeeps(wd, h, v);
    case Arrives(w, idx) => ArrivesKeeps(wd, w, idx);
  }

  /**
    Writes may arrive arbitrarily late: over every run in which each is harmless when it
    arrives, every live holder owns the key, so there is at most one.
   */
  lemma LateWritesAreSafe(wd: World, events: seq<Event>, end: World)
    requires LateInit(wd) && Reaches(HarmlessStep, wd, events, end)
    ensures end.st.history != []
    ensures forall h :: Holds(end.st, h) ==> OwnsKey(Current(end.st), end.st.handles[h].lockSession)
    ensures forall g, h :: Holds(end.st, g) && Holds(end.st, h) ==> g == h
  {
    forall s, e | LateInv(s) && HarmlessStep(s, e).Some? ensures LateInv(HarmlessStep(s, e).value) {
      HarmlessStepKeeps(s, e);
    }
    RunKeeps(LateInv, HarmlessStep, wd, events, end);
    InvIsExclusive(end.st);
  }

  /** From any state with a holder whose unlock is under way, the unlock's arrival leaves it holding nothing. */
  lemma LateUnlockTakesKey(wd: World, h: nat, value: string, idx: nat)
    requires Inv(wd.st) && Holds(wd.st, h) && Free(wd.st.handles[h].lockSession, value) in wd.sent
    requires idx > Current(wd.st).index
    ensures var w := Free(wd.st.handles[h].lockSession, value);
            && Possible(wd, Arrives(w, idx))
            && var end := Happens(wd, Arrives(w, idx)).st;
               Holds(end, h) && !OwnsKey(Current(end), end.handles[h].lockSession)
  {
    assert HandleOk(wd.st.history, wd.st.owner, h, wd.st.handles[h]);
    UsesOwned(wd.st, h);
  }
}
