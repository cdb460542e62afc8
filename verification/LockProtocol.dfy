/**
  The leader-election lock: any number of handles over one key. As for the
  semaphore, calls interleave, replies get lost and sessions die at any time, and
  reads may be arbitrarily old.
 */
module LockProtocol {
  import opened Basics
  import opened KvStore

  /** Magic flag that marks a key as used by a lock. */
  const LOCK_FLAG: nat := 0x2ddccbc058a50c18

  datatype Key = LockKey

  type LockStore = Store<Key, string>

  /** Where a handle stands between two calls; `read` is the snapshot it acted on. */
  datatype Pc = Idle | Trying | Acquiring | SawOwn | Unlocking(session: string) | Destroying(read: nat)

  /** `freed` is the place in the history of the handle's last unlock; the code does not keep it. */
  datatype Handle = Handle(isHeld: bool, lockSession: string, pc: Pc, freed: nat)

  datatype State = State(history: seq<LockStore>, handles: map<nat, Handle>, owner: map<string, nat>)

  /** `Delayed` is a lock that the leader rejects while a lock-delay is in effect. */
  datatype Fate = Delivered | LostAfter | LostBefore | Delayed

  datatype Action =
    | NewSession(h: nat, session: string, behavior: Behavior, idx: nat)
    | Invalidate(session: string, idx: nat)
    | BeginLock(h: nat, session: string)
    | ReadForLock(h: nat, read: nat)
    | TakeKey(h: nat, value: string, idx: nat, fate: Fate)
    | BecomeHeld(h: nat)
    | GiveUp(h: nat)
    | BeginUnlock(h: nat)
    | FreeKey(h: nat, value: string, idx: nat, fate: Fate)
    | ReadForDestroy(h: nat, read: nat)
    | DeleteKey(h: nat, idx: nat, fate: Fate)

  function Current(st: State): LockStore
    requires st.history != []
  {
    st.history[|st.history| - 1]
  }

  predicate OwnsKey(s: LockStore, x: string) {
    LockKey in s.kvs && s.kvs[LockKey].session == x
  }

  /** What the acquire loop does after a read of the key. */
  function AfterRead(s: LockStore, session: string): Pc {
    if LockKey in s.kvs && s.kvs[LockKey].flags != LOCK_FLAG then Idle
    else if LockKey in s.kvs && s.kvs[LockKey].session == session then SawOwn
    else if LockKey in s.kvs && s.kvs[LockKey].session != "" then Trying
    else Acquiring
  }

  /** Whether a destroy goes on to delete the key it read. */
  predicate MayDelete(s: LockStore) {
    LockKey in s.kvs && s.kvs[LockKey].flags == LOCK_FLAG && s.kvs[LockKey].session == ""
  }

  /** Whether the ownership monitor keeps watching after this read. */
  predicate MonitorKeepsLock(s: LockStore, session: string) {
    LockKey in s.kvs && s.kvs[LockKey].session == session
  }

  function Call(s: LockStore, idx: nat, c: Command<Key, string>, fate: Fate): (LockStore, Reply) {
    match fate
    case Delivered => Apply(s, idx, c)
    case LostAfter => (Apply(s, idx, c).0, Refused)
    case LostBefore => (s, Refused)
    case Delayed => (s, Answer(false))
  }

  function SetHandle(st: State, h: nat, hd: Handle): State {
    st.(handles := st.handles[h := hd])
  }

  function Write(st: State, s: LockStore): State {
    st.(history := st.history + [s])
  }

  predicate Enabled(st: State, a: Action)
    requires st.history != []
  {
    && (a.NewSession? || a.Invalidate? || a.h in st.handles)
    && match a
       case NewSession(h, x, b, idx) =>
         h in st.handles && idx > Current(st).index && x != "" && x !in Current(st).created
       case Invalidate(x, idx) => idx > Current(st).index
       case BeginLock(h, x) => st.handles[h].pc.Idle? && !st.handles[h].isHeld && x in st.owner && st.owner[x] == h
       case ReadForLock(h, read) => st.handles[h].pc.Trying? && read < |st.history|
       case TakeKey(h, v, idx, fate) => st.handles[h].pc.Acquiring? && idx > Current(st).index
       case BecomeHeld(h) => st.handles[h].pc.SawOwn?
       case GiveUp(h) => !st.handles[h].pc.Idle?
       case BeginUnlock(h) => st.handles[h].pc.Idle? && st.handles[h].isHeld
       case FreeKey(h, v, idx, fate) => st.handles[h].pc.Unlocking? && idx > Current(st).index
       case ReadForDestroy(h, read) => st.handles[h].pc.Idle? && !st.handles[h].isHeld && read < |st.history|
       case DeleteKey(h, idx, fate) =>
         st.handles[h].pc.Destroying? && idx > Current(st).index && st.handles[h].pc.read < |st.history|
         && LockKey in st.history[st.handles[h].pc.read].kvs
  }

  function Step(st: State, a: Action): State
    requires st.history != [] && Enabled(st, a)
  {
    var s := Current(st);
    match a
    case NewSession(h, x, b, idx) =>
      Write(st, Apply(s, idx, CreateSession(x, b)).0).(owner := st.owner[x := h])
    case Invalidate(x, idx) => Write(st, Apply(s, idx, DestroySession(x)).0)
    case BeginLock(h, x) => SetHandle(st, h, st.handles[h].(isHeld := false, lockSession := x, pc := Trying))
    case ReadForLock(h, read) =>
      SetHandle(st, h, st.handles[h].(pc := AfterRead(st.history[read], st.handles[h].lockSession)))
    case TakeKey(h, v, idx, fate) =>
      var hd := st.handles[h];
      var (s', reply) := Call(s, idx, Lock(LockKey, v, LOCK_FLAG, hd.lockSession), fate);
      SetHandle(Write(st, s'), h,
                match reply
                case Answer(ok) => if ok then hd.(isHeld := true, pc := Idle) else hd.(pc := Trying)
                case Refused => hd.(pc := Idle))
    case BecomeHeld(h) => SetHandle(st, h, st.handles[h].(isHeld := true, pc := Idle))
    case GiveUp(h) => SetHandle(st, h, st.handles[h].(pc := Idle))
    case BeginUnlock(h) =>
      var hd := st.handles[h];
      SetHandle(st, h, Handle(false, "", Unlocking(hd.lockSession), hd.freed))
    case FreeKey(h, v, idx, fate) =>
      var hd := st.handles[h];
      SetHandle(Write(st, Call(s, idx, Unlock(LockKey, v, LOCK_FLAG, hd.pc.session), fate).0), h,
                hd.(pc := Idle, freed := |st.history|))
    case ReadForDestroy(h, read) =>
      SetHandle(st, h, st.handles[h].(pc := if MayDelete(st.history[read]) then Destroying(read) else Idle))
    case DeleteKey(h, idx, fate) =>
      var hd := st.handles[h];
      var c := DeleteCas(LockKey, st.history[hd.pc.read].kvs[LockKey].modifyIndex);
      SetHandle(Write(st, Call(s, idx, c, fate).0), h, hd.(pc := Idle))
  }

  /** A read that shows the handle as the owner is still true, or the session is dead; any other read may be old. */
  predicate LockReadIsSafe(st: State, a: Action)
    requires st.history != [] && Enabled(st, a)
  {
    a.ReadForLock? ==>
      var x := st.handles[a.h].lockSession;
      AfterRead(st.history[a.read], x).SawOwn? ==> x !in Current(st).live || OwnsKey(Current(st), x)
  }

  /** A read that shows the handle as the owner is not older than the handle's last unlock. */
  predicate LockReadIsRecent(st: State, a: Action)
    requires st.history != [] && Enabled(st, a)
  {
    a.ReadForLock? && AfterRead(st.history[a.read], st.handles[a.h].lockSession).SawOwn? ==>
      a.read >= st.handles[a.h].freed
  }

  ghost predicate Init(st: State) {
    && st.history == [Store(map[], 0, map[], {})]
    && (forall h :: h in st.handles ==> st.handles[h] == Handle(false, "", Idle, 0))
    && st.owner == map[]
  }

  /** A step with a read of any age; with a safe read only; with a recent read only. */
  function AnyStep(st: State, a: Action): Option<State> {
    if st.history != [] && Enabled(st, a) then Some(Step(st, a)) else None
  }

  function SafeStep(st: State, a: Action): Option<State> {
    if st.history != [] && Enabled(st, a) && LockReadIsSafe(st, a) then Some(Step(st, a)) else None
  }

  function RecentStep(st: State, a: Action): Option<State> {
    if st.history != [] && Enabled(st, a) && LockReadIsRecent(st, a) then Some(Step(st, a)) else None
  }

  /** The handle believes to hold the lock and its session is live. */
  predicate Holds(st: State, h: nat)
    requires st.history != []
  {
    h in st.handles && st.handles[h].isHeld && st.handles[h].lockSession in Current(st).live
  }
}
