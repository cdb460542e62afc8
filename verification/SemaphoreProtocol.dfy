/**
  Any number of semaphore handles over one store. Handles interleave at every call
  to the server; a reply can be lost before or after the write took effect, a
  listing can be an arbitrarily old snapshot, and sessions can be invalidated at
  any time. A session belongs to one handle and its ID is never used again.
 */
module SemaphoreProtocol {
  import opened Basics
  import opened KvStore
  import opened SemaphoreSpec

  /** Where a handle stands between two calls; `read` is the snapshot it acted on. */
  datatype Pc =
    | Idle
    | NeedContender
    | Waiting
    | Swapping(read: nat)
    | Reading(session: string)
    | Unholding(session: string, read: nat)
    | Dropping(session: string)
    | Destroying(read: nat)

  /** `since` is the place in the history of the handle's last acquire write; the code does not keep it. */
  datatype Handle = Handle(isHeld: bool, lockSession: string, pc: Pc, since: nat)

  /** `history` holds every store so far, the current one last. */
  datatype State = State(limit: nat, history: seq<SemStore>, handles: map<nat, Handle>, owner: map<string, nat>)

  /** A call's reply arrives, or is lost after or before the write is applied. */
  datatype Fate = Delivered | LostAfter | LostBefore

  datatype Action =
    | NewSession(h: nat, session: string, behavior: Behavior, idx: nat)
    | Invalidate(session: string, idx: nat)
    | BeginAcquire(h: nat, session: string)
    | MakeContender(h: nat, payload: string, idx: nat, fate: Fate)
    | ListForAcquire(h: nat, read: nat)
    | SwapAcquire(h: nat, idx: nat, fate: Fate)
    | GiveUp(h: nat)
    | BeginRelease(h: nat)
    | ReadForRelease(h: nat, read: nat)
    | SwapRelease(h: nat, idx: nat, fate: Fate)
    | DropContender(h: nat, idx: nat, fate: Fate)
    | ListForDestroy(h: nat, read: nat)
    | SwapDestroy(h: nat, idx: nat, fate: Fate)

  function Current(st: State): SemStore
    requires st.history != []
  {
    st.history[|st.history| - 1]
  }

  function Holders(s: SemStore): set<string> {
    if LockKey in s.kvs && s.kvs[LockKey].value.LockValue? then s.kvs[LockKey].value.holders else {}
  }

  predicate HasContender(s: SemStore, x: string) {
    ContenderKey(x) in s.kvs && s.kvs[ContenderKey(x)].session == x
  }

  /** The store after a call and the reply the handle sees, `Refused` when it is lost. */
  function Call(s: SemStore, idx: nat, c: Command<Key, Value>, fate: Fate): (SemStore, Reply) {
    match fate
    case Delivered => Apply(s, idx, c)
    case LostAfter => (Apply(s, idx, c).0, Refused)
    case LostBefore => (s, Refused)
  }

  function SetHandle(st: State, h: nat, hd: Handle): State {
    st.(handles := st.handles[h := hd])
  }

  function Write(st: State, s: SemStore): State {
    st.(history := st.history + [s])
  }

  function ContenderCommand(session: string, payload: string): Command<Key, Value> {
    Lock(ContenderKey(session), ContenderValue(payload), SEMAPHORE_FLAG, session)
  }

  /** The check-and-set an acquiring handle sends, from the snapshot it read. */
  function AcquireCommand(st: State, read: nat, session: string): Command<Key, Value>
    requires read < |st.history| && TryAcquire(st.limit, st.history[read].kvs, session).Swap?
  {
    var a := TryAcquire(st.limit, st.history[read].kvs, session);
    Cas(LockKey, a.lock, SEMAPHORE_FLAG, a.cidx)
  }

  function ReleaseCommand(st: State, read: nat, session: string): Command<Key, Value>
    requires read < |st.history|
  {
    var pair := LockOf(st.history[read].kvs);
    var lock := Decoded(st.limit, pair.value);
    Cas(LockKey, if lock.LockValue? then lock.(holders := lock.holders - {session}) else lock,
        SEMAPHORE_FLAG, pair.modifyIndex)
  }

  function DestroyCommand(st: State, read: nat): Command<Key, Value>
    requires read < |st.history|
  {
    DeleteCas(LockKey, LockOf(st.history[read].kvs).modifyIndex)
  }

  /** The handle after the reply to its acquire write, which went to place `at` of the history. */
  function AfterAcquire(hd: Handle, reply: Reply, at: nat): Handle {
    match reply
    case Answer(ok) => if ok then hd.(isHeld := true, pc := Idle, since := at) else hd.(pc := Waiting)
    case Refused => hd.(pc := Idle)
  }

  /** The handle after the reply to its release write. */
  function AfterRelease(hd: Handle, reply: Reply): Handle
    requires hd.pc.Unholding?
  {
    hd.(pc := match reply
        case Answer(ok) => if ok then Dropping(hd.pc.session) else Reading(hd.pc.session)
        case Refused => Idle)
  }

  /** The handle that an action belongs to is at the right place in its code. */
  predicate Enabled(st: State, a: Action)
    requires st.history != []
  {
    && (a.NewSession? || a.Invalidate? || a.h in st.handles)
    && match a
       case NewSession(h, x, b, idx) =>
         h in st.handles && idx > Current(st).index && x != "" && x !in Current(st).created
       case Invalidate(x, idx) => idx > Current(st).index
       case BeginAcquire(h, x) =>
         st.handles[h].pc.Idle? && !st.handles[h].isHeld && x in st.owner && st.owner[x] == h
       case MakeContender(h, p, idx, fate) => st.handles[h].pc.NeedContender? && idx > Current(st).index
       case ListForAcquire(h, read) => st.handles[h].pc.Waiting? && read < |st.history|
       case SwapAcquire(h, idx, fate) =>
         && st.handles[h].pc.Swapping? && idx > Current(st).index
         && st.handles[h].pc.read < |st.history|
         && TryAcquire(st.limit, st.history[st.handles[h].pc.read].kvs, st.handles[h].lockSession).Swap?
       case GiveUp(h) => !st.handles[h].pc.Idle?
       case BeginRelease(h) => st.handles[h].pc.Idle? && st.handles[h].isHeld
       case ReadForRelease(h, read) => st.handles[h].pc.Reading? && read < |st.history|
       case SwapRelease(h, idx, fate) =>
         st.handles[h].pc.Unholding? && idx > Current(st).index && st.handles[h].pc.read < |st.history|
       case DropContender(h, idx, fate) => st.handles[h].pc.Dropping? && idx > Current(st).index
       case ListForDestroy(h, read) => st.handles[h].pc.Idle? && !st.handles[h].isHeld && read < |st.history|
       case SwapDestroy(h, idx, fate) =>
         st.handles[h].pc.Destroying? && idx > Current(st).index && st.handles[h].pc.read < |st.history|
  }

  function Step(st: State, a: Action): State
    requires st.history != [] && Enabled(st, a)
  {
    var s := Current(st);
    match a
    case NewSession(h, x, b, idx) =>
      Write(st, Apply(s, idx, CreateSession(x, b)).0).(owner := st.owner[x := h])
    case Invalidate(x, idx) => Write(st, Apply(s, idx, DestroySession(x)).0)
    case BeginAcquire(h, x) =>
      SetHandle(st, h, st.handles[h].(isHeld := false, lockSession := x, pc := NeedContender))
    case MakeContender(h, p, idx, fate) =>
      var hd := st.handles[h];
      var (s', reply) := Call(s, idx, ContenderCommand(hd.lockSession, p), fate);
      SetHandle(Write(st, s'), h, hd.(pc := if reply == Answer(true) then Waiting else Idle))
    case ListForAcquire(h, read) =>
      var hd := st.handles[h];
      var next := match TryAcquire(st.limit, st.history[read].kvs, hd.lockSession)
        case Wait => Waiting
        case Swap(_, _) => Swapping(read)
        case _ => Idle;
      SetHandle(st, h, hd.(pc := next))
    case SwapAcquire(h, idx, fate) =>
      var hd := st.handles[h];
      var (s', reply) := Call(s, idx, AcquireCommand(st, hd.pc.read, hd.lockSession), fate);
      SetHandle(Write(st, s'), h, AfterAcquire(hd, reply, |st.history|))
    case GiveUp(h) => SetHandle(st, h, st.handles[h].(pc := Idle))
    case BeginRelease(h) =>
      var hd := st.handles[h];
      SetHandle(st, h, Handle(false, "", Reading(hd.lockSession), hd.since))
    case ReadForRelease(h, read) =>
      var hd := st.handles[h];
      var lock := Decoded(st.limit, LockOf(st.history[read].kvs).value);
      SetHandle(st, h, hd.(pc := if !lock.LockValue? then Idle
                                 else if hd.pc.session in lock.holders then Unholding(hd.pc.session, read)
                                 else Dropping(hd.pc.session)))
    case SwapRelease(h, idx, fate) =>
      var hd := st.handles[h];
      var (s', reply) := Call(s, idx, ReleaseCommand(st, hd.pc.read, hd.pc.session), fate);
      SetHandle(Write(st, s'), h, AfterRelease(hd, reply))
    case DropContender(h, idx, fate) =>
      var hd := st.handles[h];
      SetHandle(Write(st, Call(s, idx, Delete(ContenderKey(hd.pc.session)), fate).0), h, hd.(pc := Idle))
    case ListForDestroy(h, read) =>
      var next := if TryDestroy(st.limit, st.history[read].kvs).Remove? then Destroying(read) else Idle;
      SetHandle(st, h, st.handles[h].(pc := next))
    case SwapDestroy(h, idx, fate) =>
      var hd := st.handles[h];
      SetHandle(Write(st, Call(s, idx, DestroyCommand(st, hd.pc.read), fate).0), h, hd.(pc := Idle))
  }

  /** The read that a release starts with lists the session as a holder, or the session is dead. */
  predicate ReleaseReadIsSafe(st: State, a: Action)
    requires st.history != [] && Enabled(st, a)
  {
    a.ReadForRelease? ==>
      var x := st.handles[a.h].pc.session;
      x in Holders(st.history[a.read]) || x !in Current(st).live
  }

  /** The read that a release starts with is not older than the handle's last acquire write. */
  predicate ReleaseReadIsRecent(st: State, a: Action)
    requires st.history != [] && Enabled(st, a)
  {
    a.ReadForRelease? ==> a.read >= st.handles[a.h].since
  }

  ghost predicate Init(st: State) {
    && 0 < st.limit
    && |st.history| == 1
    && st.history[0] == Store(map[], 0, map[], {})
    && (forall h :: h in st.handles ==> st.handles[h] == Handle(false, "", Idle, 0))
    && st.owner == map[]
  }

  /** A step with a read of any age; with a safe release read only; with a recent release read only. */
  function AnyStep(st: State, a: Action): Option<State> {
    if st.history != [] && Enabled(st, a) then Some(Step(st, a)) else None
  }

  function SafeStep(st: State, a: Action): Option<State> {
    if st.history != [] && Enabled(st, a) && ReleaseReadIsSafe(st, a) then Some(Step(st, a)) else None
  }

  function RecentStep(st: State, a: Action): Option<State> {
    if st.history != [] && Enabled(st, a) && ReleaseReadIsRecent(st, a) then Some(Step(st, a)) else None
  }

  /** The handles that believe to hold a slot and whose session is live. */
  function HoldingHandles(st: State): set<nat>
    requires st.history != []
  {
    set h | h in st.handles && st.handles[h].isHeld && st.handles[h].lockSession in Current(st).live
  }
}
