/**
  Writes that reach the store after their caller has given up on them and gone on. Which
  arrivals keep the invariant is decided exactly, and the semaphore is safe over every
  run of such arrivals.
 */
module SemaphoreLate {
  import opened Basics
  import opened KvStore
  import opened SemaphoreSpec
  import opened SemaphoreProtocol
  import opened SemaphoreAnyReads
  import opened SemaphoreSafety
  import opened SemaphoreTheorems
  import opened Runs

  /** A write under way: for which session it was sent, and from which listing. */
  datatype Sent =
    | Contend(session: string, payload: string)
    | Take(session: string, read: nat)
    | Give(session: string, read: nat)
    | Drop(session: string)
    | Erase(read: nat)

  datatype World = World(st: State, sent: set<Sent>)

  /** A handle sends the write it stands before and takes it for failed; a write arrives. */
  datatype Event = Does(a: Action) | Sends(h: nat, payload: string) | Arrives(w: Sent, idx: nat)

  /** The session whose write it is; an entry is removed in nobody's name. */
  function Sender(w: Sent): string {
    if w.Erase? then "" else w.session
  }

  /** The write that a handle stands before. */
  function Next(hd: Handle, payload: string): Option<Sent> {
    match hd.pc
    case NeedContender => Some(Contend(hd.lockSession, payload))
    case Swapping(read) => Some(Take(hd.lockSession, read))
    case Unholding(x, read) => Some(Give(x, read))
    case Dropping(x) => Some(Drop(x))
    case Destroying(read) => Some(Erase(read))
    case _ => None
  }

  /** The listing that the write was computed from still says what it said. */
  predicate WellSent(st: State, w: Sent) {
    match w
    case Take(x, read) => read < |st.history| && TryAcquire(st.limit, st.history[read].kvs, x).Swap?
    case Give(x, read) => read < |st.history|
    case Erase(read) => read < |st.history|
    case _ => true
  }

  function CommandFor(st: State, w: Sent): Command<Key, Value>
    requires WellSent(st, w)
  {
    match w
    case Contend(x, p) => ContenderCommand(x, p)
    case Take(x, read) => AcquireCommand(st, read, x)
    case Give(x, read) => ReleaseCommand(st, read, x)
    case Drop(x) => Delete(ContenderKey(x))
    case Erase(read) => DestroyCommand(st, read)
  }

  predicate Possible(wd: World, e: Event) {
    && wd.st.history != []
    && match e
       case Does(a) => Enabled(wd.st, a) && ReleaseReadIsSafe(wd.st, a)
       case Sends(h, p) => h in wd.st.handles && Next(wd.st.handles[h], p).Some?
       case Arrives(w, idx) => w in wd.sent && idx > Current(wd.st).index && WellSent(wd.st, w)
  }

  /** A removal may arrive more than once; every other write arrives once. */
  function Happens(wd: World, e: Event): World
    requires Possible(wd, e)
  {
    match e
    case Does(a) => World(Step(wd.st, a), wd.sent)
    case Sends(h, p) => World(Step(wd.st, GiveUp(h)), wd.sent + {Next(wd.st.handles[h], p).value})
    case Arrives(w, idx) =>
      World(Write(wd.st, Apply(Current(wd.st), idx, CommandFor(wd.st, w)).0),
            if w.Erase? then wd.sent else wd.sent - {w})
  }

  function LateStep(wd: World, e: Event): Option<World> {
    if Possible(wd, e) then Some(Happens(wd, e)) else None
  }

  ghost predicate LateInit(wd: World) {
    Init(wd.st) && wd.sent == {}
  }

  // ---- which arrivals are harmless ----

  /** The lock entry still has the index it had in the store at `read`. */
  predicate Unchanged(st: State, read: nat)
    requires read < |st.history|
  {
    LockOf(Current(st).kvs).modifyIndex == LockOf(st.history[read].kvs).modifyIndex
  }

  /** The handle counts on the contender entry of the session. */
  predicate Awaits(hd: Handle, x: string) {
    (hd.pc.Waiting? || hd.pc.Swapping?) && hd.lockSession == x
  }

  /**
    A late write about a dead session does nothing, and one whose index has moved on fails.
    Otherwise a release must find nobody with the slot, the delete of a contender entry
    nobody who counts on it, and an acquire its contender entry, in no hand that drops it.
   */
  predicate Harmless(st: State, w: Sent)
    requires st.history != [] && WellSent(st, w)
  {
    var s := Current(st);
    match w
    case Contend(_, _) => true
    case Take(x, read) =>
      x in s.live && Unchanged(st, read) ==>
        HasContender(s, x) && forall h :: h in st.handles ==> st.handles[h].pc != Dropping(x)
    case Give(x, read) =>
      x in s.live && Unchanged(st, read) ==> forall h :: h in st.handles ==> Claim(st.handles[h]) != Some(x)
    case Drop(x) =>
      x in s.live ==> x !in Holders(s) && forall h :: h in st.handles ==> !Awaits(st.handles[h], x)
    case Erase(_) => true
  }

  /** The write was decided on in some state of the run, by the handle that owns its session. */
  ghost predicate Decided(st: State, w: Sent) {
    && (w.Erase? || Sender(w) in st.owner)
    && match w
       case Take(x, read) => read < |st.history| && TryAcquire(st.limit, st.history[read].kvs, x).Swap?
       case Give(x, read) => read < |st.history| && x in Holders(st.history[read])
       case Erase(read) => read < |st.history| && TryDestroy(st.limit, st.history[read].kvs).Remove?
       case _ => true
  }

  // ---- what a handle needs of the store ----

  /** The store offers what the handle counts on at its place. */
  ghost predicate Serves(s: SemStore, hd: Handle) {
    && (Claim(hd).Some? && Claim(hd).value in s.live ==> Claim(hd).value in Holders(s))
    && ((hd.pc.Waiting? || hd.pc.Swapping?) && hd.lockSession in s.live ==> HasContender(s, hd.lockSession))
    && (hd.pc.Dropping? && hd.pc.session in s.live ==> hd.pc.session !in Holders(s))
  }

  lemma ServedHandle(limit: nat, history: seq<SemStore>, owner: map<string, nat>, id: nat, hd: Handle, s': SemStore)
    requires history != [] && HandleOk(limit, history, owner, id, hd)
    ensures Serves(history[|history| - 1], hd)
    ensures HandleOk(limit, history + [s'], owner, id, hd) <==> Serves(s', hd)
  {
  }

  /** Every handle that works with `x` is served. */
  ghost predicate AllServed(st: State, s': SemStore, x: string) {
    forall h :: h in st.handles && Uses(st.handles[h]) == Some(x) ==> Serves(s', st.handles[h])
  }

  lemma InvServes(st: State, s': SemStore, x: string)
    requires Inv(st) && Inv(Write(st, s'))
    ensures AllServed(st, s', x)
  {
    forall h | h in st.handles ensures Serves(s', st.handles[h]) {
      assert HandleOk(st.limit, st.history + [s'], st.owner, h, Write(st, s').handles[h]);
      ServedHandle(st.limit, st.history, st.owner, h, st.handles[h], s');
    }
  }

  lemma ServedInv(st: State, s': SemStore, x: string)
    requires Inv(st) && StoreOk(st.limit, s') && Frame(Current(st), s', x) && AllServed(st, s', x)
    ensures Inv(Write(st, s'))
  {
    HistoryGrows(st.limit, st.history, s');
    forall h | h in st.handles ensures HandleOk(st.limit, st.history + [s'], st.owner, h, st.handles[h]) {
      if Uses(st.handles[h]) == Some(x) {
        ServedHandle(st.limit, st.history, st.owner, h, st.handles[h], s');
      } else {
        OtherHandleKept(st.limit, st.history, st.owner, h, st.handles[h], s', x);
      }
    }
  }

  /** After a write about `x`, the handles that work with `x` decide about the invariant. */
  lemma InvIffServed(st: State, s': SemStore, x: string)
    requires Inv(st) && StoreOk(st.limit, s') && Frame(Current(st), s', x)
    ensures Inv(Write(st, s')) <==> AllServed(st, s', x)
  {
    if Inv(Write(st, s')) {
      InvServes(st, s', x);
    }
    if AllServed(st, s', x) {
      ServedInv(st, s', x);
    }
  }

  lemma InvNeedsStore(st: State, s': SemStore)
    requires Inv(Write(st, s'))
    ensures StoreOk(st.limit, s')
  {
    assert Write(st, s').history[|st.history|] == s';
  }

  /** Whoever was served is served still, if nothing changed for its session. */
  lemma StillServed(st: State, s': SemStore, x: string, h: nat)
    requires Inv(st) && h in st.handles && Uses(st.handles[h]) == Some(x)
    requires x in s'.live ==> x in Current(st).live
    requires x in s'.live ==> (x in Holders(Current(st)) <==> x in Holders(s'))
    requires x in s'.live && HasContender(Current(st), x) ==> HasContender(s', x)
    ensures Serves(s', st.handles[h])
  {
    ServedHandle(st.limit, st.history, st.owner, h, st.handles[h], s');
  }

  // ---- the five kinds of arrival ----

  lemma ContendArrives(st: State, x: string, payload: string, idx: nat)
    requires Inv(st) && idx > Current(st).index
    ensures Inv(Write(st, Apply(Current(st), idx, ContenderCommand(x, payload)).0))
  {
    var s, s' := Current(st), Apply(Current(st), idx, ContenderCommand(x, payload)).0;
    ContenderLockKeeps(st.limit, s, idx, x, payload, Delivered);
    ContenderLockEffect(s, idx, x, payload);
    InvIffServed(st, s', x);
    forall h | h in st.handles && Uses(st.handles[h]) == Some(x) ensures Serves(s', st.handles[h]) {
      StillServed(st, s', x, h);
    }
  }

  lemma EraseArrives(st: State, read: nat, idx: nat)
    requires Inv(st) && Decided(st, Erase(read)) && idx > Current(st).index
    ensures Inv(Write(st, Apply(Current(st), idx, DestroyCommand(st, read)).0))
  {
    DestroySwapKeeps(st.limit, st.history[read], Current(st), idx, Delivered);
    NobodyUsesEmpty(st);
    InvIffServed(st, Apply(Current(st), idx, DestroyCommand(st, read)).0, "");
  }

  lemma DropEffect(s: SemStore, s': SemStore, idx: nat, x: string)
    requires s' == Apply(s, idx, Command<Key, Value>.Delete(ContenderKey(x))).0
    ensures Holders(s') == Holders(s) && !HasContender(s', x) && s'.live == s.live
  {
  }

  /** The handle that counts on a contender entry has lost it; any other handle of the session is served. */
  lemma DropServes(st: State, s': SemStore, x: string, h: nat)
    requires Inv(st) && h in st.handles && Holders(s') == Holders(Current(st)) && s'.live == Current(st).live
    requires !HasContender(s', x)
    ensures Awaits(st.handles[h], x) ==> Uses(st.handles[h]) == Some(x)
    ensures Uses(st.handles[h]) == Some(x) ==>
              (Serves(s', st.handles[h]) <==> !(x in s'.live && Awaits(st.handles[h], x)))
  {
    assert HandleOk(st.limit, st.history, st.owner, h, st.handles[h]);
  }

  lemma DropArrives(st: State, x: string, idx: nat)
    requires Inv(st) && idx > Current(st).index
    ensures Inv(Write(st, Apply(Current(st), idx, Command<Key, Value>.Delete(ContenderKey(x))).0))
            <==> Harmless(st, Drop(x))
  {
    var s := Current(st);
    var s' := Apply(s, idx, Command<Key, Value>.Delete(ContenderKey(x))).0;
    DropEffect(s, s', idx, x);
    if x in s.live && x in Holders(s) {
      if Inv(Write(st, s')) {
        InvNeedsStore(st, s');
      }
    } else {
      ContenderDeleteKeeps(st.limit, s, idx, x, Delivered);
      InvIffServed(st, s', x);
      forall h | h in st.handles
        ensures Awaits(st.handles[h], x) ==> Uses(st.handles[h]) == Some(x)
        ensures Uses(st.handles[h]) == Some(x) ==>
                  (Serves(s', st.handles[h]) <==> !(x in s.live && Awaits(st.handles[h], x)))
      {
        DropServes(st, s', x, h);
      }
    }
  }

  /** A check-and-set of the lock entry applies exactly if the entry has the index it was sent with. */
  lemma CasApplies(limit: nat, s: SemStore, idx: nat, v: Value, cidx: nat)
    requires StoreOk(limit, s)
    ensures var (s', reply) := Apply(s, idx, Cas(LockKey, v, SEMAPHORE_FLAG, cidx));
            && reply == Answer(LockOf(s.kvs).modifyIndex == cidx)
            && (!reply.ok ==> s' == s.(index := idx))
  {
  }

  /** A write that fails does no harm. */
  lemma FailedArrival(st: State, idx: nat)
    requires Inv(st) && idx > Current(st).index
    ensures Inv(Write(st, Current(st).(index := idx)))
  {
    IndexOnly(st.limit, Current(st), Current(st).(index := idx), idx, "");
    NobodyUsesEmpty(st);
    InvIffServed(st, Current(st).(index := idx), "");
  }

  lemma GiveApplies(st: State, x: string, read: nat, idx: nat)
    requires Inv(st) && Decided(st, Give(x, read)) && idx > Current(st).index && Unchanged(st, read)
    ensures var s' := Apply(Current(st), idx, ReleaseCommand(st, read, x)).0;
            && StoreOk(st.limit, s') && Frame(Current(st), s', x) && s'.live == Current(st).live
            && x !in Holders(s') && (HasContender(Current(st), x) ==> HasContender(s', x))
  {
    var s, from := Current(st), st.history[read];
    var v := LockValue(st.limit, Holders(from) - {x});
    ReleaseCommandIs(st, read, x);
    CasApplies(st.limit, s, idx, v, LockOf(from.kvs).modifyIndex);
    ReleaseSwapKeeps(st.limit, from, s, idx, x, Delivered);
    SwapEffect(st.limit, from, s, idx, v);
  }

  lemma GiveArrives(st: State, x: string, read: nat, idx: nat)
    requires Inv(st) && Decided(st, Give(x, read)) && idx > Current(st).index
    ensures Inv(Write(st, Apply(Current(st), idx, ReleaseCommand(st, read, x)).0)) <==> Harmless(st, Give(x, read))
  {
    if Unchanged(st, read) {
      GiveApplies(st, x, read, idx);
      GivenBack(st, Apply(Current(st), idx, ReleaseCommand(st, read, x)).0, x);
    } else {
      ReleaseCommandIs(st, read, x);
      CasApplies(st.limit, Current(st), idx, LockValue(st.limit, Holders(st.history[read]) - {x}),
                 LockOf(st.history[read].kvs).modifyIndex);
      FailedArrival(st, idx);
    }
  }

  /** A slot that was given back breaks the invariant exactly if somebody live still has it. */
  lemma GivenBack(st: State, s': SemStore, x: string)
    requires Inv(st) && StoreOk(st.limit, s') && Frame(Current(st), s', x) && s'.live == Current(st).live
    requires x !in Holders(s') && (HasContender(Current(st), x) ==> HasContender(s', x))
    ensures Inv(Write(st, s')) <==>
              (x in s'.live ==> forall h :: h in st.handles ==> Claim(st.handles[h]) != Some(x))
  {
    InvIffServed(st, s', x);
    forall h | h in st.handles && Uses(st.handles[h]) == Some(x)
      ensures Serves(s', st.handles[h]) <==> !(x in s'.live && Claim(st.handles[h]) == Some(x))
    {
      ServedHandle(st.limit, st.history, st.owner, h, st.handles[h], s');
    }
  }

  lemma TakeApplies(st: State, x: string, read: nat, idx: nat)
    requires Inv(st) && Decided(st, Take(x, read)) && idx > Current(st).index && Unchanged(st, read)
    ensures var s, s' := Current(st), Apply(Current(st), idx, AcquireCommand(st, read, x)).0;
            && s'.live == s.live && x in Holders(s') && (HasContender(s, x) <==> HasContender(s', x))
            && ((x in s.live && !HasContender(s, x)) || (StoreOk(st.limit, s') && Frame(s, s', x)))
  {
    var s, from := Current(st), st.history[read];
    var v := TryAcquire(st.limit, from.kvs, x).lock;
    AcquireValue(st.limit, from, x);
    CasApplies(st.limit, s, idx, v, LockOf(from.kvs).modifyIndex);
    SwapEffect(st.limit, from, s, idx, v);
    if x !in s.live || HasContender(s, x) {
      AcquireApplied(st.limit, from, s, idx, x, v);
    }
  }

  lemma TakeArrives(st: State, x: string, read: nat, idx: nat)
    requires Inv(st) && Decided(st, Take(x, read)) && idx > Current(st).index
    ensures Inv(Write(st, Apply(Current(st), idx, AcquireCommand(st, read, x)).0)) <==> Harmless(st, Take(x, read))
  {
    var s, s' := Current(st), Apply(Current(st), idx, AcquireCommand(st, read, x)).0;
    if !Unchanged(st, read) {
      AcquireValue(st.limit, st.history[read], x);
      CasApplies(st.limit, s, idx, TryAcquire(st.limit, st.history[read].kvs, x).lock,
                 LockOf(st.history[read].kvs).modifyIndex);
      FailedArrival(st, idx);
    } else {
      TakeApplies(st, x, read, idx);
      if x in s.live && !HasContender(s, x) {
        TakenUnprotected(st, s', x);
      } else {
        TakenLate(st, s', x);
      }
    }
  }

  /** A slot taken without a contender entry breaks the invariant of the store. */
  lemma TakenUnprotected(st: State, s': SemStore, x: string)
    requires x in s'.live && x in Holders(s') && !HasContender(s', x)
    ensures !Inv(Write(st, s'))
  {
    if Inv(Write(st, s')) {
      InvNeedsStore(st, s');
    }
  }

  /** A slot taken late breaks the invariant exactly if somebody live drops its contender entry next. */
  lemma TakenLate(st: State, s': SemStore, x: string)
    requires Inv(st) && StoreOk(st.limit, s') && Frame(Current(st), s', x) && s'.live == Current(st).live
    requires x in Holders(s') && (HasContender(Current(st), x) ==> HasContender(s', x))
    ensures Inv(Write(st, s')) <==>
              (x in s'.live ==> forall h :: h in st.handles ==> st.handles[h].pc != Dropping(x))
  {
    InvIffServed(st, s', x);
    forall h | h in st.handles && Uses(st.handles[h]) == Some(x)
      ensures Serves(s', st.handles[h]) <==> !(x in s'.live && st.handles[h].pc == Dropping(x))
    {
      ServedHandle(st.limit, st.history, st.owner, h, st.handles[h], s');
    }
    forall h | h in st.handles && st.handles[h].pc == Dropping(x) ensures Uses(st.handles[h]) == Some(x) {
      assert HandleOk(st.limit, st.history, st.owner, h, st.handles[h]);
    }
  }

  /** A write that arrives late, at whatever time, keeps the invariant if and only if it is harmless then. */
  lemma ArrivalIsExact(st: State, w: Sent, idx: nat)
    requires Inv(st) && Decided(st, w) && idx > Current(st).index
    ensures WellSent(st, w)
    ensures Inv(Write(st, Apply(Current(st), idx, CommandFor(st, w)).0)) <==> Harmless(st, w)
  {
    match w
    case Contend(x, p) => ContendArrives(st, x, p, idx);
    case Take(x, read) => TakeArrives(st, x, read, idx);
    case Give(x, read) => GiveArrives(st, x, read, idx);
    case Drop(x) => DropArrives(st, x, idx);
    case Erase(read) => EraseArrives(st, read, idx);
  }

  // ---- safety over runs ----

  /** Writes may arrive at any later time at which they are harmless. */
  function HarmlessStep(wd: World, e: Event): Option<World> {
    if Possible(wd, e) && (e.Arrives? ==> Harmless(wd.st, e.w)) then Some(Happens(wd, e)) else None
  }

  ghost predicate LateInv(wd: World) {
    Inv(wd.st) && forall w :: w in wd.sent ==> Decided(wd.st, w)
  }

  /** What was decided stays decided. */
  lemma StayDecided(wd: World, st': State)
    requires LateInv(wd) && st'.limit == wd.st.limit && wd.st.history <= st'.history
    requires forall x :: x in wd.st.owner ==> x in st'.owner
    ensures forall w :: w in wd.sent ==> Decided(st', w)
  {
    forall w | w in wd.sent ensures Decided(st', w) {
      assert Decided(wd.st, w);
    }
  }

  lemma StepExtends(st: State, a: Action)
    requires st.history != [] && Enabled(st, a)
    ensures var st' := Step(st, a);
            st'.limit == st.limit && st.history <= st'.history && forall x :: x in st.owner ==> x in st'.owner
  {
    StepStore(st, a);
  }

  /** The write a handle stands before was decided on in the state it listed. */
  lemma NextIsDecided(st: State, h: nat, payload: string)
    requires Inv(st) && h in st.handles && Next(st.handles[h], payload).Some?
    ensures var w := Next(st.handles[h], payload).value;
            Decided(st, w) && WellSent(st, w) && (w.Erase? || Uses(st.handles[h]) == Some(Sender(w)))
  {
    assert HandleOk(st.limit, st.history, st.owner, h, st.handles[h]);
  }

  lemma DoesKeeps(wd: World, a: Action)
    requires LateInv(wd) && Possible(wd, Does(a))
    ensures LateInv(Happens(wd, Does(a)))
  {
    StepKeepsInv(wd.st, a);
    StepExtends(wd.st, a);
    StayDecided(wd, Step(wd.st, a));
  }

  lemma OneMoreDecided(wd: World, w: Sent)
    requires LateInv(wd) && Decided(wd.st, w)
    ensures LateInv(World(wd.st, wd.sent + {w}))
  {
  }

  lemma SendsKeeps(wd: World, h: nat, payload: string)
    requires LateInv(wd) && Possible(wd, Sends(h, payload))
    ensures LateInv(Happens(wd, Sends(h, payload)))
  {
    var w := Next(wd.st.handles[h], payload).value;
    NextIsDecided(wd.st, h, payload);
    OneMoreDecided(wd, w);
    DoesKeeps(World(wd.st, wd.sent + {w}), GiveUp(h));
  }

  lemma ArrivesKeeps(wd: World, w: Sent, idx: nat)
    requires LateInv(wd) && Possible(wd, Arrives(w, idx)) && Harmless(wd.st, w)
    ensures LateInv(Happens(wd, Arrives(w, idx)))
  {
    ArrivalIsExact(wd.st, w, idx);
    StayDecided(wd, Write(wd.st, Apply(Current(wd.st), idx, CommandFor(wd.st, w)).0));
  }

  lemma HarmlessStepKeeps(wd: World, e: Event)
    requires LateInv(wd) && HarmlessStep(wd, e).Some?
    ensures LateInv(Happens(wd, e))
  {
    match e
    case Does(a) => DoesKeeps(wd, a);
    case Sends(h, p) => SendsKeeps(wd, h, p);
    case Arrives(w, idx) => ArrivesKeeps(wd, w, idx);
  }

  /**
    Writes may arrive arbitrarily late: over every run in which each is harmless when it
    arrives, the semaphore is as safe as if they arrived at once.
   */
  lemma LateWritesAreSafe(wd: World, events: seq<Event>, end: World)
    requires LateInit(wd) && Reaches(HarmlessStep, wd, events, end)
    ensures end.st.history != [] && |Holders(Current(end.st))| <= end.st.limit
    ensures forall h :: h in HoldingHandles(end.st) ==> end.st.handles[h].lockSession in Holders(Current(end.st))
    ensures |HoldingHandles(end.st)| <= end.st.limit
  {
    InitInv(wd.st);
    forall s, e | LateInv(s) && HarmlessStep(s, e).Some? ensures LateInv(HarmlessStep(s, e).value) {
      HarmlessStepKeeps(s, e);
    }
    RunKeeps(LateInv, HarmlessStep, wd, events, end);
    InvIsSafe(end.st);
  }

  // ---- what goes wrong otherwise ----

  /** The late release of a session that is stored takes its slot exactly if the index is unchanged. */
  lemma LateReleaseTakesSlot(st: State, x: string, read: nat, idx: nat)
    requires Inv(st) && read < |st.history| && x in Holders(st.history[read]) && x in Holders(Current(st))
    requires idx > Current(st).index
    ensures var s' := Apply(Current(st), idx, CommandFor(st, Give(x, read))).0;
            x !in Holders(s') <==> Unchanged(st, read)
  {
    ReleaseCommandIs(st, read, x);
    SwapEffect(st.limit, st.history[read], Current(st), idx,
               LockValue(st.limit, Holders(st.history[read]) - {x}));
  }

  /** The late delete of a contender entry leaves a live holder that every listing prunes. */
  lemma LateDropExposesHolder(st: State, h: nat, idx: nat)
    requires Inv(st) && h in HoldingHandles(st) && idx > Current(st).index
    ensures var x := st.handles[h].lockSession;
            var s' := Apply(Current(st), idx, CommandFor(st, Drop(x))).0;
            x in s'.live && x in Holders(s') && x !in Pruned(Holders(s'), s'.kvs)
  {
    assert HandleOk(st.limit, st.history, st.owner, h, st.handles[h]);
    DroppedIsPrunable(st.limit, Current(st), idx, st.handles[h].lockSession);
  }
}
