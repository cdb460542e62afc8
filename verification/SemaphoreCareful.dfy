/**
  Two rules for callers under which every late write is harmless when it arrives: not to
  acquire with a session whose release is under way and not to release one whose acquire
  is, or simply to use a new session for every acquire.
 */
module SemaphoreCareful {
  import opened Basics
  import opened KvStore
  import opened SemaphoreSpec
  import opened SemaphoreProtocol
  import opened SemaphoreAnyReads
  import opened SemaphoreSafety
  import opened SemaphoreTheorems
  import opened SemaphoreLate
  import opened Runs

  /** A release, or the delete of a contender entry, of the session is under way. */
  predicate Returning(sent: set<Sent>, x: string) {
    exists w :: w in sent && (w.Give? || w.Drop?) && w.session == x
  }

  /** An acquire of the session is under way. */
  predicate Taking(sent: set<Sent>, x: string) {
    exists w :: w in sent && w.Take? && w.session == x
  }

  /**
    A failed acquire may be tried again at once; a failed release must be waited for
    before the next acquire, and a failed acquire before the next release.
   */
  predicate Careful(wd: World, e: Event) {
    && (e.Does? && e.a.BeginAcquire? ==> !Returning(wd.sent, e.a.session))
    && (e.Does? && e.a.BeginRelease? && e.a.h in wd.st.handles ==> !Taking(wd.sent, wd.st.handles[e.a.h].lockSession))
  }

  function CarefulStep(wd: World, e: Event): Option<World> {
    if Possible(wd, e) && Careful(wd, e) then Some(Happens(wd, e)) else None
  }

  // ---- what a write does to the session of another ----

  /** Only the delete of the contender entry takes it away, and only an acquire adds a holder. */
  ghost predicate Spares(s: SemStore, s': SemStore, w: Sent, x: string) {
    && (HasContender(s, x) && w != Drop(x) ==> HasContender(s', x))
    && (x !in Holders(s) && !(w.Take? && w.session == x) ==> x !in Holders(s'))
  }

  /** A swap of the lock entry touches no contender entry, and brings in no holder but those of its value. */
  lemma SwapSpares(limit: nat, from: SemStore, s: SemStore, idx: nat, v: Value, extra: set<string>, x: string)
    requires StoreOk(limit, from) && StoreOk(limit, s) && Later(from, s) && idx > s.index
    requires v.LockValue? && v.holders <= Holders(from) + extra
    ensures var s' := Apply(s, idx, Cas(LockKey, v, SEMAPHORE_FLAG, LockOf(from.kvs).modifyIndex)).0;
            && (HasContender(s, x) ==> HasContender(s', x))
            && (x !in Holders(s) && x !in extra ==> x !in Holders(s'))
  {
    SwapEffect(limit, from, s, idx, v);
  }

  lemma TakeSpares(st: State, y: string, read: nat, idx: nat, x: string)
    requires Inv(st) && Decided(st, Take(y, read)) && idx > Current(st).index
    ensures Spares(Current(st), Apply(Current(st), idx, AcquireCommand(st, read, y)).0, Take(y, read), x)
  {
    var from := st.history[read];
    AcquireValue(st.limit, from, y);
    assert StoreOk(st.limit, from) && Later(from, Current(st));
    SwapSpares(st.limit, from, Current(st), idx, TryAcquire(st.limit, from.kvs, y).lock, {y}, x);
  }

  lemma GiveSpares(st: State, y: string, read: nat, idx: nat, x: string)
    requires Inv(st) && Decided(st, Give(y, read)) && idx > Current(st).index
    ensures Spares(Current(st), Apply(Current(st), idx, ReleaseCommand(st, read, y)).0, Give(y, read), x)
  {
    var from := st.history[read];
    ReleaseCommandIs(st, read, y);
    assert StoreOk(st.limit, from) && Later(from, Current(st));
    SwapSpares(st.limit, from, Current(st), idx, LockValue(st.limit, Holders(from) - {y}), {}, x);
  }

  lemma EntrySpares(st: State, w: Sent, idx: nat, x: string)
    requires st.history != [] && WellSent(st, w) && (w.Contend? || w.Drop? || w.Erase?) && idx > Current(st).index
    ensures Spares(Current(st), Apply(Current(st), idx, CommandFor(st, w)).0, w, x)
  {
    if w.Contend? {
      ContenderLockEffect(Current(st), idx, w.session, w.payload);
    }
  }

  lemma WriteSpares(st: State, w: Sent, idx: nat, fate: Fate, x: string)
    requires Inv(st) && Decided(st, w) && WellSent(st, w) && idx > Current(st).index
    ensures Spares(Current(st), Call(Current(st), idx, CommandFor(st, w), fate).0, w, x)
  {
    match w
    case Take(y, read) => TakeSpares(st, y, read, idx, x);
    case Give(y, read) => GiveSpares(st, y, read, idx, x);
    case _ => EntrySpares(st, w, idx, x);
  }

  /** A step of a handle that calls the store. */
  predicate IsWrite(a: Action) {
    a.MakeContender? || a.SwapAcquire? || a.SwapRelease? || a.DropContender? || a.SwapDestroy?
  }

  function PayloadOf(a: Action): string {
    if a.MakeContender? then a.payload else ""
  }

  /** The write that a handle may leave under way is the very command that its own step sends. */
  lemma StepSendsNext(st: State, a: Action)
    requires Inv(st) && Enabled(st, a) && IsWrite(a)
    ensures var w := Next(st.handles[a.h], PayloadOf(a));
            w.Some? && WellSent(st, w.value) && CommandOf(st, a) == Some(CommandFor(st, w.value))
  {
    NextIsDecided(st, a.h, PayloadOf(a));
  }

  /** The write of a step, or one that stands for a step that spares everybody. */
  function WriteOf(st: State, a: Action): Sent {
    if IsWrite(a) && a.h in st.handles && Next(st.handles[a.h], PayloadOf(a)).Some?
    then Next(st.handles[a.h], PayloadOf(a)).value
    else Erase(0)
  }

  lemma WriteStepSpares(st: State, a: Action, x: string)
    requires Inv(st) && Enabled(st, a) && IsWrite(a)
    ensures Spares(Current(st), Current(Step(st, a)), WriteOf(st, a), x)
  {
    StepSendsNext(st, a);
    NextIsDecided(st, a.h, PayloadOf(a));
    WriteSpares(st, WriteOf(st, a), a.idx, a.fate, x);
    StepStore(st, a);
  }

  lemma EnvironmentSpares(st: State, a: Action, w: Sent, x: string)
    requires Inv(st) && Enabled(st, a) && (a.NewSession? || a.Invalidate?)
    requires x in Current(st).created && x in Current(Step(st, a)).live
    ensures Spares(Current(st), Current(Step(st, a)), w, x)
  {
    if a.NewSession? {
      NewSessionKeeps(st.limit, Current(st), a.idx, a.session, a.behavior);
    } else {
      InvalidateKeeps(st.limit, Current(st), a.idx, a.session);
    }
  }

  lemma StepSpares(st: State, a: Action, x: string)
    requires Inv(st) && Enabled(st, a) && x in Current(st).created && x in Current(Step(st, a)).live
    ensures Spares(Current(st), Current(Step(st, a)), WriteOf(st, a), x)
  {
    if IsWrite(a) {
      WriteStepSpares(st, a, x);
    } else if a.NewSession? || a.Invalidate? {
      EnvironmentSpares(st, a, WriteOf(st, a), x);
    }
  }

  // ---- what a step does to a handle ----

  /** The session whose slot the handle is giving back. */
  function Releasing(hd: Handle): Option<string> {
    if hd.pc.Reading? || hd.pc.Unholding? || hd.pc.Dropping? then Some(hd.pc.session) else None
  }

  /** The handle works with nothing new, and does not begin to release. */
  predicate NothingNew(hd: Handle, hd': Handle) {
    && (Uses(hd').None? || Uses(hd') == Uses(hd))
    && (Releasing(hd').None? || Releasing(hd') == Releasing(hd))
  }

  lemma RepliesBringNothingNew(hd: Handle, reply: Reply, at: nat)
    ensures hd.pc.NeedContender? ==> NothingNew(hd, hd.(pc := if reply == Answer(true) then Waiting else Idle))
    ensures hd.pc.Swapping? ==> NothingNew(hd, AfterAcquire(hd, reply, at))
    ensures hd.pc.Unholding? ==> NothingNew(hd, AfterRelease(hd, reply))
    ensures NothingNew(hd, hd.(pc := Idle))
  {
  }

  lemma WriteBringsNothingNew(st: State, a: Action)
    requires st.history != [] && Enabled(st, a) && IsWrite(a)
    ensures Step(st, a).handles.Keys == st.handles.Keys
    ensures NothingNew(st.handles[a.h], Step(st, a).handles[a.h])
    ensures forall h :: h in st.handles && h != a.h ==> Step(st, a).handles[h] == st.handles[h]
  {
    var s, hd := Current(st), st.handles[a.h];
    match a
    case MakeContender(_, p, idx, fate) =>
      RepliesBringNothingNew(hd, Call(s, idx, ContenderCommand(hd.lockSession, p), fate).1, 0);
    case SwapAcquire(_, idx, fate) =>
      RepliesBringNothingNew(hd, Call(s, idx, AcquireCommand(st, hd.pc.read, hd.lockSession), fate).1, |st.history|);
    case SwapRelease(_, idx, fate) =>
      RepliesBringNothingNew(hd, Call(s, idx, ReleaseCommand(st, hd.pc.read, hd.pc.session), fate).1, 0);
    case DropContender(_, _, _) => RepliesBringNothingNew(hd, Refused, 0);
    case SwapDestroy(_, _, _) => RepliesBringNothingNew(hd, Refused, 0);
  }

  /** What the start of an acquire, or of a release, brings to the handle. */
  ghost predicate Begins(hd: Handle, hd': Handle, a: Action) {
    || (a.BeginAcquire? && Uses(hd') == Some(a.session) && Releasing(hd').None?)
    || (a.BeginRelease? && Uses(hd') == Uses(hd) == Releasing(hd') == Some(hd.lockSession))
  }

  /** Deciding on a listing keeps the handle at work with the same session. */
  lemma DecisionsBringNothingNew(hd: Handle, read: nat)
    ensures hd.pc.Waiting? ==> NothingNew(hd, hd.(pc := Waiting)) && NothingNew(hd, hd.(pc := Swapping(read)))
    ensures hd.pc.Reading? ==> NothingNew(hd, hd.(pc := Unholding(hd.pc.session, read)))
                               && NothingNew(hd, hd.(pc := Dropping(hd.pc.session)))
    ensures NothingNew(hd, hd.(pc := Idle))
  {
  }

  lemma ListingBringsNothingNew(st: State, a: Action)
    requires st.history != [] && Enabled(st, a) && (a.ListForAcquire? || a.ReadForRelease? || a.ListForDestroy?)
    ensures Step(st, a).handles.Keys == st.handles.Keys
    ensures NothingNew(st.handles[a.h], Step(st, a).handles[a.h])
    ensures forall h :: h in st.handles && h != a.h ==> Step(st, a).handles[h] == st.handles[h]
  {
    match a
    case ListForAcquire(h, read) => DecisionsBringNothingNew(st.handles[h], read);
    case ReadForRelease(h, read) => DecisionsBringNothingNew(st.handles[h], read);
    case ListForDestroy(h, read) => DecisionsBringNothingNew(st.handles[h], read);
  }

  lemma LocalBringsNew(st: State, a: Action)
    requires st.history != [] && Enabled(st, a) && (a.BeginAcquire? || a.GiveUp? || a.BeginRelease?)
    ensures Step(st, a).handles.Keys == st.handles.Keys
    ensures NothingNew(st.handles[a.h], Step(st, a).handles[a.h])
            || Begins(st.handles[a.h], Step(st, a).handles[a.h], a)
    ensures forall h :: h in st.handles && h != a.h ==> Step(st, a).handles[h] == st.handles[h]
  {
  }

  /** Nothing else brings a handle something new. */
  lemma StepBringsNew(st: State, a: Action, h: nat)
    requires st.history != [] && Enabled(st, a) && h in Step(st, a).handles
    ensures h in st.handles
    ensures NothingNew(st.handles[h], Step(st, a).handles[h])
            || (!a.Invalidate? && a.h == h && Begins(st.handles[h], Step(st, a).handles[h], a))
  {
    if IsWrite(a) {
      WriteBringsNothingNew(st, a);
    } else if a.ListForAcquire? || a.ReadForRelease? || a.ListForDestroy? {
      ListingBringsNothingNew(st, a);
    } else if !a.NewSession? && !a.Invalidate? {
      LocalBringsNew(st, a);
    }
  }

  // ---- the invariant of careful runs ----

  /** Nobody works with a session whose release is under way, and nobody releases one whose acquire is. */
  ghost predicate Quiet(wd: World, w: Sent)
    requires wd.st.history != []
  {
    var st, s, x := wd.st, Current(wd.st), Sender(w);
    && (w.Give? || w.Drop? ==> !Taking(wd.sent, x) && forall h :: h in st.handles ==> Uses(st.handles[h]) != Some(x))
    && (w.Drop? && x in s.live ==> x !in Holders(s))
    && (w.Take? ==> forall h :: h in st.handles ==> Releasing(st.handles[h]) != Some(x))
    && (w.Take? && x in s.live ==> HasContender(s, x))
  }

  ghost predicate CarefulInv(wd: World) {
    LateInv(wd) && forall w :: w in wd.sent ==> Quiet(wd, w)
  }

  lemma QuietIsHarmless(wd: World, w: Sent)
    requires CarefulInv(wd) && w in wd.sent && WellSent(wd.st, w)
    ensures Harmless(wd.st, w)
  {
    assert Quiet(wd, w);
  }

  // ---- steps of handles ----

  /** No handle comes to use, or to release, the session against the rule. */
  lemma HandlesStayQuiet(wd: World, a: Action, w: Sent, h: nat)
    requires wd.st.history != [] && Possible(wd, Does(a)) && Careful(wd, Does(a)) && w in wd.sent && Quiet(wd, w)
    requires h in Step(wd.st, a).handles
    ensures var hd' := Step(wd.st, a).handles[h];
            && (w.Give? || w.Drop? ==> Uses(hd') != Some(w.session))
            && (w.Take? ==> Releasing(hd') != Some(w.session))
  {
    StepBringsNew(wd.st, a, h);
  }

  lemma StepKeepsQuiet(wd: World, a: Action, st': State, w: Sent)
    requires CarefulInv(wd) && Possible(wd, Does(a)) && Careful(wd, Does(a)) && w in wd.sent
    requires st' == Step(wd.st, a)
    ensures st'.history != [] && Quiet(World(st', wd.sent), w)
  {
    var x := Sender(w);
    assert Quiet(wd, w) && Decided(wd.st, w);
    InvIsAny(wd.st);
    AnyStepKeeps(wd.st, a);
    forall h | h in st'.handles
      ensures w.Give? || w.Drop? ==> Uses(st'.handles[h]) != Some(x)
      ensures w.Take? ==> Releasing(st'.handles[h]) != Some(x)
    {
      HandlesStayQuiet(wd, a, w, h);
    }
    if (w.Drop? || w.Take?) && x in Current(st').live {
      StepSpares(wd.st, a, x);
      SparedByOthers(wd, a, w);
    }
  }

  /** Where a handle stands tells what it is about to write. */
  lemma NextTells(hd: Handle, payload: string)
    requires Next(hd, payload).Some?
    ensures var w := Next(hd, payload).value;
            && (w.Take? ==> Uses(hd) == Some(w.session))
            && (w.Give? || w.Drop? ==> Releasing(hd) == Some(w.session))
  {
  }

  /** The step is not the one write that would hurt. */
  lemma SparedByOthers(wd: World, a: Action, w: Sent)
    requires wd.st.history != [] && Quiet(wd, w)
    ensures w.Take? ==> WriteOf(wd.st, a) != Drop(w.session)
    ensures w.Drop? ==> !(WriteOf(wd.st, a).Take? && WriteOf(wd.st, a).session == w.session)
  {
    if WriteOf(wd.st, a) != Erase(0) {
      NextTells(wd.st.handles[a.h], PayloadOf(a));
    }
  }

  lemma DoesKeepsQuiet(wd: World, a: Action)
    requires CarefulInv(wd) && Possible(wd, Does(a)) && Careful(wd, Does(a))
    ensures CarefulInv(Happens(wd, Does(a)))
  {
    DoesKeeps(wd, a);
    var st' := Step(wd.st, a);
    forall w | w in wd.sent ensures Quiet(World(st', wd.sent), w) {
      StepKeepsQuiet(wd, a, st', w);
    }
  }

  // ---- sending ----

  /** No other handle works with the session. */
  lemma OnlyUser(st: State, h: nat, g: nat)
    requires Inv(st) && h in st.handles && g in st.handles && g != h && Uses(st.handles[h]).Some?
    ensures Uses(st.handles[g]) != Uses(st.handles[h])
  {
    UsesOwned(st.limit, st.history, st.owner, h, st.handles[h]);
    if Uses(st.handles[g]).Some? {
      UsesOwned(st.limit, st.history, st.owner, g, st.handles[g]);
    }
  }

  lemma ReleasingIsUsing(st: State, h: nat)
    requires Inv(st) && h in st.handles && Releasing(st.handles[h]).Some?
    ensures Uses(st.handles[h]) == Releasing(st.handles[h])
  {
    assert HandleOk(st.limit, st.history, st.owner, h, st.handles[h]);
  }

  /** Once the handle has given up, nobody works with the session. */
  lemma NobodyLeft(st: State, st': State, h: nat, g: nat, x: string)
    requires Inv(st) && h in st.handles && g in st.handles && !st.handles[h].pc.Idle? && Uses(st.handles[h]) == Some(x)
    requires st' == SetHandle(st, h, st.handles[h].(pc := Idle))
    ensures Uses(st'.handles[g]) != Some(x) && Releasing(st'.handles[g]) != Some(x)
  {
    if g == h {
      assert HandleOk(st.limit, st.history, st.owner, h, st.handles[h]);
    } else {
      OnlyUser(st, h, g);
      if Releasing(st.handles[g]).Some? {
        ReleasingIsUsing(st, g);
      }
    }
  }

  lemma NobodyIsLeft(st: State, st': State, h: nat, x: string)
    requires Inv(st) && h in st.handles && !st.handles[h].pc.Idle? && Uses(st.handles[h]) == Some(x)
    requires st' == SetHandle(st, h, st.handles[h].(pc := Idle))
    ensures forall g :: g in st'.handles ==> Uses(st'.handles[g]) != Some(x) && Releasing(st'.handles[g]) != Some(x)
  {
    forall g | g in st'.handles ensures Uses(st'.handles[g]) != Some(x) && Releasing(st'.handles[g]) != Some(x) {
      NobodyLeft(st, st', h, g, x);
    }
  }

  /** What a handle knows of the store when it sends. */
  lemma NextIsServed(st: State, h: nat, payload: string)
    requires Inv(st) && h in st.handles && Next(st.handles[h], payload).Some?
    ensures var w, s := Next(st.handles[h], payload).value, Current(st);
            && (w.Drop? && w.session in s.live ==> w.session !in Holders(s))
            && (w.Take? && w.session in s.live ==> HasContender(s, w.session))
  {
    assert HandleOk(st.limit, st.history, st.owner, h, st.handles[h]);
  }

  lemma ReleasedIsNotTaken(wd: World, h: nat, x: string)
    requires CarefulInv(wd) && h in wd.st.handles && Releasing(wd.st.handles[h]) == Some(x)
    ensures !Taking(wd.sent, x)
  {
    forall v | v in wd.sent && v.Take? ensures v.session != x {
      assert Quiet(wd, v);
    }
  }

  /** The write a handle sends is quiet once the handle has given up. */
  lemma NewIsQuiet(wd: World, st': State, h: nat, payload: string, w: Sent)
    requires CarefulInv(wd) && h in wd.st.handles && Next(wd.st.handles[h], payload) == Some(w)
    requires st' == SetHandle(wd.st, h, wd.st.handles[h].(pc := Idle))
    ensures Quiet(World(st', wd.sent + {w}), w)
  {
    NextTells(wd.st.handles[h], payload);
    if w.Give? || w.Drop? {
      ReleasingIsUsing(wd.st, h);
      ReleasedIsNotTaken(wd, h, w.session);
    }
    if w.Give? || w.Drop? || w.Take? {
      NextIsServed(wd.st, h, payload);
      NobodyIsLeft(wd.st, st', h, w.session);
    }
  }

  lemma OldIsQuiet(wd: World, st': State, h: nat, payload: string, w: Sent, v: Sent)
    requires wd.st.history != [] && st'.history != [] && Quiet(wd, v) && Quiet(World(st', wd.sent), v)
    requires h in wd.st.handles && Next(wd.st.handles[h], payload) == Some(w)
    ensures Quiet(World(st', wd.sent + {w}), v)
  {
    NextTells(wd.st.handles[h], payload);
  }

  lemma SendsKeepsQuiet(wd: World, h: nat, payload: string)
    requires CarefulInv(wd) && Possible(wd, Sends(h, payload))
    ensures CarefulInv(Happens(wd, Sends(h, payload)))
  {
    var st', w := Step(wd.st, GiveUp(h)), Next(wd.st.handles[h], payload).value;
    SendsKeeps(wd, h, payload);
    NewIsQuiet(wd, st', h, payload, w);
    forall v | v in wd.sent ensures Quiet(World(st', wd.sent + {w}), v) {
      StepKeepsQuiet(wd, GiveUp(h), st', v);
      OldIsQuiet(wd, st', h, payload, w, v);
    }
  }

  // ---- arriving ----

  /** No write brings a session to life. */
  lemma StillLive(s: SemStore, idx: nat, c: Command<Key, Value>)
    requires !c.CreateSession? && !c.DestroySession?
    ensures Apply(s, idx, c).0.live == s.live
  {
  }

  lemma ArrivalKeepsQuiet(wd: World, w: Sent, idx: nat, s': SemStore, sent: set<Sent>, v: Sent)
    requires CarefulInv(wd) && Possible(wd, Arrives(w, idx)) && v in wd.sent && sent <= wd.sent
    requires s' == Apply(Current(wd.st), idx, CommandFor(wd.st, w)).0
    ensures Quiet(World(Write(wd.st, s'), sent), v)
  {
    assert Quiet(wd, v) && Quiet(wd, w) && Decided(wd.st, w);
    WriteSpares(wd.st, w, idx, Delivered, Sender(v));
    StillLive(Current(wd.st), idx, CommandFor(wd.st, w));
  }

  lemma ArrivesKeepsQuiet(wd: World, w: Sent, idx: nat)
    requires CarefulInv(wd) && Possible(wd, Arrives(w, idx))
    ensures Harmless(wd.st, w) && CarefulInv(Happens(wd, Arrives(w, idx)))
  {
    var wd' := Happens(wd, Arrives(w, idx));
    QuietIsHarmless(wd, w);
    ArrivesKeeps(wd, w, idx);
    forall v | v in wd.sent ensures Quiet(wd', v) {
      ArrivalKeepsQuiet(wd, w, idx, Apply(Current(wd.st), idx, CommandFor(wd.st, w)).0, wd'.sent, v);
    }
  }

  // ---- the first rule ----

  lemma CarefulStepKeeps(wd: World, e: Event)
    requires CarefulInv(wd) && CarefulStep(wd, e).Some?
    ensures CarefulInv(Happens(wd, e)) && HarmlessStep(wd, e) == CarefulStep(wd, e)
  {
    match e
    case Does(a) => DoesKeepsQuiet(wd, a);
    case Sends(h, p) => SendsKeepsQuiet(wd, h, p);
    case Arrives(w, idx) => ArrivesKeepsQuiet(wd, w, idx);
  }

  /**
    If nobody acquires with a session whose release is under way, nor releases one whose
    acquire is, every write is harmless whenever it arrives.
   */
  lemma CarefulRunsAreHarmless(wd: World, events: seq<Event>, end: World)
    requires LateInit(wd) && Reaches(CarefulStep, wd, events, end)
    ensures Reaches(HarmlessStep, wd, events, end)
  {
    InitInv(wd.st);
    forall s, e | CarefulInv(s) && CarefulStep(s, e).Some?
      ensures CarefulInv(CarefulStep(s, e).value) && HarmlessStep(s, e) == CarefulStep(s, e)
    {
      CarefulStepKeeps(s, e);
    }
    RunRefines(CarefulInv, CarefulStep, HarmlessStep, wd, events, end);
  }

  // ---- the second rule ----

  /** The session that an acquire is begun with. */
  function Begun(e: Event): set<string> {
    if e.Does? && e.a.BeginAcquire? then {e.a.session} else {}
  }

  /** No two acquires of the run are begun with the same session, nor is any with one of `begun`. */
  ghost predicate FreshSessions(begun: set<string>, events: seq<Event>) {
    && (forall i :: 0 <= i < |events| ==> Begun(events[i]) !! begun)
    && (forall i, j :: 0 <= i < j < |events| ==> Begun(events[i]) !! Begun(events[j]))
  }

  /** Whoever has sent a write has left its session, and all sessions in use or sent for were begun with. */
  ghost predicate Left(wd: World, begun: set<string>) {
    && (forall w :: w in wd.sent && !w.Erase? ==> w.session in begun)
    && (forall w, h :: w in wd.sent && !w.Erase? && h in wd.st.handles ==> Uses(wd.st.handles[h]) != Some(w.session))
    && (forall h :: h in wd.st.handles && Uses(wd.st.handles[h]).Some? ==> Uses(wd.st.handles[h]).value in begun)
  }

  ghost predicate FreshInv(wd: World, begun: set<string>) {
    CarefulInv(wd) && Left(wd, begun)
  }

  lemma FreshIsCareful(wd: World, begun: set<string>, e: Event)
    requires Left(wd, begun) && Possible(wd, e) && Begun(e) !! begun
    ensures Careful(wd, e)
  {
    if e.Does? && e.a.BeginAcquire? {
      assert e.a.session in Begun(e);
    } else if e.Does? && e.a.BeginRelease? {
      assert Uses(wd.st.handles[e.a.h]) == Some(wd.st.handles[e.a.h].lockSession);
    }
  }

  lemma DoesKeepsFresh(wd: World, begun: set<string>, a: Action)
    requires FreshInv(wd, begun) && Possible(wd, Does(a)) && Begun(Does(a)) !! begun && Careful(wd, Does(a))
    ensures FreshInv(Happens(wd, Does(a)), begun + Begun(Does(a)))
  {
    DoesKeepsQuiet(wd, a);
    forall h | h in Step(wd.st, a).handles
      ensures h in wd.st.handles
      ensures var used, used' := Uses(wd.st.handles[h]), Uses(Step(wd.st, a).handles[h]);
              used'.None? || used' == used || used'.value in Begun(Does(a))
    {
      StepBringsNew(wd.st, a, h);
    }
  }

  lemma SendsLeaves(wd: World, begun: set<string>, st': State, h: nat, w: Sent)
    requires Inv(wd.st) && Left(wd, begun) && h in wd.st.handles && !wd.st.handles[h].pc.Idle?
    requires w.Erase? || Uses(wd.st.handles[h]) == Some(w.session)
    requires st' == SetHandle(wd.st, h, wd.st.handles[h].(pc := Idle))
    ensures Left(World(st', wd.sent + {w}), begun)
  {
    if !w.Erase? {
      NobodyIsLeft(wd.st, st', h, w.session);
    }
    assert Uses(st'.handles[h]).None? by {
      assert HandleOk(wd.st.limit, wd.st.history, wd.st.owner, h, wd.st.handles[h]);
    }
  }

  lemma SendsKeepsFresh(wd: World, begun: set<string>, h: nat, payload: string)
    requires FreshInv(wd, begun) && Possible(wd, Sends(h, payload))
    ensures FreshInv(Happens(wd, Sends(h, payload)), begun)
  {
    SendsKeepsQuiet(wd, h, payload);
    NextIsDecided(wd.st, h, payload);
    SendsLeaves(wd, begun, Step(wd.st, GiveUp(h)), h, Next(wd.st.handles[h], payload).value);
  }

  lemma FreshStepKeeps(wd: World, begun: set<string>, e: Event)
    requires FreshInv(wd, begun) && Possible(wd, e) && Begun(e) !! begun
    ensures Careful(wd, e) && FreshInv(Happens(wd, e), begun + Begun(e))
  {
    FreshIsCareful(wd, begun, e);
    match e
    case Does(a) => DoesKeepsFresh(wd, begun, a);
    case Sends(h, p) => SendsKeepsFresh(wd, begun, h, p);
    case Arrives(w, idx) => ArrivesKeepsQuiet(wd, w, idx);
  }

  lemma {:induction false} FreshRunIsCareful(wd: World, begun: set<string>, events: seq<Event>, end: World)
    requires FreshInv(wd, begun) && FreshSessions(begun, events) && Reaches(LateStep, wd, events, end)
    ensures Reaches(CarefulStep, wd, events, end)
    decreases |events|
  {
    if events != [] {
      FreshStepKeeps(wd, begun, events[0]);
      FreshRunIsCareful(LateStep(wd, events[0]).value, begun + Begun(events[0]), events[1..], end);
    }
  }

  /**
    An Acquire that is given no session makes one of its own. If every acquire of a run
    does, each write is harmless whenever it arrives, and the semaphore is safe.
   */
  lemma FreshRunsAreHarmless(wd: World, events: seq<Event>, end: World)
    requires LateInit(wd) && FreshSessions({}, events) && Reaches(LateStep, wd, events, end)
    ensures Reaches(HarmlessStep, wd, events, end)
  {
    InitInv(wd.st);
    FreshRunIsCareful(wd, {}, events, end);
    CarefulRunsAreHarmless(wd, events, end);
  }
}
