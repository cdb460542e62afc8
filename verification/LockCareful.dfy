/**
  Two rules for callers under which every late write is harmless when it arrives: not to
  lock with a session whose unlock is under way, or simply to use a new session for every
  lock.
 */
module LockCareful {
  import opened Basics
  import opened LockProtocol
  import opened LockSafety
  import opened LockLate
  import opened Runs

  /** An unlock of the session is under way. */
  predicate Freeing(sent: set<Sent>, x: string) {
    exists w :: w in sent && w.Free? && w.session == x
  }

  /** A failed lock may be tried again at once; a failed unlock must be waited for. */
  predicate Careful(wd: World, e: Event) {
    e.Does? && e.a.BeginLock? ==> !Freeing(wd.sent, e.a.session)
  }

  function CarefulStep(wd: World, e: Event): Option<World> {
    if Possible(wd, e) && Careful(wd, e) then Some(Happens(wd, e)) else None
  }

  // ---- the invariant of careful runs ----

  /** Nobody works with a session whose unlock is under way. */
  ghost predicate Quiet(st: State, w: Sent) {
    w.Free? ==> forall h :: h in st.handles ==> Uses(st.handles[h]) != Some(w.session)
  }

  ghost predicate CarefulInv(wd: World) {
    LateInv(wd) && forall w :: w in wd.sent ==> Quiet(wd.st, w)
  }

  /** Only the start of a lock attempt makes a handle work with another session. */
  lemma StepUses(st: State, a: Action, h: nat)
    requires st.history != [] && Enabled(st, a) && h in Step(st, a).handles
    ensures h in st.handles
    ensures var u := Uses(Step(st, a).handles[h]);
            u.None? || u == Uses(st.handles[h]) || (a.BeginLock? && u == Some(a.session))
  {
  }

  lemma DoesKeepsQuiet(wd: World, a: Action)
    requires CarefulInv(wd) && Possible(wd, Does(a)) && Careful(wd, Does(a))
    ensures CarefulInv(Happens(wd, Does(a)))
  {
    DoesKeeps(wd, a);
    forall w, h | w in wd.sent && w.Free? && h in Step(wd.st, a).handles
      ensures Uses(Step(wd.st, a).handles[h]) != Some(w.session)
    {
      assert Quiet(wd.st, w);
      StepUses(wd.st, a, h);
    }
  }

  /** Once the handle has given up its unlock, nobody works with the session. */
  lemma NobodyLeft(st: State, st': State, h: nat, g: nat)
    requires Inv(st) && h in st.handles && g in st.handles && st.handles[h].pc.Unlocking?
    requires st' == SetHandle(st, h, st.handles[h].(pc := Idle))
    ensures Uses(st'.handles[g]) != Some(st.handles[h].pc.session)
  {
    assert HandleOk(st.history, st.owner, h, st.handles[h]);
    if g != h && Uses(st.handles[g]).Some? {
      UsesOwned(st, g);
    }
  }

  lemma SendsKeepsQuiet(wd: World, h: nat, value: string)
    requires CarefulInv(wd) && Possible(wd, Sends(h, value))
    ensures CarefulInv(Happens(wd, Sends(h, value)))
  {
    var st', w := Step(wd.st, GiveUp(h)), Next(wd.st.handles[h], value).value;
    SendsKeeps(wd, h, value);
    DoesKeepsQuiet(wd, GiveUp(h));
    if w.Free? {
      forall g | g in st'.handles ensures Uses(st'.handles[g]) != Some(w.session) {
        NobodyLeft(wd.st, st', h, g);
      }
    }
  }

  lemma ArrivesKeepsQuiet(wd: World, w: Sent, idx: nat)
    requires CarefulInv(wd) && Possible(wd, Arrives(w, idx))
    ensures Harmless(wd.st, w) && CarefulInv(Happens(wd, Arrives(w, idx)))
  {
    assert Quiet(wd.st, w);
    ArrivesKeeps(wd, w, idx);
  }

  // ---- the first rule ----

  lemma CarefulStepKeeps(wd: World, e: Event)
    requires CarefulInv(wd) && CarefulStep(wd, e).Some?
    ensures CarefulInv(Happens(wd, e)) && HarmlessStep(wd, e) == CarefulStep(wd, e)
  {
    match e
    case Does(a) => DoesKeepsQuiet(wd, a);
    case Sends(h, v) => SendsKeepsQuiet(wd, h, v);
    case Arrives(w, idx) => ArrivesKeepsQuiet(wd, w, idx);
  }

  /** If nobody locks with a session whose unlock is under way, every write is harmless whenever it arrives. */
  lemma CarefulRunsAreHarmless(wd: World, events: seq<Event>, end: World)
    requires LateInit(wd) && Reaches(CarefulStep, wd, events, end)
    ensures Reaches(HarmlessStep, wd, events, end)
  {
    forall s, e | CarefulInv(s) && CarefulStep(s, e).Some?
      ensures CarefulInv(CarefulStep(s, e).value) && HarmlessStep(s, e) == CarefulStep(s, e)
    {
      CarefulStepKeeps(s, e);
    }
    RunRefines(CarefulInv, CarefulStep, HarmlessStep, wd, events, end);
  }

  // ---- the second rule ----

  /** The session that a lock attempt is begun with. */
  function Begun(e: Event): set<string> {
    if e.Does? && e.a.BeginLock? then {e.a.session} else {}
  }

  /** No two lock attempts of the run are begun with the same session, nor is any with one of `begun`. */
  ghost predicate FreshSessions(begun: set<string>, events: seq<Event>) {
    && (forall i :: 0 <= i < |events| ==> Begun(events[i]) !! begun)
    && (forall i, j :: 0 <= i < j < |events| ==> Begun(events[i]) !! Begun(events[j]))
  }

  /** All sessions in use, or whose unlock is under way, were begun with. */
  ghost predicate FreshInv(wd: World, begun: set<string>) {
    && CarefulInv(wd)
    && (forall w :: w in wd.sent && w.Free? ==> w.session in begun)
    && (forall h :: h in wd.st.handles && Uses(wd.st.handles[h]).Some? ==> Uses(wd.st.handles[h]).value in begun)
  }

  lemma FreshIsCareful(wd: World, begun: set<string>, e: Event)
    requires FreshInv(wd, begun) && Possible(wd, e) && Begun(e) !! begun
    ensures Careful(wd, e)
  {
    if e.Does? && e.a.BeginLock? {
      assert e.a.session in Begun(e);
    }
  }

  lemma DoesKeepsFresh(wd: World, begun: set<string>, a: Action)
    requires FreshInv(wd, begun) && Possible(wd, Does(a)) && Careful(wd, Does(a))
    ensures FreshInv(Happens(wd, Does(a)), begun + Begun(Does(a)))
  {
    DoesKeepsQuiet(wd, a);
    forall h | h in Step(wd.st, a).handles
      ensures h in wd.st.handles
      ensures var used, used' := Uses(wd.st.handles[h]), Uses(Step(wd.st, a).handles[h]);
              used'.None? || used' == used || used'.value in Begun(Does(a))
    {
      StepUses(wd.st, a, h);
    }
  }

  lemma SendsKeepsFresh(wd: World, begun: set<string>, h: nat, value: string)
    requires FreshInv(wd, begun) && Possible(wd, Sends(h, value))
    ensures FreshInv(Happens(wd, Sends(h, value)), begun)
  {
    SendsKeepsQuiet(wd, h, value);
    DoesKeepsFresh(wd, begun, GiveUp(h));
    assert HandleOk(wd.st.history, wd.st.owner, h, wd.st.handles[h]);
  }

  lemma FreshStepKeeps(wd: World, begun: set<string>, e: Event)
    requires FreshInv(wd, begun) && Possible(wd, e) && Begun(e) !! begun
    ensures Careful(wd, e) && FreshInv(Happens(wd, e), begun + Begun(e))
  {
    FreshIsCareful(wd, begun, e);
    match e
    case Does(a) => DoesKeepsFresh(wd, begun, a);
    case Sends(h, v) => SendsKeepsFresh(wd, begun, h, v);
    case Arrives(w, idx) => ArrivesKeepsQuiet(wd, w, idx);
  }

  lemma {:induction false} FreshRunIsCareful(wd: World, begun: set<string>, events: seq<Event>, end: World)
    requires FreshInv(wd, begun) && FreshSessions(begun, events) && Reaches(LateStep, wd, events, end)
    ensures Reaches(CarefulStep, wd, events, end)
    decreases |events|
  {
    if events != [] {
      FreshStepKeeps(wd, begun, events[0]);
      FreshRunIsCareful(LateStep(wd, events[0]).value, begun + Begun(events[0]), events[1..], end);
    }
  }

  /**
    A Lock that is given no session makes one of its own. If every lock attempt of a run
    does, each write is harmless whenever it arrives, and the lock is exclusive.
   */
  lemma FreshRunsAreHarmless(wd: World, events: seq<Event>, end: World)
    requires LateInit(wd) && FreshSessions({}, events) && Reaches(LateStep, wd, events, end)
    ensures Reaches(HarmlessStep, wd, events, end)
  {
    FreshRunIsCareful(wd, {}, events, end);
    CarefulRunsAreHarmless(wd, events, end);
  }
}
