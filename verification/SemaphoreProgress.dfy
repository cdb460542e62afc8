/**
  What a handle gets done when nobody is in its way: a free slot is taken, a slot is given
  back, an unused semaphore is removed. And what stops it: a full semaphore, a lost race,
  an entry that is not a semaphore's or has another limit.
 */
module SemaphoreProgress {
  import opened Basics
  import opened KvStore
  import opened SemaphoreSpec
  import opened SemaphoreProtocol
  import opened SemaphoreAnyReads
  import opened SemaphoreSafety
  import opened SemaphoreTheorems
  import opened SemaphoreLate
  import opened Runs

  /** The holders whose session owns some key of the listing. */
  function Seen(kvs: Pairs, holders: set<string>): set<string> {
    set x | x in holders && x != "" && exists k :: k in kvs && kvs[k].session == x
  }

  lemma PrunedAreSeen(kvs: Pairs, holders: set<string>)
    ensures Pruned(holders, kvs) == Seen(kvs, holders)
  {
  }

  // ---- what one listing decides ----

  /** A handle goes on exactly if the entry is a semaphore's, of its own limit, and a slot is free. */
  lemma AttemptIsExact(limit: int, kvs: Pairs, x: string)
    requires LockKey in kvs
    ensures var e, a := kvs[LockKey], TryAcquire(limit, kvs, x);
            && (a.Conflict? <==> e.flags != SEMAPHORE_FLAG)
            && (e.flags == SEMAPHORE_FLAG && e.value.ContenderValue? ==> a.Undecodable?)
            && (e.flags == SEMAPHORE_FLAG && e.value.NoValue? ==>
                  a == if limit > 0 then Swap(LockValue(limit, {x}), e.modifyIndex) else Wait)
            && (e.flags == SEMAPHORE_FLAG && e.value.LockValue? ==>
                  var seen := Seen(kvs, e.value.holders);
                  && (a.LimitConflict? <==> e.value.limit != limit)
                  && (a.Wait? <==> e.value.limit == limit && |seen| >= limit)
                  && (a.Swap? <==> e.value.limit == limit && |seen| < limit)
                  && (a.Swap? ==> a == Swap(LockValue(limit, seen + {x}), e.modifyIndex)))
  {
    if kvs[LockKey].value.LockValue? {
      PrunedAreSeen(kvs, kvs[LockKey].value.holders);
    } else {
      assert Pruned({}, kvs) == {} && {} + {x} == {x};
    }
  }

  /** A destroy goes on exactly if the entry is a semaphore's and no holder is seen. */
  lemma RemovalIsExact(limit: int, kvs: Pairs)
    requires LockKey in kvs && kvs[LockKey].modifyIndex > 0
    ensures var e, r := kvs[LockKey], TryDestroy(limit, kvs);
            && (r.FlagConflict? <==> e.flags != SEMAPHORE_FLAG)
            && (e.flags == SEMAPHORE_FLAG && e.value.ContenderValue? ==> r.BadLock?)
            && (e.flags == SEMAPHORE_FLAG && e.value.NoValue? ==> r == Remove(e.modifyIndex))
            && (e.flags == SEMAPHORE_FLAG && e.value.LockValue? ==>
                  && (r.InUse? <==> Seen(kvs, e.value.holders) != {})
                  && (r.Remove? <==> Seen(kvs, e.value.holders) == {})
                  && (r.Remove? ==> r.cidx == e.modifyIndex))
  {
    if kvs[LockKey].value.LockValue? {
      PrunedAreSeen(kvs, kvs[LockKey].value.holders);
    } else {
      assert Pruned({}, kvs) == {};
    }
  }

  /** In any listing of any run, a handle that wants another limit than the stored one is refused. */
  lemma OtherLimitIsRefused(st: State, acts: seq<Action>, end: State, read: nat, other: int, x: string)
    requires Init(st) && Reaches(AnyStep, st, acts, end) && read < |end.history|
    requires LockKey in end.history[read].kvs && other != end.limit
    ensures TryAcquire(other, end.history[read].kvs, x).LimitConflict?
  {
    AnyRunKeeps(st, acts, end);
    assert LockShape(end.limit, end.history[read]);
    AttemptIsExact(other, end.history[read].kvs, x);
  }

  /** The holders of a store of the run that its own listing shows. */
  function InUse(s: SemStore): set<string> {
    Seen(s.kvs, Holders(s))
  }

  lemma StoreDecides(limit: nat, s: SemStore, x: string)
    requires 0 < limit && StoreOk(limit, s)
    ensures var a := TryAcquire(limit, s.kvs, x);
            if |InUse(s)| < limit then a == Swap(LockValue(limit, InUse(s) + {x}), LockOf(s.kvs).modifyIndex)
            else a == Wait
    ensures LockKey in s.kvs ==> (TryDestroy(limit, s.kvs).Remove? <==> InUse(s) == {})
    ensures LockKey !in s.kvs ==> TryDestroy(limit, s.kvs).NothingThere?
  {
    if LockKey in s.kvs {
      AttemptIsExact(limit, s.kvs, x);
      RemovalIsExact(limit, s.kvs);
    } else {
      assert Pruned({}, s.kvs) == {} == InUse(s);
    }
  }

  /** A listing that shows a free slot leads to a write, and any other back to waiting. */
  lemma ListingStep(st: State, h: nat, read: nat, free: bool)
    requires st.history != [] && h in st.handles && st.handles[h].pc.Waiting? && read < |st.history|
    requires var a := TryAcquire(st.limit, st.history[read].kvs, st.handles[h].lockSession);
             if free then a.Swap? else a.Wait?
    ensures Step(st, ListForAcquire(h, read))
         == SetHandle(st, h, st.handles[h].(pc := if free then Swapping(read) else Waiting))
  {
  }

  /** A waiting handle may act on a listing of any age, and goes on exactly if that shows a free slot. */
  lemma ListingDecides(st: State, h: nat, read: nat)
    requires Inv(st) && h in st.handles && st.handles[h].pc.Waiting? && read < |st.history|
    ensures Enabled(st, ListForAcquire(h, read))
    ensures Step(st, ListForAcquire(h, read))
         == SetHandle(st, h, st.handles[h].(pc := if |InUse(st.history[read])| < st.limit then Swapping(read)
                                                  else Waiting))
  {
    StoreDecides(st.limit, st.history[read], st.handles[h].lockSession);
    ListingStep(st, h, read, |InUse(st.history[read])| < st.limit);
  }

  /** The write that follows succeeds exactly if the lock entry still has its index; else the handle waits again. */
  lemma SwapDecides(st: State, h: nat, idx: nat)
    requires Inv(st) && h in st.handles && st.handles[h].pc.Swapping? && idx > Current(st).index
    ensures var hd := st.handles[h];
            var from := st.history[hd.pc.read];
            && hd.pc.read < |st.history| && Enabled(st, SwapAcquire(h, idx, Delivered))
            && var end := Step(st, SwapAcquire(h, idx, Delivered));
               if Unchanged(st, hd.pc.read)
               then end.handles[h] == hd.(isHeld := true, pc := Idle, since := |st.history|)
                    && Holders(Current(end)) == InUse(from) + {hd.lockSession}
               else end == SetHandle(Write(st, Current(st).(index := idx)), h, hd.(pc := Waiting))
  {
    var hd, s := st.handles[h], Current(st);
    assert HandleOk(st.limit, st.history, st.owner, h, hd);
    var from := st.history[hd.pc.read];
    StoreDecides(st.limit, from, hd.lockSession);
    var v := LockValue(st.limit, InUse(from) + {hd.lockSession});
    CasApplies(st.limit, s, idx, v, LockOf(from.kvs).modifyIndex);
    SwapEffect(st.limit, from, s, idx, v);
  }

  // ---- a free slot is taken ----

  lemma SafeStepKeeps(st: State, a: Action, end: State)
    requires Inv(st) && SafeStep(st, a) == Some(end)
    ensures Inv(end)
  {
    StepKeepsInv(st, a);
  }

  /** After a listing of the current store the entry is unchanged, so the write succeeds. */
  lemma CurrentSwapSucceeds(mid: State, h: nat, idx: nat) returns (end: State)
    requires Inv(mid) && h in mid.handles && mid.handles[h].pc == Swapping(|mid.history| - 1)
    requires idx > Current(mid).index
    ensures SafeStep(mid, SwapAcquire(h, idx, Delivered)) == Some(end)
    ensures h in end.handles && end.handles[h].isHeld && end.handles[h].lockSession == mid.handles[h].lockSession
    ensures end.history != [] && Holders(Current(end)) == InUse(Current(mid)) + {mid.handles[h].lockSession}
  {
    SwapDecides(mid, h, idx);
    end := Step(mid, SwapAcquire(h, idx, Delivered));
  }

  lemma CurrentListing(st: State, h: nat) returns (mid: State)
    requires Inv(st) && h in st.handles && st.handles[h].pc.Waiting? && |InUse(Current(st))| < st.limit
    ensures SafeStep(st, ListForAcquire(h, |st.history| - 1)) == Some(mid)
    ensures mid == SetHandle(st, h, st.handles[h].(pc := Swapping(|st.history| - 1)))
  {
    ListingDecides(st, h, |st.history| - 1);
    mid := Step(st, ListForAcquire(h, |st.history| - 1));
  }

  lemma ListingSafe(st: State, h: nat) returns (mid: State)
    requires Inv(st) && h in st.handles && st.handles[h].pc.Waiting? && |InUse(Current(st))| < st.limit
    ensures SafeStep(st, ListForAcquire(h, |st.history| - 1)) == Some(mid) && Inv(mid)
    ensures mid == SetHandle(st, h, st.handles[h].(pc := Swapping(|st.history| - 1)))
  {
    mid := CurrentListing(st, h);
    SafeStepKeeps(st, ListForAcquire(h, |st.history| - 1), mid);
  }

  /** A waiting handle that lists the current store and finds a free slot has it after its write. */
  lemma FreeSlotIsTaken(st: State, h: nat, idx: nat) returns (listed: State, end: State)
    requires Inv(st) && h in st.handles && st.handles[h].pc.Waiting? && idx > Current(st).index
    requires |InUse(Current(st))| < st.limit
    ensures SafeStep(st, ListForAcquire(h, |st.history| - 1)) == Some(listed)
    ensures SafeStep(listed, SwapAcquire(h, idx, Delivered)) == Some(end)
    ensures h in end.handles && end.handles[h].isHeld && end.handles[h].lockSession == st.handles[h].lockSession
    ensures end.history != [] && Holders(Current(end)) == InUse(Current(st)) + {st.handles[h].lockSession}
  {
    listed := ListingSafe(st, h);
    end := CurrentSwapSucceeds(listed, h, idx);
  }

  /** A contender lock by the session itself succeeds, and shows no further holder. */
  lemma ContenderTaken(limit: nat, s: SemStore, idx: nat, x: string, payload: string)
    requires StoreOk(limit, s) && idx > s.index && x in s.live
    ensures var (s', reply) := Apply(s, idx, ContenderCommand(x, payload));
            reply == Answer(true) && HasContender(s', x) && s'.index == idx && InUse(s') == InUse(s)
  {
    var s' := Apply(s, idx, ContenderCommand(x, payload)).0;
    ContenderLockEffect(s, idx, x, payload);
    assert Holders(s') == Holders(s);
    forall y | y in Holders(s) ensures y in InUse(s') <==> y in InUse(s) {
      if k :| k in s.kvs && s.kvs[k].session == y && y != "" {
        assert k in s'.kvs && s'.kvs[k].session == y;
      }
      if k :| k in s'.kvs && s'.kvs[k].session == y && y != "" {
        assert y != x ==> k in s.kvs && s.kvs[k].session == y;
      }
    }
  }

  lemma ContenderIsMade(st: State, h: nat, x: string, payload: string, idx: nat) returns (mid: State, end: State)
    requires Inv(st) && h in st.handles && st.handles[h].pc.Idle? && !st.handles[h].isHeld
    requires Owns(st.owner, h, x) && x in Current(st).live && idx > Current(st).index
    ensures SafeStep(st, BeginAcquire(h, x)) == Some(mid)
    ensures SafeStep(mid, MakeContender(h, payload, idx, Delivered)) == Some(end)
    ensures Inv(end) && h in end.handles && end.handles[h].pc.Waiting? && end.handles[h].lockSession == x
    ensures |end.history| == |st.history| + 1 && end.limit == st.limit && Current(end).index == idx
    ensures InUse(Current(end)) == InUse(Current(st))
  {
    mid := Step(st, BeginAcquire(h, x));
    StepKeepsInv(st, BeginAcquire(h, x));
    ContenderTaken(st.limit, Current(st), idx, x, payload);
    end := Step(mid, MakeContender(h, payload, idx, Delivered));
    StepKeepsInv(mid, MakeContender(h, payload, idx, Delivered));
  }

  /** An Acquire with a live session ends with the slot if fewer holders than the limit are in use. */
  lemma AcquireCompletes(st: State, h: nat, x: string, payload: string, i: nat, j: nat)
    returns (begun: State, waiting: State, listed: State, end: State)
    requires Inv(st) && h in st.handles && st.handles[h].pc.Idle? && !st.handles[h].isHeld
    requires Owns(st.owner, h, x) && x in Current(st).live && Current(st).index < i < j
    requires |InUse(Current(st))| < st.limit
    ensures SafeStep(st, BeginAcquire(h, x)) == Some(begun)
    ensures SafeStep(begun, MakeContender(h, payload, i, Delivered)) == Some(waiting)
    ensures SafeStep(waiting, ListForAcquire(h, |st.history|)) == Some(listed)
    ensures SafeStep(listed, SwapAcquire(h, j, Delivered)) == Some(end)
    ensures h in end.handles && end.handles[h].isHeld && end.handles[h].lockSession == x
    ensures end.history != [] && Holders(Current(end)) == InUse(Current(st)) + {x}
  {
    begun, waiting := ContenderIsMade(st, h, x, payload, i);
    listed, end := FreeSlotIsTaken(waiting, h, j);
  }

  // ---- a slot is given back ----

  lemma ReleaseBegins(st: State, h: nat) returns (mid: State)
    requires Inv(st) && h in HoldingHandles(st)
    ensures SafeStep(st, BeginRelease(h)) == Some(mid)
    ensures var hd := st.handles[h];
            mid == SetHandle(st, h, Handle(false, "", Reading(hd.lockSession), hd.since))
            && hd.lockSession in Holders(Current(st))
  {
    assert HandleOk(st.limit, st.history, st.owner, h, st.handles[h]);
    mid := Step(st, BeginRelease(h));
  }

  /** The lock entry of the current store shows the holder, so a release goes on to its write. */
  lemma ReleaseIsRead(st: State, h: nat) returns (end: State)
    requires Inv(st) && h in st.handles && st.handles[h].pc.Reading?
    requires st.handles[h].pc.session in Holders(Current(st))
    ensures SafeStep(st, ReadForRelease(h, |st.history| - 1)) == Some(end)
    ensures end == SetHandle(st, h, st.handles[h].(pc := Unholding(st.handles[h].pc.session, |st.history| - 1)))
  {
    end := Step(st, ReadForRelease(h, |st.history| - 1));
  }

  /** The release write succeeds exactly if the lock entry still has its index; else the entry is read again. */
  lemma ReleaseDecides(st: State, h: nat, idx: nat)
    requires Inv(st) && h in st.handles && st.handles[h].pc.Unholding? && idx > Current(st).index
    ensures var hd := st.handles[h];
            var x := hd.pc.session;
            && hd.pc.read < |st.history| && Enabled(st, SwapRelease(h, idx, Delivered))
            && var end := Step(st, SwapRelease(h, idx, Delivered));
               if Unchanged(st, hd.pc.read)
               then end.handles == st.handles[h := hd.(pc := Dropping(x))]
                    && Holders(Current(end)) == Holders(Current(st)) - {x} && Current(end).index == idx
               else end == SetHandle(Write(st, Current(st).(index := idx)), h, hd.(pc := Reading(x)))
  {
    var hd, s := st.handles[h], Current(st);
    assert HandleOk(st.limit, st.history, st.owner, h, hd);
    var from := st.history[hd.pc.read];
    ReleaseCommandIs(st, hd.pc.read, hd.pc.session);
    var v := LockValue(st.limit, Holders(from) - {hd.pc.session});
    CasApplies(st.limit, s, idx, v, LockOf(from.kvs).modifyIndex);
    SwapEffect(st.limit, from, s, idx, v);
  }

  /** After a read of the current store the release write succeeds. */
  lemma CurrentRelease(st: State, h: nat, idx: nat) returns (end: State)
    requires Inv(st) && h in st.handles && idx > Current(st).index
    requires st.handles[h].pc.Unholding? && st.handles[h].pc.read == |st.history| - 1
    ensures SafeStep(st, SwapRelease(h, idx, Delivered)) == Some(end) && end.history != []
    ensures var x := st.handles[h].pc.session;
            && end.handles == st.handles[h := st.handles[h].(pc := Dropping(x))]
            && Holders(Current(end)) == Holders(Current(st)) - {x} && Current(end).index == idx
  {
    ReleaseDecides(st, h, idx);
    end := Step(st, SwapRelease(h, idx, Delivered));
  }

  lemma ContenderIsDropped(st: State, h: nat, idx: nat) returns (end: State)
    requires st.history != [] && h in st.handles && st.handles[h].pc.Dropping? && idx > Current(st).index
    ensures SafeStep(st, DropContender(h, idx, Delivered)) == Some(end)
    ensures end.handles == st.handles[h := st.handles[h].(pc := Idle)] && end.history != []
    ensures Holders(Current(end)) == Holders(Current(st))
    ensures Current(end).kvs == Current(st).kvs - {ContenderKey(st.handles[h].pc.session)}
  {
    end := Step(st, DropContender(h, idx, Delivered));
  }

  lemma ReleaseReads(st: State, h: nat) returns (begun: State, read: State)
    requires Inv(st) && h in HoldingHandles(st)
    ensures SafeStep(st, BeginRelease(h)) == Some(begun)
    ensures SafeStep(begun, ReadForRelease(h, |st.history| - 1)) == Some(read) && Inv(read)
    ensures var hd := st.handles[h];
            read == SetHandle(st, h, Handle(false, "", Unholding(hd.lockSession, |st.history| - 1), hd.since))
  {
    begun := ReleaseBegins(st, h);
    SafeStepKeeps(st, BeginRelease(h), begun);
    read := ReleaseIsRead(begun, h);
    SafeStepKeeps(begun, ReadForRelease(h, |st.history| - 1), read);
  }

  lemma ReleaseWrites(read: State, h: nat, i: nat, j: nat) returns (swapped: State, end: State)
    requires Inv(read) && h in read.handles && Current(read).index < i < j
    requires read.handles[h].pc.Unholding? && read.handles[h].pc.read == |read.history| - 1
    ensures SafeStep(read, SwapRelease(h, i, Delivered)) == Some(swapped)
    ensures SafeStep(swapped, DropContender(h, j, Delivered)) == Some(end) && end.history != []
    ensures var x := read.handles[h].pc.session;
            && end.handles == read.handles[h := read.handles[h].(pc := Idle)]
            && Holders(Current(end)) == Holders(Current(read)) - {x} && ContenderKey(x) !in Current(end).kvs
  {
    swapped := CurrentRelease(read, h, i);
    end := ContenderIsDropped(swapped, h, j);
    assert swapped.handles[h := swapped.handles[h].(pc := Idle)] == read.handles[h := read.handles[h].(pc := Idle)];
  }

  /** A Release by a live holder gives back its slot, and no other, and removes its contender entry. */
  lemma ReleaseCompletes(st: State, h: nat, i: nat, j: nat)
    returns (begun: State, read: State, swapped: State, end: State)
    requires Inv(st) && h in HoldingHandles(st) && Current(st).index < i < j
    ensures SafeStep(st, BeginRelease(h)) == Some(begun)
    ensures SafeStep(begun, ReadForRelease(h, |st.history| - 1)) == Some(read)
    ensures SafeStep(read, SwapRelease(h, i, Delivered)) == Some(swapped)
    ensures SafeStep(swapped, DropContender(h, j, Delivered)) == Some(end)
    ensures var x := st.handles[h].lockSession;
            && end.handles == st.handles[h := Handle(false, "", Idle, st.handles[h].since)] && end.history != []
            && Holders(Current(end)) == Holders(Current(st)) - {x} && ContenderKey(x) !in Current(end).kvs
  {
    begun, read := ReleaseReads(st, h);
    swapped, end := ReleaseWrites(read, h, i, j);
  }

  // ---- an unused semaphore is removed ----

  /** A destroy may act on a listing of any age, and goes on exactly if that shows an entry without holders. */
  lemma DestroyDecides(st: State, h: nat, read: nat)
    requires Inv(st) && h in st.handles && st.handles[h].pc.Idle? && !st.handles[h].isHeld && read < |st.history|
    ensures Enabled(st, ListForDestroy(h, read))
    ensures var s := st.history[read];
            Step(st, ListForDestroy(h, read))
            == SetHandle(st, h, st.handles[h].(pc := if LockKey in s.kvs && InUse(s) == {} then Destroying(read)
                                                     else Idle))
  {
    StoreDecides(st.limit, st.history[read], "");
  }

  /** The removal takes place exactly if the entry still has its index; it reports success exactly if none is left. */
  lemma RemovalDecides(st: State, h: nat, idx: nat) returns (end: State)
    requires Inv(st) && h in st.handles && st.handles[h].pc.Destroying? && idx > Current(st).index
    ensures SafeStep(st, SwapDestroy(h, idx, Delivered)) == Some(end) && end.history != []
    ensures end.handles == st.handles[h := st.handles[h].(pc := Idle)]
    ensures var read := st.handles[h].pc.read;
            && read < |st.history|
            && Current(end).kvs == (if Unchanged(st, read) then Current(st).kvs - {LockKey} else Current(st).kvs)
            && (Apply(Current(st), idx, DestroyCommand(st, read)).1 == Answer(true) <==> LockKey !in Current(end).kvs)
  {
    assert HandleOk(st.limit, st.history, st.owner, h, st.handles[h]);
    assert StoreOk(st.limit, st.history[st.handles[h].pc.read]);
    end := Step(st, SwapDestroy(h, idx, Delivered));
  }

  lemma CurrentDestroy(st: State, h: nat) returns (mid: State)
    requires Inv(st) && h in st.handles && st.handles[h].pc.Idle? && !st.handles[h].isHeld
    requires LockKey in Current(st).kvs && InUse(Current(st)) == {}
    ensures SafeStep(st, ListForDestroy(h, |st.history| - 1)) == Some(mid)
    ensures mid == SetHandle(st, h, st.handles[h].(pc := Destroying(|st.history| - 1)))
  {
    DestroyDecides(st, h, |st.history| - 1);
    mid := Step(st, ListForDestroy(h, |st.history| - 1));
  }

  lemma DestroyListed(st: State, h: nat) returns (mid: State)
    requires Inv(st) && h in st.handles && st.handles[h].pc.Idle? && !st.handles[h].isHeld
    requires LockKey in Current(st).kvs && InUse(Current(st)) == {}
    ensures SafeStep(st, ListForDestroy(h, |st.history| - 1)) == Some(mid) && Inv(mid)
    ensures mid == SetHandle(st, h, st.handles[h].(pc := Destroying(|st.history| - 1)))
  {
    mid := CurrentDestroy(st, h);
    SafeStepKeeps(st, ListForDestroy(h, |st.history| - 1), mid);
  }

  /** A Destroy of a semaphore whose holders have all gone, dead ones included, removes its entry. */
  lemma DestroyCompletes(st: State, h: nat, idx: nat) returns (listed: State, end: State)
    requires Inv(st) && h in st.handles && st.handles[h].pc.Idle? && !st.handles[h].isHeld
    requires LockKey in Current(st).kvs && InUse(Current(st)) == {} && idx > Current(st).index
    ensures SafeStep(st, ListForDestroy(h, |st.history| - 1)) == Some(listed)
    ensures SafeStep(listed, SwapDestroy(h, idx, Delivered)) == Some(end)
    ensures end.history != [] && Current(end).kvs == Current(st).kvs - {LockKey}
  {
    listed := DestroyListed(st, h);
    end := RemovalDecides(listed, h, idx);
  }

  // ---- what ends a call ----

  /** A call whose reply is lost, before or after it took effect, ends with nothing more than it had. */
  lemma LostReplyEnds(st: State, a: Action)
    requires st.history != [] && Enabled(st, a)
    requires a.MakeContender? || a.SwapAcquire? || a.SwapRelease? || a.DropContender? || a.SwapDestroy?
    requires !a.fate.Delivered?
    ensures Step(st, a).handles == st.handles[a.h := st.handles[a.h].(pc := Idle)]
  {
  }

  /** An Acquire ends at a listing that is not a semaphore's, cannot be read or has another limit. */
  lemma ErrorEnds(st: State, h: nat, read: nat)
    requires st.history != [] && Enabled(st, ListForAcquire(h, read))
    requires var a := TryAcquire(st.limit, st.history[read].kvs, st.handles[h].lockSession);
             a.Conflict? || a.Undecodable? || a.LimitConflict?
    ensures Step(st, ListForAcquire(h, read)) == SetHandle(st, h, st.handles[h].(pc := Idle))
  {
  }

  /** It also ends, before it lists anything, if its session is dead. */
  lemma DeadSessionEnds(st: State, h: nat, payload: string, idx: nat)
    requires Inv(st) && h in st.handles && st.handles[h].pc.NeedContender? && idx > Current(st).index
    requires st.handles[h].lockSession !in Current(st).live
    ensures Enabled(st, MakeContender(h, payload, idx, Delivered))
    ensures var end := Step(st, MakeContender(h, payload, idx, Delivered));
            end.handles == st.handles[h := st.handles[h].(pc := Idle)] && Current(end).kvs == Current(st).kvs
  {
  }

  /**
    A release may read an entry of any age: it writes exactly if that lists the session, and
    otherwise goes on to drop the contender entry.
   */
  lemma ReleaseReadDecides(st: State, h: nat, read: nat)
    requires Inv(st) && h in st.handles && st.handles[h].pc.Reading? && read < |st.history|
    ensures Enabled(st, ReadForRelease(h, read))
    ensures var x := st.handles[h].pc.session;
            Step(st, ReadForRelease(h, read))
            == SetHandle(st, h, st.handles[h].(pc := if x in Holders(st.history[read]) then Unholding(x, read)
                                                     else Dropping(x)))
  {
    assert StoreOk(st.limit, st.history[read]);
  }

  // ---- every entry is marked as a semaphore's ----

  ghost predicate Flagged(s: SemStore) {
    forall k :: k in s.kvs ==> s.kvs[k].flags == SEMAPHORE_FLAG
  }

  /** The command writes no entry without the flag. */
  ghost predicate WritesFlag(c: Command<Key, Value>) {
    (c.Cas? || c.Lock? || c.Unlock?) ==> c.flags == SEMAPHORE_FLAG
  }

  lemma CommandKeepsFlags(s: SemStore, idx: nat, c: Command<Key, Value>)
    requires Flagged(s) && WritesFlag(c)
    ensures Flagged(Apply(s, idx, c).0)
  {
  }

  lemma StepWritesFlag(st: State, a: Action)
    requires st.history != [] && Enabled(st, a)
    ensures CommandOf(st, a).Some? ==> WritesFlag(CommandOf(st, a).value)
  {
  }

  lemma CallKeepsFlags(st: State, st': State, idx: nat, c: Command<Key, Value>, fate: Fate)
    requires st.history != [] && Flagged(Current(st)) && WritesFlag(c)
    requires st'.history == st.history + [Call(Current(st), idx, c, fate).0]
    ensures Flagged(Current(st'))
  {
    CommandKeepsFlags(Current(st), idx, c);
  }

  lemma FlagsKept(st: State, a: Action)
    requires st.history != [] && Enabled(st, a) && Flagged(Current(st))
    ensures Step(st, a).history != [] && Flagged(Current(Step(st, a)))
  {
    var st', c := Step(st, a), CommandOf(st, a);
    StepStore(st, a);
    if c.Some? {
      StepWritesFlag(st, a);
      CallKeepsFlags(st, st', a.idx, c.value, FateOf(a));
    }
  }

  /** Whatever the age of the reads, every entry under the prefix carries the flag that a lock would refuse. */
  lemma EveryEntryIsFlagged(st: State, acts: seq<Action>, end: State)
    requires Init(st) && Reaches(AnyStep, st, acts, end)
    ensures end.history != [] && Flagged(Current(end))
  {
    var inv := (s: State) => s.history != [] && Flagged(Current(s));
    forall s, a | inv(s) && AnyStep(s, a).Some? ensures inv(AnyStep(s, a).value) {
      FlagsKept(s, a);
    }
    RunKeeps(inv, AnyStep, st, acts, end);
  }
}
