/**
  What a handle gets done when nobody is in its way: a free key is taken, also after others
  had it and gave it back or died, a held key is given back, an unused key is deleted. And
  what stops it: another owner, a refused write, a key that is not a lock's.
 */
module LockProgress {
  import opened Basics
  import opened KvStore
  import opened LockProtocol
  import opened LockSafety

  /** The key is there, and a lock's. */
  predicate IsLock(s: LockStore) {
    LockKey in s.kvs && s.kvs[LockKey].flags == LOCK_FLAG
  }

  /** Nobody owns the key: it is absent, or a lock's without a session. */
  predicate Unowned(s: LockStore) {
    LockKey !in s.kvs || (IsLock(s) && s.kvs[LockKey].session == "")
  }

  /**
    An attempt may act on a read of any age: it ends at a key that is not a lock's, and goes
    on waiting exactly if another session owns the lock.
   */
  lemma ReadDecides(st: State, h: nat, read: nat)
    requires Inv(st) && h in st.handles && st.handles[h].pc.Trying? && read < |st.history|
    ensures Enabled(st, ReadForLock(h, read))
    ensures var s, x := st.history[read], st.handles[h].lockSession;
            var pc := Step(st, ReadForLock(h, read)).handles[h].pc;
            && (LockKey in s.kvs && !IsLock(s) <==> pc.Idle?)
            && (Unowned(s) <==> pc.Acquiring?)
            && (IsLock(s) && OwnsKey(s, x) <==> pc.SawOwn?)
            && (IsLock(s) && !Unowned(s) && !OwnsKey(s, x) <==> pc.Trying?)
  {
    UsesOwned(st, h);
  }

  /** A write that finds the key free takes it; one that finds another owner leaves the handle trying. */
  lemma TakeDecides(st: State, h: nat, v: string, idx: nat) returns (end: State)
    requires Inv(st) && h in st.handles && st.handles[h].pc.Acquiring? && idx > Current(st).index
    requires st.handles[h].lockSession in Current(st).live
    ensures SafeStep(st, TakeKey(h, v, idx, Delivered)) == Some(end) && end.history != [] && h in end.handles
    ensures var s, x := Current(st), st.handles[h].lockSession;
            if SessionOf(s, LockKey) == "" || OwnsKey(s, x)
            then Holds(end, h) && OwnsKey(Current(end), x) && Current(end).kvs[LockKey].value == v
                 && Current(end).kvs[LockKey].flags == LOCK_FLAG && end.handles[h].lockSession == x
            else end.handles[h] == st.handles[h].(pc := Trying) && Current(end) == s.(index := idx)
  {
    UsesOwned(st, h);
    end := Step(st, TakeKey(h, v, idx, Delivered));
  }

  /** A lock-delay, too, leaves the handle trying. */
  lemma DelayRetries(st: State, h: nat, v: string, idx: nat)
    requires Inv(st) && h in st.handles && st.handles[h].pc.Acquiring? && idx > Current(st).index
    ensures SafeStep(st, TakeKey(h, v, idx, Delayed))
         == Some(SetHandle(Write(st, Current(st)), h, st.handles[h].(pc := Trying)))
  {
  }

  /** A lost reply ends the attempt, and so does a dead session. */
  lemma LostReplyEnds(st: State, h: nat, v: string, idx: nat, fate: Fate)
    requires Inv(st) && h in st.handles && st.handles[h].pc.Acquiring? && idx > Current(st).index
    requires fate.LostAfter? || fate.LostBefore? || (fate.Delivered? && st.handles[h].lockSession !in Current(st).live)
    ensures Enabled(st, TakeKey(h, v, idx, fate))
    ensures Step(st, TakeKey(h, v, idx, fate)).handles == st.handles[h := st.handles[h].(pc := Idle)]
  {
  }

  /** An unlock or a delete is tried once, whatever comes of it. */
  lemma OneTryOnly(st: State, a: Action)
    requires st.history != [] && Enabled(st, a) && (a.FreeKey? || a.DeleteKey?)
    ensures var hd' := Step(st, a).handles[a.h]; hd'.pc.Idle? && hd'.isHeld == st.handles[a.h].isHeld
  {
  }

  lemma SafeStepKeeps(st: State, a: Action, end: State)
    requires Inv(st) && SafeStep(st, a) == Some(end)
    ensures Inv(end)
  {
    StepKeepsInv(st, a);
  }

  lemma FreeKeyIsRead(st: State, h: nat) returns (mid: State)
    requires Inv(st) && h in st.handles && st.handles[h].pc.Trying? && Unowned(Current(st))
    ensures SafeStep(st, ReadForLock(h, |st.history| - 1)) == Some(mid)
    ensures mid == SetHandle(st, h, st.handles[h].(pc := Acquiring))
  {
    ReadDecides(st, h, |st.history| - 1);
    mid := Step(st, ReadForLock(h, |st.history| - 1));
  }

  /** An attempt that reads the current store and finds the key free has it after its write. */
  lemma FreeKeyIsTaken(st: State, h: nat, v: string, idx: nat) returns (mid: State, end: State)
    requires Inv(st) && h in st.handles && st.handles[h].pc.Trying? && idx > Current(st).index
    requires st.handles[h].lockSession in Current(st).live && Unowned(Current(st))
    ensures SafeStep(st, ReadForLock(h, |st.history| - 1)) == Some(mid)
    ensures SafeStep(mid, TakeKey(h, v, idx, Delivered)) == Some(end)
    ensures end.history != [] && Holds(end, h) && end.handles[h].lockSession == st.handles[h].lockSession
  {
    mid := FreeKeyIsRead(st, h);
    SafeStepKeeps(st, ReadForLock(h, |st.history| - 1), mid);
    end := TakeDecides(mid, h, v, idx);
  }

  /** A Lock with a live session ends with the lock if the key is free. */
  lemma LockCompletes(st: State, h: nat, x: string, v: string, idx: nat) returns (begun: State, read: State, end: State)
    requires Inv(st) && h in st.handles && st.handles[h].pc.Idle? && !st.handles[h].isHeld
    requires Owns(st.owner, h, x) && x in Current(st).live && Unowned(Current(st)) && idx > Current(st).index
    ensures SafeStep(st, BeginLock(h, x)) == Some(begun)
    ensures SafeStep(begun, ReadForLock(h, |st.history| - 1)) == Some(read)
    ensures SafeStep(read, TakeKey(h, v, idx, Delivered)) == Some(end)
    ensures end.history != [] && Holds(end, h) && end.handles[h].lockSession == x
  {
    begun := Step(st, BeginLock(h, x));
    SafeStepKeeps(st, BeginLock(h, x), begun);
    read, end := FreeKeyIsTaken(begun, h, v, idx);
  }

  /** An attempt of a session that owns the key, after a reply that was lost, has it without a write. */
  lemma OwnerHolds(st: State, h: nat) returns (mid: State, end: State)
    requires Inv(st) && h in st.handles && st.handles[h].pc.Trying?
    requires IsLock(Current(st)) && OwnsKey(Current(st), st.handles[h].lockSession)
    requires st.handles[h].lockSession in Current(st).live
    ensures SafeStep(st, ReadForLock(h, |st.history| - 1)) == Some(mid)
    ensures SafeStep(mid, BecomeHeld(h)) == Some(end) && end.history == st.history && Holds(end, h)
  {
    ReadDecides(st, h, |st.history| - 1);
    mid := Step(st, ReadForLock(h, |st.history| - 1));
    end := Step(mid, BecomeHeld(h));
  }

  // ---- the key is given back ----

  /** An Unlock by a live holder leaves the key there, with the value it sent, for anyone to take. */
  lemma UnlockCompletes(st: State, h: nat, v: string, idx: nat) returns (begun: State, end: State)
    requires Inv(st) && Holds(st, h) && idx > Current(st).index
    ensures SafeStep(st, BeginUnlock(h)) == Some(begun)
    ensures SafeStep(begun, FreeKey(h, v, idx, Delivered)) == Some(end)
    ensures end.history != [] && LockKey in Current(end).kvs && Unowned(Current(end))
    ensures Current(end).kvs[LockKey].value == v && Current(end).live == Current(st).live && Current(end).index == idx
    ensures end.handles == st.handles[h := Handle(false, "", Idle, |st.history|)]
  {
    assert HandleOk(st.history, st.owner, h, st.handles[h]);
    UsesOwned(st, h);
    begun := Step(st, BeginUnlock(h));
    end := Step(begun, FreeKey(h, v, idx, Delivered));
  }

  /**
    The death of the owner frees the key: with the release behavior it stays, with its
    value, and with the delete behavior it goes. Either way anyone may take it.
   */
  lemma DeathFreesKey(st: State, x: string, idx: nat) returns (end: State)
    requires Inv(st) && IsLock(Current(st)) && OwnsKey(Current(st), x) && x in Current(st).live
    requires idx > Current(st).index
    ensures SafeStep(st, Invalidate(x, idx)) == Some(end) && end.history != [] && Unowned(Current(end))
    ensures end.handles == st.handles && Current(end).live == Current(st).live - {x} && Current(end).index == idx
    ensures LockKey in Current(end).kvs <==> Current(st).live[x] == ReleaseKeys
    ensures LockKey in Current(end).kvs ==> Current(end).kvs[LockKey].value == Current(st).kvs[LockKey].value
  {
    end := Step(st, Invalidate(x, idx));
  }

  /** Whoever waits for the lock has it after the holder's unlock and an attempt of its own. */
  lemma UnlockPassesOn(st: State, h: nat, g: nat, v: string, idx: nat, w: string, next: nat)
    returns (begun: State, freed: State, read: State, end: State)
    requires Inv(st) && Holds(st, h) && Current(st).index < idx < next
    requires g in st.handles && g != h && st.handles[g].pc.Trying? && st.handles[g].lockSession in Current(st).live
    ensures SafeStep(st, BeginUnlock(h)) == Some(begun)
    ensures SafeStep(begun, FreeKey(h, v, idx, Delivered)) == Some(freed)
    ensures freed.history != [] && SafeStep(freed, ReadForLock(g, |freed.history| - 1)) == Some(read)
    ensures SafeStep(read, TakeKey(g, w, next, Delivered)) == Some(end) && end.history != [] && Holds(end, g)
  {
    begun, freed := UnlockCompletes(st, h, v, idx);
    SafeStepKeeps(st, BeginUnlock(h), begun);
    SafeStepKeeps(begun, FreeKey(h, v, idx, Delivered), freed);
    read, end := FreeKeyIsTaken(freed, g, w, next);
  }

  /** The same after the death of the owner. */
  lemma DeathPassesOn(st: State, x: string, g: nat, idx: nat, w: string, next: nat)
    returns (freed: State, read: State, end: State)
    requires Inv(st) && IsLock(Current(st)) && OwnsKey(Current(st), x) && x in Current(st).live
    requires g in st.handles && st.handles[g].pc.Trying? && st.handles[g].lockSession in Current(st).live
    requires st.handles[g].lockSession != x && Current(st).index < idx < next
    ensures SafeStep(st, Invalidate(x, idx)) == Some(freed)
    ensures freed.history != [] && SafeStep(freed, ReadForLock(g, |freed.history| - 1)) == Some(read)
    ensures SafeStep(read, TakeKey(g, w, next, Delivered)) == Some(end) && end.history != [] && Holds(end, g)
  {
    freed := DeathFreesKey(st, x, idx);
    SafeStepKeeps(st, Invalidate(x, idx), freed);
    read, end := FreeKeyIsTaken(freed, g, w, next);
  }

  // ---- an unused key is deleted ----

  /** A destroy may act on a read of any age, and goes on exactly if that shows a lock without an owner. */
  lemma DestroyDecides(st: State, h: nat, read: nat)
    requires Inv(st) && h in st.handles && st.handles[h].pc.Idle? && !st.handles[h].isHeld && read < |st.history|
    ensures Enabled(st, ReadForDestroy(h, read))
    ensures Step(st, ReadForDestroy(h, read)).handles[h].pc
         == if IsLock(st.history[read]) && Unowned(st.history[read]) then Destroying(read) else Idle
  {
  }

  lemma DestroyCompletes(st: State, h: nat, idx: nat) returns (mid: State, end: State)
    requires Inv(st) && h in st.handles && st.handles[h].pc.Idle? && !st.handles[h].isHeld
    requires LockKey in Current(st).kvs && Unowned(Current(st)) && idx > Current(st).index
    ensures SafeStep(st, ReadForDestroy(h, |st.history| - 1)) == Some(mid)
    ensures SafeStep(mid, DeleteKey(h, idx, Delivered)) == Some(end)
    ensures end.history != [] && LockKey !in Current(end).kvs
  {
    DestroyDecides(st, h, |st.history| - 1);
    mid := Step(st, ReadForDestroy(h, |st.history| - 1));
    end := Step(mid, DeleteKey(h, idx, Delivered));
  }
}
