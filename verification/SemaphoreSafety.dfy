/**
  Safety of the semaphore over every run: the stored holders never exceed the
  limit, a live handle that holds a slot is among them, and neither pruning nor
  destroying ever takes a slot away from a live session, however old the listing.
 */
module SemaphoreSafety {
  import opened Basics
  import opened KvStore
  import opened SemaphoreSpec
  import opened SemaphoreProtocol
  import opened SemaphoreAnyReads

  // ---- invariants ----

  /** True of every store of every run: a live holder still has its contender entry. */
  ghost predicate StoreOk(limit: nat, s: SemStore) {
    && LockShape(limit, s)
    && (forall x :: ContenderKey(x) in s.kvs ==>
          s.kvs[ContenderKey(x)].session == "" || s.kvs[ContenderKey(x)].session == x)
    && Holders(s) <= s.created
    && (forall x :: x in Holders(s) && x in s.live ==> HasContender(s, x))
  }

  ghost predicate HistoryOk(limit: nat, history: seq<SemStore>) {
    && history != []
    && (forall i :: 0 <= i < |history| ==> StoreOk(limit, history[i]))
    && (forall i :: 0 <= i < |history| ==> Later(history[i], history[|history| - 1]))
  }

  predicate Owns(owner: map<string, nat>, id: nat, x: string) {
    x in owner && owner[x] == id
  }

  /** The session whose slot the handle has: taken, and not yet given back by a write of its own. */
  function Claim(hd: Handle): Option<string> {
    if hd.isHeld then Some(hd.lockSession)
    else if hd.pc.Reading? || hd.pc.Unholding? then Some(hd.pc.session)
    else None
  }

  /** The session that the handle is working with. */
  function Uses(hd: Handle): Option<string> {
    if Claim(hd).Some? then Claim(hd)
    else match hd.pc
      case NeedContender => Some(hd.lockSession)
      case Waiting => Some(hd.lockSession)
      case Swapping(_) => Some(hd.lockSession)
      case Dropping(x) => Some(x)
      case _ => None
  }

  /** What a handle may rely on at its place in the code. */
  ghost predicate HandleOk(limit: nat, history: seq<SemStore>, owner: map<string, nat>, id: nat, hd: Handle)
    requires history != []
  {
    var s := history[|history| - 1];
    && (hd.isHeld ==> hd.pc.Idle?)
    && (Claim(hd).Some? ==>
          var x := Claim(hd).value;
          Owns(owner, id, x) && (x in s.live ==> x in Holders(s)))
    && match hd.pc
       case Idle => true
       case NeedContender => Owns(owner, id, hd.lockSession)
       case Waiting =>
         Owns(owner, id, hd.lockSession) && (hd.lockSession in s.live ==> HasContender(s, hd.lockSession))
       case Swapping(read) =>
         && Owns(owner, id, hd.lockSession) && (hd.lockSession in s.live ==> HasContender(s, hd.lockSession))
         && read < |history| && TryAcquire(limit, history[read].kvs, hd.lockSession).Swap?
       case Reading(x) => true
       case Unholding(x, read) => read < |history| && x in Holders(history[read])
       case Dropping(x) => Owns(owner, id, x) && (x in s.live ==> x !in Holders(s))
       case Destroying(read) => read < |history| && TryDestroy(limit, history[read].kvs).Remove?
  }

  ghost predicate Inv(st: State) {
    && 0 < st.limit
    && HistoryOk(st.limit, st.history)
    && st.owner.Keys <= Current(st).created
    && (forall id :: id in st.handles ==> HandleOk(st.limit, st.history, st.owner, id, st.handles[id]))
  }

  // ---- what a write may change for the sessions it is not about ----

  /** From `s` to `s'` nothing changed for sessions that are still live, except perhaps for `y`. */
  ghost predicate Frame(s: SemStore, s': SemStore, y: string) {
    && Later(s, s')
    && (forall x :: x != y && x in s.created && x in s'.live ==>
          && (x in Holders(s) <==> x in Holders(s'))
          && (HasContender(s, x) ==> HasContender(s', x)))
  }

  lemma HistoryGrows(limit: nat, history: seq<SemStore>, s': SemStore)
    requires HistoryOk(limit, history) && StoreOk(limit, s') && Later(history[|history| - 1], s')
    ensures HistoryOk(limit, history + [s'])
  {
  }

  /** A handle works with a session of its own. */
  lemma UsesOwned(limit: nat, history: seq<SemStore>, owner: map<string, nat>, id: nat, hd: Handle)
    requires history != [] && HandleOk(limit, history, owner, id, hd) && Uses(hd).Some?
    ensures Owns(owner, id, Uses(hd).value)
  {
  }

  lemma OtherHandleKept(limit: nat, history: seq<SemStore>, owner: map<string, nat>, id: nat, hd: Handle,
                        s': SemStore, y: string)
    requires history != [] && HandleOk(limit, history, owner, id, hd)
    requires owner.Keys <= history[|history| - 1].created
    requires Frame(history[|history| - 1], s', y) && Uses(hd) != Some(y)
    ensures HandleOk(limit, history + [s'], owner, id, hd)
  {
  }

  /** A store write by handle `h` about its session `y` keeps the invariant if it keeps `h`'s own part. */
  lemma WriteKeepsInv(st: State, h: nat, hd: Handle, s': SemStore, y: string)
    requires Inv(st) && h in st.handles
    requires StoreOk(st.limit, s') && Frame(Current(st), s', y)
    requires y == "" || Owns(st.owner, h, y)
    requires HandleOk(st.limit, st.history + [s'], st.owner, h, hd)
    ensures Inv(SetHandle(Write(st, s'), h, hd))
  {
    HistoryGrows(st.limit, st.history, s');
    var st' := SetHandle(Write(st, s'), h, hd);
    forall id | id in st'.handles ensures HandleOk(st'.limit, st'.history, st'.owner, id, st'.handles[id]) {
      if id != h {
        assert "" !in st.owner;
        if Uses(st.handles[id]).Some? {
          UsesOwned(st.limit, st.history, st.owner, id, st.handles[id]);
        }
        OtherHandleKept(st.limit, st.history, st.owner, id, st.handles[id], s', y);
      }
    }
  }

  // ---- the commands of the protocol ----

  /** A check-and-set on the lock that succeeds proves that the snapshot's lock is still the current one. */
  lemma SwapEffect(limit: nat, from: SemStore, s: SemStore, idx: nat, v: Value)
    requires StoreOk(limit, from) && StoreOk(limit, s) && Later(from, s) && idx > s.index
    requires v.LockValue?
    ensures var (s', reply) := Apply(s, idx, Cas(LockKey, v, SEMAPHORE_FLAG, LockOf(from.kvs).modifyIndex));
            && reply.Answer?
            && (reply.ok ==> Holders(s) == Holders(from) && LockKey in s'.kvs
                             && s'.kvs[LockKey].value == v && s'.kvs[LockKey].flags == SEMAPHORE_FLAG
                             && s'.kvs[LockKey].session == "")
            && (!reply.ok ==> s' == s.(index := idx))
            && s'.kvs.Keys <= s.kvs.Keys + {LockKey}
            && (forall k :: k != LockKey && k in s.kvs ==> k in s'.kvs && s'.kvs[k] == s.kvs[k])
            && s'.live == s.live && s'.created == s.created
  {
    var c := LockOf(from.kvs).modifyIndex;
    if LockKey in s.kvs && s.kvs[LockKey].modifyIndex == c && c != 0 {
      assert LockKey in from.kvs;
      assert s.kvs[LockKey] == from.kvs[LockKey];
    }
  }

  /** Pruning against a listing never drops a session that is live now. */
  lemma PruneSparesLive(limit: nat, from: SemStore, s: SemStore, x: string)
    requires StoreOk(limit, from) && Later(from, s)
    requires x in Holders(from) && x in s.live
    ensures x in Pruned(Holders(from), from.kvs)
  {
  }

  /** Only the lock entry changed, and in it nothing about live sessions but `y`. */
  lemma LockRewritten(limit: nat, s: SemStore, s': SemStore, v: Value, y: string)
    requires StoreOk(limit, s) && Consistent(s') && Later(s, s')
    requires s'.live == s.live && s'.created == s.created
    requires s'.kvs.Keys <= s.kvs.Keys + {LockKey} && LockKey in s'.kvs
    requires forall k :: k != LockKey && k in s.kvs ==> k in s'.kvs && s'.kvs[k] == s.kvs[k]
    requires s'.kvs[LockKey].value == v && s'.kvs[LockKey].flags == SEMAPHORE_FLAG && s'.kvs[LockKey].session == ""
    requires v.LockValue? && v.limit == limit && |v.holders| <= limit && v.holders <= s.created
    requires forall x :: x != y && x in s.live ==> (x in Holders(s) <==> x in v.holders)
    requires y in s.live && y in v.holders ==> HasContender(s, y)
    ensures StoreOk(limit, s') && Frame(s, s', y)
    ensures Holders(s') == v.holders
    ensures forall x :: HasContender(s, x) ==> HasContender(s', x)
  {
    assert Holders(s') == v.holders;
    forall x | x in Holders(s') && x in s'.live ensures HasContender(s', x) {
      assert HasContender(s, x);
    }
  }

  lemma AcquireValue(limit: nat, from: SemStore, y: string)
    requires StoreOk(limit, from) && TryAcquire(limit, from.kvs, y).Swap?
    ensures var a := TryAcquire(limit, from.kvs, y);
            && a.lock == LockValue(limit, Pruned(Holders(from), from.kvs) + {y})
            && a.cidx == LockOf(from.kvs).modifyIndex
            && |a.lock.holders| <= limit
  {
  }

  /** A write that did not apply only moves the index. */
  lemma IndexOnly(limit: nat, s: SemStore, s': SemStore, idx: nat, y: string)
    requires StoreOk(limit, s) && s' == s.(index := idx) && idx > s.index
    ensures StoreOk(limit, s') && Frame(s, s', y) && Holders(s') == Holders(s)
    ensures forall x :: HasContender(s, x) ==> HasContender(s', x)
  {
  }

  lemma NewHoldersAgree(limit: nat, from: SemStore, s: SemStore, y: string)
    requires StoreOk(limit, from) && Later(from, s)
    ensures forall x :: x != y && x in s.live ==> (x in Holders(from) <==> x in Pruned(Holders(from), from.kvs) + {y})
  {
  }

  lemma AcquireApplied(limit: nat, from: SemStore, s: SemStore, idx: nat, y: string, v: Value)
    requires StoreOk(limit, from) && StoreOk(limit, s) && Later(from, s) && idx > s.index
    requires v == LockValue(limit, Pruned(Holders(from), from.kvs) + {y}) && |v.holders| <= limit
    requires y in s.created && (y in s.live ==> HasContender(s, y))
    ensures var (s', reply) := Apply(s, idx, Cas(LockKey, v, SEMAPHORE_FLAG, LockOf(from.kvs).modifyIndex));
            && StoreOk(limit, s') && Frame(s, s', y) && s'.live == s.live && reply.Answer?
            && (HasContender(s, y) ==> HasContender(s', y))
            && (reply.ok ==> Holders(s) == Holders(from) && Holders(s') == v.holders)
  {
    var c := Cas(LockKey, v, SEMAPHORE_FLAG, LockOf(from.kvs).modifyIndex);
    var (s', reply) := Apply(s, idx, c);
    assert Consistent(s') && Later(s, s') by { ApplyAdvances(s, idx, c); }
    SwapEffect(limit, from, s, idx, v);
    if reply.ok {
      NewHoldersAgree(limit, from, s, y);
      LockRewritten(limit, s, s', v, y);
    } else {
      IndexOnly(limit, s, s', idx, y);
    }
  }

  lemma AcquireSwapKeeps(limit: nat, from: SemStore, s: SemStore, idx: nat, y: string, fate: Fate)
    requires StoreOk(limit, from) && StoreOk(limit, s) && Later(from, s) && idx > s.index
    requires TryAcquire(limit, from.kvs, y).Swap?
    requires y in s.created && (y in s.live ==> HasContender(s, y))
    ensures var a := TryAcquire(limit, from.kvs, y);
            var (s', reply) := Call(s, idx, Cas(LockKey, a.lock, SEMAPHORE_FLAG, a.cidx), fate);
            && StoreOk(limit, s') && Frame(s, s', y) && s'.live == s.live
            && (HasContender(s, y) ==> HasContender(s', y))
            && (reply == Answer(true) ==> y in Holders(s'))
  {
    AcquireValue(limit, from, y);
    if !fate.LostBefore? {
      AcquireApplied(limit, from, s, idx, y, TryAcquire(limit, from.kvs, y).lock);
    }
  }

  /** The acquire write removes no session that is live, and never the acquiring one. */
  lemma AcquireRemovesOnlyDead(limit: nat, from: SemStore, s: SemStore, idx: nat, y: string, fate: Fate, x: string)
    requires StoreOk(limit, from) && StoreOk(limit, s) && Later(from, s) && idx > s.index
    requires TryAcquire(limit, from.kvs, y).Swap?
    requires y in s.created && (y in s.live ==> HasContender(s, y))
    requires x in Holders(s)
    ensures var a := TryAcquire(limit, from.kvs, y);
            var s' := Call(s, idx, Cas(LockKey, a.lock, SEMAPHORE_FLAG, a.cidx), fate).0;
            x in Holders(s') || (x != y && x !in s.live && x in s.created)
  {
    var a := TryAcquire(limit, from.kvs, y);
    AcquireValue(limit, from, y);
    if !fate.LostBefore? {
      AcquireApplied(limit, from, s, idx, y, a.lock);
      SwapEffect(limit, from, s, idx, a.lock);
    }
  }

  lemma ReleaseSwapKeeps(limit: nat, from: SemStore, s: SemStore, idx: nat, y: string, fate: Fate)
    requires StoreOk(limit, from) && StoreOk(limit, s) && Later(from, s) && idx > s.index
    requires y in Holders(from)
    ensures var v := LockValue(limit, Holders(from) - {y});
            var (s', reply) := Call(s, idx, Cas(LockKey, v, SEMAPHORE_FLAG, LockOf(from.kvs).modifyIndex), fate);
            && StoreOk(limit, s') && Frame(s, s', y) && s'.live == s.live
            && (reply == Answer(true) ==> y !in Holders(s'))
            && (reply == Answer(false) ==> Holders(s') == Holders(s))
  {
    if !fate.LostBefore? {
      var v := LockValue(limit, Holders(from) - {y});
      var c := Cas(LockKey, v, SEMAPHORE_FLAG, LockOf(from.kvs).modifyIndex);
      ApplyAdvances(s, idx, c);
      SwapEffect(limit, from, s, idx, v);
      var (s', reply) := Apply(s, idx, c);
      if reply.ok {
        LockRewritten(limit, s, s', v, y);
      }
    }
  }

  lemma DestroyedHoldersAreDead(limit: nat, from: SemStore, s: SemStore)
    requires StoreOk(limit, from) && Later(from, s) && TryDestroy(limit, from.kvs).Remove?
    ensures forall x :: x in Holders(from) ==> x !in s.live
  {
    assert Pruned(Holders(from), from.kvs) == {};
    forall x | x in Holders(from) ensures x !in s.live {
      if x in s.live {
        PruneSparesLive(limit, from, s, x);
      }
    }
  }

  lemma LockDeleted(limit: nat, s: SemStore, s': SemStore)
    requires StoreOk(limit, s) && Consistent(s') && Later(s, s')
    requires s'.kvs == s.kvs - {LockKey} && s'.live == s.live && s'.created == s.created
    requires forall x :: x in Holders(s) ==> x !in s.live
    ensures StoreOk(limit, s') && Frame(s, s', "")
  {
  }

  /** A check-and-delete that removes the lock removes one whose every holder is dead. */
  lemma DestroySwapKeeps(limit: nat, from: SemStore, s: SemStore, idx: nat, fate: Fate)
    requires StoreOk(limit, from) && StoreOk(limit, s) && Later(from, s) && idx > s.index
    requires TryDestroy(limit, from.kvs).Remove?
    ensures var s' := Call(s, idx, DeleteCas(LockKey, LockOf(from.kvs).modifyIndex), fate).0;
            && StoreOk(limit, s') && Frame(s, s', "") && s'.live == s.live
            && (LockKey in s.kvs && LockKey !in s'.kvs ==> forall x :: x in Holders(s) ==> x !in s.live)
  {
    if !fate.LostBefore? {
      var c := DeleteCas(LockKey, LockOf(from.kvs).modifyIndex);
      var s' := Apply(s, idx, c).0;
      assert Consistent(s') && Later(s, s') by { ApplyAdvances(s, idx, c); }
      if LockKey in s.kvs && s.kvs[LockKey].modifyIndex == LockOf(from.kvs).modifyIndex {
        assert s.kvs[LockKey] == from.kvs[LockKey];
        DestroyedHoldersAreDead(limit, from, s);
        LockDeleted(limit, s, s');
      } else {
        IndexOnly(limit, s, s', idx, "");
      }
    }
  }

  lemma ContenderLockEffect(s: SemStore, idx: nat, y: string, payload: string)
    requires idx > s.index
    ensures var (s', reply) := Apply(s, idx, ContenderCommand(y, payload));
            && s'.kvs.Keys <= s.kvs.Keys + {ContenderKey(y)}
            && (forall k :: k != ContenderKey(y) && k in s.kvs ==> k in s'.kvs && s'.kvs[k] == s.kvs[k])
            && s'.live == s.live && s'.created == s.created
            && (reply == Answer(true) ==> HasContender(s', y))
            && (reply != Answer(true) ==> s' == s.(index := idx))
  {
  }

  lemma ContenderLockKeeps(limit: nat, s: SemStore, idx: nat, y: string, payload: string, fate: Fate)
    requires StoreOk(limit, s) && idx > s.index
    ensures var (s', reply) := Call(s, idx, ContenderCommand(y, payload), fate);
            && StoreOk(limit, s') && Frame(s, s', y)
            && (reply == Answer(true) ==> HasContender(s', y))
  {
    if !fate.LostBefore? {
      var c := ContenderCommand(y, payload);
      ApplyAdvances(s, idx, c);
      ContenderLockEffect(s, idx, y, payload);
      var s' := Apply(s, idx, c).0;
      ContenderWritten(limit, s, s', y);
    }
  }

  lemma ContenderWritten(limit: nat, s: SemStore, s': SemStore, y: string)
    requires StoreOk(limit, s) && Consistent(s') && Later(s, s')
    requires s'.live == s.live && s'.created == s.created
    requires s'.kvs.Keys <= s.kvs.Keys + {ContenderKey(y)}
    requires forall k :: k != ContenderKey(y) && k in s.kvs ==> k in s'.kvs && s'.kvs[k] == s.kvs[k]
    requires s'.kvs == s.kvs || HasContender(s', y)
    ensures StoreOk(limit, s') && Frame(s, s', y)
  {
    assert Holders(s') == Holders(s);
    assert forall x :: x != y ==> (HasContender(s, x) <==> HasContender(s', x));
  }

  lemma ContenderDeleteKeeps(limit: nat, s: SemStore, idx: nat, y: string, fate: Fate)
    requires StoreOk(limit, s) && idx > s.index
    requires y in s.live ==> y !in Holders(s)
    ensures var s' := Call(s, idx, Delete(ContenderKey(y)), fate).0;
            StoreOk(limit, s') && Frame(s, s', y)
  {
    if fate.LostBefore? {
    } else {
      ApplyAdvances(s, idx, Command<Key, Value>.Delete(ContenderKey(y)));
      var s' := Apply(s, idx, Command<Key, Value>.Delete(ContenderKey(y))).0;
      assert Holders(s') == Holders(s);
    }
  }

  lemma InvalidateKeeps(limit: nat, s: SemStore, idx: nat, x: string)
    requires StoreOk(limit, s) && idx > s.index
    ensures var s' := Apply(s, idx, DestroySession(x)).0; StoreOk(limit, s') && Frame(s, s', "")
  {
    var s' := Apply(s, idx, DestroySession(x)).0;
    ApplyAdvances(s, idx, Command<Key, Value>.DestroySession(x));
    assert x in s.live ==> x != "";
    assert Holders(s') == Holders(s);
  }

  lemma NewSessionKeeps(limit: nat, s: SemStore, idx: nat, x: string, b: Behavior)
    requires StoreOk(limit, s) && idx > s.index && x != "" && x !in s.created
    ensures var s' := Apply(s, idx, CreateSession(x, b)).0;
            StoreOk(limit, s') && Frame(s, s', "") && s'.created == s.created + {x}
  {
  }
}
