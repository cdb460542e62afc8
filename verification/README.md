# OpenGyoza: coordination, access control, DNS and agent buffers

A Dafny model of the parts of OpenGyoza, a service-discovery agent and server, where a
local reading of one function does not show that the whole works:

- **Distributed semaphore and lock** (`KvStore`, `Semaphore*`, `Lock*`). Any number of
  client handles run the recipes of `api/semaphore.go` and `api/lock.go` over a
  key/value store with check-and-set, sessions and a growing index. Handles interleave
  at every server call, replies can be lost before or after the write is applied,
  reads and listings can be old, and sessions can die at any moment. The store's
  rules are those of `agent/consul/state`. Safety is an inductive invariant over all
  runs, across destroying and re-creating the lock entry. Only two reads can do harm
  when old, and exactly when they do is proved. Writes may also arrive after their
  caller has gone on, and which of them do harm is proved exactly as well. A handle that
  nobody disturbs gets what it asks for exactly when a slot or the key is free.
- **Access control** (`Acl*`). Policies are merged by precedence, compiled into radix
  trees and asked through a chain of authorizers. The compiled answer is shown to be
  the one read directly off the unmerged rules, a request is granted exactly if no rule
  that applies denies it and one reaches as far, and the "whole subtree is writable"
  answer is shown sound for infinitely many keys, and exact under a condition on the rules.
- **DNS responses** (`Dns*`, `Rfc1464`). Trimming by binary search against the simple
  loop it replaces, the additional section as graph reachability through CNAME links,
  two printer/parser pairs as round trips, and the reading of names without regard to
  case.
- **Agent buffers and allocators** (`RexecWriter`, `EventRing`, `HealthFilter`, `Ports`,
  `Sidecar`). A chunking writer, a ring buffer, an in-place filter and two port
  allocators, each against a simple description of what it is for.

`dafny verify dfyconfig.toml` checks the project. Objects that the source updates in
place are classes with `modifies` clauses (`DnsTrim.Msg`, `RexecWriter.Writer`,
`EventRing.Ring`, `Ports.Listeners`, `AclTree.RadixTree`,
`AclServiceMerge.ServiceRuleObject`); loops are methods proved against a function or an
outright property.

## Where a promise fails

These are properties of the code as it stands; each has a concrete failing input, or
the whole failing family, and the exact condition under which the promise holds.

- A semaphore release may read an old lock entry, as long as that entry lists the
  session or the session is dead; any other read breaks the invariant, and no other
  does (`SemaphoreTheorems.SafeReadIsExact`). A read no older than the handle's own
  acquire is always of this kind (`SemaphoreTheorems.RecentRunsAreSafe`). Without it
  two live handles can hold the only slot (`SemaphoreStaleRead`).
- A lock attempt may act on an old read, unless the read shows the handle's own live
  session as an owner that it no longer is (`LockSafety.SafeReadIsExact`). A read that
  shows another owner or none may be arbitrarily old, and one that shows the handle
  itself is safe if it is no older than its last unlock
  (`LockSafety.RecentRunsAreSafe`). Otherwise a handle holds a key that nobody owns
  (`LockStaleRead`).
- The subtree answer may refuse what is writable (`AclSubtree.SubtreeAnswerIsConservative`).
  For rules that leave one character unused it is exact level by level, and for one
  set of rules over a default it is exact outright (`AclSubtree.SubtreeAnswerIsExact`,
  `AclSubtree.CompiledSubtreeIsExact`).
- A write may reach the store after its caller took it for failed and went on. Each such
  arrival is decided exactly (`SemaphoreLate.ArrivalIsExact`, `LockLate.ArrivalIsExact`):
  only three kinds can do harm to a semaphore and only one to a lock, each under a guard
  on the state it meets, and over all runs without such an arrival both are safe
  (`LateWritesAreSafe` of each). A late release or unlock takes the slot or the key from
  a session that acquired again (`SemaphoreLateRun`, `LockLateRun`), and the late delete of
  a contender entry makes a live holder look dead to everyone
  (`SemaphoreLate.LateDropExposesHolder`). Callers who acquire with a new session each
  time, as they do unless they supply one, never meet a harmful arrival
  (`SemaphoreCareful.FreshRunsAreHarmless`, `LockCareful.FreshRunsAreHarmless`); those who
  supply one need only wait for a failed release before they acquire again, and for a
  failed acquire of a slot before they release
  (`SemaphoreCareful.CarefulRunsAreHarmless`, `LockCareful.CarefulRunsAreHarmless`).
- Merging policies changes service rules of its inputs. Which objects change, and to
  what, is stated exactly, and that none does if and only if the first rule of each name
  is already the strongest (`AclServiceMerge.MergeServiceObjects`).
- Fast trimming keeps no answer, where the simple loop keeps one, exactly when it
  searches and the first answer does not fit alone (`DnsTrimSpec.FastTrimEqualsNaive`).
- TCP trimming cuts answers without reporting it exactly when the fixed cut alone
  makes the response small enough (`DnsTrim.Msg.TrimTcp`, `DnsTrim.SilentTcpCut`), and
  then leaves the additional records of the lost answers in place.
- TXT encoding loses keys made only of spaces and keys with a tab at either end
  (`Rfc1464.RoundTrip`).
- Two checks share a listener port entry exactly when their IDs re-cut the same text
  at another colon (`Ports.KeysCollide`, `Ports.CollidingChecks`), and a full port range
  makes the allocator report a port that another check has
  (`Ports.Listeners.ListenerPort`, `Ports.FullRangeShares`).

## Model

| member | source | states |
|---|---|---|
| `KvStore.ApplyAdvances` | agent/consul/state/kvs.go:132-172 | every command keeps the store consistent (indices bounded, owners live) and only moves forward: an entry with an unchanged index is the same entry |
| `KvStore.PutAdvances` | agent/consul/state/kvs.go:132-172 | writing an entry, also one with unchanged content, keeps the store consistent and leaves a later store |
| `KvStore.DeleteAdvances` | agent/consul/state/kvs.go:349-414 | deleting, plainly or by index, leaves a later store |
| `KvStore.LockAdvances` | agent/consul/state/kvs.go:525-572 | taking a key for a session leaves a consistent, later store |
| `KvStore.UnlockAdvances` | agent/consul/state/kvs.go:591-625 | giving a key back leaves a consistent, later store |
| `KvStore.CreateSessionAdvances` | agent/consul/state/session.go:160-231 | a new session leaves a consistent, later store |
| `KvStore.DestroySessionAdvances` | agent/consul/state/session.go:319-431 | ending a session frees or deletes its keys and leaves a consistent, later store |
| `KvStore.RevisionsIdentifyEntries` | api/kv.go:157-191 | over every run of commands, equal modify indices of a key mean equal entries despite deletion and re-creation, and dead sessions stay dead |
| `KvStoreLaws.CasIsExact` | agent/consul/state/kvs.go:435-461 | a check-and-set writes exactly if the entry's revision is the one given, 0 meaning no entry, and keeps the owner |
| `KvStoreLaws.LockIsExact` | agent/consul/state/kvs.go:525-572 | a lock is refused exactly for a session that is not live, succeeds exactly if nobody else owns the key, and counts how often the key changed hands |
| `KvStoreLaws.UnlockIsExact` | agent/consul/state/kvs.go:591-625 | an unlock succeeds exactly for the owner and leaves the entry with the new value and no owner |
| `KvStoreLaws.DeleteCasIsExact` | agent/consul/state/kvs.go:394-416 | a delete by revision removes that revision and no other, and reports success exactly if the key is gone |
| `KvStoreLaws.DeletesSucceed` | agent/consul/state/kvs.go:349-376 | a plain delete, and the end of a session, always succeed; a session that is not live ends without effect |
| `KvStoreLaws.SessionEnds` | agent/consul/state/session.go:319-390 | the end of a session frees every key it owns, which stays as it was or goes as the behavior it was created with says, and touches no other key |
| `KvStoreLaws.IndexesTell` | agent/consul/state/kvs.go:132-172 | for every command and key: the modify index changes exactly if the contents do, and the create index only on creation |
| `KvStoreLaws.OwnersChange` | agent/consul/state/kvs.go:525-625 | for every command and key: the owner changes only by a lock of a free key, an unlock by the owner, a deletion, or the owner's end |
| `SemaphoreSpec.FindLock` | api/semaphore.go:419-427 | the search through a listing finds the lock entry, or an empty one at index 0 |
| `SemaphoreSpec.MissingLockIsCreated` | api/semaphore.go:419-445 | a listing without the lock entry leads to a write that makes its session the first holder, and succeeds in any store exactly if there is still no entry |
| `SemaphoreSpec.PruneDeadHolders` | api/semaphore.go:464-479 | the two loops leave exactly the holders whose session owns some listed key |
| `SemaphoreSpec.AttemptOnce` | api/semaphore.go:212-247 | one pass over the list of pairs decides what `TryAcquire` does, which `SemaphoreProgress.AttemptIsExact` states outright: conflicts, wait, or the exact check-and-set to send |
| `SemaphoreAnyReads.AnyStepKeeps` | api/semaphore.go:145-391 | with reads of any age, every step keeps the lock entry well formed, within the limit and owned by no session, in every store of the history |
| `SemaphoreAnyReads.HoldersWithinLimit` | api/semaphore.go:212-258 | in every state of every run, with reads of any age, the stored holders are at most the limit |
| `SemaphoreAnyReads.NoConflicts` | api/semaphore.go:217-231 | handles that agree on the limit never meet a conflict in any listing of any run, with reads of any age |
| `SemaphoreAnyReads.DeadStayDead` | agent/consul/state/session.go:319-431 | a session dead in some state is dead in every state of every run from there |
| `SemaphoreSafety.WriteKeepsInv` | api/semaphore.go:145-338 | a write that keeps the store's invariant and all other live holders keeps every other handle's claims |
| `SemaphoreSafety.SwapEffect` | api/semaphore.go:449-461 | a check-and-set from any old snapshot either changes nothing or applies to the very entry that was read, also at index 0 |
| `SemaphoreSafety.PruneSparesLive` | api/semaphore.go:464-479 | pruning by any snapshot of the same lock revision never removes a live holder |
| `SemaphoreSafety.AcquireSwapKeeps` | api/semaphore.go:234-258 | an acquire write keeps the store's invariant and every live holder, whatever happens to its reply |
| `SemaphoreSafety.AcquireRemovesOnlyDead` | api/semaphore.go:234-258 | a holder that an acquire write removes is neither live nor the acquiring session |
| `SemaphoreSafety.ReleaseSwapKeeps` | api/semaphore.go:312-331 | a release write removes its own session and no other, and one that fails changes no holder |
| `SemaphoreSafety.DestroySwapKeeps` | api/semaphore.go:342-391 | a destroy write keeps the invariant, and what it removes has no live holder |
| `SemaphoreSafety.InvalidateKeeps` | agent/consul/state/session.go:319-431 | the death of a session keeps the invariant and all other live holders |
| `SemaphoreTheorems.StepKeepsInv` | api/semaphore.go:145-391 | every step of every handle and every session event keeps the invariant, if a release read lists its session or the session is dead |
| `SemaphoreTheorems.SafeReadIsExact` | api/semaphore.go:302-316 | a release read of any age keeps the invariant if and only if it lists the session or the session is dead |
| `SemaphoreTheorems.UnsafeReadExposesHolder` | api/semaphore.go:302-336 | after any other release read the next write leaves a live holder that every listing prunes |
| `SemaphoreTheorems.RecentRunsAreSafe` | api/semaphore.go:145-338 | a run in which no release reads a store older than the handle's own acquire write is a run of safe reads |
| `SemaphoreTheorems.RunKeepsInv` | api/semaphore.go:145-391 | so does every run, and the store only moves forward |
| `SemaphoreTheorems.SemaphoreIsSafe` | api/semaphore.go:145-338 | in every reachable state the stored holders are at most the limit, every live holding handle is among them, and at most limit live handles hold a slot |
| `SemaphoreTheorems.PrunedHoldersStayDead` | api/semaphore.go:234-258 | a holder removed by an acquire write, from however old a listing, is dead and stays dead in every later state, reached by reads of any age |
| `SemaphoreTheorems.SwapRemovesOnlyDead` | api/semaphore.go:243-258 | in one step the write of an acquire removes neither a live session nor its own |
| `SemaphoreTheorems.DestroySparesLiveHolders` | api/semaphore.go:342-391 | a destroy that deletes the lock entry, from however old a listing, removes no live holder |
| `SemaphoreTheorems.MonitorIsExact` | api/semaphore.go:483-514 | with a fresh listing the monitor of a held slot keeps watching if and only if its session is live |
| `SemaphoreStaleRead.StaleReleaseReadExceedsLimit` | api/semaphore.go:300-336 | a reachable state in which more live handles hold a slot than the limit allows, when release reads may be of any age |
| `SemaphoreLate.ArrivalIsExact` | api/semaphore.go:191-391 | a write that was decided on at any earlier time and arrives now keeps the invariant if and only if it is harmless: its session is dead, or its index has moved on, or (a release) nobody has or is giving back the slot, (a delete of a contender entry) the session is no stored holder and nobody counts on the entry, (an acquire) its contender entry is there and nobody is about to delete it; contender locks and removals of the lock entry always are |
| `SemaphoreLate.HarmlessStepKeeps` | api/semaphore.go:145-391 | steps of handles, sends and harmless late arrivals keep the invariant, and every write under way was decided on in some state of the run |
| `SemaphoreLate.LateWritesAreSafe` | api/semaphore.go:145-391 | over every run whose late arrivals are harmless the stored holders are within the limit, every live holding handle is stored, and at most limit live handles hold a slot |
| `SemaphoreLate.LateReleaseTakesSlot` | api/semaphore.go:312-331 | a late release takes the slot of a session that holds again if and only if the lock entry still has the index that the release read |
| `SemaphoreLate.LateDropExposesHolder` | api/semaphore.go:332-336 | the late delete of the contender entry of a live holding handle leaves it stored but pruned by every listing |
| `SemaphoreCareful.StepSendsNext` | api/semaphore.go:165-391 | the write that a handle may leave under way is the very command that its own step sends |
| `SemaphoreCareful.CarefulStepKeeps` | api/semaphore.go:145-391 | if nobody acquires with a session whose release is under way, nor releases one whose acquire is, then after every step nobody works with a session whose release is under way, nobody releases one whose acquire is, and each arrival is harmless |
| `SemaphoreCareful.CarefulRunsAreHarmless` | api/semaphore.go:145-391 | every run under that rule is one whose late arrivals are harmless |
| `SemaphoreCareful.FreshRunsAreHarmless` | api/semaphore.go:156-163 | every run, with writes that arrive at any time, in which no two acquires use the same session is one whose late arrivals are harmless |
| `SemaphoreLateRun.LateReleaseLosesSlot` | api/semaphore.go:312-331 | a reachable state in which a live handle holds a slot that a late release gave back |
| `SemaphoreProgress.AttemptIsExact` | api/semaphore.go:217-247 | a listing ends an acquire exactly if the entry has another flag, cannot be decoded or has another limit; else it waits exactly if as many holders as the limit own some listed key, and else writes those holders and itself at the index read |
| `SemaphoreProgress.RemovalIsExact` | api/semaphore.go:358-381 | a destroy goes on exactly if the entry is a semaphore's and none of its holders owns a listed key |
| `SemaphoreProgress.OtherLimitIsRefused` | api/semaphore.go:227-231 | in any listing of any run, a handle with another limit than the stored one is refused |
| `SemaphoreProgress.ListingDecides` | api/semaphore.go:212-241 | a waiting handle may act on a listing of any age, and goes on to write exactly if that shows fewer holders in use than the limit |
| `SemaphoreProgress.SwapDecides` | api/semaphore.go:250-269 | the write gives the slot exactly if the lock entry still has the index that was listed, and else changes nothing and the handle waits again |
| `SemaphoreProgress.FreeSlotIsTaken` | api/semaphore.go:212-269 | from every state of the invariant: a waiting handle that lists the current store while fewer holders than the limit are in use holds a slot after its write, beside exactly those holders |
| `SemaphoreProgress.AcquireCompletes` | api/semaphore.go:145-270 | an undisturbed Acquire with a live session, from its start, ends with the slot under the same condition |
| `SemaphoreProgress.ReleaseReadDecides` | api/semaphore.go:301-336 | a release may read an entry of any age, writes exactly if that lists its session, and else drops its contender entry |
| `SemaphoreProgress.ReleaseDecides` | api/semaphore.go:314-330 | the release write gives back its own slot exactly if the index is unchanged, and else the entry is read again |
| `SemaphoreProgress.ReleaseCompletes` | api/semaphore.go:273-338 | an undisturbed Release by a live holder gives back its slot, and no other, and removes its contender entry |
| `SemaphoreProgress.DestroyCompletes` | api/semaphore.go:342-391 | an undisturbed Destroy removes the lock entry whenever no holder is in use, dead holders included |
| `SemaphoreProgress.RemovalDecides` | api/semaphore.go:383-390 | the delete removes the entry exactly if its index is unchanged, and reports success exactly if no entry is left |
| `SemaphoreProgress.LostReplyEnds` | api/semaphore.go:177-389 | a write whose reply is lost, at any of the five places, ends the call |
| `SemaphoreProgress.ErrorEnds` | api/semaphore.go:217-231 | a listing with a conflict ends the Acquire |
| `SemaphoreProgress.DeadSessionEnds` | api/semaphore.go:177-182 | a dead session ends the Acquire before it lists anything, and leaves no entry |
| `SemaphoreProgress.EveryEntryIsFlagged` | api/semaphore.go:409-462 | over every run with reads of any age, every entry under the prefix carries the semaphore's flag |
| `LockSafety.TakeKeyKeeps` | api/lock.go:210-237 | acquiring the key keeps the invariant, whatever happens to the reply |
| `LockSafety.FreeKeyKeeps` | api/lock.go:253-285 | giving the key back keeps every other handle's claim |
| `LockSafety.DeleteKeyKeeps` | api/lock.go:289-330 | deleting by index keeps the invariant, from however old a read |
| `LockSafety.StepKeepsInv` | api/lock.go:133-330 | every step of every handle and every session event keeps the invariant, if a read that shows the handle as owner is still true or its session is dead |
| `LockSafety.SafeReadIsExact` | api/lock.go:193-208 | a lock read of any age keeps the invariant if and only if it is of this kind |
| `LockSafety.UnsafeReadBreaksExclusion` | api/lock.go:193-204 | after any other read the next step makes a live handle hold a key it does not own |
| `LockSafety.ForeignReadIsSafe` | api/lock.go:205-212 | a read that shows another owner or none is safe however old it is (what it leads to is `LockProgress.ReadDecides`) |
| `LockSafety.RecentRunsAreSafe` | api/lock.go:133-285 | a run in which every read that shows the handle as owner is no older than its last unlock is a run of safe reads |
| `LockSafety.RunKeepsInv` | api/lock.go:133-330 | so does every run |
| `LockSafety.LockIsExclusive` | api/lock.go:133-285 | in every reachable state each live handle that holds the lock owns the key in the store, so at most one does |
| `LockSafety.DestroySparesHolder` | api/lock.go:289-330 | when a destroy deletes the key, no session owns it and no live handle holds the lock |
| `LockSafety.MonitorIsExact` | api/lock.go:361-386 | with a fresh read the monitor of a held lock keeps watching if and only if its session is live |
| `LockStaleRead.StaleLockReadHoldsNothing` | api/lock.go:193-204 | a reachable state in which a live handle believes to hold a lock nobody owns, when reads may be stale |
| `LockLate.ArrivalIsExact` | api/lock.go:188-330 | a write that was decided on at any earlier time and arrives now keeps the invariant if and only if it is not the unlock of a live session that some handle holds with or has just found to own the key |
| `LockLate.HarmlessStepKeeps` | api/lock.go:133-330 | steps of handles, sends and harmless late arrivals keep the invariant |
| `LockLate.LateWritesAreSafe` | api/lock.go:133-330 | over every run whose late arrivals are harmless each live holder owns the key, so at most one does |
| `LockLate.LateUnlockTakesKey` | api/lock.go:274-284 | in any state with a live holder whose unlock is under way, the arrival leaves it holding a key it does not own |
| `LockLateRun.LateUnlockHoldsNothing` | api/lock.go:193-283 | such a state is reachable |
| `LockCareful.CarefulRunsAreHarmless` | api/lock.go:133-283 | every run in which nobody locks with a session whose unlock is under way is one whose late arrivals are harmless |
| `LockCareful.FreshRunsAreHarmless` | api/lock.go:144-151 | every run, with writes that arrive at any time, in which no two lock attempts use the same session is one whose late arrivals are harmless |
| `LockProgress.ReadDecides` | api/lock.go:193-212 | an attempt acts on a read of any age: it ends exactly at a key with another flag, has the lock exactly at its own key, waits exactly at another's, and else tries to take the key |
| `LockProgress.TakeDecides` | api/lock.go:214-241 | the write takes the key exactly if nobody else owns it, with the value and flag sent, and else the handle tries again |
| `LockProgress.DelayRetries` | api/lock.go:222-238 | a lock-delay leaves the store alone and the handle trying |
| `LockProgress.LostReplyEnds` | api/lock.go:214-219 | a lost reply, or a dead session, ends the attempt |
| `LockProgress.FreeKeyIsTaken` | api/lock.go:193-250 | from every state of the invariant: an attempt of a live session that reads the current store and finds the key absent or without an owner holds the lock after its write |
| `LockProgress.LockCompletes` | api/lock.go:133-250 | an undisturbed Lock with a live session, from its start, ends with the lock under the same condition |
| `LockProgress.OwnerHolds` | api/lock.go:201-204 | an attempt of the session that owns the key holds the lock without a write |
| `LockProgress.UnlockCompletes` | api/lock.go:253-285 | an undisturbed Unlock by a live holder leaves the key without an owner and the handle without the lock |
| `LockProgress.UnlockPassesOn` | api/lock.go:193-285 | whoever waits has the lock after the holder's Unlock and an attempt of its own |
| `LockProgress.DeathFreesKey` | agent/consul/state/session.go:358-390 | the owner's death leaves the key without an owner, or removes it, as the session's behavior says |
| `LockProgress.DeathPassesOn` | api/lock.go:193-250 | whoever waits has the lock after the owner's death and an attempt of its own |
| `LockProgress.DestroyCompletes` | api/lock.go:289-330 | an undisturbed Destroy deletes a lock without an owner |
| `LockProgress.DestroyDecides` | api/lock.go:300-318 | a destroy acts on a read of any age and goes on exactly if it shows a lock without an owner |
| `LockProgress.OneTryOnly` | api/lock.go:279-330 | an unlock or a delete is tried once, whatever its reply |
| `AclPolicy.MergeRuleList` | acl/policy.go:505-520 | the loop over one list is the fold of its rules |
| `AclPolicy.MergePolicies` | acl/policy.go:479-748 | the loops over all policies and sections are the merge that the laws are about |
| `AclMergeLaws.HigherIsStrongest` | acl/policy.go:435-461 | the pairwise precedence test picks the strongest of two permissions |
| `AclMergeLaws.MergeIsStrongest` | acl/policy.go:479-748 | at every segment of every rule list the merge holds the strongest permission of all input rules, service policy and intentions apart |
| `AclMergeLaws.MergedGlobalIsStrongest` | acl/policy.go:479-748 | the ACL, keyring and operator permissions are the strongest of the inputs |
| `AclMergeLaws.MergeIgnoresOrder` | acl/policy.go:479-748 | the merge depends only on which policies are given, not on order or repetition |
| `AclMergeLaws.MergeNests` | acl/policy.go:479-748 | merging two merged groups equals merging all their policies at once |
| `AclMergeLaws.MergeIsIdempotent` | acl/policy.go:479-748 | merging a merge result again changes nothing |
| `AclMergeLaws.MergeKeepsAdmitted` | acl/policy.go:132-258 | what the parser admits for a kind of rule is all the merge can produce for it |
| `AclServiceMerge.AddObject` | acl/policy.go:627-642 | one turn upgrades only the object that represents the name |
| `AclServiceMerge.MergeServiceObjects` | acl/policy.go:627-659 | over shared objects, also listed twice: the result is the strongest of the values on entry, the first rule of each name becomes it, and all other rules keep their values; nothing changes if and only if the first rule of each name already is the strongest |
| `AclServiceMerge.MergeServicesOf` | acl/policy.go:627-659 | the single pass over the shared service rules of all policies leaves objects that say exactly what the merge of the policies says |
| `AclServiceMerge.MergedRuleKeepsGrant` | acl/policy.go:627-659 | a rule once merged with a stronger one yields the stronger permission when merged again alone |
| `AclTree.LongestPrefixIsLongest` | acl/acl.go:331-349 | the prefix rule found is that of the longest stored prefix, and none is found only if there is none |
| `AclTree.RadixTree.InsertPolicy` | acl/acl.go:351-365 | inserting sets only the given half of a leaf and keeps the other half and all other leaves |
| `AclTree.RadixTree.GetPolicy` | acl/acl.go:331-349 | the walk finds the exact rule of the name, else the rule of its longest stored prefix |
| `AclTree.Load` | acl/acl.go:413-440 | rules inserted in any order give the tree their two maps describe |
| `AclAuthorizer.NewPolicyAuthorizer` | acl/acl.go:397-540 | merging, expanding intentions and filling the trees gives the compiled merge |
| `AclAuthorizer.CompiledSays` | acl/acl.go:397-540 | a compiled leaf holds exactly what the unmerged rules say about its segment |
| `AclAuthorizer.AuthorizerRefinesRules` | acl/acl.go:331-540 | every decision equals the direct one on unmerged rules: exact rules, else longest matching prefix, combined by precedence, else the parent; what a rule grants is `AclGrants.LevelDecides` |
| `AclAuthorizer.GlobalRefinesRules` | acl/acl.go:543-556 | global decisions follow the strongest global permission, else the parent |
| `AclAuthorizer.DecisionsIgnoreOrder` | acl/acl.go:397-540 | the same for every order and repetition of the input policies |
| `AclAuthorizer.WriteImpliesListImpliesRead` | acl/acl.go:562-917 | in every chain write implies list implies read, for every resource and name |
| `AclAuthorizer.GlobalWriteImpliesRead` | acl/acl.go:543-594 | write implies read for global permissions, and a snapshot is allowed exactly when ACL writes are |
| `AclGrants.LevelDecides` | acl/acl.go:367-393 | with deny below read below list below write: a level with a rule for the name grants a request exactly if the rule reaches as far, and one without leaves it to its parent |
| `AclGrants.GlobalDecides` | acl/acl.go:543-556 | the same for the global permissions |
| `AclGrants.FirstSpeakerDecides` | acl/acl.go:543-917 | in every chain the first level with a rule for the name decides alone |
| `AclGrants.DefaultDecides` | acl/acl.go:137-239 | in every chain without one the default decides |
| `AclGrants.FirstGlobalDecides` | acl/acl.go:543-556 | in every chain the first level that sets the global permission decides alone |
| `AclGrants.GlobalDefaultDecides` | acl/acl.go:137-150 | in every chain without one the default decides, for ACLs the manage flag |
| `AclGrants.StrongestGrants` | acl/policy.go:435-461 | the strongest of some permissions grants a request exactly if none is a denial and one reaches as far |
| `AclGrants.RulesGrant` | acl/acl.go:331-540 | the rules that apply to a name, over all unmerged policies, grant a request exactly if none denies and one reaches as far, and leave it to the parent exactly if they set nothing |
| `AclGrants.NoRuleAsksParent` | acl/acl.go:331-349 | a name that no rule applies to is the parent's |
| `AclGrants.GlobalRulesGrant` | acl/acl.go:543-556 | a global request is granted exactly if no policy denies it and one reaches as far, and is the parent's if none sets it |
| `AclGrants.IntentionsGrant` | acl/acl.go:454-498 | intentions that a service rule sets are granted as the rules say; those that none sets may never be written, and be read exactly if the strongest service rule is a read or a write |
| `AclGrants.ValidGrantsNoListing` | acl/policy.go:132-143 | the permissions valid in every rule are exactly those that decide and grant listing only with writing |
| `AclSubtree.CheckKeyWritePrefix` | acl/acl.go:709-769 | the two walks compute the subtree decision |
| `AclSubtree.ExtensionPrefix` | acl/acl.go:331-349 | the longest prefix rule of an extension is the prefix's own or lies below the prefix |
| `AclSubtree.SubtreeWriteIsSound` | acl/acl.go:690-769 | for every chain, a writable subtree means every key in it is writable |
| `AclSubtree.SubtreeWriteDescends` | acl/acl.go:709-769 | for every chain, a writable subtree means every subtree inside it is writable |
| `AclSubtree.SubtreeAnswerIsConservative` | acl/acl.go:739-760 | the converse fails: a chain that refuses a subtree of which every key is writable |
| `AclSubtree.SubtreeAnswerIsExact` | acl/acl.go:709-769 | for every chain whose key rules leave a character unused: the subtree is writable if and only if every key in it is, at every level that the prefix falls through to |
| `AclSubtree.SingleLevelIsExact` | acl/acl.go:709-769 | over a default, if and only if every key in it is writable |
| `AclSubtree.CompiledSubtreeIsExact` | acl/acl.go:397-540 | the same for every list of admitted policies, compiled over a default |
| `DnsExtra.IndexKeepsFirst` | agent/dns.go:909-916 | the index has every name, in lower case, with its first record (that case does not matter is `DnsCase.LowerIgnoresCase`) |
| `DnsExtra.IndexRRs` | agent/dns.go:909-916 | the loop builds that index |
| `DnsExtra.Resolve` | agent/dns.go:935-950 | the jump loop of one target ends, also on cycles, with the chain it follows |
| `DnsExtra.SyncExtra` | agent/dns.go:923-953 | the loop over answers collects the chains of their SRV targets in order (that case does not matter is `DnsCase.SyncIgnoresCase`) |
| `DnsExtraLaws.SyncIsReachability` | agent/dns.go:923-953 | the extras are exactly the indexed names reachable from SRV targets through CNAME links, each once |
| `DnsExtraLaws.ChaseFollowsLinks` | agent/dns.go:931-950 | the records of one target come in the order of the links |
| `DnsExtraLaws.ExtrasArePrefix` | agent/dns.go:923-953 | the extras of fewer answers are a prefix of the extras of more |
| `DnsCase.LowerIgnoresCase` | agent/dns.go:909-935 | two names have one lower-case form exactly if they differ in the case of ASCII letters only |
| `DnsCase.SyncIgnoresCase` | agent/dns.go:909-953 | spelling targets, record names or links in another case resolves the same names in the same order |
| `DnsCase.IndexIgnoresCase` | agent/dns.go:909-916 | records respelled in case are indexed under the same names |
| `DnsCase.TargetKept` | agent/dns.go:923-953 | a record that an SRV answer names in any case is resolved |
| `DnsCase.DispatchIgnoresCase` | agent/dns.go:530-689 | a question is answered the same in any case |
| `DnsTrimSpec.SizeGrows` | agent/dns.go:957-980 | each further answer adds at least 11 bytes, extras included |
| `DnsTrimSpec.BestFitIsLargest` | agent/dns.go:957-980 | the best fit fits and every larger count does not |
| `DnsTrimSpec.BestFitUnique` | agent/dns.go:957-980 | only the best fit has these two properties |
| `DnsTrim.Msg.SetCount` | agent/dns.go:1084-1090 | cutting or restoring answers over the same backing array brings the extras in step |
| `DnsTrim.Msg.BinaryTruncate` | agent/dns.go:957-980 | the search finds the best fit, and leaving early at under 10 bytes of slack loses nothing |
| `DnsTrim.Msg.TrimLoop` | agent/dns.go:1080-1091 | the loop ends, although a turn may drop no answer while the extras are out of step, and ends with at most one answer or within the bound |
| `DnsTrim.Msg.LimitAnswers` | agent/dns.go:1060-1070 | the configured cap applies only to clients without a larger buffer |
| `DnsTrim.Msg.TrimUdp` | agent/dns.go:1038-1096 | keeps a prefix of the answers and the compression flag; ends with at most one answer or within 7 bytes less than the client's EDNS size if that is over 512, else 505 bytes; reports exactly whether answers were lost; leaves a response alone that fits |
| `DnsTrim.Msg.TrimTcp` | agent/dns.go:984-1032 | keeps a prefix of at most 1024 SRV or 4096 other answers, ends with at most one answer or within 65523 bytes, leaves a response alone that fits both, the flag misses a cut exactly when the fixed cut sufficed, and the extras are in step if the loop ran and untouched if not |
| `DnsTrim.SilentTcpCut` | agent/dns.go:998-1013 | 1025 small SRV answers: one is dropped and the flag is not set |
| `DnsTrimSpec.FastTrimEqualsNaive` | agent/dns.go:1080-1091 | on a response whose extras are in step, the count that the trim loop ends with is that of dropping one answer at a time if and only if it does not search or the first answer fits alone |
| `DnsTrimSpec.UdpTrimEqualsNaive` | agent/dns.go:1038-1096 | UDP trimming of every response, whatever its additional section holds, after the configured cap, against the simple loop: if and only if it needs no search, or the first answer fits alone and syncing the extras is not enough by itself |
| `DnsTrimSpec.TcpTrimEqualsNaive` | agent/dns.go:984-1032 | the same for TCP, where the extras after the fixed cut are still those of all answers |
| `DnsTrimSpec.TrimmedEqualsNaive` | agent/dns.go:1080-1091 | the same for the loop from any length not below the synced one |
| `DnsTrimSpec.SyncNeverEnlarges` | agent/dns.go:923-953 | bringing the extras in step never makes a response longer |
| `DnsTrimSpec.OversizedAnswersAreAllDropped` | agent/dns.go:957-980 | two oversized answers: the fast loop keeps none, the simple one keeps one |
| `DnsTrimSpec.WhoFitsUdp` | agent/dns.go:1038-1091 | the accepted size is the client's EDNS size if over 512, else 512; a response 7 bytes below it keeps all its answers, with the smaller size only if the configured limit and 8 allow so many |
| `DnsTrimSpec.WhoLosesAnswers` | agent/dns.go:1038-1091 | every other response loses answers, unless it has at most one or fits once its extras are those it needs |
| `Rfc1464.RoundTrip` | agent/dns.go:798-816 | decoding by section 2 of RFC 1464 recovers key and value for every value and exactly for keys that are empty, or have a non-space and no tab at either end |
| `Rfc1464.BlankKey` | agent/dns.go:803-811 | keys made only of spaces never survive |
| `DnsAddr.DoDispatch` | agent/dns.go:530-689 | the parsing loop with its single datacenter step is the recursive reading of the labels |
| `DnsAddr.HexRoundTrip` | agent/dns.go:621-658 | decoding the hex digits of bytes gives the bytes |
| `DnsAddrLaws.HexIsExact` | agent/dns.go:621-658 | a text decodes to some bytes exactly if it is their encoding in either case |
| `DnsAddrLaws.AddressIsExact` | agent/dns.go:621-659 | an address label is answered with 4 or 16 bytes exactly if it encodes them, is invalid if it has such a length otherwise, and of any other length is answered with nothing |
| `DnsAddrLaws.TrimmedName` | agent/dns.go:691-703 | the longer matching one of the two domains is cut off |
| `DnsAddrLaws.DispatchAddr` | agent/dns.go:530-689 | a generated name is answered as an address under its own name exactly when the datacenter label is readable and the alternate domain is no longer suffix |
| `DnsAddrLaws.V4RoundTrip` | agent/dns.go:1531-1545 | every IPv4 address, stored in 4 or 16 bytes, comes back from the target made of it if and only if that condition holds |
| `DnsAddrLaws.V6RoundTrip` | agent/dns.go:1531-1545 | the same for every IPv6 address |
| `DnsAddrLaws.NameIsNormal` | agent/dns.go:530-545 | a generated name is unchanged by the query's lower-casing and final dot |
| `DnsLookups.SplitJoined` | agent/dns.go:540 | splitting a name gives back the labels it was joined from |
| `DnsLookups.NamesAreLookedUp` | agent/dns.go:594-619 | a node, query or connect name, in any spelling and under either domain, is looked up by the labels before the kind, in the named datacenter or else the server's own |
| `DnsLookups.ServicesAreLookedUp` | agent/dns.go:562-592 | a service name is looked up by its last label, with the labels before, dots included, as the tag, in the named datacenter or else the server's own |
| `DnsLookups.Rfc2782IsLookedUp` | agent/dns.go:567-579 | the syntax of RFC 2782 looks up the first label, with a protocol other than tcp as the tag |
| `DnsLookups.SrvMayOmitKind` | agent/dns.go:554-579 | in an SRV query that syntax needs no kind |
| `DnsLookups.NothingIsNamed` | agent/dns.go:548-688 | a kind without labels before it, a single other label, and two labels that could both be a datacenter are invalid |
| `DnsLookups.QuestionIsCompleted` | agent/dns.go:536 | a question gets at most one dot, and ends in a separating one unless it ends in a backslash that escapes it |
| `DnsLookups.NothingCutOff` | agent/dns.go:691-703 | a name under neither domain is read as it is |
| `RexecWriter.Writer.Send` | agent/remote_exec.go:111-114 | the channel gets the buffer itself, a new one replaces it, and the stream is unchanged |
| `RexecWriter.Writer.Flush` | agent/remote_exec.go:101-118 | conserves the stream unless cancelled, and sent chunks are never touched |
| `RexecWriter.Writer.FillAndFlush` | agent/remote_exec.go:87-94 | a turn appends exactly its part, also if an idle flush comes in while the lock is free |
| `RexecWriter.Writer.CopyFull` | agent/remote_exec.go:82-95 | the copy loop ends and has appended everything but what leaves room in the buffer |
| `RexecWriter.Writer.Write` | agent/remote_exec.go:70-99 | chunks sent followed by the buffer are the old stream followed by the input; every chunk is non-empty, at most the buffer size and still reads as sent, and a write hands off full buffers only |
| `EventRing.StoreAppends` | agent/user_event.go:228-230 | storing at the position and moving it on appends to the history that the ring holds the end of |
| `EventRing.NewestSlot` | agent/user_event.go:259-265 | the slot before the position, cyclically, is the newest event |
| `EventRing.OccupiedIffFull` | agent/user_event.go:242-252 | the slot at the position is occupied exactly when the ring has wrapped |
| `EventRing.Ring.Ingest` | agent/user_event.go:208-231 | appends the event to the history; remote-exec events leave the ring alone |
| `EventRing.Ring.UserEvents` | agent/user_event.go:235-255 | exactly the last events of the history, at most the capacity, oldest first |
| `EventRing.Ring.LastUserEvent` | agent/user_event.go:259-265 | the last event of the history, or none |
| `HealthFilter.PassingCounts` | agent/health_endpoint.go:265-284 | the reference filter keeps each healthy node as often as it occurs and no other |
| `HealthFilter.DropKeepsSeparated` | agent/health_endpoint.go:276-279 | moving the last node over a failing one loses only that one |
| `HealthFilter.AllPassing` | agent/health_endpoint.go:275-281 | the inner loop finds whether some check is not passing |
| `HealthFilter.FilterNonPassing` | agent/health_endpoint.go:265-284 | as a multiset, exactly the nodes all of whose checks pass; the input is unchanged |
| `Ports.KeysCollide` | agent/agent.go:3998-4000 | two checks share a key exactly when they are the same or one re-cuts the other's text at another colon |
| `Ports.CollidingChecks` | agent/agent.go:3998-4000 | two different checks with one key |
| `Ports.PlainKeysDistinct` | agent/agent.go:3998-4000 | without colons in service IDs keys are distinct |
| `Ports.FreeIffRoom` | agent/agent.go:3979-3989 | a port is free exactly while the table has fewer entries than the range has ports |
| `Ports.LowestFree` | agent/agent.go:3984-3990 | the scan finds the least free port, or none and the last port tried |
| `Ports.Listeners.ListenerPort` | agent/agent.go:3969-3996 | a key keeps its port, else gets the least free one; the table stays injective and in range; the reported port is the check's own exactly when it is recorded |
| `Ports.FullRangeShares` | agent/agent.go:3969-3996 | three checks and two ports: the third is told the second's port and is not recorded |
| `Ports.ExposedIffRoom` | agent/agent.go:3918-3943 | after exposing a service each check has a recorded port exactly when old and new entries together fit the range |
| `Ports.ExposedDistinct` | agent/agent.go:3918-3943 | recorded checks of a service have equal ports only if they are the same check |
| `Ports.Listeners.Expose` | agent/agent.go:3918-3943 | the loop over a service's checks keeps the table injective and every old entry's port, and meets that condition |
| `Ports.Listeners.RemoveCheck` | agent/agent.go:2845-2871 | for any order of the search for the check's service: gives back the check's port and no other, and refuses an empty ID |
| `Ports.Listeners.Reset` | agent/agent.go:3948-3965 | gives back the ports of the service's checks and no others |
| `Sidecar.ScanServices` | agent/sidecar_service.go:115-135 | in any order of the walk: the sidecar's own port if it has one of the range, else all used ports of the range |
| `Sidecar.AssignPort` | agent/sidecar_service.go:104-161 | a given port is kept, else the registered one of the range, else the least unused one; it fails exactly when none is unused or assignment is off, with the matching error |

## Left out

- `KvStore.CreateSessionAdvances`: the node and health-check conditions of creating a session are not modelled, and neither is the invalidation they cause, other than as a session event that can happen at any time.
- `SemaphoreTheorems.SemaphoreIsSafe`: ranges over runs whose release reads list the session or find it dead; a run with any other release read is not covered, and `SafeReadIsExact` and `StaleReleaseReadExceedsLimit` say why.
- `LockSafety.LockIsExclusive`: ranges over runs whose lock reads, when they show the handle as owner, are still true or find it dead; `SafeReadIsExact` and `UnsafeReadBreaksExclusion` say why.
- `SemaphoreTheorems.RunKeepsInv`: handles are values of a transition system, not objects, so aliasing of a handle between goroutines and its mutex are not captured; other writers to the prefix are not modelled.
- `RexecWriter.Writer.Write`: two concurrent writes to one writer, and a cancel in the middle of a call, are not modelled.
- `DnsTrim.Msg.TrimUdp`: the length of a message is a fixed overhead plus the sizes of its records, so name compression does not change it.
- `DnsAddr.DoDispatch`: service, node and prepared-query lookups are outcomes without content; only the parse and the address answer are modelled.
- `Ports.Listeners.Expose`: the two loops over HTTP and gRPC checks are one loop over both in any order, and the rewriting of their addresses is not modelled.
- `AclPolicy.MergePolicies`: permissions beyond deny, write, list, read and unset are not modelled, because the parser refuses them; neither is the ID of the merged policy.
- JSON encoding of the lock entry and joining of key paths: a lock value and its key are values of a datatype.
- Lock delay, session TTL and renewal, monitor retries and waiting times: they are nondeterministic steps; progress is stated only for calls that nobody disturbs.
- The internals of the radix tree, the DNS message library, raft and the in-memory database: the tree is a map whose walks visit stored prefixes or extensions.
- Parsing of policies, conversion of legacy policies, HTTP and RPC handlers, event filtering and delivery, service registration around the sidecar port: they decode, forward or copy data, and the model takes their results as inputs.
