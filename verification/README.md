# Two distributed shared memories, verified

The repository holds two distributed shared memory systems, TreadMarks and MultiView, the allocator under both, and a
benchmark that runs on them. This project models their protocols and algorithms in Dafny and proves what they are
for. `dafny verify dfyconfig.toml` checks everything.

Each part is modelled in the form that the Go code has. Objects whose methods update fields are classes
(`TreadmarksHost`, `PageEntry`, `BarrierManager`, `Manager`, `Host`, `Vmem`, `SharedSort`), loops are loops, pages and
rights and indices are arrays written in place; every such method is proved to compute a function on values. The
theorems are about those functions: as state machines in which one handler call is one step and messages form a
multiset that may be delivered in any order, or as algebra over lists.

## The parts

**The lock token** (`LockHost`, `LockProtocol`, `PathReversal`, `LockQueue`, `LockTheorems`, `LockProgress`,
`LockLiveness`, `LockFairness`). Requests chase `last` pointers, and every hop turns `last` towards the requester. The
invariant arranges the hosts in segments linked by `next`: each has a tail that still points to itself and a head that
has the token, is being sent it, or has a request in flight. A ghost forest joins each host to its `last`, and each
tail to the host that its head's request is going to; every step is one surgery on the forest, so it stays acyclic.
From this follow mutual exclusion, conservation of the token, that no host receives its own request, that a waiting
host is in exactly one place, that waiting hosts are never forgotten, and that no request visits a host twice, so
every request is forwarded fewer times than there are hosts. After the last acquire a run ends within n(n+4) steps,
and it cannot get stuck while a host waits. And a host that has come d places behind the token is served by the d-th
grant, whatever the others do meanwhile.

**The interval logs** (`Timestamps`, `IntervalLog`, `LogTheorems`, `LogPages`). Each host's timestamp counts what it
knows of every other host's log, which is a prefix; a scan from the back that stops early sends exactly what is
missing; adding it, with a duplicate test that looks only for equality, brings the acquirer everything that the
granter knows. So whoever has the token has, for every interval that any host recorded, a record that names exactly
the pages written. Counters are int32 and wrap around, so the log theorems speak of states in which no log has
reached that length; the lemma `RecordIsExactInRange` says that this is exactly the range in which they hold.

**The diffs** (`DiffMerge`, `MergeOrder`, `MergeByProcess`, `DiffRequests`, `DiffStore`, `DiffLoss`, `DiffLogs`,
`DiffService`, `DiffOwner`, `DiffPages`). A diff turns its twin into the page. Without data races between processes
any two causal orders of the same lists give the same page. The merge picks heads in one left-to-right pass. For any
number of hosts it goes in causal order exactly when no notice still to be applied bypasses another one: a later
list's notice has seen an earlier list's, the one of a list in between has not, and it has not seen that one. Two
hosts or pairwise comparable notices never have that; three hosts can. Requests for missing diffs are joined by
lattice operations and still cover every missing notice; answers are exact, and the owner of a request's Last knows
all that it asks for. Storing an answer walks the lists backwards and stops matching at the first difference: for each
answer that a host can give, the exact condition on the lists under which every diff arrives is proved, and so is a
case in which the whole answer of a host to a request is lost. In the runs of the lock protocol the condition is met
when the newest missing notices are comparable and Last has seen all that the receiver knows: then there is one
request, and its owner's answer is stored in full.

**Barriers** (`Barrier`). Rounds of requests to one manager.

**MultiView coherence** (`Coherence`, `CoherenceInvariant`, `CoherenceTheorems`, `CoherenceStores`,
`CoherenceProgress`, `CoherenceLiveness`, `ManagerLocks`, `MultiviewManager`, `MultiviewHost`). A directory protocol
with forwarded reads, invalidation of all copies with reply counting, acknowledgements and a reader/writer lock per
virtual page. The invariant gives, for each message, how many of it are in flight. Single writer, no panic and the
accounting of write transactions hold in every run; no set of messages about a page ever waits for itself, and once
no new access begins, those that were begun are over within n(2n+7) steps. The code stores after its acknowledgement
without looking at the right again, so a store can come late. A run is coherent throughout exactly when every store
that changes the value is made alone: nobody else has a copy that the protocol uses, and no reply is in flight. Then
a host with access finds at each offset the byte of the latest store there, which is the byte that the Write behind
it was given. A store made while the right is still READ_WRITE is alone; and a run is proved in which a late store
is lost.

**Allocation** (`FreeList`, `PageMath`, `Minipages`, `ViewAlloc`, `ViewRuns`). A first-fit free list that coalesces;
minipages that tile an allocation; a search through the views for unmapped pages. When all views are taken the search
ends at the last one and overwrites it. So an allocation keeps the tables in order exactly when some view is free
where the search looks, or the last view is free where the minipages go; a counting condition that suffices is given,
and a run of two allocations in which the second finds no room.

**Two smaller pieces**: the total order that sorts the older timestamps (`LexOrder`), and the rank sort of the integer
benchmark with its shared batch cursor (`RankSort`).

## Assumptions

- One handler call is one atomic step. A host has one application thread; it acquires only what it does not hold and
  releases only what it holds, as the panic in `dsm-api/treadmarks/host.go:145-147` demands. Runs start after all hosts
  have joined.
- A MultiView handler that would block on a page lock is a step that is not enabled yet. `handleAck` reads and then
  writes the copyset; it is one step here.
- In the allocator the size of the MultiView memory is a multiple of the page size (`Privbase` is computed modulo the
  size), pages are longer than one byte, and sizes given to the allocator are positive unless a lemma says otherwise.
- No allocation is in progress while a page is in use by the coherence protocol. The code does not see to that:
  `HandleAlloc` keeps the manager's mutex while it waits for `locksLock`, which a request keeps while it waits for its
  page. `ManagerLocks` gives the exact condition under which the manager then stops for ever, and a run that meets it.
- The set of dirty pages of an interval is visited in any order, and a map of bytes likewise.
- `dsm-api/treadmarks/timestamp_test.go:9-13` expects `increment` to change its receiver; the code returns a changed
  copy, and so does the model.
- `getManagerId` ignores its argument: host 0 manages every lock and barrier.

## Model

| member | source | states |
|---|---|---|
| Timestamps.MergeIsLub | dsm-api/treadmarks/timestamp.go:52-65 | `merge` is the least upper bound of the pointwise order: a timestamp covers the merge exactly when it covers both arguments |
| Timestamps.MinIsGlb | dsm-api/treadmarks/timestamp.go:67-77 | `min` is the greatest lower bound |
| Timestamps.MergeAbsorbs | dsm-api/treadmarks/timestamp.go:28-65 | merging changes nothing exactly when the argument is already covered |
| Timestamps.IncrementIsAbove | dsm-api/treadmarks/timestamp.go:15-20 | an increment lies strictly above the old timestamp exactly when the int32 entry is not at its ceiling; there it wraps around |
| Timestamps.ComputeIncrement | dsm-api/treadmarks/timestamp.go:15-20 | the copy keeps all other entries and lies strictly above the old timestamp exactly when the entry is not at its ceiling; it is then the least timestamp that covers the old one and has a greater entry there |
| Timestamps.ComputeCovers | dsm-api/treadmarks/timestamp.go:28-38 | the early-return scan decides the pointwise order |
| Timestamps.ComputeEquals | dsm-api/treadmarks/timestamp.go:40-50 | the early-return scan decides equality |
| Timestamps.ComputeMerge | dsm-api/treadmarks/timestamp.go:52-65 | the loop fills in the pointwise maximum |
| Timestamps.ComputeMin | dsm-api/treadmarks/timestamp.go:67-77 | the loop fills in the pointwise minimum |
| LockHost.TreadmarksHost.constructor | dsm-api/treadmarks/host.go:222-227 | a fresh host: the manager has the token, everybody's `last` is the manager, logs are empty |
| LockHost.TreadmarksHost.NewIntervalRecord | dsm-api/treadmarks/host.go:276-297 | if pages are dirty, only the own log changes: it grows by one record, which names every dirty page once and carries the timestamp with the own entry bumped; none stay dirty |
| LockHost.TreadmarksHost.AddIntervalRecord | dsm-api/treadmarks/host.go:299-308 | the record is skipped only when it has exactly the host's timestamp; otherwise it is appended and its timestamp merged in |
| LockHost.TreadmarksHost.GetMissingIntervalsForProc | dsm-api/treadmarks/host.go:342-353 | the backward loop with early exit returns what `MissingFor` defines |
| LockHost.TreadmarksHost.GetMissingIntervals | dsm-api/treadmarks/host.go:333-340 | the scans of all processes, concatenated |
| LockHost.TreadmarksHost.SendLockAcquireResponse | dsm-api/treadmarks/host.go:433-443 | one grant goes out with the intervals that the requester misses |
| LockHost.TreadmarksHost.Acquire | dsm-api/treadmarks/host.go:140-156 | new state and messages are those of `AcquireLock`; acquiring a held lock is the caller's error, as the panic says |
| LockHost.TreadmarksHost.Release | dsm-api/treadmarks/host.go:158-170 | the lock is given up; if a successor is stored the dirty pages are recorded, the successor gets the token with the intervals that it lacks, and is forgotten; otherwise nothing else changes |
| LockHost.TreadmarksHost.HandleLockAcquireRequest | dsm-api/treadmarks/host.go:618-651 | the token goes out with the dirty pages recorded if the host has it unlocked; else the request is stored or forwarded along the old `last`; in all five branches `last` turns to the requester |
| LockHost.TreadmarksHost.HandleLockAcquireResponse | dsm-api/treadmarks/host.go:653-665 | new state is that of `OnGrant`: own interval first, then the response added from its end |
| PathReversal.ReverseKeepsAcyclic | dsm-api/treadmarks/host.go:622-648 | turning a tail's parent to a requester from another group, and the requester's onto the old path, makes no cycle |
| PathReversal.ReverseKeepsReach | dsm-api/treadmarks/host.go:622-648 | what reached its group's tail still reaches it after the reversal |
| LockProtocol.ApplyShaped | dsm-api/treadmarks/host.go:140-170 | no step is ever blocked by an ill-formed timestamp or host number |
| LockTheorems.StepKeeps | dsm-api/treadmarks/host.go:618-665 | every step of the protocol keeps the queue invariant (segments of `next` links, their tails, the forest of `last` pointers and requests in flight) |
| LockTheorems.RunInv | dsm-api/treadmarks/host.go:140-170 | the queue invariant holds in every reachable state, for any number of hosts and any order of delivery |
| LockTheorems.TokenConserved | dsm-api/treadmarks/host.go:618-665 | exactly one of "some host has the token" and "one grant is in flight" holds, once |
| LockTheorems.MutualExclusion | dsm-api/treadmarks/host.go:140-170 | at most one host is inside the lock, and it has the token |
| LockTheorems.NoCycle | dsm-api/treadmarks/host.go:618-651 | there is a ranking that falls along every `last` pointer and every request in flight; so no host receives its own request |
| LockTheorems.NeverForwardsToSelf | dsm-api/treadmarks/host.go:637-643 | the branch that would forward a request to the handling host itself is dead |
| LockTheorems.OnePlace | dsm-api/treadmarks/host.go:618-665 | a waiting host is in exactly one place, once: a request in flight, one host's `nextId`, or the grant in flight; any other host is in none |
| LockTheorems.WaitersAreServed | dsm-api/treadmarks/host.go:140-170 | if some host waits, a message is in flight or some host is inside the lock |
| LockProgress.HopsAreDistinct | dsm-api/treadmarks/host.go:618-651 | while a request is in flight, no two steps handle it at the same host, whatever other requests do to the pointers |
| LockProgress.FewHops | dsm-api/treadmarks/host.go:618-651 | a request is handled by fewer hosts than there are, so forwarding always comes to an end |
| LockLiveness.QuietRunsEnd | dsm-api/treadmarks/host.go:618-665 | after the last acquire a run makes at most n(n+4) more steps, whatever they are |
| LockLiveness.WaitersKeepItGoing | dsm-api/treadmarks/host.go:158-170 | as long as a host waits, some step is possible that is not an acquire; so when such a run can go no further, no host waits |
| LockFairness.StoredTakesPlace | dsm-api/treadmarks/host.go:622-626 | a request that is stored by the last host of the token's queue takes the place behind it |
| LockFairness.ServedInTurn | dsm-api/treadmarks/host.go:158-170 | a host d places behind the token in the chain of stored successors is sent it with the d-th grant and waits until then, however often other hosts acquire meanwhile; d is less than the number of hosts |
| IntervalLog.NextIsDifferent | dsm-api/treadmarks/host.go:299-301 | the duplicate test, which only compares for equality, never fires on the next unknown interval |
| IntervalLog.MissingIsTail | dsm-api/treadmarks/host.go:342-353 | the early exit loses nothing: a host that knows a prefix is sent all the rest |
| IntervalLog.AddMissing | dsm-api/treadmarks/host.go:653-665 | adding a response from its end brings the receiver every log of the granter, although the receiver has meanwhile appended to its own |
| IntervalLog.AppendKeepsSound | dsm-api/treadmarks/host.go:276-297 | recording an interval keeps the logs causally sound |
| IntervalLog.RecordIsExactInRange | dsm-api/treadmarks/host.go:276-297 | recording keeps "timestamp entry = length of the own log" exactly when the log is shorter than the int32 counter can count |
| LogTheorems.RunLogs | dsm-api/treadmarks/host.go:276-353 | in every run on one lock within the counters' range the logs are sound, and all that hosts, messages and stored requests know is explained by them |
| LogTheorems.HostsKnowPrefixes | dsm-api/treadmarks/host.go:299-308 | each host's entry for p is the length of what it knows of p, which is a prefix, without repetition, of p's own log; it covers exactly the intervals it knows |
| LogTheorems.HolderKnowsAll | dsm-api/treadmarks/host.go:158-170 | whoever has the token knows every interval of every host |
| LogTheorems.TimestampsOrderIntervals | dsm-api/treadmarks/host.go:276-307 | one interval covers another exactly when its own entry counts it |
| LogTheorems.GrantBringsEverything | dsm-api/treadmarks/host.go:653-665 | after a grant the acquirer knows exactly its own intervals and all the granter's |
| LogPages.RunRecords | dsm-api/treadmarks/host.go:276-295 | in every run on one lock the own log of a host grows in exactly the steps that record, by one interval, which names exactly the pages dirty then |
| LogPages.HolderKnowsPages | dsm-api/treadmarks/host.go:276-308 | whoever has the token has a record of each such interval of every host, with exactly the pages that it wrote |
| LogPages.GrantTellsPages | dsm-api/treadmarks/host.go:653-665 | in particular the acquirer of a grant, of every interval recorded before |
| DiffMerge.GenerateThenApply | dsm-api/treadmarks/host.go:309-319 | applying a generated diff to its twin gives back the page |
| DiffMerge.TwoWriters | dsm-api/treadmarks/host.go:309-327 | two writers of one twin who touch different bytes both keep all their changes, in either order |
| DiffMerge.Confluence | dsm-api/treadmarks/host.go:772-802 | if concurrent notices touch different bytes, any two causal orders of the same notices give the same page |
| DiffMerge.LaterHeadsCoverPick | dsm-api/treadmarks/host.go:783-791 | every head after the pick of one pass covers it |
| DiffMerge.PickBeatsEarlier | dsm-api/treadmarks/host.go:783-791 | the pick does not cover the head that the processes before it alone would have given |
| DiffMerge.EachOnceInListOrder | dsm-api/treadmarks/host.go:778-800 | for any number of hosts and any timestamps the merge takes each notice from its index on exactly once, in list order |
| DiffMerge.AcrossCalls | dsm-api/treadmarks/host.go:776-802 | two calls in a row, whatever happened to the lists in between, take what the first found open and then what lies behind; that is each notice of the new lists once exactly when nothing was taken away that the first call had applied |
| MergeOrder.CausalIffNoBypass | dsm-api/treadmarks/host.go:772-802 | for any number of hosts and lists in causal order, the merge applies the notices in causal order exactly when no three notices still to be applied, of processes p < q < r, are such that the one of r has seen the one of p but not the one of q, which has not seen the one of p either |
| MergeOrder.MergeIsAnyCausalOrder | dsm-api/treadmarks/host.go:772-802 | without such a bypass the merged page is the one that any causal order of the same race-free notices leaves |
| MergeOrder.FewOrComparableHaveNoBypass | dsm-api/treadmarks/host.go:783-791 | two hosts, or pairwise comparable notices, never have a bypass |
| MergeOrder.BypassExists | dsm-api/treadmarks/host.go:783-791 | the heads [1,0,0], [0,1,0], [1,0,1] of three hosts are applied out of causal order |
| MergeByProcess.ConfluenceByProcess | dsm-api/treadmarks/host.go:772-802 | if only concurrent notices of different processes are asked to touch different bytes, any two causal orders that take each process's notices in the same order give the same page |
| MergeByProcess.MergeIsAnyOrderOfLists | dsm-api/treadmarks/host.go:772-802 | the same without asking that one process's notices do not overlap, for causal orders that keep each process's list order |
| DiffRequests.RequestsGoToOwners | dsm-api/treadmarks/host.go:359-383 | each request goes to the process whose newest notice is stamped Last, and that diff is missing |
| DiffRequests.LastsStayApart | dsm-api/treadmarks/host.go:363-379 | the Last stamps of the requests are pairwise equal or causally unrelated |
| DiffRequests.RunsAreRequested | dsm-api/treadmarks/host.go:359-406 | every notice in a process's trailing run of missing diffs lies within [First, Last] of some request |
| DiffRequests.FirstsAreTight | dsm-api/treadmarks/host.go:359-406 | each entry of a First is that of the oldest notice of some run of missing diffs, so no request reaches further back than it must |
| DiffRequests.ScanIsExact | dsm-api/treadmarks/host.go:726-739 | in an ascending list the early exit of the backward scan loses nothing |
| DiffRequests.AnswerIsExact | dsm-api/treadmarks/host.go:726-739 | the answer holds exactly the notices within the request of every process but the requester |
| DiffRequests.MissingIsAnswered | dsm-api/treadmarks/host.go:359-406 | request and answer together: each missing notice is in the answer of whoever knows it, to some request that is sent to the owner of its Last |
| DiffStore.StoredUnlessLost | dsm-api/treadmarks/host.go:744-770 | each diff that is not lost is stored with the notice of its stamp, never in the own list |
| DiffStore.FillRefillsOnly | dsm-api/treadmarks/host.go:744-770 | an answer changes nothing but diffs, and each one it changes is one that the answer holds for that stamp |
| DiffStore.UnnamedIsKept | dsm-api/treadmarks/host.go:744-770 | a notice whose stamp the answer does not name keeps the diff that it had |
| DiffStore.NothingLostIffAligned | dsm-api/treadmarks/host.go:744-770 | if other processes' notices in the lists have different stamps, every diff of any answer is stored exactly when the answer is, process by process, the newest part of the receiver's list |
| DiffStore.StoredAtOwnerIff | dsm-api/treadmarks/host.go:744-770 | for an answer made of one part for each process and any stamps at all: every diff is stored in the list of its own process exactly when each part is the newest part of that list and the next older notice there is not stamped like what follows in the answer |
| DiffStore.NothingLostIff | dsm-api/treadmarks/host.go:744-770 | nothing of such an answer is lost exactly when each part is the newest part of the receiver's list, if no notice is stamped like one in another process's part |
| DiffStore.AnswerStoredIff | dsm-api/treadmarks/host.go:722-770 | the same of the answers that `handleDiffRequest` gives, as conditions on the receiver's lists, the answerer's lists and the request |
| DiffStore.AnsweredIsStored | dsm-api/treadmarks/host.go:722-770 | if the answer fits the lists, each notice within the request gets the diff that the answerer has for it |
| DiffStore.MissingIsStored | dsm-api/treadmarks/host.go:359-406 | request, answer and store together: for each missing notice there is a request, its answer by whoever knows the notice contains it, and if the answer fits the lists the notice gets the diff that is known there |
| DiffLoss.GenuineAnswerIsLost | dsm-api/treadmarks/host.go:744-770 | a receiver's lists, the two requests it makes and the answer that a host gives to the second: the whole answer is lost and no list changes |
| DiffLogs.OwnerKnows | dsm-api/treadmarks/host.go:359-383 | in every run on one lock a host knows every interval that one of its own intervals has seen, so the owner of a request's Last knows all that the request asks for |
| DiffLogs.OwnerHasNotice | dsm-api/treadmarks/host.go:359-406 | if it has a notice for each interval it knows that wrote to the page, it has one for each interval within the request |
| DiffLogs.LogsGiveDistinctStamps | dsm-api/treadmarks/host.go:744-770 | notices that come from the logs of such a run meet the two conditions on stamps |
| DiffService.OneRequest | dsm-api/treadmarks/host.go:359-383 | if of any two lists whose newest diff is missing one newest notice has seen the other, at most one request is made |
| DiffService.AgreeingAnswerIsStored | dsm-api/treadmarks/host.go:722-770 | a host that has the same notices as the receiver up to Last, when Last has seen all that the receiver knows of others, answers with nothing that is lost, and every notice that covers First gets its diff |
| DiffService.OneAnswerServesAll | dsm-api/treadmarks/host.go:359-406 | with comparable newest notices: one request, and its answer by such a host gives each missing notice the diff that the host has |
| DiffOwner.OwnerAgrees | dsm-api/treadmarks/host.go:359-383 | in every run on one lock the owner of an interval that the receiver knows has the same notices as the receiver up to that interval's stamp |
| DiffOwner.OwnerServesAll | dsm-api/treadmarks/host.go:359-406 | so in every such run a host that misses diffs of a page, with comparable newest notices and nothing known beyond Last, makes one request, and the answer of Last's owner brings each missing notice the owner's diff and loses nothing |
| DiffPages.OwnNoticesRebuildPage | dsm-api/treadmarks/host.go:309-327 | whether the empty diff is dropped or the diff attached, the own notices replay to the page as it was |
| DiffPages.PageEntry.constructor | dsm-api/treadmarks/datastructures.go:40-54 | a page entry with an empty list per process and all indices 0 |
| DiffPages.PageEntry.ApplyDiff | dsm-api/treadmarks/host.go:804-814 | the page is patched in place with the diff, in whatever order its keys are visited |
| DiffPages.PageEntry.ComputeBest | dsm-api/treadmarks/host.go:780-792 | one pass picks what `Best` defines |
| DiffPages.PageEntry.ApplyAllDiffs | dsm-api/treadmarks/host.go:772-802 | the merge terminates; the page in place is the fold of `Order`, and every index ends at the length of its list, unless it lay past it |
| DiffPages.PageEntry.GenerateDiff | dsm-api/treadmarks/host.go:309-327 | the loop collects exactly the bytes that differ from the twin; an empty diff takes the newest own notice away, any other is attached to it |
| DiffPages.PageEntry.CreateDiffRequest | dsm-api/treadmarks/host.go:385-406 | a request is made exactly when the newest diff is missing; it asks for the trailing run of missing diffs and no more: First is the stamp of its oldest notice, Last that of its newest |
| DiffPages.PageEntry.CreateDiffRequests | dsm-api/treadmarks/host.go:359-383 | the loop over the processes builds `Requests` |
| DiffPages.PageEntry.InsertRequest | dsm-api/treadmarks/host.go:365-378 | the inner loop, which changes the list while walking over it, computes `Join` |
| DiffPages.PageEntry.FlushTwin | dsm-api/treadmarks/host.go:711-720 | a dirty page gets a notice of this host with this timestamp; the newest own notice gets exactly the bytes that differ from the twin, or goes away if none do; the lists of others stay |
| DiffPages.PageEntry.HandleDiffRequest | dsm-api/treadmarks/host.go:711-742 | own writes are flushed first; the result is `Answer` over the lists as they are then |
| DiffPages.PageEntry.CollectNotices | dsm-api/treadmarks/host.go:722-739 | the loops over all processes but the requester |
| DiffPages.PageEntry.ScanBackwards | dsm-api/treadmarks/host.go:728-738 | the backward loop with early exit computes `Scan` |
| DiffPages.PageEntry.HandleDiffResponse | dsm-api/treadmarks/host.go:744-770 | only diffs change, only in the lists of others, and only to the diff that the answer has for the same stamp; the rest is as `Fill` says |
| DiffPages.PageEntry.FillBackwards | dsm-api/treadmarks/host.go:755-768 | the walk over one list stores the longest matching part, each diff at its stamp, and leaves the older notices as they are |
| Barrier.BarrierManager.constructor | dsm-api/treadmarks/host.go:229-232 | the counter starts at 0 |
| Barrier.BarrierManager.HandleBarrierRequest | dsm-api/treadmarks/host.go:667-688 | the request is stored in its sender's place and counted; the last one of a round sets the counter back, and every host is answered once, the manager itself last |
| Barrier.OthersAndManager | dsm-api/treadmarks/host.go:667-688 | the hosts that are answered at the end of a round, the manager last, are all hosts, each once |
| Barrier.RunInv | dsm-api/treadmarks/host.go:667-695 | where each host stands in the current round, in every reachable state and under any order of delivery |
| Barrier.NoEarlyReturn | dsm-api/treadmarks/host.go:667-695 | no host returns from its k-th call before every host has made its k-th call |
| Barrier.RoundsStayClose | dsm-api/treadmarks/host.go:667-695 | hosts' completed rounds differ by at most one |
| Barrier.CounterIsHandledThisRound | dsm-api/treadmarks/host.go:669-685 | the counter is the number of requests handled in the current round, whatever barrier ids are used |
| Barrier.RoundsAreWhole | dsm-api/treadmarks/host.go:668-684 | what the manager merges when it answers round k is exactly the k-th request of every host |
| Barrier.SomeoneCanMove | dsm-api/treadmarks/host.go:667-695 | when every host is in a barrier call, some message is there to be handled |
| CoherenceInvariant.WriteReqKeeps | multiview/manager.go:192-209 | handling a write request, which takes the write lock and sends one invalidation to each copyset member, keeps the invariant `Inv` |
| CoherenceInvariant.LastInvReplyKeeps | multiview/manager.go:211-221 | handling the last invalidate reply, which empties the copyset and sends WRITE_REQUEST to its one member, keeps `Inv` |
| CoherenceInvariant.InvReplyKeeps | multiview/manager.go:222-224 | handling any other invalidate reply, which drops the first copyset member whoever sent it, keeps `Inv` |
| CoherenceInvariant.ReadAckKeeps | multiview/manager.go:228-234 | a READ_ACK only comes while a read lock is held; handling it keeps `Inv` |
| CoherenceInvariant.WriteAckKeeps | multiview/manager.go:236-242 | a WRITE_ACK only comes while the write lock is held; handling it keeps `Inv` |
| CoherenceInvariant.HostInvalidateKeeps | multiview/host.go:521-526 | taking the right away and answering an invalidation keeps `Inv` |
| CoherenceTheorems.StepKeeps | multiview/host.go:482-526 | every step of the coherence protocol keeps the invariant that says exactly which messages are in flight |
| CoherenceTheorems.RunInv | multiview/manager.go:179-258 | the invariant holds in every reachable state, for any number of hosts and any order of delivery |
| CoherenceTheorems.SingleWriter | multiview/host.go:482-526 | if one host has READ_WRITE, every other has NO_ACCESS; when the page lock is free, every host with access is in the copyset |
| CoherenceTheorems.NeverPanics | multiview/manager.go:185-202 | the empty-copyset panic, `copies[0]` on an empty copyset and releasing a lock that is not held are out of reach; copysets stay free of duplicates and are empty only between the last reply and the WRITE_ACK |
| CoherenceTheorems.WriteTransaction | multiview/manager.go:199-225 | as many replies are handled as invalidations were sent; WRITE_REQUEST goes out once, after the last of them, when all hosts are at NO_ACCESS |
| CoherenceTheorems.CoherentIffStoresAlone | multiview/host.go:350-357 | every state of a run is coherent exactly when each store in it that changes the value is made while no other host has access, is in the copyset or is asked for the page, and no reply is in flight |
| CoherenceTheorems.GuardedStoresAreAlone | multiview/host.go:350-357 | a store by a host that still has READ_WRITE is made alone |
| CoherenceTheorems.DataCoherence | multiview/host.go:482-526 | when stores are made alone: every host with access, every copyset member while the lock is free or shared, and every reply carry the value of the last store |
| CoherenceStores.StoreLands | multiview/host.go:350-357 | a store puts its byte at its offset in the host's memory and in the common memory that runs are compared with; every other byte and host stays |
| CoherenceStores.EditIsWritten | multiview/host.go:350-357 | what a thread stores is what its host's latest Write was called with |
| CoherenceStores.LastByteIsWritten | multiview/host.go:350-357 | the common memory holds at each offset the byte given to the Write behind the latest store there |
| CoherenceStores.ReadersSeeWrites | multiview/host.go:314-357 | when stores are made alone: a host with access finds at each offset the byte that the latest store there was to write, and before any store what the owner had |
| CoherenceTheorems.StoreIsCoherentIffAlone | multiview/host.go:350-357 | one store that changes the value, made after the WRITE_ACK without looking at the right again, keeps a coherent page coherent exactly when the storing host is alone |
| CoherenceTheorems.UnguardedStoreIsLost | multiview/host.go:350-357 | a run in which it does not: the page lock is free and a member of the copyset does not see the last store |
| CoherenceProgress.FaultsAreServed | multiview/host.go:437-474 | no deadlock among the messages about one page: while a thread waits in a fault or is to acknowledge it, the manager or a host can handle some message or some thread can send its acknowledgement |
| CoherenceLiveness.QuietRunsEnd | multiview/host.go:437-474 | once no thread begins a new access, a run makes at most n(2n+7) more steps, whatever they are |
| CoherenceLiveness.AccessesGoOn | multiview/host.go:437-474 | while a thread has begun an access, some step is possible that begins no other; so when such a run can go no further every access has been served |
| ManagerLocks.AllocationEndsIff | multiview/manager.go:327-391 | an allocation that has asked for the lock of the lock table can still get it exactly when every request that holds it and waits for a page lock can get that with the acknowledgements that are past the table lock already |
| ManagerLocks.JamIsForEver | multiview/manager.go:163-183 | otherwise it keeps the manager's mutex for ever, and no message about any page is handled any more |
| ManagerLocks.JamHappens | multiview/manager.go:179-242 | a run that gets there: a write is being served, a read of the page waits, and a client allocates |
| ManagerLocks.RequestsGoOn | multiview/manager.go:179-242 | while no allocation is in progress a request that waits for a page lock can get it, or a handler that gives it back can go on or come in |
| MultiviewManager.Manager.HandleReadReq | multiview/manager.go:163-189 | one more reader has the lock, and the first copyset member is sent the request, which names address, length and privileged bytes of the minipage |
| MultiviewManager.Manager.HandleWriteReq | multiview/manager.go:163-209 | the writer has the lock, and each copyset member in turn is sent an invalidation that names address, length and privileged bytes of the minipage |
| MultiviewManager.Manager.HandleInvalidateReply | multiview/manager.go:163-226 | the first copyset member goes; if it was the last one it is sent the WRITE_REQUEST, which names address, length and privileged bytes of the minipage |
| MultiviewManager.Manager.HandleAck | multiview/manager.go:244-258 | the search loop adds the sender to the copyset unless it is there |
| MultiviewManager.Manager.HandleReadAck | multiview/manager.go:228-234 | that, and the read lock is given back |
| MultiviewManager.Manager.HandleWriteAck | multiview/manager.go:236-242 | that, and the write lock is given back |
| MultiviewManager.Manager.CutPieces | multiview/manager.go:345-355 | the loop over `sizeLeft` cuts the allocation into `Pieces` |
| MultiviewManager.Manager.FindView | multiview/manager.go:357-379 | the two search loops find the view that `SearchView` defines, or end at the last one |
| MultiviewManager.Manager.EnterPieces | multiview/manager.go:382-387 | each minipage gets its page, with the first page of the run, the requester as only copy holder and a free lock; no other page changes |
| MultiviewManager.Manager.HandleAlloc | multiview/manager.go:327-391 | every page mapped now and not before is as the coherence protocol starts it, with the requester as owner, and points at the page of the reply; if there is room in the views all other pages keep their entries; without memory nothing changes |
| MultiviewManager.Manager.HandleFree | multiview/manager.go:393-414 | the loop ends; pages of the run lose all four entries, no other page changes, and the free list changes as `FreeList.Free` says |
| MultiviewHost.Host.constructor | multiview/host.go:195-200 | for any memory size: the pages of the privileged view are readable and writable, all others not accessible |
| MultiviewHost.Host.PrivilegedPage | multiview/host.go:306-312 | a physical address is its own translation, and lies on a privileged page exactly when it is on a whole page of the memory |
| MultiviewHost.Host.AllPrivilegedIff | multiview/host.go:195-200 | all of the memory is privileged exactly when its size is a multiple of the page size |
| MultiviewHost.Host.ReadPrivileged | multiview/host.go:324-330 | reading over privileged addresses never faults and returns the memory's bytes |
| MultiviewHost.Host.WritePrivileged | multiview/host.go:485-491 | writing over privileged addresses never faults and changes those bytes only |
| MultiviewHost.Host.OnReply | multiview/host.go:482-499 | a reply stores its data and sets the right; the thread that waits in a fault of that kind is served, a writing one with the edit it came with; no other byte or page changes |
| MultiviewHost.Host.OnRequest | multiview/host.go:500-519 | a read request makes READ_WRITE READ_ONLY, a write request takes the right away; the answer carries the bytes of the minipage |
| MultiviewHost.Host.OnInvalidateRequest | multiview/host.go:521-526 | the right is taken away and the manager is answered |
| MultiviewHost.Host.StartRead | multiview/host.go:314-319 | a fault with a READ_REQUEST exactly when the page is not accessible, else on to the load |
| MultiviewHost.Host.StartWrite | multiview/host.go:350-355 | a fault with a WRITE_REQUEST exactly when the right is not READ_WRITE, else on to the store, with the edit given |
| MultiviewHost.Host.SendAck | multiview/host.go:460-473 | after a served fault the matching ack goes out, and the access follows with the same edit |
| MultiviewHost.Host.FinishRead | multiview/host.go:320-321 | the byte is read whatever the right says by now |
| MultiviewHost.Host.FinishWrite | multiview/host.go:356 | the byte lands at its offset from the minipage's physical start, whatever the right says by now, and no other byte of the memory changes |
| FreeList.Vmem.constructor | memory/mem.go:126-139 | one free range over the whole memory, at least one page long |
| FreeList.Vmem.Allocate | memory/mem.go:115-124 | the first-fit loop gives the front of the first range that is long enough and records the size under that address; it fails exactly when no range fits |
| FreeList.Vmem.Release | memory/mem.go:82-109 | an address without a recorded size is refused and changes nothing; otherwise the coalescing loop rebuilds the list as `Insert` says |
| FreeList.MallocFailsIffNoRoom | memory/mem.go:115-124 | allocation fails exactly when no run of that many free bytes exists anywhere in the memory |
| FreeList.MallocIsLowest | memory/mem.go:115-124 | Malloc gives out the lowest address from which on there are enough free bytes |
| FreeList.MallocKeeps | memory/mem.go:115-124 | a non-empty allocation keeps free ranges and live blocks a partition of the memory, and the list sorted and coalesced |
| FreeList.InsertCoalesced | memory/mem.go:91-106 | the rebuilt list is sorted with a gap between any two ranges |
| FreeList.InsertFrees | memory/mem.go:91-106 | freeing adds exactly the block's bytes |
| FreeList.FreeKeeps | memory/mem.go:82-109 | freeing a live block keeps the partition |
| FreeList.MallocThenFree | memory/mem.go:82-124 | freeing what was just allocated restores the free list itself, for coalesced lists |
| FreeList.RunsPartition | memory/mem.go:82-124 | after any run of allocations and frees the free ranges and the live blocks partition the memory, and the list is sorted and coalesced |
| FreeList.StaleFreeIff | memory/mem.go:82-86 | size records are never cleared: freeing an address that is not live keeps the partition exactly when its old bytes are all free |
| FreeList.StaleFreeHarms | memory/mem.go:82-86 | a concrete run in which freeing twice makes bytes of a live block free |
| FreeList.ZeroMallocIff | memory/mem.go:115-121 | an allocation of 0 bytes keeps the partition exactly when the first free range does not start, empty, at the address of a live block |
| FreeList.ZeroMallocHarms | memory/mem.go:115-121 | a run in which it does not: afterwards a live block can no longer be freed |
| Minipages.PiecesTile | multiview/manager.go:345-355 | minipages tile the allocation: each lies on its own page, starts where the one before ended, and only the last stops before its page does |
| Minipages.PiecesPartition | multiview/manager.go:345-355 | a byte is allocated exactly when it is in some minipage, and it is in only one |
| Minipages.PieceInside | multiview/manager.go:348-355 | no minipage sticks out of the allocation |
| Minipages.SearchSucceedsIff | multiview/manager.go:365-379 | the search ends at a view whose pages are all unmapped exactly when such a view exists, and then at the first one |
| Minipages.SearchSucceedsByCounting | multiview/manager.go:365-379 | by pigeonhole it succeeds if fewer than pageSize-1 pages are mapped in the searched columns |
| ViewAlloc.FoundIsFresh | multiview/manager.go:365-387 | if some view is free, the pages entered were unmapped |
| ViewAlloc.FreshIffRoom | multiview/manager.go:365-387 | the pages entered were unmapped exactly when some view is free in the columns that the search looks at, or the last view is free in those that the minipages need |
| ViewAlloc.WholePagesGeometry | multiview/manager.go:359-363 | the page count that the search steps by is the number of pages, for every memory of whole pages |
| ViewAlloc.AllocKeepsIffRoom | multiview/manager.go:327-391 | an allocation keeps all tables, blocks and the heap in order exactly when there is room in the views in this sense |
| ViewAlloc.AddressIsPhysical | multiview/manager.go:389-390 | the address of a live block lies on its first page and, modulo the memory size, is the physical address |
| ViewAlloc.ReplyIsAddress | multiview/manager.go:380-391 | that address is the reply |
| ViewAlloc.AllocEnters | multiview/manager.go:327-391 | a page mapped by an allocation points at the page of the reply, is held by the requester alone and has a free lock; with room in the views the pages mapped before keep their entries |
| ViewAlloc.TranslateIsPrivileged | multiview/manager.go:163-176 | what `translate` adds to a message is the length of the page's minipage, exactly its privileged bytes, and the virtual address on that page that maps to them |
| ViewAlloc.PrivilegedDisjoint | multiview/manager.go:171-173 | two mapped pages never share a privileged byte |
| ViewAlloc.PrivilegedCovers | multiview/manager.go:171-173 | a byte is in a live block exactly when it is in the privileged range of one of the block's pages |
| ViewAlloc.FreeFindsBlock | multiview/manager.go:394-402 | the loop of a free stops exactly at the end of the block, even when another block follows at once |
| ViewAlloc.FreeTakesOwnPages | multiview/manager.go:393-411 | a free of any address takes entries only of pages of the allocation that starts at that page, and all four of each |
| ViewAlloc.FreeKeeps | multiview/manager.go:393-414 | a free removes exactly that block's pages from all four tables and gives its bytes back; all else stays in order |
| ViewAlloc.AllocThenFree | multiview/manager.go:327-414 | freeing what was just allocated restores the four tables and the free list |
| ViewRuns.RunsStayInOrder | multiview/manager.go:327-414 | after any run of frees and allocations that find room in the views: each mapped page holds a minipage of exactly one live block, and blocks and free ranges partition the physical memory |
| ViewRuns.NoRoomBreaksOrder | multiview/manager.go:365-391 | the first allocation that finds no room ends that |
| ViewRuns.RunsKeepPagesApart | multiview/manager.go:163-176 | in every such run from an empty memory, no two virtual pages translate to a common physical byte |
| ViewRuns.NothingLeaks | multiview/manager.go:393-414 | when everything has been freed, all four tables are empty again and every byte is free |
| ViewRuns.ViewsRunOut | multiview/manager.go:365-391 | a run of two one-byte allocations from an empty memory, the second of which finds no room: it gets address 3, on the page of address 2, and overwrites the entry of the first |
| LexOrder.LessAtFirstDifference | treadmarks/timestamp.go:41-63 | the order is decided by the first entry that differs |
| LexOrder.LessIsTotal | treadmarks/timestamp.go:41-63 | of two timestamps exactly one is less, or they are equal |
| LexOrder.LessTransitive | treadmarks/timestamp.go:41-63 | the order is transitive |
| LexOrder.LessExtendsBefore | treadmarks/timestamp.go:41-63 | the order extends the pointwise causal order |
| LexOrder.SortedIsCausal | treadmarks/timestamp.go:65-69 | a list sorted with `ByVal` is a linear extension of happened-before |
| LexOrder.SortedIsUnique | treadmarks/timestamp.go:65-69 | a collection of timestamps has only one sorted list |
| LexOrder.ComputeLess | treadmarks/timestamp.go:41-63 | the two loops, a pointwise comparison and a search for the first difference, decide the lexicographic order |
| LexOrder.ComputeEquals | treadmarks/timestamp.go:22-32 | decides equality, lengths included |
| LexOrder.ComputeIncrement | treadmarks/timestamp.go:34-39 | entry procId-1 grows by one; the result is causally later exactly when that entry does not wrap around |
| RankSort.RankOrders | Benchmarks/SortedInt.go:107-116 | ranks are positions and order the keys by (value, index) |
| RankSort.RanksArePermutation | Benchmarks/SortedInt.go:107-116 | the ranks are a permutation of 0..N-1 |
| RankSort.EveryPositionIsARank | Benchmarks/SortedInt.go:107-116 | every position is the rank of some key |
| RankSort.ScatterSortsStably | Benchmarks/SortedInt.go:134-137 | the scattered keys are sorted, and equal keys keep their order |
| RankSort.ScatterKeepsKeys | Benchmarks/SortedInt.go:134-137 | the scattered keys are the keys, with the same multiplicities |
| RankSort.RankedByOne | Benchmarks/SortedInt.go:82-104 | every key below the shared cursor is in exactly one batch of exactly one host, however the hosts took turns |
| RankSort.AllRankedWhenOneStops | Benchmarks/SortedInt.go:102-104 | when one host leaves its loop, every key is in exactly one batch |
| RankSort.CursorReachesEnd | Benchmarks/SortedInt.go:90-96 | with non-empty batches the cursor reaches N after at most N calls |
| RankSort.AllBatchesGiveAllRanks | Benchmarks/SortedInt.go:82-117 | once some host has left its loop, ranking every batch that was given out, in any order, leaves in the shared array exactly the ranks that the scatter needs |
| RankSort.SharedSort.TakeBatch | Benchmarks/SortedInt.go:89-95 | under the lock a host reads the cursor, keeps the start and moves the cursor on by one batch, which is full unless the keys end |
| RankSort.SharedSort.ComputeRank | Benchmarks/SortedInt.go:107-115 | the counting loop computes the rank |
| RankSort.SharedSort.RankBatch | Benchmarks/SortedInt.go:107-116 | the ranks of a batch are written, and no others |
| RankSort.SharedSort.Scatter | Benchmarks/SortedInt.go:134-137 | the loop never writes a position twice and leaves every key at its rank |
| RankSort.CountDescents | Benchmarks/SortedInt.go:138-146 | the final check counts the places where a value is below the one before it (0 for the first) |
| RankSort.CheckPassesIff | Benchmarks/SortedInt.go:138-146 | on the scattered keys it counts nothing exactly when no key is negative |

## Left out

- Network, sockets, XDR and gob encoding, goroutines, Go mutexes and channels: library plumbing, replaced by the message multiset and atomic steps.
- Logging, CSV, profiling, message counters and the mains: nothing to prove.
- LockProtocol.ApplyShaped: only one lock is modelled in the runs; each lock's fields are independent, but several locks share the timestamp and the logs.
- LogTheorems.RunLogs: speaks of runs without barriers and on one lock; the duplicate test compares for equality only, and a barrier request carries the timestamp from before `newInterval`, so barriers and runs on several locks can append an interval twice.
- LockHost.TreadmarksHost.NewIntervalRecord: the write notices that it adds to the page array are modelled in `DiffPages`, not here.
- LockHost.TreadmarksHost.AddIntervalRecord: likewise, the notices, rights and diffs of the pages it names are not part of this object.
- DiffPages.PageEntry.GenerateDiff: takes the twin as a parameter; `onFault` copies it from another address than the one diffed (`GetPageAddr(pageNr)` against `pageNr*pageSize`), so nothing is claimed about page contents across hosts. Access rights are not part of the entry.
- DiffPages.PageEntry.constructor: the flag that a copy is present and the initial copyset are not part of the entry.
- DiffPages.PageEntry.FlushTwin: the page right, which the source sets to READ_ONLY, is not part of the entry.
- DiffPages.PageEntry.HandleDiffRequest: likewise for the right that the flush sets.
- DiffPages.PageEntry.ApplyDiff: keys outside the page make the source panic; they are excluded by the precondition, and generated diffs have none.
- DiffPages.PageEntry.HandleDiffResponse: the new lists are built beside the old ones, not in the shared backing array.
- DiffStore.MissingIsStored: assumes that the answer fits the lists, which `DiffOwner.OwnerServesAll` proves of runs with comparable newest notices and nothing known beyond Last; and it stores the diff that the answerer has: that the answerer has it by then, and not only the notice, is not claimed.
- DiffOwner.OwnerServesAll: receiver and owner are looked at in one state; notices that come in between the request and its answer are not part of it.
- DiffStore.NothingLostIffAligned: for arbitrary answers, and lists in which different other processes have different stamps. Notices of intervals do (`DiffLogs.LogsGiveDistinctStamps`); a notice of the own list may repeat a stamp. `DiffStore.StoredAtOwnerIff` needs no such condition.
- DiffLogs.OwnerHasNotice: that a host has a notice for each interval it knows is assumed of the page array, which is another object than the logs.
- Copy requests, copy responses and the TreadMarks fault handler: the twins they send do not support a clean claim.
- Barrier.RoundsAreWhole: the intervals inside a barrier request are identified by the call that sent them; merging them into the logs is left out.
- CoherenceProgress.FaultsAreServed: waits for page locks only; the mutexes that the manager's handlers share with an allocation are the subject of `ManagerLocks`, apart from the coherence runs. A `HandleFree` that waits for a page lock inside `locksLock` is left out there.
- CoherenceTheorems.DataCoherence: one virtual page; pages do not share protocol state, and `ViewAlloc.PrivilegedDisjoint` shows that they do not share bytes. Free is not part of coherence runs, because `HandleFree` does not take rights away from hosts.
- MultiviewHost.Host.ReadPrivileged: addresses on a last page that is not whole are excluded; reading them would fault inside the message handler.
- MultiviewHost.Host.OnReply: event numbers and channels are reduced to the position of the one application thread.
- MultiviewManager.Manager.HandleFree: the page locks that it takes are assumed to be free; it then deletes them.
- handleMultiAlloc: the loop of HandleAlloc repeated.
- The lock and barrier servers of MultiView in the older `treadmarks` package, its page and process arrays, and its host: an older duplicate whose fault handler is commented out.
- multiview/multiviewMemory.go: unused by the running system.
- RankSort.ScatterKeepsKeys: the variable-length integer encoding in which ranks travel through the shared memory, and its width of four bytes, are left out, as is the random generator.
- Jacobi, ModuloMult and the TreadMarks version of the integer sort: floating point or plain drivers.
- treadmarks/datastructure, utils, and loading and saving of timestamps: stubs and pointer casts.
