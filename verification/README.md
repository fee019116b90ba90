# A verified model of the RIPv2 daemon

This project models a RIPv2 daemon (RFC 2453) in Dafny and proves what it does,
in three layers that rest on each other.

1. **The hash map** (`Table.dfy`, `HashMap.dfy`, `HashMapRuns.dfy`). The
   open-addressed Robin Hood table with displacement, backward-shift deletion,
   growing, shrinking and the in-place iterator, on a real bucket array. It is
   proved to be a finite map for every sequence of operations.
2. **One router** (`Wire.dfy`, `Routes.dfy`, `RouterSpec.dfy`, `RipDb.dfy`,
   `Kernel.dfy`, `RipRecv.dfy`, `RipUpdate.dfy`, `Rip.dfy`, `Daemon.dfy`). The
   database on two hash maps, entry processing, advertisements, the timer
   callbacks with their restarting iterators, start and shutdown, as classes and
   methods. Each method is proved against a step on values in `RouterSpec.dfy`;
   `Daemon.Dispatch` says that the whole daemon refines those steps.
   `RouterInvariant.dfy`, `RouterRuns.dfy`, `RouterTheorems.dfy` and
   `Schedules.dfy` prove properties of every run, and the methods of `Daemon.dfy`
   build such runs. `Reception.dfy`, `Announcements.dfy` and `Lifetimes.dfy` say in
   fields and numbers what a run accepts, sends, keeps and forgets, without naming
   the functions the steps are made of.
3. **A network of such routers** (`Network.dfy`, `Convergence.dfy`, `TwoRouters.dfy`). Arbitrary
   topologies; packets are lost, duplicated and reordered; routers time out,
   collect garbage and shut down. Metrics are proved never to be better than the
   distance, and to reach exactly the distance after that many loss-free rounds.

Outcomes the program does not control are parameters: whether memory is granted
(`alloc`), whether the kernel grants a route (`grant`), whether a send succeeds
(`sent`), and the time (`now`). Metrics are kept in network byte order, as the
program keeps them, on a little-endian host. Callbacks run only when their timer
is ticking. The hash is any function of the key; two items compare equal exactly
when their keys are equal. The slot of a hash is written as a remainder: the table
size is a power of two, which the class invariant records, so masking gives the
same slot. The thresholds of 60 and 10 percent are written as integer division,
which agrees with the floating-point computation because no power of two times
3/5 or 1/10 is an integer.

## Where the code differs from RFC 2453

The model follows the code.

- An entry with an equal or worse metric changes nothing, and does not restart the
  timeout, even from the same neighbour. As a consequence a learned route leaves
  the ok table at its twelfth sweep at the latest unless something cheaper is
  offered (`RouterTheorems.UnchallengedLifetime`), and within 165 sweeps however
  often it is improved (`RouterTheorems.RouteLifetime`). It lives no shorter than its
  counter allows (`Lifetimes.RouteSurvives`). The 165 hold as long as
  the kernel refuses none of the improvements: a refused one takes the route out,
  and a later entry of the same response can file it anew with a counter of zero.
- Routes of metric 16 are filed like any other.
- The key includes neighbour and interface, so there is no choice between
  neighbours.
- The timeout sweep restarts its iteration after every expiry, so a route can be
  counted more than once in a sweep and expire early (`RouterTheorems.EarlyExpiry`).
  Sweeps count every learned route once and expire only those at their limit,
  whatever the table layout, exactly if no learned route is one tick short of its
  limit or all are (`Schedules.SweepsTreatAlike`).
- Change flags are cleared after an advertisement even if it could not be sent,
  and a periodic update that could not be sent leaves its timer stopped.
- A better route that the kernel refuses takes the old route with it, unannounced
  (`RouterTheorems.NoLostChange` names this case).
- The poison policy of the advertisement code emits nothing, exactly like split
  horizon, so one selection rule covers both.

## Model

| member | source | states |
|---|---|---|
| Table.RunBehind | src/librip/utils/hashmap.c:305-312 | walking back from any slot loses at most one probe distance per step, around the wrap-around |
| Table.FreeSlotAhead | src/librip/utils/hashmap.c:332-334 | no free slot lies between the home of a stored key and the key |
| Table.ScanOn | src/librip/utils/hashmap.c:341-341 | passing a used bucket with another key extends the scanned run and does not go around |
| Table.ProbeMayStop | src/librip/utils/hashmap.c:292-305 | once a bucket closer to its own home is met, or a free one, the key is nowhere in the table |
| Table.FreeSlotExists | src/librip/utils/hashmap.c:275-280 | a table larger than what it holds has a free slot, so probe loops end |
| Table.DibAtMostCount | src/librip/utils/hashmap.c:31-34 | every stored probe distance is at most the number of items |
| Table.EntryDibBound | src/librip/utils/hashmap.c:282-312 | the distance of the entry in hand during an insertion is at most one more than the number of items |
| Table.StoreInFree | src/librip/utils/hashmap.c:292-296 | storing the entry in hand in a free slot gives a sound table that holds exactly the old items and the entry |
| Table.Displace | src/librip/utils/hashmap.c:305-312 | swapping the entry with a bucket closer to home keeps all invariants; table and displaced bucket together hold the same map |
| Table.PassBy | src/librip/utils/hashmap.c:311-312 | passing a bucket at least as far from home keeps the entry well placed and short of the free slot |
| Table.OpenHole | src/librip/utils/hashmap.c:378-382 | the found bucket regarded as free leaves exactly the other items |
| Table.ShiftBack | src/librip/utils/hashmap.c:383-393 | pulling one bucket back moves the hole on and keeps placement, distances and contents |
| Table.CloseHole | src/librip/utils/hashmap.c:387-390 | a hole before a free or home bucket can be cleared, and the table is sound |
| HashMaps.RoundCapacity | src/librip/utils/hashmap.c:115-123 | the bucket count is the least power of two that is at least 16 and at least the request |
| HashMaps.Doubled | src/librip/utils/hashmap.c:275-276 | a doubled table has room for one item more than a full one holds, and a free slot |
| HashMaps.Halved | src/librip/utils/hashmap.c:395-400 | a halved table above the initial capacity has room for every item of a table due to shrink |
| HashMaps.Thresholds | src/librip/utils/hashmap.c:155-157 | a table is due to grow exactly at 60 percent and to shrink exactly at 10 percent, rounded down |
| HashMaps.Create | src/librip/utils/hashmap.c:104-162 | gives nothing exactly if memory is refused, and otherwise a new map that is empty, sound and of the rounded size |
| HashMaps.HashMap.FreeSlot | src/librip/utils/hashmap.c:332-342 | every valid map has a free slot for its probe loops to end at |
| HashMaps.HashMap.HashAgrees | src/librip/utils/hashmap.c:335-337 | a stored bucket carries its key's hash, so comparing hashes first loses no match |
| HashMaps.HashMap.ProbeBound | src/librip/utils/hashmap.c:31-34 | in every valid map the distance is at most the count, which is below the bucket count |
| HashMaps.HashMap.Get | src/librip/utils/hashmap.c:327-349 | returns the item of the key if there is one and nothing otherwise |
| HashMaps.HashMap.Resize | src/librip/utils/hashmap.c:226-261 | contents are unchanged; a granted resize has the new size, a refused one changes nothing |
| HashMaps.MoveAll | src/librip/utils/hashmap.c:231-252 | every old item is rehashed exactly once although displaced items are parked in old slots |
| HashMaps.MoveBucket | src/librip/utils/hashmap.c:232-251 | one old bucket is added to the new table and no other old slot is touched |
| HashMaps.HashMap.Set | src/librip/utils/hashmap.c:270-322 | answers the previous item and binds the key, unless a needed growth is refused, which changes nothing but the oom flag |
| HashMaps.InsertStores | src/librip/utils/hashmap.c:292-308 | where an entry is stored, its key is nowhere else in the table |
| HashMaps.InsertReplaces | src/librip/utils/hashmap.c:298-304 | a match is always the key being inserted, never a displaced entry, and only its value changes |
| HashMaps.InsertPasses | src/librip/utils/hashmap.c:311-312 | a bucket that neither matches nor yields is passed with all insertion facts kept |
| HashMaps.InsertEnds | src/librip/utils/hashmap.c:292-296 | where the loop stores into a free slot the key was not in the map, and the table now holds it |
| HashMaps.InsertDisplaces | src/librip/utils/hashmap.c:305-312 | a displacement keeps the insertion going with the displaced bucket in hand |
| HashMaps.Insert | src/librip/utils/hashmap.c:282-313 | the loop ends with a sound table holding the old map with the key rebound, and answers the old item |
| HashMaps.HashMap.Delete | src/librip/utils/hashmap.c:366-411 | answers the deleted item, removes exactly that key, and gives the same answer whether or not it shrinks |
| HashMaps.Remove | src/librip/utils/hashmap.c:371-404 | finds and removes exactly the key; an absent key leaves the buckets as they are |
| HashMaps.CloseGap | src/librip/utils/hashmap.c:382-393 | the backward-shift loop restores a sound table with the same remaining items |
| HashMaps.HashMap.Count | src/librip/utils/hashmap.c:414-416 | the count is the number of keys |
| HashMaps.HashMap.Iter | src/librip/utils/hashmap.c:467-476 | each step yields a stored item not yielded before, and the end is reported when all have been |
| HashMaps.HashMap.Write | src/librip/utils/hashmap.c:449-457 | writing through a yielded reference rebinds that key and disturbs neither table nor iteration |
| HashMapRuns.Perform | src/librip/utils/hashmap.c:270-411 | one operation answers and changes the map as the finite-map model says, refusals included |
| HashMapRuns.Replay | src/librip/utils/hashmap.c:270-411 | for every requested capacity and every sequence of set, get and delete every answer and the count are those of a finite map |
| Wire.Swap32Twice | src/librip/rip_common.c:32-44 | converting byte order twice gives the value back |
| Wire.SwapBytes | src/librip/rip_common.c:32-44 | converting a 32-bit value reverses its four bytes |
| Wire.SwapTwoBytes | src/librip/rip_common.c:32-44 | converting a 16-bit value exchanges its two bytes |
| Wire.EntryRoundTrip | src/librip/rip_common.c:32-44 | an entry survives conversion to host order and back; family, tag and metric are converted and the addresses are not |
| Wire.ValidMasks | src/librip/rip_common.c:101-114 | the mask check accepts exactly the masks of prefix lengths 1 to 31 |
| Wire.PrefixLenRoundTrip | src/librip/rip_common.c:12-17 | a prefix length from 1 to 31 survives the trip to a mask and back |
| Wire.PrefixLenInjective | src/librip/rip_common.c:12-17 | two valid masks of one prefix length are equal |
| Wire.NetworkPart | src/librip/rip.c:296-296 | the multiple of 2^(32-p) that lies less than 2^(32-p) below the address |
| Routes.MetricOrder | src/librip/rip_recv.c:60-60 | comparing stored network-order metrics compares the metrics |
| Routes.KernelKeyInjective | src/librip/rip_route.c:194-221 | the kernel key of a learned route determines the route and does not depend on its metric |
| RouterSpec.InitialKeys | src/librip/rip.c:272-319 | the initial table holds exactly the configured networks, as changed local routes |
| RouterSpec.VisitTable | src/librip/rip.c:137-145 | a visit of the sweep changes no other route, and the visited one leaves the ok table exactly at its limit |
| RouterSpec.VisitOne | src/librip/rip.c:132-147 | a schedule of visits grows by one, and starts over exactly after an expiry |
| RouterSpec.GcLeavesOk | src/librip/rip_db.c:146-160 | with disjoint tables the ok-first removal never touches the ok table during garbage collection |
| RipDbs.Init | src/librip/rip_db.c:58-82 | gives nothing exactly if memory is refused for the database or a table, and otherwise an empty database with no change pending |
| RipDbs.RipDb.Add | src/librip/rip_db.c:98-121 | the route is filed as changed and the change is signalled, unless one was there already, which is an error and signals nothing; refused memory is an error and changes nothing |
| RipDbs.RipDb.Get | src/librip/rip_db.c:123-144 | looks the key up in the table asked for, the ok table first when both |
| RipDbs.RipDb.Remove | src/librip/rip_db.c:146-160 | removes from the ok table if the key is there and from the garbage table otherwise |
| RipDbs.RipDb.MoveToGarbage | src/librip/rip_db.c:162-180 | the route changes tables and a pending change is signalled; a missing route and a duplicate are errors, refused memory loses the route without one |
| RipDbs.RipDb.IterAll | src/librip/rip_db.c:221-236 | yields every ok route and then every garbage route, each exactly once |
| RipDbs.RipDb.WriteAt | src/librip/rip_db.c:238-251 | writing through the yielded reference changes that route only and does not disturb the iteration |
| RipDbs.RipDb.RewriteAll | src/librip/rip_update.c:204-209 | walking over both tables rewrites every route exactly once |
| RipDbs.RipDb.Count | src/librip/rip_db.c:259-271 | the number of routes in the table asked for |
| RipDbs.RipDb.MarkAllRoutesAsUnchanged | src/librip/rip_db.c:275-288 | clears every change bit and the flag, if the flag is set |
| Kernels.Kernel.Add | src/librip/rip_route.c:256-273 | succeeds exactly if the key is absent and the kernel grants it, and otherwise changes nothing |
| Kernels.Kernel.Delete | src/librip/rip_route.c:275-292 | succeeds exactly if the key is present, and removes it |
| RipRecv.HandleNonExistingRoute | src/librip/rip_recv.c:37-50 | kernel first, then database; a refusal changes nothing |
| RipRecv.HandleOkRouteUpdate | src/librip/rip_recv.c:52-70 | only a strictly better metric withdraws the old route and installs the new one |
| RipRecv.HandleEntry | src/librip/rip_recv.c:82-109 | an invalid entry changes nothing; a valid one is charged a hop and filed under sender and interface |
| RipRecv.HandleResponse | src/librip/rip_recv.c:111-124 | entries are processed in order, and the result is zero exactly if all could be dealt with |
| RipUpdate.FillBuffer | src/librip/rip_update.c:61-90 | the message holds every selected route of both tables exactly once, next hop zeroed, and nothing else, whatever the layout and the old buffer contents |
| RipUpdate.SendResponse | src/librip/rip_update.c:92-100 | one exact advertisement for the interface; an empty one cannot fail |
| RipUpdate.SendMulticast | src/librip/rip_update.c:102-126 | one exact advertisement per interface, then no route is marked changed; it fails exactly if some non-empty message could not be sent |
| RipUpdate.SendRequestMulticast | src/librip/rip_update.c:128-150 | every interface is sent one entry of family 0 and metric 16, which a receiver recognises as a request for the whole table; it fails exactly if some send does |
| RipUpdate.InitialRequests | src/librip/rip_update.c:152-156 | exactly the requests with one entry, of family 0 and metric 16 or more, are for the whole table |
| RipUpdate.SendUnicast | src/librip/rip_update.c:152-200 | answers exactly the requests for the whole table, with an exact advertisement |
| RipUpdate.SendShutdown | src/librip/rip_update.c:202-213 | everything is advertised with metric 16 |
| Rip.EntriesCount | src/librip/rip_recv.c:146-149 | the number of whole entries of 20 bytes after a header of 4, at most 500 in a datagram that fits the buffer |
| Rip.Router.constructor | src/librip/rip.c:376-384 | a router on a new database has empty tables, no kernel routes and no timer ticking |
| Rip.Router.AddAdvertisedNetwork | src/librip/rip.c:272-308 | files the masked network as a local route of metric 1; fails for a bad prefix or a repeated network |
| Rip.ConfigureOneMore | src/librip/rip.c:312-317 | one more network is fine exactly if its prefix is good and it is new |
| Rip.Router.Begin | src/librip/rip.c:310-352 | start succeeds exactly for distinct networks with good prefixes, and then gives the initial state |
| Rip.Router.RouteTimeoutExpired | src/librip/rip.c:92-118 | the route leaves the kernel and becomes garbage of metric 16; it is dropped instead if the kernel did not have it |
| Rip.Router.AgeRoute | src/librip/rip.c:137-142 | one visit of the sweep, with its error cases: a tick, and the expiry exactly when the counter reaches 180 |
| Rip.Router.Sweep | src/librip/rip.c:132-147 | the restarting iteration terminates and its state is exactly that of the visits it made, a complete schedule unless it stops at a route the kernel lacks or garbage already has; if tables and kernel agree it never stops |
| Rip.Router.TimeoutExpired | src/librip/rip.c:120-161 | tables and kernel are those of the visits made; a completed sweep leaves locals untouched, survivors below 180 and counted between once and once plus the number expired, expired routes in garbage and out of the kernel; one that stops early leaves its timer stopped |
| Rip.Router.CollectGarbage | src/librip/rip.c:177-184 | the restarting iteration terminates and equals a filter by age; a stale key that is in both tables leaves both |
| Rip.Router.GcExpired | src/librip/rip.c:163-191 | the garbage timer keeps ticking exactly while garbage is left |
| Rip.Router.UpdateExpired | src/librip/rip.c:50-68 | the full table goes to every interface; the timer is restarted only if all could be sent |
| Rip.Router.RequestWarmupExpired | src/librip/rip.c:70-79 | the neighbours are asked for their tables once, and nothing else changes |
| Rip.Router.CheckRouteChanged | src/librip/rip.c:193-216 | sends the changed routes exactly if a change is pending and the lock is open, and then locks; it fails exactly if some non-empty message could not be sent |
| Rip.Router.TriggeredLockExpired | src/librip/rip.c:81-90 | opens the lock and changes nothing else |
| Rip.Router.ClearRoutingTable | src/librip/rip.c:409-426 | takes exactly the keys of the learned ok routes out of the kernel |
| Rip.Router.Cleanup | src/librip/rip.c:428-434 | the shutdown advertisement is sent and the kernel cleared |
| Rip.Router.HandleMessage | src/librip/rip_recv.c:163-188 | a response updates the state by its whole entries; a request for the whole table is answered exactly if a socket can be had; anything else is an error and does nothing |
| Rip.SweepExpires | src/librip/rip.c:138-145 | one expiry in a sweep: the counts of all other routes carry over to the restarted iteration |
| Rip.SweepAgreed | src/librip/rip.c:99-106 | if tables and kernel agreed when the sweep began, a route about to expire is in the kernel and not in garbage |
| Rip.SweepVisits | src/librip/rip.c:132-147 | a visit continues the sweep, or restarts it with one more route expired, or stops it; with tables and kernel in agreement it does not stop |
| Rip.FilterSteps | src/librip/rip.c:179-184 | one step of garbage collection, with the ok-first removal and the restart |
| Daemon.Dispatch | src/librip/utils/event_dispatcher.c:114-132 | every event handled by the daemon is the step that belongs to it, with exactly the messages of that step, and keeps the invariant; an exit leaves the kernel empty |
| Daemon.Start | src/librip/rip.c:354-407 | a start succeeds exactly for a usable configuration and begins a run |
| Daemon.Callback | src/librip/utils/event_dispatcher.c:114-132 | a callback extends the run by its own event, state and messages, and the daemon stays in its loop |
| Daemon.EndBatch | src/librip/rip.c:255-270 | the check extends the run and the loop goes on if nothing is due or all can be sent; if the check fails the loop is left and a shutdown follows at once, which leaves the kernel empty |
| Daemon.Stop | src/librip/rip.c:428-434 | cleaning up extends the run by a shutdown and leaves the kernel empty |
| RouterInvariant.KernelKeyFree | src/librip/rip_recv.c:41-43 | under the invariant a route that is not a learned ok route has no kernel key in use |
| RouterInvariant.KernelKeysWithout | src/librip/rip.c:99-99 | taking routes out takes exactly their keys out |
| RouterRuns.LocalNotDisplaced | src/librip/rip_recv.c:60-66 | a received route never beats a local one |
| RouterRuns.InstallKeepsInv | src/librip/rip_recv.c:37-50 | installing an absent route keeps the invariant and succeeds whenever the kernel grants it |
| RouterRuns.DropGarbageKeepsInv | src/librip/rip_recv.c:103-106 | dropping a garbage route by the ok-first removal leaves the ok table alone |
| RouterRuns.WithdrawKeepsInv | src/librip/rip_recv.c:62-65 | a learned ok route is in the kernel and not in garbage, and withdrawing it keeps the invariant |
| RouterRuns.ReceiveResponseKeepsInv | src/librip/rip_recv.c:111-124 | any response, with any refusals, keeps the invariant |
| RouterRuns.SweepKeepsInv | src/librip/rip.c:120-161 | a sweep keeps kernel agreement, disjoint tables and the ticking garbage timer |
| RouterRuns.GcKeepsInv | src/librip/rip.c:163-191 | garbage collection keeps the invariant and leaves the ok table alone |
| RouterRuns.MarkKeepsInv | src/librip/rip_db.c:275-288 | after any multicast advertisement no route is marked changed, and the invariant is kept |
| RouterRuns.InitialInv | src/librip/rip.c:386-399 | the invariant holds after every successful start |
| RouterRuns.CleanupEmptiesKernel | src/librip/rip.c:428-434 | shutdown withdraws all kernel routes although all metrics have been rewritten to 16 before |
| RouterRuns.StepKeepsInv | src/librip/rip.c:255-270 | every event short of shutdown keeps the invariant |
| RouterRuns.ReachableInv | src/librip/rip.c:255-270 | in every state of every run the kernel holds exactly the learned ok routes, the tables are disjoint and well formed, changes are signalled and garbage is being collected |
| RouterRuns.ShutdownLeavesNothing | src/librip/rip.c:409-434 | after a shutdown the kernel holds none of the daemon's routes |
| RouterRuns.ExtendRun | src/librip/rip.c:255-270 | a run of a daemon still in its loop, extended by a step, is a run |
| RouterTheorems.LockBetweenTriggers | src/librip/rip.c:193-216 | between any two triggered updates of a run the lock has expired |
| RouterTheorems.PendingWaitsForLock | src/librip/rip.c:255-267 | after a check that did not end the daemon a pending change implies the lock is ticking |
| RouterTheorems.EntryUpdatesOne | src/librip/rip_recv.c:82-109 | what a valid entry does to its route: nothing unless it is cheaper or new, and then the route is the entry's exactly if the kernel grants it |
| RouterTheorems.EntryKeepsOthers | src/librip/rip_recv.c:82-109 | an entry changes no route but its own |
| RouterTheorems.ResponseKeepsLocal | src/librip/rip_recv.c:97-108 | no response changes a local route |
| RouterTheorems.ResponseMinimum | src/librip/rip_recv.c:60-66 | a granted response keeps every metric the least of the costs offered |
| RouterTheorems.MetricIsLeastOffered | src/librip/rip_recv.c:52-109 | in every run, while a key stays in the ok table and the kernel refuses none of its offers, its metric is the least cost offered since it was filed |
| RouterTheorems.ResponseProgress | src/librip/rip_recv.c:60-69 | a response only replaces a route by one with fewer hops, which pays for the restarted counter |
| RouterTheorems.RouteLifetime | src/librip/rip.c:132-147 | a route that does not leave the ok table, not even between two entries of a response, sees at most eleven sweeps with the same metric, and at most 165 with any number of improvements |
| RouterTheorems.ResponseIgnoresDearer | src/librip/rip_recv.c:60-69 | a response with no cheaper offer leaves a route exactly as it is, whatever the kernel would grant |
| RouterTheorems.UnchallengedLifetime | src/librip/rip.c:132-147 | while it is offered nothing cheaper a learned route keeps its metric and leaves the ok table no later than at its twelfth sweep, whatever the kernel grants |
| RouterTheorems.EarlyExpiry | src/librip/rip.c:138-145 | with one route a tick short of its limit and another two, an iteration that meets the second first expires both in one sweep |
| RouterTheorems.AdvertHolds | src/librip/rip_update.c:67-87 | every selected route is in the advertisement |
| RouterTheorems.MulticastAnnounces | src/librip/rip_update.c:119-122 | a multicast announces a route on every interface but its own |
| RouterTheorems.NoLostChange | src/librip/rip_update.c:119-124 | a change bit is cleared only by a step that announces the route on every interface but its own; a changed route disappears only by age or when the kernel refuses one of its own offers |
| RouterTheorems.SweepConserves | src/librip/rip.c:132-147 | a sweep loses no route from the two tables together |
| RouterTheorems.SweepExpiresIff | src/librip/rip.c:132-147 | a sweep expires something exactly when a learned route is one tick short, and otherwise ages every learned route by exactly one tick |
| Schedules.CompletedIsSweep | src/librip/rip.c:132-147 | every complete schedule of visits is a sweep as the contract describes it, whatever the table layout |
| Schedules.Complete | src/librip/rip.c:132-147 | every schedule can be completed |
| Schedules.UnlikeIfMixed | src/librip/rip.c:138-145 | with one route at its limit and another below, some iteration order counts the other twice or expires it early |
| Schedules.SweepsTreatAlike | src/librip/rip.c:132-147 | sweeps count every learned route once and expire only those at their limit, whatever the layout, exactly if no learned route is at its limit or all are |
| Reception.AcceptsExactly | src/librip/rip_recv.c:25-35 | an entry is valid exactly if its address is from 1.0.0.0 to 126.255.255.255 or from 128.0.0.0 to 223.255.255.255, its mask has a prefix length from 1 to 31 and its metric is from 1 to 16 |
| Reception.EntryEffect | src/librip/rip_recv.c:82-109 | the whole effect of an entry in fields: nothing unless it is acceptable and new or cheaper; then the route is the entry's at one hop more, at most 16, if granted, and is lost if refused |
| Announcements.SentExactly | src/librip/rip_update.c:61-126 | every message of every run holds exactly the routes of both tables that belong to another interface, each once: only changed ones in a triggered update, all at 16 hops on shutdown; next hop 0, family and tag as stored |
| Announcements.SentTo | src/librip/rip_update.c:119-122 | which interfaces are sent something on which event |
| Announcements.SplitHorizon | src/librip/rip_update.c:77-86 | no entry of any message of a run was learned on the interface it goes to |
| Announcements.ShutdownWithdraws | src/librip/rip_update.c:202-213 | on shutdown every route goes to every other interface at 16 hops, and nothing else is sent |
| Lifetimes.StartsConfigured | src/librip/rip.c:272-319 | a run starts with exactly the configured networks, in fields: masked address, mask, one hop, changed; nothing is in the kernel or in garbage |
| Lifetimes.KernelHolds | src/librip/rip_route.c:194-221 | in every state of every run the kernel holds exactly the learned ok routes, each to its own network and prefix length by its own neighbour and interface at priority 20 |
| Lifetimes.TimerStep | src/librip/rip.c:50-216 | what each event does to each of the five timers |
| Lifetimes.TimersTick | src/librip/rip.c:50-68 | in every state of every run the periodic timer ticks exactly if no update has failed, the warm-up timer exactly until it goes off, and the timeout timer always |
| Lifetimes.LockedExactly | src/librip/rip.c:193-216 | triggered updates are locked exactly while one has been sent and the lock has not expired since |
| Lifetimes.QuietStep | src/librip/rip_db.c:275-288 | events that neither receive, age nor end leave every route as it is but for the change marks, which an update to all interfaces clears |
| Lifetimes.CollectionStep | src/librip/rip.c:163-191 | a collection drops exactly what has been garbage for 120 seconds |
| Lifetimes.SweepStep | src/librip/rip.c:92-161 | the whole effect of a sweep in fields: survivors older by a multiple of 15 and below 180, the others garbage at 16 hops since now; it expires something exactly if a learned route is at 165 |
| Lifetimes.ShutdownStep | src/librip/rip.c:428-434 | shutdown leaves every route in its table at 16 hops and nothing in the kernel |
| Lifetimes.GarbageFor120 | src/librip/rip.c:108-184 | in every run an expired route that is not offered again is garbage exactly until the first collection 120 seconds or more after its sweep |
| Lifetimes.GarbageOrigin | src/librip/rip.c:108-118 | whatever is garbage in a run was put there by a sweep, and no collection since came 120 seconds after it |
| Lifetimes.RouteSurvives | src/librip/rip.c:132-147 | in every run a learned route that is offered nothing cheaper keeps its metric and stays as long as its age and 15 seconds for every possible count come to less than 180 |
| Lifetimes.PendingExactly | src/librip/rip_db.c:98-121 | a change is pending exactly if something was configured, filed or expired since the last announcement to all interfaces |
| Networks.SupportedNext | src/librip/rip_recv.c:94-94 | a supported metric charged one hop is supported one link further |
| Networks.ResponseSupported | src/librip/rip_recv.c:111-124 | receiving supported entries over a link keeps all metrics supported |
| Networks.AdvertSupported | src/librip/rip_update.c:61-90 | an advertisement of supported routes is supported |
| Networks.SweepSupported | src/librip/rip.c:108-118 | expiry keeps metrics supported |
| Networks.LocalSupported | src/librip/rip.c:50-216 | every other event keeps stored metrics supported and sends supported ones |
| Networks.NetStepKeepsInv | src/librip/rip.c:255-270 | every step of the network keeps the network invariant |
| Networks.ReachableNetInv | src/librip/rip.c:255-270 | the network invariant holds in every state of every run with loss, duplication, reordering, timeouts and shutdowns |
| Networks.StoredMetricsSound | src/librip/rip_recv.c:82-109 | every stored metric is at least min(16, 1 + hop distance to the nearest router that configured the destination), and such a router is connected |
| Networks.SentMetricsSound | src/librip/rip_update.c:61-90 | the same for every entry of every packet |
| Convergence.ResponseOnlyImproves | src/librip/rip_recv.c:111-124 | a response granted where it offers a route keeps that route at most as costly and files every valid offer at most at its cost, whatever becomes of other entries |
| Convergence.CalmRunKeeps | src/librip/rip_recv.c:52-70 | without a timeout or shutdown at its router and without a refused offer, an ok route stays and never gets worse, whatever happens elsewhere |
| Convergence.LocalsHeld | src/librip/rip_recv.c:97-108 | in every state of every network run a router that is up holds its configured networks at metric 1 |
| Convergence.OneHop | src/librip/rip_update.c:67-87 | a route advertised over a link is held one hop further when the advertisement arrives and is granted, if it was not learned on that interface |
| Convergence.ConvergenceBound | src/librip/rip_update.c:102-126 | starting anywhere in any run, after k rounds in which the links of an alternating path carry an advertisement in turn, the router k hops away has an ok route of metric at most min(16, 1 + k); calm is asked only of each hop's router, for that route, from its round to the end of the next |
| Convergence.ShortestPathAlternates | src/librip/rip_update.c:77-86 | on shared media a shortest path never leaves on the interface it came in on, so split horizon does not block it |
| Convergence.ShortestPathMetric | src/librip/rip_recv.c:82-109 | under the same hypotheses, on a shortest path over shared media, the metric is exactly min(16, 1 + distance) |
| TwoRouters.NeighbourLearns | src/librip/rip_update.c:102-126 | a concrete two-router run meets every hypothesis of the convergence theorems, and the neighbour has the network at metric 2 after one round |

## Left out

- The hash functions themselves (SipHash, Murmur, xxHash) and the test and benchmark half of the hash map file: any hash is allowed.
- `hashmap_clear`, `hashmap_scan`, `hashmap_probe`, `hashmap_set_load_factor` and `hashmap_set_grow_by_power`: the daemon does not use them.
- The 48-bit and 16-bit widths of the bucket fields: distances are bounded by the count instead, so a 16-bit field is exact up to 65535 items.
- Masking a configured address is written as clearing its low bits in host order; name lookups and address parsing are not modelled.
- Sockets, polling, the command-line client, its socket, logging, printing and YAML parsing: input and output without a hard property.
- Timer durations: any delay is allowed, so the steps may come in any order their timers permit; a timer that cannot be set is not modelled.
- Out of memory above the database: the hash map and the database take refusals as parameters, the daemon always passes granted memory.
- More than 500 selected routes, datagrams shorter than a header and prefix length 0: the program's behaviour is undefined there, and the methods require otherwise.
- Requests on their way between routers: a router in the network model may answer at any time, which covers answers to requests and more.
- The order in which a given hash makes the sweep visit routes: visits are a schedule, and the results hold for every schedule.
- A signal in the middle of a callback: shutdown happens between events.
- A router that has shut down does not come back in the network model.
