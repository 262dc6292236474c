# Verification of the console-node control plane

A console-node pod watches the serial consoles of a share of the nodes of a
system.  It asks console-data for nodes, gives some back when it holds more than
its share, configures and restarts `conmand`, follows the console logs into an
aggregation log, has the logs rotated, and hands everything back on shutdown.  All
of this is done by several long-running threads on one set of global variables.

This project models that control plane in Dafny and proves what it keeps, over every
interleaving of those threads.  `dafny verify dfyconfig.toml` checks everything.

## How the model is built

* **Values.**  `Nodes` has the three node pools and what is done to them; `Balance` the
  balancing controller on node counts; `Tails` the registry of log watchers;
  `Credentials` the reading and comparing of BMC credentials.  `PodSpec` puts these
  together into one value, `Pod`, the state shared by the threads, and says for each
  locked section of the service what it may do to that value: `Round`,
  `AfterHeartbeat`, `Configured`, `ReleasedAll`.
* **The service.**  Class `ConsolePod.ConsolePod` has the globals of the service as its
  fields and its functions as methods, with the same loops and branches.  Each method
  is proved against the relation in `PodSpec`.  What the outside answers -- service
  replies, vault contents, file contents -- is passed in as a parameter.
* **The threads.**  `ControlPlane` is a transition system whose steps are exactly these
  relations, plus the moments that are not under the lock: the check of `inShutdown`,
  the start, exit and collection of the conman process, and the monitor's signal, which
  it sends some time after its check.  A run is any interleaving of such steps.
* **The theorems.**  `Sections` says what the locked sections do in terms of their inputs
  alone: the nodes and replies that come in, the lines written, plain arithmetic on
  counts.  `Freshness`, `Ledger`, `Convergence`, `Shutdown` and `CredentialLoop` are about
  runs, and `Scenarios` builds runs from start-up for what can go wrong.  `Text`,
  `LogRotation` and `RotationReader` are about the reader of the log rotation state file,
  and stand on their own.

The assumptions on console-data are stated where they are needed and nowhere else:
`HonestStep` (acquired nodes are all different and not held here) for the partition and
the bookkeeping, and `Honest` (in addition, no more of either kind than asked for) for
the counts.  Freshness, watchers, rotation coverage, shutdown and credentials need none.

## What does not hold

Each of these is proved.

* *River nodes can bounce.*  The comment at `src/console_node/nodes.go:186` says that the
  gap above the share avoids bouncing.  For River nodes it does not, because a zero delta
  is raised to one: a pool that took a node is made to give nodes back in the next round
  if and only if it was at the top of its band (`Convergence.RiverBouncesAtBandTop`), and
  for every share there is such a run (`Scenarios.RiverBounces`).
* *Paradise nodes are not part of the Mountain count when the delta is computed*
  (`src/console_node/nodes.go:160`), although the comment at
  `src/console_node/nodes.go:230` says so and the release counts both
  (`src/console_node/nodes.go:321`).  Mountain and Paradise nodes together need not
  converge.  Their sum can grow if and only if the Mountain count is below its share
  (`Scenarios.TotalCanGrowIffBelowShare`), and then without bound: given only Paradise
  nodes, a pod takes a full request in every round (`Scenarios.ParadiseGrowsWithoutBound`).
  With its share of Mountain nodes it never does (`Convergence.TotalNeverGrows`).
* *A SIGTERM can be lost* between the end of a configuration pass and the start of the
  process.  Conman then runs, unsignalled, on a stale configuration exactly if the held
  names have changed by its start (`Freshness.StaleExactlyIfChangedBeforeStart`,
  `Scenarios.LostTermLeavesStaleConfig`).
* *Nodes can be held again after shutdown has given all of them back*, by one round that
  had already passed the check of `inShutdown` (`Shutdown.LateRoundTakesAll`,
  `Scenarios.LateRoundRefills`).
* *Restarts for ever.*  If the base configuration file forbids updates, one credential
  change makes the monitor restart conman again and again, until a pass writes the file
  (`CredentialLoop.RestartLoopsIffNotWritten`, `Scenarios.EndlessRestarts`).
* *The state file reader slices out of range* on a line that ends right after the name of
  the aggregation file and names no console (`RotationReader.ReadCrashesExactly`,
  `RotationReader.BareNameCrashes`).  logrotate does not write such lines.
* *Reading the same state file twice* reports a change the second time if and only if the
  file gives two different times for one name (`RotationReader.RereadIsQuiet`).

Where a comment and the code differ, the model follows the code.  One more such place:
the comment at `src/console_node/logRotation.go:228` gives the time of day with dashes,
while the code at `src/console_node/logRotation.go:274` wants colons.

## Model

| member | source | states |
|---|---|---|
| ConsolePod.ConsolePod.DoGetNewNodes | src/console_node/nodes.go:212-274 | the locked body is a `Round`: arrivals taken in by class, River shrunk by its delta, Mountain and Paradise cut fairly, every removed node's watcher cancelled, one release message with exactly the removed nodes, SIGTERM and a rewritten rotation listing iff anything changed; all else untouched |
| ConsolePod.ConsolePod.CalcChangeInNodes | src/console_node/nodes.go:142-203 | backup targets are overwritten only by non-negative file values; the delta is exactly the band rule on the two pools' sizes or, if a query failed, the pinned distance to the targets |
| ConsolePod.ConsolePod.AskForNodes | src/console_node/nodes.go:218-235 | the zero River delta is raised to one, the request is pinned to the limits, and nodes arrive only if some were asked for |
| ConsolePod.ConsolePod.TakeIn | src/console_node/nodes.go:242-256 | each node goes to the pool of its class under its own name, unknown classes are passed over, and changed iff any was of known class |
| ConsolePod.ConsolePod.TakeInAndRebalance | src/console_node/nodes.go:234-263 | arrivals first, then removals from what is there after them; changed iff a known node came in or a node left |
| ConsolePod.ConsolePod.ExchangeNodes | src/console_node/nodes.go:234-272 | the exchange together with the signal to conman and the rewritten rotation listing, both iff anything changed |
| ConsolePod.ConsolePod.Reconfigure | src/console_node/nodes.go:266-272 | SIGTERM and rewriting happen together, and only on a change |
| ConsolePod.ConsolePod.RebalanceNodes | src/console_node/nodes.go:289-361 | final sizes of all three pools, removals and cancelled watchers match one to one, and the release list is sent iff it is not empty |
| ConsolePod.ConsolePod.RebalanceRvr | src/console_node/nodes.go:303-316 | River ends at its size plus the negative delta, or empty; the list of removed nodes is what left |
| ConsolePod.ConsolePod.RebalanceMtn | src/console_node/nodes.go:320-348 | the two-pool loop ends in a fair cut of the wanted size, whichever nodes the map iteration picks |
| ConsolePod.ConsolePod.ReleaseFromLarger | src/console_node/nodes.go:324-346 | one node leaves the larger pool, Paradise on a tie, and the other pool stays |
| ConsolePod.ConsolePod.ReleaseNode | src/console_node/nodes.go:364-385 | the name leaves the first pool that has it, its watcher is cancelled in any case, found iff it was held |
| ConsolePod.ConsolePod.DropNodes | src/console_node/data.go:193-195 | any list of names is dropped one by one, watchers included |
| ConsolePod.ConsolePod.ReportAndDrop | src/console_node/data.go:143-199 | the payload lists what was held before the reply is processed; conman is signalled iff the reply names anything |
| ConsolePod.ConsolePod.SendSingleHeartbeat | src/console_node/data.go:135-201 | one heartbeat as a change of the whole shared state; the rotation listing and the configuration stay as they are |
| ConsolePod.ConsolePod.AllNodes | src/console_node/data.go:147-160 | one pass over the three pools lists every entry, each as held |
| ConsolePod.ConsolePod.ConfigConman | src/console_node/conman.go:48-75 | a configuration pass: watchers started for all held nodes, file and recorded credentials written or both left alone; true iff there is a node to watch |
| ConsolePod.ConsolePod.UpdateConfigFile | src/console_node/conman.go:241-363 | if written, one entry per held node, of its class's kind, with the credentials just recorded, River before Paradise before Mountain; if skipped, file and record stay |
| ConsolePod.ConsolePod.RecordPasswords | src/console_node/conman.go:275-289 | the record is the vault's content at the deciding try, for exactly the BMCs of River and Paradise nodes |
| ConsolePod.ConsolePod.AggregateAll | src/console_node/conman.go:58-65 | every held node is followed afterwards, and none twice |
| ConsolePod.ConsolePod.AggregateFile | src/console_node/logAggregation.go:56-71 | a watcher is started iff the node has none |
| ConsolePod.ConsolePod.StopTailing | src/console_node/logAggregation.go:100-111 | the node's watcher is cancelled and forgotten, if there is one |
| ConsolePod.ConsolePod.SignalConmanTERM | src/console_node/conman.go:138-148 | the signal reaches a living process and is lost otherwise |
| ConsolePod.ConsolePod.CheckIfRiverPasswordsChanged | src/console_node/monitor.go:118-151 | true iff a record exists and some held River or Paradise BMC in the vault differs from it, a missing record counting as empty credentials |
| ConsolePod.ConsolePod.UpdateLogRotateConf | src/console_node/logRotation.go:196-204 | one entry per held node |
| ConsolePod.ConsolePod.ReleaseAllNodes | src/console_node/consoleNodeMain.go:231-258 | every held node is listed in one release message, its watcher cancelled, and all pools are empty |
| ConsolePod.ConsolePod.constructor | src/console_node/consoleNodeMain.go:130-131 | the initial state; limits from the environment are forced into 5..2000 and 5..4000, so never negative |
| Credentials.GetPasswordsWithRetries | src/console_node/creds.go:55-89 | the answer is that of the first try finding every BMC, else of the last try; complete iff some try finds all |
| Credentials.AnyDiffers | src/console_node/monitor.go:138-150 | finds a differing BMC iff there is one; BMCs missing from the vault are passed over |
| Credentials.NoChangeSinceRecorded | src/console_node/monitor.go:118-151 | with unchanged answers for the recorded BMCs and no new BMC, no change is seen |
| Credentials.LateCredentialsAreNoticed | src/console_node/monitor.go:144-145 | a BMC whose first credentials appear after the recording is noticed |
| Balance.FallbackIsSafe | src/console_node/nodes.go:195-200 | if a query fails, both deltas are within 0 and the limits for any targets, negative ones included |
| Sections.FallbackAsksExactly | src/console_node/nodes.go:195-200 | what a round asks for when a query fails, in plain numbers: the distance from the held count to the file's target, or to the one in force if the file gives none, forced into 1..limit for River and 0..limit for Mountain |
| Sections.TargetsAfterRound | src/console_node/nodes.go:443-449 | after a round the backup targets are the file's where it gives any, else as before |
| Sections.IdealIsShare | src/console_node/nodes.go:180-182 | the share is the least number above the quotient of nodes and pods, no pods counting as one, and for negative totals one more than the truncated quotient |
| Sections.AnsweredAsksExactly | src/console_node/nodes.go:184-232 | what a round asks for when both services answer, in plain numbers: up to the share or the limit when short of it, one River node inside its band, else none |
| Sections.ReleasesExactly | src/console_node/nodes.go:289-348 | how many nodes each pool has after a round in which both services answer, from the counts before, what came in and the shares: only what is over the share goes, and only from more than a tenth over; of the Mountain and Paradise nodes left, Mountain is half, rounded up, as far as the pools allow |
| Sections.NothingAskedNothingTaken | src/console_node/nodes.go:234-236 | a round that asks for nothing takes nothing in, whatever is offered |
| Sections.AskedAndTaken | src/console_node/nodes.go:236-256 | a round that asks and gives nothing back holds what it held, each arrival in its pool, and nothing else |
| Sections.IdleRoundChangesNothing | src/console_node/nodes.go:260-272 | a round that takes in no node of known class and sends no message leaves conman, the rotation listing, the pools and the watchers alone |
| Sections.BusyRoundReconfigures | src/console_node/nodes.go:266-272 | any other signals a living conman and leaves a rotation listing of what is now held |
| Balance.IdealIsPositive | src/console_node/nodes.go:180-182 | the share is at least one iff the total is above minus the number of pods, so for every total that is not negative |
| Balance.NextCutIsFair | src/console_node/nodes.go:322-332 | one turn of the two-pool loop keeps the cut fair, and it stalls only with both pools empty |
| Balance.FairCutIsUnique | src/console_node/nodes.go:320-348 | how many are left in each pool is determined by how many are left in all |
| Balance.FairCutClosedForm | src/console_node/nodes.go:320-348 | closed form of the greedy loop: half each, rounded towards Mountain, as far as the pools allow |
| Balance.FairCutIsOptimal | src/console_node/nodes.go:323-327 | no other removal of the same size leaves a smaller larger-pool |
| Balance.StopsEarlyOnlyWhenEmpty | src/console_node/nodes.go:329-332 | the empty-pool break leaves more than wanted iff less than none was wanted, and then nothing is left |
| Balance.MtnRoundFromAbove | src/console_node/nodes.go:190-194 | from above the band a round takes away more than a tenth of the share, keeps Mountain at or above its share, and in the band Paradise does not outnumber it |
| Balance.MtnRoundFromBelow | src/console_node/nodes.go:190-194 | from below, the Mountain count does not overshoot its share |
| Balance.OnlyMountainCountReleases | src/console_node/nodes.go:160 | nodes of the Mountain side are released iff the Mountain pool alone is over its band, however many Paradise nodes there are |
| Convergence.TotalNeverGrows | src/console_node/nodes.go:184-194 | a pod with its share of Mountain nodes keeps it, and its Mountain and Paradise nodes together never exceed what they were, in every later state |
| Scenarios.TotalCanGrowIffBelowShare | src/console_node/nodes.go:160 | from any partitioned state with a round to come and one Paradise node to be had, some run takes Mountain plus Paradise above what they are iff the Mountain count is below its share |
| Scenarios.ParadiseGrowsWithoutBound | src/console_node/nodes.go:160 | from any state below its Mountain share: for any batches of different Paradise nodes, each of the size of a request, there is an honest run that takes in all of them, one batch a round, and leaves the Mountain pool as it is |
| Scenarios.ParadiseGrowsFromStartUp | src/console_node/nodes.go:160 | the same from start-up |
| Balance.MtnBandAbsorbs | src/console_node/nodes.go:190-194 | inside the band nothing is asked for and nothing released |
| Balance.RvrRoundBand | src/console_node/nodes.go:187-189 | where one round takes the River count from any start: ceiling, floor, exact landing on the share from above the band |
| Balance.SawtoothStep | src/console_node/nodes.go:223-225 | one granted round moves the River count on by one position of the sawtooth |
| Balance.MtnNeverBounces | src/console_node/nodes.go:184-194 | counts of the Mountain side: grown is not followed by shrinking, shrunk is not followed by a request |
| Balance.RvrBouncesExactlyAtBandTop | src/console_node/nodes.go:223-232 | River counts: grown is followed by shrinking iff the count was the largest one inside the band |
| Scenarios.RiverBounces | src/console_node/nodes.go:223-232 | for every share there is a run from start-up in which one round takes River from the top of its band to one more and the next round down to the share |
| Balance.SharesCoverSystem | src/console_node/nodes.go:180-182 | the shares of all pods together exceed the number of nodes, by at most one per pod |
| Balance.SomePodAsksForMore | src/console_node/nodes.go:180-194 | for any disjoint holdings out of a system, some pod is strictly below its share and computes a positive delta |
| Convergence.SomePodAsksForMountain | src/console_node/nodes.go:231-235 | for any pods that share out a system's Mountain nodes, the next round of some pod below its share asks for nodes |
| Convergence.SomePodAsksForRiver | src/console_node/nodes.go:231-235 | the same for River, where the request is the pinned distance to the share and not the one node always asked for |
| Nodes.InsertAllPartitions | src/console_node/nodes.go:242-256 | acquired nodes under the contract keep the pools a partition by class, nothing held is lost or changed, and the sizes grow by the numbers of each kind |
| Nodes.InsertAllNames | src/console_node/nodes.go:242-256 | held names grow by exactly the names of known class, contract or not |
| Sections.LastOfNameIsFiled | src/console_node/nodes.go:242-256 | whatever is held and arrives, the last arrival of each name is afterwards in the pool of its class, under its name and unchanged in every field |
| Sections.ArrivalsAreFiled | src/console_node/nodes.go:242-256 | with new and different names, that is every arrival |
| Sections.HeldAsHandedOut | src/console_node/nodes.go:242-256 | in every reachable state, every entry of every pool is a node exactly as console-data handed it out in some round |
| Nodes.DropAllIsWithout | src/console_node/nodes.go:364-385 | on a partition, dropping any list, repeats and unknown names included, is removing that set of names |
| Nodes.DropAllShrinks | src/console_node/nodes.go:364-385 | on any pools, dropping only removes, and only what is named |
| Sections.OnePoolAtATime | src/console_node/nodes.go:371-380 | on any pools, a name in more than one of them leaves River before Mountain and Mountain before Paradise, one pool a time |
| Sections.HeartbeatOnReply | src/console_node/data.go:189-199 | on a partition, a reply takes exactly the nodes it names out of each pool and out of the watcher registry, signals a living conman iff it names any, and leaves everything else alone |
| Sections.NoReplyNoChange | src/console_node/data.go:164-188 | without a usable reply nothing changes |
| Sections.HeartbeatInRun | src/console_node/data.go:189-199 | the same for every heartbeat of every run under the acquire contract |
| Nodes.ReleaseListExact | src/console_node/nodes.go:308-346 | a release list has no duplicates and names exactly what left the pools |
| Nodes.ReleasedWereHeld | src/console_node/nodes.go:308-346 | every released node is sent as it was held, from the pool it was in |
| Tails.OneWatcherPerNode | src/console_node/logAggregation.go:56-71 | the registry and the running watchers match one to one |
| Tails.StartEachEffect | src/console_node/conman.go:58-65 | starting a list follows exactly the old and the named nodes and restarts none |
| Tails.StopEachEffect | src/console_node/consoleNodeMain.go:241-249 | stopping a list, in any order and with repeats, removes exactly the named nodes |
| PodSpec.ConfNames | src/console_node/conman.go:292-362 | the names in a written configuration are exactly the held ones |
| Sections.LineOfNode | src/console_node/conman.go:292-362 | each held node has the line of its kind: River and Paradise with its BMC's address and the credentials found under its BMC's name, empty if there are none, Mountain and Hill with a key |
| Sections.SectionsInOrder | src/console_node/conman.go:292-362 | one line per held node, all River lines first, then Paradise, then Mountain |
| Sections.BmcNamesExactly | src/console_node/conman.go:275-282 | passwords are fetched for the BMCs of held River and Paradise nodes and no others |
| PodSpec.ListsHeldOnce | src/console_node/data.go:143-162 | on a partition, a listing of the pools names every held node once |
| ControlPlane.AlwaysValid | src/console_node/nodes.go:242-256 | in every reachable state, keys and classes match and the watcher registry is exact, whatever console-data answers |
| ControlPlane.AlwaysPartitioned | src/console_node/nodes.go:242-256 | under the acquire contract, the three pools are a partition in every reachable state |
| Freshness.FreshOrTermAttempted | src/console_node/conman.go:48-111 | in every reachable state before shutdown, the written configuration matches the held nodes and recorded credentials, or a SIGTERM has been attempted since the last pass, or that pass was told not to write |
| Freshness.SignalledIffDisturbed | src/console_node/nodes.go:266-272 | from a moment when conman runs unsignalled, and while it has not exited: it is signalled iff since then a round took a node in or gave one back, a heartbeat reply named nodes, or the monitor signalled |
| Sections.DeadUntilCollected | src/console_node/conman.go:189-197 | an exited process stays so through every step of every thread until the loop collects it |
| Sections.SignalledUntilExit | src/console_node/conman.go:138-148 | a signalled process stays signalled through every step until it exits |
| Freshness.NothingChangesUnsignalled | src/console_node/conman.go:151-199 | while a process runs unsignalled, pools, configuration and record are those of its start |
| Freshness.FileIsFromLastWrite | src/console_node/conman.go:241-363 | in every reachable state the file lists the pools that the last written pass found, with the credentials then recorded |
| Freshness.StartedOnAWrittenFile | src/console_node/conman.go:78-111 | conman is only ever started after some pass has written the file, and on what that pass found |
| Freshness.StaleExactlyIfChangedBeforeStart | src/console_node/conman.go:142-147 | a running, unsignalled conman watches exactly the held nodes iff the names held at its start were those held at the last written pass before, whatever steps came in between and whether or not later passes were skipped; with equal pools the whole file is right |
| Freshness.RunningIsFresh | src/console_node/conman.go:78-111 | while it runs unsignalled, file, held nodes and record agree, unless the file was not written or a SIGTERM was lost before the start |
| Scenarios.LostTermLeavesStaleConfig | src/console_node/conman.go:142-147 | a run from start-up that ends with conman running unsignalled on a node that is no longer held |
| Freshness.CommandExactlyWhileExecuting | src/console_node/conman.go:169-197 | the command is set exactly while the loop waits for the process |
| Freshness.NeverStartedTwice | src/console_node/conman.go:157-160 | the case reported there as one that should not happen never does |
| Ledger.Conservation | src/console_node/nodes.go:234-258 | over every run: acquired nodes of known class = held + named in the release messages sent + dropped by heartbeats, as multisets |
| Ledger.MessagesGiveBack | src/console_node/nodes.go:350-354 | the names in all release messages sent so far are those removed by rounds and by the release at shutdown, counted |
| Ledger.ReleaseMessagesExact | src/console_node/nodes.go:350-354 | every release message of a round is duplicate-free and exactly what left the pools |
| Ledger.FinalReleaseExact | src/console_node/consoleNodeMain.go:237-257 | the message at shutdown names every held node once, and nothing is held afterwards |
| Ledger.HeartbeatAgrees | src/console_node/data.go:143-199 | the payload has each held node once and the sum of the sizes as its length; after any reply the held names and the followed nodes are the former ones minus those named in it |
| Ledger.WatchersTrackHeld | src/console_node/conman.go:59-65 | followed nodes are held and were there at the last pass; right after a pass they are exactly the held ones |
| Ledger.WatchersAreUnique | src/console_node/logAggregation.go:56-71 | no node ever has two running watchers, and none runs for a node not held |
| Ledger.WatchersOfHeldStay | src/console_node/logAggregation.go:100-111 | under the acquire contract, no step but a configuration pass touches the watcher of a node that stays held: it is neither restarted nor cancelled |
| Ledger.StartedWithNodes | src/console_node/conman.go:59-75 | conman is started only if the last configuration pass found a node, and the loop only waits if it found none |
| Ledger.RotationCoversHeld | src/console_node/logRotation.go:196-204 | the rotation listing is the disjoint union of the held nodes and those that left without a rewrite; exact iff none has |
| Ledger.RotationHasNoDup | src/console_node/logRotation.go:196-204 | one entry per name in every reachable state |
| Convergence.RoundOnCounts | src/console_node/nodes.go:205-274 | a round on the pools does to their sizes what the controller says |
| Convergence.MountainDescends | src/console_node/nodes.go:318-348 | from above the band, in every later state: settled, or still above with share/10 + 1 nodes gone for every round so far; never below the share |
| Convergence.MountainConverges | src/console_node/nodes.go:142-203 | with one round for every share/10 + 1 nodes in excess: share <= Mountain <= 1.1 share, Paradise <= Mountain |
| Convergence.MountainBandIsFinal | src/console_node/nodes.go:190-194 | once in the band, the Mountain and Paradise counts never change again |
| Convergence.MountainNeverOvershoots | src/console_node/nodes.go:190-194 | from below, the Mountain count never exceeds the share nor falls below where it started |
| Convergence.MountainReachesShare | src/console_node/nodes.go:190-194 | from below with every request granted in Mountain nodes, the exact count after every number of rounds: a full request a round, the share after (share - count)/limit rounds rounded up, and then the share |
| Convergence.RiverStaysInReach | src/console_node/nodes.go:187-189 | after one round the River count is at most one over the top of its band; once at its share it never falls below |
| Convergence.RiverReachesShare | src/console_node/nodes.go:187-189 | with every River request granted, the exact count after every number of rounds: one round down to the share from above the band, a full request a round up to it from below, and the sawtooth from then on |
| Convergence.RiverSawtooth | src/console_node/nodes.go:223-225 | the same from inside the band: the count is the share plus the position modulo share/10 + 2 |
| Convergence.MountainNeverBounces | src/console_node/nodes.go:184-194 | consecutive rounds of a run, other threads in between: no release after growth, no request after a release |
| Convergence.RiverBouncesAtBandTop | src/console_node/nodes.go:223-232 | consecutive rounds of a run: River releases after growing iff it was at the top of its band; after a release it asks for one node |
| Convergence.FallbackReleasesNothing | src/console_node/nodes.go:195-200 | a round with a failed query asks for no more than the limits, releases nothing and sends no message, whatever console-data answers |
| Shutdown.AtMostOneLateRound | src/console_node/consoleNodeMain.go:215-220 | after the release at most one round runs, and only if one had passed the check before |
| Shutdown.EmptyUntilLateRound | src/console_node/consoleNodeMain.go:231-258 | until such a round, no node is held and no log followed |
| Shutdown.EmptyForGood | src/console_node/nodes.go:205-214 | with no round in flight at the release, the pod stays empty in every later state |
| Shutdown.LateRoundTakesAll | src/console_node/nodes.go:207-214 | with one in flight, exactly the nodes of known class that it is handed are held afterwards, whatever the services answer, as long as they report no negative totals |
| Scenarios.LateRoundRefills | src/console_node/nodes.go:207-214 | a run from start-up in which a node is held after the release at shutdown |
| CredentialLoop.RecordIsFromLastWrite | src/console_node/conman.go:284-289 | in every reachable state the record is the vault's answer at the last written pass for the BMCs of that moment |
| CredentialLoop.FileHasVaultCredentials | src/console_node/conman.go:284-362 | in every reachable state after a written pass, each node that the last one found has its line in the file, with what the vault then had for its BMC, or empty credentials if it had none |
| CredentialLoop.CheckIsExact | src/console_node/monitor.go:118-151 | in every reachable state the monitor sees a change iff a held BMC's credentials in the vault differ from those conman was configured with at the last written pass |
| CredentialLoop.SignalsMatchAlarms | src/console_node/monitor.go:47-68 | over any stretch of any run the monitor sends one signal for each check that had a reason and no other, but for one that may be outstanding |
| CredentialLoop.NoRestartLoop | src/console_node/monitor.go:118-151 | while the vault is as the last written pass found it, no BMC has come in and no keys have changed, the monitor sends no signal, except one decided on before |
| CredentialLoop.RestartLoopsIffNotWritten | src/console_node/conman.go:254-258 | with vault and BMCs at rest, a change seen is still seen later, through any number of restarts and any other steps, iff no pass has written the file since |
| CredentialLoop.UnwrittenChangeSignalsForEver | src/console_node/monitor.go:65-67 | and until one does, every single check leads to a signal |
| Scenarios.EndlessRestarts | src/console_node/conman.go:254-258 | for every n there is a run from start-up in which one change of credentials has conman restarted n times |
| Text.ScanIntsExact | src/console_node/logRotation.go:274 | the scan succeeds with given numbers exactly on texts that spell them: blanks, sign, digits, exact separators, 64-bit range, anything after |
| Text.DecAllRoundTrip | src/console_node/logRotation.go:274 | numbers written in plain decimals are read back |
| Text.DecIsDecimal | src/console_node/logRotation.go:274 | decimal notation, digit by digit |
| Text.RangeRead | src/console_node/logRotation.go:274 | a plain or negative numeral is read iff it is within 64 bits, and read as its number |
| Text.CharBeforeNumber | src/console_node/logRotation.go:274 | which characters may stand before a number: signs and white space but a newline, nothing else |
| Text.LinesAreTerminated | src/console_node/logRotation.go:306-312 | every line handed to the parser ends in its only newline |
| Text.LinesExact | src/console_node/logRotation.go:304-312 | the lines put together are the whole text but for what follows the last newline |
| LogRotation.ConsoleLineExact | src/console_node/logRotation.go:234-255 | a line is taken as a console's time iff it names the console between the first prefix and the next quote and the stamp scans to that time |
| LogRotation.ConsoleLineNeverPanics | src/console_node/logRotation.go:239-255 | all slices are in range on any newline-terminated line with the console prefix |
| LogRotation.PanicsExactly | src/console_node/logRotation.go:256-270 | the parser slices out of range iff the line names no console and ends right after the aggregation file |
| LogRotation.ConsoleRoundTrip | src/console_node/logRotation.go:226-284 | a rendered console line is read as that console and time, for every quote-free name |
| LogRotation.AggregateRoundTrip | src/console_node/logRotation.go:254-270 | a rendered aggregation line is read as such, for every pod name without a slash |
| LogRotation.ConsoleLineRead | src/console_node/logRotation.go:226-284 | the line with the path `/var/log/conman/console.` and a stamp Y-M-D-h:m:s, written out character by character, is read as that console and those six numbers, for every quote-free name and numbers up to 9999 |
| LogRotation.AggregateLineRead | src/console_node/logRotation.go:254-270 | the same for the line with the path `/tmp/consoleAgg/consoleAgg-`, the pod's name and `.log` |
| LogRotation.AggregateLineExact | src/console_node/logRotation.go:254-276 | a line is taken as the aggregation log's time iff it names no console, and the stamp two characters after the first mention of the file scans to that time |
| RotationReader.RotationReader.ReadLogRotTimestamps | src/console_node/logRotation.go:287-343 | the stamps kept are overlaid with the file's entries in order, and the flags say whether an entry of that kind differed when read; an unreadable file changes nothing |
| RotationReader.RotationReader.Note | src/console_node/logRotation.go:317-338 | the entry's time is kept; changed iff it was absent or different |
| RotationReader.ChangeSeenExactly | src/console_node/logRotation.go:317-338 | something is reported iff some entry was absent or different before the read |
| RotationReader.ChangeSeenByKind | src/console_node/logRotation.go:323-337 | the same for console and aggregation logs each, if no name is used for both |
| RotationReader.LastEntryWins | src/console_node/logRotation.go:322 | a file keeps the time of its last entry |
| RotationReader.OverlayKeepsOthers | src/console_node/logRotation.go:317-331 | a file without entries keeps its time |
| RotationReader.OverlayIsIdempotent | src/console_node/logRotation.go:317-331 | reading the same entries again changes no stamp |
| RotationReader.RereadIsQuiet | src/console_node/logRotation.go:287-343 | and reports nothing iff no name comes with two times |
| RotationReader.ReadCrashesExactly | src/console_node/logRotation.go:269 | a read of a whole file crashes iff some line ends right after the aggregation file and names no console |
| RotationReader.EntriesExact | src/console_node/logRotation.go:306-316 | unless the read crashes, its entries are exactly those of the lines that are read as one |
| RotationReader.BareNameCrashes | src/console_node/logRotation.go:269 | the one-line file with the bare name of the aggregation file does crash it, for every pod name without a slash |
| RotationReader.StateFileRoundTrip | src/console_node/logRotation.go:306-316 | a rendered state file is read as exactly its entries, in order |

## Left out

- HTTP, JSON and the request handlers: replies enter as parameters; the health, liveness and readiness answers are not modelled.
- console-data's own assignment of nodes to pods is not in this repository; only its contract towards one pod is used, and several pods only meet in `Balance.SomePodAsksForMore`.
- Messages to console-data are taken to arrive; a failed release is only logged by the service.
- The vault login, the fetching and hashing of the console keys and the waiting for them: whether keys changed is an input of the monitor's step.
- A vault error makes the service panic; the model has no such step.
- The tail library, the text that is aggregated, and the aggregation logger: a watcher is started or cancelled and nothing more.
- The SIGHUP sent to conman and the restart of the aggregation log after a rotation: only the flags that trigger them are modelled.
- Setting `command` and starting the process are one step; pipes, waiting times and sleeps are not modelled, and endless loops appear as steps that can be taken again.
- Debug mode with its fake logs and `killTails`, the zombie reaper, directory and log file permissions.
- Parsing of the target file, and of the base configuration's first bytes: the file's targets and whether to write are inputs.
- Reading of environment variables other than the forcing of the two acquisition limits into their ranges.
- The text of configuration and rotation entries: an entry is its node, its kind of connection and its credentials; the aggregation file's own rotation entry, which is always there, is not in the listing.
- NID and role of a node, which are carried along but never read.
- The comparison with 1.1 times the share is done in floating point by the service; the model compares 10 times the count with 11 times the share, which agrees for all realistic counts.
- Node, BMC and host names are an abstract type outside the log rotation part: they are only compared and copied.
- Text in the log rotation part is a sequence of ASCII characters; multi-byte characters in a state file are not modelled.
- The calendar: turning six numbers into a moment is a function parameter, any function.
- RotationReader.ChangeSeenByKind: needs that no console is named like the aggregation entry, `consoleAgg.log`; `RotationReader.ChangeSeenExactly` does not.
