# Verified models of ASAB's state machines

This project models the parts of the ASAB service framework whose correctness depends on concurrency, in-place
mutation or search, and proves what those parts promise: leader election and service discovery over ZooKeeper,
nested configuration includes, directory synchronisation, the layered library (listing, disable rules, readiness,
schema merge), metrics (dynamic-tag counters, histograms, the InfluxDB line protocol), advertisement publishing and
the housekeeping schedule.

One module models one component.

| module | component |
|---|---|
| `Leader` | leader election as steps of any number of instances around one ephemeral node |
| `LeaderClaims` | exact conditions for a node that nobody claims and for LEADER! without a claim |
| `LeaderPairs` | exact conditions for two leaders at a time |
| `LeaderData` | whose data `LeaderInfo` holds, and which steps publish |
| `LeaderService` | the methods of the leader service, statement by statement, with interference between statements; each takes only steps of `Leader` and ends in a stated outcome |
| `Discovery` | the raw table, the nested cache built from it by loops, lookups |
| `DiscoveryTasks` | watch events and coalesced rescans interleaved at awaits |
| `Includes` | depth-first include traversal over a possibly cyclic graph |
| `DirSync` | the two walks of `synchronize_dirs` over a file tree |
| `LineProtocol`, `Influx`, `InfluxRecords`, `InfluxFormat` | a decoder for the InfluxDB line protocol, the printer, the points that metric records stand for, and the loops that produce a request body |
| `LibraryList` | merged levels, provider narrowing, breadth-first recursive listing |
| `LibraryOrder` | the order of listings, and where each item comes from |
| `LibraryDisabled` | disable rules, the diff that decides which subscriptions hear of a change, reading the rules |
| `LibraryReady` | readiness edges of a library whose providers change status concurrently |
| `Schema` | the additive merge of schema extensions |
| `DynamicCounter` | counters with dynamic tags: expiry, flush, conservation of amounts |
| `Histogram` | cumulative histograms with shared dictionaries modelled as objects |
| `Advertise` | the versioned write-back loop, with `advertise` interfering at any step |
| `AdvertiseRuns` | exact conditions over its runs: stale nodes, forgotten changes, what an undisturbed pass repairs |
| `Housekeeping` | the daily window over arbitrary tick times, with the civil calendar |
| `Selections` | positions picked from a sequence, in order |

`dafny verify dfyconfig.toml` checks everything.

## Assumptions

- ZooKeeper calls are atomic, a call that raises changed nothing, czxids are fresh and increasing, sequential nodes
  never reuse a name, and a node carries the version of its last write.
- Every end of a ZooKeeper session delivers one LOST to its instance, possibly much later; an instance has one live
  session at a time; the `get` and the `delete` of a step-down fall into one session.
- Names that a library provider lists extend the name of the listed directory, and a provider that has content in a
  directory lists that directory in its parent (for the narrowed recursive listing only; `LibraryList.NarrowLevelMisses`
  says what is missed without it).
- Between two awaits an asyncio task runs alone.
- The clock, texts of numbers, the files an include pattern names, what providers list and what documents parse to
  are parameters.

## Where the code differs from what one would expect

Each point is a proved lemma; the models do what the code does.

- Two instances can both answer `IsLeader()` in a third situation besides an unhandled LOST and a resignation in
  progress: a late write (`Leader.LateWriteHappens`). An election writes `_leader_zxid` after its session ended and
  the LOST handler passed the statement that would clear it (`LeaderClaims.LateWriteFollowsLost`); the recheck, which
  finds the key changed, has not come yet. Two leaders have neither of the usual excuses exactly when one made a late
  write and the other made one too or owns the election node (`LeaderPairs.UnexcusedExactly`), and over every run
  exactly when one wrote such a claim next to the other and neither has left since
  (`LeaderPairs.UnexcusedSinceExactly`).
- LEADER! can be published by an instance that is no leader: exactly when the LOST handler has cleared `_leader_zxid`
  since the election wrote it (`LeaderClaims.AnnouncedWithoutClaimExactly`). That may be the LOST of the same
  leadership, coming after the recheck (`Leader.StaleAnnouncementHappens`), or the late LOST of an earlier session that
  began before the election stored its key, which the recheck does not notice
  (`LeaderClaims.RecheckMissesOldLostHappens`).
- A standing election node can end up claimed by nobody; no instance leads until the owning session ends
  (`Leader.StrandedUntilSessionEnds`). This happens exactly when its owner lets it go in one of the ways that
  `LeaderClaims.LetsGo` lists (`LeaderClaims.StrandedExactly`): a stale key after `create`, as after a suspension
  (`Leader.StrandedHappens`); a claim that the recheck of a stale key retracts while the node stands; a recheck that
  finds the claim gone; the LOST handler of an earlier session (`LeaderClaims.StrandedByOldLostHappens`); a step-down
  whose call raises after the claim is gone. A claim whose node stands is never overwritten by another, given up for
  another leader's node, or cleared by a resignation (`LeaderClaims.StandingClaimIsKept`).
- A scan that gives up, because listing the nodes raised or the connection was lost while reading them, empties the
  discovery table (`DiscoveryTasks.GivingUpForgetsEverything`).
- A configuration file that is reachable from its own include line is read twice (`Includes.ConfigFileReadTwice`).
- Keys of string fields are escaped twice, so they are read back only when they hold no special character
  (`Influx.ScanTwiceEscaped`, `Influx.LineRoundTrip`).
- A change of an ancestor folder's rule is not reported to subscribers below it
  (`LibraryDisabled.AncestorChangeIsMissed`); `LibraryDisabled.QuietDiffMeansSameAnswers` gives the exact condition.
  An empty or broken rules file drops all rules without telling anybody (`LibraryDisabled.SilentDropHappens`); an
  untold subscriber then sees the same answers exactly when no rule disabled anything for it at or below its path
  (`LibraryDisabled.SilentDropExactly`). Readings that publish nothing tell nobody either;
  `LibraryDisabled.UntoldSeeSameExactly` gives the exact condition for every kind of file and of reading.
- The rules are read before `Library.ready!` exactly when there is one provider
  (`LibraryReady.RulesComeFirstExactly`); with any larger number it can be published while they are still being read
  (`LibraryReady.ReadyBeforeRulesHappens`).
- A node that still has the recorded version holds old data exactly when `advertise` changed the data between the
  latest write and its recording (`AdvertiseRuns.StaleByDivisionExactly`); it then stays old until something else
  disturbs the node (`Advertise.TornRecordingHappens`, `Advertise.StaleUntilDisturbed`).
- A change can be left outstanding with nothing scheduled, exactly when a step drops the last hope and neither an
  `advertise` nor a tick follows (`AdvertiseRuns.ForgottenExactly`): the last scheduled publisher is skipped when the
  loop has made its last check but still holds the lock (`Advertise.LostWakeupHappens`) or when there is no
  connection, or the loop leaves by an error (`AdvertiseRuns.FailedCreateForgetsHappens`), for want of a connection,
  or after its eleven passes. A publisher skipped before the last check loses nothing. Runs without such steps settle
  (`AdvertiseRuns.SmoothRunsSettle`).
- A flush loses exactly what was added to a field since the flush before, if the latest of those additions is older
  than the expiration time (`DynamicCounter.DroppedExactly`, `DynamicCounter.LateFlushLoses`).
- The list of missed housekeeping events gets the day of the tick, not the missed day
  (`Housekeeping.MissedIsTheTicksDay`, `Housekeeping.WrongDayIsRecordedHappens`).

## Model

| member | source | states |
|---|---|---|
| Leader.FreeLeaderIsBacked | asab/zookeeper/leader_svc.py:278-332 | in every reachable state a leader whose lock is free created the node of its czxid, and either the node stands in its live session or a LOST that will clear the claim is still owed |
| Leader.ClaimsAreDistinct | asab/zookeeper/leader_svc.py:300-332 | no two instances ever hold the same `_leader_zxid` |
| Leader.TwoLeadersExcused | asab/zookeeper/leader_svc.py:111-121 | two instances answer `IsLeader()` only while one has an unhandled LOST, a resignation in progress, or a late write: a claim whose node is gone with no LOST left to clear it, which its recheck is about to retract; the exact condition is `LeaderPairs.UnexcusedExactly` |
| LeaderPairs.UnexcusedExactly | asab/zookeeper/leader_svc.py:319-331 | in every reachable state two leaders have no unhandled LOST and no resignation between them exactly when neither resigns, one of them made a late write, and the other made one too or owns the election node |
| LeaderPairs.BareExactly | asab/zookeeper/leader_svc.py:111-121 | one leader has neither excuse exactly when it does not resign and its node stands or its claim is a late write |
| LeaderPairs.UnexcusedByStepExactly | asab/zookeeper/leader_svc.py:319-331 | a step begins such a pair exactly when one of the two writes a claim that no LOST will clear next to the other, and ends it exactly when one of the two stops leading or gets an excuse |
| LeaderPairs.BareByStepExactly | asab/zookeeper/leader_svc.py:168-332 | which steps make an instance a leader without an excuse and which end it: a retracted or cleared claim, the end of the session of its node, the deletion of its node |
| LeaderPairs.UnexcusedSinceExactly | asab/zookeeper/leader_svc.py:278-332 | over every run from the start two instances lead without an excuse exactly when one joined the other in such a step and neither left since |
| LeaderClaims.LateWriteFollowsLost | asab/zookeeper/leader_svc.py:247-257 | the session behind a late write has ended, and its LOST is handled or past the clearing statement |
| Leader.TwoIdleLeadersAwaitLost | asab/zookeeper/leader_svc.py:111-121 | with both locks free an unhandled LOST is the only excuse |
| Leader.LateWriteHappens | asab/zookeeper/leader_svc.py:321-331 | a run in which two instances lead with every LOST handled and no step-down anywhere in it |
| Leader.StaleAnnouncementHappens | asab/zookeeper/leader_svc.py:327-332 | a run in which LEADER! follows the FOLLOWER! of the completely handled LOST of the same leadership |
| Leader.OutStaysOut | asab/zookeeper/leader_svc.py:168-210 | over every run without a set-up a stepped-down instance never gains a claim and never publishes LEADER! |
| Leader.StepWhileOut | asab/zookeeper/leader_svc.py:260-281 | the same for one step of anybody |
| Leader.StepDownDeletesOwnNode | asab/zookeeper/leader_svc.py:181-192 | the node a step-down deletes was created by this instance and stands in its live session |
| Leader.StrandedUntilSessionEnds | asab/zookeeper/leader_svc.py:305-331 | a node nobody claims keeps everybody from leading, over every run, until its session ends |
| Leader.StrandedHappens | asab/zookeeper/leader_svc.py:237-244 | a suspension between `create` and the test of the key strands the election, for any number of instances |
| Leader.StepKeepsInv | asab/zookeeper/leader_svc.py:168-332 | every step of every thread and handler keeps the invariant |
| Leader.RunKeepsInv | asab/zookeeper/leader_svc.py:168-332 | so does every run |
| LeaderClaims.IdleLeaderStandsExactly | asab/zookeeper/leader_svc.py:111-121 | a leader with a free lock has its node standing in its live session exactly when no LOST is owed that will clear the claim |
| LeaderClaims.StrandedExactly | asab/zookeeper/leader_svc.py:305-332 | in every reachable state the election node is claimed by nobody exactly when its owner let it go in some step since it was created |
| LeaderClaims.StrandedByStepExactly | asab/zookeeper/leader_svc.py:247-332 | a step strands a standing, claimed node exactly when it is one of the listed steps of its owner |
| LeaderClaims.StandingClaimIsKept | asab/zookeeper/leader_svc.py:202-326 | in every reachable state an instance whose claim stands is not about to overwrite it, to give it up for another node, or to clear it after a resignation |
| LeaderClaims.RunKeepsTidy | asab/zookeeper/leader_svc.py:168-332 | the invariant behind it: over every run the node of an election under way stands as long as its session lives, and no thread of a standing claim works on another node |
| LeaderClaims.StrandedMeansOwnerLetGo | asab/zookeeper/leader_svc.py:300-332 | only the instance that created a node can claim it or work on it |
| LeaderClaims.StrandedByOldLostHappens | asab/zookeeper/leader_svc.py:247-257 | a run without any suspension in which the late LOST of an earlier session strands the node of an announced leader |
| LeaderClaims.AnnouncedWithoutClaimExactly | asab/zookeeper/leader_svc.py:325-332 | over every run LEADER! is published without a claim exactly when the LOST handler cleared it since the election wrote it |
| LeaderClaims.ClaimLostByStepExactly | asab/zookeeper/leader_svc.py:325-332 | between the write of the claim and the publication only the handler's clearing statement takes the claim away |
| LeaderClaims.OnlyAnnouncingPublishesLeader | asab/zookeeper/leader_svc.py:332-332 | nothing but the last statement of an election publishes LEADER! |
| LeaderClaims.RecheckMissesOldLostHappens | asab/zookeeper/leader_svc.py:327-332 | a run in which the recheck passes and LEADER! is due in the live session of the node, without a claim |
| LeaderData.FetchedDataIsTheCreators | asab/zookeeper/leader_svc.py:307-312 | in every reachable state an election that has read the node holds the data of the instance that created the node of its czxid |
| LeaderData.LeaderNamesItself | asab/zookeeper/leader_svc.py:312-326 | in every reachable state a leader with a free lock has its own data in `LeaderInfo`, or none, and any `LeaderInfo` is that of a creator of an election node |
| LeaderData.PublishesExactly | asab/zookeeper/leader_svc.py:168-332 | which step publishes what: LEADER! only the last statement of an election; FOLLOWER! exactly an election behind another node or with a stale key after `create`, the two ends of a step-down that clear the claim, and the end of the LOST handler |
| LeaderService.LeaderService.ElectionThread | asab/zookeeper/leader_svc.py:278-332 | under every interference between its statements the election takes only steps of the state machine, captures the key if it participates, and ends in one of eight outcomes, each with what it made of the claim, the leader data and the published events; LEADER! is published exactly once and only by the outcome `Led`; a follower stores the data that its `get` read from the node, as the node stood then |
| LeaderService.LeaderService.FollowExisting | asab/zookeeper/leader_svc.py:307-318 | `get` fails exactly when it raises, has no session or finds no node; otherwise the key and the czxid decide between the follower outcomes; the data stored is that of the owner of the node |
| LeaderService.LeaderService.TryToLead | asab/zookeeper/leader_svc.py:283-305 | the same from the capture of the key on; a raising `create` decides the outcome; a follower stores what `get` read |
| LeaderService.LeaderService.Contend | asab/zookeeper/leader_svc.py:299-307 | the same from `create` on: it fails exactly when it raises or has no session, an existing node leads to the follower outcomes, a free one to the leader outcomes; a follower stores what `get` read |
| LeaderService.LeaderService.CreateNode | asab/zookeeper/leader_svc.py:300-305 | a carried-out `create` is one step: a node with a fresh czxid in the live session, and nothing else of the instance changes |
| LeaderService.LeaderService.CheckKey | asab/zookeeper/leader_svc.py:309-311 | a stale key, and only that, leaves everything as it was |
| LeaderService.LeaderService.Demote | asab/zookeeper/leader_svc.py:312-318 | the own node leaves everything as it was; any other clears the claim, stores its data and publishes FOLLOWER! |
| LeaderService.LeaderService.BecomeFollower | asab/zookeeper/leader_svc.py:316-318 | the claim is cleared, the leader's data is stored, FOLLOWER! is published |
| LeaderService.LeaderService.ClaimLeadership | asab/zookeeper/leader_svc.py:319-332 | a stale key publishes FOLLOWER! and changes nothing else; otherwise the claim is retracted or LEADER! is published, with the created czxid as the claim unless the LOST handler cleared it |
| LeaderService.LeaderService.WriteClaim | asab/zookeeper/leader_svc.py:325-326 | the claim becomes the created czxid; it is retracted, or LEADER! is published and it stands unless the LOST handler cleared it |
| LeaderService.LeaderService.ConfirmLeadership | asab/zookeeper/leader_svc.py:327-332 | LEADER! follows exactly an unchanged key; a changed one clears claim and leader data |
| LeaderService.LeaderService.Announce | asab/zookeeper/leader_svc.py:332-332 | publishes LEADER!; whether the claim still stands is exactly whether the LOST handler cleared it since it was written |
| LeaderService.LeaderService.Retract | asab/zookeeper/leader_svc.py:328-331 | claim and leader data are cleared, and nothing is published |
| LeaderService.LeaderService.StepDownThread | asab/zookeeper/leader_svc.py:168-204 | the step-down ends non-participating and without a key; released, there is no claim, no leader data and FOLLOWER! was published; not released, the claim is kept unless a LOST cleared it; LEADER! is never published |
| LeaderService.LeaderService.Resign | asab/zookeeper/leader_svc.py:174-204 | the same from the test of the claim on; without a claim it is always released |
| LeaderService.LeaderService.ReleaseNode | asab/zookeeper/leader_svc.py:183-197 | the same for `get` and `delete` |
| LeaderService.LeaderService.DeleteNode | asab/zookeeper/leader_svc.py:188-189 | the node counts as released exactly when the `delete` is carried out in the session of the `get` |
| LeaderService.LeaderService.ClearClaim | asab/zookeeper/leader_svc.py:202-204 | claim and leader data are cleared and FOLLOWER! is published |
| LeaderService.LeaderService.SetUpThread | asab/zookeeper/leader_svc.py:207-210 | participates and then runs an election, once the lock is free again; unless a step-down came in between it ends participating and tries |
| LeaderService.LeaderService.OnZkSuspended | asab/zookeeper/leader_svc.py:237-244 | the handler changes nothing but the key, wherever the lock holder stands |
| LeaderService.LeaderService.OnZkLost | asab/zookeeper/leader_svc.py:247-257 | each of the handler's statements is carried out exactly once whatever runs between, FOLLOWER! is published last, and the LOST is no longer owed |
| LeaderService.LeaderService.LeaderOwnsTheNode | asab/zookeeper/leader_svc.py:111-121 | whatever interfered, a leader with no LOST owed and a free lock owns the election node |
| LeaderService.ForeignMovesInterfere | asab/zookeeper/leader_svc.py:237-257 | while the lock is held nobody else moves its holder, gives the instance a claim, changes its participation or publishes LEADER! |
| LeaderService.OnlyStepDownEndsParticipation | asab/zookeeper/leader_svc.py:168-210 | over every run without a step-down a participating instance stays so |
| Discovery.IndexAnswersLikeScan | asab/api/discovery.py:152-175 | lookups in the index find exactly what a direct scan of the raw table finds |
| Discovery.IndexListsOffers | asab/api/discovery.py:270-324 | the index lists an endpoint under a type and identifier exactly when some record offers it there |
| Discovery.OffersExactly | asab/api/discovery.py:281-324 | in terms of the record alone: it offers its host and the port of each web entry, "0.0.0.0" as IPv4 and "::" as IPv6, under its instance id, its service id, which replace custom lists of those types, and its custom identifiers |
| Discovery.ScanFindsExactly | asab/api/discovery.py:152-175 | what a direct scan finds, in those terms |
| Discovery.NestInsert | asab/api/discovery.py:317-322 | the innermost update of the nested dictionary adds one offer and nothing else |
| Discovery.DiscoveryService.ApplyAdvertisedRaw | asab/api/discovery.py:270-326 | the nested loops build the index of the raw table |
| Discovery.IndexRecord | asab/api/discovery.py:277-322 | one more record turns the index of the table into the index of the table with that record |
| Discovery.AddRecord | asab/api/discovery.py:277-322 | one record adds exactly its offers to the nested dictionary |
| Discovery.AddEndpoint | asab/api/discovery.py:313-322 | one endpoint is added under every identifier of every type |
| Discovery.AddIdentifiers | asab/api/discovery.py:317-322 | and under every identifier of one type that is not None |
| Discovery.DiscoveryService.SwapScanned | asab/api/discovery.py:259-265 | the swap leaves exactly the scanned items, the last of each name |
| Discovery.TableOfExactly | asab/api/discovery.py:260-265 | after a scan a name has the record of its last item |
| Discovery.DiscoveryService.RecordChange | asab/api/discovery.py:101-106 | afterwards exactly the offers of the new record and of the records under other names are there |
| Discovery.DiscoveryService.RecordDelete | asab/api/discovery.py:108-112 | afterwards exactly the offers of the other records are there; an unknown item changes nothing |
| Discovery.ChangedOffers | asab/api/discovery.py:101-106 | replacing a record replaces its offers and no others |
| Discovery.DeletedOffers | asab/api/discovery.py:108-112 | removing a record removes its offers and no others |
| Discovery.DiscoveryService.Locate | asab/api/discovery.py:152-175 | over an up-to-date cache the result is that of a direct scan |
| Discovery.LocateIn | asab/api/discovery.py:166-175 | the result is the union over the identifier types asked for |
| Discovery.HasAdvertisedEndpoints | asab/api/discovery.py:178-183 | true exactly when some endpoint is listed |
| DiscoveryTasks.ReadyCacheIsCurrent | asab/api/discovery.py:101-119 | once ready, in every interleaving the cache is the index of the current table or a running task has yet to apply it |
| DiscoveryTasks.OneRescanAtATime | asab/api/discovery.py:240-267 | at most one rescan is past the lock |
| DiscoveryTasks.RequestsAreServed | asab/api/discovery.py:240-257 | a request is followed by a scan that starts later, unless a scan raises |
| DiscoveryTasks.RequestsCoalesce | asab/api/discovery.py:240-247 | a request that meets a rescan under way ends at once and makes it scan again |
| DiscoveryTasks.GivingUpForgetsEverything | asab/api/discovery.py:329-345 | a scan that gives up, whatever the reason, empties the table and every lookup |
| DiscoveryTasks.ScanIsSeen | asab/api/discovery.py:246-324 | once an undisturbed rescan has rebuilt the cache, lookups find exactly what the scanned records offer |
| DiscoveryTasks.IterItems | asab/api/discovery.py:329-364 | a scan gives up exactly when listing raised or the connection was lost before anything else failed; vanished nodes are skipped and all others returned in order |
| DiscoveryTasks.FoundExactly | asab/api/discovery.py:346-358 | every record that was read is found, in order, and nothing else |
| DiscoveryTasks.FoundDuringScanHappens | asab/api/discovery.py:249-257 | a run in which any given record is found by lookups while such a scan is under way |
| DiscoveryTasks.WatchEventIsSeen | asab/api/discovery.py:101-119 | once an event is applied undisturbed, lookups find exactly what its record and the other records offer |
| Includes.TraversalReadsReachable | asab/config.py:182-220 | each file is read at most once, a finished traversal read exactly the reachable files, and it finishes exactly when all reachable files that exist parse |
| Includes.VisitReadsOnce | asab/config.py:205-210 | no file is read twice or again after it was seen |
| Includes.VisitFailsOnBadFile | asab/config.py:213-217 | the traversal finishes exactly when every file it reads parses |
| Includes.VisitCloses | asab/config.py:219-220 | what a finished traversal read is closed under including |
| Includes.NamedInOrder | asab/config.py:191-202 | a line names the files of its patterns, one pattern after another |
| Includes.DepthFirst | asab/config.py:202-220 | a new file is followed by all that it includes before the next one, and a failure ends everything |
| Includes.VisitConcat | asab/config.py:191-220 | one list of files is read completely before the next |
| Includes.ConfigFileReadTwice | asab/config.py:231-248 | the configuration file is read a second time exactly when its own include line reaches it |
| Includes.ConfigParser.TraverseIncludes | asab/config.py:182-220 | the recursive loops terminate on cyclic graphs, follow the depth-first order, and leave the directory stack as it was |
| Includes.ConfigParser.IncludePattern | asab/config.py:202-220 | the files of one pattern, skipping those included before |
| Includes.ConfigParser.IncludeFile | asab/config.py:210-220 | reads a new file with its directory on the stack, then traverses its own include line |
| Includes.ConfigParser.Load | asab/config.py:223-250 | the configuration file, then the traversal of its include line |
| DirSync.Target.SynchronizeDirs | asab/library/dirsync.py:6-59 | the target ends equal to the source exactly when no path is a file on one side and a directory on the other, and then exactly the new and changed files were written, once each |
| DirSync.Target.SynchronizeTwice | asab/library/dirsync.py:6-59 | a second run changes and writes nothing |
| DirSync.Target.CopyPass | asab/library/dirsync.py:22-38 | the first walk adds every source directory and file and overwrites only changed files |
| DirSync.Target.SyncDirectory | asab/library/dirsync.py:32-38 | the files of one directory are brought up to date, each written at most once |
| DirSync.Target.SyncFile | asab/library/dirsync.py:37-38 | a file is written exactly when it is missing or differs |
| DirSync.Target.EnsureDir | asab/library/dirsync.py:28-29 | a directory is created unless something of its name is there |
| DirSync.Target.DeletePass | asab/library/dirsync.py:41-59 | the bottom-up walk leaves exactly what the source has |
| DirSync.Target.PruneFiles | asab/library/dirsync.py:46-51 | the listed files of a directory that the source lacks are gone, and nothing else |
| DirSync.Target.PruneSubdirs | asab/library/dirsync.py:54-59 | the listed subdirectories that the source lacks are gone with all they hold |
| DirSync.AllChecked | asab/library/dirsync.py:41-59 | once every entry was looked up, exactly those are gone that the source lacks |
| DirSync.CheckDir | asab/library/dirsync.py:54-59 | removing a subtree leaves what the walk still has to look at |
| DirSync.ConflictStays | asab/library/dirsync.py:28-38 | after a conflict of kinds the target differs from the source |
| LineProtocol.ScanEscaped | asab/metrics/influxdb.py:264-292 | an escaped text is read back exactly when it has no line break and no backslash at its end |
| Influx.EscapeNameIs | asab/metrics/influxdb.py:264-265 | the two replacements of a name are one escape of both characters |
| Influx.EscapeKeyIs | asab/metrics/influxdb.py:268-292 | the three replacements of a key are one escape of all three characters |
| Influx.EscapeStringIs | asab/metrics/influxdb.py:195-197 | the replacements of a string value are one escape of backslash and quote |
| Influx.ShownExactly | asab/metrics/influxdb.py:204-212 | a line shows its tags in order, all but `help` and `unit`, with "unknown" for a missing value |
| Influx.ValueTexts | asab/metrics/influxdb.py:188-201 | how truth values, integers, floats and strings are printed |
| Influx.PutReplaces | asab/metrics/influxdb.py:219-222 | setting the tag `le` replaces a tag of that name in place |
| Influx.ScanTwiceEscaped | asab/metrics/influxdb.py:195-197 | a key escaped twice is read back exactly when it is readable and holds no special character |
| Influx.ReadPrintedValue | asab/metrics/influxdb.py:188-201 | every printed value is read back as itself |
| Influx.ReadPrintedTags | asab/metrics/influxdb.py:204-212 | the tag list is read back exactly when every shown key and value is readable and not empty |
| Influx.ReadPrintedFields | asab/metrics/influxdb.py:213-216 | the field list is read back exactly when every key is readable, not empty and, for a string value, free of special characters |
| Influx.LineRoundTrip | asab/metrics/influxdb.py:188-216 | a printed line is read back as its name, shown tags, fields and time exactly when it is printable |
| InfluxRecords.PointsExactly | asab/metrics/influxdb.py:233-261 | in terms of the records alone: the lines say exactly one point for each filled bucket, with its bound as the tag `le` and its values, for the sum and for the count of each histogram field that holds anything, and for each other field that holds anything, at its own time or else now, in the order of the records, and no other point |
| InfluxFormat.BodyRoundTrip | asab/metrics/influxdb.py:295-300 | given well-formed texts of numbers, a body is read back as exactly the points of its lines, in order, exactly when every line is printable |
| InfluxFormat.ReadBodyLine | asab/metrics/influxdb.py:204-222 | the first line is read back exactly when it is printable, and the rest of the body does not depend on it |
| InfluxFormat.EscapeInjective | asab/metrics/influxdb.py:274-279 | escaping keeps keys apart, so no entry of a dictionary is lost |
| InfluxFormat.EscapeTags | asab/metrics/influxdb.py:268-279 | the loop keeps every tag, escaped, with "unknown" for a missing value |
| InfluxFormat.EscapeValues | asab/metrics/influxdb.py:282-292 | the loop keeps every field under its escaped key |
| InfluxFormat.MetricToInfluxdb | asab/metrics/influxdb.py:233-261 | one line per bucket that holds anything, one for sum, one for count; one line per non-empty field of other metrics; what they say is `InfluxRecords.PointsExactly` |
| InfluxFormat.HistogramTexts | asab/metrics/influxdb.py:240-251 | a histogram field without values gives no line; otherwise its buckets, sum and count, in order; what they say is `InfluxRecords.PointsExactly` |
| InfluxFormat.BucketTexts | asab/metrics/influxdb.py:245-249 | one line per bucket that holds anything, with its bound as the tag `le` |
| InfluxFormat.BuildLine | asab/metrics/influxdb.py:204-222 | the escaped parts joined with a comma, spaces and a newline |
| InfluxFormat.InfluxdbFormat | asab/metrics/influxdb.py:295-300 | the body says exactly the points of `InfluxRecords.PointsExactly`: given well-formed texts of numbers, it is read back as these points, in order, exactly when each of them is printable |
| LibraryList.List | asab/library/service.py:372-397 | a recursive listing that asks only the merged providers equals, in items and order, the one that asks every provider at every level; every name is there once, and the walk ends; the order is that of `LibraryOrder.ListingByLevels` |
| LibraryList.ListingIsVisible | asab/library/service.py:377-397 | the names of a recursive listing are exactly those some provider lists in the start directory or in a directory that is itself listed |
| LibraryOrder.ListingByLevels | asab/library/service.py:377-397 | a recursive listing is the level of the start directory followed by the levels of all directories of the listing, in the order in which they are listed |
| LibraryList.NarrowLevelIsFull | asab/library/service.py:393-395 | the providers a directory carries are enough to list it |
| LibraryList.NarrowLevelMisses | asab/library/service.py:393-395 | whatever the providers do, a narrowed level misses exactly the names that only providers without the directory list |
| LibraryList.LevelFaithful | asab/library/service.py:399-455 | a level has every listed name once, and a directory carries exactly its listers, in order |
| LibraryOrder.LevelInOrder | asab/library/service.py:411-455 | a level comes in the order of merging: by the first provider asked that lists the name and by the first such entry of its list; each item is made of that entry, with its kind and its provider first, and has its layers first and those of all other entries of the name |
| LibraryOrder.SingleProviderKeepsOrder | asab/library/service.py:449-455 | the names of a single provider come as it lists them |
| LibraryOrder.AddMissingInOrder | asab/library/service.py:443-447 | layers are added one after another, each once |
| LibraryOrder.ListersInOrder | asab/library/service.py:437-441 | the listers of a name come in the order in which the providers are asked |
| LibraryList.ListLevel | asab/library/service.py:411-455 | the nested loops merge the providers' entries in order; what that order is says `LibraryOrder.LevelInOrder` |
| LibraryList.MergeEntry | asab/library/service.py:434-452 | one entry is merged into the item of its name or appended; the order and the contents that come of it are in `LibraryOrder.LevelInOrder` |
| LibraryList.OnlyContributorsMatter | asab/library/service.py:418-423 | providers without content in a directory do not change its level |
| LibraryList.ContributorsAreListers | asab/library/service.py:437-441 | whoever has content in a directory is among those that list it in its parent |
| LibraryDisabled.QuietDiffMeansSameAnswers | asab/library/service.py:643-711 | after a quiet diff the answers at and below the path are the same exactly when the ancestor folders say the same or the path's own folder rule disables everything |
| LibraryDisabled.UnchangedAncestors | asab/library/service.py:643-691 | a quiet diff with unchanged ancestor rules means the same answers, for global, one-tenant and all-tenants targets |
| LibraryDisabled.AncestorChangeIsMissed | asab/library/service.py:650-652 | disabling an ancestor folder turns every item below disabled without a report |
| LibraryDisabled.CheckDisabled | asab/library/service.py:757-783 | an item is disabled exactly when a containing folder's rule or its own rule hits the asker |
| LibraryDisabled.DisabledByEntriesExactly | asab/library/service.py:598-606 | what the entries of the file mean: one that ends in a slash disables everything below it, any other its item, for the tenants it lists or with "*" for everybody |
| LibraryDisabled.SplitAtSub | asab/library/service.py:757-766 | below a path an answer comes from a proper ancestor, from a folder in between, or from the item |
| LibraryDisabled.AnyConcerns | asab/library/service.py:651-669 | the loop over the union of keys finds a concerning rule exactly when there is one |
| LibraryDisabled.ConcernsExactly | asab/library/service.py:643-711 | a changed rule is reported exactly when an asker of the subscription can see the change; for all tenants also when a rule that disables for everybody before and after changed its tenants |
| LibraryDisabled.IsDisabledDiffAffectingPath | asab/library/service.py:643-691 | true exactly when a file rule or a folder rule at or below the path changed in a way that concerns the target |
| LibraryDisabled.LibraryService.ReadDisabled | asab/library/service.py:556-615 | the new rules are those of the file; the affected subscriptions are told, except after an empty or broken file |
| LibraryDisabled.LibraryService.ReadEntries | asab/library/service.py:598-606 | the entries split into file rules and folder rules with nothing lost or added |
| LibraryDisabled.LibraryService.PublishChange | asab/library/service.py:617-641 | exactly the subscribed paths that the diff affects are published, in order |
| LibraryDisabled.UnruledItem | asab/library/service.py:643-649 | below every path there is an item that no rule below the path mentions |
| LibraryDisabled.UntoldSeeNoChange | asab/library/service.py:617-641 | whoever is not told sees the same answers, as long as ancestor folders say the same |
| LibraryDisabled.SameAnswersExactly | asab/library/service.py:757-783 | for any two sets of rules the answers at and below a path are the same exactly when a folder rule from the path up disables everything in both, or in neither and the rules below cover each other |
| LibraryDisabled.UntoldSeeSameExactly | asab/library/service.py:556-641 | for every kind of file and of reading, exactly when a subscription that was told nothing sees the same answers |
| LibraryDisabled.SilentDropExactly | asab/library/service.py:556-597 | after an empty or broken file nobody is told, and the answers are the same exactly when no rule disabled anything at or below the path |
| LibraryDisabled.SilentDropHappens | asab/library/service.py:556-597 | an empty file enables again what a folder rule disabled for a subscriber, without a word |
| LibraryDisabled.AffectedAreTold | asab/library/service.py:634-641 | every subscription the diff affects is told |
| LibraryDisabled.ToldAreAffected | asab/library/service.py:634-641 | and no other |
| LibraryDisabled.AffectedInOrder | asab/library/service.py:634-641 | affected subscriptions are told once each, in order |
| LibraryReady.EdgesAlternate | asab/library/service.py:207-232 | ready! and not_ready! alternate starting with ready, the library is never taken for ready while a provider is not, and with no call in flight the status and the event are the present status |
| LibraryReady.SingleProviderReadsFirst | asab/library/service.py:216-218 | with one provider the rules are read before the library is ready |
| LibraryReady.RulesComeFirstExactly | asab/library/service.py:216-226 | in every interleaving the rules are read before the library is ready exactly when there is one provider |
| LibraryReady.ReadyBeforeRulesHappens | asab/library/service.py:216-226 | with any number of providers from two on, ready! can come while the rules are still being read |
| LibraryReady.EdgeCatchesUp | asab/library/service.py:220-232 | after the edge comparison, status and event are the present status and the edges still alternate |
| LibraryReady.StatusCallCatchesUp | asab/library/service.py:207-232 | a status call leaves status and event at the present status and publishes the change, unless the first provider turns ready |
| LibraryReady.LibraryService.SetReady | asab/library/providers/abc.py:45-47 | a status call sets the provider's flag and publishes the edge, or goes on to read the rules |
| LibraryReady.LibraryService.IsReady | asab/library/service.py:177-187 | ready exactly when there are providers and all are ready |
| LibraryReady.LibraryService.PublishEdge | asab/library/service.py:220-232 | publishes and remembers exactly the edges |
| Schema.ReadSchema | asab/library/schema.py:29-139 | an effective schema exists exactly for a valid base; all but its fields is the base, and the fields are the merge of the extension items |
| Schema.FoldedIsMerge | asab/library/schema.py:85-137 | merging in name order keeps base fields and gives every other field the definition of the smallest-named item that has it |
| Schema.MergeIgnoresOrder | asab/library/schema.py:77-83 | the merge does not depend on the order of the listing |
| Schema.MergeExtensions | asab/library/schema.py:85-137 | the loop skips exactly disabled, unreadable and invalid extensions |
| Schema.ContributionExactly | asab/library/schema.py:85-137 | an item contributes a definition exactly when it is enabled and is read as a mapping of the type `lmio/schema-extension` whose `fields` has it |
| Schema.AddFields | asab/library/schema.py:126-137 | fields that are there already are kept, all others are added |
| Schema.ExtensionItems | asab/library/schema.py:72-83 | the candidates in ascending order of their names |
| Schema.ExtensionNames | asab/library/schema.py:228-246 | extensions are exactly the items called `<schema>-<something>.yaml` |
| Schema.BaseTypeExactly | asab/library/schema.py:211-225 | a base schema says that it is `lmio/schema` or `lmio/schema/` with a name |
| Schema.ValidBaseExactly | asab/library/schema.py:141-161 | a valid base is a mapping of that type with a mapping under `fields` |
| Schema.BaseNameFollowsSlash | asab/library/schema.py:228-246 | the base name of an item is what follows its last slash |
| Schema.OrderIsTotal | asab/library/schema.py:77-83 | names are totally ordered |
| Schema.OrderIsLexicographic | asab/library/schema.py:72-83 | names are ordered by their first difference, ascending |
| DynamicCounter.Conservation | asab/metrics/metrics.py:426-493 | without initial values and with flushes at most the expiration apart, every amount added or subtracted is in exactly one flushed `values` or still in `actuals` |
| DynamicCounter.Ledger | asab/metrics/metrics.py:426-493 | for a counter that resets, without any assumption on time: what was added, with the initial amounts of its fields, is what was flushed, dropped with an expired field, or is pending |
| DynamicCounter.TimelyDropsNothing | asab/metrics/metrics.py:477-481 | timely flushes drop nothing unflushed |
| DynamicCounter.DroppedExactly | asab/metrics/metrics.py:477-481 | without initial values, after every run a flush drops for a set of tags exactly what was added since the last flush, if the latest such addition is older than the expiration, and nothing otherwise |
| DynamicCounter.DroppedWithInitialExactly | asab/metrics/metrics.py:477-481 | with any initial values, after every run a flush of a counter that resets drops exactly the fields not touched for longer than the expiration, with their initial amount and what was added since the last flush |
| DynamicCounter.LateFlushLoses | asab/metrics/metrics.py:477-481 | a flush later than the expiration drops what was added |
| DynamicCounter.RunKeepsTagsDistinct | asab/metrics/metrics.py:395-408 | there is one field per set of tags, over every run |
| DynamicCounter.StaticTagsWin | asab/metrics/metrics.py:395-400 | a field has the static tags as they are, and dynamic tags under the other keys |
| DynamicCounter.AddMovesPending | asab/metrics/metrics.py:426-475 | an addition changes what is pending for its tags and name by its amount, and by the initial amount if it makes the field, and nothing else |
| DynamicCounter.AddKeepsPublished | asab/metrics/metrics.py:413-450 | an addition publishes nothing; a field that it makes starts with the initial amounts |
| DynamicCounter.FlushMovesPending | asab/metrics/metrics.py:477-493 | what is pending is published, or dropped with an expired field; then a field has its initial amount pending if the counter resets, and what it had otherwise |
| DynamicCounter.PublishesRunningTotal | asab/metrics/metrics.py:477-493 | a counter that does not reset publishes, whatever the times, the initial amount and all that was added since the field was made, until the field expires |
| DynamicCounter.CounterWithDynamicTags.LocateField | asab/metrics/metrics.py:395-408 | finds the field of the tags or appends a blank one |
| DynamicCounter.CounterWithDynamicTags.Add | asab/metrics/metrics.py:426-450 | adds to one field, puts its expiry off, leaves the others |
| DynamicCounter.CounterWithDynamicTags.Sub | asab/metrics/metrics.py:452-475 | the same with the opposite sign |
| DynamicCounter.CounterWithDynamicTags.RemoveEqual | asab/metrics/metrics.py:479-481 | removal by equality takes exactly the field meant |
| DynamicCounter.CounterWithDynamicTags.DropExpired | asab/metrics/metrics.py:478-481 | the loop over the reversed copy leaves exactly the live fields, in order |
| DynamicCounter.CounterWithDynamicTags.Flush | asab/metrics/metrics.py:477-493 | publishes the amounts of the live fields and resets them if asked to |
| Histogram.HistogramMetric.Set | asab/metrics/metrics.py:358-378 | the live histogram becomes that of the log with one more value, and nothing published changes |
| Histogram.HistogramMetric.Flush | asab/metrics/metrics.py:347-356 | publishes the live histogram; with reset a fresh copy of the initial one takes its place |
| Histogram.HistogramMetric.constructor | asab/metrics/metrics.py:329-345 | live, published and initial histograms share no dictionary |
| Histogram.InitHistogram | asab/metrics/metrics.py:319-334 | every initial value is counted once in its buckets |
| Histogram.Hist.Record | asab/metrics/metrics.py:365-378 | one value goes into exactly the buckets whose bound it does not exceed, into the sum and into the count |
| Histogram.Hist.DeepCopy | asab/metrics/metrics.py:347-356 | equal contents in new dictionaries |
| Histogram.MakeBounds | asab/metrics/metrics.py:305-319 | increasing bounds that end in infinity, or an error exactly for unsorted or too few buckets |
| Histogram.BelowExactly | asab/metrics/metrics.py:305-319 | bounds are ordered as numbers, with infinity last |
| Histogram.WithoutRepeats | asab/metrics/metrics.py:319-319 | a dictionary filled from sorted bounds has each of them once, in increasing order |
| Histogram.BucketCounts | asab/metrics/metrics.py:370-375 | a bucket holds, per name, the number of recorded values at or below its bound |
| Histogram.BucketsAreCumulative | asab/metrics/metrics.py:358-378 | counts never decrease with the bound |
| Histogram.InfinityBucketIsCount | asab/metrics/metrics.py:376-378 | the infinity bucket summed over the names is the count, which is the number of recorded values |
| Histogram.SumAdds | asab/metrics/metrics.py:376-377 | the sum is made of the recorded values |
| Advertise.RecordedNodesAreCurrent | asab/zookeeper/container.py:252-304 | a node that still has the recorded version holds the latest data, unless `advertise` is half way or came between a write and its recording; the exact condition is the next row |
| Advertise.GoneIsCreated | asab/zookeeper/container.py:265-279 | a node found gone by `exists` or by `set` is made anew in the same pass, and the change is outstanding until then |
| AdvertiseRuns.StaleByDivisionExactly | asab/zookeeper/container.py:232-304 | over every run, unless `advertise` is half way, such a node holds old data exactly when the data changed between the latest write and its recording |
| AdvertiseRuns.StaleExactly | asab/zookeeper/container.py:267-273 | a node of the recorded version is stale exactly when that version was written with other data |
| AdvertiseRuns.RecordMakesStaleExactly | asab/zookeeper/container.py:271-279 | a recording leaves its node stale exactly when the node still has the version sent and the data has changed since |
| Advertise.UndividedStaysCurrent | asab/zookeeper/container.py:270-279 | over every run in which no `advertise` finishes between a write and its recording, a node that still has the recorded version holds the latest data unless its `advertise` is half way; a case of `AdvertiseRuns.StaleByDivisionExactly` |
| Advertise.LeavesSettled | asab/zookeeper/container.py:289-296 | when the loop leaves because nothing is outstanding, every advertisement has a path and a version |
| Advertise.AtMostElevenPasses | asab/zookeeper/container.py:261-287 | a pass starts only when at most ten are behind |
| AdvertiseRuns.AtMostElevenPassesPerRun | asab/zookeeper/container.py:261-287 | from one taking of the lock to the next the loop lists the nodes at most eleven times, whatever happens meanwhile |
| AdvertiseRuns.ElevenPassesHappen | asab/zookeeper/container.py:261-296 | a run that makes eleven passes and leaves with a change outstanding |
| Advertise.StaleUntilDisturbed | asab/zookeeper/container.py:267-271 | a stale node stays stale over every run until something outside concerns it |
| Advertise.TornRecordingHappens | asab/zookeeper/container.py:232-249 | a run that ends with stale data, nothing scheduled and nothing running |
| Advertise.LostWakeupHappens | asab/zookeeper/container.py:256-257 | a run that ends with a change outstanding, nothing scheduled and nothing running |
| AdvertiseRuns.ForgottenExactly | asab/zookeeper/container.py:252-304 | over every run a change is left with nothing to see to it exactly when a step dropped the last hope and neither an `advertise` nor a tick came since |
| AdvertiseRuns.ForgottenByStepExactly | asab/zookeeper/container.py:252-304 | which steps drop the last hope: the last skipped publisher when nobody will check again, an error, a lost connection, the eleventh pass |
| AdvertiseRuns.SmoothRunsSettle | asab/zookeeper/container.py:289-296 | a run without such steps that comes to rest has nothing outstanding |
| AdvertiseRuns.FailedCreateForgetsHappens | asab/zookeeper/container.py:298-304 | a run in which a failing call leaves a change with nothing scheduled |
| Advertise.RunKeepsInv | asab/zookeeper/container.py:232-304 | every run of steps keeps the invariant |
| Advertise.ZooKeeperContainer.PublishOne | asab/zookeeper/container.py:265-279 | publishes one advertisement: leaves a node of the recorded version alone, overwrites another version, creates a missing node, and touches no other advertisement |
| Advertise.ZooKeeperContainer.PublishPass | asab/zookeeper/container.py:261-296 | an undisturbed pass repairs foreign writes and vanished nodes and leaves nothing outstanding |
| AdvertiseRuns.UndisturbedPassRepairs | asab/zookeeper/container.py:261-279 | the same of the state machine: every undisturbed run of steps from the list to the last recording publishes every advertisement, with its data unless it was stale before |
| Housekeeping.EveryDayOnce | asab/application.py:794-819 | for any tick times the days are settled in order, each once and after its opening, executed exactly within its window; the window keeps its length and the id guard rejects nothing the window accepts; the id is that of the present window, or of the start before the first one is settled |
| Housekeeping.OnePublishPerWindow | asab/application.py:802-805 | a publish falls into its own window and no other |
| Housekeeping.CatchesUp | asab/application.py:802-819 | every tick after a day has opened settles one more day until that day is settled |
| Housekeeping.IdsGrow | asab/application.py:829-836 | the YYYYMMDD ids grow with every day |
| Housekeeping.IdsFollowTime | asab/application.py:829-836 | ids never decrease with time and tell exactly the days apart |
| Housekeeping.CalendarIsGregorian | asab/application.py:829-836 | the days are numbered as in the Gregorian calendar: 365 to a year, a leap day every fourth year but for centuries not divisible by 400, the usual months |
| Housekeeping.IdDigits | asab/application.py:829-836 | the digits of an id are year, month and day |
| Housekeeping.FirstWindow | asab/application.py:770-786 | the first window opens at the first configured time from now on, is shorter than a day and closes at the configured limit |
| Housekeeping.InitializeHousekeepingSchedule | asab/application.py:759-792 | computes that window |
| Housekeeping.EmptyWindowNeverRuns | asab/application.py:780-786 | with equal time and limit every day is missed |
| Housekeeping.MissedIsTheTicksDay | asab/application.py:806-815 | over every run the missed list holds, for each missed day, the day of the tick that settled it, which is the missed day exactly when the tick falls on it |
| Housekeeping.MissedIdsExactly | asab/application.py:806-815 | the missed list has the day of each tick that settled a missed day, in order |
| Housekeeping.WrongDayIsRecordedHappens | asab/application.py:806-815 | a tick two days late records its own day, whatever the configuration |
| Housekeeping.Application.OnHousekeepingTick | asab/application.py:794-819 | one tick is one step of the schedule |

## Left out

- Leader: the texts of the leader data, for which the number of the instance stands; `published` is the order of the publish calls; delivery through the event loop, the watch that starts elections and `ensure_path` are not modelled.
- LeaderService: the fields of an instance are kept in one record; the ZooKeeper client, the other instances and the sessions are part of the state that interference may change.
- LeaderService.LeaderService.SetUpThread: does not promise that the instance ends participating when a step-down takes the lock between the two critical sections, because the source then leaves it out of the election.
- Discovery: JSON parsing of records, the URL texts of `locate`, and keeping the table equal to ZooKeeper (a scan fetched before a watch event may be swapped in after it).
- Includes: include lines are lists of patterns and the disk says what a pattern names; ZooKeeper includes, globbing, environment expansion and interpolation are parameters or absent.
- DirSync: symbolic links, permissions, times, overlapping trees, a target root that is a file below another name, and deletions that fail half way.
- Influx: number and timestamp formatting; values of other types, which raise.
- LibraryList: `disabled` and `favorite` marks of items, failing providers (they list nothing), path validation.
- LibraryDisabled: the length order of folder rules (no answer depends on it), favorites, personal targets, rules whose entry is null or a plain text.
- LibraryReady: a provider list that shrinks while the application stops.
- Schema: `_schema_path`; the schema's name and the readings of its files are parameters.
- DynamicCounter: `measured_at`.
- Histogram: `measured_at`, floating point and NaN (values are reals), and the variant with dynamic tags, which combines it with the fields of DynamicCounter.
- Advertise: sleeping between passes and the non-atomic reading of the final check.
- Housekeeping: the publish at startup and the log messages.
- Web server, JSON web tokens, logging, Sentry, other storages and metrics targets: they wrap libraries and transports and keep no state of the kind modelled here.
