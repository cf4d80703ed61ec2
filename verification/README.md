# Resource managers: a verified model

Five resource managers keep an external inventory in step with edge nodes. This project models the parts of them
that hold state, against an inventory whose calls may fail, and proves what they keep over every run.

- **Telemetry** (`TelemetryCache`, `TelemetryProtocol`, `TelemetryGroups`, `TelemetryLateCreation`,
  `TelemetryConfig`): a profile cache with two reverse indexes, updated from events that lag behind the inventory and
  rebuilt from time to time; the configuration merged from the profiles a host inherits.
- **Host hardware** (`Devices`, `DeviceReconciliation`, `HostDevices`, `Nics`, `NicRecovery`, `HostNics`): add or
  update what is reported, remove what is not, one inventory call at a time; interfaces with their addresses.
- **Maintenance** (`UpdateRuns`, `UpdateRunHistory`, `InstanceUpdates`, `Decimals`, `Texts`, `Semver`, `ImageVersions`,
  `LatestOs`, `Schedules`): OS update runs, the status variable that all instances share, version order, schedules.
- **Liveness** (`Heartbeats`, `HeartbeatHistory`, `ConnectionLoss`): heartbeat timers and their checker, and the
  retried handler that marks hosts as disconnected while status reports keep arriving.
- **Tenants** (`Tenants`, `TenantReconciliation`, `TenantHistory`): OS resources, provider, and the acknowledgement
  that comes last.

## How to read it

Code that works step by step is imperative here too: classes with the fields of the source, loops with invariants.
The methods are proved against functions or relations on the values of those fields, and the results are lemmas
about all runs of these, with failing calls at every step. An inventory call may be lost, or take effect and still
return an error. Contracts hold on every exit, so what the contract of a reconciliation says when it fails holds
after each of its calls: any of them may be the one that fails.

Ids of inventory resources are numbers that are never reused. Times are integers; where 64 bits matter they are
modelled, with wrap-around and saturation. Go timers are modelled such that a reset discards an unread firing.
Addresses whose state is set to deleted are dropped by the inventory.

Where a property of the design fails, the exact condition is proved beside an input that shows the failure: late
creation events, the rewritten shared status, failed lookups of open runs, zero-padded builds, an unreadable
first candidate, erased availability, unreadable schedules, stale checks, repeated reports during a loss, and profile
ids that collide.

Where the code and its comments differ the code is followed: a comment expects image versions that differ only in
leading zeros of the last part to be treated as equal, but the padded one is greater.

`dafny verify dfyconfig.toml` checks everything.

## Model

| member | source | states |
|---|---|---|
| `TelemetryProtocol.CacheCatchesUp` | telemetry/internal/invclient/telemetrycache.go:166-253 | In any interleaving of inventory changes, event handling and reloads, with one queued event per change and `Get` failing only for absent keys, a drained queue means that the cache holds exactly the profiles of the inventory, with their own fields; embedded group contents are the subject of the next row |
| `TelemetryGroups.DrainedCacheEqualsInventoryIff` | telemetry/internal/invclient/telemetrycache.go:166-253 | Over all runs, late creations included: the drained cache equals the inventory, embedded group contents included, if and only if every cached profile embeds the group it belongs to; stale contents never hide under the right group |
| `TelemetryGroups.KeyBreaksIff` | telemetry/internal/invclient/telemetrycache.go:225-252 | The exact condition for a step of a run to make a profile without pending events of its own embed a group it does not belong to: it handles an update of another group under which the profile is still listed |
| `TelemetryGroups.PromptCacheEqualsInventory` | telemetry/internal/invclient/telemetrycache.go:225-252 | In runs that handle no creation event of a cached profile with an edge, the drained cache equals the inventory, embedded groups included |
| `TelemetryLateCreation.LateCreationCorruptsGroup` | telemetry/internal/invclient/telemetrycache.go:240-249 | A run of change, reload, late creation event, regrouping and group change that drains its queue and leaves a cached profile with the contents of a group it no longer belongs to |
| `TelemetryLateCreation.LateCreationLeaksConfig` | telemetry/internal/invclient/telemetrycache.go:240-249 | A history of one late creation event after which an instance gets an entry of a profile that belongs to another instance, while nothing belongs to it |
| `TelemetryProtocol.HistoryKeepsComplete` | telemetry/internal/invclient/telemetrycache.go:193-304 | Whatever the order of events, failing lookups and reloads, every cached profile is listed under its group and under each of its relations at least as often as it has that edge |
| `TelemetryProtocol.HistoryKeepsExact` | telemetry/internal/invclient/telemetrycache.go:193-304 | If no creation event meets a cached profile with an edge, every key is listed exactly as often as the cached profile has the edge, and never for a profile that is not cached |
| `TelemetryProtocol.EventKeepsExactIff` | telemetry/internal/invclient/telemetrycache.go:193-253 | The exact condition, one event at a time: an exact index stays exact if and only if the event is not a creation of a cached key whose forgotten old profile had an edge |
| `TelemetryProtocol.EventKeepsComplete` | telemetry/internal/invclient/telemetrycache.go:193-253 | Every event keeps completeness, without any assumption on what is cached |
| `TelemetryProtocol.IncrementalIndexEqualsRebuild` | telemetry/internal/invclient/telemetrycache.go:198-252 | After such a history each index entry is, as a multiset, what a rebuild from the cached profiles produces |
| `TelemetryProtocol.QueryMissesNothing` | telemetry/internal/invclient/telemetrycache.go:266-282 | After any history a query by relation returns every cached profile that points to the relation |
| `TelemetryProtocol.QueryIsExact` | telemetry/internal/invclient/telemetrycache.go:266-282 | With an exact index the query returns exactly the profiles that point to the relation |
| `TelemetryProtocol.ReloadIsFullIff` | telemetry/internal/invclient/telemetrycache.go:315-350 | A reload holds all profiles of the inventory if and only if no page that still holds profiles fails; a failing page silently cuts the listing |
| `TelemetryCaching.TelemetryCache.ReconcileResource` | telemetry/internal/invclient/telemetrycache.go:193-253 | The three maps after an event, as the value whose runs the rows above are about |
| `TelemetryCaching.TelemetryCache.LoadAllTelemetryProfiles` | telemetry/internal/invclient/telemetrycache.go:285-304 | After a reload the cache holds a key if and only if an answer with this key and a resource id stands on a page before the failing one, with the last such answer as its profile; both indexes are exact, for any visiting order of the map |
| `TelemetryCaching.TelemetryCache.ListTelemetryProfileByRelation` | telemetry/internal/invclient/telemetrycache.go:266-282 | The cached profiles listed under the relation, in index order, skipping stale entries, without changing the cache |
| `TelemetryCaching.PresentInOrder` | telemetry/internal/invclient/telemetrycache.go:271-281 | The keys of an index entry are looked up one by one in their order, and a stale one yields nothing |
| `TelemetryCaching.RemoveFromSlice` | telemetry/internal/invclient/telemetrycache.go:352-360 | Removal by moving the last element into the gap; without the target the slice is unchanged |
| `TelemetryCaching.SwapRemovedDropsOne` | telemetry/internal/invclient/telemetrycache.go:352-360 | As a multiset the result lacks one occurrence of the target and nothing else |
| `TelemetryCaching.UpdateResourceIDMap` | telemetry/internal/invclient/telemetrycache.go:373-390 | Moves one listing from the old edge to the new one; empty keys are no edge |
| `TelemetryCaching.UpdateRelationIDMap` | telemetry/internal/invclient/telemetrycache.go:367-371 | The three relation edges of a profile are moved |
| `TelemetryCaching.MovedCount` | telemetry/internal/invclient/telemetrycache.go:373-390 | How often any key is listed anywhere after a move: one less at the old edge, one more at the new one, all else equal, also when both edges are the same |
| `TelemetryCaching.RelationsMovedCount` | telemetry/internal/invclient/telemetrycache.go:367-371 | The same for the three relation edges together, which may coincide |
| `TelemetryCaching.BuildIndexes` | telemetry/internal/invclient/telemetrycache.go:293-303 | The indexes rebuilt from a profile map are exact |
| `TelemetryCaching.ReplaceGroup` | telemetry/internal/invclient/telemetrycache.go:228-238 | The group of exactly the listed cached profiles is replaced |
| `TelemetryCaching.LoadTelemetryProfilesFromInv` | telemetry/internal/invclient/telemetrycache.go:315-350 | Paging keeps what was read before the failing page: a key is there if and only if an answer with this key and a resource id was read, with the last such answer as its value |
| `TelemetryConfig.Deduplicate` | telemetry/internal/telemetrymgrsvc/telemetrymgr_utils.go:54-101 | Sorts in place and merges: the result has strictly increasing keys, one entry for each key of the input and no other, with the maximum severity for logs and the minimum interval otherwise; the input array is permuted, and the jumping outer loop ends |
| `TelemetryConfig.ConfigUnique` | telemetry/internal/telemetrymgrsvc/telemetrymgr_utils.go:54-101 | Any two configurations for one set of resources are equal, so order and repetition of the input never show |
| `TelemetryConfig.ConfigsMerge` | telemetry/internal/telemetrymgrsvc/telemetrymgr_utils.go:54-101 | The configuration of two configurations put together is the configuration of all their resources: D(D(a) ++ D(b)) = D(a ++ b) |
| `TelemetryConfig.ConfigMonotone` | telemetry/internal/telemetrymgrsvc/telemetrymgr_utils.go:54-101 | With more resources an entry keeps its key, and its severity never falls nor its interval rises |
| `TelemetryConfig.GetLastIndex` | telemetry/internal/telemetrymgrsvc/telemetrymgr_utils.go:40-51 | The end of the block of equal keys that starts at an index |
| `TelemetryConfig.MergeBlock` | telemetry/internal/telemetrymgrsvc/telemetrymgr_utils.go:62-94 | The merged entry of a block is attained by one of its resources and at least as strong as all of them |
| `TelemetryConfig.Sort` | telemetry/internal/telemetrymgrsvc/telemetrymgr_utils.go:25-38 | Stands for the library sort: a permutation of the array in key order |
| `TelemetryConfig.KeyOrder` | telemetry/internal/telemetrymgrsvc/telemetrymgr_utils.go:30-38 | The order by group, type and kind is total and asymmetric up to equal keys |
| `TelemetryConfig.KeyTransitive` | telemetry/internal/telemetrymgrsvc/telemetrymgr_utils.go:30-38 | The order by group, type and kind is transitive |
| `TelemetryConfig.ConvertProfileToConfig` | telemetry/internal/telemetrymgrsvc/telemetrymgr.go:130-174 | Every metric of the group of every given profile has an entry with the kind of the profile and the collector of the group, with at least its level for logs and at most its interval otherwise; every entry takes its key and the value that counts from such a profile and metric; the order of the list does not matter |
| `TelemetryConfig.ResourcesAreMetrics` | telemetry/internal/telemetrymgrsvc/telemetrymgr.go:138-152 | A profile asks for one resource per metric of its group, with its kind, level and interval and the collector of the group |
| `TelemetryConfig.HierarchyIsRegionsAndSites` | telemetry/internal/invclient/invclient.go:231-263 | The hierarchy of a host consists of exactly the ids of the regions and of the sites in its tree |
| `TelemetryConfig.HierarchyInOrder` | telemetry/internal/invclient/invclient.go:231-263 | In the order of the tree |
| `TelemetryConfig.InheritedInOrder` | telemetry/internal/invclient/invclient.go:212-229 | Profiles are inherited id by id in the order of the hierarchy |
| `TelemetryConfig.ListTelemetryProfilesByHostAndInstanceID` | telemetry/internal/invclient/invclient.go:212-263 | The profiles of the regions and sites above a host and of its instance; an error if the hierarchy is unavailable |
| `TelemetryConfig.InheritedMember` | telemetry/internal/invclient/invclient.go:219-228 | Which profiles are inherited: those listed for some id of the hierarchy |
| `TelemetryConfig.ConfigIndependentOfListingOrder` | telemetry/internal/invclient/invclient.go:212-229 | The configuration of a host depends only on the cached profiles, on which of them are listed where, and on the set of hierarchy ids: not on the order of index slices, on duplicate or stale entries, or on the order of the hierarchy |
| `TelemetryConfig.HistoryNeverWeakensConfig` | telemetry/internal/invclient/invclient.go:212-229 | After any history of events and reloads, late creations included, each entry of the configuration due to a host is matched by one at least as strong in the configuration it gets |
| `TelemetryConfig.HistoryConfigIsDueIff` | telemetry/internal/invclient/invclient.go:212-229 | The exact condition, after any history: a host gets the configuration of the profiles that belong to it if and only if every resource of a profile that is only still listed for it is covered by that configuration anyway |
| `TelemetryConfig.PromptHistoryGivesDueConfig` | telemetry/internal/invclient/invclient.go:212-229 | After any history without late creations a host gets exactly the configuration of the profiles that belong to it |
| `TelemetryConfig.ConfigIndependentOfHistory` | telemetry/internal/invclient/invclient.go:212-229 | Two histories without late creations that end with the same cached profiles give a host the same configuration, in whatever order they left the index slices and for whatever order of the hierarchy |
| `DeviceReconciliation.Reconcile` | host/pkg/hostmgr/southbound_handler.go:103-133 | Wherever it stops, other hosts are untouched, ids are fresh and only steps towards the report were taken; on success the keys are exactly the reported ones and under distinct keys so are the masked fields; duplicates arise if and only if a new key is reported twice; a matching store is not written to; if no call fails and the report translates, it succeeds |
| `Devices.InterruptedEqualsUninterrupted` | host/pkg/hostmgr/southbound_handler.go:103-133 | However many attempts stop at a failing call, a final successful one leaves the store that one uninterrupted run leaves, up to the ids of new devices |
| `Devices.Resume` | host/pkg/hostmgr/southbound_handler.go:103-133 | A stopped run followed by another one does no more than a single run may: ids and unmasked fields of surviving devices are kept, reported devices are never removed |
| `Devices.AttemptsAddUp` | host/pkg/hostmgr/southbound_handler.go:103-133 | The same for any number of attempts |
| `DeviceReconciliation.AddOrUpdate` | host/pkg/hostmgr/southbound_handler.go:64-88 | One reported device: found in the snapshot it is updated in place only if masked fields differ, else created; other devices stay, a matching one costs no write |
| `DeviceReconciliation.AddOrUpdateAll` | host/pkg/hostmgr/southbound_handler.go:113-124 | The first loop: never removes a device, and on success every reported key has a device with the reported masked fields if keys are distinct |
| `DeviceReconciliation.RemoveUnreported` | host/pkg/hostmgr/southbound_handler.go:125-132 | The second loop removes the unreported devices of the snapshot and nothing else |
| `DeviceReconciliation.FindInList` | host/pkg/hostmgr/southbound_handler.go:50-59 | A device with the key is found if and only if there is one |
| `Devices.Inventory.Create` | host/pkg/invclient/invclient.go:369-390 | A created resource has a fresh id, known to the caller only on success; a failing call may still have taken effect |
| `Devices.Inventory.Update` | host/pkg/invclient/invclient.go:146-189 | Only the masked fields of the named resource change |
| `Devices.Inventory.Delete` | host/pkg/invclient/invclient.go:412-430 | Deleting what is gone counts as success |
| `HostDevices.UpdateHoststorage` | host/pkg/hostmgr/southbound_handler.go:103-133 | On success, under distinct names, each reported disk has a row under its name with its own WWID, serial number, vendor, model and size and no kind, and each row of the host is such a disk; missing disk messages are rejected |
| `HostDevices.UpdateHostusbs` | host/pkg/hostmgr/southbound_handler.go:364-394 | USB devices are told apart by bus and address together; on success each has a row with its own vendor, product, class, description and serial number and no kind, and there are no other rows |
| `HostDevices.UpdateHostgpus` | host/pkg/hostmgr/southbound_handler.go:444-473 | GPUs are told apart by PCI identifier, and a report with an empty one never succeeds; on success each has a row with its own product, vendor, description, name and comma-separated features, and there are no other rows |
| `HostDevices.GpuResource` | host/pkg/utils/utils.go:157-187 | Exactly the GPUs with a PCI identifier translate, under that key |
| `HostNics.UpdateHostNetwork` | host/pkg/utils/utils.go:365-432 | On success, under distinct names and addresses, each reported interface has a row field by field as reported, and below it each reported address has a row under its prefix notation with its configuration method, and there are no other rows |
| `HostNics.AddressResource` | host/pkg/utils/utils.go:401-432 | Exactly the addresses that read as a prefix translate, under their prefix notation |
| `Nics.UpdateHostnics` | host/pkg/hostmgr/southbound_handler.go:193-223 | At whatever call it stops, every address belongs to an existing interface; other hosts and their addresses are untouched; on success the interface names are the reported ones and under distinct names and addresses interfaces and addresses are as reported; a matching store is not written to; if no call fails it succeeds |
| `Nics.UpdateIPAddresses` | host/pkg/hostmgr/southbound_handler.go:276-308 | The addresses of one interface against a fresh listing: exact on success, only steps towards the report otherwise |
| `Nics.ReconcileNic` | host/pkg/hostmgr/southbound_handler.go:148-174 | Addresses are written only after the interface has its id; links hold also if a call fails in between |
| `Nics.RemoveNicIfUnreported` | host/pkg/hostmgr/southbound_handler.go:177-190 | An interface is deleted only after all its addresses are gone |
| `Nics.AddOrUpdateNics` | host/pkg/hostmgr/southbound_handler.go:203-214 | The first loop over interfaces, with their addresses |
| `Nics.RemoveUnreportedNics` | host/pkg/hostmgr/southbound_handler.go:215-222 | The second loop removes the unreported interfaces with their addresses and nothing else |
| `NicRecovery.InterruptedEqualsUninterruptedNics` | host/pkg/hostmgr/southbound_handler.go:193-223 | Reconciliations of interfaces and addresses that stop anywhere and are repeated to success leave what one uninterrupted run leaves, interfaces and addresses, up to the ids of what is new |
| `NicRecovery.NicsResume` | host/pkg/hostmgr/southbound_handler.go:148-190 | Two attempts in a row do no more to interfaces, their addresses and other hosts than one may |
| `UpdateRunHistory.RunsNeverOverlap` | maintenance/pkg/maintmgr/southbound_handler.go:294-361 | Over every sequence of reports of any instances, with a clock below the end-time sentinel and lookups that miss only what is absent, an instance has at most one open run and its runs follow one another in time; intact or rewritten shared status makes no difference |
| `UpdateRunHistory.SecondOpenRunIff` | maintenance/pkg/maintmgr/southbound_handler.go:321-339 | A second open run appears if and only if a lookup failed although a run was open, the report opens runs and the creation took effect |
| `UpdateRunHistory.FailedLookupDoublesRun` | maintenance/pkg/maintmgr/southbound_handler.go:326-350 | A history in which a start is repeated while the lookup of the open run fails, and the instance ends with two open runs |
| `UpdateRunHistory.HistoryExtends` | maintenance/pkg/invclient/invclient.go:484-542 | Runs are never lost, keep instance and start time, and a closed run never changes or reopens |
| `UpdateRunHistory.EndTimeMarksCompletion` | maintenance/pkg/invclient/invclient.go:520-524 | In every history a run has an end time other than the sentinel if and only if its status is completed or failed |
| `UpdateRunHistory.ReportClosesIff` | maintenance/pkg/maintmgr/southbound_handler.go:439-471 | A stored report closes the open run if and only if it says failed, or it says updated while the shared status is intact and is not itself the one that rewrites it |
| `UpdateRunHistory.SharedStatusIntactIff` | maintenance/pkg/utils/utils.go:251-261 | The shared done status is intact if and only if no updated report of a mutable OS with a valid, non-empty detail ever met an open run |
| `UpdateRunHistory.NothingCompletesAfterRewrite` | maintenance/pkg/utils/utils.go:258-260 | Once the shared status is rewritten no run of any instance that is open then or opened later ever becomes completed |
| `UpdateRunHistory.UpdatedRunStaysOpen` | maintenance/pkg/utils/utils.go:258-260 | A history in which a mutable OS reports an update, its run stays open, and so does the run of another instance that reports an update without detail |
| `UpdateRunHistory.RepeatIsQuiet` | maintenance/pkg/maintmgr/southbound_handler.go:294-361 | In every history, handling the report that was stored last a second time, at any time and whatever write fails then, changes nothing; this holds after the shared status was rewritten too |
| `UpdateRunHistory.HandledTwiceAsOnce` | maintenance/pkg/maintmgr/southbound_handler.go:294-361 | The same for any state with the invariants of histories |
| `UpdateRuns.OnlyUpdatedIsDone` | maintenance/pkg/utils/utils.go:251-271 | Comparing status values finds the shared variable exactly for updated reports, however often it was rewritten |
| `UpdateRuns.RunStore.HandleOSUpdateRun` | maintenance/pkg/maintmgr/southbound_handler.go:294-361 | One step of the histories above: the lookup gives a latest open run, fails only as told, and the runs and the shared status become what the step says |
| `UpdateRuns.ReportOpensIff` | maintenance/pkg/maintmgr/southbound_handler.go:332-343 | Without an open run a report changes the store if and only if it says downloading or started, the clock is not negative and the write is not lost; then it adds one open run of the instance that starts now, with the text and indication of the report and its details |
| `UpdateRuns.ReportMovesRun` | maintenance/pkg/maintmgr/southbound_handler.go:439-471 | A report stored for an open run sets text, indication and time stamp as it says, keeps or sets the details, ends the run now if it is completed or failed, and touches nothing else; a run is left as it is only if it shows the status already or the report does not concern runs |
| `UpdateRuns.UnmovedStays` | maintenance/pkg/maintmgr/southbound_handler.go:349-360 | Conversely a report that a run shows already changes neither the run nor the shared status |
| `UpdateRuns.ReportRewritesIff` | maintenance/pkg/utils/utils.go:251-261 | The shared status is rewritten if and only if an updated report of a mutable OS with a well-formed, non-empty detail meets an open run that does not show it yet, also when the write to the run is lost |
| `UpdateRuns.StatusSays` | maintenance/pkg/utils/utils.go:200-227 | The text and the indication that each kind of report stands for |
| `UpdateRuns.RewrittenText` | maintenance/pkg/utils/utils.go:258-260 | The rewritten text tells the number of packages in decimal |
| `UpdateRuns.ContainsIff` | maintenance/pkg/utils/utils.go:184-198 | A status text is contained in another if and only if that one is it between some front and some back |
| `UpdateRuns.RunStore.GetLatestUncompleted` | maintenance/pkg/invclient/invclient.go:545-600 | An open run of the instance with the latest start, none if and only if there is none or the lookup fails |
| `UpdateRuns.RunStore.GetUpdateStatusDetailIfNeeded` | maintenance/pkg/utils/utils.go:243-273 | Which details are stored, and that the shared status itself is rewritten for valid details of mutable systems |
| `UpdateRuns.RunStore.UpdateOSUpdateRun` | maintenance/pkg/invclient/invclient.go:484-542 | The moved run, with the end time decided after the shared status may have been rewritten; a negative clock or a lost write changes no run |
| `UpdateRuns.RunStore.CreateOSUpdateRun` | maintenance/pkg/maintmgr/southbound_handler.go:370-437 | The new run starts now, is open, and has a fresh id; all other runs stay |
| `InstanceUpdates.SystemRunsNeverOverlap` | maintenance/pkg/maintmgr/southbound_handler.go:126-173 | The non-overlap of runs for the whole handler, in which a report reaches the runs only after the instance needed and got an update |
| `InstanceUpdates.RunsGoThroughHistory` | maintenance/pkg/maintmgr/southbound_handler.go:126-173 | However instances are updated and whatever fails, the update runs go through a history of handled reports with a monotone clock |
| `InstanceUpdates.AvailabilityErasedIff` | maintenance/pkg/maintmgr/southbound_handler.go:67-77 | For a mutable instance the stored availability differs from the reported one after handling if and only if the status changed while a non-empty availability did not: then it is overwritten with the empty string |
| `InstanceUpdates.StartErasesAvailability` | maintenance/pkg/maintmgr/southbound_handler.go:67-77 | A run of one message: a mutable instance that reports its start together with the package it already showed as available shows nothing as available afterwards |
| `InstanceUpdates.RepeatReachesRunIff` | maintenance/pkg/maintmgr/southbound_handler.go:144-172 | A repeated report of a mutable instance reaches its run again if and only if the first one erased the availability or it says updated and the shared status has grown; otherwise a lost write to the run is never made up for |
| `InstanceUpdates.ThirdRepeatIsQuiet` | maintenance/pkg/maintmgr/southbound_handler.go:126-173 | The second of equal reports restores the availability, and from the third on nothing is written |
| `InstanceUpdates.MaintenanceManager.UpdateInventory` | maintenance/pkg/maintmgr/southbound_handler.go:126-173 | One step of the whole handler, as used in the rows above: the instance after the plan, and the runs only if the instance write succeeded |
| `InstanceUpdates.MaintenanceManager.BuildInstanceUpdatePlan` | maintenance/pkg/maintmgr/southbound_handler.go:86-124 | The plan: OS and vulnerabilities only when the status changes, the availability always evaluated, errors of either give none |
| `InstanceUpdates.MaintenanceManager.GetNewOSResourceIfNeeded` | maintenance/pkg/maintmgr/southbound_handler.go:238-292 | Only an updated immutable instance looks for a new OS, and it gets one if and only if profile and image are named, the profile is its own, the image is another one, and the inventory has an OS with another id for it; everything else is an error |
| `InstanceUpdates.WritesIff` | maintenance/pkg/maintmgr/southbound_handler.go:126-173 | When an instance is written at all: nothing needed failed, and its status or its availability calls for it; and when the message then reaches the update run |
| `InstanceUpdates.OsAfterMessage` | maintenance/pkg/maintmgr/southbound_handler.go:238-292 | The status is stored with its time; the OS changes only to the one found for the named image, and only when the status changes |
| `InstanceUpdates.CvesAfterMessage` | maintenance/pkg/maintmgr/southbound_handler.go:474-503 | The vulnerabilities become those of the new OS, or those of the present one when an unspecified status becomes idle, and otherwise stay |
| `InstanceUpdates.AvailableAfterMessage` | maintenance/pkg/maintmgr/southbound_handler.go:50-84 | What is stored as available for immutable, mutable and other systems |
| `InstanceUpdates.MaintenanceManager.UpdateInstance` | maintenance/pkg/invclient/invclient.go:242-301 | Status and availability are always written, OS and vulnerabilities only when planned |
| `ImageVersions.GreaterIsStrictWeakOrder` | maintenance/pkg/utils/utils.go:354-378 | On comparable versions the comparison is irreflexive, asymmetric, transitive and negatively transitive, and two versions are unordered if and only if they read as the same version |
| `ImageVersions.EncodingKeepsBuildOrder` | maintenance/pkg/utils/utils.go:320-349 | For two versions of four numerals whose last parts are both unpadded, or both padded to one width, comparison is the lexicographic order of the four numbers |
| `ImageVersions.PaddedIsAboveUnpadded` | maintenance/pkg/utils/utils.go:332-342 | With equal cores a zero-padded last part ranks above every unpadded one |
| `ImageVersions.SameWidthOrderIff` | maintenance/pkg/utils/utils.go:332-342 | For last parts of one width comparison agrees with the numbers, in both directions, if and only if both or neither are padded |
| `ImageVersions.LastPartsOrderIff` | maintenance/pkg/utils/utils.go:332-342 | For last parts of any widths comparison agrees with the numbers, in both directions, if and only if neither part is padded, or both are and their characters order them as their values do, or one is and it is the larger |
| `ImageVersions.NarrowPaddedOutranksWide` | maintenance/pkg/utils/utils.go:332-342 | 3.0.20250717.09 compares greater than 3.0.20250717.010 |
| `ImageVersions.MorningBuildOutranksLater` | maintenance/pkg/utils/utils.go:332-342 | 3.0.20250717.0732 compares greater than 3.0.20250717.1000 |
| `ImageVersions.PaddedZeroOutranksZero` | maintenance/pkg/utils/utils_test.go:926-932 | 3.0.20250717.0000 compares greater than 3.0.20250717.0, so they are not treated as equal, which a comment of the repository expects |
| `ImageVersions.BuildVersion` | maintenance/pkg/utils/utils.go:312-350 | A version of four numerals reads as three numbers and one pre-release identifier |
| `ImageVersions.ImageVersion` | maintenance/pkg/utils/utils.go:312-350 | A version of three numerals and any number of further identifiers reads as three numbers and these identifiers, padded ones prefixed, as its pre-release |
| `ImageVersions.ShortImageIsAboveLonger` | maintenance/pkg/utils/utils.go:346-377 | An image version of three parts is greater than every longer one with the same three, and not conversely |
| `ImageVersions.ReleaseOutranksBuild` | maintenance/pkg/utils/utils.go:346-377 | 3.0.20250717 compares greater than 3.0.20250717.0732 |
| `ImageVersions.BuildText` | maintenance/pkg/utils/utils.go:312-350 | The converted text: the core, a dash, and the last part, with the word build before it if it has a leading zero |
| `ImageVersions.AtoiReads` | maintenance/pkg/utils/utils.go:322-328 | A core segment is an optional sign and digits within 64 bits |
| `ImageVersions.NotComparable` | maintenance/pkg/utils/utils.go:312-328 | Fewer than three parts, or a core segment that is no integer, make a version incomparable |
| `ImageVersions.LastParts` | maintenance/pkg/utils/utils.go:332-342 | How last parts compare: unpadded by value, padded by character, padded above unpadded |
| `ImageVersions.ConvertToComparableSemVer` | maintenance/pkg/utils/utils.go:312-350 | The loops over core and pre-release parts compute the conversion, with its error cases, that the rows above are about |
| `Semver.StrictTotalOrder` | maintenance/pkg/utils/utils.go:377-377 | Precedence is a strict total order on well-formed versions |
| `Semver.ReleaseIsAbovePreReleases` | maintenance/pkg/utils/utils.go:377-377 | Section 11 of Semantic Versioning 2.0.0: with equal major, minor and patch a version without pre-release is above every one with a pre-release |
| `Semver.CoreDecides` | maintenance/pkg/utils/utils.go:377-377 | Section 11: major, minor and patch decide in this order, and only between equal ones the pre-releases |
| `Semver.IdentifiersCompare` | maintenance/pkg/utils/utils.go:377-377 | Section 11: numeric identifiers compare by value and are below the others, which compare by their characters |
| `Semver.FirstDifferenceDecides` | maintenance/pkg/utils/utils.go:377-377 | Precedence of pre-releases as section 11 of Semantic Versioning 2.0.0 words it: the first different identifier decides, and without one the shorter list is lower |
| `Semver.RoundTrip` | maintenance/pkg/utils/utils.go:360-360 | A well-formed version that is written out reads back as itself |
| `Semver.ParseIff` | maintenance/pkg/utils/utils.go:360-360 | Exactly the written versions are read, alone or followed by a plus sign and dot-separated metadata, which is dropped |
| `LatestOs.GetLatestImmutableOSByProfile` | maintenance/pkg/invclient/invclient.go:342-403 | The latest usable OS: no usable comparable one exceeds it if the first usable one is comparable, otherwise it is that first one; none only if none is usable or listing fails |
| `LatestOs.Latest` | maintenance/pkg/invclient/invclient.go:372-393 | The selection loop returns the first of the highest comparable ones if and only if the first usable candidate is comparable |
| `LatestOs.GetAvailableUpdateOS` | maintenance/pkg/maintmgr/southbound_handler.go:175-203 | The OS offered as an update is a usable listed one and another resource than the current one. If the first usable one listed and the current one are comparable, the offer is older if and only if the current one outranks every comparable usable one listed; so it is never older if the current one is listed and valid, and then it is newer if and only if the versions differ |
| `LatestOs.KeepsUnreadable` | maintenance/pkg/invclient/invclient.go:372-393 | A usable OS that is listed first and whose version cannot be read is chosen over everything after it |
| `LatestOs.OfferTo` | maintenance/pkg/maintmgr/southbound_handler.go:175-203 | The only listed OS, if usable, is offered to any OS that is not listed, whatever the versions of the two |
| `LatestOs.SuchVersions` | maintenance/pkg/utils/utils.go:312-350 | Inputs of the two rows above: an image version that cannot be read beside one that can, and an older version beside a newer one |
| `Schedules.GetClosestSingleSchedule` | maintenance/pkg/utils/utils.go:139-174 | The first unexpired schedule with the least saturated distance among those before the first unreadable one, none if and only if all such distances saturate |
| `Schedules.OneResult` | maintenance/pkg/utils/utils.go:139-174 | That determines the result |
| `Schedules.ExpiredIsInvisible` | maintenance/pkg/utils/utils.go:158-170 | The search returns the same schedule for a list with an expired schedule and for the list without it, although the iteration of the expired one reuses the previous duration |
| `Schedules.CompleteIff` | maintenance/pkg/utils/utils.go:147-156 | All schedules are considered if and only if all fit in 64 signed bits |
| `Schedules.UnreadableHidesCloser` | maintenance/pkg/utils/utils.go:147-156 | An unreadable schedule hides a closer one behind it |
| `Schedules.TimeIsExact` | maintenance/pkg/utils/utils.go:158-164 | Below the wrap-around of 64-bit seconds times are exact and an end time counts as passed when it is reached |
| `Schedules.AwayFromStart` | maintenance/pkg/utils/utils.go:158-164 | The distance is that of the start, with or without an end, and stays the largest one beyond 64 bits of nanoseconds |
| `Schedules.LateSecondsWrap` | maintenance/pkg/utils/utils.go:147-164 | Seconds that fit in 64 signed bits but not from year one on wrap around to the distant past, as far away as can be |
| `HeartbeatHistory.LossesAreOnTime` | host/pkg/alivemgr/availability_manager.go:129-163 | In every interleaving of heartbeats, forgetting, syncing, passes and checks, each loss of a record directly follows a heartbeat of the record, at least the full timeout later |
| `HeartbeatHistory.NoRepeatedLoss` | host/pkg/alivemgr/availability_manager.go:129-147 | Between two losses of a record there is a heartbeat |
| `HeartbeatHistory.CheckAnnouncesIff` | host/pkg/alivemgr/availability_manager.go:129-147 | A check announces a loss if and only if the last thing that happened to the record is a heartbeat of a full timeout ago |
| `HeartbeatHistory.SilentHostIsAnnounced` | host/pkg/alivemgr/availability_manager.go:70-97 | The first check that a pass started for a host can still run and announces the loss if the host has been silent for the timeout |
| `HeartbeatHistory.AliveUnlessLossStands` | host/pkg/alivemgr/availability_manager.go:243-264 | A tracked host counts as alive if and only if its last entry is a heartbeat, so its timer is nil exactly while a loss stands unanswered |
| `HeartbeatHistory.CurrentLossIsOnTime` | host/pkg/alivemgr/availability_manager.go:129-197 | A loss announced under the current record of a host comes the full timeout after every heartbeat of the host, under whatever record |
| `HeartbeatHistory.StaleCheckAnnouncesLiveHost` | host/pkg/alivemgr/availability_manager.go:85-87 | A check started before a host was forgotten announces its loss after the host came back and is alive |
| `HeartbeatHistory.EarlyLossIff` | host/pkg/alivemgr/availability_manager.go:129-197 | The exact condition, in every run: an announced loss comes less than the full timeout after some heartbeat of the host if and only if another record of the host has a timer that has yet to fire |
| `Heartbeats.AliveManager.UpdateHostHeartBeat` | host/pkg/alivemgr/availability_manager.go:177-197 | A heartbeat resets the timer of a tracked host, discarding an unread firing, or starts tracking under a new record |
| `Heartbeats.AliveManager.ForgetHost` | host/pkg/alivemgr/availability_manager.go:200-204 | Only the tracking ends; the record and its started checks stay |
| `Heartbeats.AliveManager.SyncHosts` | host/pkg/alivemgr/availability_manager.go:207-234 | Exactly the tracked hosts that are listed stay tracked |
| `Heartbeats.AliveManager.StartChecks` | host/pkg/alivemgr/availability_manager.go:79-93 | One more check is pending for each tracked host, and no other |
| `Heartbeats.AliveManager.CheckHeartbeat` | host/pkg/alivemgr/availability_manager.go:129-147 | A fired timer is read once, set to nil and announced; an unfired or nil one is left alone |
| `Heartbeats.AliveManager.GetHostHeartBeat` | host/pkg/alivemgr/availability_manager.go:243-264 | Whether a tracked host has a timer; an error for others |
| `Heartbeats.AliveTimeout` | host/pkg/alivemgr/availability_manager.go:107-119 | The product of the settings, or thirty seconds if that overflows 64 bits |
| `ConnectionLoss.NewerStatusStands` | host/pkg/invclient/invclient.go:579-604 | Over any interleaving of reports, losses and retried attempts the status stamp of a host never falls, and a lost connection is stamped strictly later than any status it came after |
| `ConnectionLoss.LossNeverBeatsNewer` | host/pkg/invclient/invclient.go:587-598 | Once a host has a status stamped at or after a loss, no later attempt for that loss changes any host |
| `ConnectionLoss.OnlyLiveHostsAreLost` | host/pkg/invclient/invclient.go:587-598 | A host becomes disconnected only by an attempt for it, from running, booting or error, with the stamp of the loss |
| `ConnectionLoss.ReportReconnects` | host/pkg/hostmgr/grpc_server.go:203-241 | An accepted report of a provisioned host that is not under maintenance ends a lost connection |
| `ConnectionLoss.LossOverridesReportIff` | host/pkg/hostmgr/grpc_server.go:203-241 | A loss overrides a report that came after it, of any host, if and only if the report was not stored, as under maintenance, before provisioning or when it repeats the status, and the host is in a live status stamped before the loss |
| `ConnectionLoss.RepeatedReportDoesNotHelp` | host/pkg/hostmgr/grpc_server.go:226-229 | A run in which a host reports running during the retries of a loss and ends up disconnected |
| `ConnectionLoss.LossTwice` | host/pkg/invclient/invclient.go:587-598 | Repeating an attempt, or attempting an older loss, changes nothing after a loss was written |
| `ConnectionLoss.HostStore.SetHostAsConnectionLost` | host/pkg/invclient/invclient.go:579-604 | One attempt, with its failures: running, booting and failing hosts with an older status become disconnected with the stamp of the loss, and nothing else changes |
| `ConnectionLoss.HostStore.UpdateHostStatusIfNeeded` | host/pkg/hostmgr/grpc_server.go:203-241 | One report: ignored under maintenance, rejected before provisioning, skipped when it says nothing new, otherwise stored with its time in the words and the indication it stands for |
| `ConnectionLoss.HostStore.RetryConnectionLost` | host/pkg/hostmgr/hostmgr.go:267-291 | Six attempts do what one successful attempt does or nothing, and succeed if one of them meets no failure; six failing reads fail |
| `TenantHistory.AcknowledgedStaysPrepared` | os-resource/internal/controller/reconcilers/tenant.go:268-344 | Over any sequence of reconciliations of any tenants with failing calls, when one sets the watcher flag every enabled profile has an OS resource under its id and the provider exists or automation is off, and that stays so |
| `TenantHistory.ProviderComesAfterResources` | os-resource/internal/controller/reconcilers/tenant.go:268-344 | In every history a tenant has its provider only after all enabled profiles of some request for it have a resource under their id |
| `TenantHistory.NoPairTwice` | os-resource/internal/controller/reconcilers/tenant.go:297-331 | No name and version gets two resources in a tenant if each request lists profiles without resource at most once, also after creations that took effect and reported failure |
| `TenantHistory.PairTwiceIff` | os-resource/internal/controller/reconcilers/tenant.go:300-331 | For reconciliations that get through, pairs stay unique if and only if no profile without resource is listed twice |
| `TenantHistory.OwnResourceIff` | os-resource/internal/controller/reconcilers/tenant.go:293-316 | After a successful reconciliation a profile has a resource of its own if and only if it had one or no resource of another pair stood under its concatenated id |
| `TenantHistory.AcknowledgedHasOwnResources` | os-resource/internal/controller/reconcilers/tenant.go:268-344 | If concatenation tells the profiles apart that the requests for a tenant list up to its acknowledgement, every profile of the acknowledging request has a resource of its own name and version then and ever after |
| `TenantHistory.PairWasRequested` | os-resource/internal/controller/reconcilers/tenant.go:293-316 | In every history each resource of a tenant carries the name and version of a profile that an earlier request for the tenant lists |
| `TenantHistory.TellingApartGivesOwnResources` | os-resource/internal/controller/reconcilers/tenant.go:293-316 | For one reconciliation: if concatenation tells the profiles of the request and the stored resources apart, every enabled profile has a resource of its own |
| `TenantHistory.TakenIdShutsOut` | os-resource/internal/controller/reconcilers/tenant.go:293-316 | In every history a profile whose id stands for another name and version in the store never gets a resource, however often it is requested |
| `TenantHistory.ConcatenationCollides` | os-resource/internal/controller/reconcilers/tenant.go:268-344 | Two requests from the empty store, the first of which creates version c of "ab" and stops; the second lists version bc of "a" too and acknowledges the tenant without a resource for it |
| `TenantHistory.FlagChanges` | os-resource/internal/controller/reconcilers/tenant.go:333-353 | The flag of a tenant is set only for a created and cleared only for a deleted tenant, by its own reconciliation |
| `TenantReconciliation.ReconcileTenant` | os-resource/internal/controller/reconcilers/tenant.go:268-356 | What a reconciliation stopped anywhere may have done, what success means, that an acknowledged tenant with all resources costs no write, that a deleted tenant loses nothing but its flag, and that it succeeds if no call fails and no default profile is needed |
| `TenantReconciliation.InitializeProviderIfNeeded` | os-resource/internal/controller/reconcilers/tenant.go:208-265 | Success means that the provider exists unless automation is off or the tenant is acknowledged; it is created only if its configuration can be written, and with auto-provisioning only if the default profile has a resource |
| `TenantReconciliation.AckOsWatcherIfNeeded` | os-resource/internal/controller/reconcilers/tenant.go:82-107 | The flag of the tenant is set; nothing is written if it was |
| `TenantReconciliation.UpdateOSResourceFromOSProfile` | os-resource/internal/controller/reconcilers/tenant.go:151-205 | Only periodic reconciliations refresh the CVE lists, each from its own list if that could be fetched; identity is kept and what does not differ is not written |
| `TenantReconciliation.CreateNewOSResourceFromOSProfile` | os-resource/internal/controller/reconcilers/tenant.go:109-149 | A new resource with the name and version of the profile, and in periodic reconciliations with the CVE lists that could be fetched; an inconvertible profile or missing manifest is an error, missing CVE lists are not |
| `TenantReconciliation.ReconcileOSResources` | os-resource/internal/controller/reconcilers/tenant.go:300-331 | The nested loops: existing resources keep their identity, only profiles without resource get one, on success all have one |
| `TenantReconciliation.MapProfileIds` | os-resource/internal/controller/reconcilers/tenant.go:293-298 | The map has exactly the ids of the listed resources, and of several resources with one id the last listed |
| `Tenants.FlatMember` | os-resource/internal/controller/reconcilers/tenant.go:300-305 | The profiles that are handled are all versions of all enabled profiles |
| `Tenants.Inventory.FindOSResourceID` | os-resource/internal/invclient/invclient.go:304-345 | The one resource with exactly this name and version; none if there is none or there are several |

## Left out

- Attestation and networking managers, `main` functions, configuration, RBAC, tracing, metrics and logging: no state worth a model.
- Generated messages and validation: an invalid message is an input that is rejected or skipped.
- HTTP, JSON and archives: whether a status detail is valid and how many entries it has, fetched CVE lists and package manifests are inputs.
- Enum translation tables (`AssignTelemetryResourceKind` and the like): settled by reading one branch.
- Semantic versions beyond section 11 of Semantic Versioning 2.0.0: the library compares numeric identifiers that exceed 64 bits as text and may limit the length of versions.
- TelemetryConfig.Sort: stands for the sort library; any permutation in key order serves, as the result is shown not to depend on it.
- TelemetryConfig.ConvertProfileToConfig: ends with the merged rows; naming their kinds, collectors and severities in the response, one enum translation each, is not part of this model.
- Heartbeats.AliveTimeout: a timeout is a number of seconds; its conversion to nanoseconds, which wraps around beyond 292 years, is not modelled.
- The event subscription of the telemetry cache is a first-in first-out queue with one event per inventory change; watcher reconnection and channel capacity are not part of this model.
- Aliasing of cached profiles: the cache hands out references, the model hands out values; data races on them are not modelled.
- Devices.Inventory.List: listing is one step; paging and validation of inventory listings are modelled for the telemetry cache only.
- Nics.UpdateHostnics: a report that repeats an interface or address is covered by the link and frame clauses; exactness is claimed under distinct names and addresses only.
- ConnectionLoss.HostStore.SetHostAsConnectionLost: reading and writing the host is one step, as is a report; writers between the two are not modelled.
- Heartbeats.AliveManager.CheckHeartbeat: the announcing channel is unbounded; a full one would block while holding the lock of the record.
- Goroutine scheduling beyond the named steps, such as two first heartbeats of a host at once.
- TenantReconciliation.UpdateOSResourceFromOSProfile: the two CVE writes compare with the stored resource, which is what the listing returned as no one else writes it meanwhile.
- Tenants.Inventory.CreateProvider: a provider that appears between lookup and creation is accepted, as in the code, but no such outside writer takes part in the runs.
- The name, description and applied policy of an update run: copied from the instance.
