# Verified model of the AWS Advanced ODBC driver's stateful parts

This project models the parts of the driver that hold state, run loops or follow a protocol, and proves what they are
for. `dafny verify dfyconfig.toml` checks all of it with Dafny 4.11 and its default options.

- **Topology monitor.** `TopologyConnections` is a state machine whose events are the lock-protected sections of the main
  loop, of any number of node threads and of ForceRefresh callers; `TopologyRuns` has what holds over its runs,
  `TopologyReleases` what they free, `TopologyRoles` what was found out about the connections handed over, `TopologyOrder`
  which event of a thread may follow which, and `TopologyFields` which events change which field. `ClusterTopologyMonitors`
  has the fields and one method per section, each proved to be its event; a free needs a live connection, so a double free
  would not verify. The two fetches are split into taking the handle, the query and its end; a query through a freed
  connection is given an arbitrary answer. `TopologyRequests` and `TopologyRefresh` do the same for the request flag, the
  version counter and the waiters, and `TopologyHistory` says their state from the events alone; `TopologyUtil` cleans the
  queried host lists.
- **Round robin on a sliding cache.** `SlidingCache` states what the cache does and what its answers mean in terms of the
  history of touches; `SlidingCacheMaps` is the class, with a clock that any reading may find further along.
  `RoundRobinSchedule` has the closed form of weighted round robin, `WeightStrings` the printed weights and their parser,
  `HostOrder` the sort, `RoundRobinHostSelectors` the selector with one record shared by many cache entries, and
  `RoundRobinRuns` whole runs of calls.
- **UTF-16 and UTF-32.** `UnicodeForms` follows section 3.9 of The Unicode Standard; `RdsStrings` converts buffers of
  16-bit slots, in place as well; `OdbcConversion` sizes and fills the conversion buffers, for every byte count.
- **Handle tree.** `HandleTree` states the shape and the books of underlying handles, `HandleDeletion` and `HandleChanges`
  what each operation does to them, `OdbcHandles` has the functions that walk over copies of lists which their callees
  shorten, `HandleRuns` whole runs, `HandleReleases` which call of a run releases or forgets which underlying handle, and
  `HandleObjects` what each call leaves of each object.
- **Connection strings.** `ConnectionStrings` searches and parses, `BuiltStrings` prints, `KeyRemoval` takes the wrapper's
  own keys, which `ConnectionKeys` names, out of the text again.
- **Blue/Green and reference counts.** `BlueGreenRouting` has the route loops, `BlueGreenFlags` and `BlueGreenMonitors` the
  DNS flags, `RefCounts` and `Registries` the shared, counted objects.

Classes follow the source's classes; their methods are proved against functions on values, and the lemmas are about those
functions. Functions such as `Apply`, `Step`, `Prune` or `NextTurn` are those specifications.

## Assumptions about the surroundings

- ICU delivers the first units that fit and reports the length of the whole result; expanding replaces unpaired
  surrogates by U+FFFD, narrowing fails on values that are not scalars.
- The steady clock never goes back. It may advance by any amount at any reading.
- Hosts, network answers, DNS, the underlying driver's answers and the order in which threads run are arbitrary.
- Upper-casing of keys is a parameter; what is proved needs only that keys which are upper case already are left alone.
- A sort returns some sorted permutation; maps and sets are traversed in some order.

## Where the code and expectation differ

- OpenAnyConnGetHosts dereferences main_hdbc_ and queries through it after releasing hdbc_mutex_;
  `OpenQuerySafeUnlessDropped` says exactly when that is safe, `OpenFetchCanFindNothing` and `OpenQueryCanUseFreed` that
  the connection can be gone before the dereference and freed during the query.
- ExpandUTF16ToUTF32InPlace writes no terminator when there is nothing to expand (driver/util/rds_strings.h:190), unlike
  ConvertUTF16ToUTF32, so an empty text reaches a 4-byte application only if its buffer was zero already
  (`InPlaceReadsBack`, `EmptyTextIsNotTerminated`, `ReadWrapperOutput`).
- OdbcHelper::Disconnect without a loaded driver clears the underlying handles without freeing them; `FreedEnvReleasesAll`
  says exactly when freeing the environment has therefore released everything, `HandleCanBeForgotten` that the other case
  occurs.
- Size erases entries whose expiry is strictly before now, while Get and Find already refuse an entry that expires now;
  `SizeCountsFresh` says when this shows, `SizeCountsExpiring` that it does.
- After a successful Find the record may be gone at the following Get (`FoundThenMissing`); the call then has no record,
  which `GetHost` reports as `NullRecord`, exactly when a Get of the call came a TTL or more after the last touch of its key,
  and where the code would dereference a null pointer.
- A malformed weight string with which a cached record is refreshed is reported by one call only, if its first pair is good
  (`MalformedReportedAgain`): the string counts as read, and later calls use the pairs before the bad one.
- For an odd number of bytes the conversion buffer of a 2-byte driver is one byte shorter than what the driver is offered
  (`BufferHoldsOffer`).
- RDS_FreeDesc does not check that the descriptor is explicit (`FreeDescNeedsExplicit`, `ImplicitCanBeFreed`).
- RemoveInternalWrapperKeys works on text and also cuts pairs that merely contain a key (`RemovalErases`, `LongerKeyIsTouched`).
- Switching SetCollectIp at the wrong moment makes both Blue/Green flags true (`BothTrueExactly`, `BothTrueIfSwitched`).

## Model

| member | source | states |
|---|---|---|
| TopologyConnections.StepKeepsInvariant | driver/host_list_providers/cluster_topology_monitor.cpp:298-631 | every lock-protected section of the main loop, of any node thread and of ForceRefresh keeps ownership, mode and reader-slot invariants together |
| TopologyRuns.RunKeepsInvariant | driver/host_list_providers/cluster_topology_monitor.cpp:173-631 | the invariant holds after every interleaving of sections, with any number of node threads |
| TopologyRuns.ConnectionsConserved | driver/host_list_providers/cluster_topology_monitor.cpp:298-631 | in every interleaving the live connections are exactly the disjoint union of the main connection, both slots, the connection being opened and those of the node threads: none is owned twice, none is lost |
| TopologyReleases.FreedExactlyOnce | driver/host_list_providers/cluster_topology_monitor.cpp:82-103 | over a whole run no connection is freed twice, those handed out are exactly those live or freed, and after destruction all have been freed |
| TopologyRuns.ModeSafety | driver/host_list_providers/cluster_topology_monitor.cpp:293-296 | whenever no section is running is_writer_connection_ implies a main connection, and HandleRegularMode is never entered with node threads left to join |
| TopologyRuns.ReaderConnectionSafe | driver/host_list_providers/cluster_topology_monitor.cpp:610-634 | a node thread that is about to read the reader slot finds it filled, and the connection it queries through is live and still the one in the slot |
| TopologyRuns.OpenQuerySafeUnlessDropped | driver/host_list_providers/cluster_topology_monitor.cpp:344 | from the arrival of the main thread at the unlocked fetch until its query ends, in every run: the dereference finds a connection and the query goes through a live one if and only if no ForceRefresh dropped the main connection since the arrival |
| TopologyRuns.OpenQueryCanUseFreed | driver/host_list_providers/cluster_topology_monitor.cpp:247-270 | a ForceRefresh can run during the query: a run is left querying through a freed connection |
| TopologyRuns.RegularQuerySafe | driver/host_list_providers/cluster_topology_monitor.cpp:386-389 | the fetch of regular mode holds the mutex: whenever it runs, its handle is the main connection and live, or null because there is none |
| TopologyRuns.OpenFetchStartsConnected | driver/host_list_providers/cluster_topology_monitor.cpp:316-344 | the main thread arrives at that dereference with a main connection |
| TopologyRuns.OpenFetchCanFindNothing | driver/host_list_providers/cluster_topology_monitor.cpp:125-144 | a ForceRefresh can run before the dereference: a run reaches it with no main connection |
| TopologyConnections.HandOverConserves | driver/host_list_providers/cluster_topology_monitor.cpp:594-606 | handing a writer connection to the slot moves ownership from the thread to the slot |
| TopologyConnections.ClaimConserves | driver/host_list_providers/cluster_topology_monitor.cpp:620-628 | claiming the reader slot moves ownership, or leaves the thread its connection if another one was faster |
| TopologyConnections.AdoptConserves | driver/host_list_providers/cluster_topology_monitor.cpp:455-461 | adopting the writer frees the old main connection and moves the slot into it |
| TopologyConnections.ReconnectConserves | driver/host_list_providers/cluster_topology_monitor.cpp:567-573 | a reconnect frees the old handle of the thread before it owns the new one |
| TopologyConnections.JoinConserves | driver/host_list_providers/cluster_topology_monitor.cpp:508-521 | destroying a node thread loses no connection if and only if it has none left or did not serve as the reader; with none left nothing is freed |
| TopologyReleases.StepAccounts | driver/host_list_providers/cluster_topology_monitor.cpp:298-631 | each section frees only live connections and its result is the live set minus the freed plus the allocated |
| TopologyRoles.WriterSlotWasFound | driver/host_list_providers/cluster_topology_monitor.cpp:546-549 | over every run the connection in the writer slot was asked for its role by the node thread that held it, and answered that it is the writer's |
| TopologyRoles.ReaderSlotWasFound | driver/host_list_providers/cluster_topology_monitor.cpp:546-552 | the connection in the reader slot answered that it is a reader's |
| TopologyRoles.AdoptsTheWriter | driver/host_list_providers/cluster_topology_monitor.cpp:452-473 | a poll that finds the connection in the writer slot answering makes exactly that one the main connection and takes it for the writer's, which it had answered to be; any other poll moves nothing |
| TopologyRoles.WriterFlagIsEarned | driver/host_list_providers/cluster_topology_monitor.cpp:293-342 | in every run is_writer_connection_ is set only while the main connection is one that itself answered that it is the writer's, to a node thread or to the main thread that opened it |
| TopologyOrder.NodeInOrder | driver/host_list_providers/cluster_topology_monitor.cpp:523-564 | in every interleaving a node thread can go on from each of its events exactly as its code says, given what it saw and was answered then, but for the writer mutex and a reader connection to read |
| TopologyOrder.NodeBegins | driver/host_list_providers/cluster_topology_monitor.cpp:531 | the first thing a node thread does is to look whether it should stop |
| TopologyOrder.FoundWriterIsHandedOver | driver/host_list_providers/cluster_topology_monitor.cpp:548-608 | after finding the writer the next event of a node thread hands exactly that connection over, into the slot or, if another thread was faster, to be closed; it keeps none, and all are told to stop |
| TopologyOrder.MainInOrder | driver/host_list_providers/cluster_topology_monitor.cpp:173-194 | in every interleaving the main thread can go on from each of its events exactly as Run and what it calls say: between modes, through opening a connection, and through starting and joining threads for the hosts it was given |
| TopologyOrder.FromOutside | driver/host_list_providers/cluster_topology_monitor.cpp:82-103 | the monitor can be started once, told to stop at any time, and destroyed before it was started or after its main thread has joined all others |
| TopologyOrder.DropsUnlessLocked | driver/host_list_providers/cluster_topology_monitor.cpp:125-145 | a ForceRefresh can drop the main connection, or clear the writer flag, exactly when the main thread is not between taking and giving up hdbc_mutex_ |
| TopologyFields.FlagsAfter | driver/host_list_providers/cluster_topology_monitor.cpp:82-631 | which events set and clear is_running_, node_threads_stop_ and is_writer_connection_, and that no other does |
| TopologyFields.HoldersAfter | driver/host_list_providers/cluster_topology_monitor.cpp:298-473 | which events change the main connection, the two slots and the connection being opened, and to what |
| TopologyFields.ThreadAfter | driver/host_list_providers/cluster_topology_monitor.cpp:434-441 | over every run threads are started for the hosts the main thread was given, one per host and with a connection of their own, and end by being joined; what each holds after any event |
| TopologyFields.StoppedUntilJoined | driver/host_list_providers/cluster_topology_monitor.cpp:470-471 | from the hand-over of a writer until the threads have been joined they are told to stop |
| ClusterTopologyMonitors.ClusterTopologyMonitor.CleanUpDbc | driver/host_list_providers/cluster_topology_monitor.cpp:364-370 | frees the connection it is given, if any, which must be live, and nothing else |
| ClusterTopologyMonitors.ClusterTopologyMonitor.ForceRefreshVerify | driver/host_list_providers/cluster_topology_monitor.cpp:125-145 | is the event of the protocol: drops the main connection, except for Multi-AZ, and always clears the writer flag |
| ClusterTopologyMonitors.ClusterTopologyMonitor.CleanUpHandles | driver/host_list_providers/cluster_topology_monitor.cpp:82-103 | destruction frees the main connection and leaves nothing live |
| ClusterTopologyMonitors.ClusterTopologyMonitor.DropAfterEmptyTopology | driver/host_list_providers/cluster_topology_monitor.cpp:354-359 | is the event that closes the connection and clears the flag |
| ClusterTopologyMonitors.ClusterTopologyMonitor.InitWriterHdbc | driver/host_list_providers/cluster_topology_monitor.cpp:417-421 | empties the writer slot and frees what was in it |
| ClusterTopologyMonitors.ClusterTopologyMonitor.InitReaderHdbc | driver/host_list_providers/cluster_topology_monitor.cpp:422-425 | empties the reader slot and frees what was in it |
| ClusterTopologyMonitors.ClusterTopologyMonitor.OpenAnyConnAlloc | driver/host_list_providers/cluster_topology_monitor.cpp:301-304 | allocates only when there is no main connection |
| ClusterTopologyMonitors.ClusterTopologyMonitor.OpenAnyConnConnected | driver/host_list_providers/cluster_topology_monitor.cpp:311-315 | frees the local connection when the connect failed |
| ClusterTopologyMonitors.ClusterTopologyMonitor.OpenAnyConnInstall | driver/host_list_providers/cluster_topology_monitor.cpp:316-342 | installs the local connection, or frees it if one was set meanwhile; sets the writer flag only for an installed writer |
| ClusterTopologyMonitors.ClusterTopologyMonitor.OpenAnyConnDereference | driver/host_list_providers/cluster_topology_monitor.cpp:344 | given a main connection, which no mutex protects here, takes its handle |
| ClusterTopologyMonitors.ClusterTopologyMonitor.OpenAnyConnFetched | driver/host_list_providers/cluster_topology_monitor.cpp:344-362 | ends the query and goes on to drop the connection if it found no hosts |
| ClusterTopologyMonitors.ClusterTopologyMonitor.HandleRegularModeLock | driver/host_list_providers/cluster_topology_monitor.cpp:386-388 | takes the mutex and the handle of the main connection, which is live, or null |
| ClusterTopologyMonitors.ClusterTopologyMonitor.HandleRegularModeUnlock | driver/host_list_providers/cluster_topology_monitor.cpp:388-391 | gives the mutex up with that handle still the main connection and live |
| ClusterTopologyMonitors.ClusterTopologyMonitor.StartNodeMonitor | driver/host_list_providers/cluster_topology_monitor.cpp:434-441 | starts at most one thread per host, with a connection of its own |
| ClusterTopologyMonitors.ClusterTopologyMonitor.GetPossibleWriterConn | driver/host_list_providers/cluster_topology_monitor.cpp:444-488 | adopts the writer in the slot or goes on to add threads |
| ClusterTopologyMonitors.ClusterTopologyMonitor.JoinNodeMonitor | driver/host_list_providers/cluster_topology_monitor.cpp:508-521 | the joined thread has no handle left, so its destructor frees nothing |
| ClusterTopologyMonitors.ClusterTopologyMonitor.HandleReconnect | driver/host_list_providers/cluster_topology_monitor.cpp:567-579 | frees the old connection and allocates a new one |
| ClusterTopologyMonitors.ClusterTopologyMonitor.FinishReconnect | driver/host_list_providers/cluster_topology_monitor.cpp:580-585 | frees the connection when the connect failed |
| ClusterTopologyMonitors.ClusterTopologyMonitor.HandleWriterConn | driver/host_list_providers/cluster_topology_monitor.cpp:587-608 | fills the writer slot or frees the connection of the thread, and stops all threads |
| ClusterTopologyMonitors.ClusterTopologyMonitor.HandleReaderConn | driver/host_list_providers/cluster_topology_monitor.cpp:620-628 | fills an empty reader slot and marks the thread as a reader |
| ClusterTopologyMonitors.ClusterTopologyMonitor.CloseNode | driver/host_list_providers/cluster_topology_monitor.cpp:560-564 | frees what the thread still owns |
| TopologyRequests.StepKeepsInvariant | driver/host_list_providers/cluster_topology_monitor.cpp:196-282 | every step of waiters, updates and write-backs keeps the request, version and cache invariants |
| TopologyRequests.NoRequestLost | driver/host_list_providers/cluster_topology_monitor.cpp:196-226 | while a waiter that raised its request still sees the version it sampled, the request flag is up, unless 2^64 updates went by (the width of the counter) |
| TopologyRequests.ReturnMeansUpdated | driver/host_list_providers/cluster_topology_monitor.cpp:213-225 | a waiter that leaves before its timeout does so because an UpdateTopologyCache completed after it had sampled the version |
| TopologyRequests.CachedTopologyHasOneWriter | driver/util/plugin_service.cpp:166-192 | whatever interleaving of refreshes, stale write-backs and expiry, the cached topology is empty or has exactly one writer, placed last |
| TopologyRequests.LeavesWhenUpdated | driver/host_list_providers/cluster_topology_monitor.cpp:213-217 | a waiter that looks leaves as timed out past its timeout; before, it leaves exactly when updates have completed since it sampled the version (their number no multiple of 2^64), and otherwise goes on waiting |
| TopologyHistory.StateFromHistory | driver/host_list_providers/cluster_topology_monitor.cpp:196-282 | after every run the request flag, the update under way, the cached topology and the place of every waiter are what the events of the run make them |
| TopologyHistory.EnabledFromHistory | driver/host_list_providers/cluster_topology_monitor.cpp:196-282 | after every run exactly those steps are possible that each thread's own history and the mutexes of an update under way allow |
| TopologyRefresh.RefreshBoard.LoadVersion | driver/host_list_providers/cluster_topology_monitor.cpp:197 | samples the version |
| TopologyRefresh.RefreshBoard.RaiseRequest | driver/host_list_providers/cluster_topology_monitor.cpp:198-209 | raises the request and says whether the caller waits |
| TopologyRefresh.RefreshBoard.StillWaits | driver/host_list_providers/cluster_topology_monitor.cpp:213-217 | goes on waiting if and only if the timeout has not passed and the version is the one sampled |
| TopologyRefresh.RefreshBoard.GetHosts | driver/host_list_providers/cluster_topology_monitor.cpp:225 | reads the cached hosts |
| TopologyRefresh.RefreshBoard.SetHosts | driver/host_list_providers/cluster_topology_monitor.cpp:147-151 | writes a non-empty list back and keeps an empty one out |
| TopologyRefresh.RefreshBoard.UpdateTopologyCache | driver/host_list_providers/cluster_topology_monitor.cpp:272-282 | is the three events store, clear request, bump version, in this order; the 64-bit counter wraps |
| TopologyUtil.VerifyWriter | driver/host_list_providers/topology_util.cpp:142-167 | returns the readers in order and then the writer updated last (the first of equals), or nothing when there is no writer |
| TopologyUtil.GetWriter | driver/host_list_providers/topology_util.cpp:180-188 | returns the first writer; of a cacheable list that is its last element |
| TopologyUtil.VerifiedIsCacheable | driver/host_list_providers/topology_util.cpp:142-167 | what VerifyWriter returns is empty or has exactly one writer, placed last |
| SlidingCache.EvictionUnobservable | driver/util/sliding_cache_map.h:39-121 | for every history at non-decreasing times Get and Find answer as a timestamped map that never evicts |
| SlidingCache.AnswersFromHistory | driver/util/sliding_cache_map.h:68-98 | a value is returned if and only if each gap between consecutive touches of its key since it was stored is strictly less than its TTL, and it is the value stored |
| SlidingCache.StepAgreesOn | driver/util/sliding_cache_map.h:39-121 | each operation keeps every entry equal to its stamp, and what it evicts can never be live again |
| SlidingCache.HistoryExplains | driver/util/sliding_cache_map.h:50-98 | a key is live exactly when the history of its touches says so |
| SlidingCache.SizeCountsFresh | driver/util/sliding_cache_map.h:100-111 | Size counts all fresh entries, and only those if and only if none expires at this very instant |
| SlidingCache.SizeCountsExpiring | driver/util/sliding_cache_map.h:100-111 | a history with an entry that Size counts and Find, at the same instant, does not find |
| SlidingCache.GetLapses | driver/util/sliding_cache_map.h:68-82 | a Get of a key that was stored finds nothing if and only if it comes a full TTL or more after the last touch of the key, whatever was evicted meanwhile |
| SlidingCacheMaps.SlidingCacheMap.PutEntry | driver/util/sliding_cache_map.h:39-44 | is the Put event at the clock reading taken |
| SlidingCacheMaps.SlidingCacheMap.PutDefault | driver/util/sliding_cache_map.h:35-37 | stores with a TTL of 15 minutes |
| SlidingCacheMaps.SlidingCacheMap.PutEntryIfAbsent | driver/util/sliding_cache_map.h:50-66 | refreshes a fresh entry at the first reading, replaces any other at the second |
| SlidingCacheMaps.SlidingCacheMap.GetValue | driver/util/sliding_cache_map.h:68-82 | answers and refreshes a fresh entry, erases an expired one |
| SlidingCacheMaps.SlidingCacheMap.FindKey | driver/util/sliding_cache_map.h:84-98 | answers and refreshes a fresh entry, erases an expired one |
| SlidingCacheMaps.SlidingCacheMap.CountEntries | driver/util/sliding_cache_map.h:100-111 | erases exactly the entries that expired before now, by iterating while erasing, and counts the rest |
| SlidingCacheMaps.SlidingCacheMap.ClearAll | driver/util/sliding_cache_map.h:113-116 | leaves nothing |
| SlidingCacheMaps.SlidingCacheMap.DeleteKey | driver/util/sliding_cache_map.h:118-121 | erases one key |
| HostOrder.SortByName | driver/host_selector/round_robin_host_selector.cpp:65-70 | returns a sorted permutation; the order of equal names is left open |
| HostOrder.SortIsUnique | driver/host_selector/round_robin_host_selector.cpp:65-70 | with distinct names every sort returns the same list |
| RoundRobinSchedule.ClosedForm | driver/host_selector/round_robin_host_selector.cpp:78-107 | from a fresh record call n picks the host whose prefix-weight interval contains n mod W, and no other |
| RoundRobinSchedule.EveryCycleIsFair | driver/host_selector/round_robin_host_selector.cpp:78-107 | any W consecutive calls pick each host exactly as often as its weight |
| RoundRobinSchedule.OneCallFurther | driver/host_selector/round_robin_host_selector.cpp:88-107 | one call moves the position in the cycle by one |
| RoundRobinSchedule.LastIndexOf | driver/host_selector/round_robin_host_selector.cpp:79-86 | the search loop finds the last index of the name, or none |
| WeightStrings.SetRoundRobinWeight | driver/host_selector/round_robin_host_selector.cpp:25-38 | prints host:weight pairs joined by commas and stores them under the property |
| WeightStrings.Split | driver/host_selector/round_robin_host_selector.cpp:209-222 | cuts a string as a loop over getline does: nothing after a final delimiter |
| WeightStrings.RoundTrip | driver/host_selector/round_robin_host_selector.cpp:25-38 | reading what was printed gives exactly the weight of every host and leaves other names as they were (an empty string clears all), for distinct non-empty names free of , and : and weights in 1..INT_MAX |
| WeightStrings.ConvertsExactly | driver/host_selector/round_robin_host_selector.cpp:116-125 | a text converts to an int exactly when it is white space, an optional sign and digits, and the value fits |
| WeightStrings.GroupExactly | driver/host_selector/round_robin_host_selector.cpp:220-243 | a pair is accepted exactly when it is a name, a colon and a number from 1 up, neither empty nor with a colon in it; a final colon is let pass |
| WeightStrings.ReadsUntilMalformed | driver/host_selector/round_robin_host_selector.cpp:215-245 | the pairs before the first malformed one apply in order, that one is reported, and the whole string counts as read once one pair was good |
| WeightStrings.ConvertDecimal | driver/host_selector/round_robin_host_selector.cpp:116-125 | a printed number converts back to itself |
| WeightStrings.WeightsStayInRange | driver/host_selector/round_robin_host_selector.cpp:198-245 | no string puts a weight below 1 or above INT_MAX into the map |
| RoundRobinHostSelectors.RoundRobinClusterInfo.UpdatePropsDefaultWeight | driver/host_selector/round_robin_host_selector.cpp:179-196 | leaves the record and the error that the specification says, also half way |
| RoundRobinHostSelectors.RoundRobinClusterInfo.UpdatePropsHostWeight | driver/host_selector/round_robin_host_selector.cpp:198-245 | reads the pairs in order and keeps those before a malformed one |
| RoundRobinHostSelectors.RoundRobinClusterInfo.RefreshProps | driver/host_selector/round_robin_host_selector.cpp:155-163 | applies each property only if it changed; a changed weight string restarts the schedule |
| RoundRobinHostSelectors.RoundRobinClusterInfo.ChooseNext | driver/host_selector/round_robin_host_selector.cpp:78-107 | returns the target and leaves the turn that the schedule says |
| RoundRobinHostSelectors.NewClusterInfo | driver/host_selector/round_robin_host_selector.cpp:148-150 | a new record reflects the properties |
| RoundRobinHostSelectors.RefreshedOnce | driver/host_selector/round_robin_host_selector.cpp:127-135 | a record made or refreshed from properties is not changed by the same properties again |
| RoundRobinHostSelectors.SelectEligible | driver/host_selector/round_robin_host_selector.cpp:48-59 | keeps exactly the running hosts of the wanted role, each as often as it is listed; when there is none, no host for a writer and every running host for a reader |
| RoundRobinHostSelectors.NewWeightsRestart | driver/host_selector/round_robin_host_selector.cpp:155-163 | a weight string that differs from the last one read starts the schedule anew, and nothing else does |
| RoundRobinHostSelectors.NewDefaultIsRead | driver/host_selector/round_robin_host_selector.cpp:155-158 | the default weight after a call: the number in a changed property, 1 if that cannot be read, else what it was |
| RoundRobinHostSelectors.MalformedReportedAgain | driver/host_selector/round_robin_host_selector.cpp:160-163 | a malformed weight string fails the call that finds it, and a later call with the same properties if and only if its very first pair is malformed |
| RoundRobinHostSelectors.RoundRobinHostSelector.FindCached | driver/host_selector/round_robin_host_selector.cpp:140-144 | looks every host up in order, keeps fresh entries fresh, and revives none |
| RoundRobinHostSelectors.RoundRobinHostSelector.LookUp | driver/host_selector/round_robin_host_selector.cpp:147-154 | finds the record of the first host in the cache; the record is missing if and only if the Get came a TTL or more after the key was last touched |
| RoundRobinHostSelectors.RoundRobinHostSelector.UpdateCache | driver/host_selector/round_robin_host_selector.cpp:168-177 | afterwards every host leads to the same record |
| RoundRobinHostSelectors.RoundRobinHostSelector.CreateCacheEntries | driver/host_selector/round_robin_host_selector.cpp:137-166 | uses the record of the first cached host, or a new one exactly when none is cached, and refreshes it; there is no record if and only if a Get of this call lapsed |
| RoundRobinHostSelectors.RoundRobinHostSelector.GetServing | driver/host_selector/round_robin_host_selector.cpp:75-76 | returns the record just put under the first name; it is missing if and only if the Get lapsed |
| RoundRobinHostSelectors.FoundThenMissing | driver/host_selector/round_robin_host_selector.cpp:140-154 | a history in which the only host is found and the Get that follows answers nothing |
| RoundRobinHostSelectors.RoundRobinHostSelector.GetHost | driver/host_selector/round_robin_host_selector.cpp:45-108 | chooses among exactly the running hosts of the wanted role, or any running host for a reader when none has it; fails without hosts, otherwise answers and leaves the record as the schedule says and touches no other record; it comes to a null record if and only if one of its Gets came a TTL or more after the last touch of its key |
| RoundRobinRuns.CallNumber | driver/host_selector/round_robin_host_selector.cpp:45-108 | call n of a run goes by the schedule if it ends before entries made by the call before it expire |
| RoundRobinRuns.RepeatedCalls | driver/host_selector/round_robin_host_selector.cpp:45-108 | a run of calls closer together than the TTL, begun when no host has a fresh entry, follows the schedule of a fresh record |
| RoundRobinRuns.RunInClosedForm | driver/host_selector/round_robin_host_selector.cpp:45-108 | in such a run call i returned host j exactly when the interval of j contains i mod W |
| RoundRobinRuns.ChangedCall | driver/host_selector/round_robin_host_selector.cpp:160-163 | a call with a changed weight string is the first of a new schedule with the weights it reads |
| RoundRobinRuns.PrintedWeightsTakeOver | driver/host_selector/round_robin_host_selector.cpp:25-38 | and those are the printed ones, whatever weights the record had |
| RoundRobinRuns.PrintedWeightsDrive | driver/host_selector/round_robin_host_selector.cpp:25-38 | the weights printed by SetRoundRobinWeight are the ones the schedule runs on |
| UnicodeForms.EncodingTable | driver/util/rds_strings.h:404-427 | the scalar values, the surrogates and the units of each scalar value are those of section 3.9 of the standard |
| UnicodeForms.DecodeEncode | driver/util/rds_strings.h:374-431 | every sequence of scalar values survives UTF-16, and its encoding is well-formed |
| UnicodeForms.EncodeDecode | driver/util/rds_strings.h:174-201 | UTF-16 to UTF-32 to UTF-16 gives a string back if and only if it is well-formed |
| UnicodeForms.FitIsLongest | driver/util/rds_strings.h:420-427 | a prefix of code points fits exactly when it is no longer than the one computed |
| UnicodeForms.CutIsFit | driver/util/rds_strings.h:420-430 | cutting at the room and dropping a trailing lead surrogate leaves exactly the encoding of the longest prefix that fits |
| UnicodeForms.NarrowingRespectsCharacters | driver/util/rds_strings.h:387-430 | narrowing a terminated text into len units yields its longest prefix that fits in len-1, terminated, well-formed |
| UnicodeForms.ExpandingKeepsPrefix | driver/util/rds_strings.h:179-186 | expanding yields the first min(k, capacity) code points |
| UnicodeForms.NarrowExpanded | driver/util/rds_strings.h:174-187 | expanding and narrowing a well-formed text without zeros gives it back |
| UnicodeForms.ExpandNarrowed | driver/util/rds_strings.h:374-431 | narrowing and expanding non-zero scalar values gives them back |
| UnicodeForms.InPlaceReadsPrefix | driver/util/rds_strings.h:189-201 | a text of at least one unit, expanded in its own buffer, reads back as the first code points that fit in front of the terminator |
| UnicodeForms.InPlaceReadsBack | driver/util/rds_strings.h:189-201 | a text of any length expanded in its own buffer is read back if and only if it is not empty or the first code point slot was zero already |
| UnicodeForms.EmptyTextIsNotTerminated | driver/util/rds_strings.h:190 | the empty text over leftover units: the buffer stays as it was and reads as U+10000 |
| RdsStrings.UShortStrlen | driver/util/rds_strings.h:97-113 | finds the first zero unit, or the first zero code point in 4-byte text |
| RdsStrings.ConvertUTF16ToUTF32 | driver/util/rds_strings.h:174-187 | stores the first code points that fit and a zero one, inside dst_len slots, and leaves the rest alone |
| RdsStrings.ExpandUTF16ToUTF32InPlace | driver/util/rds_strings.h:189-201 | stores the first code points that fit and a zero one over its input; with no units, or no room, it writes nothing, not even a terminator |
| RdsStrings.Convert4To2ByteString | driver/util/rds_strings.h:374-431 | stores the narrowed text over the target, in place without an output, an empty text on a non-scalar value; reads only up to the terminator or the limit |
| RdsStrings.NarrowInto | driver/util/rds_strings.h:387-430 | reads, converts, trims and terminates inside both buffers |
| RdsStrings.ReadText | driver/util/rds_strings.h:393-403 | reads code points up to a zero one or the limit |
| RdsStrings.ExpandAndNarrowInPlace | driver/util/rds_strings.h:189-201 | a well-formed text without zeros of any length, expanded in its own buffer and narrowed with any larger limit, comes back if and only if it is not empty or what the buffer held narrows to an empty text |
| RdsStrings.NarrowAndExpand | driver/util/rds_strings.h:374-431 | scalar values come back through a second buffer |
| RdsStrings.NarrowAndExpandInPlace | driver/util/rds_strings.h:374-431 | scalar values come back from their own buffer |
| OdbcConversion.AllocateConversionBuffer | driver/util/odbc_helper.cpp:364-371 | allocates byte_count/2 slots, twice that for a 4-byte driver, all zero |
| OdbcConversion.Memcpy | driver/util/odbc_helper.cpp:301-304 | every byte below the count arrives and every later one stays, half a slot included |
| OdbcConversion.ConvertDriverOutputToTarget | driver/util/odbc_helper.cpp:279-319 | with equal widths every byte below the smaller count arrives and every later one stays; else the first code points that fit, or the longest prefix of the text that fits, arrive with a terminator and nothing behind it changes |
| OdbcConversion.ConvertedArrives | driver/util/odbc_helper.cpp:279-319 | so says the specification, for every pair of widths and every count |
| OdbcConversion.BufferIsEnough | driver/util/odbc_helper.cpp:364-371 | the buffer allocated for n bytes has all that converting into n bytes reads, whatever the driver wrote |
| OdbcConversion.SmallestBuffer | driver/util/odbc_helper.cpp:364-371 | which buffer sizes are enough for every driver output: all of them unless 4-byte output is narrowed, and then exactly those from the allocated size up |
| OdbcConversion.ConversionStaysInside | driver/util/odbc_helper.cpp:279-319 | for every n and every pair of widths only bytes inside the n change, and the output is terminated inside them if the widths differ and a character fits |
| OdbcConversion.ReadThroughBuffer | driver/odbcapi_rds_helper.cpp:575-579 | allocate, fill, convert: what the driver wrote arrives, and nothing outside the n bytes is written |
| OdbcConversion.BufferHoldsOffer | driver/util/odbc_helper.cpp:364-371 | the buffer holds n/2 characters of the driver's width; it holds all n bytes that the driver is offered unless n is odd with a 2-byte driver, or 1 |
| OdbcConversion.ConvertWrapperOutputToTarget | driver/util/odbc_helper.cpp:340-353 | expands what the wrapper wrote in place for a 4-byte application and leaves it alone otherwise |
| OdbcConversion.ReadWrapperOutput | driver/util/odbc_helper.cpp:340-353 | a 4-byte application reads the text the wrapper wrote if and only if it is not empty or the first code point slot was zero already |
| HandleRuns.CallKeepsValid | driver/odbcapi_rds_helper.cpp:158-257 | every allocation, free and disconnect keeps the tree and the books of underlying handles |
| HandleRuns.RunKeepsValid | driver/odbcapi_rds_helper.cpp:365-549 | so does every run of them |
| HandleRuns.EachListedOnce | driver/odbcapi_rds_helper.cpp:170-257 | over every run each live connection is in its environment's list exactly once, each statement and explicit descriptor in exactly one connection's list exactly once |
| HandleRuns.ImplicitBelongsToOne | driver/odbcapi_rds_helper.cpp:216-223 | over every run a descriptor is explicit or belongs to exactly one statement |
| HandleRuns.UnderlyingHeldOnce | driver/util/odbc_helper.cpp:29-69 | over every run an underlying handle that is out is held by exactly one live object, and one that is not was given back or forgotten |
| HandleRuns.FreeDescNeedsExplicit | driver/odbcapi_rds_helper.cpp:416-445 | RDS_FreeDesc keeps the tree if and only if the descriptor is an explicit one, which it does not check |
| HandleRuns.ImplicitCanBeFreed | driver/odbcapi_rds_helper.cpp:416-445 | a run that makes a statement can free one of its implicit descriptors, and the tree is broken |
| HandleReleases.ReleasedAtMostOnce | driver/util/odbc_helper.cpp:29-69 | over every mix of calls no underlying handle is let go twice: the sets that the calls release and forget are disjoint from call to call and from each other, and together they are all that was released or forgotten |
| HandleReleases.CallIsBooked | driver/odbcapi_rds_helper.cpp:365-549 | one call releases or forgets only handles that were out until then |
| HandleReleases.ForgottenExactly | driver/util/odbc_helper.cpp:29-69 | a handle is forgotten if and only if some Disconnect without a driver met its live holder below the connection |
| HandleReleases.FreedEnvReleasesAll | driver/odbcapi_rds_helper.cpp:447-478 | once an environment is freed, everything given out for it has been released if and only if no Disconnect without a driver met a live holder below it |
| HandleReleases.LoadedReleasesAll | driver/odbcapi_rds_helper.cpp:447-478 | so when the driver is loaded at every Disconnect, everything given out for a freed environment has been released |
| HandleReleases.HandleCanBeForgotten | driver/util/odbc_helper.cpp:29-69 | a run that disconnects without a driver and frees the environment: a handle is never released |
| HandleDeletion.FreeConnectIsPrune | driver/odbcapi_rds_helper.cpp:365-414 | the cascade of RDS_FreeConnect deletes the subtree of the connection: nothing less, nothing more |
| HandleDeletion.PruneKeepsValid | driver/odbcapi_rds_helper.cpp:365-414 | deleting whole subtrees keeps the tree and the books |
| HandleDeletion.PruneTwice | driver/odbcapi_rds_helper.cpp:455-460 | freeing one connection after the other is freeing them all |
| HandleDeletion.DropStmtsTwice | driver/odbcapi_rds_helper.cpp:388-393 | so for the statements of a connection |
| HandleDeletion.FreedEnvLeavesNothing | driver/odbcapi_rds_helper.cpp:447-478 | after RDS_FreeEnv nothing live is left below it and every underlying statement and explicit descriptor handle given out for it has been given back or was forgotten by a disconnect without a driver |
| HandleDeletion.FreedEnvKeepsValid | driver/odbcapi_rds_helper.cpp:447-478 | and the rest of the heap is a tree |
| HandleChanges.DisconnectedKeepsValid | driver/util/odbc_helper.cpp:29-69 | Disconnect gives every underlying handle below the connection back once and keeps the tree |
| HandleChanges.AllocStmtKeepsValid | driver/odbcapi_rds_helper.cpp:192-228 | a new statement with its four implicit descriptors keeps the tree |
| HandleChanges.AllocDescKeepsValid | driver/odbcapi_rds_helper.cpp:230-257 | so does a new explicit descriptor |
| HandleChanges.RewrapKeepsValid | driver/plugin/default_plugin.cpp:160-175 | a statement that lost its underlying handle may get a new one |
| HandleObjects.LiveEnvs | driver/odbcapi_rds_helper.cpp:158-168 | which environments are live after any call |
| HandleObjects.LiveDbcs | driver/odbcapi_rds_helper.cpp:170-190 | which connections are live after any call and to which environment each belongs |
| HandleObjects.LiveStmts | driver/odbcapi_rds_helper.cpp:192-228 | which statements are live after any call and to which connection each belongs |
| HandleObjects.LiveDescs | driver/odbcapi_rds_helper.cpp:216-257 | which descriptors are live after any call, the implicit ones with their statement |
| HandleObjects.LoadedEnvs | driver/odbcapi_rds_helper.cpp:158-168 | an environment has the driver once one of its connections has been connected |
| HandleObjects.CallsNeedLiveHandles | driver/odbcapi_rds_helper.cpp:158-549 | in every reachable heap a call needs no more than live handles, a connected connection to allocate below, and an explicit descriptor to free |
| HandleObjects.Holders | driver/util/odbc_helper.cpp:29-69 | who holds which underlying handle after any call: who was granted one, and who held one and is not a target |
| HandleObjects.TakesNewWhileConnected | driver/odbcapi_rds_helper.cpp:192-257 | over every run a connection takes new statements and descriptors exactly when the last of its connects and disconnects was a connect |
| OdbcHandles.DriverHeap.RDS_AllocEnv | driver/odbcapi_rds_helper.cpp:158-168 | adds an empty environment at a new address |
| OdbcHandles.DriverHeap.RDS_AllocDbc | driver/odbcapi_rds_helper.cpp:170-190 | adds a connection to the list of its environment; refuses a null handle |
| OdbcHandles.DriverHeap.RDS_AllocStmt | driver/odbcapi_rds_helper.cpp:192-228 | succeeds exactly on a connected connection, and adds the statement with four implicit descriptors |
| OdbcHandles.DriverHeap.RDS_AllocDesc | driver/odbcapi_rds_helper.cpp:230-257 | succeeds exactly on a connected connection, and adds the descriptor to its list |
| OdbcHandles.DriverHeap.EnsureWrapped | driver/plugin/default_plugin.cpp:160-175 | asks for an underlying handle only if there is none, and fails only if there is no connection either |
| OdbcHandles.DriverHeap.Disconnect | driver/util/odbc_helper.cpp:29-69 | walks over copies of both lists and gives back each underlying handle once |
| OdbcHandles.DriverHeap.RDS_FreeStmt | driver/odbcapi_rds_helper.cpp:480-549 | SQL_DROP deletes the statement and its implicit descriptors; the other options keep it |
| OdbcHandles.DriverHeap.RDS_FreeDesc | driver/odbcapi_rds_helper.cpp:416-445 | deletes the descriptor, explicit or not, and leaves the heap sound if and only if it was explicit |
| OdbcHandles.DriverHeap.DropStatements | driver/odbcapi_rds_helper.cpp:388-393 | sweeps a copy of the list that its callee shortens, and frees each statement once |
| OdbcHandles.DriverHeap.DropDescriptors | driver/odbcapi_rds_helper.cpp:394-399 | the same for descriptors |
| OdbcHandles.DriverHeap.SQLDisconnect | driver/odbcapi_common.cpp:694-737 | drops the statements, keeps the descriptors |
| OdbcHandles.DriverHeap.RDS_FreeConnect | driver/odbcapi_rds_helper.cpp:365-414 | frees exactly the subtree of the connection |
| OdbcHandles.DriverHeap.RDS_FreeEnv | driver/odbcapi_rds_helper.cpp:447-478 | frees every connection of the environment and everything below |
| ConnectionStrings.SearchFindsLeftmost | driver/util/connection_string_helper.cpp:25-29 | the search finds the leftmost match of the pattern, as long as possible, and fails only when there is none |
| ConnectionStrings.RegexSearch | driver/util/connection_string_helper.cpp:29 | computes that search |
| ConnectionStrings.ParseConnectionString | driver/util/connection_string_helper.cpp:23-37 | inserts the pairs found from left to right, later ones winning |
| ConnectionStrings.ParseInSegments | driver/util/connection_string_helper.cpp:29-36 | parsing goes through the parts between separators one by one, whatever they hold |
| BuiltStrings.BuildFullConnectionString | driver/util/connection_string_helper.cpp:55-66 | joins every pair of the map once |
| BuiltStrings.BuildMinimumConnectionString | driver/util/connection_string_helper.cpp:39-53 | joins every pair whose key is not a wrapper key once |
| BuiltStrings.ParseBuilt | driver/util/connection_string_helper.cpp:23-66 | parsing a built string into an empty map gives the map back, in whatever order it was built |
| BuiltStrings.CutsDecide | driver/util/connection_string_helper.cpp:78-85 | the map comes back without the removed keys exactly when their segments lost their values and all others are whole |
| KeyRemoval.RegexRemove | driver/util/connection_string_helper.cpp:81-82 | removes every match of the key, its equals sign and a value |
| KeyRemoval.RemoveInternalWrapperKeys | driver/util/connection_string_helper.cpp:78-85 | removes the three internal keys, in some order |
| KeyRemoval.RemoveInSegments | driver/util/connection_string_helper.cpp:81-82 | removal goes through the parts between separators one by one |
| KeyRemoval.RemovalErases | driver/util/connection_string_helper.cpp:78-85 | removing keys from a built string and parsing erases them from the map if and only if no remaining pair contains a removed key followed by = and a value |
| KeyRemoval.EndingsDecide | driver/util/connection_string_helper.cpp:78-85 | when no value contains =, a remaining pair is cut if and only if its key ends in a removed key |
| KeyRemoval.LongerKeyIsTouched | driver/util/connection_string_helper.cpp:78-85 | a remaining key that ends in a removed key makes the removal cut its pair, whatever the other pairs are |
| KeyRemoval.BuildRemoveParse | driver/util/connection_string_helper.cpp:55-85 | the whole path over the internal keys, one of which is lower case |
| KeyRemoval.BuildParse | driver/util/connection_string_helper.cpp:39-66 | both printers against the parser |
| BlueGreenRouting.AttemptsAreBounded | driver/plugin/blue_green/blue_green_plugin.cpp:113-149 | if the text of the matched route changes at most c times, at most 2(c+1) routes are tried |
| BlueGreenRouting.StableStatus | driver/plugin/blue_green/blue_green_plugin.cpp:135-147 | a status that stays the same makes at most two attempts, one if the text is empty |
| BlueGreenRouting.BoundIsReached | driver/plugin/blue_green/blue_green_plugin.cpp:113-149 | for every c there is a run with exactly 2(c+1) attempts |
| BlueGreenRouting.FindIf | driver/plugin/blue_green/blue_green_plugin.cpp:95-98 | finds the text of the first route that matches, or that none does |
| BlueGreenRouting.CallObeysRule | driver/plugin/blue_green/blue_green_plugin.cpp:113-149 | attempt i is the text of the first matching route of fetch i and not that of attempt i-2 (the empty text counting as tried before the first); all attempts but the last failed, and the ending has its reason |
| BlueGreenRouting.RuleDecides | driver/plugin/blue_green/blue_green_plugin.cpp:113-149 | that rule leaves no choice: what is fetched and how attempts end decides what is attempted and how the call ends |
| BlueGreenRouting.Connect | driver/plugin/blue_green/blue_green_plugin.cpp:47-172 | obeys that rule and bound, and leaves the connection attributes as they were |
| BlueGreenRouting.Execute | driver/plugin/blue_green/blue_green_plugin.cpp:174-259 | the same rule and bound |
| BlueGreenFlags.FlagsExclusive | driver/plugin/blue_green/blue_green_monitor.cpp:219-282 | in every run in which collecting is not switched between CollectHostIp and UpdateIpAddressFlags the two flags are never both true |
| BlueGreenFlags.BothTrueExactly | driver/plugin/blue_green/blue_green_monitor.cpp:238-282 | an update makes both true if and only if addresses are collected, topology is not, the first flag was left true and every first address is gone |
| BlueGreenFlags.BothTrueIfSwitched | driver/plugin/blue_green/blue_green_monitor.cpp:105-107 | switched in between, a run ends with both true |
| BlueGreenFlags.StepKeepsInvariant | driver/plugin/blue_green/blue_green_monitor.cpp:117-130 | each step and each section of ResetCollectedData keeps the invariant |
| BlueGreenFlags.FlagsSay | driver/plugin/blue_green/blue_green_monitor.cpp:238-300 | what each of the three flags says after an update, host by host |
| BlueGreenFlags.FieldsFromHistory | driver/plugin/blue_green/blue_green_monitor.cpp:219-236 | after any events, the settings are those set last and the topologies and addresses those found last, the first ones only while they were being collected and since they were reset |
| BlueGreenMonitors.BlueGreenMonitor.ResetCollectedData | driver/plugin/blue_green/blue_green_monitor.cpp:117-130 | is its three sections |
| BlueGreenMonitors.BlueGreenMonitor.CollectTopology | driver/plugin/blue_green/blue_green_monitor.cpp:345-367 | takes a non-empty topology, also as the first one while collecting |
| BlueGreenMonitors.BlueGreenMonitor.CollectHostIp | driver/plugin/blue_green/blue_green_monitor.cpp:219-236 | resolves every host, and takes the result as the first addresses while collecting |
| BlueGreenMonitors.BlueGreenMonitor.AllStartHostsMoved | driver/plugin/blue_green/blue_green_monitor.cpp:252-265 | true exactly when there are first hosts and all have another address |
| BlueGreenMonitors.BlueGreenMonitor.AllStartHostsGone | driver/plugin/blue_green/blue_green_monitor.cpp:270-282 | true exactly when there are first hosts and none resolves |
| BlueGreenMonitors.BlueGreenMonitor.NoStartHostKept | driver/plugin/blue_green/blue_green_monitor.cpp:284-299 | true exactly when both topologies have hosts and share none |
| BlueGreenMonitors.BlueGreenMonitor.UpdateIpAddressFlags | driver/plugin/blue_green/blue_green_monitor.cpp:238-300 | computes the three flags |
| BlueGreenMonitors.BlueGreenMonitor.Iterate | driver/plugin/blue_green/blue_green_monitor.cpp:150-155 | one undisturbed iteration ends with flags that exclude each other |
| RefCounts.CountsStayExact | driver/host_list_providers/rds_host_list_provider.cpp:24-58 | over every sequence of users coming and going an identifier is registered exactly when some live user holds it, its count is the number of its holders, and they share one object |
| RefCounts.LastOneErases | driver/host_list_providers/rds_host_list_provider.cpp:48-57 | the entry goes with the last user, and what is made for the identifier later is another object |
| RefCounts.AcquireKeepsExact | driver/host_list_providers/rds_host_list_provider.cpp:106-126 | one more user keeps the counts exact |
| RefCounts.ReleaseKeepsExact | driver/host_list_providers/rds_host_list_provider.cpp:46-58 | one user less keeps them exact |
| Registries.Registry.GetOrCreate | driver/host_list_providers/rds_host_list_provider.cpp:106-126 | counts one more user of the object, made if there is none |
| Registries.Registry.GiveUp | driver/host_list_providers/rds_host_list_provider.cpp:46-58 | counts one less and erases the entry with the last |
| Registries.RdsHostListProvider.constructor | driver/host_list_providers/rds_host_list_provider.cpp:24-44 | holds the monitor of its cluster |
| Registries.RdsHostListProvider.Destroy | driver/host_list_providers/rds_host_list_provider.cpp:46-58 | gives it up |
| Registries.RdsHostListProvider.SameMonitorIffSameCluster | driver/host_list_providers/rds_host_list_provider.cpp:106-126 | two live providers share a monitor if and only if they belong to the same cluster |
| Registries.BlueGreenPlugin.InitProvider | driver/plugin/blue_green/blue_green_plugin.cpp:292-332 | acquires the status provider once, however often it is called |
| Registries.BlueGreenPlugin.CleanUpStatusProvider | driver/plugin/blue_green/blue_green_plugin.cpp:334-349 | gives it up, and erases the status with the last plugin |

## Left out

- Deadlock freedom, shutdown order and liveness of the topology monitor: only safety is proved; a run ends where a null pointer would be dereferenced.
- Exceptions inside a section of the topology monitor, and the timing of its refresh rates and of the ignore window.
- That the cached topology is the newest one: ForceRefresh may write back a list it read earlier, and the model lets it.
- Running the SQL of the topology queries, authentication, logging, DSN files, dynamic loading and the ODBC entry points that only forward: I/O.
- Failover, limitless, read/write splitting and custom endpoint plugins, and the Blue/Green status provider and routes: routes are a text and whether they match; moving connections between handles by the read/write splitting plugins is not covered.
- Underlying connection and environment handles: OdbcHelper::Disconnect forgets the underlying connection without freeing it, so nothing is claimed about them.
- SQLCopyDesc onto an implicit descriptor, which would put it into a connection's list, and implicit descriptors' underlying handles, which are borrowed.
- HandleRuns.RunKeepsValid: calls are made one at a time and on live handles, because use after free has no behaviour; handle addresses are not reused.
- RoundRobinRuns.RepeatedCalls: the calls of the run are not interleaved with calls for other hosts that share entries with them.
- UnicodeForms.Slot: sizes are below 2^31, so the 32-bit lengths passed to ICU do not wrap; a code point with its top bit set is a large number here and a negative one there, not a scalar either way.
- OdbcConversion.Memcpy: source and destination do not overlap.
- BlueGreenRouting.Connect: takes a bound on the changes of the matched route, because the loop need not end when a status changes for ever; the same holds for Execute.
- RefCounts.CountsStayExact: the counter is unbounded, so more than 2^32 - 1 live users of one identifier, where an unsigned int wraps, are not covered.
- ConnectionStrings.Parse: the pattern engine is modelled by what the pattern matches, not by its backtracking; bytes are characters.
- The masking of sensitive values, aliases of keys and the DSN-only output: single replacements and look-ups.
- Random and highest-weight host selectors, host-name patterns, tables of error codes: finite or single-branch facts.
- GetLenOfSqltcharArray, conversions to and from UTF-8 and wide strings: they are ICU calls.
