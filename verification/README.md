# FastCat: models and proofs

This project models the stateful parts of FastCat in Dafny and proves what they promise. Each module is named after
the component it models.

* **Configuration of the proxy core.** `ProxyGroups` is the dependency sort of proxy groups, Kahn's algorithm over
  a mutable node map that rewrites the configuration in place, with the second peel that locates loops.
  `GroupParsing` is the parse loop that relies on it, `SubRules` and `DialerProxies` are the two depth-first checks,
  and `Walks` holds the graph facts they share.
* **Store of the device gateway.** `WriteBack` is the write-back cache of one table, `StoreProtocol` the state
  machine of memory, database and interleaved reloads, `SessionIndex` the two hash indexes, `AuditTrail` the capped
  audit list, and `GatewayStore` the store object and the database it saves to.
* **Device gateway.** `UserIdentity` is the lookup that decides which user a login belongs to, `SessionSafety` states
  what every request keeps, `Devices` has the list operations behind kicking the oldest device, `Admissions` the
  outcome of an admission, `Requests` authorization, revocation and clean-up, `LastSeen` what heartbeats record and
  the clean-up makes of it, and `Gateway` the server object. Its store carries the state of the store protocol along,
  so every request of the server is a run of it. `QrLogin` is the QR login protocol with other requests between claim,
  admission and finish.
* **Business backends.** `BackendHistory`, `BusinessBackends` and `BusinessRetry` are the circuit breaker, failback
  and retry; `ConfigVersions` is the version order, `DottedVersions` what it means for dotted numbers, and `OssConfig`
  the choice of the route configuration.
* **Bounded registries.** `StreamingRuns` is the registry of streaming probes and `SubscriptionCache` the three
  generations of cached subscriptions of the tvOS app.

Objects whose methods update them are classes whose methods are proved against a function of the old state; the
properties of whole runs are lemmas about that function. Time is an integer given to each operation. The results of
probes, requests, saves, file operations and map iteration are arbitrary.

Some things that one might expect do not hold of the code. Each is stated with its exact condition and an instance:

* A login from a known active device is admitted even when the user already has more active devices than the limit,
  so an admission ends within the limit exactly if the device was new or the limit was kept before
  (`AdmissionKeepsLimit`, `LoweredLimitIsExceeded`).
* An update does not overwrite the creation time in the database, so the creation time of a user that is stored
  anew under an id in use stays out of step with its row, even after a successful save
  (`PutIsWrittenBackExactly`, `UserIsWrittenBackExactly`, `RestampedUserStaysBehind`); all its other columns are
  written back and kept by reloads like those of any user. `upsertUserLocked` stores a user anew when nobody
  answers to the business id and e-mail of a login while the id made from that e-mail is taken, because its owner
  has changed the e-mail since (`RecordIsReplacedExactly`, `ReusedEmailReplacesRecord`). The owner's record,
  override included, is then gone, and the devices and live sessions belong to the new account, which may kick
  them (`FormerOwnerIsTakenOver`, `NewAccountKicksFormerOwner`).
* A write to the cache may lose the only readable envelope exactly if it is the oldest generation (`WriteNeverLoses`);
  `EnoughInterruptedWritesLoseAll` tells how many interrupted writes it takes to get there.
* A device may be admitted by QR login and never receive its token (`AdmittedButNeverDelivered`); a poll receives it
  exactly in time (`FinishedIsDeliveredExactlyInTime`).
* A cancelled id may restart within fifteen minutes although fewer than 64 other ids are asked for, because the runs
  that are active or were touched later count too (`OneOtherIdMayPushOut`); it cannot while all of these are fewer
  than 64 (`CancelledCannotRestart`), and it restarts exactly if its idle run is evicted (`RestartsExactlyIfEvicted`).
* The loop report names paths between two loops as well as the loops (`ProxyGroupsDagSort`, `MiddleIsReported`).

`dafny verify dfyconfig.toml` checks the whole project.

## Model

| member | source | states |
|---|---|---|
| `ProxyGroups.ProxyGroupsDagSort` | core/Clash.Meta/config/utils.go:18-145 | No error exactly when every entry decodes, the names are distinct and the reference graph (self-references, repeated references and plain proxies included) has no cycle; then the array is a permutation of the input with every group after all groups it references. A decoding or naming error names the first faulty entry and leaves the array alone; a loop error lists, without repetition, exactly the names on a cycle or on a walk from one cycle to another |
| `ProxyGroups.BuildGraph` | core/Clash.Meta/config/utils.go:30-59 | The node map holds exactly the group and reference names, each with its number of referring occurrences and its own entry if it is a group; otherwise the first undecodable or doubly named entry |
| `ProxyGroups.SortGroups` | core/Clash.Meta/config/utils.go:60-96 | Writes the groups taken from the queue into the array from the back, referrers first; what is left in the graph is what still has a referrer left |
| `ProxyGroups.AllTakenOut` | core/Clash.Meta/config/utils.go:93-96 | When the graph is empty the written array is a permutation of the configuration in dependency order |
| `ProxyGroups.LeftoverIsDownstream` | core/Clash.Meta/config/utils.go:93-96 | The nodes left over when the sort stops are exactly those that can be reached from a cycle |
| `ProxyGroups.LinkGraph` | core/Clash.Meta/config/utils.go:98-117 | The second phase fills out-degrees and reverse edges of the nodes left without ever missing a key |
| `ProxyGroups.PeelGraph` | core/Clash.Meta/config/utils.go:118-137 | Peeling nodes without references terminates, never looks up a deleted node, and keeps every node from which a cycle can be reached |
| `ProxyGroups.PeeledIsBetweenCycles` | core/Clash.Meta/config/utils.go:118-144 | The nodes that survive both peels are exactly those on a cycle or on a walk between two cycles |
| `ProxyGroups.LocateLoops` | core/Clash.Meta/config/utils.go:98-144 | The names reported are, without repetition, exactly the nodes between cycles |
| `ProxyGroups.CycleIsReported` | core/Clash.Meta/config/utils.go:138-144 | With a cycle in the configuration the report is not empty |
| `ProxyGroups.MiddleIsReported` | core/Clash.Meta/config/utils.go:118-144 | An instance of a path between two loops: a group that is on no cycle is reported |
| `Walks.ClosedSetReachesCycle` | core/Clash.Meta/config/utils.go:118-137 | In a finite set where every node has a successor inside it, every node reaches a cycle: why the peel leaves loops only |
| `GroupParsing.ParseProxyGroups` | core/Clash.Meta/config/config.go:926-967 | Sorting and then parsing succeeds exactly when the groups can be sorted, none is refused for reasons of its own, none takes the name of a plain proxy and every reference is defined somewhere, whatever the order in the file |
| `GroupParsing.SortedParsesIffComplete` | core/Clash.Meta/config/config.go:950-963 | In dependency order each group finds its references among the groups before it exactly when nothing is missing from the whole configuration |
| `GroupParsing.ParseGroups` | core/Clash.Meta/config/config.go:950-963 | The loop fails exactly at a group that is refused for itself, with a reference not parsed before it or a name already taken, and on success knows all names |
| `GroupParsing.FindProxies` | core/Clash.Meta/adapter/outboundgroup/parser.go:223-233 | A missing reference is reported exactly when there is one |
| `SubRules.VerifySubRule` | core/Clash.Meta/config/config.go:1057-1065 | No error exactly when every SUB-RULE target is defined and the graph of sub-rules is acyclic; an error is one that the rules justify |
| `SubRules.PathFits` | core/Clash.Meta/config/config.go:1067-1094 | The path of the recursion has no repetition and stays within the defined names, so its length is bounded by their number: why the recursion ends |
| `SubRules.ErrorJustified` | core/Clash.Meta/config/config.go:1067-1094 | An error of the recursion names a loop that exists or a target that is not defined |
| `SubRules.NoErrorNoReturn` | core/Clash.Meta/config/config.go:1067-1094 | When the check from a name finds nothing, no walk from it leaves the defined names, comes back to its start or meets the path |
| `DialerProxies.ValidateDialerProxies` | core/Clash.Meta/config/utils.go:148-176 | No error exactly when every dialer-proxy target exists and every chain of dialer-proxies ends after finitely many steps; an error names a proxy that is at fault |
| `DialerProxies.Search.HasCycle` | core/Clash.Meta/config/utils.go:179-203 | Finds a cycle exactly when the chain from the name never ends, and only adds to the visited set; the number of unvisited names decreases |
| `DialerProxies.BackOnPathNeverEnds` | core/Clash.Meta/config/utils.go:184-190 | A chain that returns to its own path never ends |
| `DialerProxies.VisitShrinks` | core/Clash.Meta/config/utils.go:192-203 | Every call visits a new name or stops |
| `WriteBack.SyncedMeansFlushYieldsMemory` | device_gateway/main.go:3407-3502 | Memory and table are in step exactly when writing the dirty and deleting the deleted rows yields the records in memory |
| `WriteBack.PutIsWrittenBackExactly` | device_gateway/store_postgres.go:304-379 | The save after a change makes the table equal to memory if and only if the table has no row of that id with another creation time, because an update does not overwrite it |
| `WriteBack.KeptCreationMatches` | device_gateway/store_postgres.go:304-379 | A record that keeps its creation time agrees in it with the row that is stored |
| `WriteBack.PutKeepsSynced` | device_gateway/main.go:3413-3425 | Changing a record that keeps its creation time, or adding one under an id never given out, keeps table and memory in step |
| `WriteBack.PutWhereNoneIsDeleted` | device_gateway/main.go:3407-3411 | For users, of which none is ever deleted, keeping the creation time of a record that is there is enough |
| `WriteBack.RemoveKeepsSynced` | device_gateway/main.go:3434-3452 | Marking a record as deleted keeps them in step |
| `WriteBack.FlushKeepsSynced` | device_gateway/store_postgres.go:258-302 | A flush keeps them in step whether or not the marks are cleared afterwards |
| `WriteBack.PutKeepsDataSynced` | device_gateway/store_postgres.go:304-319 | Of users, from which none is ever deleted, any record may be stored under any id: all columns but the creation time stay in step |
| `WriteBack.RowIsWrittenBackExactly` | device_gateway/store_postgres.go:304-319 | Where these columns are in step, a flush writes them, and the creation time if and only if no row of that id has another one |
| `StoreProtocol.StepKeepsInv` | device_gateway/main.go:3407-3549 | Mutations with new ids and kept creation times, users stored in any way, saves that fail before or after the commit, failed clears, rows written by others, and the steps of any number of reloads keep memory plus marks equal to the database, but for what others wrote and for the creation times of users stored anew, and dirty and deleted apart |
| `StoreProtocol.RunKeepsInv` | device_gateway/main.go:3407-3549 | The same over every run and interleaving; the revision never goes back |
| `StoreProtocol.WriteBackRefinement` | device_gateway/main.go:3462-3492 | In every state that is reached, failed saves included, applying the pending changes to the database yields the records in memory, but for rows that others wrote and for the creation times of users stored anew under their id; without others, exactly but for these times, and without such users exactly |
| `StoreProtocol.UserIsWrittenBackExactly` | device_gateway/main.go:3462-3492 | In every such state all columns of a user that others did not write are written back, and the creation time if and only if its row, where there is one, has that time |
| `StoreProtocol.SavedEqualsMemory` | device_gateway/main.go:3597-3623 | Without others, after a successful save nothing is pending and the database equals memory, but for the creation times of users stored anew |
| `StoreProtocol.RestampedUserStaysBehind` | device_gateway/main.go:2399-2409 | With one, these times do differ: a run of a user stored again and a successful save after which the database is not memory |
| `StoreProtocol.InstallIsSafe` | device_gateway/main.go:3515-3549 | When the revision is unchanged nothing is pending, so the weaker check of the sync loop equals the one on a miss, and the installed rows differ from memory only where others have written, and in the creation times of users stored anew |
| `StoreProtocol.InstallAloneIsIdentity` | device_gateway/main.go:4316-4355 | Without others a reload that is installed changes no record, but for these times |
| `StoreProtocol.LocalRecordStays` | device_gateway/main.go:3515-3549 | A record that is not changed keeps its value through any run of other mutations, saves and reloads in which others do not write it: no interleaving drops a local change; of a user that was stored anew before, all columns but the creation time |
| `GatewayStore.UnmovedMeansClean` | device_gateway/main.go:3538-3542 | While the revision is the one a reload began with, nothing is pending |
| `GatewayStore.PostgresStore.SaveChanges` | device_gateway/store_postgres.go:258-302 | Deletions and upserts take effect together or not at all: the rows afterwards are the old ones or the flushed ones, and the flushed ones on success |
| `GatewayStore.UpsertRows` | device_gateway/store_postgres.go:304-424 | The loop of upserts inserts new rows and updates the others without their creation time |
| `GatewayStore.DeleteThenUpsert` | device_gateway/store_postgres.go:268-300 | Deleting first and upserting then is the flush of both |
| `GatewayStore.Store.PendingChangesFlush` | device_gateway/main.go:3462-3492 | The change set collected for a save, applied to any database, is the flush of the marks |
| `GatewayStore.Store.SaveLocked` | device_gateway/main.go:3597-3623 | On success the marks are cleared and the database has been flushed; on failure memory and marks stay and the database is old or flushed |
| `GatewayStore.Store.HasPendingChanges` | device_gateway/main.go:3504-3510 | True exactly when a record is marked as changed or deleted |
| `GatewayStore.Store.ClearDirty` | device_gateway/main.go:3494-3502 | Forgets all marks and no record |
| `GatewayStore.Store.PutUser` | device_gateway/main.go:3407-3411 | Stores any user under any id, marks it and raises the revision |
| `GatewayStore.Store.PutDevice` | device_gateway/main.go:3413-3418 | Stores the device, marks it as changed and not deleted and raises the revision |
| `GatewayStore.Store.AddSession` | device_gateway/main.go:3397-3425 | Stores, indexes and marks a session with new hashes, and both indexes stay exact |
| `GatewayStore.Store.UpdateSession` | device_gateway/main.go:3420-3425 | Stores and marks a session whose hashes stay, and both indexes stay exact |
| `GatewayStore.Store.DeleteDevice` | device_gateway/main.go:3434-3440 | Removes and marks the device and touches nothing else |
| `GatewayStore.Store.DeleteSession` | device_gateway/main.go:3442-3452 | Removes, unindexes and marks the session, and both indexes stay exact |
| `GatewayStore.Store.AddAudit` | device_gateway/main.go:2500-2521 | Appends the record and drops the excess over 5000 from the front, unmarking and deleting exactly the dropped ids |
| `GatewayStore.Store.StartReload` | device_gateway/main.go:3515-3523 | Yields the revision, and refuses exactly when changes are pending |
| `GatewayStore.Store.LoadAll` | device_gateway/store_postgres.go:138-149 | Reads the four tables one after the other; what reload is recorded to have read is what the database holds |
| `GatewayStore.Store.InstallReload` | device_gateway/main.go:3538-3549 | Replaces the records by the tables read exactly when the revision is the one read before loading, whichever of the two checks is made; otherwise the store is unchanged. The indexes are exact afterwards if and only if no two sessions read share a hash, and always without other gateways |
| `GatewayStore.Store.ReloadOnMiss` | device_gateway/main.go:3515-3549 | Replaces the records by what the database holds exactly when nothing is pending and the tables can be read; otherwise nothing changes |
| `GatewayStore.Store.constructor` | device_gateway/main.go:3551-3589 | A store loaded from the database is in step with it, and its indexes are exact if and only if no two sessions share a hash |
| `AuditTrail.AppendAndTrim` | device_gateway/main.go:2512-2520 | The write-back cache of the audit list is put and trimmed as the list is, and the list never grows beyond its cap |
| `AuditTrail.KeptIsTheEnd` | device_gateway/main.go:2512-2520 | What is kept is the end of the list with the new record, and 5000 records at most |
| `AuditTrail.ForgetAudits` | device_gateway/main.go:2515-2518 | The records cut from the front lose their dirty mark and gain a deleted mark |
| `AuditTrail.TableDrop` | device_gateway/main.go:2514-2519 | Dropping a prefix of a list with distinct ids removes exactly those ids from its table |
| `SessionIndex.AddKeepsExact` | device_gateway/main.go:3397-3405 | Adding a new session keeps an index the exact inverse of the nonempty hashes if and only if its hash is not indexed yet |
| `SessionIndex.DeleteKeepsExact` | device_gateway/main.go:3442-3452 | Deleting a session and its hashes keeps it exact |
| `SessionIndex.UpdateKeepsExact` | device_gateway/main.go:3420-3425 | Updating a session that keeps its hashes keeps it exact |
| `SessionIndex.ExactIsUnique` | device_gateway/main.go:3384-3405 | There is only one exact index, so the incremental and the rebuilt one agree |
| `SessionIndex.RebuildIndexes` | device_gateway/main.go:3384-3395 | Rebuilding in any order yields the exact index if and only if no two sessions share a hash |
| `Devices.RemoveDeviceByID` | device_gateway/main.go:3778-3786 | Filtering the array in place leaves the list without the device in its prefix |
| `Devices.WithoutIsRemoval` | device_gateway/main.go:3778-3786 | On a list without repetitions that is set removal: one element less, the others kept |
| `Devices.OldestDevice` | device_gateway/main.go:3765-3776 | None exactly for the empty list; otherwise a device last seen no later than any other |
| `Devices.KickNext` | device_gateway/main.go:1323-1335 | Each round moves one device to the victims, all of which were last seen no later than every device left |
| `Devices.ActiveAfterRevoke` | device_gateway/main.go:2483-2488 | Revoking removes exactly the revoked devices from the active ones |
| `Devices.ActiveAfterLogin` | device_gateway/main.go:1338-1388 | How many devices are active after a login that follows revocations |
| `Gateway.Server.KickUntilBelow` | device_gateway/main.go:1323-1335 | The loop ends with limit - 1 devices left, its branch without an oldest device is never taken, and it has revoked exactly the others, each last seen no later than every one left |
| `Gateway.Server.MakeRoom` | device_gateway/main.go:1313-1336 | Refuses exactly a new device at a reached limit under the strict policy; otherwise revokes exactly active - limit + 1 oldest devices, or none |
| `Gateway.Server.AdmitDevice` | device_gateway/main.go:1309-1388 | The whole outcome: the record of the user, the limit that follows from it, and refusal with the true count, or the victims revoked and the device logged in, its creation time kept and its revocation cleared, with one new session that is active for its time to live; the count returned is the true one; the token handed out, and only with success, is new, and the session that begins is the only one that it opens, until its time to live is over; with success nothing is left to be saved; unless refused, the audit list ends with the session created |
| `Admissions.AdmissionKeepsLimit` | device_gateway/main.go:1313-1388 | After an admission under a positive limit the active devices are within it if and only if the device was new or they were within it before; the count returned is exact |
| `Admissions.KickedExactly` | device_gateway/main.go:1313-1336 | Refused is exactly a device that is not active at a limit that is reached under the strict policy, with nothing changed but the user; otherwise, at a limit that is reached, as many devices are kicked as leaves the user exactly at the limit, none of them seen later than one that stays, and below it none is |
| `Admissions.AdmittedDeviceIsActive` | device_gateway/main.go:1338-1358 | The device that logs in is active, seen now, no longer revoked by anybody, and created when it was first stored |
| `Admissions.LoweredLimitIsExceeded` | device_gateway/main.go:1317-1319 | An instance: an administrator lowers the limit to one, and one of two active devices logs in again with that limit in force and is admitted |
| `Admissions.AdmittedAuthorizes` | device_gateway/main.go:1360-1380 | The new session authorizes exactly until its time to live is over, and no other session of the device does |
| `Gateway.Server.TokenFindsSession` | device_gateway/main.go:1293-1380 | The hash of the token leads to the new session and to no other |
| `Admissions.OtherSessionsStay` | device_gateway/main.go:1323-1360 | An admission ends exactly the sessions of the devices that are kicked and of the device that logs in; every other session authorizes as before |
| `Admissions.AdmissionIsRun` | device_gateway/main.go:1309-1388 | An admission is a run of allowed requests, so what every run keeps holds across it |
| `Gateway.Server.UpsertUser` | device_gateway/main.go:2385-2435 | The user found by business id or e-mail is stored with its creation time and override kept and e-mail, business id and plan taken over, or a new one without override under the id of its e-mail; the limit returned is the override of the user or else what the login names, where null and what is not positive mean none, or else the stored limit, or else the default |
| `Gateway.Server.FindUser` | device_gateway/main.go:2466-2481 | A user id is found as such, otherwise a user with that e-mail, in any case of letters, or business id; none exactly when there is none |
| `UserIdentity.FoundExactly` | device_gateway/main.go:2466-2481 | Somebody is found exactly when the trimmed key is not empty and is the id, the business id or, in any case of letters, the e-mail of a user, and who is found is such a user |
| `UserIdentity.TrimTakesSpace` | device_gateway/main.go:2467-2467 | Trimming takes away white space only, and all that there is at the two ends |
| `UserIdentity.LowerLetters` | device_gateway/main.go:2474-2474 | Lowering turns each capital letter into its small one and changes nothing else |
| `UserIdentity.UserIdIgnoresCase` | device_gateway/main.go:2400-2401 | Two e-mails make the same user id exactly when they differ in the case of letters only |
| `UserIdentity.OverrideStaysInForce` | device_gateway/main.go:2395-2435 | Through any run of logins, of this and other users, an administrator's override stays and is the limit in force if and only if no login stores the user anew |
| `UserIdentity.LastNamedLimitIsInForce` | device_gateway/main.go:2395-2435 | After any run of logins of all users, the limit in force of a user without override is the last one that a login of the user named, 0 for null or what is not positive, unless the user was stored anew since |
| `UserIdentity.NewUserHasDefaultLimit` | device_gateway/main.go:2395-2435 | If no login of the user has named a limit since the user was stored anew, it is the default limit |
| `UserIdentity.StoredLimitIsInForce` | device_gateway/main.go:2395-2435 | If no login has stored the user anew or named a limit, it is the stored limit, or the default where none is stored |
| `UserIdentity.LastLoginIsStored` | device_gateway/main.go:2395-2420 | The record with which the last login of a run asks for admission is the one that the run leaves, so its limit is the one in force |
| `UserIdentity.LoginIsFoundAgain` | device_gateway/main.go:2385-2398 | A user who alone answers to the business id of a login is found by it, so that a repeated login does not store the user anew |
| `UserIdentity.RecordIsReplacedExactly` | device_gateway/main.go:2395-2409 | A login replaces the record of another user, with its override and creation time, if and only if its lookup finds nobody although the id of its e-mail is taken |
| `UserIdentity.ReusedEmailReplacesRecord` | device_gateway/main.go:2395-2412 | Three logins that bring that about: a user changes the e-mail, and another account comes with the old one |
| `Admissions.FormerOwnerIsTakenOver` | device_gateway/main.go:1309-1360 | When a login replaces the record of another account, the devices of the former owner count against the limit of the new one and can be kicked by it, and the sessions authorize as before unless their device is kicked or is the one that logs in |
| `Admissions.NewAccountKicksFormerOwner` | device_gateway/main.go:1309-1360 | An instance: the new account kicks the device of the former owner, whose session was live until then |
| `Gateway.Server.FindDeviceByHash` | device_gateway/main.go:2457-2464 | Finds a device of the user with the hash exactly when there is one |
| `Gateway.Server.ActiveDeviceList` | device_gateway/main.go:2437-2445 | Lists the active devices of the user, each once |
| `Gateway.Server.RevokeDeviceSessions` | device_gateway/main.go:2490-2498 | Exactly the active sessions of the device are revoked and end now |
| `Gateway.Server.RevokeWithSessions` | device_gateway/main.go:2483-2498 | Device and active sessions are revoked together |
| `Gateway.Server.HandleRevoke` | device_gateway/main.go:1410-1451 | Another user's or an unknown device is not found and nothing changes; otherwise it is revoked with its sessions; reported as saved only if nothing is left to be saved, and the audit list ends with its record |
| `Gateway.Server.PatchDeviceLimit` | device_gateway/main.go:1776-1791 | Sets or removes the override of the user found and nothing else; the audit list ends with its record, and it is reported as saved only if nothing is left to be saved |
| `Gateway.Server.Authorize` | device_gateway/main.go:1938-1982 | A miss exactly when no session has the hash; refused, with the reason, exactly when the session does not authorize; an active session found late is expired; otherwise session and device carry the time and origin of the request where the session was last seen more than sixty seconds before, and what they had otherwise; it succeeds only when a heartbeat has been saved |
| `Gateway.Server.AuthorizeWithReload` | device_gateway/main.go:1926-2000 | After a miss, and only then, the tables are read again unless changes are pending, and the same rules are applied to what was read; without other gateways a miss stays a miss |
| `Gateway.Server.AuthorizeSession` | device_gateway/main.go:1944-1980 | What becomes of a session that was found: refused or authorized as its status, expiry, device and user say, and seen now, with its device, unless it was in the last minute |
| `LastSeen.AuthorizedIsSeen` | device_gateway/main.go:1965-1972 | After an authorization at `now` the session was last seen no earlier than `now` less sixty seconds and is as live as before; so was its device, where the two had been seen together |
| `LastSeen.OthersAreNotSeen` | device_gateway/main.go:1944-1980 | An authorization changes no other session, no other device and no user |
| `LastSeen.HistoryKeepsSeen` | device_gateway/main.go:1965-1972 | In every state of every history an active session has an active device, and both were last seen at the same time |
| `LastSeen.HistoryMovesOn` | device_gateway/main.go:1965-1972 | In no history does the time at which an active session was last seen go back |
| `LastSeen.AuthorizedSurvivesCleanup` | device_gateway/main.go:4283-4293 | In every history, a clean-up that comes no later than thirty days less a minute after an authorization of a session leaves it authorizing exactly when it did before |
| `LastSeen.CleanupEndsExactly` | device_gateway/main.go:4283-4293 | In every history, a clean-up ends an active session exactly if it was last seen more than thirty days before |
| `Requests.KickedIsTold` | device_gateway/main.go:2021-2048 | A client whose device was kicked is refused with that reason at whatever time it asks, through every run in which the device neither logs in nor is revoked again nor deleted |
| `Requests.RevokedIsTold` | device_gateway/main.go:2021-2048 | Through every such run, a client whose device was revoked by kick-oldest is told that it was kicked, by the user or an administrator that it was removed, and by anyone else that the session is over, or invalid when asked with an earlier time |
| `Requests.SupersededIsTold` | device_gateway/main.go:2021-2048 | A client whose session was ended by an admission of the same device is told neither, even if the device had been kicked or removed before |
| `Requests.ExpiredIsTold` | device_gateway/main.go:2021-2048 | Through every run a session that was marked expired is refused as expired, at whatever time, until it is deleted |
| `Requests.OverdueExpires` | device_gateway/main.go:1945-1957 | An authorization that finds an active session overdue refuses it as expired, marks it, and changes nothing else |
| `Requests.RefusalExactly` | device_gateway/main.go:2021-2048 | Which of the four refusals a session gets, by its status and expiry and by who has revoked its device |
| `Gateway.Server.RevokeOffline` | device_gateway/main.go:4283-4293 | Revokes exactly the active devices not seen for thirty days, and counts them |
| `Gateway.Server.DeleteStale` | device_gateway/main.go:4295-4307 | Deletes exactly the devices revoked more than ninety days ago with all their sessions, and counts them |
| `Gateway.Server.CleanupRevokedDevices` | device_gateway/main.go:4274-4312 | Revocation first, deletion of what is stale then; reported as a change exactly if some device was to be revoked or deleted |
| `LastSeen.CleanupLeavesDevices` | device_gateway/main.go:4274-4312 | A device is gone after a clean-up exactly if it had been revoked more than ninety days before; it is revoked by it exactly if it was active and last seen more than thirty days before; otherwise it is as it was |
| `LastSeen.CleanupLeavesSessions` | device_gateway/main.go:4283-4293 | An active session is as it was exactly if its device was seen in the last thirty days, and is revoked now otherwise |
| `LastSeen.CleanupDeletesSessions` | device_gateway/main.go:4298-4304 | The sessions of the devices that are deleted are deleted with them, and no others |
| `Requests.CleanupLeads` | device_gateway/main.go:4274-4312 | A clean-up is a run of allowed requests |
| `Requests.AuthorizeLeads` | device_gateway/main.go:1941-1980 | So is what an authorization leaves behind |
| `Requests.RevokeLeads` | device_gateway/main.go:1438-1440 | So is a revocation |
| `Requests.PatchLeads` | device_gateway/main.go:1778-1790 | So is a change of the limit |
| `Requests.LeadsSafely` | device_gateway/main.go:1941-1980 | Hence whatever requests lead to is safe, and no session that has left active authorizes there |
| `Requests.HistoryIsSafe` | device_gateway/main.go:1941-1980 | Whatever admissions, authorizations, revocations, changes of limits and clean-ups a gateway serves from its empty beginning on, every state is safe, and a session that is known and not active in one state authorizes in no later one |
| `Requests.NeverAboveHighestLimit` | device_gateway/main.go:1313-1388 | Through every such history a user has no more active devices than the highest limit in force at one of its admissions, however limits are raised and lowered meanwhile |
| `Requests.SubscriptionIsKept` | device_gateway/main.go:3112-3120 | A subscription address that was looked up is stored with its session, and nothing else changes |
| `Gateway.Server.StaysInStep` | device_gateway/main.go:3462-3492 | After every request the store is in a state that the store protocol reaches, so without other gateways writing what is pending would make the tables the records in memory, but for the creation times of users stored anew |
| `SessionSafety.ApplyKeepsSafe` | device_gateway/main.go:1338-1380 | Every request keeps it that each active session belongs to an existing active device of the same existing user, that a device has at most one of them, and that a user has one device per hash |
| `SessionSafety.RunKeepsSafe` | device_gateway/main.go:1338-1380 | The same over every run of logins, revocations, expiries, clean-ups, heartbeats and user changes |
| `SessionSafety.ApplyNeverRevives` | device_gateway/main.go:1941-1980 | A session that is active after a request and was known before it was active before, with the same expiry |
| `SessionSafety.RunNeverRevives` | device_gateway/main.go:1941-1980 | The same over every run |
| `SessionSafety.RetiredNeverAuthorizes` | device_gateway/main.go:1945-1964 | A session that has left active, or has been deleted, authorizes no more after any run |
| `SessionSafety.ExpiredNeverAuthorizes` | device_gateway/main.go:1945-1957 | A session past its expiry authorizes no more, later, after any run |
| `SessionSafety.AuthorizesExactly` | device_gateway/main.go:1945-1964 | In a safe state the checks on device and user never refuse: a session authorizes exactly while it is active and not past its expiry |
| `SessionSafety.RevokeKeepsSafe` | device_gateway/main.go:2483-2498 | Revoking any set of devices with their sessions keeps the state safe |
| `QrLogin.AtMostOnce` | device_gateway/main.go:1147-1203 | Over all interleavings each challenge is claimed, admitted and delivered at most once and in this order, and one that has been cancelled is never claimed |
| `QrLogin.DeliveryIsJustified` | device_gateway/main.go:1134-1143 | A login is delivered only after the admission that produced it, to a poll with the token given at creation, before the expiry; that admission follows a claim in time |
| `QrLogin.OverdueNeverAdmitted` | device_gateway/main.go:1152-1165 | A challenge that has expired unclaimed is never admitted |
| `QrLogin.GoneNeverDelivered` | device_gateway/main.go:1104-1123 | A challenge that is gone, cancelled or swept away, never comes back and delivers nothing more |
| `QrLogin.FinishedIsDeliveredExactlyInTime` | device_gateway/main.go:1125-1145 | After a finished admission the first poll receives the login if and only if it comes with the token and by the expiry that were handed out when the challenge was created |
| `QrLogin.CancelAnswersExactly` | device_gateway/main.go:1104-1123 | As long as a challenge is in time, a cancellation with the token that was handed out succeeds exactly if nobody has claimed it and is refused as used otherwise; any other token finds nothing; and once cancelled it stays so |
| `QrLogin.CancelledIsFinal` | device_gateway/main.go:1104-1123 | Cancelling a pending challenge with its token succeeds, and after whatever else happens every claim is told that it is gone and every poll finds nothing |
| `QrLogin.ClaimAnswersExactly` | device_gateway/main.go:1152-1168 | A claim succeeds exactly if the challenge is in time and neither cancelled nor claimed; otherwise it is told that it is gone or used |
| `QrLogin.PollAnswersExactly` | device_gateway/main.go:1125-1145 | A poll with the token that was handed out learns in time how far the challenge has come, as the history tells: unclaimed, being admitted, refused, admitted, with the login, or handed out before |
| `QrLogin.AdmittedButNeverDelivered` | device_gateway/main.go:1134-1138 | A run in which the device is admitted but the target polls too late: the converse of delivery implies admission is false |
| `QrLogin.StepKeepsInv` | device_gateway/main.go:1042-1211 | Every step keeps the agreement between a challenge, its approval in flight and what has been logged about it |
| `QrLogin.RunKeepsInv` | device_gateway/main.go:1042-1211 | The same over every run |
| `QrLogin.SweepExpired` | device_gateway/main.go:1069-1073 | Exactly the expired challenges are removed |
| `QrLogin.Server.HandleSession` | device_gateway/main.go:1062-1075 | Creates the challenge, pending for 120 seconds; of the others exactly those that have expired are gone |
| `QrLogin.Server.HandlePoll` | device_gateway/main.go:1125-1145 | Answer and new state of a poll: unknown, expired and removed, the login once, or the status |
| `QrLogin.Server.HandleCancel` | device_gateway/main.go:1104-1123 | Answer and new state of a cancellation: only a pending challenge, with its token, is removed |
| `QrLogin.Server.ClaimChallenge` | device_gateway/main.go:1152-1168 | Answer and new state of a claim: only a pending challenge in time, which is no longer pending afterwards |
| `QrLogin.Server.HandleApprove` | device_gateway/main.go:1147-1203 | An approval is the claim, the admission with the outcome it has, and the finish, as one run of the protocol with any other steps before and after the admission; a claim that is refused does nothing more |
| `QrLogin.ApprovalIsRun` | device_gateway/main.go:1152-1203 | Whatever else goes on meanwhile, polls, cancellations and other approvals included, a claimed challenge can be admitted and finished |
| `QrLogin.Server.FinishSession` | device_gateway/main.go:1205-1211 | Approved with the login or failed without one, if the challenge is still there |
| `BusinessBackends.Pool.BusinessURLs` | device_gateway/main.go:2523-2553 | No repetitions, exactly the configured backends that are not cooling down, active one first and the others as configured; or exactly the first configured one when all are cooling down |
| `BusinessBackends.UsableBackends` | device_gateway/main.go:2531-2546 | The first of these two lists |
| `BusinessBackends.Pool.MarkSuccess` | device_gateway/main.go:2587-2606 | The backend is healthy, its counts are zero and it is active, since now if it was not before |
| `BusinessBackends.Pool.MarkFailure` | device_gateway/main.go:2608-2639 | One failure more for this backend only, and its row of probes begins anew; at the threshold, 2 by default, its circuit opens for the time configured, 90 seconds by default, and it is active no more |
| `BusinessBackends.Pool.SyncBackends` | device_gateway/main.go:2564-2585 | States for exactly the configured backends, kept where they existed, and no active backend that is not configured |
| `BusinessBackends.Pool.CheckRecovery` | device_gateway/main.go:2658-2724 | Only a configured backend of higher priority than the active one takes over, and exactly when it is the first one that answers, its row of successes suffices and the active one has been held long enough; each one before it was cooling down or failed its probe in this tick |
| `BusinessBackends.PromotionNeedsUnbrokenRow` | device_gateway/main.go:2696-2718 | A backend that takes over has the required number of successful probes, 3 by default, with no failed probe, failed request, promotion or removal of it between them |
| `BusinessBackends.PromotableExactly` | device_gateway/main.go:2683-2718 | A candidate takes over exactly when no earlier one answers outside of its cooling period, it does, its row of probes is long enough with this one, and the minimum hold since the last change is over |
| `BusinessBackends.Pool.RunRecoveryChecker` | device_gateway/main.go:2641-2652 | Over any number of ticks, with whatever others do between them, no tick makes a backend active within the minimum hold after the last change of the active backend, whoever made it |
| `BusinessBackends.Pool.ProbeInOrder` | device_gateway/main.go:2683-2699 | Probes up to the first candidate that answers, skipping those that are cooling down |
| `BackendHistory.ProbeRunIsUnbroken` | device_gateway/main.go:2690-2704 | The recovery count is the length of an unbroken row of successful probes at the end of the history |
| `BusinessBackends.SuccessKeepsConsistent` | device_gateway/main.go:2587-2606 | A success keeps counts and circuits in agreement with the history |
| `BusinessBackends.Pool.TryBusinessURLs` | device_gateway/main.go:2978-3022 | Requests go out in the order of the usable backends at the beginning. One that is not a GET, HEAD or OPTIONS, nor a POST to a path ending in /passport/auth/login, is sent at most once, to the first backend for which it can be built, and what comes of that is the reply. The others are sent to each backend for which they can be built up to the first answer below 500, which is the reply, or to all of them. Each send leaves exactly one health mark, success for an answer below 500 and failure otherwise, whatever others do meanwhile |
| `BusinessRetry.RepeatableRequests` | device_gateway/main.go:3024-3036 | A request may be repeated exactly when it is a GET, HEAD or OPTIONS, or a POST whose path ends in /passport/auth/login |
| `BusinessRetry.UnsafeIsSentOnce` | device_gateway/main.go:2999-3016 | A request that must not be repeated is sent to the first backend for which it can be built and to no other; an answer of 500 or more from it is the reply, too |
| `BusinessRetry.UnbuildableIsNotSent` | device_gateway/main.go:2983-2988 | Where a request can be built for no backend nothing is sent, and the reply is the last error |
| `BusinessRetry.BuildableMembers` | device_gateway/main.go:2983-2988 | The backends for which the request can be built are exactly the members of the list that sends are compared with |
| `BusinessRetry.BuildableGrows` | device_gateway/main.go:2983-2988 | They stand in it in the order of the backends |
| `BusinessRetry.SendsAreDistinct` | device_gateway/main.go:2978-3022 | No backend receives a request twice |
| `BusinessRetry.FirstGoodAnswerWins` | device_gateway/main.go:2989-3016 | For a repeatable request the reply is the first answer below 500 in the order of the list, and it was sent to exactly the backends up to that one for which it could be built, in order |
| `BusinessRetry.NoGoodAnswer` | device_gateway/main.go:2989-3022 | Without such an answer the reply is the answer of the last backend or the last error, and all for which it could be built have been tried, in order |
| `ConfigVersions.CompareConfigVersions` | device_gateway/main.go:654-686 | Returns -1, 0 or 1 exactly as the parts between the dots, read as numbers and padded with zeros, compare at their first difference, the empty version lowest |
| `ConfigVersions.Exclusive` | device_gateway/main.go:654-686 | Lower and equal exclude each other, and equal is symmetric |
| `ConfigVersions.Transitive` | device_gateway/main.go:654-686 | Lower and equal are transitive, also mixed |
| `ConfigVersions.Total` | device_gateway/main.go:654-686 | Any two versions compare: together, a total preorder |
| `DottedVersions.DottedOrder` | device_gateway/main.go:654-686 | For all nonempty sequences of numbers up to the largest 64-bit integer, their dotted decimal spellings compare as the zero-padded numbers do at their first difference, and are the same exactly when all numbers are |
| `DottedVersions.DigitsOfDecimal` | device_gateway/main.go:670-675 | Reading the decimal spelling of a number, written by division, gives the number back |
| `DottedVersions.AtoiOfDecimal` | device_gateway/main.go:670-675 | So does the parser, with and without a sign, up to the 64-bit range and with the nearest end of the range beyond it |
| `DottedVersions.NotANumber` | device_gateway/main.go:670-675 | A part with a character that is no digit, apart from a sign in front, counts as zero |
| `DottedVersions.SplitOfDotted` | device_gateway/main.go:664-665 | Splitting a dotted version gives back the spellings of its numbers, one for each |
| `DottedVersions.TenComesAfterNine` | device_gateway/main.go:666-684 | Instances: 9 is lower than 10, and 1.9 is lower than 1.10 |
| `DottedVersions.EmptyIsLowest` | device_gateway/main.go:655-663 | The empty version is lower than every other one and the same as itself only |
| `DottedVersions.ZeroAtTheEnd` | device_gateway/main.go:666-684 | An instance: 1.0 is the same as 1 |
| `DottedVersions.LeadingZero` | device_gateway/main.go:670-675 | A zero in front of a number changes nothing |
| `OssConfig.FetchGroup` | device_gateway/main.go:498-525 | The winner is a received result that no other one beats, by version and then by position; none exactly when nothing usable arrived |
| `OssConfig.WinnerIgnoresOrder` | device_gateway/main.go:498-525 | Any two arrival orders of the same results have the same winner |
| `OssConfig.RouteConfig.FetchBusinessBaseURLs` | device_gateway/main.go:341-428 | What is served was reachable, and nothing is served exactly when no route was; a configuration of a mirror is served only if it is newer than the cache or the cache cannot be reached at once, and the cache instead of a reachable result only if it is no older; the cache takes over exactly a reachable result that is newer, if it can be written |
| `OssConfig.ResultIsNewest` | device_gateway/main.go:382-390 | What the mirrors come to is a usable configuration of a normal mirror that none of them exceeds, of the emergency mirror where no normal one has any, and none exactly when nothing usable has come; of equal ones it is that of the first mirror |
| `OssConfig.RunNeverLowers` | device_gateway/main.go:400-427 | Over any run of refreshes a readable cache ends unchanged or with a strictly higher version |
| `OssConfig.RunKeepsUp` | device_gateway/main.go:400-427 | Over any run the cache ends no older than any result whose route was reachable when the cache could be written |
| `StreamingRuns.ReachableIsBounded` | core/streaming_probe.go:55-111 | From the empty registry on, it holds no more than 64 runs or one more than the most that were ever active at once; every run counts exactly its outstanding acquisitions and no acquired run is lost |
| `StreamingRuns.RunKeepsInv` | core/streaming_probe.go:55-111 | Over every run: distinct contexts, exact counts, and a context that has left the registry has been cancelled; none is ever uncancelled |
| `StreamingRuns.StepKeepsInv` | core/streaming_probe.go:55-111 | The same for one acquisition, release or cancellation |
| `StreamingRuns.PeakIsMostActive` | core/streaming_probe.go:55-84 | The peak that the bound speaks of is the largest number of active runs in any state of the run |
| `StreamingRuns.LostIsEvicted` | core/streaming_probe.go:57-79 | A step takes away the run of an id exactly when it evicts it, and then no acquisition of it is outstanding |
| `StreamingRuns.IdleIsSwept` | core/streaming_probe.go:57-62 | A run idle for more than fifteen minutes is gone after the next acquisition or cancellation, and its context is cancelled |
| `StreamingRuns.TouchedWhen` | core/streaming_probe.go:80-111 | After any step a run carries the time when it was made, last released or last cancelled; an acquisition leaves the time of a run that is there |
| `StreamingRuns.CancelledForAReason` | core/streaming_probe.go:57-79 | A context is cancelled by a cancellation of its own id or by the eviction of its idle run, and by nothing else |
| `StreamingRuns.CancelledIdCannotRestart` | core/streaming_probe.go:102-111 | After a cancellation every acquisition of the id gets the cancelled context until the idle run is evicted |
| `StreamingRuns.RestartsExactlyIfEvicted` | core/streaming_probe.go:55-111 | Through any run an id keeps the context of its run, cancelled or not, exactly if that run is never evicted; a context that has left the registry never comes back |
| `StreamingRuns.CancelLeavesTombstone` | core/streaming_probe.go:102-111 | A cancellation leaves a cancelled run under the id, whether or not it had one |
| `StreamingRuns.CancelTouches` | core/streaming_probe.go:108-110 | In every state, the run of an id that is cancelled at a time is there afterwards, cancelled and touched at that time |
| `StreamingRuns.ReleaseTouches` | core/streaming_probe.go:94-98 | A release leaves the run that was handed out, with one user less and touched at that time |
| `StreamingRuns.TombstoneStays` | core/streaming_probe.go:102-111 | Until then the cancelled run stays the run of its id |
| `StreamingRuns.TombstoneCannotGo` | core/streaming_probe.go:57-79 | It is not evicted while the time since it was touched is within the retention and the ids active then, touched then or asked for since are fewer than 64 |
| `StreamingRuns.CancelledStaysCancelled` | core/streaming_probe.go:86-111 | So within these bounds the id cannot restart, whatever is acquired, released and cancelled meanwhile |
| `StreamingRuns.CancelledCannotRestart` | core/streaming_probe.go:55-111 | From any invariant state: after a cancellation of an id at `now`, every acquisition of it until `now` plus fifteen minutes gets the cancelled context, whatever is acquired, released and cancelled meanwhile, provided that the other ids that are active or touched at `now` or later, or are asked for meanwhile, are fewer than 64 |
| `StreamingRuns.OneOtherIdMayPushOut` | core/streaming_probe.go:66-79 | Why the active ones count too: from the empty registry, a run in which 64 runs are active, an id is cancelled, one of the 64 ends, and one request for one other id lets the cancelled id restart 300 seconds after its cancellation |
| `StreamingRuns.Registry.RunOf` | core/streaming_probe.go:55-84 | Sweeps the stale runs, finds or makes the run of the id and, for a new one in a full registry, evicts the longest idle one |
| `StreamingRuns.Registry.Sweep` | core/streaming_probe.go:57-62 | Cancels and removes exactly the runs idle for more than fifteen minutes |
| `StreamingRuns.Registry.OldestIdle` | core/streaming_probe.go:68-74 | None exactly when every run is active; otherwise an idle run that none has been idle for longer than |
| `StreamingRuns.Registry.Acquire` | core/streaming_probe.go:86-92 | The whole new state; the empty id changes nothing and has no run |
| `StreamingRuns.Registry.Release` | core/streaming_probe.go:94-99 | One user less for the run that was handed out, which is still the registered one and is touched now, and nothing else |
| `StreamingRuns.Registry.Cancel` | core/streaming_probe.go:102-111 | The run of the id, made if there was none, is cancelled and touched now; the empty id changes nothing |
| `SubscriptionCache.WriteNeverLoses` | tvos/FastCatTV/GatewayClient.swift:539-568 | Wherever a write stops, with or without its error handler, what can be read is what could be read before or the new envelope, if and only if the oldest generation is not the only one that decodes |
| `SubscriptionCache.Cache.Write` | tvos/FastCatTV/GatewayClient.swift:539-568 | The files pass through the states of a write, and on success every generation has taken the place of the one behind it; no move or copy meets an existing file |
| `SubscriptionCache.Cache.Rotate` | tvos/FastCatTV/GatewayClient.swift:549-560 | Each of the four steps is taken in turn or the rotation stops where one fails |
| `SubscriptionCache.Cache.PutBack` | tvos/FastCatTV/GatewayClient.swift:561-567 | The error handler leaves the files as they are, a damaged current file or a copy of the previous one, and only where there is no current one |
| `SubscriptionCache.HoldsLastThree` | tvos/FastCatTV/GatewayClient.swift:549-560 | After completed writes the cache holds the last three envelopes, newest first |
| `SubscriptionCache.CompletedIsRotated` | tvos/FastCatTV/GatewayClient.swift:549-560 | The sequence of conditional moves amounts to one shift of the generations |
| `SubscriptionCache.Cache.Read` | tvos/FastCatTV/GatewayClient.swift:516-537 | Returns the first generation that decodes, an error exactly if there are generations and none of them decodes, nothing exactly if there is none; its restore passes only through states in which the answer is the same |
| `SubscriptionCache.Cache.RestoreFallback` | tvos/FastCatTV/GatewayClient.swift:575-580 | On success the current file is a copy of the generation found |
| `SubscriptionCache.ReadChangesNoAnswer` | tvos/FastCatTV/GatewayClient.swift:516-580 | Nothing that a read does, wherever it stops, changes what the next read returns |
| `SubscriptionCache.ReadingBetweenWritesLosesNothing` | tvos/FastCatTV/GatewayClient.swift:516-568 | Any number of interrupted writes loses nothing when each is followed by a read that restores |
| `SubscriptionCache.FewInterruptedWritesLoseNothing` | tvos/FastCatTV/GatewayClient.swift:539-568 | Without reads, what is read comes from the start or from an attempt as long as fewer writes are interrupted than generations can be buried |
| `SubscriptionCache.EnoughInterruptedWritesLoseAll` | tvos/FastCatTV/GatewayClient.swift:539-568 | Without reads, interrupted writes can empty the cache if and only if there are that many of them |

## Left out

- Graph nodes, records, backend states and challenges are values in maps, where the code has pointers shared by several maps or held by a caller; only servers, stores, registries and streaming runs are objects.
- ProxyGroups.ProxyGroupsDagSort: the node field `topo` is always -1 and is not modelled, and the text of the errors is reduced to what they name.
- GroupParsing.ParseGroups: which entries are refused for reasons of their own, such as type, providers or fallback proxy, is a given predicate.
- Devices.RemoveDeviceByID: the in-place filter is proved on an array; the admission uses the sequence function that it is proved to compute.
- Gateway.Server.UpsertUser: letters are lowered and spaces trimmed for ASCII only, and the lower-case e-mail stands for its keyed hash.
- Gateway.Server.Authorize: the two refusal texts of the subscription token are not told apart.
- Gateway.Server.AuthorizeWithReload: no other request comes between the steps of its reload; StoreProtocol has all such interleavings. That the database holds ids and hashes given out at random, none of them twice, is its precondition.
- StoreProtocol.RunKeepsInv: the revision is an unbounded number, and full rows that another gateway writes from stale memory are only known to be foreign.
- GatewayStore.Store.SaveLocked: the mode without a database, which writes one JSON file, and the migration from that file are not modelled.
- BusinessBackends.Pool.TryBusinessURLs: what others do comes before the building of a request or after its mark, not between sending and marking.
- BusinessBackends.Pool.CheckRecovery: a recovery tick is one step, and the times of the last success and failure are not kept.
- OssConfig.FetchGroup: the settlement window is the choice of which results have been received.
- StreamingRuns.Registry.Acquire: a context is known by a number, and what is done under it is not modelled.
- SubscriptionCache.Cache.Write: one token's directory, with removals, moves and the atomic write taken as indivisible; the removal of other tokens' directories is not modelled.
- Tokens, hashes, ids and encryption: a token is known by its hash, hashes are strings that differ for different tokens, and new ids are new.
- HTTP handlers, JSON shapes, logging, SQL text, admin pages, statistics and address masking.
- The `parseHosts` loop check, the remote-config version order of the tvOS app, DNS transports, user interfaces and VPN plumbing.
