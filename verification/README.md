# MicroDNS: a model of its state machines

MicroDNS is a DNS server whose zones live in an embedded key/value store, with
several small state machines writing to it: a load balancer's health monitor, an
mDNS discovery cache with its publisher, a Kubernetes reconciler, zone transfer,
zone replication and a DHCP lease table. This project models those parts and
proves what they promise over every input, every run and every interleaving.

`dafny verify dfyconfig.toml` checks all of it.

| module | part of the system |
|---|---|
| `Text`, `Types` | string splitting and ordering; the stored entities |
| `Store`, `ZoneIndex`, `Database` | the record table and its string index, the zone table and its name index, the database handle |
| `Names` | zone choice, wildcards and name existence, on strings and on labels |
| `Serial` | serial bumps and serial comparison |
| `Health`, `Monitor` | probe histories, restarts, failsafe and the probe cycle |
| `MdnsCache`, `Glob` | announcement lifetimes, refresh queries, name patterns |
| `Publish`, `Sharing` | one publisher's reconcile; several writers in one zone |
| `Wire`, `Transfer`, `Authority` | answers and zone transfer; the server's response |
| `Leases` | leases with their MAC and IP indexes |
| `Replication` | pull replication as a protocol of steps |
| `Reverse`, `Reconcile` | reverse names; the cluster zone and its PTR records |
| `Forward` | choosing an upstream in two ways |

Objects whose methods update them are classes (`Db`, `HealthState`,
`HealthMonitor`, `Cache`, `Publisher`, `ZoneTransfer`, `LeaseManager`,
`Reconciler`); each method is tied to a function of the old state, and the
lemmas are about those functions. Protocols whose steps interleave
(`Replication`, `Sharing`) are state machines.

The main results:

- the hand-kept record index refines the plain table over every run (`Store.RunRefinesPlain`)
- string resolution refines a meaning on labels (`Names.AnswerRefinesLabels`)
- a response holds exactly the records found for its question (`Authority.AnswersAreTheRecords`,
  `Authority.PatternAnswersAreTheRecords`, `Authority.ResponseIs`), and exactly when a stored name is denied
  (`Authority.OwnedNameIsDeniedExactly`)
- status and times as properties of probe histories, and invisible restarts (`Health.StatusOfHistory`,
  `Health.TimesOfHistory`, `Monitor.RestartIsInvisible`)
- every probe cycle keeps groups served (`Monitor.CycleKeepsGroupsServed`)
- cache contents, conservation and query bounds over histories (`MdnsCache.EntryFromHistory`,
  `MdnsCache.CachedExactlyWhileAlive`, `MdnsCache.LearnedIsConserved`, `MdnsCache.OneQueryPerAnnouncement`)
- a publisher converges and is idempotent (`Publish.PassReconciles`), a reporter registers and withdraws
  exactly what it should (`Sharing.UndisturbedReport`), and several writers respect each other's records
  over every interleaving (`Sharing.RunRespectsOwner`)
- which patterns the greedy matcher decides (`Glob.ExactPatterns`)
- the transfer round trip for any cut (`Transfer.TransferArrives`, `Transfer.AxfrRoundTrip`)
- serials over any dates (`Serial.VersionsIncrease`, `Serial.CheckIsRight`)
- replicas have what they noted, and one sync catches up (`Replication.ReplicasHaveWhatTheyNoted`,
  `Replication.OneSyncCatchesUp`)
- one lease per MAC ever after, found exactly while it runs (`Leases.CleanEverAfter`, `Leases.LeaseLives`)
- forward zone and PTR records over every run of reconciles and over restarts (`Reconcile.Reconciler.Apply`,
  `Reconcile.StaleSurvivesUntilWanted`)
- two ways of choosing an upstream (`Forward.TableAgreesWithScan`)

Where a promise does not hold as it stands, the model keeps the code's behaviour,
shows an input on which it fails, and says exactly when it is met:

| promise | fails on | exact condition |
|---|---|---|
| an update keeps the index exact | `Store.RenameBreaksIndex` | `Store.UpdateIndexed` |
| a create keeps the index exact | `Store.ReusedIdBreaksIndex` | `Store.StepKeepsIndex` |
| zones and names stay one to one | `ZoneIndex.TakenNameBreaksInverse` | `ZoneIndex.StepKeepsInverse` |
| a stored name is not denied | `Authority.UpperCaseZoneIsDenied`, `Authority.MixedNameIsDenied` | `Authority.OwnedNameIsDeniedExactly` |
| answers carry the name asked for | `Authority.AtSignAnswersAsApex` | `Authority.AnswersCarryTheQuestion` |
| a pattern matches its language | `Glob.OtherPatternsMiss` | `Glob.ExactPatterns` |
| a transfer is complete | `Transfer.StoredSoaCutsShort` | `Transfer.ImportedIsComplete` |
| the IP index is right | `Leases.SharedIpBreaksIndex` | `Leases.CreateIpRight` |
| an expiry purge spares live leases | `Leases.PurgeHidesLiveLease` | `Leases.PurgeOrphansLiveLeases` |
| a bump is newer | `Serial.FarDateLooksOlder` | `Serial.BumpIsNewer` |
| both lookups choose one upstream | `Forward.UnusableFallsBack` | `Forward.TableAgreesWithScan` |

An empty message ends a transfer as if the zone were complete
(`Transfer.FirstBadFrameEnds`).

A replica that failed between two transactions can serve a serial ahead of its
records (`Replication.FailedSyncServesAhead`); how far, and when it cannot, is
`Replication.ServedSerialIsBetween`.

What the model takes as given:

- A transaction of the store is atomic, and stored values come back as written.
- An identifier is a non-empty string without comma or colon, and a newly drawn
  one is not in use.
- The clock, probe results, new identifiers, the order of hash maps, arriving
  messages, and the network's losses are parameters or free choices.
- The DNS library decides which strings are names (`Wire.Library`); a name that
  parses prints as it was read, and messages arrive as they were sent.
- A serial at its maximum wraps around, as it does without overflow checks.
- In `Publish` a shadowing record counts whether enabled or not, as in the code;
  the zone's record list is read once at the start of a pass.
- `Reconcile` covers what its source promises when the cluster domain is not
  itself the name of a /24 or /64 reverse zone and nothing but this and earlier
  reconcilers writes PTR records there (`Reconcile.Reconciler.Inv`).
- Case is folded in ASCII only, which is what host names use.

## Model

| member | source | states |
|---|---|---|
| `Store.IndexKeyInjective` | crates/microdns-core/src/db.rs:298-324 | the string `zone:name:type` determines all three parts, whatever the name contains |
| `Store.DropZoneIndexed` | crates/microdns-core/src/db.rs:207-255 | dropping a zone through its key prefix removes exactly that zone's records and keeps the index exact |
| `Store.StepKeepsIndex` | crates/microdns-core/src/db.rs:298-504 | any one operation keeps the index exact if and only if new records carry new ids and an update keeps zone, name and type; its effect on the record table is the plain one |
| `Store.UpdateIndexed` | crates/microdns-core/src/db.rs:441-455 | an update keeps the index exact if and only if it keeps zone, name and type |
| `Store.InsertAllIndexed` | crates/microdns-core/src/db.rs:640-693 | inserting a batch keeps the index exact if and only if the ids are distinct and none is stored |
| `Store.RunRefinesPlain` | crates/microdns-core/src/db.rs:207-693 | over every admissible run of creates, updates, deletes, replacements and zone drops the indexed store refines the plain record table |
| `Store.RenameBreaksIndex` | crates/microdns-core/src/db.rs:441-455 | the failing input: a renamed record leaves the index inexact, and its new name finds nothing |
| `Store.ReusedIdBreaksIndex` | crates/microdns-core/src/db.rs:298-324 | the failing input: a second record under one id leaves the index inexact |
| `Store.LookupIsFilter` | crates/microdns-core/src/db.rs:341-369 | a query answers exactly the enabled records of that zone, name and type, each once, as a filter over the whole table |
| `Store.ListIsFilter` | crates/microdns-core/src/db.rs:415-439 | listing a zone gives exactly its stored records, each once, as a filter over the whole table |
| `Database.Db.CreateRecord` | crates/microdns-core/src/db.rs:298-324 | the tables move as specified, and the index stays exact precisely when the id was new |
| `Database.Db.UpdateRecord` | crates/microdns-core/src/db.rs:441-455 | an unknown id is an error; the index stays exact precisely when the key is kept |
| `Database.Db.DeleteRecord` | crates/microdns-core/src/db.rs:457-504 | the record, its index entry and its health row go, nothing else; an unknown id is an error |
| `Database.Db.DeleteZoneRecords` | crates/microdns-core/src/db.rs:258-294 | the zone's records go, and the sum of the list lengths is their number |
| `Database.Db.DeleteZone` | crates/microdns-core/src/db.rs:207-255 | zone, name entry and all records of the zone go together; an unknown zone is an error |
| `Database.Db.ReplaceZoneRecords` | crates/microdns-core/src/db.rs:640-693 | other zones' records stay, the new ones are stored, and the index stays exact precisely when their ids are new and distinct |
| `Database.Db.QueryRecords` | crates/microdns-core/src/db.rs:341-369 | the answer is the filter over the record table: enabled, of that zone, name and type, each once |
| `Database.Db.ListRecords` | crates/microdns-core/src/db.rs:415-439 | the answer is the filter over the record table: all records of the zone, each once |
| `Database.Db.ListZones` | crates/microdns-core/src/db.rs:192-205 | the list holds exactly the stored zones |
| `Database.Db.FindZoneForFqdn` | crates/microdns-core/src/db.rs:1105-1108 | the zone found is the authority on labels among the stored zones, and none is found only if there is none |
| `ZoneIndex.StepKeepsInverse` | crates/microdns-core/src/db.rs:132-149 | creating, upserting and deleting zones keeps table and name index inverse if and only if a new zone has its own name and a new id, and an upsert takes no other zone's name |
| `ZoneIndex.RunKeepsInverse` | crates/microdns-core/src/db.rs:615-637 | over every admissible run zones and names stay one to one |
| `ZoneIndex.TakenNameBreaksInverse` | crates/microdns-core/src/db.rs:615-637 | the failing input: an upsert under a name another zone has |
| `Database.MostSpecificZone` | crates/microdns-core/src/db.rs:1222-1236 | the scan that keeps the best so far returns the longest covering zone |
| `Database.Db.QueryFqdn` | crates/microdns-core/src/db.rs:560-610 | the slicing loop equals the meaning on label lists |
| `Database.Db.QueryWildcards` | crates/microdns-core/src/db.rs:587-609 | the wildcard loop ends and returns the first non-empty answer of ever shorter tails |
| `Database.Db.NameExistsInZone` | crates/microdns-core/src/db.rs:374-388 | one ordered range probe decides whether any record is stored under the name |
| `Database.Db.FqdnExists` | crates/microdns-core/src/db.rs:393-412 | true exactly if the name is held in its most specific zone |
| `Database.Db.IncrementSoaSerial` | crates/microdns-core/src/db.rs:518-555 | bumps one zone's serial and changes nothing else; an unknown zone is an error |
| `Names.CoversIsLabelSuffix` | crates/microdns-core/src/db.rs:1222-1236 | the string suffix test is the suffix relation on labels |
| `Names.CoveringZonesAreNested` | crates/microdns-core/src/db.rs:1222-1236 | two zones that cover one name are ordered by length as by labels, and equal lengths mean equal zones |
| `Names.BestIsAuthority` | crates/microdns-core/src/db.rs:1222-1236 | the linear scan finds a zone with the most labels among those that cover the name, and that zone's name is unique |
| `Names.FirstFoundIsFirst` | crates/microdns-core/src/db.rs:587-609 | the answer is that of the first owner in turn with enabled records of the type, all earlier ones having none |
| `Names.WildTriesOwnersInTurn` | crates/microdns-core/src/db.rs:587-609 | slicing off one label at a time tries `*` over each shorter tail, down to `*` alone |
| `Names.AnswerRefinesLabels` | crates/microdns-core/src/db.rs:560-610 | for every name and zone set the string loop refines the label-list meaning, answered from the authority only |
| `Names.AnswersComeFromTheAuthority` | crates/microdns-core/src/db.rs:560-610 | every answer is a stored, enabled record of the asked type in the most specific zone |
| `Names.RangeProbe` | crates/microdns-core/src/db.rs:374-388 | the least key from the prefix on has that prefix exactly if some key does |
| `Names.HeldIsAKeyPrefix` | crates/microdns-core/src/db.rs:374-388 | over an exact index some key has the name's prefix exactly if some stored record is held under the name |
| `Names.OwnedNamesAreHeld` | crates/microdns-core/src/db.rs:374-388 | a name that owns a record, enabled or not, is held; conversely if stored names are free of colons |
| `Serial.BumpIncreases` | crates/microdns-core/src/db.rs:532-540 | for every date a bump increases the serial if and only if it is below its maximum |
| `Serial.BumpIsLeast` | crates/microdns-core/src/db.rs:532-540 | below the maximum, a bump goes to the least serial above the old one and not below the day's, or one up if the day's does not fit 32 bits |
| `Serial.StampsFollowDays` | crates/microdns-core/src/db.rs:532-536 | the day's number is later exactly for a later day, with room for a hundred changes a day |
| `Serial.VersionsIncrease` | crates/microdns-core/src/db.rs:532-540 | over any sequence of dates, until the maximum is reached, versions have strictly increasing serials |
| `Serial.NewerIsAsymmetric` | crates/microdns-auth/src/secondary.rs:299-301 | no two serials are each newer than the other |
| `Serial.NewerIsTransitiveInAWindow` | crates/microdns-auth/src/secondary.rs:299-301 | newer-than composes exactly on triples that span less than 2^31 |
| `Serial.BumpIsNewer` | crates/microdns-auth/src/secondary.rs:299-301 | a bump is newer under section 3.2 of RFC 1982 unless the date jumps the serial by 2^31 or more; always while the stamp is below 2^31 |
| `Serial.FarDateLooksOlder` | crates/microdns-auth/src/secondary.rs:299-301 | the failing input: serial 1 bumped in the year 2148 |
| `Serial.CheckIsRight` | crates/microdns-auth/src/secondary.rs:213-233 | a secondary skips the transfer exactly when it holds the primary's very version, and calls the primary older exactly when the serials are 2^31 or more apart |
| `Health.CountersAreRuns` | crates/microdns-lb/src/state.rs:94-139 | each counter is the length of the latest run of its result, cut off at 2^32-1 |
| `Health.StatusOfHistory` | crates/microdns-lb/src/state.rs:94-139 | for every history, Unhealthy, Healthy and Unknown are each characterised by the runs of successes and failures in it; saturation never shows |
| `Health.TimesOfHistory` | crates/microdns-lb/src/state.rs:94-139 | for every history, the time a record was last healthy is that of its last successful probe, none exactly if there was none, and the time it was checked is that of its last probe |
| `Health.ChangeOfHistory` | crates/microdns-lb/src/state.rs:94-139 | the time of the last change is that of the last probe that changed the status, none exactly if none did |
| `Health.ObservedIsAfter` | crates/microdns-lb/src/state.rs:250-283 | among the results for all records, the health of each depends on its own probes only, in their order |
| `Health.LastHealthyOfEvents` | crates/microdns-lb/src/state.rs:94-139 | over any sequence of results, a record was last healthy when the last good result for it arrived, and never exactly if none did |
| `Health.RowRoundTrip` | crates/microdns-lb/src/state.rs:152-170 | a probed record comes back from its stored row as it was, with its last probe for the last change if it never changed |
| `Health.AlikeForever` | crates/microdns-lb/src/state.rs:66-89 | two states that differ only in ways no decision reads stay so under every probe sequence |
| `Health.HealthState.RetainOnly` | crates/microdns-lb/src/state.rs:214-225 | exactly what is no longer live is dropped and reported |
| `Health.HealthState.RecordResult` | crates/microdns-lb/src/state.rs:94-139 | one record moves by one probe, whose effect on status, counters and all three times is pinned over histories by `StatusOfHistory`, `CountersAreRuns`, `TimesOfHistory` and `ChangeOfHistory`; the new status is reported exactly if it changed |
| `Health.HealthState.FailsafeRecords` | crates/microdns-lb/src/state.rs:285-311 | one member of every group that is down and was ever alive, and none of any other; no member was alive later |
| `Monitor.RestartIsInvisible` | crates/microdns-lb/src/monitor.rs:225-324 | after a restart every later probe sequence gives the same status, enabled decision and failsafe candidates |
| `Monitor.CycleRecalls` | crates/microdns-lb/src/monitor.rs:289-472 | a cycle leaves every live record as its probes before and in the cycle make it, and a record that was not live starts anew |
| `Monitor.OneProbeEach` | crates/microdns-lb/src/monitor.rs:427-441 | in a cycle every monitored record has exactly one probe, the one that arrived for it |
| `Monitor.RestartRecalls` | crates/microdns-lb/src/monitor.rs:225-281 | what a restart loads is what the same probes make of the records that are still checked |
| `Monitor.SameGroup` | crates/microdns-lb/src/state.rs:285-300 | records are of one group exactly if they have the same zone, name and type |
| `Monitor.GroupKeepsServing` | crates/microdns-lb/src/monitor.rs:443-486 | a group keeps an enabled record if and only if some member is not Unhealthy, or it has two or more members and one was ever alive |
| `Monitor.DownGroupKeepsItsLastAlive` | crates/microdns-lb/src/state.rs:285-311 | in a group of two or more whose probes left every member down after some success, exactly one record is enabled, and no member's last successful probe is later than its |
| `Monitor.HealthMonitor.Hydrate` | crates/microdns-lb/src/monitor.rs:225-281 | over any state, rows of records still checked are loaded and the other rows deleted; nothing else changes |
| `Monitor.HealthMonitor.CollectTargets` | crates/microdns-lb/src/monitor.rs:292-368 | the targets are the checked records of all zones, each once |
| `Monitor.HealthMonitor.Enrolment` | crates/microdns-lb/src/monitor.rs:313-384 | live records keep their health or start afresh; the rest is dropped with its rows |
| `Monitor.HealthMonitor.Decide` | crates/microdns-lb/src/monitor.rs:427-472 | in whatever order results arrive, the flags to change are those that differ from the health |
| `Monitor.HealthMonitor.WriteFlags` | crates/microdns-lb/src/monitor.rs:533-543 | exactly the flags to change are written |
| `Monitor.HealthMonitor.PersistSnapshot` | crates/microdns-lb/src/monitor.rs:545-551 | every probed record has its row written over what was there |
| `Monitor.HealthMonitor.Settle` | crates/microdns-lb/src/monitor.rs:427-543 | decision, failsafe and write-back leave each monitored record enabled as decided and nothing else changed |
| `Monitor.HealthMonitor.RunCheckCycle` | crates/microdns-lb/src/monitor.rs:289-579 | one whole cycle: the health is that of the history, flags are as decided, rows are the snapshot |
| `Monitor.CycleKeepsGroupsServed` | crates/microdns-lb/src/monitor.rs:427-543 | after every cycle a group has an enabled record in the database if and only if the probes of some member did not leave it down, or it has two or more members and one ever had a successful probe; in that last case exactly one is enabled, and no member's last success is later than its |
| `MdnsCache.HistoryExplains` | crates/microdns-mdns/src/cache.rs:101-212 | after any history each pair is held as its latest announcement says, or is missing for one of three named reasons |
| `MdnsCache.CachedExactlyWhileAlive` | crates/microdns-mdns/src/cache.rs:101-167 | after any history and an expiry pass a pair is cached exactly when its latest announcement had a TTL above zero and has not run out |
| `MdnsCache.EntryFromHistory` | crates/microdns-mdns/src/cache.rs:101-212 | after any history all fields of a held entry are those of its latest announcement, marked as asked exactly if a refresh pass found it past four fifths of its lifetime; it is missing exactly if it took leave or an expiry pass found it over |
| `MdnsCache.OutcomeTells` | crates/microdns-mdns/src/cache.rs:101-154 | each outcome says whether the pair was held before and is held after |
| `MdnsCache.LearnedIsConserved` | crates/microdns-mdns/src/cache.rs:101-167 | records learned are those held, expired or removed by a goodbye |
| `MdnsCache.OneQueryPerAnnouncement` | crates/microdns-mdns/src/cache.rs:192-212 | no name is asked about more often than it was announced |
| `MdnsCache.DueFromHistory` | crates/microdns-mdns/src/cache.rs:192-212 | a name and type is due exactly if, by the history, one of its pairs is still held, past four fifths of its announced lifetime and not asked about since |
| `MdnsCache.Cache.Learn` | crates/microdns-mdns/src/cache.rs:101-154 | the cache takes the announcement step, the outcome is told rightly and the counters balance |
| `MdnsCache.Cache.Expire` | crates/microdns-mdns/src/cache.rs:157-167 | what has run out goes, and the count is of what went |
| `MdnsCache.Cache.TakeRefreshDue` | crates/microdns-mdns/src/cache.rs:192-212 | exactly the due names come back, each once, and are marked as asked |
| `Publish.PrunedConverges` | crates/microdns-mdns/src/publish.rs:79-184 | after placing and pruning, the owned records are exactly the wanted entries that are not shadowed, each once, enabled and with the wanted TTL |
| `Publish.PassReconciles` | crates/microdns-mdns/src/publish.rs:79-184 | a pass converges the owned records, leaves all others as they were, and changes nothing if they had converged |
| `Publish.Publisher.Place` | crates/microdns-mdns/src/publish.rs:95-156 | one wanted entry is skipped, kept, refreshed or created, as the snapshot says |
| `Publish.Publisher.PlaceAll` | crates/microdns-mdns/src/publish.rs:95-156 | every entry that is not shadowed is carried by one record, and a change is counted exactly if the table differs |
| `Publish.Publisher.Prune` | crates/microdns-mdns/src/publish.rs:160-174 | exactly the owned records that were not kept are deleted, with their health rows |
| `Publish.Publisher.Apply` | crates/microdns-mdns/src/publish.rs:79-184 | with distinct entries and pruning the zone converges; others' records are untouched; the serial moves exactly if the records changed, so a second pass changes nothing |
| `Publish.Publisher.WithdrawAll` | crates/microdns-mdns/src/publish.rs:190-204 | exactly the owned records go, and the serial moves exactly if there were any |
| `Sharing.PlanIsAimed` | crates/microdns-mdns/src/sink.rs:129-207 | whatever an instance sees and wants, it plans to write only where it owns; what a whole plan achieves is stated by `UndisturbedReport` and `UndisturbedPassReconciles` |
| `Sharing.StepKeepsInv` | crates/microdns-mdns/src/sink.rs:129-207 | every read, write, lost or late request, crash and operator edit keeps stamps true and all pending and late writes aimed at their owner's records |
| `Sharing.RunKeepsInv` | crates/microdns-mdns/src/sink.rs:129-207 | from any start with nothing planned, every run keeps stamps true and planned writes aimed |
| `Sharing.StepRespectsOwner` | crates/microdns-mdns/src/publish.rs:86-89 | one step deletes or alters a record only if an operator or its owner takes it |
| `Sharing.RunRespectsOwner` | crates/microdns-mdns/src/sink.rs:129-207 | over every interleaving in which neither an operator nor its owner acts on it, a record stays exactly as it was |
| `Sharing.CuratedIsUntouched` | crates/microdns-mdns/src/publish.rs:160-203 | instances alone never delete or alter a record of another source |
| `Sharing.ForeignIsUntouched` | crates/microdns-mdns/src/sink.rs:164-179 | no other instance ever deletes or alters what one instance registered |
| `Sharing.OneOwner` | crates/microdns-mdns/src/publish.rs:86-89 | no stamp has two owners |
| `Sharing.PlanReconciles` | crates/microdns-mdns/src/publish.rs:79-184 | carrying out the holder's plan leaves what one call of the publisher promises |
| `Sharing.UndisturbedPassReconciles` | crates/microdns-mdns/src/publish.rs:79-184 | a pass of the holder that nobody disturbs ends as one call of the publisher does |
| `Sharing.UndisturbedReport` | crates/microdns-mdns/src/sink.rs:129-188 | an undisturbed pass of a reporter that sees the whole zone: every wanted entry that nothing says under any case of its name and no other source has by name and type is stored once under its stamp, with the TTL of the first such entry; with pruning exactly its own records that no wanted entry has the key of are gone; every other record is as it was |
| `Sharing.GoneTarget` | crates/microdns-mdns/src/sink.rs:269-278 | a write to a record that has gone changes nothing; a holder gives up its pass there, a reporter goes on after a deletion |
| `Glob.MatchesIsSpells` | crates/microdns-mdns/src/config.rs:158-189 | the language of a pattern is that of its literals with any gap at each star |
| `Glob.GreedyIsOptimal` | crates/microdns-mdns/src/config.rs:158-189 | leftmost matching of all literals but the last loses nothing |
| `Glob.GlobIsRightUnlessMissed` | crates/microdns-mdns/src/config.rs:158-189 | the matcher is sound for every pattern, and wrong exactly when the last literal also occurs before the end it should match |
| `Glob.ExactPatterns` | crates/microdns-mdns/src/config.rs:158-189 | the matcher decides a pattern's language for every name if and only if the pattern has no star or ends in one |
| `Glob.OtherPatternsMiss` | crates/microdns-mdns/src/config.rs:158-189 | every other pattern wrongly rejects some name, and this is one |
| `Glob.ScanLiterals` | crates/microdns-mdns/src/config.rs:168-180 | the loop leaves what follows the leftmost matches, and remembers the last literal |
| `Glob.GlobMatch` | crates/microdns-mdns/src/config.rs:158-189 | accepted names are in the language; for patterns without a star or with one at the end the converse holds too |
| `Glob.Permits` | crates/microdns-mdns/src/config.rs:146-152 | a permitted name matches some allow pattern, if there are any, and is in the language of no exact deny pattern |
| `Wire.OwnerRoundTrip` | crates/microdns-auth/src/zone.rs:93-108 | a full owner name made relative gives back the stored name, whatever it contains |
| `Wire.RelativeExactly` | crates/microdns-auth/src/zone.rs:93-108 | a name is made relative exactly if it is the zone's own or lies below the zone, and then to the part before it |
| `Wire.ToRdata` | crates/microdns-auth/src/zone.rs:41-90 | data is expressed exactly if its target, or both SOA names, parse with a final dot; addresses, TXT and CAA always are |
| `Wire.EncodingIsExact` | crates/microdns-auth/src/zone.rs:41-90 | the rdata made is the only one that agrees with the stored data field by field, type by type |
| `Wire.ToAnswer` | crates/microdns-auth/src/transfer.rs:61-77 | a record is sent exactly if its full owner name and its data parse, under that name and its own TTL |
| `Wire.SoaAnswer` | crates/microdns-auth/src/zone.rs:160-168 | the SOA is sent exactly if its names parse, under the zone's full name and default TTL |
| `Wire.CarriedTarget` | crates/microdns-auth/src/zone.rs:93-149 | on its way data keeps its type and loses only the final dot of a target |
| `Wire.DataRoundTrip` | crates/microdns-auth/src/zone.rs:41-145 | if the names in it parse, data made into an answer and read back is the same up to one trailing dot on targets; a SOA is not read back |
| `Wire.CarriedUnchanged` | crates/microdns-auth/src/zone.rs:41-145 | exactly which data arrives unchanged, CAA included |
| `Wire.SoaRoundTrip` | crates/microdns-auth/src/zone.rs:160-168 | every SOA field and the default TTL survive, timers of 2^31 and more included, names up to trailing dots |
| `Wire.RecordRoundTrip` | crates/microdns-auth/src/zone.rs:93-145 | a record whose own full name and targets parse arrives under its own name and TTL |
| `Transfer.SendRecords` | crates/microdns-auth/src/transfer.rs:61-77 | the answers sent are those of the records whose owner name and data parse, and no others: full name, TTL and data field by field |
| `Transfer.Send` | crates/microdns-auth/src/server.rs:424-452 | the messages are the consecutive pieces, sending completes exactly if each fits its length field, and otherwise stops at the first that does not |
| `Transfer.PullMessage` | crates/microdns-auth/src/transfer.rs:158-200 | the answers of one message are taken up to the second SOA |
| `Transfer.Pull` | crates/microdns-auth/src/transfer.rs:117-207 | the loop over messages is the recursive reading, errors included |
| `Transfer.AnyCutReadsTheSame` | crates/microdns-auth/src/transfer.rs:117-205 | however a zone is cut into messages, reading them is reading it in one, or a read error if the second SOA never comes |
| `Transfer.FirstBadFrameEnds` | crates/microdns-auth/src/transfer.rs:117-157 | the first message that is not good ends the transfer: an empty one as if the zone were complete, one over the size limit, garbled or with an error code with that error |
| `Transfer.BodyArrives` | crates/microdns-auth/src/transfer.rs:158-200 | of the records between the SOAs, those that can be sent arrive in order, up to the first stored SOA or the record limit |
| `Transfer.TransferArrives` | crates/microdns-auth/src/transfer.rs:40-205 | a zone whose SOA parses, sent in any cut and read back, gives the same SOA and default TTL and the records whose names parse up to the first stored SOA, or fails exactly if they exceed the limit |
| `Transfer.ImportedIsComplete` | crates/microdns-auth/src/transfer.rs:158-200 | everything that can be sent arrives if and only if no stored SOA is among it |
| `Transfer.ImportedUpToSoa` | crates/microdns-auth/src/transfer.rs:158-200 | otherwise what arrives is exactly what can be sent of the records before the first stored SOA that is sent |
| `Transfer.WantedMembers` | crates/microdns-auth/src/transfer.rs:61-77 | the entries that should arrive are those of the records whose owner name and data parse, with their name, TTL and carried data |
| `Transfer.StoredSoaCutsShort` | crates/microdns-auth/src/transfer.rs:158-200 | the failing input: an address record after a stored SOA is sent and never arrives |
| `Transfer.AxfrRoundTrip` | crates/microdns-auth/src/server.rs:424-452 | for chunks of any size, if every owner name, target and SOA name parses, every record arrives in order, up to a trailing dot on targets |
| `Transfer.PulledWasSent` | crates/microdns-auth/src/transfer.rs:117-205 | whatever a peer sends, every imported entry was in some message, lies in the zone and has that answer's TTL and data, and there are no more than the limit |
| `Transfer.HeldIsListed` | crates/microdns-auth/src/transfer.rs:249-249 | listing a swapped zone shows exactly the stored entries, as a multiset |
| `Transfer.ZoneTransfer.BuildAxfrRecords` | crates/microdns-auth/src/transfer.rs:40-81 | only an exactly named zone is sent: SOA, its records that parse, SOA |
| `Transfer.ZoneTransfer.Import` | crates/microdns-auth/src/transfer.rs:214-249 | a known zone keeps its id, its records are swapped for one each with the entry's name, TTL and data, enabled and without check or origin; other zones keep theirs |
| `Transfer.ZoneTransfer.AxfrPull` | crates/microdns-auth/src/transfer.rs:84-257 | a failed pull changes nothing; a good one is stored whole |
| `Authority.WildcardAnswersAreTheMatches` | crates/microdns-auth/src/zone.rs:249-294 | a question with a `*` label is answered by exactly the enabled records whose labels it fits |
| `Authority.Server.ResolveWildcardQuery` | crates/microdns-auth/src/zone.rs:249-294 | the answer comes from the zone that owns the question |
| `Authority.Server.ResolveQuery` | crates/microdns-auth/src/zone.rs:171-244 | the question is taken in lower case; SOA, `*` and ordinary questions are answered as specified |
| `Authority.Server.HandleQuery` | crates/microdns-auth/src/server.rs:283-338 | the question is taken in lower case, and the response is that of the record table: `AnswersAreTheRecords`, `PatternAnswersAreTheRecords`, `SoaAndAny`, `ResponseIs` and `NxDomainIs` say which |
| `Authority.AnswersAreTheRecords` | crates/microdns-auth/src/zone.rs:171-244 | over an exact index the answers to an ordinary question are those of the records found on its labels and no others: TTL, data field by field, and the name asked for or the record's own |
| `Authority.AnswersInOrder` | crates/microdns-auth/src/zone.rs:209-243 | if each of those records can be told, the answers are theirs one by one and in order |
| `Authority.PatternAnswersAreTheRecords` | crates/microdns-auth/src/zone.rs:249-294 | the answers to a `*` question are those of the stored, enabled records of the zone and type whose labels it fits, under their own full names, and no others |
| `Authority.SoaAndAny` | crates/microdns-auth/src/server.rs:305-313 | SOA and ANY are answered by the zone's SOA with its default TTL, unknown types by nothing |
| `Authority.ResponseIs` | crates/microdns-auth/src/server.rs:283-338 | refused exactly if no zone covers the name; the zone's SOA is the authority exactly where there are no answers and ANY was not asked |
| `Authority.NxDomainIs` | crates/microdns-auth/src/server.rs:315-338 | no such name exactly if there are no answers and the zone holds no record, of any type or state, under the name |
| `Authority.OwnedNameIsDeniedExactly` | crates/microdns-auth/src/server.rs:283-338 | for every stored record and every type asked, exactly when the server answers NXDOMAIN to the record's own name: when its zone's name has an upper-case letter, or its own has one and neither the lower-case name nor a wildcard answers |
| `Authority.OwnedNameIsNeverDenied` | crates/microdns-auth/src/server.rs:315-338 | a lower-case name of a lower-case zone that owns any record, enabled or not, never gets NXDOMAIN, whatever type is asked |
| `Authority.MixedZoneIsDenied` | crates/microdns-core/src/db.rs:577-579 | under a zone with an upper-case letter every name is denied, for every type but SOA and ANY |
| `Authority.UpperCaseZoneIsDenied` | crates/microdns-core/src/db.rs:408-412 | the failing input: zone `Ex`, record `www`, question `www.Ex` |
| `Authority.MixedNameIsDenied` | crates/microdns-core/src/db.rs:408-412 | the failing input for a record name: stored with an upper-case letter in a lower-case zone, it is denied |
| `Authority.AnswersCarryTheQuestion` | crates/microdns-auth/src/zone.rs:209-243 | an ordinary answer carries the name asked for if and only if it is not the apex's under another name, nor from a zone stored with too many dots |
| `Authority.AtSignAnswersAsApex` | crates/microdns-auth/src/zone.rs:211-218 | the failing input: the question `@.zone` is answered under the zone's own name |
| `Leases.CleanIsOnePerMac` | crates/microdns-dhcp/src/lease.rs:33-106 | on a clean table no MAC has two leases |
| `Leases.CreateKeeps` | crates/microdns-dhcp/src/lease.rs:33-106 | a create keeps inherited and clean tables as they are |
| `Leases.ReleaseKeeps` | crates/microdns-dhcp/src/lease.rs:151-175 | a release keeps inherited and clean tables as they are |
| `Leases.PurgeKeeps` | crates/microdns-dhcp/src/lease.rs:197-236 | an expiry purge keeps inherited and clean tables as they are |
| `Leases.PurgeOrphansLiveLeases` | crates/microdns-dhcp/src/lease.rs:197-236 | on an inherited table an expiry purge leaves a live lease unindexed exactly when an expired one shares its MAC |
| `Leases.PurgeHidesLiveLease` | crates/microdns-dhcp/src/lease.rs:197-236 | the failing input: purging an expired lease hides a live one of the same MAC |
| `Leases.PurgeOrphansCleans` | crates/microdns-dhcp/src/lease.rs:289-338 | one orphan purge turns any inherited table into a clean one, keeping exactly the leases an entry points at |
| `Leases.CleanEverAfter` | crates/microdns-dhcp/src/lease.rs:33-338 | over every run, once an orphan purge has happened there is one indexed lease per MAC ever after |
| `Leases.CreateIpRight` | crates/microdns-dhcp/src/lease.rs:78-81 | the IP index survives a create exactly when no other MAC's lease holds the address before it |
| `Leases.SharedIpBreaksIndex` | crates/microdns-dhcp/src/lease.rs:78-81 | the failing input: two MACs leased one address |
| `Leases.PurgeIpRight` | crates/microdns-dhcp/src/lease.rs:228-232 | a right IP index survives an expiry purge |
| `Leases.PurgeOrphansIpRight` | crates/microdns-dhcp/src/lease.rs:289-338 | a right IP index survives an orphan purge |
| `Leases.FindAgreesWithScan` | crates/microdns-dhcp/src/lease.rs:128-193 | on a clean table the index finds a MAC's lease exactly if the scan lists it at the same instant |
| `Leases.OthersLeaveLease` | crates/microdns-dhcp/src/lease.rs:33-338 | over every run of operations for other MACs a MAC's lease stays as it is, or goes with the first purge after its end |
| `Leases.LeaseLives` | crates/microdns-dhcp/src/lease.rs:33-149 | from a clean table, over every run for other MACs: a lease created for some seconds is found by its MAC, with its address, at exactly the instants before they are over, unless a purge reached past its end |
| `Leases.ReleasedIsGone` | crates/microdns-dhcp/src/lease.rs:128-175 | a released MAC is found at no instant until it is leased again |
| `Leases.LeaseManager.CreateLease` | crates/microdns-dhcp/src/lease.rs:33-106 | the MAC's lease is renewed in place or added, active from now for the seconds given, and the MAC index leads to it |
| `Leases.LeaseManager.FindLeaseByMac` | crates/microdns-dhcp/src/lease.rs:128-149 | the live lease the MAC index leads to |
| `Leases.LeaseManager.ReleaseLeaseByMac` | crates/microdns-dhcp/src/lease.rs:151-175 | the MAC's lease is marked released, its entry stays |
| `Leases.LeaseManager.ListActiveLeases` | crates/microdns-dhcp/src/lease.rs:177-193 | exactly the live leases, each once |
| `Leases.LeaseManager.PurgeExpiredLeases` | crates/microdns-dhcp/src/lease.rs:197-236 | exactly what ended before the cutoff and is not marked expired goes, with whatever the indexes hold under its MAC and IP |
| `Leases.LeaseManager.PurgeOrphanedLeases` | crates/microdns-dhcp/src/lease.rs:289-338 | exactly the leases no MAC entry points at go, and the table is clean |
| `Replication.StepKeepsInv` | crates/microdns-federation/src/replication.rs:93-230 | every step of primary and agent, crashes included, keeps each copy a version that has everything up to its noted serial |
| `Replication.RunKeepsInv` | crates/microdns-federation/src/replication.rs:93-230 | every run keeps each copy a version that has everything up to its noted serial |
| `Replication.ReplicasHaveWhatTheyNoted` | crates/microdns-federation/src/replication.rs:113-199 | in every state of every run a replica's records are those of one version, with the primary's ids, names, TTLs, data and enabled flags, that includes every change whose bumped serial is at most the noted one |
| `Replication.Mirror` | crates/microdns-federation/src/replication.rs:270-291 | a copied record has the primary's id, zone, name, TTL, data and enabled flag, and no check, source or origin of it |
| `Replication.ServedSerialIsBetween` | crates/microdns-federation/src/replication.rs:146-199 | in every state of every run the served serial lies between the noted and the primary's, and once it equals the noted one the records have all it stands for |
| `Replication.FailedSyncServesAhead` | crates/microdns-federation/src/replication.rs:146-199 | the failing run: a sync that ends between upsert and replace serves the new serial over the old records |
| `Replication.UpToDateIsEqual` | crates/microdns-federation/src/replication.rs:128-145 | a quiet zone that the agent skips is equal already |
| `Replication.OneSyncCatchesUp` | crates/microdns-federation/src/replication.rs:113-199 | once the primary is quiet, one complete sync makes every zone equal, from any reachable state |
| `Replication.SyncGetsThrough` | crates/microdns-federation/src/replication.rs:113-199 | a sync that does not fail always has a next step and fewer left after it |
| `Reverse.ReverseInjective` | crates/microdns-core/src/reverse.rs:17-59 | the reverse zone and the PTR name together determine the address, IPv4 and IPv6 alike |
| `Reverse.TreesAreDisjoint` | crates/microdns-core/src/reverse.rs:17-35 | no IPv4 reverse zone is an IPv6 one |
| `Reverse.V4ReverseName` | crates/microdns-core/src/reverse.rs:15-26 | the full reverse name of an IPv4 address is its four octets in decimal, last first, below the root |
| `Reverse.V6ReverseName` | crates/microdns-core/src/reverse.rs:28-59 | the full reverse name of an IPv6 address is its 32 hexadecimal digits, last first, below the root |
| `Reverse.PtrTargetIsTheOwner` | crates/microdns-core/src/reverse.rs:70-79 | a PTR record points at its owner's full name, from which the owner's name in the zone can be read back |
| `Reconcile.Owners` | crates/microdns-k8s/src/reconcile.rs:86-94 | every address of the set goes to its first owner in order |
| `Reconcile.EnsureReverseZone` | crates/microdns-core/src/reverse.rs:82-111 | the zone is found or added empty, and no other name moves |
| `Reconcile.Reconciler.constructor` | crates/microdns-k8s/src/reconcile.rs:37-47 | nothing is remembered, whatever PTR records an earlier life left |
| `Reconcile.Reconciler.Repoint` | crates/microdns-core/src/reverse.rs:137-156 | all PTR records of the address are replaced by a new, enabled one that names the owner, with the default TTL |
| `Reconcile.Reconciler.SyncPtr` | crates/microdns-core/src/reverse.rs:117-160 | the address has exactly one PTR record, naming the owner; no other address and no forward record changes |
| `Reconcile.Reconciler.DeletePtr` | crates/microdns-core/src/reverse.rs:163-189 | the address has no PTR record; no other address and no forward record changes |
| `Reconcile.Reconciler.SyncAll` | crates/microdns-k8s/src/reconcile.rs:96-119 | in any order, every wanted address ends with its one PTR record |
| `Reconcile.Reconciler.PruneAll` | crates/microdns-k8s/src/reconcile.rs:121-137 | in any order, every address that left loses its PTR record |
| `Reconcile.Reconciler.ReconcilePtrs` | crates/microdns-k8s/src/reconcile.rs:84-140 | the addresses with a PTR record are those of the set, each naming its first owner, and those left from before and not remembered |
| `Reconcile.Reconciler.ReplaceForward` | crates/microdns-k8s/src/reconcile.rs:50-69 | the forward zone holds one enabled record for each desired entry, with its name, TTL and data, and nothing else |
| `Reconcile.Reconciler.Apply` | crates/microdns-k8s/src/reconcile.rs:50-81 | after every reconcile of every run: the forward zone is the desired set, each address in it has exactly one PTR record naming its first owner, and the only others with one are those left from before the start |
| `Reconcile.StaleSurvivesUntilWanted` | crates/microdns-k8s/src/reconcile.rs:121-139 | over every run since a start, of the PTR records held before it exactly those survive whose address was never wanted since |
| `Forward.FromForwarders` | crates/microdns-recursor/src/forward.rs:55-85 | the table built is sorted and holds exactly the usable forwarders |
| `Forward.ParsedMembers` | crates/microdns-recursor/src/forward.rs:58-72 | an address is used exactly if it parses and was configured as it is, or without its port 53 |
| `Forward.Lookup` | crates/microdns-recursor/src/forward.rs:89-99 | the first match is a longest match, and none is found only if there is none |
| `Forward.FindForwardServers` | crates/microdns-core/src/db.rs:1003-1016 | the scan returns the servers of the longest match, the first of equal ones |
| `Forward.ScanIsLongest` | crates/microdns-core/src/db.rs:1003-1016 | no forwarder that matches is longer than the scan's choice |
| `Forward.TableAgreesWithScan` | crates/microdns-recursor/src/forward.rs:89-99 | table and scan choose the same zone and servers if and only if the scan's choice has a server that parses |
| `Forward.UnusableFallsBack` | crates/microdns-recursor/src/forward.rs:70-76 | with a more specific zone whose servers do not parse, the table falls back to a shorter one that the scan passes over |

In the state machines `Sharing` and `Replication` every state a run can reach meets
the invariant that later lemmas start from (`RunKeepsInv` in each); a
withdrawal by any instance is a pass of `Sharing` with an empty desired list and
pruning on. The probe cycle is stated for records probed once each per cycle, in
any order of arrival.

## Left out

- Half-open connection members of the probe cycle: they never enter the cycle's results.
- Sockets, tasks, timeouts and the probes themselves: a probe result is a boolean.
- DNS message encoding: message lengths are a parameter, and a message that does not fit ends the sending.
- NOTIFY, other opcodes, empty question sections and the transfer access list: one-line refusals before the modelled part.
- REST and gRPC handlers, dashboard, message bus, configuration and migration: plumbing with easy members.
- Deleting replicated zones and replication in both directions: the code keeps no invariant there.
- IPAM, DHCP pools and packets, the recursor's order of resolution and its response cache.
- Reverse records written by the REST handlers on behalf of reporters: `Sharing` models the shared zone only.
- The `warned` set of the publisher and all other logging.
- MdnsCache.Cache.TakeRefreshDue: the refresh point is exactly four fifths of the lifetime in whole seconds, because floating-point rounding is not the point.
- Database.Db.IncrementSoaSerial: the hook called after the commit is not modelled, because what it does is outside the store.
- Monitor.HealthMonitor.CollectTargets: no record is half-open, because those never enter the cycle's results.
- Monitor.HealthMonitor.RunCheckCycle: without half-open members and without the broadcast of transitions, which change no table.
- Transfer.ZoneTransfer.Import: a crash between its two transactions is not modelled; it would leave the new SOA over the old records.
- Transfer.ZoneTransfer.AxfrPull: stored whole if the import is not interrupted.
- Monitor.HealthMonitor.Decide: the events it queues are not modelled, and the list of flags to change is a map, which is the same because each record is probed once.
- Replication.StepKeepsInv: a bump of a serial already at its maximum is not a step, because it would wrap around.
- Publish.Publisher.Apply: convergence is stated for distinct desired entries; for repeated ones only ownership, the change flag and the serial are.
- Leases.LeaseManager.CreateLease: the hostname and pool of a lease are not modelled, because no decision reads them.
- Wire.DataRoundTrip: CAA keeps only its critical flag and issuer, as the code does; how the library prints an issuer is a parameter.
- Serial.CheckIsRight: a primary taken for older is transferred all the same, so the decision only affects the log.
