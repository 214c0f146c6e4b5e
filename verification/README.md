# Alarm lifecycle, connection pools and database shapes

This project models four parts of an air and sea surveillance alarm service and proves what they are
relied on for.

**The alarm lifecycle.** The configuration singleton keeps kill-alarm filters with a time to live,
the set of manually confirmed ids with write-once times, the manual alarms with a side table that
says whether each is an air track, the rule alarms and the target types. `AlarmState.dfy` says what
each operation does to these tables, as functions on a state with the clock passed in;
`AlarmEvents.dfy` says which event the publisher assembles and what it leaves behind;
`AlarmConfig.dfy` is the singleton as a class whose methods update the tables in place, loop by loop,
each tied to the function of the same step. `AlarmRuns.dfy` then takes any interleaving of filter,
query, confirm, resolve, publish and environment steps and proves properties of whole runs;
`StepEffects.dfy` says in plain numbers what each operation does to each table; `PublishedEvents.dfy`
proves what can be said about the events, `PublishedItems.dfy` what each published item carries,
`EventRuns.dfy` what whole runs guarantee about the events. `Ranking.dfy` holds the top-five
ranking, `IdentificationRules.dfy` the evaluation of identification rules, `Tracks.dfy` the lookup of
a track in the four track tables, `Text.dfy` key order and decimal numbers, `SuspiciousTargets.dfy`
the suspicious-target message, `RateLimit.dfy` the snapshot limit, the log throttle and the manual
liveliness durations.

The environment is free: between any two steps the track tables, the track types of rules, the
settings and the rule alarms may change to anything, except that a rule alarm is filed under its own
alarm id. Whether a non-blank identification row holds for an alarm is an oracle: the set of the row
texts that hold. Date strings are the milliseconds they stand for.

**The two connection pools.** `ConnectionPool.dfy` and `PoolRuns.dfy` model the pool in use: an
allocator whose timer evicts connections, with leases held by clients. `SimplePool.dfy` and
`SimplePoolRuns.dfy` model the older pool: a request is a loop of turns, and while it waits between two
of them other threads take any lock-held steps. What a driver
answers is an input; a connection is its name, and that names are new (they contain a UUID) is a
condition on runs.

**Shapes in the database layer.** `ColumnNames.dfy` turns key/value rows into a table with unique
column names, `BatchInsert.dfy` inserts a list in batches inside one transaction,
`TrackCollections.dfy` groups joined rows into records. `Rows.dfy` is the row type they share;
`Wrappers.dfy` and `Arithmetic.dfy` hold the option type and the two extrema used throughout.

**Arithmetic.** `TargetIds.dfy` folds hash bytes into a 63-bit id and derives the 31-bit id of older
subscribers; `Geometry.dfy` is the distance of a point from a segment.

## What turned out not to hold

Each of these is stated with the exact condition under which the property does hold, and with an input
at which it fails.

- A confirmation answered "ok" need not make the manual alarm visible. It is published iff the track
  tables lead from the id it is filed under to a track (`ConfirmPublishesManualAlarm`, and in any later
  state `ManualShownIff`): one made from a client's hint is not (`HintNotShown`).
- Even when a track was found, the alarm can be filed under an id that leads nowhere
  (`StoredIdFindsTrackIff`): a radar track whose secondary id needs 32 bits is lost (`StoredIdLost`).
- The target-type block can repeat the id of an alarm (`TargetTypesRepeatIff`). The keys that cause it
  are those not written the way the program writes numbers, such as "07" (`TargetTypeRepeats`).
- Giving a connection back twice makes two clients share it iff another client has it by then
  (`SecondReleaseSharesIff`, `ReleasedTwiceIsShared`, `DoubleReleaseShares`). Merging targets does so when
  a commit fails (src/db/DataAccessLayer.cpp:259-266, src/db/DatabaseManager.cpp:939-964).
- Topping up the pool looks at the minimum only (`EnsureMinCapacityIff`, `EnsureMinPassesMaximum`).
- The count a batch insert returns can name rows that were rolled back (`CountHonestIff`,
  `FailedCommitCounted`).
- Keys that the first row of a batch lacks are dropped from later rows (`RowSurvivesIff`, `KeyLost`).
- Some keys of a result row are not shown as columns at all (`ShownExactly`, `CacheLookalikeLost`).
- A clock that reads zero defeats the snapshot limit (`SpacedIff`, `ZeroDefeatsLimit`).
- A segment whose squared length is at most 1e-12 is treated as a point (`NearestIff`,
  `ShortSegmentMissed`).

The header documents a switch between full and light pushing of alarm events
(src/customconfig.h:498-499); the publisher sets the flag to true whatever the switch says
(src/customconfig.cpp:1263-1267), and the model follows the code.

## Model

| member | source | states |
|---|---|---|
| AlarmRuns.RunInv | src/customconfig.cpp:1810-1928 | in every state of every run, each manual alarm is filed under "manual-" and its own positive, confirmed id and has an air-table entry; the confirmed ids are exactly those with a confirm time; no recorded time is empty |
| AlarmRuns.StartInv | src/customconfig.cpp:405-428 | the tables a run begins with are consistent |
| AlarmRuns.FilterRefinesHistory | src/customconfig.cpp:1729-1808 | for every run with a clock that does not go back, an id is filtered iff for type 0 or 1 the latest of its arming and clearing steps is an arming at t and now < t + max(1000, TTL at t); pruning on the way is never observable |
| AlarmRuns.RunGrows | src/customconfig.cpp:1826-1828 | no confirmed id is ever unconfirmed, and no entry of either resolve-time table ever changes once written |
| AlarmRuns.ConfirmedForGood | src/customconfig.cpp:1211-1243 | from its confirmation on, every rule alarm of an id is reported as verified with a non-empty time, that of the confirmation unless the alarm has one of its own |
| AlarmRuns.ResolveStable | src/customconfig.cpp:1216-1242 | two resolve steps on one alarm id that verify report the same status and the same time, however far apart in a run |
| EventRuns.ReportedTimeStable | src/customconfig.cpp:1186-1246 | however often a rule alarm is settled as verified in a run, by a resolve step or in a published event, the time reported for its id is the same |
| EventRuns.RunItemLevels | src/customconfig.cpp:1309-1373 | in every event of every run whose generated rule alarms keep clear of the manual ids, the level a subscriber reads is 5 - n if the alarm is ranked with its score and n < 5 ranked alarms have a higher score, or an equal score and a smaller id, and 0 otherwise |
| EventRuns.RunLevelByCounting | src/customconfig.cpp:1309-1373 | in every such run the level table holds max(0, 5 - n) for a ranked alarm, n being the number of ranked alarms with a higher score, or an equal score and a smaller id |
| EventRuns.KilledNotPublished | src/customconfig.cpp:1768-1780 | from a filter step on no event of the run carries a rule alarm of the id, even after the filter runs out, until alarm generation brings one back |
| StepEffects.FilterEffects | src/customconfig.cpp:1755-1793 | a filter lasts max(1000, TTL) ms; exactly the id's rule alarms, manual alarms and target type are erased; nothing else changes |
| StepEffects.KilledUntilGenerated | src/customconfig.cpp:1768-1780 | after a filter step the id has no rule alarm until an environment step |
| StepEffects.ConfirmRules | src/customconfig.cpp:1830-1842 | exactly the rule alarms of the id below the default threat, or 90 without one, are raised to it |
| StepEffects.ConfirmAnswers | src/customconfig.cpp:1813-1927 | the answer: invalid id, rule alarm, track, hint or track not found, in this order |
| StepEffects.ConfirmFilesUnder | src/customconfig.cpp:1861-1889 | the id a manual alarm is filed under: the track's own secondary id if it has one, else the requested id |
| StepEffects.ConfirmMarks | src/customconfig.cpp:1820-1828 | exactly the requested and the filing id are confirmed, keep an earlier time or get now, and lose both filters |
| StepEffects.ConfirmTimes | src/customconfig.cpp:1843-1846 | exactly the rule alarms of the id without a resolve time get that of the id's confirmation |
| StepEffects.ConfirmFiles | src/customconfig.cpp:262-295 | every field of the manual alarm stored, from track or hint and from the entry it replaces; the others stay |
| StepEffects.ConfirmLeaves | src/customconfig.cpp:1813-1927 | the tables a confirmation does not touch |
| StepEffects.SyncEffects | src/customconfig.cpp:297-335 | an entry is dropped iff it has no track, is dated and older than 600 s; with a track every field is rebuilt from it, count, origin, threat time and type kept, the threat at the floor at the least |
| StepEffects.SyncLeaves | src/customconfig.cpp:312-333 | the air table follows the tracks and forgets the dropped; no other table changes |
| StepEffects.ResolveEffects | src/customconfig.cpp:1186-1246 | status and time of a disposition and what is recorded, from confirmation, verdict and the times on record |
| StepEffects.PublishEffects | src/customconfig.cpp:1377-1536 | publishing records a time for exactly the unfiltered, verified rule alarms at most 600 s old that had none |
| StepEffects.QueryEffects | src/customconfig.cpp:1795-1808 | asking about a positive id leaves exactly the filters that have not run out |
| StepEffects.PublishPrunes | src/customconfig.cpp:1299-1653 | publishing prunes iff there is an alarm of a positive id, or, beside any alarm, a target type that gets as far as the filter |
| StepEffects.PublishKeepsFilters | src/customconfig.cpp:1729-1740 | pruning while publishing does not change what is filtered, then or later |
| AlarmRuns.ManualAlarmStep | src/customconfig.cpp:279-335 | over any step an entry survives, the count grows by one iff the step stores it, its origin time stays, its threat never drops, its threat time stays once set |
| AlarmRuns.ManualAlarmBirth | src/customconfig.cpp:1898-1911 | an entry appears only through a confirmation that stores it, with count one and the moment of that confirmation as its origin |
| AlarmRuns.ManualAlarmDeath | src/customconfig.cpp:305-318 | an entry disappears iff a filter on its id is added, or publishing finds it without a track and older than 600 s |
| AlarmRuns.ManualAlarmCount | src/customconfig.cpp:283-285 | while an entry lives, its count is the number of confirmations that stored it since its creation, and its origin is the moment of its creation |
| AlarmRuns.ManualAlarmHasBirth | src/customconfig.cpp:1898-1910 | every entry present in a run that began without it has one moment of creation since which it has always been there |
| AlarmRuns.ThreatNeverDrops | src/customconfig.cpp:286-288 | between any two points of an entry's life its threat score does not drop |
| AlarmState.ManualKeyInjective | src/customconfig.cpp:1898 | different ids have different manual alarm ids |
| AlarmState.AddFilterInv | src/customconfig.cpp:1755-1793 | adding a filter keeps the tables consistent |
| AlarmState.ConfirmInv | src/customconfig.cpp:1810-1928 | a confirmation, whichever way it ends, keeps the tables consistent |
| AlarmState.SyncInv | src/customconfig.cpp:297-335 | the refresh before publishing keeps the tables consistent |
| AlarmState.ResolveInv | src/customconfig.cpp:1186-1246 | settling a rule alarm's disposition keeps the tables consistent |
| AlarmEvents.PublishInv | src/customconfig.cpp:1286-1712 | publishing keeps the tables consistent |
| AlarmEvents.RuleTurn | src/customconfig.cpp:1378-1390 | one turn of the rule-alarm loop, after filters were pruned and times recorded by earlier turns, yields the item and the tables the whole event prescribes for that alarm |
| AlarmEvents.TypeBlockFrame | src/customconfig.cpp:1609-1712 | the target-type block does not see what the earlier blocks pruned or recorded |
| PublishedEvents.EventExact | src/customconfig.cpp:1296-1712 | an item is in the event iff there is a rule or manual alarm at all after the refresh, and it is the item of an unfiltered rule alarm at most 600 s old, of such a manual alarm with a track, or of an unfiltered, positive target-type id with a fused track whose key is in neither alarm table |
| PublishedEvents.RuleAlarmsInOrder | src/customconfig.cpp:1378-1536 | the event begins with its rule alarms, strictly ascending by alarm id, and these are all of them |
| PublishedEvents.EventInOrder | src/customconfig.cpp:1377-1712 | the event is the rule alarms, then the manual alarms, each strictly ascending by alarm id, then the target types, strictly ascending by key |
| PublishedEvents.RuleAlarmsOnlyOrder | src/customconfig.cpp:1378-1536 | any list of the published rule alarms that ascends by id is the one the event begins with |
| PublishedEvents.EventUnfiltered | src/customconfig.cpp:1380-1383 | every published item names an id that no filter covers |
| PublishedEvents.KillSwitch | src/customconfig.cpp:1755-1808 | over every run, a live filter of either type keeps its id out of the event |
| PublishedEvents.ContendersExact | src/customconfig.cpp:1312-1358 | ranked are, with their scores, exactly the rule and manual alarms at most 5 s old with a track, of the kind their rule or their id calls for |
| PublishedEvents.ContendersDistinct | src/customconfig.cpp:1312-1358 | no two ranked alarms share an id, unless a rule alarm borrows a manual id |
| PublishedEvents.EventLevelByCounting | src/customconfig.cpp:1309-1373 | the level of a ranked alarm is max(0, 5 - n), n being the number of ranked alarms with a higher score, or an equal score and a smaller id |
| PublishedEvents.RankingIgnoresFilters | src/customconfig.cpp:1316-1358 | the ranking is the same whatever is filtered: an alarm that is not published keeps its rank |
| PublishedEvents.ConfirmPublishesRuleAlarms | src/customconfig.cpp:1819-1865 | every rule alarm of a confirmed id at most 600 s old is in an event sent at once, verified, with a time and with its score raised to the default threat, even if the id had been filtered |
| PublishedEvents.ConfirmPublishesManualAlarm | src/customconfig.cpp:1867-1911 | a manual alarm just stored is in an event sent at once iff a lookup of the id it is stored under finds a track |
| PublishedEvents.ManualShownIff | src/customconfig.cpp:1539-1554 | in any state, a manual alarm whose id no rule alarm borrows is in an event sent at once iff its id is unfiltered and leads to a track |
| PublishedEvents.HintNotShown | src/customconfig.cpp:1867-1911 | with empty track tables every confirmation with a valid hint answers ok, and no event then or later shows anything |
| PublishedEvents.StoredIdFindsTrackIff | src/customconfig.cpp:1889-1897 | when a track was found for the requested id, the id the alarm is filed under leads to a track again iff it fits 31 bits or one of the two 64-bit tables has it as a key or as a secondary id |
| PublishedEvents.StoredIdLost | src/customconfig.cpp:1867-1911 | a radar track under 5 with secondary id 2^31 is found and confirmed, and no event shows the alarm as long as the tables stay as they are |
| PublishedItems.RuleItemsCarryAlarms | src/customconfig.cpp:1378-1535 | a rule alarm has an item iff it is unfiltered and at most 600 s old; every field of the item: ids, level, status, class, behaviour, area, place, motion, air flag, verification and its time |
| PublishedItems.ManualItemsFollowTracks | src/customconfig.cpp:1539-1607 | a manual alarm has an item iff it is unfiltered and its id leads to a track; the item shows that track as it is now, under the positive, confirmed id, verified at the time of its confirmation, with the score at the floor at the least |
| PublishedItems.TypeItemsFollowTracks | src/customconfig.cpp:1618-1711 | a target type has an item iff its key is no alarm's id in decimal, reads as a positive unfiltered number, and that id has a fused track; the item shows that track, sea before air, verified iff the id is confirmed |
| PublishedItems.TimedIsVerified | src/customconfig.cpp:1189-1243 | an item with a resolve time is verified; one verified without a time is a rule alarm whose own status is none of 0, 1 and 2 |
| PublishedEvents.TargetTypesRepeatIff | src/customconfig.cpp:1610-1653 | the target-type block repeats the id of an alarm iff a key that is not canonically written stands for such an id, positive, unfiltered and with a fused track |
| PublishedEvents.TargetTypeRepeats | src/customconfig.cpp:1610-1653 | with a rule alarm of id 7 and a target type under "07", id 7 is in the event twice |
| PublishedEvents.NonCanonicalKey | src/customconfig.cpp:1625-1629 | such keys exist |
| AlarmConfig.CustomConfig.PruneExpiredAlarmFiltersLocked | src/customconfig.cpp:1729-1740 | erasing while walking leaves exactly the filters that expire later than now |
| AlarmConfig.CustomConfig.RemoveAlarmFilterForUniqueId | src/customconfig.cpp:1742-1753 | both types of filter on the id are gone, no other |
| AlarmConfig.CustomConfig.AddAlarmFilter | src/customconfig.cpp:1755-1793 | arms the filter and erases the id's rule alarms, manual alarms and target type, as the step prescribes; ids that are not positive change nothing |
| AlarmConfig.CustomConfig.IsUniqueIdAlarmFiltered | src/customconfig.cpp:1795-1808 | answers whether a filter of either type is active, judged before pruning, and prunes |
| AlarmConfig.CustomConfig.RaiseRuleAlarms | src/customconfig.cpp:1834-1859 | raises every rule alarm of the id to the floor, records missing resolve times, and tells whether there was one |
| AlarmConfig.CustomConfig.ConfirmAlarmByUniqueId | src/customconfig.cpp:1810-1928 | the tables and the answer are those of the confirmation step, on all four ways out |
| AlarmConfig.CustomConfig.StoreManualAlarm | src/customconfig.cpp:1889-1911 | stores the manual alarm under the effective id, confirmed, unfiltered and with its air entry |
| AlarmConfig.CustomConfig.SyncManualAlarmsBeforePublish | src/customconfig.cpp:297-335 | the loop that erases while it walks drops exactly the stale entries and refreshes the others, keeping count, origin and threat time |
| AlarmConfig.CustomConfig.ResolveRuleAlarmDisposition | src/customconfig.cpp:1186-1246 | the disposition and the recorded time are those of the step, with the verdict the identification rules define |
| AlarmConfig.CustomConfig.SetTargetType | src/customconfig.cpp:982-987 | sets the type of one id and nothing else |
| AlarmConfig.CustomConfig.RankAlarms | src/customconfig.cpp:1309-1373 | the level table is that of the ranking by score over the recent alarms with a track |
| AlarmConfig.CustomConfig.PublishRuleAlarms | src/customconfig.cpp:1378-1536 | the first block, with the filters pruned and the times recorded on the way |
| AlarmConfig.CustomConfig.PublishManualAlarms | src/customconfig.cpp:1539-1607 | the second block |
| AlarmConfig.CustomConfig.PublishTargetType | src/customconfig.cpp:1618-1711 | one turn of the third loop: the tests in their order, the filter asked only of ids that get that far |
| AlarmConfig.CustomConfig.PublishTargetTypes | src/customconfig.cpp:1609-1712 | the third block |
| AlarmConfig.CustomConfig.SendAllAlarmEventMsg | src/customconfig.cpp:1248-1727 | nothing happens unless publishing is on and ready; otherwise the event and the tables left behind are those of the publishing step |
| IdentificationRules.RuleHasDetectionConstraints | src/customconfig.cpp:124-131 | true iff some enabled row is not blank |
| IdentificationRules.GroupByCriteria | src/customconfig.cpp:135-143 | each enabled row is in the group of its trimmed criterion, and groups are never empty |
| IdentificationRules.EvalSingleRuleCriteriaIntersection | src/customconfig.cpp:133-159 | a rule passes iff some criterion that has an enabled row has all its enabled rows pass |
| IdentificationRules.EvalIdentificationRulesUnion | src/customconfig.cpp:161-183 | true iff some rule of the area, or the alarm's own, is constrained and passes; the out-flag is exactly "some such rule is constrained", also on early return |
| IdentificationRules.CriteriaExact | src/customconfig.cpp:139-142 | rows are of one criterion iff their trimmed ids agree, the empty one standing for "__default__" |
| IdentificationRules.RulePassesExact | src/customconfig.cpp:133-159 | a rule passes iff it has an enabled row such that every enabled row of the same trimmed criterion is blank or holds |
| IdentificationRules.AreaKeyInjective | src/customconfig.cpp:169 | an area's key is its group, an underscore and its number, and no two areas share one |
| IdentificationRules.RowOrderIrrelevant | src/customconfig.cpp:133-159 | order and repetition of rows do not change the verdict |
| IdentificationRules.RuleOrderIrrelevant | src/customconfig.cpp:170-182 | order of the rules does not change the verdict, nor does binding the alarm's own rule to its area |
| IdentificationRules.BlankCriterionVerifies | src/customconfig.cpp:98-157 | when no row can be verified, an alarm is verified all the same iff a constrained rule has a criterion whose enabled rows are all blank |
| Ranking.AssignLevels | src/customconfig.cpp:1360-1373 | the level table is 5 down to 1 over the sorted alarms |
| Ranking.SortUnique | src/customconfig.cpp:1361-1367 | the comparison leaves only one sorted order, so the sorting algorithm does not matter |
| Ranking.RankByCounting | src/customconfig.cpp:1309-1373 | with distinct ids, an alarm's level is max(0, 5 - the number of alarms with higher score, or equal score and smaller id) |
| Ranking.HigherScoreHigherLevel | src/customconfig.cpp:1361-1373 | of two alarms the one with the higher score has the higher level, or both have none |
| Ranking.RankOrderIrrelevant | src/customconfig.cpp:1313-1373 | the levels do not depend on the order in which alarms were collected |
| Ranking.LevelsUsedOnce | src/customconfig.cpp:1370-1373 | no two alarms share a level above zero |
| Tracks.FindTrackByUniqueId | src/customconfig.cpp:191-252 | the hit-or-continue sequence of four key lookups and four scans is the lookup by priority |
| Tracks.LookupPriority | src/customconfig.cpp:243-251 | a track is found iff the id is positive and one of the eight sources matches; it comes from the first that does, int-keyed tables being skipped beyond 31 bits, and in a scan from the least key |
| Tracks.LookupByKey | src/customconfig.cpp:243-246 | by key: fused air, air radar, fused sea, sea radar, the radar tables only for ids of 31 bits |
| Tracks.LookupBySecondary | src/customconfig.cpp:247-250 | without a key: the same tables by secondary id, least key first, and a miss if none has it |
| Tracks.LookupSound | src/customconfig.cpp:191-252 | what is found has the id as its key or as its secondary id |
| Text.LessIsBefore | src/customconfig.cpp:1366 | the order of keys is decided by the first difference, the lower character first, a text before its continuations |
| Text.TrimExact | src/customconfig.cpp:139-141 | trimming takes white space from both ends, and all of it |
| Text.ToLongLongReads | src/customconfig.cpp:1626 | read as a number is white space, at most one sign, leading zeros, digits and white space, if it fits 64 bits |
| Text.ToLongLongRejects | src/customconfig.cpp:1626-1629 | nothing else is |
| Text.DecimalRoundTrip | src/customconfig.cpp:1612-1626 | reading back the decimal text of any 64-bit id gives the id |
| Text.AscendingUnique | src/customconfig.cpp:1378 | there is only one ascending walk over a set of keys |
| Text.TextKeysAscending | src/customconfig.cpp:1378 | a walk over a string-keyed table is strictly ascending |
| SuspiciousTargets.SendSuspiciousTargetMsg | src/customconfig.cpp:1090-1156 | returns the number of suspicious ids if everything is in place and a publisher accepts, else zero; the message is the assembled one |
| SuspiciousTargets.AssembleTargets | src/customconfig.cpp:1117-1133 | the matched targets in their order, then a stub for each id that remains |
| SuspiciousTargets.ExactlyOnce | src/customconfig.cpp:1117-1133 | each suspicious id is in the message exactly once, nothing else is, the length is the size of the set, and an id is there as a target iff it is not empty and some target carries it |
| SuspiciousTargets.MatchedFirst | src/customconfig.cpp:1120-1126 | what is taken is the first target with its id |
| SuspiciousTargets.MatchedInOrder | src/customconfig.cpp:1120-1126 | the targets taken come in the order of the batch |
| SuspiciousTargets.RemainingIff | src/customconfig.cpp:1119-1129 | an id gets a stub iff it is empty or no target carries it |
| RateLimit.SnapshotPusher.TickAlarmGrpcSnapshot | src/customconfig.cpp:1171-1184 | pushes iff enabled and never pushed or at least a second since, and remembers the time iff it pushed |
| RateLimit.SpacedIfNonZero | src/customconfig.cpp:1177-1183 | for any readings that are not zero, even decreasing ones, any two pushes are at least 1000 ms apart |
| RateLimit.SpacedIff | src/customconfig.cpp:1178-1182 | for readings that are not negative, pushes are spaced iff the first is not zero, or there is no second, or the second is at least 1000 |
| RateLimit.ZeroDefeatsLimit | src/customconfig.cpp:1178-1182 | readings 0 and 1 both push |
| RateLimit.NeverStale | src/customconfig.cpp:1178-1183 | at every reading there is a push, then or before, from less than a second earlier |
| RateLimit.LogThrottle.LogDdsEventThrottled | src/fastdds_alarmevent/AlarmEventPublisherApp.cxx:97-111 | logs iff the key is new or its interval has passed, and remembers the time iff it logged |
| RateLimit.LinesSpaced | src/fastdds_alarmevent/AlarmEventPublisherApp.cxx:102-109 | two lines logged under a key are apart by the least interval asked for under it, whatever the clock and other keys do |
| RateLimit.LoggedAgain | src/fastdds_alarmevent/AlarmEventPublisherApp.cxx:105-108 | at every call there is a logged one with its key, then or before, from less than its interval earlier |
| RateLimit.KeysIndependent | src/fastdds_alarmevent/AlarmEventPublisherApp.cxx:104-108 | whether a line is logged depends on the earlier calls with its own key alone |
| RateLimit.DurationExactIff | src/fastdds_alarmevent/AlarmEventPublisherApp.cxx:114-120 | the duration is max(1, ms) milliseconds iff its seconds fit 32 signed bits |
| RateLimit.LivelinessQos.ApplyManualLivelinessQos | src/fastdds_alarmevent/AlarmEventPublisherApp.cxx:123-130 | for every 32-bit period both durations are exact, the lease outlasts the announcement period by a second or more and the period three times over |
| ConnectionPool.DbConnectionPool.InitializePool | src/db/dbconnectionpool.cpp:25-41 | sets the bounds, creates one connection, adds it iff it opens |
| ConnectionPool.DbConnectionPool.GetConnection | src/db/dbconnectionpool.cpp:43-83 | hands out the first idle connection that works or reopens, else a new one below the maximum, else none |
| ConnectionPool.DbConnectionPool.ReleaseConnection | src/db/dbconnectionpool.cpp:85-97 | marks the connection of that name idle and touches no other |
| ConnectionPool.DbConnectionPool.CheckConnections | src/db/dbconnectionpool.cpp:192-238 | erasing while walking leaves exactly the connections the timer keeps, in order |
| ConnectionPool.DbConnectionPool.EnsureMinConnections | src/db/dbconnectionpool.cpp:138-155 | appends what opens of as many attempts as are missing |
| ConnectionPool.DbConnectionPool.CloseAllConnections | src/db/dbconnectionpool.cpp:99-107 | leaves no connection and keeps the bounds |
| PoolRuns.GetAnswers | src/db/dbconnectionpool.cpp:50-82 | a request is answered iff an idle connection works or reopens, or there is room and a new one opens; it gets the first such, marked in use, or else the new one, appended in use; nothing else changes |
| PoolRuns.ReleaseEffects | src/db/dbconnectionpool.cpp:88-96 | the first connection of the name, and only it, is idle and last used now |
| PoolRuns.TimerKeeps | src/db/dbconnectionpool.cpp:197-237 | the timer keeps exactly those handed out at most 300 s ago and the idle ones used within 3000 s that are valid or reopen |
| PoolRuns.TimerKeepsOrder | src/db/dbconnectionpool.cpp:197-237 | what the timer keeps stays in order |
| PoolRuns.OpenedExact | src/db/dbconnectionpool.cpp:143-154 | exactly the attempts that open are added, idle and last used now |
| PoolRuns.CreatingEffects | src/db/dbconnectionpool.cpp:25-41 | topping up appends as many attempts as are missing, initializing one; closing leaves none |
| PoolRuns.RunInv | src/db/dbconnectionpool.cpp:43-238 | over every run, names are distinct, a pooled connection is in use iff a live lease holds it, and no two live leases hold the same one |
| PoolRuns.GetIsExclusive | src/db/dbconnectionpool.cpp:50-78 | a client is given a connection nobody holds: one that lay idle in the pool, or a new one |
| PoolRuns.ReleaseTouchesOnlyItsOwn | src/db/dbconnectionpool.cpp:88-96 | giving back a lease changes at most that connection, and nothing if it was evicted |
| PoolRuns.SecondReleaseSharesIff | src/db/dbconnectionpool.cpp:85-97 | after a name is given back by a client that no longer holds it, some run from there reaches a point where two live leases hold one connection iff the connection is in use at that moment |
| PoolRuns.ReleasedTwiceIsShared | src/db/dbconnectionpool.cpp:43-97 | in every such case the very next request can be given the connection another client still holds |
| PoolRuns.DoubleReleaseShares | src/db/DatabaseManager.cpp:939-964 | a double release followed by two requests makes two clients share a connection |
| PoolRuns.TimerSparesRecentLeases | src/db/dbconnectionpool.cpp:192-238 | the timer takes nothing from a client that got its connection at most 300 s ago and leaves none idle for more than 3000 s |
| PoolRuns.ApplyCapacity | src/db/dbconnectionpool.cpp:68-78 | no step passes a bound on the pool except the two that create without looking at the maximum, under what conditions those keep it |
| PoolRuns.EnsureMinCapacityIff | src/db/dbconnectionpool.cpp:138-155 | topping up ends within the maximum whichever attempts open iff the pool was within it and the minimum does not exceed it |
| PoolRuns.EnsureMinPassesMaximum | src/db/dbconnectionpool.cpp:138-155 | an empty pool with maximum one and minimum two ends with two |
| PoolRuns.RunCapacity | src/db/dbconnectionpool.cpp:25-83 | a run initialized once never holds more than the largest of one, the maximum and the minimum |
| SimplePool.SimpleConnectionPool.InitializePool | src/db/dbconnectionpool-.cpp:66-110 | closes what there was, clamps the bounds, opens the initial connections, succeeds iff one opened |
| SimplePool.SimpleConnectionPool.GetConnectionTurn | src/db/dbconnectionpool-.cpp:124-166 | one turn of the waiting loop: hand over the head of the queue if it answers, else discard it and create one below the maximum |
| SimplePool.SimpleConnectionPool.GetConnection | src/db/dbconnectionpool-.cpp:112-179 | nothing unless initialized on entry; otherwise turns until one hands out a connection or the time is up, with any steps of other threads between them |
| SimplePool.SimpleConnectionPool.ReleaseConnection | src/db/dbconnectionpool-.cpp:181-216 | an active connection returns to the queue if it answers and is closed if not; an unknown one is ignored |
| SimplePool.SimpleConnectionPool.CleanupExpiredConnections | src/db/dbconnectionpool-.cpp:354-384 | keeps exactly the available connections used within 300 s that answer, in order, and closes the rest |
| SimplePool.SimpleConnectionPool.EnsureMinimumConnections | src/db/dbconnectionpool-.cpp:386-412 | opens what is missing, stopping at the first failure |
| SimplePool.SimpleConnectionPool.PerformMaintenance | src/db/dbconnectionpool-.cpp:414-440 | cleans up, then tops up; nothing unless initialized |
| SimplePool.SimpleConnectionPool.CloseAllConnections | src/db/dbconnectionpool-.cpp:241-265 | every available and active connection is closed |
| SimplePoolRuns.RunConserves | src/db/dbconnectionpool-.cpp:66-412 | at every lock-held step of every run each connection ever opened is in exactly one of available, active and closed, and available plus active is within the maximum |
| SimplePoolRuns.RunCounts | src/db/dbconnectionpool-.cpp:66-412 | the connections ever opened number available plus active plus closed |
| SimplePoolRuns.ClosedForGood | src/db/dbconnectionpool-.cpp:66-412 | a connection that was closed is never available or active again |
| SimplePoolRuns.TurnIsExclusive | src/db/dbconnectionpool-.cpp:126-162 | what a client is given is neither active nor closed, answers or has just opened, and is then active |
| SimplePoolRuns.TurnsConserve | src/db/dbconnectionpool-.cpp:124-173 | a whole request, with whatever other threads do meanwhile, keeps every connection in one place and the pool within its maximum; what it hands out is active, not closed, and answered or was opened in one of its turns |
| SimplePoolRuns.QuietRequestIff | src/db/dbconnectionpool-.cpp:112-179 | a request no other thread interferes with is served iff the pool is initialized and some turn finds its head of the queue answering, or room for a connection that opens |
| SimplePoolRuns.ReleaseIff | src/db/dbconnectionpool-.cpp:190-215 | a release changes the pool iff the connection is active; that one alone leaves the active list, for the queue or for good |
| SimplePoolRuns.CloseAllEffects | src/db/dbconnectionpool-.cpp:241-265 | everything available or active is closed, the pool is uninitialized and keeps its bounds |
| SimplePoolRuns.InitializeEffects | src/db/dbconnectionpool-.cpp:66-110 | the bounds are clamped to at least one and to each other, what opens is available, and it succeeds iff something does |
| SimplePoolRuns.CleanupKeepsOrder | src/db/dbconnectionpool-.cpp:360-383 | what is kept stays in the order of the queue |
| SimplePoolRuns.MaintainIff | src/db/dbconnectionpool-.cpp:354-440 | maintenance leaves active connections alone, keeps exactly the good available ones, and reaches the minimum iff every attempt opened |
| ColumnNames.ScanCacheKeys | src/db/DatabaseManager.cpp:111-128 | the open-ended scan ends with exactly the unbroken run of numbered keys |
| ColumnNames.InferColumns | src/db/DatabaseManager.cpp:108-148 | the columns are those the first row determines: the scanned run, or all other keys, and the named ones appended |
| ColumnNames.CacheRunBound | src/db/DatabaseManager.cpp:111-115 | a finite row cannot hold infinitely many of the numbered keys, which bounds the scan |
| ColumnNames.CandidatesBound | src/db/DatabaseManager.cpp:158-162 | finitely many names cannot take infinitely many suffixed ones, which bounds the suffix search |
| ColumnNames.UniqueNames | src/db/DatabaseManager.cpp:150-164 | the two loops give each column its name, or its name with the least free suffix |
| ColumnNames.UniquifyDistinct | src/db/DatabaseManager.cpp:150-164 | as many names as columns, pairwise distinct, none empty, each with the least suffix that no earlier one has taken |
| ColumnNames.UniquifyIdentityIff | src/db/DatabaseManager.cpp:150-164 | nothing is renamed iff the names were distinct and none was empty |
| ColumnNames.ShownExactly | src/db/DatabaseManager.cpp:108-148 | which keys of the first row are shown: with _c0, those not starting with _c and those _cN for which all smaller numbers are there; without it, every key, the empty one only if the least of the others starts with _c |
| ColumnNames.DisplayInOrder | src/db/DatabaseManager.cpp:111-148 | the order of the columns: the numbered run by number, then the named keys ascending; without _c0 the keys ascending and the empty one last |
| ColumnNames.CacheLookalikeLost | src/db/DatabaseManager.cpp:117-145 | beside _c0 the key _cx is not shown |
| ColumnNames.NamesKept | src/db/DatabaseManager.cpp:136-164 | every key shown keeps its name as its column's name, except the empty key |
| ColumnNames.MadeUpNameTaken | src/db/DatabaseManager.cpp:155-162 | the name made up for an empty key can be a real key's name, so the suffix search is needed |
| ColumnNames.MaterializeRowsToSqlQuery | src/db/DatabaseManager.cpp:102-229 | there is a table iff there are rows and nothing fails, and each of its cells (row, i) is that row's value for the i-th source key |
| ColumnNames.ReadByName | src/db/DatabaseManager.cpp:206-228 | reading a column by the name of a shown key gives that key's value in every row |
| BatchInsert.FlattenReadsBack | src/db/DatabaseManager.cpp:799-821 | placeholders and bound values of a batch are equal in number, and reading the values back group by group gives the rows' tuples |
| BatchInsert.BatchesCover | src/db/DatabaseManager.cpp:764-821 | the bind lists of the batches, end to end, are the row-major flattening of the whole list over the first row's columns |
| BatchInsert.CollectValues | src/db/DatabaseManager.cpp:799-806 | the nested loops bind row by row, column by column |
| BatchInsert.Database.InsertBatch | src/db/DatabaseManager.cpp:767-831 | one turn of the loop stages the batch's tuples iff nothing gets in the way |
| BatchInsert.Database.ExecuteBatchInsert | src/db/DatabaseManager.cpp:712-867 | on every way out: the count returned, what the table gained, the statements sent, no transaction left open, the connection given back |
| BatchInsert.AllOrNothing | src/db/DatabaseManager.cpp:746-843 | if everything works and the commit succeeds the table gains one tuple for each row, in order, with the row's value under each column or an invalid one; otherwise it is unchanged |
| BatchInsert.ColumnsExact | src/db/DatabaseManager.cpp:756 | the columns are the keys of the first row, each once, ascending |
| BatchInsert.BatchSizes | src/db/DatabaseManager.cpp:764-785 | each statement has a hundred groups, the last what is left, each with one "?" for each column |
| BatchInsert.CountReturned | src/db/DatabaseManager.cpp:823-843 | the count is a hundred for each batch executed before the first that was not, and the length of the list if all were |
| BatchInsert.EarlyExitCount | src/db/DatabaseManager.cpp:767-831 | an exit from inside the loop returns a multiple of 100 smaller than the list |
| BatchInsert.CountHonestIff | src/db/DatabaseManager.cpp:834-843 | the count is the number of rows gained iff the commit succeeded or no batch was executed |
| BatchInsert.FailedCommitCounted | src/db/DatabaseManager.cpp:834-843 | one row, executed, and a failed commit: nothing is gained and the count is one |
| BatchInsert.RowSurvivesIff | src/db/DatabaseManager.cpp:756-804 | a row comes back from its tuple unchanged iff each of its keys is a key of the first row |
| BatchInsert.KeyLost | src/db/DatabaseManager.cpp:756-804 | after an empty first row the second loses its value |
| TrackCollections.GetTrackCollections | src/db/DataAccessLayer.cpp:883-930 | the loop builds the grouping of all rows, and the records come in the order of their ids |
| TrackCollections.UuidKeysAscending | src/db/DataAccessLayer.cpp:885 | a walk over a table keyed by UUID visits its keys by variant, then by bytes |
| TrackCollections.VariantBits | src/db/DataAccessLayer.cpp:885 | the variant is read off the leading bits of the ninth byte |
| TrackCollections.GroupedExact | src/db/DataAccessLayer.cpp:895-927 | there is a record for an id iff a row has it; time and sensor are the first such row's, the tracks are those of all such rows in order, fused is the "or" over them |
| TrackCollections.RowsOfPlaces | src/db/DataAccessLayer.cpp:895-922 | a record's rows are a subsequence of the rows: ascending places, every row with its id |
| TrackCollections.Conservation | src/db/DataAccessLayer.cpp:895-929 | records are of different collections, ascend by id, cover every row's, and together hold as many tracks as there are rows |
| TargetIds.GenerateUniqueTargetId | src/db/DataAccessLayer.cpp:272-286 | the shift-or fold and the mask give the big-endian value of the first eight hash bytes modulo 2^63 |
| TargetIds.BigEndianDigits | src/db/DataAccessLayer.cpp:277-282 | each byte can be read back from the number, the first being the most significant |
| TargetIds.ByteExact | src/db/DataAccessLayer.cpp:281 | the byte behind a signed char |
| TargetIds.FoldByte | src/db/DataAccessLayer.cpp:279-282 | one round appends a byte and loses no bit |
| TargetIds.AndMask | src/db/DataAccessLayer.cpp:285 | a bitwise "and" with 2^k - 1 is the remainder modulo 2^k |
| TargetIds.OrDisjoint | src/db/DataAccessLayer.cpp:281 | a bitwise "or" of a shifted word with a smaller one is their sum |
| TargetIds.LegacyIsMod | src/customconfig.cpp:38-48 | the 31-bit id is the id modulo 2^31 on both branches, for every positive 64-bit id |
| TargetIds.LegacyCollision | src/customconfig.cpp:38-48 | two targets share a 31-bit id iff their ids agree modulo 2^31 |
| Geometry.Attained | src/common/commonfunc.cpp:56-73 | the result is the squared distance to a place on the segment |
| Geometry.Nearest | src/common/commonfunc.cpp:64-72 | for a segment that is not degenerate no place on it is nearer than the result |
| Geometry.ShortSegmentMissed | src/common/commonfunc.cpp:61-63 | for the point (1, 0) and the segment from (0, 0) to (1e-7, 0) the result is not minimal |
| Geometry.NearestIff | src/common/commonfunc.cpp:61-63 | the result is minimal iff the segment is not taken for a point, or the point does not lie on the side of its end |

## Left out

- Locking: a method takes one clock reading and runs as one step. In the source, adding a filter, confirming and publishing take several locks and several clock readings; what another thread does between them is not modelled.
- Dates: the formatted strings are the milliseconds they stand for; formatting, parsing, time zones and what Qt returns for a string that is no date are not modelled.
- The verdict on a non-blank identification row (its JSON, the recording metadata, the track duration) is an oracle.
- Fields without influence on the steps: area and class names, alarm content text of manual alarms, the MMSI of a track, event ids, optional target details of rule alarms.
- Writing evaluation times to the database, logging and sending: the event is the result of publishing. The light event behind the constant flag cannot occur and is not modelled.
- The generation of rule alarms and their threat scores: an environment step.
- Radar tables are keyed by plain 32-bit ids, as the lookup uses them.
- QString: characters are compared one by one, and only ASCII white space is trimmed.
- QString::arg: place markers inside a key or a column name are not expanded.
- SQLite: names that differ only in case count as different.
- Times of pooled connections are whole seconds. Collection ids are their sixteen bytes, and UUIDs are ordered as Qt orders them, by variant and then by bytes.
- SimplePool.SimpleConnectionPool.GetConnection: the timeout is the number of turns that begin before it, and the 100 ms of a wait are not measured.
- The unused removeStaleConnections of the pool, and that closing a connection still held by a client breaks the client.
- Two modelled operations have no caller in the repository: ensureMinConnections of the pool (src/db/dbconnectionpool.cpp:138) and setTargetType (src/customconfig.cpp:982).
- PoolRuns.RunInv: that a lease is given back at most once is a condition on runs; what a second release does is stated separately.
- TrackCollections: the sensor's name, looked up by its id.
- BatchInsert: the check for shutdown before the insertion is queued, and the failure of a rollback.
- RateLimit: the difference of two 64-bit readings is taken without overflow.
- Geometry: coordinates are reals and distances squared; rounding of single-precision vectors is not modelled.
- DDS participants, gRPC clients, HTTP, timers and threads, configuration files, the SQL of the other queries, the older copy of the batch insert and the diagnostic tools.
