# Industrial Data Logger, verified model

The Industrial Data Logger moves samples from plant machines through OPC UA nodes into a
database. This project models the parts of it that keep state or compute something hard,
and proves what they promise for all inputs, all runs and all interleavings.

- **Discrepancy query** (`DiscrepancyQuery`, `DiscrepancyMeaning`, `DiscrepancyEpisodes`,
  `DiscrepancyCoverage`). The chain of SQL table expressions behind the Balcones dashboard,
  as functions over sequences with time in integer microseconds: carry forward with expiry,
  interval join, gaps and islands, coverage. It is proved equal to the meaning "at each
  instant", which mentions no interval, no window filter and no running sum.
- **Ingest pipeline** (`Metrics`, `Ingest`, `Ledger`, `IngestRuns`, `RowOrder`,
  `CancelledWrites`, `DecodedRows`, `Redelivery`, `RunTrace`, `Arrivals`, `ColumnSets`, `DatabaseRuns`). The bounded queue, decoding, the flush that
  waits for a worker thread, and reconnects. `IngestQueue` works in place and is proved
  against functions; `IngestRuns` interleaves notifications, sessions and writes that
  succeed, fail or are left to their thread by a cancelled flush. `flush` is cut at its one
  wait: `StartFlush` before it, `FinishFlush` after it.
- **Database** (`Tables`, `Transactions`). Statement building, `ON CONFLICT DO NOTHING`, and
  one connection shared by many threads under a lock.
- **OPC UA session log** (`OpcEvents`, `Sessions`, `ClientMap`, `EventOutcomes`, `ClientHistory`, `ConnectionGaps`,
  `ClientKeys`, `ClientFiling`, `EntryOrder`, `ActiveMap`, `MergedSessions`, `LastSeen`; on objects `ClientSessions`,
  `MergedObjects`). The reconstruction of client sessions from the events of the Session
  Service Set (OPC 10000-4, sections 5.6.2 to 5.6.4). The parser's dictionaries alias the
  same mutable objects: the value-level model keeps the objects in a store and lets the
  dictionaries hold indices, and the classes are proved to mirror it. The parser's local
  dictionaries are the fields of `ClientMapBuilder`. `LogFields` is the field splitter.
- **Heartbeat** (`Heartbeat`, `HeartbeatLink`). The triangle-wave sender with its map of send
  times, over any channel and over lossless first-in first-out channels.
- **Supporting arithmetic and codecs** (`Sampling`, `ProcessIds`).

Hypotheses that the code itself does not enforce are stated as predicates over the input or
the run, and so is what happens without them:

- no cancelled write, for the order of rows: with cancelled writes `CommittedInOrderIff` is the
  exact condition, and `CancelledWriteMayReorder` a run that violates it;
- `ProperStep` for the rows a caller hands to `add_model` (the only caller passes heartbeat
  rows to `heartbeat_rtt`): `ImproperRowsStopTheWrite`;
- queues decoded before the next session, for redelivered values: `SkippedIffQueueWasDecoded`
  is exact for one session, `EarlySessionStoresTwice` a run;
- exits outside `Exception` only before the first statement, for atomicity:
  `LockedRunsAreAtomicIff` is exact;
- `Disciplined` logs, for the keys of the client map: `LogFilesExactly` is exact,
  `OverlapLeavesAStaleKey` and `SharedKeyUnfilesActiveSessions` are logs that violate it;
- `Chronological` logs, for downtime: `GapsFitIff` and `DisconnectsLieBetweenIff` are exact,
  `MisdatedDisconnectInflatesDowntime` a family of logs;
- `Prompt` runs of the heartbeat: `AnsweredRunsAreTimedIff` is exact for answered runs,
  `ThreeUnansweredBeatsMixTimesIff` the smallest case that fails.

A Python dictionary's insertion order is kept where it shows in a result (the keys of the
client map and of the active map); the order of tables inside one batch does not show,
because statements of different tables commute, and is left open.

## Model

| member | source | states |
|---|---|---|
| DiscrepancyEpisodes.EventsAreTheMaximalRuns | docs/dashboard/Balcones · Heartbeats y discrepancias OT-1792095882576.json:398 | For every set of samples and every window, `[a, z)` is an event row of the route if and only if it is a longest stretch of the window on which both nodes have an unexpired value and the values differ. |
| DiscrepancyEpisodes.EventsNeverTouch | docs/dashboard/Balcones · Heartbeats y discrepancias OT-1792095882576.json:398 | Event rows come out in time order, and one ends strictly before the next starts: no episode is split. |
| DiscrepancyEpisodes.ConfirmedEdges | docs/dashboard/Balcones · Heartbeats y discrepancias OT-1792095882576.json:398 | `start_confirmed` and `end_confirmed` hold exactly when, at the instant just outside the episode and inside the window, both values are known and equal. |
| DiscrepancyEpisodes.RowOrderIsIrrelevant | docs/dashboard/Balcones · Heartbeats y discrepancias OT-1792095882576.json:398 | The event rows, flags included, depend only on which raw rows there are, not on their order or repetition. |
| DiscrepancyEpisodes.EpIdentifiesIsland | docs/dashboard/Balcones · Heartbeats y discrepancias OT-1792095882576.json:398 | The running sum gives a maximal group of touching, differing spans one number, and no other differing span gets that number. |
| DiscrepancyMeaning.ConsensusMeansAgreement | docs/dashboard/Balcones · Heartbeats y discrepancias OT-1792095882576.json:398 | The grouped value of an instant is `v` exactly when every row of the instant carries `v`. |
| DiscrepancyMeaning.IntervalsMeanValues | docs/dashboard/Balcones · Heartbeats y discrepancias OT-1792095882576.json:398 | Inside the window an interval with value `v` covers `t` exactly when the latest rows at or before `t` agree on `v` and are younger than 60 s, whatever older rows exist. |
| DiscrepancyMeaning.SpansAreTheKnownInstants | docs/dashboard/Balcones · Heartbeats y discrepancias OT-1792095882576.json:398 | Spans cover exactly the instants at which both carried values are known, and their `mismatch` flag says whether the values differ there. |
| DiscrepancyMeaning.SpansChain | docs/dashboard/Balcones · Heartbeats y discrepancias OT-1792095882576.json:398 | Spans are non-empty, inside the window, pairwise disjoint and in start order. |
| DiscrepancyMeaning.OrderIsDetermined | docs/dashboard/Balcones · Heartbeats y discrepancias OT-1792095882576.json:398 | Any ordering of the joined spans by start is the same sequence, so the window functions have one result. |
| DiscrepancyCoverage.KnownCountsInstants | docs/dashboard/Balcones · Heartbeats y discrepancias OT-1792095882576.json:894 | `known_s` is the number of instants (microseconds) of the window at which both values are known. |
| DiscrepancyCoverage.KnownFitsTheWindow | docs/dashboard/Balcones · Heartbeats y discrepancias OT-1792095882576.json:894 | Coverage lies between nothing and the whole window. |
| DiscrepancyCoverage.DurationsCountDifferences | docs/dashboard/Balcones · Heartbeats y discrepancias OT-1792095882576.json:398 | The episode durations add up to the number of instants at which the values differ. |
| IngestRuns.RowsAreConservedInOrder | ingestor/src/ingest.py:75-113 | In every run without a cancelled write, for each table: the rows ever added are, in order, rows committed once or trimmed, then the batch in flight, then the pending rows; also when rows arrive during a failing write. |
| IngestRuns.RowsAreNeverCopied | ingestor/src/ingest.py:75-113 | In every run, cancelled writes included, each added row is in exactly one place, and no row is committed more often than it was added. |
| CancelledWrites.CommittedInOrderIff | ingestor/src/ingest.py:89-99 | In every run, cancelled writes included, of a table with pairwise different rows: its rows are committed in the order they were added if and only if no batch left to its thread commits after a newer row. |
| CancelledWrites.LateWriteKeepsOrderIff | ingestor/src/ingest.py:89-99 | One late commit keeps the order exactly when every row committed so far was added before its batch. |
| CancelledWrites.CancelledWriteMayReorder | ingestor/src/ingest.py:89-99 | A concrete run adds two different rows, one after the other, and commits them the other way round, so that the committed rows are no ordered subsequence of the added ones. |
| IngestRuns.FailureBoundsPending | ingestor/src/ingest.py:106-113 | After a failed write no table of the batch exceeds its limit, and nothing is lost while the limit is not exceeded. |
| IngestRuns.FailingIffTheLastWriteFailed | ingestor/src/ingest.py:92-102 | Writes count as failing exactly while the last awaited write failed, so each failure and each recovery is logged once. |
| IngestRuns.PutsAreAccounted | ingestor/src/ingest.py:62-66 | In every run the values put are, in order, decoded once or dropped, then queued; puts equal decoded plus queued plus reported plus unreported drops. |
| IngestRuns.NewestValuesStay | ingestor/src/ingest.py:62-66 | After any sequence of puts the queue holds exactly the newest values up to its limit, and the drop counter rose by the rest. |
| Ingest.IngestQueue.Enqueue | ingestor/src/ingest.py:62-66 | In place: a full queue loses its oldest value and counts it, then the value is appended. |
| Ingest.IngestQueue.StartSession | ingestor/src/ingest.py:43-48 | In place: every metric of the new session awaits its first value. |
| Ingest.IngestQueue.AddModel | ingestor/src/ingest.py:58-60 | In place: one measured row is appended to its table. |
| Ingest.IngestQueue.AddMetricModels | ingestor/src/ingest.py:129-146 | In place: suppresses a known first value, else raises the last timestamp and appends the renamed rows. |
| Ingest.IngestQueue.DecodeItem | ingestor/src/ingest.py:120-127 | In place: one queued value is decoded or dropped; a value that raises changes nothing. |
| DecodedRows.ItemsBecomeRows | ingestor/src/ingest.py:129-146 | A good value holding a non-empty array of models adds exactly one row per element to its metric's table, each with the element's timestamp and every field under its column, and touches no other table; only a suppressed first value, spelled out, adds none. |
| DecodedRows.OthersBecomeNothing | lib/metrics.py:49-68 | A value of an unknown metric, of bad status, or that is no such array changes nothing. |
| DecodedRows.SampleHolds | ingestor/src/ingest.py:135-146 | The time of a sample is the latest timestamp in its array, and its rows are one per element. |
| DecodedRows.NoSampleWithoutItems | lib/metrics.py:49-68 | A value that is no such array is no sample either. |
| DecodedRows.TagsBecomeRows | ingestor/src/ingest.py:148-163 | A tag with a value adds one row that tells its name, value, status, both times and the time of receipt; one without a value changes nothing. |
| Ingest.IngestQueue.DecodeAll | ingestor/src/ingest.py:115-127 | The loop decodes the queue in order and leaves it empty. |
| Ingest.IngestQueue.StartFlush | ingestor/src/ingest.py:80-89 | Decodes, resets the drop counter and swaps the pending rows out as the batch. |
| Ingest.IngestQueue.PutBack | ingestor/src/ingest.py:106-113 | The loop puts every table of a failed batch back in front of what arrived meanwhile, cut to the newest rows. |
| Ingest.IngestQueue.FinishFlush | ingestor/src/ingest.py:90-102 | After the write: a failure requeues the batch and marks writes as failing, a success clears the mark. |
| Redelivery.LastIsTheMaximum | ingestor/src/ingest.py:135-142 | Over any sequence of sessions and values, the last timestamp of every metric is the maximum over its non-empty decoded values, and a metric awaits its first value exactly while its session has brought none. |
| Redelivery.ChangesNothingIff | ingestor/src/ingest.py:120-133 | One queued value leaves the state as it was exactly when its metric is unknown, it cannot be decoded, or it is empty; a skipped redelivery does change it. |
| Redelivery.UndecodableChangesNothing | ingestor/src/ingest.py:115-133 | Decoding any queue is decoding what is left of it without the values that are unknown, undecodable or empty. |
| Redelivery.OncePerSampleInOrder | ingestor/src/ingest.py:135-142 | The rows stored once per newer sample are those of samples whose newest timestamps strictly increase. |
| Redelivery.EachSampleOnce | ingestor/src/ingest.py:43-48 | Across reconnects a non-idempotent metric's rows are those of each newer sample once, if and only if a value that is not newer than all before it only ever opens a session. |
| Redelivery.SkippedIffQueueWasDecoded | ingestor/src/ingest.py:129-146 | A redelivered, already known value is skipped exactly when the queue held no sample of its metric as the session began. |
| RunTrace.RunsStoreEachSampleOnce | ingestor/src/ingest.py:129-146 | The same equivalence, in the order in which values are decoded, for the rows added in whole runs of the pipeline, with failing and cancelled writes in between. |
| Arrivals.ArrivalsAreStoredOnce | ingestor/src/main.py:148-168 | In every run that decodes its queue before each new session, and in which of all arriving values only the first of a session may be not newer than all before it: each newer decoded sample is stored once, in strictly increasing time, whatever the queue drops and whichever writes fail. |
| Arrivals.ArrivalsAreStoredOnceIff | ingestor/src/ingest.py:43-48 | When nothing was dropped and all was decoded, that condition on the arriving values is exact. |
| Arrivals.EarlySessionStoresTwice | ingestor/src/ingest.py:43-48 | A session that begins before the queue was decoded stores the rows of the redelivered value exactly twice. |
| ColumnSets.RunsFit | ingestor/src/ingest.py:143-146 | In every reachable state all pending and in-flight rows of a table have exactly the table's columns, despite renaming and the second feeder. |
| ColumnSets.BatchesAreWritable | ingestor/src/db.py:160-172 | So building the statements never fails and drops no column. |
| ColumnSets.ImproperRowsStopTheWrite | ingestor/src/db.py:160-172 | A measured row without a column of the one before it makes the batch unwritable. |
| DatabaseRuns.TableHoldsCommittedRows | ingestor/src/db.py:152-175 | After any run of the pipeline a table holds exactly the committed rows in commit order, a row being skipped only when its primary key was already there. |
| DatabaseRuns.KeyedTableHoldsFirstCommitted | ingestor/src/db.py:166-169 | After any run a table with a primary key holds, in commit order, exactly the first committed row of each key: every key is there once, and rows that differ in a key column are both there. |
| DatabaseRuns.UnkeyedTableHoldsAllCommitted | ingestor/src/db.py:166-169 | A table without one holds every committed row in commit order. |
| DatabaseRuns.EveryRunLeavesALog | ingestor/src/db.py:152-175 | Every run can leave a log of transactions, so the statement about all such logs is never empty. |
| Metrics.RegistryIs | lib/metrics.py:71-96 | The eight metrics are registered and no other. |
| Metrics.RowsFitTheTable | lib/metrics.py:71-96 | Each registered metric's rows have exactly the columns of its table. |
| Metrics.RowKeepsEveryField | ingestor/src/ingest.py:143-145 | Renaming to columns loses and mixes up no field. |
| Metrics.TablesAreDistinct | lib/metrics.py:71-96 | Metrics and their tables correspond one to one, and no metric writes to `tags`. |
| Tables.Statements | ingestor/src/db.py:160-172 | The loop succeeds exactly when every table with rows has valid identifiers and every row has the first row's columns, and then yields each such table's rows cut to those columns. |
| Tables.SafeIdentifierIff | lib/database.py:162-165 | An identifier is accepted exactly if it is a word of ASCII letters, digits and underscores that starts with no digit, or one followed by a single line feed. |
| Tables.WrittenRowsAreTheBatch | ingestor/src/db.py:160-172 | Each row sent has exactly the first row's columns, with the cells of the batch's row at its place. |
| Tables.SkippedIffTheKeyIsStored | ingestor/src/db.py:166-169 | A row is skipped exactly when a stored row has the same cell in every column of the primary key, and appended otherwise. |
| Tables.RepetitionsAre | ingestor/src/db.py:37-90 | Two events are one if hash and time agree, two round trips if pair, value and time do, two agent errors if time, component and message do; no other table has repetitions. |
| Tables.BatchesConcatenate | ingestor/src/db.py:166-169 | Writing rows in several batches is writing them in one. |
| Tables.RepeatsNeedAKey | ingestor/src/db.py:166-169 | Writing any batch twice equals writing it once exactly for tables with a primary key. |
| Tables.IdempotentMetricsAreTheKeyedOnes | lib/metrics.py:71-96 | The metrics marked idempotent are exactly those whose table makes repeated batches harmless. |
| Transactions.LockedRunsAreAtomicIff | lib/database.py:73-84 | For every interleaving of any number of threads, failures and exits outside `Exception`: the database is a sequence of complete transactions in lock order if and only if no commit found statements left over by such an exit. |
| Transactions.NextCommitTakesLeftovers | lib/database.py:73-84 | The next commit makes leftover statements durable in front of its own, the next rollback discards them. |
| Transactions.LockedRunsAreAtomic | lib/database.py:73-84 | For every interleaving whose exits outside `Exception` come before the first statement, the database is a sequence of complete transactions in lock order, and only the transaction inside has statements open. |
| Transactions.CommitIsOneTransaction | lib/database.py:77-81 | Every commit makes durable the statements of exactly one whole transaction. |
| Transactions.WithoutTheLockTransactionsTear | lib/database.py:75-77 | Without the lock a concrete interleaving commits half of another thread's transaction. |
| Transactions.EscapeIsCleanIffNothingRan | lib/database.py:79-84 | Leaving by an exception that is not an `Exception` keeps the connection clean exactly when nothing had been executed. |
| Transactions.TableIsItsRows | ingestor/src/db.py:166-175 | A table after any log of statements is its rows inserted one after the other, conflicts skipped. |
| Transactions.RetryIsHarmless | ingestor/src/db.py:152-159 | A transaction repeated after it was committed does not change a table with a primary key. |
| Transactions.ProjectDatabase.Transaction | lib/database.py:73-84 | In place: all statements become durable together, or none does and the connection is clean. |
| Transactions.ProjectDatabase.InsertMany | ingestor/src/db.py:152-175 | In place: on success every table's rows are appended to the durable log in one transaction, otherwise nothing changes; without a fault it succeeds exactly when every non-empty batch can be written. |
| OpcEvents.RejectedIff | lib/opc_parser.py:225-228 | A result is rejected exactly when there is one and `Good` stands nowhere in it. |
| OpcEvents.NameIsAfterTheBar | lib/opc_parser.py:204-206 | An application is known by what follows the first bar of the name it gives, or by the whole name if there is no bar. |
| EventOutcomes.ResponseOutcome | lib/opc_parser.py:224-239 | A response to a pending tag whose result is absent or contains `Good` leaves that session active and filed under its token, or its id without one; any other response changes no session and no entry. |
| EventOutcomes.ResponsesEstablish | lib/opc_parser.py:203-239 | For every log: an accepted response establishes the session of the application whose request under that tag was last and unanswered, and no response without such a request establishes any. |
| EventOutcomes.PendingIsTheUnanswered | lib/opc_parser.py:203-239 | For every log: a handshake is pending under a tag exactly if the last request under it is unanswered, and it is that application's. |
| EventOutcomes.ReconnectOutcome | lib/opc_parser.py:208-214 | A known application that asks again has its span archived as it was, keeps nothing of it in front, loses its entry and is pending. |
| EventOutcomes.FirstConnectOutcome | lib/opc_parser.py:215-222 | An unknown application gets a session of the name, uri and address its request carries. |
| EventOutcomes.FirstRequestDescribes | lib/opc_parser.py:215-222 | For every log: a session has the uri and address of its application's first request. |
| EventOutcomes.LaterOutcome | lib/opc_parser.py:241-271 | A later event reaches the session of the first entry among the keys it looks under, leaves there what its kind says (activation, refusal, fault or close, with times and reasons), and touches nothing else. |
| EntryOrder.EntriesAreListedBySince | lib/opc_parser.py:194-273 | For every log: entries are listed by how long they have been there without interruption. |
| ClientHistory.HistoryIsTheCreateRequests | lib/opc_parser.py:194-239 | For every event list, each session's past connects followed by its current one are exactly the create requests of its application name in log order, and there is exactly one object per name. |
| ClientHistory.DisconnectsLieBetweenConnects | lib/opc_parser.py:113-127 | In a chronological log every recorded disconnect lies between its own connect and every later connect. |
| ConnectionGaps.GapsFitIff | lib/opc_parser.py:95-111 | For every log: every gap of every session fits between its two connects if and only if every reconnect, checked on the registry before it, is not dated before the stored connect and finds no stored disconnect dated before it. |
| ConnectionGaps.DisconnectsLieBetweenIff | lib/opc_parser.py:113-127 | For every log: every dated disconnect lies between its own connect and the next one if and only if every reconnect finds it so. |
| ConnectionGaps.SpansRelateIff | lib/opc_parser.py:113-127 | Whatever is asked of a span and the connect after it: all sessions have it throughout exactly when every reconnect finds it; no other event can make or break it. |
| ConnectionGaps.UpAndDownAddUp | lib/opc_parser.py:95-111 | For every log whose requests are dated, in any order: up time and total downtime add up exactly to the time from first to last connect. |
| ConnectionGaps.DowntimeIsBounded | lib/opc_parser.py:95-111 | So in every such log whose reconnects are in time, total downtime is at most last connect minus first connect. |
| ConnectionGaps.ChronologicalLogsAreInTime | lib/opc_parser.py:95-127 | Chronological logs meet all these conditions. |
| ConnectionGaps.MisdatedDisconnectInflatesDowntime | lib/opc_parser.py:95-111 | A disconnect dated before its own connect makes the downtime longer than the time from first to last connect. |
| ClientKeys.DisciplineKeepsKeys | lib/opc_parser.py:203-271 | For logs with fresh identifiers and no overlapping handshakes per application, every entry is under its session's current key, identifiers are never shared, and a session in a handshake is filed nowhere. |
| ClientKeys.ActiveUnderExactlyItsKey | lib/opc_parser.py:203-271 | In such logs an active session is filed under exactly its current key, with no disconnect time or reason. |
| ClientFiling.LogFilesExactly | lib/opc_parser.py:194-273 | For every log: all the way through, each entry is under its current key and each active session is filed without disconnect time or reason, if and only if every event meets `KeepsFiling`, checked on the registry before it. |
| ClientFiling.EventFilesExactly | lib/opc_parser.py:203-271 | For any registry filed exactly, one event keeps that if and only if it meets the condition; events after the handshake always do. |
| ClientFiling.AcceptFilesExactly | lib/opc_parser.py:224-239 | An accepted handshake does so exactly when it brings a key, no other active session has that key, and its session is filed under no other key and has no disconnect time or reason. |
| ClientFiling.ReconnectFilesExactly | lib/opc_parser.py:209-214 | A reconnect does so exactly when no other active session is filed under the old key it deletes. |
| ClientFiling.FiledMeansExactlyItsKey | lib/opc_parser.py:203-271 | In every such log an active session is filed under exactly its current key. |
| ClientFiling.DisciplineKeepsFiling | lib/opc_parser.py:194-273 | Logs with fresh identifiers and no overlapping handshakes meet the exact condition. |
| ClientFiling.SharedKeyUnfilesActiveSessions | lib/opc_parser.py:209-239 | Two applications accepted with one token, or both without identifiers, leave an active session filed nowhere; a reconnect of the first then unfiles the second too. |
| ClientFiling.OverlapLeavesAStaleKey | lib/opc_parser.py:203-239 | A concrete log with two overlapping handshakes of one application leaves its session under a stale key. |
| ClientMap.AmendmentsAmend | lib/opc_parser.py:241-271 | Events after the handshake never make a session active, and touch neither its connects nor its identifiers; only an activation records its time and its user name, a nameless one keeping the name. |
| ClientMap.ActivationsComeFromTheLog | lib/opc_parser.py:241-248 | For every log, each session's user name and activation time are those of activations in the log. |
| ClientSessions.ClientSession.PushReconnect | lib/opc_parser.py:113-127 | In place: the current span is archived and a fresh, inactive one begins. |
| ClientSessions.ClientSession.TotalDowntime | lib/opc_parser.py:95-111 | The loop sums the positive gaps between consecutive spans, the current one included. |
| ClientSessions.ClientMapBuilder.OnCreateRequest | lib/opc_parser.py:203-222 | On shared objects: a known application is unfiled, archived and pending again; an unknown one gets its one object. |
| ClientSessions.ClientMapBuilder.OnCreateResponse | lib/opc_parser.py:224-239 | On shared objects: a rejected handshake is dropped, an accepted one filed under its token or session id. |
| ClientSessions.ClientMapBuilder.OnActivate | lib/opc_parser.py:241-254 | On shared objects: activation and its rejection. |
| ClientSessions.ClientMapBuilder.OnEnd | lib/opc_parser.py:256-271 | On shared objects: faults end an active session, closing ends any session found by tag or token. |
| ClientSessions.BuildClientMap | lib/opc_parser.py:194-273 | The loop over the log builds the dictionaries of shared objects that the value-level registry describes. |
| ClientSessions.ObjectsCarryTheLog | lib/opc_parser.py:194-273 | The returned objects carry their application's create requests, and two entries are the same object exactly when they are of the same application. |
| ActiveMap.TagsAreIndependent | lib/opc_parser.py:276-321 | Each tag gets exactly the result of processing only that tag's events. |
| ActiveMap.SessionDescribesItsTag | lib/opc_parser.py:295-319 | A tag's session has the tag's first timestamp, first token, last dated request, and is active exactly when no event ended it; else it carries the last end's time and reason. |
| ActiveMap.SkippedIff | lib/opc_parser.py:279-293 | Left out are the two anonymous tags and every tag that begins like a server address. |
| EntryOrder.TagsAreListedByFirst | lib/opc_parser.py:295-301 | For every log: tags are listed in the order of their first events. |
| MergedSessions.EveryTagIsAKey | lib/opc_parser.py:324-346 | For every log, every tag that is not skipped is a key of the merge. |
| MergedSessions.TagKeepsItsClient | lib/opc_parser.py:332-344 | A tag keeps the client it was given exactly when no unshown handshake's key equals the tag. |
| MergedSessions.NoClientIsLost | lib/opc_parser.py:324-346 | For every log whose events all keep the filing and whose handshake keys are not tags, every tag shows its own client and every handshake's application name appears. |
| LastSeen.TokenBelongsToTheLast | lib/opc_parser.py:328-330 | A token belongs to the last listed handshake session that has it. |
| LastSeen.HandshakesAreSeenByTheirTags | lib/opc_parser.py:332-337 | For every log: a merged handshake session was last seen at the last dated request of the first tag that shows its token and has one, and carries no such time exactly when no tag does. |
| MergedObjects.BuildActiveMap | lib/opc_parser.py:276-321 | The loop on objects yields one object per tag with the value of the active map. |
| MergedObjects.BuildSessions | lib/opc_parser.py:324-346 | The merge on objects: the keys are those of the value-level merge, two keys hold the same object exactly when they have the same reference, and every object ends with the value the merge gives it. |
| LogFields.ParsingUndoesPrinting | lib/opc_parser.py:169-175 | Splitting on the separator and extracting recovers every printed field, the first value winning per key, whatever blank space was printed around the parts. |
| LogFields.SplitPrinted | lib/opc_parser.py:10-10 | Splitting a printed event returns exactly its lead-in and its chunks. |
| LogFields.ExtractPrinted | lib/opc_parser.py:34-47 | A printed field with a trimmed, colon-free, non-reserved key that does not start with a digit, whichever characters count as digits, is read back as it was. |
| LogFields.ExtractIff | lib/opc_parser.py:34-47 | Any chunk gives a field exactly if it is a trimmed key and a trimmed value around its first colon, the key starting with no digit and being no heading. |
| LogFields.SplitIsExact | lib/opc_parser.py:10-10 | Splitting any content cuts at every separator and loses nothing. |
| LogFields.FirstChunkWins | lib/opc_parser.py:169-175 | From any chunks, each key that some chunk gives has the value of the first one, and no other key is there. |
| LogFields.SpacesAre | lib/opc_parser.py:34-42 | The characters that stripping removes, by their codes. |
| LogFields.ParseFields | lib/opc_parser.py:169-175 | The loop keeps the first value of each key. |
| Heartbeat.ValueIsTheWave | lib/heartbeat.py:158-164 | After n beats with maximum M at least 1 the value is the triangle wave of n mod 2M. |
| Heartbeat.InRangeIffPositiveMaximum | lib/heartbeat.py:158-164 | The value stays between 0 and the maximum for ever if and only if the maximum is at least 1. |
| Heartbeat.SendTimesAreBounded | lib/heartbeat.py:148-152 | However many echoes are lost, the send-time map holds at most M + 1 entries. |
| Heartbeat.AtMostOneRttPerBeat | lib/heartbeat.py:87-136 | Over any channel, recorded round trips plus open send times never exceed the beats sent. |
| Heartbeat.EveryBeatCountsIff | lib/heartbeat.py:110-119 | Over any channel they are equal to the beats sent exactly as long as no beat has the value of one whose send time is still open, and fewer from then on. |
| Heartbeat.BufferHoldsTheNewest | lib/heartbeat.py:119-140 | The buffer is exactly the round trips recorded since it was last drained, or the newest 999 of them. |
| HeartbeatLink.EchoesAreAPrefix | lib/heartbeat.py:87-108 | Over lossless first-in first-out channels that start empty, echoes are a prefix of the sends and no jump is ever reported. |
| HeartbeatLink.PromptRunsTimeEachBeat | lib/heartbeat.py:110-119 | While at most two beats are unanswered, every echo is measured from its own send to its own return. |
| HeartbeatLink.AnsweredRunsAreTimedIff | lib/heartbeat.py:110-119 | For every run whose beats have all been answered, in whatever interleaving: every round trip is timed from its own send to its own return if and only if no beat has the value of one whose send time was still open. |
| HeartbeatLink.NewBeatsAreTimed | lib/heartbeat.py:110-119 | Under that condition it holds at every point of the run, answered or not. |
| HeartbeatLink.BeatKeepsOwnTimesIff | lib/heartbeat.py:148-152 | A beat leaves every open entry its own exactly when its value has no open entry. |
| HeartbeatLink.ThreeUnansweredBeatsMixTimesIff | lib/heartbeat.py:110-119 | For every maximum and after every promptly answered run: of three beats sent before the first echo returns, that echo is timed from the third beat exactly when the second one is at the top or at zero, and from its own otherwise. |
| HeartbeatLink.ThreeUnansweredBeatsMixTimes | lib/heartbeat.py:110-119 | So for every maximum there is a run that records a wrong round trip. |
| Heartbeat.SystemHeartbeatHandler.UpdateHeartbeat | lib/heartbeat.py:158-164 | In place: the direction turns at the top and at zero, then the value moves by one. |
| Heartbeat.SystemHeartbeatHandler.SendHeartbeat | lib/heartbeat.py:148-156 | In place: the next value is sent and its send time recorded. |
| Heartbeat.SystemHeartbeatHandler.DataChange | lib/heartbeat.py:87-131 | In place: remembers the value and its time, turns an open send time into a buffered round trip, and reports a jump, the time since the last value, a slow echo, or a value not sent. |
| Heartbeat.SystemHeartbeatHandler.IsStale | lib/heartbeat.py:142-146 | The check says whether a value was received and the last one is too long ago. |
| Heartbeat.StaleIffLastEchoIsOld | lib/heartbeat.py:142-146 | Over any channel, staleness is exactly that the last of all values received came too long ago; silence from the start is not stale. |
| Heartbeat.ReportsAreExact | lib/heartbeat.py:87-131 | Over any channel, read off the steps alone: a jump is reported exactly if a value was received before and the last one is no neighbour; the gap is the time since it; the echo is slow exactly if the value's last beat is unanswered and too long ago; a value without such a beat is reported as not sent. |
| Heartbeat.SystemHeartbeatHandler.DrainRtts | lib/heartbeat.py:138-140 | The loop returns the buffer oldest first and empties it. |
| Sampling.IntervalIsClamped | lib/subscription.py:44-48 | The sampling interval is between 100 ms and 1000 ms for every period. |
| Sampling.IntervalIsTheLargest | lib/subscription.py:44-48 | Within its limits it is the largest whole number of milliseconds up to half the period. |
| Sampling.TruncationDropsTheFraction | lib/subscription.py:46-46 | The whole part is cut toward zero. |
| Sampling.StaleAfterIsTheLonger | lib/subscription.py:47-47 | Silence counts as stale after the longer of the usual time and five periods. |
| Sampling.TwiceAsFastIff | lib/subscription.py:39-48 | The interval is at most half the period if and only if the period is at least 0.2 s. |
| Sampling.WritesAreSeparatedIff | lib/subscription.py:39-48 | However sampling is phased, two writes a period apart have a sampling instant between them, if and only if the period is at least 0.1 s. |
| Sampling.QueueNeverOverflows | lib/subscription.py:31-34 | For every period a 500 ms publish window holds at most five sampling instants, below the queue of ten. |
| ProcessIds.JoinRoundTrip | lib/models.py:92-107 | Joining process ids with commas and parsing them back returns the same list, the empty one included. |
| ProcessIds.TextIsReadInParts | lib/models.py:92-97 | Any text is read as the numbers between its commas, empty parts skipped, and refused exactly if one of them is no number. |
| ProcessIds.SignsAreRead | lib/models.py:94-96 | A leading minus negates, a leading plus does not. |
| ProcessIds.PlacesAreDecimal | lib/models.py:99-107 | Numbers are printed in decimal, the units last. |

## Left out

- Cancellation inside the wait is modelled as a step that leaves the batch to its thread; when
  the thread never starts, that counts as a late failure.
- Reconnect backoff: the repository's README describes exponential backoff, the code waits a
  constant delay; no timing of reconnects is modelled.
- JSON text, pydantic's value coercion, calendar parsing and the regular expression that frames
  events: a payload is a list of items with an optional timestamp and text fields, a log
  timestamp is absent, unreadable or an instant, and a log is a list of events. Mixing
  time-zone-aware and naive log timestamps, which the subtraction would reject, does not occur.
- ProcessIds.JoinRoundTrip: parses an optional sign and decimal digits; the blanks and
  underscores that `int` also accepts never come from the printer.
- LogFields.Extract: which characters are digits depends on the Unicode version, so the class of
  digits is a parameter and the results hold for every class.
- DiscrepancyCoverage.KnownCountsInstants: durations are whole microseconds, the resolution of
  the stored timestamps; their conversion to floating-point seconds is not modelled.
- Transactions.ProjectDatabase.Transaction: runs as one step under the lock; the interleavings
  are in `Transactions.Next`. Entering a transaction inside another one, which the lock would
  allow and no caller does, is not modelled, and a failed commit is taken to have no effect.
- Tables.Statements: values that violate a NOT NULL column make the database reject the
  transaction; that is one of the failures a write may have, not a case of its own.
- Heartbeat.SystemHeartbeatHandler.DataChange: the two clocks are parameters, with times as
  integers; what is logged is reported, the wording of the log lines is not modelled.
- Sampling.IntervalIsClamped: periods are real numbers; the rounding of the floating-point product
  and quotient before `int` truncates them is not modelled.
- The tables written outside the pipeline (`active_log`, `ingestor_logs`), schema creation and
  retention: one-row transactions and set-up.
- SQL parsing of tag text into 0, 1 or NULL, the asset mapping, the choice of the asset and the
  plotting queries: presentation around the query.
- The OPC UA client, certificates, subscription delivery, Windows services, system metrics, the
  events REST call, CSV reading, the failure counter, the error buffer and settings: input and
  output, or the same reasoning as the queue.
