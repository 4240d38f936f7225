# Fleet telemetry: verified model

A Dafny model of the fleet pipeline, from the write path through the change
stream to the dashboard, with proofs over every interleaving and every restart.
`dafny verify dfyconfig.toml` checks it (Dafny 4.11).

* **Decoder.** The pgoutput decoder as a class with a mutable cursor (`Decoder`),
  proved equal to functions of a buffer and a cursor (`PgOutput`), which are
  proved inverse to the server's encoding of PostgreSQL 16, section 55.9
  (`RoundTrip`). `Bytes` has Python slices, big-endian integers and strict UTF-8;
  `Utf8` shows that its check accepts exactly the encodings of Unicode scalar values.
* **Consumer and protocol.** The consumer class with its pump loop and feedback
  (`Consumer`), what a run of it publishes and reports for what it is sent
  (`PumpRuns`), how often it reports (`FeedbackDiscipline`, `Windows`),
  the copy-stream framing of section 55.4 (`Framing`), and a state machine of
  server, slot, session, crashes, failed publishes and restarts that feeds the
  consumer encoded bytes (`Replication`). `PumpProtocol` shows that the pump loop
  plays nothing but runs of that machine. `AtLeastOnce` has the invariant and
  `Delivery` the guarantee, position by position; `Confirmation` shows that only
  reports move the confirmed position, `Recovery` that no reachable state is stuck,
  and `Supervisor` is the restart loop.
* **Dashboard.** Three stores and the component that seeds them while folding
  patches (`Dashboard`, `LastWrite`), the exact outcome of snapshot-then-stream
  (`SnapshotRace`; `AnomalySnapshot` for the store whose snapshot goes by time
  while its patches go by commit), the whole way from commits to stores (`Pipeline`), and both
  together for a dashboard opened in the middle of any run (`EndToEnd`), down to
  the cells of the last committed row (`Cells`).
* **Write path.** Anomaly rules and one ingest by itself (`Telemetry`), any
  number of ingest transactions under row locks (`WritePath`), and what their
  interleavings leave (`Serializability`, `AnomalySerial`, `WriteProgress`), column
  by column (`Rows`).
* **Faults.** One fault transition by itself and the machine in which calls,
  status updates, missions and repairs interleave (`Faults`), what every run
  keeps (`FaultRuns`), what a True leaves behind (`FaultOutcome`), exactly-once and
  progress (`FaultOnce`).
* **Shared.** `Wrappers` (options and results), `Sequences` (membership,
  distinctness, sums).
* **Smaller machines.** The comms-loss sweep (`CommsLoss`), the WebSocket
  registry (`FanOut`), the fleet aggregate (`Queries`), the latest anomaly per
  vehicle (`LatestAnomaly`), migrations and seeds (`Migrate`).

## What the proofs rest on

The server's behaviour is stated as the enabling conditions of `Replication`'s
actions: transactions are sent whole and in commit order; a position sent before
a Commit is at most that transaction's commit start and the Commit carries its
end; a new session sends the transactions that start at or after the confirmed
position; position 0 in a report is ignored; a relation is announced before its
first change in a session. On the consumer's side `Report` may happen at any
moment, forced or not, and so may more often than the code; `PumpProtocol` shows that
every turn of the pump is a message of the server followed by such a report, and the
way out of a run one more. The server may take a report as it is, even
backwards, or ignore one that is older. `WritePath` and `Faults` assume READ
COMMITTED, row locks held to commit, and atomic commit and rollback.

## Where the code and its prose differ

The model follows the code.

* `_last_lsn` moves before a message is decoded and published, and is reported
  even when the publish raised (app/cdc_consumer.py:202-206 and 251-252), so
  "confirm the processed LSN" (line 260) is not what is reported. Delivery holds
  all the same, because no position sent before a Commit lets the server skip
  that transaction.
* The prior reading of an ingest is read without a lock (app/persistence.py:261-263):
  `WriteProgress.OverlapLosesAnomaly` is a run of two overlapping first readings
  in which an anomaly that a serial run flags is lost.
* A `True` from `transition_to_fault` "opens one maintenance record"
  (app/persistence.py:407-408), but a record left open by an earlier fault makes
  the insert do nothing, and that record may be resolved before the commit:
  `FaultOutcome.TrueWithoutRecord`. `FaultOutcome.TrueLeavesRecordIff` is the exact
  condition on what the others do meanwhile; with no open record at the lock a
  True always leaves one.
* "Cancelling its active mission" (app/persistence.py:390) is as of the cancel: a
  mission started between a cancel that found none and the commit stays active on
  the faulted vehicle; `FaultOutcome.MissionAfterTrueIff` says exactly when.
* "Overwrites a stale one" (web/src/anomalyStore.ts:55-56) goes by arrival: a patch
  with an earlier `detected_at` replaces a newer seed. `SnapshotRace.AnomalyStoreRace`
  and `EndToEnd.AnomaliesEndToEnd` say exactly when the newest is shown.
* An unknown `zone_entered` matches no row and is silently uncounted
  (app/persistence.py:112-116): `Telemetry.Database.PersistTelemetry`.
* After a stream that ended without ever having streamed, the log line announces
  a restart in 0.5 s (app/cdc_consumer.py:515-518) while the wait is the grown one.
* A client is registered before its snapshot is sent (app/frontend_api.py:371-380),
  so deltas may come first; they are part of its segment in `FanOut`.

## Model

| member | source | states |
|---|---|---|
| Bytes.FromToBE | app/cdc_consumer.py:106-119 | big-endian integers of any width are read back as written |
| Bytes.BigEndian | app/cdc_consumer.py:106-119 | the first byte weighs most: an integer is its bytes times descending powers of 256 |
| Bytes.SignedRange | app/cdc_consumer.py:106-119 | read as signed, an integer of k bytes is itself below half the range and itself less the range from there on |
| Utf8.ValidIff | app/cdc_consumer.py:121-125 | strict decoding accepts a byte string iff it is the encoding of some Unicode scalar values, surrogates and overlong forms refused |
| Bytes.AtSlice | app/cdc_consumer.py:127-130 | bytes found at an offset are the slice of their length there, wholly inside the buffer |
| Decoder.Reader.constructor | app/cdc_consumer.py:92-94 | a reader starts at offset 0 of its buffer |
| Decoder.Reader.Int8 | app/cdc_consumer.py:96-99 | one byte as a number and the cursor one further, or IndexError and the cursor kept |
| Decoder.Reader.Char | app/cdc_consumer.py:101-104 | at most one byte, empty past the end, never an error; the cursor moves regardless |
| Decoder.Reader.Int | app/cdc_consumer.py:106-119 | a signed big-endian integer of the width, or StructError and the cursor kept |
| Decoder.Reader.String | app/cdc_consumer.py:121-125 | text up to the next zero byte and the cursor just past it; ValueError without one, UnicodeError for ill-formed UTF-8 |
| Decoder.Reader.Take | app/cdc_consumer.py:127-130 | a Python slice, short at the end of the buffer; the cursor moves by the length asked for |
| Decoder.ReadColumns | app/cdc_consumer.py:307-312 | the column loop reads what the cursor functions say, or fails as they do |
| Decoder.ReadRelation | app/cdc_consumer.py:301-313 | a Relation's OID, name and column names, type fields skipped |
| Decoder.ReadTuple | app/cdc_consumer.py:315-330 | the tuple loop agrees with the cursor functions, an uncached OID and surplus columns included |
| Decoder.Decode | app/cdc_consumer.py:279-299 | the imperative decoder equals `DecodeMessage` on every buffer, well-formed or not |
| RoundTrip.RelationHere | app/cdc_consumer.py:301-313 | an encoded Relation is cached under its OID read as signed, and read to its exact end |
| RoundTrip.TupleHere | app/cdc_consumer.py:315-330 | an encoded tuple gives each column its value, nulls and unchanged TOAST included, and is read to its exact end |
| RoundTrip.OldTupleHere | app/cdc_consumer.py:290-293 | an absent, key or full old tuple is skipped exactly |
| RoundTrip.EventHere | app/cdc_consumer.py:373-397 | a decoded watched row becomes the event its cells stand for |
| RoundTrip.AnnounceMirrors | app/cdc_consumer.py:301-313 | caching a relation, new or sent again, keeps the cache equal to the session's catalogue, OIDs above 2^31 included |
| RoundTrip.DecodeEncoded | app/cdc_consumer.py:279-299 | every well-formed message decodes to its event and cache entry whatever bytes follow it, with the cursor at its end |
| RoundTrip.Letters | app/cdc_consumer.py:279-330 | message, tuple and column tags are the letters of the protocol |
| RoundTrip.UnannouncedRaises | app/cdc_consumer.py:315-330 | an insert or update under an OID not announced in the session raises KeyError, whatever follows the OID |
| RoundTrip.StreamRoundTrip | app/cdc_consumer.py:279-371 | a stream of encoded messages decodes to exactly the watched rows' events, in order |
| Consumer.CdcConsumer.constructor | app/cdc_consumer.py:177-184 | no relations, position 0, nothing reported |
| Consumer.CdcConsumer.SendFeedback | app/cdc_consumer.py:259-276 | skipped within a second of the last unless forced; a failed write or flush leaves the clock mark unchanged |
| Consumer.CdcConsumer.DecodePgoutput | app/cdc_consumer.py:279-371 | the cache and the channel change only if decoding and publishing both succeed |
| Consumer.CdcConsumer.OnCopyMessage | app/cdc_consumer.py:246-257 | the position moves first, then the payload is decoded or a requested reply sent |
| Consumer.CdcConsumer.PumpLoop | app/cdc_consumer.py:224-243 | the loop equals the recursive pump over any script of messages, errors and stops; what that publishes and reports is `PumpRuns`, and that it plays by the protocol `PumpProtocol` |
| Consumer.CdcConsumer.RunStream | app/cdc_consumer.py:188-222 | one run, the forced report on every way out included; a run that fails to start changes nothing |
| PumpRuns.ServeTurn | app/cdc_consumer.py:224-243 | one turn takes the position of what it finds, caches and publishes what that carries, and ends with its last report under a second old; or raises with nothing published if the channel refuses |
| PumpRuns.PumpServes | app/cdc_consumer.py:224-257 | from any state a pump over well-formed data messages, keepalives and idle waits publishes exactly their events in order and takes exactly their positions, up to the first refused publish |
| PumpRuns.RunServes | app/cdc_consumer.py:188-257 | a whole run publishes exactly the watched rows' events of the messages it is sent, takes one position per frame and ends at the highest; if a publish is refused it raises there, with the events before it published and its position taken |
| PumpRuns.PumpCut | app/cdc_consumer.py:224-243 | a stop, the end of the stream or an error ends the pump with everything before it served and nothing after it read |
| PumpRuns.RunReportsOnExit | app/cdc_consumer.py:202-206 | every started run ends with a forced report of the last position taken, if the write goes out |
| PumpRuns.KeepaliveAnswered | app/cdc_consumer.py:253-257 | a keepalive that asks is answered at once with its position taken, whenever the last report was |
| PumpRuns.MalformedRaises | app/cdc_consumer.py:246-252 | a message that does not decode ends the run: its position is taken, nothing is cached or published |
| PumpRuns.ReportsKeepUp | app/cdc_consumer.py:259-276 | after a pump has served its frames its last report, or its start, is less than a second old |
| PumpProtocol.TurnIsSendThenReport | app/cdc_consumer.py:224-243 | a turn that finds a server message is that send of the protocol followed by a report, unless the send raised |
| PumpProtocol.PumpIsProtocol | app/cdc_consumer.py:224-243 | whatever the server plays, the pump is a run of the protocol that ends in the same state of the consumer, raised or not |
| PumpProtocol.RunIsProtocol | app/cdc_consumer.py:188-222 | a whole consumer run is connecting, pumping and one forced report in the protocol, so what is proved of every protocol run holds of it |
| FeedbackDiscipline.ReportsAreReceivedMaxima | app/cdc_consumer.py:249-276 | every report of a run equals the highest position received before it, so reports never decrease |
| FeedbackDiscipline.TurnPaced | app/cdc_consumer.py:267-276 | after any turn a rate-limited report is a second or more after every earlier report |
| FeedbackDiscipline.ReportRate | app/cdc_consumer.py:267-269 | with a clock that never goes back, T seconds hold at most floor(T) + 1 unforced reports |
| Windows.WindowBound | app/cdc_consumer.py:267-269 | points at least a gap apart: at most floor(length / gap) + 1 in a window |
| Framing.DeliverData | app/cdc_consumer.py:249-252 | a framed data message moves the position, then caches and publishes, unless the publish raises |
| Framing.DeliverKeepalive | app/cdc_consumer.py:253-257 | a framed keepalive moves the position and answers exactly when asked |
| AtLeastOnce.DeliveredData | app/cdc_consumer.py:246-258 | seen from the protocol a data message changes only the session and the channel, and sends no report |
| AtLeastOnce.ConnectKeeps | app/cdc_consumer.py:188-222 | a new session, wherever the server restarts it, keeps the invariant |
| AtLeastOnce.ChangeKeeps | app/cdc_consumer.py:249-252 | delivering a change keeps the invariant, published or not, position already moved |
| AtLeastOnce.CommitKeeps | app/cdc_consumer.py:249-252 | once its Commit is received a transaction's events are all in the channel together |
| AtLeastOnce.ReportKeeps | app/cdc_consumer.py:202-206 | a report at any moment, after a failure included, can never let the server skip unpublished changes |
| AtLeastOnce.StepKeeps | app/cdc_consumer.py:188-276 | every action of server and consumer keeps the protocol invariant |
| Delivery.StepDelivers | app/cdc_consumer.py:188-276 | every action keeps each transaction sent so far whole in one published stretch, and the latest session from beginning later than the cursor |
| Delivery.AtLeastOnceDelivery | app/cdc_consumer.py:188-276 | over every run with crashes, failed publishes and restarts: the channel is the committed stream replayed in stretches, a transaction the confirmed position lets the server skip lies whole in one of them, and no earlier position of the stream is missing, however often equal events repeat |
| Confirmation.ConfirmedWasReported | app/cdc_consumer.py:259-276 | in every run the server stands where it began or at a position some consumer reported in that run: no send, crash, restart or commit moves it |
| Recovery.DueEnabled | app/cdc_consumer.py:488-530 | a connected session always has a next message the server can send |
| Recovery.Drain | app/cdc_consumer.py:488-530 | a connected session can be sent everything still due |
| Recovery.CanAlwaysCatchUp | app/cdc_consumer.py:488-530 | every run has a continuation after which every committed transaction lies whole in a published stretch and every store agrees with the commits |
| Pipeline.StepWeaves | app/cdc_consumer.py:224-257 | at every step the channel is a replay of the committed stream in stretches, each starting no later than the last one ended |
| Pipeline.SessionInCommitOrder | app/cdc_consumer.py:224-257 | within a session events come out in commit order from where the server restarted it |
| Pipeline.PublishedLast | app/cdc_consumer.py:188-276 | once caught up, the last published value of every key is the last committed one |
| Pipeline.DashboardConverges | web/src/App.tsx:110-127 | end to end, each store folded from everything ever published equals the store folded from every commit once |
| EndToEnd.KeyOverReplay | web/src/App.tsx:89-127 | a seed read at q over a channel that ends as the commits do: a key is as committed iff its seed has been made good |
| EndToEnd.VehiclesEndToEnd | web/src/App.tsx:89-127 | a dashboard opened in the middle of any run with crashes, failed publishes and restarts: once the consumer has caught up each vehicle row is as committed iff patched since, or nothing but its own value was committed since the snapshot was read |
| EndToEnd.ZonesEndToEnd | web/src/App.tsx:101-126 | the same for the zone tiles |
| EndToEnd.AnomaliesEndToEnd | web/src/App.tsx:98-122 | the anomaly store, seeded with each vehicle's newest anomaly by time: it shows the newest committed one iff it was patched since and the last committed is the newest, or it was not and nothing newer was committed after the snapshot |
| Cells.VehicleCells | web/src/App.tsx:110-114 | once the consumer has caught up, a vehicle row patched since its seed shows the status and battery cells of the vehicle's last committed row |
| Cells.ZoneCells | web/src/App.tsx:123-126 | a zone tile patched since its seed shows the count cell of the zone's last committed row |
| Cells.AnomalyCells | web/src/App.tsx:115-122 | an anomaly entry patched since its seed shows the type, detail and time cells of the vehicle's last committed anomaly |
| Supervisor.RunForever | app/cdc_consumer.py:469-529 | over any outcomes the loop leaves only at the first iteration that notices a stop, and does exactly the closed-form trace |
| Supervisor.EachInTurn | app/cdc_consumer.py:469-529 | the trace is the iterations' entries one after another: nothing after a stop at the head; else one probe first, the slot iff it found the publication, the consumer run iff the slot was ensured, and a wait at the end iff no stop was noticed after the run |
| Supervisor.BackoffDoubles | app/cdc_consumer.py:491-529 | doubling under the cap is min(0.5 * 2^k, 10), between 0.5 and 10 and never shrinking |
| Supervisor.SlotAfterProbe | app/cdc_consumer.py:474-504 | the slot is ensured only right after a probe that found the publication, and the consumer run only after that |
| Supervisor.ProbeFailures | app/cdc_consumer.py:482-495 | the j-th probe failure in a row waits min(0.5 * 2^j, 10) |
| Supervisor.StreamFailures | app/cdc_consumer.py:521-529 | an attempt that streamed waits 0.5; the j-th later one in a row that never streams waits min(0.5 * 2^j, 10), whatever probes fail between |
| Supervisor.FirstAttempts | app/cdc_consumer.py:521-529 | before any attempt has streamed, the wait after the j-th attempt is min(0.5 * 2^j, 10), whatever probes fail between |
| LastWrite.KnownAt | web/src/vehicleStore.ts:44-58 | a closed store keeps its keys, and each holds its last patch or its seed |
| LastWrite.AnyAt | web/src/anomalyStore.ts:58-65 | an open store also gains the keys patched, each holding its last patch |
| LastWrite.ReplayPosition | web/src/App.tsx:110-127 | after any rewinding replay each key is as of a position between the last end and the furthest |
| LastWrite.ReplayConverges | web/src/App.tsx:110-127 | if the last stretch reaches the furthest position each key ends as the straight stream leaves it |
| LastWrite.ReplayFolds | web/src/vehicleStore.ts:44-58 | so folding the replayed stream gives the straight stream's map, for closed and open stores |
| Dashboard.SeedVehicles | web/src/vehicleStore.ts:21-31 | the loop keys the rows by vehicle, a later row replacing an earlier one |
| Dashboard.SeedAnomalies | web/src/anomalyStore.ts:39-47 | the same for anomaly rows |
| Dashboard.SeedIsTable | web/src/vehicleStore.ts:21-31 | seeding from a listing of a table gives the table, whatever the order of its rows |
| Dashboard.App.constructor | web/src/App.tsx:89-91 | mounted with three empty stores |
| Dashboard.App.OnVehicles | web/src/App.tsx:95-97 | a vehicle snapshot replaces the vehicle store wholesale, while mounted |
| Dashboard.App.OnAnomalies | web/src/App.tsx:98-100 | an anomaly snapshot replaces the anomaly store wholesale, while mounted |
| Dashboard.App.OnZones | web/src/App.tsx:101-103 | a zone snapshot replaces the zone store wholesale, while mounted |
| Dashboard.App.OnEvent | web/src/App.tsx:110-127 | a patch sets its own fields in its own row and leaves every other row of every store: known vehicles and zones only, any anomaly |
| Dashboard.App.Cleanup | web/src/App.tsx:134-138 | after unmounting no snapshot changes a store |
| Dashboard.UnmountedStays | web/src/App.tsx:134-138 | once unmounted, nothing that arrives changes any store |
| Dashboard.VehiclesFold | web/src/App.tsx:110-114 | from any mounted state the vehicle store ends folded with exactly the later patches, however the other seeds fall |
| Dashboard.AnomaliesFold | web/src/App.tsx:115-122 | the same for the anomaly store |
| Dashboard.ZonesFold | web/src/App.tsx:123-126 | the same for the zone store |
| SnapshotRace.RaceAtKey | web/src/App.tsx:89-127 | seed read at q, seeded at t, patched to n: a key agrees with the table at n iff the race is harmless for it |
| SnapshotRace.ClosedStoreRace | web/src/vehicleStore.ts:44-58 | a closed store has the seed's keys for ever, and equals the table iff no key was added and every race is harmless |
| SnapshotRace.OpenStoreRace | web/src/anomalyStore.ts:58-65 | the same for each key of an open store |
| SnapshotRace.VehicleStoreRace | web/src/App.tsx:95-114 | the component's vehicle store, whatever was folded before the seed and seeded around it |
| SnapshotRace.ZoneStoreRace | web/src/App.tsx:101-126 | the component's zone store |
| AnomalySnapshot.KeyedRow | web/src/anomalyStore.ts:39-47 | seeding by vehicle keeps one of each vehicle's rows, and no other vehicle |
| AnomalySnapshot.NewestIff | web/src/anomalyStore.ts:39-65 | seeded with the newest rows and patched in commit order, a key shows its newest anomaly iff its last patch is that or, with none, nothing committed since is newer |
| SnapshotRace.AnomalyStoreRace | web/src/App.tsx:98-122 | the component's anomaly store, seeded from the newest by time at q: when it shows the newest at n, late readings, ties and first anomalies after the seed included |
| Telemetry.DetectStateless | app/persistence.py:195-203 | the four rules on the reading alone, in order |
| Telemetry.DetectAnomalies | app/persistence.py:180-237 | the appended list is the rules selected in order, those that compare only with a prior reading |
| Telemetry.DetectedIffFires | app/persistence.py:180-237 | a finding is reported iff its rule fires, once per rule; none that compares on a first reading; never a comms loss |
| Telemetry.Database.InsertAnomalies | app/persistence.py:269-278 | one row per finding, stamped with the reading's time |
| Telemetry.Database.PersistTelemetry | app/persistence.py:240-278 | the vehicle's row has the reading's six fields and every other row stays, the raw log gains its row, its zone's counter one, and the anomalies are those of the serial step; if the counter overflows nothing changes; an unknown zone counts nowhere |
| Rows.RulesOnReading | app/persistence.py:195-203 | the four rules on the reading alone, each iff on the reading's own numbers, with the numbers its detail is made from |
| Rows.RulesOnPrior | app/persistence.py:205-236 | stuck and rising battery, each iff on the two readings' own numbers |
| Rows.TeleportOnPrior | app/persistence.py:214-229 | a jump is found iff the distance between the two positions exceeds 15 m/s times a positive interval |
| Rows.FindingsInOrder | app/persistence.py:180-237 | findings come in the order of the rules |
| Rows.StoredByOne | app/persistence.py:269-278 | one reading adds each of its findings once, stamped with its vehicle and time, and no other anomaly row |
| Rows.ConsecutiveReadings | app/persistence.py:205-278 | of two consecutive readings of a vehicle, what the second stores by comparing is decided by the two readings' own fields |
| Rows.RowsAreLastReadings | app/persistence.py:46-60 | in every reachable state of any interleaving a vehicle's row is, field by field, its last committed reading, and the raw log has one row per committed reading |
| Rows.RowsHeldAlone | app/persistence.py:265-268 | no two transactions hold the same vehicle's or the same zone's row at once |
| Serializability.CommitRefines | app/persistence.py:259-278 | committing a transaction that holds its locks is one serial step on log, current state and counters |
| Serializability.StepKeeps | app/persistence.py:259-278 | every statement, commit and failure keeps the lock tables, the log and the refinement |
| Serializability.TablesRefineSerial | app/persistence.py:240-278 | any interleaving leaves raw log, current state and counters as running the committed readings one by one in commit order; aborted ones leave nothing |
| Serializability.AnomaliesFromEarlierRows | app/persistence.py:261-264 | always: each committed reading was judged against its vehicle's row as of some earlier commit |
| Serializability.UndisturbedIsSerial | app/persistence.py:261-264 | if no reading of the vehicle committed between read and commit, every table is serial |
| Serializability.NoOverlapIsSerial | app/persistence.py:240-278 | if transactions of one vehicle never overlap from prior read to end, every table, anomalies included, is serial |
| AnomalySerial.AnomaliesSerialIff | app/persistence.py:261-264 | with no two committed readings of a vehicle at one time, the tables are serial iff for every committed reading the three comparing rules agree on the row it read and the row of its turn |
| WriteProgress.SerialZones | app/persistence.py:112-116 | serially each counter grows by the readings that name it and the total by those naming a seeded zone |
| WriteProgress.NoLostIncrement | app/persistence.py:112-116 | in every reachable state, mid-transaction ones included, each counter is its start plus the committed readings naming it, a lock holder's pending value is one more, and the total grows exactly |
| WriteProgress.CountsBounded | app/persistence.py:112-116 | however the transactions interleave no counter leaves its 32-bit range |
| WriteProgress.NoDeadlock | app/persistence.py:265-268 | with an unfinished transaction some transaction can step: vehicle rows are locked before zone rows |
| WriteProgress.EveryRunEnds | app/persistence.py:259-278 | no run is longer than twelve steps a transaction, and one that cannot go on has finished them all |
| WriteProgress.OverlapLosesAnomaly | app/persistence.py:261-264 | a run of two overlapping first readings that stores no anomaly where the serial run stores one |
| Faults.ActiveMission | app/persistence.py:133-140 | an active mission of the vehicle, or the certainty that there is none |
| Faults.Fleet.CancelActiveMission | app/persistence.py:134-140 | exactly the one active mission is cancelled, every other mission stays, and its id is returned |
| Faults.Fleet.TransitionToFault | app/persistence.py:389-435 | LookupError, False with nothing changed, or True with the vehicle in fault, its active mission cancelled and one new open record naming the vehicle, the cancelled mission and the reason, unless a record was open; the unique indexes stay true |
| Faults.Fleet.SetVehicleStatus | app/persistence.py:438-454 | the one row is updated, or False if there is none |
| Faults.Fleet.PostVehicleStatus | app/ingestion_api.py:116-147 | fault goes to the transition, anything else to the plain update; 404 iff the vehicle is unknown; `applied` is false iff a fault finds a fault |
| Faults.FaultEffect | app/persistence.py:413-435 | a real transition leaves fault, no active mission and an open record, a new one naming that mission and the reason unless one was open; it cancels that mission only and touches no other vehicle |
| FaultRuns.StepLocks | app/persistence.py:122-131 | locks on vehicle rows are held by exactly the calls between lock and commit |
| FaultRuns.OthersKeep | app/persistence.py:413-435 | what a call has written but not committed survives any step of anyone else |
| FaultRuns.StepIndexes | app/migrations/0007_create_missions.sql:15-16 | every step keeps at most one active mission and one open record per vehicle |
| FaultRuns.StepKeeps | app/persistence.py:389-454 | every step of calls, updates, missions and repairs keeps the whole invariant |
| FaultRuns.StepExplained | app/persistence.py:413-454 | each committed effect changes the vehicles as it says, and a True only ever takes a working vehicle |
| FaultRuns.FaultsAlternate | app/persistence.py:389-454 | over whole runs: at most one active mission and one open record per vehicle, and at most one True more than status updates away from fault |
| FaultOutcome.HolderKeeps | app/persistence.py:413-435 | a call that holds its vehicle keeps its own uncommitted writes, and its reason, from when it made them |
| FaultOutcome.RecordKept | app/persistence.py:142-148 | while a call holds a vehicle no record is added for it, and one stays open iff no action resolves it |
| FaultOutcome.MissionKept | app/persistence.py:133-140 | while a call holds a vehicle a mission of it is active iff it was, or was started since, and no action completes it |
| FaultOutcome.TrueLeavesRecordIff | app/persistence.py:413-435 | in every reachable state, from the lock on: a True leaves an open record unless one was open, left alone until the insert met it, and resolved between that insert and the commit; so it leaves one whenever none was open at the lock |
| FaultOutcome.MissionAfterTrueIff | app/persistence.py:420-435 | a mission is active on the vehicle a True leaves in fault iff the cancel found none and one was started before the commit that no action completed |
| FaultOutcome.RowsOfTrue | app/persistence.py:420-435 | the rows a True commits, over everything the others do from its lock on: fault, the mission active at the cancel and no other, and a record with that mission and the call's reason iff none was open at the insert |
| FaultOutcome.TruesLeaveRecordsIff | app/persistence.py:424-435 | over any run: every True leaves an open record iff none is committed after someone has resolved the record its insert met |
| FaultOutcome.TrueWithoutRecord | app/persistence.py:142-148 | a run in which a call returns True and leaves no open record |
| FaultOnce.StepTables | app/persistence.py:413-435 | a step commits nothing, or exactly what the call by itself would do to the committed tables |
| FaultOnce.TablesRefineSerial | app/persistence.py:389-454 | any interleaving of fault calls and status updates is the serial run in commit order, return values included |
| FaultOnce.ExactlyOnce | app/persistence.py:389-435 | n interleaved calls on a working vehicle, any of which may fail: once one has returned, exactly one has returned True, the rest False; the vehicle is in fault, its one active mission cancelled, and the one new record has that mission and the reason of the call that won |
| FaultOnce.NoDeadlock | app/persistence.py:413-414 | with an unfinished call some call can step: a lock holder never waits |
| FaultOnce.EveryCallEnds | app/persistence.py:412-435 | calls take at most five steps each whatever the other writers do, and stop only when all are finished |
| CommsLoss.SweepExact | app/persistence.py:73-85 | a sweep adds one flag for each silent vehicle and nothing else |
| CommsLoss.SweepOutright | app/persistence.py:73-85 | in every reachable state a sweep adds a flag for a vehicle iff its latest reading was recorded more than 5 s ago and every flag of it is earlier than that reading; each once |
| CommsLoss.Database.DetectCommsLoss | app/persistence.py:457-480 | the sweep adds those flags in whatever order rows are visited and returns how many were added |
| CommsLoss.StoredNotFlags | app/persistence.py:180-237 | ingest-time detection never stores a comms-loss row |
| CommsLoss.FlagsApart | app/persistence.py:73-85 | between two flags of a vehicle a reading arrived, recorded after the first and more than 5 s before the second |
| CommsLoss.FlagRate | app/persistence.py:457-480 | whatever the clock values and the order of recorded times, T seconds hold at most floor(T / 5) + 1 flags of a vehicle |
| CommsLoss.FlaggedOncePerEpisode | app/persistence.py:457-480 | once flagged a vehicle is not flagged again, at any clock value, until a reading newer than the flag |
| CommsLoss.ReadingRearms | app/persistence.py:73-85 | after a reading its vehicle is flagged by a sweep more than 5 s later iff every flag of it in the log is earlier than the reading; no other vehicle's flags change |
| FanOut.ConnectionRegistry.constructor | app/frontend_api.py:73-75 | no members |
| FanOut.ConnectionRegistry.Add | app/frontend_api.py:77-79 | one more member |
| FanOut.ConnectionRegistry.Remove | app/frontend_api.py:81-83 | one member fewer, no error if it has gone |
| FanOut.ConnectionRegistry.Broadcast | app/frontend_api.py:96-107 | uninterrupted: each member is sent the message once, and exactly those whose send raises are dropped |
| FanOut.StepKeeps | app/frontend_api.py:77-107 | every connect, disconnect, send, failure and drop between the awaits keeps the invariant |
| FanOut.GapFree | app/frontend_api.py:77-142 | each connection has received one contiguous part of the stream without repetition, a member that has not failed all of it since it joined; members are added less removed less dropped |
| FanOut.ReceivesFromJoinOn | app/frontend_api.py:77-107 | over any run: a connection receives nothing broadcast before it was added, and from there on the broadcasts one after another, all that are finished as long as it is a member and no send to it failed |
| FanOut.UninterruptedBroadcast | app/frontend_api.py:96-107 | with nothing in between, the machine's broadcast sends each live member the message once and keeps exactly the live members, as the method does |
| FanOut.NothingAfterFailure | app/frontend_api.py:96-107 | after a failed send a connection receives nothing more |
| FanOut.LittleAfterRemoval | app/frontend_api.py:385-386 | after leaving it receives at most the message being broadcast then |
| Queries.AggregateFleetState | app/persistence.py:287-300 | the four status keys, each the number of vehicles in it, zero included; they sum to the number of vehicles |
| Queries.AggregateIsTally | app/persistence.py:118-122 | after any ingest history the aggregate equals a tally kept reading by reading, and the vehicles counted are those of the history |
| LatestAnomaly.LatestPerVehicle | app/persistence.py:103-107 | one row for each vehicle with an anomaly, one of its own, and none newer |
| LatestAnomaly.RangeExact | app/persistence.py:91-98 | the range query answers with the vehicle's rows between both bounds, bounds included, each as often as the table has it, no other row, oldest first |
| LatestAnomaly.LatestEndsRecent | app/persistence.py:91-98 | the latest row is as new as the end of the vehicle's unbounded range query, and in it |
| LatestAnomaly.LiveAgreesIff | web/src/anomalyStore.ts:58-65 | a store that shows arrivals has an anomaly as new as the query's iff the vehicle's last arrival is its newest, as when they arrive in time order |
| LatestAnomaly.TiesMayDiffer | app/persistence.py:103-107 | at equal times query and live store may show different anomalies |
| Migrate.PendingExact | app/migrate.py:45-48 | the scripts run are those in the directory and not yet recorded |
| Migrate.PendingInOrder | app/migrate.py:33-48 | the scripts run in the order of the directory |
| Migrate.Database.SeedZones | app/migrate.py:59-71 | a row at zero for each zone that has none, every other row as it was |
| Migrate.Database.RunMigrations | app/migrate.py:37-56 | succeeds iff no script still to be run raises: exactly those run, in file order, are recorded, and zones are seeded; otherwise the first that raises is named, nothing of the run remains and nothing is seeded |
| Migrate.SeededAt | app/migrate.py:19-23 | seeding never changes an existing count |
| Migrate.EachOnce | app/migrate.py:37-56 | over any runs on a changing directory a script has been executed once if some run with it succeeded, and otherwise not at all |
| Migrate.SeedsKeepCounts | app/migrate.py:19-23 | however often it is re-seeded between entries, a zone's count is its start plus its entries |

## Left out

- JSON text, `float()` and `int()` of a payload field: a number keeps the text it was parsed from, and the ValueError of a text that is no number is not modelled; the watched columns are numeric.
- Unchanged-TOAST values in a payload field that must be text: the round trip excludes them by precondition, as the comment at app/cdc_consumer.py:82-84 does; the decoder functions model the TypeError of serialising one.
- libpq, sockets, `select`, Redis and the clock: outcomes given to the consumer as a script. The feedback frame is reduced to the position it carries three times.
- Creating and dropping the slot and the publication: the slot exists throughout a protocol run, and the supervisor model has only whether ensuring it raised.
- OpenTelemetry spans, metrics and trace carriers, and logging: no effect on the modelled state.
- HTTP routing, validation, CORS, configuration and connection pooling: a reading or status update is taken as validated.
- React rendering, `dataStatus`, the announcement text and the connection badge. State is compared by value, so the stability of untouched rows is equality.
- The connect snapshot envelope on the WebSocket: the dashboard seeds from REST and drops it.
- FanOut.ConnectionRegistry.Broadcast: the method is the uninterrupted broadcast; interleavings between its awaits are the state machine in the same module, tied to it by `UninterruptedBroadcast`.
- Telemetry.Fires: teleport compares squared distances over the reals instead of `hypot` and a division, and detail texts are kept as the numbers they are formatted from.
- Two sweeps, two migration runs or two consumers at once: each is a single process.
- Seeding while readings arrive: `WritePath` takes the zone rows as fixed, and `Migrate` interleaves seeds with whole entries.
- Ids and timestamps the database generates: missions and records are identified by their position in commit order.
- Fault calls and ingests in one machine: they share no table, so each has its own.
- Migrate.Database.RunMigrations: scripts are names that run or raise; what their SQL does is not modelled.
