# KrakenOS agent: verified model

The agent of KrakenOS runs a home network: it maps Wi-Fi coverage, ingests the DNS log, keeps devices blocked, runs
automations, listens to smoke detectors, migrates its own database and issues its own certificates. This project models
in Dafny the parts of it that are algorithms or protocols, and proves what their comments promise.

Each module stands for one file of the agent, or for one idea shared by several:

- **Coverage maps.** `Segments`, `Grid`, `Coverage`, `Propagation`, `Interpolation`: the segment intersection test is
  proved equivalent to sharing a point; the grid loop is proved to end and to fit; the two heatmaps are filled in an
  array, cell by cell, against a specification that fixes every value.
- **Protocols.** `Semaphore` is the state machine behind two limiters; `HeatmapCache` and `Ffmpeg` are the classes that
  implement it; `SerializedAdapter` is the FIFO mutex in front of the single SQLite connection. A step is what runs
  between two awaits; completions and failures come from the environment in any order.
- **Codecs.** `Mdns` (RFC 1035 names with compression, questions, records and TXT data), `MdnsResponse` (the parser of whole
  responses and the crossing of their records), `MdnsWire` (responses laid out with any compression) and `LocalCa` (the
  NameConstraints extension of RFC 5280 section 4.2.1.10 against a reader of ITU-T X.690 sections 8.1.3 and 10.1).
- **Run-level guarantees.** `DnsHistory` (watermark), `Reaffirm` (bounded periodic reaffirmation), `Migrate` (migration
  runner), `Lockout` (exponential backoff), `Automations` (calendar triggers and cooldown), `AutomationRuns` (what a run of the
  service decides and fires), `IotWatcher`, `IotReports` and `LifeSafety` (state differences, what they tell a subscriber,
  and smoke alerts), `Motion` (frame differencing).
- **Shared pieces.** `Options`, `Bytes`, `AsciiText`, `ArraySort` (stable sort), `JsMap` (ordered Map).

Code that updates objects or buffers in place is a class or a method with loops, proved against a specification function;
the promises are then lemmas about that function or about runs of the state machine. Code made of expressions is a function.

Idealisations: floating-point numbers are reals; `hypot`, `log10`, `sqrt`, `pow`, hashing, UTF-8 decoding and lower-casing
are function parameters (of `hypot` and `pow` only signs are assumed, and that `hypot` does not mind the sign of its
arguments in `SignalReciprocal`; of `log10`, in the lemmas that compare losses, what `IsLog10` says; of `sqrt`, in
`CellGrowsAsNeeded`, that it is the root); instants are whole milliseconds and local days have 24 hours.

## What the proofs found

- **A rollback after a commit.** The serialized adapter gives the turn back when `commit` settles, also when it fails. A
  `rollback` asked for afterwards on the same transaction reaches the connection without a turn, inside whatever block is
  then open (`LateRollbackIntrudes`). Blocks are contiguous exactly when that does not happen (`BlocksIffNoIntrusion`).
- **SQL that ends the transaction.** When a migration closes the runner's transaction itself, it is reported as failed but
  its changes stay, without a history row (`ClosingSqlLeaks`). A failed run leaves exactly the applied prefix if and only
  if the failing SQL did not commit, or write outside a transaction, leaving other tables than it found
  (`FailureUndoneIff`). Otherwise calling again ends as one uninterrupted call would (`StartingOverEndsAlike`). When it was
  the first migration of a new database that left tables behind, every later call is refused with `DB_NOT_EMPTY`
  (`RetryRefusedIff`).
- **Own CRLF sequences in a migration.** LF normalisation is not idempotent on a CR followed by CRLF. The LF and CRLF checkouts
  of a text accept the same checksums exactly when the text has no CRLF of its own (`CheckoutsAgree`).
- **Locks longer than the memory of them.** A lock is reported for its whole length exactly when it is at most one millisecond
  longer than the inactivity limit (`LockHoldsIff`); every instance of the agent is configured inside that bound
  (`AgentLocksHold`). With those limits no strategy, waiting to be forgotten included, gets more than eight guesses an hour in
  the long run (`NoStrategyIsFaster`).
- **Long gaps between ticks.** A calendar trigger looks at the dates of the two ends of the window only, so a gap of more than
  24 hours can skip an instant (`LongerGapsSkip`); `DueIffScheduledOnEndDates` says exactly which windows are due.
- **Overlapping decisions.** The service decides which rules are due, fires the first at once and the others one by one, each
  after the actions of the one before. An event handled in between may decide upon a rule that is still waiting, which then
  fires twice within its cooldown, and the late firing sets its record back (`OverlapBreaksCooldown`). No course of the actions
  breaks the cooldown if and only if every decision meets a guard on what is waiting (`CooldownHoldsIff`): with a clock that does
  not go back, that no firing of a rule decided upon still waits (`GuardMeansNoneWaits`). A rule that is always the first due is
  never exposed (`FirstIsNeverExposed`).
- **Failing routers.** MACs that keep failing starve the others if and only if there are at least as many as the cap
  (`SurelyPickedIff`): five with the constants of the service (`ServiceSurelyPicksIff`). With fewer, every overdue MAC is reached
  within a bound (`PickedInTime`), which is tight (`BoundIsTight`).
- **Readings told twice.** A device that does not answer is listed without switch or readings. When it is back as it was, all its
  readings are published again as new (`UnreachableTellsAgain`). Events tell only news exactly when no metric returns with
  the value it last had and no switch changes back after changing unseen (`NothingIsToldTwiceIff`).
- **Two readings of one metric.** The watcher compares each of them with the last of the report before. When they differ, the
  device publishes at every poll with nothing changing (`UnchangedIsSilentIff`).
- **Switches that come and go.** A switch that changes while it is reported as null loses that transition;
  `SwitchIsKnownIff` says exactly when a subscriber knows its position.
- **Smoke at first sight.** The comment of `decideAvisoVital` counts on an alert for a detector that has just been connected and
  already reports smoke. The first report of a device publishes nothing, so of an active detector no rise was ever told exactly
  when it has been active in every report since it was first seen (`NeverToldIffActiveSinceFirstSeen`).
- **Repetitions in the DNS log.** The comment of `firmaDeConsulta` says that of two identical queries of one instant the second is
  dropped. In one answer both are written (`TwinsAreWritten`); every key is written once exactly when no batch takes two
  queries with the same key (`WrittenOnceIff`).
- **Long mDNS labels.** Labels of up to 191 bytes round-trip, more than the 63 of RFC 1035, and no longer one does: its length
  octet reads as a pointer or as another length (`LabelsReadBackIff`, `NameRoundTripIff`).
- **A TXT key that is not stored.** The table is a plain object, so an announced `__proto__` is lost (`TxtRoundTrip`).

## Model

| member | source | states |
|---|---|---|
| Segments.IntersectIffSharePoint | apps/agent/src/coverage/propagation.ts:96-155 | the orientation test is true exactly when the two closed segments have a point in common, degenerate cases included |
| Segments.IntersectSymmetric | apps/agent/src/coverage/propagation.ts:96-121 | swapping the segments or the ends of either one changes nothing |
| Segments.WallLossAlong | apps/agent/src/coverage/propagation.ts:161-176 | the loop returns the summed attenuation of exactly the crossed walls |
| Segments.WallLossSymmetric | apps/agent/src/coverage/propagation.ts:161-176 | the loss is the same from access point to point and back |
| Propagation.OneMoreWall | apps/agent/src/coverage/propagation.ts:161-197 | a wall more costs its attenuation if it meets the ray from access point to point, and nothing if not |
| Propagation.FreeSpaceLoss | apps/agent/src/coverage/propagation.ts:56-80 | with exponent 2 the loss is the free-space law 20 log10(d * f) - 27.55 of the distance in metres and the frequency in MHz |
| Propagation.TenTimesFarther | apps/agent/src/coverage/propagation.ts:72-80 | ten times the distance costs 10 times the exponent |
| Propagation.FartherLosesMore | apps/agent/src/coverage/propagation.ts:72-80 | the loss never gets less with distance |
| Propagation.NoLessThanAtMinimum | apps/agent/src/coverage/propagation.ts:72-80 | below the minimum distance the loss is that at the minimum |
| Propagation.HigherBandsLoseMore | apps/agent/src/coverage/propagation.ts:47-85 | a higher band loses more in the air and in every wall |
| Propagation.SignalInTheOpen | apps/agent/src/coverage/propagation.ts:182-197 | without walls signal and loss at the default exponent and minimum distance add up to the transmit power |
| Grid.ResolveGrid | apps/agent/src/coverage/grid.ts:33-56 | the loop that enlarges the cell ends for all inputs and gives the specified grid with at least one cell |
| Grid.GridUnderCap | apps/agent/src/coverage/grid.ts:41-53 | the grid has at least one cell and never more than 250000 |
| Grid.GridCoversPlan | apps/agent/src/coverage/grid.ts:33-56 | the cells reach the far edges of the plan in both directions |
| Grid.CellsCoverTightly | apps/agent/src/coverage/grid.ts:38-39 | the number of cells along a side is enough, and one less is not |
| Grid.RequestKeptIffItFits | apps/agent/src/coverage/grid.ts:33-56 | a positive requested size never shrinks, and is kept exactly when it fits under the cap |
| Grid.CellGrowsAsNeeded | apps/agent/src/coverage/grid.ts:33-56 | the cell grows at most 5 % beyond any size, not below the request, whose grid fits under the cap |
| Coverage.CenterIsMiddle | apps/agent/src/coverage/propagation.ts:254-256 | the point a cell is computed at is its middle in both directions |
| Propagation.BestRssi | apps/agent/src/coverage/propagation.ts:258-262 | the inner loop finds the strongest signal, or none without access points |
| Propagation.DbmAccum.Include | apps/agent/src/coverage/propagation.ts:265-271 | the running bounds stay the extremes of the non-null cells seen |
| Propagation.FillPredictedRow | apps/agent/src/coverage/propagation.ts:247-273 | one row is filled with the promised values, earlier rows untouched, bounds up to date |
| Propagation.ComputePredictedHeatmap | apps/agent/src/coverage/propagation.ts:313-326 | every cell has the strongest signal of the enabled access points of the band, or null under the floor; the bounds are exact |
| Propagation.ComputePredictedHeatmapAsync | apps/agent/src/coverage/propagation.ts:334-348 | the variant that yields meets the same specification, and how often it yields |
| Propagation.CellUnique | apps/agent/src/coverage/propagation.ts:258-272 | the pointwise promise leaves one value per cell |
| Propagation.PredictedMapUnique | apps/agent/src/coverage/propagation.ts:313-348 | the specification fixes the whole map, so both variants return the same |
| Propagation.SignalReciprocal | apps/agent/src/coverage/propagation.ts:182-197 | exchanging access point and point leaves the signal as it is |
| Interpolation.IdwEstimate | apps/agent/src/coverage/interpolation.ts:42-69 | the loop returns the first coincident sample, nothing out of the radius, or the weighted mean |
| Interpolation.NullIffNothingNear | apps/agent/src/coverage/interpolation.ts:42-69 | null exactly when no sample coincides and none is within the radius |
| Interpolation.EstimateWithinSamples | apps/agent/src/coverage/interpolation.ts:42-69 | the estimate is a convex combination: it stays in any range holding the samples |
| Interpolation.WeightIsInverse | apps/agent/src/coverage/interpolation.ts:42-69 | the weight of a sample is the inverse of the power of its distance |
| Interpolation.TwoSamples | apps/agent/src/coverage/interpolation.ts:42-69 | between two samples the estimate lies as the powers of their distances divide it |
| Interpolation.MeasuredBounds | apps/agent/src/coverage/interpolation.ts:127-136 | the bounds are the extremes of the samples, or the fixed range without samples |
| Interpolation.ComputeMeasuredHeatmap | apps/agent/src/coverage/interpolation.ts:160-171 | grid, every cell in row-major order, and bounds as promised |
| Interpolation.ComputeMeasuredHeatmapAsync | apps/agent/src/coverage/interpolation.ts:178-190 | the variant that yields meets the same specification |
| Interpolation.CellsWithinBounds | apps/agent/src/coverage/interpolation.ts:117-171 | every non-null cell lies between the bounds returned with the map |
| Interpolation.MeasuredMapUnique | apps/agent/src/coverage/interpolation.ts:160-190 | the specification fixes the whole map |
| Semaphore.StepKeepsInv | apps/agent/src/coverage/heatmap-cache.ts:76-92 | each arrival and release keeps the slot invariant, and a release with a queue never frees the slot |
| Semaphore.EveryRun | apps/agent/src/coverage/heatmap-cache.ts:67-92 | in every run: never more holders than slots, no waiter while a slot is free, grants in order of arrival |
| Semaphore.HoldersAre | apps/agent/src/coverage/heatmap-cache.ts:76-92 | in every run the calls granted a slot and those that wait are the arrivals of the run in their order, and a call holds a slot exactly when it was granted one and has not finished |
| Semaphore.QueueDrainsInOrder | apps/agent/src/coverage/heatmap-cache.ts:85-92 | k releases grant exactly the first k waiters, in order |
| Semaphore.GrantedAtItsTurn | apps/agent/src/cameras/ffmpeg.ts:211-227 | the waiter at position p is granted at release p + 1 and not before |
| Ffmpeg.FfmpegSlots.Acquire | apps/agent/src/cameras/ffmpeg.ts:211-218 | the counter and the queue follow the slot protocol |
| Ffmpeg.FfmpegSlots.Release | apps/agent/src/cameras/ffmpeg.ts:220-227 | a release follows the protocol, and the clamp never changes the count |
| HeatmapCache.RecencyMeans | apps/agent/src/coverage/heatmap-cache.ts:94-101 | the list of recency holds the most recent distinct keys of a list of uses, by last use |
| HeatmapCache.TouchesAreUses | apps/agent/src/coverage/heatmap-cache.ts:42-101 | in every run the recorded uses are those the events tell: a call for a key that is cached, and the storing of a value |
| HeatmapCache.HitMovesToEnd | apps/agent/src/coverage/heatmap-cache.ts:42-49 | a hit moves the key to the end of the map and changes nothing else |
| HeatmapCache.MissKeepsMap | apps/agent/src/coverage/heatmap-cache.ts:51-63 | a miss leaves the map as it is and starts a computation exactly when none for the key is unfinished |
| HeatmapCache.CallHitsIff | apps/agent/src/coverage/heatmap-cache.ts:42-101 | a call hits exactly when its key is among the last maxEntries distinct keys used in the run |
| HeatmapCache.GetKeepsInv | apps/agent/src/coverage/heatmap-cache.ts:42-65 | a call keeps cache, computations in flight and slots consistent |
| HeatmapCache.StoreKeepsInv | apps/agent/src/coverage/heatmap-cache.ts:94-101 | storing keeps the map ordered by use and evicts the least recently used |
| HeatmapCache.ForgetKeepsInv | apps/agent/src/coverage/heatmap-cache.ts:54-61 | the end of a computation, failed or not, leaves no entry in flight |
| HeatmapCache.AnswerIsForKey | apps/agent/src/coverage/heatmap-cache.ts:42-65 | the answer is a value computed for the key asked, or its one unfinished computation |
| HeatmapCache.EveryInterleaving | apps/agent/src/coverage/heatmap-cache.ts:42-101 | the invariant holds after every interleaving, and outcomes never change |
| HeatmapCache.ReachableStates | apps/agent/src/coverage/heatmap-cache.ts:42-101 | from an empty cache: one computation per key, limits kept, and the keys of the map are the last used, in the order of the uses told by the events |
| HeatmapCache.PromiseIsForKey | apps/agent/src/coverage/heatmap-cache.ts:42-65 | a promise handed out stays that of a computation for the caller's key |
| HeatmapCache.SlotsFollowProtocol | apps/agent/src/coverage/heatmap-cache.ts:67-92 | every run of the cache drives its semaphore by the slot protocol |
| HeatmapCache.ComputationStartsAtItsTurn | apps/agent/src/coverage/heatmap-cache.ts:67-92 | the computation at position p starts at settlement p + 1 and not before |
| HeatmapCache.HeatmapCache.GetCall | apps/agent/src/coverage/heatmap-cache.ts:42-65 | the method follows the step of the state machine, of which `HitMovesToEnd` and `MissKeepsMap` tell the effect |
| HeatmapCache.HeatmapCache.Settle | apps/agent/src/coverage/heatmap-cache.ts:67-92 | settling releases the slot as the state machine does |
| HeatmapCache.HeatmapCache.Store | apps/agent/src/coverage/heatmap-cache.ts:94-101 | storing refreshes the order and drops the oldest beyond the maximum |
| SerializedAdapter.StepKeepsInv | apps/agent/src/db/serialized-adapter.ts:30-95 | every step keeps turns, releases and the order of the log consistent |
| SerializedAdapter.ReleasedExactlyOnce | apps/agent/src/db/serialized-adapter.ts:44-51 | on every schedule a turn has been released once if its query, its failing BEGIN or an end of its transaction has settled, and never otherwise |
| SerializedAdapter.MayProceedIff | apps/agent/src/db/serialized-adapter.ts:34-92 | a turn asked for may proceed exactly when it has not and of each earlier one the query, the failing BEGIN or an end has settled |
| SerializedAdapter.UsableIff | apps/agent/src/db/serialized-adapter.ts:76-92 | a caller can use a transaction exactly when its BEGIN has succeeded, whatever came since |
| SerializedAdapter.LogIsSent | apps/agent/src/db/serialized-adapter.ts:65-95 | the connection receives the operations that the events send, in their order and under the turn of their callers |
| SerializedAdapter.IntrudedIffUsedLate | apps/agent/src/db/serialized-adapter.ts:83-92 | the state records an intrusion exactly when some transaction is used after it has ended and an operation of another turn has come since |
| SerializedAdapter.BlocksIffNoIntrusion | apps/agent/src/db/serialized-adapter.ts:65-95 | operations form blocks in order of arrival exactly when no transaction is used after it has ended and an operation of another turn has come since |
| SerializedAdapter.TransactionsAreAlone | apps/agent/src/db/serialized-adapter.ts:73-92 | with clients that drop ended transactions nothing of another caller lies inside a transaction |
| SerializedAdapter.LateRollbackIntrudes | apps/agent/src/db/serialized-adapter.ts:83-92 | a schedule where a rollback after a commit lands in another's block |
| SerializedAdapter.ResolvedIffGranted | apps/agent/src/db/serialized-adapter.ts:34-42 | the promise a turn waits for has resolved exactly when every earlier turn has given way |
| SerializedAdapter.Mutex.Acquire | apps/agent/src/db/serialized-adapter.ts:34-42 | the caller waits for the promise that was the tail, and its own promise becomes part of the new tail |
| SerializedAdapter.Mutex.Release | apps/agent/src/db/serialized-adapter.ts:44-51 | releasing resolves that turn only |
| SerializedAdapter.Adapter.Ask | apps/agent/src/db/serialized-adapter.ts:68-74 | a query or a transaction asks for its turn as the transition system does |
| SerializedAdapter.Adapter.Proceed | apps/agent/src/db/serialized-adapter.ts:44-77 | a call goes on exactly when it may, that is when the promise it waits for has resolved |
| SerializedAdapter.Adapter.QuerySettles | apps/agent/src/db/serialized-adapter.ts:46-50 | the turn of a query is given back however it ends |
| SerializedAdapter.Adapter.BeginSettles | apps/agent/src/db/serialized-adapter.ts:76-81 | a failing BEGIN gives the turn back, a successful one keeps it |
| SerializedAdapter.Adapter.Use | apps/agent/src/db/serialized-adapter.ts:89-92 | the transaction object forwards everything, ended or not |
| SerializedAdapter.Adapter.EndSettles | apps/agent/src/db/serialized-adapter.ts:82-92 | the first commit or rollback that settles gives the turn back, and no later one |
| Mdns.EncodeMdnsQuery | apps/agent/src/discovery/dns.ts:42-52 | the query is the header and one question per service, and fails above 65535 of them |
| Mdns.ReadName | apps/agent/src/discovery/dns.ts:55-79 | the loop ends on every buffer, pointer cycles included, reads nothing outside, and ends past its start and inside the buffer |
| Mdns.PointerReadBack | apps/agent/src/discovery/dns.ts:67-71 | a pointer is read back from its two octets as section 4.1.4 of RFC 1035 lays them out, for every offset of 14 bits |
| Mdns.NameEndsInside | apps/agent/src/discovery/dns.ts:55-79 | a name read ends strictly after its start and at most at the end |
| Mdns.PointerCycleRefused | apps/agent/src/discovery/dns.ts:67-73 | every cycle of pointers and labels is refused, wherever it is entered |
| Mdns.ReadCompressed | apps/agent/src/discovery/dns.ts:55-79 | labels followed by the two octets of a pointer are read as those labels and the name at the target, and end after the pointer |
| Mdns.LabelsReadBackIff | apps/agent/src/discovery/dns.ts:26-79 | labels written without compression are read back if and only if each takes 1 to 191 bytes |
| Mdns.NameRoundTripIff | apps/agent/src/discovery/dns.ts:26-79 | an ASCII name is read back, without its empty parts, if and only if its parts are at most 191 bytes long |
| Mdns.SkipQuestions | apps/agent/src/discovery/dns.ts:108-112 | the loop ends where the questions end, or fails with the first bad name |
| Mdns.QueryRoundTrip | apps/agent/src/discovery/dns.ts:42-112 | the header and each question (type PTR, class IN with the QU bit) recover every list of up to 65535 services, the very names when they have no empty part, and the skip ends at the end of the buffer |
| Mdns.RecordsInside | apps/agent/src/discovery/dns.ts:119-127 | on any bytes, records lie inside the buffer and do not overlap |
| Mdns.RecordsRoundTrip | apps/agent/src/discovery/dns.ts:119-144 | records laid out by the standard are cut out one by one with their data |
| Mdns.ParseTxt | apps/agent/src/discovery/dns.ts:81-92 | the loop returns the specified table for any data |
| Mdns.TxtRoundTrip | apps/agent/src/discovery/dns.ts:81-92 | announced pairs are read back, later ones over earlier ones with the same key, and __proto__ is lost |
| Mdns.AnnouncedMeans | apps/agent/src/discovery/dns.ts:81-92 | the table has the last value announced for each key, and none for __proto__ |
| Mdns.ShortEntryIsTaken | apps/agent/src/discovery/dns.ts:84-89 | an entry cut short by the end of the data is taken as far as it goes |
| Mdns.OtherEntriesSayNothing | apps/agent/src/discovery/dns.ts:88-89 | an entry without an equals sign, or that begins with it, changes nothing |
| MdnsResponse.ParseMdnsResponse | apps/agent/src/discovery/dns.ts:99-163 | the whole parser, with its loops, returns the specified instances, and none when anything throws |
| MdnsResponse.ReadTables | apps/agent/src/discovery/dns.ts:119-144 | the loop over the records fills the tables, stopping at a record that does not fit and failing with a bad name |
| MdnsResponse.CrossTables | apps/agent/src/discovery/dns.ts:146-159 | the two nested loops list the instances service by service |
| MdnsResponse.CrossingIsTheReference | apps/agent/src/discovery/dns.ts:114-159 | the tables hold what the records tell: services by first appearance, their instances in order, the last record on each subject, and the first host as a fallback |
| MdnsResponse.FactReadBack | apps/agent/src/discovery/dns.ts:121-142 | each announced record is understood as what was announced in it |
| MdnsResponse.ResponseRoundTrip | apps/agent/src/discovery/dns.ts:99-163 | parsing a response of any questions and records gives what its records tell about each instance |
| MdnsResponse.AnnouncedIffFound | apps/agent/src/discovery/dns.ts:146-159 | wherever its records stand, an instance is found with its address, port and text if and only if it is announced |
| MdnsWire.WireReadIff | apps/agent/src/discovery/dns.ts:55-79 | a name laid out with any compression, its pointers written as two octets, is read as written if and only if it takes at most 32 pointers |
| MdnsWire.AnyResponseIsUnderstood | apps/agent/src/discovery/dns.ts:99-163 | any buffer that holds a response, its names compressed in any way, gives what its records tell: all of them, those before a record cut short, or nothing when a name is bad |
| DnsHistory.SeleccionarNuevas | apps/agent/src/dns/history.ts:53-87 | the loop with its early exit returns the specified selection, for any cap |
| DnsHistory.SelectionFacts | apps/agent/src/dns/history.ts:58-73 | the batch is unseen, in order, within the cap, and nothing unseen and earlier is left out |
| DnsHistory.SelectionFills | apps/agent/src/dns/history.ts:53-74 | the batch takes all that is unseen, or as much as the cap allows |
| DnsHistory.WithInstantMeans | apps/agent/src/dns/history.ts:58-60 | exactly the queries whose timestamp is an instant take part |
| DnsHistory.FirmaTellsApart | apps/agent/src/dns/history.ts:35-37 | for clients without a bar, equal signatures mean equal client, domain and verdict |
| DnsHistory.SelectKeepsTrack | apps/agent/src/dns/history.ts:63-86 | nothing ingested before comes again; the mark holds exactly the signatures ingested at its instant and never goes back |
| DnsHistory.NoKeyTwice | apps/agent/src/modules/dns/dns-history.service.ts:62-90 | over any polls, caps and failed writes no key is written by two polls |
| DnsHistory.PollShrinks | apps/agent/src/dns/history.ts:65-78 | a poll that finds something leaves strictly less to find |
| DnsHistory.CappedIsOneShot | apps/agent/src/dns/history.ts:53-87 | with any caps and failed writes a log is complete once as many batches were written as it has entries, with the same keys as one poll without a cap |
| DnsHistory.BatchRows | apps/agent/src/dns/history.ts:58-78 | a batch has as many rows of an unseen key as the answer has queries with it, and only the cap leaves out some |
| DnsHistory.WrittenByOneBatch | apps/agent/src/modules/dns/dns-history.service.ts:62-90 | the rows that a run writes with a key are those of the one batch that takes it |
| DnsHistory.WrittenOnceIff | apps/agent/src/modules/dns/dns-history.service.ts:62-90 | a run writes every key at most once if and only if no batch takes two queries with the same key |
| DnsHistory.AnswerRepeatsIff | apps/agent/src/modules/dns/dns-history.service.ts:62-90 | a batch that takes all that is unseen is free of repetitions exactly when the answer has none among what is unseen |
| DnsHistory.TwinsAreWritten | apps/agent/src/dns/history.ts:29-37 | two identical queries in one answer are both written, unless the cap falls between them |
| ArraySort.SortSorts | apps/agent/src/dns/history.ts:58-61 | the sort orders by the comparison |
| ArraySort.SortStable | apps/agent/src/dns/history.ts:58-61 | elements that compare equal keep their order |
| Reaffirm.PlanIsSound | apps/agent/src/access/reaffirm.ts:42-65 | the plan has no repeats, fits the cap, takes overdue desired MACs oldest first, leaves out none older, and forgets the others |
| Reaffirm.PlanByMarks | apps/agent/src/access/reaffirm.ts:42-65 | picked are desired MACs without a mark or with one an interval old, none with a later mark than one left out, and all of them if the cap is not met |
| Reaffirm.PicksAreSpaced | apps/agent/src/modules/access/access.service.ts:404-426 | a MAC that stays desired is picked again no sooner than an interval after its last success |
| Reaffirm.WaitOneSweep | apps/agent/src/access/reaffirm.ts:54-64 | a sweep that leaves a MAC waiting takes a full cap from ahead of it |
| Reaffirm.ReleasedIsOverdueAgain | apps/agent/src/access/reaffirm.ts:59-62 | a MAC released and blocked again does not inherit an old mark |
| Reaffirm.OnlySuccessMarks | apps/agent/src/modules/access/access.service.ts:412-425 | a mark moves only when the router answered |
| Reaffirm.PickedInTime | apps/agent/src/modules/access/access.service.ts:404-426 | an overdue MAC is picked within ceil(N / (cap - failing)) sweeps, in any order of the desired set |
| Reaffirm.FailuresStarve | apps/agent/src/modules/access/access.service.ts:404-426 | for any cap, while as many unmarked MACs fail at every sweep a marked one is in no plan |
| Reaffirm.SurelyPickedIff | apps/agent/src/modules/access/access.service.ts:404-426 | some number of sweeps picks an overdue MAC whatever else happens if and only if fewer MACs fail than the cap |
| Reaffirm.ServiceSurelyPicksIff | apps/agent/src/access/reaffirm.ts:22-48 | with the interval and the cap of the service, if and only if at most four fail |
| Reaffirm.BoundIsTight | apps/agent/src/modules/access/access.service.ts:404-426 | without failures ceil(N / cap) sweeps are enough and one fewer is not |
| Migrate.CrlfRoundTrip | apps/agent/src/db/migrate.ts:78-92 | converting any text to CRLF and back gives it again |
| Migrate.NormalizeShortens | apps/agent/src/db/migrate.ts:78-80 | normalising changes a text exactly when it has a CRLF |
| Migrate.CheckoutsAgree | apps/agent/src/db/migrate.ts:89-92 | both checkouts accept the same checksums exactly when the text has no CRLF of its own |
| Migrate.ChecksumIgnoresCheckout | apps/agent/src/db/migrate.ts:78-87 | the checksum of a file is that of its LF text in either checkout |
| Migrate.PlannedIff | apps/agent/src/db/migrate.ts:124-158 | a plan is made exactly when all live rows are finished and match their files |
| Migrate.PlanMadeIff | apps/agent/src/db/migrate.ts:120-162 | a plan is made if and only if each live row is finished and some file of its name accepts its checksum |
| Migrate.PlanIsTheUndone | apps/agent/src/db/migrate.ts:160-161 | the plan lists, in the order of the disk, exactly the files without a live row of their name |
| Migrate.RefusalIsTrue | apps/agent/src/db/migrate.ts:126-158 | each refusal names a live row that justifies it, unfinished rows first |
| Migrate.NewViolations | apps/agent/src/db/migrate.ts:197-211 | the loop over the budget returns the specified surplus |
| Migrate.SurplusIsDifference | apps/agent/src/db/migrate.ts:197-211 | the surplus is the multiset difference by table and parent |
| Migrate.NoSurplusIffNotMore | apps/agent/src/db/migrate.ts:197-211 | it is empty exactly when no pair has more violations than before |
| Migrate.KeysTellPairsApart | apps/agent/src/db/migrate.ts:201-201 | the joined key identifies the pair |
| Migrate.Database.ApplyOne | apps/agent/src/db/migrate.ts:348-397 | one migration in its transaction: all outcomes, whose conditions `WorksIff` and `FailureCodes` give, none left open, foreign keys on again |
| Migrate.Database.MigrateDatabase | apps/agent/src/db/migrate.ts:403-458 | the whole call, with every refusal and the loop over the pending migrations |
| Migrate.WorksIff | apps/agent/src/db/migrate.ts:348-397 | a migration succeeds if and only if no statement of the runner failed, its SQL did not throw and left the transaction open, and no pair of table and parent has more violations |
| Migrate.FailureCodes | apps/agent/src/db/migrate.ts:348-397 | which failure gives which error, and that no failure adds a history row |
| Migrate.AppliesWhileTheySucceed | apps/agent/src/db/migrate.ts:446-453 | a run applies the pending migrations up to the first that does not succeed on the tables it finds |
| Migrate.MigratesIff | apps/agent/src/db/migrate.ts:403-458 | the call returns Ok if and only if there are migrations, the database is not foreign, a plan is made, the copy is made when needed, and every pending migration succeeds; then it leaves them all applied |
| Migrate.RefusalTouchesNothing | apps/agent/src/db/migrate.ts:408-442 | a refusal before the first migration leaves the database as it was |
| Migrate.RunAppliesPrefix | apps/agent/src/db/migrate.ts:446-453 | a run leaves a prefix applied, one history row for each, and what the failing migration left |
| Migrate.LeavesChangesIff | apps/agent/src/db/migrate.ts:348-397 | what a rollback gives back differs from the start exactly when something was made durable and the tables were other by the last time |
| Migrate.FailureUndoneIff | apps/agent/src/db/migrate.ts:384-393 | a failed run leaves exactly the prefix if and only if the failing SQL did not commit, or write outside a transaction, leaving other tables than it found |
| Migrate.ExactlyAPrefix | apps/agent/src/db/migrate.ts:348-397 | with SQL that stays inside its transaction every run leaves exactly a prefix |
| Migrate.NoViolationsAdded | apps/agent/src/db/migrate.ts:354-376 | no pair of table and parent ends a run with more violations |
| Migrate.ClosingSqlLeaks | apps/agent/src/db/migrate.ts:357-364 | SQL that commits by itself leaves its changes without a history row |
| Migrate.NextPlanIsTheRest | apps/agent/src/db/migrate.ts:120-162 | after any run the next plan is the part not applied, empty after success |
| Migrate.MigratingAgainDoesNothing | apps/agent/src/db/migrate.ts:399-458 | a run after a success does nothing, even across LF and CRLF checkouts |
| Migrate.StartingOverEndsAlike | apps/agent/src/db/migrate.ts:403-458 | after a failure that leaves nothing behind, calling again ends as one uninterrupted call does, in success or in another failure |
| Migrate.RetryRefusedIff | apps/agent/src/db/migrate.ts:418-426 | the retry is refused for a database without a history exactly when the very first migration failed and left tables |
| Lockout.AttemptLockout.RetryAfterSec | apps/agent/src/auth/attempt-lockout.ts:66-75 | the wait, and the purge of a forgotten entry |
| Lockout.AttemptLockout.RecordFailure | apps/agent/src/auth/attempt-lockout.ts:77-85 | the new entry and the lock it applies |
| Lockout.MoreFailuresLockLonger | apps/agent/src/auth/attempt-lockout.ts:57-61 | locks never get shorter with more failures, nor longer than the cap |
| Lockout.LockDoubles | apps/agent/src/auth/attempt-lockout.ts:57-61 | no lock below the threshold, the base at it, and twice the last one from then on up to the cap |
| Lockout.AnsweredByStreak | apps/agent/src/auth/attempt-lockout.ts:63-90 | after any events the wait reported is the rest of the lock of the current streak of failures told by the events |
| Lockout.FailureLocksUntilItElapses | apps/agent/src/auth/attempt-lockout.ts:66-85 | the wait reported covers the rest of the lock whatever failures come meanwhile |
| Lockout.LockHoldsIff | apps/agent/src/auth/attempt-lockout.ts:66-75 | a lock is reported exactly for its length if and only if it is at most one millisecond over the inactivity limit |
| Lockout.AgentLocksHold | apps/agent/src/auth/login-lockout.ts:23-42 | with the limits configured for logins and for the alarm PIN every lock is reported exactly until it elapses |
| Lockout.GuessingTakesTime | apps/agent/src/auth/attempt-lockout.ts:57-89 | n failures made only when told not to wait span at least the sum of the locks |
| Lockout.LocksBelowTheCap | apps/agent/src/auth/attempt-lockout.ts:57-61 | below the cap that sum is base * (2^(n - threshold) - 1) |
| Lockout.AnyStrategyCosts | apps/agent/src/auth/attempt-lockout.ts:57-89 | whatever the strategy, n failures divide into streaks and span at least the locks inside them and the inactivity limit between them |
| Lockout.NoStrategyIsFaster | apps/agent/src/auth/login-lockout.ts:23-42 | with the configured limits n failures take at least n times 450 s, less the inactivity limit |
| Automations.DueIffScheduledOnEndDates | apps/agent/src/automations/engine.ts:108-127 | for any window, due exactly when a scheduled instant inside falls on the date of an end |
| Automations.DueIffScheduledInside | apps/agent/src/automations/engine.ts:115-127 | for windows of at most 24 hours, due exactly when a scheduled instant falls inside |
| Automations.LongerGapsSkip | apps/agent/src/automations/engine.ts:115-127 | one millisecond more can skip an instant |
| Automations.EveryInstantIsReportedOnce | apps/agent/src/modules/automations/automations.service.ts:216-228 | over any list of ticks as many windows are due as there are scheduled instants |
| Automations.TheTickOf | apps/agent/src/modules/automations/automations.service.ts:216-228 | each instant is reported by the one tick whose window holds it |
| AutomationRuns.PrevTickIsTheLast | apps/agent/src/modules/automations/automations.service.ts:216-223 | over any run the window of a tick begins at the tick before, and there is none before the first |
| AutomationRuns.EveryDecisionFires | apps/agent/src/modules/automations/automations.service.ts:186-228 | over any run every rule decided upon has fired or still waits, as many times as it was decided upon |
| AutomationRuns.CalendarRulesFire | apps/agent/src/modules/automations/automations.service.ts:216-228 | over any run with ticks at most 24 hours apart, an enabled rule for a time of day, without condition or cooldown, has fired, or waits to, as many times as an instant of it lies between the first tick and the last |
| AutomationRuns.DueInOrder | apps/agent/src/automations/engine.ts:180-195 | the rules due for an event come in the order of the list |
| AutomationRuns.ScheduledInOrder | apps/agent/src/automations/engine.ts:198-212 | the calendar rules due come in the order of the list |
| Automations.WindowGoesRoundTheClock | apps/agent/src/automations/engine.ts:91-100 | the window is an arc of the clock, across midnight too, and its complement is the reversed window |
| Automations.ConditionMeans | apps/agent/src/automations/engine.ts:91-100 | the condition allows the day of the week and the time of day on its arc |
| Automations.DueForEvent | apps/agent/src/automations/engine.ts:180-195 | exactly the rules of the bus that match, pass and are cooled down; never calendar ones nor by their own events |
| Automations.DueScheduled | apps/agent/src/automations/engine.ts:198-212 | exactly the calendar rules that are due, pass and are cooled down |
| Automations.FiringsRespectCooldown | apps/agent/src/modules/automations/automations.service.ts:186-240 | the firings of a rule are a cooldown apart in every run that decides upon no rule while a firing of it waits |
| Automations.SafeIffAlwaysSpaced | apps/agent/src/modules/automations/automations.service.ts:186-240 | the condition on the waiting firings is exact: without it some course of the actions breaks the cooldown |
| Automations.CooldownHoldsIff | apps/agent/src/modules/automations/automations.service.ts:186-240 | over any events and ticks, no course of the actions breaks the cooldown of a rule if and only if every decision met the guard on what waits |
| Automations.GuardMeansNoneWaits | apps/agent/src/modules/automations/automations.service.ts:186-240 | with a clock that does not go back the guard is that no firing of a rule decided upon still waits |
| Automations.FirstIsNeverExposed | apps/agent/src/modules/automations/automations.service.ts:186-236 | a rule that is the first of every due list keeps its cooldown in any run |
| Automations.OverlapBreaksCooldown | apps/agent/src/modules/automations/automations.service.ts:186-236 | two rules and the same event twice: the second rule fires twice within its cooldown, and its record goes back to the older instant |
| IotWatcher.ObserveTransitions | apps/agent/src/automations/iot-watcher.ts:7-32 | the loop returns the specified transitions |
| IotWatcher.IotWatcher.Tick | apps/agent/src/automations/iot-watcher.ts:90-112 | a poll updates the baseline, keeping missing devices, and publishes the transitions in order |
| IotWatcher.IotWatcher.ApplyKnownState | apps/agent/src/automations/iot-watcher.ts:120-125 | an applied state updates the baseline and returns its transitions |
| IotWatcher.EventsAreTheChanges | apps/agent/src/automations/iot-watcher.ts:90-125 | over any run, the events about a device are the changes from each of its reports to the next, and its baseline is its last report |
| IotWatcher.PublishedAre | apps/agent/src/automations/iot-watcher.ts:90-125 | the same with the reports taken from the polls and states of the run |
| IotReports.ChangesAreFollowed | apps/agent/src/automations/iot-watcher.ts:7-32 | what one set of transitions tells a subscriber, and exactly when all of it is new |
| IotReports.ViewMeans | apps/agent/src/automations/iot-watcher.ts:7-32 | a subscriber knows the last value reported of each metric, and the switch as it was last told |
| IotReports.NothingIsToldTwiceIff | apps/agent/src/automations/iot-watcher.ts:7-32 | every event is news if and only if no metric returns with the value it last had and no switch changes back unseen |
| IotReports.UnreachableTellsAgain | apps/agent/src/iot/unreachable.ts:21-40 | a device listed as unreachable that comes back as it was has all its readings told again |
| IotReports.UnchangedIsSilentIff | apps/agent/src/automations/iot-watcher.ts:18-30 | a device listed again as it was publishes nothing if and only if its readings of one metric have one value |
| IotReports.SwitchIsKnownIff | apps/agent/src/automations/iot-watcher.ts:10-14 | a subscriber knows the switch if and only if it did not, the last time it came or went, come back elsewhere and stay |
| IotReports.EventsExplainTheBaseline | apps/agent/src/automations/iot-watcher.ts:90-125 | over any run, the events lead from the first report of a device to all it still reports, with the exact conditions for the switch and for repetitions |
| IotWatcher.OutageKeepsBaseline | apps/agent/src/automations/iot-watcher.ts:94-97 | a missing device keeps its baseline |
| IotWatcher.MuteKeepsOrDrops | apps/agent/src/automations/iot-watcher.ts:90-125 | while a device is missing or listed without a metric, its last value stays or is dropped, never changed |
| IotWatcher.ChangeIsPublished | apps/agent/src/automations/iot-watcher.ts:90-103 | a reading that differs from the last report, or was not in it, is published |
| IotWatcher.ChangeDuringOutageIsPublished | apps/agent/src/automations/iot-watcher.ts:90-103 | a reading that changed during an outage of either kind is published when it is reported again |
| LifeSafety.RiseDuringOutageAlerts | apps/agent/src/alarm/life-safety.ts:63-85 | smoke or CO that began while the detector was missing, or listed without it, alerts unless the same device and metric alerted within the window |
| LifeSafety.ReturnAlerts | apps/agent/src/alarm/life-safety.ts:59-85 | smoke or CO that comes back after the detector was listed without it alerts, even if it was active before |
| LifeSafety.ActiveIsToldIff | apps/agent/src/alarm/life-safety.ts:59-85 | of an active detector some rise has been told if and only if an earlier report was not active |
| LifeSafety.NeverToldIffActiveSinceFirstSeen | apps/agent/src/automations/iot-watcher.ts:7-8 | over any run, no rise of an active detector was ever published exactly when it has been active in every report |
| LifeSafety.AlertsAreSpaced | apps/agent/src/modules/alarm/alarm.service.ts:426-436 | alerts for one device and metric are a window apart |
| LifeSafety.EveryRiseIsHeard | apps/agent/src/alarm/life-safety.ts:63-85 | every rise has an alert for its device and metric less than a window old |
| LifeSafety.OnlyRisesAlert | apps/agent/src/alarm/life-safety.ts:63-85 | an alert comes from a rise of smoke or CO to 1 or more and from nothing else |
| LifeSafety.KeysTellApart | apps/agent/src/alarm/life-safety.ts:46-48 | the key identifies device and metric, whatever the id |
| LocalCa.LengthReadBack | apps/agent/src/crypto/local-ca.ts:83-87 | the length octets are read back by the standard's rule, which refuses any longer form |
| LocalCa.NameConstraintsRoundTrip | apps/agent/src/crypto/local-ca.ts:101-112 | the reader recovers exactly the subtrees if and only if they take fewer than 65536 bytes |
| LocalCa.PrivateIffPermitted | apps/agent/src/crypto/local-ca.ts:72-79 | the private quads are exactly those under a permitted base and mask |
| LocalCa.PrivateIpv4IffPermitted | apps/agent/src/crypto/local-ca.ts:131-140 | a text is accepted exactly when it is a permitted quad, and the canonical form is the same quad and stable |
| LocalCa.ReadIffWritten | apps/agent/src/crypto/local-ca.ts:131-140 | a text is read as a quad exactly when it is four decimal numbers of the quad between dots |
| Motion.DetectMotion | apps/agent/src/cameras/motion.ts:47-68 | the two loops compute the specified result |
| Motion.ScoreIsAFraction | apps/agent/src/cameras/motion.ts:66-67 | the score lies between 0 and 1 |
| Motion.MotionIff | apps/agent/src/cameras/motion.ts:47-68 | motion exactly when two frames of one size differ, at no less than the fraction of their pixels, by more than the threshold from the mean difference |
| Motion.PatchIsMotion | apps/agent/src/cameras/motion.ts:47-68 | a patch that gets brighter in a still picture is motion when it is the minimal fraction of it and its change, less its share in the mean, exceeds the threshold |
| Motion.BrightnessDoesNotCount | apps/agent/src/cameras/motion.ts:56-66 | shifting all pixels of the current frame changes nothing |
| Motion.LightSwitchIsNotMotion | apps/agent/src/cameras/motion.ts:23-68 | a pure change of brightness scores 0 at every sensitivity |
| Motion.MotionIsSymmetric | apps/agent/src/cameras/motion.ts:47-68 | exchanging the frames changes nothing |
| Motion.LowerThresholdsSeeMore | apps/agent/src/cameras/motion.ts:60-67 | lower thresholds see at least as much motion |
| Motion.SensitivitiesAreOrdered | apps/agent/src/cameras/motion.ts:23-33 | motion at low implies motion at medium, and that at high |

## Left out

- Segments, Propagation, Interpolation, Motion: floating-point rounding, NaN and infinities.
- DnsHistory.CappedIsOneShot: does not cover a log that changes while it is drained, of which only `NoKeyTwice` and the lemmas about rows speak.
- Reaffirm: the order of the MACs to forget, which nothing depends on.
- Migrate: SQL that writes to the history table itself, and savepoints; the file system, the copy made before migrating (only that it may fail) and the order in which history rows with equal start times are read.
- Lockout.LockHoldsIff: instants are counted from the epoch, since the source uses 0 for "not locked".
- Automations: `sunTriggerDue` and the matching of bus events by kind are parameters; days with a clock change are not modelled.
- IotReports.EventsExplainTheBaseline: supposes, like the lemmas it rests on, that no report has two readings of one metric; of those `UnchangedIsSilentIff` tells what happens, not what a subscriber ends up with.
- IotWatcher: what is told to the user interface besides the bus (`cambio` and the device sink).
- LifeSafety: the texts of the alerts and the channels they go out by.
- LocalCa: issuing certificates and files; subtrees are given as octets, not as dotted text.
- HeatmapCache: values that are themselves undefined, which the source would compute again.
- Motion: whether a camera is armed (`isArmed`).
- Drivers, routes, the database client, the React front end and all cryptography.
