# Verified models of the feedback, telemetry, sharing and error-log code

This project models seven parts of the application and its services in Dafny and proves what they are for:
protocols over every interleaving, refinements of a fast form by a simple one, round trips, conservation laws,
and, where a promise is not kept, the exact condition under which it is.

`dafny verify dfyconfig.toml` checks all of it.

## The parts

1. **Ingest over an optimistic database** (`infra/lambda`). `SubmitProtocol` is a state machine of any number of
   containers running the submit handler one database step at a time: snapshots go stale, a commit may be aborted
   with 40001 at any time and then commits nothing, an INSERT of an existing key is 23505, and a commit whose
   acknowledgement is lost took effect although the caller answers 500; `SubmitGuarantees` has what the invariants
   of that machine guarantee in every run, and `SubmitReplies` what each submit is answered and, undisturbed, the
   sequential function it is. `RetryLadder` is the retry loop.
   `TelemetryInstall` is the read of the stored version, the guarded UPSERT of the install row, and the facts
   inferred from both; `TelemetryFacts` says what those facts are worth.
   `Upsert` is chunking, placeholders and multi-row UPSERTs; `TelemetryCounters` runs the counter transaction
   concurrently over sharded tables and refines every interleaving to the committed batches in commit order.
   `CounterSchedules` reads off the schedule where each writer stands and what can come next.
2. **The phone room** (`share-server/src/phoneRoom.ts`). `RoomPolicy` has the decisions as functions,
   `PhoneRoomCore` the object whose methods are proved against them, `PhoneRoom` the adapter: storage, alarm,
   sockets, hibernation, and everything each participant was ever told. A desk upgrade and an unpairing await a
   token digest, so each is two events, with anything in between. `PhoneRoomAccess` says, on the digests offered,
   who claims, enters and unpairs a room and why a socket is closed; `PhoneRoomGuarantees` has what the participants
   can rely on, and exactly when they cannot.
3. **Window fitting** (`src/main/displayFit.ts`). `DisplayFit` counts pixels: the sum of areas against true
   coverage, the choice of a display, the clamp.
4. **The share store** (`share-server/src`). `ShareStore` has a share as three rows with their own expiry and
   every request as a transition, and `ShareGuarantees` what a run guarantees publishers and readers;
   `ShareService` is the handlers writing one row after another, proved against those transitions;
   `ShareHistory` the sanitized history row; `PageHistory` the panel that lists changes; `CardMap` the hotspots.
5. **The error funnel** (`src/main`). `ErrorBudget` and `ErrorRepeat` are the two caps, stated against `Tally`
   (how often, and which keys first); `ErrorLog` the queue, its single drain and the synchronous flush that may
   cut in at any await; `ErrorFunnel` all of it with one ledger; `ErrorCounters` says what the log is asked to write, as a function of
   the calls alone, and when the two counters add up.
6. **Encoders**. `Codec` (base64url, digest comparison), `ShareId` (rejection sampling), `Ulid` (Crockford digits).
7. **The template splitter** (`scripts/scrape-spells.ts`). `TemplateDepth`, `TopLevelSplit` and `SlotRows` are
   the three hand-written scanners and the row loop that uses them.

`Prelude` holds options, sequence helpers and counting facts about finite sets.

Objects that the code updates in place are classes here (`PhoneRoomCore.RoomCore`, `ShareService.Namespace`,
`ErrorBudget.Session`, `ErrorRepeat.Session`, `ErrorLog.Sink`, `ErrorFunnel.Logger`), and its loops are loops.
Protocols are machines of steps; `Exec` is the state a run reaches, or nothing if a step was not possible, and a
theorem about `Exec` holds for every run; `ExecFrom` is the state a further run reaches from a given one. Fields
called history variables are written by steps and read by none.

## What the code does differently from what is written about it

* **Quota.** The cap guards the UPDATE arm only. A configured cap that is not above zero is replaced by the
  deployment's fallback `MAX_PER_DAY`; with a fallback below one the first submit of a day is counted all the same
  (`SubmitGuarantees.InsertArmIgnoresTheCap`). Days stay within a payer's cap exactly when the fallback is at least one.
* **First of the day.** It is announced exactly once per day if and only if no day is left and come back to; a
  container whose clock is a day behind makes it be announced again.
* **The day's telemetry quota.** It forgets a day that is left, so a day that is come back to is counted again up
  to the cap: with two days in turn and a cap of one, everything is counted.
* **Upgrades.** `telemetry.ts:307-310` calls the race of two batches one extra count. A batch counted between the
  read of the version and the statement can also hide an upgrade; without such a batch none is wrong.
* **The room's alarm.** Only a claim or a desk attach counts as contact, so a desk that stays attached for the
  whole 30 days loses its room; the comment at `phoneRoom.ts:203-206` speaks of a desk that did not connect.
* **One desk.** An upgrade reads presence before it awaits the digest, so two overlapping upgrades are both let in;
  the desks that can come of it are those there plus the upgrades that read "nobody". When one of several desks
  leaves, the phones hear that none is there. A room unpaired during the await still lets the desk in, and tells
  it nothing.
* **Unpairing.** A request to unpair compares its token with the pairing it found before the await and does not look
  again: of two that overlap, the second takes away whatever pairing the room has been claimed with in between.
* **Tiling displays.** The remark that displays tile, so that no union is needed, is exactly right: the area test
  is right for every rectangle if and only if no two displays share a pixel. Mirrored displays defeat it.
* **Share lifetime.** `share-server/README.md:111-113` speaks of 180 to 210 days from the last read; the code gives
  150 to 180. (`store.ts:22-26` speaks of the last write, and is right.) All three rows expire together as long as
  a stored envelope is accepted again; when an update meets one that is not, the history keeps its old expiry.
* **Hotspots.** The size is tested before it is rounded and the slot is cut after it is trimmed, so a stored map
  need not survive being read.
* **The error counters.** `errorLog.ts:279-281` says that lines plus suppressed are exactly the occurrences. Notices
  are counted as lines too; the law is lines plus suppressed equals calls plus notices, so the two agree exactly
  until an issue comes a hundred times, a 201st issue in a session, or a line a sixth time.
* **The flush.** `errorLog.ts:232-243` promises every line still owed on disk. The batch in flight is not among
  them; every line a flush does append overtakes that batch; and unless the drain is already appending, it may
  still truncate the file and what was flushed with it.
* **A row without its closer.** The field reader takes the closer of a page's last row. If what is left ends in
  the closer of something inside the row, that one is taken for the row's own, and the row loses two characters.

## Assumptions

* An aborted attempt commits nothing. A commit is possible while the rows it writes have the values its snapshot
  had; that allows every commit the database allows, and perhaps more.
* A sweep removes one expired row per step, and any expired row; its time gate and row limit only make it rarer.
* The rollup is any list of rows with distinct ids. The shared validator is any function; where a theorem needs
  that a stored envelope is accepted again as itself, it says so (`ReAccepts`).
* Each request reads the clock once, requests on one share are handled one after another, and the key-value store
  answers what was last put until its expiry. A share id drawn at random does not hit a share being served.
* A failed append wrote nothing, and only the first lookup of the log's path can throw.
* `frameChannel` is any partial function from texts to seven channels. Sends to an open socket arrive; a socket
  the room has closed stays listed and deaf until its close event.
* Numbers are unbounded integers or reals; characters are the units JavaScript counts. `btoa` and `atob` are
  section 4 of RFC 4648 and the browsers' forgiving decoder. JSON text is its value.

## Model

| member | source | states |
|---|---|---|
| SubmitGuarantees.ReportsAreAccountedFor | infra/lambda/submit.ts:474-503 | Over every interleaving, an (install, client) pair has exactly as many reports as it ever had idempotency rows (live plus swept), no more 201 replies than reports, every row points at an existing report of its own pair, and every ok reply names one |
| SubmitGuarantees.UnsweptPairIsOneReport | infra/lambda/submit.ts:538-571 | While no row of the pair was swept: at most one report, at most one 201, and all ok replies name the same id, the one in the idempotency row |
| SubmitGuarantees.WeekOfClocksIsOneReport | infra/lambda/db.ts:287-303 | If no container clock is more than the seven-day TTL past another, nothing of a pair is swept and it is one report outright |
| SubmitGuarantees.QuotaIsNeverOverrun | infra/lambda/submit.ts:312-339 | Reports of an install and day never exceed the units taken, which are the live counter plus what was swept; the counter never exceeds the larger of one and the cap some payer evaluated |
| SubmitGuarantees.ThreeDaysOfClocksIsOneCap | infra/lambda/db.ts:287-303 | If no container clock is more than the three-day TTL past another, nothing of a day is swept and its reports number at most the larger of one and the cap of some payer |
| SubmitGuarantees.InsertArmIgnoresTheCap | infra/lambda/submit.ts:312-319 | For every fallback below one and every accepting config row without a positive cap there is a run in which the first submit of a day is counted past the cap: the INSERT arm has no guard |
| SubmitGuarantees.CapHoldsIffFallbackPositive | infra/lambda/submit.ts:132-143 | Whatever the config rows say, in every run each day is counted at most to a cap that one of its payers evaluated, if and only if the fallback cap is at least one |
| SubmitGuarantees.RefusalIsHonest | infra/lambda/submit.ts:549-553 | Whoever was refused for quota created nothing, and at least as many units of that day as its cap had really been taken |
| SubmitGuarantees.WriterAnsweredItsReport | infra/lambda/submit.ts:562-565 | A process that created a report answered 201 with that id, or lost its acknowledgement and answered 500; never another id |
| SubmitGuarantees.RetryIsFree | infra/lambda/submit.ts:269-286 | A retry of an answered pair is answered with the same id at step 3 and touches no table |
| SubmitGuarantees.LadderIsBounded | infra/lambda/db.ts:139-166 | In every run every transaction is on one of the five rungs of the retry ladder |
| SubmitReplies.LoadDecides | infra/lambda/submit.ts:538-548 | In every run step 3 touches no table and decides for good: 503 when the deployment is closed, whoever asks; else 403 to a blocked install; else the row's id to an answered pair; none of these pays or writes; anybody else goes on to the quota under the row's cap, or the fallback if that is not positive |
| SubmitReplies.UndisturbedSubmitIsSequential | infra/lambda/submit.ts:538-566 | From any state, a submit that no race, failure, lost acknowledgement or sweep disturbs leaves the tables, and answers, what a sequential function of the tables says |
| SubmitReplies.UndisturbedSubmitAnswers | infra/lambda/submit.ts:538-566 | From any state such a submit can run to its answer |
| SubmitReplies.LostAcknowledgementIsInternal | infra/lambda/db.ts:143-145 | A commit whose acknowledgement is lost is answered 500 for good, whatever it left |
| SubmitReplies.LoserIsAnsweredTheRow | infra/lambda/submit.ts:493-501 | Who looks its pair up after a lost INSERT is answered the id of the row that is there, and 500 if there is none any more |
| SubmitReplies.DuplicateIsAnsweredTheRow | infra/lambda/submit.ts:482-501 | In every run an open report transaction either commits or meets a duplicate key, never both; in the second case it can look the pair up next |
| SubmitReplies.FifthRaceIsTheLast | infra/lambda/db.ts:139-166 | In every run a process gives up exactly on the fifth lost race of a transaction, counted in the schedule, and before that tries the same one again with the same report id |
| SubmitReplies.SweepReachesIff | infra/lambda/db.ts:287-303 | The sweep can take an idempotency row exactly when its creator's clock is more than the TTL behind the sweeper's, and then takes that row alone |
| SubmitProtocol.ReachableInv | infra/lambda/db.ts:238-254 | Every reachable state keeps all the table, reply, payment, quota and sweep invariants, although snapshots go stale, commits abort and acknowledgements are lost |
| SubmitGuarantees.PayersOnlyGrow | infra/lambda/submit.ts:321-339 | No step of any process un-takes a unit of a day |
| RetryLadder.WithRetry | infra/lambda/db.ts:139-166 | Answers the first outcome that is not a 40001 or 40P01, or the fifth whatever it is; every earlier one was one of the two; all waiting is counted and stays below 750 ms |
| RetryLadder.SleepBudget | infra/lambda/db.ts:134-137 | Whatever is drawn, a whole ladder waits at most 746 ms |
| RetryLadder.WorstLadder | infra/lambda/db.ts:98-106 | 746 ms is reached, so the documented budget cannot be made smaller than that |
| RetryLadder.WaitBelowCeiling | infra/lambda/db.ts:134-137 | One wait is non-negative and strictly below 25 times two to the attempt |
| TelemetryFacts.RowAndFactsAreTrue | infra/lambda/telemetry.ts:253-271 | After any interleaving of reads and statements the install row is, field by field, the summary of the counted batches, and each batch was counted under facts that are true of the batches before it; whether it is an upgrade is judged by the version stored when it read |
| TelemetryFacts.UpgradesAreRightIff | infra/lambda/telemetry.ts:315-323 | A schedule announces upgrades rightly, under all version strings, if and only if no batch of the install is counted between a counted batch's read of the version and its statement |
| TelemetryFacts.FirstOfDayIffContiguous | infra/lambda/telemetry.ts:325-371 | firstOfDay is announced exactly once per day if and only if no day is left and come back to |
| TelemetryFacts.DayOrderFacts | infra/lambda/telemetry.ts:333-371 | With days in order: first of the day exactly once per day, new install exactly on the first batch, days_seen the number of distinct days |
| TelemetryFacts.DayTotalIsBounded | infra/lambda/telemetry.ts:267-270 | All events counted on a day are at most the cap minus one plus the largest batch, times how often the day was come to; so once if no day is left and come back to |
| TelemetryFacts.CountedIffRoom | infra/lambda/telemetry.ts:267-270 | In every run the statement appends its batch if and only if nothing was counted yet, the last counted batch was of another day, or the events of its day since that began are fewer than the cap; otherwise row and log stay as they were |
| TelemetryFacts.AlternatingDaysDefeatTheCap | infra/lambda/telemetry.ts:267-270 | With a cap of one and batches on two days in turn, any number of events is counted on the first of them |
| TelemetryFacts.RecordDaysCountsDays | infra/lambda/telemetry.ts:258-260 | Counting how often a later day than all before arrives counts the distinct days, when days arrive in order |
| Upsert.Chunk | infra/lambda/telemetry.ts:404-408 | The pieces are non-empty, at most the size (all but the last exactly), and together they are the items in order |
| Upsert.Tuples | infra/lambda/telemetry.ts:380-389 | Tuple r holds the shared placeholders and then its own run of column placeholders, without gap or overlap |
| Upsert.BuildParams | infra/lambda/telemetry.ts:497-498 | The parameter array is the shared values followed by all rows in order |
| Upsert.TuplesResolve | infra/lambda/telemetry.ts:380-402 | Read against that array, the placeholders of tuple r are exactly the shared values and row r |
| Upsert.StatementRows | infra/lambda/telemetry.ts:496-503 | A whole statement resolves to every row behind the shared values, in order |
| Upsert.StatementIsUpsertEach | infra/lambda/telemetry.ts:420-463 | A table is what one multi-row statement with distinct keys leaves exactly when it is what one upsert per row leaves, for any merge |
| Upsert.ChunkingChangesNothing | infra/lambda/telemetry.ts:482-485 | However the rows are cut into statements, the final table is the same |
| Upsert.WriteRows | infra/lambda/telemetry.ts:494-531 | Chunk by chunk and statement by statement, a table ends as one upsert per row would leave it |
| TelemetryCounters.PickShard | infra/lambda/telemetry.ts:118-123 | Every draw in [0, 1) gives one of the 32 shards |
| TelemetryCounters.WriteCounters | infra/lambda/telemetry.ts:480-531 | The transaction body leaves all four tables as one upsert per row of the batch does |
| TelemetryCounters.CommitIsAtomic | infra/lambda/telemetry.ts:465-479 | A commit no written row of which was raced publishes exactly the batch run alone on the tables of that moment |
| TelemetryCounters.InterleavingsAreSequential | infra/lambda/telemetry.ts:494-531 | Over every interleaving of retries, aborts and lost acknowledgements the tables are those of the committed batches written one after the other in commit order; nobody commits twice |
| TelemetryCounters.MergedCountersAreExact | infra/schema.sql:480-492 | For every choice of shards each merged counter is its frozen value plus the contributions of exactly the committed batches; funnel counters likewise |
| TelemetryCounters.ErrorStoreIsExact | infra/lambda/telemetry.ts:432-448 | Error counts add up and the stored exemplar is the first one ever proposed in commit order |
| TelemetryCounters.StepKeepsExemplar | infra/lambda/telemetry.ts:438-448 | Once set, a stored exemplar is changed by no later step |
| TelemetryCounters.WriteAddsToSum | infra/lambda/telemetry.ts:109-117 | Whatever shard a batch draws, the sum over all shards grows by exactly its rows |
| CounterSchedules.EveryWriterStandsAsTold | infra/lambda/db.ts:139-166 | In every run the schedule tells where each writer of counters stands: it tries with the tables of its last beginning, gives up exactly on the fifth race it lost or on another failure, and is done once it has committed, told or not |
| CounterSchedules.PossibleIff | infra/lambda/telemetry.ts:494-531 | In every run, exactly which step can come next: a commit exactly when nothing the batch writes has changed since its last beginning |
| CounterSchedules.UndisturbedBatchIsWritten | infra/lambda/telemetry.ts:480-531 | From any reachable state a batch that nobody disturbs is written, once and whole |
| PhoneRoomCore.RoomCore.Restore | share-server/src/phoneRoom.ts:93-96 | Takes over the stored pairing and nothing else |
| PhoneRoomCore.RoomCore.Create | share-server/src/phoneRoom.ts:98-106 | Refuses when paired; else pairs, stamps both clocks, saves and sets the alarm |
| PhoneRoomCore.RoomCore.Destroy | share-server/src/phoneRoom.ts:115-125 | Forgets pairing, cache and rate clocks, deletes the record and closes everybody with 4004 |
| PhoneRoomCore.RoomCore.AttachViewer | share-server/src/phoneRoom.ts:137-149 | The loop over the cache replays every cached frame to the newcomer in order, between its presence message and the count and nudge for the desk |
| PhoneRoomCore.RoomCore.AttachDesk | share-server/src/phoneRoom.ts:158-168 | Stamps the contact, saves, re-arms the alarm, tells phones and desk; does nothing unpaired |
| PhoneRoomCore.RoomCore.DeskMessage | share-server/src/phoneRoom.ts:183-195 | Size, shape and rate gates in that order; a frame that passes is cached, clocked and relayed |
| PhoneRoomCore.RoomCore.SetLatest | share-server/src/phoneRoom.ts:193-193 | Replaces the entry of the channel in place or appends it, keeping the order of a Map |
| PhoneRoomCore.RoomCore.OnAlarm | share-server/src/phoneRoom.ts:207-214 | Re-arms when the desk was seen within the TTL, destroys otherwise |
| RoomPolicy.PutReplacesOne | share-server/src/phoneRoom.ts:193-193 | Caching a frame replaces exactly its own channel and keeps every other, and no channel is ever cached twice |
| RoomPolicy.FullCacheHasEveryChannel | share-server/src/phoneRoom.ts:146-146 | A cache that is not shorter than seven holds every channel |
| PhoneRoom.Run | share-server/src/phoneRoom.ts:278-309 | Performing a list one action after the other is the fold of its actions |
| PhoneRoom.ReachableInv | share-server/src/phoneRoom.ts:254-391 | After every event of every run, with the awaits left in: storage agrees with memory, the alarm is set, the cache holds what was last forwarded, phones are at most four and none is open in an unpaired room, everybody was told the truth as far as EveryoneKnowsTheTruth says, and relays keep their gap |
| PhoneRoomAccess.UnpairedIff | share-server/src/phoneRoom.ts:330-336 | In every run an event takes a pairing away if and only if it is the alarm after a whole TTL without contact, or the verdict on a request to unpair that offered the token the room was paired with when it came |
| PhoneRoomAccess.ClaimedOnce | share-server/src/phoneRoom.ts:98-106 | A claim pairs an unpaired room with its token, and nothing else ever pairs or re-keys one |
| PhoneRoomAccess.DeskEntersIff | share-server/src/phoneRoom.ts:343-349 | In every run a desk comes in if and only if its upgrade offered the token of the room when it came and read that no desk was there |
| PhoneRoomAccess.LateRequestTakesTheNextPairing | share-server/src/phoneRoom.ts:330-336 | A run of two overlapping requests to unpair in which the first takes the pairing they both found, and the second the one the room was claimed with in between |
| PhoneRoomAccess.SocketIsClosedIff | share-server/src/phoneRoom.ts:115-214 | In every run an event closes an open socket with 4004 exactly when it unpairs the room, with 4009 exactly when it is an oversize message of its own or, for a desk, of any desk, and for nothing else; a close stands |
| PhoneRoomAccess.TimePasses | share-server/src/phoneRoom.ts:270-276 | The clock a decision is made at is the start plus what has passed since; no decision takes time |
| PhoneRoomGuarantees.EveryoneKnowsTheTruth | share-server/src/phoneRoom.ts:137-195 | Hibernations included: an open phone was last told whether a desk is there, or that none is; it holds only frames that are the last forwarded of their channel; an open desk was last told the real number of phones, or it was let into an unpaired room and told nothing |
| PhoneRoomGuarantees.PhonesStayRightIff | share-server/src/phoneRoom.ts:170-172 | From a reachable state in which all open phones are right about the desk, an event keeps them right if and only if it is not the departure of one of several desks with an open phone there |
| PhoneRoomGuarantees.OneDeskKeepsPhonesRight | share-server/src/phoneRoom.ts:127-172 | In a run that never has two desks every open phone was last told exactly whether a desk is there |
| PhoneRoomGuarantees.DeskSetsPhonesRight | share-server/src/phoneRoom.ts:158-168 | A desk accepted into a paired room sets every open phone right, whatever it had heard |
| PhoneRoomGuarantees.DesksByVerdictsIff | share-server/src/phoneRoom.ts:343-359 | From a reachable state the numbers of desks that verdicts alone can lead to are exactly those from the desks there are to the desks plus the waiting upgrades that read nobody; two desks come of it exactly when that sum is at least two |
| PhoneRoomGuarantees.OneDeskStepIff | share-server/src/phoneRoom.ts:343-349 | While at most one desk is there or on its way, an event keeps it so if and only if it is not an upgrade with the right token that overlaps another one sure to be accepted |
| PhoneRoomGuarantees.UpgradesInTurnKeepOneDesk | share-server/src/phoneRoom.ts:346-349 | A run whose desk upgrades do not overlap never has two desks |
| PhoneRoomGuarantees.OverlappingDesksBothEnter | share-server/src/phoneRoom.ts:346-349 | A run from an empty room in which two desk upgrades overlap in the await and both desks are let in and stay open |
| PhoneRoomGuarantees.AcceptedDeskHearsIffPaired | share-server/src/phoneRoom.ts:158-168 | A desk whose upgrade is accepted is open and has been told the number of phones if and only if the room is still paired then |
| PhoneRoomGuarantees.LateDeskEntersAnUnpairedRoom | share-server/src/phoneRoom.ts:330-360 | A run in which the room is unpaired during the await and the desk is let in all the same and told nothing |
| PhoneRoomGuarantees.PhoneIsLetInIff | share-server/src/phoneRoom.ts:350-352 | A phone is let in exactly when the room is paired and fewer than four are there; four is never exceeded and nobody is put out for the fifth |
| PhoneRoomGuarantees.AttachIsCompleteOrNudges | share-server/src/phoneRoom.ts:134-149 | A phone let in while an open desk is there holds all seven channels or the desk was nudged once, and it is nudged only if some channel is missing |
| PhoneRoomGuarantees.HibernationChangesNothing | share-server/src/phoneRoom.ts:260-267 | Reading the pairing back after hibernation gives what memory held; storage, alarm, sockets and knowledge are as before |
| PhoneRoomGuarantees.LiveRoomHasItsAlarm | share-server/src/phoneRoom.ts:158-168 | A live pairing always has its alarm at exactly its last claim or desk attach plus the TTL |
| PhoneRoomGuarantees.AlarmDestroysIffSilent | share-server/src/phoneRoom.ts:203-214 | The alarm destroys the room if and only if no claim or desk attach lies within the TTL, whoever is online; on time it always does; a spared room keeps pairing and alarm |
| PhoneRoomGuarantees.RelayRateIsBounded | share-server/src/phoneRoom.ts:191-194 | Since the cache was last emptied, at most (to - from) divided by the gap, plus one, frames of a channel were relayed between two instants |
| PhoneRoomGuarantees.FrameReachesEveryPhone | share-server/src/phoneRoom.ts:174-195 | A desk message reaches an open phone verbatim exactly when it is a small frame of a known channel whose gap is over; otherwise nothing about that phone changes |
| DisplayFit.CoverageOf | src/main/displayFit.ts:169-182 | The single pass returns the sum of the intersection areas and the first display with the largest one |
| DisplayFit.IntersectAreaCounts | src/main/displayFit.ts:185-189 | The intersection area is the number of pixels both rectangles hold |
| DisplayFit.CoveredCounts | src/main/displayFit.ts:161-164 | The sum never undercounts the rectangle pixels that are on some display, and on disjoint displays is their exact number |
| DisplayFit.AreaTestDecidesCoverage | src/main/displayFit.ts:233-235 | On pairwise disjoint displays the area test passes exactly when every pixel of the rectangle is on some display |
| DisplayFit.OverlapDefeatsTheTest | src/main/displayFit.ts:233-235 | Any two displays that share a pixel admit a rectangle that passes the test although part of it is on no display |
| DisplayFit.AreaTestIsRightIffDisjoint | src/main/displayFit.ts:161-164 | The area test is right for all rectangles if and only if the displays are pairwise disjoint |
| DisplayFit.BestIsFirstLargest | src/main/displayFit.ts:173-180 | The chosen display is the earliest of those with the largest positive share; there is none exactly when no display is touched |
| DisplayFit.NullIffOffScreen | src/main/displayFit.ts:233-236 | A rectangle of positive size is given up exactly when no pixel of it is on any display |
| DisplayFit.ParkedIffInsideTheWidenedArea | src/main/displayFit.ts:140-158 | Parked over an edge means inside the area widened by the slack on three sides but not at the top |
| DisplayFit.StaysOrIsClamped | src/main/displayFit.ts:228-240 | For every rectangle of positive size that shows: it is returned as it is if and only if it is covered or parked over an edge of the first largest display; otherwise it is clamped into that display's bounds or work area |
| DisplayFit.CoveredStays | src/main/displayFit.ts:233-235 | On disjoint displays a rectangle all of whose pixels are on some display is returned as it is |
| DisplayFit.ClampIsTheLeastMove | src/main/displayFit.ts:196-205 | The clamped rectangle is inside the area, as large as the area allows, and on each axis moved no further than any other placement of its size; a rectangle already inside is unchanged |
| DisplayFit.CenterIn | src/main/displayFit.ts:208-217 | As large as size and area allow, inside the area, and with equal margins or one pixel more on the left and at the top |
| DisplayFit.ChangedIsInside | src/main/displayFit.ts:228-240 | A changed answer is the clamp into the first largest display, non-empty and inside it |
| DisplayFit.FitIsIdempotent | src/main/displayFit.ts:228-240 | Fitting an answer again returns it unchanged, and some pixel of it is on a display |
| DisplayFit.EmptyWorkAreaIsNotIdempotent | src/main/displayFit.ts:238-239 | With an empty work area the second fit gives up what the first one answered, so the hypothesis cannot be dropped |
| ShareHistory.CollectUpTo | share-server/src/history.ts:92-108 | The push loop with its early stop yields the first so many accepted entries in order |
| ShareHistory.ReadItems | share-server/src/history.ts:92-108 | At most forty rebuilt items, in order, skipping what is not one |
| ShareHistory.ReadList | share-server/src/history.ts:137-146 | The rebuilt snapshots among the first thirty stored entries |
| ShareHistory.SnapshotReadsBack | share-server/src/history.ts:118-134 | Every snapshot that is written reads back, as its clamped self |
| ShareHistory.SettledIffWithinLimits | share-server/src/history.ts:92-134 | A snapshot reads back unchanged exactly when it is within every length limit and its figures are integral |
| ShareHistory.ReadIsSettled | share-server/src/history.ts:118-134 | Whatever was stored, what the sanitizer lets through it will let through unchanged again |
| ShareHistory.ClampSettles | share-server/src/history.ts:118-134 | Clamping twice is clamping once |
| ShareHistory.PushReadsBack | share-server/src/history.ts:159-162 | After a push, the history is the clamped replaced state in front of what was readable before, cut at thirty |
| ShareHistory.HistoryIsTheNewestReplaced | share-server/src/history.ts:154-162 | After any number of pushes onto any stored value: the newest thirty pushed states in order, then what was readable |
| ShareHistory.NewestAt | share-server/src/history.ts:154-162 | Entry k is the state replaced k re-publishes before the last; the length is the number of re-publishes, at most thirty |
| PageHistory.RowsAreTheChanges | share-server/src/pageHistory.ts:85-101 | The listed slots are exactly the changed ones, each once, and each row says what the slot wore and wears |
| PageHistory.RowsKeepTheOrder | share-server/src/pageHistory.ts:79-88 | Slots still worn come first and in the order of the newer state; vanished ones after them |
| PageHistory.NoRowsIffSameGear | share-server/src/pageHistory.ts:100-100 | A list is empty exactly when no slot changed, absent and empty being the same |
| PageHistory.RowsCarryTheChange | share-server/src/pageHistory.ts:85-101 | Applying the rows of one transition to the older gear gives the newer |
| PageHistory.PanelLeadsToThePage | share-server/src/pageHistory.ts:119-137 | Applying all listed changes from the oldest shown state forward gives exactly the gear on the page |
| PageHistory.HistoryPanel | share-server/src/pageHistory.ts:126-129 | One list for each of at most ten shown snapshots |
| CardMap.SanitizeCardMap | share-server/src/store.ts:142-151 | The loop yields the first forty acceptable hotspots, rebuilt, in order |
| CardMap.SanitizedIsRebuilt | share-server/src/store.ts:154-165 | Every stored hotspot has a non-empty slot of at most forty characters that starts with no space, and fractions in ten-thousandths of the image |
| CardMap.HotspotIsTheUploadedOne | share-server/src/store.ts:154-165 | An accepted hotspot is the uploaded one: its name without the space around it, or the first forty characters of that, and each figure moved by at most half a ten-thousandth |
| CardMap.StoredMapReadsBackIff | share-server/src/store.ts:154-182 | A stored map is read back unchanged exactly when every hotspot kept a positive size after rounding and a trimmed slot after cutting |
| CardMap.ReadMapSettles | share-server/src/store.ts:181-182 | A stored map changes at most the first time it is read; from then on it reads back as it is |
| CardMap.SliverIsLost | share-server/src/store.ts:162-164 | A hotspot four hundred-thousandths wide is accepted, and gone when the record is read |
| ShareStore.EveryShareFits | share-server/src/handler.ts:224-319 | In every reachable state of every share: rows share one expiry, the card is there exactly when hasCard, the history exactly when something was replaced, and the stored envelope is accepted |
| ShareGuarantees.RowsExpireTogether | share-server/src/store.ts:200-220 | At every instant from a reachable state to the next request: the share is live up to the reported expiry and no longer, its card and its history exactly as long, and without a share there is neither |
| ShareGuarantees.ReportedExpiryIsReal | share-server/src/store.ts:218-221 | After a created, updated or profile reply, in every run in which nobody asks for the share again it is there exactly until the instant the reply named |
| ShareGuarantees.PublishedFor180Days | share-server/src/store.ts:22-26 | In every run a share that nobody asks for after a publication is there for exactly 180 days |
| ShareGuarantees.ViewLeaves150To180Days | share-server/src/store.ts:206-216 | A view at t leaves the share until between t+150 and t+180 days; 180 exactly when it refreshed or the share was written at that instant |
| ShareGuarantees.ViewOnDayThirtyLeaves150 | share-server/README.md:111-113 | A view exactly thirty days after the last write changes nothing, so 150 days remain: the documented 180 from the last read do not hold |
| ShareGuarantees.CardReadsAreInvisible | share-server/src/handler.ts:350-355 | A run and the same run without its fetches of card images end with the same shares and clocks: images keep nothing alive |
| ShareGuarantees.UpdateKeepsHistoryInStepIff | share-server/src/handler.ts:301-303 | Without assuming re-acceptance: after an update the history expires with the share exactly when the old envelope was still accepted, there was no history, or the old expiry is the new one |
| ShareGuarantees.OnlyTheTokenRemoves | share-server/src/handler.ts:251-255 | In every run without a request that carries the token, a live share stays at least until the expiry it had |
| ShareGuarantees.RemovedIsGone | share-server/src/handler.ts:311-319 | After a removal, in every run that does not create the id again none of the three rows is there and every request is answered 404 |
| ShareGuarantees.OnlyUpdatesChangeTheShare | share-server/src/handler.ts:289-319 | In every run without a re-publication under the token, as long as the share is there it has the token, creation, envelope, card flag and hotspots it had; only its last-seen stamp moves |
| ShareGuarantees.RepliesAreExact | share-server/src/handler.ts:223-343 | In every run each request is answered as what was published demands: 404 without a share, 401 without the token of its creation, a refusal of what is not accepted, else success; and the card fetched is the last one brought |
| ShareGuarantees.PossibleIff | share-server/src/handler.ts:223-245 | In every run anything may be asked next, except that a share still served is not created again |
| ShareGuarantees.ReadersSeeTheLastPublication | share-server/src/handler.ts:283-303 | In every run both views show the envelope, profile and instant of the last accepted publication, the instant of the creation, and a card exactly when some publication since the creation brought one |
| ShareGuarantees.ReadersSeeTheMapOfTheCard | share-server/src/handler.ts:296-300 | In every run both views show the hotspots that came with the card the share has now, as they read back: a publication with a card replaces them, one without leaves them, and without a card there are none |
| ShareGuarantees.ReadersSeeTheNewestReplaced | share-server/src/handler.ts:330-383 | In every run both views show the newest thirty replaced states, newest first, as they read back |
| ShareGuarantees.PageTellsTheWholeChange | share-server/src/handler.ts:364-383 | On every page of every run, the panel has one list per shown replaced state and leads from the oldest of them to the gear on the page |
| ShareService.Namespace.WriteRecord | share-server/src/store.ts:186-190 | Puts the record row under a fresh TTL and touches no other row |
| ShareService.Namespace.WriteCard | share-server/src/store.ts:192-198 | Puts the card row under a fresh TTL and touches no other row |
| ShareService.Namespace.RewriteCard | share-server/src/handler.ts:285-288 | The same bytes under a fresh TTL if the card is still there |
| ShareService.Namespace.TouchHistory | share-server/src/history.ts:169-173 | The same bytes under a fresh TTL if there is a history |
| ShareService.Namespace.Push | share-server/src/history.ts:159-162 | Writes the replaced state in front of what was readable, cut at thirty, under a fresh TTL |
| ShareService.Namespace.Touch | share-server/src/store.ts:206-216 | Nothing within thirty days of the last stamp; else all rows that exist are rewritten |
| ShareService.Namespace.CreateShare | share-server/src/handler.ts:224-244 | Card and record, with the card's hotspots, written one after the other leave what the create transition says; other shares untouched |
| ShareService.Namespace.KeepCard | share-server/src/handler.ts:283-288 | A new card is stored, and without one the old image is written again under a fresh TTL |
| ShareService.Namespace.Republish | share-server/src/handler.ts:283-303 | Card, history and record written in that order, with the map replaced exactly when a card came, leave what the update transition says; other shares untouched |
| ShareService.Namespace.UpdateShare | share-server/src/handler.ts:275-309 | Refusals in order, then the re-publication; together they leave what the update transition says; other shares untouched |
| ShareService.Namespace.DeleteShare | share-server/src/store.ts:224-228 | All three rows of the share are gone, and no other |
| ShareService.Namespace.RemoveShare | share-server/src/handler.ts:312-319 | The remove transition, with 404 and 401 before anything is deleted |
| ShareService.Namespace.ViewProfile | share-server/src/handler.ts:330-343 | The profile transition; the history is read after the refresh |
| ShareService.Namespace.ViewPage | share-server/src/handler.ts:364-383 | The page transition; an envelope that is no longer accepted is 404 and refreshes nothing |
| ErrorBudget.Session.Ask | src/main/errorBudget.ts:116-147 | One occurrence moves the two module variables and answers as the specification function says |
| ErrorBudget.Session.Reset | src/main/errorBudget.ts:161-164 | Forgets every fingerprint and the announcement |
| ErrorBudget.BooksAreRight | src/main/errorBudget.ts:104-131 | After any session the table holds the first two hundred fingerprints with their counts up to 101, and the ceiling is announced exactly when a further one occurred |
| ErrorBudget.VerdictIsExact | src/main/errorBudget.ts:116-147 | The next occurrence is reported exactly when its fingerprint is among the first two hundred and fewer than a hundred came before; the two notices come at exactly one occurrence each |
| ErrorBudget.ReportsAreCapped | src/main/errorBudget.ts:64-81 | A tracked fingerprint is reported min(occurrences, 100) times and any other never |
| ErrorBudget.ReportsAreBounded | src/main/errorBudget.ts:78-90 | All reports of a session are the capped counts of the tracked fingerprints, at most 20 000 |
| ErrorRepeat.Session.Ask | src/main/errorRepeat.ts:98-121 | One occurrence moves the table and answers as the specification function says |
| ErrorRepeat.TableIsRight | src/main/errorRepeat.ts:73-106 | After any session the table holds the first five hundred keys with their counts up to six |
| ErrorRepeat.DecisionIsExact | src/main/errorRepeat.ts:98-121 | A copy is withheld exactly when its key is among the first five hundred and five came before; the sixth brings the notice; all else is written |
| ErrorRepeat.KeyIsTheLine | src/main/errorRepeat.ts:78-92 | For sources without NUL two lines share a key exactly when source and first 300 characters agree |
| ErrorRepeat.NulMakesKeysCollide | src/main/errorRepeat.ts:88-91 | A source that does contain NUL can share a key with another source |
| ErrorLog.Sink.RunDrain | src/main/errorLog.ts:189-212 | The stretch of the drain loop up to its next await: takes the whole queue, or drops it when the path cannot be had, or ends |
| ErrorLog.Sink.Write | src/main/errorLog.ts:224-230 | Appends the line and starts a drain unless one is running |
| ErrorLog.Sink.OnStat | src/main/errorLog.ts:180-182 | After the stat the drain truncates exactly when the file is over the limit |
| ErrorLog.Sink.OnTruncate | src/main/errorLog.ts:182-185 | A truncation that succeeded leaves only its notice; either way the append follows |
| ErrorLog.Sink.OnAppend | src/main/errorLog.ts:196-211 | A batch is appended whole or dropped whole, and the drain goes on |
| ErrorLog.Sink.FlushErrorLogSync | src/main/errorLog.ts:245-263 | Takes the queue and appends or drops it in one go, at any point of the drain |
| ErrorLog.EveryLineIsAccountedFor | src/main/errorLog.ts:171-263 | In every run each line ever made is in exactly one place: appended, dropped with its batch, in flight or pending; none twice, none silently lost |
| ErrorLog.SettledIff | src/main/errorLog.ts:189-263 | In every run an event appends or drops exactly these lines: the batch in flight or the flushed queue, by whether its append succeeded, and a line written before any lookup of the path succeeded, which is dropped at once |
| ErrorLog.NoLostWakeUp | src/main/errorLog.ts:224-230 | Whenever a line is pending a drain is running, and a drain always holds the one batch in flight |
| ErrorLog.WithoutFlushesOrderIsKept | src/main/errorLog.ts:151-172 | Without a flush, batches that left, batch in flight and queue are the lines in call order, and what was appended is that minus whole failed batches |
| ErrorLog.FileIsWhatWasAppendedSince | src/main/errorLog.ts:178-199 | In every run the file holds exactly the lines appended since it was last emptied, in the order of their appends and under that truncation's notice; one that was never emptied holds all of them |
| ErrorLog.DrainDoesWhatTheDiskSaid | src/main/errorLog.ts:180-196 | In every run the drain truncates exactly when the last answer it got was a file over the limit, and appends exactly when that was a file within it or the end of a truncation |
| ErrorLog.PossibleIff | src/main/errorLog.ts:189-230 | In every run lines can be written and flushed at any time, and the drain awaits exactly one answer: of the stat of the batch it took, then of a truncation if that was over the limit, then of the append |
| ErrorLog.FlushOwesOnlyTheBatchInFlight | src/main/errorLog.ts:232-263 | After a successful flush every line ever made is appended or was dropped, except exactly the batch in flight |
| ErrorLog.FlushKeepsOrderIffItAppendsNothing | src/main/errorLog.ts:245-263 | A flush preserves call order if and only if it appends nothing: a queue exists only behind a batch in flight |
| ErrorLog.OvertakenBatchLandsLate | src/main/errorLog.ts:196-196 | When the overtaken batch then lands, the appended lines are out of call order |
| ErrorLog.FlushedLinesStayIff | src/main/errorLog.ts:180-196 | From a reachable state: what a successful flush appended stays in the file in every run up to the drain's next append if and only if the drain was already appending or there was nothing to flush |
| ErrorLog.FlushedLineIsErased | src/main/errorLog.ts:180-186 | A run of two lines, a flush during the drain's stat and a truncation, after which a line counted as appended is not in the file |
| ErrorFunnel.Logger.AskBudget | src/main/errorLog.ts:301-310 | Asks the budget and writes its notice, with its own text, whatever the verdict |
| ErrorFunnel.Logger.AskRepeat | src/main/errorLog.ts:321-331 | Asks the identical-line cap, counts what is withheld, and writes the line or the notice |
| ErrorFunnel.Logger.Log | src/main/errorLog.ts:283-332 | The budget, then the cap, then the sink, and the counter of what was withheld |
| ErrorFunnel.LedgerBalances | src/main/errorLog.ts:265-332 | At every moment: lines appended, in flight, pending and dropped, plus occurrences withheld, equal calls plus notices |
| ErrorCounters.LogSaysWhatWasReported | src/main/errorLog.ts:301-332 | In every run the texts the log was asked to write, the suppressed counter and the number of lines are functions of the calls: a payload exactly when its fingerprint is among the session's first two hundred with fewer than a hundred before and its line is no sixth copy of one of the first five hundred; each notice at its one occurrence; one suppressed for every call without a payload |
| ErrorCounters.PossibleIff | src/main/errorLog.ts:283-332 | In every run errors can be logged and flushed and sessions begin at any time |
| ErrorCounters.NoNoticeIffOrdinary | src/main/errorLog.ts:301-331 | No notice was ever written exactly when the run was such an ordinary one; and then every line was asked of the identical-line cap |
| ErrorCounters.CountersAreTheCallsIff | src/main/errorLog.ts:279-281 | On a quiet healthy disk, lines plus suppressed equal the calls if and only if every session had at most 200 issues and none of them a hundred times, and none of the first five hundred lines of the process came more than five times |
| ErrorFunnel.DecisionBalances | src/main/errorLog.ts:321-331 | Line or notice written plus occurrence withheld is one plus the notice, and never both are written |
| Codec.EncodeBase64Url | share-server/src/codec.ts:14-21 | The loop over chunks of 0x8000 bytes gives the text one call would give |
| Codec.DecodeBase64 | share-server/src/codec.ts:28-37 | The index loop fills the buffer with exactly the decoded bytes, or answers nothing |
| Codec.Base64UrlRoundTrip | share-server/src/codec.ts:13-37 | fromBase64 of toBase64Url is the original, for every byte string |
| Codec.PaddedRoundTrip | share-server/src/codec.ts:23-37 | fromBase64 also reads back standard padded base64 |
| Codec.DecodesIff | share-server/src/codec.ts:28-37 | A text without spaces is decoded exactly when it is of the two base64 alphabets, padded or not, with no symbol left over alone; the bytes are three quarters of the symbols, rounded down |
| Codec.SpacesDoNotMatter | share-server/src/codec.ts:30-30 | A space anywhere makes no difference to what a text decodes to |
| Codec.Base64UrlIsUrlSafe | share-server/src/codec.ts:13-21 | Four characters for three bytes rounded up, and none needs escaping in a URL |
| Codec.GroupsAreTheSameNumber | share-server/src/codec.ts:20-20 | The four groups are the base-64 digits of the number the three bytes are the base-256 digits of |
| Codec.SymbolIsRfc4648 | share-server/src/codec.ts:20-20 | The symbols are those of the standard alphabet, in order |
| Codec.DigestsMatch | share-server/src/codec.ts:115-120 | The comparison that never stops early is equality |
| ShareId.NewId | share-server/src/codec.ts:80-92 | The id is the first so many letters drawn from the accepted bytes of all buffers, in order; the draw is over exactly when there are enough |
| ShareId.FourBytesForEachLetter | share-server/src/codec.ts:85-88 | Every letter stands for exactly four accepted bytes |
| ShareId.EveryIdIsAsLikely | share-server/src/codec.ts:74-79 | Every id of a length comes from the same number of strings of accepted bytes, four to that length |
| ShareId.DrawsAreExact | share-server/src/codec.ts:85-88 | Those strings are exactly the strings of accepted bytes that draw the id |
| ShareId.WithoutRejectionItIsBiased | share-server/src/codec.ts:77-78 | Without rejection the first eight letters would have five bytes and the others four |
| ShareId.LetterIsOfTheIdAlphabet | share-server/src/codec.ts:71-72 | The letters are those of the id alphabet, in order |
| Ulid.EncodeBase32 | infra/lambda/submit.ts:171-179 | The loop yields the last so many base-32 digits, most significant first |
| Ulid.DigitsReadBack | infra/lambda/submit.ts:171-179 | The digits stand for the number modulo 32 to the length |
| Ulid.TextOrderIsNumericOrder | infra/lambda/submit.ts:162-179 | Text order and equality are numeric order and equality modulo 32 to the length; below that bound, of the numbers themselves |
| Ulid.ClockWrapsAtTenDigits | infra/lambda/submit.ts:171-179 | At 32 to the 10 the text starts again from the bottom, so the bound cannot be dropped |
| Ulid.IdsSortByCreation | infra/lambda/submit.ts:162-186 | Ids minted in different milliseconds sort by their milliseconds, whatever their random parts |
| Ulid.SymbolIsCrockford | infra/lambda/submit.ts:169-169 | The symbols are those of the literal alphabet, in order |
| TemplateDepth.TemplateBlockEnd | scripts/scrape-spells.ts:269-282 | Returns the least position just past a closing token at which the depth is back to zero, else the end of the text |
| TemplateDepth.TemplateDepthAt | scripts/scrape-spells.ts:285-292 | Opened minus closed by the tokens that begin before the position |
| TemplateDepth.BlockEndIsTheFirstZero | scripts/scrape-spells.ts:265-292 | For a block that opens with two braces, the end found is the least boundary at which templateDepthAt is zero; before it, and everywhere when there is none, the depth is positive |
| TemplateDepth.DepthInsideAToken | scripts/scrape-spells.ts:284-292 | Inside a token templateDepthAt already answers for the boundary behind it |
| TemplateDepth.DepthOfBlock | scripts/scrape-spells.ts:238-248 | templateDepthAt on the block that templateBlockEnd cuts out of a page is the depth in the page, at every position of the block |
| TemplateDepth.DepthOfPieceIff | scripts/scrape-spells.ts:284-292 | For a piece cut anywhere: its depth is the depth in the text at every position, except at its end exactly when the cut goes through a token |
| TopLevelSplit.SplitTopLevel | scripts/scrape-spells.ts:370-394 | The loop cuts exactly at the top-level pipes |
| TopLevelSplit.PartsEndAtTheBalancedPipes | scripts/scrape-spells.ts:370-394 | The parts end, in order, at exactly the pipes before which as many of the text's tokens open as close |
| TopLevelSplit.EveryTextHasAScan | scripts/scrape-spells.ts:374-387 | Every text is read as double braces, double brackets and single characters, from its beginning |
| TopLevelSplit.JoinUndoesSplit | scripts/scrape-spells.ts:370-394 | Joining the parts with pipes gives back the text, for every text |
| TopLevelSplit.SplitUndoesJoinIff | scripts/scrape-spells.ts:370-394 | Splitting the joined parts gives them back exactly when no part has a top-level pipe and every part but the last ends at depth zero |
| SlotRows.ParseSlotRows | scripts/scrape-spells.ts:340-367 | The loop ends; it reads rows with their own blocks in order, never overlapping one that said something, and passes over none except inside such a row |
| SlotRows.OpenerIff | scripts/scrape-spells.ts:343-345 | The search stops exactly at two braces, the name in any case with any letters behind it, and a pipe, with any spaces between them, and goes on just past that pipe |
| SlotRows.RowEndsPastItsOpener | scripts/scrape-spells.ts:343-346 | A row block always reaches past its opener, so the search strictly advances |
| SlotRows.NoRowInOpener | scripts/scrape-spells.ts:343-345 | No row begins inside the opener of another |
| SlotRows.LostCloserIsHarmlessIff | scripts/scrape-spells.ts:347-355 | A row whose closer the field reader took (scrape-spells.ts:256-259) ends with the field, and its interior is what stood in the page, trailing spaces aside, if and only if what is left does not end in two closing braces |
| SlotRows.InnerCloserIsMistaken | scripts/scrape-spells.ts:354-355 | Behind every row opener an empty inner template is enough: the row is one that lost its closer, and it loses the inner closer too |
| SlotRows.PlainOpener | scripts/scrape-spells.ts:343-343 | The opener every such row begins with is one, so that row exists |

## Left out

- PhoneRoomGuarantees.EveryoneKnowsTheTruth: speaks of open sockets; one the room has already closed hears nothing more and may keep an old view until its close event. PhonesStayRightIff, OneDeskKeepsPhonesRight and AcceptedDeskHearsIffPaired say when its two exceptions do not occur.
- PhoneRoom.Run: a list of actions is one step, as the storage gate of a Durable Object makes it; the digest is the only await at which other events cut in, and the object is not evicted while a request waits.
- PhoneRoomGuarantees.RelayRateIsBounded: counts from the last time the cache was emptied, because a hibernation or an unpairing forgets the rate clocks.
- SubmitGuarantees.CapHoldsIffFallbackPositive: a fallback that is no number at all is not modelled.
- SubmitGuarantees.QuotaIsNeverOverrun: bounds the counter by the larger of one and a payer's cap, because the INSERT arm has no guard.
- SubmitGuarantees.UnsweptPairIsOneReport: speaks of pairs none of whose rows was swept; after the seven-day TTL a retry is a new report by design.
- TelemetryFacts.RowAndFactsAreTrue: says whether a batch is an upgrade by the version it read; UpgradesAreRightIff says when that is the version it replaced.
- DisplayFit.FitIsIdempotent: assumes, for a fit into work areas, that each is non-empty and inside its display; without it the second fit can give up.
- DisplayFit.ClampIsTheLeastMove: integer coordinates, on which the rounding in the source is the identity.
- ShareStore.EveryShareFits: assumes that a stored envelope is accepted again; UpdateKeepsHistoryInStepIff says what holds without it.
- PageHistory.RowsAreTheChanges: rows carry the slot and both items; labels, markup, dates, the figures and the word shown for an empty slot are not modelled, so neither is an item that is itself called by that word.
- SlotRows.ParseSlotRows: what a row says (named parameters, markup cleaning, the instrument row) is a parameter.
- ShareId.NewId: a draw that never ends is one whose given buffers run out.
- Upsert.Tuples: the placeholders are numbers; the text of the statement is not modelled.
- ErrorLog.FlushedLinesStayIff: ends with the drain's next append; after it the size limit may truncate the file before any later batch, as it may for every line.
- ErrorLog.Sink.Write: lines are named by the order of the calls; time stamps, console output and the text of lines are not modelled.
- ErrorBudget.VerdictIsExact: fingerprints are given; how one is computed from a payload is not modelled, nor the ring of exemplars behind it.
- The 60-second config cache and the ten-minute gate of the sweep: their effect is any context and any timing.
- Spam score, duplicate-description probe, presigned uploads, log and metric lines: no state the properties speak of.
- The telemetry handler around the install row and the counters (size, schema and open checks): refusals that write nothing.
- Rate limits, routing, headers, content types and card decoding of the share service: refusals that change no row.
- A stored share record that is not one (the defensive read of foreign values): only this service writes the rows.
- Discord connection, settings sync and export: separate flows.
- Deflate, SHA-256 and randomness are parameters or absent; no claim about secrecy or timing is made.
- Consistency of the real key-value store, clock skew between containers beyond what the theorems name, and lost socket deliveries.
- The remaining scrape scripts, the page's HTML and styles, and the Electron wiring.
