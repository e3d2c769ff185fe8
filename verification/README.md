# Verified model of the monitoring platform's core algorithms

Dafny 4.11 model of the parts of the platform that carry real obligations: reading devices over Modbus, raising
alarms and keeping their table, replaying history with changed rules, and delivering events, commands and
requests. Each component has a specification written as functions over values; what the program does step by
step (loops over arrays, tables changed by guarded statements, objects with fields) is modelled as methods and
classes proved to compute those functions, and the promises are lemmas about them.

    dafny verify dfyconfig.toml

| files | component |
|---|---|
| Profiles, ReadPlan, PlanOptimality, PlanPlacement, PlanModes | read planner: greedy merge, its optimality, where each param is read, and which plan the options call for |
| Validation | profile validator as a pairwise specification |
| Codec, CodecInversion, CodecGrid, CodecRoundTrip | register codec, its inversion, which words survive, error bound |
| FrameDecoding, EndToEnd | simulated registers, frame decoding, the round trip through them |
| AlarmEngine, AlarmRuns, AlarmHistory | alarm engine, runs of it, and the history they stand for |
| AlarmTable, AlarmAgreement, AlarmAdoption, AlarmSystem | episode table, its agreement with the engine, handing devices over, whole runs with redelivery |
| ReplayCore, ReplayChronicle, ReplayPairing | replay: frames into episodes of two variants, what these episodes tell, and their pairing |
| ReplayLifecycle, ReplayPruning, ReplayPatches | replay: life of a run, pruning, patches and their report |
| LiveRing, LiveBus, LiveClient, WebClient | live events: ring, bus, a reconnecting client, the page's own client |
| ModbusFrames | Modbus TCP framing |
| FaultBook, ScenarioStand, StepVerdicts, ScenarioRunner | simulator faults, the stand, what its calls say about a step, and the scenario runner |
| TokenBucket, Outbox, OutboxRelay | rate limiter, outgoing queue and its relays |
| ModeSpans, CoPartitioning | mode strip, consumer assignment |
| Wrappers, Sequences, Arithmetic, RegisterTypes | options, sequences and sorting, numbers, registers |

## Results where the promise needs a condition

Some promises do not hold for every input of the code. The model keeps the code as it is, gives an input that
shows it, and proves the condition.

- A word survives decoding and encoding for every offset iff 10^-precision < |scale| or scale = -10^-precision
  (`WordsSurviveIffStepVisible`, `LostWord`). Under a param's own offset, if the scale is a whole number of kept
  digits, it survives iff not both the scale is one digit and the offset lies half way between two
  (`WordSurvivesIffNotHalfway`), so all words of the shipped integer params do (`WholeDigitsSurvive`); if the scale is
  finer than a digit, by as little as one part in the size of the range, some word is lost whatever the offset
  (`TooFineLosesAWord`).
- A profile the validator accepts has no plan iff its block limit is one register, it declares no blocks and some
  param needs two registers (`WhenThereIsNoPlan`, `AcceptedWithoutPlan`).
- A raise keeps engine and table in agreement iff its episode key is new, which rising frame times guarantee and
  equal ones do not (`RaiseAgreesIffKeyIsNew`, `EqualTimesDisagree`).
- Pruning keeps a finished run, however runs of one creation time are listed, iff fewer than `keep` other finished
  runs are as young or younger (`SurvivesIffFewRivals`). The run just concluded is therefore kept while creation
  times rise (`ConcludedRunIsKept`); they are readings of the database's clock, and once that is set back behind
  `keep` finished runs the result transaction deletes its own run (`ClockSetBackLosesTheResult`). The comment in
  replay.ts says the run always stays; the model follows the code.
- The live channel, two clients. A client that takes every frame, as section 9.2 of the HTML Standard has it, loses
  something in silence iff the connection is cut after the greeting and before the first frame it still owes,
  because the greeting already carries the newest id (`ConnectionLosesIffCutAfterHello`, `NoSilentLoss`, with the
  input `CutAfterHelloLoses`). The page's own client keeps its memory of ids over its connections and drops every
  frame whose id it remembers. What it is shown of a connection is exactly the rest (`PageShows`), so it loses
  something even over a connection never cut iff a resync is owed or an owed event has a remembered id
  (`PageLosesIff`). Three inputs: a demand to read again, which repeats the greeting's id (`RestartGoesUnnoticed`); the
  last event of a backfill, which repeats the same id (`LastEventIsLost`); and an event that had been announced by the
  greeting of an earlier connection, cut before the event came (`EarlierGreetingHidesAnEvent`). A page that remembers
  none of the owed events can only meet the first two (`FreshPageLosesIff`).
- The promised wait of the rate limiter is exact iff the stored refill time is not in the future
  (`RetryAfterIsExactIffClockAgrees`, `ClockBehindRefill`).
- Outgoing rows can be claimed by two relays at once, since the claim does not read the lock
  (`ClaimTakesNothingAway`); safety holds all the same (`OutboxSafety`).
- A mode span is empty iff the mode changes twice at one instant inside the window (`BuildModeSpans`,
  `TwoChangesAtOnceFlicker`).

Two bounds the code relies on are met by what surrounds it. The ring needs room for one event
(`NoRoomLosesTheLast`); the environment asks for at least 100. The pairing windows are right about a row iff no row
misleads them (`WindowsAreRightIffNotMisled`); a row that does, ending before it starts, never comes out of a replay
(`EpisodesAreSound`, `SummaryOfAReplay`), so only a foreign writer could produce one (`LateOpenEpisodeMisleads`).

## Model

| member | source | states |
|---|---|---|
| `Profiles.ListPlanEntries` | packages/device-profiles/src/frames/read-plan.ts:80-98 | the loop yields the profile's params as entries sorted by register type and start |
| `Profiles.EntriesAreOrdered` | packages/device-profiles/src/frames/read-plan.ts:80-98 | the entries are a rearrangement of all params, sorted, each as wide as its data type |
| `ReadPlan.MergeEntries` | packages/device-profiles/src/frames/read-plan.ts:120-157 | the draft loop computes the greedy grouping, and fails exactly when some param alone is wider than the limit |
| `ReadPlan.DraftsStep` | packages/device-profiles/src/frames/read-plan.ts:127-147 | one more entry extends the last draft exactly when type, gap and limit allow, else opens a new one |
| `ReadPlan.DeclaredBlocks` | packages/device-profiles/src/frames/read-plan.ts:182-219 | each param goes to the first declared block that holds it whole, the rest is merged; it fails exactly for an oversized block or a param too wide |
| `ReadPlan.UsedAddresses` | packages/device-profiles/src/frames/read-plan.ts:222-232 | the set holds exactly the registers some param needs |
| `ReadPlan.WastedInBlock` | packages/device-profiles/src/frames/read-plan.ts:234-242 | the counter is the number of registers of the block that no param needs |
| `ReadPlan.CountWasted` | packages/device-profiles/src/frames/read-plan.ts:279 | the total over all blocks |
| `ReadPlan.BuildDeviceReadPlan` | packages/device-profiles/src/frames/read-plan.ts:249-281 | blocks, mode and the three totals of the plan, and exactly when there is none |
| `PlanModes.NaiveAsksOneByOne` | packages/device-profiles/src/frames/read-plan.ts:163-176 | in naive mode there is one block for each param, listing it alone and exactly as long, whatever is declared |
| `PlanModes.DeclaredComeFirst` | packages/device-profiles/src/frames/read-plan.ts:182-219 | with blocks declared and not to be ignored, a param is listed by the first declared block that holds it whole, under its id, start and length, and by a merged block only if none does |
| `PlanModes.OtherwiseMerged` | packages/device-profiles/src/frames/read-plan.ts:261-270 | without declared blocks, or with them ignored, every block comes from the merge |
| `PlanModes.BlocksAreWithinLimit` | packages/device-profiles/src/frames/read-plan.ts:252-257 | in every mode no block is longer than the option's limit, else the profile's, and never than 125 |
| `PlanModes.MergedPlanIsBest` | packages/device-profiles/src/frames/read-plan.ts:120-157 | the merged plan reads every param within that limit and a gap that the options set before the profile, and no other such way has fewer requests |
| `PlanModes.MergedIdsDiffer` | packages/device-profiles/src/frames/read-plan.ts:149-156 | every merged block is named after its register type and first address, in decimal, and no two blocks of a merged plan have one name |
| `PlanModes.BlocksAreInOrder` | packages/device-profiles/src/frames/read-plan.ts:272 | holding before input registers, rising addresses, ids in order at one address |
| `PlanModes.RegistersAddUp` | packages/device-profiles/src/frames/read-plan.ts:274-281 | every register asked for is needed by some param or counted as wasted |
| `PlanOptimality.NoBlockServesTwoGroups` | packages/device-profiles/src/frames/read-plan.ts:120-157 | a block within the limit with no run of more than maxGap unneeded registers cannot hold the first params of two greedy blocks |
| `PlanOptimality.MergeIsMinimal` | packages/device-profiles/src/frames/read-plan.ts:120-157 | the greedy merge is optimal: no covering set of admissible blocks has fewer blocks |
| `PlanOptimality.MergeIsAdmissible` | packages/device-profiles/src/frames/read-plan.ts:120-157 | the greedy blocks are themselves such a set: they hold every param whole, within limit and gap |
| `PlanOptimality.ZeroGapWastesNothing` | packages/device-profiles/src/frames/read-plan.ts:244-281 | with maxGap 0 the plan reports no wasted register |
| `PlanPlacement.PlanPlacesEveryParamOnce` | packages/device-profiles/src/frames/read-plan.ts:163-219 | in all three modes every key is listed exactly once and the listing block holds that param whole |
| `PlanPlacement.MergedPlaces` | packages/device-profiles/src/frames/read-plan.ts:120-157 | merging loses and repeats no key |
| `PlanPlacement.KeptPlaces` | packages/device-profiles/src/frames/read-plan.ts:182-214 | so does handing params to declared blocks |
| `Validation.DuplicateSectionIssues` | packages/device-profiles/src/profiles/validate.ts:79-94 | one issue for each section whose key an earlier one has; none iff section keys are pairwise different |
| `Validation.ComparisonsAreAboutRegisters` | packages/device-profiles/src/profiles/validate.ts:206-210 | comparing ends means registers: blocks and params touch, and blocks overlap, iff they have one in common, and a param fits iff the block has all of its |
| `Validation.DuplicateParamIssues` | packages/device-profiles/src/profiles/validate.ts:97-114 | one issue for each param whose key an earlier one has, naming the section of the first; none iff param keys are unique across sections |
| `Validation.OverlapIssues` | packages/device-profiles/src/profiles/validate.ts:122-144 | the sweep against the furthest-reaching earlier entry reports exactly the entries that share a register with an earlier one; none iff no two params share a register |
| `Validation.FurthestDecides` | packages/device-profiles/src/profiles/validate.ts:126-141 | comparing with the furthest-reaching entry alone decides whether any earlier one overlaps |
| `Validation.BlockIssues` | packages/device-profiles/src/profiles/validate.ts:154-189 | no issue iff block ids are unique and no two blocks of a type share a register, in any input order |
| `Validation.OwnersAreFew` | packages/device-profiles/src/profiles/validate.ts:226-242 | blocks that share no register cannot hold one param twice, so the double-cover rule follows from the sweep |
| `Validation.DeclaredIssues` | packages/device-profiles/src/profiles/validate.ts:262-271 | the five block rules together hold iff the declared blocks partition the params admissibly |
| `Validation.SemanticIssues` | packages/device-profiles/src/profiles/validate.ts:255-274 | the validator reports nothing iff the profile meets the pairwise specification |
| `Codec.EncodeParam` | packages/modbus-codec/src/encode.ts:59-83 | an encoded value is either refused or as many words as its data type has |
| `Codec.DecodeBits` | packages/modbus-codec/src/decode.ts:41-49 | the loop computes the flag record of the word |
| `Codec.WordOfFlags` | packages/modbus-codec/src/encode.ts:32-43 | the loop computes the word with the bits of the raised flags |
| `CodecInversion.ByteOrderInverts` | packages/modbus-codec/src/byte-order.ts:18-55 | words to bytes and back is the identity, and bytes to words and back, for all four orders |
| `CodecInversion.WordsSurvive` | packages/modbus-codec/src/decode.ts:8-31 | every word pattern of an integer type decodes to a number in range that encodes to the same words |
| `CodecInversion.WholeSurvives` | packages/modbus-codec/src/encode.ts:53-83 | every number in range of an integer type is what its words decode to |
| `CodecInversion.EncodeDecodeError` | packages/modbus-codec/src/encode.ts:46-83 | decode(encode v) is within half a scale step plus half a unit of the last kept digit of v |
| `CodecInversion.DecodeEncodeSame` | packages/modbus-codec/src/decode.ts:56-66 | encode(decode w) is w whenever a scale step shows in the kept digits |
| `CodecInversion.WordsSurviveIffStepVisible` | packages/modbus-codec/src/decode.ts:34-66 | over all offsets every word survives iff 10^-precision < abs(scale) or scale is -10^-precision |
| `CodecInversion.LostWord` | packages/modbus-codec/src/decode.ts:34-66 | otherwise a concrete offset under which the zero word is lost |
| `CodecGrid.WordSurvivesIffNotHalfway` | packages/modbus-codec/src/decode.ts:56-66 | where the scale is a whole number of kept digits, each word survives under the param's own offset iff the scale is not zero and it is not the case that the scale is one digit and the offset half way between two |
| `CodecGrid.WholeDigitsSurvive` | packages/modbus-codec/src/decode.ts:56-66 | so every word survives where scale and offset have no digits beyond the precision |
| `CodecGrid.TooFineLosesAWord` | packages/modbus-codec/src/decode.ts:34-66 | where the digits of the whole range are fewer than its numbers, some word is lost under every offset |
| `CodecInversion.TruncDropsTheFraction` | packages/modbus-codec/src/decode.ts:42 | the word of the flags is the value without its fraction, towards zero |
| `CodecRoundTrip.WordHoldsFlags` | packages/modbus-codec/src/encode.ts:32-43 | a bit of the word is set iff some flag with that bit is raised, inversion included |
| `CodecRoundTrip.FlagsSurvive` | packages/modbus-codec/src/encode.ts:32-43 | flag records survive the word for distinct bits and keys and any pattern of inversion |
| `CodecRoundTrip.ValueSurvives` | packages/modbus-codec/src/encode.ts:59-83 | every encodable on-grid value, number, label or flags, decodes back to itself |
| `FrameDecoding.EncodeSimulationRegisters` | packages/device-profiles/src/simulation.ts:115-131 | the loop writes each param's words into its register table, refused values nothing |
| `FrameDecoding.ReadSimulatedBlock` | packages/device-profiles/src/simulation.ts:143-155 | a block reads the stored words and 0 where nothing is stored |
| `EndToEnd.FrameShowsRegisters` | packages/device-profiles/src/frames/decode-frame.ts:15-26 | a param found in a frame has the words its registers hold, whichever block is found first |
| `EndToEnd.PlansDecodeAlike` | packages/device-profiles/src/frames/decode-frame.ts:41-53 | every plan that can be built decodes to what the registers say, so merged, naive and declared plans decode alike |
| `EndToEnd.RegistersHoldValue` | packages/device-profiles/src/simulation.ts:115-131 | params do not disturb each other: each one's registers hold its own words, or zeros |
| `EndToEnd.ValuesComeBack` | packages/device-profiles/src/frames/decode-frame.ts:41-53 | end to end: for an accepted profile, laying out encodable values, reading the plan's blocks and decoding returns the values, in every mode |
| `EndToEnd.WhenThereIsNoPlan` | packages/device-profiles/src/frames/read-plan.ts:110-117 | an accepted profile has no plan under default options iff its limit is one register, no block is declared and some param needs two |
| `EndToEnd.AcceptedWithoutPlan` | packages/device-profiles/src/profiles/validate.ts:255-274 | such an accepted profile exists: the validator does not compare param widths with the limit |
| `AlarmEngine.RulesForMode` | packages/domain/src/alarms.ts:114-124 | the enabled rules of device and mode by metric, the later one winning |
| `AlarmEngine.SortedKeys` | packages/domain/src/alarms.ts:130 | the loop visits each key of state and rules once, in ascending order |
| `AlarmEngine.EvaluateDeviceAlarms` | packages/domain/src/alarms.ts:127-213 | the loop computes state and transitions of the step function, key by key |
| `AlarmRuns.CycleByMetric` | packages/domain/src/alarms.ts:127-213 | one cycle of a device is one independent step of each metric, visited or not |
| `AlarmRuns.DeviceRunsByMetric` | packages/domain/src/alarms.ts:127-213 | over any run each metric's state and share of the log are those of the metric alone |
| `AlarmRuns.TransitionsAlternate` | packages/domain/src/alarms.ts:95-111 | whatever rules, modes and clocks do, raises and clears of a metric strictly alternate, each clear repeats its raise's mode, threshold, severity, boundary and raise time, and the state is raised iff the log ends in a raise |
| `AlarmRuns.DeviceTransitionsAlternate` | packages/domain/src/alarms.ts:127-213 | the same of each metric's share of the device's own log |
| `AlarmRuns.RuleInForceIsTheLast` | packages/domain/src/alarms.ts:114-124 | the rule in force is the last enabled one of device, mode and metric, and there is one iff some rule watches the metric |
| `AlarmRuns.UncountedSampleChangesNothing` | packages/domain/src/alarms.ts:136-160 | with a rule in force and the mode unmuted, a cycle whose sample is missing, has no value or is bad leaves state and log of the metric as they were |
| `AlarmRuns.TransitionsCarrySamples` | packages/domain/src/alarms.ts:95-111 | every transition carries the value of the metric's sample in its cycle if that is good, stale or substituted, and none otherwise; a raise always has one, in an unmuted mode |
| `AlarmRuns.RaisesComeFromSamples` | packages/domain/src/alarms.ts:136-209 | over any run each raise goes back to a good, stale or substituted sample of a cycle of its time, device and mode |
| `AlarmRuns.UnwatchedMetricsAreIdle` | packages/domain/src/alarms.ts:139-155 | after a cycle in service or off, or without a rule, the metric is idle and a raised alarm was cleared in that cycle |
| `AlarmHistory.DetectorFinds` | packages/domain/src/alarms.ts:72-83 | under a valid rule the detector's branches are the two plain comparisons |
| `AlarmHistory.ZoneSeparates` | packages/domain/src/alarms.ts:86-92 | each value violates the boundary, lies in its hysteresis zone, both ends included, or is back to normal, and only one of these |
| `AlarmHistory.UnusableSamplesAreSkipped` | packages/domain/src/alarms.ts:136-160 | the run is that of the samples with a value that are good, stale or substituted, in their order, and of nothing else |
| `AlarmHistory.ExplanationIsUnique` | packages/domain/src/alarms.ts:162-209 | readings have at most one division into episodes by first full windows and first returns to normal |
| `AlarmHistory.EngineExplains` | packages/domain/src/alarms.ts:162-209 | they have one, and the engine's state and log are those it calls for |
| `AlarmHistory.EngineRefinesHistory` | packages/domain/src/alarms.ts:127-213 | the engine refines the declarative history of the samples that count by their quality: raised iff the last episode, first full debounce window to first reading inside the hysteresis zone, is open |
| `AlarmHistory.PendingMoves` | packages/domain/src/alarms.ts:179-188 | the counter is exactly the number of trailing readings violating the pending boundary |
| `AlarmTable.KeyIsInjective` | packages/domain/src/alarm-key.ts:20-21 | the episode key tells device, metric, mode and raise time apart even if the metric contains the separator |
| `AlarmTable.EpisodeTable.InsertAlarmEvents` | packages/db/src/store/alarms.ts:118-144 | inserts rows under unknown keys only, and counts them |
| `AlarmTable.EpisodeTable.ClearAlarmEvents` | packages/db/src/store/alarms.ts:147-166 | closes open rows only, and counts them |
| `AlarmTable.EpisodeTable.LoadOpenAlarmEpisodes` | packages/db/src/store/alarms.ts:183-213 | returns each open row of the named devices exactly once, oldest first |
| `AlarmTable.BatchIsInOrder` | services/stream-processor/src/ingest/raw-batch.service.ts:277-293 | writing all raises and then all clears of a batch equals writing the transitions in order, unless one is raised after being cleared under the same key |
| `AlarmTable.SettledChangesNothing` | packages/db/src/store/alarms.ts:113-166 | statements that have had their effect change nothing, one by one or as a batch |
| `AlarmTable.SettledStaysThrough` | packages/db/src/store/alarms.ts:113-166 | and no later statement undoes that |
| `AlarmTable.RowsComeFromTransitions` | packages/db/src/store/alarms.ts:113-166 | every row tells the raise it came from, and its closing the clear that closed it, field by field |
| `AlarmAgreement.SlotMoves` | packages/domain/src/alarms.ts:126-213 | one metric's step and its statement keep memory and table in agreement when the frame is newer than the slot's rows |
| `AlarmAgreement.RaiseAgreesIffKeyIsNew` | packages/db/src/store/alarms.ts:118-144 | a raise keeps the agreement iff its episode key is not taken |
| `AlarmSystem.HandleBatch` | services/stream-processor/src/ingest/raw-batch.service.ts:154-293 | evaluating a batch frame by frame and writing it computes the system's step |
| `AlarmSystem.TableAgreesWithEngine` | packages/db/src/store/alarms.ts:118-166 | over every run with rising frame times, redeliveries and hand-overs at will, the open rows are exactly the raised metrics, with equal mode, boundary, severity, threshold and raise time |
| `AlarmSystem.TableIsItsLog` | packages/db/src/store/alarms.ts:113-166 | the table is what the engine's transitions, each written once and in order, make of an empty one |
| `AlarmSystem.RedeliveryChangesNothing` | packages/db/src/store/alarms.ts:113-166 | writing any earlier transitions again, in any selection, at any moment, changes nothing |
| `AlarmSystem.RedeliveriesAreInvisible` | services/stream-processor/src/ingest/raw-batch.service.ts:86-96 | a run with redeliveries ends where the run without them ends |
| `AlarmSystem.EqualTimesDisagree` | packages/domain/src/alarm-key.ts:15-21 | without rising times it fails: raised, cleared and raised within one millisecond leaves a raised metric with its row closed |
| `AlarmAdoption.AdoptionRestores` | services/stream-processor/src/ingest/raw-batch.service.ts:128-152 | adoption brings back exactly the raised metrics of the former owner and leaves other devices alone |
| `AlarmAdoption.TakeOver` | services/stream-processor/src/ingest/raw-batch.service.ts:128-152 | loading and adopting together do so for every device and metric |
| `AlarmAdoption.HandOverAgrees` | services/stream-processor/src/ingest/raw-batch.service.ts:123-152 | handing devices over to a processor that loads their open episodes keeps memory and table in agreement |
| `ReplayPairing.WindowsSee` | packages/db/src/store/replay.ts:548-568 | what prefix maximum and suffix minimum say of a row, for any rows |
| `ReplayPairing.WindowsAreRightIffNotMisled` | packages/db/src/store/replay.ts:541-577 | for any rows the windows never miss an intersecting episode of the other variant, and their verdict on a row is right iff it has one or no row misleads them by ending before it starts |
| `ReplayPairing.WindowsFindPartners` | packages/db/src/store/replay.ts:541-577 | among episodes that do not end before they start none misleads: the windows find a pair iff an episode of the other variant and the same key has an intersecting closed interval |
| `ReplayPairing.SummaryIsBruteForce` | packages/db/src/store/replay.ts:531-593 | all four counts of a summary line are those of the brute-force definition |
| `ReplayPairing.SameVariantsNothingChanged` | packages/db/src/store/replay.ts:523-530 | identical variants give added = removed = 0 |
| `ReplayPairing.SwapExchangesAddedAndRemoved` | packages/db/src/store/replay.ts:541-547 | exchanging the variants exchanges the counts and exchanges added and removed |
| `ReplayPairing.IntersectIffTheyShareAnInstant` | packages/db/src/store/replay.ts:523-568 | intervals intersect iff they share an instant, an open one lasting to the end of the window |
| `ReplayPairing.LateOpenEpisodeMisleads` | packages/db/src/store/replay.ts:562-568 | a row that misleads them, an open episode starting after the window's end, which only a foreign writer could put there |
| `ReplayCore.KeyTextIsInjective` | services/stream-processor/src/replay/replay-core.ts:99-100 | the key of an open episode tells device, metric and raise time apart |
| `ReplayCore.VariantMemory.ApplyTransitions` | services/stream-processor/src/replay/replay-core.ts:130-172 | the loop opens an episode at each raise and closes it at its clear, and stops the run at one episode too many |
| `ReplayCore.VariantMemory.Evaluate` | services/stream-processor/src/replay/replay-core.ts:220-230 | one frame under one variant's rules, and stopped exactly when it would make one episode too many |
| `ReplayCore.Core.Frame` | services/stream-processor/src/replay/replay-core.ts:203-233 | ignored outside devices and window, rejected when not newer than the last accepted or not parsed, else evaluated under both variants |
| `ReplayCore.CreateReplayCore` | services/stream-processor/src/replay/replay-core.ts:102-128 | a replay begins with empty memories, and each variant's rules are grouped by selected device, in the order of the list |
| `ReplayChronicle.DevicesAreReplayed` | services/stream-processor/src/replay/replay-core.ts:220-230 | each device's alarms and share of a variant's log are those of the engine alone, over the device's accepted frames as cycles under the variant's rules for it, or none |
| `ReplayChronicle.RuledByItsOwn` | services/stream-processor/src/replay/replay-core.ts:103-124 | and with the rules grouped as at the start, a selected device's cycles have exactly its rules of the variant's list, in order |
| `ReplayChronicle.EpisodesTellTheLog` | services/stream-processor/src/replay/replay-core.ts:130-172 | a variant's episodes are one for each raise of its log, in order, and each clear of the log ends one |
| `ReplayChronicle.RowsOfADevice` | services/stream-processor/src/replay/replay-core.ts:130-233 | so a device's rows in a variant are one for each raise of that run, with its metric, mode and raise time, closed at the time of the clear that ends it iff the run has one |
| `ReplayCore.FrameEnters` | services/stream-processor/src/replay/replay-core.ts:130-172 | a frame keeps open episodes and raised metrics the same, episodes inside the window and their keys unique |
| `ReplayCore.EpisodesAreSound` | services/stream-processor/src/replay/replay-core.ts:174-181 | whatever is read: episodes are raised inside the window and cleared later inside it, none share a primary key, and the open ones are exactly the raised metrics |
| `ReplayCore.SummaryOfAReplay` | packages/db/src/store/replay.ts:523-593 | so the summary of what a replay writes is the brute-force one, without any condition |
| `ReplayLifecycle.ReplayStore.CreateReplayRun` | packages/db/src/store/replay.ts:108-130 | inserts unless an active run holds the unique index, and says whether it did |
| `ReplayLifecycle.ReplayStore.ClaimReplayRun` | packages/db/src/store/replay.ts:198-219 | takes the oldest queued run nobody holds, or none |
| `ReplayLifecycle.ReplayStore.UpdateReplayProgress` | packages/db/src/store/replay.ts:233-259 | writes counts, covered window and heartbeat iff the run is running and owned, keeping a known group |
| `ReplayLifecycle.ReplayStore.FailStaleReplayRuns` | packages/db/src/store/replay.ts:267-280 | fails exactly the running runs without a recent heartbeat, and counts them |
| `ReplayLifecycle.ReplayStore.FailExpiredQueuedReplayRuns` | packages/db/src/store/replay.ts:292-305 | fails exactly the queued runs created too long ago, and counts them |
| `ReplayLifecycle.ReplayStore.FailReplayRun` | packages/db/src/store/replay.ts:358-371 | fails an owned running run, else changes nothing |
| `ReplayLifecycle.ReplayStore.FinishReplayRun` | packages/db/src/store/replay.ts:321-346 | finishes an owned running run with its counts and covered window, else changes nothing |
| `ReplayLifecycle.ReplayStore.InsertReplayEpisodes` | packages/db/src/store/replay.ts:394-432 | adds episodes under unknown keys to an owned run that has not failed, and counts them |
| `ReplayLifecycle.ReplayStore.PruneReplayRuns` | packages/db/src/store/replay.ts:439-451 | deletes the finished runs past the first keep of a newest-first listing, with their episodes |
| `ReplayLifecycle.ReplayStore.Conclude` | services/stream-processor/src/replay/replay-runner.service.ts:549-567 | the result transaction: all three statements, or nothing when the run is not ours |
| `ReplayLifecycle.OneActiveRun` | packages/db/migrations/0014_replay.sql:35-36 | in every interleaving at most one run is queued or running, and committed episodes belong to done runs |
| `ReplayLifecycle.FinishedRunsNeverChange` | packages/db/src/store/replay.ts:261-371 | done and failed are final: such a run stays word for word with its episodes or is gone with all of them |
| `ReplayLifecycle.FailedRunTakesNoResult` | packages/db/src/store/replay.ts:388-432 | once a run has failed no instance can write its progress, failure, result or an episode, ever after |
| `ReplayLifecycle.StaleOwnerLosesRun` | packages/db/src/store/replay.ts:267-280 | the stale check takes the run from its owner iff the heartbeat is missing or too old |
| `ReplayLifecycle.HeartbeatKeepsRun` | packages/db/src/store/replay.ts:228-259 | a claim or heartbeat keeps the run its owner's through every stale check that looks back no further |
| `ReplayLifecycle.CreatedIffFree` | packages/db/src/store/replay.ts:108-131 | a run is created iff its id is new and none is queued or running, and then waits with nothing done |
| `ReplayLifecycle.RowsMoveByTheTable` | packages/db/src/store/replay.ts:108-455 | every statement moves exactly the rows it is meant for, and exactly the fields it is meant for |
| `ReplayLifecycle.QueuedRunWaits` | packages/db/src/store/replay.ts:287-318 | a queued run stays as it is until it is claimed or an expiry reaches back to its creation, whatever else goes on |
| `ReplayLifecycle.ExpiredQueueFreesTheStand` | packages/db/src/store/replay.ts:287-305 | once a queued run has expired a new one can be queued |
| `ReplayPruning.SurvivesIffFewRivals` | packages/db/src/store/replay.ts:434-451 | however the statement lists runs of one creation time, a finished run survives iff fewer than keep other finished runs are as young or younger |
| `ReplayPruning.DeletedByTheYounger` | packages/db/src/store/replay.ts:434-451 | and it is deleted in every listing when keep finished runs are younger |
| `ReplayPruning.PruneSparesActive` | packages/db/src/store/replay.ts:434-451 | pruning leaves active runs as they are |
| `ReplayPruning.ConcludedRunIsKept` | services/stream-processor/src/replay/replay-runner.service.ts:555-567 | when creation times follow creation order the concluded run survives its own pruning, done, with exactly the episodes handed over |
| `ReplayPruning.ClockSetBackLosesTheResult` | packages/db/migrations/0014_replay.sql:27 | creation times are readings of the database's clock: set back behind keep finished runs, for any keep, it makes the result transaction delete the run it concludes |
| `ReplayPatches.LayPatch` | services/api-gateway/src/replay/replay-calc.ts:205-229 | the inner loop patches each target once, and raises no issue iff the patch finds a rule, breaks none and changes one that matters |
| `ReplayPatches.ApplyPatches` | services/api-gateway/src/replay/replay-calc.ts:185-234 | accepted iff every patch fits the rules as the ones before left them, and then these are the rules |
| `ReplayPatches.SuccessMeans` | services/api-gateway/src/replay/replay-calc.ts:179-234 | for distinct patches: accepted iff each fits the snapshot on its own; same keys in the same order, each rule its baseline under its one patch, still valid |
| `ReplayPatches.SameRuleIsEquality` | services/api-gateway/src/replay/replay-calc.ts:151-183 | rules of one key are the same iff they agree in every field, so a change matters iff there is one and the rule is on before or after |
| `ReplayPatches.OneFieldIsValidIff` | services/api-gateway/src/replay/replay-calc.ts:185-240 | patching one field leaves a valid rule valid iff debounce stays within 1 to 60, hysteresis is not negative, or the bound stays on its side of the other and one remains |
| `ReplayPatches.DifferenceIsAPatch` | services/api-gateway/src/replay/replay-calc.ts:151-160 | round trip: patching by the difference of two rules gives the second, bounds taken away included; it is accepted iff the second is valid and the change matters |
| `ReplayPatches.PatchesCompose` | services/api-gateway/src/replay/replay-calc.ts:151-160 | patches compose, the later prevailing, so a patch laid twice does what it does once |
| `ReplayPatches.KeyTextIsInjective` | services/api-gateway/src/replay/replay-calc.ts:45 | the rule key tells device, metric and mode apart even if the metric contains a slash |
| `ReplayPatches.ChangedRulesOf` | services/api-gateway/src/replay/replay-calc.ts:280-299 | the loops compute the report, sorted by key |
| `ReplayPatches.ReportIsExact` | services/api-gateway/src/replay/replay-calc.ts:276-299 | the report is exactly the rules whose change matters |
| `ReplayPatches.ReportWitnessesPatches` | services/api-gateway/src/replay/replay-calc.ts:280-299 | after a success every patch is witnessed by an entry and every entry is a rule under the patch aimed at it |
| `LiveRing.Ring.Append` | services/api-gateway/src/events/live-ring.ts:52-60 | the ring stays the last min(capacity, seq) events of the log, the new event numbered next |
| `LiveRing.Ring.CurrentId` | services/api-gateway/src/events/live-ring.ts:47-50 | the epoch and the length of the log, with which a client comes back |
| `LiveRing.Ring.SinceId` | services/api-gateway/src/events/live-ring.ts:71-89 | answers from the ring what the log says |
| `LiveRing.SinceIsExactOrResync` | services/api-gateway/src/events/live-ring.ts:66-89 | the answer is exactly the log after n or a resync, the latter iff n is foreign, in the future or followed by an evicted event |
| `LiveRing.NoRoomLosesTheLast` | services/api-gateway/src/events/live-ring.ts:57-58 | why the capacity is bounded below: without room the last event would be lost in silence |
| `LiveBus.Bus.Publish` | services/api-gateway/src/events/live-bus.service.ts:72-77 | every open stream gets the event iff it is allowed it, and each has been sent exactly its burst and its share since |
| `LiveBus.Bus.Stream` | services/api-gateway/src/events/live-bus.service.ts:96-151 | a new stream is sent the greeting, then the allowed backfill or a resync, and follows from there |
| `LiveBus.Bus.SendBurst` | services/api-gateway/src/events/live-bus.service.ts:109-134 | the opening frames in order |
| `LiveBus.Bus.Close` | services/api-gateway/src/events/live-bus.service.ts:146-150 | closing one stream leaves the others as they were |
| `LiveBus.StreamCarriesTheAllowed` | services/api-gateway/src/events/live-bus.service.ts:97-103 | a stream carries only events its permissions and keys allow, and all allowed ones published while it is open |
| `LiveClient.SentAfterBackfill` | services/api-gateway/src/events/live-bus.service.ts:109-141 | backfill and live tail together are the share of everything after the last id |
| `LiveClient.ConnectionLosesIffCutAfterHello` | services/api-gateway/src/events/live-bus.service.ts:109-134 | a client that takes every frame, over one connection cut anywhere, loses something in silence iff only the greeting arrived while a resync or an allowed event was owed |
| `LiveClient.CutAfterHelloLoses` | services/api-gateway/src/events/live-bus.service.ts:109-134 | a client cut after the greeting stands past an event it never got, and the next connection does not send it |
| `LiveClient.NoSilentLoss` | services/api-gateway/src/events/live-ring.ts:30-33 | over any run of connections, restarts and evictions whose opening frames arrive whole or not at all, a client that takes every frame has exactly its share of the log since it last read everything |
| `LiveClient.GreetingSharesAnId` | services/api-gateway/src/events/live-bus.service.ts:109-130 | the greeting and the last backfilled event carry one id |
| `WebClient.EventStream.Handle` | apps/web/src/shared/sse/useEventStream.ts:68-97 | the page drops a frame whose id it remembers, else shows the event or reads again, and forgets all but the latest id at 4000 |
| `WebClient.ResyncIsDropped` | apps/web/src/shared/sse/useEventStream.ts:77-92 | the demand to read again carries the greeting's id, so the page drops it, whatever it has seen |
| `WebClient.PageShows` | apps/web/src/shared/sse/useEventStream.ts:68-97 | whatever the page remembers and wherever the connection is cut, it is shown exactly the owed events that came, pings and remembered ids left out |
| `WebClient.PageLosesIff` | apps/web/src/shared/sse/useEventStream.ts:68-97 | whatever the page remembers, it loses something over a connection never cut iff a resync is owed, or an owed event that is no ping has a remembered id and comes before the memory starts over |
| `WebClient.FreshPageLosesIff` | apps/web/src/shared/sse/useEventStream.ts:68-97 | a page that remembers none of the owed events loses something iff a resync is owed, or the last event of its backfill is one it may see, no ping, and comes while the greeting is remembered |
| `WebClient.CutTwiceHappens` | apps/web/src/shared/sse/useEventStream.ts:68-97 | a page that takes a greeting and one event of each of two connections remembers the greeting of an event it has not seen |
| `WebClient.EarlierGreetingHidesAnEvent` | apps/web/src/shared/sse/useEventStream.ts:53-77 | that page asks for the event again, is sent it and drops it, though neither a resync nor the end of a backfill is involved |
| `WebClient.LastEventIsLost` | apps/web/src/shared/sse/useEventStream.ts:77 | a page that has seen event 1 and reconnects after event 2 is never shown it |
| `WebClient.RestartGoesUnnoticed` | apps/web/src/shared/sse/useEventStream.ts:88-92 | a page that comes back after a restart of the gateway is never told to read everything again |
| `ModbusFrames.SplitFrames` | services/device-sim/src/modbus/frame.ts:56-75 | the loop computes the split of the whole buffer |
| `ModbusFrames.SplitConserves` | services/device-sim/src/modbus/frame.ts:56-75 | frames and rest give back the input, frames are whole, the rest is less than one; a broken stream breaks at a header that cannot be one |
| `ModbusFrames.FrameSizes` | services/device-sim/src/modbus/frame.ts:47-72 | every frame has 8 to 260 bytes and less than 260 bytes ever wait |
| `ModbusFrames.FramesSplitBack` | services/device-sim/src/modbus/frame.ts:56-75 | whole frames and the beginning of another split back into themselves |
| `ModbusFrames.SplitInTwo` | services/device-sim/src/modbus/frame.ts:56-75 | splitting a + b is splitting a and then its rest with b; broken stays broken |
| `ModbusFrames.ChunkingIsInvisible` | services/device-sim/src/modbus/line-server.ts:102-111 | a connection that splits chunk by chunk sees what the whole stream holds |
| `ModbusFrames.ReadIffReadFrame` | services/device-sim/src/modbus/frame.ts:78-109 | a frame is parsed without reading past its end and accepted as a read iff it is byte for byte that legal request |
| `ModbusFrames.ReadFrameIsRefused` | services/device-sim/src/modbus/frame.ts:90-99 | a whole read request that is not legal is refused for the first reason: function, quantity, address range |
| `ModbusFrames.WithHeader` | services/device-sim/src/modbus/frame.ts:112-120 | the buffer holds transaction, protocol 0, length, unit and PDU |
| `ModbusFrames.RegistersResponse` | services/device-sim/src/modbus/frame.ts:126-139 | the reply announces all words and carries all, or all but the last when garbled |
| `ModbusFrames.ExceptionResponse` | services/device-sim/src/modbus/frame.ts:142-143 | the function code with its high bit and the reason |
| `ModbusFrames.ReplyFrame` | services/device-sim/src/modbus/frame.ts:146-149 | the frame of the stand's decision |
| `ModbusFrames.RepliesSplitBack` | services/device-sim/src/modbus/frame.ts:111-149 | concatenated replies of at most 125 registers come apart into the same replies, however chunked |
| `ModbusFrames.ReplyCarriesWords` | services/device-sim/src/modbus/frame.ts:122-139 | a plain reply gives its words back and a garbled one is never taken for an answer |
| `FaultBook.Book.Add` | services/device-sim/src/chaos/faults.ts:53-75 | replaces the live fault of the same target and kind |
| `FaultBook.Book.Clear` | services/device-sim/src/chaos/faults.ts:76-80 | removes the live faults the filter matches, and counts them |
| `FaultBook.Book.List` | services/device-sim/src/chaos/faults.ts:81 | the live faults |
| `FaultBook.Book.On` | services/device-sim/src/chaos/faults.ts:86-89 | whether a live fault of that kind is on the target |
| `FaultBook.LazyBookIsExact` | services/device-sim/src/chaos/faults.ts:36-91 | laziness is invisible: reported are exactly the additions that still stand, each for as long as it was asked for, with its number, times and code; one per target and kind |
| `ScenarioRunner.FaultKeyIsInjective` | packages/scenarios/src/runner.ts:113 | the key of the clean-up list tells targets apart |
| `ScenarioRunner.Runner.RunInject` | packages/scenarios/src/runner.ts:122-130 | the fault is on the list even if the port fails, before or after taking effect |
| `ScenarioRunner.Runner.RunClear` | packages/scenarios/src/runner.ts:133-147 | a successful clear takes exactly the matching faults off the list, a failed one none |
| `ScenarioRunner.Runner.RunSimScenario` | packages/scenarios/src/runner.ts:150-164 | passes iff the port told of its faults, and then every one of them is put on the list |
| `ScenarioRunner.Runner.RunBaseline` | packages/scenarios/src/runner.ts:170-216 | passes with the average over exactly the asked number of different polled cycles that ended after the step began; fails only on a port failure, after the idle time without a new cycle, or at the deadline; looks come at the poll period |
| `ScenarioRunner.Runner.RunWaitFor` | packages/scenarios/src/runner.ts:219-240 | looks in vain, at the poll period, until the probe holds, and then passes; fails only on a port failure or at the end of its time |
| `ScenarioRunner.Runner.RunHold` | packages/scenarios/src/runner.ts:243-264 | passes iff the probe held at every look until the time was up; fails at the first look that is lost or does not hold, or at the deadline |
| `ScenarioRunner.Runner.CleanUp` | packages/scenarios/src/runner.ts:294-311 | asks to clear every listed fault, each on its own; the issues are those whose clear failed, and if there is none no listed fault is left |
| `ScenarioRunner.CleanUpSettles` | packages/scenarios/src/runner.ts:294-311 | after it every fault injected or told of has a matching clear after its last injection |
| `ScenarioRunner.Runner.TakeTurn` | packages/scenarios/src/runner.ts:381-394 | a step whose turn comes after the deadline fails without a call; any other is carried out, and its calls tell whether it passed |
| `ScenarioRunner.RunScenario` | packages/scenarios/src/runner.ts:317-440 | on every path the calls are the first facts, one stretch for each step that had its turn, and the clean-up; the stretches tell which steps passed; statuses are passed*, at most one failed, skipped*; every fault is cleared again; the run passes iff the first facts were read, all steps passed and the clean-up succeeded |
| `StepVerdicts.VerdictIsForced` | packages/scenarios/src/runner.ts:122-264 | the calls of a step leave no choice: they never tell both of a passed and of a failed one |
| `StepVerdicts.StatusesAreForced` | packages/scenarios/src/runner.ts:381-401 | so the statuses of a run follow from its calls |
| `StepVerdicts.AverageBalances` | packages/scenarios/src/runner.ts:195-196 | the stored average is the one value from which the durations, taken together, do not stray |
| `TokenBucket.CheckIsTransparent` | packages/db/src/store/rate-limit.ts:26-49 | a check of cost 0 leaves every later decision and stored state as it would have been |
| `TokenBucket.ChecksChangeNothing` | packages/db/src/store/rate-limit.ts:21-25 | inserting checks anywhere in a run changes no paying decision |
| `TokenBucket.CostsAddUp` | packages/db/src/store/rate-limit.ts:26-49 | a cost is so many tokens: paying it at once or in two parts at one moment leaves the same bucket |
| `TokenBucket.AtMostCapacityPlusRefill` | packages/db/src/store/rate-limit.ts:26-49 | in any window of length T at most capacity + T / refillMs takes are allowed |
| `TokenBucket.BoundIsReached` | packages/db/src/store/rate-limit.ts:26-49 | and that many can be |
| `TokenBucket.RetryAfterIsExactIffClockAgrees` | packages/db/src/store/rate-limit.ts:39-46 | the promised wait is exact for every later moment iff the bucket was not refilled in the future |
| `TokenBucket.ClockBehindRefill` | packages/db/src/store/rate-limit.ts:39-46 | a bucket refilled a second ahead: told to wait 100 ms, and denied again after them |
| `TokenBucket.RateLimitTable.ConsumeRateLimit` | packages/db/src/store/rate-limit.ts:55-90 | decides from the stored row and stores the outcome, or fails and changes nothing |
| `Outbox.DelayGrowsToAMinute` | services/api-gateway/src/commands/outbox-relay.service.ts:24 | the delay doubles from half a second, never shrinks, and is a minute from the eighth attempt on |
| `Outbox.OutboxTable.EnqueueOutbox` | packages/db/src/store/outbox.ts:26-46 | a revision of an aggregate is queued once |
| `Outbox.QueuedIffRevisionIsNew` | packages/db/src/store/outbox.ts:26-46 | and every other revision of it is queued, the rest of the queue untouched |
| `Outbox.RowsMoveByTheTable` | packages/db/src/store/outbox.ts:52-131 | every statement moves exactly the rows its relay holds for it, and exactly the fields it is meant for |
| `Outbox.ChoiceIsUnique` | packages/db/src/store/outbox.ts:52-82 | the claim leaves no freedom: due, not held and lowest is one set of rows |
| `Outbox.OutboxTable.ClaimOutbox` | packages/db/src/store/outbox.ts:52-82 | takes the lowest due rows nobody holds just now, at most limit, and counts the attempt |
| `Outbox.OutboxTable.MarkOutboxPublished` | packages/db/src/store/outbox.ts:85-97 | marks exactly the named rows |
| `Outbox.OutboxTable.MarkOutboxFailed` | packages/db/src/store/outbox.ts:100-113 | defers exactly the named rows |
| `Outbox.OutboxTable.MarkOutboxRejected` | packages/db/src/store/outbox.ts:119-131 | rejects exactly the named rows |
| `OutboxRelay.SortRows` | services/api-gateway/src/commands/outbox-relay.service.ts:78-89 | the loop separates messages from rows their schema refuses |
| `OutboxRelay.Relay.RejectBrokenRows` | services/api-gateway/src/commands/outbox-relay.service.ts:122-138 | two statements that may each fail, before or after they were done: broken rows are rejected from the third attempt, else deferred by a minute |
| `OutboxRelay.Relay.ClaimBatch` | services/api-gateway/src/commands/outbox-relay.service.ts:72-91 | claims, then rejects or defers broken rows; which moves it makes follows from which calls fail |
| `OutboxRelay.Relay.Tick` | services/api-gateway/src/commands/outbox-relay.service.ts:67-117 | for every way its calls may fail, the exact legal moves of the pass: unless the claim or a rejection failed, one send of exactly the accepted rows it claimed; they are marked and counted if send and mark succeed, else deferred by the delay of their attempts; it throws iff a failure is not made good, and ends idle |
| `OutboxRelay.Relay.SendMessages` | services/api-gateway/src/commands/outbox-relay.service.ts:94-112 | sends once; rows are marked at this time if that was done, and deferred iff the send or the mark failed |
| `Outbox.AlwaysSafe` | services/api-gateway/src/commands/outbox-relay.service.ts:67-138 | every interleaving of relays, one statement at a time, with failures before and after the fact and crashes, keeps the safety invariant |
| `Outbox.OutboxSafety` | services/api-gateway/src/commands/outbox-relay.service.ts:67-148 | published rows were sent; accepted messages are never rejected and due until published; broken rows are never sent and rejected only from the third attempt; never both |
| `Outbox.AttemptsAreClaims` | packages/db/src/store/outbox.ts:60-67 | the attempts of a row are exactly the claims that took it |
| `Outbox.RejectedAfterThreeClaims` | services/api-gateway/src/commands/outbox-relay.service.ts:26 | so a finally rejected row was claimed at least three times |
| `Outbox.PublishedStaysPublished` | packages/db/src/store/outbox.ts:48-113 | a late failure of another relay does not bring a published row back |
| `Outbox.ClaimTakesNothingAway` | packages/db/src/store/outbox.ts:60-67 | the claim does not ask for the lock, so two relays can hold and send the same row |
| `ModeSpans.LatestAfterSort` | packages/domain/src/mode-spans.ts:28-31 | the stable sort keeps which change is the latest at any instant, ties by input order |
| `ModeSpans.BuildModeSpans` | packages/domain/src/mode-spans.ts:23-53 | the spans tile the window, alternate, and show at every instant the mode of the last change; one is empty iff the mode changes twice at one instant |
| `ModeSpans.EveryInstantIsCovered` | packages/domain/src/mode-spans.ts:18-22 | each instant of the window lies in a span |
| `ModeSpans.TwoChangesAtOnceFlicker` | packages/domain/src/mode-spans.ts:37-48 | an input with such an empty span |
| `CoPartitioning.Assign` | packages/kafka/src/partitioning.ts:15-33 | every member gets, of every topic, exactly the partitions whose number falls to its place in the sorted list |
| `CoPartitioning.OneReaderEach` | packages/kafka/src/partitioning.ts:24-32 | a partition is read by exactly the member whose turn it is |
| `CoPartitioning.SameNumberSameReader` | packages/kafka/src/partitioning.ts:6-11 | equal numbers of different topics have the same reader |
| `CoPartitioning.DealtTurns` | packages/kafka/src/partitioning.ts:24-32 | a member's count is its number of turns among the first k numbers |
| `CoPartitioning.CountsDifferByOne` | packages/kafka/src/partitioning.ts:24-32 | for partitions 0..n-1 no two members differ by more than one |
| `CoPartitioning.ListedInAnyOrder` | packages/kafka/src/partitioning.ts:19-22 | however the cluster lists its partitions |
| `CoPartitioning.CoPartitioned` | packages/kafka/src/partitioning.ts:6-33 | for a nonempty list of members without repetition each partition has exactly one reader, the same for the same number in every topic, and any order of the same members gives every member the same partitions |
| `CoPartitioning.ReadsEachOnce` | packages/kafka/src/partitioning.ts:24-32 | no member reads a partition twice |

## Left out

- Kafka, Postgres, HTTP, NestJS and process start and stop: a statement is its guarded change of rows, a unique
  index an invariant. Row locks make the replay result transaction atomic for the run it concerns, so it is one step.
- Single precision arithmetic: float32 is a parameter, a pattern for a number and a number for a pattern; scale,
  offset, precision and thresholds are exact reals, and NaN does not occur.
- `localeCompare` and default string order: modelled as code point order.
- Numbers as enumeration keys: an entry carries its code as a number and the text the number prints as.
- ISO time stamps: a parameter of which only injectivity and the missing separator are used.
- SHA-1 identifiers of alarms.
- The zod schemas as code: their refinements are preconditions or part of the validity predicates.
- Wave, hash and random generators of the simulator: every value map is covered instead.
- Titles, issue texts and details of results: issues carry what they name instead.
- Frames returned from the dead letter queue, poisoned messages, retries and offsets of the ingest batch.
- Whether frames evaluated again after a restart give the same episodes: debounce counters are not stored, and the
  code does not promise it.
- Health tree, its aggregation and status streaks: would only add easy members.
- `diffRowsOf`, live windows and request windows of the replay report: would only add easy members.
- Parsing of raw frames and the spike filter: what they make of a frame is an input of the replay core; the window a
  run has covered is stored but not computed.
- Severity, boundary, threshold and values of replay episodes: an episode carries variant, device, metric, mode and its
  two times, which is what key, pairing and summary look at.
- Enabling and disabling relays and replays by environment, polling timers, throttled logging.
- The pages of the web client apart from how its stream treats frames; a Last-Event-ID is a pair or does not parse,
  fractional numbers in it are not modelled.
- WebClient.PageLosesIff: one connection at a time, opened with the id the page keeps, for any page; runs of
  connections are not followed, as each of them starts from such a page.
- Progress subscribers of the scenario runner: delivery may fail, contents are not modelled; probes are a parameter.
- ScenarioRunner.RunScenario: a simulator scenario whose reply is lost after it took effect leaves faults nobody was
  told of; the model keeps them apart (`untold`) and claims nothing about them, as the runner cannot clear them.
- ScenarioRunner.Runner.RunWaitFor: polling ends because the clock advances by at least the time slept and the poll
  period is at least a millisecond; how long a port call itself may take is not bounded.
- Outbox.OutboxSafety: a message accepted by the schema is due until published, but that some relay ever publishes it
  depends on fairness and on the broker, and is not claimed; the schema gives the same verdict to every relay.
- LiveClient.NoSilentLoss: permissions and subscription keys of a client stay the same over its connections.
- AlarmSystem.TableAgreesWithEngine: device codes contain no separator, as their schema demands; the table
  starts empty.
- CoPartitioning.Assign: topics of the subscription are distinct, and the encoding of assignments is left out.
