# Verification of the Meltem ventilation integration

A Dafny model of the parts of the integration that form a small distributed system: a client, a lossy link
and ventilation units that stage register writes until an APPLY. `dafny verify dfyconfig.toml` checks it.

| module | what it models |
|---|---|
| `LinearRegister`, `RtuFrame` | the CRC-16 frame check, as in the MODBUS over Serial Line Specification and Implementation Guide V1.02, section 6.2.2, over the algebra of any linear shift register |
| `LinkLog`, `LinkSafety`, `Transport` | the link policy shared by all units: a log of what happened on the link, what holds of every log the policy can write, and the policy as a class whose fields follow that log |
| `ModeCodec`, `UnitModel`, `ModeProtocol` | mode commands as register writes, the unit that stages and settles them, and what the client decodes afterwards |
| `StagedWrites` | the client's record of registers an interrupted command may have left staged |
| `ReadRange` | chunked capture of a register range with a fallback to single reads |
| `PollScheduler` | earliest-due-first polling, alternating with the warm-up queue |
| `NameSearch`, `Reconcile`, `RoomBuilder`, `SubentrySave`, `OptionsFlow` | a rescan: matching units by setup code and address, fresh keys and names, and a swap-safe save |
| `Models`, `Levels`, `IssueTotals`, `WriteJudgement`, `Overlay`, `RoomReads`, `WriteRuns`, `Coordinator` | the write path: freshness, levels, the judgement of writes by later readbacks, whole runs of writes, reads and judging passes, pending values, interrupted writes and the persisted issue count |
| `LevelOrigins`, `OriginRuns` | where the levels of a command come from, and when that is something read before an interrupted write |

How to read it:

- Clock values are reals. Where the original awaits, the environment acts: time passes, the request rate
  changes, the client is shut down, a telegram or read ends in any way, a caller is cancelled. Locks make
  everything between two awaits atomic.
- Python's `round` is rounding to the nearest integer with halves to even, on exact rationals.
- Reads and writes of a unit are numbered in the order they happen. The numbers replace the timestamps the
  original compares for equality only, and say which read delivered a value.
- `Transport.TransportPolicy.Valid` and `Coordinator.RoomCoordinator.Valid` hold before and after every
  method, whatever the environment did, so what follows from them holds in every run. The first keeps a legal
  log of `LinkLog`, the second a possible run of `WriteRuns`, each leading to the fields' values.

Where the code and what it promises differ:

- `custom_components/meltem_ventilation/modbus_client.py:694-696` takes a register whose write ended in an
  exception response for not staged. The transport retries a write whose reply was lost
  (`custom_components/meltem_ventilation/device/transport.py:208-211`), and the retry may be refused although the
  first telegram was stored; an error the gateway answers for a silent unit is an exception response too
  (`docs/dev/DEVELOPER.md:246-249`). `StagedWrites.RunSoundExactly` says exactly when the record is complete,
  `StagedWrites.SilentActivation` shows a run where it is not. It is complete as long as no write ends in an exception
  response to a retry or of the gateway (`StagedWrites.UnsuspectedSound`).
- `custom_components/meltem_ventilation/options_flow.py:172-173` says that a unit the gateway no longer reports
  loses its subentry. With units stored under distinct keys, names and setup codes, `OptionsFlow.Rescan` says
  exactly when that fails: some discovered address without a unit gets, as the first of its keys that no kept unit
  has, the key of the unit that is gone. The subentry is then that address's, under the old title
  (`OptionsFlow.DepartedSurvives`).
- The rescan matches twice. With a duplicated stored setup code the second pass can move a unit:
  `Reconcile.RematchExactly` says exactly when, `Reconcile.RematchDiffers` shows it.
- Outside the ten-minute retention a carried-over target readback can confirm a level write
  (`WriteRuns.CarriedReadbackConfirms`); inside it, it never does (`WriteRuns.ConfirmedInRun`).
- After an interrupted flow write, commands are refused until the levels were read again
  (`custom_components/meltem_ventilation/coordinator.py:148-162`). The check is made once and then
  forgotten (`custom_components/meltem_ventilation/coordinator.py:804-812`), and what was read since need not hold
  every level. So a command can be planned from measured airflow, or from a register, that was read before the
  interruption. `LevelOrigins.OldBalancedExactly`, `LevelOrigins.OldExtractExactly` and
  `LevelOrigins.OldKeptExactly` say exactly when, at any time, with the map fresh, only the airflow fresh or neither:
  for the two levels of a mode command and for the level that a command for one fan keeps. The contracts of
  `Coordinator.RoomCoordinator.SetOperationMode`, `Coordinator.RoomCoordinator.ClearPresetMode` and
  `Coordinator.RoomCoordinator.SetDirectionLevel` state it of every command they send, with the last interrupted flow
  write as the interruption. Levels still pending are those of a write accepted after it, so they are not old.
  `OriginRuns` shows runs of each kind: right after the levels were read again (`OriginRuns.OldBalancedPlanned`,
  `OriginRuns.OldExtractPlanned`, `OriginRuns.OldDirectionPlanned`, `OriginRuns.OldHiddenPlanned`) and after a later read
  failed (`OriginRuns.OldPlannedLater`, `OriginRuns.OldKeptLater`, `OriginRuns.OldTargetsPlanned`). Without an override,
  having read both groups since is enough, up to a carried-over exact target (`LevelOrigins.ReadSinceSuffices`).

## Model

| member | source | states |
|---|---|---|
| RtuFrame.BuildFrame | tools/mock_gateway.py:183-189 | the frame is the payload and its CRC, low byte first, for a register preset to all ones and fed eight shifts per byte |
| RtuFrame.KnownCheck | tools/mock_gateway.py:183-189 | the CRC of the message 02 07 is 0x1241 |
| RtuFrame.CheckFrame | tools/mock_gateway.py:838-839 | recompute-and-compare accepts exactly the frames whose whole CRC is zero |
| RtuFrame.ValidFrameCrc | tools/mock_gateway.py:395-397 | a frame of at least two bytes is valid iff the CRC over all of it is zero |
| RtuFrame.UndetectedExactly | tools/mock_gateway.py:183-189 | an error pattern passes unnoticed iff its own register, started at zero, stays zero, whatever the frame |
| RtuFrame.BurstDetected | tools/mock_gateway.py:183-189 | any error burst within 16 consecutive wire bits of a frame of any length is detected |
| RtuFrame.AdjacentBytesDetected | tools/mock_gateway.py:395-397 | changing any one byte or any two adjacent bytes, also across the payload and CRC border, always fails the check |
| RtuFrame.TruncationDetected | tools/mock_gateway.py:200-206 | a frame cut by its two check bytes passes iff both were zero |
| RtuFrame.OddErrorsDetected | tools/mock_gateway.py:183-189 | any odd number of flipped bits is detected |
| LinkSafety.NoReadDuringPause | custom_components/meltem_ventilation/device/transport.py:218-258 | in every run no read is sent to a unit within the recovery pause after a read of it ended in timeout, protocol error, lost connection or cancel |
| LinkSafety.NothingAfterShutdown | custom_components/meltem_ventilation/device/transport.py:240-242 | in every run no telegram is sent once the client was shut down |
| LinkSafety.SendsSpaced | custom_components/meltem_ventilation/device/transport.py:109-114 | every read send keeps the interval in force at that moment from every earlier read send, whatever units, retries or rate changes lie between |
| LinkSafety.RateBound | custom_components/meltem_ventilation/device/transport.py:81-114 | at a fixed rate r a time window of length W holds at most floor(W*r)+1 read sends |
| LinkSafety.SilencesCounted | custom_components/meltem_ventilation/device/transport.py:269-287 | every unanswered telegram is counted exactly once, before the next telegram is sent |
| LinkSafety.RecycleEarned | custom_components/meltem_ventilation/device/transport.py:285-299 | since the last counted answer, recycle or creation, a long enough time ago, at least the threshold of telegrams ended unanswered before a recycle, and none was answered |
| LinkSafety.RecycleBudget | custom_components/meltem_ventilation/device/transport.py:285-299 | over any run, recycles times the timeout threshold is at most the unanswered attempts |
| LinkSafety.RecycleTimeBudget | custom_components/meltem_ventilation/device/transport.py:285-299 | over any run, recycles times the quiet time is at most the elapsed time |
| LinkSafety.SamplesExact | custom_components/meltem_ventilation/device/transport.py:124-160 | at every diagnostics call the pruned, capped deque equals the last 10000 requests of the whole history filtered to the last 300 s |
| Transport.TransportPolicy.UpdateRequestRate | custom_components/meltem_ventilation/device/transport.py:81-86 | a positive rate sets its reciprocal as interval, any other is rejected and changes nothing |
| Transport.TransportPolicy.ReadDelayed | custom_components/meltem_ventilation/device/transport.py:104-107 | true exactly while the unit's recovery pause runs |
| Transport.TransportPolicy.PruneSamples | custom_components/meltem_ventilation/device/transport.py:148-153 | drops exactly the leading samples older than the window |
| Transport.TransportPolicy.Diagnostics | custom_components/meltem_ventilation/device/transport.py:124-146 | counts the samples of the window and the successes among them |
| Transport.TransportPolicy.WaitForReadSlot | custom_components/meltem_ventilation/device/transport.py:109-114 | ends only when the slot is open, the client closed or the caller cancelled, also while the rate changes |
| Transport.TransportPolicy.RecordRequest | custom_components/meltem_ventilation/device/transport.py:155-160 | prunes, then appends a sample to the capped deque, with the response time of a success |
| Transport.TransportPolicy.Finish | custom_components/meltem_ventilation/device/transport.py:243-268 | a telegram's end pauses its unit exactly for reads that may still be answered, adds the sample of a request that counts, and sets the completion time of a read |
| Transport.TransportPolicy.LinkAnswered | custom_components/meltem_ventilation/device/transport.py:279-283 | an answer resets the timeout count and starts a new quiet window |
| Transport.TransportPolicy.CountTimeout | custom_components/meltem_ventilation/device/transport.py:285-305 | counts a timeout, and recycles exactly when the threshold and the silence are both reached |
| Transport.TransportPolicy.EnsureReadAllowed | custom_components/meltem_ventilation/device/transport.py:218-224 | a read is denied exactly when the client is closed or the pause runs |
| Transport.TransportPolicy.BeforeRetry | custom_components/meltem_ventilation/device/transport.py:199-211 | a retry is given up only for a cancel or a read whose unit is paused, and waits out the delay after a lost connection |
| Transport.TransportPolicy.Attempt | custom_components/meltem_ventilation/device/transport.py:226-277 | sends at most one telegram; how it ended decides outcome, pause and link health: an answer resets the count, a silence is counted or recycles the link, anything else changes nothing |
| Transport.TransportPolicy.Run | custom_components/meltem_ventilation/device/transport.py:186-216 | one request sends at most two telegrams, the second only after a retryable end, and then always unless it was cancelled, the client closed or a read's unit is paused; an open client never answers closed on its own and a cancel is answered only for a cancel; only a successful non-bridge read lifts the unit's pause; other units' pauses stay |
| ModeCodec.Round | custom_components/meltem_ventilation/mode_codec.py:47-53 | the nearest integer, halves to the even one |
| ModeCodec.RawExactly | custom_components/meltem_ventilation/mode_codec.py:47-49 | the raw level is the nearest share of the largest airflow, from none of it to all of it |
| ModeCodec.ScalingRoundTrip | custom_components/meltem_ventilation/mode_codec.py:47-53 | scaling to 0..200 and back loses no m3/h for every airflow of every profile |
| ModeCodec.PresetMeans | custom_components/meltem_ventilation/mode_codec.py:176-192 | a status block shows a preset for a single fan iff the mode is unbalanced, that fan's opposite has target zero and it has an app preset; a quick mode by its code in manual mode |
| ModeCodec.ReadExactly | custom_components/meltem_ventilation/mode_codec.py:94-150 | what a status block changes: an override only says that it runs; otherwise mode, targets, preset and their fallbacks follow from the three registers and the measured airflow |
| UnitModel.Unit.Write | tools/_mock_model.py:488-501 | a refused write gets exception 2 and changes nothing; any other settles, stores, and commits on APPLY |
| UnitModel.Unit.Settle | tools/_mock_model.py:723-726 | a due pending commit becomes visible, otherwise nothing changes |
| UnitModel.Unit.Commit | tools/_mock_model.py:715-721 | what the set registers hold is shown at once, or after the settle time |
| UnitModel.StoreStages | tools/_mock_model.py:488-501 | writing a set register changes only that register and nothing the unit shows |
| UnitModel.StatusExactly | tools/_mock_model.py:728-765 | what APPLY makes of the set registers: the override if asked for, else the mode with its levels and the airflow they mean, which sensor control leaves as it is |
| UnitModel.ApplyActivates | tools/_mock_model.py:715-765 | after APPLY the unit shows exactly what its set registers hold, and the set registers stay |
| ModeProtocol.CommandHolds | custom_components/meltem_ventilation/mode_codec.py:56-91 | a command's writes leave the set registers holding exactly the base mode and override it asks for, over any earlier ones |
| ModeProtocol.CommandShows | custom_components/meltem_ventilation/modbus_client.py:599-659 | after a fully applied command the unit shows what all commands so far ask for |
| ModeProtocol.ReportsLastCommand | custom_components/meltem_ventilation/mode_codec.py:94-203 | after any commands the decoded settled status is intensive iff the last intensive-on was not followed by clear, off, level 0 or a quick preset; otherwise it is exactly the mode, preset and targets of the last base command |
| ModeProtocol.InitiallyManual | tools/_mock_model.py:249-263 | a new unit starts in balanced manual mode at raw level 80 without an override |
| StagedWrites.SoundExactly | custom_components/meltem_ventilation/modbus_client.py:676-718 | from a complete record a command leaves a complete record iff its last write did not end in an exception response after one of its telegrams had been stored |
| StagedWrites.RunSoundExactly | custom_components/meltem_ventilation/modbus_client.py:676-718 | in every run the record stays complete throughout iff no command was overlooked in that way |
| StagedWrites.UnsuspectedSound | custom_components/meltem_ventilation/device/transport.py:186-216 | in every run without a write that ended in an exception response to a retry or of the gateway, the record stays complete |
| StagedWrites.WarningCovers | custom_components/meltem_ventilation/modbus_client.py:702-711 | with a complete record every register an APPLY activates was written by the command or is named by the warning before it |
| StagedWrites.SilentActivation | custom_components/meltem_ventilation/modbus_client.py:693-697 | a lost reply and a refused retry let a later APPLY activate a register without a warning |
| StagedWrites.ModeClient.WriteModeRegisters | custom_components/meltem_ventilation/modbus_client.py:676-718 | over the real retry policy, the telegrams carry the command's addresses and values in order and APPLY last, the record and the registers still waiting for an APPLY follow the command's telegrams, and the warning names what was staged and is not written again |
| StagedWrites.UnactivatedCovers | tools/_mock_model.py:488-501 | every set register of a unit whose value its last APPLY did not take is among those still waiting, whatever a command writes and whichever of its telegrams the unit stores |
| ReadRange.BlockAgrees | tools/_mock_model.py:467-486 | a block read answers for each register what a single read of it answers |
| ReadRange.BlockExactly | tools/_mock_model.py:467-486 | and a block is answered iff it has at most 125 registers and each of them is answered alone |
| ReadRange.SingleExactly | tools/_mock_model.py:467-486 | a register is answered alone iff it exists, is not refused, was written if it is a set register and is not held back by the warm-up |
| ReadRange.ReadAll | tools/capture_setting_family.py:111-127 | every address of the range gets exactly its single-read result, from at most one answered read, and every chunk of 120 that is answered as a block is read as one |
| PollScheduler.Interval | custom_components/meltem_ventilation/polling.py:127-141 | the interval is the job's own; for a job that never read at most a minute or the time polling has run; for a silent unit at least a minute; and no other value |
| PollScheduler.Scheduler.SelectDueJob | custom_components/meltem_ventilation/polling.py:173-180 | the job due the longest, the first of several, or none if none is due |
| PollScheduler.Scheduler.SelectPollJob | custom_components/meltem_ventilation/coordinator.py:934-950 | nothing while reads are spaced; otherwise the warm-up queue and due jobs take turns |
| PollScheduler.Scheduler.Reschedule | custom_components/meltem_ventilation/coordinator.py:885-900 | a selected job moves on by its interval before the read, and again after a warm-up or empty read |
| PollScheduler.Scheduler.Tick | custom_components/meltem_ventilation/coordinator.py:867-900 | a tick is one round of the schedule, or changes nothing but the first filling of the queue when the spacing blocks it or nothing is ready; the job is due again an interval later, counted from the end of a warm-up or empty read |
| PollScheduler.OvertakenOnce | custom_components/meltem_ventilation/coordinator.py:934-950 | a due job outside the warm-up queue is overtaken by each other job at most once |
| PollScheduler.BoundedBypass | custom_components/meltem_ventilation/polling.py:173-180 | so it runs after at most n-1 other reads, also during the warm-up |
| PollScheduler.WarmupInOrder | custom_components/meltem_ventilation/coordinator.py:937-947 | the warm-up takes the queue in order, each job once |
| PollScheduler.NoTwoRegularReads | custom_components/meltem_ventilation/coordinator.py:941-949 | during the warm-up two regular reads never run in a row |
| PollScheduler.WarmupDrains | custom_components/meltem_ventilation/coordinator.py:941-949 | a queue of k jobs is empty after 2k reads |
| NameSearch.Search | custom_components/meltem_ventilation/flow_helpers.py:443-447 | the suffix search ends, with the base if it is free and else with its first free numbering |
| NameSearch.NumberedInjective | custom_components/meltem_ventilation/flow_helpers.py:230-235 | different numbers give different names, which is why the search ends |
| Reconcile.MatchExistingRooms | custom_components/meltem_ventilation/flow_helpers.py:361-399 | an address gets the unit with its unique setup code, or else its own stored unit if neither was matched by code |
| Reconcile.AssignedOnce | custom_components/meltem_ventilation/flow_helpers.py:386-399 | an address gets at most one stored unit and a stored unit at most one address |
| Reconcile.RematchExactly | custom_components/meltem_ventilation/options_flow.py:267-271 | matching the matched rooms again changes nothing iff no probed code sits, after the first pass, only at another address |
| Reconcile.RematchSame | custom_components/meltem_ventilation/flow_helpers.py:361-415 | with distinct stored codes the second pass returns the same map |
| Reconcile.RematchDiffers | custom_components/meltem_ventilation/flow_helpers.py:370-384 | with a duplicated stored code the second pass can move a unit |
| RoomBuilder.BuildRoom | custom_components/meltem_ventilation/flow_helpers.py:436-463 | a kept unit keeps its key and name, a new one gets the first free ones |
| RoomBuilder.BuildRooms | custom_components/meltem_ventilation/flow_helpers.py:402-481 | keys are pairwise distinct; with distinct stored keys and names every kept unit keeps both, names are distinct too, and every new unit gets the first key of its address that no kept unit has; a unit whose probe gave a code has that code, any other keeps its unit's stored code unless some probe reports it, and has none without a unit |
| RoomBuilder.CandidatesApart | custom_components/meltem_ventilation/flow_helpers.py:440-447 | the keys that new units at different addresses can get are different, however they are numbered |
| RoomBuilder.ResultingCodesDistinct | custom_components/meltem_ventilation/flow_helpers.py:454-492 | with distinct probed and distinct stored codes the resulting codes are distinct |
| SubentrySave.ConfigEntry.Release | custom_components/meltem_ventilation/options_flow.py:186-188 | kept units with a new address give up their unique ID first, those already at theirs keep it, and nothing else changes |
| SubentrySave.ConfigEntry.StoreRooms | custom_components/meltem_ventilation/options_flow.py:189-207 | every store step finds its unique ID free, for any permutation of addresses |
| SubentrySave.ConfigEntry.SaveProfiles | custom_components/meltem_ventilation/options_flow.py:176-207 | unique IDs stay distinct at every step; afterwards there is exactly one subentry per room, a stored key's in its original subentry |
| OptionsFlow.Rescan | custom_components/meltem_ventilation/options_flow.py:162-207 | a whole rescan leaves exactly one subentry per discovered address; with distinct stored keys, names and codes each kept unit is in its own one with its key and title, every subentry has the profile selected for its address and the code that was probed or stored for its unit, and any other unit's subentry stays iff a new address gets its key |
| OptionsFlow.DepartedSurvives | custom_components/meltem_ventilation/options_flow.py:172-185 | a rescan that no longer finds a unit can leave its subentry, for another address and under the old title |
| Levels.LevelsExactly | custom_components/meltem_ventilation/levels.py:55-111 | what a unit is taken to report, case by case: the measured airflow without a fresh map, the zero, one or two targets of its mode with the exact target first, and fresh airflow where a target is unknown or hidden |
| Levels.ModeWriteExactly | custom_components/meltem_ventilation/levels.py:114-130 | a mode command has a balanced level iff one is known anywhere, and each level is the effective one, else the target, else measured airflow |
| Levels.PlanExactly | custom_components/meltem_ventilation/levels.py:133-183 | a directional command is refused iff it would stop its fan while the other's level is unknown; it becomes one balanced level iff the unit is off or pending levels are zero, it leaves sensor control, or its level and the kept one are alike; otherwise the other fan stays at the kept level |
| Levels.PlanKeepsOpposite | custom_components/meltem_ventilation/levels.py:133-183 | a directional command sets its direction exactly and moves a known opposite fan by at most the stated tolerance, unless the unit is off or in sensor control, or pending levels would turn it off |
| IssueTotals.SumUpdate | custom_components/meltem_ventilation/cumulative_diagnostics.py:110-117 | replacing one counter replaces its share of the total |
| IssueTotals.CountAfterIssue | custom_components/meltem_ventilation/cumulative_diagnostics.py:140-149 | a problematic outcome adds one to the counter of its room, category and command and to no other |
| IssueTotals.TotalAfterIssue | custom_components/meltem_ventilation/cumulative_diagnostics.py:110-117 | and one to the total |
| IssueTotals.CumulativeDiagnostics.RecordWriteIssue | custom_components/meltem_ventilation/cumulative_diagnostics.py:140-149 | the nested counters become those with one more issue, missing levels being created, and stay for any other outcome |
| WriteJudgement.CounterExactly | custom_components/meltem_ventilation/cumulative_diagnostics.py:140-149 | over any issues of a room, each counter has grown by exactly the issues reported for its command and category, and no counter of another room has |
| WriteJudgement.ConfirmedExactly | custom_components/meltem_ventilation/write_confirmation.py:354-382 | a write is confirmed iff it is open, its group's last read succeeded and is not its baseline, no override hides it, and the value matches |
| WriteJudgement.ReadbackMeans | custom_components/meltem_ventilation/write_confirmation.py:386-406 | the readback of a level write is the exact target in a balanced mode and both targets in the unbalanced one; of any other write, the value it wrote to |
| WriteJudgement.MismatchExactly | custom_components/meltem_ventilation/write_confirmation.py:354-383 | a judging pass makes a write mismatched iff it is open, its group's last read succeeded and is not its baseline, no override hides it, and the value read is known and does not match; that value is recorded |
| WriteJudgement.UnconfirmedExactly | custom_components/meltem_ventilation/write_confirmation.py:365-368 | it makes a write unconfirmed iff it was pending and its group's last read, not its baseline, failed |
| WriteJudgement.UnverifiableExactly | custom_components/meltem_ventilation/write_confirmation.py:370-374 | it makes a write unverifiable iff it is open, its group's last read succeeded and is not its baseline, and an override hides what was written |
| WriteJudgement.IssueExactly | custom_components/meltem_ventilation/write_confirmation.py:243-273 | it reports a write iff that was not reported before and is then failed, mismatched or unconfirmed, or pending for more than 30 s, which is reported as unconfirmed |
| WriteJudgement.ConfirmedLevelsNear | custom_components/meltem_ventilation/write_confirmation.py:410-413 | a confirmed level write shows both fans within 2 m3/h |
| WriteJudgement.PassReports | custom_components/meltem_ventilation/write_confirmation.py:243-273 | after a judging pass every unhealthy or overdue pending write has been reported exactly once |
| WriteJudgement.JudgedMayBecome | custom_components/meltem_ventilation/write_confirmation.py:243-273 | a pass reports a write iff it was not reported before and is now unhealthy or overdue, and never changes a final outcome |
| WriteJudgement.PutKeepsCount | custom_components/meltem_ventilation/write_confirmation.py:209-233 | each recorded write is reported at most once, and is marked counted iff it was |
| WriteJudgement.RecordKeepsOneOpen | custom_components/meltem_ventilation/write_confirmation.py:102-117 | after superseding, a new base-mode write is the only open one |
| WriteJudgement.ReplacedExactly | custom_components/meltem_ventilation/write_confirmation.py:102-117 | a recorded base-mode write supersedes exactly the open writes under the two other base-mode keys, and changes no other write |
| WriteJudgement.CarriesExactly | custom_components/meltem_ventilation/write_confirmation.py:329-351 | the exact target known before stays iff mode and coarse target are unchanged, no preset runs, and fresh airflow has not left it for the coarse target, having reached it first while a write settles |
| WriteJudgement.WriteConfirmations.RecordPending | custom_components/meltem_ventilation/write_confirmation.py:80-100 | records a fresh pending write with its baseline and forgets convergence for a level write |
| WriteJudgement.WriteConfirmations.Supersede | custom_components/meltem_ventilation/write_confirmation.py:102-117 | exactly the other open base-mode writes become superseded |
| WriteJudgement.WriteConfirmations.SetStatus | custom_components/meltem_ventilation/write_confirmation.py:209-233 | changes one outcome, and reports it iff it is its write's first unhealthy one |
| WriteJudgement.WriteConfirmations.MarkUnconfirmed | custom_components/meltem_ventilation/write_confirmation.py:235-241 | only a pending write becomes unconfirmed |
| WriteJudgement.WriteConfirmations.Confirm | custom_components/meltem_ventilation/write_confirmation.py:243-273 | judges every write once and says whether any changed; the persisted counters grow by exactly the issues reported |
| WriteJudgement.WriteConfirmations.PrepareBalancedTargetReadback | custom_components/meltem_ventilation/write_confirmation.py:162-203 | register 41121 is read iff the map is readable and a recent level write is open; otherwise the old readback is carried on exactly while nothing speaks against it |
| Overlay.OptimisticOverlay.Active | custom_components/meltem_ventilation/overlay.py:84-119 | a pending value shows until it expires or it is matched and any one of its groups was read since |
| Overlay.OptimisticOverlay.SettleIfRead | custom_components/meltem_ventilation/overlay.py:92-106 | it is dropped exactly when it is matched and any one of its groups was read since |
| RoomReads.ConfirmedByLaterRead | custom_components/meltem_ventilation/write_confirmation.py:354-382 | with reads and writes in order, a write is confirmed only by a successful read made after it that shows a matching value; inside the retention a balanced level write only by a read of register 41121 made after it |
| RoomReads.MatchedMeans | custom_components/meltem_ventilation/write_confirmation.py:385-413 | a matching value is equal to the written one; for levels, both fans are within 2 m3/h of the exact target or of both targets |
| RoomReads.AnsweredExactly | custom_components/meltem_ventilation/modbus_client.py:462-510 | what an answered read brings: its airflow, its status map or the map's absence, and the health of each group; a silent unit's map is not asked for and fails too |
| RoomReads.ReadKeepsTrace | custom_components/meltem_ventilation/mode_codec.py:107-149 | every read resets, hides or leaves unread a readback older than an open level write |
| RoomReads.SoundRead | custom_components/meltem_ventilation/modbus_client.py:462-510 | whatever groups of a read succeed, fail or are skipped, reads, writes and targets stay in order |
| RoomReads.SoundRecorded | custom_components/meltem_ventilation/coordinator.py:1336-1344 | recording an accepted or interrupted write keeps one open base-mode write and the order |
| RoomReads.SoundFinished | custom_components/meltem_ventilation/coordinator.py:1316-1324 | recording a failed write does too |
| RoomReads.SoundJudged | custom_components/meltem_ventilation/coordinator.py:1525-1541 | a judging pass does too |
| RoomReads.ReportedAfterInterruption | custom_components/meltem_ventilation/coordinator.py:148-162 | levels count as reported only from a map, or without a fresh map an airflow, read after the interruption |
| LevelOrigins.SameModeLevels | custom_components/meltem_ventilation/levels.py:114-130 | the levels followed with their origins, pending or reported, are the ones a mode command is planned with |
| LevelOrigins.SameDirectionPlan | custom_components/meltem_ventilation/levels.py:133-183 | a directional plan, from pending or reported levels, is determined by its own level and the one level it keeps, which is followed with its origin |
| LevelOrigins.OtherwiseIndependent | custom_components/meltem_ventilation/levels.py:114-130 | a level whose origin is not the last airflow read is planned the same whatever that read had measured |
| LevelOrigins.OldBalancedExactly | custom_components/meltem_ventilation/levels.py:95-130 | in every state, the balanced level of a mode command is from airflow, or from a register, read before a given write iff no levels are pending and a condition on mode, targets and freshness holds |
| LevelOrigins.OldExtractExactly | custom_components/meltem_ventilation/levels.py:95-130 | the same for the extract level, whose fallbacks differ |
| LevelOrigins.OldKeptExactly | custom_components/meltem_ventilation/levels.py:133-183 | the same for the level a directional command keeps, in both directions, also when it is averaged with the other one |
| LevelOrigins.ReadSinceSuffices | custom_components/meltem_ventilation/mode_codec.py:107-149 | unless an override hides the base mode, an old airflow level needs airflow not read since, and an old register level a map not read since or an older exact target |
| OriginRuns.BroughtInRun | custom_components/meltem_ventilation/mode_codec.py:107-149 | in every run a level with an airflow or status map origin was brought by the read that the origin names |
| OriginRuns.ReportedInRun | custom_components/meltem_ventilation/coordinator.py:148-162 | in every run with an interrupted write, levels count as reported again only once the map, or without a fresh map the airflow, was read after it |
| OriginRuns.OldInRun | custom_components/meltem_ventilation/coordinator.py:804-812 | in every run with an interrupted write, at any time after it and whatever was read since, the conditions for old levels are exact |
| OriginRuns.OldBalancedPlanned | custom_components/meltem_ventilation/coordinator.py:1115-1163 | a mode command after a refused airflow read and a preset in the map takes its balanced level from before the interruption |
| OriginRuns.OldExtractPlanned | custom_components/meltem_ventilation/coordinator.py:1115-1163 | so does its extract level when the map's extract target is out of range |
| OriginRuns.OldDirectionPlanned | custom_components/meltem_ventilation/coordinator.py:1089-1113 | so does the fan that a directional command keeps |
| OriginRuns.OldHiddenPlanned | custom_components/meltem_ventilation/mode_codec.py:107-109 | and behind an intensive override so does a mode command although map and airflow were both read since |
| OriginRuns.OldPlannedLater | custom_components/meltem_ventilation/coordinator.py:804-812 | after the levels counted as reported and a later map read failed, a mode command takes airflow from before the interruption |
| OriginRuns.OldKeptLater | custom_components/meltem_ventilation/coordinator.py:804-812 | so does the fan that a directional command keeps, when the airflow reads were skipped |
| OriginRuns.OldTargetsPlanned | custom_components/meltem_ventilation/coordinator.py:148-162 | when the levels were reported by the airflow alone, a later unbalanced command can take both targets from the map before the interruption |
| WriteRuns.RunInvariant | custom_components/meltem_ventilation/coordinator.py:1270-1365 | in every run of writes, reads and judging passes at most one base-mode write is open, reads and writes stay in order, and each report is for another write |
| WriteRuns.ConfirmedInRun | custom_components/meltem_ventilation/write_confirmation.py:354-413 | in every run a write becomes confirmed only in a judging pass, backed by a successful read made after it that shows a matching value with no override hiding it; a recent balanced level write by a read of register 41121 made after it |
| WriteRuns.ConfirmationHappens | custom_components/meltem_ventilation/write_confirmation.py:354-382 | such runs exist: an accepted off command is confirmed by the read after it |
| WriteRuns.CarriedReadbackConfirms | custom_components/meltem_ventilation/write_confirmation.py:174-203 | a run in which, outside the retention, a readback older than the level write confirms it |
| WriteRuns.OutcomeInRun | custom_components/meltem_ventilation/write_confirmation.py:243-413 | in every run, what a judging pass makes of a write is decided exactly by the last read of its group made after it: confirmed or mismatched by a matching or differing value, unverifiable behind an override, unconfirmed by a failed read if pending, else unchanged; whatever it leaves failed, mismatched, unconfirmed or overdue has then been reported |
| WriteRuns.FinalInRun | custom_components/meltem_ventilation/write_confirmation.py:39-47 | in every run a final outcome changes only by a new write under the same key |
| WriteRuns.IssuesExactly | custom_components/meltem_ventilation/write_confirmation.py:209-273 | over every run an issue is reported for exactly the writes that became failed, mismatched or unconfirmed or that a judging pass left pending past the timeout, and the total is their number |
| Coordinator.RoomCoordinator.PollAirflow | custom_components/meltem_ventilation/coordinator.py:1560-1620 | a poll brings what its read outcome brings, with the exact target read, carried on or left as the waiting writes and the airflow decide, judges every write by it, and drops exactly the pending values that it matches |
| Coordinator.RoomCoordinator.ReadBalancedTargetIfPending | custom_components/meltem_ventilation/coordinator.py:1440-1480 | the exact target is read now iff the map is readable and a recent level write is open, else carried on iff nothing speaks against it, and nothing else changes |
| Coordinator.RoomCoordinator.RecordAccepted | custom_components/meltem_ventilation/coordinator.py:1336-1347 | an accepted write supersedes exactly the open base-mode writes it replaces |
| Coordinator.RoomCoordinator.Write | custom_components/meltem_ventilation/coordinator.py:1270-1365 | accepted, failed and cancelled writes get their outcome, an accepted one whose caller is cancelled before the readback stays pending, the open writes they replace are superseded and no longer shown, accepted levels are shown for 15 s, failed ones are not, final outcomes under other keys stay, a level and a preset are never pending together, and the run of `WriteRuns` goes on |
| Coordinator.RoomCoordinator.TotalFollows | custom_components/meltem_ventilation/coordinator.py:1556-1558 | the persisted total has grown by exactly the issues that the coordinator's run reports, over any counters it started from |
| Coordinator.RoomCoordinator.AfterInterrupted | custom_components/meltem_ventilation/coordinator.py:1298-1315 | a cancelled flow write is unconfirmed, clears every pending value and makes the airflow unknown |
| Coordinator.RoomCoordinator.FlowWriteUncertain | custom_components/meltem_ventilation/coordinator.py:804-812 | the airflow stays unknown exactly until the status map, or without a fresh map the airflow, was read since |
| Coordinator.RoomCoordinator.ResolveLevels | custom_components/meltem_ventilation/coordinator.py:793-802 | unknown after an interruption, otherwise the pending levels until they expire or a later read matches them, else the reported ones |
| Coordinator.RoomCoordinator.SetDirectionLevel | custom_components/meltem_ventilation/coordinator.py:1089-1113 | refused, changing no write, iff the airflow is unknown, or it would stop its fan while the other's level is unknown; otherwise sent, as planned from the pending levels until they expire, else from the reported ones; the level it keeps is from before the last interruption iff the condition of `LevelOrigins` holds |
| Coordinator.RoomCoordinator.SetOperationMode | custom_components/meltem_ventilation/coordinator.py:1115-1163 | sent iff the airflow is not unknown after an interruption, the request is not to leave sensor control in a fresh direct mode, and a manual or unbalanced mode has some level known; refused otherwise, changing no write. It is sent with the levels on show, each of which is from before the last interruption iff the condition of `LevelOrigins` holds; no level stays pending |
| Coordinator.RoomCoordinator.SetLevel | custom_components/meltem_ventilation/coordinator.py:1044-1058 | writes one level and drops a pending preset, and for zero a pending override, which otherwise stays |
| Coordinator.RoomCoordinator.SetPresetMode | custom_components/meltem_ventilation/coordinator.py:1165-1179 | writes a preset and drops pending levels |
| Coordinator.RoomCoordinator.ClearPresetMode | custom_components/meltem_ventilation/coordinator.py:1181-1197 | leaves the preset on show for the unbalanced mode if it moves a single fan and for the manual mode otherwise, with the levels on show; refused iff the airflow is unknown or no level is known, and does nothing iff there is no preset on show |

## Left out

- Home Assistant surface: entities, forms, registries, repair issues, rendering, storage and translations.
- Sockets, servers, MBAP bridging and the Modbus library: an environment picks how each telegram ends.
- Transport.TransportPolicy.WaitForReadSlot: the request rate may change any finite number of times while requests wait, because an unbounded number would let the wait go on forever.
- Transport.TransportPolicy.Diagnostics: counts samples and successes; the rates, means and time stamps computed from them, the answered-request counter and the diagnostics callbacks are left out.
- Transport.TransportPolicy.Run: requests waiting for the operation lock are not modelled, a run starts once it holds the lock.
- StagedWrites.ModeClient.WriteModeRegisters: which telegrams the unit stored is the environment's choice.
- Coordinator.RoomCoordinator.Write: one unit; rooms share no write state, and the persisted total is stated for the issues of that unit.
- Coordinator.RoomCoordinator.Elapse: the wall clock does not run backwards; baselines do not depend on it, the timeout and the retention do.
- Coordinator.RoomCoordinator.SetControlSetting: the range check against the opposite limit and the rounding to the step are left out.
- States kept during startup before the first value arrives, and the fallback marker of the last fan write.
- Backoffs of components and of polling, tick lengths, the staggering of jobs in `build_jobs`, unit availability and missing-sensor counters: easy members.
- RoomBuilder.BuildRoom: preview and product ID, which are copied through.
- Sensor values other than airflow, IEEE floats, plausibility ranges and absolute humidity.
- Register-map files, app changes and gateway reboots of the mock gateway, its fault injection and command line.
- Unit addresses in unique IDs are integers, their decimal strings are different for different addresses.
