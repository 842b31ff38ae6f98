# The subframe engine of the LTE softmodem, in Dafny

OpenAirInterface's LTE softmodem runs on one-millisecond subframes: ten to a frame, 1024 frames to a
hyper period, after which the system frame number wraps (section 4 of 3GPP TS 36.211). This project
models how subframes are timed, counted and passed between threads, and proves what holds of every run.
`dafny verify dfyconfig.toml` checks all of it.

How the parts fit together:

- `SubframeTime` relates sample timestamps, frame/subframe pairs and the wrapping counters; everything
  about time below rests on it. `Arith` has the division facts it needs.
- `RxClock` gives the sample clock of a radio unit (`rx_rf`, the counters of `ru_thread`, `eNB_top`,
  `tx_rf`) as functions and proves the whole-run results; class `RadioUnits.RadioUnit` has the routines
  as they are in the source, updating fields, proved equal to those functions.
- `BurstControl` is the late-command state machine of `tx_rf` under arbitrary receive and transmit faults.
  `RadioRun` puts `rx_rf` and `tx_rf` calls in any order on one clock and says what the device gets.
- `TxMailbox`, `RxMailbox` and `LockStep` are thread protocols. Each is a transition system with program
  counters, mutex owners and sleeping threads, one step per lock, test, field write, signal or unlock.
  Wake-ups may be spurious. A signal wakes a sleeper if there is one. Theorems quantify over every run.
  `Pipeline` composes the two mailboxes, L1_thread being the consumer of one and the producer of the other.
- `Rendezvous` and `SymbolGather` are the two bit-mask rendezvous. `Bits` shows that the integer masks
  of the source are sets.
- `TxUnwrap` is the unwrapped transmit timestamp, `UeStream` the UE's sample accounting, `CarrierSearch`
  and `SubframeTimer` the UE's offset search and internal timer.
- `Attachment` is the RU/eNB attachment and the antenna numbering.
- `Polling` is the pair of CI loops that delete from the list they walk.

Four promises one might expect of the code do not hold. For each the model has the exact condition and
a witness:

- Look-ahead by conditional wrap is addition modulo 10240 if and only if the carry it adds is the real one
  (`LookAheadCommutes`). It is for every look-ahead up to ten subframes, and fails for eleven
  (`LookAheadOfEleven`).
- A frame resync ends the process exactly if the drift of the step is fatal (`Derails`, `ResynchStep`).
  Without drift a valid frame number is fatal exactly on a step that crosses a frame boundary
  (`DriftFreeResynch`), and `DerailedRun` is a run of ten ordinary reads and one drift-free command that
  ends so.
- The arguments `L1_thread` passes to `wakeup_tx` are read after the mailbox was released. Each is that of
  the processed job, or of the next one if that had overwritten the field when it was read; so they are
  the processed job exactly if the two agree on the overwritten fields (`LateArguments`). For any two jobs
  and any set of fields there is a run with that mixture (`MixedArgumentsHappen`). End to end, L1_thread_tx
  gets the accepted jobs exactly once if every call is intact, in FDD only then (`DeliveredInFields`,
  `ExactlyOnceIfIntact`, `ExactlyOnceInFdd`), and for any two jobs there is a run that sends the second one
  twice (`DuplicateRun`, `ExactlyOnceFails`).
- With no unit syncing or waiting, reports get lost exactly if some unit ever runs more than one report
  ahead of another (`NothingLostIffBalanced`), and then wake-ups can stay below every unit's number of
  reports (`WakeUpsBelowMinimum`).

Three more exact conditions: a special subframe is gathered too early if a symbol beyond its last awaited
one arrives (`CompleteMeans`, `SpecialSubframeEndsEarly`); transmit timestamps track the subframes
received if and only if no wrap is skipped (`TimestampsTrack`, `SkippedWrapGoesBack`); and the UE's
millisecond timer accumulates no lateness as long as its wake-up jitter is at most a millisecond, beyond
which the excess adds up (`LatenessDoesNotAccumulate`, `LatenessReached`).

The environment is a parameter everywhere: device timestamps and sample counts, packets, the answers of
cluster commands, clock readings, timing offset estimates and thread scheduling are arbitrary unless a
row says otherwise. `wait_on_condition` and `release_thread` are as defined in
`openair1/PHY/defs_common.h`: sleep while the count is negative, and store -1.

## Model

| member | source | states |
|---|---|---|
| `SubframeTime.DecodeAbs` | executables/lte-ru.c:638-639 | frame and subframe decoded from a non-negative timestamp are in range and, read as one number, are the timestamp's subframe count modulo 10240 |
| `SubframeTime.DecodeInRange` | executables/lte-ru.c:638-639 | for timestamps of either sign: truncation leaves a subframe number in range exactly for non-negative timestamps and for whole frames, and what it then stands for |
| `SubframeTime.SuccAbs` | executables/lte-ru.c:1730-1736 | ru_thread's nested wrap of subframe and frame is addition of one modulo 10240 |
| `SubframeTime.DecodeSucc` | executables/lte-ru.c:1730-1736 | decoding a timestamp one subframe later gives the same as bumping the counters, across every wrap |
| `SubframeTime.DecodeShift` | executables/lte-ru.c:638-639 | moving a timestamp by k subframes, forward or back, moves the decoded number by k modulo 10240 |
| `SubframeTime.LookAheadCommutes` | executables/lte-ru.c:648-650 | for every non-negative timestamp and every look-ahead: the conditional wrap equals decoding the later timestamp if and only if the carry it adds is the real one |
| `SubframeTime.LookAheadUpToTen` | executables/lte-enb.c:594-598 | for look-aheads of 0 to 10 subframes and any non-negative timestamp the two agree |
| `SubframeTime.LookAheadOfEleven` | executables/lte-ru.c:648-650 | a look-ahead of eleven from the last subframe of a frame is a frame short, for every samples_per_tti |
| `SubframeTime.UeFourInverse` | executables/lte-ue.c:1067-1068 | the stub task's minus-four and UE_thread's plus-four are inverse to each other modulo 10240, in both orders, and plus-four adds four |
| `BurstControl.RestartFollowsTermination` | executables/lte-ru.c:762-791 | for every interleaving of receive faults, transmit faults and calls: among the blocks of downlink and special subframes the one leaving the restart state is a START directly after an END_NO_TIME_SPEC; END_NO_TIME_SPEC is sent exactly from the terminate state; the stop states send nothing |
| `BurstControl.StepKeepsFaultInv` | executables/lte-ru.c:820-824 | one call with any outcome keeps the burst invariant, including a fault raised by the call itself |
| `BurstControl.RecoveryTakesFour` | executables/lte-ru.c:762-791 | from a fault and without a new one: the state after n downlink or special calls for every n, exactly two suppressed calls, END_NO_TIME_SPEC first, START at the fourth, normal afterwards; uplink calls do not count |
| `BurstControl.FddUnbroken` | executables/lte-ru.c:724-750 | in FDD a fault-free run is one unbroken burst of MIDDLE blocks, one a call |
| `BurstControl.PatternTable` | openair1/SCHED/phy_procedures_lte_common.c:753-822 | subframe types of the supported configurations, literally as in table 4.2-2 of 3GPP TS 36.211 |
| `BurstControl.PatternShape` | openair1/SCHED/phy_procedures_lte_common.c:753-822 | in every supported TDD pattern downlink never directly precedes uplink, a special subframe is always followed by uplink and uplink never by a special one |
| `BurstControl.StartAndEndAlternate` | executables/lte-ru.c:724-750 | in fault-free TDD runs of any length from any subframe, START and END flags alternate, and a burst is open exactly after a downlink subframe |
| `RxClock.FirstStep` | executables/lte-ru.c:629-631 | the first reception puts clock and counters at frame 0 subframe 0, whatever offset and timestamp were left over |
| `RxClock.PlainStep` | executables/lte-ru.c:632-636 | without a command the timestamp advances by exactly one subframe whatever the device reported, counters stay in agreement and no command is left pending |
| `RxClock.NegativeStep` | executables/lte-ru.c:632-639 | after a command has left the timestamp negative, the next read without one takes an exit branch |
| `RxClock.DriftAbsorbed` | executables/lte-ru.c:616-639 | in every run without a command, for arbitrary device timestamps: the k-th reception after the first has timestamp k*samples_per_tti, its decoding equals ru_thread's counters, and no exit branch is taken |
| `RxClock.ResynchStep` | executables/lte-ru.c:605-614 | for every command value, drift and sign of the new timestamp: a resync step takes an exit branch if and only if the frame number is out of range, or the drift in whole subframes is not a multiple of the hyper period (on a step entering a new frame: not one frame short of that), or the new timestamp is negative off a frame start; otherwise the unit is in step in the commanded frame |
| `RxClock.DriftFreeResynch` | executables/lte-ru.c:605-639 | a command on a drift-free step of a real device, target above or below: it takes an exit branch if and only if the step crosses a frame boundary or the target is no frame number; otherwise frame_rx is the commanded frame with the subframe advanced by one |
| `RxClock.DriftFreeResynchDerails` | executables/lte-ru.c:605-692 | any multiple of ten reads without a command and then a drift-free command to any frame end in an exit |
| `RxClock.DerailedRun` | executables/lte-ru.c:605-692 | such a run exists for every real device configuration, start and target |
| `RxClock.RunExitsOnlyByBadResynch` | executables/lte-ru.c:678-692 | for any mix of drift, short reads and commands of any value: the run exits if and only if some read is a fatal command, or the first read without one after a command made the timestamp negative; until then timestamp and counters agree |
| `RxClock.DeviceOffset` | executables/lte-ru.c:605-636 | timestamp_rx = ts - ts_offset holds after every read but the first, and after the first if and only if ts_offset was zero before it |
| `RxClock.EmulatedOffset` | executables/lte-ru.c:605-636 | under emulation device timestamps play no part: the first read makes ts_offset the timestamp that would have come next, later only commands move it, by whole frames |
| `RxClock.EnbTopAfterRx` | executables/lte-enb.c:446-456 | eNB_top recomputes exactly the transmit timing rx_rf prepared |
| `RxClock.DeviceTimeRefinement` | executables/lte-ru.c:800-801 | for every sf_ahead and after any history of drift corrections and landed resyncs: every block tx_rf writes starts, extension aside, exactly sf_ahead subframes after the device timestamp of the block just read, and a downlink block ends one subframe later; only the very first read depends on ts_offset having been zero; for a non-negative timestamp the subframe is the one its transmit timestamp decodes to if and only if the look-ahead carries over as it should |
| `RxClock.SpecialLength` | executables/lte-ru.c:733-744 | the block of a special subframe lasts as long as its downlink symbols, one more on a master, with the longer prefix on the first, plus the end-of-burst delay |
| `RxClock.ExtensionAligned` | executables/lte-ru.c:746-757 | only the block opening a TDD burst is extended, by the configured samples rounded down to the device alignment |
| `RadioRun.ReadLate` | executables/lte-ru.c:624-627 | one read: a short one raises a fault whatever else it does, any other leaves late_control alone |
| `RadioRun.LateAfterReads` | executables/lte-ru.c:624-627 | over any run of reads a fault is pending exactly if one of the reads made was short or one was pending before |
| `RadioRun.FaultRaised` | executables/lte-ru.c:818-824 | a block written in the normal or restart state raises a fault if and only if the thread writes to the device itself and the device takes another number of samples than the block has |
| `RadioRun.FaultStaysPending` | executables/lte-ru.c:762-768 | a pending fault stays through all reads and uplink calls, and no burst block is written meanwhile |
| `RadioRun.ShortReadEndsBurst` | executables/lte-ru.c:624-768 | the first downlink or special call after a short read, whatever reads and uplink calls lie between, writes one block, an END_NO_TIME_SPEC |
| `RadioRun.RecoveryOnDevice` | executables/lte-ru.c:762-791 | from a pending fault and without a new one, in any run of reads and calls: the next downlink or special call writes END_NO_TIME_SPEC, the two after it nothing, the fourth START, every later one a block |
| `RadioRun.UplinkCall` | executables/lte-ru.c:825-842 | on uplink subframes the RF simulator gets one sample at the subframe's device time, any other device nothing, and the burst state does not change |
| `RadioRun.DeviceSeesBursts` | executables/lte-ru.c:753-842 | over any run of rx_rf and tx_rf calls the burst writes carry exactly the flags of the burst machine under some faults |
| `RadioRun.DeviceRestarts` | executables/lte-ru.c:762-842 | whatever faults occur, the burst write after an END_NO_TIME_SPEC is a START or another END_NO_TIME_SPEC, and while transmission is stopped the last one was that END |
| `RadioRun.NoFillers` | executables/lte-ru.c:825-842 | outside the RF simulator every device write belongs to a burst, so the write meant above is the very next one |
| `RadioUnits.RadioUnit.constructor` | executables/lte-ru.c:2647 | a new unit starts with offset 0, waiting for its first reception |
| `RadioUnits.RadioUnit.RxRf` | executables/lte-ru.c:572-692 | the field-updating routine, path by path, computes the specified clock, the caller's counters and the exit decision |
| `RadioUnits.RadioUnit.ApplyResynch` | executables/lte-ru.c:605-614 | both signs of the frame difference give one formula for the offset; the command is consumed |
| `RadioUnits.RadioUnit.Retime` | executables/lte-ru.c:638-651 | decodes the received timestamp and, in single-thread mode, prepares the transmit timing; nothing else changes |
| `RadioUnits.RadioUnit.TopTiming` | executables/lte-enb.c:446-456 | copies the transmit timing computed from the received one |
| `RadioUnits.RadioUnit.TxRf` | executables/lte-ru.c:708-842 | the exact list of device writes (start, length, flag) and the next burst state, for every state, subframe type and accepted length |
| `RadioUnits.RadioUnit.RuThread` | executables/lte-ru.c:1727-1739 | the loop over any input computes the specified run, including where it exits |
| `RadioUnits.RadioUnit.Operate` | executables/lte-ru.c:572-842 | any sequence of rx_rf and tx_rf calls on one unit computes the specified run: clock, counters, exit and all device writes |
| `TxMailbox.RunKeepsInv` | executables/lte-enb.c:537-557 | the protocol invariant holds in every reachable state of every interleaving with any number of calls |
| `TxMailbox.Lossless` | executables/lte-enb.c:309-343 | processed jobs are the non-uplink calls in order, once each, at most one published and one waiting; the triple given to wakeup_txfh is that of the job processed at the same position |
| `TxMailbox.StableWhileProcessed` | executables/lte-enb.c:312-328 | no step changes the mailbox between wake-up and completion, and wakeup_tx is not writing then |
| `TxMailbox.DeadlockFree` | executables/lte-enb.c:541-543 | the two threads never both sleep on the shared condition variable, and if neither can move everything offered has been processed and forwarded |
| `TxMailbox.Drains` | executables/lte-enb.c:309-343 | once calls and spurious wake-ups cease, at most Rank further steps are possible, from every reachable state |
| `RxMailbox.RunKeepsInv` | executables/lte-enb.c:573-608 | the protocol invariant holds in every reachable state, for any number of radio units calling wakeup_rxtx |
| `RxMailbox.InOrderOnce` | executables/lte-enb.c:391-414 | instance_cnt stays in {-1, 0}; processed jobs are the accepted offers in order, once each, at most one pending |
| `RxMailbox.DroppedOnlyWhileUnreleased` | executables/lte-enb.c:575-583 | an offer is dropped if and only if the previously accepted one has not been released |
| `RxMailbox.StableUntilRelease` | executables/lte-enb.c:397-414 | from wake-up to release the mailbox is the accepted job being processed and no step changes it |
| `RxMailbox.LateArguments` | executables/lte-enb.c:414-420 | after the k-th release, in every run: each argument of wakeup_tx is that of job k+1 if the field had been overwritten when read and of job k otherwise; they are job k if and only if the two jobs agree on the overwritten fields |
| `RxMailbox.ArgumentsCanBeOverwritten` | executables/lte-enb.c:414-420 | every run that has just released a job, with a producer idle, can be continued so that wakeup_tx receives any chosen fields from that producer's next offer |
| `RxMailbox.FirstRelease` | executables/lte-enb.c:391-414 | from the start there is a run to that situation, for every number of producers and every job |
| `RxMailbox.MixedArgumentsHappen` | executables/lte-enb.c:414-420 | for any two jobs and any fields there is a run that processes the first and passes on these fields of the second |
| `RxMailbox.DeadlockFree` | executables/lte-enb.c:391-414 | as long as an offer is under way or accepted work is left, some thread can move |
| `RxMailbox.Drains` | executables/lte-enb.c:391-414 | once calls and spurious wake-ups cease, at most Rank further steps are possible from every reachable state, which is at most 29 for each radio unit and 26 more |
| `Pipeline.RunKeepsInv` | executables/lte-enb.c:391-420 | both mailbox invariants hold in every run of the composed system, and the calls of wakeup_tx are the arguments read, in order |
| `Pipeline.EndToEnd` | executables/lte-enb.c:414-557 | in every interleaving of radio units, L1_thread and L1_thread_tx: the non-uplink calls are processed in order and once each, and the calls are those due for the accepted jobs if and only if every call is intact |
| `Pipeline.CallsInFields` | executables/lte-enb.c:417-552 | in every run, what the k-th wakeup_tx call stores field by field, each of the processed job or of the next one if overwritten in time, and that it is ignored exactly if its subframe_tx is an uplink subframe |
| `Pipeline.DeliveredInFields` | executables/lte-enb.c:309-343 | at rest with every call intact: for each accepted job with a subframe_tx that is not uplink, in order and for no other, L1_thread_tx worked on its subframe_rx, frame_rx, subframe_tx, frame_tx, timestamp_tx and handed subframe_tx, frame_tx, timestamp_tx to wakeup_txfh |
| `Pipeline.OfferInFields` | executables/lte-enb.c:594-598 | what a unit in step offers: its received frame and subframe, the transmit subframe sf_ahead later modulo 10240, and that one's timestamp |
| `Pipeline.ForwardedDecodes` | executables/lte-enb.c:327-340 | then every triple that reaches wakeup_txfh is consistent: its frame and subframe are those its timestamp decodes to, for units in step and look-aheads up to ten |
| `Pipeline.SentTwice` | executables/lte-enb.c:414-420 | a call read after the next job was published, followed by an intact one, sends that next job twice, the first time in the place of the processed one |
| `Pipeline.ExactlyOnceInFdd` | executables/lte-enb.c:309-343 | in FDD, at rest: L1_thread_tx has processed exactly the accepted jobs, in order and once each, if and only if every call was intact |
| `Pipeline.ExactlyOnceIfIntact` | executables/lte-enb.c:309-343 | in every duplex mode, at rest: if every call was intact, L1_thread_tx has processed and forwarded exactly the accepted jobs that are not uplink only, in order and once each |
| `Pipeline.DuplicateRun` | executables/lte-enb.c:391-557 | for any two jobs and duplex mode there is a run, at rest, in which L1_thread processed both and L1_thread_tx was called with the second one twice |
| `Pipeline.ExactlyOnceFails` | executables/lte-enb.c:391-557 | so in FDD, for any two different jobs, a run at rest exists in which what L1_thread_tx processed is not the accepted jobs |
| `Pipeline.DamageCancelsOut` | executables/lte-enb.c:391-557 | where uplink-only subframes exist the converse fails: for an uplink, a downlink and an uplink job there is a run at rest with a call that is not intact, in which L1_thread_tx processed exactly what was due |
| `Pipeline.ComesToRest` | executables/lte-enb.c:391-557 | every run with no offer under way can be continued to rest without another offer |
| `Pipeline.DeadlockFree` | executables/lte-enb.c:391-557 | while anything is left to do some thread can move; at rest every accepted job has been passed on and every non-uplink call processed and forwarded |
| `Pipeline.Drains` | executables/lte-enb.c:391-557 | once new offers and spurious wake-ups cease, the pipeline comes to rest within Rank further steps |
| `LockStep.PlanIsConsecutive` | executables/lte-ue.c:1859-1884 | the k-th subframe of UE_thread goes to worker k mod 2 and has absolute number k counted from the starting frame |
| `LockStep.RunKeepsInv` | executables/lte-ue.c:1956-2007 | the lock-step invariant holds in every reachable state |
| `LockStep.AtMostOneActive` | executables/lte-ue.c:737-813 | each worker's instance_cnt_rxtx stays in {-1, 0}, at most one worker is active and at most one subframe is unprocessed |
| `LockStep.ConsecutiveAlternating` | executables/lte-ue.c:1997-2002 | the workers process consecutive absolute subframes exactly once and alternately, each with the transmit subframe four later and the transmit timestamp of its own read |
| `LockStep.WrittenOnlyWhileIdle` | executables/lte-ue.c:1989-2003 | a worker's fields, timestamp_tx included, change only by UE_thread and only while that worker is idle, although both workers' frame_rx are bumped under one mutex |
| `LockStep.DeadlockFree` | executables/lte-ue.c:1868-1876 | in every reachable state UE_thread or a worker can move |
| `LockStep.NextSubframeWithin` | executables/lte-ue.c:1956-2007 | any stretch without spurious wake-ups or a new subframe has at most 43 steps |
| `Bits.FullMembers` | executables/lte-ru.c:1185 | the mask equals (1<<n)-1 if and only if the set it encodes is everyone |
| `Bits.SetBitMembers` | executables/lte-ru.c:1161-1166 | or-ing in 1<<i adds exactly i to the set and stays within n bits |
| `Bits.AtLeastFull` | executables/lte-ru.c:233 | the mask is at least (1<<u)-1 if and only if all bits below u are set or some bit at or above u is |
| `Rendezvous.PendingSinceReset` | executables/lte-ru.c:1155-1190 | the mask of a subframe is exactly the units that reported or were excused since its last reset |
| `Rendezvous.MaskInFields` | executables/lte-ru.c:1155-1166 | in every interleaving and in the units' own fields: a unit is in the mask exactly if some report since the reset was its own while it did not wait (or stopped waiting with it), or found it syncing, or found it a slave that goes on waiting |
| `Rendezvous.WakeNeedsEveryone` | executables/lte-ru.c:1185-1215 | for any number of units and any interleaving: a report completes a round if and only if every unit has reported or been excused since the last reset |
| `Rendezvous.WakesInFields` | executables/lte-ru.c:1185-1215 | a report wakes L1 exactly if that has happened to every unit since the reset and the reporter does not wait |
| `Rendezvous.ExcusedUnits` | executables/lte-ru.c:1161-1203 | a unit that does not wait always wakes L1 when all others are syncing or slaves that go on waiting; a reporter that goes on waiting never does |
| `Rendezvous.ReportsConserved` | executables/lte-ru.c:1155-1190 | with no unit syncing or waiting, a unit's reports are the wake-ups plus the one pending plus the repeated ones |
| `Rendezvous.WakeUpsAtMostReports` | executables/lte-ru.c:1185-1215 | wake-ups never exceed a unit's reports, and equal them if and only if the unit is not pending and never repeated a report |
| `Rendezvous.BalancedReportsAllCount` | executables/lte-ru.c:1155-1190 | when no unit runs more than one report ahead, no report is lost and the wake-ups are the minimum over the units |
| `Rendezvous.NothingLostIffBalanced` | executables/lte-ru.c:1155-1190 | no report is lost if and only if no unit ever runs more than one report ahead of another |
| `Rendezvous.RepeatedReportIsLost` | executables/lte-ru.c:1161-1163 | a report of a unit already pending changes neither mask nor wake-ups |
| `Rendezvous.WakeUpsBelowMinimum` | executables/lte-ru.c:1155-1190 | two units reporting 0, 0, 1, 1 have two reports each and one wake-up |
| `Rendezvous.NotFull` | executables/lte-ru.c:1185-1190 | between calls no mask is full |
| `Rendezvous.L1Proc.constructor` | executables/lte-enb.c:857 | all ten masks start empty |
| `Rendezvous.L1Proc.WakeupL1s` | executables/lte-ru.c:1128-1233 | the integer routine updates the awaited mask as the set, leaves the other nine alone, releases waiting units and decides to wake exactly as specified; the same stated in the units' fields |
| `Rendezvous.L1Proc.CountReports` | executables/lte-ru.c:1155-1166 | the loop over the units adds exactly those counted in and releases those with one count left |
| `SymbolGather.RecordedBits` | executables/lte-ru.c:220-222 | for any packets: a bit is set exactly if it was, or that symbol of that subframe arrived, or a tick for it did |
| `SymbolGather.CompleteMeans` | executables/lte-ru.c:233 | the loop condition holds if and only if a tick came, all awaited symbols are in, or some symbol numbered beyond them is |
| `SymbolGather.FullSubframeCompletes` | executables/lte-ru.c:208-233 | on a full subframe, for a mask of the shape the routine keeps and any packet order across subframes: complete if and only if all symbols of the awaited subframe, or a tick for it, arrived |
| `SymbolGather.RecordKeepsShape` | executables/lte-ru.c:220-222 | with symbol numbers below symbols_per_tti, recording keeps every mask below (1<<symbols_per_tti) or all ones |
| `SymbolGather.EndsWhenGathered` | executables/lte-ru.c:213-233 | the loop ends at a packet if and only if everything awaited is in with that packet and not before |
| `SymbolGather.SpecialSubframeEndsEarly` | executables/lte-ru.c:205-206 | on a special subframe one symbol at or above the awaited count ends the loop with none of the awaited ones in |
| `SymbolGather.FronthaulProc.constructor` | executables/lte-ru.c:2222-2228 | all masks start empty, hence of the shape the routine keeps |
| `SymbolGather.FronthaulProc.Gather` | executables/lte-ru.c:213-233 | the loop ends normally at the first packet that completes the awaited mask, that packet belongs to the awaited subframe, and every mask is its old value with the consumed packets recorded |
| `SymbolGather.FronthaulProc.GatherAll` | executables/lte-ru.c:213-233 | in addition, if all ten masks have the shape and symbol numbers are below symbols_per_tti: they keep it, and on a full subframe a normal end is exactly at the packet with which all symbols or a tick are in, while a blocked call never had them |
| `SymbolGather.FronthaulProc.SouthIn` | executables/lte-ru.c:195-284 | all that for the whole routine, call after call; timing, in single-thread mode the transmit subframe, and the caller's counters follow the last packet, and only its subframe's mask is cleared, so early symbols of other subframes stay recorded |
| `SymbolGather.FronthaulProc.PrepareTx` | executables/lte-ru.c:245-248 | the transmit subframe is the look-ahead of the received one |
| `SymbolGather.GatheredLookAhead` | executables/lte-ru.c:245-248 | that transmit subframe is the one its timestamp decodes to, for look-aheads up to ten |
| `TxUnwrap.NorthProc.constructor` | executables/lte-ru.c:2226 | the unwrap count starts at zero |
| `TxUnwrap.NorthProc.NorthIn` | executables/lte-ru.c:463-469 | the routine's effect on unwrap count, timestamp and transmit subframe |
| `TxUnwrap.ReceiveDistance` | executables/lte-ru.c:467-469 | one reception moves the subframe count by the real distance if and only if it does not skip frame 0 subframe 0 |
| `TxUnwrap.TimestampsTrack` | executables/lte-ru.c:463-469 | over any forward run and any number of wraps: the count tracks the subframes at every position if and only if no wrap was skipped |
| `TxUnwrap.TimestampsAdvance` | executables/lte-ru.c:469 | on such runs timestamp_tx advances by samples_per_tti times the distance, strictly |
| `TxUnwrap.SkippedWrapGoesBack` | executables/lte-ru.c:467-469 | receiving subframe 1 right after the last subframe of a hyper period moves timestamp_tx back by 10238 subframes |
| `TxUnwrap.DecodeInvertsReceive` | executables/lte-ru.c:396-397 | the IF5 decoding of any timestamp produced gives back the frame and subframe received |
| `UeStream.CorrectionAligns` | executables/lte-ue.c:1900-1913 | a correction brings the frame one sample closer to alignment unless it is aligned or exactly half a frame off, where none is made |
| `UeStream.UncorrectedStream` | executables/lte-ue.c:1905-1906 | with timing correction off every block is one subframe long and subframe k is written at exactly k+2 subframes, for any offset estimates |
| `UeStream.CorrectionIsKept` | executables/lte-ue.c:1900-1914 | rx_offset_diff holds the correction of the last completed frame throughout the next one |
| `UeStream.Consumed` | executables/lte-ue.c:1886-1954 | after n subframes exactly n*samples_per_tti samples less the corrections have been read, for every sequence of offset estimates |
| `UeStream.FramesConsume` | executables/lte-ue.c:1850-1856 | N frames consume 10*N*samples_per_tti samples less the sum of the corrections |
| `UeStream.CallsOf` | executables/lte-ue.c:1916-1948 | start and length of every device call of every subframe in closed form; read plus first symbol is as long as the write |
| `UeStream.GaplessTransmission` | executables/lte-ue.c:1930-1938 | every write starts exactly where the one before it ended, across all subframes, frames and corrections; the first starts two subframes after the origin |
| `UeStream.WorkerTimestamp` | executables/lte-ue.c:2000-2002 | in every lock-step run the k-th processed subframe carries the transmit timestamp four subframes after its start on the device, two after the block written for it, corrections included |
| `UeStream.BufferHoldsFrames` | executables/lte-ue.c:1886-1889 | each block lands in the receive buffer at its distance from the start of its frame, and the symbol read ahead begins the next frame |
| `UeStream.UeThread.constructor` | executables/lte-ue.c:1850-1856 | the stream starts after the first symbol |
| `UeStream.UeThread.OneSubframe` | executables/lte-ue.c:1859-1954 | one pass makes exactly the specified calls, and the "can't compensate" report is unreachable |
| `UeStream.UeThread.Streaming` | executables/lte-ue.c:1859-1954 | the loop over any offset estimates computes the specified run |
| `CarrierSearch.SearchOrder` | executables/lte-ue.c:640-646 | attempt m tries 0, -100, +100, -200, ... Hz and the search is abandoned at exactly the 151st failure |
| `CarrierSearch.OffsetsInHertz` | executables/lte-ue.c:640-646 | the same in Hz: 50*m at even and -50*(m+1) at odd attempts, up to the 150th |
| `CarrierSearch.RangeInHertz` | executables/lte-ue.c:640-646 | some attempt tries an offset exactly if it is a multiple of 100 Hz of at most 7500 Hz |
| `CarrierSearch.EveryOffsetOnce` | executables/lte-ue.c:640-646 | an offset is tried at attempt m if and only if it is a multiple of 100 Hz within 7500 Hz and m is its attempt, which is at most 150 |
| `CarrierSearch.Synch.InitialSyncFailed` | executables/lte-ue.c:637-662 | one failure moves the offset as specified or abandons; outside scan mode nothing changes |
| `CarrierSearch.Synch.Search` | executables/lte-ue.c:425-662 | whatever the attempts answer: found if and only if some attempt up to the 150th answers at its offset, at the first that does; otherwise 151 failures |
| `CarrierSearch.CellInRange` | executables/lte-ue.c:640-646 | the search finds a cell that answers exactly at its own offset if and only if that is a multiple of 100 Hz within 7500 Hz, after the failures that come before it |
| `SubframeTimer.PublishedSubframe` | executables/lte-ue.c:2304-2313 | tick k publishes absolute subframe (k-1) modulo 10240 |
| `SubframeTimer.Sleep` | executables/lte-ue.c:2336-2351 | the sleep is never negative and never ends before the deadline |
| `SubframeTimer.NeverEarly` | executables/lte-ue.c:2336-2351 | with a monotone clock and sleeps at least as long as asked: tick k+1 never starts before T_0 + k ms, however late earlier ticks were, and each sleep is at most 1000000 ns |
| `SubframeTimer.LatenessDoesNotAccumulate` | executables/lte-ue.c:2336-2351 | if every reading is at most j late after its requested sleep, tick k is at most j late on its absolute deadline, plus k times the excess of j over a millisecond |
| `SubframeTimer.LatenessReached` | executables/lte-ue.c:2336-2351 | for j of a millisecond or more that bound is met at every tick of some run |
| `SubframeTimer.TimerThread.Round` | executables/lte-ue.c:2304-2351 | one round publishes the next subframe and asks for the specified sleep |
| `SubframeTimer.TimerThread.Thread` | executables/lte-ue.c:2257-2351 | over a whole run the published subframes are consecutive modulo 10240 and all sleeps lie in 0..1000000 ns and reach their deadlines |
| `Attachment.AttachedOnce` | executables/lte-ru.c:2722-2725 | with duplicate-free lists, an RU is in an eNB's list if and only if the eNB is in the RU's list, once and in RU order |
| `Attachment.AttachedAsNamed` | executables/lte-ru.c:2692-2725 | in the RU's own fields, for any lists: an RU is in an eNB's list as often as entries of its own list name the eNB, an unset list naming eNB 0 once, so it is there exactly if one does |
| `Attachment.L1Instances.AttachRu` | executables/lte-ru.c:2722-2725 | attaching one RU adds it to each list as often as it names that eNB and keeps RU order |
| `Attachment.L1Instances.InitRu` | executables/lte-ru.c:2681-2727 | for any lists, unset ones meaning eNB 0: afterwards each eNB's list is ascending and holds each RU as often as entries of the RU's list name the eNB |
| `Attachment.IndexInjective` | executables/lte-enb.c:1154-1169 | antenna indices are below the total and no two (RU, antenna) pairs share one |
| `Attachment.ConsecutiveIndices` | executables/lte-enb.c:1154-1169 | the numbering starts at 0, goes through the antennas of an RU in their order and continues with the next RU |
| `Attachment.MapAntennas` | executables/lte-enb.c:1136-1169 | the nested loops wire 0..sum(nb_rx)-1 and the (RU, antenna) pairs one to one, by prefix sums |
| `Polling.PassConserves` | ci-scripts/cls_cluster.py:179-181 | a walk that deletes while walking loses no name and invents none: per name, what was listed is what is left plus the completion reports |
| `Polling.RemoveFirst` | ci-scripts/cls_cluster.py:181 | removing a name drops its first occurrence and keeps the order of all others |
| `Polling.SuccessMeansComplete` | ci-scripts/cls_cluster.py:175-191 | success only if every listed job, with multiplicity, was truthfully reported complete and (cluster) none with an error; failure only after an error or all passes |
| `Polling.VisitsAndRemovals` | ci-scripts/cls_cluster.py:179-181 | visits plus removals cover the list, up to one: each removal skips a name |
| `Polling.PassHalves` | ci-scripts/cls_physim1.py:192-196 | a walk over n finished jobs leaves exactly n/2 rounded down, repeated names included |
| `Polling.SurvivorsAreSkipped` | ci-scripts/cls_physim1.py:192-196 | with distinct names the survivors are the names at odd positions, in order |
| `Polling.PassesForIsLog` | ci-scripts/cls_cluster.py:177-188 | the number of passes needed for n > 0 jobs is floor(log2 n) + 1 |
| `Polling.DrainsInLogPasses` | ci-scripts/cls_cluster.py:177-188 | once all remaining jobs are complete, the wait succeeds if and only if that many passes are left, and takes exactly that many |
| `Polling.BudgetIsCeiling` | ci-scripts/cls_cluster.py:177-189 | the countdown allows exactly timeout/interval passes, rounded up |
| `Polling.PhySimCapacity` | ci-scripts/cls_physim1.py:190-199 | nine passes suffice for finished pods if and only if there are fewer than 512 |
| `Polling.WalkList` | ci-scripts/cls_cluster.py:179-184 | the in-place walk computes the specified one |
| `Polling.WaitBuildEnd` | ci-scripts/cls_cluster.py:175-191 | verdict and remaining list (the caller's own) are the specified ones with the rounded-up budget |
| `Polling.WaitPods` | ci-scripts/cls_physim1.py:186-199 | works on a copy; verdict as specified |
| `Polling.WaitPhySim` | ci-scripts/cls_physim1.py:186-203 | the same with the source's nine passes |

## Left out

- Integer widths: timestamps are unbounded, so 64-bit overflow (after thousands of years of samples) is not modelled; masks are unbounded, so more radio units than bits in an int are not either; the 32-bit product by which a command above 1023 moves ts_offset does not wrap.
- wakeup_txfh and the TX credit path of ru_thread_tx: its counter is decremented from two threads and timeouts reset the masks, so no clean invariant holds.
- The PRACH rendezvous mask of wakeup_prach_eNB: the same or-and-compare as RU_mask, except that every waiting unit is excused, slave or not; its variant for bandwidth-reduced devices excuses nobody.
- The gathering loop of fh_if4p5_north_asynch_in: `TxUnwrap.NorthProc.NorthIn` starts after it.
- SymbolGather.FronthaulProc.Gather: packets with a subframe field of 10 to 15, which the four header bits can carry, are excluded; the source then writes past its ten masks.
- SymbolGather.FronthaulProc.SouthIn: the same.
- BurstControl.RestartFollowsTermination: late_control is one variable shared by all radio units, so with several units the blocks are those of all of them together, not of one device; the single sample written on uplink subframes for the RF simulator is treated by `RadioRun.UplinkCall`.
- RadioUnits.RadioUnit.RxRf: a second thread changing late_control during a call is not modelled; faults fall between calls.
- RadioUnits.RadioUnit.RuThread: everything an iteration does after the receive call is left out, and so are the states other than RU_RUN and the frame offset of units with a non-zero index.
- LockStep.RunKeepsInv: only the RF simulator mode; outside it the counters are not bounded by 0 and a lock timing out at subframe 0 skips the frame increment. frame_rx being overwritten when the broadcast channel is decoded is left out.
- Pipeline.ExactlyOnceInFdd: in TDD two damaged calls can make up for each other (`Pipeline.DamageCancelsOut`), so there intact calls are sufficient (`Pipeline.ExactlyOnceIfIntact`) and the exact condition is on the calls (`Pipeline.EndToEnd`).
- CarrierSearch.SearchOrder: consecutive failures from offset 0; the offset being reset after a success in calibration mode starts a new search.
- SubframeTimer.TimerThread.Thread: internal timer only, without the external timer mode and without the shared ticking counter.
- Attachment.L1Instances.InitRu: capacities of the RU list and the antenna pointer arrays, and a call without component-carrier counts (which would keep old lists), are not modelled.
- Attachment.MapAntennas: the replacement of a total of zero antennas by one that follows the loops (executables/lte-enb.c:1175-1177) is not modelled.
- Polling.WaitBuildEnd: requires a positive interval; with another one the source's loop need not end.
- Signal processing, MAC calls, configuration, start-up and shutdown, logging, and the rest of the CI scripts.
