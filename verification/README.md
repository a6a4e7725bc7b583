# microcar: models and proofs

microcar is the firmware of a small electric car (a gateway, a powertrain, a BMS and a
dashboard ECU on one CAN bus) with Rust crates for the plant, the scenario checks and the
traces. This project models its decision logic in Dafny and proves what holds over every
input and every run.

| files | what they model |
|---|---|
| `Crc32`, `OtaRecord`, `OtaSlot`, `OtaFlash` | the A/B update machine, its 32-byte record, the CRC-32, and recovery from two stored copies after a reset at any point |
| `Timeouts`, `HeartbeatMonitor`, `FaultManager`, `Vehicle`, `Gateway`, `GatewayRuns`, `GatewayFaults` | the gateway ECU as a step system over its heartbeat table, fault table and mode machine |
| `Powertrain`, `TorqueChain`, `Charging` | the torque chain from throttle and pack temperature to motor command, gateway and powertrain composed, and the charging machine |
| `VehiclePlant`, `Battery` | truncating fixed-point plant dynamics with narrowing casts |
| `Validate` | the one-pass validator of injected external-actor frames |
| `TraceNormalize`, `TraceIdempotence`, `ClockCheck` | trace normalisation and the per-machine clock check |
| `Framebuffer`, `Digits`, `Dashboard`, `DashboardPicture`, `DashboardRuns`, `DashboardReading` | the renderer that repaints parts of a 320x240 framebuffer |
| `Ints` | machine integer ranges, truncating division, small helpers |

Code that updates a structure or a buffer in place is a class or a method on an array, proved
equal to a function on values (`Apply`, `Reported`, `Ticked`, `Painted`, ...). The theorems are
about those functions and about runs, which are sequences of events with no bound on length.
Integers are unbounded; every wrap, cast and truncation of the source is written out.

## The main results

- **CRC.** No burst of up to 32 bits, at any bit offset of a message of any length, keeps the
  CRC-32. Through the record layout, any single changed field and any burst across fields makes
  a valid record invalid, and a reset after a torn write resumes exactly the newer or exactly
  the older recorded state.
- **OTA runs.** With resets from a record of the state they interrupt, the set of reachable
  states is given exactly, and an update takes effect if and only if the run holds the whole
  sequence of milestones in order with nothing that diverts it. Over two flash pages, with saves
  cut short and power cycles anywhere, every run is in the state of such a run: its own history
  with everything taken back that was not saved before a power cycle. So the same laws hold there,
  and HEALTHY is final exactly from the first completed save of it.
- **Gateway.** Online bits are the real-time truth across clock wrap-around, with the exact
  spacing of checks this needs; the redundant counters are a recount in every run; FAULT, SERVICE
  and DRIVE are related over all runs; for the tick that finds the BMS lost, COMM_ERROR and FAULT
  each have a necessary and sufficient condition on the state before the tick. Over every run it is
  exact when a session is active, when COMM_ERROR is, and which step silences an entry.
- **Validator.** The pass returns the first violation, in the unique stable time order, of rules
  stated frame by frame with literal ids, lengths and bytes; accepted scenarios contain only
  complete, numbered transfers.
- **Traces.** Normalisation acts token by token; it is idempotent on a line if and only if the
  characters that are not white space are ASCII.
- **Torque and charging.** Every motor command of every frame history is given exactly, also with
  the gateway lost, and composed with the gateway's runs; a charging run is active if and only if
  it went the whole way from plug over handshake to limit and nothing ended it.
- **Plant.** The largest tick for which no run overflows or wraps is found exactly: 41121 ms for
  the speed, 198474 ms for the temperature cast, 2000001 ms for explicit battery currents.
- **Dashboard.** After every history the incrementally repainted framebuffer equals a redraw from
  a cleared screen, exactly in the states that show their values, and speed, torque and bars can
  be read back off the pixels.

## Where the code and its documentation differ

The code is modelled. Each difference below has a concrete input and an exact condition. The S rules
are those of `docs/safety_rules.md`.

- S4 (a lost gateway disables torque within 250 ms): the watchdog timer clears the enable flag, and
  the next torque computation sets it again. With the gateway silent, the command sent is disabled
  if and only if mode or throttle disable it anyway (`TimerDoesNotStopTorque`,
  `TorqueWithoutGateway`).
- S5 (a lost BMS gives FAULT within 300 ms): the first offline node in registration order is
  blamed, so the report needs a live powertrain and a table that takes it (`LostBmsRule`,
  `LostBmsUnnoticed`).
- S7 (a lost dashboard does not disable the powertrain by itself): DRIVE needs every monitored
  node, so with everything else in order the motor is enabled if and only if the dashboard is online
  (`DashboardDecides`, `LostDashboardEndsDrive`).
- S8 (a critical BMS fault shuts down drive): the next tick ends in FAULT if and only if the fault
  table takes the report or the tick would have without it; sixteen other codes fill the table
  (`CriticalFaultStopsMotor`, `FullTableHidesCriticalFault`).
- The comment on `heartbeat_monitor_last_transition_node` asks for the node that timed out last; the
  first offline one is returned. So a BMS that was never heard is reported when the dashboard is
  dropped. A tick reports COMM_ERROR if and only if the powertrain is alive, the BMS is not, and one
  of BMS and dashboard is dropped in it (`TickReportsExactly`, `SilentBmsIsBlamed`).
- The temperature table of `docs/safety_rules.md` ends its bands at 60 and 90 degrees inclusive; the
  code already changes state there (`BandsDifferExactly`).
- Normalisation is documented as idempotent; bytes are pushed as characters, so a line with an
  accented letter grows with every pass (`IdempotentExactlyOnPlainLines`,
  `AccentedLetterIsUnstable`).
- A critical fault is documented to override every plugged charging state; the state's own rule
  wins when it applies to the same event (`CriticalFaultsExactly`, `ChargingStartsDuringFault`).
- A second report of an active fault with another severity leaves the counters behind
  (`ReportKeepsRecount`, `DowngradeStaysCritical`); no gateway caller does this.
- A session is active in SERVICE or FAULT, except after a reboot that no tick and no session start
  has followed, where the mode is OFF (`SessionMode`, `SessionOutlivesReboot`). This is about the
  functions of `gateway_state.c`: no firmware code calls `gateway_state_reboot`, and
  `gateway_state_enter_drive` is called only from a dogfood script
  (`firmware/gateway_ecu/src/main.c`, line 491).
- A page other than 0 leaves the values of page 0 visible (`AlwaysCurrentIff`,
  `HiddenValuesStay`); OFF falls through to the READY screen.
- A comment in `plant/src/battery.rs` derives, for 50 Ah, 1800000 mA ms to a milli-percent of charge;
  the expression uses 180000. Both agree if and only if the tick moves less than 180000 mA ms, and
  else the code moves about ten times the charge (`DocumentedExactly`, `TenfoldTick`,
  `TenfoldOverRuns`).

## Model

| member | source | states |
|---|---|---|
| `Crc32.ComputeCrc32` | common/src/microcar_ota_slot.c:119-130 | the nested byte and bit loops compute the specified CRC of the first `len` bytes |
| `Crc32.CheckVector` | state_tests/src/ota_slot.rs:463-467 | the CRC of the nine ASCII digits is 0xCBF43926 |
| `Crc32.BitStepLinear` | common/src/microcar_ota_slot.c:123-127 | the masked shift is linear over exclusive or |
| `Crc32.BitStepInjective` | common/src/microcar_ota_slot.c:123-127 | the masked shift loses no information |
| `Crc32.FeedIsFeedBits` | common/src/microcar_ota_slot.c:119-130 | the byte-at-a-time loop equals a bit-serial register fed each byte's lowest bit first, from any start value |
| `Crc32.MeetingMarks` | common/src/microcar_ota_slot.c:119-130 | two registers that agree after at most 32 bits differed before exactly in the positions where the bits differ |
| `Crc32.RegisterInjective` | common/src/microcar_ota_slot.c:119-130 | feeding the same bits never merges two different registers |
| `Crc32.BurstChangesRegister` | common/src/microcar_ota_slot.c:119-130 | bit strings that differ only inside a window of 32 bits lead to different registers, from any start value |
| `Crc32.CrcDetectsBursts` | common/src/microcar_ota_slot.c:119-130 | messages of the same, arbitrary length that differ only inside 32 consecutive bits, at any bit offset, have different CRCs |
| `Crc32.TrailerIffResidue` | common/src/microcar_ota_slot.c:119-130 | four bytes appended to a message are its CRC, low byte first, exactly if the register ends on 0xDEBB20E3 |
| `Crc32.Le32RoundTrip` | state_tests/src/ota_slot.rs:273-290 | little-endian writing and reading of a word undo each other in both directions |
| `OtaRecord.WriteRecord` | state_tests/src/ota_slot.rs:273-290 | filling the zeroed buffer field by field yields the layout of all 32 bytes |
| `OtaRecord.ReadBack` | state_tests/src/ota_slot.rs:273-290 | reading the written page gives the record back |
| `OtaRecord.WriteBack` | state_tests/src/ota_slot.rs:273-290 | every 32-byte page is the writing of the record read from it |
| `OtaRecord.RecordCell.ComputeRecordCrc` | common/src/microcar_ota_slot.c:132-136 | the CRC is over exactly the first 28 bytes of the layout |
| `OtaRecord.RecordCell.Finalize` | state_tests/src/ota_slot.rs:298-302 | magic and version are stamped before the CRC is taken, and nothing else changes |
| `OtaRecord.RecordCell.CheckValid` | common/src/microcar_ota_slot.c:138-144 | answers whether magic, version and CRC are all right |
| `OtaRecord.FinalizeMakesValid` | state_tests/src/ota_slot.rs:298-309 | finalizing makes every record valid, and leaves a record alone exactly if it was valid |
| `OtaRecord.ValidIffResidue` | common/src/microcar_ota_slot.c:138-144 | validity is the stamps plus one fixed register value over all 32 bytes |
| `OtaRecord.BurstInvalidates` | common/src/microcar_ota_slot.c:132-144 | a valid page hit by any burst of up to 32 bits, across fields or inside the CRC, reads back as invalid |
| `OtaRecord.BytesBurst` | common/src/microcar_ota_slot.c:119-130 | bytes that differ only inside four consecutive positions differ by such a burst |
| `OtaRecord.OneFieldChangeInvalidates` | common/src/microcar_ota_slot.c:132-144 | changing exactly one of the 14 fields of a valid record, the CRC field too, makes it invalid |
| `OtaRecord.SelectsNewestValid` | common/src/microcar_ota_slot.c:146-157 | the pick is one of the copies, valid, and not older than any valid copy; nothing is picked only if no copy is valid |
| `OtaRecord.InterruptedUpdate` | common/src/microcar_ota_slot.c:146-157 | a newer record beside an older one takes over if intact and is passed over with any content the validity test rejects (every burst is such), in either page |
| `OtaSlot.OtaSlotModel.constructor` | common/src/microcar_ota_slot.c:15-27 | both slots A, idle, all flags clear |
| `OtaSlot.OtaSlotModel.BeginDownload` | common/src/microcar_ota_slot.c:29-37 | only from idle; targets the other slot and clears the image flags |
| `OtaSlot.OtaSlotModel.FinishDownload` | common/src/microcar_ota_slot.c:39-49 | new state for complete, incomplete and misplaced calls; success exactly for a complete download in its phase (`OtaSlot.AnswersExactly`) |
| `OtaSlot.OtaSlotModel.VerifyImage` | common/src/microcar_ota_slot.c:51-62 | new state and success; a bad CRC rolls back |
| `OtaSlot.OtaSlotModel.CommitUpdate` | common/src/microcar_ota_slot.c:64-74 | arms only a written and verified image, else rolls back |
| `OtaSlot.OtaSlotModel.RebootIntoTarget` | common/src/microcar_ota_slot.c:76-80 | only from a pending commit |
| `OtaSlot.OtaSlotModel.HealthCheck` | common/src/microcar_ota_slot.c:82-95 | switches the active slot only when healthy and committed, else rolls back |
| `OtaSlot.OtaSlotModel.RollBack` | common/src/microcar_ota_slot.c:97-108 | a healthy state is untouched; any other returns to the active slot |
| `OtaSlot.OtaSlotModel.AbortUpdate` | common/src/microcar_ota_slot.c:159-165 | a rollback that also records the reason |
| `OtaSlot.OtaSlotModel.RecoverAfterReset` | common/src/microcar_ota_slot.c:167-181 | the state is rebuilt from the record, the image flags from the state byte; no record, no change |
| `OtaSlot.RecoverResumes` | common/src/microcar_ota_slot.c:167-181 | every record of a state recovers the same state: that state with its image flags rebuilt |
| `OtaSlot.RunsArePossible` | common/src/microcar_ota_slot.c:15-181 | every run with resets anywhere stays in a listed set of states |
| `OtaSlot.PossibleStatesOccur` | common/src/microcar_ota_slot.c:15-181 | each listed state ends some run, so the set is exact |
| `OtaSlot.FollowedTrailReaches` | common/src/microcar_ota_slot.c:29-95 | after each prefix of a run that follows a trail of milestones the state is the one the trail names |
| `OtaSlot.FindTrail` | common/src/microcar_ota_slot.c:29-95 | every run that was not rolled back follows a trail, constructed here |
| `OtaSlot.TakesEffectExactly` | common/src/microcar_ota_slot.c:29-115 | an update is healthy if and only if begin, complete download, good verify, commit, reboot and healthy check occur in order, with no cancel, no diverting call and no reset between download and commit |
| `OtaSlot.AnswersExactly` | common/src/microcar_ota_slot.c:39-95 | from state, flags and argument alone: finish and verify succeed exactly while downloading with a good argument, commit exactly while verifying a written and verified image, the health check exactly while rebooting, healthy and committed |
| `OtaSlot.FailsExactly` | common/src/microcar_ota_slot.c:39-95 | in every run an answering call fails if and only if it is not due, and then changes nothing, or rolls the update back |
| `OtaSlot.MilestonesSucceed` | common/src/microcar_ota_slot.c:39-95 | along every followed trail each milestone that answers, answers success |
| `OtaSlot.SuccessMeans` | common/src/microcar_ota_slot.c:39-95 | after a success the image is written, verified, armed or final |
| `OtaSlot.ReasonIsTheLastAbort` | common/src/microcar_ota_slot.c:159-165 | in every run the stored reason is that of the last abort before an update took effect, across resets |
| `OtaSlot.RolledBackHoldsNoImage` | common/src/microcar_ota_slot.c:97-108 | a call that rolls back drops the image; a rolled-back slot shows one only after a reset rebuilt its flags |
| `OtaSlot.ImageFlagsExactly` | common/src/microcar_ota_slot.c:29-62 | in every run the image is marked written, or verified, if and only if a call or a late reset marked it and nothing has unmarked it since |
| `OtaSlot.BeginForgets` | common/src/microcar_ota_slot.c:29-37 | a download starts from any idle state as if nothing were known of an earlier image, into a slot that is not the active one |
| `OtaSlot.BootsTargetOnlyIfHealthy` | common/src/microcar_ota_slot.c:110-115 | from any state at all, another slot than the active one boots only when committed and healthy, and is then the target |
| `OtaSlot.BootsActiveSlot` | common/src/microcar_ota_slot.c:110-115 | in every run the boot slot is the active slot, and is B exactly once an update took effect |
| `OtaSlot.ArmedOnlyIfVerified` | common/src/microcar_ota_slot.c:64-74 | committed holds exactly in COMMIT_PENDING, REBOOTING and HEALTHY, and implies written, verified and target B |
| `OtaSlot.HealthyIsFinal` | common/src/microcar_ota_slot.c:82-108 | once healthy, no call and no reset from a record of that state changes any field, so the active slot changes at most once; `OtaFlash.SavedHealthyIsFinal` covers resets from older copies |
| `OtaSlot.ResetKeepsBootSlot` | common/src/microcar_ota_slot.c:167-181 | recovery keeps the boot slot in every run, and restores armed and final states whole |
| `OtaSlot.RecoveredVerifyingCannotCommit` | common/src/microcar_ota_slot.c:64-74 | after a reset during verification a commit fails and rolls back |
| `OtaSlot.ResetAfterTornWrite` | common/src/microcar_ota_slot.c:146-181 | from an older record and a newer page, whole or with any rejected content, selection and recovery resume exactly the newer or exactly the older state |
| `OtaFlash.BurstIsAllowed` | common/src/microcar_ota_slot.c:132-144 | a save that ends in any burst of up to 32 bits is one of the saves cut short in the runs below |
| `OtaFlash.SaveCompletes` | common/src/microcar_ota_slot.c:146-157 | a completed save of a newer generation into the page not in use becomes the record in use, whatever the flash held |
| `OtaFlash.SaveCutShort` | common/src/microcar_ota_slot.c:146-157 | a save cut short never changes the record in use |
| `OtaFlash.FlashRunsAreSlotRuns` | common/src/microcar_ota_slot.c:15-181 | every run over two pages, with saves cut short and power cycles anywhere, is in the state of a legal slot run: its history with everything unsaved taken back at each power cycle |
| `OtaFlash.PowerCycleResumes` | common/src/microcar_ota_slot.c:146-181 | a power cycle resumes exactly the state of the last completed save, or initialisation; it is HEALTHY if and only if that state was |
| `OtaFlash.FlashRunsAreSafe` | common/src/microcar_ota_slot.c:15-181 | over such runs no slot is armed unless written and verified, the boot slot is the active one, and HEALTHY holds if and only if the history that counts contains the whole update |
| `OtaFlash.SavedHealthyIsFinal` | common/src/microcar_ota_slot.c:82-181 | after a completed save of HEALTHY no call, save or power cycle changes the slot |
| `OtaFlash.UnsavedHealthIsLost` | common/src/microcar_ota_slot.c:146-181 | without that save a power cycle after a whole update is back at initialisation |
| `Timeouts.ElapsedIsExact` | firmware/gateway_ecu/src/heartbeat_monitor.c:43-60 | 32-bit subtraction is the true difference for gaps below 2^32 ms |
| `Timeouts.CellTracksBeats` | firmware/gateway_ecu/src/heartbeat_monitor.c:29-60 | between checks, online means a beat since the last check or one still fresh at it |
| `Timeouts.OnlineIsAlive` | firmware/gateway_ecu/src/heartbeat_monitor.c:29-60 | after a check the online bit says "has beaten, less than the timeout ago" in unbounded time, if the gap between checks plus the timeout is at most 2^32 |
| `Timeouts.SpacingIsTight` | firmware/gateway_ecu/src/heartbeat_monitor.c:43-60 | one millisecond more, for every timeout, and a node silent for 2^32 ms counts as online |
| `Timeouts.Watchdog.GatewayBeat` | firmware/powertrain_ecu/src/watchdog_task.c:11-16 | the gateway is online from this time and torque is not disabled |
| `Timeouts.Watchdog.CheckGateway` | firmware/powertrain_ecu/src/watchdog_task.c:18-35 | the cell law with 250 ms; torque is disabled, and a timeout reported, exactly while the gateway is offline |
| `HeartbeatMonitor.Monitor.Register` | firmware/gateway_ecu/src/heartbeat_monitor.c:15-27 | appends a silent node, or refuses when eight are there |
| `HeartbeatMonitor.Monitor.Beat` | firmware/gateway_ecu/src/heartbeat_monitor.c:29-41 | only the first node with the id hears the beat |
| `HeartbeatMonitor.Monitor.Check` | firmware/gateway_ecu/src/heartbeat_monitor.c:43-60 | each node after its own timeout test, and the number taken offline (`HeartbeatMonitor.DroppedCounts`) |
| `HeartbeatMonitor.Monitor.QueryAllOnline` | firmware/gateway_ecu/src/heartbeat_monitor.c:62-73 | all registered nodes are online and there is one |
| `HeartbeatMonitor.Monitor.LastTransitionNode` | firmware/gateway_ecu/src/heartbeat_monitor.c:86-104 | the first offline node in registration order, 0 if none |
| `HeartbeatMonitor.DroppedCounts` | firmware/gateway_ecu/src/heartbeat_monitor.c:43-60 | the number of transitions is the number of nodes that were online and have been silent for their timeout or longer |
| `HeartbeatMonitor.FirstOfflineIs` | firmware/gateway_ecu/src/heartbeat_monitor.c:86-104 | the node blamed is offline and every node registered before it is online; 0 if all are online |
| `HeartbeatMonitor.NodeIsItsCell` | firmware/gateway_ecu/src/heartbeat_monitor.c:29-60 | in every run of the table each node is the cell that sees its own beats and all checks |
| `HeartbeatMonitor.OnlineBitsAreTrue` | firmware/gateway_ecu/src/heartbeat_monitor.c:29-60 | after every check of a run each node's online bit is the real-time truth |
| `FaultManager.Manager.Report` | firmware/gateway_ecu/src/fault_manager.c:11-44 | updates the entry of the key or appends one, moves a byte counter only on activation, and refuses only a new key in a full table |
| `FaultManager.Manager.Clear` | firmware/gateway_ecu/src/fault_manager.c:46-59 | silences the first active entry with the key and lowers its counter |
| `FaultManager.Manager.ClearNode` | firmware/gateway_ecu/src/fault_manager.c:61-71 | silences the node's entries and lowers the counters by what they counted |
| `FaultManager.Manager.ClearAll` | firmware/gateway_ecu/src/fault_manager.c:73-82 | silences all entries and lowers the counters by what they counted |
| `FaultManager.Manager.ActiveCount` | firmware/gateway_ecu/src/fault_manager.c:89-98 | the number of active entries |
| `FaultManager.Manager.FirstActiveDtc` | firmware/gateway_ecu/src/main.c:262-282 | the number of active entries and the key of the first |
| `FaultManager.ReportKeepsRecount` | firmware/gateway_ecu/src/fault_manager.c:11-44 | a report keeps keys distinct and counters equal to a recount if and only if it does not move an active fault to another counted severity |
| `FaultManager.DowngradeStaysCritical` | firmware/gateway_ecu/src/fault_manager.c:19-24 | the failing case: a downgraded fault stays in the critical counter |
| `FaultManager.ClearScopeKeepsRecount` | firmware/gateway_ecu/src/fault_manager.c:61-82 | clearing a node or everything keeps the recount and never underflows a counter |
| `FaultManager.ClearOneKeepsRecount` | firmware/gateway_ecu/src/fault_manager.c:46-59 | clearing one key keeps the recount |
| `FaultManager.ClearOneSilencesKey` | firmware/gateway_ecu/src/fault_manager.c:46-59 | afterwards no entry with that key is active |
| `FaultManager.RunsStayConsistent` | firmware/gateway_ecu/src/fault_manager.c:11-82 | with one severity per (node, code), every sequence of operations keeps keys distinct and both counters exact |
| `FaultManager.CriticalFlagIsExact` | firmware/gateway_ecu/src/fault_manager.c:84-87 | the critical flag says whether an active critical fault exists |
| `FaultManager.CountIsCardinality` | firmware/gateway_ecu/src/fault_manager.c:89-98 | each count is the number of positions with an active entry of the scope and severity |
| `FaultManager.FirstActiveKeyIs` | firmware/gateway_ecu/src/main.c:262-282 | the key read is that of the first active entry, and zeros if none is active |
| `FaultManager.ClearNodeDropsItsOwn` | firmware/gateway_ecu/src/fault_manager.c:61-71 | the active count falls by exactly the node's active faults and other entries are unchanged |
| `Vehicle.ModeBytes` | common/include/microcar_protocol.h:72-82 | mode bytes and modes stand for each other one to one, in the declared order |
| `Vehicle.FaultLatches` | common/src/microcar_protocol.c:250-313 | over every sequence of updates: FAULT exactly if it was on or a fault ever was active; charging and update modes stay; else LIMP exactly if last asked for |
| `Vehicle.UpdatesNeverEnterDrive` | common/src/microcar_protocol.c:250-313 | DRIVE after a sequence of updates was there before and every update saw all nodes online and no fault or limp request |
| `Vehicle.NodesDecide` | common/src/microcar_protocol.c:250-313 | over every sequence of updates without fault or limp request: parked vehicles are READY exactly if the last update saw every node, a driving one drives until the first update that misses a node and stops to READY in it, and any other unheld mode goes to OFF first |
| `Vehicle.UpdateRecords` | firmware/gateway_ecu/src/gateway_state.c:14-35 | the other fields are the inputs of the last update, and the boot flag never changes |
| `Gateway.GatewayEcu.constructor` | firmware/gateway_ecu/src/main.c:129-142 | mode OFF, no session, empty fault table, the three nodes registered with 300 ms |
| `Gateway.GatewayEcu.HandleBmsFault` | firmware/gateway_ecu/src/main.c:244-260 | reports the code for the BMS with the severity of the code |
| `Gateway.GatewayEcu.HandleDiagRequest` | firmware/gateway_ecu/src/main.c:309-381 | new state and answer of every service, short and unknown requests included; what they are is said by `GatewayFaults.RequestChanges`, `StatusExactly` and `ValuesExactly` |
| `Gateway.GatewayEcu.UpdateVehicleMode` | firmware/gateway_ecu/src/main.c:605-631 | a session without critical fault forces SERVICE, else the mode machine steps |
| `Gateway.GatewayEcu.Tick` | firmware/gateway_ecu/src/main.c:773-814 | dequeued beats, timeout check, BMS report and mode update as one step |
| `Gateway.GatewayEcu.EnterDrive` | firmware/gateway_ecu/src/gateway_state.c:37-42 | DRIVE only from READY |
| `Gateway.GatewayEcu.Reboot` | firmware/gateway_ecu/src/gateway_state.c:44-52 | the vehicle state is reset; session and tables are not |
| `GatewayRuns.RunsAreSound` | firmware/gateway_ecu/src/main.c:244-381 | every run keeps the node table, exact counters with graded severities, and the session/mode relation |
| `GatewayRuns.SessionMode` | firmware/gateway_ecu/src/main.c:309-381 | in every run with a session the mode is OFF if and only if a reboot has been followed by no tick and no session start, and else SERVICE or FAULT |
| `GatewayRuns.SessionOutlivesReboot` | firmware/gateway_ecu/src/gateway_state.c:44-52 | the run of a session start and a reboot, with a session in OFF |
| `GatewayRuns.DriveNeverBecomesService` | firmware/gateway_ecu/src/main.c:309-381 | no step of any run goes from DRIVE to SERVICE |
| `GatewayRuns.TickEndsInFaultExactly` | firmware/gateway_ecu/src/main.c:605-631 | a tick ends in FAULT exactly if a critical fault is active after it, or FAULT was on without a session |
| `GatewayRuns.FaultIsLeftOnlyInSession` | firmware/gateway_ecu/src/main.c:309-381 | FAULT is left only by a reboot or with a session active |
| `GatewayRuns.ClearThenRead` | firmware/gateway_ecu/src/main.c:344-365 | in a session CLEAR_DTCS lowers the next READ_DTCS count by exactly the active BMS faults and leaves other nodes' entries alone |
| `GatewayRuns.BmsStaysOnline` | firmware/gateway_ecu/src/main.c:773-814 | until 300 ms after its last beat the BMS stays online, whatever else happens |
| `GatewayRuns.NodeAfterTick` | firmware/gateway_ecu/src/main.c:773-810 | each node is online after a tick exactly if it beats in it or was online with a beat less than 300 ms old |
| `GatewayRuns.LostBmsRule` | firmware/gateway_ecu/src/main.c:796-810 | at the first tick 300 ms or more after the last beat, COMM_ERROR is active if and only if it already was, or the powertrain is alive (its beat in the tick or less than 300 ms old) and the table takes the report; the mode is FAULT if and only if that holds, a critical fault was active, or FAULT was on without a session |
| `GatewayRuns.LostBmsOnTime` | firmware/gateway_ecu/src/main.c:773-814 | with 10 ms ticks, from any run: the BMS is online until the tick exactly 300 ms after its last dequeued beat, and that tick records COMM_ERROR and ends in FAULT under exactly those conditions |
| `GatewayRuns.LostBmsUnnoticed` | firmware/gateway_ecu/src/heartbeat_monitor.c:86-104 | a run in which the BMS is lost with the powertrain offline and no fault is recorded |
| `GatewayFaults.SessionExactly` | firmware/gateway_ecu/src/main.c:320-338 | in every run a session is active if and only if a start was accepted (the mode was not DRIVE) and no end has come since; ticks, faults and reboots do not matter |
| `GatewayFaults.GoesQuietExactly` | firmware/gateway_ecu/src/main.c:353-365 | in every run a step silences an active entry if and only if the entry is the BMS's and the step is CLEAR_DTCS of at least four bytes in a session |
| `GatewayFaults.KeysStay` | firmware/gateway_ecu/src/fault_manager.c:11-82 | no step moves an entry or changes its key |
| `GatewayFaults.TickReportsExactly` | firmware/gateway_ecu/src/main.c:796-810 | a tick reports COMM_ERROR if and only if the powertrain is alive, the BMS is not, and the BMS or the dashboard is dropped just now; else it leaves the table alone |
| `GatewayFaults.CommErrorExactly` | firmware/gateway_ecu/src/main.c:244-365 | over every run COMM_ERROR is active if and only if a frame or such a tick raised it, the table took it, and no CLEAR_DTCS of a session came since |
| `GatewayFaults.QuietRunsRecordNothing` | firmware/gateway_ecu/src/main.c:796-810 | a run without a COMM_ERROR frame in which no tick drops the BMS or the dashboard never records it |
| `GatewayFaults.BootWithPowertrain` | firmware/gateway_ecu/src/main.c:796-810 | a boot in which the powertrain beats first records nothing and stays in OFF |
| `GatewayFaults.SilentBmsIsBlamed` | firmware/gateway_ecu/src/heartbeat_monitor.c:86-104 | a run in which the BMS was never heard, the dashboard is dropped, and the BMS gets the fault |
| `GatewayFaults.CountersByCode` | firmware/gateway_ecu/src/fault_manager.c:100-114 | in every run the critical counter is the number of active entries with code 1, 2 or 5, and the warning counter that of 3 and 4 |
| `GatewayFaults.RequestChanges` | firmware/gateway_ecu/src/main.c:309-381 | a request changes the mode only by an accepted start, the session by start and end, the table by a clear in a session, and the nodes never |
| `GatewayFaults.StatusExactly` | firmware/gateway_ecu/src/main.c:309-381 | in every run: no answer exactly below four bytes; rejected exactly for a start while driving and for a clear or actuator test without a session; unsupported exactly for an unknown service |
| `GatewayFaults.ValuesExactly` | firmware/gateway_ecu/src/main.c:309-381 | the value of an answer is the mode after the request, the number of active faults with the first code, or 0 |
| `GatewayFaults.ModesOfRuns` | firmware/gateway_ecu/src/main.c:605-631 | gateway runs are only ever in OFF, READY, DRIVE, SERVICE or FAULT |
| `GatewayFaults.TickModeExactly` | firmware/gateway_ecu/src/main.c:605-631 | outside FAULT the mode after a tick is given by session, old mode and whether every node is alive; the recorded flags and counts are what the tick saw |
| `Powertrain.SafetyClampTorque` | firmware/powertrain_ecu/src/safety_rules.c:33-71 | the least of request, BMS limit and mode cap, 0 while braking or outside DRIVE and LIMP |
| `Powertrain.ProtocolClampTorque` | common/src/microcar_protocol.c:210-246 | the same value on all inputs, by signed arithmetic |
| `Powertrain.PowertrainEcu.DispatchFrame` | firmware/powertrain_ecu/src/main.c:140-191 | which input each frame id sets; only a gateway heartbeat feeds the watchdog |
| `Powertrain.PowertrainEcu.ComputeTorque` | firmware/powertrain_ecu/src/torque_controller.c:33-59 | torque and enable flag, both off on an invalid throttle |
| `Powertrain.PowertrainEcu.WatchdogTimer` | firmware/powertrain_ecu/src/main.c:66-82 | the watchdog check at 250 ms; the enable flag is kept only while the gateway is online |
| `Powertrain.InputsAreTheLastFrames` | firmware/powertrain_ecu/src/main.c:140-191 | after any history the inputs are the bytes of the last frame of each kind |
| `Powertrain.MotorCommand` | firmware/powertrain_ecu/src/torque_controller.c:33-59 | for every history the command sent is the least of last throttle, last BMS limit and mode cap (100, or 25 in LIMP), 0 otherwise, and the motor is enabled exactly in DRIVE or LIMP with a throttle up to 100 |
| `Powertrain.WatchdogIsItsCell` | firmware/powertrain_ecu/src/watchdog_task.c:11-35 | over every history the watchdog is the cell that sees the gateway's heartbeats and the timer checks |
| `Powertrain.TimerSeesLostGateway` | firmware/powertrain_ecu/src/main.c:66-82 | after a timer check the watchdog is online, and the motor still enabled, only if a gateway heartbeat is less than 250 ms old in real time |
| `Powertrain.TimerDoesNotStopTorque` | firmware/powertrain_ecu/src/torque_controller.c:52-56 | with the gateway silent in real time for 250 ms or more, the timer clears the enable flag and the next command is the same as without it: disabled if and only if mode or throttle disable it |
| `Powertrain.TorqueWithoutGateway` | firmware/powertrain_ecu/src/torque_controller.c:33-59 | for every silence of 250 ms or more, a history that sends an enabled command of 50 percent without a gateway |
| `Powertrain.BmsLimits.Compute` | firmware/bms_ecu/src/bms_limits.c:13-44 | limit and reason of each BMS state |
| `Powertrain.TemperatureBands` | common/src/microcar_protocol.c:183-208 | each limit and each reason is sent in exactly one band of temperatures, with edges at 60.0, 75.0 and 90.0 C |
| `Powertrain.BandsDifferExactly` | common/src/microcar_protocol.c:183-208 | code and documented table differ at exactly 60.0 and 90.0 C, where the code is stricter |
| `Powertrain.HotPackLimitsTorque` | common/src/microcar_protocol.c:183-246 | from temperature through BMS limit and frames to the motor: 75.0 C or more leaves at most 25, 90.0 C or more leaves 0 |
| `Powertrain.CoolPackIsNoLimit` | common/src/microcar_protocol.c:183-246 | below 75.0 C the BMS never reduces the torque |
| `TorqueChain.CommandFollowsMode` | firmware/powertrain_ecu/src/main.c:150-155 | a powertrain of any history that receives the gateway's mode enables the motor exactly in DRIVE or LIMP with a valid throttle |
| `TorqueChain.TickFromDrive` | firmware/gateway_ecu/src/main.c:605-631 | in every run a tick takes DRIVE to FAULT with a critical fault, else keeps it if all nodes are online, else goes to READY |
| `TorqueChain.DashboardDecides` | common/src/microcar_protocol.c:250-313 | while driving, with powertrain and BMS online, no critical fault and a valid throttle, the next command is enabled if and only if the dashboard is online |
| `TorqueChain.LostDashboardEndsDrive` | common/src/microcar_protocol.c:250-313 | a run in which the dashboard alone falls silent and torque stops, whatever the powertrain's history |
| `TorqueChain.CriticalFaultStopsMotor` | firmware/gateway_ecu/src/main.c:244-260 | after a critical BMS fault the next tick of any run ends in FAULT and the motor is disabled if the table takes the report; if not, the frame changes nothing, so FAULT follows exactly if the report is taken or the tick would end in FAULT anyway |
| `TorqueChain.FullTableHidesCriticalFault` | firmware/gateway_ecu/src/fault_manager.c:30-44 | a run in which sixteen unknown codes fill the table, a critical fault is dropped and the motor stays enabled |
| `Charging.ChargingStep` | common/src/microcar_charging.c:27-118 | output and return code are those of the state's own rule first, then critical fault, then unplug |
| `Charging.NumberNeverFalls` | common/src/microcar_charging.c:27-118 | in every run the state number falls only to 0 by an unplug without critical fault |
| `Charging.FaultIsLeftExactlyByUnplug` | common/src/microcar_charging.c:95-118 | FAULT is left exactly by an unplug without critical fault |
| `Charging.CurrentIsBounded` | common/src/microcar_charging.c:49-66 | a nonzero current is commanded only on entering ACTIVE or LIMITED, and is then the lesser of offer and BMS limit |
| `Charging.FindPlug` | common/src/microcar_charging.c:31-37 | every connected state goes back to a plug-in with no disconnection since |
| `Charging.ChargingNeedsHandshake` | common/src/microcar_charging.c:31-84 | HANDSHAKE, ACTIVE, LIMITED and COMPLETE are reached only after a plug and then a handshake since the last disconnection |
| `Charging.ActiveExactly` | common/src/microcar_charging.c:27-118 | a run is charging if and only if a plug while disconnected, a handshake and a nonzero BMS limit occurred in order, and no event in between or since was critical, an unplug or the next stage's trigger |
| `Charging.StateExactly` | common/src/microcar_charging.c:27-118 | for every state: a run is in it if and only if an event entered it by one of its listed entrances and every later event waits in it, or it never left DISCONNECTED |
| `Charging.Entrances` | common/src/microcar_charging.c:27-118 | each state's entrances, listed by target: COMPLETE exactly by a reached target SOC while charging, FAULT and DISCONNECTED exactly where no own rule applies |
| `Charging.RejectsExactly` | common/src/microcar_charging.c:111-118 | a step reports rejection exactly if it stays, but for a faulted state under a critical fault |
| `Charging.CriticalFaultsExactly` | common/src/microcar_charging.c:95-102 | a critical fault leads to FAULT if and only if the state's own rule does not apply to the event |
| `Charging.ChargingStartsDuringFault` | common/src/microcar_charging.c:49-57 | an event with a critical fault that starts charging with current |
| `Charging.ModeTracksConnection` | common/src/microcar_charging.c:132-141 | along every run the vehicle shows CHARGING exactly while connected and not faulted, FAULT exactly in FAULT, and OFF exactly while not connected |
| `VehiclePlant.Plant.Step` | plant/src/vehicle.rs:32-54 | new speed with 32-bit products, truncating division, clamp and 16-bit cast, the brake winning over the torque; an overflow is an outcome of its own |
| `VehiclePlant.Plant.SetDriverInput` | plant/src/vehicle.rs:56-60 | throttle and brake are set, everything else is kept |
| `VehiclePlant.Plant.SetMotorTorque` | plant/src/vehicle.rs:62-65 | the torque command is set, everything else is kept |
| `VehiclePlant.RunsStayExact` | plant/src/vehicle.rs:32-54 | from rest, with ticks up to any limit of at most 41121 ms and any torques, no product overflows, no cast wraps, and the speed stays at or below the larger of 1270.0 km/h and one tick's gain |
| `VehiclePlant.LongerTickOverflows` | plant/src/vehicle.rs:32-54 | for every longer limit some run overflows |
| `VehiclePlant.ExactForAllRunsIff` | plant/src/vehicle.rs:32-54 | no run goes wrong if and only if the limit is at most 41121 ms |
| `VehiclePlant.SpeedBalance` | plant/src/vehicle.rs:32-54 | every tick, braking and regeneration included, changes the speed by torque over 100 less speed over 10000, times the tick, to within one unit each; only standing still cuts it off |
| `VehiclePlant.SpeedIsWork` | plant/src/vehicle.rs:32-54 | over every run that keeps moving, the speed is the sum of those balances to within two units per tick |
| `VehiclePlant.HistoriesStayExact` | plant/src/vehicle.rs:32-65 | every history of inputs, commands and ticks up to a limit of at most 41121 ms goes through without overflow or wrap, at the speed of its ticks under the last command or 0 under the brake, with the last inputs kept |
| `Battery.BatteryModel.Step` | plant/src/battery.rs:64-110 | charge, percentage, temperature, voltage and current after a torque-driven tick: those of the explicit current it draws (`Battery.DrivenIsFed`) |
| `Battery.BatteryModel.StepWithCurrent` | plant/src/battery.rs:117-140 | the same after a tick with a signed current, charge clamped to 0..100 %; a 64-bit overflow is an outcome of its own |
| `Battery.BatteryModel.CalcVoltage` | plant/src/battery.rs:153-158 | open-circuit voltage less sag, never below 0, cast to 16 bits |
| `Battery.VoltageFollowsLoad` | plant/src/battery.rs:153-158 | the voltage cast is exact up to 100 %, the voltage never falls with more charge and never rises with more current of either sign |
| `Battery.TemperatureStaysInRange` | plant/src/battery.rs:64-110 | with ticks up to any limit of at most 198474 ms the temperature stays between 20.0 C and the heating equilibrium (or one long tick), and the cast is exact |
| `Battery.CastExactForAllRunsIff` | plant/src/battery.rs:64-110 | the 16-bit temperature cast is exact in all runs if and only if ticks are at most 198474 ms |
| `Battery.LongerTickWraps` | plant/src/battery.rs:64-110 | one millisecond more, and a single tick wraps |
| `Battery.ChargeStaysInRange` | plant/src/battery.rs:117-140 | in every run the internal charge stays in 0..100000 and the percentage is within half a percent of it |
| `Battery.TruncationErrorIsBounded` | plant/src/battery.rs:117-140 | while unclamped, n steps differ from the charge that flowed, in the code's unit of 180000 mA ms, by less than n milli-percent |
| `Battery.DocumentedExactly` | plant/src/battery.rs:74-83 | a tick moves the documented charge if and only if it moves less than 180000 mA ms; in general between ten times that charge and nine milli-percent more |
| `Battery.TenfoldTick` | plant/src/battery.rs:74-83 | 50 A for ten seconds: 2777 milli-percent where 50 Ah would lose 277 |
| `Battery.TenfoldOverRuns` | plant/src/battery.rs:117-128 | while unclamped, a run loses ten times the charge a 50 Ah pack would, to within n milli-percent |
| `Battery.DrivenIsFed` | plant/src/battery.rs:64-140 | a torque-driven tick is, in every field, the explicit-current tick of 500 mA per percent of torque of either sign |
| `Battery.DriveIsFed` | plant/src/battery.rs:64-140 | a driven run is the run of its draws, so every charge theorem holds for driving |
| `Battery.DrivingDischarges` | plant/src/battery.rs:64-110 | every driven tick takes its draw over 180000 mA ms, never charges, stops at empty, and shows current, rounded percentage and sagged voltage |
| `Battery.DrivingTruncation` | plant/src/battery.rs:64-110 | the truncation bound for driving |
| `Battery.PercentRounds` | plant/src/battery.rs:81-84 | the percentage is the charge rounded to the nearest, at most 100 |
| `Battery.HeatBalance` | plant/src/battery.rs:86-107 | the temperature change of a tick is the heat of the squared current less the cooling, to within a tenth of a degree each, and never goes below 20.0 C |
| `Battery.FedHeat` | plant/src/battery.rs:117-140 | the same balance after an explicit current of either sign, as long as it fits 16 bits |
| `Battery.ReplayRestoresCharge` | plant/src/battery.rs:117-140 | while unclamped, replaying the negated currents in any order restores the charge exactly |
| `Battery.ProductsFit` | plant/src/battery.rs:117-140 | with ticks up to 2000001 ms no step with any current overflows |
| `Battery.DrivenProductsFit` | plant/src/battery.rs:64-110 | a torque-driven tick of any length overflows no product |
| `Battery.LongerTickOverflows` | plant/src/battery.rs:117-140 | one millisecond more, and a step with the largest current overflows, from any state |
| `Battery.FedRunsFitIff` | plant/src/battery.rs:117-140 | no run of explicit currents overflows if and only if its ticks are at most 2000001 ms |
| `Validate.SelectAndSort` | src/validate.rs:207-218 | the four kinds of frame, in stable time order |
| `Validate.SortIsStable` | src/validate.rs:207-218 | the order is by time and keeps the listing order within each instant |
| `Validate.StableOrderIsUnique` | src/validate.rs:207-218 | there is only one such order, so the sorting algorithm does not matter |
| `Validate.TimelineExactly` | src/validate.rs:207-218 | exactly the injected frames with id 0x610, 0x630, 0x631 or 0x632 are on the timeline |
| `Validate.FindsEcu` | src/validate.rs:187-195 | the loop finds whether the first machine of that name resolves |
| `Validate.IsEcuExactly` | src/validate.rs:187-195 | that is, some machine of that name resolves and no earlier one has the name |
| `Validate.BusMembers` | src/validate.rs:196-205 | the map built lists exactly the attachments |
| `Validate.CheckShape` | src/validate.rs:225-349 | the checks on a frame alone, written out in their order, give the first shape fault |
| `Validate.ShapeExactly` | src/validate.rs:225-349 | each shape fault is reported if and only if its condition is the first to fail: firmware actor, attachment, length 6/4/8/7, node 6 or 7, event at most 3, nonzero request id in byte 2 of a charger event or byte 1 of an OTA frame |
| `Validate.OrderExactly` | src/validate.rs:292-363 | each sequence fault is reported if and only if its condition fails: an earlier plug, the latest request for the id, the number of earlier chunks, the declared total |
| `Validate.ValidateFrame` | src/validate.rs:224-366 | one frame against the running maps: its fault by the rules, or maps that again count all frames so far; the byte counter never overflows |
| `Validate.ValidateExternalActorFrames` | src/validate.rs:184-369 | accepts exactly if no frame violates the rules, else reports the kind of the first violation in stable time order |
| `Validate.AcceptedExactly` | src/validate.rs:184-369 | a scenario is accepted if and only if every frame on its timeline is well formed and in sequence, both said with literal ids, lengths and bytes |
| `Validate.VerdictIsUnique` | src/validate.rs:184-369 | the rules admit one verdict |
| `Validate.ChunksAreNumbered` | src/validate.rs:184-369 | in an accepted scenario the chunks of a request are numbered 0, 1, 2, ... without gap or repeat |
| `Validate.FinishedTransfersAreComplete` | src/validate.rs:184-369 | an accepted finish comes after every chunk index below the total it names |
| `Validate.ListingOrderIsIrrelevant` | src/validate.rs:184-369 | listings with the same frames in each instant are judged on the same timeline |
| `TraceNormalize.Collapse` | dogfood/src/trace_hash.rs:40-58 | the loop joins the white-space separated tokens with single blanks |
| `TraceNormalize.ScrubPointers` | dogfood/src/trace_hash.rs:62-88 | the index scan computes the recursive scrub |
| `TraceNormalize.ComputeNormalizeLine` | dogfood/src/trace_hash.rs:40-88 | the composition of both on UTF-8 bytes, each pushed as a character |
| `TraceNormalize.WhiteSpaceIs` | dogfood/src/trace_hash.rs:44-48 | the characters that separate tokens are the 25 of Unicode white space |
| `TraceNormalize.Utf8Decodes` | dogfood/src/trace_hash.rs:62-63 | the bytes scanned are UTF-8: shortest form, bytes in their ranges, and every character is read back |
| `TraceNormalize.HexDigitsAre` | dogfood/src/trace_hash.rs:71-73 | the digits counted are 0-9, a-f and A-F |
| `TraceNormalize.SplitOfJoin` | dogfood/src/trace_hash.rs:40-58 | splitting undoes joining for every list of tokens |
| `TraceNormalize.NormalizesTokenwise` | dogfood/src/trace_hash.rs:40-88 | every line is normalised token by token |
| `TraceNormalize.SpacingIsIrrelevant` | dogfood/src/trace_hash.rs:40-88 | the result depends only on the token list |
| `TraceNormalize.ScrubTwice` | dogfood/src/trace_hash.rs:62-88 | scrubbing is idempotent on all bytes |
| `TraceNormalize.ScrubChangesExactlyPointers` | dogfood/src/trace_hash.rs:62-88 | a text is unchanged if and only if no position starts a pointer of eight or more digits, so short CAN ids survive |
| `TraceNormalize.ScrubbedHasNoPointer` | dogfood/src/trace_hash.rs:62-88 | no position of a scrubbed text starts a pointer |
| `TraceIdempotence.IdempotentExactlyOnPlainLines` | dogfood/src/trace_hash.rs:40-88 | a second pass changes nothing if and only if the line's characters that are not white space are ASCII |
| `TraceIdempotence.AccentedLetterIsUnstable` | dogfood/src/trace_hash.rs:62-88 | a one-letter line that a second pass changes |
| `TraceIdempotence.TraceIdempotence` | dogfood/src/trace_hash.rs:36-88 | the same law for whole traces |
| `ClockCheck.Check` | dogfood/src/invariants.rs:98-151 | skipped without stamped lines; passes, with exact counts, exactly if every stamp is not before its machine's last or not after any of its earlier ones; else reports the first that fails with its segment start and last time |
| `ClockCheck.Absorb` | dogfood/src/invariants.rs:104-134 | the stored segment start is always the running minimum of the machine's times |
| `ClockCheck.ShownIsParsed` | dogfood/src/invariants.rs:298-307 | every time below 2^64 is read back from its decimal form, with or without a plus sign; larger ones are not read |
| `ClockCheck.ParsedIsShown` | dogfood/src/invariants.rs:298-307 | whatever is read is the decimal form of the result, but for a plus sign and leading zeros |
| `ClockCheck.StampedExactly` | dogfood/src/invariants.rs:298-307 | a line is stamped exactly if its first token starts with `[machine.` and its second is such a number; the rest does not matter |
| `ClockCheck.OrderIsPerMachine` | dogfood/src/invariants.rs:98-151 | a trace is in order if and only if each machine's own times are, however they interleave |
| `ClockCheck.NormalisationKeepsTheClock` | dogfood/src/invariants.rs:298-307 | normalising a plain line keeps its time, and its machine up to scrubbing; unstamped lines stay unstamped |
| `Framebuffer.FillRect` | common/src/microcar_dashboard.c:21-28 | every pixel of a rectangle on the screen is coloured and no other; one that does not fit draws nothing |
| `Framebuffer.DrawBorder` | common/src/microcar_dashboard.c:31-48 | exactly the positions on the border are coloured, for every rectangle that starts inside the framebuffer; what leaves the screen on the right runs on in the next row, what leaves it at the bottom is cut off |
| `Framebuffer.BorderedOnScreen` | common/src/microcar_dashboard.c:31-48 | on the screen those positions are the four edges |
| `Framebuffer.BorderPixel` | common/src/microcar_dashboard.c:31-48 | a border is the rectangle without its interior |
| `Framebuffer.DrawBar` | common/src/microcar_dashboard.c:51-65 | border, cleared interior and green part, with the early returns, for every rectangle that starts inside the framebuffer |
| `Framebuffer.BarPixel` | common/src/microcar_dashboard.c:51-65 | each pixel of a bar is white on the edge, green up to the scaled value, background after it |
| `Digits.DigitString` | common/src/microcar_dashboard.c:123-135 | the buffer holds the decimal digits, at most seven, most significant first |
| `Digits.LowDigitsArePlaces` | common/src/microcar_dashboard.c:123-135 | digit k from the right is the k-th decimal place, and no leading zeros are present |
| `Digits.MasksAreShapes` | common/src/microcar_dashboard.c:85-96 | each mask bit is set exactly for the segments of the usual shape of the digit |
| `Digits.CellGeometry` | common/src/microcar_dashboard.c:69-82 | strokes of 8 pixels in a cell of 30 by 46: three centred bars, two pairs of uprights against the sides, each between two bars |
| `Digits.DrawDigit` | common/src/microcar_dashboard.c:104-115 | the segments of the mask in order; nothing above 9 |
| `Digits.DigitPixel` | common/src/microcar_dashboard.c:104-115 | a pixel of the cell is lit exactly if a segment of the digit covers it |
| `Digits.DrawNumber` | common/src/microcar_dashboard.c:119-146 | cleared region and right-aligned digit row, for every value |
| `Digits.NumberPixel` | common/src/microcar_dashboard.c:119-146 | each pixel shows the decimal place its column belongs to, counted from the right edge |
| `Digits.DrawMinus` | common/src/microcar_dashboard.c:149-161 | the sign and the cleared part right of it |
| `Dashboard.DashState.constructor` | common/src/microcar_dashboard.c:165-171 | unset mode, all values zero |
| `Dashboard.DashState.SetMode` | common/src/microcar_dashboard.c:173-188 | mode and the background of the mode, unknown bytes included |
| `Dashboard.BackgroundColors` | common/src/microcar_dashboard.c:173-188 | the background of each mode byte by its red, green and blue channels; every byte without one is black |
| `Dashboard.DashState.Render` | common/src/microcar_dashboard.c:190-296 | the framebuffer is the old one under a clear on a changed mode and the body of the screen; only the previous mode changes in the state |
| `DashboardPicture.BodyPixel` | common/src/microcar_dashboard.c:204-295 | in every mode and page, each pixel the body touches gets the declared picture and no pixel outside the changing regions is lost |
| `DashboardPicture.RedrawIsScreen` | common/src/microcar_dashboard.c:190-296 | drawn on a cleared screen the result is the declared picture, whatever was there before |
| `DashboardPicture.BodyOnCache` | common/src/microcar_dashboard.c:190-296 | a render without a clear keeps the static picture, completes it when the values are shown, and leaves changing regions untouched when not |
| `DashboardRuns.RunsAreSound` | common/src/microcar_dashboard.c:165-296 | every history keeps the static picture of the last rendered mode outside the changing regions |
| `DashboardRuns.IncrementalIsRedraw` | common/src/microcar_dashboard.c:190-296 | after any history over any initial framebuffer, a render that shows the values equals a redraw from a cleared screen |
| `DashboardRuns.HiddenValuesStay` | common/src/microcar_dashboard.c:217-282 | for every paged screen on another page a history that leaves stale values visible |
| `DashboardRuns.AlwaysCurrentIff` | common/src/microcar_dashboard.c:190-296 | a state is displayed correctly after every history if and only if its page is 0 or its screen has no pages |
| `DashboardReading.SpeedIsRead` | common/src/microcar_dashboard.c:212-221 | seven probe points per cell recover every speed from the screen |
| `DashboardReading.TorqueIsRead` | common/src/microcar_dashboard.c:224-263 | sign and magnitude of every torque are recovered, over all 256 values |
| `DashboardReading.BarsAreScales` | common/src/microcar_dashboard.c:273-289 | the pixel at the mark for v percent is green exactly if the value is at least v |

## Left out

- The costar simulator, FreeRTOS and Zephyr: tasks interleave as an arbitrary sequence of events, mutexes are always acquired, and frames and dequeued heartbeats are arbitrary inputs (queue capacity is not modelled).
- Dogfood scripts and seeded-bug flags of gateway and powertrain: taken as 0.
- The Rust mirrors of the C state machines where they differ in thresholds; only the record writer of state_tests/src/ota_slot.rs is modelled from Rust.
- Null state pointers: only a null record, which the code handles by name, is modelled.
- Validate: the checks of `validate_scenario` before the external-actor pass, the wording of messages, and the table that resolves names to ECUs, which is an input per machine.
- Validate.SelectAndSort: sorts by a function on sequences and not in place; uniqueness of the stable order makes the result independent of the algorithm.
- OtaFlash: the source has no flash writer; a save goes to the page not in use, with a higher generation (the 32-bit generation does not wrap), and one that is cut short leaves a page the validity test rejects. Bursts of up to 32 bits are proved to be rejected; other partial writes may in principle collide with the CRC.
- OtaSlot: the image download itself.
- TraceNormalize: the FNV hash of normalised lines.
- ClockCheck: the other trace invariants, which look at status and emptiness only.
- Powertrain: gear has no effect in the source and none here; periodic sending and traces are not modelled.
- Charging: state bytes outside the enumeration, and the helper functions for temperature limit and target clamp.
- Battery: floating-point temperature access and the saturated 16-bit current for the bus.
- Battery.TemperatureStaysInRange: covers torque-driven ticks; an explicit current is bounded only by 32 bits, and one tick of a large one already exceeds a 16-bit temperature.
- Gateway: LIMP from firmware ticks, since the limp request is the constant 0 there; `Vehicle.FaultLatches` covers it through the update function.
- Framebuffer.DrawBorder: a rectangle whose corner lies before the framebuffer, where the source writes out of bounds.
- Dashboard: touch input and display calls; a page flip is an arbitrary update of the page byte.
- Telematics, demo ECUs, boot coordinator, subprocess runner, reports, JSON printer and the Python trace checker.
