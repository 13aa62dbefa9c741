# MCom-02 drivers: models and proofs

This project models the stateful parts of the drivers in this repository and proves what they keep.
Each driver is modelled twice: as functions on values that say what one call, pulse or event does, and
as methods that do it in the driver's own way, with loops and in-place updates, proved equal to those
functions and to keep what the runs keep. The theorems are about the functions: over every run, every interleaving and every answer of
the hardware. Hardware answers, clocks and unseen library calls are parameters.

| files | what they model |
|---|---|
| `IdentModel`, `IdentRuns`, `IdentTrace`, `IdentArgs`, `IdentChoices`, `IdentFlags`, `IdentNoHs`, `IdentDriver` | identification of an MMC or SD card |
| `Csd`, `Powers` | the card-specific data decoders |
| `WriteProtect`, `BitAnd` | the two write-protect loops |
| `TransferModel`, `TransferRuns`, `TransferSafety`, `TransferFaults`, `TransferProtect`, `TransferDriver`, `PioLoop` | the MMC transfer engine |
| `PowerModel`, `PowerDriver` | power management of the SD/MMC adapter |
| `JobModel`, `JobList`, `JobLists`, `JobRuns`, `JobBlock`, `JobCores`, `JobControl` | the DSP job manager, its cores and its requests |
| `IrqModel`, `IrqIndex`, `EventQueue`, `SerIntr` | the serial driver's interrupt index and event queue |
| `Cursor` | the hardware cursor packer |
| `Words` | machine words and shared small definitions |

## Where the code and its intention part

The models follow the code. Where a stated or evident intention fails, a theorem says exactly when it
holds.

- `_elcore_job_list.c:288` stores the predecessor of the removed job (compare 271-276). Removal is right
  exactly for the queue's head (`JobRuns.RemovalExactly`, `JobRuns.CancelSecondBreaks`); the policy
  `Repaired` is the same code storing the removed job.
- `_elcore_job_list.c:100-105` does not make the first stored job idle, so creation keeps the manager well
  formed exactly when storage is not empty or the job comes idle (`JobRuns.UnpermittedBreaks`).
- `_elcore_devctl.c:182` lets core numbers up to 2 through, the device has two cores (`mcom_dsp.h:8`), and
  `_elcore_job_list.c:127` and `143` look the number up in one block of maxima and counters (25-26) without a
  test. The maximum of core 2 is the counter of core 0, and its counter lies behind the block. The handle can
  then be freed with a job left (`JobBlock.FreedWithJob`); the test suffices exactly when there are more cores
  than it lets through (`JobBlock.GuardSufficesExactly`).
- `mcom_dsp.c:445` tests whether the job to start is already running, but looks at a waiting one. So a core
  can be started on a second job, and the first then never completes (`JobCores.CompletesExactly`,
  `JobCores.OverwrittenJob`).
- `_elcore_job_list.c:125` and `139` lock twice; the model takes them as one critical section.
- `_elcore_devctl.c:415` tests a status that line 413 has overwritten, so cancelling never restarts a core.
- `mmcsd.c:1078-1079` clears the write-protect flag before power-up, and the SDHCI power-up sets it again
  from the lock switch (`IdentFlags.ResetReadsSwitch`).
- The option documented as disabling high speed (`devb-mmcsd.use:19`) is looked at on one path only
  (`IdentNoHs.NoHighSpeedExactly`); the MMC path never looks at it (`IdentNoHs.MmcSwitchesExactly`).
- `mmcsd.c:1121` gives up on an MMC card before looking at any answer when the power delay is over 1500 ms.
- `mmcsd.c:1267-1277` reports success without moving; such calls are counted apart as stutters.
- `mmcsd.c:219-231` rounds with a mask, which is right exactly for power-of-two groups; and it protects a
  group when no block is asked for, where the SDIO driver protects none (`WriteProtect.EmptyRequestDiffers`).
- `mmcsd.c:234` sends block numbers to byte-addressed cards as well, where `sim_sdmmc.c:1217` scales them
  (`WriteProtect.ByteAddressesAgreeExactly`).
- `sim_mmc.c:1055-1058` and `1073-1076` take an answer of zero bytes for the end of a port transfer, also
  when an empty scatter segment offers none. The request still completes (`TransferSafety.CompletesExactly`);
  `PioLoop.Transfer.MoveScatter` says exactly when all of it was moved.
- `sim_mmc.c:1300` executes the active request from its beginning when an identification finishes, which an
  insertion or a reset may have asked for in the middle of it (`sim.c:234-272`). So a request that saw a data
  error, or whose command was never stopped, can be posted as completed. `TransferFaults` has such runs, says
  exactly which requests can (`CompletesFaultedExactly`, `CompletesUnstoppedExactly`), and that none does in a
  run where the driver gives up on no stop command and insertions come only while no request is active
  (`UndisturbedNeverFaulted`).
- `sim_mmc.c:987-992` completes a scatter transfer with what the controller set up, without comparing it
  with the list (`TransferSafety.CompletedMeansDone` says so exactly).
- `sim_mmc.c:1350` asks for re-identification, and `1491` overwrites it in the same interrupt; nothing here depends
  on it.
- `sim_sdmmc.c:955-969` disarms the timer for a time of zero, so a zero idle time means never idle.

## Model

| member | source | states |
|---|---|---|
| IdentRuns.AttemptsEnd | src/hardware/devb/mmcsd/mmcsd.c:1071-1256 | Whatever the card and the controller answer, an identification attempt takes at most 4022 successful calls plus one for each power-up retry and each stutter, and its 16-bit stage counter never passes 3001 |
| IdentRuns.RankFalls | src/hardware/devb/mmcsd/mmcsd.c:1540-1621 | Every successful call that does not stutter lowers one rank over all phases, so the three self-loops and the out-of-order enumeration cannot go round |
| IdentRuns.StutterStays | src/hardware/devb/mmcsd/mmcsd.c:1267-1277 | Waiting for the reset, an interrupt with neither a completed command nor an error leaves everything as it was and still reports success |
| IdentRuns.NoStutters | src/hardware/devb/mmcsd/mmcsd.c:1267-1277 | An attempt whose interrupts all report a completed command or an error never stutters |
| IdentRuns.SessionKeeps | src/hardware/devb/mmcsd/sim.c:234-272 | Over any interleaving of control-thread restarts and interrupts: counters in range, power cycles counted only while restarting, flags clean until negotiated, SD and MMC phases never mixed, open-drain commands exactly while an MMC card is probed and addressed |
| IdentTrace.AttemptSpeaksGrammar | src/hardware/devb/mmcsd/mmcsd.c:1019-1621 | The commands of every attempt, the failing call included, are a prefix of a word of the identification grammar, and a completed attempt's commands are a word |
| IdentTrace.StepReads | src/hardware/devb/mmcsd/mmcsd.c:1019-1538 | Each call's commands continue the word read so far, and a successful call leaves the state that awaits the answer to the word's last command |
| IdentTrace.PrefixOfWord | src/hardware/devb/mmcsd/mmcsd.c:1166-1371 | Every stage of the grammar can be completed, so being readable means being a prefix of a full identification |
| IdentTrace.ApplicationCommands | src/hardware/devb/mmcsd/mmcsd.c:1166-1240 | Opcodes 41 and 51 and opcode 6 with argument 2 are alone in their call, directly follow the CMD55 of the call before, and handle an interrupt without error |
| IdentTrace.ApplicationFollowsApp | src/hardware/devb/mmcsd/mmcsd.c:1512-1538 | In any readable command sequence an application command has CMD55 right before it |
| IdentArgs.AddressedCommands | src/hardware/devb/mmcsd/mmcsd.c:1300-1370 | In every attempt, once a call has handled the answer to the address command without error, the argument of every later CMD7, CMD9, CMD10, CMD13 and CMD55, that call's own included, has the card's address in its upper 16 bits and nothing in its lower: 2 for an MMC card, and the upper half of the answer for an SD card |
| IdentArgs.AddressCommand | src/hardware/devb/mmcsd/mmcsd.c:1300-1312 | CMD3 offers an MMC card the address 2 and asks an SD card for its own |
| IdentArgs.ConditionCommands | src/hardware/devb/mmcsd/mmcsd.c:1166-1256 | The operating-condition commands first ask and then offer the host's window, with bit 30 for a version 2 SD card exactly |
| IdentArgs.SdWindow | src/hardware/devb/mmcsd/mmcsd.c:1179-1198 | The window offered to an SD card, bit by bit, from the controller's voltages |
| IdentArgs.MmcWindow | src/hardware/devb/mmcsd/mmcsd.c:1153-1163 | The window offered to an MMC card, from the controller's voltages |
| IdentArgs.OtherCommands | src/hardware/devb/mmcsd/mmcsd.c:1019-1538 | The arguments of all other commands: the version question, the two SD switch commands, the register and value of each MMC switch, with the bus width forced or the widest there is, the block length, and zero for the rest |
| IdentChoices.VersionExactly | src/hardware/devb/mmcsd/mmcsd.c:1280-1298 | What the answer to the version question decides, down to its bits |
| IdentChoices.SdPowerupExactly | src/hardware/devb/mmcsd/mmcsd.c:1166-1256 | When the SD loop gives up, turns to the MMC loop, ends, and finds a high-capacity card |
| IdentChoices.MmcPowerupExactly | src/hardware/devb/mmcsd/mmcsd.c:1108-1164 | When the MMC loop gives up, ends, and finds a high-capacity card |
| IdentChoices.TailExactly | src/hardware/devb/mmcsd/mmcsd.c:1019-1068 | Which command follows the status, the bus width, the configuration register, the switch check and the extended register, from the controller and the bits of the card's data |
| IdentChoices.RefusedExactly | src/hardware/devb/mmcsd/mmcsd.c:1300-1538 | Which calls fail before their command |
| IdentChoices.SucceedsExactly | src/hardware/devb/mmcsd/mmcsd.c:1540-1621 | A failing call issues nothing but what it completes; one that issues its command succeeds exactly when the controller takes it |
| IdentChoices.ExtCsdRefused | src/hardware/devb/mmcsd/mmcsd.c:911-1017 | When the extended register's call fails |
| IdentChoices.PartitionsExactly | src/hardware/devb/mmcsd/mmcsd.c:911-1017 | Partitions are announced exactly when the register supports them and they are complete |
| IdentChoices.StartExactly | src/hardware/devb/mmcsd/mmcsd.c:1071-1106 | Power cycling: what a cycle needs, the count, which cycle clears the flags and which is followed by the reset |
| IdentChoices.LockExactly | src/hardware/devb/mmcsd/mmcsd.c:1345-1371 | At every call the write-protect flag is changed only by power-up and by bits 12 and 13 of the register |
| IdentChoices.KindExactly | src/hardware/devb/mmcsd/mmcsd.c:1345-1371 | The protocol version and command classes that steer the rest, as bits of the response |
| IdentFlags.ResetIsClean | src/hardware/devb/mmcsd/mmcsd.c:1071-1106 | Whenever the reset is awaited, in any session, high speed and high capacity are off, and write protection too unless the controller has a lock switch |
| IdentFlags.ResetIsCleanSinceBoot | src/hardware/devb/mmcsd/mmcsd.c:1071-1106 | So it is in every session since the driver started |
| IdentFlags.LockedReset | src/hardware/devb/mmcsd/chipsets/sim_sdhci.c:617-620 | A session from the start that awaits the reset with write protection already set |
| IdentFlags.ResetReadsSwitch | src/hardware/devb/mmcsd/chipsets/sim_sdhci.c:617-620 | Write protection at the reset is what the lock switch said at the last power-up, because power-up sets the flag after it was cleared |
| IdentFlags.HighSpeedExactly | src/hardware/devb/mmcsd/mmcsd.c:1435-1498 | At every call of every attempt the high-speed flag is set exactly if the host, the card's command classes, the check answer and the switch answer of two consecutive calls all allowed it (for MMC: the card type and the switch answer) |
| IdentFlags.WriteProtectExactly | src/hardware/devb/mmcsd/mmcsd.c:1345-1371 | After the reset a card becomes write protected exactly when its decoded register says so |
| IdentNoHs.NoHighSpeedExactly | src/hardware/devb/mmcsd/mmcsd.c:1054-1068 | With the option that disables high speed, an SD card is still switched to it exactly when the controller has high speed and the bus is not the 4-bit one |
| IdentNoHs.WalksPath | src/hardware/devb/mmcsd/mmcsd.c:1524-1538 | An all-good card's attempt reaches the high-speed switch phase by phase on a host without the 4-bit bus, for any number of power-up retries |
| IdentNoHs.MmcSwitchesExactly | src/hardware/devb/mmcsd/mmcsd.c:1108-1164 | Whatever the option says, some attempt switches an MMC card to high speed exactly when the controller has high speed and its power delay is at most 1500 ms: with a longer one the power-up loop gives up before it looks at an answer |
| IdentDriver.Driver.CardIdent | src/hardware/devb/mmcsd/mmcsd.c:1540-1621 | One call of the handler dispatch is one step: new state, result and commands issued |
| IdentDriver.Driver.IdentStart | src/hardware/devb/mmcsd/mmcsd.c:1071-1106 | Power cycling: flags cleared only by the first cycle of a count, counter kept across failures, reset awaited after the last |
| IdentDriver.Driver.IdentSdPowerup | src/hardware/devb/mmcsd/mmcsd.c:1166-1256 | The SD power-up loop with its fallback to MMC on a timeout of the first application command |
| IdentDriver.Driver.IdentMmcPowerup | src/hardware/devb/mmcsd/mmcsd.c:1108-1164 | The MMC operating-condition loop with its three-second limit |
| IdentDriver.Driver.IdentReadExtCsd | src/hardware/devb/mmcsd/mmcsd.c:911-1017 | The extended register's consequences for the run: card type, partition switch, high speed, bus width |
| IdentDriver.Driver.ConfigBusWidth | src/hardware/devb/mmcsd/mmcsd.c:582-609 | The bus-width switch command, after waiting for the card when the host cannot see its busy signal |
| Csd.Decoder.ParseMmc | src/hardware/devb/mmcsd/mmcsd.c:408-471 | Every decoded MMC field is its slice of the 128-bit register, the write-protect flag follows it, and block size and count are the register's |
| Csd.Decoder.ParseSd | src/hardware/devb/mmcsd/mmcsd.c:508-575 | The same for both SD register versions, with C_SIZE across two words |
| Csd.MmcCapacity | src/hardware/devb/mmcsd/mmcsd.c:455-470 | For every MMC register the count of forced 512-byte blocks preserves the capacity and fits 32 bits, the blocks being 512 bytes exactly from READ_BL_LEN 9 on |
| Csd.SdCapacityExactly | src/hardware/devb/mmcsd/mmcsd.c:554-574 | For every SD register the 32-bit block count is the capacity exactly when READ_BL_LEN is at least 9 (version 1) or C_SIZE is not the largest (version 2) |
| Csd.AcrossWords | src/hardware/devb/mmcsd/mmcsd.c:529-535 | A slice that crosses a word boundary is the join of the two words' parts |
| Csd.InWord | src/hardware/devb/mmcsd/mmcsd.c:418-450 | A shift and mask of one response word is a slice of the whole register |
| WriteProtect.CoversExactly | src/hardware/devb/mmcsd/mmcsd.c:219-231 | The aligned block count is the fewest whole groups covering the request, for every request of at least one block that does not wrap when rounded up, exactly when the group size is a power of two |
| WriteProtect.AlwaysEnds | src/hardware/devb/mmcsd/mmcsd.c:233-245 | Whatever the group size, the counter that wraps in 32 bits reaches zero |
| WriteProtect.LoopsAgree | src/hardware/devb/sdmmc/sim_sdmmc.c:1213-1226 | For a power-of-two group size and a request of at least one block that does not wrap, on a block-addressed card, the rounding loop and the minimum-subtracting loop issue the same commands, address for address, and return the same, whatever the card answers |
| WriteProtect.EmptyRequestDiffers | src/hardware/devb/mmcsd/mmcsd.c:219-245 | For a request of no blocks they differ: the MMC driver protects one group and the SDIO driver none |
| WriteProtect.ByteAddressesAgreeExactly | src/hardware/devb/sdmmc/sim_sdmmc.c:1214-1217 | On a byte-addressed card the SDIO driver scales addresses by the (even) sector size and the MMC driver does not: for a power-of-two group size and a request of at least one block that does not wrap, the commands the two issue are the same, whatever the card answers, exactly for one group at block 0 |
| WriteProtect.GroupsCover | src/hardware/devb/sdmmc/sim_sdmmc.c:1213-1226 | Every block of the request lies in one of the issued groups |
| WriteProtect.GroupsFewest | src/hardware/devb/sdmmc/sim_sdmmc.c:1213-1226 | One group less would not cover the request |
| WriteProtect.MmcWriteProtect | src/hardware/devb/mmcsd/mmcsd.c:210-248 | The commands issued are the consecutive groups, up to the first failure |
| WriteProtect.SdmmcWriteProtect | src/hardware/devb/sdmmc/sim_sdmmc.c:1145-1257 | Unsupported, misaligned and failed set-ups issue nothing; otherwise the covering groups up to the first failure |
| TransferRuns.PostedOnceInOrder | src/hardware/devb/mmcsd/sim_mmc.c:1231-1267 | Over every run of pulses and control-thread actions, posted requests, then the active one, then the waiting ones are exactly the queued requests, once each and in order; an active request is in progress; none waits while none is active |
| TransferRuns.StepKeeps | src/hardware/devb/mmcsd/sim_mmc.c:1435-1497 | Every interrupt, timer pulse and enqueue keeps that order and leaves no active request with an outcome |
| TransferSafety.CompletedMeansDone | src/hardware/devb/mmcsd/sim_mmc.c:1328-1403 | Over every run, the last execution of a completed read or write saw no data error, had each of its multi-block commands stopped once by the stop's completion or by the host, owes no stop, and its commands tile the request; if an earlier execution of it saw a data error, or it came with a check status, no command of the last one needed a stop from the driver; no stop sequence exceeds seven commands |
| TransferSafety.CompletesExactly | src/hardware/devb/mmcsd/sim_mmc.c:1328-1403 | In the data phase the interrupt makes the request completed exactly when a step without error, or the stop of an unmarked request, ends with no stop owed and the whole length moved (or on a host without DMA); for a flat DMA request the whole length is the sum of its commands |
| TransferSafety.PostsCompletedExactly | src/hardware/devb/mmcsd/sim_mmc.c:1447-1494 | The interrupt posts the request as completed exactly when it completes it and the last checks of the card (status after a single-block read, card ready) raise no objection |
| TransferFaults.OnlyIdentificationRestarts | src/hardware/devb/mmcsd/sim_mmc.c:1286-1300 | An active request is executed again only by an interrupt that finishes identification, and its past then accumulates the data errors and the unstopped commands of the executions before |
| TransferFaults.UndisturbedNeverFaulted | src/hardware/devb/mmcsd/sim.c:234-272 | In a run where the driver gives up on no stop command and insertions are taken only while no request is active, no reset is ever wanted, every request is executed at most once, and no completed one saw a data error or was left unstopped |
| TransferFaults.StepNoResets | src/hardware/devb/mmcsd/sim_mmc.c:1349-1354 | Unless the driver gives up on a stop command, no event makes it want a reset: the other two places that ask for one are reached only from a reset |
| TransferFaults.CompletesFaultedExactly | src/hardware/devb/mmcsd/sim_mmc.c:1286-1403 | A request can complete in some run although an earlier execution of it saw a data error exactly when the host can move it by commands that need no stop from the driver: the host stops them itself, or they are single blocks, or all of it is |
| TransferFaults.FaultedThenCompleted | src/hardware/devb/mmcsd/sim_mmc.c:1300 | Such a run on a DMA host, from the start: the driver gives up on a first read's stop, and the reset this asks for comes when a second, single-block read has met a data error; the second is started over when identification finishes, and posted as completed |
| TransferFaults.CompletesUnstoppedExactly | src/hardware/devb/mmcsd/sim_mmc.c:1286-1403 | A request can complete in some run although a command of an earlier execution of it was owed a stop and never stopped exactly when the host leaves stopping to the driver, some command for the request would need a stop, and, if it came with a check status, it can also be moved by commands that need none |
| TransferFaults.UnstoppedThenCompleted | src/hardware/devb/mmcsd/sim_mmc.c:1300 | Such a run on a DMA host, from the start: the reset a first read asks for comes before the stop command of a second, two-block read is issued; the second is started over and completes |
| TransferSafety.StopIrqOutcome | src/hardware/devb/mmcsd/sim_mmc.c:1334-1363 | While a stop is awaited: an error retries up to six times, then or with a refused stop or no card fails the request; the completion fails a marked request and completes an unmarked one exactly when all of it is moved; the transfer's invariant is kept |
| TransferSafety.TransferIrqOutcome | src/hardware/devb/mmcsd/sim_mmc.c:1364-1402 | Otherwise: an error marks the request and issues the first stop or fails it; an owed stop is issued before anything completes; a request completes exactly when a step ends with no stop owed and all of it moved; the transfer's invariant is kept |
| TransferSafety.DmaRwOutcome | src/hardware/devb/mmcsd/sim_mmc.c:915-935 | With nothing owed a flat DMA request completes exactly when its offset is its length, goes on exactly when bytes are set up and the command is taken, and its next command starts where the ones before it end, in the buffer and on the card |
| TransferSafety.ExecuteOutcome | src/hardware/devb/mmcsd/sim_mmc.c:937-1010 | A started or restarted transfer begins a fresh tiling, whatever stop an earlier request left behind |
| TransferProtect.ExecutedExactly | src/hardware/devb/mmcsd/sim_mmc.c:1183-1215 | Outside identification a read or write is executed exactly when the card is ready and it is no write to a protected card; otherwise it fails and nothing else changes |
| TransferProtect.BeginsExactly | src/hardware/devb/mmcsd/sim_mmc.c:937-1010 | An execution begins its data phase exactly when the controller has the partition, a port for the request and a command for some of its bytes, for all of them without DMA; a flat DMA request of no bytes completes; any other fails |
| TransferProtect.ProtectedNeverWritten | src/hardware/devb/mmcsd/sim_mmc.c:1183-1188 | Over every run that begins without a ready unprotected card, and whose identifications find none, no write has a data command in any execution and none is posted as completed |
| TransferProtect.OthersAnswered | src/hardware/devb/mmcsd/sim_mmc.c:1231-1267 | Other commands are answered with their own result, device controls even during identification |
| TransferProtect.MediaExactly | src/hardware/devb/mmcsd/sim_mmc.c:1405-1433 | What detecting the card changes: present, ready, and one pulse for each coming and going |
| TransferProtect.TimerExactly | src/hardware/devb/mmcsd/sim_mmc.c:1532-1549 | The timer answers the active request, as failed, exactly when the card is gone |
| TransferProtect.ControlExactly | src/hardware/devb/mmcsd/sim.c:234-272 | What the control thread does with an insertion, a removal or a reset that waits, and that a reset that cannot be started is asked for again |
| TransferProtect.FailedIdentification | src/hardware/devb/mmcsd/sim_mmc.c:1304-1324 | A failed identification answers the active request as failed; a reset is asked for again; otherwise the driver is idle and looks whether the card has gone |
| TransferProtect.FinishedIdentification | src/hardware/devb/mmcsd/sim_mmc.c:1291-1303 | A finished identification makes the card ready, protected as found, and no longer being reset |
| TransferSafety.InStepExactly | src/hardware/devb/mmcsd/sim_mmc.c:930-932 | Block number and buffer offset stay in step exactly when every chunk was whole blocks |
| TransferDriver.Driver.StartRequests | src/hardware/devb/mmcsd/sim_mmc.c:1231-1267 | The dequeue loop takes requests until one stays active or none waits, and answers those it passes in order, each complete in the sense above |
| TransferDriver.Driver.DataInterrupt | src/hardware/devb/mmcsd/sim_mmc.c:1328-1403 | On the driver's own fields: the stop sub-machine retries, gives up, marks and completes as the two rows on stop and data interrupts say, completing exactly when they say, and leaves the transfer's invariant or an answer |
| TransferDriver.Driver.Interrupt | src/hardware/devb/mmcsd/sim_mmc.c:1435-1497 | An interrupt keeps the run invariant and the order of requests; one in its data phase is posted as completed exactly when the interrupt completes it and the card has no last objection |
| TransferDriver.Driver.IoCommands | src/hardware/devb/mmcsd/sim_mmc.c:1149-1228 | A started or restarted request is executed exactly when the card is ready and it is no write to a protected card, and is afterwards answered, waiting for identification, or in a data phase that tiles its bytes from the beginning; it remembers the data errors of earlier executions |
| TransferDriver.Driver.Handle | src/hardware/devb/mmcsd/sim.c:234-272 | Every pulse and control-thread action, on the fields, goes from a valid state to a valid one and keeps all requests, once and in order |
| TransferDriver.Driver.MovePort | src/hardware/devb/mmcsd/sim_mmc.c:1049-1080 | The port loop over the request's own buffer: the bytes moved are all of it exactly when the port refused none it was offered and no piece with bytes lies behind an empty one |
| PioLoop.Transfer.MoveScatter | src/hardware/devb/mmcsd/sim_mmc.c:1049-1066 | The port is handed the first bytes of the scatter list, in order, without gap or overlap; they are all of them exactly when the port refused none it was offered and no segment with bytes lies behind an empty one; without empty segments it refused some exactly when a call made was answered with zero |
| PowerModel.RunFallsExactly | src/hardware/devb/sdmmc/sim_sdmmc.c:2273-2305 | In every run the next event puts the card to sleep, or the adapter to idle, exactly on a timer pulse at or after the last request plus the time in force, one level at a time, sleep only on a controller that can; every request makes it active |
| PowerModel.RunRemembers | src/hardware/devb/sdmmc/sim_sdmmc.c:2223-2270 | In every run the timestamp is the last request's and the two times are those of the last accepted setting |
| PowerModel.WaitsExactly | src/hardware/devb/sdmmc/sim_sdmmc.c:2293-2302 | A transition really waited for its time exactly when the 64-bit sum did not wrap |
| PowerModel.TimesChangeActive | src/hardware/devb/sdmmc/sim_sdmmc.c:2048-2057 | The two times change only while a request is served, so in the active mode |
| PowerModel.GetReturnsSetExactly | src/hardware/devb/sdmmc/sim_sdmmc.c:2042-2057 | A setting reads back unchanged exactly when both times' nanoseconds fit 64 bits |
| PowerModel.SettingExactly | src/hardware/devb/sdmmc/sim_sdmmc.c:2048-2057 | A setting on a ready unit with a large enough buffer is accepted exactly when neither time is below the chipset's, and then stores both in nanoseconds; otherwise it is invalid and changes neither |
| PowerModel.OthersChangeNothing | src/hardware/devb/sdmmc/sim_sdmmc.c:2025-2068 | No other request changes the times; which requests are answered with success, and which as not ready |
| PowerModel.TimesNotBelow | src/hardware/devb/sdmmc/sim_sdmmc.c:2048-2057 | Over every run each time in force is the nanoseconds of some number of milliseconds not below the chipset's |
| PowerModel.IdleInTime | src/hardware/devb/sdmmc/sim_sdmmc.c:1008-1014 | An adapter left alone is idle after as many timer periods as fill the idle time |
| PowerModel.OneShotSleeps | src/hardware/devb/sdmmc/sim_sdmmc.c:996-1003 | The one-shot armed on becoming idle puts the card to sleep when it fires |
| PowerModel.UnarmedForever | src/hardware/devb/sdmmc/sim_sdmmc.c:955-969 | Requests and settings never touch the timer of an active adapter, so one without a timer stays active for good |
| PowerModel.ArmedExactly | src/hardware/devb/sdmmc/sim_sdmmc.c:978-1014 | After any requests reaching an adapter that was not active, its timer is armed exactly when the idle time was not zero at the first of them, whatever they set |
| PowerModel.FallArmsExactly | src/hardware/devb/sdmmc/sim_sdmmc.c:978-1014 | Becoming idle arms the timer once, for the sleep time, exactly when the controller can sleep; asleep there is none |
| PowerDriver.Adapter.SetPm | src/hardware/devb/sdmmc/sim_sdmmc.c:978-1030 | Mode change with its timer |
| PowerDriver.ServedIsRun | src/hardware/devb/sdmmc/sim_sdmmc.c:2223-2270 | Draining a queue is a run of that many requests in order, and answers each once, in order |
| PowerDriver.Adapter.StartCcb | src/hardware/devb/sdmmc/sim_sdmmc.c:2223-2270 | Draining the queue serves each request in the active mode and posts it once, in order |
| PowerDriver.Adapter.PmTimer | src/hardware/devb/sdmmc/sim_sdmmc.c:2273-2305 | The timer pulse, ignored while a request is in progress |
| PowerDriver.Adapter.PwrMgntDevctl | src/hardware/devb/sdmmc/sim_sdmmc.c:2025-2068 | Get and set; a set answers success exactly when neither time is below the chipset's, and stores both or neither; units that are not ready are refused |
| JobRuns.RunKeeps | src/hardware/delcore30m/elcore/_elcore_job_list.c:93-295 | Over every run of permitted events, create requests for any core number and writes behind the block included, storage and queue are disjoint and together hold exactly the live jobs; stored jobs are idle and queued ones are not; the counter of each core of the block is its live jobs, within its maximum; per-core order is kept; a core that runs, runs the job it was last started on |
| JobRuns.RemovalExactly | src/hardware/delcore30m/elcore/_elcore_job_list.c:255-295 | A removal keeps the manager well formed exactly when it takes the queue's head or stores the removed job instead of its predecessor |
| JobRuns.UnpermittedBreaks | src/hardware/delcore30m/elcore/_elcore_job_list.c:47-150 | An event that takes effect keeps the manager well formed exactly when it is permitted: an allocation while ids are left, its first stored job created idle; a maximum not lowered below the count, nor written over a counter; a removal of the queue's head or storing the removed job |
| JobRuns.CancelSecondBreaks | src/hardware/delcore30m/elcore/_elcore_job_list.c:280-289 | Cancelling the second of two queued jobs leaves the first on both lists and loses the second |
| JobRuns.TwoQueued | src/hardware/delcore30m/elcore/_elcore_devctl.c:397-425 | From the initial manager two create and enqueue requests reach such a state, and cancelling the second then breaks it |
| JobRuns.QueueThenStorageFinds | src/hardware/delcore30m/elcore/_elcore_devctl.c:323-343 | Looking in the queue and later in storage finds an id exactly while it is live, whatever the interrupt thread does in between |
| JobRuns.StorageThenQueueMisses | src/hardware/delcore30m/elcore/_elcore_devctl.c:323-343 | The other lookup order would miss a live job |
| JobRuns.LiveUntilReleased | src/hardware/delcore30m/elcore/_elcore_job_list.c:184-210 | From creation to release a job stays findable over every permitted run |
| JobRuns.ReleaseOnlyIdleStored | src/hardware/delcore30m/elcore/_elcore_devctl.c:426-453 | A release of a job not found queued takes effect exactly when the job is stored, and then it is idle; on anything else it changes nothing |
| JobRuns.StartsInOrder | src/hardware/delcore30m/elcore/_elcore_job_list.c:212-324 | A core's started and waiting jobs are its enqueued jobs in order, less exactly the cancelled ones, over every permitted run on all cores |
| JobRuns.JobsKeepFields | src/hardware/delcore30m/elcore/_elcore_job_list.c:93-324 | No list operation changes a job's id, core or result; a created job has the request's core and result and the generated id |
| JobRuns.StopCompletesStarted | src/hardware/delcore30m/elcore/arm/mcom.le.v7/mcom_dsp.c:1034-1073 | The interrupt of a core of the block that runs removes the job the core was last started on, which is running on it |
| JobBlock.FreedOnlyWhenEmpty | src/hardware/delcore30m/elcore/_elcore_job_list.c:62-84 | When every live job is for a core of the block, the counters are all zero, so the handle is freed, exactly when both lists are empty |
| JobBlock.FreedExactly | src/hardware/delcore30m/elcore/_elcore_job_list.c:62-84 | The handle is freed exactly when no job of a core of the block is live, whatever other jobs there are |
| JobBlock.AllocationCountedExactly | src/hardware/delcore30m/elcore/_elcore_job_list.c:118-150 | An allocation that takes effect leaves the counters adding up to the live jobs exactly when the block has the request's core |
| JobBlock.AllocationSafeExactly | src/hardware/delcore30m/elcore/_elcore_job_list.c:118-150 | An allocation that takes effect keeps the handle from being freed with a job left, in every permitted run that follows, exactly when the block has the request's core |
| JobBlock.GuardSufficesExactly | src/hardware/delcore30m/elcore/_elcore_devctl.c:182-185 | A test that refuses core numbers above a bound keeps the handle from being freed with a job left, over all permitted runs and whatever memory holds, exactly when the bound is below the number of cores, or the block has none; the request's own bound is 2 |
| JobBlock.FreedWithJob | src/hardware/delcore30m/elcore/_elcore_job_list.c:118-150 | With one or more cores: a job of core 0, a job for the first core number past the block, and the release of the first; the handle is freed with the second stored |
| JobCores.StepTracksExactly | src/hardware/delcore30m/elcore/arm/mcom.le.v7/mcom_dsp.c:430-480 | While every running job is the one its core was last started on, so that a core has at most one, a permitted event changes that exactly when it starts a core that has a running job |
| JobCores.PoliteTracks | src/hardware/delcore30m/elcore/arm/mcom.le.v7/mcom_dsp.c:430-480 | Over every permitted run that starts no busy core, a core has at most one running job, the one its interrupt completes |
| JobCores.StuckStays | src/hardware/delcore30m/elcore/arm/mcom.le.v7/mcom_dsp.c:475-476 | A running job whose core was started on another stays running over every permitted run in which it is not cancelled |
| JobCores.CompletesExactly | src/hardware/delcore30m/elcore/arm/mcom.le.v7/mcom_dsp.c:1034-1073 | A running job at the queue's head, or any with removals repaired, can get back into storage without being cancelled exactly when its core runs, was last started on it, and is one of the block |
| JobCores.OverwrittenJob | src/hardware/delcore30m/elcore/_elcore_devctl.c:303-322 | Two create and enqueue requests for one core reach a state where both jobs run and the first can never complete |
| JobLists.StartTakesOldest | src/hardware/delcore30m/elcore/_elcore_job_list.c:299-324 | Starting takes the head of the core's line and leaves every other core's line alone |
| JobList.JobManager.AllocJob | src/hardware/delcore30m/elcore/_elcore_job_list.c:118-150 | Allocation for any core number appends to storage and counts, or refuses, on the heap lists and the one block of maxima and counters with what lies past it |
| JobList.JobManager.Enqueue | src/hardware/delcore30m/elcore/_elcore_job_list.c:212-253 | Moves a job from storage to the queue's tail by relinking |
| JobList.JobManager.RemoveFromQueue | src/hardware/delcore30m/elcore/_elcore_job_list.c:255-295 | Removal as coded on the heap; the lists stay well formed exactly for the head |
| JobList.JobManager.ReleaseJob | src/hardware/delcore30m/elcore/_elcore_job_list.c:184-210 | Unlinks an idle stored job and uncounts it |
| JobList.JobManager.GetJobFirstEnqueued | src/hardware/delcore30m/elcore/_elcore_job_list.c:299-324 | The oldest enqueued job of a core, or none |
| JobList.JobManager.GetEnqueuedById | src/hardware/delcore30m/elcore/_elcore_job_list.c:327-356 | The queued job with an id, or none |
| JobList.JobManager.GetStoredById | src/hardware/delcore30m/elcore/_elcore_job_list.c:358-387 | The stored job with an id, or none |
| JobList.JobManager.Fini | src/hardware/delcore30m/elcore/_elcore_job_list.c:62-84 | The handle is freed exactly when no core has a job |
| JobControl.JobCreate | src/hardware/delcore30m/elcore/_elcore_devctl.c:174-302 | Create: refusals change nothing; otherwise, for any core number up to 2, the job is stored last with the generated id and the request's core and result, and counted |
| JobControl.JobEnqueue | src/hardware/delcore30m/elcore/_elcore_devctl.c:303-322 | Enqueue: only a stored job, and which core is started |
| JobControl.JobCancel | src/hardware/delcore30m/elcore/_elcore_devctl.c:397-425 | Cancel: which core is reset, and that none is restarted, because the test for it reads a status already overwritten; the job at the queue's head is stored last, idle and with the result cancelled, and no other job changes |
| JobControl.JobStatus | src/hardware/delcore30m/elcore/_elcore_devctl.c:323-343 | Status: answered exactly for jobs on a list |
| JobControl.JobWait | src/hardware/delcore30m/elcore/_elcore_devctl.c:344-371 | Wait: no answer yet exactly while the job runs |
| JobControl.CancelThenWait | src/hardware/delcore30m/elcore/_elcore_devctl.c:344-425 | A client that cancels the job at the queue's head and then waits for it is answered that it was cancelled |
| JobControl.JobRelease | src/hardware/delcore30m/elcore/_elcore_devctl.c:426-453 | Release: busy, invalid or the job removed |
| IrqModel.RunKeeps | src/hardware/devc/ser8250/init.c:49-177 | Over every run of proper attach and detach requests the groups are non-empty, carry distinct interrupts and hold each device once |
| IrqModel.AttachKeeps | src/hardware/devc/ser8250/init.c:49-102 | Attaching adds the device to the front of its own interrupt's group only, or in a new group behind the others |
| IrqModel.DetachKeeps | src/hardware/devc/ser8250/init.c:105-177 | Detaching removes just that device, and its group with the last of its devices |
| IrqModel.DetachUndoesAttach | src/hardware/devc/ser8250/init.c:105-177 | Detaching what was just attached restores the index, order included |
| IrqModel.SearchEnds | src/hardware/devc/ser8250/init.c:112-169 | The nested search loops end exactly when the interrupt has no list or its list has the device |
| IrqIndex.Serial.AttachIntr | src/hardware/devc/ser8250/init.c:49-102 | Attach on the linked lists; the handler is attached exactly while the list exists |
| IrqIndex.Serial.DetachIntr | src/hardware/devc/ser8250/init.c:105-177 | The in-place unlink loops, covering the call after a failed attach |
| EventQueue.QueueSound | src/hardware/devc/ser8250/intr.c:182-209 | Under any interleaving of the handlers' test, lock, store, flag and unlock steps the queue holds no device twice, never more entries than devices, and outside the lock exactly the queued devices are flagged |
| EventQueue.TakenInOrder | src/hardware/devc/ser8250/intr.c:182-209 | Under any interleaving the reader takes the devices in the order they were stored, each once |
| EventQueue.SafeExactlyWhenSeparate | src/hardware/devc/ser8250/intr.c:182-209 | The unlocked test is safe exactly when no device belongs to two interrupts |
| EventQueue.StepKeeps | src/hardware/devc/ser8250/intr.c:182-209 | When no device has two interrupts every step of a handler or of the reader keeps the queue without repeats, the flags and the lock in step with it, and each handler's own place valid |
| EventQueue.OtherKnows | src/hardware/devc/ser8250/intr.c:182-209 | One handler's step leaves what every other handler has tested true |
| SerIntr.PassQueues | src/hardware/devc/ser8250/intr.c:87-209 | One pass queues exactly the devices that need service, behind what is queued |
| SerIntr.TtyCtrl.Interrupt | src/hardware/devc/ser8250/intr.c:87-209 | Polling goes on until a pass finds nothing; the queue then holds what it did and, behind it, exactly the devices that needed service in some pass, and the event array is never overrun |
| Cursor.SetHwCursor | src/hardware/devg/vpoutfb/cursor.c:53-110 | Every pixel of the 64 by 64 image is 3, 2 or 0 as the bitmaps say, transparent outside the size, for every bitmap pair, stride and size; every byte is its four pixels, the leftmost in the lowest two bits; no byte outside the bitmaps is read |
| Cursor.InsertSets | src/hardware/devg/vpoutfb/cursor.c:99-101 | Clearing and setting a two-bit field changes no other field of the byte |

## Left out

- JobRuns.StopCompletesStarted: the result code, the DMA chains and the answer to a waiting client that come with a completion, and requests that stop or reset a core without cancelling its job, are left out; so is a start that fails in setting up DMA.
- JobRuns.UnpermittedBreaks: starting a core number past the block is modelled as starting one more core; what its register writes overwrite is left out.
- JobRuns.QueueThenStorageFinds: fewer than 2^32 jobs are ever allocated; after that ids repeat.
- IdentDriver.Driver.CardIdent: the identification fields are one record field of the class, updated member by member; clocks, bus configuration, delays and logging of the handlers are left out, as is the power retry delay's effect other than the MMC time limit.
- IdentDriver.Driver.IdentReadExtCsd: the sector capacity, the TRIM flag and the partition table that the handler also decodes do not steer the identification and are left out.
- IdentDriver.Driver.ConfigBusWidth: the stored bus width and the controller's own bus configuration call are left out; the switch command sent to the card is modelled.
- IdentModel: the polls of a wait are a number the environment picks, and the pio and block-size entry points are assumed present except where the code tests them.
- TransferSafety.CompletedMeansDone: controllers without port transfers are assumed to raise no buffer-ready interrupt, which the interrupt flags' own comments reserve for port transfers; DMA set-up is assumed to accept no more than it is offered.
- TransferProtect.ProtectedNeverWritten: the write-protect flag is set when an identification finishes; its changes while one is under way, when no request is executed, are left out here (`IdentChoices.LockExactly` has them).
- TransferRuns.PostedOnceInOrder: requests are taken from the queue library in order and in progress; request aborts and bus resets, decided in that library, are left out.
- TransferDriver.Driver.Interrupt: the causes of an interrupt and the controller's answers while it is handled are one parameter, and the port's answers another.
- TransferDriver.Driver.Handle: the control thread's actions are atomic with respect to a pulse, and it takes its pulses in any order, since their priorities are options.
- PioLoop.Transfer.MoveScatter: a flat buffer is a list of one segment, and the pieces of a request's list lie end to end, since requests carry only their sizes.
- PowerDriver.Adapter.StartCcb: no request handler of this driver returns while in progress, so the active request is always answered in the same round.
- PowerModel: background operations and the ASSD re-initialisation flag do not change the mode and are left out.
- EventQueue.QueueSound: the reader of the event queue is one abstract step that takes the first entry and clears its flag under the lock.
- SerIntr.TtyCtrl.Interrupt: the event array is assumed to have room for every device; its 16 entries (`externs.h:109`) do not bound the ports the options create (`options.c:149`).
- SerIntr.Pass: what polling a device finds is a parameter; the UART registers are left out.
- WriteProtect.LoopsAgree: client ranges that wrap in 32 bits are left out of the agreement, not of termination.
- WriteProtect.CoversExactly: requests that wrap when they are rounded up are left out, as is the request of no blocks, for which the count is one group (`EmptyRequestDiffers`).
- JobControl.JobWait: recording the blocked client on the running job, to be answered when it completes, is left out with the message passing.
- Cursor.SetHwCursor: the display-mode and colour registers are left out.
- The clock-rate table and the parsing of the card identification register: straight table look-ups.
- Vendor-unique commands, INQUIRY, MODE SENSE and capacity replies, erase and trim, partition creation, ASSD, option parsing and logging: formatting and plumbing.
- The Ethernet, HDMI and video output drivers: register programming, or ring code that is not in the repository's files.
