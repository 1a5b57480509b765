# Verified model of the esp-wifi-hal driver core

A Dafny 4.11 model of the parts of esp-wifi-hal that are hardest to get right, for the ESP32-C3 and
the ESP32-S3: the receive DMA list and the receive path around it, the transmit slot and the retry
loop, the RF PLL and its frequency memory, the calibration tables and saved calibration data, and
the checksum of the capture protocol. `dafny verify dfyconfig.toml` verifies the whole project.

## How the parts are modelled

**Receive DMA (`DmaList.dfy`, `ReceiveLoop.dfy`, `Sync.dfy`).** A descriptor pointer is an index into
the slab of descriptors. `DmaList` is a class whose methods make the accesses of the original one at a
time. Around every access stands `HardwareRuns`, an arbitrary number of engine steps, so that the
contracts hold for every interleaving of software and engine. The engine writes data, reads the link
of its descriptor ahead of time, or completes the descriptor and follows the link it has read; a link
read ahead may be out of date. The assumption about the hardware is that its NEXT register holds the
descriptor being filled or about to be filled and is empty when the engine is idle
(esp-wifi-hal/src/ll.rs:857-906). `clear` is one step with respect to the engine. Resetting a
descriptor for reception gives it to DMA, clears its end-of-frame flag and sets its length to zero, as
in docs/esp32s3/tests/rust_dma.rs:35-39.

`ReceiveLoop` is a state machine of engine, interrupt handler, receiving task, other holders of buffers
and the signal queue. It keeps only how many descriptors are in which condition; `AbstractStep`,
`AbstractDetach`, `AbstractAttach`, `AbstractRestart` and `AbstractClear` tie each move of these counts
to the DMA list, and `FollowRun` ties the signals to the class `SignalQueue`. Polling the signal queue
is atomic with respect to the handler, as the lock in esp-wifi-hal/src/sync.rs:139 makes it on one core;
putting a signal is two steps. The receive interrupt is assumed to become pending together with the
end-of-frame flag of a descriptor.

**Transmit (`TxSlot.dfy`, `TxRetry.dfy`, `Edca.dfy`).** `TxSlot` is a state machine over the events of
one slot: calls, the reset and start of an attempt, polls, drops, the two halves of the drop guard, the
ends of transmissions and the interrupts, in any order. Two assumptions about the hardware are made
there. Disabling a slot does not end a transmission under way, since `tx_done` only writes the slot's
configuration (esp-wifi-hal/src/ll.rs:1183-1191). And a slot may be marked as done at any time without
having been used, which is what esp-wifi-hal/src/async_driver.rs:957 speaks of. `FollowRun` ties the
slot's signal to the class `HardwareTxResultSignal`. `TxRetry` works on the frame buffer; what
happens to each attempt and the random numbers are parameters. Counters wrap around, as with
`overflow-checks = false` (examples/Cargo.toml:121).

**PHY (`RfPll.dfy`, `CapSearch.dfy`, `FreqMemory.dfy`, `TxGain.dfy`, `RxDc.dfy`, `RxGain.dfy`,
`CalibrationData.dfy`).**
Memory reached through the `Access` traits is explicit; the callbacks behind them are taken to be
absolute value, clamp and little-endian load. Raising the write strobe of the frequency memory stores
the data register at the index. A capacitor value is written in two parts, of which the upper one goes
into a field of one bit (esp-wifi-hal/src/phy_rfpll.rs:161-167), so that the register keeps nine bits of
it. Registers and words are natural numbers with their width written out (`Machine.dfy`),
and masks are written as arithmetic on fields (`Bits.dfy` has the bitwise operators that overlap).

**Where code and documentation differ, the model follows the code.** `TxError` says that an empty
contention window range is reported as invalid (esp-wifi-hal/src/async_driver.rs:810-813);
`transmit_with_retry` silently uses a backoff of one slot instead.

## Results that are conditions

- An attempt is certain to return its own result exactly if nothing is left in the hardware when it
  resets its signal, and the slot is not marked unused from then until it takes its result
  (`OwnResultIffSettled`). As long as no attempt is dropped before its result is there and no slot is
  marked, the hardware is settled before every attempt (`CarefulRun`); an attempt that is dropped
  earlier leaves its result to the next one (`DropIsHarmlessIff`).
- Stamped frames carry consecutive numbers exactly if the calls in front of each have wasted a multiple
  of 4096 numbers, in particular none (`ConsecutiveIff`). A frame of 5 to 23 bytes wastes one
  (`WastedNumber`).
- Whatever interval of capacitor values locks, the search ends with a value that locks exactly for
  initial values from 7 to 510 (`EndsLockedIff`). With the initial value 2 and 509 to 511 locking it
  programs 21843, which the register takes as 339 (`FailsBelow`). With nine values of margin below and
  ten above it programs the middle (`MiddleIsChosen`).
- The index returned by `transmit_with_retry` is that of a sent attempt exactly if 1 to 256 attempts are
  allowed (`IndexIsRightIff`): an empty rate list succeeds without sending, and the index has 8 bits.
- A buffer of exactly four bytes makes `prepare_frame_for_tx` panic (`PrepareFrameForTx`).
- A receive gain survives encoding and decoding exactly if the code of its input is even
  (`CodecRoundTripIff`); the factory codes are.
- The threshold walk can replace the scan exactly if the table is descending (`HintIrrelevantIff`). On
  the ESP32-C3 the calibrated table is descending exactly if the reference entry held -32735 to 6 before
  (`CalibratedC3Iff`), which it does once it has been calibrated.
- PLL digits, capacitor moves and offset moves are exact exactly if the result fits its field
  (`Frequency`, `CapWordIff`, `CodeWordIff`).

## Model

| member | source | states |
|---|---|---|
| RxDma.InitSlab | esp-wifi-hal/src/dma_list.rs:46-75 | filling the slab in reverse links all descriptors in order, all owned by DMA, without end-of-frame flag and with length zero |
| RxDma.DmaList.constructor | esp-wifi-hal/src/dma_list.rs:93-105 | the invariant holds and the engine is at the first descriptor |
| RxDma.StepKeepsInv | esp-wifi-hal/src/dma_list.rs:160-164 | no engine step breaks the invariant: the chain is linked and free of repetition, a completed prefix is followed by descriptors that hold just what was written to them since they were made empty, the engine is idle or at the first of these, completions are in order; lent descriptors are untouched |
| RxDma.CompletesWhatIsWritten | esp-wifi-hal/src/dma_list.rs:132-135 | however the engine writes and reads ahead, the frame it completes is all it has written to the emptied descriptor, and nothing of an earlier frame |
| RxDma.DmaList.HardwareRuns | esp-wifi-hal/src/ll.rs:857-906 | the same for any number of steps; an idle engine does nothing, and one that stopped has completed something |
| RxDma.DmaList.HardwareStep | esp-wifi-hal/src/ll.rs:857-906 | the memory and the engine change as one engine step says |
| RxDma.DetachKeepsInv | esp-wifi-hal/src/dma_list.rs:136-146 | taking the completed head out keeps the invariant and extends what was delivered |
| RxDma.AttachKeepsInv | esp-wifi-hal/src/dma_list.rs:214-216 | linking an empty descriptor behind the tail keeps the invariant, even if the engine has read the old null link |
| RxDma.DmaList.SetRxChainBase | esp-wifi-hal/src/dma_list.rs:109-127 | the new ends of the list and the reloaded engine |
| RxDma.DmaList.RestartExhausted | esp-wifi-hal/src/dma_list.rs:166-180 | an engine found idle is sent to the first empty descriptor if there is one, nothing else changes, and the walk terminates |
| RxDma.DmaList.TakeFirst | esp-wifi-hal/src/dma_list.rs:129-159 | with the engine running in between: a completed head is always taken and becomes lent with its frame intact; lent buffers are untouched; every descriptor stays linked or lent; the engine can only be stopped beside an empty descriptor if it completed another one after it was checked |
| RxDma.DmaList.Recycle | esp-wifi-hal/src/dma_list.rs:201-221 | the same guarantees for returning any lent descriptor, which becomes the tail and holds nothing of its old frame |
| RxDma.DmaList.Clear | esp-wifi-hal/src/dma_list.rs:184-199 | exactly the completed frames that were not taken are discarded, their descriptors are empty, and the engine starts at the head |
| RxDma.FollowVisitsChain | esp-wifi-hal/src/dma_list.rs:201-217 | following the links in memory from the head visits the live chain and ends: no cycle |
| RxDma.DeliveredThenPending | esp-wifi-hal/src/dma_list.rs:129-159 | delivered frames followed by those still completed in the chain are all completions, in order |
| RxDma.Run | esp-wifi-hal/src/dma_list.rs:129-221 | over every sequence of calls, with descriptors returned in any order: first in first out, nothing lost or duplicated, every frame just as it was written, held buffers keep their frames |
| ReceiveLoop.Follow | esp-wifi-hal/src/sync.rs:126-151 | every event, carried out on the signal queue, leaves the queue in the state the receive path is proved with |
| ReceiveLoop.FollowRun | esp-wifi-hal/src/sync.rs:113-152 | the same over every run: whenever the task sleeps for good, the queue itself is empty and no frame was announced |
| ReceiveLoop.PutIsTwoSteps | esp-wifi-hal/src/sync.rs:126-131 | putting a signal is the count of the handler followed by its wake-up, if the queue was empty |
| ReceiveLoop.AbstractStep | esp-wifi-hal/src/dma_list.rs:160-164 | the counts follow the engine of the DMA list |
| ReceiveLoop.AbstractDetach | esp-wifi-hal/src/dma_list.rs:136-146 | the counts follow taking the head |
| ReceiveLoop.AbstractAttach | esp-wifi-hal/src/dma_list.rs:214-220 | the counts follow linking a returned descriptor |
| ReceiveLoop.AbstractRestart | esp-wifi-hal/src/dma_list.rs:166-180 | the counts follow the restart |
| ReceiveLoop.AbstractClear | esp-wifi-hal/src/dma_list.rs:184-199 | the counts follow clearing the list |
| ReceiveLoop.NextKeepsInv | esp-wifi-hal/src/async_driver.rs:1241-1281 | every event keeps the invariant of engine, interrupts, signals and task |
| ReceiveLoop.RunKeepsInv | esp-wifi-hal/src/async_driver.rs:1241-1281 | the invariant holds in every reachable state |
| ReceiveLoop.NoMissedFrame | esp-wifi-hal/src/async_driver.rs:1241-1260 | a sleeping task that is not being woken has no queued signal and no frame whose interrupt was taken |
| ReceiveLoop.FrameIsTaken | esp-wifi-hal/src/async_driver.rs:1241-1260 | while a frame is complete and the task is receiving, handler or task can move, and every move by anyone takes the frame or lowers a well-founded rank |
| ReceiveLoop.TakenInTime | esp-wifi-hal/src/async_driver.rs:1241-1260 | hence fewer than 63 (n + 1)^2 events pass before a frame is taken, with n buffers, and nothing gets stuck until then |
| ReceiveLoop.StallEnds | esp-wifi-hal/src/dma_list.rs:160-180 | a stopped engine beside an empty descriptor has left a completed frame behind or is about to be checked; the check and every take or return restart it |
| ReceiveLoop.LentAreHeld | esp-wifi-hal/src/async_driver.rs:1241-1265 | in every run the lent descriptors are the valid frames received and not given back, plus the invalid one about to be discarded |
| ReceiveLoop.ReceiveEnds | esp-wifi-hal/src/async_driver.rs:1233-1260 | in every run a receive ends only with a valid frame or by being abandoned, a wait only by taking one signal, and a malformed frame is returned before the next one is looked for |
| Signals.HardwareTxResultSignal.Signal | esp-wifi-hal/src/sync.rs:38-48 | the latest outcome waits and the task is woken |
| Signals.HardwareTxResultSignal.Poll | esp-wifi-hal/src/sync.rs:50-71 | a waiting outcome is handed out once and unchanged |
| TxSlot.Follow | esp-wifi-hal/src/sync.rs:33-71 | every event, carried out on the result signal, leaves it in the state of the model, and what a poll hands out is what the attempt returns |
| TxSlot.FollowRun | esp-wifi-hal/src/sync.rs:12-72 | the same over every run; after the guard no outcome waits |
| TxSlot.NextKeepsInv | esp-wifi-hal/src/async_driver.rs:925-993 | every event of calls, guard, hardware and handler keeps the slot invariant, slots marked as done without being used among them |
| TxSlot.RunKeepsInv | esp-wifi-hal/src/async_driver.rs:925-993 | the slot invariant holds in every reachable state |
| TxSlot.GuardRunsOnce | esp-wifi-hal/src/async_driver.rs:937-959 | for every setup error, outcome and drop the guard of each attempt runs once, leaving the slot disabled and the signal reset; the slot is ready while an attempt waits for a result, disabled between attempts and by every failure |
| TxSlot.CallReturns | esp-wifi-hal/src/async_driver.rs:967-992 | a call returns nothing exactly if it is dropped, a setup error exactly if its parameters were bad and it is not dropped, and a result otherwise |
| TxSlot.NoEarlySignal | esp-wifi-hal/src/async_driver.rs:957-971 | no attempt returns a result signalled before its own reset |
| TxSlot.CarefulRun | esp-wifi-hal/src/async_driver.rs:937-992 | in every run without marks in which attempts are dropped only when their result is there, the hardware is settled outside of an attempt's wait, and every attempt returns its own result |
| TxSlot.OwnResultIffSettled | esp-wifi-hal/src/async_driver.rs:957-992 | an attempt can only return its own result exactly if the hardware was settled at its reset and does not mark the slot before it takes the result |
| TxSlot.StaleResult | esp-wifi-hal/src/async_driver.rs:957-992 | from any other state at the reset, the events that make it return an earlier result, without a mark |
| TxSlot.MarkedResult | esp-wifi-hal/src/async_driver.rs:957-992 | and from a settled state those by which a mark makes it return a result of no attempt at all |
| TxSlot.DropIsHarmlessIff | esp-wifi-hal/src/async_driver.rs:937-942 | dropping a waiting attempt leaves the hardware settled for the next one exactly if its result had been signalled |
| Edca.WindowIsOnes | esp-wifi-hal/src/edca.rs:19-40 | the window is one less than a power of two and below 2^31 |
| Edca.EdcaContentionState.constructor | esp-wifi-hal/src/edca.rs:19-30 | the window starts at its lower bound |
| Edca.EdcaContentionState.AdvanceContentionWindow | esp-wifi-hal/src/edca.rs:32-40 | after m failures the window is min(2^(start+m), 2^end) - 1, without 32-bit overflow |
| Edca.EdcaContentionState.IncrementSrc | esp-wifi-hal/src/edca.rs:42-45 | counts a short retry and widens the window once |
| Edca.EdcaContentionState.IncrementLrc | esp-wifi-hal/src/edca.rs:54-57 | counts a long retry and widens the window once |
| Edca.EdcaContentionState.ResetSrc | esp-wifi-hal/src/edca.rs:47-49 | the short retry count is zero and the window unchanged |
| Edca.EdcaContentionState.RandomBackoffSlotCount | esp-wifi-hal/src/edca.rs:59-61 | masking by the window is reduction modulo window + 1 |
| TxRetry.StampedNumber | esp-wifi-hal/src/async_driver.rs:1008-1015 | a stamped frame carries the counter modulo 4096 and fragment number 0 |
| TxRetry.TransmitAll | esp-wifi-hal/src/async_driver.rs:1008-1197 | over every sequence of calls, all attempts of a stamped frame and its buffer carry the start plus the number of earlier calls that used up a number, modulo 4096 |
| TxRetry.ConsecutiveIff | esp-wifi-hal/src/async_driver.rs:1008-1015 | the n-th stamped frame carries n exactly if the earlier calls have wasted a multiple of 4096 numbers |
| TxRetry.WastedNumber | esp-wifi-hal/src/async_driver.rs:1008-1015 | a frame of 5 to 23 bytes in front is an input for which it does not |
| TxRetry.Driver.PrepareFrameForTx | esp-wifi-hal/src/async_driver.rs:994-1029 | the duration and receiver it reports, exactly when each error is given and when it panics, when a sequence number is used up, and which bytes change |
| TxRetry.Driver.TransmitWithRetry | esp-wifi-hal/src/async_driver.rs:1097-1198 | for every sequence of fates: how many attempts are made and at which rates for each behaviour, their backoff and frames; the result; the frame afterwards, with the Retry bit clear unless the call was dropped or refused |
| TxRetry.Driver.RetryLoop | esp-wifi-hal/src/async_driver.rs:1132-1188 | the same for the loop alone, from any frame |
| TxRetry.Account | esp-wifi-hal/src/async_driver.rs:1168-1184 | MAC protocol errors of either kind widen the window, channel access errors do not |
| TxRetry.RetryBitMeaning | esp-wifi-hal/src/async_driver.rs:1159-1167 | an attempt has the Retry bit exactly if the caller set it or an earlier attempt had a MAC protocol error; all other bytes are the same |
| TxRetry.ResultMeaning | esp-wifi-hal/src/async_driver.rs:1132-1197 | the index of the first success, or else the error of the last attempt |
| TxRetry.IndexIsRightIff | esp-wifi-hal/src/async_driver.rs:1113-1197 | the returned index can be relied on exactly for 1 to 256 attempts |
| FreqMemory.Device.Memory | esp-wifi-hal/src/phy_hw_freq.rs:55-75 | exactly the three words of the step are written: the words of different steps do not collide |
| FreqMemory.Device.Initialize | esp-wifi-hal/src/phy_hw_freq.rs:210-263 | done once: step i holds its clamped capacitor value beside the saved setting, floor(65536 n / d) for 2400 + i MHz, and a zero |
| FreqMemory.CapLine | esp-wifi-hal/src/phy_hw_freq.rs:234-251 | the capacitor values are on the line through the two measured ones, rounded towards the first, and stay at the end of the range the line crosses |
| FreqMemory.Device.CapMemory | esp-wifi-hal/src/phy_hw_freq.rs:191-208 | exactly the first words of all 85 steps are rewritten |
| FreqMemory.Device.CorrectOffset | esp-wifi-hal/src/phy_rfpll.rs:129-159 | exactly the second words are moved by the difference to the stored offset, or nothing if it is the same |
| FreqMemory.ScaledIff | esp-wifi-hal/src/phy_rfpll.rs:131-138 | the stored offset is 9/4 or 27/8 of the value, by mode, rounded down, exactly if that fits 16 bits |
| FreqMemory.CapWordInRange | esp-wifi-hal/src/phy_hw_freq.rs:195-203 | in range the capacitor value moves by the delta and all other bits of the lower half stay |
| FreqMemory.CapWordIff | esp-wifi-hal/src/phy_hw_freq.rs:195-203 | the value moves by the delta exactly if the result has nine bits |
| FreqMemory.CodeWordInRange | esp-wifi-hal/src/phy_rfpll.rs:146-151 | in range the word moves by the delta |
| FreqMemory.CodeWordIff | esp-wifi-hal/src/phy_rfpll.rs:146-151 | the code moves by the delta exactly if the result has 24 bits |
| FreqMemory.RunMoves | esp-wifi-hal/src/phy_rfpll.rs:129-159 | over every run of corrections that stays in range: capacitor values are their first values plus all deltas, codes their first values plus the stored offset, the third words never change |
| RfPll.Frequency | esp-wifi-hal/src/phy_rfpll.rs:98-127 | the three bytes read base 256 are floor(65536 n / d) exactly if 0 <= n < 256 d, for every 32-bit input |
| RfPll.DigitsExact | esp-wifi-hal/src/phy_rfpll.rs:119-125 | three rounds of long division give three digits below 256 that are exact |
| RfPll.FrequencyError | esp-wifi-hal/src/phy_rfpll.rs:98-127 | with the clock of 26, 32, 48 or 40 MHz each selector stands for, the synthesized frequency is short by less than d / 262144 kHz |
| CapSearch.InitCap | esp-wifi-hal/src/phy_rfpll.rs:248-280 | both loops compute the value the search is specified to choose, and the result carries it beside the initial one |
| CapSearch.MiddleIsChosen | esp-wifi-hal/src/phy_rfpll.rs:248-280 | if the register values that lock form an interval and 9 <= initial <= 501, the middle of its part within reach is programmed, which locks, or the initial value if nothing in reach does |
| CapSearch.EndsLockedIff | esp-wifi-hal/src/phy_rfpll.rs:248-280 | for all intervals a value that locks is programmed if any probe locks, exactly if 7 <= initial <= 510 |
| CapSearch.FailsBelow | esp-wifi-hal/src/phy_rfpll.rs:254-275 | for every initial value below 7 the interval 509 to 511 makes the 16-bit sum wrap around and 339 the result |
| CapSearch.FailsAbove | esp-wifi-hal/src/phy_rfpll.rs:254-275 | for 511 the interval 0 to 510 makes 511 the result, which does not lock |
| CapSearch.PassCounts | esp-wifi-hal/src/phy_rfpll.rs:255-269 | a pass counts exactly its first run of probes that lock, with their sum modulo 2^16 |
| RfPll.StepCode | esp-wifi-hal/src/phy_hw_freq.rs:236-248 | for all frequencies from 2400 to 2484 MHz and all clocks the digits are exact |
| TxGain.LookupC3 | esp-wifi-hal/src/phy_tx_gain.rs:198-220 | code, value and difference of the first threshold reached, or of the last one |
| TxGain.LookupS3 | esp-wifi-hal/src/phy_tx_gain.rs:221-262 | in a descending table, whatever the hint: code, value and difference of the first threshold reached, or of the one in front if too much would be left; if the adjustment is within the limit, only the first entry can leave more than it |
| TxGain.WalkIsFirst | esp-wifi-hal/src/phy_tx_gain.rs:226-248 | in a descending table the walk finds what the scan finds, from every hint and within its budget |
| TxGain.HintIrrelevantIff | esp-wifi-hal/src/phy_tx_gain.rs:196-264 | walk and scan agree for all requests and hints exactly if the table is descending |
| TxGain.WifiGet | esp-wifi-hal/src/phy_tx_gain.rs:368-421 | no Wi-Fi entry depends on the hints left by earlier ones; each has the code, value and gain of the entry its request asks for, and with a power that is not negative only the first entry gets to the digital gain check |
| TxGain.BtGet | esp-wifi-hal/src/phy_tx_gain.rs:289-365 | the same for Bluetooth levels between -96 and 80, with gains from -64 on; with an input of 8 or more only the first entry leaves one above -8 |
| TxGain.CalibrateS3 | esp-wifi-hal/src/phy_tx_gain.rs:659-699 | the calibrated thresholds are the factory ones less the reference, which is exact in 16 bits, and descending |
| TxGain.CalibrateC3 | esp-wifi-hal/src/phy_tx_gain.rs:678-691 | the thresholds in front of the reference are moved by what it held before, those behind it are not moved |
| TxGain.CalibratedC3Iff | esp-wifi-hal/src/phy_tx_gain.rs:678-691 | the result is descending exactly if the old reference was from -32735 to 6 |
| RxDc.BestIsNearest | esp-wifi-hal/src/phy_rx_dc.rs:68-80 | the search selects the nearest channel with the preferred status, the lower of two, or the channel itself |
| RxDc.SourceIsOriginal | esp-wifi-hal/src/phy_rx_dc.rs:81-86 | reading a source that has been overwritten already gives the masked original value |
| RxDc.CountGood | esp-wifi-hal/src/phy_rx_dc.rs:56-63 | only the first column can fall back to status 2 |
| RxDc.SortColumn | esp-wifi-hal/src/phy_rx_dc.rs:64-87 | a column is filled in place as from its original values, and no other entry changes |
| RxDc.Sort | esp-wifi-hal/src/phy_rx_dc.rs:50-90 | in place, good channels are unchanged; every other one gets bits 0 to 8 and 16 up of the nearest channel with status 1, the lower of two, in the first column with status 2 if there is none, and otherwise of itself |
| RxGain.CodecRoundTripIff | esp-wifi-hal/src/phy_rx_gain.rs:62-65 | an entry gives back its code, and its gain exactly if the code is even |
| RxGain.Generate | esp-wifi-hal/src/phy_rx_gain.rs:39-94 | every half word holds the entry of its index, up to the first gain above the maximum or 127 entries, and no word behind them is written |
| RxGain.SwitchInput | esp-wifi-hal/src/phy_rx_gain.rs:49-61 | inputs without steps are skipped |
| RxGain.EntriesOfInput | esp-wifi-hal/src/phy_rx_gain.rs:45-92 | each input has the gains from its first one on, each once and as many as it has steps, the next input follows, and the last one goes on to the maximum |
| RxGain.PackMeaning | esp-wifi-hal/src/phy_rx_gain.rs:62-65 | the gain field of an entry, in numbers |
| RxGain.ReadBack | esp-wifi-hal/src/phy_rx_gain.rs:132-171 | reading a generated table recovers input and gain of every entry |
| RxGain.FactoryTables | esp-wifi-hal/src/phy_rx_gain.rs:298-343 | all four factory tables meet the conditions for that, with any number of inputs in use |
| CalibrationData.Transfer | esp-wifi-hal/src/phy_init.rs:235-251 | saving copies all parameters behind the header, loading copies them back, nothing else changes |
| CalibrationData.SaveThenLoad | esp-wifi-hal/src/phy_init.rs:235-251 | saving and loading restores all 740 or 848 parameter bytes, which are behind the first 12 bytes of the data; those and the checksum stay |
| CalibrationData.Recovery | esp-wifi-hal/src/phy_init.rs:253-268 | exactly the two ranges are taken from the data |
| CalibrationData.BackupThenRecovery | esp-wifi-hal/src/phy_init.rs:253-274 | recovery takes bytes 218 to 221 and 288 to 523 or 531 as they were backed up, and nothing else |
| CalibrationData.MacData | esp-wifi-hal/src/phy_init.rs:348-354 | the version word is written and no other word changes |
| CalibrationData.Check | esp-wifi-hal/src/phy_init.rs:276-307 | seals the data, or reports whether it verifies; the version is written in both cases |
| CalibrationData.VerifiesIffSameVersion | esp-wifi-hal/src/phy_init.rs:276-307 | sealed data verifies exactly under the sealing version |
| CalibrationData.SingleChangeIsNoticed | esp-wifi-hal/src/phy_init.rs:284-300 | a change of one word is noticed exactly if it is not the version word |
| Crc32.CrcTable | examples/src/capture_protocol.rs:6-20 | the generated table holds eight shifts of every byte |
| Crc32.TableStep | examples/src/capture_protocol.rs:22-26 | one table step is eight bitwise steps |
| Crc32.TableCrcIsCrc | examples/src/capture_protocol.rs:22-26 | the table-driven checksum of every message is the bitwise one |
| Crc32.BurstDetected | examples/src/capture_protocol.rs:22-26 | any change within four consecutive bytes of a message of any length changes the checksum |
| Crc32.PolynomialIsStandard | examples/src/capture_protocol.rs:13 | the constant is the polynomial of section 3.2.9 of IEEE 802.3 |
| Crc32.Residue | examples/src/capture_protocol.rs:22-26 | every message with its checksum behind it leaves the register in the same state |

## Left out

- ESP32 and ESP32-S2 branches of `take_first` and `recycle`: they rest on undocumented sentinel values.
- Stopping and restarting reception, and engine steps that fall into `clear`: the hardware behaviour is not known.
- Two cores: polling a signal is taken to be atomic with respect to the handler.
- Memory ordering: fences are not modelled, every access takes effect when it is made.
- The PMD register that tells MAC protocol errors apart, and power control after a transmission: they enter as fates of attempts.
- `transmit_oneshot`: one attempt of the same kind.
- Building the DMA descriptor, rates, key slots, filters, crypto, `rx.rs` and `borrowed_buffer.rs`: small one-step facts.
- RxDc: `minimum` keeps the best of up to eight estimates; easy.
- RfPll: `correct_cap`, `read_cap` and the channel sequences; mostly callbacks.
- TxGain.WifiGet: the ESP32-S3 form only; the ESP32-C3 form has no hint, and logging is left out.
- TxGain.BtGet: the ESP32-S3 form only, for the same reason.
- TxGain.CalibrateS3: thresholds only; codes and values are copied.
- TxGain.CalibrateC3: the Wi-Fi thresholds only; the Bluetooth table is filled the same way.
- RxGain.ReadBack: the entries `write_memory` reads from the packed table. The ESP32-C3 does not decode the gain, and the ESP32-S3 stops following the input in mode 0 behind the entries of the first eight inputs; alternate entries and the words written to the hardware are left out.
- RxGain.Generate: the gains have to stay below 30, where the coefficients end and the original panics.
- TxGain.LookupC3: tables have 1 to 255 entries; both callers pass a fixed 14 or 18. What entries mean is stated for requests within 14 bits of all thresholds, as with the factory thresholds.
- TxGain.LookupS3: the same, and the hint is the index of an entry, as both callers provide.
- TxRetry.Driver.TransmitWithRetry: window exponents are at most 31, beyond which the original's shift is not defined.
- FreqMemory.Device.Initialize: the callbacks around it; the measured capacitor values are parameters.
- The header of the capture protocol, logging, timing, packet traces, example setup and the Python scripts.
- Register sequences whose only specification is the vendor trace (`s3_mac.rs`, `c3_mac.rs`, `phy_reg.rs`, `phy_i2c.rs` and others).
