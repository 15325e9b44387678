# ICM20602: FIFO engine, mode machine and capture tools

A Dafny model of two halves of the repository that meet at a byte stream, and of what holds across both.

**The driver** (`ICM20602.c`). A hardware FIFO of 1024 bytes collects 14-byte frames. The driver pops it in
bursts of at most 64 frames into a buffer of its own, dates every frame from the trigger time and a count
re-read after the burst, and offers the frames one by one to an IIO buffer that may refuse at any point. What
was refused stays pending and goes first next time. A sticky overflow bit forces a restart of the FIFO. Around
this sits a mode machine (data-ready, hardware watermark, external trigger) driven by the IIO core's callbacks,
the interrupt handler and sysfs writes.

**The tools** (`icm20602_iio_capture_fixed.c`, `iio_icm20602_reader.cpp`). Two different reassemblers, a carry
buffer and a staging vector, cut an arbitrarily chunked byte stream into 24-byte scans, decode them and
estimate how many frames were dropped.

## How it is modelled

- `Chip.Icm20602` is the sensor behind the bus: registers, FIFO bytes, overflow bit. Before every single
  register access any number of samples may arrive, and any access may fail; a failed access changes nothing.
  A ghost `FifoLog` remembers every frame ever written, where the last reset was and how many bytes are gone.
  1024 is 2 modulo 14, so an overflow leaves the FIFO cut 12 bytes into a frame until it is reset or read empty
  (`over` in the contracts). An empty FIFO reads 0xFF.
- One assumption about the part: the overflow bit is cleared by a read of INT_STATUS and by nothing else, as the
  driver's comment on that read says (`ICM20602.c:469-474`). The driver also sets INT_RD_CLEAR
  (`ICM20602.c:2006-2008`), which lets any register read clear the status on this part; there a bit could vanish
  before it is seen. `Visible`, `DrainLaws.StaleOverflow`, the hazard clauses and the claim that torn frames come
  only from hazards rest on the assumption; order, conservation and the mode laws do not.
- `Registers.OnlyChanged` frames every register write of the running driver: registers outside a named set keep their
  value, and every register keeps the bits that are not the driver's. `ModeStep` and `LeaveStep` hold it for the six
  registers of FIFO and interrupts, a data step for the two FIFO enables, `SettingStep` for rate and ranges.
- `Iio.IioBuffer` accepts or refuses each scan, as it likes. Every accepted scan carries a ghost origin: the
  serial number of its frame, a direct register read, or "torn" (popped from a misaligned FIFO).
- `Device.DeviceData` is the driver's private data, changed in place by methods that follow the C functions.
  A `Snapshot` records device, chip and buffer at one instant; the contracts of the larger methods are
  relations between snapshots (`ModeMove`, `ModeStep`, `LeaveStep`, `LookStep`, `BurstStep`, `PushStep`, `Progress`,
  `Accounts`, `EndsWith`, `Moved`, `SettingStep`), and the lemmas are about these relations. A `Job` is one call
  of the drain: the snapshot it found and its arguments.
- `committed` scans are what the IIO buffer accepted followed by what is pending. `Delivers` (no invented,
  repeated or reordered frame) and `Gapless` (none missing either) speak about committed scans.
- A ghost `Ledger` counts the frames that left the FIFO and were neither accepted nor kept pending (`lost`), lists
  those since the last FIFO reset (`gone`) and remembers how many scans were committed at that reset. `Conserves`,
  kept by every step, balances the books of the current epoch: unless the FIFO overflowed since the reset, the frames
  committed since and those in `gone` are together exactly the frames of the epoch that left the FIFO, each once; and
  if none is lost while the FIFO is in use, the committed scans are those frames one by one.
- A `Session` begins when preenable succeeds, ends at postdisable and stays the last one until another begins; it
  records the epoch, the scans accepted so far, the counters, and whether an old overflow bit was left over (`stale`).
  It is `Calm` if since then the bus did not fail and the FIFO did not overflow, and no old bit was left: that speaks
  of bus and sensor only. It is `Intact` if the FIFO neither overflowed nor was recovered nor lost a frame, which bus
  failures need not prevent; a calm session is intact (`IioCore.CalmSession`). An intact FIFO session that is on is
  `Clean`: same epoch as at its beginning, nothing lost, everything that left the FIFO committed. Pending scans dropped
  when the session ends do not damage it.
- The scans of any session fall into contiguous runs. `Breaks` counts where one does not follow the other, and
  `KeepsRuns` charges each break to an overflow, a recovery or a lost frame.
- Counters take the place of oracles: `faults` counts failed accesses, `refusals` refused scans, `overruns`
  FIFO overflows, `hazards` bursts that an overflow hit after the overflow check. A claim for failure-free
  runs has the form "if the counter did not move".
- `IioCore.Core` is the IIO core: the legal orders of preenable, postenable, predisable and postdisable, with
  triggers, interrupts and sysfs writes in between. Callbacks are atomic. `Core.Inv` is kept by every step,
  hence by every run, whatever the bus, the sensor and the IIO buffer do. The core selects a trigger before it
  enables the buffer; preenable itself would take "no trigger" for the data-ready path on a device without
  interrupt, because it compares two null pointers (`ICM20602.c:1528`).
- `CaptureTool.Capture` and `ReaderTool.Reader` are the tools. Both are proved against `Rows.FirstRows`, the rows
  of the first n slices of everything read so far; `read(2)` is a sequence of results (data of any length,
  EAGAIN, EINTR, EOF, error), and signals and the run-time limit may strike at any point if `interruptible` says so.

`dafny verify dfyconfig.toml` checks the whole project.

## What the proofs brought to light

- A drain loses frames exactly when the count re-read after a successful burst read fails (`ICM20602.c:956-958`),
  and then that one burst: `Drain.Pop` and `Drain.Run` say which, `burstReadCount` gives it away, and nothing
  else in a drain loses or repeats a frame (`DrainLaws.DrainConserves`). Over a whole run frames are otherwise lost
  when pending ones are dropped at preenable or postdisable (`BufferOps.DropPending`), and in the books of an epoch
  that is all (`IioCore.Conservation`). A FIFO reset, at preenable, at postdisable and in a recovery, opens new books
  and discards the frames the FIFO still holds, which no counter of the driver shows.
- A FIFO session in which the bus does not fail and the FIFO does not overflow loses nothing and recovers nothing,
  whatever the order of triggers, flushes and refusals, unless an old overflow bit was left when it began
  (`IioCore.CalmSession`, `IioCore.CalmRun`). The next point shows that the last condition cannot be dropped.
- preenable never reads INT_STATUS, and resetting the FIFO does not clear the overflow bit. A bit left over from
  an earlier session makes the first drain of the next one throw away the frames collected so far; it shows in
  the overflow count (`DrainLaws.StaleOverflow`; `Instances.StaleOverflowDiscards` is a state satisfying
  the invariant it happens in, and the session is not intact afterwards).
- The overflow interrupt is written for the device's own two triggers only: preenable with an external trigger leaves
  it as it finds it (`ICM20602.c:1605-1635`). So it is off in such a session if the bus never failed
  (`IioCore.InterruptsAgree`); what a teardown leaves on is owed to a bus failure, one for each
  (`BufferOps.BufferPostdisable`).
- The gyroscope scale of the largest range, 1064, is one below the true value rounded down; the other seven entries of
  the two tables are the true values rounded down (`Rates.ScalesFitRanges`).
- If recovery from an overflow fails on the bus, the bit is already gone and the FIFO may stay misaligned
  (`ICM20602.c:498-511`). A drain delivers a torn frame if and only if an overflow hit between an overflow check and
  its burst, or it took a burst and the FIFO was misaligned with no overflow showing when it began (`Progress`,
  kept by `DrainSpec.BurstProgress`); `Instances.FailedRecoveryTears` is a state satisfying the invariant where every
  undisturbed drain does.
- Timestamps of two bursts of one drain do not increase when a frame arrives between the two count re-reads: the
  seam is exactly (1 - arrivals) periods (`Batches.SeamMonotoneIff`, with an instance in `Batches.SeamCanRepeat`).
- A flush with less than one whole frame in hardware does nothing, even if scans are pending (`ICM20602.c:1342-1344`,
  `Sysfs.FifoFlushStore`; `Instances.FlushIgnoresPending` is a state satisfying the invariant it happens in).
- The `-EBUSY` returns after a successful push (`ICM20602.c:900-901` and `990-991`) cannot be reached.
- The two drop estimates differ exactly when a step passes the threshold without reaching one and a half
  periods, which takes a factor below 1.5 (`Gaps.EstimatesAgreeIff`); both tools still flag the same steps.
- The tools expect different periods at the rates where 10^9/hz rounds up, 600 Hz for one (`Gaps.PeriodsAgreeIff`):
  the C tool rounds down, the C++ tool to nearest.

## Model

| member | source | states |
|---|---|---|
| EndToEnd.CaptureSession | icm20602_iio_capture_fixed.c:649-678 | End to end, for every session, rates, gap factor, chunking of the stream and stop: a row of a FIFO scan shows a frame the sensor wrote, a later one than the rows before, and the rows come in contiguous runs with at most one break for each overflow, recovery and lost frame; if the session uses the FIFO and since its preenable the bus did not fail and the FIFO did not overflow (and no old overflow bit was left), the rows of either tool are the frames from the first one of the session on, in order, none missing, none twice, whether the session is on or over; bus failures that cost no frame do not matter either; the number of rows is exact unless a signal or the clock stopped the tool; number, sample and step of common rows agree between the tools, gap flags too if both expect the same period, and from factor 1.5 on one tool's rows are then a prefix of the other's |
| EndToEnd.RunCapture | icm20602_iio_capture_fixed.c:751-788 | A run of the C tool prints the rows of the stream; a failed read ends it at once; unless a signal or the duration interrupted it, exactly min(limit, slices) rows appear and it reads on until then; it never reads again with the limit already delivered; it is interrupted only if it can be |
| EndToEnd.RunReader | iio_icm20602_reader.cpp:650-676 | The same for the C++ tool |
| EndToEnd.SessionRows | ICM20602.c:826-1013 | Rows over bytes of a session show written frames in order and in runs, and those of a calm or intact FIFO session exactly its frames from its epoch on |
| EndToEnd.WrittenRows | icm20602_iio_capture_fixed.c:598-647 | Rows cut from any accepted scans show the frames those scans hold, each FIFO row a later frame |
| EndToEnd.AcceptedWritten | ICM20602.c:826-865 | In every reachable state every accepted FIFO scan holds a written frame, in the order written |
| EndToEnd.CopiedRows | icm20602_iio_capture_fixed.c:598-647 | Rows cut from scans that copy consecutive frames show those frames, one row per frame |
| EndToEnd.RowShowsScan | icm20602_iio_capture_fixed.c:598-640 | Row k shows the axes and the timestamp of the k-th accepted scan |
| IioCore.Core.Run | ICM20602.c:1713-1718 | The invariant of driver and core holds in every state of every run: any legal callback order, arrivals, bus failures, refusals and sysfs writes; accepted scans, frame history, register trace and all counters only grow; an overflow bit or a recovery appears only with an overflow or an older bit; the session at the end is the one at the start, in which frames are lost only if the bus fails, or began during the run |
| IioCore.Core.constructor | ICM20602.c:2015-2056 | A probe without bus failure establishes the invariant, with watermark 16 and no overflow counted |
| IioCore.Core.Preenable | ICM20602.c:1503-1648 | The invariant survives enabling, which succeeds unless the bus fails; a failed preenable leaves the buffer off and the session before; success begins a session here, and a FIFO session begins intact and clean unless the FIFO overflowed since its reset, and calm if no overflow bit was set either; cached settings stay, and so does every register bit that does not steer FIFO or interrupts; with an external trigger the overflow interrupt stays as it was |
| IioCore.Core.Postenable | ICM20602.c:1694-1701 | The selected trigger of the device is switched on, or the core backs out with everything off; without a data-ready trigger nothing else moves; cached settings and the registers behind them stay |
| IioCore.Core.Predisable | ICM20602.c:1703-1710 | The trigger is off afterwards unless the bus fails; only the data-ready trigger touches the device |
| IioCore.Core.Postdisable | ICM20602.c:1651-1692 | The invariant survives teardown whatever the bus does, and the buffer is off afterwards; each of interrupts, threshold and FIFO that is still on is owed to a bus failure of its own; the session ends, and what was accepted in it stays as intact as it was |
| IioCore.Core.Interrupt | ICM20602.c:1761-1785 | An interrupt polls only the trigger the buffer was enabled with, and none while the buffer is off, in particular after a failed preenable or any postdisable |
| IioCore.Core.Trigger | ICM20602.c:1421-1461 | A firing trigger is a data step that keeps the invariant; in FIFO mode it is a drain to the watermark, with the account and the end of one, dated in steps of a second divided by the cached rate, rounded down; otherwise it adds the current sample or nothing; rate and scales stay |
| IioCore.Core.Flush | ICM20602.c:1303-1368 | A flush at any point of a run keeps the invariant, is refused outside FIFO mode, needs at most four drains and does what FlushDone and Outcome say; rate and scales stay |
| IioCore.Core.StoreWatermark | ICM20602.c:1268-1300 | A watermark write stores the nearest watermark while the buffer is off, is refused with -EBUSY while it is on, and changes nothing else |
| IioCore.Core.WriteSetting | ICM20602.c:707-747 | A rate or scale write refused because the buffer is on or claimed, or because the request is not supported, leaves the whole device state as it was; accepted, it changes the bits of one register and one cached value: the largest divider whose rate is not below the request with the rate it gives, or the range of the requested scale; the invariant holds |
| IioCore.RoutingIsExclusive | ICM20602.c:1722-1785 | In every reachable state the two trigger flags exclude each other, the data-ready flag implies the data-ready enable bit, the watermark flag implies a hardware threshold of 14 times the watermark, and the watermark lies in [1, 73] |
| IioCore.RegisterOrder | ICM20602.c:362-412 | At every register write of every run, bus failures included, no FIFO source is selected while the FIFO is off |
| IioCore.ModeAgreement | ICM20602.c:1528-1643 | Without bus failures since the session began the FIFO is in use, in software and in both hardware enables, exactly while the buffer is on with a trigger other than data-ready; every reset since found the FIFO off; no scan accepted since is torn without a hazard. Failures of earlier sessions do not matter; if there were none, the last two hold for all time |
| IioCore.InterruptsAgree | ICM20602.c:1528-1643 | Without bus failures since the session began the data-ready interrupt is enabled exactly while its flag is set, the threshold is 14 times the watermark while the buffer is on with the watermark trigger and 0 otherwise, and the overflow interrupt is on with the watermark trigger and off with the data-ready trigger and with the buffer off; with an external trigger it is off if the bus never failed |
| IioCore.CachedSettings | ICM20602.c:636-703 | In every reachable state the cached rate is 1000/(divider + 1) of the register and both scale indices name the entry whose bits the registers hold, bus failures included |
| IioCore.AcceptedInOrder | ICM20602.c:826-1013 | Over any run, with failures, overflows and restarts, two accepted FIFO scans hold frames the sensor wrote, the later scan the later frame |
| IioCore.Conservation | ICM20602.c:826-1013 | Conservation over any run, with failures, refusals, restarts and recovered overflows: unless the FIFO overflowed since its last reset, frame n written since is still in the FIFO, was committed exactly once since, or lost exactly once, and only one of these; no other frame and no torn one was committed since; so the numbers add up |
| IioCore.EpochCopies | ICM20602.c:826-1013 | In use, not overflowed and nothing lost since the last reset: what is committed since copies the frames written since one by one, and the FIFO holds the rest; this starts anew after every recovery |
| IioCore.CleanSessionCopies | ICM20602.c:826-1013 | An intact FIFO session that is on is clean: everything committed since preenable copies the frames written since, from the first one on, and the FIFO holds the rest; bus failures that lost nothing included |
| IioCore.SessionCopies | ICM20602.c:826-1013 | In an intact FIFO session, on or over, the accepted scans are the frames written from its beginning on, in order, none missing, none twice |
| IioCore.StaysClean | ICM20602.c:826-1013 | Over every run in which overruns, overflow count and lost frames do not move, an intact session leads to an intact one, clean if it is a FIFO session and on |
| IioCore.CalmSession | ICM20602.c:826-1013 | A session without bus failure, overflow and old overflow bit, over any run and interleaving, recovered and lost nothing, and shows no overflow; if it uses the FIFO and is on, it is clean |
| IioCore.CalmRun | ICM20602.c:826-1013 | Every run without bus failure and overflow leads from a calm session to a calm one: nothing is recovered, nothing lost, and a FIFO session that is on is clean |
| IioCore.SessionRuns | ICM20602.c:826-1013 | The scans accepted in any session are contiguous but for at most as many breaks as there were overflows, recoveries and lost frames in it |
| CoreSpec.DataPathKeeps | ICM20602.c:1421-1461 | Whatever moves data keeps routing, mode agreement, conservation and the state of the session, and takes nothing back |
| CoreSpec.CleanKept | ICM20602.c:826-1013 | A data step keeps a session clean, in the epoch it began with, unless the FIFO overflows or is recovered, or a burst is lost |
| CoreSpec.StaysIntact | ICM20602.c:1503-1648 | If the three counters do not move, an intact session is followed only by intact ones |
| CoreSpec.StaysCalm | ICM20602.c:1503-1648 | If the bus does not fail and the FIFO does not overflow, a calm session is followed only by calm ones |
| CoreSpec.MovedRuns | ICM20602.c:1421-1461 | A data step breaks the run of scans only where an overflow, a recovery or a loss did |
| CoreSpec.EnableStarts | ICM20602.c:1503-1648 | Entering any of the three modes keeps the invariant with a session that begins at the scans accepted and the epoch of the fresh FIFO, in which mode and interrupts agree anew whatever failed before |
| CoreSpec.EnableFails | ICM20602.c:1637-1643 | A failed entry keeps the invariant with everything off and the session before |
| CoreSpec.DataReadyStateKeeps | ICM20602.c:1722-1740 | Switching the data-ready trigger keeps the invariant |
| CoreSpec.DisableKeeps | ICM20602.c:1651-1692 | Leaving a mode keeps the invariant even if hardware could not be switched off, with the interrupts off if it could, and what was accepted in an intact session stays a copy |
| CoreSpec.SettingKeeps | ICM20602.c:707-747 | A setting write disturbs neither delivery nor mode |
| Drain.Run | ICM20602.c:867-1013 | However a drain ends, what was committed before plus every burst of min(frames, 64) once, in order, is committed afterwards; every burst is dated from the trigger time in steps p with p f <= 10^9 < (p + 1) f for the cached rate f; without overflow the bursts are the next frames of the epoch; frames are lost if and only if a burst was read and the re-read after it failed, and then exactly that burst; the return value says how it ended and what is left, after at most four bursts; bursts and refusals are counted exactly |
| Drain.Turn | ICM20602.c:903-1010 | One turn of the drain loop: it goes on with one more burst, or ends the drain with the reason, with the exact loss if the re-read failed |
| Drain.Offer | ICM20602.c:842-862 | Frames are offered in order up to the first refusal, and exactly those before it are accepted |
| Drain.PushPending | ICM20602.c:826-865 | Accepted plus pending scans stay the same, timestamps and origins included, whether the push completes or is refused anywhere, so a retry changes, skips and repeats nothing |
| Drain.ReadFrames | ICM20602.c:808-823 | Rejects counts outside 1 to 64; an aligned FIFO yields its oldest frames, whole, as many as asked for and there are, and they are gone from it; a failed transfer takes nothing |
| Drain.Stage | ICM20602.c:970-980 | The burst becomes pending with the timestamps of its batch and nothing accepted changes |
| Drain.Pop | ICM20602.c:940-960 | The burst takes min(frames, 64) frames; counts, frames and origins are those of one moment between the two counts; a failed read pops nothing and is not counted, a failed re-read is counted and loses the burst |
| Drain.Take | ICM20602.c:940-980 | The popped burst is dated and pending, or the bus failed and nothing is; the frames lost are those of a failed re-read |
| Drain.Look | ICM20602.c:910-921 | Loop top: either an overflow was recovered, or none shows and the frame count is right |
| Drain.TakeAndPush | ICM20602.c:940-1009 | One round of the loop adds exactly one burst to the account or ends the drain with the reason |
| Drain.Resume | ICM20602.c:894-901 | Pending scans go first; after success none are left |
| DrainSpec.WatermarkClamp | ICM20602.c:785-794 | The result is the watermark in [1, 73] nearest to the request, so values already there are kept |
| DrainSpec.BurstDelivers | ICM20602.c:944-984 | Committing a burst keeps exactly-once, in-order delivery, even with an overflow in the middle |
| DrainSpec.BurstIsAccounted | ICM20602.c:921-960 | Without overflow the two counts, the burst and the arrivals balance, and an aligned FIFO stays aligned and yields consecutive frames |
| DrainSpec.AccountBurst | ICM20602.c:903-1010 | The account of a whole drain extends by one burst: still chained, consecutive and byte-exact |
| DrainSpec.LookProgress | ICM20602.c:910-921 | The overflow check comes before the burst: if it passes and every overflow still showed, the FIFO is aligned |
| DrainSpec.BurstProgress | ICM20602.c:944-984 | A drain has delivered torn frames if and only if an overflow hit between check and burst, or it took a burst and began misaligned with no overflow showing |
| DrainSpec.LostProgress | ICM20602.c:956-958 | A burst the bus cuts short commits nothing; either nothing left the FIFO or exactly the burst did, and then its frames are the ones lost |
| DrainSpec.BurstStepRuns | ICM20602.c:940-984 | A burst breaks the run of scans at most where an overflow or a loss did |
| DrainSpec.EndsAfterBurst | ICM20602.c:986-1010 | After a push the drain ends below its threshold, at four bursts, or with an error, and says so |
| DrainLaws.NoLostWakeup | ICM20602.c:903-1012 | A non-forced drain that succeeds recovered an overflow, left fewer than watermark frames, or used all four bursts; with few arrivals two bursts are enough |
| DrainLaws.DrainStamps | ICM20602.c:956-980 | In an undisturbed drain every timestamp is T minus (frames still behind it) periods, and every seam is (1 - arrivals) periods |
| DrainLaws.IdleForcedDrain | ICM20602.c:930-1002 | A forced drain nothing interferes with delivers every whole frame in at most two bursts and leaves count mod 14 bytes |
| DrainLaws.StaleOverflow | ICM20602.c:517-544 | An overflow bit showing at the start makes the drain deliver nothing and restart the FIFO; with neither bit nor overflow nothing is recovered |
| DrainLaws.DrainConserves | ICM20602.c:867-1013 | In any drain without overflow, bus failures included: frames found plus arrivals equal frames committed plus lost plus left; the lost ones come right after those committed, and losing any makes the drain fail with -EIO |
| DrainLaws.MovedTransitive | ICM20602.c:1337-1362 | Data steps compose: delivery, conservation, mode and overflow visibility carry over any sequence of them |
| DrainLaws.DrainMoves | ICM20602.c:867-1013 | Every drain is such a step, however it ends |
| DrainLaws.RefusedKeepsMode | ICM20602.c:982-984 | A drain refused by the IIO buffer changed neither mode nor overflow count, so its pending scans stay reachable |
| Batches.StampFromTrigger | ICM20602.c:833-850 | A frame is dated one period before the trigger per frame behind it |
| Batches.StepInside | ICM20602.c:843-844 | Inside a burst timestamps step by exactly one period |
| Batches.SeamStep | ICM20602.c:956-980 | Between consecutive bursts the step is (1 - a) periods, a being the arrivals between the two re-reads |
| Batches.SeamMonotoneIff | ICM20602.c:962-980 | The seam goes forward if and only if nothing arrived |
| Batches.SeamCanRepeat | ICM20602.c:962-980 | An instance: one arrival during the second burst dates two frames the same |
| Batches.DrainProgression | ICM20602.c:903-1010 | With no arrivals the whole drain, over any number of bursts, is one progression ending at T - remaining * p |
| Batches.StampAccuracy | ICM20602.c:962-976 | For a sensor with exact period p and a re-read d after the trigger time every frame of a burst has the same error, in [-d, p - d) |
| Batches.TwoBurstsSuffice | ICM20602.c:998-999 | At most 55 arrivals up to the second count and fewer than watermark during the second burst end the drain by its watermark test within two bursts |
| Batches.IdleDrainEmpties | ICM20602.c:1001-1002 | Without arrivals two bursts empty a full FIFO |
| Delivery.FaithfulBurst | ICM20602.c:826-865 | Appending frames not yet popped keeps delivery faithful and ordered |
| Delivery.GaplessCopies | ICM20602.c:826-865 | Faithful and gapless delivery means a verbatim copy of the frames of the epoch |
| Runs.BreaksCount | ICM20602.c:826-1013 | The break count is the number of scans that do not hold the frame after the one before |
| Runs.BurstKeepsRuns | ICM20602.c:940-984 | A burst continues the scans before it unless an overflow came before it, and only an overflow after it opens a new break |
| Runs.NothingCommitted | ICM20602.c:903-958 | While no scan is committed, a break opens only with an overflow, a recovery or a loss |
| Runs.DirectKeepsRuns | ICM20602.c:1439-1456 | Direct samples follow each other |
| Runs.KeepsRunsTransitive | ICM20602.c:903-1010 | Steps that break only for such a cause compose |
| Ledgers.ConservedBurst | ICM20602.c:944-984 | Committing a burst keeps the books balanced frame by frame, and gapless if nothing is lost |
| Ledgers.ConservedLoss | ICM20602.c:956-958 | So does losing a popped burst, entered as lost |
| Ledgers.ConservedDrop | ICM20602.c:268-274 | So does dropping the pending scans: they move from committed to lost |
| Ledgers.ConservedFresh | ICM20602.c:340-360 | A FIFO reset opens new books |
| Ledgers.FrameFate | ICM20602.c:826-1013 | Balanced books mean: each frame of the epoch is in the FIFO, committed once or lost once, and only one of these |
| Ledgers.NothingElse | ICM20602.c:826-1013 | And whatever was committed or lost since the reset is a frame of the epoch or a direct sample |
| Ledgers.EpochBalance | ICM20602.c:826-1013 | So committed plus lost plus still in the FIFO is everything written since the reset |
| Device.AcceptedPart | ICM20602.c:230-239 | What is already accepted does not depend on what is pending |
| Sysfs.FifoFlushStore | ICM20602.c:1303-1368 | Needs an enabled buffer in FIFO mode; ends after at most four drains, and goes on to another only after a count above 64 frames; succeeds if and only if neither bus nor IIO buffer failed; undisturbed it flushes, or does nothing below one whole frame |
| Sysfs.FlushDelivers | ICM20602.c:1302-1362 | Undisturbed, with at least one whole frame in hardware: everything pending, then all whole frames in order are accepted, count mod 14 bytes stay, nothing is pending |
| Sysfs.FlushPass | ICM20602.c:1346-1354 | One forced drain of a flush is a data step, dated from its time in steps of the period of the cached rate; its result is zero if and only if nothing failed, and then nothing is pending |
| Sysfs.FlushPasses | ICM20602.c:1337-1362 | A further pass of an undisturbed flush keeps what the flush promises |
| Instances.FlushIgnoresPending | ICM20602.c:1342-1344 | An instance: a state that satisfies the invariant, with a refused scan pending and an empty FIFO, where an undisturbed flush leaves the scan pending |
| Instances.StaleOverflowDiscards | ICM20602.c:517-544 | An instance: a state that satisfies the invariant, in a clean session that is calm but for an old overflow bit, with frames collected, where every drain that succeeds throws them away, which ends the session being intact |
| Instances.FailedRecoveryTears | ICM20602.c:495-515 | An instance: a state that satisfies the invariant after a failed recovery, misaligned with no overflow showing, from which every undisturbed drain delivers torn frames |
| FifoLogs.WrittenContents | ICM20602.c:326-332 | A written frame goes in at the end and a full FIFO loses its oldest bytes |
| FifoLogs.WrittenGrows | ICM20602.c:30-37 | Framing: the FIFO is aligned until it overflows and cut 12 bytes into a frame from then on, at any number of overflows |
| FifoLogs.PoppedDrops | ICM20602.c:817-822 | Popping whole frames removes exactly the oldest ones and keeps the framing |
| FifoLogs.BurstDecodes | ICM20602.c:808-823 | Slot k of a burst from an aligned FIFO decodes to the k-th oldest frame written |
| FifoLogs.BurstAccounts | ICM20602.c:917-960 | Count after equals count before minus burst plus arrivals, if and as long as nothing overflows |
| FifoLogs.ArrivalsCount | ICM20602.c:449-467 | Without overflow the frame count grows by the number of arrivals |
| Frames.WireSlot | ICM20602.c:183-191 | Slot k of the FIFO bytes is the encoding of frame k |
| Frames.SlotsDecode | ICM20602.c:183-191 | Cutting FIFO bytes at a frame boundary recovers the frames |
| Chip.Icm20602.UpdateBits | ICM20602.c:351-354 | A read-modify-write writes only a changed value, resets the FIFO iff the reset bit is written, and changes nothing if it fails |
| Chip.Icm20602.ReadOverflow | ICM20602.c:475-491 | The overflow bit is returned and cleared, or the access failed and it stays |
| Chip.Icm20602.ReadFifo | ICM20602.c:819-822 | A burst returns and removes the oldest bytes of the FIFO at the instant of the transfer, followed by 0xFF if it holds too few; a failed one removes nothing |
| Iio.IioBuffer.Push | ICM20602.c:846-859 | The scan is appended, or refused and counted |
| Registers.MergeUpdates | ICM20602.c:645-648 | A masked update sets the masked bits and leaves the others |
| Registers.ThresholdRoundTrip | ICM20602.c:1162-1171 | The two threshold registers read back as the byte count written, whatever the other bits of the first were |
| FifoControl.Enable | ICM20602.c:362-412 | Success leaves the FIFO collecting from empty with the flag set; the reset happens with FIFO and sources off; failure leaves the flag |
| FifoControl.Disable | ICM20602.c:414-447 | Success leaves FIFO and sources off and empty with the flag cleared; failure leaves the flag |
| FifoControl.Reset | ICM20602.c:340-360 | Empties the FIFO and changes no other register bit |
| FifoControl.Stop | ICM20602.c:374-391 | Sources off, FIFO off, reset, stopping at the first failure, with every write ordered |
| FifoControl.Start | ICM20602.c:393-406 | FIFO on before its sources, so the write order holds at every step |
| FifoControl.GetCount | ICM20602.c:449-467 | The two count bytes give the number of bytes in the FIFO and hence the whole frames |
| FifoControl.ClearPending | ICM20602.c:268-274 | Nothing is pending afterwards |
| FifoControl.Recover | ICM20602.c:495-515 | Success restores an empty, aligned FIFO in the mode it was in; failure never switches the mode on, and gives it up exactly if the FIFO had been disabled and reset by then |
| FifoControl.CheckOverflow | ICM20602.c:475-491 | The overflow shown by INT_STATUS is returned and cleared, or the access failed and it stays |
| FifoControl.CheckAndRecoverOverflow | ICM20602.c:517-544 | 0 means no overflow showed, 1 means exactly one was counted and recovered from, an error leaves the rest of the state as it was or the recovery incomplete; at most one is counted |
| FifoControl.UseWatermarks | ICM20602.c:1149-1160 | Clears bit 7 of CONFIG and no other bit |
| FifoControl.SetWatermarkHw | ICM20602.c:1135-1180 | Rejects 0 and more than 73 frames without touching the bus; success programs a threshold of 14 times the frames |
| FifoControl.DisableWatermarkHw | ICM20602.c:1182-1197 | Success programs threshold 0 |
| ModeSpec.ModeStepTransitive | ICM20602.c:1503-1648 | Steps of a mode change compose: no scan touched, overflow visibility and reset discipline kept |
| ModeSpec.ClearedDelivers | ICM20602.c:1521 | Dropping the pending scans keeps delivery faithful for what was accepted |
| ModeSpec.LeaveStepTransitive | ICM20602.c:1651-1692 | Steps of a teardown compose |
| BufferOps.BufferPreenable | ICM20602.c:1503-1648 | Success enters the mode of the selected trigger, in flags, FIFO enables, interrupt enables, threshold and the mode bit of CONFIG; failure leaves every flag off; pending scans are dropped and nothing else; whatever happens, only the driver bits of INT_ENABLE, CONFIG, the threshold, FIFO_EN and USER_CTRL move, and with an external trigger the overflow interrupt stays as it was |
| BufferOps.DropPending | ICM20602.c:268-274 | Dropping what is pending removes exactly the scans not yet accepted and enters them as lost |
| BufferOps.EnableDataReadyPath | ICM20602.c:1530-1550 | Watermark off, FIFO off, overflow interrupt off, data-ready interrupt on; CONFIG is not touched |
| BufferOps.EnableWatermarkPath | ICM20602.c:1567-1596 | Data-ready interrupt off, threshold 14 times the watermark, FIFO collecting from empty, overflow interrupt on; of CONFIG exactly bit 7 is cleared |
| BufferOps.EnableExternalPath | ICM20602.c:1614-1631 | Data-ready interrupt off, threshold 0, FIFO collecting from empty; overflow interrupt and CONFIG stay as they were |
| BufferOps.BufferPostdisable | ICM20602.c:1651-1692 | All flags off whatever happens, pending dropped; interrupts, threshold and FIFO are off but for as many of them as accesses failed, and a FIFO that was in use is empty unless two failed; no other register bit moves |
| BufferOps.StopDeviceLocked | ICM20602.c:2074-2108 | The same teardown without dropping pending scans |
| BufferOps.SetTriggerState | ICM20602.c:1722-1740 | Flag and enable bit move together or not at all, and no other register does |
| BufferOps.FifoTriggerSetState | ICM20602.c:1210-1220 | Only the flag moves |
| BufferOps.IrqHandler | ICM20602.c:1761-1785 | The watermark trigger goes before data-ready, and neither is polled without its flag |
| BufferOps.PushSample | ICM20602.c:1439-1456 | The direct path adds the current sample with the trigger time, or nothing if bus or buffer fail |
| BufferOps.TriggerHandler | ICM20602.c:1421-1461 | FIFO mode drains to the watermark, dated in steps of the period of the cached rate, otherwise one direct sample; either way a data step |
| Rates.AcceptedIff | ICM20602.c:140-160 | A rate is accepted if and only if it lies in 4 to 1000 Hz |
| Rates.RateRoundTrip | ICM20602.c:140-160 | The programmed divider d is the largest whose rate is not below the request r: (d + 1) r <= 1000 < (d + 2) r; the real rate is 1000/(d + 1) rounded down; requesting it again gives the same divider |
| Rates.FloorThrice | ICM20602.c:148-152 | For any N, rounding N/x down three times is rounding once |
| Rates.PeriodExactIff | ICM20602.c:883-886 | The stamp period p of a rate f is a second divided by f, rounded down: p f <= 10^9 < (p + 1) f; it is never shorter than the sample period and exact iff the divider divides 1000 |
| Rates.AdvertisedRatesExact | ICM20602.c:136-138 | Every advertised rate is programmed and stamped exactly |
| Rates.ScalesFitRanges | ICM20602.c:99-130 | Entry i of either table is bits 4:3 holding i and the true scale of 2 g or 250 degrees a second, doubled i times, over 32768 steps, rounded down; only the largest gyroscope scale is one less |
| Settings.SetScale | ICM20602.c:636-682 | Rejects exactly the scales not in the table; success selects the requested entry in bits 4:3 of one register and leaves every other bit; failure changes nothing |
| Settings.SetSamplingFrequency | ICM20602.c:684-703 | Rejects exactly the rates outside 4 to 1000 Hz; success programs the largest divider whose rate is not below the request and caches the rate it gives; register and cached rate move together or not at all, and no other register does |
| Settings.WriteRaw | ICM20602.c:707-747 | Cached settings stay those of the registers for every request and every bus failure; nothing changes while the buffer is on or the device is claimed; invalid requests are exactly the unsupported ones; an accepted one changes the bits of the register it names and its cached value, as asked, and leaves the other registers and cached values |
| Settings.FifoWatermarkStore | ICM20602.c:1268-1300 | Each parse failure gives its own error and stores nothing; the clamped value is stored only with the buffer off, otherwise the stored watermark stays |
| Settings.ScaleIdxFromReg | ICM20602.c:106-134 | The search always finds the entry of bits 4:3, so the error return is never taken |
| Settings.ApplySettings | ICM20602.c:1973-2013 | The registers end up as the first so many of the eight configuration writes, in order, leave them, all eight if and only if it succeeds; the last makes reading the status clear it (INT_RD_CLEAR, no latching); FIFO and interrupt enables are untouched |
| Settings.InitDevice | ICM20602.c:2015-2056 | Success establishes the state every run starts from, with the configuration and nothing else programmed and cached settings matching the registers |
| Scans.LeRoundTrip | icm20602_iio_capture_fixed.c:571-578 | Little-endian bytes of any length give back the value they were made from |
| Scans.OrDisjoint | icm20602_iio_capture_fixed.c:571-578 | A bitwise or with bits above all those set adds |
| Scans.OrAbove | icm20602_iio_capture_fixed.c:571-578 | A byte or-ed in above the bytes before it extends their value |
| Scans.OrBelow | iio_icm20602_reader.cpp:410-416 | A byte or-ed in below the shifted value of those after it extends that value |
| Scans.LoadLeS64 | icm20602_iio_capture_fixed.c:571-578 | The ascending loop of shift and bitwise or computes the signed 64-bit value of the bytes |
| Scans.ReadLeS64 | iio_icm20602_reader.cpp:410-416 | The descending loop of shift and bitwise or, on wrapping 64-bit words, computes the same value |
| Scans.AxisRoundTrip | icm20602_iio_capture_fixed.c:565-569 | Every signed 16-bit value survives the big-endian layout |
| Scans.AxisUnique | iio_icm20602_reader.cpp:404-408 | Different words show different values |
| Scans.TimestampRoundTrip | icm20602_iio_capture_fixed.c:571-578 | Every signed 64-bit timestamp survives the layout |
| Scans.LoadReadsAxis | icm20602_iio_capture_fixed.c:565-569 | The shift-and-or decoder of both tools reads the signed value of a big-endian word |
| Scans.CpuReadsAxis | ICM20602.c:285-323 | The driver's byte-order conversion does, too, on a CPU of either byte order |
| Scans.ScanRoundTrip | ICM20602.c:193-197 | Laying out a scan and decoding it with either tool gives back all seven values |
| Scans.DecodedMatchesDirect | ICM20602.c:285-323 | What the tools decode from a scan with their own shifts is on every channel what a direct read, with its own byte swap, shows for the same frame |
| Scans.StreamSlot | iio_icm20602_reader.cpp:388-401 | Slice k of the byte stream is the layout of scan k |
| Gaps.NearestIff | icm20602_iio_capture_fixed.c:590-591 | The rounding picks n if and only if the step lies within half a period of n periods |
| Gaps.EstimatesOfRatio | iio_icm20602_reader.cpp:504-515 | With a factor a/b a step is a gap for either tool iff it goes forward, the period is known, and b steps exceed a periods; a gap nearest to n periods counts n - 1 drops, at least one in the C tool, none in the C++ tool for n below 2; any other step counts none |
| Gaps.EstimatesAgreeIff | iio_icm20602_reader.cpp:504-515 | The two estimates are equal unless the step passes the threshold below one and a half periods |
| Gaps.EstimatesCanDiffer | iio_icm20602_reader.cpp:504-515 | An instance of the disagreement at factor 1.2 |
| Gaps.EstimatesAgree | icm20602_iio_capture_fixed.c:580-596 | With a factor of at least 1.5 they always agree |
| Gaps.CapturePeriodIs | icm20602_iio_capture_fixed.c:611-614 | The C tool expects p nanoseconds with p hz <= 10^9 < (p + 1) hz, and 0 if no rate is known |
| Gaps.ReaderPeriodIs | iio_icm20602_reader.cpp:481 | The C++ tool expects 10^9/hz rounded to nearest, for any real rate, and 0 if no rate is known |
| Gaps.PeriodsAgreeIff | iio_icm20602_reader.cpp:481 | The tools expect the same period exactly at the rates where rounding 10^9/hz goes down |
| Gaps.PeriodsDifferAt600 | icm20602_iio_capture_fixed.c:611-614 | An instance: they differ at 600 Hz |
| Gaps.StepExact | icm20602_iio_capture_fixed.c:580-596 | n periods with jitter below half a period are read as n - 1 missing frames |
| Gaps.DropsExact | icm20602_iio_capture_fixed.c:616-628 | Over any run on a grid the total is the number of grid points skipped |
| Rows.RowShowsSlot | icm20602_iio_capture_fixed.c:598-640 | Row k decodes slice k and its step is the difference of two neighbouring timestamps |
| Rows.RowsStable | icm20602_iio_capture_fixed.c:649-678 | More input never changes rows already printed |
| Rows.RowGap | iio_icm20602_reader.cpp:494-527 | For either tool and a factor a/b, a row is a gap iff it has a predecessor, its step goes forward, the period is known, and b steps exceed a periods; its drops are the nearest number of periods less one, at least one in the C tool |
| Rows.RowsAgree | iio_icm20602_reader.cpp:494-527 | For any periods and factor the rows both tools print for a slice agree in number, sample and step; with the same period in the gap flag; from factor 1.5 on in everything |
| Rows.RulesAgree | iio_icm20602_reader.cpp:494-527 | Same input, same period, factor at least 1.5: both tools print the same rows |
| Rows.TotalsAgree | icm20602_iio_capture_fixed.c:625-628 | The summed drops are the estimates over all neighbouring timestamps |
| Rows.StatsBound | icm20602_iio_capture_fixed.c:616-628 | Minimum and maximum bound every step that was counted |
| Rows.StatsAre | icm20602_iio_capture_fixed.c:616-628 | The statistics of either tool are number, sum, smallest and largest of the steps it counts, both extremes attained; the C++ tool counts exactly the steps that go forward |
| Rows.GapRowsCount | iio_icm20602_reader.cpp:508-510 | The gap counter is the number of rows flagged |
| Rows.StepsTelescope | icm20602_iio_capture_fixed.c:616-628 | The C tool counts n - 1 steps for n rows, and they add up to the time from first to last row |
| Rows.CaptureDropsExact | icm20602_iio_capture_fixed.c:580-628 | On a grid with jitter below half a period per step both tools report exactly the missing frames |
| CaptureTool.Capture.ProcessFrame | icm20602_iio_capture_fixed.c:598-647 | Prints the next row of the specification, gap flag and drops those of Rows.RowGap; keeps all frame statistics (step minimum, maximum, sum and count, gaps, drops, first and last timestamp) those of the rows; and stops at the frame limit |
| CaptureTool.Capture.ProcessBytes | icm20602_iio_capture_fixed.c:649-678 | However the input is chunked, the rows are those of the first slices of everything read, and the carry is the rest |
| CaptureTool.Capture.CompleteCarry | icm20602_iio_capture_fixed.c:655-666 | Carry and chunk together keep being the unread rest of the stream |
| CaptureTool.Capture.PrintWhole | icm20602_iio_capture_fixed.c:668-671 | Whole slices are printed until a stop or less than one is left |
| CaptureTool.Capture.KeepRest | icm20602_iio_capture_fixed.c:673-677 | The tail is carried, or dropped after a stop |
| CaptureTool.Capture.DrainReadsUntilEagain | icm20602_iio_capture_fixed.c:714-749 | Every read is taken in and counted once, in order; only EAGAIN, end of file, an error or a stop end the drain |
| CaptureTool.Capture.RunLoop | icm20602_iio_capture_fixed.c:751-788 | Not stopped: bytes read equal 24 times the rows plus the carry; not interrupted: exactly min(limit, slices) rows appear; a failed read is returned at once; no read begins once the limit has been delivered in whole slices |
| ReadOracle.AgainsCount | icm20602_iio_capture_fixed.c:714-749 | The EAGAIN counter is the number of reads that returned EAGAIN |
| ReadOracle.SuccessesCount | icm20602_iio_capture_fixed.c:714-749 | The counter of successful reads is the number of reads that returned data |
| ReaderTool.Reader.ShouldStop | iio_icm20602_reader.cpp:640-648 | Signal, frame limit and run time are the only reasons to stop |
| ReaderTool.Reader.CompleteSample | iio_icm20602_reader.cpp:494-527 | Prints the next row of the specification, gap flag and drops those of Rows.RowGap, and keeps all frame statistics those of the rows, steps that do not go forward left out |
| ReaderTool.Reader.AppendAndProcess | iio_icm20602_reader.cpp:738-761 | The staging vector is always the rest of the stream behind the printed rows |
| ReaderTool.Reader.PrintStaged | iio_icm20602_reader.cpp:748-756 | Slices are consumed from the front, one row each, until a stop or less than one is left |
| ReaderTool.Reader.DrainUntilEagain | iio_icm20602_reader.cpp:715-736 | Every read is taken in and counted once, in order; only EAGAIN, end of file, an error or a stop end the drain |
| ReaderTool.Reader.RunPoll | iio_icm20602_reader.cpp:650-676 | The same laws for the staging vector: 24 times the rows plus what is staged, min(limit, slices) rows, and no read beyond the limit |

## Left out

- SPI and regmap transport, sleeps, locks, logging, allocation, module registration, remove(): an access succeeds or
  fails. `BufferOps.StopDeviceLocked` is modelled on its own and is not a step of `IioCore.Core.Run`.
- The chip-id check and the soft-reset polling loop; the registers are taken to read zero after the reset, and
  init_device overwrites those it configures. Device-tree parsing: a configuration is any value of `Config`.
- read_raw, read_avail and the show attributes: one read or one table lookup each; the channel decoding of read_raw
  is in `Scans.DecodedMatchesDirect`.
- Selecting only one of the two FIFO sources, which the driver does not. Subsets of active channels in the IIO scan:
  all six axes and the timestamp are taken to be enabled.
- Arrivals happen between register accesses, one whole frame at a time, not inside a transfer.
- Callbacks are atomic. The lock-free reads of the interrupt handler and the trigger handler's push after unlocking
  are not interleaved with other callbacks.
- Driver timestamps and the driver's 32-bit counters are unbounded integers; the end-to-end theorem assumes that the
  timestamps fit 64 signed bits. The tools' counters are unbounded too.
- Floating point is replaced by exact reals in gap thresholds and ratios.
- The tools' wall clock, poll and epoll, option and path handling, bytes seen in partial slices, wake-up counts and the
  text of the CSV file. The C++ file prints only the gap flag of a row, the model also keeps the drops it adds to the
  total. A tool runs out of modelled reads where the device would return EAGAIN.
- Data-ready sessions: what a direct sample shows is stated per trigger (`IioCore.Core.Trigger`), not against the
  history of samples over a run.
- `run_epoll` and `run_epoll_loop`: the same drain behind a different wait.
- `icm20602_iio_capture.c`, `RefCode.c`, `APP.c`, `pthreadAPP.c`: older or duplicate programs.
- IioCore.Core.Trigger: may fire in any phase but off, which allows more runs than the IIO core does.
