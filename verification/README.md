# DSVita: verified models

DSVita emulates a Nintendo DS: two processors, ARM9 and ARM7, that run translated code against emulated
hardware. This project models the parts of it that hold state over a long run or that must undo each other,
and proves what they are for. Each part is modelled as the program has it: what is programmed as
updates of state is a class or a method with loops, proved equal to a function of the old state; the theorems
are lemmas about those functions.

Check everything with `dafny verify dfyconfig.toml`.

## The parts

**Scheduler, timers and main loop** (`Emulator`, `CycleManager`, `SchedulerEffects`, `RunLoop`, `Clock`, `TimerEffects`,
`TimerGrid`, `Dispatch`). Events are
slots of due cycles with a bit each in a mask that the dispatch loops scan by leading zeros. Timers reschedule
their event from the due cycle, not from the late cycle it is dispatched in. A clock past 0x7FFF_FFFF is put
back to zero, and everything measured by it moves along; `base` counts the cycles taken off, so that times before
and after can be compared. What guest code and event handlers do is left open: a run is a list of slices, one for
each call of the scheduler, be it by the main loop or by the code that it executes (at a branch, or waiting in a
loop). A slice names the actions taken by guest code and by the handler of every event, and the theorems range over
all of them. A run is restricted only by `RunOk`: nobody but the timer code schedules timer events, some event (the
"beat", which the sound unit's sample event is) is rescheduled by its own handler, a control write does not bring a
channel to life without its event (the case of `SetCntHSyncExact`), and no rebase meets an event that is already past
due (the exact condition of `RebaseExact`). The last is met by every run whose slices are short against its timer
periods and rescheduling delays (`PromptRunOk`). `TimerEffects` and `Clock` say in cycles and register bits what the
operations of a run do: when a started timer overflows for the k-th time, how far each call moves the clock, and that a
sleeping machine runs its earliest event when that is due.

**Instruction trace** (`TraceFormat`, `TraceLog`, `TraceLayout`, `TraceRoundTrip`, `TraceDiff`). A writer keeps the last record of
each processor and writes differences, with keyframes; text and memory records come in between. There are two
decoders, in Rust and in Python. `TraceLayout` has the bytes of each record.

**Savestates** (`Savestate`, `SavestateLayout`, `SavestateLaws`, `SavestateContext`). One walk over the fields both saves
and loads. A schema stands for a type, and saving and loading are functions of schema and value; `SavestateLayout` has
what each type saves as, and what any bytes load as.

**I/O register tables** (`IoTable`). A sorted list of 1, 2 and 4 byte registers is compiled into a table for each
access width. Generated expressions are syntax trees with an evaluation.

**Cheats** (`Cheats`, `CheatEffects`, `Text`, `Cht`, `ChtLayout`, `ChtLaws`). The Action Replay interpreter runs against
any memory; what each line does is said of memories that read back what was written. The cheat list file is printed and
parsed.

**Processor communication** (`Rings`, `Ipc`, `IpcEffects`, `IpcPorts`). Ring buffers stand for queues; two of them carry words
between the processors, with status bits that are updated only when a queue becomes empty, not empty, full or not
full.

**Cartridge** (`Cartridge`, `Feistel`, `Key1`, `Crc`). A page cache over a file whose reads may fail, the KEY1 block
cipher, and the CRC-16 of the header.

**Divider and square root** (`DivSqrt`). Results are computed when they are read.

Plain integer operations wrap around, as they do in a release build.

## What turned out not to hold

Each of these is a lemma or method with the exact condition, and mostly another with an input that shows it.

- A control write that lets a counting-up timer run by itself, with the prescaler it had, does not schedule it: it
  never overflows (`RunLoop.SetCntHSyncExact`; `RunLoop.ClearingCountUpStrands` does it with two writes).
- A rebase keeps due times only if the next event is not in the past (`RunLoop.RebaseExact`), and a timer that
  overflows every few cycles gets there in one slice (`RunLoop.LateTimerBreaksRebase`).
- The divider's zero flag is computed with the result, but the control register is read without computing
  anything, so the flag can be out of date (`DivSqrt.DivSqrt.GetDivCnt` says exactly when, `DivSqrt.ZeroFlagLags` is
  an example).
- A vector of elements that take no space can be saved and not loaded (`SavestateLaws.RoundTrip` has the exact
  condition, `SavestateLaws.EmptyElementsDoNotLoad` an example). A savestate with a screenshot over 16 MiB is
  written and never read (`SavestateContext.HeaderRoundTrip`).
- A list loaded from a cheat file comes back changed from a save exactly when it enables a cheat without code
  (`ChtLaws.LoadedRoundTripExactly`; `ChtLaws.CodelessEnableIsLost` has files that do). Other lists would also for a
  line break in a name or too many cheats (`ChtLaws.RoundTripExactly`), but no file loads as one. A file panics exactly when it sets a
  description or a code to a value that is a single character, or begins or ends outside ASCII
  (`ChtLaws.ParsePanicsExactly`; `ChtLaws.BadQuotesPanic` and `ChtLaws.BadCodePanics` are examples).
- A set condition flag survives the end of a loop that still repeats (`Cheats.FlagClears`).
- The record reader raises an exception on a log that is cut within the length of a text record, where the decoder
  ends cleanly (`TraceDiff.CutLogRaisesExactly`). The two decoders take a record apart differently exactly when a
  delta has its unused mask bit set or follows a record kept for the other processor, which decoding never does
  (`TraceDiff.StepKeepsOwnSlots`), or a memory record has a kind past the last one, but for a few coincidences
  (`TraceDiff.TurnMatchesExactly`); `TraceDiff.DecodersDiffer` is a file in which one finds a record and the other
  none. No written log holds such records.
- Stepping the front of a ring back needs a size that divides the index type's number of values
  (`Rings.StepBackExact`).
- The register compiler accepts lists that it then rejects by an assertion: exactly those that overlap
  (`IoTable.AcceptedExactly`). A table finds the right cell only if its first register is aligned to the access
  (`IoTable.IndexExact`), and writes wrong bytes to a register that starts inside a cell and reaches past it
  (`IoTable.WriteExact`).

## Model

| member | source | states |
|---|---|---|
| `CycleManager.Scheduler.Schedule` | src/core/cycle_manager.rs:144-155 | the event is armed at least one cycle ahead, clamped to the last cycle, and the next event cycle only drops |
| `CycleManager.Scheduler.ScheduleFromDue` | src/core/cycle_manager.rs:161-169 | the event is armed relative to the due cycle being dispatched, saturating |
| `CycleManager.Scheduler.AddCycles` | src/core/cycle_manager.rs:132-134 | the clock moves on and nothing else changes |
| `CycleManager.Scheduler.JumpToNextEvent` | src/core/cycle_manager.rs:175-181 | the clock jumps forward to the next event cycle and never back |
| `CycleManager.TakeLeading` | src/core/cycle_manager.rs:229-237 | one scan step finds the lowest remaining event and leaves exactly the ones above it |
| `CycleManager.Scheduler.DispatchImm` | src/core/cycle_manager.rs:226-238 | the scan runs the pending immediate events in ascending order, from a snapshot taken before the first |
| `CycleManager.Scheduler.ScanEvents` | src/core/cycle_manager.rs:245-268 | the shifting scan over the bit mask is the ascending sweep over the set of events armed at entry |
| `CycleManager.Scheduler.VisitEvent` | src/core/cycle_manager.rs:250-263 | a due event is disarmed, its due cycle published and its handler run; one that is not due lowers the next event cycle |
| `CycleManager.Scheduler.CheckEvents` | src/core/cycle_manager.rs:185-274 | immediate events, the gate, the sweep and the rebase in this order, for every behaviour of the handlers |
| `CycleManager.Scheduler.OnOverflowEvent` | src/core/cycle_manager.rs:277-304 | the clock restarts and active events, next event cycle and timer deadlines move back with it |
| `CycleManager.Scheduler.TimersGetCntL` | src/core/timers.rs:51-61 | a running counter is computed from its deadline, a stopped one is the stored value |
| `CycleManager.Scheduler.TimersSetCntL` | src/core/timers.rs:67-70 | the reload value changes under the mask and nothing is rescheduled |
| `CycleManager.Scheduler.TimersSetCntH` | src/core/timers.rs:72-105 | starting a channel or changing its shift reschedules it from its current value |
| `CycleManager.Scheduler.Reload` | src/core/timers.rs:108-126 | an overflow restarts the counter one period after its due cycle and sends its interrupt if enabled |
| `CycleManager.Scheduler.TimersOverflow` | src/core/timers.rs:107-141 | the overflow with its chain of counting-up channels, which ends |
| `SchedulerEffects.ScheduleEffect` | src/core/cycle_manager.rs:144-155 | due at least one cycle from now and at most in the last cycle there is; what else changes |
| `SchedulerEffects.ScheduleFromDueEffect` | src/core/cycle_manager.rs:161-169 | the same from the due cycle being dispatched |
| `SchedulerEffects.ActionEffect` | src/core/cycle_manager.rs:140-169 | which operation each action of guest code and handlers is |
| `SchedulerEffects.ImmediatesRunInOrder` | src/core/cycle_manager.rs:226-238 | the actions of the handlers of exactly the pending immediate events follow each other in ascending order, and what they make pending stays pending |
| `SchedulerEffects.SweepRunsHandlers` | src/core/cycle_manager.rs:245-268 | but for the next event cycle, a sweep leaves the state that the handlers of the events it ran leave one after the other |
| `SchedulerEffects.RebaseMovesBack` | src/core/cycle_manager.rs:277-304 | when nothing is late: what moves back with the clock, by how much, and what stays |
| `SchedulerEffects.CheckGates` | src/core/cycle_manager.rs:240-274 | when a check runs nothing timed, and past which cycle the clock starts over |
| `TimerEffects.ControlTakesBits` | src/core/timers.rs:81-86 | a control write takes the five bits there are from the value under the mask, and no other |
| `TimerEffects.StartArms` | src/core/timers.rs:81-104 | a write that starts a timer loads its counter and makes it due exactly its remaining ticks of 1, 64, 256 or 1024 cycles later |
| `TimerEffects.PrescalerReschedules` | src/core/timers.rs:88-104 | a write to a started timer makes it due again exactly if it changes the prescaler, after the ticks its counter has left |
| `TimerEffects.QuietWrite` | src/core/timers.rs:81-104 | a write after which the timer is stopped or counts overflows schedules nothing |
| `TimerEffects.ReloadTakesBits` | src/core/timers.rs:67-70 | each bit of the reload value is taken from the value under the mask |
| `TimerEffects.ReloadWriteKeeps` | src/core/timers.rs:67-70 | a write to the reload value changes nothing else |
| `TimerEffects.ReadKeeps` | src/core/timers.rs:51-61 | a counter that does not count cycles reads as it is stored, and reading changes nothing else |
| `TimerEffects.OverflowRestarts` | src/core/timers.rs:107-141 | what an overflow does to a timer, its slot and its interrupt, and exactly when it is passed on |
| `TimerEffects.OverflowsFromTheStart` | src/core/timers.rs:81-121 | from the write that starts it, over any run, a timer that has overflowed k times is due k + 1 periods after the write, the period being that of its register bits |
| `RunLoop.ExecuteJit` | src/lib.rs:261-302 | the loop on the objects, with the calls that the executed code makes in between, computes the run that the theorems are about, with the same events in the same order, and never enters the dispatch loop with nothing active |
| `RunLoop.FinishIteration` | src/lib.rs:270-290 | the main loop's clock: a jump when nothing ran, and otherwise the cycles of the slice |
| `RunLoop.RunScheduler` | src/jit/inst_branch_handler.rs:13-33 | the same at a branch of translated code, which never jumps and may add nothing |
| `RunLoop.RunSchedulerIdleLoop` | src/jit/inst_branch_handler.rs:42-54 | the same while translated code waits: the other processor's cycles, or a jump |
| `RunLoop.SliceCyclesIsShortestRun` | src/lib.rs:286-291 | the wrapping subtraction trick is the shorter run, ignoring a processor that did not run |
| `Clock.ClockMoves` | src/lib.rs:261-290 | how far the clock moves up to each call, in the main loop, at a branch and while waiting, and that nothing else does |
| `Clock.SkipOpensGate` | src/core/cycle_manager.rs:175-181 | a slice in which nothing runs comes to its check with the clock exactly at the next event, and the gate opens |
| `Clock.FirstDueRuns` | src/core/cycle_manager.rs:185-274 | whatever handlers do, the first due event runs in a check |
| `Clock.SleepRunsEarliest` | src/core/cycle_manager.rs:175-274 | a sleeping machine runs its earliest event, exactly in the cycle in which it is due, in at most two calls |
| `RunLoop.RebaseExact` | src/core/cycle_manager.rs:277-304 | a rebase keeps unwrapped time, and keeps every active event's due time and the lower bound exactly if the next event is not in the past |
| `RunLoop.SetCntHSyncExact` | src/core/timers.rs:81-104 | in register bits, exactly which control writes take a channel that agrees with its event out of step with it |
| `RunLoop.ClearingCountUpStrands` | src/core/timers.rs:88-104 | two whole-register writes to a fresh channel that leave it running with no event |
| `RunLoop.LateTimerBreaksRebase` | src/core/cycle_manager.rs:277-304 | from a settled state one slice, excluded by nothing else, brings a rebase onto a timer due in the past, whose due time is then off by 2^32 |
| `RunLoop.PromptSweepCatchesUp` | src/core/cycle_manager.rs:249-268 | when timer periods and rescheduling delays are at least as long as the oldest event is late, a sweep leaves no event in the past |
| `RunLoop.PromptRunOk` | src/core/cycle_manager.rs:102-106 | a run whose slices are no longer than its timer periods and rescheduling delays never rebases onto an event in the past |
| `RunLoop.IterateSettled` | src/lib.rs:261-302 | one slice keeps lower bound, timer deadlines equal to their slots, and the clock bound; unwrapped time does not go back; something is active |
| `RunLoop.RunSettled` | src/lib.rs:261-302 | the same after every run: the 32-bit clock never overflows and time never goes back |
| `RunLoop.BootSettled` | src/core/spu.rs:522-524 | the state after start-up, with the sample event armed, meets the conditions of the run theorems, and is not late |
| `TimerGrid.TimerStaysOnGrid` | src/core/timers.rs:107-121 | after k overflows over any run, with any overshoot and any rebases, the timer is due exactly k periods after it first was, and has sent k interrupts if enabled |
| `TimerGrid.PointIsMultiple` | src/core/timers.rs:114-121 | the grid points are the first due time plus multiples of the period |
| `TimerGrid.ReadCounterCountsTicks` | src/core/timers.rs:51-61 | a read is the reload value plus the ticks begun since the last overflow, in sixteen bits |
| `Dispatch.CheckKeepsLowerBound` | src/core/cycle_manager.rs:185-274 | the next event cycle stays a lower bound on all active events whatever handlers schedule, unless a rebase finds it in the past |
| `Dispatch.SweepRunsInOrder` | src/core/cycle_manager.rs:249-268 | whatever handlers do, no event runs twice in a sweep or out of order, and only events armed at its start |
| `Dispatch.SweepRunsDueOnce` | src/core/cycle_manager.rs:249-268 | with handlers that keep to their own event, exactly the events due at entry run, no other is disarmed, and those that recur are armed again |
| `Dispatch.CheckRunsExactlyTheDue` | src/core/cycle_manager.rs:240-274 | a check runs exactly the active due events in ascending order, a shut gate hides none, and no event is lost that was not due, is rescheduled by its handler or belongs to a running timer |
| `TraceLog.InstLog.WriteRecord` | src/debug_inst_log.rs:187-261 | a keyframe or a delta against this processor's last record, and only this processor's state moves |
| `TraceLog.InstLog.HeadOf` | src/debug_inst_log.rs:212-239 | flags and words of a delta's head, the pc left out when it follows under the new cpsr |
| `TraceLog.InstLog.CollectChanged` | src/debug_inst_log.rs:240-247 | the mask marks and the payload holds exactly the changed registers, ascending |
| `TraceLog.InstLog.WriteText` | src/debug_inst_log.rs:286-296 | a text record is appended and no processor state moves |
| `TraceLog.InstLog.LogMem` | src/debug_inst_log.rs:302-332 | a memory record in the least width that holds the value |
| `TraceLog.InstLog.LogMemSlice` | src/debug_inst_log.rs:338-369 | a counted record of elements; nothing for none |
| `TraceLog.InstLog.LogAll` | src/debug_inst_log.rs:149-369 | any interleaving of calls writes the encoding of their list |
| `TraceLayout.KeyframeLayout` | src/debug_inst_log.rs:187-211 | the places of all words of a whole record, and when one is written |
| `TraceLayout.DeltaLayout` | src/debug_inst_log.rs:212-261 | the flag bits, the mask bits and the words of a delta, in their order |
| `TraceLayout.WriterState` | src/debug_inst_log.rs:187-261 | the state that the next record of either processor is written against |
| `TraceLayout.TextLayout` | src/debug_inst_log.rs:286-296 | the bytes of a text record |
| `TraceLayout.MemLayout` | src/debug_inst_log.rs:302-332 | the bytes of a memory record, with as few for the value as hold it |
| `TraceLayout.SliceLayout` | src/debug_inst_log.rs:338-369 | the bytes of a slice record, element by element |
| `TraceLayout.SliceMeaning` | src/inst_log_format.rs:295-310 | the accesses a slice stands for, and at which addresses |
| `TraceFormat.DecodeFile` | src/inst_log_format.rs:191-325 | the reading loop ends on every file and emits the decoding |
| `TraceRoundTrip.ItemRoundTrip` | src/inst_log_format.rs:191-325 | one step of the decoder over one written record gives back what was logged and again mirrors the writer's state |
| `TraceRoundTrip.LogRoundTrip` | src/debug_inst_log.rs:187-369 | decoding a written log gives exactly the logged sequence, for every interleaving, keyframe position and width |
| `TraceRoundTrip.DecodePrefix` | src/inst_log_format.rs:191-325 | decoding any prefix of any file gives a prefix of its decoding |
| `TraceRoundTrip.TruncatedLogDecodesToPrefix` | src/inst_log_format.rs:152-154 | a log cut at any byte decodes to a prefix of what was logged |
| `TraceDiff.ReadInst` | tools/trace_diff.py:50-148 | the record reader's loop, with its per-processor state |
| `TraceDiff.TurnMatchesExactly` | tools/trace_diff.py:50-148 | for all bytes behind a tag, exactly when the two decoders make the same of them: same record or none, same bytes left, same state |
| `TraceDiff.StepKeepsOwnSlots` | tools/trace_diff.py:66-68 | decoding any record keeps the last records of each processor in their own slots, so a delta always names the processor of the record it changes |
| `TraceDiff.InStepExactly` | tools/trace_diff.py:50-148 | they go through a file record by record in step exactly when none of its records differs |
| `TraceDiff.RaisesExactly` | tools/trace_diff.py:131-134 | an exception comes from a text tag with fewer than four bytes behind it, and from nothing else |
| `TraceDiff.CutLogRaisesExactly` | tools/trace_diff.py:131-134 | reading a written log cut anywhere raises exactly when the cut is behind a text tag and before the end of its length |
| `TraceDiff.DecodersAgree` | tools/trace_diff.py:50-148 | on every file without such records they rebuild the same list of records |
| `TraceDiff.DecodersAgreeOnLogs` | tools/trace_diff.py:50-148 | a written log is read without an exception as exactly the logged records; every prefix of one as the decoder's records, with an exception exactly at a cut length |
| `TraceDiff.DecodersDiffer` | tools/trace_diff.py:135-146 | a file with a memory record of an unused kind before a keyframe, in which the decoder finds one record and the record reader none |
| `SavestateContext.Context.TakeByte` | src/savestate.rs:322-331 | at the end of the buffer the error sticks and zero is returned |
| `SavestateContext.Context.BytesOf` | src/savestate.rs:342-357 | raw bytes are appended or replaced; a short buffer sets the error and leaves the target |
| `SavestateContext.Context.Walk` | src/savestate.rs:382-451 | one walk is the save function when saving and the load function when loading, for every schema |
| `SavestateContext.Context.WalkOpt` | src/savestate.rs:454-472 | an option loads into a fresh default |
| `SavestateContext.Context.WalkVec` | src/savestate.rs:474-525 | a vector loads into defaults, after the length guard |
| `SavestateContext.Context.WalkFields` | macros/src/savestate.rs:58-83 | the derived calls: fields in order, skipped ones untouched |
| `SavestateContext.Context.WalkEnum` | macros/src/savestate.rs:85-156 | a tag byte and the variant's fields; an unknown tag is an error and leaves the target |
| `SavestateContext.HeaderRoundTrip` | src/savestate.rs:174-254 | a file gives back its payload exactly in the mode it was saved in and with a screenshot within the limit |
| `SavestateLayout.StateOfFile` | src/savestate.rs:174-254 | exactly which files are read, by their bytes, and the state they give |
| `SavestateLayout.HeaderBytes` | src/savestate.rs:196-202 | the eleven bytes in front of a file |
| `SavestateLayout.SavesRaw` | src/savestate.rs:382-451 | raw bytes save as they are |
| `SavestateLayout.SavesBool` | src/savestate.rs:382-451 | a bool is a byte, 1 or 0 |
| `SavestateLayout.SavesWord` | src/savestate.rs:382-451 | a machine-sized number is eight bytes, lowest first |
| `SavestateLayout.SavesArray` | src/savestate.rs:382-451 | elements follow each other |
| `SavestateLayout.SavesOpt` | src/savestate.rs:454-472 | an option is a byte and its value |
| `SavestateLayout.SavesVec` | src/savestate.rs:474-525 | a vector is its length in four bytes and its elements |
| `SavestateLayout.SavesField` | macros/src/savestate.rs:58-83 | fields follow each other, and skipped ones are not there |
| `SavestateLayout.SavesEnum` | macros/src/savestate.rs:85-156 | an enum is the number of its variant and the fields |
| `SavestateLayout.LoadsBool` | src/savestate.rs:322-331 | any byte but zero is true; the end of the buffer is false and an error |
| `SavestateLayout.LoadsRaw` | src/savestate.rs:342-357 | raw bytes load as they are, or leave the target where they are not all there |
| `SavestateLayout.LoadsWord` | src/savestate.rs:382-451 | a number keeps the low bytes that the loading machine has room for |
| `SavestateLayout.LoadsOpt` | src/savestate.rs:454-472 | zero is nothing and any other byte something |
| `SavestateLayout.LoadsVec` | src/savestate.rs:474-525 | a length past that of the buffer is an error that leaves the target |
| `SavestateLayout.LoadsArray` | src/savestate.rs:382-451 | elements load in order, each into the one in its place |
| `SavestateLayout.LoadsField` | macros/src/savestate.rs:58-83 | fields load in order; a skipped one keeps the target and takes nothing |
| `SavestateLayout.LoadsEnum` | macros/src/savestate.rs:85-156 | a variant loads into defaults; an unknown number is an error that leaves the target |
| `SavestateLayout.DefaultValues` | src/savestate.rs:382-525 | the defaults of simple types |
| `SavestateLayout.DefaultParts` | macros/src/savestate.rs:85-156 | the defaults that variants, options and vector elements load into |
| `SavestateLaws.LoadProgress` | src/savestate.rs:305-376 | on arbitrary bytes a load stays within the buffer, moves forward and never clears the error |
| `SavestateLaws.LoadSaved` | src/savestate.rs:382-525 | in the middle of any buffer, loading a saved value consumes exactly its bytes |
| `SavestateLaws.RoundTrip` | src/savestate.rs:260-376 | into any target of the type, a save loads exactly if its vectors pass the length guard, restoring every serialized field, keeping skipped struct fields and defaulting skipped enum fields |
| `SavestateLaws.SolidRoundTrip` | src/savestate.rs:486-491 | it always loads, and consumes the whole buffer, when no vector element can be empty |
| `SavestateLaws.EmptyElementsDoNotLoad` | src/savestate.rs:486-491 | a vector of empty elements that saves and does not load |
| `SavestateLaws.NothingSkippedRestoresAll` | macros/src/savestate.rs:58-83 | with nothing skipped the restored value is the saved one |
| `SavestateLaws.NeitherPrefixNorExtensionLoads` | src/savestate.rs:304-308 | no strict prefix and no strict extension of bytes that load successfully does |
| `SavestateLaws.LoadedSavesToSameSize` | src/savestate.rs:382-525 | whatever bytes are loaded, the result has the type, and a load without error re-saves to as many bytes as it read |
| `IoTable.AssembleLutEntries` | macros/src/lib.rs:82-110 | the resuming scan, on every ascending list, with the assertion that can reject it |
| `IoTable.AcceptedExactly` | macros/src/lib.rs:65-102 | of the ascending lists exactly those without overlap pass the assertion of the byte table |
| `IoTable.AcceptedTables` | macros/src/lib.rs:82-110 | for an accepted list the tables of all widths are consecutive cells that list exactly the registers overlapping them |
| `IoTable.FewOverlap` | macros/src/lib.rs:102 | on lists without overlap no cell has more registers than bytes |
| `IoTable.OverlappingMembers` | macros/src/lib.rs:93-101 | a register is listed if and only if it shares a byte with the cell |
| `IoTable.IndexExact` | macros/src/lib.rs:199-202 | every address in range finds its cell if and only if the first register is aligned to the width or there is only one cell |
| `IoTable.AssembleRead` | macros/src/lib.rs:112-152 | the compiled read of a cell, or the shared empty one |
| `IoTable.ReadIsJoin` | macros/src/lib.rs:121-146 | a read of any width is the little-endian join of the byte reads, zero where no register is |
| `IoTable.ReadThroughTable` | macros/src/lib.rs:176-212 | the same through the generated index into the table |
| `IoTable.AssembleWrite` | macros/src/lib.rs:254-306 | the compiled calls of a cell, for which the assertion about one-byte registers holds |
| `IoTable.WriteExact` | macros/src/lib.rs:262-294 | a compiled write changes exactly the addressed bytes of a register if and only if the register does not start inside the cell and reach past it |
| `IoTable.AlignedNeverSpills` | macros/src/lib.rs:262-294 | naturally aligned registers never do |
| `IoTable.WriteChangesExactlyTheCell` | macros/src/lib.rs:262-300 | a write to a cell changes exactly the addressed bytes of all registers |
| `IoTable.WriteThroughTable` | macros/src/lib.rs:356-385 | the same through the generated index into the table |
| `IoTable.WritesStayInMask` | macros/src/lib.rs:266-294 | a compiled write passes no bit outside the mask it passes, for any width, register and value |
| `Cheats.RunCheat` | src/cheats.rs:156-303 | the interpreter's loop ends on every code list and memory, with the memory of the specified run's last state |
| `Cheats.RunLine` | src/cheats.rs:166-302 | one round under either state of the condition flag is the specified step |
| `CheatEffects.WriteLine` | src/cheats.rs:190-192 | which bytes the writes store, where and how many |
| `CheatEffects.StoreOffsetLine` | src/cheats.rs:230 | C6 stores the offset at its operand |
| `CheatEffects.StoreLine` | src/cheats.rs:263-274 | D6 to D8 store the data past the offset, which moves on behind it |
| `CheatEffects.LoadLine` | src/cheats.rs:276-278 | D9 to DB load the data from past the offset |
| `CheatEffects.LoadOffsetLine` | src/cheats.rs:217 | B loads the offset |
| `CheatEffects.RegisterLine` | src/cheats.rs:257-280 | what D3, D4, D5 and DC make of offset and data |
| `CheatEffects.CounterLine` | src/cheats.rs:225-228 | the counter counts, and decides the flag under its mask |
| `CheatEffects.EndLine` | src/cheats.rs:235-255 | what ends a condition, and what a last D2 clears |
| `CheatEffects.OtherLine` | src/cheats.rs:231-281 | other lines do nothing |
| `CheatEffects.SkippedLine` | src/cheats.rs:170-186 | under a set flag lines are passed over, with their parameters, and the counter counts |
| `CheatEffects.WordConditionLine` | src/cheats.rs:194-203 | the flag is set exactly if the operand does not compare as asked with the word at the address, or at the offset |
| `CheatEffects.HalfConditionLine` | src/cheats.rs:205-215 | the same for halves, without the bits that the operand leaves out |
| `CheatEffects.ParametersLine` | src/cheats.rs:284-290 | which bytes of the code are stored where, and how many lines are stepped over |
| `CheatEffects.CopyLine` | src/cheats.rs:293-298 | every byte a memory copy leaves, also where the copy runs into its own result |
| `CheatEffects.ConditionGuardsWrite` | src/cheats.rs:156-303 | a code of a condition and a write leaves the written memory if the comparison holds and the old one if not |
| `CheatEffects.OffsetGuardsWrite` | src/cheats.rs:156-303 | the same past an offset, at which a condition without address looks |
| `Cheats.StepDecreases` | src/cheats.rs:156-303 | every round decreases code behind the loop start, repetitions left, code ahead, in this order, and keeps addresses even and past the loop start |
| `Cheats.AlwaysHalts` | src/cheats.rs:156-303 | some number of rounds brings every run to its last state |
| `Cheats.SetFlagProtects` | src/cheats.rs:170-186 | under a set flag memory is neither read nor written, and offset and data survive but for the flush that ends a loop |
| `Cheats.FlagClears` | src/cheats.rs:235-260 | exactly which lines clear a set flag |
| `Cheats.LoopRunsItsBody` | src/cheats.rs:214-247 | a loop with count n and a straight body runs it n + 1 times and leaves the flag clear |
| `Cht.WriteCheats` | src/cheats.rs:47-57 | the writing loop produces the serialized text |
| `Cht.ReadCheats` | src/cheats.rs:95-151 | the reading loop, with its skipped lines, its early stop and its panics |
| `ChtLayout.SerializedIs` | src/cheats.rs:47-57 | the text of a file: the count, the cheats, a line end |
| `ChtLayout.BlocksGrow` | src/cheats.rs:47-57 | the text of each cheat, character by character |
| `ChtLayout.DecimalDigits` | src/cheats.rs:48-50 | numbers are written in decimal digits |
| `ChtLayout.HexDigits` | src/cheats.rs:52 | words are written in capital hexadecimal digits |
| `ChtLayout.ReadsDigits` | src/cheats.rs:145 | digits add up from the left, hexadecimal ones in either case |
| `ChtLayout.ReadsNumber` | src/cheats.rs:112-118 | a number is digits that fit, with a plus sign or not |
| `ChtLayout.SpacingDoesNotMatter` | src/cheats.rs:99-107 | white space around key, equals sign and value does not matter |
| `ChtLayout.NoEquals` | src/cheats.rs:100-102 | a line without an equals sign is passed over |
| `ChtLayout.EmptySide` | src/cheats.rs:103-107 | so is one with nothing on a side of the first one |
| `ChtLayout.LineEnds` | src/cheats.rs:98 | lines end at a line feed |
| `ChtLayout.CarriageReturnEnds` | src/cheats.rs:98 | a carriage return before it is part of the end |
| `ChtLayout.LastLine` | src/cheats.rs:98 | the last line needs no end |
| `ChtLayout.SettingEffect` | src/cheats.rs:142-148 | what each setting does to which cheat, for any value |
| `ChtLayout.CodeEffect` | src/cheats.rs:145 | a code is its hexadecimal pieces in order, and the other pieces are left out |
| `ChtLayout.FirstSetting` | src/cheats.rs:109-130 | the first setting is the count, or the list is empty |
| `ChtLaws.SaveLoad` | src/cheats.rs:47-57 | a saved list with single-line names loads as itself but for the flags of cheats without code |
| `ChtLaws.RoundTripExactly` | src/cheats.rs:47-151 | exactly which lists survive: no line break in a name, no enabled cheat without code, a count that fits |
| `ChtLaws.LoadedRoundTripExactly` | src/cheats.rs:47-151 | of the lists that files load as, exactly those survive that enable no cheat without code |
| `ChtLaws.CodelessEnableIsLost` | src/cheats.rs:47-57 | files, with any count, that enable a cheat without code: saving and loading the list disables it |
| `ChtLaws.ReloadSettles` | src/cheats.rs:95-151 | whatever file was loaded, a second save and load changes nothing more |
| `ChtLaws.ParsedIsLoadable` | src/cheats.rs:95-151 | what any file loads as has single-line names and a count that fits |
| `ChtLaws.ParsePanicsExactly` | src/cheats.rs:95-148 | for all contents, exactly which files panic: a count is announced, and some later line sets the description or code of a cheat below it to a value whose ends cannot be cut off |
| `ChtLaws.BadQuotesPanic` | src/cheats.rs:144 | what a file with one description reads as, whatever its value |
| `ChtLaws.BadCodePanics` | src/cheats.rs:145 | a code value with such ends panics |
| `Rings.StepBackExact` | src/fixed_fifo.rs:34-39 | stepping back wraps correctly from every front if and only if the size divides the type's number of values |
| `Rings.FixedFifo.PushFront` | src/fixed_fifo.rs:34-39 | the element becomes the first of the queue |
| `Rings.FixedFifo.PushBack` | src/fixed_fifo.rs:41-46 | the element becomes the last |
| `Rings.FixedFifo.PopFrontMultiple` | src/fixed_fifo.rs:57-60 | the first elements go and the rest stay in order |
| `Rings.FixedFifo.PushBackMultiple` | src/fixed_fifo.rs:89-97 | the elements are appended in order |
| `Rings.FixedFifo.At` | src/fixed_fifo.rs:141-144 | indexing the ring indexes the queue |
| `Rings.PushBackView` | src/fixed_fifo.rs:41-46 | one write behind the end extends the queue, wherever the ring starts |
| `Rings.PushFrontView` | src/fixed_fifo.rs:34-39 | one write before the front extends the queue at its head and keeps the end in place |
| `Rings.PopView` | src/fixed_fifo.rs:52-60 | moving the front drops elements and keeps the end in place |
| `Rings.FastFixedFifo.FrontIsContiguous` | src/fast_fixed_fifo.rs:109-111 | through the doubled mapping the whole queue is in one piece from the front pointer |
| `Rings.FastFixedFifo.PushBackMultiple` | src/fast_fixed_fifo.rs:132-151 | writing past the end of the first mapping appends in order |
| `Rings.FastFixedFifo.Save` | src/fast_fixed_fifo.rs:111-116 | saving writes the queue in order |
| `Rings.FastFixedFifo.Load` | src/fast_fixed_fifo.rs:117-127 | loading puts the queue at the start of memory; an excessive length is an error and leaves it empty |
| `Rings.SaveAndLoad` | src/fast_fixed_fifo.rs:111-127 | a saved ring loads into any other ring large enough as the same queue |
| `Ipc.WriteCntIsMasked` | src/core/ipc.rs:265-266 | updating three fields is the masked write of the sixteen-bit register |
| `IpcEffects.SyncWriteEffect` | src/core/ipc.rs:96-104 | bit by bit, what a sync write does to both sides, and exactly when it interrupts the other |
| `IpcEffects.SendEffect` | src/core/ipc.rs:106-147 | a word is queued, dropped at a full queue, or refused with the error bit; the status bits follow |
| `IpcEffects.SendInterruptsReceiver` | src/core/ipc.rs:131-139 | exactly when sending interrupts |
| `IpcEffects.ReceiveEffect` | src/core/ipc.rs:273-298 | a word is taken, or only looked at while disabled, or the error bit is set; and exactly when the sender is interrupted |
| `IpcEffects.ControlWriteEffect` | src/core/ipc.rs:235-267 | what a control write clears, acknowledges and takes under the mask |
| `IpcEffects.ControlWriteInterrupts` | src/core/ipc.rs:253-259 | exactly the interrupts it raises at once |
| `IpcEffects.StatusPlaces` | src/core/ipc.rs:30-43 | the places of the status bits in the register |
| `IpcEffects.ControlPlaces` | src/core/ipc.rs:30-43 | the places of the writable bits, and that the others are clear |
| `Ipc.NextKeepsInvariant` | src/core/ipc.rs:96-298 | every access keeps status bits and sync nibbles exact |
| `Ipc.ReachableIsExact` | src/core/ipc.rs:51-298 | from the start, where the control registers read 0x0101, every run leaves the status bits of both sides saying whether the queue is empty or full, and each input nibble equal to the other side's output |
| `Ipc.WordsAreConserved` | src/core/ipc.rs:106-298 | over any run, words accepted are words received or cleared followed by words queued, in order |
| `Ipc.InterruptsAreEdges` | src/core/ipc.rs:131-260 | a FIFO interrupt is raised exactly when its condition becomes true, for control writes that set no bit outside their mask |
| `Ipc.TableWritesAreWithinMask` | macros/src/lib.rs:266-294 | the control writes that the register tables make set none |
| `Ipc.EdgesOrPhantoms` | src/core/ipc.rs:253-266 | what other control writes would do besides |
| `IpcPorts.FifoSend` | src/core/ipc.rs:106-147 | sending on the ring and both control registers is the specified effect |
| `IpcPorts.FifoRecv` | src/core/ipc.rs:273-298 | receiving pops, or peeks while disabled |
| `IpcPorts.SetFifoCnt` | src/core/ipc.rs:235-267 | clear, interrupts, acknowledgement and masked write |
| `IpcPorts.SetSyncReg` | src/core/ipc.rs:96-104 | the output nibble reaches the other side's input |
| `IpcPorts.Device.Access` | src/core/ipc.rs:222-299 | the device on its objects takes the steps of the state machine |
| `Cartridge.InsertStaysCoherent` | src/cartridge_io.rs:276-281 | a page read into the first unused slot leaves all mapped pages in distinct slots that hold them |
| `Cartridge.CartridgeIo.GetPage` | src/cartridge_io.rs:266-287 | the slot of the page, with the cache coherent afterwards also when it was full or the read failed |
| `Cartridge.CartridgeIo.ReadSlice` | src/cartridge_io.rs:289-304 | it fails exactly if a file read does, and otherwise serves the file's bytes, exactly the slice for a range in the file |
| `Feistel.ReversedUndoes` | src/cartridge_io.rs:398-421 | for any mixing function and any number of rounds, the reversed schedule undoes the schedule |
| `Feistel.BackwardRounds` | src/cartridge_io.rs:398-413 | each decryption round meets its encryption round |
| `Key1.Crypt` | src/cartridge_io.rs:398-413 | the loop in the given order, in place |
| `Key1.MixIs` | src/cartridge_io.rs:402-407 | the mixing of a round, from the four tables |
| `Key1.AddIsWrapping` | src/cartridge_io.rs:405-407 | additions are those of 32-bit numbers |
| `Key1.BytesOfValue` | src/cartridge_io.rs:402-407 | the bytes of a number are from the lowest up |
| `Key1.EncryptionRound` | src/cartridge_io.rs:401-410 | what a round makes of the halves |
| `Key1.EncryptionIs` | src/cartridge_io.rs:398-417 | sixteen rounds and the two end words |
| `Key1.DecryptUndoesEncrypt` | src/cartridge_io.rs:415-421 | for every key buffer and block |
| `Key1.EncryptUndoesDecrypt` | src/cartridge_io.rs:415-421 | for every key buffer and block |
| `Crc.TableIsBitwise` | src/utils.rs:300-308 | eight table rounds are eight bit rounds for every 32-bit value |
| `Crc.RunningValueFits` | src/utils.rs:299-313 | from a 16-bit seed the running value has 16 bits after every byte |
| `Crc.CheckValue` | src/utils.rs:299-313 | the published check value of the polynomial, for the digits from 1 to 9 |
| `Crc.Crc16` | src/utils.rs:299-313 | the checksum of a range is the reflected CRC-16 with polynomial 0xA001, bit by bit |
| `DivSqrt.DivisionLaw` | src/core/div_sqrt.rs:125-169 | numerator = quotient * denominator + remainder, cut toward zero, in every mode; off by 2^64 for one pair only |
| `DivSqrt.TruncationIsUnique` | src/core/div_sqrt.rs:125-169 | no other quotient and remainder do |
| `DivSqrt.ResultFits` | src/core/div_sqrt.rs:125-169 | every result fits the register it is kept in |
| `DivSqrt.IsqrtIsRoot` | src/core/div_sqrt.rs:50-60 | the root is the largest number whose square does not exceed the parameter |
| `DivSqrt.RootIsUnique` | src/core/div_sqrt.rs:50-60 | no other number is |
| `DivSqrt.DivSqrt.Evaluate` | src/core/div_sqrt.rs:125-169 | the three modes with their special cases |
| `DivSqrt.DivideIsAsked` | src/core/div_sqrt.rs:125-169 | by the two mode bits: which operands are divided, and what a zero denominator and the one overflow give |
| `DivSqrt.AskedIsUnique` | src/core/div_sqrt.rs:125-169 | the registers ask for one result only |
| `DivSqrt.MergeTakesBits` | src/core/div_sqrt.rs:178-196 | each bit of a written half is taken from the value under the mask |
| `DivSqrt.DivSqrt.GetDivResultL` | src/core/div_sqrt.rs:94-97 | the low half of the quotient that the registers, by their mode bits, ask for now, whatever was computed before |
| `DivSqrt.DivSqrt.GetDivRemResultH` | src/core/div_sqrt.rs:109-112 | likewise for the remainder's high half |
| `DivSqrt.DivSqrt.GetSqrtResult` | src/core/div_sqrt.rs:45-60 | the largest number whose square does not exceed the low half of the parameter, or all of it, as bit 0 of the control says |
| `DivSqrt.DivSqrt.SetDivDenomL` | src/core/div_sqrt.rs:188-191 | a masked write to one half, after which results are still those of the registers |
| `DivSqrt.DivSqrt.GetDivCnt` | src/core/memory/io_arm9_lut.rs:62 | the zero flag read is right about the denominator exactly if it was zero, or not, alike when a result was last read, or according to the context set since |
| `DivSqrt.ZeroFlagLags` | src/core/memory/io_arm9_lut.rs:62 | on a fresh unit the zero flag read is wrong before, and right after, a result is read |

## Left out

- Event handlers other than the timers' are any list of scheduler actions; what else they do (graphics, sound,
  DMA, interrupts delivered to a processor) is not modelled. Interrupts sent by timers are counted.
- CycleManager.Scheduler.OnOverflowEvent: does not move the graphics and microphone cycle fields, because nothing
  modelled here reads them.
- The counting-up chain of timers as a hardware claim: it is modelled as programmed, where a channel ticks itself.
- A rebase with an active event past due: `RunOk` excludes it by the exact condition of `RunLoop.RebaseExact`, which
  `RunLoop.PromptRunOk` gives for runs with short slices and handlers that do not write timer registers.
- Where in translated code the scheduler is called, and the cycles counted by then: both are any. An interrupt taken
  after the call is part of what guest code does next.
- TimerGrid.TimerStaysOnGrid: for a timer whose own registers are not written and whose lower neighbour does not
  count up, since either moves the grid.
- Record budget, lazy opening, text switches and closing of the trace writer; the text the decoder prints, and its
  filters. The record's padding bytes are arbitrary.
- TraceDiff.ReadInst: with no processor filter set; a filter only skips records after they have updated the state.
- Hand-written field functions, `isize` and user-written `Default` implementations in savestates: defaults are zero,
  empty or the declared variant. DEFLATE and its chunked loop: the payload is taken as it stands in the file.
- SavestateContext.Context.Walk: requires vectors with at most 2^32 - 1 elements; longer lengths do not fit the format.
- Token handling of the register macros: entries are taken as the list of offsets and sizes they check to ascend.
- Sending to a full FIFO sets no error bit at the low level, as it does at the high level; the model follows the
  low-level code.
- Cheat codes run against one memory state with sized reads and writes; which regions the ARM7 sees is not modelled.
- Memory limits when a cheat list or savestate announces a huge count.
- The high-level IPC, messages diverted to the high-level sound, and clearing a filled FIFO whose empty interrupt is
  enabled, which is not implemented and panics (`Ipc.Panics`).
- Rings.FastFixedFifo.PushBackMultiple: does not model the vector copy, which writes whole 64-byte chunks past the
  values.
- Rings whose size is not a power of two (beyond `Rings.StepBackExact`).
- File reads that succeed with fewer bytes than the file has there; key schedule set-up of KEY1, whose call is
  commented out.
- Divide mode 3, which is undefined behaviour; `div` and the result getters require another mode.
- Threads, files, settings, rendering, the translator and the user interface.
