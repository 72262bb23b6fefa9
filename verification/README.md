# Verified models of the emulator's debugging layer

Dafny models of the parts of the Commander X16 emulator that sit between the running
machine and the person debugging it, with proofs of what those parts promise. Where the
program changes fields or buffers step by step, so does the model, in classes and methods
proved against specification functions; the promises are then lemmas about those functions.
`dafny verify dfyconfig.toml` checks everything.

## What is modelled

- **The anchored disassembler** (`CodeMapEvidence`, `CodeMapRows`, `CodeMapTiling`,
  `CodeMapWindow`, `CodeMapTheorems`, `CodeMapChoices`, `CodeMapLive`). The decoder, memory, the recording and the status
  estimate are one arbitrary value (`Evidence`) of which only "an instruction has at most four
  bytes" is known, so everything proved holds for any instruction set. Row sizes, the ranked
  walk backwards, the four-slot tile buffer, the back region filled from its end and slid down,
  and the forward run are methods over arrays; the buffer's length is the capacity. `CodeMapLive`
  puts the emulator's own recording in the place of the arbitrary evidence.
- **The context cache behind it** (`CodeMapCache`, `CodeMapHistory`): the sixteen slots with
  their least-recently-used stamps and the shortcut to the last context, refined to a list kept
  most recent first, and that list compared with the whole history of records since a reset.
- **Breakpoints** (`PcBitmap`, `Breakpoints`, `HitCounts`, `DebugCore`, `BreakpointTheorems`,
  `BreakpointMeaning`):
  the owner-counted table, the condition and hit records beside it, the address bitmap rebuilt
  or extended with every change, and the arrival at an instruction.
- **Run control** (`DebuggerState`, `DebuggerMachine`, `FastPath`, `HitHistory`, `DebuggerStops`): the full status
  check, the fast poll that usually skips it, the control calls, and the comparison of whole runs.
  A `Check` carries all a status check can observe: the processor, the Break key, and the commands
  the socket and the paused interface deliver if they get a turn.
- **Debug information** (`DbgLookup`, `LookupOrder`, `BankSeeding`, `BankNames`, `Compaction`, `ModuleTables`, `ModuleLemmas`,
  `ModuleRegistry`, `ModuleCases`, `ModuleEffects`, `ModuleLoader`): the address-to-line lookup, the inference of RAM banks from
  named constants, and the registry of modules as the guest loads programs over one another. A load
  carries the program's path, from which the `.dbg` path follows, and whatever the file held then.
- **The debug adapter's wire** (`DapFraming`, `DapReceiver`, `DapTheorems`, `DapCuts`, `DapHeaders`, `Base64`): Content-Length
  framing received in arbitrary pieces into one compacted buffer, and the memory requests' base64.
- **Audio** (`AudioLevels`, `AudioRing`, `AudioMixer`, `AudioEngine`, `AudioHeard`, `AudioQueue`, `AudioOutput`): the
  sample rings and their wrapping positions, the limiter, and the queue to the sound device.
- **Small machines**: the I2C slave (`I2cBus`, `I2cProtocol`), the mouse's ring (`MouseRing`), host-time
  accounting (`HostProf`, `HostProfFrames`) and scripted input (`InputScript`).
- `Machine` and `Numbers` hold what several of these share.

## The fast poll and the full check

The Break key is looked at only by a full check, at the latest every thousandth poll, as
`src/debugger.h:134-137` says. That is the whole difference between polling fast and checking in
full: two runs over the same rounds end in the same run mode, step target, guard, breakpoints,
counts, announcements and answers exactly when the key is never down at a skipped poll
(`FastPath.FastRunIsFullRun`), and the key is seen within a thousand polls
(`FastPath.FullCheckIsNotStarved`).

## Where the code falls short of what it says

Each of these is a lemma with the exact condition, and where one input shows it, that input.

- The registry is meant to keep one copy of every module. A load leaves a second copy of a record
  exactly when an earlier reading of the same `.dbg` left a record of that number which the unload
  does not reach: one outside the range now read, or any at all before the first success, when
  unloading does nothing (`ModuleRegistry.StepOneCopy`, over runs `ModuleRegistry.OneCopyExactly`).
  It happens beside a half-written `.dbg` (`ModuleCases.TwiceUnfinished`), for two programs that
  share one (`ModuleCases.ProgramAndItsTwin`), for a program rebuilt after another displaced it
  (`ModuleCases.RebuiltLeavesStale`), and for an empty segment below the range
  (`ModuleCases.EmptySegmentDoubles`); never for files that do not change and whose segments fit,
  once a load has succeeded (`ModuleCases.UnchangedFilesSafe`). A `.dbg` is wholly of one reading
  under the stricter condition of `ModuleRegistry.OneReadingExactly`.
- A framed message of more than 65534 bytes fills the receive buffer, and the client is dropped; a
  stream is delivered in full exactly when all its messages fit (`DapTheorems.DeliveredExactlyWhenFit`).
- A Content-Length line with no value takes its number from the body, so what is dispatched depends on
  where a read ended; every other header settles the length by itself (`DapCuts.LengthIsTheHeaders`,
  `DapCuts.BlankLengthIsCutDependent`).
- Adding a breakpoint for a number that is not an owner creates an entry nobody owns
  (`BreakpointTheorems.OwnedKept`).
- A read transaction on the I2C bus that asks for no bytes still takes one from the device
  (`I2cProtocol.ProbeCostsAByte`).
- A sound queue that is exactly full is played as silence (`AudioQueue.Queue.Callback`), and it can
  be filled exactly (`AudioOutput.FullIsSilent`).
- The sections of a frame add up to its wall time, short by fewer microseconds than there are
  sections, exactly when they add up to less than 2^32 microseconds (`HostProf.FrameAddsUp`,
  `HostProf.OverlongFrames`).

## Conventions

A breakpoint's owner bit mask is the set of owners it names. A context's cover, status and opcode
arrays are one map from recorded addresses. Characters of the wire are bytes; NUL is `'\0'`.
Growable C arrays are sequences; fixed buffers are arrays. Allocation succeeds, counters do not
overflow unless a module says so, and times, memory, files, the socket and the keyboard are
parameters. A segment's record is identified by its file and its place in it. The decoder's
accumulator in the base64 loop is taken to wrap at 32 bits.

## Model

| member | source | states |
|---|---|---|
| CodeMapRows.FirstInteriorIsFirst | src/code_map.c:409-499 | The first believed start inside a row is the least one, or there is none below the row's end. |
| CodeMapRows.RowSize | src/code_map.c:409-499 | A row covers one to four bytes, never more than its room. |
| CodeMapRows.Fill | src/code_map.c:409-499 | Filling one row, byte loop and all, gives the row the specification describes. |
| CodeMapRows.Emit | src/code_map.c:506-517 | Emitting a row is filling it at the recorded status and carrying the status estimate past it. |
| CodeMapRows.EmittedRowKept | src/code_map.c:409-517 | No emitted row swallows a believed start unless it begins on one; size, kind, effective address, bytes and flags of every row agree with each other. |
| CodeMapRows.RowIsDecode | src/code_map.c:260-517 | A row has the raw decoder's length, one byte where that is none, exactly when it fits the room and the row starts believed or has no believed start inside; otherwise it ends at the room or at the first believed start. |
| CodeMapTiling.GroupCloses | src/code_map.c:606-700 | One instruction's bytes are covered exactly, in no more rows than bytes, so the four-slot tile always closes. |
| CodeMapTiling.BeforeSpans | src/code_map.c:606-700 | The tiling in front of the centre ends exactly on it and gives every instruction walked back one to four rows. |
| CodeMapTiling.ForwardTiles | src/code_map.c:737-763 | A forward run tiles from its start. |
| CodeMapTiling.ForwardPrefix | src/code_map.c:737-763 | A shorter forward run is the beginning of a longer one. |
| CodeMapTiling.PlacedIsSuffix | src/code_map.c:606-700 | Groups placed nearest first into a bounded region leave exactly the end of the unbounded tiling there. |
| CodeMapWindow.BestBackoffIsBest | src/code_map.c:536-595 | The chosen step back is of the best rank of evidence there is, and the nearest of that rank. |
| CodeMapWindow.NearestOfEachKind | src/code_map.c:536-595 | The loop over candidate distances, keeping the nearest of each kind, finds that choice. |
| CodeMapWindow.PrevAnchor | src/code_map.c:536-595 | The previous instruction boundary is the specified pick, and it ends where the walk stood. |
| CodeMapWindow.WalkBack | src/code_map.c:606-660 | Phase A records the whole walk, nearest first. |
| CodeMapWindow.TileGroup | src/code_map.c:606-700 | One resolved instruction is tiled into the scratch buffer, which always closes. |
| CodeMapWindow.TileBack | src/code_map.c:606-700 | Phase B fills the back region from its end with exactly what fits of the groups. |
| CodeMapWindow.EmitForward | src/code_map.c:700-763 | Phase C writes the forward run into the free slots and touches none in front of them. |
| CodeMapWindow.DisasmWindow | src/code_map.c:606-734 | The caller gets the specified window, at most as many rows as the buffer has, and the index of the centre row; nothing for a missing or empty buffer. |
| CodeMapWindow.DisasmForward | src/code_map.c:737-763 | A plain run gives the specified rows, clamped to the buffer, and the address just past them. |
| CodeMapTheorems.WindowTiles | src/code_map.c:606-734 | For every evidence, line counts and capacity the rows tile, fit, and the row at the centre index starts on the centre. |
| CodeMapTheorems.WindowRowsKept | src/code_map.c:409-499 | Every row of every window is honest and swallows no believed start. |
| CodeMapTheorems.WindowIsNearestPart | src/code_map.c:668-763 | Shrinking the buffer only drops far context: the rows before the centre are the last ones of the unbounded tiling that fit, the rest the start of a forward run. |
| CodeMapTheorems.WalkFollowsExecution | src/code_map.c:536-595 | The walk steps back to the instruction that ran into an address exactly when no nearer believed start also runs into it. |
| CodeMapTheorems.ExecutedCodeShownExactly | src/code_map.c:536-734 | Where execution recorded the code before the centre, the tiling shows exactly the instructions that ran, one whole row each. |
| CodeMapTheorems.ForwardFollowsExecution | src/code_map.c:737-763 | A forward run over recorded code shows it instruction by instruction whatever the status estimate. |
| CodeMapChoices.WalkPicksBest | src/code_map.c:536-595 | The walk steps back to the nearest recorded instruction that ends where it stands, else to the nearest the compiler starts a span with, else to the nearest that ends there at all, else one byte. |
| CodeMapChoices.TilingCounts | src/code_map.c:606-700 | Up to 255 instructions come before the centre, of one to four rows each. |
| CodeMapChoices.WindowCounts | src/code_map.c:606-734 | A window has the rows asked for from the centre on, at least one, and those before it, as far as they fit. |
| CodeMapChoices.RunCarries | src/code_map.c:506-517 | A run starts at the recorded status or the processor's, and each row is decoded at its recorded status or the one carried to it. |
| CodeMapChoices.ForwardDecodes | src/code_map.c:737-763 | Each row of a run is the whole instruction the raw decoder sees, unless a believed start cuts it; the next row starts behind it. |
| CodeMapChoices.ExchangeFollows | src/code_map.c:314-385 | Exchanging carry and emulation is followed, the widths forced in emulation. |
| CodeMapChoices.CarryFollows | src/code_map.c:314-385 | Clearing and setting the carry is followed. |
| CodeMapChoices.WidthFollows | src/code_map.c:314-385 | Clearing and setting status bits follows the operand, bit for bit. |
| CodeMapChoices.OthersFollow | src/code_map.c:314-385 | Nothing else changes the estimate, and on a 65C02 nothing does. |
| CodeMapChoices.KeysTellMemory | src/code_map.c:97-109 | Two bank states share the records of an address exactly when they have the same memory behind it. |
| CodeMapChoices.SameKeySameAnswers | src/code_map.c:97-270 | Memory, decode and belief at an address are the same for bank states that share its records. |
| CodeMapChoices.AnswersAreLive | src/code_map.c:185-270 | Memory and decoder are asked in the program bank, through the register of the address's window. |
| CodeMapCache.Cache.Find | src/code_map.c:111-120 | The slot search finds the context of a key exactly when the list holds it. |
| CodeMapCache.Cache.ChooseSlot | src/code_map.c:123-157 | A free slot if there is one, otherwise the slot of the least recently used context. |
| CodeMapCache.Cache.GetOrCreate | src/code_map.c:123-157 | Looking a key up or making its context is the list operation, evicting only the oldest of a full cache. |
| CodeMapCache.Cache.Select | src/code_map.c:196-216 | With the shortcut or without it, the key's context is brought to the front. |
| CodeMapCache.Cache.Record | src/code_map.c:196-216 | Recording an address refines recording it in the list. |
| CodeMapCache.Cache.Reset | src/code_map.c:242-253 | A reset empties the cache and forgets the shortcut. |
| CodeMapCache.Cache.Lookup | src/code_map.c:220-240 | What the disassembler reads is the coverage of the list. |
| CodeMapCache.CoverageAt | src/code_map.c:185-190 | The coverage of a key is that of its one entry. |
| CodeMapHistory.CacheHoldsLatest | src/code_map.c:111-157 | After any records since a reset the cache holds exactly the sixteen most recently recorded distinct keys, ordered by their last record, the latest first. |
| CodeMapHistory.CoverageIsSinceEntry | src/code_map.c:196-216 | An address is covered exactly when its key recorded it since the key last entered the cache, with the latest status and opcode. |
| CodeMapLive.BelievedIsRecorded | src/code_map.c:185-240 | The disassembler believes an address exactly when an instruction ran there in the bank behind it now, its context was not evicted since, and the opcode that ran is still in memory; then with the status it last ran under. |
| CodeMapLive.RecordedStartsShown | src/code_map.c:409-734 | No row of a window swallows an instruction that ran and is still there, unless the row itself starts on one. |
| PcBitmap.Bitmap.Set | src/debug_core.c:30-35 | Setting one bit sets that address and no other. |
| PcBitmap.Bitmap.Clear | src/debug_core.c:40-45 | Clearing leaves no address set. |
| DebugCore.BreakpointTable.Rebuild | src/debug_core.c:37-45 | The rebuilt bitmap has a bit for exactly the addresses with an entry. |
| DebugCore.BreakpointTable.FindEntry | src/debug_core.c:176-186 | The search finds the one entry of a key, exactly when the table claims it. |
| DebugCore.BreakpointTable.Erase | src/debug_core.c:202-212 | Erasing removes one key from the table and keeps keys unique and the bitmap exact. |
| DebugCore.BreakpointTable.AddFor | src/debug_core.c:214-247 | Adding joins the owner to the claim of the normalised key and arms it, and says whether it was there. |
| DebugCore.BreakpointTable.RemoveFor | src/debug_core.c:249-262 | Removing takes one owner's claim away, the entry going with its last owner, and touches no condition record. |
| DebugCore.BreakpointTable.ClearOwner | src/debug_core.c:264-282 | Clearing an owner, backwards through the shifting table, releases it everywhere and returns how many entries vanished. |
| DebugCore.BreakpointTable.Delete | src/debug_core.c:284-292 | Deleting drops the key whoever owned it. |
| DebugCore.BreakpointTable.HasOwner | src/debug_core.c:294-299 | Whether an owner holds a claim. |
| DebugCore.BreakpointTable.ToggleFor | src/debug_core.c:301-308 | Toggling deletes what is there or claims what is not. |
| DebugCore.BreakpointTable.SetEnabled | src/debug_core.c:310-318 | Enabling changes the flag of a key that is there and nothing else. |
| DebugCore.BreakpointTable.ClearAll | src/debug_core.c:327-338 | Clearing everything also forgets every condition and count. |
| DebugCore.BreakpointTable.IsSet | src/debug_core.c:340-348 | The read-only question holds exactly when some enabled entry matches. |
| DebugCore.BreakpointTable.OnArrival | src/debug_core.c:544-570 | The arrival loop makes the records and the decision of the specified scan. |
| DebugCore.ClearedClaims | src/debug_core.c:264-282 | Clearing an owner entry by entry and key by key is the same. |
| Breakpoints.ClaimsErase | src/debug_core.c:202-212 | Erasing an entry of a table with unique keys removes exactly that key from the map. |
| Breakpoints.ClaimsCount | src/debug_core.c:176-212 | A table with unique keys has as many entries as its map has keys. |
| HitCounts.CondTable.Locate | src/debug_core.c:434-443 | The record search finds a used slot of the key exactly when there is one. |
| HitCounts.CondTable.Ensure | src/debug_core.c:445-477 | A record is found, or a blank one is put into an unused or a new slot, no other record changing. |
| HitCounts.CondTable.SetCondition | src/debug_core.c:572-584 | Setting a condition keeps the ignore budget and the count. |
| HitCounts.CondTable.ClearCondition | src/debug_core.c:586-592 | Clearing a condition keeps the ignore budget and the count. |
| HitCounts.CondTable.Forget | src/debug_core.c:594-602 | Forgetting discards one record. |
| HitCounts.CondTable.ForgetAll | src/debug_core.c:425-432 | Forgetting everything discards all records. |
| HitCounts.CondTable.SetIgnore | src/debug_core.c:647-653 | The ignore budget changes and nothing else of the record. |
| HitCounts.CondTable.Hits | src/debug_core.c:655-660 | The count of a key, zero without a record. |
| HitCounts.CondTable.ResetHits | src/debug_core.c:662-668 | The count goes back to zero and nothing else changes. |
| HitCounts.NarrowNeverEqualsWide | src/debug_core.c:496-542 | A condition asking an eight-bit register for a wider value never holds: only the register is masked. |
| BreakpointTheorems.OtherOwnersKept | src/debug_core.c:214-282 | Adding, removing and clearing leave every other owner's claims alone. |
| BreakpointTheorems.ReleaseLetsGo | src/debug_core.c:249-282 | A release takes the owner's claim and never changes an enabled flag. |
| BreakpointTheorems.ClaimThenRelease | src/debug_core.c:214-262 | Adding a new breakpoint and removing it again restores the table. |
| BreakpointTheorems.ClearIsReleaseEach | src/debug_core.c:264-282 | Clearing an owner equals removing each of its keys in any order. |
| BreakpointTheorems.OwnedKept | src/debug_core.c:164-338 | Every operation keeps every entry owned exactly when it does not create one for a number that is no owner. |
| BreakpointTheorems.ArriveStops | src/debug_core.c:544-570 | An arrival stops exactly when some matching, satisfied entry is past its ignore budget. |
| BreakpointTheorems.ArriveCounts | src/debug_core.c:544-570 | Every satisfied match up to the first that fires is counted once, none after it, and nothing else of a record changes. |
| BreakpointTheorems.IgnoreBudget | src/debug_core.c:544-570 | A lone breakpoint with ignore count n stops from its (n+1)th satisfied arrival on. |
| BreakpointMeaning.AddedKeyByKey | src/debug_core.c:214-247 | After an add the key is there, enabled, owned by its owners and the new one; every other key is as it was. |
| BreakpointMeaning.RemovedKeyByKey | src/debug_core.c:249-262 | A remove takes a real owner off the key, which goes when that was its last, and changes nothing else. |
| BreakpointMeaning.ClearedKeyByKey | src/debug_core.c:264-282 | Clearing an owner is that for every key. |
| BreakpointMeaning.SameKeyExactly | src/debug_core.c:176-247 | Two requests mean one breakpoint exactly when address and bank agree and, in a banked window, the window bank. |
| BreakpointMeaning.MatchesExactly | src/debug_core.c:103-108 | An entry matches when enabled, at its address and bank, with its window bank or any in the register of the window. |
| BreakpointMeaning.AddedStops | src/debug_core.c:214-570 | An unconditional breakpoint past its ignore budget, once added, stops every matching arrival, whatever else is in the table. |
| BreakpointMeaning.DisabledNeverStops | src/debug_core.c:544-570 | Where nothing enabled is, nothing stops and nothing is counted. |
| BreakpointMeaning.ConditionHolds | src/debug_core.c:479-542 | A condition compares what its operand shows, at the width the processor has, with the value, by its operator. |
| DebuggerMachine.RunControl.Continue | src/debugger.c:838-857 | Continuing drops the step target, arms the resume guard and runs. |
| DebuggerMachine.RunControl.StepInto | src/debugger.c:859-870 | A single step arms the guard and shows where it starts from. |
| DebuggerMachine.RunControl.StepOver | src/debugger.c:872-911 | Stepping over targets the return of a call, by processor, and otherwise steps once. |
| DebuggerMachine.RunControl.RunTo | src/debugger.c:982-996 | Running to an address sets the target with the bank derived from it. |
| DebuggerMachine.RunControl.BreakToDebugger | src/debugger.c:625-644 | Breaking in halts, and announces only a transition. |
| DebuggerMachine.RunControl.BreakOnWatchpoint | src/debugger.c:658-663 | A watched store halts and leaves the report for the next check. |
| DebuggerMachine.RunControl.CancelStepFor | src/debugger.c:820-836 | Only the owner of a pending step retracts it. |
| DebuggerMachine.RunControl.CheckArrival | src/debugger.c:353-410 | The arrival test counts and stops as specified, retiring the target. |
| DebuggerMachine.RunControl.DecideStop | src/debugger.c:288-431 | All the stop decisions of the full status check, in order, over the real table and records. |
| DebuggerMachine.RunControl.NothingToDoAt | src/debugger.h:150-159 | The fast test, with one bit of the map, holds exactly when there is nothing to decide. |
| DebuggerMachine.RunControl.PollStatus | src/debugger.h:161-167 | The poll skips or decides as specified and keeps the tick. |
| FastPath.NothingHere | src/debug_core.c:544-570 | With no entry at an address an arrival counts nothing and stops nothing. |
| FastPath.FullAgrees | src/debugger.c:288-585 | Two states that agree still agree after the full check, with the same answer. |
| FastPath.FastRunIsFullRun | src/debugger.h:139-175 | Over any run, polling fast gives the run mode, step target, guard, breakpoints, counts, announcements and answers of checking in full, exactly when the Break key is never down at a skipped poll. |
| FastPath.SkipMissesKey | src/debugger.h:139-175 | A Break key down at a skipped poll is announced by the full check and missed by the poll. |
| FastPath.FullCheckIsNotStarved | src/debugger.h:139-167 | No thousand polls in a row are all skipped, whatever happens between them. |
| HitHistory.DecideCounts | src/debugger.c:353-410 | One check adds one to a count exactly when the arrival is genuine by the record of resumes and looks, armed, matching and satisfied with nothing earlier firing, and halts when the budget is spent. |
| HitHistory.GuardIsTheRecord | src/debugger.c:353-380 | Over any run the resume guard is spent exactly when some look since the last resume found the processor at another instruction, bank or, not waiting, another clock. |
| HitHistory.HitsAreGenuineArrivals | src/debug_core.c:425-570 | Over any run a hit count is the number of satisfied arrivals, genuine by the record of resumes and looks, since it was last discarded; only forget, forget-all and reset-hits discard it. |
| HitHistory.HitsSincePowerOn | src/debug_core.c:425-570 | The same from power on, with nothing resumed and no count yet. |
| HitHistory.GenuineExactly | src/debugger.c:353-380 | Just resumed, an arrival is genuine exactly when the processor has moved on and is not waiting, and until then the guard stays. |
| HitHistory.StandingStillCountsNothing | src/debugger.c:353-380 | However often a parked machine is looked at, no hit is counted and no ignore budget spent. |
| DebuggerStops.CheckStops | src/debugger.c:288-431 | A check halts exactly for an interrupt to be broken on, a step that has moved, a genuine arrival at a firing breakpoint or the target, or the Break key; announces each in order; and retires the target when it was reached or an interrupt came. |
| DebuggerStops.CheckShows | src/debugger.c:288-431 | A machine a check has halted, or a watchpoint, is shown where it is. |
| DebuggerStops.DisplayStays | src/debugger.c:288-431 | Otherwise the display stays, its bank filled in where it is missing. |
| DebuggerStops.RunningGoesOn | src/debugger.c:560-585 | A running machine runs on, the socket being served at every thousandth check. |
| DebuggerStops.SteppingGoesOn | src/debugger.c:456-470 | A machine in the middle of a step is told to run on, whichever interface is up. |
| DebuggerStops.HaltedWaits | src/debugger.c:456-558 | A halted machine runs no instruction until somebody starts it. |
| DebuggerStops.GiveCommand | src/debugger.c:172-194 | A command that resumes puts the processor on record and arms the guard, with nothing else pending. |
| DebuggerStops.ContinueHalts | src/debugger.c:838-857 | Continued, the machine halts exactly for the key or for a breakpoint that fires once it has moved. |
| DebuggerStops.StepHalts | src/debugger.c:859-870 | A step halts as soon as the processor is in another place, its window bank included, and is announced. |
| DebuggerStops.StepGoesOn | src/debugger.c:859-870 | Until then it goes on, unannounced. |
| DebuggerStops.RunToHalts | src/debugger.c:982-996 | A run to an address halts there, or for a breakpoint or the key on the way, and the target goes when it is reached. |
| DebuggerStops.StepOverHalts | src/debugger.c:872-911 | Stepping over a call halts at its return, three or four bytes on, by processor; over anything else it is a step. |
| DebuggerStops.StepOutHalts | src/debugger.c:913-976 | Stepping out halts at the return address of the frame; with no frame it is a step. |
| DebuggerStops.CancelRetracts | src/debugger.c:815-836 | Only the owner of a pending run takes it back, and the machine runs on. |
| DebuggerStops.PauseHalts | src/debugger.c:625-644 | A pause halts where the machine is and is announced only if it was not halted. |
| DebuggerStops.WatchHalts | src/debugger.c:316-335 | A watched store halts, and the next check announces it and shows where the processor ended up. |
| DebuggerStops.InterruptHalts | src/debugger.c:293-318 | An interrupt to be broken on, or followed while a step is pending, halts at the next check. |
| DebuggerStops.InterruptPasses | src/debugger.c:293-318 | Any other is as if it had not been entered. |
| DebuggerStops.InterruptEntering | src/debugger.c:195-198 | The switches and the entry of an interrupt are three flags of their own. |
| DebuggerStops.OthersDo | src/debugger.h:60-135 | Setting the run state directly, and replacing the table, change nothing else. |
| DebuggerStops.RecordsFollow | src/debug_core.c:572-668 | Each command about conditions and counts does to the record of its key what it says, and nothing to others. |
| DebuggerStops.QuietRunSkips | src/debugger.h:139-167 | Away from any entry, with nothing pending, every poll but the thousandth is skipped. |
| DbgLookup.FindLast | src/dbg_info.c:1605-1624 | The binary search finds the last span starting at or below the address. |
| DbgLookup.WalkBack | src/dbg_info.c:1626-1640 | The walk finds the nearest eligible covering span, exactly when it passes one. |
| DbgLookup.SelectAtStart | src/dbg_info.c:1655-1680 | Without high-level lines the choice is best by bank confidence, then earliest end, among all eligible spans with the nearest start. |
| DbgLookup.SelectNear | src/dbg_info.c:1681-1722 | With high-level lines the choice is best by bank confidence, line kind, then length, among all eligible spans within the horizon. |
| DbgLookup.Lookup | src/dbg_info.c:1605-1742 | The whole lookup: an answer from this bank if there is one, otherwise a guess, otherwise none; a missing file gives none. |
| DbgLookup.ResolvedIsOurs | src/dbg_info.c:1573-1742 | A resolved answer for a banked address is never from a segment of another bank. |
| DbgLookup.HorizonReaches | src/dbg_info.c:1626-1640 | The walk reaches a span exactly when no later one starts beyond the horizon, so none within it is lost. |
| DbgLookup.ChoiceIsDetermined | src/dbg_info.c:1681-1722 | Any two choices agree on bank confidence, line kind and length. |
| LookupOrder.CandidatesAre | src/dbg_info.c:1573-1640 | A span is a candidate when it covers the address and is not known to be of another bank. |
| LookupOrder.PreferenceIs | src/dbg_info.c:1655-1722 | Known to be ours first, then a high-level line before a macro's before any other, then the shorter span; without high-level lines, the one that ends first. |
| LookupOrder.ReportIs | src/dbg_info.c:1723-1742 | A choice whose file is there is resolved when it is ours and a guess otherwise. |
| LookupOrder.HorizonIs | src/dbg_info.c:1626-1640 | Walk and choice look 256 bytes back. |
| BankSeeding.Gather | src/dbg_info.c:1988-2028 | One pass over the constants finds, for each rank, its first bank and whether another disagrees. |
| BankSeeding.Infer | src/dbg_info.c:1976-2043 | The inferred bank is the verdict on the set of constants. |
| BankSeeding.SegmentTable.SeedBanks | src/dbg_info.c:1942-2047 | Seeding re-derives every inferred bank and leaves observed ones alone. |
| BankSeeding.SegmentTable.NoteBankLoad | src/dbg_info.c:2049-2071 | A load sets the bank of the one segment it can be, if it is only one. |
| BankSeeding.OrderOfConstantsIrrelevant | src/dbg_info.c:1926-2047 | The order the constants were parsed in changes no bank. |
| BankSeeding.OrderOfSegmentsIrrelevant | src/dbg_info.c:1926-2047 | The order of the segments changes no segment's bank. |
| BankSeeding.AllSeedingForgets | src/dbg_info.c:1942-1958 | Seeding again from other constants is as if the first seeding had never been; from the same, it changes nothing. |
| BankSeeding.ObservationWins | src/dbg_info.c:1942-2071 | A bank observed for the one segment a load can be survives any number of seedings. |
| BankSeeding.BankGivenExactly | src/dbg_info.c:1988-2043 | A segment gets a bank exactly when the best rank with any candidate has candidates that all name it. |
| BankNames.SquashedOne | src/dbg_info.c:1869-1887 | Names are compared with underscores left out and letters in capitals. |
| BankNames.SquashedJoin | src/dbg_info.c:1869-1887 | And so character by character. |
| BankNames.LongNamesIgnored | src/dbg_info.c:1869-1887 | A name of 128 characters or more, so compared, counts as none. |
| BankNames.TargetOf | src/dbg_info.c:1888-1924 | RAM_BANK_x, BANK_x and x_BANK speak for the segment x, and nothing else speaks for any. |
| BankNames.RankIs | src/dbg_info.c:1988-2028 | The whole name is better than a beginning of four characters or more, and of the same kind the segment's own module is better. |
| BankNames.SeededExactly | src/dbg_info.c:1942-2047 | Seeding gives a bank exactly to the named, sized segments of banked memory of unknown bank that constants agree on, and takes away what it no longer finds. |
| BankNames.ObservedExactly | src/dbg_info.c:2049-2071 | A load into banked memory tells the bank of the one segment of its length, with or without a header, at that address. |
| ModuleLemmas.RangeIsLeast | src/dbg_info.c:2231-2262 | A file is described exactly when some segment has a size; its range is the least that holds every one that has. |
| ModuleLemmas.DescribedHasByte | src/dbg_info.c:2231-2262 | A file has a range exactly when some segment has a byte in 24-bit memory. |
| ModuleLemmas.RangeHoldsBytes | src/dbg_info.c:2231-2262 | The range is the least that holds every such byte. |
| ModuleLemmas.ExtensionsShare | src/dbg_info.c:2201-2224 | Programs that differ only in their extension have one .dbg. |
| ModuleLemmas.UnloadOrphansNone | src/dbg_info.c:2097-2193 | Unloading orphans no span: a segment only goes when every span in it goes. |
| ModuleLemmas.UnloadKeeps | src/dbg_info.c:2097-2193 | A module whose range is apart from the unloaded one stays whole. |
| ModuleLemmas.MergedNumbered | src/dbg_info.c:1144-1330 | Records appended under fresh IDs keep every ID distinct and below the next. |
| ModuleLemmas.MergedOneReading | src/dbg_info.c:1144-1330 | Merging mixes two readings of a .dbg exactly when something of an earlier one was left. |
| ModuleLemmas.MergedOneCopy | src/dbg_info.c:1144-1330 | Merging makes a second copy exactly when something read was there already. |
| ModuleLemmas.OneReadingOneCopy | src/dbg_info.c:1144-1330 | Records all of one reading are each there once. |
| ModuleRegistry.StepSound | src/dbg_load.c:345-412 | Every load, whatever its file holds, keeps registered paths distinct, their ranges apart and their modules wholly present. |
| ModuleRegistry.StepOneReading | src/dbg_load.c:345-412 | One load keeps every .dbg of one reading exactly when no record of that .dbg survives the unload before it is read. |
| ModuleRegistry.StepOneCopy | src/dbg_load.c:345-412 | One load keeps one copy of everything exactly when no record of that .dbg with a number now read survives the unload. |
| ModuleRegistry.RunSound | src/dbg_load.c:77-190 | So does any run of loads. |
| ModuleRegistry.StartsSound | src/dbg_load.c:77-90 | Before the first load the registry is sound. |
| ModuleRegistry.OneReadingExactly | src/dbg_load.c:77-190 | Over any run every .dbg stays of one reading exactly when no load is of that kind. |
| ModuleRegistry.OneCopyExactly | src/dbg_load.c:77-190 | Over any run, files changing as they may, no record is ever there twice exactly when no load is of that kind. |
| ModuleCases.UnchangedFilesSafe | src/dbg_load.c:345-412 | Once a load has succeeded, files that do not change and whose segments fit are never doubled, however much of them was there at each load. |
| ModuleCases.TwiceUnfinished | src/dbg_info.c:2097-2303 | Two loads beside one unfinished .dbg before any success leave two copies. |
| ModuleCases.ProgramAndItsTwin | src/dbg_info.c:2201-2303 | FOO.PRG and then FOO.BIN beside an unfinished FOO.dbg are such loads. |
| ModuleCases.RebuiltLeavesStale | src/dbg_info.c:2097-2303 | A displaced program rebuilt with its second segment elsewhere leaves the stale segment beside the new one. |
| ModuleCases.EmptySegmentDoubles | src/dbg_info.c:2097-2303 | An empty segment below the range is never unloaded and comes back doubled. |
| ModuleLoader.DebugInfo.UnloadRange | src/dbg_info.c:2097-2193 | The compacting loops drop exactly the records of the range. |
| ModuleLoader.DebugInfo.ReadRecords | src/dbg_info.c:1144-1330 | Reading appends the file's records under IDs never handed out before. |
| ModuleLoader.DebugInfo.DiscardRange | src/dbg_load.c:167-190 | A load nothing describes unloads and forgets exactly the modules it wholly covered. |
| ModuleLoader.DebugInfo.ForgetOverlapping | src/dbg_load.c:91-109 | Exactly the entries overlapping a range are forgotten, the rest in order. |
| ModuleLoader.DebugInfo.Poll | src/dbg_load.c:345-412 | Handling a finished load is the specified step. |
| ModuleEffects.UndescribedDrops | src/dbg_load.c:167-190 | A load nothing describes forgets exactly the modules it wholly overwrote, the rest in order, and exactly the records in the ranges of those go. |
| ModuleEffects.InsideDropped | src/dbg_load.c:167-190 | A span inside its segment goes exactly when it starts in the range of such a module. |
| ModuleEffects.NothingToDo | src/dbg_load.c:345-376 | A load of no bytes that nothing describes, and one of a registered program, change nothing. |
| ModuleEffects.DescribedReplaces | src/dbg_load.c:345-412 | A described load forgets exactly the modules it overlaps, replaces exactly the records in its range by the file's own, and registers the program when the reading was accepted. |
| ModuleEffects.DbgNames | src/dbg_load.c:192-205 | A .dbg is known by its name in any case, and the name built for a program is one. |
| ModuleEffects.ExtensionAppended | src/dbg_info.c:2201-2224 | A name with no dot gets the extension appended; a dot in a directory is none of its. |
| ModuleEffects.NamesFit | src/dbg_info.c:2201-2224 | A name is built exactly when it and its path fit 1024 bytes. |
| Compaction.Compact | src/dbg_load.c:91-109 | Compacting in place keeps exactly what passes the test, in order. |
| Compaction.FilterSifts | src/dbg_load.c:91-109 | What is kept is every element that passes, as often as it was there and in its order. |
| DapFraming.LengthOfHeader | src/debug_server.c:437-447 | The length parsed back from a header the server writes is the length written. |
| DapFraming.HeaderEndAt | src/debug_server.c:4696-4702 | The header ends at the first blank line. |
| DapCuts.BodyIsLast | src/debug_server.c:4724-4743 | A message's body is the bytes right behind its header, as many as the header says and the last consumed. |
| DapCuts.LengthIsTheHeaders | src/debug_server.c:4703-4717 | A header settles its length before any of the body is there exactly when its first Content-Length line, if it has one, has a value. |
| DapCuts.BlankLengthIsCutDependent | src/debug_server.c:4703-4743 | With no value the length is read out of the body: one read and two dispatch different messages. |
| DapCuts.BlankLengthThere | src/debug_server.c:4703-4717 | A Content-Length field, then the blank line, is such a header. |
| DapCuts.ExtractSettled | src/debug_server.c:4696-4743 | What has been extracted, of any bytes at all, does not change when more arrives. |
| DapCuts.TwoReadsAreOne | src/debug_server.c:4809-4866 | Any bytes, framed or not, whose headers settle their lengths are dispatched the same in two reads as in one. |
| DapHeaders.OtherLinesPassedOver | src/debug_server.c:4704-4743 | A frame is extracted whole whatever other line its header starts with. |
| DapHeaders.NoLengthSkipped | src/debug_server.c:4704-4722 | A header with no Content-Length is skipped, and no more. |
| DapHeaders.NegativeLengthSkipped | src/debug_server.c:4704-4722 | So is one whose length is negative. |
| DapHeaders.DigitsAre | src/debug_server.c:4703-4717 | A length is written in decimal digits, behind the white space C has. |
| DapTheorems.FrameRoundTrip | src/debug_server.c:437-447 | Extraction undoes framing whatever follows in the buffer. |
| DapTheorems.FrameIncomplete | src/debug_server.c:4696-4743 | A frame that has not wholly arrived is left where it is. |
| DapTheorems.FrameRefused | src/debug_server.c:4724-4736 | A body no buffer could hold is refused as soon as its header is in. |
| DapTheorems.FramesDelivered | src/debug_server.c:4809-4866 | However a stream of messages that fit is cut, exactly its whole messages are dispatched, in order, once each, and the rest waits. |
| DapTheorems.DeliveredExactlyWhenFit | src/debug_server.c:4809-4866 | A whole stream is delivered exactly when every message in it is at most 65534 bytes framed. |
| DapReceiver.Receiver.HeaderLength | src/debug_server.c:4704-4717 | The line loop finds the Content-Length field. |
| DapReceiver.Receiver.Extract | src/debug_server.c:4696-4743 | Extraction from the buffer is the specified extraction. |
| DapReceiver.Receiver.Compact | src/debug_server.c:4849-4856 | What follows the consumed bytes moves to the front, terminated. |
| DapReceiver.Receiver.PollServer | src/debug_server.c:4809-4866 | One poll receives, dispatches every complete message and compacts, as specified, within the buffer; a closed peer or a failed read ends the connection. |
| Base64.Encode | src/debug_server.c:2383-2400 | The encoder's loop produces the specified text. |
| Base64.Decode | src/debug_server.c:1896-1910 | The decoder's loop gives, for any text at all, the octets its data characters stand for, within the allocation. |
| Base64.DecodedFits | src/debug_server.c:1888-1910 | What any text decodes to fits the buffer allocated from its length. |
| Base64.SymbolValue | src/debug_server.c:1857-1864 | Every symbol decodes to its own value. |
| Base64.AlphabetIs | src/debug_server.c:1857-1864 | The alphabet is that of RFC 4648. |
| Base64.OnlySymbols | src/debug_server.c:1857-1864 | Only its symbols carry data. |
| Base64.GroupIsNumber | src/debug_server.c:2383-2400 | Three octets and their four values are one 24-bit number, most significant first, and shorter groups are padded. |
| Base64.RoundTrip | src/debug_server.c:1857-2400 | Decoding what was encoded gives back every octet, in all three padding cases. |
| AudioLevels.TheSourcesConstants | src/audio.c:18-29 | The position increments are those the clock formulas give at 8 MHz and 48828 Hz. |
| AudioLevels.NoLap | src/audio.c:266-284 | While the drift is bounded no ring is lapped, the VERA ring bounded through the YM2151's. |
| AudioLevels.StepCoupled | src/audio.c:266-284 | Running the processor does not change the drift. |
| AudioLevels.YmNeverSkips | src/audio.c:452-464 | The YM2151 source is never the one left behind. |
| AudioLevels.RenderCoupled | src/audio.c:336-464 | A render keeps the drift bounded and leaves at most six samples in the YM2151 ring. |
| AudioLevels.RenderIsShort | src/audio.c:336-464 | A render gives less than a lap of host samples. |
| AudioLevels.FullIsReady | src/audio.c:266-284 | A ring with no room has enough to render, and rendering makes room. |
| AudioRing.Ring.CatchUp | src/audio.c:286-334 | Rendering up to the head, in two pieces around the end, leaves the newest samples each in its slot. |
| AudioRing.Ring.Taps | src/audio.c:370-392 | The four filter taps are the chip's own consecutive samples: rendered already and not yet overwritten. |
| AudioRing.Ring.Filled | src/audio.c:336-340 | The difference of two wrapped positions is the distance between the real ones. |
| AudioMixer.LimiterExact | src/audio.c:418-430 | Each limited channel is exactly the mix scaled by the limiter, and fits 16 bits. |
| AudioMixer.LoweredIsGreatest | src/audio.c:418-426 | The limiter is brought down to the greatest value it can keep at which both channels fit sixteen bits. |
| AudioMixer.QuietUntouched | src/audio.c:418-430 | A mix that fits leaves the limiter alone, and at unity comes out unchanged. |
| AudioHeard.RenderGives | src/audio.c:346-464 | A render gives as many host samples as both rings can, and then drops one of VERA's if that is still two ahead. |
| AudioHeard.RoomIsMost | src/audio.c:266-284 | The processor runs on by as many clocks as the YM2151 ring has room for. |
| AudioHeard.SoundingAt | src/audio.c:346-448 | Each host sample is mixed from its own read positions at the limiter the ones before it have left. |
| AudioHeard.LimitedIs | src/audio.c:418-430 | Left and right are the mix's own, scaled by the one limiter. |
| AudioHeard.HeardWhere | src/audio.c:360-400 | The samples heard are the ones the read positions are in, four on from the YM2151's, with the position within the first in 256ths. |
| AudioHeard.QuietRecovers | src/audio.c:418-436 | While mixes stay quiet the limiter rises by one a sample, as far as unity. |
| AudioHeard.QuietUnchanged | src/audio.c:418-436 | And at unity they come out unchanged. |
| AudioEngine.Engine.MixAll | src/audio.c:346-448 | The mixing loop sounds exactly what the chips' endless streams give at the read positions. |
| AudioEngine.Engine.Render | src/audio.c:286-465 | A render sounds everything both rings can give and leaves them at the specified levels. |
| AudioEngine.Engine.Step | src/audio.c:266-284 | The heads move by exactly the clocks run, and the loop ends. |
| AudioQueue.Queue.Push | src/audio.c:346-450 | Pushing keeps the newest frames, skipping a block of the oldest for every time around; the queue is sound after it exactly when what is left fits, as after any push of a block or less. |
| AudioQueue.Queue.Callback | src/audio.c:114-147 | The device gets the oldest waiting frames, a block at most, except that an exactly full queue gives none. |
| AudioOutput.RenderFitsPush | src/audio.c:336-450 | What a render adds is shorter than a block, so a push of it never overflows. |
| AudioOutput.FullIsSilent | src/audio.c:114-147 | An exactly full queue is reached by short pushes, and is played as silence. |
| I2cBus.I2c.StepBus | src/i2c.c:105-214 | One step of the bus in place is the specified step. |
| I2cProtocol.StartNeedsBoth | src/i2c.c:105-120 | An idle bus starts only when both lines are low. |
| I2cProtocol.AddressEffect | src/i2c.c:168-192 | A known device acknowledges its address and takes the direction from it. |
| I2cProtocol.WriteSeen | src/i2c.c:105-214 | A write transaction makes the device see its bytes in order, each after the first followed by a write, and nothing else; the bus is idle again. |
| I2cProtocol.ReadSeen | src/i2c.c:105-214 | A read transaction of at least one byte samples exactly the device's next bytes, one read each; the bus is idle again. |
| I2cProtocol.ProbeCostsAByte | src/i2c.c:120-150 | A read of no bytes takes one from the device. |
| I2cProtocol.StrangerUnseen | src/i2c.c:168-205 | An unknown address is not acknowledged and no device sees it; until the stop the bus waits for another address. |
| MouseRing.ByteRing.Add | src/i2c.c:261-274 | Adding appends one byte, or nothing when fifteen are waiting. |
| MouseRing.ByteRing.Next | src/i2c.c:276-286 | The oldest byte comes out, or zero. |
| MouseRing.Mouse.Send | src/i2c.c:326-354 | A packet goes in whole or not at all. |
| MouseRing.Mouse.SendState | src/i2c.c:356-370 | Every unit of movement is in a piece or still to come; the ring gains exactly the packets of the first pieces, as many as fit, the wheel in the first. |
| MouseRing.CutStops | src/i2c.c:356-370 | Each piece is as much of what is left as a packet carries, and they stop at the first after which one axis is done. |
| MouseRing.AllEnterExactly | src/i2c.c:326-370 | No piece is lost exactly when the packets together leave a byte of the ring free. |
| MouseRing.PacketReadsBack | src/i2c.c:314-354 | Both movements and the buttons can be read back from a packet. |
| MouseRing.PacketShape | src/i2c.c:314-354 | A packet has bit 3 set, no overflow bits, and a fourth byte with the wheel's movement for a device that has one. |
| HostProf.Profiler.BeginSection | src/host_prof.c:113-123 | Opening a section charges what was open before it; a ninth is counted but not kept. |
| HostProf.Profiler.EndSection | src/host_prof.c:125-134 | Closing a section charges it; closing a ninth only counts down. |
| HostProf.EndUndoesBegin | src/host_prof.c:113-134 | Closing a section undoes opening it, at any depth. |
| HostProf.NothingOpened | src/host_prof.c:113-134 | What is no section is never opened, and with none open there is nothing to close. |
| HostProf.Profiler.EndFrame | src/host_prof.c:169-188 | A frame's end moves its ticks to the totals and converts them. |
| HostProf.ChargedIsSpent | src/host_prof.c:66-134 | Over any run every section is charged exactly the time it was innermost of those kept. |
| HostProf.TimeConserved | src/host_prof.c:66-188 | Charged ticks are exactly the time passed up to the last charge. |
| HostProf.FrameAddsUp | src/host_prof.c:59-64 | A frame's sections add up to its wall time, short by fewer microseconds than sections, exactly when they add up to what 32 bits hold. |
| HostProf.OverlongFrames | src/host_prof.c:59-64 | Two nine-section frames of over an hour, one whose sections exceed it and one whose sections still add up. |
| HostProf.ToUsIs | src/host_prof.c:59-64 | A time is the whole microseconds it comes to, at most what 32 bits hold. |
| HostProf.BusyIs | src/host_prof.c:169-188 | A frame is busy for all but what it slept. |
| HostProfFrames.RankingIsStableSort | src/host_prof.c:194-204 | The ranking is the stable descending sort of every frame. |
| HostProfFrames.OfSifts | src/host_prof.c:194-204 | Of one busy time, the ranking has every frame in the order they came. |
| HostProfFrames.NotedIsRanking | src/host_prof.c:194-204 | Keeping only eight keeps the first eight of the ranking. |
| HostProfFrames.FrameLog.EndFrame | src/host_prof.c:186-204 | A frame enters the ring and the list in place, both staying exact. |
| HostProfFrames.FrameLog.Recent | src/host_prof.c:217-225 | The k-th most recent of the last 1024 frames. |
| HostProfFrames.FrameLog.Worst | src/host_prof.c:227-234 | The first frames of the ranking, as many as there are and were asked for. |
| InputScript.InsertedOnFrame | src/input_script.c:37-43 | Inserting adds an event last on its frame and leaves other frames alone. |
| InputScript.InsertedOrdered | src/input_script.c:37-43 | Inserting keeps frame order. |
| InputScript.OnFrameSifts | src/input_script.c:244-261 | What a call fires is every event of its frame, in order. |
| InputScript.Player.Push | src/input_script.c:26-45 | The in-place insertion is the specified one, even during playback. |
| InputScript.Player.Frame | src/input_script.c:244-261 | A call fires exactly the frame's events, in order. |
| InputScript.FiresWhatWasWritten | src/input_script.c:180-261 | However appending and playing interleave, each call fires what was written for its frame by then, in written order. |
| InputScript.NeverReplayed | src/input_script.c:244-261 | Nothing fires in two calls. |

## Left out

- Decoder tables and disassembly text: the decoder is an arbitrary length function of at most four bytes.
- Source-line stepping and the stack scan of step-out (its result is a parameter).
- Parsing of packed breakpoint references: the program bank and the window bank arrive apart.
- The watchpoint table: the same owner-counted operations as the breakpoints, over a fixed array; only its effect on run control is modelled.
- DebuggerMachine.RunControl.DecideStop: covers the stop decisions; serving the socket and the paused interface is the function `Handle`, whose commands come from the `Check`.
- Commands that act on the displayed location rather than on an address they name: the display is the one thing the fast and the full run may differ in.
- DebugCore.BreakpointTable.OnArrival: dump breakpoints, which write a file and let the machine run on, are left out of the scan.
- DapReceiver.Receiver.PollServer: a body is handed on as bytes; the JSON reader behind it stops at a NUL. A Content-Length beyond the range of `int` is parsed as an unbounded number.
- DbgLookup.Lookup: the exact-address lookup without banks is not modelled, and the map is taken as sorted, not built.
- BankSeeding.SegmentTable.NoteBankLoad: the case of no debug information at all is the empty table.
- ModuleRegistry.StepSound: a file does not change while one load is handled, addresses do not wrap at 2^32, a file's records are numbered consecutively from zero as ld65 writes them, and a span names a segment of its own file.
- ModuleLoader.DebugInfo.Poll: the noted bank and the client's breakpoints, which follow the registry step, are left out.
- Line and symbol records of the tables: pruned by the same address tests, they would repeat the span arguments.
- AudioEngine.Engine.MixAll: the filter's coefficients and the mixing weights are an arbitrary function whose result has the size 32-bit sums allow; VERA's two chips are one stream.
- Host rates other than 48828 Hz, where VERA and MIDI samples would be filtered too.
- HostProf.Profiler.BeginSection: a tenth section opened inside a ninth, which the code's stack has no place to charge, is excluded, as is a frame ending inside a ninth; tick counts do not overflow.
- Repeated starts and clock stretching on the I2C bus; the keyboard's ring is the mouse's ring again.
- Panels, percentiles and spikes of the profiler.
- Parsing of scripted input, and what its events do to the machine.
- Out-of-memory paths throughout.
