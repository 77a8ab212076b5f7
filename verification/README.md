# A verified model of cbugger

cbugger is a ptrace debugger for AArch64 Linux. This project models its state machine in Dafny and
proves what it keeps: software breakpoints and the step-over protocol, the aliased register file, the
hardware breakpoint slots, and the parsers of register names and values.
`dafny verify dfyconfig.toml` checks everything.

## How the model is laid out

- `Bits`, `LittleEndian`, `Options`: machine words. A shift is multiplication or division by a power of
  two, the operators `&`, `|`, `~` are defined bit by bit, and lemmas turn mask expressions into
  quotients and remainders for symbolic offsets and sizes.
- `SubregisterView`, `SlotLaws`, `Cells`: `write_u64`/`read_u64` over byte buffers, their laws, and the
  refinement of rows of 32-bit cells. `Aliases` carries the refinement over to histories of writes
  through handles.
- `RegisterName`, `RegisterValue`: the name scanner, the value parser, the hex printer. `NameLanguage`
  spells out the names, and `Values` says what a register reads once a text was written to it.
- `RegisterFile`, `Handles`, `Registers`: the four regset structures as bytes, the table of 132 named
  registers, name resolution, reads and writes by handle, and the class that holds the cache. The
  layout of the structures is that of the Linux headers `asm/ptrace.h`, which are not part of this
  model.
- `Memory`, `Tracee`: tracee memory in bytes with 8-byte pokes, and the other side of ptrace and
  waitpid. Every answer of the kernel is a parameter of the operation that receives it: whether a call
  is granted, how many of the four register transfers of a load or save go through, and what the
  program executed before a stop. A statement for all answers is a statement for all behaviours. An
  instruction may change the general and floating-point registers freely and store anywhere; `BRK` and
  `UDF` (sections C6.2 of the Arm Architecture Reference Manual, DDI 0487) and misaligned fetches trap
  without effect. `base` is the program's own memory: it receives the program's stores and no write of
  the debugger.
- `Protocol`: for every operation of `Process` and `Breakpoints`, the new state and the result as a
  function of the old state and the kernel's answers. `Debugger` holds the classes, whose methods are
  proved to compute these functions.
- `Sites`, `StepContracts`, `Results`, `Transparency`, `Runs`, `Presentation`, `Overlaps`, `Removals`,
  `Hardware`, `SlotRuns`, `Coherence`: the properties.
  Those about tables and registers hold wherever the breakpoint sites lie and whatever the program
  stores. Those about memory name the set `armed` of the sites that hold a trap; what becomes of it is a
  function of the kernel's answers.

## Findings

- The trap is an 8-byte word, so a site owns eight bytes and zeroes the instruction after it. Two
  breakpoints on adjacent instructions overlap: removing them in the order they were added corrupts the
  program (`Removals.FirstOutAlwaysIff`). Of any number of breakpoints the orders of removal that restore
  every program are exactly those that remove, of two whose windows meet, the one added later first
  (`Removals.AlignedRestoresIff`); well-nested additions and removals always do (`Removals.NestRestores`).
  Arming the lower of two adjacent sites second destroys the trap of the upper one
  (`Overlaps.NewSiteKeepsTrapIff`), and a tracee whose pc is right after an armed site is stuck there
  (`Overlaps.AfterSiteStuck`).
- A tracee stopped at a breakpoint never gets past it: resuming reports the same registers for ever
  (`Presentation.PresentationStable`), while the stores of the instruction at the site are carried out
  once per cycle (`Presentation.PresentationMemory`); and whatever else is done in between, it stays there
  until the breakpoint is removed or pc is written (`Presentation.RunHeld`). Steps from there execute the
  instruction again and again, each on the registers the last one left, with pc put back each time
  (`Transparency.RepeatedSteps`). docs/breakpoint-progress.md:65 says that the instruction has not yet
  executed; that is true of the registers only.
- A program that loads from the eight bytes of a site reads the trap: a literal pool right after a
  breakpointed instruction reads as zero (`Transparency.LoadSeesTrap`). Programs that use no site's
  window as data run under the debugger as they do alone (`Transparency.RunsAsProgram`).
- docs/breakpoint-progress.md:62 says that the step-over is taken when the stop was a trap. The code
  does not look at the signal (src/process.cpp:218-226), and the model follows the code
  (`StepContracts.SignalIgnored`).
- A wait or a step that fails does not always leave every site armed. A wait loses the trap it steps over
  exactly when lifting it was granted, writing it back was not, and the saved word is not the trap word
  itself (`Sites.WaitArmsIff`). A step loses that of its start whenever the wait it contains reports no
  stop, unless a step-over right there wrote it back, and that of another site where the nested step-over
  failed (`StepContracts.StepArmsIff`). A memory error
  does not tell the two cases of a wait apart (`StepContracts.StepOverResult`).
- A step that ends the process reports an error instead of the exit if it started at a site
  (`StepContracts.StepThatEnds`), and an exit during a step-over goes unnoticed
  (`StepContracts.EndsDuringStepOver`).
- The destructor restores sites before it stops a running tracee, so a running tracee keeps its traps
  (`Overlaps.DestructorRestoresStopped`), against docs/breakpoint-progress.md:50.
- With no implemented slot reported, `enable_hw_breakpoint` succeeds in the cache only; disabling a slot
  beyond the implemented ones likewise, and so does any write to a debug register beyond them
  (`Hardware.EnableContract`, `Hardware.DisableContract`, `Coherence.WriteCoherent`).
- An enable or a disable whose save is refused before the breakpoint regset reports an error and leaves the
  tracee alone, but its change stays in the cache: the next register write carries it out
  (`SlotRuns.PendingEnable`), the next wait, step, enable or disable forgets it (`SlotRuns.RunSlots`).
- `format_hex` pads to 16 digits by default, which the parser of a 32-bit register rejects
  (`RegisterValue.PrintParse`).

## Model

| member | source | states |
|---|---|---|
| Runs.RunOverlay | src/breakpoints.cpp:36-87 | After any sequence of operations, failures included, memory is the program with the 8-byte trap word over exactly the sites the kernel's answers leave armed, every saved word is the program's, and all current sites hold the trap exactly when the saved word of every other is the trap word itself |
| Runs.RunArmsAll | src/breakpoints.cpp:36-155 | After any run whose waits and steps return normally, whatever else failed, memory is the program with the trap over exactly the current sites and every saved word is the program's |
| Runs.RunInvariant | src/process.cpp:199-290 | Any run keeps the layout of memory and the tables, with the set of armed sites computed from the kernel's answers |
| Runs.OpKeeps | src/breakpoints.cpp:36-155 | The inductive step: for each operation, failures included, which sites are armed afterwards |
| Runs.FreshProcess | src/process.cpp:119-123 | A new process satisfies the premises of the run theorems |
| Runs.RunTables | src/breakpoints.cpp:36-97 | Any run at all, wherever the sites lie, keeps ids and sites a bijection and the counter above every id |
| Runs.AddContract | src/breakpoints.cpp:36-56 | An address with a breakpoint keeps its id and nothing changes; a new one gets the next id, its word saved and the trap written, or nothing changes, exactly when the kernel refuses the read or the write |
| Runs.AddKeeps | src/breakpoints.cpp:49-53 | A new site whose window meets no other is armed over the program, and no other trap changes |
| Runs.RemoveKeeps | src/breakpoints.cpp:67-87 | A failed poke changes nothing; success drops the site and its ids, shows the program there and keeps all other traps as they are |
| Runs.AddIsIdempotent | src/breakpoints.cpp:42-47 | Adding again at the same address returns the same id and changes nothing, whatever the kernel answers and whatever the other sites |
| Runs.RemoveUndoesAdd | src/breakpoints.cpp:49-86 | Removing by id or by address what was just added restores the whole state except the id counter, even if it overlaps other sites |
| Runs.IdNeverReused | src/breakpoints.cpp:53-55 | In any run the id of a new breakpoint was live at no earlier point |
| Sites.WaitKeeps | src/process.cpp:199-246 | Whatever the kernel answers, memory after a wait is the program with the trap over exactly the sites that were armed, with the site stepped over added or taken out as the answers say |
| Sites.WaitArmsIff | src/process.cpp:225-243 | All sites armed before are armed after a wait, failed or not, exactly when no trap was lifted, it was written back, or the saved word is the trap word |
| Sites.StepOverKeeps | src/process.cpp:225-243 | A step-over, failed or not, leaves every other trap alone, and its own in place exactly as the answers say |
| Sites.ArmedIff | src/breakpoints.cpp:49-53 | A site holds the trap exactly when it is armed or its saved word is the trap word |
| Sites.AdvancedKeeps | src/breakpoints.cpp:49-53 | Whatever the program executes without storing into a window, layout, saved words and traps stay |
| StepContracts.WaitRegisters | src/process.cpp:218-245 | A wait that reports a stop of an attached tracee leaves tracee and cache with the registers of the stop, pc included, wherever the sites lie and whatever is stored; a step-over adds exactly the stores of one instruction, the one with the saved word put back |
| StepContracts.StepOverRegisters | src/breakpoints.cpp:103-123 | The registers loaded at the stop are what is saved back, although the debug regsets are written only in part |
| StepContracts.StepRegisters | src/process.cpp:250-290 | After a step that reports a stop the registers are those after one instruction, pc back at the start if that was a site, and the cache equals them, also when the step lands on another site or its own, wherever the sites lie |
| StepContracts.WaitContract | src/process.cpp:218-245 | A wait that reports a stop leaves every site armed that was, and the one stepped over; the program's memory gains the stores of the program's own instruction there |
| StepContracts.StepContract | src/process.cpp:250-290 | A step that reports a stop leaves every site armed that was, and its start; the program's memory gains the stores of the instruction stepped and of one at a site it lands on |
| StepContracts.SteppedWait | src/process.cpp:273-281 | The nested wait of a step leaves the registers after the one instruction stepped, although it may step over the site it lands on |
| StepContracts.StepIsOne | src/process.cpp:229-235 | A single step has the effect of at most one instruction, none if it traps |
| StepContracts.StepKeeps | src/process.cpp:250-290 | Whatever the kernel answers, memory after a step is the program with the trap over exactly the sites computed from the answers |
| StepContracts.StepArmsIff | src/process.cpp:257-289 | All sites armed before are armed after a step, failed or not, exactly under this condition on the kernel's answers and the saved words; among others, when the kernel refuses the step and the re-arm works |
| StepContracts.StepOverResult | src/process.cpp:225-243 | Which answers give which error of a step-over, and that a memory error does not say whether the trap is in place |
| StepContracts.WaitStopsIff | src/process.cpp:199-246 | A wait reports a stop exactly with these answers, and then the outer one |
| StepContracts.StepStopsIff | src/process.cpp:250-290 | A step reports a stop exactly with these answers |
| StepContracts.WaitThatEnds | src/process.cpp:179-215 | A wait that finds the process gone reports EXITED with its status or TERMINATED with its signal, and only then reports an end; the pid is dropped and nothing else changes |
| StepContracts.StepThatEnds | src/process.cpp:281-289 | A step that ends the process reports the exit status or the signal if it did not start at a site, and otherwise that there is no process |
| StepContracts.EndsDuringStepOver | src/process.cpp:234-241 | The process is gone after a step-over exactly when it ended at the inner wait, and then the result is a memory error and the pid is kept |
| StepContracts.SignalIgnored | src/process.cpp:218-226 | The state after a wait does not depend on the signal of the stop, nor the result but for the signal it reports |
| StepContracts.SaveBack | src/registers.cpp:84-108 | Saving loaded registers over a tracee with the same debug registers gives back the whole register file |
| Results.WaitResult | src/process.cpp:199-246 | The result of a wait, the kind of every error included, read off the answers |
| Results.WaitFails | src/process.cpp:205-208 | A wait with nothing to wait for, or whose waitpid fails, is an error and touches only the tracee |
| Results.WaitElsewhereState | src/process.cpp:216-226 | A stop that is not at a site sets the state, loads the registers of an attached tracee, and changes nothing else |
| Results.ResumeContract | src/process.cpp:160-173 | A granted resume sets the stopped tracee running and the state RUNNING and changes nothing else; a refused one is an error and changes nothing |
| Results.ResumedWait | src/process.cpp:160-246 | A resume and a wait whose calls are all granted do report the stop, with its signal |
| Results.StepResult | src/process.cpp:250-290 | The result of a step in terms of that of the wait it contains, the kind of every error included |
| Results.FailedStepRuns | src/process.cpp:273-281 | A step whose waitpid failed leaves the state RUNNING |
| Results.AddRefused | src/breakpoints.cpp:36-50 | What a refused addition reports, the state untouched |
| Results.RemoveContract | src/breakpoints.cpp:67-87 | A removal fails exactly when a site's word cannot be written back; otherwise it is true, drops exactly this address from both tables and changes no other byte |
| Results.RemoveIdContract | src/breakpoints.cpp:58-65 | False exactly for an id that is not live, with nothing changed; otherwise the removal at its address, and the id is gone |
| Results.HardwareRefused | src/breakpoints.cpp:161-200 | Without a process, or with a tracee that runs, enable and disable report this error and change nothing |
| Results.NoSuchSlot | src/breakpoints.cpp:197-198 | A slot outside 0 to 15 is an error and changes nothing |
| Results.MemoryRefused | src/process.cpp:311-336 | When a read and a write of memory succeed, and the error of each |
| Results.PartialLoad | src/registers.cpp:54-82 | The first n granted transfers load the first n of the four regsets and the debug sizes with them |
| Results.PartialSave | src/registers.cpp:84-108 | The first n granted transfers save the first n regsets, the debug ones byte by byte up to their size |
| Results.WriteReported | tools/cbg.cpp:446-452 | A register write is an error unless it was saved whole, and the cache has it all the same |
| Coherence.OpCoherent | src/process.cpp:218-289 | After a wait, step, enable or disable that returned with a stopped tracee, the cache shows its registers, exactly unless the slot programmed is not implemented |
| Coherence.RunCoherent | src/registers.cpp:54-108 | In any run of such operations, with breakpoints added and removed between them, the cache shows the registers of a stopped tracee |
| Coherence.WriteCoherent | src/registers.cpp:84-108 | A saved register write reaches the tracee whole, exactly if its register lies in the part that is written back |
| Transparency.RunsAsProgram | src/breakpoints.cpp:49-53 | A program, a function from registers and memory to effects, that uses no site's window as data has at each step under the debugger the registers and memory it has alone, and stops short only where it traps itself, at an armed site or right after one |
| Transparency.ContinueContract | src/process.cpp:160-245 | For such a program resume and wait show the registers and memory it has alone after the same number of instructions, plus the stores of the one stepped over; and with every call granted they do report the stop |
| Transparency.StepAsProgram | src/process.cpp:250-290 | For such a program a step shows registers and memory of one more instruction alone, with pc put back at a site and the stores of the instruction at a site it lands on |
| Transparency.RepeatedSteps | src/process.cpp:283-287 | Any number of steps from a site execute its instruction once each on what the last one left, with pc back at the site each time |
| Transparency.LoadSeesTrap | src/breakpoints.cpp:240-240 | A load from an armed window reads the trap's byte, so it agrees with the run alone exactly where the program has that byte itself |
| Transparency.ExecutesIff | src/breakpoints.cpp:240-240 | The tracee executes where the program would, except at an armed site and at the instruction after it |
| Presentation.PresentationStable | src/process.cpp:160-246 | Once stopped at a site whose trap instruction is in place, any number of resume-and-wait cycles that end in a stop report the same whole register file and leave the trap in place, wherever other sites lie and whatever the program stores |
| Presentation.PresentationMemory | src/process.cpp:225-243 | Where windows do not meet and no store meets them, each cycle adds to the program's memory exactly the stores of the instruction at the site |
| Presentation.CyclesSucceed | src/process.cpp:160-246 | With every call granted, any number of such cycles do end in a stop |
| Presentation.CyclesAreRuns | src/process.cpp:160-246 | Cycles that end in a stop are runs of resumes and waits, so all that holds of runs holds of them |
| Presentation.RunHeld | src/process.cpp:160-290 | A tracee at a site whose trap instruction is in place stays there, with the same pc in tracee and cache, over any run of resumes, waits and steps that end in a stop, changes of hardware slots, of other registers and of other breakpoints whose words miss that instruction, until the breakpoint is removed |
| Presentation.RunHeldArmed | src/process.cpp:160-290 | Where windows do not meet, no other breakpoint can be in the way, and memory keeps its layout over the run |
| Overlaps.AnyOrderRestores | src/breakpoints.cpp:144-155 | Restoring all sites of a stopped tracee, in any order, gives back the program's memory; of the writes the kernel refuses, exactly those sites keep their traps |
| Overlaps.DestructorRestoresStopped | src/process.cpp:125-154 | The destructor gives a stopped tracee its memory back, but for refused writes, and leaves a running one every trap |
| Overlaps.DestructorStops | src/process.cpp:125-154 | The destructor empties both tables and waits for the tracee exactly if it is attached and running, which stops it; without a process it does nothing |
| Removals.NestRestores | src/breakpoints.cpp:36-87 | Breakpoints added and removed in any well-nested order restore memory and tables, however their windows overlap one another or other sites |
| Removals.RestoresIff | src/breakpoints.cpp:36-87 | Any number of breakpoints added in one order and removed in another restore a state exactly when at each byte the one removed last had found what was there at first; the tables always come back |
| Removals.RestoresAlwaysIff | src/breakpoints.cpp:36-87 | The orders that restore every state are exactly those in which, at each byte, the site added first is the one removed last |
| Removals.AlignedRestoresIff | src/breakpoints.cpp:36-87 | For breakpoints on instructions: exactly those in which, of any two whose windows meet, the one added later is removed earlier |
| Removals.FirstOutAlwaysIff | src/breakpoints.cpp:36-87 | Two breakpoints removed in the order they were added restore every state exactly when their windows do not meet |
| Overlaps.NewSiteKeepsTrapIff | src/breakpoints.cpp:49-52 | Exactly which neighbouring traps a new site destroys |
| Overlaps.FetchIsProgramIff | src/breakpoints.cpp:240-240 | Under armed sites the fetched instruction is the program's exactly when the program has the trap's bytes wherever the fetch meets a window |
| Overlaps.AfterSiteStuck | src/breakpoints.cpp:240-240 | From the instruction after an armed site the tracee does not move |
| Memory.ArmedIsOverlay | src/breakpoints.cpp:49-53 | The layout with a set of armed sites is the overlay of that set, byte for byte, both directions |
| Protocol.ReadAfterWrite | src/process.cpp:311-336 | A word can be written exactly where it can be read; it is read back, and writing back what was read before restores the whole state |
| Memory.PokePeek | src/process.cpp:311-336 | Poking back the word that was peeked changes no byte |
| Memory.PokeThenPeek | src/process.cpp:311-336 | A poked word is peeked again |
| Memory.TrapBytes | src/breakpoints.cpp:240-240 | The bytes of the trap word, its upper four being zero |
| Memory.Encodings | src/breakpoints.cpp:240-240 | BRK is recognised with every immediate, the trap of the debugger being the one with 0, and UDF likewise |
| Hardware.EnableContract | src/breakpoints.cpp:161-191 | Enable writes address and control word of the least free slot and no other byte, the word having E set, both privilege levels, all four byte selects and nothing else; it fails for want of a slot exactly when all scanned ones are enabled; tracee and cache agree exactly when a slot is implemented |
| Hardware.DisableContract | src/breakpoints.cpp:193-209 | Disable clears bit 0 of the slot's control word and changes no other bit of the tracee; cache and tracee agree exactly when the slot is implemented or was free |
| Hardware.SlotsRefineMap | src/breakpoints.cpp:161-209 | Any history of enables and disables, refusals of the kernel included, refines a partial map from slots to addresses |
| Hardware.EnableLands | src/breakpoints.cpp:161-191 | An enable changes the tracee's slots exactly when its load and the transfer of the breakpoint regset are granted and a slot is free, even if it then reports an error |
| Hardware.DisableLands | src/breakpoints.cpp:193-209 | A disable clears a slot of the tracee exactly when the same transfers are granted and the slot is implemented |
| SlotRuns.RunSlots | src/registers.cpp:54-108 | Over any run of all operations, raw register writes and refusals included, the tracee's slots and the cached ones are those of a machine in which a load copies the first to the second and a save the implemented second to the first |
| SlotRuns.PendingEnable | src/breakpoints.cpp:183-190 | An enable whose save was refused before the breakpoint regset fails and changes no slot of the tracee, and the next saved register write carries it out |
| Hardware.SaveProgrammed | src/registers.cpp:99-102 | A programmed slot reaches the tracee exactly when it lies in the prefix computed from dbg_info |
| Hardware.SlotNames | src/breakpoints.cpp:176-182 | The names built for a slot resolve to its address and control registers |
| Hardware.FirstFreeMeans | src/breakpoints.cpp:174-188 | The scan finds the least slot with a clear E bit |
| SubregisterViews.SubregisterView.ReadU64 | src/subregister_view.cpp:84-101 | Reads the slot of the parent's number, for any offset and size |
| SubregisterViews.SubregisterView.WriteU64 | src/subregister_view.cpp:127-178 | Replaces the slot in the parent, applies the zeroing policy, touches no byte outside the parent, and fails exactly for sizes 0 and above 64 |
| SubregisterViews.Modify | src/subregister_view.cpp:143-169 | The masks and shifts of the write compute arithmetic insertion and the policy's truncation |
| Bits.SplicedIsInsert | src/subregister_view.cpp:145-150 | Clearing with a shifted mask and or-ing the shifted value in is arithmetic insertion, for every offset and size |
| Bits.MaskIsRem | src/subregister_view.cpp:99-100 | A low mask is the remainder by a power of two |
| Bits.PowerOfTwo | src/subregister_view.cpp:95-97 | The shifts and truncations are multiplication, division and remainder by powers of two |
| SlotLaws.ReadAfterWriteIff | src/subregister_view.cpp:127-178 | Read after write gives the low bits of every value exactly when the policy does not cut the slot |
| SlotLaws.LastWriteWins | src/subregister_view.cpp:149-178 | The second of two writes through one view leaves the parent's bytes as if it were the only one, for every parent and shape |
| SlotLaws.DisjointViewUntouched | src/subregister_view.cpp:166-168 | A preserving write leaves every disjoint view's value alone |
| Cells.VectorRefinesCells | src/subregister_view.cpp:28-178 | Any history of writes through sN, dN, lanes and vN agrees with a register of four 32-bit cells |
| Cells.GeneralRefinesHalves | src/subregister_view.cpp:15-26 | Any history of writes through wN and xN agrees with a register of two cells |
| Cells.ViewsReadCells | src/subregister_view.cpp:84-101 | Every view of vN reads what the cells say |
| Cells.ViewsReadHalves | src/subregister_view.cpp:84-101 | wN and xN read what the cells say |
| Cells.VectorStep | src/subregister_view.cpp:153-169 | Scalar writes clear the higher cells, lane writes change only their own |
| Cells.PreservingScalars | src/subregister_view.cpp:28-52 | Made without zeroing, the views sN and dN change only their own cells |
| Aliases.HistoryRefinesCells | src/registers.cpp:390-433 | Any history of writes through any handles leaves vN as four cells that saw only the writes to vN and its aliases |
| Aliases.VectorHandleReads | src/registers.cpp:390-417 | After any such history every handle of vN reads what the cells say |
| Aliases.HistoryRefinesHalves | src/registers.cpp:390-433 | The same for xN and wN, of two cells |
| Aliases.GeneralHandleReads | src/registers.cpp:390-417 | After any such history wN and xN read what the cells say |
| RegisterName.ParseIndex | src/register_name.cpp:18-30 | The value of a non-empty run of digits, or -1; the accumulator stays an int |
| RegisterName.ParseSubregisterName | src/register_name.cpp:39-143 | Accepts exactly the names of the language and returns their one meaning |
| RegisterName.Unambiguous | src/register_name.cpp:39-143 | No name has two meanings |
| RegisterName.TailIgnored | src/register_name.cpp:113-139 | Nothing after the first closing bracket matters |
| NameLanguage.LanguageIs | src/register_name.cpp:39-143 | The names of the language letter by letter: w, s or d and a numeral in range, or v, a numeral, .4s[ or .2d[, a lane in range, a bracket and anything; a numeral is a decimal number with any zeros in front |
| RegisterValue.ParseRegisterValue | src/registers.cpp:440-539 | The result is exactly what the text denotes for the format and size, error cases included |
| RegisterValue.ParseHex | src/registers.cpp:485-523 | The value of the digits modulo the width exactly when all are hex digits within the bound |
| RegisterValue.ParseDigits | src/registers.cpp:497-514 | Within the digit bound the loop computes the value of the digits and its overflow test never fires |
| RegisterValue.TrimmedAllOnes | src/registers.cpp:470-477 | Recognises -1 and ~0 between blanks, both directions |
| RegisterValue.AllOnesIs | src/registers.cpp:470-477 | The texts for all ones are -1 and ~0 with spaces and tabs around |
| RegisterValue.LooksHexIs | src/registers.cpp:487-490 | A hex number starts with 0x or 0X and has something behind it |
| RegisterValue.HexDigitIs | src/registers.cpp:501-506 | The sixteen digits and their values, in either case |
| RegisterValue.HexAcceptedIff | src/registers.cpp:493-495 | A hex number is accepted exactly if it has at most 32 digits, for 128 bits, or no more than the width needs |
| RegisterValue.BadDigitRejected | src/registers.cpp:497-508 | One character that is no hex digit makes a hex number denote nothing |
| RegisterValue.EveryValueDenoted | src/registers.cpp:485-523 | Every value of a register, of 128 bits too, is what its hex digits denote |
| RegisterValue.MaskDropsNothingIff | src/registers.cpp:517-521 | The final mask changes no accepted number exactly for widths divisible by four |
| RegisterValue.PrintParse | tools/cbg.cpp:202-207 | Printing and parsing gives the value back exactly when the padding is within the digit bound |
| RegisterValue.FormatHexShape | tools/cbg.cpp:202-207 | The printed text is 0x, zeros up to the width, and lower-case digits with no leading zero |
| Values.FloatText | src/registers.cpp:447-467 | A scalar or floating-point lane reads the bits of the number the C library parsed, single or double by its size |
| Values.IntegerText | src/registers.cpp:485-539 | An integer register never depends on the floating-point conversions |
| Values.AllOnesText | src/registers.cpp:470-481 | -1 and ~0 set every bit of an integer register and no bit above |
| Values.HexText | src/registers.cpp:485-523 | An integer register reads exactly the hex number if its digits fit the register, and otherwise refuses it |
| Values.DecimalText | src/registers.cpp:525-539 | Any other text gives the low bits of the 64-bit integer the C library parsed |
| Values.EmptyText | src/registers.cpp:444-445 | No register takes an empty text |
| Values.EveryValueReadsBack | src/registers.cpp:419-523 | Every value of an integer register, 128-bit ones included, can be written in hex and is then read |
| Values.HandleFormats | src/registers.cpp:358-388 | Format and size of every handle agree, and floating-point formats are those of scalars and lanes only |
| RegisterFile.NamesDistinct | include/libcbg/detail/register.inc:9-148 | No two registers of the table have the same name |
| RegisterFile.EntriesApart | include/libcbg/detail/register.inc:9-148 | No two registers of the table share storage |
| RegisterFile.TableCovers | include/libcbg/detail/register.inc:9-148 | The registers cover exactly the bytes of the structures that are no header, padding or tail |
| RegisterFile.TableFormats | include/libcbg/detail/register.inc:9-148 | Every register has an integer or vector format of its own size |
| RegisterFile.TableShadowsNothing | include/libcbg/detail/register.inc:9-148 | No register of the table hides a subregister name |
| Handles.ResolutionIsSound | src/registers.cpp:310-352 | What a name resolves to is valid, and every subregister name resolves to its own view with its format and size |
| Handles.ResolvedFull | src/registers.cpp:312-319 | Every table name resolves to its own index |
| Handles.CoreNames | include/libcbg/detail/register.inc:9-80 | Which bytes of the general and floating-point structures each name reads |
| Handles.DebugNames | include/libcbg/detail/register.inc:83-148 | Which bytes of the debug structures each name reads |
| Handles.WholeFileLaw | src/registers.cpp:390-433 | Write then read through any handle gives the value modulo its size, and no byte outside the named register changes, the headers of the debug regsets included |
| Handles.OtherRegistersUntouched | src/registers.cpp:419-433 | A write through a handle is invisible through the handles of every other register |
| Handles.PcHandle | src/breakpoints.cpp:119-121 | Writing the resolved pc handle sets the program counter |
| RegisterAccess.RegisterView.Get | include/libcbg/registers.hpp:28-38 | The one number of the register's size whose bytes the register holds, or an error exactly for another size |
| RegisterAccess.GetAfterSet | include/libcbg/registers.hpp:28-53 | What is read from bytes a value was written to is the value's low bits |
| RegisterAccess.RegisterView.Set | include/libcbg/registers.hpp:40-53 | The register's bytes become the value's, and no other byte changes |
| RegisterAccess.CalcDebugSize | src/registers.cpp:21-27 | Header and implemented slots in bytes, always inside the structure |
| RegisterAccess.Registers.BuildViews | src/registers.cpp:110-132 | The view vector is the register table over the cache's own buffers |
| RegisterAccess.Registers.Load | src/registers.cpp:54-82 | The cache after as many of the four transfers as were granted |
| RegisterAccess.Registers.Save | src/registers.cpp:84-108 | The tracee's registers after as many transfers as were granted, debug regsets in part |
| RegisterAccess.Registers.MakeSubview | src/registers.cpp:224-255 | Only a descriptor without a kind has no view; a valid one gets a view of its parent register's bytes through which reads and writes are those of the handle |
| RegisterAccess.Registers.MakeSubviewByName | src/registers.cpp:197-221 | The view of a name is that of the descriptor it resolves to, with the cached format and size |
| RegisterAccess.Registers.FindIndex | src/registers.cpp:295-303 | The index of the register with the name, if there is one |
| RegisterAccess.Registers.Resolve | src/registers.cpp:310-352 | Table first, then subregister, else nothing |
| RegisterAccess.Registers.GetFormat | src/registers.cpp:358-372 | The format of what the handle names |
| RegisterAccess.Registers.GetBitSize | src/registers.cpp:374-388 | The size of what the handle names |
| RegisterAccess.Registers.Read | src/registers.cpp:390-417 | The value the handle names in the register file |
| RegisterAccess.Registers.SetRegister | src/registers.cpp:261-275 | The register file with that one register replaced |
| RegisterAccess.Registers.SetSubregister | src/registers.cpp:281-289 | The register file after the write through the view, or an error for no view |
| RegisterAccess.Registers.Write | src/registers.cpp:419-433 | Only the file of the cache changes, and the handle then reads the value modulo its size |
| Debugger.Process.WriteMemory | src/process.cpp:326-336 | Only the eight bytes change, or nothing and an error |
| Debugger.Process.Resume | src/process.cpp:160-173 | A stopped tracee runs and the state is RUNNING, or nothing and an error |
| Debugger.Process.WaitOnSignal | src/process.cpp:199-246 | Computes the specified wait, step-over included |
| Debugger.Process.StepOver | src/process.cpp:225-243 | Computes the specified step-over, failure paths included |
| Debugger.Process.StepInstruction | src/process.cpp:250-290 | Computes the specified step |
| Debugger.Process.Destroy | src/process.cpp:125-154 | Restores in some order over all sites, then stops a running tracee |
| Debugger.Process.HandleRegisterWrite | tools/cbg.cpp:424-452 | Resolves, parses, writes and saves; an unknown name or invalid text changes nothing |
| Debugger.PrintedValueReadsBack | tools/cbg.cpp:436-452 | A value printed within the digit bound and written as text is what the register then reads |
| Debugger.Breakpoints.AddBreakpoint | src/breakpoints.cpp:36-56 | Computes the specified addition |
| Debugger.Breakpoints.FindId | src/breakpoints.cpp:42-47 | The id of an address if it has one |
| Debugger.Breakpoints.RemoveBreakpointId | src/breakpoints.cpp:58-65 | Computes the specified removal by id |
| Debugger.Breakpoints.RemoveBreakpointAt | src/breakpoints.cpp:67-87 | Computes the specified removal by address |
| Debugger.Breakpoints.EraseIds | src/breakpoints.cpp:79-85 | Exactly the ids of the address are erased |
| Debugger.Breakpoints.GetBreakpoints | src/breakpoints.cpp:89-97 | Exactly the entries of the table, by increasing id |
| Debugger.ListingUnique | src/breakpoints.cpp:89-97 | There is only one such listing, whatever the order of iteration |
| Debugger.Breakpoints.PrepareForTransparentStepOver | src/breakpoints.cpp:103-112 | Restores the program's word exactly when pc is at a site |
| Debugger.Breakpoints.RearmAndRewind | src/breakpoints.cpp:114-123 | Computes the specified re-arm and rewind |
| Debugger.Breakpoints.RestoreAllSwSites | src/breakpoints.cpp:144-155 | Pokes every saved word back in some order and empties the tables |
| Debugger.Breakpoints.EnableHwBreakpoint | src/breakpoints.cpp:161-191 | Computes the specified enable |
| Debugger.Breakpoints.FindFreeSlot | src/breakpoints.cpp:170-188 | The first free slot of those scanned |
| Debugger.Breakpoints.MakeHwBreakCtrl | src/breakpoints.cpp:243-251 | The fields or-ed together give the word whose bits `Hardware.EnableContract` states |
| Debugger.Breakpoints.ClearSlot | src/breakpoints.cpp:203-208 | The mask clears the E bit of the control word, and the write is that of the specified disable |
| Debugger.Breakpoints.DisableHwBreakpoint | src/breakpoints.cpp:193-209 | Computes the specified disable |

## Left out

- Launching and attaching (fork, exec, the error pipe), logging, error texts and errno: operating-system plumbing; errors are an enumeration.
- Stores of the program into a site's window: the saved word would be stale. The theorems about memory assume that there are none and that the windows of live sites do not meet; those about tables and registers do not, and what happens to memory when windows meet is stated in `Overlaps`.
- Transparency.RunsAsProgram: a program is a function of its registers and memory; what it reads from elsewhere (system calls, other threads, clocks) is not modelled.
- Debugger.Process.WaitOnSignal: without a process the source calls waitpid with pid 0, which can reap another child of the debugger; the model reports an error.
- Unmapping of tracee memory, and partial writes of a failing poke.
- Signals delivered while stepping other than through the stop they cause; the inner status is ignored, as in the source.
- Debug slots beyond the 16 of the structure: the kernel never reports more, and the model's register files carry that bound.
- The value of the debug sizes before the first load, which the source leaves uninitialised: they are 0.
- RegisterName.ParseIndex: digits beyond the range of an int are excluded, because the accumulation then overflows, which C++ leaves undefined.
- RegisterName.ParseSubregisterName: the same for the two numbers the scanner converts; other digits of a name are free.
- Debugger.Breakpoints.AddBreakpoint: the id counter is required to be below the largest int, for the same reason.
- RegisterValue.ParseRegisterValue: the conversions of the C library (strtod, strtoull) are parameters.
- Debugger.Process.Destroy: detaching, continuing and killing are not modelled; what is stated is the memory the tracee is left with.
- Debugger.Breakpoints.EnableHwBreakpoint: the scan and the two register writes are methods of their own, not one loop with a return inside.
- `read_f32`, `write_f32` and their double counterparts, DWARF ids, and the rest of the command line: bit copies, constants and printing.
- The watchpoint slots: only their regset is loaded and saved.
