# An in-memory ELF linker: its relocation engine, proved

The linker loads ELF object files for arm64 and arm into its own memory, gives their sections and symbols addresses,
builds a global offset table (GOT) for each object, and then patches code and data in place. A branch that cannot reach
its target is led through a stub (a trampoline) that is made on demand behind the section. This project models that
engine on byte-addressed memory and proves what the patched memory *does*: small interpreters for the A64 and A32
instructions involved (Arm Architecture Reference Manual for ARMv8-A, section C6.2, and for ARMv7-A, section A8.8)
execute it.

`dafny verify dfyconfig.toml` checks everything.

## How the model is built

| Layer | Modules | From |
|---|---|---|
| Numbers and memory | `Bits`, `Masks`, `Words`, `Memory`, `Results`, `Types` | C integers, masks, bytes; `Types.h` |
| Processors | `Isa64`, `Isa32` | the two reference manuals |
| One relocation, as functions | `Arm64`, `Arm`, `PltArm64`, `PltArm`, `Target`, `Checks` | `elf/reloc/*.c`, `elf/plt/*.c`, `elf/target.h` |
| Stub tables and the pass, as functions | `Plt`, `Pass` | `elf/plt.c`, the relocation loops |
| Whole runs of the pass | `Runs`, `Budget`, `StubSlots`, `Again`, `Alike`, `Repeat`, `RepeatArm`, `EveryState` | the relocation loops |
| What relocated code and data do | `Calls64`, `Calls32`, `Pages64`, `DataWords` | the ELF relocation operations |
| Where the code falls short | `Limits` | concrete inputs |
| State that changes in place | `Sections`, `Objects`, `Got`, `GotFill`, `BinaryTree`, `Linker`, `Hash`, `Init`, `Kinds`, `Loading`, `Names`, `NameKeys` | the C files with loops and stores |
| Loading meets the pass | `Inputs`, `Addresses`, `Resolution`, `Symbols`, `Room`, `Resolve`, `Programs`, `OwnPages` | `Elf.c` |
| Whole files, alone and together | `ObjectCodes`, `LoadOrder`, `Linking`, `Files`, `Outcomes` | `Elf.c`, `Tests.c` |

Code that stores and loops in C is a class or a method here (sections with their stub lists, symbols, memory, the tree,
the GOT passes, the loaders); its contract equates the new state with a function of the old one, and the theorems are
about those functions. A failed assertion, `abort()` and a fault are one outcome, `Abort` (or `ok == false`).

The chain of results is this. `ObjectCodes.ObjectCode.Process` and `Resolve` are `processObject` and `resolveObject`;
`Linking.LoadAndResolve` and `Linking.LinkAll` call them for one object and for a list, as `Tests.c` does. Their contracts
speak of values: an `Inputs.Input` (headers, symbols, relocations and contents of a file, and the memory that the system
gives it), the table of addresses known, the system's symbols, and memory. From these follow the address and GOT slot of
every symbol, the relocations that are run (`Resolution.JobsFor`), the filled GOT, and success. For a well-formed object
with room for its stubs the end state is `Programs.IsLinked`: the pass ran, from freshly loaded sections that hold the
file's bytes, over memory with the filled GOT. It contains `Budget.Fresh` and `Runs.RunsTo`, the two hypotheses of every
theorem about the end of a pass. `Fresh` says that no stubs exist yet, that places do not overlap and lie inside their
sections, and that the sections, each with room for just the stubs its far branches need, lie apart;
`Programs.LoadedIsFresh` derives it from loading, and `Limits.FarCallArrives` is a concrete program of which both hold.
`Files` says what this means for the code and data of the file, in every later memory that leaves the object's pages alone
(`OwnPages.IsLinkedIn`), which `LinkAll` establishes for all objects in the final memory. What holds without room for the
stubs, in any memory layout, is in `StubSlots`.

Decisions of the code by relocation type, section type and flags, and symbol binding and type are stated twice: as the code
takes them, and in `Checks`, `Kinds` and `Symbols` as conditions on the numbers in the file, with proofs that both agree.
`Outcomes.ResolvesByFile` and `Symbols.AcceptableIff` say from these alone when an object can be resolved and loaded.

Where the code and its documentation disagree the model follows the code:

* `make_stub` places stub i at `stub_offset + 8 + STUB_SIZE * i` (elf/plt.c:48-49), while loading reserves `STUB_SIZE * n`
  bytes from `stub_offset` on (Elf.c:407-408 and 427). `StubSlots.ReservedIff` and `Room.StubsInPagesIff` say exactly when
  this is harmless; on the inputs of `Limits.OverrunFaults` and `Limits.OverrunCorrupts` it is not.
* On arm64 a stub is made for S and the addend A is added to the *stub's* address (elf/reloc/arm64.c:207-218).
  `Calls64.EntersStubIff`: the branch enters its stub if and only if A is 0; `Limits.AddendMissesStub` is an input with A = 4.
  On arm A is folded into the target first, so no such condition appears there.
* The arm64 comments give 2^32 as the reach of ADRP; the code checks 32 signed bits (elf/reloc/arm64.c:77 and 96).
* With implicit addends (arm REL tables) a second pass takes the first one's result for the addend: `RepeatArm.ArmTwiceIff`
  says exactly which relocations survive it, `Limits.SecondRunChanges` is one that does not. With explicit addends the pass
  is idempotent: `Again.SecondRun`.
* The place check allows P = start + size (elf/reloc/arm64.c:168). `Fresh` asks for what an object file promises, a whole
  place inside its section.

## Model

| member | source | states |
|---|---|---|
| Calls64.EveryCallArrives | elf/reloc/arm64.c:253-312 | End to end on A64: after a whole pass over freshly loaded sections, running the machine from any call or jump site arrives at S + A, in one step or in six through its stub, and changes only the link register and x16. No later patch or stub breaks an earlier one. Far branches need A = 0. |
| Calls64.EntersStubIff | elf/reloc/arm64.c:197-221 | At the end of a whole pass over freshly loaded sections, the first step of every far A64 branch lands on the stub of its symbol if and only if its addend is 0. |
| Calls32.EveryCallArrives | elf/reloc/arm.c:182-221 | End to end on A32, for implicit and explicit addends, all S, A, P modulo 2^32: B and BL arrive at S + A + 8 as the processor's PC bias makes it, directly or in four steps through the stub; only lr and r12 change. |
| Pages64.PageFormed | elf/reloc/arm64.c:68-84 | After the pass ADRP puts exactly the page of S + A (or of the GOT slot plus A) into its register, at any place within the asserted range. |
| Pages64.AddressFormed | elf/reloc/arm64.c:104-141 | An ADD relocated for the same address, run at any other place on a register with that page, yields exactly S + A. |
| Pages64.AddressAccessed | elf/reloc/arm64.c:114-141 | A load or store of 8 to 128 bits keeps opcode, registers and size, and on a register with the page addresses exactly S + A: the scaled immediate loses no bit. |
| Pages64.ShiftIsScale | elf/reloc/arm64.c:22-30 | The access size that the linker reads from the opcode bits is the size the architecture gives the instruction. |
| Programs.CallsArrive64 | elf/reloc/arm64.c:253-312 | The same in terms of the object file: when a loaded object is relinked, every B or BL that the file has at a word offset with a call relocation arrives at S + A; the word in memory, the alignment of place and stubs follow from loading. |
| Programs.CallsArrive32 | elf/reloc/arm.c:234-290 | The same for every A32 B or BL of the file, REL and RELA, without a condition on addends. |
| Programs.GotLoads64 | elf/reloc/arm64.c:230-246 | GOT access end to end: when a loaded object is relinked and as long as its sections and GOT are left alone, an ADRP and a 64-bit LDR of the file, at any two places, relocated to the slot of any symbol, load exactly the symbol's address. |
| Programs.GotLeads32 | elf/reloc/arm.c:222-225 | The same for arm: a GOT_PREL word leads from its place to the slot plus the addend, and the slot still holds the symbol's address. |
| Programs.GotStaysReady | Elf.c:311-325 | On both architectures the pass leaves every slot of the filled GOT as it was: each symbol that needs one has its address in it. |
| Resolve.GotAccess | elf/reloc/arm64.c:230-246 | The pass-level form: for a slot out of the pass's reach that holds an address, ADRP and LDR at any two places load that address. |
| Resolve.SlotAlignmentHolds | elf/reloc/arm64.c:124-128 | For any slot of any page-aligned GOT the assertion that its offset in the page is a multiple of 8 cannot fail. |
| Programs.GotOutOfReach | elf/got.c:49-61 | GOT slots in pages of their own lie outside everything the relocation pass may write. |
| Programs.GotSafeWhenRan | Elf.c:311-325 | For an object that was loaded, filled and relocated this holds of all its slots, on both architectures. |
| DataWords.DataAtEnd64 | elf/reloc/arm64.c:178-185 | After the pass 16, 32 and 64-bit data words read, as signed numbers, as S + A, or lead from their place to S + A modulo 2^64. |
| DataWords.DataAtEnd32 | elf/reloc/arm.c:172-176 | The same for arm: ABS32, REL32 and PREL31 as whole words, GOT_PREL to the slot, with implicit or explicit addend. |
| Pass.RelocateKeeps | elf/reloc/arm64.c:279-310 | One relocation keeps the stub table sound, only appends to it, leaves at its place the encoding of its own value, and changes nothing outside the place and the new stub. |
| Runs.RunTables | elf/plt.c:42-66 | Over any run: every section's stub table stays sound and only grows, tables of sections that are not relocated are untouched, and the mapped addresses stay the same. |
| Runs.RunPlaces | elf/reloc/arm64.c:253-312 | When the run ends, every place holds the encoding, over its original contents, of that relocation's own value. |
| Budget.FrameAtEnd | elf/reloc/arm64.c:253-312 | A byte outside all places and all stubs made is unchanged by the whole pass. |
| Budget.OutsideKept | elf/reloc/arm64.c:292-296 | Everything outside the regions of relocated sections, sections of kind OTHER included, is unchanged. |
| Budget.StubsMade | elf/reloc/arm64.c:205-212 | A run makes exactly one stub for each distinct target out of reach, none for anything else, and never more than the count made before loading. |
| Budget.WithinBudget | elf/plt.c:11-26 | The distinct far targets of a section never outnumber its relocations that may need a stub. |
| Objects.BudgetAgrees | elf/plt.c:11-26 | The count over the relocation tables is the budget of the flat run that the pass performs. |
| Budget.StubExtents | elf/plt.c:42-66 | Stubs lie behind the section bytes in [stub_offset + 8, stub_offset + 8 + STUB_SIZE * n), in order and disjoint. |
| StubSlots.TableAnyway | elf/plt.c:41-66 | In any memory layout, sound or not, a run leaves the stubs of a section in their slots, with distinct targets, no more than counted; with explicit addends exactly one for each far target that had none. |
| StubSlots.ReservedIff | Elf.c:407-455 | After any successful pass, in any layout, all stubs lie in the reserved STUB_SIZE * n bytes if and only if none or fewer than n were made; with explicit addends the number made is that of the distinct far targets. |
| Room.StubsInPagesIff | Elf.c:426-455 | After any successful pass, whatever lies behind the section, its stubs lie in the pages mapped for it if and only if none was made, fewer than n were, or 8 bytes were to spare in the last page; with explicit addends the number made is that of the distinct far targets. |
| Limits.OverrunFaults | elf/plt.c:48-51 | A concrete section whose bytes and reserved stub space fill one page, with nothing mapped behind it: its only far call makes the pass fault. |
| Limits.OverrunCorrupts | elf/plt.c:48-51 | The same section with another section in the next page: the pass succeeds, and the end of the stub has overwritten the first byte of that section. |
| Limits.AddendMissesStub | elf/reloc/arm64.c:205-221 | A concrete far call with addend 4 that relocates without complaint and then jumps 4 bytes behind its stub's entry. |
| Limits.FarCallArrives | elf/reloc/arm64.c:192-222 | The same code with addend 0: the hypotheses of the theorem about calls hold of it, and executing it arrives at the far symbol through its stub. |
| Repeat.SecondRunIff | elf/reloc/arm.c:234-290 | A second run succeeds and changes nothing if and only if each of its relocations, by itself, changes nothing in the state the first run left: no later place can undo an earlier change. |
| RepeatArm.DataIdleIff | elf/reloc/arm.c:172-176 | A relocated data word with implicit addend is left alone by a second relocation if and only if S (ABS32), S - P (REL32, PREL31) or GOT_S - P (GOT_PREL) is 0 modulo 2^32. |
| RepeatArm.CallIdleIff | elf/reloc/arm.c:182-221 | Every branch relocation with implicit addend that the pass has run, whatever its word (BLX included) and destination, is left alone by a second relocation if and only if: it needed a stub and its addend was the offset of that stub; or it needed none and S is P or less than a word behind it, or, its new addend being out of reach, there is a stub for that target less than a word behind its destination. |
| RepeatArm.ArmTwiceIff | elf/reloc/arm.c:234-290 | A second run over arm tables succeeds and changes nothing if and only if every relocation with implicit addend meets its condition above (ABS32 never does); those with explicit addends always survive. No condition on the words, places or targets. |
| Limits.SecondRunChanges | elf/reloc/arm.c:255-259 | A concrete arm call with implicit addend for which the second run fails or changes something. |
| EveryState.TablesAlwaysOk | elf/plt.c:28-66 | In the state after any number of relocations: stub i sits at its slot, targets are pairwise distinct, code is intact, and there are no more stubs than relocations counted. |
| EveryState.StubsJump64 | elf/plt/arm64.c:84-107 | In every such state, running any arm64 stub with any registers jumps to its recorded target and changes x16 only. |
| EveryState.StubsJump32 | elf/plt/arm.c:77-87 | In every such state, running any arm stub with a target in ARM state jumps there and changes r12 only. |
| PltArm64.StubJumps | elf/plt/arm64.c:40-110 | The five words MOVZ, three MOVK, BR, executed anywhere in memory, load the 64-bit target half word by half word and jump to it. |
| PltArm.StubJumps | elf/plt/arm.c:48-90 | The three words MOVW, MOVT, BX, executed anywhere, jump to the 32-bit target. |
| Plt.FoundIffTarget | elf/plt.c:28-39 | A stub is found if and only if some stub has that target, and what is found is the address of one that has. |
| Plt.FindInLonger | elf/plt.c:28-39 | Appending stubs never changes an answer. |
| Plt.MakeStubKeeps | elf/plt.c:42-66 | Making a stub for a target without one keeps the table invariant, earlier code included. |
| Again.SecondRun | elf/reloc/arm64.c:262-312 | The pass over explicit addends is idempotent: run again, it leaves memory and all stub tables exactly as they were. |
| Again.SucceedsIff | elf/reloc/arm64.c:159-250 | Over compact sections, with no addend left behind a stub, a pass succeeds if and only if the code accepts every relocation on the original memory: making and reaching stubs never fails. Acceptance is a condition on type code, place, symbol address, slot, addend and original word, written out by type. |
| Again.PassesIff | elf/reloc/arm64.c:43-250 | For one relocation in memory, on both architectures, that condition is exactly what the two steps of the code check: it has a symbol, the place is mapped and inside, and the type accepts the values. |
| Checks.Accepted64 | elf/reloc/arm64.c:43-250 | On arm64: 64-bit data and branches always pass, 32 and 16-bit data in their signed range, ADRP with a page distance of 32 bits, ADD and byte accesses without alignment, wider accesses at multiples of their size, all of these with low bits that are 0 or an instruction of the size of the type, GOT types with a slot; no other type passes. |
| Checks.Accepted32 | elf/reloc/arm.c:19-230 | On arm: ABS32, REL32, PREL31, CALL and JUMP24 pass for every nonzero symbol, GOT_PREL with a slot, an implicit branch addend unless the word is a BLX to a halfword; no other type passes. |
| Again.StubInReach | elf/reloc/arm64.c:217-219 | In a region of at most 2^27 bytes (arm: 2^25) every stub is in branch range of every place. |
| Room.CompactReachable | Elf.c:424-455 | Sections with size + stub space + 8 within that bound, in mapped pages with room, are such regions for all their stubs. |
| Arm64.BranchGoesTo | elf/reloc/arm64.c:86-92 | The patched A64 branch keeps its opcode and goes to P + V for every 4-aligned V that the range check accepts. |
| Arm64.AdrpYields | elf/reloc/arm64.c:68-84 | The patched ADRP keeps opcode and register, and its split immediate yields the page of P plus V. |
| Arm64.Imm12Placed | elf/reloc/arm64.c:137-141 | The patched 12-bit immediate is the shifted value; all other bits stay. |
| Arm.DecodeEncoded | elf/reloc/arm.c:41-43 | Over every word that decodes, decoding what was encoded gives back each offset that the range check accepts, down to a multiple of 4. |
| Arm.EncodeDecoded | elf/reloc/arm.c:89-95 | Encoding what was decoded leaves every word that decodes as it was. |
| Arm.BranchGoesTo | elf/reloc/arm.c:90-93 | The patched arm branch keeps its top byte and goes to P + 8 + V. |
| Target.EncodeAgain | elf/reloc/arm64.c:43-147 | Patching a patched place with the same value passes the same checks and changes nothing, for every relocation of both architectures. |
| Sections.Section.Find | elf/plt.c:28-39 | The loop answers as the specification of lookup does. |
| Sections.Section.Make | elf/plt.c:41-66 | The stores, the appended stub and the count together are one step of the stub table specification. |
| Sections.Section.Addend | elf/reloc/arm64.c:158-250 | Computing a value, with the stub it may make, is the specified step on memory and stub list. |
| Sections.Section.RelocateOne | elf/reloc/arm64.c:295-310 | One round of the loop refines the specified relocation; it fails exactly when that aborts. |
| Sections.WriteStub64 | elf/plt/arm64.c:94-107 | Five word stores leave exactly the stub's bytes. |
| Sections.WriteStub32 | elf/plt/arm.c:81-87 | Three word stores leave exactly the stub's bytes. |
| Objects.FindSymbol | elf/reloc/util.c:25-40 | The walk over the symbol tables finds the symbol of the first table with the index, if it has that many. |
| Objects.RelocateTables | elf/reloc/arm.c:237-288 | The nested loops over tables and relocations are the run of the flat list of relocations of loaded sections, in order; they fail exactly when that run aborts. |
| Objects.RelocateObjectCode | elf/reloc/arm.c:234-290 | REL tables first, then RELA tables, as one run. |
| Objects.NumberOfStubsForSection | elf/plt.c:11-26 | The nested counting loops return the number of relocations of the section that may need a stub. |
| Checks.CountedIff | elf/plt/arm64.c:17-36 | On arm64 exactly the types are counted of which some relocation goes through a stub. |
| Checks.CountedCodes | elf/plt/arm.c:21-46 | The types counted, as numbers: two on arm64, six on arm. |
| Inputs.BudgetIs | elf/plt.c:11-26 | The count is exact: it is the size of the set of branch relocations that the file has for the section. |
| Got.CountSlots | elf/got.c:36-47 | The count over the section headers is the number of global and weak symbols of all symbol sections. |
| Got.AssignTables | elf/got.c:60-68 | The second pass lays slots out in the order of the symbols over all tables. |
| Got.MakeGot | elf/got.c:26-71 | Counting over headers and assigning over tables agree: with the tables built from the headers, the size is exactly the slots assigned; it fails only if the system has no memory. |
| GotFill.SlotsApart | elf/got.c:60-68 | Slots of different symbols are word-disjoint, in order, and inside the table. |
| GotFill.SlotTaken | elf/got.c:60-68 | The slots tile the table: each one counted belongs to a symbol that needs it. |
| GotFill.SlotInside | elf/got.c:12-24 | A symbol has a slot in the table if it is global or weak, and none otherwise. |
| GotFill.FillOne | elf/got.c:79-108 | One global or weak symbol is resolved, globals first, only if it has no address and is weak or without type; it fails exactly if there is no address, no slot or no memory at the slot. |
| GotFill.FillAllHolds | elf/got.c:107 | No slot write clobbers an earlier one: at the end every slot holds its own symbol's address. |
| GotFill.FillAllFrame | elf/got.c:107 | A byte in no slot is unchanged. |
| GotFill.FillGot | elf/got.c:73-112 | The whole third pass: it succeeds if and only if every symbol that needs a slot can be resolved and stored; then each has the address it resolves to and finds it in its slot, and other symbols are unchanged. |
| GotFill.VerifyGot | elf/got.c:113-127 | The fourth pass succeeds if and only if all slots hold their symbols' addresses and all addresses fit 48 bits. |
| Resolve.ResolveObject | Elf.c:311-325 | Fill, verify, relocate, in this order: on success the pass ran over memory with the filled and verified GOT; on failure which of the three refused. |
| ObjectCodes.ObjectCode.Process | Elf.c:237-257 | Loading succeeds if and only if sections can be loaded, symbols lie in sections that are there, the GOT gets memory if needed and no exported hash is known; then the addresses known globally are the old ones with exactly its exports, the sections hold the file's bytes in their own pages, the GOT is where the system gave it, the names written are the exports', and only pages asked for are added to memory. |
| ObjectCodes.ObjectCode.Resolve | Elf.c:311-325 | Resolving a processed object succeeds if and only if all symbols that need slots are found, no address has more than 48 bits and no relocation fails over the filled GOT: a condition on the file, the addresses known, the system and memory. Then symbols have their addresses, and the pass has run the relocations of the file. A well-formed object with room for its stubs is linked, with its GOT in order, and only pages asked for in loading were written. |
| Programs.ResolvesIff | Elf.c:311-325 | For a well-formed object whose sections are compact, with no addend left behind a stub, that condition comes down to: all symbols are found at addresses of at most 48 bits, and the code accepts each relocation. |
| Outcomes.ResolvesByFile | Elf.c:311-325 | The same read off the file: each relocation is accepted for the address and slot of the symbol it names and the word that the file has at its place. |
| Symbols.FoundIffAddresses | elf/got.c:79-106 | All symbols are found if and only if every global or weak one has an address of its own, or is weak or without type and known under the hash of its name or to the system. |
| Resolution.FillableIff | elf/got.c:79-106 | In the GOT that loading gave, filling succeeds if and only if every symbol that needs a slot is found, by the file's own values; the other failure branches are dead. |
| Resolution.VerifiedIff | elf/got.c:113-127 | After filling, verification succeeds if and only if no address has more than 48 bits; the slot assertion always holds. |
| Resolution.JobsAgree | elf/reloc/util.c:25-40 | The pass over the linker's symbol and relocation tables is the run of the file's relocations, with the address and slot of each symbol computed from the file. |
| Programs.JobsCounted | elf/plt.c:11-26 | For every file these relocations are of loaded sections, and as many of each may need stubs as were counted before loading. |
| Linking.LoadAndResolve | Elf.c:237-325 | Processing and resolving succeed if and only if the object can be loaded beside the addresses known and then resolved, as its file, the system and memory decide; then its symbols have their addresses and the pass has run the relocations of its file over the filled GOT. A well-formed object with room for its stubs ends linked, and all other memory is unchanged. |
| Inputs.LoadedUnique | Elf.c:395-551 | The file and the pages that the system gives decide every byte of memory after loading. |
| Alike.RunAlike | elf/reloc/arm64.c:262-312 | Two passes over memories that agree on the regions of the sections both fail, or make the same stubs and the same changes. |
| OwnPages.ResolvesElsewhere | Tests.c:67-79 | Whether a well-formed object can be resolved, its stubs and its pages afterwards depend on its own pages only, whatever other objects have done to theirs. |
| OwnPages.LinkedWhenResolved | Elf.c:311-325 | A well-formed object that can be resolved ends linked, from values alone, and changes nothing outside its pages. |
| Linking.ResolveAll | Tests.c:77-79 | Resolving a list of processed, well-formed objects succeeds if and only if each by itself could be resolved in the memory before; then each has the symbols, stubs and pages it would have by itself, and other memory is unchanged. |
| Linking.LinkAll | Tests.c:67-79 | The two loops together: they succeed if and only if the objects can be loaded together and then each can be resolved by itself; memory, addresses and every object end as that says, and every object is linked in the final memory. |
| Linking.AreResolvedUnique | Tests.c:77-79 | In whatever order they are resolved, the objects decide every byte of the memory afterwards. |
| Linking.LinkOrderDoesNotMatter | Tests.c:67-79 | For any two orders of the same objects at the same addresses, linked from nothing: both fail, or addresses and memory are the same, relocated code, GOTs and stubs included. |
| Files.EveryRelocationRuns | elf/reloc/arm64.c:262-312 | Every relocation of the file for a section that is relocated is run by the pass, with its own place, type, symbol and addend. |
| Files.EveryJobIsOne | elf/reloc/arm64.c:262-312 | The pass runs nothing else. |
| Files.JobsInOrder | elf/reloc/arm.c:234-290 | Relocations are run in the order of the file, those with implicit addends before those with explicit ones. |
| Files.CallReaches64 | elf/reloc/arm64.c:192-222 | A B or BL of a linked file that names symbol e, executed in any memory that keeps the object's pages, reaches the address of e plus the addend in at most six steps, and changes only the link register and x16. Out of branch range this takes the addend 0. |
| Files.CallReaches32 | elf/reloc/arm.c:182-221 | The same for A32 in at most four steps, for REL and RELA and all addends. |
| Files.GotReaches64 | elf/reloc/arm64.c:230-246 | An ADRP and a 64-bit LDR of a linked file for the GOT slot of e, executed in any memory that keeps the object's pages, load the address of e. |
| Files.GotReaches32 | elf/reloc/arm.c:222-225 | On arm a GOT_PREL word of the file leads to the slot of e plus the addend in every such memory, and the slot holds the address of e. |
| Files.GotStandsReady | elf/got.c:73-112 | In every such memory all slots hold the addresses of their symbols. |
| Files.DataReaches64 | elf/reloc/arm64.c:178-185 | In every such memory data words of the file read as the address of e plus the addend, or lead there. |
| Files.DataReaches32 | elf/reloc/arm.c:172-176 | The same for arm: ABS32, REL32 and PREL31 as whole words, with implicit or explicit addend. |
| Files.ExportKnown | Elf.c:713-731 | After loading a list of objects every symbol that one of them exports is known under its hash at its section's start plus its value. |
| Files.ImportFindsExport | elf/got.c:86-93 | So the address of an undefined or weak symbol of one file, a weak one of any type, is that of the symbol of the same name that another one exports. |
| Files.CallReachesOther64 | Tests.c:67-103 | After a list of files has been linked, an A64 call from one to a symbol that another exports, named by an undefined or weak symbol, reaches the definition there. |
| Files.CallReachesOther32 | Tests.c:67-103 | The same for A32. |
| Files.CallReachesOwn64 | elf/reloc/arm64.c:192-222 | A call to a symbol that the file itself defines, static functions included, reaches section start plus value plus addend. |
| Files.CallReachesOwn32 | elf/reloc/arm.c:182-221 | The same for A32. |
| Files.DataReachesOwn64 | elf/reloc/arm64.c:178-185 | Data words for such a symbol read as section start plus value plus addend, or lead there. |
| Programs.RelinkedWhenRan | Elf.c:311-325 | A loaded, filled and relocated object satisfies the hypotheses of all theorems about the pass, file words and stub alignment included. |
| Programs.RelocatesIff | elf/reloc/arm64.c:159-250 | For a loaded object whose sections are compact, the pass succeeds if and only if the code accepts every relocation on the memory with the filled GOT: stub memory is mapped and in reach. |
| Programs.OwnPagesOnly | Elf.c:311-325 | Resolving an object writes only to the pages that loading it asked for. |
| Programs.CallsStillArrive64 | Tests.c:67-79 | A64 calls of an object, into other objects too, still arrive in every later memory that keeps its sections and stubs. |
| Programs.CallsStillArrive32 | Tests.c:67-79 | The same for A32. |
| ObjectCodes.ObjectCode.StaysProcessed | Tests.c:67-79 | An object that was loaded stays ready to be resolved while others are loaded and resolved. |
| Init.OcInit | Elf.c:121-235 | Symbol tables hold the symbols of all symbol sections, in order, under the right index, unresolved and with their hashes; relocation tables are those of the REL and RELA sections. |
| Loading.LoadSection | Elf.c:399-535 | A section loads if and only if its type and flags are supported, only text has stubs, stub space is word-aligned and the system has memory; by type and flags, it is then where the system answered, at the file's image or nowhere, with the bytes of the file or zeros, and only its pages are added. |
| Loading.LoadSections | Elf.c:395-551 | The loop loads all sections or fails on one that cannot be, by types and flags: after success allocated PROGBITS sections hold the bytes of the file and writable allocated NOBITS sections zeros, where the system answered, and all others stay in the image; older memory is unchanged. |
| Kinds.KindIs | Elf.c:336-361 | In terms of type and the three flags: PROGBITS with ALLOC is loaded unless WRITE and EXECINSTR are both set, NOBITS with ALLOC only with just WRITE besides; the other allocated sections of these types are refused, and everything else is left in the image. |
| Loading.LoadableIff | Elf.c:395-551 | What loading asserts of a section, and the memory it asks for, in the same terms. |
| Inputs.SectionLoadsIff | Elf.c:395-551 | For a section of a file, with the number of its branch relocations for the stubs counted. |
| Inputs.DataLoads | Elf.c:407-412 | A section from the file without branches among its relocations has no stub counted, and loads whenever the system has memory. |
| Inputs.SectionStart | Elf.c:413-520 | Where each section of a file is, by its type and flags. |
| Inputs.InfoKinds | elf/reloc/arm64.c:255-258 | Relocations are run for exactly the sections that are loaded by type and flags. |
| Room.LayoutWhenRoomy | Elf.c:427-455 | Sections in pages of their own, with room for their far targets, lie apart together with their stubs. |
| Programs.LoadedIsFresh | Elf.c:395-551 | Loading establishes the hypothesis of all theorems about the pass, whatever memory holds by then. |
| Names.GetNames | Elf.c:656-740 | It succeeds if and only if every symbol's section is there and no exported hash occurs twice; then symbols have the addresses that binding, type, section index and value give, the global table is the old one with exactly the exports entered, and the array of names, never overrun, lists them in order. |
| Names.ExportedIff | Elf.c:688-727 | With section symbols local, what the branches export is: strong global symbols of regular type in ordinary sections at an address that is not 0. |
| Names.OwnAddressIs | Elf.c:693-714 | In numbers: a section symbol has its section's start; a local or global one without type, of an object or a function, in a section below 0xff00, has start plus value; all others have no address; common symbols and missing sections fail. |
| Names.ExportIff | Elf.c:713-731 | In numbers: what is exported. |
| Symbols.AddressIs | elf/got.c:79-106 | The address of every symbol once the object is resolved: its own if it has one; else, for a weak symbol of any type or section and for a strong one without type, what is found elsewhere; else none. |
| Symbols.DefinedAddress | Elf.c:701-713 | A strong symbol of a section that is there has section start plus value, static functions and data included. |
| Symbols.SectionAddress | Elf.c:695-696 | The symbol of a section has the section's start. |
| Symbols.ImportedAddress | elf/got.c:82-93 | A weak symbol, and an undefined one, gets the global address under the hash of its name, and without one the system's. |
| Symbols.NeverLookedUp | elf/got.c:82-99 | A strong symbol with a type, and a local one, is never looked for. |
| Symbols.SlotIff | elf/got.c:12-24 | Exactly the global and weak symbols have slots. |
| Symbols.AcceptableIff | Elf.c:237-257 | What loading demands of an object alone, in terms of the headers, symbols and relocations of its file. |
| Names.ExportsExactly | Elf.c:713-731 | A symbol is exported if and only if it is one of these, under its own hash; there are no more exports than symbols. |
| Names.WeakNever | Elf.c:693-697 | Weak symbols are never entered. |
| BinaryTree.PutRefines | BinaryTree.c:16-37 | On ordered trees insertion of a fresh key is map update. |
| BinaryTree.PutOrdered | BinaryTree.c:16-37 | It keeps the search order and adds just the new node. |
| BinaryTree.Tree.Insert | BinaryTree.c:4-38 | Insertion on the heap keeps the links a finite ordered tree and updates the map; it aborts exactly on a key that is there. |
| BinaryTree.Tree.Lookup | BinaryTree.c:40-50 | Lookup terminates and agrees with the map on every key. |
| BinaryTree.InOrderAscends | Linker.c:81-88 | The traversal order of an ordered tree has strictly ascending keys. |
| BinaryTree.Walk | Linker.c:81-88 | The recursive walk visits the nodes in that order. |
| Linker.Linker.Insert | Linker.c:12-31 | A strong symbol is entered under its hash; a weak one is bound to a system symbol first. It aborts exactly on a hash that is there and on a weak symbol without address or system symbol. |
| Linker.Linker.LookupSymbol | Linker.c:62-73 | The address is the global symbol's under the name's hash, and the system's only on a miss. |
| Linker.EnterAllIs | Elf.c:713-731 | Entering a list of exports succeeds exactly without duplicate keys and then yields exactly the old and the entered pairs. |
| LoadOrder.ProcessAll | Elf.c:285-309 | Loading a list of objects succeeds, and yields the global addresses, exactly as the outcome computed from their headers and memory says; memory holds what each file puts there and nothing else new, every object ends ready to be resolved, and no two share sections or symbols. |
| LoadOrder.AreLoadedUnique | Elf.c:285-309 | In whatever order they are loaded, the objects decide every byte of the memory afterwards. |
| LoadOrder.OutcomeAllIs | Elf.c:237-257 | That outcome: objects load if and only if each is acceptable by itself and no hash is exported twice, and the addresses are those of all exports. |
| LoadOrder.LoadOrderDoesNotMatter | Elf.c:237-257 | For any two orders of the same objects at the same addresses: loading fails in both, or the same global addresses are known afterwards. |
| LoadOrder.SameAnswers | Linker.c:62-73 | So every lookup of any name gives the same answer in both. |
| NameKeys.KeyedIff | Elf.c:713-731 | Loading an object keeps all symbols under the hashes of their names if and only if every symbol it exports has a name; one without is entered under 0. |
| Linker.LooksUpNamesIff | Linker.c:45-60 | Lookup compares hashes only: in a table of symbols under the hashes of their names it answers for names, without wrong hits or misses, if and only if the name looked up collides with no other. |
| Linker.LookupReturns | Linker.c:62-73 | Without a collision a lookup returns the address of the symbol of that name, or the system's if there is none; with a collision the address of a symbol of another name. |
| Hash.ComputeHash | Hash.c:19-27 | The loop computes the closed polynomial form modulo 2^64. |
| Hash.ClosedForm | Hash.c:19-27 | Rounds over a string of any length from any state are the polynomial in the odd factor. |
| Hash.OfOneByte | Hash.c:19-27 | The two numbers of the code: the hash of each single byte. |
| Hash.MixBijective | Hash.c:23-24 | Each round with a fixed byte is a bijection on the 64-bit state, and with a fixed state it tells all bytes apart. |
| Hash.OneByteNeverCollides | Hash.c:19-27 | Two strings of equal length that differ in exactly one byte never collide. |

## Left out

- ObjectCodes.ObjectCode.Process: `mmap` answers are parameters, assumed fresh, page-aligned, not null, disjoint and below the address limit; section symbols are assumed local, as ELF demands.
- LoadOrder.LoadOrderDoesNotMatter: each object gets the same memory in both orders; addresses that the system chooses anew are other inputs.
- Linking.ResolveAll: every object must be well-formed and have room for its stubs; without room one object may overwrite another, as in `Limits.OverrunCorrupts`, and then nothing is promised. A run that stops at an object that cannot be resolved leaves those after it as they were, which is not stated.
- Linking.LinkOrderDoesNotMatter: as for loading, each object gets the same memory in both orders.
- ObjectCodes.ObjectCode.Resolve: addresses of symbols are assumed to fit a machine word; the `mprotect` calls that follow are not part of the model.
- Linker.Linker.LookupSymbol: `dlsym` is an arbitrary fixed function from names to addresses, 0 for unknown names.
- Linker.Linker.Insert: the path for weak symbols is modelled, though `get_names` never reaches it.
- Loading.LoadSections: sections are smaller than 2^32 bytes, so the casts of sizes to `unsigned` are identities; names of sections and the bookkeeping of mapped ranges are left out.
- Init.OcInit: section headers, symbols and relocations arrive decoded; the byte layout of ELF structures and string tables, and their parsing, are not modelled.
- Calls32.EveryCallArrives: every condition but 1111 counts as holding (flags are not modelled); BLX and Thumb, for which the code fixes T at 0, leave the modelled state.
- DataWords.DataAtEnd32: PREL31 is a whole word, as in the code, which marks the 31-bit form as unfinished; ABS8 and ABS16 decode but are refused later and have no theorem.
- Pages64.AddressAccessed: the opcode tests of the code read 64 bits at the place and mask 32 of them; the model reads the instruction word. For SP as base (register 31) there is no theorem.
- Budget.StubsMade: the list of stubs is a sequence; the links of its cells and their allocation are not modelled.
- Symbol tables and relocation tables are sequences rather than linked lists; appending at the tail is concatenation.
- Low-bit masks such as `& 0xfff` or `& 0x3` are remainders in the model; the masks that build instructions are modelled as such.
- arm64 REL tables abort in the code and so in the model; there is no further theorem about them.
- TLS, MOVW and Thumb relocations are never computed by the code.
- `Ar.c`, `loadObject`, `loadArchive`, file mapping: foreign calls and parsing without a writer to invert.
- `debug.c`, `elf/luts.c`, logging, and `Tests.c` but for its loops that load and resolve lists of objects: no behaviour that others rely on.
- `jenkins_one_at_a_time_hash` is never selected; `sign_extend64`, `free_stubs` and `free_got` have no callers.
