# rebench: a verified model

rebench lifts functions out of a compiled AArch64 library as relocatable assembly, and loads two
prelinked libraries at fixed addresses. This project models the programs that do so and proves
what they are relied on for.

**The translator** (`refine.py`, then `post.py`). refine.py turns an objdump listing into labelled
assembly and leaves every adrp page as `?page`; post.py pairs each adrp with the first use of its
register and rewrites both through a label. The pieces:

- `Numerals.dfy`: hexadecimal and decimal text. `Assembly.dfy`: tokenised lines, one instruction
  type for the input and the output; a label is stored as its digits, without the `L`, and the
  spelling of a register (`x8`, `w8`, `s3`) is kept beside the register it names.
- `Refine.dfy`: the driver loop, `process_insts`, `import_sym`, as a class with their state.
- `Post.dfy`: `grep adrp -A 7` and the dictionary scan, proved to find exactly the pairs of a
  declarative description. `Sed.dfy`: the rules, applied in place to an array of lines one after
  another, proved equal to one simultaneous rewrite in any order. `Patterns.dfy`: which lines of a
  file change, and into what, said without the functions that stand for the regular expressions.
- `Machine.dfy`: a small machine that runs old and new code. Registers hold data, bare pages or
  full addresses; where labels lie and what the unmodelled instructions do are parameters. A
  branch of the old code goes to the address it names, a branch of the new code to the label or
  symbol it names; only a branch through the PLT is bound by name on both sides.
- `Simulation.dfy`, `Preservation.dfy`: every run, with branches, of a listing that has a dataflow
  certificate is reproduced by its translation under every placement of the labels. `Calls.dfy`:
  so is every run that goes on through calls and returns inside the listing.
- `Ordinary.dfy`: what those theorems ask of the instructions that are not modelled is met by
  stores, loads, pointer arithmetic, comparisons and computation, under every placement that moves
  objects as wholes and keeps addresses apart.
- `Exactness.dfy`: post.py does no liveness analysis. On straight-line code, up to and including
  the return, its result survives being moved exactly when every adrp is used tidily (`Tidy`), a
  condition read off the listing; this holds at each single distance that is no multiple of the
  page size. `WholePages.dfy`: at the other distances it is enough that every adrp has a partner.
- `Witness.dfy`: concrete listings on which the scripts go wrong, and a function and a loop that
  are reproduced wherever they are put. `Calling.dfy`: one that calls a function of its own.
  `Rearranged.dfy`: one with stores, at the placement of ututna/600_fft.inc, which is no shift.
- `Pipeline.dfy`: one `process` command of the build script.

What the theorems about runs take as given is named in their preconditions. `Readable` is what
objdump guarantees of a listing: distinct addresses, every header in front of the instruction at
its address, canonical target texts, page-aligned adrp pages. `WellFormed` adds that every branch
to a bare symbol or through the PLT may be printed by name (`NameReaches`), which is exactly when
such a branch is preserved (`SymbolBranchPreservedExactly`), and that control never falls off one
printed line into a gap (`FallsToNext`). `Placement`: the listing runs where it was linked; an
object moves as a whole; what an instruction that is not modelled does to old values and memory it
does to corresponding ones, where it does not fault (`OrdinaryIsEquivariant` is a model of this).
`KeepsLines`, for calls: a return address moves with its call, and nothing else is put on a line, as
under every shift (`ShiftKeepsLines`).
`LineOk` is the condition on register use: a paired use still finds the page its pair
was computed from, nothing else reads a bare page, and a `[reg]` load reads one only if its label
is placed on a page boundary.

**The loader** (`ututna/reloc.c`) and **its table generator** (`reloc`): `Loader.dfy` works in place
on a byte array and states the final image byte by byte; `RelocTable.dfy` composes the generated
table with the loader and compares each slot with the ABI; `Masks.dfy` shows that the page rounding
is that of the masks on 64-bit words.

**Counters and memory**: `Perf.dfy` proves that the header `perf_config` accumulates and the rows
`perf_print` emits agree; `Heap.dfy` covers the placement of the break, the grants of `s_mmap`
and the bootstrap buffer; `Gemm.dfy` the three slots that remember the gemm allocations.

Where the code falls short of what one would want, the exact condition is proved, and a lemma
gives an input that misses it:

- a branch to `<sym>` is printed as a branch to a name; it is preserved exactly when the first
  header with the printed name stands at the target, or neither is in the listing
  (`SymbolBranchPreservedExactly`). An alias, a redirected function whose code is in the listing
  and a second header of the same name go astray (`SymbolBranchesGoAstray`); the first of these is
  what the edit at ututna/ututna:85 repairs by renaming the header (`PrintedNameMustMatch`);
- redirection merges two symbols exactly when one is called what the other becomes
  (`ImportsCollideExactly`), as `memcpy` and `s_memcpy` (`RedirectionMerges`);
- a branch label is defined only if the copied target text is canonical
  (`BranchLabelDefinedExactly`), so not for a target `08` (`LeadingZeroLosesLabel`);
- an adrp stays unresolved exactly when no use that the patterns know follows it in time
  (`UnresolvedExactlyAbandoned`); they do not know `w` and `s` registers
  (`NarrowLoadStaysUnresolved`);
- the pairing is harmless exactly when every adrp is used tidily (`ReproducedExactlyWhenTidy`): a
  second read of the page breaks the run (`SecondReadBreaksRun`), and so does a `[reg]` load
  (`BareReadBreaksRun`), unless its label is page-aligned (`BareUseNeedsAlignment`). At a distance
  that is a multiple of the page size both are harmless, and only an adrp without a partner is
  not (`ReproducedAtPageDistanceExactlyWhenPaired`, `SecondReadRunsAtPages`);
- the `reloc` script drops symbol addends, so a symbol slot is right exactly when the addend is
  zero (`GeneratedAndLoaded`, `AddendIsLost`), and an offset of zero ends the table
  (`WalkedToTheEnd`, `ZeroOffsetEndsTable`);
- `s_mmap` passes its length through an int, so the break covers a grant, and the grant is safe
  from what is granted next, exactly when the length is below 2^31 (`CoveredExactlyWhenSmall`,
  `ApartExactlyWhenSmall`, `LargeRequestMovesBreakDown`).

## Model

| member | source | states |
|---|---|---|
| Numerals.ReprintExactlyCanonical | refine.py:52 | parsing an address and printing it with `{:x}` gives the same text exactly when the text is canonical |
| Numerals.LabelsAgree | refine.py:69-70 | a label with a copied target text and a label printed from a number are the same label exactly when the text is canonical and denotes the number |
| Numerals.PrintsLowerCase | refine.py:59 | a label is printed in lower case, the most significant digit first |
| Refine.FirstUsesInOrder | refine.py:41-43 | `symbols` has no duplicates, holds every imported name, and orders them by first use |
| Refine.Translator.ImportSym | refine.py:41-48 | returns the redirected name and records the symbol once |
| Refine.Translator.ProcessInst | refine.py:50-130 | prints one line and imports its symbol, or refuses and changes nothing |
| Refine.Translator.ProcessEntry | refine.py:138-179 | the effect of one line of the listing on output, symbols and local symbols |
| Refine.Translator.Run | refine.py:132-185 | stops at the first unrecognised line; output and symbol lists are exactly those of the lines before it |
| Refine.TranslatedLineByLine | refine.py:139-179 | an accepted listing is translated line by line in order; only noise and continuation headers vanish |
| Refine.ImportsCollideExactly | refine.py:44-48 | redirection merges two symbols if and only if one of them is already called what the other becomes |
| Refine.RedirectionMerges | refine.py:41-48 | calls of `memcpy` and of `s_memcpy` come out as calls of one symbol |
| Refine.NoDirectCalls | refine.py:55-65 | no branch in the output names an unsafe or a replaced function directly |
| Refine.BranchesAreRedirected | refine.py:41-65 | in every accepted listing a branch to an unsafe function, directly or through the PLT, comes out as a branch to `o_` and its name, one to a replaced function as `s_` and its name, any other unchanged |
| Refine.UnsafeIsNotReplaced | refine.py:9-27 | no call of an unsafe function comes out under the name of a replacement |
| Refine.StubsCoverLists | ututna/stub.s:16-54 | the two lists are the `o_` and `s_` stubs, and five names that have no stub |
| Refine.RefusedExactly | refine.py:55-127 | which operands of a listing are refused |
| Refine.OutputIsPrintable | refine.py:55-130 | no accepted line comes out with an address that should have become a name or a label, nor with `@` or `+0x` in other operands |
| Refine.LocalSymbolsArePrinted | refine.py:151-161 | the local symbols are the symbols of the printed headers |
| Refine.SymbolsAreBranchedTo | refine.py:41-65 | the imported symbols are, before redirection, the names the output branches to |
| Post.Scanner.ReadLine | post.py:25-66 | one line of the read loop: the dictionary and the rule list stay those of the specified scan, which knows x, d and q registers only |
| Post.Scanner.ReadResults | post.py:18-66 | the read loop over grep's output collects exactly the rules of the specified pairs |
| Post.PairsExactly | post.py:18-66 | an adrp and a use are paired if and only if the use is the first use of the register after its most recent adrp, all within one group of grep's output |
| Post.PairedOnce | post.py:41 | each adrp and each use is in at most one pair, and no line is both |
| Post.UnpairedExactlyAbandoned | post.py:22-29 | an adrp stays unpaired exactly when another adrp to the register, the end of the group or the end of the file comes before any use |
| Patterns.LoadIsResolved | post.py:49-57 | in any file an adrp and, within seven lines and with nothing about the register in between, a load with an offset into an x, d or q register come out with the label of page plus decimal offset |
| Patterns.AddIsResolved | post.py:33-41 | the same for an add with its hexadecimal immediate |
| Patterns.BareLoadIsResolved | post.py:58-66 | the same for a `[reg]` load, which stays as it is |
| Patterns.UnrecognisedIsIgnored | post.py:12-16 | a load or add into a w, s, h or b register or into sp is as good as a blank line: it is not changed and no pair depends on it |
| Patterns.LateUseIsMissed | post.py:6 | an adrp with neither another adrp nor anything about its register close enough behind it stays unresolved |
| Sed.ApplyRule | post.py:68-73 | one sed command rewrites the file in place, line by line: on the labelled line the operand's leading text is replaced and the rest kept |
| Sed.OnlyTheBeginningGoes | post.py:39-55 | a rule replaces what an operand begins with and keeps the rest |
| Sed.ApplyRules | post.py:68-73 | the loop over the rules applies all of them in order, in place |
| Sed.SequentialIsSimultaneous | post.py:68-73 | applying the rules one after another is one rewrite of every line by its own pair; other lines are unchanged |
| Sed.RulesAreOnePerLine | post.py:37-40 | with unique labels no two different rules address one line |
| Sed.OrderIsIrrelevant | post.py:68-73 | rule lists with the same rules in any order and multiplicity have the same effect |
| Sed.AnyOrderRewrites | post.py:68-73 | the collected rules in any order give the one-pass rewrite of the pairs |
| Sed.TwoRulesPerOffsetPair | post.py:37-66 | the number of rules is twice the offset pairs plus the `[reg]` pairs |
| Sed.UnresolvedExactlyAbandoned | post.py:22-66 | the adrps that still carry `?page` in the output are exactly the abandoned ones |
| Sed.ExtensionIsReplaced | post.py:76 | the included file of `stem.s` is `stem.inc` |
| Sed.Process | post.py:5-76 | the whole scan and rewrite of a file in place, and two lines behind it, the last of which includes `stem.inc` for a file `stem.s` |
| Pipeline.WritePrelude | ututna/ututna:18-24 | the `.text` line, a `.global` line for every name given with an `@`, the `.align` line |
| Pipeline.PreludeExportsInOrder | ututna/ututna:18-24 | between `.text` and `.align 3` stands one `.global` line for each name given with an `@`, in the order of the names, and nothing else |
| Pipeline.ExportedInPrelude | ututna/ututna:19-23 | a symbol is exported if and only if it is given with an `@` |
| Pipeline.PreludeIsInert | post.py:6 | lines for the assembler in front of the code change nothing in what post.py makes of the code |
| Pipeline.Process | ututna/ututna:11-31 | for every listing and every file name the file is post.py's rewrite of the prelude and what refine.py printed; for an accepted listing it is the translation that the theorems are about, between the prelude and the include line |
| Simulation.BranchLabelDefinedOnce | refine.py:66-77 | a branch to a line of the listing names a label defined exactly once, on the translation of that line |
| Simulation.BranchLabelDefinedExactly | refine.py:69-70 | the label a branch names is defined exactly when the target text is canonical |
| Simulation.SymbolBranchPreservedExactly | refine.py:55-65 | a branch to a symbol reaches the image of the line at its old target if and only if the first header with the printed name stands there, or neither is in the listing; through the PLT, if and only if the old and the printed name mean one header |
| Simulation.DestinationsAgree | refine.py:55-99 | every branch with a label form, and every branch to a symbol that meets that condition, goes to the image of the line at its old numeric target |
| Simulation.PairedEffective | post.py:33-57 | a paired use forms the address of page plus offset before, and the place of that address's label after, for every placement |
| Simulation.BareUseNeedsAlignment | post.py:58-66 | a `[reg]` use reads the new place of its cell exactly when the label is on a page boundary |
| Simulation.StepIsReproduced | post.py:18-73 | one step of the old code that does not fault is matched by one step of the new code in a related state, under every placement that moves objects as wholes and to which the remaining instructions are indifferent |
| Preservation.PathIsReproduced | post.py:18-73 | a run whose lines find the page registers as they need them is reproduced under every placement: same lines, corresponding operands, registers and memory, same exit |
| Preservation.CertifiedPathsAreOk | post.py:18-73 | a dataflow certificate of the listing guarantees that for every run, with branches |
| Preservation.TranslationPreservesRuns | refine.py:132-185 | semantic preservation of the whole translator for certified listings, under every such placement |
| Calls.TurnIsReproduced | refine.py:55-70 | a step that goes on through a call, a return or a branch through a register comes to the same line after translation |
| Calls.CallsArePreserved | refine.py:132-185 | semantic preservation across calls and returns inside a certified listing: the same instructions in the same order |
| Calling.CallerRunsAnywhere | refine.py:55-59 | a listing that calls a function of its own twice is reproduced through calls and returns under every placement that keeps its lines |
| Calling.CallTurns | refine.py:55-59 | a call of that listing goes to the function and leaves the address behind it in x30 |
| Calling.ReturnTurn | refine.py:175-179 | its `ret` comes back to the line at the address in x30 |
| Calling.CallIsDisciplined | refine.py:55-59 | so it does run through both calls and returns, for any number of turns |
| Ordinary.OrdinaryIsEquivariant | refine.py:124-130 | the instructions that are copied as they are, decoded to stores, loads, writebacks, pointer arithmetic, comparison inside an object or computation on data, are indifferent to every placement that moves objects as wholes and keeps addresses apart |
| Ordinary.OrdinaryTracks | refine.py:124-130 | and to bare pages in registers and memory |
| Rearranged.ConstantsChangePlaces | ututna/600_fft.inc:4-12 | the placement of the included constants moves objects as wholes, keeps addresses apart and is no shift |
| Rearranged.StoringSurvivesRearranging | ututna/600_fft.inc:4-12 | a listing with a push, a paired load of a constant and a store is reproduced at that placement, whatever ordinary instructions its stores are |
| Rearranged.StoringRuns | refine.py:168-173 | from every state with a stack and the constant that listing runs through to its return |
| Exactness.PairedUseFindsItsPage | post.py:33-41 | on straight-line code the only page a paired use can find in its register is that of its own adrp |
| Exactness.TreatedExactlyWhenTidy | post.py:33-66 | a forward scan with the pairs of post.py finds no clobbered, re-read, bare or unresolved page if and only if every adrp of the listing is used tidily: paired with a use that still finds the page, and otherwise unread until the register is written again |
| Exactness.ReproducedExactlyWhenTidy | post.py:33-66 | a straight-line run, with its exit, is reproduced at every distance if and only if every adrp is used tidily |
| Exactness.ReproducedAtDistanceExactlyWhenTidy | post.py:33-66 | the same at each single distance that is no multiple of the page size |
| Exactness.TidyIsPreserved | post.py:33-66 | a tidy straight-line listing is reproduced under every placement, not only shifts |
| WholePages.PageMovesPreserveRuns | post.py:33-66 | at a multiple of the page size every run, with branches, is reproduced if every adrp has a partner and offsets are below the page size |
| WholePages.ReproducedAtPageDistanceExactlyWhenPaired | post.py:33-66 | with offsets below the page size, a straight-line run is reproduced at such a distance if and only if every adrp has a partner |
| Exactness.TreatedHasCertificate | post.py:33-66 | for straight-line code a faultless scan is a dataflow certificate |
| Witness.SecondReadBreaksRun | post.py:41 | a listing that reads a page twice passes both scripts and is wrong at some distance |
| Witness.SecondReadRunsAtPages | post.py:41 | the same listing is right at every multiple of the page size |
| Witness.BareReadBreaksRun | post.py:58-66 | a `[reg]` load is wrong at some distance |
| Witness.NarrowLoadStaysUnresolved | post.py:13-14 | the page of an adrp before a 32-bit load keeps its `?` |
| Witness.LeadingZeroLosesLabel | refine.py:66-70 | an accepted branch whose target is spelled `08` comes out as a branch to a label that no line defines, although the line is in the listing |
| Witness.PrintedNameMustMatch | refine.py:55-59 | a branch to the header of a listing may be printed by name if and only if the header has the printed name |
| Witness.SymbolBranchesGoAstray | refine.py:55-59 | an alias, a redirected function in the listing and a doubled header name each send an accepted branch elsewhere |
| Witness.OverwrittenPageIsTidy | post.py:58-66 | an adrp paired with a `[reg]` load whose page is overwritten first is used tidily |
| Witness.SingleReadRunsAnywhere | post.py:49-57 | a function that reads its page once and returns is right at every distance |
| Witness.LoopRunsAnywhere | post.py:49-57 | a loop around a paired load is certified, and right for any number of rounds under every placement |
| Loader.WordRoundTrip | ututna/reloc.c:39 | a stored little-endian word reads back as itself |
| Loader.SlotIsLittleEndian | ututna/reloc.c:39 | byte `i` of a slot is the word divided by 256 to the `i`, modulo 256 |
| Loader.AlignIsTheMask | ututna/reloc.c:21 | masking a word with `~(align - 1)` subtracts its remainder |
| Masks.AlignMasks | ututna/reloc.c:21-24 | the rounding down of every 64-bit word is the mask with `~(4096 - 1)` |
| Masks.AlignUpMasks | ututna/reloc.c:21-24 | the rounding up of every word whose sum with 4095 fits is the mask of that sum |
| Loader.RoundedRegion | ututna/reloc.c:81-82 | the protected region covers the text, lies on page boundaries, is less than two pages longer and is the smallest such region |
| Loader.Window.Copy | ututna/reloc.c:74 | memcpy into the window, nothing else changed |
| Loader.Window.Zero | ututna/reloc.c:76 | memset of bss, nothing else changed |
| Loader.Window.StoreEntry | ututna/reloc.c:36-39 | stores the relocated word at the slot's address modulo 2^64, and fails exactly when the slot shares a byte with the protected region |
| Loader.MeetsInAByte | ututna/reloc.c:36-39 | a slot meets the protected region if and only if they share a byte |
| Loader.Window.DoReloc | ututna/reloc.c:32-43 | walks the table to its sentinel or to the first slot that meets the protected region, and stores every word before that; it reaches the sentinel exactly when no slot meets the region |
| Loader.Window.Load | ututna/reloc.c:52-90 | the window after `reloc`, for a failed mapping, a fault and a complete load |
| Loader.FinalByte | ututna/reloc.c:74-89 | each byte is its last slot's byte, else zero in bss, else the copied byte in rom, else what it was |
| Loader.SlotHoldsWord | ututna/reloc.c:36-39 | a slot that no later entry overlaps holds the relocated word |
| Loader.RebasedByte | ututna/reloc.c:36-39 | loads at two bases agree on every byte outside RELATIVE slots |
| Loader.RebasedWord | ututna/reloc.c:36-39 | words in RELATIVE slots differ by the distance of the bases modulo 2^64 |
| Loader.TextIsUntouched | ututna/reloc.c:81-89 | after a complete load the protected pages hold exactly the copied image |
| Loader.LoadedTextIsTheImage | ututna/reloc.c:74-89 | after a complete load every byte of the text is the image's |
| RelocTable.StripsOneVersion | reloc:60 | `%@*` removes the version behind the last `@` |
| RelocTable.UnversionedStays | reloc:60 | a name without a version is kept |
| RelocTable.EntriesByNumber | reloc:58-66 | what a JUMP_SLOT, GLOB_DAT and RELATIVE record become, with the types as numbers |
| RelocTable.ProcessRelocs | reloc:55-70 | the table holds one entry for each JUMP_SLOT, RELATIVE and GLOB_DAT record in order, and the sentinel |
| RelocTable.WalkedToTheEnd | reloc:70 | the loader reaches the sentinel exactly when no record has offset zero |
| RelocTable.GeneratedAndLoaded | reloc:55-70 | after generating and loading, a slot holds the value AAELF64 asks for exactly when the record is RELATIVE or its addend is zero |
| RelocTable.AddendIsLost | reloc:64-66 | the slot of a GLOB_DAT record with addend 1 does not hold the ABI's value |
| RelocTable.ZeroOffsetEndsTable | reloc:61-70 | whatever follows a record with offset zero is not loaded |
| RelocTable.DroppedRecordKeepsImage | reloc:58-67 | the slot of a record of any other type keeps the word of the image |
| Perf.Counters.PerfOpen | ututna/perf.c:36-61 | asks for the event, counts it and remembers the group leader, or ends the program |
| Perf.Counters.PerfConfig | ututna/perf.c:63-109 | every accepted call appends its group; counters stay at most ten, the ratio array and the header text stay those of the groups |
| Perf.Counters.ConfigAll | ututna/main.c:301-303 | the option loop leaves the counters of all accepted options |
| Perf.Counters.PerfBegin | ututna/perf.c:117-122 | overwrites the readings of the open counters only |
| Perf.Counters.PerfEnd | ututna/perf.c:124-129 | overwrites the readings of the open counters and arms printing |
| Perf.Counters.PerfPrint | ututna/perf.c:135-148 | prints, once per measurement, the cells of the configured groups: every counter's count is what it gained modulo 2^64 between the two readings, and every ratio stands behind the two counts it is made of |
| Perf.CountsOfCells | ututna/perf.c:138-139 | the counts of a row are those of all counters, each once and in order |
| Perf.RowIsCells | ututna/perf.c:138-145 | the print loop, which sees only the ratio array, emits the cells of the groups, every ratio between its own two counters |
| Perf.HeaderMatchesRow | ututna/perf.c:104-145 | for any accepted calls the header's columns are in order of the kinds of a row's cells |
| Perf.HeaderNamesEvents | ututna/perf.c:68-101 | for any accepted calls count column `i` of the header is named after the event that counter `i` was opened for |
| Perf.EveryRunAgrees | ututna/perf.c:63-148 | for every sequence of options header and rows agree and the header stays within 190 characters |
| Perf.RatioExactlyAtSecond | ututna/perf.c:68-86 | a ratio entry is set exactly for the second counter of a predefined pair |
| Perf.RatioScales | ututna/perf.c:68-86 | the entry is 1 for instructions per cycle and 100 for the two miss ratios |
| Perf.RatiosAreScaledAsHeaded | ututna/perf.c:68-143 | a column headed `%` holds percentages and one headed `IPC` plain ratios |
| Perf.ColumnIsAligned | ututna/perf.c:73-101 | every column is right-aligned to the width of its cells |
| Perf.SingleNames | ututna/perf.c:99-101 | the spelling of a single event's column |
| Perf.AcceptedExactly | ututna/perf.c:63-95 | a call is taken exactly when its counters fit the ten and its event is known |
| Perf.HeaderLength | ututna/perf.c:99-104 | the header stays within 19 characters per counter, so within 190 |
| Heap.Program.Bootstrap | ututna/bootstrap.c:41-48 | where the break ends and what is printed, for every initial break and for moves that succeed or fail: above the libraries if and only if both succeed or it was already high enough, and exactly at HEAP_START when it began at or below HEAP_START - 0x1000 |
| Heap.Program.Mmap | stdlib/jemalloc.c:100-110 | grants the block at the break, or returns -1 and moves nothing; the length is converted to int |
| Heap.CoveredExactlyWhenSmall | stdlib/jemalloc.c:104 | the break covers every grant of a run exactly when all granted lengths are below 2^31 |
| Heap.ToIntIsTheLowHalf | stdlib/jemalloc.c:104 | the int a length becomes has the same low 32 bits |
| Heap.LargeRequestMovesBreakDown | stdlib/jemalloc.c:104 | a grant of 2^31 bytes puts the next grant 2^31 bytes below it |
| Heap.ApartExactlyWhenSmall | stdlib/jemalloc.c:104 | after any run, a nonempty grant overlaps nothing that can be granted next if and only if it is smaller than 2^31 bytes |
| Heap.GrantsAreDisjoint | stdlib/jemalloc.c:100-110 | the grants of a run whose granted lengths are all below 2^31 do not overlap |
| Heap.GrantsAreClear | ututna/bootstrap.c:41-48 | from every initial break that `bootstrap` gets above the libraries, all grants of such a run are clear of both library windows |
| Heap.Buffer.Malloc | ututna/bootstrap.c:10-19 | grants the next block of the buffer, or aborts and changes nothing |
| Heap.AbortsExactlyOverBudget | ututna/bootstrap.c:6-19 | a run aborts exactly when its total passes 10240; before that pointer and remainder are the total and its complement |
| Heap.BlocksAreDisjoint | ututna/bootstrap.c:6-19 | the blocks of a run that did not abort do not overlap and lie in the buffer |
| Gemm.Slots.Malloc | ututna/main.c:116-126 | fills the next slot, or ends the program on the fourth allocation of a round |
| Gemm.Slots.Cleanup | ututna/main.c:131-137 | frees what every slot held and empties all three |
| Gemm.Slots.Run | ututna/main.c:116-137 | any interleaving of allocations and cleanups goes through if and only if no round has a fourth allocation, and stops at the first one; every cleanup gives back the blocks of its round, and the slots hold those of the current one |
| Gemm.Conserved | ututna/main.c:116-137 | each block obtained is released once or still held |

## Left out

- Regular expressions, shell quoting and sed: lines are tokens, which the patterns take apart.
- Sed.ApplyRule: a rule for a page is tried on adrp lines only and a rule for an immediate on add and ldr lines only; sed would change the text on any line with that label, and labels are unique in an accepted listing.
- The `replace` edits that the build script makes after a `process` command.
- Names that contain `adrp`: grep shows their lines, too.
- The `#0x...` spelling of load offsets: objdump prints them in decimal, and so are the tokens; the pattern of post.py would take such an offset for zero.
- Shifted add immediates and pre- or post-indexed loads: the patterns of post.py match these lines too; the token language has no such lines.
- Compare-and-branch, and `adr`, to a bare `<sym>`: refine.py prints the operand raw, which no assembler accepts; the run theorems exclude such listings (`WellFormedInst`).
- Relocation range and alignment errors of the linker for `:lo12:` loads, and the 4 GiB reach of adrp.
- Calls that leave the listing, and branches through a register to somewhere outside, end a modelled run with corresponding targets; the theorems can be applied again from the line control comes back to.
- Word size: addresses and sums of the machine are unbounded integers.
- Access widths: a load reads the cell at its address; through a `w`, `s`, `h` or `b` register it must be data; `d` and `q` registers of one number are one register.
- The sorted symbol report at the end of refine.py: it only annotates `symbols`.
- mmap, mprotect, perf_event_open, ioctl and read are parameters or contracts; so is whether `_sbrk` succeeds.
- Windows that the image, bss or slots do not fit into: outside the window memory is unknown.
- Perf.Counters.PerfPrint: the quotient itself is floating point; the model gives numerator, denominator and scale, for up to the six readings that `counters_t` holds.
- Pthread stubs, `s_calloc`, the benchmark drivers and the constant tables.
