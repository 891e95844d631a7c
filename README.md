# JOS copy-on-write fork and kernel monitor, in Dafny

This project models two parts of the JOS teaching operating system and proves properties
of the models.

- **`lib/fork.c`**: the user-level, copy-on-write `fork`.
  - `pgfault` is the page-fault handler. On a write to a copy-on-write page, it gives the
    writer a private copy.
  - `duppage` maps one page into the child. The page is shared, made copy-on-write or
    read-only, according to its permission bits.
  - `fork` registers the handler, creates the child and duplicates every present page
    below `USTACKTOP`. It then gives the child a fresh exception stack and its upcall,
    and marks the child runnable.
  - `sfork` always panics.
- **`kern/monitor.c`**: the kernel monitor's command interpreter.
  - `runcmd` splits the command line into arguments in place. It overwrites whitespace
    with NUL and records where each argument starts in `argv`. It refuses a sixteenth
    argument, then looks up the first argument in the command table.
  - It models the commands `help`, `showmappings` and `setperm`, together with
    `print_perm` and `print_flags`.

The modules are:

- **`CLib`** (`clib.dfy`): the C-library behaviour both parts rely on.
  - NUL-terminated strings read out of a buffer.
  - `strtol(s, 0, 0)`, `printf("%08x")` and the conversion to a 32-bit `uintptr_t`.
  - Splitting and joining console text at a separator.
- **`Mmu`** (`mmu.dfy`): the x86 page-table bits, `PTE_COW`/`PTE_SHARE`, the JOS user
  address-space layout, `PGNUM`, `PDX` and `ROUNDDOWN`.
- **`Syscall`** (`kernel.dfy`): the kernel as the fork library sees it.
  - The class `Kernel` holds every environment's page table, which is what `uvpt` and
    `uvpd` read. It also holds the frame contents, the number of physical frames and
    the running environment. A frame is free when no environment maps it (`UsedFrames`).
  - Its methods are the system calls `fork.c` makes. Each states every error return
    (`-E_BAD_ENV`, `-E_INVAL`, `-E_NO_MEM`, `-E_NO_FREE_ENV`) as an if-and-only-if, and
    it states the exact state left behind.
- **`Fork`** (`fork.dfy`): `pgfault`, `duppage`, `fork` and `sfork` as methods on the
  kernel and on the class `UserEnv`, which holds the library globals `thisenv` and the
  registered handler.
  - Each method is proved against a function of the old state: `Resolved`, `DupEnvs`,
    `Scan`, `ParentAfter` and `ChildAfter`.
  - The lemmas about those functions state what copy-on-write promises. Both sides map the
    same frame. No unshared page stays writable on either side. Shared pages keep their
    software-visible bits. Nothing at or above `USTACKTOP` changes. The exception stack's frame is not
    aliased.
- **`Monitor`** (`monitor.dfy`): the model of the monitor.
  - The tokenizer is specified by `Tokens` (the maximal runs of non-whitespace) and
    `Stop` (where the parse stops when there is room for `k` more arguments).
  - The in-place parse works on an `array<char>` and an `array<Option<nat>>`. The
    `Option<nat>` slots stand for `char *`: an offset into the buffer, or NULL.
  - Table lookup and the help lines.
  - The page-table printer and editor, over the kernel page table as a map from virtual
    page number to PTE word.
  - The class `Monitor` holds the kernel page table and an append-only console trace.

## Model

| member | source | states |
|---|---|---|
| CLib.CStr | kern/monitor.c:220 | The string a `char *` at offset `i` denotes has no NUL, consists of the buffer's own characters from `i`, and ends at a NUL or at the end of the buffer |
| CLib.CStrOfRun | kern/monitor.c:210-214 | A NUL-free run that is followed by a NUL or the end of the buffer reads back as exactly that run |
| CLib.SplitNoSep | kern/monitor.c:91-102 | Text without the separator is one field |
| CLib.SplitAppend | kern/monitor.c:91-102 | Splitting text with one separator in it gives the fields of the left part followed by those of the right part |
| CLib.SplitJoin | kern/monitor.c:91-102 | Splitting fields joined by a separator that none of them contains gives back exactly those fields |
| CLib.LinesSnoc | kern/monitor.c:41-42 | Printing one more line appends exactly that line and its newline to the text |
| CLib.LinesAsJoin | kern/monitor.c:41-42 | Text made of newline-terminated lines is those lines joined by newlines, with an empty last field |
| CLib.SplitLines | kern/monitor.c:41-42 | Newline-free lines printed one per line read back line by line, followed by one empty field |
| CLib.HexDigits | kern/monitor.c:128 | The zero-padded hex conversion has exactly the requested number of digits |
| CLib.Hex8 | kern/monitor.c:128 | `%08x` of a 32-bit value is exactly eight characters |
| CLib.DigitRun | kern/monitor.c:120 | `strtol` reads the longest prefix of valid digits of the base: each is a digit, and the next character is not |
| CLib.SkipBlanks | kern/monitor.c:120 | `strtol` first skips blanks and tabs: every character it passes is a blank or a tab, and it stops at the end of the string or at a character that is neither |
| CLib.DigitsValue | kern/monitor.c:120 | The value `strtol` accumulates, `val = val * base + digit`, left to right over the digit run. Its meaning for `%08x` output is stated by `CLib.HexDigitsValue` |
| CLib.StrToL | kern/monitor.c:120-124 | `strtol(s, 0, 0)`: blanks, optional sign, `0x` for hexadecimal, leading `0` for octal, otherwise decimal, ending at the first non-digit. See `CLib.StrToLHex` and `CLib.HexRoundTrip` |
| CLib.ToUintptr | kern/monitor.c:120 | Converting a `long` to `uintptr_t` gives a value below 2^32 |
| CLib.ToUintptrSmall | kern/monitor.c:120 | A value that already fits in 32 bits converts unchanged |
| CLib.HexDigitsValue | kern/monitor.c:128 | Every character of the hex conversion is a hex digit, and their value is the number converted |
| CLib.DigitRunAll | kern/monitor.c:120 | A string that is all valid digits is read whole |
| CLib.StrToLHex | kern/monitor.c:120 | `strtol(s, 0, 0)` reads `0x` followed by hex digits as the value of those digits |
| CLib.Hex8Value | kern/monitor.c:128 | The eight characters of `%08x` are hex digits whose value is the number printed |
| CLib.HexRoundTrip | kern/monitor.c:120-128 | An address printed as `0x%08x` is read back by `strtol` and the `uintptr_t` conversion as the same address |
| Mmu.RoundDown | lib/fork.c:37 | `ROUNDDOWN(a, PGSIZE)` is page-aligned, at most `a`, and less than one page below it |
| Syscall.FreshFrameUnaliased | lib/fork.c:129-130 | A frame no environment mapped, once installed at one page, is mapped nowhere else |
| Syscall.Kernel.PageAlloc | lib/fork.c:38-39 | `sys_page_alloc` fails with `-E_BAD_ENV` exactly when the caller may not access the target. It fails with `-E_INVAL` exactly when the address is not an aligned user address or the permissions are not allowed, and with `-E_NO_MEM` exactly when no frame is free. On success, the page maps a frame that was free, with the given permissions, and that frame is zeroed. Nothing else changes |
| Syscall.Kernel.PageMap | lib/fork.c:41-42 | `sys_page_map` fails with `-E_BAD_ENV` exactly when either environment may not be accessed. Otherwise it fails with `-E_INVAL` exactly when an address is not an aligned user address, the source page is unmapped, the permissions are not allowed, or it asks for write on a read-only page. On success, the destination page maps the source page's frame with the given permissions, and nothing else changes |
| Syscall.Kernel.PageUnmap | lib/fork.c:43-44 | `sys_page_unmap` fails with `-E_BAD_ENV` or `-E_INVAL` exactly in its error cases. On success, it removes exactly the one mapping |
| Syscall.Kernel.EnvSetStatus | lib/fork.c:137-138 | Only runnable or not-runnable may be requested (`-E_INVAL`), and only for an accessible environment (`-E_BAD_ENV`). On success, only that environment's status changes |
| Syscall.Kernel.EnvSetPgfaultUpcall | lib/fork.c:133-134 | It fails exactly when the environment is not accessible. On success, only that environment's upcall changes |
| Syscall.Kernel.Exofork | lib/fork.c:112-114 | `-E_NO_FREE_ENV` when the table is full. Otherwise it returns a new positive id whose environment is the caller's not-runnable child, with an empty address space and no upcall |
| Syscall.Kernel.CopyPage | lib/fork.c:40 | `memmove` of one page: the destination frame gets the source frame's contents, and nothing else changes |
| Syscall.Kernel.GetEnvId | lib/fork.c:118 | `sys_getenvid` returns the id of the running environment |
| Fork.ResolvedSteps | lib/fork.c:38-44 | The handler's three system calls, composed: the faulting page maps the new frame privately and writably, and PFTEMP is unmapped |
| Fork.IsCowWriteFault | lib/fork.c:28-29 | The only fault the handler accepts: the error code has FEC_WR, and the faulting page's entry in `uvpt` has PTE_COW. An unmapped page reads as 0 |
| Fork.Resolved | lib/fork.c:37-44 | The environment after the handler: the faulting page maps the new frame with `PTE_U\|PTE_W\|PTE_P`, and PFTEMP is unmapped. Its properties are `Fork.ResolvedSeparates` |
| Fork.Pgfault | lib/fork.c:14-46 | Unless the fault is a write to a copy-on-write page, it panics with the source's message and changes nothing. When no frame is free, it panics with `alloc to PFTEMP failed` and changes nothing. Otherwise it returns with only the faulting environment changed, to `Resolved`: the page maps a frame that was free, with `PTE_U\|PTE_W\|PTE_P`, the frame holds the old page's contents, and PFTEMP is unmapped. The two later panics cannot happen |
| Fork.ResolvedSeparates | lib/fork.c:14-46 | After the handler, the faulting page is private, writable and not copy-on-write. PFTEMP is unmapped, and the page-directory slot of PFTEMP's page table is added to `pdes`, since `sys_page_unmap` leaves that table in place. Every other mapping, and the parent, status and upcall, are unchanged |
| Fork.Duppage | lib/fork.c:59-87 | It returns 0 exactly when the target is accessible and the page is mapped, leaving the environments as `DupEnvs`. Otherwise it panics with the message of the branch taken: shared, copy-on-write or read-only. Memory never changes |
| Fork.ChildPte | lib/fork.c:66-84 | duppage's three branches, for the target's entry. Shared: the same frame with the bits masked by PTE_SYSCALL. Writable or copy-on-write: `PTE_COW\|PTE_U\|PTE_P`. Otherwise: the masked bits. See `Fork.DupEntries` |
| Fork.ParentPte | lib/fork.c:70-80 | The source's entry after duppage: re-marked `PTE_COW\|PTE_U\|PTE_P` in the copy-on-write branch, and unchanged otherwise |
| Fork.DupEnvs | lib/fork.c:59-87 | All environments after a successful duppage of one page: the target gets `ChildPte`, the source gets `ParentPte` |
| Fork.DupEntries | lib/fork.c:66-84 | For a well-formed entry, the child always gets the same frame. A shared page is passed through with the same frame and permission bits, and so is a page that is neither writable nor copy-on-write. A writable or copy-on-write page becomes copy-on-write on both sides. No unshared page is writable on either side |
| Fork.ForkStart | lib/fork.c:122 | Before the scan, parent and child are unchanged |
| Fork.ChildStep | lib/fork.c:122-126 | duppage of one more mapped page extends the child's duplicated prefix by that page |
| Fork.ParentStep | lib/fork.c:122-126 | duppage of one more mapped page extends the parent's re-marked prefix by that page |
| Fork.ForkSkip | lib/fork.c:123 | An unmapped page leaves both prefixes unchanged |
| Fork.MappedIff | lib/fork.c:123 | fork's test `uvpd[PDX] & PTE_P && uvpt[PGNUM] & PTE_P` holds exactly for the mapped pages |
| Fork.Present | lib/fork.c:123 | fork's test for a page: its page table is present in `uvpd` and its entry is present in `uvpt`. `Fork.MappedIff` shows that it holds exactly for mapped pages |
| Fork.DupStep | lib/fork.c:122-126 | duppage of page `b` in the middle of the scan takes both environments from prefix `b` to prefix `b + 1` |
| Fork.PageAddress | lib/fork.c:65 | `addr = pn * PGSIZE` is aligned, and `PGNUM` and `PDX` of it give back `pn` and its page table |
| Fork.Scan | lib/fork.c:122-126 | The scan keeps the set of environments |
| Fork.ScanClosedForm | lib/fork.c:122-126 | The scan up to `b` equals the closed form: the parent is re-marked by `ParentPte` below `b`, and the child gains `ChildPte` of every page the parent maps below `b` |
| Fork.CopyAddressSpace | lib/fork.c:122-126 | The loop leaves the environments as `Scan` up to USTACKTOP, and memory and the running environment unchanged |
| Fork.Fork | lib/fork.c:105-142 | The handler is always registered. A negative exofork result is returned and nothing changes. In the child, it returns 0 with `thisenv` set to the running environment. In the parent, the pages are scanned. It panics exactly when no frame is free after the scan. Otherwise the child gets a fresh zeroed, unaliased exception-stack frame, the upcall and runnable status, and it returns the child's id. In both parent outcomes, the parent's entry is `ParentAfter` up to USTACKTOP. The child's page table is `ChildAfter` up to USTACKTOP, plus the exception stack on success |
| Fork.ForkSharing | lib/fork.c:105-142 | After fork, every duplicated page maps the same frame on both sides. Shared pages keep their frame and bits on both sides, no unshared page is writable on either side, and copy-on-write candidates are `PTE_COW\|PTE_U\|PTE_P` on both sides. The parent's mappings at and above USTACKTOP and the child's other mappings are unchanged |
| Fork.SFork | lib/fork.c:145-150 | `sfork` always panics |
| Monitor.WordLen | kern/monitor.c:211-212 | The scan past an argument stays within the line |
| Monitor.Tokens | kern/monitor.c:198-213 | The arguments `runcmd` finds: the maximal runs of non-whitespace, in order. Its properties are `Monitor.TokensAreWords`, `Monitor.TokensJoin` and `Monitor.StopAtEnd`, and `Monitor.Parse` is proved against it |
| Monitor.WordLenRun | kern/monitor.c:211-212 | The scanned run is whitespace-free and ends at whitespace or at the end of the line |
| Monitor.WordLenExact | kern/monitor.c:211-212 | A whitespace-free run that ends at whitespace or at the end is exactly what the scan measures |
| Monitor.TokensAreWords | kern/monitor.c:198-213 | Every argument is non-empty and free of whitespace |
| Monitor.Stop | kern/monitor.c:198-213 | The parse stops inside the line, and never on whitespace |
| Monitor.StopAtEnd | kern/monitor.c:202-209 | The parse reaches the end of the line exactly when the line has at most `k` arguments |
| Monitor.TokensWord | kern/monitor.c:198-213 | A single word is parsed as one argument |
| Monitor.TokensAppend | kern/monitor.c:200-201 | A blank between two texts separates their arguments: tokenizing distributes over it |
| Monitor.TokensJoin | kern/monitor.c:198-213 | Words written with single blanks between them are parsed back into exactly those words |
| Monitor.SkipSpaces | kern/monitor.c:200-201 | A run of whitespace adds no argument, and adds only its length to the stop offset |
| Monitor.TakeWord | kern/monitor.c:210-212 | A maximal run of non-whitespace is the next argument, and uses up one slot |
| Monitor.Blank | kern/monitor.c:201 | Blanking keeps the buffer's length |
| Monitor.BlankStep | kern/monitor.c:201 | Overwriting one more whitespace character with NUL moves the blanking limit by one |
| Monitor.ArgReadsBack | kern/monitor.c:210-214 | Once the line is blanked, each argument found in it reads back as a C string |
| Monitor.BlankAt | kern/monitor.c:200-203 | At or past the blanking limit the buffer still holds the line's own characters, so `*buf` is non-NUL exactly before the line's end |
| Monitor.SkipBlanks | kern/monitor.c:200-201 | The gobbling loop overwrites only whitespace, and every character it passes, with NUL. It stops at the end of the line or at a non-whitespace character |
| Monitor.ScanWord | kern/monitor.c:211-212 | The scanning loop passes only non-whitespace and stops at whitespace or at the end of the line |
| Monitor.BlankWord | kern/monitor.c:211-212 | Scanning past an argument does not change the buffer |
| Monitor.Slots | kern/monitor.c:196-197 | `argv` has MAXARGS slots |
| Monitor.SlotsSnoc | kern/monitor.c:210 | `argv[argc++] = buf` records one more start, and NULL stays after it |
| Monitor.FoundSnoc | kern/monitor.c:210-212 | The argument just scanned is recorded at its start |
| Monitor.AllReadBack | kern/monitor.c:214 | Once the line is blanked, every recorded start reads back as its argument |
| Monitor.ScanStart | kern/monitor.c:196-197 | At the start, nothing is found and the whole line remains |
| Monitor.ScanBlanks | kern/monitor.c:200-201 | Gobbling whitespace keeps the parser's progress invariant |
| Monitor.BlanksKeepTokens | kern/monitor.c:200-201 | Gobbling whitespace leaves the arguments still to be found unchanged |
| Monitor.BlanksKeepStop | kern/monitor.c:200-201 | Gobbling whitespace leaves the offset where the parse stops unchanged |
| Monitor.ScanWordStep | kern/monitor.c:210-212 | Saving and scanning past an argument that fits extends the invariant by that argument |
| Monitor.WordKeepsTokens | kern/monitor.c:210-212 | The scanned argument is the next argument of the line |
| Monitor.WordKeepsStop | kern/monitor.c:210-212 | The scanned argument uses one slot and leaves the stop offset unchanged |
| Monitor.ScanFull | kern/monitor.c:206-209 | An argument that begins when fifteen are recorded means the line has at least sixteen arguments, and the parse stops at its first character |
| Monitor.ScanDone | kern/monitor.c:202-203 | At the end of the line, the recorded arguments are all of the line's arguments, and there are fewer than sixteen |
| Monitor.ParseResult | kern/monitor.c:214 | At the end of the line, `argv` is NULL right after the last argument, and each slot reads back as its argument |
| Monitor.SaveArg | kern/monitor.c:210-212 | Saving the start in `argv[argc]` and scanning past the argument keeps the invariant, and extends `argv` by that one start |
| Monitor.ScanArgs | kern/monitor.c:196-213 | The loop blanks exactly the whitespace before the stop offset. It reports too many arguments exactly when the line has at least sixteen, and otherwise it has found all of them |
| Monitor.Parse | kern/monitor.c:196-214 | The parse reports too many arguments exactly when the line has at least sixteen; only the whitespace before the stop offset becomes NUL. Otherwise `argc` is the number of arguments, `argv[argc]` is NULL, and `argv[i]` reads back as argument `i` in the modified buffer |
| Monitor.LookupFrom | kern/monitor.c:219-222 | The search from entry `i` finds the first matching entry at or after `i`, or reports that none matches |
| Monitor.Lookup | kern/monitor.c:219-222 | The first entry whose name equals the argument, or none, exactly when no entry matches |
| Monitor.LookupEachName | kern/monitor.c:25-32 | In the monitor's table, each command name finds its own entry |
| Monitor.NameLengths | kern/monitor.c:25-32 | The table's names have distinct lengths, so no name is another's |
| Monitor.LiteralWords | kern/monitor.c:26-31 | Each command name is free of whitespace |
| Monitor.NamesAreWords | kern/monitor.c:25-32 | Every name in the table is a single possible argument |
| Monitor.HelpLines | kern/monitor.c:41-42 | One help line per table entry |
| Monitor.HelpText | kern/monitor.c:41-42 | What `mon_help` prints: each `name - desc` line followed by a newline, in table order. See `Monitor.HelpOneLinePerEntry` |
| Monitor.HelpOneLinePerEntry | kern/monitor.c:36-44 | When no name or description holds a newline, `help` prints exactly one line per entry, in table order, and nothing else |
| Monitor.HelpNameDispatches | kern/monitor.c:41-42 | In any table, when an entry's name is a word that finds its own entry, the first word of its help line leads back to that entry |
| Monitor.HelpNamesDispatch | kern/monitor.c:25-44 | Typing the first word of any line that `help` prints runs that line's command |
| Monitor.PermString | kern/monitor.c:104-109 | `print_perm` prints three characters: `U`, `W`, `P` for the set bits and `-` for the clear ones |
| Monitor.PermStringRoundTrip | kern/monitor.c:104-109 | The printed letters determine exactly the user, writable and present bits, and nothing else |
| Monitor.FlagField | kern/monitor.c:93-101 | No field holds a comma |
| Monitor.FlagFields | kern/monitor.c:91-102 | One field per flag |
| Monitor.FlagsFields | kern/monitor.c:91-102 | `print_flags` prints exactly nine comma-separated fields. Field `i` is flag `i`'s letters when its bit is set, and `-` otherwise, in the order G, PS, D, A, PCD, PWT, U, W, P |
| Monitor.FlagsString | kern/monitor.c:91-102 | `print_flags`: the nine fields, with a comma between each two. See `Monitor.FlagsFields` |
| Monitor.Walk | kern/monitor.c:130 | `pgdir_walk(..., 0)` finds an entry exactly when the page's table exists |
| Monitor.PageLine | kern/monitor.c:128-137 | The line for one page: `0x%08x` of the address, then `no mappings` when there is no present entry. Otherwise the frame address `pte & ~0x3FF` as `0x%08x`, then `print_perm` of the entry |
| Monitor.PageLines | kern/monitor.c:127-138 | The lines for `n` pages from the first, in loop order |
| Monitor.ShowMappingsText | kern/monitor.c:114-137 | What `mon_showmappings` prints: the usage without an address argument, or the header and `num_pages` page lines from `ROUNDDOWN(start)`. `end` defaults to `start` |
| Monitor.NumPages | kern/monitor.c:125 | `num_pages` lies between 1 and the number of pages of the address space |
| Monitor.PageAddr | kern/monitor.c:127 | `base_addr` is always a 32-bit address |
| Monitor.PageAddrNoWrap | kern/monitor.c:127 | Without wrap-around, `j` steps advance `base_addr` by exactly `j` pages |
| Monitor.NextPage | kern/monitor.c:127-138 | One more turn of the loop advances `base_addr` by one page (mod 2^32) and prints that page's line |
| Monitor.ShowMappingsRange | kern/monitor.c:125-127 | For `start <= end`, the count is the number of pages from `ROUNDDOWN(start)` to `ROUNDDOWN(end)` inclusive. The listed addresses are page-aligned and increase by one page, the last is `ROUNDDOWN(end)`, and every address in the range has its page listed |
| Monitor.NumPagesSpan | kern/monitor.c:125 | Without wrap-around, `num_pages` is the page distance plus one |
| Monitor.PagesAligned | kern/monitor.c:127 | Each step over an aligned span lands on the next aligned page |
| Monitor.PagesCover | kern/monitor.c:125-127 | For `start <= end`, the page of every address in the range is among the steps |
| Monitor.RoundDownSpan | kern/monitor.c:125 | Rounding down keeps order, and rounded-down addresses are whole pages apart |
| Monitor.PageStep | kern/monitor.c:127 | Step `j` within the span is the `j`-th page |
| Monitor.PageOf | kern/monitor.c:127 | An aligned offset within the span is reached at step `offset / PGSIZE` |
| Monitor.SetWord | kern/monitor.c:159 | `*pte \|= flag` sets the flag, keeps every other bit, and keeps the entry present |
| Monitor.SetPermPgdir | kern/monitor.c:145-161 | The kernel page table after `mon_setperm`: unchanged without exactly three arguments or without a present entry. Otherwise the entry with PTE_U or PTE_W set or cleared. See `Monitor.SetPermOneBit` |
| Monitor.SetPermText | kern/monitor.c:145-164 | What `mon_setperm` prints: the four usage lines, nothing, or the invalid-address message |
| Monitor.ClearWord | kern/monitor.c:161 | `*pte &= ~flag` clears the flag, keeps every other bit, and keeps the entry present |
| Monitor.EditOneEntry | kern/monitor.c:155-161 | The in-place edit of a present entry changes that one bit of that one entry, and nothing else in the table |
| Monitor.SetPermFlagBit | kern/monitor.c:156 | The flag `setperm` edits is never PTE_P and is not empty |
| Monitor.SetPermOneBit | kern/monitor.c:142-166 | Without exactly three arguments, or for an address with no present entry, the table is unchanged. Otherwise `setperm` sets (`1`) or clears (anything else) exactly one bit of that one entry: PTE_U when the second argument starts with `U`, PTE_W otherwise |
| Monitor.Outcome | kern/monitor.c:206-224 | Too many arguments exactly when there are at least sixteen, and no command exactly when the line is empty. Unknown command exactly when no entry has the first argument's name, reporting that name. Otherwise the first entry with that name runs, with all the arguments |
| Monitor.Monitor.Help | kern/monitor.c:36-44 | The loop appends exactly the help text to the console, returns 0 and leaves the page table alone |
| Monitor.Monitor.ShowMappings | kern/monitor.c:111-140 | Without an address argument it prints the usage. Otherwise it prints the header and one line per page from `ROUNDDOWN(start)`, `num_pages` of them. The page table is unchanged, and it returns 0 |
| Monitor.Monitor.ListPages | kern/monitor.c:127-138 | The loop prints exactly the `n` page lines, in order, and leaves the page table alone |
| Monitor.Monitor.PrintPage | kern/monitor.c:128-137 | One line: the address, then `no mappings` or the frame address and `print_perm` of its entry |
| Monitor.Monitor.SetPerm | kern/monitor.c:142-166 | The page table becomes `SetPermPgdir` of the arguments, the console gets the usage or invalid-address text, and it returns 0 |
| Monitor.Monitor.Invoke | kern/monitor.c:221 | The call through an entry's `func` field has the effect of that command |
| Monitor.Monitor.ArgStrings | kern/monitor.c:220-221 | The strings `argv[0..argc]` point at are exactly the line's arguments |
| Monitor.Monitor.Execute | kern/monitor.c:219-224 | The lookup loop runs the first matching entry, or prints `Unknown command '<name>'`. The result is `Outcome`, and the new console and page table are those of that outcome |
| Monitor.Monitor.RunCmd | kern/monitor.c:188-225 | `runcmd` blanks exactly the whitespace before the stop offset and ends as `Outcome` of the line's arguments. It prints `Too many arguments (max 16)` for sixteen or more arguments, nothing for an empty line, the unknown-command message, or the command's output. It updates the page table as the command does, and returns 0 |

## Left out

- `kern/syscall.c`, `kern/pmap.c`, `kern/env.c` and the `inc/` headers other than
  `inc/stdio.h` are not part of this model. The system calls in `Syscall.Kernel` are
  modelled from the interface `fork.c` relies on: argument checks, error codes and the
  resulting page tables.
- Page-table allocation failing with `-E_NO_MEM` inside `sys_page_alloc` and `sys_page_map`
  is not modelled: a page table costs no frame, so `Syscall.Kernel.PageAlloc`, `Fork.Pgfault`
  and `Fork.Fork` fail for lack of memory exactly when no frame is free.
  Neither is `sys_exofork` failing with `-E_NO_MEM` when `env_alloc` cannot get a page
  directory; `fork` returns any negative result unchanged, so its behaviour is the same.
- No mapped entry carries the accessed or dirty bit (PTE_A, PTE_D), which the MMU sets on
  access. Every mapped entry's bits lie within `PTE_SYSCALL`, so duppage's
  `uvpt[pn] & PTE_SYSCALL` (`lib/fork.c:68`, `lib/fork.c:82`) is the identity here. The
  source's child entry drops A and D while the parent's keeps them; "same bits" in the
  duppage and fork lemmas means the software-visible bits.
- Page reference counts and freeing are not modelled.
- `Syscall.Kernel.PageAlloc` chooses the new frame: any free frame can be chosen.
- `set_pgfault_handler` (`lib/pgfault.c`) is not modelled. `fork` only records, in
  `UserEnv.pgfaultHandlerSet`, that the handler was registered.
- `_pgfault_upcall` is a symbolic constant address.
- The `sys_exofork` result is a parameter of `Fork`, because the call returns twice: once
  in the parent and once in the child. `Syscall.Kernel.Exofork` models the parent's side.
- `thisenv = &envs[ENVX(sys_getenvid())]` is modelled as storing the running
  environment's id.
- Scheduling is not modelled. That includes what happens after runnable, and the
  processor switching to another environment.
- Fork.Pgfault: `sys_page_map` and `sys_page_unmap` cannot fail in this model once
  `sys_page_alloc` has succeeded, so their panics (`lib/fork.c:41-44`) cannot be reached.
  The same holds for duppage's second `sys_page_map` and for `fork`'s upcall and status
  calls.
- Fork.Fork: the `fork: duppage failed` panic (`lib/fork.c:124-125`) is never reached.
  The model's duppage panics itself on every failure, as the source also does.
- Fork.Pgfault: a fault on PFTEMP itself follows the code as written: the page ends up
  unmapped. The later user-mode re-execution of the faulting instruction is not modelled.
- The panic messages omit the `%e` error text.
- Pointers into the command buffer are offsets, and `argv` slots are `Option<nat>`
  (NULL is `None`).
- `readline`, the `monitor()` read loop, the welcome banner and the trap frame are not
  modelled. Console output is an append-only string.
- `mon_kerninfo`, `mon_backtrace` and `mon_dumpvm` are in the table and dispatch
  correctly, but `Monitor.Monitor.Invoke` gives them no effect. Their output depends on
  linker symbols, the stack and raw memory, none of which is part of this model.
- `strtol` does not detect overflow. A value is converted to 32 bits modulo 2^32, which
  is the C conversion of a representable `long`. Clamping at `LONG_MAX` is not modelled.
- `pgdir_walk(kern_pgdir, va, 0)` is a map from virtual page number to PTE word. A page
  whose page table does not exist has no key.
- Monitor.ShowMappingsRange: stated for `start <= end`. For `start > end`, the 32-bit
  difference wraps and the loop lists pages upward from `ROUNDDOWN(start)`, around the
  top of the address space, as the code does. `NumPages` and `PageAddr` model that
  wrap-around but no lemma describes it.
- Monitor.HelpOneLinePerEntry: stated for any table without newlines in its strings,
  rather than computed on the literal table's long descriptions.
- Monitor.EditOneEntry: stated for any non-empty flag other than PTE_P. `SetPermFlagBit`
  shows that `setperm`'s flag is one of those.
