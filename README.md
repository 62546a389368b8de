# power-api in Dafny

A model of the Reservoir Labs power-api library, a userspace C library for Linux.
It controls CPU frequency scaling (DVFS) through the `cpufreq` files under
`/sys/devices/system/cpu/cpuN/cpufreq/`. It also reads the RAPL energy counters through PAPI.
Two generations of the library are modelled:

- **The context generation.** Its entry points are `src/power-api.c`, `src/structure.c`, `src/dvfs.c` and `src/energy.c`.
  - `pwr_initialize` allocates a `pwr_ctx_t` and initializes three modules in order:
    1. STRUCT discovers the voltage islands from the sibling lists (`freqdomain_cpus` or `affected_cpus`). It also reads each island's transition latency.
    2. DVFS checks the governors, builds a frequency table per island, reads the current frequency and opens a throttle stream per island.
    3. ENERGY finds the RAPL component and its package and DRAM probes.
  - Each module sets one bit of `module_init`. The accessors report their status in `ctx->error`.
- **The first generation.** This is `src/power_api.c`, which keeps its state in process globals.
  - `pwr_initialize` runs `init_cpu`, `init_islands` and `init_speed_levels`. It then opens two streams per island and asks for level 1 on every island.

## Model layout

| file | module | models |
|---|---|---|
| `machine.dfy` | `Machine` | C integer widths: `unsigned long`, `unsigned int`, narrowing to `gint`, `%ld` of an `unsigned long`, truncating `/` and `%` |
| `text.dfy` | `Text` | `atoi` / `sscanf("%ld")`, `sprintf("%ld")`, `g_strsplit(s, " ", n)` |
| `seqs.dfy` | `Seqs` | sorting by value, `g_array_sort` called through a `(GCompareFunc)` cast, the dedup-by-deep-equality of discovery, first-index scans |
| `sysfs.dfy` | `Sysfs` | the file tree the library reads and writes, and `sysfs_filename` |
| `codes.dfy` | `Codes` | error codes, module ids, limits, and the messages of `pwr_strerror` |
| `context.dfy` | `Context` | `pwr_ctx_t` as a class, its `State` snapshot, `pwr_is_initialized`, `pwr_error`, `pwr_strerror` |
| `structure.dfy` | `Structure` | `src/structure.c` |
| `dvfs.dfy` | `Dvfs` | `src/dvfs.c` |
| `energy.dfy` | `Energy`, `EnergyFallback` | `src/energy.c`, built with PAPI and without it |
| `lifecycle.dfy` | `Lifecycle` | `pwr_initialize` and `pwr_finalize` of `src/power-api.c` |
| `legacy.dfy` | `Legacy` | `src/power_api.c` |

### How the model is built

- **Oracles for the environment.** Everything the library learns from outside is a parameter.
  - The sysfs tree is a `Tree`. It maps each path to its text and says which paths can be opened for writing, and which streams take a write.
  - What `sysconf` and `init_cpu` count is a parameter, and so is what PAPI answers.
  - So are the values a stopped counter reads and, in the first generation, the garbage `malloc` leaves in a field nothing sets.
- **Writes.** A successful write is appended to a `log` of `Write(path, text)`.
- **State.** `pwr_ctx_t` is the class `Context.Context`, and the first generation's globals are the class `Legacy.Library`.
  - Every state-changing method ensures `Snapshot() == Spec(old(Snapshot()), ...)`. Here `Spec` is a function.
  - The properties are lemmas about those functions.
- **Sort order.** Frequency tables are ascending, so level 0 is the slowest level, as `include/dvfs.h:34-38` and `src/dvfs.c:290` describe. Cpu lists are ascending too. Tables are not deduplicated.
  - The kernel lists frequencies highest first and cpus in ascending order. On those files the code as written produces exactly these orders.
  - On files in any other order it does not sort at all (see Findings).
- **Loops.** The source's loops are methods with loop invariants. Each is proved equal to a recursive specification function. Examples: the discovery loop, the deep-equality scan, the governor scan, the current-frequency scan, the throttle loop, the probe loops and the stream-opening loop.

### Behaviour kept as the code has it

In each of these places the code differs from its own comments or from the library's documentation. The model follows the code.

- **Wrong cpus in three DVFS loops.** These loops index the cpus `0 .. num_cpu-1` rather than the island's own cpus:
  - the governor check (`src/dvfs.c:214`);
  - the current-frequency scan (`src/dvfs.c:308`);
  - the setter writes (`src/dvfs.c:392`).

  `Dvfs.GovernorPhaseWidest` shows what this amounts to.
- **Current level after initialization.** The writes of the third DVFS phase do not update `current_speed_level` (`Dvfs.InitSpeedWrites`).
- **ENERGY after a DVFS failure.** `pwr_initialize` runs `init_energy` even when `init_speed_levels` failed. The status it returns is ENERGY's (`Lifecycle.InitializeOutcome`).
- **Write errors in the first generation.** `pwr_request_speed_level` in `src/power_api.c` checks `ferror` after `fprintf` and after `rewind` (`src/power_api.c:322-332`). A refused write stays in the stream's buffer until `rewind` flushes it, and `rewind` clears the error indicator (section 7.21.9.5 of C11). So neither check fires: `PWR_DVFS_ERR` is never returned, and the level is recorded whether or not the kernel took it (`Legacy.Apply`).
- **Frequency count.** `init_speed_levels` counts one level less than the tokens of the frequency file. The last token is the newline that ends the file.

## Model

| member | source | states |
|---|---|---|
| Machine.ToULong | src/structure.c:168 | conversion to `unsigned long` is the identity on its range and adds 2^64 to a negative `long` |
| Machine.ToUInt | src/dvfs.c:148-149 | conversion to `unsigned int` is the identity on its range and adds 2^32 to a small negative value |
| Machine.ToInt32 | src/structure.c:312-314 | narrowing to `gint` keeps in-range values and is congruent modulo 2^32 |
| Machine.AsLong | src/power-api.c:137 | `%ld` of an `unsigned long` reads it as a signed 64-bit value; converting back gives the id |
| Machine.CDiv | src/power_api.c:381 | C division truncates toward zero for either sign of the dividend |
| Machine.CRem | src/power_api.c:382 | C remainder has the dividend's sign, is below the divisor in size, and `a == q*b + r` |
| Text.DigitChar | src/power-api.c:137 | the digit character of a value below 10 reads back as that value |
| Text.DigitRun | src/structure.c:168 | the leading digits of a string end at its first non-digit |
| Text.Decimal | src/power-api.c:137 | the decimal text of a number is digits only, with no leading zero |
| Text.FormatLong | src/power-api.c:137 | `%ld` text is a minus sign for negatives followed by digits, with no space and no `+` |
| Text.DigitsValueOfDecimal | src/power-api.c:137 | the digits printed for `n` are worth `n` |
| Text.AtoiOfDecimal | src/structure.c:168 | `atoi` of a printed non-negative number followed by a non-digit returns the number |
| Text.LeadingValueOfDecimal | src/structure.c:168 | the leading digits of a printed number followed by a non-digit are worth the number |
| Text.SpaceRun | src/structure.c:168 | the white space `atoi` skips ends at the first character that is not white space |
| Text.AtoiOfSigned | src/structure.c:168 | `atoi` of a minus sign followed by any text is the negated value of the digits that start the text |
| Text.AtoiOfFormatNegative | src/structure.c:243 | `atoi` of a printed negative number followed by a non-digit returns it |
| Text.AtoiOfFormatLong | src/structure.c:243 | `atoi`/`sscanf("%ld")` inverts `sprintf("%ld")`, also with a trailing newline or space |
| Text.FormatLongInjective | src/power-api.c:134-144 | two numbers with the same `%ld` text are equal |
| Text.IndexOf | src/structure.c:150-151 | the first occurrence of a character (a space for `g_strsplit`, a `/` for paths), or the length of the string when it has none |
| Text.Fields | src/structure.c:150-151 | at most `n` pieces, with no space in any piece but the last |
| Text.Split | src/structure.c:150-151 | `g_strsplit(s, " ", n)` gives at most `n` pieces, and none exactly for the empty string |
| Text.JoinSplit | src/structure.c:150-151 | joining the pieces of a split with spaces gives the string back |
| Text.JoinFields | src/structure.c:150-151 | the same for the non-empty case |
| Text.FieldsJoin | src/structure.c:150-151 | space-free pieces, at most `n`, are recovered by splitting their join |
| Seqs.Insert | src/structure.c:172 | insertion adds exactly one occurrence of the element |
| Seqs.InsertSorted | src/structure.c:172 | insertion into a sorted sequence keeps it sorted |
| Seqs.SortedEnds | src/dvfs.c:294-295 | an ascending sequence lies between its first and its last element |
| Seqs.ReverseSorted | src/dvfs.c:494 | a non-increasing sequence read back to front is ascending |
| Seqs.ReverseMultiset | src/dvfs.c:494 | reversing keeps every element, as often as it occurs |
| Seqs.AddressMerge | src/dvfs.c:494 | GLib's merge of two runs at given addresses returns as many elements as the two runs hold |
| Seqs.AddressMergePermutes | src/dvfs.c:494 | that merge is a permutation of the two runs, whatever the comparator answers |
| Seqs.AddressSort | src/dvfs.c:494 | `g_array_sort` with a comparator that is handed the elements' addresses keeps the length |
| Seqs.AddressSortPermutes | src/dvfs.c:494 | that sort is a permutation of the array, whatever the comparator answers |
| Seqs.MergeUpperFirst | src/dvfs.c:494 | a comparator that always prefers the higher address makes the merge put the upper run first |
| Seqs.MergeLowerFirst | src/structure.c:172 | a comparator that always prefers the lower address makes the merge keep the runs in place |
| Seqs.AddressSortReverses | src/dvfs.c:494 | a comparator that always prefers the higher address makes the sort reverse the array |
| Seqs.AddressSortKeeps | src/structure.c:172 | a comparator that always prefers the lower address makes the sort leave the array as it is |
| Seqs.Sort | src/structure.c:172 | the sort is a permutation of its input |
| Seqs.SortSorted | src/dvfs.c:494 | the sort's result is ascending, or non-increasing when asked |
| Seqs.SortedUnique | src/structure.c:172 | two sorted permutations of the same values are equal, so any sort algorithm gives `Sort` |
| Seqs.Dedup | src/structure.c:178-192 | dedup keeps every element, adds none, repeats none and is no longer than its input |
| Seqs.DedupStep | src/structure.c:189-192 | a new element is appended exactly when it has not been seen |
| Seqs.Find | src/structure.c:180-188 | the first index holding `x`, or the length when `x` is absent |
| Seqs.FindInPrefix | src/structure.c:180-188 | an element found in a prefix has the same first index in the whole |
| Seqs.DedupOrder | src/structure.c:189-192 | the deduplicated elements are in order of first occurrence |
| Sysfs.Read | src/structure.c:121-122 | a file can be read exactly when it exists in the tree |
| Sysfs.NoSlashInNumber | src/power-api.c:137 | a printed number holds no `/` |
| Sysfs.PathInjective | src/power_api.c:619-629 | distinct cpu ids or distinct file names never share a sysfs path |
| Sysfs.FilenameInjective | src/power-api.c:134-144 | `sysfs_filename` gives distinct paths to distinct `unsigned long` ids and names |
| Codes.MessagesDistinct | src/power-api.c:104-123 | distinct listed codes have distinct messages, none of them "Unknown error" |
| Codes.SignatureDecodes | src/power-api.c:104-123 | each listed code is recovered from the length and first letter of its message, so no two listed codes share them |
| Codes.MessageUnknown | src/power-api.c:124 | every code outside the switch reads "Unknown error" |
| Context.WithModuleBits | src/structure.c:252 | `module_init \|= 1U << m` sets bit `m` and leaves every other module bit alone |
| Context.NoModuleInZero | src/power-api.c:52 | a zero `module_init` has no module set |
| Context.ConsistentFrame | src/power-api.c:42-71 | consistency depends only on the bits, counts, islands, streams and the shape of the energy record |
| Context.Context.constructor | src/power-api.c:50-54 | a new context has no module and status `PWR_OK` |
| Context.FreshConsistent | src/power-api.c:50-54 | a new context is consistent and has no module initialized |
| Context.IsInitialized | src/power-api.c:33-39 | true exactly for a non-null context, a module id below `PWR_NB_MODULES`, and its bit set |
| Context.Error | src/power-api.c:91-97 | `PWR_UNINITIALIZED` for a null context, else its status |
| Context.StrError | src/power-api.c:99-128 | "Invalid context" for null; for a context, the message `Message` tables for its status, which is a proper message for each listed code and "Unknown error" otherwise |
| Context.StrErrorDistinct | src/power-api.c:99-128 | two contexts with different listed statuses get different strings |
| Structure.CompareCpuIdAsWritten | src/structure.c:312-314 | the comparator is the `unsigned long` difference, congruent to `i0 - i1` modulo 2^32 |
| Structure.CompareCpuIdAsWrittenCycles | src/structure.c:312-314 | on values it would be no order: 0 < 2^31-1 < 2^64-1 < 0, and 0 ties with 2^32 (the sort never passes it values; see `SortIdsAsWrittenKeeps`) |
| Structure.CompareCpuId | src/structure.c:303-311 | negative, zero or positive exactly as `i0` is below, equal to or above `i1` |
| Structure.CompareCpuIdOrders | src/structure.c:303-311 | the comparison the comment describes is the ascending order and is antisymmetric |
| Structure.NarrowWrapped | src/structure.c:312-314 | a negative difference below 2^31 in size, wrapped to `unsigned long` and narrowed to `gint`, is itself again |
| Structure.SortIdsAsWrittenKeeps | src/structure.c:172 | through the cast, the comparator gets the earlier address minus the later, a negative value, so the sort leaves a sibling list in its file order |
| Structure.SortIdsAsWrittenOnKernelList | src/structure.c:172 | on an ascending list, the kernel's order, the sort as written gives the ascending sort |
| Structure.SortIdsAsWrittenUnsorted | src/structure.c:172 | the list 1, 0 stays 1, 0 as written, where the ascending sort gives 0, 1 |
| Structure.CpuList | src/structure.c:150-176 | a sibling list is parsed to an ascending permutation of its tokens' ids, non-empty for non-empty text, of at most `PWR_MAX_CPU_PER_PHYS_ISLAND` ids |
| Structure.CpuListMembers | src/structure.c:150-176 | a cpu is in the parsed list exactly when a token reads as its id |
| Structure.ParseIds | src/structure.c:167-170 | the loop turns each token into its `atoi` id converted to `unsigned long` |
| Structure.SplitRendered | src/structure.c:150-151 | a kernel-printed list splits into one piece per cpu |
| Structure.ParsePieces | src/structure.c:167-168 | each piece of a printed list reads back as its cpu id |
| Structure.ParseRendered | src/structure.c:150-176 | a sorted list printed by the kernel is parsed back to exactly its cpus |
| Structure.SiblingText | src/structure.c:116-147 | `freqdomain_cpus` when it exists, else `affected_cpus`; none when neither does |
| Structure.FirstUnreadable | src/structure.c:114-147 | the first cpu without a sibling list; every cpu before it has one |
| Structure.FirstUnreadableAt | src/structure.c:114-147 | that cpu is the only one with both properties |
| Structure.Lists | src/structure.c:114-176 | one parsed list per cpu read |
| Structure.FirstWithoutLatency | src/structure.c:203-241 | the first island without a latency file; every island before it has one |
| Structure.ListsNonEmpty | src/structure.c:150-158 | every sibling list read from a well-formed tree names a cpu |
| Structure.Found | src/structure.c:114-197 | at most one island per cpu, each non-empty |
| Structure.WithLatencies | src/structure.c:202-246 | one island per distinct list |
| Seqs.DeepEq | src/structure.c:291-301 | `phys_island_deep_eq` (and `island_deep_eq` of `src/power_api.c:644-654`, the same loop) is true exactly for equal id sequences |
| Structure.FindEqual | src/structure.c:178-188 | the scan over existing islands returns the first equal one, or their count |
| Structure.FoundStep | src/structure.c:178-192 | the next cpu's list is appended exactly when no equal island exists |
| Structure.ReadSiblings | src/structure.c:116-176 | one discovery step fails exactly when neither sibling file exists, else gives the parsed list |
| Structure.Discover | src/structure.c:114-197 | the discovery loop returns the distinct lists in discovery order, and completes exactly when every cpu has a list |
| Structure.ReadLatencies | src/structure.c:202-246 | the agility loop completes exactly when every island has a latency file, and then gives each island its latency |
| Structure.InitStructModule | src/structure.c:97-253 | `init_struct_module` leaves the state `InitStruct` describes |
| Structure.InitStructOutcome | src/structure.c:97-253 | `PWR_OK` exactly when every list and latency is readable, else `PWR_ARCH_UNSUPPORTED` (for a missing latency, the status the clean-up intends; see Findings); STRUCT set exactly on success; other bits kept; cpu count from `sysconf` |
| Structure.CleanUpAsWrittenDefined | src/structure.c:231-236 | a loop that takes islands off the front of the array returns exactly when it asks for no more than the array holds, and then has taken its first `count` |
| Structure.CleanUpAsWrittenCrashes | src/structure.c:231-236 | after island `i` was taken off, the clean-up asks for one island more than the array holds, so it does not return |
| Structure.CleanUpIntended | src/structure.c:231-236 | asking for `num_phys_islands - i - 1` islands takes off exactly the ones left |
| Structure.FoundCovers | src/structure.c:178-192 | every cpu's list is one of the islands found |
| Structure.FoundOrigins | src/structure.c:178-192 | the islands are pairwise distinct, and each is some cpu's list |
| Structure.InitStructStores | src/structure.c:199-253 | on success, island `i` holds the `i`-th list found and the latency of its first cpu |
| Structure.InitStructIslands | src/structure.c:165-192 | on success the islands are pairwise distinct, sorted and non-empty |
| Structure.CoversOf | src/structure.c:178-197 | islands holding the lists found, in order, are exactly the online cpus' sibling lists, in both directions |
| Structure.InitStructCovers | src/structure.c:104-197 | on success each island is some online cpu's list, and each online cpu's list is an island |
| Structure.InitStructOrder | src/structure.c:178-204 | on success the islands are in order of first discovery |
| Structure.InitStructConsistent | src/structure.c:97-253 | discovery keeps the context consistent |
| Structure.IslandIndex | src/structure.c:76-84 | the first island holding the cpu, or the count |
| Structure.FindIsland | src/structure.c:76-84 | the nested scan returns that index |
| Structure.IslandOf | src/structure.c:65-91 | `PWR_REQUEST_DENIED` and the island count for an offline cpu; else `PWR_OK` with the first island holding it, or `PWR_ERR` and the count when none does |
| Structure.IslandOfCpu | src/structure.c:65-91 | `pwr_island_of_cpu` changes only the status and returns `IslandOf` |
| Structure.IslandOfHeld | src/structure.c:65-91 | a cpu held by a counted island is found, at that island or earlier |
| Structure.IslandOfListedCpu | src/structure.c:65-91 | after discovery, a cpu in its own sibling list is found in an island holding it |
| Structure.Count | src/structure.c:35-63 | `PWR_OK` and the count exactly when STRUCT is set, else `PWR_UNINITIALIZED` and 0 |
| Structure.NumPhysCpus | src/structure.c:35-48 | `pwr_num_phys_cpus` changes only the status and returns `Count` |
| Structure.NumPhysIslands | src/structure.c:50-63 | `pwr_num_phys_islands` likewise |
| Structure.CountsAfterInit | src/structure.c:35-63 | after discovery the counts are the online cpus and the islands found |
| Structure.FreeStructure | src/structure.c:255-271 | only the status changes: `PWR_OK` exactly when STRUCT is set, else `PWR_UNINITIALIZED` |
| Structure.FreeStructureData | src/structure.c:255-271 | `free_structure_data` on a non-null context leaves `FreeStructure` |
| Dvfs.CompareFreqAsWritten | src/dvfs.c:511-513 | the comparator is `f1 - f0` narrowed to `gint` |
| Dvfs.CompareFreqAsWrittenCycles | src/dvfs.c:511-513 | on values it would be no order: 2^31-1 < 0 < -2 < 2^31-1 (the sort never passes it values; see `SortFreqsAsWrittenReverses`) |
| Dvfs.CompareFreq | src/dvfs.c:502-510 | negative, zero or positive exactly as `f0` is above, equal to or below `f1` |
| Dvfs.CompareFreqOrders | src/dvfs.c:502-510 | the comparison the comment describes is the highest-first order on values and is antisymmetric |
| Dvfs.SortFreqsAsWrittenReverses | src/dvfs.c:494 | through the cast, the comparator gets the later address minus the earlier, a positive `gint` for up to `MaxSpeedLevels` elements, so the sort reverses the file's order whatever the values |
| Dvfs.SortFreqsAsWrittenOnKernelFile | src/dvfs.c:494 | on a file listed highest first, the kernel's order, the sort as written gives the ascending sort |
| Dvfs.SortFreqsAsWrittenUnsorted | src/dvfs.c:494 | the file 800000 2400000 1800000 gives 1800000, 2400000, 800000, which is sorted neither way |
| Dvfs.IslandCheck | src/dvfs.c:36-50 | `PWR_OK` exactly for DVFS set and a valid island; else `PWR_UNINITIALIZED` or `PWR_INVALID_ISLAND` |
| Dvfs.NumSpeedLevels | src/dvfs.c:36-54 | the island's number of levels when valid, else 0 |
| Dvfs.CurrentSpeedLevel | src/dvfs.c:56-74 | the current level when valid, and it is below the level count; else 0 |
| Dvfs.NumSpeedLevelsOf | src/dvfs.c:36-54 | `pwr_num_speed_levels` changes only the status |
| Dvfs.CurrentSpeedLevelOf | src/dvfs.c:56-74 | `pwr_current_speed_level` changes only the status |
| Dvfs.RequestSpeedLevel | src/dvfs.c:76-134 | `pwr_request_speed_level` leaves `Request` |
| Dvfs.RequestOutcome | src/dvfs.c:76-134 | success exactly for DVFS set, a valid island and level, no repeated bound, a stream whose error indicator is clear, and an accepted flush; a failure changes only the status, plus the island's error indicator when the flush is refused |
| Dvfs.RequestErrorSticks | src/dvfs.c:109-126 | after a `PWR_DVFS_ERR` the island's stream stays failed: no later request on it succeeds, and requests on other islands keep it failed |
| Dvfs.RequestSucceeds | src/dvfs.c:109-133 | after success the island reports the level, the level's frequency is logged to its throttle file, and the other islands are untouched |
| Dvfs.RequestConsistent | src/dvfs.c:76-134 | a request keeps the context consistent |
| Dvfs.RequestBoundTwice | src/dvfs.c:101-107 | asking again for a bound just reached gives `PWR_ALREADY_MINMAX` |
| Dvfs.IncreaseSpeedLevel | src/dvfs.c:136-150 | `pwr_increase_speed_level` leaves `Increase` |
| Dvfs.IncreaseIsRequest | src/dvfs.c:136-150 | it is a request for `current + delta`; below 0 the `unsigned` sum wraps and is refused as unsupported |
| Dvfs.Agility | src/dvfs.c:152-184 | the island's latency once both levels are valid; `PWR_UNINITIALIZED` or `PWR_UNSUPPORTED_SPEED_LEVEL` and 0 otherwise |
| Dvfs.AgilityOf | src/dvfs.c:152-184 | `pwr_agility` changes only the status |
| Dvfs.IncreaseVoltage | src/dvfs.c:186-193 | only the status changes, to `PWR_UNIMPLEMENTED` |
| Dvfs.GovernorAt | src/dvfs.c:214-245 | `PWR_ARCH_UNSUPPORTED` exactly when the governor file is missing; else `PWR_OK` or `PWR_UNAVAILABLE` |
| Dvfs.GovernorScan | src/dvfs.c:210-246 | `PWR_OK` exactly when every cpu `0 .. n-1` has the userspace governor |
| Dvfs.GovernorScanExtends | src/dvfs.c:206-247 | a longer scan keeps an earlier failure and implies success of a shorter one |
| Dvfs.GovernorPhasePrefix | src/dvfs.c:206-247 | islands after a failing one are not looked at |
| Dvfs.GovernorPhaseWidest | src/dvfs.c:206-247 | the whole check is the scan of cpus `0 .. m-1`, `m` the largest island size |
| Dvfs.MaxCpus | src/dvfs.c:210 | the size of the largest island, which every island size is at most |
| Dvfs.GovernorPhaseRange | src/dvfs.c:206-247 | the check yields `PWR_OK`, `PWR_ARCH_UNSUPPORTED` or `PWR_UNAVAILABLE` |
| Dvfs.ScanGovernors | src/dvfs.c:210-246 | the inner loop computes `GovernorScan` |
| Dvfs.CheckGovernors | src/dvfs.c:206-247 | the outer loop computes the governor phase |
| Dvfs.Frequencies | src/dvfs.c:275-283 | one frequency per token but the last |
| Dvfs.SortAndCastFreqs | src/dvfs.c:488-499 | the result is the ascending permutation of the tokens' `atoi` values, slowest level first |
| Dvfs.CurFreqDefined | src/dvfs.c:301-334 | the former frequency is known exactly when every cpu `0 .. n-1` has a readable `scaling_cur_freq` |
| Dvfs.CurFreqBounds | src/dvfs.c:301-334 | when known it is non-negative and at least the reading of every cpu `0 .. n-1` |
| Dvfs.CurFreqAttained | src/dvfs.c:301-334 | when positive it is the reading of one of those cpus |
| Dvfs.CurFreqStop | src/dvfs.c:303-324 | a failed read is not recovered by reading further |
| Dvfs.MaxCurFreq | src/dvfs.c:301-334 | the loop computes `CurFreq` |
| Dvfs.ReadCurFreq | src/dvfs.c:306-334 | one turn of that loop: a missing file ends the scan with no value, otherwise the reading is taken when it is higher |
| Dvfs.FirstIndexOf | src/dvfs.c:336-344 | the level loop returns the first index of the frequency, or the count |
| Dvfs.Table | src/dvfs.c:275-299 | one level per token but the last |
| Dvfs.LevelsOf | src/dvfs.c:253-354 | an island's step keeps its cpus and agility, reports `PWR_OK`, `PWR_ARCH_UNSUPPORTED` or `PWR_INIT_ERR`, and on success leaves a usable table |
| Dvfs.ReadLevels | src/dvfs.c:257-354 | one pass of the table loop computes `LevelsOf` |
| Dvfs.RunReady | src/dvfs.c:253-355 | a run keeps cpus and agility, leaves unreached islands alone, and on success every island reached has a table |
| Dvfs.LevelsPhaseReady | src/dvfs.c:253-355 | the same for the table phase |
| Dvfs.LevelsPhase | src/dvfs.c:253-355 | the table phase keeps the island count and each island's cpus and agility |
| Dvfs.Setters | src/dvfs.c:388-419 | the setter loop succeeds exactly when every `scaling_setspeed` of cpus `1 .. n-1` takes the write, and then logs one write to each, in order |
| Dvfs.ThrottleOf | src/dvfs.c:361-440 | `PWR_OK` or `PWR_INIT_ERR`; on success one stream on the island's throttle file and the maximum level's frequency written last |
| Dvfs.OpenThrottle | src/dvfs.c:365-440 | one pass of the throttle loop computes `ThrottleOf` |
| Dvfs.SettersStop | src/dvfs.c:398-416 | once a setter write fails, later cpus add nothing |
| Dvfs.OpensFitted | src/dvfs.c:361-441 | each island's opening uses its own throttle file and ends with its own maximum write |
| Dvfs.OpenRunReady | src/dvfs.c:361-441 | a run of openings on success opened the streams in order and made each last write |
| Dvfs.ThrottlePhaseReady | src/dvfs.c:357-441 | the throttle phase on success holds one stream per island, on its throttle file, and wrote each maximum-level frequency |
| Dvfs.LevelsStep | src/dvfs.c:253-355 | one turn of the table loop extends the phase by one island |
| Dvfs.SetLevels | src/dvfs.c:253-355 | the table loop computes the table phase |
| Dvfs.OpenThrottles | src/dvfs.c:357-441 | the throttle loop computes the throttle phase |
| Dvfs.ThrottleStep | src/dvfs.c:357-441 | one turn of the throttle loop extends the phase by island `i`'s opening |
| Dvfs.InitSpeedLevels | src/dvfs.c:199-447 | `init_speed_levels` leaves the state `InitSpeed` describes |
| Dvfs.RunStop | src/dvfs.c:264-273 | once a step fails, later steps are not taken |
| Dvfs.LevelsStop | src/dvfs.c:346-352 | once an island fails the table phase, later islands are left alone |
| Dvfs.ThrottleNext | src/dvfs.c:361-441 | one more island of the throttle phase appends its stream and writes |
| Dvfs.OpenRunStop | src/dvfs.c:376-383 | once an opening fails, later openings are not tried |
| Dvfs.ThrottleStop | src/dvfs.c:357-441 | once an island fails the throttle phase, later islands are not opened |
| Dvfs.LevelsPhaseSteps | src/dvfs.c:253-355 | on success each island holds the table its own step built |
| Dvfs.RunKeeps | src/dvfs.c:253-355 | on success later steps neither failed nor touched an earlier island |
| Dvfs.TableSorted | src/dvfs.c:275-299 | the table is a permutation of the frequencies read, lowest first, so level 0 holds the lowest and the last level the highest |
| Dvfs.LevelsOfShape | src/dvfs.c:253-354 | a table that was set up holds the parsed frequencies, the maximum level is the last, and the current level is where the reported frequency first occurs |
| Dvfs.LevelsOfTable | src/dvfs.c:253-354 | an island's table is a permutation of the file's frequencies, lowest first, every frequency between those of level 0 and of the maximum level |
| Dvfs.LevelsOfCurrent | src/dvfs.c:301-354 | the current level is the first whose frequency is the highest the cpus report |
| Dvfs.InitSpeedOutcome | src/dvfs.c:199-447 | one of four statuses; DVFS set exactly on success, with every new throttle stream free of errors; other bits, counts, energy data and island cpus kept; a failed governor check changes only the status |
| Dvfs.InitSpeedConsistent | src/dvfs.c:199-447 | `init_speed_levels` keeps the context consistent |
| Dvfs.InitSpeedTables | src/dvfs.c:253-355 | on success each island's table is the one its step built |
| Dvfs.InitSpeedWrites | src/dvfs.c:357-447 | on success each island has its throttle stream, its maximum-level frequency was logged after the old log, and its current level is still the one read |
| Dvfs.FreeSpeed | src/dvfs.c:449-466 | only the status changes: `PWR_OK` when DVFS is set, else `PWR_UNINITIALIZED` |
| Dvfs.FreeSpeedData | src/dvfs.c:449-466 | `free_speed_data` on a non-null context leaves `FreeSpeed` |
| Energy.Contains | src/energy.c:118 | `strstr` finds `sub` exactly when it occurs at some index |
| Energy.FirstStop | src/energy.c:108-129 | the search stops at the first NULL or RAPL component, or at the end |
| Energy.ComponentStatus | src/energy.c:108-137 | `PWR_OK` exactly when a RAPL component with native events comes before any NULL one; else `PWR_INIT_ERR` or `PWR_UNAVAILABLE` |
| Energy.FindRapl | src/energy.c:108-129 | the component loop computes `FirstStop` |
| Energy.ProbeCount | src/energy.c:154-161 | the longest run of indices `0, 1, ...` whose event PAPI knows |
| Energy.ProbeCountStop | src/energy.c:154-161 | once an index is missing, counting further adds nothing |
| Energy.CountProbes | src/energy.c:154-169 | the counting loop computes `ProbeCount` |
| Energy.ProbeNames | src/energy.c:177-190 | probe `i` is named `prefix` followed by `i` |
| Energy.Units | src/energy.c:184-187 | each unit is the one PAPI reports for its event |
| Energy.FillProbes | src/energy.c:176-206 | the filling loop lists the counted probes in index order, with their units |
| Energy.Probes | src/energy.c:176-206 | every probe listed is an event PAPI knows |
| Energy.Zeros | src/energy.c:27-28 | `n` zero values |
| Energy.ProbeData | src/energy.c:152-206 | the record's names are the probes, with one value and one unit each |
| Energy.ReadProbes | src/energy.c:152-206 | the four loops compute `ProbeData` |
| Energy.InitEnergyModule | src/energy.c:82-213 | `init_energy` leaves the state `InitEnergy` describes |
| Energy.InitEnergyBits | src/energy.c:208-210 | ENERGY is set after a success and otherwise kept; other bits are kept |
| Energy.InitEnergyOutcome | src/energy.c:82-213 | one of four statuses; `PWR_OK` exactly when PAPI is usable; islands, streams and log kept; a failure changes only the status |
| Energy.InitEnergyProbes | src/energy.c:152-209 | on success `nbValues` is the package count plus the DRAM count, names list package then DRAM probes in order, units match, and nothing runs |
| Energy.InitEnergyConsistent | src/energy.c:82-213 | `init_energy` keeps the context consistent |
| Energy.ProbeNameInjective | src/energy.c:155-163 | two probe names are equal only for the same kind and index |
| Energy.ProbesDistinct | src/energy.c:176-206 | no probe is listed twice |
| Energy.StartEnergyCount | src/energy.c:35-56 | `pwr_start_energy_count` leaves `Start` |
| Energy.StopEnergyCount | src/energy.c:58-75 | `pwr_stop_energy_count` returns the zero record for null, else leaves `Stop` |
| Energy.StartOutcome | src/energy.c:35-56 | without ENERGY only `PWR_UNINITIALIZED`; otherwise a measurement runs with status `PWR_OK` and the same probes, after stopping a running one |
| Energy.StopOutcome | src/energy.c:58-75 | without ENERGY, zero and nothing changes; when idle, `PWR_UNAVAILABLE` and zero; when running, the readings with the context's probes and nothing runs |
| Energy.StartThenStop | src/energy.c:35-75 | starting and then stopping returns the readings with the probes, stopped and consistent |
| Energy.StopTwice | src/energy.c:64-67 | a second stop finds nothing running |
| Energy.StopConsistent | src/energy.c:58-75 | a stop keeps the context consistent |
| Energy.StartConsistent | src/energy.c:35-56 | a start keeps the context consistent |
| Energy.FreeEnergy | src/energy.c:215-244 | `PWR_UNINITIALIZED` without ENERGY; else a running measurement is stopped, status `PWR_OK` |
| Energy.FreeEnergyData | src/energy.c:215-244 | `free_energy_data` on a non-null context leaves `FreeEnergy` |
| EnergyFallback.Unsupported | src/energy.c:256-281 | only the status changes, to `PWR_ARCH_UNSUPPORTED` |
| EnergyFallback.StartEnergyCount | src/energy.c:256-260 | leaves `Unsupported` |
| EnergyFallback.StopEnergyCount | src/energy.c:262-267 | leaves `Unsupported` and returns the zero record |
| EnergyFallback.InitEnergyModule | src/energy.c:269-273 | leaves `Unsupported` |
| EnergyFallback.FreeEnergyData | src/energy.c:275-281 | leaves `Unsupported` on a non-null context |
| EnergyFallback.UnsupportedKeepsModules | src/energy.c:246-283 | without PAPI no module bit changes and consistency is kept |
| Lifecycle.InitializeContext | src/power-api.c:42-71 | `pwr_initialize` returns a fresh context holding `Initialize` |
| Lifecycle.InitializeOutcome | src/power-api.c:56-70 | a STRUCT failure sets no module; otherwise STRUCT is set and the status is ENERGY's, whatever DVFS reported; HIGH_LEVEL is never set |
| Lifecycle.SpeedKeepsModules | src/dvfs.c:199-447 | after STRUCT, DVFS leaves STRUCT set and HIGH_LEVEL as it was |
| Lifecycle.EnergyKeepsModules | src/energy.c:82-283 | ENERGY, with or without PAPI, keeps the STRUCT and HIGH_LEVEL bits |
| Lifecycle.EnergyStatus | src/energy.c:82-283 | ENERGY reports `PWR_OK` exactly when PAPI is usable, and `PWR_ARCH_UNSUPPORTED` in a build without PAPI |
| Lifecycle.InitializeConsistent | src/power-api.c:42-71 | the returned context is consistent |
| Lifecycle.FinalizeContext | src/power-api.c:73-89 | `pwr_finalize` leaves `Finalize` |
| Lifecycle.FinalizeOutcome | src/power-api.c:73-89 | module bits kept; `PWR_OK` once STRUCT was set; with no module set nothing changes; a running measurement is stopped |
| Legacy.Library.constructor | src/power_api.c:127-150 | the globals start at their static initial values |
| Legacy.Library.Initialize | src/power_api.c:162-220 | `pwr_initialize` leaves the globals and returns the status of `InitializeSpec` |
| Legacy.Library.SetUp | src/power_api.c:179-219 | the rest of `pwr_initialize` leaves `SetUpSpec` |
| Legacy.Library.RequestLevelOne | src/power_api.c:214-217 | the loop computes `RequestAll` |
| Legacy.Library.RequestSpeedLevel | src/power_api.c:304-336 | `pwr_request_speed_level` leaves `Request` |
| Legacy.Library.ModifySpeedLevel | src/power_api.c:338-347 | `pwr_modify_speed_level` leaves `Modify` |
| Legacy.Library.Finalize | src/power_api.c:222-242 | `pwr_finalize` leaves `FinalizeSpec` |
| Legacy.CompareCpuId | src/power_api.c:704-721 | -1, 0 or 1 exactly as `i0` is below, equal to or above `i1` |
| Legacy.CompareCpuIdOrders | src/power_api.c:704-721 | on values it is the ascending order and is antisymmetric |
| Legacy.SortIdsAsWrittenKeeps | src/power_api.c:497 | through the cast, `compare_cpu_id` gets two addresses and answers -1 for the earlier, so the sort leaves an `affected_cpus` list in its file order |
| Legacy.SortIdsAsWrittenOnKernelList | src/power_api.c:497 | on an ascending list the sort as written gives the ascending sort |
| Legacy.SortFreqsAsWrittenReverses | src/power_api.c:677 | through the cast, `compare_freq` gets two addresses and answers 1 for the earlier, so the sort reverses the file's order |
| Legacy.SortFreqsAsWrittenOnKernelFile | src/power_api.c:677 | on a file listed highest first the sort as written gives the ascending sort |
| Legacy.SortsAsWrittenUnsorted | src/power_api.c:497 | the ids 1, 0 stay 1, 0, and the frequencies 800000 2400000 1800000 come back reversed |
| Legacy.CpuIds | src/power_api.c:492-495 | one id per token |
| Legacy.CpuList | src/power_api.c:474-501 | an `affected_cpus` list is parsed to an ascending permutation of its tokens' ids, non-empty for non-empty text |
| Legacy.FirstUnreadable | src/power_api.c:459-473 | the first cpu without `affected_cpus`; every cpu before it has one |
| Legacy.FirstUnreadableAt | src/power_api.c:459-473 | that cpu is the only one with both properties |
| Legacy.Lists | src/power_api.c:459-501 | one parsed list per cpu read |
| Legacy.ListsNonEmpty | src/power_api.c:474-483 | every list from a well-formed tree names a cpu |
| Legacy.Found | src/power_api.c:459-524 | at most one island per cpu, each non-empty |
| Legacy.FindEqual | src/power_api.c:503-513 | the scan returns the first equal island, or the count |
| Legacy.FoundStep | src/power_api.c:503-518 | the next list is appended exactly when no equal island exists |
| Legacy.ReadSiblings | src/power_api.c:462-501 | one step fails exactly when `affected_cpus` is missing, else gives the parsed list |
| Legacy.Discover | src/power_api.c:459-524 | the loop returns the distinct lists in discovery order, and completes exactly when every cpu has a list |
| Legacy.FirstWithoutLatency | src/power_api.c:526-544 | the first island without a latency file; every island before it has one |
| Legacy.FirstWithoutLatencyAt | src/power_api.c:526-544 | that island is the only one with both properties |
| Legacy.WithLatencies | src/power_api.c:526-549 | island `i` gets id `i`, its cpus, and the `current_speed_level` left by `malloc` |
| Legacy.ReadLatencies | src/power_api.c:526-549 | the agility loop stores the islands up to the first without a latency, and completes exactly when there is none |
| Legacy.TableOrder | src/power_api.c:581-601 | a table is a permutation of the file's frequencies, lowest first, between its first and last level |
| Legacy.TableOf | src/power_api.c:563-605 | succeeds exactly when the frequency file exists; keeps id, cpus, agility and current level; a failure leaves the island as it was |
| Legacy.TableOfHasTable | src/power_api.c:568-601 | a table read is that file's table, with levels `0 .. num-1` |
| Legacy.RunFrame | src/power_api.c:561-608 | a run keeps what steps keep, leaves unreached islands alone, and on success each reached island is its step's result |
| Legacy.LevelsPhase | src/power_api.c:561-608 | the table phase keeps each island's id, cpus, agility and current level |
| Legacy.LevelsPhaseTables | src/power_api.c:561-608 | on success each island carries the table of its own frequency file |
| Legacy.RunStop | src/power_api.c:574-580 | once a step fails, later steps are not taken |
| Legacy.LevelsStep | src/power_api.c:561-608 | one more island is read into its table |
| Legacy.LevelsStop | src/power_api.c:574-580 | once a frequency file is missing the phase has failed and no later island is tried |
| Legacy.SetLevels | src/power_api.c:561-608 | the loop of `init_speed_levels` computes the table phase |
| Legacy.SetLevel | src/power_api.c:561-608 | one turn of that loop extends the phase by island `i`'s step: its table, or the failure of a missing file |
| Legacy.ReadTable | src/power_api.c:565-605 | one pass of that loop computes `TableOf` |
| Legacy.Throttles | src/power_api.c:190-197 | each island's throttle stream is `scaling_setspeed` of its first cpu |
| Legacy.Speeds | src/power_api.c:190-198 | each island's speed stream is `scaling_cur_freq` of its first cpu |
| Legacy.OpenFiles | src/power_api.c:185-207 | the loop succeeds exactly when both streams of every island open, and then holds them in island order |
| Legacy.Opened | src/power_api.c:185-213 | the globals with every stream open and `initialized` set are consistent |
| Legacy.RequestAll | src/power_api.c:214-217 | the level-1 requests keep the globals consistent, initialized, and with the same counts and streams |
| Legacy.RequestAllFrame | src/power_api.c:214-217 | the requests are made one island at a time, in order, each through its own stream |
| Legacy.SetUpSpec | src/power_api.c:179-219 | `PWR_OK` or `PWR_INIT_ERR`; `PWR_OK` exactly when every frequency file was read and every stream opened; `initialized` set exactly on success; consistent |
| Legacy.InitializeOutcome | src/power_api.c:162-220 | a second call gives `PWR_ALREADY_INITIALIZED` and changes nothing; otherwise `PWR_OK` exactly when every needed file is there, else `PWR_INIT_ERR`; consistent |
| Legacy.InitializeSetsUp | src/power_api.c:169-182 | a successful call read every cpu's list and every latency, then set up |
| Legacy.Collected | src/power_api.c:169-178 | after `init_cpu` and `init_islands` the globals hold one island per count, each ready for the table phase |
| Legacy.SetUpIsland | src/power_api.c:185-217 | on success island `i` has its throttle stream and is its table with the level-1 request applied |
| Legacy.SetUpLevelOne | src/power_api.c:214-217 | on success every island with a level 1 is at level 1; an island with one level keeps its level |
| Legacy.InitializeIslands | src/power_api.c:162-220 | on success island `i` has id `i` and the `i`-th distinct list, the lists are distinct and cover every cpu, and each table is its file's |
| Legacy.SetUpIslands | src/power_api.c:179-207 | set-up keeps ids and cpus and gives each island its own table |
| Legacy.FoundCovers | src/power_api.c:459-524 | every cpu's list is one of the islands found |
| Legacy.InitializeLevelOne | src/power_api.c:213-217 | on success every island with a level 1 is at level 1; one with a single level keeps the `malloc` garbage |
| Legacy.Apply | src/power_api.c:311-335 | one of three statuses, never `PWR_DVFS_ERR`; `PWR_OK` exactly for a level within bounds that is not a repeated bound; success sets the level and nothing else changes |
| Legacy.Request | src/power_api.c:304-336 | `PWR_UNINITIALIZED` before initialization, `PWR_INVALID_ISLAND` for a bad id, never `PWR_DVFS_ERR`, any failure changes nothing, counts and streams kept, consistent |
| Legacy.RequestOthers | src/power_api.c:304-336 | a request leaves the other islands as they were |
| Legacy.RequestAllAt | src/power_api.c:214-217 | after the level-1 requests each island is as its own request left it |
| Legacy.CurrentSpeedLevel | src/power_api.c:293-302 | `PWR_OK` with the level exactly when initialized and the id valid; else `PWR_UNINITIALIZED` or `PWR_INVALID_ISLAND` |
| Legacy.NumSpeedLevels | src/power_api.c:282-291 | `PWR_OK` with the level count exactly when initialized and the id valid |
| Legacy.ModifyIsRequest | src/power_api.c:338-347 | a modify is a request for `current + delta`; outside `[0, max]` it is refused and changes nothing |
| Legacy.RequestThenQuery | src/power_api.c:304-336 | after success the island reports the level, the frequency is logged to its stream, and other islands are untouched; repeating a bound gives `PWR_ALREADY_MINMAX` |
| Legacy.Agility | src/power_api.c:349-361 | the island's latency as both best and worst case once initialized |
| Legacy.AgilitySymmetric | src/power_api.c:349-361 | the answer ignores the two levels |
| Legacy.ModifyVoltage | src/power_api.c:363-369 | `PWR_UNIMPLEMENTED` once initialized, `PWR_UNINITIALIZED` before |
| Legacy.IsInitialized | src/power_api.c:157-160 | always `PWR_OK`, with the flag |
| Legacy.Count | src/power_api.c:264-270 | `pwr_num_islands` and `pwr_num_cpu` (lines 731-737): the count exactly when initialized, else `PWR_UNINITIALIZED` |
| Legacy.IslandIds | src/power_api.c:272-280 | `PWR_OK` with every island's id in order once initialized |
| Legacy.AccessorsAroundInitialize | src/power_api.c:264-302 | accessors refuse before initialization; after success the counts are the islands and cpus, and the ids are `0 .. num-1` |
| Legacy.FinalizeSpec | src/power_api.c:222-242 | refused before initialization; else `PWR_OK`, not initialized, no streams |
| Legacy.FinalizeThenInitialize | src/power_api.c:222-242 | after finalize the library can be initialized again, and a second finalize is refused |
| Legacy.EnergyCounter | src/power_api.c:371-396 | joules and micro-joules by truncating division; `PWR_ERR` exactly for zero joules; the clock only on success |
| Legacy.EnergySplit | src/power_api.c:377-385 | for a non-negative count the parts recompose it to the microjoule, micro-joules stay below a million, and `PWR_ERR` means under a joule |
| Legacy.EnergyNegative | src/power_api.c:377-385 | a negative count splits as its absolute value does, negated |

## Left out

- I/O is an oracle. The sysfs tree, `sysconf(_SC_NPROCESSORS_ONLN)`, the `cpuN` count of `init_cpu`, PAPI's answers and `clock_gettime` are parameters. Error messages printed to `err_fd` or `stderr` are not modelled.
- `g_regex_new` in `init_cpu` cannot fail on its constant pattern, so only the directory-open failure is modelled (`cpuCount == None`).
- Memory management (`malloc`, `free`, `fclose`, the leaked handles on failure paths) is not modelled. Freeing routines change only the status and the stream lists.
- `pwr_stop_energy_count`'s duration is a floating-point difference of clock readings and is left out, and so is `PAPI_reset`. The counter values are a parameter.
- `src/ecount.c` (`ec_initialize`, `ec_start_e_counters`, `ec_read_e_counters`) is not part of this model. The first generation's `pwr_energy_counter` takes the counter value as a parameter.
- `tools/emeas.c` and the unit tests are not part of this model.
- Voltage fields of the islands (`num_voltages`, `voltages`, `current_voltage`) and the unused policy and `hw_behavior` arguments are left out. `pwr_hw_behavior` and `pwr_change_hw_behavior` only return `PWR_UNIMPLEMENTED` and are left out.
- `pwr_ecount_finalize` only calls into `src/ecount.c` and is left out.
- The `g_array_sort` calls are modelled by the ascending sort. This is the order the code gives on the kernel's files, and the one the speed levels are documented to have. The sort as written, through the `(GCompareFunc)` cast, is modelled beside it and compared with it (see Findings).
- Structure.InitStruct: when a latency is missing the model reports `PWR_ARCH_UNSUPPORTED` with no islands, as the clean-up intends. As written the clean-up writes to the freed island array and then dereferences NULL, so C does not return (see Findings). The leak of the island whose latency failed is not modelled.
- Dvfs.RequestSpeedLevel: the text of a refused write may stay in the stream's buffer and reach the file at a later flush or at `fclose`. The model logs only writes that were accepted.
- `atoi` and `sscanf("%ld")` overflow is not modelled: the parsed value is exact. `sscanf` with no digits leaves the target unset in C; the model uses 0, as `atoi` does.
- The sysfs tree is assumed well formed (`WellFormed`): every file is non-empty. An empty sibling list or frequency list would make the C code index an empty array.
- Legacy: when `init_islands` fails on a latency, the global `islands` array is left partly filled with unset records. The model keeps the islands read before the failure and no others.
- Legacy: `pwr_initialize` after a failed earlier call re-runs the steps on top of what the failed call stored, without freeing. The model recomputes the globals from scratch.
- Dvfs.Agility: requires a valid island once DVFS is set, because `pwr_agility` indexes the island array without checking it.
- Legacy.Agility: requires a valid island once initialized, because `pwr_agility` indexes the island array without checking it.
- Dvfs.Setters: a `scaling_setspeed` file that cannot be opened counts as a failed write, so the phase ends in `PWR_INIT_ERR`. The C code passes `fopen`'s NULL to `fprintf` unchecked (`src/dvfs.c:393-397`), which is undefined behaviour, so the model does not promise what C does there.
- Structure.IslandOf: for an online cpu it requires that the island array holds `num_phys_islands` records. After a failed discovery the context keeps the count but not the records, and C then reads a freed or never-set `phys_islands`; the model says nothing about that case. The `ctx == NULL` branch of `pwr_island_of_cpu` dereferences NULL and is not modelled.
- Dvfs.GovernorScan: states which cpus make the scan succeed, but not which failing cpu's status is reported when several fail.
- Legacy.CurrentSpeedLevel: returns 0 as the value on failure, where C leaves the out-parameter unwritten.
- Legacy.Library.Initialize: the garbage `malloc` leaves in `current_speed_level` is the parameter `unset`, so a caller picks it.

## Findings

In each row the as-written member models the code, and the corrected member is the one the rest of the model uses.

| source | as written | input that shows it | evidently intended | confidence | as-written member | corrected member |
|---|---|---|---|---|---|---|
| src/dvfs.c:494 | `compare_freq` takes two `long` values, but the `(GCompareFunc)` cast lets GLib pass it two element addresses. It returns the later address minus the earlier, a positive `gint`, so the merge sort always takes the later element first and reverses the array | a `scaling_available_frequencies` file listing `800000 2400000 1800000` gives the table 1800000, 2400000, 800000, sorted neither way; only a file listed highest first, as the kernel writes it, comes out ascending | an ascending table, slowest level first, as `include/dvfs.h:34-38` and the comment at `src/dvfs.c:290` say (the comment above `compare_freq` says highest first) | not executed | Dvfs.SortFreqsAsWrittenUnsorted | Dvfs.SortAndCastFreqs |
| src/power_api.c:677 | the same cast hands the older `compare_freq` two addresses; it answers 1 for the earlier one, so the sort reverses the array | the frequency file `800000 2400000 1800000` gives 1800000, 2400000, 800000 | an ascending table, the slowest level first, as `include/power_api.h:551` says | not executed | Legacy.SortsAsWrittenUnsorted | Legacy.TableOrder |
| src/structure.c:172 | `compare_phys_cpu_id` is handed two addresses and returns the earlier minus the later, wrapped to `unsigned long` and narrowed to a negative `gint`, so the sort leaves the ids in file order | a sibling list `1 0` gives the cpus 1, 0. An island listed `0 1` by another cpu then counts as a different island | the ids sorted, as the comment at `src/structure.c:165` says, in the ascending order the comment of `compare_phys_cpu_id` describes (`src/structure.c:303-311`) | not executed | Structure.SortIdsAsWrittenUnsorted | Structure.CpuList |
| src/power_api.c:497 | `compare_cpu_id` is handed two addresses and answers -1 for the earlier one, so the sort leaves the ids in file order | an `affected_cpus` list `1 0` gives the cpus 1, 0 | the ids sorted, as the comment at `src/power_api.c:490` says, in the ascending order of `compare_cpu_id` | not executed | Legacy.SortsAsWrittenUnsorted | Legacy.CpuList |
| src/structure.c:224-236 | when a latency file is missing, the clean-up frees `ctx->phys_islands` and then stores into it. Its loop runs `num_phys_islands - i` times, but `phys_islands_gpa` holds only `num_phys_islands - i - 1` islands, so the last `g_ptr_array_remove_index` returns NULL and the code dereferences it | any tree in which the `cpuinfo_transition_latency` file of an island's first cpu is missing | free the islands that are left and return `PWR_ARCH_UNSUPPORTED` | not executed | Structure.CleanUpAsWrittenCrashes | Structure.InitStructOutcome |
