# Boot path of HelloInitOS, verified

A Dafny model of the boot path: the kernel image on its way from the ELF file into memory, the FAT16
image it boots from, stage 1 of the kernel (a 4-level page table built in raw physical memory), the
four interrupt stubs, and stages 3 to 5 interleaved with two timers. `dafny verify dfyconfig.toml`
checks everything.

| file | models |
|---|---|
| `Words`, `Bytes`, `Wrappers`, `ByteMemory` | 64-bit words, little-endian fields, results, bytes of word memory |
| `PageTables` | the hardware walk (Intel SDM Vol. 3A, section 4.5) and the tree that the builder keeps in memory |
| `AddressSpace` | canonical addresses, ranges of pages, the distinct tables of a range, the intended address space |
| `PageAllocator`, `PageTableBuilder` | the two-source page allocator, `mapPageDual`, `mapRangeDual`, the aliases, the touch test |
| `FirmwareMap` | descriptors in the bytes of the map, the scan, and what a sound hand-over is |
| `Stage1`, `Stage1Limits` | the pool, the capacity bound, stage 1 as a whole, and exactly when it halts |
| `Idt`, `BringUp`, `Waits` | gates, stages 2 to 5 as a state machine under every interleaving with PIT and local APIC, and the liveness of its waits |
| `KernelRun` | stage 1 followed by every run of the later stages |
| `Stubs` | the four assembly stubs on a register-and-stack machine |
| `Fat16Sizing`, `Fat16Format`, `Fat16Builder` | the FAT sizing loop, names and entries, the image builder |
| `Fat16Reader`, `Fat16RoundTrip` | a reader driven by the boot sector alone, and the proof that it gets every file back and finds no other |
| `Fat16Image` | the image byte by byte: boot sector, reserved FAT entries, the three directories, the file |
| `KernelImage`, `ElfLayout`, `KernelBlob`, `Loader` | ELF extent and padding, the ELF headers field by field, the printed initialiser and a tokeniser, `efi_main`, and all of it end to end |

Memory is one array of 64-bit words that the builder updates in place; table pages, their levels and
the pages handed out so far are ghost state. The walk is a function of memory alone, so the theorems
about mappings are about what the processor reads, not about the builder's own records. What is read
from bytes (firmware descriptors, ELF headers, gates, FAT entries, directory entries) is tied to an
independent writer of the same layout, or to the literal bytes.

The results to read first: `Stage1.KernelStage1` (stage 1 runs through exactly if the page pool serves
the distinct tables of both halves; the address space is then exactly the intended one, and nothing
else in memory moved), `Stage1Limits.StageServesExactly` with `Stage1Limits.PageZeroIsReadAsFailure`,
`Loader.BootImage` (every byte of every load segment ends up readable at both its addresses),
`Fat16RoundTrip.ReadBack` with `Fat16Builder.BuildImage`, `BringUp.LogIndependentOfTiming` with
`Waits.EveryFairRunFinishes` and `Waits.LostWakeUpSleeps`, `KernelRun.RunKernel`, and
`Stubs.PageFaultReturns`.

What the model assumes of the firmware: the three allocations are page-aligned, pairwise disjoint and
below 2^47, and the map buffer is not at address 0; conventional and loader-data descriptors are
page-aligned and end at or below 2^47, and conventional ones are pairwise disjoint; a loader-data
descriptor that holds the start of the map buffer covers all of it, and if the scan finds none, there
is a megabyte below 2^47 behind the map for the guessed end; the map fits into the size that was
reported first, and its descriptors have at least 40 bytes. A conventional range may overlap the
pool, the kernel or the stack, and may start at 0.

## Model

| member | source | states |
|---|---|---|
| Words.PageAlignDown | src-os/kernel/init.cpp:836-838 | the page boundary at or below the address |
| Words.PageAlignUp | src-os/kernel/init.cpp:840-842 | the page boundary at or above the address, and 0 when the 64-bit sum wraps |
| Words.XorBit | src-os/kernel/init.cpp:1143 | a bit of the flipped word is set exactly if one of the two bits is, for each of the 64 bits |
| Words.XorTwice | src-os/kernel/init.cpp:1142-1144 | flipping with the same mask again gives back the word |
| PageTables.WalkIsLookup | src-os/kernel/init.cpp:1054-1100 | on a tree as the builder keeps it, the 4-level hardware walk of any page finds exactly the leaf slot of its level-1 table, or nothing if that table is missing |
| PageTables.LinkTable | src-os/kernel/init.cpp:1061-1070 | zeroing a fresh page and linking it as a missing child keeps the tree and leaves the walk of every page as it was |
| PageTables.SetLeaf | src-os/kernel/init.cpp:1098-1099 | writing a leaf slot changes the walk of that page and of no other |
| PageTables.TableAtIsTree | src-os/kernel/init.cpp:1059-1098 | the table the hardware reaches at each level is the page that holds it, and is reached only if it was made |
| PageTables.NoSharedTables | src-os/kernel/init.cpp:1059-1098 | no page serves as a table at two levels or for two different prefixes |
| PageTables.EmptyTree | src-os/kernel/init.cpp:1015-1019 | a zeroed root maps nothing |
| PageTables.WalkSkipsRootSlot | src-os/kernel/init.cpp:1141-1145 | whatever is written to root entry 0, walks through other root entries do not change |
| PageTables.WalkNeedsRootSlot | src-os/kernel/init.cpp:1141-1145 | with root entry 0 absent no page under it is mapped |
| PageAllocator.ScratchPagesExact | src-os/kernel/init.cpp:1007-1020 | the bump source yields exactly the aligned pages of its region outside kernel and stack, each once and in ascending order |
| PageAllocator.RangePagesExact | src-os/kernel/init.cpp:1023-1042 | a conventional range yields exactly its pages outside kernel, stack and consumed pool, each once and in ascending order |
| PageAllocator.PoolExact | src-os/kernel/init.cpp:992-1044 | the pages the allocator can ever return are exactly the usable pages of both sources |
| PageAllocator.PoolSafe | src-os/kernel/init.cpp:992-1044 | they are pairwise distinct, page-aligned, below 2^47 and outside kernel and stack |
| AddressSpace.PathOfVpn | src-os/kernel/init.cpp:902-905 | the four table indices of an address are the base-512 digits of bits 47..12 |
| AddressSpace.PagePathInjective | src-os/kernel/init.cpp:902-905 | two pages with the same indices are the same page |
| AddressSpace.FourReads | src-os/kernel/init.cpp:902-909 | the translation of any canonical address as a function of the four entries it reads, with the bit positions of indices, address field, P, R/W and PS written out |
| AddressSpace.TableInRange | src-os/kernel/init.cpp:1102-1109 | a page at or behind the end of a range meets a table of that range exactly if both lie in the same aligned block |
| AddressSpace.RangeTablesCount | src-os/kernel/init.cpp:1102-1109 | the distinct tables that a range of pages runs through, counted exactly from its first page and length |
| AddressSpace.TablesBound | src-os/uefi/efi_main.cpp:213-222 | a range of n pages runs through at most the sum over three levels of floor((n+B-2)/B)+1 tables |
| AddressSpace.TablesBoundSharp | src-os/uefi/efi_main.cpp:213-222 | at one position, for every n, that many are met |
| AddressSpace.Regions.FourRanges | src-os/kernel/init.cpp:1111-1117 | the four mapping calls of a half together map kernel, stack, touch and APIC page and nothing else |
| AddressSpace.TwoHalves | src-os/kernel/init.cpp:1111-1133 | identity half and alias half, starting from an empty root, make the intended address space and no more |
| AddressSpace.TranslatesAsIntended | src-os/kernel/init.cpp:1111-1133 | every 64-bit linear address translates exactly as intended: own frame, own offset, writable, or a fault |
| AddressSpace.ProbeFaults | src-os/kernel/init.cpp:17-21 | the stage 5 probe address faults if and only if no region shows its page |
| PageTableBuilder.LeafWordDecodes | src-os/kernel/init.cpp:907-909 | a leaf entry decodes to the frame and to the requested writable bit |
| PageTableBuilder.LeafWordIs | src-os/kernel/init.cpp:907-909 | as a number, the leaf entry is the page address plus 3 if writable and plus 1 if not |
| PageAllocator.PageZeroInPool | src-os/kernel/init.cpp:1022-1043 | page 0 is among the pages of the allocator if and only if a conventional range begins with it and neither kernel nor stack holds it |
| Stage1Limits.ServesExactly | src-os/kernel/init.cpp:1005-1044 | a pool serves k allocations if and only if it has k pages and page 0, whose place is counted from the layout, is not among the first k |
| Stage1Limits.StageServesExactly | src-os/kernel/init.cpp:1024-1036 | for a sound hand-over: without a conventional range at page 0 the pool serves as many allocations as it has pages, with one it serves those before page 0 and no more |
| Stage1Limits.PageZeroIsReadAsFailure | src-os/kernel/init.cpp:1024-1036 | a sound hand-over with 132 pages for 131 tables that cannot be served, because the 131st page is page 0 and reads as out of memory |
| Stage1Limits.OnePageShort | src-os/uefi/efi_main.cpp:213-222 | a sound hand-over with 24066 kernel pages that needs 131 pages and has 130 |
| Stage1Limits.HaltsOnLarge | src-os/kernel/init.cpp:848-1147 | stage 1 halts on both, and prints E: the missing table is a level-1 table |
| PageTableBuilder.Builder.constructor | src-os/kernel/init.cpp:985-990 | the cursors start so that the whole pool is left |
| PageTableBuilder.Builder.AllocPage | src-os/kernel/init.cpp:1005-1044 | returns the next page of the pool, zeroed, and changes no other word; 0 with nothing changed when the pool is empty |
| PageTableBuilder.Builder.ScratchPage | src-os/kernel/init.cpp:1007-1020 | the same for the bump source, or its end reached with nothing changed |
| PageTableBuilder.Builder.FallbackPage | src-os/kernel/init.cpp:1023-1043 | the same for the cached ranges |
| PageTableBuilder.Builder.NewTable | src-os/kernel/init.cpp:1061-1070 | a missing table is made and linked, all walks unchanged, or 0 exactly when no page can be had |
| PageTableBuilder.Builder.NextTable | src-os/kernel/init.cpp:1072-1083 | follows an existing table or makes one; halts with its letter exactly when it is missing and no page can be had |
| PageTableBuilder.Builder.LeafTable | src-os/kernel/init.cpp:1059-1096 | the tables of the path are there, each missing one on the next page; it runs through if and only if as many pages can be had as tables are missing, and otherwise stops with the letter of the first one that cannot be served; with no page left that is C, D or E for the first table missing |
| PageTableBuilder.Builder.MapPage | src-os/kernel/init.cpp:1054-1100 | the walk of the page finds the frame with the requested writable bit, every other walk is unchanged, exactly the tables of the path were added; a halt means that the missing ones could not be served, and its letter says at which level |
| PageTableBuilder.Builder.MapRange | src-os/kernel/init.cpp:1102-1109 | exactly the pages of the range are mapped, and exactly its tables were added; it halts if and only if a page for each missing table cannot be had |
| PageTableBuilder.Builder.MapHalf | src-os/kernel/init.cpp:1111-1131 | all regions at one offset, with exactly the tables of that half; it halts if and only if the missing ones cannot be served |
| PageTableBuilder.Builder.AllocRoot | src-os/kernel/init.cpp:1046-1052 | the first page of the pool becomes an empty root, or code B |
| PageTableBuilder.Builder.MapHalves | src-os/kernel/init.cpp:1111-1133 | from an empty root to the intended address space, with exactly the tables of both halves, under the same condition |
| PageTableBuilder.Builder.Build | src-os/kernel/init.cpp:1046-1133 | the whole construction runs through if and only if a page can be had for the root and for each distinct table of both halves; then the tree is kept, the address space is as intended and exactly those pages are spent; otherwise the letter is B for the root and C, D or E for the level of the table that could not be served |
| PageTableBuilder.AliasRootEntry | src-os/kernel/init.cpp:1141 | an alias goes through root entry 256 or above |
| PageTableBuilder.TouchWord | src-os/kernel/init.cpp:1141-1145 | whatever stands in root entry 0, the alias of the root page translates to the root page |
| PageTableBuilder.Builder.TouchTest | src-os/kernel/init.cpp:1141-1145 | all four accesses reach root entry 0 of the live table; each of the 64 bits of the check read is that of the word, flipped exactly where 0xa5a5a5a5a5a5a5a5 has a one; memory ends as it began |
| PageTableBuilder.FlipBlindsIdentity | src-os/kernel/init.cpp:1142-1145 | in the finished address space, between the two stores no address below 512 GiB translates |
| FirmwareMap.Scan | src-os/kernel/init.cpp:939-963 | ranges and buffer end are those of the descriptors that the scan looks at, each read from its own bytes in memory |
| FirmwareMap.ScanStops | src-os/kernel/init.cpp:945-949 | the scan ends with the map or 256 KiB of it, or with exactly 64 ranges, and never later nor earlier |
| FirmwareMap.ScanTakes | src-os/kernel/init.cpp:950-962 | one descriptor more, in terms of its fields: type 7 with pages adds its range, type 2 around the map buffer sets the buffer end, anything else changes nothing |
| FirmwareMap.DescriptorReadsBack | src-os/kernel/init.cpp:869-876 | the 40 bytes of Type, Pad, PhysicalStart, VirtualStart, NumberOfPages and Attribute, at any offset, read as type, start and page count |
| FirmwareMap.DescriptorInMemory | src-os/kernel/init.cpp:950 | the same for the kernel's read from word memory, at any byte address |
| FirmwareMap.BufferEndSound | src-os/kernel/init.cpp:951-957 | the detected buffer end covers the whole buffer, if one is detected |
| Stage1.PoolEndCovers | src-os/kernel/init.cpp:965-986 | detected or guessed, the pool reaches 130 pages into the buffer |
| Stage1.MmapEndIs | src-os/kernel/init.cpp:889-890 | the map ends at the first page boundary at or behind its last byte |
| Stage1.GuessedEnd | src-os/kernel/init.cpp:972-984 | the guessed end is a megabyte behind the map, or the first of kernel and stack that begins behind the map and before that |
| Stage1.LayoutIs | src-os/kernel/init.cpp:965-990 | where kernel, stack and pool lie for the allocator, and which ranges it falls back to |
| Stage1.LayoutSound | src-os/kernel/init.cpp:965-990 | the pool starts with 130 pages of the buffer in order and can be handed out safely |
| Stage1.Capacity | src-os/uefi/efi_main.cpp:213-222 | root and tables of both halves fit into 130 pages in the worst case if and only if the kernel has at most 24065 pages |
| Stage1.RegionUntouched | src-os/kernel/init.cpp:1016-1018 | a region that the handed-out pages avoid is unchanged, word for word |
| Stage1.BuildAndTouch | src-os/kernel/init.cpp:1046-1145 | construction and touch test leave the intended address space, if and only if the pool serves the tables needed; otherwise the letter names the level of the first table that could not be served |
| Stage1.KernelStage1 | src-os/kernel/init.cpp:848-1147 | for every sound hand-over: code A exactly for bad arguments; it runs through if and only if the pool serves the root and every distinct table of both halves, so always up to 24065 kernel pages, and otherwise prints the letter of the first table that could not be served; then every byte of kernel, stack, first buffer page and APIC page is at its own address and 0xffff800000000000 above, writable, and every other address faults; tables come from the front of the pool, outside kernel and stack, and nothing else changes |
| Idt.GateDecodes | src-os/kernel/init.cpp:179-188 | the handler is recovered from the three pieces, and selector, IST, type and reserved fields are those asked for |
| Idt.GateLayout | src-os/kernel/init.cpp:148-156 | the sixteen bytes of a gate in memory: handler in bytes 0, 1 and 6 to 11, low bytes first, selector, IST, type, zeros |
| Idt.ClearAll | src-os/kernel/init.cpp:167-177 | all 256 gates are empty |
| Idt.SetGate | src-os/kernel/init.cpp:179-188 | one gate decodes to the handler, the other 255 are unchanged |
| Stubs.Machine.Run | src-os/kernel/idt_entry.S:7-44 | the machine ends in the state that the instructions define |
| Stubs.Interrupt | src-os/kernel/irq_entry.S:7-42 | the machine runs the listed stub of any of the three dispatchers: that dispatcher is called with the interrupted registers, 128 bytes below the frame, what it leaves in memory below the frame stays, and execution goes on as interrupted |
| Stubs.Fault | src-os/kernel/pf_entry.S:7-45 | the machine runs the listed page-fault stub: the dispatcher is called with a pointer to the error code, what it leaves in memory below the frame stays, and execution goes on two bytes further |
| Stubs.DeliverFrame | src-os/kernel/pf_entry.S:1 | delivery leaves the return frame, aligned, with or without an error code, and nothing above the old top changes |
| Stubs.Restores | src-os/kernel/idt_entry.S:26-40 | popping gives each of the 15 registers its value on entry, whatever happened below the saved ones |
| Stubs.AtCallIs | src-os/kernel/idt_entry.S:7-24 | at the call of a dispatcher all registers are as interrupted, RSP is 128 below the delivered frame, and nothing above was touched |
| Stubs.BreakpointListing | src-os/kernel/idt_entry.S:7-44 | the listing is the five-word stub around the breakpoint dispatcher |
| Stubs.Irq32Listing | src-os/kernel/irq_entry.S:7-42 | the same for the PIT stub |
| Stubs.LapicTimerListing | src-os/kernel/lapic_entry.S:7-42 | the same for the APIC stub |
| Stubs.FiveWordReturns | src-os/kernel/idt_entry.S:7-44 | with any conforming dispatcher all registers, RIP, CS, RFLAGS and RSP are as interrupted, SS is 0x10, memory from the old RSP up is unchanged |
| Stubs.FiveWordCallMisaligned | src-os/kernel/idt_entry.S:23-24 | at the call RSP is 8 modulo 16, for every interrupted RSP |
| Stubs.PageFaultListing | src-os/kernel/pf_entry.S:7-45 | the listing is the page-fault stub |
| Stubs.FaultCallArguments | src-os/kernel/pf_entry.S:23-26 | the dispatcher gets a pointer to the error code with the saved RIP behind it, and RSP is a multiple of 16 |
| Stubs.PageFaultReturns | src-os/kernel/pf_entry.S:7-45 | the error code is dropped and the machine resumes two bytes further with everything else as interrupted, SS 0x10 |
| BringUp.MainLog | src-os/kernel/init.cpp:1202-1289 | each statement adds to the log what belongs to it and no more |
| BringUp.TickLog | src-os/kernel/init.cpp:489-496 | a tick in or just behind its wait keeps the log on plan: ticks 1 to 3 reported once, later ones silent, for both timers |
| BringUp.WaitLogs | src-os/kernel/init.cpp:1232-1234 | check and `hlt` add nothing themselves, and the whole wait adds three ticks |
| BringUp.DeliverableHasGate | src-os/kernel/init.cpp:1226-1271 | whatever can be delivered arrives in or just behind its own wait and finds a present 64-bit interrupt gate with the right selector and handler |
| BringUp.StepKeeps | src-os/kernel/init.cpp:1202-1289 | every scheduling step keeps the invariant, also a tick between the check of a count and the `hlt` |
| BringUp.InterruptsHaveGates | src-os/kernel/init.cpp:1202-1289 | over every schedule no interrupt meets a wrong or unusable gate or one that leaves interrupts on, and no trap goes wrong |
| BringUp.TableThroughout | src-os/kernel/init.cpp:1202-1289 | over every schedule all 256 gates are as planned: four set, each from its own statement on and with its own type, the other 252 empty |
| BringUp.DeliveryTakesLineDown | src-os/kernel/init.cpp:489-519 | over every schedule a delivery counts one tick, takes the line of its own timer down and leaves that of the other one |
| Waits.ArmedBeforeGate | src-os/kernel/init.cpp:1251-1263 | the APIC timer can be pending while gate 34 is still empty, with interrupts off |
| BringUp.LogIndependentOfTiming | src-os/kernel/init.cpp:1216-1289 | over every schedule the log is a prefix of one fixed log, and is that log at the end |
| BringUp.ExpectedLog | src-os/kernel/init.cpp:1206-1289 | that log, event by event: ticks 1, 2, 3 once each before their stage is done, and the fault lines exactly if the probe is not mapped |
| Waits.RoundGetsOn | src-os/kernel/init.cpp:1232-1234 | every fair round, with any choices in between, lowers the rank of what is left to do |
| Waits.WaitPasses | src-os/kernel/init.cpp:1232-1234 | over every schedule a wait is passed after as many fair rounds as ticks are missing and one more: one if the count is complete, two if it became complete between check and `hlt` |
| Waits.AwakePasses | src-os/kernel/init.cpp:1232-1235 | awake at the check with three ticks counted, the wait is passed if and only if the main line moves |
| Waits.LostWakeUpSleeps | src-os/kernel/init.cpp:1232-1234 | with three ticks counted but the processor asleep or about to sleep, no schedule passes the wait without a further tick |
| Waits.LostWakeUp | src-os/kernel/init.cpp:1232-1234 | that state is reachable: a tick between check and `hlt` leaves the processor asleep with the count at three |
| Waits.EveryFairRunFinishes | src-os/kernel/init.cpp:1216-1289 | every run with enough fair rounds, after any past, reaches the end with the whole log |
| KernelRun.RunKernel | src-os/kernel/init.cpp:848-1294 | stage 1 and every schedule of the later stages: each gate, once set, leads to the kernel address plus the link offset of its own stub; the probe faults exactly if 0xABC00000 is in none of the four regions, and the log is fixed by that alone |
| KernelRun.StubMapped | src-os/kernel/init.cpp:1193-1195 | a gate that leads to a stub in a load segment points at it without wrapping, the address is mapped, and the byte there is that of the image |
| Fat16Sizing.FixedPointIsJustEnough | src-os/uefi/make_fat16_image.py:87-92 | the loop stands still exactly at a size with an entry for every cluster and no sector too many |
| Fat16Sizing.JustEnoughExists | src-os/uefi/make_fat16_image.py:87-92 | such a size exists if and only if A modulo 258 is neither 1 nor 2, and is unique |
| Fat16Sizing.NearStep | src-os/uefi/make_fat16_image.py:87-92 | how fast a round closes in on it |
| Fat16Sizing.SwingStep | src-os/uefi/make_fat16_image.py:87-92 | without such a size, rounds swing about two neighbouring sizes and close in on them |
| Fat16Sizing.SizeFat | src-os/uefi/make_fat16_image.py:82-92 | for every A below 2^32 the loop breaks within 20 rounds if and only if a size exists, and then with it; otherwise it ends with the smaller of the two sizes, short of A modulo 258 entries, so from A = 258 on the FAT covers every cluster if and only if the loop breaks |
| Bytes.U16RoundTrip | src-os/uefi/make_fat16_image.py:9-10 | sixteen bits read back |
| Bytes.U32RoundTrip | src-os/uefi/make_fat16_image.py:13-14 | thirty-two bits read back |
| Bytes.U64RoundTrip | src-os/kernel/pad_kernel_raw.py:22-23 | sixty-four bits read back |
| Fat16Format.ShortNameRoundTrip | src-os/uefi/make_fat16_image.py:17-26 | a name survives the short form, in upper case, if and only if it fits 8.3 |
| Fat16Format.ShortNameChars | src-os/uefi/make_fat16_image.py:19-25 | each of the eleven characters: what stands before the first dot, then what stands behind, in upper case, cut off or filled with blanks |
| Fat16Format.EntryBytes | src-os/uefi/make_fat16_image.py:43-56 | each of the 32 bytes of an entry: name, attribute, fourteen zeros with the high half of the cluster among them, low half of the cluster, size |
| Fat16Format.EntryRoundTrip | src-os/uefi/make_fat16_image.py:17-56 | an entry reads back: name as above, attribute, cluster modulo 2^16, size modulo 2^32 |
| Fat16Builder.Volume.SetFatEntry | src-os/uefi/make_fat16_image.py:156-160 | both FATs get the entry |
| Fat16Builder.Volume.FillFats | src-os/uefi/make_fat16_image.py:162-178 | both FATs, entry by entry: 0xFFF8, 0xFFFF, an end mark for each directory, the chain of the file with its end mark, zeros |
| Fat16Builder.Volume.WriteCluster | src-os/uefi/make_fat16_image.py:189-194 | the payload lands in the sector of its cluster, and the assertion fails exactly outside the data area |
| Fat16Builder.BootSector | src-os/uefi/make_fat16_image.py:122-149 | every field of the boot sector has its value |
| Fat16Builder.WriteData | src-os/uefi/make_fat16_image.py:196-220 | directories and file in their clusters, zeros behind; it fails exactly when the file does not fit |
| Fat16Builder.BuildImage | src-os/uefi/make_fat16_image.py:63-244 | an image is made if and only if the file has at most 16643584 bytes; both FATs on it are as above; which check fails otherwise; the image has exactly its sectors, so trimming and padding never change it |
| Fat16RoundTrip.BootSectorParses | src-os/uefi/make_fat16_image.py:122-149 | a reader of the parameter block finds the builder's geometry, and a FAT16 volume |
| Fat16RoundTrip.FindsFirst | src-os/uefi/make_fat16_image.py:180-210 | a directory with one entry finds it by name |
| Fat16RoundTrip.FindsNoOther | src-os/uefi/make_fat16_image.py:180-210 | and by no other name |
| Fat16RoundTrip.FindsByName | src-os/uefi/make_fat16_image.py:180-210 | in any directory, what is found is visible and has the name looked for |
| Fat16RoundTrip.ImageEntry | src-os/uefi/make_fat16_image.py:162-178 | every entry of the FAT on the image: next cluster, 0xFFFF, or 0 for a free one |
| Fat16RoundTrip.ReservedEntries | src-os/uefi/make_fat16_image.py:162-164 | both FATs begin with F8 FF FF FF, the first byte being the media byte of the parameter block |
| Fat16RoundTrip.ChainsSound | src-os/uefi/make_fat16_image.py:151-194 | the three chains end with 0xFFFF, visit nothing twice and share nothing; the file has exactly the clusters it needs; both FATs agree; all other entries are free |
| Fat16RoundTrip.FileBytes | src-os/uefi/make_fat16_image.py:212-220 | reading the chain from any of its clusters gives the rest of the padded file |
| Fat16RoundTrip.ReadBack | src-os/uefi/make_fat16_image.py:63-244 | for every accepted file, EFI/BOOT/BOOTX64.EFI reads back byte for byte, and every other path reads nothing |
| Fat16Image.BootBytes | src-os/uefi/make_fat16_image.py:122-149 | the 512 bytes of the boot sector on the image |
| Fat16Image.RootBytes | src-os/uefi/make_fat16_image.py:180-184 | the bytes of the root directory at 130560: the directory EFI in cluster 2, zeros |
| Fat16Image.EfiBytes | src-os/uefi/make_fat16_image.py:196-200 | the bytes of cluster 2: the directory BOOT in cluster 3, zeros |
| Fat16Image.BootDirBytes | src-os/uefi/make_fat16_image.py:202-210 | the bytes of cluster 3: the file BOOTX64.EFI in cluster 4 with its size, zeros |
| Fat16Image.FileInPlace | src-os/uefi/make_fat16_image.py:212-220 | the file from byte 133632 on, zeros to the end of the image |
| KernelImage.MaxLoadEnd | src-os/kernel/pad_kernel_raw.py:26-52 | the maximum of address plus size over the load segments, for exactly the files it accepts, and which error otherwise |
| KernelImage.PadKernel | src-os/kernel/pad_kernel_raw.py:55-70 | raw bytes, then zeros up to that maximum; it fails on a good file only if the raw image is longer; padding again changes nothing |
| KernelImage.SegmentInImage | src-os/kernel/pad_kernel_raw.py:4-6 | every address of a load segment is an offset into the padded image |
| ElfLayout.FileHeaderFields | src-os/kernel/pad_kernel_raw.py:32-34 | in an ELF file header written field by field, the table position, entry size and entry count are at bytes 32, 54 and 56 |
| ElfLayout.ProgramHeaderFields | src-os/kernel/pad_kernel_raw.py:42-46 | in a program header written field by field, type, address and size in memory are at bytes 0, 16 and 40 |
| ElfLayout.HeaderReads | src-os/kernel/pad_kernel_raw.py:40-47 | every program header of a file reads back, and its addresses are those from its virtual address on, as many as its size in memory |
| ElfLayout.SizeOfFile | src-os/kernel/pad_kernel_raw.py:26-52 | for every file made of such headers: the size is the largest end of a segment of type 1 as written, and the file is accepted exactly if one ends above 0 |
| KernelBlob.Print | src-os/uefi/gen_kernel_blob.py:16-26 | the loop prints the initialiser, and an independent tokeniser reads back the bytes and their number |
| KernelBlob.ElementAt | src-os/uefi/gen_kernel_blob.py:19-24 | where each byte stands in the text, with indentation and line breaks, sixteen to a line |
| KernelBlob.TextLines | src-os/uefi/gen_kernel_blob.py:17-26 | the text around the list |
| KernelBlob.HexReads | src-os/uefi/gen_kernel_blob.py:22 | a printed byte is one token with that value |
| KernelBlob.NumberOfDecimal | src-os/uefi/gen_kernel_blob.py:26 | a printed length is one token with that value, never taken for an octal literal |
| KernelBlob.ScanText | src-os/uefi/gen_kernel_blob.py:16-26 | the tokens of the printed text, for any number of bytes |
| KernelBlob.ReadsBack | src-os/uefi/gen_kernel_blob.py:16-26 | printer and reader undo each other, for every byte sequence |
| ByteMemory.CopyBytes | src-os/uefi/efi_main.cpp:183-186 | exactly the target bytes become the source bytes |
| ByteMemory.WordAt | src-os/uefi/efi_main.cpp:183-186 | memory is little-endian: the eight bytes from a word address on are the word |
| Loader.KernelPages | src-os/uefi/efi_main.cpp:170-172 | the fewest pages, at least one, that hold the blob |
| Loader.BufferPages | src-os/uefi/efi_main.cpp:213-222 | the fewest pages, at least two, that hold the map, and 128 more |
| Loader.ImageFits | src-os/uefi/efi_main.cpp:170-172 | the kernel pages hold the whole image if and only if its length fits the 32-bit `unsigned long` |
| Loader.MapInMemory | src-os/kernel/init.cpp:939-950 | the descriptors the kernel reads from memory are those the firmware wrote, for any descriptor size |
| Loader.EfiMain | src-os/uefi/efi_main.cpp:157-245 | blob and map are in their allocations, nothing else changed, the stack top is aligned, and the kernel gets a sound hand-over |
| Loader.LoadAndStart | src-os/uefi/efi_main.cpp:157-245 | a blob of up to 24065 pages comes up, and each byte of it is then shown at its identity address and at its alias |
| Loader.BootImage | src-os/kernel/pad_kernel_raw.py:55-70 | padding, printing, compiling, loading and stage 1: every address of every load segment is identity-mapped and aliased, and holds the raw byte or zero |
| Loader.TableMapped | src-os/kernel/init.cpp:162-165 | the whole interrupt table, all 256 gates, is identity-mapped if a segment covers it |

## Left out

- Firmware: `AllocatePages`, the second `GetMemoryMap` and `ExitBootServices` are taken to succeed as described above; the code ignores their status values, so nothing is derived from them.
- Addresses above 2^47, a map buffer at address 0 and overlapping or unaligned conventional descriptors are excluded by assumption; a conventional range at 0 is not, and `StageServesExactly` says what it costs.
- Loader.BootImage: the images it shows are those of less than 4 GiB, because `kernel_blob_len` is 32 bits wide on the target; `ImageFits` says that longer ones are cut off.
- Stage1.KernelStage1: a halt is an outcome, not an endless loop.
- PageTableBuilder.Builder.MapHalf: the identity calls and the loops of `mapUpperHalfAliases` are the same four mapping calls at two offsets, so one method stands for both.
- PageTableBuilder.Builder.TouchTest: the translation is re-walked at each access, without a TLB; between the two stores the code itself survives only on cached translations, as `FlipBlindsIdentity` shows.
- Caches, accessed and dirty bits, NX, the user bit, the GDT and `lretq` sequence, SSE state and the red zone.
- Stubs: stack addresses do not wrap, and the dispatchers are arbitrary functions that keep the calling convention; the same `subq $8` aligns the stack in the page-fault stub but misaligns it in the other three (`FiveWordCallMisaligned`), which the model keeps as it is.
- BringUp: each `write_stage*` function is one log event; registers of PIC, PIT and APIC beyond mask, vector, start and pending state are left out, and so is the EOI write, on which no event here depends.
- BringUp: the state starts behind the `cli` of stage 2 with the APIC timer off, what happens before it is not modelled; runs are shorter than 2^64 steps, so counters do not wrap.
- BringUp: the one-instruction shadow of `sti` is left out, so an interrupt may be delivered one statement earlier than the processor would; the dispatchers run in one step, since their gates keep interrupts off.
- Waits.EveryFairRunFinishes: that timers go on ticking is a premise on the schedule.
- Fat16Builder: file names are ASCII literals, the file system calls are left out, and an empty input keeps one cluster with a size of zero, as the code does.
- Fat16Sizing: `math.ceil` of a quotient is taken exactly; below 2^32 the floating-point quotient by 512 is exact.
- FAT long names, time stamps, `.` and `..` entries, of which the builder writes none.
- KernelBlob: the tokeniser knows names, numbers, marks and line comments; octal literals and block comments do not occur in the output and are not read as values.
- KernelImage: what `llvm-objcopy` puts into the raw file is not part of this model; the raw bytes are arbitrary.
- Makefiles, QEMU, the book and the `src-c/` teaching programs.
