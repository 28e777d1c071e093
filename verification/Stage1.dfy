/**
 Stage 1 of the kernel entry: scan the firmware memory map, lay out the page pool, build the page
 tables and touch memory through them.
 */
module Stage1 {
  import opened FirmwareMap
  import opened Words
  import opened Wrappers
  import opened PageAllocator
  import opened PageTables
  import opened AddressSpace
  import opened PageTableBuilder

  // ---------- The page pool ----------

  /** Where the scratch pool ends: the detected end, or a guess bounded by the next reserved region. */
  function PoolEnd(b: Boot, allocEnd: Word): Word {
    if allocEnd != MmapEnd(b) then allocEnd
    else
      var candidate := (MmapEnd(b) + 256 * PAGE_SIZE) % WORD_LIMIT;
      var next := if b.kernelPhys > MmapEnd(b) then b.kernelPhys else 0;
      var next' := if b.stackPhys > MmapEnd(b) && (next == 0 || b.stackPhys < next) then b.stackPhys else next;
      PageAlignUp(if next' != 0 && candidate > next' then next' else candidate)
  }

  function LayoutOf(b: Boot, ranges: seq<Range>, allocEnd: Word): Layout {
    Layout(b.kernelPhys, b.kernelPhys + b.kernelPages * PAGE_SIZE, b.stackPhys, b.stackPhys + STACK_BYTES,
           PageAlignUp(PageAlignDown(b.mmapPhys)), PoolEnd(b, allocEnd), ranges)
  }

  /** The end of the map is the first page boundary that is not below it. */
  lemma MmapEndIs(b: Boot, bufferPages: nat)
    requires HandedOver(b, bufferPages)
    ensures var used := b.mmapPhys + b.mmapSizeUsed; MmapEnd(b) % 4096 == 0 && used <= MmapEnd(b) < used + 4096
  {
    hide Apart, PageAlignUp;
    LowStays(b.mmapPhys + b.mmapSizeUsed);
  }

  /**
   The guessed end of the pool: a megabyte behind the map, or the first of kernel and stack that
   begins before that.
   */
  lemma GuessedEnd(b: Boot, bufferPages: nat)
    requires HandedOver(b, bufferPages) && MmapEnd(b) + 0x10_0000 <= TOP
    ensures var e, far := PoolEnd(b, MmapEnd(b)), MmapEnd(b) + 0x10_0000;
            && e <= far && (b.kernelPhys > MmapEnd(b) ==> e <= b.kernelPhys)
            && (b.stackPhys > MmapEnd(b) ==> e <= b.stackPhys)
            && (e == far || (e == b.kernelPhys > MmapEnd(b)) || (e == b.stackPhys > MmapEnd(b)))
  {
    hide PageAlignUp, MmapEnd, HandedOver;
    MmapEndInBuffer(b, bufferPages);
    ReservedBehind(b, bufferPages);
    LowStays(MmapEnd(b) + 0x10_0000);
    AlignedStays(MmapEnd(b) + 0x10_0000);
    AlignedStays(b.kernelPhys);
    AlignedStays(b.stackPhys);
  }

  /** The layout that the allocator works with. */
  lemma LayoutIs(descs: seq<Descriptor>, b: Boot, bufferPages: nat)
    requires b.descSize > 0 && HandedOver(b, bufferPages)
    ensures var l, end := LayoutFrom(descs, b), BufferEnd(Scanned(descs, b), b.mmapPhys, MmapEnd(b));
            && l.kernelPhys == b.kernelPhys && l.kernelEnd == b.kernelPhys + b.kernelPages * 4096
            && l.stackPhys == b.stackPhys && l.stackEnd == b.stackPhys + 0x4000
            && l.scratch == b.mmapPhys && (end != MmapEnd(b) ==> l.scratchEnd == end)
            && l.ranges == Conventional(Scanned(descs, b))
  {
    hide Scanned, Conventional, BufferEnd, MmapEnd, PageAlignUp, PageAlignDown, Apart;
    AlignedStays(b.mmapPhys);
  }

  lemma MmapEndInBuffer(b: Boot, bufferPages: nat)
    requires HandedOver(b, bufferPages)
    ensures MmapEnd(b) % 4096 == 0 && b.mmapPhys <= MmapEnd(b) <= b.mmapPhys + (bufferPages - 128) * 4096
  {
    hide Apart;
    var used := b.mmapPhys + b.mmapSizeUsed;
    assert used < TOP;
    var limit := b.mmapPhys + (bufferPages - 128) * 4096;
    assert limit % 4096 == 0;
    AlignUpBelow(used, limit);
  }

  lemma AlignUpBelow(x: Word, limit: int)
    requires x <= limit <= TOP && limit % 4096 == 0
    ensures x <= PageAlignUp(x) <= limit
  {
  }

  /** The pool reaches at least 130 pages into the buffer, detected or guessed. */
  lemma PoolEndCovers(b: Boot, bufferPages: nat, allocEnd: Word)
    requires HandedOver(b, bufferPages)
    requires if allocEnd == MmapEnd(b) then MmapEnd(b) + 256 * PAGE_SIZE <= TOP
             else allocEnd % 4096 == 0 && b.mmapPhys + bufferPages * 4096 <= allocEnd <= TOP
    ensures PoolEnd(b, allocEnd) % 4096 == 0 && b.mmapPhys + 130 * 4096 <= PoolEnd(b, allocEnd) <= TOP
  {
    hide PageAlignUp, MmapEnd, HandedOver;
    MmapEndInBuffer(b, bufferPages);
    ReservedBehind(b, bufferPages);
    var end := MmapEnd(b);
    if allocEnd == end {
      assert (end + 256 * 4096) % WORD_LIMIT == end + 256 * 4096;
      AlignedStays(end + 256 * 4096);
      AlignedStays(b.kernelPhys);
      AlignedStays(b.stackPhys);
    }
  }

  /** A reserved region behind the map lies behind the whole buffer. */
  lemma ReservedBehind(b: Boot, bufferPages: nat)
    requires HandedOver(b, bufferPages)
    ensures bufferPages >= 130 && b.mmapPhys + bufferPages * 4096 <= TOP
            && b.mmapPhys + 130 * 4096 <= MmapEnd(b) + 256 * 4096
    ensures b.kernelPhys % 4096 == 0 && b.kernelPhys <= TOP && b.stackPhys % 4096 == 0 && b.stackPhys <= TOP
    ensures b.kernelPhys > MmapEnd(b) ==> b.kernelPhys >= b.mmapPhys + 130 * 4096
    ensures b.stackPhys > MmapEnd(b) ==> b.stackPhys >= b.mmapPhys + 130 * 4096
  {
    hide PageAlignUp, MmapEnd;
    MmapEndInBuffer(b, bufferPages);
  }

  /** While the scratch region has room and meets neither kernel nor stack, the pool is that region in order. */
  lemma {:induction false} PoolFront(l: Layout, next: nat, n: nat)
    requires next + n * 4096 <= l.scratchEnd
    requires Apart(l.kernelPhys, l.kernelEnd, next, next + n * 4096) && Apart(l.stackPhys, l.stackEnd, next, next
             + n * 4096)
    ensures n <= |ScratchPages(l, next)|
    ensures next + n * 4096 == l.scratchEnd ==> |ScratchPages(l, next)| == n
    ensures forall i | 0 <= i < n :: ScratchPages(l, next)[i] == next + i * 4096
    decreases n
  {
    if n > 0 {
      PoolFront(l, next + 4096, n - 1);
      var rest := ScratchPages(l, next + 4096);
      assert ScratchPages(l, next) == [next] + rest;
      forall i | 0 <= i < n ensures ScratchPages(l, next)[i] == next + i * 4096 {
        if i > 0 {
          assert rest[i - 1] == next + 4096 + (i - 1) * 4096;
        }
      }
    }
  }

  /** The layout that the scan leads to. */
  function LayoutFrom(descs: seq<Descriptor>, b: Boot): Layout
    requires b.descSize > 0
  {
    var seen := Scanned(descs, b);
    LayoutOf(b, Conventional(seen), BufferEnd(seen, b.mmapPhys, MmapEnd(b)))
  }

  /** All pages that the allocator of stage 1 can hand out, in order. */
  function PoolOf(descs: seq<Descriptor>, b: Boot): seq<nat>
    requires b.descSize > 0
  {
    Pool(LayoutFrom(descs, b))
  }

  /** The pool of a sound hand-over starts with 130 pages of the buffer, and can be handed out safely. */
  lemma LayoutSound(b: Boot, bufferPages: nat, ranges: seq<Range>, allocEnd: Word)
    requires HandedOver(b, bufferPages)
    requires PairwiseApart(ranges) && forall k | 0 <= k < |ranges| :: GoodRange(ranges[k])
    requires if allocEnd == MmapEnd(b) then MmapEnd(b) + 256 * PAGE_SIZE <= TOP
             else allocEnd % 4096 == 0 && b.mmapPhys + bufferPages * 4096 <= allocEnd <= TOP
    ensures LayoutOf(b, ranges, allocEnd).Aligned() && LayoutOf(b, ranges, allocEnd).Disjoint()
    ensures LayoutOf(b, ranges, allocEnd).scratch == b.mmapPhys
    ensures FrontIs(Pool(LayoutOf(b, ranges, allocEnd)), b.mmapPhys, 130)
  {
    hide PoolEnd, MmapEnd, PageAlignUp, PageAlignDown, Pool, FrontIs, ScratchPages;
    PoolEndCovers(b, bufferPages, allocEnd);
    AlignedStays(b.mmapPhys);
    var l := LayoutOf(b, ranges, allocEnd);
    PoolFront(l, b.mmapPhys, 130);
    FrontOfPool(l, 130);
  }

  lemma FrontOfPool(l: Layout, n: nat)
    requires n <= |ScratchPages(l, l.scratch)|
    requires forall i | 0 <= i < n :: ScratchPages(l, l.scratch)[i] == l.scratch + i * 4096
    ensures FrontIs(Pool(l), l.scratch, n)
  {
    hide ScratchPages, ScratchStop, FallbackPages;
  }

  /** The first `n` pages of a pool are consecutive from `base` on. */
  ghost predicate FrontIs(pool: seq<nat>, base: nat, n: nat) {
    n <= |pool| && forall i | 0 <= i < n :: pool[i] == base + i * 4096
  }

  lemma FrontServes(pool: seq<nat>, base: nat, n: nat, k: nat)
    requires FrontIs(pool, base, n) && base > 0 && k <= n
    ensures Serves(pool, k)
  {
  }

  /** Pages spent from the front of a pool lie in its first `n` pages. */
  lemma SpentFromFront(pool: seq<nat>, base: nat, n: nat, handed: seq<nat>, left: seq<nat>)
    requires FrontIs(pool, base, n) && pool == handed + left && |handed| <= n
    ensures forall p | p in handed :: base <= p < base + n * 4096
  {
    assert forall i | 0 <= i < |handed| :: handed[i] == pool[i];
  }

  // ---------- The entry ----------

  function RegionsOf(b: Boot): Regions
    requires b.kernelPages * PAGE_SIZE < WORD_LIMIT
  {
    Regions(b.kernelPhys, b.kernelPages * PAGE_SIZE, b.stackPhys, PageAlignDown(b.mmapPhys))
  }

  /** Physical byte `p` belongs to the kernel, the stack, the map buffer's first page, or the local APIC's page. */
  predicate BootShows(b: Boot, p: int) {
    || b.kernelPhys <= p < b.kernelPhys + b.kernelPages * 4096
    || b.stackPhys <= p < b.stackPhys + 0x4000
    || b.mmapPhys <= p < b.mmapPhys + 0x1000
    || 0xFEE0_0000 <= p < 0xFEE0_1000
  }

  /** The boot address space, byte by byte: those bytes at their own address and 0xffff800000000000 above it. */
  function BootMap(b: Boot, v: Word): Option<Access> {
    if v < 0x8000_0000_0000 then if BootShows(b, v) then Some(Access(v, true)) else None
    else if v >= 0xffff_8000_0000_0000 then
      if BootShows(b, v - 0xffff_8000_0000_0000) then Some(Access(v - 0xffff_8000_0000_0000, true)) else None
    else None
  }

  lemma PageInRange(p: nat, start: nat, size: nat)
    requires start % 4096 == 0 && size % 4096 == 0
    ensures start / 4096 <= p / 4096 < start / 4096 + size / 4096 <==> start <= p < start + size
  {
    assert start == 4096 * (start / 4096) && size == 4096 * (size / 4096);
  }

  lemma ShowsBytes(b: Boot, bufferPages: nat, p: nat)
    requires HandedOver(b, bufferPages)
    ensures b.kernelPages * PAGE_SIZE < WORD_LIMIT && (RegionsOf(b).Shows(p / 4096) <==> BootShows(b, p))
  {
    hide Apart, PageAlignDown;
    AlignedStays(b.mmapPhys);
    PageInRange(p, b.kernelPhys, b.kernelPages * 4096);
    PageInRange(p, b.stackPhys, 0x4000);
    PageInRange(p, b.mmapPhys, 0x1000);
    PageInRange(p, 0xFEE0_0000, 0x1000);
  }

  lemma IntendedIs(b: Boot, bufferPages: nat, v: Word)
    requires HandedOver(b, bufferPages)
    ensures b.kernelPages * PAGE_SIZE < WORD_LIMIT && Intended(RegionsOf(b), v) == BootMap(b, v)
  {
    hide HandedOver, RegionsOf, Regions.Shows, BootShows;
    if v < TOP {
      ShowsBytes(b, bufferPages, v);
    } else if v >= UPPER_HALF {
      ShowsBytes(b, bufferPages, v - UPPER_HALF);
    }
    ShowsBytes(b, bufferPages, 0);
  }

  predicate GoodArguments(b: Boot) {
    b.descSize != 0 && b.mmapSizeUsed >= b.descSize
  }

  lemma RegionsSound(b: Boot, bufferPages: nat)
    requires HandedOver(b, bufferPages)
    ensures b.kernelPages * PAGE_SIZE < WORD_LIMIT && RegionsOf(b).Sound() && RegionsOf(b).touchPhys == b.mmapPhys
  {
  }

  /** The tables of both halves and the root fit into 130 pages, wherever the regions lie, exactly up to 24065 pages. */
  lemma Capacity(k: Regions)
    ensures 1 + (k.HalfCost() + k.HalfCost()) <= 130 <==> k.KernelCount() <= 24065
  {
  }

  /** The pages that stage 1 needs: the root, and one for each table of both halves. */
  function Needed(b: Boot): nat
    requires b.kernelPages * PAGE_SIZE < WORD_LIMIT
  {
    1 + |RegionsOf(b).AllTables()|
  }

  /**
   Stage 1 of `kernel_entry`. The out-parameter `root` is the value loaded into CR3; `tables` are the
   pages that the allocator handed out.
   */
  method KernelStage1(mem: array<Word>, b: Boot, ghost bufferPages: nat)
    returns (r: Outcome, root: nat, ghost tables: seq<nat>)
    requires mem.Length == MEM_WORDS
    requires GoodArguments(b) ==>
               && HandedOver(b, bufferPages)
               && SoundMap(MapOf(mem[..], b), b, bufferPages) && EndKnown(MapOf(mem[..], b), b)
    modifies mem
    ensures !GoodArguments(b) ==> r == Halted('A') && mem[..] == old(mem[..])
    // the letter of a halt names the level of the first table that no page can be had for
    ensures GoodArguments(b) && r.Halted? ==>
              && b.kernelPages * PAGE_SIZE < WORD_LIMIT
              && StopsAt(r.code, {}, PoolOf(MapOf(old(mem[..]), b), b), {Root} + RegionsOf(b).AllTables())
    // it runs through exactly if the pool serves the root and every table of both halves
    ensures GoodArguments(b) ==>
              && b.kernelPages * PAGE_SIZE < WORD_LIMIT
              && (r.Running? <==> Serves(PoolOf(MapOf(old(mem[..]), b), b), Needed(b)))
              && tables <= PoolOf(MapOf(old(mem[..]), b), b) && (r.Running? ==> |tables| == Needed(b))
    // the address space is the intended one, on the live root
    ensures r.Running? ==>
              && root == b.mmapPhys
              && (forall v: Word :: Translate(mem[..], root / 4096, v) == Intended(RegionsOf(b), v))
              && forall v: Word :: Translate(mem[..], root / 4096, v) == BootMap(b, v)
    // no word moved outside the page tables, and those avoid the kernel and the stack
    ensures ChangedOnlyIn(old(mem[..]), mem[..], tables)
    ensures forall p | p in tables ::
              && p % 4096 == 0 && Apart(p, p + 4096, b.kernelPhys, b.kernelPhys + b.kernelPages * 4096)
              && Apart(p, p + 4096, b.stackPhys, b.stackPhys + STACK_BYTES)
    // with the loader's headroom, no failure code is reachable and all tables lie in the buffer
    ensures GoodArguments(b) && b.kernelPages <= 24065 ==>
              r.Running? && forall p | p in tables :: b.mmapPhys <= p < b.mmapPhys + 130 * 4096
  {
    if b.descSize == 0 || b.mmapSizeUsed < b.descSize {
      return Halted('A'), 0, [];
    }
    hide HandedOver, SoundMap, EndKnown, FrontIs, Serves, Intended, Translate, Pool, ChangedOnlyIn, Apart;
    hide LayoutOf, MapOf, Scanned, Conventional, BufferEnd, MmapEnd, Regions.AllTables, RegionsOf, BootMap, StopsAt;
    hide Layout.Aligned, Layout.Disjoint, Needed;
    var ranges, allocEnd := Scan(mem, b, MmapEnd(b));
    PoolSound(MapOf(mem[..], b), b, bufferPages);
    r, root, tables := BuildStage(mem, b, ranges, allocEnd, bufferPages);
  }

  /** Stage 1 behind the scan, for any ranges and buffer end that leave a sound pool. */
  method BuildStage(mem: array<Word>, b: Boot, ranges: seq<Range>, allocEnd: Word, ghost bufferPages: nat)
    returns (r: Outcome, root: nat, ghost tables: seq<nat>)
    requires mem.Length == MEM_WORDS && HandedOver(b, bufferPages)
    requires var l := LayoutOf(b, ranges, allocEnd); l.Aligned() && l.Disjoint() && FrontIs(Pool(l), b.mmapPhys, 130)
    modifies mem
    ensures b.kernelPages * PAGE_SIZE < WORD_LIMIT
    ensures r.Halted? ==> StopsAt(r.code, {}, Pool(LayoutOf(b, ranges, allocEnd)), {Root} + RegionsOf(b).AllTables())
    ensures r.Running? <==> Serves(Pool(LayoutOf(b, ranges, allocEnd)), Needed(b))
    ensures tables <= Pool(LayoutOf(b, ranges, allocEnd)) && (r.Running? ==> |tables| == Needed(b))
    ensures r.Running? ==>
              && root == b.mmapPhys
              && (forall v: Word :: Translate(mem[..], root / 4096, v) == Intended(RegionsOf(b), v))
              && forall v: Word :: Translate(mem[..], root / 4096, v) == BootMap(b, v)
    ensures ChangedOnlyIn(old(mem[..]), mem[..], tables)
    ensures forall p | p in tables ::
              && p % 4096 == 0 && Apart(p, p + 4096, b.kernelPhys, b.kernelPhys + b.kernelPages * 4096)
              && Apart(p, p + 4096, b.stackPhys, b.stackPhys + STACK_BYTES)
    ensures b.kernelPages <= 24065 ==>
              r.Running? && forall p | p in tables :: b.mmapPhys <= p < b.mmapPhys + 130 * 4096
  {
    hide HandedOver, FrontIs, Serves, SpaceIs, Intended, Translate, Pool, ChangedOnlyIn, Apart, LayoutOf, RegionsOf;
    hide Regions.Sound, Regions.AllTables, BootMap, StopsAt, Layout.Aligned, Layout.Disjoint;
    RegionsSound(b, bufferPages);
    var layout := LayoutOf(b, ranges, allocEnd);
    FrontStarts(Pool(layout), b.mmapPhys, 130);
    ghost var left;
    r, root, tables, left := BuildAndTouch(mem, layout, RegionsOf(b), b.mmapPhys);
    TablesAvoid(b, ranges, allocEnd, tables, left);
    if b.kernelPages <= 24065 {
      EnoughPages(b, bufferPages, Pool(layout), tables, left);
    }
    if r.Running? {
      SpaceShown(mem[..], root / 4096, b, bufferPages);
    }
  }

  lemma SpaceShown(m: seq<Word>, root: nat, b: Boot, bufferPages: nat)
    requires HandedOver(b, bufferPages) && b.kernelPages * PAGE_SIZE < WORD_LIMIT && SpaceIs(m, root, RegionsOf(b))
    ensures forall v: Word :: Translate(m, root, v) == Intended(RegionsOf(b), v)
    ensures forall v: Word :: Translate(m, root, v) == BootMap(b, v)
  {
    hide HandedOver, SpaceIs, RegionsOf, Translate, Intended, BootMap;
    forall v: Word ensures Translate(m, root, v) == Intended(RegionsOf(b), v) == BootMap(b, v) {
      TranslatesAsIntended(m, root, RegionsOf(b), v);
      IntendedIs(b, bufferPages, v);
    }
  }

  /** The pool that the scan leads to is sound, and starts with 130 pages of the buffer. */
  lemma PoolSound(descs: seq<Descriptor>, b: Boot, bufferPages: nat)
    requires b.descSize > 0 && HandedOver(b, bufferPages) && SoundMap(descs, b, bufferPages) && EndKnown(descs, b)
    ensures LayoutFrom(descs, b).Aligned() && LayoutFrom(descs, b).Disjoint()
    ensures LayoutFrom(descs, b).scratch == b.mmapPhys && FrontIs(PoolOf(descs, b), b.mmapPhys, 130)
  {
    hide HandedOver, SoundMap, GoodRange, PairwiseApart, FrontIs, Pool, LayoutOf, Scanned, Conventional, BufferEnd,
        MmapEnd;
    ScanIsSound(descs, b, bufferPages);
    var seen := Scanned(descs, b);
    LayoutSound(b, bufferPages, Conventional(seen), BufferEnd(seen, b.mmapPhys, MmapEnd(b)));
  }

  lemma FrontStarts(pool: seq<nat>, base: nat, n: nat)
    requires FrontIs(pool, base, n) && n > 0
    ensures pool != [] && pool[0] == base
  {
  }

  /** Handed-out pages avoid the kernel and the stack. */
  lemma TablesAvoid(b: Boot, ranges: seq<Range>, allocEnd: Word, tables: seq<nat>, left: seq<nat>)
    requires var l := LayoutOf(b, ranges, allocEnd); l.Aligned() && l.Disjoint() && Pool(l) == tables + left
    ensures forall p | p in tables ::
              && p % 4096 == 0 && Apart(p, p + 4096, b.kernelPhys, b.kernelPhys + b.kernelPages * 4096)
              && Apart(p, p + 4096, b.stackPhys, b.stackPhys + STACK_BYTES)
  {
    hide Pool, PoolEnd, PageAlignUp, PageAlignDown;
    var l := LayoutOf(b, ranges, allocEnd);
    PoolSafe(l);
    forall p | p in tables
      ensures p % 4096 == 0 && Apart(p, p + 4096, l.kernelPhys, l.kernelEnd)
              && Apart(p, p + 4096, l.stackPhys, l.stackEnd)
    {
      assert p in Pool(l);
    }
  }

  /** A pool that starts with 130 pages of the buffer serves 24065 kernel pages, and the tables lie in those. */
  lemma EnoughPages(b: Boot, bufferPages: nat, pool: seq<nat>, tables: seq<nat>, left: seq<nat>)
    requires b.kernelPages <= 24065 && HandedOver(b, bufferPages) && FrontIs(pool, b.mmapPhys, 130)
             && pool == tables + left
    ensures b.kernelPages * PAGE_SIZE < WORD_LIMIT && Serves(pool, Needed(b)) && Needed(b) <= 130
    ensures |tables| <= 130 ==> forall p | p in tables :: b.mmapPhys <= p < b.mmapPhys + 130 * 4096
  {
    hide FrontIs, Serves, Regions.HalfCost, Regions.AllTables, Regions.Sound;
    RegionsSound(b, bufferPages);
    Capacity(RegionsOf(b));
    RegionsOf(b).AllTablesBound();
    FrontServes(pool, b.mmapPhys, 130, Needed(b));
    if |tables| <= 130 {
      SpentFromFront(pool, b.mmapPhys, 130, tables, left);
    }
  }

  /** From the layout to the end of the touch test. */
  method BuildAndTouch(mem: array<Word>, layout: Layout, k: Regions, mmapPhys: Word)
    returns (r: Outcome, root: nat, ghost tables: seq<nat>, ghost left: seq<nat>)
    requires mem.Length == MEM_WORDS && layout.Aligned() && layout.Disjoint() && k.Sound()
    requires k.touchPhys == mmapPhys && Pool(layout) != [] && Pool(layout)[0] == mmapPhys
    modifies mem
    ensures ChangedOnlyIn(old(mem[..]), mem[..], tables) && Pool(layout) == tables + left
    ensures r.Running? <==> Serves(Pool(layout), 1 + |k.AllTables()|)
    ensures r.Running? ==>
              root == mmapPhys && SpaceIs(mem[..], root / 4096, k) && |tables| == 1 + |k.AllTables()|
    ensures r.Halted? ==> StopsAt(r.code, {}, Pool(layout), {Root} + k.AllTables())
  {
    hide Pool, StopsAt, SpaceIs, WellFormed, Regions.AllTables, Regions.Sound, ChangedOnlyIn;
    var builder := new Builder(mem, layout);
    r := builder.Build(k);
    root := 0;
    if r.Running? {
      root := builder.pml4Phys;
      var word, seen := builder.TouchTest(mmapPhys, k);
    }
    tables, left := builder.handed, builder.Left();
  }

  /** Memory that changed only in pages apart from a region is unchanged inside the region. */
  lemma RegionUntouched(before: seq<Word>, m: seq<Word>, tables: seq<nat>, start: nat, end: nat, j: nat)
    requires ChangedOnlyIn(before, m, tables) && start <= 8 * j < end && j < |m|
    requires forall p | p in tables :: p % 4096 == 0 && Apart(p, p + 4096, start, end)
    ensures m[j] == before[j]
  {
    var page := 4096 * (j / 512);
    assert page <= 8 * j < page + 4096;
    assert !Apart(page, page + 4096, start, end);
  }
}
