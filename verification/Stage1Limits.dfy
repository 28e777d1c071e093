/**
 The limits of stage 1: when exactly a pool serves the tables that are needed, a hand-over that is one
 page short, and one that has pages enough but page 0 among them.
 */
module Stage1Limits {
  import opened AddressSpace
  import opened FirmwareMap
  import opened PageAllocator
  import opened PageTableBuilder
  import opened PageTables
  import opened Stage1
  import opened Words

  // ---------- Page 0 among the conventional ranges ----------

  /**
   A pool serves `k` allocations exactly if it has `k` pages and page 0 is not among the first `k`.
   Where page 0 comes can be counted from the layout before any allocation.
   */
  lemma ServesExactly(l: Layout, k: nat)
    requires l.Aligned() && l.Disjoint() && l.scratch > 0
    ensures Serves(Pool(l), k) <==> k <= |Pool(l)| && forall i | OffersPageZero(l, i) :: k <= PageZeroIndex(l, i)
  {
    hide Pool, OffersPageZero, PageZeroIndex, Layout.Aligned, Layout.Disjoint;
    var pool := Pool(l);
    PoolSafe(l);
    PageZeroInPool(l);
    forall i | OffersPageZero(l, i) ensures PageZeroIndex(l, i) < |pool| && pool[PageZeroIndex(l, i)] == 0 {
      PageZeroAt(l, i);
    }
    if k <= |pool| {
      if 0 in pool[..k] {
        var j :| 0 <= j < k && pool[j] == 0;
        assert 0 in pool;
        var i :| OffersPageZero(l, i);
        SameIndex(pool, j, PageZeroIndex(l, i));
      } else {
        forall i | OffersPageZero(l, i) ensures k <= PageZeroIndex(l, i) {
          if PageZeroIndex(l, i) < k {
            InFront(pool, k, PageZeroIndex(l, i));
          }
        }
      }
    }
  }

  lemma SameIndex(s: seq<nat>, i: nat, j: nat)
    requires Distinct(s) && i < |s| && j < |s| && s[i] == s[j]
    ensures i == j
  {
  }

  lemma InFront(s: seq<nat>, k: nat, j: nat)
    requires j < k <= |s|
    ensures s[j] in s[..k]
  {
    assert s[..k][j] == s[j];
  }

  /** A scanned conventional descriptor begins with page 0, and neither kernel nor stack holds it. */
  predicate PageZeroOffered(descs: seq<Descriptor>, b: Boot)
    requires b.descSize > 0
  {
    b.kernelPhys > 0 && b.stackPhys > 0 && exists d | d in Scanned(descs, b) :: d.IsConventional() && d.start == 0
  }

  lemma RangeAtZero(d: Descriptor)
    requires d.IsConventional() && LowAndAligned(d)
    ensures d.AsRange().start == 0 < d.AsRange().end <==> d.start == 0
  {
    LowRange(d);
  }

  lemma ScannedIsLow(descs: seq<Descriptor>, b: Boot, bufferPages: nat, d: Descriptor)
    requires b.descSize > 0 && SoundMap(descs, b, bufferPages) && d in Scanned(descs, b) && d.IsConventional()
    ensures LowAndAligned(d)
  {
    hide ScanCount, ScanLimit, LowAndAligned;
    assert d in descs;
  }

  lemma PageZeroOwner(descs: seq<Descriptor>, b: Boot, bufferPages: nat)
    requires b.descSize > 0 && HandedOver(b, bufferPages)
    ensures LayoutFrom(descs, b).InKernelOrStack(0) <==> b.kernelPhys == 0 || b.stackPhys == 0
    ensures LayoutFrom(descs, b).ranges == Conventional(Scanned(descs, b))
  {
    hide Scanned, Conventional, BufferEnd, PoolEnd, PageAlignUp, PageAlignDown, Apart;
  }

  /** Whether page 0 is offered can be told from the descriptors. */
  lemma OfferedByDescriptor(descs: seq<Descriptor>, b: Boot, bufferPages: nat)
    requires b.descSize > 0 && HandedOver(b, bufferPages) && SoundMap(descs, b, bufferPages)
    ensures PageZeroOffered(descs, b) <==> exists i :: OffersPageZero(LayoutFrom(descs, b), i)
  {
    hide HandedOver, SoundMap, LayoutFrom, Scanned, Conventional, ComesFrom, LowAndAligned;
    hide Descriptor.AsRange, Descriptor.IsConventional;
    var l, seen := LayoutFrom(descs, b), Scanned(descs, b);
    PageZeroOwner(descs, b, bufferPages);
    if PageZeroOffered(descs, b) {
      var d :| d in seen && d.IsConventional() && d.start == 0;
      ScannedIsLow(descs, b, bufferPages, d);
      RangeAtZero(d);
      OffersIndex(seen, d, l);
    }
    if i: nat :| OffersPageZero(l, i) {
      ConventionalSource(seen);
      var d := SourceOf(l.ranges[i], seen);
      ScannedIsLow(descs, b, bufferPages, d);
      RangeAtZero(d);
    }
  }

  lemma OffersIndex(seen: seq<Descriptor>, d: Descriptor, l: Layout)
    requires d in seen && d.IsConventional() && l.ranges == Conventional(seen) && !l.InKernelOrStack(0)
    requires d.AsRange().start == 0 < d.AsRange().end
    ensures exists i :: OffersPageZero(l, i)
  {
    hide Descriptor.AsRange, Descriptor.IsConventional, Layout.InKernelOrStack;
    var j :| 0 <= j < |seen| && seen[j] == d;
    ConventionalComplete(seen, j);
    var i :| 0 <= i < |l.ranges| && l.ranges[i] == d.AsRange();
    assert OffersPageZero(l, i);
  }

  lemma SourceOf(r: Range, seen: seq<Descriptor>) returns (d: Descriptor)
    requires ComesFrom(r, seen)
    ensures d in seen && d.IsConventional() && r == d.AsRange()
  {
    hide Descriptor.AsRange, Descriptor.IsConventional;
    var i :| 0 <= i < |seen| && seen[i].IsConventional() && r == seen[i].AsRange();
    d := seen[i];
  }

  /**
   The exact condition for a sound hand-over, in terms of the map. If no scanned conventional range
   begins with page 0, the pool serves exactly as many allocations as it has pages. If one does, it
   serves those before page 0 and no more, although there are pages behind it.
   */
  lemma StageServesExactly(descs: seq<Descriptor>, b: Boot, bufferPages: nat, k: nat)
    requires b.descSize > 0 && HandedOver(b, bufferPages) && SoundMap(descs, b, bufferPages) && EndKnown(descs, b)
    ensures !PageZeroOffered(descs, b) ==> (Serves(PoolOf(descs, b), k) <==> k <= |PoolOf(descs, b)|)
    ensures PageZeroOffered(descs, b) ==>
              exists i :: OffersPageZero(LayoutFrom(descs, b), i)
                && PageZeroIndex(LayoutFrom(descs, b), i) < |PoolOf(descs, b)|
                && (Serves(PoolOf(descs, b), k) <==> k <= PageZeroIndex(LayoutFrom(descs, b), i))
  {
    hide HandedOver, SoundMap, EndKnown, LayoutFrom, Scanned, Serves, Pool, OffersPageZero, PageZeroIndex, FrontIs;
    hide Layout.Aligned, Layout.Disjoint;
    PoolSound(descs, b, bufferPages);
    BufferNotAtZero(b, bufferPages);
    OfferedByDescriptor(descs, b, bufferPages);
    var l := LayoutFrom(descs, b);
    ServesExactly(l, k);
    forall i, j | OffersPageZero(l, i) && OffersPageZero(l, j) ensures PageZeroIndex(l, i) == PageZeroIndex(l, j) {
      OneOffer(l, i, j);
    }
    forall i | OffersPageZero(l, i) ensures PageZeroIndex(l, i) < |Pool(l)| {
      PageZeroAt(l, i);
    }
  }

  lemma BufferNotAtZero(b: Boot, bufferPages: nat)
    requires HandedOver(b, bufferPages)
    ensures b.mmapPhys > 0
  {
  }

  lemma OneOffer(l: Layout, i: nat, j: nat)
    requires l.Aligned() && l.Disjoint() && l.scratch > 0 && OffersPageZero(l, i) && OffersPageZero(l, j)
    ensures PageZeroIndex(l, i) == PageZeroIndex(l, j)
  {
    hide PageZeroIndex, Pool, OffersPageZero, Layout.Aligned, Layout.Disjoint;
    PoolSafe(l);
    PageZeroAt(l, i);
    PageZeroAt(l, j);
    SameIndex(Pool(l), PageZeroIndex(l, i), PageZeroIndex(l, j));
  }

  // ---------- One page short ----------

  const KERNEL_AT: Word := 0xFF_FFFF_F000
  const STACK_AT: Word := 0x1FF_FFFF_F000
  const BUFFER_AT: Word := 0x280_0000_0000

  /** 24066 kernel pages and a stack that straddle 512 GiB boundaries, and a map of `n` descriptors of 40 bytes. */
  function LargeBoot(n: nat): Boot
    requires n <= 2
  {
    Boot(BUFFER_AT, 40 * n, 40, KERNEL_AT, 24066, STACK_AT)
  }

  /** The loader's buffer of exactly 130 pages, and two conventional pages from address 0 on. */
  const BUFFER: Descriptor := Descriptor(LOADER_DATA, BUFFER_AT, 130)
  const AT_ZERO: Descriptor := Descriptor(CONVENTIONAL_MEMORY, 0, 2)

  function LargeMap(n: nat): seq<Descriptor> {
    if n == 1 then [BUFFER] else [BUFFER, AT_ZERO]
  }

  lemma LargeHandedOver(n: nat)
    requires 1 <= n <= 2
    ensures HandedOver(LargeBoot(n), 130) && GoodArguments(LargeBoot(n))
  {
  }

  lemma LargeScanned(n: nat)
    requires 1 <= n <= 2
    ensures Scanned(LargeMap(n), LargeBoot(n)) == LargeMap(n)
  {
    hide Descriptor.AsRange;
    var descs := LargeMap(n);
    assert ScanLimit(LargeBoot(n)) == n;
    assert |Conventional(descs[..0])| == 0;
    assert descs[..1][..0] == descs[..0];
    assert |Conventional(descs[..1])| <= 1;
    assert ScanCount(descs, n, n) == n;
    assert ScanCount(descs, n, n - 1) == n;
  }

  lemma BufferDescriptor()
    ensures BUFFER.HoldsBuffer(BUFFER_AT) && !AT_ZERO.HoldsBuffer(BUFFER_AT)
    ensures BUFFER.End() == BUFFER_AT + 130 * 4096 && PageAlignUp(BUFFER.End()) == BUFFER.End()
    ensures AT_ZERO.AsRange() == Range(0, 0x2000)
  {
  }

  lemma LargeParts(n: nat)
    requires 1 <= n <= 2
    ensures BufferEnd(LargeMap(n), BUFFER_AT, MmapEnd(LargeBoot(n))) == BUFFER_AT + 130 * 4096
    ensures Conventional(LargeMap(n)) == if n == 1 then [] else [Range(0, 0x2000)]
  {
    hide Descriptor.AsRange, Descriptor.HoldsBuffer, Descriptor.End, PageAlignUp, MmapEnd;
    BufferDescriptor();
    var none := MmapEnd(LargeBoot(n));
    assert [BUFFER][..0] == [];
    assert BufferEnd([BUFFER], BUFFER_AT, none) == BUFFER_AT + 130 * 4096;
    assert Conventional([BUFFER]) == [];
    assert [BUFFER, AT_ZERO][..1] == [BUFFER];
  }

  lemma LargeMapEnd(n: nat)
    requires 1 <= n <= 2
    ensures MmapEnd(LargeBoot(n)) == BUFFER_AT + 4096
  {
  }

  lemma LargeMapSound(n: nat)
    requires 1 <= n <= 2
    ensures SoundMap(LargeMap(n), LargeBoot(n), 130) && EndKnown(LargeMap(n), LargeBoot(n))
  {
    hide BufferEnd, Scanned, MmapEnd, PageAlignUp;
    LargeScanned(n);
    LargeParts(n);
    LargeMapEnd(n);
  }

  lemma LargeLayout(n: nat)
    requires 1 <= n <= 2
    ensures LayoutFrom(LargeMap(n), LargeBoot(n)) ==
            Layout(KERNEL_AT, KERNEL_AT + 24066 * 4096, STACK_AT, STACK_AT + 0x4000, BUFFER_AT, BUFFER_AT + 130 * 4096,
                   if n == 1 then [] else [Range(0, 0x2000)])
  {
    hide BufferEnd, Scanned, Conventional, MmapEnd;
    LargeScanned(n);
    LargeParts(n);
    LargeMapEnd(n);
  }

  /** The pool: the 130 pages of the buffer, then the pages from address 0 on. */
  lemma LargePool(n: nat)
    requires 1 <= n <= 2
    ensures var pool := PoolOf(LargeMap(n), LargeBoot(n));
            if n == 1 then |pool| == 130 else |pool| == 132 && pool[130] == 0
  {
    hide ScratchPages, ScratchStop, LayoutFrom;
    LargeLayout(n);
    var l := LayoutFrom(LargeMap(n), LargeBoot(n));
    PoolFront(l, BUFFER_AT, 130);
    ScratchStopExact(l, BUFFER_AT);
    if n == 2 {
      TwoPages(l);
    }
  }

  lemma TwoPages(l: Layout)
    requires l.ranges == [Range(0, 0x2000)] && !l.InKernelOrStack(0) && !l.InKernelOrStack(0x1000)
    requires l.scratch > 0x1000
    ensures FallbackPages(l, l.scratchEnd, 0, 0) == [0, 0x1000]
  {
    hide Layout.InKernelOrStack;
    assert RangePages(l, l.scratchEnd, 0x2000, 0x2000) == [];
    assert RangePages(l, l.scratchEnd, 0x1000, 0x2000) == [0x1000];
    assert RangePages(l, l.scratchEnd, 0, 0x2000) == [0, 0x1000];
    assert FallbackPages(l, l.scratchEnd, 1, 0) == [];
  }

  /** One half of the large hand-over: no two of its ranges share a table. */
  lemma LargeHalf(k: Regions, base: nat)
    requires k.KernelFrame() == 0xFFF_FFFF && k.KernelCount() == 24066
    requires k.StackFrame() == 0x1FFF_FFFF && k.TouchFrame() == 0x2800_0000 && base in {0, HALF}
    ensures |k.HalfTables(base)| == 65 && TopsIn(k.HalfTables(base), base / 0x800_0000, base / 0x800_0000 + 5)
  {
    hide RangeTables, Top, TopsIn, TablesOf, Block;
    LargeCounts();
    var t := base / 0x800_0000;
    var apic, touch := RangeTables(base + LAPIC_FRAME, 1), RangeTables(base + 0x2800_0000, 1);
    var image, stack := RangeTables(base + 0xFFF_FFFF, 24066), RangeTables(base + 0x1FFF_FFFF, 4);
    LargeRange(base, LAPIC_FRAME, 1);
    LargeRange(base, 0xFFF_FFFF, 24066);
    LargeRange(base, 0x1FFF_FFFF, 4);
    LargeRange(base, 0x2800_0000, 1);
    JoinTops(apic, image, t, t, t + 1, t + 2);
    JoinTops(apic + image, stack, t, t + 2, t + 3, t + 4);
    JoinTops(apic + image + stack, touch, t, t + 4, t + 5, t + 5);
    HalfInOrder(k, base, apic, image, stack, touch);
  }

  lemma HalfInOrder(k: Regions, base: nat, apic: set<Node>, image: set<Node>, stack: set<Node>, touch: set<Node>)
    requires apic == RangeTables(base + LAPIC_FRAME, 1) && touch == RangeTables(base + k.TouchFrame(), 1)
    requires image == RangeTables(base + k.KernelFrame(), k.KernelCount())
             && stack == RangeTables(base + k.StackFrame(), 4)
    ensures k.HalfTables(base) == apic + image + stack + touch
  {
    hide RangeTables, Regions.KernelFrame, Regions.KernelCount, Regions.StackFrame, Regions.TouchFrame;
  }

  lemma LargeCounts()
    ensures TablesOf(LAPIC_FRAME, 1) == 3 && TablesOf(0x2800_0000, 1) == 3
    ensures TablesOf(0xFFF_FFFF, 24066) == 53 && TablesOf(0x1FFF_FFFF, 4) == 6
    ensures Block(LAPIC_FRAME, 3) == 0 && Block(0x2800_0000, 3) == 5
    ensures Block(0xFFF_FFFF, 3) == 1 && Block(0xFFF_FFFF + 24066 - 1, 3) == 2
    ensures Block(0x1FFF_FFFF, 3) == 3 && Block(0x1FFF_FFFF + 4 - 1, 3) == 4
  {
  }

  /** How many tables the ranges of the large hand-over take, and under which root entries. */
  lemma LargeRange(base: nat, frame: nat, count: nat)
    requires base in {0, HALF} && count > 0 && frame + count <= HALF
    ensures |RangeTables(base + frame, count)| == TablesOf(frame, count)
    ensures TopsIn(RangeTables(base + frame, count), base / 0x800_0000 + Block(frame, 3),
                   base / 0x800_0000 + Block(frame + count - 1, 3))
  {
    hide RangeTables, Top, Block;
    RangeTablesCount(base + frame, count);
    RangeTops(base + frame, count);
    ShiftBlocks(base, frame);
    ShiftBlocks(base, frame + count - 1);
  }

  /** The upper half has the same blocks as the lower one, further up. */
  lemma ShiftBlocks(base: nat, n: nat)
    requires base in {0, HALF}
    ensures Block(base + n, 1) == base / 512 + Block(n, 1) && Block(base + n, 2) == base / 0x4_0000 + Block(n, 2)
    ensures Block(base + n, 3) == base / 0x800_0000 + Block(n, 3)
  {
  }

  lemma LargeNeeded(n: nat)
    requires 1 <= n <= 2
    ensures Needed(LargeBoot(n)) == 131
  {
    hide Regions.HalfTables, Top;
    var k := RegionsOf(LargeBoot(n));
    LargeHalf(k, 0);
    LargeHalf(k, HALF);
    JoinTops(k.HalfTables(0), k.HalfTables(HALF), 0, 5, 256, 261);
  }

  /**
   The bound of 24065 pages is sharp for stage 1 as a whole: with one page more there is a sound
   hand-over whose pool is one page short.
   */
  lemma OnePageShort()
    ensures var b, descs := LargeBoot(1), LargeMap(1);
            && GoodArguments(b) && HandedOver(b, 130) && SoundMap(descs, b, 130) && EndKnown(descs, b)
            && b.kernelPages == 24065 + 1 && |PoolOf(descs, b)| == 130 && Needed(b) == 131
            && !Serves(PoolOf(descs, b), Needed(b))
  {
    hide PoolOf, SoundMap, HandedOver, EndKnown, GoodArguments, Needed;
    LargeHandedOver(1);
    LargeMapSound(1);
    LargePool(1);
    LargeNeeded(1);
  }

  /**
   Page 0 in the way: a sound hand-over whose pool has more pages than are needed, but page 0 is the
   131st of them, and an allocation that returns it reads as out of memory.
   */
  lemma PageZeroIsReadAsFailure()
    ensures var b, descs := LargeBoot(2), LargeMap(2);
            && GoodArguments(b) && HandedOver(b, 130) && SoundMap(descs, b, 130) && EndKnown(descs, b)
            && |PoolOf(descs, b)| == 132 > Needed(b) && PoolOf(descs, b)[130] == 0
            && !Serves(PoolOf(descs, b), Needed(b))
  {
    hide PoolOf, SoundMap, HandedOver, EndKnown, GoodArguments, Needed;
    LargeHandedOver(2);
    LargeMapSound(2);
    LargePool(2);
    LargeNeeded(2);
    InFront(PoolOf(LargeMap(2), LargeBoot(2)), 131, 130);
  }

  /** Every table above level 1 that a range needs has a table below it that the range needs too. */
  lemma {:induction false} RangeChild(first: nat, count: nat, x: Node) returns (y: Node)
    requires x in RangeTables(first, count) && Level(x) >= 2
    ensures y in RangeTables(first, count) && y.Child? && y.up == x
  {
    hide PagePath;
    var p := PagePath(first + count - 1);
    if x in TablesFor(p) {
      y := PathChild(p, x);
    } else {
      y := RangeChild(first, count - 1, x);
    }
  }

  lemma PathChild(p: Path, x: Node) returns (y: Node)
    requires x in TablesFor(p) && Level(x) >= 2
    ensures y in TablesFor(p) && y.Child? && y.up == x
  {
    TableLevel(p, 1);
    TableLevel(p, 2);
    TableLevel(p, 3);
    y := if x == p.Table(3) then p.Table(2) else p.Table(1);
  }

  lemma HalfChild(k: Regions, base: nat, x: Node) returns (y: Node)
    requires x in k.HalfTables(base) && Level(x) >= 2
    ensures y in k.HalfTables(base) && y.Child? && y.up == x
  {
    hide RangeTables, Level;
    if x in RangeTables(base + k.KernelFrame(), k.KernelCount()) {
      y := RangeChild(base + k.KernelFrame(), k.KernelCount(), x);
    } else if x in RangeTables(base + k.StackFrame(), 4) {
      y := RangeChild(base + k.StackFrame(), 4, x);
    } else if x in RangeTables(base + k.TouchFrame(), 1) {
      y := RangeChild(base + k.TouchFrame(), 1, x);
    } else {
      y := RangeChild(base + LAPIC_FRAME, 1, x);
    }
  }

  lemma AnyChild(k: Regions, x: Node) returns (y: Node)
    requires x in {Root} + k.AllTables() && (x == Root || Level(x) >= 2)
    ensures y in k.AllTables() && y.Child? && y.up == x
  {
    hide RangeTables, Level, Regions.HalfTables;
    if x == Root {
      var p := PagePath(LAPIC_FRAME);
      y := p.Table(3);
      OnePage(LAPIC_FRAME);
      assert y in k.AllTables() by { LapicInHalf(k, y); }
    } else if x in k.HalfTables(0) {
      y := HalfChild(k, 0, x);
    } else {
      y := HalfChild(k, HALF, x);
    }
  }

  lemma OnePage(n: nat)
    ensures PagePath(n).Table(3) in RangeTables(n, 1)
  {
  }

  lemma LapicInHalf(k: Regions, y: Node)
    requires y in RangeTables(LAPIC_FRAME, 1)
    ensures y in k.HalfTables(0)
  {
    hide RangeTables;
    assert 0 + LAPIC_FRAME == LAPIC_FRAME;
  }

  /** If all tables but the last one can be served, it is a level 1 table that is missing: its letter is E. */
  lemma LastLetter(code: char, pool: seq<nat>, k: Regions)
    requires StopsAt(code, {}, pool, {Root} + k.AllTables()) && Root !in k.AllTables()
    requires Serves(pool, |k.AllTables()|)
    requires forall x | x in k.AllTables() :: 1 <= Level(x) <= 3
    ensures code == 'E'
  {
    hide Regions.AllTables, Serves, Level, ClosedUp, Lacking, StopsWith;
    var made, n :| StopsWith(made, n, code, {}, pool, {Root} + k.AllTables());
    FromNothing(made, n, code, pool, {Root} + k.AllTables());
    OnlyOneMissing(pool, made, n, k.AllTables());
    LastIsLeaf(made, n, k);
  }

  lemma FromNothing(made: set<Node>, n: Node, code: char, pool: seq<nat>, all: set<Node>)
    requires StopsWith(made, n, code, {}, pool, all)
    ensures made <= all && n in all && n !in made && ClosedUp(made) && code == LetterOf(Level(n))
    ensures !Serves(pool, Lacking(made + {n}, {}))
  {
    hide Serves, Lacking, ClosedUp, Level;
    assert {} + made == made;
  }

  lemma OnlyOneMissing(pool: seq<nat>, made: set<Node>, n: Node, tables: set<Node>)
    requires made <= {Root} + tables && n in {Root} + tables && n !in made && Root !in tables
    requires Serves(pool, |tables|) && !Serves(pool, Lacking(made + {n}, {}))
    ensures forall y | y in {Root} + tables && y != n :: y in made
  {
    hide Serves;
    assert (made + {n}) - {} == made + {n};
    ServesInOrder(pool, |made + {n}|, |tables|);
    var all := {Root} + tables;
    assert all - {Root} == tables && |all| == 1 + |tables|;
    assert |made + {n}| == |made| + 1;
    OneLeft(made, n, all);
  }

  lemma ServesInOrder(pool: seq<nat>, j: nat, k: nat)
    ensures j <= k && Serves(pool, k) ==> Serves(pool, j)
  {
    hide Serves;
    if j <= k {
      ServesFewer(pool, j, k);
    }
  }

  /** The last missing table has no table below it: that one would be there before its parent. */
  lemma LastIsLeaf(made: set<Node>, n: Node, k: Regions)
    requires n in {Root} + k.AllTables() && n !in made && ClosedUp(made)
    requires forall y | y in {Root} + k.AllTables() && y != n :: y in made
    requires forall x | x in k.AllTables() :: 1 <= Level(x) <= 3
    ensures Level(n) == 1
  {
    hide Regions.AllTables, Level, ClosedUp;
    if n == Root || Level(n) >= 2 {
      var y := AnyChild(k, n);
      ParentMade(made, n, {Root} + k.AllTables(), y);
      assert false;
    }
  }

  lemma ParentMade(made: set<Node>, n: Node, all: set<Node>, y: Node)
    requires ClosedUp(made) && y in all && y.Child? && y.up == n
    requires forall x | x in all && x != n :: x in made
    ensures n in made
  {
    assert y != n by {
      assert Level(y) == Level(y.up) - 1;
    }
    assert y in made;
  }

  /** A set that lacks `n` and is no more than one short lacks nothing else. */
  lemma OneLeft(made: set<Node>, n: Node, all: set<Node>)
    requires made <= all && n in all && n !in made && |made| >= |all| - 1
    ensures forall y | y in all && y != n :: y in made
  {
    forall y | y in all && y != n ensures y in made {
      if y !in made {
        SmallerSet(made + {n} + {y}, all);
      }
    }
  }

  lemma {:induction false} RangeLevels(first: nat, count: nat)
    ensures forall x | x in RangeTables(first, count) :: 1 <= Level(x) <= 3
  {
    if count > 0 {
      RangeLevels(first, count - 1);
      var p := PagePath(first + count - 1);
      TableLevel(p, 1);
      TableLevel(p, 2);
      TableLevel(p, 3);
    }
  }

  lemma AllLevels(k: Regions)
    ensures forall x | x in k.AllTables() :: 1 <= Level(x) <= 3
  {
    hide RangeTables, Level;
    RangeLevels(0 + k.KernelFrame(), k.KernelCount());
    RangeLevels(0 + k.StackFrame(), 4);
    RangeLevels(0 + k.TouchFrame(), 1);
    RangeLevels(0 + LAPIC_FRAME, 1);
    RangeLevels(HALF + k.KernelFrame(), k.KernelCount());
    RangeLevels(HALF + k.StackFrame(), 4);
    RangeLevels(HALF + k.TouchFrame(), 1);
    RangeLevels(HALF + LAPIC_FRAME, 1);
  }

  /** The first 130 pages of these pools can be had. */
  lemma LargeServes(n: nat)
    requires 1 <= n <= 2
    ensures Serves(PoolOf(LargeMap(n), LargeBoot(n)), 130)
  {
    hide PoolOf, SoundMap, HandedOver, EndKnown, FrontIs, Serves, LayoutFrom;
    LargeHandedOver(n);
    LargeMapSound(n);
    PoolSound(LargeMap(n), LargeBoot(n), 130);
    FrontServes(PoolOf(LargeMap(n), LargeBoot(n)), BUFFER_AT, 130, 130);
  }

  /** Stage 1 halts on either of these hand-overs, for want of its last level 1 table: it prints E. */
  method HaltsOnLarge(mem: array<Word>, n: nat) returns (r: Outcome)
    requires 1 <= n <= 2 && mem.Length == MEM_WORDS && MapOf(mem[..], LargeBoot(n)) == LargeMap(n)
    modifies mem
    ensures r == Halted('E')
  {
    hide PoolOf, SoundMap, HandedOver, EndKnown, Serves, MapOf, Translate, Intended, ChangedOnlyIn, Apart;
    hide StopsAt, BootMap, Regions.AllTables, Regions.Sound, Level;
    LargeHandedOver(n);
    LargeMapSound(n);
    LargeNeeded(n);
    LargeServes(n);
    if n == 1 {
      OnePageShort();
    } else {
      PageZeroIsReadAsFailure();
    }
    var root;
    ghost var tables;
    r, root, tables := KernelStage1(mem, LargeBoot(n), 130);
    RegionsSound(LargeBoot(n), 130);
    RegionsOf(LargeBoot(n)).AllTablesBound();
    AllLevels(RegionsOf(LargeBoot(n)));
    LastLetter(r.code, PoolOf(LargeMap(n), LargeBoot(n)), RegionsOf(LargeBoot(n)));
  }
}
