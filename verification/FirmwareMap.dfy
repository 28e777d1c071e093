/**
 The firmware's memory map as the kernel reads it from the buffer: descriptors, the scan for
 conventional ranges and for the end of the buffer, and what the loader and the firmware hand over.
 */
module FirmwareMap {
  import opened AddressSpace
  import opened Bytes
  import opened ByteMemory
  import opened PageAllocator
  import opened Words

  const LOADER_DATA: nat := 2
  const CONVENTIONAL_MEMORY: nat := 7
  const MAX_RANGES: nat := 64
  const MAX_SCAN_BYTES: nat := 64 * 4096

  /** The six arguments of the kernel entry. */
  datatype Boot = Boot(
    mmapPhys: Word, mmapSizeUsed: Word, descSize: Word, kernelPhys: Word, kernelPages: Word, stackPhys: Word)

  // ---------- The memory map ----------

  /** The fields of an EFI memory descriptor that the kernel reads. */
  datatype Descriptor = Descriptor(kind: nat, start: Word, pages: Word) {
    function End(): Word {
      (start + pages * PAGE_SIZE) % WORD_LIMIT
    }

    predicate IsConventional() {
      kind == CONVENTIONAL_MEMORY && pages > 0
    }

    predicate HoldsBuffer(mmapPhys: Word) {
      kind == LOADER_DATA && start <= mmapPhys < End()
    }

    function AsRange(): Range {
      var from := PageAlignDown(start);
      Range(from, (from + pages * PAGE_SIZE) % WORD_LIMIT)
    }
  }

  /** The descriptor at offset `at` of some bytes: `Type` at 0, `PhysicalStart` at 8, `NumberOfPages` at 24. */
  function DescriptorIn(s: seq<Byte>, at: nat): Descriptor
    requires at + 32 <= |s|
  {
    Get64Fits(s, at + 8);
    Get64Fits(s, at + 24);
    Descriptor(Get32(s, at), Get64(s, at + 8), Get64(s, at + 24))
  }

  /** The 40 bytes of a descriptor, field by field, as the firmware lays them out. */
  function DescriptorBytes(kind: nat, pad: nat, start: Word, virtualStart: Word, pages: Word, attribute: Word)
    : seq<Byte>
  {
    U32(kind) + U32(pad) + U64(start) + U64(virtualStart) + U64(pages) + U64(attribute)
  }

  lemma FieldsInPlace(kind: nat, pad: nat, start: Word, virtualStart: Word, pages: Word, attribute: Word)
    ensures var d := DescriptorBytes(kind, pad, start, virtualStart, pages, attribute);
            && |d| == 40 && Get32(d, 0) == Get32(U32(kind), 0)
            && Get64(d, 8) == Get64(U64(start), 0) && Get64(d, 24) == Get64(U64(pages), 0)
  {
    hide U32, U64, Get32, Get64;
    U32Length(kind);
    U32Length(pad);
    U64RoundTrip(start);
    U64RoundTrip(virtualStart);
    U64RoundTrip(pages);
    U64RoundTrip(attribute);
    var front, back := U32(kind) + U32(pad), U64(virtualStart) + U64(pages) + U64(attribute);
    Inside([], U32(kind), U32(pad) + U64(start) + back, 0);
    Inside(front, U64(start), back, 0);
    Inside(front + U64(start) + U64(virtualStart), U64(pages), U64(attribute), 0);
    var d := DescriptorBytes(kind, pad, start, virtualStart, pages, attribute);
    assert d == [] + U32(kind) + (U32(pad) + U64(start) + back);
    assert d == front + U64(start) + back;
    assert d == (front + U64(start) + U64(virtualStart)) + U64(pages) + U64(attribute);
  }

  /** A descriptor is read back from its bytes, wherever they stand: its type, its start and its number of pages. */
  lemma DescriptorReadsBack(before: seq<Byte>, kind: nat, pad: nat, start: Word, virtualStart: Word, pages: Word,
                            attribute: Word, after: seq<Byte>)
    requires kind < 0x1_0000_0000
    ensures var s := before + DescriptorBytes(kind, pad, start, virtualStart, pages, attribute) + after;
            |before| + 40 <= |s| && DescriptorIn(s, |before|) == Descriptor(kind, start, pages)
  {
    hide DescriptorBytes, Get32, Get64, U32, U64;
    var d := DescriptorBytes(kind, pad, start, virtualStart, pages, attribute);
    FieldsInPlace(kind, pad, start, virtualStart, pages, attribute);
    Inside(before, d, after, 0);
    Inside(before, d, after, 8);
    Inside(before, d, after, 24);
    U32RoundTrip(kind);
    U64RoundTrip(start);
    U64RoundTrip(pages);
  }

  /** The kernel finds in memory the descriptor whose bytes are there. */
  lemma DescriptorInMemory(m: seq<Word>, a: nat, kind: nat, pad: nat, start: Word, virtualStart: Word, pages: Word,
                           attribute: Word)
    requires kind < 0x1_0000_0000 && Holds(m, a, DescriptorBytes(kind, pad, start, virtualStart, pages, attribute))
    ensures ReadDescriptor(m, a) == Descriptor(kind, start, pages)
  {
    hide DescriptorBytes, DescriptorIn, Holds;
    var d := DescriptorBytes(kind, pad, start, virtualStart, pages, attribute);
    DescriptorReadsBack([], kind, pad, start, virtualStart, pages, attribute, []);
    assert [] + d + [] == d;
    DescriptorFits(d, m, a, kind, pad, start, virtualStart, pages, attribute);
    HeldBytes(m, a, d, 0, 32);
    PartOfMap(d, 0);
  }

  lemma DescriptorFits(d: seq<Byte>, m: seq<Word>, a: nat, kind: nat, pad: nat, start: Word, virtualStart: Word,
                       pages: Word, attribute: Word)
    requires d == DescriptorBytes(kind, pad, start, virtualStart, pages, attribute) && Holds(m, a, d)
    ensures |d| == 40 && a + 40 <= 8 * |m|
  {
    FieldsInPlace(kind, pad, start, virtualStart, pages, attribute);
  }

  lemma PartOfMap(s: seq<Byte>, at: nat)
    requires at + 32 <= |s|
    ensures DescriptorIn(s[at..at + 32], 0) == DescriptorIn(s, at)
  {
  }

  /** The descriptor at byte address `a`. */
  function ReadDescriptor(m: seq<Word>, a: nat): Descriptor {
    if a + 32 <= 8 * |m| then DescriptorIn(BytesAt(m, a, 32), 0) else Descriptor(0, 0, 0)
  }

  /** The first `n` descriptors of the map at `a`. */
  function MemoryMap(m: seq<Word>, a: nat, descSize: nat, n: nat): (descs: seq<Descriptor>)
    ensures |descs| == n
  {
    if n == 0 then [] else MemoryMap(m, a, descSize, n - 1) + [ReadDescriptor(m, a + (n - 1) * descSize)]
  }

  /** The conventional ranges of a map, in order. */
  function Conventional(descs: seq<Descriptor>): seq<Range> {
    if descs == [] then []
    else
      var d := descs[|descs| - 1];
      Conventional(descs[..|descs| - 1]) + if d.IsConventional() then [d.AsRange()] else []
  }

  /** The end of the last loader-data descriptor that holds the buffer, or `none`. */
  function BufferEnd(descs: seq<Descriptor>, mmapPhys: Word, none: Word): Word {
    if descs == [] then none
    else
      var d := descs[|descs| - 1];
      if d.HoldsBuffer(mmapPhys) then PageAlignUp(d.End()) else BufferEnd(descs[..|descs| - 1], mmapPhys, none)
  }

  /** The whole map that the arguments point to. */
  function MapOf(m: seq<Word>, b: Boot): seq<Descriptor>
    requires b.descSize > 0
  {
    MemoryMap(m, b.mmapPhys, b.descSize, b.mmapSizeUsed / b.descSize)
  }

  /** No more than 256 KiB of the map are scanned. */
  function ScanLimit(b: Boot): nat
    requires b.descSize > 0
  {
    (if b.mmapSizeUsed < MAX_SCAN_BYTES then b.mmapSizeUsed else MAX_SCAN_BYTES) / b.descSize
  }

  /** How many descriptors are scanned, counted on from `i`: up to the limit, or until there are 64 ranges. */
  function ScanCount(descs: seq<Descriptor>, limit: nat, i: nat): (n: nat)
    requires i <= |descs|
    ensures i <= n <= |descs|
    decreases |descs| - i
  {
    if i < |descs| && i < limit && |Conventional(descs[..i])| < MAX_RANGES then ScanCount(descs, limit, i + 1) else i
  }

  /** The descriptors that the scan looks at. */
  function Scanned(descs: seq<Descriptor>, b: Boot): seq<Descriptor>
    requires b.descSize > 0
  {
    descs[..ScanCount(descs, ScanLimit(b), 0)]
  }

  lemma {:induction false} CountStops(descs: seq<Descriptor>, limit: nat, i: nat)
    requires i <= |descs| && i <= limit <= |descs| && |Conventional(descs[..i])| <= MAX_RANGES
    requires forall k | 0 <= k < i :: |Conventional(descs[..k])| < MAX_RANGES
    ensures var n := ScanCount(descs, limit, i);
            && n <= limit && |Conventional(descs[..n])| <= MAX_RANGES
            && (n == limit || |Conventional(descs[..n])| == MAX_RANGES)
            && forall k | 0 <= k < n :: |Conventional(descs[..k])| < MAX_RANGES
    decreases limit - i
  {
    if i < limit && |Conventional(descs[..i])| < MAX_RANGES {
      hide Descriptor.AsRange, Descriptor.IsConventional;
      assert descs[..i + 1][..i] == descs[..i];
      CountStops(descs, limit, i + 1);
    }
  }

  lemma LimitIs(b: Boot)
    requires b.descSize > 0
    ensures var bytes := if b.mmapSizeUsed < 0x4_0000 then b.mmapSizeUsed else 0x4_0000;
            ScanLimit(b) * b.descSize <= bytes < (ScanLimit(b) + 1) * b.descSize
    ensures ScanLimit(b) <= b.mmapSizeUsed / b.descSize
  {
    var bytes := if b.mmapSizeUsed < 0x4_0000 then b.mmapSizeUsed else 0x4_0000;
    QuotientIs(bytes, b.descSize);
    QuotientIs(b.mmapSizeUsed, b.descSize);
    QuotientsInOrder(ScanLimit(b), b.mmapSizeUsed / b.descSize, b.descSize);
  }

  lemma QuotientIs(x: nat, d: nat)
    requires d > 0
    ensures x / d * d <= x < (x / d + 1) * d
  {
  }

  lemma MoreOf(p: nat, q: nat, d: nat)
    requires p <= q
    ensures p * d <= q * d
  {
    assert q * d == p * d + (q - p) * d;
  }

  lemma QuotientsInOrder(p: nat, q: nat, d: nat)
    requires d > 0 && p * d < (q + 1) * d
    ensures p <= q
  {
    if p > q {
      MoreOf(q + 1, p, d);
    }
  }

  /**
   The scan takes whole descriptors out of at most 256 KiB of the map: all of them, unless there are
   64 conventional ones before, and then it stops behind the 64th.
   */
  lemma ScanStops(descs: seq<Descriptor>, b: Boot)
    requires b.descSize > 0 && |descs| == b.mmapSizeUsed / b.descSize
    ensures var n := |Scanned(descs, b)|;
            var bytes := if b.mmapSizeUsed < 0x4_0000 then b.mmapSizeUsed else 0x4_0000;
            && Scanned(descs, b) == descs[..n] && n * b.descSize <= bytes && |Conventional(descs[..n])| <= 64
            && (bytes < (n + 1) * b.descSize || |Conventional(descs[..n])| == 64)
            && forall k | 0 <= k < n :: |Conventional(descs[..k])| < 64
  {
    hide Conventional, ScanCount, ScanLimit;
    LimitIs(b);
    var limit, n := ScanLimit(b), ScanCount(descs, ScanLimit(b), 0);
    assert |Conventional(descs[..0])| == 0 by { NoneScanned(descs, 0, 0); }
    CountStops(descs, limit, 0);
    MoreOf(n, limit, b.descSize);
  }

  /** What the scan takes from a map that is one descriptor longer, in terms of the fields. */
  lemma ScanTakes(descs: seq<Descriptor>, d: Descriptor, mmapPhys: Word, none: Word)
    ensures Conventional(descs + [d]) ==
            Conventional(descs) + if d.kind == 7 && d.pages > 0 then
                                    var from := d.start - d.start % 4096;
                                    [Range(from, (from + d.pages * 4096) % 0x1_0000_0000_0000_0000)]
                                  else []
    ensures BufferEnd(descs + [d], mmapPhys, none) ==
            var end := (d.start + d.pages * 4096) % 0x1_0000_0000_0000_0000;
            if d.kind == 2 && d.start <= mmapPhys < end then PageAlignUp(end) else BufferEnd(descs, mmapPhys, none)
  {
    hide PageAlignUp;
    assert (descs + [d])[..|descs|] == descs;
  }

  /** The scan: ranges and buffer end are those of the scanned descriptors. */
  method Scan(mem: array<Word>, b: Boot, mmapEnd: Word) returns (ranges: seq<Range>, allocEnd: Word)
    requires b.descSize > 0
    ensures ranges == Conventional(Scanned(MapOf(mem[..], b), b))
    ensures allocEnd == BufferEnd(Scanned(MapOf(mem[..], b), b), b.mmapPhys, mmapEnd)
  {
    hide MemoryMap, Conventional, BufferEnd, ScanCount;
    var descCount := b.mmapSizeUsed / b.descSize;
    ranges, allocEnd := ScanFirst(mem, b, mmapEnd, descCount, ScanLimit(b));
  }

  /** The loop of the scan, over a map of `descCount` descriptors. */
  method ScanFirst(mem: array<Word>, b: Boot, mmapEnd: Word, descCount: nat, scanCount: nat)
    returns (ranges: seq<Range>, allocEnd: Word)
    ensures var descs := MemoryMap(mem[..], b.mmapPhys, b.descSize, descCount);
            var seen := descs[..ScanCount(descs, scanCount, 0)];
            ranges == Conventional(seen) && allocEnd == BufferEnd(seen, b.mmapPhys, mmapEnd)
  {
    hide MemoryMap, Conventional, BufferEnd, ReadDescriptor, PageAlignUp, Descriptor.End, Descriptor.AsRange;
    ghost var descs := MemoryMap(mem[..], b.mmapPhys, b.descSize, descCount);
    NoneScanned(descs, b.mmapPhys, mmapEnd);
    ranges, allocEnd := [], mmapEnd;
    var i := 0;
    while i < descCount && i < scanCount && |ranges| < MAX_RANGES
      invariant i <= descCount && ScanCount(descs, scanCount, i) == ScanCount(descs, scanCount, 0)
      invariant ranges == Conventional(descs[..i])
      invariant allocEnd == BufferEnd(descs[..i], b.mmapPhys, mmapEnd)
    {
      var d := ReadDescriptor(mem[..], b.mmapPhys + i * b.descSize);
      MapAt(mem[..], b.mmapPhys, b.descSize, descCount, i);
      OneMore(descs, b.mmapPhys, mmapEnd, i);
      if d.kind == LOADER_DATA {
        var end := d.End();
        if b.mmapPhys >= d.start && b.mmapPhys < end {
          allocEnd := PageAlignUp(end);
        }
      }
      if d.kind == CONVENTIONAL_MEMORY && d.pages > 0 {
        ranges := ranges + [d.AsRange()];
      }
      i := i + 1;
    }
  }

  lemma NoneScanned(descs: seq<Descriptor>, mmapPhys: Word, none: Word)
    ensures Conventional(descs[..0]) == [] && BufferEnd(descs[..0], mmapPhys, none) == none
  {
  }

  lemma OneMore(descs: seq<Descriptor>, mmapPhys: Word, none: Word, i: nat)
    requires i < |descs|
    ensures var d := descs[i];
            && Conventional(descs[..i + 1]) ==
               Conventional(descs[..i]) + (if d.IsConventional() then [d.AsRange()] else [])
            && BufferEnd(descs[..i + 1], mmapPhys, none) ==
               if d.HoldsBuffer(mmapPhys) then PageAlignUp(d.End()) else BufferEnd(descs[..i], mmapPhys, none)
  {
    hide Descriptor.AsRange, Descriptor.End, Descriptor.HoldsBuffer, PageAlignUp;
    assert descs[..i + 1][..i] == descs[..i];
  }

  /** The `i`-th descriptor of a map is the one that is read there. */
  lemma {:induction false} MapAt(m: seq<Word>, a: nat, descSize: nat, n: nat, i: nat)
    requires i < n
    ensures MemoryMap(m, a, descSize, n)[i] == ReadDescriptor(m, a + i * descSize)
    decreases n
  {
    hide ReadDescriptor;
    if i < n - 1 {
      MapAt(m, a, descSize, n - 1, i);
    }
  }

  // ---------- What the loader and the firmware hand over ----------

  predicate Apart(start: int, end: int, start': int, end': int) {
    end <= start' || end' <= start
  }

  /**
   The loader allocated the kernel, the stack and a buffer of `bufferPages` pages: page-aligned,
   pairwise disjoint and below 2^47, the buffer not at address 0, with 128 pages of headroom in it.
   */
  predicate HandedOver(b: Boot, bufferPages: nat) {
    && b.kernelPhys % 4096 == 0 && b.stackPhys % 4096 == 0 && b.mmapPhys % 4096 == 0
    && b.mmapPhys > 0 && b.kernelPages >= 1 && bufferPages >= 130
    && b.mmapSizeUsed <= (bufferPages - 128) * 4096
    && b.kernelPhys + b.kernelPages * 4096 <= TOP
    && b.stackPhys + STACK_BYTES <= TOP
    && b.mmapPhys + bufferPages * 4096 <= TOP
    && Apart(b.kernelPhys, b.kernelPhys + b.kernelPages * 4096, b.stackPhys, b.stackPhys + STACK_BYTES)
    && Apart(b.kernelPhys, b.kernelPhys + b.kernelPages * 4096, b.mmapPhys, b.mmapPhys + bufferPages * 4096)
    && Apart(b.stackPhys, b.stackPhys + STACK_BYTES, b.mmapPhys, b.mmapPhys + bufferPages * 4096)
  }

  /** The end of the used part of the buffer, as a page boundary. */
  function MmapEnd(b: Boot): Word {
    PageAlignUp((b.mmapPhys + b.mmapSizeUsed) % WORD_LIMIT)
  }

  /**
   The pool ends below 2^47: the scan finds the end of the buffer, or there is room for the guessed
   megabyte behind the map.
   */
  predicate EndKnown(descs: seq<Descriptor>, b: Boot)
    requires b.descSize > 0
  {
    || BufferEnd(Scanned(descs, b), b.mmapPhys, MmapEnd(b)) != MmapEnd(b)
    || MmapEnd(b) + 256 * PAGE_SIZE <= TOP
  }

  /** Page-aligned and ending at or below 2^47. */
  predicate LowAndAligned(d: Descriptor) {
    d.start % 4096 == 0 && d.start + d.pages * 4096 <= TOP
  }

  /**
   The firmware's map: conventional ranges are disjoint, and the descriptor that holds the buffer,
   if the map has one, covers it.
   */
  ghost predicate SoundMap(descs: seq<Descriptor>, b: Boot, bufferPages: nat) {
    && (forall i | 0 <= i < |descs| && (descs[i].IsConventional() || descs[i].kind == LOADER_DATA) ::
        LowAndAligned(descs[i]))
    && (forall i, j | 0 <= i < j < |descs| && descs[i].IsConventional() && descs[j].IsConventional() ::
          Apart(descs[i].start, descs[i].start + descs[i].pages * 4096, descs[j].start, descs[j].start
              + descs[j].pages * 4096))
    && (forall i | 0 <= i < |descs| && descs[i].HoldsBuffer(b.mmapPhys) ::
          descs[i].start + descs[i].pages * 4096 >= b.mmapPhys + bufferPages * 4096)
  }

  lemma LowRange(d: Descriptor)
    requires LowAndAligned(d)
    ensures d.AsRange() == Range(d.start, d.start + d.pages * 4096) && d.End() == d.start + d.pages * 4096
    ensures PageAlignUp(d.End()) == d.End() && d.End() % 4096 == 0
  {
    hide PageAlignUp, PageAlignDown;
    var end := d.start + d.pages * 4096;
    LowStays(end);
    EndAligned(d.start, d.pages);
    AlignedStays(d.start);
    AlignedStays(end);
  }

  lemma EndAligned(start: nat, pages: nat)
    requires start % 4096 == 0
    ensures (start + pages * 4096) % 4096 == 0
  {
    assert start + pages * 4096 == 4096 * (start / 4096 + pages);
  }

  /** Range `r` is the range of a conventional descriptor. */
  ghost predicate ComesFrom(r: Range, descs: seq<Descriptor>) {
    exists i :: 0 <= i < |descs| && descs[i].IsConventional() && r == descs[i].AsRange()
  }

  lemma {:induction false} ConventionalSource(descs: seq<Descriptor>)
    ensures forall k | 0 <= k < |Conventional(descs)| :: ComesFrom(Conventional(descs)[k], descs)
  {
    hide Descriptor.AsRange;
    if descs != [] {
      var n := |descs| - 1;
      ConventionalSource(descs[..n]);
      var ranges := Conventional(descs[..n]);
      forall k | 0 <= k < |ranges| ensures ComesFrom(ranges[k], descs) {
        assert ComesFrom(ranges[k], descs[..n]);
        var i :| 0 <= i < n && descs[..n][i].IsConventional() && ranges[k] == descs[..n][i].AsRange();
        assert descs[i] == descs[..n][i];
      }
    }
  }

  lemma {:induction false} ConventionalComplete(descs: seq<Descriptor>, i: nat)
    requires i < |descs| && descs[i].IsConventional()
    ensures descs[i].AsRange() in Conventional(descs)
  {
    hide Descriptor.AsRange, Descriptor.IsConventional;
    var n := |descs| - 1;
    if i < n {
      ConventionalComplete(descs[..n], i);
    }
  }

  predicate GoodRange(r: Range) {
    r.start % 4096 == 0 && r.end % 4096 == 0 && r.end <= TOP
  }

  lemma SourceIsGood(r: Range, descs: seq<Descriptor>, b: Boot, bufferPages: nat)
    requires SoundMap(descs, b, bufferPages) && ComesFrom(r, descs)
    ensures GoodRange(r)
  {
    hide Descriptor.AsRange;
    var i :| 0 <= i < |descs| && descs[i].IsConventional() && r == descs[i].AsRange();
    LowRange(descs[i]);
  }

  ghost predicate PairwiseApart(ranges: seq<Range>) {
    forall j, k | 0 <= j < k < |ranges| :: Apart(ranges[j].start, ranges[j].end, ranges[k].start, ranges[k].end)
  }

  lemma NewRangeApart(r: Range, descs: seq<Descriptor>, b: Boot, bufferPages: nat)
    requires SoundMap(descs, b, bufferPages) && descs != [] && descs[|descs| - 1].IsConventional()
    requires ComesFrom(r, descs[..|descs| - 1])
    ensures var d := descs[|descs| - 1].AsRange(); Apart(r.start, r.end, d.start, d.end)
  {
    hide Descriptor.AsRange;
    var n := |descs| - 1;
    var i :| 0 <= i < n && descs[..n][i].IsConventional() && r == descs[..n][i].AsRange();
    assert descs[i] == descs[..n][i];
    LowRange(descs[i]);
    LowRange(descs[n]);
  }

  lemma SoundPrefix(descs: seq<Descriptor>, b: Boot, bufferPages: nat, n: nat)
    requires SoundMap(descs, b, bufferPages) && n <= |descs|
    ensures SoundMap(descs[..n], b, bufferPages)
  {
    var init := descs[..n];
    assert forall i | 0 <= i < n :: init[i] == descs[i];
  }

  lemma {:induction false} ConventionalApart(descs: seq<Descriptor>, b: Boot, bufferPages: nat)
    requires SoundMap(descs, b, bufferPages)
    ensures PairwiseApart(Conventional(descs))
  {
    hide Descriptor.AsRange, SoundMap, ComesFrom, Apart;
    if descs != [] {
      var n := |descs| - 1;
      SoundPrefix(descs, b, bufferPages, n);
      ConventionalApart(descs[..n], b, bufferPages);
      ConventionalSource(descs[..n]);
      var ranges := Conventional(descs[..n]);
      if descs[n].IsConventional() {
        forall k | 0 <= k < |ranges|
          ensures var d := descs[n].AsRange(); Apart(ranges[k].start, ranges[k].end, d.start, d.end)
        {
          NewRangeApart(ranges[k], descs, b, bufferPages);
        }
      }
    }
  }

  /** The cached ranges are page-aligned, low and pairwise disjoint. */
  lemma ConventionalSound(descs: seq<Descriptor>, b: Boot, bufferPages: nat)
    requires SoundMap(descs, b, bufferPages)
    ensures forall k | 0 <= k < |Conventional(descs)| :: GoodRange(Conventional(descs)[k])
    ensures PairwiseApart(Conventional(descs))
  {
    hide SoundMap, ComesFrom, GoodRange;
    ConventionalApart(descs, b, bufferPages);
    ConventionalSource(descs);
    forall k | 0 <= k < |Conventional(descs)| ensures GoodRange(Conventional(descs)[k]) {
      SourceIsGood(Conventional(descs)[k], descs, b, bufferPages);
    }
  }

  /** What the scan finds is sound. */
  lemma ScanIsSound(descs: seq<Descriptor>, b: Boot, bufferPages: nat)
    requires b.descSize > 0 && SoundMap(descs, b, bufferPages)
    ensures var seen := Scanned(descs, b);
            && PairwiseApart(Conventional(seen))
            && (forall k | 0 <= k < |Conventional(seen)| :: GoodRange(Conventional(seen)[k]))
            && var e := BufferEnd(seen, b.mmapPhys, MmapEnd(b));
               e == MmapEnd(b) || (e % 4096 == 0 && b.mmapPhys + bufferPages * 4096 <= e <= TOP)
  {
    hide SoundMap, MmapEnd, GoodRange, PairwiseApart, ScanLimit;
    var n := ScanCount(descs, ScanLimit(b), 0);
    SoundPrefix(descs, b, bufferPages, n);
    ConventionalSound(descs[..n], b, bufferPages);
    BufferEndSound(descs[..n], b, bufferPages, MmapEnd(b));
  }

  lemma {:induction false} BufferEndSound(descs: seq<Descriptor>, b: Boot, bufferPages: nat, none: Word)
    requires SoundMap(descs, b, bufferPages)
    ensures var e := BufferEnd(descs, b.mmapPhys, none);
            e == none || (e % 4096 == 0 && b.mmapPhys + bufferPages * 4096 <= e <= TOP)
  {
    hide PageAlignUp, Descriptor.End, Descriptor.HoldsBuffer, SoundMap;
    if descs != [] {
      var n := |descs| - 1;
      SoundPrefix(descs, b, bufferPages, n);
      BufferEndSound(descs[..n], b, bufferPages, none);
      if descs[n].HoldsBuffer(b.mmapPhys) {
        HolderIsLow(descs, b, bufferPages, n);
      }
    }
  }

  lemma HolderIsLow(descs: seq<Descriptor>, b: Boot, bufferPages: nat, i: nat)
    requires SoundMap(descs, b, bufferPages) && i < |descs| && descs[i].HoldsBuffer(b.mmapPhys)
    ensures var e := PageAlignUp(descs[i].End()); e % 4096 == 0 && b.mmapPhys + bufferPages * 4096 <= e <= TOP
  {
    LowRange(descs[i]);
  }
}
