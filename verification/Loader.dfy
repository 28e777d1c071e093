/**
 `efi_main`: sizing and filling the three allocations, and the way of the kernel image from the ELF
 file through the printed blob, the loader and stage 1 into the boot address space.
 */
module Loader {
  import opened AddressSpace
  import opened Bytes
  import opened ByteMemory
  import opened FirmwareMap
  import opened KernelBlob
  import opened KernelImage
  import opened PageTableBuilder
  import opened PageTables
  import opened Stage1
  import opened Words
  import opened Wrappers

  // ---------- Sizes ----------

  /** The value of `kernel_blob_len`: an `unsigned long` has 32 bits on the x86_64-windows-gnu target. */
  function BlobLen(n: nat): nat {
    n % 0x1_0000_0000
  }

  /** The fewest pages that hold `bytes` bytes, but no fewer than `least`. */
  ghost predicate FewestPages(pages: int, bytes: nat, least: nat) {
    pages >= least && pages * 4096 >= bytes && (pages > least ==> (pages - 1) * 4096 < bytes)
  }

  function KernelPages(blobLen: nat): (pages: nat)
    ensures FewestPages(pages, blobLen, 1)
  {
    var pages := (blobLen + 4095) / 4096;
    if pages == 0 then 1 else pages
  }

  /** The pages of the memory-map buffer: room for the map as first reported, and 128 more. */
  function BufferPages(mapSize: Word): (pages: nat)
    ensures mapSize <= WORD_LIMIT - 4096 ==> FewestPages(pages - 128, mapSize, 2)
  {
    var pages := (mapSize + 4095) % WORD_LIMIT / 4096;
    (if pages < 2 then 2 else pages) + 128
  }

  /** The kernel pages hold the whole image exactly if its length fits into 32 bits. */
  lemma ImageFits(n: nat)
    ensures KernelPages(BlobLen(n)) * 4096 >= n <==> n < 0x1_0000_0000
    ensures BlobLen(n) == n <==> n < 0x1_0000_0000
  {
    assert BlobLen(n) + 0x1_0000_0000 * (n / 0x1_0000_0000) == n;
  }

  // ---------- The firmware ----------

  /**
   What the firmware answers: the three allocated addresses, the size of the map as first reported,
   and the map that it writes into the buffer.
   */
  datatype Firmware = Firmware(
    kernelPhys: Word, stackPhys: Word, mmapPhys: Word, mapSize: Word, descs: seq<Byte>, descSize: Word)
  {
    /** The arguments for the kernel entry, for a blob of `blobLen` bytes. */
    function Arguments(blobLen: nat): Boot
      requires |descs| < WORD_LIMIT && blobLen < 0x1_0000_0000
    {
      Boot(mmapPhys, |descs|, descSize, kernelPhys, KernelPages(blobLen), stackPhys)
    }

    /** The allocations are as large as asked for, and the map fits into its announced size. */
    predicate Allocates(blobLen: nat) {
      && blobLen < 0x1_0000_0000 && |descs| <= mapSize <= WORD_LIMIT - 4096
      && kernelPhys % 4096 == 0 && stackPhys % 4096 == 0 && mmapPhys % 4096 == 0 && mmapPhys > 0
      && kernelPhys + KernelPages(blobLen) * 4096 <= TOP && stackPhys + STACK_BYTES <= TOP
      && mmapPhys + BufferPages(mapSize) * 4096 <= TOP
      && Apart(kernelPhys, kernelPhys + KernelPages(blobLen) * 4096, stackPhys, stackPhys + STACK_BYTES)
      && Apart(kernelPhys, kernelPhys + KernelPages(blobLen) * 4096, mmapPhys, mmapPhys + BufferPages(mapSize) * 4096)
      && Apart(stackPhys, stackPhys + STACK_BYTES, mmapPhys, mmapPhys + BufferPages(mapSize) * 4096)
    }

    /** The map consists of descriptors of at least their 40 bytes, and is sound for stage 1. */
    ghost predicate Describes(blobLen: nat)
      requires Allocates(blobLen)
    {
      && descSize >= 40
      && SoundMap(Descriptors(descs, descSize, |descs| / descSize), Arguments(blobLen), BufferPages(mapSize))
      && EndKnown(Descriptors(descs, descSize, |descs| / descSize), Arguments(blobLen))
    }

    /** All that is wanted of the firmware for an image of `n` bytes. */
    ghost predicate Provides(n: nat) {
      Allocates(BlobLen(n)) && Describes(BlobLen(n))
    }
  }

  function Descriptors(s: seq<Byte>, descSize: nat, n: nat): (r: seq<Descriptor>)
    ensures |r| == n
  {
    if n == 0 then []
    else
      var at := (n - 1) * descSize;
      Descriptors(s, descSize, n - 1) + [if at + 32 <= |s| then DescriptorIn(s, at) else Descriptor(0, 0, 0)]
  }

  lemma PartInMemory(m: seq<Word>, a: nat, s: seq<Byte>, at: nat)
    requires Holds(m, a, s) && at + 32 <= |s|
    ensures ReadDescriptor(m, a + at) == DescriptorIn(s, at)
  {
    hide DescriptorIn, Holds;
    HeldBytes(m, a, s, at, 32);
    PartOfMap(s, at);
  }

  /** The kernel reads from memory the map that the firmware wrote. */
  lemma {:induction false} MapInMemory(m: seq<Word>, a: nat, s: seq<Byte>, descSize: nat, n: nat)
    requires Holds(m, a, s) && descSize >= 40 && n * descSize <= |s|
    ensures MemoryMap(m, a, descSize, n) == Descriptors(s, descSize, n)
  {
    hide ReadDescriptor, DescriptorIn, Holds;
    if n > 0 {
      OneLess(n, descSize);
      MapInMemory(m, a, s, descSize, n - 1);
      PartInMemory(m, a, s, (n - 1) * descSize);
    }
  }

  lemma OneLess(n: nat, d: nat)
    requires n > 0
    ensures (n - 1) * d + d == n * d && (n - 1) * d >= 0
  {
  }

  lemma QuotientFits(x: nat, d: nat)
    requires d > 0
    ensures x / d * d <= x
  {
  }

  // ---------- The loader ----------

  /** Bytes outside both allocations are as before. */
  ghost predicate OnlyWithin(before: seq<Word>, m: seq<Word>, a: nat, n: nat, a': nat, n': nat) {
    |m| == |before| && forall c | 0 <= c < 8 * |m| && !(a <= c < a + n) && !(a' <= c < a' + n') ::
        ByteAt(m, c) == ByteAt(before, c)
  }

  /** The page count of the kernel. */
  method CountKernelPages(kernelBlobLen: nat) returns (kernelPages: nat)
    ensures FewestPages(kernelPages, kernelBlobLen, 1) && kernelPages == KernelPages(kernelBlobLen)
  {
    kernelPages := (kernelBlobLen + 4095) / 4096;
    if kernelPages == 0 {
      kernelPages := 1;
    }
  }

  /** The page count of the map buffer. */
  method CountBufferPages(mapSize: Word) returns (mmapPages: nat)
    ensures mmapPages == BufferPages(mapSize)
  {
    mmapPages := (mapSize + PAGE_SIZE - 1) % WORD_LIMIT / PAGE_SIZE;
    if mmapPages < 2 {
      mmapPages := 2;
    }
    mmapPages := mmapPages + 128;
  }

  /** The top of a page-aligned stack of four pages, with its low four bits cleared. */
  method StackTop(stackPhys: Word) returns (stackTop: Word)
    requires stackPhys % 4096 == 0 && stackPhys + STACK_BYTES <= TOP
    ensures stackTop == stackPhys + STACK_BYTES && stackTop % 16 == 0
  {
    var top := stackPhys + 4 * PAGE_SIZE;
    LowStays(top);
    PageTop(stackPhys);
    stackTop := top % WORD_LIMIT;
    stackTop := stackTop - stackTop % 16;
  }

  lemma PageTop(x: Word)
    requires x % 4096 == 0
    ensures (x + 0x4000) % 16 == 0
  {
    var q := x / 4096;
    assert x + 0x4000 == 16 * (256 * q + 1024);
  }

  /** From the blob to the jump; the second copy is the firmware filling the buffer. */
  method EfiMain(mem: array<Word>, blob: Blob, fw: Firmware) returns (b: Boot, stackTop: Word, ghost bufferPages: nat)
    requires mem.Length == MEM_WORDS && blob.length == |blob.bytes| && fw.Allocates(BlobLen(blob.length))
    modifies mem
    ensures b == fw.Arguments(BlobLen(blob.length)) && bufferPages == BufferPages(fw.mapSize)
    ensures b.mmapPhys == fw.mmapPhys && b.mmapSizeUsed == |fw.descs| && b.descSize == fw.descSize
    ensures b.kernelPhys == fw.kernelPhys && b.stackPhys == fw.stackPhys && b.kernelPages == KernelPages(blob.length
            % 0x1_0000_0000)
    ensures HandedOver(b, bufferPages)
    ensures stackTop == fw.stackPhys + 16384 && stackTop % 16 == 0
    ensures Holds(mem[..], fw.kernelPhys, blob.bytes[..BlobLen(blob.length)]) && Holds(mem[..], fw.mmapPhys, fw.descs)
    ensures OnlyWithin(old(mem[..]), mem[..], fw.kernelPhys, BlobLen(blob.length), fw.mmapPhys, |fw.descs|)
  {
    hide Holds, Stored, ByteAt, OnlyWithin, HandedOver, Apart, Firmware.Allocates, FewestPages, KernelPages,
        BufferPages;
    hide BlobLen;
    AllocationsApart(fw, BlobLen(blob.length));
    LengthFits(blob.length);
    var kernelBlobLen := BlobLen(blob.length);
    var kernelPages := CountKernelPages(kernelBlobLen);
    CopyBytes(mem, fw.kernelPhys, blob.bytes, kernelBlobLen);
    ghost var copied := mem[..];
    stackTop := StackTop(fw.stackPhys);
    var mmapPages := CountBufferPages(fw.mapSize);
    CopyBytes(mem, fw.mmapPhys, fw.descs, |fw.descs|);
    assert fw.descs[..|fw.descs|] == fw.descs;
    TwoCopies(old(mem[..]), copied, mem[..], fw.kernelPhys, blob.bytes[..kernelBlobLen], fw.mmapPhys, fw.descs);
    bufferPages := mmapPages;
    b := Boot(fw.mmapPhys, |fw.descs|, fw.descSize, fw.kernelPhys, kernelPages, fw.stackPhys);
  }

  lemma LengthFits(n: nat)
    ensures BlobLen(n) <= n && BlobLen(n) < 0x1_0000_0000 && BlobLen(n) == n % 0x1_0000_0000
  {
    assert n == 0x1_0000_0000 * (n / 0x1_0000_0000) + n % 0x1_0000_0000;
  }

  /** What the allocations give the copies and the kernel. */
  lemma AllocationsApart(fw: Firmware, blobLen: nat)
    requires fw.Allocates(blobLen)
    ensures fw.kernelPhys + blobLen <= TOP && fw.mmapPhys + |fw.descs| <= TOP
    ensures fw.kernelPhys + blobLen <= fw.mmapPhys || fw.mmapPhys + |fw.descs| <= fw.kernelPhys
    ensures fw.stackPhys % 4096 == 0 && fw.stackPhys + STACK_BYTES <= TOP
    ensures |fw.descs| < WORD_LIMIT && HandedOver(fw.Arguments(blobLen), BufferPages(fw.mapSize))
  {
    assert FewestPages(KernelPages(blobLen), blobLen, 1) && FewestPages(BufferPages(fw.mapSize) - 128, fw.mapSize, 2);
  }

  lemma TwoCopies(m0: seq<Word>, m1: seq<Word>, m2: seq<Word>, a: nat, s: seq<Byte>, a': nat, s': seq<Byte>)
    requires Stored(m0, m1, a, s) && Stored(m1, m2, a', s') && (a + |s| <= a' || a' + |s'| <= a)
    ensures Holds(m2, a, s) && Holds(m2, a', s') && OnlyWithin(m0, m2, a, |s|, a', |s'|)
  {
    hide ByteAt;
    StoredHolds(m0, m1, a, s);
    StoredHolds(m1, m2, a', s');
    StoreKeeps(m1, m2, a', s', a, s);
  }

  // ---------- The image in the boot address space ----------

  /** Physical byte `p` is `x`, and both halves show it there. */
  ghost predicate ShowsByte(m: seq<Word>, root: nat, p: nat, x: Byte) {
    && p < TOP && p < 8 * |m| && ByteAt(m, p) == x
    && Translate(m, root, p) == Some(Access(p, true))
    && Translate(m, root, p + UPPER_HALF) == Some(Access(p, true))
  }

  /** Every address of every load segment is there at its offset from `kernelPhys`: the raw bytes, then zeros. */
  ghost predicate ImageShown(m: seq<Word>, root: nat, kernelPhys: nat, elf: seq<Byte>, raw: seq<Byte>) {
    forall i, a :: InSegment(elf, i, a) ==> ShowsByte(m, root, kernelPhys + a, PaddedByte(raw, a))
  }

  lemma KernelByteIntended(k: Regions, p: nat)
    requires k.Sound() && k.kernelPhys <= p < k.kernelPhys + k.kernelBytes
    ensures p < TOP && Intended(k, p) == Some(Access(p, true)) && Intended(k, p + UPPER_HALF) == Some(Access(p, true))
  {
    assert k.Shows(p / 4096);
  }

  /** Stage 1 leaves the kernel image in place, because its tables avoid it. */
  lemma ImageUntouched(before: seq<Word>, m: seq<Word>, tables: seq<nat>, start: nat, end: nat, p: nat)
    requires start % 8 == 0 && start <= p < end && p < 8 * |m|
    requires ChangedOnlyIn(before, m, tables)
    requires forall t | t in tables :: t % 4096 == 0 && Apart(t, t + 4096, start, end)
    ensures |before| == |m| && ByteAt(m, p) == ByteAt(before, p)
  {
    hide ByteOf, Apart;
    RegionUntouched(before, m, tables, start, end, p / 8);
  }

  /** The bytes from `start` on are shown. */
  ghost predicate BytesShown(m: seq<Word>, root: nat, start: nat, bytes: seq<Byte>) {
    forall a | 0 <= a < |bytes| :: ShowsByte(m, root, start + a, bytes[a])
  }

  /** Loader and stage 1: a blob of up to 24065 pages always comes up, and every byte of it is then shown. */
  method LoadAndStart(mem: array<Word>, blob: Blob, fw: Firmware) returns (r: Outcome, root: nat)
    requires mem.Length == MEM_WORDS && blob.length == |blob.bytes| && fw.Provides(blob.length)
    modifies mem
    ensures r.Running? && blob.length < 0x1_0000_0000 ==> BytesShown(mem[..], root / 4096, fw.kernelPhys, blob.bytes)
    ensures blob.length <= 24065 * 4096 && |fw.descs| >= fw.descSize ==> r.Running?
  {
    hide Holds, BytesShown, SoundMap, EndKnown, MapOf, HandedOver, ChangedOnlyIn, Apart, Firmware.Allocates,
        KernelPages;
    hide Translate, Intended, OnlyWithin, PoolOf, Needed, Serves;
    var b, stackTop, bufferPages := EfiMain(mem, blob, fw);
    ghost var loaded := mem[..];
    MapReady(loaded, fw, BlobLen(blob.length));
    ghost var tables;
    r, root, tables := KernelStage1(mem, b, bufferPages);
    FewPages(blob.length);
    ImageFits(blob.length);
    if r.Running? && blob.length < 0x1_0000_0000 {
      assert blob.bytes[..blob.length] == blob.bytes;
      BytesComeUp(loaded, mem[..], root / 4096, b, bufferPages, tables, blob.bytes);
    }
  }

  /**
   The whole pipeline: pad the image, print it as an initialiser, read the initialiser as the compiler
   does, load it, and run stage 1. Every address of every load segment then shows its byte in both halves.
   */
  method BootImage(mem: array<Word>, elf: seq<Byte>, raw: seq<Byte>, fw: Firmware)
    returns (r: Result<Outcome, ImageError>, root: nat, ghost image: seq<Byte>)
    requires mem.Length == MEM_WORDS
    requires forall n: nat :: IsMaxLoadEnd(elf, n) ==> fw.Provides(n)
    modifies mem
    ensures r.Err? ==> mem[..] == old(mem[..])
    ensures WellSized(elf) && r.Err? ==> r.error == RawTooLong && AllEndBelow(elf, |raw|)
    ensures r.Ok? ==> WellSized(elf) && IsPadded(elf, raw, image)
    ensures r.Ok? && r.value.Running? && |image| < 0x1_0000_0000 ==> ImageShown(mem[..], root / 4096, fw.kernelPhys,
            elf, raw)
    ensures r.Ok? && |image| <= 24065 * 4096 && |fw.descs| >= fw.descSize ==> r.value.Running?
  {
    hide WellSized, IsMaxLoadEnd, AllEndBelow, IsPadded, BytesShown, ImageShown, Firmware.Provides, ReadText, Text;
    root, image := 0, [];
    var padded := PadKernel(elf, raw);
    if padded.Err? {
      return Err(padded.error), root, image;
    }
    image := padded.value;
    ImageServed(elf, raw, image, fw);
    var text := Print(padded.value);
    var outcome;
    outcome, root := LoadAndStart(mem, ReadText(text).value, fw);
    r := Ok(outcome);
    if outcome.Running? && |image| < 0x1_0000_0000 {
      SegmentsShown(mem[..], root / 4096, fw.kernelPhys, elf, raw, image);
    }
  }

  lemma ImageServed(elf: seq<Byte>, raw: seq<Byte>, image: seq<Byte>, fw: Firmware)
    requires forall n: nat :: IsMaxLoadEnd(elf, n) ==> fw.Provides(n)
    requires IsPadded(elf, raw, image)
    ensures fw.Provides(|image|)
  {
    hide IsMaxLoadEnd;
  }

  lemma FewPages(n: nat)
    ensures n <= 24065 * 4096 ==> KernelPages(BlobLen(n)) <= 24065
  {
  }

  lemma MapReady(m: seq<Word>, fw: Firmware, blobLen: nat)
    requires fw.Allocates(blobLen) && fw.Describes(blobLen) && Holds(m, fw.mmapPhys, fw.descs)
    ensures var b := fw.Arguments(blobLen);
            SoundMap(MapOf(m, b), b, BufferPages(fw.mapSize)) && EndKnown(MapOf(m, b), b)
  {
    hide SoundMap, EndKnown, Holds, MemoryMap, Descriptors, BufferPages, KernelPages, Apart;
    var n := |fw.descs| / fw.descSize;
    QuotientFits(|fw.descs|, fw.descSize);
    MapInMemory(m, fw.mmapPhys, fw.descs, fw.descSize, n);
  }

  lemma SegmentsShown(m: seq<Word>, root: nat, kernelPhys: nat, elf: seq<Byte>, raw: seq<Byte>, image: seq<Byte>)
    requires IsPadded(elf, raw, image) && BytesShown(m, root, kernelPhys, image)
    ensures ImageShown(m, root, kernelPhys, elf, raw)
  {
    hide IsPadded, InSegment, PaddedByte, ShowsByte;
    forall i, a | InSegment(elf, i, a)
      ensures ShowsByte(m, root, kernelPhys + a, PaddedByte(raw, a))
    {
      SegmentInImage(elf, raw, image, i, a);
    }
  }

  /** What stage 1 promises is what the image needs. */
  lemma BytesComeUp(before: seq<Word>, m: seq<Word>, root: nat, b: Boot, bufferPages: nat, tables: seq<nat>,
      image: seq<Byte>)
    requires HandedOver(b, bufferPages) && |image| <= b.kernelPages * 4096
    requires Holds(before, b.kernelPhys, image) && ChangedOnlyIn(before, m, tables)
    requires forall t | t in tables :: t % 4096 == 0 && Apart(t, t + 4096, b.kernelPhys, b.kernelPhys
             + b.kernelPages * 4096)
    requires b.kernelPages * PAGE_SIZE < WORD_LIMIT && forall v: Word ::
             Translate(m, root, v) == Intended(RegionsOf(b), v)
    ensures BytesShown(m, root, b.kernelPhys, image)
  {
    hide Holds, ShowsByte, HandedOver, ByteAt, ChangedOnlyIn, Apart, Translate, Intended;
    forall a | 0 <= a < |image| ensures ShowsByte(m, root, b.kernelPhys + a, image[a]) {
      ByteComesUp(before, m, root, b, bufferPages, tables, image, a);
    }
  }

  lemma ByteComesUp(before: seq<Word>, m: seq<Word>, root: nat, b: Boot, bufferPages: nat, tables: seq<nat>,
                    image: seq<Byte>, a: nat)
    requires HandedOver(b, bufferPages) && a < |image| <= b.kernelPages * 4096
    requires Holds(before, b.kernelPhys, image) && ChangedOnlyIn(before, m, tables)
    requires forall t | t in tables :: t % 4096 == 0 && Apart(t, t + 4096, b.kernelPhys, b.kernelPhys
             + b.kernelPages * 4096)
    requires b.kernelPages * PAGE_SIZE < WORD_LIMIT && forall v: Word ::
             Translate(m, root, v) == Intended(RegionsOf(b), v)
    ensures ShowsByte(m, root, b.kernelPhys + a, image[a])
  {
    hide ByteAt, ChangedOnlyIn, Apart, Translate, Intended, Regions.Sound;
    var p := b.kernelPhys + a;
    RegionsSound(b, bufferPages);
    KernelByteIntended(RegionsOf(b), p);
    assert |m| == |before| by { SameSize(before, m, tables); }
    assert ByteAt(before, p) == image[a];
    ImageUntouched(before, m, tables, b.kernelPhys, b.kernelPhys + b.kernelPages * 4096, p);
  }

  lemma SameSize(before: seq<Word>, m: seq<Word>, tables: seq<nat>)
    requires ChangedOnlyIn(before, m, tables)
    ensures |m| == |before|
  {
  }

  /**
   Sixteen bytes a gate: the whole interrupt table at link offset `table`, if a segment covers it,
   is identity-mapped.
   */
  lemma TableMapped(m: seq<Word>, root: nat, kernelPhys: nat, elf: seq<Byte>, raw: seq<Byte>, i: nat, table: nat,
      vector: nat, k: nat)
    requires ImageShown(m, root, kernelPhys, elf, raw) && vector < 256 && k < 16
    requires InSegment(elf, i, table) && InSegment(elf, i, table + 256 * 16 - 1)
    ensures kernelPhys + table + 16 * vector + k < TOP
    ensures var p := kernelPhys + table + 16 * vector + k; Translate(m, root, p) == Some(Access(p, true))
  {
    hide ByteAt, Translate, PaddedByte;
    var a := table + 16 * vector + k;
    assert InSegment(elf, i, a) by { SegmentConvex(elf, i, table, a, table + 256 * 16 - 1); }
    assert ShowsByte(m, root, kernelPhys + a, PaddedByte(raw, a));
  }

  lemma SegmentConvex(elf: seq<Byte>, i: nat, from: nat, a: nat, to: nat)
    requires InSegment(elf, i, from) && InSegment(elf, i, to) && from <= a <= to
    ensures InSegment(elf, i, a)
  {
    hide HasFileHeader, IsLoad, Vaddr, LoadEnd;
  }
}
