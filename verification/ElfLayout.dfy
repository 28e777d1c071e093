/**
 The two headers of a 64-bit little-endian ELF file that matter for the size of the image, written
 out field by field as the System V ABI (gABI, chapters 4 and 5) lays them out, and what
 `pad_kernel_raw.py` reads back from them.
 */
module ElfLayout {
  import opened Bytes
  import opened KernelImage
  import opened Wrappers

  /** `Elf64_Ehdr`; `ident` is its first sixteen bytes. */
  datatype FileHeader = FileHeader(
    ident: seq<Byte>, kind: nat, machine: nat, version: nat, entry: nat, phoff: nat, shoff: nat, flags: nat,
        ehsize: nat, phentsize: nat, phnum: nat, shentsize: nat, shnum: nat, shstrndx: nat)
  {
    /** Where program header `i` stands. */
    function Place(i: nat): nat {
      phoff + i * phentsize
    }

    function Front(): seq<Byte> {
      ident + U16(kind) + U16(machine) + U32(version) + U64(entry)
    }

    function Middle(): seq<Byte> {
      U64(shoff) + U32(flags) + U16(ehsize)
    }

    function Encode(): seq<Byte> {
      Front() + U64(phoff) + Middle() + U16(phentsize) + U16(phnum) + (U16(shentsize) + U16(shnum) + U16(shstrndx))
    }
  }

  /** `Elf64_Phdr`. */
  datatype ProgramHeader = ProgramHeader(
    kind: nat, flags: nat, offset: nat, vaddr: nat, paddr: nat, filesz: nat, memsz: nat, align: nat)
  {
    function Front(): seq<Byte> {
      U32(kind) + U32(flags) + U64(offset)
    }

    function Encode(): seq<Byte> {
      Front() + U64(vaddr) + (U64(paddr) + U64(filesz)) + U64(memsz) + U64(align)
    }

    /** Address and size fit their 64 bits, the type its 32. */
    predicate Fits() {
      kind < 0x1_0000_0000 && vaddr < 0x1_0000_0000_0000_0000 && memsz < 0x1_0000_0000_0000_0000
    }
  }

  /** `part` stands in `elf` from `at` on. */
  predicate Contains(elf: seq<Byte>, at: nat, part: seq<Byte>) {
    at + |part| <= |elf| && elf[at..at + |part|] == part
  }

  /** A file with this header and these program headers, wherever the table lies. */
  ghost predicate IsFile(elf: seq<Byte>, h: FileHeader, ps: seq<ProgramHeader>) {
    hide FileHeader.Encode, FileHeader.Place, ProgramHeader.Encode, ProgramHeader.Fits, Contains;
    && |h.ident| == 16 && h.ident[..5] == [0x7F, 0x45, 0x4C, 0x46, 2]
    && h.phoff < 0x1_0000_0000_0000_0000 && 56 <= h.phentsize < 0x1_0000 && h.phnum == |ps| < 0x1_0000
    && Contains(elf, 0, h.Encode())
    && forall i | 0 <= i < |ps| :: ps[i].Fits() && Contains(elf, h.Place(i), ps[i].Encode())
  }

  lemma Lengths(x: nat)
    ensures |U16(x)| == 2 && |U32(x)| == 4 && |U64(x)| == 8
  {
  }

  /** Fields inside a part are read in place. */
  lemma ReadsInPlace(elf: seq<Byte>, at: nat, part: seq<Byte>, k: nat)
    requires Contains(elf, at, part)
    ensures k + 2 <= |part| ==> Get16(elf, at + k) == Get16(part, k)
    ensures k + 4 <= |part| ==> Get32(elf, at + k) == Get32(part, k)
    ensures k + 8 <= |part| ==> Get64(elf, at + k) == Get64(part, k)
  {
    hide Get16, Get32, Get64;
    Inside(elf[..at], part, elf[at + |part|..], k);
    assert elf == elf[..at] + part + elf[at + |part|..];
  }

  /** The table position at byte 32, the entry size at 54, the entry count at 56 of the file header. */
  lemma FileHeaderFields(h: FileHeader)
    requires |h.ident| == 16
    ensures |h.Encode()| == 64 && h.Encode()[..16] == h.ident
    ensures Get64(h.Encode(), 32) == h.phoff % 0x1_0000_0000_0000_0000
    ensures Get16(h.Encode(), 54) == h.phentsize % 0x1_0000 && Get16(h.Encode(), 56) == h.phnum % 0x1_0000
  {
    hide Get16, Get64, U16, U32, U64;
    Lengths(h.kind); Lengths(h.machine); Lengths(h.version); Lengths(h.entry); Lengths(h.shoff); Lengths(h.flags);
    Lengths(h.ehsize); Lengths(h.phentsize); Lengths(h.phnum); Lengths(h.shentsize); Lengths(h.shnum);
    Lengths(h.shstrndx); Lengths(h.phoff);
    var front, middle, end := h.Front(), h.Middle(), U16(h.shentsize) + U16(h.shnum) + U16(h.shstrndx);
    assert |front| == 32 && |middle| == 14 && |end| == 6;
    FiveFields(front, U64(h.phoff), middle, U16(h.phentsize), U16(h.phnum), end);
    U64RoundTrip(h.phoff);
    U16RoundTrip(h.phentsize);
    U16RoundTrip(h.phnum);
  }

  lemma FiveFields(a: seq<Byte>, b: seq<Byte>, c: seq<Byte>, d: seq<Byte>, e: seq<Byte>, f: seq<Byte>)
    requires |a| == 32 && |b| == 8 && |c| == 14 && |d| == 2 && |e| == 2
    ensures var s := a + b + c + d + e + f;
            && s[..16] == a[..16] && Get64(s, 32) == Get64(b, 0)
            && Get16(s, 54) == Get16(d, 0) && Get16(s, 56) == Get16(e, 0)
  {
    hide Get16, Get64;
    var s := a + b + c + d + e + f;
    assert s == a + b + (c + d + e + f);
    Inside(a, b, c + d + e + f, 0);
    assert s == (a + b + c) + d + (e + f);
    Inside(a + b + c, d, e + f, 0);
    Inside(a + b + c + d, e, f, 0);
  }

  /** The type at byte 0, the address at 16, the size in memory at 40 of a program header. */
  lemma ProgramHeaderFields(p: ProgramHeader)
    requires p.Fits()
    ensures |p.Encode()| == 56 && Get32(p.Encode(), 0) == p.kind
    ensures Get64(p.Encode(), 16) == p.vaddr && Get64(p.Encode(), 40) == p.memsz
  {
    hide Get32, Get64, U32, U64;
    Lengths(p.kind); Lengths(p.flags); Lengths(p.offset); Lengths(p.vaddr); Lengths(p.paddr); Lengths(p.filesz);
    Lengths(p.memsz); Lengths(p.align);
    var middle := U64(p.paddr) + U64(p.filesz);
    SixFields(U32(p.kind), U32(p.flags) + U64(p.offset), U64(p.vaddr), middle, U64(p.memsz), U64(p.align));
    assert p.Front() == U32(p.kind) + (U32(p.flags) + U64(p.offset));
    U32RoundTrip(p.kind);
    U64RoundTrip(p.vaddr);
    U64RoundTrip(p.memsz);
  }

  lemma SixFields(a: seq<Byte>, b: seq<Byte>, c: seq<Byte>, d: seq<Byte>, e: seq<Byte>, f: seq<Byte>)
    requires |a| == 4 && |b| == 12 && |c| == 8 && |d| == 16 && |e| == 8
    ensures var s := a + b + c + d + e + f;
            Get32(s, 0) == Get32(a, 0) && Get64(s, 16) == Get64(c, 0) && Get64(s, 40) == Get64(e, 0)
  {
    hide Get32, Get64;
    var s := a + b + c + d + e + f;
    assert s == [] + a + (b + c + d + e + f);
    Inside([], a, b + c + d + e + f, 0);
    assert s == (a + b) + c + (d + e + f);
    Inside(a + b, c, d + e + f, 0);
    Inside(a + b + c + d, e, f, 0);
  }

  /** The file header reads back. */
  lemma FileReads(elf: seq<Byte>, h: FileHeader, ps: seq<ProgramHeader>)
    requires IsFile(elf, h, ps)
    ensures HasFileHeader(elf) && EntrySize(elf) == h.phentsize && EntryCount(elf) == |ps|
    ensures forall i: nat :: HeaderAt(elf, i) == h.phoff + i * h.phentsize
  {
    hide FileHeader.Encode, Get16, Get64;
    FileHeaderFields(h);
    ReadsInPlace(elf, 0, h.Encode(), 32);
    ReadsInPlace(elf, 0, h.Encode(), 54);
    ReadsInPlace(elf, 0, h.Encode(), 56);
    assert elf[..5] == h.Encode()[..16][..5];
    assert elf[..4] == elf[..5][..4] && elf[4] == elf[..5][4];
  }

  /** Program header `i` reads back, and the addresses of its segment are those from `vaddr` on, `memsz` of them. */
  lemma HeaderReads(elf: seq<Byte>, h: FileHeader, ps: seq<ProgramHeader>, i: nat)
    requires IsFile(elf, h, ps) && i < |ps|
    ensures HasFileHeader(elf) && Readable(elf, i) && (IsLoad(elf, i) <==> ps[i].kind == 1)
    ensures ps[i].kind == 1 ==> Vaddr(elf, i) == ps[i].vaddr && MemSize(elf, i) == ps[i].memsz
    ensures forall a: nat :: InSegment(elf, i, a) <==> ps[i].kind == 1 && ps[i].vaddr <= a < ps[i].vaddr + ps[i].memsz
  {
    hide HasFileHeader, EntryCount, HeaderAt, ProgramHeader.Encode, FileHeader.Encode, Get32, Get64;
    FileReads(elf, h, ps);
    var at := h.phoff + i * h.phentsize;
    assert HeaderAt(elf, i) == at && Contains(elf, at, ps[i].Encode());
    ProgramHeaderFields(ps[i]);
    ReadsInPlace(elf, at, ps[i].Encode(), 0);
    ReadsInPlace(elf, at, ps[i].Encode(), 16);
    ReadsInPlace(elf, at, ps[i].Encode(), 40);
  }

  /**
   The size of the image in terms of the program headers as written: `end` is the largest end of a
   segment of type 1, and a file is well-sized exactly if one of them ends above address 0.
   */
  lemma SizeOfFile(elf: seq<Byte>, h: FileHeader, ps: seq<ProgramHeader>, end: nat)
    requires IsFile(elf, h, ps)
    ensures IsMaxLoadEnd(elf, end) <==>
              && (forall i | 0 <= i < |ps| && ps[i].kind == 1 :: ps[i].vaddr + ps[i].memsz <= end)
              && exists i :: 0 <= i < |ps| && ps[i].kind == 1 && ps[i].vaddr + ps[i].memsz == end
    ensures WellSized(elf) <==> exists i :: 0 <= i < |ps| && ps[i].kind == 1 && ps[i].vaddr + ps[i].memsz > 0
  {
    hide IsFile, HasFileHeader, EntryCount, EntrySize, IsLoad, Vaddr, MemSize, Readable, InSegment;
    FileReads(elf, h, ps);
    assert h.phentsize >= 56 by { EntriesFit(elf, h, ps); }
    forall i | 0 <= i < |ps|
      ensures Readable(elf, i) && (IsLoad(elf, i) <==> ps[i].kind == 1)
      ensures ps[i].kind == 1 ==> LoadEnd(elf, i) == ps[i].vaddr + ps[i].memsz
    {
      HeaderReads(elf, h, ps, i);
    }
  }

  lemma EntriesFit(elf: seq<Byte>, h: FileHeader, ps: seq<ProgramHeader>)
    requires IsFile(elf, h, ps)
    ensures h.phentsize >= 56
  {
  }
}
