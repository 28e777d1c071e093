/** `pad_kernel_raw.py`: how far the loadable segments of an ELF file reach, and padding the raw image to it. */
module KernelImage {
  import opened Bytes
  import opened Wrappers

  /** The ways in which the script ends without an image; `Truncated` is a read past the end of the file. */
  datatype ImageError = NotElf | WrongClass | Truncated | BadEntrySize | NoLoadSegment | RawTooLong

  const MAGIC: seq<Byte> := [0x7F, 0x45, 0x4C, 0x46]
  const PT_LOAD: nat := 1

  predicate IsElf(elf: seq<Byte>) {
    |elf| >= 4 && elf[..4] == MAGIC
  }

  /** The file is a 64-bit ELF file up to the fields that the script reads from the file header. */
  predicate HasFileHeader(elf: seq<Byte>) {
    IsElf(elf) && |elf| >= 58 && elf[4] == 2
  }

  function EntrySize(elf: seq<Byte>): nat
    requires HasFileHeader(elf)
  {
    Get16(elf, 54)
  }

  function EntryCount(elf: seq<Byte>): nat
    requires HasFileHeader(elf)
  {
    Get16(elf, 56)
  }

  /** Where program header `i` begins. */
  function HeaderAt(elf: seq<Byte>, i: nat): nat
    requires HasFileHeader(elf)
  {
    hide Get64, EntrySize;
    Get64(elf, 32) + i * EntrySize(elf)
  }

  /** Header `i` lies in the file as far as it is read: its type, and for a load segment also address and size. */
  predicate Readable(elf: seq<Byte>, i: nat)
    requires HasFileHeader(elf)
  {
    var at := HeaderAt(elf, i);
    at + 4 <= |elf| && (Get32(elf, at) == PT_LOAD ==> at + 48 <= |elf|)
  }

  /** Header `i` is one of the file's load segments. */
  predicate IsLoad(elf: seq<Byte>, i: nat)
    requires HasFileHeader(elf)
  {
    i < EntryCount(elf) && HeaderAt(elf, i) + 48 <= |elf| && Get32(elf, HeaderAt(elf, i)) == PT_LOAD
  }

  function Vaddr(elf: seq<Byte>, i: nat): nat
    requires HasFileHeader(elf) && IsLoad(elf, i)
  {
    Get64(elf, HeaderAt(elf, i) + 16)
  }

  function MemSize(elf: seq<Byte>, i: nat): nat
    requires HasFileHeader(elf) && IsLoad(elf, i)
  {
    Get64(elf, HeaderAt(elf, i) + 40)
  }

  function LoadEnd(elf: seq<Byte>, i: nat): nat
    requires HasFileHeader(elf) && IsLoad(elf, i)
  {
    Vaddr(elf, i) + MemSize(elf, i)
  }

  ghost predicate AllReadable(elf: seq<Byte>)
    requires HasFileHeader(elf)
  {
    forall i | 0 <= i < EntryCount(elf) :: Readable(elf, i)
  }

  /** All program headers can be read, and some load segment ends above address 0. */
  ghost predicate WellSized(elf: seq<Byte>) {
    && HasFileHeader(elf) && EntrySize(elf) >= 56
    && AllReadable(elf)
    && exists i :: 0 <= i < EntryCount(elf) && IsLoad(elf, i) && LoadEnd(elf, i) > 0
  }

  /** `end` is the largest end of a load segment. */
  ghost predicate IsMaxLoadEnd(elf: seq<Byte>, end: nat) {
    && HasFileHeader(elf)
    && (forall i | 0 <= i < EntryCount(elf) && IsLoad(elf, i) :: LoadEnd(elf, i) <= end)
    && exists i :: 0 <= i < EntryCount(elf) && IsLoad(elf, i) && LoadEnd(elf, i) == end
  }

  /** What the fields at header `i` say, in terms of where they are read. */
  lemma HeaderFields(elf: seq<Byte>, i: nat, o: nat)
    requires HasFileHeader(elf) && i < EntryCount(elf) && o == Get64(elf, 32) + i * Get16(elf, 54)
    ensures Readable(elf, i) <==> o + 4 <= |elf| && (Get32(elf, o) == PT_LOAD ==> o + 48 <= |elf|)
    ensures IsLoad(elf, i) <==> o + 48 <= |elf| && Get32(elf, o) == PT_LOAD
    ensures IsLoad(elf, i) ==> LoadEnd(elf, i) == Get64(elf, o + 16) + Get64(elf, o + 40)
  {
    hide Get16, Get32, Get64, HasFileHeader;
    assert HeaderAt(elf, i) == o;
  }

  /**
   `max_load_vaddr_plus_memsz`: the maximum for every well-sized file, and otherwise the first thing
   that is wrong.
   */
  method MaxLoadEnd(elf: seq<Byte>) returns (r: Result<nat, ImageError>)
    ensures r.Ok? <==> WellSized(elf)
    ensures r.Ok? ==> r.value > 0 && IsMaxLoadEnd(elf, r.value)
    ensures r == Err(NotElf) <==> !IsElf(elf)
    ensures r == Err(WrongClass) <==> IsElf(elf) && |elf| >= 5 && elf[4] != 2
    ensures r == Err(BadEntrySize) <==> HasFileHeader(elf) && EntrySize(elf) < 56
    ensures r == Err(NoLoadSegment) <==>
              && HasFileHeader(elf) && EntrySize(elf) >= 56 && AllReadable(elf)
              && forall i | 0 <= i < EntryCount(elf) && IsLoad(elf, i) :: LoadEnd(elf, i) == 0
    ensures r.Err? ==> r.error != RawTooLong
  {
    if |elf| < 4 || elf[..4] != MAGIC {
      return Err(NotElf);
    }
    if |elf| < 5 {
      return Err(Truncated);
    }
    if elf[4] != 2 {
      return Err(WrongClass);
    }
    if |elf| < 58 {
      return Err(Truncated);
    }
    hide Get16, Get32, Get64, Readable, IsLoad, LoadEnd, HeaderAt;
    if Get16(elf, 54) < 56 {
      return Err(BadEntrySize);
    }
    var readable, end := LastEnd(elf);
    r := if !readable then Err(Truncated) else if end == 0 then Err(NoLoadSegment) else Ok(end);
  }

  /** The loop over the program headers; `readable` is false if it reads past the end of the file. */
  method LastEnd(elf: seq<Byte>) returns (readable: bool, end: nat)
    requires HasFileHeader(elf)
    ensures readable <==> AllReadable(elf)
    ensures readable ==> forall i | 0 <= i < EntryCount(elf) && IsLoad(elf, i) :: LoadEnd(elf, i) <= end
    ensures readable && end > 0 ==> exists i :: 0 <= i < EntryCount(elf) && IsLoad(elf, i) && LoadEnd(elf, i) == end
  {
    hide Get16, Get32, Get64, Readable, IsLoad, LoadEnd, HeaderAt, HasFileHeader;
    HeaderLength(elf);
    var phoff, phentsize, phnum := Get64(elf, 32), Get16(elf, 54), Get16(elf, 56);
    end := 0;
    for i := 0 to phnum
      invariant forall j | 0 <= j < i :: Readable(elf, j)
      invariant forall j | 0 <= j < i && IsLoad(elf, j) :: LoadEnd(elf, j) <= end
      invariant end > 0 ==> exists j :: 0 <= j < i && IsLoad(elf, j) && LoadEnd(elf, j) == end
    {
      var o := phoff + i * phentsize;
      HeaderFields(elf, i, o);
      if o + 4 > |elf| {
        return false, 0;
      }
      if Get32(elf, o) == PT_LOAD {
        if o + 48 > |elf| {
          return false, 0;
        }
        var candidate := Get64(elf, o + 16) + Get64(elf, o + 40);
        if candidate > end {
          end := candidate;
        }
      }
    }
    readable := true;
  }

  lemma HeaderLength(elf: seq<Byte>)
    requires HasFileHeader(elf)
    ensures |elf| >= 58
  {
  }

  /** Address `a` belongs to load segment `i`. */
  predicate InSegment(elf: seq<Byte>, i: nat, a: nat) {
    HasFileHeader(elf) && IsLoad(elf, i) && Vaddr(elf, i) <= a < LoadEnd(elf, i)
  }

  /** The byte that the padded image has at offset `a`. */
  function PaddedByte(raw: seq<Byte>, a: nat): Byte {
    if a < |raw| then raw[a] else 0
  }

  /** Every load segment ends below `n`. */
  ghost predicate AllEndBelow(elf: seq<Byte>, n: nat) {
    HasFileHeader(elf) && forall i | 0 <= i < EntryCount(elf) && IsLoad(elf, i) :: LoadEnd(elf, i) < n
  }

  /** `image` reaches exactly to the end of the last load segment: the raw bytes, then zeros. */
  ghost predicate IsPadded(elf: seq<Byte>, raw: seq<Byte>, image: seq<Byte>) {
    && IsMaxLoadEnd(elf, |image|) && |raw| <= |image|
    && forall a | 0 <= a < |image| :: image[a] == PaddedByte(raw, a)
  }

  /**
   The padding step. It fails on a good file only if the raw image is longer than every segment;
   padding again changes nothing.
   */
  method PadKernel(elf: seq<Byte>, raw: seq<Byte>) returns (r: Result<seq<Byte>, ImageError>)
    ensures r.Ok? ==> WellSized(elf) && IsPadded(elf, raw, r.value)
    ensures r.Ok? ==> raw <= r.value && forall a | |raw| <= a < |r.value| :: r.value[a] == 0
    ensures WellSized(elf) && r.Err? ==> r.error == RawTooLong && AllEndBelow(elf, |raw|)
    ensures WellSized(elf) && IsMaxLoadEnd(elf, |raw|) ==> r == Ok(raw)
  {
    hide WellSized, IsMaxLoadEnd, AllEndBelow;
    var end := MaxLoadEnd(elf);
    if end.Err? {
      return Err(end.error);
    }
    var need := end.value;
    if |raw| > need {
      LongerThanAll(elf, need, |raw|);
      return Err(RawTooLong);
    }
    if IsMaxLoadEnd(elf, |raw|) {
      MaxIsUnique(elf, need, |raw|);
      assert raw + Zeros(0) == raw;
    }
    r := Ok(raw + Zeros(need - |raw|));
  }

  lemma LongerThanAll(elf: seq<Byte>, need: nat, n: nat)
    requires IsMaxLoadEnd(elf, need) && need < n
    ensures AllEndBelow(elf, n) && !IsMaxLoadEnd(elf, n)
  {
    hide HasFileHeader, LoadEnd, IsLoad;
  }

  lemma MaxIsUnique(elf: seq<Byte>, end: nat, end': nat)
    requires IsMaxLoadEnd(elf, end) && IsMaxLoadEnd(elf, end')
    ensures end == end'
  {
    hide HasFileHeader, LoadEnd, IsLoad;
  }

  /** Every address of a load segment is an offset into the padded image. */
  lemma SegmentInImage(elf: seq<Byte>, raw: seq<Byte>, image: seq<Byte>, i: nat, a: nat)
    requires IsPadded(elf, raw, image) && InSegment(elf, i, a)
    ensures a < |image| && image[a] == PaddedByte(raw, a)
  {
    hide HasFileHeader, LoadEnd, Vaddr;
  }
}
