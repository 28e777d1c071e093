/**
 The builder of the boot image: a FAT16 volume of 16 MiB that holds one file, EFI/BOOT/BOOTX64.EFI.
 */
module Fat16Builder {
  import opened Bytes
  import opened Fat16Format
  import opened Wrappers
  import Sizing = Fat16Sizing

  const SECTOR: nat := 512
  const TOTAL_SECTORS: nat := 32768
  const RESERVED_SECTORS: nat := 1
  const FAT_COUNT: nat := 2
  const ROOT_ENTRIES: nat := 64
  const ROOT_SECTORS: nat := 4
  const EOC: nat := 0xFFFF

  /** What the sizing loop arrives at for this disk, and what is left for data. */
  const FAT_SECTORS: nat := 127
  const DATA_SECTORS: nat := 32509
  const FAT_BYTES: nat := 65024

  const EFI_CLUSTER: nat := 2
  const BOOT_CLUSTER: nat := 3
  const FILE_CLUSTER: nat := 4

  datatype BuildError = ClusterCountTooSmall | InvalidGeometry | TooManyClusters | ClusterOutOfRange

  // ---------- Byte arrays that grow ----------

  function Min(a: nat, b: nat): nat {
    if a < b then a else b
  }

  /** `s[at:at + len(payload)] = payload` on a Python bytearray; past the end it appends. */
  function SliceAssign(s: seq<Byte>, at: nat, payload: seq<Byte>): seq<Byte> {
    s[..Min(at, |s|)] + payload + s[Min(at + |payload|, |s|)..]
  }

  /** `s` followed by zeros up to length `n`. */
  function ZeroFilled(s: seq<Byte>, n: nat): (r: seq<Byte>)
    ensures |r| == if |s| <= n then n else |s|
  {
    s + Zeros(if |s| <= n then n - |s| else 0)
  }

  lemma AssignAtFill(s: seq<Byte>, n: nat, payload: seq<Byte>)
    ensures SliceAssign(ZeroFilled(s, n), |s|, payload) == ZeroFilled(s + payload, n)
  {
    assert ZeroFilled(s, n)[..|s|] == s;
  }

  // ---------- The two FATs ----------

  /** Sixteen-bit entries, one after the other. */
  function Encode(entries: seq<nat>): (r: seq<Byte>)
    ensures |r| == 2 * |entries|
  {
    if entries == [] then [] else Encode(entries[..|entries| - 1]) + U16(entries[|entries| - 1])
  }

  lemma EncodeAppend(entries: seq<nat>, e: nat)
    ensures Encode(entries + [e]) == Encode(entries) + U16(e)
  {
    assert (entries + [e])[..|entries|] == entries;
  }

  lemma {:induction false} EncodeAt(entries: seq<nat>, c: nat)
    requires c < |entries|
    ensures Get16(Encode(entries), 2 * c) == entries[c] % 0x1_0000
  {
    var n := |entries| - 1;
    if c < n {
      EncodeAt(entries[..n], c);
    } else {
      U16RoundTrip(entries[n]);
    }
  }

  /** The chain of `i` file clusters that are followed by another one. */
  function Links(i: nat): (r: seq<nat>)
    ensures |r| == i && forall k | 0 <= k < i :: r[k] == FILE_CLUSTER + k + 1
  {
    seq(i, k => FILE_CLUSTER + k + 1)
  }

  const FAT_HEAD: seq<nat> := [0xFFF8, 0xFFFF, EOC, EOC]

  /** The FAT for a file of `n` clusters: two reserved entries, two directories, the file. */
  function FatEntries(n: nat): (r: seq<nat>)
    requires n > 0
    ensures |r| == FILE_CLUSTER + n
  {
    FAT_HEAD + Links(n - 1) + [EOC]
  }

  /** Entry `c` of a FAT for a file of `n` clusters: reserved, end mark, or the next cluster of the file. */
  function EntryValue(n: nat, c: nat): nat {
    if c == 0 then 0xFFF8 else if c <= 3 || c == n + 3 then 0xFFFF else c + 1
  }

  /** `fat` is the table for a file of `n` clusters: its entries, then zeros. */
  ghost predicate IsFat(fat: seq<Byte>, n: nat) {
    && |fat| >= 2 * (n + 4)
    && (forall c | 0 <= c < n + 4 :: Get16(fat, 2 * c) == EntryValue(n, c) % 0x1_0000)
    && forall i | 2 * (n + 4) <= i < |fat| :: fat[i] == 0
  }

  lemma FatContents(n: nat)
    requires n > 0
    ensures IsFat(ZeroFilled(Encode(FatEntries(n)), FAT_BYTES), n)
  {
    hide Encode;
    var entries := FatEntries(n);
    var fat := ZeroFilled(Encode(entries), FAT_BYTES);
    forall c | 0 <= c < n + 4 ensures Get16(fat, 2 * c) == EntryValue(n, c) % 0x1_0000 {
      EncodeAt(entries, c);
      assert fat[2 * c] == Encode(entries)[2 * c] && fat[2 * c + 1] == Encode(entries)[2 * c + 1];
    }
  }

  /** The volume under construction. */
  class Volume {
    var fat1: seq<Byte>
    var fat2: seq<Byte>
    var data: seq<Byte>
    const dataSectors: nat

    constructor (fatBytes: nat, dataSectors: nat)
      ensures fat1 == fat2 == Zeros(fatBytes) && data == Zeros(dataSectors * SECTOR) && this.dataSectors == dataSectors
    {
      this.dataSectors := dataSectors;
      fat1, fat2, data := Zeros(fatBytes), Zeros(fatBytes), Zeros(dataSectors * SECTOR);
    }

    /** `set_fat_entry`. */
    method SetFatEntry(cluster: nat, val: nat)
      modifies `fat1, `fat2
      ensures fat1 == SliceAssign(old(fat1), cluster * 2, U16(val))
      ensures fat2 == SliceAssign(old(fat2), cluster * 2, U16(val))
    {
      var off := cluster * 2;
      fat1 := SliceAssign(fat1, off, U16(val));
      fat2 := SliceAssign(fat2, off, U16(val));
    }

    /** Sets the entry right behind `entries`, the ones set so far. */
    method NextFatEntry(ghost entries: seq<nat>, cluster: nat, val: nat)
      requires cluster == |entries| && fat1 == fat2 == ZeroFilled(Encode(entries), FAT_BYTES)
      modifies `fat1, `fat2
      ensures fat1 == fat2 == ZeroFilled(Encode(entries + [val]), FAT_BYTES)
    {
      AssignAtFill(Encode(entries), FAT_BYTES, U16(val));
      EncodeAppend(entries, val);
      SetFatEntry(cluster, val);
    }

    /** The reserved entries and the two directories. */
    method FillHead()
      requires fat1 == fat2 == Zeros(FAT_BYTES)
      modifies `fat1, `fat2
      ensures fat1 == fat2 == ZeroFilled(Encode(FAT_HEAD), FAT_BYTES)
    {
      assert fat1 == ZeroFilled(Encode([]), FAT_BYTES);
      hide Encode, ZeroFilled;
      ghost var none: seq<nat> := [];
      NextFatEntry(none, 0, 0xFFF8);
      NextFatEntry(none + [0xFFF8], 1, 0xFFFF);
      NextFatEntry(none + [0xFFF8] + [0xFFFF], EFI_CLUSTER, EOC);
      NextFatEntry(none + [0xFFF8] + [0xFFFF] + [EOC], BOOT_CLUSTER, EOC);
      assert none + [0xFFF8] + [0xFFFF] + [EOC] + [EOC] == FAT_HEAD;
    }

    /** Fills both FATs for a file of `n` clusters. */
    method FillFats(n: nat)
      requires n > 0 && fat1 == fat2 == Zeros(FAT_BYTES)
      modifies `fat1, `fat2
      ensures fat1 == fat2 == ZeroFilled(Encode(FatEntries(n)), FAT_BYTES) && IsFat(fat1, n)
    {
      hide Encode, ZeroFilled, IsFat;
      FatContents(n);
      FillHead();
      assert FAT_HEAD + Links(0) == FAT_HEAD;
      for i := 0 to n
        invariant i < n ==> fat1 == fat2 == ZeroFilled(Encode(FAT_HEAD + Links(i)), FAT_BYTES)
        invariant i == n ==> fat1 == fat2 == ZeroFilled(Encode(FatEntries(n)), FAT_BYTES)
      {
        var cluster := FILE_CLUSTER + i;
        if i + 1 == n {
          NextFatEntry(FAT_HEAD + Links(i), cluster, EOC);
        } else {
          NextFatEntry(FAT_HEAD + Links(i), cluster, cluster + 1);
          assert FAT_HEAD + Links(i) + [cluster + 1] == FAT_HEAD + Links(i + 1);
        }
      }
    }

    /** `write_cluster`; its assertion on the sector index becomes the result. */
    method WriteCluster(cluster: nat, payload: seq<Byte>) returns (ok: bool)
      modifies `data
      ensures ok <==> 2 <= cluster < dataSectors + 2
      ensures ok ==> data == SliceAssign(old(data), (cluster - 2) * SECTOR, payload)
      ensures !ok ==> data == old(data)
    {
      var sectorIndex := cluster - 2;
      if !(0 <= sectorIndex < dataSectors) {
        return false;
      }
      data := SliceAssign(data, sectorIndex * SECTOR, payload);
      return true;
    }

    /** Writes the cluster right behind `written`, the data written so far. */
    method NextCluster(ghost written: seq<Byte>, cluster: nat, payload: seq<Byte>) returns (ok: bool)
      requires cluster >= 2 && |written| == (cluster - 2) * SECTOR && |payload| == SECTOR
      requires data == ZeroFilled(written, dataSectors * SECTOR)
      modifies `data
      ensures ok <==> cluster < dataSectors + 2
      ensures ok ==> data == ZeroFilled(written + payload, dataSectors * SECTOR)
    {
      AssignAtFill(written, dataSectors * SECTOR, payload);
      ok := WriteCluster(cluster, payload);
    }
  }

  // ---------- The boot sector ----------

  function Text(s: string): (r: seq<Byte>)
    ensures |r| == |s|
  {
    seq(|s|, i requires 0 <= i < |s| => LowByte(s[i] as int))
  }

  /** Bytes 0 to 10: the jump and the OEM name. */
  predicate HasHead(bs: seq<Byte>)
    requires |bs| == SECTOR
  {
    bs[..3] == [0xEB, 0x3C, 0x90] && bs[3..11] == Text("HELLOINI")
  }

  /** Bytes 11 to 35: the geometry, with the size of one FAT. */
  predicate HasGeometry(bs: seq<Byte>, fatSectors: nat)
    requires |bs| == SECTOR
  {
    && Get16(bs, 11) == SECTOR && bs[13] == 1 && Get16(bs, 14) == RESERVED_SECTORS && bs[16] == FAT_COUNT
    && Get16(bs, 17) == ROOT_ENTRIES && Get16(bs, 19) == TOTAL_SECTORS && bs[21] == 0xF8
    && Get16(bs, 22) == fatSectors && Get16(bs, 24) == 63 && Get16(bs, 26) == 255
    && Get32(bs, 28) == 0 && Get32(bs, 32) == 0
  }

  /** Bytes 36 to 511: the extended block and the signature. */
  predicate HasTail(bs: seq<Byte>)
    requires |bs| == SECTOR
  {
    && bs[36..39] == [0, 0, 0x29] && Get32(bs, 39) == 0x1234_5678
    && bs[43..54] == Text("HELLOINITOS") && bs[54..62] == Text("FAT16   ")
    && bs[62..510] == Zeros(448) && bs[510..] == [0x55, 0xAA]
  }

  /** `bs[at:at + len(bytes)] = bytes`, within the array. */
  method Put(bs: array<Byte>, at: nat, bytes: seq<Byte>)
    requires at + |bytes| <= bs.Length
    modifies bs
    ensures forall i | 0 <= i < bs.Length :: bs[i] == if at <= i < at + |bytes| then bytes[i - at] else old(bs[i])
  {
    for k := 0 to |bytes|
      invariant forall i | 0 <= i < bs.Length :: bs[i] == if at <= i < at + k then bytes[i - at] else old(bs[i])
    {
      bs[at + k] := bytes[k];
    }
  }

  /** A two-byte field, within the array. */
  method Put16(bs: array<Byte>, at: nat, x: nat)
    requires at + 2 <= bs.Length && x < 0x1_0000
    modifies bs
    ensures Get16(bs[..], at) == x
    ensures forall i | 0 <= i < bs.Length && !(at <= i < at + 2) :: bs[i] == old(bs[i])
  {
    U16RoundTrip(x);
    Put(bs, at, U16(x));
  }

  method Put32(bs: array<Byte>, at: nat, x: nat)
    requires at + 4 <= bs.Length && x < 0x1_0000_0000
    modifies bs
    ensures Get32(bs[..], at) == x
    ensures forall i | 0 <= i < bs.Length && !(at <= i < at + 4) :: bs[i] == old(bs[i])
  {
    U32RoundTrip(x);
    Put(bs, at, U32(x));
  }

  method PutHead(bs: array<Byte>)
    requires bs.Length == SECTOR
    modifies bs
    ensures HasHead(bs[..])
  {
    hide Text;
    Put(bs, 0, [0xEB, 0x3C, 0x90]);
    Put(bs, 3, Text("HELLOINI"));
  }

  method PutGeometry(bs: array<Byte>, fatSectors: nat)
    requires bs.Length == SECTOR && fatSectors < 0x1_0000
    modifies bs
    ensures HasGeometry(bs[..], fatSectors)
    ensures bs[..11] == old(bs[..11])
  {
    Put16(bs, 11, SECTOR);
    bs[13] := 1;
    Put16(bs, 14, RESERVED_SECTORS);
    bs[16] := FAT_COUNT;
    Put16(bs, 17, ROOT_ENTRIES);
    Put16(bs, 19, if TOTAL_SECTORS < 0x1_0000 then TOTAL_SECTORS else 0);
    bs[21] := 0xF8;
    Put16(bs, 22, fatSectors);
    Put16(bs, 24, 63);
    Put16(bs, 26, 255);
    Put32(bs, 28, 0);
    Put32(bs, 32, if TOTAL_SECTORS < 0x1_0000 then 0 else TOTAL_SECTORS);
  }

  method PutTail(bs: array<Byte>)
    requires bs.Length == SECTOR
    modifies bs
    ensures HasTail(bs[..])
    ensures bs[..36] == old(bs[..36])
  {
    hide Text;
    bs[36] := 0;
    bs[37] := 0;
    bs[38] := 0x29;
    Put32(bs, 39, 0x1234_5678);
    Put(bs, 43, Text("HELLOINITOS"));
    Put(bs, 54, Text("FAT16   "));
    Put(bs, 62, Zeros(448));
    Put(bs, 510, [0x55, 0xAA]);
  }

  predicate IsBootSector(bs: seq<Byte>, fatSectors: nat) {
    |bs| == SECTOR && HasHead(bs) && HasGeometry(bs, fatSectors) && HasTail(bs)
  }

  method BootSector(fatSectors: nat) returns (bs: array<Byte>)
    requires fatSectors < 0x1_0000
    ensures fresh(bs) && IsBootSector(bs[..], fatSectors)
  {
    bs := new Byte[SECTOR](i => 0);
    PutHead(bs);
    ghost var head := bs[..];
    PutGeometry(bs, fatSectors);
    ghost var geometry := bs[..];
    assert geometry[..11] == head[..11];
    PutTail(bs);
    ghost var all := bs[..];
    assert all[..36] == geometry[..36];
    SamePrefix(head, geometry, all, fatSectors);
  }

  lemma SamePrefix(head: seq<Byte>, geometry: seq<Byte>, all: seq<Byte>, fatSectors: nat)
    requires |head| == |geometry| == |all| == SECTOR
    requires HasHead(head) && head[..11] == geometry[..11]
    requires HasGeometry(geometry, fatSectors) && geometry[..36] == all[..36]
    ensures HasHead(all) && HasGeometry(all, fatSectors)
  {
    hide Text;
    assert forall i | 0 <= i < 36 :: all[..36][i] == all[i] && geometry[..36][i] == geometry[i];
    assert forall i | 0 <= i < 11 :: head[..11][i] == head[i] && geometry[..11][i] == geometry[i];
    assert all[..3] == head[..3] && all[3..11] == head[3..11];
  }

  // ---------- The data area ----------

  /** Clusters needed for `len` bytes: at least one. */
  function ClustersFor(len: nat): (n: nat)
    ensures n > 0 && len <= n * SECTOR && (n > 1 ==> (n - 1) * SECTOR < len)
  {
    var n := Sizing.CeilSectors(len);
    if n <= 0 then 1 else n
  }

  /** The file, filled with zeros to whole clusters. */
  function Padded(efi: seq<Byte>): (r: seq<Byte>)
    ensures |r| == ClustersFor(|efi|) * SECTOR && r[..|efi|] == efi
  {
    efi + Zeros(ClustersFor(|efi|) * SECTOR - |efi|)
  }

  /** A directory sector with one entry. */
  function DirSector(entry: seq<Byte>): (r: seq<Byte>)
    requires |entry| == 32
    ensures |r| == SECTOR
  {
    entry + Zeros(SECTOR - 32)
  }

  function EfiDir(): (r: seq<Byte>)
    ensures |r| == SECTOR
  {
    DirSector(DirEntry("BOOT", ATTR_DIRECTORY, BOOT_CLUSTER, 0))
  }

  function BootDir(size: nat): (r: seq<Byte>)
    ensures |r| == SECTOR
  {
    DirSector(DirEntry("BOOTX64.EFI", ATTR_ARCHIVE, FILE_CLUSTER, size))
  }

  function RootDir(): (r: seq<Byte>)
    ensures |r| == ROOT_SECTORS * SECTOR
  {
    DirEntry("EFI", ATTR_DIRECTORY, EFI_CLUSTER, 0) + Zeros(ROOT_SECTORS * SECTOR - 32)
  }

  /** The `i`-th piece of the file as the builder cuts it. */
  function Chunk(efi: seq<Byte>, i: nat): seq<Byte> {
    var start := i * SECTOR;
    var chunk := efi[Min(start, |efi|)..Min(start + SECTOR, |efi|)];
    if |chunk| < SECTOR then chunk + Zeros(SECTOR - |chunk|) else chunk
  }

  lemma ChunkIsPiece(efi: seq<Byte>, i: nat)
    requires i < ClustersFor(|efi|)
    ensures Chunk(efi, i) == Padded(efi)[i * SECTOR..(i + 1) * SECTOR]
    ensures Padded(efi)[..i * SECTOR] + Chunk(efi, i) == Padded(efi)[..(i + 1) * SECTOR]
  {
    hide ClustersFor;
    var p := Padded(efi);
    assert (i + 1) * SECTOR <= |p|;
    assert p[..(i + 1) * SECTOR] == p[..i * SECTOR] + p[i * SECTOR..(i + 1) * SECTOR];
  }

  /** A directory of `size` bytes whose first entry is set; the zeros behind it end the list. */
  method NewDirectory(size: nat, entry: seq<Byte>) returns (dir: seq<Byte>)
    requires |entry| == 32 <= size
    ensures dir == entry + Zeros(size - 32)
  {
    dir := SliceAssign(Zeros(size), 0, entry);
  }

  /** The directories, then the file, cluster by cluster; false is the failed assertion of `write_cluster`. */
  method WriteData(vol: Volume, efi: seq<Byte>) returns (ok: bool)
    requires vol.data == Zeros(vol.dataSectors * SECTOR) && vol.dataSectors >= 2
    modifies vol`data
    ensures ok <==> ClustersFor(|efi|) + 2 <= vol.dataSectors
    ensures ok ==> vol.data == ZeroFilled(EfiDir() + BootDir(|efi|) + Padded(efi), vol.dataSectors * SECTOR)
  {
    hide Chunk, Padded, ClustersFor, DirEntry, ZeroFilled;
    ghost var dirs := EfiDir() + BootDir(|efi|);
    assert dirs[..0] == [];
    NothingWritten(vol.data, vol.dataSectors * SECTOR);
    var efiDir := NewDirectory(SECTOR, DirEntry("BOOT", ATTR_DIRECTORY, BOOT_CLUSTER, 0));
    ok := vol.NextCluster([], EFI_CLUSTER, efiDir);
    assert [] + efiDir == efiDir;
    var bootDir := NewDirectory(SECTOR, DirEntry("BOOTX64.EFI", ATTR_ARCHIVE, FILE_CLUSTER, |efi|));
    ok := vol.NextCluster(efiDir, BOOT_CLUSTER, bootDir);
    var n := ClustersFor(|efi|);
    assert dirs + Padded(efi)[..0] == dirs;
    for i := 0 to n
      invariant i + 2 <= vol.dataSectors
      invariant vol.data == ZeroFilled(dirs + Padded(efi)[..i * SECTOR], vol.dataSectors * SECTOR)
    {
      ChunkIsPiece(efi, i);
      ok := vol.NextCluster(dirs + Padded(efi)[..i * SECTOR], FILE_CLUSTER + i, Chunk(efi, i));
      if !ok {
        return;
      }
      assert dirs + Padded(efi)[..i * SECTOR] + Chunk(efi, i) == dirs + Padded(efi)[..(i + 1) * SECTOR];
    }
    assert Padded(efi)[..n * SECTOR] == Padded(efi);
    ok := true;
  }

  lemma NothingWritten(data: seq<Byte>, n: nat)
    requires data == Zeros(n)
    ensures data == ZeroFilled([], n)
  {
  }

  // ---------- The image ----------

  const FAT1_START: nat := 512
  const FAT2_START: nat := 65536
  const ROOT_START: nat := 130560
  const DATA_START: nat := 132608
  const IMAGE_BYTES: nat := 16777216

  function FatTable(n: nat): (r: seq<Byte>)
    requires n > 0
  {
    ZeroFilled(Encode(FatEntries(n)), FAT_BYTES)
  }

  function DataArea(efi: seq<Byte>): seq<Byte> {
    ZeroFilled(EfiDir() + BootDir(|efi|) + Padded(efi), DATA_SECTORS * SECTOR)
  }

  /** Boot sector, two equal FATs, root directory and data, in exactly the sectors the volume has. */
  predicate IsImage(img: seq<Byte>, efi: seq<Byte>) {
    && |img| == IMAGE_BYTES == TOTAL_SECTORS * SECTOR
    && IsBootSector(img[..FAT1_START], FAT_SECTORS)
    && img[FAT1_START..FAT2_START] == FatTable(ClustersFor(|efi|))
    && img[FAT2_START..ROOT_START] == FatTable(ClustersFor(|efi|))
    && img[ROOT_START..DATA_START] == RootDir()
    && img[DATA_START..] == DataArea(efi)
  }

  /** The largest file: 32507 clusters. */
  const CAPACITY: nat := 16643584

  lemma CapacityClusters(len: nat)
    ensures len <= CAPACITY <==> ClustersFor(len) + 2 <= DATA_SECTORS
  {
  }

  /** The parts of an image have their lengths, so each one lands in its place. */
  lemma Assembled(bs: seq<Byte>, fat: seq<Byte>, root: seq<Byte>, data: seq<Byte>, img: seq<Byte>)
    requires |bs| == FAT1_START && |fat| == FAT_BYTES && |root| == DATA_START - ROOT_START
             && |data| == DATA_SECTORS * SECTOR
    requires img == bs + fat + fat + root + data
    ensures |img| == IMAGE_BYTES && img[..FAT1_START] == bs && img[FAT1_START..FAT2_START] == fat
    ensures img[FAT2_START..ROOT_START] == fat && img[ROOT_START..DATA_START] == root && img[DATA_START..] == data
  {
  }

  lemma SizesForImage()
    ensures var a := Sizing.Available(TOTAL_SECTORS, RESERVED_SECTORS, ROOT_SECTORS);
            a % 258 !in {1, 2} && forall fat :: Sizing.JustEnough(a, fat) ==> fat == FAT_SECTORS
  {
    var a := Sizing.Available(TOTAL_SECTORS, RESERVED_SECTORS, ROOT_SECTORS);
    Sizing.JustEnoughExists(a);
  }

  /** The last adjustment of the image to its expected size. */
  function TrimOrPad(img: seq<Byte>, expected: nat): (r: seq<Byte>)
    ensures |r| == expected && (|img| == expected ==> r == img)
  {
    if |img| == expected then img
    else if |img| > expected then img[..expected]
    else img + Zeros(expected - |img|)
  }

  /** The image builder: it accepts exactly the files that fit, and then makes an image of them. */
  method BuildImage(efi: seq<Byte>) returns (r: Result<seq<Byte>, BuildError>)
    ensures r.Ok? <==> |efi| <= CAPACITY
    ensures r.Ok? ==> IsImage(r.value, efi)
    ensures r.Ok? ==> IsFat(r.value[512..65536], ClustersFor(|efi|))
    ensures r.Ok? ==> IsFat(r.value[65536..130560], ClustersFor(|efi|))
    ensures r.Err? ==> r.error == if FILE_CLUSTER
            + ClustersFor(|efi|) >= 0xFFF0 then TooManyClusters else ClusterOutOfRange
  {
    hide ClustersFor, IsBootSector, Encode, FatEntries, ZeroFilled, DirEntry, EfiDir, BootDir, Padded, IsFat;
    CapacityClusters(|efi|);
    SizesForImage();
    var fatSectors, clusters, settled := Sizing.SizeFat(TOTAL_SECTORS, RESERVED_SECTORS, ROOT_SECTORS);
    assert fatSectors == FAT_SECTORS;
    if clusters < 10 {
      return Err(ClusterCountTooSmall);
    }
    var dataSectors := TOTAL_SECTORS - RESERVED_SECTORS - ROOT_SECTORS - FAT_COUNT * fatSectors;
    if dataSectors < 1 {
      return Err(InvalidGeometry);
    }
    var n := ClustersFor(|efi|);
    if FILE_CLUSTER + n >= 0xFFF0 {
      return Err(TooManyClusters);
    }
    var bs := BootSector(fatSectors);
    var vol := new Volume(fatSectors * SECTOR, dataSectors);
    vol.FillFats(n);
    var ok := WriteData(vol, efi);
    if !ok {
      return Err(ClusterOutOfRange);
    }
    var root := NewDirectory(ROOT_SECTORS * SECTOR, DirEntry("EFI", ATTR_DIRECTORY, EFI_CLUSTER, 0));
    var img := bs[..] + vol.fat1 + vol.fat2 + root + vol.data;
    FatTableLength(n);
    FatContents(n);
    Assembled(bs[..], vol.fat1, root, vol.data, img);
    var expected := TOTAL_SECTORS * SECTOR;
    return Ok(TrimOrPad(img, expected));
  }

  lemma FatTableLength(n: nat)
    requires 0 < n && n + 2 <= DATA_SECTORS
    ensures |FatTable(n)| == FAT_BYTES
  {
  }
}
