/** The reader gets back what the builder put in. */
module Fat16RoundTrip {
  import opened Bytes
  import opened Fat16Format
  import opened Fat16Reader
  import opened Fat16Builder
  import opened Wrappers

  const IMAGE_BPB: Bpb := Bpb(512, 1, 1, 2, 64, 32768, 127)

  const BOOT_PATH: seq<string> := ["EFI", "BOOT", "BOOTX64.EFI"]

  /** The boot sector of an image parses to the builder's geometry. */
  lemma BootSectorParses(img: seq<Byte>, efi: seq<Byte>)
    requires IsImage(img, efi)
    ensures ParseBpb(img) == Some(IMAGE_BPB)
  {
    hide HasHead, FatTable, DataArea, RootDir, ClustersFor;
    var bs := img[..FAT1_START];
    assert Get16(bs, 11) == Get16(img, 11) && Get16(bs, 14) == Get16(img, 14) && Get16(bs, 17) == Get16(img, 17);
    assert Get16(bs, 19) == Get16(img, 19) && Get16(bs, 22) == Get16(img, 22);
    assert bs[13] == img[13] && bs[16] == img[16];
    assert bs[510..] == [0x55, 0xAA];
    assert img[510] == bs[510..][0] && img[511] == bs[510..][1];
  }

  /** A directory that starts with a visible entry, followed by zeros, finds that entry by its name. */
  lemma FindsFirst(name: string, attr: Byte, cluster: nat, size: nat, k: nat)
    requires Ascii(name) && FitsShortName(Upper(name)) && name != [] && ' ' < Upper(name)[0] && Upper(name)[0] != '.'
    requires attr in {ATTR_DIRECTORY, ATTR_ARCHIVE} && cluster < 0x1_0000 && size < 0x1_0000_0000
    ensures Find(DirEntry(name, attr, cluster, size) + Zeros(k), Upper(name)) == Some(Entry(Upper(name), attr,
            cluster, size))
  {
    hide FitsShortName, LongForm, SplitDot, U16, U32;
    var e := DirEntry(name, attr, cluster, size);
    var dir := e + Zeros(k);
    assert dir[..32] == e;
    EntryRoundTrip(name, attr, cluster, size);
    FirstByte(name, attr, cluster, size);
  }

  /** What the reader finds is visible and has the name it looked for. */
  lemma {:induction false} FindsByName(dir: seq<Byte>, name: string)
    ensures Find(dir, name).Some? ==> Find(dir, name).value.name == name && !Find(dir, name).value.IsHidden()
  {
    hide ParseEntry;
    if |dir| >= 32 {
      FindsByName(dir[32..], name);
    }
  }

  /** Zeros end a directory. */
  lemma NothingInZeros(k: nat, name: string)
    ensures Find(Zeros(k), name) == None
  {
  }

  /** A directory with one entry has no file of any other name. */
  lemma FindsNoOther(name: string, attr: Byte, cluster: nat, size: nat, k: nat, other: string)
    requires Ascii(name) && FitsShortName(Upper(name)) && other != Upper(name)
    ensures Find(DirEntry(name, attr, cluster, size) + Zeros(k), other) == None
  {
    hide FitsShortName, LongForm, SplitDot, U16, U32, Find, DirEntry;
    var e := DirEntry(name, attr, cluster, size);
    EntryRoundTrip(name, attr, cluster, size);
    NothingInZeros(k, other);
    SkipsOther(e, Zeros(k), other);
  }

  lemma SkipsOther(e: seq<Byte>, rest: seq<Byte>, other: string)
    requires |e| == 32 && ParseEntry(e).name != other && Find(rest, other) == None
    ensures Find(e + rest, other) == None
  {
    hide ParseEntry;
    assert (e + rest)[..32] == e && (e + rest)[32..] == rest;
  }

  /** The first byte of an entry is the first character of its name. */
  lemma FirstByte(name: string, attr: Byte, cluster: nat, size: nat)
    requires Ascii(name) && name != [] && ' ' < Upper(name)[0] && Upper(name)[0] != '.'
    ensures DirEntry(name, attr, cluster, size)[0] == Upper(name)[0] as int
    ensures 0 < DirEntry(name, attr, cluster, size)[0] < 128
  {
    hide U16, U32;
    ShortNameIsAscii(name);
    var (base, ext) := SplitDot(Upper(name));
    SplitJoins(Upper(name));
    assert base != [] && base[0] == Upper(name)[0];
    assert ShortName(name)[0] == Pad(base, 8)[0] == base[0];
  }

  // ---------- Chains ----------

  lemma TableEntry(n: nat, c: nat)
    requires 0 < n && n + 2 <= DATA_SECTORS && 2 * c + 2 <= FAT_BYTES
    ensures |FatTable(n)| == FAT_BYTES
    ensures Get16(FatTable(n), 2 * c) == if c < FILE_CLUSTER + n then FatEntries(n)[c] else 0
  {
    hide Encode, FatEntries;
    FatTableLength(n);
    var entries := FatEntries(n);
    if c < FILE_CLUSTER + n {
      EncodeAt(entries, c);
      EntryFits(n, c);
    }
  }

  lemma EntryFits(n: nat, c: nat)
    requires 0 < n && n + 2 <= DATA_SECTORS && c < FILE_CLUSTER + n
    ensures FatEntries(n)[c] < 0x1_0000
    ensures FILE_CLUSTER <= c < FILE_CLUSTER + n - 1 ==> FatEntries(n)[c] == c + 1
    ensures c == FILE_CLUSTER + n - 1 || c == EFI_CLUSTER || c == BOOT_CLUSTER ==> FatEntries(n)[c] == 0xFFFF
    ensures c == 0 ==> FatEntries(n)[c] == 0xFFF8
    ensures c == 1 ==> FatEntries(n)[c] == 0xFFFF
  {
  }

  /** The entry of cluster `c` of an image: the next file cluster, an end mark, or 0 for a free cluster. */
  lemma ImageEntry(img: seq<Byte>, efi: seq<Byte>, c: nat)
    requires IsImage(img, efi) && |efi| <= CAPACITY && 2 <= c < DATA_SECTORS + 2
    ensures var n := ClustersFor(|efi|);
            FatEntry(img, IMAGE_BPB, c) == Some(
              if FILE_CLUSTER <= c < FILE_CLUSTER + n - 1 then c + 1
              else if c < FILE_CLUSTER + n then 0xFFFF
              else 0)
  {
    hide FatTable, IsBootSector, RootDir, DataArea, ClustersFor, FatEntries;
    CapacityClusters(|efi|);
    var n := ClustersFor(|efi|);
    TableEntry(n, c);
    if c < FILE_CLUSTER + n {
      EntryFits(n, c);
    }
    var fat := img[FAT1_START..FAT2_START];
    assert fat[2 * c] == img[FAT1_START + 2 * c] && fat[2 * c + 1] == img[FAT1_START + 2 * c + 1];
  }

  /**
   The reserved entries of both FATs: entry 0 is the media byte of the parameter block under eight set bits,
   entry 1 has all bits set, as on a volume that was taken out of use in order.
   */
  lemma ReservedEntries(img: seq<Byte>, efi: seq<Byte>)
    requires IsImage(img, efi) && |efi| <= CAPACITY
    ensures img[21] == 0xF8 && img[512..516] == [0xF8, 0xFF, 0xFF, 0xFF] == img[65536..65540]
  {
    hide FatTable, HasHead, HasTail, RootDir, DataArea, ClustersFor, FatEntries;
    CapacityClusters(|efi|);
    var n := ClustersFor(|efi|);
    TableEntry(n, 0);
    TableEntry(n, 1);
    EntryFits(n, 0);
    EntryFits(n, 1);
    TwoEntries(img[FAT1_START..FAT2_START], img[512..516]);
    TwoEntries(img[FAT2_START..ROOT_START], img[65536..65540]);
    assert img[..FAT1_START][21] == img[21];
  }

  lemma TwoEntries(fat: seq<Byte>, head: seq<Byte>)
    requires |fat| >= 4 && head == fat[..4] && Get16(fat, 0) == 0xFFF8 && Get16(fat, 2) == 0xFFFF
    ensures head == [0xF8, 0xFF, 0xFF, 0xFF]
  {
    BytesOf16(fat, 0, 0xFFF8);
    BytesOf16(fat, 2, 0xFFFF);
  }

  /** `k` clusters in a row. */
  function Run(first: nat, k: nat): (r: seq<nat>)
    ensures |r| == k && forall j | 0 <= j < k :: r[j] == first + j
  {
    seq(k, j => first + j)
  }

  /** Following the file's chain from its `i`-th cluster visits the remaining clusters in order and stops. */
  lemma {:induction false} FileChain(img: seq<Byte>, efi: seq<Byte>, i: nat, fuel: nat)
    requires IsImage(img, efi) && |efi| <= CAPACITY
    requires i < ClustersFor(|efi|) <= i + fuel
    ensures Chain(img, IMAGE_BPB, FILE_CLUSTER + i, fuel) == Some(Run(FILE_CLUSTER + i, ClustersFor(|efi|) - i))
    decreases fuel
  {
    hide IsImage, FatEntry, ClustersFor;
    CapacityClusters(|efi|);
    var n := ClustersFor(|efi|);
    ImageEntry(img, efi, FILE_CLUSTER + i);
    if i + 1 < n {
      FileChain(img, efi, i + 1, fuel - 1);
      assert Run(FILE_CLUSTER + i, n - i) == [FILE_CLUSTER + i] + Run(FILE_CLUSTER + i + 1, n - i - 1);
    } else {
      assert Run(FILE_CLUSTER + i, 1) == [FILE_CLUSTER + i];
    }
  }

  lemma DirectoryChain(img: seq<Byte>, efi: seq<Byte>, c: nat, fuel: nat)
    requires IsImage(img, efi) && |efi| <= CAPACITY && c in {EFI_CLUSTER, BOOT_CLUSTER} && fuel > 0
    ensures Chain(img, IMAGE_BPB, c, fuel) == Some([c])
  {
    hide IsImage, FatEntry, ClustersFor;
    ImageEntry(img, efi, c);
  }

  /**
   The three chains of an image: each ends with an end mark, none visits a cluster twice, they share
   no cluster, the file has exactly the clusters it needs, both FATs agree, and all other entries are free.
   */
  lemma ChainsSound(img: seq<Byte>, efi: seq<Byte>)
    requires IsImage(img, efi) && |efi| <= CAPACITY
    ensures var n, fuel := ClustersFor(|efi|), DATA_SECTORS;
            && Chain(img, IMAGE_BPB, EFI_CLUSTER, fuel) == Some([EFI_CLUSTER])
            && Chain(img, IMAGE_BPB, BOOT_CLUSTER, fuel) == Some([BOOT_CLUSTER])
            && Chain(img, IMAGE_BPB, FILE_CLUSTER, fuel) == Some(Run(FILE_CLUSTER, n))
            && EFI_CLUSTER !in Run(FILE_CLUSTER, n) && BOOT_CLUSTER !in Run(FILE_CLUSTER, n)
            && (forall j, k | 0 <= j < k < n :: Run(FILE_CLUSTER, n)[j] != Run(FILE_CLUSTER, n)[k])
            && (forall c | c in {EFI_CLUSTER, BOOT_CLUSTER, FILE_CLUSTER + n - 1} ::
                  FatEntry(img, IMAGE_BPB, c) == Some(0xFFFF))
            && (n - 1) * SECTOR <= |efi| <= n * SECTOR
            && img[FAT1_START..FAT2_START] == img[FAT2_START..ROOT_START]
            && forall c | FILE_CLUSTER + n <= c < DATA_SECTORS + 2 :: FatEntry(img, IMAGE_BPB, c) == Some(0)
  {
    hide IsBootSector, RootDir, DataArea, FatTable, Chain, FatEntry;
    CapacityClusters(|efi|);
    var n := ClustersFor(|efi|);
    DirectoryChain(img, efi, EFI_CLUSTER, DATA_SECTORS);
    DirectoryChain(img, efi, BOOT_CLUSTER, DATA_SECTORS);
    FileChain(img, efi, 0, DATA_SECTORS);
    ImageEntry(img, efi, EFI_CLUSTER);
    ImageEntry(img, efi, BOOT_CLUSTER);
    ImageEntry(img, efi, FILE_CLUSTER + n - 1);
    forall c | FILE_CLUSTER + n <= c < DATA_SECTORS + 2 ensures FatEntry(img, IMAGE_BPB, c) == Some(0) {
      ImageEntry(img, efi, c);
    }
  }

  // ---------- Contents ----------

  lemma DataLength(efi: seq<Byte>)
    requires |efi| <= CAPACITY
    ensures |DataArea(efi)| == DATA_SECTORS * SECTOR
    ensures DataArea(efi)[..SECTOR] == EfiDir() && DataArea(efi)[SECTOR..2 * SECTOR] == BootDir(|efi|)
    ensures DataArea(efi)[2 * SECTOR..2 * SECTOR + |Padded(efi)|] == Padded(efi)
  {
    hide EfiDir, BootDir, Padded, ClustersFor;
    CapacityClusters(|efi|);
  }

  /** The bytes of cluster `c` are its sector of the data area. */
  lemma ImageCluster(img: seq<Byte>, efi: seq<Byte>, c: nat)
    requires IsImage(img, efi) && |efi| <= CAPACITY && 2 <= c < DATA_SECTORS + 2
    ensures |DataArea(efi)| == DATA_SECTORS * SECTOR
    ensures ClusterBytes(img, IMAGE_BPB, c) == DataArea(efi)[(c - 2) * SECTOR..(c - 1) * SECTOR]
  {
    hide IsBootSector, RootDir, FatTable, DataArea;
    DataLength(efi);
    var at := DATA_START + (c - 2) * SECTOR;
    assert IMAGE_BPB.DataStart() == DATA_START;
    assert img[at..at + SECTOR] == img[DATA_START..][(c - 2) * SECTOR..(c - 1) * SECTOR];
  }

  lemma {:induction false} FileBytes(img: seq<Byte>, efi: seq<Byte>, i: nat)
    requires IsImage(img, efi) && |efi| <= CAPACITY && i <= ClustersFor(|efi|)
    ensures ChainBytes(img, IMAGE_BPB, Run(FILE_CLUSTER + i, ClustersFor(|efi|) - i)) == Padded(efi)[i * SECTOR..]
    decreases ClustersFor(|efi|) - i
  {
    hide IsImage, DataArea, Padded, ClustersFor, ClusterBytes, Run, ChainBytes;
    CapacityClusters(|efi|);
    var n := ClustersFor(|efi|);
    if i == n {
      NoBytes(img, FILE_CLUSTER + i);
    } else {
      FileBytes(img, efi, i + 1);
      RunBytes(img, FILE_CLUSTER + i, n - i);
      ImageCluster(img, efi, FILE_CLUSTER + i);
      DataLength(efi);
      FilePiece(DataArea(efi), Padded(efi), i);
      Glue(Padded(efi), i);
    }
  }

  lemma NoBytes(img: seq<Byte>, first: nat)
    ensures ChainBytes(img, IMAGE_BPB, Run(first, 0)) == []
  {
  }

  lemma RunBytes(img: seq<Byte>, first: nat, k: nat)
    requires k > 0
    ensures ChainBytes(img, IMAGE_BPB, Run(first, k)) ==
            ClusterBytes(img, IMAGE_BPB, first) + ChainBytes(img, IMAGE_BPB, Run(first + 1, k - 1))
  {
    hide ClusterBytes;
    assert Run(first, k)[1..] == Run(first + 1, k - 1);
  }

  lemma Glue(p: seq<Byte>, i: nat)
    requires (i + 1) * SECTOR <= |p|
    ensures p[i * SECTOR..(i + 1) * SECTOR] + p[(i + 1) * SECTOR..] == p[i * SECTOR..]
  {
  }

  lemma FilePiece(data: seq<Byte>, p: seq<Byte>, i: nat)
    requires 2 * SECTOR + |p| <= |data| && data[2 * SECTOR..2 * SECTOR + |p|] == p && (i + 1) * SECTOR <= |p|
    ensures data[(i + 2) * SECTOR..(i + 3) * SECTOR] == p[i * SECTOR..(i + 1) * SECTOR]
  {
    SliceOfSlice(data, 2 * SECTOR, 2 * SECTOR + |p|, i * SECTOR, (i + 1) * SECTOR);
  }

  lemma SliceOfSlice(s: seq<Byte>, a: nat, b: nat, x: nat, y: nat)
    requires a <= b <= |s| && x <= y <= b - a
    ensures s[a..b][x..y] == s[a + x..a + y]
  {
    var t := s[a..b];
    forall k | 0 <= k < y - x ensures t[x..y][k] == s[a + x..a + y][k] {
      assert t[x + k] == s[a + (x + k)];
    }
  }

  lemma OneCluster(img: seq<Byte>, efi: seq<Byte>, c: nat)
    requires IsImage(img, efi) && |efi| <= CAPACITY && c in {EFI_CLUSTER, BOOT_CLUSTER}
    ensures ReadChain(img, IMAGE_BPB, c) == Some(if c == EFI_CLUSTER then EfiDir() else BootDir(|efi|))
  {
    hide IsImage, DataArea, Chain, ClusterBytes, EfiDir, BootDir, Padded, ClustersFor;
    DirectoryChain(img, efi, c, DATA_SECTORS);
    ImageCluster(img, efi, c);
    DataLength(efi);
    var b, data := ClusterBytes(img, IMAGE_BPB, c), DataArea(efi);
    if c == EFI_CLUSTER {
      assert data[0 * SECTOR..1 * SECTOR] == data[..SECTOR];
      assert b == EfiDir();
    } else {
      assert b == BootDir(|efi|);
    }
    assert IMAGE_BPB.ClusterCount() == DATA_SECTORS;
    assert ChainBytes(img, IMAGE_BPB, []) == [] && b + [] == b;
    assert ChainBytes(img, IMAGE_BPB, [c]) == b;
  }

  lemma WholeFile(img: seq<Byte>, efi: seq<Byte>)
    requires IsImage(img, efi) && |efi| <= CAPACITY
    ensures ReadChain(img, IMAGE_BPB, FILE_CLUSTER) == Some(Padded(efi))
  {
    hide IsImage, DataArea, Chain, ChainBytes, Padded, ClustersFor;
    CapacityClusters(|efi|);
    FileChain(img, efi, 0, DATA_SECTORS);
    FileBytes(img, efi, 0);
    assert Padded(efi)[0 * SECTOR..] == Padded(efi);
  }

  lemma BootNameFits()
    ensures Ascii("BOOTX64.EFI") && Upper("BOOTX64.EFI") == "BOOTX64.EFI" && FitsShortName("BOOTX64.EFI")
  {
    hide SplitDot, TrimRight;
    assert Upper("BOOTX64.EFI") == "BOOTX64.EFI";
    SplitUnique("BOOTX64", "EFI");
    assert "BOOTX64" + "." + "EFI" == "BOOTX64.EFI";
  }

  /** The names of the two directories fit the short form. */
  lemma PlainNameFits(name: string)
    requires name in {"EFI", "BOOT"}
    ensures Ascii(name) && Upper(name) == name && FitsShortName(name)
  {
    hide SplitDot, TrimRight;
    assert Upper(name) == name;
    SplitUnique(name, []);
  }

  lemma ReadsFromBoot(img: seq<Byte>, efi: seq<Byte>)
    requires IsImage(img, efi) && |efi| <= CAPACITY
    ensures ReadFrom(img, IMAGE_BPB, BootDir(|efi|), ["BOOTX64.EFI"]) == Some(efi)
  {
    hide IsImage, ReadChain, Find, DirEntry, ClustersFor, ShortName, Padded, Upper, FitsShortName, Ascii;
    BootNameFits();
    FindsFirst("BOOTX64.EFI", ATTR_ARCHIVE, FILE_CLUSTER, |efi|, SECTOR - 32);
    WholeFile(img, efi);
  }

  lemma ReadsFromEfi(img: seq<Byte>, efi: seq<Byte>)
    requires IsImage(img, efi) && |efi| <= CAPACITY
    ensures ReadFrom(img, IMAGE_BPB, EfiDir(), ["BOOT", "BOOTX64.EFI"]) == Some(efi)
  {
    hide IsImage, ReadChain, Find, DirEntry, BootDir, ShortName, Upper, FitsShortName, Ascii;
    PlainNameFits("BOOT");
    FindsFirst("BOOT", ATTR_DIRECTORY, BOOT_CLUSTER, 0, SECTOR - 32);
    OneCluster(img, efi, BOOT_CLUSTER);
    ReadsFromBoot(img, efi);
    assert ["BOOT", "BOOTX64.EFI"][1..] == ["BOOTX64.EFI"];
  }

  lemma ReadsFromRoot(img: seq<Byte>, efi: seq<Byte>)
    requires IsImage(img, efi) && |efi| <= CAPACITY
    ensures ReadFrom(img, IMAGE_BPB, RootDir(), BOOT_PATH) == Some(efi)
  {
    hide IsImage, ReadChain, Find, DirEntry, EfiDir, ShortName, Upper, FitsShortName, Ascii;
    PlainNameFits("EFI");
    FindsFirst("EFI", ATTR_DIRECTORY, EFI_CLUSTER, 0, ROOT_SECTORS * SECTOR - 32);
    OneCluster(img, efi, EFI_CLUSTER);
    ReadsFromEfi(img, efi);
    assert BOOT_PATH[1..] == ["BOOT", "BOOTX64.EFI"];
  }

  // ---------- Every other path ----------

  lemma OnlyName(path: seq<string>, name: string)
    ensures |path| == 1 && path[0] == name ==> path == [name]
  {
  }

  lemma OtherFromBoot(img: seq<Byte>, efi: seq<Byte>, path: seq<string>)
    requires IsImage(img, efi) && |efi| <= CAPACITY && path != ["BOOTX64.EFI"]
    ensures ReadFrom(img, IMAGE_BPB, BootDir(|efi|), path) == None
  {
    hide IsImage, ReadChain, Find, DirEntry, ClustersFor, ShortName, Padded, Upper, FitsShortName, Ascii;
    BootNameFits();
    if path != [] && path[0] != "BOOTX64.EFI" {
      FindsNoOther("BOOTX64.EFI", ATTR_ARCHIVE, FILE_CLUSTER, |efi|, SECTOR - 32, path[0]);
    } else if path != [] {
      OnlyName(path, "BOOTX64.EFI");
      FindsFirst("BOOTX64.EFI", ATTR_ARCHIVE, FILE_CLUSTER, |efi|, SECTOR - 32);
    }
  }

  lemma OtherFromEfi(img: seq<Byte>, efi: seq<Byte>, path: seq<string>)
    requires IsImage(img, efi) && |efi| <= CAPACITY && path != ["BOOT", "BOOTX64.EFI"]
    ensures ReadFrom(img, IMAGE_BPB, EfiDir(), path) == None
  {
    hide IsImage, ReadChain, Find, DirEntry, BootDir, ShortName, Upper, FitsShortName, Ascii;
    PlainNameFits("BOOT");
    if path != [] && path[0] != "BOOT" {
      FindsNoOther("BOOT", ATTR_DIRECTORY, BOOT_CLUSTER, 0, SECTOR - 32, path[0]);
    } else if path != [] {
      FindsFirst("BOOT", ATTR_DIRECTORY, BOOT_CLUSTER, 0, SECTOR - 32);
      OneCluster(img, efi, BOOT_CLUSTER);
      assert path == ["BOOT"] + path[1..];
      OtherFromBoot(img, efi, path[1..]);
    }
  }

  lemma OtherFromRoot(img: seq<Byte>, efi: seq<Byte>, path: seq<string>)
    requires IsImage(img, efi) && |efi| <= CAPACITY && path != BOOT_PATH
    ensures ReadFrom(img, IMAGE_BPB, RootDir(), path) == None
  {
    hide IsImage, ReadChain, Find, DirEntry, EfiDir, ShortName, Upper, FitsShortName, Ascii;
    PlainNameFits("EFI");
    if path != [] && path[0] != "EFI" {
      FindsNoOther("EFI", ATTR_DIRECTORY, EFI_CLUSTER, 0, ROOT_SECTORS * SECTOR - 32, path[0]);
    } else if path != [] {
      FindsFirst("EFI", ATTR_DIRECTORY, EFI_CLUSTER, 0, ROOT_SECTORS * SECTOR - 32);
      OneCluster(img, efi, EFI_CLUSTER);
      assert path == ["EFI"] + path[1..];
      OtherFromEfi(img, efi, path[1..]);
    }
  }

  /**
   The file reads back: for every file that the builder accepts, byte for byte; and the volume holds
   no other file, whatever path is asked for.
   */
  lemma ReadBack(img: seq<Byte>, efi: seq<Byte>, path: seq<string>)
    requires IsImage(img, efi) && |efi| <= CAPACITY
    ensures ReadFile(img, path) == if path == ["EFI", "BOOT", "BOOTX64.EFI"] then Some(efi) else None
  {
    hide IsImage, ParseBpb, ReadFrom, RootDir;
    BootSectorParses(img, efi);
    ReadsRoot(img, efi);
    if path == BOOT_PATH {
      ReadsFromRoot(img, efi);
    } else {
      OtherFromRoot(img, efi, path);
    }
  }

  lemma ReadsRoot(img: seq<Byte>, efi: seq<Byte>)
    requires IsImage(img, efi)
    ensures IMAGE_BPB.RootStart() == ROOT_START && ROOT_START + 2048 <= |img|
    ensures img[ROOT_START..ROOT_START + 2048] == RootDir()
  {
    hide IsBootSector, DataArea, FatTable, ClustersFor;
  }
}
