/**
 A FAT16 reader that knows nothing about how an image was made: it takes the geometry from the boot
 sector, walks directories from the root, and follows cluster chains through the first FAT.
 */
module Fat16Reader {
  import opened Bytes
  import opened Fat16Format
  import opened Wrappers

  /** The fields of the BIOS parameter block that locate everything. */
  datatype Bpb = Bpb(
    bytesPerSector: nat, sectorsPerCluster: nat, reserved: nat, fats: nat, rootEntries: nat, totalSectors: nat,
        fatSectors: nat)
  {
    function RootSectors(): nat {
      (rootEntries * 32 + 511) / 512
    }

    function RootStart(): nat {
      (reserved + fats * fatSectors) * 512
    }

    function DataStart(): nat {
      RootStart() + RootSectors() * 512
    }

    function DataSectors(): int {
      totalSectors - reserved - fats * fatSectors - RootSectors()
    }

    /** Clusters are numbered from 2. */
    function ClusterCount(): int
      requires sectorsPerCluster > 0
    {
      DataSectors() / sectorsPerCluster
    }

    /** Sectors of 512 bytes, and a number of clusters that makes the volume FAT16. */
    predicate IsFat16() {
      && bytesPerSector == 512 && sectorsPerCluster > 0 && reserved > 0 && fats > 0
      && 4085 <= ClusterCount() < 65525
    }
  }

  /** The boot sector, if it carries the signature and describes a FAT16 volume that the image holds in full. */
  function ParseBpb(img: seq<Byte>): Option<Bpb> {
    if |img| < 512 || img[510] != 0x55 || img[511] != 0xAA then None
    else
      var total := if Get16(img, 19) != 0 then Get16(img, 19) else Get32(img, 32);
      var bpb := Bpb(Get16(img, 11), img[13], Get16(img, 14), img[16], Get16(img, 17), total, Get16(img, 22));
      if bpb.IsFat16() && |img| == total * 512 then Some(bpb) else None
  }

  /** The entry of cluster `c` in the first FAT. */
  function FatEntry(img: seq<Byte>, bpb: Bpb, c: nat): Option<nat> {
    var at := bpb.reserved * 512 + 2 * c;
    if at + 2 <= |img| then Some(Get16(img, at)) else None
  }

  /**
   The clusters of a chain: it ends at an entry of 0xFFF8 or above, and is broken if it leaves the
   data area. A chain longer than `fuel` clusters has a cycle.
   */
  function Chain(img: seq<Byte>, bpb: Bpb, c: nat, fuel: nat): Option<seq<nat>>
    requires bpb.sectorsPerCluster > 0
    decreases fuel
  {
    if fuel == 0 || c < 2 || c >= bpb.ClusterCount() + 2 then None
    else
      match FatEntry(img, bpb, c)
      case None => None
      case Some(next) =>
        if next >= 0xFFF8 then Some([c])
        else
          match Chain(img, bpb, next, fuel - 1)
          case None => None
          case Some(rest) => Some([c] + rest)
  }

  function ClusterBytes(img: seq<Byte>, bpb: Bpb, c: nat): seq<Byte> {
    var size := bpb.sectorsPerCluster * 512;
    var at := bpb.DataStart() + (c - 2) * size;
    if 0 <= at <= at + size <= |img| then img[at..at + size] else []
  }

  function ChainBytes(img: seq<Byte>, bpb: Bpb, clusters: seq<nat>): seq<Byte> {
    if clusters == [] then [] else ClusterBytes(img, bpb, clusters[0]) + ChainBytes(img, bpb, clusters[1..])
  }

  /** The data of the chain that starts at cluster `c`. */
  function ReadChain(img: seq<Byte>, bpb: Bpb, c: nat): Option<seq<Byte>>
    requires bpb.IsFat16()
  {
    match Chain(img, bpb, c, bpb.ClusterCount())
    case None => None
    case Some(clusters) => Some(ChainBytes(img, bpb, clusters))
  }

  /** The first entry called `name`: a zero first byte ends the directory, 0xE5 marks a free entry. */
  function Find(dir: seq<Byte>, name: string): Option<Entry> {
    if |dir| < 32 || dir[0] == 0 then None
    else
      var e := ParseEntry(dir[..32]);
      if dir[0] != 0xE5 && !e.IsHidden() && e.name == name then Some(e) else Find(dir[32..], name)
  }

  /** Walks `path` from the directory with contents `dir`, and reads the file at its end. */
  function ReadFrom(img: seq<Byte>, bpb: Bpb, dir: seq<Byte>, path: seq<string>): Option<seq<Byte>>
    requires bpb.IsFat16()
    decreases |path|
  {
    if path == [] then None
    else
      match Find(dir, path[0])
      case None => None
      case Some(e) =>
        match ReadChain(img, bpb, e.cluster)
        case None => None
        case Some(bytes) =>
          if |path| == 1 then
            if e.IsDirectory() || |bytes| < e.size then None else Some(bytes[..e.size])
          else if e.IsDirectory() then ReadFrom(img, bpb, bytes, path[1..])
          else None
  }

  /** Reads the file at `path` out of an image. */
  function ReadFile(img: seq<Byte>, path: seq<string>): Option<seq<Byte>> {
    match ParseBpb(img)
    case None => None
    case Some(bpb) =>
      var start, size := bpb.RootStart(), bpb.rootEntries * 32;
      if start + size <= |img| then ReadFrom(img, bpb, img[start..start + size], path) else None
  }
}
