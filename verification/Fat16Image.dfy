/** The boot image byte by byte: what a tool that reads raw sectors sees. */
module Fat16Image {
  import opened Bytes
  import opened Fat16Format
  import opened Fat16Builder
  import RoundTrip = Fat16RoundTrip

  /** Jump, OEM name and geometry. */
  lemma GeometryBytes(bs: seq<Byte>)
    requires IsBootSector(bs, 127)
    ensures bs[..11] == [0xEB, 0x3C, 0x90, 0x48, 0x45, 0x4C, 0x4C, 0x4F, 0x49, 0x4E, 0x49]
    ensures bs[11..24] == [0x00, 0x02, 0x01, 0x01, 0x00, 0x02, 0x40, 0x00, 0x00, 0x80, 0xF8, 0x7F, 0x00]
    ensures bs[24..36] == [0x3F, 0x00, 0xFF, 0x00, 0, 0, 0, 0, 0, 0, 0, 0]
  {
    hide HasTail;
    assert bs[..11] == bs[..3] + bs[3..11];
    BytesOf16(bs, 11, 512);
    BytesOf16(bs, 14, 1);
    BytesOf16(bs, 17, 64);
    BytesOf16(bs, 19, 32768);
    BytesOf16(bs, 22, 127);
    BytesOf16(bs, 24, 63);
    BytesOf16(bs, 26, 255);
    BytesOf32(bs, 28, 0);
    BytesOf32(bs, 32, 0);
  }

  /** The extended block: serial number, label, type of the file system; then no code, and the signature. */
  lemma ExtendedBytes(bs: seq<Byte>)
    requires IsBootSector(bs, 127)
    ensures bs[36..43] == [0x00, 0x00, 0x29, 0x78, 0x56, 0x34, 0x12]
    ensures bs[43..54] == [0x48, 0x45, 0x4C, 0x4C, 0x4F, 0x49, 0x4E, 0x49, 0x54, 0x4F, 0x53]
    ensures bs[54..62] == [0x46, 0x41, 0x54, 0x31, 0x36, 0x20, 0x20, 0x20]
    ensures (forall i | 62 <= i < 510 :: bs[i] == 0) && bs[510] == 0x55 && bs[511] == 0xAA
  {
    hide HasHead, HasGeometry;
    BytesOf32(bs, 39, 0x1234_5678);
    assert bs[36..43] == bs[36..39] + bs[39..43];
    assert forall i | 62 <= i < 510 :: bs[i] == bs[62..510][i - 62];
    assert bs[510] == bs[510..][0] && bs[511] == bs[510..][1];
  }

  // ---------- Directories ----------

  /** The name field as a text: base and extension, each filled with blanks. */
  lemma NameField(base: string, ext: string, raw: string)
    requires '.' !in base && |raw| == 11
    requires forall i | 0 <= i < 11 :: raw[i] == if i < 8 then FieldChar(base, i) else FieldChar(ext, i - 8)
    requires Upper(base) == base && Upper(ext) == ext
    ensures ShortName(base + "." + ext) == raw && (ext == [] ==> ShortName(base) == raw)
  {
    hide ShortName, Upper;
    forall i | 0 <= i < 11
      ensures ShortName(base + "." + ext)[i] == raw[i] && (ext == [] ==> ShortName(base)[i] == raw[i])
    {
      ShortNameChars(base, ext, i);
    }
  }

  lemma Names()
    ensures ShortName("EFI") == "EFI        " && ShortName("BOOT") == "BOOT       "
    ensures ShortName("BOOTX64.EFI") == "BOOTX64 EFI"
  {
    hide ShortName;
    assert Upper("EFI") == "EFI" && Upper("BOOT") == "BOOT" && Upper("BOOTX64") == "BOOTX64";
    NameField("EFI", [], "EFI        ");
    NameField("BOOT", [], "BOOT       ");
    NameField("BOOTX64", "EFI", "BOOTX64 EFI");
    assert "BOOTX64" + "." + "EFI" == "BOOTX64.EFI";
  }

  /** A directory with one entry: its bytes, then zeros. */
  lemma OnlyEntry(dir: seq<Byte>, name: string, attr: Byte, cluster: nat, size: nat, k: nat)
    requires Ascii(name) && dir == DirEntry(name, attr, cluster, size) + Zeros(k) && cluster < 256
    ensures forall i | 0 <= i < 11 :: dir[i] == ShortName(name)[i] as int
    ensures dir[11] == attr && (forall i | 12 <= i < 26 :: dir[i] == 0) && dir[26] == cluster && dir[27] == 0
    ensures dir[28..32] == U32(size) && forall i | 32 <= i < |dir| :: dir[i] == 0
  {
    hide ShortName, DirEntry;
    EntryBytes(name, attr, cluster, size);
  }

  // ---------- The image ----------

  /** The boot sector of an image. */
  lemma BootBytes(img: seq<Byte>, efi: seq<Byte>)
    requires IsImage(img, efi)
    ensures img[..11] == [0xEB, 0x3C, 0x90, 0x48, 0x45, 0x4C, 0x4C, 0x4F, 0x49, 0x4E, 0x49]
    ensures img[11..24] == [0x00, 0x02, 0x01, 0x01, 0x00, 0x02, 0x40, 0x00, 0x00, 0x80, 0xF8, 0x7F, 0x00]
    ensures img[24..36] == [0x3F, 0x00, 0xFF, 0x00, 0, 0, 0, 0, 0, 0, 0, 0]
    ensures img[36..43] == [0x00, 0x00, 0x29, 0x78, 0x56, 0x34, 0x12]
    ensures img[43..54] == [0x48, 0x45, 0x4C, 0x4C, 0x4F, 0x49, 0x4E, 0x49, 0x54, 0x4F, 0x53]
    ensures img[54..62] == [0x46, 0x41, 0x54, 0x31, 0x36, 0x20, 0x20, 0x20]
    ensures (forall i | 62 <= i < 510 :: img[i] == 0) && img[510] == 0x55 && img[511] == 0xAA
  {
    hide IsBootSector, FatTable, RootDir, DataArea, ClustersFor;
    var bs := img[..512];
    GeometryBytes(bs);
    ExtendedBytes(bs);
    assert bs[..11] == img[..11] && bs[11..24] == img[11..24] && bs[24..36] == img[24..36];
    assert bs[36..43] == img[36..43] && bs[43..54] == img[43..54] && bs[54..62] == img[54..62];
    assert forall i | 0 <= i < 512 :: img[i] == bs[i];
  }

  /** The root directory, at byte 130560: the directory EFI in cluster 2, and nothing else. */
  lemma RootBytes(img: seq<Byte>, efi: seq<Byte>)
    requires IsImage(img, efi)
    ensures img[130560..130572] == [0x45, 0x46, 0x49, 32, 32, 32, 32, 32, 32, 32, 32, 0x10]
    ensures img[130586..130592] == [2, 0, 0, 0, 0, 0]
    ensures forall i | 130572 <= i < 130586 || 130592 <= i < 132608 :: img[i] == 0
  {
    hide IsBootSector, FatTable, DataArea, ClustersFor, DirEntry, ShortName;
    Names();
    var dir := img[130560..132608];
    OnlyEntry(dir, "EFI", 0x10, 2, 0, 2016);
    InPlace(img, 130560, dir);
  }

  /** Bytes of a part of the image are found behind its start. */
  lemma InPlace(img: seq<Byte>, at: nat, dir: seq<Byte>)
    requires at + |dir| <= |img| && dir == img[at..at + |dir|] && |dir| >= 32
    ensures dir[..12] == img[at..at + 12] && dir[26..32] == img[at + 26..at + 32]
    ensures dir[28..32] == img[at + 28..at + 32]
    ensures forall i | at <= i < at + |dir| :: img[i] == dir[i - at]
  {
    forall i | at <= i < at + |dir| ensures img[i] == dir[i - at] {
      assert dir[i - at] == img[at + (i - at)];
    }
  }

  lemma FieldInPlace(img: seq<Byte>, at: nat, field: seq<Byte>)
    requires |field| == 4 && at + 4 <= |img| && img[at..at + 4] == field
    ensures Get32(img, at) == Get32(field, 0)
  {
    assert forall i | 0 <= i < 4 :: img[at + i] == field[i];
  }

  /** The directory EFI, in cluster 2 at byte 132608: the directory BOOT in cluster 3, and nothing else. */
  lemma EfiBytes(img: seq<Byte>, efi: seq<Byte>)
    requires IsImage(img, efi) && |efi| <= CAPACITY
    ensures img[132608..132620] == [0x42, 0x4F, 0x4F, 0x54, 32, 32, 32, 32, 32, 32, 32, 0x10]
    ensures img[132634..132640] == [3, 0, 0, 0, 0, 0]
    ensures forall i | 132620 <= i < 132634 || 132640 <= i < 133120 :: img[i] == 0
  {
    hide IsBootSector, FatTable, DataArea, RootDir, ClustersFor, DirEntry, ShortName;
    Names();
    RoundTrip.DataLength(efi);
    var dir := img[132608..133120];
    assert dir == img[132608..][..512];
    OnlyEntry(dir, "BOOT", 0x10, 3, 0, 480);
    InPlace(img, 132608, dir);
  }

  /** The directory BOOT, in cluster 3 at byte 133120: the file in cluster 4, with its size, and nothing else. */
  lemma BootDirBytes(img: seq<Byte>, efi: seq<Byte>)
    requires IsImage(img, efi) && |efi| <= CAPACITY
    ensures img[133120..133132] == [0x42, 0x4F, 0x4F, 0x54, 0x58, 0x36, 0x34, 32, 0x45, 0x46, 0x49, 0x20]
    ensures img[133146] == 4 && img[133147] == 0 && Get32(img, 133148) == |efi|
    ensures forall i | 133132 <= i < 133146 || 133152 <= i < 133632 :: img[i] == 0
  {
    hide IsBootSector, FatTable, DataArea, RootDir, ClustersFor, DirEntry, ShortName, U32;
    Names();
    RoundTrip.DataLength(efi);
    var dir := img[133120..133632];
    assert dir == img[132608..][512..1024];
    OnlyEntry(dir, "BOOTX64.EFI", 0x20, 4, |efi|, 480);
    InPlace(img, 133120, dir);
    U32Length(|efi|);
    U32RoundTrip(|efi|);
    FieldInPlace(img, 133148, U32(|efi|));
  }

  /** The file, from cluster 4 at byte 133632 on, then zeros to the end of the image. */
  lemma FileInPlace(img: seq<Byte>, efi: seq<Byte>)
    requires IsImage(img, efi) && |efi| <= CAPACITY
    ensures |img| == 16777216 && img[133632..133632 + |efi|] == efi
    ensures forall i | 133632 + |efi| <= i < |img| :: img[i] == 0
  {
    hide IsBootSector, FatTable, EfiDir, BootDir, RootDir, ClustersFor;
    CapacityClusters(|efi|);
    var dirs, data := EfiDir() + BootDir(|efi|), img[132608..];
    assert data[1024..1024 + |efi|] == efi;
    assert img[133632..133632 + |efi|] == data[1024..1024 + |efi|];
    forall i | 133632 + |efi| <= i < |img| ensures img[i] == 0 {
      assert img[i] == data[i - 132608];
    }
  }
}
