/**
 FAT16 on disk, as the Microsoft FAT specification (fatgen103) lays it out: little-endian fields,
 short names, directory entries, the boot sector, and a reader that finds a file by its path.
 */
module Fat16Format {
  import opened Bytes

  // ---------- Short names ----------

  function UpperChar(c: char): char {
    if 'a' <= c <= 'z' then (c as int - 32) as char else c
  }

  function Upper(s: string): (r: string)
    ensures |r| == |s|
  {
    seq(|s|, i requires 0 <= i < |s| => UpperChar(s[i]))
  }

  predicate Ascii(s: string) {
    forall i | 0 <= i < |s| :: s[i] < 128 as char
  }

  function Spaces(n: nat): (s: string)
    ensures |s| == n && forall i | 0 <= i < n :: s[i] == ' '
  {
    seq(n, i => ' ')
  }

  /** `(s + " " * n)[:n]`. */
  function Pad(s: string, n: nat): (r: string)
    ensures |r| == n
  {
    (s + Spaces(n))[..n]
  }

  /** `s.split(".", 1)`; without a dot the second part is empty. */
  function SplitDot(s: string): (string, string) {
    if s == [] then ([], [])
    else if s[0] == '.' then ([], s[1..])
    else
      var (base, ext) := SplitDot(s[1..]);
      ([s[0]] + base, ext)
  }

  /** The eleven name bytes of a directory entry. */
  function ShortName(name: string): (r: string)
    ensures |r| == 11
  {
    var (base, ext) := SplitDot(Upper(name));
    Pad(base, 8) + Pad(ext, 3)
  }

  /** Upper case of ASCII letters; every other character stays. */
  lemma UpperLetters(c: char)
    ensures 97 <= c as int <= 122 ==> UpperChar(c) as int == c as int - 32
    ensures !(97 <= c as int <= 122) ==> UpperChar(c) == c
  {
  }

  /** Character `i` of a part in a field of fixed width: cut off behind the field, blanks to its end. */
  function FieldChar(part: string, i: nat): char {
    if i < |part| then part[i] else 32 as char
  }

  function TrimRight(s: string): string {
    if s != [] && s[|s| - 1] == ' ' then TrimRight(s[..|s| - 1]) else s
  }

  /** The reader's view of the eleven name bytes: both parts without padding, joined by a dot. */
  function LongForm(raw: string): string
    requires |raw| == 11
  {
    var base, ext := TrimRight(raw[..8]), TrimRight(raw[8..]);
    if ext == [] then base else base + "." + ext
  }

  predicate EndsWithSpace(s: string) {
    s != [] && s[|s| - 1] == ' '
  }

  /** Names that fit the 8.3 form: short parts without trailing spaces, and no dot at the end. */
  predicate FitsShortName(name: string) {
    var (base, ext) := SplitDot(name);
    && |base| <= 8 && |ext| <= 3 && !EndsWithSpace(base) && !EndsWithSpace(ext)
    && (ext == [] ==> base == name)
  }

  lemma {:induction false} TrimPadding(s: string, k: nat)
    ensures TrimRight(s + Spaces(k)) == TrimRight(s)
  {
    if k == 0 {
      assert s + Spaces(0) == s;
    } else {
      assert (s + Spaces(k))[..|s| + k - 1] == s + Spaces(k - 1);
      TrimPadding(s, k - 1);
    }
  }

  lemma {:induction false} TrimShortens(s: string)
    ensures |TrimRight(s)| <= |s| && (TrimRight(s) == s <==> !EndsWithSpace(s))
  {
    if EndsWithSpace(s) {
      TrimShortens(s[..|s| - 1]);
    }
  }

  /** Padding is undone by trimming exactly when the part fits and does not end in a space. */
  lemma PadRoundTrip(s: string, n: nat)
    ensures TrimRight(Pad(s, n)) == s <==> |s| <= n && !EndsWithSpace(s)
  {
    if |s| <= n {
      assert Pad(s, n) == s + Spaces(n - |s|);
      TrimPadding(s, n - |s|);
      TrimShortens(s);
    } else {
      TrimShortens(Pad(s, n));
    }
  }

  lemma {:induction false} SplitJoins(s: string)
    ensures var (base, ext) := SplitDot(s); s == base + "." + ext || (s == base && ext == [])
    ensures '.' !in SplitDot(s).0
  {
    if s != [] && s[0] != '.' {
      SplitJoins(s[1..]);
      var (base, ext) := SplitDot(s[1..]);
      assert s == [s[0]] + s[1..];
    }
  }

  lemma {:induction false} SplitUnique(base: string, ext: string)
    requires '.' !in base
    ensures SplitDot(base + "." + ext) == (base, ext) && SplitDot(base) == (base, [])
  {
    if base == [] {
      assert base + "." + ext == "." + ext;
    } else {
      SplitUnique(base[1..], ext);
      assert (base + "." + ext)[1..] == base[1..] + "." + ext;
      assert base == [base[0]] + base[1..];
    }
  }

  /** A name survives the short form, in upper case, exactly when its upper-case form fits 8.3. */
  lemma ShortNameRoundTrip(name: string)
    ensures LongForm(ShortName(name)) == Upper(name) <==> FitsShortName(Upper(name))
  {
    var upper := Upper(name);
    var (base, ext) := SplitDot(upper);
    var raw := ShortName(name);
    assert raw[..8] == Pad(base, 8) && raw[8..] == Pad(ext, 3);
    PadRoundTrip(base, 8);
    PadRoundTrip(ext, 3);
    SplitJoins(upper);
    var base', ext' := TrimRight(raw[..8]), TrimRight(raw[8..]);
    if LongForm(raw) == upper {
      TrimmedBaseHasNoDot(base, 8);
      SplitUnique(base', ext');
      SplitUnique(base', []);
    }
  }

  lemma {:induction false} TrimIsPrefix(s: string)
    ensures TrimRight(s) <= s
  {
    if EndsWithSpace(s) {
      TrimIsPrefix(s[..|s| - 1]);
    }
  }

  lemma TrimmedBaseHasNoDot(base: string, n: nat)
    requires '.' !in base
    ensures '.' !in TrimRight(Pad(base, n))
  {
    TrimIsPrefix(Pad(base, n));
  }

  /** The eleven characters of a name with a dot: what stands before its first dot, then what stands behind. */
  lemma ShortNameChars(base: string, ext: string, i: nat)
    requires '.' !in base && i < 11
    ensures ShortName(base + "." + ext)[i] ==
            if i < 8 then FieldChar(Upper(base), i) else FieldChar(Upper(ext), i - 8)
    ensures ShortName(base)[i] == if i < 8 then FieldChar(Upper(base), i) else 32 as char
  {
    assert Upper(base + "." + ext) == Upper(base) + "." + Upper(ext);
    SplitUnique(Upper(base), Upper(ext));
  }

  // ---------- Directory entries ----------

  const ATTR_VOLUME_ID: nat := 0x08
  const ATTR_DIRECTORY: nat := 0x10
  const ATTR_ARCHIVE: nat := 0x20

  function NameBytes(raw: string): (r: seq<Byte>)
    requires Ascii(raw)
    ensures |r| == |raw|
  {
    seq(|raw|, i requires 0 <= i < |raw| => raw[i] as int)
  }

  lemma ShortNameIsAscii(name: string)
    requires Ascii(name)
    ensures Ascii(ShortName(name))
  {
    SplitJoins(Upper(name));
    var (base, ext) := SplitDot(Upper(name));
    assert Ascii(Upper(name));
    forall i | 0 <= i < |base| ensures base[i] < 128 as char {
      assert base[i] == Upper(name)[i];
    }
    forall i | 0 <= i < |ext| ensures ext[i] < 128 as char {
      assert ext[i] == Upper(name)[|base| + 1 + i];
    }
  }

  /** `make_dir_entry`: name, attribute, fourteen zero bytes, first cluster, size. */
  function DirEntry(name: string, attr: Byte, cluster: nat, size: nat): (r: seq<Byte>)
    requires Ascii(name)
    ensures |r| == 32
  {
    ShortNameIsAscii(name);
    NameBytes(ShortName(name)) + [attr] + Zeros(14) + U16(cluster) + U32(size)
  }

  /**
   The bytes of a directory entry: the name, the attribute, fourteen zeros up to byte 25 - the high half of
   the first cluster is bytes 20 and 21 -, the low half of the first cluster, and the size, low bytes first.
   */
  lemma EntryBytes(name: string, attr: Byte, cluster: nat, size: nat)
    requires Ascii(name)
    ensures var e := DirEntry(name, attr, cluster, size);
            && (forall i | 0 <= i < 11 :: e[i] == ShortName(name)[i] as int)
            && e[11] == attr && (forall i | 12 <= i < 26 :: e[i] == 0)
            && e[26] == cluster % 256 && e[27] == cluster / 256 % 256
            && e[28] == size % 256 && e[29] == size / 256 % 256
            && e[30] == size / 0x1_0000 % 256 && e[31] == size / 0x100_0000 % 256
  {
    hide ShortName;
    ShortNameIsAscii(name);
    var raw, e := NameBytes(ShortName(name)), DirEntry(name, attr, cluster, size);
    assert e[..11] == raw && e[12..26] == Zeros(14) && e[26..28] == U16(cluster) && e[28..32] == U32(size);
    forall i | 0 <= i < 11 ensures e[i] == ShortName(name)[i] as int {
      assert e[i] == raw[i];
    }
    forall i | 12 <= i < 26 ensures e[i] == 0 {
      assert e[i] == e[12..26][i - 12];
    }
  }

  /** What a reader takes from a directory entry. */
  datatype Entry = Entry(name: string, attr: Byte, cluster: nat, size: nat) {
    predicate IsDirectory() {
      attr / ATTR_DIRECTORY % 2 == 1
    }

    /** Volume labels and the parts of long names. */
    predicate IsHidden() {
      attr / ATTR_VOLUME_ID % 2 == 1
    }
  }

  function RawName(bytes: seq<Byte>): (r: string)
    ensures |r| == |bytes|
  {
    seq(|bytes|, i requires 0 <= i < |bytes| => bytes[i] as char)
  }

  function ParseEntry(e: seq<Byte>): Entry
    requires |e| == 32
  {
    Entry(LongForm(RawName(e[..11])), e[11], Get16(e, 26), Get32(e, 28))
  }

  /** A directory entry reads back: its name when it fits 8.3, its attribute, 16 bits of cluster, 32 of size. */
  lemma EntryRoundTrip(name: string, attr: Byte, cluster: nat, size: nat)
    requires Ascii(name)
    ensures var e := ParseEntry(DirEntry(name, attr, cluster, size));
            && e.attr == attr && e.cluster == cluster % 0x1_0000 && e.size == size % 0x1_0000_0000
            && (e.name == Upper(name) <==> FitsShortName(Upper(name)))
  {
    var r := DirEntry(name, attr, cluster, size);
    ShortNameIsAscii(name);
    assert r[..11] == NameBytes(ShortName(name));
    assert RawName(r[..11]) == ShortName(name);
    ShortNameRoundTrip(name);
    assert r[26..28] == U16(cluster) && r[28..32] == U32(size);
    U16RoundTrip(cluster);
    U32RoundTrip(size);
  }
}
