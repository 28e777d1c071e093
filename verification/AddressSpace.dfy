/**
 Linear addresses over the page-table walk: canonical 64-bit addresses, page numbers, ranges of
 pages, and the tables that mapping a range may cost.
 */
module AddressSpace {
  import opened Words
  import opened Wrappers
  import opened PageTables

  const VPN_LIMIT: int := 0x10_0000_0000
  const HALF: int := 0x8_0000_0000
  const UPPER_HALF: Word := 0xffff_8000_0000_0000

  // ---------- Addresses and pages ----------

  /** `idxPml4`, `idxPdpt`, `idxPd` and `idxPt` of a linear address. */
  function PathOf(v: Word): Path {
    Path(v / 0x80_0000_0000 % 512, v / 0x4000_0000 % 512, v / 0x20_0000 % 512, v / 4096 % 512)
  }

  /** Bits 47..12 of a linear address. */
  function Vpn(v: Word): (n: nat)
    ensures n < VPN_LIMIT
  {
    v / 4096 % VPN_LIMIT
  }

  function PagePath(n: nat): Path {
    Path(n / 0x800_0000 % 512, n / 0x4_0000 % 512, n / 512 % 512, n % 512)
  }

  /** Bits 63..47 of a canonical address are all equal. */
  predicate Canonical(v: Word) {
    v < TOP || v >= UPPER_HALF
  }

  datatype Access = Access(phys: nat, writable: bool)

  /** The physical address that linear address `v` translates to under root page `root`; none is a fault. */
  function Translate(m: seq<Word>, root: nat, v: Word): Option<Access> {
    if !Canonical(v) then None
    else
      match Walk(m, root, PathOf(v))
      case None => None
      case Some(leaf) => Some(Access(leaf.frame * 4096 + v % 4096, leaf.writable))
  }

  // ---------- The walk, entry by entry ----------

  /** Bit 0 is P, bit 1 R/W, bit 7 PS, and bits 51..12 are the address field. */
  lemma EntryBits(e: Word)
    ensures (Present(e) <==> e % 2 == 1) && (Writable(e) <==> e / 2 % 2 == 1) && (LargePage(e) <==> e / 128 % 2 == 1)
    ensures Frame(e) == e % 0x10_0000_0000_0000 / 4096
  {
    hide Present, Writable, LargePage, Frame;
    LowestBits(e);
    PageSizeBit(e);
    AddressField(e);
  }

  lemma LowestBits(e: Word)
    ensures (Present(e) <==> e % 2 == 1) && (Writable(e) <==> e / 2 % 2 == 1)
  {
    var q, low := e / 4096, e % 4096;
    SameParity(e, 2048 * q, low);
    HalfIs(e, 2048 * q + low / 2, low % 2);
    SameParity(2048 * q + low / 2, 1024 * q, low / 2);
  }

  lemma SameParity(x: nat, k: nat, low: nat)
    requires x == 2 * k + low
    ensures x % 2 == low % 2
  {
  }

  lemma HalfIs(x: nat, k: nat, bit: nat)
    requires x == 2 * k + bit && bit < 2
    ensures x / 2 == k
  {
  }

  lemma QuotientIs(x: nat, k: nat, rest: nat)
    requires x == 128 * k + rest && rest < 128
    ensures x / 128 == k
  {
  }

  lemma PageSizeBit(e: Word)
    ensures LargePage(e) <==> e / 128 % 2 == 1
  {
    var q, low := e / 4096, e % 4096;
    assert e == 128 * (32 * q + low / 128) + low % 128;
    QuotientIs(e, 32 * q + low / 128, low % 128);
    SameParity(32 * q + low / 128, 16 * q, low / 128);
  }

  lemma AddressField(e: Word)
    ensures Frame(e) == e % 0x10_0000_0000_0000 / 4096
  {
    var q, low := e / 4096, e % 4096;
    DropTopBits(e, q / 0x100_0000_0000, 4096 * (q % 0x100_0000_0000) + low);
  }

  lemma DropTopBits(e: nat, top: nat, rest: nat)
    requires e == 0x10_0000_0000_0000 * top + rest && rest < 0x10_0000_0000_0000
    ensures e % 0x10_0000_0000_0000 == rest
  {
  }

  /** The steps of a walk to a 4 KiB page, as functions of the four entries that it reads. */
  lemma FourReads(m: seq<Word>, root: nat, v: Word, e4: Word, e3: Word, e2: Word, e1: Word)
    requires v < 0x8000_0000_0000 || v >= 0xffff_8000_0000_0000
    requires ReadsEntry(m, root, v / 0x80_0000_0000 % 512, e4)
    requires ReadsEntry(m, e4 % 0x10_0000_0000_0000 / 4096, v / 0x4000_0000 % 512, e3)
    requires ReadsEntry(m, e3 % 0x10_0000_0000_0000 / 4096, v / 0x20_0000 % 512, e2)
    requires ReadsEntry(m, e2 % 0x10_0000_0000_0000 / 4096, v / 4096 % 512, e1)
    requires e4 / 128 % 2 == 0 && e3 / 128 % 2 == 0 && e2 / 128 % 2 == 0
    ensures Translate(m, root, v) ==
            if e4 % 2 == 1 && e3 % 2 == 1 && e2 % 2 == 1 && e1 % 2 == 1 then
              Some(Access(e1 % 0x10_0000_0000_0000 / 4096 * 4096 + v % 4096,
                e4 / 2 % 2 == 1 && e3 / 2 % 2 == 1 && e2 / 2 % 2 == 1 && e1 / 2 % 2 == 1))
            else None
  {
    hide Present, Writable, LargePage, Frame, WalkFrom;
    EntryBits(e4);
    EntryBits(e3);
    EntryBits(e2);
    EntryBits(e1);
    var p := PathOf(v);
    LeafRead(m, Frame(e2), p, e1);
    TableRead(m, 2, Frame(e3), p, e2);
    TableRead(m, 3, Frame(e4), p, e3);
    TableRead(m, LEVELS, root, p, e4);
  }

  /** Entry `i` of the table in page `table` is `e`: eight bytes each, 512 to a page. */
  predicate ReadsEntry(m: seq<Word>, table: nat, i: nat, e: Word) {
    512 * table + i < |m| && m[512 * table + i] == e
  }

  lemma TableRead(m: seq<Word>, level: nat, table: nat, p: Path, e: Word)
    requires 2 <= level <= 4 && ReadsEntry(m, table, p.At(level), e) && !LargePage(e)
    ensures WalkFrom(m, level, table, p) ==
            if !Present(e) then None
            else
              match WalkFrom(m, level - 1, Frame(e), p)
              case None => None
              case Some(leaf) => Some(Leaf(leaf.frame, leaf.writable && Writable(e)))
  {
    hide Present, Writable, LargePage, Frame;
  }

  lemma LeafRead(m: seq<Word>, table: nat, p: Path, e: Word)
    requires ReadsEntry(m, table, p.pt, e)
    ensures WalkFrom(m, 1, table, p) == if Present(e) then Some(Leaf(Frame(e), Writable(e))) else None
  {
    hide Present, Writable, LargePage, Frame;
  }

  lemma PathOfVpn(v: Word)
    ensures PathOf(v) == PagePath(Vpn(v))
  {
    var q := v / 4096;
    assert v / 0x20_0000 == q / 512;
    assert v / 0x4000_0000 == q / 0x4_0000;
    assert v / 0x80_0000_0000 == q / 0x800_0000;
    PagePathWraps(q, q / VPN_LIMIT, q % VPN_LIMIT);
  }

  /** A multiple of 512 more does not change the low digit. */
  lemma DigitWraps(q: nat, k: nat, n: nat)
    requires q == 512 * k + n
    ensures q % 512 == n % 512
  {
    assert q / 512 == k + n / 512;
  }

  lemma PagePathWraps(q: nat, k: nat, n: nat)
    requires q == VPN_LIMIT * k + n && n < VPN_LIMIT
    ensures PagePath(q) == PagePath(n)
  {
    DigitWraps(q, 0x800_0000 * k, n);
    DigitWraps(q / 512, 0x4_0000 * k, n / 512);
    DigitWraps(q / 0x4_0000, 512 * k, n / 0x4_0000);
    DigitWraps(q / 0x800_0000, k, n / 0x800_0000);
  }

  /** Going down one level of the path is one base-512 digit of the page number. */
  lemma Digits(n: nat)
    ensures n == 512 * (n / 512) + n % 512
    ensures n / 512 == 512 * (n / 0x4_0000) + n / 512 % 512
    ensures n / 0x4_0000 == 512 * (n / 0x800_0000) + n / 0x4_0000 % 512
  {
  }

  lemma PagePathInjective(n: nat, k: nat)
    requires n < VPN_LIMIT && k < VPN_LIMIT && PagePath(n) == PagePath(k)
    ensures n == k
  {
    hide PagePath;
    PathDigits(n);
    PathDigits(k);
  }

  /** The indices of a page are the base-512 digits of its number. */
  lemma PathDigits(n: nat)
    requires n < VPN_LIMIT
    ensures PagePath(n).pml4 == n / 0x800_0000
    ensures n / 0x4_0000 == 512 * (n / 0x800_0000) + PagePath(n).pdpt
    ensures n / 512 == 512 * (n / 0x4_0000) + PagePath(n).pd
    ensures n == 512 * (n / 512) + PagePath(n).pt
  {
    Digits(n);
  }

  /** Two pages share their tables exactly as far as they share their prefixes. */
  lemma SharedTables(n: nat, k: nat)
    requires n < VPN_LIMIT && k < VPN_LIMIT
    ensures n / 512 == k / 512 ==> PagePath(n).Table(1) == PagePath(k).Table(1)
    ensures n / 0x4_0000 == k / 0x4_0000 ==> PagePath(n).Table(2) == PagePath(k).Table(2)
    ensures n / 0x800_0000 == k / 0x800_0000 ==> PagePath(n).Table(3) == PagePath(k).Table(3)
  {
    Digits(n);
    Digits(k);
  }

  // ---------- Mapping ranges of pages ----------

  function WalkPage(m: seq<Word>, root: nat, n: nat): Option<Leaf> {
    Walk(m, root, PagePath(n))
  }

  /** From `m` to `m'`, the `count` pages from `first` on were mapped, writable, to the frames from `frame` on. */
  ghost predicate RangeMapped(m: seq<Word>, m': seq<Word>, root: nat, first: nat, frame: nat, count: nat) {
    forall n | 0 <= n < VPN_LIMIT ::
      WalkPage(m', root, n) ==
      if first <= n < first + count then Some(Leaf(frame + (n - first), true)) else WalkPage(m, root, n)
  }

  lemma RangeGrows(m: seq<Word>, m1: seq<Word>, m2: seq<Word>, root: nat, first: nat, frame: nat, i: nat)
    requires RangeMapped(m, m1, root, first, frame, i) && first + i < VPN_LIMIT
    requires WalksExcept(m1, m2, root, PagePath(first + i), Some(Leaf(frame + i, true)))
    ensures RangeMapped(m, m2, root, first, frame, i + 1)
  {
    forall n | 0 <= n < VPN_LIMIT
      ensures WalkPage(m2, root, n) ==
              if first <= n < first + (i + 1) then Some(Leaf(frame + (n - first), true)) else WalkPage(m, root, n)
    {
      assert WalkPage(m2, root, n) ==
             if PagePath(n) == PagePath(first + i) then Some(Leaf(frame + i, true)) else WalkPage(m1, root, n);
      if n != first + i && PagePath(n) == PagePath(first + i) {
        PagePathInjective(n, first + i);
      }
    }
  }

  lemma VpnOfOffset(v: Word, i: nat)
    requires v % 4096 == 0 && v + i * 4096 < WORD_LIMIT && Vpn(v) + i < VPN_LIMIT
    ensures Vpn(v + i * 4096) == Vpn(v) + i
  {
    var q := v / 4096;
    assert (v + i * 4096) / 4096 == q + i;
    var k := q / VPN_LIMIT;
    assert q + i == VPN_LIMIT * k + (Vpn(v) + i);
    assert (q + i) / VPN_LIMIT == k;
  }

  // ---------- What a range costs ----------

  /** The block of pages that one table of level `level` serves. */
  function Block(n: nat, level: nat): nat
    requires 1 <= level <= 3
  {
    match level
    case 3 => n / 0x800_0000
    case 2 => n / 0x4_0000
    case _ => n / 512
  }

  /**
   The tables below the root that the `count` pages from `first` on run through: one for each
   aligned block of 512, 512^2 and 512^3 pages that the range meets.
   */
  function TablesOf(first: nat, count: nat): int {
    if count == 0 then 0 else TablesTo(first, first + count - 1)
  }

  function TablesTo(first: nat, last: nat): int {
    (Block(last, 1) - Block(first, 1)) + (Block(last, 2) - Block(first, 2)) + (Block(last, 3) - Block(first, 3)) + 3
  }

  /** The worst case over all positions of a range of `count` pages. */
  function MaxTables(count: nat): nat {
    if count == 0 then 0
    else (count + 510) / 512 + (count + 0x3_FFFE) / 0x4_0000 + (count + 0x7FF_FFFE) / 0x800_0000 + 3
  }

  lemma TablesBound(first: nat, count: nat)
    ensures 0 <= TablesOf(first, count) <= MaxTables(count)
  {
    if count > 0 {
      assert 512 * (first / 512) + 511 >= first;
      assert (first + count - 1) / 512 <= first / 512 + (count + 510) / 512;
      assert (first + count - 1) / 0x4_0000 <= first / 0x4_0000 + (count + 0x3_FFFE) / 0x4_0000;
      assert (first + count - 1) / 0x800_0000 <= first / 0x800_0000 + (count + 0x7FF_FFFE) / 0x800_0000;
    }
  }

  /** The bound is sharp: a range that starts on the last page of a 512 GiB block meets it. */
  lemma TablesBoundSharp(count: nat)
    requires count > 0
    ensures TablesOf(0x7FF_FFFF, count) == MaxTables(count)
  {
    assert (0x7FF_FFFF + count - 1) / 512 == 0x3_FFFF + (count + 510) / 512;
    assert (0x7FF_FFFF + count - 1) / 0x4_0000 == 0x1FF + (count + 0x3_FFFE) / 0x4_0000;
    assert (0x7FF_FFFF + count - 1) / 0x800_0000 == (count + 0x7FF_FFFE) / 0x800_0000;
  }

  // ---------- The tables themselves ----------

  /** The tables below the root on the way of a path. */
  function TablesFor(p: Path): set<Node> {
    {p.Table(3), p.Table(2), p.Table(1)}
  }

  /** The tables below the root that the `count` pages from `first` on run through. */
  function RangeTables(first: nat, count: nat): set<Node> {
    if count == 0 then {} else RangeTables(first, count - 1) + TablesFor(PagePath(first + count - 1))
  }

  /** Two pages go through the same table exactly if they lie in the same block. */
  lemma SameTable(n: nat, k: nat, level: nat)
    requires n < VPN_LIMIT && k < VPN_LIMIT && 1 <= level <= 3
    ensures PagePath(n).Table(level) == PagePath(k).Table(level) <==> Block(n, level) == Block(k, level)
  {
    hide PagePath;
    SharedTables(n, k);
    if PagePath(n).Table(level) == PagePath(k).Table(level) {
      TableBlock(n, level);
      TableBlock(k, level);
    }
  }

  /** The block can be read off the table: its indices are the digits of the block. */
  lemma TableBlock(n: nat, level: nat)
    requires n < VPN_LIMIT && 1 <= level <= 3
    ensures Block(n, level) == NodeBlock(PagePath(n).Table(level))
  {
    hide PagePath;
    var p := PagePath(n);
    PathDigits(n);
    assert NodeBlock(Root) == 0;
    assert NodeBlock(p.Table(3)) == p.pml4;
    assert NodeBlock(p.Table(2)) == 512 * NodeBlock(p.Table(3)) + p.pdpt;
    assert NodeBlock(p.Table(1)) == 512 * NodeBlock(p.Table(2)) + p.pd;
  }

  function NodeBlock(n: Node): nat {
    match n
    case Root => 0
    case Child(up, i) => 512 * NodeBlock(up) + i
  }

  lemma BlocksInOrder(n: nat, k: nat, level: nat)
    requires n <= k && 1 <= level <= 3
    ensures Block(n, level) <= Block(k, level)
  {
  }

  lemma OwnLevel(p: Path, q: Path, level: nat)
    requires 1 <= level <= 3
    ensures p.Table(level) in TablesFor(q) <==> p.Table(level) == q.Table(level)
  {
    TableLevel(p, level);
    TableLevel(q, 1);
    TableLevel(q, 2);
    TableLevel(q, 3);
  }

  /** A page at or behind the end of a range meets a table of the range only if it lies in the last block. */
  lemma {:induction false} TableInRange(first: nat, i: nat, n: nat, level: nat)
    requires first + i <= n < VPN_LIMIT && 1 <= level <= 3
    ensures PagePath(n).Table(level) in RangeTables(first, i) <==>
              i > 0 && Block(first + i - 1, level) == Block(n, level)
  {
    hide PagePath, Block, TablesFor;
    if i > 0 {
      var last := first + i - 1;
      TableInRange(first, i - 1, n, level);
      OwnLevel(PagePath(n), PagePath(last), level);
      SameTable(n, last, level);
      if i > 1 {
        BlocksInOrder(last - 1, last, level);
        BlocksInOrder(last, n, level);
      }
    }
  }

  lemma OwnTables(p: Path)
    ensures TablesFor(p) == {p.Table(3), p.Table(2), p.Table(1)}
    ensures p.Table(3) != p.Table(2) && p.Table(3) != p.Table(1) && p.Table(2) != p.Table(1)
  {
    TableLevel(p, 1);
    TableLevel(p, 2);
    TableLevel(p, 3);
  }

  lemma AddThree(s: set<Node>, p: Path)
    ensures |s + TablesFor(p)| == |s| + (if p.Table(3) in s then 0 else 1) + (if p.Table(2) in s then 0 else 1)
                                  + (if p.Table(1) in s then 0 else 1)
  {
    hide TablesFor, Path.Table;
    OwnTables(p);
    var s3 := s + {p.Table(3)};
    var s2 := s3 + {p.Table(2)};
    AddOne(s, p.Table(3));
    AddOne(s3, p.Table(2));
    AddOne(s2, p.Table(1));
    assert s + TablesFor(p) == s2 + {p.Table(1)};
    assert p.Table(2) in s3 <==> p.Table(2) in s;
    assert p.Table(1) in s2 <==> p.Table(1) in s;
  }

  lemma AddOne(s: set<Node>, n: Node)
    ensures |s + {n}| == |s| + if n in s then 0 else 1
  {
    if n in s {
      assert s + {n} == s;
    }
  }

  /** One more page costs one more table for each block that it opens. */
  lemma CostStep(first: nat, i: nat)
    ensures TablesOf(first, i + 1) == TablesOf(first, i)
              + (if i > 0 && Block(first + i - 1, 3) == Block(first + i, 3) then 0 else 1)
              + (if i > 0 && Block(first + i - 1, 2) == Block(first + i, 2) then 0 else 1)
              + (if i > 0 && Block(first + i - 1, 1) == Block(first + i, 1) then 0 else 1)
  {
    hide Block;
    if i > 0 {
      CostNext(first, first + i - 1, first + i);
    }
  }

  lemma CostNext(first: nat, n: nat, last: nat)
    requires last == n + 1
    ensures TablesTo(first, last) == TablesTo(first, n)
              + (if Block(n, 3) == Block(last, 3) then 0 else 1)
              + (if Block(n, 2) == Block(last, 2) then 0 else 1)
              + (if Block(n, 1) == Block(last, 1) then 0 else 1)
  {
    hide Block;
    NextBlock(n, 1);
    NextBlock(n, 2);
    NextBlock(n, 3);
  }

  lemma NextBlock(n: nat, level: nat)
    requires 1 <= level <= 3
    ensures Block(n, level) <= Block(n + 1, level) <= Block(n, level) + 1
  {
  }

  /** `TablesOf` counts exactly the distinct tables of a range. */
  lemma {:induction false} RangeTablesCount(first: nat, count: nat)
    requires first + count <= VPN_LIMIT
    ensures |RangeTables(first, count)| == TablesOf(first, count)
  {
    hide PagePath, Block, TablesFor, TablesOf;
    if count == 0 {
      NoTables(first);
    } else {
      var i := count - 1;
      RangeTablesCount(first, i);
      TableInRange(first, i, first + i, 1);
      TableInRange(first, i, first + i, 2);
      TableInRange(first, i, first + i, 3);
      AddThree(RangeTables(first, i), PagePath(first + i));
      CostStep(first, i);
    }
  }

  lemma NoTables(first: nat)
    ensures TablesOf(first, 0) == 0
  {
  }

  lemma {:induction false} RangeTablesGrow(first: nat, i: nat, count: nat)
    requires i <= count
    ensures RangeTables(first, i) <= RangeTables(first, count)
  {
    if i < count {
      RangeTablesGrow(first, i, count - 1);
    }
  }

  /** The root entry that a table hangs under. */
  function Top(n: Node): nat {
    match n
    case Root => 0
    case Child(up, i) => if up == Root then i else Top(up)
  }

  /** A range's tables hang under the root entries of its pages, and the root is not among them. */
  lemma {:induction false} RangeTops(first: nat, count: nat)
    requires first + count <= VPN_LIMIT
    ensures Root !in RangeTables(first, count)
    ensures forall x | x in RangeTables(first, count) ::
              count > 0 && Block(first, 3) <= Top(x) <= Block(first + count - 1, 3)
  {
    hide Block, Top, TablesFor, PagePath;
    if count > 0 {
      RangeTops(first, count - 1);
      var n := first + count - 1;
      PageTop(n);
      BlocksInOrder(first, n, 3);
      if count > 1 {
        BlocksInOrder(n - 1, n, 3);
      }
    }
  }

  /** All tables of a set hang under root entries from `lo` to `hi`. */
  ghost predicate TopsIn(s: set<Node>, lo: nat, hi: nat) {
    forall x | x in s :: lo <= Top(x) <= hi
  }

  /** Tables under different root entries are different tables. */
  lemma JoinTops(s: set<Node>, t: set<Node>, a: nat, b: nat, c: nat, d: nat)
    requires TopsIn(s, a, b) && TopsIn(t, c, d) && a <= b < c <= d
    ensures |s + t| == |s| + |t| && TopsIn(s + t, a, d)
  {
    assert s !! t by {
      forall x | x in s ensures x !in t {
      }
    }
  }

  lemma PageTop(n: nat)
    requires n < VPN_LIMIT
    ensures forall x | x in TablesFor(PagePath(n)) :: x != Root && Top(x) == Block(n, 3)
  {
    var p := PagePath(n);
    assert p.pml4 == n / 0x800_0000;
    assert Top(p.Table(2)) == Top(p.Table(3)) && Top(p.Table(1)) == Top(p.Table(2));
  }

  // ---------- The regions of the boot address space ----------

  const LAPIC_MMIO: Word := 0xFEE0_0000
  const LAPIC_FRAME: nat := 0xF_EE00
  const PROBE_UNMAPPED: Word := 0xABC0_0000
  const STACK_BYTES: Word := 0x4000

  /** `more` tables beside `need` are still among `all`. */
  ghost predicate Within(need: set<Node>, more: set<Node>, all: set<Node>) {
    need + more <= all
  }

  lemma RangeBound(first: nat, count: nat)
    requires first + count <= VPN_LIMIT
    ensures |RangeTables(first, count)| <= MaxTables(count) && Root !in RangeTables(first, count)
  {
    hide RangeTables, MaxTables, TablesOf;
    RangeTablesCount(first, count);
    TablesBound(first, count);
    RangeTops(first, count);
  }

  lemma UnionSize<T>(s: set<T>, t: set<T>)
    ensures |s + t| <= |s| + |t|
  {
    assert s + t == s + (t - s);
    assert |t - s| <= |t| by {
      assert t == (t - s) + (t * s);
    }
  }

  /** The kernel image, its stack and the first page of the memory-map buffer, in bytes. */
  datatype Regions = Regions(kernelPhys: Word, kernelBytes: Word, stackPhys: Word, touchPhys: Word) {

    /** Page-aligned, with all ends at or below 2^47. */
    predicate Sound() {
      && kernelPhys % 4096 == kernelBytes % 4096 == stackPhys % 4096 == touchPhys % 4096 == 0
      && kernelPhys < TOP && kernelPhys + kernelBytes <= TOP
      && stackPhys + STACK_BYTES <= TOP
      && touchPhys + 4096 <= TOP
    }

    lemma SoundBounds()
      requires Sound()
      ensures kernelPhys % 4096 == 0 && kernelBytes % 4096 == 0 && stackPhys % 4096 == 0 && touchPhys % 4096 == 0
      ensures kernelPhys < TOP && kernelPhys + kernelBytes <= TOP
      ensures stackPhys + STACK_BYTES <= TOP && touchPhys + 4096 <= TOP
    {
    }

    /** The frames that the address space shows, each of them twice. */
    predicate Shows(frame: int) {
      || KernelFrame() <= frame < KernelFrame() + KernelCount()
      || StackFrame() <= frame < StackFrame() + 4
      || frame == TouchFrame()
      || frame == LAPIC_FRAME
    }

    /** Tables for one half: one range of kernel pages, one of four pages and two single pages. */
    function HalfCost(): nat {
      MaxTables(KernelCount()) + MaxTables(4) + MaxTables(1) + MaxTables(1)
    }

    function KernelFrame(): nat {
      kernelPhys / 4096
    }

    function KernelCount(): nat {
      kernelBytes / 4096
    }

    function StackFrame(): nat {
      stackPhys / 4096
    }

    function TouchFrame(): nat {
      touchPhys / 4096
    }

    lemma Frames()
      requires Sound()
      ensures kernelPhys == 4096 * KernelFrame() && kernelBytes == 4096 * KernelCount()
      ensures stackPhys == 4096 * StackFrame() && touchPhys == 4096 * TouchFrame() && LAPIC_MMIO == 4096 * LAPIC_FRAME
      ensures kernelPhys < TOP && kernelPhys + kernelBytes <= TOP
      ensures stackPhys + STACK_BYTES <= TOP && touchPhys + 4096 <= TOP
      ensures KernelFrame() + KernelCount() <= HALF && StackFrame() + 4 <= HALF && TouchFrame() + 1 <= HALF
    {
    }

    /** The tables below the root that kernel image and stack need in one half. */
    function ImageTables(base: nat): set<Node> {
      RangeTables(base + KernelFrame(), KernelCount()) + RangeTables(base + StackFrame(), 4)
    }

    /** The tables below the root that one half needs. */
    function HalfTables(base: nat): set<Node> {
      ImageTables(base) + RangeTables(base + TouchFrame(), 1) + RangeTables(base + LAPIC_FRAME, 1)
    }

    /** The tables of a half as they grow, range by range. */
    lemma HalfTablesParts(base: nat)
      ensures var n1, n2 := RangeTables(base + KernelFrame(), KernelCount()), RangeTables(base + StackFrame(), 4);
              var n3, n4 := RangeTables(base + TouchFrame(), 1), RangeTables(base + LAPIC_FRAME, 1);
              var s2 := ImageTables(base);
              && s2 == {} + n1 + n2 && HalfTables(base) == s2 + n3 + n4
              && Within({}, n1, HalfTables(base)) && Within({} + n1, n2, HalfTables(base))
              && Within(s2, n3, HalfTables(base)) && Within(s2 + n3, n4, HalfTables(base))
    {
      hide RangeTables;
    }

    /** The tables below the root that both halves need. */
    function AllTables(): set<Node> {
      HalfTables(0) + HalfTables(HALF)
    }

    /** However the regions lie, a half needs no more than its worst case. */
    lemma HalfTablesBound(base: nat)
      requires Sound() && base in {0, HALF}
      ensures |HalfTables(base)| <= HalfCost() && Root !in HalfTables(base)
    {
      hide RangeTables, MaxTables, TablesOf, Sound;
      Frames();
      RangeBound(base + KernelFrame(), KernelCount());
      RangeBound(base + StackFrame(), 4);
      RangeBound(base + TouchFrame(), 1);
      RangeBound(base + LAPIC_FRAME, 1);
      var a, b := RangeTables(base + KernelFrame(), KernelCount()), RangeTables(base + StackFrame(), 4);
      var c, d := RangeTables(base + TouchFrame(), 1), RangeTables(base + LAPIC_FRAME, 1);
      UnionSize(a, b);
      UnionSize(a + b, c);
      UnionSize(a + b + c, d);
    }

    lemma AllTablesBound()
      requires Sound()
      ensures |AllTables()| <= HalfCost() + HalfCost() && Root !in AllTables()
    {
      hide HalfTables, HalfCost, Sound;
      HalfTablesBound(0);
      HalfTablesBound(HALF);
      UnionSize(HalfTables(0), HalfTables(HALF));
    }

    /** From `m` to `m'`, all regions were mapped at page offset `base`. */
    ghost predicate HalfMapped(m: seq<Word>, m': seq<Word>, root: nat, base: nat) {
      forall n | 0 <= n < VPN_LIMIT ::
        WalkPage(m', root, n) == if n >= base && Shows(n - base) then Some(Leaf(n - base, true)) else WalkPage(m,
            root, n)
    }

    lemma FourRanges(m0: seq<Word>, m1: seq<Word>, m2: seq<Word>, m3: seq<Word>, m4: seq<Word>, root: nat, base: nat)
      requires RangeMapped(m0, m1, root, base + KernelFrame(), KernelFrame(), KernelCount())
      requires RangeMapped(m1, m2, root, base + StackFrame(), StackFrame(), 4)
      requires RangeMapped(m2, m3, root, base + TouchFrame(), TouchFrame(), 1)
      requires RangeMapped(m3, m4, root, base + LAPIC_FRAME, LAPIC_FRAME, 1)
      ensures HalfMapped(m0, m4, root, base)
    {
      forall n | 0 <= n < VPN_LIMIT
        ensures WalkPage(m4, root, n) ==
                if n >= base && Shows(n - base) then Some(Leaf(n - base, true)) else WalkPage(m0, root, n)
      {
        assert WalkPage(m1, root, n) == WalkPage(m1, root, n);
        assert WalkPage(m2, root, n) == WalkPage(m2, root, n);
        assert WalkPage(m3, root, n) == WalkPage(m3, root, n);
      }
    }
  }

  /** The page offset of a half: the identity half starts at 0, the alias half at `UPPER_HALF`. */
  function Base(offset: Word): nat {
    if offset == 0 then 0 else HALF
  }

  lemma HalfPage(offset: Word, p: Word)
    requires offset in {0, UPPER_HALF} && p % 4096 == 0 && p < TOP
    ensures p + offset < WORD_LIMIT && (p + offset) % 4096 == 0
    ensures Vpn(p + offset) == Base(offset) + p / 4096
  {
    assert UPPER_HALF == 4096 * (0xffff * VPN_LIMIT + HALF);
    assert (p + UPPER_HALF) / 4096 == 0xffff * VPN_LIMIT + (HALF + p / 4096);
  }

  // ---------- The intended address space, address by address ----------

  /** Where the boot address space is meant to send a linear address. */
  function Intended(k: Regions, v: Word): Option<Access> {
    if v < TOP && k.Shows(v / 4096) then Some(Access(v, true))
    else if v >= UPPER_HALF && k.Shows((v - UPPER_HALF) / 4096) then Some(Access(v - UPPER_HALF, true))
    else None
  }

  /** Every page number walks to its own frame in either half if the regions show it, and nowhere otherwise. */
  ghost predicate SpaceIs(m: seq<Word>, root: nat, k: Regions) {
    forall n {:trigger WalkPage(m, root, n)} | 0 <= n < VPN_LIMIT ::
      WalkPage(m, root, n) ==
      if n < HALF && k.Shows(n) then Some(Leaf(n, true))
      else if n >= HALF && k.Shows(n - HALF) then Some(Leaf(n - HALF, true))
      else None
  }

  /** Regions below 2^47 show no frame beyond it. */
  lemma ShowsLowFrames(k: Regions, n: int)
    requires k.Sound() && k.Shows(n)
    ensures 0 <= n < HALF
  {
  }

  lemma TwoHalves(k: Regions, m0: seq<Word>, m1: seq<Word>, m2: seq<Word>, root: nat)
    requires k.Sound() && MapsNothing(m0, root)
    requires k.HalfMapped(m0, m1, root, 0) && k.HalfMapped(m1, m2, root, HALF)
    ensures SpaceIs(m2, root, k)
  {
    forall n | 0 <= n < VPN_LIMIT
      ensures WalkPage(m2, root, n) ==
              if n < HALF && k.Shows(n) then Some(Leaf(n, true))
              else if n >= HALF && k.Shows(n - HALF) then Some(Leaf(n - HALF, true))
              else None
    {
      assert WalkPage(m1, root, n) == if k.Shows(n) then Some(Leaf(n, true)) else None;
      if k.Shows(n) {
        ShowsLowFrames(k, n);
      }
    }
  }

  lemma LowVpn(v: Word)
    requires v < TOP
    ensures Vpn(v) == v / 4096 < HALF
  {
  }

  lemma HighVpn(v: Word)
    requires v >= UPPER_HALF
    ensures Vpn(v) == HALF + (v - UPPER_HALF) / 4096 && v % 4096 == (v - UPPER_HALF) % 4096
  {
    var low := v - UPPER_HALF;
    var q, r := low / 4096, low % 4096;
    assert v == 4096 * (0xffff * VPN_LIMIT + HALF + q) + r;
    assert v / 4096 == 0xffff * VPN_LIMIT + (HALF + q) && v % 4096 == r;
    assert HALF + q < VPN_LIMIT;
  }

  /** The address space translates exactly the intended addresses, each to its own physical address. */
  lemma TranslatesAsIntended(m: seq<Word>, root: nat, k: Regions, v: Word)
    requires SpaceIs(m, root, k)
    ensures Translate(m, root, v) == Intended(k, v)
  {
    hide Walk;
    PathOfVpn(v);
    if v < TOP {
      LowVpn(v);
      assert WalkPage(m, root, Vpn(v)) == Walk(m, root, PathOf(v));
    } else if v >= UPPER_HALF {
      HighVpn(v);
      assert WalkPage(m, root, Vpn(v)) == Walk(m, root, PathOf(v));
    }
  }

  /** The probe address of stage 5 faults exactly when no region shows its page. */
  lemma ProbeFaults(m: seq<Word>, root: nat, k: Regions)
    requires SpaceIs(m, root, k)
    ensures Translate(m, root, PROBE_UNMAPPED) == None <==> !k.Shows(PROBE_UNMAPPED / 4096)
  {
    TranslatesAsIntended(m, root, k, PROBE_UNMAPPED);
  }
}
