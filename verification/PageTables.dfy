/**
 The 4-level page-table walk of the Intel SDM (Vol. 3A, section 4.5) as a function of raw memory,
 and the shape that the boot page-table builder keeps in that memory.

 Memory is a flat sequence of 64-bit words; the word at byte address `a` has index `a / 8`, so page
 number `f` (bytes `4096 * f` up) is the words `512 * f` up to `512 * f + 511`.
 */
module PageTables {
  import opened Words
  import opened Wrappers

  /** Modelled memory: all physical addresses below 2^47. */
  const MEM_WORDS: int := 0x1000_0000_0000

  /** The level of the root table. */
  const LEVELS: nat := 4

  /** What a walk finds: the number of the 4 KiB frame, and whether every entry on the way allows writes. */
  datatype Leaf = Leaf(frame: nat, writable: bool)

  // ---------- Entries ----------

  /** The twelve bits below the address field. */
  function LowBits(e: Word): nat {
    e % 4096
  }

  /** The P bit (0). */
  predicate Present(e: Word) {
    LowBits(e) % 2 == 1
  }

  /** The R/W bit (1). */
  predicate Writable(e: Word) {
    LowBits(e) / 2 % 2 == 1
  }

  /** The PS bit (7): the entry maps a large page. */
  predicate LargePage(e: Word) {
    LowBits(e) / 128 % 2 == 1
  }

  /** The address field, bits 51..12. */
  function Frame(e: Word): nat {
    e / 4096 % 0x100_0000_0000
  }

  // ---------- Virtual pages as paths ----------

  type Index = i: nat | i < 512

  /** The four table indices of a linear address, bits 47..39, 38..30, 29..21 and 20..12. */
  datatype Path = Path(pml4: Index, pdpt: Index, pd: Index, pt: Index) {
    function At(level: nat): Index
      requires 1 <= level <= 4
    {
      match level
      case 4 => pml4
      case 3 => pdpt
      case 2 => pd
      case _ => pt
    }

    /** The table of level `level` this path goes through. */
    function Table(level: nat): Node
      requires 1 <= level <= 4
    {
      match level
      case 4 => Root
      case 3 => Child(Root, pml4)
      case 2 => Child(Child(Root, pml4), pdpt)
      case _ => Child(Child(Child(Root, pml4), pdpt), pd)
    }
  }

  /** A table is named by the indices that lead to it from the root. */
  datatype Node = Root | Child(up: Node, i: Index)

  function Level(n: Node): int {
    match n
    case Root => 4
    case Child(up, _) => Level(up) - 1
  }

  lemma TableLevel(p: Path, level: nat)
    requires 1 <= level <= 4
    ensures Level(p.Table(level)) == level
    decreases 4 - level
  {
    if level < 4 {
      TableLevel(p, level + 1);
    }
  }

  // ---------- The hardware walk ----------

  /** The 4 KiB piece of a 2 MiB (level 2) or 1 GiB (level 3) page. */
  function LargeLeaf(e: Word, level: nat, p: Path): Leaf
    requires 2 <= level <= 3
  {
    if level == 3 then Leaf(Frame(e) / 0x4_0000 * 0x4_0000 + p.pd * 512 + p.pt, Writable(e))
    else Leaf(Frame(e) / 512 * 512 + p.pt, Writable(e))
  }

  /**
   The walk from the table of level `level` (4 is the root) in page `table`. Reads past the end of
   `m` find nothing.
   */
  function WalkFrom(m: seq<Word>, level: nat, table: nat, p: Path): Option<Leaf>
    requires 1 <= level <= 4
    decreases level
  {
    var at := 512 * table + p.At(level);
    if at >= |m| || !Present(m[at]) then
      None
    else
      var e := m[at];
      if level == 1 then
        Some(Leaf(Frame(e), Writable(e)))
      else if LargePage(e) then
        if level == 4 then None  // the bit is reserved in a PML4 entry
        else Some(LargeLeaf(e, level, p))
      else
        match WalkFrom(m, level - 1, Frame(e), p)
        case None => None
        case Some(leaf) => Some(Leaf(leaf.frame, leaf.writable && Writable(e)))
  }

  function Walk(m: seq<Word>, root: nat, p: Path): Option<Leaf> {
    WalkFrom(m, LEVELS, root, p)
  }

  ghost predicate MapsNothing(m: seq<Word>, root: nat) {
    forall p :: Walk(m, root, p) == None
  }

  /** Every walk is the same in both memories. */
  ghost predicate SameWalks(m: seq<Word>, m': seq<Word>, root: nat) {
    forall p :: Walk(m', root, p) == Walk(m, root, p)
  }

  /** The walk of `p` finds `leaf`; every other walk is the same in both memories. */
  ghost predicate WalksExcept(m: seq<Word>, m': seq<Word>, root: nat, p: Path, leaf: Option<Leaf>) {
    forall q :: Walk(m', root, q) == if q == p then leaf else Walk(m, root, q)
  }

  // ---------- The tree the builder keeps ----------

  /** The number of a page below 2^47. */
  predicate TablePage(page: nat) {
    page < 0x8_0000_0000
  }

  predicate InPage(index: int, page: int) {
    512 * page <= index < 512 * page + 512
  }

  function Slot(m: seq<Word>, page: nat, i: Index): Word
    requires |m| == MEM_WORDS && TablePage(page)
  {
    m[512 * page + i]
  }

  /** The content of a non-leaf slot: zero, or present and writable and pointing to the child's page. */
  function LinkTo(tab: map<Node, nat>, child: Node): int {
    if child in tab then 4096 * tab[child] + 3 else 0
  }

  /** Every table has its own page. */
  ghost predicate OnOwnPages(tab: map<Node, nat>) {
    && (forall n | n in tab :: TablePage(tab[n]))
    && (forall n, k | n in tab && k in tab && tab[n] == tab[k] :: n == k)
  }

  /** `tab` says which page holds which table; every table hangs off its parent. */
  ghost predicate IsTree(tab: map<Node, nat>, root: nat) {
    && Root in tab && tab[Root] == root
    && OnOwnPages(tab)
    && forall n | n in tab && n.Child? :: Level(n) >= 1 && n.up in tab
  }

  /** Every non-leaf slot links exactly to the child that `tab` knows, or is zero. */
  ghost predicate Linked(m: seq<Word>, tab: map<Node, nat>)
    requires |m| == MEM_WORDS && OnOwnPages(tab)
  {
    forall n, i: Index {:trigger Slot(m, tab[n], i)} | n in tab && Level(n) >= 2 ::
      Slot(m, tab[n], i) == LinkTo(tab, Child(n, i))
  }

  ghost predicate WellFormed(m: seq<Word>, tab: map<Node, nat>, root: nat) {
    |m| == MEM_WORDS && IsTree(tab, root) && Linked(m, tab)
  }

  lemma WellFormedPages(m: seq<Word>, tab: map<Node, nat>, root: nat)
    requires WellFormed(m, tab, root)
    ensures |m| == MEM_WORDS && forall n | n in tab :: TablePage(tab[n])
  {
  }

  lemma SlotIsLink(m: seq<Word>, tab: map<Node, nat>, root: nat, n: Node, i: Index)
    requires WellFormed(m, tab, root) && n in tab && Level(n) >= 2
    ensures m[512 * tab[n] + i] == LinkTo(tab, Child(n, i))
  {
    assert Slot(m, tab[n], i) == LinkTo(tab, Child(n, i));
  }

  // ---------- The walk on a well-formed tree ----------

  function LeafEntry(e: Word): Option<Leaf> {
    if Present(e) then Some(Leaf(Frame(e), Writable(e))) else None
  }

  /** What the tree says about a path: the leaf slot of its level-1 table, if there is one. */
  function Lookup(m: seq<Word>, tab: map<Node, nat>, p: Path): Option<Leaf>
    requires |m| == MEM_WORDS && forall n | n in tab :: TablePage(tab[n])
  {
    if p.Table(1) in tab then LeafEntry(Slot(m, tab[p.Table(1)], p.pt)) else None
  }

  lemma LinkDecodes(page: nat)
    requires TablePage(page)
    ensures Frame(4096 * page + 3) == page && LowBits(4096 * page + 3) == 3
  {
  }

  /** The entry of a table tells whether it exists, and its page. */
  lemma LinkReads(tab: map<Node, nat>, n: Node)
    requires OnOwnPages(tab)
    ensures Present(LinkTo(tab, n)) <==> n in tab
    ensures n in tab ==> Frame(LinkTo(tab, n)) == tab[n]
  {
    if n in tab {
      LinkDecodes(tab[n]);
    }
  }

  /** A link is present and writable, and maps no large page; a zero slot is absent. */
  lemma LinkFlags(page: nat)
    requires TablePage(page)
    ensures var e := 4096 * page + 3; Present(e) && Writable(e) && !LargePage(e) && Frame(e) == page
    ensures !Present(0)
  {
    hide LowBits, Frame;
    LinkDecodes(page);
    assert LowBits(0) == 0 by { ZeroBits(); }
  }

  lemma ZeroBits()
    ensures LowBits(0) == 0
  {
  }

  /** A walk goes through a link to the table it names, and stops at a zero slot. */
  lemma WalkThrough(m: seq<Word>, level: nat, table: nat, p: Path, next: nat)
    requires |m| == MEM_WORDS && 2 <= level <= 4 && TablePage(table)
    ensures Slot(m, table, p.At(level)) == 0 ==> WalkFrom(m, level, table, p) == None
    ensures Slot(m, table, p.At(level)) == 4096 * next + 3 && TablePage(next)
            ==> WalkFrom(m, level, table, p) == WalkFrom(m, level - 1, next, p)
  {
    hide Present, Writable, LargePage, Frame, LargeLeaf;
    LinkFlags(0);
    var e := Slot(m, table, p.At(level));
    if e == 4096 * next + 3 && TablePage(next) {
      LinkFlags(next);
    }
  }

  /** The last step of a walk reads the leaf slot. */
  lemma WalkLeaf(m: seq<Word>, table: nat, p: Path)
    requires |m| == MEM_WORDS && TablePage(table)
    ensures WalkFrom(m, 1, table, p) == LeafEntry(Slot(m, table, p.pt))
  {
    hide Present, Writable, LargePage, Frame, LargeLeaf;
  }

  /** One level of the walk follows the slot's link, or stops where the tree has no child. */
  lemma WalkStepAt(m: seq<Word>, tab: map<Node, nat>, level: nat, p: Path)
    requires |m| == MEM_WORDS && OnOwnPages(tab) && 2 <= level <= 4 && p.Table(level) in tab
    requires Slot(m, tab[p.Table(level)], p.At(level)) == LinkTo(tab, p.Table(level - 1))
    ensures WalkFrom(m, level, tab[p.Table(level)], p) ==
            var child := p.Table(level - 1);
            if child in tab then WalkFrom(m, level - 1, tab[child], p) else None
  {
    hide WalkFrom;
    var child := p.Table(level - 1);
    WalkThrough(m, level, tab[p.Table(level)], p, if child in tab then tab[child] else 0);
  }

  /** The same on a well-formed tree. */
  lemma WalkStep(m: seq<Word>, tab: map<Node, nat>, root: nat, level: nat, p: Path)
    requires WellFormed(m, tab, root)
    requires 2 <= level <= 4 && p.Table(level) in tab
    ensures WalkFrom(m, level, tab[p.Table(level)], p) ==
            var child := p.Table(level - 1);
            if child in tab then WalkFrom(m, level - 1, tab[child], p) else None
  {
    hide WalkFrom, LinkTo;
    var n, child := p.Table(level), p.Table(level - 1);
    TableLevel(p, level);
    assert Child(n, p.At(level)) == child;
    assert Slot(m, tab[n], p.At(level)) == LinkTo(tab, child);
    WalkStepAt(m, tab, level, p);
  }

  /** On a well-formed tree the hardware walk is the tree lookup. */
  lemma WalkIsLookup(m: seq<Word>, tab: map<Node, nat>, root: nat, p: Path)
    requires WellFormed(m, tab, root)
    ensures Walk(m, root, p) == Lookup(m, tab, p)
  {
    hide WalkFrom, WellFormed, Slot, LeafEntry;
    WellFormedPages(m, tab, root);
    TreeTables(m, tab, root, p);
    WalkStep(m, tab, root, 4, p);
    if p.Table(3) in tab {
      WalkStep(m, tab, root, 3, p);
      if p.Table(2) in tab {
        WalkStep(m, tab, root, 2, p);
        if p.Table(1) in tab {
          WalkLeaf(m, tab[p.Table(1)], p);
        }
      }
    }
  }

  /** The root is there, and with a table also the tables above it. */
  lemma TreeTables(m: seq<Word>, tab: map<Node, nat>, root: nat, p: Path)
    requires WellFormed(m, tab, root)
    ensures p.Table(4) in tab && tab[p.Table(4)] == root
    ensures p.Table(1) in tab ==> p.Table(2) in tab
    ensures p.Table(2) in tab ==> p.Table(3) in tab
  {
  }

  // ---------- The two updates of the tree ----------

  /** `m'` is `m` with page `page` zeroed. */
  ghost predicate Zeroed(m: seq<Word>, m': seq<Word>, page: nat) {
    && |m'| == |m| == MEM_WORDS
    && forall j | 0 <= j < |m| :: m'[j] == if InPage(j, page) then 0 else m[j]
  }

  /** `m'` is `m` after page `page` was zeroed and then word `at` was set to `e`. */
  ghost predicate ZeroedThenSet(m: seq<Word>, m': seq<Word>, page: nat, at: nat, e: Word) {
    && |m'| == |m| == MEM_WORDS
    && forall j | 0 <= j < |m| :: m'[j] == if j == at then e else if InPage(j, page) then 0 else m[j]
  }

  /** The slots after a fresh page was zeroed and linked: one new link, a page of zeros, the rest as before. */
  lemma SlotsAfterLink(m: seq<Word>, m': seq<Word>, tab: map<Node, nat>, parent: Node, at: Index, page: nat)
    requires OnOwnPages(tab) && TablePage(page) && parent in tab && forall n | n in tab :: tab[n] != page
    requires ZeroedThenSet(m, m', page, 512 * tab[parent] + at, 4096 * page + 3)
    ensures forall n, i: Index | n in tab ::
              Slot(m', tab[n], i) == if n == parent && i == at then 4096 * page + 3 else Slot(m, tab[n], i)
    ensures forall i: Index :: Slot(m', page, i) == 0
  {
  }

  lemma SameLength(m: seq<Word>, m': seq<Word>, page: nat, at: nat, e: Word)
    requires ZeroedThenSet(m, m', page, at, e)
    ensures |m| == |m'| == MEM_WORDS
  {
  }

  lemma TreeAfterLink(tab: map<Node, nat>, root: nat, parent: Node, at: Index, page: nat)
    requires IsTree(tab, root)
    requires parent in tab && Level(parent) >= 2 && Child(parent, at) !in tab
    requires TablePage(page) && forall n | n in tab :: tab[n] != page
    ensures IsTree(tab[Child(parent, at) := page], root)
  {
  }

  lemma LinksAfterLink(m: seq<Word>, m': seq<Word>, tab: map<Node, nat>, root: nat, parent: Node, at: Index, page: nat)
    requires WellFormed(m, tab, root) && IsTree(tab[Child(parent, at) := page], root)
    requires parent in tab && Level(parent) >= 2 && Child(parent, at) !in tab
    requires TablePage(page) && forall n | n in tab :: tab[n] != page
    requires ZeroedThenSet(m, m', page, 512 * tab[parent] + at, 4096 * page + 3)
    ensures Linked(m', tab[Child(parent, at) := page])
  {
    var child := Child(parent, at);
    var tab' := tab[child := page];
    SlotsAfterLink(m, m', tab, parent, at, page);
    forall n, i: Index | n in tab' && Level(n) >= 2
      ensures Slot(m', tab'[n], i) == LinkTo(tab', Child(n, i))
    {
      if n == child {
        assert Child(n, i) !in tab;
      } else {
        assert Slot(m, tab[n], i) == LinkTo(tab, Child(n, i));
      }
    }
  }

  lemma ZeroIsAbsent()
    ensures LeafEntry(0) == None
  {
  }

  lemma LookupAfterLink(m: seq<Word>, m': seq<Word>, tab: map<Node, nat>, parent: Node, at: Index, page: nat, p: Path)
    requires OnOwnPages(tab) && TablePage(page) && parent in tab && forall n | n in tab :: tab[n] != page
    requires Level(parent) >= 2 && Child(parent, at) !in tab
    requires ZeroedThenSet(m, m', page, 512 * tab[parent] + at, 4096 * page + 3)
    ensures Lookup(m', tab[Child(parent, at) := page], p) == Lookup(m, tab, p)
  {
    hide LeafEntry, ZeroedThenSet, Slot, Level, Path.Table, Lookup;
    var leaf := p.Table(1);
    TableLevel(p, 1);
    assert leaf != parent;
    SlotsAfterLink(m, m', tab, parent, at, page);
    assert |m| == |m'| == MEM_WORDS by { SameLength(m, m', page, 512 * tab[parent] + at, 4096 * page + 3); }
    if leaf in tab {
      SameLookup(m, m', tab, tab[Child(parent, at) := page], p);
    } else {
      NoLookup(m, m', tab, tab[Child(parent, at) := page], p);
    }
  }

  lemma SameLookup(m: seq<Word>, m': seq<Word>, tab: map<Node, nat>, tab': map<Node, nat>, p: Path)
    requires |m| == |m'| == MEM_WORDS
    requires (forall n | n in tab :: TablePage(tab[n])) && forall n | n in tab' :: TablePage(tab'[n])
    requires p.Table(1) in tab && p.Table(1) in tab' && tab[p.Table(1)] == tab'[p.Table(1)]
    requires Slot(m', tab[p.Table(1)], p.pt) == Slot(m, tab[p.Table(1)], p.pt)
    ensures Lookup(m', tab', p) == Lookup(m, tab, p)
  {
    hide LeafEntry, Slot, TablePage, Path.Table;
  }

  lemma NoLookup(m: seq<Word>, m': seq<Word>, tab: map<Node, nat>, tab': map<Node, nat>, p: Path)
    requires |m| == |m'| == MEM_WORDS
    requires (forall n | n in tab :: TablePage(tab[n])) && forall n | n in tab' :: TablePage(tab'[n])
    requires p.Table(1) !in tab && (p.Table(1) in tab' ==> Slot(m', tab'[p.Table(1)], p.pt) == 0)
    ensures Lookup(m', tab', p) == Lookup(m, tab, p)
  {
    hide LeafEntry, Slot, TablePage, Path.Table;
    ZeroIsAbsent();
  }

  /** Linking a fresh zeroed page as the missing child `at` of `parent` keeps the tree. */
  lemma AddTable(m: seq<Word>, m': seq<Word>, tab: map<Node, nat>, root: nat, parent: Node, at: Index, page: nat)
    requires WellFormed(m, tab, root)
    requires parent in tab && Level(parent) >= 2 && Child(parent, at) !in tab
    requires TablePage(page) && forall n | n in tab :: tab[n] != page
    requires ZeroedThenSet(m, m', page, 512 * tab[parent] + at, 4096 * page + 3)
    ensures WellFormed(m', tab[Child(parent, at) := page], root)
  {
    TreeAfterLink(tab, root, parent, at, page);
    LinksAfterLink(m, m', tab, root, parent, at, page);
  }

  /** Linking a fresh zeroed page maps nothing: every walk is as before. */
  lemma AddTableKeepsWalks(m: seq<Word>, m': seq<Word>, tab: map<Node, nat>, root: nat, parent: Node, at: Index,
      page: nat)
    requires WellFormed(m, tab, root)
    requires parent in tab && Level(parent) >= 2 && Child(parent, at) !in tab
    requires TablePage(page) && forall n | n in tab :: tab[n] != page
    requires ZeroedThenSet(m, m', page, 512 * tab[parent] + at, 4096 * page + 3)
    ensures SameWalks(m, m', root)
  {
    AddTable(m, m', tab, root, parent, at, page);
    forall p ensures Walk(m', root, p) == Walk(m, root, p) {
      WalkIsLookup(m, tab, root, p);
      WalkIsLookup(m', tab[Child(parent, at) := page], root, p);
      LookupAfterLink(m, m', tab, parent, at, page, p);
    }
  }

  /** Both at once, for a page zeroed first and linked then. */
  lemma LinkTable(m: seq<Word>, m1: seq<Word>, m2: seq<Word>, tab: map<Node, nat>, root: nat, parent: Node,
      at: Index, page: nat)
    requires WellFormed(m, tab, root)
    requires parent in tab && Level(parent) >= 2 && Child(parent, at) !in tab
    requires TablePage(page) && forall n | n in tab :: tab[n] != page
    requires Zeroed(m, m1, page) && 512 * tab[parent] + at < |m1| && m2 == m1[512 * tab[parent] + at := 4096 * page + 3]
    ensures WellFormed(m2, tab[Child(parent, at) := page], root) && SameWalks(m, m2, root)
  {
    assert ZeroedThenSet(m, m2, page, 512 * tab[parent] + at, 4096 * page + 3);
    AddTable(m, m2, tab, root, parent, at, page);
    AddTableKeepsWalks(m, m2, tab, root, parent, at, page);
  }

  /** Writing the leaf slot of a path changes the walk of that path and of no other. */
  lemma SetLeaf(m: seq<Word>, m': seq<Word>, tab: map<Node, nat>, root: nat, p: Path, e: Word)
    requires WellFormed(m, tab, root) && p.Table(1) in tab
    requires var at := 512 * tab[p.Table(1)] + p.pt; at < |m| && m' == m[at := e]
    ensures WellFormed(m', tab, root)
    ensures WalksExcept(m, m', root, p, LeafEntry(e))
  {
    var leaf := p.Table(1);
    assert forall n, i: Index | n in tab ::
        Slot(m', tab[n], i) == if n == leaf && i == p.pt then e else Slot(m, tab[n], i);
    assert WellFormed(m', tab, root);
    forall q ensures Walk(m', root, q) == if q == p then LeafEntry(e) else Walk(m, root, q) {
      WalkIsLookup(m, tab, root, q);
      WalkIsLookup(m', tab, root, q);
    }
  }

  // ---------- The shape of the tree, read off memory ----------

  /** The page of the level-`level` table that the hardware reaches on the way of `p`. */
  function TableAt(m: seq<Word>, root: nat, level: nat, p: Path): Option<nat>
    requires 1 <= level <= 4
    decreases 4 - level
  {
    if level == 4 then Some(root)
    else
      match TableAt(m, root, level + 1, p)
      case None => None
      case Some(table) =>
        var at := 512 * table + p.At(level + 1);
        if at < |m| && Present(m[at]) then Some(Frame(m[at])) else None
  }

  lemma {:induction false} TableAtIsTree(m: seq<Word>, tab: map<Node, nat>, root: nat, level: nat, p: Path)
    requires WellFormed(m, tab, root) && 1 <= level <= 4
    ensures TableAt(m, root, level, p) == if p.Table(level) in tab then Some(tab[p.Table(level)]) else None
    decreases 4 - level
  {
    if level < 4 {
      TableAtIsTree(m, tab, root, level + 1, p);
      var up, n := p.Table(level + 1), p.Table(level);
      TableLevel(p, level + 1);
      assert n == Child(up, p.At(level + 1));
      if up in tab {
        SlotIsLink(m, tab, root, up, p.At(level + 1));
        LinkReads(tab, n);
      }
    }
  }

  /** No page serves as two tables: not at two levels, and not for two prefixes. */
  lemma NoSharedTables(m: seq<Word>, tab: map<Node, nat>, root: nat, level: nat, p: Path, level': nat, p': Path)
    requires WellFormed(m, tab, root) && 1 <= level <= 4 && 1 <= level' <= 4
    requires TableAt(m, root, level, p).Some? && TableAt(m, root, level, p) == TableAt(m, root, level', p')
    ensures level == level' && p.Table(level) == p'.Table(level)
  {
    TableAtIsTree(m, tab, root, level, p);
    TableAtIsTree(m, tab, root, level', p');
    TableLevel(p, level);
    TableLevel(p', level');
  }

  // ---------- The first table ----------

  /** A zeroed page is a tree of one table that maps nothing. */
  lemma EmptyTree(m: seq<Word>, m': seq<Word>, root: nat)
    requires TablePage(root) && Zeroed(m, m', root)
    ensures WellFormed(m', map[Root := root], root)
    ensures MapsNothing(m', root)
  {
    var tab := map[Root := root];
    forall i: Index ensures Slot(m', root, i) == 0 {
      assert InPage(512 * root + i, root);
    }
    assert WellFormed(m', tab, root);
    forall p ensures Walk(m', root, p) == None {
      WalkIsLookup(m', tab, root, p);
      assert p.Table(1) != Root;
    }
  }

  // ---------- Writing a word of the live root ----------

  /** Below the root, a walk does not read the root page. */
  lemma {:induction false} WalkBelowRoot(m: seq<Word>, tab: map<Node, nat>, root: nat, x: Word, level: nat, p: Path)
    requires WellFormed(m, tab, root) && 1 <= level <= 4 && p.Table(level) in tab
    requires level == 4 ==> p.pml4 != 0
    ensures 512 * root < |m|
    ensures WalkFrom(m[512 * root := x], level, tab[p.Table(level)], p) == WalkFrom(m, level, tab[p.Table(level)], p)
    decreases level
  {
    hide WalkFrom, LinkTo, LeafEntry;
    var n := p.Table(level);
    OwnSlot(m, tab, root, x, level, p);
    var m', page := m[512 * root := x], tab[n];
    if level == 1 {
      WalkLeaf(m, page, p);
      WalkLeaf(m', page, p);
    } else {
      WalkStep(m, tab, root, level, p);
      WalkStepAt(m', tab, level, p);
      if p.Table(level - 1) in tab {
        WalkBelowRoot(m, tab, root, x, level - 1, p);
      }
    }
  }

  /** The slot that a path uses in its table is not entry 0 of the root. */
  lemma OwnSlot(m: seq<Word>, tab: map<Node, nat>, root: nat, x: Word, level: nat, p: Path)
    requires WellFormed(m, tab, root) && 1 <= level <= 4 && p.Table(level) in tab
    requires level == 4 ==> p.pml4 != 0
    ensures 512 * root < |m| && |m| == MEM_WORDS && TablePage(tab[p.Table(level)])
    ensures OnOwnPages(tab)
    ensures Slot(m[512 * root := x], tab[p.Table(level)], p.At(level)) == Slot(m, tab[p.Table(level)], p.At(level))
    ensures level >= 2 ==>
              Slot(m[512 * root := x], tab[p.Table(level)], p.At(level)) == LinkTo(tab, p.Table(level - 1))
  {
    hide LinkTo;
    var n := p.Table(level);
    TableLevel(p, level);
    assert n != Root ==> tab[n] != root;
    if level >= 2 {
      assert p.Table(level - 1) == Child(n, p.At(level));
      SlotIsLink(m, tab, root, n, p.At(level));
    }
  }

  /** Root entry 0 does not matter to the paths that use another root entry. */
  lemma WalkSkipsRootSlot(m: seq<Word>, tab: map<Node, nat>, root: nat, x: Word, p: Path)
    requires WellFormed(m, tab, root) && p.pml4 != 0
    ensures 512 * root < |m| && Walk(m[512 * root := x], root, p) == Walk(m, root, p)
  {
    WalkBelowRoot(m, tab, root, x, 4, p);
  }

  /** Without root entry 0, no path through it is mapped. */
  lemma WalkNeedsRootSlot(m: seq<Word>, root: nat, x: Word, p: Path)
    requires 512 * root < |m| && !Present(x) && p.pml4 == 0
    ensures Walk(m[512 * root := x], root, p) == None
  {
  }
}
