/**
 The stage-1 page-table builder of the kernel: a two-source page allocator and the routines that
 map pages, working in place on physical memory.
 */
module PageTableBuilder {
  import opened Words
  import opened Wrappers
  import opened PageAllocator
  import opened PageTables
  import opened AddressSpace

  /** The kernel either goes on, or prints a one-letter failure code and halts for good. */
  datatype Outcome = Running | Halted(code: char)

  const PTE_PRESENT: Word := 1
  const PTE_WRITABLE: Word := 2

  /** `makeEntryAddr(page)`: the address field alone. */
  function EntryAddr(page: Word): Word {
    page - page % 4096
  }

  lemma LinkWord(q: nat)
    requires TablePage(q)
    ensures EntryAddr(4096 * q) + PTE_PRESENT + PTE_WRITABLE == 4096 * q + 3
  {
  }

  /** The leaf entry for frame address `p`: `makeEntryAddr(p) | PTE_PRESENT | (flags & PTE_WRITABLE)`. */
  function LeafWord(p: Word, flags: Word): Word {
    EntryAddr(p) + PTE_PRESENT + flags / 2 % 2 * PTE_WRITABLE
  }

  /** The bits of a leaf entry: the address as it is, present, writable if asked for, and no other flag. */
  lemma LeafWordIs(p: Word, flags: Word)
    ensures LeafWord(p, flags) == p - p % 4096 + (if Writable(flags) then 3 else 1)
  {
    LowestBits(flags);
  }

  lemma LeafWordDecodes(p: Word, flags: Word)
    ensures LeafEntry(LeafWord(p, flags)) == Some(Leaf(p / 4096 % 0x100_0000_0000, Writable(flags)))
  {
    hide LeafWord, Present, Writable, Frame;
    LeafWordIs(p, flags);
    WordDecodes(LeafWord(p, flags), p / 4096, if Writable(flags) then 3 else 1);
  }

  lemma WordDecodes(e: Word, q: nat, low: nat)
    requires e == 4096 * q + low && low in {1, 3}
    ensures Present(e) && (Writable(e) <==> low == 3) && Frame(e) == q % 0x100_0000_0000
  {
    assert e / 4096 == q && e % 4096 == low;
  }

  lemma FlagIsWritable()
    ensures Writable(PTE_WRITABLE)
  {
  }

  lemma EntryAddrReads(tab: map<Node, nat>, n: Node)
    requires OnOwnPages(tab) && n in tab
    ensures EntryAddr(LinkTo(tab, n)) == 4096 * tab[n]
  {
    LinkDecodes(tab[n]);
  }

  /** The entry of a table tells whether a child exists, and its address. */
  lemma EntryReads(m: seq<Word>, tab: map<Node, nat>, root: nat, parent: Node, i: Index)
    requires WellFormed(m, tab, root) && parent in tab && Level(parent) >= 2
    ensures 512 * tab[parent] + i < |m|
    ensures Present(m[512 * tab[parent] + i]) <==> Child(parent, i) in tab
    ensures Child(parent, i) in tab ==> EntryAddr(m[512 * tab[parent] + i]) == 4096 * tab[Child(parent, i)]
  {
    hide Present, EntryAddr, LinkTo;
    SlotIsLink(m, tab, root, parent, i);
    LinkReads(tab, Child(parent, i));
    if Child(parent, i) in tab {
      EntryAddrReads(tab, Child(parent, i));
    }
  }

  /** Memory `m` differs from `before` only inside the pages `pages` (byte addresses). */
  ghost predicate ChangedOnlyIn(before: seq<Word>, m: seq<Word>, pages: seq<nat>) {
    |m| == |before| && forall j | 0 <= j < |m| :: m[j] == before[j] || 4096 * (j / 512) in pages
  }

  /** Zeroing one more page adds that page. */
  lemma StillOnlyIn(before: seq<Word>, m: seq<Word>, m': seq<Word>, pages: seq<nat>, p: nat)
    requires ChangedOnlyIn(before, m, pages) && Zeroed(m, m', p / 4096) && p % 4096 == 0
    ensures ChangedOnlyIn(before, m', pages + [p])
  {
    hide InPage;
    forall j | 0 <= j < |m'| ensures m'[j] == before[j] || 4096 * (j / 512) in pages + [p] {
      if InPage(j, p / 4096) {
        PageOfIndex(j, p);
        assert p in pages + [p];
      } else if m'[j] != before[j] {
        assert 4096 * (j / 512) in pages;
      }
    }
  }

  lemma PageOfIndex(j: nat, p: nat)
    requires p % 4096 == 0 && InPage(j, p / 4096)
    ensures 4096 * (j / 512) == p
  {
    assert j / 512 == p / 4096;
  }

  lemma PoolPage(l: Layout, handed: seq<nat>, p: nat, left: seq<nat>)
    requires l.Aligned() && l.Disjoint() && Pool(l) == handed + [p] + left
    ensures p % 4096 == 0 && p < TOP
  {
    hide Pool, Layout.Aligned, Layout.Disjoint;
    PoolSafe(l);
    assert Pool(l)[|handed|] == p;
    assert p in Pool(l);
  }

  /** The next `k` allocations succeed: there are that many pages, none of them page 0. */
  predicate Serves(pages: seq<nat>, k: nat) {
    k <= |pages| && 0 !in pages[..k]
  }

  lemma ServesSplit(pages: seq<nat>, j: nat, k: nat)
    requires j <= |pages|
    ensures Serves(pages, j + k) <==> Serves(pages, j) && Serves(pages[j..], k)
  {
    if j + k <= |pages| {
      assert pages[..j + k] == pages[..j] + pages[j..][..k];
    }
  }

  lemma ServesFewer(pages: seq<nat>, j: nat, k: nat)
    requires j <= k
    ensures Serves(pages, k) ==> Serves(pages, j)
  {
    if k <= |pages| {
      assert pages[..j] == pages[..k][..j];
    }
  }

  // ---------- What making tables costs ----------

  /** How many of the tables `need` are not among `have`. */
  function Lacking(need: set<Node>, have: set<Node>): nat {
    |need - have|
  }

  /** The tables `need` are there beside `have`; the ones that were missing took the first pages of `left`. */
  ghost predicate TablesMade(have: set<Node>, left: seq<nat>, need: set<Node>, have': set<Node>, left': seq<nat>) {
    have' == have + need && Serves(left, Lacking(need, have)) && left' == left[Lacking(need, have)..]
  }

  lemma NothingMade(have: set<Node>, left: seq<nat>)
    ensures TablesMade(have, left, {}, have, left)
  {
    assert {} - have == {};
  }

  /** What two sets of tables cost one after the other is what they cost together. */
  lemma CostAdds(have: set<Node>, need: set<Node>, more: set<Node>)
    ensures Lacking(need + more, have) == Lacking(need, have) + Lacking(more, have + need)
  {
    assert (need + more) - have == (need - have) + (more - (have + need));
  }

  lemma MadeBoth(have: set<Node>, left: seq<nat>, need: set<Node>, have1: set<Node>, left1: seq<nat>,
                 more: set<Node>, have2: set<Node>, left2: seq<nat>)
    requires TablesMade(have, left, need, have1, left1) && TablesMade(have1, left1, more, have2, left2)
    ensures TablesMade(have, left, need + more, have2, left2)
  {
    hide Serves, Lacking;
    CostAdds(have, need, more);
    ServesFits(left, Lacking(need, have));
    ServesSplit(left, Lacking(need, have), Lacking(more, have1));
    ServesFits(left1, Lacking(more, have1));
  }

  lemma ServesFits(pages: seq<nat>, k: nat)
    requires Serves(pages, k)
    ensures k <= |pages|
  {
  }

  lemma LacksLess(need: set<Node>, all: set<Node>, have: set<Node>)
    requires need <= all
    ensures Lacking(need, have) <= Lacking(all, have)
  {
    SmallerSet(need - have, all - have);
  }

  /** The letter that is printed when there is no page for a table of this level; 4 is the root. */
  function LetterOf(level: int): char {
    match level
    case 4 => 'B'
    case 3 => 'C'
    case 2 => 'D'
    case _ => 'E'
  }

  /** With every table its parent is there. */
  ghost predicate ClosedUp(tables: set<Node>) {
    forall x | x in tables :: x == Root || x.up in tables
  }

  /** The tables `made` were served, and then there was no page for `n`, the next one. */
  ghost predicate StopsWith(made: set<Node>, n: Node, code: char, have: set<Node>, left: seq<nat>, all: set<Node>) {
    && made <= all && n in all && n !in have + made && (n == Root || n.up in have + made) && ClosedUp(have + made)
    && Serves(left, Lacking(made, have)) && !Serves(left, Lacking(made + {n}, have))
    && code == LetterOf(Level(n))
  }

  /** On the way to the tables `all`, beside `have` and with the pages `left`, the kernel stops and prints `code`. */
  ghost predicate StopsAt(code: char, have: set<Node>, left: seq<nat>, all: set<Node>) {
    exists made, n :: StopsWith(made, n, code, have, left, all)
  }

  /** It stops at once if the one table that it wants next is missing, and no page can be had. */
  lemma StopsNow(code: char, have: set<Node>, left: seq<nat>, n: Node)
    requires n !in have && (n == Root || n.up in have) && ClosedUp(have) && !Serves(left, 1)
    requires code == LetterOf(Level(n))
    ensures StopsAt(code, have, left, {n})
  {
    OneMissing(have, n);
    assert {} + {n} == {n} && have + {} == have && {} - have == {};
    assert StopsWith({}, n, code, have, left, {n});
  }

  /** Where a later part of `all` stops, `all` stops. */
  lemma StopsInside(code: char, have: set<Node>, left: seq<nat>, need: set<Node>, have1: set<Node>, left1: seq<nat>,
                    more: set<Node>, all: set<Node>)
    requires TablesMade(have, left, need, have1, left1) && StopsAt(code, have1, left1, more) && need + more <= all
    ensures StopsAt(code, have, left, all)
  {
    hide Serves, Lacking, ClosedUp;
    var made, n :| StopsWith(made, n, code, have1, left1, more);
    assert have1 + made == have + (need + made);
    ServesFits(left, Lacking(need, have));
    CostAdds(have, need, made);
    ServesSplit(left, Lacking(need, have), Lacking(made, have1));
    CostAdds(have, need, made + {n});
    assert need + (made + {n}) == (need + made) + {n};
    ServesSplit(left, Lacking(need, have), Lacking(made + {n}, have1));
    assert StopsWith(need + made, n, code, have, left, all);
  }

  /** Without a page for the root it stops with B. */
  lemma StopsAtRoot(left: seq<nat>, all: set<Node>)
    requires !Serves(left, 1)
    ensures StopsAt('B', {}, left, {Root} + all)
  {
    hide Serves, StopsAt;
    StopsNow('B', {}, left, Root);
    NothingMade({}, left);
    StopsInside('B', {}, left, {}, {}, left, {Root}, {Root} + all);
  }

  lemma RootMade(left: seq<nat>)
    requires Serves(left, 1)
    ensures TablesMade({}, left, {Root}, {Root}, left[1..])
  {
    hide Serves;
    OneMissing({}, Root);
    ServesFits(left, 1);
  }

  /** When the kernel stops on the way to `all`, there are not pages enough for `all`. */
  lemma StopsShort(code: char, have: set<Node>, left: seq<nat>, all: set<Node>)
    requires StopsAt(code, have, left, all)
    ensures !Serves(left, Lacking(all, have))
  {
    hide Serves, Lacking, ClosedUp;
    var made, n :| StopsWith(made, n, code, have, left, all);
    LacksLess(made + {n}, all, have);
    ServesFewer(left, Lacking(made + {n}, have), Lacking(all, have));
  }

  lemma LacksAll(all: set<Node>)
    requires Root !in all
    ensures Lacking(all, {Root}) == |all|
  {
    assert all - {Root} == all;
  }

  /** All tables made beside the root. */
  lemma AllMade(left: seq<nat>, all: set<Node>, have': set<Node>, left': seq<nat>)
    requires TablesMade({Root}, left, all, have', left') && Root !in all
    ensures have' == {Root} + all && Serves(left, |all|) && |all| <= |left| && left' == left[|all|..]
  {
    assert all - {Root} == all;
  }

  lemma SmallerSet<T>(s: set<T>, t: set<T>)
    requires s <= t
    ensures |s| <= |t|
  {
    assert t == s + (t - s);
  }

  lemma FirstPageThere(left: seq<nat>)
    requires Serves(left, 1)
    ensures left != []
  {
  }

  /** One table looked up or made: `left` are the pages still to hand out. */
  ghost predicate TableStep(tab: map<Node, nat>, left: seq<nat>, n: Node, tab': map<Node, nat>, left': seq<nat>) {
    if n in tab then tab' == tab && left' == left
    else Serves(left, 1) && tab' == tab[n := left[0] / 4096] && left' == left[1..]
  }

  lemma StepMakes(tab: map<Node, nat>, left: seq<nat>, n: Node, tab': map<Node, nat>, left': seq<nat>)
    requires TableStep(tab, left, n, tab', left')
    ensures TablesMade(tab.Keys, left, {n}, tab'.Keys, left')
  {
    hide Lacking;
    OneMissing(tab.Keys, n);
  }

  lemma OneMissing(have: set<Node>, n: Node)
    ensures Lacking({n}, have) == if n in have then 0 else 1
  {
    if n !in have {
      assert {n} - have == {n};
    } else {
      assert {n} - have == {};
    }
  }

  lemma StepAdds(tab: map<Node, nat>, left: seq<nat>, n: Node, tab': map<Node, nat>, left': seq<nat>)
    requires TableStep(tab, left, n, tab', left')
    ensures n in tab'
  {
  }

  /** The three tables of a path, each one the child of the one before. */
  lemma ThreeTables(p: Path)
    ensures {} + {p.Table(3)} + {p.Table(2)} + {p.Table(1)} == TablesFor(p)
    ensures p.Table(3) == Child(Root, p.pml4) && p.Table(2) == Child(p.Table(3), p.pdpt)
    ensures p.Table(1) == Child(p.Table(2), p.pd)
    ensures Level(Root) == 4 && Level(p.Table(3)) == 3 && Level(p.Table(2)) == 2 && Level(p.Table(1)) == 1
  {
    TableLevel(p, 1);
    TableLevel(p, 3);
    TableLevel(p, 2);
  }

  lemma SameTwice(m: seq<Word>, m1: seq<Word>, m2: seq<Word>, root: nat)
    requires SameWalks(m, m1, root) && SameWalks(m1, m2, root)
    ensures SameWalks(m, m2, root)
  {
    hide Walk;
  }

  /** Every table is on a handed-out page. */
  ghost predicate Housed(tab: map<Node, nat>, handed: seq<nat>) {
    forall n | n in tab :: 4096 * tab[n] in handed
  }

  lemma HousedAfterLink(tab: map<Node, nat>, handed: seq<nat>, n: Node, q: nat)
    requires Housed(tab, handed) && n !in tab && 4096 * q in handed
    ensures Housed(tab[n := q], handed) && |tab[n := q]| == |tab| + 1
  {
  }

  lemma HousedWithMore(tab: map<Node, nat>, handed: seq<nat>, page: nat)
    requires Housed(tab, handed)
    ensures Housed(tab, handed + [page])
  {
  }

  // ---------- Mapping a range ----------

  /** A page-aligned range whose virtual pages do not wrap and whose frames lie below 2^47. */
  predicate RangeFits(vStart: Word, pStart: Word, byteSize: Word) {
    && vStart % 4096 == 0 && pStart % 4096 == 0 && byteSize % 4096 == 0
    && pStart + byteSize <= TOP && vStart + byteSize <= WORD_LIMIT
    && Vpn(vStart) + byteSize / 4096 <= VPN_LIMIT
  }

  lemma RangeFitsParts(vStart: Word, pStart: Word, byteSize: Word)
    requires RangeFits(vStart, pStart, byteSize)
    ensures pStart % 4096 == 0 && byteSize % 4096 == 0 && pStart + byteSize <= TOP
    ensures byteSize + 4096 < WORD_LIMIT
  {
  }

  /** The `i`-th linear address of a range is in its `i`-th page. */
  lemma RangePage(vStart: Word, pStart: Word, byteSize: Word, i: nat)
    requires RangeFits(vStart, pStart, byteSize) && i < byteSize / 4096
    ensures Vpn(vStart) + i < VPN_LIMIT
    ensures vStart + i * 4096 < WORD_LIMIT && PathOf(vStart + i * 4096) == PagePath(Vpn(vStart) + i)
  {
    VpnOfOffset(vStart, i);
    PathOfVpn(vStart + i * 4096);
  }

  /** The `i`-th physical address of a range is its `i`-th frame. */
  lemma RangeFrame(pStart: Word, byteSize: Word, i: nat)
    requires pStart % 4096 == 0 && pStart + byteSize <= TOP && i < byteSize / 4096
    ensures pStart + i * 4096 < WORD_LIMIT && (pStart + i * 4096) / 4096 % 0x100_0000_0000 == pStart / 4096 + i
  {
    var f := pStart / 4096;
    assert pStart + i * 4096 == 4096 * (f + i);
    assert (pStart + i * 4096) / 4096 == f + i;
  }

  /** A range being mapped, with the memory, the tables and the free pages before it. */
  datatype Goal = Goal(m: seq<Word>, have: set<Node>, left: seq<nat>, root: nat, first: nat, frame: nat, pages: nat) {

    /** The first `i` pages are mapped, and exactly the tables that they run through were made. */
    ghost predicate Reached(i: nat, m': seq<Word>, have': set<Node>, left': seq<nat>) {
      RangeMapped(m, m', root, first, frame, i) && TablesMade(have, left, RangeTables(first, i), have', left')
    }

    lemma Start()
      ensures Reached(0, m, have, left)
    {
      hide TablesMade, WalkPage;
      NothingMade(have, left);
    }

    lemma Step(i: nat, m1: seq<Word>, have1: set<Node>, left1: seq<nat>, m2: seq<Word>, have2: set<Node>,
        left2: seq<nat>)
      requires Reached(i, m1, have1, left1) && first + i < VPN_LIMIT
      requires WalksExcept(m1, m2, root, PagePath(first + i), Some(Leaf(frame + i, true)))
      requires TablesMade(have1, left1, TablesFor(PagePath(first + i)), have2, left2)
      ensures Reached(i + 1, m2, have2, left2)
    {
      hide TablesMade, RangeMapped, WalksExcept, PagePath, TablesFor;
      RangeGrows(m, m1, m2, root, first, frame, i);
      MadeBoth(have, left, RangeTables(first, i), have1, left1, TablesFor(PagePath(first + i)), have2, left2);
    }

    lemma Stuck(code: char, i: nat, m1: seq<Word>, have1: set<Node>, left1: seq<nat>)
      requires Reached(i, m1, have1, left1) && i < pages
      requires StopsAt(code, have1, left1, TablesFor(PagePath(first + i)))
      ensures StopsAt(code, have, left, RangeTables(first, pages))
    {
      hide TablesMade, RangeMapped, PagePath, TablesFor, Serves, Lacking, StopsAt;
      RangeTablesGrow(first, i + 1, pages);
      StopsInside(code, have, left, RangeTables(first, i), have1, left1, TablesFor(PagePath(first + i)),
          RangeTables(first, pages));
    }
  }

  lemma HalfFits(offset: Word, p: Word, bytes: Word)
    requires offset in {0, UPPER_HALF} && p % 4096 == 0 && bytes % 4096 == 0
    requires p < TOP && p + bytes <= TOP
    ensures p + offset < WORD_LIMIT && RangeFits(p + offset, p, bytes) && Vpn(p + offset) == Base(offset) + p / 4096
  {
    HalfPage(offset, p);
  }

  // ---------- The touched word ----------

  const TOUCH_MASK: Word := 0xa5a5_a5a5_a5a5_a5a5

  /** An upper-half alias goes through root entry 256 or above. */
  lemma AliasRootEntry(p: Word)
    requires p < TOP
    ensures p + UPPER_HALF < WORD_LIMIT && PathOf(p + UPPER_HALF).pml4 == 256 + p / 0x80_0000_0000
  {
    AliasBlock(p);
    AliasDigit(p / 0x80_0000_0000);
  }

  lemma AliasBlock(p: Word)
    requires p < TOP
    ensures (p + UPPER_HALF) / 0x80_0000_0000 == 0x1ff_ff00 + p / 0x80_0000_0000 && p / 0x80_0000_0000 < 256
  {
    var q, r := p / 0x80_0000_0000, p % 0x80_0000_0000;
    assert p == 0x80_0000_0000 * q + r;
    assert p + UPPER_HALF == 0x80_0000_0000 * (0x1ff_ff00 + q) + r;
  }

  lemma AliasDigit(q: nat)
    requires q < 256
    ensures (0x1ff_ff00 + q) % 512 == 256 + q
  {
    assert 0x1ff_ff00 + q == 512 * 0xffff + (256 + q);
  }

  /** Whatever word stands in entry 0 of the root, the alias of the root page translates to the root page. */
  lemma TouchWord(m: seq<Word>, tab: map<Node, nat>, root: nat, k: Regions, x: Word)
    requires WellFormed(m, tab, root) && SpaceIs(m, root, k)
    requires k.Sound() && k.touchPhys == 4096 * root
    ensures 512 * root < |m| && k.touchPhys + UPPER_HALF < WORD_LIMIT
    ensures Translate(m[512 * root := x], root, k.touchPhys + UPPER_HALF) == Some(Access(4096 * root, true))
  {
    hide SpaceIs, PathOf, Walk, Vpn;
    AliasRootEntry(4096 * root);
    var v := k.touchPhys + UPPER_HALF;
    WalkSkipsRootSlot(m, tab, root, x, PathOf(v));
    TranslatesAsIntended(m, root, k, v);
  }

  lemma LowRootEntry(v: Word)
    requires v < 0x80_0000_0000
    ensures PathOf(v).pml4 == 0
  {
  }

  /** Root entry 0 of the boot address space is present: the APIC page is mapped through it. */
  lemma RootEntryPresent(m: seq<Word>, root: nat, k: Regions)
    requires SpaceIs(m, root, k)
    ensures 512 * root < |m| && Present(m[512 * root])
  {
    hide Present, Writable, Frame, LargePage, LargeLeaf;
    assert WalkPage(m, root, LAPIC_FRAME).Some?;
    assert PagePath(LAPIC_FRAME).pml4 == 0;
  }

  /**
   The first store of the touch test flips root entry 0, and until the second one puts it back no
   address below 512 GiB translates.
   */
  lemma FlipBlindsIdentity(m: seq<Word>, root: nat, k: Regions, v: Word)
    requires SpaceIs(m, root, k) && v < 0x80_0000_0000
    ensures 512 * root < |m| && Translate(m[512 * root := Xor(m[512 * root], TOUCH_MASK)], root, v) == None
  {
    hide Walk, Xor, PathOf, SpaceIs, Present;
    RootEntryPresent(m, root, k);
    var x := Xor(m[512 * root], TOUCH_MASK);
    XorLowBit(m[512 * root], TOUCH_MASK);
    FlippedAbsent(m[512 * root], x);
    LowRootEntry(v);
    WalkNeedsRootSlot(m, root, x, PathOf(v));
  }

  lemma FlippedAbsent(e: Word, x: Word)
    requires Present(e) && x % 2 == (e + TOUCH_MASK) % 2
    ensures !Present(x)
  {
    LowBitIsBitZero(e);
    LowBitIsBitZero(x);
  }

  lemma LowBitIsBitZero(e: Word)
    ensures Present(e) <==> e % 2 == 1
  {
    assert e == 2 * (2048 * (e / 4096)) + e % 4096;
  }

  class Builder {
    const mem: array<Word>
    const layout: Layout
    var scratchNext: nat
    var fbIdx: nat
    var fbNext: nat
    var pml4Phys: nat

    ghost const initial: seq<Word>
    /** Everything `AllocPage` returned so far, in order. */
    ghost var handed: seq<nat>
    /** The tables built so far, with their page numbers. */
    ghost var tab: map<Node, nat>

    ghost function Left(): seq<nat>
      reads `scratchNext, `fbIdx, `fbNext
    {
      Remaining(layout, scratchNext, fbIdx, fbNext)
    }

    ghost predicate ValidAllocator()
      reads `scratchNext, `fbIdx, `fbNext, `handed, mem
    {
      && mem.Length == MEM_WORDS
      && layout.Aligned() && layout.Disjoint()
      && Pool(layout) == handed + Left()
      && ChangedOnlyIn(initial, mem[..], handed)
    }

    /** The handed-out pages are exactly the pages of a well-formed tree. */
    ghost predicate Valid()
      reads this, mem
    {
      && ValidAllocator()
      && pml4Phys % 4096 == 0
      && WellFormed(mem[..], tab, pml4Phys / 4096)
      && |tab| == |handed| && Housed(tab, handed)
    }

    constructor (mem: array<Word>, layout: Layout)
      requires mem.Length == MEM_WORDS && layout.Aligned() && layout.Disjoint()
      ensures this.mem == mem && this.layout == layout && initial == mem[..]
      ensures ValidAllocator() && handed == [] && Left() == Pool(layout)
    {
      this.mem := mem;
      this.layout := layout;
      scratchNext, fbIdx, fbNext, pml4Phys := layout.scratch, 0, 0, 0;
      initial, handed, tab := mem[..], [], map[];
    }

    lemma RootIsTable()
      requires Valid()
      ensures Root in tab && pml4Phys == 4096 * tab[Root]
    {
    }

    lemma Closed()
      requires Valid()
      ensures ClosedUp(tab.Keys)
    {
    }

    lemma ValidIsEnough()
      requires Valid()
      ensures ValidAllocator()
    {
    }

    method ZeroPage(p: nat)
      requires mem.Length == MEM_WORDS && p % 4096 == 0 && p < TOP
      modifies mem
      ensures Zeroed(old(mem[..]), mem[..], p / 4096)
    {
      for i := 0 to 512
        invariant forall j | 0 <= j < mem.Length ::
                    mem[j] == if 512 * (p / 4096) <= j < 512 * (p / 4096) + i then 0 else old(mem[j])
      {
        mem[p / 8 + i] := 0;
      }
    }

    /** The state after `p`, the first page of `before`, was handed out with zeroed contents. */
    twostate predicate HandedOut(before: seq<nat>, p: nat)
      reads `scratchNext, `fbIdx, `fbNext, `handed, mem
    {
      && before != [] && p == before[0] && Left() == before[1..] && handed == old(handed) + [p]
      && Zeroed(old(mem[..]), mem[..], p / 4096)
    }

    /** Nothing but the cursors changed. */
    twostate predicate OnlyCursorsMoved()
      reads `scratchNext, `fbIdx, `fbNext, `handed, mem
    {
      Left() == old(Left()) && handed == old(handed) && mem[..] == old(mem[..])
    }

    /** Hands out the first remaining page, zeroed; returns 0 and changes nothing when there is none. */
    method AllocPage() returns (p: nat)
      requires ValidAllocator()
      modifies `scratchNext, `fbIdx, `fbNext, `handed, mem
      ensures ValidAllocator()
      ensures old(Left()) == [] ==> p == 0 && OnlyCursorsMoved()
      ensures old(Left()) != [] ==> HandedOut(old(Left()), p)
    {
      var found;
      found, p := ScratchPage();
      if !found {
        p := FallbackPage();
      }
    }

    /** The primary source: bump through the pool, skipping the kernel and the stack. */
    method ScratchPage() returns (found: bool, p: nat)
      requires ValidAllocator()
      modifies `scratchNext, `handed, mem
      ensures ValidAllocator()
      ensures found ==> HandedOut(old(Left()), p)
      ensures !found ==> scratchNext + PAGE_SIZE > layout.scratchEnd && OnlyCursorsMoved()
    {
      hide Remaining, Pool;
      while scratchNext + PAGE_SIZE <= layout.scratchEnd
        invariant OnlyCursorsMoved()
        decreases layout.scratchEnd - scratchNext
      {
        ScratchStep(layout, scratchNext, fbIdx, fbNext);
        p := scratchNext;
        scratchNext := scratchNext + PAGE_SIZE;
        if layout.InKernelOrStack(p) {
          continue;
        }
        HandOut(p);
        return true, p;
      }
      return false, 0;
    }

    /** The second source: the cached conventional ranges, one after the other. */
    method FallbackPage() returns (p: nat)
      requires ValidAllocator() && scratchNext + PAGE_SIZE > layout.scratchEnd
      modifies `fbIdx, `fbNext, `handed, mem
      ensures ValidAllocator()
      ensures old(Left()) == [] ==> p == 0 && OnlyCursorsMoved()
      ensures old(Left()) != [] ==> HandedOut(old(Left()), p)
    {
      hide Remaining, Pool;
      while fbIdx < |layout.ranges|
        invariant OnlyCursorsMoved()
        decreases |layout.ranges| - fbIdx
      {
        if fbNext == 0 {
          RangeBegins(layout, scratchNext, fbIdx);
          fbNext := layout.ranges[fbIdx].start;
        }
        var found;
        found, p := PageOfRange();
        if found {
          return;
        }
        RangeDone(layout, scratchNext, fbIdx, fbNext);
        fbIdx := fbIdx + 1;
        fbNext := 0;
      }
      NothingLeft(layout, scratchNext, fbIdx, fbNext);
      p := 0;
    }

    /** The inner loop of the second source: the next usable page of range `fbIdx`. */
    method PageOfRange() returns (found: bool, p: nat)
      requires ValidAllocator() && scratchNext + PAGE_SIZE > layout.scratchEnd
      requires fbIdx < |layout.ranges| && (fbNext == 0 ==> layout.ranges[fbIdx].start == 0)
      modifies `fbNext, `handed, mem
      ensures ValidAllocator()
      ensures found ==> HandedOut(old(Left()), p)
      ensures !found ==> fbNext >= layout.ranges[fbIdx].end && OnlyCursorsMoved()
      ensures !found ==> fbNext == 0 ==> layout.ranges[fbIdx].start == 0
    {
      hide Remaining, Pool;
      while fbNext < layout.ranges[fbIdx].end
        invariant fbNext == 0 ==> layout.ranges[fbIdx].start == 0
        invariant OnlyCursorsMoved()
        decreases layout.ranges[fbIdx].end - fbNext
      {
        RangeStep(layout, scratchNext, fbIdx, fbNext);
        p := fbNext;
        fbNext := fbNext + PAGE_SIZE;
        if layout.Reserved(p, scratchNext) {
          continue;
        }
        HandOut(p);
        return true, p;
      }
      return false, 0;
    }

    /** Zeroes a page that the cursors have just passed. */
    method HandOut(p: nat)
      requires mem.Length == MEM_WORDS && layout.Aligned() && layout.Disjoint()
      requires Pool(layout) == handed + [p] + Left()
      requires ChangedOnlyIn(initial, mem[..], handed)
      modifies `handed, mem
      ensures ValidAllocator() && handed == old(handed) + [p]
      ensures Zeroed(old(mem[..]), mem[..], p / 4096)
    {
      hide Remaining, Pool, ChangedOnlyIn, Zeroed, Layout.Aligned, Layout.Disjoint;
      PoolPage(layout, handed, p, Left());
      ZeroPage(p);
      StillOnlyIn(initial, old(mem[..]), mem[..], handed, p);
      handed := handed + [p];
    }

    // ---------- Mapping ----------

    /** The next page to hand out is a table page that no table uses. */
    lemma NextPageIsFresh()
      requires ValidAllocator() && Left() != []
      ensures Left()[0] % 4096 == 0 && TablePage(Left()[0] / 4096) && Left()[0] !in handed
    {
      PoolSafe(layout);
      assert Pool(layout)[|handed|] == Left()[0];
      assert Pool(layout)[|handed|] in Pool(layout);
      forall k | 0 <= k < |handed| ensures handed[k] != Left()[0] {
        assert Pool(layout)[k] == handed[k];
      }
    }

    /** Writing into a page that was handed out before. */
    method WriteSlot(page: nat, i: Index, e: Word)
      requires ValidAllocator() && TablePage(page) && 4096 * page in handed
      modifies mem
      ensures ValidAllocator() && mem[..] == old(mem[..])[512 * page + i := e]
    {
      ghost var before := mem[..];
      mem[512 * page + i] := e;
      assert mem[..] == before[512 * page + i := e];
      assert (512 * page + i) / 512 == page;
    }

    /** Writes the link to page `q` into slot `i` of `parent`; the words were `before` until `q` was zeroed. */
    method WriteLink(table: nat, i: Index, page: nat, ghost parent: Node, ghost before: seq<Word>, ghost q: nat)
      requires ValidAllocator() && WellFormed(before, tab, pml4Phys / 4096)
      requires parent in tab && Level(parent) >= 2 && table == 4096 * tab[parent] && Child(parent, i) !in tab
      requires table in handed && page == 4096 * q && TablePage(q) && forall n | n in tab :: tab[n] != q
      requires Zeroed(before, mem[..], q)
      modifies mem
      ensures ValidAllocator() && WellFormed(mem[..], tab[Child(parent, i) := q], pml4Phys / 4096)
      ensures SameWalks(before, mem[..], pml4Phys / 4096)
    {
      hide WellFormed, SameWalks, Zeroed, EntryAddr;
      WellFormedPages(before, tab, pml4Phys / 4096);
      ghost var zeroed := mem[..];
      LinkWord(q);
      WriteSlot(table / 4096, i, EntryAddr(page) + PTE_PRESENT + PTE_WRITABLE);
      LinkTable(before, zeroed, mem[..], tab, pml4Phys / 4096, parent, i, q);
    }

    /** Allocates and links a missing table; without a page for it, returns 0. */
    method NewTable(table: nat, i: Index, ghost parent: Node) returns (next: nat)
      requires Valid() && parent in tab && Level(parent) >= 2 && table == 4096 * tab[parent]
      requires Child(parent, i) !in tab
      modifies `scratchNext, `fbIdx, `fbNext, `handed, `tab, mem
      ensures ValidAllocator()
      ensures next != 0 <==> Serves(old(Left()), 1)
      ensures next != 0 ==>
                && Valid() && SameWalks(old(mem[..]), mem[..], pml4Phys / 4096) && next % 4096 == 0
                && TableStep(old(tab), old(Left()), Child(parent, i), tab, Left()) && next == old(Left())[0]
    {
      ghost var before := handed;
      if Left() != [] {
        NextPageIsFresh();
      }
      next := AllocPage();
      if next != 0 {
        HousedWithMore(tab, before, next);
        WriteLink(table, i, next, parent, old(mem[..]), next / 4096);
        HousedAfterLink(tab, handed, Child(parent, i), next / 4096);
        ghost var linked := mem[..];
        tab := tab[Child(parent, i) := next / 4096];
        assert mem[..] == linked;
      }
    }

    /**
     One level of a mapping: the table behind slot `i` of the table at `table`. A missing table is
     allocated and linked; without a page for it, the kernel halts with `code`.
     */
    method NextTable(table: nat, i: Index, code: char, ghost parent: Node) returns (next: nat, r: Outcome)
      requires Valid() && parent in tab && Level(parent) >= 2 && table == 4096 * tab[parent]
      modifies `scratchNext, `fbIdx, `fbNext, `handed, `tab, mem
      ensures ValidAllocator()
      ensures r == if Child(parent, i) in old(tab) || Serves(old(Left()), 1) then Running else Halted(code)
      ensures r.Running? ==>
                && Valid() && SameWalks(old(mem[..]), mem[..], pml4Phys / 4096)
                && TableStep(old(tab), old(Left()), Child(parent, i), tab, Left())
                && next == 4096 * tab[Child(parent, i)]
    {
      hide WellFormed, EntryAddr, Present, Serves, Lacking, StopsAt, ValidAllocator;
      assert table / 8 == 512 * tab[parent];
      EntryReads(mem[..], tab, pml4Phys / 4096, parent, i);
      var e := mem[table / 8 + i];
      next := EntryAddr(e);
      if !Present(e) {
        next := NewTable(table, i, parent);
        if next == 0 {
          return 0, Halted(code);
        }
      }
      return next, Running;
    }

    /**
     The same as a step of making the tables `all`, of which `need` were made since there were the
     tables `have` and the pages `left`.
     */
    method AlsoTable(table: nat, i: Index, code: char, ghost parent: Node, ghost n: Node,
                     ghost have: set<Node>, ghost left: seq<nat>, ghost need: set<Node>, ghost all: set<Node>)
      returns (next: nat, r: Outcome)
      requires Valid() && parent in tab && Level(parent) >= 2 && table == 4096 * tab[parent] && n == Child(parent, i)
      requires TablesMade(have, left, need, tab.Keys, Left()) && need + {n} <= all && code == LetterOf(Level(n))
      modifies `scratchNext, `fbIdx, `fbNext, `handed, `tab, mem
      ensures ValidAllocator()
      ensures r.Running? ==>
                && Valid() && SameWalks(old(mem[..]), mem[..], pml4Phys / 4096)
                && TablesMade(have, left, need + {n}, tab.Keys, Left())
                && n in tab && next == 4096 * tab[n]
      ensures r.Halted? ==> StopsAt(r.code, have, left, all)
      ensures r == if n in old(tab) || Serves(old(Left()), 1) then Running else Halted(code)
      ensures n in old(tab) ==> tab == old(tab) && Left() == old(Left())
    {
      hide ValidAllocator, WellFormed, Serves, Lacking, StopsAt, Remaining, TablesMade;
      ghost var tab0, left0 := tab, Left();
      Closed();
      next, r := NextTable(table, i, code, parent);
      if r.Halted? {
        StopsNow(code, tab0.Keys, left0, n);
        StopsInside(code, have, left, need, tab0.Keys, left0, {n}, all);
      } else {
        StepMakes(tab0, left0, n, tab, Left());
        MadeBoth(have, left, need, tab0.Keys, left0, {n}, tab.Keys, Left());
        assert n in tab by { StepAdds(tab0, left0, n, tab, Left()); }
      }
    }

    /** The first three steps of `mapPageDual`, with the upper three indices: the level-1 table of the path. */
    method LeafTable(i4: Index, i3: Index, i2: Index, ghost path: Path) returns (pt: nat, r: Outcome)
      requires Valid() && path.pml4 == i4 && path.pdpt == i3 && path.pd == i2
      modifies `scratchNext, `fbIdx, `fbNext, `handed, `tab, mem
      ensures ValidAllocator()
      ensures r.Running? ==>
                && Valid() && SameWalks(old(mem[..]), mem[..], pml4Phys / 4096)
                && TablesMade(old(tab).Keys, old(Left()), TablesFor(path), tab.Keys, Left())
                && path.Table(1) in tab && pt == 4096 * tab[path.Table(1)]
      ensures r.Halted? ==> StopsAt(r.code, old(tab).Keys, old(Left()), TablesFor(path))
      // with no page left, the letter is that of the first table that is missing
      ensures !Serves(old(Left()), 1) ==>
                r == if path.Table(3) !in old(tab) then Halted('C')
                     else if path.Table(2) !in old(tab) then Halted('D')
                     else if path.Table(1) !in old(tab) then Halted('E')
                     else Running
    {
      hide Valid, ValidAllocator, SameWalks, Serves, Lacking, StopsAt, Left, TablesMade, TablesFor, Path.Table, Level;
      RootIsTable();
      ghost var m, have, left, all := mem[..], tab.Keys, Left(), TablesFor(path);
      ghost var n3, n2, n1 := path.Table(3), path.Table(2), path.Table(1);
      ThreeTables(path);
      NothingMade(have, left);
      pt, r := AlsoTable(pml4Phys, i4, 'C', Root, n3, have, left, {}, all);
      if r.Halted? {
        return;
      }
      ghost var m1 := mem[..];
      pt, r := AlsoTable(pt, i3, 'D', n3, n2, have, left, {} + {n3}, all);
      if r.Halted? {
        return;
      }
      SameTwice(m, m1, mem[..], pml4Phys / 4096);
      ghost var m2 := mem[..];
      pt, r := AlsoTable(pt, i2, 'E', n2, n1, have, left, {} + {n3} + {n2}, all);
      if r.Halted? {
        return;
      }
      SameTwice(m, m2, mem[..], pml4Phys / 4096);
    }

    method WriteLeaf(pt: nat, i: Index, e: Word, ghost path: Path)
      requires Valid() && i == path.pt && path.Table(1) in tab && pt == 4096 * tab[path.Table(1)]
      modifies mem
      ensures Valid() && WalksExcept(old(mem[..]), mem[..], pml4Phys / 4096, path, LeafEntry(e))
      ensures LeafIs(path, e)
    {
      WriteSlot(pt / 4096, i, e);
      SetLeaf(old(mem[..]), mem[..], tab, pml4Phys / 4096, path, e);
    }

    /** The leaf slot of a path holds the word `e`. */
    ghost predicate LeafIs(path: Path, e: int)
      reads `tab, mem
    {
      && path.Table(1) in tab && 512 * tab[path.Table(1)] + path.pt < mem.Length
      && mem[512 * tab[path.Table(1)] + path.pt] == e
    }

    /** `mapPageDual`: maps the page of `v` to the frame of `p`, making the tables on the way. */
    method MapPage(v: Word, p: Word, flags: Word, ghost path: Path, ghost leaf: Leaf) returns (r: Outcome)
      requires Valid() && path == PathOf(v)
      requires leaf.frame == p / 4096 % 0x100_0000_0000 && leaf.writable == Writable(flags)
      modifies `scratchNext, `fbIdx, `fbNext, `handed, `tab, mem
      ensures ValidAllocator()
      ensures r.Running? ==>
                && Valid()
                && WalksExcept(old(mem[..]), mem[..], pml4Phys / 4096, path, Some(leaf))
                && TablesMade(old(tab).Keys, old(Left()), TablesFor(path), tab.Keys, Left())
                && LeafIs(path, p - p % 4096 + if Writable(flags) then 3 else 1)
      ensures r.Halted? ==> StopsAt(r.code, old(tab).Keys, old(Left()), TablesFor(path))
    {
      hide TablesMade, TablesFor, Serves, Lacking, StopsAt, Remaining;
      LeafWordDecodes(p, flags);
      LeafWordIs(p, flags);
      var pt;
      pt, r := LeafTable(v / 0x80_0000_0000 % 512, v / 0x4000_0000 % 512, v / 0x20_0000 % 512, path);
      if r.Running? {
        WriteLeaf(pt, v / 4096 % 512, LeafWord(p, flags), path);
      }
    }

    /** `mapPageDual` with the flags that every caller passes, in terms of the path and the frame number. */
    method MapWritable(v: Word, p: Word, ghost path: Path, ghost frame: nat) returns (r: Outcome)
      requires Valid() && PathOf(v) == path && p / 4096 % 0x100_0000_0000 == frame
      modifies `scratchNext, `fbIdx, `fbNext, `handed, `tab, mem
      ensures ValidAllocator()
      ensures r.Running? ==>
                && Valid()
                && WalksExcept(old(mem[..]), mem[..], pml4Phys / 4096, path, Some(Leaf(frame, true)))
                && TablesMade(old(tab).Keys, old(Left()), TablesFor(path), tab.Keys, Left())
      ensures r.Halted? ==> StopsAt(r.code, old(tab).Keys, old(Left()), TablesFor(path))
    {
      hide TablesMade, TablesFor, Serves, Lacking, StopsAt, Remaining, Valid, ValidAllocator, WalksExcept, LeafIs,
          PathOf, Writable;
      FlagIsWritable();
      r := MapPage(v, p, PTE_WRITABLE, path, Leaf(frame, true));
    }

    /**
     `mapRangeDual`: maps the pages of a byte range one after the other. It runs through exactly if
     there is a page for each table that the range needs and that is not there yet.
     */
    method MapRange(vStart: Word, pStart: Word, byteSize: Word) returns (r: Outcome)
      requires Valid() && RangeFits(vStart, pStart, byteSize)
      modifies `scratchNext, `fbIdx, `fbNext, `handed, `tab, mem
      ensures ValidAllocator()
      ensures r.Running? ==>
                && Valid()
                && RangeMapped(old(mem[..]), mem[..], pml4Phys / 4096, Vpn(vStart), pStart / 4096, byteSize / 4096)
                && TablesMade(old(tab).Keys, old(Left()), RangeTables(Vpn(vStart), byteSize / 4096), tab.Keys, Left())
      ensures r.Halted? ==>
                StopsAt(r.code, old(tab).Keys, old(Left()), RangeTables(Vpn(vStart), byteSize / 4096))
    {
      hide Valid, ValidAllocator, RangeFits, RangeMapped, TablesMade, RangeTables, Serves, Lacking, StopsAt,
          Vpn, Remaining;
      RangeFitsParts(vStart, pStart, byteSize);
      var pages := (byteSize + PAGE_SIZE - 1) / PAGE_SIZE;
      assert pages == byteSize / 4096;
      ghost var g := Goal(mem[..], tab.Keys, Left(), pml4Phys / 4096, Vpn(vStart), pStart / 4096, pages);
      g.Start();
      for i := 0 to pages
        invariant Valid() && g.Reached(i, mem[..], tab.Keys, Left())
      {
        r := MapNext(vStart, pStart, byteSize, i, g);
        if r.Halted? {
          return;
        }
      }
      ValidIsEnough();
      r := Running;
    }

    /** Iteration `i` of the loop of `mapRangeDual`. */
    method MapNext(vStart: Word, pStart: Word, byteSize: Word, i: nat, ghost g: Goal) returns (r: Outcome)
      requires Valid() && RangeFits(vStart, pStart, byteSize) && i < byteSize / 4096 == g.pages
      requires g.root == pml4Phys / 4096 && g.first == Vpn(vStart) && g.frame == pStart / 4096
      requires g.Reached(i, mem[..], tab.Keys, Left())
      modifies `scratchNext, `fbIdx, `fbNext, `handed, `tab, mem
      ensures ValidAllocator()
      ensures r.Running? ==> Valid() && g.Reached(i + 1, mem[..], tab.Keys, Left())
      ensures r.Halted? ==> StopsAt(r.code, g.have, g.left, RangeTables(g.first, g.pages))
    {
      hide Valid, ValidAllocator, RangeFits, RangeMapped, TablesMade, TablesFor, RangeTables, Serves, Lacking,
          StopsAt, Vpn,
          Remaining;
      hide Goal.Reached;
      RangeFitsParts(vStart, pStart, byteSize);
      RangePage(vStart, pStart, byteSize, i);
      RangeFrame(pStart, byteSize, i);
      ghost var m, have, left := mem[..], tab.Keys, Left();
      r := MapWritable(vStart + i * PAGE_SIZE, pStart + i * PAGE_SIZE, PagePath(g.first + i), g.frame + i);
      if r.Halted? {
        g.Stuck(r.code, i, m, have, left);
      } else {
        g.Step(i, m, have, left, mem[..], tab.Keys, Left());
      }
    }

    // ---------- The address space of the kernel ----------

    /** `mapPageDual` on its own, as a range of one page. */
    method MapSingle(v: Word, p: Word) returns (r: Outcome)
      requires Valid() && RangeFits(v, p, PAGE_SIZE)
      modifies `scratchNext, `fbIdx, `fbNext, `handed, `tab, mem
      ensures ValidAllocator()
      ensures r.Running? ==>
                && Valid()
                && RangeMapped(old(mem[..]), mem[..], pml4Phys / 4096, Vpn(v), p / 4096, 1)
                && TablesMade(old(tab).Keys, old(Left()), RangeTables(Vpn(v), 1), tab.Keys, Left())
      ensures r.Halted? ==> StopsAt(r.code, old(tab).Keys, old(Left()), RangeTables(Vpn(v), 1))
    {
      hide Valid, ValidAllocator, RangeFits, RangeMapped, TablesMade, RangeTables, Serves, Lacking, StopsAt,
          Vpn, Remaining;
      ghost var g := Goal(mem[..], tab.Keys, Left(), pml4Phys / 4096, Vpn(v), p / 4096, 1);
      g.Start();
      r := MapNext(v, p, PAGE_SIZE, 0, g);
    }

    /**
     A byte range below 2^47 mapped at `offset`, from the linear address `p + offset` on, as a step of
     making the tables `all`, of which `need` were made since there were the tables `have` and the
     pages `left`.
     */
    method MapRegion(p: Word, bytes: Word, offset: Word, single: bool, ghost frame: nat, ghost count: nat,
        ghost more: set<Node>,
                     ghost have: set<Node>, ghost left: seq<nat>, ghost need: set<Node>, ghost all: set<Node>)
      returns (r: Outcome)
      requires Valid() && offset in {0, UPPER_HALF} && p == 4096 * frame && bytes == 4096 * count
      requires p < TOP && p + bytes <= TOP
      requires single ==> bytes == PAGE_SIZE
      requires more == RangeTables(Base(offset) + frame, count)
      requires TablesMade(have, left, need, tab.Keys, Left()) && Within(need, more, all)
      modifies `scratchNext, `fbIdx, `fbNext, `handed, `tab, mem
      ensures ValidAllocator()
      ensures r.Running? ==>
                && Valid()
                && RangeMapped(old(mem[..]), mem[..], pml4Phys / 4096, Base(offset) + frame, frame, count)
                && TablesMade(have, left, need + more, tab.Keys, Left())
      ensures r.Halted? ==> StopsAt(r.code, have, left, all)
    {
      hide Valid, ValidAllocator, RangeFits, RangeMapped, TablesMade, RangeTables, Serves, Lacking, StopsAt,
          Vpn, Left, Base;
      assert frame == p / 4096 && count == bytes / 4096 && p % 4096 == 0 && bytes % 4096 == 0;
      HalfFits(offset, p, bytes);
      ghost var have1, left1 := tab.Keys, Left();
      if single {
        r := MapSingle(p + offset, p);
      } else {
        r := MapRange(p + offset, p, bytes);
      }
      if r.Halted? {
        StopsInside(r.code, have, left, need, have1, left1, more, all);
      } else {
        MadeBoth(have, left, need, have1, left1, more, tab.Keys, Left());
      }
    }

    /** The kernel image and the stack at `offset`; `mid` is memory between the two. */
    method MapImage(k: Regions, offset: Word, ghost base: nat, ghost have: set<Node>, ghost left: seq<nat>)
      returns (r: Outcome, ghost mid: seq<Word>)
      requires Valid() && k.Sound() && offset in {0, UPPER_HALF} && base == Base(offset)
      requires TablesMade(have, left, {}, tab.Keys, Left())
      modifies `scratchNext, `fbIdx, `fbNext, `handed, `tab, mem
      ensures ValidAllocator()
      ensures r.Running? ==>
                && Valid()
                && RangeMapped(old(mem[..]), mid, pml4Phys / 4096, base + k.KernelFrame(), k.KernelFrame(),
                    k.KernelCount())
                && RangeMapped(mid, mem[..], pml4Phys / 4096, base + k.StackFrame(), k.StackFrame(), 4)
                && TablesMade(have, left, k.ImageTables(base), tab.Keys, Left())
      ensures r.Halted? ==> StopsAt(r.code, have, left, k.HalfTables(base))
    {
      hide Valid, ValidAllocator, RangeMapped, TablesMade, RangeTables, Serves, Lacking, StopsAt, Left, Base, Within;
      hide Regions.HalfTables, Regions.ImageTables, Regions.Sound;
      hide Regions.KernelFrame, Regions.KernelCount, Regions.StackFrame;
      k.Frames();
      k.HalfTablesParts(base);
      ghost var n1, all := RangeTables(base + k.KernelFrame(), k.KernelCount()), k.HalfTables(base);
      ghost var n2 := RangeTables(base + k.StackFrame(), 4);
      r := MapRegion(k.kernelPhys, k.kernelBytes, offset, false, k.KernelFrame(), k.KernelCount(), n1, have, left,
          {}, all);
      if r.Halted? {
        return r, [];
      }
      mid := mem[..];
      r := MapRegion(k.stackPhys, STACK_BYTES, offset, false, k.StackFrame(), 4, n2, have, left, {} + n1, all);
    }

    /** The touch page and the APIC page at `offset`. */
    method MapPages(k: Regions, offset: Word, ghost base: nat, ghost have: set<Node>, ghost left: seq<nat>)
      returns (r: Outcome, ghost mid: seq<Word>)
      requires Valid() && k.Sound() && offset in {0, UPPER_HALF} && base == Base(offset)
      requires TablesMade(have, left, k.ImageTables(base), tab.Keys, Left())
      modifies `scratchNext, `fbIdx, `fbNext, `handed, `tab, mem
      ensures ValidAllocator()
      ensures r.Running? ==>
                && Valid()
                && RangeMapped(old(mem[..]), mid, pml4Phys / 4096, base + k.TouchFrame(), k.TouchFrame(), 1)
                && RangeMapped(mid, mem[..], pml4Phys / 4096, base + LAPIC_FRAME, LAPIC_FRAME, 1)
                && TablesMade(have, left, k.HalfTables(base), tab.Keys, Left())
      ensures r.Halted? ==> StopsAt(r.code, have, left, k.HalfTables(base))
    {
      hide Valid, ValidAllocator, RangeMapped, TablesMade, RangeTables, Serves, Lacking, StopsAt, Left, Base, Within;
      hide Regions.HalfTables, Regions.ImageTables, Regions.Sound, Regions.TouchFrame;
      k.Frames();
      k.HalfTablesParts(base);
      ghost var n3, all := RangeTables(base + k.TouchFrame(), 1), k.HalfTables(base);
      ghost var n4 := RangeTables(base + LAPIC_FRAME, 1);
      r := MapRegion(k.touchPhys, PAGE_SIZE, offset, false, k.TouchFrame(), 1, n3, have, left, k.ImageTables(base),
          all);
      if r.Halted? {
        return r, [];
      }
      mid := mem[..];
      r := MapRegion(LAPIC_MMIO, PAGE_SIZE, offset, true, LAPIC_FRAME, 1, n4, have, left, k.ImageTables(base) + n3,
          all);
    }

    /** All regions at `offset`: the identity mappings, or the aliases of `mapUpperHalfAliases`. */
    method MapHalf(k: Regions, offset: Word) returns (r: Outcome)
      requires Valid() && k.Sound() && offset in {0, UPPER_HALF}
      modifies `scratchNext, `fbIdx, `fbNext, `handed, `tab, mem
      ensures ValidAllocator()
      ensures r.Running? ==>
                && Valid()
                && k.HalfMapped(old(mem[..]), mem[..], pml4Phys / 4096, Base(offset))
                && TablesMade(old(tab).Keys, old(Left()), k.HalfTables(Base(offset)), tab.Keys, Left())
      ensures r.Halted? ==>
                StopsAt(r.code, old(tab).Keys, old(Left()), k.HalfTables(Base(offset)))
    {
      hide Valid, ValidAllocator, RangeMapped, TablesMade, Serves, Lacking, StopsAt, Left, Base, Regions.Sound,
          Regions.HalfMapped;
      hide Regions.HalfTables, Regions.ImageTables, Regions.KernelFrame, Regions.KernelCount, Regions.StackFrame;
      hide Regions.TouchFrame;
      ghost var base, have, left, m0 := Base(offset), tab.Keys, Left(), mem[..];
      NothingMade(have, left);
      ghost var m1, m3;
      r, m1 := MapImage(k, offset, base, have, left);
      if r.Halted? {
        return;
      }
      ghost var m2 := mem[..];
      r, m3 := MapPages(k, offset, base, have, left);
      if r.Halted? {
        return;
      }
      k.FourRanges(m0, m1, m2, m3, mem[..], pml4Phys / 4096, base);
    }

    /** The first page handed out becomes the root table. */
    method AllocRoot() returns (r: Outcome)
      requires ValidAllocator() && handed == []
      modifies this, mem
      ensures ValidAllocator()
      ensures r == if Serves(old(Left()), 1) then Running else Halted('B')
      ensures r.Running? ==>
                && Valid() && Left() == old(Left())[1..] && pml4Phys == old(Left())[0] && tab.Keys == {Root}
                && MapsNothing(mem[..], pml4Phys / 4096)
    {
      if Left() != [] {
        NextPageIsFresh();
      }
      var p := AllocPage();
      if p == 0 {
        return Halted('B');
      }
      pml4Phys := p;
      tab := map[Root := p / 4096];
      EmptyTree(old(mem[..]), mem[..], p / 4096);
      r := Running;
    }

    /** The identity mappings, then `mapUpperHalfAliases`. */
    method MapHalves(k: Regions) returns (r: Outcome)
      requires Valid() && k.Sound() && MapsNothing(mem[..], pml4Phys / 4096)
      modifies `scratchNext, `fbIdx, `fbNext, `handed, `tab, mem
      ensures ValidAllocator()
      ensures r.Running? ==>
                && Valid() && SpaceIs(mem[..], pml4Phys / 4096, k)
                && TablesMade(old(tab).Keys, old(Left()), k.AllTables(), tab.Keys, Left())
      ensures r.Halted? ==> StopsAt(r.code, old(tab).Keys, old(Left()), k.AllTables())
    {
      hide Left, Valid, ValidAllocator, MapsNothing, TablesMade, Serves, Lacking, StopsAt, SpaceIs;
      hide Regions.HalfMapped, Regions.HalfTables, Regions.Sound;
      ghost var m0, h0, l0, low, high := mem[..], tab.Keys, Left(), k.HalfTables(0), k.HalfTables(HALF);
      r := MapHalf(k, 0);
      if r.Halted? {
        NothingMade(h0, l0);
        StopsInside(r.code, h0, l0, {}, h0, l0, low, k.AllTables());
        return;
      }
      ghost var m1, h1, l1 := mem[..], tab.Keys, Left();
      r := MapHalf(k, UPPER_HALF);
      if r.Halted? {
        StopsInside(r.code, h0, l0, low, h1, l1, high, k.AllTables());
        return;
      }
      MadeBoth(h0, l0, low, h1, l1, high, tab.Keys, Left());
      TwoHalves(k, m0, m1, mem[..], pml4Phys / 4096);
    }

    /**
     Stage 1 from the first allocation to the CR3 switch. It runs through exactly if there is a page
     for the root and for each table of both halves.
     */
    method Build(k: Regions) returns (r: Outcome)
      requires ValidAllocator() && handed == [] && k.Sound()
      modifies this, mem
      ensures ValidAllocator()
      ensures r.Running? <==> Serves(old(Left()), 1 + |k.AllTables()|)
      ensures r.Running? ==>
                && Valid() && SpaceIs(mem[..], pml4Phys / 4096, k)
                && tab.Keys == {Root} + k.AllTables() && Left() == old(Left())[1 + |k.AllTables()|..]
                && pml4Phys == old(Left())[0]
      ensures r.Halted? ==> StopsAt(r.code, {}, old(Left()), {Root} + k.AllTables())
    {
      hide *;
      ghost var l0, all := Left(), k.AllTables();
      k.AllTablesBound();
      r := AllocRoot();
      if r.Halted? {
        ServesFewer(l0, 1, 1 + |all|);
        StopsAtRoot(l0, all);
        return;
      }
      FirstPageThere(l0);
      ghost var l1 := Left();
      ServesSplit(l0, 1, |all|);
      LacksAll(all);
      r := MapHalves(k);
      if r.Running? {
        AllMade(l1, all, tab.Keys, Left());
        assert l0[1..][|all|..] == l0[1 + |all|..];
      } else {
        StopsShort(r.code, {Root}, l1, all);
        RootMade(l0);
        StopsInside(r.code, {}, l0, {Root}, {Root}, l1, all, {Root} + all);
      }
    }

    // ---------- The touch test ----------

    /** A load through the page tables in memory. */
    method Load(v: Word) returns (w: Word)
      requires mem.Length == MEM_WORDS
      requires var t := Translate(mem[..], pml4Phys / 4096, v); t.Some? && t.value.phys / 8 < MEM_WORDS
      ensures w == mem[Translate(mem[..], pml4Phys / 4096, v).value.phys / 8]
    {
      var t := Translate(mem[..], pml4Phys / 4096, v);
      w := mem[t.value.phys / 8];
    }

    /** A store through the page tables in memory. */
    method Store(v: Word, w: Word)
      requires mem.Length == MEM_WORDS
      requires var t := Translate(mem[..], pml4Phys / 4096, v);
               t.Some? && t.value.writable && t.value.phys / 8 < MEM_WORDS
      modifies mem
      ensures mem[..] == old(mem[..])[Translate(old(mem[..]), pml4Phys / 4096, v).value.phys / 8 := w]
    {
      var t := Translate(mem[..], pml4Phys / 4096, v);
      mem[t.value.phys / 8] := w;
    }

    /**
     The touch test: flip a word through the upper-half alias of `mmapPhys`, read it, put it back.
     The word is entry 0 of the live root table, and all four accesses reach it: the first read finds
     that entry, the second one the flipped entry, and in the end memory is as before.
     */
    method TouchTest(mmapPhys: Word, k: Regions) returns (word: Word, seen: Word)
      requires Valid() && SpaceIs(mem[..], pml4Phys / 4096, k)
      requires k.Sound() && k.touchPhys == mmapPhys == pml4Phys
      modifies mem
      ensures mem[..] == old(mem[..])
      ensures pml4Phys / 8 < mem.Length && word == mem[pml4Phys / 8]
      ensures forall i: nat | i < 64 :: Bit(seen, i) <==> Bit(word, i) != Bit(0xa5a5_a5a5_a5a5_a5a5, i)
    {
      hide WellFormed, SpaceIs, Translate, Regions.Sound, Xor, Bit;
      ghost var m, root := mem[..], pml4Phys / 4096;
      k.SoundBounds();
      TouchWord(m, tab, root, k, m[512 * root]);
      assert m[512 * root := m[512 * root]] == m;
      var testPtr := mmapPhys + UPPER_HALF;
      word := Load(testPtr);
      var flipped := Xor(word, TOUCH_MASK);
      TouchWord(m, tab, root, k, flipped);
      Store(testPtr, flipped);
      seen := Load(testPtr);
      Store(testPtr, word);
      assert mem[..] == m;
      forall i: nat | i < 64 ensures Bit(seen, i) <==> Bit(word, i) != Bit(0xa5a5_a5a5_a5a5_a5a5, i) {
        XorBit(word, TOUCH_MASK, i);
      }
    }
  }
}
