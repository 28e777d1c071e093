/**
 Which pages the stage-1 allocator hands out, and in which order: first the scratch pool, a bump
 region that starts at the memory-map buffer, then the cached conventional ranges.
 All addresses are byte addresses.
 */
module PageAllocator {
  import opened Words

  /** A conventional memory range; `end` is exclusive. */
  datatype Range = Range(start: nat, end: nat)

  datatype Layout = Layout(
    kernelPhys: nat, kernelEnd: nat, stackPhys: nat, stackEnd: nat,
    scratch: nat, scratchEnd: nat, ranges: seq<Range>)
  {
    predicate InKernelOrStack(p: nat) {
      kernelPhys <= p < kernelEnd || stackPhys <= p < stackEnd
    }

    /** `pageOverlapsReserved`, with the current scratch cursor. */
    predicate Reserved(p: nat, scratchNext: nat) {
      InKernelOrStack(p) || scratch <= p < scratchNext
    }

    /** Page-aligned bounds below 2^47. */
    predicate Aligned() {
      && kernelPhys % 4096 == kernelEnd % 4096 == stackPhys % 4096 == stackEnd % 4096 == 0
      && scratch % 4096 == scratchEnd % 4096 == 0 && scratch <= scratchEnd <= TOP
      && forall i | 0 <= i < |ranges| ::
           ranges[i].start % 4096 == ranges[i].end % 4096 == 0 && ranges[i].end <= TOP
    }

    predicate Disjoint() {
      forall i, j | 0 <= i < j < |ranges| :: ranges[i].end <= ranges[j].start || ranges[j].end <= ranges[i].start
    }
  }

  // ---------- The order of pages ----------

  function ScratchPages(l: Layout, next: nat): seq<nat>
    decreases l.scratchEnd - next
  {
    if next + PAGE_SIZE > l.scratchEnd then []
    else if l.InKernelOrStack(next) then ScratchPages(l, next + PAGE_SIZE)
    else [next] + ScratchPages(l, next + PAGE_SIZE)
  }

  /** Where the scratch cursor stops. */
  function ScratchStop(l: Layout, next: nat): nat
    decreases l.scratchEnd - next
  {
    if next + PAGE_SIZE > l.scratchEnd then next else ScratchStop(l, next + PAGE_SIZE)
  }

  function RangePages(l: Layout, stop: nat, next: nat, end: nat): seq<nat>
    decreases end - next
  {
    if next >= end then []
    else if l.Reserved(next, stop) then RangePages(l, stop, next + PAGE_SIZE, end)
    else [next] + RangePages(l, stop, next + PAGE_SIZE, end)
  }

  /** The pages left in the ranges from `idx` on; `next == 0` says that range `idx` is not started. */
  function FallbackPages(l: Layout, stop: nat, idx: nat, next: nat): seq<nat>
    decreases |l.ranges| - idx
  {
    if idx >= |l.ranges| then []
    else
      var from := if next == 0 then l.ranges[idx].start else next;
      RangePages(l, stop, from, l.ranges[idx].end) + FallbackPages(l, stop, idx + 1, 0)
  }

  /** Every page the allocator will still hand out, in order. */
  function Remaining(l: Layout, scratchNext: nat, fbIdx: nat, fbNext: nat): seq<nat> {
    ScratchPages(l, scratchNext) + FallbackPages(l, ScratchStop(l, scratchNext), fbIdx, fbNext)
  }

  /** Everything the allocator can ever hand out. */
  function Pool(l: Layout): seq<nat> {
    Remaining(l, l.scratch, 0, 0)
  }

  lemma ScratchStep(l: Layout, next: nat, idx: nat, fbNext: nat)
    requires next + PAGE_SIZE <= l.scratchEnd
    ensures Remaining(l, next, idx, fbNext) ==
            (if l.InKernelOrStack(next) then [] else [next]) + Remaining(l, next + PAGE_SIZE, idx, fbNext)
  {
  }

  lemma ScratchDone(l: Layout, next: nat)
    requires next + PAGE_SIZE > l.scratchEnd
    ensures ScratchPages(l, next) == [] && ScratchStop(l, next) == next
  {
  }

  lemma RangeNext(l: Layout, stop: nat, next: nat, end: nat)
    requires next < end
    ensures RangePages(l, stop, next, end) ==
            (if l.Reserved(next, stop) then [] else [next]) + RangePages(l, stop, next + PAGE_SIZE, end)
  {
  }

  lemma FallbackFrom(l: Layout, stop: nat, idx: nat, next: nat)
    requires idx < |l.ranges| && (next == 0 ==> l.ranges[idx].start == 0)
    ensures FallbackPages(l, stop, idx, next) ==
            RangePages(l, stop, next, l.ranges[idx].end) + FallbackPages(l, stop, idx + 1, 0)
  {
  }

  lemma RangeStep(l: Layout, scratchNext: nat, idx: nat, next: nat)
    requires scratchNext + PAGE_SIZE > l.scratchEnd && idx < |l.ranges|
    requires (next == 0 ==> l.ranges[idx].start == 0) && next < l.ranges[idx].end
    ensures Remaining(l, scratchNext, idx, next) ==
            (if l.Reserved(next, scratchNext) then [] else [next]) + Remaining(l, scratchNext, idx, next + PAGE_SIZE)
  {
    hide Layout.Reserved, ScratchPages, ScratchStop, FallbackPages, RangePages;
    ScratchDone(l, scratchNext);
    var end := l.ranges[idx].end;
    RangeNext(l, scratchNext, next, end);
    FallbackFrom(l, scratchNext, idx, next);
    FallbackFrom(l, scratchNext, idx, next + PAGE_SIZE);
  }

  lemma RangeBegins(l: Layout, scratchNext: nat, idx: nat)
    requires idx < |l.ranges|
    ensures Remaining(l, scratchNext, idx, 0) == Remaining(l, scratchNext, idx, l.ranges[idx].start)
  {
  }

  lemma NothingLeft(l: Layout, scratchNext: nat, idx: nat, next: nat)
    requires scratchNext + PAGE_SIZE > l.scratchEnd && idx >= |l.ranges|
    ensures Remaining(l, scratchNext, idx, next) == []
  {
  }

  lemma RangeDone(l: Layout, scratchNext: nat, idx: nat, next: nat)
    requires scratchNext + PAGE_SIZE > l.scratchEnd && idx < |l.ranges|
    requires (next == 0 ==> l.ranges[idx].start == 0) && next >= l.ranges[idx].end
    ensures Remaining(l, scratchNext, idx, next) == Remaining(l, scratchNext, idx + 1, 0)
  {
  }

  // ---------- What the pool contains ----------

  ghost predicate Distinct(s: seq<nat>) {
    forall i, j | 0 <= i < j < |s| :: s[i] != s[j]
  }

  /** In ascending order. */
  ghost predicate Ascending(s: seq<nat>) {
    forall i, j | 0 <= i < j < |s| :: s[i] < s[j]
  }

  lemma DistinctConcat(s: seq<nat>, t: seq<nat>)
    requires Distinct(s) && Distinct(t) && forall p | p in s :: p !in t
    ensures Distinct(s + t)
  {
    forall i, j | 0 <= i < j < |s + t| ensures (s + t)[i] != (s + t)[j] {
      if i < |s| <= j {
        assert s[i] in s && t[j - |s|] in t;
      }
    }
  }

  /** A usable page of the scratch region from `next` on. */
  predicate UsableScratch(l: Layout, next: nat, p: nat) {
    p % 4096 == 0 && next <= p && p + PAGE_SIZE <= l.scratchEnd && !l.InKernelOrStack(p)
  }

  predicate UsableIn(l: Layout, stop: nat, next: nat, end: nat, p: nat) {
    p % 4096 == 0 && next <= p < end && !l.Reserved(p, stop)
  }

  lemma {:induction false} ScratchPagesExact(l: Layout, next: nat)
    requires next % 4096 == 0
    ensures forall p: nat :: p in ScratchPages(l, next) <==> UsableScratch(l, next, p)
    ensures Distinct(ScratchPages(l, next)) && Ascending(ScratchPages(l, next))
    decreases l.scratchEnd - next
  {
    if next + PAGE_SIZE <= l.scratchEnd {
      ScratchPagesExact(l, next + PAGE_SIZE);
      var rest := ScratchPages(l, next + PAGE_SIZE);
      forall p: nat ensures p in ScratchPages(l, next) <==> UsableScratch(l, next, p) {
        assert p in rest <==> UsableScratch(l, next + PAGE_SIZE, p);
      }
      forall j | 0 <= j < |rest| ensures next < rest[j] {
        assert rest[j] in rest && UsableScratch(l, next + PAGE_SIZE, rest[j]);
      }
    }
  }

  lemma {:induction false} ScratchStopExact(l: Layout, next: nat)
    requires next % 4096 == 0 && l.scratchEnd % 4096 == 0 && next <= l.scratchEnd
    ensures ScratchStop(l, next) == l.scratchEnd
    decreases l.scratchEnd - next
  {
    if next + PAGE_SIZE <= l.scratchEnd {
      ScratchStopExact(l, next + PAGE_SIZE);
    }
  }

  lemma {:induction false} RangePagesExact(l: Layout, stop: nat, next: nat, end: nat)
    requires next % 4096 == 0
    ensures forall p: nat :: p in RangePages(l, stop, next, end) <==> UsableIn(l, stop, next, end, p)
    ensures Distinct(RangePages(l, stop, next, end)) && Ascending(RangePages(l, stop, next, end))
    decreases end - next
  {
    if next < end {
      RangePagesExact(l, stop, next + PAGE_SIZE, end);
      var rest := RangePages(l, stop, next + PAGE_SIZE, end);
      forall p: nat ensures p in RangePages(l, stop, next, end) <==> UsableIn(l, stop, next, end, p) {
        assert p in rest <==> UsableIn(l, stop, next + PAGE_SIZE, end, p);
      }
      forall j | 0 <= j < |rest| ensures next < rest[j] {
        assert rest[j] in rest && UsableIn(l, stop, next + PAGE_SIZE, end, rest[j]);
      }
    }
  }

  lemma {:induction false} FallbackPagesExact(l: Layout, stop: nat, idx: nat)
    requires l.Aligned() && idx <= |l.ranges|
    ensures forall p: nat :: p in FallbackPages(l, stop, idx, 0) <==>
              exists i :: idx <= i < |l.ranges| && UsableIn(l, stop, l.ranges[i].start, l.ranges[i].end, p)
    decreases |l.ranges| - idx
  {
    if idx < |l.ranges| {
      RangePagesExact(l, stop, l.ranges[idx].start, l.ranges[idx].end);
      FallbackPagesExact(l, stop, idx + 1);
    }
  }

  lemma {:induction false} FallbackPagesDistinct(l: Layout, stop: nat, idx: nat)
    requires l.Aligned() && l.Disjoint() && idx <= |l.ranges|
    ensures Distinct(FallbackPages(l, stop, idx, 0))
    decreases |l.ranges| - idx
  {
    if idx < |l.ranges| {
      var here := RangePages(l, stop, l.ranges[idx].start, l.ranges[idx].end);
      var rest := FallbackPages(l, stop, idx + 1, 0);
      RangePagesExact(l, stop, l.ranges[idx].start, l.ranges[idx].end);
      FallbackPagesExact(l, stop, idx + 1);
      FallbackPagesDistinct(l, stop, idx + 1);
      forall p | p in here ensures p !in rest {
        assert UsableIn(l, stop, l.ranges[idx].start, l.ranges[idx].end, p);
      }
      DistinctConcat(here, rest);
    }
  }

  /** The pool is exactly the usable pages of both sources. */
  lemma PoolExact(l: Layout)
    requires l.Aligned()
    ensures forall p: nat :: p in Pool(l) <==>
              || UsableScratch(l, l.scratch, p)
              || exists i :: 0 <= i < |l.ranges| && UsableIn(l, l.scratchEnd, l.ranges[i].start, l.ranges[i].end, p)
  {
    ScratchPagesExact(l, l.scratch);
    ScratchStopExact(l, l.scratch);
    FallbackPagesExact(l, l.scratchEnd, 0);
  }

  /** Pages of the pool are distinct, aligned, below 2^47 and outside the kernel and the stack. */
  lemma PoolSafe(l: Layout)
    requires l.Aligned() && l.Disjoint()
    ensures Distinct(Pool(l))
    ensures forall p | p in Pool(l) :: p % 4096 == 0 && p < TOP && !l.InKernelOrStack(p)
  {
    PoolExact(l);
    ScratchPagesExact(l, l.scratch);
    ScratchStopExact(l, l.scratch);
    FallbackPagesExact(l, l.scratchEnd, 0);
    FallbackPagesDistinct(l, l.scratchEnd, 0);
    forall p | p in ScratchPages(l, l.scratch) ensures p !in FallbackPages(l, l.scratchEnd, 0, 0) {
      assert UsableScratch(l, l.scratch, p);
    }
    DistinctConcat(ScratchPages(l, l.scratch), FallbackPages(l, l.scratchEnd, 0, 0));
  }

  // ---------- Page 0 ----------

  /** Range `i` offers page 0. */
  predicate OffersPageZero(l: Layout, i: nat) {
    i < |l.ranges| && l.ranges[i].start == 0 < l.ranges[i].end && !l.InKernelOrStack(0)
  }

  /** Page 0 is in the pool exactly if a conventional range begins with it, and neither kernel nor stack holds it. */
  lemma PageZeroInPool(l: Layout)
    requires l.Aligned() && l.scratch > 0
    ensures 0 in Pool(l) <==> exists i :: OffersPageZero(l, i)
  {
    hide Pool;
    PoolExact(l);
    assert !UsableScratch(l, l.scratch, 0);
    forall i: nat | i < |l.ranges|
      ensures UsableIn(l, l.scratchEnd, l.ranges[i].start, l.ranges[i].end, 0) <==> OffersPageZero(l, i)
    {
    }
    if 0 in Pool(l) {
      var i :| 0 <= i < |l.ranges| && UsableIn(l, l.scratchEnd, l.ranges[i].start, l.ranges[i].end, 0);
      assert OffersPageZero(l, i);
    }
  }

  /** The pages of the ranges before range `i`. */
  function FallbackBefore(l: Layout, stop: nat, i: nat): seq<nat> {
    if i == 0 || i > |l.ranges| then []
    else FallbackBefore(l, stop, i - 1) + RangePages(l, stop, l.ranges[i - 1].start, l.ranges[i - 1].end)
  }

  lemma {:induction false} FallbackSplits(l: Layout, stop: nat, i: nat)
    requires i <= |l.ranges|
    ensures FallbackPages(l, stop, 0, 0) == FallbackBefore(l, stop, i) + FallbackPages(l, stop, i, 0)
  {
    hide RangePages;
    if i > 0 {
      FallbackSplits(l, stop, i - 1);
      var here := RangePages(l, stop, l.ranges[i - 1].start, l.ranges[i - 1].end);
      var rest := FallbackPages(l, stop, i, 0);
      assert FallbackBefore(l, stop, i - 1) + (here + rest) == (FallbackBefore(l, stop, i - 1) + here) + rest;
    }
  }

  /** How many pages come before page 0, if range `i` offers it. */
  function PageZeroIndex(l: Layout, i: nat): nat {
    |ScratchPages(l, l.scratch)| + |FallbackBefore(l, l.scratchEnd, i)|
  }

  lemma PageZeroAt(l: Layout, i: nat)
    requires l.Aligned() && l.scratch > 0 && OffersPageZero(l, i)
    ensures PageZeroIndex(l, i) < |Pool(l)| && Pool(l)[PageZeroIndex(l, i)] == 0
  {
    hide RangePages, ScratchPages, FallbackBefore, ScratchStop, Layout.InKernelOrStack;
    ScratchStopExact(l, l.scratch);
    FallbackSplits(l, l.scratchEnd, i);
    RangeFromZero(l, l.scratchEnd, l.ranges[i].end);
    var front := ScratchPages(l, l.scratch) + FallbackBefore(l, l.scratchEnd, i);
    var rest := FallbackPages(l, l.scratchEnd, i, 0);
    assert rest[0] == 0;
    assert Pool(l) == front + rest;
  }

  lemma RangeFromZero(l: Layout, stop: nat, end: nat)
    requires end > 0 && l.scratch > 0 && !l.InKernelOrStack(0)
    ensures RangePages(l, stop, 0, end) != [] && RangePages(l, stop, 0, end)[0] == 0
  {
  }
}
