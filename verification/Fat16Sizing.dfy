/** The loop that sizes the FAT, for any disk size. */
module Fat16Sizing {

  const FAT_COUNT: int := 2

  /** `math.ceil(x / 512)`. */
  function CeilSectors(x: int): int {
    -((-x) / 512)
  }

  /** FAT entries plus two, before the FATs themselves take their sectors. */
  function Available(total: int, reserved: int, root: int): int {
    total - reserved - root + 2
  }

  /** One round of the loop: the FAT sectors needed when the FATs have `fat` sectors each. */
  function Next(a: int, fat: int): int {
    CeilSectors((a - FAT_COUNT * fat) * 2)
  }

  /** `fat` sectors are just enough: one entry for each cluster and the two reserved ones, no sector more. */
  predicate JustEnough(a: int, fat: int) {
    256 * (fat - 1) < a - FAT_COUNT * fat <= 256 * fat
  }

  lemma FixedPointIsJustEnough(a: int, fat: int)
    ensures Next(a, fat) == fat <==> JustEnough(a, fat)
  {
    var x := (a - 2 * fat) * 2;
    assert 512 * ((-x) / 512) <= -x < 512 * ((-x) / 512) + 512;
  }

  /** A size that is just enough exists exactly when `a` modulo 258 is neither 1 nor 2, and is then unique. */
  lemma JustEnoughExists(a: int)
    ensures a % 258 !in {1, 2} ==> JustEnough(a, (a + 257) / 258)
    ensures forall fat :: JustEnough(a, fat) ==> a % 258 !in {1, 2} && fat == (a + 257) / 258
  {
    forall fat | JustEnough(a, fat) ensures a % 258 !in {1, 2} && fat == (a + 257) / 258 {
      var r := a - 258 * (fat - 1);
      assert 2 < r <= 258 && a == 258 * (fat - 1) + r;
    }
  }

  /** How the distance to the fixed point `q` moves in one round. */
  lemma Contracts(a: int, q: int, fat: int)
    requires JustEnough(a, q)
    ensures var s, e := 258 * q - a, fat - q;
            && 0 <= s < 256
            && 256 * (q - Next(a, fat)) <= s + 2 * e < 256 * (q - Next(a, fat)) + 256
  {
    var x := (a - 2 * fat) * 2;
    assert 512 * ((-x) / 512) <= -x < 512 * ((-x) / 512) + 512;
  }

  /** After `i` rounds the distance `e` to the fixed point is this small; from round 6 on it is 0. */
  predicate Near(i: nat, s: int, e: int) {
    match i
    case 0 => -0x100_0000 <= e <= 0x100_0000
    case 1 => -0x2_0001 <= e <= 0x2_0001
    case 2 => -1026 <= e <= 1026
    case 3 => -10 <= e <= 10
    case 4 => -1 <= e <= 1
    case 5 => e == 0 || (e == 1 && s < 2) || (e == -1 && s >= 254)
    case _ => e == 0
  }

  lemma NearStep(i: nat, a: int, q: int, fat: int)
    requires JustEnough(a, q) && Near(i, 258 * q - a, fat - q)
    ensures Near(i + 1, 258 * q - a, Next(a, fat) - q)
  {
    Contracts(a, q, fat);
  }

  // ---------- When no size is just enough ----------

  /** Some size is just enough. */
  predicate HasSize(a: int) {
    a % 258 !in {1, 2}
  }

  /**
   Without a fixed point the sizes swing about `q` and `q + 1`: after `i` rounds the distance `e` to
   `q` is this small, on alternating sides, and from round 4 on the two sizes take turns.
   */
  predicate Swings(i: nat, e: int) {
    match i
    case 0 => -0x100_0000 <= e <= 0
    case 1 => 1 <= e <= 0x2_0002
    case 2 => -1026 <= e <= 0
    case 3 => 1 <= e <= 10
    case _ => e == i % 2
  }

  lemma NextBounds(a: int, fat: int)
    ensures 256 * (Next(a, fat) - 1) < a - FAT_COUNT * fat <= 256 * Next(a, fat)
  {
    var x := (a - 2 * fat) * 2;
    assert 512 * ((-x) / 512) <= -x < 512 * ((-x) / 512) + 512;
  }

  lemma SwingStep(i: nat, a: int, q: int, r: int, fat: int)
    requires a == 258 * q + r && 1 <= r <= 2 && Swings(i, fat - q)
    ensures Swings(i + 1, Next(a, fat) - q)
  {
    NextBounds(a, fat);
    assert 256 * (Next(a, fat) - q - 1) < r - 2 * (fat - q) <= 256 * (Next(a, fat) - q);
  }

  /** A disk of fewer than 258 sectors starts on the other side. */
  lemma SmallSwing(a: int, fat: int)
    requires 1 <= a <= 2 && 0 <= fat <= 1
    ensures Next(a, fat) == 1 - fat
  {
    NextBounds(a, fat);
  }

  /** Where the size stands after `i` rounds if no size is just enough. */
  predicate Unsettled(i: nat, a: int, fat: int) {
    if a < 258 then fat == (i + 1) % 2 else Swings(i, fat - a / 258)
  }

  lemma UnsettledStep(i: nat, a: int, fat: int)
    requires a >= 0 && !HasSize(a) && Unsettled(i, a, fat)
    ensures Unsettled(i + 1, a, Next(a, fat))
  {
    if a < 258 {
      assert a == a % 258;
      SmallSwing(a, fat);
    } else {
      SwingStep(i, a, a / 258, a % 258, fat);
    }
  }

  /** The FAT has an entry for every cluster and the two reserved ones. */
  predicate Covers(a: int, fat: int) {
    a - FAT_COUNT * fat <= 256 * fat
  }

  /** The smaller one of the two sizes is short of exactly `a % 258` entries. */
  lemma SmallerIsShort(a: int)
    requires a >= 258
    ensures a - FAT_COUNT * (a / 258) == 256 * (a / 258) + a % 258
    ensures a % 258 in {1, 2} ==> !Covers(a, a / 258) && Covers(a, a / 258 + 1)
  {
  }

  lemma FirstRound(a: int)
    requires 0 <= a < 0x1_0000_0000
    ensures var q := (a + 257) / 258;
            if HasSize(a) then JustEnough(a, q) && Near(0, 258 * q - a, 1 - q) else Unsettled(0, a, 1)
    ensures forall fat :: Next(a, fat) == fat ==> HasSize(a) && JustEnough(a, fat)
  {
    hide JustEnough, Next;
    JustEnoughExists(a);
    forall fat | Next(a, fat) == fat ensures JustEnough(a, fat) {
      FixedPointIsJustEnough(a, fat);
    }
  }

  /** A round that moves on is one of the first six. */
  lemma NextRound(i: nat, a: int, q: int, fat: int)
    requires JustEnough(a, q) && Near(i, 258 * q - a, fat - q) && Next(a, fat) != fat
    ensures i < 6 && Near(i + 1, 258 * q - a, Next(a, fat) - q)
  {
    hide Next;
    FixedPointIsJustEnough(a, q);
    NearStep(i, a, q, fat);
  }

  lemma LastRound(a: int, last: int, fat: int)
    requires a >= 0 && !HasSize(a) && Unsettled(19, a, last) && Unsettled(20, a, fat)
    ensures fat == (if a < 258 then 1 else a / 258) && last == (if a < 258 then 0 else a / 258 + 1)
    ensures Covers(a, fat) <==> a < 258
  {
    if a >= 258 {
      SmallerIsShort(a);
    }
  }

  lemma SizeCovers(a: int, fat: int)
    requires JustEnough(a, fat)
    ensures Covers(a, fat)
  {
  }

  /**
   The loop of at most 20 rounds. `settled` says that it left by its `break`; it does so exactly
   when some size is just enough, and then with that size. Otherwise it ends with the smaller one of
   the two sizes that take turns, although the count of clusters is the one for the larger: then the
   FAT is short of `a % 258` entries, except for a disk too small to hold a FAT.
   */
  method SizeFat(total: int, reserved: int, root: int) returns (fat: int, clusters: int, settled: bool)
    requires 0 <= Available(total, reserved, root) < 0x1_0000_0000
    ensures var a := Available(total, reserved, root);
            && (settled <==> HasSize(a))
            && (settled ==> JustEnough(a, fat) && clusters == total - reserved - root - FAT_COUNT * fat)
            && (!settled ==> fat == if a < 258 then 1 else a / 258)
            && (!settled ==> clusters == total - reserved - root - FAT_COUNT * if a < 258 then 0 else a / 258 + 1)
            && (Covers(a, fat) <==> settled || a < 258)
    // the same in sectors and clusters: 256 entries to a sector, one for each cluster and two reserved
    ensures settled <==> (total - reserved - root + 2) % 258 !in {1, 2}
    ensures settled ==> clusters == total - reserved - root - 2 * fat && 256 * (fat - 1) < clusters + 2 <= 256 * fat
    ensures !settled && total - reserved - root >= 256 ==> total - reserved - root - 2 * fat + 2 > 256 * fat
  {
    hide HasSize, JustEnough, Near, Unsettled, Covers, CeilSectors;
    ghost var a := Available(total, reserved, root);
    ghost var q := (a + 257) / 258;
    FirstRound(a);
    fat, clusters, settled := 1, 0, false;
    ghost var last := 0;
    for i := 0 to 20
      invariant !settled
      invariant HasSize(a) ==> i <= 6 && Near(i, 258 * q - a, fat - q)
      invariant !HasSize(a) ==> Unsettled(i, a, fat)
      invariant !HasSize(a) && i > 0 ==>
                  Unsettled(i - 1, a, last) && clusters == total - reserved - root - FAT_COUNT * last
    {
      clusters := total - reserved - root - FAT_COUNT * fat;
      var needed := CeilSectors((clusters + 2) * 2);
      assert needed == Next(a, fat);
      if needed == fat {
        settled := true;
        SizeCovers(a, fat);
        break;
      }
      if HasSize(a) {
        NextRound(i, a, q, fat);
      } else {
        UnsettledStep(i, a, fat);
      }
      last := fat;
      fat := needed;
    }
    if !settled {
      LastRound(a, last, fat);
    }
    InClusters(total, reserved, root, fat);
  }

  lemma InClusters(total: int, reserved: int, root: int, fat: int)
    ensures var a, sectors := Available(total, reserved, root), total - reserved - root;
            && (HasSize(a) <==> (sectors + 2) % 258 !in {1, 2})
            && (JustEnough(a, fat) <==> 256 * (fat - 1) < sectors - 2 * fat + 2 <= 256 * fat)
            && (Covers(a, fat) <==> sectors - 2 * fat + 2 <= 256 * fat)
  {
  }
}
