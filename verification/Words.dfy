/** 64-bit machine words, page arithmetic, and the bit operations the kernel applies to them. */
module Words {

  type Word = x: int | 0 <= x < 0x1_0000_0000_0000_0000

  const WORD_LIMIT: int := 0x1_0000_0000_0000_0000
  const PAGE_SIZE: int := 4096

  /** Physical addresses in use lie below 2^47. */
  const TOP: int := 0x8000_0000_0000

  /** `x & ~(PAGE_SIZE - 1)`. */
  function PageAlignDown(x: Word): (r: Word)
    ensures r <= x < r + PAGE_SIZE && r % PAGE_SIZE == 0
  {
    x - x % PAGE_SIZE
  }

  /** `(x + PAGE_SIZE - 1) & ~(PAGE_SIZE - 1)`, with the addition wrapping at 64 bits. */
  function PageAlignUp(x: Word): (r: Word)
    ensures r % PAGE_SIZE == 0
    ensures x <= WORD_LIMIT - PAGE_SIZE ==> x <= r < x + PAGE_SIZE
    ensures x > WORD_LIMIT - PAGE_SIZE ==> r == 0
  {
    var y := (x + PAGE_SIZE - 1) % WORD_LIMIT;
    y - y % PAGE_SIZE
  }

  /** Page boundaries stay where they are. */
  lemma AlignedStays(x: Word)
    requires x % 4096 == 0 && x <= TOP
    ensures PageAlignUp(x) == x && PageAlignDown(x) == x
  {
    LowStays(x + PAGE_SIZE - 1);
    var q := x / 4096;
    assert x + PAGE_SIZE - 1 == 4096 * q + 4095;
  }

  lemma LowStays(x: nat)
    requires x < WORD_LIMIT
    ensures x % WORD_LIMIT == x
  {
  }

  ghost function Pow2(n: nat): (r: int)
    ensures r > 0
  {
    if n == 0 then 1 else 2 * Pow2(n - 1)
  }

  lemma Pow2Byte(n: nat)
    ensures Pow2(n + 8) == 256 * Pow2(n)
  {
    assert Pow2(n + 2) == 4 * Pow2(n);
    assert Pow2(n + 4) == 4 * Pow2(n + 2);
    assert Pow2(n + 6) == 4 * Pow2(n + 4);
    assert Pow2(n + 8) == 4 * Pow2(n + 6);
  }

  lemma Pow2Word()
    ensures Pow2(WORD_BITS) == WORD_LIMIT
  {
    Pow2Byte(0); Pow2Byte(8); Pow2Byte(16); Pow2Byte(24);
    Pow2Byte(32); Pow2Byte(40); Pow2Byte(48); Pow2Byte(56);
  }

  /** Bitwise exclusive or of the low `n` bits. */
  function XorBits(a: nat, b: nat, n: nat): (r: nat)
    ensures r < Pow2(n)
  {
    if n == 0 then 0
    else
      var bit := (a + b) % 2;
      var rest := XorBits(a / 2, b / 2, n - 1);
      bit + 2 * rest
  }

  const WORD_BITS: nat := 64

  /** `a ^ b` on 64-bit words. */
  function Xor(a: Word, b: Word): Word {
    Pow2Word();
    XorBits(a, b, WORD_BITS)
  }

  lemma XorLowBit(a: Word, b: Word)
    ensures Xor(a, b) % 2 == (a + b) % 2
  {
    XorBitsLow(a, b, WORD_BITS);
  }

  lemma XorBitsLow(a: nat, b: nat, n: nat)
    requires n > 0
    ensures XorBits(a, b, n) % 2 == (a + b) % 2
  {
    LowBitFirst((a + b) % 2, XorBits(a / 2, b / 2, n - 1));
  }

  lemma LowBitFirst(bit: nat, rest: nat)
    requires bit < 2
    ensures (bit + 2 * rest) % 2 == bit
  {
  }

  /** Bit `i` of `x` is set. */
  predicate Bit(x: nat, i: nat) {
    if i == 0 then x % 2 == 1 else Bit(x / 2, i - 1)
  }

  lemma DropLowBit(bit: nat, rest: nat)
    requires bit < 2
    ensures (bit + 2 * rest) / 2 == rest && (bit + 2 * rest) % 2 == bit
  {
  }

  lemma SumParity(a: nat, b: nat)
    ensures (a + b) % 2 == 1 <==> (a % 2 == 1) != (b % 2 == 1)
  {
    assert a == 2 * (a / 2) + a % 2 && b == 2 * (b / 2) + b % 2;
  }

  lemma {:induction false} XorBitsBit(a: nat, b: nat, n: nat, i: nat)
    requires i < n
    ensures Bit(XorBits(a, b, n), i) <==> Bit(a, i) != Bit(b, i)
  {
    DropLowBit((a + b) % 2, XorBits(a / 2, b / 2, n - 1));
    if i == 0 {
      SumParity(a, b);
    } else {
      XorBitsBit(a / 2, b / 2, n - 1, i - 1);
    }
  }

  /** A bit of the exclusive or is set exactly if one of the two bits is. */
  lemma XorBit(a: Word, b: Word, i: nat)
    requires i < 64
    ensures Bit(Xor(a, b), i) <==> Bit(a, i) != Bit(b, i)
  {
    XorBitsBit(a, b, WORD_BITS, i);
  }

  lemma HalfBelow(a: nat, limit: nat)
    requires a < 2 * limit
    ensures a / 2 < limit && a == a % 2 + 2 * (a / 2)
  {
  }

  lemma FlipBack(a: nat, b: nat, rest: nat)
    ensures ((a + b) % 2 + 2 * rest + b) % 2 == a % 2
  {
    var k := (a + b) / 2;
    assert a + b == 2 * k + (a + b) % 2;
    assert (a + b) % 2 + 2 * rest + b == a + 2 * (b + rest - k);
  }

  lemma {:induction false} XorBitsTwice(a: nat, b: nat, n: nat)
    requires a < Pow2(n)
    ensures XorBits(XorBits(a, b, n), b, n) == a
  {
    if n > 0 {
      HalfBelow(a, Pow2(n - 1));
      XorBitsTwice(a / 2, b / 2, n - 1);
      var rest := XorBits(a / 2, b / 2, n - 1);
      DropLowBit((a + b) % 2, rest);
      FlipBack(a, b, rest);
      assert XorBits(a, b, n) == (a + b) % 2 + 2 * rest;
    }
  }

  /** Flipping the same bits again gives back the word. */
  lemma XorTwice(a: Word, b: Word)
    ensures Xor(Xor(a, b), b) == a
  {
    Pow2Word();
    XorBitsTwice(a, b, WORD_BITS);
  }
}
