/** The bytes of word memory: little-endian bytes of a word, byte stores, and copying bytes into memory. */
module ByteMemory {
  import opened Bytes
  import opened Words

  /** Byte `k` of a word, low byte first. */
  function ByteOf(w: nat, k: nat): Byte {
    if k == 0 then w % 256 else ByteOf(w / 256, k - 1)
  }

  /** `w` with byte `k` replaced. */
  function SetByte(w: nat, k: nat, x: Byte): nat {
    if k == 0 then w - w % 256 + x else w % 256 + 256 * SetByte(w / 256, k - 1, x)
  }

  /** The byte at address `a`. */
  function ByteAt(m: seq<Word>, a: nat): Byte
    requires a < 8 * |m|
  {
    ByteOf(m[a / 8], a % 8)
  }

  lemma {:induction false} SetByteReads(w: nat, k: nat, x: Byte, j: nat)
    ensures ByteOf(SetByte(w, k, x), j) == if j == k then x else ByteOf(w, j)
  {
    var r := SetByte(w, k, x);
    if k == 0 {
      assert r == 256 * (w / 256) + x;
      assert r / 256 == w / 256 && r % 256 == x;
    } else {
      assert r / 256 == SetByte(w / 256, k - 1, x) && r % 256 == w % 256;
      if j > 0 {
        SetByteReads(w / 256, k - 1, x, j - 1);
      }
    }
  }

  /** The bound `256^n`. */
  function Limit(n: nat): nat {
    if n == 0 then 1 else 256 * Limit(n - 1)
  }

  lemma DropByte(w: nat, limit: nat)
    requires w < 256 * limit
    ensures w / 256 < limit
  {
    assert w == 256 * (w / 256) + w % 256;
  }

  lemma AddByte(high: nat, x: Byte, limit: nat)
    requires high < limit
    ensures 256 * high + x < 256 * limit
  {
  }

  lemma {:induction false} SetByteFits(w: nat, k: nat, x: Byte, n: nat)
    requires k < n && w < Limit(n)
    ensures SetByte(w, k, x) < Limit(n)
  {
    var limit := Limit(n - 1);
    assert Limit(n) == 256 * limit;
    DropByte(w, limit);
    if k == 0 {
      assert SetByte(w, k, x) == 256 * (w / 256) + x;
      AddByte(w / 256, x, limit);
    } else {
      SetByteFits(w / 256, k - 1, x, n - 1);
      AddByte(SetByte(w / 256, k - 1, x), w % 256, limit);
    }
  }

  lemma LimitOfWord()
    ensures Limit(8) == WORD_LIMIT
  {
  }

  /** Memory holds the bytes `s` from address `a` on. */
  ghost predicate Holds(m: seq<Word>, a: nat, s: seq<Byte>) {
    a + |s| <= 8 * |m| && forall i | 0 <= i < |s| :: ByteAt(m, a + i) == s[i]
  }

  /** From `before` to `m`, exactly the bytes from `a` on became `s`. */
  ghost predicate Stored(before: seq<Word>, m: seq<Word>, a: nat, s: seq<Byte>) {
    && |m| == |before| && a + |s| <= 8 * |m|
    && forall c | 0 <= c < 8 * |m| :: ByteAt(m, c) == if a <= c < a + |s| then s[c - a] else ByteAt(before, c)
  }

  lemma StoreOne(before: seq<Word>, m: seq<Word>, a: nat, x: Byte)
    requires a < 8 * |before| && SetByte(before[a / 8], a % 8, x) < WORD_LIMIT
    requires m == before[a / 8 := SetByte(before[a / 8], a % 8, x)]
    ensures Stored(before, m, a, [x])
  {
    forall c | 0 <= c < 8 * |m|
      ensures ByteAt(m, c) == if a <= c < a + 1 then x else ByteAt(before, c)
    {
      if c / 8 == a / 8 {
        SetByteReads(before[a / 8], a % 8, x, c % 8);
      }
    }
  }

  lemma StoreMore(m0: seq<Word>, m1: seq<Word>, m2: seq<Word>, a: nat, s: seq<Byte>, x: Byte)
    requires Stored(m0, m1, a, s) && Stored(m1, m2, a + |s|, [x])
    ensures Stored(m0, m2, a, s + [x])
  {
    hide ByteAt;
  }

  /** One byte store. */
  method StoreByte(mem: array<Word>, a: nat, x: Byte)
    requires a < 8 * mem.Length
    modifies mem
    ensures Stored(old(mem[..]), mem[..], a, [x])
  {
    hide Stored;
    var w := SetByte(mem[a / 8], a % 8, x);
    LimitOfWord();
    SetByteFits(mem[a / 8], a % 8, x, 8);
    mem[a / 8] := w;
    StoreOne(old(mem[..]), mem[..], a, x);
  }

  /** `for (i = 0; i < length; ++i) dst[i] = source[i]`. */
  method CopyBytes(mem: array<Word>, a: nat, source: seq<Byte>, length: nat)
    requires length <= |source| && a + length <= 8 * mem.Length
    modifies mem
    ensures Stored(old(mem[..]), mem[..], a, source[..length])
  {
    hide Stored;
    StoreNothing(mem[..], a);
    for i := 0 to length
      invariant Stored(old(mem[..]), mem[..], a, source[..i])
    {
      ghost var m1 := mem[..];
      StoreByte(mem, a + i, source[i]);
      assert source[..i + 1] == source[..i] + [source[i]];
      StoreMore(old(mem[..]), m1, mem[..], a, source[..i], source[i]);
    }
  }

  lemma StoreNothing(m: seq<Word>, a: nat)
    requires a <= 8 * |m|
    ensures Stored(m, m, a, [])
  {
  }

  lemma StoredHolds(before: seq<Word>, m: seq<Word>, a: nat, s: seq<Byte>)
    requires Stored(before, m, a, s)
    ensures Holds(m, a, s)
  {
    hide ByteAt;
  }

  /** A store leaves bytes apart from it in place. */
  lemma StoreKeeps(before: seq<Word>, m: seq<Word>, a: nat, s: seq<Byte>, b: nat, t: seq<Byte>)
    requires Stored(before, m, a, s) && Holds(before, b, t) && (b + |t| <= a || a + |s| <= b)
    ensures Holds(m, b, t)
  {
    hide ByteAt;
    forall i | 0 <= i < |t| ensures ByteAt(m, b + i) == t[i] {
      assert ByteAt(m, b + i) == ByteAt(before, b + i);
    }
  }

  /** The `n` bytes from address `a` on. */
  function BytesAt(m: seq<Word>, a: nat, n: nat): (s: seq<Byte>)
    requires a + n <= 8 * |m|
    ensures |s| == n && forall i | 0 <= i < n :: s[i] == ByteAt(m, a + i)
  {
    if n == 0 then [] else BytesAt(m, a, n - 1) + [ByteAt(m, a + n - 1)]
  }

  /** Bytes that memory holds are read back, in whole and in part. */
  lemma HeldBytes(m: seq<Word>, a: nat, s: seq<Byte>, at: nat, n: nat)
    requires Holds(m, a, s) && at + n <= |s|
    ensures a + |s| <= 8 * |m| && BytesAt(m, a + at, n) == s[at..at + n]
  {
    hide ByteAt;
    var t := BytesAt(m, a + at, n);
    forall i | 0 <= i < n ensures t[i] == s[at..at + n][i] {
      assert ByteAt(m, a + (at + i)) == s[at + i];
    }
  }

  // ---------- Words and their bytes ----------

  lemma NextPair(w: nat, k: nat)
    ensures ByteOf(w, k + 2) == ByteOf(w / 0x1_0000, k)
  {
    assert w / 256 / 256 == w / 0x1_0000;
    assert ByteOf(w, k + 2) == ByteOf(w / 256, k + 1);
  }

  lemma LowPair(w: nat)
    ensures (ByteOf(w, 0) as int) + 256 * (ByteOf(w, 1) as int) == w % 0x1_0000
  {
    assert ByteOf(w, 1) == ByteOf(w / 256, 0);
    TwoBytes(w, w / 256);
  }

  /** Pair `i` of the bytes of a word is its `i`-th digit of 16 bits. */
  lemma PairOf(s: seq<Byte>, at: nat, w: nat)
    requires at + 2 <= |s| && s[at] == ByteOf(w, 0) && s[at + 1] == ByteOf(w, 1)
    ensures Get16(s, at) == w % 0x1_0000
  {
    hide ByteOf;
    LowPair(w);
  }

  lemma HalfOf(s: seq<Byte>, at: nat, w: nat)
    requires at + 4 <= |s| && forall k | 0 <= k < 4 :: s[at + k] == ByteOf(w, k)
    ensures Get32(s, at) == w % 0x1_0000_0000
  {
    hide ByteOf, Get16;
    var h := w / 0x1_0000;
    NextPair(w, 0);
    NextPair(w, 1);
    assert s[at + 0] == ByteOf(w, 0) && s[at + 2] == ByteOf(w, 2);
    PairOf(s, at, w);
    PairOf(s, at + 2, h);
    TwoHalves(w, h);
  }

  lemma FourFurther(w: nat, k: nat)
    ensures ByteOf(w, k + 4) == ByteOf(w / 0x1_0000_0000, k)
  {
    hide ByteOf;
    NextPair(w, k + 2);
    NextPair(w / 0x1_0000, k);
    assert w / 0x1_0000 / 0x1_0000 == w / 0x1_0000_0000;
  }

  lemma BytesOfWord(m: seq<Word>, j: nat)
    requires j < |m|
    ensures forall k | 0 <= k < 8 :: BytesAt(m, 8 * j, 8)[k] == ByteOf(m[j], k)
  {
    hide ByteOf;
    forall k | 0 <= k < 8 ensures BytesAt(m, 8 * j, 8)[k] == ByteOf(m[j], k) {
      assert (8 * j + k) / 8 == j && (8 * j + k) % 8 == k;
    }
  }

  /** Memory is little-endian: the eight bytes from a word address on, read as a field, are the word. */
  lemma WordAt(m: seq<Word>, j: nat)
    requires j < |m|
    ensures Get64(BytesAt(m, 8 * j, 8), 0) == m[j]
  {
    hide Get32, ByteOf, BytesAt;
    var s, w := BytesAt(m, 8 * j, 8), m[j];
    var h := w / 0x1_0000_0000;
    BytesOfWord(m, j);
    HalfOf(s, 0, w);
    forall k | 0 <= k < 4 ensures s[4 + k] == ByteOf(h, k) {
      FourFurther(w, k);
    }
    HalfOf(s, 4, h);
    TwoWords(w, h);
  }
}
