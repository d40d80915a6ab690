/** The layout of a slab: how many objects fit before the metadata, and the
    bitmap that says which of them are in use. */
module SlabLayout {
  import opened Addresses
  import opened Bits
  import opened Division

  /** OBJS_PER_WORD */
  const WORD_BITS: nat := 64

  /** MIN_POOL_OBJS, which the layout aims at and may miss. */
  const MIN_POOL_OBJS: nat := 8

  // ---- arithmetic ----

  function Ceil(dividend: nat, divisor: nat): nat
    requires divisor > 0
  {
    (dividend + divisor - 1) / divisor
  }

  function AlignUp(size: nat, align: nat): nat
    requires align > 0
  {
    align * Ceil(size, align)
  }

  function AlignDown(size: nat, align: nat): nat
    requires align > 0
  {
    align * (size / align)
  }

  /** The least multiple of `align` that is not below `size`. */
  lemma AlignUpLeast(size: nat, align: nat)
    requires align > 0
    ensures size <= AlignUp(size, align) < size + align && AlignUp(size, align) % align == 0
  {
    Multiple(Ceil(size, align), align);
    Quotient(size + align - 1, align);
  }

  /** `align_down` of any address of an aligned block is the block. */
  lemma AlignDownFinds(base: nat, size: nat, addr: nat)
    requires size > 0 && base % size == 0 && base <= addr < base + size
    ensures AlignDown(addr, size) == base
  {
    Quotient(base, size);
    QuotientIs(addr, size, base / size);
  }

  /** `meta_size`: `struct mem_pool` holds one word of the bitmap, the others
      follow it.  The subtraction wraps to the same result for no objects. */
  function MetaSize(objs: nat): nat
  {
    AlignUp(48 + 8 * Ceil(objs, WORD_BITS) - 8, 8)
  }

  lemma MetaSizeIs(objs: nat)
    ensures MetaSize(objs) == 40 + 8 * Ceil(objs, WORD_BITS)
  {
  }

  /** `ilog2`: the least power with 2^power >= x. */
  method Ilog2(x: nat) returns (power: nat)
    ensures x <= Pow2(power) && (power > 0 ==> Pow2(power - 1) < x)
  {
    var val := 1;
    power := 0;
    while val < x
      invariant val == Pow2(power) && (power > 0 ==> Pow2(power - 1) < x)
      decreases x - val
    {
      val := 2 * val;
      power := power + 1;
    }
  }

  /** The fields of `struct mem_cache` that the layout fixes. */
  datatype Layout = Layout(metaOffs: nat, objCount: nat, maskWords: nat, objSize: nat, poolOrder: nat)

  /** Bytes of one pool. */
  function PoolSize(l: Layout): (n: nat)
    ensures n > 0
  {
    PAGE_SIZE * Pow2(l.poolOrder)
  }

  predicate Fits(objSize: nat, objs: nat, poolSize: nat)
  {
    objSize * objs + MetaSize(objs) <= poolSize
  }

  /** Objects first, metadata last, and no room for one object more. */
  ghost predicate GoodLayout(l: Layout)
  {
    && l.objSize > 0 && l.objCount >= 3
    && l.objSize * l.objCount <= l.metaOffs
    && l.metaOffs + MetaSize(l.objCount) == PoolSize(l)
    && l.maskWords == Ceil(l.objCount, WORD_BITS)
    && !Fits(l.objSize, l.objCount + 1, PoolSize(l))
  }

  /** `min_size`: what the layout asks pages for. */
  function MinSize(objSize: nat): nat
  {
    objSize * MIN_POOL_OBJS + MetaSize(MIN_POOL_OBJS)
  }

  /** The pool has the least order whose pages reach `min_size`, rounded down to pages. */
  ghost predicate LeastOrder(objSize: nat, order: nat)
  {
    && MinSize(objSize) / PAGE_SIZE <= Pow2(order)
    && (order > 0 ==> Pow2(order - 1) < MinSize(objSize) / PAGE_SIZE)
  }

  ghost predicate IsPow2(x: nat) { exists k: nat :: Pow2(k) == x }

  lemma MetaSizeGrows(objs: nat)
    ensures MetaSize(objs) <= MetaSize(objs + 1)
  {
    MetaSizeIs(objs);
    MetaSizeIs(objs + 1);
  }

  /** What does not fit does not fit with more objects. */
  lemma {:induction false} FitsDown(objSize: nat, objs: nat, more: nat, poolSize: nat)
    requires objs <= more && Fits(objSize, more, poolSize)
    ensures Fits(objSize, objs, poolSize)
    decreases more - objs
  {
    if objs < more {
      MetaSizeGrows(more - 1);
      ProductMonotone(objSize, more - 1, more);
      FitsDown(objSize, objs, more - 1, poolSize);
    }
  }

  /** Three objects always fit, whatever their size. */
  lemma ThreeFit(objSize: nat, order: nat)
    requires objSize > 0
    requires MinSize(objSize) / PAGE_SIZE <= Pow2(order)
    ensures Fits(objSize, 3, PAGE_SIZE * Pow2(order))
  {
    MetaSizeIs(3);
    MetaSizeIs(MIN_POOL_OBJS);
  }

  /** `mem_cache_layout_setup` */
  method LayoutSetup(size: nat, align: nat) returns (l: Layout)
    requires size > 0 && align > 0
    ensures GoodLayout(l) && l.objSize == AlignUp(size, align) && LeastOrder(l.objSize, l.poolOrder)
    ensures l.objCount >= MIN_POOL_OBJS <==> RoundsUp(AlignUp(size, align))
  {
    var objSize := AlignUp(size, align);
    assert objSize > 0 by { AlignUpLeast(size, align); }
    var minSize := MinSize(objSize);
    var poolOrder := Ilog2(minSize / PAGE_SIZE);
    var poolSize := PAGE_SIZE * Pow2(poolOrder);
    assert Fits(objSize, 3, poolSize) by { ThreeFit(objSize, poolOrder); }
    var objs := poolSize / objSize;
    OneTooMany(objSize, poolSize);
    while !Fits(objSize, objs, poolSize)
      invariant objs >= 3 && !Fits(objSize, objs + 1, poolSize)
      decreases objs
    {
      objs := objs - 1;
    }
    l := Layout(poolSize - MetaSize(objs), objs, Ceil(objs, WORD_BITS), objSize, poolOrder);
    MinObjsFit(l);
  }

  lemma OneTooMany(objSize: nat, poolSize: nat)
    requires objSize > 0 && Fits(objSize, 3, poolSize)
    ensures poolSize / objSize >= 3 && !Fits(objSize, poolSize / objSize + 1, poolSize)
  {
    Quotient(poolSize, objSize);
    var rest := poolSize - objSize * 3;
    Quotient(rest, objSize);
    QuotientIs(poolSize, objSize, 3 + rest / objSize);
  }

  /** No larger number of objects fits. */
  lemma LargestCount(l: Layout, objs: nat)
    requires GoodLayout(l) && objs > l.objCount
    ensures !Fits(l.objSize, objs, PoolSize(l))
  {
    if Fits(l.objSize, objs, PoolSize(l)) {
      FitsDown(l.objSize, l.objCount + 1, objs, PoolSize(l));
    }
  }

  /** So a pool holds MIN_POOL_OBJS objects exactly when there is room for them, */
  lemma MinObjsHeld(l: Layout)
    requires GoodLayout(l)
    ensures l.objCount >= MIN_POOL_OBJS <==> Fits(l.objSize, MIN_POOL_OBJS, PoolSize(l))
  {
    if l.objCount >= MIN_POOL_OBJS {
      FitsDown(l.objSize, MIN_POOL_OBJS, l.objCount, PoolSize(l));
    } else {
      LargestCount(l, MIN_POOL_OBJS);
    }
  }

  /** The rounding to pages and to a power of two makes up for what the division
      drops: nothing is dropped, or there is a page more than counted. */
  ghost predicate RoundsUp(objSize: nat)
  {
    MinSize(objSize) % PAGE_SIZE == 0 || !IsPow2(MinSize(objSize) / PAGE_SIZE)
  }

  /** which is known from the size of an object alone. */
  lemma MinObjsFit(l: Layout)
    requires GoodLayout(l) && LeastOrder(l.objSize, l.poolOrder)
    ensures l.objCount >= MIN_POOL_OBJS <==> RoundsUp(l.objSize)
  {
    MinObjsHeld(l);
    RoomForMin(l.objSize, l.poolOrder);
    var pages := MinSize(l.objSize) / PAGE_SIZE;
    if pages < Pow2(l.poolOrder) && IsPow2(pages) {
      var k: nat :| Pow2(k) == pages;
      if k >= l.poolOrder { Pow2Monotone(l.poolOrder, k); } else { Pow2Monotone(k, l.poolOrder - 1); }
    }
  }

  lemma RoomForMin(objSize: nat, order: nat)
    requires LeastOrder(objSize, order)
    ensures Fits(objSize, MIN_POOL_OBJS, PAGE_SIZE * Pow2(order)) <==>
            MinSize(objSize) / PAGE_SIZE < Pow2(order) || MinSize(objSize) % PAGE_SIZE == 0
  {
  }

  /** Objects of 1016 bytes get a pool of one page, which holds three of them. */
  lemma ThreeIsTight(l: Layout)
    requires GoodLayout(l) && LeastOrder(l.objSize, l.poolOrder) && l.objSize == 1016
    ensures l.poolOrder == 0 && l.objCount == 3 && !RoundsUp(l.objSize)
  {
    assert Pow2(0) == MinSize(1016) / PAGE_SIZE;
    if l.objCount > 3 { FitsDown(1016, 4, l.objCount, PoolSize(l)); }
  }

  // ---- the bitmap ----

  /** A 64-bit word by its bits, the lowest first. */
  type Word = w: seq<bool> | |w| == WORD_BITS witness seq(WORD_BITS, _ => false)

  const ONES: Word := seq(WORD_BITS, _ => true)

  function Bit(mask: seq<Word>, i: nat): bool
    requires i < WORD_BITS * |mask|
  {
    mask[i / WORD_BITS][i % WORD_BITS]
  }

  function WithBit(mask: seq<Word>, i: nat, b: bool): seq<Word>
    requires i < WORD_BITS * |mask|
  {
    mask[i / WORD_BITS := mask[i / WORD_BITS][i % WORD_BITS := b]]
  }

  lemma BitUpdated(mask: seq<Word>, i: nat, b: bool, j: nat)
    requires i < WORD_BITS * |mask| && j < WORD_BITS * |mask|
    ensures Bit(WithBit(mask, i, b), j) == if j == i then b else Bit(mask, j)
  {
  }

  /** The zero bits among the first `n`. */
  function Zeros(mask: seq<Word>, n: nat): (z: nat)
    requires n <= WORD_BITS * |mask|
    ensures z <= n
  {
    if n == 0 then 0 else Zeros(mask, n - 1) + if Bit(mask, n - 1) then 0 else 1
  }

  lemma {:induction false} ZerosUpdated(mask: seq<Word>, i: nat, b: bool, n: nat)
    requires n <= WORD_BITS * |mask| && i < WORD_BITS * |mask| && Bit(mask, i) != b
    ensures Zeros(WithBit(mask, i, b), n) == Zeros(mask, n) + if i >= n then 0 else if b then -1 else 1
  {
    if n > 0 {
      ZerosUpdated(mask, i, b, n - 1);
      BitUpdated(mask, i, b, n - 1);
    }
  }

  lemma {:induction false} ZerosAll(mask: seq<Word>, n: nat)
    requires n <= WORD_BITS * |mask|
    ensures Zeros(mask, n) == n <==> forall i: nat :: i < n ==> !Bit(mask, i)
    ensures Zeros(mask, n) == 0 <==> forall i: nat :: i < n ==> Bit(mask, i)
  {
    if n > 0 { ZerosAll(mask, n - 1); }
  }

  /** Bits of objects that do not exist are set for good. */
  ghost predicate GoodMask(mask: seq<Word>, objCount: nat, words: nat)
  {
    && |mask| == words && objCount <= WORD_BITS * words
    && (forall i: nat :: objCount <= i < WORD_BITS * words ==> Bit(mask, i))
  }

  /** `ffs` of the complement of a word: its lowest zero bit, looked for byte by
      byte and then bit by bit. */
  method LowestZero(word: Word) returns (bit: nat)
    requires word != ONES
    ensures bit < WORD_BITS && !word[bit] && forall i :: 0 <= i < bit ==> word[i]
  {
    ghost var zero :| 0 <= zero < WORD_BITS && !word[zero];
    var byte := 0;
    while byte != 8
      invariant 8 * byte <= zero && forall i :: 0 <= i < 8 * byte ==> word[i]
      decreases 8 - byte
    {
      if exists i :: 8 * byte <= i < 8 * byte + 8 && !word[i] { break; }
      byte := byte + 1;
    }
    bit := 8 * byte;
    while word[bit]
      invariant bit <= zero && forall i :: 0 <= i < bit ==> word[i]
      decreases zero - bit
    {
      bit := bit + 1;
    }
  }

  /** The first `n` bits are as they should be. */
  ghost predicate SetFrom(mask: seq<Word>, objCount: nat, n: nat)
  {
    forall i: nat :: i < n && i < WORD_BITS * |mask| ==> (Bit(mask, i) <==> i >= objCount)
  }

  lemma OnesPlaced(mask: seq<Word>, w: nat, objCount: nat)
    requires w < |mask| && objCount <= WORD_BITS * w && SetFrom(mask, objCount, WORD_BITS * w)
    ensures SetFrom(mask[w := ONES], objCount, WORD_BITS * (w + 1))
  {
    var mask' := mask[w := ONES];
    forall i: nat | i < WORD_BITS * (w + 1) && i < WORD_BITS * |mask|
      ensures Bit(mask', i) <==> i >= objCount
    {
      assert i / WORD_BITS == w <==> WORD_BITS * w <= i;
      if i < WORD_BITS * w { assert Bit(mask, i) <==> i >= objCount; }
    }
  }

  /** `mem_pool_bitmap_setup`.  When the objects fill their last word there must
      be no other word, which is how the layout counts them. */
  method BitmapSetup(objCount: nat, words: nat) returns (mask: seq<Word>)
    requires objCount <= WORD_BITS * words
    requires objCount % WORD_BITS == 0 ==> words == objCount / WORD_BITS
    ensures GoodMask(mask, objCount, words) && Zeros(mask, objCount) == objCount
  {
    var pos, word := objCount % WORD_BITS, objCount / WORD_BITS;
    mask := seq(words, _ => seq(WORD_BITS, _ => false));
    if pos > 0 {
      mask := mask[word := seq(WORD_BITS, i => i >= pos)];
    }
    var w := word + 1;
    while w < words
      invariant word < w && |mask| == words
      invariant SetFrom(mask, objCount, WORD_BITS * w)
    {
      OnesPlaced(mask, w, objCount);
      mask := mask[w := ONES];
      w := w + 1;
    }
    ZerosAll(mask, objCount);
  }
}
