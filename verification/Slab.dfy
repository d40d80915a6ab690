/** The slab allocator: pools of equal objects, on three lists by how many of
    their objects are free. */
module Slab {
  import opened Addresses
  import opened Bits
  import opened Division
  import opened Lists
  import opened Options
  import opened SlabLayout
  import B = Blocks

  /** `struct mem_pool`, which lies in the pool itself, behind the objects. */
  datatype Pool = Pool(data: nat, free: nat, bitmask: seq<Word>)

  // ---- what one pool says ----

  /** The pool whose metadata is at `meta` describes the aligned block it ends. */
  ghost predicate PoolOk(l: Layout, meta: nat, p: Pool)
  {
    && p.data % PoolSize(l) == 0 && meta == p.data + l.metaOffs
    && GoodMask(p.bitmask, l.objCount, l.maskWords)
    && p.free == Zeros(p.bitmask, l.objCount)
  }

  /** The address of object `pos`. */
  function ObjectAt(l: Layout, p: Pool, pos: nat): nat { p.data + pos * l.objSize }

  /** `addr` is an object in use. */
  ghost predicate Live(l: Layout, pools: map<nat, Pool>, addr: nat)
  {
    exists meta, pos :: InUse(l, pools, meta, pos) && addr == ObjectAt(l, pools[meta], pos)
  }

  ghost predicate InUse(l: Layout, pools: map<nat, Pool>, meta: nat, pos: nat)
  {
    && meta in pools && pos < l.objCount && l.objCount <= WORD_BITS * |pools[meta].bitmask|
    && Bit(pools[meta].bitmask, pos)
  }

  ghost predicate PoolsOk(l: Layout, pools: map<nat, Pool>)
  {
    forall meta :: meta in pools ==> PoolOk(l, meta, pools[meta])
  }

  // ---- where objects lie ----

  lemma EndsBy(pos: nat, size: nat, count: nat)
    requires pos < count
    ensures pos * size + size <= size * count
  {
    ProductMonotone(size, pos + 1, count);
    assert size * (pos + 1) == pos * size + size;
  }

  /** An object lies in its pool, before the metadata. */
  lemma ObjectInPool(l: Layout, meta: nat, p: Pool, pos: nat)
    requires GoodLayout(l) && PoolOk(l, meta, p) && pos < l.objCount
    ensures p.data <= ObjectAt(l, p, pos) && ObjectAt(l, p, pos) + l.objSize <= meta < p.data + PoolSize(l)
  {
    EndsBy(pos, l.objSize, l.objCount);
    MetaSizeIs(l.objCount);
    hide MetaSize, Ceil, GoodMask, Zeros;
  }

  /** Every object has the alignment that was asked for, when a pool has it. */
  lemma ObjectAligned(l: Layout, meta: nat, p: Pool, pos: nat, align: nat)
    requires PoolOk(l, meta, p) && align > 0 && l.objSize % align == 0 && PoolSize(l) % align == 0
    ensures ObjectAt(l, p, pos) % align == 0
  {
    CellAligned(p.data, PoolSize(l), l.objSize, pos, align);
  }

  lemma CellAligned(data: nat, size: nat, cell: nat, pos: nat, align: nat)
    requires size > 0 && align > 0 && data % size == 0 && size % align == 0 && cell % align == 0
    ensures (data + pos * cell) % align == 0
  {
    Divides(data, size, align);
    Scaled(cell, pos, align);
    Summed(data, pos * cell, align);
  }

  /** A multiple of a multiple. */
  lemma Divides(a: nat, m: nat, k: nat)
    requires m > 0 && k > 0 && a % m == 0 && m % k == 0
    ensures a % k == 0
  {
    var q, n := a / m, m / k;
    Quotient(a, m);
    Quotient(m, k);
    Regroup(1, k, n, q);
    Multiple(n * q, k);
  }

  lemma Scaled(a: nat, q: nat, k: nat)
    requires k > 0 && a % k == 0
    ensures (q * a) % k == 0
  {
    var n := a / k;
    Quotient(a, k);
    Regroup(q, k, n, 1);
    Regroup(1, k, q, n);
    Multiple(q * n, k);
  }

  lemma Summed(a: nat, b: nat, k: nat)
    requires k > 0 && a % k == 0 && b % k == 0
    ensures (a + b) % k == 0
  {
    Quotient(a, k);
    Quotient(b, k);
    MultiplesAdd(k, a / k, b / k);
  }

  /** Rounding the address of an object down to the pool size and adding the
      offset of the metadata finds the metadata of its own pool. */
  lemma PoolFound(l: Layout, meta: nat, p: Pool, pos: nat)
    requires GoodLayout(l) && PoolOk(l, meta, p) && pos < l.objCount
    ensures AlignDown(ObjectAt(l, p, pos), PoolSize(l)) + l.metaOffs == meta
    ensures (ObjectAt(l, p, pos) - p.data) / l.objSize == pos
  {
    ObjectInPool(l, meta, p, pos);
    AlignDownFinds(p.data, PoolSize(l), ObjectAt(l, p, pos));
    Multiple(pos, l.objSize);
  }

  /** Different pools lie apart. */
  lemma PoolsApart(l: Layout, meta: nat, p: Pool, meta': nat, p': Pool)
    requires PoolOk(l, meta, p) && PoolOk(l, meta', p') && meta != meta'
    ensures p.data + PoolSize(l) <= p'.data || p'.data + PoolSize(l) <= p.data
  {
    var size := PoolSize(l);
    Quotient(p.data, size);
    Quotient(p'.data, size);
    var i, j := p.data / size, p'.data / size;
    if i < j {
      ProductMonotone(size, i + 1, j);
    } else if j < i {
      ProductMonotone(size, j + 1, i);
    }
  }

  /** Objects of one pool lie one behind the other. */
  lemma ObjectsApart(l: Layout, p: Pool, i: nat, j: nat)
    requires i < j
    ensures ObjectAt(l, p, i) + l.objSize <= ObjectAt(l, p, j)
  {
    ProductMonotone(l.objSize, i + 1, j);
    assert (i + 1) * l.objSize == i * l.objSize + l.objSize;
  }

  /** Objects of different pools lie in different blocks. */
  lemma ObjectsOfPoolsApart(l: Layout, meta: nat, p: Pool, i: nat, meta': nat, p': Pool, j: nat)
    requires GoodLayout(l) && PoolOk(l, meta, p) && PoolOk(l, meta', p') && meta != meta'
    requires i < l.objCount && j < l.objCount
    ensures ObjectAt(l, p, i) + l.objSize <= ObjectAt(l, p', j) || ObjectAt(l, p', j) + l.objSize <= ObjectAt(l, p, i)
    ensures ObjectAt(l, p, i) + l.objSize <= meta' || meta' + MetaSize(l.objCount) <= ObjectAt(l, p, i)
  {
    ObjectInPool(l, meta, p, i);
    ObjectInPool(l, meta', p', j);
    PoolsApart(l, meta, p, meta', p');
  }

  /** Objects in use never overlap, nor do they overlap any pool's metadata. */
  lemma LiveApart(l: Layout, pools: map<nat, Pool>, meta: nat, pos: nat, meta': nat, pos': nat)
    requires GoodLayout(l) && PoolsOk(l, pools) && InUse(l, pools, meta, pos) && InUse(l, pools, meta', pos')
    ensures var a, a' := ObjectAt(l, pools[meta], pos), ObjectAt(l, pools[meta'], pos');
      && ((meta != meta' || pos != pos') ==> a + l.objSize <= a' || a' + l.objSize <= a)
      && (a + l.objSize <= meta' || meta' + MetaSize(l.objCount) <= a)
  {
    if meta != meta' {
      ObjectsOfPoolsApart(l, meta, pools[meta], pos, meta', pools[meta'], pos');
    } else {
      ObjectInPool(l, meta, pools[meta], pos);
      if pos < pos' {
        ObjectsApart(l, pools[meta], pos, pos');
      } else if pos' < pos {
        ObjectsApart(l, pools[meta], pos', pos);
      }
    }
  }

  // ---- the alignment of page blocks ----

  lemma Regroup(n: nat, a: nat, b: nat, c: nat)
    ensures n * (a * b) * c == (n * a) * (b * c)
  {
  }

  lemma Pow2Of35()
    ensures Pow2(35) == 0x8_0000_0000
  {
    assert Pow2(7) == 0x80;
    Pow2Sum(7, 7);
    Pow2Sum(14, 14);
    Pow2Sum(28, 7);
  }

  /** The direct map begins at a multiple of every block size. */
  lemma HigherBase(k: nat)
    requires k <= 35
    ensures HIGHER_BASE == (PAGE_SIZE * Pow2(k)) * (Pow2(35 - k) * 131071)
  {
    Pow2Of35();
    Pow2Sum(k, 35 - k);
    Regroup(PAGE_SIZE, Pow2(k), Pow2(35 - k), 131071);
  }

  lemma MultiplesAdd(size: nat, q: nat, r: nat)
    requires size > 0
    ensures (size * q) % size == 0 && (size * q + size * r) % size == 0
  {
    Multiple(q, size);
    Multiple(q + r, size);
    assert size * (q + r) == size * q + size * r;
  }

  /** The page allocator's blocks have the alignment pools need, in the direct
      map at HIGHER_BASE, too. */
  lemma BlockAligned(b: B.Block, l: Layout)
    requires B.Aligned(b) && b.order == l.poolOrder <= B.MAX_ORDER
    ensures (b.idx * PAGE_SIZE) % PoolSize(l) == 0
    ensures (b.idx * PAGE_SIZE + HIGHER_BASE) % PoolSize(l) == 0
  {
    var k, q := b.order, Shifted(b.idx, b.order);
    BaseMultiple(b.idx, k);
    Regroup(PAGE_SIZE, Pow2(k), q, 1);
    HigherBase(k);
    MultiplesAdd(PoolSize(l), q, Pow2(35 - k) * 131071);
  }

  // ---- taking and giving back one object ----

  function Taken(p: Pool, pos: nat): Pool
    requires p.free > 0 && pos < WORD_BITS * |p.bitmask|
  {
    Pool(p.data, p.free - 1, WithBit(p.bitmask, pos, true))
  }

  function Given(p: Pool, pos: nat): Pool
    requires pos < WORD_BITS * |p.bitmask|
  {
    Pool(p.data, p.free + 1, WithBit(p.bitmask, pos, false))
  }

  lemma MaskUpdated(mask: seq<Word>, l: Layout, pos: nat, b: bool)
    requires GoodMask(mask, l.objCount, l.maskWords) && pos < l.objCount && Bit(mask, pos) != b
    ensures GoodMask(WithBit(mask, pos, b), l.objCount, l.maskWords)
    ensures Zeros(WithBit(mask, pos, b), l.objCount) == Zeros(mask, l.objCount) + if b then -1 else 1
    ensures forall i: nat :: i < l.objCount ==> Bit(WithBit(mask, pos, b), i) == if i == pos then b else Bit(mask, i)
  {
    var mask' := WithBit(mask, pos, b);
    forall i: nat | i < WORD_BITS * |mask| ensures Bit(mask', i) == if i == pos then b else Bit(mask, i)
    {
      BitUpdated(mask, pos, b, i);
    }
    ZerosUpdated(mask, pos, b, l.objCount);
  }

  /** The objects in use are those of before and object `pos` of `meta`. */
  ghost predicate OneMore(l: Layout, pools: map<nat, Pool>, pools': map<nat, Pool>, meta: nat, pos: nat)
  {
    && !InUse(l, pools, meta, pos) && InUse(l, pools', meta, pos)
    && (forall m, i :: InUse(l, pools', m, i) <==> InUse(l, pools, m, i) || (m == meta && i == pos))
    && (forall m :: m in pools ==> m in pools' && pools'[m].data == pools[m].data)
  }

  lemma ObjectTaken(l: Layout, pools: map<nat, Pool>, meta: nat, pos: nat)
    requires PoolsOk(l, pools) && meta in pools && pos < l.objCount && !Bit(pools[meta].bitmask, pos)
    ensures pools[meta].free > 0
    ensures var pools' := pools[meta := Taken(pools[meta], pos)];
      PoolsOk(l, pools') && OneMore(l, pools, pools', meta, pos)
  {
    MaskUpdated(pools[meta].bitmask, l, pos, true);
  }

  lemma ObjectGiven(l: Layout, pools: map<nat, Pool>, meta: nat, pos: nat)
    requires PoolsOk(l, pools) && meta in pools && pos < l.objCount && Bit(pools[meta].bitmask, pos)
    ensures var pools' := pools[meta := Given(pools[meta], pos)];
      PoolsOk(l, pools') && OneMore(l, pools', pools, meta, pos) && pools'[meta].free <= l.objCount
  {
    MaskUpdated(pools[meta].bitmask, l, pos, false);
  }

  /** So is the set of live addresses: one address was not live and is. */
  lemma LiveGrows(l: Layout, pools: map<nat, Pool>, pools': map<nat, Pool>, meta: nat, pos: nat)
    requires GoodLayout(l) && PoolsOk(l, pools') && OneMore(l, pools, pools', meta, pos)
    ensures var addr := ObjectAt(l, pools'[meta], pos);
      && !Live(l, pools, addr)
      && forall a: nat :: Live(l, pools', a) <==> Live(l, pools, a) || a == addr
  {
    var addr := ObjectAt(l, pools'[meta], pos);
    forall m, i | InUse(l, pools, m, i) ensures ObjectAt(l, pools[m], i) != addr
    {
      assert InUse(l, pools', m, i);
      LiveApart(l, pools', m, i, meta, pos);
    }
    forall a: nat ensures Live(l, pools', a) <==> Live(l, pools, a) || a == addr
    {
      if Live(l, pools, a) {
        var m, i :| InUse(l, pools, m, i) && a == ObjectAt(l, pools[m], i);
        assert InUse(l, pools', m, i) && a == ObjectAt(l, pools'[m], i);
      }
      if Live(l, pools', a) && a != addr {
        var m, i :| InUse(l, pools', m, i) && a == ObjectAt(l, pools'[m], i);
        assert InUse(l, pools, m, i) && a == ObjectAt(l, pools[m], i);
      }
    }
  }

  // ---- the three lists ----

  datatype Kind = AllBusy | SomeBusy | AllFree

  function KindOf(l: Layout, p: Pool): Kind
  {
    if p.free == 0 then AllBusy else if p.free == l.objCount then AllFree else SomeBusy
  }

  /** The list holds exactly the pools of that kind. */
  ghost predicate Holds(l: Layout, pools: map<nat, Pool>, list: seq<nat>, kind: Kind)
  {
    NoDup(list) && forall m :: m in list <==> m in pools && KindOf(l, pools[m]) == kind
  }

  /** A pool off its list. */
  lemma Unlisted(l: Layout, pools: map<nat, Pool>, list: seq<nat>, kind: Kind, m: nat, p: Pool)
    requires Holds(l, pools, list, kind)
    ensures Holds(l, pools[m := p] - {m}, Without(list, m), kind)
  {
    WithoutMembers(list, m);
  }

  /** A pool changed, or new, put at the front of the list of its kind. */
  lemma Relisted(l: Layout, pools: map<nat, Pool>, list: seq<nat>, kind: Kind, m: nat)
    requires Holds(l, pools - {m}, list, kind) && m in pools
    ensures KindOf(l, pools[m]) == kind ==> Holds(l, pools, [m] + list, kind)
    ensures KindOf(l, pools[m]) != kind ==> Holds(l, pools, list, kind)
  {
    Pushed(list, m);
  }

  ghost predicate SetUpTo(mask: seq<Word>, n: nat)
  {
    forall i: nat :: i < n && i < WORD_BITS * |mask| ==> Bit(mask, i)
  }

  lemma WordSet(mask: seq<Word>, word: nat)
    requires word < |mask| && mask[word] == ONES && SetUpTo(mask, WORD_BITS * word)
    ensures SetUpTo(mask, WORD_BITS * (word + 1))
  {
    forall i: nat | i < WORD_BITS * (word + 1) && i < WORD_BITS * |mask| ensures Bit(mask, i)
    {
      if i >= WORD_BITS * word { assert i / WORD_BITS == word; }
    }
  }

  lemma LowestFound(mask: seq<Word>, word: nat, bit: nat)
    requires word < |mask| && bit < WORD_BITS && SetUpTo(mask, WORD_BITS * word)
    requires !mask[word][bit] && forall i :: 0 <= i < bit ==> mask[word][i]
    ensures !Bit(mask, WORD_BITS * word + bit) && SetUpTo(mask, WORD_BITS * word + bit)
    ensures WithBit(mask, WORD_BITS * word + bit, true) == mask[word := mask[word][bit := true]]
  {
    assert (WORD_BITS * word + bit) / WORD_BITS == word && (WORD_BITS * word + bit) % WORD_BITS == bit;
    forall i: nat | i < WORD_BITS * word + bit && i < WORD_BITS * |mask| ensures Bit(mask, i)
    {
      if i >= WORD_BITS * word { assert i / WORD_BITS == word && i % WORD_BITS == i - WORD_BITS * word; }
    }
  }

  /** The search of `mem_pool_alloc`: the lowest zero bit, by its word and its
      place there.  It exists, so the BUG behind the loop is not reached. */
  method FindZero(mask: seq<Word>, n: nat) returns (word: nat, bit: nat)
    requires n <= WORD_BITS * |mask| && Zeros(mask, n) > 0
    ensures word < |mask| && bit < WORD_BITS && WORD_BITS * word + bit < n
    ensures !Bit(mask, WORD_BITS * word + bit) && SetUpTo(mask, WORD_BITS * word + bit)
    ensures WithBit(mask, WORD_BITS * word + bit, true) == mask[word := mask[word][bit := true]]
  {
    ZerosAll(mask, n);
    ghost var zero: nat :| zero < n && !Bit(mask, zero);
    word := 0;
    while mask[word] == ONES
      invariant word <= zero / WORD_BITS && SetUpTo(mask, WORD_BITS * word)
      decreases zero / WORD_BITS - word
    {
      WordSet(mask, word);
      word := word + 1;
    }
    bit := LowestZero(mask[word]);
    LowestFound(mask, word, bit);
  }

  // ---- which object serves a request, and where its pool goes ----

  /** The addresses of pools on the three lists of a cache. */
  datatype Files = Files(free: seq<nat>, partial: seq<nat>, busy: seq<nat>)

  /** `addr` is the lowest object of the pool that is not in use. */
  ghost predicate LowestOf(l: Layout, p: Pool, addr: nat)
  {
    exists pos :: LowestAt(l, p, addr, pos)
  }

  ghost predicate LowestAt(l: Layout, p: Pool, addr: nat, pos: nat)
  {
    && pos < l.objCount && pos < WORD_BITS * |p.bitmask| && addr == ObjectAt(l, p, pos) && !Bit(p.bitmask, pos)
    && forall i: nat :: i < pos ==> Bit(p.bitmask, i)
  }

  /** A pool in use is the first choice: the first one of its list, which moves
      to the busy pools when its last object goes.  No empty pool is touched. */
  ghost predicate FromPartial(l: Layout, pools: map<nat, Pool>, f: Files, f': Files, addr: nat)
  {
    && f.partial != [] && f.partial[0] in pools && LowestOf(l, pools[f.partial[0]], addr) && f'.free == f.free
    && (pools[f.partial[0]].free == 1 ==> f'.partial == f.partial[1..] && f'.busy == [f.partial[0]] + f.busy)
    && (pools[f.partial[0]].free != 1 ==> f'.partial == f.partial && f'.busy == f.busy)
  }

  /** An empty pool, the first one, only when none is in use and has room. */
  ghost predicate FromFree(l: Layout, pools: map<nat, Pool>, f: Files, f': Files, addr: nat)
  {
    && f.partial == [] && f.free != [] && f.free[0] in pools && addr == pools[f.free[0]].data
    && f' == Files(f.free[1..], [f.free[0]], f.busy)
  }

  /** A new pool in the block only when no pool has room: its first object. */
  ghost predicate FromBlock(l: Layout, block: nat, f: Files, f': Files, addr: nat)
  {
    && f.partial == [] && f.free == [] && addr == block
    && f' == Files([], [block + l.metaOffs], f.busy)
  }

  ghost predicate ServedBy(l: Layout, pools: map<nat, Pool>, block: Option<nat>, f: Files, f': Files, addr: nat)
  {
    || FromPartial(l, pools, f, f', addr)
    || FromFree(l, pools, f, f', addr)
    || (block.Some? && FromBlock(l, block.value, f, f', addr))
  }

  /** In an empty pool that is the first object. */
  lemma LowestOfEmpty(l: Layout, meta: nat, p: Pool, addr: nat)
    requires PoolOk(l, meta, p) && p.free == l.objCount && LowestOf(l, p, addr)
    ensures addr == p.data
  {
    var pos :| LowestAt(l, p, addr, pos);
    ZerosAll(p.bitmask, l.objCount);
    assert !Bit(p.bitmask, 0);
  }

  /** A freed object's pool: from the busy pools to the front of those in use
      when this is its first free object, to the front of the empty ones when no
      object is in use any more; otherwise every pool stays where it is. */
  ghost predicate FiledBack(l: Layout, pools: map<nat, Pool>, meta: nat, f: Files, f': Files)
  {
    meta in pools &&
    if pools[meta].free == 0 then f' == Files(f.free, [meta] + f.partial, Without(f.busy, meta))
    else if pools[meta].free + 1 == l.objCount then f' == Files([meta] + f.free, Without(f.partial, meta), f.busy)
    else f' == f
  }

  /** The lists without `meta`, and then with it at the front of one. */
  function Moved(f: Files, meta: nat, kind: Kind): Files
  {
    AtFront(Files(Without(f.free, meta), Without(f.partial, meta), Without(f.busy, meta)), meta, kind)
  }

  function AtFront(f: Files, meta: nat, kind: Kind): Files
  {
    match kind
    case AllFree => f.(free := [meta] + f.free)
    case SomeBusy => f.(partial := [meta] + f.partial)
    case AllBusy => f.(busy := [meta] + f.busy)
  }

  lemma {:induction false} WithoutOther(s: seq<nat>, x: nat)
    requires x !in s
    ensures Without(s, x) == s
  {
    if s != [] { WithoutOther(s[1..], x); }
  }

  /** A pool is on the list of its kind alone. */
  lemma MovedFrom(l: Layout, pools: map<nat, Pool>, f: Files, meta: nat)
    requires meta in pools && Holds(l, pools, f.free, AllFree) && Holds(l, pools, f.partial, SomeBusy)
    requires Holds(l, pools, f.busy, AllBusy)
    ensures KindOf(l, pools[meta]) != AllFree ==> Without(f.free, meta) == f.free
    ensures KindOf(l, pools[meta]) != SomeBusy ==> Without(f.partial, meta) == f.partial
    ensures KindOf(l, pools[meta]) != AllBusy ==> Without(f.busy, meta) == f.busy
  {
    if meta !in f.free { WithoutOther(f.free, meta); }
    if meta !in f.partial { WithoutOther(f.partial, meta); }
    if meta !in f.busy { WithoutOther(f.busy, meta); }
  }

  class MemCache {
    const layout: Layout
    var freePools: seq<nat>
    var partialPools: seq<nat>
    var busyPools: seq<nat>
    /** The pools by the addresses of their metadata. */
    var pools: map<nat, Pool>

    ghost predicate Valid()
      reads this
    {
      && GoodLayout(layout) && PoolsOk(layout, pools)
      && Holds(layout, pools, freePools, AllFree)
      && Holds(layout, pools, partialPools, SomeBusy)
      && Holds(layout, pools, busyPools, AllBusy)
    }

    ghost function Filing(): Files
      reads this
    {
      Files(freePools, partialPools, busyPools)
    }

    /** `mem_cache_setup` */
    constructor (layout: Layout)
      requires GoodLayout(layout)
      ensures Valid() && this.layout == layout && pools == map[]
      ensures forall a: nat :: !Live(layout, pools, a)
    {
      this.layout := layout;
      freePools, partialPools, busyPools, pools := [], [], [], map[];
    }

    /** `list_del(&pool->ll)`: off whichever list it is on. */
    method ListDel(meta: nat)
      modifies this`freePools, this`partialPools, this`busyPools
      ensures freePools == Without(old(freePools), meta)
      ensures partialPools == Without(old(partialPools), meta)
      ensures busyPools == Without(old(busyPools), meta)
    {
      freePools := Without(freePools, meta);
      partialPools := Without(partialPools, meta);
      busyPools := Without(busyPools, meta);
    }

    /** `mem_pool_alloc`: the lowest free object. */
    method PoolAlloc(meta: nat) returns (addr: nat, ghost pos: nat)
      requires GoodLayout(layout) && PoolsOk(layout, pools) && meta in pools && pools[meta].free > 0
      modifies this`pools
      ensures pos < layout.objCount && pos < WORD_BITS * |old(pools)[meta].bitmask|
      ensures !Bit(old(pools)[meta].bitmask, pos)
      ensures SetUpTo(old(pools)[meta].bitmask, pos)
      ensures pools == old(pools)[meta := Taken(old(pools)[meta], pos)]
      ensures addr == ObjectAt(layout, old(pools)[meta], pos)
    {
      var p := pools[meta];
      var word, bit := FindZero(p.bitmask, layout.objCount);
      var n := WORD_BITS * word + bit;
      pos := n;
      pools := pools[meta := Pool(p.data, p.free - 1, p.bitmask[word := p.bitmask[word][bit := true]])];
      addr := p.data + n * layout.objSize;
    }

    /** `mem_pool_free` of object `pos`, which is in use: none of the BUGs is reached. */
    method PoolFree(meta: nat, ptr: nat, ghost pos: nat)
      requires GoodLayout(layout) && PoolsOk(layout, pools) && InUse(layout, pools, meta, pos)
      requires ptr == ObjectAt(layout, pools[meta], pos)
      modifies this`pools
      ensures pools == old(pools)[meta := Given(old(pools)[meta], pos)]
    {
      var p := pools[meta];
      PoolFound(layout, meta, p, pos);
      ObjectGiven(layout, pools, meta, pos);
      var offs := ptr - p.data;
      var n := offs / layout.objSize;
      assert n < layout.objCount;
      var word, bit := n / WORD_BITS, n % WORD_BITS;
      assert p.bitmask[word][bit];
      pools := pools[meta := Pool(p.data, p.free + 1, p.bitmask[word := p.bitmask[word][bit := false]])];
      assert pools[meta].free <= layout.objCount;
    }

    /** The three lists say how full each pool of `pools0` is. */
    ghost predicate Filed(pools0: map<nat, Pool>)
      reads this
    {
      && Holds(layout, pools0, freePools, AllFree)
      && Holds(layout, pools0, partialPools, SomeBusy)
      && Holds(layout, pools0, busyPools, AllBusy)
    }

    /** `list_del` and `list_add`: the pool, which was changed, to the front of
        the list of its kind. */
    method Refile(meta: nat, kind: Kind, ghost pools0: map<nat, Pool>)
      requires Filed(pools0) && meta in pools && pools == pools0[meta := pools[meta]]
      requires KindOf(layout, pools[meta]) == kind
      modifies this`freePools, this`partialPools, this`busyPools
      ensures Filed(pools) && Filing() == Moved(old(Filing()), meta, kind)
    {
      Unlisted(layout, pools0, freePools, AllFree, meta, pools[meta]);
      Unlisted(layout, pools0, partialPools, SomeBusy, meta, pools[meta]);
      Unlisted(layout, pools0, busyPools, AllBusy, meta, pools[meta]);
      ListDel(meta);
      ListAdd(meta, kind);
    }

    method ListAdd(meta: nat, kind: Kind)
      requires Filed(pools - {meta}) && meta in pools && KindOf(layout, pools[meta]) == kind
      modifies this`freePools, this`partialPools, this`busyPools
      ensures Filed(pools) && Filing() == AtFront(old(Filing()), meta, kind)
    {
      Relisted(layout, pools, freePools, AllFree, meta);
      Relisted(layout, pools, partialPools, SomeBusy, meta);
      Relisted(layout, pools, busyPools, AllBusy, meta);
      match kind
      case AllFree => freePools := [meta] + freePools;
      case SomeBusy => partialPools := [meta] + partialPools;
      case AllBusy => busyPools := [meta] + busyPools;
    }

    /** What every successful allocation leaves behind. */
    twostate predicate Allocated(addr: nat)
      reads this
    {
      && !Live(layout, old(pools), addr)
      && (forall a: nat :: Live(layout, pools, a) <==> Live(layout, old(pools), a) || a == addr)
    }

    /** `mem_pool_alloc`, and what it means for the live objects. */
    method TakeFrom(meta: nat) returns (addr: nat)
      requires GoodLayout(layout) && PoolsOk(layout, pools) && meta in pools && pools[meta].free > 0
      modifies this`pools
      ensures meta in pools && pools[meta].free == old(pools)[meta].free - 1
      ensures PoolsOk(layout, pools) && Allocated(addr) && pools == old(pools)[meta := pools[meta]]
      ensures LowestOf(layout, old(pools)[meta], addr)
    {
      ghost var pools0, pos := pools, 0;
      addr, pos := PoolAlloc(meta);
      assert LowestAt(layout, pools0[meta], addr, pos);
      ObjectTaken(layout, pools0, meta, pos);
      LiveGrows(layout, pools0, pools, meta, pos);
    }

    /** First branch of `__mem_cache_alloc`: a pool in use is the first choice. */
    method AllocPartial() returns (addr: nat)
      requires Valid() && partialPools != []
      modifies this
      ensures Valid() && Allocated(addr) && pools.Keys == old(pools).Keys
      ensures FromPartial(layout, old(pools), old(Filing()), Filing(), addr)
    {
      var meta := partialPools[0];
      assert meta in partialPools;
      ghost var pools0 := pools;
      MovedFrom(layout, pools, Filing(), meta);
      addr := TakeFrom(meta);
      if pools[meta].free == 0 {
        Refile(meta, AllBusy, pools0);
      } else {
        SameKind(layout, pools0, freePools, AllFree, meta, pools[meta]);
        SameKind(layout, pools0, partialPools, SomeBusy, meta, pools[meta]);
        SameKind(layout, pools0, busyPools, AllBusy, meta, pools[meta]);
      }
    }

    /** Second branch: an empty pool, which has two objects at least. */
    method AllocFree() returns (addr: nat)
      requires Valid() && freePools != []
      modifies this
      ensures Valid() && Allocated(addr) && pools.Keys == old(pools).Keys
      ensures old(partialPools) == [] ==> FromFree(layout, old(pools), old(Filing()), Filing(), addr)
    {
      var meta := freePools[0];
      assert meta in freePools;
      ghost var pools0 := pools;
      MovedFrom(layout, pools, Filing(), meta);
      addr := TakeFrom(meta);
      LowestOfEmpty(layout, meta, pools0[meta], addr);
      if pools[meta].free != layout.objCount {
        Refile(meta, SomeBusy, pools0);
      }
    }

    /** Third branch: a new pool in a block of the page allocator. */
    method AllocNew(block: nat) returns (addr: nat)
      requires Valid() && block % PoolSize(layout) == 0 && block + layout.metaOffs !in pools
      modifies this
      ensures Valid() && Allocated(addr) && pools.Keys == old(pools).Keys + {block + layout.metaOffs}
      ensures old(partialPools) == [] && old(freePools) == [] ==>
        FromBlock(layout, block, old(Filing()), Filing(), addr)
    {
      ghost var pools0 := pools;
      var meta := block + layout.metaOffs;
      var mask := BitmapSetup(layout.objCount, layout.maskWords);
      pools := pools[meta := Pool(block, layout.objCount, mask)];
      NewPool(layout, pools0, pools, meta);
      ghost var pools1 := pools;
      addr := TakeFrom(meta);
      LowestOfEmpty(layout, meta, pools1[meta], addr);
      assert pools - {meta} == pools0;
      ListAdd(meta, SomeBusy);
    }

    /** `__mem_cache_alloc`; `block` is what `__page_alloc` answers when it is asked. */
    method Alloc(block: Option<nat>) returns (addr: Option<nat>)
      requires Valid()
      requires block.Some? ==> block.value % PoolSize(layout) == 0 && block.value + layout.metaOffs !in pools
      modifies this
      ensures Valid()
      ensures addr.None? <==> old(partialPools) == [] && old(freePools) == [] && block.None?
      ensures addr.None? ==> pools == old(pools)
      ensures addr.Some? ==> Allocated(addr.value)
      ensures addr.None? ==> Filing() == old(Filing())
      ensures addr.Some? ==> ServedBy(layout, old(pools), block, old(Filing()), Filing(), addr.value)
      ensures pools.Keys == old(pools).Keys +
        if old(partialPools) == [] && old(freePools) == [] && block.Some? then {block.value + layout.metaOffs} else {}
    {
      var a: nat;
      if partialPools != [] {
        a := AllocPartial();
        return Some(a);
      }
      if freePools != [] {
        a := AllocFree();
        return Some(a);
      }
      if block.None? { return None; }
      a := AllocNew(block.value);
      return Some(a);
    }

    /** `__mem_cache_free` of an object in use. */
    method Free(ptr: nat)
      requires Valid() && Live(layout, pools, ptr)
      modifies this
      ensures Valid() && pools.Keys == old(pools).Keys
      ensures forall a: nat :: Live(layout, pools, a) <==> Live(layout, old(pools), a) && a != ptr
      ensures FiledBack(layout, old(pools), AlignDown(ptr, PoolSize(layout)) + layout.metaOffs, old(Filing()), Filing())
    {
      ghost var pools0 := pools;
      ghost var m, pos :| InUse(layout, pools, m, pos) && ptr == ObjectAt(layout, pools[m], pos);
      PoolFound(layout, m, pools[m], pos);
      var meta := AlignDown(ptr, PoolSize(layout)) + layout.metaOffs;
      ObjectGiven(layout, pools, meta, pos);
      PoolFree(meta, ptr, pos);
      LiveGrows(layout, pools, pools0, meta, pos);
      RefileFreed(meta, pools0);
    }

    /** `list_splice` of the empty pools to the caller's list. */
    method TakeFree() returns (list: seq<nat>)
      requires Valid()
      modifies this`freePools, this`pools
      ensures Valid() && list == old(freePools) && freePools == [] && NoDup(list)
      ensures pools == old(pools) - Members(list) && forall m :: m in list ==> m in old(pools)
      ensures forall a: nat :: Live(layout, pools, a) <==> Live(layout, old(pools), a)
    {
      list := freePools;
      EmptyNotLive(layout, pools, list);
      freePools, pools := [], pools - Members(list);
    }

    /** The end of `__mem_cache_free`: the pool was on the busy list when one
        object is free now, and belongs on the free list when all are. */
    method RefileFreed(meta: nat, ghost pools0: map<nat, Pool>)
      requires GoodLayout(layout) && Filed(pools0) && meta in pools0 && meta in pools
      requires pools == pools0[meta := pools[meta]] && pools[meta].free == pools0[meta].free + 1 <= layout.objCount
      modifies this`freePools, this`partialPools, this`busyPools
      ensures Filed(pools) && FiledBack(layout, pools0, meta, old(Filing()), Filing())
    {
      MovedFrom(layout, pools0, Filing(), meta);
      if pools[meta].free == 1 {
        Refile(meta, SomeBusy, pools0);
      }
      if pools[meta].free == layout.objCount {
        Refile(meta, AllFree, pools0);
      }
      if 1 < pools[meta].free < layout.objCount {
        SameKind(layout, pools0, freePools, AllFree, meta, pools[meta]);
        SameKind(layout, pools0, partialPools, SomeBusy, meta, pools[meta]);
        SameKind(layout, pools0, busyPools, AllBusy, meta, pools[meta]);
      }
    }
  }

  /** An empty pool has no object in use. */
  lemma EmptyNotLive(l: Layout, pools: map<nat, Pool>, list: seq<nat>)
    requires PoolsOk(l, pools) && Holds(l, pools, list, AllFree)
    ensures forall a: nat :: Live(l, pools - Members(list), a) <==> Live(l, pools, a)
  {
    var pools' := pools - Members(list);
    forall a: nat ensures Live(l, pools', a) <==> Live(l, pools, a)
    {
      if Live(l, pools', a) {
        var m, i :| InUse(l, pools', m, i) && a == ObjectAt(l, pools'[m], i);
        assert InUse(l, pools, m, i);
      }
      if Live(l, pools, a) {
        var m, i :| InUse(l, pools, m, i) && a == ObjectAt(l, pools[m], i);
        ZerosAll(pools[m].bitmask, l.objCount);
        assert InUse(l, pools', m, i);
      }
    }
  }

  /** A new pool has no object in use. */
  lemma NewPool(l: Layout, pools: map<nat, Pool>, pools': map<nat, Pool>, meta: nat)
    requires GoodLayout(l) && PoolsOk(l, pools) && meta !in pools && meta in pools'
    requires pools' == pools[meta := pools'[meta]] && PoolOk(l, meta, pools'[meta]) && pools'[meta].free == l.objCount
    ensures PoolsOk(l, pools') && forall a: nat :: Live(l, pools', a) <==> Live(l, pools, a)
  {
    ZerosAll(pools'[meta].bitmask, l.objCount);
    forall a: nat ensures Live(l, pools', a) <==> Live(l, pools, a)
    {
      if Live(l, pools, a) {
        var m, i :| InUse(l, pools, m, i) && a == ObjectAt(l, pools[m], i);
        assert InUse(l, pools', m, i);
      }
      if Live(l, pools', a) {
        var m, i :| InUse(l, pools', m, i) && a == ObjectAt(l, pools'[m], i);
        assert InUse(l, pools, m, i);
      }
    }
  }

  lemma SameKind(l: Layout, pools: map<nat, Pool>, list: seq<nat>, kind: Kind, m: nat, p: Pool)
    requires Holds(l, pools, list, kind) && m in pools && KindOf(l, p) == KindOf(l, pools[m])
    ensures Holds(l, pools[m := p], list, kind)
  {
  }
}
