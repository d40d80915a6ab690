/** The slab allocator on top of the page allocator: every pool lies in a block
    that a zone has handed out and not taken back. */
module SlabPages {
  import opened Addresses
  import opened Bits
  import opened Lists
  import opened Options
  import opened SlabLayout
  import opened Slab
  import opened Zones

  /** The free and the outstanding blocks of each zone. */
  type Blocks = seq<(set<B.Block>, set<B.Block>)>

  /** The address at which the block `b` is seen. */
  function Va(b: B.Block): nat { HIGHER_BASE + b.idx * PAGE_SIZE }

  /** The metadata at `meta` belongs to a pool in block `b`. */
  predicate InBlock(l: Layout, meta: nat, b: B.Block)
  {
    b.order == l.poolOrder && meta == Va(b) + l.metaOffs
  }

  ghost predicate Outstanding(s: Blocks, b: B.Block)
  {
    exists k :: 0 <= k < |s| && b in s[k].1
  }

  ghost predicate Backs(l: Layout, meta: nat, s: Blocks)
  {
    exists b :: Outstanding(s, b) && InBlock(l, meta, b)
  }

  /** Every pool has its block outstanding. */
  ghost predicate Backed(l: Layout, metas: set<nat>, s: Blocks)
  {
    forall meta :: meta in metas ==> Backs(l, meta, s)
  }

  lemma OneBlock(l: Layout, meta: nat, b: B.Block, b': B.Block)
    requires InBlock(l, meta, b) && InBlock(l, meta, b')
    ensures b == b'
  {
  }

  /** No two zones have the same block outstanding. */
  lemma OneOwner(zones: seq<Memory.Zone>, b: B.Block, i: nat, k: nat)
    requires Ready(zones) && i < |zones| && k < |zones| && b in zones[i].busy && b in zones[k].busy
    ensures i == k
  {
    InOwnZone(zones[i], b.idx, b.order);
    InOwnZone(zones[k], b.idx, b.order);
    OneZone(zones, i, k, b.idx);
  }

  /** A block just handed out was outstanding nowhere, */
  lemma BlockIsNew(zones: seq<Memory.Zone>, before: Blocks, k: nat, b: B.Block)
    requires Ready(zones) && GaveBlock(before, Snapshot(zones), k, b)
    ensures !Outstanding(before, b)
  {
    if Outstanding(before, b) {
      var i :| 0 <= i < |before| && b in before[i].1;
      assert Snapshot(zones)[k].1 == before[k].1 + {b};
      if i != k { OneOwner(zones, b, i, k); }
    }
  }

  /** so it suits a new pool: aligned, and no pool of the cache lies in it. */
  lemma BlockSuits(l: Layout, metas: set<nat>, zones: seq<Memory.Zone>, before: Blocks, k: nat, b: B.Block)
    requires Ready(zones) && GaveBlock(before, Snapshot(zones), k, b)
    requires b.order == l.poolOrder <= B.MAX_ORDER && Backed(l, metas, before)
    ensures Va(b) % PoolSize(l) == 0 && Va(b) + l.metaOffs !in metas
    ensures Backed(l, metas + {Va(b) + l.metaOffs}, Snapshot(zones))
  {
    BlockAligned(b, l);
    BlockIsNew(zones, before, k, b);
    var meta := Va(b) + l.metaOffs;
    if meta in metas {
      assert Backs(l, meta, before);
      var c :| Outstanding(before, c) && InBlock(l, meta, c);
      OneBlock(l, meta, b, c);
    }
    StillBacked(l, metas, before, Snapshot(zones), k, b);
  }

  lemma StillBacked(l: Layout, metas: set<nat>, before: Blocks, after: Blocks, k: nat, b: B.Block)
    requires GaveBlock(before, after, k, b) && b.order == l.poolOrder && Backed(l, metas, before)
    ensures Backed(l, metas + {Va(b) + l.metaOffs}, after)
  {
    forall meta | meta in metas + {Va(b) + l.metaOffs} ensures Backs(l, meta, after)
    {
      if meta in metas {
        assert Backs(l, meta, before);
        var c :| Outstanding(before, c) && InBlock(l, meta, c);
        var i :| 0 <= i < |before| && c in before[i].1;
        assert c in after[i].1;
        assert Outstanding(after, c);
      } else {
        assert b in after[k].1;
        assert Outstanding(after, b);
      }
    }
  }

  // ---- what other users of the zones see ----

  /** `b` is the block of one of the pools. */
  ghost predicate InPool(l: Layout, metas: set<nat>, b: B.Block) { exists m :: m in metas && InBlock(l, m, b) }

  /** Exactly the blocks of the pools `news` have become outstanding. */
  ghost predicate Grew(before: Blocks, after: Blocks, l: Layout, news: set<nat>)
  {
    && (forall b :: Outstanding(after, b) <==> Outstanding(before, b) || InPool(l, news, b))
    && (forall b :: InPool(l, news, b) ==> !Outstanding(before, b))
  }

  /** Exactly the blocks of the pools `gone` have stopped being outstanding. */
  ghost predicate Shrank(before: Blocks, after: Blocks, l: Layout, gone: set<nat>)
  {
    forall b :: Outstanding(after, b) <==> Outstanding(before, b) && !InPool(l, gone, b)
  }

  /** No pool of the one cache shares its block with one of the other. */
  ghost predicate CachesApart(l: Layout, metas: set<nat>, l2: Layout, metas2: set<nat>)
  {
    forall b :: InPool(l, metas, b) ==> !InPool(l2, metas2, b)
  }

  /** What one cache allocates leaves the pools of another where they are, */
  lemma OtherAfterAlloc(l: Layout, metas: set<nat>, news: set<nat>, l2: Layout, metas2: set<nat>,
      before: Blocks, after: Blocks)
    requires Grew(before, after, l, news)
    requires Backed(l2, metas2, before) && CachesApart(l, metas, l2, metas2)
    ensures Backed(l2, metas2, after) && CachesApart(l, metas + news, l2, metas2)
  {
    forall m | m in metas2 ensures Backs(l2, m, after)
    {
      assert Backs(l2, m, before);
      var b :| Outstanding(before, b) && InBlock(l2, m, b);
      assert Outstanding(after, b);
    }
    forall b | InPool(l, metas + news, b) ensures !InPool(l2, metas2, b)
    {
      var n :| n in metas + news && InBlock(l, n, b);
      if n in metas {
        assert InPool(l, metas, b);
      } else {
        assert InPool(l, news, b);
        if InPool(l2, metas2, b) {
          var m :| m in metas2 && InBlock(l2, m, b);
          assert Backs(l2, m, before);
          var c :| Outstanding(before, c) && InBlock(l2, m, c);
          OneBlock(l2, m, b, c);
        }
      }
    }
  }

  /** and so does what it gives back. */
  lemma OtherAfterShrink(l: Layout, metas: set<nat>, gone: set<nat>, l2: Layout, metas2: set<nat>,
      before: Blocks, after: Blocks)
    requires Shrank(before, after, l, gone) && gone <= metas
    requires Backed(l2, metas2, before) && CachesApart(l, metas, l2, metas2)
    ensures Backed(l2, metas2, after) && CachesApart(l, metas - gone, l2, metas2)
  {
    forall m | m in metas2 ensures Backs(l2, m, after)
    {
      assert Backs(l2, m, before);
      var b :| Outstanding(before, b) && InBlock(l2, m, b);
      assert InPool(l2, metas2, b);
      assert !InPool(l, metas, b);
      assert Outstanding(after, b);
    }
  }

  /** A block that is handed out joins those that were outstanding. */
  lemma GaveGrew(zones: seq<Memory.Zone>, before: Blocks, k: nat, b: B.Block, l: Layout)
    requires Ready(zones) && GaveBlock(before, Snapshot(zones), k, b) && b.order == l.poolOrder
    ensures Grew(before, Snapshot(zones), l, {Va(b) + l.metaOffs})
  {
    BlockIsNew(zones, before, k, b);
    var after, meta := Snapshot(zones), Va(b) + l.metaOffs;
    forall c ensures InPool(l, {meta}, c) <==> c == b
    {
      if InPool(l, {meta}, c) { OneBlock(l, meta, b, c); }
      assert meta in {meta} && InBlock(l, meta, b);
    }
    forall c ensures Outstanding(after, c) <==> Outstanding(before, c) || c == b
    {
      if Outstanding(before, c) {
        var i :| 0 <= i < |before| && c in before[i].1;
        assert c in after[i].1;
      }
      assert b in after[k].1;
    }
  }

  /** A block that is taken back leaves them. */
  lemma TookShrank(before: Blocks, after: Blocks, k: nat, b: B.Block, l: Layout, meta: nat)
    requires TookBack(before, after, k, b) && InBlock(l, meta, b)
    requires forall i :: 0 <= i < |before| && b in before[i].1 ==> i == k
    ensures Shrank(before, after, l, {meta})
  {
    forall c ensures InPool(l, {meta}, c) <==> c == b
    {
      if InPool(l, {meta}, c) { OneBlock(l, meta, b, c); }
      assert meta in {meta} && InBlock(l, meta, b);
    }
    forall c ensures Outstanding(after, c) <==> Outstanding(before, c) && c != b
    {
      if Outstanding(before, c) && c != b {
        var i :| 0 <= i < |before| && c in before[i].1;
        assert c in after[i].1;
      }
      if Outstanding(after, c) {
        var i :| 0 <= i < |after| && c in after[i].1;
        assert c in before[i].1;
      }
    }
  }

  lemma ShrankTwice(s0: Blocks, s1: Blocks, s2: Blocks, l: Layout, list: seq<nat>, i: nat)
    requires i < |list| && Shrank(s0, s1, l, Members(list[..i])) && Shrank(s1, s2, l, {list[i]})
    ensures Shrank(s0, s2, l, Members(list[..i + 1]))
  {
    assert list[..i + 1] == list[..i] + [list[i]];
    forall b ensures InPool(l, Members(list[..i + 1]), b) <==>
      InPool(l, Members(list[..i]), b) || InPool(l, {list[i]}, b)
    {
      if InPool(l, Members(list[..i]), b) {
        var m :| m in Members(list[..i]) && InBlock(l, m, b);
        assert m in Members(list[..i + 1]);
      }
      if InPool(l, {list[i]}, b) { assert list[i] in Members(list[..i + 1]); }
      if InPool(l, Members(list[..i + 1]), b) {
        var m :| m in Members(list[..i + 1]) && InBlock(l, m, b);
        assert m in Members(list[..i]) || m in {list[i]};
      }
    }
  }

  lemma NothingGrew(s: Blocks, l: Layout)
    ensures Grew(s, s, l, {}) && Shrank(s, s, l, {})
  {
  }

  // ---- allocation ----

  /** The first zone with a run of the pool order has handed out the block at `addr`. */
  ghost predicate NewBlock(l: Layout, before: Blocks, after: Blocks, addr: nat)
  {
    exists k: nat, b: B.Block ::
      b.order == l.poolOrder && addr == Va(b) && GaveBlock(before, after, k, b) && FirstWithRun(before, k, b.order)
  }

  /** The object is the first of a pool in that block. */
  ghost predicate FromNewBlock(l: Layout, before: Blocks, after: Blocks, f: Files, f': Files, addr: nat)
  {
    NewBlock(l, before, after, addr) && FromBlock(l, addr, f, f', addr)
  }

  lemma BlockUsed(l: Layout, before: Blocks, after: Blocks, f: Files, f': Files, addr: nat)
    requires NewBlock(l, before, after, addr) && FromBlock(l, addr, f, f', addr)
    ensures FromNewBlock(l, before, after, f, f', addr)
  {
  }

  /** `__mem_cache_alloc` with `mem_pool_create`, on the zones themselves. */
  method CacheAlloc(c: MemCache, zones: seq<Memory.Zone>) returns (r: Option<nat>)
    requires c.Valid() && Ready(zones) && Backed(c.layout, c.pools.Keys, Snapshot(zones))
    modifies c, zones, Orders(zones), Headers(zones)
    ensures c.Valid() && Ready(zones) && Backed(c.layout, c.pools.Keys, Snapshot(zones))
    ensures r.None? <==>
      old(c.partialPools) == [] && old(c.freePools) == [] && NoneHas(old(Snapshot(zones)), c.layout.poolOrder)
    ensures r.Some? ==> !Live(c.layout, old(c.pools), r.value)
    ensures forall a: nat :: Live(c.layout, c.pools, a) <==> Live(c.layout, old(c.pools), a) || r == Some(a)
    ensures Grew(old(Snapshot(zones)), Snapshot(zones), c.layout, c.pools.Keys - old(c.pools.Keys))
    ensures r.None? ==> c.Filing() == old(c.Filing()) && Snapshot(zones) == old(Snapshot(zones))
    ensures r.Some? && (old(c.partialPools) != [] || old(c.freePools) != []) ==>
      && ServedBy(c.layout, old(c.pools), None, old(c.Filing()), c.Filing(), r.value)
      && Snapshot(zones) == old(Snapshot(zones))
    ensures r.Some? && old(c.partialPools) == [] && old(c.freePools) == [] ==>
      FromNewBlock(c.layout, old(Snapshot(zones)), Snapshot(zones), old(c.Filing()), c.Filing(), r.value)
  {
    hide Ready, Backed, NoneHas, Live, Slab.Holds, PoolsOk, GoodLayout, Grew, LowestOf, FirstWithRun,
      GaveBlock, FromNewBlock;
    NotTheCache(zones, c);
    NothingGrew(Snapshot(zones), c.layout);
    ghost var metas := c.pools.Keys;
    assert metas + {} == metas && metas - metas == {};
    if c.partialPools == [] && c.freePools == [] {
      var block := PoolBlock(c, zones);
      ghost var news := if block.Some? then {block.value + c.layout.metaOffs} else {};
      assert metas + news - metas == news;
      r := c.Alloc(block);
      if block.Some? {
        BlockUsed(c.layout, old(Snapshot(zones)), Snapshot(zones), old(c.Filing()), c.Filing(), r.value);
      }
    } else {
      r := c.Alloc(None);
    }
  }

  lemma NotTheCache(zones: seq<Memory.Zone>, c: MemCache)
    ensures forall z: object :: z in zones ==> z != c
    ensures forall o: object :: o in Orders(zones) || o in Headers(zones) ==> o != c
  {
  }

  /** `__page_alloc` for a new pool. */
  method PoolBlock(c: MemCache, zones: seq<Memory.Zone>) returns (block: Option<nat>)
    requires c.Valid() && Ready(zones) && Backed(c.layout, c.pools.Keys, Snapshot(zones))
    modifies zones, Orders(zones), Headers(zones)
    ensures c.Valid() && Ready(zones)
    ensures block.None? <==> NoneHas(old(Snapshot(zones)), c.layout.poolOrder)
    ensures block.None? ==> Snapshot(zones) == old(Snapshot(zones))
    ensures block.Some? ==> block.value % PoolSize(c.layout) == 0 && block.value + c.layout.metaOffs !in c.pools
    ensures block.Some? ==> Backed(c.layout, c.pools.Keys + {block.value + c.layout.metaOffs}, Snapshot(zones))
    ensures block.Some? ==>
      Grew(old(Snapshot(zones)), Snapshot(zones), c.layout, {block.value + c.layout.metaOffs})
    ensures block.Some? ==> NewBlock(c.layout, old(Snapshot(zones)), Snapshot(zones), block.value)
  {
    hide Ready, Backed, GaveBlock, Slab.Holds, PoolsOk, GoodLayout, Grew, FirstWithRun;
    NotTheCache(zones, c);
    ghost var before := Snapshot(zones);
    var addr;
    ghost var k;
    addr, k := PageAlloc(zones, c.layout.poolOrder);
    if addr == 0 { return None; }
    BlockSuits(c.layout, c.pools.Keys, zones, before, k, B.Block(addr / PAGE_SIZE, c.layout.poolOrder));
    GaveGrew(zones, before, k, B.Block(addr / PAGE_SIZE, c.layout.poolOrder), c.layout);
    block := Some(HIGHER_BASE + addr);
  }

  // ---- what the zones know of a cache ----

  ghost predicate PageFreed(s: Blocks, p: nat) { exists k :: 0 <= k < |s| && B.Covered(p, s[k].0) }

  /** A page of an outstanding block is free in no zone. */
  lemma OutstandingNotFree(zones: seq<Memory.Zone>, b: B.Block, p: nat)
    requires Ready(zones) && Outstanding(Snapshot(zones), b) && B.In(p, b)
    ensures !PageFreed(Snapshot(zones), p)
  {
    hide Memory.Tiled, Memory.ListsHold, Memory.HeadersHold, B.In;
    var s := Snapshot(zones);
    var i :| 0 <= i < |s| && b in s[i].1;
    InZone(zones[i], b, p);
    if PageFreed(s, p) {
      var k :| 0 <= k < |s| && B.Covered(p, s[k].0);
      FreeApart(zones[i], b, p);
      var f :| f in zones[k].free && B.In(p, f);
      InZone(zones[k], f, p);
    }
  }

  lemma FreeApart(z: Memory.Zone, b: B.Block, p: nat)
    requires z.Valid() && b in z.busy && B.In(p, b)
    ensures !B.Covered(p, z.free)
  {
    assert b in z.free + z.busy + {} && forall f :: f in z.free ==> f in z.free + z.busy + {};
  }

  lemma InZone(z: Memory.Zone, b: B.Block, p: nat)
    requires z.Valid() && (b in z.free || b in z.busy) && B.In(p, b)
    ensures z.begin <= p < z.end
  {
    assert b in z.free + z.busy + {};
    assert B.Covered(p, z.free + z.busy + {});
  }

  /** No byte of an object in use lies on a page that the page allocator
      counts as free. */
  lemma LiveNotFree(c: MemCache, zones: seq<Memory.Zone>, addr: nat, a: nat)
    requires c.Valid() && Ready(zones) && Backed(c.layout, c.pools.Keys, Snapshot(zones))
    requires Live(c.layout, c.pools, addr) && addr <= a < addr + c.layout.objSize
    ensures a >= HIGHER_BASE && !PageFreed(Snapshot(zones), (a - HIGHER_BASE) / PAGE_SIZE)
  {
    var l, s := c.layout, Snapshot(zones);
    var meta, pos :| InUse(l, c.pools, meta, pos) && addr == ObjectAt(l, c.pools[meta], pos);
    assert Backs(l, meta, s);
    var b :| Outstanding(s, b) && InBlock(l, meta, b);
    ObjectInPool(l, meta, c.pools[meta], pos);
    PageIn(b, a - HIGHER_BASE);
    OutstandingNotFree(zones, b, (a - HIGHER_BASE) / PAGE_SIZE);
  }

  lemma PageIn(b: B.Block, a: nat)
    requires b.idx * PAGE_SIZE <= a < b.idx * PAGE_SIZE + PAGE_SIZE * Pow2(b.order)
    ensures B.In(a / PAGE_SIZE, b)
  {
  }

  // ---- empty pools given back ----

  /** The pool with its metadata at `meta` covers page `p`. */
  ghost predicate PageOf(l: Layout, meta: nat, p: nat) { exists b :: InBlock(l, meta, b) && B.In(p, b) }

  ghost predicate PageOfSome(l: Layout, metas: seq<nat>, p: nat) { exists m :: m in metas && PageOf(l, m, p) }

  lemma BlockReturned(l: Layout, metas: set<nat>, meta: nat, zones: seq<Memory.Zone>, before: Blocks, k: nat,
      b: B.Block)
    requires TookBack(before, Snapshot(zones), k, b) && Backed(l, metas, before) && InBlock(l, meta, b)
    ensures Backed(l, metas - {meta}, Snapshot(zones))
    ensures forall p: nat :: PageFreed(Snapshot(zones), p) <==> PageFreed(before, p) || PageOf(l, meta, p)
  {
    var after := Snapshot(zones);
    forall m | m in metas - {meta} ensures Backs(l, m, after)
    {
      assert Backs(l, m, before);
      var c :| Outstanding(before, c) && InBlock(l, m, c);
      var i :| 0 <= i < |before| && c in before[i].1;
      assert c in after[i].1;
      assert Outstanding(after, c);
    }
    forall p: nat ensures PageFreed(after, p) <==> PageFreed(before, p) || PageOf(l, meta, p)
    {
      PageReturned(l, meta, before, after, k, b, p);
    }
  }

  lemma PageReturned(l: Layout, meta: nat, before: Blocks, after: Blocks, k: nat, b: B.Block, p: nat)
    requires TookBack(before, after, k, b) && InBlock(l, meta, b)
    ensures PageFreed(after, p) <==> PageFreed(before, p) || PageOf(l, meta, p)
  {
    if PageOf(l, meta, p) {
      var c :| InBlock(l, meta, c) && B.In(p, c);
      OneBlock(l, meta, b, c);
      assert B.Covered(p, after[k].0);
    }
    if PageFreed(before, p) {
      var i :| 0 <= i < |before| && B.Covered(p, before[i].0);
      assert B.Covered(p, after[i].0);
    }
    if PageFreed(after, p) {
      var i :| 0 <= i < |after| && B.Covered(p, after[i].0);
      assert B.Covered(p, before[i].0) || (i == k && B.In(p, b));
    }
  }

  /** `mem_pool_destroy` */
  method PoolDestroy(l: Layout, zones: seq<Memory.Zone>, ghost metas: set<nat>, meta: nat)
    requires Ready(zones) && Backed(l, metas, Snapshot(zones)) && meta in metas
    modifies zones, Orders(zones), Headers(zones)
    ensures Ready(zones) && Backed(l, metas - {meta}, Snapshot(zones))
    ensures forall p: nat :: PageFreed(Snapshot(zones), p) <==> PageFreed(old(Snapshot(zones)), p) || PageOf(l, meta, p)
    ensures Shrank(old(Snapshot(zones)), Snapshot(zones), l, {meta})
  {
    hide TookBack, PageFreed, PageOf, Shrank;
    ghost var before := Snapshot(zones);
    assert Backs(l, meta, before);
    ghost var b :| Outstanding(before, b) && InBlock(l, meta, b);
    ghost var k :| 0 <= k < |before| && b in before[k].1;
    HandedOut(zones[k], b.idx, b.order);
    forall i | 0 <= i < |before| && b in before[i].1 ensures i == k { OneOwner(zones, b, i, k); }
    var addr := meta - l.metaOffs - HIGHER_BASE;
    assert addr == b.idx * PAGE_SIZE && addr / PAGE_SIZE == b.idx;
    PageFree(zones, addr, l.poolOrder, k);
    BlockReturned(l, metas, meta, zones, before, k, b);
    TookShrank(before, Snapshot(zones), k, b, l, meta);
  }

  lemma OneGone(l: Layout, kept: set<nat>, list: seq<nat>, i: nat)
    requires i < |list| && NoDup(list) && kept !! Members(list)
    ensures list[i] in kept + Members(list[i..])
    ensures kept + Members(list[i..]) - {list[i]} == kept + Members(list[i + 1..])
    ensures forall p: nat :: PageOfSome(l, list[..i + 1], p) <==> PageOfSome(l, list[..i], p) || PageOf(l, list[i], p)
  {
    assert list[i..] == [list[i]] + list[i + 1..] && list[..i + 1] == list[..i] + [list[i]];
    assert list[i] in list && list[i] in list[i..];
  }

  /** The loop of `mem_cache_shrink`. */
  method DestroyAll(l: Layout, zones: seq<Memory.Zone>, ghost kept: set<nat>, list: seq<nat>)
    requires NoDup(list) && kept !! Members(list)
    requires Ready(zones) && Backed(l, kept + Members(list), Snapshot(zones))
    modifies zones, Orders(zones), Headers(zones)
    ensures Ready(zones) && Backed(l, kept, Snapshot(zones))
    ensures forall p: nat ::
      PageFreed(Snapshot(zones), p) <==> PageFreed(old(Snapshot(zones)), p) || PageOfSome(l, list, p)
    ensures Shrank(old(Snapshot(zones)), Snapshot(zones), l, Members(list))
  {
    hide Ready, Backed, PageFreed, PageOf, NoDup, Shrank;
    var i := 0;
    assert list[0..] == list && Members(list[..0]) == {};
    NothingGrew(Snapshot(zones), l);
    while i < |list|
      invariant i <= |list| && Ready(zones) && Backed(l, kept + Members(list[i..]), Snapshot(zones))
      invariant forall p: nat ::
        PageFreed(Snapshot(zones), p) <==> PageFreed(old(Snapshot(zones)), p) || PageOfSome(l, list[..i], p)
      invariant Shrank(old(Snapshot(zones)), Snapshot(zones), l, Members(list[..i]))
    {
      OneGone(l, kept, list, i);
      ghost var s1 := Snapshot(zones);
      PoolDestroy(l, zones, kept + Members(list[i..]), list[i]);
      ShrankTwice(old(Snapshot(zones)), s1, Snapshot(zones), l, list, i);
      i := i + 1;
    }
    assert kept + Members(list[i..]) == kept && list[..i] == list;
  }

  /** `mem_cache_shrink`: the empty pools go back to the page allocator, and
      their pages, which hold no object in use, become free. */
  method CacheShrink(c: MemCache, zones: seq<Memory.Zone>)
    requires c.Valid() && Ready(zones) && Backed(c.layout, c.pools.Keys, Snapshot(zones))
    modifies c, zones, Orders(zones), Headers(zones)
    ensures c.Valid() && Ready(zones) && Backed(c.layout, c.pools.Keys, Snapshot(zones))
    ensures c.freePools == [] && c.pools.Keys == old(c.pools.Keys) - Members(old(c.freePools))
    ensures forall a: nat :: Live(c.layout, c.pools, a) <==> Live(c.layout, old(c.pools), a)
    ensures forall p: nat ::
      PageFreed(Snapshot(zones), p) <==> PageFreed(old(Snapshot(zones)), p) || PageOfSome(c.layout, old(c.freePools), p)
    ensures Shrank(old(Snapshot(zones)), Snapshot(zones), c.layout, Members(old(c.freePools)))
  {
    hide Shrank, Ready, Backed, Live, PageFreed, PageOfSome, Slab.Holds, PoolsOk, GoodLayout, NoDup;
    NotTheCache(zones, c);
    ghost var metas := c.pools.Keys;
    var list := c.TakeFree();
    assert metas == c.pools.Keys + Members(list);
    DestroyAll(c.layout, zones, c.pools.Keys, list);
  }
}
