/** `kmap` and `kunmap`: the range allocator and the page tables together. */
module KernelMap {
  import opened Addresses
  import opened Bits
  import opened Options
  import opened PageTable
  import opened Spans
  import opened Kmap

  /** KMAP_BEGIN, KMAP_END and KMAP_PAGES */
  const KMAP_BEGIN: nat := 0xffff_ffff_0000_0000
  const KMAP_END: nat := 0xffff_ffff_8000_0000
  const KMAP_PAGES: nat := 0x8_0000

  /** `kmap_addr`: the first address of slot `p`. */
  function Va(p: nat): nat { KMAP_BEGIN + p * 0x1000 }

  /** The slot of an address. */
  function SlotOf(a: nat): nat
    requires KMAP_BEGIN <= a
  {
    (a - KMAP_BEGIN) / 0x1000
  }

  /** What the map `view` of slots to physical pages makes of address `a`. */
  function Seen(view: map<nat, nat>, a: nat): Option<nat>
    requires KMAP_BEGIN <= a
  {
    if SlotOf(a) in view then Some(view[SlotOf(a)] + a % 0x1000) else None
  }

  /** Walking the tables from any kmap address gives what `view` says. */
  ghost predicate Shows(mem: Memory, pml4: nat, view: map<nat, nat>)
  {
    forall a: nat :: KMAP_BEGIN <= a < KMAP_END ==> Walk(mem, pml4, LEVELS, a) == Seen(view, a)
  }

  /** The tables of the kmap area: complete down to level 1 and as `view` says. */
  ghost predicate Ready(mem: Memory, pml4: nat, view: map<nat, nat>)
  {
    && WF(mem, pml4, LEVELS)
    && Populated(mem, pml4, LEVELS, KMAP_BEGIN, KMAP_END)
    && Shows(mem, pml4, view)
  }

  lemma KmapRegion(a: nat)
    requires KMAP_BEGIN <= a < KMAP_END
    ensures Slot(a, LEVELS + 1) == 0xffff
  {
  }

  lemma VaFacts(p: nat)
    requires p < KMAP_PAGES
    ensures KMAP_BEGIN <= Va(p) && Va(p) + 0x1000 <= KMAP_END && Va(p) % 0x1000 == 0
  {
  }

  lemma InSlot(a: nat, p: nat)
    requires KMAP_BEGIN <= a
    ensures SlotOf(a) == p <==> Va(p) <= a < Va(p) + 0x1000
    ensures Va(p) <= a < Va(p) + 0x1000 ==> a % 0x1000 == a - Va(p)
  {
  }

  lemma Unmoved(mem: Memory, mem': Memory, pml4: nat, a: nat, p: nat, phys: nat, present: bool, view: map<nat, nat>)
    requires KMAP_BEGIN <= a < KMAP_END && p < KMAP_PAGES && Shows(mem, pml4, view)
    requires Mapped(mem, mem', pml4, LEVELS, Va(p), Va(p) + 0x1000, phys, present)
    ensures Walk(mem', pml4, LEVELS, a) == Seen(if present then view[p := phys] else view - {p}, a)
  {
    VaFacts(p);
    KmapRegion(a);
    KmapRegion(Va(p));
    InSlot(a, p);
    assert Walk(mem', pml4, LEVELS, a) == Image(mem, pml4, LEVELS, Va(p), Va(p) + 0x1000, phys, present, a);
  }

  /** No walk outside the kmap area has changed, in either half of the address
      space: the direct map and the processes see nothing of it. */
  ghost predicate OutsideKept(mem: Memory, mem': Memory, pml4: nat)
  {
    forall a: nat :: Canonical(a) && !(KMAP_BEGIN <= a < KMAP_END) ==>
      Walk(mem', pml4, LEVELS, a) == Walk(mem, pml4, LEVELS, a)
  }

  lemma NothingMoved(mem: Memory, pml4: nat)
    ensures OutsideKept(mem, mem, pml4)
  {
  }

  lemma OutsideInSteps(m0: Memory, m1: Memory, m2: Memory, pml4: nat)
    requires OutsideKept(m0, m1, pml4) && OutsideKept(m1, m2, pml4)
    ensures OutsideKept(m0, m2, pml4)
  {
    forall a: nat | Canonical(a) && !(KMAP_BEGIN <= a < KMAP_END)
      ensures Walk(m2, pml4, LEVELS, a) == Walk(m0, pml4, LEVELS, a)
    {
      assert Walk(m1, pml4, LEVELS, a) == Walk(m0, pml4, LEVELS, a);
    }
  }

  lemma OutsideOfSlot(mem: Memory, mem': Memory, pml4: nat, p: nat, phys: nat, present: bool)
    requires p < KMAP_PAGES && Mapped(mem, mem', pml4, LEVELS, Va(p), Va(p) + 0x1000, phys, present)
    ensures OutsideKept(mem, mem', pml4)
  {
    VaFacts(p);
    KmapRegion(Va(p));
    KmapRegion(Va(p) + 0x1000 - 1);
    CanonicalMapped(mem, mem', pml4, Va(p), Va(p) + 0x1000, phys, present);
  }

  /** When the area shows the same again, so does every canonical address. */
  lemma AllAsBefore(mem: Memory, mem': Memory, pml4: nat, view: map<nat, nat>, a: nat)
    requires Ready(mem, pml4, view) && Ready(mem', pml4, view) && OutsideKept(mem, mem', pml4) && Canonical(a)
    ensures Walk(mem', pml4, LEVELS, a) == Walk(mem, pml4, LEVELS, a)
  {
    if KMAP_BEGIN <= a < KMAP_END { assert Walk(mem', pml4, LEVELS, a) == Seen(view, a); }
  }

  /** One slot mapped. */
  lemma PageShown(mem: Memory, pool: set<nat>, mem': Memory, pool': set<nat>, pml4: nat, view: map<nat, nat>,
      p: nat, phys: nat)
    requires Ready(mem, pml4, view) && p < KMAP_PAGES
    requires Done(mem, pool, mem', pool', pml4, LEVELS, Va(p), Va(p) + 0x1000, phys, true, true)
    ensures Ready(mem', pml4, view[p := phys]) && pool' == pool
  {
    VaFacts(p);
    assert Populated(mem, pml4, LEVELS, Va(p), Va(p) + 0x1000);
    forall a: nat | KMAP_BEGIN <= a < KMAP_END
      ensures Walk(mem', pml4, LEVELS, a) == Seen(view[p := phys], a)
    {
      Unmoved(mem, mem', pml4, a, p, phys, true, view);
    }
  }

  /** One slot cleared. */
  lemma PageHidden(mem: Memory, mem': Memory, pml4: nat, view: map<nat, nat>, p: nat)
    requires Ready(mem, pml4, view) && p < KMAP_PAGES
    requires Cleared(mem, mem', pml4, LEVELS, Va(p))
    ensures Ready(mem', pml4, view - {p})
  {
    forall a: nat | KMAP_BEGIN <= a < KMAP_END
      ensures Walk(mem', pml4, LEVELS, a) == Seen(view - {p}, a)
    {
      Unmoved(mem, mem', pml4, a, p, 0, false, view);
    }
    forall a: nat | KMAP_BEGIN <= a < KMAP_END
      ensures LastTable(mem', pml4, LEVELS, a).Some?
    {
      assert LastTable(mem, pml4, LEVELS, a).Some?;
    }
  }

  /** A slot that shows nothing may be mapped, with an empty pool. */
  lemma SlotMappable(mem: Memory, pool: set<nat>, pml4: nat, view: map<nat, nat>, p: nat, phys: nat)
    requires Ready(mem, pml4, view) && p < KMAP_PAGES && p !in view && phys % 0x1000 == 0
    requires pool !! Foot(mem, pml4, LEVELS)
    ensures Mappable(mem, pool, pml4, LEVELS, Va(p), Va(p) + 0x1000, phys)
    ensures Populated(mem, pml4, LEVELS, Va(p), Va(p) + 0x1000)
  {
    VaFacts(p);
    KmapRegion(Va(p));
    KmapRegion(Va(p) + 0x1000 - 1);
  }

  /** The first `i` pages in the slots from `r`. */
  ghost function With(view: map<nat, nat>, r: nat, pages: seq<nat>, i: nat): map<nat, nat>
    requires i <= |pages|
  {
    if i == 0 then view else With(view, r, pages, i - 1)[r + i - 1 := pages[i - 1]]
  }

  lemma {:induction false} WithSlots(view: map<nat, nat>, r: nat, pages: seq<nat>, i: nat)
    requires i <= |pages|
    ensures forall p :: p in With(view, r, pages, i) <==> p in view || r <= p < r + i
    ensures forall p :: p in With(view, r, pages, i) ==>
      With(view, r, pages, i)[p] == if r <= p < r + i then pages[p - r] else view[p]
  {
    if i > 0 { WithSlots(view, r, pages, i - 1); }
  }

  /** `view` without the first `i` slots from `r`. */
  ghost function Cut(view: map<nat, nat>, r: nat, i: nat): map<nat, nat>
  {
    if i == 0 then view else Cut(view, r, i - 1) - {r + i - 1}
  }

  lemma {:induction false} CutSlots(view: map<nat, nat>, r: nat, i: nat)
    ensures forall p :: p in Cut(view, r, i) <==> p in view && !(r <= p < r + i)
    ensures forall p :: p in Cut(view, r, i) ==> Cut(view, r, i)[p] == view[p]
  {
    if i > 0 { CutSlots(view, r, i - 1); }
  }

  /** Mapped, then cut, the view is as before. */
  lemma WithThenCut(view: map<nat, nat>, r: nat, pages: seq<nat>)
    requires forall p :: r <= p < r + |pages| ==> p !in view
    ensures Cut(With(view, r, pages, |pages|), r, |pages|) == view
  {
    WithSlots(view, r, pages, |pages|);
    CutSlots(With(view, r, pages, |pages|), r, |pages|);
  }

  /** The addresses from Va(r) lead to the given pages, in their order. */
  ghost predicate Reads(mem: Memory, pml4: nat, addr: nat, pages: seq<nat>)
  {
    forall a: nat :: addr <= a < addr + 0x1000 * |pages| ==>
      Walk(mem, pml4, LEVELS, a) == Some(pages[(a - addr) / 0x1000] + a % 0x1000)
  }

  lemma PagesRead(mem: Memory, pml4: nat, view: map<nat, nat>, r: nat, pages: seq<nat>)
    requires Ready(mem, pml4, With(view, r, pages, |pages|)) && r + |pages| <= KMAP_PAGES
    ensures Reads(mem, pml4, Va(r), pages)
  {
    WithSlots(view, r, pages, |pages|);
    forall a: nat | Va(r) <= a < Va(r) + 0x1000 * |pages|
      ensures Walk(mem, pml4, LEVELS, a) == Some(pages[(a - Va(r)) / 0x1000] + a % 0x1000)
    {
      assert SlotOf(a) == r + (a - Va(r)) / 0x1000;
      assert a < KMAP_END;
    }
  }

  class KernelMapper {
    const area: KmapArea
    const space: AddressSpace
    const pml4: nat
    /** The page behind each slot of an allocated range. */
    ghost var given: map<nat, nat>

    ghost predicate Valid()
      reads this, area, area.ranges, area.lists, space
    {
      && area.Valid() && area.ranges.Length == KMAP_PAGES
      && Ready(space.mem, pml4, given) && space.pool !! Foot(space.mem, pml4, LEVELS)
      && (forall p: nat :: p in given <==> InSome(p, area.busy))
    }

    constructor (area: KmapArea, space: AddressSpace, pml4: nat)
      requires area.Valid() && area.ranges.Length == KMAP_PAGES && area.busy == {}
      requires Ready(space.mem, pml4, map[]) && space.pool !! Foot(space.mem, pml4, LEVELS)
      ensures this.area == area && this.space == space && this.pml4 == pml4 && given == map[] && Valid()
    {
      this.area, this.space, this.pml4, this.given := area, space, pml4, map[];
    }

    /** The loop of `__kmap`. */
    method MapAll(range: nat, pages: seq<nat>, ghost view: map<nat, nat>)
      requires Ready(space.mem, pml4, view) && space.pool !! Foot(space.mem, pml4, LEVELS)
      requires range + |pages| <= KMAP_PAGES && (forall p :: range <= p < range + |pages| ==> p !in view)
      requires forall x :: x in pages ==> x % 0x1000 == 0
      modifies space
      ensures Ready(space.mem, pml4, With(view, range, pages, |pages|)) && OutsideKept(old(space.mem), space.mem, pml4)
      ensures space.pool == old(space.pool) && space.pool !! Foot(space.mem, pml4, LEVELS)
    {
      hide Ready, OutsideKept;
      NothingMoved(space.mem, pml4);
      var i := 0;
      while i < |pages|
        invariant i <= |pages| && Ready(space.mem, pml4, With(view, range, pages, i))
        invariant OutsideKept(old(space.mem), space.mem, pml4)
        invariant space.pool == old(space.pool) && space.pool !! Foot(space.mem, pml4, LEVELS)
      {
        WithSlots(view, range, pages, i);
        assert pages[i] in pages;
        assert With(view, range, pages, i + 1) == With(view, range, pages, i)[range + i := pages[i]];
        ghost var m1 := space.mem;
        MapOne(range + i, pages[i], With(view, range, pages, i));
        OutsideInSteps(old(space.mem), m1, space.mem, pml4);
        i := i + 1;
      }
    }

    /** One page at one slot.  The pool is never asked. */
    method MapOne(p: nat, phys: nat, ghost view: map<nat, nat>)
      requires Ready(space.mem, pml4, view) && space.pool !! Foot(space.mem, pml4, LEVELS)
      requires p < KMAP_PAGES && p !in view && phys % 0x1000 == 0
      modifies space
      ensures Ready(space.mem, pml4, view[p := phys]) && OutsideKept(old(space.mem), space.mem, pml4)
      ensures space.pool == old(space.pool) && space.pool !! Foot(space.mem, pml4, LEVELS)
    {
      ghost var m0, p0 := space.mem, space.pool;
      SlotMappable(m0, p0, pml4, view, p, phys);
      VaFacts(p);
      var ok := space.PtMapPages(pml4, Va(p), Va(p) + 0x1000, phys);
      PageShown(m0, p0, space.mem, space.pool, pml4, view, p, phys);
      OutsideOfSlot(m0, space.mem, pml4, p, phys, true);
    }

    /** The loop of `__kunmap`. */
    method ClearAll(range: nat, count: nat, ghost view: map<nat, nat>)
      requires Ready(space.mem, pml4, view) && space.pool !! Foot(space.mem, pml4, LEVELS)
      requires range + count <= KMAP_PAGES
      modifies space`mem
      ensures Ready(space.mem, pml4, Cut(view, range, count)) && space.pool !! Foot(space.mem, pml4, LEVELS)
      ensures OutsideKept(old(space.mem), space.mem, pml4)
    {
      hide Ready, OutsideKept;
      NothingMoved(space.mem, pml4);
      var i := 0;
      while i < count
        invariant i <= count && Ready(space.mem, pml4, Cut(view, range, i))
        invariant OutsideKept(old(space.mem), space.mem, pml4)
        invariant space.pool !! Foot(space.mem, pml4, LEVELS)
      {
        assert Cut(view, range, i + 1) == Cut(view, range, i) - {range + i};
        ghost var m1 := space.mem;
        ClearOne(range + i, Cut(view, range, i));
        OutsideInSteps(old(space.mem), m1, space.mem, pml4);
        i := i + 1;
      }
    }

    method ClearOne(p: nat, ghost view: map<nat, nat>)
      requires Ready(space.mem, pml4, view) && space.pool !! Foot(space.mem, pml4, LEVELS) && p < KMAP_PAGES
      modifies space`mem
      ensures Ready(space.mem, pml4, view - {p}) && space.pool !! Foot(space.mem, pml4, LEVELS)
      ensures OutsideKept(old(space.mem), space.mem, pml4)
    {
      ghost var m0 := space.mem;
      VaFacts(p);
      space.ClearPage(pml4, Va(p));
      PageHidden(m0, space.mem, pml4, view, p);
      OutsideOfSlot(m0, space.mem, pml4, p, 0, false);
    }

    /** `kmap`: the address of the pages, mapped one after the other; None for 0. */
    method Kmap(pages: seq<nat>) returns (r: Option<nat>)
      requires Valid() && forall x :: x in pages ==> x % 0x1000 == 0
      modifies this, area, area.ranges, area.lists, space
      ensures Valid() && OutsideKept(old(space.mem), space.mem, pml4)
      ensures |pages| == 0 ==> r == None
      ensures |pages| == 1 ==> r == Some(HIGHER_BASE + pages[0])
      ensures |pages| <= 1 || r == None ==>
        given == old(given) && area.free == old(area.free) && area.busy == old(area.busy)
      ensures |pages| > 1 ==> (r.None? <==>
        |pages| >= Pow2(ORDERS) || forall s :: s in old(area.free) ==> s.pages < |pages|)
      ensures |pages| > 1 && r.Some? ==> KMAP_BEGIN <= r.value && r.value % 0x1000 == 0
      ensures |pages| > 1 && r.Some? ==>
        MappedAt(old(area.free), old(area.busy), old(given), area.free, area.busy, given, SlotOf(r.value), pages)
      ensures |pages| > 1 && r.Some? ==> Reads(space.mem, pml4, r.value, pages)
      ensures |pages| > 1 && r.Some? ==>
        Chosen(old(area.ranges[..]), old(area.lists[..]), old(area.free), |pages|, SlotOf(r.value))
    {
      hide *;
      NothingMoved(space.mem, pml4);
      if |pages| == 0 { return None; }
      if |pages| == 1 { return Some(HIGHER_BASE + pages[0]); }
      r := KmapMany(pages);
    }

    /** Two pages and more: a span of the kmap area, mapped to them. */
    method KmapMany(pages: seq<nat>) returns (r: Option<nat>)
      requires Valid() && |pages| > 1 && forall x :: x in pages ==> x % 0x1000 == 0
      modifies this, area, area.ranges, area.lists, space
      ensures Valid() && OutsideKept(old(space.mem), space.mem, pml4)
      ensures r == None ==> given == old(given) && area.free == old(area.free) && area.busy == old(area.busy)
      ensures r.None? <==> |pages| >= Pow2(ORDERS) || forall s :: s in old(area.free) ==> s.pages < |pages|
      ensures r.Some? ==> KMAP_BEGIN <= r.value && r.value % 0x1000 == 0
      ensures r.Some? ==>
        MappedAt(old(area.free), old(area.busy), old(given), area.free, area.busy, given, SlotOf(r.value), pages)
      ensures r.Some? ==> Reads(space.mem, pml4, r.value, pages)
      ensures r.Some? ==>
        Chosen(old(area.ranges[..]), old(area.lists[..]), old(area.free), |pages|, SlotOf(r.value))
    {
      hide Chosen, Ready, Reads, TakenOut, With, Pow2, InSome, OutsideKept;
      NothingMoved(space.mem, pml4);
      var range := area.AllocRange(|pages|);
      if range.None? { return None; }
      ghost var s := Span(range.value, |pages|);
      NewSpan(old(area.busy), area.free, area.busy, s, old(area.free), KMAP_PAGES, given);
      MapAll(range.value, pages, given);
      PagesRead(space.mem, pml4, given, range.value, pages);
      WithSlots(given, range.value, pages, |pages|);
      given := With(given, range.value, pages, |pages|);
      VaFacts(range.value);
      InSlot(Va(range.value), range.value);
      r := Some(Va(range.value));
    }

    /** `kunmap` of a range `kmap` returned; other addresses are ignored. */
    method Kunmap(ptr: nat, ghost s: Span)
      requires Valid()
      requires KMAP_BEGIN <= ptr < KMAP_END ==> s in area.busy && ptr == Va(s.start)
      modifies this, area, area.ranges, area.lists, space
      ensures Valid() && OutsideKept(old(space.mem), space.mem, pml4)
      ensures !(KMAP_BEGIN <= ptr < KMAP_END) ==>
        given == old(given) && area.free == old(area.free) && area.busy == old(area.busy)
      ensures KMAP_BEGIN <= ptr < KMAP_END ==>
        && area.busy == old(area.busy) - {s} && given == Cut(old(given), s.start, s.pages)
        && (forall p: nat :: InSome(p, area.free) <==> InSome(p, old(area.free)) || Inside(p, s))
    {
      hide OutsideKept, ListedAs, Tile, Separate;
      NothingMoved(space.mem, pml4);
      if ptr < KMAP_BEGIN || ptr >= KMAP_END { return; }
      InSlot(ptr, s.start);
      var range := SlotOf(ptr);
      ToHand(area.ranges[..], area.lists[..], area.free, area.busy, s);
      var count := area.ranges[range].pages;
      ClearAll(range, count, given);
      OldSpan(area.free, area.busy, s, given, KMAP_PAGES);
      given := Cut(given, range, count);
      area.busy := area.busy - {s};
      area.FreeRange(range, count);
    }
  }

  /** `kmap_setup`: tables for the whole area, which is one free range.  Null
      stands for the BUG when the pages run out on the way. */
  method KmapSetup(space: AddressSpace, pml4: nat, ranges: array<KmapRange>) returns (m: KernelMapper?)
    requires WF(space.mem, pml4, LEVELS) && Vacant(space.mem, pml4, LEVELS, KMAP_BEGIN, KMAP_END)
    requires space.pool !! Foot(space.mem, pml4, LEVELS) && ranges.Length == KMAP_PAGES
    modifies space, ranges
    ensures m == null ==> space.pool == {}
    ensures m != null <==>
      |old(space.pool)| >= |NewTables(old(space.mem), pml4, LEVELS, KMAP_BEGIN, KMAP_END, 0, false)|
    ensures m != null ==> m.Valid() && m.space == space && m.pml4 == pml4
    ensures m != null ==> m.given == map[] && m.area.free == {Span(0, KMAP_PAGES)} && m.area.busy == {}
    ensures m != null ==> Mapped(old(space.mem), space.mem, pml4, LEVELS, KMAP_BEGIN, KMAP_END, 0, false)
    ensures m != null ==> MappedEverywhere(old(space.mem), space.mem, pml4, KMAP_BEGIN, KMAP_END, 0, false)
  {
    hide NewTables, Thrifty;
    ghost var m0 := space.mem;
    var ok := space.PtPopulatePages(pml4, KMAP_BEGIN, KMAP_END);
    if !ok { return null; }
    forall a: nat | KMAP_BEGIN <= a < KMAP_END ensures Walk(space.mem, pml4, LEVELS, a) == None
    {
      KmapRegion(a);
      KmapRegion(KMAP_BEGIN);
      assert Walk(space.mem, pml4, LEVELS, a) == Image(m0, pml4, LEVELS, KMAP_BEGIN, KMAP_END, 0, false, a);
    }
    var area := new KmapArea(ranges);
    m := new KernelMapper(area, space, pml4);
  }

  /** What a successful `kmap` did to the area and to the view. */
  ghost predicate MappedAt(free: set<Span>, busy: set<Span>, given: map<nat, nat>,
      free': set<Span>, busy': set<Span>, given': map<nat, nat>, r: nat, pages: seq<nat>)
  {
    && busy' == busy + {Span(r, |pages|)} && Span(r, |pages|) !in busy
    && TakenOut(free, free', Span(r, |pages|))
    && given' == With(given, r, pages, |pages|)
    && (forall p :: r <= p < r + |pages| ==> p !in given)
  }

  /** A span just allocated shows nothing yet. */
  lemma NewSpan(busy: set<Span>, free': set<Span>, busy': set<Span>, s: Span, free: set<Span>, n: nat,
      given: map<nat, nat>)
    requires busy' == busy + {s} && s !in busy && Tile(free' + busy' + {}, n)
    requires forall p: nat :: p in given <==> InSome(p, busy)
    ensures s.start + s.pages <= n && s.pages > 0
    ensures forall p :: s.start <= p < s.start + s.pages ==> p !in given
    ensures forall p: nat :: InSome(p, busy') <==> p in given || Inside(p, s)
  {
    var all := free' + busy' + {};
    assert s in all;
    forall p | s.start <= p < s.start + s.pages ensures !InSome(p, busy)
    {
      forall t | t in busy ensures !Inside(p, t) { assert t in all && t != s; assert Apart(t, s); }
    }
    forall p: nat ensures InSome(p, busy') <==> p in given || Inside(p, s) { Gained(busy, s, p); }
  }

  /** A span on its way back. */
  lemma ToHand(ranges: seq<KmapRange>, lists: seq<seq<nat>>, free: set<Span>, busy: set<Span>, s: Span)
    requires Holds(ranges, lists, free, busy, {}) && s in busy
    ensures s.start + s.pages <= |ranges| && ranges[s.start].pages == s.pages > 0
    ensures Holds(ranges, lists, free, busy - {s}, {s})
  {
    assert free + busy + {} == free + (busy - {s}) + {s};
  }

  /** What is left of the view when one span is cut out of it. */
  lemma OldSpan(free: set<Span>, busy: set<Span>, s: Span, given: map<nat, nat>, n: nat)
    requires Tile(free + busy + {}, n) && s in busy
    requires forall p: nat :: p in given <==> InSome(p, busy)
    ensures forall p: nat :: p in Cut(given, s.start, s.pages) <==> InSome(p, busy - {s})
  {
    CutSlots(given, s.start, s.pages);
    forall p: nat ensures p in Cut(given, s.start, s.pages) <==> InSome(p, busy - {s})
    {
      Gained(busy - {s}, s, p);
      assert busy - {s} + {s} == busy;
      if InSome(p, busy - {s}) {
        var t :| t in busy - {s} && Inside(p, t);
        assert Apart(t, s);
      }
    }
  }

  /** `kunmap` undoes `kmap`: the area, its free ranges and the view are back. */
  lemma KmapThenKunmap(free: set<Span>, busy: set<Span>, given: map<nat, nat>,
      free1: set<Span>, busy1: set<Span>, given1: map<nat, nat>,
      free2: set<Span>, busy2: set<Span>, given2: map<nat, nat>, r: nat, pages: seq<nat>)
    requires Tile(free + busy, KMAP_PAGES) && free !! busy && Separate(free)
    requires Tile(free2 + busy2, KMAP_PAGES) && free2 !! busy2 && Separate(free2)
    requires MappedAt(free, busy, given, free1, busy1, given1, r, pages)
    requires busy2 == busy1 - {Span(r, |pages|)} && given2 == Cut(given1, r, |pages|)
    requires forall p: nat :: InSome(p, free2) <==> InSome(p, free1) || Inside(p, Span(r, |pages|))
    ensures free2 == free && busy2 == busy && given2 == given
  {
    AllocThenFree(free, busy, free1, free2, busy2, Span(r, |pages|), KMAP_PAGES);
    WithThenCut(given, r, pages);
  }
}
