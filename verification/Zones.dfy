/** `page_alloc_setup`: one buddy zone per known range, filled with the whole
    pages of the free ranges. */
module Zones {
  import opened Addresses
  import opened Bits
  import opened Ranges
  import opened Balloc
  import opened Options
  import opened Memory
  import B = Blocks
  import Boot

  /** The whole pages of a range: from `FirstPage` up to but not including
      `EndPage`.  Page 0 is never handed out. */
  function FirstPage(r: Range): nat { (r.begin + PAGE_SIZE - 1) / PAGE_SIZE }

  function EndPage(r: Range): nat { r.end / PAGE_SIZE }

  function FirstFree(r: Range): nat { if FirstPage(r) == 0 then 1 else FirstPage(r) }

  ghost predicate HasPage(r: Range, p: nat) { FirstFree(r) <= p < EndPage(r) }

  /** Every byte of page `p` lies in the ranges. */
  ghost predicate PageCovered(s: seq<Range>, p: nat)
  {
    forall a: nat :: p * PAGE_SIZE <= a < p * PAGE_SIZE + PAGE_SIZE ==> Ranges.Covers(s, a)
  }

  /** The rounded ends enclose exactly the pages that lie in the ranges with all
      their bytes. */
  lemma PageInRange(s: seq<Range>, p: nat)
    requires Separated(s)
    ensures PageCovered(s, p) <==> exists r :: r in s && FirstPage(r) <= p < EndPage(r)
  {
    if PageCovered(s, p) {
      var i := RunInOneRange(s, p * PAGE_SIZE, p * PAGE_SIZE + PAGE_SIZE);
      assert s[i] in s && FirstPage(s[i]) <= p < EndPage(s[i]);
    }
    forall r, a: nat | r in s && FirstPage(r) <= p < EndPage(r) && p * PAGE_SIZE <= a < p * PAGE_SIZE + PAGE_SIZE
      ensures Ranges.Covers(s, a)
    {
      assert Has(r, a);
    }
  }

  ghost predicate KnownOnly(free: seq<Range>, known: seq<Range>)
  {
    forall a: nat :: Ranges.Covers(free, a) ==> Ranges.Covers(known, a)
  }

  /** Every free range with a whole page lies in one known range, hence in one
      zone: the BUG_ONs that look for the zone cannot fire. */
  lemma ZoneOfRange(known: seq<Range>, free: seq<Range>, r: Range) returns (i: nat)
    requires Separated(known) && KnownOnly(free, known) && r in free && FirstFree(r) < EndPage(r)
    ensures i < |known| && FirstPage(known[i]) <= FirstFree(r) && EndPage(r) <= EndPage(known[i])
  {
    forall a: nat | r.begin <= a < r.end ensures Ranges.Covers(known, a) { assert Has(r, a); }
    i := RunInOneRange(known, r.begin, r.end);
  }

  /** Separated ranges leave a gap of a page between their whole pages, so
      pages of different free ranges are never neighbours. */
  lemma RunsApart(x: Range, y: Range)
    requires x.end < y.begin
    ensures EndPage(x) < FirstFree(y) && EndPage(x) < FirstPage(y)
  {
  }

  lemma PagesOrdered(x: Range, y: Range)
    requires x.end <= y.end
    ensures EndPage(x) <= EndPage(y)
  {
  }

  /** The arrays of the zones. */
  ghost function Orders(zones: seq<Zone>): set<array<seq<nat>>> { set z | z in zones :: z.order }

  ghost function Headers(zones: seq<Zone>): set<array<Page>> { set z | z in zones :: z.pages }

  ghost predicate Apart(zones: seq<Zone>)
  {
    forall i, j :: 0 <= i < j < |zones| ==>
      && zones[i] != zones[j] && zones[i].order != zones[j].order && zones[i].pages != zones[j].pages
      && zones[i].end < zones[j].begin
  }

  /** Every zone has nothing outstanding and has released exactly the whole
      pages of `done` inside it; the headers of its other pages are what the
      memory held when they were put there. */
  ghost predicate Released(zones: seq<Zone>, done: seq<Range>, ram: nat -> Page)
    reads zones, Orders(zones), Headers(zones)
  {
    Apart(zones) && forall z :: z in zones ==> ReleasedIn(z, done, ram)
  }

  ghost predicate ReleasedIn(z: Zone, done: seq<Range>, ram: nat -> Page)
    reads z, z.order, z.pages
  {
    && z.Carved() && z.busy == {} && z.pages.Length == z.end - z.begin
    && (forall p :: p in z.released <==> z.begin <= p < z.end && OnSomePage(done, p))
    && (forall p :: z.begin <= p < z.end && p !in z.released ==> z.pages[p - z.begin] == ram(p))
  }

  ghost predicate OnSomePage(done: seq<Range>, p: nat) { exists r :: r in done && HasPage(r, p) }

  /** There is a zone for the whole pages of each known range. */
  ghost predicate ZoneFor(zones: seq<Zone>, known: seq<Range>)
  {
    forall i :: 0 <= i < |known| && FirstPage(known[i]) < EndPage(known[i]) ==>
      exists z :: z in zones && z.begin == FirstPage(known[i]) && z.end == EndPage(known[i])
  }

  /** and no other zone. */
  ghost predicate OnlyFor(zones: seq<Zone>, known: seq<Range>)
  {
    forall z :: z in zones ==>
      exists r :: r in known && FirstPage(r) < EndPage(r) && z.begin == FirstPage(r) && z.end == EndPage(r)
  }

  // ---- the memory of the zones' headers ----

  /** `sizeof(struct page_alloc_zone)` and `sizeof(struct page)` */
  datatype Sizes = Sizes(zone: nat, page: nat)

  /** Bytes of a zone with the headers of its pages. */
  function ZoneBytes(sizes: Sizes, begin: nat, end: nat): nat
  {
    sizes.zone + sizes.page * (if begin < end then end - begin else 0)
  }

  /** UINTPTR_MAX */
  const NOWHERE: nat := 0xffff_ffff_ffff_ffff

  /** The addresses behind the free ranges leave room for the sums of the search. */
  ghost predicate Roomy(free: seq<Range>, size: nat)
  {
    size + 64 <= Pow2(64) && EndWithin(free, Pow2(64) - 64 - size)
  }

  ghost predicate RoomyFor(free: seq<Range>, known: seq<Range>, sizes: Sizes)
  {
    sizes.zone > 0 && forall r :: r in known ==> Roomy(free, ZoneBytes(sizes, FirstPage(r), EndPage(r)))
  }

  lemma StillRoomy(free: seq<Range>, known: seq<Range>, sizes: Sizes, from: nat, to: nat)
    requires RoomyFor(free, known, sizes) && from <= to
    ensures RoomyFor(Remove(free, from, to), known, sizes)
  {
    hide ZoneBytes, FirstPage, EndPage, Pow2;
    forall r | r in known ensures Roomy(Remove(free, from, to), ZoneBytes(sizes, FirstPage(r), EndPage(r)))
    {
      RemoveEnds(free, from, to, Pow2(64) - 64 - ZoneBytes(sizes, FirstPage(r), EndPage(r)));
    }
  }

  /** `free'` is what `taken` leaves of `free`; the blocks taken lie apart. */
  ghost predicate TakenOut(free: seq<Range>, free': seq<Range>, taken: seq<Range>)
  {
    && (forall a: nat :: Ranges.Covers(free', a) <==> Ranges.Covers(free, a) && !Ranges.Covers(taken, a))
    && (forall a: nat :: Ranges.Covers(taken, a) ==> Ranges.Covers(free, a))
    && (forall i, j, a: nat :: 0 <= i < j < |taken| && Has(taken[i], a) ==> !Has(taken[j], a))
  }

  lemma NothingTaken(free: seq<Range>)
    ensures TakenOut(free, free, [])
  {
  }

  lemma BlockTaken(free: seq<Range>, free1: seq<Range>, taken: seq<Range>, size: nat, k: nat, to: nat, addr: nat)
    requires TakenOut(free, free1, taken) && IsLowestFit(free1, size, k, 0, to, addr)
    ensures TakenOut(free, Remove(free1, addr, addr + size), taken + [Range(addr, addr + size)])
  {
    var h := Range(addr, addr + size);
    forall a: nat
      ensures Ranges.Covers(Remove(free1, addr, addr + size), a) <==> Ranges.Covers(free1, a) && !Has(h, a)
      ensures Has(h, a) ==> Ranges.Covers(free1, a)
      ensures Ranges.Covers([h], a) <==> Has(h, a)
    {
      assert h in [h];
      RemoveIsDifference(free1, addr, addr + size, a);
    }
    assert TakenOut(free1, Remove(free1, addr, addr + size), [h]);
    TakenTwice(free, free1, Remove(free1, addr, addr + size), taken, [h]);
  }

  lemma TakenTwice(free: seq<Range>, free1: seq<Range>, free2: seq<Range>, first: seq<Range>, second: seq<Range>)
    requires TakenOut(free, free1, first) && TakenOut(free1, free2, second)
    ensures TakenOut(free, free2, first + second)
  {
    var all := first + second;
    forall a: nat ensures Ranges.Covers(all, a) <==> Ranges.Covers(first, a) || Ranges.Covers(second, a)
    {
      CoversConcat(first, second, a);
    }
    forall i, j, a: nat | 0 <= i < j < |all| && Has(all[i], a) ensures !Has(all[j], a)
    {
      if i < |first| && j >= |first| && Has(all[j], a) {
        assert all[i] in first && all[j] == second[j - |first|] && all[j] in second;
        assert Ranges.Covers(first, a) && Ranges.Covers(second, a);
        assert false;
      } else if i >= |first| {
        assert all[i] == second[i - |first|] && all[j] == second[j - |first|];
      }
    }
  }

  /** Every zone has a header of its size. */
  ghost predicate HeadersFor(zones: seq<Zone>, headers: seq<Range>, sizes: Sizes)
  {
    && |headers| == |zones|
    && forall i :: 0 <= i < |zones| ==>
         headers[i].end == headers[i].begin + ZoneBytes(sizes, zones[i].begin, zones[i].end)
  }

  /** A zone without pages takes its own fields only, every page one header more. */
  lemma OneHeaderMore(sizes: Sizes, begin: nat, end: nat)
    requires begin <= end
    ensures ZoneBytes(sizes, begin, begin) == sizes.zone
    ensures ZoneBytes(sizes, begin, end + 1) == ZoneBytes(sizes, begin, end) + sizes.page
  {
    assert sizes.page * (end + 1 - begin) == sizes.page * (end - begin) + sizes.page;
  }

  /** Where a zone whose header begins at `begin` keeps the header of page `p`. */
  function HeaderOf(sizes: Sizes, begin: nat, first: nat, p: nat): Range
    requires first <= p
  {
    var at := begin + sizes.zone + (p - first) * sizes.page;
    Range(at, at + sizes.page)
  }

  /** Cell `i` of an array of `n` cells of `size` bytes. */
  lemma ArrayCell(size: nat, i: nat, n: nat)
    requires i < n
    ensures size * (i + 1) == size * i + size && size * (i + 1) <= size * n
  {
    assert size * (n - i - 1) >= 0;
    assert size * n == size * (i + 1) + size * (n - i - 1);
  }

  lemma ProductsAgree(size: nat, i: nat)
    ensures i * size == size * i
  {
  }

  /** The zone's own fields and the headers of its pages, one behind the other,
      take exactly the block that was allocated for them. */
  lemma HeaderHoldsAll(sizes: Sizes, h: Range, first: nat, last: nat, p: nat)
    requires h.end == h.begin + ZoneBytes(sizes, first, last) && first <= p < last
    ensures var own := HeaderOf(sizes, h.begin, first, p);
      && h.begin + sizes.zone <= own.begin && own.end <= h.end
      && (p == first ==> own.begin == h.begin + sizes.zone) && (p + 1 == last ==> own.end == h.end)
      && (p + 1 < last ==> HeaderOf(sizes, h.begin, first, p + 1).begin == own.end)
  {
    var n, i := last - first, p - first;
    ArrayCell(sizes.page, i, n);
    ProductsAgree(sizes.page, i);
    ProductsAgree(sizes.page, i + 1);
  }

  /** The boot allocator with nodes enough for `n` more allocations. */
  ghost predicate Booted(b: BootAllocator, known: seq<Range>, free: seq<Range>, n: nat)
    reads b, b.memoryMap, b.freeRanges
  {
    && b.Valid() && b.held == 0 && |b.freeNodes| >= n + 2
    && b.Stored(b.memoryMap) == known && b.Stored(b.freeRanges) == free
  }

  /** No zone of the size fits into the free ranges, which is a BUG. */
  ghost predicate NoRoom(free: seq<Range>, size: nat)
  {
    NothingFits(free, size, Shift(size), 0, NOWHERE)
  }

  ghost predicate MissingRoom(known: seq<Range>, free: seq<Range>, sizes: Sizes)
  {
    exists r :: r in known && FirstPage(r) < EndPage(r) && NoRoom(free, ZoneBytes(sizes, FirstPage(r), EndPage(r)))
  }

  /** `balloc_alloc` for one zone. */
  method AllocHeader(b: BootAllocator, size: nat, ghost known: seq<Range>, ghost free: seq<Range>, ghost n: nat)
    returns (addr: nat)
    requires Booted(b, known, free, n + 1) && Roomy(free, size) && size > 0
    modifies b, b.freeRanges
    ensures addr == NOWHERE ==> Booted(b, known, free, n) && NoRoom(free, size)
    ensures addr != NOWHERE ==> Booted(b, known, Remove(free, addr, addr + size), n)
    ensures addr != NOWHERE ==> IsLowestFit(free, size, Shift(size), 0, NOWHERE, addr)
  {
    hide IsLowestFit, NothingFits, Remove, Separated, Shift;
    RoomEnough(b, size, known, free, n + 1);
    addr := b.AllocDefault(size, 0, NOWHERE);
  }

  lemma RoomEnough(b: BootAllocator, size: nat, known: seq<Range>, free: seq<Range>, n: nat)
    requires Booted(b, known, free, n) && Roomy(free, size)
    ensures b.NoWrap(size, 64, 0, NOWHERE) && b.NodesToAlloc(size, Shift(size), 0, NOWHERE)
  {
    hide Pow2;
    forall r | r in free ensures r.begin <= r.end { }
    b.TwoNodes(size, Shift(size), 0, NOWHERE);
  }

  /** What the loop over the known ranges has done. */
  ghost predicate SetUp(zones: seq<Zone>, known: seq<Range>, headers: seq<Range>, sizes: Sizes, ram: nat -> Page)
    reads zones, Orders(zones), Headers(zones)
  {
    Released(zones, [], ram) && ZoneFor(zones, known) && OnlyFor(zones, known) && HeadersFor(zones, headers, sizes)
  }

  lemma NoZones(known: seq<Range>, sizes: Sizes, ram: nat -> Page)
    ensures SetUp([], known[..0], [], sizes, ram) && EndBy([], known, 0)
    ensures Orders([]) == {} && Headers([]) == {}
  {
  }

  /** The zones end with the ranges before the `i`-th. */
  ghost predicate EndBy(zones: seq<Zone>, known: seq<Range>, i: nat)
    requires i <= |known|
  {
    forall z :: z in zones ==> i > 0 && z.end <= EndPage(known[i - 1])
  }

  /** The first loop of `page_alloc_setup`: a zone with its header for every
      known range that has a whole page.  `ram` is what the memory holds where
      the header of a page is put, since nothing is cleared. */
  method SetupZones(b: BootAllocator, known: seq<Range>, ghost free: seq<Range>, sizes: Sizes, ram: nat -> Page)
    returns (ok: bool, zones: seq<Zone>, ghost headers: seq<Range>, ghost free': seq<Range>)
    requires Booted(b, known, free, |known|) && Separated(known) && RoomyFor(free, known, sizes)
    modifies b, b.freeRanges
    ensures Booted(b, known, free', 0) && TakenOut(free, free', headers)
    ensures ok ==> SetUp(zones, known, headers, sizes, ram)
    ensures !ok ==> MissingRoom(known, free', sizes)
    ensures ok ==> fresh(zones) && fresh(Orders(zones)) && fresh(Headers(zones))
  {
    hide *;
    ok, zones, headers, free' := true, [], [], free;
    NothingTaken(free);
    NoZones(known, sizes, ram);
    var i := 0;
    while i < |known|
      invariant i <= |known| && SetUp(zones, known[..i], headers, sizes, ram)
      invariant EndBy(zones, known, i)
      invariant Booted(b, known, free', |known| - i) && TakenOut(free, free', headers)
      invariant RoomyFor(free', known, sizes)
      invariant (forall y :: y in zones ==> fresh(y)) && fresh(Orders(zones)) && fresh(Headers(zones))
    {
      ok, zones, headers, free' := SetupNext(b, zones, known, i, sizes, ram, headers, free, free');
      if !ok { BootedLess(b, known, free', |known| - (i + 1), 0); return; }
      i := i + 1;
    }
    assert known[..i] == known;
    forall j | 0 <= j < |zones| ensures fresh(zones[j]) { assert zones[j] in zones; }
  }

  lemma BootedLess(b: BootAllocator, known: seq<Range>, free: seq<Range>, n: nat, m: nat)
    requires Booted(b, known, free, n) && m <= n
    ensures Booted(b, known, free, m)
  {
  }

  lemma Behind(known: seq<Range>, i: nat, zones: seq<Zone>)
    requires Separated(known) && i < |known| && EndBy(zones, known, i)
    ensures EndBy(zones, known, i + 1)
    ensures FirstPage(known[i]) < EndPage(known[i]) ==> forall y :: y in zones ==> y.end < FirstPage(known[i])
  {
    if i > 0 {
      RunsApart(known[i - 1], known[i]);
      PagesOrdered(known[i - 1], known[i]);
    }
  }

  lemma Skipped(zones: seq<Zone>, before: seq<Range>, r: Range, headers: seq<Range>, sizes: Sizes, ram: nat -> Page)
    requires SetUp(zones, before, headers, sizes, ram) && !(FirstPage(r) < EndPage(r))
    ensures SetUp(zones, before + [r], headers, sizes, ram)
  {
    forall x | x in before ensures x in before + [r] { }
    forall z | z in zones
      ensures exists x ::
        x in before + [r] && FirstPage(x) < EndPage(x) && z.begin == FirstPage(x) && z.end == EndPage(x)
    {
      var x :| x in before && FirstPage(x) < EndPage(x) && z.begin == FirstPage(x) && z.end == EndPage(x);
      assert x in before + [r];
    }
  }

  /** One turn of the loop. */
  method SetupNext(b: BootAllocator, zones: seq<Zone>, known: seq<Range>, i: nat, sizes: Sizes, ram: nat -> Page,
      ghost headers: seq<Range>, ghost free0: seq<Range>, ghost free1: seq<Range>)
    returns (ok: bool, zones': seq<Zone>, ghost headers': seq<Range>, ghost free': seq<Range>)
    requires i < |known| && Separated(known)
    requires SetUp(zones, known[..i], headers, sizes, ram) && EndBy(zones, known, i)
    requires Booted(b, known, free1, |known| - i) && TakenOut(free0, free1, headers) && RoomyFor(free1, known, sizes)
    modifies b, b.freeRanges
    ensures Booted(b, known, free', |known| - i - 1)
    ensures TakenOut(free0, free', headers') && RoomyFor(free', known, sizes)
    ensures ok ==> SetUp(zones', known[..i + 1], headers', sizes, ram) && EndBy(zones', known, i + 1)
    ensures !ok ==> MissingRoom(known, free', sizes)
    ensures forall y :: y in zones' ==> y in zones || fresh(y)
    ensures forall o :: o in Orders(zones') ==> o in Orders(zones) || fresh(o)
    ensures forall a :: a in Headers(zones') ==> a in Headers(zones) || fresh(a)
  {
    hide SetUp, Booted, TakenOut, RoomyFor, Separated, FirstPage, EndPage, NoRoom, IsLowestFit, Remove;
    var r := known[i];
    ok, zones', headers', free' := true, zones, headers, free1;
    assert known[..i + 1] == known[..i] + [r];
    Behind(known, i, zones);
    if FirstPage(r) < EndPage(r) {
      var size := ZoneBytes(sizes, FirstPage(r), EndPage(r));
      RoomFor(free1, known, sizes, r);
      NotTheAllocator(zones, b);
      var addr := AllocHeader(b, size, known, free1, |known| - i - 1);
      if addr == NOWHERE { return false, zones, headers, free1; }
      BlockTaken(free0, free1, headers, size, Shift(size), NOWHERE, addr);
      StillRoomy(free1, known, sizes, addr, addr + size);
      free' := Remove(free1, addr, addr + size);
      headers' := headers + [Range(addr, addr + size)];
      zones' := SetupZone(zones, known[..i], r, headers, Range(addr, addr + size), sizes, ram);
    } else {
      Skipped(zones, known[..i], r, headers, sizes, ram);
      BootedLess(b, known, free1, |known| - i, |known| - i - 1);
    }
  }

  lemma NotTheAllocator(zones: seq<Zone>, b: BootAllocator)
    ensures forall z: object :: z in zones ==> z !in {b, b.memoryMap, b.freeRanges}
    ensures forall o: object :: o in Orders(zones) || o in Headers(zones) ==> o !in {b, b.memoryMap, b.freeRanges}
  {
  }

  lemma RoomFor(free: seq<Range>, known: seq<Range>, sizes: Sizes, r: Range)
    requires RoomyFor(free, known, sizes) && r in known
    ensures Roomy(free, ZoneBytes(sizes, FirstPage(r), EndPage(r))) && ZoneBytes(sizes, FirstPage(r), EndPage(r)) > 0
  {
    hide FirstPage, EndPage, Roomy;
  }

  /** `__page_alloc_zone_setup` and `list_add_tail`. */
  method SetupZone(zones: seq<Zone>, ghost before: seq<Range>, r: Range, ghost headers: seq<Range>, ghost h: Range,
      ghost sizes: Sizes, ram: nat -> Page) returns (zones': seq<Zone>)
    requires SetUp(zones, before, headers, sizes, ram) && FirstPage(r) < EndPage(r)
    requires h.end == h.begin + ZoneBytes(sizes, FirstPage(r), EndPage(r))
    requires forall y :: y in zones ==> y.end < FirstPage(r)
    ensures SetUp(zones', before + [r], headers + [h], sizes, ram)
    ensures forall y :: y in zones' ==> y.end <= EndPage(r)
    ensures forall y :: y in zones' ==> y in zones || fresh(y)
    ensures forall o :: o in Orders(zones') ==> o in Orders(zones) || fresh(o)
    ensures forall a :: a in Headers(zones') ==> a in Headers(zones) || fresh(a)
  {
    hide SetUp, ZoneBytes, ReleasedIn;
    var z := NewZone(FirstPage(r), EndPage(r), ram);
    assert forall o :: o in Orders(zones) ==> o != z.order;
    assert forall o :: o in Headers(zones) ==> o != z.pages;
    assert SetUp(zones, before, headers, sizes, ram);
    ZoneAdded(zones, z, before, r, headers, h, sizes, ram);
    ZonesOf(zones, z);
    zones' := zones + [z];
  }

  method NewZone(begin: nat, end: nat, ram: nat -> Page) returns (z: Zone)
    requires begin < end
    ensures ReleasedIn(z, [], ram) && z.begin == begin && z.end == end
    ensures fresh(z) && fresh(z.order) && fresh(z.pages)
  {
    hide Memory.HeadersHold, Memory.ListsHold, Memory.Tiled;
    var headers := seq(end - begin, i requires 0 <= i => ram(begin + i));
    z := new Zone(begin, end, headers);
    assert z.pages.Length == |headers| by { assert |z.pages[..]| == |headers|; }
    forall p | begin <= p < end ensures z.pages[p - begin] == ram(p)
    {
      assert z.pages[..][p - begin] == headers[p - begin] == ram(begin + (p - begin));
    }
  }

  /** One more zone, behind the others. */
  lemma ZoneAdded(zones: seq<Zone>, z: Zone, before: seq<Range>, r: Range, headers: seq<Range>, h: Range, sizes: Sizes,
      ram: nat -> Page)
    requires SetUp(zones, before, headers, sizes, ram) && ReleasedIn(z, [], ram) && FirstPage(r) < EndPage(r)
    requires z.begin == FirstPage(r) && z.end == EndPage(r) && forall y :: y in zones ==> y.end < z.begin
    requires forall y :: y in zones ==> y != z && y.order != z.order && y.pages != z.pages
    requires h.end == h.begin + ZoneBytes(sizes, z.begin, z.end)
    ensures SetUp(zones + [z], before + [r], headers + [h], sizes, ram)
  {
    hide FirstPage, EndPage, Released, ZoneFor, OnlyFor, ReleasedIn, ZoneBytes;
    ReleasedMore(zones, z, ram);
    ZoneForMore(zones, z, before, r);
    OnlyForMore(zones, z, before, r);
  }

  lemma ReleasedMore(zones: seq<Zone>, z: Zone, ram: nat -> Page)
    requires Released(zones, [], ram) && ReleasedIn(z, [], ram) && forall y :: y in zones ==> y.end < z.begin
    requires forall y :: y in zones ==> y != z && y.order != z.order && y.pages != z.pages
    ensures Released(zones + [z], [], ram)
  {
    hide ReleasedIn;
    ZonesOf(zones, z);
  }

  lemma ZonesOf(zones: seq<Zone>, z: Zone)
    ensures Orders(zones + [z]) == Orders(zones) + {z.order} && Headers(zones + [z]) == Headers(zones) + {z.pages}
    ensures forall y :: y in zones + [z] <==> y in zones || y == z
  {
    assert z in zones + [z] && forall y :: y in zones ==> y in zones + [z];
  }

  lemma ZoneForMore(zones: seq<Zone>, z: Zone, before: seq<Range>, r: Range)
    requires ZoneFor(zones, before) && z.begin == FirstPage(r) && z.end == EndPage(r)
    ensures ZoneFor(zones + [z], before + [r])
  {
    var known := before + [r];
    forall i | 0 <= i < |known| && FirstPage(known[i]) < EndPage(known[i])
      ensures exists y :: y in zones + [z] && y.begin == FirstPage(known[i]) && y.end == EndPage(known[i])
    {
      if i < |before| {
        var y :| y in zones && y.begin == FirstPage(before[i]) && y.end == EndPage(before[i]);
        assert y in zones + [z];
      } else {
        assert z in zones + [z];
      }
    }
  }

  lemma OnlyForMore(zones: seq<Zone>, z: Zone, before: seq<Range>, r: Range)
    requires OnlyFor(zones, before) && FirstPage(r) < EndPage(r) && z.begin == FirstPage(r) && z.end == EndPage(r)
    ensures OnlyFor(zones + [z], before + [r])
  {
    forall y | y in zones + [z]
      ensures exists x ::
        x in before + [r] && FirstPage(x) < EndPage(x) && y.begin == FirstPage(x) && y.end == EndPage(x)
    {
      if y == z {
        assert r in before + [r];
      } else {
        var x :| x in before && FirstPage(x) < EndPage(x) && y.begin == FirstPage(x) && y.end == EndPage(x);
        assert x in before + [r];
      }
    }
  }

  ghost predicate Holds(zones: seq<Zone>, k: nat, from: nat, stop: nat)
  {
    k < |zones| && zones[k].begin <= from < stop <= zones[k].end
  }

  /** `page_alloc_zone_find`: the zone with a page, or none. */
  method FindZone(zones: seq<Zone>, page: nat) returns (r: Option<nat>)
    ensures r.None? <==> forall i :: 0 <= i < |zones| ==> !(zones[i].begin <= page < zones[i].end)
    ensures r.Some? ==> r.value < |zones| && zones[r.value].begin <= page < zones[r.value].end
  {
    var k := 0;
    while k < |zones|
      invariant k <= |zones| && forall i :: 0 <= i < k ==> !(zones[i].begin <= page < zones[i].end)
    {
      if zones[k].begin <= page < zones[k].end { return Some(k); }
      k := k + 1;
    }
    r := None;
  }

  lemma OneZone(zones: seq<Zone>, i: nat, k: nat, page: nat)
    requires Apart(zones) && i < |zones| && k < |zones|
    requires zones[i].begin <= page < zones[i].end && zones[k].begin <= page < zones[k].end
    ensures i == k
  {
  }

  /** `__page_alloc_zone_free`: hands the whole pages of one free range to its
      zone. */
  method FreeRange(zones: seq<Zone>, r: Range, ghost done: seq<Range>, ghost ram: nat -> Page)
    requires Released(zones, done, ram) && forall x :: x in done ==> x.end < r.begin
    requires FirstFree(r) < EndPage(r) ==> exists k :: Holds(zones, k, FirstFree(r), EndPage(r))
    modifies zones, Orders(zones), Headers(zones)
    ensures Released(zones, done + [r], ram)
  {
    hide Memory.Tiled, Memory.ListsHold, Memory.HeadersHold;
    var from, stop := FirstFree(r), EndPage(r);
    forall x | x in done ensures EndPage(x) < from { RunsApart(x, r); }
    if from >= stop {
      assert forall p :: !HasPage(r, p);
      MorePages(done, r);
      return;
    }
    ghost var k0: nat :| Holds(zones, k0, from, stop);
    var found := FindZone(zones, from);
    var k := found.value;
    OneZone(zones, k, k0, from);
    MorePages(done, r);
    assert ReleasedIn(zones[k], done, ram);
    FillZone(zones[k], r, done, ram);
    forall i | 0 <= i < |zones| && i != k ensures ReleasedIn(zones[i], done + [r], ram) {
      assert old(ReleasedIn(zones[i], done, ram));
      assert forall p :: zones[i].begin <= p < zones[i].end ==> !HasPage(r, p);
    }
  }

  method FillZone(z: Zone, r: Range, ghost done: seq<Range>, ghost ram: nat -> Page)
    requires ReleasedIn(z, done, ram) && z.begin <= FirstFree(r) < EndPage(r) <= z.end
    requires forall x :: x in done ==> EndPage(x) < FirstFree(r)
    modifies z, z.order, z.pages
    ensures ReleasedIn(z, done + [r], ram)
  {
    MorePages(done, r);
    z.Release(FirstFree(r), EndPage(r));
  }

  lemma MorePages(done: seq<Range>, r: Range)
    ensures forall p :: OnSomePage(done + [r], p) <==> OnSomePage(done, p) || HasPage(r, p)
  {
    forall p | OnSomePage(done, p) || HasPage(r, p) ensures OnSomePage(done + [r], p) {
      if HasPage(r, p) { assert r in done + [r]; } else { var x :| x in done && HasPage(x, p); assert x in done + [r]; }
    }
  }

  /** The pages of the zones are exactly those that lie in the known ranges with
      all their bytes. */
  ghost predicate ZonesCover(zones: seq<Zone>, known: seq<Range>)
  {
    forall p: nat :: PageCovered(known, p) <==> exists z :: z in zones && z.begin <= p < z.end
  }

  ghost predicate IsManaged(managed: seq<set<nat>>, p: nat) { exists i :: 0 <= i < |managed| && p in managed[i] }

  /** What is handed out are exactly the pages, but for page 0, that lie in the
      free ranges with all their bytes. */
  ghost predicate WholePages(managed: seq<set<nat>>, free: seq<Range>)
  {
    forall p: nat :: p > 0 && PageCovered(free, p) <==> IsManaged(managed, p)
  }

  lemma ZonesCoverKnown(zones: seq<Zone>, known: seq<Range>)
    requires Separated(known) && ZoneFor(zones, known) && OnlyFor(zones, known)
    ensures ZonesCover(zones, known)
  {
    hide FirstPage, EndPage, PageCovered, Separated;
    forall p: nat ensures PageCovered(known, p) <==> exists z :: z in zones && z.begin <= p < z.end
    {
      PageInRange(known, p);
      if r :| r in known && FirstPage(r) <= p < EndPage(r) {
        var i :| 0 <= i < |known| && known[i] == r;
        var z :| z in zones && z.begin == FirstPage(known[i]) && z.end == EndPage(known[i]);
        assert z.begin <= p < z.end;
      }
    }
  }

  lemma FreeIsManaged(zones: seq<Zone>, known: seq<Range>, free: seq<Range>, ram: nat -> Page)
    requires Separated(free) && KnownOnly(free, known) && ZonesCover(zones, known) && Released(zones, free, ram)
    ensures WholePages(Managed(zones), free)
  {
    hide Separated, FirstPage, EndPage;
    var m := Managed(zones);
    forall p: nat ensures p > 0 && PageCovered(free, p) <==> IsManaged(m, p)
    {
      PageInRange(free, p);
      if p > 0 && PageCovered(free, p) {
        var r :| r in free && FirstPage(r) <= p < EndPage(r);
        assert HasPage(r, p);
        assert PageCovered(known, p);
        var z :| z in zones && z.begin <= p < z.end;
        var i :| 0 <= i < |zones| && zones[i] == z;
        assert ReleasedIn(z, free, ram);
        assert p in m[i];
      }
      if i :| 0 <= i < |m| && p in m[i] {
        assert ReleasedIn(zones[i], free, ram);
        var r :| r in free && HasPage(r, p);
        assert FirstPage(r) <= p < EndPage(r);
      }
    }
  }

  /** The second loop of `page_alloc_setup`. */
  method FreeRanges(zones: seq<Zone>, free: seq<Range>, ghost known: seq<Range>, ghost ram: nat -> Page)
    requires Separated(known) && Separated(free) && KnownOnly(free, known)
    requires Released(zones, [], ram) && ZoneFor(zones, known)
    modifies zones, Orders(zones), Headers(zones)
    ensures Released(zones, free, ram)
  {
    hide Released, KnownOnly, ZoneFor, FirstFree, EndPage;
    var j := 0;
    while j < |free|
      invariant j <= |free| && Released(zones, free[..j], ram)
    {
      ZoneFound(zones, known, free, free[j]);
      assert forall x :: x in free[..j] ==> x.end < free[j].begin;
      FreeRange(zones, free[j], free[..j], ram);
      assert free[..j + 1] == free[..j] + [free[j]];
      j := j + 1;
    }
    assert free[..j] == free;
  }

  /** `page_alloc_setup`: the zones with their headers, then the whole pages of
      what the headers leave of the free ranges. */
  method PageAllocSetup(b: BootAllocator, sizes: Sizes, ram: nat -> Page)
    returns (ok: bool, zones: seq<Zone>, ghost headers: seq<Range>)
    requires b.Valid() && Booted(b, b.Stored(b.memoryMap), b.Stored(b.freeRanges), |b.Stored(b.memoryMap)|)
    requires KnownOnly(b.Stored(b.freeRanges), b.Stored(b.memoryMap))
    requires RoomyFor(b.Stored(b.freeRanges), b.Stored(b.memoryMap), sizes)
    modifies b, b.freeRanges
    ensures b.Valid() && b.held == 0 && b.Stored(b.memoryMap) == old(b.Stored(b.memoryMap))
    ensures TakenOut(old(b.Stored(b.freeRanges)), b.Stored(b.freeRanges), headers)
    ensures ok ==> Released(zones, b.Stored(b.freeRanges), ram)
    ensures ok ==> (Ready(zones) <==> OthersClear(zones, ram))
    ensures ok ==> var known := b.Stored(b.memoryMap);
      ZoneFor(zones, known) && OnlyFor(zones, known) && HeadersFor(zones, headers, sizes)
    ensures ok ==> ZonesCover(zones, b.Stored(b.memoryMap)) && WholePages(Managed(zones), b.Stored(b.freeRanges))
    ensures !ok ==> MissingRoom(b.Stored(b.memoryMap), b.Stored(b.freeRanges), sizes)
  {
    hide Released, RoomyFor, TakenOut, ZoneFor, OnlyFor, HeadersFor, MissingRoom, KnownOnly, Separated, Ready,
      OthersClear, ZonesCover, WholePages;
    ghost var free0 := b.Stored(b.freeRanges);
    var known := b.List(b.memoryMap);
    ghost var free';
    ok, zones, headers, free' := SetupZones(b, known, free0, sizes, ram);
    if !ok { return; }
    var free := b.List(b.freeRanges);
    KnownShrinks(free0, free, headers, known);
    NotTheAllocator(zones, b);
    FreeRanges(zones, free, known, ram);
    SetupIsReady(zones, free, ram);
    ZonesCoverKnown(zones, known);
    FreeIsManaged(zones, known, free, ram);
  }

  /** Taking the headers out leaves known memory only. */
  lemma KnownShrinks(free: seq<Range>, free': seq<Range>, headers: seq<Range>, known: seq<Range>)
    requires KnownOnly(free, known) && TakenOut(free, free', headers)
    ensures KnownOnly(free', known)
  {
  }

  /** No page that is handed out ever holds a byte of a zone's header. */
  lemma HeadersKept(zones: seq<Zone>, free: seq<Range>, free': seq<Range>, headers: seq<Range>, ram: nat -> Page,
      z: Zone, p: nat, a: nat)
    requires TakenOut(free, free', headers) && Released(zones, free', ram) && z in zones && p in z.released
    requires p * PAGE_SIZE <= a < p * PAGE_SIZE + PAGE_SIZE
    ensures Ranges.Covers(free', a) && !Ranges.Covers(headers, a)
  {
    assert ReleasedIn(z, free', ram);
    var r :| r in free' && HasPage(r, p);
    assert Has(r, a);
  }

  /** What the boot map says meets what the setup asks for. */
  lemma BootMapFits(entries: seq<Boot.Entry>, kernel: Range, initrd: Range, known: seq<Range>, free: seq<Range>)
    requires Boot.BootMap(entries, kernel, initrd, known, free)
    requires kernel.begin <= kernel.end && initrd.begin <= initrd.end
    ensures KnownOnly(free, known)
  {
    forall a: nat ensures Ranges.Covers(free, a) ==> Ranges.Covers(known, a)
    {
      Boot.FreeIsSafe(entries, kernel, initrd, known, free, a);
    }
  }

  lemma ZoneFound(zones: seq<Zone>, known: seq<Range>, free: seq<Range>, r: Range)
    requires Separated(known) && KnownOnly(free, known) && r in free && ZoneFor(zones, known)
    ensures FirstFree(r) < EndPage(r) ==> exists k :: Holds(zones, k, FirstFree(r), EndPage(r))
  {
    if FirstFree(r) < EndPage(r) {
      var i := ZoneOfRange(known, free, r);
      var z :| z in zones && z.begin == FirstPage(known[i]) && z.end == EndPage(known[i]);
      var k :| 0 <= k < |zones| && zones[k] == z;
      assert Holds(zones, k, FirstFree(r), EndPage(r));
    }
  }

  // ---- allocation over all zones ----

  /** Page 0 is never released, so address 0 can stand for failure. */
  ghost predicate Ready(zones: seq<Zone>)
    reads zones, Orders(zones), Headers(zones)
  {
    Apart(zones) && forall z :: z in zones ==> z.Valid() && 0 !in z.released
  }

  /** The header of no page that the setup left out was marked. */
  ghost predicate OthersClear(zones: seq<Zone>, ram: nat -> Page)
    reads zones
  {
    forall z, p :: z in zones && z.begin <= p < z.end && p !in z.released ==> !ram(p).free
  }

  /** After the setup the zones are ready, page 0 left out, exactly when no page
      that was not released got a marked header from what the memory held. */
  lemma SetupIsReady(zones: seq<Zone>, free: seq<Range>, ram: nat -> Page)
    requires Released(zones, free, ram)
    ensures Ready(zones) <==> OthersClear(zones, ram)
  {
    forall z | z in zones
      ensures 0 !in z.released
      ensures z.Valid() <==> forall p :: z.begin <= p < z.end && p !in z.released ==> !ram(p).free
    {
      assert ReleasedIn(z, free, ram);
      z.ValidIf();
    }
  }

  ghost predicate NoRun(free: set<B.Block>, order: nat)
  {
    forall b: B.Block :: B.Aligned(b) && b.order == order ==> !B.Within(b, free)
  }

  /** The free and outstanding blocks of every zone. */
  ghost function Snapshot(zones: seq<Zone>): (s: seq<(set<B.Block>, set<B.Block>)>)
    reads zones
    ensures |s| == |zones| && forall i :: 0 <= i < |zones| ==> s[i] == (zones[i].free, zones[i].busy)
  {
    seq(|zones|, i requires 0 <= i < |zones| reads zones => (zones[i].free, zones[i].busy))
  }

  /** The pages each zone has to hand out or has handed out. */
  ghost function Managed(zones: seq<Zone>): (s: seq<set<nat>>)
    reads zones
    ensures |s| == |zones| && forall i :: 0 <= i < |zones| ==> s[i] == zones[i].released
  {
    seq(|zones|, i requires 0 <= i < |zones| reads zones => zones[i].released)
  }

  /** No zone has a run for the order. */
  ghost predicate NoneHas(before: seq<(set<B.Block>, set<B.Block>)>, order: nat)
  {
    order > B.MAX_ORDER || forall i :: 0 <= i < |before| ==> NoRun(before[i].0, order)
  }

  /** Zone `k`, and no other, has handed out block `b`. */
  ghost predicate GaveBlock(before: seq<(set<B.Block>, set<B.Block>)>, after: seq<(set<B.Block>, set<B.Block>)>,
      k: nat, b: B.Block)
  {
    && |after| == |before| && k < |before|
    && B.Aligned(b) && b !in before[k].1 && after[k].1 == before[k].1 + {b}
    && (forall i :: 0 <= i < |before| && i != k ==> after[i] == before[i])
  }

  /** Zone `k` has a run for the order, the zones before it have none. */
  ghost predicate FirstWithRun(before: seq<(set<B.Block>, set<B.Block>)>, k: nat, order: nat)
  {
    k < |before| && !NoRun(before[k].0, order) && forall j :: 0 <= j < k ==> NoRun(before[j].0, order)
  }

  /** The loop over the zones: the first one that has a run serves the request. */
  method FirstZone(zones: seq<Zone>, order: nat, ghost before: seq<(set<B.Block>, set<B.Block>)>)
    returns (r: Option<nat>, ghost k: nat)
    requires Ready(zones) && order <= B.MAX_ORDER && before == Snapshot(zones)
    modifies zones, Orders(zones), Headers(zones)
    ensures Ready(zones) && Managed(zones) == old(Managed(zones))
    ensures r.None? <==> NoneHas(before, order)
    ensures r.None? ==> Snapshot(zones) == before
    ensures r.Some? ==> r.value > 0 && GaveBlock(before, Snapshot(zones), k, B.Block(r.value, order))
    ensures r.Some? ==> FirstWithRun(before, k, order)
  {
    hide Ready, GaveBlock, NoRun;
    k := 0;
    var i := 0;
    while i < |zones|
      invariant i <= |zones| && Ready(zones) && Snapshot(zones) == before && Managed(zones) == old(Managed(zones))
      invariant forall j :: 0 <= j < i ==> NoRun(before[j].0, order)
    {
      r := TryZone(zones, i, order, before);
      if r.Some? {
        k := i;
        return;
      }
      i := i + 1;
    }
    r := None;
  }

  /** `page_alloc`: 0 when the order is too large or no zone has a run. */
  method PageAlloc(zones: seq<Zone>, order: nat) returns (addr: nat, ghost k: nat)
    requires Ready(zones)
    modifies zones, Orders(zones), Headers(zones)
    ensures Ready(zones) && Managed(zones) == old(Managed(zones))
    ensures addr == 0 <==> NoneHas(old(Snapshot(zones)), order)
    ensures addr == 0 ==> Snapshot(zones) == old(Snapshot(zones))
    ensures addr != 0 ==> addr % PAGE_SIZE == 0
    ensures addr != 0 ==>
      GaveBlock(old(Snapshot(zones)), Snapshot(zones), k, B.Block(addr / PAGE_SIZE, order))
    ensures addr != 0 ==> FirstWithRun(old(Snapshot(zones)), k, order)
  {
    hide Ready, GaveBlock, NoRun;
    if order > B.MAX_ORDER { return 0, 0; }
    var r: Option<nat>;
    r, k := FirstZone(zones, order, Snapshot(zones));
    if r.None? { return 0, 0; }
    addr := r.value * PAGE_SIZE;
    assert addr / PAGE_SIZE == r.value;
  }

  method TryZone(zones: seq<Zone>, i: nat, order: nat, ghost before: seq<(set<B.Block>, set<B.Block>)>)
    returns (r: Option<nat>)
    requires Ready(zones) && i < |zones| && order <= B.MAX_ORDER && before == Snapshot(zones)
    modifies zones, Orders(zones), Headers(zones)
    ensures Ready(zones) && Managed(zones) == old(Managed(zones))
    ensures r.None? <==> NoRun(before[i].0, order)
    ensures r.None? ==> Snapshot(zones) == before
    ensures r.Some? ==> r.value > 0 && GaveBlock(before, Snapshot(zones), i, B.Block(r.value, order))
  {
    hide Memory.Tiled, Memory.ListsHold, Memory.HeadersHold;
    r := zones[i].Alloc(order);
    forall j | 0 <= j < |zones| && j != i ensures zones[j].Valid() && 0 !in zones[j].released {
      assert old(zones[j].Valid());
    }
    if r.Some? { HandedOut(zones[i], r.value, order); }
    assert r.None? ==> Snapshot(zones) == before;
  }

  lemma HandedOut(z: Zone, idx: nat, order: nat)
    requires z.Valid() && 0 !in z.released && B.Block(idx, order) in z.busy
    ensures idx > 0
  {
    var b := B.Block(idx, order);
    assert B.In(idx, b);
    assert b in z.free + z.busy + {};
    assert B.Covered(idx, z.free + z.busy + {});
  }

  /** Zone `k`, and no other, has the block back: its free pages are those of
      before and the block's. */
  ghost predicate TookBack(before: seq<(set<B.Block>, set<B.Block>)>, after: seq<(set<B.Block>, set<B.Block>)>,
      k: nat, b: B.Block)
  {
    && |after| == |before| && k < |before|
    && after[k].1 == before[k].1 - {b}
    && (forall p: nat :: B.Covered(p, after[k].0) <==> B.Covered(p, before[k].0) || B.In(p, b))
    && (forall i :: 0 <= i < |before| && i != k ==> after[i] == before[i])
  }

  /** `page_free` of an outstanding block: the zone is found by the address.
      Address 0 is ignored. */
  method PageFree(zones: seq<Zone>, addr: nat, order: nat, ghost k: nat)
    requires Ready(zones)
    requires addr != 0 ==> k < |zones| && B.Block(addr / PAGE_SIZE, order) in zones[k].busy
    modifies zones, Orders(zones), Headers(zones)
    ensures Ready(zones) && Managed(zones) == old(Managed(zones))
    ensures addr == 0 ==> Snapshot(zones) == old(Snapshot(zones))
    ensures addr != 0 ==> TookBack(old(Snapshot(zones)), Snapshot(zones), k, B.Block(addr / PAGE_SIZE, order))
  {
    hide Memory.Tiled, Memory.ListsHold, Memory.HeadersHold;
    if addr == 0 { return; }
    var idx := addr / PAGE_SIZE;
    InOwnZone(zones[k], idx, order);
    assert Holds(zones, k, idx, idx + 1);
    var found := FindZone(zones, idx);
    var i := found.value;
    OneZone(zones, i, k, idx);
    zones[i].Free(idx, order);
    forall j | 0 <= j < |zones| && j != i ensures zones[j].Valid() && 0 !in zones[j].released {
      assert old(zones[j].Valid());
    }
  }

  /** A zone's outstanding blocks lie in the zone. */
  lemma InOwnZone(z: Zone, idx: nat, order: nat)
    requires z.Valid() && B.Block(idx, order) in z.busy
    ensures z.begin <= idx < z.end
  {
    var b := B.Block(idx, order);
    assert B.In(idx, b);
    assert b in z.free + z.busy + {};
    assert B.Covered(idx, z.free + z.busy + {});
  }
}
