/** From the boot loader's memory map to the page allocator. */
module Startup {
  import opened Addresses
  import opened Bits
  import opened Division
  import opened Ranges
  import opened Balloc
  import opened Boot
  import opened Zones

  /** Everything the boot loader reports ends by `limit`, behind which the sums
      of the search for the zones' headers have room. */
  ghost predicate Below(entries: seq<Entry>, kernel: Range, initrd: Range, sizes: Sizes, limit: nat)
  {
    && (forall e :: e in entries ==> e.addr + e.length <= limit)
    && kernel.begin <= kernel.end <= limit && initrd.begin <= initrd.end <= limit
    && sizes.zone > 0 && limit + 64 + ZoneBytes(sizes, 0, limit / PAGE_SIZE) <= Pow2(64)
  }

  /** BOOTSTRAP_MEM */
  const BOOTSTRAP_MEM: nat := 0x1_0000_0000

  /** The nodes suffice for the map, for `tables` pages of tables and for the
      headers of the zones. */
  ghost predicate NodesForAll(entries: seq<Entry>, kernel: Range, initrd: Range, tables: nat)
  {
    var known := AllKnown(entries, kernel, initrd);
    var free := Without(Without(Available(known, entries, |entries|), kernel), initrd);
    NodesSuffice(entries, kernel, initrd) && 2 * |known| + |free| + tables + 2 <= MAX_RANGES
  }

  /** This few entries never need more. */
  lemma FewEntriesForAll(entries: seq<Entry>, kernel: Range, initrd: Range, tables: nat)
    requires kernel.begin <= kernel.end && initrd.begin <= initrd.end
    requires 3 * |entries| + ReservedCount(entries, |entries|) + tables + 10 <= MAX_RANGES
    ensures NodesForAll(entries, kernel, initrd, tables)
  {
    hide NodesSuffice, AllKnown, Available, Without, ReservedCount;
    FewEntries(entries, kernel, initrd);
    var known := AllKnown(entries, kernel, initrd);
    BootMapLength(entries, kernel, initrd, known,
      Without(Without(Available(known, entries, |entries|), kernel), initrd));
  }

  // ---- where the ranges end ----

  lemma {:induction false} KnownEnds(entries: seq<Entry>, n: nat, limit: nat)
    requires n <= |entries| && forall e :: e in entries ==> e.addr + e.length <= limit
    ensures EndWithin(Known(entries, n), limit)
  {
    hide Add;
    if n > 0 {
      KnownEnds(entries, n - 1, limit);
      AddEnds(Known(entries, n - 1), entries[n - 1].addr, RangeOf(entries[n - 1]).end, limit);
    }
  }

  lemma {:induction false} AvailableEnds(s: seq<Range>, entries: seq<Entry>, n: nat, limit: nat)
    requires n <= |entries| && EndWithin(s, limit)
    ensures EndWithin(Available(s, entries, n), limit)
  {
    hide Remove;
    if n > 0 {
      AvailableEnds(s, entries, n - 1, limit);
      RemoveEnds(Available(s, entries, n - 1), entries[n - 1].addr, RangeOf(entries[n - 1]).end, limit);
    }
  }

  lemma BootMapEnds(entries: seq<Entry>, kernel: Range, initrd: Range, known: seq<Range>, free: seq<Range>,
      sizes: Sizes, limit: nat)
    requires Below(entries, kernel, initrd, sizes, limit) && BootMap(entries, kernel, initrd, known, free)
    ensures EndWithin(known, limit) && EndWithin(free, limit)
  {
    hide Known, Available, Add, Remove, ZoneBytes, Pow2, EndWithin;
    var n, k := |entries|, Known(entries, |entries|);
    KnownEnds(entries, n, limit);
    AddEnds(k, kernel.begin, kernel.end, limit);
    AddEnds(With(k, kernel), initrd.begin, initrd.end, limit);
    AvailableEnds(known, entries, n, limit);
    var f := Available(known, entries, n);
    RemoveEnds(f, kernel.begin, kernel.end, limit);
    RemoveEnds(Without(f, kernel), initrd.begin, initrd.end, limit);
  }

  lemma MorePagesMoreBytes(sizes: Sizes, begin: nat, end: nat, last: nat)
    requires end <= last
    ensures ZoneBytes(sizes, begin, end) <= ZoneBytes(sizes, 0, last)
  {
    var m, n := if begin < end then end - begin else 0, if 0 < last then last else 0;
    assert sizes.page * (n - m) >= 0;
    assert sizes.page * n == sizes.page * m + sizes.page * (n - m);
  }

  lemma PagesWithin(r: Range, limit: nat)
    requires r.end <= limit
    ensures EndPage(r) <= limit / PAGE_SIZE
  {
  }

  /** So the boot map leaves the room that the setup of the zones asks for. */
  lemma BootMapRoomy(entries: seq<Entry>, kernel: Range, initrd: Range, known: seq<Range>, free: seq<Range>,
      sizes: Sizes, limit: nat)
    requires Below(entries, kernel, initrd, sizes, limit) && BootMap(entries, kernel, initrd, known, free)
    ensures RoomyFor(free, known, sizes)
  {
    hide BootMap, ZoneBytes, Pow2, FirstPage, EndPage;
    BootMapEnds(entries, kernel, initrd, known, free, sizes, limit);
    forall r | r in known ensures Roomy(free, ZoneBytes(sizes, FirstPage(r), EndPage(r)))
    {
      PagesWithin(r, limit);
      MorePagesMoreBytes(sizes, FirstPage(r), EndPage(r), limit / PAGE_SIZE);
    }
  }

  // ---- what may be handed out ----

  /** The byte at `a` is memory that was reported as available only, and that
      neither the kernel nor the ramdisk nor one of the blocks `taken` occupies. */
  ghost predicate Usable(entries: seq<Entry>, kernel: Range, initrd: Range, taken: seq<Range>, a: nat)
  {
    && (exists e :: e in entries && e.kind == AVAILABLE && e.addr <= a < e.addr + e.length)
    && !Reserved(entries, a) && !Has(kernel, a) && !Has(initrd, a) && !Ranges.Covers(taken, a)
  }

  ghost predicate PageUsable(entries: seq<Entry>, kernel: Range, initrd: Range, taken: seq<Range>, p: nat)
  {
    forall a :: p * PAGE_SIZE <= a < p * PAGE_SIZE + PAGE_SIZE ==> Usable(entries, kernel, initrd, taken, a)
  }

  /** All pages of all zones are. */
  ghost predicate AllUsable(entries: seq<Entry>, kernel: Range, initrd: Range, taken: seq<Range>,
      managed: seq<set<nat>>)
  {
    forall i, p :: 0 <= i < |managed| && p in managed[i] ==> PageUsable(entries, kernel, initrd, taken, p)
  }

  lemma SetupUsable(entries: seq<Entry>, kernel: Range, initrd: Range, known: seq<Range>, free: seq<Range>,
      free': seq<Range>, taken: seq<Range>, zones: seq<Memory.Zone>, ram: nat -> Memory.Page)
    requires kernel.begin <= kernel.end && initrd.begin <= initrd.end
    requires BootMap(entries, kernel, initrd, known, free)
    requires TakenOut(free, free', taken) && Released(zones, free', ram)
    ensures AllUsable(entries, kernel, initrd, taken, Managed(zones))
  {
    hide BootMap, Ranges.Covers, Reserved;
    forall i, p, a: nat | 0 <= i < |zones| && p in zones[i].released && p * PAGE_SIZE <= a < p * PAGE_SIZE + PAGE_SIZE
      ensures Usable(entries, kernel, initrd, taken, a)
    {
      HeadersKept(zones, free, free', taken, ram, zones[i], p, a);
      assert Ranges.Covers(free, a);
      FreeIsSafe(entries, kernel, initrd, known, free, a);
      FreeIsReported(entries, kernel, initrd, known, free, a);
    }
  }

  /** The pages of the zones are exactly the usable ones, page 0 excepted. */
  ghost predicate ExactlyUsable(entries: seq<Entry>, kernel: Range, initrd: Range, taken: seq<Range>,
      managed: seq<set<nat>>)
  {
    forall p: nat :: p > 0 && PageUsable(entries, kernel, initrd, taken, p) <==> IsManaged(managed, p)
  }

  lemma UsableByte(entries: seq<Entry>, kernel: Range, initrd: Range, known: seq<Range>, free: seq<Range>,
      free': seq<Range>, taken: seq<Range>, a: nat)
    requires Proper(entries) && Inside(entries, kernel) && Inside(entries, initrd)
    requires BootMap(entries, kernel, initrd, known, free) && TakenOut(free, free', taken)
    ensures Usable(entries, kernel, initrd, taken, a) <==> Ranges.Covers(free', a)
  {
    hide BootMap, Proper, Inside, Ranges.Covers, Reserved;
    BootComplete(entries, kernel, initrd, known, free, a);
    OneEntry(entries, a);
  }

  /** No usable page is lost on the way: for entries that do not overlap, with
      the kernel and the ramdisk inside them, a page other than page 0 is managed
      exactly when every byte of it is available and unused. */
  lemma UsableManaged(entries: seq<Entry>, kernel: Range, initrd: Range, known: seq<Range>, free: seq<Range>,
      free': seq<Range>, taken: seq<Range>, managed: seq<set<nat>>)
    requires Proper(entries) && Inside(entries, kernel) && Inside(entries, initrd)
    requires BootMap(entries, kernel, initrd, known, free) && TakenOut(free, free', taken) && WholePages(managed, free')
    ensures ExactlyUsable(entries, kernel, initrd, taken, managed)
  {
    hide BootMap, Proper, Inside, Ranges.Covers, TakenOut, Usable, IsManaged;
    forall a: nat ensures Usable(entries, kernel, initrd, taken, a) <==> Ranges.Covers(free', a)
    {
      UsableByte(entries, kernel, initrd, known, free, free', taken, a);
    }
    forall p: nat ensures PageUsable(entries, kernel, initrd, taken, p) <==> PageCovered(free', p) { }
  }

  // ---- the whole way ----

  /** `balloc_setup` */
  method SetupBoot(entries: seq<Entry>, kernel: Range, initrd: Range, ghost tables: nat)
    returns (b: BootAllocator, ghost known: seq<Range>, ghost free: seq<Range>)
    requires kernel.begin <= kernel.end && initrd.begin <= initrd.end && NodesForAll(entries, kernel, initrd, tables)
    ensures BootMap(entries, kernel, initrd, known, free) && Booted(b, known, free, |known| + tables)
    ensures fresh(b) && fresh(b.memoryMap) && fresh(b.freeRanges)
  {
    hide NodesSuffice, Available, Without, AllKnown, Separated;
    b := new BootAllocator();
    ParseMmap(b, entries, kernel, initrd);
    known, free := b.Stored(b.memoryMap), b.Stored(b.freeRanges);
  }

  /** Pages below BOOTSTRAP_MEM. */
  ghost predicate BootPages(tables: seq<Range>)
  {
    forall r :: r in tables ==> r.begin % PAGE_SIZE == 0 && r.end == r.begin + PAGE_SIZE <= BOOTSTRAP_MEM
  }

  /** No page is free there any more, which is a BUG. */
  ghost predicate NoBootPage(free: seq<Range>) { NothingFits(free, PAGE_SIZE, 12, 0, BOOTSTRAP_MEM) }

  lemma PageShift()
    ensures Pow2(12) == PAGE_SIZE && Pow2(64) >= 2 * BOOTSTRAP_MEM
  {
    assert Pow2(4) == 0x10 && Pow2(8) == 0x100 && Pow2(33) == 2 * Pow2(32);
    Pow2Sum(4, 8);
    Pow2Sum(8, 8);
    Pow2Sum(16, 16);
    Pow2Monotone(33, 64);
  }

  lemma BaseOfPage(a: nat)
    requires Base(a, 12) == a
    ensures a % PAGE_SIZE == 0
  {
    PageShift();
    BaseMultiple(a, 12);
    Multiple(Shifted(a, 12), PAGE_SIZE);
  }

  /** `paging_setup_get_page` */
  method TablePage(b: BootAllocator, ghost known: seq<Range>, ghost free: seq<Range>, ghost n: nat) returns (addr: nat)
    requires Booted(b, known, free, n + 1)
    modifies b, b.freeRanges
    ensures addr == BOOTSTRAP_MEM ==> Booted(b, known, free, n) && NoBootPage(free)
    ensures addr != BOOTSTRAP_MEM ==> Booted(b, known, Remove(free, addr, addr + PAGE_SIZE), n)
    ensures addr != BOOTSTRAP_MEM ==> IsLowestFit(free, PAGE_SIZE, 12, 0, BOOTSTRAP_MEM, addr)
  {
    hide IsLowestFit, NothingFits, Remove, Separated, Pow2;
    PageShift();
    b.TwoNodes(PAGE_SIZE, 12, 0, BOOTSTRAP_MEM);
    addr := b.Alloc(PAGE_SIZE, PAGE_SIZE, 12, 0, BOOTSTRAP_MEM);
  }

  /** The pages that `paging_setup` takes for the first tables, one by one. */
  method TakeTables(b: BootAllocator, n: nat, ghost known: seq<Range>, ghost free: seq<Range>, ghost m: nat,
      ghost sizes: Sizes) returns (ok: bool, ghost tables: seq<Range>, ghost free': seq<Range>)
    requires Booted(b, known, free, m + n) && RoomyFor(free, known, sizes)
    modifies b, b.freeRanges
    ensures Booted(b, known, free', m) && TakenOut(free, free', tables) && RoomyFor(free', known, sizes)
    ensures BootPages(tables) && (ok ==> |tables| == n) && (!ok ==> NoBootPage(free'))
  {
    hide Booted, TakenOut, RoomyFor, NoBootPage, IsLowestFit, Remove;
    tables, free', ok := [], free, true;
    NothingTaken(free);
    var i := 0;
    while i < n
      invariant i <= n && Booted(b, known, free', m + (n - i)) && TakenOut(free, free', tables)
      invariant RoomyFor(free', known, sizes) && BootPages(tables) && |tables| == i
    {
      var addr := TablePage(b, known, free', m + (n - i - 1));
      if addr == BOOTSTRAP_MEM {
        BootedLess(b, known, free', m + (n - i - 1), m);
        return false, tables, free';
      }
      PageFits(free', addr);
      BlockTaken(free, free', tables, PAGE_SIZE, 12, BOOTSTRAP_MEM, addr);
      StillRoomy(free', known, sizes, addr, addr + PAGE_SIZE);
      free', tables := Remove(free', addr, addr + PAGE_SIZE), tables + [Range(addr, addr + PAGE_SIZE)];
      i := i + 1;
    }
  }

  lemma PageFits(free: seq<Range>, addr: nat)
    requires IsLowestFit(free, PAGE_SIZE, 12, 0, BOOTSTRAP_MEM, addr)
    ensures addr % PAGE_SIZE == 0 && addr + PAGE_SIZE <= BOOTSTRAP_MEM
  {
    BaseOfPage(addr);
  }

  /** `balloc_setup`, `paging_setup` as far as it takes memory, and then
      `page_alloc_setup`.  When every table and every header finds a place, each
      zone has only usable pages, and the zones are ready exactly when the memory
      marked no page that was left out; otherwise no page is free for a table, or
      no place of the size of some zone's header. */
  method Start(entries: seq<Entry>, kernel: Range, initrd: Range, tables: nat, sizes: Sizes, ram: nat -> Memory.Page,
      ghost limit: nat)
    returns (ok: bool, b: BootAllocator, zones: seq<Memory.Zone>, ghost pages: seq<Range>, ghost headers: seq<Range>)
    requires Below(entries, kernel, initrd, sizes, limit) && NodesForAll(entries, kernel, initrd, tables)
    ensures b.Valid() && b.held == 0 && BootPages(pages)
    ensures ok ==> |pages| == tables && AllUsable(entries, kernel, initrd, pages + headers, Managed(zones))
    ensures ok ==> (Ready(zones) <==> OthersClear(zones, ram))
    ensures ok ==> ZonesOfAll(zones, entries, kernel, initrd)
    ensures ok ==> WholePages(Managed(zones), b.Stored(b.freeRanges))
    ensures ok && Proper(entries) && Inside(entries, kernel) && Inside(entries, initrd) ==>
      ExactlyUsable(entries, kernel, initrd, pages + headers, Managed(zones))
    ensures ok || NoBootPage(b.Stored(b.freeRanges))
      || MissingRoom(AllKnown(entries, kernel, initrd), b.Stored(b.freeRanges), sizes)
  {
    hide Ready, OthersClear, Released, AllUsable, ZoneFor, OnlyFor, HeadersFor, MissingRoom, TakenOut, RoomyFor,
      KnownOnly, Available, Without, AllKnown, Separated, BootPages, NoBootPage, WholePages, ZonesCover, ExactlyUsable,
      Proper, Inside;
    ghost var known, free, free1;
    b, known, free := SetupBoot(entries, kernel, initrd, tables);
    BootMapRoomy(entries, kernel, initrd, known, free, sizes, limit);
    BootMapFits(entries, kernel, initrd, known, free);
    zones, headers := [], [];
    ok, pages, free1 := TakeTables(b, tables, known, free, |known|, sizes);
    if !ok { return; }
    KnownShrinks(free, free1, pages, known);
    ok, zones, headers := PageAllocSetup(b, sizes, ram);
    ghost var free2 := b.Stored(b.freeRanges);
    TakenTwice(free, free1, free2, pages, headers);
    if ok {
      SetupUsable(entries, kernel, initrd, known, free, free2, pages + headers, zones, ram);
      if Proper(entries) && Inside(entries, kernel) && Inside(entries, initrd) {
        UsableManaged(entries, kernel, initrd, known, free, free2, pages + headers, Managed(zones));
      }
    }
  }

  /** The zones are those of the known ranges with a whole page. */
  ghost predicate ZonesOfAll(zones: seq<Memory.Zone>, entries: seq<Entry>, kernel: Range, initrd: Range)
  {
    var known := AllKnown(entries, kernel, initrd);
    ZoneFor(zones, known) && OnlyFor(zones, known) && ZonesCover(zones, known)
  }

  /** And so it stays: whatever the zones have handed out, then or later, is usable. */
  lemma OutstandingUsable(entries: seq<Entry>, kernel: Range, initrd: Range, taken: seq<Range>,
      zones: seq<Memory.Zone>, k: nat, block: B.Block, p: nat)
    requires AllUsable(entries, kernel, initrd, taken, Managed(zones)) && Ready(zones)
    requires k < |zones| && block in zones[k].busy && B.In(p, block)
    ensures PageUsable(entries, kernel, initrd, taken, p)
  {
    var z := zones[k];
    assert block in z.free + z.busy + {};
    assert B.Covered(p, z.free + z.busy + {});
    assert p in Managed(zones)[k];
  }
}
