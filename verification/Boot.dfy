/** Building the boot memory map and handing it to the page allocator. */
module Boot {
  import opened Ranges
  import opened Balloc

  /** A Multiboot memory map entry. */
  datatype Entry = Entry(addr: nat, length: nat, kind: nat)

  /** MULTIBOOT_MEMORY_AVAILABLE */
  const AVAILABLE: nat := 1

  predicate IsReserved(e: Entry) { e.kind != AVAILABLE }

  function RangeOf(e: Entry): Range { Range(e.addr, e.addr + e.length) }

  function With(s: seq<Range>, r: Range): seq<Range> { Add(s, r.begin, r.end) }

  function Without(s: seq<Range>, r: Range): seq<Range> { Remove(s, r.begin, r.end) }

  /** The list after the first `n` entries were added. */
  function Known(entries: seq<Entry>, n: nat): seq<Range>
    requires n <= |entries|
  {
    if n == 0 then []
    else With(Known(entries, n - 1), RangeOf(entries[n - 1]))
  }

  /** The list after the reserved ones among the first `n` entries were
      removed. */
  function Available(s: seq<Range>, entries: seq<Entry>, n: nat): seq<Range>
    requires n <= |entries|
  {
    if n == 0 then s
    else if IsReserved(entries[n - 1]) then Without(Available(s, entries, n - 1), RangeOf(entries[n - 1]))
    else Available(s, entries, n - 1)
  }

  /** An address inside an entry that is not available memory. */
  ghost predicate Reserved(entries: seq<Entry>, a: nat)
  {
    exists e :: e in entries && e.kind != AVAILABLE && e.addr <= a < e.addr + e.length
  }

  /** How many of the first `n` entries are not available memory. */
  function ReservedCount(entries: seq<Entry>, n: nat): (c: nat)
    requires n <= |entries|
  {
    if n == 0 then 0 else ReservedCount(entries, n - 1) + if IsReserved(entries[n - 1]) then 1 else 0
  }

  // ---- the nodes it takes ----

  /** Nodes enough to add a range to both trees while both hold `s`. */
  ghost predicate RoomToAdd(s: seq<Range>, r: Range)
  {
    2 * |s| < MAX_RANGES && |Add(s, r.begin, r.end)| + |s| < MAX_RANGES
  }

  /** Nodes enough to take a range out of `free`. */
  ghost predicate RoomToRemove(known: seq<Range>, free: seq<Range>, r: Range)
  {
    NodesFor(free, r.begin, r.end, MAX_RANGES - |known| - |free|)
  }

  ghost predicate AddsFit(entries: seq<Entry>)
  {
    forall i :: 0 <= i < |entries| ==> RoomToAdd(Known(entries, i), RangeOf(entries[i]))
  }

  ghost predicate RemovesFit(entries: seq<Entry>, known: seq<Range>)
  {
    forall i :: 0 <= i < |entries| && IsReserved(entries[i]) ==>
      RoomToRemove(known, Available(known, entries, i), RangeOf(entries[i]))
  }

  /** What is known in the end: the entries, the kernel and the ramdisk. */
  function AllKnown(entries: seq<Entry>, kernel: Range, initrd: Range): seq<Range>
  {
    With(With(Known(entries, |entries|), kernel), initrd)
  }

  /** No step of `balloc_parse_mmap` runs out of the nodes, which would be a BUG. */
  ghost predicate NodesSuffice(entries: seq<Entry>, kernel: Range, initrd: Range)
  {
    var k := Known(entries, |entries|);
    var known := AllKnown(entries, kernel, initrd);
    var f := Available(known, entries, |entries|);
    && AddsFit(entries) && RoomToAdd(k, kernel) && RoomToAdd(With(k, kernel), initrd)
    && RemovesFit(entries, known) && RoomToRemove(known, f, kernel)
    && RoomToRemove(known, Without(f, kernel), initrd)
  }

  lemma {:induction false} KnownLength(entries: seq<Entry>, n: nat)
    requires n <= |entries|
    ensures |Known(entries, n)| <= n
  {
    hide Add;
    if n > 0 {
      KnownLength(entries, n - 1);
      AddLength(Known(entries, n - 1), RangeOf(entries[n - 1]).begin, RangeOf(entries[n - 1]).end);
    }
  }

  lemma {:induction false} AvailableLength(s: seq<Range>, entries: seq<Entry>, n: nat)
    requires n <= |entries| && Separated(s)
    ensures Separated(Available(s, entries, n)) && |Available(s, entries, n)| <= |s| + ReservedCount(entries, n)
  {
    hide Separated, Without;
    if n > 0 {
      AvailableLength(s, entries, n - 1);
      WithoutLength(Available(s, entries, n - 1), RangeOf(entries[n - 1]));
    }
  }

  lemma AllKnownFacts(entries: seq<Entry>, kernel: Range, initrd: Range)
    requires kernel.begin <= kernel.end && initrd.begin <= initrd.end
    ensures Separated(AllKnown(entries, kernel, initrd)) && |AllKnown(entries, kernel, initrd)| <= |entries| + 2
    ensures |With(Known(entries, |entries|), kernel)| <= |entries| + 1
  {
    hide Add, Separated;
    var k := Known(entries, |entries|);
    KnownSeparated(entries, |entries|);
    KnownLength(entries, |entries|);
    AddSeparated(k, kernel.begin, kernel.end);
    AddLength(k, kernel.begin, kernel.end);
    AddSeparated(With(k, kernel), initrd.begin, initrd.end);
    AddLength(With(k, kernel), initrd.begin, initrd.end);
  }

  lemma FewAdds(s: seq<Range>, r: Range)
    requires 2 * |s| + 1 < MAX_RANGES
    ensures RoomToAdd(s, r)
  {
    AddLength(s, r.begin, r.end);
  }

  /** Any list with this few entries is fine, whatever it says. */
  lemma FewEntries(entries: seq<Entry>, kernel: Range, initrd: Range)
    requires kernel.begin <= kernel.end && initrd.begin <= initrd.end
    requires 2 * |entries| + ReservedCount(entries, |entries|) + 7 <= MAX_RANGES
    ensures NodesSuffice(entries, kernel, initrd)
  {
    hide With, Without, Known, Available, Separated, AllKnown, ReservedCount, RoomToAdd, NodesFor, CutNeed;
    var n, known := |entries|, AllKnown(entries, kernel, initrd);
    AllKnownFacts(entries, kernel, initrd);
    KnownLength(entries, n);
    FewAdds(Known(entries, n), kernel);
    FewAdds(With(Known(entries, n), kernel), initrd);
    forall i | 0 <= i < n ensures RoomToAdd(Known(entries, i), RangeOf(entries[i]))
    {
      KnownLength(entries, i);
      FewAdds(Known(entries, i), RangeOf(entries[i]));
    }
    forall i | 0 <= i < n && IsReserved(entries[i])
      ensures RoomToRemove(known, Available(known, entries, i), RangeOf(entries[i]))
    {
      AvailableLength(known, entries, i);
      ReservedGrows(entries, i, n);
      FewRemoves(known, Available(known, entries, i), RangeOf(entries[i]));
    }
    AvailableLength(known, entries, n);
    FewRemoves(known, Available(known, entries, n), kernel);
    WithoutLength(Available(known, entries, n), kernel);
    FewRemoves(known, Without(Available(known, entries, n), kernel), initrd);
  }

  lemma WithoutLength(s: seq<Range>, r: Range)
    requires Separated(s) && r.begin <= r.end
    ensures Separated(Without(s, r)) && |Without(s, r)| <= |s| + 1
  {
    RemoveLength(s, r.begin, r.end);
    RemoveSeparated(s, r.begin, r.end);
  }

  lemma FewRemoves(known: seq<Range>, free: seq<Range>, r: Range)
    requires |known| + |free| + 2 <= MAX_RANGES && Separated(free) && r.begin <= r.end
    ensures RoomToRemove(known, free, r)
  {
    TwoSuffice(free, r.begin, r.end, MAX_RANGES - |known| - |free|);
  }

  /** How many ranges are known and free after booting. */
  lemma BootMapLength(entries: seq<Entry>, kernel: Range, initrd: Range, known: seq<Range>, free: seq<Range>)
    requires kernel.begin <= kernel.end && initrd.begin <= initrd.end && BootMap(entries, kernel, initrd, known, free)
    ensures |known| <= |entries| + 2 && |free| <= |entries| + ReservedCount(entries, |entries|) + 4
  {
    hide Without, Separated, Available, AllKnown;
    AllKnownFacts(entries, kernel, initrd);
    AvailableLength(known, entries, |entries|);
    WithoutLength(Available(known, entries, |entries|), kernel);
    WithoutLength(Without(Available(known, entries, |entries|), kernel), initrd);
  }

  // ---- the parser ----

  /** `balloc_parse_mmap`: everything is added to both trees, then what is
      reserved or already in use is removed from the free one. */
  method ParseMmap(b: BootAllocator, entries: seq<Entry>, kernel: Range, initrd: Range)
    requires Holds(b, [], []) && NodesSuffice(entries, kernel, initrd)
    requires kernel.begin <= kernel.end && initrd.begin <= initrd.end
    modifies b, b.memoryMap, b.freeRanges
    ensures b.Valid() && b.held == 0
    ensures BootMap(entries, kernel, initrd, b.Stored(b.memoryMap), b.Stored(b.freeRanges))
    ensures |b.freeNodes| == MAX_RANGES - |b.Stored(b.memoryMap)| - |b.Stored(b.freeRanges)|
    ensures |b.freeNodes| >= MAX_RANGES - 2 * |entries| - ReservedCount(entries, |entries|) - 6
  {
    hide NodesFor, RoomToAdd, AddsFit, RemovesFit, Available, Known, Add, Remove;
    ghost var k, known := Known(entries, |entries|), AllKnown(entries, kernel, initrd);
    AddEntries(b, entries);
    AddBoth(b, kernel, k);
    AddBoth(b, initrd, With(k, kernel));
    RemoveEntries(b, entries, known);
    ghost var f := Available(known, entries, |entries|);
    RemoveFree(b, kernel, known, f);
    RemoveFree(b, initrd, known, Without(f, kernel));
    BootMapLength(entries, kernel, initrd, known, b.Stored(b.freeRanges));
  }

  /** The trees hold `known` and `free`. */
  ghost predicate Holds(b: BootAllocator, known: seq<Range>, free: seq<Range>)
    reads b, b.memoryMap, b.freeRanges
  {
    b.Valid() && b.held == 0 && b.Stored(b.memoryMap) == known && b.Stored(b.freeRanges) == free
  }

  lemma NoneKnown(entries: seq<Entry>)
    ensures Known(entries, 0) == []
  {
  }

  lemma NoneRemoved(s: seq<Range>, entries: seq<Entry>)
    ensures Available(s, entries, 0) == s
  {
  }

  /** Adds every entry to both trees. */
  method AddEntries(b: BootAllocator, entries: seq<Entry>)
    requires Holds(b, [], []) && AddsFit(entries)
    modifies b, b.memoryMap, b.freeRanges
    ensures Holds(b, Known(entries, |entries|), Known(entries, |entries|))
  {
    hide Holds, RoomToAdd, Known;
    NoneKnown(entries);
    var i := 0;
    while i < |entries|
      invariant i <= |entries| && Holds(b, Known(entries, i), Known(entries, i))
    {
      OneMore(entries, i);
      AddBoth(b, RangeOf(entries[i]), Known(entries, i));
      i := i + 1;
    }
  }

  lemma OneMore(entries: seq<Entry>, i: nat)
    requires i < |entries|
    ensures Known(entries, i + 1) == With(Known(entries, i), RangeOf(entries[i]))
  {
    hide With;
  }

  lemma {:induction false} ReservedGrows(entries: seq<Entry>, n: nat, m: nat)
    requires n <= m <= |entries|
    ensures ReservedCount(entries, n) <= ReservedCount(entries, m)
    ensures n < m && IsReserved(entries[n]) ==> ReservedCount(entries, n) < ReservedCount(entries, m)
    decreases m
  {
    if n < m { ReservedGrows(entries, n, m - 1); }
  }

  /** Removes the reserved entries from the free ranges. */
  method RemoveEntries(b: BootAllocator, entries: seq<Entry>, ghost known: seq<Range>)
    requires Holds(b, known, known) && RemovesFit(entries, known)
    modifies b, b.memoryMap, b.freeRanges
    ensures Holds(b, known, Available(known, entries, |entries|))
  {
    hide Holds, RoomToRemove, Available;
    NoneRemoved(known, entries);
    var i := 0;
    while i < |entries|
      invariant i <= |entries| && Holds(b, known, Available(known, entries, i))
    {
      OneLess(known, entries, i);
      if IsReserved(entries[i]) {
        RemoveFree(b, RangeOf(entries[i]), known, Available(known, entries, i));
      }
      i := i + 1;
    }
  }

  lemma OneLess(known: seq<Range>, entries: seq<Entry>, i: nat)
    requires i < |entries|
    ensures Available(known, entries, i + 1) ==
      if IsReserved(entries[i]) then Without(Available(known, entries, i), RangeOf(entries[i]))
      else Available(known, entries, i)
  {
    hide Without;
  }

  method AddBoth(b: BootAllocator, r: Range, ghost s: seq<Range>)
    requires Holds(b, s, s) && RoomToAdd(s, r) && r.begin <= r.end
    modifies b, b.memoryMap, b.freeRanges
    ensures Holds(b, With(s, r), With(s, r))
  {
    b.AddRange(b.memoryMap, r.begin, r.end);
    b.AddRange(b.freeRanges, r.begin, r.end);
  }

  method RemoveFree(b: BootAllocator, r: Range, ghost known: seq<Range>, ghost free: seq<Range>)
    requires Holds(b, known, free) && RoomToRemove(known, free, r) && r.begin <= r.end
    modifies b, b.memoryMap, b.freeRanges
    ensures Holds(b, known, Without(free, r))
  {
    b.RemoveRange(b.freeRanges, r.begin, r.end);
  }

  /** What the two trees hold after booting. */
  ghost predicate BootMap(entries: seq<Entry>, kernel: Range, initrd: Range, known: seq<Range>, free: seq<Range>)
  {
    && known == AllKnown(entries, kernel, initrd)
    && free == Without(Without(Available(known, entries, |entries|), kernel), initrd)
  }

  ghost predicate ReservedAmong(entries: seq<Entry>, n: nat, a: nat)
    requires n <= |entries|
  {
    exists i :: 0 <= i < n && entries[i].kind != AVAILABLE && entries[i].addr <= a < entries[i].addr + entries[i].length
  }

  lemma {:induction false} ReservedRemoved(s: seq<Range>, entries: seq<Entry>, n: nat, a: nat)
    requires n <= |entries|
    ensures Covers(Available(s, entries, n), a) <==> Covers(s, a) && !ReservedAmong(entries, n, a)
  {
    hide Remove, Covers;
    if n > 0 {
      var e, t := entries[n - 1], Available(s, entries, n - 1);
      RemoveIsDifference(t, e.addr, e.addr + e.length, a);
      ReservedRemoved(s, entries, n - 1, a);
      assert ReservedAmong(entries, n, a) <==>
        ReservedAmong(entries, n - 1, a) || (e.kind != AVAILABLE && e.addr <= a < e.addr + e.length);
    }
  }

  /** Boot-map safety, for any entry list: an address is free exactly when it
      is known and lies in no reserved entry, nor in the kernel, nor in the
      initial ramdisk. */
  lemma FreeIsSafe(entries: seq<Entry>, kernel: Range, initrd: Range, known: seq<Range>, free: seq<Range>, a: nat)
    requires BootMap(entries, kernel, initrd, known, free)
    requires kernel.begin <= kernel.end && initrd.begin <= initrd.end
    ensures Covers(free, a) <==> Covers(known, a) && !Reserved(entries, a) && !Has(kernel, a) && !Has(initrd, a)
  {
    var s1 := Available(known, entries, |entries|);
    ReservedRemoved(known, entries, |entries|, a);
    if Reserved(entries, a) {
      var e :| e in entries && e.kind != AVAILABLE && e.addr <= a < e.addr + e.length;
      var i :| 0 <= i < |entries| && entries[i] == e;
    }
    RemoveIsDifference(s1, kernel.begin, kernel.end, a);
    RemoveIsDifference(Remove(s1, kernel.begin, kernel.end), initrd.begin, initrd.end, a);
  }

  ghost predicate ReportedAmong(entries: seq<Entry>, n: nat, a: nat)
    requires n <= |entries|
  {
    exists i :: 0 <= i < n && entries[i].addr <= a < entries[i].addr + entries[i].length
  }

  lemma NothingYet(entries: seq<Entry>, a: nat)
    ensures Separated(Known(entries, 0)) && !Covers(Known(entries, 0), a)
  {
  }

  lemma {:induction false} KnownSeparated(entries: seq<Entry>, n: nat)
    requires n <= |entries|
    ensures Separated(Known(entries, n))
  {
    hide Add, Separated;
    if n > 0 {
      KnownSeparated(entries, n - 1);
      var e := entries[n - 1];
      AddSeparated(Known(entries, n - 1), e.addr, e.addr + e.length);
    } else {
      NothingYet(entries, 0);
    }
  }

  /** The lossy addition never makes an address up. */
  lemma {:induction false} KnownReported(entries: seq<Entry>, n: nat, a: nat)
    requires n <= |entries|
    ensures Covers(Known(entries, n), a) ==> ReportedAmong(entries, n, a)
  {
    hide Add, Covers, Separated;
    if n > 0 {
      var e, s := entries[n - 1], Known(entries, n - 1);
      KnownSeparated(entries, n - 1);
      KnownReported(entries, n - 1, a);
      AddBounds(s, e.addr, e.addr + e.length, a);
    } else {
      NothingYet(entries, a);
    }
  }

  /** Every address that is free after booting was reported, and reported as
      available only. */
  lemma FreeIsReported(entries: seq<Entry>, kernel: Range, initrd: Range, known: seq<Range>, free: seq<Range>, a: nat)
    requires BootMap(entries, kernel, initrd, known, free)
    requires kernel.begin <= kernel.end && initrd.begin <= initrd.end
    ensures Covers(free, a) ==> !Reserved(entries, a)
    ensures Covers(free, a) ==>
      exists e :: e in entries && e.kind == AVAILABLE && e.addr <= a < e.addr + e.length
  {
    hide Add, Covers, Separated, Available, Remove;
    FreeIsSafe(entries, kernel, initrd, known, free, a);
    if Covers(free, a) {
      KnownSeparated(entries, |entries|);
      var s := Known(entries, |entries|);
      KnownReported(entries, |entries|, a);
      AddSeparated(s, kernel.begin, kernel.end);
      AddBounds(s, kernel.begin, kernel.end, a);
      AddBounds(Add(s, kernel.begin, kernel.end), initrd.begin, initrd.end, a);
      assert !Has(kernel, a) && !Has(initrd, a);
      var i :| 0 <= i < |entries| && entries[i].addr <= a < entries[i].addr + entries[i].length;
      assert entries[i] in entries;
    }
  }

  // ---- when nothing is lost ----

  ghost predicate Clear(x: Range, y: Range) { x.end <= y.begin || y.end <= x.begin }

  /** The entries are not empty and do not overlap. */
  ghost predicate Proper(entries: seq<Entry>)
  {
    && (forall i :: 0 <= i < |entries| ==> entries[i].length > 0)
    && (forall i, j :: 0 <= i < j < |entries| ==> Clear(RangeOf(entries[i]), RangeOf(entries[j])))
  }

  lemma NextFits(entries: seq<Entry>, n: nat)
    requires n < |entries| && Proper(entries) && NonEmpty(Known(entries, n))
    ensures NoOvershoot(Known(entries, n), RangeOf(entries[n]).begin, RangeOf(entries[n]).end)
  {
    hide Known;
    var s, e := Known(entries, n), RangeOf(entries[n]);
    forall r | r in s && e.begin <= r.begin <= e.end ensures e.end <= r.end
    {
      assert Has(r, r.begin);
      KnownReported(entries, n, r.begin);
      var i :| 0 <= i < n && entries[i].addr <= r.begin < entries[i].addr + entries[i].length;
      assert Clear(RangeOf(entries[i]), e);
    }
  }

  /** Entries that do not overlap are added without loss: known is exactly what
      was reported. */
  lemma {:induction false} KnownComplete(entries: seq<Entry>, n: nat)
    requires n <= |entries| && Proper(entries)
    ensures NonEmpty(Known(entries, n))
    ensures forall a: nat :: Covers(Known(entries, n), a) <==> ReportedAmong(entries, n, a)
  {
    hide Add, Covers, Separated, NoOvershoot;
    if n == 0 {
      forall a: nat ensures !Covers(Known(entries, 0), a) { NothingYet(entries, a); }
    } else {
      var s, e := Known(entries, n - 1), RangeOf(entries[n - 1]);
      KnownComplete(entries, n - 1);
      KnownSeparated(entries, n - 1);
      NextFits(entries, n - 1);
      AddNonEmpty(s, e.begin, e.end);
      AddIsUnion(s, e.begin, e.end);
      forall a: nat ensures ReportedAmong(entries, n, a) <==> ReportedAmong(entries, n - 1, a) || Has(e, a) { }
    }
  }

  /** Inside one of the entries. */
  ghost predicate Inside(entries: seq<Entry>, r: Range)
  {
    exists i :: 0 <= i < |entries| && entries[i].addr <= r.begin <= r.end <= entries[i].addr + entries[i].length
  }

  /** `s` covers what was reported. */
  ghost predicate CoversReported(s: seq<Range>, entries: seq<Entry>)
  {
    Separated(s) && forall a: nat :: Covers(s, a) <==> ReportedAmong(entries, |entries|, a)
  }

  lemma InsideAdded(entries: seq<Entry>, s: seq<Range>, r: Range)
    requires Proper(entries) && CoversReported(s, entries) && Inside(entries, r)
    ensures CoversReported(With(s, r), entries)
  {
    hide Add, Covers, Separated, NoOvershoot;
    var i :| 0 <= i < |entries| && entries[i].addr <= r.begin <= r.end <= entries[i].addr + entries[i].length;
    var e := RangeOf(entries[i]);
    var k := RunInOneRange(s, e.begin, e.end);
    InsideFits(s, k, r.begin, r.end);
    AddIsUnion(s, r.begin, r.end);
    AddSeparated(s, r.begin, r.end);
  }

  /** Then, with the kernel and the ramdisk inside entries, an address is known
      exactly when it was reported, and free exactly when it lies in an available
      entry outside both. */
  lemma BootComplete(entries: seq<Entry>, kernel: Range, initrd: Range, known: seq<Range>, free: seq<Range>, a: nat)
    requires BootMap(entries, kernel, initrd, known, free)
    requires Proper(entries) && Inside(entries, kernel) && Inside(entries, initrd)
    ensures Covers(known, a) <==> ReportedAmong(entries, |entries|, a)
    ensures Covers(free, a) <==> AvailableAt(entries, a) && !Has(kernel, a) && !Has(initrd, a)
  {
    hide Add, Covers, Separated, Available, Known, Without;
    KnownComplete(entries, |entries|);
    KnownSeparated(entries, |entries|);
    InsideAdded(entries, Known(entries, |entries|), kernel);
    InsideAdded(entries, With(Known(entries, |entries|), kernel), initrd);
    FreeIsSafe(entries, kernel, initrd, known, free, a);
    OneEntry(entries, a);
  }

  /** An address of an available entry. */
  ghost predicate AvailableAt(entries: seq<Entry>, a: nat)
  {
    exists e :: e in entries && !IsReserved(e) && Has(RangeOf(e), a)
  }

  lemma OneEntry(entries: seq<Entry>, a: nat)
    requires Proper(entries)
    ensures AvailableAt(entries, a) <==> ReportedAmong(entries, |entries|, a) && !Reserved(entries, a)
  {
    if ReportedAmong(entries, |entries|, a) {
      var i :| 0 <= i < |entries| && entries[i].addr <= a < entries[i].addr + entries[i].length;
      assert entries[i] in entries;
      forall j | 0 <= j < |entries| && Has(RangeOf(entries[j]), a) ensures j == i { }
    }
  }
}
