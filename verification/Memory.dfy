/** The buddy page allocator of one zone. */
module Memory {
  import opened Bits
  import opened Blocks
  import opened Lists
  import opened Options

  /** The allocator's part of a page header: the FREE bit and the order.
      Neither is cleared when the page is absorbed by a larger block. */
  datatype Page = Page(free: bool, order: nat)

  // ---- what the per-order lists and the headers say about a set of blocks ----

  /** `lists[k]` holds exactly the heads of the free blocks of order `k`. */
  ghost predicate ListsHold(lists: seq<seq<nat>>, free: set<Block>)
  {
    && |lists| == MAX_ORDER + 1
    && (forall k :: 0 <= k <= MAX_ORDER ==> NoDup(lists[k]))
    && (forall b :: b in free ==> b.order <= MAX_ORDER && b.idx in lists[b.order])
    && (forall k, p :: 0 <= k <= MAX_ORDER && p in lists[k] ==> Block(p, k) in free)
  }

  /** Heads of free blocks are marked and carry their order; heads of
      outstanding blocks and pages outside `doubt` are unmarked.  The released
      pages are in `doubt`: inside a block the headers may be stale. */
  ghost predicate HeadersHold(pages: seq<Page>, begin: nat, free: set<Block>, busy: set<Block>, doubt: set<nat>)
  {
    && (forall b :: b in free ==> begin <= b.idx < begin + |pages| && pages[b.idx - begin] == Page(true, b.order))
    && (forall b :: b in busy ==> begin <= b.idx < begin + |pages| && !pages[b.idx - begin].free)
    && (forall p :: begin <= p < begin + |pages| && p !in doubt ==> !pages[p - begin].free)
  }

  /** Free blocks `free`, outstanding blocks `busy` and the block `hand` the
      allocator is working on tile the released pages. */
  ghost predicate Tiled(free: set<Block>, busy: set<Block>, hand: set<Block>, released: set<nat>)
  {
    && free !! busy !! hand
    && Disjoint(free + busy + hand)
    && Covers(free + busy + hand, released)
    && Coalesced(free)
  }

  /** A page at a buddy's index that lies in a current block is its head. */
  lemma BuddyHead(all: set<Block>, hand: Block, b: Block)
    requires Disjoint(all) && hand in all && b in all
    requires hand.order < MAX_ORDER && In(Buddy(hand).idx, b)
    ensures b != hand && b.idx == Buddy(hand).idx && b.order <= hand.order
  {
    var buddy := Buddy(hand);
    BuddyFacts(hand);
    assert In(buddy.idx, buddy);
    if b.order > hand.order {
      Nested(Parent(hand), b, buddy.idx, hand.idx);
    } else {
      InBase(buddy.idx, b);
      BaseUnchanged(buddy.idx, b.order, buddy.order);
    }
  }

  /** Stale headers are never believed.  When the buddy of a block in hand is
      tested, the tested page is either unreleased or the head of a current
      block, so the FREE bit and the order identify a block of the free list. */
  lemma BuddyTest(pages: seq<Page>, begin: nat, free: set<Block>, busy: set<Block>, hand: Block, released: set<nat>)
    requires Tiled(free, busy, {hand}, released) && HeadersHold(pages, begin, free, busy, released)
    requires hand.order < MAX_ORDER && begin <= Buddy(hand).idx < begin + |pages|
    ensures pages[Buddy(hand).idx - begin] == Page(true, hand.order) <==> Buddy(hand) in free
    ensures Buddy(hand).idx !in released
      || exists b :: b in free + busy && b.idx == Buddy(hand).idx && b.order <= hand.order
  {
    var p, all := Buddy(hand).idx, free + busy + {hand};
    if p in released {
      assert Covered(p, all);
      var b :| b in all && In(p, b);
      BuddyHead(all, hand, b);
      assert b in free + busy;
      if Buddy(hand) in free { BuddyHead(all, hand, Buddy(hand)); }
    } else if Buddy(hand) in free {
      assert false;
    }
  }

  ghost predicate NoneMarked(headers: seq<Page>) { forall i :: 0 <= i < |headers| ==> !headers[i].free }

  lemma HeadersAtFirst(headers: seq<Page>, begin: nat)
    ensures HeadersHold(headers, begin, {}, {}, {}) <==> NoneMarked(headers)
  {
    if HeadersHold(headers, begin, {}, {}, {}) {
      forall i | 0 <= i < |headers| ensures !headers[i].free
      {
        var p, none: set<nat> := begin + i, {};
        assert p !in none && p - begin == i;
      }
    }
  }

  /** Why the headers must be clear: the buddy of a block being freed may be a
      page that was never released.  It heads no block, so that the header test
      goes wrong exactly when the header happens to be marked. */
  lemma NeverReleased(free: set<Block>, busy: set<Block>, hand: Block, released: set<nat>)
    requires Tiled(free, busy, {hand}, released)
    requires hand.order < MAX_ORDER && Buddy(hand).idx !in released
    ensures Buddy(hand) !in free && forall b :: b in free + busy ==> !In(Buddy(hand).idx, b)
  {
    var p := Buddy(hand).idx;
    assert In(p, Buddy(hand));
    forall b | b in free + busy ensures !In(p, b)
    {
      if In(p, b) { assert Covered(p, free + busy + {hand}); }
    }
  }

  /** Page 2 taken back, page 3 never released, its header marked by chance. */
  lemma StaleExample()
    ensures Tiled({}, {}, {Block(2, 0)}, {2}) && Buddy(Block(2, 0)) == Block(3, 0) && 3 !in {2}
    ensures [Page(false, 0), Page(true, 0)][Buddy(Block(2, 0)).idx - 2] == Page(true, 0)
  {
    XorPow2(2, 0);
    forall p: nat ensures Covered(p, {} + {} + {Block(2, 0)}) <==> p in {2}
    {
      if p == 2 { assert In(2, Block(2, 0)); }
    }
  }

  lemma {:induction false} BaseUnchanged(p: nat, k: nat, m: nat)
    requires k <= m && Base(p, m) == p
    ensures Base(p, k) == p
  {
    if k > 0 { BaseUnchanged(p / 2, k - 1, m - 1); }
  }

  class Zone {
    const begin: nat
    const end: nat
    const order: array<seq<nat>>
    const pages: array<Page>
    ghost var free: set<Block>
    ghost var busy: set<Block>
    ghost var released: set<nat>

    ghost predicate Shape()
      reads this
    {
      && begin <= end
      && pages.Length == end - begin
      && order.Length == MAX_ORDER + 1
      && (forall p :: p in released ==> begin <= p < end)
    }

    /** The blocks, the lists and the headers of blocks are right; the headers
        of pages that are in no block are unmarked but for those in `doubt`. */
    ghost predicate Sound(doubt: set<nat>)
      reads this, order, pages
    {
      && Shape()
      && Tiled(free, busy, {}, released)
      && ListsHold(order[..], free)
      && HeadersHold(pages[..], begin, free, busy, doubt)
    }

    /** Only released pages may carry stale headers. */
    ghost predicate Valid()
      reads this, order, pages
    {
      Sound(released)
    }

    /** Right, but for the headers that the zone was set up with. */
    ghost predicate Carved()
      reads this, order, pages
    {
      Sound(Run(begin, end))
    }

    /** The headers of pages that were not released are as in `headers`. */
    ghost predicate Untouched(headers: seq<Page>)
      reads this, pages
    {
      |headers| == pages.Length &&
      forall p :: begin <= p < begin + pages.Length && p !in released ==> pages[p - begin] == headers[p - begin]
    }

    /** A carved zone is valid exactly when no page that was not released has a
        marked header. */
    lemma ValidIf()
      requires Carved()
      ensures Valid() <==> forall p :: begin <= p < end && p !in released ==> !pages[p - begin].free
    {
    }

    lemma ValidCarved()
      requires Valid()
      ensures Carved()
    {
      assert forall p :: p in Run(begin, end) <==> begin <= p < end;
    }

    /** Puts the block headed by page `p` on the free list of order `k` and
        marks its header: `list_add` or `list_add_tail`, `page_set_order`,
        `page_set_free`. */
    method Publish(k: nat, p: nat, tail: bool)
      requires Shape() && ListsHold(order[..], free)
      requires k <= MAX_ORDER && Block(p, k) !in free && begin <= p < end
      modifies order, pages, this`free
      ensures free == old(free) + {Block(p, k)} && ListsHold(order[..], free)
      ensures pages[..] == old(pages[..])[p - begin := Page(true, k)]
      ensures order[..] == old(order[..])[k := if tail then old(order[k]) + [p] else [p] + old(order[k])]
    {
      order[k] := if tail then order[k] + [p] else [p] + order[k];
      free := free + {Block(p, k)};
      pages[p - begin] := pages[p - begin].(order := k);
      pages[p - begin] := pages[p - begin].(free := true);
    }

    /** `list_del(&page->ll)`, legal only for a page that is on the list. */
    method ListDel(k: nat, p: nat)
      requires Shape() && ListsHold(order[..], free)
      requires k <= MAX_ORDER && Block(p, k) in free
      modifies order, this`free
      ensures free == old(free) - {Block(p, k)} && ListsHold(order[..], free)
      ensures order[..] == old(order[..])[k := Without(old(order[k]), p)]
    {
      WithoutMembers(order[k], p);
      order[k] := Without(order[k], p);
      free := free - {Block(p, k)};
    }

    /** The block `hand` is off the free list and not yet outstanding. */
    ghost predicate Working(hand: Block, rest: set<Block>)
      reads this, order, pages
    {
      && Shape()
      && Tiled(free, rest, {hand}, released)
      && ListsHold(order[..], free)
      && HeadersHold(pages[..], begin, free, rest, released)
    }

    ghost predicate Unmarked(p: nat)
      reads this, pages
    {
      begin <= p < begin + pages.Length && !pages[p - begin].free
    }

    /** Takes the first block off the free list of order `k`. */
    method Take(k: nat) returns (idx: nat)
      requires Valid() && k <= MAX_ORDER && order[k] != []
      modifies this`free, order, pages
      ensures Block(idx, k) in old(free) && free == old(free) - {Block(idx, k)}
      ensures Working(Block(idx, k), busy) && Unmarked(idx)
      ensures forall p: nat :: Covered(p, free) <==> Covered(p, old(free)) && !In(p, Block(idx, k))
      ensures idx == old(order[k])[0] && order[..] == old(order[..])[k := old(order[k])[1..]]
    {
      idx := order[k][0];
      ghost var taken := Block(idx, k);
      assert In(idx, taken);
      pages[idx - begin] := pages[idx - begin].(free := false);
      ListDel(k, idx);
      HandOut(old(free), busy, taken, released);
      forall b | b in free + busy ensures b.idx != idx { assert In(b.idx, b); }
    }

    /** Gives the upper half of the block in hand back to the free list. */
    method SplitOnce(idx: nat, k: nat)
      requires Working(Block(idx, k + 1), busy) && Unmarked(idx)
      modifies this`free, order, pages
      ensures Working(Block(idx, k), busy) && Unmarked(idx)
      ensures Aligned(Block(idx, k)) && Parent(Block(idx, k)) == Block(idx, k + 1)
      ensures free == old(free) + {Buddy(Block(idx, k))}
      ensures k <= MAX_ORDER && order[..] == old(order[..])[k := [idx + Pow2(k)] + old(order[k])]
    {
      SplitStep(pages[..], begin, free, busy, Block(idx, k + 1), released);
      Publish(k, Xor(idx, Pow2(k)), false);
    }

    /** The first non-empty list from `want` upwards. */
    method FindOrder(want: nat) returns (current: nat)
      requires Valid() && want <= MAX_ORDER
      ensures want <= current <= MAX_ORDER + 1
      ensures forall b :: b in free && want <= b.order ==> current <= b.order
      ensures current <= MAX_ORDER ==> order[current] != []
      ensures forall k :: want <= k < current ==> order[k] == []
    {
      current := want;
      while current <= MAX_ORDER && order[current] == []
        invariant want <= current <= MAX_ORDER + 1
        invariant forall k :: want <= k < current ==> order[k] == []
      {
        current := current + 1;
      }
    }

    method SplitDown(idx: nat, taken: nat, want: nat, ghost free0: set<Block>)
      requires Working(Block(idx, taken), busy) && Unmarked(idx) && want <= taken
      requires forall p: nat :: Covered(p, free) <==> Covered(p, free0) && !In(p, Block(idx, taken))
      requires Within(Block(idx, taken), free0)
      modifies this`free, order, pages
      ensures Working(Block(idx, want), busy) && Unmarked(idx)
      ensures forall p: nat :: Covered(p, free) <==> Covered(p, free0) && !In(p, Block(idx, want))
      ensures HalvesListed(old(order[..]), order[..], idx, want, taken)
    {
      hide Tiled, ListsHold, HeadersHold, Within, Covered, HalvesListed;
      assert HalvesListed(order[..], order[..], idx, taken, taken) by { NoHalves(order[..], idx, taken); }
      var current := taken;
      while current != want
        invariant want <= current <= taken
        invariant Working(Block(idx, current), busy) && Unmarked(idx)
        invariant forall p: nat :: Covered(p, free) <==> Covered(p, free0) && !In(p, Block(idx, current))
        invariant Within(Block(idx, current), free0)
        invariant HalvesListed(old(order[..]), order[..], idx, current, taken)
        decreases current
      {
        current := current - 1;
        ghost var free1, lists1 := free, order[..];
        SplitOnce(idx, current);
        HalfCover(free0, free1, Block(idx, current));
        assert HalvesListed(old(order[..]), order[..], idx, current, taken) by {
          OneMoreHalf(old(order[..]), lists1, order[..], idx, current, taken);
        }
      }
    }

    ghost method HandOver(b: Block)
      requires Working(b, busy) && Unmarked(b.idx)
      modifies this`busy
      ensures Valid() && b !in old(busy) && busy == old(busy) + {b}
    {
      busy := busy + {b};
      assert free + busy + {} == free + old(busy) + {b};
    }

    /** `__page_alloc_zone`: the first free block of the smallest sufficient
        order, split down to the requested one.  `None` exactly when no
        aligned run of that many free pages exists. */
    method Alloc(want: nat) returns (r: Option<nat>)
      requires Valid() && want <= MAX_ORDER
      modifies this`free, this`busy, order, pages
      ensures Valid()
      ensures r.None? ==> free == old(free) && busy == old(busy)
      ensures r.None? <==> forall b :: Aligned(b) && b.order == want ==> !Within(b, old(free))
      ensures r.Some? ==>
                && var b := Block(r.value, want);
                && Aligned(b) && b !in old(busy) && busy == old(busy) + {b}
                && (forall p: nat :: Covered(p, free) <==> Covered(p, old(free)) && !In(p, b))
                && SmallestHead(b, old(free))
                && exists k: nat :: Served(old(order[..]), order[..], r.value, want, k)
      ensures r.None? ==> order[..] == old(order[..])
    {
      hide HeadersHold, Within, HalvesListed, Served;
      var current := FindOrder(want);
      if current > MAX_ORDER {
        NoRun(free, want);
        return None;
      }
      ghost var lists := order[..];
      var idx := Take(current);
      WithinTaken(old(free), Block(idx, current), want);
      ghost var lists1 := order[..];
      SplitDown(idx, current, want, old(free));
      HandOver(Block(idx, want));
      TakenAndSplit(lists, lists1, order[..], idx, want, current);
      return Some(idx);
    }

    /** `page_is_free(buddy) && page_order(buddy) == order` */
    method TestBuddy(idx: nat, k: nat, bidx: nat, ghost rest: set<Block>) returns (yes: bool)
      requires Working(Block(idx, k), rest) && k < MAX_ORDER
      requires Block(bidx, k) == Buddy(Block(idx, k)) && begin <= bidx < end
      ensures yes <==> Block(bidx, k) in free
    {
      BuddyTest(pages[..], begin, free, rest, Block(idx, k), released);
      yes := pages[bidx - begin].free && pages[bidx - begin].order == k;
    }

    /** Lists and marks a block in hand; `r` are the pages released so far. */
    method Finish(idx: nat, k: nat, tail: bool, ghost r: set<nat>, ghost doubt: set<nat>)
      requires Shape() && ListsHold(order[..], free)
      requires released <= r <= doubt && forall p :: p in r ==> begin <= p < end
      requires Tiled(free, busy, {Block(idx, k)}, r) && HeadersHold(pages[..], begin, free, busy, doubt)
      requires k < MAX_ORDER ==> Buddy(Block(idx, k)) !in free
      modifies this`free, this`released, order, pages
      ensures Sound(doubt) && released == r && free == old(free) + {Block(idx, k)}
      ensures forall p: nat :: Covered(p, free) <==> Covered(p, old(free)) || In(p, Block(idx, k))
      ensures forall p :: begin <= p < begin + pages.Length && p !in r ==> pages[p - begin] == old(pages[p - begin])
      ensures k <= MAX_ORDER
      ensures order[..] == old(order[..])[k := if tail then old(order[k]) + [idx] else [idx] + old(order[k])]
    {
      FinishFree(free, busy, Block(idx, k), r);
      MarkHead(pages[..], begin, free, busy, Block(idx, k), r, doubt);
      Publish(k, idx, tail);
      released := r;
    }

    /** The part of `__page_alloc_zone_setup` that sets up an empty zone.  The
        page headers are what the memory held: nothing is cleared, and the
        zone is good exactly when no header happens to be marked. */
    constructor (zbegin: nat, zend: nat, headers: seq<Page>)
      requires zbegin <= zend && |headers| == zend - zbegin
      ensures begin == zbegin && end == zend && pages[..] == headers
      ensures released == {} && free == {} && busy == {}
      ensures Carved() && Untouched(headers)
      ensures Valid() <==> NoneMarked(headers)
      ensures fresh(order) && fresh(pages)
    {
      begin, end := zbegin, zend;
      order := new seq<nat>[MAX_ORDER + 1](_ => []);
      pages := new Page[zend - zbegin](i requires 0 <= i < |headers| => headers[i]);
      free, busy, released := {}, {}, {};
      new;
      assert pages[..] == headers;
      HeadersAtFirst(headers, begin);
      assert forall p :: begin <= p < begin + |headers| ==> p in Run(begin, end);
    }

    method ReleaseBlock(page: nat, ghost from: nat, stop: nat) returns (next: nat)
      requires Carved() && begin <= from <= page < stop <= end
      requires from - 1 !in released && forall p :: page <= p <= stop ==> p !in released
      requires forall p :: from <= p < page ==> p in released
      requires Greedy(free, from, page, stop)
      modifies this`free, this`released, order, pages
      ensures page < next <= stop && Carved() && released == old(released) + Run(page, next)
      ensures Greedy(free, from, next, stop)
      ensures Untouched(old(pages[..]))
      ensures exists k :: 0 <= k < order.Length && order[..] == old(order[..])[k := old(order[k]) + [page]]
    {
      hide Pow2, Base, Aligned, Tiled, HeadersHold, ListsHold, Greedy, Covered;
      var k := LargestOrder(page, stop);
      next := page + Pow2(k);
      CarveStep(free, busy, Block(page, k), released, from, stop);
      Finish(page, k, true, released + Run(page, next), Run(begin, end));
    }

    /** `__page_alloc_zone_free` on page indices: carves the run [from, stop)
        greedily into the largest aligned blocks.  The run must not touch a
        page released before. */
    method Release(from: nat, stop: nat)
      requires Carved() && begin <= from < stop <= end
      requires forall p :: from - 1 <= p <= stop ==> p !in released
      modifies this`free, this`released, order, pages
      ensures Carved() && released == old(released) + Run(from, stop)
      ensures Untouched(old(pages[..])) && (old(Valid()) ==> Valid())
      ensures AddedBehind(old(order[..]), order[..], from, stop)
    {
      var page: nat := from;
      assert Run(from, page) == {};
      while page != stop
        invariant from <= page <= stop
        invariant Carved() && released == old(released) + Run(from, page)
        invariant Untouched(old(pages[..]))
        invariant Greedy(free, from, page, stop)
        invariant AddedBehind(old(order[..]), order[..], from, page)
        decreases stop - page
      {
        ghost var page0, lists := page, order[..];
        page := ReleaseBlock(page, from, stop);
        OneMoreBehind(old(order[..]), lists, order[..], from, page0, page);
        assert Run(from, page) == Run(from, page0) + Run(page0, page);
      }
      ValidIf();
    }

    /** Takes the buddy off the free list and joins it to the block in hand. */
    method MergeOnce(idx: nat, k: nat, bidx: nat, ghost rest: set<Block>)
      requires Working(Block(idx, k), rest) && k < MAX_ORDER
      requires Block(bidx, k) == Buddy(Block(idx, k)) && Block(bidx, k) in free
      modifies this`free, order
      ensures Working(Block(if bidx < idx then bidx else idx, k + 1), rest)
      ensures free == old(free) - {Block(bidx, k)}
      ensures (if bidx < idx then bidx else idx) == Base(idx, k + 1)
      ensures order[..] == old(order[..])[k := Without(old(order[k]), bidx)]
      ensures forall p: nat :: Covered(p, free) || In(p, Block(if bidx < idx then bidx else idx, k + 1))
                          <==> Covered(p, old(free)) || In(p, Block(idx, k))
    {
      MergeHand(free, rest, Block(idx, k), released);
      ListDel(k, bidx);
    }

    /** `__page_free_zone`: merges upwards while the buddy's header says it is
        free at the same order. */
    method Free(idx0: nat, order0: nat)
      requires Valid() && Block(idx0, order0) in busy
      modifies this`free, this`busy, this`released, order, pages
      ensures Valid() && released == old(released)
      ensures busy == old(busy) - {Block(idx0, order0)}
      ensures forall p: nat :: Covered(p, free) <==> Covered(p, old(free)) || In(p, Block(idx0, order0))
      ensures exists k: nat :: PutBack(old(order[..]), order[..], idx0, order0, k)
    {
      hide BuddiesOff, PutBack, Tiled, HeadersHold, ListsHold, Covered, Pow2;
      var idx: nat, k: nat := idx0, order0;
      NoBuddyOff(order[..], idx0, order0);
      ghost var freed := Block(idx0, order0);
      InHand(pages[..], begin, free, busy, freed, released);
      AndLowMask(idx0, order0);
      assert And(idx0, Pow2(order0) - 1) == 0;
      busy := busy - {freed};
      while k < MAX_ORDER
        invariant k <= MAX_ORDER && busy == old(busy) - {freed} && released == old(released)
        invariant Working(Block(idx, k), busy)
        invariant order0 <= k && idx == Base(idx0, k) && BuddiesOff(old(order[..]), order[..], idx0, order0, k)
        invariant forall p: nat :: Covered(p, free) || In(p, Block(idx, k)) <==> Covered(p, old(free)) || In(p, freed)
        decreases MAX_ORDER - k
      {
        var bidx := Xor(idx, Pow2(k));
        if bidx < begin || bidx >= end { NotHere(pages[..], begin, free, busy, Block(bidx, k), released); break; }
        var mergeable := TestBuddy(idx, k, bidx, busy);
        if !mergeable { break; }
        ghost var lists1 := order[..];
        OnItsList(lists1, free, Block(bidx, k));
        MergeOnce(idx, k, bidx, busy);
        OneMoreOff(old(order[..]), lists1, order[..], idx0, order0, k);
        BaseBase(idx0, k, k + 1);
        if bidx < idx { idx := bidx; }
        k := k + 1;
      }
      ghost var lists2 := order[..];
      Finish(idx, k, false, released, released);
      MergedAndListed(old(order[..]), lists2, order[..], idx0, order0, k);
    }
  }

  /** An outstanding block is taken in hand to be freed. */
  lemma InHand(pages: seq<Page>, begin: nat, free: set<Block>, busy: set<Block>, b: Block, released: set<nat>)
    requires Tiled(free, busy, {}, released) && HeadersHold(pages, begin, free, busy, released) && b in busy
    ensures Tiled(free, busy - {b}, {b}, released) && HeadersHold(pages, begin, free, busy - {b}, released)
    ensures Aligned(b) && b.order <= MAX_ORDER
  {
    assert b in free + busy + {};
    assert free + (busy - {b}) + {b} == free + busy + {};
  }

  /** A block outside the zone is not free in it. */
  lemma NotHere(pages: seq<Page>, begin: nat, free: set<Block>, busy: set<Block>, b: Block, released: set<nat>)
    requires HeadersHold(pages, begin, free, busy, released) && !(begin <= b.idx < begin + |pages|)
    ensures b !in free
  {
  }

  lemma OnItsList(lists: seq<seq<nat>>, free: set<Block>, b: Block)
    requires ListsHold(lists, free) && b in free
    ensures b.order < |lists| && b.idx in lists[b.order]
  {
  }

  /** The largest legal order at which `page` is aligned and whose block ends
      by `to`. */
  method LargestOrder(page: nat, stop: nat) returns (k: nat)
    requires page < stop
    ensures k <= MAX_ORDER && Aligned(Block(page, k)) && page + Pow2(k) <= stop
    ensures Largest(Block(page, k), stop)
  {
    k := 0;
    while k < MAX_ORDER
      invariant k <= MAX_ORDER && Base(page, k) == page && page + Pow2(k) <= stop
    {
      AndPow2(page, k);
      if And(page, Pow2(k)) != 0 || page + Pow2(k + 1) > stop { break; }
      k := k + 1;
    }
  }

  /** The upper halves left over when the block at `idx` was split from order
      `taken` down to order `want`: each at the head of the list of its order. */
  ghost predicate HalvesListed(lists: seq<seq<nat>>, lists': seq<seq<nat>>, idx: nat, want: nat, taken: nat)
  {
    && |lists'| == |lists|
    && forall j :: 0 <= j < |lists| ==> lists'[j] == if want <= j < taken then [idx + Pow2(j)] + lists[j] else lists[j]
  }

  lemma NoHalves(lists: seq<seq<nat>>, idx: nat, taken: nat)
    ensures HalvesListed(lists, lists, idx, taken, taken)
  {
    hide Pow2;
  }

  lemma OneMoreHalf(lists: seq<seq<nat>>, lists1: seq<seq<nat>>, lists2: seq<seq<nat>>, idx: nat, k: nat, taken: nat)
    requires HalvesListed(lists, lists1, idx, k + 1, taken) && k < taken && k < |lists|
    requires lists2 == lists1[k := [idx + Pow2(k)] + lists1[k]]
    ensures HalvesListed(lists, lists2, idx, k, taken)
  {
    hide Pow2;
    var x := [idx + Pow2(k)] + lists[k];
    assert lists2 == lists1[k := x];
  }

  /** A request for order `want` served from the lists: the block at the head of
      the first list that is not empty, from `want` up, is taken; of the lists
      between, which were empty, each holds one half now; the others are as before. */
  ghost predicate Served(lists: seq<seq<nat>>, lists': seq<seq<nat>>, idx: nat, want: nat, k: nat)
  {
    && |lists'| == |lists| && want <= k < |lists|
    && (forall j :: want <= j < k ==> lists[j] == [] && lists'[j] == [idx + Pow2(j)])
    && lists[k] != [] && idx == lists[k][0] && lists'[k] == lists[k][1..]
    && (forall j :: 0 <= j < |lists| && (j < want || j > k) ==> lists'[j] == lists[j])
  }

  lemma TakenAndSplit(lists: seq<seq<nat>>, lists1: seq<seq<nat>>, lists2: seq<seq<nat>>, idx: nat, want: nat, k: nat)
    requires want <= k < |lists| && lists[k] != [] && idx == lists[k][0] && lists1 == lists[k := lists[k][1..]]
    requires forall j :: want <= j < k ==> lists[j] == []
    requires HalvesListed(lists1, lists2, idx, want, k)
    ensures Served(lists, lists2, idx, want, k)
  {
    hide Pow2;
  }

  /** The page tested at order `j` while the block with page `idx` is merged upwards. */
  function Sibling(idx: nat, j: nat): nat { Buddy(Block(Base(idx, j), j)).idx }

  ghost predicate BuddiesOff(lists: seq<seq<nat>>, lists': seq<seq<nat>>, idx: nat, order: nat, k: nat)
  {
    && |lists'| == |lists|
    && forall j :: 0 <= j < |lists| ==>
         if order <= j < k then Sibling(idx, j) in lists[j] && lists'[j] == Without(lists[j], Sibling(idx, j))
         else lists'[j] == lists[j]
  }

  lemma NoBuddyOff(lists: seq<seq<nat>>, idx: nat, order: nat)
    ensures BuddiesOff(lists, lists, idx, order, order)
  {
    hide Sibling, Without;
  }

  lemma OneMoreOff(lists: seq<seq<nat>>, lists1: seq<seq<nat>>, lists2: seq<seq<nat>>, idx: nat, order: nat, k: nat)
    requires BuddiesOff(lists, lists1, idx, order, k) && order <= k < |lists| && Sibling(idx, k) in lists1[k]
    requires lists2 == lists1[k := Without(lists1[k], Sibling(idx, k))]
    ensures BuddiesOff(lists, lists2, idx, order, k + 1)
  {
    hide Sibling, Without;
  }

  /** A freed block on the lists: merged up to order `k`, at the head of that
      list, the buddies that it was merged with off theirs, the order of all
      others unchanged. */
  ghost predicate PutBack(lists: seq<seq<nat>>, lists': seq<seq<nat>>, idx: nat, order: nat, k: nat)
  {
    && |lists'| == |lists| && order <= k < |lists| && lists'[k] == [Base(idx, k)] + lists[k]
    && (forall j :: order <= j < k ==> Sibling(idx, j) in lists[j] && lists'[j] == Without(lists[j], Sibling(idx, j)))
    && (forall j :: 0 <= j < |lists| && (j < order || j > k) ==> lists'[j] == lists[j])
  }

  lemma MergedAndListed(lists: seq<seq<nat>>, lists1: seq<seq<nat>>, lists2: seq<seq<nat>>, idx: nat, order: nat,
      k: nat)
    requires BuddiesOff(lists, lists1, idx, order, k) && order <= k < |lists|
    requires lists2 == lists1[k := [Base(idx, k)] + lists1[k]]
    ensures PutBack(lists, lists2, idx, order, k)
  {
    hide Sibling, Without, Base;
  }

  /** Every list goes on with blocks from [from, stop), in ascending order. */
  ghost predicate AddedBehind(lists: seq<seq<nat>>, lists': seq<seq<nat>>, from: nat, stop: nat)
  {
    |lists'| == |lists| && forall j :: 0 <= j < |lists| ==> LongerBy(lists[j], lists'[j], from, stop)
  }

  ghost predicate LongerBy(q: seq<nat>, q': seq<nat>, from: nat, stop: nat)
  {
    && q <= q'
    && (forall i :: |q| <= i < |q'| ==> from <= q'[i] < stop)
    && (forall i, j :: |q| <= i < j < |q'| ==> q'[i] < q'[j])
  }

  lemma OneMoreBehind(lists: seq<seq<nat>>, lists1: seq<seq<nat>>, lists2: seq<seq<nat>>, from: nat, page: nat,
      next: nat)
    requires AddedBehind(lists, lists1, from, page) && from <= page < next
    requires exists k :: 0 <= k < |lists1| && lists2 == lists1[k := lists1[k] + [page]]
    ensures AddedBehind(lists, lists2, from, next)
  {
    forall j | 0 <= j < |lists| ensures LongerBy(lists[j], lists2[j], from, next)
    {
      assert LongerBy(lists[j], lists1[j], from, page);
    }
  }

  predicate InRun(p: nat, from: nat, stop: nat) { from <= p < stop }

  function Run(from: nat, stop: nat): set<nat> { set p: nat | p < stop && InRun(p, from, stop) }

  /** A larger block could not have been carved at the head of `b`. */
  ghost predicate Largest(b: Block, stop: nat)
  {
    b.order == MAX_ORDER || Base(b.idx, b.order + 1) != b.idx || b.idx + Pow2(b.order + 1) > stop
  }

  ghost predicate Greedy(free: set<Block>, from: nat, page: nat, stop: nat)
  {
    forall b {:trigger Largest(b, stop)} :: b in free && from <= b.idx < page ==> Largest(b, stop)
  }

  /** A freshly carved block extends the tiling, cannot be merged, and leaves
      the carving greedy. */
  lemma CarveStep(free: set<Block>, busy: set<Block>, b: Block, released: set<nat>, from: nat, stop: nat)
    requires Tiled(free, busy, {}, released)
    requires Aligned(b) && b.order <= MAX_ORDER && from <= b.idx && b.idx + Pow2(b.order) <= stop
    requires forall p :: from <= p < b.idx ==> p in released
    requires from - 1 !in released && forall p :: b.idx <= p <= stop ==> p !in released
    requires Greedy(free, from, b.idx, stop) && Largest(b, stop)
    ensures Tiled(free, busy, {b}, released + Run(b.idx, b.idx + Pow2(b.order)))
    ensures b.order < MAX_ORDER ==> Buddy(b) !in free
    ensures Greedy(free + {b}, from, b.idx + Pow2(b.order), stop)
  {
    AddBlock(free, busy, b, released, released + Run(b.idx, b.idx + Pow2(b.order)));
    NoBuddyYet(free, busy, b, released, from, stop);
    StillGreedy(free, busy, b, released, from, stop);
  }

  lemma StillGreedy(free: set<Block>, busy: set<Block>, b: Block, released: set<nat>, from: nat, stop: nat)
    requires Covers(free + busy + {}, released) && Greedy(free, from, b.idx, stop)
    requires b.idx + Pow2(b.order) <= stop && forall p :: b.idx <= p <= stop ==> p !in released
    requires Largest(b, stop)
    ensures Greedy(free + {b}, from, b.idx + Pow2(b.order), stop)
  {
    forall c | c in free ensures c.idx < b.idx || c.idx >= b.idx + Pow2(b.order) {
      assert In(c.idx, c);
      assert Covered(c.idx, free + busy + {});
    }
  }

  lemma AddBlock(free: set<Block>, busy: set<Block>, b: Block, released: set<nat>, r: set<nat>)
    requires Tiled(free, busy, {}, released)
    requires Aligned(b) && b.order <= MAX_ORDER
    requires forall p: nat | In(p, b) :: p !in released
    requires r == released + Run(b.idx, b.idx + Pow2(b.order))
    ensures Tiled(free, busy, {b}, r)
  {
    assert In(b.idx, b);
    forall p: nat | In(p, b) ensures !Covered(p, free + busy + {}) { assert p !in released; }
    assert b !in free + busy + {};
    var all, all' := free + busy + {}, free + busy + {b};
    assert forall x :: x in all' <==> x in all || x == b;
    forall x, y, p | x in all' && y in all' && In(p, x) && In(p, y) ensures x == y {
      if x == b { assert y in all ==> Covered(p, all); }
      if y == b { assert x in all ==> Covered(p, all); }
    }
    forall p: nat ensures p in r <==> Covered(p, all') {
      if Covered(p, all) { var x :| x in all && In(p, x); assert x in all'; }
      if In(p, b) { assert b in all'; }
      if Covered(p, all') { var x :| x in all' && In(p, x); assert x == b || x in all; }
    }
  }

  /** The buddy of a freshly carved block is not free: above it nothing is
      released, and a lower buddy would have been carved one order larger. */
  lemma NoBuddyYet(free: set<Block>, busy: set<Block>, b: Block, released: set<nat>, from: nat, stop: nat)
    requires Tiled(free, busy, {}, released)
    requires Aligned(b) && from <= b.idx && b.idx + Pow2(b.order) <= stop
    requires forall p :: from <= p < b.idx ==> p in released
    requires from - 1 !in released && forall p :: b.idx <= p <= stop ==> p !in released
    requires Greedy(free, from, b.idx, stop)
    ensures b.order < MAX_ORDER ==> Buddy(b) !in free
  {
    assert Largest(Buddy(b), stop) || Buddy(b) !in free || Buddy(b).idx < from || Buddy(b).idx >= b.idx;
    if b.order < MAX_ORDER && Buddy(b) in free {
      var c := Buddy(b);
      BuddyIndex(b);
      assert In(c.idx, c);
      assert c in free + busy + {};
      assert Covered(c.idx, free + busy + {});
    }
  }

  /** `b` starts at the head of a free block of the smallest sufficient order. */
  ghost predicate SmallestHead(b: Block, free: set<Block>)
  {
    exists c :: c in free && c.idx == b.idx && b.order <= c.order
            && forall d :: d in free && b.order <= d.order ==> c.order <= d.order
  }

  /** The free pages are the released pages no outstanding block holds. */
  lemma FreePages(free: set<Block>, busy: set<Block>, released: set<nat>, p: nat)
    requires Tiled(free, busy, {}, released)
    ensures Covered(p, free) <==> p in released && !Covered(p, busy)
  {
    var all := free + busy + {};
    if p in released {
      var b :| b in all && In(p, b);
      assert b in free || b in busy;
    } else {
      assert !Covered(p, all);
      assert forall b :: b in free || b in busy ==> b in all;
    }
  }

  /** Whatever the order of past allocations and frees, the free blocks are
      determined by the released pages and the outstanding blocks.  With
      nothing outstanding this is the set built at setup. */
  lemma FreeBlocksDetermined(free: set<Block>, free': set<Block>, busy: set<Block>, released: set<nat>)
    requires Tiled(free, busy, {}, released) && Tiled(free', busy, {}, released)
    ensures free == free'
  {
    var pages := set p | p in released && !Covered(p, busy);
    forall p: nat ensures p in pages <==> Covered(p, free) { FreePages(free, busy, released, p); }
    forall p: nat ensures p in pages <==> Covered(p, free') { FreePages(free', busy, released, p); }
    forall b | b in free || b in free' ensures Aligned(b) && b.order <= MAX_ORDER {
      assert b in free + busy + {} || b in free' + busy + {};
    }
    CanonicalForm(free, free', pages);
  }

  lemma NoRun(free: set<Block>, want: nat)
    requires Disjoint(free) && Coalesced(free) && want <= MAX_ORDER
    requires forall b :: b in free ==> b.order < want
    ensures forall b :: Aligned(b) && b.order == want ==> !Within(b, free)
  {
    forall b | Aligned(b) && b.order == want ensures !Within(b, free) {
      if Within(b, free) { var c := RunInOneBlock(b, free); }
    }
  }

  lemma WithinTaken(free: set<Block>, taken: Block, want: nat)
    requires Disjoint(free) && taken in free && want <= taken.order
    ensures Within(taken, free)
    ensures Aligned(Block(taken.idx, want)) && Within(Block(taken.idx, want), free)
  {
    BaseUnchanged(taken.idx, want, taken.order);
    Pow2Monotone(want, taken.order);
    forall p | In(p, Block(taken.idx, want)) ensures Covered(p, free) { assert In(p, taken); }
  }

  lemma HandOut(free: set<Block>, busy: set<Block>, taken: Block, released: set<nat>)
    requires Tiled(free, busy, {}, released) && taken in free
    ensures Tiled(free - {taken}, busy, {taken}, released)
    ensures forall p: nat :: Covered(p, free - {taken}) <==> Covered(p, free) && !In(p, taken)
  {
    assert free - {taken} + busy + {taken} == free + busy + {};
  }

  lemma SplitHand(free: set<Block>, busy: set<Block>, hand: Block, released: set<nat>)
    requires Tiled(free, busy, {hand}, released) && hand.order > 0
    ensures var half := Block(hand.idx, hand.order - 1);
            && Aligned(half) && Parent(half) == hand && Buddy(half).idx == hand.idx + Pow2(half.order)
            && Tiled(free + {Buddy(half)}, busy, {half}, released)
            && In(Buddy(half).idx, hand) && Buddy(half) !in free
  {
    var half := Block(hand.idx, hand.order - 1);
    BaseUpperHalf(hand.idx, half.order);
    BuddyFacts(half);
    BuddyIndex(half);
    var all := free + busy + {hand};
    assert Aligned(hand);
    Split(all, half, released);
    assert In(half.idx, hand) && In(half.idx, half) && In(Buddy(half).idx, Buddy(half));
    assert In(Buddy(half).idx, hand);
    assert half !in all && Buddy(half) !in all;
    assert all - {hand} + {half, Buddy(half)} == free + {Buddy(half)} + busy + {half};
    forall b | b in free + {Buddy(half)} && b.order < MAX_ORDER
      ensures Buddy(b) !in free + {Buddy(half)}
    {
      BuddyFacts(b);
    }
  }

  lemma MergeHand(free: set<Block>, busy: set<Block>, hand: Block, released: set<nat>)
    requires Tiled(free, busy, {hand}, released) && hand.order < MAX_ORDER && Buddy(hand) in free
    ensures Parent(hand).idx == if Buddy(hand).idx < hand.idx then Buddy(hand).idx else hand.idx
    ensures Tiled(free - {Buddy(hand)}, busy, {Parent(hand)}, released)
    ensures forall p: nat ::
              Covered(p, free - {Buddy(hand)}) || In(p, Parent(hand)) <==> Covered(p, free) || In(p, hand)
  {
    var all := free + busy + {hand};
    BuddyFacts(hand);
    BuddyIndex(hand);
    Merge(all, hand, released);
    assert In(hand.idx, hand) && In(hand.idx, Parent(hand));
    assert Parent(hand) !in all;
    assert all - {hand, Buddy(hand)} + {Parent(hand)} == free - {Buddy(hand)} + busy + {Parent(hand)};
    forall p: nat | Covered(p, free) && !In(p, Buddy(hand)) ensures Covered(p, free - {Buddy(hand)}) {
      var b :| b in free && In(p, b);
      assert b in free - {Buddy(hand)};
    }
  }

  lemma FinishFree(free: set<Block>, busy: set<Block>, hand: Block, released: set<nat>)
    requires Tiled(free, busy, {hand}, released)
    requires hand.order < MAX_ORDER ==> Buddy(hand) !in free
    ensures Tiled(free + {hand}, busy, {}, released)
    ensures forall p: nat :: Covered(p, free + {hand}) <==> Covered(p, free) || In(p, hand)
  {
    assert free + {hand} + busy + {} == free + busy + {hand};
    assert Aligned(hand);
    BuddyFacts(hand);
    forall b | b in free + {hand} && b.order < MAX_ORDER ensures Buddy(b) !in free + {hand} {
      BuddyFacts(b);
    }
    forall p: nat ensures Covered(p, free + {hand}) <==> Covered(p, free) || In(p, hand) {
      if Covered(p, free) { var b :| b in free && In(p, b); assert b in free + {hand}; }
      if In(p, hand) { assert hand in free + {hand}; }
    }
  }

  /** Marking the head of `b` keeps every other header, since no other block
      starts at the same page. */
  lemma MarkHead(pages: seq<Page>, begin: nat, free: set<Block>, busy: set<Block>, b: Block, released: set<nat>,
      doubt: set<nat>)
    requires Disjoint(free + busy + {b}) && b !in free + busy
    requires Covers(free + busy + {b}, released) && forall p :: p in released ==> begin <= p < begin + |pages|
    requires HeadersHold(pages, begin, free, busy, doubt) && released <= doubt
    ensures begin <= b.idx < begin + |pages| && b.idx in released
    ensures HeadersHold(pages[b.idx - begin := Page(true, b.order)], begin, free + {b}, busy, doubt)
  {
    var all := free + busy + {b};
    assert In(b.idx, b);
    assert Covered(b.idx, all);
    forall c | c in free + busy ensures c.idx != b.idx { assert In(c.idx, c); }
  }

  lemma SplitStep(pages: seq<Page>, begin: nat, free: set<Block>, busy: set<Block>, hand: Block, released: set<nat>)
    requires Tiled(free, busy, {hand}, released) && hand.order > 0
    requires forall p :: p in released ==> begin <= p < begin + |pages|
    requires HeadersHold(pages, begin, free, busy, released)
    requires begin <= hand.idx < begin + |pages| && !pages[hand.idx - begin].free
    ensures var half := Block(hand.idx, hand.order - 1);
            && Aligned(half) && Parent(half) == hand && Buddy(half) !in free
            && Tiled(free + {Buddy(half)}, busy, {half}, released)
            && begin <= Buddy(half).idx < begin + |pages| && Buddy(half).idx == hand.idx + Pow2(half.order)
            && HeadersHold(pages[Buddy(half).idx - begin := Page(true, half.order)], begin,
                 free + {Buddy(half)}, busy, released)
  {
    var half := Block(hand.idx, hand.order - 1);
    SplitHand(free, busy, hand, released);
    assert free + {Buddy(half)} + busy + {half} == free + (busy + {half}) + {Buddy(half)};
    MarkHead(pages, begin, free, busy + {half}, Buddy(half), released, released);
  }

  lemma HalfCover(free0: set<Block>, free: set<Block>, half: Block)
    requires Aligned(half)
    requires forall p: nat :: Covered(p, free) <==> Covered(p, free0) && !In(p, Parent(half))
    requires Within(Parent(half), free0)
    ensures Within(half, free0)
    ensures forall p: nat :: Covered(p, free + {Buddy(half)}) <==> Covered(p, free0) && !In(p, half)
  {
    BuddyFacts(half);
    forall p: nat ensures Covered(p, free + {Buddy(half)}) <==> Covered(p, free) || In(p, Buddy(half)) {
      if Covered(p, free) { var b :| b in free && In(p, b); assert b in free + {Buddy(half)}; }
      if In(p, Buddy(half)) { assert Buddy(half) in free + {Buddy(half)}; }
    }
  }
}
