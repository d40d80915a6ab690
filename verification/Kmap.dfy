/** The kmap area: virtual ranges handed out by boundary tags and size lists. */
module Kmap {
  import opened Bits
  import opened Lists
  import opened Options
  import opened Spans

  /** `kmap_order`: the least `order` with 2^order >= pages, at most KMAP_ORDERS. */
  method KmapOrder(pages: nat) returns (order: nat)
    ensures order <= ORDERS && (order < ORDERS ==> pages <= Pow2(order))
    ensures order > 0 ==> Pow2(order - 1) < pages
  {
    order := 0;
    while Pow2(order) < pages && order != ORDERS
      invariant order <= ORDERS && (order > 0 ==> Pow2(order - 1) < pages)
    {
      order := order + 1;
    }
  }

  /** `kmap_order(pages + 1) - 1` is the list of a span of that size. */
  lemma ListOfSize(pages: nat, order: nat)
    requires pages > 0 && 0 < order <= ORDERS
    requires order < ORDERS ==> pages + 1 <= Pow2(order)
    requires Pow2(order - 1) < pages + 1
    ensures order - 1 == Class(pages)
  {
    ClassBounds(pages);
    var c := Class(pages);
    if c < order - 1 {
      Pow2Monotone(c + 1, order - 1);
    } else if order - 1 < c {
      Pow2Monotone(order, c);
    }
  }

  /** A span that is large enough lies on a list the search looks at: one from
      `start` upwards or, when 2^start exceeds the request, the one below. */
  lemma SearchedList(s: Span, pages: nat, start: nat)
    requires 0 < pages <= s.pages && start <= ORDERS
    requires start > 0 ==> Pow2(start - 1) < pages
    requires start < ORDERS ==> pages <= Pow2(start)
    requires pages < Pow2(ORDERS)
    ensures start <= Class(s.pages) || (Pow2(start) > pages && start > 0 && Class(s.pages) == start - 1)
  {
    hide Pow2, Class;
    ClassBounds(s.pages);
    var c := Class(s.pages);
    if c + 1 < start {
      Pow2Monotone(c + 1, start - 1);
    } else if c + 1 == start && c < ORDERS - 1 {
      assert s.pages < Pow2(start);
    }
  }

  /** The requests the search cannot meet whatever is free. */
  lemma Refused(pages: nat, start: nat)
    requires pages > 0 && start <= ORDERS
    requires start > 0 ==> Pow2(start - 1) < pages
    requires start < ORDERS ==> pages <= Pow2(start)
    ensures pages >= Pow2(ORDERS) <==> start == ORDERS && Pow2(start) <= pages
    ensures Pow2(start) > pages ==> 0 < start
  {
    if start < ORDERS {
      Pow2Monotone(start + 1, ORDERS);
    }
  }

  lemma OneInHand(ranges: seq<KmapRange>, lists: seq<seq<nat>>)
    requires |ranges| > 0 && |lists| == ORDERS && forall k :: 0 <= k < ORDERS ==> lists[k] == []
    ensures Holds(ranges, lists, {}, {}, {Span(0, |ranges|)})
  {
    forall p | 0 <= p < |ranges| ensures InSome(p, {} + {} + {Span(0, |ranges|)})
    {
      assert Inside(p, Span(0, |ranges|));
    }
  }

  // ---- what becomes of the lists ----

  /** The lists without the span, if it has any slots. */
  function Off(lists: seq<seq<nat>>, s: Span): seq<seq<nat>>
    requires |lists| == ORDERS
  {
    if s.pages == 0 then lists else Unlinked(lists, s)
  }

  /** The slots [range, range + pages) became part of the free span `g`, which is
      at the front of its list; what else it is made of, before and behind, is
      off its lists; the order of all others is as before. */
  ghost predicate ListedAs(lists: seq<seq<nat>>, lists': seq<seq<nat>>, range: nat, pages: nat, g: Span)
  {
    && |lists| == ORDERS && g.start <= range && range + pages <= g.start + g.pages
    && lists' == Linked(Off(Off(lists, Span(g.start, range - g.start)),
         Span(range + pages, g.start + g.pages - range - pages)), g)
  }

  /** What is left of the span at `p` when its front was taken: nothing, or a
      free span listed in its turn. */
  ghost predicate RestListed(lists: seq<seq<nat>>, lists': seq<seq<nat>>, free': set<Span>, s: Span, pages: nat)
  {
    && |lists| == ORDERS && pages <= s.pages
    && (s.pages == pages ==> lists' == Unlinked(lists, s))
    && (s.pages > pages ==>
         exists g :: g in free' && ListedAs(Unlinked(lists, s), lists', s.start + pages, s.pages - pages, g))
  }

  // ---- which span serves a request ----

  /** `p` heads the first span of the list with at least `pages` slots. */
  ghost predicate FirstEnough(ranges: seq<KmapRange>, list: seq<nat>, pages: nat, p: nat)
  {
    exists i :: 0 <= i < |list| && FirstEnoughAt(ranges, list, pages, p, i)
  }

  ghost predicate FirstEnoughAt(ranges: seq<KmapRange>, list: seq<nat>, pages: nat, p: nat, i: nat)
    requires i < |list|
  {
    && list[i] == p && p < |ranges| && ranges[p].pages >= pages
    && forall j :: 0 <= j < i ==> list[j] < |ranges| && ranges[list[j]].pages < pages
  }

  /** Every span of list `k` is large enough. */
  predicate AllEnough(k: nat, pages: nat) { Pow2(k) >= pages }

  /** The lowest list all of whose spans are large enough serves, with its first
      span; only when these lists are empty the list below does, with the first
      span that is large enough. */
  ghost predicate Chosen(ranges: seq<KmapRange>, lists: seq<seq<nat>>, free: set<Span>, pages: nat, p: nat)
  {
    p < |ranges| && |lists| == ORDERS &&
    var k := Class(ranges[p].pages);
    && FirstEnough(ranges, lists[k], pages, p)
    && (AllEnough(k, pages) ==>
         lists[k][0] == p && forall t :: t in free && AllEnough(Class(t.pages), pages) ==> k <= Class(t.pages))
    && (!AllEnough(k, pages) ==> forall t :: t in free ==> !AllEnough(Class(t.pages), pages))
  }

  lemma OrderAllEnough(pages: nat, start: nat, k: nat)
    requires pages > 0 && start <= ORDERS && k < ORDERS && (start > 0 ==> Pow2(start - 1) < pages)
    requires start < ORDERS ==> pages <= Pow2(start)
    ensures AllEnough(k, pages) <==> start <= k
  {
    if start <= k { Pow2Monotone(start, k); } else { Pow2Monotone(k, start - 1); }
  }

  /** The span found on list `k` is the one the search is for. */
  lemma FoundChosen(ranges: seq<KmapRange>, lists: seq<seq<nat>>, free: set<Span>, busy: set<Span>, pages: nat,
      start: nat, k: nat, p: nat)
    requires Holds(ranges, lists, free, busy, {}) && pages > 0 && k < ORDERS && FirstEnough(ranges, lists[k], pages, p)
    requires start <= ORDERS && (start > 0 ==> Pow2(start - 1) < pages) && (start < ORDERS ==> pages <= Pow2(start))
    requires start <= k ==> forall t :: t in free && start <= Class(t.pages) < k ==> t.pages < pages
    requires k < start ==> forall t :: t in free && start <= Class(t.pages) ==> t.pages < pages
    ensures Chosen(ranges, lists, free, pages, p)
  {
    hide Tile, Separate, Pow2, Class;
    var i :| 0 <= i < |lists[k]| && FirstEnoughAt(ranges, lists[k], pages, p, i);
    assert p in lists[k];
    var s :| s in free && s.start == p && Class(s.pages) == k;
    assert Tagged(ranges, s, false);
    OrderAllEnough(pages, start, k);
    forall t | t in free && AllEnough(Class(t.pages), pages) ensures t.pages >= pages && start <= Class(t.pages)
    {
      assert Tagged(ranges, t, false);
      ClassBounds(t.pages);
      OrderAllEnough(pages, start, Class(t.pages));
    }
    assert start <= k ==> i == 0 by {
      if i > 0 { assert lists[k][0] in lists[k]; }
    }
  }

  class KmapArea {
    const ranges: array<KmapRange>
    const lists: array<seq<nat>>
    ghost var free: set<Span>
    ghost var busy: set<Span>

    /** The area holds together while `hand` is neither free nor allocated. */
    ghost predicate ValidBut(hand: set<Span>)
      reads this, ranges, lists
    {
      ranges.Length > 0 && Holds(ranges[..], lists[..], free, busy, hand)
    }

    ghost predicate Valid()
      reads this, ranges, lists
    {
      ValidBut({})
    }

    /** The part of `kmap_setup` that makes all of the array, whose contents are
        arbitrary, one free range. */
    constructor (ranges: array<KmapRange>)
      requires ranges.Length > 0
      modifies ranges
      ensures this.ranges == ranges && fresh(lists) && Valid()
      ensures free == {Span(0, ranges.Length)} && busy == {}
    {
      this.ranges := ranges;
      this.lists := new seq<nat>[ORDERS](_ => []);
      this.free, this.busy := {}, {};
      new;
      OneInHand(ranges[..], lists[..]);
      FreeRange(0, ranges.Length);
      assert free + busy + {} == free;
      AllFree(free, ranges.Length);
    }

    /** `list_del(&range->ll)` of a free span's first slot `p`. */
    method ListDel(p: nat)
      requires lists.Length == ORDERS && p < ranges.Length
      modifies lists
      ensures lists[..] == Unlinked(old(lists[..]), Span(p, ranges[p].pages))
    {
      var k := Class(ranges[p].pages);
      lists[k] := Without(lists[k], p);
    }

    /** First part of `kmap_free_range`: joins a free span before the range. */
    method JoinBefore(range: nat, pages: nat) returns (range': nat, pages': nat)
      requires ValidBut({Span(range, pages)})
      modifies lists, this`free
      ensures ValidBut({Span(range', pages')}) && NoneEndsAt(free, range')
      ensures range' <= range && range' + pages' == range + pages
      ensures |old(lists[..])| == ORDERS && lists[..] == Off(old(lists[..]), Span(range', range - range'))
      ensures SamePages(free, Span(range', pages'), old(free), Span(range, pages))
    {
      hide Tile, Separate;
      range', pages' := range, pages;
      ghost var h := Span(range, pages);
      assert h in free + busy + {h};
      if range > 0 {
        Before(ranges[..], lists[..], free, busy, h);
        var prev := range - ranges[range - 1].pages;
        if !ranges[prev].empty {
          ghost var s := Span(prev, ranges[prev].pages);
          MergedBefore(ranges[..], lists[..], free, busy, h, s);
          ListDel(prev);
          free := free - {s};
          pages' := pages + ranges[prev].pages;
          range' := prev;
        } else {
          NothingBefore(free, busy, h, Span(prev, ranges[prev].pages), ranges.Length);
        }
      }
    }

    /** Second part: joins a free span after it. */
    method JoinAfter(range: nat, pages: nat) returns (pages': nat)
      requires ValidBut({Span(range, pages)}) && NoneEndsAt(free, range)
      modifies lists, this`free
      ensures ValidBut({Span(range, pages')}) && NoneEndsAt(free, range) && NoneStartsAt(free, range + pages')
      ensures pages <= pages'
      ensures |old(lists[..])| == ORDERS && lists[..] == Off(old(lists[..]), Span(range + pages, pages' - pages))
      ensures SamePages(free, Span(range, pages'), old(free), Span(range, pages))
    {
      pages' := pages;
      ghost var h := Span(range, pages);
      assert h in free + busy + {h};
      if range + pages < ranges.Length {
        After(ranges[..], lists[..], free, busy, h);
        var next := range + pages;
        if !ranges[next].empty {
          ghost var s := Span(next, ranges[next].pages);
          MergedAfter(ranges[..], lists[..], free, busy, h, s);
          ListDel(next);
          free := free - {s};
          pages' := pages + ranges[next].pages;
        } else {
          NothingAfter(free, busy, h, Span(next, ranges[next].pages), ranges.Length);
        }
      }
    }

    /** Last part: both tags and the list of that size. */
    method Publish(range: nat, pages: nat)
      requires ValidBut({Span(range, pages)}) && NoneEndsAt(free, range) && NoneStartsAt(free, range + pages)
      modifies ranges, lists, this`free
      ensures Valid() && free == old(free) + {Span(range, pages)}
      ensures |old(lists[..])| == ORDERS && lists[..] == Linked(old(lists[..]), Span(range, pages))
    {
      ghost var h := Span(range, pages);
      assert h in free + busy + {h};
      Published(ranges[..], lists[..], free, busy, h);
      var order := KmapOrder(pages + 1);
      ListOfSize(pages, order);
      SetTags(range, pages, false);
      lists[order - 1] := [range] + lists[order - 1];
      free := free + {h};
    }

    /** Writes the size into both ends and sets the list node of the first slot. */
    method SetTags(range: nat, pages: nat, empty: bool)
      requires pages > 0 && range + pages <= ranges.Length
      modifies ranges
      ensures ranges[..] == Marked(old(ranges[..]), Span(range, pages), empty)
    {
      var last := range + pages - 1;
      ranges[last] := KmapRange(ranges[last].empty, pages);
      ranges[range] := KmapRange(empty, pages);
    }

    /** `kmap_free_range` */
    method FreeRange(range: nat, pages: nat)
      requires ValidBut({Span(range, pages)})
      modifies ranges, lists, this`free
      ensures Valid()
      ensures forall p: nat :: InSome(p, free) <==> InSome(p, old(free)) || Inside(p, Span(range, pages))
      ensures exists g :: g in free && ListedAs(old(lists[..]), lists[..], range, pages, g)
    {
      hide Off, Linked, Tile, Separate;
      var begin, count := JoinBefore(range, pages);
      count := JoinAfter(begin, count);
      ghost var joined := free;
      Publish(begin, count);
      assert ListedAs(old(lists[..]), lists[..], range, pages, Span(begin, count));
      forall p: nat
        ensures InSome(p, free) <==> InSome(p, old(free)) || Inside(p, Span(range, pages))
      {
        Gained(joined, Span(begin, count), p);
      }
    }

    /** Slot `p` heads a free span of at least `pages` slots. */
    ghost predicate Enough(p: nat, pages: nat)
      reads this, ranges
    {
      p < ranges.Length && Span(p, ranges[p].pages) in free && pages <= ranges[p].pages
    }

    /** `kmap_find_free`: the first span of the list that is large enough. */
    method FindFree(order: nat, pages: nat) returns (r: Option<nat>)
      requires Valid() && order < ORDERS
      ensures r.Some? ==> Enough(r.value, pages)
      ensures |lists[..]| == ORDERS && (r.Some? ==> FirstEnough(ranges[..], lists[..][order], pages, r.value))
      ensures r.None? ==> forall s :: s in free && Class(s.pages) == order ==> s.pages < pages
    {
      var i := 0;
      while i < |lists[order]|
        invariant i <= |lists[order]|
        invariant forall j :: 0 <= j < i ==> lists[order][j] < ranges.Length && ranges[lists[order][j]].pages < pages
        invariant forall s, j :: s in free && 0 <= j < i && lists[order][j] == s.start ==> s.pages < pages
      {
        var p := lists[order][i];
        assert p in lists[order] && lists[order] == lists[..][order];
        ghost var s :| s in free && s.start == p && Class(s.pages) == order;
        assert Tagged(ranges[..], s, false);
        if ranges[p].pages >= pages {
          assert FirstEnoughAt(ranges[..], lists[..][order], pages, p, i);
          return Some(p);
        }
        forall t | t in free && t.start == p ensures t.pages < pages { assert Tagged(ranges[..], t, false); }
        i := i + 1;
      }
      assert lists[order] == lists[..][order];
      return None;
    }

    /** The searches of `kmap_alloc_range`: the lists whose spans are all large
        enough, then the one below them. */
    method Search(pages: nat) returns (r: Option<nat>)
      requires Valid() && pages > 0
      ensures r.Some? ==> Enough(r.value, pages)
      ensures r.None? <==> pages >= Pow2(ORDERS) || forall s :: s in free ==> s.pages < pages
      ensures r.Some? ==> Chosen(ranges[..], lists[..], free, pages, r.value)
    {
      hide Chosen, FirstEnough, Tile, Separate, Tagged, Listed, Class;
      var start := KmapOrder(pages);
      Refused(pages, start);
      r := None;
      var order := start;
      while order != ORDERS
        invariant start <= order <= ORDERS && r == None
        invariant forall s :: s in free && start <= Class(s.pages) < order ==> s.pages < pages
      {
        r := FindFree(order, pages);
        if r.Some? {
          FoundChosen(ranges[..], lists[..], free, busy, pages, start, order, r.value);
          return;
        }
        order := order + 1;
      }
      if Pow2(start) > pages {
        r := FindFree(start - 1, pages);
        if r.Some? { FoundChosen(ranges[..], lists[..], free, busy, pages, start, start - 1, r.value); }
      }
      if r.None? {
        forall s | s in free ensures pages >= Pow2(ORDERS) || s.pages < pages
        {
          if pages < Pow2(ORDERS) && pages <= s.pages { SearchedList(s, pages, start); }
        }
      }
    }

    /** Makes the front of a free span an allocated one; the rest of it is left
        in hand. */
    method TakeFront(range: nat, pages: nat, ghost s: Span)
      requires Valid() && s in free && 0 < pages <= s.pages && range == s.start
      modifies ranges, lists, this`free, this`busy
      ensures ValidBut(Left(s, pages)) && free == old(free) - {s} && busy == old(busy) + {Front(s, pages)}
      ensures Front(s, pages) !in old(busy)
      ensures |old(lists[..])| == ORDERS && lists[..] == Unlinked(old(lists[..]), s)
    {
      Taken(ranges[..], lists[..], free, busy, s, pages);
      ListDel(range);
      SetTags(range, pages, true);
      free := free - {s};
      busy := busy + {Front(s, pages)};
    }

    /** The end of `kmap_alloc_range`: the front of a free span is handed out and
        the rest of it freed again. */
    method Carve(range: nat, pages: nat)
      requires Valid() && Enough(range, pages) && pages > 0
      modifies ranges, lists, this`free, this`busy
      ensures Valid()
      ensures busy == old(busy) + {Span(range, pages)} && Span(range, pages) !in old(busy)
      ensures TakenOut(old(free), free, Span(range, pages))
      ensures RestListed(old(lists[..]), lists[..], free, Span(range, old(ranges[range].pages)), pages)
    {
      hide Unlinked, ListedAs;
      var rangePages := ranges[range].pages;
      ghost var s := Span(range, rangePages);
      FrontPages(free, busy, s, pages, ranges.Length);
      TakeFront(range, pages, s);
      if rangePages > pages {
        FreeRange(range + pages, rangePages - pages);
      }
    }

    /** `kmap_alloc_range` */
    method AllocRange(pages: nat) returns (r: Option<nat>)
      requires Valid() && pages > 0
      modifies ranges, lists, this`free, this`busy
      ensures Valid()
      ensures r.None? <==> pages >= Pow2(ORDERS) || forall s :: s in old(free) ==> s.pages < pages
      ensures r.None? ==> free == old(free) && busy == old(busy)
      ensures r.Some? ==> busy == old(busy) + {Span(r.value, pages)} && Span(r.value, pages) !in old(busy)
      ensures r.Some? ==> TakenOut(old(free), free, Span(r.value, pages))
      ensures r.Some? ==> Chosen(old(ranges[..]), old(lists[..]), old(free), pages, r.value)
      ensures r.Some? ==> r.value < ranges.Length
      ensures r.Some? ==>
        RestListed(old(lists[..]), lists[..], free, Span(r.value, old(ranges[r.value].pages)), pages)
      ensures r.None? ==> lists[..] == old(lists[..])
    {
      hide Chosen, RestListed;
      r := Search(pages);
      if r.Some? { Carve(r.value, pages); }
    }
  }
}
