/** The kmap area as a set of spans of page slots, the tags at both ends of each
    span and the free lists by size. */
module Spans {
  import opened Bits
  import opened Lists

  /** KMAP_ORDERS */
  const ORDERS: nat := 16

  /** `pages` slots from slot `start`. */
  datatype Span = Span(start: nat, pages: nat)

  /** `struct kmap_range`: whether its list node is linked to itself, and the tag. */
  datatype KmapRange = KmapRange(empty: bool, pages: nat)

  ghost predicate Inside(p: nat, s: Span) { s.start <= p < s.start + s.pages }

  ghost predicate InSome(p: nat, all: set<Span>) { exists s :: s in all && Inside(p, s) }

  ghost predicate Apart(s: Span, t: Span) { s.start + s.pages <= t.start || t.start + t.pages <= s.start }

  /** Non-empty spans that cut the first `n` slots into pieces. */
  ghost predicate Tile(all: set<Span>, n: nat)
  {
    && (forall s :: s in all ==> s.pages > 0 && s.start + s.pages <= n)
    && (forall s, t :: s in all && t in all && s != t ==> Apart(s, t))
    && (forall p :: 0 <= p < n ==> InSome(p, all))
  }

  ghost predicate EndsAt(s: Span, p: nat) { s.start + s.pages == p }

  /** No two free spans touch. */
  ghost predicate Separate(free: set<Span>)
  {
    forall s, t :: s in free && t in free ==> !EndsAt(s, t.start)
  }

  /** The first slot of a span holds its size and shows by its list node whether
      the span is free; the last slot holds the size, too.  Nothing is said
      about the slots between. */
  ghost predicate Tagged(ranges: seq<KmapRange>, s: Span, busy: bool)
  {
    && s.pages > 0 && s.start + s.pages <= |ranges|
    && ranges[s.start] == KmapRange(busy, s.pages)
    && ranges[s.start + s.pages - 1].pages == s.pages
  }

  /** The list for spans of `pages` slots: the integer part of the binary
      logarithm, the last list taking all that is larger. */
  function Class(pages: nat): (c: nat)
    ensures c < ORDERS
  {
    if pages < 2 then 0 else if Class(pages / 2) == ORDERS - 1 then ORDERS - 1 else Class(pages / 2) + 1
  }

  lemma {:induction false} ClassBounds(pages: nat)
    requires pages > 0
    ensures Pow2(Class(pages)) <= pages
    ensures Class(pages) < ORDERS - 1 ==> pages < Pow2(Class(pages) + 1)
  {
    if pages >= 2 {
      ClassBounds(pages / 2);
      if Class(pages / 2) == ORDERS - 1 { assert Pow2(ORDERS - 1) <= pages / 2; }
    }
  }

  /** List `k` holds exactly the free spans of that class, each by its first slot. */
  ghost predicate Listed(lists: seq<seq<nat>>, free: set<Span>)
  {
    && |lists| == ORDERS
    && (forall k :: 0 <= k < ORDERS ==> NoDup(lists[k]))
    && (forall s :: s in free ==> s.start in lists[Class(s.pages)])
    && (forall k, p :: 0 <= k < ORDERS && p in lists[k] ==>
          exists s :: s in free && s.start == p && Class(s.pages) == k)
  }

  /** The state of the area while the span of `hand`, if any, is neither free
      nor allocated. */
  ghost predicate Holds(ranges: seq<KmapRange>, lists: seq<seq<nat>>, free: set<Span>, busy: set<Span>, hand: set<Span>)
  {
    && free !! busy !! hand
    && Tile(free + busy + hand, |ranges|)
    && Separate(free)
    && (forall s :: s in free ==> Tagged(ranges, s, false))
    && (forall s :: s in busy ==> Tagged(ranges, s, true))
    && Listed(lists, free)
  }

  // ---- the canonical form ----

  /** A run of free slots that cannot be extended is one free span. */
  lemma MaximalRun(free: set<Span>, n: nat, s: Span, other: set<Span>)
    requires Tile(free + other, n) && free !! other && Separate(free) && s in free
    ensures s.start > 0 ==> !InSome(s.start - 1, free)
    ensures !InSome(s.start + s.pages, free)
  {
    forall t | t in free
      ensures s.start > 0 ==> !Inside(s.start - 1, t)
      ensures !Inside(s.start + s.pages, t)
    {
      assert t == s || Apart(t, s);
      assert !EndsAt(t, s.start) && !EndsAt(s, t.start);
    }
  }

  lemma SpanFromPages(free: set<Span>, other: set<Span>, free': set<Span>, other': set<Span>, n: nat, s: Span)
    requires Tile(free + other, n) && free !! other && Separate(free)
    requires Tile(free' + other', n) && free' !! other' && Separate(free')
    requires forall p: nat :: InSome(p, free) <==> InSome(p, free')
    requires s in free
    ensures s in free'
  {
    assert Inside(s.start, s);
    assert InSome(s.start, free');
    var t :| t in free' && Inside(s.start, t);
    MaximalRun(free, n, s, other);
    MaximalRun(free', n, t, other');
    if s.start > 0 {
      assert !InSome(s.start - 1, free');
      assert !Inside(s.start - 1, t);
    }
    var e, e' := s.start + s.pages, t.start + t.pages;
    assert !InSome(e, free') && !InSome(e', free);
    assert !Inside(e, t) && !Inside(e', s);
  }

  /** The free spans are a function of the free slots. */
  lemma FreeSpansDetermined(free: set<Span>, other: set<Span>, free': set<Span>, other': set<Span>, n: nat)
    requires Tile(free + other, n) && free !! other && Separate(free)
    requires Tile(free' + other', n) && free' !! other' && Separate(free')
    requires forall p: nat :: InSome(p, free) <==> InSome(p, free')
    ensures free == free'
  {
    forall s | s in free ensures s in free' { SpanFromPages(free, other, free', other', n, s); }
    forall s | s in free' ensures s in free { SpanFromPages(free', other', free, other, n, s); }
  }

  // ---- neighbours ----

  /** The span before slot `h.start`, found through its last slot, and what its
      first slot says. */
  lemma Before(ranges: seq<KmapRange>, lists: seq<seq<nat>>, free: set<Span>, busy: set<Span>, h: Span)
    requires Holds(ranges, lists, free, busy, {h}) && h.start > 0
    ensures var size := ranges[h.start - 1].pages;
      && 0 < size <= h.start && ranges[h.start - size].pages == size
      && Span(h.start - size, size) in free + busy
      && (!ranges[h.start - size].empty <==> Span(h.start - size, size) in free)
  {
    var all := free + busy + {h};
    assert InSome(h.start - 1, all);
    var s :| s in all && Inside(h.start - 1, s);
    assert Apart(s, h);
  }

  /** The span after `h`. */
  lemma After(ranges: seq<KmapRange>, lists: seq<seq<nat>>, free: set<Span>, busy: set<Span>, h: Span)
    requires Holds(ranges, lists, free, busy, {h}) && h.start + h.pages < |ranges|
    ensures var e := h.start + h.pages;
      && Span(e, ranges[e].pages) in free + busy
      && (!ranges[e].empty <==> Span(e, ranges[e].pages) in free)
  {
    var all := free + busy + {h};
    assert InSome(h.start + h.pages, all);
    var s :| s in all && Inside(h.start + h.pages, s);
    assert Apart(s, h);
  }

  /** Taken off its list, a free span leaves the rest listed. */
  lemma Unlisted(lists: seq<seq<nat>>, free: set<Span>, s: Span, n: nat, other: set<Span>)
    requires Listed(lists, free) && s in free && Tile(free + other, n)
    ensures Listed(lists[Class(s.pages) := Without(lists[Class(s.pages)], s.start)], free - {s})
  {
    var c := Class(s.pages);
    var lists' := lists[c := Without(lists[c], s.start)];
    WithoutMembers(lists[c], s.start);
    forall t | t in free - {s} ensures t.start in lists'[Class(t.pages)] { assert Apart(s, t); }
    forall k, p | 0 <= k < ORDERS && p in lists'[k]
      ensures exists t :: t in free - {s} && t.start == p && Class(t.pages) == k
    {
      var t :| t in free && t.start == p && Class(t.pages) == k;
    }
  }

  lemma Relisted(lists: seq<seq<nat>>, free: set<Span>, s: Span, n: nat, other: set<Span>)
    requires Listed(lists, free) && s !in free && Tile(free + other + {s}, n)
    ensures Listed(lists[Class(s.pages) := [s.start] + lists[Class(s.pages)]], free + {s})
  {
    var c := Class(s.pages);
    forall p | p in lists[c] ensures p != s.start
    {
      var t :| t in free && t.start == p && Class(t.pages) == c;
      assert Apart(s, t);
    }
    var lists' := lists[c := [s.start] + lists[c]];
    Pushed(lists[c], s.start);
    forall k, p | 0 <= k < ORDERS && p in lists'[k]
      ensures exists t :: t in free + {s} && t.start == p && Class(t.pages) == k
    {
      if k == c && p == s.start {
        assert s in free + {s};
      } else {
        var t :| t in free && t.start == p && Class(t.pages) == k;
        assert t in free + {s};
      }
    }
  }

  /** Two touching spans as one. */
  function Glue(s: Span, t: Span): Span { Span(s.start, s.pages + t.pages) }

  lemma GluedTile(rest: set<Span>, s: Span, t: Span, n: nat)
    requires Tile(rest + {s} + {t}, n) && s !in rest && t !in rest && EndsAt(s, t.start)
    ensures Tile(rest + {Glue(s, t)}, n) && Glue(s, t) !in rest
    ensures forall p: nat :: Inside(p, Glue(s, t)) <==> Inside(p, s) || Inside(p, t)
  {
    var g, all := Glue(s, t), rest + {s} + {t};
    forall u | u in rest ensures u.start != s.start { assert Apart(u, s); }
    forall u | u in rest ensures Apart(u, g)
    {
      assert Apart(u, s) && Apart(u, t);
    }
    forall p | 0 <= p < n ensures InSome(p, rest + {g})
    {
      assert InSome(p, all);
      var u :| u in all && Inside(p, u);
      if u == s || u == t { assert g in rest + {g} && Inside(p, g); }
    }
  }

  ghost predicate NoneEndsAt(free: set<Span>, p: nat) { forall t :: t in free ==> !EndsAt(t, p) }

  ghost predicate NoneStartsAt(free: set<Span>, p: nat) { forall t :: t in free ==> t.start != p }

  /** The slots of `free` and of the span in hand are the slots of `free0` and `h0`. */
  ghost predicate SamePages(free: set<Span>, h: Span, free0: set<Span>, h0: Span)
  {
    forall p: nat :: (InSome(p, free) || Inside(p, h)) <==> (InSome(p, free0) || Inside(p, h0))
  }

  lemma Gained(free: set<Span>, s: Span, p: nat)
    ensures InSome(p, free + {s}) <==> InSome(p, free) || Inside(p, s)
  {
    if Inside(p, s) { assert s in free + {s}; }
    if InSome(p, free) {
      var t :| t in free && Inside(p, t);
      assert t in free + {s};
    }
  }

  lemma Glued(free: set<Span>, s: Span, h: Span, g: Span)
    requires s in free
    requires forall p: nat :: Inside(p, g) <==> Inside(p, s) || Inside(p, h)
    ensures SamePages(free - {s}, g, free, h)
  {
    forall p: nat
      ensures (InSome(p, free - {s}) || Inside(p, g)) <==> (InSome(p, free) || Inside(p, h))
    {
      Gained(free - {s}, s, p);
      assert free - {s} + {s} == free;
    }
  }

  function Unlinked(lists: seq<seq<nat>>, s: Span): seq<seq<nat>>
    requires |lists| == ORDERS
  {
    lists[Class(s.pages) := Without(lists[Class(s.pages)], s.start)]
  }

  function Linked(lists: seq<seq<nat>>, s: Span): seq<seq<nat>>
    requires |lists| == ORDERS
  {
    lists[Class(s.pages) := [s.start] + lists[Class(s.pages)]]
  }

  lemma MergedBefore(ranges: seq<KmapRange>, lists: seq<seq<nat>>, free: set<Span>, busy: set<Span>, h: Span, s: Span)
    requires Holds(ranges, lists, free, busy, {h}) && s in free && EndsAt(s, h.start)
    ensures Holds(ranges, Unlinked(lists, s), free - {s}, busy, {Glue(s, h)})
    ensures NoneEndsAt(free - {s}, s.start) && SamePages(free - {s}, Glue(s, h), free, h)
  {
    var rest := free - {s} + busy;
    assert rest + {s} + {h} == free + busy + {h};
    GluedTile(rest, s, h, |ranges|);
    assert free + (busy + {h}) == free + busy + {h};
    Unlisted(lists, free, s, |ranges|, busy + {h});
    Glued(free, s, h, Glue(s, h));
  }

  lemma MergedAfter(ranges: seq<KmapRange>, lists: seq<seq<nat>>, free: set<Span>, busy: set<Span>, h: Span, s: Span)
    requires Holds(ranges, lists, free, busy, {h}) && s in free && EndsAt(h, s.start)
    ensures Holds(ranges, Unlinked(lists, s), free - {s}, busy, {Glue(h, s)})
    ensures NoneStartsAt(free - {s}, h.start + h.pages + s.pages) && SamePages(free - {s}, Glue(h, s), free, h)
    ensures NoneEndsAt(free, h.start) ==> NoneEndsAt(free - {s}, h.start)
  {
    var rest := free - {s} + busy;
    assert rest + {h} + {s} == free + busy + {h};
    GluedTile(rest, h, s, |ranges|);
    assert free + (busy + {h}) == free + busy + {h};
    Unlisted(lists, free, s, |ranges|, busy + {h});
    Glued(free, s, h, Glue(h, s));
    forall t | t in free - {s} ensures t.start != h.start + h.pages + s.pages
    {
      assert !EndsAt(s, t.start);
    }
  }

  /** Both tags of `s`, and the list node of its first slot. */
  function Marked(ranges: seq<KmapRange>, s: Span, busy: bool): (r: seq<KmapRange>)
    requires s.pages > 0 && s.start + s.pages <= |ranges|
  {
    var last := s.start + s.pages - 1;
    ranges[last := KmapRange(ranges[last].empty, s.pages)][s.start := KmapRange(busy, s.pages)]
  }

  /** Marking one span leaves the tags of the others. */
  lemma OthersTagged(ranges: seq<KmapRange>, s: Span, busy: bool, t: Span, b: bool)
    requires Tagged(ranges, t, b) && Apart(s, t) && s.pages > 0 && s.start + s.pages <= |ranges|
    ensures Tagged(Marked(ranges, s, busy), t, b)
  {
  }

  lemma Published(ranges: seq<KmapRange>, lists: seq<seq<nat>>, free: set<Span>, busy: set<Span>, h: Span)
    requires Holds(ranges, lists, free, busy, {h})
    requires NoneEndsAt(free, h.start) && NoneStartsAt(free, h.start + h.pages)
    ensures Holds(Marked(ranges, h, false), Linked(lists, h), free + {h}, busy, {})
    ensures forall p: nat :: InSome(p, free + {h}) <==> InSome(p, free) || Inside(p, h)
  {
    var all := free + busy + {h};
    assert free + {h} + busy + {} == all && free + busy + {h} == all;
    assert h in all;
    forall t | t in free + busy ensures Apart(h, t) { assert t in all && t != h; }
    forall t | t in free ensures Tagged(Marked(ranges, h, false), t, false)
    {
      OthersTagged(ranges, h, false, t, false);
    }
    forall t | t in busy ensures Tagged(Marked(ranges, h, false), t, true) { OthersTagged(ranges, h, false, t, true); }
    Relisted(lists, free, h, |ranges|, busy);
    forall p: nat ensures InSome(p, free + {h}) <==> InSome(p, free) || Inside(p, h) { Gained(free, h, p); }
  }

  /** The front of a free span, and what is left of it. */
  function Front(s: Span, pages: nat): Span { Span(s.start, pages) }

  ghost function Left(s: Span, pages: nat): set<Span>
    requires pages <= s.pages
  {
    if pages < s.pages then {Span(s.start + pages, s.pages - pages)} else {}
  }

  lemma FrontTile(rest: set<Span>, s: Span, pages: nat, n: nat)
    requires Tile(rest + {s}, n) && s !in rest && 0 < pages <= s.pages
    ensures Tile(rest + {Front(s, pages)} + Left(s, pages), n)
    ensures Front(s, pages) !in rest && Left(s, pages) !! rest && Front(s, pages) !in Left(s, pages)
    ensures forall t :: t in rest + Left(s, pages) ==> Apart(Front(s, pages), t)
  {
    var f, l, all := Front(s, pages), Left(s, pages), rest + {s};
    var all' := rest + {f} + l;
    forall t | t in rest ensures Apart(t, f) && (forall u :: u in l ==> Apart(t, u)) { assert Apart(t, s); }
    forall p | 0 <= p < n ensures InSome(p, all')
    {
      assert InSome(p, all);
      var t :| t in all && Inside(p, t);
      if t == s {
        if p < s.start + pages {
          assert f in all' && Inside(p, f);
        } else {
          var u := Span(s.start + pages, s.pages - pages);
          assert u in all' && Inside(p, u);
        }
      } else {
        assert t in all';
      }
    }
  }

  lemma Taken(ranges: seq<KmapRange>, lists: seq<seq<nat>>, free: set<Span>, busy: set<Span>, s: Span, pages: nat)
    requires Holds(ranges, lists, free, busy, {}) && s in free && 0 < pages <= s.pages
    ensures Holds(Marked(ranges, Front(s, pages), true), Unlinked(lists, s),
      free - {s}, busy + {Front(s, pages)}, Left(s, pages))
    ensures Front(s, pages) !in busy
  {
    var f, rest := Front(s, pages), free - {s} + busy;
    assert rest + {s} == free + busy + {};
    FrontTile(rest, s, pages, |ranges|);
    assert (free - {s}) + (busy + {f}) + Left(s, pages) == rest + {f} + Left(s, pages);
    forall t | t in free - {s} ensures Tagged(Marked(ranges, f, true), t, false)
    {
      assert t in rest;
      OthersTagged(ranges, f, true, t, false);
    }
    forall t | t in busy ensures Tagged(Marked(ranges, f, true), t, true)
    {
      assert t in rest;
      OthersTagged(ranges, f, true, t, true);
    }
    assert free + busy == free + busy + {};
    Unlisted(lists, free, s, |ranges|, busy);
  }

  lemma NothingBefore(free: set<Span>, busy: set<Span>, h: Span, s: Span, n: nat)
    requires Tile(free + busy + {h}, n) && free !! busy && s in busy && EndsAt(s, h.start)
    ensures NoneEndsAt(free, h.start)
  {
    forall t | t in free ensures !EndsAt(t, h.start) { assert Apart(s, t); }
  }

  lemma NothingAfter(free: set<Span>, busy: set<Span>, h: Span, s: Span, n: nat)
    requires Tile(free + busy + {h}, n) && free !! busy && s in busy && EndsAt(h, s.start)
    ensures NoneStartsAt(free, h.start + h.pages)
  {
    forall t | t in free ensures t.start != h.start + h.pages { assert Apart(s, t); }
  }

  /** `s` was free and is not; the other slots are as they were. */
  ghost predicate TakenOut(free: set<Span>, free': set<Span>, s: Span)
  {
    && (forall p: nat :: InSome(p, free') <==> InSome(p, free) && !Inside(p, s))
    && (forall p: nat :: Inside(p, s) ==> InSome(p, free))
  }

  /** The slots a front takes out of the free set. */
  lemma FrontPages(free: set<Span>, other: set<Span>, s: Span, pages: nat, n: nat)
    requires Tile(free + other + {}, n) && s in free && 0 < pages <= s.pages
    ensures forall p: nat :: (InSome(p, free - {s}) || Inside(p, Span(s.start + pages, s.pages - pages))) <==>
      (InSome(p, free) && !Inside(p, Front(s, pages)))
    ensures forall p: nat :: Inside(p, Front(s, pages)) ==> InSome(p, free)
  {
    var f := Front(s, pages);
    forall p: nat
      ensures (InSome(p, free - {s}) || Inside(p, Span(s.start + pages, s.pages - pages))) <==>
        (InSome(p, free) && !Inside(p, f))
    {
      Gained(free - {s}, s, p);
      assert free - {s} + {s} == free;
      if InSome(p, free - {s}) {
        var t :| t in free - {s} && Inside(p, t);
        assert Apart(t, s);
      }
    }
  }

  /** Freeing what was just allocated brings the free spans back, whatever was
      written to the slots between the ends meanwhile. */
  lemma AllocThenFree(free: set<Span>, busy: set<Span>, free1: set<Span>, free2: set<Span>, busy2: set<Span>,
      s: Span, n: nat)
    requires Tile(free + busy, n) && free !! busy && Separate(free)
    requires Tile(free2 + busy2, n) && free2 !! busy2 && Separate(free2)
    requires TakenOut(free, free1, s)
    requires forall p: nat :: InSome(p, free2) <==> InSome(p, free1) || Inside(p, s)
    ensures free2 == free
  {
    FreeSpansDetermined(free, busy, free2, busy2, n);
  }

  /** With nothing allocated the area is one free span. */
  lemma AllFree(free: set<Span>, n: nat)
    requires n > 0 && Tile(free, n) && Separate(free)
    ensures free == {Span(0, n)}
  {
    var whole := {Span(0, n)};
    forall p | 0 <= p < n ensures InSome(p, whole) { assert Inside(p, Span(0, n)); }
    forall p: nat ensures InSome(p, free) <==> InSome(p, whole)
    {
      if InSome(p, whole) { assert p < n; }
    }
    assert free + {} == free && whole + {} == whole;
    FreeSpansDetermined(free, {}, whole, {}, n);
  }
}
