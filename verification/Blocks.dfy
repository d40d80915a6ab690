/** Naturally aligned power-of-two blocks of pages, as the page allocator
    splits and merges them. */
module Blocks {
  import opened Bits

  /** MAX_ORDER: just enough for one gigabyte. */
  const MAX_ORDER: nat := 18

  /** The `Pow2(order)` pages starting at page index `idx`. */
  datatype Block = Block(idx: nat, order: nat)

  /** 2^18 pages of 2^12 bytes. */
  lemma LargestBlock()
    ensures Pow2(MAX_ORDER) * 4096 == 0x4000_0000
  {
    assert Pow2(9) == 512;
    Pow2Sum(9, 9);
  }

  ghost predicate In(p: nat, b: Block) { b.idx <= p < b.idx + Pow2(b.order) }

  ghost predicate Aligned(b: Block) { Base(b.idx, b.order) == b.idx }

  /** `idx ^ (1 << order)`, as a block. */
  function Buddy(b: Block): Block { Block(Xor(b.idx, Pow2(b.order)), b.order) }

  function Parent(b: Block): Block { Block(Base(b.idx, b.order + 1), b.order + 1) }

  lemma InBase(p: nat, b: Block)
    requires Aligned(b)
    ensures In(p, b) <==> Base(p, b.order) == b.idx
  {
    BaseBounds(p, b.order);
    if In(p, b) { BaseUnique(b.idx, p, b.order); }
  }

  /** Two aligned blocks that share a page are nested. */
  lemma Nested(a: Block, b: Block, p: nat, q: nat)
    requires Aligned(a) && Aligned(b) && a.order <= b.order
    requires In(p, a) && In(p, b) && In(q, a)
    ensures In(q, b)
    ensures a.order == b.order ==> a == b
  {
    InBase(p, a); InBase(p, b); InBase(q, a); InBase(q, b);
    BaseBase(p, a.order, b.order);
    BaseBase(q, a.order, b.order);
  }

  /** `idx ^ (1 << order)` is the other half of the parent block. */
  lemma BuddyIndex(b: Block)
    requires Aligned(b)
    ensures Aligned(Parent(b)) && Aligned(Buddy(b)) && Parent(Buddy(b)) == Parent(b)
    ensures if b.idx == Parent(b).idx then Buddy(b).idx == b.idx + Pow2(b.order)
            else Buddy(b).idx == Parent(b).idx && b.idx == Parent(b).idx + Pow2(b.order)
  {
    var i := Base(b.idx, b.order + 1);
    BaseBase(b.idx, b.order + 1, b.order + 1);
    XorPow2(b.idx, b.order);
    BaseHalf(b.idx, b.order);
    BaseUpperHalf(i, b.order);
  }

  /** A block and its buddy are the two halves of their parent. */
  lemma BuddyFacts(b: Block)
    requires Aligned(b)
    ensures Aligned(Buddy(b)) && Aligned(Parent(b)) && Parent(Buddy(b)) == Parent(b)
    ensures Buddy(b) != b && Buddy(Buddy(b)) == b
    ensures forall p :: In(p, Parent(b)) <==> In(p, b) || In(p, Buddy(b))
    ensures forall p :: !(In(p, b) && In(p, Buddy(b)))
  {
    BuddyIndex(b);
    BuddyIndex(Buddy(b));
  }

  /** The blocks in `s` are aligned, of legal size and pairwise disjoint. */
  ghost predicate Disjoint(s: set<Block>)
  {
    && (forall b :: b in s ==> Aligned(b) && b.order <= MAX_ORDER)
    && (forall a, b, p :: a in s && b in s && In(p, a) && In(p, b) ==> a == b)
  }

  ghost predicate Covered(p: nat, s: set<Block>)
  {
    exists b :: b in s && In(p, b)
  }

  ghost predicate Covers(s: set<Block>, pages: set<nat>)
  {
    forall p: nat :: p in pages <==> Covered(p, s)
  }

  /** No block of `s` could be merged with another one. */
  ghost predicate Coalesced(s: set<Block>)
  {
    forall b :: b in s && b.order < MAX_ORDER ==> Buddy(b) !in s
  }

  ghost predicate Within(b: Block, s: set<Block>)
  {
    forall p :: In(p, b) ==> Covered(p, s)
  }

  /** Replacing a block by its two halves changes no page. */
  lemma Split(s: set<Block>, b: Block, pages: set<nat>)
    requires Disjoint(s) && Covers(s, pages)
    requires Aligned(b) && b.order < MAX_ORDER && Parent(b) in s
    ensures Disjoint(s - {Parent(b)} + {b, Buddy(b)})
    ensures Covers(s - {Parent(b)} + {b, Buddy(b)}, pages)
  {
    BuddyFacts(b);
    var t := s - {Parent(b)} + {b, Buddy(b)};
    forall x, y, p | x in t && y in t && In(p, x) && In(p, y) ensures x == y {
      var x' := if x in s - {Parent(b)} then x else Parent(b);
      var y' := if y in s - {Parent(b)} then y else Parent(b);
      assert In(p, x') && In(p, y');
    }
    SameCover(s, t, b, pages);
  }

  /** Replacing two buddies by their parent changes no page. */
  lemma Merge(s: set<Block>, b: Block, pages: set<nat>)
    requires Disjoint(s) && Covers(s, pages)
    requires b.order < MAX_ORDER && b in s && Buddy(b) in s
    ensures Disjoint(s - {b, Buddy(b)} + {Parent(b)})
    ensures Covers(s - {b, Buddy(b)} + {Parent(b)}, pages)
  {
    BuddyFacts(b);
    var t := s - {b, Buddy(b)} + {Parent(b)};
    forall x, y, p | x in t && y in t && In(p, x) && In(p, y) ensures x == y {
      var x' := if x in s - {b, Buddy(b)} then x else if In(p, b) then b else Buddy(b);
      var y' := if y in s - {b, Buddy(b)} then y else if In(p, b) then b else Buddy(b);
      assert In(p, x') && In(p, y');
    }
    forall p: nat ensures Covered(p, s) <==> Covered(p, t) {
      if Covered(p, s) {
        var x :| x in s && In(p, x);
        var x' := if x == b || x == Buddy(b) then Parent(b) else x;
        assert x' in t && In(p, x');
      }
      if Covered(p, t) {
        var x :| x in t && In(p, x);
        var x' := if x in s - {b, Buddy(b)} then x else if In(p, b) then b else Buddy(b);
        assert x' in s && In(p, x');
      }
    }
  }

  lemma SameCover(s: set<Block>, t: set<Block>, b: Block, pages: set<nat>)
    requires Covers(s, pages) && Aligned(b)
    requires Parent(b) in s && t == s - {Parent(b)} + {b, Buddy(b)}
    ensures Covers(t, pages)
  {
    BuddyFacts(b);
    forall p: nat ensures Covered(p, s) <==> Covered(p, t) {
      if Covered(p, s) {
        var x :| x in s && In(p, x);
        var x' := if x != Parent(b) then x else if In(p, b) then b else Buddy(b);
        assert x' in t && In(p, x');
      }
      if Covered(p, t) {
        var x :| x in t && In(p, x);
        var x' := if x in s - {Parent(b)} then x else Parent(b);
        assert x' in s && In(p, x');
      }
    }
  }

  /** Completeness of coalescing: any aligned run of pages covered by a
      coalesced set lies inside one single block of it. */
  lemma {:induction false} RunInOneBlock(b: Block, s: set<Block>) returns (c: Block)
    requires Disjoint(s) && Coalesced(s)
    requires Aligned(b) && b.order <= MAX_ORDER && Within(b, s)
    ensures c in s && b.order <= c.order && forall p :: In(p, b) ==> In(p, c)
    decreases b.order
  {
    if b.order == 0 {
      assert In(b.idx, b);
      c :| c in s && In(b.idx, c);
    } else {
      var lo := Block(b.idx, b.order - 1);
      BaseUpperHalf(b.idx, b.order - 1);
      BuddyFacts(lo);
      var hi := Buddy(lo);
      assert Parent(lo) == b;
      var c1 := RunInOneBlock(lo, s);
      var c2 := RunInOneBlock(hi, s);
      assert In(lo.idx, lo) && In(hi.idx, hi);
      if c1.order >= b.order {
        c := c1;
        forall p | In(p, b) ensures In(p, c) { Nested(b, c1, lo.idx, p); }
      } else if c2.order >= b.order {
        c := c2;
        forall p | In(p, b) ensures In(p, c) { Nested(b, c2, hi.idx, p); }
      } else {
        Nested(lo, c1, lo.idx, lo.idx);
        Nested(hi, c2, hi.idx, hi.idx);
        assert false;
      }
    }
  }

  /** Canonical form: two coalesced sets of disjoint blocks over the same
      pages are equal, so the free blocks are a function of the free pages. */
  lemma CanonicalForm(s: set<Block>, t: set<Block>, pages: set<nat>)
    requires Disjoint(s) && Coalesced(s) && Covers(s, pages)
    requires Disjoint(t) && Coalesced(t) && Covers(t, pages)
    ensures s == t
  {
    forall b | b in s ensures b in t { SameBlock(b, s, t, pages); }
    forall b | b in t ensures b in s { SameBlock(b, t, s, pages); }
  }

  /** The reference reading of that function: a block is free exactly when it
      is an aligned run of free pages that no larger legal run contains. */
  lemma FreeBlocksAreMaximalRuns(b: Block, s: set<Block>)
    requires Disjoint(s) && Coalesced(s)
    ensures b in s <==> (&& Aligned(b) && b.order <= MAX_ORDER && Within(b, s)
                         && (b.order == MAX_ORDER || !Within(Parent(b), s)))
  {
    if b in s {
      assert In(b.idx, b);
      assert Within(b, s);
      if b.order < MAX_ORDER && Within(Parent(b), s) {
        BuddyFacts(b);
        var c := RunInOneBlock(Parent(b), s);
        assert false;
      }
    } else if Aligned(b) && b.order <= MAX_ORDER && Within(b, s) {
      assert In(b.idx, b);
      var c := RunInOneBlock(b, s);
      assert In(b.idx, c);
      BuddyFacts(b);
      Nested(b, c, b.idx, b.idx);
      if b.order < MAX_ORDER {
        forall p | In(p, Parent(b)) ensures In(p, c) {
          assert In(b.idx, Parent(b));
          Nested(Parent(b), c, b.idx, p);
        }
        assert Within(Parent(b), s);
      }
    }
  }

  lemma SameBlock(b: Block, s: set<Block>, t: set<Block>, pages: set<nat>)
    requires Disjoint(s) && Coalesced(s) && Covers(s, pages)
    requires Disjoint(t) && Coalesced(t) && Covers(t, pages)
    requires b in s
    ensures b in t
  {
    assert In(b.idx, b);
    forall p | In(p, b) ensures Covered(p, t) { assert Covered(p, s); }
    var c := RunInOneBlock(b, t);
    forall p | In(p, c) ensures Covered(p, s) { assert Covered(p, t); }
    var d := RunInOneBlock(c, s);
    assert In(b.idx, d);
    Nested(b, c, b.idx, b.idx);
  }
}
