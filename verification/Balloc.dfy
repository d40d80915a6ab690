/** The boot-time range allocator: address ranges in red-black trees, with
    nodes recycled through a free list. */
module Balloc {
  import opened Bits
  import opened Lists
  import opened RbModel
  import opened RedBlackTree
  import opened Ranges

  /** The ranges of the nodes of `ids`, in that order. */
  function RangesOf(ranges: map<nat, Range>, ids: seq<nat>): (s: seq<Range>)
    requires forall x :: x in ids ==> x in ranges
    ensures |s| == |ids| && forall i :: 0 <= i < |s| ==> s[i] == ranges[ids[i]]
  {
    seq(|ids|, i requires 0 <= i < |ids| => ranges[ids[i]])
  }

  /** The `n`-th element from the end, counting from one. */
  function FromEnd(s: seq<nat>, n: nat): nat
    requires 0 < n <= |s|
  {
    s[|s| - n]
  }

  /** The last `n` elements of `s` and `t` are the same. */
  ghost predicate SameEnd(s: seq<nat>, t: seq<nat>, n: nat)
  {
    n <= |s| && n <= |t| && forall i :: 0 < i <= n ==> FromEnd(s, i) == FromEnd(t, i)
  }

  lemma SameEndInsert(a: seq<nat>, n: nat, b: seq<nat>)
    ensures SameEnd(a + [n] + b, a + b, |b|)
  {
  }

  lemma SameEndDrop(s: seq<nat>, k: nat)
    requires k < |s|
    ensures SameEnd(s[..k] + s[k + 1..], s, |s| - k - 1)
  {
  }

  /** What stood behind the element dropped at `k`. */
  lemma FirstBehind(s: seq<nat>, k: nat, n: nat)
    requires |s| == k + 2 + n
    ensures (s[..k] + s[k + 1..])[k] == s[k + 1] && SameEnd(s[..k] + s[k + 1..], s, n)
  {
  }

  lemma NextKept(s: seq<nat>, t: seq<nat>, d: nat, c: nat, r: nat)
    requires 0 < r && SameEnd(s, t, r - 1) && |s| == d + c + (r - 1) && |t| == d + r
    ensures r > 1 ==> s[d + c] == t[d + 1]
  {
    assert r > 1 ==> FromEnd(s, r - 1) == FromEnd(t, r - 1);
  }

  lemma SameEndTrans(s: seq<nat>, t: seq<nat>, u: seq<nat>, n: nat, m: nat)
    requires SameEnd(s, t, n) && SameEnd(t, u, m)
    ensures SameEnd(s, u, if n < m then n else m)
  {
  }

  /** BALLOC_MAX_RANGES */
  const MAX_RANGES: nat := 128

  /** Nodes that cutting [lo, hi) out of `r` takes before it gives the node of `r` back. */
  function CutNeed(r: Range, lo: nat, hi: nat): nat
  {
    (if r.begin < lo then 1 else 0) + (if hi < r.end then 1 else 0)
  }

  predicate Overlaps(r: Range, from: nat, to: nat) { r.begin < to && from < r.end }

  /** With `n` free nodes, taking [from, to) out of the stored ranges, one after
      the other, does not run out of them. */
  ghost predicate NodesFor(s: seq<Range>, from: nat, to: nat, n: int)
  {
    if s == [] then true
    else if Overlaps(s[0], from, to)
    then n >= CutNeed(s[0], from, to) && NodesFor(s[1..], from, to, n + 1 - |Cut(s[0], from, to)|)
    else NodesFor(s[1..], from, to, n)
  }

  lemma NodesStep(s: seq<Range>, from: nat, to: nat, n: int)
    requires s != [] && s[0].begin < to && from < s[0].end && NodesFor(s, from, to, n)
    ensures n >= CutNeed(s[0], from, to) && NodesFor(s[1..], from, to, n + 1 - |Cut(s[0], from, to)|)
  {
  }

  lemma {:induction false} NodesSkip(s: seq<Range>, m: nat, from: nat, to: nat, n: int)
    requires m <= |s| && (forall r :: r in s[..m] ==> !Overlaps(r, from, to)) && NodesFor(s, from, to, n)
    ensures NodesFor(s[m..], from, to, n)
  {
    if m > 0 {
      assert s[0] in s[..m] && forall r :: r in s[1..][..m - 1] ==> r in s[..m];
      NodesSkip(s[1..], m - 1, from, to, n);
      assert s[1..][m - 1..] == s[m..];
    } else {
      assert s[m..] == s;
    }
  }

  lemma {:induction false} NodesOutside(s: seq<Range>, from: nat, to: nat, n: int)
    requires forall r :: r in s ==> !Overlaps(r, from, to)
    ensures NodesFor(s, from, to, n)
  {
    if s != [] {
      assert s[0] in s;
      NodesOutside(s[1..], from, to, n);
    }
  }

  /** Two nodes always do. */
  lemma {:induction false} TwoSuffice(s: seq<Range>, from: nat, to: nat, n: int)
    requires Separated(s) && from <= to && n >= 2
    ensures NodesFor(s, from, to, n)
  {
    if s != [] {
      if Overlaps(s[0], from, to) && |Cut(s[0], from, to)| == 2 {
        NodesOutside(s[1..], from, to, n - 1);
      } else {
        TwoSuffice(s[1..], from, to, n);
        if Overlaps(s[0], from, to) { TwoSuffice(s[1..], from, to, n + 1 - |Cut(s[0], from, to)|); }
      }
    }
  }

  class BootAllocator {
    const memoryMap: RbTree
    const freeRanges: RbTree
    var ranges: map<nat, Range>
    var freeNodes: seq<nat>
    /** A node taken out of a tree and not yet given back; 0 if none. */
    ghost var held: nat

    /** `balloc_setup_nodes`: all nodes free, both trees empty. */
    constructor ()
      ensures Valid() && |freeNodes| == MAX_RANGES && held == 0
      ensures Stored(memoryMap) == [] && Stored(freeRanges) == []
      ensures fresh(memoryMap) && fresh(freeRanges)
    {
      memoryMap := new RbTree();
      freeRanges := new RbTree();
      var nodes := seq(MAX_RANGES, i requires 0 <= i < MAX_RANGES => MAX_RANGES - i);
      ranges := map x | x in nodes :: Range(0, 0);
      freeNodes := nodes;
      held := 0;
    }

    ghost function Nodes(t: RbTree): seq<nat>
      reads t
    {
      Inorder(t.tree)
    }

    /** The nodes that are on the free list, in a tree or held. */
    ghost function Count(): nat
      reads this, memoryMap, freeRanges
    {
      |freeNodes| + |Nodes(memoryMap)| + |Nodes(freeRanges)| + if held == 0 then 0 else 1
    }

    /** No node is in two places: the free list, the trees and the one held. */
    ghost predicate Linked()
      reads this, memoryMap, freeRanges
    {
      && memoryMap != freeRanges && memoryMap.Valid() && freeRanges.Valid()
      && NoDup(freeNodes) && 0 !in freeNodes
      && (forall x :: x in freeNodes ==> x !in Nodes(memoryMap) && x !in Nodes(freeRanges))
      && (forall x :: x in Nodes(memoryMap) ==> x !in Nodes(freeRanges))
      && (forall x :: x in freeNodes || x in Nodes(memoryMap) || x in Nodes(freeRanges) ==> x in ranges)
      && (held != 0 ==> held in ranges && held !in freeNodes && held !in Nodes(memoryMap) && held !in Nodes(freeRanges))
    }

    /** The ranges stored in one of the two trees, in order. */
    ghost function Stored(t: RbTree): seq<Range>
      requires Linked() && Ours(t)
      reads this, memoryMap, freeRanges
    {
      RangesOf(ranges, Nodes(t))
    }

    /** No node is in two places and none is lost; both lists are in order. */
    ghost predicate Valid()
      reads this, memoryMap, freeRanges
    {
      Linked() && Count() == MAX_RANGES && Separated(Stored(memoryMap)) && Separated(Stored(freeRanges))
    }

    ghost function Other(t: RbTree): RbTree { if t == memoryMap then freeRanges else memoryMap }

    ghost predicate Ours(t: RbTree) { t == memoryMap || t == freeRanges }

    /** The descent that finds where a range beginning at `from` is linked in. */
    method FindInsert(t: RbTree, from: nat) returns (parent: nat, left: bool, ghost c: Ctx)
      requires Valid() && Ours(t)
      ensures Plug(c, Leaf) == t.tree && parent == Par(c) && (c.InLeft? ==> left) && (c.InRight? ==> !left)
      ensures |Before(c)| == Position(Stored(t), from)
    {
      var link := t.root;
      parent, left, c := 0, false, Top;
      ghost var u := t.tree;
      while link != 0
        invariant Focus(t.nodes, t.root, c, u) && Plug(c, u) == t.tree && link == Ptr(u) && parent == Par(c)
        invariant (c.InLeft? ==> left) && (c.InRight? ==> !left)
        invariant forall y :: y in Before(c) ==> y in ranges && ranges[y].begin < from
        invariant forall y :: y in After(c) ==> y in ranges && ranges[y].begin >= from
        decreases u
      {
        parent := link;
        t.AtChildren(c, u);
        Move(t.nodes, t.root, c, u);
        Descend(ranges, c, u);
        if ranges[link].begin < from {
          link, left := t.nodes[parent].right, false;
          c, u := InRight(u.id, u.color, u.left, c), u.right;
        } else {
          link, left := t.nodes[parent].left, true;
          c, u := InLeft(u.id, u.color, u.right, c), u.left;
        }
      }
      InorderPlug(c, Leaf);
      PositionSplit(ranges, Before(c), After(c), from);
    }

    /** `list_del` of the first free node; running out of nodes is a BUG. */
    method AllocNode() returns (n: nat)
      requires Linked() && freeNodes != []
      modifies this`freeNodes
      ensures n == old(freeNodes)[0] && freeNodes == old(freeNodes)[1..] && Linked()
      ensures n != 0 && n != held && n !in freeNodes && n in ranges && n !in Nodes(memoryMap) && n !in Nodes(freeRanges)
    {
      n := freeNodes[0];
      freeNodes := freeNodes[1..];
      assert forall x :: x in freeNodes ==> x in old(freeNodes);
    }

    method FreeNode(n: nat)
      requires Linked() && n != 0 && n in ranges && n !in freeNodes
      requires n !in Nodes(memoryMap) && n !in Nodes(freeRanges)
      modifies this`freeNodes, this`held
      ensures freeNodes == [n] + old(freeNodes) && Linked() && held == if n == old(held) then 0 else old(held)
      ensures Stored(memoryMap) == old(Stored(memoryMap)) && Stored(freeRanges) == old(Stored(freeRanges))
    {
      freeNodes := [n] + freeNodes;
      if n == held { held := 0; }
    }

    /** Takes a node for the new range and links it into the tree. */
    method InsertNode(t: RbTree, from: nat, to: nat) returns (n: nat, ghost k: nat)
      requires Valid() && Ours(t) && freeNodes != []
      modifies this, t
      ensures |freeNodes| == |old(freeNodes)| - 1 && Count() == old(Count())
      ensures k == Position(old(Stored(t)), from)
      ensures Holds(t, n, old(Stored(t))[..k], Range(from, to), old(Stored(t))[k..])
      ensures SameEnd(Nodes(t), old(Nodes(t)), |old(Stored(t))| - k)
      ensures Stored(Other(t)) == old(Stored(Other(t)))
      ensures held == old(held) && (held != 0 ==> ranges[held] == old(ranges[held]))
    {
      var parent, left;
      ghost var c;
      parent, left, c := FindInsert(t, from);
      k := |Before(c)|;
      n := NewNode(Range(from, to));
      LinkNode(t, n, parent, left, c);
    }

    /** Takes a free node and fills in its range. */
    method NewNode(r: Range) returns (n: nat)
      requires Linked() && freeNodes != []
      modifies this`freeNodes, this`ranges
      ensures Linked() && |freeNodes| == |old(freeNodes)| - 1 && Count() == old(Count()) - 1
      ensures Stored(memoryMap) == old(Stored(memoryMap)) && Stored(freeRanges) == old(Stored(freeRanges))
      ensures n != 0 && n != held && n !in freeNodes && n in ranges && n !in Nodes(memoryMap) && n !in Nodes(freeRanges)
      ensures ranges[n] == r && (held != 0 ==> ranges[held] == old(ranges[held]))
    {
      n := AllocNode();
      RangesFrame(ranges, Nodes(memoryMap), n, r);
      RangesFrame(ranges, Nodes(freeRanges), n, r);
      ranges := ranges[n := r];
    }

    method AttachNode(t: RbTree, n: nat, parent: nat, left: bool, ghost c: Ctx)
      requires Linked() && Ours(t) && Plug(c, Leaf) == t.tree
      requires parent == Par(c) && (c.InLeft? ==> left) && (c.InRight? ==> !left)
      requires n != 0 && n != held && n !in freeNodes && n in ranges
      requires n !in Nodes(memoryMap) && n !in Nodes(freeRanges)
      modifies t
      ensures Linked() && Nodes(Other(t)) == old(Nodes(Other(t))) && Count() == old(Count()) + 1
      ensures old(Nodes(t)) == Before(c) + After(c) && Nodes(t) == Before(c) + [n] + After(c)
    {
      hide Focus, Plug, Before, After, RedBlack, NoDup;
      InorderPlug(c, Leaf);
      assert Before(c) + [] + After(c) == Before(c) + After(c);
      OneMoreNode(Before(c), n, After(c));
      t.NodesAreIds();
      t.Attach(n, parent, left, c);
    }

    method LinkNode(t: RbTree, n: nat, parent: nat, left: bool, ghost c: Ctx)
      requires Linked() && Ours(t) && Plug(c, Leaf) == t.tree
      requires parent == Par(c) && (c.InLeft? ==> left) && (c.InRight? ==> !left)
      requires n != 0 && n != held && n !in freeNodes && n in ranges
      requires n !in Nodes(memoryMap) && n !in Nodes(freeRanges)
      modifies t
      ensures Linked() && Stored(Other(t)) == old(Stored(Other(t))) && Count() == old(Count()) + 1
      ensures var s, k := old(Stored(t)), |Before(c)|;
              k <= |s| && Stored(t) == s[..k] + [ranges[n]] + s[k..] && Nodes(t)[k] == n
      ensures SameEnd(Nodes(t), old(Nodes(t)), |old(Nodes(t))| - |Before(c)|)
    {
      AttachNode(t, n, parent, left, c);
      RangesBetween(ranges, Before(c), n, After(c));
      SameEndInsert(Before(c), n, After(c));
    }

    method SetRange(t: RbTree, n: nat, ghost k: nat, r: Range)
      requires Linked() && Ours(t) && k < |Nodes(t)| && Nodes(t)[k] == n
      modifies this`ranges
      ensures Linked() && Stored(t) == old(Stored(t))[k := r] && ranges.Keys == old(ranges.Keys)
      ensures Stored(Other(t)) == old(Stored(Other(t)))
      ensures ranges[n] == r && forall x :: x in ranges && x != n ==> ranges[x] == old(ranges)[x]
    {
      t.NodesAreIds();
      assert n in Nodes(t);
      RangesFrame(ranges, Nodes(Other(t)), n, r);
      RangesSet(ranges, Nodes(t), k, r);
      ranges := ranges[n := r];
    }

    /** `rb_erase` of the node at position `k`; the node stays allocated. */
    method EraseNode(t: RbTree, n: nat, ghost k: nat)
      requires Linked() && Ours(t) && k < |Nodes(t)| && Nodes(t)[k] == n
      modifies t
      ensures Linked() && Nodes(t) == old(Nodes(t))[..k] + old(Nodes(t))[k + 1..]
      ensures Stored(t) == old(Stored(t))[..k] + old(Stored(t))[k + 1..]
      ensures SameEnd(Nodes(t), old(Nodes(t)), |old(Nodes(t))| - k - 1)
      ensures Stored(Other(t)) == old(Stored(Other(t)))
      ensures n != 0 && n != held && n in ranges && n !in freeNodes && n !in Nodes(memoryMap) && n !in Nodes(freeRanges)
    {
      t.NodesAreIds();
      DropAt(Nodes(t), k);
      RangesDrop(ranges, Nodes(t), k);
      SameEndDrop(Nodes(t), k);
      t.Erase(n, k);
    }

    /** `rb_erase` and `balloc_free_node` */
    method DropNode(t: RbTree, ptr: nat, ghost k: nat)
      requires Linked() && Ours(t) && k < |Nodes(t)| && Nodes(t)[k] == ptr
      modifies this`freeNodes, this`held, t
      ensures Linked() && |freeNodes| == |old(freeNodes)| + 1 && held == old(held) && Count() == old(Count())
      ensures Nodes(t) == old(Nodes(t))[..k] + old(Nodes(t))[k + 1..]
      ensures Stored(t) == old(Stored(t))[..k] + old(Stored(t))[k + 1..]
      ensures SameEnd(Nodes(t), old(Nodes(t)), |old(Nodes(t))| - k - 1)
      ensures Stored(Other(t)) == old(Stored(Other(t)))
    {
      EraseNode(t, ptr, k);
      FreeNode(ptr);
    }

    /** The node `n` holds range `r`, between the ranges `pre` and `post`. */
    ghost predicate Holds(t: RbTree, n: nat, pre: seq<Range>, r: Range, post: seq<Range>)
      reads this, memoryMap, freeRanges
    {
      Linked() && Ours(t) && Stored(t) == pre + [r] + post && Nodes(t)[|pre|] == n && ranges[n] == r
    }

    /** Merges the new range with its predecessor if they touch. */
    method MergePrev(t: RbTree, n: nat, ghost pre: seq<Range>, ghost r: Range, ghost post: seq<Range>)
      returns (ghost pre': seq<Range>, ghost r': Range)
      requires Holds(t, n, pre, r, post)
      modifies this, t
      ensures Holds(t, n, pre', r', post) && |freeNodes| >= |old(freeNodes)| && Count() == old(Count())
      ensures SameEnd(Nodes(t), old(Nodes(t)), |post|)
      ensures Stored(Other(t)) == old(Stored(Other(t)))
      ensures held == old(held) && (held != 0 ==> ranges[held] == old(ranges[held]))
      ensures pre' == if TouchPrev(pre, r) then pre[..|pre| - 1] else pre
      ensures r' == if TouchPrev(pre, r) then WithPrev(pre, r) else r
    {
      pre', r' := pre, r;
      t.NodesAreIds();
      var prev := t.Prev(n, |pre|);
      assert pre != [] ==> prev != 0 && ranges[prev] == Stored(t)[|pre| - 1];
      if prev != 0 && ranges[prev].end >= ranges[n].begin {
        pre', r' := pre[..|pre| - 1], WithPrev(pre, r);
        AbsorbPrev(t, n, prev, pre, r, post);
      }
    }

    method AbsorbPrev(t: RbTree, n: nat, prev: nat, ghost pre: seq<Range>, ghost r: Range, ghost post: seq<Range>)
      requires Holds(t, n, pre, r, post) && pre != [] && Nodes(t)[|pre| - 1] == prev
      modifies this, t
      ensures Holds(t, n, pre[..|pre| - 1], WithPrev(pre, r), post)
      ensures |freeNodes| >= |old(freeNodes)| && Count() == old(Count())
      ensures SameEnd(Nodes(t), old(Nodes(t)), |post|)
      ensures Stored(Other(t)) == old(Stored(Other(t)))
      ensures held == old(held) && (held != 0 ==> ranges[held] == old(ranges[held]))
    {
      WidenNode(t, n, prev, pre, r, post);
      DropBefore(t, n, prev, pre, WithPrev(pre, r), post);
    }

    /** The node takes over the range of its predecessor. */
    method WidenNode(t: RbTree, n: nat, prev: nat, ghost pre: seq<Range>, ghost r: Range, ghost post: seq<Range>)
      requires Holds(t, n, pre, r, post) && pre != [] && Nodes(t)[|pre| - 1] == prev
      modifies this`ranges
      ensures Holds(t, n, pre, WithPrev(pre, r), post)
      ensures Stored(Other(t)) == old(Stored(Other(t)))
      ensures held != 0 ==> ranges[held] == old(ranges[held])
    {
      t.NodesAreIds();
      assert ranges[prev] == Stored(t)[|pre| - 1] && n in Nodes(t);
      var end := if ranges[prev].end > ranges[n].end then ranges[prev].end else ranges[n].end;
      assert (pre + [r] + post)[|pre| := WithPrev(pre, r)] == pre + [WithPrev(pre, r)] + post;
      SetRange(t, n, |pre|, Range(ranges[prev].begin, end));
    }

    /** The predecessor, whose range the node has taken over, erased and freed. */
    method DropBefore(t: RbTree, n: nat, prev: nat, ghost pre: seq<Range>, ghost r: Range, ghost post: seq<Range>)
      requires Holds(t, n, pre, r, post) && pre != [] && Nodes(t)[|pre| - 1] == prev
      modifies this`freeNodes, this`held, t
      ensures Holds(t, n, pre[..|pre| - 1], r, post)
      ensures |freeNodes| >= |old(freeNodes)| && Count() == old(Count())
      ensures SameEnd(Nodes(t), old(Nodes(t)), |post|)
      ensures Stored(Other(t)) == old(Stored(Other(t))) && held == old(held)
    {
      ghost var nodes := Nodes(t);
      DropNode(t, prev, |pre| - 1);
      FirstBehind(nodes, |pre| - 1, |post|);
      DropPrev(pre, r, post);
    }

    /** Merges the new range with its successor if they touch; the end becomes
        the successor's, even when that is smaller. */
    method MergeNext(t: RbTree, n: nat, ghost pre: seq<Range>, ghost r: Range, ghost post: seq<Range>)
      requires Holds(t, n, pre, r, post)
      modifies this, t
      ensures Linked() && |freeNodes| >= |old(freeNodes)| && Count() == old(Count())
      ensures Stored(Other(t)) == old(Stored(Other(t)))
      ensures held == old(held) && (held != 0 ==> ranges[held] == old(ranges[held]))
      ensures Stored(t) == if post != [] && post[0].begin <= r.end then pre + [Range(r.begin, post[0].end)] + post[1..]
                           else pre + [r] + post
      ensures SameEnd(Nodes(t), old(Nodes(t)), if post != [] && post[0].begin <= r.end then |post| - 1 else |post|)
    {
      t.NodesAreIds();
      var next := t.Next(n, |pre|);
      assert post != [] ==> next != 0 && ranges[next] == Stored(t)[|pre| + 1];
      if next != 0 && ranges[next].begin <= ranges[n].end {
        AbsorbNext(t, n, next, pre, r, post);
      }
    }

    method AbsorbNext(t: RbTree, n: nat, next: nat, ghost pre: seq<Range>, ghost r: Range, ghost post: seq<Range>)
      requires Holds(t, n, pre, r, post) && post != [] && Nodes(t)[|pre| + 1] == next
      modifies this, t
      ensures Linked() && |freeNodes| >= |old(freeNodes)| && Count() == old(Count())
      ensures Stored(t) == pre + [Range(r.begin, post[0].end)] + post[1..]
      ensures SameEnd(Nodes(t), old(Nodes(t)), |post| - 1)
      ensures Stored(Other(t)) == old(Stored(Other(t)))
      ensures held == old(held) && (held != 0 ==> ranges[held] == old(ranges[held]))
    {
      t.NodesAreIds();
      assert ranges[next] == Stored(t)[|pre| + 1];
      DropNext(pre, r, post, Range(r.begin, post[0].end));
      SetRange(t, n, |pre|, Range(ranges[n].begin, ranges[next].end));
      DropNode(t, next, |pre| + 1);
    }

    /** `__balloc_add_range` */
    method AddRange(t: RbTree, from: nat, to: nat)
      requires Valid() && Ours(t) && freeNodes != [] && from <= to
      modifies this, t
      ensures Valid() && |freeNodes| >= |old(freeNodes)| - 1
      ensures Stored(t) == Add(old(Stored(t)), from, to)
      ensures SameEnd(Nodes(t), old(Nodes(t)), |Tail(old(Stored(t)), from, to)|)
      ensures Stored(Other(t)) == old(Stored(Other(t)))
      ensures held == old(held) && (held != 0 ==> ranges[held] == old(ranges[held]))
    {
      hide Tail, Add, Position, Linked;
      ghost var s := Stored(t);
      AddInSteps(s, from, to);
      var n;
      ghost var k;
      n, k := InsertNode(t, from, to);
      ghost var n0 := Nodes(t);
      MergeBoth(t, n, s[..k], Range(from, to), s[k..]);
      SameEndTrans(Nodes(t), n0, old(Nodes(t)), |Tail(s, from, to)|, |s| - k);
    }

    method MergeBoth(t: RbTree, n: nat, ghost pre: seq<Range>, ghost r: Range, ghost post: seq<Range>)
      requires Holds(t, n, pre, r, post)
      modifies this, t
      ensures Linked() && |freeNodes| >= |old(freeNodes)| && Count() == old(Count())
      ensures Stored(Other(t)) == old(Stored(Other(t)))
      ensures held == old(held) && (held != 0 ==> ranges[held] == old(ranges[held]))
      ensures Stored(t) == Merged(pre, r, post)
      ensures SameEnd(Nodes(t), old(Nodes(t)), Kept(pre, r, post))
    {
      ghost var pre', r';
      pre', r' := MergePrev(t, n, pre, r, post);
      ghost var n1 := Nodes(t);
      MergeNext(t, n, pre', r', post);
      SameEndTrans(Nodes(t), n1, old(Nodes(t)), Kept(pre, r, post), |post|);
    }

    /** The descent to the first range that ends after `from`. */
    method FindEnding(t: RbTree, from: nat) returns (ptr: nat, ghost m: nat)
      requires Valid() && Ours(t)
      ensures m <= |Nodes(t)| && ptr == if m < |Nodes(t)| then Nodes(t)[m] else 0
      ensures forall r :: r in Stored(t)[..m] ==> r.end <= from
      ensures forall r :: r in Stored(t)[m..] ==> r.end > from
    {
      var link := t.root;
      ptr := 0;
      ghost var c, u := Top, t.tree;
      while link != 0
        invariant Focus(t.nodes, t.root, c, u) && Plug(c, u) == t.tree && link == Ptr(u)
        invariant ptr == RedBlackTree.Head(After(c))
        invariant forall y :: y in Before(c) ==> y in ranges && ranges[y].end <= from
        invariant forall y :: y in After(c) ==> y in ranges && ranges[y].end > from
        decreases u
      {
        t.AtChildren(c, u);
        Move(t.nodes, t.root, c, u);
        Descend(ranges, c, u);
        if ranges[link].end > from {
          ptr, link := link, t.nodes[link].left;
          c, u := InLeft(u.id, u.color, u.right, c), u.left;
        } else {
          link := t.nodes[link].right;
          c, u := InRight(u.id, u.color, u.left, c), u.right;
        }
      }
      InorderPlug(c, Leaf);
      m := |Before(c)|;
      EndingSplit(ranges, Before(c), After(c), from);
    }

    /** Replaces the range of a node by what is left outside [lo, hi): the
        common body of removal and allocation. */
    method CutNode(t: RbTree, ptr: nat, ghost m: nat, lo: nat, hi: nat)
      requires Valid() && Ours(t) && m < |Nodes(t)| && Nodes(t)[m] == ptr && held == 0
      requires lo <= hi && Stored(t)[m].begin < hi && lo < Stored(t)[m].end
      requires |freeNodes| >= CutNeed(Stored(t)[m], lo, hi)
      modifies this, t
      ensures Valid() && held == 0 && Stored(Other(t)) == old(Stored(Other(t)))
      ensures var s := old(Stored(t)); Stored(t) == s[..m] + Cut(s[m], lo, hi) + s[m + 1..]
      ensures SameEnd(Nodes(t), old(Nodes(t)), |old(Nodes(t))| - m - 1)
      ensures |freeNodes| >= |old(freeNodes)| - 1
      ensures !(old(Stored(t))[m].begin < lo && hi < old(Stored(t))[m].end) ==> |freeNodes| >= |old(freeNodes)|
    {
      ghost var n := |Nodes(t)| - m - 1;
      CutInSteps(Stored(t), m, lo, hi);
      HoldNode(t, ptr, m);
      ghost var n0 := Nodes(t);
      AddBack(t, ptr, lo, hi, n);
      SameEndTrans(Nodes(t), n0, old(Nodes(t)), n, n);
    }

    /** Adds back what lies outside [lo, hi) of the range just taken out, and
        frees its node. */
    method AddBack(t: RbTree, ptr: nat, lo: nat, hi: nat, ghost n: nat)
      requires Valid() && Ours(t) && ptr == held != 0 && |freeNodes| >= CutNeed(ranges[ptr], lo, hi)
      requires n <= |Nodes(t)| && (ranges[ptr].begin < lo ==> n <= |Tail(Stored(t), ranges[ptr].begin, lo)|)
      requires hi < ranges[ptr].end ==> n <= |Tail(Ranges.AddIf(Stored(t), ranges[ptr].begin, lo), hi, ranges[ptr].end)|
      modifies this, t
      ensures Valid() && held == 0 && Stored(Other(t)) == old(Stored(Other(t)))
      ensures Stored(t) ==
              Ranges.AddIf(Ranges.AddIf(old(Stored(t)), old(ranges[ptr].begin), lo), hi, old(ranges[ptr].end))
      ensures SameEnd(Nodes(t), old(Nodes(t)), n) && |freeNodes| >= |old(freeNodes)| - 1
      ensures !(old(ranges[ptr].begin) < lo && hi < old(ranges[ptr].end)) ==> |freeNodes| >= |old(freeNodes)|
    {
      hide SameEnd, Tail, Add, Separated;
      AddIf(t, ranges[ptr].begin, lo, n);
      ghost var n1 := Nodes(t);
      AddIf(t, hi, ranges[ptr].end, n);
      FreeNode(ptr);
      SameEndTrans(Nodes(t), n1, old(Nodes(t)), n, n);
    }

    /** `rb_erase`; the node and its range are still needed. */
    method HoldNode(t: RbTree, n: nat, ghost k: nat)
      requires Valid() && Ours(t) && k < |Nodes(t)| && Nodes(t)[k] == n && held == 0
      modifies t, this`held
      ensures Valid() && held == n != 0 && ranges[held] == old(Stored(t))[k]
      ensures Stored(t) == old(Stored(t))[..k] + old(Stored(t))[k + 1..]
      ensures SameEnd(Nodes(t), old(Nodes(t)), |old(Nodes(t))| - k - 1)
      ensures Stored(Other(t)) == old(Stored(Other(t)))
    {
      DropSeparated(Stored(t), k);
      EraseNode(t, n, k);
      held := n;
    }

    /** `if (from < to) __balloc_add_range(tree, from, to);` */
    method AddIf(t: RbTree, from: nat, to: nat, ghost n: nat)
      requires Valid() && Ours(t) && (from < to ==> freeNodes != [])
      requires n <= |Nodes(t)| && (from < to ==> n <= |Tail(Stored(t), from, to)|)
      modifies this, t
      ensures Valid() && |freeNodes| >= |old(freeNodes)| - (if from < to then 1 else 0)
      ensures Stored(t) == Ranges.AddIf(old(Stored(t)), from, to)
      ensures SameEnd(Nodes(t), old(Nodes(t)), n)
      ensures Stored(Other(t)) == old(Stored(Other(t)))
      ensures held == old(held) && (held != 0 ==> ranges[held] == old(ranges[held]))
    {
      if from < to { AddRange(t, from, to); }
    }

    /** `__balloc_remove_range` */
    method RemoveRange(t: RbTree, from: nat, to: nat)
      requires Valid() && Ours(t) && held == 0 && from <= to && NodesFor(Stored(t), from, to, |freeNodes|)
      modifies this, t
      ensures Valid() && held == 0 && |freeNodes| >= |old(freeNodes)| - 1
      ensures Stored(t) == Remove(old(Stored(t)), from, to)
      ensures Stored(Other(t)) == old(Stored(Other(t)))
    {
      hide SameEnd, Separated, Cut, Remove, CutNeed, NodesFor;
      ghost var s := Stored(t);
      var ptr;
      ghost var m;
      ptr, m := FindEnding(t, from);
      RemoveTail(s, m, from, to);
      NodesSkip(s, m, from, to, |freeNodes|);
      RemoveEnding(t, ptr, from, to, s[..m], s[m..]);
    }

    method RemoveEnding(t: RbTree, ptr0: nat, from: nat, to: nat, ghost done0: seq<Range>, ghost rest0: seq<Range>)
      requires Valid() && Ours(t) && held == 0 && from <= to && NodesFor(rest0, from, to, |freeNodes|)
      requires AtNode(t, ptr0, done0, rest0) && Separated(rest0) && forall r :: r in rest0 ==> r.end > from
      modifies this, t
      ensures Valid() && held == 0 && |freeNodes| >= |old(freeNodes)| - 1
      ensures Stored(t) == done0 + Remove(rest0, from, to)
      ensures Stored(Other(t)) == old(Stored(Other(t)))
    {
      hide Cut, Remove, CutNeed, NodesFor, Separated, Linked, Overlaps;
      var ptr := ptr0;
      ghost var done, rest := done0, rest0;
      RangeAt(t, ptr, done, rest);
      while ptr != 0 && ranges[ptr].begin < to
        invariant Valid() && held == 0 && Stored(Other(t)) == old(Stored(Other(t)))
        invariant AtNode(t, ptr, done, rest) && Separated(rest)
        invariant ptr != 0 <==> rest != []
        invariant rest != [] ==> ptr in ranges && ranges[ptr] == rest[0] && rest[0].end > from
        invariant forall r :: r in rest ==> r.end > from
        invariant done + Remove(rest, from, to) == done0 + Remove(rest0, from, to)
        invariant |freeNodes| >= |old(freeNodes)| - 1
        invariant rest != [] && rest[0].begin < to ==> |freeNodes| >= |old(freeNodes)|
        invariant NodesFor(rest, from, to, |freeNodes|)
        decreases rest
      {
        CutFirst(done, rest, from, to);
        NodesStep(rest, from, to, |freeNodes|);
        ptr := RemoveOne(t, ptr, from, to, done, rest);
        assert |rest| > 1 ==> rest[1] in rest[1..];
        done, rest := done + Cut(rest[0], from, to), rest[1..];
        RangeAt(t, ptr, done, rest);
      }
      RestOutside(rest, from, to);
    }

    /** The stored ranges are `done` and `rest`; `ptr` is the first of `rest`. */
    ghost predicate AtNode(t: RbTree, ptr: nat, done: seq<Range>, rest: seq<Range>)
      requires Linked() && Ours(t)
      reads this, memoryMap, freeRanges
    {
      Stored(t) == done + rest && ptr == if rest != [] then Nodes(t)[|done|] else 0
    }

    lemma RangeAt(t: RbTree, ptr: nat, done: seq<Range>, rest: seq<Range>)
      requires Linked() && Ours(t) && AtNode(t, ptr, done, rest)
      ensures ptr != 0 <==> rest != []
      ensures rest != [] ==> ptr in ranges && ranges[ptr] == rest[0] == Stored(t)[|done|]
    {
      t.NodesAreIds();
    }

    /** After the first of `rest` was replaced by `c`, its old successor is the
        first of what remains. */
    lemma NextNode(t: RbTree, next: nat, n0: seq<nat>, done: seq<Range>, rest: seq<Range>, c: seq<Range>)
      requires Linked() && Ours(t) && rest != [] && |n0| == |done| + |rest|
      requires Stored(t) == (done + rest)[..|done|] + c + (done + rest)[|done| + 1..]
      requires SameEnd(Nodes(t), n0, |n0| - |done| - 1) && next == if |rest| > 1 then n0[|done| + 1] else 0
      ensures AtNode(t, next, done + c, rest[1..])
    {
      CutAt(done, rest, c);
      NextKept(Nodes(t), n0, |done|, |c|, |rest|);
    }

    /** One round of removal: returns the next node, found before the cut. */
    method RemoveOne(t: RbTree, ptr: nat, from: nat, to: nat, ghost done: seq<Range>,
        ghost rest: seq<Range>) returns (next: nat)
      requires Valid() && Ours(t) && held == 0 && from <= to
      requires AtNode(t, ptr, done, rest) && rest != [] && rest[0].begin < to && from < rest[0].end
      requires |freeNodes| >= CutNeed(rest[0], from, to)
      modifies this, t
      ensures Valid() && held == 0 && Stored(Other(t)) == old(Stored(Other(t)))
      ensures AtNode(t, next, done + Cut(rest[0], from, to), rest[1..])
      ensures |freeNodes| >= |old(freeNodes)| - 1
      ensures rest[0].end <= to ==> |freeNodes| >= |old(freeNodes)|
      ensures |freeNodes| == |old(freeNodes)| + 1 - |Cut(rest[0], from, to)|
    {
      hide SameEnd, Separated, Cut, CutNeed;
      RangeAt(t, ptr, done, rest);
      next := t.Next(ptr, |done|);
      ghost var n0 := Nodes(t);
      CutNode(t, ptr, |done|, from, to);
      NextNode(t, next, n0, done, rest, Cut(rest[0], from, to));
    }

    /** No address computed by `Alloc` leaves the 64-bit word. */
    ghost predicate NoWrap(size: nat, align: nat, from: nat, to: nat)
      requires Linked()
      reads this, memoryMap, freeRanges
    {
      && from + align + size <= Pow2(64)
      && forall r :: r in Stored(freeRanges) && r.begin < to ==> r.begin + align + size <= Pow2(64)
    }

    /** `(b + mask) & ~mask` with `mask = align - 1`, in 64-bit words. */
    static method RoundUp(b: nat, align: nat, ghost k: nat) returns (addr: nat)
      requires align == Pow2(k) && k <= 64 && b + align <= Pow2(64)
      ensures addr == AlignUp(b, k)
    {
      var mask := align - 1;
      Pow2Monotone(k, 64);
      AndHighMask(b + mask, 64, k);
      addr := And(b + mask, Pow2(64) - 1 - mask);
    }

    /** Where the block would go in one range, and whether it fits there. */
    static method Place(r: Range, size: nat, align: nat, ghost k: nat, from: nat, to: nat)
      returns (fits: bool, addr: nat)
      requires align == Pow2(k) && k <= 64 && from + align <= Pow2(64) && r.begin + align <= Pow2(64)
      ensures addr == Start(r, k, from) && (fits <==> FitsIn(r, size, k, from, to))
    {
      var b := if r.begin > from then r.begin else from;
      var e := if r.end < to then r.end else to;
      addr := RoundUp(b, align, k);
      fits := addr + size <= e;
    }

    /** The search of `__balloc_alloc` for the first range that holds the
        block; 0 if there is none. */
    method FindFit(size: nat, align: nat, ghost k: nat, from: nat, to: nat)
      returns (ptr: nat, addr: nat, ghost m: nat)
      requires Valid() && size > 0 && align == Pow2(k) && k <= 64 && NoWrap(size, align, from, to)
      ensures var s := Stored(freeRanges);
              && m <= |s| && (ptr != 0 <==> m < |s| && s[m].begin < to)
              && Skipped(s, m, size, k, from, to)
              && (ptr != 0 ==> Nodes(freeRanges)[m] == ptr)
              && (ptr != 0 ==> FitsIn(s[m], size, k, from, to) && addr == Start(s[m], k, from))
    {
      ptr, m := FindEnding(freeRanges, from);
      SkippedEarly(Stored(freeRanges), m, size, k, from, to);
      NodeRange(freeRanges, ptr, m);
      ptr, addr, m := SearchFit(ptr, m, size, align, k, from, to);
    }

    /** `ptr` is the node at position `m` of the tree, or 0 behind the last. */
    ghost predicate NodeAt(t: RbTree, ptr: nat, m: nat)
      requires Linked() && Ours(t)
      reads this, memoryMap, freeRanges
    {
      && m <= |Nodes(t)| && (ptr != 0 <==> m < |Nodes(t)|)
      && (ptr != 0 ==> Nodes(t)[m] == ptr && ptr in ranges && ranges[ptr] == Stored(t)[m])
    }

    lemma NodeRange(t: RbTree, ptr: nat, m: nat)
      requires Valid() && Ours(t) && m <= |Nodes(t)| && ptr == if m < |Nodes(t)| then Nodes(t)[m] else 0
      ensures NodeAt(t, ptr, m)
    {
      t.NodesAreIds();
    }

    method SearchFit(ptr0: nat, ghost m0: nat, size: nat, align: nat, ghost k: nat, from: nat, to: nat)
      returns (ptr: nat, addr: nat, ghost m: nat)
      requires Valid() && align == Pow2(k) && k <= 64 && NoWrap(size, align, from, to)
      requires NodeAt(freeRanges, ptr0, m0) && Skipped(Stored(freeRanges), m0, size, k, from, to)
      ensures var s := Stored(freeRanges);
              && m <= |s| && (ptr != 0 <==> m < |s| && s[m].begin < to)
              && Skipped(s, m, size, k, from, to)
              && (ptr != 0 ==> Nodes(freeRanges)[m] == ptr)
              && (ptr != 0 ==> FitsIn(s[m], size, k, from, to) && addr == Start(s[m], k, from))
    {
      hide FitsIn, Start, SameEnd, Linked;
      ghost var s := Stored(freeRanges);
      ptr, m, addr := ptr0, m0, to;
      while ptr != 0 && ranges[ptr].begin < to
        invariant NodeAt(freeRanges, ptr, m) && Skipped(s, m, size, k, from, to)
        decreases |s| - m
      {
        var fits, next;
        fits, addr, next := TryNode(ptr, m, size, align, k, from, to);
        if fits { return; }
        SkipOne(s, m, size, k, from, to);
        ptr := next;
        m := m + 1;
      }
      ptr := 0;
    }

    method TryNode(ptr: nat, ghost m: nat, size: nat, align: nat, ghost k: nat, from: nat, to: nat)
      returns (fits: bool, addr: nat, next: nat)
      requires Valid() && align == Pow2(k) && k <= 64 && NoWrap(size, align, from, to)
      requires NodeAt(freeRanges, ptr, m) && ptr != 0 && ranges[ptr].begin < to
      ensures var r := Stored(freeRanges)[m]; addr == Start(r, k, from) && (fits <==> FitsIn(r, size, k, from, to))
      ensures NodeAt(freeRanges, next, m + 1)
    {
      ghost var r := Stored(freeRanges)[m];
      assert r in Stored(freeRanges) && r.begin <= r.end;
      fits, addr := Place(ranges[ptr], size, align, k, from, to);
      next := freeRanges.Next(ptr, m);
      NodeRange(freeRanges, next, m + 1);
    }

    /** The free nodes are enough to take out what the search will find; two always are. */
    ghost predicate NodesToAlloc(size: nat, k: nat, from: nat, to: nat)
      requires Linked()
      reads this, memoryMap, freeRanges
    {
      forall addr: nat :: IsLowestFit(Stored(freeRanges), size, k, from, to, addr) ==>
        NodesFor(Stored(freeRanges), addr, addr + size, |freeNodes|)
    }

    lemma TwoNodes(size: nat, k: nat, from: nat, to: nat)
      requires Valid() && |freeNodes| >= 2
      ensures NodesToAlloc(size, k, from, to)
    {
      forall addr: nat | IsLowestFit(Stored(freeRanges), size, k, from, to, addr)
        ensures NodesFor(Stored(freeRanges), addr, addr + size, |freeNodes|)
      {
        TwoSuffice(Stored(freeRanges), addr, addr + size, |freeNodes|);
      }
    }

    lemma NodesFound(m: nat, size: nat, k: nat, from: nat, to: nat, addr: nat)
      requires Valid() && NodesToAlloc(size, k, from, to) && m < |Stored(freeRanges)| && size > 0
      requires IsLowestFit(Stored(freeRanges), size, k, from, to, addr)
      requires Stored(freeRanges)[m].begin <= addr && addr + size <= Stored(freeRanges)[m].end
      ensures |freeNodes| >= CutNeed(Stored(freeRanges)[m], addr, addr + size)
    {
      var s := Stored(freeRanges);
      assert forall r :: r in s[..m] ==> r.end < s[m].begin;
      NodesSkip(s, m, addr, addr + size, |freeNodes|);
    }

    /** `__balloc_alloc`: the lowest aligned block inside [from, to) is taken
        out of the free ranges; `to` means that there is none. */
    method Alloc(size: nat, align: nat, ghost k: nat, from: nat, to: nat) returns (addr: nat)
      requires Valid() && held == 0 && NodesToAlloc(size, k, from, to)
      requires size > 0 && align == Pow2(k) && k <= 64 && NoWrap(size, align, from, to)
      modifies this, freeRanges
      ensures Valid() && held == 0 && Stored(memoryMap) == old(Stored(memoryMap))
      ensures addr == to <==> NothingFits(old(Stored(freeRanges)), size, k, from, to)
      ensures addr == to ==> Stored(freeRanges) == old(Stored(freeRanges))
      ensures addr != to ==> IsLowestFit(old(Stored(freeRanges)), size, k, from, to, addr)
      ensures addr != to ==> Stored(freeRanges) == Remove(old(Stored(freeRanges)), addr, addr + size)
      ensures |freeNodes| >= |old(freeNodes)| - 1
    {
      hide IsLowestFit, NothingFits, Skipped, FitsIn, Remove, Cut, NoWrap, SameEnd, Separated, NodesToAlloc, CutNeed;
      ghost var s := Stored(freeRanges);
      var ptr;
      ghost var m;
      ptr, addr, m := FindFit(size, align, k, from, to);
      if ptr == 0 {
        NoneFits(s, m, size, k, from, to);
        return to;
      }
      FoundFit(s, m, size, k, from, to, addr);
      NodesFound(m, size, k, from, to, addr);
      CutNode(freeRanges, ptr, m, addr, addr + size);
    }

    /** `balloc_alloc`: the alignment follows the size. */
    method AllocDefault(size: nat, from: nat, to: nat) returns (addr: nat)
      requires Valid() && held == 0 && size > 0 && NoWrap(size, 64, from, to)
      requires NodesToAlloc(size, Shift(size), from, to)
      modifies this, freeRanges
      ensures Valid() && held == 0 && Stored(memoryMap) == old(Stored(memoryMap))
      ensures addr == to <==> NothingFits(old(Stored(freeRanges)), size, Shift(size), from, to)
      ensures addr == to ==> Stored(freeRanges) == old(Stored(freeRanges))
      ensures addr != to ==> IsLowestFit(old(Stored(freeRanges)), size, Shift(size), from, to, addr)
      ensures addr != to ==> Stored(freeRanges) == Remove(old(Stored(freeRanges)), addr, addr + size)
      ensures |freeNodes| >= |old(freeNodes)| - 1
    {
      var align := 64;
      if size <= 32 { align := 32; }
      if size <= 16 { align := 16; }
      if size <= 8 { align := 8; }
      ShiftIs(size);
      hide IsLowestFit, NothingFits, Remove, Separated, Shift, Pow2;
      addr := Alloc(size, align, Shift(size), from, to);
    }

    lemma TreeValid(t: RbTree)
      requires Linked() && Ours(t)
      ensures t.Valid()
    {
    }

    /** `rb_leftmost` and then `rb_next` to the end: the stored ranges in order. */
    method List(t: RbTree) returns (s: seq<Range>)
      requires Valid() && Ours(t)
      ensures s == Stored(t)
    {
      hide Linked, Separated;
      TreeValid(t);
      s := [];
      var ptr := t.Leftmost();
      NodeRange(t, ptr, 0);
      while ptr != 0
        invariant NodeAt(t, ptr, |s|) && s == Stored(t)[..|s|]
        decreases |Nodes(t)| - |s|
      {
        ghost var i := |s|;
        s := s + [ranges[ptr]];
        ptr := t.Next(ptr, i);
        NodeRange(t, ptr, i + 1);
      }
    }
  }

  /** The logarithm of the alignment of a block of this size. */
  function Shift(size: nat): nat
  {
    if size <= 8 then 3 else if size <= 16 then 4 else if size <= 32 then 5 else 6
  }

  lemma ShiftIs(size: nat)
    ensures Shift(size) <= 64 && Pow2(Shift(size)) <= 64
    ensures Pow2(Shift(size)) == if size <= 8 then 8 else if size <= 16 then 16 else if size <= 32 then 32 else 64
  {
    assert Pow2(3) == 8 && Pow2(4) == 16 && Pow2(5) == 32 && Pow2(6) == 64;
  }

  lemma OneMoreNode(a: seq<nat>, n: nat, b: seq<nat>)
    ensures forall x :: x in a + [n] + b <==> x == n || x in a + b
    ensures (a + [n] + b)[|a|] == n
  {
  }

  lemma EndingSplit(ranges: map<nat, Range>, a: seq<nat>, b: seq<nat>, from: nat)
    requires forall y :: y in a ==> y in ranges && ranges[y].end <= from
    requires forall y :: y in b ==> y in ranges && ranges[y].end > from
    ensures forall y :: y in a + [] + b ==> y in ranges
    ensures var s := RangesOf(ranges, a + [] + b);
            && (forall r :: r in s[..|a|] ==> r.end <= from) && (forall r :: r in s[|a|..] ==> r.end > from)
  {
    assert a + [] + b == a + b;
    RangesConcat(ranges, a, b);
  }

  predicate TouchPrev(pre: seq<Range>, r: Range) { pre != [] && pre[|pre| - 1].end >= r.begin }

  function WithPrev(pre: seq<Range>, r: Range): Range
    requires pre != []
  {
    Range(pre[|pre| - 1].begin, if pre[|pre| - 1].end > r.end then pre[|pre| - 1].end else r.end)
  }

  /** A new range after it swallowed its predecessor, if they touch. */
  function Swollen(pre: seq<Range>, r: Range): Range { if TouchPrev(pre, r) then WithPrev(pre, r) else r }

  predicate TouchNext(pre: seq<Range>, r: Range, post: seq<Range>)
  {
    post != [] && post[0].begin <= Swollen(pre, r).end
  }

  /** The list after the new range `r` was merged with its neighbours. */
  function Merged(pre: seq<Range>, r: Range, post: seq<Range>): seq<Range>
  {
    var pre' := if TouchPrev(pre, r) then pre[..|pre| - 1] else pre;
    if TouchNext(pre, r, post) then pre' + [Range(Swollen(pre, r).begin, post[0].end)] + post[1..]
    else pre' + [Swollen(pre, r)] + post
  }

  /** How many ranges at the end are not involved. */
  function Kept(pre: seq<Range>, r: Range, post: seq<Range>): nat
  {
    if TouchNext(pre, r, post) then |post| - 1 else |post|
  }

  lemma AddInSteps(s: seq<Range>, from: nat, to: nat)
    requires Separated(s) && from <= to
    ensures Separated(Add(s, from, to))
    ensures var k := Position(s, from);
            && Merged(s[..k], Range(from, to), s[k..]) == Add(s, from, to)
            && Kept(s[..k], Range(from, to), s[k..]) == |Tail(s, from, to)|
  {
    hide Separated;
    AddSeparated(s, from, to);
    var k := Position(s, from);
    if k > 0 { assert s[..k][..k - 1] == s[..k - 1]; }
    if k < |s| { assert s[k..][1..] == s[k + 1..]; }
  }

  lemma DropPrev<T>(pre: seq<T>, r: T, post: seq<T>)
    requires pre != []
    ensures var s := pre + [r] + post; s[..|pre| - 1] + s[|pre|..] == pre[..|pre| - 1] + [r] + post
  {
  }

  lemma DropNext<T>(pre: seq<T>, r: T, post: seq<T>, r': T)
    requires post != []
    ensures var s := (pre + [r] + post)[|pre| := r'];
            s[..|pre| + 1] + s[|pre| + 2..] == pre + [r'] + post[1..]
  {
  }

  /** Going right (left) at a node of the descent leaves smaller (larger)
      ranges behind. */
  lemma Descend(ranges: map<nat, Range>, c: Ctx, u: Tree)
    requires u.Node? && (forall x :: x in Inorder(Plug(c, u)) ==> x in ranges)
    requires Separated(RangesOf(ranges, Inorder(Plug(c, u))))
    ensures u.id in ranges
    ensures forall y :: y in Before(InRight(u.id, u.color, u.left, c)) ==>
              y in ranges && ranges[y].begin <= ranges[u.id].begin && ranges[y].end <= ranges[u.id].end
    ensures forall y :: y in After(InLeft(u.id, u.color, u.right, c)) ==>
              y in ranges && ranges[u.id].begin <= ranges[y].begin && ranges[u.id].end <= ranges[y].end
  {
    InorderPlug(c, u);
    AroundNode(Before(c), Inorder(u.left), u.id, Inorder(u.right), After(c));
    var a, b := Before(c) + Inorder(u.left), Inorder(u.right) + After(c);
    assert Inorder(Plug(c, u)) == a + [u.id] + b;
    SortedAround(ranges, a, u.id, b);
    assert u.id in a + [u.id] + b;
    assert forall y :: y in Before(InRight(u.id, u.color, u.left, c)) ==> y in a || y == u.id;
    assert forall y :: y in After(InLeft(u.id, u.color, u.right, c)) ==> y in b || y == u.id;
  }

  lemma RangesConcat(ranges: map<nat, Range>, a: seq<nat>, b: seq<nat>)
    requires (forall x :: x in a ==> x in ranges) && (forall x :: x in b ==> x in ranges)
    ensures forall x :: x in a + b ==> x in ranges
    ensures RangesOf(ranges, a + b) == RangesOf(ranges, a) + RangesOf(ranges, b)
  {
  }

  lemma RangesFrame(ranges: map<nat, Range>, a: seq<nat>, n: nat, r: Range)
    requires (forall x :: x in a ==> x in ranges) && n !in a
    ensures RangesOf(ranges[n := r], a) == RangesOf(ranges, a)
  {
  }

  lemma RangesSet(ranges: map<nat, Range>, a: seq<nat>, k: nat, r: Range)
    requires (forall x :: x in a ==> x in ranges) && NoDup(a) && k < |a|
    ensures RangesOf(ranges[a[k] := r], a) == RangesOf(ranges, a)[k := r]
  {
  }

  lemma DropAt(s: seq<nat>, k: nat)
    requires NoDup(s) && k < |s|
    ensures s[k] !in s[..k] + s[k + 1..] && forall x :: x in s[..k] + s[k + 1..] ==> x in s
  {
  }

  lemma RangesDrop(ranges: map<nat, Range>, a: seq<nat>, k: nat)
    requires (forall x :: x in a ==> x in ranges) && k < |a|
    ensures forall x :: x in a[..k] + a[k + 1..] ==> x in ranges
    ensures var s := RangesOf(ranges, a); RangesOf(ranges, a[..k] + a[k + 1..]) == s[..k] + s[k + 1..]
  {
    RangesConcat(ranges, a[..k], a[k + 1..]);
  }

  lemma RangesBetween(ranges: map<nat, Range>, a: seq<nat>, n: nat, b: seq<nat>)
    requires (forall x :: x in a ==> x in ranges) && (forall x :: x in b ==> x in ranges) && n in ranges
    ensures (forall x :: x in a + b ==> x in ranges) && (forall x :: x in a + [n] + b ==> x in ranges)
    ensures var s := RangesOf(ranges, a + b);
            RangesOf(ranges, a + [n] + b) == s[..|a|] + [ranges[n]] + s[|a|..]
  {
    RangesConcat(ranges, a, b);
    RangesConcat(ranges, a, [n]);
    RangesConcat(ranges, a + [n], b);
    assert RangesOf(ranges, [n]) == [ranges[n]];
  }

  lemma PositionSplit(ranges: map<nat, Range>, a: seq<nat>, b: seq<nat>, from: nat)
    requires forall y :: y in a ==> y in ranges && ranges[y].begin < from
    requires forall y :: y in b ==> y in ranges && ranges[y].begin >= from
    ensures a + [] + b == a + b && (forall y :: y in a + b ==> y in ranges)
    ensures Position(RangesOf(ranges, a + b), from) == |a|
  {
    RangesConcat(ranges, a, b);
    PositionUnique(RangesOf(ranges, a + b), from, |a|);
  }

  lemma SortedAround(ranges: map<nat, Range>, a: seq<nat>, x: nat, b: seq<nat>)
    requires forall y :: y in a + [x] + b ==> y in ranges
    requires Separated(RangesOf(ranges, a + [x] + b))
    ensures forall y :: y in a ==> y in ranges && ranges[y].end < ranges[x].begin
    ensures forall y :: y in b ==> y in ranges && ranges[x].end < ranges[y].begin
    ensures x in ranges && forall y :: y in a + [x] + b ==> ranges[y].begin <= ranges[y].end
  {
    var ids := a + [x] + b;
    var s := RangesOf(ranges, ids);
    assert ids[|a|] == x;
    forall y | y in a ensures y in ranges && ranges[y].end < ranges[x].begin {
      var i :| 0 <= i < |a| && a[i] == y;
      assert ids[i] == y && s[i].end < s[|a|].begin;
    }
    forall y | y in b ensures y in ranges && ranges[x].end < ranges[y].begin {
      var i :| 0 <= i < |b| && b[i] == y;
      assert ids[|a| + 1 + i] == y && s[|a|].end < s[|a| + 1 + i].begin;
    }
    forall y | y in ids ensures ranges[y].begin <= ranges[y].end {
      var i :| 0 <= i < |ids| && ids[i] == y;
      assert s[i].begin <= s[i].end;
    }
  }
}
