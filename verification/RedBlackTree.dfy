/** The intrusive red-black tree: nodes linked by left, right and parent
    pointers, rebalanced in place. */
module RedBlackTree {
  import opened Lists
  import opened RbModel

  /** `struct rb_node`; 0 is the null pointer.  The colour, which the source
      packs into the low bit of `parent`, is a field of its own. */
  datatype RbNode = RbNode(left: nat, right: nat, parent: nat, color: Color)

  type Heap = map<nat, RbNode>

  // ---- how the pointers represent trees and contexts ----

  /** The nodes reachable from `p` are the tree `t`, below parent `par`. */
  ghost predicate IsTree(h: Heap, t: Tree, p: nat, par: nat)
  {
    match t
    case Leaf => p == 0
    case Node(l, id, color, r) =>
      && p == id && id != 0 && id in h && h[id].parent == par && h[id].color == color
      && IsTree(h, l, h[id].left, id) && IsTree(h, r, h[id].right, id)
  }

  /** The nodes around the subtree at `hole`, whose parent is `par`. */
  ghost predicate IsCtx(h: Heap, c: Ctx, hole: nat, par: nat, root: nat)
  {
    match c
    case Top => hole == root && par == 0
    case InLeft(id, color, other, up) =>
      && par == id && id != 0 && id in h && h[id].color == color && h[id].left == hole
      && IsTree(h, other, h[id].right, id) && IsCtx(h, up, id, h[id].parent, root)
    case InRight(id, color, other, up) =>
      && par == id && id != 0 && id in h && h[id].color == color && h[id].right == hole
      && IsTree(h, other, h[id].left, id) && IsCtx(h, up, id, h[id].parent, root)
  }

  ghost predicate SameOutside(h: Heap, h': Heap, changed: set<nat>)
  {
    forall i :: i in h && i !in changed ==> i in h' && h'[i] == h[i]
  }

  lemma {:induction false} TreeFrame(h: Heap, h': Heap, changed: set<nat>, t: Tree, p: nat, par: nat)
    requires SameOutside(h, h', changed) && Ids(t) !! changed && IsTree(h, t, p, par)
    ensures IsTree(h', t, p, par)
  {
    match t
    case Leaf =>
    case Node(l, id, _, r) =>
      TreeFrame(h, h', changed, l, h[id].left, id);
      TreeFrame(h, h', changed, r, h[id].right, id);
  }

  lemma {:induction false} CtxFrame(h: Heap, h': Heap, changed: set<nat>, c: Ctx, hole: nat, par: nat, root: nat)
    requires SameOutside(h, h', changed) && CtxIds(c) !! changed && IsCtx(h, c, hole, par, root)
    ensures IsCtx(h', c, hole, par, root)
  {
    match c
    case Top =>
    case InLeft(id, _, other, up) =>
      TreeFrame(h, h', changed, other, h[id].right, id);
      CtxFrame(h, h', changed, up, id, h[id].parent, root);
    case InRight(id, _, other, up) =>
      TreeFrame(h, h', changed, other, h[id].left, id);
      CtxFrame(h, h', changed, up, id, h[id].parent, root);
  }

  /** Whatever avoids the changed nodes is still represented. */
  lemma Frames(h: Heap, h': Heap, changed: set<nat>)
    requires SameOutside(h, h', changed)
    ensures forall t, p, par :: IsTree(h, t, p, par) && Ids(t) !! changed ==> IsTree(h', t, p, par)
    ensures forall c, p, par, root :: IsCtx(h, c, p, par, root) && CtxIds(c) !! changed ==> IsCtx(h', c, p, par, root)
  {
    forall t, p, par | IsTree(h, t, p, par) && Ids(t) !! changed ensures IsTree(h', t, p, par) {
      TreeFrame(h, h', changed, t, p, par);
    }
    forall c, p, par, root | IsCtx(h, c, p, par, root) && CtxIds(c) !! changed ensures IsCtx(h', c, p, par, root) {
      CtxFrame(h, h', changed, c, p, par, root);
    }
  }

  function Ptr(t: Tree): nat { if t.Leaf? then 0 else t.id }

  function Par(c: Ctx): nat { if c.Top? then 0 else c.id }

  /** The pointers represent `Plug(c, t)`, looked at from the subtree `t`. */
  ghost predicate Focus(h: Heap, root: nat, c: Ctx, t: Tree)
  {
    Apart(c, t) && IsTree(h, t, Ptr(t), Par(c)) && IsCtx(h, c, Ptr(t), Par(c), root)
  }

  lemma PtrPar(h: Heap, root: nat)
    ensures forall t, p, par :: IsTree(h, t, p, par) ==> p == Ptr(t)
    ensures forall c, p, par :: IsCtx(h, c, p, par, root) ==> par == Par(c)
  {
  }

  /** Moving the focus to a child or back to the parent. */
  lemma Move(h: Heap, root: nat, c: Ctx, t: Tree)
    requires t.Node?
    ensures Focus(h, root, c, t) <==> Focus(h, root, InLeft(t.id, t.color, t.right, c), t.left)
    ensures Focus(h, root, c, t) <==> Focus(h, root, InRight(t.id, t.color, t.left, c), t.right)
  {
    PtrPar(h, root);
    assert Apart(c, t) <==> Apart(InLeft(t.id, t.color, t.right, c), t.left);
    assert Apart(c, t) <==> Apart(InRight(t.id, t.color, t.left, c), t.right);
    var d := InLeft(t.id, t.color, t.right, c);
    if Focus(h, root, c, t) {
      assert IsTree(h, t.left, h[t.id].left, t.id);
      assert IsCtx(h, c, t.id, h[t.id].parent, root);
      assert IsTree(h, t.left, Ptr(t.left), t.id);
      assert IsTree(h, t.right, h[t.id].right, t.id);
      assert IsCtx(h, d, Ptr(t.left), t.id, root);
    }
    if Focus(h, root, d, t.left) {
      assert IsCtx(h, c, t.id, h[t.id].parent, root);
      assert IsTree(h, t, t.id, Par(c));
    }
  }

  /** All focuses on the same tree are equivalent. */
  lemma {:induction false} Refocus(h: Heap, root: nat, c: Ctx, t: Tree)
    ensures Focus(h, root, c, t) <==> Focus(h, root, Top, Plug(c, t))
    decreases c
  {
    match c
    case Top =>
    case InLeft(id, color, other, up) =>
      Move(h, root, up, Node(t, id, color, other));
      Refocus(h, root, up, Node(t, id, color, other));
    case InRight(id, color, other, up) =>
      Move(h, root, up, Node(other, id, color, t));
      Refocus(h, root, up, Node(other, id, color, t));
  }

  /** The root pointer lies in the context unless the context is empty. */
  lemma {:induction false} RootInCtx(h: Heap, c: Ctx, p: nat, par: nat, root: nat)
    requires IsCtx(h, c, p, par, root) && !c.Top?
    ensures root in CtxIds(c) && root != 0
  {
    if !c.up.Top? { RootInCtx(h, c.up, c.id, h[c.id].parent, root); }
  }

  lemma {:induction false} NullIsNoNode(h: Heap, t: Tree, p: nat, par: nat)
    requires IsTree(h, t, p, par)
    ensures 0 !in Ids(t)
  {
    match t
    case Leaf =>
    case Node(l, id, _, r) =>
      NullIsNoNode(h, l, h[id].left, id);
      NullIsNoNode(h, r, h[id].right, id);
  }

  lemma Reparent(h: Heap, t: Tree, p: nat, par: nat, par': nat)
    requires IsTree(h, t, p, par) && Distinct(t) && p != 0
    ensures IsTree(h[p := h[p].(parent := par')], t, p, par')
  {
    Frames(h, h[p := h[p].(parent := par')], {p});
  }

  /** The pointers after a left rotation of `t`: the middle subtree moved in
      `h1`, then only `x`, `r` and their parent `p` changed. */
  lemma RotatedLeftTree(h: Heap, h1: Heap, h2: Heap, t: Tree, p: nat)
    requires t.Node? && t.right.Node? && Distinct(t) && p !in Ids(t)
    requires IsTree(h, t, t.id, p) && t.right.id in h1 && t.id in h1 && IsTree(h1, t.right.left, h1[t.id].right, t.id)
    requires SameOutside(h, h1, {t.id} + Ids(t.right.left)) && SameOutside(h1, h2, {t.id, t.right.id, p})
    requires t.id in h2 && h2[t.id] == h[t.id].(right := h1[t.id].right, parent := t.right.id)
    requires t.right.id in h && t.right.id in h2 && h2[t.right.id] == h[t.right.id].(left := t.id, parent := p)
    ensures IsTree(h2, RotatedLeft(t), t.right.id, p)
  {
    var x, r := t.id, t.right.id;
    assert Distinct(t.right) && IsTree(h, t.right, r, x);
    TreeFrame(h1, h2, {x, r, p}, t.right.left, h1[x].right, x);
    TreeFrame(h, h2, {x, r, p} + Ids(t.right.left), t.left, h[x].left, x);
    TreeFrame(h, h2, {x, r, p} + Ids(t.right.left), t.right.right, h[r].right, r);
  }

  /** The pointers after a right rotation of `t`: the middle subtree moved in
      `h1`, then only `x`, `r` and their parent `p` changed. */
  lemma RotatedRightTree(h: Heap, h1: Heap, h2: Heap, t: Tree, p: nat)
    requires t.Node? && t.left.Node? && Distinct(t) && p !in Ids(t)
    requires IsTree(h, t, t.id, p) && t.left.id in h1 && t.id in h1 && IsTree(h1, t.left.right, h1[t.id].left, t.id)
    requires SameOutside(h, h1, {t.id} + Ids(t.left.right)) && SameOutside(h1, h2, {t.id, t.left.id, p})
    requires t.id in h2 && h2[t.id] == h[t.id].(left := h1[t.id].left, parent := t.left.id)
    requires t.left.id in h && t.left.id in h2 && h2[t.left.id] == h[t.left.id].(right := t.id, parent := p)
    ensures IsTree(h2, RotatedRight(t), t.left.id, p)
  {
    var x, r := t.id, t.left.id;
    assert Distinct(t.left) && IsTree(h, t.left, r, x);
    TreeFrame(h1, h2, {x, r, p}, t.left.right, h1[x].left, x);
    TreeFrame(h, h2, {x, r, p} + Ids(t.left.right), t.right, h[x].right, x);
    TreeFrame(h, h2, {x, r, p} + Ids(t.left.right), t.left.left, h[r].left, r);
  }

  lemma RotatedApart(c: Ctx, t: Tree)
    requires t.Node? && Apart(c, t)
    ensures t.right.Node? ==> Apart(c, RotatedLeft(t))
    ensures t.left.Node? ==> Apart(c, RotatedRight(t))
  {
    assert t.right.Node? ==> Distinct(t.right);
    assert t.left.Node? ==> Distinct(t.left);
  }

  lemma FixEnd(c: Ctx, t: Tree)
    requires (c.Top? && RedBlack(t)) || (Deficit(c, t) && (c.Top? || IsRed(t)))
    ensures RedBlack(Plug(c, Paint(t, Black)))
  {
    if c.Top? && RedBlack(t) { assert Paint(t, Black) == t; } else { DeficitSettled(c, t); }
  }

  /** First element, or null. */
  function Head(s: seq<nat>): nat { if s == [] then 0 else s[0] }

  function Last(s: seq<nat>): nat { if s == [] then 0 else s[|s| - 1] }

  class RbTree {
    var nodes: Heap
    var root: nat
    ghost var tree: Tree

    ghost predicate Valid()
      reads this
    {
      Focus(nodes, root, Top, tree) && RedBlack(tree)
    }

    method SetLeft(n: nat, v: nat)
      requires n in nodes
      modifies this`nodes
      ensures nodes == old(nodes)[n := old(nodes)[n].(left := v)]
    { nodes := nodes[n := nodes[n].(left := v)]; }

    method SetRight(n: nat, v: nat)
      requires n in nodes
      modifies this`nodes
      ensures nodes == old(nodes)[n := old(nodes)[n].(right := v)]
    { nodes := nodes[n := nodes[n].(right := v)]; }

    method SetParent(n: nat, v: nat)
      requires n in nodes
      modifies this`nodes
      ensures nodes == old(nodes)[n := old(nodes)[n].(parent := v)]
    { nodes := nodes[n := nodes[n].(parent := v)]; }

    method SetColor(n: nat, v: Color)
      requires n in nodes
      modifies this`nodes
      ensures nodes == old(nodes)[n := old(nodes)[n].(color := v)]
    { nodes := nodes[n := nodes[n].(color := v)]; }

    /** Makes the parent `p` of the subtree `x` point to `y` instead. */
    method Relink(p: nat, x: nat, y: nat, ghost c: Ctx)
      requires IsCtx(nodes, c, x, p, root) && CtxDistinct(c) && x != 0 && x !in CtxIds(c)
      modifies this
      ensures IsCtx(nodes, c, y, p, root) && nodes.Keys == old(nodes).Keys
      ensures SameOutside(old(nodes), nodes, if p == 0 then {} else {p})
    {
      if p != 0 {
        if nodes[p].left == x { SetLeft(p, y); } else { SetRight(p, y); }
        Frames(old(nodes), nodes, {p});
      } else {
        root := y;
      }
    }

    /** `x->right = v; if (v) rb_set_parent(v, x);` */
    method AttachRight(x: nat, v: nat, ghost b: Tree, ghost par: nat)
      requires x in nodes && x !in Ids(b) && Distinct(b) && IsTree(nodes, b, v, par)
      modifies this`nodes
      ensures nodes.Keys == old(nodes).Keys && SameOutside(old(nodes), nodes, {x} + Ids(b))
      ensures nodes[x] == old(nodes)[x].(right := v) && IsTree(nodes, b, v, x)
    {
      SetRight(x, v);
      Frames(old(nodes), nodes, {x});
      if nodes[x].right != 0 {
        Reparent(nodes, b, v, par, x);
        SetParent(nodes[x].right, x);
      }
    }

    /** `x->left = v; if (v) rb_set_parent(v, x);` */
    method AttachLeft(x: nat, v: nat, ghost b: Tree, ghost par: nat)
      requires x in nodes && x !in Ids(b) && Distinct(b) && IsTree(nodes, b, v, par)
      modifies this`nodes
      ensures nodes.Keys == old(nodes).Keys && SameOutside(old(nodes), nodes, {x} + Ids(b))
      ensures nodes[x] == old(nodes)[x].(left := v) && IsTree(nodes, b, v, x)
    {
      SetLeft(x, v);
      Frames(old(nodes), nodes, {x});
      if nodes[x].left != 0 {
        Reparent(nodes, b, v, par, x);
        SetParent(nodes[x].left, x);
      }
    }

    method RotateLeft(x: nat, ghost c: Ctx, ghost t: Tree)
      requires t.Node? && t.id == x && t.right.Node? && Focus(nodes, root, c, t)
      modifies this
      ensures nodes.Keys == old(nodes).Keys && Focus(nodes, root, c, RotatedLeft(t))
    {
      ghost var b := t.right.left;
      var p := nodes[x].parent;
      var r := nodes[x].right;
      assert Distinct(t.right) && IsTree(nodes, t.right, r, x);
      NullIsNoNode(nodes, t, x, p);
      AttachRight(x, nodes[r].left, b, r);
      ghost var h1 := nodes;
      SetLeft(r, x);
      SetParent(r, p);
      CtxFrame(old(nodes), nodes, {x, r} + Ids(b), c, x, p, root);
      Relink(p, x, r, c);
      ghost var h2 := nodes;
      SetParent(x, r);
      CtxFrame(h2, nodes, {x}, c, r, p, root);
      RotatedLeftTree(old(nodes), h1, nodes, t, p);
      RotatedApart(c, t);
    }

    method RotateRight(x: nat, ghost c: Ctx, ghost t: Tree)
      requires t.Node? && t.id == x && t.left.Node? && Focus(nodes, root, c, t)
      modifies this
      ensures nodes.Keys == old(nodes).Keys && Focus(nodes, root, c, RotatedRight(t))
    {
      ghost var b := t.left.right;
      var p := nodes[x].parent;
      var r := nodes[x].left;
      assert Distinct(t.left) && IsTree(nodes, t.left, r, x);
      NullIsNoNode(nodes, t, x, p);
      AttachLeft(x, nodes[r].right, b, r);
      ghost var h1 := nodes;
      SetRight(r, x);
      SetParent(r, p);
      CtxFrame(old(nodes), nodes, {x, r} + Ids(b), c, x, p, root);
      Relink(p, x, r, c);
      ghost var h2 := nodes;
      SetParent(x, r);
      CtxFrame(h2, nodes, {x}, c, r, p, root);
      RotatedRightTree(old(nodes), h1, nodes, t, p);
      RotatedApart(c, t);
    }

    method PaintAt(n: nat, color: Color, ghost c: Ctx, ghost t: Tree)
      requires t.Node? && t.id == n && Focus(nodes, root, c, t)
      modifies this`nodes
      ensures nodes.Keys == old(nodes).Keys && Focus(nodes, root, c, Paint(t, color))
    {
      SetColor(n, color);
      PaintFacts(t, color);
      CtxFrame(old(nodes), nodes, {n}, c, n, Par(c), root);
      TreeFrame(old(nodes), nodes, {n}, t.left, old(nodes)[n].left, n);
      TreeFrame(old(nodes), nodes, {n}, t.right, old(nodes)[n].right, n);
    }

    /** Repaints the left child of the focused tree. */
    method PaintLeft(n: nat, color: Color, ghost c: Ctx, ghost t: Tree)
      requires t.Node? && t.left.Node? && t.left.id == n && Focus(nodes, root, c, t)
      modifies this`nodes
      ensures nodes.Keys == old(nodes).Keys && Focus(nodes, root, c, t.(left := Paint(t.left, color)))
    {
      ghost var d := InLeft(t.id, t.color, t.right, c);
      Move(nodes, root, c, t);
      PaintAt(n, color, d, t.left);
      Move(nodes, root, c, t.(left := Paint(t.left, color)));
    }

    method PaintRight(n: nat, color: Color, ghost c: Ctx, ghost t: Tree)
      requires t.Node? && t.right.Node? && t.right.id == n && Focus(nodes, root, c, t)
      modifies this`nodes
      ensures nodes.Keys == old(nodes).Keys && Focus(nodes, root, c, t.(right := Paint(t.right, color)))
    {
      ghost var d := InRight(t.id, t.color, t.left, c);
      Move(nodes, root, c, t);
      PaintAt(n, color, d, t.right);
      Move(nodes, root, c, t.(right := Paint(t.right, color)));
    }

    /** What the pointers say around a node below a red parent. */
    lemma AtGrandparent(c: Ctx, t: Tree)
      requires Focus(nodes, root, c, t) && RedHole(c, t) && !c.Top? && c.color == Red
      ensures !c.up.Top? && Focus(nodes, root, c.up.up, Above(c.up, Above(c, t)))
      ensures Focus(nodes, root, c.up, Above(c, t))
      ensures c.id in nodes && c.up.id in nodes && nodes[c.id].parent == c.up.id
      ensures nodes[c.up.id].left == c.id <==> c.up.InLeft?
      ensures nodes[c.up.id].right == (if c.up.InLeft? then Ptr(c.up.other) else c.id)
      ensures nodes[c.up.id].left == (if c.up.InRight? then Ptr(c.up.other) else c.id)
      ensures nodes[c.id].left == t.id <==> c.InLeft?
      ensures nodes[c.id].right == t.id <==> c.InRight?
      ensures c.up.other.Node? ==> c.up.other.id in nodes && nodes[c.up.other.id].color == c.up.other.color
    {
      Move(nodes, root, c.up, Above(c, t));
      Move(nodes, root, c.up.up, Above(c.up, Above(c, t)));
      var u := c.up.other;
      assert IsCtx(nodes, c.up, c.id, nodes[c.id].parent, root);
    }

    /** Left parent, black uncle: one or two rotations end the repair. */
    method SettleLeft(node: nat, parent: nat, g: nat, ghost c0: Ctx, ghost t0: Tree) returns (ghost s: Tree)
      requires Focus(nodes, root, c0, t0) && RedHole(c0, t0) && !c0.Top? && c0.color == Red
      requires node == t0.id && parent == c0.id && !c0.up.Top? && g == c0.up.id
      requires c0.up.InLeft? && !IsRed(c0.up.other)
      modifies this
      ensures nodes.Keys == old(nodes).Keys && Focus(nodes, root, c0.up.up, s)
      ensures s.Node? && RedBlack(Plug(c0.up.up, s)) && Inorder(Plug(c0.up.up, s)) == Inorder(Plug(c0, t0))
    {
      ghost var c, t := c0, t0;
      ghost var up := c.up.up;
      var p := parent;
      AtGrandparent(c, t);
      if node == nodes[p].right {
        InnerStep(c, t);
        RotateLeft(p, c.up, Above(c, t));
        ghost var r := RotatedLeft(Above(c, t));
        Move(nodes, root, c.up, r);
        c, t := InLeft(r.id, r.color, r.right, c.up), r.left;
        p := node;
        AtGrandparent(c, t);
      }
      OuterStep(c, t);
      ghost var q := Above(c.up, Above(c, t));
      RotateRight(g, up, q);
      q := RotatedRight(q);
      PaintAt(p, Black, up, q);
      PaintRight(g, Red, up, Paint(q, Black));
      s := Settled(q, true);
      InorderPlugSame(up, Above(c0.up, Above(c0, t0)), s);
    }

    /** Right parent, black uncle: one or two rotations end the repair. */
    method SettleRight(node: nat, parent: nat, g: nat, ghost c0: Ctx, ghost t0: Tree) returns (ghost s: Tree)
      requires Focus(nodes, root, c0, t0) && RedHole(c0, t0) && !c0.Top? && c0.color == Red
      requires node == t0.id && parent == c0.id && !c0.up.Top? && g == c0.up.id
      requires c0.up.InRight? && !IsRed(c0.up.other)
      modifies this
      ensures nodes.Keys == old(nodes).Keys && Focus(nodes, root, c0.up.up, s)
      ensures s.Node? && RedBlack(Plug(c0.up.up, s)) && Inorder(Plug(c0.up.up, s)) == Inorder(Plug(c0, t0))
    {
      ghost var c, t := c0, t0;
      ghost var up := c.up.up;
      var p := parent;
      AtGrandparent(c, t);
      if node == nodes[p].left {
        InnerStep(c, t);
        RotateRight(p, c.up, Above(c, t));
        ghost var r := RotatedRight(Above(c, t));
        Move(nodes, root, c.up, r);
        c, t := InRight(r.id, r.color, r.left, c.up), r.right;
        p := node;
        AtGrandparent(c, t);
      }
      OuterStep(c, t);
      ghost var q := Above(c.up, Above(c, t));
      RotateLeft(g, up, q);
      q := RotatedLeft(q);
      PaintAt(p, Black, up, q);
      PaintLeft(g, Red, up, Paint(q, Black));
      s := Settled(q, false);
      InorderPlugSame(up, Above(c0.up, Above(c0, t0)), s);
    }

    /** Red parent `p` on the left and red uncle `r`. */
    method FlipLeft(g: nat, p: nat, r: nat, ghost c: Ctx, ghost t: Tree) returns (ghost q: Tree)
      requires Focus(nodes, root, c, t) && RedHole(c, t) && !c.Top? && c.color == Red && p == c.id
      requires c.up.InLeft? && g == c.up.id && IsRed(c.up.other) && r == c.up.other.id
      modifies this`nodes
      ensures nodes.Keys == old(nodes).Keys && q.Node? && q.id == g && Focus(nodes, root, c.up.up, q)
      ensures RedHole(c.up.up, q) && Inorder(Plug(c.up.up, q)) == Inorder(Plug(c, t))
    {
      FlipStep(c, t);
      AtGrandparent(c, t);
      ghost var up, q0 := c.up.up, Above(c.up, Above(c, t));
      PaintAt(g, Red, up, q0);
      PaintLeft(p, Black, up, Paint(q0, Red));
      PaintRight(r, Black, up, Paint(q0, Red).(left := Paint(q0.left, Black)));
      q := Flipped(q0);
      InorderPlugSame(up, q0, q);
    }

    /** Red parent `p` on the right and red uncle `l`. */
    method FlipRight(g: nat, p: nat, l: nat, ghost c: Ctx, ghost t: Tree) returns (ghost q: Tree)
      requires Focus(nodes, root, c, t) && RedHole(c, t) && !c.Top? && c.color == Red && p == c.id
      requires c.up.InRight? && g == c.up.id && IsRed(c.up.other) && l == c.up.other.id
      modifies this`nodes
      ensures nodes.Keys == old(nodes).Keys && q.Node? && q.id == g && Focus(nodes, root, c.up.up, q)
      ensures RedHole(c.up.up, q) && Inorder(Plug(c.up.up, q)) == Inorder(Plug(c, t))
    {
      FlipStep(c, t);
      AtGrandparent(c, t);
      ghost var up, q0 := c.up.up, Above(c.up, Above(c, t));
      PaintAt(g, Red, up, q0);
      PaintRight(p, Black, up, Paint(q0, Red));
      PaintLeft(l, Black, up, Paint(q0, Red).(right := Paint(q0.right, Black)));
      q := Flipped(q0);
      InorderPlugSame(up, q0, q);
    }

    /** The loop body for a parent on the left: recolour and go on at the
        grandparent, or rotate and stop. */
    method InsertLeft(node: nat, p: nat, g: nat, ghost c: Ctx, ghost t: Tree)
      returns (recoloured: bool, ghost c': Ctx, ghost t': Tree)
      requires Focus(nodes, root, c, t) && RedHole(c, t) && !c.Top? && c.color == Red
      requires node == t.id && p == c.id && !c.up.Top? && g == c.up.id && c.up.InLeft?
      modifies this
      ensures nodes.Keys == old(nodes).Keys && c' == c.up.up && t'.Node? && Focus(nodes, root, c', t')
      ensures Inorder(Plug(c', t')) == Inorder(Plug(c, t))
      ensures if recoloured then t'.id == g && RedHole(c', t') else RedBlack(Plug(c', t'))
    {
      AtGrandparent(c, t);
      c' := c.up.up;
      var r := nodes[g].right;
      if r != 0 && nodes[r].color == Red {
        t' := FlipLeft(g, p, r, c, t);
        recoloured := true;
      } else {
        t' := SettleLeft(node, p, g, c, t);
        recoloured := false;
      }
    }

    /** The loop body for a parent on the right: recolour and go on at the
        grandparent, or rotate and stop. */
    method InsertRight(node: nat, p: nat, g: nat, ghost c: Ctx, ghost t: Tree)
      returns (recoloured: bool, ghost c': Ctx, ghost t': Tree)
      requires Focus(nodes, root, c, t) && RedHole(c, t) && !c.Top? && c.color == Red
      requires node == t.id && p == c.id && !c.up.Top? && g == c.up.id && c.up.InRight?
      modifies this
      ensures nodes.Keys == old(nodes).Keys && c' == c.up.up && t'.Node? && Focus(nodes, root, c', t')
      ensures Inorder(Plug(c', t')) == Inorder(Plug(c, t))
      ensures if recoloured then t'.id == g && RedHole(c', t') else RedBlack(Plug(c', t'))
    {
      AtGrandparent(c, t);
      c' := c.up.up;
      var l := nodes[g].left;
      if l != 0 && nodes[l].color == Red {
        t' := FlipRight(g, p, l, c, t);
        recoloured := true;
      } else {
        t' := SettleRight(node, p, g, c, t);
        recoloured := false;
      }
    }

    /** `rb_set_black(tree->root)` */
    method BlackenRoot(ghost c: Ctx, ghost t: Tree)
      requires t.Node? && Focus(nodes, root, c, t)
      requires RedBlack(Plug(c, t)) || (RedHole(c, t) && (c.Top? || c.color == Black))
      modifies this
      ensures Valid() && nodes.Keys == old(nodes).Keys && Inorder(tree) == Inorder(Plug(c, t))
    {
      ghost var whole := Plug(c, t);
      Refocus(nodes, root, c, t);
      InorderPlug(c, t);
      PaintedRoot(c, t);
      PaintFacts(whole, Black);
      PaintAt(root, Black, Top, whole);
      tree := Paint(whole, Black);
    }

    lemma AtParent(c: Ctx, t: Tree)
      requires t.Node? && Focus(nodes, root, c, t)
      ensures t.id in nodes && nodes[t.id].parent == Par(c)
      ensures Par(c) == 0 <==> c.Top?
      ensures !c.Top? ==> c.id in nodes && nodes[c.id].color == c.color
    {
    }

    /** The body of the loop in `rb_insert`. */
    method InsertStep(node: nat, p: nat, ghost c: Ctx, ghost t: Tree)
      returns (recoloured: bool, g: nat, ghost c': Ctx, ghost t': Tree)
      requires Focus(nodes, root, c, t) && RedHole(c, t) && !c.Top? && c.color == Red
      requires node == t.id && p == c.id
      modifies this
      ensures nodes.Keys == old(nodes).Keys && c' < c && t'.Node? && Focus(nodes, root, c', t')
      ensures Inorder(Plug(c', t')) == Inorder(Plug(c, t))
      ensures if recoloured then t'.id == g && RedHole(c', t') else RedBlack(Plug(c', t'))
    {
      AtGrandparent(c, t);
      g := nodes[p].parent;
      if p == nodes[g].left {
        recoloured, c', t' := InsertLeft(node, p, g, c, t);
      } else {
        recoloured, c', t' := InsertRight(node, p, g, c, t);
      }
    }

    /** `rb_insert`: repairs the tree after a red node was linked in. */
    method Insert(node0: nat, ghost c0: Ctx)
      requires Focus(nodes, root, c0, Node(Leaf, node0, Red, Leaf)) && RedHole(c0, Node(Leaf, node0, Red, Leaf))
      modifies this
      ensures Valid() && nodes.Keys == old(nodes).Keys
      ensures Inorder(tree) == Before(c0) + [node0] + After(c0)
    {
      ghost var c, t := c0, Node(Leaf, node0, Red, Leaf);
      AtParent(c, t);
      InorderPlug(c, t);
      var node := node0;
      var p := nodes[node].parent;
      while p != 0 && nodes[p].color == Red
        invariant t.Node? && Focus(nodes, root, c, t) && nodes.Keys == old(nodes).Keys
        invariant RedHole(c, t) && node == t.id && p == Par(c)
        invariant p != 0 ==> !c.Top? && p in nodes && nodes[p].color == c.color
        invariant Inorder(Plug(c, t)) == Before(c0) + [node0] + After(c0)
        decreases c
      {
        var recoloured, g;
        recoloured, g, c, t := InsertStep(node, p, c, t);
        AtParent(c, t);
        if !recoloured { break; }
        node := g;
        p := nodes[node].parent;
      }
      BlackenRoot(c, t);
    }

    method PaintRightRight(n: nat, color: Color, ghost c: Ctx, ghost t: Tree)
      requires t.Node? && t.right.Node? && t.right.right.Node? && t.right.right.id == n && Focus(nodes, root, c, t)
      modifies this`nodes
      ensures nodes.Keys == old(nodes).Keys
      ensures Focus(nodes, root, c, WithRight(t, WithRight(t.right, Paint(t.right.right, color))))
    {
      ghost var d := InRight(t.id, t.color, t.left, c);
      Move(nodes, root, c, t);
      PaintRight(n, color, d, t.right);
      Move(nodes, root, c, WithRight(t, WithRight(t.right, Paint(t.right.right, color))));
    }

    method PaintLeftLeft(n: nat, color: Color, ghost c: Ctx, ghost t: Tree)
      requires t.Node? && t.left.Node? && t.left.left.Node? && t.left.left.id == n && Focus(nodes, root, c, t)
      modifies this`nodes
      ensures nodes.Keys == old(nodes).Keys
      ensures Focus(nodes, root, c, WithLeft(t, WithLeft(t.left, Paint(t.left.left, color))))
    {
      ghost var d := InLeft(t.id, t.color, t.right, c);
      Move(nodes, root, c, t);
      PaintLeft(n, color, d, t.left);
      Move(nodes, root, c, WithLeft(t, WithLeft(t.left, Paint(t.left.left, color))));
    }

    lemma AtChildren(c: Ctx, t: Tree)
      requires t.Node? && Focus(nodes, root, c, t)
      ensures t.id in nodes && nodes[t.id].left == Ptr(t.left) && nodes[t.id].right == Ptr(t.right)
      ensures nodes[t.id].color == t.color && nodes[t.id].parent == Par(c)
      ensures t.left.Node? ==> t.left.id != 0 && t.left.id in nodes && nodes[t.left.id].color == t.left.color
      ensures t.right.Node? ==> t.right.id != 0 && t.right.id in nodes && nodes[t.right.id].color == t.right.color
    {
      PtrPar(nodes, root);
      assert IsTree(nodes, t.left, nodes[t.id].left, t.id) && IsTree(nodes, t.right, nodes[t.id].right, t.id);
    }

    /** What the pointers say around a short subtree on the left. */
    lemma AtRightSibling(c: Ctx, t: Tree)
      requires Focus(nodes, root, c, t) && Deficit(c, t) && c.InLeft?
      ensures Focus(nodes, root, c.up, Above(c, t)) && c.other.Node?
      ensures Focus(nodes, root, InRight(c.id, c.color, t, c.up), c.other)
      ensures c.id in nodes && nodes[c.id].color == c.color && nodes[c.id].parent == Par(c.up)
      ensures nodes[c.id].right == c.other.id && nodes[c.id].left == Ptr(t)
    {
      SiblingIsNode(c, t);
      Move(nodes, root, c.up, Above(c, t));
    }

    /** Red sibling: recolour and rotate, so that the sibling is black. */
    method FixRedSiblingRight(parent: nat, b: nat, ghost c: Ctx, ghost t: Tree) returns (ghost d: Ctx)
      requires Focus(nodes, root, c, t) && Deficit(c, t) && c.InLeft? && IsRed(c.other)
      requires parent == c.id && b == c.other.id
      modifies this
      ensures nodes.Keys == old(nodes).Keys && Focus(nodes, root, d, t) && Deficit(d, t)
      ensures d.InLeft? && d.id == parent && !IsRed(d.other) && Inorder(Plug(d, t)) == Inorder(Plug(c, t))
      ensures !d.up.Top? && d.up.up == c.up && d.color == Red
    {
      d := RedSiblingRight(c, t);
      AtRightSibling(c, t);
      ghost var q := Above(c, t);
      PaintRight(b, Black, c.up, q);
      PaintAt(parent, Red, c.up, WithRight(q, Paint(c.other, Black)));
      RotateLeft(parent, c.up, WithRight(Paint(q, Red), Paint(c.other, Black)));
      Move(nodes, root, c.up, Above(d.up, Above(d, t)));
      Move(nodes, root, d.up, Above(d, t));
      InorderPlugSame(c.up, q, Above(d.up, Above(d, t)));
    }

    /** Inner nephew red, outer one black: rotate at the sibling. */
    method FixInnerRight(parent: nat, b: nat, ghost c: Ctx, ghost t: Tree) returns (ghost d: Ctx)
      requires Focus(nodes, root, c, t) && Deficit(c, t) && c.InLeft? && !IsRed(c.other)
      requires c.other.Node? && IsRed(c.other.left) && !IsRed(c.other.right)
      requires parent == c.id && b == c.other.id
      modifies this
      ensures nodes.Keys == old(nodes).Keys && Focus(nodes, root, d, t) && Deficit(d, t)
      ensures d.InLeft? && d.id == parent && d.up == c.up && !IsRed(d.other) && d.other.Node? && IsRed(d.other.right)
      ensures Inorder(Plug(d, t)) == Inorder(Plug(c, t))
    {
      ghost var e := InnerNephewRight(c, t);
      AtRightSibling(c, t);
      ghost var k := InRight(c.id, c.color, t, c.up);
      AtChildren(k, c.other);
      PaintLeft(nodes[b].left, Black, k, c.other);
      PaintAt(b, Red, k, WithLeft(c.other, Paint(c.other.left, Black)));
      RotateRight(b, k, WithLeft(Paint(c.other, Red), Paint(c.other.left, Black)));
      d := InLeft(c.id, c.color, e, c.up);
      Move(nodes, root, c.up, Above(d, t));
      InorderPlugSame(c.up, Above(c, t), Above(d, t));
    }

    /** Outer nephew red: the final rotation at the parent. */
    method FixOuterRight(parent: nat, b: nat, ghost c: Ctx, ghost t: Tree) returns (ghost q: Tree)
      requires Focus(nodes, root, c, t) && Deficit(c, t) && c.InLeft? && !IsRed(c.other) && !IsRed(t)
      requires c.other.Node? && IsRed(c.other.right)
      requires parent == c.id && b == c.other.id
      modifies this
      ensures nodes.Keys == old(nodes).Keys && Focus(nodes, root, c.up, q) && q.Node?
      ensures RedBlack(Plug(c.up, q)) && Inorder(Plug(c.up, q)) == Inorder(Plug(c, t))
    {
      AtRightSibling(c, t);
      q := OuterNephewRight(c, t);
      ghost var r := WithRight(Above(c, t), Paint(c.other, c.color));
      PaintRight(b, nodes[parent].color, c.up, Above(c, t));
      PaintAt(parent, Black, c.up, r);
      r := Paint(r, Black);
      Move(nodes, root, c.up, r);
      AtChildren(InRight(r.id, r.color, r.left, c.up), r.right);
      if nodes[b].right != 0 { PaintRightRight(nodes[b].right, Black, c.up, r); }
      RotateLeft(parent, c.up, q);
      q := RotatedLeft(q);
      InorderPlugSame(c.up, Above(c, t), q);
    }

    /** What the pointers say around a short subtree on the right. */
    lemma AtLeftSibling(c: Ctx, t: Tree)
      requires Focus(nodes, root, c, t) && Deficit(c, t) && c.InRight?
      ensures Focus(nodes, root, c.up, Above(c, t)) && c.other.Node?
      ensures Focus(nodes, root, InLeft(c.id, c.color, t, c.up), c.other)
      ensures c.id in nodes && nodes[c.id].color == c.color && nodes[c.id].parent == Par(c.up)
      ensures nodes[c.id].left == c.other.id && nodes[c.id].right == Ptr(t)
    {
      SiblingIsNode(c, t);
      Move(nodes, root, c.up, Above(c, t));
    }

    /** Red sibling: recolour and rotate, so that the sibling is black. */
    method FixRedSiblingLeft(parent: nat, b: nat, ghost c: Ctx, ghost t: Tree) returns (ghost d: Ctx)
      requires Focus(nodes, root, c, t) && Deficit(c, t) && c.InRight? && IsRed(c.other)
      requires parent == c.id && b == c.other.id
      modifies this
      ensures nodes.Keys == old(nodes).Keys && Focus(nodes, root, d, t) && Deficit(d, t)
      ensures d.InRight? && d.id == parent && !IsRed(d.other) && Inorder(Plug(d, t)) == Inorder(Plug(c, t))
      ensures !d.up.Top? && d.up.up == c.up && d.color == Red
    {
      d := RedSiblingLeft(c, t);
      AtLeftSibling(c, t);
      ghost var q := Above(c, t);
      PaintLeft(b, Black, c.up, q);
      PaintAt(parent, Red, c.up, WithLeft(q, Paint(c.other, Black)));
      RotateRight(parent, c.up, WithLeft(Paint(q, Red), Paint(c.other, Black)));
      Move(nodes, root, c.up, Above(d.up, Above(d, t)));
      Move(nodes, root, d.up, Above(d, t));
      InorderPlugSame(c.up, q, Above(d.up, Above(d, t)));
    }

    /** Inner nephew red, outer one black: rotate at the sibling. */
    method FixInnerLeft(parent: nat, b: nat, ghost c: Ctx, ghost t: Tree) returns (ghost d: Ctx)
      requires Focus(nodes, root, c, t) && Deficit(c, t) && c.InRight? && !IsRed(c.other)
      requires c.other.Node? && IsRed(c.other.right) && !IsRed(c.other.left)
      requires parent == c.id && b == c.other.id
      modifies this
      ensures nodes.Keys == old(nodes).Keys && Focus(nodes, root, d, t) && Deficit(d, t)
      ensures d.InRight? && d.id == parent && d.up == c.up && !IsRed(d.other) && d.other.Node? && IsRed(d.other.left)
      ensures Inorder(Plug(d, t)) == Inorder(Plug(c, t))
    {
      ghost var e := InnerNephewLeft(c, t);
      AtLeftSibling(c, t);
      ghost var k := InLeft(c.id, c.color, t, c.up);
      AtChildren(k, c.other);
      PaintRight(nodes[b].right, Black, k, c.other);
      PaintAt(b, Red, k, WithRight(c.other, Paint(c.other.right, Black)));
      RotateLeft(b, k, WithRight(Paint(c.other, Red), Paint(c.other.right, Black)));
      d := InRight(c.id, c.color, e, c.up);
      Move(nodes, root, c.up, Above(d, t));
      InorderPlugSame(c.up, Above(c, t), Above(d, t));
    }

    /** Outer nephew red: the final rotation at the parent. */
    method FixOuterLeft(parent: nat, b: nat, ghost c: Ctx, ghost t: Tree) returns (ghost q: Tree)
      requires Focus(nodes, root, c, t) && Deficit(c, t) && c.InRight? && !IsRed(c.other) && !IsRed(t)
      requires c.other.Node? && IsRed(c.other.left)
      requires parent == c.id && b == c.other.id
      modifies this
      ensures nodes.Keys == old(nodes).Keys && Focus(nodes, root, c.up, q) && q.Node?
      ensures RedBlack(Plug(c.up, q)) && Inorder(Plug(c.up, q)) == Inorder(Plug(c, t))
    {
      AtLeftSibling(c, t);
      q := OuterNephewLeft(c, t);
      ghost var r := WithLeft(Above(c, t), Paint(c.other, c.color));
      PaintLeft(b, nodes[parent].color, c.up, Above(c, t));
      PaintAt(parent, Black, c.up, r);
      r := Paint(r, Black);
      Move(nodes, root, c.up, r);
      AtChildren(InLeft(r.id, r.color, r.right, c.up), r.left);
      if nodes[b].left != 0 { PaintLeftLeft(nodes[b].left, Black, c.up, r); }
      RotateRight(parent, c.up, q);
      q := RotatedRight(q);
      InorderPlugSame(c.up, Above(c, t), q);
    }

    /** `rb_red`; the null pointer counts as black. */
    predicate RedAt(n: nat)
      requires n == 0 || n in nodes
      reads this
    {
      n != 0 && nodes[n].color == Red
    }

    /** The body of the loop in `rb_erase_fix` for a child on the left: either
        the deficit moves up to the parent, or it is paid. */
    method EraseStepLeft(parent: nat, ghost c: Ctx, ghost t: Tree) returns (paid: bool, ghost c': Ctx, ghost t': Tree)
      requires Focus(nodes, root, c, t) && Deficit(c, t) && !IsRed(t) && c.InLeft? && parent == c.id
      modifies this
      ensures nodes.Keys == old(nodes).Keys && t'.Node? && Focus(nodes, root, c', t')
      ensures Inorder(Plug(c', t')) == Inorder(Plug(c, t))
      ensures if paid then RedBlack(Plug(c', t'))
              else t'.id == parent && Deficit(c', t') && Rounds(c', t') < Rounds(c, t)
    {
      ghost var d := c;
      AtRightSibling(d, t);
      var b := nodes[parent].right;
      if nodes[b].color == Red {
        d := FixRedSiblingRight(parent, b, d, t);
        AtRightSibling(d, t);
        b := nodes[parent].right;
      }
      AtChildren(InRight(d.id, d.color, t, d.up), d.other);
      if !RedAt(nodes[b].left) && !RedAt(nodes[b].right) {
        BlackNephewsRight(d, t);
        PaintRight(b, Red, d.up, Above(d, t));
        c', t', paid := d.up, WithRight(Above(d, t), Paint(d.other, Red)), false;
        InorderPlugSame(d.up, Above(d, t), t');
      } else {
        if !RedAt(nodes[b].right) {
          d := FixInnerRight(parent, b, d, t);
          AtRightSibling(d, t);
          b := nodes[parent].right;
        }
        t' := FixOuterRight(parent, b, d, t);
        c', paid := d.up, true;
      }
    }

    /** The body of the loop in `rb_erase_fix` for a child on the right: either
        the deficit moves up to the parent, or it is paid. */
    method EraseStepRight(parent: nat, ghost c: Ctx, ghost t: Tree) returns (paid: bool, ghost c': Ctx, ghost t': Tree)
      requires Focus(nodes, root, c, t) && Deficit(c, t) && !IsRed(t) && c.InRight? && parent == c.id
      modifies this
      ensures nodes.Keys == old(nodes).Keys && t'.Node? && Focus(nodes, root, c', t')
      ensures Inorder(Plug(c', t')) == Inorder(Plug(c, t))
      ensures if paid then RedBlack(Plug(c', t'))
              else t'.id == parent && Deficit(c', t') && Rounds(c', t') < Rounds(c, t)
    {
      ghost var d := c;
      AtLeftSibling(d, t);
      var b := nodes[parent].left;
      if nodes[b].color == Red {
        d := FixRedSiblingLeft(parent, b, d, t);
        AtLeftSibling(d, t);
        b := nodes[parent].left;
      }
      AtChildren(InLeft(d.id, d.color, t, d.up), d.other);
      if !RedAt(nodes[b].right) && !RedAt(nodes[b].left) {
        BlackNephewsLeft(d, t);
        PaintLeft(b, Red, d.up, Above(d, t));
        c', t', paid := d.up, WithLeft(Above(d, t), Paint(d.other, Red)), false;
        InorderPlugSame(d.up, Above(d, t), t');
      } else {
        if !RedAt(nodes[b].left) {
          d := FixInnerLeft(parent, b, d, t);
          AtLeftSibling(d, t);
          b := nodes[parent].left;
        }
        t' := FixOuterLeft(parent, b, d, t);
        c', paid := d.up, true;
      }
    }

    /** Which side of its parent a short subtree is on. */
    lemma ShortSide(c: Ctx, t: Tree)
      requires Focus(nodes, root, c, t) && Deficit(c, t) && !c.Top?
      ensures c.id in nodes && (nodes[c.id].left == Ptr(t) <==> c.InLeft?)
    {
      SiblingIsNode(c, t);
      Move(nodes, root, c.up, Above(c, t));
      AtChildren(c.up, Above(c, t));
    }

    lemma RootTest(c: Ctx, t: Tree)
      requires Focus(nodes, root, c, t)
      ensures Ptr(t) == root <==> c.Top?
      ensures t.Node? ==> t.id != 0 && t.id in nodes && nodes[t.id].color == t.color && nodes[t.id].parent == Par(c)
    {
      if !c.Top? { RootInCtx(nodes, c, Ptr(t), Par(c), root); }
    }

    /** `rb_erase_fix`: repairs a tree in which `child` is one black node
        short. */
    method EraseFix(child0: nat, parent0: nat, ghost c0: Ctx, ghost t0: Tree)
      requires Focus(nodes, root, c0, t0) && Deficit(c0, t0) && child0 == Ptr(t0) && parent0 == Par(c0)
      modifies this
      ensures Valid() && nodes.Keys == old(nodes).Keys && Inorder(tree) == Inorder(Plug(c0, t0))
    {
      var child, parent := child0, parent0;
      ghost var c, t := c0, t0;
      RootTest(c, t);
      while !RedAt(child) && child != root
        invariant Focus(nodes, root, c, t) && nodes.Keys == old(nodes).Keys
        invariant child == Ptr(t) && Inorder(Plug(c, t)) == Inorder(Plug(c0, t0))
        invariant child == 0 || (child in nodes && nodes[child].color == t.color)
        invariant child == root ==> c.Top?
        invariant if child == root then RedBlack(Plug(c, t)) || Deficit(c, t) else Deficit(c, t) && parent == Par(c)
        decreases Rounds(c, t)
      {
        var paid;
        ShortSide(c, t);
        if child == nodes[parent].left {
          paid, c, t := EraseStepLeft(parent, c, t);
        } else {
          paid, c, t := EraseStepRight(parent, c, t);
        }
        RootTest(c, t);
        if paid {
          child := root;
          Refocus(nodes, root, c, t);
          c, t := Top, Plug(c, t);
          RootTest(c, t);
          break;
        }
        child := parent;
        parent := nodes[parent].parent;
      }
      RootTest(c, t);
      PaintFacts(t, Black);
      FixEnd(c, t);
      if child != 0 { PaintAt(child, Black, c, t); }
      tree := Plug(c, Paint(t, Black));
      Refocus(nodes, root, c, Paint(t, Black));
      InorderPlugSame(c, t, Paint(t, Black));
    }

    // ---- walking the tree ----

    /** `__rb_leftmost` */
    method LeftmostBelow(p: nat, ghost c: Ctx, ghost t: Tree) returns (x: nat, ghost k: Ctx, ghost u: Tree)
      requires Focus(nodes, root, c, t) && t.Node? && p == t.id
      ensures LeftSpine(k) && Plug(k, u) == t && u.Node? && u.left.Leaf? && u.id == x
      ensures Focus(nodes, root, Compose(k, c), u)
    {
      x, k, u := p, Top, t;
      AtChildren(c, u);
      while nodes[x].left != 0
        invariant LeftSpine(k) && Plug(k, u) == t && u.Node? && u.id == x
        invariant Focus(nodes, root, Compose(k, c), u)
        invariant x in nodes && nodes[x].left == Ptr(u.left)
        decreases u
      {
        Move(nodes, root, Compose(k, c), u);
        AtChildren(Compose(k, c), u);
        x := nodes[x].left;
        k, u := InLeft(u.id, u.color, u.right, k), u.left;
        AtChildren(Compose(k, c), u);
      }
      NullPtr(Compose(k, c), u);
    }

    /** `__rb_rightmost` */
    method RightmostBelow(p: nat, ghost c: Ctx, ghost t: Tree) returns (x: nat, ghost k: Ctx, ghost u: Tree)
      requires Focus(nodes, root, c, t) && t.Node? && p == t.id
      ensures RightSpine(k) && Plug(k, u) == t && u.Node? && u.right.Leaf? && u.id == x
      ensures Focus(nodes, root, Compose(k, c), u)
    {
      x, k, u := p, Top, t;
      AtChildren(c, u);
      while nodes[x].right != 0
        invariant RightSpine(k) && Plug(k, u) == t && u.Node? && u.id == x
        invariant Focus(nodes, root, Compose(k, c), u)
        invariant x in nodes && nodes[x].right == Ptr(u.right)
        decreases u
      {
        Move(nodes, root, Compose(k, c), u);
        AtChildren(Compose(k, c), u);
        x := nodes[x].right;
        k, u := InRight(u.id, u.color, u.left, k), u.right;
        AtChildren(Compose(k, c), u);
      }
      NullPtr(Compose(k, c), u);
    }

    lemma NullPtr(c: Ctx, t: Tree)
      requires Focus(nodes, root, c, t) && t.Node?
      ensures t.left.Leaf? <==> Ptr(t.left) == 0
      ensures t.right.Leaf? <==> Ptr(t.right) == 0
    {
      AtChildren(c, t);
    }

    /** `rb_next`: the node after the focused one, or null. */
    method NextOf(node0: nat, ghost c0: Ctx, ghost t0: Tree) returns (r: nat)
      requires Focus(nodes, root, c0, t0) && t0.Node? && node0 == t0.id
      ensures r == Head(Inorder(t0.right) + After(c0))
    {
      hide Plug, Compose, Distinct, Ids, CtxIds;
      AtChildren(c0, t0);
      NullPtr(c0, t0);
      if nodes[node0].right != 0 {
        ghost var k, u;
        ghost var d := InRight(t0.id, t0.color, t0.left, c0);
        Move(nodes, root, c0, t0);
        r, k, u := LeftmostBelow(nodes[node0].right, d, t0.right);
        SpineFacts(k, d, u);
        InorderPlug(k, u);
        assert Inorder(t0.right) == [u.id] + Inorder(u.right) + After(k);
        return;
      }
      var node := node0;
      var p := nodes[node].parent;
      ghost var c, t := c0, t0;
      assert Inorder(t0.right) + After(c0) == After(c0);
      while p != 0 && nodes[p].right == node
        invariant Focus(nodes, root, c, t) && t.Node? && node == t.id
        invariant p == Par(c) && (p == 0 || p in nodes) && (p == 0 <==> c.Top?)
        invariant After(c) == After(c0)
        decreases c
      {
        WhichSide(c, t);
        node := p;
        c, t := c.up, Above(c, t);
        AtParent(c, t);
        p := nodes[p].parent;
      }
      if p != 0 { WhichSide(c, t); }
      r := p;
    }

    /** `rb_prev`: the node before the focused one, or null. */
    method PrevOf(node0: nat, ghost c0: Ctx, ghost t0: Tree) returns (r: nat)
      requires Focus(nodes, root, c0, t0) && t0.Node? && node0 == t0.id
      ensures r == Last(Before(c0) + Inorder(t0.left))
    {
      hide Plug, Compose, Distinct, Ids, CtxIds;
      AtChildren(c0, t0);
      NullPtr(c0, t0);
      if nodes[node0].left != 0 {
        ghost var k, u;
        ghost var d := InLeft(t0.id, t0.color, t0.right, c0);
        Move(nodes, root, c0, t0);
        r, k, u := RightmostBelow(nodes[node0].left, d, t0.left);
        RightSpineFacts(k, d, u);
        InorderPlug(k, u);
        assert Inorder(t0.left) == Before(k) + (Inorder(u.left) + [u.id]);
        return;
      }
      var node := node0;
      var p := nodes[node].parent;
      ghost var c, t := c0, t0;
      assert Before(c0) + Inorder(t0.left) == Before(c0);
      while p != 0 && nodes[p].left == node
        invariant Focus(nodes, root, c, t) && t.Node? && node == t.id
        invariant p == Par(c) && (p == 0 || p in nodes) && (p == 0 <==> c.Top?)
        invariant Before(c) == Before(c0)
        decreases c
      {
        WhichSide(c, t);
        node := p;
        c, t := c.up, Above(c, t);
        AtParent(c, t);
        p := nodes[p].parent;
      }
      if p != 0 { WhichSide(c, t); }
      r := p;
    }

    lemma WhichSide(c: Ctx, t: Tree)
      requires Focus(nodes, root, c, t) && t.Node? && !c.Top?
      ensures c.id in nodes && (nodes[c.id].right == t.id <==> c.InRight?) && (nodes[c.id].left == t.id <==> c.InLeft?)
      ensures Focus(nodes, root, c.up, Above(c, t))
    {
      Move(nodes, root, c.up, Above(c, t));
      AtChildren(c.up, Above(c, t));
    }

    /** `rb_next` by position in the in-order sequence. */
    method Next(node: nat, ghost i: nat) returns (r: nat)
      requires Valid() && i < |Inorder(tree)| && Inorder(tree)[i] == node
      ensures r == if i + 1 < |Inorder(tree)| then Inorder(tree)[i + 1] else 0
    {
      ghost var c, t := FocusOn(node);
      AtIndex(c, t, i);
      r := NextOf(node, c, t);
    }

    /** `rb_prev` by position; it undoes `rb_next`. */
    method Prev(node: nat, ghost i: nat) returns (r: nat)
      requires Valid() && i < |Inorder(tree)| && Inorder(tree)[i] == node
      ensures r == if i > 0 then Inorder(tree)[i - 1] else 0
    {
      ghost var c, t := FocusOn(node);
      AtIndex(c, t, i);
      r := PrevOf(node, c, t);
    }

    /** `rb_leftmost` */
    method Leftmost() returns (r: nat)
      requires Valid()
      ensures r == Head(Inorder(tree))
    {
      if root == 0 { return 0; }
      ghost var k, u;
      r, k, u := LeftmostBelow(root, Top, tree);
      SpineFacts(k, Top, u);
      InorderPlug(k, u);
    }

    /** `rb_rightmost` */
    method Rightmost() returns (r: nat)
      requires Valid()
      ensures r == Last(Inorder(tree))
    {
      if root == 0 { return 0; }
      ghost var k, u;
      r, k, u := RightmostBelow(root, Top, tree);
      RightSpineFacts(k, Top, u);
      InorderPlug(k, u);
    }

    /** `rb_link`: hangs a red leaf below `parent`, on the side of the hole. */
    method Link(node: nat, parent: nat, left: bool, ghost c: Ctx)
      requires Valid() && Plug(c, Leaf) == tree && node != 0 && node !in Ids(tree)
      requires parent == Par(c) && (c.InLeft? ==> left) && (c.InRight? ==> !left)
      modifies this
      ensures Focus(nodes, root, c, Node(Leaf, node, Red, Leaf)) && RedHole(c, Node(Leaf, node, Red, Leaf))
      ensures nodes.Keys == old(nodes).Keys + {node}
    {
      Refocus(nodes, root, c, Leaf);
      PlugIds(c, Leaf);
      nodes := nodes[node := RbNode(0, 0, parent, Red)];
      CtxFrame(old(nodes), nodes, {node}, c, 0, parent, root);
      ghost var h := UnplugRedBlack(c, Leaf);
      ghost var h1 := nodes;
      if parent == 0 {
        root := node;
      } else if left {
        SetLeft(parent, node);
        CtxFrame(h1, nodes, {parent}, c.up, parent, h1[parent].parent, root);
        TreeFrame(h1, nodes, {parent}, c.other, h1[parent].right, parent);
      } else {
        SetRight(parent, node);
        CtxFrame(h1, nodes, {parent}, c.up, parent, h1[parent].parent, root);
        TreeFrame(h1, nodes, {parent}, c.other, h1[parent].left, parent);
      }
      assert BlackHeight(Node(Leaf, node, Red, Leaf), h);
    }

    /** `rb_link` and then `rb_insert`: the node at its place in the order. */
    method Attach(node: nat, parent: nat, left: bool, ghost c: Ctx)
      requires Valid() && Plug(c, Leaf) == tree && node != 0 && node !in Ids(tree)
      requires parent == Par(c) && (c.InLeft? ==> left) && (c.InRight? ==> !left)
      modifies this
      ensures Valid() && nodes.Keys == old(nodes).Keys + {node}
      ensures Inorder(tree) == Before(c) + [node] + After(c)
    {
      Link(node, parent, left, c);
      Insert(node, c);
    }

    constructor ()
      ensures Valid() && tree == Leaf && nodes == map[]
    {
      nodes, root, tree := map[], 0, Leaf;
      new;
      assert BlackHeight(Leaf, 0);
    }

    /** The in-order sequence lists the nodes once each, and never null. */
    lemma NodesAreIds()
      requires Valid()
      ensures NoDup(Inorder(tree)) && 0 !in Inorder(tree)
      ensures forall x :: x in Ids(tree) <==> x in Inorder(tree)
    {
      DistinctInorder(tree);
      IdsInorder(tree);
      NullIsNoNode(nodes, tree, Ptr(tree), 0);
    }

    lemma FocusOn(node: nat) returns (c: Ctx, t: Tree)
      requires Valid() && node in Inorder(tree)
      ensures Plug(c, t) == tree && t.Node? && t.id == node && Focus(nodes, root, c, t)
    {
      IdsInorder(tree);
      c, t := Locate(Top, tree, node);
      Refocus(nodes, root, c, t);
    }

    // ---- taking a node out ----

    /** A node with at most one child: the child takes its place. */
    method UnlinkOnly(node: nat, ghost c: Ctx, ghost t: Tree, ghost u: Tree) returns (x: nat, p: nat)
      requires Focus(nodes, root, c, t) && OnlyChild(t, u) && node == t.id
      modifies this
      ensures nodes.Keys == old(nodes).Keys && Focus(nodes, root, c, u) && x == Ptr(u) && p == Par(c)
    {
      AtChildren(c, t);
      NullPtr(c, t);
      p := nodes[node].parent;
      x := if nodes[node].left != 0 then nodes[node].left else nodes[node].right;
      assert IsTree(nodes, u, x, node);
      if x != 0 {
        Reparent(nodes, u, x, node, p);
        SetParent(x, p);
      }
      ghost var h := nodes;
      CtxFrame(old(nodes), h, Ids(u), c, node, p, root);
      assert IsTree(h, u, x, p);
      Relink(p, node, x, c);
      NullIsNoNode(h, u, x, p);
      TreeFrame(h, nodes, if p == 0 then {} else {p}, u, x, p);
    }

    /** The successor is the right child: it moves up with its right subtree. */
    method AdoptNear(node: nat, x: nat, ghost c: Ctx, ghost t: Tree)
      requires Focus(nodes, root, c, t) && t.Node? && t.left.Node? && t.right.Node? && t.right.left.Leaf?
      requires node == t.id && x == t.right.id
      modifies this
      ensures nodes.Keys == old(nodes).Keys && Focus(nodes, root, c, Node(t.left, x, t.color, t.right.right))
    {
      hide IsCtx;
      AtChildren(c, t);
      ghost var l, r, p := t.left, t.right.right, Par(c);
      assert Distinct(t.right) && IsTree(nodes, t.right, x, node) && IsTree(nodes, l, l.id, node);
      NullIsNoNode(nodes, t, node, p);
      SetLeft(x, nodes[node].left);
      nodes := nodes[x := nodes[x].(parent := nodes[node].parent, color := nodes[node].color)];
      TreeFrame(old(nodes), nodes, {x}, l, l.id, node);
      Reparent(nodes, l, l.id, node, x);
      SetParent(nodes[x].left, x);
      ghost var h := nodes;
      CtxFrame(old(nodes), h, {x, l.id}, c, node, p, root);
      TreeFrame(old(nodes), h, {x, l.id}, r, old(nodes)[x].right, x);
      Relink(nodes[node].parent, node, x, c);
      TreeFrame(h, nodes, {p}, l, l.id, x);
      TreeFrame(h, nodes, {p}, r, h[x].right, x);
    }

    /** `*x = *node; p->left = c; if (c) rb_set_parent(c, p);` with the
        successor `x` further down: its right subtree fills its old place. */
    method PullOut(node: nat, x: nat, p: nat, ch: nat, ghost k: Ctx, ghost d: Ctx, ghost v: Tree)
      requires Focus(nodes, root, Compose(k, d), v) && k.InLeft? && v.Node? && v.left.Leaf? && v.id == x
      requires p == k.id && ch == nodes[x].right && node in nodes && node !in CtxIds(k) && node !in Ids(v)
      modifies this`nodes
      ensures nodes.Keys == old(nodes).Keys && Focus(nodes, root, Compose(k, d), v.right)
      ensures nodes[x] == old(nodes)[node] && nodes[node] == old(nodes)[node]
    {
      ghost var e := Compose(k, d);
      AtChildren(e, v);
      nodes := nodes[x := nodes[node]];
      TreeFrame(old(nodes), nodes, {x}, v.right, ch, x);
      CtxFrame(old(nodes), nodes, {x}, e, x, p, root);
      ghost var h := nodes;
      AttachLeft(p, ch, v.right, x);
      TreeFrame(h, nodes, {p} + Ids(v.right), e.other, h[p].right, p);
      CtxFrame(h, nodes, {p} + Ids(v.right), e.up, p, h[p].parent, root);
    }

    /** `rb_set_parent(x->left, x); rb_set_parent(x->right, x);` and the link
        from the parent: `x`, a copy of `node`, takes its place. */
    method Replace(node: nat, x: nat, ghost c: Ctx, ghost t: Tree)
      requires Focus(nodes, root, c, t) && t.Node? && t.left.Node? && t.right.Node? && node == t.id
      requires x in nodes && x != 0 && x !in Ids(t) && x !in CtxIds(c) && nodes[x] == nodes[node]
      modifies this
      ensures nodes.Keys == old(nodes).Keys && Focus(nodes, root, c, Node(t.left, x, t.color, t.right))
    {
      AtChildren(c, t);
      ghost var l, r, p := t.left, t.right, Par(c);
      NullIsNoNode(nodes, t, node, p);
      assert IsTree(nodes, l, l.id, node) && IsTree(nodes, r, r.id, node);
      Reparent(nodes, l, l.id, node, x);
      SetParent(nodes[x].left, x);
      TreeFrame(old(nodes), nodes, {l.id}, r, r.id, node);
      Reparent(nodes, r, r.id, node, x);
      ghost var h1 := nodes;
      SetParent(nodes[x].right, x);
      ghost var h := nodes;
      TreeFrame(h1, h, {r.id}, l, l.id, x);
      CtxFrame(old(nodes), h, {l.id, r.id}, c, node, p, root);
      Relink(nodes[node].parent, node, x, c);
      TreeFrame(h, nodes, {p}, l, l.id, x);
      TreeFrame(h, nodes, {p}, r, r.id, x);
    }

    /** `rb_erase`: takes `node` out of the tree and rebalances it. */
    method Erase(node: nat, ghost i: nat)
      requires Valid() && i < |Inorder(tree)| && Inorder(tree)[i] == node
      modifies this
      ensures Valid() && nodes.Keys == old(nodes).Keys
      ensures Inorder(tree) == old(Inorder(tree))[..i] + old(Inorder(tree))[i + 1..]
    {
      ghost var c, t := FocusOn(node);
      AtIndex(c, t, i);
      AtChildren(c, t);
      NullPtr(c, t);
      var p, ch, color;
      ghost var c', u;
      if nodes[node].left != 0 && nodes[node].right != 0 {
        ch, p, color, c', u := UnlinkInner(node, c, t);
      } else {
        u := if t.left.Leaf? then t.right else t.left;
        color := nodes[node].color;
        c' := c;
        UnlinkOne(c, t, u);
        OrderOne(c, t, u);
        ch, p := UnlinkOnly(node, c, t, u);
      }
      if color == Black {
        EraseFix(ch, p, c', u);
      } else {
        tree := Plug(c', u);
        Refocus(nodes, root, c', u);
      }
    }

    /** A node with two children: its successor takes its place. */
    method UnlinkInner(node: nat, ghost c: Ctx, ghost t: Tree)
      returns (ch: nat, p: nat, color: Color, ghost c': Ctx, ghost u: Tree)
      requires Focus(nodes, root, c, t) && t.Node? && t.left.Node? && t.right.Node? && node == t.id
      requires RedBlack(Plug(c, t))
      modifies this
      ensures nodes.Keys == old(nodes).Keys && Focus(nodes, root, c', u) && ch == Ptr(u) && p == Par(c')
      ensures color == Black ==> Deficit(c', u)
      ensures color == Red ==> RedBlack(Plug(c', u))
      ensures Inorder(Plug(c', u)) == Around(c, t)
    {
      ghost var d := InRight(t.id, t.color, t.left, c);
      AtChildren(c, t);
      Move(nodes, root, c, t);
      var x;
      ghost var k, v;
      x, k, v := LeftmostBelow(nodes[node].right, d, t.right);
      AtChildren(Compose(k, d), v);
      ch := nodes[x].right;
      color := nodes[x].color;
      u := v.right;
      c' := Compose(k, InRight(x, t.color, t.left, c));
      UnlinkTwo(c, t, k, v);
      OrderTwo(c, t, k, v);
      SpineRoot(k, v, t.right);
      if x == nodes[node].right {
        p := x;
        AdoptNear(node, x, c, t);
      } else {
        p := nodes[x].parent;
        FarApart(c, t, k, v);
        PullOut(node, x, p, ch, k, d, v);
        Refocus(nodes, root, Compose(k, d), u);
        SpineFacts(k, d, u);
        SpineTop(k, u);
        ghost var t1 := Node(t.left, node, t.color, Plug(k, u));
        Refocus(nodes, root, c, t1);
        Replace(node, x, c, t1);
      }
      ghost var t2 := Node(t.left, x, t.color, Plug(k, u));
      Refocus(nodes, root, c, t2);
      SpineFacts(k, InRight(x, t.color, t.left, c), u);
      Refocus(nodes, root, c', u);
    }
  }
}
