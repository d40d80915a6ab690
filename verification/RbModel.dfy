/** Red-black trees as values: the tree, the one-hole context that an upward
    walk leaves behind, and the balance conditions on both. */
module RbModel {
  import opened Lists
  import opened Bits

  datatype Color = Red | Black

  datatype Tree = Leaf | Node(left: Tree, id: nat, color: Color, right: Tree)

  /** A tree with a hole, seen from the hole: the hole is the left (right)
      child of `id`, whose other subtree and whose own context are given. */
  datatype Ctx = Top
    | InLeft(id: nat, color: Color, other: Tree, up: Ctx)
    | InRight(id: nat, color: Color, other: Tree, up: Ctx)

  function Plug(c: Ctx, t: Tree): Tree
    decreases c
  {
    match c
    case Top => t
    case InLeft(id, color, other, up) => Plug(up, Node(t, id, color, other))
    case InRight(id, color, other, up) => Plug(up, Node(other, id, color, t))
  }

  function RotatedLeft(t: Tree): Tree
    requires t.Node? && t.right.Node?
  {
    t.right.(left := t.(right := t.right.left))
  }

  function RotatedRight(t: Tree): Tree
    requires t.Node? && t.left.Node?
  {
    t.left.(right := t.(left := t.left.right))
  }

  // ---- in-order sequence ----

  function Inorder(t: Tree): seq<nat>
  {
    match t
    case Leaf => []
    case Node(l, id, _, r) => Inorder(l) + [id] + Inorder(r)
  }

  function Before(c: Ctx): seq<nat>
  {
    match c
    case Top => []
    case InLeft(_, _, _, up) => Before(up)
    case InRight(id, _, other, up) => Before(up) + (Inorder(other) + [id])
  }

  function After(c: Ctx): seq<nat>
  {
    match c
    case Top => []
    case InLeft(id, _, other, up) => [id] + Inorder(other) + After(up)
    case InRight(_, _, _, up) => After(up)
  }

  lemma {:induction false} InorderPlug(c: Ctx, t: Tree)
    ensures Inorder(Plug(c, t)) == Before(c) + Inorder(t) + After(c)
    decreases c
  {
    match c
    case Top =>
    case InLeft(id, color, other, up) =>
      InorderPlug(up, Node(t, id, color, other));
      Regroup(Before(up), Inorder(t), [id] + Inorder(other), After(up));
      assert Inorder(t) + [id] + Inorder(other) == Inorder(t) + ([id] + Inorder(other));
    case InRight(id, color, other, up) =>
      InorderPlug(up, Node(other, id, color, t));
      Regroup(Before(up), Inorder(other) + [id], Inorder(t), After(up));
  }

  lemma Regroup(a: seq<nat>, b: seq<nat>, c: seq<nat>, d: seq<nat>)
    ensures a + (b + c) + d == (a + b) + c + d == a + b + (c + d)
  {
  }

  lemma InorderPlugSame(c: Ctx, t: Tree, t': Tree)
    requires Inorder(t) == Inorder(t')
    ensures Inorder(Plug(c, t)) == Inorder(Plug(c, t'))
  {
    InorderPlug(c, t);
    InorderPlug(c, t');
  }

  lemma Reassociate(a: seq<nat>, x: nat, b: seq<nat>, y: nat, d: seq<nat>)
    ensures a + [x] + (b + [y] + d) == (a + [x] + b) + [y] + d
  {
  }

  lemma InorderRotated(t: Tree)
    requires t.Node?
    ensures t.right.Node? ==> Inorder(RotatedLeft(t)) == Inorder(t)
    ensures t.left.Node? ==> Inorder(RotatedRight(t)) == Inorder(t)
  {
    if t.right.Node? {
      Reassociate(Inorder(t.left), t.id, Inorder(t.right.left), t.right.id, Inorder(t.right.right));
    }
    if t.left.Node? {
      Reassociate(Inorder(t.left.left), t.left.id, Inorder(t.left.right), t.id, Inorder(t.right));
    }
  }

  // ---- identities of the nodes ----

  function Ids(t: Tree): set<nat>
  {
    match t
    case Leaf => {}
    case Node(l, id, _, r) => Ids(l) + {id} + Ids(r)
  }

  function CtxIds(c: Ctx): set<nat>
  {
    match c
    case Top => {}
    case InLeft(id, _, other, up) => {id} + Ids(other) + CtxIds(up)
    case InRight(id, _, other, up) => {id} + Ids(other) + CtxIds(up)
  }

  /** No node occurs twice. */
  ghost predicate Distinct(t: Tree)
  {
    match t
    case Leaf => true
    case Node(l, id, _, r) => id !in Ids(l) && id !in Ids(r) && Ids(l) !! Ids(r) && Distinct(l) && Distinct(r)
  }

  ghost predicate CtxDistinct(c: Ctx)
  {
    match c
    case Top => true
    case InLeft(id, _, other, up) =>
      id !in Ids(other) && id !in CtxIds(up) && Ids(other) !! CtxIds(up) && Distinct(other) && CtxDistinct(up)
    case InRight(id, _, other, up) =>
      id !in Ids(other) && id !in CtxIds(up) && Ids(other) !! CtxIds(up) && Distinct(other) && CtxDistinct(up)
  }

  ghost predicate Apart(c: Ctx, t: Tree) { CtxDistinct(c) && Distinct(t) && CtxIds(c) !! Ids(t) }

  lemma {:induction false} PlugIds(c: Ctx, t: Tree)
    ensures Ids(Plug(c, t)) == CtxIds(c) + Ids(t)
    ensures Distinct(Plug(c, t)) <==> Apart(c, t)
    decreases c
  {
    match c
    case Top =>
    case InLeft(id, color, other, up) => PlugIds(up, Node(t, id, color, other));
    case InRight(id, color, other, up) => PlugIds(up, Node(other, id, color, t));
  }

  lemma {:induction false} IdsInorder(t: Tree)
    ensures forall x :: x in Ids(t) <==> x in Inorder(t)
  {
    match t
    case Leaf =>
    case Node(l, _, _, r) => IdsInorder(l); IdsInorder(r);
  }

  lemma {:induction false} DistinctInorder(t: Tree)
    requires Distinct(t)
    ensures NoDup(Inorder(t))
  {
    match t
    case Leaf =>
    case Node(l, id, _, r) =>
      DistinctInorder(l);
      DistinctInorder(r);
      IdsInorder(l);
      IdsInorder(r);
      NoDupJoin(Inorder(l), id, Inorder(r));
  }

  lemma NoDupJoin(a: seq<nat>, x: nat, b: seq<nat>)
    requires NoDup(a) && NoDup(b) && x !in a && x !in b && forall y :: y in a ==> y !in b
    ensures NoDup(a + [x] + b)
  {
    var s := a + [x] + b;
    forall i, j | 0 <= i < j < |s| ensures s[i] != s[j] {
      assert i < |a| ==> s[i] in a;
      assert j > |a| ==> s[j] in b;
    }
  }

  lemma SplitAt(a: seq<nat>, x: nat, b: seq<nat>, s: seq<nat>, i: nat)
    requires s == a + [x] + b && NoDup(s) && i < |s| && s[i] == x
    ensures s[..i] == a && s[i + 1..] == b
  {
    assert s[|a|] == x;
  }

  /** The focus on a given node. */
  lemma {:induction false} Locate(c: Ctx, t: Tree, id: nat) returns (c': Ctx, t': Tree)
    requires id in Ids(t)
    ensures Plug(c', t') == Plug(c, t) && t'.Node? && t'.id == id
    decreases t
  {
    if id in Ids(t.left) {
      c', t' := Locate(InLeft(t.id, t.color, t.right, c), t.left, id);
    } else if id in Ids(t.right) {
      c', t' := Locate(InRight(t.id, t.color, t.left, c), t.right, id);
    } else {
      c', t' := c, t;
    }
  }

  /** The in-order sequence around a focused node. */
  lemma AtIndex(c: Ctx, t: Tree, i: nat)
    requires t.Node? && Apart(c, t) && i < |Inorder(Plug(c, t))| && Inorder(Plug(c, t))[i] == t.id
    ensures var s := Inorder(Plug(c, t));
            s[..i] == Before(c) + Inorder(t.left) && s[i + 1..] == Inorder(t.right) + After(c)
  {
    InorderPlug(c, t);
    PlugIds(c, t);
    DistinctInorder(Plug(c, t));
    AroundNode(Before(c), Inorder(t.left), t.id, Inorder(t.right), After(c));
    SplitAt(Before(c) + Inorder(t.left), t.id, Inorder(t.right) + After(c), Inorder(Plug(c, t)), i);
  }

  lemma AroundNode(a: seq<nat>, l: seq<nat>, x: nat, r: seq<nat>, b: seq<nat>)
    ensures a + (l + [x] + r) + b == (a + l) + [x] + (r + b)
  {
  }

  /** `inner` placed in the hole of `outer`. */
  function Compose(inner: Ctx, outer: Ctx): Ctx
  {
    match inner
    case Top => outer
    case InLeft(id, color, other, up) => InLeft(id, color, other, Compose(up, outer))
    case InRight(id, color, other, up) => InRight(id, color, other, Compose(up, outer))
  }

  /** The way to the leftmost node. */
  ghost predicate LeftSpine(c: Ctx) { c.Top? || (c.InLeft? && LeftSpine(c.up)) }

  lemma {:induction false} SpineFacts(k: Ctx, c: Ctx, t: Tree)
    requires LeftSpine(k)
    ensures Plug(Compose(k, c), t) == Plug(c, Plug(k, t))
    ensures Before(Compose(k, c)) == Before(c) && Before(k) == []
    ensures CtxIds(Compose(k, c)) == CtxIds(k) + CtxIds(c)
    decreases k
  {
    if k.InLeft? { SpineFacts(k.up, c, Node(t, k.id, k.color, k.other)); }
  }

  /** The way to the rightmost node. */
  ghost predicate RightSpine(c: Ctx) { c.Top? || (c.InRight? && RightSpine(c.up)) }

  lemma {:induction false} RightSpineFacts(k: Ctx, c: Ctx, t: Tree)
    requires RightSpine(k)
    ensures Plug(Compose(k, c), t) == Plug(c, Plug(k, t))
    ensures After(Compose(k, c)) == After(c) && After(k) == []
    ensures CtxIds(Compose(k, c)) == CtxIds(k) + CtxIds(c)
    decreases k
  {
    if k.InRight? { RightSpineFacts(k.up, c, Node(k.other, k.id, k.color, t)); }
  }

  // ---- balance ----

  predicate IsRed(t: Tree) { t.Node? && t.color == Red }

  /** Every path from the root of `t` to a leaf has `h` black nodes. */
  ghost predicate BlackHeight(t: Tree, h: nat)
  {
    match t
    case Leaf => h == 0
    case Node(l, _, color, r) =>
      if color == Red then BlackHeight(l, h) && BlackHeight(r, h)
      else h > 0 && BlackHeight(l, h - 1) && BlackHeight(r, h - 1)
  }

  ghost predicate NoRedRed(t: Tree)
  {
    match t
    case Leaf => true
    case Node(l, _, color, r) => (color == Red ==> !IsRed(l) && !IsRed(r)) && NoRedRed(l) && NoRedRed(r)
  }

  ghost predicate RedBlack(t: Tree)
  {
    !IsRed(t) && NoRedRed(t) && exists h :: BlackHeight(t, h)
  }

  /** The context is balanced when a tree of black height `h` fills the hole. */
  ghost predicate CtxHeight(c: Ctx, h: nat)
  {
    match c
    case Top => true
    case InLeft(_, color, other, up) => BlackHeight(other, h) && CtxHeight(up, if color == Black then h + 1 else h)
    case InRight(_, color, other, up) => BlackHeight(other, h) && CtxHeight(up, if color == Black then h + 1 else h)
  }

  /** The hole hangs below a black node. */
  predicate UnderBlack(c: Ctx) { !c.Top? && c.color == Black }

  /** The context has no red node at the root or below a red node, when the
      hole is filled by a tree with a black root. */
  ghost predicate CtxNoRedRed(c: Ctx)
  {
    match c
    case Top => true
    case InLeft(_, color, other, up) =>
      (color == Red ==> !IsRed(other) && UnderBlack(up)) && NoRedRed(other) && CtxNoRedRed(up)
    case InRight(_, color, other, up) =>
      (color == Red ==> !IsRed(other) && UnderBlack(up)) && NoRedRed(other) && CtxNoRedRed(up)
  }

  lemma {:induction false} PlugRedBlack(c: Ctx, t: Tree, h: nat)
    requires CtxHeight(c, h) && BlackHeight(t, h)
    requires CtxNoRedRed(c) && NoRedRed(t) && (IsRed(t) ==> UnderBlack(c))
    ensures RedBlack(Plug(c, t))
    decreases c
  {
    match c
    case Top =>
    case InLeft(id, color, other, up) =>
      PlugRedBlack(up, Node(t, id, color, other), if color == Black then h + 1 else h);
    case InRight(id, color, other, up) =>
      PlugRedBlack(up, Node(other, id, color, t), if color == Black then h + 1 else h);
  }

  lemma {:induction false} UnplugRedBlack(c: Ctx, t: Tree) returns (h: nat)
    requires RedBlack(Plug(c, t))
    ensures CtxHeight(c, h) && BlackHeight(t, h)
    ensures CtxNoRedRed(c) && NoRedRed(t) && (IsRed(t) ==> UnderBlack(c))
    decreases c
  {
    match c
    case Top => h :| BlackHeight(t, h);
    case InLeft(id, color, other, up) =>
      h := UnplugRedBlack(up, Node(t, id, color, other));
      if color == Black { h := h - 1; }
    case InRight(id, color, other, up) =>
      h := UnplugRedBlack(up, Node(other, id, color, t));
      if color == Black { h := h - 1; }
  }

  // ---- height ----

  function Height(t: Tree): nat
  {
    match t
    case Leaf => 0
    case Node(l, _, _, r) => 1 + if Height(l) > Height(r) then Height(l) else Height(r)
  }

  lemma {:induction false} BlackHeightBounds(t: Tree, h: nat)
    requires BlackHeight(t, h) && NoRedRed(t)
    ensures Pow2(h) <= |Inorder(t)| + 1
    ensures Height(t) <= if IsRed(t) then 2 * h + 1 else 2 * h
  {
    match t
    case Leaf =>
    case Node(l, _, color, r) =>
      var k := if color == Red then h else h - 1;
      BlackHeightBounds(l, k);
      BlackHeightBounds(r, k);
  }

  /** A red-black tree of `n` nodes is at most `2 * log2(n + 1)` high. */
  lemma HeightIsLogarithmic(t: Tree)
    requires RedBlack(t)
    ensures exists h: nat :: Height(t) <= 2 * h && Pow2(h) <= |Inorder(t)| + 1
  {
    var h :| BlackHeight(t, h);
    BlackHeightBounds(t, h);
  }

  // ---- insertion ----

  /** A tree of some black height fits the context. */
  ghost predicate Fits(c: Ctx, t: Tree)
  {
    exists h: nat :: CtxHeight(c, h) && BlackHeight(t, h)
  }

  /** Red node `t` hangs in an otherwise good tree, maybe below a red parent. */
  ghost predicate RedHole(c: Ctx, t: Tree)
  {
    IsRed(t) && NoRedRed(t) && CtxNoRedRed(c) && Fits(c, t)
  }

  function Paint(t: Tree, color: Color): Tree { if t.Leaf? then t else t.(color := color) }

  function WithLeft(t: Tree, l: Tree): Tree { if t.Leaf? then t else t.(left := l) }

  function WithRight(t: Tree, r: Tree): Tree { if t.Leaf? then t else t.(right := r) }

  lemma PaintFacts(t: Tree, color: Color)
    ensures Inorder(Paint(t, color)) == Inorder(t) && Ids(Paint(t, color)) == Ids(t)
    ensures Distinct(Paint(t, color)) == Distinct(t)
  {
  }

  /** The subtree at a context's parent, with `t` in the hole. */
  function Above(c: Ctx, t: Tree): (q: Tree)
    requires !c.Top?
    ensures q.Node? && q.id == c.id && q.color == c.color
  {
    match c
    case InLeft(id, color, other, _) => Node(t, id, color, other)
    case InRight(id, color, other, _) => Node(other, id, color, t)
  }

  /** The grandparent, with its children and itself recoloured. */
  function Flipped(g: Tree): Tree
    requires g.Node?
  {
    g.(color := Red, left := Paint(g.left, Black), right := Paint(g.right, Black))
  }

  /** Red parent and red uncle: recolouring moves the red node two levels up. */
  lemma FlipStep(c: Ctx, t: Tree)
    requires RedHole(c, t) && !c.Top? && c.color == Red
    ensures !c.up.Top? && c.up.color == Black
    ensures IsRed(c.up.other) ==> RedHole(c.up.up, Flipped(Above(c.up, Above(c, t))))
    ensures Inorder(Flipped(Above(c.up, Above(c, t)))) == Inorder(Above(c.up, Above(c, t)))
  {
    var h: nat :| CtxHeight(c, h) && BlackHeight(t, h);
    assert CtxHeight(c.up, h) && CtxNoRedRed(c.up);
    var g := Above(c.up, Above(c, t));
    if IsRed(c.up.other) {
      assert BlackHeight(Paint(c.up.other, Black), h + 1);
      assert BlackHeight(Paint(Above(c, t), Black), h + 1);
      assert BlackHeight(Flipped(g), h + 1) && CtxHeight(c.up.up, h + 1);
    }
    PaintFacts(g.left, Black);
    PaintFacts(g.right, Black);
  }

  /** Root of a rotated grandparent painted black, the old grandparent red. */
  function Settled(r: Tree, toRight: bool): Tree
    requires r.Node?
  {
    if toRight then r.(color := Black, right := Paint(r.right, Red))
    else r.(color := Black, left := Paint(r.left, Red))
  }

  /** Red parent, black uncle, `t` on the outer side: one rotation settles it. */
  lemma OuterStep(c: Ctx, t: Tree)
    requires RedHole(c, t) && !c.Top? && c.color == Red && !IsRed(c.up.other)
    requires c.InLeft? == c.up.InLeft?
    ensures var g := Above(c.up, Above(c, t));
            var s := if c.InLeft? then Settled(RotatedRight(g), true) else Settled(RotatedLeft(g), false);
            RedBlack(Plug(c.up.up, s)) && Inorder(s) == Inorder(g)
  {
    var h: nat :| CtxHeight(c, h) && BlackHeight(t, h);
    assert CtxHeight(c.up, h) && CtxNoRedRed(c.up);
    var g := Above(c.up, Above(c, t));
    var r := if c.InLeft? then RotatedRight(g) else RotatedLeft(g);
    var s := Settled(r, c.InLeft?);
    InorderRotated(g);
    if c.InLeft? {
      PaintFacts(r.right, Red);
      assert BlackHeight(s.right, h);
    } else {
      PaintFacts(r.left, Red);
      assert BlackHeight(s.left, h);
    }
    PlugRedBlack(c.up.up, s, h + 1);
  }

  /** On the inner side a first rotation at the parent moves `t`'s parent to
      the outer side. */
  lemma InnerStep(c: Ctx, t: Tree)
    requires RedHole(c, t) && !c.Top? && c.color == Red
    ensures c.InRight? ==> var r := RotatedLeft(Above(c, t)); RedHole(InLeft(r.id, r.color, r.right, c.up), r.left)
    ensures c.InLeft? ==> var r := RotatedRight(Above(c, t)); RedHole(InRight(r.id, r.color, r.left, c.up), r.right)
    ensures c.InRight? ==> Inorder(RotatedLeft(Above(c, t))) == Inorder(Above(c, t))
    ensures c.InLeft? ==> Inorder(RotatedRight(Above(c, t))) == Inorder(Above(c, t))
  {
    var h: nat :| CtxHeight(c, h) && BlackHeight(t, h);
    assert CtxHeight(c.up, h) && CtxNoRedRed(c.up);
    InorderRotated(Above(c, t));
    if c.InRight? {
      var r := RotatedLeft(Above(c, t));
      assert BlackHeight(r.left, h) && CtxHeight(InLeft(r.id, r.color, r.right, c.up), h);
    } else {
      var r := RotatedRight(Above(c, t));
      assert BlackHeight(r.right, h) && CtxHeight(InRight(r.id, r.color, r.left, c.up), h);
    }
  }

  /** At a black or missing parent only the root's colour can be wrong. */
  lemma PaintedRoot(c: Ctx, t: Tree)
    requires RedBlack(Plug(c, t)) || (RedHole(c, t) && (c.Top? || c.color == Black))
    ensures RedBlack(Paint(Plug(c, t), Black))
  {
    if !RedBlack(Plug(c, t)) {
      var h: nat :| CtxHeight(c, h) && BlackHeight(t, h);
      if c.Top? {
        assert BlackHeight(Paint(t, Black), h + 1);
      } else {
        PlugRedBlack(c, t, h);
      }
    }
  }

  // ---- erasure ----

  /** The tree in the hole is one black node short. */
  ghost predicate Deficit(c: Ctx, t: Tree)
  {
    NoRedRed(Paint(t, Black)) && CtxNoRedRed(c) && exists h: nat :: BlackHeight(t, h) && CtxHeight(c, h + 1)
  }

  function Depth(c: Ctx): nat { if c.Top? then 0 else 1 + Depth(c.up) }

  /** Rounds the repair may still take: none below a red tree. */
  function Rounds(c: Ctx, t: Tree): nat { if IsRed(t) then 0 else 1 + Depth(c) }

  /** At the root the deficit is harmless; a red node is painted black. */
  lemma DeficitSettled(c: Ctx, t: Tree)
    requires Deficit(c, t) && (c.Top? || IsRed(t))
    ensures RedBlack(Plug(c, Paint(t, Black)))
  {
    var h: nat :| BlackHeight(t, h) && CtxHeight(c, h + 1);
    var s := Paint(t, Black);
    if IsRed(t) {
      assert BlackHeight(s, h + 1);
      PlugRedBlack(c, s, h + 1);
    } else {
      assert s == t;
    }
  }

  lemma SiblingIsNode(c: Ctx, t: Tree)
    requires Deficit(c, t) && !c.Top?
    ensures c.other.Node?
    ensures !IsRed(c.other) && IsRed(c.other.left) ==> c.other.left.Node?
  {
  }

  /** Red sibling on the right of the hole: a rotation puts a black sibling
      there. */
  lemma RedSiblingRight(c: Ctx, t: Tree) returns (d: Ctx)
    requires Deficit(c, t) && c.InLeft? && IsRed(c.other)
    ensures d == InLeft(c.id, Red, c.other.left, InLeft(c.other.id, Black, c.other.right, c.up))
    ensures RotatedLeft(WithRight(Paint(Above(c, t), Red), Paint(c.other, Black))) == Above(d.up, Above(d, t))
    ensures Inorder(Above(d.up, Above(d, t))) == Inorder(Above(c, t))
    ensures Deficit(d, t) && !IsRed(d.other)
  {
    var b, q := c.other, Above(c, t);
    d := InLeft(c.id, Red, b.left, InLeft(b.id, Black, b.right, c.up));
    var h: nat :| BlackHeight(t, h) && CtxHeight(c, h + 1);
    PaintFacts(b, Black);
    InorderRotated(WithRight(Paint(q, Red), Paint(b, Black)));
    assert CtxHeight(d.up, h + 1) && CtxHeight(d, h + 1);
  }

  /** Black sibling, black nephews: the deficit moves to the parent. */
  lemma BlackNephewsRight(c: Ctx, t: Tree)
    requires Deficit(c, t) && !IsRed(t) && c.InLeft? && !IsRed(c.other)
    requires c.other.Node? && !IsRed(c.other.left) && !IsRed(c.other.right)
    ensures var q := WithRight(Above(c, t), Paint(c.other, Red)); Deficit(c.up, q) && Inorder(q) == Inorder(Above(c, t))
  {
    var h: nat :| BlackHeight(t, h) && CtxHeight(c, h + 1);
    var q := WithRight(Above(c, t), Paint(c.other, Red));
    PaintFacts(c.other, Red);
    assert BlackHeight(Paint(c.other, Red), h);
    assert BlackHeight(q, if c.color == Black then h + 1 else h);
    assert Paint(t, Black) == t;
  }

  /** Only the inner nephew is red: a rotation at the sibling makes the outer
      one red. */
  lemma InnerNephewRight(c: Ctx, t: Tree) returns (b: Tree)
    requires Deficit(c, t) && c.InLeft? && !IsRed(c.other)
    requires c.other.Node? && IsRed(c.other.left) && !IsRed(c.other.right)
    ensures b == RotatedRight(WithLeft(Paint(c.other, Red), Paint(c.other.left, Black)))
    ensures !IsRed(b) && IsRed(b.right) && Inorder(b) == Inorder(c.other)
    ensures Deficit(InLeft(c.id, c.color, b, c.up), t)
  {
    var h: nat :| BlackHeight(t, h) && CtxHeight(c, h + 1);
    var n := c.other.left;
    assert BlackHeight(n, h) && NoRedRed(n);
    var s := WithLeft(Paint(c.other, Red), Paint(n, Black));
    PaintFacts(n, Black);
    InorderRotated(s);
    b := RotatedRight(s);
    assert BlackHeight(b.right, h) && BlackHeight(b, h + 1);
    assert CtxHeight(InLeft(c.id, c.color, b, c.up), h + 1);
  }

  /** The outer nephew is red: a rotation at the parent pays the deficit. */
  lemma OuterNephewRight(c: Ctx, t: Tree) returns (q: Tree)
    requires Deficit(c, t) && !IsRed(t) && c.InLeft? && !IsRed(c.other)
    requires c.other.Node? && IsRed(c.other.right)
    ensures q == WithRight(Paint(Above(c, t), Black), WithRight(Paint(c.other, c.color), Paint(c.other.right, Black)))
    ensures RedBlack(Plug(c.up, RotatedLeft(q))) && Inorder(RotatedLeft(q)) == Inorder(Above(c, t))
  {
    var h: nat :| BlackHeight(t, h) && CtxHeight(c, h + 1);
    var n := c.other.right;
    assert BlackHeight(n, h) && NoRedRed(n);
    q := WithRight(Paint(Above(c, t), Black), WithRight(Paint(c.other, c.color), Paint(n, Black)));
    PaintFacts(n, Black);
    InorderRotated(q);
    assert Paint(t, Black) == t;
    var r := RotatedLeft(q);
    assert BlackHeight(Paint(n, Black), h + 1) && NoRedRed(Paint(n, Black));
    assert BlackHeight(r.left, h + 1) && NoRedRed(r.left);
    var k: nat := if c.color == Black then h + 2 else h + 1;
    assert BlackHeight(r, k) && CtxHeight(c.up, k);
    PlugRedBlack(c.up, r, k);
  }

  /** Red sibling on the left of the hole: a rotation puts a black sibling
      there. */
  lemma RedSiblingLeft(c: Ctx, t: Tree) returns (d: Ctx)
    requires Deficit(c, t) && c.InRight? && IsRed(c.other)
    ensures d == InRight(c.id, Red, c.other.right, InRight(c.other.id, Black, c.other.left, c.up))
    ensures RotatedRight(WithLeft(Paint(Above(c, t), Red), Paint(c.other, Black))) == Above(d.up, Above(d, t))
    ensures Inorder(Above(d.up, Above(d, t))) == Inorder(Above(c, t))
    ensures Deficit(d, t) && !IsRed(d.other)
  {
    var b, q := c.other, Above(c, t);
    d := InRight(c.id, Red, b.right, InRight(b.id, Black, b.left, c.up));
    var h: nat :| BlackHeight(t, h) && CtxHeight(c, h + 1);
    PaintFacts(b, Black);
    InorderRotated(WithLeft(Paint(q, Red), Paint(b, Black)));
    assert CtxHeight(d.up, h + 1) && CtxHeight(d, h + 1);
  }

  /** Black sibling, black nephews: the deficit moves to the parent. */
  lemma BlackNephewsLeft(c: Ctx, t: Tree)
    requires Deficit(c, t) && !IsRed(t) && c.InRight? && !IsRed(c.other)
    requires c.other.Node? && !IsRed(c.other.right) && !IsRed(c.other.left)
    ensures var q := WithLeft(Above(c, t), Paint(c.other, Red)); Deficit(c.up, q) && Inorder(q) == Inorder(Above(c, t))
  {
    var h: nat :| BlackHeight(t, h) && CtxHeight(c, h + 1);
    var q := WithLeft(Above(c, t), Paint(c.other, Red));
    PaintFacts(c.other, Red);
    assert BlackHeight(Paint(c.other, Red), h);
    assert BlackHeight(q, if c.color == Black then h + 1 else h);
    assert Paint(t, Black) == t;
  }

  /** Only the inner nephew is red: a rotation at the sibling makes the outer
      one red. */
  lemma InnerNephewLeft(c: Ctx, t: Tree) returns (b: Tree)
    requires Deficit(c, t) && c.InRight? && !IsRed(c.other)
    requires c.other.Node? && IsRed(c.other.right) && !IsRed(c.other.left)
    ensures b == RotatedLeft(WithRight(Paint(c.other, Red), Paint(c.other.right, Black)))
    ensures !IsRed(b) && IsRed(b.left) && Inorder(b) == Inorder(c.other)
    ensures Deficit(InRight(c.id, c.color, b, c.up), t)
  {
    var h: nat :| BlackHeight(t, h) && CtxHeight(c, h + 1);
    var n := c.other.right;
    assert BlackHeight(n, h) && NoRedRed(n);
    var s := WithRight(Paint(c.other, Red), Paint(n, Black));
    PaintFacts(n, Black);
    InorderRotated(s);
    b := RotatedLeft(s);
    assert BlackHeight(b.left, h) && BlackHeight(b, h + 1);
    assert CtxHeight(InRight(c.id, c.color, b, c.up), h + 1);
  }

  /** The outer nephew is red: a rotation at the parent pays the deficit. */
  lemma OuterNephewLeft(c: Ctx, t: Tree) returns (q: Tree)
    requires Deficit(c, t) && !IsRed(t) && c.InRight? && !IsRed(c.other)
    requires c.other.Node? && IsRed(c.other.left)
    ensures q == WithLeft(Paint(Above(c, t), Black), WithLeft(Paint(c.other, c.color), Paint(c.other.left, Black)))
    ensures RedBlack(Plug(c.up, RotatedRight(q))) && Inorder(RotatedRight(q)) == Inorder(Above(c, t))
  {
    var h: nat :| BlackHeight(t, h) && CtxHeight(c, h + 1);
    var n := c.other.left;
    assert BlackHeight(n, h) && NoRedRed(n);
    q := WithLeft(Paint(Above(c, t), Black), WithLeft(Paint(c.other, c.color), Paint(n, Black)));
    PaintFacts(n, Black);
    InorderRotated(q);
    assert Paint(t, Black) == t;
    var r := RotatedRight(q);
    assert BlackHeight(Paint(n, Black), h + 1) && NoRedRed(Paint(n, Black));
    assert BlackHeight(r.right, h + 1) && NoRedRed(r.right);
    var k: nat := if c.color == Black then h + 2 else h + 1;
    assert BlackHeight(r, k) && CtxHeight(c.up, k);
    PlugRedBlack(c.up, r, k);
  }

  // ---- taking a node out ----

  /** The in-order sequence without the focused node. */
  function Around(c: Ctx, t: Tree): seq<nat>
    requires t.Node?
  {
    Before(c) + Inorder(t.left) + (Inorder(t.right) + After(c))
  }

  ghost predicate OnlyChild(t: Tree, u: Tree)
  {
    t.Node? && ((t.left.Leaf? && u == t.right) || (t.right.Leaf? && u == t.left))
  }

  lemma UnlinkRed(c: Ctx, t: Tree, u: Tree)
    requires RedBlack(Plug(c, t)) && OnlyChild(t, u) && t.color == Red
    ensures RedBlack(Plug(c, u))
  {
    var h := UnplugRedBlack(c, t);
    assert BlackHeight(u, h) && NoRedRed(u) && !IsRed(u);
    PlugRedBlack(c, u, h);
  }

  lemma UnlinkBlack(c: Ctx, t: Tree, u: Tree)
    requires RedBlack(Plug(c, t)) && OnlyChild(t, u) && t.color == Black
    ensures Deficit(c, u)
  {
    var h := UnplugRedBlack(c, t);
    var k: nat := h - 1;
    assert BlackHeight(u, k) && CtxHeight(c, k + 1) && NoRedRed(u);
  }

  /** Taking out a node with at most one child. */
  lemma UnlinkOne(c: Ctx, t: Tree, u: Tree)
    requires RedBlack(Plug(c, t)) && OnlyChild(t, u)
    ensures t.color == Black ==> Deficit(c, u)
    ensures t.color == Red ==> RedBlack(Plug(c, u))
  {
    if t.color == Red { UnlinkRed(c, t, u); } else { UnlinkBlack(c, t, u); }
  }

  lemma OrderOne(c: Ctx, t: Tree, u: Tree)
    requires OnlyChild(t, u)
    ensures Inorder(Plug(c, u)) == Around(c, t)
  {
    InorderPlug(c, u);
    JoinEmpty(Before(c), Inorder(u), After(c));
  }

  lemma JoinEmpty(a: seq<nat>, u: seq<nat>, b: seq<nat>)
    ensures a + u + b == a + [] + (u + b) == a + u + ([] + b)
  {
  }

  /** Only the identity of a frame changes: the balance does not. */
  lemma {:induction false} Renamed(k: Ctx, i: nat, j: nat, color: Color, l: Tree, c: Ctx, h: nat)
    requires LeftSpine(k)
    ensures var a, b := Compose(k, InRight(i, color, l, c)), Compose(k, InRight(j, color, l, c));
            && (CtxHeight(a, h) <==> CtxHeight(b, h))
            && (CtxNoRedRed(a) <==> CtxNoRedRed(b)) && UnderBlack(a) == UnderBlack(b)
  {
    if k.InLeft? { Renamed(k.up, i, j, color, l, c, if k.color == Black then h + 1 else h); }
  }

  /** Taking out a node with two children: its in-order successor `v`, the
      leftmost node on its right, takes its place and colour. */
  lemma UnlinkTwo(c: Ctx, t: Tree, k: Ctx, v: Tree)
    requires RedBlack(Plug(c, t)) && t.Node? && LeftSpine(k) && Plug(k, v) == t.right
    requires v.Node? && v.left.Leaf?
    ensures var c' := Compose(k, InRight(v.id, t.color, t.left, c));
            && (v.color == Black ==> Deficit(c', v.right))
            && (v.color == Red ==> RedBlack(Plug(c', v.right)))
  {
    var d := InRight(t.id, t.color, t.left, c);
    var d' := InRight(v.id, t.color, t.left, c);
    hide Plug, Compose, BlackHeight, CtxHeight, NoRedRed;
    SpineFacts(k, d, v);
    UnlinkOne(Compose(k, d), v, v.right);
    if v.color == Red {
      var h := UnplugRedBlack(Compose(k, d), v.right);
      Renamed(k, t.id, v.id, t.color, t.left, c, h);
      PlugRedBlack(Compose(k, d'), v.right, h);
    } else {
      var h: nat :| BlackHeight(v.right, h) && CtxHeight(Compose(k, d), h + 1);
      Renamed(k, t.id, v.id, t.color, t.left, c, h + 1);
    }
  }

  /** The leftmost node is the subtree's root or lies below its left link. */
  lemma {:induction false} SpineRoot(k: Ctx, v: Tree, t: Tree)
    requires LeftSpine(k) && Plug(k, v) == t && v.Node? && Distinct(t)
    ensures t.Node? && (t.id == v.id <==> k.Top?)
    ensures k.InLeft? ==> t.id in CtxIds(k) && t.left.Node?
    ensures k.Top? ==> t == v
    decreases k
  {
    if k.InLeft? {
      PlugIds(k, v);
      SpineTop(k, v);
    }
  }

  lemma {:induction false} SpineTop(k: Ctx, v: Tree)
    requires LeftSpine(k) && k.InLeft?
    ensures Plug(k, v).Node? && Plug(k, v).id in CtxIds(k) && (v.Node? ==> Plug(k, v).left.Node?)
    decreases k
  {
    if k.up.InLeft? { SpineTop(k.up, Node(v, k.id, k.color, k.other)); }
  }

  /** Who is where when the successor is not the right child. */
  lemma FarApart(c: Ctx, t: Tree, k: Ctx, v: Tree)
    requires Apart(c, t) && t.Node? && LeftSpine(k) && Plug(k, v) == t.right && v.Node?
    ensures var d := InRight(t.id, t.color, t.left, c);
            && t.id in CtxIds(d) && t.id !in CtxIds(k) && t.id !in Ids(v)
            && v.id !in CtxIds(c) && v.id !in Ids(t.left) && v.id != t.id && v.id !in Ids(Plug(k, v.right))
  {
    PlugIds(k, v);
    PlugIds(k, v.right);
  }

  lemma OrderTwo(c: Ctx, t: Tree, k: Ctx, v: Tree)
    requires t.Node? && LeftSpine(k) && Plug(k, v) == t.right && v.Node? && v.left.Leaf?
    ensures Inorder(Plug(Compose(k, InRight(v.id, t.color, t.left, c)), v.right)) == Around(c, t)
  {
    var d := InRight(v.id, t.color, t.left, c);
    SpineFacts(k, d, v.right);
    SpineFacts(k, d, v);
    InorderPlug(d, Plug(k, v.right));
    InorderPlug(k, v.right);
    InorderPlug(k, v);
    Successor(Before(c), Inorder(t.left), v.id, Inorder(v.right), After(k), After(c));
    assert Inorder(v) == [] + [v.id] + Inorder(v.right);
  }

  lemma Successor(a: seq<nat>, l: seq<nat>, x: nat, r: seq<nat>, b: seq<nat>, e: seq<nat>)
    ensures a + (l + [x]) + ([] + r + b) + e == a + l + ([] + ([] + [x] + r) + b + e)
  {
    assert a + (l + [x]) + ([] + r + b) + e == a + l + [x] + r + b + e;
  }
}
