/** Sorted lists of address ranges, as the boot allocator keeps them, and what
    its operations do to the set of covered addresses. */
module Ranges {
  import opened Bits

  /** The addresses from `begin` up to but not including `end`. */
  datatype Range = Range(begin: nat, end: nat)

  ghost predicate Has(r: Range, a: nat) { r.begin <= a < r.end }

  ghost predicate Covers(s: seq<Range>, a: nat) { exists r :: r in s && Has(r, a) }

  /** Ascending, and neither overlapping nor touching. */
  ghost predicate Separated(s: seq<Range>)
  {
    && (forall i :: 0 <= i < |s| ==> s[i].begin <= s[i].end)
    && (forall i, j :: 0 <= i < j < |s| ==> s[i].end < s[j].begin)
  }

  /** How many stored ranges begin before `from`. */
  function Position(s: seq<Range>, from: nat): (k: nat)
    ensures k <= |s|
    ensures forall i :: 0 <= i < k ==> s[i].begin < from
    ensures k < |s| ==> s[k].begin >= from
  {
    if s == [] || s[0].begin >= from then 0 else 1 + Position(s[1..], from)
  }

  lemma {:induction false} PositionUnique(s: seq<Range>, from: nat, k: nat)
    requires k <= |s| && (forall i :: 0 <= i < k ==> s[i].begin < from) && (k < |s| ==> s[k].begin >= from)
    ensures Position(s, from) == k
  {
    if k > 0 { PositionUnique(s[1..], from, k - 1); }
  }

  /** The new range after it swallowed its predecessor, if they touch. */
  function Grown(s: seq<Range>, from: nat, to: nat): Range
  {
    var k := Position(s, from);
    if k > 0 && s[k - 1].end >= from then Range(s[k - 1].begin, if s[k - 1].end > to then s[k - 1].end else to)
    else Range(from, to)
  }

  lemma Join(s: seq<Range>, r: Range, t: seq<Range>)
    requires Separated(s) && Separated(t) && r.begin <= r.end
    requires forall x :: x in s ==> x.end < r.begin
    requires forall x :: x in t ==> r.end < x.begin
    ensures Separated(s + [r] + t)
  {
    var u := s + [r] + t;
    forall i, j | 0 <= i < j < |u| ensures u[i].end < u[j].begin {
      assert i < |s| ==> u[i] in s;
      assert j > |s| ==> u[j] in t;
      assert i > |s| ==> u[i] == t[i - |s| - 1];
      if i < |s| && j > |s| { assert u[i].end < r.begin <= r.end < u[j].begin; }
    }
  }

  lemma CoversJoin(s: seq<Range>, r: Range, t: seq<Range>, a: nat)
    ensures Covers(s + [r] + t, a) <==> Covers(s, a) || Has(r, a) || Covers(t, a)
  {
    var u := s + [r] + t;
    if Covers(s, a) { var x :| x in s && Has(x, a); assert x in u; }
    if Covers(t, a) { var x :| x in t && Has(x, a); assert x in u; }
    if Has(r, a) { assert r in u; }
  }

  /** The parts of a separated list before and after position `k`. */
  lemma Parts(s: seq<Range>, k: nat)
    requires Separated(s) && k < |s|
    ensures Separated(s[..k]) && Separated(s[k + 1..]) && s == s[..k] + [s[k]] + s[k + 1..]
    ensures forall x :: x in s[..k] ==> x.begin <= x.end < s[k].begin
    ensures forall x :: x in s[k + 1..] ==> s[k].end < x.begin
  {
  }

  /** The ranges kept before and after the new one, and the new one itself. */
  function Head(s: seq<Range>, from: nat): seq<Range>
  {
    var k := Position(s, from);
    if k > 0 && s[k - 1].end >= from then s[..k - 1] else s[..k]
  }

  function Middle(s: seq<Range>, from: nat, to: nat): Range
  {
    var k, g := Position(s, from), Grown(s, from, to);
    if k < |s| && s[k].begin <= g.end then Range(g.begin, s[k].end) else g
  }

  function Tail(s: seq<Range>, from: nat, to: nat): seq<Range>
  {
    var k := Position(s, from);
    if k < |s| && s[k].begin <= Grown(s, from, to).end then s[k + 1..] else s[k..]
  }

  /** `__balloc_add_range`: merges with the predecessor and with one
      successor, whose end it takes over. */
  function Add(s: seq<Range>, from: nat, to: nat): seq<Range>
  {
    Head(s, from) + [Middle(s, from, to)] + Tail(s, from, to)
  }

  lemma AddSeparated(s: seq<Range>, from: nat, to: nat)
    requires Separated(s) && from <= to
    ensures Separated(Add(s, from, to))
  {
    HeadBefore(s, from, to);
    TailAfter(s, from, to);
    Join(Head(s, from), Middle(s, from, to), Tail(s, from, to));
  }

  /** Adding a range takes one place more at most. */
  lemma AddLength(s: seq<Range>, from: nat, to: nat)
    ensures |Add(s, from, to)| <= |s| + 1
  {
  }

  ghost predicate NonEmpty(s: seq<Range>) { forall r :: r in s ==> r.begin < r.end }

  lemma AddNonEmpty(s: seq<Range>, from: nat, to: nat)
    requires NonEmpty(s) && from < to
    ensures NonEmpty(Add(s, from, to))
  {
  }

  /** A range inside what one stored range covers outlasts no other. */
  lemma InsideFits(s: seq<Range>, i: nat, from: nat, to: nat)
    requires Separated(s) && i < |s| && s[i].begin <= from <= to <= s[i].end
    ensures NoOvershoot(s, from, to)
  {
  }

  lemma Slices(s: seq<Range>, k: nat)
    requires Separated(s) && k <= |s|
    ensures Separated(s[..k]) && Separated(s[k..])
    ensures forall x :: x in s[..k] ==> k < |s| ==> x.end < s[k].begin
    ensures forall x :: x in s[k..] ==> k > 0 ==> s[k - 1].end < x.begin
  {
  }

  lemma HeadBefore(s: seq<Range>, from: nat, to: nat)
    requires Separated(s) && from <= to
    ensures Separated(Head(s, from)) && forall x :: x in Head(s, from) ==> x.end < Middle(s, from, to).begin
  {
    var k := Position(s, from);
    Slices(s, k);
    if k > 0 {
      Slices(s, k - 1);
      if s[k - 1].end < from {
        forall x | x in s[..k] ensures x.end < from { assert x in s[..k - 1] || x == s[k - 1]; }
      }
    }
  }

  lemma TailAfter(s: seq<Range>, from: nat, to: nat)
    requires Separated(s) && from <= to
    ensures Middle(s, from, to).begin <= Middle(s, from, to).end
    ensures Separated(Tail(s, from, to)) && forall x :: x in Tail(s, from, to) ==> Middle(s, from, to).end < x.begin
  {
    hide Covers, Cut;
    var k := Position(s, from);
    Slices(s, k);
    if k < |s| {
      Slices(s, k + 1);
      forall x | x in s[k..] ensures x == s[k] || x in s[k + 1..] {}
    }
  }

  /** No stored range that begins inside the added one ends before it. */
  ghost predicate NoOvershoot(s: seq<Range>, from: nat, to: nat)
  {
    forall r :: r in s && from <= r.begin <= to ==> to <= r.end
  }

  ghost predicate IsUnion(t: seq<Range>, s: seq<Range>, from: nat, to: nat)
  {
    forall a: nat :: Covers(t, a) <==> Covers(s, a) || from <= a < to
  }

  /** Adding a range is union exactly when it does not outlast a stored range
      that begins inside it; otherwise its tail is lost. */
  lemma AddIsUnion(s: seq<Range>, from: nat, to: nat)
    requires Separated(s) && from <= to
    ensures IsUnion(Add(s, from, to), s, from, to) <==> NoOvershoot(s, from, to)
  {
    if NoOvershoot(s, from, to) {
      forall a: nat ensures Covers(Add(s, from, to), a) <==> Covers(s, a) || from <= a < to {
        AddCovers(s, from, to, a);
      }
    } else {
      var a := Lost(s, from, to);
    }
  }

  lemma AddCovers(s: seq<Range>, from: nat, to: nat, a: nat)
    requires Separated(s) && from <= to && NoOvershoot(s, from, to)
    ensures Covers(Add(s, from, to), a) <==> Covers(s, a) || from <= a < to
  {
    var k := Position(s, from);
    CoversJoin(Head(s, from), Middle(s, from, to), Tail(s, from, to), a);
    CoversSplit(s, k, a);
    if k > 0 { CoversLast(s[..k], a); }
    if k < |s| { CoversFirst(s[k..], a); }
  }

  lemma CoversLast(s: seq<Range>, a: nat)
    requires s != []
    ensures Covers(s, a) <==> Covers(s[..|s| - 1], a) || Has(s[|s| - 1], a)
  {
    CoversJoin(s[..|s| - 1], s[|s| - 1], [], a);
    assert s == s[..|s| - 1] + [s[|s| - 1]] + [];
  }

  lemma CoversFirst(s: seq<Range>, a: nat)
    requires s != []
    ensures Covers(s, a) <==> Has(s[0], a) || Covers(s[1..], a)
  {
    CoversJoin([], s[0], s[1..], a);
    assert s == [] + [s[0]] + s[1..];
  }

  lemma CoversSplit(s: seq<Range>, k: nat, a: nat)
    requires k <= |s|
    ensures Covers(s, a) <==> Covers(s[..k], a) || Covers(s[k..], a)
  {
    if Covers(s, a) {
      var x :| x in s && Has(x, a);
      assert s == s[..k] + s[k..];
      assert x in s[..k] || x in s[k..];
    }
  }

  /** The first address of the lost tail. */
  lemma Lost(s: seq<Range>, from: nat, to: nat) returns (a: nat)
    requires Separated(s) && from <= to && !NoOvershoot(s, from, to)
    ensures from <= a < to && !Covers(Add(s, from, to), a)
  {
    var k := Position(s, from);
    var r :| r in s && from <= r.begin <= to && r.end < to;
    var j :| 0 <= j < |s| && s[j] == r;
    assert k <= j && k < |s|;
    a := s[k].end;
    Parts(s, k);
    CoversJoin(Head(s, from), Middle(s, from, to), Tail(s, from, to), a);
  }

  /** In every case the stored addresses stay and nothing outside the new range
      is gained: what may go wrong is confined to the new range. */
  lemma AddBounds(s: seq<Range>, from: nat, to: nat, a: nat)
    requires Separated(s) && from <= to
    ensures Covers(s, a) ==> Covers(Add(s, from, to), a)
    ensures Covers(Add(s, from, to), a) ==> Covers(s, a) || from <= a < to
  {
    var k := Position(s, from);
    CoversJoin(Head(s, from), Middle(s, from, to), Tail(s, from, to), a);
    CoversSplit(s, k, a);
    if k > 0 { CoversLast(s[..k], a); }
    if k < |s| { CoversFirst(s[k..], a); }
  }

  /** `r` is the first of the stored ranges that begin inside the new one. */
  ghost predicate FirstInside(s: seq<Range>, from: nat, to: nat, r: Range)
  {
    r in s && from <= r.begin <= to && forall x :: x in s && from <= x.begin <= to ==> r.begin <= x.begin
  }

  /** It is the one behind the place of the new range. */
  lemma FirstInsideAt(s: seq<Range>, from: nat, to: nat, r: Range)
    requires Separated(s) && FirstInside(s, from, to, r)
    ensures Position(s, from) < |s| && s[Position(s, from)] == r
  {
    var k := Position(s, from);
    var i :| 0 <= i < |s| && s[i] == r;
    assert k <= i && s[k] in s;
    assert from <= s[k].begin <= r.begin;
  }

  /** Exactly how much of the new range is added: up to the end of the first
      stored range that begins inside it, or all of it when there is none. */
  lemma AddReaches(s: seq<Range>, from: nat, to: nat, r: Range, a: nat)
    requires Separated(s) && from <= to && FirstInside(s, from, to, r)
    ensures Covers(Add(s, from, to), a) <==> Covers(s, a) || from <= a < r.end
  {
    hide Covers;
    var k := Position(s, from);
    FirstInsideAt(s, from, to, r);
    CoversJoin(Head(s, from), Middle(s, from, to), Tail(s, from, to), a);
    CoversSplit(s, k, a);
    CoversFirst(s[k..], a);
    assert s[k..][1..] == s[k + 1..];
    if k > 0 {
      CoversLast(s[..k], a);
      assert s[..k][..k - 1] == s[..k - 1];
    }
  }

  /** Concretely: adding [5,30) over a stored [10,20) gives [5,20). */
  lemma TailLost()
    ensures Add([Range(10, 20)], 5, 30) == [Range(5, 20)]
  {
    assert Position([Range(10, 20)], 5) == 0;
  }

  // ---- removal ----

  /** What removing [from, to) leaves of one range.  An empty removal inside a
      range cuts it in two touching pieces, which merge again. */
  function Cut(r: Range, from: nat, to: nat): seq<Range>
  {
    if r.end <= from || to <= r.begin || from == to then [r]
    else (if r.begin < from then [Range(r.begin, from)] else []) + (if r.end > to then [Range(to, r.end)] else [])
  }

  function Remove(s: seq<Range>, from: nat, to: nat): seq<Range>
  {
    if s == [] then [] else Cut(s[0], from, to) + Remove(s[1..], from, to)
  }

  lemma CoversConcat(s: seq<Range>, t: seq<Range>, a: nat)
    ensures Covers(s + t, a) <==> Covers(s, a) || Covers(t, a)
  {
    if Covers(s, a) { var x :| x in s && Has(x, a); assert x in s + t; }
    if Covers(t, a) { var x :| x in t && Has(x, a); assert x in s + t; }
  }

  lemma CutCovers(r: Range, from: nat, to: nat, a: nat)
    requires from <= to
    ensures Covers(Cut(r, from, to), a) <==> Has(r, a) && !(from <= a < to)
  {
    var c := Cut(r, from, to);
    if Has(r, a) && !(from <= a < to) {
      var x := if r.end <= from || to <= r.begin || from == to then r
               else if a < from then Range(r.begin, from) else Range(to, r.end);
      assert x in c && Has(x, a);
    }
  }

  /** `__balloc_remove_range` is exact set difference. */
  lemma {:induction false} RemoveIsDifference(s: seq<Range>, from: nat, to: nat, a: nat)
    requires from <= to
    ensures Covers(Remove(s, from, to), a) <==> Covers(s, a) && !(from <= a < to)
  {
    if s != [] {
      RemoveIsDifference(s[1..], from, to, a);
      CutCovers(s[0], from, to, a);
      CoversConcat(Cut(s[0], from, to), Remove(s[1..], from, to), a);
      CoversFirst(s, a);
    }
  }

  lemma {:induction false} RemoveSeparated(s: seq<Range>, from: nat, to: nat)
    requires Separated(s) && from <= to
    ensures Separated(Remove(s, from, to))
    ensures s != [] ==> forall x :: x in Remove(s, from, to) ==> s[0].begin <= x.begin
    ensures s == [] ==> Remove(s, from, to) == []
  {
    if s != [] {
      var t := Remove(s[1..], from, to);
      Slices(s, 1);
      RemoveSeparated(s[1..], from, to);
      assert forall x :: x in t ==> s[0].end < x.begin;
      CutSeparated(s[0], from, to);
      AppendCut(Cut(s[0], from, to), s[0], t);
    }
  }

  /** Removing one takes one place more at most. */
  lemma {:induction false} RemoveLength(s: seq<Range>, from: nat, to: nat)
    requires Separated(s)
    ensures |Remove(s, from, to)| <= |s| + 1
  {
    if s != [] {
      if s[0].begin < from && to < s[0].end && |s| > 1 {
        forall r | r in s[1..] ensures to <= r.begin { assert s[0].end < r.begin; }
        RemoveOutside(s[1..], from, to);
      } else {
        RemoveLength(s[1..], from, to);
      }
    }
  }

  /** All ranges end by `limit`. */
  ghost predicate EndWithin(s: seq<Range>, limit: nat) { forall r :: r in s ==> r.end <= limit }

  lemma AddEnds(s: seq<Range>, from: nat, to: nat, limit: nat)
    requires EndWithin(s, limit) && to <= limit
    ensures EndWithin(Add(s, from, to), limit)
  {
  }

  lemma {:induction false} RemoveEnds(s: seq<Range>, from: nat, to: nat, limit: nat)
    requires EndWithin(s, limit) && from <= to
    ensures EndWithin(Remove(s, from, to), limit)
  {
    if s != [] {
      RemoveEnds(s[1..], from, to, limit);
      assert s[0] in s;
    }
  }

  lemma CutSeparated(r: Range, from: nat, to: nat)
    requires r.begin <= r.end && from <= to
    ensures Separated(Cut(r, from, to))
    ensures forall x :: x in Cut(r, from, to) ==> r.begin <= x.begin && x.end <= r.end
  {
  }

  lemma AppendCut(c: seq<Range>, r: Range, t: seq<Range>)
    requires Separated(c) && Separated(t) && forall x :: x in c ==> x.end <= r.end
    requires forall x :: x in t ==> r.end < x.begin
    ensures Separated(c + t)
  {
    forall i, j | 0 <= i < j < |c + t| ensures (c + t)[i].end < (c + t)[j].begin {
      assert i < |c| ==> (c + t)[i] in c;
      assert j >= |c| ==> (c + t)[j] in t;
    }
  }

  lemma {:induction false} RemoveConcat(s: seq<Range>, t: seq<Range>, from: nat, to: nat)
    ensures Remove(s + t, from, to) == Remove(s, from, to) + Remove(t, from, to)
  {
    if s == [] {
      assert s + t == t;
    } else {
      RemoveConcat(s[1..], t, from, to);
      FirstOf(s, t);
      Associate(Cut(s[0], from, to), Remove(s[1..], from, to), Remove(t, from, to));
    }
  }

  lemma FirstOf(s: seq<Range>, t: seq<Range>)
    requires s != []
    ensures s + t != [] && (s + t)[0] == s[0] && (s + t)[1..] == s[1..] + t
  {
  }

  lemma Associate(a: seq<Range>, b: seq<Range>, c: seq<Range>)
    ensures a + (b + c) == (a + b) + c
  {
  }

  lemma {:induction false} RemoveOutside(s: seq<Range>, from: nat, to: nat)
    requires forall r :: r in s ==> r.end <= from || to <= r.begin
    ensures Remove(s, from, to) == s
  {
    if s != [] { RemoveOutside(s[1..], from, to); }
  }

  /** Adding a range into a gap it does not fill changes nothing else. */
  lemma AddBetween(a: seq<Range>, b: seq<Range>, x: nat, y: nat)
    requires x <= y && (forall r :: r in a ==> r.begin <= r.end < x) && (forall r :: r in b ==> y < r.begin)
    ensures Add(a + b, x, y) == a + [Range(x, y)] + b && Tail(a + b, x, y) == b
  {
    var s := a + b;
    PositionUnique(s, x, |a|);
    assert a != [] ==> a[|a| - 1] in a;
    assert b != [] ==> b[0] in b;
    assert s[..|a|] == a && s[|a|..] == b;
  }

  /** Adding a range that starts where its predecessor ends joins the two. */
  lemma AddTouching(a: seq<Range>, b: seq<Range>, w: nat, x: nat, y: nat)
    requires w < x <= y && (forall r :: r in a ==> r.begin <= r.end < w) && (forall r :: r in b ==> y < r.begin)
    ensures Add(a + [Range(w, x)] + b, x, y) == a + [Range(w, y)] + b && Tail(a + [Range(w, x)] + b, x, y) == b
  {
    var s := a + [Range(w, x)] + b;
    PositionUnique(s, x, |a| + 1);
    assert b != [] ==> b[0] in b;
    assert s[|a|] == Range(w, x) && s[..|a|] == a && s[|a| + 1..] == b;
  }

  function AddIf(s: seq<Range>, from: nat, to: nat): seq<Range> { if from < to then Add(s, from, to) else s }

  /** Taking a range out and adding back what lies outside [lo, hi): every
      addition falls into a gap or touches the piece added just before. */
  lemma CutInSteps(s: seq<Range>, m: nat, lo: nat, hi: nat)
    requires Separated(s) && m < |s| && lo <= hi && s[m].begin < hi && lo < s[m].end
    ensures Separated(s[..m] + s[m + 1..])
    ensures s[m].begin < lo ==> Tail(s[..m] + s[m + 1..], s[m].begin, lo) == s[m + 1..]
    ensures s[m].end > hi ==> Tail(AddIf(s[..m] + s[m + 1..], s[m].begin, lo), hi, s[m].end) == s[m + 1..]
    ensures AddIf(AddIf(s[..m] + s[m + 1..], s[m].begin, lo), hi, s[m].end) == s[..m] + Cut(s[m], lo, hi) + s[m + 1..]
  {
    var a, r, b := s[..m], s[m], s[m + 1..];
    DropSeparated(s, m);
    Parts(s, m);
    LeftPiece(a, r, b, lo);
    RightPiece(a, r, b, lo, hi);
  }

  lemma DropSeparated(s: seq<Range>, m: nat)
    requires Separated(s) && m < |s|
    ensures Separated(s[..m] + s[m + 1..])
  {
    Parts(s, m);
    Join2(s[..m], s[m], s[m + 1..]);
  }

  ghost predicate Apart(a: seq<Range>, r: Range, b: seq<Range>)
  {
    && r.begin <= r.end && (forall x :: x in a ==> x.begin <= x.end < r.begin)
    && (forall x :: x in b ==> r.end < x.begin)
  }

  lemma LeftPiece(a: seq<Range>, r: Range, b: seq<Range>, lo: nat)
    requires Apart(a, r, b) && lo < r.end
    ensures r.begin < lo ==> Tail(a + b, r.begin, lo) == b
    ensures AddIf(a + b, r.begin, lo) == a + (if r.begin < lo then [Range(r.begin, lo)] else []) + b
  {
    Reassemble(a, r, r, b);
    if r.begin < lo { AddBetween(a, b, r.begin, lo); }
  }

  lemma RightPiece(a: seq<Range>, r: Range, b: seq<Range>, lo: nat, hi: nat)
    requires Apart(a, r, b) && lo <= hi && r.begin < hi && lo < r.end
    ensures r.end > hi ==> Tail(a + (if r.begin < lo then [Range(r.begin, lo)] else []) + b, hi, r.end) == b
    ensures AddIf(a + (if r.begin < lo then [Range(r.begin, lo)] else []) + b, hi, r.end) == a + Cut(r, lo, hi) + b
  {
    Reassemble(a, Range(r.begin, lo), Range(hi, r.end), b);
    if r.end > hi {
      if r.begin >= lo {
        AddBetween(a, b, hi, r.end);
      } else if lo == hi {
        AddTouching(a, b, r.begin, lo, r.end);
      } else {
        AddBetween(a + [Range(r.begin, lo)], b, hi, r.end);
      }
    }
  }

  lemma Join2(a: seq<Range>, r: Range, b: seq<Range>)
    requires Separated(a) && Separated(b) && r.begin <= r.end
    requires (forall x :: x in a ==> x.end < r.begin) && (forall x :: x in b ==> r.end < x.begin)
    ensures Separated(a + b)
  {
    var u := a + b;
    forall i, j | 0 <= i < j < |u| ensures u[i].end < u[j].begin {
      assert i < |a| ==> u[i] in a;
      assert j >= |a| ==> u[j] in b;
    }
  }

  lemma Reassemble(a: seq<Range>, x: Range, y: Range, b: seq<Range>)
    ensures a + [x] + [y] + b == a + ([x] + [y]) + b
    ensures a + ([x] + []) + b == a + [x] + b && a + ([] + [y]) + b == a + [y] + b && a + ([] + []) + b == a + b
  {
  }

  /** One more range cut. */
  lemma CutFirst(done: seq<Range>, rest: seq<Range>, from: nat, to: nat)
    requires rest != [] && Separated(rest)
    ensures (done + Cut(rest[0], from, to)) + Remove(rest[1..], from, to) == done + Remove(rest, from, to)
    ensures Separated(rest[1..]) && forall r :: r in rest[1..] ==> r in rest && rest[0].end < r.begin
  {
    Slices(rest, 1);
  }

  lemma CutAt(done: seq<Range>, rest: seq<Range>, c: seq<Range>)
    requires rest != []
    ensures var s := done + rest; s[..|done|] + c + s[|done| + 1..] == (done + c) + rest[1..]
  {
    var s := done + rest;
    assert s[..|done|] == done && s[|done| + 1..] == rest[1..];
  }

  /** Removal leaves the ranges that end before it. */
  lemma RemoveTail(s: seq<Range>, m: nat, from: nat, to: nat)
    requires Separated(s) && m <= |s| && forall r :: r in s[..m] ==> r.end <= from
    ensures Remove(s, from, to) == s[..m] + Remove(s[m..], from, to) && Separated(s[m..])
    ensures s == s[..m] + s[m..]
  {
    assert s == s[..m] + s[m..];
    RemoveOutside(s[..m], from, to);
    RemoveConcat(s[..m], s[m..], from, to);
    Slices(s, m);
  }

  /** Once a range begins at or after `to`, so do all later ones. */
  lemma RestOutside(rest: seq<Range>, from: nat, to: nat)
    requires Separated(rest) && (rest != [] ==> to <= rest[0].begin)
    ensures Remove(rest, from, to) == rest
  {
    forall r | r in rest ensures to <= r.begin {}
    RemoveOutside(rest, from, to);
  }

  /** Removing a part of one range cuts that range only. */
  lemma CutOnly(s: seq<Range>, m: nat, from: nat, to: nat)
    requires Separated(s) && m < |s| && s[m].begin <= from <= to <= s[m].end
    ensures Remove(s, from, to) == s[..m] + Cut(s[m], from, to) + s[m + 1..]
  {
    Parts(s, m);
    var a, b := s[..m], s[m + 1..];
    RemoveOutside(a, from, to);
    RemoveOutside(b, from, to);
    RemoveConcat(a + [s[m]], b, from, to);
    RemoveConcat(a, [s[m]], from, to);
    assert Remove([s[m]], from, to) == Cut(s[m], from, to) + [];
  }

  // ---- where a block fits ----

  /** A covered run of addresses lies inside one stored range. */
  lemma RunInOneRange(s: seq<Range>, from: nat, to: nat) returns (i: nat)
    requires Separated(s) && from < to && forall a: nat :: from <= a < to ==> Covers(s, a)
    ensures i < |s| && s[i].begin <= from && to <= s[i].end
  {
    assert Covers(s, from);
    var r :| r in s && Has(r, from);
    i :| 0 <= i < |s| && s[i] == r;
    assert !Covers(s, r.end);
  }

  /** A block of `size` bytes at the `2^k`-aligned address `a` lies in
      [from, to) and in the stored ranges. */
  ghost predicate FitsAt(s: seq<Range>, size: nat, k: nat, from: nat, to: nat, a: nat)
  {
    && Base(a, k) == a && from <= a && a + size <= to
    && forall x: nat :: a <= x < a + size ==> Covers(s, x)
  }

  /** Where the allocator would place the block in one range. */
  function Start(r: Range, k: nat, from: nat): nat { AlignUp(if r.begin > from then r.begin else from, k) }

  predicate FitsIn(r: Range, size: nat, k: nat, from: nat, to: nat)
  {
    Start(r, k, from) + size <= if r.end < to then r.end else to
  }

  lemma FitsInFits(s: seq<Range>, m: nat, size: nat, k: nat, from: nat, to: nat)
    requires m < |s| && FitsIn(s[m], size, k, from, to)
    ensures FitsAt(s, size, k, from, to, Start(s[m], k, from)) && s[m].begin <= Start(s[m], k, from)
  {
    var a := Start(s[m], k, from);
    AlignUpLeast(if s[m].begin > from then s[m].begin else from, k);
    forall x: nat | a <= x < a + size ensures Covers(s, x) { assert s[m] in s && Has(s[m], x); }
  }

  /** A block that fits lies in one range, where the allocator's choice is no
      higher. */
  lemma FitsOne(s: seq<Range>, size: nat, k: nat, from: nat, to: nat, a: nat) returns (i: nat)
    requires Separated(s) && size > 0 && FitsAt(s, size, k, from, to, a)
    ensures i < |s| && s[i].begin <= a && a + size <= s[i].end
    ensures FitsIn(s[i], size, k, from, to) && Start(s[i], k, from) <= a
  {
    i := RunInOneRange(s, a, a + size);
    AlignUpLeast(if s[i].begin > from then s[i].begin else from, k);
  }

  /** The first `m` ranges end too early or are too small. */
  ghost predicate Skipped(s: seq<Range>, m: nat, size: nat, k: nat, from: nat, to: nat)
  {
    m <= |s| && forall i :: 0 <= i < m ==> s[i].end <= from || !FitsIn(s[i], size, k, from, to)
  }

  lemma SkippedEarly(s: seq<Range>, m: nat, size: nat, k: nat, from: nat, to: nat)
    requires m <= |s| && forall r :: r in s[..m] ==> r.end <= from
    ensures Skipped(s, m, size, k, from, to)
  {
    assert forall i :: 0 <= i < m ==> s[i] in s[..m];
  }

  lemma SkipOne(s: seq<Range>, m: nat, size: nat, k: nat, from: nat, to: nat)
    requires Skipped(s, m, size, k, from, to) && m < |s| && !FitsIn(s[m], size, k, from, to)
    ensures Skipped(s, m + 1, size, k, from, to)
  {
  }

  ghost predicate NothingFits(s: seq<Range>, size: nat, k: nat, from: nat, to: nat)
  {
    forall a :: !FitsAt(s, size, k, from, to, a)
  }

  ghost predicate IsLowestFit(s: seq<Range>, size: nat, k: nat, from: nat, to: nat, addr: nat)
  {
    FitsAt(s, size, k, from, to, addr) && forall a :: FitsAt(s, size, k, from, to, a) ==> addr <= a
  }

  /** If the ranges before the `m`-th are skipped, the `m`-th gives the lowest
      address. */
  lemma LeastFit(s: seq<Range>, m: nat, size: nat, k: nat, from: nat, to: nat)
    requires Separated(s) && size > 0 && m < |s| && FitsIn(s[m], size, k, from, to)
    requires Skipped(s, m, size, k, from, to)
    ensures IsLowestFit(s, size, k, from, to, Start(s[m], k, from)) && Start(s[m], k, from) < to
    ensures !NothingFits(s, size, k, from, to)
  {
    FitsInFits(s, m, size, k, from, to);
    forall a | FitsAt(s, size, k, from, to, a) ensures Start(s[m], k, from) <= a {
      var i := FitsOne(s, size, k, from, to, a);
    }
  }

  lemma NoneFits(s: seq<Range>, m: nat, size: nat, k: nat, from: nat, to: nat)
    requires Separated(s) && size > 0 && m <= |s| && (m < |s| ==> to <= s[m].begin)
    requires Skipped(s, m, size, k, from, to)
    ensures NothingFits(s, size, k, from, to)
  {
    forall a ensures !FitsAt(s, size, k, from, to, a) {
      if FitsAt(s, size, k, from, to, a) { var i := FitsOne(s, size, k, from, to, a); }
    }
  }

  /** The place found is the lowest one, and cutting it out of its range takes
      exactly the block away. */
  lemma FoundFit(s: seq<Range>, m: nat, size: nat, k: nat, from: nat, to: nat, addr: nat)
    requires Separated(s) && size > 0 && m < |s| && FitsIn(s[m], size, k, from, to)
    requires Skipped(s, m, size, k, from, to) && addr == Start(s[m], k, from)
    ensures IsLowestFit(s, size, k, from, to, addr) && addr < to && !NothingFits(s, size, k, from, to)
    ensures s[m].begin <= addr && addr + size <= s[m].end
    ensures Remove(s, addr, addr + size) == s[..m] + Cut(s[m], addr, addr + size) + s[m + 1..]
  {
    FitsInFits(s, m, size, k, from, to);
    LeastFit(s, m, size, k, from, to);
    CutOnly(s, m, addr, addr + size);
  }
}
