/** Intrusive lists as the sequences of their nodes; no node is on a list twice. */
module Lists {

  ghost predicate NoDup(s: seq<nat>) { forall i, j :: 0 <= i < j < |s| ==> s[i] != s[j] }

  function Members(s: seq<nat>): set<nat> { set x | x in s }

  function Without(s: seq<nat>, x: nat): (r: seq<nat>)
  {
    if s == [] then [] else if s[0] == x then s[1..] else [s[0]] + Without(s[1..], x)
  }

  lemma {:induction false} WithoutMembers(s: seq<nat>, x: nat)
    requires NoDup(s)
    ensures NoDup(Without(s, x))
    ensures forall y :: y in Without(s, x) <==> y in s && y != x
  {
    if s != [] && s[0] != x {
      WithoutMembers(s[1..], x);
      assert s == [s[0]] + s[1..];
      assert s[0] !in Without(s[1..], x);
    }
  }

  lemma Pushed(s: seq<nat>, x: nat)
    requires NoDup(s) && x !in s
    ensures NoDup([x] + s)
    ensures forall y :: y in [x] + s <==> y in s || y == x
  {
    forall y ensures y in [x] + s <==> y in s || y == x
    {
      if y in s { assert y in [x] + s; }
      if y == x { assert ([x] + s)[0] == y; }
    }
  }

  lemma Appended(s: seq<nat>, x: nat)
    ensures NoDup(s) && x !in s ==> NoDup(s + [x])
    ensures forall y :: y in s + [x] <==> y in s || y == x
  {
    forall y ensures y in s + [x] <==> y in s || y == x
    {
      if y in s { assert y in s + [x]; }
      if y == x { assert (s + [x])[|s|] == y; }
    }
  }
}
