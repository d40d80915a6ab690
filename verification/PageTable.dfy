/** Four-level page tables in memory, the hardware walk over them and the
    recursive mapper that fills them. */
module PageTable {
  import opened Division
  import opened Options

  /** PT_ENTRIES */
  const ENTRIES: nat := 512

  /** The root level */
  const LEVELS: nat := 4

  /** An entry: the PRESENT and LARGE bits and the physical address. */
  datatype Pte = Pte(present: bool, large: bool, phys: nat)

  const ZERO := Pte(false, false, 0)

  /** The tables by physical address. */
  type Memory = map<nat, seq<Pte>>

  /** `pml_size(level)`: the bytes one entry of a level-`l` table stands for. */
  function Size(l: nat): (s: nat)
    ensures s > 0
  {
    if l <= 1 then 0x1000 else if l == 2 then 0x20_0000 else if l == 3 then 0x4000_0000
    else if l == 4 then 0x80_0000_0000 else 0x1_0000_0000_0000
  }

  /** The entry of its level an address belongs to, counted from address 0. */
  function Slot(a: nat, l: nat): nat { a / Size(l) }

  /** `pml_offs(addr, level)` */
  function Index(a: nat, l: nat): (i: nat)
    ensures i < ENTRIES
  {
    Slot(a, l) % ENTRIES
  }

  /** The first address of a slot. */
  function Base(q: nat, l: nat): nat { q * Size(l) }

  lemma SlotFacts(a: nat, l: nat)
    requires 1 <= l <= LEVELS
    ensures Base(Slot(a, l), l) <= a < Base(Slot(a, l) + 1, l)
    ensures a - Base(Slot(a, l), l) == a % Size(l)
    ensures Slot(a, l + 1) == Slot(a, l) / ENTRIES
    ensures Base(Slot(a, l) + 1, l) % 0x1000 == 0
  {
    if l == 1 { } else if l == 2 { } else if l == 3 { } else { }
  }

  lemma SlotUnique(a: nat, q: nat, l: nat)
    requires 1 <= l <= LEVELS && Base(q, l) <= a < Base(q + 1, l)
    ensures Slot(a, l) == q
  {
    if l == 1 { } else if l == 2 { } else if l == 3 { } else { }
  }

  lemma SlotBetween(b: nat, a: nat, e: nat, l: nat)
    requires 1 <= l <= LEVELS + 1 && b <= a < e && Slot(e - 1, l) == Slot(b, l)
    ensures Slot(a, l) == Slot(b, l)
  {
    SlotMonotone(b, a, l);
    SlotMonotone(a, e - 1, l);
  }

  lemma SlotMonotone(a: nat, b: nat, l: nat)
    requires 1 <= l <= LEVELS + 1 && a <= b
    ensures Slot(a, l) <= Slot(b, l)
  {
    if l == 1 { } else if l == 2 { } else if l == 3 { } else if l == 4 { } else { }
  }

  /** Within one slot of the level above, the index tells the slot. */
  lemma SameSlot(a: nat, b: nat, l: nat)
    requires 1 <= l <= LEVELS && Slot(a, l + 1) == Slot(b, l + 1)
    ensures Index(a, l) == Index(b, l) <==> Slot(a, l) == Slot(b, l)
    ensures Index(a, l) < Index(b, l) <==> Slot(a, l) < Slot(b, l)
  {
    SlotFacts(a, l);
    SlotFacts(b, l);
  }

  /** The addresses of the slot that starts at `b`. */
  lemma SlotAt(a: nat, b: nat, l: nat)
    requires 1 <= l <= LEVELS && b % Size(l) == 0
    ensures Slot(a, l) == Slot(b, l) <==> b <= a < b + Size(l)
    ensures b <= a < b + Size(l) ==> a % Size(l) == a - b
  {
    SlotFacts(a, l);
    SlotFacts(b, l);
    if b <= a < b + Size(l) { SlotUnique(a, Slot(b, l), l); }
  }

  lemma AlignedOn(phys: nat, b: nat, c: nat)
    requires phys % 0x1000 == 0 && b % 0x1000 == 0 && c % 0x1000 == 0 && b <= c
    ensures (phys + (c - b)) % 0x1000 == 0
  {
  }

  /** An entry that refers to a table of the next level. */
  predicate IsTable(e: Pte, l: nat) { l > 1 && e.present && !(e.large && l <= 3) }

  predicate HasTable(mem: Memory, t: nat) { t in mem && |mem[t]| == ENTRIES }

  /** The hardware walk for address `a` from the level-`l` table at `t`. */
  function Walk(mem: Memory, t: nat, l: nat, a: nat): Option<nat>
    decreases l
  {
    if l == 0 || !HasTable(mem, t) then None
    else
      var e := mem[t][Index(a, l)];
      if !e.present then None
      else if IsTable(e, l) then Walk(mem, e.phys, l - 1, a)
      else Some(e.phys + a % Size(l))
  }

  /** The level of the leaf that translates `a`; 0 when none does. */
  function LeafLevel(mem: Memory, t: nat, l: nat, a: nat): nat
    decreases l
  {
    if l == 0 || !HasTable(mem, t) || !mem[t][Index(a, l)].present then 0
    else if IsTable(mem[t][Index(a, l)], l) then LeafLevel(mem, mem[t][Index(a, l)].phys, l - 1, a)
    else l
  }

  /** The level-1 table in charge of `a`, when the tables go down that far. */
  function LastTable(mem: Memory, t: nat, l: nat, a: nat): Option<nat>
    decreases l
  {
    if l == 0 || !HasTable(mem, t) then None
    else if l == 1 then Some(t)
    else if IsTable(mem[t][Index(a, l)], l) then LastTable(mem, mem[t][Index(a, l)].phys, l - 1, a)
    else None
  }

  /** The level of the lowest table on the way to `a`. */
  function TableLevel(mem: Memory, t: nat, l: nat, a: nat): nat
    decreases l
  {
    if l > 0 && HasTable(mem, t) && IsTable(mem[t][Index(a, l)], l)
    then TableLevel(mem, mem[t][Index(a, l)].phys, l - 1, a) else l
  }

  /** The tables reachable through entry `i`. */
  ghost function Sub(mem: Memory, t: nat, l: nat, i: nat): set<nat>
    requires HasTable(mem, t)
    decreases l, 0
  {
    if i < ENTRIES && IsTable(mem[t][i], l) then Foot(mem, mem[t][i].phys, l - 1) else {}
  }

  /** The tables reachable from the one at `t`, itself included. */
  ghost function Foot(mem: Memory, t: nat, l: nat): set<nat>
    decreases l, 1
  {
    if l == 0 || !HasTable(mem, t) then {}
    else {t} + (set i, x | 0 <= i < ENTRIES && x in Sub(mem, t, l, i) :: x)
  }

  /** The tables form a tree and every leaf is aligned to what it stands for. */
  ghost predicate WF(mem: Memory, t: nat, l: nat)
    decreases l
  {
    && l > 0 && HasTable(mem, t)
    && (forall i :: 0 <= i < ENTRIES && IsTable(mem[t][i], l) ==> WF(mem, mem[t][i].phys, l - 1))
    && (forall i :: 0 <= i < ENTRIES ==> t !in Sub(mem, t, l, i))
    && (forall i, j :: 0 <= i < j < ENTRIES ==> Sub(mem, t, l, i) !! Sub(mem, t, l, j))
    && (forall i :: 0 <= i < ENTRIES && mem[t][i].present && !IsTable(mem[t][i], l) ==>
          mem[t][i].phys % Size(l) == 0)
  }

  /** `mem'` agrees with `mem` on the pages of `s`. */
  ghost predicate SameOn(mem: Memory, mem': Memory, s: set<nat>)
  {
    forall x :: x in s && x in mem ==> x in mem' && mem'[x] == mem[x]
  }

  /** The walks from `t` and `t'` end alike. */
  ghost predicate SameWalks(mem: Memory, t: nat, mem': Memory, t': nat, l: nat)
  {
    && (forall a: nat :: Walk(mem', t', l, a) == Walk(mem, t, l, a))
    && (forall a: nat :: LastTable(mem', t', l, a) == LastTable(mem, t, l, a))
    && (forall a: nat :: LeafLevel(mem', t', l, a) == LeafLevel(mem, t, l, a))
    && (forall a: nat :: TableLevel(mem', t', l, a) == TableLevel(mem, t, l, a))
  }

  ghost predicate SameWalk(mem: Memory, mem': Memory, t: nat, l: nat, a: nat)
  {
    && Walk(mem', t, l, a) == Walk(mem, t, l, a)
    && LastTable(mem', t, l, a) == LastTable(mem, t, l, a)
    && LeafLevel(mem', t, l, a) == LeafLevel(mem, t, l, a)
    && TableLevel(mem', t, l, a) == TableLevel(mem, t, l, a)
  }

  /** One level of the walk. */
  lemma WalkStep(mem: Memory, t: nat, l: nat, a: nat)
    requires l > 0 && HasTable(mem, t) && IsTable(mem[t][Index(a, l)], l)
    ensures Walk(mem, t, l, a) == Walk(mem, mem[t][Index(a, l)].phys, l - 1, a)
    ensures LastTable(mem, t, l, a) == LastTable(mem, mem[t][Index(a, l)].phys, l - 1, a)
    ensures LeafLevel(mem, t, l, a) == LeafLevel(mem, mem[t][Index(a, l)].phys, l - 1, a)
    ensures TableLevel(mem, t, l, a) == TableLevel(mem, mem[t][Index(a, l)].phys, l - 1, a)
  {
  }

  lemma SubInFoot(mem: Memory, t: nat, l: nat, i: nat)
    requires l > 0 && HasTable(mem, t) && i < ENTRIES
    ensures Sub(mem, t, l, i) <= Foot(mem, t, l) && t in Foot(mem, t, l)
  {
    forall x | x in Sub(mem, t, l, i) ensures x in Foot(mem, t, l) { }
  }

  /** What does not touch the tables below `t` changes nothing there. */
  lemma {:induction false} Frame(mem: Memory, mem': Memory, t: nat, l: nat)
    requires WF(mem, t, l) && SameOn(mem, mem', Foot(mem, t, l))
    ensures WF(mem', t, l) && Foot(mem', t, l) == Foot(mem, t, l)
    ensures SameWalks(mem, t, mem', t, l)
    decreases l
  {
    SubInFoot(mem, t, l, 0);
    assert mem'[t] == mem[t];
    forall i | 0 <= i < ENTRIES && IsTable(mem[t][i], l)
      ensures WF(mem', mem[t][i].phys, l - 1)
      ensures Foot(mem', mem[t][i].phys, l - 1) == Sub(mem, t, l, i)
      ensures SameWalks(mem, mem[t][i].phys, mem', mem[t][i].phys, l - 1)
    {
      SubInFoot(mem, t, l, i);
      Frame(mem, mem', mem[t][i].phys, l - 1);
    }
    assert forall i :: 0 <= i < ENTRIES ==> Sub(mem', t, l, i) == Sub(mem, t, l, i);
    forall a: nat
      ensures Walk(mem', t, l, a) == Walk(mem, t, l, a)
      ensures LastTable(mem', t, l, a) == LastTable(mem, t, l, a)
      ensures LeafLevel(mem', t, l, a) == LeafLevel(mem, t, l, a)
      ensures TableLevel(mem', t, l, a) == TableLevel(mem, t, l, a)
    {
      if IsTable(mem[t][Index(a, l)], l) {
        WalkStep(mem, t, l, a);
        WalkStep(mem', t, l, a);
      }
    }
  }

  /** Entry `i` of `t` now holds `e`; whatever hangs below it lies in the old
      subtree or on the fresh pages, and nothing else was touched. */
  lemma {:induction false} EntryChanged(mem: Memory, mem': Memory, t: nat, l: nat, i: nat, e: Pte, news: set<nat>)
    requires WF(mem, t, l) && i < ENTRIES && news !! Foot(mem, t, l)
    requires HasTable(mem', t) && mem'[t] == mem[t][i := e]
    requires SameOn(mem, mem', Foot(mem, t, l) - {t} - Sub(mem, t, l, i))
    requires IsTable(e, l) ==> WF(mem', e.phys, l - 1) && Foot(mem', e.phys, l - 1) <= Sub(mem, t, l, i) + news
    requires e.present && !IsTable(e, l) ==> e.phys % Size(l) == 0
    ensures WF(mem', t, l) && Foot(mem', t, l) <= Foot(mem, t, l) + news
    ensures forall a: nat :: Index(a, l) != i ==> SameWalk(mem, mem', t, l, a)
  {
    hide Slot, Size;
    SubInFoot(mem, t, l, i);
    forall j | 0 <= j < ENTRIES && j != i
      ensures Sub(mem', t, l, j) == Sub(mem, t, l, j) <= Foot(mem, t, l)
      ensures IsTable(mem[t][j], l) ==>
        WF(mem', mem[t][j].phys, l - 1) && SameWalks(mem, mem[t][j].phys, mem', mem[t][j].phys, l - 1)
    {
      if IsTable(mem[t][j], l) {
        SubInFoot(mem, t, l, j);
        assert Sub(mem, t, l, j) !! Sub(mem, t, l, i);
        Frame(mem, mem', mem[t][j].phys, l - 1);
      }
    }
    forall a: nat | Index(a, l) != i
      ensures SameWalk(mem, mem', t, l, a)
    {
      if IsTable(mem[t][Index(a, l)], l) {
        WalkStep(mem, t, l, a);
        WalkStep(mem', t, l, a);
      }
    }
  }

  /** No address of [b, e) is mapped. */
  ghost predicate Vacant(mem: Memory, t: nat, l: nat, b: nat, e: nat)
  {
    forall a: nat :: b <= a < e ==> Walk(mem, t, l, a) == None
  }

  /** The tables go down to level 1 for all of [b, e). */
  ghost predicate Populated(mem: Memory, t: nat, l: nat, b: nat, e: nat)
  {
    forall a: nat :: b <= a < e ==> LastTable(mem, t, l, a).Some?
  }

  /** Where `a` leads once [b, e) is mapped to `phys` onwards. */
  ghost function Image(mem: Memory, t: nat, l: nat, b: nat, e: nat, phys: nat, present: bool, a: nat): Option<nat>
  {
    if b <= a < e then (if present then Some(phys + (a - b)) else None) else Walk(mem, t, l, a)
  }

  /** [b, e) leads to `phys` onwards and every other address where it did,
      among the addresses the table at `t` stands for. */
  ghost predicate Mapped(mem: Memory, mem': Memory, t: nat, l: nat, b: nat, e: nat, phys: nat, present: bool)
  {
    forall a: nat :: Slot(a, l + 1) == Slot(b, l + 1) ==>
      Walk(mem', t, l, a) == Image(mem, t, l, b, e, phys, present, a)
  }

  /** The level-`k` leaf for `a` stands for part of [b, e) only, and both ends
      of the translation are aligned to it. */
  predicate LeafFits(k: nat, a: nat, b: nat, e: nat, phys: nat)
  {
    && 1 <= k < LEVELS && b <= Base(Slot(a, k), k) && Base(Slot(a, k) + 1, k) <= e
    && (phys + (Base(Slot(a, k), k) - b)) % Size(k) == 0
  }

  ghost predicate LeavesFit(mem: Memory, t: nat, l: nat, b: nat, e: nat, phys: nat)
  {
    forall a: nat :: b <= a < e ==> LeafFits(LeafLevel(mem, t, l, a), a, b, e, phys)
  }

  /** Only the tables below `t` and pages taken from the pool were written, no
      table was replaced. */
  ghost predicate Grown(mem: Memory, pool: set<nat>, mem': Memory, pool': set<nat>, t: nat, l: nat)
  {
    && WF(mem', t, l) && pool' <= pool
    && Foot(mem', t, l) <= Foot(mem, t, l) + (pool - pool')
    && (forall x :: x in mem && x !in Foot(mem, t, l) + (pool - pool') ==> x in mem' && mem'[x] == mem[x])
    && (forall a: nat :: LastTable(mem, t, l, a).Some? ==> LastTable(mem', t, l, a) == LastTable(mem, t, l, a))
    && (forall a: nat :: LeafLevel(mem, t, l, a) > 0 ==> LeafLevel(mem', t, l, a) == LeafLevel(mem, t, l, a))
  }

  lemma GrownInSteps(m0: Memory, p0: set<nat>, m1: Memory, p1: set<nat>, m2: Memory, p2: set<nat>, t: nat, l: nat)
    requires Grown(m0, p0, m1, p1, t, l) && Grown(m1, p1, m2, p2, t, l)
    ensures Grown(m0, p0, m2, p2, t, l)
  {
    forall a: nat | LastTable(m0, t, l, a).Some? ensures LastTable(m2, t, l, a) == LastTable(m0, t, l, a)
    {
      assert LastTable(m1, t, l, a) == LastTable(m0, t, l, a);
    }
    forall a: nat | LeafLevel(m0, t, l, a) > 0 ensures LeafLevel(m2, t, l, a) == LeafLevel(m0, t, l, a)
    {
      assert LeafLevel(m1, t, l, a) == LeafLevel(m0, t, l, a);
    }
  }

  lemma MappedInSteps(m0: Memory, m1: Memory, m2: Memory, t: nat, l: nat, b: nat, c: nat, e: nat, phys: nat,
      present: bool)
    requires b <= c <= e && Slot(c, l + 1) == Slot(b, l + 1)
    requires Mapped(m0, m1, t, l, b, c, phys, present)
    requires Mapped(m1, m2, t, l, c, e, phys + (c - b), present)
    ensures Mapped(m0, m2, t, l, b, e, phys, present)
  {
    forall a: nat | Slot(a, l + 1) == Slot(b, l + 1)
      ensures Walk(m2, t, l, a) == Image(m0, t, l, b, e, phys, present, a)
    {
      assert Walk(m1, t, l, a) == Image(m0, t, l, b, c, phys, present, a);
      assert Walk(m2, t, l, a) == Image(m1, t, l, c, e, phys + (c - b), present, a);
    }
  }

  /** A leaf for a whole aligned slot. */
  lemma LeafPlaced(mem: Memory, mem': Memory, pool: set<nat>, t: nat, l: nat, b: nat, phys: nat, present: bool,
      large: bool)
    requires 1 <= l < LEVELS && WF(mem, t, l) && (large || l == 1)
    requires b % Size(l) == 0 && phys % Size(l) == 0
    requires !mem[t][Index(b, l)].present
    requires mem' == mem[t := mem[t][Index(b, l) := Pte(present, large, phys)]]
    ensures Grown(mem, pool, mem', pool, t, l)
    ensures Mapped(mem, mem', t, l, b, b + Size(l), phys, present)
    ensures !large ==> Populated(mem', t, l, b, b + Size(l))
  {
    SubInFoot(mem, t, l, 0);
    EntryChanged(mem, mem', t, l, Index(b, l), Pte(present, large, phys), {});
    forall a: nat | Slot(a, l + 1) == Slot(b, l + 1)
      ensures Walk(mem', t, l, a) == Image(mem, t, l, b, b + Size(l), phys, present, a)
    {
      SameSlot(a, b, l);
      SlotAt(a, b, l);
    }
    forall a: nat | b <= a < b + Size(l) ensures Slot(a, l) == Slot(b, l) { SlotAt(a, b, l); }
  }

  lemma LeafFitsSlot(mem: Memory, t: nat, l: nat, b: nat, phys: nat)
    requires 1 <= l < LEVELS && HasTable(mem, t) && b % Size(l) == 0 && phys % Size(l) == 0
    requires mem[t][Index(b, l)].present && !IsTable(mem[t][Index(b, l)], l)
    ensures LeavesFit(mem, t, l, b, b + Size(l), phys)
  {
    SlotFacts(b, l);
    forall a: nat | b <= a < b + Size(l) ensures LeafFits(LeafLevel(mem, t, l, a), a, b, b + Size(l), phys)
    {
      SlotUnique(a, Slot(b, l), l);
    }
  }

  /** The table translates nothing. */
  ghost predicate Blank(mem: Memory, t: nat, l: nat)
  {
    forall a: nat :: Walk(mem, t, l, a) == None && LeafLevel(mem, t, l, a) == 0 && TableLevel(mem, t, l, a) == l
  }

  lemma ClearedTable(mem: Memory, p: nat, l: nat)
    requires l >= 1 && HasTable(mem, p) && mem[p] == seq(ENTRIES, _ => ZERO)
    ensures WF(mem, p, l) && Foot(mem, p, l) == {p}
    ensures Blank(mem, p, l)
  {
    assert forall j :: 0 <= j < ENTRIES ==> Sub(mem, p, l, j) == {};
  }

  /** An empty table hung below an absent entry leads nowhere new. */
  lemma TableHung(mem: Memory, mem': Memory, pool: set<nat>, p: nat, t: nat, l: nat, i: nat)
    requires 2 <= l <= LEVELS && WF(mem, t, l) && i < ENTRIES && !mem[t][i].present
    requires p in pool && pool !! Foot(mem, t, l)
    requires mem' == mem[p := seq(ENTRIES, _ => ZERO)][t := mem[t][i := Pte(true, false, p)]]
    ensures Grown(mem, pool, mem', pool - {p}, t, l)
    ensures forall a: nat :: Walk(mem', t, l, a) == Walk(mem, t, l, a)
  {
    SubInFoot(mem, t, l, i);
    ClearedTable(mem', p, l - 1);
    EntryChanged(mem, mem', t, l, i, Pte(true, false, p), {p});
    assert pool - (pool - {p}) == {p};
    HungWalks(mem, mem', p, t, l, i);
  }

  lemma HungWalks(mem: Memory, mem': Memory, p: nat, t: nat, l: nat, i: nat)
    requires 2 <= l <= LEVELS && HasTable(mem, t) && HasTable(mem', t) && i < ENTRIES
    requires !mem[t][i].present && mem'[t][i] == Pte(true, false, p)
    requires Blank(mem', p, l - 1)
    ensures forall a: nat :: Index(a, l) == i ==>
      && Walk(mem', t, l, a) == Walk(mem, t, l, a) == None && LeafLevel(mem', t, l, a) == LeafLevel(mem, t, l, a) == 0
      && LastTable(mem, t, l, a) == None && TableLevel(mem, t, l, a) == l && TableLevel(mem', t, l, a) == l - 1
  {
    BelowEntry(mem', t, l, i);
  }

  /** What was mapped below one entry is mapped. */
  lemma Descended(mem: Memory, pool: set<nat>, mem': Memory, pool': set<nat>, t: nat, l: nat, b: nat, e: nat,
      phys: nat, present: bool)
    requires 2 <= l <= LEVELS && WF(mem, t, l) && pool !! Foot(mem, t, l)
    requires b < e && Slot(e - 1, l) == Slot(b, l) && IsTable(mem[t][Index(b, l)], l)
    requires Grown(mem, pool, mem', pool', mem[t][Index(b, l)].phys, l - 1)
    requires Mapped(mem, mem', mem[t][Index(b, l)].phys, l - 1, b, e, phys, present)
    ensures Grown(mem, pool, mem', pool', t, l)
    ensures Mapped(mem, mem', t, l, b, e, phys, present)
    ensures Populated(mem', mem[t][Index(b, l)].phys, l - 1, b, e) ==> Populated(mem', t, l, b, e)
    ensures LeavesFit(mem', mem[t][Index(b, l)].phys, l - 1, b, e, phys) ==> LeavesFit(mem', t, l, b, e, phys)
  {
    DescendedGrown(mem, pool, mem', pool', t, l, Index(b, l));
    BelowEntry(mem, t, l, Index(b, l));
    BelowEntry(mem', t, l, Index(b, l));
    forall a: nat | b <= a < e ensures Slot(a, l) == Slot(b, l) { SlotBetween(b, a, e, l); }
    forall a: nat | Slot(a, l + 1) == Slot(b, l + 1)
      ensures Walk(mem', t, l, a) == Image(mem, t, l, b, e, phys, present, a)
    {
      SameSlot(a, b, l);
    }
  }

  /** The addresses of an entry that is a table are looked up in that table. */
  lemma BelowEntry(mem: Memory, t: nat, l: nat, i: nat)
    requires l > 0 && HasTable(mem, t) && i < ENTRIES && IsTable(mem[t][i], l)
    ensures forall a: nat :: Index(a, l) == i ==>
      && Walk(mem, t, l, a) == Walk(mem, mem[t][i].phys, l - 1, a)
      && LastTable(mem, t, l, a) == LastTable(mem, mem[t][i].phys, l - 1, a)
      && LeafLevel(mem, t, l, a) == LeafLevel(mem, mem[t][i].phys, l - 1, a)
      && TableLevel(mem, t, l, a) == TableLevel(mem, mem[t][i].phys, l - 1, a)
  {
  }

  lemma DescendedGrown(mem: Memory, pool: set<nat>, mem': Memory, pool': set<nat>, t: nat, l: nat, i: nat)
    requires 2 <= l <= LEVELS && WF(mem, t, l) && pool !! Foot(mem, t, l) && i < ENTRIES && IsTable(mem[t][i], l)
    requires Grown(mem, pool, mem', pool', mem[t][i].phys, l - 1)
    ensures HasTable(mem', t) && mem'[t] == mem[t] && Grown(mem, pool, mem', pool', t, l)
    ensures forall a: nat :: Index(a, l) != i ==> SameWalk(mem, mem', t, l, a)
  {
    SubInFoot(mem, t, l, i);
    assert mem'[t] == mem[t];
    EntryChanged(mem, mem', t, l, i, mem[t][i], pool - pool');
    BelowEntry(mem, t, l, i);
    BelowEntry(mem', t, l, i);
  }

  /** `end - 1` in 64 bits: the last address of a range that ends at `end`. */
  function LastOf(end: nat): nat
  {
    if end == 0 then 0xffff_ffff_ffff_ffff else end - 1
  }

  /** What the subtraction wraps to, and what it leaves out: one below in 64 bits. */
  lemma LastOfIs(end: nat)
    requires end < 0x1_0000_0000_0000_0000
    ensures LastOf(end) < 0x1_0000_0000_0000_0000 && (LastOf(end) + 1) % 0x1_0000_0000_0000_0000 == end
    ensures end <= LastOf(end) <==> end == 0
  {
  }

  /** Everything page sized. */
  predicate PageAligned(b: nat, e: nat, phys: nat) { b % 0x1000 == 0 && e % 0x1000 == 0 && phys % 0x1000 == 0 }

  /** What `__pt_map_pages` asks of its caller; the pool holds other pages than
      the tables. */
  ghost predicate Mappable(mem: Memory, pool: set<nat>, t: nat, l: nat, b: nat, e: nat, phys: nat)
  {
    && 1 <= l <= LEVELS && b < e && PageAligned(b, e, phys) && Slot(e - 1, l + 1) == Slot(b, l + 1)
    && WF(mem, t, l) && pool !! Foot(mem, t, l) && Vacant(mem, t, l, b, e)
  }

  /** The part of [b, e) in slot `q`. */
  function PartFrom(q: nat, l: nat, b: nat): nat { if b < Base(q, l) then Base(q, l) else b }

  function PartTo(q: nat, l: nat, e: nat): nat { if Base(q + 1, l) < e then Base(q + 1, l) else e }

  /** The recursion of `__pt_map_pages` over [b, e), followed through the tables
      that are there, meets a present entry that is no table: at level 1 a BUG,
      above it a leaf taken for a table. */
  ghost predicate Meets(mem: Memory, t: nat, l: nat, b: nat, e: nat)
    requires b < e
    decreases l, 1
  {
    exists q: nat :: Slot(b, l) <= q <= Slot(e - 1, l) && MeetsIn(mem, t, l, q, b, e)
  }

  ghost predicate MeetsIn(mem: Memory, t: nat, l: nat, q: nat, b: nat, e: nat)
    decreases l, 0
  {
    && l > 0 && HasTable(mem, t) && mem[t][q % ENTRIES].present
    && (IsTable(mem[t][q % ENTRIES], l) ==>
          PartFrom(q, l, b) < PartTo(q, l, e)
          && Meets(mem, mem[t][q % ENTRIES].phys, l - 1, PartFrom(q, l, b), PartTo(q, l, e)))
  }

  lemma PartFacts(q: nat, l: nat, b: nat, e: nat, a: nat)
    requires 1 <= l <= LEVELS && b < e && Slot(b, l) <= q <= Slot(e - 1, l)
    ensures b <= PartFrom(q, l, b) < PartTo(q, l, e) <= e
    ensures PartFrom(q, l, b) <= a < PartTo(q, l, e) <==> b <= a < e && Slot(a, l) == q
  {
    SlotFacts(b, l);
    SlotFacts(e - 1, l);
    SlotFacts(a, l);
    if Base(q, l) <= a < Base(q + 1, l) { SlotUnique(a, q, l); }
    BaseMonotone(Slot(b, l), q, l);
    BaseMonotone(q, Slot(e - 1, l), l);
  }

  lemma BaseMonotone(p: nat, q: nat, l: nat)
    requires 1 <= l <= LEVELS && p <= q
    ensures Base(p, l) <= Base(q, l) && Base(p + 1, l) <= Base(q + 1, l)
    ensures Base(q, l) < Base(q + 1, l)
  {
    if l == 1 { } else if l == 2 { } else if l == 3 { } else { }
  }

  lemma MeetsInMapped(mem: Memory, t: nat, l: nat, q: nat, b: nat, e: nat)
    requires WF(mem, t, l) && l <= LEVELS && b < e && Slot(b, l) <= q <= Slot(e - 1, l)
    requires PartFrom(q, l, b) < PartTo(q, l, e)
    requires IsTable(mem[t][q % ENTRIES], l) ==> (
      Meets(mem, mem[t][q % ENTRIES].phys, l - 1, PartFrom(q, l, b), PartTo(q, l, e)) <==>
      !Vacant(mem, mem[t][q % ENTRIES].phys, l - 1, PartFrom(q, l, b), PartTo(q, l, e)))
    ensures MeetsIn(mem, t, l, q, b, e) <==> !Vacant(mem, t, l, PartFrom(q, l, b), PartTo(q, l, e))
  {
    hide Slot, Size, Base, PartFrom, PartTo, Meets, Foot, Sub;
    var f, u, entry := PartFrom(q, l, b), PartTo(q, l, e), mem[t][q % ENTRIES];
    forall a: nat | f <= a < u
      ensures Walk(mem, t, l, a) != None <==>
        entry.present && (IsTable(entry, l) ==> Walk(mem, entry.phys, l - 1, a) != None)
    {
      PartFacts(q, l, b, e, a);
    }
    if entry.present && !IsTable(entry, l) { assert Walk(mem, t, l, f) != None; }
    if IsTable(entry, l) && !Vacant(mem, entry.phys, l - 1, f, u) {
      var a: nat :| f <= a < u && Walk(mem, entry.phys, l - 1, a) != None;
      assert Walk(mem, t, l, a) != None;
    }
  }

  /** It does exactly when some address of the range is mapped. */
  lemma {:induction false} MeetsMapped(mem: Memory, t: nat, l: nat, b: nat, e: nat)
    requires WF(mem, t, l) && l <= LEVELS && b < e
    ensures Meets(mem, t, l, b, e) <==> !Vacant(mem, t, l, b, e)
    decreases l
  {
    hide WF, MeetsIn, Base, PartFrom, PartTo, Size;
    Entries(mem, t, l);
    forall q: nat | Slot(b, l) <= q <= Slot(e - 1, l)
      ensures MeetsIn(mem, t, l, q, b, e) <==> !Vacant(mem, t, l, PartFrom(q, l, b), PartTo(q, l, e))
      ensures b <= PartFrom(q, l, b) && PartTo(q, l, e) <= e
    {
      PartFacts(q, l, b, e, b);
      if IsTable(mem[t][q % ENTRIES], l) {
        MeetsMapped(mem, mem[t][q % ENTRIES].phys, l - 1, PartFrom(q, l, b), PartTo(q, l, e));
      }
      MeetsInMapped(mem, t, l, q, b, e);
    }
    forall a: nat | b <= a < e && Walk(mem, t, l, a) != None ensures Meets(mem, t, l, b, e)
    {
      SlotMonotone(b, a, l);
      SlotMonotone(a, e - 1, l);
      PartFacts(Slot(a, l), l, b, e, a);
    }
  }

  lemma Entries(mem: Memory, t: nat, l: nat)
    requires WF(mem, t, l)
    ensures l > 0 && HasTable(mem, t)
    ensures forall i :: 0 <= i < ENTRIES && IsTable(mem[t][i], l) ==> WF(mem, mem[t][i].phys, l - 1)
  {
  }

  /** What it promises: the linear map, and level-1 tables everywhere when no
      larger leaf may be used. */
  ghost predicate Done(mem: Memory, pool: set<nat>, mem': Memory, pool': set<nat>, t: nat, l: nat,
      b: nat, e: nat, phys: nat, present: bool, large: bool)
  {
    && Grown(mem, pool, mem', pool', t, l)
    && Mapped(mem, mem', t, l, b, e, phys, present)
    && (present ==> LeavesFit(mem', t, l, b, e, phys))
    && (!large ==> Populated(mem', t, l, b, e))
    && (Populated(mem, t, l, b, e) ==> pool' == pool)
  }

  lemma DoneGrown(mem: Memory, pool: set<nat>, mem': Memory, pool': set<nat>, t: nat, l: nat,
      b: nat, e: nat, phys: nat, present: bool, large: bool)
    requires Done(mem, pool, mem', pool', t, l, b, e, phys, present, large)
    ensures Grown(mem, pool, mem', pool', t, l)
    ensures forall a: nat :: LeafLevel(mem, t, l, a) > 0 ==> LeafLevel(mem', t, l, a) == LeafLevel(mem, t, l, a)
  {
  }

  /** The piece of [cur, last] that lies in the slot of `cur`. */
  function PieceEnd(cur: nat, last: nat, l: nat): nat
  {
    var entryEnd := Base(Slot(cur, l) + 1, l);
    if entryEnd < last + 1 then entryEnd else last + 1
  }

  lemma PieceFacts(cur: nat, last: nat, l: nat)
    requires 1 <= l <= LEVELS && cur <= last && cur % 0x1000 == 0 && (last + 1) % 0x1000 == 0
    requires Slot(last, l + 1) == Slot(cur, l + 1)
    ensures cur < PieceEnd(cur, last, l) <= last + 1 && PieceEnd(cur, last, l) % 0x1000 == 0
    ensures Slot(PieceEnd(cur, last, l) - 1, l) == Slot(cur, l)
    ensures PieceEnd(cur, last, l) <= last ==>
      && Slot(PieceEnd(cur, last, l), l + 1) == Slot(cur, l + 1)
      && Index(PieceEnd(cur, last, l), l) == Index(cur, l) + 1
    ensures PieceEnd(cur, last, l) <= last ==> PieceEnd(cur, last, l) % Size(l) == 0
    ensures PieceEnd(cur, last, l) == last + 1 ==> Index(cur, l) == Index(last, l)
    ensures PieceEnd(cur, last, l) <= last ==> Index(cur, l) < Index(last, l)
  {
    SlotFacts(cur, l);
    var e := PieceEnd(cur, last, l);
    SlotUnique(e - 1, Slot(cur, l), l);
    if e <= last {
      NextSlot(cur, last, l);
    } else {
      SameSlot(cur, last, l);
    }
  }

  /** A piece as long as its entry is the whole entry; on level 1 all pieces are. */
  lemma WholePiece(cur: nat, last: nat, l: nat)
    requires 1 <= l <= LEVELS && cur <= last && cur % 0x1000 == 0 && (last + 1) % 0x1000 == 0
    ensures PieceEnd(cur, last, l) - cur == Size(l) ==> cur % Size(l) == 0
    ensures l == 1 ==> PieceEnd(cur, last, l) - cur == Size(l)
  {
    SlotFacts(cur, l);
  }

  lemma BaseIsMultiple(q: nat, l: nat)
    ensures Base(q, l) % Size(l) == 0
  {
    hide Size;
    Multiple(q, Size(l));
  }

  lemma NextSlot(cur: nat, last: nat, l: nat)
    requires 1 <= l <= LEVELS && Base(Slot(cur, l) + 1, l) <= last && Slot(last, l + 1) == Slot(cur, l + 1)
    ensures Slot(Base(Slot(cur, l) + 1, l), l + 1) == Slot(cur, l + 1)
    ensures Index(Base(Slot(cur, l) + 1, l), l) == Index(cur, l) + 1 <= Index(last, l)
    ensures Base(Slot(cur, l) + 1, l) % Size(l) == 0
  {
    hide Slot, Size, Base;
    var q := Slot(cur, l);
    BaseIsMultiple(q + 1, l);
    var e := Base(q + 1, l);
    SlotFacts(cur, l);
    SlotFacts(last, l);
    BaseMonotone(q, q + 1, l);
    SlotUnique(e, q + 1, l);
    SlotFacts(e, l);
    SlotMonotone(e, last, l);
  }

  /** Where the loop of `__pt_map_pages` stands: `cur` is the first address to
      do and `i` its entry. */
  ghost predicate Cursor(begin: nat, cur: nat, last: nat, i: nat, l: nat)
  {
    && begin <= cur <= last + 1 && cur % 0x1000 == 0
    && (cur <= last ==> Slot(cur, l + 1) == Slot(last, l + 1) && i == Index(cur, l) <= Index(last, l))
    && (begin < cur <= last ==> cur % Size(l) == 0)
    && (cur == last + 1 ==> i == Index(last, l) + 1)
  }

  lemma CursorStarts(begin: nat, last: nat, l: nat)
    requires 1 <= l <= LEVELS && begin <= last && begin % 0x1000 == 0 && Slot(last, l + 1) == Slot(begin, l + 1)
    ensures Cursor(begin, begin, last, Index(begin, l), l)
  {
    SameSlot(begin, last, l);
    SlotMonotone(begin, last, l);
  }

  lemma CursorMoves(begin: nat, cur: nat, last: nat, i: nat, l: nat)
    requires 1 <= l <= LEVELS && (last + 1) % 0x1000 == 0
    requires Cursor(begin, cur, last, i, l) && cur <= last
    ensures Cursor(begin, PieceEnd(cur, last, l), last, i + 1, l)
  {
    PieceFacts(cur, last, l);
  }

  /** A present entry of the range is a table, and the range may be mapped there. */
  lemma ChildMappable(mem: Memory, pool: set<nat>, t: nat, l: nat, b: nat, e: nat, phys: nat)
    requires Mappable(mem, pool, t, l, b, e, phys) && Slot(e - 1, l) == Slot(b, l) && mem[t][Index(b, l)].present
    ensures l >= 2 && IsTable(mem[t][Index(b, l)], l)
    ensures Mappable(mem, pool, mem[t][Index(b, l)].phys, l - 1, b, e, phys)
  {
    assert Walk(mem, t, l, b) == None;
    SubInFoot(mem, t, l, Index(b, l));
    var c, k := mem[t][Index(b, l)].phys, l - 1;
    forall a: nat | b <= a < e ensures Walk(mem, c, k, a) == None
    {
      SlotBetween(b, a, e, l);
      WalkStep(mem, t, l, a);
    }
  }

  lemma LeavesInSteps(m1: Memory, m2: Memory, t: nat, l: nat, b: nat, c: nat, e: nat, phys: nat, at: nat)
    requires b <= c <= e && at == phys + (c - b)
    requires LeavesFit(m1, t, l, b, c, phys) && LeavesFit(m2, t, l, c, e, at)
    requires forall a: nat :: LeafLevel(m1, t, l, a) > 0 ==> LeafLevel(m2, t, l, a) == LeafLevel(m1, t, l, a)
    ensures LeavesFit(m2, t, l, b, e, phys)
  {
    hide Size, Slot;
    forall a: nat | b <= a < e ensures LeafFits(LeafLevel(m2, t, l, a), a, b, e, phys)
    {
      if a < c { assert LeafFits(LeafLevel(m1, t, l, a), a, b, c, phys); }
    }
  }

  lemma PopulatedInSteps(m1: Memory, m2: Memory, t: nat, l: nat, b: nat, c: nat, e: nat)
    requires b <= c <= e && Populated(m1, t, l, b, c)
    requires forall a: nat :: LastTable(m1, t, l, a).Some? ==> LastTable(m2, t, l, a) == LastTable(m1, t, l, a)
    requires Populated(m2, t, l, c, e)
    ensures Populated(m2, t, l, b, e)
  {
    forall a: nat | b <= a < e ensures LastTable(m2, t, l, a).Some?
    {
      if a < c { assert LastTable(m1, t, l, a).Some?; }
    }
  }

  /** What the slots before `cur` got and what the slot of `cur` got. */
  lemma DoneInSteps(m0: Memory, p0: set<nat>, m1: Memory, p1: set<nat>, m2: Memory, p2: set<nat>, t: nat, l: nat,
      b: nat, c: nat, e: nat, phys: nat, at: nat, present: bool, large: bool)
    requires b <= c <= e && Slot(c, l + 1) == Slot(b, l + 1) && at == phys + (c - b)
    requires Done(m0, p0, m1, p1, t, l, b, c, phys, present, large)
    requires Done(m1, p1, m2, p2, t, l, c, e, at, present, large)
    ensures Done(m0, p0, m2, p2, t, l, b, e, phys, present, large)
  {
    hide Slot, Size, WF, Foot, Mapped, LeavesFit;
    GrownInSteps(m0, p0, m1, p1, m2, p2, t, l);
    MappedInSteps(m0, m1, m2, t, l, b, c, e, phys, present);
    if !large { PopulatedInSteps(m1, m2, t, l, b, c, e); }
    if present { LeavesInSteps(m1, m2, t, l, b, c, e, phys, at); }
    if Populated(m0, t, l, b, e) {
      assert Populated(m0, t, l, b, c);
      assert forall a: nat :: c <= a < e ==> LastTable(m0, t, l, a).Some?;
    }
  }

  /** The rest of the range is as it was. */
  lemma StillVacant(m0: Memory, p0: set<nat>, m1: Memory, p1: set<nat>, t: nat, l: nat, b: nat, c: nat, e: nat,
      phys: nat, present: bool, large: bool)
    requires Mappable(m0, p0, t, l, b, e, phys) && b <= c < e && c % 0x1000 == 0
    requires Done(m0, p0, m1, p1, t, l, b, c, phys, present, large)
    ensures Mappable(m1, p1, t, l, c, e, phys + (c - b))
    ensures Populated(m0, t, l, b, e) ==> Populated(m1, t, l, c, e)
  {
    SlotBetween(b, c, e, l + 1);
    AlignedOn(phys, b, c);
    forall a: nat | c <= a < e ensures Walk(m1, t, l, a) == None
    {
      SlotBetween(b, a, e, l + 1);
      assert Walk(m1, t, l, a) == Image(m0, t, l, b, c, phys, present, a);
    }
  }

  lemma LeafDone(mem: Memory, mem': Memory, pool: set<nat>, t: nat, l: nat, b: nat, e: nat, phys: nat,
      present: bool, large: bool)
    requires Mappable(mem, pool, t, l, b, e, phys) && l < LEVELS && (large || l == 1)
    requires e - b == Size(l) && b % Size(l) == 0 && phys % Size(l) == 0
    requires !mem[t][Index(b, l)].present
    requires mem' == mem[t := mem[t][Index(b, l) := Pte(present, large, phys)]]
    ensures Done(mem, pool, mem', pool, t, l, b, e, phys, present, large)
  {
    LeafPlaced(mem, mem', pool, t, l, b, phys, present, large);
    if present { LeafFitsSlot(mem', t, l, b, phys); }
    if l > 1 { assert LastTable(mem, t, l, b) == None; }
  }

  /** With the missing table hung below it, the range may be mapped as before. */
  lemma StillMappable(mem: Memory, mem': Memory, pool: set<nat>, p: nat, t: nat, l: nat, b: nat, e: nat, phys: nat)
    requires Mappable(mem, pool, t, l, b, e, phys) && l >= 2 && p in pool
    requires !mem[t][Index(b, l)].present
    requires mem' == mem[p := seq(ENTRIES, _ => ZERO)][t := mem[t][Index(b, l) := Pte(true, false, p)]]
    ensures mem'[t][Index(b, l)].present && Mappable(mem', pool - {p}, t, l, b, e, phys)
    ensures Grown(mem, pool, mem', pool - {p}, t, l) && !Populated(mem, t, l, b, e)
    ensures forall a: nat :: Walk(mem', t, l, a) == Walk(mem, t, l, a)
  {
    TableHung(mem, mem', pool, p, t, l, Index(b, l));
    assert LastTable(mem, t, l, b) == None;
  }

  /** Done below the entry of the slot, done. */
  lemma DescendedDone(mem: Memory, pool: set<nat>, mem': Memory, pool': set<nat>, t: nat, l: nat,
      b: nat, e: nat, phys: nat, present: bool, large: bool)
    requires Mappable(mem, pool, t, l, b, e, phys) && Slot(e - 1, l) == Slot(b, l) && mem[t][Index(b, l)].present
    requires Done(mem, pool, mem', pool', mem[t][Index(b, l)].phys, l - 1, b, e, phys, present, large)
    ensures Done(mem, pool, mem', pool', t, l, b, e, phys, present, large)
  {
    ChildMappable(mem, pool, t, l, b, e, phys);
    Descended(mem, pool, mem', pool', t, l, b, e, phys, present);
    PopulatedBelow(mem, t, l, b, e);
  }

  lemma HungDone(m0: Memory, p0: set<nat>, m1: Memory, p1: set<nat>, m2: Memory, p2: set<nat>, t: nat, l: nat,
      b: nat, e: nat, phys: nat, present: bool, large: bool)
    requires Grown(m0, p0, m1, p1, t, l) && (forall a: nat :: Walk(m1, t, l, a) == Walk(m0, t, l, a))
    requires Populated(m0, t, l, b, e) ==> m1 == m0 && p1 == p0
    requires Done(m1, p1, m2, p2, t, l, b, e, phys, present, large)
    ensures Done(m0, p0, m2, p2, t, l, b, e, phys, present, large)
  {
    GrownInSteps(m0, p0, m1, p1, m2, p2, t, l);
    forall a: nat | Slot(a, l + 1) == Slot(b, l + 1)
      ensures Walk(m2, t, l, a) == Image(m0, t, l, b, e, phys, present, a)
    {
      assert Walk(m2, t, l, a) == Image(m1, t, l, b, e, phys, present, a);
    }
  }

  lemma PopulatedBelow(mem: Memory, t: nat, l: nat, b: nat, e: nat)
    requires 1 <= l <= LEVELS && HasTable(mem, t) && b < e && Slot(e - 1, l) == Slot(b, l)
    ensures l >= 2 && Populated(mem, t, l, b, e) ==>
      IsTable(mem[t][Index(b, l)], l) && Populated(mem, mem[t][Index(b, l)].phys, l - 1, b, e)
  {
    if l >= 2 && Populated(mem, t, l, b, e) {
      assert LastTable(mem, t, l, b).Some?;
      var c, k := mem[t][Index(b, l)].phys, l - 1;
      forall a: nat | b <= a < e ensures LastTable(mem, c, k, a).Some?
      {
        SlotBetween(b, a, e, l);
        WalkStep(mem, t, l, a);
      }
    }
  }

  lemma PieceMappable(mem: Memory, pool: set<nat>, t: nat, l: nat, cur: nat, last: nat, phys: nat)
    requires Mappable(mem, pool, t, l, cur, last + 1, phys)
    ensures cur < PieceEnd(cur, last, l) <= last + 1
    ensures Mappable(mem, pool, t, l, cur, PieceEnd(cur, last, l), phys)
    ensures Slot(PieceEnd(cur, last, l) - 1, l) == Slot(cur, l)
    ensures PieceEnd(cur, last, l) <= last ==> Slot(PieceEnd(cur, last, l), l + 1) == Slot(cur, l + 1)
    ensures l == 1 ==> PieceEnd(cur, last, l) - cur == Size(1)
    ensures PieceEnd(cur, last, l) - cur == Size(l) ==> cur % Size(l) == 0
    ensures Populated(mem, t, l, cur, last + 1) ==> Populated(mem, t, l, cur, PieceEnd(cur, last, l))
  {
    hide Slot, Size, PieceEnd, WF, Walk;
    PieceFacts(cur, last, l);
    WholePiece(cur, last, l);
    SlotBetween(cur, PieceEnd(cur, last, l) - 1, last + 1, l + 1);
  }

  lemma CursorEnds(begin: nat, cur: nat, last: nat, i: nat, l: nat)
    requires Cursor(begin, cur, last, i, l) && i > Index(last, l)
    ensures cur == last + 1
  {
  }

  lemma RoundsStart(mem: Memory, pool: set<nat>, t: nat, l: nat, b: nat, last: nat, e: nat, phys: nat,
      present: bool, large: bool)
    requires Mappable(mem, pool, t, l, b, e, phys) && e == last + 1
    ensures 1 <= l <= LEVELS && Cursor(b, b, last, Index(b, l), l) && WF(mem, t, l)
    ensures Done(mem, pool, mem, pool, t, l, b, b, phys, present, large)
  {
    CursorStarts(b, last, l);
  }

  /** The next round may run and brings the cursor to the next slot. */
  lemma RoundReady(m0: Memory, p0: set<nat>, m1: Memory, p1: set<nat>, t: nat, l: nat, b: nat, cur: nat, last: nat,
      e: nat,
      i: nat, phys: nat, at: nat, present: bool, large: bool)
    requires Mappable(m0, p0, t, l, b, e, phys) && e == last + 1
    requires b <= cur && Cursor(b, cur, last, i, l) && i <= Index(last, l) && at == phys + (cur - b)
    requires Done(m0, p0, m1, p1, t, l, b, cur, phys, present, large)
    ensures cur <= last && cur < PieceEnd(cur, last, l) <= last + 1 && Slot(cur, l + 1) == Slot(b, l + 1)
    ensures Mappable(m1, p1, t, l, cur, PieceEnd(cur, last, l), at)
    ensures Slot(PieceEnd(cur, last, l) - 1, l) == Slot(cur, l)
    ensures l == 1 ==> PieceEnd(cur, last, l) - cur == Size(1)
    ensures PieceEnd(cur, last, l) - cur == Size(l) ==> cur % Size(l) == 0
    ensures Cursor(b, PieceEnd(cur, last, l), last, i + 1, l)
    ensures Populated(m0, t, l, b, e) ==> Populated(m1, t, l, cur, PieceEnd(cur, last, l))
    ensures NextPiece(b, cur, PieceEnd(cur, last, l), l)
    ensures PieceEnd(cur, last, l) == e || PieceEnd(cur, last, l) % Size(l) == 0
  {
    hide Done, Populated, WF, Foot;
    StillVacant(m0, p0, m1, p1, t, l, b, cur, e, phys, present, large);
    CursorMoves(b, cur, last, i, l);
    PieceFacts(cur, last, l);
    PieceMappable(m1, p1, t, l, cur, last, phys + (cur - b));
  }

  // ---- how large the leaves are, and how many tables it takes ----

  /** The entry for `a` in a level-`k` table may be a leaf: it stands for part of
      [b, e) only, both sides are aligned to it, and no table is in its place. */
  ghost predicate MayBeLeaf(mem: Memory, t: nat, l: nat, k: nat, a: nat, b: nat, e: nat, phys: nat, large: bool)
  {
    LeafFits(k, a, b, e, phys) && (large || k == 1) && k <= TableLevel(mem, t, l, a)
  }

  /** The highest such level. */
  ghost function LeafFor(mem: Memory, t: nat, l: nat, a: nat, b: nat, e: nat, phys: nat, large: bool): (k: nat)
    ensures 1 <= k < LEVELS
  {
    if MayBeLeaf(mem, t, l, 3, a, b, e, phys, large) then 3
    else if MayBeLeaf(mem, t, l, 2, a, b, e, phys, large) then 2 else 1
  }

  lemma {:induction false} TableLevelBounds(mem: Memory, t: nat, l: nat, a: nat)
    requires WF(mem, t, l)
    ensures 1 <= TableLevel(mem, t, l, a) <= l
    decreases l
  {
    if IsTable(mem[t][Index(a, l)], l) { TableLevelBounds(mem, mem[t][Index(a, l)].phys, l - 1, a); }
  }

  /** On level 1 a leaf always fits, so there is a highest level. */
  lemma LeafForIs(mem: Memory, t: nat, l: nat, a: nat, b: nat, e: nat, phys: nat, large: bool)
    requires WF(mem, t, l) && PageAligned(b, e, phys) && b <= a < e
    ensures var k := LeafFor(mem, t, l, a, b, e, phys, large);
      && MayBeLeaf(mem, t, l, k, a, b, e, phys, large)
      && forall j: nat :: MayBeLeaf(mem, t, l, j, a, b, e, phys, large) ==> j <= k
  {
    hide LeafFits, WF, TableLevel;
    TableLevelBounds(mem, t, l, a);
    SmallLeafFits(a, b, e, phys);
    forall j: nat | LeafFits(j, a, b, e, phys) ensures 1 <= j < LEVELS { FitsBelowRoot(j, a, b, e, phys); }
  }

  lemma SmallLeafFits(a: nat, b: nat, e: nat, phys: nat)
    requires PageAligned(b, e, phys) && b <= a < e
    ensures LeafFits(1, a, b, e, phys)
  {
    SlotFacts(a, 1);
    AlignedOn(phys, b, Base(Slot(a, 1), 1));
  }

  lemma FitsBelowRoot(j: nat, a: nat, b: nat, e: nat, phys: nat)
    requires LeafFits(j, a, b, e, phys)
    ensures 1 <= j < LEVELS
  {
  }

  /** The table of level `j` for slot `q` of the level above must be added: an
      address of [b, e) in this slot has its leaf not above level `j`, and had no
      table so low. */
  ghost predicate Missing(mem: Memory, t: nat, l: nat, b: nat, e: nat, phys: nat, large: bool, j: nat, q: nat)
  {
    exists a: nat :: NeedsTable(mem, t, l, b, e, phys, large, j, q, a)
  }

  ghost predicate NeedsTable(mem: Memory, t: nat, l: nat, b: nat, e: nat, phys: nat, large: bool, j: nat, q: nat,
      a: nat)
  {
    Lacks(mem, t, l, b, e, phys, large, j, a) && Slot(a, j + 1) == q
  }

  ghost predicate Lacks(mem: Memory, t: nat, l: nat, b: nat, e: nat, phys: nat, large: bool, j: nat, a: nat)
  {
    b <= a < e && LeafFor(mem, t, l, a, b, e, phys, large) <= j < TableLevel(mem, t, l, a)
  }

  /** The tables that must be added for [b, e). */
  ghost function NewTables(mem: Memory, t: nat, l: nat, b: nat, e: nat, phys: nat, large: bool): set<(nat, nat)>
  {
    set j: nat, a: nat | j < l && b <= a < e && Lacks(mem, t, l, b, e, phys, large, j, a) :: (j, Slot(a, j + 1))
  }

  lemma NewTablesAre(mem: Memory, t: nat, l: nat, b: nat, e: nat, phys: nat, large: bool)
    ensures forall j: nat, q: nat ::
      (j, q) in NewTables(mem, t, l, b, e, phys, large) <==> j < l && Missing(mem, t, l, b, e, phys, large, j, q)
  {
    hide Slot, LeafFor, TableLevel;
    forall j: nat, q: nat | j < l && Missing(mem, t, l, b, e, phys, large, j, q)
      ensures (j, q) in NewTables(mem, t, l, b, e, phys, large)
    {
      var a: nat :| NeedsTable(mem, t, l, b, e, phys, large, j, q, a);
      assert Lacks(mem, t, l, b, e, phys, large, j, a);
    }
    forall j: nat, q: nat | (j, q) in NewTables(mem, t, l, b, e, phys, large)
      ensures j < l && Missing(mem, t, l, b, e, phys, large, j, q)
    {
      var a: nat :| Lacks(mem, t, l, b, e, phys, large, j, a) && Slot(a, j + 1) == q;
      assert NeedsTable(mem, t, l, b, e, phys, large, j, q, a);
    }
  }

  /** Every leaf is as large as it may be. */
  ghost predicate LeavesLargest(mem: Memory, mem': Memory, t: nat, l: nat, b: nat, e: nat, phys: nat, large: bool)
  {
    forall a: nat :: b <= a < e ==> LeafLevel(mem', t, l, a) == LeafFor(mem, t, l, a, b, e, phys, large)
  }

  /** No table was added for the slots behind [b, e). */
  ghost predicate NoneAhead(mem: Memory, mem': Memory, t: nat, l: nat, b: nat, e: nat)
  {
    forall a: nat :: e <= a && Slot(a, l + 1) == Slot(b, l + 1) && (b < e ==> Slot(e - 1, l) < Slot(a, l)) ==>
      TableLevel(mem', t, l, a) == TableLevel(mem, t, l, a)
  }

  /** As few leaves and as few new tables as can be. */
  ghost predicate Thrifty(mem: Memory, pool: set<nat>, mem': Memory, pool': set<nat>, t: nat, l: nat,
      b: nat, e: nat, phys: nat, present: bool, large: bool)
  {
    && |pool| == |pool'| + |NewTables(mem, t, l, b, e, phys, large)|
    && (present ==> LeavesLargest(mem, mem', t, l, b, e, phys, large))
    && NoneAhead(mem, mem', t, l, b, e)
  }

  lemma ThriftyAtStart(mem: Memory, pool: set<nat>, t: nat, l: nat, b: nat, phys: nat, present: bool, large: bool)
    ensures Thrifty(mem, pool, mem, pool, t, l, b, b, phys, present, large)
  {
    assert NewTables(mem, t, l, b, b, phys, large) == {};
  }

  lemma LeafThrifty(mem: Memory, mem': Memory, pool: set<nat>, t: nat, l: nat, b: nat, e: nat, phys: nat,
      present: bool, large: bool)
    requires Mappable(mem, pool, t, l, b, e, phys) && l < LEVELS && (large || l == 1)
    requires e - b == Size(l) && b % Size(l) == 0 && phys % Size(l) == 0
    requires !mem[t][Index(b, l)].present
    requires mem' == mem[t := mem[t][Index(b, l) := Pte(present, large, phys)]]
    ensures Thrifty(mem, pool, mem', pool, t, l, b, e, phys, present, large)
  {
    SubInFoot(mem, t, l, 0);
    EntryChanged(mem, mem', t, l, Index(b, l), Pte(present, large, phys), {});
    forall a: nat | b <= a < e
      ensures TableLevel(mem, t, l, a) == l == LeafFor(mem, t, l, a, b, e, phys, large)
      ensures present ==> LeafLevel(mem', t, l, a) == l
    {
      SlotAt(a, b, l);
      SlotFacts(b, l);
    }
    assert NewTables(mem, t, l, b, e, phys, large) == {};
    SlotAt(e - 1, b, l);
    SlotsBehind(mem, mem', t, l, b, e);
  }

  lemma LevelsBelow(mem: Memory, t: nat, l: nat, b: nat, e: nat, a: nat)
    requires 2 <= l <= LEVELS && WF(mem, t, l) && b <= a < e && Slot(e - 1, l) == Slot(b, l)
    requires IsTable(mem[t][Index(b, l)], l)
    ensures TableLevel(mem, t, l, a) == TableLevel(mem, mem[t][Index(b, l)].phys, l - 1, a) <= l - 1
  {
    SlotBetween(b, a, e, l);
    WalkStep(mem, t, l, a);
    TableLevelBounds(mem, mem[t][Index(b, l)].phys, l - 1, a);
  }

  /** The same tables on the way, the same leaves and the same tables missing. */
  lemma SameNeeds(m0: Memory, t0: nat, l0: nat, m1: Memory, t1: nat, l1: nat, b: nat, e: nat, phys: nat, large: bool)
    requires l1 <= l0 && forall a: nat :: b <= a < e ==> TableLevel(m1, t1, l1, a) == TableLevel(m0, t0, l0, a) <= l1
    ensures NewTables(m1, t1, l1, b, e, phys, large) == NewTables(m0, t0, l0, b, e, phys, large)
    ensures forall a: nat :: b <= a < e ==>
      LeafFor(m1, t1, l1, a, b, e, phys, large) == LeafFor(m0, t0, l0, a, b, e, phys, large)
  {
    hide LeafFits, Slot, TableLevel, NewTables;
    forall a: nat | b <= a < e
      ensures LeafFor(m1, t1, l1, a, b, e, phys, large) == LeafFor(m0, t0, l0, a, b, e, phys, large)
    {
      assert TableLevel(m1, t1, l1, a) == TableLevel(m0, t0, l0, a);
    }
    var n1, n0 := NewTables(m1, t1, l1, b, e, phys, large), NewTables(m0, t0, l0, b, e, phys, large);
    NewTablesAre(m1, t1, l1, b, e, phys, large);
    NewTablesAre(m0, t0, l0, b, e, phys, large);
    forall j: nat, q: nat ensures (j, q) in n1 <==> (j, q) in n0
    {
      SameMissing(m0, t0, l0, m1, t1, l1, b, e, phys, large, j, q);
    }
    SamePairs(n1, n0);
  }

  lemma SameMissing(m0: Memory, t0: nat, l0: nat, m1: Memory, t1: nat, l1: nat, b: nat, e: nat, phys: nat,
      large: bool, j: nat, q: nat)
    requires l1 <= l0 && forall a: nat :: b <= a < e ==> TableLevel(m1, t1, l1, a) == TableLevel(m0, t0, l0, a) <= l1
    requires forall a: nat :: b <= a < e ==>
      LeafFor(m1, t1, l1, a, b, e, phys, large) == LeafFor(m0, t0, l0, a, b, e, phys, large)
    ensures j < l1 && Missing(m1, t1, l1, b, e, phys, large, j, q) <==>
      j < l0 && Missing(m0, t0, l0, b, e, phys, large, j, q)
  {
    hide LeafFor, Slot, TableLevel;
    if Missing(m1, t1, l1, b, e, phys, large, j, q) {
      var a: nat :| NeedsTable(m1, t1, l1, b, e, phys, large, j, q, a);
      assert NeedsTable(m0, t0, l0, b, e, phys, large, j, q, a);
    }
    if Missing(m0, t0, l0, b, e, phys, large, j, q) {
      var a: nat :| NeedsTable(m0, t0, l0, b, e, phys, large, j, q, a);
      assert NeedsTable(m1, t1, l1, b, e, phys, large, j, q, a);
    }
  }

  lemma SamePairs(s: set<(nat, nat)>, s': set<(nat, nat)>)
    requires forall j: nat, q: nat :: (j, q) in s <==> (j, q) in s'
    ensures s == s'
  {
    forall x ensures x in s <==> x in s' { assert x == (x.0, x.1); }
  }

  /** Below the entry of one slot the same leaves may be used and the same tables are missing. */
  lemma TablesBelow(mem: Memory, t: nat, l: nat, b: nat, e: nat, phys: nat, large: bool)
    requires 2 <= l <= LEVELS && WF(mem, t, l) && b < e && Slot(e - 1, l) == Slot(b, l)
    requires IsTable(mem[t][Index(b, l)], l)
    ensures var c := mem[t][Index(b, l)].phys;
      && NewTables(mem, c, l - 1, b, e, phys, large) == NewTables(mem, t, l, b, e, phys, large)
      && forall a: nat :: b <= a < e ==>
           LeafFor(mem, c, l - 1, a, b, e, phys, large) == LeafFor(mem, t, l, a, b, e, phys, large)
  {
    hide LeafFor, NewTables, TableLevel, Slot;
    var c := mem[t][Index(b, l)].phys;
    forall a: nat | b <= a < e ensures TableLevel(mem, c, l - 1, a) == TableLevel(mem, t, l, a) <= l - 1
    {
      LevelsBelow(mem, t, l, b, e, a);
    }
    SameNeeds(mem, t, l, mem, c, l - 1, b, e, phys, large);
  }

  lemma DescendedThrifty(mem: Memory, pool: set<nat>, mem': Memory, pool': set<nat>, t: nat, l: nat,
      b: nat, e: nat, phys: nat, present: bool, large: bool)
    requires Mappable(mem, pool, t, l, b, e, phys) && Slot(e - 1, l) == Slot(b, l) && mem[t][Index(b, l)].present
    requires Grown(mem, pool, mem', pool', mem[t][Index(b, l)].phys, l - 1)
    requires Thrifty(mem, pool, mem', pool', mem[t][Index(b, l)].phys, l - 1, b, e, phys, present, large)
    ensures Thrifty(mem, pool, mem', pool', t, l, b, e, phys, present, large)
  {
    hide Size, LeafFits, LeafFor;
    var i := Index(b, l);
    ChildMappable(mem, pool, t, l, b, e, phys);
    TablesBelow(mem, t, l, b, e, phys, large);
    DescendedGrown(mem, pool, mem', pool', t, l, i);
    BelowEntry(mem', t, l, i);
    forall a: nat | b <= a < e ensures Index(a, l) == i { SlotBetween(b, a, e, l); }
    SlotsBehind(mem, mem', t, l, b, e);
  }

  // ---- a missing table ----

  /** No leaf may be used at the entry of [b, e), which is absent. */
  ghost predicate TableMissing(mem: Memory, t: nat, l: nat, b: nat, e: nat, phys: nat, large: bool)
  {
    forall a: nat :: b <= a < e ==>
      TableLevel(mem, t, l, a) == l && !MayBeLeaf(mem, t, l, l, a, b, e, phys, large)
  }

  /** The entry is absent and the piece is too small for it, or not aligned. */
  lemma NoLeafThere(mem: Memory, pool: set<nat>, t: nat, l: nat, b: nat, e: nat, phys: nat, large: bool)
    requires Mappable(mem, pool, t, l, b, e, phys) && Slot(e - 1, l) == Slot(b, l) && !mem[t][Index(b, l)].present
    requires l == LEVELS || e - b != Size(l) || b % Size(l) != 0 || phys % Size(l) != 0 || (!large && l != 1)
    ensures TableMissing(mem, t, l, b, e, phys, large)
  {
    forall a: nat | b <= a < e
      ensures TableLevel(mem, t, l, a) == l && !MayBeLeaf(mem, t, l, l, a, b, e, phys, large)
    {
      SlotBetween(b, a, e, l);
      if LeafFits(l, a, b, e, phys) { WholeSlot(a, b, e, l); }
    }
  }

  /** A slot that lies in [b, e), itself in a slot, is all of it. */
  lemma WholeSlot(a: nat, b: nat, e: nat, l: nat)
    requires 1 <= l <= LEVELS && b <= a < e && Slot(e - 1, l) == Slot(b, l)
    requires b <= Base(Slot(a, l), l) && Base(Slot(a, l) + 1, l) <= e
    ensures b == Base(Slot(a, l), l) && e - b == Size(l) && b % Size(l) == 0
  {
    SlotBetween(b, a, e, l);
    SlotFacts(b, l);
    SlotFacts(e - 1, l);
    SlotFacts(a, l);
  }

  /** `m1` is `m0`, or has a table hung where one was missing. */
  ghost predicate SameOrHung(m0: Memory, p0: set<nat>, m1: Memory, p1: set<nat>, t: nat, l: nat, b: nat, e: nat,
      phys: nat, large: bool)
  {
    (m1 == m0 && p1 == p0) || Hung(m0, p0, m1, p1, t, l, b, e, phys, large)
  }

  ghost predicate Hung(m0: Memory, p0: set<nat>, m1: Memory, p1: set<nat>, t: nat, l: nat, b: nat, e: nat,
      phys: nat, large: bool)
  {
    && l >= 2 && |p0| == |p1| + 1 && TableMissing(m0, t, l, b, e, phys, large)
    && (forall a: nat :: b <= a < e ==> TableLevel(m1, t, l, a) == l - 1)
    && NoneAhead(m0, m1, t, l, b, e)
  }

  lemma TableIsHung(mem: Memory, mem': Memory, pool: set<nat>, p: nat, t: nat, l: nat, b: nat, e: nat, phys: nat,
      large: bool)
    requires Mappable(mem, pool, t, l, b, e, phys) && Slot(e - 1, l) == Slot(b, l) && l >= 2 && p in pool
    requires !mem[t][Index(b, l)].present && TableMissing(mem, t, l, b, e, phys, large)
    requires mem' == mem[p := seq(ENTRIES, _ => ZERO)][t := mem[t][Index(b, l) := Pte(true, false, p)]]
    ensures Hung(mem, pool, mem', pool - {p}, t, l, b, e, phys, large)
  {
    hide TableMissing, MayBeLeaf, Size, Slot, Walk, LeafLevel;
    var i := Index(b, l);
    SubInFoot(mem, t, l, i);
    ClearedTable(mem', p, l - 1);
    EntryChanged(mem, mem', t, l, i, Pte(true, false, p), {p});
    HungWalks(mem, mem', p, t, l, i);
    SlotsBehind(mem, mem', t, l, b, e);
    forall a: nat | b <= a < e ensures Index(a, l) == i { SlotBetween(b, a, e, l); }
    assert pool - {p} + {p} == pool;
  }

  /** The entries of slots behind are others. */
  lemma SlotsBehind(mem: Memory, mem': Memory, t: nat, l: nat, b: nat, e: nat)
    requires 1 <= l <= LEVELS && b < e && Slot(e - 1, l) == Slot(b, l)
    requires forall a: nat :: Index(a, l) != Index(b, l) ==> SameWalk(mem, mem', t, l, a)
    ensures NoneAhead(mem, mem', t, l, b, e)
  {
    hide Size, Slot, Index;
    forall a: nat | e <= a && Slot(a, l + 1) == Slot(b, l + 1) && Slot(e - 1, l) < Slot(a, l)
      ensures TableLevel(mem', t, l, a) == TableLevel(mem, t, l, a)
    {
      SameSlot(a, b, l);
    }
  }

  /** The table hung is the one that was missing above all others. */
  lemma OneLess(m0: Memory, p0: set<nat>, m1: Memory, p1: set<nat>, t: nat, l: nat, b: nat, e: nat, phys: nat,
      large: bool)
    requires 2 <= l <= LEVELS && b < e && Slot(e - 1, l) == Slot(b, l)
    requires Hung(m0, p0, m1, p1, t, l, b, e, phys, large)
    ensures forall a: nat :: b <= a < e ==>
      LeafFor(m1, t, l, a, b, e, phys, large) == LeafFor(m0, t, l, a, b, e, phys, large) <= l - 1
    ensures |NewTables(m0, t, l, b, e, phys, large)| == |NewTables(m1, t, l, b, e, phys, large)| + 1
  {
    hide LeafFits, Slot, NewTables, TableLevel;
    var n0, n1 := NewTables(m0, t, l, b, e, phys, large), NewTables(m1, t, l, b, e, phys, large);
    forall a: nat | b <= a < e
      ensures Slot(a, l) == Slot(b, l) && TableLevel(m0, t, l, a) == l && TableLevel(m1, t, l, a) == l - 1
      ensures LeafFor(m1, t, l, a, b, e, phys, large) == LeafFor(m0, t, l, a, b, e, phys, large) <= l - 1
    {
      SlotBetween(b, a, e, l);
    }
    NewTablesAre(m0, t, l, b, e, phys, large);
    NewTablesAre(m1, t, l, b, e, phys, large);
    forall j: nat, q: nat ensures (j, q) in n0 <==> (j, q) in n1 + {(l - 1, Slot(b, l))}
    {
      OneMissing(m0, m1, t, l, b, e, phys, large, j, q);
    }
    SamePairs(n0, n1 + {(l - 1, Slot(b, l))});
    OneMissing(m0, m1, t, l, b, e, phys, large, l - 1, Slot(b, l));
    assert (l - 1, Slot(b, l)) !in n1;
  }

  lemma OneMissing(m0: Memory, m1: Memory, t: nat, l: nat, b: nat, e: nat, phys: nat, large: bool, j: nat, q: nat)
    requires 2 <= l <= LEVELS && b < e
    requires forall a: nat :: b <= a < e ==>
      && Slot(a, l) == Slot(b, l) && TableLevel(m0, t, l, a) == l && TableLevel(m1, t, l, a) == l - 1
      && LeafFor(m1, t, l, a, b, e, phys, large) == LeafFor(m0, t, l, a, b, e, phys, large) <= l - 1
    ensures j < l && Missing(m0, t, l, b, e, phys, large, j, q) <==>
      (j < l && Missing(m1, t, l, b, e, phys, large, j, q)) || (j == l - 1 && q == Slot(b, l))
    ensures !Missing(m1, t, l, b, e, phys, large, l - 1, q)
  {
    hide LeafFor, Slot, TableLevel;
    if j == l - 1 && q == Slot(b, l) {
      assert j + 1 == l;
      assert NeedsTable(m0, t, l, b, e, phys, large, j, q, b);
    } else if Missing(m0, t, l, b, e, phys, large, j, q) {
      var a: nat :| NeedsTable(m0, t, l, b, e, phys, large, j, q, a);
      assert j + 1 == l ==> q == Slot(b, l);
      assert NeedsTable(m1, t, l, b, e, phys, large, j, q, a);
    }
    if Missing(m1, t, l, b, e, phys, large, j, q) {
      var a: nat :| NeedsTable(m1, t, l, b, e, phys, large, j, q, a);
      assert NeedsTable(m0, t, l, b, e, phys, large, j, q, a);
    }
  }

  lemma HungThrifty(m0: Memory, p0: set<nat>, m1: Memory, p1: set<nat>, m2: Memory, p2: set<nat>, t: nat, l: nat,
      b: nat, e: nat, phys: nat, present: bool, large: bool)
    requires 1 <= l <= LEVELS && b < e && Slot(e - 1, l) == Slot(b, l)
    requires SameOrHung(m0, p0, m1, p1, t, l, b, e, phys, large)
    requires Thrifty(m1, p1, m2, p2, t, l, b, e, phys, present, large)
    ensures Thrifty(m0, p0, m2, p2, t, l, b, e, phys, present, large)
  {
    hide LeafFor, NewTables, TableMissing, Slot;
    if Hung(m0, p0, m1, p1, t, l, b, e, phys, large) { OneLess(m0, p0, m1, p1, t, l, b, e, phys, large); }
  }

  /** Too few pages for what is below the entry are too few. */
  lemma HungTooFew(m0: Memory, p0: set<nat>, m1: Memory, p1: set<nat>, t: nat, l: nat, b: nat, e: nat, phys: nat,
      large: bool)
    requires 1 <= l <= LEVELS && b < e && Slot(e - 1, l) == Slot(b, l)
    requires SameOrHung(m0, p0, m1, p1, t, l, b, e, phys, large)
    requires |p1| < |NewTables(m1, t, l, b, e, phys, large)|
    ensures |p0| < |NewTables(m0, t, l, b, e, phys, large)|
  {
    hide LeafFor, NewTables, TableMissing, Slot;
    if Hung(m0, p0, m1, p1, t, l, b, e, phys, large) { OneLess(m0, p0, m1, p1, t, l, b, e, phys, large); }
  }

  lemma OneAtLeast(mem: Memory, t: nat, l: nat, b: nat, e: nat, phys: nat, large: bool)
    requires 2 <= l <= LEVELS && b < e && TableMissing(mem, t, l, b, e, phys, large)
    ensures |NewTables(mem, t, l, b, e, phys, large)| > 0
  {
    hide LeafFits, Slot, NewTables, TableLevel;
    NewTablesAre(mem, t, l, b, e, phys, large);
    assert LeafFor(mem, t, l, b, b, e, phys, large) <= l - 1;
    assert NeedsTable(mem, t, l, b, e, phys, large, l - 1, Slot(b, l), b) by { assert l - 1 + 1 == l; }
    assert (l - 1, Slot(b, l)) in NewTables(mem, t, l, b, e, phys, large);
  }

  /** Whole gigabytes below an absent entry of the root take one table, however
      many they are, and gigabyte leaves. */
  lemma WholeGigabytes(mem: Memory, pool: set<nat>, t: nat, b: nat, e: nat, phys: nat)
    requires Mappable(mem, pool, t, LEVELS, b, e, phys) && Slot(e - 1, LEVELS) == Slot(b, LEVELS)
    requires !mem[t][Index(b, LEVELS)].present && b % Size(3) == 0 && e % Size(3) == 0 && phys % Size(3) == 0
    ensures NewTables(mem, t, LEVELS, b, e, phys, true) == {(3, Slot(b, LEVELS))}
    ensures forall a: nat :: b <= a < e ==> LeafFor(mem, t, LEVELS, a, b, e, phys, true) == 3
  {
    hide Slot, NewTables;
    forall a: nat | b <= a < e
      ensures Slot(a, LEVELS) == Slot(b, LEVELS) && TableLevel(mem, t, LEVELS, a) == LEVELS
      ensures LeafFor(mem, t, LEVELS, a, b, e, phys, true) == 3
    {
      SlotBetween(b, a, e, LEVELS);
      GigabyteFits(a, b, e, phys);
    }
    NewTablesAre(mem, t, LEVELS, b, e, phys, true);
    forall j: nat, q: nat
      ensures (j, q) in NewTables(mem, t, LEVELS, b, e, phys, true) <==> j == 3 && q == Slot(b, LEVELS)
    {
      if j == 3 && q == Slot(b, LEVELS) { assert NeedsTable(mem, t, LEVELS, b, e, phys, true, j, q, b); }
    }
    SamePairs(NewTables(mem, t, LEVELS, b, e, phys, true), {(3, Slot(b, LEVELS))});
  }

  lemma GigabyteFits(a: nat, b: nat, e: nat, phys: nat)
    requires b <= a < e && b % Size(3) == 0 && e % Size(3) == 0 && phys % Size(3) == 0
    ensures LeafFits(3, a, b, e, phys)
  {
    Boundary(a, b, 3, 3);
    Boundary(a, e, 3, 3);
    BaseIsMultiple(Slot(a, 3), 3);
    var m, n := Slot(a, 3), b / Size(3);
    assert Base(m, 3) - b == (m - n) * Size(3);
  }

  // ---- slot after slot ----

  /** A boundary of a level is none inside the slots of lower levels. */
  lemma Boundary(a: nat, c: nat, k: nat, l: nat)
    requires 1 <= k <= l <= LEVELS && c % Size(l) == 0
    ensures c <= a ==> c <= Base(Slot(a, k), k)
    ensures a < c ==> Base(Slot(a, k) + 1, k) <= c && Slot(a, k) < Slot(c, k)
  {
    BoundaryBelow(c, k, l);
    SlotFacts(a, k);
    SlotFacts(c, k);
    if c <= a { SlotMonotone(c, a, k); BaseMonotone(Slot(c, k), Slot(a, k), k); }
    if a < c {
      SlotMonotone(a, c, k);
      if Slot(a, k) == Slot(c, k) { assert false; }
      BaseMonotone(Slot(a, k) + 1, Slot(c, k), k);
    }
  }

  lemma {:induction false} BoundaryBelow(c: nat, k: nat, l: nat)
    requires 1 <= k <= l <= LEVELS && c % Size(l) == 0
    ensures c % Size(k) == 0 && Base(Slot(c, k), k) == c
    decreases l - k
  {
    if k < l {
      BoundaryBelow(c, k + 1, l);
      SizeAbove(k);
      Multiple(ENTRIES * (c / Size(k + 1)), Size(k));
    }
    OnBase(c, k);
  }

  lemma SizeAbove(k: nat)
    requires 1 <= k < LEVELS
    ensures Size(k + 1) == Size(k) * ENTRIES
  {
  }

  lemma OnBase(c: nat, k: nat)
    requires c % Size(k) == 0
    ensures Base(Slot(c, k), k) == c
  {
    hide Size;
    Quotient(c, Size(k));
  }

  /** Cut at a boundary of level `l`, a range has the same leaves. */
  lemma LeafForPart(mem: Memory, t: nat, l: nat, a: nat, b: nat, c: nat, e: nat, phys: nat, at: nat, large: bool)
    requires 1 <= l <= LEVELS && WF(mem, t, l) && b <= c <= e && at == phys + (c - b)
    requires c == b || c == e || c % Size(l) == 0
    ensures b <= a < c ==> LeafFor(mem, t, l, a, b, e, phys, large) == LeafFor(mem, t, l, a, b, c, phys, large)
    ensures c <= a < e ==> LeafFor(mem, t, l, a, b, e, phys, large) == LeafFor(mem, t, l, a, c, e, at, large)
  {
    TableLevelBounds(mem, t, l, a);
    forall k | 1 <= k < LEVELS && k <= l
      ensures b <= a < c ==> (LeafFits(k, a, b, e, phys) <==> LeafFits(k, a, b, c, phys))
      ensures c <= a < e ==> (LeafFits(k, a, b, e, phys) <==> LeafFits(k, a, c, e, at))
    {
      if c != b && c != e { Boundary(a, c, k, l); }
    }
  }

  lemma TablesSplit(mem: Memory, t: nat, l: nat, b: nat, c: nat, e: nat, phys: nat, at: nat, large: bool)
    requires 1 <= l <= LEVELS && WF(mem, t, l) && b <= c <= e && at == phys + (c - b)
    requires c == b || c == e || c % Size(l) == 0
    ensures |NewTables(mem, t, l, b, e, phys, large)| ==
      |NewTables(mem, t, l, b, c, phys, large)| + |NewTables(mem, t, l, c, e, at, large)|
  {
    hide LeafFor, NewTables, Slot, Size, TableLevel;
    var n, n1, n2 := NewTables(mem, t, l, b, e, phys, large), NewTables(mem, t, l, b, c, phys, large),
      NewTables(mem, t, l, c, e, at, large);
    forall a: nat
      ensures b <= a < c ==> LeafFor(mem, t, l, a, b, e, phys, large) == LeafFor(mem, t, l, a, b, c, phys, large)
      ensures c <= a < e ==> LeafFor(mem, t, l, a, b, e, phys, large) == LeafFor(mem, t, l, a, c, e, at, large)
    {
      LeafForPart(mem, t, l, a, b, c, e, phys, at, large);
    }
    NewTablesAre(mem, t, l, b, e, phys, large);
    NewTablesAre(mem, t, l, b, c, phys, large);
    NewTablesAre(mem, t, l, c, e, at, large);
    forall j: nat, q: nat
      ensures (j, q) in n <==> (j, q) in n1 + n2
      ensures !((j, q) in n1 && (j, q) in n2)
    {
      MissingSplit(mem, t, l, b, c, e, phys, at, large, j, q);
    }
    SamePairs(n, n1 + n2);
    SamePairs(n1 * n2, {});
  }

  lemma MissingSplit(mem: Memory, t: nat, l: nat, b: nat, c: nat, e: nat, phys: nat, at: nat, large: bool,
      j: nat, q: nat)
    requires 1 <= l <= LEVELS && b <= c <= e && (c == b || c == e || c % Size(l) == 0)
    requires forall a: nat ::
      && (b <= a < c ==> LeafFor(mem, t, l, a, b, e, phys, large) == LeafFor(mem, t, l, a, b, c, phys, large))
      && (c <= a < e ==> LeafFor(mem, t, l, a, b, e, phys, large) == LeafFor(mem, t, l, a, c, e, at, large))
    ensures Missing(mem, t, l, b, e, phys, large, j, q) <==>
      Missing(mem, t, l, b, c, phys, large, j, q) || Missing(mem, t, l, c, e, at, large, j, q)
    ensures j < l ==> !(Missing(mem, t, l, b, c, phys, large, j, q) && Missing(mem, t, l, c, e, at, large, j, q))
  {
    hide LeafFor, Slot, Size, TableLevel;
    if a: nat :| NeedsTable(mem, t, l, b, e, phys, large, j, q, a) {
      assert NeedsTable(mem, t, l, b, c, phys, large, j, q, a) || NeedsTable(mem, t, l, c, e, at, large, j, q, a);
    }
    if a: nat :| NeedsTable(mem, t, l, b, c, phys, large, j, q, a) {
      assert NeedsTable(mem, t, l, b, e, phys, large, j, q, a);
      if a': nat :| j < l && NeedsTable(mem, t, l, c, e, at, large, j, q, a') {
        Boundary(a, c, j + 1, l);
        SlotMonotone(c, a', j + 1);
      }
    }
    if a: nat :| NeedsTable(mem, t, l, c, e, at, large, j, q, a) {
      assert NeedsTable(mem, t, l, b, e, phys, large, j, q, a);
    }
  }

  /** The slots before `c`, and [c, e) in the next one. */
  ghost predicate NextPiece(b: nat, c: nat, e: nat, l: nat)
  {
    && b <= c < e && Slot(c, l + 1) == Slot(b, l + 1) && Slot(e - 1, l) == Slot(c, l)
    && (b < c ==> c % Size(l) == 0)
  }

  lemma AheadSame(m0: Memory, m1: Memory, t: nat, l: nat, b: nat, c: nat, e: nat)
    requires 1 <= l <= LEVELS && WF(m0, t, l) && NextPiece(b, c, e, l) && NoneAhead(m0, m1, t, l, b, c)
    ensures forall a: nat :: c <= a < e ==> TableLevel(m1, t, l, a) == TableLevel(m0, t, l, a) <= l
  {
    forall a: nat | c <= a < e ensures TableLevel(m1, t, l, a) == TableLevel(m0, t, l, a) <= l
    {
      TableLevelBounds(m0, t, l, a);
      SlotBetween(c, a, e, l);
      SlotFacts(a, l);
      SlotFacts(c, l);
      if b < c { Boundary(c - 1, c, l, l); }
    }
  }

  lemma AheadInSteps(m0: Memory, m1: Memory, m2: Memory, t: nat, l: nat, b: nat, c: nat, e: nat)
    requires 1 <= l <= LEVELS && NextPiece(b, c, e, l)
    requires NoneAhead(m0, m1, t, l, b, c) && NoneAhead(m1, m2, t, l, c, e)
    ensures NoneAhead(m0, m2, t, l, b, e)
  {
    forall a: nat | e <= a && Slot(a, l + 1) == Slot(b, l + 1) && Slot(e - 1, l) < Slot(a, l)
      ensures TableLevel(m2, t, l, a) == TableLevel(m0, t, l, a)
    {
      if b < c { SlotMonotone(c - 1, e - 1, l); }
    }
  }

  lemma ThriftyInSteps(m0: Memory, p0: set<nat>, m1: Memory, p1: set<nat>, m2: Memory, p2: set<nat>, t: nat, l: nat,
      b: nat, c: nat, e: nat, phys: nat, at: nat, present: bool, large: bool)
    requires 1 <= l <= LEVELS && WF(m0, t, l) && NextPiece(b, c, e, l) && at == phys + (c - b)
    requires Thrifty(m0, p0, m1, p1, t, l, b, c, phys, present, large)
    requires Thrifty(m1, p1, m2, p2, t, l, c, e, at, present, large)
    requires forall a: nat :: LeafLevel(m1, t, l, a) > 0 ==> LeafLevel(m2, t, l, a) == LeafLevel(m1, t, l, a)
    ensures Thrifty(m0, p0, m2, p2, t, l, b, e, phys, present, large)
  {
    hide NewTables, LeafFor, Slot, Size, WF;
    AheadSame(m0, m1, t, l, b, c, e);
    SameNeeds(m0, t, l, m1, t, l, c, e, at, large);
    TablesSplit(m0, t, l, b, c, e, phys, at, large);
    AheadInSteps(m0, m1, m2, t, l, b, c, e);
    if present {
      forall a: nat | b <= a < e ensures LeafLevel(m2, t, l, a) == LeafFor(m0, t, l, a, b, e, phys, large)
      {
        LeafForPart(m0, t, l, a, b, c, e, phys, at, large);
      }
    }
  }

  /** Too few pages left for the next piece were too few for the whole range. */
  lemma TooFewInAll(m0: Memory, p0: set<nat>, m1: Memory, p1: set<nat>, t: nat, l: nat,
      b: nat, c: nat, e: nat, end: nat, phys: nat, at: nat, present: bool, large: bool)
    requires 1 <= l <= LEVELS && WF(m0, t, l) && NextPiece(b, c, e, l) && at == phys + (c - b)
    requires e <= end && (e == end || e % Size(l) == 0)
    requires Thrifty(m0, p0, m1, p1, t, l, b, c, phys, present, large)
    requires |p1| < |NewTables(m1, t, l, c, e, at, large)|
    ensures |p0| < |NewTables(m0, t, l, b, end, phys, large)|
  {
    hide NewTables, LeafFor, Slot, Size, WF;
    AheadSame(m0, m1, t, l, b, c, e);
    SameNeeds(m0, t, l, m1, t, l, c, e, at, large);
    TablesSplit(m0, t, l, b, c, e, phys, at, large);
    TablesSplit(m0, t, l, b, e, end, phys, phys + (e - b), large);
  }

  lemma {:induction false} PageInSlot(a: nat, b: nat, l: nat)
    requires 1 <= l <= LEVELS && b % 0x1000 == 0 && b <= a < b + 0x1000
    ensures Slot(a, l) == Slot(b, l)
  {
    if l == 1 {
      SlotAt(a, b, 1);
    } else {
      PageInSlot(a, b, l - 1);
      SlotFacts(a, l - 1);
      SlotFacts(b, l - 1);
    }
  }

  /** The page at `b` leads nowhere and nothing else changed. */
  ghost predicate Cleared(mem: Memory, mem': Memory, t: nat, l: nat, b: nat)
  {
    && WF(mem', t, l) && Foot(mem', t, l) <= Foot(mem, t, l)
    && (forall x :: x in mem && x !in Foot(mem, t, l) ==> x in mem' && mem'[x] == mem[x])
    && (forall a: nat :: LastTable(mem', t, l, a) == LastTable(mem, t, l, a))
    && Mapped(mem, mem', t, l, b, b + 0x1000, 0, false)
  }

  /** The tables with the level-1 entry for `b` in table `p` set to 0. */
  function WithoutPage(mem: Memory, p: nat, b: nat): Memory
    requires HasTable(mem, p)
  {
    mem[p := mem[p][Index(b, 1) := ZERO]]
  }

  lemma EntryCleared(mem: Memory, t: nat, b: nat)
    requires WF(mem, t, 1) && b % 0x1000 == 0
    ensures Cleared(mem, WithoutPage(mem, t, b), t, 1, b)
  {
    EntryChanged(mem, WithoutPage(mem, t, b), t, 1, Index(b, 1), ZERO, {});
    SubInFoot(mem, t, 1, Index(b, 1));
    forall a: nat | Slot(a, 2) == Slot(b, 2)
      ensures Walk(WithoutPage(mem, t, b), t, 1, a) == Image(mem, t, 1, b, b + 0x1000, 0, false, a)
    {
      SameSlot(a, b, 1);
      SlotAt(a, b, 1);
    }
  }

  lemma ClearedBelow(mem: Memory, mem': Memory, t: nat, l: nat, b: nat, c: nat, p: nat)
    requires 2 <= l <= LEVELS && WF(mem, t, l) && b % 0x1000 == 0
    requires IsTable(mem[t][Index(b, l)], l) && c == mem[t][Index(b, l)].phys
    requires p in Foot(mem, c, l - 1) && p in mem && p in mem' && mem' == mem[p := mem'[p]]
    requires Cleared(mem, mem', c, l - 1, b)
    ensures p in Foot(mem, t, l) && Cleared(mem, mem', t, l, b)
  {
    var i, k := Index(b, l), l - 1;
    SubInFoot(mem, t, l, i);
    assert p in Sub(mem, t, l, i) && mem'[t] == mem[t];
    EntryChanged(mem, mem', t, l, i, mem[t][i], {});
    forall a: nat | Index(a, l) == i
      ensures Walk(mem', t, l, a) == Walk(mem', c, k, a) && Walk(mem, t, l, a) == Walk(mem, c, k, a)
      ensures LastTable(mem', t, l, a) == LastTable(mem, t, l, a)
    {
      WalkStep(mem, t, l, a);
      WalkStep(mem', t, l, a);
    }
    forall a: nat | Slot(a, l + 1) == Slot(b, l + 1)
      ensures Walk(mem', t, l, a) == Image(mem, t, l, b, b + 0x1000, 0, false, a)
    {
      SameSlot(a, b, l);
      if b <= a < b + 0x1000 { PageInSlot(a, b, l); }
    }
  }

  lemma {:induction false} PageCleared(mem: Memory, t: nat, l: nat, b: nat)
    requires 1 <= l <= LEVELS && WF(mem, t, l) && b % 0x1000 == 0 && LastTable(mem, t, l, b).Some?
    ensures var p := LastTable(mem, t, l, b).value;
      p in Foot(mem, t, l) && HasTable(mem, p) && Cleared(mem, WithoutPage(mem, p, b), t, l, b)
    decreases l
  {
    hide Cleared, Slot, Size;
    if l == 1 {
      SubInFoot(mem, t, l, 0);
      EntryCleared(mem, t, b);
    } else {
      var c := mem[t][Index(b, l)].phys;
      WalkStep(mem, t, l, b);
      PageCleared(mem, c, l - 1, b);
      var p := LastTable(mem, t, l, b).value;
      ClearedBelow(mem, WithoutPage(mem, p, b), t, l, b, c, p);
    }
  }

  // ---- canonical addresses ----

  /** The 64-bit addresses whose upper bits repeat bit 47: the others fault. */
  predicate Canonical(a: nat)
  {
    a < 0x8000_0000_0000 || 0xffff_8000_0000_0000 <= a <= 0xffff_ffff_ffff_ffff
  }

  /** Adding to the block of an address leaves its index. */
  lemma IndexShifted(n: nat, r: nat, l: nat, size: nat)
    requires size == Size(l)
    ensures Index(size * (n * 512) + r, l) == Index(r, l) && (size * (n * 512) + r) % size == r % size
  {
    hide Size;
    QuotientShifted(n * 512, r, size);
  }

  lemma IndexOfRest(a: nat, l: nat)
    requires 1 <= l <= LEVELS
    ensures Index(a, l) == Index(a % Size(LEVELS + 1), l) && a % Size(l) == a % Size(LEVELS + 1) % Size(l)
  {
    hide Index;
    var q, r := a / 0x1_0000_0000_0000, a % 0x1_0000_0000_0000;
    if l == 1 {
      IndexShifted(q * 0x800_0000, r, l, 0x1000);
    } else if l == 2 {
      IndexShifted(q * 0x4_0000, r, l, 0x20_0000);
    } else if l == 3 {
      IndexShifted(q * 0x200, r, l, 0x4000_0000);
    } else {
      IndexShifted(q, r, l, 0x80_0000_0000);
    }
  }

  lemma IndexRepeats(a: nat, c: nat, l: nat)
    requires 1 <= l <= LEVELS && a % Size(LEVELS + 1) == c % Size(LEVELS + 1)
    ensures Index(a, l) == Index(c, l) && a % Size(l) == c % Size(l)
  {
    hide Size, Index;
    IndexOfRest(a, l);
    IndexOfRest(c, l);
  }

  /** The walk looks at 48 bits of the address. */
  lemma {:induction false} WalkRepeats(mem: Memory, t: nat, l: nat, a: nat, c: nat)
    requires l <= LEVELS && a % Size(LEVELS + 1) == c % Size(LEVELS + 1)
    ensures Walk(mem, t, l, a) == Walk(mem, t, l, c)
    decreases l
  {
    hide Size;
    if l > 0 && HasTable(mem, t) {
      IndexRepeats(a, c, l);
      if IsTable(mem[t][Index(a, l)], l) { WalkRepeats(mem, mem[t][Index(a, l)].phys, l - 1, a, c); }
    }
  }

  /** [b, e) leads to `phys` onwards and every other canonical address where it
      did, in either half of the address space. */
  ghost predicate MappedEverywhere(mem: Memory, mem': Memory, t: nat, b: nat, e: nat, phys: nat, present: bool)
  {
    forall a: nat :: Canonical(a) ==> Walk(mem', t, LEVELS, a) == Image(mem, t, LEVELS, b, e, phys, present, a)
  }

  lemma CanonicalMapped(mem: Memory, mem': Memory, t: nat, b: nat, e: nat, phys: nat, present: bool)
    requires Mapped(mem, mem', t, LEVELS, b, e, phys, present) && b < e
    requires Canonical(b) && Canonical(e - 1) && Slot(e - 1, LEVELS + 1) == Slot(b, LEVELS + 1)
    ensures MappedEverywhere(mem, mem', t, b, e, phys, present)
  {
    forall a: nat | Canonical(a)
      ensures Walk(mem', t, LEVELS, a) == Image(mem, t, LEVELS, b, e, phys, present, a)
    {
      var c := Alias(a, b);
      AliasFacts(a, b, e);
      WalkRepeats(mem, t, LEVELS, a, c);
      WalkRepeats(mem', t, LEVELS, a, c);
      assert Walk(mem', t, LEVELS, c) == Image(mem, t, LEVELS, b, e, phys, present, c);
    }
  }

  /** The address with the 48 bits of `a` in the block of `b`. */
  function Alias(a: nat, b: nat): nat { Slot(b, LEVELS + 1) * Size(LEVELS + 1) + a % Size(LEVELS + 1) }

  lemma AliasFacts(a: nat, b: nat, e: nat)
    requires Canonical(a) && Canonical(b) && b < e && Canonical(e - 1) && Slot(e - 1, LEVELS + 1) == Slot(b, LEVELS + 1)
    ensures a % Size(LEVELS + 1) == Alias(a, b) % Size(LEVELS + 1)
    ensures Slot(Alias(a, b), LEVELS + 1) == Slot(b, LEVELS + 1)
    ensures b <= a < e <==> b <= Alias(a, b) < e
    ensures b <= a < e ==> Alias(a, b) == a
  {
    QuotientShifted(Slot(b, LEVELS + 1), a % Size(LEVELS + 1), Size(LEVELS + 1));
    Halves(a);
    Halves(b);
    Halves(e - 1);
  }

  lemma Halves(a: nat)
    requires Canonical(a)
    ensures a < 0x8000_0000_0000 ==> Slot(a, LEVELS + 1) == 0 && a % Size(LEVELS + 1) == a
    ensures a >= 0x8000_0000_0000 ==>
      Slot(a, LEVELS + 1) == 0xffff && a % Size(LEVELS + 1) == a - 0xffff_0000_0000_0000
  {
  }

  /** The tables of one address space and the pages they may still grow by. */
  class AddressSpace {
    var mem: Memory
    var pool: set<nat>

    constructor (mem: Memory, pool: set<nat>)
      ensures this.mem == mem && this.pool == pool
    {
      this.mem, this.pool := mem, pool;
    }

    /** `pool_get_page`: some page of the pool, cleared; None when there is none. */
    method GetPage() returns (page: Option<nat>)
      modifies this
      ensures old(pool) == {} ==> page == None && mem == old(mem) && pool == {}
      ensures old(pool) != {} ==>
        && page.Some? && page.value in old(pool) && pool == old(pool) - {page.value}
        && mem == old(mem)[page.value := seq(ENTRIES, _ => ZERO)]
    {
      if pool == {} { return None; }
      var p :| p in pool;
      pool := pool - {p};
      mem := mem[p := seq(ENTRIES, _ => ZERO)];
      page := Some(p);
    }

    /** One round of the loop: the part [begin, mapEnd) of the range that lies in
        one slot. False stands for the BUG on an empty pool. */
    method MapSlot(t: nat, begin: nat, mapEnd: nat, phys: nat, present: bool, large: bool, l: nat) returns (ok: bool)
      requires Mappable(mem, pool, t, l, begin, mapEnd, phys) && Slot(mapEnd - 1, l) == Slot(begin, l)
      requires l == 1 ==> mapEnd - begin == Size(1)
      requires mapEnd - begin == Size(l) ==> begin % Size(l) == 0
      modifies this
      ensures ok ==> Done(old(mem), old(pool), mem, pool, t, l, begin, mapEnd, phys, present, large)
      ensures ok ==> Thrifty(old(mem), old(pool), mem, pool, t, l, begin, mapEnd, phys, present, large)
      ensures !ok ==> pool == {} && !Populated(old(mem), t, l, begin, mapEnd)
      ensures !ok ==> |old(pool)| < |NewTables(old(mem), t, l, begin, mapEnd, phys, large)|
      decreases l, 0, 1
    {
      hide Thrifty, NewTables, TableMissing, Hung;
      var i := Index(begin, l);
      var aligned := begin % Size(l) == 0 && phys % Size(l) == 0;
      if !mem[t][i].present {
        if l != 4 && mapEnd - begin == Size(l) && aligned && (((l == 3 || l == 2) && large) || l == 1) {
          ghost var m0 := mem;
          mem := mem[t := mem[t][i := Pte(present, large, phys)]];
          LeafDone(m0, mem, pool, t, l, begin, mapEnd, phys, present, large);
          LeafThrifty(m0, mem, pool, t, l, begin, mapEnd, phys, present, large);
          return true;
        }
        PopulatedBelow(mem, t, l, begin, mapEnd);
        NoLeafThere(mem, pool, t, l, begin, mapEnd, phys, large);
        OneAtLeast(mem, t, l, begin, mapEnd, phys, large);
        var page := GetPage();
        if page.None? { return false; }
        mem := mem[t := mem[t][i := Pte(true, false, page.value)]];
        StillMappable(old(mem), mem, old(pool), page.value, t, l, begin, mapEnd, phys);
        TableIsHung(old(mem), mem, old(pool), page.value, t, l, begin, mapEnd, phys, large);
      }
      ok := Descend(t, begin, mapEnd, phys, present, large, l, old(mem), old(pool));
    }

    /** The entry is a table: fill that. `m0` and `p0` are the tables and the
        pool before it was hung there. */
    method Descend(t: nat, begin: nat, mapEnd: nat, phys: nat, present: bool, large: bool, l: nat,
        ghost m0: Memory, ghost p0: set<nat>) returns (ok: bool)
      requires Mappable(mem, pool, t, l, begin, mapEnd, phys) && Slot(mapEnd - 1, l) == Slot(begin, l)
      requires mem[t][Index(begin, l)].present && WF(m0, t, l)
      requires Grown(m0, p0, mem, pool, t, l) && (forall a: nat :: Walk(mem, t, l, a) == Walk(m0, t, l, a))
      requires Populated(m0, t, l, begin, mapEnd) ==> mem == m0 && pool == p0
      requires SameOrHung(m0, p0, mem, pool, t, l, begin, mapEnd, phys, large)
      modifies this
      ensures ok ==> Done(m0, p0, mem, pool, t, l, begin, mapEnd, phys, present, large)
      ensures ok ==> Thrifty(m0, p0, mem, pool, t, l, begin, mapEnd, phys, present, large)
      ensures !ok ==> pool == {} && !Populated(m0, t, l, begin, mapEnd)
      ensures !ok ==> |p0| < |NewTables(m0, t, l, begin, mapEnd, phys, large)|
      decreases l, 0, 0
    {
      hide Size, Slot, Done, Thrifty, NewTables, SameOrHung;
      ghost var m1, p1 := mem, pool;
      ChildMappable(m1, p1, t, l, begin, mapEnd, phys);
      PopulatedBelow(m0, t, l, begin, mapEnd);
      TablesBelow(m1, t, l, begin, mapEnd, phys, large);
      ok := Map(mem[t][Index(begin, l)].phys, begin, mapEnd - 1, mapEnd, phys, present, large, l - 1);
      if ok {
        DescendedDone(m1, p1, mem, pool, t, l, begin, mapEnd, phys, present, large);
        HungDone(m0, p0, m1, p1, mem, pool, t, l, begin, mapEnd, phys, present, large);
        DoneGrown(m1, p1, mem, pool, m1[t][Index(begin, l)].phys, l - 1, begin, mapEnd, phys, present, large);
        DescendedThrifty(m1, p1, mem, pool, t, l, begin, mapEnd, phys, present, large);
        HungThrifty(m0, p0, m1, p1, mem, pool, t, l, begin, mapEnd, phys, present, large);
      } else {
        HungTooFew(m0, p0, m1, p1, t, l, begin, mapEnd, phys, large);
      }
    }

    /** `__pt_map_pages`, both ends included; `end` is the address behind the last. */
    method Map(t: nat, begin: nat, last: nat, ghost end: nat, phys: nat, present: bool, large: bool,
        l: nat) returns (ok: bool)
      requires Mappable(mem, pool, t, l, begin, end, phys) && end == last + 1
      modifies this
      ensures ok ==> Done(old(mem), old(pool), mem, pool, t, l, begin, end, phys, present, large)
      ensures ok ==> Thrifty(old(mem), old(pool), mem, pool, t, l, begin, end, phys, present, large)
      ensures !ok ==> pool == {} && !Populated(old(mem), t, l, begin, end)
      ensures !ok ==> |old(pool)| < |NewTables(old(mem), t, l, begin, end, phys, large)|
      decreases l, 1, 0
    {
      hide Done, Mappable, Cursor, Populated, PieceEnd, Thrifty, NewTables, NextPiece, Slot, Size, WF;
      ghost var m0, p0 := mem, pool;
      var cur, i, at := begin, Index(begin, l), phys;
      RoundsStart(mem, pool, t, l, begin, last, end, phys, present, large);
      ThriftyAtStart(mem, pool, t, l, begin, phys, present, large);
      while i <= Index(last, l)
        invariant begin <= cur && 1 <= l <= LEVELS && Cursor(begin, cur, last, i, l) && at == phys + (cur - begin)
        invariant Done(m0, p0, mem, pool, t, l, begin, cur, phys, present, large)
        invariant Thrifty(m0, p0, mem, pool, t, l, begin, cur, phys, present, large)
      {
        ghost var m1, p1 := mem, pool;
        RoundReady(m0, p0, m1, p1, t, l, begin, cur, last, end, i, phys, at, present, large);
        var mapEnd := PieceEnd(cur, last, l);
        ok := MapSlot(t, cur, mapEnd, at, present, large, l);
        if !ok {
          TooFewInAll(m0, p0, m1, p1, t, l, begin, cur, mapEnd, end, phys, at, present, large);
          return;
        }
        DoneInSteps(m0, p0, m1, p1, mem, pool, t, l, begin, cur, mapEnd, phys, at, present, large);
        DoneGrown(m1, p1, mem, pool, t, l, cur, mapEnd, at, present, large);
        ThriftyInSteps(m0, p0, m1, p1, mem, pool, t, l, begin, cur, mapEnd, phys, at, present, large);
        at := at + (mapEnd - cur);
        cur := mapEnd;
        i := i + 1;
      }
      CursorEnds(begin, cur, last, i, l);
      return true;
    }

    /** `pt_map_pages`: [begin, end) leads to `phys` onwards, `end` 0 standing for
        the end of the address space. */
    method PtMapPages(pml4: nat, begin: nat, end: nat, phys: nat) returns (ok: bool)
      requires Mappable(mem, pool, pml4, LEVELS, begin, LastOf(end) + 1, phys)
      modifies this
      ensures ok ==> Done(old(mem), old(pool), mem, pool, pml4, LEVELS, begin, LastOf(end) + 1, phys, true, true)
      ensures ok ==> Thrifty(old(mem), old(pool), mem, pool, pml4, LEVELS, begin, LastOf(end) + 1, phys, true, true)
      ensures !ok ==> pool == {} && !Populated(old(mem), pml4, LEVELS, begin, LastOf(end) + 1)
      ensures ok <==> |old(pool)| >= |NewTables(old(mem), pml4, LEVELS, begin, LastOf(end) + 1, phys, true)|
      ensures ok && Canonical(begin) && Canonical(LastOf(end)) ==>
        MappedEverywhere(old(mem), mem, pml4, begin, LastOf(end) + 1, phys, true)
    {
      hide NewTables, LeavesLargest, NoneAhead;
      ok := Map(pml4, begin, LastOf(end), LastOf(end) + 1, phys, true, true, LEVELS);
      if ok && Canonical(begin) && Canonical(LastOf(end)) {
        CanonicalMapped(old(mem), mem, pml4, begin, LastOf(end) + 1, phys, true);
      }
    }

    /** `pt_populate_pages`: tables down to level 1, nothing mapped. */
    method PtPopulatePages(pml4: nat, begin: nat, end: nat) returns (ok: bool)
      requires Mappable(mem, pool, pml4, LEVELS, begin, LastOf(end) + 1, 0)
      modifies this
      ensures ok ==> Done(old(mem), old(pool), mem, pool, pml4, LEVELS, begin, LastOf(end) + 1, 0, false, false)
      ensures ok ==> Thrifty(old(mem), old(pool), mem, pool, pml4, LEVELS, begin, LastOf(end) + 1, 0, false, false)
      ensures !ok ==> pool == {} && !Populated(old(mem), pml4, LEVELS, begin, LastOf(end) + 1)
      ensures ok <==> |old(pool)| >= |NewTables(old(mem), pml4, LEVELS, begin, LastOf(end) + 1, 0, false)|
      ensures ok && Canonical(begin) && Canonical(LastOf(end)) ==>
        MappedEverywhere(old(mem), mem, pml4, begin, LastOf(end) + 1, 0, false)
    {
      hide NewTables, LeavesLargest, NoneAhead;
      ok := Map(pml4, begin, LastOf(end), LastOf(end) + 1, 0, false, false, LEVELS);
      if ok && Canonical(begin) && Canonical(LastOf(end)) {
        CanonicalMapped(old(mem), mem, pml4, begin, LastOf(end) + 1, 0, false);
      }
    }

    /** The walk of `__kunmap`, which zeroes the level-1 entry it ends at. */
    method ClearPage(pml4: nat, addr: nat)
      requires WF(mem, pml4, LEVELS) && addr % 0x1000 == 0 && LastTable(mem, pml4, LEVELS, addr).Some?
      modifies this`mem
      ensures Cleared(old(mem), mem, pml4, LEVELS, addr)
    {
      var next, l := pml4, LEVELS;
      while l > 1
        invariant 1 <= l <= LEVELS && WF(mem, next, l)
        invariant LastTable(mem, next, l, addr) == LastTable(mem, pml4, LEVELS, addr)
      {
        next := mem[next][Index(addr, l)].phys;
        l := l - 1;
      }
      PageCleared(mem, pml4, LEVELS, addr);
      mem := WithoutPage(mem, next, addr);
    }
  }
}
