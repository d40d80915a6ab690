/** What holds over whole runs of the threads: mutual exclusion, first come
    first served, no lost wake-up, the end of a thread, and progress. */
module Runs {
  import opened Lists
  import opened Options
  import opened Threads
  import opened Sync
  import opened Interleavings

  /** Worlds joined by steps. */
  ghost predicate Run(ws: seq<World>, es: seq<Event>)
  {
    && |ws| == |es| + 1
    && forall i :: 0 <= i < |es| ==> Step(ws[i], es[i], ws[i + 1])
  }

  /** The idle thread runs, one more thread is ready, nothing is locked. */
  function Init(idle: nat, first: nat): World
  {
    World(Kernel(Sched(idle, Some(idle), [first], map[idle := Thread(Idle, 0), first := Thread(Active, 0)], 0, 0),
                 map[], map[]),
      map[idle := Idling, first := User], {}, map[])
  }

  lemma InitOk(idle: nat, first: nat)
    requires idle != first
    ensures Inv(Init(idle, first))
  {
    var w := Init(idle, first);
    InitSched(idle, first);
    assert forall b :: ToWake(w.pc, b) == [];
    assert forall t :: t in w.k.sched.threads ==> t == idle || t == first;
  }

  lemma InitSched(idle: nat, first: nat)
    requires idle != first
    ensures SchedOk(Init(idle, first).k.sched) && PcOk(Init(idle, first).k.sched, Init(idle, first).pc)
  {
  }

  lemma {:induction false} RunKeeps(ws: seq<World>, es: seq<Event>, i: nat)
    requires Run(ws, es) && Inv(ws[0]) && i < |ws|
    ensures Inv(ws[i])
  {
    hide Inv, Step;
    if i > 0 {
      RunKeeps(ws, es, i - 1);
      StepKeeps(ws[i - 1], es[i - 1], ws[i]);
    }
  }

  // ---- mutual exclusion ----

  /** At most one thread is past `mutex_lock` and not yet at `mutex_unlock`; a
      mutex marked free has no such thread and no waiters. */
  lemma MutualExclusion(ws: seq<World>, es: seq<Event>, i: nat, m: nat)
    requires Run(ws, es) && Inv(ws[0]) && i < |ws| && m in ws[i].k.mutexes
    ensures forall t, u :: Hold(m, t) in ws[i].held && Hold(m, u) in ws[i].held ==> t == u
    ensures !ws[i].k.mutexes[m].locked ==>
      ws[i].k.mutexes[m].waitqueue == [] && forall t :: Hold(m, t) !in ws[i].held
  {
    RunKeeps(ws, es, i);
    assert forall h :: h in ws[i].held && h.m == m ==> m in ws[i].owner && ws[i].owner[m] == h.t;
  }

  /** Only the two ends of `mutex_lock` make a holder. */
  lemma HolderMade(w: World, e: Event, w': World, m: nat, t: nat)
    requires Step(w, e, w') && Hold(m, t) !in w.held && Hold(m, t) in w'.held
    ensures (e == Return && t in w.pc && w.pc[t] == LockReturn(m) && Self(w.k) == t)
         || (e == Lock(m) && m in w.k.mutexes && !w.k.mutexes[m].locked && Self(w.k) == t)
  {
  }

  /** Whoever comes out of `mutex_lock`, at once or after waiting, is alone. */
  lemma LockedAlone(ws: seq<World>, es: seq<Event>, i: nat, m: nat, t: nat)
    requires Run(ws, es) && Inv(ws[0]) && i < |es|
    requires Hold(m, t) !in ws[i].held && Hold(m, t) in ws[i + 1].held
    ensures Self(ws[i].k) == t && forall u :: Hold(m, u) !in ws[i].held
  {
    RunKeeps(ws, es, i);
    HolderMade(ws[i], es[i], ws[i + 1], m, t);
    HolderAlone(ws[i], es[i], m, t);
  }

  lemma HolderAlone(w: World, e: Event, m: nat, t: nat)
    requires Inv(w) && t == Self(w.k)
    requires (e == Return && t in w.pc && w.pc[t] == LockReturn(m))
         || (e == Lock(m) && m in w.k.mutexes && !w.k.mutexes[m].locked)
    ensures forall u :: Hold(m, u) !in w.held
  {
    if e == Return {
      ReturnsAsOwner(w, t, m);
    } else {
      assert forall h :: h in w.held ==> h.m in w.owner;
    }
  }

  // ---- first come, first served ----

  ghost predicate QueuedAt(w: World, m: nat, t: nat, k: nat)
  {
    m in w.k.mutexes && k < |w.k.mutexes[m].waitqueue| && w.k.mutexes[m].waitqueue[k] == t
  }

  ghost predicate WaitsAt(w: World, c: nat, t: nat, k: nat)
  {
    c in w.k.conds && k < |w.k.conds[c]| && w.k.conds[c][k] == t
  }

  ghost predicate ListedAt(w: World, b: nat, t: nat, k: nat)
  {
    k < |ToWake(w.pc, b)| && ToWake(w.pc, b)[k] == t
  }

  /** Ready to run. */
  ghost predicate Awake(w: World, t: nat)
  {
    t in w.k.sched.threads && StateOf(w.k.sched, t) == Active && t in w.k.sched.runqueue
  }

  /** `mutex_unlock(m)`, on its own or within `condition_wait`. */
  predicate Releases(e: Event, m: nat)
  {
    e == Unlock(m) || (e.Wait? && e.m == m)
  }

  lemma QueueStep(w: World, e: Event, w': World, m: nat, t: nat, k: nat)
    requires Step(w, e, w') && QueuedAt(w, m, t, k) && w.k.mutexes[m].locked
    ensures !Releases(e, m) ==> QueuedAt(w', m, t, k)
    ensures Releases(e, m) && k > 0 ==> QueuedAt(w', m, t, k - 1)
  {
  }

  /** A waiter of `m` moves up by one at each release and at nothing else; the
      first one is given the mutex and made ready. */
  lemma QueueMoves(w: World, e: Event, w': World, m: nat, t: nat, k: nat)
    requires Inv(w) && Step(w, e, w') && QueuedAt(w, m, t, k)
    ensures !Releases(e, m) ==> QueuedAt(w', m, t, k)
    ensures Releases(e, m) && k > 0 ==> QueuedAt(w', m, t, k - 1)
    ensures Releases(e, m) && k == 0 ==> m in w'.owner && w'.owner[m] == t && Awake(w', t)
  {
    assert w.k.mutexes[m].locked by { assert t in w.k.mutexes[m].waitqueue; }
    QueueStep(w, e, w', m, t, k);
    if Releases(e, m) && k == 0 {
      FirstAwake(w, e, w', m, t);
    }
  }

  lemma FirstAwake(w: World, e: Event, w': World, m: nat, t: nat)
    requires Inv(w) && Step(w, e, w') && QueuedAt(w, m, t, 0) && Releases(e, m)
    ensures m in w'.owner && w'.owner[m] == t && Awake(w', t)
  {
    assert LockQueue(w.k.sched, w.pc, m, w.k.mutexes[m].waitqueue);
    assert t in w.k.mutexes[m].waitqueue;
    ActivatedReady(w.k.sched, t);
    if e.Wait? { ActivatedReady(Block(w.k.sched), t); }
  }

  lemma ActivatedReady(s: Sched, t: nat)
    requires IsBlocked(s, t)
    ensures t in Activated(s, t).threads && StateOf(Activated(s, t), t) == Active && t in Activated(s, t).runqueue
  {
    Appended(s.runqueue, t);
  }

  // ---- no lost wake-up ----

  lemma WaitStepMoves(w: World, e: Event, w': World, c: nat, t: nat, k: nat)
    requires Step(w, e, w') && WaitsAt(w, c, t, k) && IsBlocked(w.k.sched, t)
    ensures e != Signal(c) && e != Splice(c) ==> WaitsAt(w', c, t, k)
    ensures e == Signal(c) && k > 0 ==> WaitsAt(w', c, t, k - 1)
    ensures e == Splice(c) ==> ListedAt(w', Self(w.k), t, k)
  {
    hide Fits, SchedBut;
  }

  /** A waiter of `c` moves up at each signal; the oldest one is made ready; a
      broadcast takes all to the caller's list; nothing else moves anyone. */
  lemma WaitMoves(w: World, e: Event, w': World, c: nat, t: nat, k: nat)
    requires Inv(w) && Step(w, e, w') && WaitsAt(w, c, t, k)
    ensures e != Signal(c) && e != Splice(c) ==> WaitsAt(w', c, t, k)
    ensures e == Signal(c) && k > 0 ==> WaitsAt(w', c, t, k - 1)
    ensures e == Signal(c) && k == 0 ==> Awake(w', t)
    ensures e == Splice(c) ==> ListedAt(w', Self(w.k), t, k)
  {
    assert IsBlocked(w.k.sched, t) by {
      assert WaitQueue(w.k.sched, w.pc, c, w.k.conds[c]);
      assert t in w.k.conds[c];
    }
    WaitStepMoves(w, e, w', c, t, k);
    if e == Signal(c) && k == 0 {
      ActivatedReady(w.k.sched, t);
    }
  }

  lemma ListStep(w: World, e: Event, w': World, b: nat, t: nat, k: nat)
    requires Step(w, e, w') && ListedAt(w, b, t, k) && !(e.Activate? && e.t == b)
    ensures !(e == Wake && Self(w.k) == b) && e != Create(b) ==> ListedAt(w', b, t, k)
    ensures e == Wake && Self(w.k) == b && k > 0 ==> ListedAt(w', b, t, k - 1)
  {
  }

  /** A thread of a broadcaster's list moves up at each turn of its loop. */
  lemma ListMoves(w: World, e: Event, w': World, b: nat, t: nat, k: nat)
    requires Inv(w) && Step(w, e, w') && ListedAt(w, b, t, k)
    ensures !(e == Wake && Self(w.k) == b) ==> ListedAt(w', b, t, k)
    ensures e == Wake && Self(w.k) == b && k > 0 ==> ListedAt(w', b, t, k - 1)
    ensures e == Wake && Self(w.k) == b && k == 0 ==> Awake(w', t)
  {
    assert t in ToWake(w.pc, b);
    ListStep(w, e, w', b, t, k);
    if e == Wake && Self(w.k) == b && k == 0 {
      ActivatedReady(w.k.sched, t);
    }
  }

  function ReleasesIn(es: seq<Event>, m: nat): nat
  {
    if es == [] then 0 else (if Releases(es[0], m) then 1 else 0) + ReleasesIn(es[1..], m)
  }

  /** The waiter in place `k` has the mutex, and is ready, by the release
      number `k + 1`: waiters are served in their order. */
  lemma {:induction false} HandedOver(ws: seq<World>, es: seq<Event>, m: nat, t: nat, k: nat)
    requires Run(ws, es) && Inv(ws[0]) && QueuedAt(ws[0], m, t, k) && ReleasesIn(es, m) > k
    ensures exists i :: 0 <= i < |ws| && m in ws[i].owner && ws[i].owner[m] == t && Awake(ws[i], t)
    decreases |es|
  {
    hide Inv, Step, QueuedAt, Awake;
    QueueMoves(ws[0], es[0], ws[1], m, t, k);
    if Releases(es[0], m) && k == 0 {
      assert m in ws[1].owner && ws[1].owner[m] == t && Awake(ws[1], t);
    } else {
      StepKeeps(ws[0], es[0], ws[1]);
      HandedOver(ws[1..], es[1..], m, t, if Releases(es[0], m) then k - 1 else k);
      var i :| 0 <= i < |ws[1..]| && m in ws[1..][i].owner && ws[1..][i].owner[m] == t && Awake(ws[1..][i], t);
      assert ws[1..][i] == ws[i + 1];
    }
  }

  function SignalsIn(es: seq<Event>, c: nat): nat
  {
    if es == [] then 0 else (if es[0] == Signal(c) then 1 else 0) + SignalsIn(es[1..], c)
  }

  ghost predicate OnSomeList(w: World, t: nat) { exists b, j: nat :: ListedAt(w, b, t, j) }

  /** No signal is lost: the waiter in place `k` is ready by the signal number
      `k + 1`, if no broadcast takes it before. */
  lemma {:induction false} SignalReaches(ws: seq<World>, es: seq<Event>, c: nat, t: nat, k: nat)
    requires Run(ws, es) && Inv(ws[0]) && WaitsAt(ws[0], c, t, k) && SignalsIn(es, c) > k
    ensures exists i :: 0 <= i < |ws| && (Awake(ws[i], t) || OnSomeList(ws[i], t))
    decreases |es|
  {
    hide Inv, Step, WaitsAt, Awake, ListedAt;
    WaitMoves(ws[0], es[0], ws[1], c, t, k);
    if es[0] == Splice(c) || (es[0] == Signal(c) && k == 0) {
      assert Awake(ws[1], t) || OnSomeList(ws[1], t);
    } else {
      StepKeeps(ws[0], es[0], ws[1]);
      SignalReaches(ws[1..], es[1..], c, t, if es[0] == Signal(c) then k - 1 else k);
      var i :| 0 <= i < |ws[1..]| && (Awake(ws[1..][i], t) || OnSomeList(ws[1..][i], t));
      assert ws[1..][i] == ws[i + 1];
    }
  }

  /** A thread that calls `condition_wait` is on the queue before its mutex is
      released, hence a signal for its place after the call always reaches it. */
  lemma NoLostWakeup(ws: seq<World>, es: seq<Event>, c: nat, m: nat)
    requires Run(ws, es) && Inv(ws[0]) && es != [] && es[0] == Wait(c, m)
    requires c in ws[0].k.conds && SignalsIn(es, c) > |ws[0].k.conds[c]|
    ensures WaitsAt(ws[1], c, Self(ws[0].k), |ws[0].k.conds[c]|) && Hold(m, Self(ws[0].k)) !in ws[1].held
    ensures exists i :: 1 <= i < |ws| && (Awake(ws[i], Self(ws[0].k)) || OnSomeList(ws[i], Self(ws[0].k)))
  {
    hide Inv;
    var t, k := Self(ws[0].k), |ws[0].k.conds[c]|;
    StepKeeps(ws[0], es[0], ws[1]);
    SignalReaches(ws[1..], es[1..], c, t, k);
    var i :| 0 <= i < |ws[1..]| && (Awake(ws[1..][i], t) || OnSomeList(ws[1..][i], t));
    assert ws[1..][i] == ws[i + 1];
  }

  /** The turns of the loop of broadcaster `b`. */
  function TurnsIn(ws: seq<World>, es: seq<Event>, b: nat): nat
    requires |ws| == |es| + 1
  {
    if es == [] then 0
    else (if es[0] == Wake && Self(ws[0].k) == b then 1 else 0) + TurnsIn(ws[1..], es[1..], b)
  }

  /** A broadcast reaches everyone it took, whatever the threads it woke
      already do meanwhile. */
  lemma {:induction false} BroadcastReaches(ws: seq<World>, es: seq<Event>, b: nat, t: nat, k: nat)
    requires Run(ws, es) && Inv(ws[0]) && ListedAt(ws[0], b, t, k) && TurnsIn(ws, es, b) > k
    ensures exists i :: 0 <= i < |ws| && Awake(ws[i], t)
    decreases |es|
  {
    hide Inv, Step, ListedAt, Awake;
    ListMoves(ws[0], es[0], ws[1], b, t, k);
    var turn := es[0] == Wake && Self(ws[0].k) == b;
    if turn && k == 0 {
      assert Awake(ws[1], t);
    } else {
      StepKeeps(ws[0], es[0], ws[1]);
      BroadcastReaches(ws[1..], es[1..], b, t, if turn then k - 1 else k);
      var i :| 0 <= i < |ws[1..]| && Awake(ws[1..][i], t);
      assert ws[1..][i] == ws[i + 1];
    }
  }

  /** On its way back into `m`: in `condition_wait` with it or in `mutex_lock`. */
  predicate Heading(p: Pc, m: nat)
  {
    ((p.WaitWindow? || p.WaitReturn?) && p.m == m) || AtLock(p, m)
  }

  /** `condition_wait` returns with the mutex it released. */
  lemma BackWithMutex(w: World, e: Event, w': World, t: nat, m: nat)
    requires Inv(w) && Step(w, e, w') && t in w.pc && Heading(w.pc[t], m)
    ensures t in w'.pc && (Heading(w'.pc[t], m) || (w'.pc[t] == User && Hold(m, t) in w'.held))
  {
    hide SchedBut, QueuesOk, NoneLost, OwnersOk, Fits;
  }

  ghost predicate HeldBy(ws: seq<World>, i: nat, m: nat, t: nat)
  {
    exists h :: 0 <= h <= i && h < |ws| && Hold(m, t) in ws[h].held
  }

  lemma HeldLater(ws: seq<World>, i: nat, m: nat, t: nat)
    requires |ws| > 0 && HeldBy(ws[1..], i, m, t)
    ensures HeldBy(ws, i + 1, m, t)
  {
    var h :| 0 <= h <= i && h < |ws[1..]| && Hold(m, t) in ws[1..][h].held;
    assert ws[1..][h] == ws[h + 1];
  }

  /** So a thread that has begun to wait with `m` is on its way back to `m`, or
      has had it: it is never past `condition_wait` without. */
  lemma {:induction false} NeverWithoutMutex(ws: seq<World>, es: seq<Event>, i: nat, m: nat, t: nat)
    requires Run(ws, es) && Inv(ws[0]) && i < |ws| && t in ws[0].pc && Heading(ws[0].pc[t], m)
    ensures HeldBy(ws, i, m, t) || (t in ws[i].pc && Heading(ws[i].pc[t], m))
    decreases i
  {
    hide Inv, Step, Heading;
    if i > 0 {
      BackWithMutex(ws[0], es[0], ws[1], t, m);
      if Heading(ws[1].pc[t], m) {
        StepKeeps(ws[0], es[0], ws[1]);
        NeverWithoutMutex(ws[1..], es[1..], i - 1, m, t);
        if HeldBy(ws[1..], i - 1, m, t) { HeldLater(ws, i - 1, m, t); }
      } else {
        assert Hold(m, t) in ws[1].held;
      }
    }
  }

  /** In `mutex_lock`, with the mutex and not blocked. */
  ghost predicate Owns(w: World, m: nat, t: nat)
  {
    t in w.pc && AtLock(w.pc[t], m) && m in w.owner && w.owner[m] == t && !IsBlocked(w.k.sched, t)
  }

  lemma FirstOwns(w: World, e: Event, w': World, m: nat, t: nat)
    requires Inv(w) && Step(w, e, w') && QueuedAt(w, m, t, 0) && Releases(e, m)
    ensures Owns(w', m, t)
  {
    QueueMoves(w, e, w', m, t, 0);
    assert t in w.k.mutexes[m].waitqueue;
    assert LockQueue(w.k.sched, w.pc, m, w.k.mutexes[m].waitqueue);
  }

  /** The running thread's own step, as against the timer's. */
  predicate OwnTurn(w: World, e: Event, t: nat) { Self(w.k) == t && e != Tick }

  /** Whoever was given the mutex keeps it until `mutex_lock` has returned, which
      takes the two steps of its own that are left at most. */
  lemma OwnerReturns(w: World, e: Event, w': World, m: nat, t: nat)
    requires Inv(w) && Step(w, e, w') && Owns(w, m, t)
    ensures Owns(w', m, t) || Hold(m, t) in w'.held
    ensures OwnTurn(w, e, t) ==> Hold(m, t) in w'.held || (w.pc[t].LockWindow? && w'.pc[t].LockReturn?)
    ensures !OwnTurn(w, e, t) ==> t in w'.pc && w'.pc[t] == w.pc[t]
  {
    hide SchedBut, QueuesOk, NoneLost, Fits, Step;
    StepKeeps(w, e, w');
    OwnerAwake(w, e, w', m, t);
    OwnerStep(w, e, w', m, t);
    if AtLock(w'.pc[t], m) { ReturnsAsOwner(w', t, m); }
  }

  /** A thread in `mutex_lock` that is not blocked does not block there again. */
  lemma OwnerAwake(w: World, e: Event, w': World, m: nat, t: nat)
    requires Inv(w) && Step(w, e, w') && t in w.pc && AtLock(w.pc[t], m) && !IsBlocked(w.k.sched, t)
    ensures !IsBlocked(w'.k.sched, t)
  {
    hide SchedBut, QueuesOk, NoneLost, OwnersOk, Fits;
    StateChanges(w, e, w', t);
  }

  lemma OwnerStep(w: World, e: Event, w': World, m: nat, t: nat)
    requires SchedOk(w.k.sched) && PcOk(w.k.sched, w.pc) && Step(w, e, w')
    requires t in w.pc && AtLock(w.pc[t], m)
    ensures t in w'.pc
    ensures OwnTurn(w, e, t) ==>
      (Hold(m, t) in w'.held && w.pc[t].LockReturn?) || (w'.pc[t] == LockReturn(m) && w.pc[t].LockWindow?)
    ensures !OwnTurn(w, e, t) ==> w'.pc[t] == w.pc[t]
  {
    hide SchedBut, Fits;
  }

  function OwnTurnsIn(ws: seq<World>, es: seq<Event>, t: nat): nat
    requires |ws| == |es| + 1
  {
    if es == [] then 0 else (if OwnTurn(ws[0], es[0], t) then 1 else 0) + OwnTurnsIn(ws[1..], es[1..], t)
  }

  lemma {:induction false} OwnsUntilHeld(ws: seq<World>, es: seq<Event>, i: nat, m: nat, t: nat)
    requires Run(ws, es) && Inv(ws[0]) && i < |ws| && Owns(ws[0], m, t)
    ensures HeldBy(ws, i, m, t) || Owns(ws[i], m, t)
    decreases i
  {
    hide Inv, Step, Owns;
    if i > 0 {
      OwnerReturns(ws[0], es[0], ws[1], m, t);
      if Hold(m, t) !in ws[1].held {
        StepKeeps(ws[0], es[0], ws[1]);
        OwnsUntilHeld(ws[1..], es[1..], i - 1, m, t);
        if HeldBy(ws[1..], i - 1, m, t) { HeldLater(ws, i - 1, m, t); }
      }
    }
  }

  /** Steps of its own until `mutex_lock` returns to a thread that was given the mutex. */
  function TurnsLeft(p: Pc): nat { if p.LockWindow? then 2 else 1 }

  lemma {:induction false} OwnerHolds(ws: seq<World>, es: seq<Event>, m: nat, t: nat)
    requires Run(ws, es) && Inv(ws[0]) && Owns(ws[0], m, t)
    requires OwnTurnsIn(ws, es, t) >= TurnsLeft(ws[0].pc[t])
    ensures HeldBy(ws, |es|, m, t)
    decreases |es|
  {
    hide Inv, Step;
    OwnerReturns(ws[0], es[0], ws[1], m, t);
    if Hold(m, t) !in ws[1].held {
      StepKeeps(ws[0], es[0], ws[1]);
      OwnerHolds(ws[1..], es[1..], m, t);
      HeldLater(ws, |es| - 1, m, t);
    }
  }

  /** The waiter in place `k` keeps what the release number `k + 1` gave it. */
  lemma {:induction false} WaiterOwns(ws: seq<World>, es: seq<Event>, i: nat, m: nat, t: nat, k: nat)
    requires Run(ws, es) && Inv(ws[0]) && QueuedAt(ws[0], m, t, k)
    requires i <= |es| && ReleasesIn(es[..i], m) > k
    ensures HeldBy(ws, i, m, t) || Owns(ws[i], m, t)
    decreases i
  {
    hide Inv, Step, QueuedAt, Awake, Owns;
    var e := es[0];
    assert es[..i][0] == e && es[..i][1..] == es[1..][..i - 1];
    QueueMoves(ws[0], e, ws[1], m, t, k);
    StepKeeps(ws[0], e, ws[1]);
    if Releases(e, m) && k == 0 {
      FirstOwns(ws[0], e, ws[1], m, t);
      OwnsUntilHeld(ws[1..], es[1..], i - 1, m, t);
    } else {
      WaiterOwns(ws[1..], es[1..], i - 1, m, t, if Releases(e, m) then k - 1 else k);
    }
    if HeldBy(ws[1..], i - 1, m, t) { HeldLater(ws, i - 1, m, t); }
  }

  // ---- places ----

  ghost predicate OnLockQueue(w: World, t: nat, m: nat) { m in w.k.mutexes && t in w.k.mutexes[m].waitqueue }

  ghost predicate OnWaitQueue(w: World, t: nat, c: nat) { c in w.k.conds && t in w.k.conds[c] }

  /** A BLOCKED thread that was activated before is on exactly one queue; a
      thread in another state is on none. */
  lemma OnePlace(w: World, t: nat)
    requires Inv(w) && t in w.pc
    ensures forall m, m' :: OnLockQueue(w, t, m) && OnLockQueue(w, t, m') ==> m == m'
    ensures forall c, c' :: OnWaitQueue(w, t, c) && OnWaitQueue(w, t, c') ==> c == c'
    ensures forall b, b' :: t in ToWake(w.pc, b) && t in ToWake(w.pc, b') ==> b == b'
    ensures forall m, c :: OnLockQueue(w, t, m) ==> !OnWaitQueue(w, t, c)
    ensures forall m, b :: OnLockQueue(w, t, m) ==> t !in ToWake(w.pc, b)
    ensures forall c, b :: OnWaitQueue(w, t, c) ==> t !in ToWake(w.pc, b)
    ensures IsBlocked(w.k.sched, t) && !w.pc[t].Created? ==>
      (exists m :: OnLockQueue(w, t, m)) || (exists c :: OnWaitQueue(w, t, c)) || (exists b :: t in ToWake(w.pc, b))
    ensures !IsBlocked(w.k.sched, t) ==> Nowhere(w.k, w.pc, t)
    ensures StateOf(w.k.sched, t) == Active && t != Self(w.k) ==> t in w.k.sched.runqueue
    ensures t in w.k.sched.runqueue ==> t != Self(w.k) && StateOf(w.k.sched, t) == Active
  {
    forall m | OnLockQueue(w, t, m) ensures AtLock(w.pc[t], m)
    {
      assert LockQueue(w.k.sched, w.pc, m, w.k.mutexes[m].waitqueue);
    }
    forall c | OnWaitQueue(w, t, c) ensures AtWait(w.pc[t], c)
    {
      assert WaitQueue(w.k.sched, w.pc, c, w.k.conds[c]);
    }
    if IsBlocked(w.k.sched, t) {
      FoundSomewhere(w, t);
    } else {
      NotBlockedNowhere(w.k, w.pc, t);
    }
  }

  lemma FoundSomewhere(w: World, t: nat)
    requires Inv(w) && t in w.pc && IsBlocked(w.k.sched, t)
    ensures w.pc[t].Created? || (exists m :: OnLockQueue(w, t, m)) || (exists c :: OnWaitQueue(w, t, c))
      || (exists b :: t in ToWake(w.pc, b))
  {
    var p := w.pc[t];
    if p.LockWindow? || p.LockReturn? {
      assert AtLock(p, p.m);
      assert OnLockQueue(w, t, p.m);
    } else if p.WaitWindow? || p.WaitReturn? {
      assert AtWait(p, p.c);
      assert WaitsOn(w.k, w.pc, t, p.c);
      if p.c in w.k.conds && t in w.k.conds[p.c] { assert OnWaitQueue(w, t, p.c); }
    }
  }

  // ---- the end of a thread ----

  ghost predicate HasFinished(w: World, t: nat) { t in w.k.sched.threads && StateOf(w.k.sched, t) == Finished }

  /** How the state of a thread may change in one step. */
  ghost predicate Changes(w: World, w': World, t: nat, from: ThreadState, next: ThreadState)
  {
    || next == from
    || (t != Self(w.k) && from == Blocked && next == Active)
    || (t == Self(w.k) && from == Active && (next == Blocked || next == Finishing))
    || (t == Self(w.k) && from == Finishing && next == Finished && Self(w'.k) != t)
  }

  predicate Wakes(e: Event) { e.Unlock? || e.Wait? || e.Signal? || e.Wake? }

  lemma SchedChanges(s: Sched, force: bool, t: nat)
    requires SchedOk(s) && t in s.threads
    ensures t in Rescheduled(s, force).threads
    ensures StateOf(Rescheduled(s, force), t) == StateOf(s, t)
      || (t == s.current && StateOf(s, t) == Finishing && StateOf(Rescheduled(s, force), t) == Finished
          && Rescheduled(s, force).current != t)
  {
    RescheduledOk(s, force);
  }

  lemma StateChanges(w: World, e: Event, w': World, t: nat)
    requires Inv(w) && Step(w, e, w') && t in w.k.sched.threads
    ensures t in w'.k.sched.threads && Changes(w, w', t, StateOf(w.k.sched, t), StateOf(w'.k.sched, t))
  {
    if e == Schedule {
      SchedChanges(w.k.sched, false, t);
    } else if e == Force {
      SchedChanges(w.k.sched, true, t);
    } else if e == Tick {
      ClockKeeps(w);
      if w.k.sched.preempt == 0 { SchedChanges(Later(w.k.sched), false, t); }
    } else if Wakes(e) {
      WakingChanges(w, e, w', t);
    } else {
      OtherChanges(w, e, w', t);
    }
  }

  lemma ActivatedChanges(s: Sched, x: nat, t: nat)
    requires x in s.threads && t in s.threads
    ensures t in Activated(s, x).threads && Activated(s, x).current == s.current
    ensures StateOf(Activated(s, x), t) == StateOf(s, t)
      || (t == x && StateOf(s, t) == Blocked && StateOf(Activated(s, x), t) == Active)
  {
  }

  lemma WakingChanges(w: World, e: Event, w': World, t: nat)
    requires Inv(w) && Step(w, e, w') && t in w.k.sched.threads && Wakes(e)
    ensures t in w'.k.sched.threads && Changes(w, w', t, StateOf(w.k.sched, t), StateOf(w'.k.sched, t))
  {
    hide NoneLost, OwnersOk, NoDup;
    var s := w.k.sched;
    if e.Unlock? || e.Wait? {
      var q := w.k.mutexes[e.m].waitqueue;
      assert LockQueue(s, w.pc, e.m, q);
      if q != [] {
        assert q[0] in q;
        ActivatedChanges(if e.Wait? then Block(s) else s, q[0], t);
      }
    } else if e.Signal? {
      var q := w.k.conds[e.c];
      assert WaitQueue(s, w.pc, e.c, q);
      if q != [] {
        assert q[0] in q;
        ActivatedChanges(s, q[0], t);
      }
    } else {
      var list := w.pc[Self(w.k)].list;
      assert list == ToWake(w.pc, Self(w.k));
      if list != [] {
        assert list[0] in list;
        ActivatedChanges(s, list[0], t);
      }
    }
  }

  lemma OtherChanges(w: World, e: Event, w': World, t: nat)
    requires SchedOk(w.k.sched) && PcOk(w.k.sched, w.pc) && Step(w, e, w') && t in w.k.sched.threads
    requires !(e == Schedule || e == Force || e == Tick || Wakes(e))
    ensures t in w'.k.sched.threads && Changes(w, w', t, StateOf(w.k.sched, t), StateOf(w'.k.sched, t))
  {
  }

  /** A thread becomes FINISHED in a step that leaves another one running. */
  lemma FinishedElsewhere(w: World, e: Event, w': World, t: nat)
    requires Inv(w) && Step(w, e, w') && t in w.k.sched.threads && !HasFinished(w, t) && HasFinished(w', t)
    ensures Self(w.k) == t && Self(w'.k) != t
  {
    StateChanges(w, e, w', t);
  }

  /** Not running, not about to run, on no queue. */
  ghost predicate Gone(w: World, t: nat)
  {
    Self(w.k) != t && t !in w.k.sched.runqueue && Nowhere(w.k, w.pc, t)
  }

  lemma FinishedGone(w: World, t: nat)
    requires Inv(w) && HasFinished(w, t)
    ensures Gone(w, t)
  {
    NotBlockedNowhere(w.k, w.pc, t);
  }

  lemma FinishedStays(w: World, e: Event, w': World, t: nat)
    requires Inv(w) && Step(w, e, w') && HasFinished(w, t)
    ensures HasFinished(w', t)
  {
    StateChanges(w, e, w', t);
  }

  lemma {:induction false} StillFinished(ws: seq<World>, es: seq<Event>, j: nat, t: nat)
    requires Run(ws, es) && Inv(ws[0]) && j < |ws| && HasFinished(ws[0], t)
    ensures HasFinished(ws[j], t)
    decreases j
  {
    hide Inv, Step, HasFinished;
    if j > 0 {
      FinishedStays(ws[0], es[0], ws[1], t);
      StepKeeps(ws[0], es[0], ws[1]);
      StillFinished(ws[1..], es[1..], j - 1, t);
    }
  }

  /** From then on it never runs, and no queue, list or lock refers to it.  The
      task state segment, which may still hold the end of its stack until the
      next switch, is not part of the state. */
  lemma FinishedIsGone(ws: seq<World>, es: seq<Event>, i: nat, j: nat, t: nat)
    requires Run(ws, es) && Inv(ws[0]) && i <= j < |ws| && HasFinished(ws[i], t)
    ensures HasFinished(ws[j], t) && Gone(ws[j], t)
  {
    hide Inv, Step, HasFinished, Gone;
    RunKeeps(ws, es, i);
    assert ws[i..][j - i] == ws[j];
    StillFinished(ws[i..], es[i..], j - i, t);
    RunKeeps(ws, es, j);
    FinishedGone(ws[j], t);
  }

  // ---- thread_join ----

  /** Whoever joins `t` leaves the loop of `thread_join` only once `t` is FINISHED. */
  lemma JoinStays(w: World, e: Event, w': World, u: nat, t: nat)
    requires Inv(w) && Step(w, e, w') && u in w.pc && w.pc[u] == Joining(t)
    ensures u in w'.pc && (w'.pc[u] == Joining(t) || HasFinished(w, t))
  {
    hide SchedBut, QueuesOk, NoneLost, OwnersOk, Fits;
  }

  /** A thread that joins `t` and is not in `thread_join` any more: `t` has finished. */
  lemma {:induction false} JoinWaits(ws: seq<World>, es: seq<Event>, j: nat, u: nat, t: nat)
    requires Run(ws, es) && Inv(ws[0]) && j < |ws| && u in ws[0].pc && ws[0].pc[u] == Joining(t)
    ensures u in ws[j].pc && (ws[j].pc[u] == Joining(t) || HasFinished(ws[j], t))
    decreases j
  {
    hide Inv, Step, HasFinished;
    if j > 0 {
      JoinStays(ws[0], es[0], ws[1], u, t);
      StepKeeps(ws[0], es[0], ws[1]);
      if HasFinished(ws[0], t) {
        StillFinished(ws, es, j, t);
        PcStays(ws, es, j, u);
      } else {
        JoinWaits(ws[1..], es[1..], j - 1, u, t);
      }
    }
  }

  lemma PcStep(w: World, e: Event, w': World, u: nat)
    requires Inv(w) && Step(w, e, w') && u in w.pc
    ensures u in w'.pc
  {
    hide SchedBut, QueuesOk, NoneLost, OwnersOk, Fits;
  }

  lemma {:induction false} PcStays(ws: seq<World>, es: seq<Event>, j: nat, u: nat)
    requires Run(ws, es) && Inv(ws[0]) && j < |ws| && u in ws[0].pc
    ensures u in ws[j].pc
    decreases j
  {
    hide Inv, Step;
    if j > 0 {
      PcStep(ws[0], es[0], ws[1], u);
      StepKeeps(ws[0], es[0], ws[1]);
      PcStays(ws[1..], es[1..], j - 1, u);
    }
  }

  /** `thread_join(t)` called at point `i` by the thread that runs there: from
      the point at which it has come back, `t` is FINISHED and gone for good. */
  lemma JoinedIsGone(ws: seq<World>, es: seq<Event>, i: nat, j: nat, k: nat, u: nat, t: nat)
    requires Run(ws, es) && Inv(ws[0]) && i < j <= k < |ws|
    requires es[i] == Join(t) && u == Self(ws[i].k) && u in ws[i].pc && ws[i].pc[u] == User
    requires u in ws[j].pc && ws[j].pc[u] != Joining(t)
    ensures HasFinished(ws[k], t) && Gone(ws[k], t)
  {
    hide Inv, Step, HasFinished, Gone;
    RunKeeps(ws, es, i + 1);
    JoinBegins(ws[i], ws[i + 1], t);
    assert ws[i + 1..][j - i - 1] == ws[j];
    JoinWaits(ws[i + 1..], es[i + 1..], j - i - 1, u, t);
    FinishedIsGone(ws, es, j, k, t);
  }

  lemma JoinBegins(w: World, w': World, t: nat)
    requires Step(w, Join(t), w') && Self(w.k) in w.pc && w.pc[Self(w.k)].User?
    ensures Self(w.k) in w'.pc && w'.pc[Self(w.k)] == Joining(t)
  {
  }

  /** The step that leaves `thread_join` finds the thread FINISHED, and it
      stays so and gone. */
  lemma JoinReturns(ws: seq<World>, es: seq<Event>, i: nat, j: nat, u: nat, t: nat)
    requires Run(ws, es) && Inv(ws[0]) && i < |es| && i <= j < |ws|
    requires u in ws[i].pc && ws[i].pc[u] == Joining(t) && u in ws[i + 1].pc && ws[i + 1].pc[u] == User
    ensures HasFinished(ws[i], t) && HasFinished(ws[j], t) && Gone(ws[j], t)
  {
    hide Inv, Step, HasFinished, Gone;
    RunKeeps(ws, es, i);
    JoinStays(ws[i], es[i], ws[i + 1], u, t);
    FinishedIsGone(ws, es, i, j, t);
  }

  // ---- runs of the system ----

  ghost predicate Started(ws: seq<World>, es: seq<Event>)
  {
    Run(ws, es) && exists idle: nat, first: nat :: idle != first && ws[0] == Init(idle, first)
  }

  /** Whatever the threads and the timer do from the start: no two threads hold
      the same mutex, a blocked thread has its place on a queue, and a finished
      one is nowhere. */
  lemma FromTheStart(ws: seq<World>, es: seq<Event>, i: nat)
    requires Started(ws, es) && i < |ws|
    ensures Inv(ws[0]) && Inv(ws[i])
    ensures forall m, t, u :: Hold(m, t) in ws[i].held && Hold(m, u) in ws[i].held ==> t == u
    ensures forall t :: IsBlocked(ws[i].k.sched, t) && !ws[i].pc[t].Created? ==> !Nowhere(ws[i].k, ws[i].pc, t)
    ensures forall t :: HasFinished(ws[i], t) ==> Gone(ws[i], t)
  {
    var idle: nat, first: nat :| idle != first && ws[0] == Init(idle, first);
    InitOk(idle, first);
    RunKeeps(ws, es, i);
    PointOfRun(ws[i]);
  }

  lemma PointOfRun(w: World)
    requires Inv(w)
    ensures forall m, t, u :: Hold(m, t) in w.held && Hold(m, u) in w.held ==> t == u
    ensures forall t :: IsBlocked(w.k.sched, t) && !w.pc[t].Created? ==> !Nowhere(w.k, w.pc, t)
    ensures forall t :: HasFinished(w, t) ==> Gone(w, t)
  {
    forall m, t, u | Hold(m, t) in w.held && Hold(m, u) in w.held ensures t == u
    {
      assert w.owner[m] == t;
      assert w.owner[m] == u;
    }
    forall t | IsBlocked(w.k.sched, t) && !w.pc[t].Created? ensures !Nowhere(w.k, w.pc, t)
    {
      FoundSomewhere(w, t);
    }
    forall t | HasFinished(w, t) ensures Gone(w, t)
    {
      FinishedGone(w, t);
    }
  }
}
