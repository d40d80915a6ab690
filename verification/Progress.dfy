/** How soon a ready thread runs. */
module Progress {
  import opened Threads
  import opened Sync
  import opened Interleavings
  import opened Runs

  ghost predicate ReadyAt(s: Sched, t: nat, k: nat) { k < |s.runqueue| && s.runqueue[k] == t }

  /** Ticks until the running thread may be switched away. */
  function SliceLeft(s: Sched): (n: int)
    requires s.current in s.threads
    ensures n >= 1
  {
    if StateOf(s, s.current) == Active && s.now - s.threads[s.current].time < SLICE
    then SLICE - (s.now - s.threads[s.current].time) else 1
  }

  /** Ticks until the thread in place `k` runs. */
  function Bound(s: Sched, k: nat): int
    requires s.current in s.threads
  {
    k * SLICE + SliceLeft(s)
  }

  /** `t` moved up by one for each thread that came to run, and waits no longer
      than before. */
  ghost predicate NoFarther(s: Sched, s': Sched, t: nat, k: nat, ticks: nat)
    requires s.current in s.threads
  {
    && (s'.current == t
      || (s'.current == s.current && ReadyAt(s', t, k))
      || (s'.current != s.current && k > 0 && ReadyAt(s', t, k - 1)))
    && s'.current in s'.threads
    && (s'.current != t ==> Bound(s', if s'.current == s.current then k else k - 1) <= Bound(s, k) - ticks)
  }

  /** A switch takes the first of the queue and gives it a whole slice. */
  lemma SwitchMoves(s: Sched, force: bool, t: nat, k: nat)
    requires SchedOk(s) && ReadyAt(s, t, k) && !KeepsRunning(s, force)
    ensures var s' := Rescheduled(s, force);
      && s'.current == s.runqueue[0] && s'.current != s.current
      && (k > 0 ==> ReadyAt(s', t, k - 1)) && SliceLeft(s') <= SLICE
    ensures k > 0 ==> Bound(Rescheduled(s, force), k - 1) <= k * SLICE
  {
    RescheduledOk(s, force);
    assert s.runqueue[0] in s.runqueue;
  }

  lemma TickMoves(s: Sched, t: nat, k: nat)
    requires SchedOk(s) && s.preempt == 0 && ReadyAt(s, t, k)
    ensures NoFarther(s, Ticked(s), t, k, 1)
  {
    if !KeepsRunning(Later(s), false) {
      SwitchMoves(Later(s), false, t, k);
    }
  }

  lemma ForceMoves(s: Sched, force: bool, t: nat, k: nat)
    requires SchedOk(s) && ReadyAt(s, t, k)
    ensures NoFarther(s, Rescheduled(s, force), t, k, 0)
  {
    if !KeepsRunning(s, force) {
      SwitchMoves(s, force, t, k);
    }
  }

  /** A tick that finds preemption allowed. */
  ghost predicate Counts(w: World, e: Event) { e == Tick && w.k.sched.preempt == 0 }

  lemma ActivatedMoves(s: Sched, x: nat, t: nat, k: nat)
    requires s.current in s.threads && x in s.threads && x != s.current && ReadyAt(s, t, k)
    ensures NoFarther(s, Activated(s, x), t, k, 0)
  {
  }

  lemma BlockedMoves(s: Sched, x: nat, t: nat, k: nat)
    requires s.current in s.threads && x in s.threads && x != s.current && ReadyAt(s, t, k)
    ensures NoFarther(s, Activated(Block(s), x), t, k, 0)
  {
  }

  /** Threads that are woken go to the end of the queue. */
  lemma WakingMoves(w: World, e: Event, w': World, t: nat, k: nat)
    requires Inv(w) && Step(w, e, w') && ReadyAt(w.k.sched, t, k) && Wakes(e)
    ensures NoFarther(w.k.sched, w'.k.sched, t, k, 0)
  {
    var s := w.k.sched;
    if e.Unlock? || e.Wait? {
      var q := w.k.mutexes[e.m].waitqueue;
      assert LockQueue(s, w.pc, e.m, q);
      if q == [] {
        if e.Wait? { BlockOnly(s, t, k); }
      } else {
        assert q[0] in q;
        if e.Wait? { BlockedMoves(s, q[0], t, k); } else { ActivatedMoves(s, q[0], t, k); }
      }
    } else if e.Signal? {
      var q := w.k.conds[e.c];
      assert WaitQueue(s, w.pc, e.c, q);
      if q != [] {
        assert q[0] in q;
        ActivatedMoves(s, q[0], t, k);
      }
    } else {
      var list := w.pc[Self(w.k)].list;
      assert list == ToWake(w.pc, Self(w.k));
      if list != [] {
        assert list[0] in list;
        ActivatedMoves(s, list[0], t, k);
      }
    }
  }

  lemma BlockOnly(s: Sched, t: nat, k: nat)
    requires s.current in s.threads && ReadyAt(s, t, k)
    ensures NoFarther(s, Block(s), t, k, 0)
  {
  }

  lemma OtherMoves(w: World, e: Event, w': World, t: nat, k: nat)
    requires SchedOk(w.k.sched) && PcOk(w.k.sched, w.pc) && Step(w, e, w') && ReadyAt(w.k.sched, t, k)
    requires e != Schedule && e != Force && !Counts(w, e) && !Wakes(e)
    ensures NoFarther(w.k.sched, w'.k.sched, t, k, 0)
  {
  }

  lemma StepMoves(w: World, e: Event, w': World, t: nat, k: nat)
    requires Inv(w) && Step(w, e, w') && ReadyAt(w.k.sched, t, k)
    ensures NoFarther(w.k.sched, w'.k.sched, t, k, if Counts(w, e) then 1 else 0)
  {
    if Counts(w, e) {
      TickMoves(w.k.sched, t, k);
    } else if e == Schedule {
      ForceMoves(w.k.sched, false, t, k);
    } else if e == Force {
      ForceMoves(w.k.sched, true, t, k);
    } else if Wakes(e) {
      WakingMoves(w, e, w', t, k);
    } else {
      OtherMoves(w, e, w', t, k);
    }
  }

  function TicksIn(ws: seq<World>, es: seq<Event>): nat
    requires |ws| == |es| + 1
  {
    if es == [] then 0
    else (if es[0] == Tick && ws[0].k.sched.preempt == 0 then 1 else 0) + TicksIn(ws[1..], es[1..])
  }

  function SwitchesIn(ws: seq<World>): nat
  {
    if |ws| < 2 then 0 else (if Self(ws[1].k) != Self(ws[0].k) then 1 else 0) + SwitchesIn(ws[1..])
  }

  ghost predicate RunsSometime(ws: seq<World>, t: nat) { exists i :: 0 <= i < |ws| && Self(ws[i].k) == t }

  lemma {:induction false} RunsWithin(ws: seq<World>, es: seq<Event>, t: nat, k: nat)
    requires Run(ws, es) && Inv(ws[0]) && ReadyAt(ws[0].k.sched, t, k)
    requires TicksIn(ws, es) >= Bound(ws[0].k.sched, k) || SwitchesIn(ws) > k
    ensures RunsSometime(ws, t)
    decreases |es|
  {
    if es != [] {
      StepMoves(ws[0], es[0], ws[1], t, k);
      if Self(ws[1].k) == t {
        assert RunsSometime(ws, t);
      } else {
        StepKeeps(ws[0], es[0], ws[1]);
        RunsWithin(ws[1..], es[1..], t, if Self(ws[1].k) == Self(ws[0].k) then k else k - 1);
        var i :| 0 <= i < |ws[1..]| && Self(ws[1..][i].k) == t;
        assert ws[1..][i] == ws[i + 1];
      }
    }
  }

  /** The thread in place `k` of the runqueue runs within (k + 1) * SLICE ticks
      that find preemption allowed, and at the latest when k + 1 other threads
      have come to run. */
  lemma ReadyRuns(ws: seq<World>, es: seq<Event>, t: nat, k: nat)
    requires Run(ws, es) && Inv(ws[0]) && ReadyAt(ws[0].k.sched, t, k)
    requires TicksIn(ws, es) >= (k + 1) * SLICE || SwitchesIn(ws) >= k + 1
    ensures RunsSometime(ws, t)
  {
    RunsWithin(ws, es, t, k);
  }

  lemma RunFrom(ws: seq<World>, es: seq<Event>, i: nat)
    requires Run(ws, es) && Inv(ws[0]) && i <= |es|
    ensures Run(ws[i..], es[i..]) && Inv(ws[i..][0])
  {
    hide Inv, Step;
    RunKeeps(ws, es, i);
  }

  lemma HeldBefore(ws: seq<World>, i: nat, n: nat, m: nat, t: nat)
    requires i < |ws| && HeldBy(ws[i..], n, m, t)
    ensures HeldBy(ws, i + n, m, t)
  {
    var h :| 0 <= h <= n && h < |ws[i..]| && Hold(m, t) in ws[i..][h].held;
    assert ws[i..][h] == ws[i + h];
  }

  /** Who owns the mutex without having returned from `mutex_lock` runs as soon
      as the threads before it have had their slices. */
  lemma OwnerRuns(ws: seq<World>, es: seq<Event>, m: nat, t: nat)
    requires Run(ws, es) && Inv(ws[0]) && Owns(ws[0], m, t)
    requires var n := |ws[0].k.sched.runqueue|; TicksIn(ws, es) >= n * SLICE || SwitchesIn(ws) >= n
    ensures exists j :: 0 <= j < |ws| && Self(ws[j].k) == t && (HeldBy(ws, j, m, t) || Owns(ws[j], m, t))
  {
    var s := ws[0].k.sched;
    OwnerReady(ws[0], m, t);
    if s.current != t {
      var k: nat :| ReadyAt(s, t, k);
      Slices(k, |s.runqueue|);
      ReadyRuns(ws, es, t, k);
    }
    var j :| 0 <= j < |ws| && Self(ws[j].k) == t;
    OwnsUntilHeld(ws, es, j, m, t);
  }

  lemma OwnerReady(w: World, m: nat, t: nat)
    requires Inv(w) && Owns(w, m, t)
    ensures w.k.sched.current == t || exists k: nat :: ReadyAt(w.k.sched, t, k)
  {
    if w.k.sched.current != t {
      assert t in w.k.sched.runqueue;
      var k :| 0 <= k < |w.k.sched.runqueue| && w.k.sched.runqueue[k] == t;
      assert ReadyAt(w.k.sched, t, k);
    }
  }

  lemma Slices(k: nat, n: nat)
    requires k < n
    ensures (k + 1) * SLICE <= n * SLICE
  {
  }

  /** A waiter in place `k` that `k + 1` releases have passed comes to run within
      a slice for every thread ready then, as the owner or later, and comes out
      of `mutex_lock` as the holder with its second step at the latest. */
  lemma WaiterComesOut(ws: seq<World>, es: seq<Event>, i: nat, m: nat, t: nat, k: nat)
    requires Run(ws, es) && Inv(ws[0]) && QueuedAt(ws[0], m, t, k)
    requires i <= |es| && ReleasesIn(es[..i], m) > k
    ensures var n := |ws[i].k.sched.runqueue|;
      TicksIn(ws[i..], es[i..]) >= n * SLICE || SwitchesIn(ws[i..]) >= n ==>
        HeldBy(ws, |es|, m, t) || exists j :: i <= j < |ws| && Self(ws[j].k) == t && Owns(ws[j], m, t)
    ensures OwnTurnsIn(ws[i..], es[i..], t) >= 2 ==> HeldBy(ws, |es|, m, t)
  {
    hide Inv, Step, Owns, QueuedAt;
    WaiterOwns(ws, es, i, m, t, k);
    RunFrom(ws, es, i);
    var n, ws', es' := |ws[i].k.sched.runqueue|, ws[i..], es[i..];
    if Owns(ws[i], m, t) {
      if OwnTurnsIn(ws', es', t) >= 2 {
        OwnerHolds(ws', es', m, t);
        HeldBefore(ws, i, |es'|, m, t);
      }
      if TicksIn(ws', es') >= n * SLICE || SwitchesIn(ws') >= n {
        OwnerRuns(ws', es', m, t);
        var j :| 0 <= j < |ws'| && Self(ws'[j].k) == t && (HeldBy(ws', j, m, t) || Owns(ws'[j], m, t));
        assert ws'[j] == ws[i + j];
        if HeldBy(ws', j, m, t) { HeldBefore(ws, i, j, m, t); }
      }
    }
  }
}
