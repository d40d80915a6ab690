/** Who runs next, and for how long it keeps the processor. */
module Slices {
  import opened Options
  import opened Threads
  import opened Sync
  import opened Interleavings
  import opened Runs

  // ---- one decision of the scheduler ----

  /** The processor goes to the first of the runqueue, which gets a new time
      stamp; a thread that could have gone on waits at the end of the queue. */
  ghost predicate FirstTakesOver(s: Sched, s': Sched)
    requires s.runqueue != [] && s.current in s.threads
  {
    && s'.current == s.runqueue[0] && s'.current in s'.threads && s'.threads[s'.current].time == s.now
    && s'.runqueue == s.runqueue[1..] + (if s.threads[s.current].state == Active then [s.current] else [])
    && s'.now == s.now && s'.preempt == s.preempt && s'.idle == s.idle
  }

  ghost predicate IdleTakesOver(s: Sched, s': Sched)
  {
    && Some(s'.current) == s.idle && s'.current in s'.threads && s'.threads[s'.current].time == s.now
    && s'.runqueue == [] && s'.now == s.now && s'.preempt == s.preempt && s'.idle == s.idle
  }

  /** The running thread is put aside: the first ready thread takes over, or the
      idle thread, unless the running thread is the only one that can go on. */
  ghost predicate Yields(s: Sched, s': Sched)
    requires s.current in s.threads
  {
    && (s.runqueue != [] ==> FirstTakesOver(s, s'))
    && (s.runqueue == [] && s.threads[s.current].state in {Active, Idle} ==> s' == s)
    && (s.runqueue == [] && s.threads[s.current].state !in {Active, Idle} ==> IdleTakesOver(s, s'))
  }

  lemma PutAside(s: Sched, force: bool)
    requires SchedOk(s) && !KeepsRunning(s, force)
    ensures Yields(s, Rescheduled(s, force))
  {
    if s.runqueue == [] {
      assert s.(runqueue := []) == s;
    } else {
      assert s.runqueue[0] in s.runqueue;
    }
  }

  /** What a tick does: it counts; within a slice, or when preemption is off, it
      does nothing else, and otherwise the running thread is put aside. */
  lemma TickDecides(s: Sched)
    requires SchedOk(s)
    ensures s.preempt > 0 ==> Ticked(s) == s.(now := s.now + 1)
    ensures var t := s.threads[s.current];
      t.state == Active && s.now + 1 - t.time < SLICE ==> Ticked(s) == s.(now := s.now + 1)
    ensures var t := s.threads[s.current];
      s.preempt == 0 && (t.state != Active || s.now + 1 - t.time >= SLICE) ==> Yields(s.(now := s.now + 1), Ticked(s))
  {
    var s1 := s.(now := s.now + 1);
    assert SchedOk(s1);
    if s.preempt == 0 && !KeepsRunning(s1, false) { PutAside(s1, false); }
  }

  /** `force_schedule` asks for no slice: it always puts the caller aside. */
  lemma ForceDecides(s: Sched)
    requires SchedOk(s)
    ensures Yields(s, Rescheduled(s, true))
  {
    PutAside(s, true);
  }

  // ---- steps ----

  ghost predicate SameRunner(s: Sched, s': Sched)
    requires s.current in s.threads
  {
    s'.current == s.current && s'.current in s'.threads && s'.threads[s.current].time == s.threads[s.current].time
  }

  /** What an event adds to the preempt count. */
  function Off(e: Event): int
  {
    if e == Preempt(false) then 1 else if e == Preempt(true) then -1 else 0
  }

  /** What the other events leave alone. */
  ghost predicate Undisturbed(s: Sched, e: Event, s': Sched)
    requires s.current in s.threads
  {
    SameRunner(s, s') && s'.now == s.now && s'.idle == s.idle && s'.preempt == s.preempt + Off(e)
  }

  lemma ActivatedUndisturbed(s: Sched, x: nat, e: Event)
    requires s.current in s.threads && x in s.threads && Wakes(e)
    ensures Undisturbed(s, e, Activated(s, x))
  {
  }

  lemma WakingUndisturbed(w: World, e: Event, w': World)
    requires SchedOk(w.k.sched) && Step(w, e, w') && Wakes(e)
    ensures Undisturbed(w.k.sched, e, w'.k.sched)
  {
    hide SchedBut, Activated;
    var s := w.k.sched;
    if e.Unlock? || e.Wait? {
      var q := w.k.mutexes[e.m].waitqueue;
      if q != [] {
        assert q[0] in q;
        ActivatedUndisturbed(if e.Wait? then Block(s) else s, q[0], e);
      }
    } else if e.Signal? {
      var q := w.k.conds[e.c];
      if q != [] {
        assert q[0] in q;
        ActivatedUndisturbed(s, q[0], e);
      }
    } else if w.pc[Self(w.k)].list != [] {
      ActivatedUndisturbed(s, w.pc[Self(w.k)].list[0], e);
    }
  }

  lemma OthersUndisturbed(w: World, e: Event, w': World)
    requires SchedOk(w.k.sched) && Step(w, e, w') && e != Tick && e != Schedule && e != Force
    ensures Undisturbed(w.k.sched, e, w'.k.sched)
  {
    if Wakes(e) { WakingUndisturbed(w, e, w'); }
  }

  /** Only a tick moves the clock, and by one. */
  lemma ClockStep(w: World, e: Event, w': World)
    requires Inv(w) && Step(w, e, w')
    ensures w'.k.sched.now == w.k.sched.now + if e == Tick then 1 else 0
  {
    hide QueuesOk, NoneLost, OwnersOk, Fits;
    if e == Tick {
      TickDecides(w.k.sched);
    } else if e == Schedule || e == Force {
      RescheduledOk(w.k.sched, e == Force);
    } else {
      OthersUndisturbed(w, e, w');
    }
  }

  /** A thread that comes to run gets the time of the switch. */
  ghost predicate Stamped(s: Sched, s': Sched)
  {
    s'.current in s'.threads && s'.threads[s'.current].time == s'.now
  }

  /** Why the processor passed to another thread. */
  ghost predicate MayPass(s: Sched, e: Event, now: nat)
    requires s.current in s.threads
  {
    s.preempt == 0 && (e == Force || StateOf(s, s.current) != Active || now - s.threads[s.current].time >= SLICE)
  }

  ghost predicate Passes(s: Sched, e: Event, s': Sched)
    requires s.current in s.threads
  {
    && (s'.current == s.current ==> SameRunner(s, s'))
    && (s'.current != s.current ==> MayPass(s, e, s'.now) && Stamped(s, s'))
  }

  lemma ChosenPasses(s: Sched, e: Event)
    requires SchedOk(s) && (e == Force || e == Schedule) && s.preempt == 0
    ensures Passes(s, e, Rescheduled(s, e == Force))
  {
    if !KeepsRunning(s, e == Force) { PutAside(s, e == Force); }
  }

  lemma TickPasses(s: Sched)
    requires SchedOk(s)
    ensures Passes(s, Tick, Ticked(s))
  {
    TickDecides(s);
  }

  /** The processor passes only with preemption allowed, and from a thread that
      can go on only when it gives way itself or has had its slice. */
  lemma StepPasses(w: World, e: Event, w': World)
    requires Inv(w) && Step(w, e, w')
    ensures Passes(w.k.sched, e, w'.k.sched)
  {
    hide QueuesOk, NoneLost, OwnersOk, Fits;
    if e == Tick {
      TickPasses(w.k.sched);
    } else if e == Schedule || e == Force {
      ChosenPasses(w.k.sched, e);
    } else {
      OthersUndisturbed(w, e, w');
    }
  }

  // ---- runs ----

  function Ticks(es: seq<Event>): nat
  {
    if es == [] then 0 else (if es[0] == Tick then 1 else 0) + Ticks(es[1..])
  }

  /** At point `k` thread `t` runs and neither waits, ends nor gives way. */
  ghost predicate GoesOn(ws: seq<World>, es: seq<Event>, k: nat, t: nat)
    requires k < |es| && k < |ws|
  {
    Self(ws[k].k) == t ==> t in ws[k].k.sched.threads && StateOf(ws[k].k.sched, t) == Active && es[k] != Force
  }

  /** `t` runs since `d` ticks. */
  ghost predicate RunsSince(w: World, t: nat, d: nat)
  {
    Self(w.k) == t && t in w.k.sched.threads && w.k.sched.now - w.k.sched.threads[t].time == d
  }

  /** A thread that runs since `d` ticks still runs as long as its slice is not
      over, unless it blocks, ends or gives way. */
  lemma {:induction false} RunsOn(ws: seq<World>, es: seq<Event>, t: nat, d: nat)
    requires Run(ws, es) && Inv(ws[0]) && RunsSince(ws[0], t, d)
    requires forall k :: 0 <= k < |es| ==> GoesOn(ws, es, k, t)
    requires d + Ticks(es) < SLICE
    ensures RunsSince(ws[|es|], t, d + Ticks(es))
    decreases |es|
  {
    hide Inv, Step;
    if es != [] {
      var n := d + if es[0] == Tick then 1 else 0;
      StepKeeps(ws[0], es[0], ws[1]);
      StepPasses(ws[0], es[0], ws[1]);
      ClockStep(ws[0], es[0], ws[1]);
      assert GoesOn(ws, es, 0, t);
      forall k | 0 <= k < |es[1..]| ensures GoesOn(ws[1..], es[1..], k, t)
      {
        assert GoesOn(ws, es, k + 1, t);
      }
      RunsOn(ws[1..], es[1..], t, n);
    }
  }

  /** A thread that comes to run at point `i + 1` has the processor until SLICE
      ticks have passed, unless it blocks, ends or gives way itself. */
  lemma KeepsSlice(ws: seq<World>, es: seq<Event>, i: nat, j: nat, t: nat)
    requires Run(ws, es) && Inv(ws[0]) && i < j <= |es|
    requires Self(ws[i].k) != t && Self(ws[i + 1].k) == t
    requires forall k :: i < k < j ==> GoesOn(ws, es, k, t)
    requires Ticks(es[i + 1..j]) < SLICE
    ensures Self(ws[j].k) == t
  {
    hide Inv, Step;
    RunKeeps(ws, es, i);
    RunKeeps(ws, es, i + 1);
    StepPasses(ws[i], es[i], ws[i + 1]);
    var ws', es' := ws[i + 1..j + 1], es[i + 1..j];
    forall k | 0 <= k < |es'| ensures GoesOn(ws', es', k, t)
    {
      assert GoesOn(ws, es, i + 1 + k, t);
    }
    assert Run(ws', es') by {
      forall k | 0 <= k < |es'| ensures Step(ws'[k], es'[k], ws'[k + 1])
      {
        assert Step(ws[i + 1 + k], es[i + 1 + k], ws[i + 1 + k + 1]);
      }
    }
    RunsOn(ws', es', t, 0);
  }

  /** While preemption is off the running thread goes on. */
  lemma {:induction false} NoSwitch(ws: seq<World>, es: seq<Event>, j: nat)
    requires Run(ws, es) && Inv(ws[0]) && j < |ws|
    requires forall k :: 0 <= k < j ==> ws[k].k.sched.preempt > 0
    ensures Self(ws[j].k) == Self(ws[0].k)
    decreases j
  {
    hide Inv, Step;
    if j > 0 {
      StepKeeps(ws[0], es[0], ws[1]);
      StepPasses(ws[0], es[0], ws[1]);
      NoSwitch(ws[1..], es[1..], j - 1);
    }
  }

  /** How often preemption was switched off, less how often on again. */
  function Balance(es: seq<Event>): int
  {
    if es == [] then 0 else Off(es[0]) + Balance(es[1..])
  }

  lemma PreemptCounts(w: World, e: Event, w': World)
    requires Inv(w) && Step(w, e, w')
    ensures w'.k.sched.preempt == w.k.sched.preempt + Off(e)
  {
    hide PcOk, QueuesOk, NoneLost, OwnersOk;
    if e == Tick {
      TickDecides(w.k.sched);
    } else if e == Schedule || e == Force {
      RescheduledOk(w.k.sched, e == Force);
    } else {
      OthersUndisturbed(w, e, w');
    }
  }

  /** Preemption is allowed again when every `disable_preempt` has met its
      `enable_preempt`, and not before. */
  lemma {:induction false} PreemptBalance(ws: seq<World>, es: seq<Event>)
    requires Run(ws, es) && Inv(ws[0])
    ensures ws[|es|].k.sched.preempt == ws[0].k.sched.preempt + Balance(es)
    decreases |es|
  {
    hide Inv, Step;
    if es != [] {
      StepKeeps(ws[0], es[0], ws[1]);
      PreemptCounts(ws[0], es[0], ws[1]);
      PreemptBalance(ws[1..], es[1..]);
    }
  }

  // ---- the idle thread, and turns ----

  /** The idle thread comes to run only when no thread is ready. */
  lemma IdleLast(w: World, e: Event, w': World)
    requires Inv(w) && Step(w, e, w') && Self(w'.k) != Self(w.k) && w.k.sched.idle == Some(Self(w'.k))
    ensures forall t :: t in w'.k.sched.threads ==> StateOf(w'.k.sched, t) != Active
  {
    hide Step, QueuesOk, NoneLost, OwnersOk, Fits;
    StepKeeps(w, e, w');
    Successor(w, e, w');
    NoneActive(w'.k.sched);
  }

  lemma NoneActive(s: Sched)
    requires SchedOk(s) && s.runqueue == [] && Some(s.current) == s.idle
    ensures forall t :: t in s.threads ==> StateOf(s, t) != Active
  {
  }

  /** It gives way at the next tick or call that finds preemption allowed. */
  lemma IdleGivesWay(w: World, e: Event, w': World)
    requires Inv(w) && Step(w, e, w') && Some(Self(w.k)) == w.k.sched.idle && w.k.sched.runqueue != []
    requires (e == Tick && w.k.sched.preempt == 0) || e == Force
    ensures Self(w'.k) == w.k.sched.runqueue[0]
  {
    hide QueuesOk, NoneLost, OwnersOk, Fits;
    if e == Tick { TickDecides(w.k.sched); } else { ForceDecides(w.k.sched); }
  }

  /** Turns are taken in order: the next thread is the first of the queue, and
      one that could have gone on waits behind all others. */
  lemma Successor(w: World, e: Event, w': World)
    requires Inv(w) && Step(w, e, w') && Self(w'.k) != Self(w.k)
    ensures w.k.sched.runqueue != [] ==> Self(w'.k) == w.k.sched.runqueue[0]
    ensures w.k.sched.runqueue == [] ==> Some(Self(w'.k)) == w.k.sched.idle && w'.k.sched.runqueue == []
    ensures StateOf(w.k.sched, Self(w.k)) == Active ==>
      w.k.sched.runqueue != [] && w'.k.sched.runqueue == w.k.sched.runqueue[1..] + [Self(w.k)]
    ensures w'.k.sched.idle == w.k.sched.idle && (w.k.sched.idle == Some(Self(w'.k)) ==> w'.k.sched.runqueue == [])
  {
    hide QueuesOk, NoneLost, OwnersOk, Fits;
    var s := w.k.sched;
    assert s.runqueue != [] ==> s.runqueue[0] in s.runqueue;
    if e == Tick {
      TickDecides(s);
    } else if e == Schedule || e == Force {
      if !KeepsRunning(s, e == Force) { PutAside(s, e == Force); }
    } else {
      OthersUndisturbed(w, e, w');
    }
  }
}
