/** What can always go on: a locked mutex has somebody who will unlock it or is
    about to get it, and the running thread always has a step to take. */
module Availability {
  import opened Lists
  import opened Threads
  import opened Sync
  import opened Interleavings
  import opened Runs

  /** A locked mutex is held, or its owner is ready to return with it. */
  ghost predicate InUse(w: World, m: nat)
  {
    m in w.owner && (Hold(m, w.owner[m]) in w.held || Owns(w, m, w.owner[m]))
  }

  ghost predicate NoneStranded(w: World) { forall m :: m in w.owner ==> InUse(w, m) }

  /** What a thread waits for exists. */
  ghost predicate Refers(w: World, p: Pc)
  {
    && (p.WaitWindow? || p.WaitReturn? ==> p.m in w.k.mutexes && p.c in w.k.conds)
    && (p.Joining? ==> p.t in w.k.sched.threads)
  }

  ghost predicate NoneDangling(w: World) { forall t :: t in w.pc ==> Refers(w, w.pc[t]) }

  // ---- no mutex is stranded ----

  /** A hold ends by its thread's release only. */
  lemma HoldStays(w: World, e: Event, w': World, m: nat, t: nat)
    requires Step(w, e, w') && Hold(m, t) in w.held
    ensures Hold(m, t) in w'.held || (Releases(e, m) && Self(w.k) == t)
  {
  }

  /** Who owns a mutex changes by its release, or by locking a free one. */
  lemma OwnerMoves(w: World, e: Event, w': World, m: nat)
    requires Inv(w) && Step(w, e, w') && m in w'.owner
    ensures (m in w.owner && w'.owner[m] == w.owner[m] && !Releases(e, m))
      || (e == Lock(m) && w'.owner[m] == Self(w.k) && Hold(m, Self(w.k)) in w'.held)
      || (Releases(e, m) && m in w.k.mutexes && w.k.mutexes[m].waitqueue != []
          && w'.owner[m] == w.k.mutexes[m].waitqueue[0])
  {
    hide SchedBut, PcOk, QueuesOk, NoneLost;
  }

  lemma StaysInUse(w: World, e: Event, w': World, m: nat)
    requires Inv(w) && Step(w, e, w') && NoneStranded(w) && m in w'.owner
    ensures InUse(w', m)
  {
    hide Inv, Step, Owns;
    OwnerMoves(w, e, w', m);
    if m in w.owner && w'.owner[m] == w.owner[m] && !Releases(e, m) {
      assert InUse(w, m);
      if Hold(m, w.owner[m]) in w.held {
        HoldStays(w, e, w', m, w.owner[m]);
      } else {
        OwnerReturns(w, e, w', m, w.owner[m]);
      }
    } else if Releases(e, m) {
      FirstOwns(w, e, w', m, w.k.mutexes[m].waitqueue[0]);
    }
  }

  lemma StrandedKeeps(w: World, e: Event, w': World)
    requires Inv(w) && Step(w, e, w') && NoneStranded(w)
    ensures NoneStranded(w')
  {
    hide Inv, Step, InUse;
    forall m | m in w'.owner ensures InUse(w', m)
    {
      StaysInUse(w, e, w', m);
    }
  }

  // ---- nothing dangles ----

  lemma RefersStays(w: World, e: Event, w': World, p: Pc)
    requires Inv(w) && Step(w, e, w') && Refers(w, p)
    ensures Refers(w', p)
  {
    hide SchedBut, PcOk, QueuesOk, NoneLost, OwnersOk;
    if p.Joining? { StateChanges(w, e, w', p.t); }
  }

  /** A thread comes to a new place in the code. */
  lemma PlacesRefer(w: World, e: Event, w': World, t: nat)
    requires Inv(w) && Step(w, e, w') && t in w'.pc
    ensures (t in w.pc && w'.pc[t] == w.pc[t]) || Refers(w', w'.pc[t])
      || (t in w.pc && w.pc[t].WaitWindow? && w'.pc[t] == WaitReturn(w.pc[t].c, w.pc[t].m))
  {
    hide SchedBut, QueuesOk, NoneLost, OwnersOk, Fits;
  }

  lemma DanglingKeeps(w: World, e: Event, w': World)
    requires Inv(w) && Step(w, e, w') && NoneDangling(w)
    ensures NoneDangling(w')
  {
    hide Inv, Step;
    forall t | t in w'.pc ensures Refers(w', w'.pc[t])
    {
      PlacesRefer(w, e, w', t);
      if t in w.pc { RefersStays(w, e, w', w.pc[t]); }
    }
  }

  // ---- runs ----

  ghost predicate Sound(w: World) { Inv(w) && NoneStranded(w) && NoneDangling(w) }

  lemma {:induction false} SoundKeeps(ws: seq<World>, es: seq<Event>, i: nat)
    requires Run(ws, es) && Sound(ws[0]) && i < |ws|
    ensures Sound(ws[i])
  {
    hide Inv, Step, NoneStranded, NoneDangling;
    if i > 0 {
      SoundKeeps(ws, es, i - 1);
      StepKeeps(ws[i - 1], es[i - 1], ws[i]);
      StrandedKeeps(ws[i - 1], es[i - 1], ws[i]);
      DanglingKeeps(ws[i - 1], es[i - 1], ws[i]);
    }
  }

  lemma StartedSound(ws: seq<World>, es: seq<Event>, i: nat)
    requires Started(ws, es) && i < |ws|
    ensures Sound(ws[i])
  {
    hide Inv, Step;
    FromTheStart(ws, es, 0);
    SoundKeeps(ws, es, i);
  }

  /** At every point of every run from the start a mutex is locked exactly when
      a thread holds it, or is in `mutex_lock`, not blocked, and comes out of it
      with the mutex. */
  lemma LockedInUse(ws: seq<World>, es: seq<Event>, i: nat, m: nat)
    requires Started(ws, es) && i < |ws| && m in ws[i].k.mutexes
    ensures ws[i].k.mutexes[m].locked <==>
      exists t :: Hold(m, t) in ws[i].held || (t in ws[i].pc && AtLock(ws[i].pc[t], m) && !IsBlocked(ws[i].k.sched, t))
  {
    hide Step;
    StartedSound(ws, es, i);
    if ws[i].k.mutexes[m].locked {
      assert InUse(ws[i], m);
    }
  }

  // ---- no thread is stuck ----

  /** The step that the code of the running thread goes on with. */
  ghost predicate CanStep(w: World, e: Event) { exists w' :: Step(w, e, w') }

  /** The next section of the running thread, wherever it is in the code. */
  function NextOf(w: World): Event
    requires Self(w.k) in w.pc
  {
    match w.pc[Self(w.k)]
    case LockWindow(_) => Schedule
    case WaitWindow(_, _) => Schedule
    case LockReturn(_) => Return
    case WaitReturn(_, m) => Lock(m)
    case Broadcasting(_) => Wake
    case Joining(t) => if t in w.k.sched.threads && StateOf(w.k.sched, t) == Finished then Join(t) else Force
    case Exiting => Force
    case Idling => Force
    case _ => Tick
  }

  lemma KernelCodeGoesOn(w: World)
    requires Sound(w)
    ensures CanStep(w, NextOf(w))
  {
    hide QueuesOk, NoneLost, OwnersOk, CanStep;
    assert Refers(w, w.pc[Self(w.k)]);
    match w.pc[Self(w.k)]
    case LockWindow(_) => ScheduleGoesOn(w);
    case WaitWindow(_, _) => ScheduleGoesOn(w);
    case LockReturn(_) => ReturnGoesOn(w);
    case WaitReturn(_, m) => LockGoesOn(w, m);
    case Broadcasting(list) => WakeGoesOn(w, list);
    case Joining(t) => if StateOf(w.k.sched, t) == Finished { JoinEnds(w, t); } else { ForceGoesOn(w); }
    case User => TickGoesOn(w);
    case Created => assert false;
    case _ => ForceGoesOn(w);
  }

  lemma ScheduleGoesOn(w: World)
    requires Known(w.k.sched) && Self(w.k) in w.pc && (w.pc[Self(w.k)].LockWindow? || w.pc[Self(w.k)].WaitWindow?)
    ensures CanStep(w, Schedule)
  {
    var t, k := Self(w.k), w.k.(sched := ScheduleCalled(w.k.sched));
    match w.pc[t]
    case LockWindow(m) => assert Step(w, Schedule, World(k, w.pc[t := LockReturn(m)], w.held, w.owner));
    case WaitWindow(c, m) => assert Step(w, Schedule, World(k, w.pc[t := WaitReturn(c, m)], w.held, w.owner));
  }

  lemma ReturnGoesOn(w: World)
    requires Self(w.k) in w.pc && w.pc[Self(w.k)].LockReturn?
    ensures CanStep(w, Return)
  {
    var t := Self(w.k);
    assert Step(w, Return, World(w.k, w.pc[t := User], w.held + {Hold(w.pc[t].m, t)}, w.owner));
  }

  /** The wait of `thread_join` ends when the thread has finished. */
  lemma JoinEnds(w: World, t: nat)
    requires t in w.k.sched.threads && Self(w.k) in w.pc && w.pc[Self(w.k)] == Joining(t)
    requires StateOf(w.k.sched, t) == Finished
    ensures CanStep(w, Join(t))
  {
    assert Step(w, Join(t), At(w, User));
  }

  lemma ForceGoesOn(w: World)
    requires Known(w.k.sched) && Self(w.k) in w.pc && w.k.sched.preempt == 0
    requires w.pc[Self(w.k)].Idling? || w.pc[Self(w.k)].Exiting? || w.pc[Self(w.k)].Joining?
    ensures CanStep(w, Force)
  {
    assert Step(w, Force, w.(k := w.k.(sched := Rescheduled(w.k.sched, true))));
  }

  /** The timer may strike anywhere. */
  lemma TickGoesOn(w: World)
    requires Known(w.k.sched)
    ensures CanStep(w, Tick)
  {
    assert Step(w, Tick, w.(k := w.k.(sched := Ticked(w.k.sched))));
  }

  /** `mutex_lock` can be entered whether the mutex is free or not. */
  lemma LockGoesOn(w: World, m: nat)
    requires Known(w.k.sched) && Self(w.k) in w.pc && m in w.k.mutexes && w.k.sched.preempt == 0
    requires w.pc[Self(w.k)].User? || (w.pc[Self(w.k)].WaitReturn? && w.pc[Self(w.k)].m == m)
    ensures CanStep(w, Lock(m))
  {
    var t := Self(w.k);
    if w.k.mutexes[m].locked {
      assert Step(w, Lock(m), World(LockSection(w.k, m), w.pc[t := LockWindow(m)], w.held, w.owner));
    } else {
      assert Step(w, Lock(m),
        World(LockSection(w.k, m), w.pc[t := User], w.held + {Hold(m, t)}, w.owner[m := t]));
    }
  }

  lemma WakeGoesOn(w: World, list: seq<nat>)
    requires Inv(w) && Self(w.k) in w.pc && w.pc[Self(w.k)] == Broadcasting(list)
    ensures CanStep(w, Wake)
  {
    hide NoneLost, OwnersOk;
    var t := Self(w.k);
    if list == [] {
      assert Step(w, Wake, At(w, User));
    } else {
      assert list[0] in ToWake(w.pc, t) && IsBlocked(w.k.sched, list[0]);
      assert Step(w, Wake, World(w.k.(sched := Activated(w.k.sched, list[0])),
        w.pc[t := Broadcasting(list[1..])], w.held, w.owner));
    }
  }

  lemma WaitersKnown(w: World)
    requires Inv(w)
    ensures Waiters(w.k)
  {
    forall m, t | m in w.k.mutexes && t in w.k.mutexes[m].waitqueue ensures t in w.k.sched.threads
    {
      assert LockQueue(w.k.sched, w.pc, m, w.k.mutexes[m].waitqueue);
    }
    forall c, t | c in w.k.conds && t in w.k.conds[c] ensures t in w.k.sched.threads
    {
      assert WaitQueue(w.k.sched, w.pc, c, w.k.conds[c]);
    }
  }

  /** From its own code a thread may make any call that the code allows: lock
      any mutex, unlock or wait with one it holds, signal, broadcast, join, end. */
  lemma CallsGoOn(w: World, m: nat, c: nat, t: nat)
    requires Inv(w) && w.pc[Self(w.k)].User? && m in w.k.mutexes && c in w.k.conds && t in w.k.sched.threads
    ensures CanStep(w, Signal(c)) && CanStep(w, Splice(c))
    ensures Hold(m, Self(w.k)) in w.held ==> CanStep(w, Unlock(m))
    ensures w.k.sched.preempt == 0 ==> CanStep(w, Lock(m)) && CanStep(w, Join(t)) && CanStep(w, Exit)
    ensures w.k.sched.preempt == 0 && Hold(m, Self(w.k)) in w.held ==> CanStep(w, Wait(c, m))
  {
    hide QueuesOk, NoneLost, OwnersOk, CanStep;
    WaitersKnown(w);
    assert w.k.sched.current in w.k.sched.threads && Self(w.k) in w.pc;
    SignalsGoOn(w, c);
    if Hold(m, Self(w.k)) in w.held { ReleasesGoOn(w, m, c); }
    if w.k.sched.preempt == 0 {
      LockGoesOn(w, m);
      EndsGoOn(w, t);
    }
  }

  lemma SignalsGoOn(w: World, c: nat)
    requires Known(w.k.sched) && Waiters(w.k) && Self(w.k) in w.pc && w.pc[Self(w.k)].User? && c in w.k.conds
    ensures CanStep(w, Signal(c)) && CanStep(w, Splice(c))
  {
    assert Step(w, Signal(c), World(Signalled(w.k, c), w.pc, w.held, w.owner));
    assert Step(w, Splice(c),
      World(Spliced(w.k, c), w.pc[Self(w.k) := Broadcasting(w.k.conds[c])], w.held, w.owner));
  }

  lemma ReleasesGoOn(w: World, m: nat, c: nat)
    requires Known(w.k.sched) && Waiters(w.k) && Self(w.k) in w.pc && w.pc[Self(w.k)].User?
    requires m in w.k.mutexes && c in w.k.conds && Hold(m, Self(w.k)) in w.held
    ensures CanStep(w, Unlock(m)) && (w.k.sched.preempt == 0 ==> CanStep(w, Wait(c, m)))
  {
    var t := Self(w.k);
    assert Step(w, Unlock(m), World(Unlocked(w.k, m), w.pc, w.held - {Hold(m, t)}, Passed(w, m)));
    if w.k.sched.preempt == 0 {
      assert Step(w, Wait(c, m), World(WaitSection(w.k, c, m), w.pc[t := WaitWindow(c, m)],
        w.held - {Hold(m, t)}, Passed(w, m)));
    }
  }

  lemma EndsGoOn(w: World, t: nat)
    requires Known(w.k.sched) && Self(w.k) in w.pc && w.pc[Self(w.k)].User? && t in w.k.sched.threads
    requires w.k.sched.preempt == 0
    ensures CanStep(w, Join(t)) && CanStep(w, Exit)
  {
    assert Step(w, Join(t), At(w, Joining(t)));
    assert Step(w, Exit, At(w.(k := w.k.(sched := WithState(w.k.sched, Self(w.k), Finishing))), Exiting));
  }

  /** It may set up objects, create and activate threads, and switch preemption
      off and on again. */
  lemma ServicesGoOn(w: World, t: nat, x: nat)
    requires Inv(w) && w.pc[Self(w.k)].User?
    ensures x !in w.k.mutexes || x !in w.k.conds ==> CanStep(w, Setup(x))
    ensures t !in w.k.sched.threads ==> CanStep(w, Create(t))
    ensures t in w.k.sched.threads && w.pc[t].Created? ==> CanStep(w, Activate(t))
    ensures CanStep(w, Preempt(false)) && (w.k.sched.preempt > 0 ==> CanStep(w, Preempt(true)))
  {
    hide SchedBut, QueuesOk, NoneLost, OwnersOk, CanStep;
    SetupGoesOn(w, x);
    ThreadsGoOn(w, t);
    PreemptGoesOn(w);
  }

  lemma SetupGoesOn(w: World, x: nat)
    requires Self(w.k) in w.pc && w.pc[Self(w.k)].User?
    ensures x !in w.k.mutexes || x !in w.k.conds ==> CanStep(w, Setup(x))
  {
    if x !in w.k.mutexes {
      assert Step(w, Setup(x), w.(k := w.k.(mutexes := w.k.mutexes[x := Mutex(false, [])])));
    } else if x !in w.k.conds {
      assert Step(w, Setup(x), w.(k := w.k.(conds := w.k.conds[x := []])));
    }
  }

  lemma ThreadsGoOn(w: World, t: nat)
    requires Self(w.k) in w.pc && w.pc[Self(w.k)].User? && w.pc.Keys == w.k.sched.threads.Keys
    ensures t !in w.k.sched.threads ==> CanStep(w, Create(t))
    ensures t in w.k.sched.threads && w.pc[t].Created? ==> CanStep(w, Activate(t))
  {
    var s := w.k.sched;
    if t !in s.threads {
      assert Step(w, Create(t), World(w.k.(sched := s.(threads := s.threads[t := Thread(Blocked, 0)])),
        w.pc[t := Created], w.held, w.owner));
    } else if w.pc[t].Created? {
      assert Step(w, Activate(t), World(w.k.(sched := Activated(s, t)), w.pc[t := User], w.held, w.owner));
    }
  }

  lemma PreemptGoesOn(w: World)
    requires Self(w.k) in w.pc && w.pc[Self(w.k)].User?
    ensures CanStep(w, Preempt(false)) && (w.k.sched.preempt > 0 ==> CanStep(w, Preempt(true)))
  {
    var s := w.k.sched;
    assert Step(w, Preempt(false), w.(k := w.k.(sched := s.(preempt := s.preempt + 1))));
    if s.preempt > 0 { assert Step(w, Preempt(true), w.(k := w.k.(sched := s.(preempt := s.preempt - 1)))); }
  }

  /** What a section does is settled by where it begins.  (An object may be set
      up as a mutex or as a condition.) */
  lemma StepDetermined(w: World, e: Event, w1: World, w2: World)
    requires Inv(w) && Step(w, e, w1) && Step(w, e, w2) && !e.Setup?
    ensures w1 == w2
  {
    hide SchedBut, QueuesOk, NoneLost, OwnersOk, Fits;
  }

  /** At every point of every run from the start the running thread can go on
      with the next section of its code. */
  lemma NeverStuck(ws: seq<World>, es: seq<Event>, i: nat)
    requires Started(ws, es) && i < |ws|
    ensures Self(ws[i].k) in ws[i].pc && CanStep(ws[i], NextOf(ws[i]))
  {
    hide Step;
    StartedSound(ws, es, i);
    KernelCodeGoesOn(ws[i]);
  }
}
