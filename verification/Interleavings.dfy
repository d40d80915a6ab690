/** Threads running through mutexes and condition variables in any order the
    timer allows: every section with interrupts off is one step. */
module Interleavings {
  import opened Lists
  import opened Threads
  import opened Sync

  /** Where a thread is in the code. */
  datatype Pc =
    | User                          // in its own code
    | LockWindow(m: nat)            // queued on the mutex, before `schedule`
    | LockReturn(m: nat)            // `schedule` called; returns from `mutex_lock` when it runs again
    | WaitWindow(c: nat, m: nat)    // queued on the condition, before `schedule`
    | WaitReturn(c: nat, m: nat)    // `schedule` called; then `mutex_lock`
    | Broadcasting(list: seq<nat>)  // the spliced waiters it has still to wake
    | Joining(t: nat)
    | Exiting
    | Created                       // not yet activated
    | Idling

  /** Thread `t` has returned from locking `m` and not yet unlocked it. */
  datatype Hold = Hold(m: nat, t: nat)

  /** `owner` names the thread a locked mutex was last given to. */
  datatype World = World(k: Kernel, pc: map<nat, Pc>, held: set<Hold>, owner: map<nat, nat>)

  // ---- the steps ----

  function At(w: World, pc: Pc): World { w.(pc := w.pc[Self(w.k) := pc]) }

  /** `mutex_lock(m)` by the running thread, at the beginning or at the end of
      `condition_wait`. */
  ghost predicate LockStep(w: World, w': World, m: nat)
  {
    && Known(w.k.sched) && Self(w.k) in w.pc && m in w.k.mutexes && w.k.sched.preempt == 0
    && (w.pc[Self(w.k)].User? || (w.pc[Self(w.k)].WaitReturn? && w.pc[Self(w.k)].m == m))
    && w'.k == LockSection(w.k, m)
    && (w.k.mutexes[m].locked ==>
          w'.pc == w.pc[Self(w.k) := LockWindow(m)] && w'.held == w.held && w'.owner == w.owner)
    && (!w.k.mutexes[m].locked ==>
          && w'.pc == w.pc[Self(w.k) := User] && w'.held == w.held + {Hold(m, Self(w.k))}
          && w'.owner == w.owner[m := Self(w.k)])
  }

  /** The call of `schedule` in `mutex_lock` and `condition_wait`. */
  ghost predicate ScheduleStep(w: World, w': World)
  {
    && Known(w.k.sched) && Self(w.k) in w.pc
    && (w.pc[Self(w.k)].LockWindow? || w.pc[Self(w.k)].WaitWindow?)
    && w' == World(w.k.(sched := ScheduleCalled(w.k.sched)),
         w.pc[Self(w.k) := match w.pc[Self(w.k)]
           case LockWindow(m) => LockReturn(m)
           case WaitWindow(c, m) => WaitReturn(c, m)
           case p => p], w.held, w.owner)
  }

  /** The return from `mutex_lock` after its `schedule`. */
  ghost predicate ReturnStep(w: World, w': World)
  {
    && Self(w.k) in w.pc && w.pc[Self(w.k)].LockReturn?
    && w' == World(w.k, w.pc[Self(w.k) := User], w.held + {Hold(w.pc[Self(w.k)].m, Self(w.k))}, w.owner)
  }

  /** Who has the mutex after `mutex_unlock`. */
  ghost function Passed(w: World, m: nat): map<nat, nat>
    requires m in w.k.mutexes
  {
    if w.k.mutexes[m].waitqueue == [] then w.owner - {m} else w.owner[m := w.k.mutexes[m].waitqueue[0]]
  }

  ghost predicate Waiters(k: Kernel)
  {
    && (forall m, t :: m in k.mutexes && t in k.mutexes[m].waitqueue ==> t in k.sched.threads)
    && (forall c, t :: c in k.conds && t in k.conds[c] ==> t in k.sched.threads)
  }

  /** `mutex_unlock(m)` by its holder. */
  ghost predicate UnlockStep(w: World, w': World, m: nat)
  {
    && Known(w.k.sched) && Waiters(w.k) && Self(w.k) in w.pc && w.pc[Self(w.k)].User?
    && m in w.k.mutexes && Hold(m, Self(w.k)) in w.held
    && w' == World(Unlocked(w.k, m), w.pc, w.held - {Hold(m, Self(w.k))}, Passed(w, m))
  }

  /** The section of `condition_wait(c, m)` by the holder of `m`. */
  ghost predicate WaitStep(w: World, w': World, c: nat, m: nat)
  {
    && Known(w.k.sched) && Waiters(w.k) && Self(w.k) in w.pc && w.pc[Self(w.k)].User? && w.k.sched.preempt == 0
    && m in w.k.mutexes && c in w.k.conds && Hold(m, Self(w.k)) in w.held
    && w' == World(WaitSection(w.k, c, m), w.pc[Self(w.k) := WaitWindow(c, m)],
         w.held - {Hold(m, Self(w.k))}, Passed(w, m))
  }

  ghost predicate SignalStep(w: World, w': World, c: nat)
  {
    && Known(w.k.sched) && Waiters(w.k) && Self(w.k) in w.pc && w.pc[Self(w.k)].User? && c in w.k.conds
    && w' == World(Signalled(w.k, c), w.pc, w.held, w.owner)
  }

  /** The section of `condition_broadcast(c)`. */
  ghost predicate SpliceStep(w: World, w': World, c: nat)
  {
    && Self(w.k) in w.pc && w.pc[Self(w.k)].User? && c in w.k.conds
    && w' == World(Spliced(w.k, c), w.pc[Self(w.k) := Broadcasting(w.k.conds[c])], w.held, w.owner)
  }

  /** One turn of the loop of `condition_broadcast`, or its end. */
  ghost predicate WakeStep(w: World, w': World)
  {
    && Known(w.k.sched) && Self(w.k) in w.pc && w.pc[Self(w.k)].Broadcasting?
    && (w.pc[Self(w.k)].list == [] ==> w' == At(w, User))
    && (w.pc[Self(w.k)].list != [] ==> WakeFirst(w, w', w.pc[Self(w.k)].list))
  }

  ghost predicate WakeFirst(w: World, w': World, list: seq<nat>)
    requires list != [] && Self(w.k) in w.pc
  {
    && list[0] in w.k.sched.threads
    && w' == World(w.k.(sched := Activated(w.k.sched, list[0])),
         w.pc[Self(w.k) := Broadcasting(list[1..])], w.held, w.owner)
  }

  ghost predicate TickStep(w: World, w': World)
  {
    && Known(w.k.sched)
    && w' == w.(k := w.k.(sched := Ticked(w.k.sched)))
  }

  /** `force_schedule`, as called by a thread that idles, joins or has ended. */
  ghost predicate ForceStep(w: World, w': World)
  {
    && Known(w.k.sched) && Self(w.k) in w.pc && w.k.sched.preempt == 0
    && (w.pc[Self(w.k)].Idling? || w.pc[Self(w.k)].Exiting? || w.pc[Self(w.k)].Joining?)
    && w' == w.(k := w.k.(sched := Rescheduled(w.k.sched, true)))
  }

  ghost predicate ExitStep(w: World, w': World)
  {
    && Self(w.k) in w.k.sched.threads && Self(w.k) in w.pc && w.pc[Self(w.k)].User? && w.k.sched.preempt == 0
    && w' == At(w.(k := w.k.(sched := WithState(w.k.sched, Self(w.k), Finishing))), Exiting)
  }

  /** `thread_join(t)`: begun, or over because `t` is FINISHED. */
  ghost predicate JoinStep(w: World, w': World, t: nat)
  {
    && t in w.k.sched.threads && Self(w.k) in w.pc
    && ((w.pc[Self(w.k)].User? && w.k.sched.preempt == 0 && w' == At(w, Joining(t)))
     || (w.pc[Self(w.k)] == Joining(t) && StateOf(w.k.sched, t) == Finished && w' == At(w, User)))
  }

  ghost predicate CreateStep(w: World, w': World, t: nat)
  {
    && Self(w.k) in w.pc && w.pc[Self(w.k)].User? && t !in w.k.sched.threads
    && w' == World(w.k.(sched := w.k.sched.(threads := w.k.sched.threads[t := Thread(Blocked, 0)])),
         w.pc[t := Created], w.held, w.owner)
  }

  /** `thread_activate` of a thread just created; its first code is its own. */
  ghost predicate ActivateStep(w: World, w': World, t: nat)
  {
    && Self(w.k) in w.pc && w.pc[Self(w.k)].User? && t in w.pc && w.pc[t].Created? && t in w.k.sched.threads
    && w' == World(w.k.(sched := Activated(w.k.sched, t)), w.pc[t := User], w.held, w.owner)
  }

  /** `disable_preempt` and `enable_preempt`, in pairs. */
  ghost predicate PreemptStep(w: World, w': World, on: bool)
  {
    && Self(w.k) in w.pc && w.pc[Self(w.k)].User? && (on ==> w.k.sched.preempt > 0)
    && w' == w.(k := w.k.(sched := w.k.sched.(preempt := if on then w.k.sched.preempt - 1 else w.k.sched.preempt + 1)))
  }

  /** `mutex_setup` and `condition_setup` of new ones. */
  ghost predicate SetupStep(w: World, w': World, x: nat)
  {
    && Self(w.k) in w.pc && w.pc[Self(w.k)].User?
    && ((x !in w.k.mutexes && w' == w.(k := w.k.(mutexes := w.k.mutexes[x := Mutex(false, [])])))
     || (x !in w.k.conds && w' == w.(k := w.k.(conds := w.k.conds[x := []]))))
  }

  datatype Event =
    | Lock(m: nat) | Schedule | Return | Unlock(m: nat) | Wait(c: nat, m: nat) | Signal(c: nat) | Splice(c: nat) | Wake
    | Tick | Force | Exit | Join(t: nat) | Create(t: nat) | Activate(t: nat) | Preempt(on: bool) | Setup(x: nat)

  ghost predicate Step(w: World, e: Event, w': World)
  {
    match e
    case Lock(m) => LockStep(w, w', m)
    case Schedule => ScheduleStep(w, w')
    case Return => ReturnStep(w, w')
    case Unlock(m) => UnlockStep(w, w', m)
    case Wait(c, m) => WaitStep(w, w', c, m)
    case Signal(c) => SignalStep(w, w', c)
    case Splice(c) => SpliceStep(w, w', c)
    case Wake => WakeStep(w, w')
    case Tick => TickStep(w, w')
    case Force => ForceStep(w, w')
    case Exit => ExitStep(w, w')
    case Join(t) => JoinStep(w, w', t)
    case Create(t) => CreateStep(w, w', t)
    case Activate(t) => ActivateStep(w, w', t)
    case Preempt(on) => PreemptStep(w, w', on)
    case Setup(x) => SetupStep(w, w', x)
  }

  // ---- the invariant ----

  predicate AtLock(p: Pc, m: nat) { (p.LockWindow? || p.LockReturn?) && p.m == m }

  predicate AtWait(p: Pc, c: nat) { (p.WaitWindow? || p.WaitReturn?) && p.c == c }

  /** The states that go with a place in the code. */
  predicate Fits(p: Pc, s: ThreadState)
  {
    match p
    case User => s == Active
    case Broadcasting(_) => s == Active
    case Joining(_) => s == Active
    case Exiting => s == Finishing || s == Finished
    case Created => s == Blocked
    case Idling => s == Idle
    case _ => s == Active || s == Blocked
  }

  ghost predicate PcOk(s: Sched, pc: map<nat, Pc>)
  {
    && pc.Keys == s.threads.Keys
    && (forall t :: t in s.threads ==> Fits(pc[t], StateOf(s, t)))
    && s.current in s.threads
    && (StateOf(s, s.current) == Blocked ==> pc[s.current].LockWindow? || pc[s.current].WaitWindow?)
    && (s.preempt > 0 ==> pc[s.current].User? || pc[s.current].Broadcasting?)
  }

  ghost predicate IsBlocked(s: Sched, t: nat) { t in s.threads && StateOf(s, t) == Blocked }

  /** The waiters of a mutex: BLOCKED, each in `mutex_lock` of this mutex. */
  ghost predicate LockQueue(s: Sched, pc: map<nat, Pc>, m: nat, q: seq<nat>)
  {
    NoDup(q) && forall t :: t in q ==> t in pc && AtLock(pc[t], m) && IsBlocked(s, t)
  }

  ghost predicate WaitQueue(s: Sched, pc: map<nat, Pc>, c: nat, q: seq<nat>)
  {
    NoDup(q) && forall t :: t in q ==> t in pc && AtWait(pc[t], c) && IsBlocked(s, t)
  }

  /** The threads that `b` has still to wake. */
  function ToWake(pc: map<nat, Pc>, b: nat): seq<nat>
  {
    if b in pc && pc[b].Broadcasting? then pc[b].list else []
  }

  /** `t` waits on condition `c` in one of the ways there are. */
  ghost predicate WaitsOn(k: Kernel, pc: map<nat, Pc>, t: nat, c: nat)
  {
    (c in k.conds && t in k.conds[c]) || exists b :: t in ToWake(pc, b)
  }

  ghost predicate QueuesOk(k: Kernel, pc: map<nat, Pc>)
  {
    && (forall m :: m in k.mutexes ==> LockQueue(k.sched, pc, m, k.mutexes[m].waitqueue))
    && (forall c :: c in k.conds ==> WaitQueue(k.sched, pc, c, k.conds[c]))
    && (forall b :: NoDup(ToWake(pc, b)))
    && (forall b, t :: t in ToWake(pc, b) ==>
          t in pc && (pc[t].WaitWindow? || pc[t].WaitReturn?) && IsBlocked(k.sched, t))
    && (forall b, c, t :: t in ToWake(pc, b) && c in k.conds ==> t !in k.conds[c])
    && (forall b, b', t :: t in ToWake(pc, b) && t in ToWake(pc, b') ==> b == b')
  }

  /** A BLOCKED thread is on the queue its place in the code says. */
  ghost predicate NoneLost(k: Kernel, pc: map<nat, Pc>)
  {
    && (forall t, m :: IsBlocked(k.sched, t) && t in pc && AtLock(pc[t], m) ==>
          m in k.mutexes && t in k.mutexes[m].waitqueue)
    && (forall t, c :: IsBlocked(k.sched, t) && t in pc && AtWait(pc[t], c) ==> WaitsOn(k, pc, t, c))
  }

  /** A free mutex has no owner and no waiters; a locked one has an owner, and
      only the owner can be past `mutex_lock`. */
  ghost predicate OwnersOk(k: Kernel, pc: map<nat, Pc>, held: set<Hold>, owner: map<nat, nat>)
  {
    && (forall m :: m in k.mutexes ==> (k.mutexes[m].locked <==> m in owner))
    && (forall m :: m in owner ==> m in k.mutexes)
    && (forall m :: m in k.mutexes && !k.mutexes[m].locked ==> k.mutexes[m].waitqueue == [])
    && (forall h :: h in held ==> h.m in owner && owner[h.m] == h.t)
    && (forall t, m :: t in pc && AtLock(pc[t], m) && !IsBlocked(k.sched, t) ==>
          m in owner && owner[m] == t && Hold(m, t) !in held)
  }

  ghost predicate Inv(w: World)
  {
    && SchedOk(w.k.sched)
    && PcOk(w.k.sched, w.pc)
    && QueuesOk(w.k, w.pc)
    && NoneLost(w.k, w.pc)
    && OwnersOk(w.k, w.pc, w.held, w.owner)
  }

  // ---- every step keeps it ----

  predicate IsWaiting(p: Pc) { p.LockWindow? || p.LockReturn? || p.WaitWindow? || p.WaitReturn? }

  /** The same threads wait at the same places, and are blocked there or not. */
  ghost predicate SameWaits(s: Sched, pc: map<nat, Pc>, s': Sched, pc': map<nat, Pc>)
  {
    && (forall t :: t in pc' && IsWaiting(pc'[t]) ==> (IsBlocked(s', t) <==> IsBlocked(s, t)))
    && (forall t :: t in pc ==> t in pc')
    && (forall t, m :: t in pc' && AtLock(pc'[t], m) <==> t in pc && AtLock(pc[t], m))
    && (forall t, c :: t in pc' && AtWait(pc'[t], c) <==> t in pc && AtWait(pc[t], c))
    && (forall b :: ToWake(pc', b) == ToWake(pc, b))
  }

  lemma QuietQueues(k: Kernel, pc: map<nat, Pc>, s': Sched, pc': map<nat, Pc>)
    requires QueuesOk(k, pc) && SameWaits(k.sched, pc, s', pc')
    ensures QueuesOk(k.(sched := s'), pc')
  {
    hide NoDup;
    forall b, t | t in ToWake(pc', b)
      ensures t in pc' && (pc'[t].WaitWindow? || pc'[t].WaitReturn?)
    {
      assert t in ToWake(pc, b);
      assert AtWait(pc[t], pc[t].c);
      assert AtWait(pc'[t], pc[t].c);
    }
    forall m | m in k.mutexes ensures LockQueue(s', pc', m, k.mutexes[m].waitqueue)
    {
      assert LockQueue(k.sched, pc, m, k.mutexes[m].waitqueue);
    }
    forall c | c in k.conds ensures WaitQueue(s', pc', c, k.conds[c])
    {
      assert WaitQueue(k.sched, pc, c, k.conds[c]);
    }
  }

  lemma QuietNoneLost(k: Kernel, pc: map<nat, Pc>, s': Sched, pc': map<nat, Pc>)
    requires NoneLost(k, pc) && SameWaits(k.sched, pc, s', pc')
    ensures NoneLost(k.(sched := s'), pc')
  {
    forall t, c | IsBlocked(s', t) && t in pc' && AtWait(pc'[t], c) ensures WaitsOn(k.(sched := s'), pc', t, c)
    {
      assert IsBlocked(k.sched, t);
      assert WaitsOn(k, pc, t, c);
      if !(c in k.conds && t in k.conds[c]) {
        var b :| t in ToWake(pc, b);
        assert t in ToWake(pc', b);
      }
    }
  }

  /** A step that leaves the waits alone leaves the queues and owners alone. */
  lemma Quiet(k: Kernel, pc: map<nat, Pc>, held: set<Hold>, owner: map<nat, nat>, s': Sched, pc': map<nat, Pc>)
    requires QueuesOk(k, pc) && NoneLost(k, pc) && OwnersOk(k, pc, held, owner)
    requires SameWaits(k.sched, pc, s', pc')
    ensures QueuesOk(k.(sched := s'), pc') && NoneLost(k.(sched := s'), pc')
    ensures OwnersOk(k.(sched := s'), pc', held, owner)
  {
    QuietQueues(k, pc, s', pc');
    QuietNoneLost(k, pc, s', pc');
  }

  /** The scheduler moved the processor on. */
  ghost predicate Moved(s: Sched, s': Sched)
  {
    && SchedOk(s') && StatesKept(s, s') && s.current in s.threads
    && StateOf(s', s.current) != Finishing
    && (StateOf(s, s.current) == Blocked ==> s'.current != s.current)
    && (s'.current != s.current ==> StateOf(s, s'.current) in {Active, Idle})
  }

  function OnSched(w: World, s: Sched): World { World(w.k.(sched := s), w.pc, w.held, w.owner) }

  lemma MovedKeeps(w: World, s': Sched)
    requires Inv(w) && w.k.sched.preempt == 0 && Moved(w.k.sched, s')
    ensures Inv(OnSched(w, s'))
  {
    hide QueuesOk, NoneLost, OwnersOk;
    Quiet(w.k, w.pc, w.held, w.owner, s', w.pc);
  }

  lemma RescheduledMoves(s: Sched, force: bool)
    requires SchedOk(s)
    ensures Moved(s, Rescheduled(s, force))
  {
    RescheduledOk(s, force);
  }

  function Later(s: Sched): Sched { s.(now := s.now + 1) }

  lemma ClockKeeps(w: World)
    requires Inv(w)
    ensures Inv(OnSched(w, Later(w.k.sched)))
  {
    Quiet(w.k, w.pc, w.held, w.owner, Later(w.k.sched), w.pc);
  }

  lemma TickKeeps(w: World, w': World)
    requires Inv(w) && TickStep(w, w')
    ensures Inv(w')
  {
    var w1 := OnSched(w, Later(w.k.sched));
    ClockKeeps(w);
    if w.k.sched.preempt == 0 {
      RescheduledMoves(w1.k.sched, false);
      MovedKeeps(w1, Rescheduled(w1.k.sched, false));
      assert w' == OnSched(w1, Rescheduled(w1.k.sched, false));
    } else {
      assert w' == w1;
    }
  }

  lemma ForceKeeps(w: World, w': World)
    requires Inv(w) && ForceStep(w, w')
    ensures Inv(w')
  {
    RescheduledMoves(w.k.sched, true);
    MovedKeeps(w, Rescheduled(w.k.sched, true));
  }

  lemma ScheduleKeeps(w: World, w': World)
    requires Inv(w) && ScheduleStep(w, w')
    ensures Inv(w')
  {
    var s, t := w.k.sched, Self(w.k);
    RescheduledMoves(s, false);
    MovedKeeps(w, Rescheduled(s, false));
    WindowPassed(OnSched(w, Rescheduled(s, false)), t, w'.pc[t]);
  }

  /** Out of the window before `schedule`, blocked and switched away or neither. */
  lemma WindowPassed(w: World, t: nat, p: Pc)
    requires Inv(w) && t in w.pc && (t == Self(w.k) ==> !IsBlocked(w.k.sched, t))
    requires w.k.sched.preempt == 0
    requires match w.pc[t]
      case LockWindow(m) => p == LockReturn(m)
      case WaitWindow(c, m) => p == WaitReturn(c, m)
      case _ => false
    ensures Inv(w.(pc := w.pc[t := p]))
  {
    Quiet(w.k, w.pc, w.held, w.owner, w.k.sched, w.pc[t := p]);
    assert w.k.(sched := w.k.sched) == w.k;
  }

  /** A thread that returns from `mutex_lock` after waiting is the owner. */
  lemma ReturnsAsOwner(w: World, t: nat, m: nat)
    requires Inv(w) && t in w.pc && AtLock(w.pc[t], m) && !IsBlocked(w.k.sched, t)
    ensures m in w.owner && w.owner[m] == t && forall u :: Hold(m, u) !in w.held
  {
    assert forall h :: h in w.held && h.m == m ==> h.t == t;
  }

  lemma ReturnKeeps(w: World, w': World)
    requires Inv(w) && ReturnStep(w, w')
    ensures Inv(w')
  {
    var t, m := Self(w.k), w.pc[Self(w.k)].m;
    ReturnsAsOwner(w, t, m);
    LeavesLock(w.k, w.pc, w.held, w.owner, t, User);
    Held(w.k, w'.pc, w.held, w.owner, t, m);
  }

  lemma Held(k: Kernel, pc: map<nat, Pc>, held: set<Hold>, owner: map<nat, nat>, t: nat, m: nat)
    requires OwnersOk(k, pc, held, owner) && m in owner && owner[m] == t && t in pc && pc[t].User?
    ensures OwnersOk(k, pc, held + {Hold(m, t)}, owner)
  {
  }

  /** The running thread, which waits for nothing, goes on to code where it
      waits for nothing. */
  lemma LeavesLock(k: Kernel, pc: map<nat, Pc>, held: set<Hold>, owner: map<nat, nat>, t: nat, p: Pc)
    requires QueuesOk(k, pc) && NoneLost(k, pc) && OwnersOk(k, pc, held, owner)
    requires t in pc && !IsBlocked(k.sched, t) && !pc[t].Broadcasting? && p.User?
    ensures QueuesOk(k, pc[t := p]) && NoneLost(k, pc[t := p]) && OwnersOk(k, pc[t := p], held, owner)
  {
    LeavesQueues(k, pc, t, p);
    LeavesNone(k, pc, t, p);
  }

  lemma LeavesQueues(k: Kernel, pc: map<nat, Pc>, t: nat, p: Pc)
    requires QueuesOk(k, pc) && t in pc && !IsBlocked(k.sched, t) && !pc[t].Broadcasting? && p.User?
    ensures QueuesOk(k, pc[t := p])
  {
    var pc' := pc[t := p];
    assert forall b :: ToWake(pc', b) == ToWake(pc, b);
    forall m | m in k.mutexes ensures LockQueue(k.sched, pc', m, k.mutexes[m].waitqueue)
    {
      assert LockQueue(k.sched, pc, m, k.mutexes[m].waitqueue);
    }
    forall c | c in k.conds ensures WaitQueue(k.sched, pc', c, k.conds[c])
    {
      assert WaitQueue(k.sched, pc, c, k.conds[c]);
    }
  }

  lemma LeavesNone(k: Kernel, pc: map<nat, Pc>, t: nat, p: Pc)
    requires NoneLost(k, pc) && t in pc && !pc[t].Broadcasting? && p.User?
    ensures NoneLost(k, pc[t := p])
  {
    var pc' := pc[t := p];
    assert forall b :: ToWake(pc', b) == ToWake(pc, b);
    forall u, c | IsBlocked(k.sched, u) && u in pc' && AtWait(pc'[u], c) ensures WaitsOn(k, pc', u, c)
    {
      assert WaitsOn(k, pc, u, c);
      if !(c in k.conds && u in k.conds[c]) {
        var b :| u in ToWake(pc, b);
        assert u in ToWake(pc', b);
      }
    }
  }

  function SetMutex(k: Kernel, m: nat, locked: bool, q: seq<nat>): Kernel
  {
    Kernel(k.sched, k.mutexes[m := Mutex(locked, q)], k.conds)
  }

  /** Who owns a mutex is no matter of the queues. */
  lemma FlagSet(k: Kernel, pc: map<nat, Pc>, m: nat, locked: bool)
    requires QueuesOk(k, pc) && NoneLost(k, pc) && m in k.mutexes
    ensures QueuesOk(SetMutex(k, m, locked, k.mutexes[m].waitqueue), pc)
    ensures NoneLost(SetMutex(k, m, locked, k.mutexes[m].waitqueue), pc)
  {
    var k' := SetMutex(k, m, locked, k.mutexes[m].waitqueue);
    forall n | n in k'.mutexes ensures LockQueue(k'.sched, pc, n, k'.mutexes[n].waitqueue)
    {
      assert LockQueue(k.sched, pc, n, k.mutexes[n].waitqueue);
    }
    forall t, c | IsBlocked(k'.sched, t) && t in pc && AtWait(pc[t], c) ensures WaitsOn(k', pc, t, c)
    {
      assert WaitsOn(k, pc, t, c);
    }
  }

  lemma OwnerTaken(k: Kernel, pc: map<nat, Pc>, held: set<Hold>, owner: map<nat, nat>, t: nat, m: nat)
    requires OwnersOk(k, pc, held, owner) && m in k.mutexes && !k.mutexes[m].locked
    ensures OwnersOk(SetMutex(k, m, true, k.mutexes[m].waitqueue), pc, held + {Hold(m, t)}, owner[m := t])
  {
    assert m !in owner && forall h :: h in held ==> h.m != m;
  }

  /** A free mutex taken. */
  lemma TakeKeeps(w: World, w': World, m: nat)
    requires Inv(w) && LockStep(w, w', m) && !w.k.mutexes[m].locked
    ensures Inv(w')
  {
    var t := Self(w.k);
    hide QueuesOk, NoneLost, OwnersOk, SchedBut;
    LeavesLock(w.k, w.pc, w.held, w.owner, t, User);
    FlagSet(w.k, w'.pc, m, true);
    OwnerTaken(w.k, w'.pc, w.held, w.owner, t, m);
  }

  lemma BlockOk(s: Sched)
    requires SchedOk(s) && StateOf(s, s.current) == Active
    ensures SchedOk(Block(s)) && forall t :: IsBlocked(Block(s), t) <==> IsBlocked(s, t) || t == s.current
  {
  }

  /** `t` is on no queue and on nobody's list. */
  ghost predicate Nowhere(k: Kernel, pc: map<nat, Pc>, t: nat)
  {
    && (forall m :: m in k.mutexes ==> t !in k.mutexes[m].waitqueue)
    && (forall c :: c in k.conds ==> t !in k.conds[c])
    && (forall b :: t !in ToWake(pc, b))
  }

  lemma NotBlockedNowhere(k: Kernel, pc: map<nat, Pc>, t: nat)
    requires QueuesOk(k, pc) && !IsBlocked(k.sched, t)
    ensures Nowhere(k, pc, t)
  {
    forall m | m in k.mutexes ensures t !in k.mutexes[m].waitqueue
    {
      assert LockQueue(k.sched, pc, m, k.mutexes[m].waitqueue);
    }
    forall c | c in k.conds ensures t !in k.conds[c]
    {
      assert WaitQueue(k.sched, pc, c, k.conds[c]);
    }
  }

  /** One more blocked thread, on no queue: what was on the queues may stay. */
  lemma BlockedAside(k: Kernel, pc: map<nat, Pc>, s': Sched, t: nat, p: Pc)
    requires QueuesOk(k, pc) && Nowhere(k, pc, t)
    requires t in pc && !pc[t].Broadcasting? && (p.LockWindow? || p.WaitWindow?)
    requires forall u :: IsBlocked(s', u) <==> IsBlocked(k.sched, u) || u == t
    ensures QueuesOk(k.(sched := s'), pc[t := p]) && Nowhere(k.(sched := s'), pc[t := p], t)
  {
    var pc' := pc[t := p];
    assert forall b :: ToWake(pc', b) == ToWake(pc, b);
    forall m | m in k.mutexes ensures LockQueue(s', pc', m, k.mutexes[m].waitqueue)
    {
      assert LockQueue(k.sched, pc, m, k.mutexes[m].waitqueue);
    }
    forall c | c in k.conds ensures WaitQueue(s', pc', c, k.conds[c])
    {
      assert WaitQueue(k.sched, pc, c, k.conds[c]);
    }
  }

  /** A thread not lost in `k` is not lost in `k'`, where its queue is the same or longer. */
  lemma StillFound(k: Kernel, pc: map<nat, Pc>, k': Kernel, pc': map<nat, Pc>, t: nat)
    requires NoneLost(k, pc) && IsBlocked(k.sched, t) && t in pc && t in pc' && pc'[t] == pc[t]
    requires forall m :: m in k.mutexes && t in k.mutexes[m].waitqueue ==>
      m in k'.mutexes && t in k'.mutexes[m].waitqueue
    requires forall c :: c in k.conds && t in k.conds[c] ==> WaitsOn(k', pc', t, c)
    requires forall b :: t in ToWake(pc, b) ==> t in ToWake(pc', b)
    ensures forall m :: AtLock(pc'[t], m) ==> m in k'.mutexes && t in k'.mutexes[m].waitqueue
    ensures forall c :: AtWait(pc'[t], c) ==> WaitsOn(k', pc', t, c)
  {
    forall c | AtWait(pc'[t], c) ensures WaitsOn(k', pc', t, c)
    {
      assert WaitsOn(k, pc, t, c);
      if !(c in k.conds && t in k.conds[c]) {
        var b :| t in ToWake(pc, b);
        assert t in ToWake(pc', b);
      }
    }
  }

  /** The running thread blocks at the end of a mutex's queue. */
  lemma EnqueueKeeps(w: World, w': World, m: nat)
    requires Inv(w) && LockStep(w, w', m) && w.k.mutexes[m].locked
    ensures Inv(w')
  {
    var t, k := Self(w.k), w.k;
    hide QueuesOk, NoneLost, SchedBut;
    BlockOk(k.sched);
    EnqueuedQueues(w, w', m);
    EnqueuedFound(w, w', m);
    OwnersKept(k, w.pc, w.held, w.owner, w'.k, w'.pc);
  }

  lemma LockKeeps(w: World, w': World, m: nat)
    requires Inv(w) && LockStep(w, w', m)
    ensures Inv(w')
  {
    hide Inv;
    if w.k.mutexes[m].locked { EnqueueKeeps(w, w', m); } else { TakeKeeps(w, w', m); }
  }

  /** More waiters, the same owners. */
  lemma OwnersKept(k: Kernel, pc: map<nat, Pc>, held: set<Hold>, owner: map<nat, nat>, k': Kernel, pc': map<nat, Pc>)
    requires OwnersOk(k, pc, held, owner) && k'.mutexes.Keys == k.mutexes.Keys
    requires forall m :: m in k.mutexes ==> k'.mutexes[m].locked == k.mutexes[m].locked
    requires forall m :: m in k.mutexes && !k.mutexes[m].locked ==> k'.mutexes[m].waitqueue == []
    requires forall t, m :: t in pc' && AtLock(pc'[t], m) && !IsBlocked(k'.sched, t) ==>
      t in pc && AtLock(pc[t], m) && !IsBlocked(k.sched, t)
    ensures OwnersOk(k', pc', held, owner)
  {
  }

  lemma LockQueueGrows(k: Kernel, pc: map<nat, Pc>, m: nat, t: nat)
    requires QueuesOk(k, pc) && Nowhere(k, pc, t) && m in k.mutexes
    requires t in pc && AtLock(pc[t], m) && IsBlocked(k.sched, t)
    ensures QueuesOk(Kernel(k.sched, k.mutexes[m := Mutex(true, k.mutexes[m].waitqueue + [t])], k.conds), pc)
  {
    var q := k.mutexes[m].waitqueue;
    Appended(q, t);
    assert LockQueue(k.sched, pc, m, q);
    assert LockQueue(k.sched, pc, m, q + [t]);
  }

  lemma EnqueuedQueues(w: World, w': World, m: nat)
    requires Inv(w) && LockStep(w, w', m) && w.k.mutexes[m].locked
    ensures QueuesOk(w'.k, w'.pc)
  {
    var t, k := Self(w.k), w.k;
    BlockOk(k.sched);
    NotBlockedNowhere(k, w.pc, t);
    BlockedAside(k, w.pc, Block(k.sched), t, LockWindow(m));
    LockQueueGrows(Kernel(Block(k.sched), k.mutexes, k.conds), w'.pc, m, t);
  }

  lemma EnqueuedFound(w: World, w': World, m: nat)
    requires Inv(w) && LockStep(w, w', m) && w.k.mutexes[m].locked
    ensures NoneLost(w'.k, w'.pc)
  {
    hide SchedBut, QueuesOk, OwnersOk, Fits;
    var t, q := Self(w.k), w.k.mutexes[m].waitqueue;
    Appended(q, t);
    forall u | IsBlocked(w'.k.sched, u) && u in w'.pc
      ensures forall n :: AtLock(w'.pc[u], n) ==> n in w'.k.mutexes && u in w'.k.mutexes[n].waitqueue
      ensures forall c :: AtWait(w'.pc[u], c) ==> WaitsOn(w'.k, w'.pc, u, c)
    {
      if u != t { StillFound(w.k, w.pc, w'.k, w'.pc, u); }
    }
  }

  lemma Tail(q: seq<nat>)
    requires NoDup(q) && q != []
    ensures NoDup(q[1..]) && forall t :: t in q[1..] <==> t in q && t != q[0]
  {
    forall t ensures t in q[1..] <==> t in q && t != q[0]
    {
      if t in q && t != q[0] {
        var i :| 0 <= i < |q| && q[i] == t;
        assert q[1..][i - 1] == t;
      }
    }
  }

  /** The scheduler after thread `t` was woken. */
  ghost predicate Woken(s: Sched, s': Sched, t: nat)
  {
    && IsBlocked(s, t) && s' == Activated(s, t)
    && (forall u :: IsBlocked(s', u) <==> IsBlocked(s, u) && u != t)
  }

  lemma WokenOk(s: Sched, pc: map<nat, Pc>, t: nat)
    requires SchedOk(s) && PcOk(s, pc) && IsBlocked(s, t) && t != s.current && !pc[t].Created?
    ensures Woken(s, Activated(s, t), t) && SchedOk(Activated(s, t)) && PcOk(Activated(s, t), pc)
  {
    ActivatedOk(s, t);
  }

  /** The first waiter of a mutex woken and off the queue. */
  lemma LockQueueShrinks(k: Kernel, pc: map<nat, Pc>, m: nat, s': Sched)
    requires QueuesOk(k, pc) && m in k.mutexes && k.mutexes[m].waitqueue != []
    requires Woken(k.sched, s', k.mutexes[m].waitqueue[0])
    ensures QueuesOk(SetMutex(k.(sched := s'), m, true, k.mutexes[m].waitqueue[1..]), pc)
  {
    var q := k.mutexes[m].waitqueue;
    var k' := SetMutex(k.(sched := s'), m, true, q[1..]);
    assert LockQueue(k.sched, pc, m, q) && q[0] in q;
    Tail(q);
    forall n | n in k'.mutexes ensures LockQueue(s', pc, n, k'.mutexes[n].waitqueue)
    {
      assert LockQueue(k.sched, pc, n, k.mutexes[n].waitqueue);
    }
    forall c | c in k.conds ensures WaitQueue(s', pc, c, k.conds[c])
    {
      assert WaitQueue(k.sched, pc, c, k.conds[c]);
    }
  }

  lemma LockShrunkFound(k: Kernel, pc: map<nat, Pc>, m: nat, s': Sched)
    requires QueuesOk(k, pc) && NoneLost(k, pc) && m in k.mutexes && k.mutexes[m].waitqueue != []
    requires Woken(k.sched, s', k.mutexes[m].waitqueue[0])
    ensures NoneLost(SetMutex(k.(sched := s'), m, true, k.mutexes[m].waitqueue[1..]), pc)
  {
    var q := k.mutexes[m].waitqueue;
    var k' := SetMutex(k.(sched := s'), m, true, q[1..]);
    assert LockQueue(k.sched, pc, m, q);
    Tail(q);
    forall u | IsBlocked(s', u) && u in pc
      ensures forall n :: AtLock(pc[u], n) ==> n in k'.mutexes && u in k'.mutexes[n].waitqueue
      ensures forall c :: AtWait(pc[u], c) ==> WaitsOn(k', pc, u, c)
    {
      StillFound(k, pc, k', pc, u);
    }
  }

  /** The mutex goes to its first waiter. */
  lemma OwnerPassed(k: Kernel, pc: map<nat, Pc>, held: set<Hold>, owner: map<nat, nat>, m: nat, t: nat, s': Sched)
    requires OwnersOk(k, pc, held, owner) && QueuesOk(k, pc) && Hold(m, t) in held
    requires k.mutexes[m].waitqueue != [] && Woken(k.sched, s', k.mutexes[m].waitqueue[0])
    requires t in pc && !AtLock(pc[t], m)
    ensures OwnersOk(SetMutex(k.(sched := s'), m, true, k.mutexes[m].waitqueue[1..]), pc,
      held - {Hold(m, t)}, owner[m := k.mutexes[m].waitqueue[0]])
  {
    var q := k.mutexes[m].waitqueue;
    assert LockQueue(k.sched, pc, m, q) && q[0] in q;
    assert forall h :: h in held && h.m == m ==> h == Hold(m, t);
  }

  /** The mutex is free. */
  lemma OwnerGone(k: Kernel, pc: map<nat, Pc>, held: set<Hold>, owner: map<nat, nat>, m: nat, t: nat)
    requires OwnersOk(k, pc, held, owner) && Hold(m, t) in held && m in k.mutexes && k.mutexes[m].waitqueue == []
    ensures OwnersOk(SetMutex(k, m, false, []), pc, held - {Hold(m, t)}, owner - {m})
  {
    assert forall h :: h in held && h.m == m ==> h == Hold(m, t);
    forall u, n | u in pc && AtLock(pc[u], n) && !IsBlocked(k.sched, u) ensures n != m { }
  }

  /** The mutex released, by `mutex_unlock` or within `condition_wait`. */
  lemma ReleaseKeeps(w: World, m: nat)
    requires Inv(w) && Waiters(w.k) && m in w.k.mutexes && Hold(m, Self(w.k)) in w.held && !AtLock(w.pc[Self(w.k)], m)
    ensures Inv(World(Unlocked(w.k, m), w.pc, w.held - {Hold(m, Self(w.k))}, Passed(w, m)))
  {
    var t, k, q := Self(w.k), w.k, w.k.mutexes[m].waitqueue;
    if q == [] {
      FlagSet(k, w.pc, m, false);
      OwnerGone(k, w.pc, w.held, w.owner, m, t);
    } else {
      assert LockQueue(k.sched, w.pc, m, q) && q[0] in q;
      WokenOk(k.sched, w.pc, q[0]);
      var s' := Activated(k.sched, q[0]);
      LockQueueShrinks(k, w.pc, m, s');
      LockShrunkFound(k, w.pc, m, s');
      OwnerPassed(k, w.pc, w.held, w.owner, m, t, s');
      assert Unlocked(k, m) == SetMutex(k.(sched := s'), m, true, q[1..]);
    }
  }

  lemma UnlockKeeps(w: World, w': World, m: nat)
    requires Inv(w) && UnlockStep(w, w', m)
    ensures Inv(w')
  {
    ReleaseKeeps(w, m);
  }

  function SetCond(k: Kernel, c: nat, q: seq<nat>): Kernel { Kernel(k.sched, k.mutexes, k.conds[c := q]) }

  /** The running thread blocked and queued on a condition, its mutex not yet released. */
  function Queued(w: World, c: nat, m: nat): World
    requires c in w.k.conds && Self(w.k) in w.k.sched.threads
  {
    World(Kernel(Block(w.k.sched), w.k.mutexes, w.k.conds[c := w.k.conds[c] + [Self(w.k)]]),
      w.pc[Self(w.k) := WaitWindow(c, m)], w.held, w.owner)
  }

  lemma QueuedQueues(w: World, c: nat, m: nat)
    requires Inv(w) && c in w.k.conds && w.pc[Self(w.k)].User?
    ensures QueuesOk(Queued(w, c, m).k, Queued(w, c, m).pc)
  {
    var t, k := Self(w.k), w.k;
    BlockOk(k.sched);
    NotBlockedNowhere(k, w.pc, t);
    BlockedAside(k, w.pc, Block(k.sched), t, WaitWindow(c, m));
    WaitQueueGrows(Kernel(Block(k.sched), k.mutexes, k.conds), Queued(w, c, m).pc, c, t);
  }

  lemma WaitQueueGrows(k: Kernel, pc: map<nat, Pc>, c: nat, t: nat)
    requires QueuesOk(k, pc) && Nowhere(k, pc, t) && c in k.conds
    requires t in pc && AtWait(pc[t], c) && IsBlocked(k.sched, t)
    ensures QueuesOk(SetCond(k, c, k.conds[c] + [t]), pc)
  {
    var q := k.conds[c];
    Appended(q, t);
    assert WaitQueue(k.sched, pc, c, q);
    assert WaitQueue(k.sched, pc, c, q + [t]);
  }

  lemma QueuedFound(w: World, c: nat, m: nat)
    requires Inv(w) && c in w.k.conds && w.pc[Self(w.k)].User?
    ensures NoneLost(Queued(w, c, m).k, Queued(w, c, m).pc)
  {
    var t, w' := Self(w.k), Queued(w, c, m);
    Appended(w.k.conds[c], t);
    forall u | IsBlocked(w'.k.sched, u) && u in w'.pc
      ensures forall n :: AtLock(w'.pc[u], n) ==> n in w'.k.mutexes && u in w'.k.mutexes[n].waitqueue
      ensures forall d :: AtWait(w'.pc[u], d) ==> WaitsOn(w'.k, w'.pc, u, d)
    {
      if u != t { StillFound(w.k, w.pc, w'.k, w'.pc, u); }
    }
  }

  lemma QueuedKeeps(w: World, c: nat, m: nat)
    requires Inv(w) && c in w.k.conds && w.pc[Self(w.k)].User? && w.k.sched.preempt == 0
    ensures Inv(Queued(w, c, m))
  {
    hide QueuesOk, NoneLost, SchedBut;
    BlockOk(w.k.sched);
    QueuedQueues(w, c, m);
    QueuedFound(w, c, m);
    OwnersKept(w.k, w.pc, w.held, w.owner, Queued(w, c, m).k, Queued(w, c, m).pc);
  }

  /** Queued on the condition, then the mutex released, in one section. */
  lemma WaitKeeps(w: World, w': World, c: nat, m: nat)
    requires Inv(w) && WaitStep(w, w', c, m)
    ensures Inv(w')
  {
    QueuedKeeps(w, c, m);
    Appended(w.k.conds[c], Self(w.k));
    ReleaseKeeps(Queued(w, c, m), m);
  }

  /** The oldest waiter of a condition woken and off the queue. */
  lemma SignalKeeps(w: World, w': World, c: nat)
    requires Inv(w) && SignalStep(w, w', c)
    ensures Inv(w')
  {
    var k, q := w.k, w.k.conds[c];
    if q != [] {
      assert WaitQueue(k.sched, w.pc, c, q) && q[0] in q;
      WokenOk(k.sched, w.pc, q[0]);
      var s' := Activated(k.sched, q[0]);
      WaitQueueShrinks(k, w.pc, c, s');
      WaitShrunkFound(k, w.pc, c, s');
      OwnersKept(k, w.pc, w.held, w.owner, w'.k, w.pc);
    }
  }

  lemma WaitQueueShrinks(k: Kernel, pc: map<nat, Pc>, c: nat, s': Sched)
    requires QueuesOk(k, pc) && c in k.conds && k.conds[c] != [] && Woken(k.sched, s', k.conds[c][0])
    ensures QueuesOk(SetCond(k.(sched := s'), c, k.conds[c][1..]), pc)
  {
    var q := k.conds[c];
    var k' := SetCond(k.(sched := s'), c, q[1..]);
    assert WaitQueue(k.sched, pc, c, q) && q[0] in q;
    Tail(q);
    forall n | n in k.mutexes ensures LockQueue(s', pc, n, k.mutexes[n].waitqueue)
    {
      assert LockQueue(k.sched, pc, n, k.mutexes[n].waitqueue);
    }
    forall d | d in k'.conds ensures WaitQueue(s', pc, d, k'.conds[d])
    {
      assert WaitQueue(k.sched, pc, d, k.conds[d]);
    }
  }

  lemma WaitShrunkFound(k: Kernel, pc: map<nat, Pc>, c: nat, s': Sched)
    requires QueuesOk(k, pc) && NoneLost(k, pc)
    requires c in k.conds && k.conds[c] != [] && Woken(k.sched, s', k.conds[c][0])
    ensures NoneLost(SetCond(k.(sched := s'), c, k.conds[c][1..]), pc)
  {
    var q := k.conds[c];
    var k' := SetCond(k.(sched := s'), c, q[1..]);
    assert WaitQueue(k.sched, pc, c, q);
    Tail(q);
    forall u | IsBlocked(s', u) && u in pc
      ensures forall n :: AtLock(pc[u], n) ==> n in k'.mutexes && u in k'.mutexes[n].waitqueue
      ensures forall d :: AtWait(pc[u], d) ==> WaitsOn(k', pc, u, d)
    {
      StillFound(k, pc, k', pc, u);
    }
  }

  /** The waiters of a condition move to the broadcaster's list. */
  lemma SpliceKeeps(w: World, w': World, c: nat)
    requires Inv(w) && SpliceStep(w, w', c)
    ensures Inv(w')
  {
    SplicedQueues(w, w', c);
    SplicedFound(w, w', c);
    OwnersKept(w.k, w.pc, w.held, w.owner, w'.k, w'.pc);
  }

  lemma SplicedQueues(w: World, w': World, c: nat)
    requires Inv(w) && SpliceStep(w, w', c)
    ensures QueuesOk(w'.k, w'.pc)
  {
    hide NoneLost, OwnersOk, SchedBut, PcOk;
    var k, t, q := w.k, Self(w.k), w.k.conds[c];
    assert WaitQueue(k.sched, w.pc, c, q);
    assert forall b :: ToWake(w'.pc, b) == if b == t then q else ToWake(w.pc, b);
    forall m | m in k.mutexes ensures LockQueue(k.sched, w'.pc, m, k.mutexes[m].waitqueue)
    {
      assert LockQueue(k.sched, w.pc, m, k.mutexes[m].waitqueue);
    }
    forall d | d in w'.k.conds
      ensures WaitQueue(k.sched, w'.pc, d, w'.k.conds[d])
      ensures forall u :: u in w'.k.conds[d] ==> u !in q && forall b :: u !in ToWake(w'.pc, b)
    {
      assert WaitQueue(k.sched, w.pc, d, k.conds[d]);
    }
    forall b, u | u in ToWake(w'.pc, b)
      ensures u in w'.pc && (w'.pc[u].WaitWindow? || w'.pc[u].WaitReturn?) && IsBlocked(k.sched, u)
      ensures b == t <==> u in q
    {
      if b != t { assert u in ToWake(w.pc, b); }
    }
  }

  lemma SplicedFound(w: World, w': World, c: nat)
    requires Inv(w) && SpliceStep(w, w', c)
    ensures NoneLost(w'.k, w'.pc)
  {
    var t := Self(w.k);
    forall u | IsBlocked(w'.k.sched, u) && u in w'.pc
      ensures forall n :: AtLock(w'.pc[u], n) ==> n in w'.k.mutexes && u in w'.k.mutexes[n].waitqueue
      ensures forall d :: AtWait(w'.pc[u], d) ==> WaitsOn(w'.k, w'.pc, u, d)
    {
      if u in w.k.conds[c] { assert u in ToWake(w'.pc, t); }
      if u != t { StillFound(w.k, w.pc, w'.k, w'.pc, u); }
    }
  }

  /** The first of the broadcaster's list woken and off it. */
  lemma WakeKeeps(w: World, w': World)
    requires Inv(w) && WakeStep(w, w')
    ensures Inv(w')
  {
    var t := Self(w.k);
    var list := w.pc[t].list;
    assert list == ToWake(w.pc, t);
    if list == [] {
      LoopEnds(w, w');
    } else {
      FirstWoken(w, w', list);
    }
  }

  lemma FirstWoken(w: World, w': World, list: seq<nat>)
    requires Inv(w) && Self(w.k) in w.pc && w.pc[Self(w.k)] == Broadcasting(list)
    requires list != [] && WakeFirst(w, w', list)
    ensures Inv(w')
  {
    hide NoneLost, SchedBut;
    var t := Self(w.k);
    assert list == ToWake(w.pc, t) && list[0] in list;
    WokenOk(w.k.sched, w.pc, list[0]);
    Tail(list);
    assert forall b :: ToWake(w'.pc, b) == if b == t then list[1..] else ToWake(w.pc, b);
    ListShrinks(w.k, w.pc, t, w'.k.sched, w'.pc);
    ListShrunkFound(w.k, w.pc, t, w'.k.sched, w'.pc);
    OwnersKept(w.k, w.pc, w.held, w.owner, w'.k, w'.pc);
  }

  lemma LoopEnds(w: World, w': World)
    requires Inv(w) && Self(w.k) in w.pc && w.pc[Self(w.k)] == Broadcasting([]) && w' == At(w, User)
    ensures Inv(w')
  {
    PcMoved(w, User);
  }

  /** The running thread goes from one place where it waits for nothing to
      another one. */
  lemma PcMoved(w: World, p: Pc)
    requires Inv(w) && Self(w.k) in w.pc && Fits(p, StateOf(w.k.sched, Self(w.k)))
    requires !IsWaiting(w.pc[Self(w.k)]) && !IsWaiting(p)
    requires ToWake(w.pc, Self(w.k)) == [] && (p.Broadcasting? ==> p.list == [])
    requires w.k.sched.preempt > 0 ==> p.User? || p.Broadcasting?
    ensures Inv(At(w, p))
  {
    Quiet(w.k, w.pc, w.held, w.owner, w.k.sched, w.pc[Self(w.k) := p]);
    assert w.k.(sched := w.k.sched) == w.k;
  }

  ghost predicate Shrunk(pc: map<nat, Pc>, pc': map<nat, Pc>, t: nat)
  {
    && t in pc && pc[t].Broadcasting? && pc[t].list != [] && pc' == pc[t := Broadcasting(pc[t].list[1..])]
    && (forall b :: ToWake(pc', b) == if b == t then pc[t].list[1..] else ToWake(pc, b))
  }

  lemma ListShrinks(k: Kernel, pc: map<nat, Pc>, t: nat, s': Sched, pc': map<nat, Pc>)
    requires QueuesOk(k, pc) && Shrunk(pc, pc', t) && Woken(k.sched, s', pc[t].list[0])
    ensures QueuesOk(k.(sched := s'), pc')
  {
    var list := pc[t].list;
    assert list == ToWake(pc, t) && list[0] in list;
    Tail(list);
    forall m | m in k.mutexes ensures LockQueue(s', pc', m, k.mutexes[m].waitqueue)
    {
      assert LockQueue(k.sched, pc, m, k.mutexes[m].waitqueue);
    }
    forall c | c in k.conds ensures WaitQueue(s', pc', c, k.conds[c])
    {
      assert WaitQueue(k.sched, pc, c, k.conds[c]);
    }
    forall b, u | u in ToWake(pc', b)
      ensures u in ToWake(pc, b) && u != list[0] && u in pc' && (pc'[u].WaitWindow? || pc'[u].WaitReturn?)
    {
      assert u in ToWake(pc, b);
    }
  }

  lemma ListShrunkFound(k: Kernel, pc: map<nat, Pc>, t: nat, s': Sched, pc': map<nat, Pc>)
    requires QueuesOk(k, pc) && NoneLost(k, pc) && Shrunk(pc, pc', t) && Woken(k.sched, s', pc[t].list[0])
    ensures NoneLost(k.(sched := s'), pc')
  {
    var list, k' := pc[t].list, k.(sched := s');
    assert list == ToWake(pc, t);
    Tail(list);
    forall u | IsBlocked(s', u) && u in pc'
      ensures forall n :: AtLock(pc'[u], n) ==> n in k'.mutexes && u in k'.mutexes[n].waitqueue
      ensures forall c :: AtWait(pc'[u], c) ==> WaitsOn(k', pc', u, c)
    {
      if u != t { StillFound(k, pc, k', pc', u); }
    }
  }

  lemma ExitKeeps(w: World, w': World)
    requires Inv(w) && ExitStep(w, w')
    ensures Inv(w')
  {
    ExitedOk(w.k.sched, w.pc);
    Quiet(w.k, w.pc, w.held, w.owner, w'.k.sched, w'.pc);
  }

  lemma ExitedOk(s: Sched, pc: map<nat, Pc>)
    requires SchedOk(s) && PcOk(s, pc) && pc[s.current].User? && s.preempt == 0
    ensures var s' := WithState(s, s.current, Finishing);
      SchedOk(s') && PcOk(s', pc[s.current := Exiting]) && SameWaits(s, pc, s', pc[s.current := Exiting])
  {
    hide NoDup;
  }

  lemma JoinKeeps(w: World, w': World, t: nat)
    requires Inv(w) && JoinStep(w, w', t)
    ensures Inv(w')
  {
    PcMoved(w, w'.pc[Self(w.k)]);
  }

  lemma CreateKeeps(w: World, w': World, t: nat)
    requires Inv(w) && CreateStep(w, w', t)
    ensures Inv(w')
  {
    CreatedOk(w.k.sched, w.pc, t);
    Quiet(w.k, w.pc, w.held, w.owner, w'.k.sched, w'.pc);
  }

  lemma CreatedOk(s: Sched, pc: map<nat, Pc>, t: nat)
    requires SchedOk(s) && PcOk(s, pc) && t !in s.threads
    ensures var s' := s.(threads := s.threads[t := Thread(Blocked, 0)]);
      SchedOk(s') && PcOk(s', pc[t := Created]) && SameWaits(s, pc, s', pc[t := Created])
  {
  }

  lemma ActivateKeeps(w: World, w': World, t: nat)
    requires Inv(w) && ActivateStep(w, w', t)
    ensures Inv(w')
  {
    StartedOk(w.k.sched, w.pc, t);
    Quiet(w.k, w.pc, w.held, w.owner, w'.k.sched, w'.pc);
  }

  lemma StartedOk(s: Sched, pc: map<nat, Pc>, t: nat)
    requires SchedOk(s) && PcOk(s, pc) && t in s.threads && t in pc && pc[t].Created?
    requires s.current in pc && pc[s.current].User?
    ensures SchedOk(Activated(s, t)) && PcOk(Activated(s, t), pc[t := User])
    ensures SameWaits(s, pc, Activated(s, t), pc[t := User])
  {
    hide NoDup;
    ActivatedOk(s, t);
  }

  lemma PreemptKeeps(w: World, w': World, on: bool)
    requires Inv(w) && PreemptStep(w, w', on)
    ensures Inv(w')
  {
    Quiet(w.k, w.pc, w.held, w.owner, w'.k.sched, w.pc);
  }

  lemma SetupKeeps(w: World, w': World, x: nat)
    requires Inv(w) && SetupStep(w, w', x)
    ensures Inv(w')
  {
    SetupQueues(w, w', x);
    SetupFound(w, w', x);
    OwnersAfterSetup(w, w', x);
  }

  lemma SetupQueues(w: World, w': World, x: nat)
    requires QueuesOk(w.k, w.pc) && SetupStep(w, w', x)
    ensures QueuesOk(w'.k, w'.pc)
  {
    forall m | m in w'.k.mutexes ensures LockQueue(w.k.sched, w.pc, m, w'.k.mutexes[m].waitqueue)
    {
      if m in w.k.mutexes { assert LockQueue(w.k.sched, w.pc, m, w.k.mutexes[m].waitqueue); }
    }
    forall c | c in w'.k.conds ensures WaitQueue(w.k.sched, w.pc, c, w'.k.conds[c])
    {
      if c in w.k.conds { assert WaitQueue(w.k.sched, w.pc, c, w.k.conds[c]); }
    }
  }

  lemma SetupFound(w: World, w': World, x: nat)
    requires NoneLost(w.k, w.pc) && SetupStep(w, w', x)
    ensures NoneLost(w'.k, w'.pc)
  {
    forall u | IsBlocked(w'.k.sched, u) && u in w'.pc
      ensures forall n :: AtLock(w'.pc[u], n) ==> n in w'.k.mutexes && u in w'.k.mutexes[n].waitqueue
      ensures forall d :: AtWait(w'.pc[u], d) ==> WaitsOn(w'.k, w'.pc, u, d)
    {
      StillFound(w.k, w.pc, w'.k, w'.pc, u);
    }
  }

  lemma OwnersAfterSetup(w: World, w': World, x: nat)
    requires OwnersOk(w.k, w.pc, w.held, w.owner) && SetupStep(w, w', x)
    ensures OwnersOk(w'.k, w'.pc, w'.held, w'.owner)
  {
  }

  /** Every step of every thread, and every tick, keeps the invariant. */
  lemma StepKeeps(w: World, e: Event, w': World)
    requires Inv(w) && Step(w, e, w')
    ensures Inv(w')
  {
    hide Inv, LockStep, ScheduleStep, ReturnStep, UnlockStep, WaitStep, SignalStep, SpliceStep, WakeStep, TickStep,
      ForceStep, ExitStep, JoinStep, CreateStep, ActivateStep, PreemptStep, SetupStep;
    match e
    case Lock(m) => LockKeeps(w, w', m);
    case Schedule => ScheduleKeeps(w, w');
    case Return => ReturnKeeps(w, w');
    case Unlock(m) => UnlockKeeps(w, w', m);
    case Wait(c, m) => WaitKeeps(w, w', c, m);
    case Signal(c) => SignalKeeps(w, w', c);
    case Splice(c) => SpliceKeeps(w, w', c);
    case Wake => WakeKeeps(w, w');
    case Tick => TickKeeps(w, w');
    case Force => ForceKeeps(w, w');
    case Exit => ExitKeeps(w, w');
    case Join(t) => JoinKeeps(w, w', t);
    case Create(t) => CreateKeeps(w, w', t);
    case Activate(t) => ActivateKeeps(w, w', t);
    case Preempt(on) => PreemptKeeps(w, w', on);
    case Setup(x) => SetupKeeps(w, w', x);
  }
}
