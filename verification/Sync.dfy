/** Mutexes with hand-off and condition variables: what each section that runs
    with interrupts off does to the scheduler and the wait queues. */
module Sync {
  import opened Lists
  import opened Options
  import opened Threads

  datatype Mutex = Mutex(locked: bool, waitqueue: seq<nat>)

  datatype Kernel = Kernel(sched: Sched, mutexes: map<nat, Mutex>, conds: map<nat, seq<nat>>)

  function Self(k: Kernel): nat { k.sched.current }

  function Block(s: Sched): Sched
    requires s.current in s.threads
  {
    WithState(s, s.current, Blocked)
  }

  /** `mutex_lock` up to the call of `schedule`: takes a free mutex, or puts the
      running thread, now BLOCKED, at the end of the queue. */
  function LockSection(k: Kernel, m: nat): Kernel
    requires m in k.mutexes && Self(k) in k.sched.threads
  {
    var mtx := k.mutexes[m];
    if mtx.locked
    then Kernel(Block(k.sched), k.mutexes[m := Mutex(true, mtx.waitqueue + [Self(k)])], k.conds)
    else Kernel(k.sched, k.mutexes[m := Mutex(true, mtx.waitqueue)], k.conds)
  }

  /** `mutex_unlock`: the mutex stays locked when it passes to the first waiter. */
  function Unlocked(k: Kernel, m: nat): Kernel
    requires m in k.mutexes && forall t :: t in k.mutexes[m].waitqueue ==> t in k.sched.threads
  {
    var q := k.mutexes[m].waitqueue;
    if q == []
    then Kernel(k.sched, k.mutexes[m := Mutex(false, [])], k.conds)
    else Kernel(Activated(k.sched, q[0]), k.mutexes[m := Mutex(k.mutexes[m].locked, q[1..])], k.conds)
  }

  /** `condition_wait` up to the call of `schedule`: on the queue first, then the
      mutex is released, all in one section. */
  function WaitSection(k: Kernel, c: nat, m: nat): Kernel
    requires c in k.conds && m in k.mutexes && Self(k) in k.sched.threads
    requires forall t :: t in k.mutexes[m].waitqueue ==> t in k.sched.threads
  {
    Unlocked(Kernel(Block(k.sched), k.mutexes, k.conds[c := k.conds[c] + [Self(k)]]), m)
  }

  /** `condition_signal` */
  function Signalled(k: Kernel, c: nat): Kernel
    requires c in k.conds && forall t :: t in k.conds[c] ==> t in k.sched.threads
  {
    var q := k.conds[c];
    if q == [] then k else Kernel(Activated(k.sched, q[0]), k.mutexes, k.conds[c := q[1..]])
  }

  /** The section of `condition_broadcast`, which moves the queue to a list of
      the caller's own. */
  function Spliced(k: Kernel, c: nat): Kernel
    requires c in k.conds
  {
    Kernel(k.sched, k.mutexes, k.conds[c := []])
  }

  /** The processor with its scheduler, mutexes and condition variables. */
  class Processor {
    var current: nat
    var idleThread: Option<nat>
    var runqueue: seq<nat>
    var threads: map<nat, Thread>
    var preemptCnt: nat
    var jiffies: nat
    var mutexes: map<nat, Mutex>
    var conds: map<nat, seq<nat>>

    ghost function Sched(): Sched
      reads this
    {
      Threads.Sched(current, idleThread, runqueue, threads, preemptCnt, jiffies)
    }

    ghost function View(): Kernel
      reads this
    {
      Kernel(Sched(), mutexes, conds)
    }

    ghost predicate Valid()
      reads this
    {
      && Known(Sched())
      && (forall m, t :: m in mutexes && t in mutexes[m].waitqueue ==> t in threads)
      && (forall c, t :: c in conds && t in conds[c] ==> t in threads)
    }

    /** `threads_setup` and `idle`: one thread, which becomes the idle thread. */
    constructor (self: nat)
      ensures Valid() && Sched() == Threads.Sched(self, Some(self), [], map[self := Thread(Idle, 0)], 0, 0)
      ensures mutexes == map[] && conds == map[]
    {
      current, idleThread, runqueue, threads := self, Some(self), [], map[self := Thread(Idle, 0)];
      preemptCnt, jiffies, mutexes, conds := 0, 0, map[], map[];
    }

    method SetState(t: nat, state: ThreadState)
      requires t in threads
      modifies this`threads
      ensures Sched() == WithState(old(Sched()), t, state)
    {
      threads := threads[t := Thread(state, threads[t].time)];
    }

    /** `place_thread`; the lock around the runqueue only counts preemption up
        and down again. */
    method PlaceThread(next: nat)
      requires current in threads && next in threads
      modifies this`current, this`runqueue, this`threads
      ensures Sched() == Placed(old(Sched()), next)
    {
      var prev := current;
      if threads[prev].state == Finishing { SetState(prev, Finished); }
      if threads[prev].state == Active { runqueue := runqueue + [prev]; }
      current := next;
      threads := threads[next := Thread(threads[next].state, jiffies)];
    }

    /** `thread_activate` */
    method ThreadActivate(t: nat)
      requires t in threads
      modifies this`runqueue, this`threads
      ensures Sched() == Activated(old(Sched()), t)
    {
      if threads[t].state == Blocked {
        SetState(t, Active);
        runqueue := runqueue + [t];
      }
    }

    /** `__schedule` */
    method Reschedule(force: bool)
      requires Known(Sched())
      modifies this`current, this`runqueue, this`threads
      ensures Sched() == Rescheduled(old(Sched()), force)
    {
      var prev, next := current, idleThread;
      if !force && threads[prev].state == Active && jiffies - threads[prev].time < SLICE { return; }
      if runqueue != [] {
        assert runqueue[0] in runqueue;
        next := Some(runqueue[0]);
        runqueue := runqueue[1..];
      }
      if next == Some(prev) { return; }
      if next.Some? && (next != idleThread || threads[prev].state != Active) {
        PlaceThread(next.value);
      }
    }

    /** `schedule` */
    method Schedule()
      requires Known(Sched())
      modifies this`current, this`runqueue, this`threads
      ensures Sched() == ScheduleCalled(old(Sched()))
    {
      if preemptCnt > 0 { return; }
      Reschedule(false);
    }

    /** `pit_handler` */
    method Tick()
      requires Known(Sched())
      modifies this`current, this`runqueue, this`threads, this`jiffies
      ensures Sched() == Ticked(old(Sched()))
    {
      jiffies := jiffies + 1;
      Schedule();
    }

    /** `force_schedule`, which must find preemption allowed. */
    method ForceSchedule()
      requires Known(Sched()) && preemptCnt == 0
      modifies this`current, this`runqueue, this`threads
      ensures Sched() == Rescheduled(old(Sched()), true)
    {
      Reschedule(true);
    }

    /** `thread_create`: blocked until it is activated. */
    method ThreadCreate(t: nat)
      requires Valid() && t !in threads
      modifies this`threads
      ensures Valid() && threads == old(threads)[t := Thread(Blocked, 0)]
      ensures SchedOk(old(Sched())) ==> SchedOk(Sched())
    {
      threads := threads[t := Thread(Blocked, 0)];
    }

    /** `thread_exit`, up to the switch away. */
    method ThreadExit()
      requires Known(Sched()) && preemptCnt == 0
      modifies this`current, this`runqueue, this`threads
      ensures Sched() == Rescheduled(WithState(old(Sched()), old(current), Finishing), true)
      ensures SchedOk(old(Sched())) && old(threads[current]).state == Active ==>
        SchedOk(Sched()) && current != old(current) && threads[old(current)].state == Finished
        && old(current) !in runqueue
    {
      if SchedOk(Sched()) && threads[current].state == Active { EndedOk(Sched()); }
      SetState(current, Finishing);
      ForceSchedule();
    }

    /** `mutex_lock`, as far as the calling thread runs before it is switched
        away or returns. */
    method MutexLock(m: nat)
      requires Valid() && m in mutexes
      modifies this
      ensures var k := LockSection(old(View()), m);
        View() == if old(mutexes[m].locked) then Kernel(ScheduleCalled(k.sched), k.mutexes, k.conds) else k
    {
      if mutexes[m].locked {
        var self := current;
        SetState(self, Blocked);
        mutexes := mutexes[m := Mutex(true, mutexes[m].waitqueue + [self])];
        Schedule();
        return;
      }
      mutexes := mutexes[m := Mutex(true, mutexes[m].waitqueue)];
    }

    /** `mutex_unlock` */
    method MutexUnlock(m: nat)
      requires Valid() && m in mutexes
      modifies this
      ensures View() == Unlocked(old(View()), m)
    {
      var q := mutexes[m].waitqueue;
      if q == [] {
        mutexes := mutexes[m := Mutex(false, [])];
        return;
      }
      assert q[0] in q;
      mutexes := mutexes[m := Mutex(mutexes[m].locked, q[1..])];
      ThreadActivate(q[0]);
    }

    /** `condition_wait` up to its `schedule`, which is included. */
    method ConditionWait(c: nat, m: nat)
      requires Valid() && c in conds && m in mutexes
      modifies this
      ensures Known(WaitSection(old(View()), c, m).sched)
      ensures var k := WaitSection(old(View()), c, m);
        View() == Kernel(ScheduleCalled(k.sched), k.mutexes, k.conds)
    {
      var self := current;
      SetState(self, Blocked);
      conds := conds[c := conds[c] + [self]];
      MutexUnlock(m);
      Schedule();
    }

    /** `condition_signal` */
    method ConditionSignal(c: nat)
      requires Valid() && c in conds
      modifies this
      ensures View() == Signalled(old(View()), c)
    {
      if conds[c] != [] {
        var q := conds[c];
        assert q[0] in q;
        conds := conds[c := q[1..]];
        ThreadActivate(q[0]);
      }
    }

    /** The section of `condition_broadcast` and, one by one, the wake-ups. */
    method ConditionBroadcast(c: nat)
      requires Valid() && c in conds
      modifies this
      ensures View() == WokenAll(Spliced(old(View()), c), old(conds[c]))
      ensures Sleeping(old(Sched()), old(conds[c])) ==> AllWoken(old(Sched()), Sched(), old(conds[c]))
      ensures mutexes == old(mutexes) && conds == old(conds)[c := []]
    {
      var list := conds[c];
      conds := conds[c := []];
      var i := 0;
      ghost var k0 := View();
      while i < |list|
        invariant i <= |list| && threads.Keys == old(threads.Keys)
        invariant WokenAll(View(), list[i..]) == WokenAll(k0, list)
      {
        assert list[i] in list && list[i..][1..] == list[i + 1..];
        ThreadActivate(list[i]);
        i := i + 1;
      }
      WokenAllIs(k0, list);
    }
  }

  /** The threads of `list` activated one after the other. */
  function WokenAll(k: Kernel, list: seq<nat>): Kernel
    decreases |list|
  {
    if list == [] then k
    else WokenAll(if list[0] in k.sched.threads then k.(sched := Activated(k.sched, list[0])) else k, list[1..])
  }

  /** Blocked threads, each once: what a wait queue holds. */
  ghost predicate Sleeping(s: Sched, list: seq<nat>)
  {
    NoDup(list) && forall t :: t in list ==> t in s.threads && s.threads[t].state == Blocked
  }

  /** All of `list` are ready, behind those that were, and nothing else has changed. */
  ghost predicate AllWoken(s: Sched, s': Sched, list: seq<nat>)
  {
    && s'.(threads := s.threads) == s.(runqueue := s.runqueue + list)
    && s'.threads.Keys == s.threads.Keys
    && (forall t :: t in s.threads ==>
          s'.threads[t] == if t in list then Thread(Active, s.threads[t].time) else s.threads[t])
  }

  /** The wake-ups of a broadcast make ready exactly the threads of the list, in
      its order; the mutexes and the other queues stay as they are. */
  lemma {:induction false} WokenAllIs(k: Kernel, list: seq<nat>)
    ensures WokenAll(k, list).mutexes == k.mutexes && WokenAll(k, list).conds == k.conds
    ensures Sleeping(k.sched, list) ==> AllWoken(k.sched, WokenAll(k, list).sched, list)
    decreases |list|
  {
    if list != [] {
      var s, t, rest := k.sched, list[0], list[1..];
      var s1 := if t in s.threads then Activated(s, t) else s;
      WokenAllIs(k.(sched := s1), rest);
      if Sleeping(s, list) {
        assert t in list && forall u :: u in rest ==> u in list;
        assert t !in rest && NoDup(rest);
        assert Sleeping(s1, rest);
        assert s.runqueue + list == s1.runqueue + rest;
      }
    }
  }
}
