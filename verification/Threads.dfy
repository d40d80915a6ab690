/** The scheduler: one running thread, a FIFO runqueue, an idle thread and time
    slices counted in timer ticks. */
module Threads {
  import opened Lists
  import opened Options

  /** Ticks a thread may run while others wait. */
  const SLICE: nat := 10

  datatype ThreadState = Idle | Active | Blocked | Finishing | Finished

  /** The scheduler's part of `struct thread`. */
  datatype Thread = Thread(state: ThreadState, time: nat)

  datatype Sched = Sched(current: nat, idle: Option<nat>, runqueue: seq<nat>, threads: map<nat, Thread>,
      preempt: nat, now: nat)

  // ---- what each piece of code makes of the scheduler's state ----

  ghost predicate Known(s: Sched)
  {
    && s.current in s.threads
    && (s.idle.Some? ==> s.idle.value in s.threads)
    && (forall t :: t in s.runqueue ==> t in s.threads)
  }

  function StateOf(s: Sched, t: nat): ThreadState
    requires t in s.threads
  {
    s.threads[t].state
  }

  function WithState(s: Sched, t: nat, state: ThreadState): Sched
    requires t in s.threads
  {
    s.(threads := s.threads[t := Thread(state, s.threads[t].time)])
  }

  /** `place_thread(next)`, run on the stack of `next`. */
  function Placed(s: Sched, next: nat): Sched
    requires s.current in s.threads && next in s.threads
  {
    var prev := s.current;
    var s1 := if StateOf(s, prev) == Finishing then WithState(s, prev, Finished) else s;
    var rq := if StateOf(s1, prev) == Active then s1.runqueue + [prev] else s1.runqueue;
    Sched(next, s.idle, rq, s1.threads[next := Thread(StateOf(s1, next), s.now)], s.preempt, s.now)
  }

  /** `thread_activate` */
  function Activated(s: Sched, t: nat): Sched
    requires t in s.threads
  {
    if StateOf(s, t) == Blocked then WithState(s, t, Active).(runqueue := s.runqueue + [t]) else s
  }

  /** `__schedule` returns at once: the running thread has some of its slice left. */
  predicate KeepsRunning(s: Sched, force: bool)
    requires s.current in s.threads
  {
    !force && StateOf(s, s.current) == Active && s.now - s.threads[s.current].time < SLICE
  }

  /** `__schedule` */
  function Rescheduled(s: Sched, force: bool): Sched
    requires s.current in s.threads && (s.idle.Some? ==> s.idle.value in s.threads)
    requires forall t :: t in s.runqueue ==> t in s.threads
  {
    if KeepsRunning(s, force) then s
    else
      var next := if s.runqueue != [] then Some(s.runqueue[0]) else s.idle;
      var popped := s.(runqueue := if s.runqueue != [] then s.runqueue[1..] else []);
      if next == Some(s.current) then popped
      else if next.Some? && (next != s.idle || StateOf(s, s.current) != Active) then Placed(popped, next.value)
      else popped
  }

  /** `schedule` */
  function ScheduleCalled(s: Sched): Sched
    requires Known(s)
  {
    if s.preempt > 0 then s else Rescheduled(s, false)
  }

  /** The timer interrupt. */
  function Ticked(s: Sched): Sched
    requires Known(s)
  {
    ScheduleCalled(s.(now := s.now + 1))
  }

  // ---- the invariant ----

  /** Every thread is in one place: running, on the runqueue when it is ACTIVE,
      waiting elsewhere when it is BLOCKED, idle or finished.  The running
      thread may be BLOCKED or FINISHING until it switches away.  `hand` is an
      ACTIVE thread on its way from the runqueue to the processor, if any. */
  ghost predicate SchedBut(s: Sched, hand: Option<nat>)
  {
    && Known(s) && NoDup(s.runqueue) && s.idle.Some?
    && (forall t :: t in s.runqueue ==> StateOf(s, t) == Active && t != s.current && Some(t) != hand)
    && (hand.Some? ==> hand.value in s.threads && StateOf(s, hand.value) == Active && hand.value != s.current)
    && (forall t :: t in s.threads && StateOf(s, t) == Active ==> t == s.current || t in s.runqueue || Some(t) == hand)
    && (forall t :: t in s.threads ==> (StateOf(s, t) == Idle <==> Some(t) == s.idle))
    && (forall t :: t in s.threads && StateOf(s, t) == Finishing ==> t == s.current)
    && StateOf(s, s.current) != Finished
    && (forall t :: t in s.threads ==> s.threads[t].time <= s.now)
  }

  ghost predicate SchedOk(s: Sched) { SchedBut(s, None) }

  /** Nothing but the running thread's FINISHING turning into FINISHED, and times. */
  ghost predicate StatesKept(s: Sched, s': Sched)
  {
    && s'.threads.Keys == s.threads.Keys && s'.idle == s.idle && s'.preempt == s.preempt && s'.now == s.now
    && (forall t :: t in s.threads && t != s.current ==> StateOf(s', t) == StateOf(s, t))
    && (s.current in s.threads ==>
        StateOf(s', s.current) == StateOf(s, s.current)
        || (StateOf(s, s.current) == Finishing && StateOf(s', s.current) == Finished))
  }

  lemma PopOk(s: Sched)
    requires SchedOk(s) && s.runqueue != []
    ensures SchedBut(s.(runqueue := s.runqueue[1..]), Some(s.runqueue[0]))
  {
    var p, rq := s.runqueue[0], s.runqueue[1..];
    assert p in s.runqueue;
    forall t | t in rq ensures t in s.runqueue && t != p { }
    forall t | t in s.runqueue && t != p ensures t in rq
    {
      var i :| 0 <= i < |s.runqueue| && s.runqueue[i] == t;
      assert rq[i - 1] == t;
    }
  }

  /** The switch to the thread in hand or to the idle thread. */
  lemma PlacedOk(s: Sched, next: nat, hand: Option<nat>)
    requires SchedBut(s, hand) && next != s.current
    requires hand == Some(next) || (hand == None && s.idle == Some(next) && StateOf(s, s.current) != Active)
    ensures SchedOk(Placed(s, next)) && StatesKept(s, Placed(s, next))
    ensures StateOf(Placed(s, next), s.current) != Finishing
  {
    hide NoDup;
    var prev, s' := s.current, Placed(s, next);
    if StateOf(s, prev) == Active {
      Appended(s.runqueue, prev);
    }
  }

  /** What `__schedule` does, whoever runs: it keeps the invariant; nothing
      but the place of the running and of the next thread changes; a thread
      that cannot go on loses the processor to one that can. */
  lemma RescheduledOk(s: Sched, force: bool)
    requires SchedOk(s)
    ensures SchedOk(Rescheduled(s, force)) && StatesKept(s, Rescheduled(s, force))
    ensures StateOf(s, s.current) in {Blocked, Finishing} ==> Rescheduled(s, force).current != s.current
    ensures StateOf(Rescheduled(s, force), s.current) != Finishing
    ensures Rescheduled(s, force).current != s.current ==>
      StateOf(s, Rescheduled(s, force).current) in {Active, Idle}
  {
    if !KeepsRunning(s, force) {
      if s.runqueue != [] {
        PopOk(s);
        assert s.runqueue[0] in s.runqueue;
        PlacedOk(s.(runqueue := s.runqueue[1..]), s.runqueue[0], Some(s.runqueue[0]));
      } else if s.idle.value != s.current && StateOf(s, s.current) != Active {
        assert s.(runqueue := []) == s;
        PlacedOk(s, s.idle.value, None);
      } else {
        assert s.(runqueue := []) == s;
      }
    }
  }

  /** The running thread ends: another one runs, and it is on no queue. */
  lemma EndedOk(s: Sched)
    requires SchedOk(s) && StateOf(s, s.current) == Active
    ensures var s' := Rescheduled(WithState(s, s.current, Finishing), true);
      SchedOk(s') && s'.current != s.current && StateOf(s', s.current) == Finished && s.current !in s'.runqueue
  {
    RescheduledOk(WithState(s, s.current, Finishing), true);
  }

  lemma ActivatedOk(s: Sched, t: nat)
    requires SchedOk(s) && t in s.threads && t != s.current
    ensures SchedOk(Activated(s, t))
    ensures StateOf(s, t) == Blocked ==> StateOf(Activated(s, t), t) == Active && t in Activated(s, t).runqueue
  {
    Appended(s.runqueue, t);
  }

  /** When a blocked thread that calls `schedule` loses the processor: only with
      preemption allowed and something else to run.  Otherwise `mutex_lock` and
      `condition_wait` go on as if the thread had been woken. */
  lemma BlockedLeaves(s: Sched)
    requires Known(s) && StateOf(s, s.current) == Blocked
    requires s.current !in s.runqueue && s.idle != Some(s.current)
    ensures ScheduleCalled(s).current != s.current <==> s.preempt == 0 && (s.runqueue != [] || s.idle.Some?)
  {
    if s.runqueue != [] { assert s.runqueue[0] in s.runqueue; }
  }
}
