/**
 The scheduling protocol (kernel/src/scheduling/taskmanager.rs, kernel/src/scheduling/process.rs):
 any number of cores run the scheduler loop while threads yield, sleep and are woken, created
 and killed. Each section under a lock is one step; a thread's `sched` lock, which is held
 across the switch to and from the thread, is part of the state.

 A thread enters the scheduler holding its own lock, and does not give the lock up after
 marking itself as sleeping. It may hold interrupts besides, which the loop treats as an error.
 */
module Scheduler {
  import opened RunQueue

  datatype ThreadState = Zombie | Runnable | Sleeping

  /** `ThreadSched`; `saved` is whether `task_state` holds a context to resume. */
  datatype ThreadSched = ThreadSched(state: ThreadState, killed: bool, inSyscall: bool, saved: bool, locked: bool)

  const NEW_THREAD := ThreadSched(Runnable, false, false, true, false)

  /** What a core is doing. */
  datatype Phase =
    | Idle
    | Popped(t: nat)
    | Running(t: nat, holding: bool)
    | Yielded(t: nat, held: bool)
    | Requeue(t: nat)

  /** `wakers` have made a thread runnable, or created it, and are about to queue it. */
  datatype Sched = Sched(threads: map<nat, ThreadSched>, queue: seq<nat>, cores: map<nat, Phase>, wakers: map<nat, nat>)

  datatype Step =
    | Pop(c: nat)
    | Acquire(c: nat)
    | Unlock(c: nat)
    | Lock(c: nat)
    | GoToSleep(c: nat)
    | SetFlags(c: nat, inSyscall: bool, kill: bool)
    | Yield(c: nat, held: bool)
    | Finish(c: nat)
    | QueueAgain(c: nat)
    | Wake(w: nat, t: nat)
    | Create(w: nat, t: nat)
    | QueueWoken(w: nat)
    | Kill(t: nat)

  predicate CoreRuns(s: Sched, c: nat, holding: bool) {
    && c in s.cores && s.cores[c].Running? && s.cores[c].holding == holding && s.cores[c].t in s.threads
  }

  /** When a step can be taken. Taking a lock waits until it is free. */
  predicate Enabled(s: Sched, st: Step) {
    match st
    case Pop(c) => c in s.cores && s.cores[c].Idle? && s.queue != []
    case Acquire(c) => c in s.cores && s.cores[c].Popped? && s.cores[c].t in s.threads && !s.threads[s.cores[c].t].locked
    case Unlock(c) => CoreRuns(s, c, true) && !s.threads[s.cores[c].t].state.Sleeping?
    case Lock(c) => CoreRuns(s, c, false) && !s.threads[s.cores[c].t].locked
    case GoToSleep(c) => CoreRuns(s, c, true)
    case SetFlags(c, _, _) => CoreRuns(s, c, true)
    case Yield(c, _) => CoreRuns(s, c, true)
    case Finish(c) => c in s.cores && s.cores[c].Yielded? && s.cores[c].t in s.threads
    case QueueAgain(c) => c in s.cores && s.cores[c].Requeue?
    case Wake(w, t) => w !in s.wakers && t in s.threads && !s.threads[t].locked
    case Create(w, t) => w !in s.wakers && t !in s.threads
    case QueueWoken(w) => w in s.wakers
    case Kill(t) => t in s.threads && !s.threads[t].locked
  }

  /** A thread that was killed outside a system call ends when it is next popped. */
  predicate Ends(th: ThreadSched) {
    !th.inSyscall && th.killed
  }

  /** The thread when the loop looks at its state: one that yielded with interrupts held has just been
      ended. */
  function Returned(th: ThreadSched, held: bool): (r: ThreadSched) {
    if held then th.(state := Zombie) else th
  }

  /** The assertions and panics of the scheduler loop. */
  predicate Panics(s: Sched, st: Step)
    requires Enabled(s, st)
  {
    match st
    case Acquire(c) =>
      var th := s.threads[s.cores[c].t];
      !Ends(th) && (!th.state.Runnable? || !th.saved)
    case Finish(c) => Returned(s.threads[s.cores[c].t], s.cores[c].held).state.Zombie?
    case _ => false
  }

  function With(s: Sched, t: nat, th: ThreadSched, c: nat, p: Phase): (s': Sched) {
    Sched(s.threads[t := th], s.queue, s.cores[c := p], s.wakers)
  }

  function Next(s: Sched, st: Step): (s': Sched)
    requires Enabled(s, st) && !Panics(s, st)
  {
    match st
    case Pop(c) => Sched(s.threads, s.queue[1..], s.cores[c := Popped(s.queue[0])], s.wakers)
    case Acquire(c) =>
      var t := s.cores[c].t;
      var th := s.threads[t];
      if Ends(th) then With(s, t, th.(state := Zombie), c, Idle)
      else With(s, t, th.(saved := false, locked := true), c, Running(t, true))
    case Unlock(c) =>
      var t := s.cores[c].t;
      With(s, t, s.threads[t].(locked := false), c, Running(t, false))
    case Lock(c) =>
      var t := s.cores[c].t;
      With(s, t, s.threads[t].(locked := true), c, Running(t, true))
    case GoToSleep(c) =>
      var t := s.cores[c].t;
      With(s, t, s.threads[t].(state := Sleeping), c, Running(t, true))
    case SetFlags(c, inSyscall, kill) =>
      var t := s.cores[c].t;
      With(s, t, s.threads[t].(inSyscall := inSyscall, killed := s.threads[t].killed || kill), c, Running(t, true))
    case Yield(c, held) =>
      var t := s.cores[c].t;
      With(s, t, s.threads[t].(saved := true), c, Yielded(t, held))
    case Finish(c) =>
      var t := s.cores[c].t;
      var th := Returned(s.threads[t], s.cores[c].held);
      With(s, t, th.(locked := false), c, if th.state.Runnable? then Requeue(t) else Idle)
    case QueueAgain(c) =>
      Sched(s.threads, Enqueued(s.queue, s.cores[c].t), s.cores[c := Idle], s.wakers)
    case Wake(w, t) =>
      if s.threads[t].state.Sleeping?
      then Sched(s.threads[t := s.threads[t].(state := Runnable)], s.queue, s.cores, s.wakers[w := t])
      else s
    case Create(w, t) =>
      Sched(s.threads[t := NEW_THREAD], s.queue, s.cores, s.wakers[w := t])
    case QueueWoken(w) =>
      Sched(s.threads, Enqueued(s.queue, s.wakers[w]), s.cores, s.wakers - {w})
    case Kill(t) =>
      Sched(s.threads[t := s.threads[t].(killed := true)], s.queue, s.cores, s.wakers)
  }

  // ---------------------------------------------------------------------------
  // Every thread is in one place
  // ---------------------------------------------------------------------------

  datatype Place = InQueue | OnCore(c: nat) | WithWaker(w: nat) | Parked

  /** `at` says of every thread where it is, and there is no trace of it anywhere else. */
  ghost predicate Placed(s: Sched, at: map<nat, Place>) {
    && at.Keys == s.threads.Keys
    && (forall i, j :: 0 <= i < j < |s.queue| ==> s.queue[i] != s.queue[j])
    && (forall t :: t in s.queue ==> t in at && at[t] == InQueue)
    && (forall c :: c in s.cores && !s.cores[c].Idle? ==> s.cores[c].t in at && at[s.cores[c].t] == OnCore(c))
    && (forall w :: w in s.wakers ==> s.wakers[w] in at && at[s.wakers[w]] == WithWaker(w))
    && forall t :: t in at ==> PlaceOk(s, t, at[t])
  }

  /** The thread is where it is said to be, in a state that fits. */
  ghost predicate PlaceOk(s: Sched, t: nat, p: Place) {
    && t in s.threads
    && var th := s.threads[t];
       match p
       case InQueue => t in s.queue && th.state.Runnable? && th.saved && !th.locked
       case OnCore(c) => c in s.cores && !s.cores[c].Idle? && s.cores[c].t == t && PhaseOk(s.cores[c], th)
       case WithWaker(w) => w in s.wakers && s.wakers[w] == t && th.state.Runnable? && th.saved && !th.locked
       case Parked => !th.state.Runnable? && th.saved && !th.locked
  }

  predicate PhaseOk(p: Phase, th: ThreadSched) {
    match p
    case Idle => false
    case Popped(_) => th.state.Runnable? && th.saved && !th.locked
    case Running(_, holding) =>
      !th.saved && th.locked == holding && !th.state.Zombie? && (!holding ==> th.state.Runnable?)
    case Yielded(_, _) => th.saved && th.locked && !th.state.Zombie?
    case Requeue(_) => th.state.Runnable? && th.saved && !th.locked
  }

  /** Where the thread of a step goes. */
  ghost function Moved(s: Sched, at: map<nat, Place>, st: Step): (r: map<nat, Place>)
    requires Enabled(s, st) && !Panics(s, st)
  {
    match st
    case Pop(c) => at[s.queue[0] := OnCore(c)]
    case Acquire(c) => if Ends(s.threads[s.cores[c].t]) then at[s.cores[c].t := Parked] else at
    case Finish(c) => if s.threads[s.cores[c].t].state.Runnable? then at else at[s.cores[c].t := Parked]
    case QueueAgain(c) => at[s.cores[c].t := InQueue]
    case Wake(w, t) => if s.threads[t].state.Sleeping? then at[t := WithWaker(w)] else at
    case Create(w, t) => at[t := WithWaker(w)]
    case QueueWoken(w) => at[s.wakers[w] := InQueue]
    case _ => at
  }

  /** A core goes on with its thread, or leaves it parked. */
  lemma CoreKeepsPlaces(s: Sched, at: map<nat, Place>, c: nat, th: ThreadSched, p: Phase)
    requires Placed(s, at) && c in s.cores && !s.cores[c].Idle?
    requires if p.Idle? then PlaceOk(s.(threads := s.threads[s.cores[c].t := th]), s.cores[c].t, Parked)
             else p.t == s.cores[c].t && PhaseOk(p, th)
    ensures var t := s.cores[c].t;
            Placed(With(s, t, th, c, p), if p.Idle? then at[t := Parked] else at)
  {
    hide PhaseOk;
    var t := s.cores[c].t;
    var s', at' := With(s, t, th, c, p), if p.Idle? then at[t := Parked] else at;
    forall u | u in at'
      ensures PlaceOk(s', u, at'[u])
    {
      assert PlaceOk(s, u, at[u]);
    }
  }

  /** A core or a waker puts its thread in the queue, where it was not. */
  lemma QueueKeepsPlaces(s: Sched, at: map<nat, Place>, t: nat, cores: map<nat, Phase>, wakers: map<nat, nat>)
    requires Placed(s, at) && t in at && at[t] != InQueue
    requires s.threads[t].state.Runnable? && s.threads[t].saved && !s.threads[t].locked
    requires || (at[t].OnCore? && wakers == s.wakers && cores == s.cores[at[t].c := Idle])
             || (at[t].WithWaker? && cores == s.cores && wakers == s.wakers - {at[t].w})
    ensures t !in s.queue && Placed(Sched(s.threads, Enqueued(s.queue, t), cores, wakers), at[t := InQueue])
  {
    hide PhaseOk;
    var s', at' := Sched(s.threads, Enqueued(s.queue, t), cores, wakers), at[t := InQueue];
    forall u | u in at'
      ensures PlaceOk(s', u, at'[u])
    {
      assert PlaceOk(s, u, at[u]);
    }
  }

  lemma PopKeepsPlaces(s: Sched, at: map<nat, Place>, c: nat)
    requires Placed(s, at) && Enabled(s, Pop(c))
    ensures Placed(Next(s, Pop(c)), Moved(s, at, Pop(c)))
  {
    var s', at' := Next(s, Pop(c)), Moved(s, at, Pop(c));
    var t := s.queue[0];
    assert t in s.queue;
    forall u | u in at'
      ensures PlaceOk(s', u, at'[u])
    {
      assert PlaceOk(s, u, at[u]);
      if u != t && u in s.queue {
        var i :| 0 <= i < |s.queue| && s.queue[i] == u;
        assert s'.queue[i - 1] == u;
      }
    }
  }

  /** A thread that was parked, or did not exist, is handed to a waker. */
  lemma WakerKeepsPlaces(s: Sched, at: map<nat, Place>, w: nat, t: nat, th: ThreadSched)
    requires Placed(s, at) && w !in s.wakers && (t in at ==> at[t] == Parked)
    requires th.state.Runnable? && th.saved && !th.locked
    ensures Placed(Sched(s.threads[t := th], s.queue, s.cores, s.wakers[w := t]), at[t := WithWaker(w)])
  {
    hide PhaseOk;
    var s', at' := Sched(s.threads[t := th], s.queue, s.cores, s.wakers[w := t]), at[t := WithWaker(w)];
    forall u | u in at'
      ensures PlaceOk(s', u, at'[u])
    {
      if u != t { assert PlaceOk(s, u, at[u]); }
    }
  }

  lemma KillKeepsPlaces(s: Sched, at: map<nat, Place>, t: nat)
    requires Placed(s, at) && t in s.threads
    ensures Placed(Sched(s.threads[t := s.threads[t].(killed := true)], s.queue, s.cores, s.wakers), at)
  {
    var s' := Sched(s.threads[t := s.threads[t].(killed := true)], s.queue, s.cores, s.wakers);
    forall u | u in at
      ensures PlaceOk(s', u, at[u])
    {
      assert PlaceOk(s, u, at[u]);
    }
  }

  /** The thread of this step yielded with interrupts held. */
  predicate YieldedHeld(s: Sched, st: Step) {
    st.Finish? && st.c in s.cores && s.cores[st.c].Yielded? && s.cores[st.c].held
  }

  /** A step panics exactly when a thread that yielded with interrupts held comes back to the loop; every
      other step keeps each thread in one place. */
  lemma StepKeepsPlaces(s: Sched, at: map<nat, Place>, st: Step)
    requires Placed(s, at) && Enabled(s, st)
    ensures Panics(s, st) <==> YieldedHeld(s, st)
    ensures !Panics(s, st) ==> Placed(Next(s, st), Moved(s, at, st))
  {
    match st
    case Pop(c) => PopKeepsPlaces(s, at, c);
    case QueueAgain(c) =>
      ThreadOnCore(s, at, c);
      QueueKeepsPlaces(s, at, s.cores[c].t, s.cores[c := Idle], s.wakers);
    case QueueWoken(w) =>
      ThreadWithWaker(s, at, w);
      QueueKeepsPlaces(s, at, s.wakers[w], s.cores, s.wakers - {w});
    case Wake(w, t) =>
      NotRunnable(s, at, t);
      if s.threads[t].state.Sleeping? {
        WakerKeepsPlaces(s, at, w, t, s.threads[t].(state := Runnable));
      }
    case Create(w, t) => WakerKeepsPlaces(s, at, w, t, NEW_THREAD);
    case Kill(t) => KillKeepsPlaces(s, at, t);
    case _ => CoreStepKeepsPlaces(s, at, st);
  }

  predicate IsCoreStep(st: Step) {
    st.Acquire? || st.Unlock? || st.Lock? || st.GoToSleep? || st.SetFlags? || st.Yield? || st.Finish?
  }

  lemma CoreStepKeepsPlaces(s: Sched, at: map<nat, Place>, st: Step)
    requires Placed(s, at) && Enabled(s, st) && IsCoreStep(st)
    ensures Panics(s, st) <==> YieldedHeld(s, st)
    ensures !Panics(s, st) ==> Placed(Next(s, st), Moved(s, at, st))
  {
    hide Placed, With;
    var c := st.c;
    ThreadOnCore(s, at, c);
    var t := s.cores[c].t;
    var th := s.threads[t];
    match st
    case Acquire(_) =>
      if Ends(th) { CoreKeepsPlaces(s, at, c, th.(state := Zombie), Idle); }
      else { CoreKeepsPlaces(s, at, c, th.(saved := false, locked := true), Running(t, true)); }
    case Unlock(_) => CoreKeepsPlaces(s, at, c, th.(locked := false), Running(t, false));
    case Lock(_) => CoreKeepsPlaces(s, at, c, th.(locked := true), Running(t, true));
    case GoToSleep(_) => CoreKeepsPlaces(s, at, c, th.(state := Sleeping), Running(t, true));
    case SetFlags(_, inSyscall, kill) =>
      CoreKeepsPlaces(s, at, c, th.(inSyscall := inSyscall, killed := th.killed || kill), Running(t, true));
    case Yield(_, held) => CoreKeepsPlaces(s, at, c, th.(saved := true), Yielded(t, held));
    case Finish(_) =>
      if !s.cores[c].held {
        CoreKeepsPlaces(s, at, c, th.(locked := false), if th.state.Runnable? then Requeue(t) else Idle);
      }
  }

  lemma ThreadOnCore(s: Sched, at: map<nat, Place>, c: nat)
    requires Placed(s, at) && c in s.cores && !s.cores[c].Idle?
    ensures s.cores[c].t in s.threads && s.cores[c].t in at && at[s.cores[c].t] == OnCore(c)
    ensures PhaseOk(s.cores[c], s.threads[s.cores[c].t])
  {
    assert PlaceOk(s, s.cores[c].t, at[s.cores[c].t]);
  }

  lemma ThreadWithWaker(s: Sched, at: map<nat, Place>, w: nat)
    requires Placed(s, at) && w in s.wakers
    ensures s.wakers[w] in s.threads && s.wakers[w] in at && at[s.wakers[w]] == WithWaker(w)
    ensures var th := s.threads[s.wakers[w]]; th.state.Runnable? && th.saved && !th.locked
  {
    assert PlaceOk(s, s.wakers[w], at[s.wakers[w]]);
  }

  /** A thread that is marked as sleeping and whose lock is free is parked: the switch away from it
      is over. */
  lemma NotRunnable(s: Sched, at: map<nat, Place>, t: nat)
    requires Placed(s, at) && t in s.threads && !s.threads[t].locked
    ensures s.threads[t].state.Sleeping? ==> at[t] == Parked
  {
    assert PlaceOk(s, t, at[t]);
  }

  // ---------------------------------------------------------------------------
  // Every run
  // ---------------------------------------------------------------------------

  ghost predicate Starts(s: Sched) {
    s.threads == map[] && s.queue == [] && s.wakers == map[] && forall c :: c in s.cores ==> s.cores[c].Idle?
  }

  /** A run of the protocol, in any interleaving, up to a panic. */
  ghost predicate IsRun(ss: seq<Sched>, steps: seq<Step>) {
    && |ss| == |steps| + 1 && Starts(ss[0])
    && forall i: nat :: i < |steps| ==>
         Enabled(ss[i], steps[i]) && !Panics(ss[i], steps[i]) && ss[i + 1] == Next(ss[i], steps[i])
  }

  lemma {:induction false} RunKeepsPlaces(ss: seq<Sched>, steps: seq<Step>, n: nat) returns (at: map<nat, Place>)
    requires IsRun(ss, steps) && n < |ss|
    ensures Placed(ss[n], at)
  {
    hide Placed;
    if n == 0 {
      at := map[];
      NoThreadsPlaced(ss[0]);
    } else {
      at := RunKeepsPlaces(ss, steps, n - 1);
      StepKeepsPlaces(ss[n - 1], at, steps[n - 1]);
      at := Moved(ss[n - 1], at, steps[n - 1]);
    }
  }

  lemma NoThreadsPlaced(s: Sched)
    requires Starts(s)
    ensures Placed(s, map[])
  {
  }

  predicate RunsSome(s: Sched, c: nat) {
    c in s.cores && s.cores[c].Running?
  }

  /** In every interleaving the next step panics exactly when it finishes a yield with interrupts held, so
      the Runnable assertion never fires; no thread runs on two cores; and no thread is queued that is
      queued already. */
  lemma NoPanicNoDoubleRun(ss: seq<Sched>, steps: seq<Step>, n: nat, st: Step, c: nat, c': nat)
    requires IsRun(ss, steps) && n < |ss| && Enabled(ss[n], st)
    ensures Panics(ss[n], st) <==> YieldedHeld(ss[n], st)
    ensures st.QueueAgain? ==> ss[n].cores[st.c].t !in ss[n].queue
    ensures st.QueueWoken? ==> ss[n].wakers[st.w] !in ss[n].queue
    ensures c != c' && RunsSome(ss[n], c) && RunsSome(ss[n], c') ==> ss[n].cores[c].t != ss[n].cores[c'].t
  {
    hide PlaceOk;
    var at := RunKeepsPlaces(ss, steps, n);
    StepKeepsPlaces(ss[n], at, st);
  }

  /** A run goes on with any step that can be taken and does not panic. */
  lemma Extend(ss: seq<Sched>, steps: seq<Step>, s: Sched, st: Step)
    requires IsRun(ss, steps) && ss[|steps|] == s && Enabled(s, st) && !Panics(s, st)
    ensures IsRun(ss + [Next(s, st)], steps + [st]) && (ss + [Next(s, st)])[|steps| + 1] == Next(s, st)
  {
    hide Enabled, Panics, Next;
    var ss', steps' := ss + [Next(s, st)], steps + [st];
    forall i: nat | i < |steps'|
      ensures Enabled(ss'[i], steps'[i]) && !Panics(ss'[i], steps'[i]) && ss'[i + 1] == Next(ss'[i], steps'[i])
    {
    }
  }

  /** A thread is created, queued and popped. */
  lemma PoppedThread() returns (ss: seq<Sched>, steps: seq<Step>, s: Sched)
    ensures IsRun(ss, steps) && ss[|steps|] == s
    ensures s == Sched(map[7 := NEW_THREAD], [], map[0 := Popped(7)], map[])
  {
    hide IsRun;
    s := Sched(map[], [], map[0 := Idle], map[]);
    ss, steps := [s], [];
    RunOfNothing(s);
    Extend(ss, steps, s, Create(0, 7));
    s, ss, steps := Next(s, Create(0, 7)), ss + [Next(s, Create(0, 7))], steps + [Create(0, 7)];
    Extend(ss, steps, s, QueueWoken(0));
    s, ss, steps := Next(s, QueueWoken(0)), ss + [Next(s, QueueWoken(0))], steps + [QueueWoken(0)];
    Extend(ss, steps, s, Pop(0));
    s, ss, steps := Next(s, Pop(0)), ss + [Next(s, Pop(0))], steps + [Pop(0)];
  }

  /** A run that ends in the panic: the thread yields with interrupts held. */
  lemma HeldInterruptsPanic() returns (ss: seq<Sched>, steps: seq<Step>, s: Sched)
    ensures IsRun(ss, steps) && ss[|steps|] == s && Enabled(s, Finish(0)) && Panics(s, Finish(0))
  {
    hide IsRun;
    ss, steps, s := PoppedThread();
    Extend(ss, steps, s, Acquire(0));
    s, ss, steps := Next(s, Acquire(0)), ss + [Next(s, Acquire(0))], steps + [Acquire(0)];
    Extend(ss, steps, s, Yield(0, true));
    s, ss, steps := Next(s, Yield(0, true)), ss + [Next(s, Yield(0, true))], steps + [Yield(0, true)];
  }

  lemma RunOfNothing(s: Sched)
    requires Starts(s)
    ensures IsRun([s], [])
  {
  }

  /** A runnable thread is never lost: it is queued, on a core, or about to be queued. */
  lemma RunnableNotLost(ss: seq<Sched>, steps: seq<Step>, n: nat, t: nat)
    requires IsRun(ss, steps) && n < |ss| && t in ss[n].threads && ss[n].threads[t].state.Runnable?
    ensures || t in ss[n].queue
            || (exists c :: c in ss[n].cores && !ss[n].cores[c].Idle? && ss[n].cores[c].t == t)
            || (exists w :: w in ss[n].wakers && ss[n].wakers[w] == t)
  {
    var at := RunKeepsPlaces(ss, steps, n);
    assert PlaceOk(ss[n], t, at[t]);
  }

  // ---------------------------------------------------------------------------
  // Killed threads
  // ---------------------------------------------------------------------------

  /** Killed outside a system call, and no longer running. */
  ghost predicate Doomed(s: Sched, t: nat) {
    && t in s.threads && Ends(s.threads[t])
    && forall c :: c in s.cores && s.cores[c].Running? ==> s.cores[c].t != t
  }

  /** Such a thread never runs again: the code after its last yield is not reached. */
  lemma {:induction false} KilledNeverRuns(ss: seq<Sched>, steps: seq<Step>, i: nat, j: nat, t: nat)
    requires IsRun(ss, steps) && i <= j < |ss| && Doomed(ss[i], t)
    ensures Doomed(ss[j], t)
    decreases j
  {
    hide Doomed, Enabled, Next, Panics;
    if i < j {
      KilledNeverRuns(ss, steps, i, j - 1, t);
      StepKeepsDoomed(ss[j - 1], steps[j - 1], t);
    }
  }

  lemma StepKeepsDoomed(s: Sched, st: Step, t: nat)
    requires Doomed(s, t) && Enabled(s, st) && !Panics(s, st)
    ensures Doomed(Next(s, st), t)
  {
  }
}
