/**
 What the scheduler owes to the history of a run (kernel/src/scheduling/taskmanager.rs,
 kernel/src/scheduling/process.rs): threads are popped in the order in which they were queued, and a thread is ended
 exactly when it was killed and is outside a system call.
 */
module SchedulerOrder {
  import opened RunQueue
  import opened Scheduler

  // ---------------------------------------------------------------------------
  // What a run records
  // ---------------------------------------------------------------------------

  /** The thread that a step queues. */
  function QueuedBy(s: Sched, st: Step): (r: seq<nat>)
    requires Enabled(s, st)
  {
    match st
    case QueueAgain(c) => [s.cores[c].t]
    case QueueWoken(w) => [s.wakers[w]]
    case _ => []
  }

  /** The thread that a core has after it popped one. */
  function PoppedBy(s': Sched, st: Step): (r: seq<nat>) {
    if st.Pop? && st.c in s'.cores && s'.cores[st.c].Popped? then [s'.cores[st.c].t] else []
  }

  /** All threads queued in the first `n` steps, in order; and all popped. */
  ghost function QueuedSoFar(ss: seq<Sched>, steps: seq<Step>, n: nat): (r: seq<nat>)
    requires IsRun(ss, steps) && n < |ss|
  {
    if n == 0 then [] else QueuedSoFar(ss, steps, n - 1) + QueuedBy(ss[n - 1], steps[n - 1])
  }

  ghost function PoppedSoFar(ss: seq<Sched>, steps: seq<Step>, n: nat): (r: seq<nat>)
    requires IsRun(ss, steps) && n < |ss|
  {
    if n == 0 then [] else PoppedSoFar(ss, steps, n - 1) + PoppedBy(ss[n], steps[n - 1])
  }

  /** Core `c` has thread `t`. */
  predicate ActsOn(s: Sched, c: nat, t: nat) {
    c in s.cores && !s.cores[c].Idle? && s.cores[c].t == t
  }

  /** Thread `t` was killed in the first `n` steps, by another or by itself. */
  ghost predicate WasKilled(ss: seq<Sched>, steps: seq<Step>, n: nat, t: nat)
    requires |ss| == |steps| + 1 && n < |ss|
  {
    n > 0 && (Kills(ss[n - 1], steps[n - 1], t) || WasKilled(ss, steps, n - 1, t))
  }

  predicate Kills(s: Sched, st: Step, t: nat) {
    st == Kill(t) || (st.SetFlags? && st.kill && ActsOn(s, st.c, t))
  }

  /** Thread `t` is in a system call after the first `n` steps: it last said so. */
  ghost predicate InSyscall(ss: seq<Sched>, steps: seq<Step>, n: nat, t: nat)
    requires |ss| == |steps| + 1 && n < |ss|
  {
    && n > 0
    && if steps[n - 1].SetFlags? && ActsOn(ss[n - 1], steps[n - 1].c, t) then steps[n - 1].inSyscall
       else InSyscall(ss, steps, n - 1, t)
  }

  // ---------------------------------------------------------------------------
  // The run queue is first in, first out
  // ---------------------------------------------------------------------------

  lemma QueueStep(s: Sched, at: map<nat, Place>, st: Step)
    requires Placed(s, at) && Enabled(s, st) && !Panics(s, st)
    ensures s.queue + QueuedBy(s, st) == PoppedBy(Next(s, st), st) + Next(s, st).queue
  {
    hide PlaceOk, PhaseOk;
    match st
    case Pop(c) => assert s.queue == [s.queue[0]] + s.queue[1..];
    case QueueAgain(c) => ThreadOnCore(s, at, c);
    case QueueWoken(w) => ThreadWithWaker(s, at, w);
    case _ =>
  }

  /** In every run the threads queued are the threads popped followed by the run queue: cores pop threads in the order
      in which they were queued. */
  lemma {:induction false} FirstInFirstOut(ss: seq<Sched>, steps: seq<Step>, n: nat)
    requires IsRun(ss, steps) && n < |ss|
    ensures QueuedSoFar(ss, steps, n) == PoppedSoFar(ss, steps, n) + ss[n].queue
  {
    hide Placed, Next, Enabled, Panics, QueuedBy, PoppedBy;
    if n > 0 {
      var s, st := ss[n - 1], steps[n - 1];
      FirstInFirstOut(ss, steps, n - 1);
      var at := RunKeepsPlaces(ss, steps, n - 1);
      QueueStep(s, at, st);
      Shift(PoppedSoFar(ss, steps, n - 1), s.queue, QueuedBy(s, st), PoppedBy(ss[n], st), ss[n].queue);
    }
  }

  lemma Shift(popped: seq<nat>, q: seq<nat>, more: seq<nat>, out: seq<nat>, q': seq<nat>)
    requires q + more == out + q'
    ensures popped + q + more == popped + out + q'
  {
    assert popped + q + more == popped + (q + more);
    assert popped + out + q' == popped + (out + q');
  }

  // ---------------------------------------------------------------------------
  // Killing
  // ---------------------------------------------------------------------------

  lemma FlagsStep(s: Sched, at: map<nat, Place>, st: Step, t: nat)
    requires Placed(s, at) && Enabled(s, st) && !Panics(s, st) && t in Next(s, st).threads
    ensures t !in s.threads ==> !Next(s, st).threads[t].killed && !Next(s, st).threads[t].inSyscall
    ensures t !in s.threads ==> !Kills(s, st, t) && !(st.SetFlags? && ActsOn(s, st.c, t))
    ensures t in s.threads ==> (Next(s, st).threads[t].killed <==> s.threads[t].killed || Kills(s, st, t))
    ensures t in s.threads ==> (Next(s, st).threads[t].inSyscall <==>
      if st.SetFlags? && ActsOn(s, st.c, t) then st.inSyscall else s.threads[t].inSyscall)
  {
    hide PlaceOk, PhaseOk;
  }

  lemma {:induction false} NotYet(ss: seq<Sched>, steps: seq<Step>, n: nat, t: nat)
    requires IsRun(ss, steps) && n < |ss| && t !in ss[n].threads
    ensures !WasKilled(ss, steps, n, t) && !InSyscall(ss, steps, n, t)
  {
    hide Placed;
    if n > 0 {
      var at := RunKeepsPlaces(ss, steps, n - 1);
      ThreadsStay(ss[n - 1], at, steps[n - 1], t);
      NotYet(ss, steps, n - 1, t);
    }
  }

  lemma ThreadsStay(s: Sched, at: map<nat, Place>, st: Step, t: nat)
    requires Placed(s, at) && Enabled(s, st) && !Panics(s, st) && t !in Next(s, st).threads
    ensures t !in s.threads && !Kills(s, st, t) && !(st.SetFlags? && ActsOn(s, st.c, t))
  {
    hide PlaceOk, PhaseOk;
  }

  /** In every run a thread is marked as killed exactly when it was killed, and as in a system call exactly when it last
      said so. */
  lemma {:induction false} FlagsAreHistory(ss: seq<Sched>, steps: seq<Step>, n: nat, t: nat)
    requires IsRun(ss, steps) && n < |ss| && t in ss[n].threads
    ensures ss[n].threads[t].killed <==> WasKilled(ss, steps, n, t)
    ensures ss[n].threads[t].inSyscall <==> InSyscall(ss, steps, n, t)
  {
    hide Placed, Next, Enabled, Panics, Kills, ActsOn;
    if n > 0 {
      var at := RunKeepsPlaces(ss, steps, n - 1);
      FlagsStep(ss[n - 1], at, steps[n - 1], t);
      if t in ss[n - 1].threads {
        FlagsAreHistory(ss, steps, n - 1, t);
      } else {
        NotYet(ss, steps, n - 1, t);
      }
    }
  }

  /** A core that has the thread is in a phase that fits its state. */
  lemma OnItsCore(s: Sched, at: map<nat, Place>, t: nat)
    requires Placed(s, at)
    ensures forall c :: ActsOn(s, c, t) ==> t in s.threads && PhaseOk(s.cores[c], s.threads[t])
  {
    hide PhaseOk;
    forall c | ActsOn(s, c, t)
      ensures t in s.threads && PhaseOk(s.cores[c], s.threads[t])
    {
      ThreadOnCore(s, at, c);
    }
  }

  lemma ZombieStep(s: Sched, at: map<nat, Place>, st: Step, t: nat)
    requires Placed(s, at) && Enabled(s, st) && !Panics(s, st) && t in s.threads
    ensures t in Next(s, st).threads
    ensures Next(s, st).threads[t].state.Zombie? <==>
      || s.threads[t].state.Zombie?
      || (st.Acquire? && ActsOn(s, st.c, t) && s.threads[t].killed && !s.threads[t].inSyscall)
  {
    hide Placed;
    OnItsCore(s, at, t);
  }

  /** In every run a thread is ended exactly when a core takes it up after it was killed, outside a system call; it
      stays ended, and otherwise the core runs it. */
  lemma EndedExactly(ss: seq<Sched>, steps: seq<Step>, n: nat, t: nat)
    requires IsRun(ss, steps) && n < |steps| && t in ss[n].threads
    ensures t in ss[n + 1].threads
    ensures ss[n + 1].threads[t].state.Zombie? <==>
      || ss[n].threads[t].state.Zombie?
      || (steps[n].Acquire? && ActsOn(ss[n], steps[n].c, t) && WasKilled(ss, steps, n, t) && !InSyscall(ss, steps, n, t))
    ensures steps[n].Acquire? && ActsOn(ss[n], steps[n].c, t) && !ss[n + 1].threads[t].state.Zombie? ==>
      ss[n + 1].cores[steps[n].c] == Running(t, true)
  {
    hide Placed;
    var at := RunKeepsPlaces(ss, steps, n);
    ZombieStep(ss[n], at, steps[n], t);
    FlagsAreHistory(ss, steps, n, t);
  }
}
