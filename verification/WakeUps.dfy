/**
 Where the two views of sleeping meet. For the notification protocol a thread is asleep until `Thread::wake`
 is called on it; for the scheduler it is a thread whose state is `Sleeping`, and waking it is to mark it
 runnable under its lock and to queue it (kernel/src/scheduling/process.rs, lines 363-375).
 */
module WakeUps {
  import opened Scheduler
  import opened RunQueue
  import opened Signals
  import Ports = SignalRuns
  import Order = WaitOrder

  /** Both say the same of which threads sleep. */
  ghost predicate Agree(asleep: set<nat>, s: Sched) {
    forall t: nat :: t in asleep <==> t in s.threads && s.threads[t].state.Sleeping?
  }

  /** `ts` lists the threads of `s`, each once. */
  ghost predicate Lists(ts: seq<nat>, s: set<nat>) {
    && (forall t: nat :: t in ts <==> t in s)
    && forall i, j :: 0 <= i < j < |ts| ==> ts[i] != ts[j]
  }

  /** The steps of a waker that calls `Thread::wake` on each thread in turn. */
  function WakeSteps(w: nat, ts: seq<nat>): (r: seq<Step>) {
    if ts == [] then [] else WakeSteps(w, ts[..|ts| - 1]) + [Wake(w, ts[|ts| - 1]), QueueWoken(w)]
  }

  /** Whether a step of the notification protocol puts its thread to sleep. */
  predicate PutsToSleep(w: Ports.World, st: Ports.Step)
    requires Ports.Enabled(w, st)
  {
    match st
    case TryPort(_, p) => w.k.ports[p].queue == []
    case WaitObject(_, o, mask) => !Intersects(w.k.objects[o].status, mask)
    case Sleep(_, _) => true
    case _ => false
  }

  // ---------------------------------------------------------------------------
  // What a step of the notification protocol does to the sleeping threads
  // ---------------------------------------------------------------------------

  lemma {:induction false} ExtractedWakes(k: Kernel, o: nat, i: nat)
    requires o in k.objects && i <= |k.objects[o].waiters| && PortsFrom(k, o, i)
    ensures Extracted(k, o, i).asleep <= k.asleep
    decreases |k.objects[o].waiters| - i
  {
    var s := k.objects[o];
    if i < |s.waiters| {
      if Intersects(s.status, s.waiters[i].mask) {
        ExtractedWakes(FiredAt(k, o, i), o, i);
      } else {
        ExtractedWakes(k, o, i + 1);
      }
    }
  }

  /** A step puts one thread to sleep that was awake, or it puts none to sleep. */
  lemma SleepsOrWakes(w: Ports.World, st: Ports.Step)
    requires Ports.Enabled(w, st)
    ensures var asleep, asleep' := w.k.asleep, Ports.NextKernel(w, st).asleep;
            if PutsToSleep(w, st) then st.t !in asleep && asleep' == asleep + {st.t} else asleep' <= asleep
  {
    hide Extracted, Intersects;
    if st.SetSignal? {
      var s := w.k.objects[st.o];
      var status := Changed(s.status, st.signal, st.on);
      ExtractedWakes(w.k.(objects := w.k.objects[st.o := Signal(status, s.waiters)]), st.o, 0);
    }
  }

  // ---------------------------------------------------------------------------
  // The same steps in the scheduler
  // ---------------------------------------------------------------------------

  /** The last state of a run. */
  lemma RunState(ss: seq<Sched>, steps: seq<Step>) returns (s: Sched)
    requires IsRun(ss, steps)
    ensures |ss| == |steps| + 1 && s == ss[|steps|]
  {
    s := ss[|steps|];
  }

  /** Waking one sleeping thread whose lock is free: it goes to the end of the run queue. */
  lemma WakeOne(ss: seq<Sched>, steps: seq<Step>, w: nat, t: nat) returns (ss': seq<Sched>)
    requires IsRun(ss, steps) && w !in ss[|steps|].wakers
    requires t in ss[|steps|].threads && ss[|steps|].threads[t].state.Sleeping? && !ss[|steps|].threads[t].locked
    ensures IsRun(ss', steps + [Wake(w, t), QueueWoken(w)])
    ensures var s := ss[|steps|];
            ss'[|steps| + 2] == s.(threads := s.threads[t := s.threads[t].(state := Runnable)], queue := s.queue + [t])
  {
    hide IsRun, Placed;
    var s := RunState(ss, steps);
    var at := RunKeepsPlaces(ss, steps, |steps|);
    NotQueued(s, at, t);
    var s1 := Next(s, Wake(w, t));
    Extend(ss, steps, s, Wake(w, t));
    var ss1, steps1 := ss + [s1], steps + [Wake(w, t)];
    Extend(ss1, steps1, s1, QueueWoken(w));
    ss' := ss1 + [Next(s1, QueueWoken(w))];
    assert steps1 + [QueueWoken(w)] == steps + [Wake(w, t), QueueWoken(w)];
    assert s.wakers[w := t] - {w} == s.wakers;
  }

  lemma NotQueued(s: Sched, at: map<nat, Place>, t: nat)
    requires Placed(s, at) && t in s.threads && s.threads[t].state.Sleeping?
    ensures t !in s.queue
  {
    assert PlaceOk(s, t, at[t]);
  }

  /** From `s` to `s'` the threads `ts`, of those asleep, have been woken: they are at the end of the run queue in
      that order, and nothing else has changed. */
  ghost predicate Queued(asleep: set<nat>, s: Sched, s': Sched, ts: seq<nat>) {
    && s'.queue == s.queue + ts && s'.cores == s.cores && s'.wakers == s.wakers
    && Agree(asleep - (set t | t in ts), s')
    && s'.threads.Keys == s.threads.Keys
    && forall t :: t in s.threads && t !in ts ==> s'.threads[t] == s.threads[t]
  }

  lemma NoneQueued(asleep: set<nat>, s: Sched)
    requires Agree(asleep, s)
    ensures Queued(asleep, s, s, [])
  {
    assert s.queue + [] == s.queue;
  }

  lemma StillAsleep(asleep: set<nat>, s: Sched, s': Sched, ts: seq<nat>, t: nat)
    requires Queued(asleep, s, s', ts) && Agree(asleep, s) && t in asleep && t !in ts
    ensures s'.wakers == s.wakers && t in s'.threads && t in s.threads
    ensures s'.threads[t] == s.threads[t] && s'.threads[t].state.Sleeping?
  {
  }

  lemma QueuedMore(asleep: set<nat>, s: Sched, s': Sched, ts: seq<nat>, t: nat)
    requires Queued(asleep, s, s', ts) && t in s'.threads
    ensures Queued(asleep, s, s'.(threads := s'.threads[t := s'.threads[t].(state := Runnable)], queue := s'.queue + [t]),
                   ts + [t])
  {
    hide Agree;
    assert (set u | u in ts + [t]) == (set u | u in ts) + {t};
    AgreeLess(asleep - (set u | u in ts), s', t, s'.queue + [t]);
    assert asleep - (set u | u in ts) - {t} == asleep - (set u | u in ts + [t]);
  }

  lemma AgreeLess(asleep: set<nat>, s: Sched, t: nat, queue: seq<nat>)
    requires Agree(asleep, s) && t in s.threads
    ensures Agree(asleep - {t}, s.(threads := s.threads[t := s.threads[t].(state := Runnable)], queue := queue))
  {
  }

  /** Waking a list of sleeping threads whose locks are free. */
  lemma {:induction false} WakeAll(ss: seq<Sched>, steps: seq<Step>, asleep: set<nat>, w: nat, ts: seq<nat>)
    returns (ss': seq<Sched>)
    requires IsRun(ss, steps) && Agree(asleep, ss[|steps|]) && w !in ss[|steps|].wakers
    requires forall t :: t in ts ==> t in asleep && !ss[|steps|].threads[t].locked
    requires forall i, j :: 0 <= i < j < |ts| ==> ts[i] != ts[j]
    ensures IsRun(ss', steps + WakeSteps(w, ts))
    ensures Queued(asleep, ss[|steps|], ss'[|steps + WakeSteps(w, ts)|], ts)
    decreases |ts|
  {
    hide IsRun, Agree, Queued;
    var s := RunState(ss, steps);
    if ts == [] {
      ss' := ss;
      assert steps + [] == steps;
      NoneQueued(asleep, s);
    } else {
      var front, t := ts[..|ts| - 1], ts[|ts| - 1];
      assert ts == front + [t];
      var ss1 := WakeAll(ss, steps, asleep, w, front);
      var steps1 := steps + WakeSteps(w, front);
      var s1 := RunState(ss1, steps1);
      StillAsleep(asleep, s, s1, front, t);
      QueuedMore(asleep, s, s1, front, t);
      ss' := WakeOne(ss1, steps1, w, t);
      assert steps1 + [Wake(w, t), QueueWoken(w)] == steps + WakeSteps(w, ts);
    }
  }

  /** A step of the notification protocol that puts no thread to sleep is a series of wake steps of the scheduler:
      a scheduler that agrees on which threads sleep goes on to agree, and the woken threads are in its run queue. */
  lemma SignalStepWakes(v: Ports.World, st: Ports.Step, ss: seq<Sched>, steps: seq<Step>, w: nat, ts: seq<nat>)
    returns (ss': seq<Sched>)
    requires Ports.Enabled(v, st) && !PutsToSleep(v, st)
    requires IsRun(ss, steps) && Agree(v.k.asleep, ss[|steps|]) && w !in ss[|steps|].wakers
    requires Lists(ts, v.k.asleep - Ports.NextKernel(v, st).asleep)
    requires forall t :: t in ts ==> t in ss[|steps|].threads && !ss[|steps|].threads[t].locked
    ensures IsRun(ss', steps + WakeSteps(w, ts))
    ensures var s, s' := ss[|steps|], ss'[|steps + WakeSteps(w, ts)|];
            Agree(Ports.NextKernel(v, st).asleep, s') && s'.queue == s.queue + ts && s'.cores == s.cores
  {
    hide IsRun, Ports.Enabled, Ports.NextKernel, PutsToSleep, Agree;
    SleepsOrWakes(v, st);
    ss' := WakeAll(ss, steps, v.k.asleep, w, ts);
    var asleep' := Ports.NextKernel(v, st).asleep;
    assert v.k.asleep - (set t | t in ts) == asleep';
  }

  /** A step that puts its thread to sleep is the step by which the core running the thread marks it as sleeping. */
  lemma SignalStepSleeps(v: Ports.World, st: Ports.Step, ss: seq<Sched>, steps: seq<Step>, c: nat)
    requires Ports.Enabled(v, st) && PutsToSleep(v, st)
    requires IsRun(ss, steps) && Agree(v.k.asleep, ss[|steps|])
    requires CoreRuns(ss[|steps|], c, true) && ss[|steps|].cores[c].t == st.t
    ensures var s := ss[|steps|];
            && IsRun(ss + [Next(s, GoToSleep(c))], steps + [GoToSleep(c)])
            && Agree(Ports.NextKernel(v, st).asleep, Next(s, GoToSleep(c)))
  {
    hide IsRun, Ports.Enabled, Ports.NextKernel, PutsToSleep;
    SleepsOrWakes(v, st);
    var s := RunState(ss, steps);
    Extend(ss, steps, s, GoToSleep(c));
  }

  /** `t` is the first thread that has joined port `p` and has not been woken. */
  ghost predicate WaitsLongest(vs: seq<Ports.World>, calls: seq<Ports.Step>, i: nat, p: nat, t: nat)
    requires Ports.IsRun(vs, calls) && i < |vs|
  {
    var joined, woken := Order.Joined(vs, calls, i, p), Order.WokenCount(vs, calls, i, p);
    woken < |joined| && joined[woken] == t
  }

  /** In every run, when a port is notified, the thread that waits longest at it goes to the end of the run queue. */
  lemma NotifiedIsQueued(vs: seq<Ports.World>, calls: seq<Ports.Step>, i: nat, p: nat, n: Notification, t: nat,
                         ss: seq<Sched>, steps: seq<Step>, w: nat)
    returns (ss': seq<Sched>)
    requires Ports.IsRun(vs, calls) && i < |vs| && p in vs[i].k.ports && WaitsLongest(vs, calls, i, p, t)
    requires IsRun(ss, steps) && Agree(vs[i].k.asleep, ss[|steps|]) && w !in ss[|steps|].wakers
    requires t in ss[|steps|].threads && !ss[|steps|].threads[t].locked
    ensures IsRun(ss', steps + WakeSteps(w, [t]))
    ensures ss'[|steps + WakeSteps(w, [t])|].queue == ss[|steps|].queue + [t]
    ensures Agree(Notified(vs[i].k, p, n).asleep, ss'[|steps + WakeSteps(w, [t])|])
  {
    hide IsRun, Agree, Order.Joined, Order.WokenCount, Ports.Next;
    Order.PortsServeInOrder(vs, calls, i, p);
    Ports.RunKeepsInv(vs, calls, i);
    var v := vs[i];
    assert v.k.ports[p].waiters[0] == t;
    FirstIsWoken(v, p, n);
    ss' := SignalStepWakes(v, Ports.Push(p, n), ss, steps, w, [t]);
  }

  lemma FirstIsWoken(v: Ports.World, p: nat, n: Notification)
    requires Ports.Inv(v) && p in v.k.ports && v.k.ports[p].waiters != []
    ensures v.k.asleep - Ports.NextKernel(v, Ports.Push(p, n)).asleep == {v.k.ports[p].waiters[0]}
  {
    assert Ports.WaitersOk(v.k, v.at, p, v.k.ports[p].waiters);
  }
}
