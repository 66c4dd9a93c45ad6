/**
 In which order threads wait and are woken, over every run of module SignalRuns: what the run itself records of
 the threads that joined a port (kernel/src/port.rs, lines 32-55), of the registrations with an object
 (kernel/src/object.rs), and of the times that sleepers asked for (kernel/src/time.rs).
 */
module WaitOrder {
  import opened Prelude
  import opened Signals
  import opened SignalRuns

  // ---------------------------------------------------------------------------
  // What a run records
  // ---------------------------------------------------------------------------

  /** The thread that a step makes a waiter of port `p`: one that finds nothing queued there. */
  function JoinedBy(w: World, st: Step, p: nat): (r: seq<nat>) {
    if st.TryPort? && st.p == p && QueueOf(w.k, p) == [] then [st.t] else []
  }

  /** All threads that have become waiters of port `p` in the first `n` steps, in order. */
  ghost function Joined(ws: seq<World>, steps: seq<Step>, n: nat, p: nat): (r: seq<nat>)
    requires |ws| == |steps| + 1 && n < |ws|
  {
    if n == 0 then [] else Joined(ws, steps, n - 1, p) + JoinedBy(ws[n - 1], steps[n - 1], p)
  }

  /** How many of them have been woken: each notification sent to the port wakes one, while there is one. */
  ghost function WokenCount(ws: seq<World>, steps: seq<Step>, n: nat, p: nat): (m: nat)
    requires IsRun(ws, steps) && n < |ws|
  {
    if n == 0 then 0 else
      Least(WokenCount(ws, steps, n - 1, p) + |SentBy(ws[n - 1], steps[n - 1], p)|, |Joined(ws, steps, n - 1, p)|)
  }

  function Least(a: nat, b: nat): (m: nat) {
    if a < b then a else b
  }

  /** The registration that a step leaves with object `o`. */
  function LeftBy(w: World, st: Step, o: nat): (r: seq<SignalWaiter>)
    requires Enabled(w, st)
  {
    match st
    case WaitPort(q, v) => if q == o && !Intersects(w.k.objects[o].status, v.mask) then [v] else []
    case WaitObject(t, q, mask) => if q == o && !Intersects(w.k.objects[o].status, mask) then [One(t, mask)] else []
    case _ => []
  }

  /** All registrations left with object `o` in the first `n` steps, in order. */
  ghost function Left(ws: seq<World>, steps: seq<Step>, n: nat, o: nat): (r: seq<SignalWaiter>)
    requires IsRun(ws, steps) && n < |ws|
  {
    if n == 0 then [] else Left(ws, steps, n - 1, o) + LeftBy(ws[n - 1], steps[n - 1], o)
  }

  /** The time that thread `t` asked for when it last went to sleep. */
  function Asked(steps: seq<Step>, n: nat, t: nat): (r: Option<nat>)
    requires n <= |steps|
  {
    if n == 0 then None
    else if steps[n - 1].Sleep? && steps[n - 1].t == t then Some(steps[n - 1].wakeup)
    else Asked(steps, n - 1, t)
  }

  // ---------------------------------------------------------------------------
  // Ports
  // ---------------------------------------------------------------------------

  function WaitersOf(k: Kernel, p: nat): (r: seq<nat>) {
    if p in k.ports then k.ports[p].waiters else []
  }

  /** Waking `m` waiters, as far as there are any. */
  function Drop(ws: seq<nat>, m: nat): (r: seq<nat>) {
    ws[Least(m, |ws|)..]
  }

  lemma DropMore(ws: seq<nat>, a: nat, b: nat)
    ensures Drop(Drop(ws, a), b) == Drop(ws, a + b)
  {
  }

  lemma FireDrops(k: Kernel, o: nat, i: nat, p: nat)
    requires o in k.objects && i < |k.objects[o].waiters|
    requires k.objects[o].waiters[i].ToPort? ==> k.objects[o].waiters[i].port in k.ports
    ensures WaitersOf(FiredAt(k, o, i), p)
         == Drop(WaitersOf(k, p), |Sent([k.objects[o].waiters[i]], k.objects[o].status, p)|)
  {
    var v, status := k.objects[o].waiters[i], k.objects[o].status;
    assert [v][1..] == [];
    assert |Sent([v], status, p)| == if v.ToPort? && v.port == p then 1 else 0;
  }

  /** Extraction wakes one waiter of a port for each notification it sends there, from the front. */
  lemma {:induction false} ExtractedDrops(k: Kernel, o: nat, i: nat, p: nat)
    requires o in k.objects && i <= |k.objects[o].waiters| && PortsFrom(k, o, i)
    ensures var s := k.objects[o];
            WaitersOf(Extracted(k, o, i), p) == Drop(WaitersOf(k, p), |Sent(Firing(s.waiters[i..], s.status), s.status, p)|)
    decreases |k.objects[o].waiters| - i
  {
    hide FiredAt, Intersects, Extracted, Staying, Firing, Sent, WaitersOf;
    var s := k.objects[o];
    if i == |s.waiters| {
      NothingLeftToExtract(k, o);
      NothingSent(s.status, p);
    } else {
      ExtractedRound(k, o, i);
      FilterRound(s.waiters, i, s.status);
      if Intersects(s.status, s.waiters[i].mask) {
        FireEffect(k, o, i);
        ExtractedDrops(FiredAt(k, o, i), o, i, p);
        FireDrops(k, o, i, p);
        SentOne(s.waiters[i], Firing(s.waiters[i + 1..], s.status), s.status, p);
        DropMore(WaitersOf(k, p), |Sent([s.waiters[i]], s.status, p)|,
                 |Sent(Firing(s.waiters[i + 1..], s.status), s.status, p)|);
      } else {
        ExtractedDrops(k, o, i + 1, p);
      }
    }
  }

  /** A step adds the thread that joins behind the waiters of a port, and takes those it wakes from the front. */
  lemma WaitersAfter(w: World, st: Step, p: nat)
    requires Enabled(w, st)
    ensures WaitersOf(NextKernel(w, st), p)
         == Drop(WaitersOf(w.k, p), |SentBy(w, st, p)|) + JoinedBy(w, st, p)
  {
    hide Extracted, Firing, Intersects, Waiting;
    match st
    case SetSignal(o, signal, on) =>
      var s := w.k.objects[o];
      var status := Changed(s.status, signal, on);
      if status != s.status {
        ExtractedDrops(w.k.(objects := w.k.objects[o := Signal(status, s.waiters)]), o, 0, p);
        assert s.waiters[0..] == s.waiters;
      }
    case WaitPort(o, v) =>
      assert [v][1..] == [];
      assert |Sent([v], w.k.objects[o].status, p)| == if v.port == p then 1 else 0;
    case _ =>
  }

  /** In every run the waiters of a port are the threads that have joined it and have not been woken, in the order in
      which they joined; each notification sent to it wakes the first of them. */
  lemma {:induction false} PortsServeInOrder(ws: seq<World>, steps: seq<Step>, n: nat, p: nat)
    requires IsRun(ws, steps) && n < |ws|
    ensures WokenCount(ws, steps, n, p) <= |Joined(ws, steps, n, p)|
    ensures WaitersOf(ws[n].k, p) == Joined(ws, steps, n, p)[WokenCount(ws, steps, n, p)..]
  {
    hide Next, SentBy, Enabled, JoinedBy, WaitersOf, NextKernel;
    if n == 0 {
      NoWaiters(ws[0], p);
    } else {
      var w, st := ws[n - 1], steps[n - 1];
      PortsServeInOrder(ws, steps, n - 1, p);
      WaitersAfter(w, st, p);
      KernelOfNext(w, st);
      JoinBehind(Joined(ws, steps, n - 1, p), WokenCount(ws, steps, n - 1, p), |SentBy(w, st, p)|, JoinedBy(w, st, p));
    }
  }

  lemma NoWaiters(w: World, p: nat)
    requires w.k.ports == map[]
    ensures WaitersOf(w.k, p) == []
  {
  }

  lemma JoinBehind(joined: seq<nat>, woken: nat, m: nat, more: seq<nat>)
    requires woken <= |joined|
    ensures Least(woken + m, |joined|) <= |joined + more|
    ensures Drop(joined[woken..], m) + more == (joined + more)[Least(woken + m, |joined|)..]
  {
    assert Drop(joined[woken..], m) == joined[Least(woken + m, |joined|)..];
  }

  // ---------------------------------------------------------------------------
  // Objects
  // ---------------------------------------------------------------------------

  /** `a` is part of `b`, in the same order. */
  ghost predicate PartOf(a: seq<SignalWaiter>, b: seq<SignalWaiter>)
    decreases |b|
  {
    || a == []
    || (b != [] && PartOf(a, b[1..]))
    || (b != [] && a[0] == b[0] && PartOf(a[1..], b[1..]))
  }

  lemma {:induction false} PartMore(a: seq<SignalWaiter>, b: seq<SignalWaiter>, more: seq<SignalWaiter>)
    requires PartOf(a, b)
    ensures PartOf(a + more, b + more)
    decreases |b|
  {
    if b == [] {
      assert a + more == b + more;
      PartOfItself(b + more);
    } else {
      assert (b + more)[1..] == b[1..] + more && (b + more)[0] == b[0];
      if PartOf(a, b[1..]) {
        PartMore(a, b[1..], more);
      } else {
        PartMore(a[1..], b[1..], more);
        assert (a + more)[1..] == a[1..] + more && (a + more)[0] == a[0];
      }
    }
  }

  lemma {:induction false} PartOfItself(a: seq<SignalWaiter>)
    ensures PartOf(a, a)
  {
    if a != [] { PartOfItself(a[1..]); }
  }

  lemma {:induction false} PartTrans(a: seq<SignalWaiter>, b: seq<SignalWaiter>, c: seq<SignalWaiter>)
    requires PartOf(a, b) && PartOf(b, c)
    ensures PartOf(a, c)
    decreases |c|
  {
    if a != [] && b != [] {
      if PartOf(b, c[1..]) {
        PartTrans(a, b, c[1..]);
      } else if PartOf(a, b[1..]) {
        PartTrans(a, b[1..], c[1..]);
      } else {
        PartTrans(a[1..], b[1..], c[1..]);
      }
    }
  }

  /** Both the waiters that fire and those that stay are in the order they were in. */
  lemma {:induction false} PartsInOrder(ws: seq<SignalWaiter>, status: ObjectSignal)
    ensures PartOf(Firing(ws, status), ws) && PartOf(Staying(ws, status), ws)
  {
    hide Intersects;
    if ws != [] {
      var rest := ws[1..];
      PartsInOrder(rest, status);
      if Intersects(status, ws[0].mask) {
        assert Firing(ws, status)[1..] == Firing(rest, status) && Staying(ws, status) == Staying(rest, status);
      } else {
        assert Staying(ws, status)[1..] == Staying(rest, status) && Firing(ws, status) == Firing(rest, status);
      }
    }
  }

  function RegisteredWith(k: Kernel, o: nat): (r: seq<SignalWaiter>) {
    if o in k.objects then k.objects[o].waiters else []
  }

  /** A step leaves a registration behind the others, or takes out some and leaves the rest in order. */
  lemma ObjectWaitersAfter(w: World, st: Step, o: nat)
    requires Enabled(w, st)
    ensures PartOf(RegisteredWith(NextKernel(w, st), o), RegisteredWith(w.k, o) + LeftBy(w, st, o))
    ensures st.SetSignal? ==> PartOf(FiredBy(w, st), RegisteredWith(w.k, st.o))
  {
    hide Extracted, SignalSet, Intersects, Firing, Staying, PartOf;
    var ws := RegisteredWith(w.k, o);
    assert ws + [] == ws;
    PartOfItself(ws + LeftBy(w, st, o));
    if st.SetSignal? {
      var s := w.k.objects[st.o];
      SetSignalEffect(w.k, st.o, st.signal, st.on);
      PartsInOrder(s.waiters, Changed(s.status, st.signal, st.on));
      NoPart(s.waiters);
    }
  }

  lemma NoPart(b: seq<SignalWaiter>)
    ensures PartOf([], b)
  {
  }

  /** In every run the waiters of an object are some of the registrations left with it, in the order in which they
      were left; and those that a change of signals fires are fired in that order. */
  lemma {:induction false} ObjectsServeInOrder(ws: seq<World>, steps: seq<Step>, n: nat, o: nat)
    requires IsRun(ws, steps) && n < |ws|
    ensures PartOf(RegisteredWith(ws[n].k, o), Left(ws, steps, n, o))
    ensures n < |steps| && steps[n].SetSignal? && steps[n].o == o ==>
              PartOf(FiredBy(ws[n], steps[n]), Left(ws, steps, n, o))
  {
    hide Next, Enabled, LeftBy, RegisteredWith, NextKernel, PartOf, FiredBy;
    if n == 0 {
      NoRegistrations(ws[0], o);
      NoPart([]);
    } else {
      var w, st := ws[n - 1], steps[n - 1];
      ObjectsServeInOrder(ws, steps, n - 1, o);
      ObjectWaitersAfter(w, st, o);
      KernelOfNext(w, st);
      PartMore(RegisteredWith(w.k, o), Left(ws, steps, n - 1, o), LeftBy(w, st, o));
      PartTrans(RegisteredWith(ws[n].k, o), RegisteredWith(w.k, o) + LeftBy(w, st, o), Left(ws, steps, n, o));
    }
    if n < |steps| && steps[n].SetSignal? && steps[n].o == o {
      ObjectWaitersAfter(ws[n], steps[n], o);
      PartTrans(FiredBy(ws[n], steps[n]), RegisteredWith(ws[n].k, o), Left(ws, steps, n, o));
    }
  }

  lemma NoRegistrations(w: World, o: nat)
    requires w.k.objects == map[]
    ensures RegisteredWith(w.k, o) == []
  {
  }

  // ---------------------------------------------------------------------------
  // Sleepers
  // ---------------------------------------------------------------------------

  lemma SleepersAfter(w: World, st: Step)
    requires Enabled(w, st)
    ensures NextKernel(w, st).sleepers ==
            if st.Sleep? then w.k.sleepers + [Sleeper(st.wakeup, st.t)]
            else if st.CheckSleep? then Waiting(w.k.sleepers, st.now) else w.k.sleepers
  {
    hide Extracted, Intersects, Waiting;
    if st.SetSignal? {
      var s := w.k.objects[st.o];
      var status := Changed(s.status, st.signal, st.on);
      if status != s.status {
        ExtractedAll(w.k.(objects := w.k.objects[st.o := Signal(status, s.waiters)]), st.o);
      }
    }
  }

  /** In every run each sleeper is set to the time that its thread last asked for. */
  lemma {:induction false} SleepersAsAsked(ws: seq<World>, steps: seq<Step>, n: nat, x: Sleeper)
    requires IsRun(ws, steps) && n < |ws| && x in ws[n].k.sleepers
    ensures Asked(steps, n, x.thread) == Some(x.wakeup)
  {
    hide Next, NextKernel, Waiting;
    if n > 0 {
      var w, st := ws[n - 1], steps[n - 1];
      KernelOfNext(w, st);
      SleepersAfter(w, st);
      if x in w.k.sleepers {
        SleepersAsAsked(ws, steps, n - 1, x);
        if st.Sleep? && st.t == x.thread {
          RunKeepsInv(ws, steps, n - 1);
          InSleepAsleep(w.k, w.at, x.thread);
        }
      }
    }
  }

  /** In every run `check_sleep` wakes exactly the sleeping threads whose time, the one they asked for, has come. */
  lemma WokenInTime(ws: seq<World>, steps: seq<Step>, n: nat, t: nat)
    requires IsRun(ws, steps) && n < |steps| && steps[n].CheckSleep?
    requires t in ws[n].k.asleep && t in ws[n].at && ws[n].at[t] == InSleep
    ensures Asked(steps, n, t).Some?
    ensures t in ws[n + 1].k.asleep <==> Asked(steps, n, t).value > steps[n].now
  {
    hide Waiting, Sound, Waits, NextAt, NextGot, SentBy, MadeBy, FiredBy;
    var k := ws[n].k;
    RunKeepsInv(ws, steps, n);
    SleeperOf(k, ws[n].at, t);
    var x :| x in k.sleepers && x.thread == t;
    SleepersAsAsked(ws, steps, n, x);
    forall y | y in k.sleepers && y.thread == t
      ensures y.wakeup == x.wakeup
    {
      SleepersAsAsked(ws, steps, n, y);
    }
  }

  lemma SleeperOf(k: Kernel, at: map<nat, Resume>, t: nat)
    requires Sound(k, at) && t in k.asleep && t in at && at[t] == InSleep
    ensures Sleeps(k.sleepers, t)
  {
    assert Registered(k, at, t);
  }

  // ---------------------------------------------------------------------------
  // What notifications say
  // ---------------------------------------------------------------------------

  /** The notification is for a registration of the port: it gives the mask asked for, and signals that fire it. */
  predicate Answers(n: Notification, p: nat, made: seq<SignalWaiter>) {
    n.SignalOne? && ToPort(p, n.key, n.trigger) in made && Intersects(n.signals, n.trigger)
  }

  lemma {:induction false} SentAnswers(ws: seq<SignalWaiter>, status: ObjectSignal, p: nat, made: seq<SignalWaiter>)
    requires forall v :: v in ws ==> v in made && Intersects(status, v.mask)
    ensures forall n :: n in Sent(ws, status, p) ==> Answers(n, p, made)
  {
    hide Intersects;
    if ws != [] {
      SentAnswers(ws[1..], status, p, made);
      if ws[0].ToPort? && ws[0].port == p {
        assert ToPort(p, ws[0].key, ws[0].mask) == ws[0];
      }
    }
  }

  lemma {:induction false} FiringFires(ws: seq<SignalWaiter>, status: ObjectSignal)
    ensures forall v :: v in Firing(ws, status) ==> v in ws && Intersects(status, v.mask)
  {
    hide Intersects;
    if ws != [] { FiringFires(ws[1..], status); }
  }

  /** Every waiter of an object is a registration that was made. */
  ghost predicate WaitersMade(k: Kernel, made: seq<SignalWaiter>) {
    forall o, v :: o in k.objects && v in k.objects[o].waiters ==> v in made
  }

  lemma WaitersMadeAfter(w: World, st: Step)
    requires Enabled(w, st) && WaitersMade(w.k, w.made)
    ensures WaitersMade(NextKernel(w, st), w.made + MadeBy(w, st))
  {
    hide Extracted, SignalSet, Intersects;
    if st.SetSignal? {
      SetSignalEffect(w.k, st.o, st.signal, st.on);
    }
  }

  lemma SentByAnswers(w: World, st: Step, p: nat)
    requires Enabled(w, st) && WaitersMade(w.k, w.made) && !st.Push?
    ensures forall n :: n in SentBy(w, st, p) ==> Answers(n, p, w.made + MadeBy(w, st))
  {
    hide Sent, Intersects, Firing, Answers;
    match st
    case SetSignal(o, signal, on) =>
      var s := w.k.objects[o];
      var status := Changed(s.status, signal, on);
      FiringFires(s.waiters, status);
      SentAnswers(Firing(s.waiters, status), status, p, w.made + MadeBy(w, st));
    case WaitPort(o, v) =>
      if Intersects(w.k.objects[o].status, v.mask) {
        SentAnswers([v], w.k.objects[o].status, p, w.made + MadeBy(w, st));
      }
    case _ =>
  }

  lemma AnswersMore(n: Notification, p: nat, made: seq<SignalWaiter>, more: seq<SignalWaiter>)
    requires Answers(n, p, made)
    ensures Answers(n, p, made + more)
  {
  }

  /** In every run each notification sent for a signal answers a registration that was made: it carries the key and
      the mask of the registration, and a status that fires it. */
  lemma {:induction false} NotificationsAnswer(ws: seq<World>, steps: seq<Step>, n: nat, p: nat)
    requires IsRun(ws, steps) && n < |ws|
    ensures WaitersMade(ws[n].k, ws[n].made)
    ensures forall x :: x in Log(ws[n].signalled, p) ==> Answers(x, p, ws[n].made)
  {
    hide Next, NextKernel, Answers, WaitersMade, SentBy, MadeBy, Enabled;
    if n == 0 {
      NothingMade(ws[0]);
    } else {
      var w, st := ws[n - 1], steps[n - 1];
      NotificationsAnswer(ws, steps, n - 1, p);
      RunKeepsInv(ws, steps, n - 1);
      KernelOfNext(w, st);
      WaitersMadeAfter(w, st);
      SignalledLog(w, st, p);
      if !st.Push? { SentByAnswers(w, st, p); }
      forall x | x in Log(w.signalled, p)
        ensures Answers(x, p, ws[n].made)
      {
        AnswersMore(x, p, w.made, MadeBy(w, st));
      }
    }
  }

  lemma NothingMade(w: World)
    requires w.k.objects == map[]
    ensures WaitersMade(w.k, w.made)
  {
  }
}
