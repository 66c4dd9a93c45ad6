/**
 Every interleaving of threads that wait on ports, wait on objects, sleep, notify and set
 signals: no wake-up is lost and none is spurious.
 */
module SignalRuns {
  import opened Prelude
  import opened Signals
  import opened Registrations

  /** Where a thread goes on when it runs next. */
  datatype Resume = Outside | InPort(p: nat) | InObject(o: nat) | InSleep

  /** What the registrations of threads depend on. */
  ghost predicate PortsHold(k: Kernel, at: map<nat, Resume>) {
    forall p :: p in k.ports ==> WaitersOk(k, at, p, k.ports[p].waiters)
  }

  /** The waiters of a port are asleep in it, each once. */
  ghost predicate WaitersOk(k: Kernel, at: map<nat, Resume>, p: nat, ws: seq<nat>) {
    && (forall t :: t in ws ==> t in k.asleep && t in at && at[t] == InPort(p))
    && forall i, j :: 0 <= i < j < |ws| ==> ws[i] != ws[j]
  }

  ghost predicate ObjectsHold(k: Kernel, at: map<nat, Resume>) {
    forall o :: o in k.objects ==> ObjectOk(k, at, o, k.objects[o].waiters)
  }

  /** The threads registered with an object are asleep in it, each once; the ports exist. */
  ghost predicate ObjectOk(k: Kernel, at: map<nat, Resume>, o: nat, ws: seq<SignalWaiter>) {
    && (forall w :: w in ws && w.One? ==> w.thread in k.asleep && w.thread in at && at[w.thread] == InObject(o))
    && (forall w :: w in ws && w.ToPort? ==> w.port in k.ports)
    && forall i, j :: 0 <= i < j < |ws| && ws[i].One? && ws[j].One? ==> ws[i].thread != ws[j].thread
  }

  ghost predicate SleepersHold(k: Kernel, at: map<nat, Resume>) {
    && (forall x :: x in k.sleepers ==> x.thread in k.asleep && x.thread in at && at[x.thread] == InSleep)
    && OneEach(k.sleepers)
  }

  ghost predicate OneEach(ss: seq<Sleeper>) {
    forall i, j :: 0 <= i < j < |ss| ==> ss[i].thread != ss[j].thread
  }

  ghost predicate Waits(ws: seq<SignalWaiter>, t: nat) {
    exists w :: w in ws && w.One? && w.thread == t
  }

  ghost predicate Sleeps(ss: seq<Sleeper>, t: nat) {
    exists x :: x in ss && x.thread == t
  }

  /** Something will wake the thread from where it sleeps. */
  ghost predicate Registered(k: Kernel, at: map<nat, Resume>, t: nat) {
    && t in at
    && match at[t]
       case Outside => false
       case InPort(p) => p in k.ports && t in k.ports[p].waiters
       case InObject(o) => o in k.objects && Waits(k.objects[o].waiters, t)
       case InSleep => Sleeps(k.sleepers, t)
  }

  /** The threads woken from port `p` that have not tried again yet. */
  ghost function Retrying(k: Kernel, at: map<nat, Resume>, p: nat): (s: set<nat>) {
    set t | t in at && t !in k.asleep && at[t] == InPort(p)
  }

  /** While a thread sleeps in a port, every queued notification has a woken thread coming for it. */
  ghost predicate NoneLost(k: Kernel, at: map<nat, Resume>) {
    forall p :: p in k.ports && k.ports[p].waiters != [] ==> |k.ports[p].queue| <= |Retrying(k, at, p)|
  }

  /** A sleeping thread has one registration, where it sleeps; a thread awake has none. */
  ghost predicate Sound(k: Kernel, at: map<nat, Resume>) {
    && PortsHold(k, at) && ObjectsHold(k, at) && SleepersHold(k, at) && NoneLost(k, at)
    && forall t :: t in k.asleep ==> Registered(k, at, t)
  }

  /** No object has a waiter that its status fires. */
  ghost predicate NoneReady(k: Kernel) {
    forall o, w :: o in k.objects && w in k.objects[o].waiters ==> !Intersects(k.objects[o].status, w.mask)
  }

  // ---------------------------------------------------------------------------
  // Notifying and firing
  // ---------------------------------------------------------------------------

  lemma RetryingOneMore(k: Kernel, k': Kernel, at: map<nat, Resume>, t: nat, p: nat)
    requires t in k.asleep && t in at && k'.asleep == k.asleep - {t}
    ensures at[t] == InPort(p) ==> |Retrying(k', at, p)| == |Retrying(k, at, p)| + 1
    ensures at[t] != InPort(p) ==> Retrying(k', at, p) == Retrying(k, at, p)
  {
    if at[t] == InPort(p) {
      assert Retrying(k', at, p) == Retrying(k, at, p) + {t};
    }
  }

  lemma NotifyKeeps(k: Kernel, at: map<nat, Resume>, p: nat, n: Notification)
    requires Sound(k, at) && p in k.ports
    ensures Sound(Notified(k, p, n), at)
  {
    hide Waits, Sleeps, PortsHold, ObjectsHold, SleepersHold, Retrying;
    var k', ws := Notified(k, p, n), k.ports[p].waiters;
    if ws != [] {
      forall q
        ensures |Retrying(k', at, q)| == |Retrying(k, at, q)| + if q == p then 1 else 0
      {
        NotifyRetries(k, at, p, n, q);
      }
      forall u | u in k'.asleep
        ensures Registered(k', at, u)
      {
        assert Registered(k, at, u);
      }
      NotifyKeepsRegistrations(k, at, p, n);
    } else {
      QueueKeeps(k, at, p, n);
    }
  }

  lemma NotifyRetries(k: Kernel, at: map<nat, Resume>, p: nat, n: Notification, q: nat)
    requires PortsHold(k, at) && p in k.ports && k.ports[p].waiters != []
    ensures |Retrying(Notified(k, p, n), at, q)| == |Retrying(k, at, q)| + if q == p then 1 else 0
  {
    hide Retrying;
    assert WaitersOk(k, at, p, k.ports[p].waiters);
    RetryingOneMore(k, Notified(k, p, n), at, k.ports[p].waiters[0], q);
  }

  lemma QueueKeeps(k: Kernel, at: map<nat, Resume>, p: nat, n: Notification)
    requires Sound(k, at) && p in k.ports && k.ports[p].waiters == []
    ensures Sound(Notified(k, p, n), at)
  {
    hide Waits, Sleeps, PortsHold, ObjectsHold, SleepersHold;
    NotifyKeepsRegistrations(k, at, p, n);
    var k' := Notified(k, p, n);
    assert forall q :: Retrying(k', at, q) == Retrying(k, at, q);
    forall u | u in k'.asleep
      ensures Registered(k', at, u)
    {
      assert Registered(k, at, u);
    }
  }

  lemma NotifyKeepsRegistrations(k: Kernel, at: map<nat, Resume>, p: nat, n: Notification)
    requires PortsHold(k, at) && ObjectsHold(k, at) && SleepersHold(k, at) && p in k.ports
    ensures var k' := Notified(k, p, n); PortsHold(k', at) && ObjectsHold(k', at) && SleepersHold(k', at)
  {
    var k' := Notified(k, p, n);
    assert WaitersOk(k, at, p, k.ports[p].waiters);
    forall q | q in k'.ports
      ensures WaitersOk(k', at, q, k'.ports[q].waiters)
    {
      assert WaitersOk(k, at, q, k.ports[q].waiters);
    }
    forall o | o in k'.objects
      ensures ObjectOk(k', at, o, k'.objects[o].waiters)
    {
      assert ObjectOk(k, at, o, k.objects[o].waiters);
    }
  }

  /** Taking out a waiter that notifies a port. */
  lemma RemoveKeeps(k: Kernel, at: map<nat, Resume>, o: nat, i: nat)
    requires Sound(k, at) && o in k.objects && i < |k.objects[o].waiters| && k.objects[o].waiters[i].ToPort?
    ensures Sound(Removed(k, o, i), at)
  {
    hide Sleeps;
    var k', ws := Removed(k, o, i), k.objects[o].waiters;
    forall o' | o' in k'.objects
      ensures ObjectOk(k', at, o', k'.objects[o'].waiters)
    {
      assert ObjectOk(k, at, o', k.objects[o'].waiters);
    }
    forall p | p in k'.ports
      ensures WaitersOk(k', at, p, k'.ports[p].waiters)
    {
      assert WaitersOk(k, at, p, k.ports[p].waiters);
    }
    SameRetrying(k, k', at);
    forall t | t in k'.asleep
      ensures Registered(k', at, t)
    {
      assert Registered(k, at, t);
      if at[t] == InObject(o) { StillWaits(ws, i, t); }
    }
  }

  lemma SameRetrying(k: Kernel, k': Kernel, at: map<nat, Resume>)
    requires k'.asleep == k.asleep
    ensures forall p :: Retrying(k', at, p) == Retrying(k, at, p)
  {
  }

  lemma StillWaits(ws: seq<SignalWaiter>, i: nat, t: nat)
    requires i < |ws| && Waits(ws, t) && (ws[i].One? ==> ws[i].thread != t)
    ensures Waits(ws[..i] + ws[i + 1..], t)
  {
    var w :| w in ws && w.One? && w.thread == t;
    assert w in ws[..i] + ws[i + 1..];
  }

  /** Taking out a waiting thread and waking it. */
  lemma WakeKeeps(k: Kernel, at: map<nat, Resume>, o: nat, i: nat)
    requires Sound(k, at) && o in k.objects && i < |k.objects[o].waiters| && k.objects[o].waiters[i].One?
    ensures Sound(FiredAt(k, o, i), at)
  {
    hide Waits, Sleeps;
    var k', ws := FiredAt(k, o, i), k.objects[o].waiters;
    var t := ws[i].thread;
    assert ObjectOk(k, at, o, ws) && ws[i] in ws;
    forall p
      ensures |Retrying(k', at, p)| == |Retrying(k, at, p)|
    {
      RetryingOneMore(k, k', at, t, p);
    }
    forall o' | o' in k'.objects
      ensures ObjectOk(k', at, o', k'.objects[o'].waiters)
    {
      assert ObjectOk(k, at, o', k.objects[o'].waiters);
      if o' == o { OneTakenOut(k, at, o, i, k'); }
    }
    forall p | p in k'.ports
      ensures WaitersOk(k', at, p, k'.ports[p].waiters)
    {
      assert WaitersOk(k, at, p, k.ports[p].waiters);
    }
    forall u | u in k'.asleep
      ensures Registered(k', at, u)
    {
      assert Registered(k, at, u);
      if at[u] == InObject(o) { StillWaits(ws, i, u); }
    }
  }

  lemma OneTakenOut(k: Kernel, at: map<nat, Resume>, o: nat, i: nat, k': Kernel)
    requires o in k.objects && i < |k.objects[o].waiters| && k.objects[o].waiters[i].One?
    requires ObjectOk(k, at, o, k.objects[o].waiters)
    requires k'.asleep == k.asleep - {k.objects[o].waiters[i].thread} && k'.ports == k.ports
    ensures ObjectOk(k', at, o, k.objects[o].waiters[..i] + k.objects[o].waiters[i + 1..])
  {
    var ws := k.objects[o].waiters;
    var ws' := ws[..i] + ws[i + 1..];
    forall w | w in ws' && w.One?
      ensures w in ws && w.thread != ws[i].thread
    {
      var j :| 0 <= j < |ws'| && ws'[j] == w;
      assert w == ws[if j < i then j else j + 1];
    }
  }

  lemma FireKeeps(k: Kernel, at: map<nat, Resume>, o: nat, i: nat)
    requires Sound(k, at) && o in k.objects && i < |k.objects[o].waiters|
    ensures k.objects[o].waiters[i].ToPort? ==> k.objects[o].waiters[i].port in k.ports
    ensures Sound(FiredAt(k, o, i), at)
  {
    hide Sound;
    var w := k.objects[o].waiters[i];
    PortsExist(k, at, o);
    if w.ToPort? {
      RemoveKeeps(k, at, o, i);
      NotifyKeeps(Removed(k, o, i), at, w.port, SignalOne(w.key, w.mask, k.objects[o].status));
    } else {
      WakeKeeps(k, at, o, i);
    }
  }

  lemma PortsExist(k: Kernel, at: map<nat, Resume>, o: nat)
    requires Sound(k, at) && o in k.objects
    ensures PortsFrom(k, o, 0)
  {
    assert ObjectOk(k, at, o, k.objects[o].waiters);
  }

  lemma {:induction false} ExtractKeeps(k: Kernel, at: map<nat, Resume>, o: nat, i: nat)
    requires Sound(k, at) && o in k.objects && i <= |k.objects[o].waiters|
    ensures PortsFrom(k, o, i) && Sound(Extracted(k, o, i), at)
    decreases |k.objects[o].waiters| - i
  {
    hide Sound, FiredAt, Extracted;
    PortsExist(k, at, o);
    if i == |k.objects[o].waiters| {
      NothingLeftToExtract(k, o);
    } else {
      FireKeeps(k, at, o, i);
      FireEffect(k, o, i);
      ExtractedRound(k, o, i);
      if Intersects(k.objects[o].status, k.objects[o].waiters[i].mask) {
        ExtractKeeps(FiredAt(k, o, i), at, o, i);
      } else {
        ExtractKeeps(k, at, o, i + 1);
      }
    }
  }

  lemma StatusKeeps(k: Kernel, at: map<nat, Resume>, o: nat, status: ObjectSignal)
    requires Sound(k, at) && o in k.objects
    ensures Sound(k.(objects := k.objects[o := Signal(status, k.objects[o].waiters)]), at)
  {
    var k' := k.(objects := k.objects[o := Signal(status, k.objects[o].waiters)]);
    SameRetrying(k, k', at);
    forall p | p in k'.ports
      ensures WaitersOk(k', at, p, k'.ports[p].waiters)
    {
      assert WaitersOk(k, at, p, k.ports[p].waiters);
    }
    forall o' | o' in k'.objects
      ensures ObjectOk(k', at, o', k'.objects[o'].waiters)
    {
      assert ObjectOk(k, at, o', k.objects[o'].waiters);
    }
    forall t | t in k'.asleep
      ensures Registered(k', at, t)
    {
      assert Registered(k, at, t);
    }
  }

  lemma SetSignalKeeps(k: Kernel, at: map<nat, Resume>, o: nat, signal: ObjectSignal, on: bool)
    requires Sound(k, at) && o in k.objects
    ensures PortsFrom(k, o, 0) && Sound(SignalSet(k, o, signal, on), at)
  {
    hide Sound, Extracted;
    PortsExist(k, at, o);
    var s := k.objects[o];
    var status := Changed(s.status, signal, on);
    StatusKeeps(k, at, o, status);
    ExtractKeeps(k.(objects := k.objects[o := Signal(status, s.waiters)]), at, o, 0);
  }

  // ---------------------------------------------------------------------------
  // Waiting
  // ---------------------------------------------------------------------------

  predicate Awake(k: Kernel, at: map<nat, Resume>, t: nat) {
    t in at && t !in k.asleep
  }

  /** A thread that takes a notification out of a port is no longer coming for one. */
  lemma TakeKeeps(k: Kernel, at: map<nat, Resume>, p: nat, t: nat)
    requires Sound(k, at) && p in k.ports && Awake(k, at, t) && (at[t] == Outside || at[t] == InPort(p))
    requires k.ports[p].queue != []
    ensures Sound(Attempted(k, p, t), at[t := Outside])
  {
    hide Waits, Sleeps;
    var k', at' := Attempted(k, p, t), at[t := Outside];
    forall q
      ensures q != p || at[t] == Outside ==> Retrying(k', at', q) == Retrying(k, at, q)
      ensures |Retrying(k, at, q)| <= |Retrying(k', at', q)| + 1
    {
      assert Retrying(k, at, q) <= Retrying(k', at', q) + {t};
      SubsetSize(Retrying(k, at, q), Retrying(k', at', q) + {t});
    }
    AtChanged(k, k', at, at', t);
  }

  /** Changing where a thread that is awake goes on, with nothing registered for it. */
  lemma AtChanged(k: Kernel, k': Kernel, at: map<nat, Resume>, at': map<nat, Resume>, t: nat)
    requires PortsHold(k, at) && ObjectsHold(k, at) && SleepersHold(k, at) && t !in k.asleep
    requires forall u :: u in k.asleep ==> Registered(k, at, u)
    requires k'.objects == k.objects && k'.sleepers == k.sleepers && k'.asleep == k.asleep
    requires k'.ports.Keys == k.ports.Keys && forall p :: p in k.ports ==> k'.ports[p].waiters == k.ports[p].waiters
    requires forall u :: u in at && u != t ==> u in at' && at'[u] == at[u]
    ensures PortsHold(k', at') && ObjectsHold(k', at') && SleepersHold(k', at')
    ensures forall u :: u in k'.asleep ==> Registered(k', at', u)
  {
    hide Waits, Sleeps;
    forall p | p in k'.ports
      ensures WaitersOk(k', at', p, k'.ports[p].waiters)
    {
      assert WaitersOk(k, at, p, k.ports[p].waiters);
    }
    forall o | o in k'.objects
      ensures ObjectOk(k', at', o, k'.objects[o].waiters)
    {
      assert ObjectOk(k, at, o, k.objects[o].waiters);
    }
    forall u | u in k'.asleep
      ensures Registered(k', at', u)
    {
      assert Registered(k, at, u);
    }
  }

  /** A thread that finds a port empty becomes its last waiter. */
  lemma JoinKeeps(k: Kernel, at: map<nat, Resume>, p: nat, t: nat)
    requires Sound(k, at) && p in k.ports && Awake(k, at, t) && (at[t] == Outside || at[t] == InPort(p))
    requires k.ports[p].queue == []
    ensures Sound(Attempted(k, p, t), at[t := InPort(p)])
  {
    hide Waits, Sleeps, PortsHold, ObjectsHold, SleepersHold;
    var k', at' := Attempted(k, p, t), at[t := InPort(p)];
    JoinKeepsRegistrations(k, at, p, t);
    forall q | q != p
      ensures Retrying(k', at', q) == Retrying(k, at, q)
    {
    }
    forall u | u in k'.asleep
      ensures Registered(k', at', u)
    {
      if u != t { assert Registered(k, at, u); }
    }
  }

  lemma JoinKeepsRegistrations(k: Kernel, at: map<nat, Resume>, p: nat, t: nat)
    requires PortsHold(k, at) && ObjectsHold(k, at) && SleepersHold(k, at) && p in k.ports && Awake(k, at, t)
    requires (at[t] == Outside || at[t] == InPort(p)) && k.ports[p].queue == []
    ensures var k', at' := Attempted(k, p, t), at[t := InPort(p)];
            PortsHold(k', at') && ObjectsHold(k', at') && SleepersHold(k', at')
  {
    var k', at' := Attempted(k, p, t), at[t := InPort(p)];
    assert WaitersOk(k, at, p, k.ports[p].waiters);
    forall q | q in k'.ports
      ensures WaitersOk(k', at', q, k'.ports[q].waiters)
    {
      assert WaitersOk(k, at, q, k.ports[q].waiters);
    }
    forall o | o in k'.objects
      ensures ObjectOk(k', at', o, k'.objects[o].waiters)
    {
      assert ObjectOk(k, at, o, k.objects[o].waiters);
    }
  }

  lemma ThreadWaitsKeeps(k: Kernel, at: map<nat, Resume>, o: nat, t: nat, mask: ObjectSignal)
    requires Sound(k, at) && o in k.objects && Awake(k, at, t) && at[t] == Outside
    requires !Intersects(k.objects[o].status, mask)
    ensures Sound(ThreadWaits(k, o, t, mask), at[t := InObject(o)])
  {
    hide Sleeps;
    var k', at', ws := ThreadWaits(k, o, t, mask), at[t := InObject(o)], k.objects[o].waiters;
    assert forall q :: Retrying(k', at', q) == Retrying(k, at, q);
    forall q | q in k'.ports
      ensures WaitersOk(k', at', q, k'.ports[q].waiters)
    {
      assert WaitersOk(k, at, q, k.ports[q].waiters);
    }
    forall o' | o' in k'.objects
      ensures ObjectOk(k', at', o', k'.objects[o'].waiters)
    {
      assert ObjectOk(k, at, o', k.objects[o'].waiters);
    }
    assert One(t, mask) in ws + [One(t, mask)];
    forall u | u in k'.asleep
      ensures Registered(k', at', u)
    {
      if u != t {
        assert Registered(k, at, u);
        if at[u] == InObject(o) { WaitsMore(ws, One(t, mask), u); }
      }
    }
  }

  lemma WaitsMore(ws: seq<SignalWaiter>, w: SignalWaiter, t: nat)
    requires Waits(ws, t)
    ensures Waits(ws + [w], t)
  {
    var v :| v in ws && v.One? && v.thread == t;
    assert v in ws + [w];
  }

  lemma PortWaitsKeeps(k: Kernel, at: map<nat, Resume>, o: nat, w: SignalWaiter)
    requires Sound(k, at) && o in k.objects && w.ToPort? && w.port in k.ports
    ensures Sound(PortWaits(k, o, w), at)
  {
    var s := k.objects[o];
    if Intersects(s.status, w.mask) {
      NotifyKeeps(k, at, w.port, SignalOne(w.key, w.mask, s.status));
    } else {
      RegisterKeeps(k, at, o, w);
    }
  }

  lemma RegisterKeeps(k: Kernel, at: map<nat, Resume>, o: nat, w: SignalWaiter)
    requires Sound(k, at) && o in k.objects && w.ToPort? && w.port in k.ports
    ensures Sound(k.(objects := k.objects[o := Signal(k.objects[o].status, k.objects[o].waiters + [w])]), at)
  {
    hide Sleeps, Waits;
    var s := k.objects[o];
    var k' := k.(objects := k.objects[o := Signal(s.status, s.waiters + [w])]);
    SameRetrying(k, k', at);
    forall q | q in k'.ports
      ensures WaitersOk(k', at, q, k'.ports[q].waiters)
    {
      assert WaitersOk(k, at, q, k.ports[q].waiters);
    }
    forall o' | o' in k'.objects
      ensures ObjectOk(k', at, o', k'.objects[o'].waiters)
    {
      assert ObjectOk(k, at, o', k.objects[o'].waiters);
    }
    forall u | u in k'.asleep
      ensures Registered(k', at, u)
    {
      assert Registered(k, at, u);
      if at[u] == InObject(o) { WaitsMore(s.waiters, w, u); }
    }
  }

  lemma SleepKeeps(k: Kernel, at: map<nat, Resume>, t: nat, wakeup: nat)
    requires Sound(k, at) && Awake(k, at, t) && at[t] == Outside
    ensures Sound(k.(sleepers := k.sleepers + [Sleeper(wakeup, t)], asleep := k.asleep + {t}), at[t := InSleep])
  {
    hide Waits;
    var k', at' := k.(sleepers := k.sleepers + [Sleeper(wakeup, t)], asleep := k.asleep + {t}), at[t := InSleep];
    assert forall q :: Retrying(k', at', q) == Retrying(k, at, q);
    forall q | q in k'.ports
      ensures WaitersOk(k', at', q, k'.ports[q].waiters)
    {
      assert WaitersOk(k, at, q, k.ports[q].waiters);
    }
    forall o | o in k'.objects
      ensures ObjectOk(k', at', o, k'.objects[o].waiters)
    {
      assert ObjectOk(k, at, o, k.objects[o].waiters);
    }
    assert Sleeper(wakeup, t) in k'.sleepers;
    forall u | u in k'.asleep
      ensures Registered(k', at', u)
    {
      if u != t {
        assert Registered(k, at, u);
        if at[u] == InSleep {
          var x :| x in k.sleepers && x.thread == u;
          assert x in k'.sleepers;
        }
      }
    }
  }

  lemma {:induction false} WaitingDistinct(ss: seq<Sleeper>, now: nat)
    requires OneEach(ss)
    ensures OneEach(Waiting(ss, now))
  {
    if ss != [] {
      var rest := Waiting(ss[1..], now);
      WaitingDistinct(ss[1..], now);
      if ss[0].wakeup > now {
        PrependDistinct(ss, rest);
        assert Waiting(ss, now) == [ss[0]] + rest;
      } else {
        assert Waiting(ss, now) == [] + rest == rest;
      }
    }
  }

  lemma PrependDistinct(ss: seq<Sleeper>, rest: seq<Sleeper>)
    requires ss != [] && OneEach(ss) && OneEach(rest) && forall x :: x in rest ==> x in ss[1..]
    ensures OneEach([ss[0]] + rest)
  {
    var r := [ss[0]] + rest;
    forall i, j | 0 <= i < j < |r|
      ensures r[i].thread != r[j].thread
    {
      assert r[j] in rest;
    }
  }

  lemma CheckSleepKeeps(k: Kernel, at: map<nat, Resume>, now: nat)
    requires Sound(k, at)
    ensures Sound(SleepChecked(k, now), at)
  {
    hide Waits;
    var k' := SleepChecked(k, now);
    WaitingDistinct(k.sleepers, now);
    assert SleepersHold(k, at);
    assert forall q :: Retrying(k', at, q) == Retrying(k, at, q);
    forall q | q in k'.ports
      ensures WaitersOk(k', at, q, k'.ports[q].waiters)
    {
      assert WaitersOk(k, at, q, k.ports[q].waiters);
    }
    forall o | o in k'.objects
      ensures ObjectOk(k', at, o, k'.objects[o].waiters)
    {
      assert ObjectOk(k, at, o, k.objects[o].waiters);
    }
    forall x | x in k'.sleepers
      ensures x.thread in k'.asleep
    {
      OneSleeper(k.sleepers, x, now);
    }
    forall u | u in k'.asleep
      ensures Registered(k', at, u)
    {
      assert Registered(k, at, u);
      if at[u] == InSleep {
        var x :| x in k.sleepers && x.thread == u;
        assert x in k'.sleepers;
      }
    }
  }

  lemma OneSleeper(ss: seq<Sleeper>, x: Sleeper, now: nat)
    requires OneEach(ss) && x in ss && x.wakeup > now
    ensures forall y :: y in ss && y.wakeup <= now ==> y.thread != x.thread
  {
  }

  // ---------------------------------------------------------------------------
  // Every run
  // ---------------------------------------------------------------------------

  /** `sent` and `got` record, for each port, what was sent to it and what threads took out of it;
      `signalled` is what was sent other than by a push. `made` and `fired` record the registrations. */
  datatype World = World(k: Kernel, at: map<nat, Resume>,
                         sent: map<nat, seq<Notification>>, got: map<nat, seq<Notification>>,
                         signalled: map<nat, seq<Notification>>,
                         made: seq<SignalWaiter>, fired: seq<SignalWaiter>)

  datatype Step =
    | NewThread(t: nat)
    | NewPort(p: nat)
    | NewObject(o: nat, status: ObjectSignal)
    | TryPort(t: nat, p: nat)
    | Push(p: nat, n: Notification)
    | WaitObject(t: nat, o: nat, mask: ObjectSignal)
    | WaitPort(o: nat, w: SignalWaiter)
    | SetSignal(o: nat, signal: ObjectSignal, on: bool)
    | Sleep(t: nat, wakeup: nat)
    | CheckSleep(now: nat)
    | Return(t: nat)

  /** Only a thread that is awake acts; one that was woken in a port first tries the port again. */
  predicate Enabled(w: World, st: Step) {
    match st
    case NewThread(t) => t !in w.at
    case NewPort(p) => p !in w.k.ports
    case NewObject(o, _) => o !in w.k.objects
    case TryPort(t, p) => Awake(w.k, w.at, t) && p in w.k.ports && (w.at[t] == Outside || w.at[t] == InPort(p))
    case Push(p, _) => p in w.k.ports
    case WaitObject(t, o, _) => Awake(w.k, w.at, t) && w.at[t] == Outside && o in w.k.objects
    case WaitPort(o, v) => o in w.k.objects && v.ToPort? && v.port in w.k.ports
    case SetSignal(o, _, _) => o in w.k.objects && PortsFrom(w.k, o, 0)
    case Sleep(t, _) => Awake(w.k, w.at, t) && w.at[t] == Outside
    case CheckSleep(_) => true
    case Return(t) => Awake(w.k, w.at, t) && (w.at[t].InObject? || w.at[t].InSleep?)
  }

  function Log(log: map<nat, seq<Notification>>, p: nat): (r: seq<Notification>) {
    if p in log then log[p] else []
  }

  /** What a step sends to port `p`. */
  function SentBy(w: World, st: Step, p: nat): (r: seq<Notification>)
    requires Enabled(w, st)
  {
    match st
    case Push(q, n) => if q == p then [n] else []
    case WaitPort(o, v) =>
      var s := w.k.objects[o];
      if Intersects(s.status, v.mask) then Sent([v], s.status, p) else []
    case SetSignal(o, signal, on) =>
      var s := w.k.objects[o];
      var status := Changed(s.status, signal, on);
      if status == s.status then [] else Sent(Firing(s.waiters, status), status, p)
    case _ => []
  }

  /** The registration a step makes. */
  function MadeBy(w: World, st: Step): (r: seq<SignalWaiter>)
    requires Enabled(w, st)
  {
    match st
    case WaitPort(_, v) => [v]
    case WaitObject(t, o, mask) => if Intersects(w.k.objects[o].status, mask) then [] else [One(t, mask)]
    case _ => []
  }

  /** The registrations a step fires. */
  function FiredBy(w: World, st: Step): (r: seq<SignalWaiter>)
    requires Enabled(w, st)
  {
    match st
    case WaitPort(o, v) => if Intersects(w.k.objects[o].status, v.mask) then [v] else []
    case SetSignal(o, signal, on) =>
      var s := w.k.objects[o];
      var status := Changed(s.status, signal, on);
      if status == s.status then [] else Firing(s.waiters, status)
    case _ => []
  }

  ghost function NextKernel(w: World, st: Step): (k: Kernel)
    requires Enabled(w, st)
  {
    match st
    case NewThread(_) => w.k
    case NewPort(p) => w.k.(ports := w.k.ports[p := Port([], [])])
    case NewObject(o, status) => w.k.(objects := w.k.objects[o := Signal(status, [])])
    case TryPort(t, p) => Attempted(w.k, p, t)
    case Push(p, n) => Notified(w.k, p, n)
    case WaitObject(t, o, mask) => ThreadWaits(w.k, o, t, mask)
    case WaitPort(o, v) => PortWaits(w.k, o, v)
    case SetSignal(o, signal, on) => SignalSet(w.k, o, signal, on)
    case Sleep(t, wakeup) => w.k.(sleepers := w.k.sleepers + [Sleeper(wakeup, t)], asleep := w.k.asleep + {t})
    case CheckSleep(now) => SleepChecked(w.k, now)
    case Return(_) => w.k
  }

  ghost function NextAt(w: World, st: Step): (at: map<nat, Resume>)
    requires Enabled(w, st)
  {
    match st
    case NewThread(t) => w.at[t := Outside]
    case TryPort(t, p) => w.at[t := if w.k.ports[p].queue == [] then InPort(p) else Outside]
    case WaitObject(t, o, mask) => if Intersects(w.k.objects[o].status, mask) then w.at else w.at[t := InObject(o)]
    case Sleep(t, _) => w.at[t := InSleep]
    case Return(t) => w.at[t := Outside]
    case _ => w.at
  }

  ghost function NextGot(w: World, st: Step): (got: map<nat, seq<Notification>>)
    requires Enabled(w, st)
  {
    if st.TryPort? && w.k.ports[st.p].queue != []
    then w.got[st.p := Log(w.got, st.p) + [w.k.ports[st.p].queue[0]]] else w.got
  }

  ghost function Next(w: World, st: Step): (w': World)
    requires Enabled(w, st)
  {
    var k := NextKernel(w, st);
    World(k, NextAt(w, st), map p | p in k.ports :: Log(w.sent, p) + SentBy(w, st, p), NextGot(w, st),
          map p | p in k.ports :: Log(w.signalled, p) + (if st.Push? then [] else SentBy(w, st, p)),
          w.made + MadeBy(w, st), w.fired + FiredBy(w, st))
  }

  lemma KernelOfNext(w: World, st: Step)
    requires Enabled(w, st)
    ensures Next(w, st).k == NextKernel(w, st) && Next(w, st).at == NextAt(w, st)
    ensures Next(w, st).made == w.made + MadeBy(w, st)
  {
    hide NextKernel, NextAt, NextGot, SentBy, MadeBy, FiredBy, Enabled;
  }

  /** Notifications are taken out once each and in order. */
  ghost predicate InOrder(w: World) {
    && (forall p :: p in w.k.ports ==> Log(w.sent, p) == Log(w.got, p) + w.k.ports[p].queue)
    && forall p :: p !in w.k.ports ==> Log(w.sent, p) == [] && Log(w.got, p) == []
  }

  /** Every registration is still waiting or has fired, once; and one that fired for a key of a port has
      sent that port one notification. */
  ghost predicate FireOnce(w: World) {
    && (forall target: Target :: Count(w.made, target) == Pending(w.k.objects, target) + Count(w.fired, target))
    && (forall p: nat, key: nat :: Notes(Log(w.signalled, p), key) == Count(w.fired, Key(p, key)))
    && w.signalled.Keys <= w.k.ports.Keys
  }

  ghost predicate Inv(w: World) {
    Sound(w.k, w.at) && NoneReady(w.k) && InOrder(w) && FireOnce(w)
  }

  lemma SleepersKnown(k: Kernel, at: map<nat, Resume>)
    requires Sound(k, at)
    ensures k.asleep <= at.Keys
  {
    forall t | t in k.asleep
      ensures t in at
    {
      assert Registered(k, at, t);
    }
  }

  lemma NewThreadKeeps(k: Kernel, at: map<nat, Resume>, t: nat)
    requires Sound(k, at) && t !in at
    ensures Sound(k, at[t := Outside])
  {
    hide Waits, Sleeps;
    SleepersKnown(k, at);
    AtChanged(k, k, at, at[t := Outside], t);
    assert forall q :: Retrying(k, at[t := Outside], q) == Retrying(k, at, q);
  }

  lemma ReturnKeeps(k: Kernel, at: map<nat, Resume>, t: nat)
    requires Sound(k, at) && Awake(k, at, t) && !at[t].InPort?
    ensures Sound(k, at[t := Outside])
  {
    hide Waits, Sleeps;
    AtChanged(k, k, at, at[t := Outside], t);
    assert forall q :: Retrying(k, at[t := Outside], q) == Retrying(k, at, q);
  }

  lemma NewPortKeeps(k: Kernel, at: map<nat, Resume>, p: nat)
    requires Sound(k, at) && p !in k.ports
    ensures Sound(k.(ports := k.ports[p := Port([], [])]), at)
  {
    hide Waits, Sleeps;
    var k' := k.(ports := k.ports[p := Port([], [])]);
    SameRetrying(k, k', at);
    forall q | q in k'.ports
      ensures WaitersOk(k', at, q, k'.ports[q].waiters)
    {
      if q != p { assert WaitersOk(k, at, q, k.ports[q].waiters); }
    }
    forall o | o in k'.objects
      ensures ObjectOk(k', at, o, k'.objects[o].waiters)
    {
      assert ObjectOk(k, at, o, k.objects[o].waiters);
    }
    forall u | u in k'.asleep
      ensures Registered(k', at, u)
    {
      assert Registered(k, at, u);
    }
  }

  lemma NewObjectKeeps(k: Kernel, at: map<nat, Resume>, o: nat, status: ObjectSignal)
    requires Sound(k, at) && o !in k.objects
    ensures Sound(k.(objects := k.objects[o := Signal(status, [])]), at)
  {
    hide Waits, Sleeps;
    var k' := k.(objects := k.objects[o := Signal(status, [])]);
    SameRetrying(k, k', at);
    forall q | q in k'.ports
      ensures WaitersOk(k', at, q, k'.ports[q].waiters)
    {
      assert WaitersOk(k, at, q, k.ports[q].waiters);
    }
    forall o' | o' in k'.objects
      ensures ObjectOk(k', at, o', k'.objects[o'].waiters)
    {
      if o' != o { assert ObjectOk(k, at, o', k.objects[o'].waiters); }
    }
    forall u | u in k'.asleep
      ensures Registered(k', at, u)
    {
      assert Registered(k, at, u);
    }
  }

  lemma StepKeepsSound(w: World, st: Step)
    requires Sound(w.k, w.at) && Enabled(w, st)
    ensures Sound(NextKernel(w, st), NextAt(w, st))
  {
    hide Sound, Extracted, SignalSet, PortWaits, Notified, SleepChecked;
    match st
    case NewThread(t) => NewThreadKeeps(w.k, w.at, t);
    case NewPort(p) => NewPortKeeps(w.k, w.at, p);
    case NewObject(o, status) => NewObjectKeeps(w.k, w.at, o, status);
    case TryPort(t, p) =>
      if w.k.ports[p].queue == [] { JoinKeeps(w.k, w.at, p, t); } else { TakeKeeps(w.k, w.at, p, t); }
    case Push(p, n) => NotifyKeeps(w.k, w.at, p, n);
    case WaitObject(t, o, mask) =>
      if !Intersects(w.k.objects[o].status, mask) { ThreadWaitsKeeps(w.k, w.at, o, t, mask); }
    case WaitPort(o, v) => PortWaitsKeeps(w.k, w.at, o, v);
    case SetSignal(o, signal, on) => SetSignalKeeps(w.k, w.at, o, signal, on);
    case Sleep(t, wakeup) => SleepKeeps(w.k, w.at, t, wakeup);
    case CheckSleep(now) => CheckSleepKeeps(w.k, w.at, now);
    case Return(t) => ReturnKeeps(w.k, w.at, t);
  }

  /** What a step does to objects and queues. */
  lemma SetSignalEffect(k: Kernel, o: nat, signal: ObjectSignal, on: bool)
    requires o in k.objects && PortsFrom(k, o, 0)
    ensures var s, status, k' := k.objects[o], Changed(k.objects[o].status, signal, on), SignalSet(k, o, signal, on);
            && (status == s.status ==> k' == k)
            && (status != s.status ==> k'.objects == k.objects[o := Signal(status, Staying(s.waiters, status))])
            && (status != s.status ==> forall p :: p in k.ports ==>
                  p in k'.ports && k'.ports[p].queue == k.ports[p].queue + Sent(Firing(s.waiters, status), status, p))
            && k'.ports.Keys == k.ports.Keys
  {
    hide Extracted, Staying, Firing, Sent;
    var s, status := k.objects[o], Changed(k.objects[o].status, signal, on);
    if status != s.status {
      ExtractedAll(k.(objects := k.objects[o := Signal(status, s.waiters)]), o);
    }
  }

  lemma StepKeepsNoneReady(w: World, st: Step)
    requires NoneReady(w.k) && Enabled(w, st)
    ensures NoneReady(NextKernel(w, st))
  {
    hide Extracted, SignalSet, Intersects;
    if st.SetSignal? {
      SetSignalEffect(w.k, st.o, st.signal, st.on);
    }
  }

  function QueueOf(k: Kernel, p: nat): (q: seq<Notification>) {
    if p in k.ports then k.ports[p].queue else []
  }

  predicate Takes(w: World, st: Step, p: nat) {
    st.TryPort? && st.p == p && QueueOf(w.k, p) != []
  }

  /** A queue only grows by what is sent to it, and only shrinks when a thread takes its head. */
  lemma QueueAfter(w: World, st: Step, p: nat)
    requires Enabled(w, st)
    ensures p in w.k.ports ==> p in NextKernel(w, st).ports
    ensures QueueOf(NextKernel(w, st), p) ==
            if Takes(w, st, p) then QueueOf(w.k, p)[1..] else QueueOf(w.k, p) + SentBy(w, st, p)
    ensures p !in NextKernel(w, st).ports ==> SentBy(w, st, p) == []
  {
    hide Extracted, SignalSet, Intersects, Firing, Waiting;
    if st.SetSignal? {
      SetSignalEffect(w.k, st.o, st.signal, st.on);
      if p !in w.k.ports { NotSent(w.k, st.o, Changed(w.k.objects[st.o].status, st.signal, st.on), p); }
    } else if st.WaitPort? {
      var v, status := st.w, w.k.objects[st.o].status;
      assert Sent([v], status, p) == if v.port == p then [SignalOne(v.key, v.mask, status)] else [];
    }
  }

  lemma NotSent(k: Kernel, o: nat, status: ObjectSignal, p: nat)
    requires o in k.objects && PortsFrom(k, o, 0) && p !in k.ports
    ensures Sent(Firing(k.objects[o].waiters, status), status, p) == []
  {
    NoneSent(k.objects[o].waiters, status, p);
  }

  lemma {:induction false} NoneSent(ws: seq<SignalWaiter>, status: ObjectSignal, p: nat)
    requires forall j :: 0 <= j < |ws| && ws[j].ToPort? ==> ws[j].port != p
    ensures Sent(Firing(ws, status), status, p) == []
  {
    if ws != [] {
      NoneSent(ws[1..], status, p);
      if Intersects(status, ws[0].mask) { SentOne(ws[0], Firing(ws[1..], status), status, p); }
      assert [] + Firing(ws[1..], status) == Firing(ws[1..], status);
    }
  }

  lemma StepKeepsOrder(w: World, st: Step)
    requires InOrder(w) && Enabled(w, st)
    ensures InOrder(Next(w, st))
  {
    hide NextKernel, NextAt, NextGot, SentBy, Log;
    forall p
      ensures Log(Next(w, st).sent, p) == Log(Next(w, st).got, p) + QueueOf(Next(w, st).k, p)
      ensures p !in Next(w, st).k.ports ==> Log(Next(w, st).sent, p) == [] && Log(Next(w, st).got, p) == []
    {
      PortOrder(w, st, p);
    }
  }

  lemma PortOrder(w: World, st: Step, p: nat)
    requires InOrder(w) && Enabled(w, st)
    ensures Log(Next(w, st).sent, p) == Log(Next(w, st).got, p) + QueueOf(Next(w, st).k, p)
    ensures p !in Next(w, st).k.ports ==> Log(Next(w, st).sent, p) == [] && Log(Next(w, st).got, p) == []
  {
    hide Next, NextKernel, SentBy, InOrder, Log, Takes, QueueOf;
    OrderBefore(w, p);
    QueueAfter(w, st, p);
    LogsAfter(w, st, p);
    var sent, got, q := Log(w.sent, p), Log(w.got, p), QueueOf(w.k, p);
    if Takes(w, st, p) {
      TakeInOrder(sent, got, q);
    } else {
      SendInOrder(sent, got, q, SentBy(w, st, p));
    }
  }

  lemma OrderBefore(w: World, p: nat)
    requires InOrder(w)
    ensures Log(w.sent, p) == Log(w.got, p) + QueueOf(w.k, p)
    ensures p !in w.k.ports ==> Log(w.sent, p) == [] && Log(w.got, p) == [] && QueueOf(w.k, p) == []
  {
  }

  lemma LogsAfter(w: World, st: Step, p: nat)
    requires Enabled(w, st) && InOrder(w)
    ensures Next(w, st).k == NextKernel(w, st)
    ensures p in w.k.ports ==> p in NextKernel(w, st).ports
    ensures Log(Next(w, st).sent, p) == Log(w.sent, p) + SentBy(w, st, p)
    ensures if Takes(w, st, p)
            then QueueOf(w.k, p) != [] && SentBy(w, st, p) == [] && Log(Next(w, st).got, p) == Log(w.got, p) + [QueueOf(w.k, p)[0]]
            else Log(Next(w, st).got, p) == Log(w.got, p)
    ensures p !in NextKernel(w, st).ports ==> SentBy(w, st, p) == [] && !Takes(w, st, p)
  {
    hide NextKernel, NextAt, SentBy, MadeBy, FiredBy;
    QueueAfter(w, st, p);
    if Takes(w, st, p) { NothingSentWhenTaking(w, st, p); }
  }

  lemma TakeInOrder<T>(sent: seq<T>, got: seq<T>, q: seq<T>)
    requires sent == got + q && q != []
    ensures sent + [] == got + [q[0]] + q[1..]
  {
  }

  lemma SendInOrder<T>(sent: seq<T>, got: seq<T>, q: seq<T>, more: seq<T>)
    requires sent == got + q
    ensures sent + more == got + (q + more)
  {
  }

  lemma NothingSentWhenTaking(w: World, st: Step, p: nat)
    requires Enabled(w, st) && Takes(w, st, p)
    ensures SentBy(w, st, p) == []
  {
  }

  /** One step adds to the registrations made what it adds to those waiting and those fired. */
  lemma RegistrationsAfter(w: World, st: Step, target: Target)
    requires Enabled(w, st)
    ensures Count(MadeBy(w, st), target) + Pending(w.k.objects, target)
         == Pending(NextKernel(w, st).objects, target) + Count(FiredBy(w, st), target)
  {
    hide Extracted, SignalSet, Intersects, Firing, Staying, Pending;
    match st
    case SetSignal(o, signal, on) =>
      var s := w.k.objects[o];
      var status := Changed(s.status, signal, on);
      SetSignalEffect(w.k, o, signal, on);
      CountParts(s.waiters, status, target);
      PendingChanged(w.k.objects, o, Signal(status, Staying(s.waiters, status)), target);
    case WaitPort(o, v) =>
      var s := w.k.objects[o];
      CountJoin(s.waiters, [v], target);
      PendingChanged(w.k.objects, o, Signal(s.status, s.waiters + [v]), target);
    case WaitObject(t, o, mask) =>
      var s := w.k.objects[o];
      CountJoin(s.waiters, [One(t, mask)], target);
      PendingChanged(w.k.objects, o, Signal(s.status, s.waiters + [One(t, mask)]), target);
    case NewObject(o, status) => PendingChanged(w.k.objects, o, Signal(status, []), target);
    case _ =>
  }

  /** What a step sends to a port other than by a push is one notification for each registration fired. */
  lemma SignalledAfter(w: World, st: Step, p: nat, key: nat)
    requires Enabled(w, st)
    ensures Notes(if st.Push? then [] else SentBy(w, st, p), key) == Count(FiredBy(w, st), Key(p, key))
  {
    hide Intersects, Firing, Sent;
    match st
    case SetSignal(o, signal, on) =>
      var s := w.k.objects[o];
      var status := Changed(s.status, signal, on);
      NotesSent(Firing(s.waiters, status), status, p, key);
    case WaitPort(o, v) => NotesSent([v], w.k.objects[o].status, p, key);
    case _ =>
  }

  lemma SignalledLog(w: World, st: Step, p: nat)
    requires Enabled(w, st) && w.signalled.Keys <= w.k.ports.Keys
    ensures Log(Next(w, st).signalled, p) == Log(w.signalled, p) + if st.Push? then [] else SentBy(w, st, p)
    ensures Next(w, st).signalled.Keys <= Next(w, st).k.ports.Keys
  {
    hide NextKernel, NextAt, NextGot, SentBy, MadeBy, FiredBy;
    QueueAfter(w, st, p);
  }

  lemma StepKeepsFireOnce(w: World, st: Step)
    requires FireOnce(w) && Enabled(w, st)
    ensures FireOnce(Next(w, st))
  {
    hide Count, Pending, Notes, NextKernel, NextAt, NextGot, SentBy, MadeBy, FiredBy;
    var w' := Next(w, st);
    forall target: Target
      ensures Count(w'.made, target) == Pending(w'.k.objects, target) + Count(w'.fired, target)
    {
      RegistrationsAfter(w, st, target);
      CountJoin(w.made, MadeBy(w, st), target);
      CountJoin(w.fired, FiredBy(w, st), target);
    }
    forall p: nat, key: nat
      ensures Notes(Log(w'.signalled, p), key) == Count(w'.fired, Key(p, key))
    {
      SignalledAfter(w, st, p, key);
      CountJoin(w.fired, FiredBy(w, st), Key(p, key));
      SignalledLog(w, st, p);
      NotesJoin(Log(w.signalled, p), if st.Push? then [] else SentBy(w, st, p), key);
    }
  }

  ghost predicate IsRun(ws: seq<World>, steps: seq<Step>) {
    && |ws| == |steps| + 1 && ws[0] == World(Kernel(map[], map[], [], {}), map[], map[], map[], map[], [], [])
    && forall i: nat :: i < |steps| ==> Enabled(ws[i], steps[i]) && ws[i + 1] == Next(ws[i], steps[i])
  }

  lemma {:induction false} RunKeepsInv(ws: seq<World>, steps: seq<Step>, n: nat)
    requires IsRun(ws, steps) && n < |ws|
    ensures Inv(ws[n])
  {
    if n > 0 {
      RunKeepsInv(ws, steps, n - 1);
      StepKeepsAll(ws[n - 1], steps[n - 1]);
    }
  }

  lemma StepKeepsAll(w: World, st: Step)
    requires Inv(w) && Enabled(w, st)
    ensures Inv(Next(w, st))
  {
    hide Sound, NoneReady, InOrder, FireOnce, NextKernel, NextAt, NextGot, SentBy, MadeBy, FiredBy;
    StepKeepsSound(w, st);
    StepKeepsNoneReady(w, st);
    StepKeepsOrder(w, st);
    StepKeepsFireOnce(w, st);
  }

  /** What holds at every moment of every run: a port with a sleeping waiter has no more notifications
      than threads coming for them; what was taken out of a port is what was sent, in order; no object
      keeps a waiter that its status fires; a sleeping thread is registered once, where it sleeps; and
      the registrations made for a thread or a key are those that wait and those that have fired, with
      one notification sent for each that fired for a key. */
  lemma NothingIsLost(ws: seq<World>, steps: seq<Step>, n: nat, p: nat, key: nat, o: nat, w: SignalWaiter, t: nat)
    requires IsRun(ws, steps) && n < |ws|
    ensures p in ws[n].k.ports && ws[n].k.ports[p].waiters != [] ==>
              |ws[n].k.ports[p].queue| <= |Retrying(ws[n].k, ws[n].at, p)|
    ensures p in ws[n].k.ports ==> Log(ws[n].sent, p) == Log(ws[n].got, p) + ws[n].k.ports[p].queue
    ensures o in ws[n].k.objects && w in ws[n].k.objects[o].waiters ==> !Intersects(ws[n].k.objects[o].status, w.mask)
    ensures t in ws[n].k.asleep <==> Registered(ws[n].k, ws[n].at, t)
    ensures Count(ws[n].made, Key(p, key)) == Pending(ws[n].k.objects, Key(p, key)) + Notes(Log(ws[n].signalled, p), key)
    ensures Count(ws[n].made, Thread(t)) == Pending(ws[n].k.objects, Thread(t)) + Count(ws[n].fired, Thread(t))
  {
    hide Waits, Sleeps, Count, Pending, Notes;
    RunKeepsInv(ws, steps, n);
    var k, at := ws[n].k, ws[n].at;
    if Registered(k, at, t) {
      match at[t]
      case InPort(q) => assert WaitersOk(k, at, q, k.ports[q].waiters);
      case InObject(q) => InObjectAsleep(k, at, q, t);
      case InSleep => InSleepAsleep(k, at, t);
    }
  }

  lemma InObjectAsleep(k: Kernel, at: map<nat, Resume>, o: nat, t: nat)
    requires ObjectsHold(k, at) && o in k.objects && Waits(k.objects[o].waiters, t)
    ensures t in k.asleep
  {
    assert ObjectOk(k, at, o, k.objects[o].waiters);
  }

  lemma InSleepAsleep(k: Kernel, at: map<nat, Resume>, t: nat)
    requires SleepersHold(k, at) && Sleeps(k.sleepers, t)
    ensures t in k.asleep
  {
  }
}
