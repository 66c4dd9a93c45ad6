/**
 The operations of module Signals as the kernel performs them, on state changed in place. Each call
 is a step of the runs of module SignalRuns, and keeps what is proved of every run.
 */
module KernelOps {
  import opened Prelude
  import opened Signals
  import opened SignalRuns

  class KernelState {
    var ports: map<nat, Port>
    var objects: map<nat, Signal>
    var sleepers: seq<Sleeper>
    var asleep: set<nat>
    /** Where each thread goes on when it runs next. */
    ghost var at: map<nat, Resume>

    constructor ()
      ensures Valid() && View() == Kernel(map[], map[], [], {}) && at == map[]
    {
      ports, objects, sleepers, asleep := map[], map[], [], {};
      at := map[];
    }

    function View(): (k: Kernel)
      reads this
    {
      Kernel(ports, objects, sleepers, asleep)
    }

    /** The state of a run, with nothing recorded. */
    ghost function Now(): (w: World)
      reads this
    {
      World(View(), at, map[], map[], map[], [], [])
    }

    /** A thread sleeps exactly when it is registered, once, where it sleeps; no wake-up is lost; and no
        object has a waiter that its status fires. */
    ghost predicate Valid()
      reads this
    {
      Sound(View(), at) && NoneReady(View())
    }

    method NewThread(t: nat)
      requires Valid() && t !in at
      modifies this`at
      ensures Valid() && IsStep(old(Now()), Step.NewThread(t), Now())
    {
      hide Sound, NoneReady;
      StepKeepsValid(Now(), Step.NewThread(t));
      at := at[t := Outside];
    }

    method NewPort(p: nat)
      requires Valid() && p !in ports
      modifies this`ports
      ensures Valid() && IsStep(old(Now()), Step.NewPort(p), Now())
    {
      hide Sound, NoneReady;
      StepKeepsValid(Now(), Step.NewPort(p));
      ports := ports[p := Port([], [])];
    }

    method NewObject(o: nat)
      requires Valid() && o !in objects
      modifies this`objects
      ensures Valid() && IsStep(old(Now()), Step.NewObject(o, {}), Now())
    {
      hide Sound, NoneReady;
      StepKeepsValid(Now(), Step.NewObject(o, {}));
      objects := objects[o := Signal({}, [])];
    }

    /** `Thread::wake`, on a thread that has just been taken out of where it waited. */
    method Wake(t: nat)
      modifies this`asleep
      ensures View() == Woken(old(View()), t)
    {
      asleep := asleep - {t};
    }

    /** `KPort::notify`. */
    method Notify(p: nat, n: Notification)
      requires p in ports
      modifies this`ports, this`asleep
      ensures View() == Notified(old(View()), p, n)
      ensures old(Valid()) ==> Valid() && IsStep(old(Now()), Push(p, n), Now())
    {
      hide Sound, NoneReady;
      if Valid() { StepKeepsValid(Now(), Push(p, n)); }
      var queue, waiters := ports[p].queue + [n], ports[p].waiters;
      if waiters == [] {
        ports := ports[p := Port(queue, waiters)];
      } else {
        ports := ports[p := Port(queue, waiters[1..])];
        Wake(waiters[0]);
      }
    }

    /** One round of the loop in `KPort::wait`, by a thread that has just called it or has been woken in it;
        without a notification the thread is asleep. */
    method WaitRound(p: nat, t: nat) returns (n: Option<Notification>)
      requires Valid() && p in ports && Awake(View(), at, t) && (at[t] == Outside || at[t] == InPort(p))
      modifies this`ports, this`asleep, this`at
      ensures Valid() && IsStep(old(Now()), TryPort(t, p), Now())
      ensures n.None? <==> t in asleep
      ensures n.Some? ==> old(ports)[p].queue == [n.value] + ports[p].queue
      ensures n.None? ==> old(ports)[p].queue == [] && ports[p].waiters == old(ports)[p].waiters + [t]
    {
      hide Sound, NoneReady;
      StepKeepsValid(Now(), TryPort(t, p));
      var queue, waiters := ports[p].queue, ports[p].waiters;
      if queue != [] {
        ports := ports[p := Port(queue[1..], waiters)];
        at := at[t := Outside];
        return Some(queue[0]);
      }
      asleep := asleep + {t};
      ports := ports[p := Port(queue, waiters + [t])];
      at := at[t := InPort(p)];
      n := None;
    }

    /** `KObjectSignal::set_signal`: no waiter that the new status fires is left, and each that fired
        has sent one notification, in the order of registration. */
    method SetSignal(o: nat, signal: ObjectSignal, on: bool)
      requires Valid() && o in objects
      modifies this`ports, this`objects, this`asleep
      ensures Valid() && IsStep(old(Now()), Step.SetSignal(o, signal, on), Now())
      ensures var s, status := old(objects)[o], Changed(old(objects)[o].status, signal, on);
              status != s.status ==>
                && objects == old(objects)[o := Signal(status, Staying(s.waiters, status))]
                && ports.Keys == old(ports).Keys
                && forall p :: p in ports ==> ports[p].queue == old(ports)[p].queue + Sent(Firing(s.waiters, status), status, p)
      ensures Changed(old(objects)[o].status, signal, on) == old(objects)[o].status ==> View() == old(View())
      ensures o in objects
      ensures forall b :: b in objects[o].status <==> if b in signal then on else b in old(objects)[o].status
    {
      hide Sound, NoneReady, FiredAt, Extracted, Staying, Firing, Sent, Intersects;
      PortsExist(View(), at, o);
      StepKeepsValid(Now(), Step.SetSignal(o, signal, on));
      var status := Changed(objects[o].status, signal, on);
      if status == objects[o].status {
        return;
      }
      objects := objects[o := Signal(status, objects[o].waiters)];
      ghost var k := View();
      ExtractedAll(k, o);
      var i := 0;
      while i < |objects[o].waiters|
        invariant o in objects && objects[o].status == status
        invariant i <= |objects[o].waiters| && PortsFrom(View(), o, i)
        invariant Extracted(View(), o, i) == Extracted(k, o, 0)
        decreases |objects[o].waiters| - i
      {
        ExtractedRound(View(), o, i);
        if Intersects(status, objects[o].waiters[i].mask) {
          FireEffect(View(), o, i);
          FireWaiter(o, i);
        } else {
          i := i + 1;
        }
      }
      NothingLeftToExtract(View(), o);
    }

    /** Take one waiter out and act on it. */
    method FireWaiter(o: nat, i: nat)
      requires o in objects && i < |objects[o].waiters|
      requires objects[o].waiters[i].ToPort? ==> objects[o].waiters[i].port in ports
      modifies this`ports, this`objects, this`asleep
      ensures View() == FiredAt(old(View()), o, i)
    {
      hide Sound, NoneReady;
      var s := objects[o];
      objects := objects[o := Signal(s.status, s.waiters[..i] + s.waiters[i + 1..])];
      match s.waiters[i] {
        case One(t, _) => Wake(t);
        case ToPort(p, key, mask) => Notify(p, SignalOne(key, mask, s.status));
      }
    }

    /** The `WaitPort` system call. */
    method WaitPort(o: nat, port: nat, key: nat, mask: ObjectSignal)
      requires Valid() && o in objects && port in ports
      modifies this`ports, this`objects, this`asleep
      ensures Valid() && IsStep(old(Now()), Step.WaitPort(o, ToPort(port, key, mask)), Now())
      ensures Intersects(old(objects)[o].status, mask) ==> objects == old(objects)
    {
      hide Sound, NoneReady;
      StepKeepsValid(Now(), Step.WaitPort(o, ToPort(port, key, mask)));
      var s := objects[o];
      if Intersects(s.status, mask) {
        Notify(port, SignalOne(key, mask, s.status));
      } else {
        objects := objects[o := Signal(s.status, s.waiters + [ToPort(port, key, mask)])];
      }
    }

    /** The `Wait` system call, up to where the thread goes to sleep. */
    method Wait(o: nat, t: nat, mask: ObjectSignal) returns (r: Option<ObjectSignal>)
      requires Valid() && o in objects && Awake(View(), at, t) && at[t] == Outside
      modifies this`objects, this`asleep, this`at
      ensures Valid() && IsStep(old(Now()), WaitObject(t, o, mask), Now())
      ensures r.None? <==> t in asleep
      ensures r.Some? ==> r.value == objects[o].status && Intersects(r.value, mask)
    {
      hide Sound, NoneReady;
      StepKeepsValid(Now(), WaitObject(t, o, mask));
      var s := objects[o];
      if Intersects(s.status, mask) {
        return Some(s.status);
      }
      asleep := asleep + {t};
      objects := objects[o := Signal(s.status, s.waiters + [One(t, mask)])];
      at := at[t := InObject(o)];
      r := None;
    }

    /** `sleep_handler`, up to where the thread goes to sleep. */
    method Sleep(t: nat, wakeup: nat)
      requires Valid() && Awake(View(), at, t) && at[t] == Outside
      modifies this`sleepers, this`asleep, this`at
      ensures Valid() && IsStep(old(Now()), Step.Sleep(t, wakeup), Now())
    {
      hide Sound, NoneReady;
      StepKeepsValid(Now(), Step.Sleep(t, wakeup));
      asleep := asleep + {t};
      sleepers := sleepers + [Sleeper(wakeup, t)];
      at := at[t := InSleep];
    }

    /** The top of the heap: a sleeper to be woken no later than any other. */
    method Peek() returns (i: nat)
      requires sleepers != []
      ensures i < |sleepers| && forall j :: 0 <= j < |sleepers| ==> sleepers[i].wakeup <= sleepers[j].wakeup
    {
      i := 0;
      for j := 1 to |sleepers|
        invariant i < |sleepers| && forall m :: 0 <= m < j ==> sleepers[i].wakeup <= sleepers[m].wakeup
      {
        if sleepers[j].wakeup < sleepers[i].wakeup {
          i := j;
        }
      }
    }

    /** `check_sleep`: exactly the sleepers whose time has come are woken. */
    method CheckSleep(now: nat)
      requires Valid()
      modifies this`sleepers, this`asleep
      ensures Valid() && IsStep(old(Now()), Step.CheckSleep(now), Now())
      ensures forall x :: x in sleepers <==> x in old(sleepers) && x.wakeup > now
      ensures asleep == old(asleep) - Due(old(sleepers), now)
    {
      hide Sound, NoneReady, Waiting, Due;
      StepKeepsValid(Now(), Step.CheckSleep(now));
      while sleepers != []
        invariant Waiting(sleepers, now) == Waiting(old(sleepers), now)
        invariant asleep - Due(sleepers, now) == old(asleep) - Due(old(sleepers), now)
        decreases |sleepers|
      {
        var i := Peek();
        if sleepers[i].wakeup > now {
          break;
        }
        var x := sleepers[i];
        WaitingWithout(sleepers, i, now);
        DueWithout(sleepers, i, now);
        sleepers := sleepers[..i] + sleepers[i + 1..];
        Wake(x.thread);
      }
      AllWaiting(sleepers, now);
      assert asleep == asleep - Due(sleepers, now);
    }
  }

  /** From `w` the step leads to `w'`, apart from what is recorded. */
  ghost predicate IsStep(w: World, st: Step, w': World) {
    Enabled(w, st) && w'.k == NextKernel(w, st) && w'.at == NextAt(w, st)
  }

  lemma StepKeepsValid(w: World, st: Step)
    requires Sound(w.k, w.at) && NoneReady(w.k) && Enabled(w, st)
    ensures Sound(NextKernel(w, st), NextAt(w, st)) && NoneReady(NextKernel(w, st))
  {
    hide Sound, NoneReady, NextKernel, NextAt;
    StepKeepsSound(w, st);
    StepKeepsNoneReady(w, st);
  }

  lemma DueWithout(ss: seq<Sleeper>, i: nat, now: nat)
    requires i < |ss| && ss[i].wakeup <= now
    ensures Due(ss, now) == Due(ss[..i] + ss[i + 1..], now) + {ss[i].thread}
  {
    var rest := ss[..i] + ss[i + 1..];
    assert forall x :: x in ss <==> x in rest || x == ss[i];
  }

  lemma {:induction false} AllWaiting(ss: seq<Sleeper>, now: nat)
    requires forall x :: x in ss ==> x.wakeup > now
    ensures Waiting(ss, now) == ss && Due(ss, now) == {}
  {
    if ss != [] {
      assert ss == [ss[0]] + ss[1..];
      AllWaiting(ss[1..], now);
    }
  }

  lemma {:induction false} WaitingWithout(ss: seq<Sleeper>, i: nat, now: nat)
    requires i < |ss| && ss[i].wakeup <= now
    ensures Waiting(ss[..i] + ss[i + 1..], now) == Waiting(ss, now)
  {
    var rest := ss[..i] + ss[i + 1..];
    if i == 0 {
      assert rest == ss[1..];
    } else {
      assert rest[0] == ss[0] && rest[1..] == ss[1..][..i - 1] + ss[1..][i..];
      WaitingWithout(ss[1..], i - 1, now);
    }
  }
}
