/**
 Object signals, ports and sleeping threads (kernel/src/object.rs, kernel/src/port.rs,
 kernel/src/time.rs, and the waiting system calls of kernel/src/syscall/mod.rs).

 Threads, ports and objects are numbered. A set of signals is a set of bit positions.
 */
module Signals {

  type ObjectSignal = set<nat>

  const READABLE: ObjectSignal := {1}
  const CHANNEL_CLOSED: ObjectSignal := {20}

  predicate Intersects(a: ObjectSignal, b: ObjectSignal) {
    a * b != {}
  }

  datatype Notification =
    | SignalOne(key: nat, trigger: ObjectSignal, signals: ObjectSignal)
    | User(key: nat, data: seq<nat>)

  /** `KPortInner`. */
  datatype Port = Port(queue: seq<Notification>, waiters: seq<nat>)

  datatype SignalWaiter =
    | One(thread: nat, mask: ObjectSignal)
    | ToPort(port: nat, key: nat, mask: ObjectSignal)

  /** `KObjectSignal`. */
  datatype Signal = Signal(status: ObjectSignal, waiters: seq<SignalWaiter>)

  datatype Sleeper = Sleeper(wakeup: nat, thread: nat)

  /** Everything a thread can wait for, and the threads marked as sleeping. */
  datatype Kernel = Kernel(ports: map<nat, Port>, objects: map<nat, Signal>, sleepers: seq<Sleeper>, asleep: set<nat>)

  // ---------------------------------------------------------------------------
  // What the operations do
  // ---------------------------------------------------------------------------

  /** `Thread::wake`. */
  function Woken(k: Kernel, t: nat): (k': Kernel) {
    k.(asleep := k.asleep - {t})
  }

  /** `KPort::notify`: queue the notification and wake the thread waiting longest. */
  function Notified(k: Kernel, p: nat, n: Notification): (k': Kernel)
    requires p in k.ports
  {
    var port := k.ports[p];
    if port.waiters == [] then k.(ports := k.ports[p := Port(port.queue + [n], [])])
    else Woken(k.(ports := k.ports[p := Port(port.queue + [n], port.waiters[1..])]), port.waiters[0])
  }

  /** One round of the loop in `KPort::wait`: take a notification, or go to sleep as a waiter. */
  function Attempted(k: Kernel, p: nat, t: nat): (k': Kernel)
    requires p in k.ports
  {
    var port := k.ports[p];
    if port.queue != [] then k.(ports := k.ports[p := Port(port.queue[1..], port.waiters)])
    else k.(ports := k.ports[p := Port([], port.waiters + [t])], asleep := k.asleep + {t})
  }

  /** The ports that the waiters of an object notify exist, from position `i` on. */
  predicate PortsFrom(k: Kernel, o: nat, i: nat)
    requires o in k.objects
  {
    var ws := k.objects[o].waiters;
    forall j :: i <= j < |ws| && ws[j].ToPort? ==> ws[j].port in k.ports
  }

  function Removed(k: Kernel, o: nat, i: nat): (k': Kernel)
    requires o in k.objects && i < |k.objects[o].waiters|
  {
    var s := k.objects[o];
    k.(objects := k.objects[o := Signal(s.status, s.waiters[..i] + s.waiters[i + 1..])])
  }

  /** What a fired waiter causes. */
  function Fired(k: Kernel, w: SignalWaiter, status: ObjectSignal): (k': Kernel)
    requires w.ToPort? ==> w.port in k.ports
  {
    match w
    case One(t, _) => Woken(k, t)
    case ToPort(p, key, mask) => Notified(k, p, SignalOne(key, mask, status))
  }

  /** Take out the waiter at position `i` of an object and act on it. */
  function FiredAt(k: Kernel, o: nat, i: nat): (k': Kernel)
    requires o in k.objects && i < |k.objects[o].waiters|
    requires k.objects[o].waiters[i].ToPort? ==> k.objects[o].waiters[i].port in k.ports
  {
    Fired(Removed(k, o, i), k.objects[o].waiters[i], k.objects[o].status)
  }

  /** `extract_if` over the waiters of an object from position `i` on, acting on each one it takes out. */
  function Extracted(k: Kernel, o: nat, i: nat): (k': Kernel)
    requires o in k.objects && i <= |k.objects[o].waiters|
    requires PortsFrom(k, o, i)
    decreases |k.objects[o].waiters| - i
  {
    var s := k.objects[o];
    if i == |s.waiters| then k
    else if Intersects(s.status, s.waiters[i].mask) then Extracted(FiredAt(k, o, i), o, i)
    else Extracted(k, o, i + 1)
  }

  function Changed(status: ObjectSignal, signal: ObjectSignal, on: bool): (s: ObjectSignal) {
    if on then status + signal else status - signal
  }

  /** `KObjectSignal::set_signal`. */
  function SignalSet(k: Kernel, o: nat, signal: ObjectSignal, on: bool): (k': Kernel)
    requires o in k.objects
    requires PortsFrom(k, o, 0)
  {
    var s := k.objects[o];
    var status := Changed(s.status, signal, on);
    if status == s.status then k else Extracted(k.(objects := k.objects[o := Signal(status, s.waiters)]), o, 0)
  }

  /** The `WaitPort` system call: notify at once, or leave a waiter. */
  function PortWaits(k: Kernel, o: nat, w: SignalWaiter): (k': Kernel)
    requires o in k.objects && w.ToPort? && w.port in k.ports
  {
    var s := k.objects[o];
    if Intersects(s.status, w.mask) then Fired(k, w, s.status)
    else k.(objects := k.objects[o := Signal(s.status, s.waiters + [w])])
  }

  /** The `Wait` system call: return at once, or leave a waiter and go to sleep. */
  function ThreadWaits(k: Kernel, o: nat, t: nat, mask: ObjectSignal): (k': Kernel)
    requires o in k.objects
  {
    var s := k.objects[o];
    if Intersects(s.status, mask) then k
    else k.(objects := k.objects[o := Signal(s.status, s.waiters + [One(t, mask)])], asleep := k.asleep + {t})
  }

  /** The sleepers whose time has not come. */
  function Waiting(ss: seq<Sleeper>, now: nat): (r: seq<Sleeper>)
    ensures forall x :: x in r <==> x in ss && x.wakeup > now
  {
    if ss == [] then []
    else (if ss[0].wakeup <= now then [] else [ss[0]]) + Waiting(ss[1..], now)
  }

  /** The threads whose time has come. */
  ghost function Due(ss: seq<Sleeper>, now: nat): (s: set<nat>) {
    set x | x in ss && x.wakeup <= now :: x.thread
  }

  /** `check_sleep`: wake every sleeper whose time has come. */
  ghost function SleepChecked(k: Kernel, now: nat): (k': Kernel) {
    k.(sleepers := Waiting(k.sleepers, now), asleep := k.asleep - Due(k.sleepers, now))
  }

  // ---------------------------------------------------------------------------
  // What extraction amounts to
  // ---------------------------------------------------------------------------

  /** The waiters that a status fires, and those it does not, in order. */
  function Firing(ws: seq<SignalWaiter>, status: ObjectSignal): (r: seq<SignalWaiter>) {
    if ws == [] then []
    else (if Intersects(status, ws[0].mask) then [ws[0]] else []) + Firing(ws[1..], status)
  }

  function Staying(ws: seq<SignalWaiter>, status: ObjectSignal): (r: seq<SignalWaiter>)
    ensures forall w :: w in r <==> w in ws && !Intersects(status, w.mask)
  {
    if ws == [] then []
    else (if Intersects(status, ws[0].mask) then [] else [ws[0]]) + Staying(ws[1..], status)
  }

  /** The notifications that fired waiters send to port `p`. */
  function Sent(ws: seq<SignalWaiter>, status: ObjectSignal, p: nat): (r: seq<Notification>) {
    if ws == [] then []
    else (if ws[0].ToPort? && ws[0].port == p then [SignalOne(ws[0].key, ws[0].mask, status)] else [])
         + Sent(ws[1..], status, p)
  }

  /** Taking out and firing the waiter at position `i`. */
  lemma FireEffect(k: Kernel, o: nat, i: nat)
    requires o in k.objects && i < |k.objects[o].waiters|
    requires k.objects[o].waiters[i].ToPort? ==> k.objects[o].waiters[i].port in k.ports
    ensures var s := k.objects[o];
            var k1 := FiredAt(k, o, i);
            && k1.objects == k.objects[o := Signal(s.status, s.waiters[..i] + s.waiters[i + 1..])]
            && k1.objects[o].waiters[..i] == s.waiters[..i] && k1.objects[o].waiters[i..] == s.waiters[i + 1..]
            && k1.ports.Keys == k.ports.Keys && k1.sleepers == k.sleepers
            && forall p :: p in k.ports ==> k1.ports[p].queue == k.ports[p].queue + Sent([s.waiters[i]], s.status, p)
  {
  }

  /** One round of the extraction. */
  lemma ExtractedRound(k: Kernel, o: nat, i: nat)
    requires o in k.objects && i < |k.objects[o].waiters| && PortsFrom(k, o, i)
    ensures var s := k.objects[o];
            if Intersects(s.status, s.waiters[i].mask)
            then PortsFrom(FiredAt(k, o, i), o, i) && Extracted(k, o, i) == Extracted(FiredAt(k, o, i), o, i)
            else Extracted(k, o, i) == Extracted(k, o, i + 1)
  {
    hide FiredAt, Intersects;
    FireEffect(k, o, i);
  }

  lemma FilterRound(ws: seq<SignalWaiter>, i: nat, status: ObjectSignal)
    requires i < |ws|
    ensures if Intersects(status, ws[i].mask)
            then Staying(ws[i..], status) == Staying(ws[i + 1..], status)
                 && Firing(ws[i..], status) == [ws[i]] + Firing(ws[i + 1..], status)
            else ws[..i] + Staying(ws[i..], status) == ws[..i + 1] + Staying(ws[i + 1..], status)
                 && Firing(ws[i..], status) == Firing(ws[i + 1..], status)
  {
    hide Intersects;
    assert ws[i..][1..] == ws[i + 1..];
  }

  /** Extraction takes out exactly the waiters that the status fires; the others stay, in order. Nothing
      else about objects changes. */
  lemma {:induction false} ExtractedStaying(k: Kernel, o: nat, i: nat)
    requires o in k.objects && i <= |k.objects[o].waiters| && PortsFrom(k, o, i)
    ensures var s, k' := k.objects[o], Extracted(k, o, i);
            && k'.objects == k.objects[o := Signal(s.status, s.waiters[..i] + Staying(s.waiters[i..], s.status))]
            && k'.ports.Keys == k.ports.Keys && k'.sleepers == k.sleepers
    decreases |k.objects[o].waiters| - i
  {
    hide FiredAt, Intersects, Extracted, Staying, Firing;
    var s := k.objects[o];
    if i == |s.waiters| {
      NothingLeftToExtract(k, o);
    } else {
      ExtractedRound(k, o, i);
      FilterRound(s.waiters, i, s.status);
      if Intersects(s.status, s.waiters[i].mask) {
        FireEffect(k, o, i);
        ExtractedStaying(FiredAt(k, o, i), o, i);
      } else {
        ExtractedStaying(k, o, i + 1);
      }
    }
  }

  lemma NothingLeftToExtract(k: Kernel, o: nat)
    requires o in k.objects
    ensures var s := k.objects[o]; var n := |s.waiters|;
            Extracted(k, o, n) == k && s.waiters[..n] + Staying(s.waiters[n..], s.status) == s.waiters
            && Firing(s.waiters[n..], s.status) == []
  {
  }

  /** Each waiter that fires sends its notification once, in the order of registration. */
  lemma {:induction false} ExtractedSent(k: Kernel, o: nat, i: nat, p: nat)
    requires o in k.objects && i <= |k.objects[o].waiters| && p in k.ports && PortsFrom(k, o, i)
    ensures var s, k' := k.objects[o], Extracted(k, o, i);
            p in k'.ports && k'.ports[p].queue == k.ports[p].queue + Sent(Firing(s.waiters[i..], s.status), s.status, p)
    decreases |k.objects[o].waiters| - i
  {
    hide FiredAt, Intersects, Extracted, Staying, Firing, Sent;
    var s := k.objects[o];
    if i == |s.waiters| {
      NothingLeftToExtract(k, o);
      NothingSent(s.status, p);
    } else {
      ExtractedRound(k, o, i);
      FilterRound(s.waiters, i, s.status);
      if Intersects(s.status, s.waiters[i].mask) {
        FireEffect(k, o, i);
        ExtractedSent(FiredAt(k, o, i), o, i, p);
        SentOne(s.waiters[i], Firing(s.waiters[i + 1..], s.status), s.status, p);
      } else {
        ExtractedSent(k, o, i + 1, p);
      }
    }
  }

  lemma NothingSent(status: ObjectSignal, p: nat)
    ensures Sent([], status, p) == []
  {
  }

  lemma SentOne(w: SignalWaiter, ws: seq<SignalWaiter>, status: ObjectSignal, p: nat)
    ensures Sent([w] + ws, status, p) == Sent([w], status, p) + Sent(ws, status, p)
  {
    assert ([w] + ws)[1..] == ws;
  }

  /** What extraction does to an object whose status has just changed. */
  lemma ExtractedAll(k: Kernel, o: nat)
    requires o in k.objects && PortsFrom(k, o, 0)
    ensures var s, k' := k.objects[o], Extracted(k, o, 0);
            && k'.objects == k.objects[o := Signal(s.status, Staying(s.waiters, s.status))]
            && k'.ports.Keys == k.ports.Keys && k'.sleepers == k.sleepers
            && forall p :: p in k.ports ==> k'.ports[p].queue == k.ports[p].queue + Sent(Firing(s.waiters, s.status), s.status, p)
  {
    hide Extracted, Staying, Firing, Sent;
    var s := k.objects[o];
    assert s.waiters[0..] == s.waiters;
    assert s.waiters[..0] + Staying(s.waiters, s.status) == Staying(s.waiters, s.status);
    ExtractedStaying(k, o, 0);
    forall p | p in k.ports
      ensures Extracted(k, o, 0).ports[p].queue == k.ports[p].queue + Sent(Firing(s.waiters, s.status), s.status, p)
    {
      ExtractedSent(k, o, 0, p);
    }
  }

  /** After `set_signal` no waiter is left that the status would fire, if there was none before. */
  lemma SetSignalLeavesNone(k: Kernel, o: nat, signal: ObjectSignal, on: bool, w: SignalWaiter)
    requires o in k.objects
    requires PortsFrom(k, o, 0)
    requires forall v :: v in k.objects[o].waiters ==> !Intersects(k.objects[o].status, v.mask)
    ensures o in SignalSet(k, o, signal, on).objects
    ensures SignalSet(k, o, signal, on).objects[o].status == Changed(k.objects[o].status, signal, on)
    ensures w in SignalSet(k, o, signal, on).objects[o].waiters
            <==> w in k.objects[o].waiters && !Intersects(Changed(k.objects[o].status, signal, on), w.mask)
  {
    var s := k.objects[o];
    var status := Changed(s.status, signal, on);
    if status != s.status {
      var k1 := k.(objects := k.objects[o := Signal(status, s.waiters)]);
      ExtractedStaying(k1, o, 0);
      assert s.waiters[0..] == s.waiters && s.waiters[..0] == [];
    }
  }
}
