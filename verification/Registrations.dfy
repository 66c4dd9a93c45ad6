/** Counting registrations of threads and ports with objects (kernel/src/object.rs). */
module Registrations {
  import opened Signals

  /** Whom a registration is for: a thread, or a key of a port. */
  datatype Target = Thread(t: nat) | Key(p: nat, key: nat)

  predicate For(w: SignalWaiter, target: Target) {
    match target
    case Thread(t) => w.One? && w.thread == t
    case Key(p, key) => w.ToPort? && w.port == p && w.key == key
  }

  function Count(ws: seq<SignalWaiter>, target: Target): (n: nat) {
    if ws == [] then 0 else (if For(ws[0], target) then 1 else 0) + Count(ws[1..], target)
  }

  /** The registrations still waiting, over all objects. */
  ghost function Pending(objects: map<nat, Signal>, target: Target): (n: nat)
    decreases objects.Keys
  {
    if objects == map[] then 0 else
      var o :| o in objects;
      Count(objects[o].waiters, target) + Pending(objects - {o}, target)
  }

  /** The signal notifications with a key. */
  function Notes(q: seq<Notification>, key: nat): (n: nat) {
    if q == [] then 0 else (if q[0].SignalOne? && q[0].key == key then 1 else 0) + Notes(q[1..], key)
  }

  lemma {:induction false} CountJoin(a: seq<SignalWaiter>, b: seq<SignalWaiter>, target: Target)
    ensures Count(a + b, target) == Count(a, target) + Count(b, target)
  {
    if a == [] {
      assert a + b == b;
    } else {
      assert (a + b)[1..] == a[1..] + b;
      CountJoin(a[1..], b, target);
    }
  }

  lemma {:induction false} NotesJoin(a: seq<Notification>, b: seq<Notification>, key: nat)
    ensures Notes(a + b, key) == Notes(a, key) + Notes(b, key)
  {
    if a == [] {
      assert a + b == b;
    } else {
      assert (a + b)[1..] == a[1..] + b;
      NotesJoin(a[1..], b, key);
    }
  }

  /** A change of signals parts the waiters: those that fire and those that stay. */
  lemma {:induction false} CountParts(ws: seq<SignalWaiter>, status: ObjectSignal, target: Target)
    ensures Count(ws, target) == Count(Staying(ws, status), target) + Count(Firing(ws, status), target)
  {
    hide Intersects;
    if ws != [] {
      CountParts(ws[1..], status, target);
      if Intersects(status, ws[0].mask) {
        CountJoin([ws[0]], Firing(ws[1..], status), target);
        assert [] + Staying(ws[1..], status) == Staying(ws[1..], status);
      } else {
        CountJoin([ws[0]], Staying(ws[1..], status), target);
        assert [] + Firing(ws[1..], status) == Firing(ws[1..], status);
      }
    }
  }

  /** Waiters that fire send one notification each. */
  lemma {:induction false} NotesSent(ws: seq<SignalWaiter>, status: ObjectSignal, p: nat, key: nat)
    ensures Notes(Sent(ws, status, p), key) == Count(ws, Key(p, key))
  {
    if ws != [] {
      NotesSent(ws[1..], status, p, key);
      var first := if ws[0].ToPort? && ws[0].port == p then [SignalOne(ws[0].key, ws[0].mask, status)] else [];
      NotesJoin(first, Sent(ws[1..], status, p), key);
    }
  }

  /** The sum can be taken from any object on. */
  lemma {:induction false} PendingAt(objects: map<nat, Signal>, o: nat, target: Target)
    requires o in objects
    ensures Pending(objects, target) == Count(objects[o].waiters, target) + Pending(objects - {o}, target)
    decreases objects.Keys
  {
    hide Count;
    var o' :| o' in objects && Pending(objects, target) == Count(objects[o'].waiters, target) + Pending(objects - {o'}, target);
    if o' != o {
      PendingAt(objects - {o'}, o, target);
      PendingAt(objects - {o}, o', target);
      assert objects - {o'} - {o} == objects - {o} - {o'};
    }
  }

  /** Changing one object changes the sum by the difference. */
  lemma PendingChanged(objects: map<nat, Signal>, o: nat, s: Signal, target: Target)
    ensures Pending(objects[o := s], target) + (if o in objects then Count(objects[o].waiters, target) else 0)
         == Pending(objects, target) + Count(s.waiters, target)
  {
    hide Count, Pending;
    PendingAt(objects[o := s], o, target);
    if o in objects {
      PendingAt(objects, o, target);
      assert objects[o := s] - {o} == objects - {o};
    } else {
      assert objects[o := s] - {o} == objects;
    }
  }
}
