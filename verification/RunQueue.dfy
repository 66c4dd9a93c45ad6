/**
 The run queue (kernel/src/scheduling/taskmanager.rs): a queue of threads linked through
 the threads themselves.
 */
module RunQueue {

  /** `ThreadSchedGlobalData`, the part of a thread that the scheduler lock protects. */
  class Thread {
    var queued: bool
    var next: Thread?

    constructor ()
      ensures !queued && next == null
    {
      queued, next := false, null;
    }
  }

  /** Appending, unless already there. */
  function Enqueued<T(==)>(q: seq<T>, t: T): (r: seq<T>) {
    if t in q then q else q + [t]
  }

  class GlobalSchedData {
    var queueHead: Thread?
    var queueTail: Thread?
    /** The queued threads, first to last. */
    ghost var queue: seq<Thread>
    /** All threads that have ever been queued. */
    ghost var known: set<Thread>

    constructor ()
      ensures Valid() && queue == [] && known == {}
    {
      queueHead, queueTail, queue, known := null, null, [], {};
    }

    ghost predicate Valid()
      reads this, known
    {
      && (forall i, j :: 0 <= i < j < |queue| ==> queue[i] != queue[j])
      && (forall t :: t in queue ==> t in known)
      && (forall t :: t in known ==> (t.queued <==> t in queue))
      && (forall t :: t in known && t !in queue ==> t.next == null)
      && (if queue == [] then queueHead == null && queueTail == null else
            queueHead == queue[0] && queueTail == queue[|queue| - 1] && queueTail.next == null)
      && forall i, j :: 0 <= i < j < |queue| && j == i + 1 ==> queue[i].next == queue[j]
    }

    /** `pop_thread`: the thread queued longest. */
    method PopThread() returns (t: Thread?)
      requires Valid()
      modifies this`queueHead, this`queueTail, this`queue, queue
      ensures Valid() && known == old(known)
      ensures old(queue) == [] ==> t == null && queue == []
      ensures old(queue) != [] ==> t == old(queue)[0] && queue == old(queue)[1..]
    {
      t := queueHead;
      if t == null {
        return;
      }
      t.queued := false;
      var next := t.next;
      t.next := null;
      queueHead := next;
      if next == null {
        queueTail := null;
      }
      queue := queue[1..];
      assert forall i: nat :: i < |queue| ==> queue[i] == old(queue)[i + 1];
    }

    /** `queue_thread`: put a thread last, unless it is queued already. Neither assertion fires. */
    method QueueThread(t: Thread)
      requires Valid() && (t in known || (!t.queued && t.next == null))
      modifies this, t, queueTail
      ensures Valid() && known == old(known) + {t}
      ensures queue == Enqueued(old(queue), t)
    {
      known := known + {t};
      if t.queued {
        return;
      }
      t.queued := true;
      if queueHead == null {
        assert queueTail == null;
        queueHead, queueTail := t, t;
      } else {
        if queueTail != null {
          assert queueTail.next == null;
          queueTail.next := t;
        }
        queueTail := t;
      }
      queue := queue + [t];
    }
  }
}
