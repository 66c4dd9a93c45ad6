/**
 Channels (kernel/src/channel.rs): two endpoints, each with a queue of the messages sent to
 it and signals that threads and ports can wait for.
 */
module Channel {
  import opened Prelude
  import opened Signals
  import opened KernelOps

  const CHANNEL_CAPACITY: nat := 10000

  datatype ChannelMessage = ChannelMessage(data: seq<nat>, handles: Option<seq<nat>>)

  function HandlesLength(m: ChannelMessage): (n: nat) {
    if m.handles.Some? then |m.handles.value| else 0
  }

  predicate Fits(m: ChannelMessage, maxBytes: nat, maxHandles: nat) {
    |m.data| <= maxBytes && HandlesLength(m) <= maxHandles
  }

  datatype ReadResult =
    | Message(msg: ChannelMessage)
    | Empty
    | Closed
    | Size(minBytes: nat, minHandles: nat)

  class KChannelHandle {
    const kernel: KernelState
    /** The number of the signals of this endpoint. */
    const signal: nat
    var open: bool
    var queue: seq<ChannelMessage>
    /** The other endpoint, while it exists. */
    var peer: KChannelHandle?

    /** All messages ever put in the queue, and all ever taken out. */
    ghost var accepted: seq<ChannelMessage>
    ghost var delivered: seq<ChannelMessage>
    /** `close` was called on this endpoint, not only on the other. */
    ghost var closedHere: bool

    ghost predicate Valid()
      reads this, kernel
    {
      && kernel.Valid() && signal in kernel.objects
      && |queue| <= CHANNEL_CAPACITY + 1
      && (open <==> !(CHANNEL_CLOSED <= kernel.objects[signal].status))
      && if closedHere then !open && queue == []
         else accepted == delivered + queue && (Readable() <==> queue != [])
    }

    ghost predicate Readable()
      reads this, kernel
    {
      signal in kernel.objects && READABLE <= kernel.objects[signal].status
    }

    /** Both endpoints of a channel. */
    ghost predicate Joined(other: KChannelHandle)
      reads this
    {
      peer == other && other != this && other.kernel == kernel && other.signal != signal
    }

    constructor (kernel: KernelState, signal: nat)
      requires kernel.Valid() && signal in kernel.objects && kernel.objects[signal] == Signal({}, [])
      ensures this.kernel == kernel && this.signal == signal && peer == null
      ensures Valid() && open && queue == [] && accepted == [] && delivered == [] && !closedHere
    {
      this.kernel, this.signal := kernel, signal;
      open, queue, peer := true, [], null;
      accepted, delivered, closedHere := [], [], false;
    }

    /** Raise or lower a signal of this endpoint. The kernel stays valid: no waiter that the new status fires
        is left, no wake-up is lost, and other objects are left alone. */
    method Set(s: ObjectSignal, on: bool)
      requires kernel.Valid() && signal in kernel.objects
      modifies kernel`ports, kernel`objects, kernel`asleep
      ensures kernel.Valid() && signal in kernel.objects
      ensures forall b :: b in kernel.objects[signal].status <==>
        if b in s then on else b in old(kernel.objects[signal]).status
      ensures OthersKept(old(kernel.View()), kernel.View(), signal)
    {
      hide KernelState.Valid, IsStep, Staying, Sent, Firing;
      kernel.SetSignal(signal, s, on);
    }

    /** `send`, into the queue of the other endpoint. It is refused when that endpoint is gone or not open,
        or its queue is full. */
    method Send(msg: ChannelMessage) returns (ok: bool)
      requires Valid() && (peer != null ==> Joined(peer) && peer.Valid())
      modifies peer, kernel`ports, kernel`objects, kernel`asleep
      ensures Valid() && (peer != null ==> peer.Valid())
      ensures ok <==> peer != null && old(peer.open) && |old(peer.queue)| <= CHANNEL_CAPACITY
      ensures ok ==> peer.queue == old(peer.queue) + [msg] && peer.accepted == old(peer.accepted) + [msg]
      ensures ok ==> peer.Readable() && peer.delivered == old(peer.delivered)
      ensures ok ==> peer.open == old(peer.open) && peer.closedHere == old(peer.closedHere) && peer.peer == old(peer.peer)
      ensures !ok ==> kernel.View() == old(kernel.View()) && (peer != null ==> unchanged(peer))
    {
      hide KernelState.Valid;
      if peer == null || !peer.open || |peer.queue| > CHANNEL_CAPACITY {
        return false;
      }
      peer.queue := peer.queue + [msg];
      peer.Set(READABLE, true);
      peer.accepted := peer.accepted + [msg];
      OtherValid(old(kernel.View()), kernel.View(), signal, peer.signal);
      ok := true;
    }

    /** `read`: the oldest message, if the buffers are large enough for it; otherwise nothing changes. A
        closed endpoint still gives out what is left. */
    method Read(maxBytes: nat, maxHandles: nat) returns (r: ReadResult)
      requires Valid() && (peer != null ==> Joined(peer) && peer.Valid())
      modifies this`queue, this`delivered, kernel`ports, kernel`objects, kernel`asleep
      ensures Valid() && (peer != null ==> peer.Valid())
      ensures r.Empty? <==> old(queue) == [] && open
      ensures r.Closed? <==> old(queue) == [] && !open
      ensures r.Message? <==> old(queue) != [] && Fits(old(queue)[0], maxBytes, maxHandles)
      ensures r.Message? ==> old(queue) == [r.msg] + queue && delivered == old(delivered) + [r.msg]
      ensures r.Size? ==> r == Size(|old(queue)[0].data|, HandlesLength(old(queue)[0]))
      ensures !r.Message? ==> queue == old(queue) && delivered == old(delivered) && kernel.View() == old(kernel.View())
    {
      hide KernelState.Valid;
      if queue == [] {
        return if open then Empty else Closed;
      }
      var packet := queue[0];
      queue := queue[1..];
      var handles := HandlesLength(packet);
      if |packet.data| > maxBytes || handles > maxHandles {
        queue := [packet] + queue;
        assert queue == old(queue);
        return Size(|packet.data|, handles);
      }
      Set(READABLE, queue != []);
      delivered := delivered + [packet];
      if peer != null {
        OtherValid(old(kernel.View()), kernel.View(), peer.signal, signal);
      }
      r := Message(packet);
    }

    /** The first part of `close`, on this endpoint: what is queued is lost. `READABLE` is not lowered, so
        it stays up exactly when there was something to lose. */
    method CloseHere()
      requires Valid() && (peer != null ==> Joined(peer) && peer.Valid())
      modifies this`open, this`queue, this`closedHere, kernel`ports, kernel`objects, kernel`asleep
      ensures Valid() && (peer != null ==> peer.Valid())
      ensures !open && closedHere && queue == []
      ensures kernel.objects[signal].status >= CHANNEL_CLOSED
      ensures Readable() <==> old(Readable())
      ensures !old(closedHere) ==> (Readable() <==> old(queue) != [])
    {
      hide KernelState.Valid;
      open := false;
      Set(CHANNEL_CLOSED, true);
      queue, closedHere := [], true;
      if peer != null {
        OtherValid(old(kernel.View()), kernel.View(), peer.signal, signal);
      }
    }

    /** The second part, on the other endpoint: it takes no more messages but keeps those it has. */
    method CloseThere()
      requires Valid() && (peer != null ==> Joined(peer) && peer.Valid())
      modifies peer, kernel`ports, kernel`objects, kernel`asleep
      ensures Valid() && (peer != null ==> peer.Valid())
      ensures peer != null ==> !peer.open && kernel.objects[peer.signal].status >= CHANNEL_CLOSED
      ensures peer != null ==> peer.queue == old(peer.queue) && peer.accepted == old(peer.accepted)
      ensures peer != null ==> peer.delivered == old(peer.delivered) && peer.closedHere == old(peer.closedHere)
      ensures peer != null ==> peer.peer == old(peer.peer)
      ensures peer != null ==> OthersKept(old(kernel.View()), kernel.View(), peer.signal)
      ensures peer == null ==> kernel.View() == old(kernel.View())
    {
      hide KernelState.Valid;
      if peer != null {
        peer.open := false;
        peer.Set(CHANNEL_CLOSED, true);
        OtherValid(old(kernel.View()), kernel.View(), signal, peer.signal);
      }
    }

    /** `close`. */
    method Close()
      requires Valid() && (peer != null ==> Joined(peer) && peer.Valid())
      modifies this`open, this`queue, this`closedHere, peer, kernel`ports, kernel`objects, kernel`asleep
      ensures Valid() && !open && queue == [] && closedHere
      ensures Readable() <==> old(Readable())
      ensures peer != null ==> peer.Valid() && !peer.open && peer.queue == old(peer.queue)
      ensures peer != null ==> peer.accepted == old(peer.accepted) && peer.delivered == old(peer.delivered)
      ensures peer != null ==> peer.closedHere == old(peer.closedHere) && peer.peer == old(peer.peer)
    {
      hide KernelState.Valid;
      CloseHere();
      CloseThere();
    }

    /** Reading with large buffers until the end: once the other side has closed, exactly the messages
        still queued come out, in order, and then `Closed`. */
    method Drain(maxBytes: nat, maxHandles: nat) returns (got: seq<ChannelMessage>, last: ReadResult)
      requires Valid() && (peer != null ==> Joined(peer) && peer.Valid())
      requires forall m :: m in queue ==> Fits(m, maxBytes, maxHandles)
      modifies this`queue, this`delivered, kernel`ports, kernel`objects, kernel`asleep
      ensures Valid() && got == old(queue) && queue == []
      ensures last == if open then Empty else Closed
      ensures !closedHere ==> delivered == accepted
      ensures peer != null ==> peer.Valid()
    {
      hide KernelState.Valid;
      got := [];
      last := Read(maxBytes, maxHandles);
      while last.Message?
        invariant Valid() && (peer != null ==> Joined(peer) && peer.Valid())
        invariant old(queue) == got + (if last.Message? then [last.msg] else []) + queue
        invariant !last.Message? ==> queue == [] && last == if open then Empty else Closed
        decreases |queue|, last.Message?
      {
        assert forall m :: m in queue ==> m in old(queue);
        got := got + [last.msg];
        last := Read(maxBytes, maxHandles);
      }
    }
  }

  /** `channel_create`: two open, empty endpoints that are each other's peer. */
  method ChannelCreate(kernel: KernelState, l: nat, r: nat) returns (left: KChannelHandle, right: KChannelHandle)
    requires kernel.Valid() && l !in kernel.objects && r !in kernel.objects && l != r
    modifies kernel`objects
    ensures fresh(left) && fresh(right) && left.Joined(right) && right.Joined(left)
    ensures left.kernel == kernel && left.signal == l && right.kernel == kernel && right.signal == r
    ensures left.Valid() && right.Valid() && left.open && right.open && left.queue == [] && right.queue == []
    ensures left.accepted == [] && right.accepted == [] && !left.closedHere && !right.closedHere
    ensures kernel.objects == old(kernel.objects)[l := Signal({}, [])][r := Signal({}, [])]
  {
    hide KernelState.Valid;
    kernel.NewObject(l);
    kernel.NewObject(r);
    right := new KChannelHandle(kernel, r);
    left := new KChannelHandle(kernel, l);
    left.peer, right.peer := right, left;
  }

  /** Send one message after the other, up to the first that is refused or the last. All are taken as long as
      the queue of the open peer holds no more than the capacity. */
  method SendAll(left: KChannelHandle, right: KChannelHandle, msgs: seq<ChannelMessage>) returns (n: nat)
    requires left.Valid() && right.Valid() && left.Joined(right) && right.Joined(left)
    requires right.open && right.queue == [] && right.accepted == [] && !right.closedHere
    modifies right, left.kernel`ports, left.kernel`objects, left.kernel`asleep
    ensures left.Valid() && right.Valid() && left.Joined(right) && right.Joined(left)
    ensures n == if |msgs| <= CHANNEL_CAPACITY + 1 then |msgs| else CHANNEL_CAPACITY + 1
    ensures right.open && !right.closedHere && right.queue == msgs[..n] && right.accepted == msgs[..n]
  {
    hide KernelState.Valid;
    n := 0;
    while n < |msgs|
      invariant left.Valid() && right.Valid() && left.Joined(right) && right.Joined(left)
      invariant n <= |msgs| && n <= CHANNEL_CAPACITY + 1
      invariant right.open && !right.closedHere && right.queue == msgs[..n] && right.accepted == msgs[..n]
    {
      var ok := left.Send(msgs[n]);
      if !ok {
        return;
      }
      n := n + 1;
    }
  }

  /** A channel from its beginning to its end: messages are sent, the sender closes, the receiver reads. It
      gets exactly the messages that were accepted, in order, and only then `Closed`. */
  method SendCloseDrain(kernel: KernelState, l: nat, r: nat, msgs: seq<ChannelMessage>, maxBytes: nat, maxHandles: nat)
    returns (n: nat, got: seq<ChannelMessage>, last: ReadResult, right: KChannelHandle)
    requires kernel.Valid() && l !in kernel.objects && r !in kernel.objects && l != r
    requires forall m :: m in msgs ==> Fits(m, maxBytes, maxHandles)
    modifies kernel`ports, kernel`objects, kernel`asleep
    ensures n == if |msgs| <= CHANNEL_CAPACITY + 1 then |msgs| else CHANNEL_CAPACITY + 1
    ensures got == msgs[..n] && last == Closed
    ensures right.Valid() && right.accepted == msgs[..n] && right.delivered == msgs[..n] && right.queue == []
  {
    hide KernelState.Valid;
    var left;
    left, right := ChannelCreate(kernel, l, r);
    n := SendAll(left, right, msgs);
    left.Close();
    got, last := right.Drain(maxBytes, maxHandles);
  }

  /** The failure of `close` from the start: a channel is made, a message is sent to one end, and that end is
      closed. It is then empty, and readable. */
  method ReadableThoughEmpty(kernel: KernelState, l: nat, r: nat, msg: ChannelMessage) returns (right: KChannelHandle)
    requires kernel.Valid() && l !in kernel.objects && r !in kernel.objects && l != r
    modifies kernel`ports, kernel`objects, kernel`asleep
    ensures right.Valid() && right.queue == [] && right.Readable()
  {
    hide KernelState.Valid;
    var left;
    left, right := ChannelCreate(kernel, l, r);
    var ok := left.Send(msg);
    right.Close();
  }

  /** Objects other than `o` and the existence of ports are left alone. */
  ghost predicate OthersKept(k: Kernel, k': Kernel, o: nat) {
    && k'.ports.Keys == k.ports.Keys
    && forall o' :: o' in k.objects && o' != o ==> o' in k'.objects && k'.objects[o'] == k.objects[o']
  }

  lemma OtherValid(k: Kernel, k': Kernel, o: nat, changed: nat)
    requires OthersKept(k, k', changed) && o != changed && o in k.objects
    ensures o in k'.objects && k'.objects[o] == k.objects[o]
  {
  }
}
