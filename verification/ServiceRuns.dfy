/**
 The service loop of user programs (kernel_userspace/src/service.rs) on top of ports and
 object signals. The loop keeps one registration per key, which fires once and is made
 again after each event; keys of customers that have gone are used again.

 Only the service waits on its port, registers with it and notifies it, and only the service
 reads its accepting channel. Other threads do anything else.
 */
module ServiceRuns {
  import opened Signals
  import R = SignalRuns

  /** A message to the accepting channel: the channel of a new customer, and whether the message is as
      the loop expects it, small enough for its buffers and with that one handle. */
  datatype Request = Request(o: nat, good: bool)

  /** What the loop is about to do: wait for an event, handle one, or go on accepting a customer. */
  datatype Phase =
    | Waits
    | Event(key: nat)
    | Taken(o: nat)
    | Accepted(o: nat)
    | Armed(o: nat, id: nat)

  /** `inbox` is the queue of the accepting channel; `customers` gives the channel of each customer. `record` is what
      has happened so far. */
  datatype Service = Service(w: R.World, me: nat, port: nat, accepting: nat, inbox: seq<Request>,
                             customers: map<nat, nat>, phase: Phase, record: Record)

  /** The messages sent to the accepting channel and those read from it; and for each key, the channel in the message
      that was read last when the key was first registered. */
  datatype Record = Record(sent: seq<Request>, read: seq<Request>, armed: map<nat, nat>)

  // ---------------------------------------------------------------------------
  // Tokens
  // ---------------------------------------------------------------------------

  /** Where the one token of a key is: a waiter on an object, a queued notification, or with the loop. */
  datatype Token = OnObject(o: nat) | InQueue | WithLoop

  predicate Is(w: SignalWaiter, port: nat, key: nat) {
    w.ToPort? && w.port == port && w.key == key
  }

  ghost predicate HasWaiter(ws: seq<SignalWaiter>, port: nat, key: nat) {
    exists i :: 0 <= i < |ws| && Is(ws[i], port, key)
  }

  ghost predicate HasNote(q: seq<Notification>, key: nat) {
    exists i :: 0 <= i < |q| && q[i].key == key
  }

  /** The waiters of object `o` for the port belong to keys whose token is there, one each. */
  ghost predicate WaitersFor(ws: seq<SignalWaiter>, o: nat, port: nat, tok: map<nat, Token>) {
    && (forall i :: 0 <= i < |ws| && ws[i].ToPort? && ws[i].port == port ==>
          ws[i].mask == READABLE && ws[i].key in tok && tok[ws[i].key] == OnObject(o))
    && forall i, j, key :: 0 <= i < j < |ws| && Is(ws[i], port, key) ==> !Is(ws[j], port, key)
  }

  ghost predicate NotesFor(q: seq<Notification>, tok: map<nat, Token>) {
    && (forall i :: 0 <= i < |q| ==> q[i].key in tok && tok[q[i].key] == InQueue)
    && forall i, j :: 0 <= i < j < |q| ==> q[i].key != q[j].key
  }

  ghost predicate TokenOk(k: Kernel, port: nat, key: nat, t: Token)
    requires port in k.ports
  {
    match t
    case OnObject(o) => o in k.objects && HasWaiter(k.objects[o].waiters, port, key)
    case InQueue => HasNote(k.ports[port].queue, key)
    case WithLoop => true
  }

  /** `tok` says of every key where its token is, and there is no other. */
  ghost predicate Tokens(k: Kernel, port: nat, tok: map<nat, Token>) {
    && port in k.ports
    && (forall o :: o in k.objects ==> WaitersFor(k.objects[o].waiters, o, port, tok))
    && NotesFor(k.ports[port].queue, tok)
    && forall key :: key in tok ==> TokenOk(k, port, key, tok[key])
  }

  /** Tokens may have gone from objects to the queue, and nowhere else. */
  ghost predicate OffObjects(tok: map<nat, Token>, tok': map<nat, Token>) {
    forall key :: key in tok ==> key in tok' && (tok'[key] == tok[key] || (tok[key].OnObject? && tok'[key] == InQueue))
  }

  /** Changes that leave the waiters and the port's queue alone leave the tokens alone. */
  lemma TokensFrame(k: Kernel, k': Kernel, port: nat, tok: map<nat, Token>)
    requires Tokens(k, port, tok) && port in k'.ports && k'.ports[port].queue == k.ports[port].queue
    requires forall o :: o in k'.objects ==>
      if o in k.objects then k'.objects[o].waiters == k.objects[o].waiters else k'.objects[o].waiters == []
    requires k.objects.Keys <= k'.objects.Keys
    ensures Tokens(k', port, tok)
  {
    hide HasWaiter, HasNote, NotesFor;
    forall key | key in tok
      ensures TokenOk(k', port, key, tok[key])
    {
      assert TokenOk(k, port, key, tok[key]);
    }
  }

  /** Taking a waiter out brings its token to whoever took it. */
  lemma RemoveToken(k: Kernel, port: nat, tok: map<nat, Token>, o: nat, i: nat) returns (tok': map<nat, Token>)
    requires Tokens(k, port, tok) && o in k.objects && i < |k.objects[o].waiters|
    ensures Tokens(Removed(k, o, i), port, tok') && tok'.Keys == tok.Keys
    ensures var w := k.objects[o].waiters[i];
            if w.ToPort? && w.port == port then w.key in tok && tok' == tok[w.key := WithLoop] else tok' == tok
  {
    hide HasNote;
    var ws := k.objects[o].waiters;
    var w := ws[i];
    var mine := w.ToPort? && w.port == port;
    assert WaitersFor(ws, o, port, tok);
    tok' := if mine then tok[w.key := WithLoop] else tok;
    var k' := Removed(k, o, i);
    forall o' | o' in k'.objects
      ensures WaitersFor(k'.objects[o'].waiters, o', port, tok')
    {
      assert WaitersFor(k.objects[o'].waiters, o', port, tok);
      if o' == o { WaitersWithout(ws, o, port, tok, i); }
    }
    forall key | key in tok'
      ensures TokenOk(k', port, key, tok'[key])
    {
      assert TokenOk(k, port, key, tok[key]);
      if tok'[key] == OnObject(o) { StillHas(ws, i, port, key); }
    }
  }

  lemma WaitersWithout(ws: seq<SignalWaiter>, o: nat, port: nat, tok: map<nat, Token>, i: nat)
    requires WaitersFor(ws, o, port, tok) && i < |ws|
    ensures var mine := ws[i].ToPort? && ws[i].port == port;
            WaitersFor(ws[..i] + ws[i + 1..], o, port, if mine then tok[ws[i].key := WithLoop] else tok)
  {
    var w, ws' := ws[i], ws[..i] + ws[i + 1..];
    if w.ToPort? && w.port == port { assert Is(ws[i], port, w.key); }
    assert forall j :: 0 <= j < |ws'| ==> ws'[j] == ws[if j < i then j else j + 1];
  }

  lemma StillHas(ws: seq<SignalWaiter>, i: nat, port: nat, key: nat)
    requires i < |ws| && HasWaiter(ws, port, key) && !Is(ws[i], port, key)
    ensures HasWaiter(ws[..i] + ws[i + 1..], port, key)
  {
    var j :| 0 <= j < |ws| && Is(ws[j], port, key);
    assert (ws[..i] + ws[i + 1..])[if j < i then j else j - 1] == ws[j];
  }

  /** A notification for the port carries a token into its queue. */
  lemma NotifyToken(k: Kernel, port: nat, tok: map<nat, Token>, p: nat, n: Notification)
    requires Tokens(k, port, tok) && p in k.ports && (p == port ==> n.key in tok && tok[n.key] == WithLoop)
    ensures Tokens(Notified(k, p, n), port, if p == port then tok[n.key := InQueue] else tok)
  {
    hide HasWaiter;
    var k', tok' := Notified(k, p, n), if p == port then tok[n.key := InQueue] else tok;
    var q, q' := k.ports[port].queue, k'.ports[port].queue;
    forall o | o in k'.objects
      ensures WaitersFor(k'.objects[o].waiters, o, port, tok')
    {
      assert WaitersFor(k.objects[o].waiters, o, port, tok);
    }
    if p == port { assert q'[|q|] == n; }
    forall key | key in tok'
      ensures TokenOk(k', port, key, tok'[key])
    {
      assert TokenOk(k, port, key, tok[key]);
      if key in tok && tok[key] == InQueue {
        var i :| 0 <= i < |q| && q[i].key == key;
        assert q'[i].key == key;
      }
    }
  }

  lemma FireToken(k: Kernel, port: nat, tok: map<nat, Token>, o: nat, i: nat) returns (tok': map<nat, Token>)
    requires Tokens(k, port, tok) && o in k.objects && i < |k.objects[o].waiters|
    requires k.objects[o].waiters[i].ToPort? ==> k.objects[o].waiters[i].port in k.ports
    ensures Tokens(FiredAt(k, o, i), port, tok') && tok'.Keys == tok.Keys && OffObjects(tok, tok')
  {
    hide Tokens;
    var w := k.objects[o].waiters[i];
    KeyOf(k, port, tok, o, i);
    tok' := RemoveToken(k, port, tok, o, i);
    var k1 := Removed(k, o, i);
    match w {
      case One(t, _) => WokenToken(k1, port, tok', t);
      case ToPort(p, key, mask) =>
        NotifyToken(k1, port, tok', p, SignalOne(key, mask, k.objects[o].status));
        if p == port { tok' := tok'[key := InQueue]; }
    }
  }

  lemma KeyOf(k: Kernel, port: nat, tok: map<nat, Token>, o: nat, i: nat)
    requires Tokens(k, port, tok) && o in k.objects && i < |k.objects[o].waiters|
    ensures var w := k.objects[o].waiters[i];
            w.ToPort? && w.port == port ==> w.key in tok && tok[w.key] == OnObject(o)
  {
    assert WaitersFor(k.objects[o].waiters, o, port, tok);
  }

  lemma WokenToken(k: Kernel, port: nat, tok: map<nat, Token>, t: nat)
    requires Tokens(k, port, tok)
    ensures Tokens(Woken(k, t), port, tok)
  {
    TokensFrame(k, Woken(k, t), port, tok);
  }

  lemma {:induction false} ExtractTokens(k: Kernel, port: nat, tok: map<nat, Token>, o: nat, i: nat)
    returns (tok': map<nat, Token>)
    requires Tokens(k, port, tok) && o in k.objects && i <= |k.objects[o].waiters| && PortsFrom(k, o, i)
    ensures Tokens(Extracted(k, o, i), port, tok') && tok'.Keys == tok.Keys && OffObjects(tok, tok')
    decreases |k.objects[o].waiters| - i
  {
    hide Tokens, FiredAt, Extracted;
    tok' := tok;
    if i == |k.objects[o].waiters| {
      NothingLeftToExtract(k, o);
    } else {
      ExtractedRound(k, o, i);
      if Intersects(k.objects[o].status, k.objects[o].waiters[i].mask) {
        FireEffect(k, o, i);
        tok' := FireToken(k, port, tok, o, i);
        tok' := ExtractTokens(FiredAt(k, o, i), port, tok', o, i);
      } else {
        tok' := ExtractTokens(k, port, tok, o, i + 1);
      }
    }
  }

  lemma SetSignalTokens(k: Kernel, port: nat, tok: map<nat, Token>, o: nat, signal: ObjectSignal, on: bool)
    returns (tok': map<nat, Token>)
    requires Tokens(k, port, tok) && o in k.objects && PortsFrom(k, o, 0)
    ensures Tokens(SignalSet(k, o, signal, on), port, tok') && tok'.Keys == tok.Keys && OffObjects(tok, tok')
  {
    hide Extracted;
    var s, status := k.objects[o], Changed(k.objects[o].status, signal, on);
    tok' := tok;
    if status != s.status {
      var k1 := k.(objects := k.objects[o := Signal(status, s.waiters)]);
      TokensFrame(k, k1, port, tok);
      tok' := ExtractTokens(k1, port, tok, o, 0);
    }
  }

  /** Registering gives the token of a key away: to the object, or at once to the queue. */
  lemma PortWaitsToken(k: Kernel, port: nat, tok: map<nat, Token>, o: nat, w: SignalWaiter) returns (tok': map<nat, Token>)
    requires Tokens(k, port, tok) && o in k.objects && w.ToPort? && w.port in k.ports
    requires w.port == port ==> w.mask == READABLE && w.key in tok && tok[w.key] == WithLoop
    ensures Tokens(PortWaits(k, o, w), port, tok') && tok'.Keys == tok.Keys
    ensures w.port == port ==> tok'[w.key] == OnObject(o) || tok'[w.key] == InQueue
    ensures forall key :: key in tok && !Is(w, port, key) ==> tok'[key] == tok[key]
  {
    var s := k.objects[o];
    if Intersects(s.status, w.mask) {
      NotifyToken(k, port, tok, w.port, SignalOne(w.key, w.mask, s.status));
      tok' := if w.port == port then tok[w.key := InQueue] else tok;
    } else {
      tok' := if w.port == port then tok[w.key := OnObject(o)] else tok;
      RegisterToken(k, port, tok, o, w);
    }
  }

  lemma RegisterToken(k: Kernel, port: nat, tok: map<nat, Token>, o: nat, w: SignalWaiter)
    requires Tokens(k, port, tok) && o in k.objects && w.ToPort?
    requires w.port == port ==> w.mask == READABLE && w.key in tok && tok[w.key] == WithLoop
    ensures Tokens(k.(objects := k.objects[o := Signal(k.objects[o].status, k.objects[o].waiters + [w])]),
                   port, if w.port == port then tok[w.key := OnObject(o)] else tok)
  {
    hide HasNote;
    var s := k.objects[o];
    var ws' := s.waiters + [w];
    var k' := k.(objects := k.objects[o := Signal(s.status, ws')]);
    var tok' := if w.port == port then tok[w.key := OnObject(o)] else tok;
    forall o' | o' in k'.objects
      ensures WaitersFor(k'.objects[o'].waiters, o', port, tok')
    {
      assert WaitersFor(k.objects[o'].waiters, o', port, tok);
    }
    assert ws'[|s.waiters|] == w;
    forall key | key in tok'
      ensures TokenOk(k', port, key, tok'[key])
    {
      assert TokenOk(k, port, key, tok[key]);
      if tok[key] == OnObject(o) {
        var i :| 0 <= i < |s.waiters| && Is(s.waiters[i], port, key);
        assert Is(ws'[i], port, key);
      } else if w.port == port && key == w.key {
        assert Is(ws'[|s.waiters|], port, key);
      }
    }
  }

  /** The loop takes the token at the head of the queue. */
  lemma TakeToken(k: Kernel, port: nat, tok: map<nat, Token>, t: nat)
    requires Tokens(k, port, tok) && k.ports[port].queue != []
    ensures var key := k.ports[port].queue[0].key;
            key in tok && tok[key] == InQueue && Tokens(Attempted(k, port, t), port, tok[key := WithLoop])
  {
    hide HasWaiter;
    var q := k.ports[port].queue;
    var key, k' := q[0].key, Attempted(k, port, t);
    var tok' := tok[key := WithLoop];
    forall o | o in k'.objects
      ensures WaitersFor(k'.objects[o].waiters, o, port, tok')
    {
      assert WaitersFor(k.objects[o].waiters, o, port, tok);
    }
    forall key' | key' in tok'
      ensures TokenOk(k', port, key', tok'[key'])
    {
      assert TokenOk(k, port, key', tok[key']);
      if tok'[key'] == InQueue {
        var i :| 0 <= i < |q| && q[i].key == key';
        assert q[1..][i - 1].key == key';
      }
    }
  }

  // ---------------------------------------------------------------------------
  // The loop
  // ---------------------------------------------------------------------------

  datatype Step =
    | Other(st: R.Step)
    | Send(r: Request)
    | Take
    | Accept
    | Rearm
    | Arm(id: nat)
    | Insert
    | Continue
    | Break

  /** A step that leaves alone what is the service's own: its port, and READABLE on its accepting channel. */
  predicate KeepsOff(st: R.Step, port: nat, accepting: nat) {
    match st
    case TryPort(_, p) => p != port
    case Push(p, _) => p != port
    case WaitPort(_, w) => w.ToPort? && w.port != port
    case SetSignal(o, signal, _) => o != accepting || signal !! READABLE
    case _ => true
  }

  /** One above the largest key, or 1. */
  ghost predicate IsNextKey(customers: map<nat, nat>, id: nat) {
    if customers == map[] then id == 1
    else id > 0 && id - 1 in customers && forall key :: key in customers ==> key < id
  }

  function Register(s: Service, o: nat, key: nat): (st: R.Step) {
    R.WaitPort(o, ToPort(s.port, key, READABLE))
  }

  ghost predicate Enabled(s: Service, st: Step) {
    match st
    case Other(other) => R.Enabled(s.w, other) && KeepsOff(other, s.port, s.accepting)
    case Send(r) => r.o in s.w.k.objects && R.Enabled(s.w, R.SetSignal(s.accepting, READABLE, true))
    case Take => s.phase == Waits && R.Enabled(s.w, R.TryPort(s.me, s.port))
    case Accept => s.phase == Event(0) && R.Enabled(s.w, R.SetSignal(s.accepting, READABLE, |s.inbox| > 1))
    case Rearm => s.phase.Taken? && R.Enabled(s.w, Register(s, s.accepting, 0))
    case Arm(id) => s.phase.Accepted? && IsNextKey(s.customers, id) && R.Enabled(s.w, Register(s, s.phase.o, id))
    case Insert => s.phase.Armed?
    case Continue => s.phase.Event? && s.phase.key != 0
                     && (s.phase.key in s.customers ==> R.Enabled(s.w, Register(s, s.customers[s.phase.key], s.phase.key)))
    case Break => s.phase.Event? && s.phase.key != 0
  }

  /** The `unwrap` of a missing customer, and the `todo!` and `assert!` of a failed read. An empty channel
      counts as a failed read, whether or not the read would wait for a message: it is never met. */
  predicate Panics(s: Service, st: Step) {
    || ((st.Continue? || st.Break?) && s.phase.Event? && s.phase.key !in s.customers)
    || (st.Accept? && (s.inbox == [] || !s.inbox[0].good))
  }

  /** What is recorded of a step: a message sent, the message read, and the channel in it for the key registered. */
  function Recorded(s: Service, st: Step): (r: Record)
    requires !Panics(s, st)
  {
    match st
    case Send(r) => s.record.(sent := s.record.sent + [r])
    case Accept => s.record.(read := s.record.read + [s.inbox[0]])
    case Arm(id) => if s.record.read == [] then s.record else s.record.(armed := s.record.armed[id := LastRead(s.record)])
    case _ => s.record
  }

  /** The channel in the message read last. */
  function LastRead(r: Record): (o: nat)
    requires r.read != []
  {
    r.read[|r.read| - 1].o
  }

  ghost function Next(s: Service, st: Step): (s': Service)
    requires Enabled(s, st) && !Panics(s, st)
  {
    Acted(s, st).(record := Recorded(s, st))
  }

  /** What a step does to all but the record. */
  ghost function Acted(s: Service, st: Step): (s': Service)
    requires Enabled(s, st) && !Panics(s, st)
  {
    match st
    case Other(other) => s.(w := R.Next(s.w, other))
    case Send(r) => s.(w := R.Next(s.w, R.SetSignal(s.accepting, READABLE, true)), inbox := s.inbox + [r])
    case Take =>
      var q := s.w.k.ports[s.port].queue;
      s.(w := R.Next(s.w, R.TryPort(s.me, s.port)), phase := if q == [] then Waits else Event(q[0].key))
    case Accept => s.(w := R.Next(s.w, R.SetSignal(s.accepting, READABLE, |s.inbox| > 1)),
                      inbox := s.inbox[1..], phase := Taken(s.inbox[0].o))
    case Rearm => s.(w := R.Next(s.w, Register(s, s.accepting, 0)), phase := Accepted(s.phase.o))
    case Arm(id) => s.(w := R.Next(s.w, Register(s, s.phase.o, id)), phase := Armed(s.phase.o, id))
    case Insert => s.(customers := s.customers[s.phase.id := s.phase.o], phase := Waits)
    case Continue => s.(w := R.Next(s.w, Register(s, s.customers[s.phase.key], s.phase.key)), phase := Waits)
    case Break => s.(customers := s.customers - {s.phase.key}, phase := Waits)
  }

  // ---------------------------------------------------------------------------
  // One token for each key
  // ---------------------------------------------------------------------------

  /** The keys in use. */
  ghost function Keys(s: Service): (r: set<nat>) {
    {0} + s.customers.Keys + if s.phase.Armed? then {s.phase.id} else {}
  }

  /** The loop is between the event of a key and its next registration. */
  predicate Handles(phase: Phase, key: nat) {
    phase == Event(key) || (phase.Taken? && key == 0)
  }

  /** The loop is accepting a customer. */
  predicate Accepts(phase: Phase) {
    phase.Taken? || phase.Accepted? || phase.Armed?
  }

  /** Every key in use has one token, and the loop has only that of the event it handles. */
  ghost predicate TokensOk(s: Service, tok: map<nat, Token>) {
    && Tokens(s.w.k, s.port, tok) && tok.Keys == Keys(s)
    && 0 !in s.customers && s.accepting in s.w.k.objects
    && (forall key :: key in s.customers ==> s.customers[key] in s.w.k.objects)
    && (forall key :: key in tok ==> (tok[key] == WithLoop <==> Handles(s.phase, key)))
    && (s.phase.Event? ==> s.phase.key in tok)
    && (Accepts(s.phase) ==> s.phase.o in s.w.k.objects)
    && (s.phase.Armed? ==> s.phase.id > 0 && s.phase.id !in s.customers)
    && (forall key :: key in tok && tok[key].OnObject? ==> tok[key].o == ChannelOf(s, key))
  }

  /** The channel that a key in use is for. */
  function ChannelOf(s: Service, key: nat): (o: nat) {
    if key in s.customers then s.customers[key] else if s.phase.Armed? && key == s.phase.id then s.phase.o else s.accepting
  }

  /** Messages are read once each and in order, the loop goes on with the message it has just read, and the channel
      of each customer is the one in the message that was read for its key. */
  ghost predicate RecordOk(s: Service) {
    && s.record.sent == s.record.read + s.inbox
    && (Accepts(s.phase) ==> s.record.read != [] && s.phase.o == LastRead(s.record))
    && (s.phase.Armed? ==> s.phase.id in s.record.armed && s.record.armed[s.phase.id] == s.phase.o)
    && (forall key :: key in s.customers ==> key in s.record.armed && s.customers[key] == s.record.armed[key])
    && (forall key :: key in s.customers ==> key <= Handled(s))
    && (s.phase.Armed? ==> s.phase.id <= |s.record.read|)
  }

  /** How many messages have been read and dealt with. */
  function Handled(s: Service): (n: int) {
    if Accepts(s.phase) then |s.record.read| - 1 else |s.record.read|
  }

  /** The accepting channel is readable exactly while something is in it, and while it is empty the loop
      is registered with it, except between reading it and registering again. */
  ghost predicate InboxOk(s: Service) {
    && s.accepting in s.w.k.objects
    && (READABLE <= s.w.k.objects[s.accepting].status <==> s.inbox != [])
    && (s.inbox == [] && !s.phase.Taken? ==> ToPort(s.port, 0, READABLE) in s.w.k.objects[s.accepting].waiters)
    && forall r :: r in s.inbox ==> r.o in s.w.k.objects
  }

  ghost predicate Inv(s: Service, tok: map<nat, Token>) {
    TokensOk(s, tok) && InboxOk(s) && RecordOk(s)
  }

  lemma ObjectsStay(w: R.World, st: R.Step)
    requires R.Enabled(w, st)
    ensures w.k.objects.Keys <= R.NextKernel(w, st).objects.Keys
  {
    hide Extracted, SignalSet;
    if st.SetSignal? {
      R.SetSignalEffect(w.k, st.o, st.signal, st.on);
    }
  }

  /** What other threads do moves tokens from objects to the queue, and nothing else. */
  lemma OtherTokens(w: R.World, st: R.Step, port: nat, accepting: nat, tok: map<nat, Token>) returns (tok': map<nat, Token>)
    requires Tokens(w.k, port, tok) && R.Enabled(w, st) && (KeepsOff(st, port, accepting) || st.SetSignal?)
    ensures Tokens(R.NextKernel(w, st), port, tok') && tok'.Keys == tok.Keys && OffObjects(tok, tok')
  {
    hide Tokens, SignalSet, PortWaits, Notified, Waiting;
    tok' := tok;
    PortIs(w.k, port, tok);
    match st
    case SetSignal(o, signal, on) => tok' := SetSignalTokens(w.k, port, tok, o, signal, on);
    case WaitPort(o, v) => tok' := PortWaitsToken(w.k, port, tok, o, v);
    case Push(p, n) => NotifyToken(w.k, port, tok, p, n);
    case WaitObject(t, o, mask) => ThreadWaitsToken(w.k, port, tok, o, t, mask);
    case _ => TokensFrame(w.k, R.NextKernel(w, st), port, tok);
  }

  lemma PortIs(k: Kernel, port: nat, tok: map<nat, Token>)
    requires Tokens(k, port, tok)
    ensures port in k.ports
  {
  }

  /** A thread's own registration is no token. */
  lemma ThreadWaitsToken(k: Kernel, port: nat, tok: map<nat, Token>, o: nat, t: nat, mask: ObjectSignal)
    requires Tokens(k, port, tok) && o in k.objects
    ensures Tokens(ThreadWaits(k, o, t, mask), port, tok)
  {
    hide HasNote;
    var k', ws := ThreadWaits(k, o, t, mask), k.objects[o].waiters;
    forall o' | o' in k'.objects
      ensures WaitersFor(k'.objects[o'].waiters, o', port, tok)
    {
      assert WaitersFor(k.objects[o'].waiters, o', port, tok);
    }
    forall key | key in tok
      ensures TokenOk(k', port, key, tok[key])
    {
      assert TokenOk(k, port, key, tok[key]);
      if tok[key] == OnObject(o) {
        var i :| 0 <= i < |ws| && Is(ws[i], port, key);
        assert Is(k'.objects[o].waiters[i], port, key);
      }
    }
  }

  /** The loop may hold the token of a key that is new. */
  lemma NewToken(k: Kernel, port: nat, tok: map<nat, Token>, id: nat)
    requires Tokens(k, port, tok) && id !in tok
    ensures Tokens(k, port, tok[id := WithLoop])
  {
    hide HasNote, HasWaiter;
    var tok' := tok[id := WithLoop];
    forall o | o in k.objects
      ensures WaitersFor(k.objects[o].waiters, o, port, tok')
    {
      assert WaitersFor(k.objects[o].waiters, o, port, tok);
    }
    forall key | key in tok'
      ensures TokenOk(k, port, key, tok'[key])
    {
      if key != id { assert TokenOk(k, port, key, tok[key]); }
    }
  }

  /** The token of a customer that has gone goes with it. */
  lemma DropToken(k: Kernel, port: nat, tok: map<nat, Token>, key: nat)
    requires Tokens(k, port, tok) && key in tok && tok[key] == WithLoop
    ensures Tokens(k, port, tok - {key})
  {
    hide HasNote, HasWaiter;
    forall o | o in k.objects
      ensures WaitersFor(k.objects[o].waiters, o, port, tok - {key})
    {
      assert WaitersFor(k.objects[o].waiters, o, port, tok);
    }
    forall key' | key' in tok - {key}
      ensures TokenOk(k, port, key', (tok - {key})[key'])
    {
      assert TokenOk(k, port, key', tok[key']);
    }
  }

  lemma JoinToken(k: Kernel, port: nat, tok: map<nat, Token>, t: nat)
    requires Tokens(k, port, tok) && k.ports[port].queue == []
    ensures Tokens(Attempted(k, port, t), port, tok)
  {
    TokensFrame(k, Attempted(k, port, t), port, tok);
  }

  lemma RegisterStep(w: R.World, s: Service, o: nat, key: nat, tok: map<nat, Token>) returns (tok': map<nat, Token>)
    requires R.Enabled(w, Register(s, o, key)) && Tokens(w.k, s.port, tok) && key in tok && tok[key] == WithLoop
    ensures Tokens(R.NextKernel(w, Register(s, o, key)), s.port, tok') && tok'.Keys == tok.Keys
    ensures tok'[key] == OnObject(o) || tok'[key] == InQueue
    ensures forall key' :: key' in tok && key' != key ==> tok'[key'] == tok[key']
    ensures w.k.objects.Keys <= R.NextKernel(w, Register(s, o, key)).objects.Keys
  {
    hide Tokens;
    ObjectsStay(w, Register(s, o, key));
    tok' := PortWaitsToken(w.k, s.port, tok, o, ToPort(s.port, key, READABLE));
  }

  /** Steps by other threads, and changes of signals by the loop itself. */
  lemma SignalStep(s: Service, tok: map<nat, Token>, st: R.Step, s': Service) returns (tok': map<nat, Token>)
    requires TokensOk(s, tok) && R.Enabled(s.w, st) && (KeepsOff(st, s.port, s.accepting) || st.SetSignal?)
    requires s' == s.(w := R.Next(s.w, st), inbox := s'.inbox, phase := s'.phase, record := s'.record)
    requires s'.phase == s.phase || (s.phase == Event(0) && s'.phase.Taken? && s'.phase.o in s.w.k.objects)
    ensures TokensOk(s', tok')
  {
    hide Tokens, R.NextKernel, R.Next, R.Enabled;
    R.KernelOfNext(s.w, st);
    tok' := OtherTokens(s.w, st, s.port, s.accepting, tok);
    ObjectsStay(s.w, st);
  }

  lemma TakeStep(s: Service, tok: map<nat, Token>) returns (tok': map<nat, Token>)
    requires TokensOk(s, tok) && Enabled(s, Take)
    ensures TokensOk(Next(s, Take), tok')
  {
    hide Tokens, R.Next, R.NextAt;
    R.KernelOfNext(s.w, R.TryPort(s.me, s.port));
    PortIs(s.w.k, s.port, tok);
    tok' := tok;
    var q := s.w.k.ports[s.port].queue;
    if q == [] {
      JoinToken(s.w.k, s.port, tok, s.me);
    } else {
      TakeToken(s.w.k, s.port, tok, s.me);
      tok' := tok[q[0].key := WithLoop];
    }
  }

  lemma ArmCustomer(s: Service, tok: map<nat, Token>, id: nat) returns (tok': map<nat, Token>)
    requires TokensOk(s, tok) && Enabled(s, Arm(id)) && !Panics(s, Arm(id))
    ensures TokensOk(Next(s, Arm(id)), tok')
  {
    hide Tokens, R.NextKernel, R.Next, R.Enabled;
    R.KernelOfNext(s.w, Register(s, s.phase.o, id));
    NewToken(s.w.k, s.port, tok, id);
    tok' := RegisterStep(s.w, s, s.phase.o, id, tok[id := WithLoop]);
  }

  /** The key that the loop has just handled is registered again with its channel. */
  lemma ArmAgain(s: Service, tok: map<nat, Token>, o: nat, key: nat, s': Service) returns (tok': map<nat, Token>)
    requires TokensOk(s, tok) && R.Enabled(s.w, Register(s, o, key)) && key in tok && Handles(s.phase, key)
    requires o == ChannelOf(s, key) && s' == s.(w := R.Next(s.w, Register(s, o, key)), phase := s'.phase)
    requires if s.phase.Taken? then s'.phase == Accepted(s.phase.o) else s'.phase == Waits
    ensures TokensOk(s', tok')
  {
    hide Tokens, R.NextKernel, R.Next, R.Enabled;
    R.KernelOfNext(s.w, Register(s, o, key));
    tok' := RegisterStep(s.w, s, o, key, tok);
  }

  lemma ArmStep(s: Service, tok: map<nat, Token>, st: Step) returns (tok': map<nat, Token>)
    requires TokensOk(s, tok) && Enabled(s, st) && !Panics(s, st) && (st.Rearm? || st.Arm? || st.Continue?)
    ensures TokensOk(Next(s, st), tok')
  {
    hide Tokens, R.NextKernel, R.Next, R.Enabled;
    match st
    case Rearm => tok' := ArmAgain(s, tok, s.accepting, 0, Next(s, st));
    case Arm(id) => tok' := ArmCustomer(s, tok, id);
    case Continue => tok' := ArmAgain(s, tok, s.customers[s.phase.key], s.phase.key, Next(s, st));
  }

  /** The loop panics exactly on a message that is not as it expects: it never looks up a customer that is
      missing and never finds the accepting channel empty. */
  lemma PanicsOnlyOnBadMessage(s: Service, tok: map<nat, Token>, st: Step)
    requires Inv(s, tok) && Enabled(s, st)
    ensures Panics(s, st) <==> st.Accept? && s.inbox != [] && !s.inbox[0].good
  {
    hide R.Enabled;
    if st.Accept? {
      assert WaitersFor(s.w.k.objects[s.accepting].waiters, s.accepting, s.port, tok);
    }
  }

  lemma InsertStep(s: Service, tok: map<nat, Token>)
    requires TokensOk(s, tok) && Enabled(s, Insert)
    ensures TokensOk(Next(s, Insert), tok)
  {
    hide Tokens;
  }

  lemma BreakStep(s: Service, tok: map<nat, Token>) returns (tok': map<nat, Token>)
    requires TokensOk(s, tok) && Enabled(s, Break) && !Panics(s, Break)
    ensures TokensOk(Next(s, Break), tok')
  {
    hide Tokens;
    DropToken(s.w.k, s.port, tok, s.phase.key);
    tok' := tok - {s.phase.key};
  }

  lemma TokensAfter(s: Service, tok: map<nat, Token>, st: Step) returns (tok': map<nat, Token>)
    requires Inv(s, tok) && Enabled(s, st) && !Panics(s, st)
    ensures TokensOk(Next(s, st), tok')
  {
    hide TokensOk, R.NextKernel, R.Next, R.Enabled;
    tok' := tok;
    match st
    case Other(other) => tok' := SignalStep(s, tok, other, Next(s, st));
    case Send(r) => tok' := SignalStep(s, tok, R.SetSignal(s.accepting, READABLE, true), Next(s, st));
    case Accept => tok' := SignalStep(s, tok, R.SetSignal(s.accepting, READABLE, |s.inbox| > 1), Next(s, st));
    case Take => tok' := TakeStep(s, tok);
    case Insert => InsertStep(s, tok);
    case Break => tok' := BreakStep(s, tok);
    case _ => tok' := ArmStep(s, tok, st);
  }

  // ---------------------------------------------------------------------------
  // The accepting channel
  // ---------------------------------------------------------------------------

  /** What any step does to an object: its status changes only by setting a signal on it, and a waiter
      that the new status does not fire stays. */
  lemma ObjectAfter(w: R.World, st: R.Step, o: nat)
    requires R.Enabled(w, st) && o in w.k.objects
    ensures o in R.NextKernel(w, st).objects
    ensures var s' := R.NextKernel(w, st).objects[o];
            && s'.status == (if st.SetSignal? && st.o == o then Changed(w.k.objects[o].status, st.signal, st.on)
                             else w.k.objects[o].status)
            && forall v :: v in w.k.objects[o].waiters && !Intersects(s'.status, v.mask) ==> v in s'.waiters
  {
    hide Extracted, SignalSet, Intersects;
    if st.SetSignal? {
      R.SetSignalEffect(w.k, st.o, st.signal, st.on);
    }
  }

  lemma RegisteredAfter(w: R.World, o: nat, v: SignalWaiter)
    requires R.Enabled(w, R.WaitPort(o, v)) && !Intersects(w.k.objects[o].status, v.mask)
    ensures v in R.NextKernel(w, R.WaitPort(o, v)).objects[o].waiters
  {
  }

  /** A step of the kernel under which the accepting channel keeps READABLE in step with `inbox`. */
  lemma InboxAfter(s: Service, st: R.Step, s': Service)
    requires InboxOk(s) && R.Enabled(s.w, st) && s'.w == R.Next(s.w, st)
    requires s'.port == s.port && s'.accepting == s.accepting
    requires s'.phase.Taken? || !s.phase.Taken?
    requires forall r :: r in s'.inbox ==> r.o in s.w.k.objects
    requires if st.SetSignal? && st.o == s.accepting && st.signal == READABLE
             then (st.on <==> s'.inbox != []) && (s'.inbox == [] ==> s'.phase.Taken?)
             else s'.inbox == s.inbox && (st.SetSignal? ==> KeepsOff(st, s.port, s.accepting))
    ensures InboxOk(s')
  {
    hide R.NextKernel, R.NextAt, R.NextGot, R.SentBy, R.Enabled;
    ObjectAfter(s.w, st, s.accepting);
    ObjectsStay(s.w, st);
  }

  lemma InboxStep(s: Service, st: Step)
    requires InboxOk(s) && Enabled(s, st) && !Panics(s, st)
    ensures InboxOk(Next(s, st))
  {
    hide R.NextKernel, R.NextAt, R.NextGot, R.SentBy, R.Enabled, InboxOk;
    var s' := Next(s, st);
    RequestsKnown(s);
    match st
    case Other(other) => InboxAfter(s, other, s');
    case Send(r) => InboxAfter(s, R.SetSignal(s.accepting, READABLE, true), s');
    case Take => InboxAfter(s, R.TryPort(s.me, s.port), s');
    case Accept => InboxAfter(s, R.SetSignal(s.accepting, READABLE, |s.inbox| > 1), s');
    case Rearm => RearmInbox(s);
    case Arm(id) => InboxAfter(s, Register(s, s.phase.o, id), s');
    case Continue => InboxAfter(s, Register(s, s.customers[s.phase.key], s.phase.key), s');
    case _ => SameInbox(s, s');
  }

  lemma RequestsKnown(s: Service)
    requires InboxOk(s)
    ensures forall r :: r in s.inbox ==> r.o in s.w.k.objects
  {
  }

  lemma SameInbox(s: Service, s': Service)
    requires InboxOk(s) && s'.w == s.w && s'.port == s.port && s'.accepting == s.accepting && s'.inbox == s.inbox
    requires !s.phase.Taken?
    ensures InboxOk(s')
  {
  }

  lemma RearmInbox(s: Service)
    requires InboxOk(s) && Enabled(s, Rearm)
    ensures InboxOk(Next(s, Rearm))
  {
    hide R.NextKernel, R.NextAt, R.NextGot, R.SentBy;
    var st := Register(s, s.accepting, 0);
    ObjectAfter(s.w, st, s.accepting);
    ObjectsStay(s.w, st);
    if s.inbox == [] { RegisteredAfter(s.w, s.accepting, ToPort(s.port, 0, READABLE)); }
  }

  // ---------------------------------------------------------------------------
  // Which channel a key is for
  // ---------------------------------------------------------------------------

  /** Steps that neither read a message nor register or insert a customer. */
  lemma RecordFrame(s: Service, s': Service)
    requires RecordOk(s) && s'.record == s.record && s'.inbox == s.inbox
    requires forall key :: key in s'.customers ==> key in s.customers && s'.customers[key] == s.customers[key]
    requires || s'.phase == s.phase || (!Accepts(s.phase) && !Accepts(s'.phase))
             || (s.phase.Taken? && s'.phase == Accepted(s.phase.o))
    ensures RecordOk(s')
  {
  }

  lemma RecordSend(s: Service, r: Request)
    requires RecordOk(s) && Enabled(s, Send(r))
    ensures RecordOk(Next(s, Send(r)))
  {
    hide R.Enabled, R.Next;
    assert s.record.sent + [r] == s.record.read + (s.inbox + [r]);
  }

  lemma RecordAccept(s: Service)
    requires RecordOk(s) && Enabled(s, Accept) && !Panics(s, Accept)
    ensures RecordOk(Next(s, Accept))
  {
    hide R.Enabled, R.Next;
    assert s.record.read + s.inbox == s.record.read + [s.inbox[0]] + s.inbox[1..];
  }

  lemma RecordArm(s: Service, id: nat)
    requires RecordOk(s) && Enabled(s, Arm(id))
    ensures RecordOk(Next(s, Arm(id)))
  {
    hide R.Enabled, R.Next;
  }

  lemma RecordInsert(s: Service)
    requires RecordOk(s) && Enabled(s, Insert)
    ensures RecordOk(Next(s, Insert))
  {
  }

  lemma RecordStep(s: Service, st: Step)
    requires RecordOk(s) && Enabled(s, st) && !Panics(s, st)
    ensures RecordOk(Next(s, st))
  {
    hide R.Enabled, R.Next, RecordOk;
    match st
    case Send(r) => RecordSend(s, r);
    case Accept => RecordAccept(s);
    case Arm(id) => RecordArm(s, id);
    case Insert => RecordInsert(s);
    case _ => RecordFrame(s, Next(s, st));
  }

  // ---------------------------------------------------------------------------
  // Every run
  // ---------------------------------------------------------------------------

  /** Every step that does not panic keeps one token per key and the loop registered while its accepting
      channel is empty. */
  lemma StepKeepsTokens(s: Service, tok: map<nat, Token>, st: Step) returns (tok': map<nat, Token>)
    requires Inv(s, tok) && Enabled(s, st)
    ensures Panics(s, st) <==> st.Accept? && s.inbox != [] && !s.inbox[0].good
    ensures !Panics(s, st) ==> Inv(Next(s, st), tok')
  {
    hide TokensOk, InboxOk, RecordOk, Enabled, Next, Panics;
    PanicsOnlyOnBadMessage(s, tok, st);
    tok' := tok;
    if !Panics(s, st) {
      tok' := TokensAfter(s, tok, st);
      InboxStep(s, st);
      RecordStep(s, st);
    }
  }

  /** `Service::new` has just registered key 0 with a port of its own. */
  ghost predicate Starts(w: R.World, s: Service) {
    && s.port in w.k.ports && w.k.ports[s.port].queue == [] && s.accepting in w.k.objects
    && (forall o, v :: o in w.k.objects && v in w.k.objects[o].waiters ==> !(v.ToPort? && v.port == s.port))
    && (READABLE <= w.k.objects[s.accepting].status <==> s.inbox != [])
    && (forall r :: r in s.inbox ==> r.o in w.k.objects)
    && s.w == R.Next(w, Register(s, s.accepting, 0)) && s.customers == map[] && s.phase == Waits
    && s.record == Record(s.inbox, [], map[])
  }

  lemma NewServiceTokens(w: R.World, s: Service) returns (tok: map<nat, Token>)
    requires Starts(w, s)
    ensures Inv(s, tok)
  {
    hide R.NextKernel, R.Next, Tokens;
    var st := Register(s, s.accepting, 0);
    R.KernelOfNext(w, st);
    var none: map<nat, Token> := map[];
    NoTokens(w.k, s.port);
    NewToken(w.k, s.port, none, 0);
    tok := RegisterStep(w, s, s.accepting, 0, none[0 := WithLoop]);
    ObjectAfter(w, st, s.accepting);
    if s.inbox == [] { RegisteredAfter(w, s.accepting, ToPort(s.port, 0, READABLE)); }
  }

  lemma NoTokens(k: Kernel, port: nat)
    requires port in k.ports && k.ports[port].queue == []
    requires forall o, v :: o in k.objects && v in k.objects[o].waiters ==> !(v.ToPort? && v.port == port)
    ensures Tokens(k, port, map[])
  {
  }

  /** A run of the service, in any interleaving, up to a panic. */
  ghost predicate IsRun(w: R.World, ss: seq<Service>, steps: seq<Step>) {
    && |ss| == |steps| + 1 && Starts(w, ss[0])
    && forall i: nat :: i < |steps| ==>
         Enabled(ss[i], steps[i]) && !Panics(ss[i], steps[i]) && ss[i + 1] == Next(ss[i], steps[i])
  }

  lemma {:induction false} RunKeepsTokens(w: R.World, ss: seq<Service>, steps: seq<Step>, n: nat)
    returns (tok: map<nat, Token>)
    requires IsRun(w, ss, steps) && n < |ss|
    ensures Inv(ss[n], tok)
  {
    hide Inv, Enabled, Next, Starts, Panics;
    if n == 0 {
      tok := NewServiceTokens(w, ss[0]);
    } else {
      tok := RunKeepsTokens(w, ss, steps, n - 1);
      tok := StepKeepsTokens(ss[n - 1], tok, steps[n - 1]);
    }
  }

  /** In every run the next step panics exactly when it reads a message that is not as expected, so that the
      customer of an event is always found and the read never meets an empty channel; and a key that is
      not in use has neither a waiter nor a notification, so that using it again is safe. */
  lemma KeysNeverStale(w: R.World, ss: seq<Service>, steps: seq<Step>, n: nat, st: Step, key: nat)
    requires IsRun(w, ss, steps) && n < |ss| && Enabled(ss[n], st)
    ensures Panics(ss[n], st) <==> st.Accept? && ss[n].inbox != [] && !ss[n].inbox[0].good
    ensures ss[n].port in ss[n].w.k.ports
    ensures key !in Keys(ss[n]) ==> !HasNote(ss[n].w.k.ports[ss[n].port].queue, key)
    ensures key !in Keys(ss[n]) ==>
      forall o :: o in ss[n].w.k.objects ==> !HasWaiter(ss[n].w.k.objects[o].waiters, ss[n].port, key)
  {
    hide Enabled, Next, Panics, Starts;
    var tok := RunKeepsTokens(w, ss, steps, n);
    PanicsOnlyOnBadMessage(ss[n], tok, st);
    if key !in Keys(ss[n]) {
      forall o | o in ss[n].w.k.objects
        ensures !HasWaiter(ss[n].w.k.objects[o].waiters, ss[n].port, key)
      {
        assert WaitersFor(ss[n].w.k.objects[o].waiters, o, ss[n].port, tok);
      }
    }
  }

  lemma StepKeepsReady(s: Service, st: Step)
    requires R.NoneReady(s.w.k) && Enabled(s, st) && !Panics(s, st)
    ensures R.NoneReady(Next(s, st).w.k)
  {
    hide R.NoneReady, R.NextKernel, R.NextAt, R.NextGot, R.SentBy, R.MadeBy, R.FiredBy, R.Enabled;
    match st
    case Other(other) => R.StepKeepsNoneReady(s.w, other);
    case Send(r) => R.StepKeepsNoneReady(s.w, R.SetSignal(s.accepting, READABLE, true));
    case Take => R.StepKeepsNoneReady(s.w, R.TryPort(s.me, s.port));
    case Accept => R.StepKeepsNoneReady(s.w, R.SetSignal(s.accepting, READABLE, |s.inbox| > 1));
    case Rearm => R.StepKeepsNoneReady(s.w, Register(s, s.accepting, 0));
    case Arm(id) => R.StepKeepsNoneReady(s.w, Register(s, s.phase.o, id));
    case Continue => R.StepKeepsNoneReady(s.w, Register(s, s.customers[s.phase.key], s.phase.key));
    case _ =>
  }

  lemma {:induction false} RunKeepsReady(w: R.World, ss: seq<Service>, steps: seq<Step>, n: nat)
    requires IsRun(w, ss, steps) && n < |ss| && R.NoneReady(w.k)
    ensures R.NoneReady(ss[n].w.k)
  {
    hide Enabled, Next, Panics, R.NoneReady, R.NextKernel, R.NextAt, R.NextGot, R.SentBy, R.MadeBy, R.FiredBy;
    if n == 0 {
      R.StepKeepsNoneReady(w, Register(ss[0], ss[0].accepting, 0));
    } else {
      RunKeepsReady(w, ss, steps, n - 1);
      StepKeepsReady(ss[n - 1], steps[n - 1]);
    }
  }

  /** The one registration that the loop makes for a key. */
  ghost predicate Listens(s: Service, key: nat, o: nat) {
    o in s.w.k.objects && ToPort(s.port, key, READABLE) in s.w.k.objects[o].waiters
  }

  lemma OneOfThree(s: Service, tok: map<nat, Token>, key: nat)
    requires TokensOk(s, tok) && key in Keys(s)
    ensures ChannelOf(s, key) in s.w.k.objects
    ensures Listens(s, key, ChannelOf(s, key)) || HasNote(s.w.k.ports[s.port].queue, key) || Handles(s.phase, key)
    ensures HasNote(s.w.k.ports[s.port].queue, key) ==> !Handles(s.phase, key)
  {
    assert TokenOk(s.w.k, s.port, key, tok[key]);
    if tok[key].OnObject? {
      var ws := s.w.k.objects[tok[key].o].waiters;
      assert WaitersFor(ws, tok[key].o, s.port, tok);
      var i :| 0 <= i < |ws| && Is(ws[i], s.port, key);
      assert ws[i] == ToPort(s.port, key, READABLE);
    }
  }

  lemma ListensOnce(s: Service, tok: map<nat, Token>, key: nat, o: nat)
    requires TokensOk(s, tok) && o in s.w.k.objects && HasWaiter(s.w.k.objects[o].waiters, s.port, key)
    ensures key in Keys(s) && o == ChannelOf(s, key) && Listens(s, key, o)
    ensures !HasNote(s.w.k.ports[s.port].queue, key) && !Handles(s.phase, key)
  {
    var ws := s.w.k.objects[o].waiters;
    assert WaitersFor(ws, o, s.port, tok);
    var i :| 0 <= i < |ws| && Is(ws[i], s.port, key);
    assert ws[i] == ToPort(s.port, key, READABLE);
  }

  /** In every run, the channel of a customer is the one in the message that was read when its key was registered, and
      messages are read once each and in order. Each key in use either listens to its own channel for READABLE, and to
      no other, or is queued, or is being handled; and while its channel is readable it is one of the latter two. */
  lemma CustomersAreHeard(w: R.World, ss: seq<Service>, steps: seq<Step>, n: nat, key: nat)
    requires IsRun(w, ss, steps) && n < |ss| && R.NoneReady(w.k) && key in Keys(ss[n])
    ensures ss[n].record.sent == ss[n].record.read + ss[n].inbox
    ensures key in ss[n].customers ==>
      key in ss[n].record.armed && ChannelOf(ss[n], key) == ss[n].customers[key] == ss[n].record.armed[key]
    ensures key == 0 ==> ChannelOf(ss[n], key) == ss[n].accepting
    ensures key <= |ss[n].record.read|
    ensures ss[n].port in ss[n].w.k.ports && ChannelOf(ss[n], key) in ss[n].w.k.objects
    ensures var noted := HasNote(ss[n].w.k.ports[ss[n].port].queue, key);
            && (Listens(ss[n], key, ChannelOf(ss[n], key)) <==> !noted && !Handles(ss[n].phase, key))
            && !(noted && Handles(ss[n].phase, key))
            && (READABLE <= ss[n].w.k.objects[ChannelOf(ss[n], key)].status ==> noted || Handles(ss[n].phase, key))
    ensures forall o :: o in ss[n].w.k.objects && HasWaiter(ss[n].w.k.objects[o].waiters, ss[n].port, key) ==>
              o == ChannelOf(ss[n], key)
  {
    hide Enabled, Next, Panics, Starts, Tokens;
    var s := ss[n];
    var tok := RunKeepsTokens(w, ss, steps, n);
    RunKeepsReady(w, ss, steps, n);
    PortIs(s.w.k, s.port, tok);
    OneOfThree(s, tok, key);
    forall o | o in s.w.k.objects && HasWaiter(s.w.k.objects[o].waiters, s.port, key)
      ensures o == ChannelOf(s, key) && !HasNote(s.w.k.ports[s.port].queue, key) && !Handles(s.phase, key)
    {
      ListensOnce(s, tok, key, o);
    }
    if Listens(s, key, ChannelOf(s, key)) {
      ListensHas(s, key, ChannelOf(s, key));
      NotReadable(s, key, ChannelOf(s, key));
    }
  }

  lemma NotReadable(s: Service, key: nat, o: nat)
    requires Listens(s, key, o) && R.NoneReady(s.w.k)
    ensures !(READABLE <= s.w.k.objects[o].status)
  {
    if READABLE <= s.w.k.objects[o].status { ReadableFires(s.w.k.objects[o].status); }
  }

  lemma ReadableFires(status: ObjectSignal)
    requires READABLE <= status
    ensures Intersects(status, READABLE)
  {
    assert 1 in status * READABLE;
  }

  lemma ListensHas(s: Service, key: nat, o: nat)
    requires Listens(s, key, o)
    ensures HasWaiter(s.w.k.objects[o].waiters, s.port, key)
  {
    var ws := s.w.k.objects[o].waiters;
    var i :| 0 <= i < |ws| && ws[i] == ToPort(s.port, key, READABLE);
    assert Is(ws[i], s.port, key);
  }
}
