/** rpc.py: pairing calls with responses in the asynchronous and the synchronous client. */
module RpcCalls {
  import opened Basics
  import opened Bytewise
  import opened Histories
  import opened BigEndian
  import opened RpcFraming

  type Body = Option<Bytes>

  // ---- Asynchronous client ----

  /** The receive loop: between a bad response and its `finally` clause it closes the stream. */
  datatype RecvLoop = Running | Failing | Done

  /** The future of one call. */
  datatype Future = Open | Resolved(body: Body) | ConnectionLost | Cancelled

  /**
   * `futures` holds every future that was ever created; `unsent` the calls whose request could not be
   * sent, whose future nobody awaits; `clashes` counts settlements of a future that was settled already.
   */
  datatype Client = Client(
    counter: nat,
    pending: set<nat>,
    futures: map<nat, Future>,
    unsent: set<nat>,
    loop: RecvLoop,
    inbox: seq<Message>,
    clashes: nat)

  datatype Event =
    | Call                      // `__call__` from the check of the receive task to the assignment to `_pending`
    | SendFailed(id: nat)       // the send raised: the entry is dropped again
    | CallerCancelled(id: nat)  // whoever awaited the future gave up
    | Receive(message: Message) // one pass through the body of `_recv_loop`
    | LoopEnds                  // the `finally` clause: end of stream, `close()`, or a bad message
    | SendClose                 // `close` takes a call id for its own message

  const FRESH := Client(0, {}, map[], {}, Running, [], 0)

  predicate Enabled(c: Client, e: Event) {
    match e
    case Call => !c.loop.Done?
    case SendFailed(id) => id in c.futures
    case CallerCancelled(id) => id in c.futures
    case Receive(_) => c.loop.Running?
    case LoopEnds => !c.loop.Done?
    case SendClose => true
  }

  /** `set_result` or `set_exception`; on a settled future asyncio would raise. */
  function Settle(c: Client, id: nat, value: Future): Client
    requires id in c.futures
  {
    if c.futures[id] == Cancelled then c
    else if c.futures[id] == Open then c.(futures := c.futures[id := value])
    else c.(clashes := c.clashes + 1)
  }

  /** The `finally` clause of `_recv_loop`. */
  function FailPending(c: Client): Client {
    c.(futures := map i | i in c.futures :: if i in c.pending && c.futures[i] == Open then ConnectionLost else c.futures[i],
       pending := {}, loop := Done)
  }

  function Apply(c: Client, e: Event): Client
    requires Enabled(c, e)
  {
    match e
    case Call =>
      var id := c.counter + 1;
      c.(counter := id, futures := c.futures[id := Open], pending := c.pending + {id})
    case SendFailed(id) => c.(pending := c.pending - {id}, unsent := c.unsent + {id})
    case CallerCancelled(id) =>
      if c.futures[id] == Open then c.(futures := c.futures[id := Cancelled]) else c
    case Receive(m) =>
      var d := c.(inbox := c.inbox + [m]);
      if m.id in c.pending && m.id in c.futures
      then Settle(d.(pending := d.pending - {m.id}), m.id, Resolved(m.body))
      else d.(loop := Failing)
    case LoopEnds => FailPending(c)
    case SendClose => c.(counter := c.counter + 1)
  }

  /** The first message received with this call id. */
  function FirstAnswer(inbox: seq<Message>, id: nat): Option<Body> {
    if inbox == [] then None
    else if inbox[0].id == id then Some(inbox[0].body)
    else FirstAnswer(inbox[1..], id)
  }

  ghost predicate Inv(c: Client) {
    && c.clashes == 0
    && c.pending <= c.futures.Keys
    && (forall i :: i in c.futures ==> 1 <= i <= c.counter)
    && (forall i :: i in c.pending ==> c.futures[i] == Open || c.futures[i] == Cancelled)
    && (forall i :: i in c.futures && c.futures[i] == Open ==> i in c.pending || i in c.unsent)
    && (c.loop.Done? ==> c.pending == {})
    && (c.loop.Running? ==> forall k :: 0 <= k < |c.inbox| ==> c.inbox[k].id <= c.counter)
    && (c.loop.Running? ==> forall i :: i in c.pending ==> FirstAnswer(c.inbox, i) == None)
    && (forall i :: i in c.futures && c.futures[i].Resolved? ==> FirstAnswer(c.inbox, i) == Some(c.futures[i].body))
  }

  lemma {:induction false} FirstAnswerSnoc(inbox: seq<Message>, m: Message, id: nat)
    ensures FirstAnswer(inbox + [m], id) ==
              if FirstAnswer(inbox, id).Some? then FirstAnswer(inbox, id)
              else if m.id == id then Some(m.body) else None
  {
    if inbox == [] {
      assert inbox + [m] == [m] && [m][1..] == [];
    } else {
      FirstAnswerSnoc(inbox[1..], m, id);
      assert (inbox + [m])[1..] == inbox[1..] + [m];
    }
  }

  lemma {:induction false} NoAnswerYet(inbox: seq<Message>, id: nat)
    requires forall k :: 0 <= k < |inbox| ==> inbox[k].id != id
    ensures FirstAnswer(inbox, id) == None
  {
    if inbox != [] { NoAnswerYet(inbox[1..], id); }
  }

  lemma ReceiveKeepsInv(c: Client, m: Message)
    requires Inv(c) && c.loop.Running?
    ensures Inv(Apply(c, Receive(m)))
  {
    forall i ensures FirstAnswer(c.inbox + [m], i) ==
              if FirstAnswer(c.inbox, i).Some? then FirstAnswer(c.inbox, i)
              else if m.id == i then Some(m.body) else None
    {
      FirstAnswerSnoc(c.inbox, m, i);
    }
  }

  lemma EventKeepsInv(c: Client, e: Event)
    requires Inv(c) && Enabled(c, e)
    ensures Inv(Apply(c, e))
  {
    match e
    case Call => if c.loop.Running? { NoAnswerYet(c.inbox, c.counter + 1); }
    case Receive(m) => ReceiveKeepsInv(c, m);
    case _ =>
  }

  ghost predicate IsStep(c: Client, e: Event, d: Client) { Enabled(c, e) && d == Apply(c, e) }

  ghost predicate IsRun(clients: seq<Client>, events: seq<Event>) {
    && |clients| == |events| + 1 && clients[0] == FRESH
    && forall n :: 0 <= n < |events| ==> IsStep(clients[n], events[n], clients[n + 1])
  }

  lemma {:induction false} EveryRunKeepsInv(clients: seq<Client>, events: seq<Event>, n: nat)
    requires IsRun(clients, events) && n < |clients|
    ensures Inv(clients[n])
  {
    if n > 0 {
      EveryRunKeepsInv(clients, events, n - 1);
      assert IsStep(clients[n - 1], events[n - 1], clients[n - 1 + 1]);
      EventKeepsInv(clients[n - 1], events[n - 1]);
    }
  }

  /**
   * Over every run: a resolved call holds the first response that carried its own id, no future is
   * settled twice, and once the receive loop is done no call that anyone awaits is left open.
   */
  lemma CallsArePaired(clients: seq<Client>, events: seq<Event>, n: nat, id: nat)
    requires IsRun(clients, events) && n < |clients| && id in clients[n].futures
    ensures clients[n].futures[id].Resolved? ==>
              Message(id, clients[n].futures[id].body) in clients[n].inbox
              && FirstAnswer(clients[n].inbox, id) == Some(clients[n].futures[id].body)
    ensures clients[n].clashes == 0
    ensures clients[n].loop.Done? ==>
              clients[n].pending == {} && (clients[n].futures[id] == Open ==> id in clients[n].unsent)
  {
    EveryRunKeepsInv(clients, events, n);
    if clients[n].futures[id].Resolved? { AnswerInInbox(clients[n].inbox, id); }
  }

  lemma {:induction false} AnswerInInbox(inbox: seq<Message>, id: nat)
    requires FirstAnswer(inbox, id).Some?
    ensures Message(id, FirstAnswer(inbox, id).value) in inbox
  {
    if inbox[0].id != id {
      AnswerInInbox(inbox[1..], id);
    } else {
      assert inbox[0] == Message(id, FirstAnswer(inbox, id).value);
    }
  }

  lemma EventKeepsSettled(c: Client, e: Event, id: nat)
    requires Inv(c) && Enabled(c, e) && id in c.futures
    ensures id in Apply(c, e).futures
    ensures c.futures[id] != Open ==> Apply(c, e).futures[id] == c.futures[id]
    ensures e.Receive? && e.message.id == id && id in c.pending && c.futures[id] == Open ==>
              Apply(c, e).futures[id] == Resolved(e.message.body) && id !in Apply(c, e).pending
  {
  }

  /** Over every run, a settled future never changes again. */
  lemma {:induction false} SettledForGood(clients: seq<Client>, events: seq<Event>, n: nat, m: nat, id: nat)
    requires IsRun(clients, events) && n <= m < |clients| && id in clients[n].futures && clients[n].futures[id] != Open
    ensures id in clients[m].futures && clients[m].futures[id] == clients[n].futures[id]
    decreases m
  {
    if n < m {
      EveryRunKeepsInv(clients, events, m - 1);
      SettledForGood(clients, events, n, m - 1, id);
      assert IsStep(clients[m - 1], events[m - 1], clients[m - 1 + 1]);
      EventKeepsSettled(clients[m - 1], events[m - 1], id);
    }
  }

  /** Over every run, a response to an open pending call settles that call with its body. */
  lemma ResponseSettlesItsCall(clients: seq<Client>, events: seq<Event>, n: nat, id: nat)
    requires IsRun(clients, events) && n < |events| && events[n].Receive? && events[n].message.id == id
    requires id in clients[n].pending && id in clients[n].futures && clients[n].futures[id] == Open
    ensures id in clients[n + 1].futures && clients[n + 1].futures[id] == Resolved(events[n].message.body)
    ensures id !in clients[n + 1].pending
  {
    EveryRunKeepsInv(clients, events, n);
    assert IsStep(clients[n], events[n], clients[n + 1]);
    EventKeepsSettled(clients[n], events[n], id);
  }

  // ---- What the events alone tell ----

  /** The call is pending and its future open when the event happens. */
  predicate OpenAt(c: Client, id: nat) {
    id in c.pending && id in c.futures && c.futures[id] == Open
  }

  /** The event gives the future of the call this value. */
  predicate Gives(c: Client, e: Event, id: nat, value: Future) {
    match value
    case Open => e.Call? && id == c.counter + 1
    case Resolved(body) => e == Receive(Message(id, body)) && OpenAt(c, id)
    case ConnectionLost => e.LoopEnds? && OpenAt(c, id)
    case Cancelled => e == CallerCancelled(id) && id in c.futures && c.futures[id] == Open
  }

  lemma FutureStep(c: Client, e: Event, id: nat, value: Future)
    requires Inv(c) && Enabled(c, e) && value != Open
    ensures id in Apply(c, e).futures && Apply(c, e).futures[id] == value <==>
              Gives(c, e, id, value) || (id in c.futures && c.futures[id] == value)
  {
  }

  /**
   * A future holds a value exactly when the one event that gives this value happened while the call was open:
   * its own response, the end of the loop, or the cancellation of the caller.
   */
  lemma {:induction false} FutureTells(clients: seq<Client>, events: seq<Event>, n: nat, id: nat, value: Future)
    requires IsRun(clients, events) && n < |clients| && value != Open
    ensures id in clients[n].futures && clients[n].futures[id] == value <==>
              exists m: nat :: m < n && Gives(clients[m], events[m], id, value)
  {
    if n > 0 {
      FutureTells(clients, events, n - 1, id, value);
      EveryRunKeepsInv(clients, events, n - 1);
      assert IsStep(clients[n - 1], events[n - 1], clients[n - 1 + 1]);
      FutureStep(clients[n - 1], events[n - 1], id, value);
    }
  }

  /** The event takes the call off the table of pending calls. */
  predicate Takes(e: Event, id: nat) {
    e == SendFailed(id) || (e.Receive? && e.message.id == id) || e.LoopEnds?
  }

  /** A call is pending from when it was made until its response came, its request failed or the loop ended. */
  lemma PendingTells(clients: seq<Client>, events: seq<Event>, n: nat, id: nat)
    requires IsRun(clients, events) && n < |clients|
    ensures id in clients[n].pending <==>
              Since(false, (iset m: nat | m < |events| && Gives(clients[m], events[m], id, Open)),
                    (iset m: nat | m < |events| && Takes(events[m], id)), n)
  {
    var on := iset m: nat | m < |events| && Gives(clients[m], events[m], id, Open);
    var off := iset m: nat | m < |events| && Takes(events[m], id);
    var flag := (m: nat) => m < |clients| && id in clients[m].pending;
    forall m: nat | m < n ensures Tells(flag, on, off, m) {
      EveryRunKeepsInv(clients, events, m);
      assert IsStep(clients[m], events[m], clients[m + 1]);
    }
    TellsOverRuns(flag, on, off, n);
  }

  /** Each call gets an id that no earlier call had, and opens its future; no other event opens one. */
  lemma CallIsFresh(clients: seq<Client>, events: seq<Event>, n: nat)
    requires IsRun(clients, events) && n < |events|
    ensures events[n].Call? ==>
              && clients[n].counter + 1 !in clients[n].futures
              && clients[n + 1].futures == clients[n].futures[clients[n].counter + 1 := Open]
    ensures !events[n].Call? ==> clients[n + 1].futures.Keys == clients[n].futures.Keys
    ensures clients[n + 1].counter == clients[n].counter + if events[n].Call? || events[n].SendClose? then 1 else 0
  {
    EveryRunKeepsInv(clients, events, n);
    assert IsStep(clients[n], events[n], clients[n + 1]);
  }

  /** Once the receive loop has ended, no call is made and no response handled. */
  lemma {:induction false} LoopEndsForGood(clients: seq<Client>, events: seq<Event>, n: nat, m: nat)
    requires IsRun(clients, events) && n < m < |clients| && events[n].LoopEnds?
    ensures clients[m].loop.Done? && clients[m].pending == {}
    ensures m < |events| ==> !events[m].Call? && !events[m].Receive?
    decreases m
  {
    assert IsStep(clients[m - 1], events[m - 1], clients[m - 1 + 1]);
    if n < m - 1 { LoopEndsForGood(clients, events, n, m - 1); }
    if m < |events| { assert IsStep(clients[m], events[m], clients[m + 1]); }
  }

  /** The future of a pending call is open, unless the caller gave up, so that it can be settled. */
  lemma PendingIsOpen(clients: seq<Client>, events: seq<Event>, n: nat, id: nat)
    requires IsRun(clients, events) && n < |clients| && id in clients[n].pending
    ensures id in clients[n].futures
    ensures clients[n].futures[id] == Open || exists m: nat :: m < n && events[m] == CallerCancelled(id)
  {
    EveryRunKeepsInv(clients, events, n);
    if clients[n].futures[id] != Open { FutureTells(clients, events, n, id, Cancelled); }
  }

  /** A response that answers no pending call ends the receiving, and no later one is handled. */
  lemma {:induction false} StrayResponseEndsReceiving(clients: seq<Client>, events: seq<Event>, n: nat, m: nat)
    requires IsRun(clients, events) && n < m < |clients| && events[n].Receive?
    requires events[n].message.id !in clients[n].pending
    ensures !clients[m].loop.Running? && (m < |events| ==> !events[m].Receive?)
    decreases m
  {
    assert IsStep(clients[m - 1], events[m - 1], clients[m - 1 + 1]);
    if n < m - 1 { StrayResponseEndsReceiving(clients, events, n, m - 1); }
    if m < |events| { assert IsStep(clients[m], events[m], clients[m + 1]); }
  }

  /** `SocketAsyncRPCClient`, one method for each stretch of code between two awaits. */
  class SocketAsyncRPCClient {
    var counter: nat
    var pending: set<nat>
    var futures: map<nat, Future>
    var loop: RecvLoop
    ghost var unsent: set<nat>
    ghost var inbox: seq<Message>
    ghost var clashes: nat

    ghost function State(): Client
      reads this
    {
      Client(counter, pending, futures, unsent, loop, inbox, clashes)
    }

    constructor ()
      ensures State() == FRESH
    {
      counter, pending, futures, loop := 0, {}, map[], Running;
      unsent, inbox, clashes := {}, [], 0;
    }

    /** Returns `None` when the call is refused because no response can arrive anymore. */
    method StartCall() returns (id: Option<nat>)
      modifies this
      ensures id.Some? <==> old(Enabled(State(), Call))
      ensures State() == if id.Some? then old(Apply(State(), Call)) else old(State())
      ensures id.Some? ==> id.value == counter && counter in pending && futures[counter] == Open
    {
      if loop.Done? {
        return None;
      }
      counter := counter + 1;
      futures := futures[counter := Open];
      pending := pending + {counter};
      id := Some(counter);
    }

    method AbandonCall(id: nat)
      requires id in futures
      modifies this
      ensures State() == old(Apply(State(), SendFailed(id)))
    {
      pending := pending - {id};
      unsent := unsent + {id};
    }

    method CancelCaller(id: nat)
      requires id in futures
      modifies this
      ensures State() == old(Apply(State(), CallerCancelled(id)))
    {
      if futures[id] == Open {
        futures := futures[id := Cancelled];
      }
    }

    method HandleResponse(m: Message)
      requires Inv(State()) && loop.Running?
      modifies this
      ensures State() == old(Apply(State(), Receive(m)))
    {
      inbox := inbox + [m];
      if m.id in pending {
        pending := pending - {m.id};
        if futures[m.id] != Cancelled {
          futures := futures[m.id := Resolved(m.body)];
        }
      } else {
        loop := Failing;
      }
    }

    method EndRecvLoop()
      requires pending <= futures.Keys && !loop.Done?
      requires forall i :: i in pending ==> futures[i] == Open || futures[i] == Cancelled
      modifies this
      ensures State() == old(Apply(State(), LoopEnds))
    {
      ghost var start := State();
      while pending != {}
        invariant pending <= start.pending && futures.Keys == start.futures.Keys
        invariant counter == start.counter && loop == start.loop
        invariant unsent == start.unsent && inbox == start.inbox && clashes == start.clashes
        invariant forall i :: i in futures ==>
                    futures[i] == if i in start.pending - pending && start.futures[i] == Open
                                  then ConnectionLost else start.futures[i]
        decreases pending
      {
        var id := Pick(pending);
        pending := pending - {id};
        if futures[id] != Cancelled {
          futures := futures[id := ConnectionLost];
        }
      }
      loop := Done;
      assert futures == FailPending(start).futures;
    }
  }

  // ---- Synchronous client ----

  datatype Outcome =
    | Reply(body: Body)
    | Unusable
    | NotSent
    | SendFailure
    | Interrupted
    | PeerLost
    | BadMessage
    | WrongId(id: nat)

  /**
   * What happens to one call. It does not start when the first connection fails or its arguments cannot be
   * encoded; a timeout or a signal interrupts the reading.
   */
  datatype Exchange = NotStarted(connected: bool) | SendFails | Interrupts | Completes

  /** The client state and the bytes it has not read yet. */
  datatype Sync = Sync(closed: bool, broken: bool, counter: nat, stream: Bytes)

  /** `__call__` of the synchronous client. Bytes read before an interruption are never looked at again. */
  function CallSync(s: Sync, x: Exchange): (Sync, Outcome) {
    if s.closed || s.broken then (s, Unusable)
    else if x.NotStarted? then (s, NotSent)
    else
      var t := s.(broken := true, counter := s.counter + 1);
      match x
      case SendFails => (t, SendFailure)
      case Interrupts => (t, Interrupted)
      case Completes =>
        match ParseMessage(s.stream)
        case Incomplete(rest) => (t.(stream := rest), PeerLost)
        case TooLarge(rest) => (t.(stream := rest), BadMessage)
        case Parsed(m, rest) =>
          if m.id != t.counter then (t.(stream := rest), WrongId(m.id))
          else (t.(broken := false, stream := rest), Reply(m.body))
  }

  /** Which outcome a call has, told by what became of its exchange and by what is on the stream. */
  lemma OutcomeMeans(s: Sync, x: Exchange, m: Message, rest: Bytes)
    ensures CallSync(s, x).1 == Unusable <==> s.closed || s.broken
    ensures CallSync(s, x).1 == NotSent <==> !s.closed && !s.broken && x.NotStarted?
    ensures CallSync(s, x).1 == SendFailure <==> !s.closed && !s.broken && x == SendFails
    ensures CallSync(s, x).1 == Interrupted <==> !s.closed && !s.broken && x == Interrupts
    ensures !s.closed && !s.broken && x == Completes && s.stream == EncodeMessage(m) + rest && Sendable(m) ==>
              CallSync(s, x).1 == if m.id != s.counter + 1 then WrongId(m.id) else Reply(Received(m).body)
    ensures !s.closed && !s.broken && x == Completes && |s.stream| < 16 ==> CallSync(s, x).1 == PeerLost
    ensures CallSync(s, x).1 == BadMessage ==> |s.stream| >= 16 && FromBytes(s.stream[8..16]) > 0x1_0000_0000
  {
    if s.stream == EncodeMessage(m) + rest && Sendable(m) { ParseEncoded(m, rest); }
    if |s.stream| >= 16 { assert s.stream[..16][8..] == s.stream[8..16]; }
  }

  class SocketSyncRPCClient {
    var connected: bool
    var closed: bool
    var broken: bool
    var counter: nat
    const reader: SocketReader

    constructor (reader: SocketReader)
      ensures !connected && !closed && !broken && counter == 0 && this.reader == reader
    {
      this.reader := reader;
      connected, closed, broken, counter := false, false, false, 0;
    }

    function State(): Sync
      reads this, reader
    {
      Sync(closed, broken, counter, reader.Remaining())
    }

    method Call(x: Exchange) returns (r: Outcome)
      requires reader.Valid()
      modifies this, reader
      ensures reader.Valid()
      ensures (State(), r) == CallSync(old(State()), x)
      ensures connected == (old(connected) || (!r.Unusable? && (x.NotStarted? ==> x.connected)))
    {
      if closed || broken {
        return Unusable;
      }
      if x.NotStarted? {
        connected := connected || x.connected;
        return NotSent;
      }
      connected := true;
      counter := counter + 1;
      broken := true;
      match x {
        case SendFails => return SendFailure;
        case Interrupts => return Interrupted;
        case Completes =>
      }
      var receipt := reader.RecvMessage();
      match receipt {
        case PeerGone => return PeerLost;
        case RPCError => return BadMessage;
        case Received1(m) =>
          if m.id != counter {
            return WrongId(m.id);
          }
          broken := false;
          r := Reply(m.body);
      }
    }

    /** The close message takes an id of its own. */
    method Close()
      modifies this
      ensures closed && broken == old(broken)
      ensures counter == if old(closed) || old(broken) || !old(connected) then old(counter) else old(counter) + 1
    {
      if closed {
        return;
      }
      closed := true;
      if connected && !broken {
        counter := counter + 1;
      }
    }
  }

  /** The outcomes of a series of calls. */
  function Calls(s: Sync, xs: seq<Exchange>): seq<Outcome>
    decreases xs
  {
    if xs == [] then []
    else
      var (t, r) := CallSync(s, xs[0]);
      [r] + Calls(t, xs[1..])
  }

  lemma {:induction false} CallsLength(s: Sync, xs: seq<Exchange>)
    ensures |Calls(s, xs)| == |xs|
    decreases xs
  {
    if xs != [] { CallsLength(CallSync(s, xs[0]).0, xs[1..]); }
  }

  lemma {:induction false} UnusableForever(s: Sync, xs: seq<Exchange>, k: nat)
    requires (s.closed || s.broken) && k < |xs|
    ensures |Calls(s, xs)| == |xs| && Calls(s, xs)[k] == Unusable
  {
    CallsLength(s, xs);
    if k > 0 { UnusableForever(s, xs[1..], k - 1); }
  }

  function Replies(rs: seq<Outcome>): nat {
    if rs == [] then 0 else (if rs[0].Reply? then 1 else 0) + Replies(rs[1..])
  }

  /** The messages of the stream, one for each reply, and each reply with its own id and body. */
  ghost predicate RepliesMatch(s: Sync, rs: seq<Outcome>, j: nat)
    requires j < |rs| && rs[j].Reply?
  {
    var n := Replies(rs[..j]);
    && ParseMany(s.stream, n + 1).Some? && |ParseMany(s.stream, n + 1).value.0| == n + 1
    && ParseMany(s.stream, n + 1).value.0[n] == Message(s.counter + n + 1, rs[j].body)
  }

  lemma RepliesCons(r: Outcome, rs: seq<Outcome>, j: nat)
    requires 0 < j <= |rs|
    ensures Replies(([r] + rs)[..j]) == (if r.Reply? then 1 else 0) + Replies(rs[..j - 1])
  {
    assert ([r] + rs)[..j] == [r] + rs[..j - 1];
    assert ([r] + rs[..j - 1])[1..] == rs[..j - 1];
  }

  /** The reply of a call that is not the first, seen from the state before the first one. */
  lemma MatchEarlier(s: Sync, x: Exchange, rs: seq<Outcome>, j: nat)
    requires CallSync(s, x).1.Reply? || CallSync(s, x).1.NotSent?
    requires j < |rs| && rs[j].Reply? && RepliesMatch(CallSync(s, x).0, rs, j)
    ensures RepliesMatch(s, [CallSync(s, x).1] + rs, j + 1)
  {
    RepliesCons(CallSync(s, x).1, rs, j + 1);
  }

  /**
   * The `k`-th call replied: each call before it did too, or did not start, and the replies are the
   * messages of the stream in order, each for its own id.
   */
  lemma {:induction false} RepliesInStep(s: Sync, xs: seq<Exchange>, k: nat, j: nat)
    requires j <= k < |xs| == |Calls(s, xs)| && Calls(s, xs)[k].Reply?
    ensures Calls(s, xs)[j].Reply? || Calls(s, xs)[j].NotSent?
    ensures Calls(s, xs)[j].Reply? ==> RepliesMatch(s, Calls(s, xs), j)
    decreases k
  {
    var t, r := CallSync(s, xs[0]).0, CallSync(s, xs[0]).1;
    CallsLength(t, xs[1..]);
    assert Calls(s, xs) == [r] + Calls(t, xs[1..]);
    if k > 0 {
      if t.closed || t.broken { UnusableForever(t, xs[1..], k - 1); }
    }
    assert r.Reply? || r.NotSent?;
    if j > 0 {
      RepliesInStep(t, xs[1..], k - 1, j - 1);
      if Calls(s, xs)[j].Reply? { MatchEarlier(s, xs[0], Calls(t, xs[1..]), j - 1); }
    } else if r.Reply? {
      FirstReplyMatches(s, xs[0], Calls(s, xs));
    }
  }

  lemma FirstReplyMatches(s: Sync, x: Exchange, rs: seq<Outcome>)
    requires CallSync(s, x).1.Reply? && rs != [] && rs[0] == CallSync(s, x).1
    ensures RepliesMatch(s, rs, 0)
  {
    assert rs[..0] == [];
    assert ParseMany(CallSync(s, x).0.stream, 0) == Some(([], CallSync(s, x).0.stream));
  }

  /** After a call that started and did not reply, every later call is refused. */
  lemma {:induction false} FailureIsFinal(s: Sync, xs: seq<Exchange>, j: nat, k: nat)
    requires j < k < |xs| == |Calls(s, xs)| && !Calls(s, xs)[j].Reply? && !Calls(s, xs)[j].NotSent?
    ensures Calls(s, xs)[k] == Unusable
    decreases j
  {
    var t, r := CallSync(s, xs[0]).0, CallSync(s, xs[0]).1;
    CallsLength(t, xs[1..]);
    assert Calls(s, xs) == [r] + Calls(t, xs[1..]);
    if j > 0 {
      FailureIsFinal(t, xs[1..], j - 1, k - 1);
    } else {
      UnusableForever(t, xs[1..], k - 1);
    }
  }

  /** No call was refused and each one that started got its reply. */
  predicate AllWell(s: Sync, rs: seq<Outcome>) {
    !s.closed && !s.broken && forall j :: 0 <= j < |rs| ==> rs[j].Reply? || rs[j].NotSent?
  }

  function WithUnstarted(xs: seq<Exchange>, k: nat, connected: bool): seq<Exchange>
    requires k <= |xs|
  {
    xs[..k] + [NotStarted(connected)] + xs[k..]
  }

  /** A call that does not start, put anywhere in a series, changes the outcome of no other call. */
  lemma {:induction false} UnstartedChangesNothing(s: Sync, xs: seq<Exchange>, k: nat, connected: bool)
    requires k <= |xs| == |Calls(s, xs)|
    ensures Calls(s, WithUnstarted(xs, k, connected))
         == Calls(s, xs)[..k] + [if AllWell(s, Calls(s, xs)[..k]) then NotSent else Unusable] + Calls(s, xs)[k..]
    decreases k
  {
    var ys, rs := WithUnstarted(xs, k, connected), Calls(s, xs);
    if k == 0 {
      assert ys[1..] == xs && rs[..0] == [] && rs[0..] == rs;
    } else {
      var t, r := CallSync(s, xs[0]).0, CallSync(s, xs[0]).1;
      var us := Calls(t, xs[1..]);
      CallsLength(t, xs[1..]);
      assert ys[0] == xs[0] && ys[1..] == WithUnstarted(xs[1..], k - 1, connected);
      assert Calls(s, ys) == [r] + Calls(t, ys[1..]);
      UnstartedChangesNothing(t, xs[1..], k - 1, connected);
      WellStep(s, xs[0], us[..k - 1]);
      InsertCons(r, us, k - 1, if AllWell(t, us[..k - 1]) then NotSent else Unusable);
    }
  }

  lemma InsertCons(r: Outcome, us: seq<Outcome>, k: nat, o: Outcome)
    requires k <= |us|
    ensures var rs := [r] + us; rs[..k + 1] == [r] + us[..k] && rs[k + 1..] == us[k..]
    ensures var rs := [r] + us; [r] + (us[..k] + [o] + us[k..]) == rs[..k + 1] + [o] + rs[k + 1..]
  {
  }

  lemma WellStep(s: Sync, x: Exchange, rs: seq<Outcome>)
    ensures AllWell(s, [CallSync(s, x).1] + rs) <==> AllWell(CallSync(s, x).0, rs)
  {
    var r := CallSync(s, x).1;
    assert ([r] + rs)[0] == r;
    assert forall j :: 0 <= j < |rs| ==> ([r] + rs)[j + 1] == rs[j];
    if AllWell(CallSync(s, x).0, rs) {
      forall j | 0 <= j < |[r] + rs| ensures ([r] + rs)[j].Reply? || ([r] + rs)[j].NotSent? {
        if j > 0 { assert ([r] + rs)[j] == rs[j - 1]; }
      }
    }
  }

  function AllComplete(n: nat): seq<Exchange> {
    if n == 0 then [] else [Completes] + AllComplete(n - 1)
  }

  lemma CallsStep(s: Sync, n: nat)
    requires n > 0
    ensures |Calls(s, AllComplete(n))| == n
    ensures Calls(s, AllComplete(n)) == [CallSync(s, Completes).1] + Calls(CallSync(s, Completes).0, AllComplete(n - 1))
  {
    assert AllComplete(n)[1..] == AllComplete(n - 1);
    CallsLength(s, AllComplete(n));
    AllCompleteLength(n);
  }

  lemma {:induction false} AllCompleteLength(n: nat)
    ensures |AllComplete(n)| == n
  {
    if n > 0 { AllCompleteLength(n - 1); }
  }

  /** Messages numbered like the calls that follow call `counter`. */
  ghost predicate InOrder(ms: seq<Message>, counter: nat) {
    forall i :: 0 <= i < |ms| ==> ms[i].id == counter + i + 1
  }

  lemma {:induction false} ServedInOrder(s: Sync, n: nat, k: nat)
    requires !s.closed && !s.broken && k < n
    requires ParseMany(s.stream, n).Some? && InOrder(ParseMany(s.stream, n).value.0, s.counter)
    ensures |Calls(s, AllComplete(n))| == n == |ParseMany(s.stream, n).value.0|
    ensures Calls(s, AllComplete(n))[k] == Reply(ParseMany(s.stream, n).value.0[k].body)
    decreases n
  {
    var p := ParseMessage(s.stream);
    var tail := ParseMany(p.rest, n - 1);
    var ms := [p.message] + tail.value.0;
    assert ParseMany(s.stream, n).value.0 == ms;
    assert ms[0].id == s.counter + 1;
    CallsStep(s, n);
    var t := CallSync(s, Completes).0;
    ParseManyLength(p.rest, n - 1);
    if k > 0 {
      forall i | 0 <= i < |tail.value.0| ensures tail.value.0[i].id == t.counter + i + 1 {
        assert ms[i + 1].id == s.counter + (i + 1) + 1;
      }
      ServedInOrder(t, n - 1, k - 1);
    }
  }

  lemma {:induction false} ParseManyLength(stream: Bytes, n: nat)
    requires ParseMany(stream, n).Some?
    ensures |ParseMany(stream, n).value.0| == n
  {
    if n > 0 { ParseManyLength(ParseMessage(stream).rest, n - 1); }
  }

  /**
   * A server that answers every call in order, over any fragmentation of its answers: each call returns
   * the body of its own answer.
   */
  lemma {:induction false} HonestServer(s: Sync, answers: seq<Message>, rest: Bytes, k: nat)
    requires !s.closed && !s.broken && s.stream == EncodeAll(answers) + rest && k < |answers|
    requires forall i :: 0 <= i < |answers| ==> Sendable(answers[i])
    requires InOrder(answers, s.counter)
    ensures |Calls(s, AllComplete(|answers|))| == |answers|
    ensures Calls(s, AllComplete(|answers|))[k] == Reply(Received(answers[k]).body)
  {
    ParseAllEncoded(answers, rest);
    ServedInOrder(s, |answers|, k);
  }
}
