/** The WebSocket hub. One hub goroutine, and a reader and a writer per client, talk over bounded
    channels. A run is any sequence of the atomic steps below, so every interleaving and every
    choice of `select` is covered; a step that is not enabled leaves the state as it is. Sending on
    a closed channel, closing one twice, and closing one with a blocked sender are panics. */
module Hub {
  import opened Wrappers
  import opened Subscription

  datatype Event = Event(eventType: string, deviceID: Option<string>, orgID: Option<string>, data: string)

  /** What goes through a client's Send channel: broadcast number n, or an answer of its reader. */
  datatype Message = News(n: nat) | Reply

  datatype Reader =
    | Reading
    | Replying  // in a send of a pong or an error, which may block
    | Leaving   // the connection failed; about to unregister
    | Gone      // has sent itself to unregister

  datatype Client = Client(
    subs: map<string, Filter>, reader: Reader, writing: bool,
    send: seq<Message>, closed: bool,
    // history: everything that was put into Send, what the writer wrote out, closings of Send
    received: seq<Message>, emitted: seq<Message>, closes: nat)

  /** Where the hub is: in its select; going through the clients with a broadcast; or holding one
      client whose subscriptions matched, before the non-blocking send. */
  datatype Phase =
    | Selecting
    | Visiting(n: nat, rest: set<nat>)
    | Delivering(n: nat, c: nat, rest: set<nat>)
    | Stopped

  /** Clients are numbered as they connect; `registered` are the keys of the clients map. The
      broadcast channel holds the accepted events from number `taken` on. */
  datatype State = State(
    clients: seq<Client>, register: seq<nat>, unregister: seq<nat>, registered: set<nat>,
    accepted: seq<Event>, taken: nat, hub: Phase, panicked: bool)

  const CHANNEL := 256
  const BROADCASTS := 1024

  const INIT := State([], [], [], {}, [], 0, Selecting, false)
  const NEW_CLIENT := Client(map[], Reading, true, [], false, [], [], 0)

  /** Steps of a client's own goroutines that touch nothing but the client. */
  datatype Act =
    | Change(op: Op)     // the reader handles one event type of a (un)subscribe request
    | StartReply         // the reader has a pong or an error to send
    | FinishReply
    | Quit               // the reader's connection fails
    | Write(ok: bool)    // the writer takes the next message and writes it, or fails and exits
    | WriterExit         // context done, ping failed, or Send closed and drained

  datatype Step =
    | Connect
    | Publish(event: Event)
    | Do(c: nat, act: Act)
    | Leave(c: nat)      // the reader's deferred send to unregister
    | HubRegister | HubUnregister | HubTake | HubMatch(c: nat) | HubSend | HubFinish | HubStop

  function Put(cl: Client, m: Message): Client {
    cl.(send := cl.send + [m], received := cl.received + [m])
  }

  function Acted(cl: Client, act: Act): Client {
    match act
    case Change(op) => if cl.reader.Reading? then cl.(subs := Apply(cl.subs, op)) else cl
    case StartReply => if cl.reader.Reading? then cl.(reader := Replying) else cl
    case FinishReply =>
      if cl.reader.Replying? && |cl.send| < CHANNEL then Put(cl, Reply).(reader := Reading) else cl
    case Quit => if cl.reader.Reading? then cl.(reader := Leaving) else cl
    case Write(ok) =>
      if !cl.writing || cl.send == [] then cl
      else if ok then cl.(send := cl.send[1..], emitted := cl.emitted + [cl.send[0]])
      else cl.(send := cl.send[1..], writing := false)
    case WriterExit => cl.(writing := false)
  }

  predicate ActPanics(cl: Client, act: Act) {
    act.FinishReply? && cl.reader.Replying? && cl.closed
  }

  ghost predicate Wants(cl: Client, e: Event) {
    SomeAccepts(cl.subs, e.eventType, e.deviceID, e.orgID)
  }

  function Registered(s: State): State {
    if s.register == [] then s
    else s.(register := s.register[1..], registered := s.registered + {s.register[0]})
  }

  function Unregistered(s: State): State {
    if s.unregister == [] then s
    else
      var c, s' := s.unregister[0], s.(unregister := s.unregister[1..]);
      if c !in s.registered || c >= |s.clients| then s'
      else
        var cl := s.clients[c];
        s'.(registered := s.registered - {c},
            clients := s.clients[c := cl.(closed := true, closes := cl.closes + 1)],
            panicked := s.panicked || cl.closed || cl.reader.Replying?)
  }

  function Sent(s: State): State
    requires s.hub.Delivering?
  {
    var c, s' := s.hub.c, s.(hub := Visiting(s.hub.n, s.hub.rest));
    if c >= |s.clients| then s'
    else if s.clients[c].closed then s'.(panicked := true)
    else if |s.clients[c].send| < CHANNEL then s'.(clients := s.clients[c := Put(s.clients[c], News(s.hub.n))])
    else s'
  }

  ghost function Matched(s: State, c: nat): State
    requires s.hub.Visiting? && c in s.hub.rest
  {
    var rest := s.hub.rest - {c};
    if c < |s.clients| && s.hub.n < |s.accepted| && Wants(s.clients[c], s.accepted[s.hub.n])
    then s.(hub := Delivering(s.hub.n, c, rest))
    else s.(hub := Visiting(s.hub.n, rest))
  }

  ghost function Next(s: State, step: Step): State {
    match step
    case Connect =>
      if |s.register| < CHANNEL
      then s.(clients := s.clients + [NEW_CLIENT], register := s.register + [|s.clients|]) else s
    case Publish(event) =>
      if |s.accepted| - s.taken < BROADCASTS then s.(accepted := s.accepted + [event]) else s
    case Do(c, act) =>
      if c >= |s.clients| then s
      else s.(clients := s.clients[c := Acted(s.clients[c], act)],
              panicked := s.panicked || ActPanics(s.clients[c], act))
    case Leave(c) =>
      if c < |s.clients| && s.clients[c].reader.Leaving? && |s.unregister| < CHANNEL
      then s.(clients := s.clients[c := s.clients[c].(reader := Gone)], unregister := s.unregister + [c])
      else s
    case HubRegister => if s.hub.Selecting? then Registered(s) else s
    case HubUnregister => if s.hub.Selecting? then Unregistered(s) else s
    case HubTake =>
      if s.hub.Selecting? && s.taken < |s.accepted|
      then s.(taken := s.taken + 1, hub := Visiting(s.taken, s.registered)) else s
    case HubMatch(c) => if s.hub.Visiting? && c in s.hub.rest then Matched(s, c) else s
    case HubSend => if s.hub.Delivering? then Sent(s) else s
    case HubFinish => if s.hub.Visiting? && s.hub.rest == {} then s.(hub := Selecting) else s
    case HubStop => if s.hub.Selecting? then s.(hub := Stopped) else s
  }

  ghost function After(steps: seq<Step>, n: nat): State
    requires n <= |steps|
  {
    if n == 0 then INIT else Next(After(steps, n - 1), steps[n - 1])
  }

  // ---------------------------------------------------------------- safety

  function One(b: bool): nat {
    if b then 1 else 0
  }

  /** The hub's current broadcast still concerns client c. */
  predicate Pending(hub: Phase, c: nat) {
    match hub
    case Visiting(_, rest) => c in rest
    case Delivering(_, d, rest) => c == d || c in rest
    case _ => false
  }

  /** Where a client is accounted for. */
  ghost predicate ClientFits(s: State, c: nat) {
    var r, u, g := multiset(s.register)[c], multiset(s.unregister)[c], c in s.registered;
    if c >= |s.clients| then r == 0 && u == 0 && !g && !Pending(s.hub, c)
    else
      var cl := s.clients[c];
      // exactly one of: waiting to be registered, in the clients map, closed
      && r + One(g) + One(cl.closed) == 1
      && cl.closes == One(cl.closed)
      // at most one unregister, sent by a reader that is gone, and none left once closed
      && u + One(cl.closed) <= 1
      && (u == 1 || cl.closed ==> cl.reader.Gone?)
      && (Pending(s.hub, c) ==> g)
  }

  lemma Popped<T>(q: seq<T>, x: T)
    requires q != []
    ensures multiset(q[1..])[x] == multiset(q)[x] - One(q[0] == x)
  {
    assert q == [q[0]] + q[1..];
  }

  lemma ActFits(s: State, step: Step, c: nat)
    requires ClientFits(s, c) && step.Do?
    ensures ClientFits(Next(s, step), c)
  {
  }

  lemma LocalFits(s: State, step: Step, c: nat)
    requires ClientFits(s, c) && (step.Connect? || step.Publish? || step.Leave?)
    ensures ClientFits(Next(s, step), c)
  {
  }

  lemma HubFits(s: State, step: Step, c: nat)
    requires ClientFits(s, c)
    requires step.HubTake? || step.HubMatch? || step.HubFinish? || step.HubStop?
    ensures ClientFits(Next(s, step), c)
  {
    hide Wants;
  }

  lemma SendFits(s: State, c: nat)
    requires ClientFits(s, c)
    ensures ClientFits(Next(s, HubSend), c)
  {
  }

  lemma RegisterFits(s: State, c: nat)
    requires ClientFits(s, c)
    ensures ClientFits(Next(s, HubRegister), c)
  {
    if s.register != [] {
      Popped(s.register, c);
      assert s.register[0] in multiset(s.register);
    }
  }

  lemma UnregisterFits(s: State, c: nat)
    requires ClientFits(s, c)
    ensures ClientFits(Next(s, HubUnregister), c)
  {
    if s.unregister != [] {
      Popped(s.unregister, c);
      assert s.unregister[0] in multiset(s.unregister);
    }
  }

  lemma StepFits(s: State, step: Step, c: nat)
    requires ClientFits(s, c) && !s.panicked
    ensures ClientFits(Next(s, step), c)
  {
    hide Next, ClientFits;
    match step
    case HubRegister => RegisterFits(s, c);
    case HubUnregister => UnregisterFits(s, c);
    case HubTake => HubFits(s, step, c);
    case HubMatch(_) => HubFits(s, step, c);
    case HubSend => SendFits(s, c);
    case HubFinish => HubFits(s, step, c);
    case HubStop => HubFits(s, step, c);
    case Do(_, _) => ActFits(s, step, c);
    case _ => LocalFits(s, step, c);
  }

  /** The client a step could make panic. */
  function Endangered(s: State, step: Step): nat {
    match step
    case Do(c, _) => c
    case HubUnregister => if s.unregister == [] then 0 else s.unregister[0]
    case HubSend => if s.hub.Delivering? then s.hub.c else 0
    case _ => 0
  }

  lemma StepSafe(s: State, step: Step)
    requires ClientFits(s, Endangered(s, step)) && !s.panicked
    ensures !Next(s, step).panicked
  {
    if step.HubUnregister? && s.unregister != [] {
      assert s.unregister[0] in multiset(s.unregister);
    }
  }

  lemma {:induction false} AlwaysSafe(steps: seq<Step>, n: nat)
    requires n <= |steps|
    ensures !After(steps, n).panicked && forall c: nat :: ClientFits(After(steps, n), c)
  {
    hide Next, ClientFits;
    if n > 0 {
      AlwaysSafe(steps, n - 1);
      var s := After(steps, n - 1);
      StepSafe(s, steps[n - 1]);
      forall c: nat
        ensures ClientFits(After(steps, n), c)
      {
        StepFits(s, steps[n - 1], c);
      }
    } else {
      forall c: nat
        ensures ClientFits(INIT, c)
      {
        InitFits(c);
      }
    }
  }

  lemma InitFits(c: nat)
    ensures ClientFits(INIT, c)
  {
  }

  /** Over every interleaving: nobody sends on a closed channel, nobody is blocked in a send when
      its channel is closed, each Send is closed at most once, and every client in the clients map
      exists and has an open Send. */
  lemma HubIsSafe(steps: seq<Step>, n: nat)
    requires n <= |steps|
    ensures !After(steps, n).panicked
    ensures forall c :: 0 <= c < |After(steps, n).clients| ==> After(steps, n).clients[c].closes <= 1
    ensures forall c :: c in After(steps, n).registered ==>
              c < |After(steps, n).clients| && !After(steps, n).clients[c].closed
  {
    AlwaysSafe(steps, n);
    var s := After(steps, n);
    hide After;
    forall c: nat
      ensures c < |s.clients| ==> s.clients[c].closes <= 1
      ensures c in s.registered ==> c < |s.clients| && !s.clients[c].closed
    {
      assert ClientFits(s, c);
    }
  }
}
