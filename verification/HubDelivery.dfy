/** What clients of the hub receive, and what becomes of a client whose connection has failed. */
module HubDelivery {
  import opened Wrappers
  import opened Subscription
  import opened Hub

  // ---------------------------------------------------------------- order

  /** Broadcast numbers in a list of messages only go up. */
  ghost predicate Increasing(ms: seq<Message>) {
    forall i, j :: 0 <= i < j < |ms| && ms[i].News? && ms[j].News? ==> ms[i].n < ms[j].n
  }

  ghost predicate Below(ms: seq<Message>, bound: nat) {
    forall i :: 0 <= i < |ms| && ms[i].News? ==> ms[i].n < bound
  }

  /** The number below which every broadcast a client has received lies. */
  function Bound(s: State, c: nat): nat {
    match s.hub
    case Visiting(n, rest) => if c in rest then n else n + 1
    case Delivering(n, d, rest) => if c == d || c in rest then n else n + 1
    case _ => s.taken
  }

  /** The channel holds the messages received and not yet taken, in order, and the writer has
      written out the ones taken, but for a last one it failed on. */
  ghost predicate FlowFits(cl: Client) {
    && |cl.send| <= |cl.received|
    && cl.send == cl.received[|cl.received| - |cl.send|..]
    && cl.emitted <= cl.received[..|cl.received| - |cl.send|]
    && (cl.writing ==> cl.emitted == cl.received[..|cl.received| - |cl.send|])
  }

  ghost predicate PhaseFits(s: State) {
    && s.taken <= |s.accepted|
    && (s.hub.Visiting? || s.hub.Delivering? ==> s.hub.n + 1 == s.taken)
    && (s.hub.Delivering? ==> s.hub.c !in s.hub.rest)
  }

  ghost predicate MessagesFit(cl: Client, bound: nat) {
    FlowFits(cl) && Increasing(cl.received) && Below(cl.received, bound)
  }

  ghost predicate OrderFits(s: State, c: nat) {
    && PhaseFits(s)
    && (c < |s.clients| ==> MessagesFit(s.clients[c], Bound(s, c)))
    && (c >= |s.clients| ==> !Pending(s.hub, c))
  }

  lemma PutFlow(cl: Client, m: Message)
    requires FlowFits(cl)
    ensures FlowFits(Put(cl, m))
  {
    var k := |cl.received| - |cl.send|;
    assert (cl.received + [m])[..k] == cl.received[..k];
    assert (cl.received + [m])[k..] == cl.received[k..] + [m];
  }

  lemma OneFurther<T>(r: seq<T>, k: nat)
    requires k < |r|
    ensures r[k..][0] == r[k] && r[k..][1..] == r[k + 1..] && r[..k] + [r[k]] == r[..k + 1]
  {
  }

  lemma TakeFlow(cl: Client, ok: bool)
    requires FlowFits(cl)
    ensures FlowFits(Acted(cl, Write(ok))) && Acted(cl, Write(ok)).received == cl.received
  {
    if cl.writing && cl.send != [] {
      var k := |cl.received| - |cl.send|;
      OneFurther(cl.received, k);
      assert cl.emitted + [cl.send[0]] == cl.received[..k + 1];
      assert cl.emitted == cl.received[..k];
    }
  }

  lemma ActFlow(cl: Client, act: Act)
    requires FlowFits(cl)
    ensures FlowFits(Acted(cl, act))
    ensures Acted(cl, act).received == cl.received || Acted(cl, act).received == cl.received + [Reply]
  {
    if act.Write? {
      TakeFlow(cl, act.ok);
    } else {
      PutFlow(cl, Reply);
      hide FlowFits;
      assert act.FinishReply? || Acted(cl, act).received == cl.received;
      FlowOnly(cl, Acted(cl, act));
    }
  }

  /** The flow of a client concerns its channel, its histories and whether its writer runs. */
  lemma FlowOnly(a: Client, b: Client)
    requires FlowFits(a)
    ensures (a.send == b.send && a.received == b.received && a.emitted == b.emitted && (b.writing ==> a.writing))
            ==> FlowFits(b)
    ensures FlowFits(Put(a, Reply))
    ensures (Put(a, Reply).send == b.send && Put(a, Reply).received == b.received && a.emitted == b.emitted
             && (b.writing ==> a.writing)) ==> FlowFits(b)
  {
    PutFlow(a, Reply);
  }

  lemma AppendOrder(ms: seq<Message>, m: Message, bound: nat, bound': nat)
    requires Increasing(ms) && Below(ms, bound) && bound <= bound'
    requires m.News? ==> bound <= m.n < bound'
    ensures Increasing(ms + [m]) && Below(ms + [m], bound')
  {
  }

  lemma ActOrder(s: State, step: Step, c: nat)
    requires OrderFits(s, c) && step.Do?
    ensures OrderFits(Next(s, step), c)
  {
    if c < |s.clients| && step.c == c {
      ActFlow(s.clients[c], step.act);
      AppendOrder(s.clients[c].received, Reply, Bound(s, c), Bound(s, c));
      hide Acted, FlowFits, Increasing, Below;
    } else {
      hide Acted, FlowFits, Increasing, Below;
    }
  }

  lemma SendOrder(s: State, c: nat)
    requires OrderFits(s, c)
    ensures OrderFits(Next(s, HubSend), c)
  {
    hide FlowFits, Increasing, Below;
    if s.hub.Delivering? && c < |s.clients| {
      if s.hub.c == c {
        PutFlow(s.clients[c], News(s.hub.n));
        AppendOrder(s.clients[c].received, News(s.hub.n), Bound(s, c), s.hub.n + 1);
        StillBelow(s.clients[c].received, Bound(s, c), s.hub.n + 1);
      }
      StillBelow(s.clients[c].received, Bound(s, c), Bound(Next(s, HubSend), c));
    }
  }

  lemma StillBelow(ms: seq<Message>, bound: nat, bound': nat)
    requires Below(ms, bound)
    ensures bound <= bound' ==> Below(ms, bound')
  {
  }

  lemma QuietPhase(s: State, step: Step, c: nat)
    requires PhaseFits(s) && !step.Do? && !step.HubSend?
    ensures PhaseFits(Next(s, step)) && |Next(s, step).clients| >= |s.clients|
    ensures Bound(s, c) <= Bound(Next(s, step), c)
    ensures !Pending(s.hub, c) && c !in s.registered ==> !Pending(Next(s, step).hub, c)
  {
    hide Wants;
  }

  lemma SameMessages(a: Client, b: Client, bound: nat, bound': nat)
    requires MessagesFit(a, bound) && bound <= bound'
    requires a.send == b.send && a.received == b.received && a.emitted == b.emitted && a.writing == b.writing
    ensures MessagesFit(b, bound')
  {
  }

  lemma QuietOrder(s: State, step: Step, c: nat)
    requires OrderFits(s, c) && !step.Do? && !step.HubSend?
    requires c >= |s.clients| ==> c !in s.registered
    ensures OrderFits(Next(s, step), c)
  {
    QuietPhase(s, step, c);
    QuietClients(s, step, c);
    var s' := Next(s, step);
    hide Next, PhaseFits, MessagesFit, Bound;
    if c < |s.clients| {
      SameMessages(s.clients[c], s'.clients[c], Bound(s, c), Bound(s', c));
    } else if c < |s'.clients| {
      NewFits(Bound(s', c));
    }
  }

  lemma NewFits(bound: nat)
    ensures MessagesFit(NEW_CLIENT, bound)
  {
  }

  /** Other steps leave a client's messages alone. */
  lemma QuietClients(s: State, step: Step, c: nat)
    requires !step.Do? && !step.HubSend?
    ensures c < |s.clients| ==>
              c < |Next(s, step).clients|
              && Next(s, step).clients[c].received == s.clients[c].received
              && Next(s, step).clients[c].send == s.clients[c].send
              && Next(s, step).clients[c].emitted == s.clients[c].emitted
              && Next(s, step).clients[c].writing == s.clients[c].writing
              && Next(s, step).clients[c].subs == s.clients[c].subs
    ensures |s.clients| <= c < |Next(s, step).clients| ==> Next(s, step).clients[c] == NEW_CLIENT
  {
    hide Wants;
  }

  lemma KnownClients(s: State, c: nat)
    requires ClientFits(s, c)
    ensures c >= |s.clients| ==> c !in s.registered
  {
  }

  lemma {:induction false} AlwaysInOrder(steps: seq<Step>, n: nat, c: nat)
    requires n <= |steps|
    ensures OrderFits(After(steps, n), c)
  {
    hide Next, OrderFits, ClientFits;
    if n > 0 {
      AlwaysInOrder(steps, n - 1, c);
      AlwaysSafe(steps, n - 1);
      var s, step := After(steps, n - 1), steps[n - 1];
      if step.Do? {
        ActOrder(s, step, c);
      } else if step.HubSend? {
        SendOrder(s, c);
      } else {
        KnownClients(s, c);
        QuietOrder(s, step, c);
      }
    } else {
      InitInOrder(c);
    }
  }

  lemma InitInOrder(c: nat)
    ensures OrderFits(INIT, c)
  {
  }

  /** Over every interleaving, the broadcasts a client's writer writes out are accepted ones, each at
      most once and in the order they were accepted; with the writer running, nothing that entered
      the channel and left it is missing. */
  lemma EmittedInOrder(steps: seq<Step>, n: nat, c: nat)
    requires n <= |steps| && c < |After(steps, n).clients|
    ensures var s, cl := After(steps, n), After(steps, n).clients[c];
            && Increasing(cl.emitted) && Below(cl.emitted, |s.accepted|)
            && cl.emitted <= cl.received
            && (cl.writing ==> cl.emitted + cl.send == cl.received)
  {
    AlwaysInOrder(steps, n, c);
    var s := After(steps, n);
    var cl := s.clients[c];
    hide After;
    var k := |cl.received| - |cl.send|;
    assert cl.received == cl.received[..k] + cl.received[k..];
    assert forall i :: 0 <= i < |cl.emitted| ==> cl.emitted[i] == cl.received[i];
    assert Bound(s, c) <= |s.accepted|;
  }

  // ---------------------------------------------------------------- who gets a broadcast

  /** Step i is the hub comparing broadcast e with the subscriptions of client c as they then are. */
  ghost predicate Judged(steps: seq<Step>, i: nat, e: nat, c: nat, wanted: bool)
    requires i < |steps|
  {
    var s := After(steps, i);
    && steps[i] == HubMatch(c) && s.hub.Visiting? && s.hub.n == e && c in s.hub.rest
    && c < |s.clients| && e < |s.accepted| && Wants(s.clients[c], s.accepted[e]) == wanted
  }

  /** Step i is the hub finding the buffer of client c full when it would send broadcast e. */
  ghost predicate FoundFull(steps: seq<Step>, i: nat, e: nat, c: nat)
    requires i < |steps|
  {
    var s := After(steps, i);
    && steps[i] == HubSend && s.hub.Delivering? && s.hub.n == e && s.hub.c == c
    && c < |s.clients| && |s.clients[c].send| >= CHANNEL
  }

  ghost predicate WasJudged(steps: seq<Step>, n: nat, e: nat, c: nat, wanted: bool)
    requires n <= |steps|
  {
    exists i :: 0 <= i < n && Judged(steps, i, e, c, wanted)
  }

  ghost predicate WasFull(steps: seq<Step>, n: nat, e: nat, c: nat)
    requires n <= |steps|
  {
    exists i :: 0 <= i < n && FoundFull(steps, i, e, c)
  }

  function ReceivedBy(s: State, c: nat): seq<Message> {
    if c < |s.clients| then s.clients[c].received else []
  }

  /** A client's channel takes an answer of its reader, or the broadcast the hub is delivering to it. */
  lemma ReceivedStep(s: State, step: Step, c: nat)
    ensures var before, now := ReceivedBy(s, c), ReceivedBy(Next(s, step), c);
            || now == before
            || now == before + [Reply]
            || (s.hub.Delivering? && s.hub.c == c && now == before + [News(s.hub.n)])
  {
    hide Wants;
  }

  /** The hub comes to deliver to a client by finding that its subscriptions match. */
  lemma DeliveringStep(s: State, step: Step, c: nat, e: nat)
    requires var hub := Next(s, step).hub; hub.Delivering? && hub.c == c && hub.n == e
    ensures || (s.hub.Delivering? && s.hub.c == c && s.hub.n == e)
            || (step == HubMatch(c) && s.hub.Visiting? && s.hub.n == e && c in s.hub.rest
                && c < |s.clients| && e < |s.accepted| && Wants(s.clients[c], s.accepted[e]))
  {
    hide Wants;
  }

  lemma JudgedLater(steps: seq<Step>, n: nat, e: nat, c: nat, wanted: bool)
    requires 0 < n <= |steps|
    ensures WasJudged(steps, n - 1, e, c, wanted) || Judged(steps, n - 1, e, c, wanted)
            ==> WasJudged(steps, n, e, c, wanted)
  {
    hide Judged;
  }

  ghost predicate AllWanted(steps: seq<Step>, n: nat, c: nat, ms: seq<Message>)
    requires n <= |steps|
  {
    forall k :: 0 <= k < |ms| && ms[k].News? ==> WasJudged(steps, n, ms[k].n, c, true)
  }

  lemma {:induction false} OnlyWanted(steps: seq<Step>, n: nat, c: nat)
    requires n <= |steps|
    ensures AllWanted(steps, n, c, ReceivedBy(After(steps, n), c))
    ensures var hub := After(steps, n).hub; hub.Delivering? && hub.c == c ==> WasJudged(steps, n, hub.n, c, true)
  {
    if n > 0 {
      OnlyWanted(steps, n - 1, c);
      var s, s' := After(steps, n - 1), After(steps, n);
      ReceivedStep(s, steps[n - 1], c);
      forall e: nat
        ensures WasJudged(steps, n - 1, e, c, true) ==> WasJudged(steps, n, e, c, true)
      {
        JudgedLater(steps, n, e, c, true);
      }
      if s'.hub.Delivering? && s'.hub.c == c {
        DeliveringStep(s, steps[n - 1], c, s'.hub.n);
        JudgedLater(steps, n, s'.hub.n, c, true);
      }
      hide Next, After, WasJudged, Wants;
    } else {
      hide Next;
    }
  }

  lemma {:induction false} AcceptedGrows(steps: seq<Step>, i: nat, n: nat)
    requires i <= n <= |steps|
    ensures After(steps, i).accepted <= After(steps, n).accepted
  {
    hide Wants, Acted, Registered, Unregistered, Sent, Matched;
    if i < n {
      AcceptedGrows(steps, i, n - 1);
      AcceptedStep(After(steps, n - 1), steps[n - 1]);
      hide Next;
    }
  }

  lemma AcceptedStep(s: State, step: Step)
    ensures s.accepted <= Next(s, step).accepted
  {
    hide Wants;
  }

  /** Every broadcast a client's writer writes out matched the client's subscriptions at the moment
      the hub looked at them for that broadcast. */
  lemma EmittedWasWanted(steps: seq<Step>, n: nat, c: nat, k: nat)
    requires n <= |steps| && c < |After(steps, n).clients|
    requires k < |After(steps, n).clients[c].emitted| && After(steps, n).clients[c].emitted[k].News?
    ensures var s := After(steps, n);
            var e := s.clients[c].emitted[k].n;
            && e < |s.accepted|
            && exists i :: 0 <= i < n && steps[i] == HubMatch(c) && After(steps, i).hub.Visiting?
                           && After(steps, i).hub.n == e && c < |After(steps, i).clients|
                           && Wants(After(steps, i).clients[c], s.accepted[e])
  {
    EmittedInOrder(steps, n, c);
    OnlyWanted(steps, n, c);
    var s := After(steps, n);
    var e := s.clients[c].emitted[k].n;
    assert s.clients[c].emitted[k] == ReceivedBy(s, c)[k];
    assert WasJudged(steps, n, e, c, true);
    var i :| 0 <= i < n && Judged(steps, i, e, c, true);
    AcceptedGrows(steps, i, n);
  }

  // ---------------------------------------------------------------- subscriptions as requests

  /** The requests the reader of client c has carried out among the first n steps. */
  ghost function ChangesOf(steps: seq<Step>, n: nat, c: nat): seq<Op>
    requires n <= |steps|
  {
    if n == 0 then []
    else
      var s, before := After(steps, n - 1), ChangesOf(steps, n - 1, c);
      match steps[n - 1]
      case Do(d, Change(op)) =>
        if d == c && c < |s.clients| && s.clients[c].reader.Reading? then before + [op] else before
      case _ => before
  }

  function SubsOf(s: State, c: nat): map<string, Filter> {
    if c < |s.clients| then s.clients[c].subs else map[]
  }

  lemma SubsStep(s: State, step: Step, c: nat)
    ensures SubsOf(Next(s, step), c)
         == if step.Do? && step.act.Change? && step.c == c && c < |s.clients| && s.clients[c].reader.Reading?
            then Apply(SubsOf(s, c), step.act.op) else SubsOf(s, c)
  {
    hide Wants;
  }

  lemma {:induction false} SubsAreChanges(steps: seq<Step>, n: nat, c: nat)
    requires n <= |steps|
    ensures SubsOf(After(steps, n), c) == ApplyAll(map[], ChangesOf(steps, n, c))
  {
    hide Next, Apply;
    if n > 0 {
      SubsAreChanges(steps, n - 1, c);
      SubsStep(After(steps, n - 1), steps[n - 1], c);
      var before, now := ChangesOf(steps, n - 1, c), ChangesOf(steps, n, c);
      assert now == before || (|now| == |before| + 1 && now[..|now| - 1] == before);
      hide After;
    }
  }

  /** At any moment a client wants an event iff, among the requests its reader has carried out, the
      last word on one of the four filters that accept the event was to subscribe. */
  lemma WantsIffSubscribed(steps: seq<Step>, n: nat, c: nat, e: Event)
    requires n <= |steps| && c < |After(steps, n).clients| && KeysAreOwn(ChangesOf(steps, n, c))
    ensures var ops := ChangesOf(steps, n, c);
            Wants(After(steps, n).clients[c], e)
            <==> || Subscribed(ops, Filter(e.eventType, None, None))
                 || Subscribed(ops, Filter(e.eventType, e.deviceID, None))
                 || Subscribed(ops, Filter(e.eventType, None, e.orgID))
                 || Subscribed(ops, Filter(e.eventType, e.deviceID, e.orgID))
  {
    SubsAreChanges(steps, n, c);
    DeliveredIffSubscribed(ChangesOf(steps, n, c), e.eventType, e.deviceID, e.orgID);
    hide After, ChangesOf, SomeAccepts, Subscribed;
  }

  // ---------------------------------------------------------------- who does not get one

  /** Client c has broadcast e, or did not want it, or had no room for it. */
  ghost predicate Settled(steps: seq<Step>, n: nat, e: nat, c: nat)
    requires n <= |steps|
  {
    || News(e) in ReceivedBy(After(steps, n), c)
    || WasJudged(steps, n, e, c, false)
    || WasFull(steps, n, e, c)
  }

  predicate OnBroadcast(hub: Phase, e: nat) {
    (hub.Visiting? || hub.Delivering?) && hub.n == e
  }

  lemma SettledLater(steps: seq<Step>, n: nat, e: nat, c: nat)
    requires 0 < n <= |steps| && Settled(steps, n - 1, e, c)
    ensures Settled(steps, n, e, c)
  {
    ReceivedStep(After(steps, n - 1), steps[n - 1], c);
    JudgedLater(steps, n, e, c, false);
    hide Next, After, Judged, FoundFull;
    if WasFull(steps, n - 1, e, c) {
      var i :| 0 <= i < n - 1 && FoundFull(steps, i, e, c);
      assert FoundFull(steps, i, e, c);
    }
  }

  /** What can settle a client: the hub's look at its subscriptions, and the non-blocking send. */
  lemma SettlingStep(s: State, step: Step, c: nat, e: nat)
    requires ClientFits(s, c) && PhaseFits(s)
    requires c in Next(s, step).registered && OnBroadcast(Next(s, step).hub, e) && !Pending(Next(s, step).hub, c)
    ensures || (c in s.registered && OnBroadcast(s.hub, e) && !Pending(s.hub, c))
            || (step == HubMatch(c) && s.hub.Visiting? && s.hub.n == e && c in s.hub.rest
                && c < |s.clients| && e < |s.accepted| && !Wants(s.clients[c], s.accepted[e]))
            || (step == HubSend && s.hub.Delivering? && s.hub.n == e && s.hub.c == c && c < |s.clients|
                && (|s.clients[c].send| >= CHANNEL || News(e) in ReceivedBy(Next(s, step), c)))
  {
    hide Wants, Acted;
  }

  lemma {:induction false} SettledOnceVisited(steps: seq<Step>, n: nat, e: nat, c: nat)
    requires n <= |steps|
    requires var s := After(steps, n); c in s.registered && OnBroadcast(s.hub, e) && !Pending(s.hub, c)
    ensures Settled(steps, n, e, c)
  {
    if n > 0 {
      var s, step := After(steps, n - 1), steps[n - 1];
      AlwaysSafe(steps, n - 1);
      AlwaysInOrder(steps, n - 1, c);
      SettlingStep(s, step, c, e);
      hide Next, ClientFits, OrderFits;
      if c in s.registered && OnBroadcast(s.hub, e) && !Pending(s.hub, c) {
        SettledOnceVisited(steps, n - 1, e, c);
        SettledLater(steps, n, e, c);
      } else if step.HubMatch? {
        assert Judged(steps, n - 1, e, c, false);
      } else if |s.clients[c].send| >= CHANNEL {
        assert FoundFull(steps, n - 1, e, c);
      }
    }
  }

  /** When the hub is done with a broadcast, every client in its map has the broadcast in its
      channel's history, or its subscriptions did not match when the hub looked, or its buffer was
      full when the hub tried to send: nothing else makes a client miss a broadcast. */
  lemma MissedOnlyWhenFull(steps: seq<Step>, n: nat, c: nat)
    requires n <= |steps| && After(steps, n).hub.Visiting? && After(steps, n).hub.rest == {}
    requires c in After(steps, n).registered
    ensures var e := After(steps, n).hub.n;
            News(e) in ReceivedBy(After(steps, n), c) || WasJudged(steps, n, e, c, false) || WasFull(steps, n, e, c)
  {
    SettledOnceVisited(steps, n, After(steps, n).hub.n, c);
    hide After, WasJudged, WasFull;
  }

  // ---------------------------------------------------------------- clients that are left behind

  /** The connection is gone and its unregister is dealt with, but the channel is still open. */
  predicate LeftBehind(s: State, c: nat) {
    c < |s.clients| && s.clients[c].reader.Gone? && c !in s.unregister && !s.clients[c].closed
  }

  /** The hub takes a client from the unregister channel that is not in its map. */
  predicate TakesEarly(s: State, step: Step, c: nat) {
    step.HubUnregister? && s.hub.Selecting? && s.unregister != [] && s.unregister[0] == c && c !in s.registered
  }

  ghost predicate TookEarly(steps: seq<Step>, n: nat, c: nat)
    requires n <= |steps|
  {
    n > 0 && (TookEarly(steps, n - 1, c) || TakesEarly(After(steps, n - 1), steps[n - 1], c))
  }

  /** A client whose reader is gone is in the unregister channel, closed, or was taken early. */
  ghost predicate GoneFits(s: State, c: nat, early: bool) {
    && (c < |s.clients| ==>
          One(s.clients[c].reader.Gone?) == multiset(s.unregister)[c] + One(s.clients[c].closed) + One(early))
    && (c >= |s.clients| ==> !early && multiset(s.unregister)[c] == 0)
  }

  lemma UnregisterGone(s: State, c: nat, early: bool)
    requires ClientFits(s, c) && GoneFits(s, c, early)
    ensures GoneFits(Next(s, HubUnregister), c, early || TakesEarly(s, HubUnregister, c))
  {
    if s.hub.Selecting? && s.unregister != [] {
      Popped(s.unregister, c);
      assert s.unregister[0] in multiset(s.unregister);
    }
  }

  lemma ClientGone(s: State, step: Step, c: nat, early: bool)
    requires GoneFits(s, c, early) && (step.Connect? || step.Do? || step.Leave?)
    ensures GoneFits(Next(s, step), c, early)
  {
    hide Wants;
  }

  lemma HubGone(s: State, step: Step, c: nat, early: bool)
    requires GoneFits(s, c, early) && !(step.Connect? || step.Do? || step.Leave? || step.HubUnregister?)
    ensures GoneFits(Next(s, step), c, early)
  {
    hide Wants;
  }

  lemma OtherGone(s: State, step: Step, c: nat, early: bool)
    requires GoneFits(s, c, early) && !step.HubUnregister?
    ensures GoneFits(Next(s, step), c, early)
  {
    hide Next, GoneFits;
    if step.Connect? || step.Do? || step.Leave? {
      ClientGone(s, step, c, early);
    } else {
      HubGone(s, step, c, early);
    }
  }

  lemma {:induction false} GoneAlwaysFits(steps: seq<Step>, n: nat, c: nat)
    requires n <= |steps|
    ensures GoneFits(After(steps, n), c, TookEarly(steps, n, c))
  {
    hide Next, GoneFits, ClientFits;
    if n > 0 {
      GoneAlwaysFits(steps, n - 1, c);
      AlwaysSafe(steps, n - 1);
      var s, step := After(steps, n - 1), steps[n - 1];
      if step.HubUnregister? {
        UnregisterGone(s, c, TookEarly(steps, n - 1, c));
      } else {
        OtherGone(s, step, c, TookEarly(steps, n - 1, c));
      }
    } else {
      NobodyGone(c);
    }
  }

  lemma NobodyGone(c: nat)
    ensures GoneFits(INIT, c, false)
  {
  }

  /** A client whose connection is gone is left behind iff the hub took its unregister while the
      client was not in the map, that is, before its register. */
  lemma LeftBehindIff(steps: seq<Step>, n: nat, c: nat)
    requires n <= |steps|
    ensures LeftBehind(After(steps, n), c) <==> TookEarly(steps, n, c)
  {
    GoneAlwaysFits(steps, n, c);
    hide After, TookEarly;
    assert c in After(steps, n).unregister <==> c in multiset(After(steps, n).unregister);
  }

  lemma {:induction false} TookEarlyStays(steps: seq<Step>, n: nat, m: nat, c: nat)
    requires n <= m <= |steps| && TookEarly(steps, n, c)
    ensures TookEarly(steps, m, c)
  {
    if n < m {
      TookEarlyStays(steps, n, m - 1, c);
    }
  }

  /** And it stays so for good: it is waiting to be registered or in the clients map ever after. */
  lemma LeftBehindForGood(steps: seq<Step>, n: nat, m: nat, c: nat)
    requires n <= m <= |steps| && LeftBehind(After(steps, n), c)
    ensures LeftBehind(After(steps, m), c)
    ensures c in After(steps, m).registered <==> c !in After(steps, m).register
  {
    LeftBehindIff(steps, n, c);
    TookEarlyStays(steps, n, m, c);
    LeftBehindIff(steps, m, c);
    AlwaysSafe(steps, m);
    assert ClientFits(After(steps, m), c);
    hide After, TookEarly;
    assert c in After(steps, m).register <==> c in multiset(After(steps, m).register);
  }

  /** It does happen: a connection that fails at once, with the hub picking unregister first. */
  lemma LeftBehindHappens()
    ensures exists steps :: LeftBehind(After(steps, |steps|), 0) && 0 in After(steps, |steps|).registered
  {
    var steps := [Connect, Do(0, Quit), Leave(0), HubUnregister, HubRegister];
    var a := After(steps, 1);
    assert a == INIT.(clients := [NEW_CLIENT], register := [0]) by {
      assert After(steps, 0) == INIT;
    }
    var leaving := NEW_CLIENT.(reader := Leaving);
    assert After(steps, 2) == a.(clients := [leaving]);
    assert After(steps, 3) == a.(clients := [leaving.(reader := Gone)], unregister := [0]);
    assert After(steps, 4) == a.(clients := [leaving.(reader := Gone)]);
    assert After(steps, 5) == INIT.(clients := [leaving.(reader := Gone)], registered := {0});
    assert LeftBehind(After(steps, |steps|), 0) && 0 in After(steps, |steps|).registered;
  }
}
