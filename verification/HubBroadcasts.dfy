/** From Broadcast to the clients: which broadcasts the hub accepts, that it goes through all of them,
    and what that means for every client in its map at the time. */
module HubBroadcasts {
  import opened Wrappers
  import opened Subscription
  import opened Hub
  import opened HubDelivery

  // ---------------------------------------------------------------- single steps

  /** A broadcast is accepted iff fewer than 1024 accepted ones wait for the hub; a refused one changes
      nothing, and nothing else adds to the accepted ones. */
  lemma AcceptedIff(steps: seq<Step>, i: nat)
    requires i < |steps|
    ensures var s, s', step := After(steps, i), After(steps, i + 1), steps[i];
            && (step.Publish? && |s.accepted| - s.taken < 1024 ==> s' == s.(accepted := s.accepted + [step.event]))
            && (step.Publish? && |s.accepted| - s.taken >= 1024 ==> s' == s)
            && (!step.Publish? ==> s'.accepted == s.accepted)
  {
    hide Wants;
  }

  /** A connection with room in the register channel becomes a client with nothing subscribed. */
  lemma ConnectAdds(steps: seq<Step>, i: nat)
    requires i < |steps| && steps[i].Connect? && |After(steps, i).register| < 256
    ensures var s, s' := After(steps, i), After(steps, i + 1);
            && |s'.clients| == |s.clients| + 1 && s'.register == s.register + [|s.clients|]
            && s'.clients[..|s.clients|] == s.clients
            && var cl := s'.clients[|s.clients|];
               cl.subs == map[] && cl.send == [] && !cl.closed && cl.writing && cl.reader.Reading?
  {
  }

  /** An answer of the reader enters the channel as soon as it has room; nothing is written by a
      writer but the message that has been in the channel longest. */
  lemma ReplyAndWrite(s: State, c: nat, ok: bool)
    requires c < |s.clients|
    ensures var cl, cl' := s.clients[c], Next(s, Do(c, FinishReply)).clients[c];
            cl.reader.Replying? && |cl.send| < 256 ==> cl'.send == cl.send + [Reply] && cl'.reader.Reading?
    ensures var cl, cl' := s.clients[c], Next(s, Do(c, Write(ok))).clients[c];
            cl.writing && cl.send != [] ==>
              && cl.send == [cl.send[0]] + cl'.send && cl'.writing == ok
              && cl'.emitted == (if ok then cl.emitted + [cl.send[0]] else cl.emitted)
  {
  }

  /** A reader whose connection fails leaves, and unregisters as soon as that channel has room; a
      request it handles changes its subscriptions; a writer that exits writes no more. */
  lemma ReaderAndWriterMove(s: State, c: nat, op: Op)
    requires c < |s.clients|
    ensures s.clients[c].reader.Reading? ==>
              && Next(s, Do(c, Quit)).clients[c] == s.clients[c].(reader := Leaving)
              && Next(s, Do(c, StartReply)).clients[c] == s.clients[c].(reader := Replying)
              && Next(s, Do(c, Change(op))).clients[c].subs == Apply(s.clients[c].subs, op)
    ensures s.clients[c].reader.Leaving? && |s.unregister| < 256 ==>
              && Next(s, Leave(c)).unregister == s.unregister + [c]
              && Next(s, Leave(c)).clients[c] == s.clients[c].(reader := Gone)
    ensures Next(s, Do(c, WriterExit)).clients[c] == s.clients[c].(writing := false)
  {
  }

  /** The hub, when it selects, takes the oldest entry of a channel: a registration enters the map; an
      unregistration of a client in the map takes it out and closes its channel, and of any other
      changes no client. */
  lemma HubTakesOldest(s: State)
    requires s.hub.Selecting?
    ensures s.register != [] ==>
              var s' := Next(s, HubRegister);
              && s.register == [s.register[0]] + s'.register && s'.registered == s.registered + {s.register[0]}
              && s'.clients == s.clients
    ensures s.unregister != [] && s.unregister[0] in s.registered && s.unregister[0] < |s.clients| ==>
              var s', c := Next(s, HubUnregister), s.unregister[0];
              && s.unregister == [c] + s'.unregister && s'.registered == s.registered - {c}
              && s'.clients == s.clients[c := s'.clients[c]] && s'.clients[c].closed
    ensures s.unregister != [] && s.unregister[0] !in s.registered ==>
              var s' := Next(s, HubUnregister);
              && s.unregister == [s.unregister[0]] + s'.unregister
              && s'.registered == s.registered && s'.clients == s.clients
    ensures s.taken < |s.accepted| ==>
              Next(s, HubTake) == s.(taken := s.taken + 1, hub := Visiting(s.taken, s.registered))
  {
    hide Wants;
  }

  /** Once Run has returned, the hub takes nothing up any more and its map stays as it was. */
  lemma {:induction false} StoppedForGood(steps: seq<Step>, i: nat, n: nat)
    requires i < n <= |steps| && steps[i].HubStop? && After(steps, i).hub.Selecting?
    ensures var s, s' := After(steps, i), After(steps, n);
            s'.hub.Stopped? && s'.registered == s.registered && s'.taken == s.taken
  {
    hide Wants;
    if n > i + 1 {
      StoppedForGood(steps, i, n - 1);
    }
  }

  // ---------------------------------------------------------------- no broadcast is skipped

  /** Step i is the hub taking broadcast e. */
  ghost predicate TakenAt(steps: seq<Step>, i: nat, e: nat)
    requires i < |steps|
  {
    var s, s' := After(steps, i), After(steps, i + 1);
    s.taken == e && s'.taken == e + 1 && s'.hub == Visiting(e, s.registered) && s'.registered == s.registered
  }

  lemma StepTakes(s: State, step: Step)
    ensures Next(s, step).taken == s.taken
            || (&& Next(s, step).taken == s.taken + 1 && s.taken < |s.accepted|
                && Next(s, step).hub == Visiting(s.taken, s.registered) && Next(s, step).registered == s.registered)
  {
    hide Wants;
  }

  /** The hub goes through the accepted broadcasts in order, starting each with all clients in its map. */
  lemma {:induction false} EachIsTaken(steps: seq<Step>, n: nat, e: nat) returns (i: nat)
    requires n <= |steps| && e < After(steps, n).taken
    ensures i < n && TakenAt(steps, i, e)
  {
    hide Next;
    assert n > 0;
    StepTakes(After(steps, n - 1), steps[n - 1]);
    if e < After(steps, n - 1).taken {
      i := EachIsTaken(steps, n - 1, e);
    } else {
      i := n - 1;
    }
  }

  /** While the hub is on a broadcast its map does not change, and it leaves a broadcast only when no
      client is left to visit. */
  lemma StepOnBroadcast(s: State, step: Step, e: nat)
    requires OnBroadcast(s.hub, e)
    ensures OnBroadcast(Next(s, step).hub, e) ==> Next(s, step).registered == s.registered
    ensures !OnBroadcast(Next(s, step).hub, e) ==> s.hub.Visiting? && s.hub.rest == {}
  {
    hide Wants;
  }

  lemma {:induction false} TakenIsSettled(steps: seq<Step>, i: nat, n: nat, e: nat, c: nat)
    requires i < n <= |steps| && TakenAt(steps, i, e) && c in After(steps, i).registered
    ensures if OnBroadcast(After(steps, n).hub, e) then After(steps, n).registered == After(steps, i).registered
            else Settled(steps, n, e, c)
  {
    hide Next, Settled;
    if n > i + 1 {
      TakenIsSettled(steps, i, n - 1, e, c);
      var s := After(steps, n - 1);
      if OnBroadcast(s.hub, e) {
        StepOnBroadcast(s, steps[n - 1], e);
        if !OnBroadcast(After(steps, n).hub, e) {
          SettledOnceVisited(steps, n - 1, e, c);
          SettledLater(steps, n, e, c);
        }
      } else {
        SettledLater(steps, n, e, c);
        TakenOnce(steps, i, n, e);
      }
    }
  }

  /** A broadcast that the hub has left is not taken up again. */
  lemma TakenOnce(steps: seq<Step>, i: nat, n: nat, e: nat)
    requires i + 1 < n <= |steps| && TakenAt(steps, i, e) && !OnBroadcast(After(steps, n - 1).hub, e)
    ensures !OnBroadcast(After(steps, n).hub, e)
  {
    hide Next;
    TakenGrows(steps, i + 1, n - 1);
    if OnBroadcast(After(steps, n).hub, e) {
      NewBroadcast(After(steps, n - 1), steps[n - 1], e);
    }
  }

  lemma NewBroadcast(s: State, step: Step, e: nat)
    requires !OnBroadcast(s.hub, e) && OnBroadcast(Next(s, step).hub, e)
    ensures s.taken == e
  {
    hide Wants;
  }

  lemma {:induction false} TakenGrows(steps: seq<Step>, i: nat, n: nat)
    requires i <= n <= |steps|
    ensures After(steps, i).taken <= After(steps, n).taken
  {
    hide Next;
    if i < n {
      TakenGrows(steps, i, n - 1);
      StepTakes(After(steps, n - 1), steps[n - 1]);
    }
  }

  /** Over every interleaving: for each broadcast the hub has taken up and left again, there is the
      step at which it took it, and every client in its map at that step has the broadcast in its
      channel's history, or did not want it when the hub looked, or had a full buffer. */
  lemma EveryBroadcastIsSettled(steps: seq<Step>, n: nat, e: nat) returns (i: nat)
    requires n <= |steps| && e < After(steps, n).taken && !OnBroadcast(After(steps, n).hub, e)
    ensures i < n && TakenAt(steps, i, e)
    ensures forall c :: c in After(steps, i).registered ==>
              News(e) in ReceivedBy(After(steps, n), c) || WasJudged(steps, n, e, c, false) || WasFull(steps, n, e, c)
  {
    i := EachIsTaken(steps, n, e);
    forall c | c in After(steps, i).registered
      ensures Settled(steps, n, e, c)
    {
      TakenIsSettled(steps, i, n, e, c);
    }
    hide After, WasJudged, WasFull;
  }
}
