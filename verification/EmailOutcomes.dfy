/** Why a task of the e-mail queue ends up where it does, over every interleaving. */
module EmailOutcomes {
  import opened EmailQueue

  /** A step accepts a task iff a caller sends while the queue has room, or hands its task to a worker
      that waits at an empty queue; a refused caller changes nothing. */
  lemma AcceptedIff(c: Config, steps: seq<Step>, i: nat)
    requires i < |steps|
    ensures var s, s', step := After(c, steps, i), After(c, steps, i + 1), steps[i];
            && (s'.accepted == s.accepted + 1
                <==> || (step.SendAlert? && |s.queue| < c.queueSize)
                     || (step.HandOver? && s.queue == [] && step.w < |s.workers| && s.workers[step.w].Idle?))
            && (s'.accepted != s.accepted + 1 ==> s'.accepted == s.accepted)
            && (step.SendAlert? && |s.queue| >= c.queueSize ==> s' == s)
            && (step.SendAlert? && |s.queue| < c.queueSize ==> s'.queue == s.queue + [Task(s.accepted, 0)])
  {
    hide After;
    AfterIs(c, steps, i);
    StepAccepted(c, After(c, steps, i), steps[i]);
    SendIs(c, After(c, steps, i));
    hide Do;
  }

  lemma AfterIs(c: Config, steps: seq<Step>, i: nat)
    requires i < |steps|
    ensures After(c, steps, i + 1) == Do(c, After(c, steps, i), steps[i])
  {
    hide Do;
  }

  lemma SendIs(c: Config, s: State)
    ensures Do(c, s, SendAlert)
         == if |s.queue| < c.queueSize
            then s.(queue := s.queue + [Task(s.accepted, 0)], accepted := s.accepted + 1) else s
  {
  }

  // ---------------------------------------------------------------- one step of a worker

  /** The ticker fills the bucket and does nothing else. */
  lemma TickFills(c: Config, s: State)
    ensures Do(c, s, Tick).tokens == c.maxTokens
    ensures Do(c, s, Tick) == s.(tokens := c.maxTokens, ticks := s.ticks + 1)
  {
  }

  /** A waiting worker takes the task that has been in the queue longest. */
  lemma TakesOldest(c: Config, s: State, w: nat)
    requires w < |s.workers| && s.workers[w].Idle? && s.queue != []
    ensures var s' := Do(c, s, Take(w));
            s'.workers == s.workers[w := Taken(s.queue[0])] && s.queue == [s.queue[0]] + s'.queue
  {
  }

  /** A worker that asks for a token calls the provider iff there is one. */
  lemma AskingCallsIff(c: Config, s: State, w: nat)
    requires w < |s.workers| && s.workers[w].Taken?
    ensures var s', t := Do(c, s, AskLimiter(w)), s.workers[w].task;
            if s.tokens > 0 then
              s'.workers == s.workers[w := Sending(t)] && s'.tokens == s.tokens - 1
              && s'.attempts == s.attempts + multiset{t.id}
            else
              s'.workers == s.workers[w := Limited(t)] && s'.tokens == s.tokens && s'.attempts == s.attempts
  {
  }

  /** A failed attempt is retried iff the task has retries left, and given up otherwise. */
  lemma RetriedIff(c: Config, s: State, w: nat)
    requires w < |s.workers| && s.workers[w].Failed?
    ensures var s', t := Do(c, s, DecideRetry(w)), s.workers[w].task;
            if t.retries < c.maxRetries then
              s'.workers == s.workers[w := Bumped(Task(t.id, t.retries + 1))] && s'.exhausted == s.exhausted
            else s'.workers == s.workers[w := Idle] && s'.exhausted == s.exhausted + multiset{t.id}
  {
  }

  /** A task that comes back goes to the end of the queue iff there is room, and is lost otherwise. */
  lemma ReturnedIff(c: Config, s: State, w: nat)
    requires w < |s.workers| && (s.workers[w].Waiting? || s.workers[w].Limited?)
    ensures var s', t := Do(c, s, Requeue(w)), s.workers[w].task;
            && s'.workers == s.workers[w := Idle]
            && (if |s.queue| < c.queueSize then s'.queue == s.queue + [t] && s'.dropped == s.dropped
                else s'.queue == s.queue && s'.dropped == s.dropped + multiset{t.id})
  {
  }

  /** The provider's answer decides what is counted: a success as sent, a failure as failed. */
  lemma AnswerCounts(c: Config, s: State, w: nat, ok: bool)
    requires w < |s.workers| && s.workers[w].Sending?
    ensures var s' := Do(c, Do(c, s, ProviderReturns(w, ok)), CountResult(w));
            && s'.totalSent == s.totalSent + One(ok) && s'.totalFailed == s.totalFailed + One(!ok)
            && s'.sent == (if ok then s.sent + multiset{s.workers[w].task.id} else s.sent)
            && s'.workers == s.workers[w := if ok then Idle else Failed(s.workers[w].task)]
  {
    var mid := Do(c, s, ProviderReturns(w, ok));
    assert mid.workers == s.workers[w := if ok then Delivered(s.workers[w].task) else Erred(s.workers[w].task)];
  }

  // ---------------------------------------------------------------- causes, over runs

  lemma TakeMoves(c: Config, s: State, v: nat)
    requires v < |s.workers|
    ensures var s' := WorkerStep(c, s, Take(v));
            |s'.workers| == |s.workers|
            && forall w :: 0 <= w < |s.workers| ==> s'.workers[w] == s.workers[w] || s'.workers[w].Taken?
  {
  }

  lemma HandedMoves(c: Config, s: State, step: Step, w: nat)
    requires !ByWorker(step) && w < |Do(c, s, step).workers|
    ensures w < |s.workers|
    ensures var p' := Do(c, s, step).workers[w]; p' == s.workers[w] || p'.Taken? || p'.Idle?
  {
    hide WorkerStep;
    match step
    case HandOver(v) =>
      if CanTake(s, v) {
        TakeMoves(c, Enqueued(s), v);
      }
    case HandBack(u, v) =>
      if CanReturn(s, u) && CanTake(s, v) {
        TakeMoves(c, Returned(s, u), v);
      }
    case _ =>
  }

  /** Apart from being handed a task and giving one away, a worker moves only in its own steps. */
  lemma OwnMoves(c: Config, s: State, step: Step, w: nat)
    requires w < |Do(c, s, step).workers|
    ensures w < |s.workers|
    ensures var p' := Do(c, s, step).workers[w];
            || p' == s.workers[w] || p'.Taken? || p'.Idle?
            || (ByWorker(step) && step.w == w && Do(c, s, step) == WorkerStep(c, s, step))
  {
    hide WorkerStep;
    if ByWorker(step) {
      if step.w < |s.workers| {
        OneWorker(c, s, step);
      }
    } else {
      HandedMoves(c, s, step, w);
    }
  }

  lemma DeliveredStep(c: Config, s: State, step: Step, w: nat)
    requires w < |Do(c, s, step).workers| && Do(c, s, step).workers[w].Delivered?
    ensures w < |s.workers|
    ensures var p, p' := s.workers[w], Do(c, s, step).workers[w];
            p == p' || (step == ProviderReturns(w, true) && p == Sending(p'.task))
  {
    hide Do;
    OwnMoves(c, s, step, w);
  }

  lemma {:induction false} DeliveredCause(c: Config, steps: seq<Step>, n: nat, w: nat) returns (i: nat)
    requires n <= |steps| && w < |After(c, steps, n).workers| && After(c, steps, n).workers[w].Delivered?
    ensures i < n && steps[i] == ProviderReturns(w, true) && w < |After(c, steps, i).workers|
    ensures After(c, steps, i).workers[w] == Sending(After(c, steps, n).workers[w].task)
  {
    hide Do;
    assert n > 0;
    DeliveredStep(c, After(c, steps, n - 1), steps[n - 1], w);
    if After(c, steps, n - 1).workers[w].Delivered? {
      i := DeliveredCause(c, steps, n - 1, w);
    } else {
      i := n - 1;
    }
  }

  lemma SentStep(c: Config, s: State, step: Step, id: nat)
    ensures Do(c, s, step).sent[id] > s.sent[id] ==>
              && step.CountResult? && step.w < |s.workers|
              && s.workers[step.w].Delivered? && s.workers[step.w].task.id == id
  {
  }

  /** A task counts as sent only after the provider has accepted it. */
  lemma {:induction false} SentCause(c: Config, steps: seq<Step>, n: nat, id: nat) returns (i: nat, w: nat)
    requires n <= |steps| && After(c, steps, n).sent[id] > 0
    ensures i < n && steps[i] == ProviderReturns(w, true) && w < |After(c, steps, i).workers|
    ensures After(c, steps, i).workers[w].Sending? && After(c, steps, i).workers[w].task.id == id
  {
    hide Do;
    assert n > 0;
    SentStep(c, After(c, steps, n - 1), steps[n - 1], id);
    if After(c, steps, n - 1).sent[id] > 0 {
      i, w := SentCause(c, steps, n - 1, id);
    } else {
      w := steps[n - 1].w;
      i := DeliveredCause(c, steps, n - 1, w);
    }
  }

  lemma DroppedStep(c: Config, s: State, step: Step, id: nat)
    ensures Do(c, s, step).dropped[id] > s.dropped[id] ==>
              && step.Requeue? && step.w < |s.workers| && |s.queue| >= c.queueSize
              && (s.workers[step.w].Waiting? || s.workers[step.w].Limited?) && s.workers[step.w].task.id == id
  {
  }

  /** A task is dropped only when the queue was full at its re-queue. */
  lemma {:induction false} DroppedCause(c: Config, steps: seq<Step>, n: nat, id: nat) returns (i: nat)
    requires n <= |steps| && After(c, steps, n).dropped[id] > 0
    ensures i < n && steps[i].Requeue? && |After(c, steps, i).queue| >= c.queueSize
    ensures var s, w := After(c, steps, i), steps[i].w;
            w < |s.workers| && (s.workers[w].Waiting? || s.workers[w].Limited?) && s.workers[w].task.id == id
  {
    hide Do;
    assert n > 0;
    DroppedStep(c, After(c, steps, n - 1), steps[n - 1], id);
    if After(c, steps, n - 1).dropped[id] > 0 {
      i := DroppedCause(c, steps, n - 1, id);
    } else {
      i := n - 1;
    }
  }

  lemma LimitedStep(c: Config, s: State, step: Step, w: nat)
    requires w < |Do(c, s, step).workers| && Do(c, s, step).workers[w].Limited?
    ensures w < |s.workers|
    ensures var p, p' := s.workers[w], Do(c, s, step).workers[w];
            p == p' || (step == AskLimiter(w) && s.tokens <= 0 && p == Taken(p'.task))
  {
    hide Do;
    OwnMoves(c, s, step, w);
  }

  /** A task is held back by the rate limiter only when the bucket was empty. */
  lemma {:induction false} LimitedCause(c: Config, steps: seq<Step>, n: nat, w: nat) returns (i: nat)
    requires n <= |steps| && w < |After(c, steps, n).workers| && After(c, steps, n).workers[w].Limited?
    ensures i < n && steps[i] == AskLimiter(w) && After(c, steps, i).tokens <= 0
  {
    hide Do;
    assert n > 0;
    LimitedStep(c, After(c, steps, n - 1), steps[n - 1], w);
    if After(c, steps, n - 1).workers[w].Limited? {
      i := LimitedCause(c, steps, n - 1, w);
    } else {
      i := n - 1;
    }
  }
}
