/** The e-mail notifier: callers enqueue tasks on a bounded queue, workers take them, spend a rate
    token, call the provider and retry. A run is any sequence of the atomic steps below, so every
    interleaving of callers, workers and the refill ticker is covered; a step that is not enabled
    leaves the state as it is. */
module EmailQueue {

  datatype Config = Config(queueSize: nat, maxRetries: int, maxTokens: int, workers: nat) {
    /** Retries a task can have at most. */
    function RetryLimit(): nat {
      if maxRetries > 0 then maxRetries else 0
    }

    /** Tokens one refill gives. */
    function Bucket(): nat {
      if maxTokens > 0 then maxTokens else 0
    }
  }

  datatype Task = Task(id: nat, retries: nat)

  /** Where a worker is in its loop, and the task in its hand. */
  datatype Phase =
    | Idle
    | Taken(task: Task)      // dequeued, rate limiter not asked yet
    | Limited(task: Task)    // refused by the rate limiter, sleeping before the re-queue
    | Sending(task: Task)    // in the provider call
    | Delivered(task: Task)  // provider succeeded, statistics not updated yet
    | Erred(task: Task)      // provider failed, statistics not updated yet
    | Failed(task: Task)     // failure counted, retry not decided yet
    | Bumped(task: Task)     // retry decided and counted on the task
    | Waiting(task: Task)    // retry counted in the statistics, sleeping before the re-queue

  datatype State = State(
    queue: seq<Task>,
    workers: seq<Phase>,
    tokens: int,
    totalSent: nat, totalFailed: nat, totalRetried: nat,
    // history: accepted tasks are numbered 0, 1, ..; where finished tasks went; provider calls
    accepted: nat,
    sent: multiset<nat>, exhausted: multiset<nat>, dropped: multiset<nat>,
    attempts: multiset<nat>,
    ticks: nat)

  datatype Step =
    | SendAlert                    // a caller enqueues, or is refused when the queue is full
    | Tick                         // the refill ticker fires
    | Take(w: nat)
    | AskLimiter(w: nat)
    | ProviderReturns(w: nat, ok: bool)
    | CountResult(w: nat)          // handleSendSuccess, or the first half of handleSendError
    | DecideRetry(w: nat)
    | CountRetry(w: nat)
    | Requeue(w: nat)
    // with nothing queued, a send goes straight to a worker that waits for one; the only way to
    // send when the queue has no room at all
    | HandOver(w: nat)             // a caller hands its task to worker w
    | HandBack(w: nat, v: nat)     // worker w re-queues into the hand of worker v

  function Init(c: Config): State {
    State([], seq(c.workers, _ => Idle), c.maxTokens, 0, 0, 0, 0, multiset{}, multiset{}, multiset{}, multiset{}, 0)
  }

  function Move(s: State, w: nat, p: Phase): State
    requires w < |s.workers|
  {
    s.(workers := s.workers[w := p])
  }

  /** The steps of one worker on its own. */
  predicate ByWorker(step: Step) {
    !step.SendAlert? && !step.Tick? && !step.HandOver? && !step.HandBack?
  }

  predicate CanTake(s: State, w: nat) {
    w < |s.workers| && s.workers[w].Idle? && s.queue == []
  }

  predicate CanReturn(s: State, w: nat) {
    w < |s.workers| && (s.workers[w].Waiting? || s.workers[w].Limited?)
  }

  function Enqueued(s: State): State {
    s.(queue := s.queue + [Task(s.accepted, 0)], accepted := s.accepted + 1)
  }

  function Returned(s: State, w: nat): State
    requires CanReturn(s, w)
  {
    Move(s, w, Idle).(queue := s.queue + [s.workers[w].task])
  }

  /** One atomic step. */
  function Do(c: Config, s: State, step: Step): State {
    match step
    case SendAlert => if |s.queue| < c.queueSize then Enqueued(s) else s
    case Tick => s.(tokens := c.maxTokens, ticks := s.ticks + 1)
    case HandOver(w) => if CanTake(s, w) then WorkerStep(c, Enqueued(s), Take(w)) else s
    case HandBack(w, v) =>
      if CanReturn(s, w) && CanTake(s, v) then WorkerStep(c, Returned(s, w), Take(v)) else s
    case _ =>
      if step.w >= |s.workers| then s else WorkerStep(c, s, step)
  }

  function WorkerStep(c: Config, s: State, step: Step): State
    requires ByWorker(step) && step.w < |s.workers|
  {
    var w := step.w;
    match (step, s.workers[w])
    case (Take(_), Idle) =>
      if s.queue == [] then s else Move(s, w, Taken(s.queue[0])).(queue := s.queue[1..])
    case (AskLimiter(_), Taken(t)) =>
      if s.tokens > 0 then
        Move(s, w, Sending(t)).(tokens := s.tokens - 1, attempts := s.attempts + multiset{t.id})
      else Move(s, w, Limited(t))
    case (ProviderReturns(_, ok), Sending(t)) => Move(s, w, if ok then Delivered(t) else Erred(t))
    case (CountResult(_), Delivered(t)) =>
      Move(s, w, Idle).(totalSent := s.totalSent + 1, sent := s.sent + multiset{t.id})
    case (CountResult(_), Erred(t)) => Move(s, w, Failed(t)).(totalFailed := s.totalFailed + 1)
    case (DecideRetry(_), Failed(t)) =>
      if t.retries < c.maxRetries then Move(s, w, Bumped(t.(retries := t.retries + 1)))
      else Move(s, w, Idle).(exhausted := s.exhausted + multiset{t.id})
    case (CountRetry(_), Bumped(t)) => Move(s, w, Waiting(t)).(totalRetried := s.totalRetried + 1)
    case (Requeue(_), Waiting(t)) => PutBack(c, s, w)
    case (Requeue(_), Limited(t)) => PutBack(c, s, w)
    case _ => s
  }

  /** A re-queue that finds the queue full drops the task. */
  function PutBack(c: Config, s: State, w: nat): State
    requires CanReturn(s, w)
  {
    if |s.queue| < c.queueSize then Returned(s, w)
    else Move(s, w, Idle).(dropped := s.dropped + multiset{s.workers[w].task.id})
  }

  function After(c: Config, steps: seq<Step>, n: nat): State
    requires n <= |steps|
  {
    if n == 0 then Init(c) else Do(c, After(c, steps, n - 1), steps[n - 1])
  }

  // ---------------------------------------------------------------- where tasks are

  function One(b: bool): nat {
    if b then 1 else 0
  }

  predicate Holds(p: Phase, id: nat) {
    !p.Idle? && p.task.id == id
  }

  /** A class of worker phases. */
  datatype Kind = Holding(id: nat) | Busy | Undecided

  /** Undecided: the failure is counted, its retry is not yet. */
  predicate Is(p: Phase, k: Kind) {
    match k
    case Holding(id) => Holds(p, id)
    case Busy => !p.Idle?
    case Undecided => p.Failed? || p.Bumped?
  }

  ghost function InQueue(q: seq<Task>, id: nat): nat {
    if q == [] then 0 else One(q[0].id == id) + InQueue(q[1..], id)
  }

  /** How many of the first n workers are in a phase of kind k. */
  ghost function Count(ws: seq<Phase>, n: nat, k: Kind): nat
    requires n <= |ws|
  {
    if n == 0 then 0 else Count(ws, n - 1, k) + One(Is(ws[n - 1], k))
  }

  ghost function Workers(s: State, k: Kind): nat {
    Count(s.workers, |s.workers|, k)
  }

  /** How often task `id` occurs anywhere: queue, hands, sent, exhausted, dropped. */
  ghost function Places(s: State, id: nat): nat {
    InQueue(s.queue, id) + Workers(s, Holding(id)) + s.sent[id] + s.exhausted[id] + s.dropped[id]
  }

  lemma {:induction false} QueueSnoc(q: seq<Task>, t: Task, id: nat)
    ensures InQueue(q + [t], id) == InQueue(q, id) + One(t.id == id)
  {
    if q == [] {
      assert q + [t] == [t];
    } else {
      QueueSnoc(q[1..], t, id);
      assert (q + [t])[1..] == q[1..] + [t];
    }
  }

  lemma {:induction false} QueueHas(q: seq<Task>, i: nat)
    requires i < |q|
    ensures InQueue(q, q[i].id) > 0
  {
    if i > 0 {
      QueueHas(q[1..], i - 1);
    }
  }

  lemma {:induction false} CountMove(ws: seq<Phase>, w: nat, p: Phase, n: nat, k: Kind)
    requires w < |ws| && n <= |ws|
    ensures Count(ws[w := p], n, k) == Count(ws, n, k) + if w < n then One(Is(p, k)) - One(Is(ws[w], k)) else 0
  {
    if n > 0 {
      CountMove(ws, w, p, n - 1, k);
    }
  }

  lemma {:induction false} CountHas(ws: seq<Phase>, w: nat, n: nat, k: Kind)
    requires w < n <= |ws| && Is(ws[w], k)
    ensures Count(ws, n, k) > 0
  {
    if w < n - 1 {
      CountHas(ws, w, n - 1, k);
    }
  }

  /** Two workers that hold one task are counted twice. */
  lemma {:induction false} CountTwice(ws: seq<Phase>, v: nat, w: nat, n: nat, k: Kind)
    requires v < w < n <= |ws| && Is(ws[v], k) && Is(ws[w], k)
    ensures Count(ws, n, k) >= 2
  {
    if w < n - 1 {
      CountTwice(ws, v, w, n - 1, k);
    } else {
      CountHas(ws, v, n - 1, k);
    }
  }

  lemma {:induction false} IdleWorkers(c: Config, n: nat, k: Kind)
    requires n <= c.workers
    ensures Count(Init(c).workers, n, k) == 0
  {
    if n > 0 {
      IdleWorkers(c, n - 1, k);
    }
  }

  predicate Accepts(c: Config, s: State, step: Step) {
    || (step.SendAlert? && |s.queue| < c.queueSize)
    || (step.HandOver? && CanTake(s, step.w))
  }

  lemma EnqueuedPlaces(s: State, id: nat)
    ensures Places(Enqueued(s), id) == Places(s, id) + One(id == s.accepted)
  {
    hide Count, InQueue;
    QueueSnoc(s.queue, Task(s.accepted, 0), id);
  }

  lemma ReturnedPlaces(s: State, w: nat, id: nat)
    requires CanReturn(s, w)
    ensures Places(Returned(s, w), id) == Places(s, id)
  {
    hide Count, InQueue;
    CountMove(s.workers, w, Idle, |s.workers|, Holding(id));
    QueueSnoc(s.queue, s.workers[w].task, id);
  }

  /** A step moves tasks between places and neither loses nor copies one. */
  lemma StepPlaces(c: Config, s: State, step: Step, id: nat)
    ensures Places(Do(c, s, step), id)
         == Places(s, id) + One(Accepts(c, s, step) && id == s.accepted)
  {
    hide WorkerStep, Enqueued, Returned, Places;
    EnqueuedPlaces(s, id);
    match step
    case SendAlert =>
    case Tick => TickPlaces(c, s, id);
    case HandOver(w) =>
      if CanTake(s, w) {
        EnqueuedWorkers(s);
        WorkerPlaces(c, Enqueued(s), Take(w), id);
      }
    case HandBack(w, v) =>
      if CanReturn(s, w) && CanTake(s, v) {
        ReturnedPlaces(s, w, id);
        ReturnedWorkers(s, w);
        WorkerPlaces(c, Returned(s, w), Take(v), id);
      }
    case _ =>
      if step.w < |s.workers| {
        WorkerPlaces(c, s, step, id);
      }
  }

  lemma TickPlaces(c: Config, s: State, id: nat)
    ensures Places(Do(c, s, Tick), id) == Places(s, id)
  {
  }

  lemma EnqueuedWorkers(s: State)
    ensures Enqueued(s).workers == s.workers && Enqueued(s).accepted == s.accepted + 1
  {
  }

  lemma ReturnedWorkers(s: State, w: nat)
    requires CanReturn(s, w)
    ensures |Returned(s, w).workers| == |s.workers| && Returned(s, w).accepted == s.accepted
  {
  }

  /** A worker's step touches no other worker. */
  lemma OneWorker(c: Config, s: State, step: Step)
    requires ByWorker(step) && step.w < |s.workers|
    ensures |WorkerStep(c, s, step).workers| == |s.workers|
    ensures WorkerStep(c, s, step).workers == s.workers[step.w := WorkerStep(c, s, step).workers[step.w]]
  {
  }

  lemma WorkerPlaces(c: Config, s: State, step: Step, id: nat)
    requires ByWorker(step) && step.w < |s.workers|
    ensures Places(WorkerStep(c, s, step), id) == Places(s, id)
  {
    hide Count;
    var w := step.w;
    var s' := WorkerStep(c, s, step);
    OneWorker(c, s, step);
    CountMove(s.workers, w, s'.workers[w], |s.workers|, Holding(id));
    if step.Requeue? {
      if CanReturn(s, w) {
        QueueSnoc(s.queue, s.workers[w].task, id);
      }
    } else if !step.Take? {
      hide InQueue;
      assert s'.queue == s.queue;
    }
  }

  lemma StepAccepted(c: Config, s: State, step: Step)
    ensures Do(c, s, step).accepted == s.accepted + One(Accepts(c, s, step))
  {
  }

  /** Conservation over every interleaving: each accepted task is in exactly one place. */
  lemma {:induction false} EachTaskOnce(c: Config, steps: seq<Step>, n: nat, id: nat)
    requires n <= |steps|
    ensures Places(After(c, steps, n), id) == One(id < After(c, steps, n).accepted)
  {
    if n == 0 {
      IdleWorkers(c, c.workers, Holding(id));
    } else {
      hide Do, Places;
      EachTaskOnce(c, steps, n - 1, id);
      StepPlaces(c, After(c, steps, n - 1), steps[n - 1], id);
      StepAccepted(c, After(c, steps, n - 1), steps[n - 1]);
    }
  }

  // ---------------------------------------------------------------- totals

  /** The totals: every accepted task is somewhere, and the statistics count what they say. */
  ghost predicate Balanced(s: State) {
    && s.accepted == |s.queue| + Workers(s, Busy) + |s.sent| + |s.exhausted| + |s.dropped|
    && s.totalSent == |s.sent|
    && s.totalFailed == s.totalRetried + |s.exhausted| + Workers(s, Undecided)
  }

  lemma WorkerBalances(c: Config, s: State, step: Step)
    requires Balanced(s) && ByWorker(step) && step.w < |s.workers|
    ensures Balanced(WorkerStep(c, s, step))
  {
    var w, s' := step.w, WorkerStep(c, s, step);
    OneWorker(c, s, step);
    CountMove(s.workers, w, s'.workers[w], |s.workers|, Busy);
    CountMove(s.workers, w, s'.workers[w], |s.workers|, Undecided);
    WorkerTotals(c, s, step);
    hide Count, WorkerStep;
  }

  lemma EnqueuedBalances(s: State)
    requires Balanced(s)
    ensures Balanced(Enqueued(s))
  {
    hide Count;
  }

  lemma ReturnedBalances(s: State, w: nat)
    requires Balanced(s) && CanReturn(s, w)
    ensures Balanced(Returned(s, w))
  {
    hide Count;
    CountMove(s.workers, w, Idle, |s.workers|, Busy);
    CountMove(s.workers, w, Idle, |s.workers|, Undecided);
  }

  lemma StepBalances(c: Config, s: State, step: Step)
    requires Balanced(s)
    ensures Balanced(Do(c, s, step))
  {
    hide Count, WorkerStep, Enqueued, Returned;
    match step
    case SendAlert => EnqueuedBalances(s);
    case Tick =>
    case HandOver(w) =>
      if CanTake(s, w) {
        EnqueuedBalances(s);
        EnqueuedWorkers(s);
        WorkerBalances(c, Enqueued(s), Take(w));
      }
    case HandBack(w, v) =>
      if CanReturn(s, w) && CanTake(s, v) {
        ReturnedBalances(s, w);
        ReturnedWorkers(s, w);
        WorkerBalances(c, Returned(s, w), Take(v));
      }
    case _ =>
      if step.w < |s.workers| {
        WorkerBalances(c, s, step);
      }
  }

  /** What one worker's step adds to each total. */
  lemma WorkerTotals(c: Config, s: State, step: Step)
    requires ByWorker(step) && step.w < |s.workers|
    ensures var s' := WorkerStep(c, s, step);
            var p, p' := s.workers[step.w], s'.workers[step.w];
            && s'.accepted == s.accepted
            && |s'.queue| + |s'.sent| + |s'.exhausted| + |s'.dropped| + One(!p'.Idle?)
               == |s.queue| + |s.sent| + |s.exhausted| + |s.dropped| + One(!p.Idle?)
            && s'.totalSent + |s.sent| == s.totalSent + |s'.sent|
            && s'.totalFailed + s.totalRetried + |s.exhausted| + One(p.Failed? || p.Bumped?)
               == s.totalFailed + s'.totalRetried + |s'.exhausted| + One(p'.Failed? || p'.Bumped?)
  {
  }

  /** Accepted = queued + in hand + sent + exhausted + dropped, TotalSent = sent, and
      TotalFailed = TotalRetried + exhausted + failures whose retry is being decided. */
  lemma {:induction false} TotalsBalance(c: Config, steps: seq<Step>, n: nat)
    requires n <= |steps|
    ensures Balanced(After(c, steps, n))
  {
    if n == 0 {
      IdleWorkers(c, c.workers, Busy);
      IdleWorkers(c, c.workers, Undecided);
    } else {
      hide Do, Balanced;
      TotalsBalance(c, steps, n - 1);
      StepBalances(c, After(c, steps, n - 1), steps[n - 1]);
    }
  }

  // ---------------------------------------------------------------- attempts

  /** Provider calls a task has used beyond its retry count, by phase. */
  function Ahead(p: Phase): nat {
    One(p.Sending? || p.Delivered? || p.Erred? || p.Failed?)
  }

  ghost predicate TaskFits(c: Config, s: State, t: Task, ahead: nat) {
    t.retries <= c.RetryLimit() && s.attempts[t.id] == t.retries + ahead
  }

  ghost predicate AttemptsFit(c: Config, s: State) {
    && (forall i :: 0 <= i < |s.queue| ==> TaskFits(c, s, s.queue[i], 0))
    && (forall w :: 0 <= w < |s.workers| && !s.workers[w].Idle?
          ==> TaskFits(c, s, s.workers[w].task, Ahead(s.workers[w])))
    && (forall id :: s.attempts[id] <= if id < s.accepted then c.RetryLimit() + 1 else 0)
    && (forall id :: s.exhausted[id] > 0 ==> s.attempts[id] == c.RetryLimit() + 1)
    && (forall id :: s.sent[id] > 0 ==> s.attempts[id] >= 1)
  }

  ghost predicate Unique(s: State) {
    forall id: nat :: Places(s, id) == One(id < s.accepted)
  }

  /** A task in a worker's hand is nowhere else. */
  lemma HeldOnlyThere(s: State, w: nat)
    requires Unique(s) && w < |s.workers| && !s.workers[w].Idle?
    ensures var id := s.workers[w].task.id;
            && id < s.accepted && s.sent[id] == 0 && s.exhausted[id] == 0
            && (forall i :: 0 <= i < |s.queue| ==> s.queue[i].id != id)
            && (forall v :: 0 <= v < |s.workers| && v != w ==> !Holds(s.workers[v], id))
  {
    hide Count, InQueue;
    var id := s.workers[w].task.id;
    assert Places(s, id) == One(id < s.accepted);
    CountHas(s.workers, w, |s.workers|, Holding(id));
    forall i | 0 <= i < |s.queue|
      ensures s.queue[i].id != id
    {
      QueueHas(s.queue, i);
    }
    forall v | 0 <= v < |s.workers| && v != w
      ensures !Holds(s.workers[v], id)
    {
      if Holds(s.workers[v], id) {
        CountTwice(s.workers, if v < w then v else w, if v < w then w else v, |s.workers|, Holding(id));
      }
    }
  }

  /** A worker's step that neither calls the provider nor touches the queue. */
  lemma MoveFits(c: Config, s: State, w: nat, p: Phase, s': State)
    requires AttemptsFit(c, s) && w < |s.workers| && s'.workers == s.workers[w := p]
    requires s'.queue == s.queue && s'.attempts == s.attempts && s'.accepted == s.accepted
    requires !p.Idle? ==> TaskFits(c, s, p.task, Ahead(p))
    requires forall id :: s'.exhausted[id] > s.exhausted[id] ==> s.attempts[id] == c.RetryLimit() + 1
    requires forall id :: s'.sent[id] > s.sent[id] ==> s.attempts[id] >= 1
    ensures AttemptsFit(c, s')
  {
  }

  lemma EnqueuedFits(c: Config, s: State)
    requires AttemptsFit(c, s)
    ensures AttemptsFit(c, Enqueued(s))
  {
  }

  lemma ReturnedFits(c: Config, s: State, w: nat)
    requires AttemptsFit(c, s) && CanReturn(s, w)
    ensures AttemptsFit(c, Returned(s, w))
  {
  }

  lemma TakeFits(c: Config, s: State, w: nat)
    requires AttemptsFit(c, s) && w < |s.workers|
    ensures AttemptsFit(c, WorkerStep(c, s, Take(w)))
  {
  }

  lemma RequeueFits(c: Config, s: State, w: nat)
    requires AttemptsFit(c, s) && w < |s.workers|
    ensures AttemptsFit(c, Do(c, s, Requeue(w)))
  {
    if CanReturn(s, w) {
      ReturnedFits(c, s, w);
      DroppedFits(c, s, w);
    }
    hide AttemptsFit, Returned;
  }

  lemma DroppedFits(c: Config, s: State, w: nat)
    requires AttemptsFit(c, s) && CanReturn(s, w)
    ensures AttemptsFit(c, Move(s, w, Idle).(dropped := s.dropped + multiset{s.workers[w].task.id}))
  {
    MoveFits(c, s, w, Idle, Move(s, w, Idle).(dropped := s.dropped + multiset{s.workers[w].task.id}));
  }

  lemma AskFits(c: Config, s: State, w: nat)
    requires Unique(s) && AttemptsFit(c, s) && w < |s.workers|
    ensures AttemptsFit(c, Do(c, s, AskLimiter(w)))
  {
    hide Unique;
    if s.workers[w].Taken? {
      HeldOnlyThere(s, w);
      var s' := Do(c, s, AskLimiter(w));
      var t := s.workers[w].task;
      assert TaskFits(c, s, t, 0);
      forall v | 0 <= v < |s'.workers| && !s'.workers[v].Idle?
        ensures TaskFits(c, s', s'.workers[v].task, Ahead(s'.workers[v]))
      {
        if v != w {
          assert !Holds(s.workers[v], t.id);
          assert TaskFits(c, s, s.workers[v].task, Ahead(s.workers[v]));
        }
      }
      forall i | 0 <= i < |s'.queue|
        ensures TaskFits(c, s', s'.queue[i], 0)
      {
        assert s.queue[i].id != t.id && TaskFits(c, s, s.queue[i], 0);
      }
    }
  }

  lemma HandedFits(c: Config, s: State, step: Step)
    requires AttemptsFit(c, s) && !ByWorker(step)
    ensures AttemptsFit(c, Do(c, s, step))
  {
    hide AttemptsFit, WorkerStep, Enqueued, Returned;
    EnqueuedFits(c, s);
    match step
    case SendAlert =>
    case Tick => TickFits(c, s);
    case HandOver(w) =>
      if CanTake(s, w) {
        EnqueuedWorkers(s);
        TakeFits(c, Enqueued(s), w);
      }
    case HandBack(w, v) =>
      if CanReturn(s, w) && CanTake(s, v) {
        ReturnedFits(c, s, w);
        ReturnedWorkers(s, w);
        TakeFits(c, Returned(s, w), v);
      }
  }

  lemma TickFits(c: Config, s: State)
    requires AttemptsFit(c, s)
    ensures AttemptsFit(c, Do(c, s, Tick))
  {
  }

  lemma StepAttempts(c: Config, s: State, step: Step)
    requires Unique(s) && AttemptsFit(c, s)
    ensures AttemptsFit(c, Do(c, s, step))
  {
    hide AttemptsFit, Unique, WorkerStep;
    if !ByWorker(step) {
      HandedFits(c, s, step);
    } else if step.w < |s.workers| {
      match step
      case Take(w) => TakeFits(c, s, w);
      case AskLimiter(w) => AskFits(c, s, w);
      case Requeue(w) => RequeueFits(c, s, w);
      case ProviderReturns(w, ok) => ReturnsFits(c, s, w, ok);
      case CountResult(w) => ResultFits(c, s, w);
      case DecideRetry(w) => DecideFits(c, s, w);
      case CountRetry(w) => CountRetryFits(c, s, w);
    }
  }

  lemma ReturnsFits(c: Config, s: State, w: nat, ok: bool)
    requires AttemptsFit(c, s) && w < |s.workers|
    ensures AttemptsFit(c, Do(c, s, ProviderReturns(w, ok)))
  {
    if s.workers[w].Sending? {
      MoveFits(c, s, w, Do(c, s, ProviderReturns(w, ok)).workers[w], Do(c, s, ProviderReturns(w, ok)));
    }
  }

  lemma ResultFits(c: Config, s: State, w: nat)
    requires AttemptsFit(c, s) && w < |s.workers|
    ensures AttemptsFit(c, Do(c, s, CountResult(w)))
  {
    if s.workers[w].Delivered? {
      MoveFits(c, s, w, Idle, Do(c, s, CountResult(w)));
    } else if s.workers[w].Erred? {
      MoveFits(c, s, w, Failed(s.workers[w].task), Do(c, s, CountResult(w)));
    } else {
      hide AttemptsFit;
    }
    hide AttemptsFit;
  }

  lemma DecideFits(c: Config, s: State, w: nat)
    requires AttemptsFit(c, s) && w < |s.workers|
    ensures AttemptsFit(c, Do(c, s, DecideRetry(w)))
  {
    if s.workers[w].Failed? {
      MoveFits(c, s, w, Do(c, s, DecideRetry(w)).workers[w], Do(c, s, DecideRetry(w)));
    }
  }

  lemma CountRetryFits(c: Config, s: State, w: nat)
    requires AttemptsFit(c, s) && w < |s.workers|
    ensures AttemptsFit(c, Do(c, s, CountRetry(w)))
  {
    if s.workers[w].Bumped? {
      MoveFits(c, s, w, Waiting(s.workers[w].task), Do(c, s, CountRetry(w)));
    }
  }

  lemma UniqueAlways(c: Config, steps: seq<Step>, n: nat)
    requires n <= |steps|
    ensures Unique(After(c, steps, n))
  {
    hide After, Places;
    forall id: nat
      ensures Places(After(c, steps, n), id) == One(id < After(c, steps, n).accepted)
    {
      EachTaskOnce(c, steps, n, id);
    }
  }

  /** No task is sent to the provider more than RetryLimit + 1 times, and one that is given up
      was tried exactly that often. */
  lemma {:induction false} AttemptsBounded(c: Config, steps: seq<Step>, n: nat)
    requires n <= |steps|
    ensures AttemptsFit(c, After(c, steps, n))
  {
    hide Do, AttemptsFit, Unique;
    if n == 0 {
      NothingTried(c);
    } else {
      AttemptsBounded(c, steps, n - 1);
      UniqueAlways(c, steps, n - 1);
      StepAttempts(c, After(c, steps, n - 1), steps[n - 1]);
    }
  }

  lemma NothingTried(c: Config)
    ensures AttemptsFit(c, Init(c))
  {
  }

  lemma {:induction false} SizeBound(m: multiset<nat>, n: nat, k: nat)
    requires forall id :: m[id] <= if id < n then k else 0
    ensures |m| <= n * k
  {
    if n == 0 {
      assert m == multiset{};
    } else {
      SizeBound(m[n - 1 := 0], n - 1, k);
      assert n * k == (n - 1) * k + k;
    }
  }

  /** Provider calls are at most accepted x (RetryLimit + 1). */
  lemma ProviderCallsBounded(c: Config, steps: seq<Step>, n: nat)
    requires n <= |steps|
    ensures |After(c, steps, n).attempts| <= After(c, steps, n).accepted * (c.RetryLimit() + 1)
  {
    hide After, Do;
    AttemptsBounded(c, steps, n);
    SizeBound(After(c, steps, n).attempts, After(c, steps, n).accepted, c.RetryLimit() + 1);
  }

  // ---------------------------------------------------------------- rate

  /** Tokens of k refills and of one full bucket before them. */
  ghost function Supply(c: Config, k: nat): nat {
    if k == 0 then c.Bucket() else Supply(c, k - 1) + c.Bucket()
  }

  lemma {:induction false} SupplyIs(c: Config, k: nat)
    ensures Supply(c, k) == (k + 1) * c.Bucket()
  {
    if k > 0 {
      SupplyIs(c, k - 1);
      assert (k + 1) * c.Bucket() == k * c.Bucket() + c.Bucket();
    }
  }

  function Left(s: State): nat {
    if s.tokens > 0 then s.tokens else 0
  }

  /** A step spends what it takes from the bucket; only the ticker fills it. */
  lemma StepRate(c: Config, s: State, step: Step)
    requires s.tokens <= c.maxTokens
    ensures var s' := Do(c, s, step);
            && s'.tokens <= c.maxTokens && s'.ticks == s.ticks + One(step.Tick?)
            && (step.Tick? ==> |s'.attempts| == |s.attempts|)
            && (!step.Tick? ==> |s'.attempts| + Left(s') == |s.attempts| + Left(s))
  {
  }

  lemma {:induction false} TokensBelowMax(c: Config, steps: seq<Step>, n: nat)
    requires n <= |steps|
    ensures After(c, steps, n).tokens <= c.maxTokens
  {
    hide Do;
    if n > 0 {
      TokensBelowMax(c, steps, n - 1);
      StepRate(c, After(c, steps, n - 1), steps[n - 1]);
    }
  }

  lemma {:induction false} SpentBetween(c: Config, steps: seq<Step>, m: nat, n: nat)
    requires m <= n <= |steps|
    ensures var s, s' := After(c, steps, m), After(c, steps, n);
            s.ticks <= s'.ticks && |s'.attempts| + Left(s') <= |s.attempts| + Supply(c, s'.ticks - s.ticks)
  {
    hide Do;
    TokensBelowMax(c, steps, m);
    if m < n {
      SpentBetween(c, steps, m, n - 1);
      TokensBelowMax(c, steps, n - 1);
      StepRate(c, After(c, steps, n - 1), steps[n - 1]);
    }
  }

  /** Rate, between any two moments of a run: provider calls never exceed one bucket per refill in
      between plus the one that may be full at the start. */
  lemma ProviderCallsRateLimited(c: Config, steps: seq<Step>, m: nat, n: nat)
    requires m <= n <= |steps|
    ensures var s, s' := After(c, steps, m), After(c, steps, n);
            |s'.attempts| - |s.attempts| <= (s'.ticks - s.ticks + 1) * c.Bucket()
  {
    hide After, Supply;
    SpentBetween(c, steps, m, n);
    SupplyIs(c, After(c, steps, n).ticks - After(c, steps, m).ticks);
  }
}
