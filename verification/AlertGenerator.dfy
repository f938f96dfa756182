/** Turning health issues into alert rows, with the deduplication store deciding between a new row
    and another occurrence of an existing one. One caller at a time; store and database calls
    succeed; each of the clock readings of a call is separate. */
module AlertGenerator {
  import opened Wrappers
  import opened Deduplication

  datatype Status = Active | Acknowledged | Resolved

  /** The columns of an alert row the generator reads or writes. A row's id is its position. */
  datatype Row = Row(key: AlertKey, severity: Severity, status: Status, occurrenceCount: int)

  datatype State = State(store: Store, silences: Silences, rows: seq<Row>)

  const EMPTY := State(map[], map[], [])

  function EscalateSeverity(s: Severity): Severity {
    match s
    case Low => Medium
    case Medium => High
    case High => Critical
    case _ => s
  }

  /** Clock readings of one GenerateAlert call, in the order they are taken: the silence check, the
      deduplication check, the count lookup, the recording, and the escalation mark. */
  datatype Clock = Clock(silent: int, should: int, count: int, record: int, mark: int) {
    predicate Ordered() {
      silent <= should <= count <= record <= mark
    }
  }

  datatype Outcome = Silenced | Created(id: nat) | Updated(id: nat, escalated: bool)

  function SetCount(rows: seq<Row>, id: nat, count: int): seq<Row> {
    if id < |rows| then rows[id := rows[id].(occurrenceCount := count)] else rows
  }

  function SetSeverity(rows: seq<Row>, id: nat, severity: Severity): seq<Row> {
    if id < |rows| then rows[id := rows[id].(severity := severity)] else rows
  }

  function SetRowStatus(rows: seq<Row>, id: nat, status: Status): seq<Row> {
    if id < |rows| then rows[id := rows[id].(status := status)] else rows
  }

  function CreateNew(c: Config, s: State, key: AlertKey, severity: Severity, t: Clock): State {
    s.(rows := s.rows + [Row(key, severity, Active, 1)],
       store := RecordNew(c, s.store, key, |s.rows|, severity, t.record))
  }

  /** Another occurrence: the row gets the stored count plus one, the record is renewed, and an
      escalation sets the row's severity from the severity of this issue. */
  function Repeat(c: Config, s: State, key: AlertKey, id: nat, severity: Severity, t: Clock): State {
    s.(rows := SetCount(s.rows, id, OccurrenceCount(s.store, key, t.count) + 1),
       store := RecordRepeat(c, s.store, key, severity, t.record))
  }

  function Escalated(c: Config, s: State, key: AlertKey, id: nat, severity: Severity, t: Clock): State {
    s.(rows := SetSeverity(s.rows, id, EscalateSeverity(severity)),
       store := Marked(c, s.store, key, t.mark))
  }

  function Generate(c: Config, s: State, key: AlertKey, severity: Severity, t: Clock): State {
    if IsSilent(s.silences, key, t.silent) then s
    else
      match Decide(c, s.store, key, severity, t.should)
      case Create => CreateNew(c, s, key, severity, t)
      case Update(id, escalate) =>
        var repeated := Repeat(c, s, key, id, severity, t);
        if escalate then Escalated(c, repeated, key, id, severity, t) else repeated
  }

  function OutcomeOf(c: Config, s: State, key: AlertKey, severity: Severity, t: Clock): Outcome {
    if IsSilent(s.silences, key, t.silent) then Silenced
    else
      match Decide(c, s.store, key, severity, t.should)
      case Create => Created(|s.rows|)
      case Update(id, escalate) => Updated(id, escalate)
  }

  /** Resolving closes the active rows of the key, forgets its record and starts the silent period. */
  function Resolve(c: Config, s: State, key: AlertKey, now: int): State {
    State(s.store - {key},
          s.silences[key := ExpiresAt(now, c.silentPeriod)],
          CloseRows(s.rows, key))
  }

  function CloseRows(rows: seq<Row>, key: AlertKey): (r: seq<Row>)
    ensures |r| == |rows|
    ensures forall i :: 0 <= i < |r| ==>
              r[i] == if rows[i].key == key && rows[i].status == Active then rows[i].(status := Resolved) else rows[i]
  {
    seq(|rows|, i requires 0 <= i < |rows| =>
      if rows[i].key == key && rows[i].status == Active then rows[i].(status := Resolved) else rows[i])
  }

  /** What the service does over time: issues, resolutions, and operators acknowledging rows. */
  datatype Op =
    | Issue(key: AlertKey, severity: Severity, clock: Clock)
    | ResolveKey(key: AlertKey, now: int)
    | SetStatus(id: nat, status: Status, now: int)

  function Do(c: Config, s: State, op: Op): State {
    match op
    case Issue(key, severity, t) => Generate(c, s, key, severity, t)
    case ResolveKey(key, now) => Resolve(c, s, key, now)
    case SetStatus(id, status, _) => s.(rows := SetRowStatus(s.rows, id, status))
  }

  function After(c: Config, ops: seq<Op>, n: nat): State
    requires n <= |ops|
  {
    if n == 0 then EMPTY else Do(c, After(c, ops, n - 1), ops[n - 1])
  }

  function OutcomeAt(c: Config, ops: seq<Op>, i: nat): Outcome
    requires i < |ops| && ops[i].Issue?
  {
    OutcomeOf(c, After(c, ops, i), ops[i].key, ops[i].severity, ops[i].clock)
  }

  function Start(op: Op): int {
    if op.Issue? then op.clock.silent else op.now
  }

  function End(op: Op): int {
    if op.Issue? then op.clock.mark else op.now
  }

  /** What a call needs of the record it decides to update: the record is still there when the
      occurrence is recorded, and what that wrote is still there when an escalation is marked. */
  predicate Outlives(c: Config, s: State, key: AlertKey, severity: Severity, t: Clock) {
    match OutcomeOf(c, s, key, severity, t)
    case Updated(_, escalate) =>
      && key in s.store && Before(t.record, s.store[key].expiresAt)
      && (escalate ==> Before(t.mark, ExpiresAt(t.record, DedupeTTL(c))))
    case _ => true
  }

  /** The readings of a call come in order, and no record expires under it. */
  predicate Usual(c: Config, s: State, op: Op) {
    op.Issue? ==> op.clock.Ordered() && Outlives(c, s, op.key, op.severity, op.clock)
  }

  /** A call that takes less than the deduplication window from its check to its last write. */
  predicate Prompt(c: Config, t: Clock) {
    DedupeTTL(c) == 0 || t.mark - t.should < c.dedupeWindow
  }

  // ---------------------------------------------------------------- what every state keeps

  /** A record belongs to a row of its key with the same count, and outlives the window it guards. */
  ghost predicate RecordOk(c: Config, s: State, key: AlertKey)
    requires key in s.store
  {
    var info := s.store[key].info;
    && info.alertID < |s.rows|
    && s.rows[info.alertID].key == key
    && s.rows[info.alertID].occurrenceCount == info.occurrenceCount >= 1
    && (if DedupeTTL(c) == 0 then s.store[key].expiresAt.None?
        else s.store[key].expiresAt.Some? && s.store[key].expiresAt.value >= info.lastSeenAt + DedupeTTL(c))
  }

  ghost predicate Inv(c: Config, s: State) {
    forall key :: key in s.store ==> RecordOk(c, s, key)
  }

  /** The state after a repeated occurrence when no record expires during the call. */
  function Nominal(c: Config, s: State, key: AlertKey, severity: Severity, escalate: bool, t: Clock): State
    requires key in s.store && s.store[key].info.alertID < |s.rows|
  {
    var info := s.store[key].info;
    var row := s.rows[info.alertID].(occurrenceCount := info.occurrenceCount + 1);
    State(
      s.store[key := Stored(
        info.(lastSeenAt := t.record, occurrenceCount := info.occurrenceCount + 1, currentSeverity := severity,
              escalated := info.escalated || escalate),
        ExpiresAt(if escalate then t.mark else t.record, DedupeTTL(c)))],
      s.silences,
      s.rows[info.alertID := if escalate then row.(severity := EscalateSeverity(severity)) else row])
  }

  /** A prompt call never loses the record it decided on. */
  lemma PromptIsUsual(c: Config, s: State, op: Op)
    requires Inv(c, s) && (op.Issue? ==> op.clock.Ordered() && Prompt(c, op.clock))
    ensures Usual(c, s, op)
  {
    if op.Issue? && op.key in s.store {
      assert RecordOk(c, s, op.key);
    }
  }

  lemma RepeatEffect(c: Config, s: State, key: AlertKey, severity: Severity, escalate: bool, t: Clock)
    requires key in s.store && RecordOk(c, s, key)
    requires Before(t.count, s.store[key].expiresAt) && Before(t.record, s.store[key].expiresAt)
    requires escalate ==> Before(t.mark, ExpiresAt(t.record, DedupeTTL(c)))
    ensures var id := s.store[key].info.alertID;
            var repeated := Repeat(c, s, key, id, severity, t);
            Nominal(c, s, key, severity, escalate, t)
              == if escalate then Escalated(c, repeated, key, id, severity, t) else repeated
  {
    hide DedupeTTL, ExpiresAt;
    var id := s.store[key].info.alertID;
    var repeated := Repeat(c, s, key, id, severity, t);
    var nominal := Nominal(c, s, key, severity, escalate, t);
    if escalate {
      assert nominal.store == Escalated(c, repeated, key, id, severity, t).store;
    } else {
      assert nominal.store == repeated.store;
    }
  }

  lemma GenerateEffect(c: Config, s: State, key: AlertKey, severity: Severity, t: Clock)
    requires Inv(c, s) && t.Ordered() && Outlives(c, s, key, severity, t)
    ensures match OutcomeOf(c, s, key, severity, t)
            case Silenced => Generate(c, s, key, severity, t) == s
            case Created(id) => id == |s.rows| && Generate(c, s, key, severity, t) == CreateNew(c, s, key, severity, t)
            case Updated(id, escalate) =>
              && key in s.store && RecordOk(c, s, key) && id == s.store[key].info.alertID
              && t.should - s.store[key].info.lastSeenAt <= c.dedupeWindow
              && escalate == (!s.store[key].info.escalated && severity != Critical
                              && s.store[key].info.occurrenceCount >= c.escalationThreshold)
              && Generate(c, s, key, severity, t) == Nominal(c, s, key, severity, escalate, t)
  {
    hide Repeat, Escalated, Nominal, CreateNew, RecordOk, DedupeTTL, ExpiresAt;
    if OutcomeOf(c, s, key, severity, t).Updated? {
      assert RecordOk(c, s, key);
      RepeatEffect(c, s, key, severity, Decide(c, s.store, key, severity, t.should).escalate, t);
    }
  }

  lemma StepInv(c: Config, s: State, op: Op)
    requires Inv(c, s) && Usual(c, s, op)
    ensures Inv(c, Do(c, s, op))
  {
    if op.Issue? {
      IssueInv(c, s, op.key, op.severity, op.clock);
    } else {
      hide Generate;
      forall k | k in Do(c, s, op).store
        ensures RecordOk(c, Do(c, s, op), k)
      {
        assert RecordOk(c, s, k);
      }
    }
  }

  lemma IssueInv(c: Config, s: State, key: AlertKey, severity: Severity, t: Clock)
    requires Inv(c, s) && t.Ordered() && Outlives(c, s, key, severity, t)
    ensures Inv(c, Generate(c, s, key, severity, t))
  {
    hide Generate, OutcomeOf, Outlives;
    GenerateEffect(c, s, key, severity, t);
    var s' := Generate(c, s, key, severity, t);
    forall k | k in s'.store
      ensures RecordOk(c, s', k)
    {
      if k != key {
        assert RecordOk(c, s, k);
      }
    }
  }

  ghost predicate UsualRun(c: Config, ops: seq<Op>) {
    forall i :: 0 <= i < |ops| ==> Usual(c, After(c, ops, i), ops[i])
  }

  lemma EmptyInv(c: Config)
    ensures Inv(c, EMPTY)
  {
    assert EMPTY.store == map[];
  }

  lemma AfterStep(c: Config, ops: seq<Op>, n: nat)
    requires 0 < n <= |ops|
    ensures After(c, ops, n) == Do(c, After(c, ops, n - 1), ops[n - 1])
    ensures UsualRun(c, ops) ==> Usual(c, After(c, ops, n - 1), ops[n - 1])
  {
    hide Do, Usual;
  }

  /** Each record's count equals its row's occurrence count, over any run in which no record expires
      under a call. */
  lemma {:induction false} AlwaysInv(c: Config, ops: seq<Op>, n: nat)
    requires UsualRun(c, ops) && n <= |ops|
    ensures Inv(c, After(c, ops, n))
  {
    hide Do, Inv, Usual, UsualRun;
    if n > 0 {
      AlwaysInv(c, ops, n - 1);
      AfterStep(c, ops, n);
      StepInv(c, After(c, ops, n - 1), ops[n - 1]);
    } else {
      EmptyInv(c);
    }
  }

  ghost predicate PromptRun(c: Config, ops: seq<Op>) {
    forall i :: 0 <= i < |ops| && ops[i].Issue? ==> ops[i].clock.Ordered() && Prompt(c, ops[i].clock)
  }

  lemma {:induction false} PromptPrefix(c: Config, ops: seq<Op>, n: nat)
    requires PromptRun(c, ops) && n <= |ops|
    ensures Inv(c, After(c, ops, n))
    ensures forall i :: 0 <= i < n ==> Usual(c, After(c, ops, i), ops[i])
  {
    hide Do, Inv, Usual, Prompt;
    if n > 0 {
      PromptPrefix(c, ops, n - 1);
      AfterStep(c, ops, n);
      PromptIsUsual(c, After(c, ops, n - 1), ops[n - 1]);
      StepInv(c, After(c, ops, n - 1), ops[n - 1]);
    } else {
      EmptyInv(c);
    }
  }

  /** Runs of calls shorter than the deduplication window are such runs. */
  lemma PromptRunsAreUsual(c: Config, ops: seq<Op>)
    requires PromptRun(c, ops)
    ensures UsualRun(c, ops)
  {
    hide After, Inv, Usual, Prompt;
    PromptPrefix(c, ops, |ops|);
  }

  // ---------------------------------------------------------------- expiry is transparent

  function Forever(c: Config): Config {
    c.(expiring := false)
  }

  /** Same rows, silences and records; only the expiry times differ. */
  ghost predicate SameButExpiry(s: State, e: State) {
    && s.rows == e.rows && s.silences == e.silences && s.store.Keys == e.store.Keys
    && forall key :: key in s.store ==> s.store[key].info == e.store[key].info
  }

  /** A record that has expired is stale for the reference store, so both create. */
  lemma SameDecision(c: Config, s: State, e: State, key: AlertKey, severity: Severity, t: Clock)
    requires Inv(c, s) && Inv(Forever(c), e) && SameButExpiry(s, e)
    ensures OutcomeOf(c, s, key, severity, t) == OutcomeOf(Forever(c), e, key, severity, t)
  {
    if key in s.store {
      assert RecordOk(c, s, key) && RecordOk(Forever(c), e, key);
    }
  }

  lemma SameCreated(c: Config, s: State, e: State, key: AlertKey, severity: Severity, t: Clock)
    requires SameButExpiry(s, e)
    ensures SameButExpiry(CreateNew(c, s, key, severity, t), CreateNew(Forever(c), e, key, severity, t))
  {
    hide ExpiresAt, DedupeTTL;
  }

  lemma SameUpdated(c: Config, s: State, e: State, key: AlertKey, severity: Severity, escalate: bool, t: Clock)
    requires SameButExpiry(s, e) && key in s.store && s.store[key].info.alertID < |s.rows|
    ensures SameButExpiry(Nominal(c, s, key, severity, escalate, t), Nominal(Forever(c), e, key, severity, escalate, t))
  {
    hide ExpiresAt, DedupeTTL;
  }

  lemma ForeverOutlives(c: Config, e: State, key: AlertKey, severity: Severity, t: Clock)
    requires Inv(Forever(c), e)
    ensures Outlives(Forever(c), e, key, severity, t)
  {
    if key in e.store {
      assert RecordOk(Forever(c), e, key);
    }
  }

  lemma SameIssue(c: Config, s: State, e: State, key: AlertKey, severity: Severity, t: Clock)
    requires Inv(c, s) && Inv(Forever(c), e) && SameButExpiry(s, e)
    requires t.Ordered() && Outlives(c, s, key, severity, t)
    ensures SameButExpiry(Generate(c, s, key, severity, t), Generate(Forever(c), e, key, severity, t))
  {
    hide Generate, Inv, OutcomeOf, Nominal, CreateNew, SameButExpiry, Outlives;
    SameDecision(c, s, e, key, severity, t);
    ForeverOutlives(c, e, key, severity, t);
    GenerateEffect(c, s, key, severity, t);
    GenerateEffect(Forever(c), e, key, severity, t);
    SameCreated(c, s, e, key, severity, t);
    var o := OutcomeOf(c, s, key, severity, t);
    if o.Updated? {
      SameUpdated(c, s, e, key, severity, o.escalated, t);
    }
  }

  lemma SameStep(c: Config, s: State, e: State, op: Op)
    requires Inv(c, s) && Inv(Forever(c), e) && SameButExpiry(s, e)
    requires Usual(c, s, op)
    ensures SameButExpiry(Do(c, s, op), Do(Forever(c), e, op))
  {
    hide Generate, Inv, Outlives;
    if op.Issue? {
      SameIssue(c, s, e, op.key, op.severity, op.clock);
    }
  }

  ghost predicate Timed(ops: seq<Op>) {
    forall i :: 0 <= i < |ops| && ops[i].Issue? ==> ops[i].clock.Ordered()
  }

  lemma ForeverIsUsual(c: Config, ops: seq<Op>)
    requires Timed(ops)
    ensures UsualRun(Forever(c), ops)
  {
    PromptRunsAreUsual(Forever(c), ops);
  }

  lemma UsualIsTimed(c: Config, ops: seq<Op>)
    requires UsualRun(c, ops)
    ensures Timed(ops)
  {
    hide Outlives;
    forall i | 0 <= i < |ops| && ops[i].Issue?
      ensures ops[i].clock.Ordered()
    {
      assert Usual(c, After(c, ops, i), ops[i]);
    }
  }

  lemma {:induction false} StoresStaySame(c: Config, ops: seq<Op>, n: nat)
    requires UsualRun(c, ops) && n <= |ops|
    ensures SameButExpiry(After(c, ops, n), After(Forever(c), ops, n))
  {
    hide Do, SameButExpiry, Inv, Usual, UsualRun, Forever;
    if n > 0 {
      StoresStaySame(c, ops, n - 1);
      UsualIsTimed(c, ops);
      ForeverIsUsual(c, ops);
      AfterStep(c, ops, n);
      AfterStep(Forever(c), ops, n);
      AlwaysInv(c, ops, n - 1);
      AlwaysInv(Forever(c), ops, n - 1);
      SameStep(c, After(c, ops, n - 1), After(Forever(c), ops, n - 1), ops[n - 1]);
    } else {
      SameAtStart();
    }
  }

  lemma SameAtStart()
    ensures SameButExpiry(EMPTY, EMPTY)
  {
  }

  /** TTL transparency: in any run in which no record expires under a call, every decision to create,
      update or escalate is the one a store whose records never expire would give, also after an
      escalation has renewed the expiry without touching the last occurrence. */
  lemma ExpiryIsTransparent(c: Config, ops: seq<Op>, i: nat)
    requires UsualRun(c, ops) && i < |ops| && ops[i].Issue?
    ensures OutcomeAt(c, ops, i) == OutcomeAt(Forever(c), ops, i)
    ensures After(c, ops, i).rows == After(Forever(c), ops, i).rows
  {
    hide After, Inv, OutcomeOf, Usual, UsualRun;
    StoresStaySame(c, ops, i);
    AlwaysInv(c, ops, i);
    UsualIsTimed(c, ops);
    ForeverIsUsual(c, ops);
    AlwaysInv(Forever(c), ops, i);
    SameDecision(c, After(c, ops, i), After(Forever(c), ops, i), ops[i].key, ops[i].severity, ops[i].clock);
  }

  // ---------------------------------------------------------------- calls that outlast their record

  /** A call whose record expires under it loses the occurrence, or the mark of the escalation. */
  lemma ExpiredCallDiffers(c: Config, s: State, e: State, key: AlertKey, severity: Severity, t: Clock)
    requires Inv(c, s) && Inv(Forever(c), e) && SameButExpiry(s, e)
    requires t.Ordered() && !Outlives(c, s, key, severity, t)
    ensures !SameButExpiry(Generate(c, s, key, severity, t), Generate(Forever(c), e, key, severity, t))
  {
    SameDecision(c, s, e, key, severity, t);
    assert RecordOk(c, s, key);
    ForeverRepeats(c, e, key, severity, t);
    ExpiredLoses(c, s, key, severity, t);
    hide Generate, Inv, OutcomeOf, Outlives, RecordOk;
  }

  lemma ForeverRepeats(c: Config, e: State, key: AlertKey, severity: Severity, t: Clock)
    requires Inv(Forever(c), e) && t.Ordered() && OutcomeOf(Forever(c), e, key, severity, t).Updated?
    ensures var o, e' := OutcomeOf(Forever(c), e, key, severity, t), Generate(Forever(c), e, key, severity, t);
            && key in e.store && key in e'.store
            && e'.store[key].info.occurrenceCount == e.store[key].info.occurrenceCount + 1
            && (o.escalated ==> e'.store[key].info.escalated && !e.store[key].info.escalated)
  {
    hide Generate, Inv, OutcomeOf, Outlives;
    ForeverOutlives(c, e, key, severity, t);
    GenerateEffect(Forever(c), e, key, severity, t);
  }

  lemma ExpiredLoses(c: Config, s: State, key: AlertKey, severity: Severity, t: Clock)
    requires Inv(c, s) && !Outlives(c, s, key, severity, t)
    ensures var o, s' := OutcomeOf(c, s, key, severity, t), Generate(c, s, key, severity, t);
            && o.Updated? && key in s.store && key in s'.store
            && (|| s'.store[key].info.occurrenceCount == s.store[key].info.occurrenceCount
                || (o.escalated && s'.store[key].info.escalated == s.store[key].info.escalated))
  {
    var o, s' := OutcomeOf(c, s, key, severity, t), Generate(c, s, key, severity, t);
    assert RecordOk(c, s, key);
    var repeated := Repeat(c, s, key, o.id, severity, t);
    assert s' == if o.escalated then Escalated(c, repeated, key, o.id, severity, t) else repeated;
    hide Inv, Generate, Decide, RecordOk;
  }

  lemma {:induction false} TransparentMeansUsual(c: Config, ops: seq<Op>, n: nat)
    requires Timed(ops) && n <= |ops|
    requires forall i :: 0 <= i <= n ==> SameButExpiry(After(c, ops, i), After(Forever(c), ops, i))
    ensures Inv(c, After(c, ops, n)) && forall i :: 0 <= i < n ==> Usual(c, After(c, ops, i), ops[i])
  {
    hide Do, Inv, SameButExpiry, Outlives, Forever, After;
    if n > 0 {
      TransparentMeansUsual(c, ops, n - 1);
      ForeverIsUsual(c, ops);
      AlwaysInv(Forever(c), ops, n - 1);
      AfterStep(c, ops, n);
      AfterStep(Forever(c), ops, n);
      var s, e, op := After(c, ops, n - 1), After(Forever(c), ops, n - 1), ops[n - 1];
      assert SameButExpiry(After(c, ops, n), After(Forever(c), ops, n));
      OnlyUsualSame(c, s, e, op);
      StepInv(c, s, op);
    } else {
      AtStart(c, ops);
      EmptyInv(c);
    }
  }

  lemma AtStart(c: Config, ops: seq<Op>)
    ensures After(c, ops, 0) == EMPTY
  {
  }

  lemma OnlyUsualSame(c: Config, s: State, e: State, op: Op)
    requires Inv(c, s) && Inv(Forever(c), e) && SameButExpiry(s, e) && (op.Issue? ==> op.clock.Ordered())
    requires SameButExpiry(Do(c, s, op), Do(Forever(c), e, op))
    ensures Usual(c, s, op)
  {
    hide Inv, SameButExpiry, Outlives, Generate, Forever;
    if op.Issue? && !Outlives(c, s, op.key, op.severity, op.clock) {
      ExpiredCallDiffers(c, s, e, op.key, op.severity, op.clock);
    }
  }

  ghost predicate StaysSame(c: Config, ops: seq<Op>) {
    forall n :: 0 <= n <= |ops| ==> SameButExpiry(After(c, ops, n), After(Forever(c), ops, n))
  }

  /** Exactly when expiry cannot be told: a run agrees with the store that never expires, in rows,
      silences and records after every operation, iff no record expires under a call. */
  lemma TransparentIff(c: Config, ops: seq<Op>)
    requires Timed(ops)
    ensures StaysSame(c, ops) <==> UsualRun(c, ops)
  {
    hide SameButExpiry, Inv, Outlives, Do;
    if UsualRun(c, ops) {
      forall n | 0 <= n <= |ops|
        ensures SameButExpiry(After(c, ops, n), After(Forever(c), ops, n))
      {
        StoresStaySame(c, ops, n);
      }
    }
    if StaysSame(c, ops) {
      TransparentMeansUsual(c, ops, |ops|);
    }
  }

  /** For one call of any duration: the expiring store ends in the reference state iff the record it
      decided on is still there when the occurrence is recorded and when the escalation is marked. */
  lemma SlowCallDiverges(c: Config, s: State, key: AlertKey, severity: Severity, t: Clock)
    requires Inv(c, s) && t.Ordered() && !IsSilent(s.silences, key, t.silent)
    requires Decide(c, s.store, key, severity, t.should).Update?
    ensures var escalate := Decide(c, s.store, key, severity, t.should).escalate;
            && key in s.store && RecordOk(c, s, key)
            && (Generate(c, s, key, severity, t) == Nominal(c, s, key, severity, escalate, t)
                <==> Before(t.record, s.store[key].expiresAt)
                     && (escalate ==> Before(t.mark, ExpiresAt(t.record, DedupeTTL(c)))))
  {
    assert RecordOk(c, s, key);
    var info := s.store[key].info;
    var id, escalate := info.alertID, Decide(c, s.store, key, severity, t.should).escalate;
    var s', nominal := Generate(c, s, key, severity, t), Nominal(c, s, key, severity, escalate, t);
    var repeated := Repeat(c, s, key, id, severity, t);
    assert s' == if escalate then Escalated(c, repeated, key, id, severity, t) else repeated;
    hide Inv, RecordOk, Generate, Decide;
    if !Before(t.record, s.store[key].expiresAt) {
      assert s'.store[key].info.occurrenceCount == info.occurrenceCount;
    } else if escalate && !Before(t.mark, ExpiresAt(t.record, DedupeTTL(c))) {
      assert s'.store[key].info.escalated == info.escalated;
    } else {
      assert s'.store == nominal.store;
      assert s'.rows == nominal.rows;
    }
  }

  // ---------------------------------------------------------------- when alerts are created

  predicate Handled(c: Config, ops: seq<Op>, i: nat, key: AlertKey)
    requires i < |ops|
  {
    ops[i].Issue? && ops[i].key == key && OutcomeAt(c, ops, i) != Silenced
  }

  /** The last handled issue of a key among the first n operations, unless a resolve came after it. */
  function LastHandled(c: Config, ops: seq<Op>, n: nat, key: AlertKey): Option<nat>
    requires n <= |ops|
  {
    if n == 0 then None
    else if ops[n - 1].ResolveKey? && ops[n - 1].key == key then None
    else if Handled(c, ops, n - 1, key) then Some(n - 1)
    else LastHandled(c, ops, n - 1, key)
  }

  /** The record of a key in a state tells the time and the alert of its last handled issue. */
  ghost predicate Tells(s: State, key: AlertKey, last: Option<(int, nat)>) {
    match last
    case None => key !in s.store
    case Some(seen) => key in s.store && s.store[key].info.lastSeenAt == seen.0 && s.store[key].info.alertID == seen.1
  }

  /** When the last handled issue of a key was recorded, and on which alert. */
  ghost function LastSeen(c: Config, ops: seq<Op>, n: nat, key: AlertKey): Option<(int, nat)>
    requires n <= |ops|
  {
    match LastHandled(c, ops, n, key)
    case None => None
    case Some(k) =>
      if k < n && Handled(c, ops, k, key) then Some((ops[k].clock.record, OutcomeAt(c, ops, k).id)) else None
  }

  lemma {:induction false} LastHandledIs(c: Config, ops: seq<Op>, n: nat, key: AlertKey)
    requires n <= |ops|
    ensures match LastHandled(c, ops, n, key)
            case None => true
            case Some(k) => k < n && Handled(c, ops, k, key)
  {
    if n > 0 {
      LastHandledIs(c, ops, n - 1, key);
    }
  }

  lemma StepTells(c: Config, s: State, op: Op, key: AlertKey, last: Option<(int, nat)>)
    requires Inv(c, s) && Tells(s, key, last)
    requires Usual(c, s, op)
    ensures Tells(Do(c, s, op), key,
              if op.ResolveKey? && op.key == key then None
              else if op.Issue? && op.key == key && OutcomeOf(c, s, key, op.severity, op.clock) != Silenced
              then Some((op.clock.record, OutcomeOf(c, s, key, op.severity, op.clock).id))
              else last)
  {
    if op.Issue? {
      GenerateEffect(c, s, op.key, op.severity, op.clock);
      hide Generate, Inv, OutcomeOf;
    }
  }

  lemma {:induction false} StoreTellsAlways(c: Config, ops: seq<Op>, n: nat, key: AlertKey)
    requires UsualRun(c, ops) && n <= |ops|
    ensures Tells(After(c, ops, n), key, LastSeen(c, ops, n, key))
  {
    hide Do, Inv, Usual, UsualRun, OutcomeOf, Tells;
    if n > 0 {
      StoreTellsAlways(c, ops, n - 1, key);
      LastHandledIs(c, ops, n - 1, key);
      AlwaysInv(c, ops, n - 1);
      AfterStep(c, ops, n);
      StepTells(c, After(c, ops, n - 1), ops[n - 1], key, LastSeen(c, ops, n - 1, key));
    } else {
      NothingTold(key);
    }
  }

  lemma NothingTold(key: AlertKey)
    ensures Tells(EMPTY, key, None)
  {
    assert EMPTY.store == map[];
  }

  /** A handled issue creates a row iff its key has no handled issue since the last resolve, or the
      last one lies more than DedupeWindow back; otherwise it updates that issue's row. */
  lemma CreatesIff(c: Config, ops: seq<Op>, i: nat)
    requires UsualRun(c, ops) && i < |ops| && ops[i].Issue?
    ensures OutcomeAt(c, ops, i) != Silenced ==>
              match LastHandled(c, ops, i, ops[i].key)
              case None => OutcomeAt(c, ops, i).Created?
              case Some(k) =>
                && k < i && Handled(c, ops, k, ops[i].key)
                && (OutcomeAt(c, ops, i).Created? <==> ops[i].clock.should - ops[k].clock.record > c.dedupeWindow)
                && (OutcomeAt(c, ops, i).Updated? ==> OutcomeAt(c, ops, i).id == OutcomeAt(c, ops, k).id)
  {
    hide After, Usual, UsualRun;
    StoreTellsAlways(c, ops, i, ops[i].key);
    LastHandledIs(c, ops, i, ops[i].key);
    AlwaysInv(c, ops, i);
    if ops[i].key in After(c, ops, i).store {
      assert RecordOk(c, After(c, ops, i), ops[i].key);
    }
  }

  /** The time of the last resolve of a key among the first n operations. */
  function LastResolve(ops: seq<Op>, n: nat, key: AlertKey): Option<int>
    requires n <= |ops|
  {
    if n == 0 then None
    else if ops[n - 1].ResolveKey? && ops[n - 1].key == key then Some(ops[n - 1].now)
    else LastResolve(ops, n - 1, key)
  }

  lemma {:induction false} SilencesTell(c: Config, ops: seq<Op>, n: nat, key: AlertKey)
    requires n <= |ops|
    ensures match LastResolve(ops, n, key)
            case None => key !in After(c, ops, n).silences
            case Some(r) => key in After(c, ops, n).silences
                            && After(c, ops, n).silences[key] == ExpiresAt(r, c.silentPeriod)
  {
    if n > 0 {
      SilencesTell(c, ops, n - 1, key);
    }
  }

  /** An issue is swallowed iff its key was resolved and less than SilentPeriod has passed since the
      last resolve; with a zero SilentPeriod a resolved key stays silent for ever. */
  lemma SilencedIff(c: Config, ops: seq<Op>, i: nat)
    requires i < |ops| && ops[i].Issue?
    ensures OutcomeAt(c, ops, i) == Silenced
       <==> match LastResolve(ops, i, ops[i].key)
            case None => false
            case Some(r) => c.silentPeriod == 0 || ops[i].clock.silent < r + c.silentPeriod
  {
    SilencesTell(c, ops, i, ops[i].key);
  }

  // ---------------------------------------------------------------- occurrences are conserved

  /** Sum of the occurrence counts of the first n rows of a key. */
  ghost function Occurrences(rows: seq<Row>, n: nat, key: AlertKey): int
    requires n <= |rows|
  {
    if n == 0 then 0
    else Occurrences(rows, n - 1, key) + if rows[n - 1].key == key then rows[n - 1].occurrenceCount else 0
  }

  ghost function HandledIssues(c: Config, ops: seq<Op>, n: nat, key: AlertKey): nat
    requires n <= |ops|
  {
    if n == 0 then 0 else HandledIssues(c, ops, n - 1, key) + if Handled(c, ops, n - 1, key) then 1 else 0
  }

  function Weight(row: Row, key: AlertKey): int {
    if row.key == key then row.occurrenceCount else 0
  }

  lemma {:induction false} OccurrencesUpdate(rows: seq<Row>, rows': seq<Row>, i: nat, n: nat, key: AlertKey)
    requires |rows'| == |rows| && i < |rows| && n <= |rows|
    requires forall j :: 0 <= j < |rows| && j != i ==> Weight(rows'[j], key) == Weight(rows[j], key)
    ensures Occurrences(rows', n, key)
         == Occurrences(rows, n, key) + if i < n then Weight(rows'[i], key) - Weight(rows[i], key) else 0
  {
    if n > 0 {
      OccurrencesUpdate(rows, rows', i, n - 1, key);
      assert n - 1 != i ==> Weight(rows'[n - 1], key) == Weight(rows[n - 1], key);
    }
  }

  lemma {:induction false} OccurrencesSame(rows: seq<Row>, rows': seq<Row>, n: nat, key: AlertKey)
    requires n <= |rows| <= |rows'|
    requires forall j :: 0 <= j < n ==> Weight(rows'[j], key) == Weight(rows[j], key)
    ensures Occurrences(rows', n, key) == Occurrences(rows, n, key)
  {
    if n > 0 {
      OccurrencesSame(rows, rows', n - 1, key);
      assert Weight(rows'[n - 1], key) == Weight(rows[n - 1], key);
    }
  }

  lemma StepOccurrences(c: Config, s: State, op: Op, key: AlertKey)
    requires Inv(c, s)
    requires Usual(c, s, op)
    ensures var s' := Do(c, s, op);
            Occurrences(s'.rows, |s'.rows|, key) == Occurrences(s.rows, |s.rows|, key)
              + if op.Issue? && op.key == key && OutcomeOf(c, s, op.key, op.severity, op.clock) != Silenced
                then 1 else 0
  {
    var s' := Do(c, s, op);
    match op
    case Issue(k, severity, t) =>
      GenerateEffect(c, s, k, severity, t);
      var o := OutcomeOf(c, s, k, severity, t);
      hide Generate, Inv, OutcomeOf;
      if o.Created? {
        OccurrencesSame(s.rows, s'.rows, |s.rows|, key);
      } else if o.Updated? {
        OccurrencesUpdate(s.rows, s'.rows, o.id, |s.rows|, key);
      }
    case _ => OccurrencesSame(s.rows, s'.rows, |s.rows|, key);
  }

  /** Conservation: for every key, the occurrence counts over all its rows add up to the issues of
      that key that no silent period swallowed. */
  lemma {:induction false} OccurrencesConserved(c: Config, ops: seq<Op>, n: nat, key: AlertKey)
    requires UsualRun(c, ops) && n <= |ops|
    ensures Occurrences(After(c, ops, n).rows, |After(c, ops, n).rows|, key) == HandledIssues(c, ops, n, key)
  {
    hide Do, Inv, Usual, UsualRun, OutcomeOf, Occurrences;
    if n > 0 {
      OccurrencesConserved(c, ops, n - 1, key);
      AlwaysInv(c, ops, n - 1);
      AfterStep(c, ops, n);
      StepOccurrences(c, After(c, ops, n - 1), ops[n - 1], key);
    } else {
      NoOccurrences(key);
    }
  }

  lemma NoOccurrences(key: AlertKey)
    ensures Occurrences(EMPTY.rows, |EMPTY.rows|, key) == 0
  {
    assert EMPTY.rows == [];
  }
}
