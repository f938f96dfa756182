/** How often an alert row is escalated, and when its stored severity can fall. */
module AlertSeverity {
  import opened Deduplication
  import opened AlertGenerator

  // ---------------------------------------------------------------- each alert escalates once

  predicate Escalates(c: Config, s: State, op: Op, id: nat) {
    op.Issue? && OutcomeOf(c, s, op.key, op.severity, op.clock) == Updated(id, true)
  }

  /** How many of the first n operations escalate alert id. */
  ghost function Escalations(c: Config, ops: seq<Op>, n: nat, id: nat): nat
    requires n <= |ops|
  {
    if n == 0 then 0
    else Escalations(c, ops, n - 1, id) + if Escalates(c, After(c, ops, n - 1), ops[n - 1], id) then 1 else 0
  }

  /** The record of a live alert says whether it has been escalated. */
  ghost predicate EscalationsFit(s: State, id: nat, escalations: nat) {
    && escalations <= 1
    && (id >= |s.rows| ==> escalations == 0)
    && (id < |s.rows| && s.rows[id].key in s.store && s.store[s.rows[id].key].info.alertID == id
        ==> escalations == if s.store[s.rows[id].key].info.escalated then 1 else 0)
  }

  lemma StepEscalations(c: Config, s: State, op: Op, id: nat, escalations: nat)
    requires Inv(c, s) && EscalationsFit(s, id, escalations) && Usual(c, s, op)
    ensures EscalationsFit(Do(c, s, op), id, escalations + if Escalates(c, s, op, id) then 1 else 0)
  {
    if op.Issue? {
      GenerateEffect(c, s, op.key, op.severity, op.clock);
      hide Generate, OutcomeOf;
    }
  }

  lemma {:induction false} EscalationsAlwaysFit(c: Config, ops: seq<Op>, n: nat, id: nat)
    requires UsualRun(c, ops) && n <= |ops|
    ensures EscalationsFit(After(c, ops, n), id, Escalations(c, ops, n, id))
  {
    hide Do, Inv, Escalates, EscalationsFit, Usual, UsualRun;
    if n > 0 {
      EscalationsAlwaysFit(c, ops, n - 1, id);
      AlwaysInv(c, ops, n - 1);
      AfterStep(c, ops, n);
      StepEscalations(c, After(c, ops, n - 1), ops[n - 1], id, Escalations(c, ops, n - 1, id));
    } else {
      NoneAtStart(id);
    }
  }

  lemma NoneAtStart(id: nat)
    ensures EscalationsFit(EMPTY, id, 0)
  {
  }

  /** In any run in which no record expires under a call, an alert is escalated at most once, and the escalating update
      leaves its occurrence count above the threshold. */
  lemma EscalatedAtMostOnce(c: Config, ops: seq<Op>, n: nat, id: nat)
    requires UsualRun(c, ops) && n <= |ops|
    ensures Escalations(c, ops, n, id) <= 1
    ensures forall i :: 0 <= i < n && Escalates(c, After(c, ops, i), ops[i], id) ==>
              id < |After(c, ops, i + 1).rows| && After(c, ops, i + 1).rows[id].occurrenceCount > c.escalationThreshold
  {
    EscalationsAlwaysFit(c, ops, n, id);
    forall i | 0 <= i < n && Escalates(c, After(c, ops, i), ops[i], id)
      ensures id < |After(c, ops, i + 1).rows|
      ensures After(c, ops, i + 1).rows[id].occurrenceCount > c.escalationThreshold
    {
      AlwaysInv(c, ops, i);
      EscalationPassesThreshold(c, After(c, ops, i), ops[i], id);
    }
  }

  /** An update escalates iff its alert has not been escalated before, the issue is not critical and
      the alert's occurrence count has reached the threshold. */
  lemma UpdateEscalatesIff(c: Config, ops: seq<Op>, i: nat)
    requires UsualRun(c, ops) && i < |ops| && ops[i].Issue? && OutcomeAt(c, ops, i).Updated?
    ensures var id, rows := OutcomeAt(c, ops, i).id, After(c, ops, i).rows;
            && id < |rows|
            && (OutcomeAt(c, ops, i).escalated
                <==> && Escalations(c, ops, i, id) == 0 && ops[i].severity != Critical
                     && rows[id].occurrenceCount >= c.escalationThreshold)
  {
    hide Inv, UsualRun, OutcomeOf, After, Generate, Escalations;
    var s := After(c, ops, i);
    AlwaysInv(c, ops, i);
    AfterStep(c, ops, i + 1);
    GenerateEffect(c, s, ops[i].key, ops[i].severity, ops[i].clock);
    EscalationsAlwaysFit(c, ops, i, OutcomeAt(c, ops, i).id);
  }

  lemma EscalationPassesThreshold(c: Config, s: State, op: Op, id: nat)
    requires Inv(c, s) && Escalates(c, s, op, id) && Usual(c, s, op)
    ensures id < |Do(c, s, op).rows| && Do(c, s, op).rows[id].occurrenceCount > c.escalationThreshold
  {
    GenerateEffect(c, s, op.key, op.severity, op.clock);
    hide Generate, OutcomeOf;
  }

  // ---------------------------------------------------------------- when severity never falls

  /** The severities an issue of each key may carry. */
  type Alphabet = AlertKey -> set<Severity>

  ghost predicate Uses(ops: seq<Op>, alphabet: Alphabet) {
    forall i :: 0 <= i < |ops| && ops[i].Issue? ==> ops[i].severity in alphabet(ops[i].key)
  }

  /** Any two severities of a key are at most one rank apart. */
  ghost predicate Narrow(alphabet: Alphabet) {
    forall key, a, b :: a in alphabet(key) && b in alphabet(key) ==> Rank(a) <= Rank(b) + 1
  }

  ghost predicate NotLower(rows: seq<Row>, rows': seq<Row>) {
    |rows| <= |rows'| && forall id :: 0 <= id < |rows| ==> Rank(rows[id].severity) <= Rank(rows'[id].severity)
  }

  ghost predicate NeverFalls(c: Config, ops: seq<Op>) {
    forall n :: 0 <= n < |ops| ==> NotLower(After(c, ops, n).rows, After(c, ops, n + 1).rows)
  }

  /** A row not yet escalated has the severity of the issue that created it. */
  ghost predicate SeverityFits(s: State, alphabet: Alphabet) {
    forall key :: key in s.store && s.store[key].info.alertID < |s.rows| && !s.store[key].info.escalated ==>
      s.rows[s.store[key].info.alertID].severity in alphabet(key)
  }

  lemma RecordIs(c: Config, s: State, key: AlertKey)
    requires Inv(c, s) && key in s.store
    ensures RecordOk(c, s, key)
  {
  }

  /** The one place a severity changes: an escalation from the current issue's severity. */
  lemma IssueNotLower(c: Config, s: State, op: Op, alphabet: Alphabet)
    requires Inv(c, s) && SeverityFits(s, alphabet) && Narrow(alphabet)
    requires op.Issue? && Usual(c, s, op) && op.severity in alphabet(op.key)
    ensures NotLower(s.rows, Do(c, s, op).rows)
  {
    GenerateEffect(c, s, op.key, op.severity, op.clock);
    var o := OutcomeOf(c, s, op.key, op.severity, op.clock);
    hide Generate, OutcomeOf, Inv, Decide, RecordOk;
    if o.Updated? && o.escalated {
      assert s.rows[o.id].severity in alphabet(op.key);
      assert Rank(s.rows[o.id].severity) <= Rank(op.severity) + 1;
    }
  }

  lemma IssueSeverity(c: Config, s: State, op: Op, alphabet: Alphabet)
    requires Inv(c, s) && SeverityFits(s, alphabet)
    requires op.Issue? && Usual(c, s, op) && op.severity in alphabet(op.key)
    ensures SeverityFits(Do(c, s, op), alphabet)
  {
    var s' := Do(c, s, op);
    GenerateEffect(c, s, op.key, op.severity, op.clock);
    hide Generate, OutcomeOf, Inv, Decide;
    forall key | key in s'.store && s'.store[key].info.alertID < |s'.rows| && !s'.store[key].info.escalated
      ensures s'.rows[s'.store[key].info.alertID].severity in alphabet(key)
    {
      if key in s.store {
        RecordIs(c, s, key);
      }
    }
  }

  lemma StepSeverity(c: Config, s: State, op: Op, alphabet: Alphabet)
    requires Inv(c, s) && SeverityFits(s, alphabet) && Narrow(alphabet)
    requires Usual(c, s, op) && (op.Issue? ==> op.severity in alphabet(op.key))
    ensures SeverityFits(Do(c, s, op), alphabet) && NotLower(s.rows, Do(c, s, op).rows)
  {
    if op.Issue? {
      IssueNotLower(c, s, op, alphabet);
      IssueSeverity(c, s, op, alphabet);
    } else {
      hide Generate;
      forall key | key in s.store
        ensures RecordOk(c, s, key)
      {
      }
    }
  }

  lemma {:induction false} SeverityAlwaysFits(c: Config, ops: seq<Op>, n: nat, alphabet: Alphabet)
    requires UsualRun(c, ops) && Uses(ops, alphabet) && Narrow(alphabet) && n <= |ops|
    ensures SeverityFits(After(c, ops, n), alphabet)
  {
    hide Do, Inv, SeverityFits, Usual, UsualRun, Uses, Narrow;
    if n > 0 {
      SeverityAlwaysFits(c, ops, n - 1, alphabet);
      AlwaysInv(c, ops, n - 1);
      AfterStep(c, ops, n);
      UsesAt(ops, n - 1, alphabet);
      StepSeverity(c, After(c, ops, n - 1), ops[n - 1], alphabet);
    } else {
      FitsAtStart(alphabet);
    }
  }

  lemma FitsAtStart(alphabet: Alphabet)
    ensures SeverityFits(EMPTY, alphabet)
  {
    assert EMPTY.store == map[];
  }

  lemma UsesAt(ops: seq<Op>, i: nat, alphabet: Alphabet)
    requires Uses(ops, alphabet) && i < |ops|
    ensures ops[i].Issue? ==> ops[i].severity in alphabet(ops[i].key)
  {
  }

  lemma NarrowNeverFalls(c: Config, ops: seq<Op>, alphabet: Alphabet)
    requires UsualRun(c, ops) && Uses(ops, alphabet) && Narrow(alphabet)
    ensures NeverFalls(c, ops)
  {
    hide Do, Inv, SeverityFits, NotLower, Usual, UsualRun, Uses, Narrow, After;
    forall n | 0 <= n < |ops|
      ensures NotLower(After(c, ops, n).rows, After(c, ops, n + 1).rows)
    {
      SeverityAlwaysFits(c, ops, n, alphabet);
      AlwaysInv(c, ops, n);
      AfterStep(c, ops, n + 1);
      UsesAt(ops, n, alphabet);
      StepSeverity(c, After(c, ops, n), ops[n], alphabet);
    }
  }

  const AT_ZERO := Clock(0, 0, 0, 0, 0)

  /** One issue of severity a, then as many of severity b as it takes to escalate, all at once. */
  function FallingRun(c: Config, key: AlertKey, a: Severity, b: Severity): (ops: seq<Op>)
    ensures |ops| >= 2
  {
    [Issue(key, a, AT_ZERO)]
    + seq(if c.escalationThreshold <= 1 then 1 else c.escalationThreshold, i => Issue(key, b, AT_ZERO))
  }

  /** One row of severity a, seen n times, not escalated. */
  ghost predicate SeenTimes(s: State, key: AlertKey, a: Severity, n: nat) {
    && s.silences == map[] && s.rows == [Row(key, a, Active, n)]
    && key in s.store && !s.store[key].info.escalated && s.store[key].info.occurrenceCount == n
    && s.store[key].info.alertID == 0 && s.store[key].info.lastSeenAt == 0
  }

  lemma SeenOnceMore(c: Config, s: State, key: AlertKey, a: Severity, b: Severity, n: nat)
    requires Inv(c, s) && SeenTimes(s, key, a, n) && b != Critical
    ensures var s' := Do(c, s, Issue(key, b, AT_ZERO));
            if n < c.escalationThreshold then SeenTimes(s', key, a, n + 1)
            else |s'.rows| == 1 && s'.rows[0].severity == EscalateSeverity(b)
  {
    RecordIs(c, s, key);
    GenerateEffect(c, s, key, b, AT_ZERO);
    assert OutcomeOf(c, s, key, b, AT_ZERO).Updated?;
    hide Generate, OutcomeOf, Inv;
  }

  lemma FallingRunIsUsual(c: Config, key: AlertKey, a: Severity, b: Severity)
    ensures UsualRun(c, FallingRun(c, key, a, b))
  {
    PromptRunsAreUsual(c, FallingRun(c, key, a, b));
  }

  lemma {:induction false} BeforeTheFall(c: Config, key: AlertKey, a: Severity, b: Severity, n: nat)
    requires 1 <= n < |FallingRun(c, key, a, b)| && b != Critical
    ensures SeenTimes(After(c, FallingRun(c, key, a, b), n), key, a, n)
  {
    hide Do, Inv, SeenTimes, Usual, UsualRun, After;
    var ops := FallingRun(c, key, a, b);
    FallingRunIs(c, key, a, b, n - 1);
    hide FallingRun;
    if n == 1 {
      FirstOfFall(c, ops, key, a);
    } else {
      BeforeTheFall(c, key, a, b, n - 1);
      FallingRunIsUsual(c, key, a, b);
      AlwaysInv(c, ops, n - 1);
      AfterStep(c, ops, n);
      SeenOnceMore(c, After(c, ops, n - 1), key, a, b, n - 1);
    }
  }

  lemma FallingRunIs(c: Config, key: AlertKey, a: Severity, b: Severity, i: nat)
    requires i < |FallingRun(c, key, a, b)|
    ensures FallingRun(c, key, a, b)[i] == Issue(key, if i == 0 then a else b, AT_ZERO)
    ensures 0 < i < |FallingRun(c, key, a, b)| - 1 ==> i < c.escalationThreshold
    ensures i == |FallingRun(c, key, a, b)| - 1 > 0 ==> i >= c.escalationThreshold
  {
  }

  lemma FirstOfFall(c: Config, ops: seq<Op>, key: AlertKey, a: Severity)
    requires |ops| > 0 && ops[0] == Issue(key, a, AT_ZERO)
    ensures SeenTimes(After(c, ops, 1), key, a, 1)
  {
    assert After(c, ops, 0) == EMPTY;
  }

  lemma WideFalls(c: Config, key: AlertKey, a: Severity, b: Severity)
    requires Rank(a) > Rank(b) + 1
    ensures UsualRun(c, FallingRun(c, key, a, b)) && !NeverFalls(c, FallingRun(c, key, a, b))
  {
    hide Do, Inv, Usual, UsualRun, After;
    var ops := FallingRun(c, key, a, b);
    var n := |ops| - 1;
    FallingRunIs(c, key, a, b, n);
    hide FallingRun;
    FallingRunIsUsual(c, key, a, b);
    AlwaysInv(c, ops, n);
    BeforeTheFall(c, key, a, b, n);
    AfterStep(c, ops, n + 1);
    SeenOnceMore(c, After(c, ops, n), key, a, b, n);
    assert !NotLower(After(c, ops, n).rows, After(c, ops, n + 1).rows);
  }

  /** Escalation starts from the severity of the current issue, not of the stored alert. So a stored
      severity never falls, whatever the run, iff no two severities a key can carry are more than
      one rank apart. */
  lemma NeverFallsIffNarrow(c: Config, alphabet: Alphabet)
    ensures (forall ops :: UsualRun(c, ops) && Uses(ops, alphabet) ==> NeverFalls(c, ops)) <==> Narrow(alphabet)
  {
    if Narrow(alphabet) {
      forall ops | UsualRun(c, ops) && Uses(ops, alphabet)
        ensures NeverFalls(c, ops)
      {
        NarrowNeverFalls(c, ops, alphabet);
      }
    } else {
      var key, a, b :| a in alphabet(key) && b in alphabet(key) && Rank(a) > Rank(b) + 1;
      WideFalls(c, key, a, b);
      assert Uses(FallingRun(c, key, a, b), alphabet);
    }
  }
}
