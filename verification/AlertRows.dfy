/** What issues, resolves and operators do to the alert rows, over runs. */
module AlertRows {
  import opened Wrappers
  import opened Deduplication
  import opened AlertGenerator

  // ---------------------------------------------------------------- one operation

  /** A resolve closes every active row of its key and leaves all other rows as they are. */
  lemma ResolveCloses(c: Config, ops: seq<Op>, i: nat, id: nat)
    requires i < |ops| && ops[i].ResolveKey? && id < |After(c, ops, i).rows|
    ensures var before, now := After(c, ops, i).rows, After(c, ops, i + 1).rows;
            && |now| == |before|
            && (now[id].key == ops[i].key ==> now[id].status != Active)
            && (before[id].key == ops[i].key && before[id].status == Active ==>
                  now[id] == before[id].(status := Resolved))
            && (before[id].key != ops[i].key || before[id].status != Active ==> now[id] == before[id])
  {
    hide Generate;
  }

  /** An operator changes the status of one row. */
  lemma OperatorSets(c: Config, ops: seq<Op>, i: nat, id: nat)
    requires i < |ops| && ops[i].SetStatus? && id < |After(c, ops, i).rows|
    ensures var before, now := After(c, ops, i).rows, After(c, ops, i + 1).rows;
            |now| == |before| && now[id] == if id == ops[i].id then before[id].(status := ops[i].status) else before[id]
  {
    hide Generate;
  }

  /** A swallowed issue changes no row. A created alert is one more row, active, seen once, with the
      severity of the issue. An updated one is seen once more; an escalation raises the issue's
      severity by one rank and puts that into the row; all else stays. */
  lemma IssueChangesRows(c: Config, ops: seq<Op>, i: nat)
    requires UsualRun(c, ops) && i < |ops| && ops[i].Issue?
    ensures var before, now, issue := After(c, ops, i).rows, After(c, ops, i + 1).rows, ops[i];
            match OutcomeAt(c, ops, i)
            case Silenced => now == before
            case Created(id) => id == |before| && now == before + [Row(issue.key, issue.severity, Active, 1)]
            case Updated(id, escalated) =>
              && id < |before| == |now|
              && (forall j :: 0 <= j < |before| && j != id ==> now[j] == before[j])
              && now[id].key == before[id].key == issue.key && now[id].status == before[id].status
              && now[id].occurrenceCount == before[id].occurrenceCount + 1
              && (!escalated ==> now[id].severity == before[id].severity)
              && (escalated ==> Rank(now[id].severity) == Rank(issue.severity) + 1)
  {
    hide Inv, Usual, UsualRun, OutcomeOf, Generate;
    AlwaysInv(c, ops, i);
    AfterStep(c, ops, i + 1);
    UsualCall(c, After(c, ops, i), ops[i]);
    GenerateEffect(c, After(c, ops, i), ops[i].key, ops[i].severity, ops[i].clock);
    DoIssue(c, After(c, ops, i), ops[i]);
    hide After;
  }

  lemma UsualCall(c: Config, s: State, op: Op)
    requires Usual(c, s, op) && op.Issue?
    ensures op.clock.Ordered() && Outlives(c, s, op.key, op.severity, op.clock)
  {
  }

  lemma DoIssue(c: Config, s: State, op: Op)
    requires op.Issue?
    ensures Do(c, s, op) == Generate(c, s, op.key, op.severity, op.clock)
  {
    hide Generate;
  }

  // ---------------------------------------------------------------- when a row is active

  /** Rows are only added, and none ever changes its key. */
  lemma KeyStays(c: Config, s: State, op: Op, id: nat)
    requires id < |s.rows|
    ensures id < |Do(c, s, op).rows| && Do(c, s, op).rows[id].key == s.rows[id].key
  {
  }

  lemma {:induction false} KeyStaysForever(c: Config, ops: seq<Op>, i: nat, n: nat, id: nat)
    requires i <= n <= |ops| && id < |After(c, ops, i).rows|
    ensures id < |After(c, ops, n).rows| && After(c, ops, n).rows[id].key == After(c, ops, i).rows[id].key
  {
    hide Do;
    if i < n {
      KeyStaysForever(c, ops, i, n - 1, id);
      KeyStays(c, After(c, ops, n - 1), ops[n - 1], id);
    }
  }

  /** Operation i makes row id active: it creates the row, or an operator sets it. */
  ghost predicate Activates(c: Config, ops: seq<Op>, i: nat, id: nat)
    requires i < |ops|
  {
    || |After(c, ops, i).rows| == id < |After(c, ops, i + 1).rows|
    || (ops[i].SetStatus? && ops[i].id == id && ops[i].status == Active && id < |After(c, ops, i).rows|)
  }

  /** Operation i takes row id of the key out of the active ones: a resolve, or an operator. */
  predicate Deactivates(ops: seq<Op>, i: nat, id: nat, key: AlertKey)
    requires i < |ops|
  {
    || (ops[i].ResolveKey? && ops[i].key == key)
    || (ops[i].SetStatus? && ops[i].id == id && ops[i].status != Active)
  }

  /** What one operation does to the activity of a row. */
  lemma StepActive(c: Config, s: State, op: Op, id: nat)
    requires id < |Do(c, s, op).rows|
    ensures id >= |s.rows| ==> id == |s.rows| && Do(c, s, op).rows[id].status == Active && op.Issue?
    ensures id < |s.rows| ==>
              (Do(c, s, op).rows[id].status == Active
               <==> if op.SetStatus? && op.id == id then op.status == Active
                    else s.rows[id].status == Active && !(op.ResolveKey? && op.key == s.rows[id].key))
  {
  }

  ghost predicate ActiveSince(c: Config, ops: seq<Op>, i: nat, n: nat, id: nat, key: AlertKey)
    requires i < n <= |ops|
  {
    Activates(c, ops, i, id) && forall j :: i < j < n ==> !Deactivates(ops, j, id, key)
  }

  lemma {:induction false} ActiveHasCause(c: Config, ops: seq<Op>, n: nat, id: nat) returns (i: nat)
    requires n <= |ops| && id < |After(c, ops, n).rows| && After(c, ops, n).rows[id].status == Active
    ensures i < n && ActiveSince(c, ops, i, n, id, After(c, ops, n).rows[id].key)
  {
    hide Do;
    assert After(c, ops, 0) == EMPTY;
    assert n > 0;
    var s, op := After(c, ops, n - 1), ops[n - 1];
    StepActive(c, s, op, id);
    if id >= |s.rows| || (op.SetStatus? && op.id == id) {
      i := n - 1;
      assert Activates(c, ops, i, id);
    } else {
      KeyStays(c, s, op, id);
      i := ActiveHasCause(c, ops, n - 1, id);
    }
  }

  lemma {:induction false} CauseKeepsActive(c: Config, ops: seq<Op>, i: nat, n: nat, id: nat)
    requires i < n <= |ops| && id < |After(c, ops, n).rows|
    requires ActiveSince(c, ops, i, n, id, After(c, ops, n).rows[id].key)
    ensures After(c, ops, n).rows[id].status == Active
  {
    hide Do;
    assert Activates(c, ops, i, id);
    var s, op := After(c, ops, n - 1), ops[n - 1];
    StepActive(c, s, op, id);
    if i < n - 1 {
      if id < |After(c, ops, i).rows| {
        KeyStays(c, After(c, ops, i), ops[i], id);
      }
      KeyStaysForever(c, ops, i + 1, n - 1, id);
      KeyStays(c, s, op, id);
      assert !Deactivates(ops, n - 1, id, s.rows[id].key);
      CauseKeepsActive(c, ops, i, n - 1, id);
    }
  }

  /** Over any run: a row is active iff it was created, or set active by an operator, and since then
      neither has its key been resolved nor an operator given it another status. */
  lemma ActiveIff(c: Config, ops: seq<Op>, n: nat, id: nat)
    requires n <= |ops| && id < |After(c, ops, n).rows|
    ensures After(c, ops, n).rows[id].status == Active
       <==> exists i :: 0 <= i < n && ActiveSince(c, ops, i, n, id, After(c, ops, n).rows[id].key)
  {
    hide After, ActiveSince;
    if After(c, ops, n).rows[id].status == Active {
      var i := ActiveHasCause(c, ops, n, id);
    }
    if i :| 0 <= i < n && ActiveSince(c, ops, i, n, id, After(c, ops, n).rows[id].key) {
      CauseKeepsActive(c, ops, i, n, id);
    }
  }

  // ---------------------------------------------------------------- records

  /** The record of a key keeps the severity of the last handled issue and, from creation on, the time
      of the first; it is there for twice the window from when it was last written. */
  lemma RecordKeepsLast(c: Config, ops: seq<Op>, i: nat)
    requires UsualRun(c, ops) && i < |ops| && ops[i].Issue? && OutcomeAt(c, ops, i) != Silenced
    ensures var before, now, issue := After(c, ops, i).store, After(c, ops, i + 1).store, ops[i];
            && issue.key in now && now[issue.key].info.currentSeverity == issue.severity
            && now[issue.key].info.lastSeenAt == issue.clock.record
            && now[issue.key].expiresAt == RenewedUntil(c,
                 if OutcomeAt(c, ops, i).Updated? && OutcomeAt(c, ops, i).escalated then issue.clock.mark
                 else issue.clock.record)
            && (OutcomeAt(c, ops, i).Created? ==> now[issue.key].info.firstSeenAt == issue.clock.record)
            && (OutcomeAt(c, ops, i).Updated? ==>
                  issue.key in before && now[issue.key].info.firstSeenAt == before[issue.key].info.firstSeenAt)
            && forall key :: key != issue.key ==>
                 (key in now <==> key in before) && (key in now ==> now[key] == before[key])
  {
    hide Inv, Usual, UsualRun, OutcomeOf, Generate;
    AlwaysInv(c, ops, i);
    AfterStep(c, ops, i + 1);
    UsualCall(c, After(c, ops, i), ops[i]);
    GenerateEffect(c, After(c, ops, i), ops[i].key, ops[i].severity, ops[i].clock);
    DoIssue(c, After(c, ops, i), ops[i]);
    hide After;
  }
}
