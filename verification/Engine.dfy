/** The rule engine: one Process call per alert event, and the escalation timers it keeps. Clock
    readings are parameters; sending notifications is outside the model. */
module Engine {
  import opened Wrappers
  import opened RuleTypes
  import Matcher
  import SlidingWindow

  // ---------------------------------------------------------------- escalation timers

  /** The timer of one alert. It belongs to the rule that started it. */
  datatype Timer = Timer(ruleID: string, firstTriggered: int, lastNotified: int, repeatCount: nat)

  type Timers = map<nat, Timer>

  function FindRule(rules: seq<Rule>, id: string): Option<Rule> {
    if rules == [] then None
    else if rules[0].id == id then Some(rules[0])
    else FindRule(rules[1..], id)
  }

  /** The escalation settings a timer runs under: those of its rule, as long as they are enabled. */
  function SettingsOf(rules: seq<Rule>, ruleID: string): Option<Escalation> {
    match FindRule(rules, ruleID)
    case None => None
    case Some(rule) => if rule.escalation.Some? && rule.escalation.value.enabled then rule.escalation else None
  }

  predicate DueUnder(e: Escalation, timer: Timer, now: int) {
    && now - timer.firstTriggered >= e.waitDuration
    && (e.repeatInterval > 0 ==>
          && now - timer.lastNotified >= e.repeatInterval
          && !(e.maxRepeat > 0 && timer.repeatCount >= e.maxRepeat))
  }

  predicate Due(rules: seq<Rule>, timer: Timer, now: int) {
    SettingsOf(rules, timer.ruleID).Some? && DueUnder(SettingsOf(rules, timer.ruleID).value, timer, now)
  }

  /** A rule's claim on an alert without a timer: its id and the two clock readings of a new timer. */
  datatype Offer = Offer(ruleID: string, first: int, last: int)

  /** One Process call as the timers see it: whether the alert is acknowledged or resolved, whether
      any rule matched, which rule would own a new timer, and when the timers are looked at. */
  datatype Call = Call(alert: nat, ended: bool, matched: bool, owner: Option<Offer>, now: int)

  function Open(timers: Timers, alert: nat, owner: Option<Offer>): Timers {
    if owner.Some? && alert !in timers
    then timers[alert := Timer(owner.value.ruleID, owner.value.first, owner.value.last, 0)]
    else timers
  }

  function Escalate(rules: seq<Rule>, timers: Timers, alert: nat, ended: bool, now: int): Timers {
    if alert !in timers then timers
    else if ended then timers - {alert}
    else if Due(rules, timers[alert], now)
    then timers[alert := timers[alert].(lastNotified := now, repeatCount := timers[alert].repeatCount + 1)]
    else timers
  }

  function Next(rules: seq<Rule>, timers: Timers, call: Call): Timers {
    if !call.matched then timers
    else Escalate(rules, Open(timers, call.alert, call.owner), call.alert, call.ended, call.now)
  }

  function After(rules: seq<Rule>, calls: seq<Call>, n: nat): Timers
    requires n <= |calls|
  {
    if n == 0 then map[] else Next(rules, After(rules, calls, n - 1), calls[n - 1])
  }

  // ---------------------------------------------------------------- what a call does to timers

  /** The rule a timer runs under is the first one with its id; there is none iff no rule has it. */
  lemma {:induction false} FindRuleIsFirst(rules: seq<Rule>, id: string)
    ensures match FindRule(rules, id)
            case None => forall i :: 0 <= i < |rules| ==> rules[i].id != id
            case Some(rule) =>
              exists i :: 0 <= i < |rules| && rules[i] == rule && rule.id == id
                && forall j :: 0 <= j < i ==> rules[j].id != id
  {
    if rules != [] && rules[0].id != id {
      FindRuleIsFirst(rules[1..], id);
      assert forall j :: 1 <= j < |rules| ==> rules[j] == rules[1..][j - 1];
      if FindRule(rules, id).Some? {
        var i :| 0 <= i < |rules| - 1 && rules[1..][i] == FindRule(rules, id).value
                 && forall j :: 0 <= j < i ==> rules[1..][j].id != id;
        assert rules[i + 1] == FindRule(rules, id).value;
        assert forall j :: 0 <= j < i + 1 ==> rules[j].id != id;
      }
    }
  }

  /** The first rule with an id, seen from its place. */
  lemma {:induction false} FirstIsFound(rules: seq<Rule>, r: nat)
    requires r < |rules| && forall j :: 0 <= j < r ==> rules[j].id != rules[r].id
    ensures FindRule(rules, rules[r].id) == Some(rules[r])
  {
    if r > 0 {
      assert rules[1..][r - 1] == rules[r];
      assert forall j :: 0 <= j < r - 1 ==> rules[1..][j] == rules[j + 1];
      assert rules[0].id != rules[r].id;
      FirstIsFound(rules[1..], r - 1);
    }
  }

  /** A call touches no timer but its alert's, and none at all when no rule matches. */
  lemma OthersKeepTimers(rules: seq<Rule>, timers: Timers, call: Call, alert: nat)
    requires alert != call.alert || !call.matched
    ensures alert in Next(rules, timers, call) <==> alert in timers
    ensures alert in timers ==> Next(rules, timers, call)[alert] == timers[alert]
  {
    hide Due;
  }

  /** An active, matched alert without a timer gets one iff some rule offers it, started at the
      offer's reading; one that has a timer keeps its rule and its start. */
  lemma TimerOwner(rules: seq<Rule>, timers: Timers, call: Call)
    requires call.matched && !call.ended
    ensures var next := Next(rules, timers, call);
            && (call.alert in next <==> call.alert in timers || call.owner.Some?)
            && (call.alert in timers ==>
                  && next[call.alert].ruleID == timers[call.alert].ruleID
                  && next[call.alert].firstTriggered == timers[call.alert].firstTriggered)
            && (call.alert !in timers && call.owner.Some? ==>
                  && next[call.alert].ruleID == call.owner.value.ruleID
                  && next[call.alert].firstTriggered == call.owner.value.first)
  {
    hide Due;
  }

  /** What the timer of a call's alert was before its escalation is looked at. */
  function TimerAt(timers: Timers, call: Call): Timer
    requires call.alert in timers || call.owner.Some?
  {
    if call.alert in timers then timers[call.alert]
    else Timer(call.owner.value.ruleID, call.owner.value.first, call.owner.value.last, 0)
  }

  /** One matched call for an active alert whose timer runs under the first rule with its id: the
      repeat count goes up, by one and with the time noted, iff escalation is enabled, the wait is
      over and, with a positive interval, that has passed too and a positive maximum is not reached. */
  lemma CallEscalatesIff(rules: seq<Rule>, timers: Timers, call: Call, r: nat)
    requires call.matched && !call.ended && (call.alert in timers || call.owner.Some?)
    requires r < |rules| && rules[r].id == TimerAt(timers, call).ruleID
    requires forall j :: 0 <= j < r ==> rules[j].id != rules[r].id
    ensures var timer, next, rule := TimerAt(timers, call), Next(rules, timers, call), rules[r];
            && call.alert in next
            && (next[call.alert].repeatCount == timer.repeatCount + 1
                <==> && rule.escalation.Some? && rule.escalation.value.enabled
                     && var e := rule.escalation.value;
                        && call.now >= timer.firstTriggered + e.waitDuration
                        && (|| e.repeatInterval <= 0
                            || (&& call.now >= timer.lastNotified + e.repeatInterval
                                && (e.maxRepeat <= 0 || timer.repeatCount < e.maxRepeat))))
            && (next[call.alert].repeatCount == timer.repeatCount + 1 ==>
                  next[call.alert] == Timer(timer.ruleID, timer.firstTriggered, call.now, timer.repeatCount + 1))
            && (next[call.alert].repeatCount != timer.repeatCount + 1 ==> next[call.alert] == timer)
  {
    FirstIsFound(rules, r);
    hide FindRule;
  }

  /** A timer whose rule is gone stays as it is. */
  lemma OrphanNeverEscalates(rules: seq<Rule>, timers: Timers, call: Call)
    requires call.matched && !call.ended && call.alert in timers
    requires forall j :: 0 <= j < |rules| ==> rules[j].id != timers[call.alert].ruleID
    ensures call.alert in Next(rules, timers, call) && Next(rules, timers, call)[call.alert] == timers[call.alert]
  {
    FindRuleIsFirst(rules, timers[call.alert].ruleID);
    hide FindRule;
  }

  /** An acknowledged or resolved alert loses its timer in a call iff some rule still matches it;
      when none does, a timer it has stays. */
  lemma EndedClearsIff(rules: seq<Rule>, timers: Timers, call: Call)
    requires call.ended
    ensures call.alert !in Next(rules, timers, call) <==> call.matched || call.alert !in timers
  {
  }

  /** Calls i to n - 1 for this alert find it acknowledged or resolved. */
  ghost predicate EndedThroughout(calls: seq<Call>, i: nat, n: nat, alert: nat)
    requires i <= n <= |calls|
  {
    forall j :: i <= j < n && calls[j].alert == alert ==> calls[j].ended
  }

  /** Some rule matches the alert in one of these calls. */
  ghost predicate MatchedOnce(calls: seq<Call>, i: nat, n: nat, alert: nat)
    requires i <= n <= |calls|
  {
    exists j :: i <= j < n && calls[j].alert == alert && calls[j].matched
  }

  /** From the moment an alert is acknowledged or resolved on, through any run of calls for it and for
      others, it has a timer iff it had one and no rule has matched it since; and that timer is the
      one it had. */
  lemma {:induction false} EndedKeepsTimerIff(rules: seq<Rule>, calls: seq<Call>, i: nat, n: nat, alert: nat)
    requires i <= n <= |calls| && EndedThroughout(calls, i, n, alert)
    ensures alert in After(rules, calls, n)
       <==> alert in After(rules, calls, i) && !MatchedOnce(calls, i, n, alert)
    ensures alert in After(rules, calls, n) ==> After(rules, calls, n)[alert] == After(rules, calls, i)[alert]
  {
    hide Due;
    if i < n {
      EndedKeepsTimerIff(rules, calls, i, n - 1, alert);
      MatchedOnceMore(calls, i, n, alert);
      hide MatchedOnce;
    }
  }

  lemma MatchedOnceMore(calls: seq<Call>, i: nat, n: nat, alert: nat)
    requires i < n <= |calls|
    ensures MatchedOnce(calls, i, n, alert)
       <==> MatchedOnce(calls, i, n - 1, alert) || (calls[n - 1].alert == alert && calls[n - 1].matched)
  {
    if calls[n - 1].alert == alert && calls[n - 1].matched {
      assert MatchedOnce(calls, i, n, alert);
    }
  }

  /** Readings of one call come in order, and calls follow each other. */
  ghost predicate InOrder(calls: seq<Call>) {
    && (forall i :: 0 <= i < |calls| && calls[i].owner.Some? ==>
          calls[i].owner.value.first <= calls[i].owner.value.last <= calls[i].now)
    && forall i, j :: 0 <= i < j < |calls| ==> calls[i].now <= calls[j].now
  }

  /** Whether call i of a run escalates its alert. */
  predicate Escalates(rules: seq<Rule>, calls: seq<Call>, i: nat)
    requires i < |calls|
  {
    var timers := Open(After(rules, calls, i), calls[i].alert, calls[i].owner);
    calls[i].matched && !calls[i].ended && calls[i].alert in timers && Due(rules, timers[calls[i].alert], calls[i].now)
  }

  /** The times of the escalations of an alert since its timer was last started. */
  function EpisodeTimes(rules: seq<Rule>, calls: seq<Call>, n: nat, alert: nat): seq<int>
    requires n <= |calls|
  {
    if n == 0 || alert !in After(rules, calls, n) then []
    else
      EpisodeTimes(rules, calls, n - 1, alert)
      + if calls[n - 1].alert == alert && Escalates(rules, calls, n - 1) then [calls[n - 1].now] else []
  }

  /** What a timer says about the escalations of its episode. */
  ghost predicate TimerTells(timer: Timer, times: seq<int>) {
    && timer.repeatCount == |times|
    && timer.firstTriggered <= timer.lastNotified
    && (times != [] ==> timer.lastNotified == times[|times| - 1])
  }

  /** The bounds on the escalations of one episode under the settings of its rule. */
  ghost predicate TimesKeep(e: Escalation, first: int, times: seq<int>) {
    && (forall k :: 0 <= k < |times| ==> times[k] >= first + e.waitDuration)
    && (e.repeatInterval > 0 ==> forall k :: 0 <= k < |times| ==> times[k] >= first + Mul(k + 1, e.repeatInterval))
    && (e.repeatInterval > 0 && e.maxRepeat > 0 ==> |times| <= e.maxRepeat)
  }

  ghost function Mul(k: nat, d: int): int {
    k * d
  }

  lemma MulNext(k: nat, d: int)
    ensures Mul(k + 1, d) == Mul(k, d) + d
  {
  }

  lemma KeepsOneMore(e: Escalation, timer: Timer, times: seq<int>, now: int)
    requires TimerTells(timer, times) && TimesKeep(e, timer.firstTriggered, times) && DueUnder(e, timer, now)
    ensures TimesKeep(e, timer.firstTriggered, times + [now])
  {
    MulNext(|times|, e.repeatInterval);
    assert Mul(0, e.repeatInterval) == 0;
    hide Mul;
    if times != [] && e.repeatInterval > 0 {
      assert times[|times| - 1] >= timer.firstTriggered + Mul(|times|, e.repeatInterval);
    }
  }

  ghost predicate EpisodeFits(rules: seq<Rule>, timers: Timers, alert: nat, times: seq<int>) {
    if alert in timers then
      && TimerTells(timers[alert], times)
      && (SettingsOf(rules, timers[alert].ruleID).Some? ==>
            TimesKeep(SettingsOf(rules, timers[alert].ruleID).value, timers[alert].firstTriggered, times))
    else times == []
  }

  lemma FitsNothing(rules: seq<Rule>, timer: Timer)
    requires timer.repeatCount == 0 && timer.firstTriggered <= timer.lastNotified
    ensures TimerTells(timer, [])
    ensures SettingsOf(rules, timer.ruleID).Some? ==>
              TimesKeep(SettingsOf(rules, timer.ruleID).value, timer.firstTriggered, [])
  {
    hide SettingsOf;
  }

  lemma StepFits(rules: seq<Rule>, timers: Timers, call: Call, alert: nat, times: seq<int>)
    requires EpisodeFits(rules, timers, alert, times)
    requires call.owner.Some? ==> call.owner.value.first <= call.owner.value.last <= call.now
    requires alert in timers ==> timers[alert].lastNotified <= call.now
    ensures var running := Open(timers, call.alert, call.owner);
            var escalates := call.matched && !call.ended && call.alert in running
                             && Due(rules, running[call.alert], call.now);
            && EpisodeFits(rules, Next(rules, timers, call), alert,
                 if alert !in Next(rules, timers, call) then []
                 else times + if call.alert == alert && escalates then [call.now] else [])
            && (alert in Next(rules, timers, call) ==> Next(rules, timers, call)[alert].lastNotified <= call.now)
  {
    if call.alert == alert && call.matched {
      var running := Open(timers, alert, call.owner);
      hide SettingsOf, TimesKeep, DueUnder, TimerTells;
      if alert in running {
        var timer := running[alert];
        if alert !in timers {
          FitsNothing(rules, timer);
          assert times == [];
        }
        if !call.ended && Due(rules, timer, call.now) {
          KeepsOneMore(SettingsOf(rules, timer.ruleID).value, timer, times, call.now);
          Notified(timer, times, call.now);
        }
      }
    }
    assert times + [] == times;
  }

  lemma Notified(timer: Timer, times: seq<int>, now: int)
    requires TimerTells(timer, times) && timer.lastNotified <= now
    ensures TimerTells(timer.(lastNotified := now, repeatCount := timer.repeatCount + 1), times + [now])
  {
  }

  lemma {:induction false} EpisodesAlwaysFit(rules: seq<Rule>, calls: seq<Call>, n: nat, alert: nat)
    requires InOrder(calls) && n <= |calls|
    ensures EpisodeFits(rules, After(rules, calls, n), alert, EpisodeTimes(rules, calls, n, alert))
    ensures alert in After(rules, calls, n) ==> n > 0 && After(rules, calls, n)[alert].lastNotified <= calls[n - 1].now
  {
    hide Next, EpisodeFits, Open, Due;
    if n > 0 {
      EpisodesAlwaysFit(rules, calls, n - 1, alert);
      assert n > 1 ==> calls[n - 2].now <= calls[n - 1].now;
      StepFits(rules, After(rules, calls, n - 1), calls[n - 1], alert, EpisodeTimes(rules, calls, n - 1, alert));
    } else {
      assert EpisodeFits(rules, map[], alert, []) by {
        FitsEmpty(rules, alert);
      }
    }
  }

  lemma FitsEmpty(rules: seq<Rule>, alert: nat)
    ensures EpisodeFits(rules, map[], alert, [])
  {
  }

  /** With a fixed rule set, in any run whose clock never goes back: the repeat count is the number
      of escalations in the episode, the k-th of them (from 1) comes no earlier than WaitDuration
      and, with a positive RepeatInterval, than k repeat intervals after the timer was started, and
      a positive MaxRepeat then bounds their number. */
  lemma EscalationTiming(rules: seq<Rule>, calls: seq<Call>, n: nat, alert: nat)
    requires InOrder(calls) && n <= |calls| && alert in After(rules, calls, n)
    ensures var timer := After(rules, calls, n)[alert];
            var times := EpisodeTimes(rules, calls, n, alert);
            && timer.repeatCount == |times|
            && match SettingsOf(rules, timer.ruleID)
               case None => true
               case Some(e) =>
                 && (forall k :: 0 <= k < |times| ==> times[k] >= timer.firstTriggered + e.waitDuration)
                 && (e.repeatInterval > 0 ==>
                       forall k :: 0 <= k < |times| ==> times[k] >= timer.firstTriggered + (k + 1) * e.repeatInterval)
                 && (e.repeatInterval > 0 && e.maxRepeat > 0 ==> |times| <= e.maxRepeat)
  {
    EpisodesAlwaysFit(rules, calls, n, alert);
    var timer, times := After(rules, calls, n)[alert], EpisodeTimes(rules, calls, n, alert);
    hide After, EpisodeTimes, SettingsOf;
    if SettingsOf(rules, timer.ruleID).Some? {
      var e := SettingsOf(rules, timer.ruleID).value;
      if e.repeatInterval > 0 {
        forall k | 0 <= k < |times|
          ensures times[k] >= timer.firstTriggered + (k + 1) * e.repeatInterval
        {
          assert Mul(k + 1, e.repeatInterval) == (k + 1) * e.repeatInterval;
        }
      }
    }
  }

  /** Over runs: call i for a matched, active alert with a timer escalates iff escalation is enabled
      for its rule, the wait since the timer was started is over and, with a positive interval, that
      has passed since the last escalation of the episode (since the start, before the first one) and
      fewer than a positive MaxRepeat have happened. */
  lemma EscalatesIff(rules: seq<Rule>, calls: seq<Call>, i: nat, r: nat)
    requires InOrder(calls) && i < |calls| && calls[i].matched && !calls[i].ended
    requires calls[i].alert in After(rules, calls, i)
    requires r < |rules| && rules[r].id == After(rules, calls, i)[calls[i].alert].ruleID
    requires forall j :: 0 <= j < r ==> rules[j].id != rules[r].id
    ensures var alert, timer := calls[i].alert, After(rules, calls, i)[calls[i].alert];
            var times := EpisodeTimes(rules, calls, i, alert);
            var last := if times == [] then timer.lastNotified else times[|times| - 1];
            && alert in After(rules, calls, i + 1)
            && (EpisodeTimes(rules, calls, i + 1, alert) == times + [calls[i].now]
                <==> && rules[r].escalation.Some? && rules[r].escalation.value.enabled
                     && var e := rules[r].escalation.value;
                        && calls[i].now >= timer.firstTriggered + e.waitDuration
                        && (|| e.repeatInterval <= 0
                            || (&& calls[i].now >= last + e.repeatInterval
                                && (e.maxRepeat <= 0 || |times| < e.maxRepeat))))
  {
    var alert := calls[i].alert;
    hide Next, EpisodeFits, FindRule, SettingsOf, TimesKeep, InOrder, After, EpisodeTimes;
    EpisodesAlwaysFit(rules, calls, i, alert);
    EpisodesAlwaysFit(rules, calls, i + 1, alert);
    LastCallIs(rules, calls, i);
    FitsTells(rules, After(rules, calls, i), alert, EpisodeTimes(rules, calls, i, alert));
    CallEscalatesIff(rules, After(rules, calls, i), calls[i], r);
    FitsTells(rules, After(rules, calls, i + 1), alert, EpisodeTimes(rules, calls, i + 1, alert));
    EpisodeGrows(rules, calls, i);
  }

  lemma LastCallIs(rules: seq<Rule>, calls: seq<Call>, i: nat)
    requires i < |calls|
    ensures After(rules, calls, i + 1) == Next(rules, After(rules, calls, i), calls[i])
  {
    hide Next;
  }

  lemma FitsTells(rules: seq<Rule>, timers: Timers, alert: nat, times: seq<int>)
    requires EpisodeFits(rules, timers, alert, times)
    ensures alert in timers ==> TimerTells(timers[alert], times)
  {
    hide TimesKeep, TimerTells;
  }

  lemma EpisodeGrows(rules: seq<Rule>, calls: seq<Call>, i: nat)
    requires i < |calls| && calls[i].alert in After(rules, calls, i + 1)
    ensures var times := EpisodeTimes(rules, calls, i, calls[i].alert);
            || EpisodeTimes(rules, calls, i + 1, calls[i].alert) == times
            || EpisodeTimes(rules, calls, i + 1, calls[i].alert) == times + [calls[i].now]
  {
    hide After, Escalates;
  }

  // ---------------------------------------------------------------- when MaxRepeat is a bound

  /** The same alert processed n times at once, late enough for its wait to be over. */
  function Burst(e: Escalation, ruleID: string, n: nat): seq<Call> {
    seq(n, i => Call(0, false, true, Some(Offer(ruleID, 0, 0)), if e.waitDuration > 0 then e.waitDuration else 0))
  }

  lemma {:induction false} BurstEscalates(rules: seq<Rule>, e: Escalation, ruleID: string, size: nat, n: nat)
    requires SettingsOf(rules, ruleID) == Some(e) && e.repeatInterval <= 0 && n <= size
    ensures var calls := Burst(e, ruleID, size);
            && |EpisodeTimes(rules, calls, n, 0)| == n
            && (n > 0 ==> 0 in After(rules, calls, n) && After(rules, calls, n)[0].ruleID == ruleID
                          && After(rules, calls, n)[0].firstTriggered == 0)
  {
    hide SettingsOf;
    if n > 0 {
      BurstEscalates(rules, e, ruleID, size, n - 1);
      if n == 1 {
        assert After(rules, Burst(e, ruleID, size), 0) == map[];
      }
    }
  }

  /** MaxRepeat bounds the escalations of an episode, over all runs, iff RepeatInterval is positive;
      without an interval every Process call after the wait escalates. */
  lemma MaxRepeatHoldsIff(rules: seq<Rule>, ruleID: string, e: Escalation)
    requires SettingsOf(rules, ruleID) == Some(e) && e.maxRepeat > 0
    ensures (forall calls, n, alert ::
               InOrder(calls) && 0 <= n <= |calls| && alert in After(rules, calls, n)
               && After(rules, calls, n)[alert].ruleID == ruleID
               ==> |EpisodeTimes(rules, calls, n, alert)| <= e.maxRepeat)
       <==> e.repeatInterval > 0
  {
    hide SettingsOf, After, EpisodeTimes;
    if e.repeatInterval > 0 {
      forall calls, n, alert |
        InOrder(calls) && 0 <= n <= |calls| && alert in After(rules, calls, n)
        && After(rules, calls, n)[alert].ruleID == ruleID
        ensures |EpisodeTimes(rules, calls, n, alert)| <= e.maxRepeat
      {
        EscalationTiming(rules, calls, n, alert);
      }
    } else {
      var size := e.maxRepeat + 1;
      var calls := Burst(e, ruleID, size);
      BurstEscalates(rules, e, ruleID, size, size);
      assert InOrder(calls);
      assert |EpisodeTimes(rules, calls, size, 0)| > e.maxRepeat;
    }
  }

  // ---------------------------------------------------------------- one Process call

  /** Clock readings of one Process call: for matching, for the k-th matched rule's limiter and new
      timer, and for looking at the timers. */
  datatype Clock = Clock(matching: int, limit: nat -> int, first: nat -> int, last: nat -> int, escalation: int)

  type Limiters = map<string, SlidingWindow.Tracker>

  function RequestOf(rule: Rule, alert: Alert, now: int): SlidingWindow.Request
    requires rule.rateLimit.Some?
  {
    var limit := rule.rateLimit.value;
    SlidingWindow.Request(
      SlidingWindow.GetRateLimitKey(limit, rule.id, alert.deviceID), limit.maxNotifications, limit.window, now)
  }

  /** The limiters after the first n matched rules have asked them. */
  function LimitersAfter(table: Limiters, matched: seq<Rule>, alert: Alert, t: Clock, n: nat): Limiters
    requires n <= |matched|
  {
    if n == 0 then table
    else
      var before := LimitersAfter(table, matched, alert, t, n - 1);
      if matched[n - 1].rateLimit.None? then before
      else SlidingWindow.Check(before, RequestOf(matched[n - 1], alert, t.limit(n - 1)))
  }

  /** Whether the k-th matched rule is not held back by its limiter. */
  predicate Passes(table: Limiters, matched: seq<Rule>, alert: Alert, t: Clock, k: nat)
    requires k < |matched|
  {
    matched[k].rateLimit.Some? ==>
      var q := RequestOf(matched[k], alert, t.limit(k));
      SlidingWindow.TrackerFor(LimitersAfter(table, matched, alert, t, k), q).Admits(q.now)
  }

  predicate Escalating(rule: Rule) {
    rule.escalation.Some? && rule.escalation.value.enabled
  }

  predicate Offers(table: Limiters, matched: seq<Rule>, alert: Alert, t: Clock, k: nat)
    requires k < |matched|
  {
    Escalating(matched[k]) && Passes(table, matched, alert, t, k)
  }

  /** The first of the first n matched rules that would start a timer. */
  function OwnerOf(table: Limiters, matched: seq<Rule>, alert: Alert, t: Clock, n: nat): Option<Offer>
    requires n <= |matched|
  {
    if n == 0 then None
    else
      var before := OwnerOf(table, matched, alert, t, n - 1);
      if before.Some? then before
      else if Offers(table, matched, alert, t, n - 1)
      then Some(Offer(matched[n - 1].id, t.first(n - 1), t.last(n - 1)))
      else None
  }

  function CallOf(table: Limiters, matched: seq<Rule>, alert: Alert, t: Clock): Call {
    Call(alert.id, alert.status != Active, matched != [], OwnerOf(table, matched, alert, t, |matched|), t.escalation)
  }

  lemma {:induction false} OwnerIsFirst(table: Limiters, matched: seq<Rule>, alert: Alert, t: Clock, n: nat)
    returns (k: nat)
    requires n <= |matched|
    ensures match OwnerOf(table, matched, alert, t, n)
            case None => forall j :: 0 <= j < n ==> !Offers(table, matched, alert, t, j)
            case Some(o) =>
              && k < n && o == Offer(matched[k].id, t.first(k), t.last(k)) && Offers(table, matched, alert, t, k)
              && forall j :: 0 <= j < k ==> !Offers(table, matched, alert, t, j)
  {
    hide Offers;
    k := 0;
    if n > 0 {
      k := OwnerIsFirst(table, matched, alert, t, n - 1);
      if OwnerOf(table, matched, alert, t, n - 1).None? {
        k := n - 1;
      }
    }
  }

  /** A fresh timer belongs to a rule of least priority number among the matched, escalating rules
      that their limiters let through, and there is one iff there is such a rule. */
  lemma OwnerHasLeastPriority(table: Limiters, matched: seq<Rule>, alert: Alert, t: Clock)
    requires Matcher.ByPriority(matched)
    ensures match OwnerOf(table, matched, alert, t, |matched|)
            case None => forall j :: 0 <= j < |matched| ==> !Offers(table, matched, alert, t, j)
            case Some(o) =>
              exists k :: 0 <= k < |matched| && o.ruleID == matched[k].id && Offers(table, matched, alert, t, k)
                && forall j :: 0 <= j < |matched| && Offers(table, matched, alert, t, j) ==>
                     matched[k].priority <= matched[j].priority
  {
    var k := OwnerIsFirst(table, matched, alert, t, |matched|);
    hide Offers, OwnerOf;
    if OwnerOf(table, matched, alert, t, |matched|).Some? {
      assert forall j :: 0 <= j < |matched| && Offers(table, matched, alert, t, j) ==>
               matched[k].priority <= matched[j].priority;
    }
  }

  lemma NothingExecuted(table: Limiters, matched: seq<Rule>, alert: Alert, t: Clock, timers: Timers)
    ensures LimitersAfter(table, matched, alert, t, 0) == table
    ensures Open(timers, alert.id, OwnerOf(table, matched, alert, t, 0)) == timers
  {
  }

  /** What executing one more matched rule does to the limiters and to the alert's timer. */
  lemma OneMoreRule(table: Limiters, matched: seq<Rule>, alert: Alert, t: Clock, k: nat, timers: Timers)
    requires k < |matched|
    ensures var rule, before := matched[k], LimitersAfter(table, matched, alert, t, k);
            && LimitersAfter(table, matched, alert, t, k + 1)
               == (if rule.rateLimit.None? then before
                   else SlidingWindow.Check(before, RequestOf(rule, alert, t.limit(k))))
            && var passes := rule.rateLimit.Some? ==>
                 SlidingWindow.TrackerFor(before, RequestOf(rule, alert, t.limit(k))).Admits(t.limit(k));
               Open(timers, alert.id, OwnerOf(table, matched, alert, t, k + 1))
               == if Escalating(rule) && passes
                  then Open(Open(timers, alert.id, OwnerOf(table, matched, alert, t, k)), alert.id,
                            Some(Offer(rule.id, t.first(k), t.last(k))))
                  else Open(timers, alert.id, OwnerOf(table, matched, alert, t, k))
  {
    hide SlidingWindow.Check, SlidingWindow.TrackerFor;
  }

  // ---------------------------------------------------------------- limiters over runs of Process

  /** What one Process call brings to the limiters. */
  datatype Visit = Visit(matched: seq<Rule>, alert: Alert, clock: Clock)

  /** The limited requests among the first n matched rules, in their order. */
  function RequestsOf(v: Visit, n: nat): seq<SlidingWindow.Request>
    requires n <= |v.matched|
  {
    if n == 0 then []
    else if v.matched[n - 1].rateLimit.None? then RequestsOf(v, n - 1)
    else RequestsOf(v, n - 1) + [RequestOf(v.matched[n - 1], v.alert, v.clock.limit(n - 1))]
  }

  /** All requests of the first n Process calls. */
  function Requests(visits: seq<Visit>, n: nat): seq<SlidingWindow.Request>
    requires n <= |visits|
  {
    if n == 0 then [] else Requests(visits, n - 1) + RequestsOf(visits[n - 1], |visits[n - 1].matched|)
  }

  /** The limiters after the first n Process calls. */
  function LimitersAfterAll(visits: seq<Visit>, n: nat): Limiters
    requires n <= |visits|
  {
    if n == 0 then map[]
    else
      var v := visits[n - 1];
      LimitersAfter(LimitersAfterAll(visits, n - 1), v.matched, v.alert, v.clock, |v.matched|)
  }

  lemma {:induction false} CheckAllPrefix(
    qs: seq<SlidingWindow.Request>, more: seq<SlidingWindow.Request>, n: nat)
    requires n <= |qs|
    ensures SlidingWindow.CheckAll(qs + more, n) == SlidingWindow.CheckAll(qs, n)
  {
    hide SlidingWindow.Check;
    if n > 0 {
      CheckAllPrefix(qs, more, n - 1);
    }
  }

  /** Within one call, each rule that passes or not asks the limiters that all requests so far made. */
  lemma {:induction false} VisitChecks(qs: seq<SlidingWindow.Request>, table: Limiters, v: Visit, n: nat)
    requires n <= |v.matched| && table == SlidingWindow.CheckAll(qs, |qs|)
    ensures var all := qs + RequestsOf(v, n);
            LimitersAfter(table, v.matched, v.alert, v.clock, n) == SlidingWindow.CheckAll(all, |all|)
  {
    hide SlidingWindow.Check, RequestOf;
    if n == 0 {
      assert qs + RequestsOf(v, 0) == qs;
    } else {
      VisitChecks(qs, table, v, n - 1);
      if v.matched[n - 1].rateLimit.Some? {
        var before := qs + RequestsOf(v, n - 1);
        var q := RequestOf(v.matched[n - 1], v.alert, v.clock.limit(n - 1));
        assert qs + RequestsOf(v, n) == before + [q];
        CheckAllPrefix(before, [q], |before|);
      }
    }
  }

  /** Over any run of Process calls, the limiter table is the one all their requests make in order. */
  lemma {:induction false} LimitersAreChecks(visits: seq<Visit>, n: nat)
    requires n <= |visits|
    ensures var qs := Requests(visits, n); LimitersAfterAll(visits, n) == SlidingWindow.CheckAll(qs, |qs|)
  {
    hide SlidingWindow.Check, LimitersAfter, RequestsOf;
    if n > 0 {
      LimitersAreChecks(visits, n - 1);
      VisitChecks(Requests(visits, n - 1), LimitersAfterAll(visits, n - 1), visits[n - 1], |visits[n - 1].matched|);
    }
  }

  /** The k-th matched rule of a call passes iff its request is accepted in the run of all requests. */
  lemma PassesIffAccepted(visits: seq<Visit>, n: nat, k: nat)
    requires n < |visits| && k < |visits[n].matched| && visits[n].matched[k].rateLimit.Some?
    ensures var v, qs := visits[n], Requests(visits, n) + RequestsOf(visits[n], k + 1);
            && |qs| > 0 && qs[|qs| - 1] == RequestOf(v.matched[k], v.alert, v.clock.limit(k))
            && (Passes(LimitersAfterAll(visits, n), v.matched, v.alert, v.clock, k)
                <==> SlidingWindow.Accepted(qs, |qs| - 1))
  {
    hide SlidingWindow.Check, SlidingWindow.TrackerFor, LimitersAfterAll, Requests, RequestOf, LimitersAfter;
    var v := visits[n];
    var before := Requests(visits, n) + RequestsOf(v, k);
    var q := RequestOf(v.matched[k], v.alert, v.clock.limit(k));
    LimitersAreChecks(visits, n);
    VisitChecks(Requests(visits, n), LimitersAfterAll(visits, n), v, k);
    assert Requests(visits, n) + RequestsOf(v, k + 1) == before + [q];
    CheckAllPrefix(before, [q], |before|);
    RequestTime(v.matched[k], v.alert, v.clock.limit(k));
  }

  lemma RequestTime(rule: Rule, alert: Alert, now: int)
    requires rule.rateLimit.Some?
    ensures RequestOf(rule, alert, now).now == now
  {
  }

  /** Each request is made for a matched rule that has a limit, with that rule's numbers, at the
      reading taken for it. */
  lemma {:induction false} RequestOrigin(visits: seq<Visit>, n: nat, i: nat) returns (v: nat, k: nat)
    requires n <= |visits| && i < |Requests(visits, n)|
    ensures v < n && k < |visits[v].matched| && visits[v].matched[k].rateLimit.Some?
    ensures var q, rule := Requests(visits, n)[i], visits[v].matched[k];
            && q.maxCount == rule.rateLimit.value.maxNotifications && q.window == rule.rateLimit.value.window
            && q.now == visits[v].clock.limit(k)
            && q.key == SlidingWindow.GetRateLimitKey(rule.rateLimit.value, rule.id, visits[v].alert.deviceID)
  {
    hide SlidingWindow.GetRateLimitKey;
    if i < |Requests(visits, n - 1)| {
      v, k := RequestOrigin(visits, n - 1, i);
    } else {
      v := n - 1;
      k := RequestWithin(visits[v], |visits[v].matched|, i - |Requests(visits, n - 1)|);
    }
  }

  lemma {:induction false} RequestWithin(v: Visit, n: nat, i: nat) returns (k: nat)
    requires n <= |v.matched| && i < |RequestsOf(v, n)|
    ensures k < n && v.matched[k].rateLimit.Some?
    ensures RequestsOf(v, n)[i] == RequestOf(v.matched[k], v.alert, v.clock.limit(k))
  {
    hide RequestOf;
    if i < |RequestsOf(v, n - 1)| {
      k := RequestWithin(v, n - 1, i);
    } else {
      k := n - 1;
    }
  }

  /** When a matched rule of a call would start a timer: escalation is enabled for it, and its request,
      if it has a limit, is accepted in the run of all requests so far. */
  lemma OffersIff(visits: seq<Visit>, n: nat, k: nat)
    requires n < |visits| && k < |visits[n].matched|
    ensures var v, rule := visits[n], visits[n].matched[k];
            var qs := Requests(visits, n) + RequestsOf(v, k + 1);
            && (rule.rateLimit.Some? ==> |qs| > 0)
            && (Offers(LimitersAfterAll(visits, n), v.matched, v.alert, v.clock, k)
                <==> && rule.escalation.Some? && rule.escalation.value.enabled
                     && (rule.rateLimit.Some? ==> SlidingWindow.Accepted(qs, |qs| - 1)))
  {
    hide SlidingWindow.Accepted, LimitersAfterAll, LimitersAfter, Requests, RequestOf, SlidingWindow.TrackerFor;
    if visits[n].matched[k].rateLimit.Some? {
      PassesIffAccepted(visits, n, k);
    }
  }

  /** What the timers see of a Process call. */
  lemma CallSays(table: Limiters, matched: seq<Rule>, alert: Alert, t: Clock)
    ensures var call := CallOf(table, matched, alert, t);
            && call.alert == alert.id && call.now == t.escalation
            && (call.matched <==> |matched| > 0)
            && (call.ended <==> alert.status == Acknowledged || alert.status == Resolved)
            && (call.owner.Some? ==>
                  exists k :: 0 <= k < |matched|
                    && call.owner.value == Offer(matched[k].id, t.first(k), t.last(k)))
  {
    var k := OwnerIsFirst(table, matched, alert, t, |matched|);
    hide Offers, OwnerOf;
  }

  /** So over any run of Process calls whose limiter clock never goes back, each scope admits at most
      maxNotifications of the rule that used it first in every window of that rule. */
  lemma EngineWindowBound(visits: seq<Visit>, key: string, t: int)
    requires SlidingWindow.ClockOrdered(Requests(visits, |visits|))
    ensures var qs := Requests(visits, |visits|);
            match SlidingWindow.FirstFor(qs, |qs|, key)
            case None => key !in LimitersAfterAll(visits, |visits|)
            case Some(first) =>
              SlidingWindow.KeyHits(qs, |qs|, key, t - first.window, t)
              <= if first.maxCount > 0 then first.maxCount else 0
  {
    hide SlidingWindow.KeyHits, SlidingWindow.After, SlidingWindow.FirstFor, SlidingWindow.TimesFor;
    hide SlidingWindow.CheckAll, SlidingWindow.New, LimitersAfterAll, Requests;
    var qs := Requests(visits, |visits|);
    LimitersAreChecks(visits, |visits|);
    SlidingWindow.KeysAreIndependent(qs, |qs|, key);
    SlidingWindow.KeyWindowBound(qs, key, t);
  }

  class RuleEngine {
    var rules: seq<Rule>
    const matcher: Matcher.RuleMatcher
    const limiters: SlidingWindow.RateLimiters
    var escalations: Timers

    ghost predicate Valid()
      reads matcher, limiters
    {
      matcher.CacheOk() && limiters.Valid()
    }

    constructor (env: Env, rules: seq<Rule>)
      ensures Valid() && fresh(matcher) && fresh(limiters) && matcher.env == env
      ensures this.rules == rules && escalations == map[] && limiters.Table() == map[]
    {
      matcher := new Matcher.RuleMatcher(env);
      limiters := new SlidingWindow.RateLimiters();
      this.rules, escalations := rules, map[];
    }

    method CheckRateLimit(rule: Rule, alert: Alert, now: int) returns (ok: bool)
      requires limiters.Valid() && rule.rateLimit.Some?
      modifies limiters, limiters.rateLimiters.Values
      ensures limiters.Valid() && fresh(limiters.rateLimiters.Values - old(limiters.rateLimiters.Values))
      ensures var q := RequestOf(rule, alert, now);
              && ok == SlidingWindow.TrackerFor(old(limiters.Table()), q).Admits(now)
              && limiters.Table() == SlidingWindow.Check(old(limiters.Table()), q)
    {
      ok := limiters.CheckRateLimit(rule.rateLimit.value, rule.id, alert.deviceID, now);
    }

    method SetEscalationState(alertID: nat, ruleID: string, first: int, last: int)
      modifies this`escalations
      ensures escalations == Open(old(escalations), alertID, Some(Offer(ruleID, first, last)))
    {
      if alertID !in escalations {
        escalations := escalations[alertID := Timer(ruleID, first, last, 0)];
      }
    }

    /** The actions of the rule are sent; nothing in the engine depends on how that goes. */
    method ExecuteRule(rule: Rule, alert: Alert, limitAt: int, first: int, last: int)
      requires limiters.Valid()
      modifies this`escalations, limiters, limiters.rateLimiters.Values
      ensures limiters.Valid() && fresh(limiters.rateLimiters.Values - old(limiters.rateLimiters.Values))
      ensures limiters.Table() == if rule.rateLimit.None? then old(limiters.Table())
                                  else SlidingWindow.Check(old(limiters.Table()), RequestOf(rule, alert, limitAt))
      ensures var passes := rule.rateLimit.Some? ==>
                SlidingWindow.TrackerFor(old(limiters.Table()), RequestOf(rule, alert, limitAt)).Admits(limitAt);
              escalations == if Escalating(rule) && passes
                             then Open(old(escalations), alert.id, Some(Offer(rule.id, first, last)))
                             else old(escalations)
    {
      if rule.rateLimit.Some? {
        var ok := CheckRateLimit(rule, alert, limitAt);
        if !ok {
          return;
        }
      }
      if rule.escalation.Some? && rule.escalation.value.enabled {
        SetEscalationState(alert.id, rule.id, first, last);
      }
    }

    method ProcessEscalations(alert: Alert, now: int)
      modifies this`escalations
      ensures escalations == Escalate(rules, old(escalations), alert.id, alert.status != Active, now)
    {
      if alert.id !in escalations {
        return;
      }
      var state := escalations[alert.id];
      if alert.status == Acknowledged || alert.status == Resolved {
        escalations := escalations - {alert.id};
        return;
      }
      var rule := Find(state.ruleID);
      if rule.None? || rule.value.escalation.None? || !rule.value.escalation.value.enabled {
        return;
      }
      var escalation := rule.value.escalation.value;
      if now - state.firstTriggered < escalation.waitDuration {
        return;
      }
      if escalation.repeatInterval > 0 {
        if now - state.lastNotified < escalation.repeatInterval {
          return;
        }
        if escalation.maxRepeat > 0 && state.repeatCount >= escalation.maxRepeat {
          return;
        }
      }
      state := state.(lastNotified := now);
      state := state.(repeatCount := state.repeatCount + 1);
      escalations := escalations[alert.id := state];
    }

    method Find(id: string) returns (rule: Option<Rule>)
      ensures rule == FindRule(rules, id)
    {
      for i := 0 to |rules|
        invariant FindRule(rules, id) == FindRule(rules[i..], id)
      {
        assert rules[i..][1..] == rules[i + 1..];
        if rules[i].id == id {
          return Some(rules[i]);
        }
      }
      return None;
    }

    /** Executes the matched rules in their order. */
    method ExecuteAll(matched: seq<Rule>, alert: Alert, t: Clock)
      requires limiters.Valid()
      modifies this`escalations, limiters, limiters.rateLimiters.Values
      ensures limiters.Valid() && fresh(limiters.rateLimiters.Values - old(limiters.rateLimiters.Values))
      ensures limiters.Table() == LimitersAfter(old(limiters.Table()), matched, alert, t, |matched|)
      ensures escalations == Open(old(escalations), alert.id,
                                  OwnerOf(old(limiters.Table()), matched, alert, t, |matched|))
    {
      hide LimitersAfter, OwnerOf, Open, Escalating, SlidingWindow.Check, SlidingWindow.TrackerFor, RequestOf;
      ghost var table := limiters.Table();
      NothingExecuted(table, matched, alert, t, escalations);
      for k := 0 to |matched|
        invariant limiters.Valid() && fresh(limiters.rateLimiters.Values - old(limiters.rateLimiters.Values))
        invariant limiters.Table() == LimitersAfter(table, matched, alert, t, k)
        invariant escalations == Open(old(escalations), alert.id, OwnerOf(table, matched, alert, t, k))
      {
        OneMoreRule(table, matched, alert, t, k, old(escalations));
        ExecuteRule(matched[k], alert, t.limit(k), t.first(k), t.last(k));
      }
    }

    /** One alert event. The matched rules come in order of priority; each asks its limiter; the first
        that is let through and escalates starts the alert's timer, if it has none; then the timer
        is looked at. */
    method Process(alert: Alert, deviceTags: Option<seq<string>>, t: Clock) returns (matched: seq<Rule>)
      requires Valid()
      modifies this`escalations, matcher`regexCache, limiters, limiters.rateLimiters.Values
      ensures Valid() && fresh(limiters.rateLimiters.Values - old(limiters.rateLimiters.Values))
      ensures var ctx := Context(alert, deviceTags, t.matching);
              && Matcher.ByPriority(matched)
              && multiset(matched) == multiset(Matcher.Matching(matcher.env, rules, |rules|, ctx))
      ensures limiters.Table() == LimitersAfter(old(limiters.Table()), matched, alert, t, |matched|)
      ensures escalations == Next(rules, old(escalations), CallOf(old(limiters.Table()), matched, alert, t))
      ensures matched == [] ==> escalations == old(escalations)
      ensures matched != [] && alert.status != Active ==> alert.id !in escalations
    {
      hide Matcher.Matching, Matcher.ByPriority;
      matched := matcher.MatchMultiple(rules, Context(alert, deviceTags, t.matching));
      assert limiters.Table() == old(limiters.Table());
      if |matched| == 0 {
        return;
      }
      ExecuteAll(matched, alert, t);
      hide LimitersAfter, OwnerOf, Escalate, Open;
      ProcessEscalations(alert, t.escalation);
    }
  }
}
