/** Validation of a rule set, the defaults filled in after it, and what validation buys the matcher. */
module RuleParser {
  import opened Wrappers
  import opened TimeRange
  import opened RuleTypes
  import opened Matcher
  import SlidingWindow

  // ---------------------------------------------------------------- time ranges

  datatype SpanError = MissingTime | BadStart | BadEnd | BadZone | BadWeekday(weekday: string)

  const WEEKDAYS := {"Monday", "Tuesday", "Wednesday", "Thursday", "Friday", "Saturday", "Sunday"}

  function FirstBadWeekday(weekdays: seq<string>): Option<string> {
    if weekdays == [] then None
    else if weekdays[0] !in WEEKDAYS then Some(weekdays[0])
    else FirstBadWeekday(weekdays[1..])
  }

  function ValidateTimeRange(env: Env, tr: Span): Option<SpanError> {
    if tr.start == "" || tr.end == "" then Some(MissingTime)
    else if ParseTime(tr.start).None? then Some(BadStart)
    else if ParseTime(tr.end).None? then Some(BadEnd)
    else if tr.timezone != "" && !env.zoneKnown(tr.timezone) then Some(BadZone)
    else
      match FirstBadWeekday(tr.weekdays)
      case Some(weekday) => Some(BadWeekday(weekday))
      case None => None
  }

  lemma {:induction false} WeekdaysKnown(weekdays: seq<string>)
    ensures FirstBadWeekday(weekdays).None? <==> forall i :: 0 <= i < |weekdays| ==> weekdays[i] in WEEKDAYS
  {
    if weekdays != [] {
      WeekdaysKnown(weekdays[1..]);
      assert forall i :: 1 <= i < |weekdays| ==> weekdays[i] == weekdays[1..][i - 1];
    }
  }

  /** A time range is accepted iff both times are spellings of a minute of the day, the zone is
      empty or known, and every weekday is an English name. */
  lemma TimeRangeValidIff(env: Env, tr: Span)
    ensures ValidateTimeRange(env, tr).None?
       <==> && (exists m: Minute :: tr.start == Padded(m) || (m < 600 && tr.start == Unpadded(m)))
            && (exists m: Minute :: tr.end == Padded(m) || (m < 600 && tr.end == Unpadded(m)))
            && (tr.timezone == "" || env.zoneKnown(tr.timezone))
            && (forall i :: 0 <= i < |tr.weekdays| ==> tr.weekdays[i] in WEEKDAYS)
  {
    WeekdaysKnown(tr.weekdays);
    SpelledIff(tr.start);
    SpelledIff(tr.end);
    hide ParseTime, Padded, Unpadded, FirstBadWeekday;
  }

  lemma SpelledIff(s: string)
    ensures ParseTime(s).Some? <==> exists m: Minute :: s == Padded(m) || (m < 600 && s == Unpadded(m))
    ensures ParseTime("").None?
  {
    hide Padded, Unpadded;
    assert ParseTime("").None?;
    if ParseTime(s).Some? {
      ParseTimeAccepts(s, ParseTime(s).value);
    }
    if m: Minute :| s == Padded(m) || (m < 600 && s == Unpadded(m)) {
      ParseTimeAccepts(s, m);
    }
  }

  /** What a rejected time range has wrong: the first of these that applies. */
  lemma TimeRangeErrorTells(env: Env, tr: Span)
    requires ValidateTimeRange(env, tr).Some?
    ensures match ValidateTimeRange(env, tr).value
            case MissingTime => tr.start == "" || tr.end == ""
            case BadStart => tr.start != "" && tr.end != "" && ParseTime(tr.start).None?
            case BadEnd => tr.end != "" && ParseTime(tr.start).Some? && ParseTime(tr.end).None?
            case BadZone =>
              && ParseTime(tr.start).Some? && ParseTime(tr.end).Some?
              && tr.timezone != "" && !env.zoneKnown(tr.timezone)
            case BadWeekday(weekday) =>
              && ParseTime(tr.start).Some? && ParseTime(tr.end).Some?
              && (tr.timezone == "" || env.zoneKnown(tr.timezone))
              && exists i :: 0 <= i < |tr.weekdays| && tr.weekdays[i] == weekday && weekday !in WEEKDAYS
                             && forall j :: 0 <= j < i ==> tr.weekdays[j] in WEEKDAYS
  {
    hide ParseTime;
    BadWeekdayIsFirst(tr.weekdays);
  }

  lemma {:induction false} BadWeekdayIsFirst(weekdays: seq<string>)
    ensures FirstBadWeekday(weekdays).Some? ==>
              var weekday := FirstBadWeekday(weekdays).value;
              && weekday !in WEEKDAYS
              && exists i :: 0 <= i < |weekdays| && weekdays[i] == weekday
                             && forall j :: 0 <= j < i ==> weekdays[j] in WEEKDAYS
  {
    if weekdays != [] {
      BadWeekdayIsFirst(weekdays[1..]);
      if weekdays[0] in WEEKDAYS && FirstBadWeekday(weekdays).Some? {
        var rest := weekdays[1..];
        var i :| 0 <= i < |rest| && rest[i] == FirstBadWeekday(weekdays).value
                 && forall j :: 0 <= j < i ==> rest[j] in WEEKDAYS;
        assert weekdays[i + 1] == rest[i];
        assert forall j :: 1 <= j < i + 1 ==> weekdays[j] == rest[j - 1];
      }
    }
  }

  // ---------------------------------------------------------------- conditions

  /** Where in a condition tree the first invalid time range is, and what is wrong with it. */
  datatype Problem = Here(error: SpanError) | In(group: Group, index: nat, inner: Problem)

  function FirstOf(a: Option<Problem>, b: Option<Problem>): Option<Problem> {
    if a.Some? then a else b
  }

  function ValidateConditions(env: Env, c: Conditions): Option<Problem>
    decreases c, 1, 0
  {
    FirstOf(ValidateParts(env, c, AllOf, 0),
    FirstOf(ValidateParts(env, c, AnyOf, 0),
    FirstOf(ValidateParts(env, c, NoneOf, 0),
      if c.timeRange.None? then None
      else
        match ValidateTimeRange(env, c.timeRange.value)
        case Some(error) => Some(Here(error))
        case None => None)))
  }

  function ValidateParts(env: Env, c: Conditions, g: Group, i: nat): Option<Problem>
    requires i <= |Parts(c, g)|
    decreases c, 0, |Parts(c, g)| - i
  {
    if i == |Parts(c, g)| then None
    else
      match ValidateConditions(env, Parts(c, g)[i])
      case Some(inner) => Some(In(g, i, inner))
      case None => ValidateParts(env, c, g, i + 1)
  }

  /** The time range a problem points at. */
  ghost function RangeAt(c: Conditions, p: Problem): Option<Span> {
    match p
    case Here(_) => c.timeRange
    case In(g, i, inner) => if i < |Parts(c, g)| then RangeAt(Parts(c, g)[i], inner) else None
  }

  function ErrorOf(p: Problem): SpanError {
    match p
    case Here(error) => error
    case In(_, _, inner) => ErrorOf(inner)
  }

  /** Every time range of the tree, at any depth, passes a test. */
  ghost predicate EveryRange(c: Conditions, test: Span -> bool) {
    && (c.timeRange.Some? ==> test(c.timeRange.value))
    && forall g: Group, i :: 0 <= i < |Parts(c, g)| ==> EveryRange(Parts(c, g)[i], test)
  }

  ghost function Passes(env: Env): Span -> bool {
    tr => ValidateTimeRange(env, tr).None?
  }

  lemma {:induction false} PartsValidIff(env: Env, c: Conditions, g: Group, i: nat)
    requires i <= |Parts(c, g)|
    ensures ValidateParts(env, c, g, i).None?
       <==> forall j :: i <= j < |Parts(c, g)| ==> EveryRange(Parts(c, g)[j], Passes(env))
    decreases c, 0, |Parts(c, g)| - i
  {
    hide EveryRange;
    if i < |Parts(c, g)| {
      ValidIff(env, Parts(c, g)[i]);
      PartsValidIff(env, c, g, i + 1);
    }
  }

  /** The validator accepts a tree iff every time range in it, at any depth, is well-formed. */
  lemma {:induction false} ValidIff(env: Env, c: Conditions)
    ensures ValidateConditions(env, c).None? <==> EveryRange(c, Passes(env))
    decreases c, 1, 0
  {
    hide ValidateParts, ValidateTimeRange;
    PartsValidIff(env, c, AllOf, 0);
    PartsValidIff(env, c, AnyOf, 0);
    PartsValidIff(env, c, NoneOf, 0);
  }

  lemma {:induction false} PartsProblem(env: Env, c: Conditions, g: Group, i: nat)
    requires i <= |Parts(c, g)|
    ensures match ValidateParts(env, c, g, i)
            case None => true
            case Some(p) => RangeAt(c, p).Some? && ValidateTimeRange(env, RangeAt(c, p).value) == Some(ErrorOf(p))
    decreases c, 0, |Parts(c, g)| - i
  {
    hide ValidateTimeRange, ValidateConditions;
    if i < |Parts(c, g)| {
      ProblemIsReal(env, Parts(c, g)[i]);
      PartsProblem(env, c, g, i + 1);
    }
  }

  /** A reported problem leads to a time range of the tree that has that error. */
  lemma {:induction false} ProblemIsReal(env: Env, c: Conditions)
    ensures match ValidateConditions(env, c)
            case None => true
            case Some(p) => RangeAt(c, p).Some? && ValidateTimeRange(env, RangeAt(c, p).value) == Some(ErrorOf(p))
    decreases c, 1, 0
  {
    hide ValidateParts, ValidateTimeRange;
    PartsProblem(env, c, AllOf, 0);
    PartsProblem(env, c, AnyOf, 0);
    PartsProblem(env, c, NoneOf, 0);
  }

  /** Whether every part of a group below the first n, at any depth, passes. */
  ghost predicate PartsPass(env: Env, c: Conditions, g: Group, n: nat)
    requires n <= |Parts(c, g)|
  {
    forall j :: 0 <= j < n ==> EveryRange(Parts(c, g)[j], Passes(env))
  }

  lemma {:induction false} PartProblemIsFirst(env: Env, c: Conditions, g: Group, i: nat)
    requires i <= |Parts(c, g)| && PartsPass(env, c, g, i)
    ensures match ValidateParts(env, c, g, i)
            case None => PartsPass(env, c, g, |Parts(c, g)|)
            case Some(p) =>
              && p.In? && p.group == g && p.index < |Parts(c, g)| && PartsPass(env, c, g, p.index)
              && ValidateConditions(env, Parts(c, g)[p.index]) == Some(p.inner)
    decreases |Parts(c, g)| - i
  {
    hide EveryRange, ValidateConditions;
    if i < |Parts(c, g)| {
      ValidIff(env, Parts(c, g)[i]);
      if ValidateConditions(env, Parts(c, g)[i]).None? {
        PartProblemIsFirst(env, c, g, i + 1);
      }
    }
  }

  /** The problem reported is the first one: nothing looked at before it has a faulty range. Parts come
      before the tree's own range, all-of before any-of before none-of, each list in its order, and
      within a part the same holds again. */
  lemma ProblemIsFirst(env: Env, c: Conditions, p: Problem)
    requires ValidateConditions(env, c) == Some(p)
    ensures p.Here? || p.group != AllOf ==> PartsPass(env, c, AllOf, |c.allOf|)
    ensures p.Here? || p.group == NoneOf ==> PartsPass(env, c, AnyOf, |c.anyOf|)
    ensures p.Here? ==> PartsPass(env, c, NoneOf, |c.noneOf|)
    ensures p.In? ==>
              && p.index < |Parts(c, p.group)| && PartsPass(env, c, p.group, p.index)
              && ValidateConditions(env, Parts(c, p.group)[p.index]) == Some(p.inner)
  {
    hide PartsPass, ValidateParts, ValidateTimeRange;
    PartsPassNone(env, c);
    PartProblemIsFirst(env, c, AllOf, 0);
    PartProblemIsFirst(env, c, AnyOf, 0);
    PartProblemIsFirst(env, c, NoneOf, 0);
  }

  lemma PartsPassNone(env: Env, c: Conditions)
    ensures PartsPass(env, c, AllOf, 0) && PartsPass(env, c, AnyOf, 0) && PartsPass(env, c, NoneOf, 0)
  {
  }

  // ---------------------------------------------------------------- what a validated rule means

  ghost predicate Padding(tr: Span) {
    |tr.start| == 5 && |tr.end| == 5
  }

  /** A time range by minutes: the day in its own zone, and the cyclic interval. */
  ghost predicate InInterval(env: Env, tr: Span, timestamp: int)
    requires ParseTime(tr.start).Some? && ParseTime(tr.end).Some?
  {
    var t := env.localTime(tr.timezone, timestamp);
    && (tr.weekdays == [] || t.weekday in tr.weekdays)
    && Within(ParseTime(tr.start).value, ParseTime(tr.end).value, t.minute)
  }

  /** The meaning of a condition tree with times as minutes instead of texts. */
  ghost predicate Intended(env: Env, c: Conditions, ctx: Context)
    requires EveryRange(c, Passes(env))
    decreases c
  {
    && (forall i :: 0 <= i < |c.allOf| ==> IntendedPart(env, c, AllOf, i, ctx))
    && (c.anyOf == [] || exists i :: 0 <= i < |c.anyOf| && IntendedPart(env, c, AnyOf, i, ctx))
    && (forall i :: 0 <= i < |c.noneOf| ==> !IntendedPart(env, c, NoneOf, i, ctx))
    && FieldsFit(env, c, ctx)
    && (c.timeRange.None? || InInterval(env, c.timeRange.value, ctx.timestamp))
  }

  ghost predicate IntendedPart(env: Env, c: Conditions, g: Group, i: nat, ctx: Context)
    requires EveryRange(c, Passes(env)) && i < |Parts(c, g)|
    decreases c, 0
  {
    Intended(env, Parts(c, g)[i], ctx)
  }

  lemma SpanIsInterval(env: Env, tr: Span, timestamp: int)
    requires ValidateTimeRange(env, tr).None? && Padding(tr)
    ensures InSpan(env, tr, timestamp) == InInterval(env, tr, timestamp)
  {
    TextTestIsRightIff(tr.start, tr.end);
    hide WithinText, Within, ParseTime;
    assert Zone(env, tr) == tr.timezone;
    var m := env.localTime(tr.timezone, timestamp).minute;
    assert WithinText(tr.start, tr.end, Padded(m)) == Within(ParseTime(tr.start).value, ParseTime(tr.end).value, m);
  }

  /** Matching equals meaning: on a validated tree whose times are zero-padded, what the matcher
      computes is the tree with every range read as a cyclic interval of minutes in its own zone. */
  lemma {:induction false} MeaningIsIntended(env: Env, c: Conditions, ctx: Context)
    requires EveryRange(c, Passes(env)) && EveryRange(c, Padding)
    ensures Meaning(env, c, ctx) == Intended(env, c, ctx)
    decreases c
  {
    forall g: Group, i | 0 <= i < |Parts(c, g)|
      ensures Meaning(env, Parts(c, g)[i], ctx) == IntendedPart(env, c, g, i, ctx)
    {
      MeaningIsIntended(env, Parts(c, g)[i], ctx);
    }
    if c.timeRange.Some? {
      SpanIsInterval(env, c.timeRange.value, ctx.timestamp);
    }
    hide FieldsFit, InSpan, InInterval, EveryRange, IntendedPart;
    MeaningByParts(env, c, ctx);
  }

  lemma MeaningByParts(env: Env, c: Conditions, ctx: Context)
    ensures Meaning(env, c, ctx)
         == (&& (forall i :: 0 <= i < |c.allOf| ==> Meaning(env, Parts(c, AllOf)[i], ctx))
             && (c.anyOf == [] || exists i :: 0 <= i < |c.anyOf| && Meaning(env, Parts(c, AnyOf)[i], ctx))
             && (forall i :: 0 <= i < |c.noneOf| ==> !Meaning(env, Parts(c, NoneOf)[i], ctx))
             && FieldsFit(env, c, ctx) && TimeFits(env, c, ctx))
  {
    hide FieldsFit, TimeFits;
    assert Parts(c, AllOf) == c.allOf && Parts(c, AnyOf) == c.anyOf && Parts(c, NoneOf) == c.noneOf;
  }

  // ---------------------------------------------------------------- rules and rule sets

  function Required(actionType: string): Option<string> {
    if actionType == "email" then Some("recipients")
    else if actionType == "webhook" then Some("url")
    else if actionType == "slack" || actionType == "dingtalk" || actionType == "wechat" then Some("webhook_url")
    else if actionType == "pagerduty" then Some("service_key")
    else None
  }

  predicate ActionValid(a: Action) {
    && a.actionType != ""
    && (Required(a.actionType).Some? ==> Required(a.actionType).value in a.config)
    && (a.retryPolicy.Some? ==> a.retryPolicy.value.maxRetries >= 0 && a.retryPolicy.value.backoffRate >= 1.0)
  }

  predicate SilenceValid(env: Env, silence: Silence) {
    silence.enabled ==>
      forall i :: 0 <= i < |silence.timeRanges| ==> ValidateTimeRange(env, silence.timeRanges[i]).None?
  }

  /** The four validators together. */
  predicate RuleValid(env: Env, r: Rule) {
    && r.name != "" && r.priority >= 0 && r.actions != []
    && ValidateConditions(env, r.conditions).None?
    && (forall i :: 0 <= i < |r.actions| ==> ActionValid(r.actions[i]))
    && (r.silence.Some? ==> SilenceValid(env, r.silence.value))
  }

  ghost predicate RulePadded(r: Rule) {
    && EveryRange(r.conditions, Padding)
    && (r.silence.Some? ==>
          forall i :: 0 <= i < |r.silence.value.timeRanges| ==> Padding(r.silence.value.timeRanges[i]))
  }

  /** A silence by minutes. */
  ghost predicate SilencedByMinutes(env: Env, silence: Silence, timestamp: int)
    requires silence.enabled && SilenceValid(env, silence)
  {
    exists i :: 0 <= i < |silence.timeRanges| && InInterval(env, silence.timeRanges[i], timestamp)
  }

  lemma SilenceMeansIntended(env: Env, silence: Silence, timestamp: int)
    requires silence.enabled && SilenceValid(env, silence)
    requires forall i :: 0 <= i < |silence.timeRanges| ==> Padding(silence.timeRanges[i])
    ensures Silenced(env, silence, timestamp) == SilencedByMinutes(env, silence, timestamp)
  {
    forall i | 0 <= i < |silence.timeRanges|
      ensures ParseTime(silence.timeRanges[i].start).Some? && ParseTime(silence.timeRanges[i].end).Some?
      ensures InSpan(env, silence.timeRanges[i], timestamp) == InInterval(env, silence.timeRanges[i], timestamp)
    {
      SpanIsInterval(env, silence.timeRanges[i], timestamp);
    }
    hide InSpan, InInterval, ParseTime, ValidateTimeRange;
  }

  /** Every rule that passes validation, its times zero-padded, matches exactly when it is enabled,
      no range of an enabled silence covers the time by minutes, and its conditions hold by minutes. */
  lemma ValidRuleMeans(env: Env, r: Rule, ctx: Context)
    requires RuleValid(env, r) && RulePadded(r)
    ensures EveryRange(r.conditions, Passes(env))
    ensures RuleMatches(env, r, ctx)
         == (&& r.enabled
             && !(r.silence.Some? && r.silence.value.enabled
                  && SilencedByMinutes(env, r.silence.value, ctx.timestamp))
             && Intended(env, r.conditions, ctx))
  {
    ValidIff(env, r.conditions);
    MeaningIsIntended(env, r.conditions, ctx);
    if r.silence.Some? && r.silence.value.enabled {
      SilenceMeansIntended(env, r.silence.value, ctx.timestamp);
    }
    hide Meaning, Intended, Silenced, SilencedByMinutes, SilenceValid, ValidateConditions, EveryRange, ActionValid;
  }

  /** What the validators ask of a rule, in terms of its fields: a name, a priority of at least 0, some
      action, well-formed ranges in its conditions and in an enabled silence, and of each action a
      type, the setting its type cannot do without, and sane retries. */
  lemma RuleValidIff(env: Env, r: Rule)
    ensures RuleValid(env, r)
       <==> && r.name != "" && r.priority >= 0 && |r.actions| > 0
            && EveryRange(r.conditions, Passes(env))
            && (r.silence.Some? && r.silence.value.enabled ==>
                  forall i :: 0 <= i < |r.silence.value.timeRanges| ==>
                    ValidateTimeRange(env, r.silence.value.timeRanges[i]).None?)
            && forall i :: 0 <= i < |r.actions| ==>
                 var a := r.actions[i];
                 && a.actionType != ""
                 && (a.actionType == "email" ==> "recipients" in a.config)
                 && (a.actionType == "webhook" ==> "url" in a.config)
                 && (a.actionType in {"slack", "dingtalk", "wechat"} ==> "webhook_url" in a.config)
                 && (a.actionType == "pagerduty" ==> "service_key" in a.config)
                 && (a.retryPolicy.Some? ==>
                       a.retryPolicy.value.maxRetries >= 0 && a.retryPolicy.value.backoffRate >= 1.0)
  {
    hide EveryRange, ValidateConditions, ValidateTimeRange;
    ValidIff(env, r.conditions);
  }

  datatype RuleSetError =
    | MissingVersion
    | NoRules
    | EmptyID(index: nat)
    | DuplicateID(index: nat)
    | InvalidRule(index: nat)

  ghost predicate DistinctIDs(rules: seq<Rule>, n: nat)
    requires n <= |rules|
  {
    && (forall i :: 0 <= i < n ==> rules[i].id != "")
    && (forall i, j :: 0 <= i < j < n ==> rules[i].id != rules[j].id)
  }

  ghost predicate ValidTo(env: Env, rules: seq<Rule>, n: nat)
    requires n <= |rules|
  {
    DistinctIDs(rules, n) && forall i :: 0 <= i < n ==> RuleValid(env, rules[i])
  }

  /** What an error says: everything before the place it names is in order. */
  ghost predicate ErrorFits(env: Env, version: string, rules: seq<Rule>, e: RuleSetError) {
    match e
    case MissingVersion => version == ""
    case NoRules => version != "" && rules == []
    case EmptyID(i) => version != "" && i < |rules| && ValidTo(env, rules, i) && rules[i].id == ""
    case DuplicateID(i) =>
      && version != "" && i < |rules| && ValidTo(env, rules, i) && rules[i].id != ""
      && exists j :: 0 <= j < i && rules[j].id == rules[i].id
    case InvalidRule(i) =>
      version != "" && i < |rules| && ValidTo(env, rules, i) && DistinctIDs(rules, i + 1) && !RuleValid(env, rules[i])
  }

  method ValidateActions(actions: seq<Action>) returns (ok: bool)
    ensures ok == forall i :: 0 <= i < |actions| ==> ActionValid(actions[i])
  {
    for i := 0 to |actions|
      invariant forall j :: 0 <= j < i ==> ActionValid(actions[j])
    {
      if !ActionValid(actions[i]) {
        return false;
      }
    }
    return true;
  }

  method ValidateSilence(env: Env, silence: Silence) returns (ok: bool)
    ensures ok == SilenceValid(env, silence)
  {
    hide ValidateTimeRange;
    if silence.enabled {
      for i := 0 to |silence.timeRanges|
        invariant forall j :: 0 <= j < i ==> ValidateTimeRange(env, silence.timeRanges[j]).None?
      {
        if ValidateTimeRange(env, silence.timeRanges[i]).Some? {
          return false;
        }
      }
    }
    return true;
  }

  /** The basic validator, then conditions, actions and time ranges. The last one looks at the
      root's time range again, which the second has already accepted. */
  method ValidateRule(env: Env, r: Rule) returns (ok: bool)
    ensures ok == RuleValid(env, r)
  {
    hide ValidateConditions, ActionValid, SilenceValid;
    if r.name == "" || r.priority < 0 || |r.actions| == 0 {
      return false;
    }
    if ValidateConditions(env, r.conditions).Some? {
      return false;
    }
    ok := ValidateActions(r.actions);
    if ok && r.silence.Some? {
      ok := ValidateSilence(env, r.silence.value);
    }
  }

  /** Accepts exactly the rule sets with a version, at least one rule, non-empty distinct ids and
      only valid rules, and otherwise names the first rule at fault. */
  method ValidateRuleSet(env: Env, version: string, rules: seq<Rule>) returns (error: Option<RuleSetError>)
    ensures error.None? <==> version != "" && rules != [] && ValidTo(env, rules, |rules|)
    ensures error.Some? ==> ErrorFits(env, version, rules, error.value)
  {
    hide RuleValid;
    if version == "" {
      return Some(MissingVersion);
    }
    if |rules| == 0 {
      return Some(NoRules);
    }
    var ruleIDs: set<string> := {};
    for i := 0 to |rules|
      invariant ValidTo(env, rules, i)
      invariant forall id :: id in ruleIDs <==> exists j :: 0 <= j < i && rules[j].id == id
    {
      if rules[i].id == "" {
        return Some(EmptyID(i));
      }
      if rules[i].id in ruleIDs {
        return Some(DuplicateID(i));
      }
      ruleIDs := ruleIDs + {rules[i].id};
      var ok := ValidateRule(env, rules[i]);
      if !ok {
        return Some(InvalidRule(i));
      }
    }
    return None;
  }

  // ---------------------------------------------------------------- defaults

  const DEFAULT_RETRY := RetryPolicy(3, 5 * 1_000_000_000, 2.0)

  function DefaultedAction(a: Action): Action {
    a.(enabled := true, retryPolicy := if a.retryPolicy.None? then Some(DEFAULT_RETRY) else a.retryPolicy)
  }

  function DefaultedActions(actions: seq<Action>): (r: seq<Action>)
    ensures |r| == |actions| && forall i :: 0 <= i < |r| ==> r[i] == DefaultedAction(actions[i])
  {
    seq(|actions|, i requires 0 <= i < |actions| => DefaultedAction(actions[i]))
  }

  function Defaulted(r: Rule): Rule {
    r.(enabled := true,
       priority := if r.priority == 0 then 100 else r.priority,
       actions := DefaultedActions(r.actions),
       rateLimit := if r.rateLimit.Some? && r.rateLimit.value.scope == ""
                    then Some(r.rateLimit.value.(scope := "per_rule")) else r.rateLimit)
  }

  /** Rewrites the rules in place. */
  method InitializeDefaults(rules: array<Rule>)
    modifies rules
    ensures forall i :: 0 <= i < rules.Length ==> rules[i] == Defaulted(old(rules[i]))
  {
    for i := 0 to rules.Length
      invariant forall k :: 0 <= k < i ==> rules[k] == Defaulted(old(rules[k]))
      invariant forall k :: i <= k < rules.Length ==> rules[k] == old(rules[k])
    {
      var rule := rules[i];
      if !rule.enabled {
        rule := rule.(enabled := true);
      }
      if rule.priority == 0 {
        rule := rule.(priority := 100);
      }
      var actions := DefaultActions(rule.actions);
      rule := rule.(actions := actions);
      if rule.rateLimit.Some? && rule.rateLimit.value.scope == "" {
        rule := rule.(rateLimit := Some(rule.rateLimit.value.(scope := "per_rule")));
      }
      rules[i] := rule;
    }
  }

  method DefaultActions(actions: seq<Action>) returns (r: seq<Action>)
    ensures r == DefaultedActions(actions)
  {
    r := actions;
    for j := 0 to |r|
      invariant |r| == |actions|
      invariant forall k :: 0 <= k < j ==> r[k] == DefaultedAction(actions[k])
      invariant forall k :: j <= k < |r| ==> r[k] == actions[k]
    {
      var action := r[j];
      if !action.enabled {
        action := action.(enabled := true);
      }
      if action.retryPolicy.None? {
        action := action.(retryPolicy := Some(DEFAULT_RETRY));
      }
      r := r[j := action];
    }
  }

  /** What loading leaves of a rule: it is enabled, and so is every action; a priority of 0 has become
      100; an action without retries has three, five seconds apart and doubling; a rate limit without
      a scope is per rule. Whatever was written elsewhere stays. */
  lemma DefaultsFill(r: Rule)
    ensures var d := Defaulted(r);
            && d.enabled && d.priority != 0 && (r.priority != 0 ==> d.priority == r.priority)
            && (r.priority == 0 ==> d.priority == 100)
            && d.id == r.id && d.name == r.name && d.conditions == r.conditions
            && d.escalation == r.escalation && d.silence == r.silence
            && |d.actions| == |r.actions|
            && (forall i :: 0 <= i < |r.actions| ==>
                  && d.actions[i].enabled && d.actions[i].retryPolicy.Some?
                  && d.actions[i].actionType == r.actions[i].actionType
                  && d.actions[i].config == r.actions[i].config
                  && (r.actions[i].retryPolicy.Some? ==> d.actions[i].retryPolicy == r.actions[i].retryPolicy)
                  && (r.actions[i].retryPolicy.None? ==>
                        && d.actions[i].retryPolicy.value.maxRetries == 3
                        && d.actions[i].retryPolicy.value.retryDelay == 5_000_000_000
                        && d.actions[i].retryPolicy.value.backoffRate == 2.0))
            && (r.rateLimit.Some? <==> d.rateLimit.Some?)
            && (r.rateLimit.Some? ==>
                  && d.rateLimit.value.maxNotifications == r.rateLimit.value.maxNotifications
                  && d.rateLimit.value.window == r.rateLimit.value.window
                  && d.rateLimit.value.scope == if r.rateLimit.value.scope == "" then "per_rule"
                                                else r.rateLimit.value.scope)
  {
  }

  /** Filling in defaults twice changes nothing more, keeps a valid rule valid and keeps its id. */
  lemma DefaultsSettle(env: Env, r: Rule)
    ensures Defaulted(Defaulted(r)) == Defaulted(r) && Defaulted(r).id == r.id
    ensures RuleValid(env, r) ==> RuleValid(env, Defaulted(r))
  {
    hide ValidateConditions, SilenceValid;
    var a, b := DefaultedActions(r.actions), DefaultedActions(DefaultedActions(r.actions));
    assert b == a;
  }

  /** The defaults override what a rule file says: a rule written as disabled loads as enabled, and
      then matches exactly when the same rule written as enabled would. */
  lemma DisabledRulesLoadEnabled(env: Env, r: Rule, ctx: Context)
    ensures RuleMatches(env, Defaulted(r), ctx) == RuleMatches(env, r.(enabled := true), ctx)
    ensures !r.enabled ==> !RuleMatches(env, r, ctx)
  {
    hide Meaning, Silenced;
  }

  /** The rules of a set once loaded. */
  function Loaded(rules: seq<Rule>): (r: seq<Rule>)
    ensures |r| == |rules| && forall i :: 0 <= i < |r| ==> r[i] == Defaulted(rules[i])
  {
    seq(|rules|, i requires 0 <= i < |rules| => Defaulted(rules[i]))
  }

  function AllEnabled(rules: seq<Rule>): (r: seq<Rule>)
    ensures |r| == |rules| && forall i :: 0 <= i < |r| ==> r[i] == rules[i].(enabled := true)
  {
    seq(|rules|, i requires 0 <= i < |rules| => rules[i].(enabled := true))
  }

  /** So for a whole rule set and any alert: what matches once it is loaded is what would match, in the
      same order, had every rule been written enabled. */
  lemma {:induction false} LoadedSetMatches(env: Env, rules: seq<Rule>, n: nat, ctx: Context)
    requires n <= |rules|
    ensures Matching(env, Loaded(rules), n, ctx) == Loaded(Matching(env, AllEnabled(rules), n, ctx))
  {
    hide RuleMatches, Defaulted;
    if n > 0 {
      var r := rules[n - 1];
      LoadedSetMatches(env, rules, n - 1, ctx);
      DisabledRulesLoadEnabled(env, r, ctx);
      var before := Matching(env, AllEnabled(rules), n - 1, ctx);
      SameOnceLoaded(r);
      assert Loaded(before + [r.(enabled := true)]) == Loaded(before) + [Defaulted(r)];
    }
  }

  lemma SameOnceLoaded(r: Rule)
    ensures Defaulted(r.(enabled := true)) == Defaulted(r)
  {
  }

  /** A rule written with priority 0 loads behind every rule with a priority below 100, though 0
      sorts first among the priorities validation allows. The order of two valid rules survives
      loading iff not the one that is first is written with 0 and the other with 1 to 100. */
  lemma PriorityOrderKeptIff(env: Env, r: Rule, q: Rule)
    requires RuleValid(env, r) && RuleValid(env, q) && r.priority < q.priority
    ensures Defaulted(r).priority < Defaulted(q).priority <==> !(r.priority == 0 && q.priority <= 100)
  {
    hide ValidateConditions, SilenceValid, ActionValid;
  }
}
