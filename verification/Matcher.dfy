/** Matching alerts against rules: a recursive matcher that stops early and caches compiled
    patterns, and the meaning it computes. */
module Matcher {
  import opened Wrappers
  import opened TimeRange
  import opened RuleTypes

  // ---------------------------------------------------------------- what conditions mean

  function Zone(env: Env, tr: Span): string {
    if tr.timezone != "" && env.zoneKnown(tr.timezone) then tr.timezone else ""
  }

  predicate OnDay(env: Env, tr: Span, timestamp: int) {
    tr.weekdays == [] || env.localTime(Zone(env, tr), timestamp).weekday in tr.weekdays
  }

  predicate InSpan(env: Env, tr: Span, timestamp: int) {
    && OnDay(env, tr, timestamp)
    && WithinText(tr.start, tr.end, Padded(env.localTime(Zone(env, tr), timestamp).minute))
  }

  predicate Silenced(env: Env, silence: Silence, timestamp: int) {
    exists i :: 0 <= i < |silence.timeRanges| && InSpan(env, silence.timeRanges[i], timestamp)
  }

  function AsText(env: Env, value: Json): string {
    match value
    case JsonString(text) => text
    case JsonNumber(number) => env.formatFloat(number)
    case JsonBool(b) => if b then "true" else "false"
    case JsonOther => ""
  }

  predicate OneOf(allowed: seq<string>, value: string) {
    value in allowed
  }

  predicate DeviceListed(allowed: seq<string>, deviceID: string) {
    deviceID in allowed || "*" in allowed
  }

  predicate Tagged(required: seq<string>, tags: seq<string>) {
    forall i :: 0 <= i < |required| ==> required[i] in tags
  }

  predicate MessageFits(env: Env, pattern: string, message: string) {
    env.compile(pattern).Some? && env.matchString(env.compile(pattern).value, message)
  }

  predicate MetadataFits(env: Env, required: map<string, string>, metadata: map<string, Json>) {
    forall k :: k in required ==> k in metadata && AsText(env, metadata[k]) == required[k]
  }

  /** The field tests of a condition other than its time range. An empty field asks nothing, and the
      device tests ask nothing when the alert names no device or the device is not known. */
  predicate FieldsFit(env: Env, c: Conditions, ctx: Context) {
    && (c.severity == [] || OneOf(c.severity, ctx.alert.severity))
    && (c.alertTypes == [] || OneOf(c.alertTypes, ctx.alert.alertType))
    && (c.deviceIDs == [] || ctx.alert.deviceID.None? || DeviceListed(c.deviceIDs, ctx.alert.deviceID.value))
    && (c.deviceTags == [] || ctx.deviceTags.None? || Tagged(c.deviceTags, ctx.deviceTags.value))
    && (c.messageMatch == "" || MessageFits(env, c.messageMatch, ctx.alert.message))
    && MetadataFits(env, c.metadata, ctx.alert.metadata)
  }

  predicate TimeFits(env: Env, c: Conditions, ctx: Context) {
    c.timeRange.None? || InSpan(env, c.timeRange.value, ctx.timestamp)
  }

  /** The meaning of a condition tree: every all-of part, some any-of part if there are any, no
      none-of part, and the condition's own fields. */
  ghost predicate Meaning(env: Env, c: Conditions, ctx: Context)
    decreases c
  {
    && (forall i :: 0 <= i < |c.allOf| ==> Meaning(env, c.allOf[i], ctx))
    && (c.anyOf == [] || exists i :: 0 <= i < |c.anyOf| && Meaning(env, c.anyOf[i], ctx))
    && (forall i :: 0 <= i < |c.noneOf| ==> !Meaning(env, c.noneOf[i], ctx))
    && FieldsFit(env, c, ctx)
    && TimeFits(env, c, ctx)
  }

  ghost predicate RuleMatches(env: Env, rule: Rule, ctx: Context) {
    && rule.enabled
    && !(rule.silence.Some? && rule.silence.value.enabled && Silenced(env, rule.silence.value, ctx.timestamp))
    && Meaning(env, rule.conditions, ctx)
  }

  /** The matching rules among the first n, in their order. */
  ghost function Matching(env: Env, rules: seq<Rule>, n: nat, ctx: Context): seq<Rule>
    requires n <= |rules|
  {
    if n == 0 then []
    else Matching(env, rules, n - 1, ctx) + if RuleMatches(env, rules[n - 1], ctx) then [rules[n - 1]] else []
  }

  // ---------------------------------------------------------------- what a match says about an alert

  /** What a matching tree asks of the alert, field by field. An alert without a device, or with one
      that is not known, is asked nothing about it. */
  lemma MatchNeedsFields(env: Env, c: Conditions, ctx: Context)
    requires Meaning(env, c, ctx)
    ensures c.severity != [] ==> ctx.alert.severity in c.severity
    ensures c.alertTypes != [] ==> ctx.alert.alertType in c.alertTypes
    ensures c.deviceIDs != [] && ctx.alert.deviceID.Some? ==>
              ctx.alert.deviceID.value in c.deviceIDs || "*" in c.deviceIDs
    ensures ctx.deviceTags.Some? ==> forall tag :: tag in c.deviceTags ==> tag in ctx.deviceTags.value
    ensures c.messageMatch != "" ==>
              env.compile(c.messageMatch).Some?
              && env.matchString(env.compile(c.messageMatch).value, ctx.alert.message)
    ensures forall k :: k in c.metadata ==> k in ctx.alert.metadata
    ensures forall k :: k in c.metadata && k in ctx.alert.metadata ==>
              match ctx.alert.metadata[k]
              case JsonString(text) => c.metadata[k] == text
              case JsonNumber(number) => c.metadata[k] == env.formatFloat(number)
              case JsonBool(b) => c.metadata[k] == if b then "true" else "false"
              case JsonOther => c.metadata[k] == ""
    ensures c.timeRange.Some? ==>
              var tr := c.timeRange.value;
              var zone := if tr.timezone != "" && env.zoneKnown(tr.timezone) then tr.timezone else "";
              && (tr.weekdays != [] ==> env.localTime(zone, ctx.timestamp).weekday in tr.weekdays)
              && WithinText(tr.start, tr.end, Padded(env.localTime(zone, ctx.timestamp).minute))
  {
    hide WithinText, Padded;
  }

  /** And a matching tree's parts: all of the first group, some of the second, none of the third. */
  lemma MatchNeedsParts(env: Env, c: Conditions, ctx: Context)
    requires Meaning(env, c, ctx)
    ensures forall i :: 0 <= i < |c.allOf| ==> Meaning(env, c.allOf[i], ctx)
    ensures c.anyOf != [] ==> exists i :: 0 <= i < |c.anyOf| && Meaning(env, c.anyOf[i], ctx)
    ensures forall i :: 0 <= i < |c.noneOf| ==> !Meaning(env, c.noneOf[i], ctx)
  {
    hide FieldsFit, TimeFits;
  }

  /** Nothing else is asked: a tree whose parts and non-empty fields all fit the alert matches it. */
  lemma FittingTreeMatches(env: Env, c: Conditions, ctx: Context)
    requires forall i :: 0 <= i < |c.allOf| ==> Meaning(env, c.allOf[i], ctx)
    requires c.anyOf == [] || exists i :: 0 <= i < |c.anyOf| && Meaning(env, c.anyOf[i], ctx)
    requires forall i :: 0 <= i < |c.noneOf| ==> !Meaning(env, c.noneOf[i], ctx)
    requires c.severity == [] || ctx.alert.severity in c.severity
    requires c.alertTypes == [] || ctx.alert.alertType in c.alertTypes
    requires c.deviceIDs == [] || ctx.alert.deviceID.None?
             || ctx.alert.deviceID.value in c.deviceIDs || "*" in c.deviceIDs
    requires ctx.deviceTags.None? || forall tag :: tag in c.deviceTags ==> tag in ctx.deviceTags.value
    requires c.messageMatch == ""
             || (env.compile(c.messageMatch).Some?
                 && env.matchString(env.compile(c.messageMatch).value, ctx.alert.message))
    requires forall k :: k in c.metadata ==>
               && k in ctx.alert.metadata
               && match ctx.alert.metadata[k]
                  case JsonString(text) => c.metadata[k] == text
                  case JsonNumber(number) => c.metadata[k] == env.formatFloat(number)
                  case JsonBool(b) => c.metadata[k] == if b then "true" else "false"
                  case JsonOther => c.metadata[k] == ""
    requires c.timeRange.None?
             || var tr := c.timeRange.value;
                var zone := if tr.timezone != "" && env.zoneKnown(tr.timezone) then tr.timezone else "";
                && (tr.weekdays == [] || env.localTime(zone, ctx.timestamp).weekday in tr.weekdays)
                && WithinText(tr.start, tr.end, Padded(env.localTime(zone, ctx.timestamp).minute))
    ensures Meaning(env, c, ctx)
  {
    hide WithinText, Padded;
    assert FieldsFit(env, c, ctx) && TimeFits(env, c, ctx);
  }

  /** Whether an enabled rule is silenced, range by range. */
  lemma SilencedIffInRange(env: Env, rule: Rule, ctx: Context)
    requires rule.enabled && Meaning(env, rule.conditions, ctx)
    ensures !RuleMatches(env, rule, ctx)
       <==> && rule.silence.Some? && rule.silence.value.enabled
            && exists i :: 0 <= i < |rule.silence.value.timeRanges|
                 && var tr := rule.silence.value.timeRanges[i];
                    var zone := if tr.timezone != "" && env.zoneKnown(tr.timezone) then tr.timezone else "";
                    && (tr.weekdays == [] || env.localTime(zone, ctx.timestamp).weekday in tr.weekdays)
                    && WithinText(tr.start, tr.end, Padded(env.localTime(zone, ctx.timestamp).minute))
  {
    hide WithinText, Padded, Meaning;
  }

  // ---------------------------------------------------------------- order of sub-conditions

  /** A condition tree without the order of its parts, and without repetitions. */
  datatype Shape = Shape(own: Conditions, parts: map<Group, set<Shape>>)

  ghost function ShapeOf(c: Conditions): Shape
    decreases c, 1
  {
    Shape(c.(allOf := [], anyOf := [], noneOf := []),
          map[AllOf := PartShapes(c, AllOf), AnyOf := PartShapes(c, AnyOf), NoneOf := PartShapes(c, NoneOf)])
  }

  ghost function PartShapes(c: Conditions, g: Group): set<Shape>
    decreases c, 0
  {
    set i | 0 <= i < |Parts(c, g)| :: ShapeOf(Parts(c, g)[i])
  }

  /** What the parts of a list mean, in their order. */
  ghost function Values(env: Env, cs: seq<Conditions>, ctx: Context): (r: seq<bool>)
    ensures |r| == |cs|
    ensures forall i :: 0 <= i < |cs| ==> r[i] == Meaning(env, cs[i], ctx)
  {
    seq(|cs|, i requires 0 <= i < |cs| => Meaning(env, cs[i], ctx))
  }

  lemma ValuesTell(env: Env, cs: seq<Conditions>, ctx: Context)
    ensures (forall i :: 0 <= i < |cs| ==> Meaning(env, cs[i], ctx)) == (false !in Values(env, cs, ctx))
    ensures (exists i :: 0 <= i < |cs| && Meaning(env, cs[i], ctx)) == (true in Values(env, cs, ctx))
  {
    var vs := Values(env, cs, ctx);
    if false in vs {
      var i :| 0 <= i < |vs| && vs[i] == false;
      assert !Meaning(env, cs[i], ctx);
    }
    if i :| 0 <= i < |cs| && Meaning(env, cs[i], ctx) {
      assert vs[i];
    }
  }

  lemma MeaningUnfolds(env: Env, c: Conditions, ctx: Context)
    ensures Meaning(env, c, ctx)
         == (&& (forall i :: 0 <= i < |c.allOf| ==> Meaning(env, c.allOf[i], ctx))
             && (c.anyOf == [] || exists i :: 0 <= i < |c.anyOf| && Meaning(env, c.anyOf[i], ctx))
             && (forall i :: 0 <= i < |c.noneOf| ==> !Meaning(env, c.noneOf[i], ctx))
             && FieldsFit(env, c, ctx) && TimeFits(env, c, ctx))
  {
    hide FieldsFit, TimeFits;
  }

  lemma MeaningByGroups(env: Env, c: Conditions, ctx: Context)
    ensures Meaning(env, c, ctx)
         == (&& false !in Values(env, Parts(c, AllOf), ctx)
             && (|Parts(c, AnyOf)| == 0 || true in Values(env, Parts(c, AnyOf), ctx))
             && true !in Values(env, Parts(c, NoneOf), ctx)
             && FieldsFit(env, c, ctx) && TimeFits(env, c, ctx))
  {
    hide Meaning, FieldsFit, TimeFits, Values;
    MeaningUnfolds(env, c, ctx);
    ValuesTell(env, c.allOf, ctx);
    ValuesTell(env, c.anyOf, ctx);
    ValuesTell(env, c.noneOf, ctx);
  }

  lemma SameFields(env: Env, c: Conditions, d: Conditions, ctx: Context)
    requires c.(allOf := [], anyOf := [], noneOf := []) == d.(allOf := [], anyOf := [], noneOf := [])
    ensures FieldsFit(env, c, ctx) == FieldsFit(env, d, ctx) && TimeFits(env, c, ctx) == TimeFits(env, d, ctx)
  {
    hide OneOf, DeviceListed, Tagged, MessageFits, MetadataFits, InSpan;
  }

  lemma SameShapes(c: Conditions, d: Conditions, g: Group)
    requires ShapeOf(c) == ShapeOf(d)
    ensures PartShapes(c, g) == PartShapes(d, g)
  {
    assert ShapeOf(c).parts[g] == PartShapes(c, g);
    assert ShapeOf(d).parts[g] == PartShapes(d, g);
  }

  lemma Counterpart(c: Conditions, d: Conditions, g: Group, i: nat) returns (j: nat)
    requires ShapeOf(c) == ShapeOf(d) && i < |Parts(c, g)|
    ensures j < |Parts(d, g)| && ShapeOf(Parts(c, g)[i]) == ShapeOf(Parts(d, g)[j])
  {
    SameShapes(c, d, g);
    assert ShapeOf(Parts(c, g)[i]) in PartShapes(c, g);
    assert ShapeOf(Parts(c, g)[i]) in PartShapes(d, g);
    hide Parts;
    j :| 0 <= j < |Parts(d, g)| && ShapeOf(Parts(c, g)[i]) == ShapeOf(Parts(d, g)[j]);
  }

  lemma SameGroups(env: Env, c: Conditions, d: Conditions, g: Group, ctx: Context)
    requires ShapeOf(c) == ShapeOf(d)
    ensures forall b :: b in Values(env, Parts(c, g), ctx) <==> b in Values(env, Parts(d, g), ctx)
    decreases c, 0
  {
    var vs, ws := Values(env, Parts(c, g), ctx), Values(env, Parts(d, g), ctx);
    hide Meaning, ShapeOf;
    forall i | 0 <= i < |vs|
      ensures vs[i] in ws
    {
      var j := Counterpart(c, d, g, i);
      ShapeDecidesMeaning(env, Parts(c, g)[i], Parts(d, g)[j], ctx);
      assert ws[j] == vs[i];
    }
    forall j | 0 <= j < |ws|
      ensures ws[j] in vs
    {
      var i := Counterpart(d, c, g, j);
      ShapeDecidesMeaning(env, Parts(c, g)[i], Parts(d, g)[j], ctx);
      assert vs[i] == ws[j];
    }
  }

  lemma SameEmptiness(env: Env, c: Conditions, d: Conditions, g: Group, ctx: Context)
    requires forall b :: b in Values(env, Parts(c, g), ctx) <==> b in Values(env, Parts(d, g), ctx)
    ensures |Parts(c, g)| == 0 <==> |Parts(d, g)| == 0
  {
    hide Meaning, Parts;
    if |Parts(c, g)| > 0 {
      assert Values(env, Parts(c, g), ctx)[0] in Values(env, Parts(d, g), ctx);
    }
    if |Parts(d, g)| > 0 {
      assert Values(env, Parts(d, g), ctx)[0] in Values(env, Parts(c, g), ctx);
    }
  }

  /** Reordering or repeating sub-conditions, at any depth, does not change what a tree means. */
  lemma {:induction false} ShapeDecidesMeaning(env: Env, c: Conditions, d: Conditions, ctx: Context)
    requires ShapeOf(c) == ShapeOf(d)
    ensures Meaning(env, c, ctx) == Meaning(env, d, ctx)
    decreases c, 1
  {
    SameFields(env, c, d, ctx);
    hide Meaning, ShapeOf, FieldsFit, TimeFits, Values;
    SameGroups(env, c, d, AllOf, ctx);
    SameGroups(env, c, d, AnyOf, ctx);
    SameGroups(env, c, d, NoneOf, ctx);
    SameEmptiness(env, c, d, AnyOf, ctx);
    MeaningByGroups(env, c, ctx);
    MeaningByGroups(env, d, ctx);
  }

  /** In particular, the order in which sub-conditions are written does not matter. */
  lemma PermutedMeansSame(env: Env, c: Conditions, d: Conditions, ctx: Context)
    requires d == c.(allOf := d.allOf, anyOf := d.anyOf, noneOf := d.noneOf)
    requires forall g: Group :: multiset(Parts(c, g)) == multiset(Parts(d, g))
    ensures Meaning(env, c, ctx) == Meaning(env, d, ctx)
  {
    hide Meaning;
    PermutedParts(c, d, AllOf);
    PermutedParts(c, d, AnyOf);
    PermutedParts(c, d, NoneOf);
    assert ShapeOf(c) == ShapeOf(d) by {
      hide PartShapes;
    }
    ShapeDecidesMeaning(env, c, d, ctx);
  }

  lemma PermutedParts(c: Conditions, d: Conditions, g: Group)
    requires multiset(Parts(c, g)) == multiset(Parts(d, g))
    ensures PartShapes(c, g) == PartShapes(d, g)
  {
    hide ShapeOf, Parts;
    forall i | 0 <= i < |Parts(c, g)|
      ensures ShapeOf(Parts(c, g)[i]) in PartShapes(d, g)
    {
      assert Parts(c, g)[i] in multiset(Parts(d, g));
      var j :| 0 <= j < |Parts(d, g)| && Parts(d, g)[j] == Parts(c, g)[i];
    }
    forall j | 0 <= j < |Parts(d, g)|
      ensures ShapeOf(Parts(d, g)[j]) in PartShapes(c, g)
    {
      assert Parts(d, g)[j] in multiset(Parts(c, g));
      var i :| 0 <= i < |Parts(c, g)| && Parts(c, g)[i] == Parts(d, g)[j];
    }
  }

  // ---------------------------------------------------------------- the matcher

  /** Severities and alert types are looked up the same way. */
  method MatchOneOf(allowed: seq<string>, value: string) returns (r: bool)
    ensures r == OneOf(allowed, value)
  {
    for i := 0 to |allowed|
      invariant value !in allowed[..i]
    {
      if allowed[i] == value {
        return true;
      }
    }
    return false;
  }

  method MatchDeviceID(allowed: seq<string>, deviceID: string) returns (r: bool)
    ensures r == DeviceListed(allowed, deviceID)
  {
    for i := 0 to |allowed|
      invariant deviceID !in allowed[..i] && "*" !in allowed[..i]
    {
      if allowed[i] == deviceID || allowed[i] == "*" {
        return true;
      }
    }
    return false;
  }

  method MatchDeviceTags(required: seq<string>, tags: seq<string>) returns (r: bool)
    ensures r == Tagged(required, tags)
  {
    var deviceTags: map<string, bool> := map[];
    for i := 0 to |tags|
      invariant forall t :: t in deviceTags <==> t in tags[..i]
    {
      deviceTags := deviceTags[tags[i] := true];
    }
    for i := 0 to |required|
      invariant forall j :: 0 <= j < i ==> required[j] in tags
    {
      if required[i] !in deviceTags {
        return false;
      }
    }
    return true;
  }

  method MatchTimeRange(env: Env, tr: Span, timestamp: int) returns (r: bool)
    ensures r == InSpan(env, tr, timestamp)
  {
    var loc := "";
    if tr.timezone != "" && env.zoneKnown(tr.timezone) {
      loc := tr.timezone;
    }
    var t := env.localTime(loc, timestamp);
    if |tr.weekdays| > 0 {
      var matched := MatchOneOf(tr.weekdays, t.weekday);
      if !matched {
        return false;
      }
    }
    var currentTime := Padded(t.minute);
    if AtMost(tr.start, tr.end) {
      return AtMost(tr.start, currentTime) && AtMost(currentTime, tr.end);
    } else {
      return AtMost(tr.start, currentTime) || AtMost(currentTime, tr.end);
    }
  }

  method IsInSilencePeriod(env: Env, silence: Silence, timestamp: int) returns (r: bool)
    ensures r == Silenced(env, silence, timestamp)
  {
    for i := 0 to |silence.timeRanges|
      invariant forall j :: 0 <= j < i ==> !InSpan(env, silence.timeRanges[j], timestamp)
    {
      var inside := MatchTimeRange(env, silence.timeRanges[i], timestamp);
      if inside {
        return true;
      }
    }
    return false;
  }

  /** The keys come in no particular order. */
  method MatchMetadata(env: Env, required: map<string, string>, metadata: map<string, Json>) returns (r: bool)
    ensures r == MetadataFits(env, required, metadata)
  {
    var rest := required.Keys;
    while rest != {}
      invariant rest <= required.Keys
      invariant forall k :: k in required.Keys - rest ==> k in metadata && AsText(env, metadata[k]) == required[k]
      decreases |rest|
    {
      var key :| key in rest;
      if key !in metadata || AsText(env, metadata[key]) != required[key] {
        return false;
      }
      rest := rest - {key};
    }
    return true;
  }

  class RuleMatcher {
    const env: Env
    var regexCache: map<string, Regexp>

    /** The cache holds what compiling gives. */
    ghost predicate CacheOk()
      reads this
    {
      forall p :: p in regexCache ==> env.compile(p) == Some(regexCache[p])
    }

    constructor (env: Env)
      ensures this.env == env && CacheOk()
    {
      this.env := env;
      regexCache := map[];
    }

    method MatchMessage(pattern: string, message: string) returns (r: bool)
      requires CacheOk()
      modifies this`regexCache
      ensures CacheOk() && r == MessageFits(env, pattern, message)
    {
      var regex;
      if pattern in regexCache {
        regex := regexCache[pattern];
      } else {
        var compiled := env.compile(pattern);
        if compiled.None? {
          return false;
        }
        regex := compiled.value;
        regexCache := regexCache[pattern := regex];
      }
      return env.matchString(regex, message);
    }

    /** The condition's own fields, in the order they are tried. */
    method MatchFields(c: Conditions, ctx: Context) returns (r: bool)
      requires CacheOk()
      modifies this`regexCache
      ensures CacheOk() && r == (FieldsFit(env, c, ctx) && TimeFits(env, c, ctx))
    {
      hide OneOf, DeviceListed, Tagged, MessageFits, InSpan;
      var alert := ctx.alert;
      if |c.severity| > 0 {
        r := MatchOneOf(c.severity, alert.severity);
        if !r { return; }
      }
      if |c.alertTypes| > 0 {
        r := MatchOneOf(c.alertTypes, alert.alertType);
        if !r { return; }
      }
      if |c.deviceIDs| > 0 && alert.deviceID.Some? {
        r := MatchDeviceID(c.deviceIDs, alert.deviceID.value);
        if !r { return; }
      }
      if |c.deviceTags| > 0 && ctx.deviceTags.Some? {
        r := MatchDeviceTags(c.deviceTags, ctx.deviceTags.value);
        if !r { return; }
      }
      if c.timeRange.Some? {
        r := MatchTimeRange(env, c.timeRange.value, ctx.timestamp);
        if !r { return; }
      }
      if c.messageMatch != "" {
        r := MatchMessage(c.messageMatch, alert.message);
        if !r { return; }
      }
      if |c.metadata| > 0 {
        r := MatchMetadata(env, c.metadata, alert.metadata);
        if !r { return; }
      }
      return true;
    }

    /** Whatever the cache holds, the early-exit recursion computes the meaning of the tree. */
    method MatchConditions(c: Conditions, ctx: Context) returns (r: bool)
      requires CacheOk()
      modifies this`regexCache
      ensures CacheOk() && r == Meaning(env, c, ctx)
      decreases c
    {
      hide FieldsFit, TimeFits;
      for i := 0 to |c.allOf|
        invariant CacheOk() && forall j :: 0 <= j < i ==> Meaning(env, c.allOf[j], ctx)
      {
        var sub := MatchConditions(c.allOf[i], ctx);
        if !sub {
          return false;
        }
      }
      if |c.anyOf| > 0 {
        var matched := false;
        var i := 0;
        while i < |c.anyOf|
          invariant 0 <= i <= |c.anyOf| && CacheOk() && !matched
          invariant forall j :: 0 <= j < i ==> !Meaning(env, c.anyOf[j], ctx)
        {
          var sub := MatchConditions(c.anyOf[i], ctx);
          if sub {
            matched := true;
            break;
          }
          i := i + 1;
        }
        if !matched {
          return false;
        }
      }
      for i := 0 to |c.noneOf|
        invariant CacheOk() && forall j :: 0 <= j < i ==> !Meaning(env, c.noneOf[j], ctx)
      {
        var sub := MatchConditions(c.noneOf[i], ctx);
        if sub {
          return false;
        }
      }
      r := MatchFields(c, ctx);
    }

    method Match(rule: Rule, ctx: Context) returns (r: bool)
      requires CacheOk()
      modifies this`regexCache
      ensures CacheOk() && r == RuleMatches(env, rule, ctx)
    {
      hide Meaning, Silenced;
      if !rule.enabled {
        return false;
      }
      if rule.silence.Some? && rule.silence.value.enabled {
        var silent := IsInSilencePeriod(env, rule.silence.value, ctx.timestamp);
        if silent {
          return false;
        }
      }
      r := MatchConditions(rule.conditions, ctx);
    }

    /** The matching rules, each as often as it occurs, in order of priority. */
    method MatchMultiple(rules: seq<Rule>, ctx: Context) returns (matched: seq<Rule>)
      requires CacheOk()
      modifies this`regexCache
      ensures CacheOk() && ByPriority(matched)
      ensures multiset(matched) == multiset(Matching(env, rules, |rules|, ctx))
    {
      hide RuleMatches;
      matched := [];
      for i := 0 to |rules|
        invariant CacheOk() && matched == Matching(env, rules, i, ctx)
      {
        var ok := Match(rules[i], ctx);
        if ok {
          matched := matched + [rules[i]];
        }
      }
      matched := SortByPriority(matched);
    }
  }

  // ---------------------------------------------------------------- the exchange sort

  ghost predicate ByPriority(rules: seq<Rule>) {
    forall i, j :: 0 <= i < j < |rules| ==> rules[i].priority <= rules[j].priority
  }

  /** The first i places hold the smallest priorities, in order. */
  ghost predicate SortedTo(rules: seq<Rule>, i: nat)
    requires i <= |rules|
  {
    forall a, b :: 0 <= a < i && a < b < |rules| ==> rules[a].priority <= rules[b].priority
  }

  function Swapped(s: seq<Rule>, i: nat, j: nat): seq<Rule>
    requires i < j < |s|
  {
    s[i := s[j]][j := s[i]]
  }

  lemma SwapKeeps(s: seq<Rule>, i: nat, j: nat)
    requires i < j < |s| && SortedTo(s, i)
    ensures |Swapped(s, i, j)| == |s| && multiset(Swapped(s, i, j)) == multiset(s)
    ensures SortedTo(Swapped(s, i, j), i)
  {
  }

  method SortByPriority(rules: seq<Rule>) returns (sorted: seq<Rule>)
    ensures multiset(sorted) == multiset(rules) && ByPriority(sorted)
  {
    sorted := rules;
    for i := 0 to |sorted|
      invariant |sorted| == |rules| && multiset(sorted) == multiset(rules)
      invariant SortedTo(sorted, i)
    {
      for j := i + 1 to |sorted|
        invariant |sorted| == |rules| && multiset(sorted) == multiset(rules)
        invariant SortedTo(sorted, i)
        invariant forall b :: i < b < j ==> sorted[i].priority <= sorted[b].priority
      {
        if sorted[j].priority < sorted[i].priority {
          assert SortedTo(Swapped(sorted, i, j), i) && multiset(Swapped(sorted, i, j)) == multiset(sorted) by {
            SwapKeeps(sorted, i, j);
          }
          sorted := sorted[i := sorted[j]][j := sorted[i]];
        }
      }
    }
  }

  /** The first rule of a list in order of priority has the least priority of all. */
  lemma FirstIsLeast(env: Env, rules: seq<Rule>, matched: seq<Rule>, ctx: Context, i: nat)
    requires ByPriority(matched) && multiset(matched) == multiset(Matching(env, rules, |rules|, ctx))
    requires i < |rules| && RuleMatches(env, rules[i], ctx)
    ensures |matched| > 0 && matched[0].priority <= rules[i].priority
  {
    MatchingHas(env, rules, |rules|, ctx, i);
    assert rules[i] in multiset(matched);
    var j :| 0 <= j < |matched| && matched[j] == rules[i];
  }

  lemma {:induction false} MatchingHas(env: Env, rules: seq<Rule>, n: nat, ctx: Context, i: nat)
    requires i < n <= |rules| && RuleMatches(env, rules[i], ctx)
    ensures rules[i] in Matching(env, rules, n, ctx)
  {
    hide RuleMatches;
    if i < n - 1 {
      MatchingHas(env, rules, n - 1, ctx, i);
    }
  }
}
