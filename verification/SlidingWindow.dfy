/** The sliding-window limiter of the rule engine, and the table of limiters by scope key. */
module SlidingWindow {
  import opened Wrappers

  /** Times never go back. */
  ghost predicate Ordered(calls: seq<int>) {
    forall i, j :: 0 <= i <= j < |calls| ==> calls[i] <= calls[j]
  }

  /** The tokens among the first n that are younger than the cutoff, in order. */
  function PruneFirst(tokens: seq<int>, n: nat, cutoff: int): seq<int>
    requires n <= |tokens|
  {
    if n == 0 then []
    else if tokens[n - 1] > cutoff then PruneFirst(tokens, n - 1, cutoff) + [tokens[n - 1]]
    else PruneFirst(tokens, n - 1, cutoff)
  }

  function Prune(tokens: seq<int>, cutoff: int): seq<int> {
    PruneFirst(tokens, |tokens|, cutoff)
  }

  datatype Tracker = Tracker(maxCount: int, window: int, tokens: seq<int>) {
    predicate Admits(now: int) {
      |Prune(tokens, now - window)| < maxCount
    }

    function Call(now: int): Tracker {
      var valid := Prune(tokens, now - window);
      this.(tokens := if |valid| < maxCount then valid + [now] else valid)
    }
  }

  /** A tracker after the first n calls of a run. */
  function After(t: Tracker, calls: seq<int>, n: nat): (r: Tracker)
    requires n <= |calls|
    ensures r.maxCount == t.maxCount && r.window == t.window
  {
    if n == 0 then t else After(t, calls, n - 1).Call(calls[n - 1])
  }

  function New(maxCount: int, window: int): Tracker {
    Tracker(maxCount, window, [])
  }

  /** Whether call i of a run on a fresh limiter was admitted. */
  predicate Admitted(maxCount: int, window: int, calls: seq<int>, i: nat)
    requires i < |calls|
  {
    After(New(maxCount, window), calls, i).Admits(calls[i])
  }

  /** Number of admitted calls among the first n with time in (lo, hi]. */
  ghost function Hits(maxCount: int, window: int, calls: seq<int>, n: nat, lo: int, hi: int): nat
    requires n <= |calls|
  {
    if n == 0 then 0
    else
      Hits(maxCount, window, calls, n - 1, lo, hi)
      + if Admitted(maxCount, window, calls, n - 1) && lo < calls[n - 1] <= hi then 1 else 0
  }

  lemma {:induction false} PrunePrefix(tokens: seq<int>, more: seq<int>, n: nat, cutoff: int)
    requires n <= |tokens|
    ensures PruneFirst(tokens + more, n, cutoff) == PruneFirst(tokens, n, cutoff)
  {
    if n > 0 {
      PrunePrefix(tokens, more, n - 1, cutoff);
    }
  }

  lemma PruneSnoc(tokens: seq<int>, now: int, cutoff: int)
    ensures Prune(tokens + [now], cutoff)
         == if now > cutoff then Prune(tokens, cutoff) + [now] else Prune(tokens, cutoff)
  {
    PrunePrefix(tokens, [now], |tokens|, cutoff);
  }

  lemma {:induction false} PruneTwice(tokens: seq<int>, n: nat, c: int, d: int)
    requires n <= |tokens| && c <= d
    ensures Prune(PruneFirst(tokens, n, c), d) == PruneFirst(tokens, n, d)
  {
    if n > 0 {
      PruneTwice(tokens, n - 1, c, d);
      PruneSnoc(PruneFirst(tokens, n - 1, c), tokens[n - 1], d);
    }
  }

  lemma Neighbours(calls: seq<int>, i: nat)
    requires Ordered(calls) && i < |calls|
    ensures i > 0 ==> calls[i - 1] <= calls[i]
  {
  }

  /** What the limiter remembers is enough: for any cutoff from the last one on, the remembered
      tokens count exactly the admitted calls of the whole run. */
  lemma {:induction false} TokensAreHits(maxCount: int, window: int, calls: seq<int>, n: nat, cutoff: int, hi: int)
    requires Ordered(calls) && n <= |calls|
    requires n > 0 ==> calls[n - 1] - window <= cutoff && calls[n - 1] <= hi
    ensures |Prune(After(New(maxCount, window), calls, n).tokens, cutoff)|
         == Hits(maxCount, window, calls, n, cutoff, hi)
  {
    if n > 0 {
      var before := After(New(maxCount, window), calls, n - 1);
      var now := calls[n - 1];
      Neighbours(calls, n - 1);
      TokensAreHits(maxCount, window, calls, n - 1, cutoff, hi);
      PruneTwice(before.tokens, |before.tokens|, now - window, cutoff);
      PruneSnoc(Prune(before.tokens, now - window), now, cutoff);
      hide PruneFirst, Ordered;
    }
  }

  lemma AdmittedIffRoom(maxCount: int, window: int, calls: seq<int>, i: nat)
    requires i < |calls|
    ensures Admitted(maxCount, window, calls, i)
       <==> |Prune(After(New(maxCount, window), calls, i).tokens, calls[i] - window)| < maxCount
  {
    hide After, PruneFirst;
  }

  /** Exactness: a call is refused iff maxCount admitted calls already lie in (now - window, now]. */
  lemma RefusedIffFull(maxCount: int, window: int, calls: seq<int>, i: nat)
    requires Ordered(calls) && i < |calls|
    ensures !Admitted(maxCount, window, calls, i)
       <==> Hits(maxCount, window, calls, i, calls[i] - window, calls[i]) >= maxCount
  {
    hide Admitted, Prune, Hits;
    AdmittedIffRoom(maxCount, window, calls, i);
    Neighbours(calls, i);
    TokensAreHits(maxCount, window, calls, i, calls[i] - window, calls[i]);
  }

  lemma {:induction false} HitsMonotone(
    maxCount: int, window: int, calls: seq<int>, n: nat, lo: int, hi: int, lo': int, hi': int)
    requires Ordered(calls) && n <= |calls| && lo' <= lo && (n > 0 ==> calls[n - 1] <= hi')
    ensures Hits(maxCount, window, calls, n, lo, hi) <= Hits(maxCount, window, calls, n, lo', hi')
  {
    if n > 0 {
      Neighbours(calls, n - 1);
      HitsMonotone(maxCount, window, calls, n - 1, lo, hi, lo', hi');
    }
  }

  /** An admitted call leaves room for itself in every window that ends at or after it. */
  lemma AdmittedHasRoom(maxCount: int, window: int, calls: seq<int>, i: nat, t: int)
    requires Ordered(calls) && i < |calls| && calls[i] <= t
    requires Admitted(maxCount, window, calls, i)
    ensures Hits(maxCount, window, calls, i, t - window, t) < maxCount
  {
    RefusedIffFull(maxCount, window, calls, i);
    Neighbours(calls, i);
    HitsMonotone(maxCount, window, calls, i, t - window, t, calls[i] - window, calls[i]);
  }

  /** Safety: no window of the configured length ever holds more than maxCount admitted calls. */
  lemma {:induction false} WindowBound(maxCount: int, window: int, calls: seq<int>, n: nat, t: int)
    requires Ordered(calls) && n <= |calls|
    ensures Hits(maxCount, window, calls, n, t - window, t) <= if maxCount > 0 then maxCount else 0
  {
    if n > 0 {
      WindowBound(maxCount, window, calls, n - 1, t);
      if Admitted(maxCount, window, calls, n - 1) && t - window < calls[n - 1] <= t {
        AdmittedHasRoom(maxCount, window, calls, n - 1, t);
      }
    }
  }

  class RateLimitTracker {
    const maxCount: int
    const window: int
    var tokens: seq<int>

    constructor (maxCount: int, window: int)
      ensures this.maxCount == maxCount && this.window == window && State() == New(maxCount, window)
    {
      this.maxCount, this.window, tokens := maxCount, window, [];
    }

    function State(): Tracker
      reads this
    {
      Tracker(maxCount, window, tokens)
    }

    /** Drops the expired tokens, then admits and records the call if there is room. */
    method Allow(now: int) returns (ok: bool)
      modifies this
      ensures ok == old(State()).Admits(now)
      ensures State() == old(State()).Call(now)
      ensures forall t :: t in tokens <==> (t in old(tokens) && t > now - window) || (ok && t == now)
    {
      var cutoff := now - window;
      var validTokens: seq<int> := [];
      for i := 0 to |tokens|
        invariant tokens == old(tokens)
        invariant validTokens == PruneFirst(tokens, i, cutoff)
        invariant forall t :: t in validTokens <==> t in tokens[..i] && t > cutoff
      {
        if tokens[i] > cutoff {
          validTokens := validTokens + [tokens[i]];
        }
      }
      tokens := validTokens;
      if |tokens| >= maxCount {
        return false;
      }
      tokens := tokens + [now];
      return true;
    }
  }

  // ---------------------------------------------------------------- limiters by scope

  datatype RateLimit = RateLimit(maxNotifications: int, window: int, scope: string)

  /** The limiter a rule uses for an alert; device and rule ids are texts. */
  function GetRateLimitKey(limit: RateLimit, ruleID: string, deviceID: Option<string>): string {
    match limit.scope
    case "global" => "global"
    case "per_device" =>
      (match deviceID
       case Some(d) => "device:" + d
       case None => "global")
    case _ => "rule:" + ruleID
  }

  datatype Scope = Global | Device(id: string) | Rule(id: string)

  function ScopeOf(limit: RateLimit, ruleID: string, deviceID: Option<string>): Scope {
    if limit.scope == "global" then Global
    else if limit.scope == "per_device" then (if deviceID.Some? then Device(deviceID.value) else Global)
    else Rule(ruleID)
  }

  /** Two requests share a limiter iff they have the same scope: texts never run into each other. */
  lemma SameKeyIffSameScope(l: RateLimit, r: string, d: Option<string>, l': RateLimit, r': string, d': Option<string>)
    ensures GetRateLimitKey(l, r, d) == GetRateLimitKey(l', r', d') <==> ScopeOf(l, r, d) == ScopeOf(l', r', d')
  {
    var s, s' := ScopeOf(l, r, d), ScopeOf(l', r', d');
    KeyShape(l, r, d);
    KeyShape(l', r', d');
    if s.Rule? && s'.Rule? {
      assert ("rule:" + s.id)[5..] == s.id && ("rule:" + s'.id)[5..] == s'.id;
    }
    if s.Device? && s'.Device? {
      assert ("device:" + s.id)[7..] == s.id && ("device:" + s'.id)[7..] == s'.id;
    }
  }

  /** Which requests share a limiter, in terms of rules, alerts and scopes: all global ones, with which
      a per-device rule's request for an alert without a device counts; those of per-device rules for
      one device; and those of one rule, whatever other scope it names. */
  lemma SharesLimiterIff(l: RateLimit, r: string, d: Option<string>, l': RateLimit, r': string, d': Option<string>)
    ensures GetRateLimitKey(l, r, d) == GetRateLimitKey(l', r', d')
       <==> || ((l.scope == "global" || (l.scope == "per_device" && d == None))
                && (l'.scope == "global" || (l'.scope == "per_device" && d' == None)))
            || (l.scope == l'.scope == "per_device" && d != None && d == d')
            || (l.scope !in {"global", "per_device"} && l'.scope !in {"global", "per_device"} && r == r')
  {
    SameKeyIffSameScope(l, r, d, l', r', d');
    hide GetRateLimitKey;
  }

  lemma KeyShape(l: RateLimit, r: string, d: Option<string>)
    ensures var k := GetRateLimitKey(l, r, d);
            match ScopeOf(l, r, d)
            case Global => k == "global" && k[0] == 'g'
            case Device(id) => k == "device:" + id && k[0] == 'd'
            case Rule(id) => k == "rule:" + id && k[0] == 'r'
  {
  }

  /** One limited request: the key it maps to, the limits of the rule that asks, and the time. */
  datatype Request = Request(key: string, maxCount: int, window: int, now: int)

  function TrackerFor(table: map<string, Tracker>, q: Request): Tracker {
    if q.key in table then table[q.key] else New(q.maxCount, q.window)
  }

  function Check(table: map<string, Tracker>, q: Request): map<string, Tracker> {
    table[q.key := TrackerFor(table, q).Call(q.now)]
  }

  /** The table after the first n requests of a run. */
  function CheckAll(qs: seq<Request>, n: nat): map<string, Tracker>
    requires n <= |qs|
  {
    if n == 0 then map[] else Check(CheckAll(qs, n - 1), qs[n - 1])
  }

  /** Whether request i of a run is admitted. */
  predicate Accepted(qs: seq<Request>, i: nat)
    requires i < |qs|
  {
    TrackerFor(CheckAll(qs, i), qs[i]).Admits(qs[i].now)
  }

  /** The times of the requests for one key among the first n. */
  function TimesFor(qs: seq<Request>, n: nat, key: string): seq<int>
    requires n <= |qs|
  {
    if n == 0 then []
    else if qs[n - 1].key == key then TimesFor(qs, n - 1, key) + [qs[n - 1].now]
    else TimesFor(qs, n - 1, key)
  }

  /** The first request for a key. */
  function FirstFor(qs: seq<Request>, n: nat, key: string): Option<Request>
    requires n <= |qs|
  {
    if n == 0 then None
    else if FirstFor(qs, n - 1, key).Some? then FirstFor(qs, n - 1, key)
    else if qs[n - 1].key == key then Some(qs[n - 1]) else None
  }

  lemma {:induction false} AfterPrefix(t: Tracker, calls: seq<int>, now: int, n: nat)
    requires n <= |calls|
    ensures After(t, calls + [now], n) == After(t, calls, n)
  {
    if n > 0 {
      AfterPrefix(t, calls, now, n - 1);
    }
  }

  lemma AfterNothing()
    ensures forall t :: After(t, [], 0) == t
  {
  }

  lemma AfterSnoc(t: Tracker, calls: seq<int>, now: int)
    ensures After(t, calls + [now], |calls| + 1) == After(t, calls, |calls|).Call(now)
  {
    hide PruneFirst;
    AfterPrefix(t, calls, now, |calls|);
  }

  /** Keys do not affect each other, and a shared limiter keeps the limits of its first user:
      its state is that of a limiter with those limits fed only this key's calls. */
  lemma {:induction false} KeysAreIndependent(qs: seq<Request>, n: nat, key: string)
    requires n <= |qs|
    ensures match FirstFor(qs, n, key)
            case None => key !in CheckAll(qs, n) && TimesFor(qs, n, key) == []
            case Some(first) =>
              var times := TimesFor(qs, n, key);
              && key in CheckAll(qs, n)
              && CheckAll(qs, n)[key] == After(New(first.maxCount, first.window), times, |times|)
  {
    AfterNothing();
    hide After, PruneFirst;
    if n > 0 {
      KeysAreIndependent(qs, n - 1, key);
      if qs[n - 1].key == key {
        var first := FirstFor(qs, n, key).value;
        var times := TimesFor(qs, n - 1, key);
        AfterSnoc(New(first.maxCount, first.window), times, qs[n - 1].now);
      }
    }
  }

  /** The answer to request i is that of a fresh limiter with the limits of the key's first user
      and only this key's calls. */
  lemma AnswerOfKey(qs: seq<Request>, i: nat)
    requires i < |qs|
    ensures var times := TimesFor(qs, i, qs[i].key);
            && FirstFor(qs, i + 1, qs[i].key).Some?
            && var first := FirstFor(qs, i + 1, qs[i].key).value;
               (Accepted(qs, i) <==> Admitted(first.maxCount, first.window, times + [qs[i].now], |times|))
  {
    KeysAreIndependent(qs, i, qs[i].key);
    var first := FirstFor(qs, i + 1, qs[i].key).value;
    var times := TimesFor(qs, i, qs[i].key);
    AfterPrefix(New(first.maxCount, first.window), times, qs[i].now, |times|);
  }

  /** Accepted requests for a key among the first n with time in (lo, hi]. */
  ghost function KeyHits(qs: seq<Request>, n: nat, key: string, lo: int, hi: int): nat
    requires n <= |qs|
  {
    if n == 0 then 0
    else
      KeyHits(qs, n - 1, key, lo, hi)
      + if qs[n - 1].key == key && Accepted(qs, n - 1) && lo < qs[n - 1].now <= hi then 1 else 0
  }

  lemma {:induction false} HitsPrefix(maxCount: int, window: int, calls: seq<int>, now: int, n: nat, lo: int, hi: int)
    requires n <= |calls|
    ensures Hits(maxCount, window, calls + [now], n, lo, hi) == Hits(maxCount, window, calls, n, lo, hi)
  {
    if n > 0 {
      HitsPrefix(maxCount, window, calls, now, n - 1, lo, hi);
      AfterPrefix(New(maxCount, window), calls, now, n - 1);
    }
  }

  lemma {:induction false} KeyHitsAreHits(qs: seq<Request>, n: nat, key: string, lo: int, hi: int)
    requires n <= |qs|
    ensures match FirstFor(qs, n, key)
            case None => KeyHits(qs, n, key, lo, hi) == 0
            case Some(first) =>
              var times := TimesFor(qs, n, key);
              KeyHits(qs, n, key, lo, hi) == Hits(first.maxCount, first.window, times, |times|, lo, hi)
  {
    hide After, PruneFirst, Admitted, Accepted;
    if n > 0 {
      KeyHitsAreHits(qs, n - 1, key, lo, hi);
      if qs[n - 1].key == key {
        KeysAreIndependent(qs, n - 1, key);
        OneMoreHit(qs, n - 1, lo, hi);
      }
    }
  }

  lemma OneMoreHit(qs: seq<Request>, i: nat, lo: int, hi: int)
    requires i < |qs|
    ensures FirstFor(qs, i + 1, qs[i].key).Some?
    ensures var first := FirstFor(qs, i + 1, qs[i].key).value;
            var earlier := TimesFor(qs, i, qs[i].key);
            Hits(first.maxCount, first.window, earlier + [qs[i].now], |earlier| + 1, lo, hi)
            == Hits(first.maxCount, first.window, earlier, |earlier|, lo, hi)
               + if Accepted(qs, i) && lo < qs[i].now <= hi then 1 else 0
  {
    hide After, PruneFirst;
    AnswerOfKey(qs, i);
    var first := FirstFor(qs, i + 1, qs[i].key).value;
    var earlier := TimesFor(qs, i, qs[i].key);
    HitsPrefix(first.maxCount, first.window, earlier, qs[i].now, |earlier|, lo, hi);
  }

  /** The clock of a run of requests never goes back. */
  ghost predicate ClockOrdered(qs: seq<Request>) {
    forall i, j :: 0 <= i <= j < |qs| ==> qs[i].now <= qs[j].now
  }

  lemma {:induction false} TimesOrdered(qs: seq<Request>, n: nat, key: string)
    requires ClockOrdered(qs) && n <= |qs|
    ensures Ordered(TimesFor(qs, n, key))
    ensures forall i :: 0 <= i < |TimesFor(qs, n, key)| ==> n > 0 && TimesFor(qs, n, key)[i] <= qs[n - 1].now
  {
    if n > 0 {
      TimesOrdered(qs, n - 1, key);
      assert n > 1 ==> qs[n - 2].now <= qs[n - 1].now;
    }
  }

  /** In any run with a clock that never goes back, whatever other keys do and whichever rules
      share the key, the key admits at most its first user's maxCount in every window. */
  lemma KeyWindowBound(qs: seq<Request>, key: string, t: int)
    requires ClockOrdered(qs)
    ensures match FirstFor(qs, |qs|, key)
            case None => forall lo, hi :: KeyHits(qs, |qs|, key, lo, hi) == 0
            case Some(first) =>
              KeyHits(qs, |qs|, key, t - first.window, t) <= if first.maxCount > 0 then first.maxCount else 0
  {
    hide Hits, KeyHits, FirstFor, TimesFor, ClockOrdered;
    TimesOrdered(qs, |qs|, key);
    if FirstFor(qs, |qs|, key).None? {
      forall lo, hi
        ensures KeyHits(qs, |qs|, key, lo, hi) == 0
      {
        KeyHitsAreHits(qs, |qs|, key, lo, hi);
      }
    } else {
      var first := FirstFor(qs, |qs|, key).value;
      KeyHitsAreHits(qs, |qs|, key, t - first.window, t);
      WindowBound(first.maxCount, first.window, TimesFor(qs, |qs|, key), |TimesFor(qs, |qs|, key)|, t);
    }
  }

  class RateLimiters {
    var rateLimiters: map<string, RateLimitTracker>

    ghost predicate Valid()
      reads this
    {
      forall j, k :: j in rateLimiters && k in rateLimiters && j != k ==> rateLimiters[j] != rateLimiters[k]
    }

    ghost function Table(): map<string, Tracker>
      reads this, rateLimiters.Values
    {
      map k | k in rateLimiters :: rateLimiters[k].State()
    }

    constructor ()
      ensures Valid() && Table() == map[]
    {
      rateLimiters := map[];
    }

    /** The limiter of a key, created with the given limits if the key is new. */
    method LimiterFor(key: string, limit: RateLimit) returns (tracker: RateLimitTracker)
      requires Valid()
      modifies this
      ensures Valid() && key in rateLimiters && rateLimiters[key] == tracker
      ensures fresh(rateLimiters.Values - old(rateLimiters.Values))
      ensures key in old(rateLimiters) ==> rateLimiters == old(rateLimiters)
      ensures key !in old(rateLimiters) ==>
                && rateLimiters == old(rateLimiters)[key := tracker]
                && fresh(tracker) && tracker.State() == New(limit.maxNotifications, limit.window)
    {
      if key !in rateLimiters {
        tracker := new RateLimitTracker(limit.maxNotifications, limit.window);
        rateLimiters := rateLimiters[key := tracker];
      } else {
        tracker := rateLimiters[key];
      }
    }

    /** Finds or creates the limiter of the rule's scope and asks it. */
    method CheckRateLimit(limit: RateLimit, ruleID: string, deviceID: Option<string>, now: int) returns (ok: bool)
      requires Valid()
      modifies this, rateLimiters.Values
      ensures Valid() && fresh(rateLimiters.Values - old(rateLimiters.Values))
      ensures var q := Request(GetRateLimitKey(limit, ruleID, deviceID), limit.maxNotifications, limit.window, now);
              && ok == TrackerFor(old(Table()), q).Admits(now)
              && Table() == Check(old(Table()), q)
    {
      var key := GetRateLimitKey(limit, ruleID, deviceID);
      var tracker := LimiterFor(key, limit);
      assert tracker.State() == TrackerFor(old(Table()), Request(key, limit.maxNotifications, limit.window, now));
      ok := tracker.Allow(now);
    }
  }
}
