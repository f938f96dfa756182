/** The scheduler's limiter: all tokens come back at once when an interval has passed since the
    last refill. */
module FixedWindow {

  datatype Limiter = Limiter(max: int, interval: int, tokens: int, lastRefill: int) {

    function Refill(now: int): Limiter {
      if now - lastRefill >= interval then this.(tokens := max, lastRefill := now) else this
    }

    predicate Admits(now: int) {
      Refill(now).tokens > 0
    }

    function Call(now: int): Limiter {
      var r := Refill(now);
      if r.tokens > 0 then r.(tokens := r.tokens - 1) else r
    }

    ghost predicate Valid() {
      interval > 0 && max >= 0 && 0 <= tokens <= max
    }
  }

  function New(max: int, interval: int, now: int): Limiter {
    Limiter(max, interval, max, now)
  }

  /** The limiter after the first n calls of a run. */
  function After(l: Limiter, calls: seq<int>, n: nat): Limiter
    requires n <= |calls|
  {
    if n == 0 then l else After(l, calls, n - 1).Call(calls[n - 1])
  }

  ghost predicate Ordered(calls: seq<int>) {
    forall i, j :: 0 <= i <= j < |calls| ==> calls[i] <= calls[j]
  }

  /** Number of admitted calls with time in [lo, hi). */
  ghost function Admissions(l: Limiter, calls: seq<int>, n: nat, lo: int, hi: int): nat
    requires n <= |calls|
  {
    if n == 0 then 0
    else
      Admissions(l, calls, n - 1, lo, hi)
      + if lo <= calls[n - 1] < hi && After(l, calls, n - 1).Admits(calls[n - 1]) then 1 else 0
  }

  /** Tokens stay between 0 and the maximum, and the last refill is never in the future. */
  lemma {:induction false} TokensInRange(l: Limiter, calls: seq<int>, n: nat)
    requires l.Valid() && n <= |calls| && Ordered(calls)
    requires calls != [] ==> l.lastRefill <= calls[0]
    ensures After(l, calls, n).Valid()
    ensures After(l, calls, n).max == l.max && After(l, calls, n).interval == l.interval
    ensures n > 0 ==> l.lastRefill <= After(l, calls, n).lastRefill <= calls[n - 1]
    ensures n == 0 ==> After(l, calls, n) == l
  {
    if n > 0 {
      TokensInRange(l, calls, n - 1);
      assert calls[0] <= calls[n - 1] && (n > 1 ==> calls[n - 2] <= calls[n - 1]);
    }
  }

  // ---------------------------------------------------------------- bounds

  predicate Refilled(l: Limiter, calls: seq<int>, i: nat)
    requires i < |calls|
  {
    var s := After(l, calls, i);
    calls[i] - s.lastRefill >= s.interval
  }

  /** Number of refills at or after `lo`. */
  ghost function Refills(l: Limiter, calls: seq<int>, n: nat, lo: int): nat
    requires n <= |calls|
  {
    if n == 0 then 0
    else Refills(l, calls, n - 1, lo) + if lo <= calls[n - 1] && Refilled(l, calls, n - 1) then 1 else 0
  }

  ghost predicate Started(l: Limiter, calls: seq<int>) {
    l.Valid() && Ordered(calls) && (calls != [] ==> l.lastRefill <= calls[0])
  }

  /** Every token spent since `lo` was there at `lo` or came with a refill since. */
  lemma {:induction false} TokensAccount(l: Limiter, calls: seq<int>, n: nat, lo: int, hi: int)
    requires Started(l, calls) && n <= |calls|
    ensures Admissions(l, calls, n, lo, hi) + After(l, calls, n).tokens <= l.max * (Refills(l, calls, n, lo) + 1)
  {
    TokensInRange(l, calls, n);
    if n > 0 {
      TokensInRange(l, calls, n - 1);
      TokensAccount(l, calls, n - 1, lo, hi);
      var r := Refills(l, calls, n - 1, lo);
      assert l.max * (r + 2) == l.max * (r + 1) + l.max;
      if calls[n - 1] < lo {
        NothingBefore(l, calls, n, lo, hi);
      }
    }
  }

  lemma {:induction false} NothingBefore(l: Limiter, calls: seq<int>, n: nat, lo: int, hi: int)
    requires Ordered(calls) && n <= |calls| && (n > 0 ==> calls[n - 1] < lo)
    ensures Admissions(l, calls, n, lo, hi) == 0 && Refills(l, calls, n, lo) == 0
  {
    if n > 1 {
      assert calls[n - 2] <= calls[n - 1];
      NothingBefore(l, calls, n - 1, lo, hi);
    }
  }

  ghost function Intervals(r: int, interval: int): int {
    r * interval
  }

  lemma OneMoreInterval(r: int, interval: int)
    ensures Intervals(r, interval) == Intervals(r - 1, interval) + interval
    ensures Intervals(0, interval) == 0
  {
  }

  /** Refills at or after `lo` are an interval apart. */
  lemma {:induction false} RefillsSpread(l: Limiter, calls: seq<int>, n: nat, lo: int)
    requires Started(l, calls) && n <= |calls|
    ensures var r := Refills(l, calls, n, lo);
            && (r > 0 ==> lo + Intervals(r - 1, l.interval) <= After(l, calls, n).lastRefill)
            && (l.lastRefill >= lo ==> lo + Intervals(r, l.interval) <= After(l, calls, n).lastRefill)
  {
    hide Intervals;
    TokensInRange(l, calls, n);
    OneMoreInterval(0, l.interval);
    if n > 0 {
      TokensInRange(l, calls, n - 1);
      RefillsSpread(l, calls, n - 1, lo);
      var r := Refills(l, calls, n - 1, lo);
      OneMoreInterval(r, l.interval);
      OneMoreInterval(r + 1, l.interval);
    }
  }

  lemma MulMonotone(a: int, b: int, c: int)
    requires a <= b && c >= 0
    ensures a * c <= b * c
  {
  }

  /** Points an interval apart, all before b intervals have passed, are at most b. */
  lemma FewPoints(from: int, r: int, last: int, b: int, interval: int)
    requires interval > 0 && from + r * interval <= last < from + b * interval
    ensures r < b
  {
    if r >= b {
      MulMonotone(b, r, interval);
    }
  }

  lemma Spent(admitted: nat, tokens: nat, max: nat, r: nat, bound: nat)
    requires admitted + tokens <= max * (r + 1) && r <= bound
    ensures admitted <= (bound + 1) * max
  {
    MulMonotone(r + 1, bound + 1, max);
  }

  lemma LateCall(l: Limiter, calls: seq<int>, n: nat, lo: int, hi: int)
    requires 0 < n <= |calls| && calls[n - 1] >= hi
    ensures Admissions(l, calls, n, lo, hi) == Admissions(l, calls, n - 1, lo, hi)
  {
  }

  /** Over any run with a clock that never goes back, any window of length k intervals, wherever it
      lies, holds at most (k + 1) x max admissions. */
  lemma {:induction false} WindowBound(l: Limiter, calls: seq<int>, n: nat, lo: int, k: nat)
    requires Started(l, calls) && n <= |calls|
    ensures Admissions(l, calls, n, lo, lo + k * l.interval) <= (k + 1) * l.max
  {
    var hi := lo + k * l.interval;
    if n == 0 {
      Spent(0, 0, l.max, 0, k);
    } else if calls[n - 1] >= hi {
      LateCall(l, calls, n, lo, hi);
      WindowBound(l, calls, n - 1, lo, k);
    } else {
      hide Admissions, Refills;
      var r := Refills(l, calls, n, lo);
      TokensAccount(l, calls, n, lo, hi);
      TokensInRange(l, calls, n);
      RefillsSpread(l, calls, n, lo);
      if r > 0 {
        FewPoints(lo, r - 1, After(l, calls, n).lastRefill, k, l.interval);
      }
      Spent(Admissions(l, calls, n, lo, hi), After(l, calls, n).tokens, l.max, r, k);
    }
  }

  lemma {:induction false} BoundInIntervals(l: Limiter, calls: seq<int>, n: nat, T: nat, m: nat)
    requires Started(l, calls) && n <= |calls| && T < (m + 1) * l.interval
    ensures Admissions(l, calls, n, l.lastRefill, l.lastRefill + T + 1) <= (m + 1) * l.max
  {
    var lo, hi := l.lastRefill, l.lastRefill + T + 1;
    if n == 0 {
      Spent(0, 0, l.max, 0, m);
    } else if calls[n - 1] >= hi {
      LateCall(l, calls, n, lo, hi);
      BoundInIntervals(l, calls, n - 1, T, m);
    } else {
      hide Admissions, Refills;
      var r := Refills(l, calls, n, lo);
      TokensAccount(l, calls, n, lo, hi);
      TokensInRange(l, calls, n);
      RefillsSpread(l, calls, n, lo);
      FewPoints(lo, r, After(l, calls, n).lastRefill, m + 1, l.interval);
      Spent(Admissions(l, calls, n, lo, hi), After(l, calls, n).tokens, l.max, r, m);
    }
  }

  lemma DivBound(T: nat, d: int)
    requires d > 0
    ensures T / d >= 0
    ensures T < (T / d + 1) * d
  {
    assert T == T / d * d + T % d;
  }

  /** In the first T after creation at most (T / interval + 1) x max requests are admitted. */
  lemma BoundSinceCreation(max: nat, interval: int, start: int, calls: seq<int>, T: nat)
    requires interval > 0 && Started(New(max, interval, start), calls)
    ensures Admissions(New(max, interval, start), calls, |calls|, start, start + T + 1) <= (T / interval + 1) * max
  {
    var m := T / interval;
    assert m >= 0;
    DivBound(T, interval);
    BoundInIntervals(New(max, interval, start), calls, |calls|, T, m) by {
      assert T < (m + 1) * interval;
    }
  }

  // ---------------------------------------------------------------- the bound is reached

  function Copies(t: int, n: nat): (r: seq<int>)
    ensures |r| == n
  {
    seq(n, _ => t)
  }

  /** A maximum of requests just before the first interval is over, and again at each later one. */
  function Bursts(max: nat, interval: int, k: nat): seq<int> {
    if k == 0 then Copies(interval - 1, max) else Bursts(max, interval, k - 1) + Copies(k * interval, max)
  }

  lemma {:induction false} RunPrefix(l: Limiter, calls: seq<int>, more: seq<int>, n: nat, lo: int, hi: int)
    requires n <= |calls|
    ensures After(l, calls + more, n) == After(l, calls, n)
    ensures Admissions(l, calls + more, n, lo, hi) == Admissions(l, calls, n, lo, hi)
  {
    if n > 0 {
      RunPrefix(l, calls, more, n - 1, lo, hi);
    }
  }

  /** A burst at one time gets every token when a refill is due or nothing was spent. */
  lemma {:induction false} OneBurst(l: Limiter, calls: seq<int>, t: int, n: nat, m: nat, lo: int, hi: int)
    requires m <= n == l.max && l.interval > 0 && lo <= t < hi
    requires var s := After(l, calls, |calls|);
             s.max == l.max && s.interval == l.interval && (t - s.lastRefill >= l.interval || s.tokens == l.max)
    ensures var s, s' := After(l, calls, |calls|), After(l, calls + Copies(t, n), |calls| + m);
            && s'.max == l.max && s'.interval == l.interval
            && (m == 0 ==> s' == s)
            && (m > 0 ==> s'.tokens == l.max - m
                          && s'.lastRefill == if t - s.lastRefill >= l.interval then t else s.lastRefill)
    ensures Admissions(l, calls + Copies(t, n), |calls| + m, lo, hi) == Admissions(l, calls, |calls|, lo, hi) + m
  {
    if m == 0 {
      RunPrefix(l, calls, Copies(t, n), |calls|, lo, hi);
    } else {
      OneBurst(l, calls, t, n, m - 1, lo, hi);
      assert (calls + Copies(t, n))[|calls| + m - 1] == t;
    }
  }

  lemma {:induction false} BurstsOrdered(max: nat, interval: int, k: nat)
    requires max > 0 && interval > 0
    ensures var calls := Bursts(max, interval, k);
            && Ordered(calls) && |calls| > 0 && 0 <= calls[0]
            && forall i :: 0 <= i < |calls| ==> calls[i] <= if k == 0 then interval - 1 else k * interval
  {
    if k > 0 {
      BurstsOrdered(max, interval, k - 1);
      assert k * interval == (k - 1) * interval + interval;
      MulMonotone(1, k, interval);
      AppendedOrdered(Bursts(max, interval, k - 1), k * interval, max);
      hide Bursts, Ordered;
    }
  }

  lemma AppendedOrdered(calls: seq<int>, t: int, n: nat)
    requires Ordered(calls) && forall i :: 0 <= i < |calls| ==> calls[i] <= t
    ensures Ordered(calls + Copies(t, n)) && forall i :: 0 <= i < |calls| + n ==> (calls + Copies(t, n))[i] <= t
  {
  }

  lemma FirstBurst(none: seq<int>, max: nat, interval: int, hi: int)
    requires |none| == 0 && max > 0 && interval > 0 && interval - 1 < hi
    ensures var l, calls := New(max, interval, 0), none + Copies(interval - 1, max);
            && After(l, calls, max) == Limiter(max, interval, 0, 0)
            && Admissions(l, calls, max, interval - 1, hi) == max
  {
    OneBurst(New(max, interval, 0), none, interval - 1, max, max, interval - 1, hi);
    hide Copies;
  }

  lemma LaterBurst(l: Limiter, calls: seq<int>, last: int, max: nat, interval: int, admitted: int, hi: int)
    requires max > 0 && interval > 0 && last + interval < hi && last >= 0
    requires l.max == max && l.interval == interval
    requires After(l, calls, |calls|) == Limiter(max, interval, 0, last)
    requires Admissions(l, calls, |calls|, interval - 1, hi) == admitted
    ensures var now := calls + Copies(last + interval, max);
            && After(l, now, |now|) == Limiter(max, interval, 0, last + interval)
            && Admissions(l, now, |now|, interval - 1, hi) == admitted + max
  {
    OneBurst(l, calls, last + interval, max, max, interval - 1, hi);
    hide After, Admissions;
  }

  lemma {:induction false} BurstsAdmit(max: nat, interval: int, k: nat, hi: int)
    requires max > 0 && interval > 0 && k * interval < hi && interval - 1 < hi
    ensures var l, calls := New(max, interval, 0), Bursts(max, interval, k);
            && After(l, calls, |calls|) == Limiter(max, interval, 0, k * interval)
            && Admissions(l, calls, |calls|, interval - 1, hi) == (k + 1) * max
  {
    var l := New(max, interval, 0);
    hide After, Admissions, Copies;
    if k == 0 {
      FirstBurst([], max, interval, hi);
      assert [] + Copies(interval - 1, max) == Copies(interval - 1, max);
    } else {
      var before, last := Bursts(max, interval, k - 1), (k - 1) * interval;
      assert k * interval == last + interval;
      assert last >= 0 by {
        MulMonotone(0, k - 1, interval);
      }
      BurstsAdmit(max, interval, k - 1, hi);
      LaterBurst(l, before, last, max, interval, k * max, hi);
      assert Bursts(max, interval, k) == before + Copies(last + interval, max);
      assert (k + 1) * max == k * max + max;
      hide Bursts;
    }
  }

  /** The bound is exact: for every number k of intervals of at least two ticks, some run admits
      (k + 1) x max requests inside k intervals; one interval can hold twice the maximum. */
  lemma BoundIsReached(max: nat, interval: int, k: nat) returns (calls: seq<int>)
    requires max > 0 && interval >= 2 && k > 0
    ensures Started(New(max, interval, 0), calls)
    ensures Admissions(New(max, interval, 0), calls, |calls|, interval - 1, interval - 1 + k * interval)
         == (k + 1) * max
  {
    calls := Bursts(max, interval, k);
    MulMonotone(1, k, interval);
    BurstsOrdered(max, interval, k);
    BurstsAdmit(max, interval, k, interval - 1 + k * interval);
    hide Bursts, After, Admissions;
  }

  // ---------------------------------------------------------------- when k intervals hold k x max

  /** With an interval of one tick, a refill comes with every new time, so what one tick admits and
      what is left of its tokens make up the maximum at most. */
  lemma {:induction false} OneTick(l: Limiter, calls: seq<int>, n: nat, lo: int)
    requires Started(l, calls) && l.interval == 1 && n <= |calls|
    ensures var admitted := Admissions(l, calls, n, lo, lo + 1);
            && admitted <= l.max
            && (n > 0 && calls[n - 1] == lo ==>
                  admitted + After(l, calls, n).tokens <= l.max && After(l, calls, n).lastRefill == lo)
  {
    TokensInRange(l, calls, n);
    if n > 0 {
      TokensInRange(l, calls, n - 1);
      OneTick(l, calls, n - 1, lo);
      assert n > 1 ==> calls[n - 2] <= calls[n - 1];
      if calls[n - 1] == lo && (n == 1 || calls[n - 2] < lo) {
        NothingBefore(l, calls, n - 1, lo, lo + 1);
      }
    }
  }

  lemma {:induction false} AdmissionsSplit(l: Limiter, calls: seq<int>, n: nat, lo: int, mid: int, hi: int)
    requires n <= |calls| && lo <= mid <= hi
    ensures Admissions(l, calls, n, lo, hi) == Admissions(l, calls, n, lo, mid) + Admissions(l, calls, n, mid, hi)
  {
    if n > 0 {
      AdmissionsSplit(l, calls, n - 1, lo, mid, hi);
    }
  }

  lemma {:induction false} TicksHold(l: Limiter, calls: seq<int>, lo: int, k: nat)
    requires Started(l, calls) && l.interval == 1
    ensures Admissions(l, calls, |calls|, lo, lo + k) <= k * l.max
  {
    if k == 0 {
      EmptyWindow(l, calls, |calls|, lo);
    } else {
      TicksHold(l, calls, lo, k - 1);
      OneTick(l, calls, |calls|, lo + k - 1);
      AdmissionsSplit(l, calls, |calls|, lo, lo + k - 1, lo + k);
      assert k * l.max == (k - 1) * l.max + l.max;
      hide Admissions;
    }
  }

  lemma {:induction false} EmptyWindow(l: Limiter, calls: seq<int>, n: nat, lo: int)
    requires n <= |calls|
    ensures Admissions(l, calls, n, lo, lo) == 0
  {
    if n > 0 {
      EmptyWindow(l, calls, n - 1, lo);
    }
  }

  /** A run on a limiter created at `start`: the k intervals from `lo` on hold at most k x max. */
  ghost predicate HoldsMax(max: nat, interval: int, k: nat, start: int, calls: seq<int>, lo: int) {
    var l := New(max, interval, start);
    Started(l, calls) ==> Admissions(l, calls, |calls|, lo, lo + k * interval) <= k * max
  }

  lemma HoldsMaxWhen(max: nat, interval: int, k: nat, start: int, calls: seq<int>, lo: int)
    requires interval > 0 && (max == 0 || interval == 1)
    ensures HoldsMax(max, interval, k, start, calls, lo)
  {
    var l := New(max, interval, start);
    hide Admissions, Started;
    if Started(l, calls) {
      if max == 0 {
        WindowBound(l, calls, |calls|, lo, k);
      } else {
        TicksHold(l, calls, lo, k);
      }
    }
  }

  /** "At most max per interval" over k intervals, wherever they lie and whatever the run, is what
      the limiter gives iff it admits nothing at all or its interval is a single tick. */
  lemma MaxPerIntervalIff(max: nat, interval: int, k: nat)
    requires interval > 0 && k > 0
    ensures (forall start, calls, lo :: HoldsMax(max, interval, k, start, calls, lo)) <==> max == 0 || interval == 1
  {
    if max == 0 || interval == 1 {
      forall start, calls, lo
        ensures HoldsMax(max, interval, k, start, calls, lo)
      {
        HoldsMaxWhen(max, interval, k, start, calls, lo);
      }
    } else {
      hide Admissions, Started;
      var calls := BoundIsReached(max, interval, k);
      assert (k + 1) * max == k * max + max;
      assert !HoldsMax(max, interval, k, 0, calls, interval - 1);
    }
  }

  /** With a non-positive interval and a positive maximum no call of any run is refused. */
  lemma {:induction false} NoIntervalNoLimit(l: Limiter, calls: seq<int>, n: nat)
    requires l.interval <= 0 < l.max && Ordered(calls) && n < |calls| && l.lastRefill <= calls[0]
    ensures After(l, calls, n).Admits(calls[n])
    ensures After(l, calls, n).max == l.max && After(l, calls, n).interval == l.interval
    ensures After(l, calls, n).lastRefill <= calls[n]
  {
    if n > 0 {
      NoIntervalNoLimit(l, calls, n - 1);
      assert calls[n - 1] <= calls[n];
    }
  }

  class RateLimiter {
    const maxRequests: int
    const interval: int
    var tokens: int
    var lastRefill: int

    constructor (maxRequests: int, interval: int, now: int)
      ensures State() == New(maxRequests, interval, now)
    {
      this.maxRequests, this.interval := maxRequests, interval;
      tokens, lastRefill := maxRequests, now;
    }

    function State(): Limiter
      reads this
    {
      Limiter(maxRequests, interval, tokens, lastRefill)
    }

    method Allow(now: int) returns (ok: bool)
      modifies this
      ensures ok == old(State()).Admits(now)
      ensures State() == old(State()).Call(now)
      ensures lastRefill == if now - old(lastRefill) >= interval then now else old(lastRefill)
      ensures var available := if now - old(lastRefill) >= interval then maxRequests else old(tokens);
              (ok <==> available > 0) && tokens == if ok then available - 1 else available
    {
      var elapsed := now - lastRefill;
      if elapsed >= interval {
        tokens := maxRequests;
        lastRefill := now;
      }
      if tokens > 0 {
        tokens := tokens - 1;
        return true;
      }
      return false;
    }
  }
}
