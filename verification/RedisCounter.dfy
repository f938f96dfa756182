/** The Redis rate-limit counter: every hit increments the key and renews its expiry, whether or
    not it is admitted. A key with expiry time e holds its value before e and is gone from e on. */
module RedisCounter {
  import opened Wrappers

  /** What Redis stores for one identifier. */
  datatype Entry = Entry(count: int, expiresAt: int)

  function LiveCount(store: map<string, Entry>, id: string, now: int): int {
    if id in store && now < store[id].expiresAt then store[id].count else 0
  }

  /** INCR then EXPIRE, as one pipeline. */
  function Hit(store: map<string, Entry>, id: string, now: int, ttl: int): map<string, Entry> {
    store[id := Entry(LiveCount(store, id, now) + 1, now + ttl)]
  }

  /** One call of IncrementRateLimit. */
  datatype Call = Call(id: string, now: int)

  function After(ttl: int, calls: seq<Call>, n: nat): map<string, Entry>
    requires n <= |calls|
  {
    if n == 0 then map[] else Hit(After(ttl, calls, n - 1), calls[n - 1].id, calls[n - 1].now, ttl)
  }

  /** The count call i returns. */
  function CountAt(ttl: int, calls: seq<Call>, i: nat): int
    requires i < |calls|
  {
    LiveCount(After(ttl, calls, i), calls[i].id, calls[i].now) + 1
  }

  /** The call before call i for the same identifier, if any. */
  function Previous(calls: seq<Call>, i: nat, id: string): Option<nat>
    requires i <= |calls|
  {
    if i == 0 then None
    else if calls[i - 1].id == id then Some(i - 1)
    else Previous(calls, i - 1, id)
  }

  /** Reference meaning of the counter: the position of call i in its burst, a burst being a
      maximal chain of calls for one identifier with gaps shorter than the TTL. */
  function BurstPosition(ttl: int, calls: seq<Call>, i: nat): (p: nat)
    requires i < |calls|
    ensures p >= 1
    decreases i
  {
    match Previous(calls, i, calls[i].id)
    case None => 1
    case Some(j) =>
      PreviousIsEarlier(calls, i, calls[i].id);
      if calls[i].now < calls[j].now + ttl then BurstPosition(ttl, calls, j) + 1 else 1
  }

  lemma {:induction false} PreviousIsEarlier(calls: seq<Call>, i: nat, id: string)
    requires i <= |calls|
    ensures match Previous(calls, i, id)
            case None => forall k :: 0 <= k < i ==> calls[k].id != id
            case Some(j) => j < i && calls[j].id == id && forall k :: j < k < i ==> calls[k].id != id
  {
    if i > 0 && calls[i - 1].id != id {
      PreviousIsEarlier(calls, i - 1, id);
    }
  }

  /** What is stored for an identifier was put there by its last call. */
  lemma {:induction false} StoredByPrevious(ttl: int, calls: seq<Call>, i: nat, id: string)
    requires i <= |calls|
    ensures match Previous(calls, i, id)
            case None => id !in After(ttl, calls, i)
            case Some(j) =>
              && j < i && id in After(ttl, calls, i)
              && After(ttl, calls, i)[id] == Entry(CountAt(ttl, calls, j), calls[j].now + ttl)
  {
    if i > 0 && calls[i - 1].id != id {
      StoredByPrevious(ttl, calls, i - 1, id);
    }
  }

  /** The counter counts bursts: identifiers do not affect each other. */
  lemma {:induction false} CountIsBurstPosition(ttl: int, calls: seq<Call>, i: nat)
    requires i < |calls|
    ensures CountAt(ttl, calls, i) == BurstPosition(ttl, calls, i)
    decreases i
  {
    StoredByPrevious(ttl, calls, i, calls[i].id);
    match Previous(calls, i, calls[i].id)
    case None =>
    case Some(j) => CountIsBurstPosition(ttl, calls, j);
  }

  predicate Admitted(ttl: int, limit: int, calls: seq<Call>, i: nat)
    requires i < |calls|
  {
    CountAt(ttl, calls, i) <= limit
  }

  /** A call is admitted iff it is among the first `limit` of its identifier's burst. */
  lemma AdmittedIff(ttl: int, limit: int, calls: seq<Call>, i: nat)
    requires i < |calls|
    ensures Admitted(ttl, limit, calls, i) <==> BurstPosition(ttl, calls, i) <= limit
  {
    hide CountAt, BurstPosition;
    CountIsBurstPosition(ttl, calls, i);
  }

  /** What is read back is the position of the identifier's last call in its burst, or 0 when it has
      none or that call is a TTL ago. */
  lemma ReadsLastPosition(ttl: int, calls: seq<Call>, id: string, now: int)
    ensures LiveCount(After(ttl, calls, |calls|), id, now)
         == match Previous(calls, |calls|, id)
            case None => 0
            case Some(j) => if j < |calls| && now < calls[j].now + ttl then BurstPosition(ttl, calls, j) else 0
  {
    hide CountAt, BurstPosition, After;
    StoredByPrevious(ttl, calls, |calls|, id);
    if Previous(calls, |calls|, id).Some? {
      CountIsBurstPosition(ttl, calls, Previous(calls, |calls|, id).value);
    }
  }

  ghost predicate Ordered(calls: seq<Call>) {
    forall i, j :: 0 <= i <= j < |calls| ==> calls[i].now <= calls[j].now
  }

  /** Admitted calls for an identifier among the first n with time in [lo, lo + ttl). */
  ghost function Admissions(ttl: int, limit: int, calls: seq<Call>, n: nat, id: string, lo: int): nat
    requires n <= |calls|
  {
    if n == 0 then 0
    else
      Admissions(ttl, limit, calls, n - 1, id, lo)
      + if calls[n - 1].id == id && lo <= calls[n - 1].now < lo + ttl && Admitted(ttl, limit, calls, n - 1)
        then 1 else 0
  }

  /** Inside one window of length TTL the counter only climbs, so the admissions seen so far never
      exceed the last count. */
  lemma {:induction false} AdmissionsBelowCount(ttl: int, limit: int, calls: seq<Call>, n: nat, id: string, lo: int)
    requires Ordered(calls) && n <= |calls|
    ensures match Previous(calls, n, id)
            case None => Admissions(ttl, limit, calls, n, id, lo) == 0
            case Some(j) =>
              && j < n
              && (Admissions(ttl, limit, calls, n, id, lo) > 0 ==> lo <= calls[j].now)
              && (calls[j].now < lo + ttl ==> Admissions(ttl, limit, calls, n, id, lo) <= CountAt(ttl, calls, j))
    ensures Admissions(ttl, limit, calls, n, id, lo) <= if limit > 0 then limit else 0
  {
    if n > 0 {
      AdmissionsBelowCount(ttl, limit, calls, n - 1, id, lo);
      var c := calls[n - 1];
      if c.id == id {
        StoredByPrevious(ttl, calls, n - 1, id);
        CountIsBurstPosition(ttl, calls, n - 1);
        match Previous(calls, n - 1, id)
        case None =>
        case Some(j) =>
          assert calls[j].now <= c.now;
      }
    }
  }

  /** Any half-open window of length TTL holds at most `limit` admissions for an identifier. */
  lemma WindowBound(ttl: int, limit: int, calls: seq<Call>, id: string, lo: int)
    requires Ordered(calls)
    ensures Admissions(ttl, limit, calls, |calls|, id, lo) <= if limit > 0 then limit else 0
  {
    AdmissionsBelowCount(ttl, limit, calls, |calls|, id, lo);
  }

  /** An admission after a refusal needs a pause: two consecutive calls for the identifier in
      between are at least TTL apart. Refused calls count too, so steady traffic stays refused. */
  lemma {:induction false} RecoveryNeedsPause(ttl: int, limit: int, calls: seq<Call>, i: nat, j: nat)
    returns (a: nat, b: nat)
    requires Ordered(calls) && i < j < |calls| && calls[i].id == calls[j].id
    requires !Admitted(ttl, limit, calls, i) && Admitted(ttl, limit, calls, j)
    ensures i <= a < b <= j && calls[a].id == calls[b].id == calls[i].id
    ensures forall k :: a < k < b ==> calls[k].id != calls[i].id
    ensures calls[a].now + ttl <= calls[b].now
    decreases j
  {
    var id := calls[i].id;
    PreviousIsEarlier(calls, j, id);
    StoredByPrevious(ttl, calls, j, id);
    var p := Previous(calls, j, id).value;
    if calls[p].now + ttl <= calls[j].now {
      a, b := p, j;
    } else {
      a, b := RecoveryNeedsPause(ttl, limit, calls, i, p);
    }
  }

  datatype Reply = Count(count: int) | LimitExceeded(count: int)

  class RedisClient {
    const ttlRateLimit: int
    var store: map<string, Entry>

    constructor (ttlRateLimit: int)
      ensures this.ttlRateLimit == ttlRateLimit && store == map[]
    {
      this.ttlRateLimit, store := ttlRateLimit, map[];
    }

    method IncrementRateLimit(id: string, limit: int, now: int) returns (r: Reply)
      modifies this
      ensures store == Hit(old(store), id, now, ttlRateLimit)
      ensures var count := LiveCount(old(store), id, now) + 1;
              r == if count <= limit then Count(count) else LimitExceeded(count)
      ensures id in store && store == old(store)[id := store[id]] && store[id].expiresAt == now + ttlRateLimit
      ensures store[id].count == if id in old(store) && now < old(store)[id].expiresAt
                                 then old(store)[id].count + 1 else 1
      ensures r.LimitExceeded? <==> store[id].count > limit
    {
      if !(id in store && now < store[id].expiresAt) {
        store := store[id := Entry(0, now + ttlRateLimit)];
      }
      store := store[id := store[id].(count := store[id].count + 1)];
      store := store[id := store[id].(expiresAt := now + ttlRateLimit)];
      var count := store[id].count;
      if count > limit {
        return LimitExceeded(count);
      }
      return Count(count);
    }

    method GetRateLimitCount(id: string, now: int) returns (count: int)
      ensures count == LiveCount(store, id, now)
    {
      if id in store && now < store[id].expiresAt {
        return store[id].count;
      }
      return 0;
    }
  }
}
