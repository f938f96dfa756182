/** The NAT coordinator's probe cache in front of the device table. Each call reads the clock once;
    the device repository may fail to read or to write during any call. */
module NatCache {
  import opened Wrappers

  /** The device columns the coordinator reads and writes. */
  datatype Device = Device(natType: string, publicEndpoint: string, updatedAt: int)

  datatype ProbeResult = ProbeResult(
    natType: string, publicEndpoint: string, localEndpoint: string, probeTime: int, ttl: int)

  const NAT_TYPE_UNKNOWN := "unknown"
  const CACHE_TTL := 5 * 60 * 1_000_000_000

  datatype State = State(cache: map<nat, ProbeResult>, devices: map<nat, Device>)

  datatype Op =
    | Probe(id: nat, localEndpoint: string)
    | Lookup(id: nat)
    | UpdateEndpoint(id: nat, endpoint: string, wellFormed: bool)
    | Cleanup

  /** How the device repository behaves during a call. */
  datatype Repo = Works | ReadFails | WriteFails

  /** A timed call. */
  datatype Call = Call(op: Op, repo: Repo, now: int)

  datatype Answer = Found(result: ProbeResult) | DeviceNotFound | InvalidEndpoint | NotSaved | Done

  predicate Live(p: ProbeResult, now: int) {
    now - p.probeTime < p.ttl
  }

  predicate Cached(s: State, id: nat, now: int) {
    id in s.cache && Live(s.cache[id], now)
  }

  /** What a database read returns, as a probe result. */
  function FromDevice(d: Device): ProbeResult {
    ProbeResult(d.natType, d.publicEndpoint, "", d.updatedAt, CACHE_TTL)
  }

  function FreshProbe(localEndpoint: string, now: int): ProbeResult {
    ProbeResult(NAT_TYPE_UNKNOWN, "", localEndpoint, now, CACHE_TTL)
  }

  /** A probe fills the cache before it reads and updates the row. */
  function Next(s: State, call: Call): State {
    var now := call.now;
    match call.op
    case Probe(id, local) =>
      if Cached(s, id, now) then s
      else
        var cached := s.(cache := s.cache[id := FreshProbe(local, now)]);
        if id in s.devices && call.repo.Works?
        then cached.(devices := s.devices[id := Device(NAT_TYPE_UNKNOWN, "", now)]) else cached
    case Lookup(id) =>
      if Cached(s, id, now) || id !in s.devices || call.repo.ReadFails? then s
      else s.(cache := s.cache[id := FromDevice(s.devices[id])])
    case UpdateEndpoint(id, endpoint, wellFormed) =>
      if !wellFormed || id !in s.devices || !call.repo.Works? then s
      else
        State(s.cache - {id}, s.devices[id := s.devices[id].(publicEndpoint := endpoint, updatedAt := now)])
    case Cleanup =>
      s.(cache := map id | id in s.cache && !(now - s.cache[id].probeTime > s.cache[id].ttl) :: s.cache[id])
  }

  function Reply(s: State, call: Call): Answer {
    match call.op
    case Probe(id, local) =>
      if Cached(s, id, call.now) then Found(s.cache[id])
      else if id !in s.devices || call.repo.ReadFails? then DeviceNotFound
      else if call.repo.WriteFails? then NotSaved
      else Found(FreshProbe(local, call.now))
    case Lookup(id) =>
      if Cached(s, id, call.now) then Found(s.cache[id])
      else if id !in s.devices || call.repo.ReadFails? then DeviceNotFound
      else Found(FromDevice(s.devices[id]))
    case UpdateEndpoint(id, _, wellFormed) =>
      if !wellFormed then InvalidEndpoint
      else if id !in s.devices || call.repo.ReadFails? then DeviceNotFound
      else if call.repo.WriteFails? then NotSaved
      else Done
    case Cleanup => Done
  }

  function After(s: State, calls: seq<Call>, n: nat): State
    requires n <= |calls|
  {
    if n == 0 then s else Next(After(s, calls, n - 1), calls[n - 1])
  }

  // ---------------------------------------------------------------- coherence

  predicate Agrees(p: ProbeResult, d: Device) {
    p.natType == d.natType && p.publicEndpoint == d.publicEndpoint
  }

  /** Every cached entry of a stored device, live or not, agrees with its row. */
  ghost predicate Coherent(s: State) {
    forall id :: id in s.cache && id in s.devices ==> Agrees(s.cache[id], s.devices[id])
  }

  ghost predicate AllWork(calls: seq<Call>) {
    forall i :: 0 <= i < |calls| ==> calls[i].repo.Works?
  }

  lemma StepCoherent(s: State, call: Call)
    requires Coherent(s) && call.repo.Works?
    ensures Coherent(Next(s, call))
  {
  }

  lemma {:induction false} DevicesStay(s: State, calls: seq<Call>, n: nat)
    requires n <= |calls|
    ensures After(s, calls, n).devices.Keys == s.devices.Keys
  {
    if n > 0 {
      DevicesStay(s, calls, n - 1);
    }
  }

  lemma {:induction false} AlwaysCoherent(s: State, calls: seq<Call>, n: nat)
    requires Coherent(s) && AllWork(calls) && n <= |calls|
    ensures Coherent(After(s, calls, n))
  {
    hide Next, Coherent;
    if n > 0 {
      AlwaysCoherent(s, calls, n - 1);
      StepCoherent(After(s, calls, n - 1), calls[n - 1]);
    }
  }

  /** Over any run in which the repository works, a lookup of a stored device answers what a direct
      database read would. */
  lemma LookupReadsThrough(s: State, calls: seq<Call>, i: nat)
    requires Coherent(s) && AllWork(calls) && i < |calls| && calls[i].op.Lookup?
    requires calls[i].op.id in s.devices
    ensures var before := After(s, calls, i);
            && calls[i].op.id in before.devices
            && var answer := Reply(before, calls[i]);
               answer.Found? && Agrees(answer.result, before.devices[calls[i].op.id])
  {
    hide After;
    AlwaysCoherent(s, calls, i);
    DevicesStay(s, calls, i);
  }

  // ---------------------------------------------------------------- what a row holds

  /** Call k writes the endpoint of a stored device. */
  predicate SetsEndpoint(s: State, calls: seq<Call>, k: nat, id: nat)
    requires k < |calls|
  {
    && calls[k].op.UpdateEndpoint? && calls[k].op.id == id && calls[k].op.wellFormed
    && calls[k].repo.Works? && id in s.devices
  }

  /** Call k is a probe of a stored device that no live cache entry answers, and is recorded. */
  predicate Records(s: State, calls: seq<Call>, k: nat, id: nat)
    requires k < |calls|
  {
    var before := After(s, calls, k);
    && calls[k].op.Probe? && calls[k].op.id == id && calls[k].repo.Works? && id in s.devices
    && !(id in before.cache && calls[k].now - before.cache[id].probeTime < before.cache[id].ttl)
  }

  /** The last call among the first n that writes the row of a device. */
  function LastWrite(s: State, calls: seq<Call>, n: nat, id: nat): Option<nat>
    requires n <= |calls|
  {
    if n == 0 then None
    else if SetsEndpoint(s, calls, n - 1, id) || Records(s, calls, n - 1, id) then Some(n - 1)
    else LastWrite(s, calls, n - 1, id)
  }

  /** Whether a probe of the device has been recorded among the first n calls. */
  predicate EverRecorded(s: State, calls: seq<Call>, n: nat, id: nat)
    requires n <= |calls|
  {
    n > 0 && (Records(s, calls, n - 1, id) || EverRecorded(s, calls, n - 1, id))
  }

  lemma StepRow(s: State, call: Call, id: nat)
    requires id in s.devices
    ensures id in Next(s, call).devices
    ensures var now, before := Next(s, call).devices[id], s.devices[id];
            if call.op.UpdateEndpoint? && call.op.id == id && call.op.wellFormed && call.repo.Works? then
              now.publicEndpoint == call.op.endpoint && now.natType == before.natType && now.updatedAt == call.now
            else if call.op.Probe? && call.op.id == id && call.repo.Works?
                    && !(id in s.cache && call.now - s.cache[id].probeTime < s.cache[id].ttl) then
              now.publicEndpoint == "" && now.natType == "unknown" && now.updatedAt == call.now
            else now == before
  {
  }

  /** Over any run: a row's endpoint is the one of the last call that wrote it, empty if that was a
      recorded probe, and the initial one before any; its NAT type is unknown once a probe has been
      recorded; and it was updated when it was last written. */
  lemma {:induction false} RowIs(s: State, calls: seq<Call>, n: nat, id: nat)
    requires n <= |calls| && id in s.devices
    ensures id in After(s, calls, n).devices
    ensures var row := After(s, calls, n).devices[id];
            && (match LastWrite(s, calls, n, id)
                case None => row == s.devices[id]
                case Some(k) =>
                  && k < n && row.updatedAt == calls[k].now
                  && row.publicEndpoint == if calls[k].op.UpdateEndpoint? then calls[k].op.endpoint else "")
            && row.natType == if EverRecorded(s, calls, n, id) then "unknown" else s.devices[id].natType
  {
    hide Next;
    if n > 0 {
      RowIs(s, calls, n - 1, id);
      DevicesStay(s, calls, n - 1);
      StepRow(After(s, calls, n - 1), calls[n - 1], id);
    }
  }

  /** With a repository that works, a lookup of a stored device answers the endpoint last written. */
  lemma LookupAnswersLastWrite(s: State, calls: seq<Call>, i: nat)
    requires Coherent(s) && AllWork(calls) && i < |calls| && calls[i].op.Lookup? && calls[i].op.id in s.devices
    ensures var id := calls[i].op.id;
            var answer := Reply(After(s, calls, i), calls[i]);
            && answer.Found?
            && answer.result.publicEndpoint == (
                 match LastWrite(s, calls, i, id)
                 case None => s.devices[id].publicEndpoint
                 case Some(k) => if k < i && calls[k].op.UpdateEndpoint? then calls[k].op.endpoint else "")
            && answer.result.natType
               == if EverRecorded(s, calls, i, id) then "unknown" else s.devices[id].natType
  {
    hide After, LastWrite, EverRecorded, Next, Reply;
    LookupReadsThrough(s, calls, i);
    RowIs(s, calls, i, calls[i].op.id);
  }

  /** The answers tell what happened: an endpoint update says it is done iff it is written, and for a
      stored device whose well-formed update is not, that it is not found or not saved; a probe hands
      out what the cache holds afterwards, unless the device is unknown or the repository fails; and
      a lookup that no live entry answers keeps what it read for five minutes from the row's update. */
  lemma AnswersTell(s: State, call: Call)
    ensures call.op.UpdateEndpoint? ==>
              var id, now := call.op.id, Next(s, call);
              && (Reply(s, call) == Done <==> call.op.wellFormed && id in s.devices && call.repo.Works?)
              && (Reply(s, call) == Done ==>
                    id in now.devices && now.devices[id].publicEndpoint == call.op.endpoint && id !in now.cache)
              && (Reply(s, call) != Done ==> now == s)
              && (Reply(s, call) == InvalidEndpoint <==> !call.op.wellFormed)
              && (Reply(s, call) == NotSaved <==> call.op.wellFormed && id in s.devices && call.repo.WriteFails?)
    ensures call.op.Probe? ==>
              var id, now := call.op.id, Next(s, call);
              var live := id in s.cache && call.now - s.cache[id].probeTime < s.cache[id].ttl;
              && id in now.cache
              && (Reply(s, call).Found? <==> live || (id in s.devices && call.repo.Works?))
              && (Reply(s, call).Found? ==> Reply(s, call).result == now.cache[id])
              && (live ==> now == s)
              && (!live ==> now.cache[id].localEndpoint == call.op.localEndpoint
                            && now.cache[id].natType == "unknown" && now.cache[id].publicEndpoint == ""
                            && now.cache[id].probeTime == call.now && now.cache[id].ttl == 300_000_000_000)
              && (Reply(s, call) == NotSaved <==> !live && id in s.devices && call.repo.WriteFails?)
    ensures call.op.Lookup? ==>
              var id, now := call.op.id, Next(s, call);
              && (Reply(s, call).Found? ==> id in now.cache && Reply(s, call).result == now.cache[id])
              && (!Reply(s, call).Found? ==> Reply(s, call) == DeviceNotFound && now == s)
              && now.devices == s.devices
              && var live := id in s.cache && call.now - s.cache[id].probeTime < s.cache[id].ttl;
                 && (Reply(s, call).Found? <==> live || (id in s.devices && !call.repo.ReadFails?))
                 && (live ==> now == s)
                 && (Reply(s, call).Found? && !live ==>
                       && now.cache[id].probeTime == s.devices[id].updatedAt && now.cache[id].ttl == 300_000_000_000
                       && now.cache[id].localEndpoint == "")
  {
  }

  /** A cleanup removes exactly the entries older than their time to live. */
  lemma CleanupRemoves(s: State, call: Call, id: nat)
    requires call.op.Cleanup?
    ensures id in Next(s, call).cache <==> id in s.cache && call.now <= s.cache[id].probeTime + s.cache[id].ttl
    ensures id in Next(s, call).cache ==> Next(s, call).cache[id] == s.cache[id]
    ensures Next(s, call).devices == s.devices
  {
  }

  // ---------------------------------------------------------------- cleanup

  ghost predicate Ordered(calls: seq<Call>) {
    forall i, j :: 0 <= i <= j < |calls| ==> calls[i].now <= calls[j].now
  }

  /** Two states a caller cannot tell apart from time `now` on. */
  ghost predicate Indistinguishable(s: State, t: State, now: int) {
    && s.devices == t.devices
    && forall id :: Cached(s, id, now) || Cached(t, id, now)
         ==> id in s.cache && id in t.cache && s.cache[id] == t.cache[id]
  }

  function WithoutCleanup(calls: seq<Call>, n: nat): seq<Call>
    requires n <= |calls|
  {
    if n == 0 then []
    else if calls[n - 1].op.Cleanup? then WithoutCleanup(calls, n - 1)
    else WithoutCleanup(calls, n - 1) + [calls[n - 1]]
  }

  lemma {:induction false} AfterPrefix(s: State, calls: seq<Call>, more: Call, n: nat)
    requires n <= |calls|
    ensures After(s, calls + [more], n) == After(s, calls, n)
  {
    if n > 0 {
      AfterPrefix(s, calls, more, n - 1);
    }
  }

  lemma SameNext(s: State, t: State, call: Call)
    requires Indistinguishable(s, t, call.now) && !call.op.Cleanup?
    ensures Indistinguishable(Next(s, call), Next(t, call), call.now)
    ensures Reply(s, call) == Reply(t, call)
  {
  }

  lemma CleanupInvisible(s: State, t: State, call: Call)
    requires Indistinguishable(s, t, call.now) && call.op.Cleanup?
    ensures Indistinguishable(Next(s, call), t, call.now)
  {
  }

  lemma LaterIndistinguishable(s: State, t: State, now: int, later: int)
    requires Indistinguishable(s, t, now) && now <= later
    ensures Indistinguishable(s, t, later)
  {
    assert forall id :: Cached(s, id, later) ==> Cached(s, id, now);
    assert forall id :: Cached(t, id, later) ==> Cached(t, id, now);
  }

  lemma {:induction false} CleanupSimulation(s: State, calls: seq<Call>, n: nat, now: int)
    requires Ordered(calls) && n <= |calls| && (n > 0 ==> calls[n - 1].now <= now)
    ensures var kept := WithoutCleanup(calls, n);
            Indistinguishable(After(s, calls, n), After(s, kept, |kept|), now)
  {
    if n > 0 {
      var c := calls[n - 1];
      var kept := WithoutCleanup(calls, n - 1);
      assert n > 1 ==> calls[n - 2].now <= c.now;
      CleanupSimulation(s, calls, n - 1, c.now);
      var a, b := After(s, calls, n - 1), After(s, kept, |kept|);
      if c.op.Cleanup? {
        CleanupInvisible(a, b, c);
      } else {
        SameNext(a, b, c);
        AfterPrefix(s, kept, c, |kept|);
      }
      var keptAll := WithoutCleanup(calls, n);
      LaterIndistinguishable(After(s, calls, n), After(s, keptAll, |keptAll|), c.now, now);
    }
  }

  /** In any run with a clock that never goes back, every answer is the one the same run without its
      CleanupExpiredSessions calls would give. */
  lemma CleanupChangesNoAnswer(s: State, calls: seq<Call>, i: nat)
    requires Ordered(calls) && i < |calls| && !calls[i].op.Cleanup?
    ensures var kept := WithoutCleanup(calls, i);
            Reply(After(s, calls, i), calls[i]) == Reply(After(s, kept, |kept|), calls[i])
  {
    var kept := WithoutCleanup(calls, i);
    assert i > 0 ==> calls[i - 1].now <= calls[i].now;
    CleanupSimulation(s, calls, i, calls[i].now);
    SameNext(After(s, calls, i), After(s, kept, |kept|), calls[i]);
  }

  // ---------------------------------------------------------------- failing repository calls

  /** Coherence survives a probe whose repository call fails iff nothing was written to the cache, the
      device is not stored, or its row already holds what the probe found. */
  lemma ProbeNotSavedCoherence(s: State, id: nat, localEndpoint: string, repo: Repo, now: int)
    requires Coherent(s) && !repo.Works?
    ensures Coherent(Next(s, Call(Probe(id, localEndpoint), repo, now)))
       <==> Cached(s, id, now) || id !in s.devices
            || (s.devices[id].natType == NAT_TYPE_UNKNOWN && s.devices[id].publicEndpoint == "")
  {
    var s' := Next(s, Call(Probe(id, localEndpoint), repo, now));
    if !Cached(s, id, now) && id in s.devices && !Agrees(FreshProbe(localEndpoint, now), s.devices[id]) {
      assert id in s'.cache && !Agrees(s'.cache[id], s'.devices[id]);
    }
  }

  predicate Stale(s: State, id: nat) {
    id in s.cache && id in s.devices && !Agrees(s.cache[id], s.devices[id])
  }

  /** Call j probes a stored device, fills the cache, and does not get the result into the row, which
      says something else. */
  ghost predicate NotRecorded(s: State, calls: seq<Call>, j: nat, id: nat)
    requires j < |calls|
  {
    var before := After(s, calls, j);
    && calls[j].op.Probe? && calls[j].op.id == id && !calls[j].repo.Works?
    && !Cached(before, id, calls[j].now) && id in before.devices
    && !Agrees(FreshProbe(calls[j].op.localEndpoint, calls[j].now), before.devices[id])
  }

  /** Call k updates the endpoint of the device, which empties its cache entry. */
  predicate Refreshes(calls: seq<Call>, k: nat, id: nat)
    requires k < |calls|
  {
    calls[k].op.UpdateEndpoint? && calls[k].op.id == id && calls[k].op.wellFormed && calls[k].repo.Works?
  }

  ghost predicate Unrefreshed(calls: seq<Call>, j: nat, n: nat, id: nat)
    requires n <= |calls|
  {
    forall k :: j < k < n ==> !Refreshes(calls, k, id)
  }

  /** One call leaves a stale entry as it is, removes it, or brings it in line with the row. */
  lemma StaleStep(s: State, call: Call, id: nat)
    ensures Stale(Next(s, call), id) ==>
              || (Stale(s, id) && Next(s, call).cache[id] == s.cache[id] && Next(s, call).devices[id] == s.devices[id]
                  && !(call.op.UpdateEndpoint? && call.op.id == id && call.op.wellFormed && call.repo.Works?))
              || (call.op.Probe? && call.op.id == id && !call.repo.Works? && !Cached(s, id, call.now)
                  && id in s.devices && Next(s, call).devices[id] == s.devices[id]
                  && Next(s, call).cache[id] == FreshProbe(call.op.localEndpoint, call.now))
  {
  }

  /** A stale entry is the one some probe left behind that was not recorded, and the endpoint has not
      been updated since. */
  lemma {:induction false} StaleOrigin(s: State, calls: seq<Call>, n: nat, id: nat) returns (j: nat)
    requires Coherent(s) && n <= |calls| && Stale(After(s, calls, n), id)
    ensures j < n && NotRecorded(s, calls, j, id) && Unrefreshed(calls, j, n, id)
    ensures After(s, calls, n).cache[id] == FreshProbe(calls[j].op.localEndpoint, calls[j].now)
  {
    hide Next, Cached, FreshProbe;
    assert n > 0;
    var before, call := After(s, calls, n - 1), calls[n - 1];
    StaleStep(before, call, id);
    if Stale(before, id) && After(s, calls, n).cache[id] == before.cache[id]
       && After(s, calls, n).devices[id] == before.devices[id] && !Refreshes(calls, n - 1, id) {
      j := StaleOrigin(s, calls, n - 1, id);
    } else {
      j := n - 1;
    }
  }

  /** As long as the entry is live and the endpoint not updated, nothing replaces it. */
  lemma LiveStays(s: State, call: Call, id: nat)
    requires Stale(s, id) && Live(s.cache[id], call.now)
    requires !(call.op.UpdateEndpoint? && call.op.id == id && call.op.wellFormed && call.repo.Works?)
    ensures Stale(Next(s, call), id) && Next(s, call).cache[id] == s.cache[id]
  {
  }

  lemma BecomesStale(s: State, calls: seq<Call>, j: nat, id: nat)
    requires j < |calls| && NotRecorded(s, calls, j, id)
    ensures Stale(After(s, calls, j + 1), id)
    ensures After(s, calls, j + 1).cache[id] == FreshProbe(calls[j].op.localEndpoint, calls[j].now)
  {
  }

  lemma {:induction false} StaysStale(s: State, calls: seq<Call>, j: nat, n: nat, id: nat)
    requires Ordered(calls) && j < n <= |calls| && NotRecorded(s, calls, j, id) && Unrefreshed(calls, j, n, id)
    requires calls[n - 1].now - calls[j].now < CACHE_TTL
    ensures Stale(After(s, calls, n), id)
    ensures After(s, calls, n).cache[id] == FreshProbe(calls[j].op.localEndpoint, calls[j].now)
  {
    hide Next, NotRecorded, After;
    if n == j + 1 {
      BecomesStale(s, calls, j, id);
    } else {
      assert calls[n - 2].now <= calls[n - 1].now;
      StaysStale(s, calls, j, n - 1, id);
      assert !Refreshes(calls, n - 1, id);
      LiveStays(After(s, calls, n - 1), calls[n - 1], id);
      LastCall(s, calls, n);
    }
  }

  lemma LastCall(s: State, calls: seq<Call>, n: nat)
    requires 0 < n <= |calls|
    ensures After(s, calls, n) == Next(After(s, calls, n - 1), calls[n - 1])
  {
    hide Next;
  }

  /** The answer to call i differs in type or endpoint from the row of the device. */
  ghost predicate AnswersStale(s: State, calls: seq<Call>, i: nat, id: nat)
    requires i < |calls|
  {
    var before := After(s, calls, i);
    var answer := Reply(before, calls[i]);
    answer.Found? && id in before.devices && !Agrees(answer.result, before.devices[id])
  }

  /** Whatever repository calls fail: a lookup answers something else than the row iff less than the
      cache's five minutes before it a probe of the device was not recorded, on a row that said
      something else, and the endpoint has not been updated since. */
  lemma LookupStaleIff(s: State, calls: seq<Call>, i: nat)
    requires Coherent(s) && Ordered(calls) && i < |calls| && calls[i].op.Lookup?
    ensures AnswersStale(s, calls, i, calls[i].op.id)
       <==> exists j :: 0 <= j < i && NotRecorded(s, calls, j, calls[i].op.id)
                        && Unrefreshed(calls, j, i, calls[i].op.id) && calls[i].now - calls[j].now < CACHE_TTL
  {
    hide After, NotRecorded, Next, Unrefreshed;
    var id := calls[i].op.id;
    var before := After(s, calls, i);
    if AnswersStale(s, calls, i, id) {
      var j := StaleOrigin(s, calls, i, id);
    }
    if j :| 0 <= j < i && NotRecorded(s, calls, j, id)
            && Unrefreshed(calls, j, i, id) && calls[i].now - calls[j].now < CACHE_TTL {
      assert calls[i - 1].now <= calls[i].now;
      StaysStale(s, calls, j, i, id);
    }
  }

  // ---------------------------------------------------------------- the coordinator

  class NATCoordinator {
    var natCache: map<nat, ProbeResult>
    /** The device repository. */
    var devices: map<nat, Device>

    function View(): State
      reads this
    {
      State(natCache, devices)
    }

    constructor (devices: map<nat, Device>)
      ensures View() == State(map[], devices) && Coherent(View())
    {
      natCache := map[];
      this.devices := devices;
    }

    method ProbeNATType(id: nat, localEndpoint: string, repo: Repo, now: int) returns (r: Answer)
      modifies this
      ensures View() == Next(old(View()), Call(Probe(id, localEndpoint), repo, now))
      ensures r == Reply(old(View()), Call(Probe(id, localEndpoint), repo, now))
    {
      if id in natCache && now - natCache[id].probeTime < natCache[id].ttl {
        return Found(natCache[id]);
      }
      var result := ProbeResult(NAT_TYPE_UNKNOWN, "", localEndpoint, now, CACHE_TTL);
      natCache := natCache[id := result];
      if id !in devices || repo.ReadFails? {
        return DeviceNotFound;
      }
      if repo.WriteFails? {
        return NotSaved;
      }
      devices := devices[id := devices[id].(natType := result.natType,
                                            publicEndpoint := result.publicEndpoint, updatedAt := now)];
      return Found(result);
    }

    method GetNATResult(id: nat, repo: Repo, now: int) returns (r: Answer)
      modifies this
      ensures View() == Next(old(View()), Call(Lookup(id), repo, now))
      ensures r == Reply(old(View()), Call(Lookup(id), repo, now))
    {
      if id in natCache && now - natCache[id].probeTime < natCache[id].ttl {
        return Found(natCache[id]);
      }
      if id !in devices || repo.ReadFails? {
        return DeviceNotFound;
      }
      var device := devices[id];
      var result := ProbeResult(device.natType, device.publicEndpoint, "", device.updatedAt, CACHE_TTL);
      natCache := natCache[id := result];
      return Found(result);
    }

    method UpdatePublicEndpoint(id: nat, endpoint: string, wellFormed: bool, repo: Repo, now: int)
      returns (r: Answer)
      modifies this
      ensures View() == Next(old(View()), Call(UpdateEndpoint(id, endpoint, wellFormed), repo, now))
      ensures r == Reply(old(View()), Call(UpdateEndpoint(id, endpoint, wellFormed), repo, now))
    {
      if !wellFormed {
        return InvalidEndpoint;
      }
      if id !in devices || repo.ReadFails? {
        return DeviceNotFound;
      }
      if repo.WriteFails? {
        return NotSaved;
      }
      devices := devices[id := devices[id].(publicEndpoint := endpoint, updatedAt := now)];
      natCache := natCache - {id};
      return Done;
    }

    method CleanupExpiredSessions(now: int) returns (r: Answer)
      modifies this
      ensures View() == Next(old(View()), Call(Cleanup, Works, now)) && r == Done
    {
      ghost var kept := Next(View(), Call(Cleanup, Works, now)).cache;
      var todo := natCache.Keys;
      while todo != {}
        invariant devices == old(devices)
        invariant todo <= natCache.Keys
        invariant kept.Keys <= natCache.Keys <= old(natCache).Keys
        invariant forall id :: id in natCache ==> natCache[id] == old(natCache)[id] && (id in todo || id in kept)
        decreases |todo|
      {
        var id :| id in todo;
        todo := todo - {id};
        if now - natCache[id].probeTime > natCache[id].ttl {
          natCache := natCache - {id};
        }
      }
      assert natCache == kept;
      return Done;
    }
  }
}
