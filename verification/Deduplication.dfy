/** The alert deduplication store: records with expiry, one per alert key. Keys stand for their
    hashes. Every Redis call reads its own clock; a stored value with expiry e is there before e. */
module Deduplication {
  import opened Wrappers

  datatype Severity = Low | Medium | High | Critical

  function Rank(s: Severity): nat {
    match s
    case Low => 0 case Medium => 1 case High => 2 case Critical => 3
  }

  datatype AlertKey = AlertKey(deviceID: string, alertType: string)

  /** `expiring` is false only for the reference store whose records never expire. */
  datatype Config = Config(dedupeWindow: nat, silentPeriod: nat, escalationThreshold: int, expiring: bool)

  datatype Info = Info(
    alertID: nat, firstSeenAt: int, lastSeenAt: int,
    occurrenceCount: int, currentSeverity: Severity, escalated: bool)

  datatype Stored = Stored(info: Info, expiresAt: Option<int>)

  /** Redis expiry: a zero TTL means none. */
  function ExpiresAt(now: int, ttl: nat): Option<int> {
    if ttl == 0 then None else Some(now + ttl)
  }

  predicate Before(now: int, expiresAt: Option<int>) {
    expiresAt.None? || now < expiresAt.value
  }

  type Store = map<AlertKey, Stored>

  /** What Get returns. */
  function Get(store: Store, key: AlertKey, now: int): Option<Info> {
    if key in store && Before(now, store[key].expiresAt) then Some(store[key].info) else None
  }

  function DedupeTTL(c: Config): nat {
    if c.expiring then c.dedupeWindow * 2 else 0
  }

  /** A record written now is there for twice the window, and for good without a window. */
  function RenewedUntil(c: Config, now: int): Option<int> {
    if c.expiring && c.dedupeWindow > 0 then Some(now + c.dedupeWindow + c.dedupeWindow) else None
  }

  function Put(c: Config, store: Store, key: AlertKey, info: Info, now: int): Store {
    store[key := Stored(info, ExpiresAt(now, DedupeTTL(c)))]
  }

  datatype Decision = Create | Update(alertID: nat, escalate: bool)

  function Decide(c: Config, store: Store, key: AlertKey, severity: Severity, now: int): Decision {
    match Get(store, key, now)
    case None => Create
    case Some(info) =>
      if now - info.lastSeenAt > c.dedupeWindow then Create
      else Update(info.alertID,
                  !info.escalated && info.occurrenceCount >= c.escalationThreshold && severity != Critical)
  }

  function RecordNew(c: Config, store: Store, key: AlertKey, alertID: nat, severity: Severity, now: int): Store {
    Put(c, store, key, Info(alertID, now, now, 1, severity, false), now)
  }

  /** A repeated occurrence; nothing is recorded when the record is gone. */
  function RecordRepeat(c: Config, store: Store, key: AlertKey, severity: Severity, now: int): Store {
    match Get(store, key, now)
    case None => store
    case Some(info) =>
      Put(c, store, key,
          info.(lastSeenAt := now, occurrenceCount := info.occurrenceCount + 1, currentSeverity := severity), now)
  }

  function Marked(c: Config, store: Store, key: AlertKey, now: int): Store {
    match Get(store, key, now)
    case None => store
    case Some(info) => Put(c, store, key, info.(escalated := true), now)
  }

  function OccurrenceCount(store: Store, key: AlertKey, now: int): int {
    match Get(store, key, now)
    case None => 0
    case Some(info) => info.occurrenceCount
  }

  type Silences = map<AlertKey, Option<int>>

  predicate IsSilent(silences: Silences, key: AlertKey, now: int) {
    key in silences && Before(now, silences[key])
  }

  class Manager {
    const config: Config
    var store: Store
    var silences: Silences

    constructor (config: Config)
      ensures this.config == config && store == map[] && silences == map[]
    {
      this.config := config;
      store, silences := map[], map[];
    }

    /** The lock is free: there is one caller at a time. */
    method ShouldCreateAlert(key: AlertKey, severity: Severity, now: int) returns (d: Decision)
      ensures d == Decide(config, store, key, severity, now)
      ensures d.Create? <==>
                || key !in store
                || (store[key].expiresAt.Some? && now >= store[key].expiresAt.value)
                || now - store[key].info.lastSeenAt > config.dedupeWindow
      ensures d.Update? ==>
                && d.alertID == store[key].info.alertID
                && (d.escalate <==> !store[key].info.escalated && severity != Critical
                                    && store[key].info.occurrenceCount >= config.escalationThreshold)
    {
      var data := Get(store, key, now);
      if data.None? {
        return Create;
      }
      var info := data.value;
      if now - info.lastSeenAt > config.dedupeWindow {
        return Create;
      }
      var shouldEscalate :=
        !info.escalated && info.occurrenceCount >= config.escalationThreshold && severity != Critical;
      return Update(info.alertID, shouldEscalate);
    }

    method RecordAlert(alertID: nat, key: AlertKey, severity: Severity, isNew: bool, now: int) returns (ok: bool)
      modifies this`store
      ensures store == if isNew then RecordNew(config, old(store), key, alertID, severity, now)
                       else RecordRepeat(config, old(store), key, severity, now)
      ensures ok == (isNew || Get(old(store), key, now).Some?)
      ensures ok ==>
                && key in store && store == old(store)[key := store[key]]
                && store[key].expiresAt == RenewedUntil(config, now)
      ensures ok && isNew ==> store[key].info == Info(alertID, now, now, 1, severity, false)
      ensures ok && !isNew ==>
                && key in old(store) && store[key].info.alertID == old(store)[key].info.alertID
                && store[key].info.firstSeenAt == old(store)[key].info.firstSeenAt
                && store[key].info.lastSeenAt == now && store[key].info.currentSeverity == severity
                && store[key].info.occurrenceCount == old(store)[key].info.occurrenceCount + 1
                && store[key].info.escalated == old(store)[key].info.escalated
      ensures !ok ==> store == old(store)
    {
      var info: Info;
      if isNew {
        info := Info(alertID, now, now, 1, severity, false);
      } else {
        var data := Get(store, key, now);
        if data.None? {
          return false;
        }
        info := data.value;
        info := info.(lastSeenAt := now);
        info := info.(occurrenceCount := info.occurrenceCount + 1);
        info := info.(currentSeverity := severity);
      }
      var ttl := DedupeTTL(config);
      store := store[key := Stored(info, ExpiresAt(now, ttl))];
      return true;
    }

    method MarkEscalated(key: AlertKey, now: int) returns (ok: bool)
      modifies this`store
      ensures store == Marked(config, old(store), key, now)
      ensures ok == Get(old(store), key, now).Some?
      ensures ok ==>
                && key in old(store) && key in store && store == old(store)[key := store[key]]
                && store[key].info == old(store)[key].info.(escalated := true)
                && store[key].expiresAt == RenewedUntil(config, now)
      ensures !ok ==> store == old(store)
    {
      var data := Get(store, key, now);
      if data.None? {
        return false;
      }
      var info := data.value.(escalated := true);
      var ttl := DedupeTTL(config);
      store := store[key := Stored(info, ExpiresAt(now, ttl))];
      return true;
    }

    method RemoveDedupeInfo(key: AlertKey)
      modifies this`store
      ensures store == old(store) - {key}
    {
      store := store - {key};
    }

    method IsInSilentPeriod(key: AlertKey, now: int) returns (silent: bool)
      ensures silent == IsSilent(silences, key, now)
      ensures silent <==> key in silences && (silences[key].Some? ==> now < silences[key].value)
    {
      silent := key in silences && Before(now, silences[key]);
    }

    method SetSilentPeriod(key: AlertKey, now: int)
      modifies this`silences
      ensures silences == old(silences)[key := ExpiresAt(now, config.silentPeriod)]
      ensures config.silentPeriod > 0 ==> silences[key] == Some(now + config.silentPeriod)
    {
      silences := silences[key := ExpiresAt(now, config.silentPeriod)];
    }

    method GetOccurrenceCount(key: AlertKey, now: int) returns (count: int)
      ensures count == OccurrenceCount(store, key, now)
      ensures count == if key in store && (store[key].expiresAt.Some? ==> now < store[key].expiresAt.value)
                       then store[key].info.occurrenceCount else 0
    {
      var data := Get(store, key, now);
      return if data.None? then 0 else data.value.occurrenceCount;
    }
  }
}
