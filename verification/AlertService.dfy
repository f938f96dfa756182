/** The health checker, which produces the issues, and the generator object that handles them. */
module AlertService {
  import opened Wrappers
  import opened Deduplication
  import opened AlertGenerator
  import AlertSeverity

  datatype HealthIssue = HealthIssue(issueType: string, deviceID: string, severity: string)

  function MapSeverity(severity: string): Severity {
    if severity == "critical" then Critical
    else if severity == "high" then High
    else if severity == "medium" then Medium
    else if severity == "low" then Low
    else Medium
  }

  function MapIssueType(issueType: string): string {
    if issueType == "device_offline" then "device_offline"
    else if issueType == "high_latency" then "high_latency"
    else if issueType == "connection_failed" then "tunnel_failure"
    else "tunnel_failure"
  }

  function KeyOf(issue: HealthIssue): AlertKey {
    AlertKey(issue.deviceID, MapIssueType(issue.issueType))
  }

  /** Two issues go to one alert iff they are of one device and of one type; the types other than
      offline and latency count as one. */
  lemma SameAlertIff(i: HealthIssue, j: HealthIssue)
    ensures KeyOf(i) == KeyOf(j)
       <==> && i.deviceID == j.deviceID
            && (|| i.issueType == j.issueType
                || (&& i.issueType !in {"device_offline", "high_latency"}
                    && j.issueType !in {"device_offline", "high_latency"}))
  {
  }

  function SeverityName(s: Severity): string {
    match s
    case Low => "low" case Medium => "medium" case High => "high" case Critical => "critical"
  }

  /** A severity is read as its name; any other text as medium. */
  lemma SeverityRead(text: string, s: Severity)
    ensures MapSeverity(text) == s
       <==> text == SeverityName(s) || (s == Medium && text !in {"low", "high", "critical"})
  {
  }

  // ---------------------------------------------------------------- the threshold checker

  const MINUTE := 60 * 1_000_000_000

  datatype Device = Device(id: string, lastSeenAt: Option<int>)

  datatype Session = Session(deviceA: string, avgLatencyMs: Option<int>)

  predicate Offline(d: Device, now: int) {
    d.lastSeenAt.Some? && now - d.lastSeenAt.value > 5 * MINUTE
  }

  predicate Slow(s: Session) {
    s.avgLatencyMs.Some? && s.avgLatencyMs.value > 500
  }

  /** The places below n at which a test holds, in order: which devices or sessions are reported. */
  function Places<T>(items: seq<T>, test: T -> bool, n: nat): seq<nat>
    requires n <= |items|
  {
    if n == 0 then [] else Places(items, test, n - 1) + if test(items[n - 1]) then [n - 1] else []
  }

  /** The severities the checker gives an alert key. */
  function CheckerAlphabet(key: AlertKey): set<Severity> {
    if key.alertType == "device_offline" then {High, Critical}
    else if key.alertType == "high_latency" then {Medium, High}
    else {}
  }

  ghost predicate Checked(issue: HealthIssue) {
    MapSeverity(issue.severity) in CheckerAlphabet(KeyOf(issue))
  }

  /** One issue per device of the first n that has been offline for too long, in their order. */
  ghost predicate OfflineIssues(devices: seq<Device>, now: int, n: nat, issues: seq<HealthIssue>)
    requires n <= |devices|
  {
    var places := Places(devices, d => Offline(d, now), n);
    && |issues| == |places|
    && forall k :: 0 <= k < |issues| ==>
         && 0 <= places[k] < n && devices[places[k]].lastSeenAt.Some?
         && KeyOf(issues[k]) == AlertKey(devices[places[k]].id, "device_offline")
         && (MapSeverity(issues[k].severity) == Critical <==> now - devices[places[k]].lastSeenAt.value > 30 * MINUTE)
         && Checked(issues[k])
  }

  /** One issue per session of the first n that is too slow, in their order. */
  ghost predicate LatencyIssues(sessions: seq<Session>, n: nat, issues: seq<HealthIssue>)
    requires n <= |sessions|
  {
    var places := Places(sessions, Slow, n);
    && |issues| == |places|
    && forall k :: 0 <= k < |issues| ==>
         && 0 <= places[k] < n && sessions[places[k]].avgLatencyMs.Some?
         && KeyOf(issues[k]) == AlertKey(sessions[places[k]].deviceA, "high_latency")
         && (MapSeverity(issues[k].severity) == High <==> sessions[places[k]].avgLatencyMs.value > 1000)
         && Checked(issues[k])
  }

  lemma {:induction false} PlacesAre<T>(items: seq<T>, test: T -> bool, n: nat)
    requires n <= |items|
    ensures forall i :: i in Places(items, test, n) <==> 0 <= i < n && test(items[i])
    ensures forall j, k :: 0 <= j < k < |Places(items, test, n)| ==>
              Places(items, test, n)[j] < Places(items, test, n)[k]
  {
    if n > 0 {
      PlacesAre(items, test, n - 1);
      var before := Places(items, test, n - 1);
      assert forall j :: 0 <= j < |before| ==> before[j] in before;
    }
  }

  /** A device is reported iff it was seen more than five minutes ago; one never seen is not. */
  lemma ReportedIffOffline(devices: seq<Device>, now: int, issues: seq<HealthIssue>, i: nat)
    requires OfflineIssues(devices, now, |devices|, issues) && i < |devices|
    ensures i in Places(devices, d => Offline(d, now), |devices|)
       <==> devices[i].lastSeenAt.Some? && now > devices[i].lastSeenAt.value + 300_000_000_000
    ensures devices[i].lastSeenAt.Some? && now > devices[i].lastSeenAt.value + 300_000_000_000 ==>
              exists k :: 0 <= k < |issues| && KeyOf(issues[k]) == AlertKey(devices[i].id, "device_offline")
                && (MapSeverity(issues[k].severity) == Critical
                    <==> now > devices[i].lastSeenAt.value + 1_800_000_000_000)
  {
    PlacesAre(devices, d => Offline(d, now), |devices|);
    var places := Places(devices, d => Offline(d, now), |devices|);
    hide Checked, KeyOf, MapSeverity, Places;
    if i in places {
      var k :| 0 <= k < |places| && places[k] == i;
      assert KeyOf(issues[k]) == AlertKey(devices[i].id, "device_offline");
    }
  }

  /** A session is reported iff its average latency is known and above 500 milliseconds. */
  lemma ReportedIffSlow(sessions: seq<Session>, issues: seq<HealthIssue>, i: nat)
    requires LatencyIssues(sessions, |sessions|, issues) && i < |sessions|
    ensures i in Places(sessions, Slow, |sessions|)
       <==> sessions[i].avgLatencyMs.Some? && sessions[i].avgLatencyMs.value > 500
    ensures sessions[i].avgLatencyMs.Some? && sessions[i].avgLatencyMs.value > 500 ==>
              exists k :: 0 <= k < |issues| && KeyOf(issues[k]) == AlertKey(sessions[i].deviceA, "high_latency")
                && (MapSeverity(issues[k].severity) == High <==> sessions[i].avgLatencyMs.value > 1000)
  {
    PlacesAre(sessions, Slow, |sessions|);
    var places := Places(sessions, Slow, |sessions|);
    hide Checked, KeyOf, MapSeverity, Places;
    if i in places {
      var k :| 0 <= k < |places| && places[k] == i;
      assert KeyOf(issues[k]) == AlertKey(sessions[i].deviceA, "high_latency");
    }
  }

  method CheckOfflineDevices(devices: seq<Device>, now: int) returns (issues: seq<HealthIssue>)
    ensures OfflineIssues(devices, now, |devices|, issues)
  {
    issues := [];
    for i := 0 to |devices|
      invariant OfflineIssues(devices, now, i, issues)
    {
      var device := devices[i];
      if device.lastSeenAt.Some? {
        var timeSinceLastSeen := now - device.lastSeenAt.value;
        if timeSinceLastSeen > 5 * MINUTE {
          var severity := "high";
          if timeSinceLastSeen > 30 * MINUTE {
            severity := "critical";
          }
          var issue := HealthIssue("device_offline", device.id, severity);
          assert Checked(issue);
          issues := issues + [issue];
        }
      }
    }
  }

  method CheckHighLatency(sessions: seq<Session>) returns (issues: seq<HealthIssue>)
    ensures LatencyIssues(sessions, |sessions|, issues)
  {
    issues := [];
    for i := 0 to |sessions|
      invariant LatencyIssues(sessions, i, issues)
    {
      var session := sessions[i];
      if session.avgLatencyMs.Some? && session.avgLatencyMs.value > 500 {
        var severity := "medium";
        if session.avgLatencyMs.value > 1000 {
          severity := "high";
        }
        var issue := HealthIssue("high_latency", session.deviceA, severity);
        assert Checked(issue);
        issues := issues + [issue];
      }
    }
  }

  /** The offline issues, then the latency issues. */
  method CheckAll(devices: seq<Device>, sessions: seq<Session>, now: int) returns (issues: seq<HealthIssue>)
    ensures var offline := |Places(devices, d => Offline(d, now), |devices|)|;
            && offline <= |issues|
            && OfflineIssues(devices, now, |devices|, issues[..offline])
            && LatencyIssues(sessions, |sessions|, issues[offline..])
    ensures forall i :: 0 <= i < |issues| ==> Checked(issues[i])
  {
    hide Checked, Places;
    var offline := CheckOfflineDevices(devices, now);
    var latency := CheckHighLatency(sessions);
    issues := offline + latency;
    assert issues[..|offline|] == offline && issues[|offline|..] == latency;
  }

  /** Every issue of a run has the key and the severity some checked issue maps to. */
  ghost predicate FromChecker(ops: seq<Op>) {
    forall i :: 0 <= i < |ops| && ops[i].Issue? ==>
      exists issue: HealthIssue :: Checked(issue)
        && ops[i].key == KeyOf(issue) && ops[i].severity == MapSeverity(issue.severity)
  }

  /** As long as the checker is the only source of issues, no stored severity ever falls. */
  lemma CheckerNeverLowers(c: Config, ops: seq<Op>)
    requires UsualRun(c, ops) && FromChecker(ops)
    ensures AlertSeverity.NeverFalls(c, ops)
  {
    assert AlertSeverity.Narrow(CheckerAlphabet);
    assert AlertSeverity.Uses(ops, CheckerAlphabet);
    AlertSeverity.NarrowNeverFalls(c, ops, CheckerAlphabet);
  }

  // ---------------------------------------------------------------- quiet after a resolve

  /** Operations follow each other in time. */
  ghost predicate InOrder(ops: seq<Op>) {
    forall i, j :: 0 <= i < j < |ops| ==> End(ops[i]) <= Start(ops[j])
  }

  lemma {:induction false} LastResolveIsLatest(ops: seq<Op>, n: nat, r: nat, key: AlertKey)
    requires InOrder(ops) && r < n <= |ops| && ops[r].ResolveKey? && ops[r].key == key
    ensures LastResolve(ops, n, key).Some? && LastResolve(ops, n, key).value >= ops[r].now
  {
    if r < n - 1 {
      LastResolveIsLatest(ops, n - 1, r, key);
      assert End(ops[r]) <= Start(ops[n - 1]);
    }
  }

  /** After any resolve of a key, no issue of that key creates or updates an alert for SilentPeriod. */
  lemma QuietAfterResolve(c: Config, ops: seq<Op>, r: nat, i: nat)
    requires InOrder(ops) && r < i < |ops| && ops[r].ResolveKey? && ops[i].Issue? && ops[i].key == ops[r].key
    requires ops[i].clock.silent < ops[r].now + c.silentPeriod
    ensures OutcomeAt(c, ops, i) == Silenced
  {
    LastResolveIsLatest(ops, i, r, ops[i].key);
    SilencedIff(c, ops, i);
  }

  // ---------------------------------------------------------------- the generator object

  datatype GenerateError = InvalidDeviceID | AlertNotFound

  class Generator {
    const manager: Manager
    var rows: seq<Row>

    constructor (config: Config)
      ensures fresh(manager) && manager.config == config && View() == EMPTY
    {
      manager := new Manager(config);
      rows := [];
    }

    function View(): State
      reads this, manager
    {
      State(manager.store, manager.silences, rows)
    }

    /** `parses` says whether the device id is a UUID. A swallowed issue gives no alert. */
    method GenerateAlert(issue: HealthIssue, parses: bool, t: Clock) returns (r: Result<Option<Row>, GenerateError>)
      modifies this`rows, manager`store
      ensures !parses ==> View() == old(View()) && r == Failure(InvalidDeviceID)
      ensures parses ==> View() == Generate(manager.config, old(View()), KeyOf(issue), MapSeverity(issue.severity), t)
      ensures parses ==>
                match OutcomeOf(manager.config, old(View()), KeyOf(issue), MapSeverity(issue.severity), t)
                case Silenced => r == Success(None)
                case Created(id) => id < |rows| && r == Success(Some(rows[id]))
                case Updated(id, _) => r == if id < |rows| then Success(Some(rows[id])) else Failure(AlertNotFound)
    {
      if !parses {
        return Failure(InvalidDeviceID);
      }
      var alertType := MapIssueType(issue.issueType);
      var severity := MapSeverity(issue.severity);
      var dedupeKey := AlertKey(issue.deviceID, alertType);
      var inSilent := manager.IsInSilentPeriod(dedupeKey, t.silent);
      if inSilent {
        return Success(None);
      }
      var decision := manager.ShouldCreateAlert(dedupeKey, severity, t.should);
      match decision {
        case Create =>
          var alert := CreateNewAlert(dedupeKey, severity, t);
          return Success(Some(alert));
        case Update(id, escalate) =>
          r := UpdateExistingAlert(id, dedupeKey, escalate, severity, t);
      }
    }

    method CreateNewAlert(key: AlertKey, severity: Severity, t: Clock) returns (alert: Row)
      modifies this`rows, manager`store
      ensures View() == CreateNew(manager.config, old(View()), key, severity, t)
      ensures alert == rows[|rows| - 1]
    {
      alert := Row(key, severity, Active, 1);
      var id := |rows|;
      rows := rows + [alert];
      var _ := manager.RecordAlert(id, key, severity, true, t.record);
    }

    method UpdateExistingAlert(id: nat, key: AlertKey, escalate: bool, severity: Severity, t: Clock)
      returns (r: Result<Option<Row>, GenerateError>)
      modifies this`rows, manager`store
      ensures var repeated := Repeat(manager.config, old(View()), key, id, severity, t);
              View() == if escalate then Escalated(manager.config, repeated, key, id, severity, t) else repeated
      ensures r == if id < |rows| then Success(Some(rows[id])) else Failure(AlertNotFound)
    {
      var occurrenceCount := manager.GetOccurrenceCount(key, t.count);
      occurrenceCount := occurrenceCount + 1;
      rows := SetCount(rows, id, occurrenceCount);
      var _ := manager.RecordAlert(id, key, severity, false, t.record);
      if escalate {
        rows := SetSeverity(rows, id, EscalateSeverity(severity));
        var _ := manager.MarkEscalated(key, t.mark);
      }
      return if id < |rows| then Success(Some(rows[id])) else Failure(AlertNotFound);
    }

    method ResolveDeviceAlerts(key: AlertKey, now: int)
      modifies this`rows, manager
      ensures View() == Resolve(manager.config, old(View()), key, now)
      ensures key !in manager.store && key in manager.silences
      ensures |rows| == |old(rows)| && forall id :: 0 <= id < |rows| ==>
                rows[id] == if old(rows)[id].key == key && old(rows)[id].status == Active
                            then old(rows)[id].(status := Resolved) else old(rows)[id]
    {
      rows := CloseRows(rows, key);
      manager.RemoveDedupeInfo(key);
      manager.SetSilentPeriod(key, now);
    }
  }
}
