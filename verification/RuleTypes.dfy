/** Rules, conditions and what they are matched against. */
module RuleTypes {
  import opened Wrappers
  import opened TimeRange
  import SlidingWindow

  /** One time-of-day range of a rule. An empty zone is the local one. */
  datatype Span = Span(start: string, end: string, timezone: string, weekdays: seq<string>)

  datatype Conditions = Conditions(
    severity: seq<string>, alertTypes: seq<string>, deviceIDs: seq<string>, deviceTags: seq<string>,
    timeRange: Option<Span>, messageMatch: string, metadata: map<string, string>,
    allOf: seq<Conditions>, anyOf: seq<Conditions>, noneOf: seq<Conditions>)

  datatype Group = AllOf | AnyOf | NoneOf

  function Parts(c: Conditions, g: Group): seq<Conditions> {
    match g
    case AllOf => c.allOf
    case AnyOf => c.anyOf
    case NoneOf => c.noneOf
  }

  datatype RetryPolicy = RetryPolicy(maxRetries: int, retryDelay: int, backoffRate: real)

  datatype Action = Action(actionType: string, enabled: bool, config: set<string>, retryPolicy: Option<RetryPolicy>)

  datatype Escalation = Escalation(enabled: bool, waitDuration: int, repeatInterval: int, maxRepeat: int)

  datatype Silence = Silence(enabled: bool, timeRanges: seq<Span>)

  datatype Rule = Rule(
    id: string, name: string, enabled: bool, priority: int, conditions: Conditions, actions: seq<Action>,
    rateLimit: Option<SlidingWindow.RateLimit>, escalation: Option<Escalation>, silence: Option<Silence>)

  /** A metadata value of an alert. */
  datatype Json = JsonString(text: string) | JsonNumber(number: real) | JsonBool(value: bool) | JsonOther

  datatype Status = Active | Acknowledged | Resolved

  datatype Alert = Alert(
    id: nat, deviceID: Option<string>, severity: string, alertType: string, message: string,
    metadata: map<string, Json>, status: Status)

  datatype Context = Context(alert: Alert, deviceTags: Option<seq<string>>, timestamp: int)

  datatype Regexp = Regexp(program: nat)

  datatype LocalTime = LocalTime(minute: Minute, weekday: string)

  /** The libraries the rules rely on: regular expressions, the time zone database, number texts. */
  datatype Env = Env(
    compile: string -> Option<Regexp>,
    matchString: (Regexp, string) -> bool,
    zoneKnown: string -> bool,
    localTime: (string, int) -> LocalTime,
    formatFloat: real -> string)
}
