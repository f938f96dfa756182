# Edge-Link control plane: models and proofs

Edge-Link's back end keeps several small state machines whose promises are about whole runs, not about
single calls. This project models them in Dafny and proves those promises. Time is an `int` of
nanoseconds; every clock reading of a call is a parameter.

| file | what it models |
|---|---|
| `Addresses.dfy`, `IpPool.dfy` | byte-wise address arithmetic and the virtual-IP allocator (prefixes as in section 3.1 of RFC 4632, the directed broadcast address as in section 3.2.1.3 of RFC 1122) |
| `Subscription.dfy`, `Hub.dfy`, `HubDelivery.dfy`, `HubBroadcasts.dfy` | subscription filters, and the WebSocket hub with its readers and writers as a step relation over all interleavings |
| `RuleTypes.dfy`, `TimeRange.dfy`, `Matcher.dfy`, `RuleParser.dfy`, `Engine.dfy` | alert rules: times as text, matching, validation and defaults, escalation timers |
| `SlidingWindow.dfy`, `FixedWindow.dfy`, `RedisCounter.dfy` | three rate limiters with three different bounds |
| `Deduplication.dfy`, `AlertGenerator.dfy`, `AlertRows.dfy`, `AlertSeverity.dfy`, `AlertService.dfy` | the deduplication store, alert rows, escalation of severity, the health checker |
| `EmailQueue.dfy`, `EmailOutcomes.dfy` | the e-mail queue with retries and several workers |
| `NatCache.dfy` | the NAT probe cache in front of the device table |

`dafny verify dfyconfig.toml` checks all of it. Objects the services update in place are classes; each
method's `ensures` gives its new state as a function of the old one, and the lemmas are about runs of
those functions. Goroutines that share channels (hub, e-mail workers) are step machines.

Where the code does not keep a promise for every input, the model keeps the code and says exactly when
the promise holds:

- the search for an address ends iff the prefix has at least one bit or some host address is free (`IpPool.ScanEndsIff`);
- comparing times as text is comparing times iff both are zero-padded, or in one narrow form of the whole day (`TimeRange.TextTestIsRightIff`);
- MaxRepeat bounds an episode iff RepeatInterval is positive (`Engine.MaxRepeatHoldsIff`), and an acknowledged alert loses its timer iff a rule still matches it (`Engine.EndedKeepsTimerIff`);
- a rule cannot be disabled in its file (`RuleParser.LoadedSetMatches`), and the order of two priorities survives loading except when 0 meets 1 to 100 (`RuleParser.PriorityOrderKeptIff`);
- a client whose connection is gone stays in the hub for good iff its unregister was taken before its register (`HubDelivery.LeftBehindIff`);
- subscriptions are matched right iff no two filters in use share a key (`Subscription.MatchingRightIff`), and which filters share one is known (`Subscription.KeySharedIff`, `Subscription.KeySharedByAnyIff`);
- stored severities never fall iff no two severities of a key are more than one rank apart (`AlertSeverity.NeverFallsIffNarrow`);
- record expiry cannot be told iff no record expires under a call (`AlertGenerator.TransparentIff`); a zero SilentPeriod silences a resolved key for good (`AlertGenerator.SilencedIff`);
- the scheduler's limiter admits at most its maximum per interval iff the maximum is zero or the interval is one tick (`FixedWindow.MaxPerIntervalIff`);
- a NAT lookup answers something else than the row iff a recent probe could not be recorded (`NatCache.LookupStaleIff`).

The run properties of alerts are stated for one caller, as the check loop uses the generator
(backend/cmd/alert-service/main.go:158-199), and for runs in which no record expires between a call's
deduplication check and its last store access; calls shorter than DedupeWindow never see that happen
(`AlertGenerator.PromptRunsAreUsual`).

## Model

| member | source | states |
|---|---|---|
| Addresses.ContainsIffInBlock | backend/internal/service/topology_service.go:252-256 | masked comparison byte by byte decides `base <= ip < base + 2^(8n-prefix)`, for every address length and also when the prefix ends inside a byte |
| Addresses.Contains | backend/internal/service/topology_service.go:252 | the containment test answers numeric membership of the block |
| Addresses.BroadcastIsLast | backend/internal/service/topology_service.go:295-301 | base or-ed with the inverted mask is the address numbered base + 2^(8n-prefix) - 1 |
| Addresses.IsBroadcast | backend/internal/service/topology_service.go:295-301 | holds iff the address is numerically the last of the block |
| Addresses.IncrementIP | backend/internal/service/topology_service.go:278-292 | the carry loop adds one modulo 256^n; length and original are kept |
| Addresses.NetworkFits | backend/internal/service/topology_service.go:252 | the block lies inside the address space, so only /0 can wrap into itself |
| Addresses.ValueInjective | backend/internal/service/topology_service.go:252-258 | addresses of one length are equal iff their numbers are, so stepping by one visits each once |
| IpPool.IPPool.Scan | backend/internal/service/topology_service.go:252-266 | the loop terminates for a prefix of at least one bit, or when some host address is free, and finds the numerically lowest host address that is not taken, or none |
| IpPool.IPPool.Allocate | backend/internal/service/topology_service.go:247-268 | returns the lowest free host address and marks it, or fails and changes nothing, exactly as the number-level pool |
| IpPool.IPPool.Release | backend/internal/service/topology_service.go:271-275 | frees exactly that address; an address that is not taken changes nothing |
| IpPool.IPPool.constructor | backend/internal/service/topology_service.go:226-242 | a pool starts with exactly the existing devices' addresses taken |
| IpPool.LowestFreeMeans | backend/internal/service/topology_service.go:252-267 | an answer is free, inside the block and smallest; no answer iff every host address is taken |
| IpPool.TakenUntilReleased | backend/internal/service/topology_service.go:246-275 | an address stays taken through any run without a Release of it |
| IpPool.NoReissue | backend/internal/service/topology_service.go:246-275 | over any run, an address is not handed out twice without a Release of it in between |
| IpPool.SeedsProtected | backend/internal/service/topology_service.go:238-240 | an address an existing device had is never handed out before it is released |
| IpPool.AllocationsAscend | backend/internal/service/topology_service.go:252-267 | while nothing is released, answers ascend strictly and a pool that failed keeps failing |
| IpPool.TinyNetworks | backend/internal/service/topology_service.go:256-258 | /31 and /32 networks never have an address to give |
| IpPool.ScanEndsIff | backend/internal/service/topology_service.go:252-266 | the walk of IncrementIP steps from the network address leaves the block or reaches a free host address iff the prefix has at least one bit or some host address is free; this is Scan's precondition |
| IpPool.ZeroPrefixNeverExits | backend/internal/service/topology_service.go:252-266 | with /0 and every host address taken, the address after any number of steps of that walk is contained in the network and is skipped |
| IpPool.WalkCounts | backend/internal/service/topology_service.go:252 | the walk visits the numbers of the block one after the other |
| IpPool.StillInside | backend/internal/service/topology_service.go:252 | inside the block, with a prefix of at least one bit or a free address ahead, the wrapped counter has not wrapped: the address has the number the enumeration counts, at most the last of the block |
| IpPool.TopologyService.GetOrInitIPPool | backend/internal/service/topology_service.go:202-243 | an existing pool is returned as it is; a new one is seeded from the devices and stored; a bad CIDR changes nothing |
| IpPool.TopologyService.ReleaseVirtualIP | backend/internal/service/topology_service.go:187-199 | releases in the pool of the network if there is one, and is harmless otherwise |
| Subscription.MakeKeyInjective | backend/cmd/api-gateway/internal/websocket/subscription.go:83-92 | two filters without a colon in event type and device id that have the same key are the same filter |
| Subscription.KeySharedIff | backend/cmd/api-gateway/internal/websocket/subscription.go:83-92 | among filters with colon-free event types, a filter shares its key with another one iff it has a device id, and an organisation or ":org:" in that device id |
| Subscription.KeySharedByAnyIff | backend/cmd/api-gateway/internal/websocket/subscription.go:83-92 | among all filters, one has a key of its own iff it is a bare event type with neither ":device:" nor ":org:" in it |
| Subscription.SecondReplacesFirst | backend/cmd/api-gateway/internal/websocket/subscription.go:28-34 | of two different filters with one key, subscribing the second drops the first: an event it accepts no longer matches |
| Subscription.MakeKeyCollision | backend/cmd/api-gateway/internal/websocket/subscription.go:83-92 | such a pair, and the event that is lost |
| Subscription.StoredIffSubscribed | backend/cmd/api-gateway/internal/websocket/subscription.go:28-43 | after any run in which no other filter has its key, a filter is stored iff its last operation was Subscribe |
| Subscription.MatchesIffSubscribed | backend/cmd/api-gateway/internal/websocket/subscription.go:46-80 | after any run in which no two filters share a key, an event matches iff some subscribed filter accepts it |
| Subscription.AcceptedByFour | backend/cmd/api-gateway/internal/websocket/subscription.go:59-80 | an event is accepted by exactly four filters: its type alone, with its device, with its organisation, or with both |
| Subscription.DeliveredIffSubscribed | backend/cmd/api-gateway/internal/websocket/subscription.go:28-80 | after any run in which no two filters share a key, an event matches iff the last word on one of those four filters is to subscribe |
| Subscription.MatchingRightIff | backend/cmd/api-gateway/internal/websocket/subscription.go:28-80 | over every run of filters from any given set and every event, matching agrees with the subscriptions iff no two filters of the set share a key |
| Subscription.SubscriptionManager.Subscribe | backend/cmd/api-gateway/internal/websocket/subscription.go:28-34 | stores the filter under its key and leaves the other keys |
| Subscription.SubscriptionManager.Unsubscribe | backend/cmd/api-gateway/internal/websocket/subscription.go:37-43 | removes the filter's key and leaves the other keys |
| Subscription.SubscriptionManager.Matches | backend/cmd/api-gateway/internal/websocket/subscription.go:46-56 | the scan over the map answers whether some stored filter accepts the event |
| Hub.HubIsSafe | backend/cmd/api-gateway/internal/websocket/ws_handler.go:99-131 | over every interleaving: no send on a closed channel, no blocked sender when a channel is closed, each Send closed at most once, every client in the map has an open Send |
| Hub.StepFits | backend/cmd/api-gateway/internal/websocket/ws_handler.go:99-131 | each step keeps the account of each client: exactly one of waiting to be registered, in the map, closed; at most one unregister, from a reader that is gone |
| Hub.StepSafe | backend/cmd/api-gateway/internal/websocket/ws_handler.go:112-119 | no enabled step panics in a state that keeps the account |
| HubDelivery.EmittedInOrder | backend/cmd/api-gateway/internal/websocket/ws_handler.go:198-221 | what a writer writes out are accepted broadcasts, each at most once, in the order they were accepted; with the writer running nothing that left the channel is missing |
| HubDelivery.AlwaysInOrder | backend/cmd/api-gateway/internal/websocket/ws_handler.go:323-342 | the same for everything that ever entered the channel, and the channel is the tail of that history |
| HubDelivery.EmittedWasWanted | backend/cmd/api-gateway/internal/websocket/ws_handler.go:328-337 | every broadcast written out matched the client's subscriptions when the hub looked at them for it |
| HubDelivery.WantsIffSubscribed | backend/cmd/api-gateway/internal/websocket/ws_handler.go:267-306 | at any moment, no two of the client's carried-out requests sharing a key, it wants an event iff its last word on one of the four filters that accept the event is to subscribe |
| HubDelivery.MissedOnlyWhenFull | backend/cmd/api-gateway/internal/websocket/ws_handler.go:327-343 | when the hub is done with a broadcast, each client in the map has it, did not match when looked at, or had a full buffer at the send |
| HubBroadcasts.EveryBroadcastIsSettled | backend/cmd/api-gateway/internal/websocket/ws_handler.go:127-128 | for each broadcast the hub has taken up and left, there is the step that took it, and every client in the map at that step has it, did not match when looked at, or had a full buffer |
| HubBroadcasts.EachIsTaken | backend/cmd/api-gateway/internal/websocket/ws_handler.go:127-128 | accepted broadcasts are taken up in order, none left out, each starting with all clients in the map |
| HubBroadcasts.AcceptedIff | backend/cmd/api-gateway/internal/websocket/ws_handler.go:353-361 | a broadcast is accepted iff fewer than 1024 wait, and a refused one changes nothing |
| HubBroadcasts.ConnectAdds | backend/cmd/api-gateway/internal/websocket/ws_handler.go:144-157 | a connection becomes a client with an open, empty channel and nothing subscribed, waiting to be registered |
| HubBroadcasts.ReplyAndWrite | backend/cmd/api-gateway/internal/websocket/ws_handler.go:198-221 | an answer enters a channel with room at its end; the writer takes the oldest message |
| HubBroadcasts.ReaderAndWriterMove | backend/cmd/api-gateway/internal/websocket/ws_handler.go:165-195 | a failed connection makes its reader leave and then unregister; requests change the subscriptions |
| HubBroadcasts.StoppedForGood | backend/cmd/api-gateway/internal/websocket/ws_handler.go:99-105 | once Run has returned, no broadcast is taken up and the clients map stays as it was |
| HubBroadcasts.HubTakesOldest | backend/cmd/api-gateway/internal/websocket/ws_handler.go:105-128 | the hub takes the oldest entry of a channel and does to map and client what that entry asks |
| HubDelivery.LeftBehindIff | backend/cmd/api-gateway/internal/websocket/ws_handler.go:105-119 | a client whose connection is gone keeps an open channel with no unregister pending iff the hub took its unregister before its register |
| HubDelivery.LeftBehindForGood | backend/cmd/api-gateway/internal/websocket/ws_handler.go:105-119 | such a client is in the register channel or the clients map ever after |
| HubDelivery.LeftBehindHappens | backend/cmd/api-gateway/internal/websocket/ws_handler.go:156-157 | a run in which it happens |
| SlidingWindow.RateLimitTracker.Allow | backend/cmd/alert-service/internal/rules/engine.go:416-440 | prunes old tokens and admits iff fewer than maxCount remain |
| SlidingWindow.TokensAreHits | backend/cmd/alert-service/internal/rules/engine.go:424-430 | what a limiter remembers after pruning counts exactly the admitted calls of the whole run in the window |
| SlidingWindow.RefusedIffFull | backend/cmd/alert-service/internal/rules/engine.go:432-435 | a call is refused iff maxCount admitted calls already lie in (now - window, now] |
| SlidingWindow.WindowBound | backend/cmd/alert-service/internal/rules/engine.go:416-440 | no window (t - W, t] of any run holds more than maxCount admissions |
| SlidingWindow.SameKeyIffSameScope | backend/cmd/alert-service/internal/rules/engine.go:236-250 | two requests share a limiter iff their scopes are the same |
| SlidingWindow.SharesLimiterIff | backend/cmd/alert-service/internal/rules/engine.go:236-250 | two requests share a limiter iff both are global (or per device without a device), per device for one device, or of one rule under any other scope |
| SlidingWindow.KeysAreIndependent | backend/cmd/alert-service/internal/rules/engine.go:219-233 | a key's limiter is the one its first user created, fed only with that key's calls |
| SlidingWindow.AnswerOfKey | backend/cmd/alert-service/internal/rules/engine.go:219-233 | each answer is that of a fresh limiter with the first user's limits and only this key's calls |
| SlidingWindow.KeyWindowBound | backend/cmd/alert-service/internal/rules/engine.go:219-233 | whatever other keys and rules do, each key admits at most its first user's maxCount in every window, and a key nobody uses admits nothing in any |
| SlidingWindow.RateLimiters.CheckRateLimit | backend/cmd/alert-service/internal/rules/engine.go:219-233 | finds or creates the limiter of the scope, answers as it does, and changes no other key |
| TimeRange.ParseTimeAccepts | backend/cmd/alert-service/internal/rules/parser.go:290-297 | the validator accepts exactly HH:MM and H:MM spellings of a minute of the day |
| TimeRange.TextOrder | backend/cmd/alert-service/internal/rules/matcher.go:204-215 | string order of two accepted times, padded or not, in terms of their minutes |
| TimeRange.AtMostIsLexicographic | backend/cmd/alert-service/internal/rules/matcher.go:208-214 | the string order is lexicographic, for all texts |
| TimeRange.PaddedReads | backend/cmd/alert-service/internal/rules/matcher.go:204-205 | the formatted time reads back as the minute of the day |
| TimeRange.TextTestIsRightIff | backend/cmd/alert-service/internal/rules/matcher.go:204-215 | the string test equals the cyclic minute interval at every minute iff both times are zero-padded, or both are not and the range is one particular form of the whole day |
| Matcher.MatchTimeRange | backend/cmd/alert-service/internal/rules/matcher.go:177-215 | weekday and interval test in the range's zone, or in local time if the zone does not load |
| Matcher.MatchOneOf | backend/cmd/alert-service/internal/rules/matcher.go:129-146 | the value is listed; matchSeverity and matchAlertType are the same scan |
| Matcher.MatchDeviceTags | backend/cmd/alert-service/internal/rules/matcher.go:159-174 | every required tag is among the device's |
| Matcher.MatchDeviceID | backend/cmd/alert-service/internal/rules/matcher.go:149-156 | the id or the wildcard is listed |
| Matcher.MatchMetadata | backend/cmd/alert-service/internal/rules/matcher.go:234-264 | every required key is there with the required text, whatever the order of keys |
| Matcher.IsInSilencePeriod | backend/cmd/alert-service/internal/rules/matcher.go:267-274 | some range of the silence contains the time |
| Matcher.RuleMatcher.MatchMessage | backend/cmd/alert-service/internal/rules/matcher.go:218-231 | the answer is that of a fresh compilation, whatever the cache holds, and the cache stays faithful |
| Matcher.RuleMatcher.MatchConditions | backend/cmd/alert-service/internal/rules/matcher.go:43-126 | with any reachable cache, the early-exit recursion computes the cache-free meaning of the tree |
| Matcher.MatchNeedsFields | backend/cmd/alert-service/internal/rules/matcher.go:78-123 | a matching tree's listed severities, types, device ids or wildcard, tags, pattern, metadata of each kind and time range all fit the alert |
| Matcher.MatchNeedsParts | backend/cmd/alert-service/internal/rules/matcher.go:47-76 | a matching tree's all-of parts all match, some any-of part does if there are any, and no none-of part does |
| Matcher.FittingTreeMatches | backend/cmd/alert-service/internal/rules/matcher.go:43-126 | conversely, a tree whose parts and non-empty fields all fit the alert matches it |
| Matcher.SilencedIffInRange | backend/cmd/alert-service/internal/rules/matcher.go:31-36 | an enabled rule whose tree matches is held back iff an enabled silence has a range that contains the time |
| Matcher.RuleMatcher.Match | backend/cmd/alert-service/internal/rules/matcher.go:25-40 | enabled, not silenced, and the tree holds |
| Matcher.RuleMatcher.MatchMultiple | backend/cmd/alert-service/internal/rules/matcher.go:277-296 | exactly the matching rules as a multiset, in non-decreasing priority |
| Matcher.SortByPriority | backend/cmd/alert-service/internal/rules/matcher.go:287-293 | the exchange sort permutes and orders |
| Matcher.ShapeDecidesMeaning | backend/cmd/alert-service/internal/rules/matcher.go:47-76 | reordering or repeating sub-conditions at any depth does not change the meaning |
| Matcher.PermutedMeansSame | backend/cmd/alert-service/internal/rules/matcher.go:47-76 | in particular permuting the three lists does not |
| Matcher.FirstIsLeast | backend/cmd/alert-service/internal/rules/matcher.go:287-295 | the first returned rule has the least priority number of all matching rules |
| RuleParser.ValidIff | backend/cmd/alert-service/internal/rules/parser.go:169-197 | the validator accepts a tree iff every time range in it, at any depth, is well-formed |
| RuleParser.TimeRangeValidIff | backend/cmd/alert-service/internal/rules/parser.go:285-319 | a range is accepted iff both times spell a minute of the day, the zone is empty or known, and every weekday is known |
| RuleParser.ProblemIsReal | backend/cmd/alert-service/internal/rules/parser.go:169-197 | a reported path leads to a time range of the tree with that error |
| RuleParser.ProblemIsFirst | backend/cmd/alert-service/internal/rules/parser.go:169-197 | nothing the validator looks at before the reported range is faulty: parts before the own range, all-of before any-of before none-of, each in its order, again within the part |
| RuleParser.TimeRangeErrorTells | backend/cmd/alert-service/internal/rules/parser.go:285-319 | a rejected range has the fault its error names and none that is looked for before; a weekday reported is the first unknown one |
| RuleParser.WeekdaysKnown | backend/cmd/alert-service/internal/rules/parser.go:307-316 | the weekday check passes iff every entry is an English weekday name |
| RuleParser.MeaningIsIntended | backend/cmd/alert-service/internal/rules/parser.go:165-197 | on a validated tree with zero-padded times, matching is the tree read with cyclic minute intervals in each range's own zone |
| RuleParser.ValidRuleMeans | backend/cmd/alert-service/internal/rules/matcher.go:25-40 | a rule that passes validation, its times zero-padded, matches exactly when enabled, not silenced by minutes, and its tree holds by minutes |
| RuleParser.ValidateRuleSet | backend/cmd/alert-service/internal/rules/parser.go:62-92 | accepts exactly rule sets with a version, rules, non-empty distinct ids and only valid rules; an error names the first rule at fault |
| RuleParser.ValidateRule | backend/cmd/alert-service/internal/rules/parser.go:146-282 | the validators together accept exactly the valid rules |
| RuleParser.RuleValidIff | backend/cmd/alert-service/internal/rules/parser.go:146-282 | a rule is valid iff it has a name, a priority of at least 0, actions with a type, the setting that type cannot do without and sane retries, and well-formed ranges |
| RuleParser.InitializeDefaults | backend/cmd/alert-service/internal/rules/parser.go:95-141 | rewrites every rule of the set in place with its defaults, and nothing else |
| RuleParser.DefaultsFill | backend/cmd/alert-service/internal/rules/parser.go:95-141 | what loading leaves of each field: enabled, priority 100 for 0, three retries five seconds apart and doubling, scope per rule, all else as written |
| RuleParser.DefaultsSettle | backend/cmd/alert-service/internal/rules/parser.go:95-141 | filling in defaults twice changes nothing more and keeps a valid rule valid |
| RuleParser.DisabledRulesLoadEnabled | backend/cmd/alert-service/internal/rules/parser.go:102-104 | a rule written as disabled matches, once loaded, exactly as if written enabled |
| RuleParser.LoadedSetMatches | backend/cmd/alert-service/internal/rules/parser.go:95-141 | for a whole rule set and any alert, what matches once it is loaded is what would match, in the same order, had every rule been written enabled |
| RuleParser.PriorityOrderKeptIff | backend/cmd/alert-service/internal/rules/parser.go:107-109 | loading keeps the order of two valid rules iff not the first is written with 0 and the other with 1 to 100 |
| Engine.RuleEngine.Process | backend/cmd/alert-service/internal/rules/engine.go:122-171 | matched rules in priority order ask their limiters, the first let through and escalating starts the timer, then the timer is looked at; the whole new state of limiters and timers |
| Engine.RuleEngine.ExecuteRule | backend/cmd/alert-service/internal/rules/engine.go:174-216 | asks the limiter if the rule has one, and starts a timer iff let through, escalating and there is none |
| Engine.RuleEngine.SetEscalationState | backend/cmd/alert-service/internal/rules/engine.go:253-267 | starts a timer only when the alert has none |
| Engine.RuleEngine.ProcessEscalations | backend/cmd/alert-service/internal/rules/engine.go:270-346 | drops, keeps or advances the alert's timer and no other |
| Engine.EscalationTiming | backend/cmd/alert-service/internal/rules/engine.go:305-345 | the repeat count is the number of escalations in the episode; the k-th is no earlier than the wait and than k repeat intervals after the start; a positive MaxRepeat bounds them when the interval is positive |
| Engine.EscalatesIff | backend/cmd/alert-service/internal/rules/engine.go:305-345 | over runs, a matched call for an active alert with a timer escalates iff its rule escalates, the wait is over and, with a positive interval, that has passed since the last escalation and fewer than a positive MaxRepeat have happened |
| Engine.CallEscalatesIff | backend/cmd/alert-service/internal/rules/engine.go:305-345 | the same for one call, also for a timer started in it, with the whole new timer |
| Engine.FindRuleIsFirst | backend/cmd/alert-service/internal/rules/engine.go:288-296 | a timer's rule is the first with its id; there is none iff no rule has it |
| Engine.OrphanNeverEscalates | backend/cmd/alert-service/internal/rules/engine.go:298-300 | a timer whose rule is gone stays as it is |
| Engine.TimerOwner | backend/cmd/alert-service/internal/rules/engine.go:257-266 | a matched, active alert without a timer gets one iff a rule offers it, and a timer keeps its rule and its start |
| Engine.OthersKeepTimers | backend/cmd/alert-service/internal/rules/engine.go:270-277 | a call touches no timer but its alert's, and none when no rule matches |
| Engine.MaxRepeatHoldsIff | backend/cmd/alert-service/internal/rules/engine.go:310-320 | over all runs MaxRepeat bounds an episode iff RepeatInterval is positive |
| Engine.EndedClearsIff | backend/cmd/alert-service/internal/rules/engine.go:145-150 | one call for an acknowledged or resolved alert leaves no timer iff some rule matches it or it had none |
| Engine.EndedKeepsTimerIff | backend/cmd/alert-service/internal/rules/engine.go:145-150 | through any run of calls that find an alert acknowledged or resolved, it has a timer iff it had one and no rule has matched it since, and the timer is unchanged |
| Engine.LimitersAreChecks | backend/cmd/alert-service/internal/rules/engine.go:158-165 | over any run of Process calls the limiter table is the one their requests make in order |
| Engine.RequestOrigin | backend/cmd/alert-service/internal/rules/engine.go:219-232 | each request is made for a matched rule with a limit, with that rule's numbers and scope |
| Engine.OffersIff | backend/cmd/alert-service/internal/rules/engine.go:174-213 | a matched rule would start a timer iff escalation is enabled for it and its request, if it has a limit, is accepted |
| Engine.CallSays | backend/cmd/alert-service/internal/rules/engine.go:122-168 | what the timers see of a Process call: the alert, whether it is acknowledged or resolved, whether any rule matched, and readings taken for a matched rule |
| Engine.PassesIffAccepted | backend/cmd/alert-service/internal/rules/engine.go:175-184 | a matched rule passes iff its request is accepted in the run of all requests so far |
| Engine.EngineWindowBound | backend/cmd/alert-service/internal/rules/engine.go:158-184 | over any run of Process calls each scope admits, in every window of the rule that used it first, at most that rule's maximum |
| Engine.OwnerHasLeastPriority | backend/cmd/alert-service/internal/rules/engine.go:158-165 | a fresh timer belongs to a rule of least priority number among the matched, escalating rules let through by their limiters, and there is one iff there is such a rule |
| Deduplication.Manager.ShouldCreateAlert | backend/cmd/alert-service/internal/deduplication/manager.go:105-159 | create without a live record or after the window, else update with the escalation decision |
| Deduplication.Manager.RecordAlert | backend/cmd/alert-service/internal/deduplication/manager.go:162-215 | a fresh record, or the live one with one more occurrence, expiring after twice the window; nothing when it is gone |
| Deduplication.Manager.MarkEscalated | backend/cmd/alert-service/internal/deduplication/manager.go:218-244 | marks a live record and renews its expiry without touching the last occurrence |
| Deduplication.Manager.GetOccurrenceCount | backend/cmd/alert-service/internal/deduplication/manager.go:287-304 | the live record's count, 0 without one |
| AlertGenerator.GenerateEffect | backend/cmd/alert-service/internal/generator/alert_generator.go:41-93 | for a call under which no record expires: nothing, a new row and record, or exactly one more occurrence on the record's row |
| AlertGenerator.AlwaysInv | backend/cmd/alert-service/internal/generator/alert_generator.go:166-182 | in every run of such calls each record belongs to a row of its key with the same count |
| AlertGenerator.PromptRunsAreUsual | backend/cmd/alert-service/internal/deduplication/manager.go:196-198 | runs of calls shorter than DedupeWindow are such runs |
| AlertGenerator.ExpiryIsTransparent | backend/cmd/alert-service/internal/deduplication/manager.go:119-158 | in every such run each decision is the one a store without expiry would give, also after MarkEscalated renewed the expiry |
| AlertGenerator.TransparentIff | backend/cmd/alert-service/internal/deduplication/manager.go:119-244 | a timed run agrees with the store without expiry, after every operation and in all but expiry times, iff no record expires under a call |
| AlertGenerator.SlowCallDiverges | backend/cmd/alert-service/internal/deduplication/manager.go:168-206 | for a call of any duration: the expiring store ends in the reference state iff the record outlives the recording and the mark |
| AlertGenerator.CreatesIff | backend/cmd/alert-service/internal/deduplication/manager.go:133-137 | a handled issue creates iff no issue of its key was handled since the last resolve or the last one is more than DedupeWindow back; else it updates that issue's row |
| AlertGenerator.SilencedIff | backend/cmd/alert-service/internal/deduplication/manager.go:259-284 | an issue is swallowed iff less than SilentPeriod has passed since its key's last resolve; a zero SilentPeriod silences for good |
| AlertGenerator.OccurrencesConserved | backend/cmd/alert-service/internal/generator/alert_generator.go:166-182 | the occurrence counts over all rows of a key add up to its issues not swallowed |
| AlertRows.IssueChangesRows | backend/cmd/alert-service/internal/generator/alert_generator.go:41-215 | over runs, a swallowed issue changes no row, a created alert is one more active row seen once with the issue's severity, an updated one is seen once more, and an escalation stores the issue's severity raised by one rank |
| AlertRows.ResolveCloses | backend/internal/repository/alert_repo.go:282-292 | after a resolve no row of its key is active, and every other row is as it was |
| AlertRows.ActiveIff | backend/cmd/alert-service/internal/generator/alert_generator.go:219-246 | over any run a row is active iff it was created, or set active by an operator, and since then neither its key was resolved nor an operator gave it another status |
| AlertRows.RecordKeepsLast | backend/cmd/alert-service/internal/deduplication/manager.go:168-206 | a handled issue leaves the record with its severity and time, the first time kept, for twice the window, and touches no other record |
| AlertSeverity.EscalatedAtMostOnce | backend/cmd/alert-service/internal/generator/alert_generator.go:190-206 | an alert is escalated at most once, by an update that leaves its count above the threshold |
| AlertSeverity.UpdateEscalatesIff | backend/cmd/alert-service/internal/deduplication/manager.go:153-156 | an update escalates iff its alert has not been escalated before, the issue is not critical and the alert's count has reached the threshold |
| AlertSeverity.NeverFallsIffNarrow | backend/cmd/alert-service/internal/generator/alert_generator.go:190-193 | stored severities never fall, whatever the run, iff no two severities a key can carry are more than one rank apart |
| AlertService.CheckOfflineDevices | backend/cmd/alert-service/internal/checker/threshold_checker.go:58-101 | one issue per device offline for over 5 minutes, in order, critical iff over 30 |
| AlertService.CheckHighLatency | backend/cmd/alert-service/internal/checker/threshold_checker.go:104-141 | one issue per session over 500 ms, in order, high iff over 1000 |
| AlertService.CheckAll | backend/cmd/alert-service/internal/checker/threshold_checker.go:43-55 | the offline issues, then the latency issues; every issue has a severity from its alert type's two |
| AlertService.ReportedIffOffline | backend/cmd/alert-service/internal/checker/threshold_checker.go:73-81 | a device is reported, critical iff after thirty minutes, iff it was seen more than five minutes ago |
| AlertService.ReportedIffSlow | backend/cmd/alert-service/internal/checker/threshold_checker.go:116-121 | a session is reported, high iff above 1000 ms, iff its latency is known and above 500 |
| AlertService.SameAlertIff | backend/cmd/alert-service/internal/generator/alert_generator.go:49-58 | two issues go to one alert key iff of one device and of one type, other types than offline and latency counting as one |
| AlertService.SeverityRead | backend/cmd/alert-service/internal/generator/alert_generator.go:277-290 | a severity is read as its name, any other text as medium |
| AlertService.CheckerNeverLowers | backend/cmd/alert-service/internal/checker/threshold_checker.go:78-121 | with the checker as the only source of issues no stored severity ever falls |
| AlertService.QuietAfterResolve | backend/cmd/alert-service/internal/deduplication/manager.go:271-284 | for SilentPeriod after any resolve of a key no issue of it creates or updates an alert |
| AlertService.Generator.GenerateAlert | backend/cmd/alert-service/internal/generator/alert_generator.go:41-93 | the whole new state of store and rows, and the alert, nil or error returned |
| AlertService.Generator.UpdateExistingAlert | backend/cmd/alert-service/internal/generator/alert_generator.go:157-215 | row count, record and escalation of one more occurrence |
| AlertService.Generator.CreateNewAlert | backend/cmd/alert-service/internal/generator/alert_generator.go:96-154 | appends a row with count 1 and a fresh record for it |
| AlertService.Generator.ResolveDeviceAlerts | backend/cmd/alert-service/internal/generator/alert_generator.go:219-246 | closes the key's active rows, forgets its record, starts the silent period |
| FixedWindow.RateLimiter.Allow | backend/cmd/alert-service/internal/scheduler/notification_scheduler.go:292-312 | refills when an interval has passed and admits iff a token is left |
| FixedWindow.TokensInRange | backend/cmd/alert-service/internal/scheduler/notification_scheduler.go:292-312 | tokens stay in 0..max and the last refill is never in the future |
| FixedWindow.WindowBound | backend/cmd/alert-service/internal/scheduler/notification_scheduler.go:298-312 | any half-open window of k intervals holds at most (k + 1) x max admissions |
| FixedWindow.BoundSinceCreation | backend/cmd/alert-service/internal/scheduler/notification_scheduler.go:282-312 | the first T after creation hold at most (1 + floor(T / I)) x max |
| FixedWindow.BoundIsReached | backend/cmd/alert-service/internal/scheduler/notification_scheduler.go:298-312 | the window bound is exact: for every positive k and maximum and every interval of at least two ticks, some run admits (k + 1) x max inside k intervals |
| FixedWindow.MaxPerIntervalIff | backend/cmd/alert-service/internal/scheduler/notification_scheduler.go:298-312 | for a positive interval and k > 0: every window of k intervals of every run holds at most k x max iff max is 0 or the interval is one tick |
| FixedWindow.NoIntervalNoLimit | backend/cmd/alert-service/internal/scheduler/notification_scheduler.go:298-301 | with an interval of zero or less no call of any run is refused |
| RedisCounter.RedisClient.IncrementRateLimit | backend/internal/cache/redis.go:228-246 | counts the hit, renews the expiry, and fails iff the count exceeds the limit |
| RedisCounter.RedisClient.GetRateLimitCount | backend/internal/cache/redis.go:249-259 | reads the live count, 0 without one, and changes nothing |
| RedisCounter.CountIsBurstPosition | backend/internal/cache/redis.go:228-246 | a returned count is the call's position in its identifier's chain of calls with gaps below the TTL |
| RedisCounter.AdmittedIff | backend/internal/cache/redis.go:240-243 | a call is admitted iff it is among the first `limit` of its identifier's chain |
| RedisCounter.ReadsLastPosition | backend/internal/cache/redis.go:249-259 | what is read back is the last call's position in its chain, or 0 when that call is a TTL ago or there is none |
| RedisCounter.WindowBound | backend/internal/cache/redis.go:228-246 | any half-open window of length TTL holds at most `limit` admissions for an identifier |
| RedisCounter.RecoveryNeedsPause | backend/internal/cache/redis.go:231-243 | between a refusal and a later admission two consecutive calls lie at least TTL apart |
| EmailQueue.EachTaskOnce | backend/cmd/alert-service/internal/notifier/email_notifier.go:247-302 | over every interleaving each accepted task is in exactly one place: queue, one worker's hand, sent, exhausted or dropped |
| EmailQueue.TotalsBalance | backend/cmd/alert-service/internal/notifier/email_notifier.go:324-369 | accepted = queued + in hand + sent + exhausted + dropped; TotalSent is the sent tasks; TotalFailed = TotalRetried + exhausted + failures still being handled |
| EmailQueue.AttemptsBounded | backend/cmd/alert-service/internal/notifier/email_notifier.go:345-346 | no task is tried more than MaxRetries + 1 times |
| EmailQueue.ProviderCallsBounded | backend/cmd/alert-service/internal/notifier/email_notifier.go:305-312 | provider calls are at most accepted x (MaxRetries + 1) |
| EmailQueue.ProviderCallsRateLimited | backend/cmd/alert-service/internal/notifier/email_notifier.go:102-126 | between any two moments of a run, provider calls are at most the positive part of maxTokens times one more than the refills in between |
| EmailOutcomes.AcceptedIff | backend/cmd/alert-service/internal/notifier/email_notifier.go:247-258 | a task is accepted iff the queue has room or a worker waits at an empty queue; a refused one changes nothing |
| EmailOutcomes.SentCause | backend/cmd/alert-service/internal/notifier/email_notifier.go:290-297 | over every interleaving a task counts as sent only after the provider accepted it |
| EmailOutcomes.DroppedCause | backend/cmd/alert-service/internal/notifier/email_notifier.go:281-286 | a task is dropped only when the queue was full at its re-queue |
| EmailOutcomes.LimitedCause | backend/cmd/alert-service/internal/notifier/email_notifier.go:273-280 | a task is held back by the limiter only when the bucket was empty |
| EmailOutcomes.AskingCallsIff | backend/cmd/alert-service/internal/notifier/email_notifier.go:117-126 | a worker that asks calls the provider, for one token, iff there is one |
| EmailOutcomes.RetriedIff | backend/cmd/alert-service/internal/notifier/email_notifier.go:345-353 | a failed attempt is retried iff the task has retries left |
| EmailOutcomes.ReturnedIff | backend/cmd/alert-service/internal/notifier/email_notifier.go:361-367 | a task that comes back goes to the end of the queue iff there is room |
| EmailOutcomes.AnswerCounts | backend/cmd/alert-service/internal/notifier/email_notifier.go:324-343 | the provider's answer decides whether an attempt counts as sent or as failed |
| EmailOutcomes.TakesOldest | backend/cmd/alert-service/internal/notifier/email_notifier.go:272 | a waiting worker takes the task that has been queued longest |
| EmailOutcomes.TickFills | backend/cmd/alert-service/internal/notifier/email_notifier.go:102-114 | the ticker fills the bucket and does nothing else |
| NatCache.NATCoordinator.ProbeNATType | backend/internal/service/nat_coordinator.go:48-93 | a live cache entry answers and changes nothing; otherwise the cache gets the probe result, and the stored row does unless the repository fails |
| NatCache.NATCoordinator.GetNATResult | backend/internal/service/nat_coordinator.go:204-232 | a live cache entry, else the row, which is then cached |
| NatCache.NATCoordinator.UpdatePublicEndpoint | backend/internal/service/nat_coordinator.go:235-259 | writes the row and drops the cache entry, or fails and changes nothing |
| NatCache.NATCoordinator.CleanupExpiredSessions | backend/internal/service/nat_coordinator.go:269-281 | drops exactly the expired entries |
| NatCache.AlwaysCoherent | backend/internal/service/nat_coordinator.go:48-93 | over any run in which the repository works every cached entry of a stored device agrees with its row |
| NatCache.LookupReadsThrough | backend/internal/service/nat_coordinator.go:204-232 | over any such run a lookup answers what a database read would |
| NatCache.RowIs | backend/internal/service/nat_coordinator.go:80-93 | over any run a row's endpoint is the one of the last call that wrote it, empty after a recorded probe, initial before any; its NAT type is unknown once a probe was recorded |
| NatCache.LookupAnswersLastWrite | backend/internal/service/nat_coordinator.go:204-259 | with a repository that works, a lookup answers the endpoint last written |
| NatCache.AnswersTell | backend/internal/service/nat_coordinator.go:48-259 | an endpoint update answers done iff it is written and else changes nothing; a probe or lookup hands out what the cache holds afterwards, or says what failed; what a lookup caches lives five minutes from the update of its row |
| NatCache.CleanupRemoves | backend/internal/service/nat_coordinator.go:269-281 | a cleanup removes exactly the entries older than their time to live |
| NatCache.LookupStaleIff | backend/internal/service/nat_coordinator.go:48-93 | over any run, whatever repository calls fail, a lookup answers something else than the row iff less than five minutes before it a probe of the device was not recorded on a row that said something else, and the endpoint has not been updated since |
| NatCache.CleanupChangesNoAnswer | backend/internal/service/nat_coordinator.go:269-281 | every answer is that of the same run without its cleanups, whatever repository calls fail |
| NatCache.ProbeNotSavedCoherence | backend/internal/service/nat_coordinator.go:66-85 | after one probe whose repository call fails coherence holds iff nothing was cached, the device is not stored, or the row already held the result |

## Left out

- HTTP handlers, middleware, routers, dependency wiring, GORM and SQL: a repository is a map or a list of rows. Its calls may fail in the NAT coordinator and succeed elsewhere.
- SMTP, Slack, PagerDuty and other providers, message templates and payloads: a provider call succeeds or fails; nothing else depends on it.
- GetPeerConfigurations, GenerateWireGuardConfig, RefreshVirtualNetworkTopology and DeviceService.allocateVirtualIP: string assembly or constants.
- IP address texts: `net.IP.String` is any injective text of addresses of one length; the folding of IPv4-mapped IPv6 addresses in `net.IP.Equal` and `Contains` is not modelled.
- Locks of single operations: each method is atomic. Lock contention in ShouldCreateAlert, which returns no alert id, is not modelled.
- Alert keys are compared as pairs, not as truncated SHA-256 texts, so hash collisions are not modelled.
- Device ids are compared as texts: GenerateAlert keys a record by the id as written, ResolveDeviceAlerts by its canonical form, and the two agree only for canonical ids.
- Redis expiry happens exactly at its time; a key with expiry e is gone from e on.
- Negative windows and periods of the deduplication configuration.
- Columns the properties do not read: titles, messages, first and last seen times and other timestamps of alert rows, rules and statistics.
- Regular expressions, the time zone database and float formatting are arbitrary functions of their inputs; floats are reals.
- YAML parsing, hot reload (the run properties of timers are for a fixed rule set) and error texts.
- The hub and the e-mail workers are steps over one state value, so that interleavings can be stated: goroutine stacks, channel objects and the handlers' code between two steps are not modelled as objects.
- MatchMultiple's order among equal priorities: the exchange sort does not keep it, and nothing is claimed about it.
- UUIDs of clients and alerts are never repeated: clients and rows are numbered.
- WebSocket framing, ping times, and what happens after Run returns; blocked sends may stay blocked, and liveness of hub, queues and Stop is not stated.
- EmailNotifier.Stop, QueueLength and the last-error statistics.
- CoordinateHolePunching and TURN allocation, which are placeholders; one clock reading per coordinator call.
- backend/cmd/alert-service/internal/integrations/manager.go and the Redis sorted-set limiter of the gateway: a copy of the matcher's sort, and scores that collapse at equal times.
- Cryptography, JWT, key storage, the front end, the desktop client and deployment files.
