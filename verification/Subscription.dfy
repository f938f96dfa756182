/** Per-client subscription filters, stored in a map under a textual key. */
module Subscription {
  import opened Wrappers

  datatype Filter = Filter(eventType: string, deviceID: Option<string>, orgID: Option<string>)

  /** An event matches a filter when every part the filter names agrees. */
  predicate Accepts(f: Filter, eventType: string, deviceID: Option<string>, orgID: Option<string>) {
    && f.eventType == eventType
    && (f.deviceID.Some? ==> deviceID == f.deviceID)
    && (f.orgID.Some? ==> orgID == f.orgID)
  }

  /** Some stored filter accepts the event. */
  ghost predicate SomeAccepts(
    subs: map<string, Filter>, eventType: string, deviceID: Option<string>, orgID: Option<string>)
  {
    exists k :: k in subs && Accepts(subs[k], eventType, deviceID, orgID)
  }

  function DevicePart(f: Filter): string {
    if f.deviceID.Some? then ":device:" + f.deviceID.value else ""
  }

  function OrgPart(f: Filter): string {
    if f.orgID.Some? then ":org:" + f.orgID.value else ""
  }

  function MakeKey(f: Filter): string {
    f.eventType + DevicePart(f) + OrgPart(f)
  }

  /** Event type and device id without a colon; the organisation id may be any text. */
  predicate ColonFree(f: Filter) {
    ':' !in f.eventType && (f.deviceID.Some? ==> ':' !in f.deviceID.value)
  }

  // ---------------------------------------------------------------- keys

  predicate StartsAtColon(s: string) {
    s == "" || s[0] == ':'
  }

  /** Position of the first colon, the length of the text if there is none. */
  function FirstColon(s: string): nat {
    if s == "" || s[0] == ':' then 0 else 1 + FirstColon(s[1..])
  }

  lemma {:induction false} FirstColonOf(a: string, x: string)
    requires ':' !in a && StartsAtColon(x)
    ensures FirstColon(a + x) == |a|
  {
    if a == "" {
      assert a + x == x;
    } else {
      FirstColonOf(a[1..], x);
      assert (a + x)[1..] == a[1..] + x;
    }
  }

  /** Colon-free text followed by nothing or a colon splits in one way only. */
  lemma SplitUnique(a: string, x: string, b: string, y: string)
    requires ':' !in a && ':' !in b && StartsAtColon(x) && StartsAtColon(y)
    requires a + x == b + y
    ensures a == b && x == y
  {
    FirstColonOf(a, x);
    FirstColonOf(b, y);
    assert a == (a + x)[..|a|] == b;
    assert x == (a + x)[|a|..] == y;
  }

  /** The letter after the colon tells which parts a key has. */
  function Tag(s: string): char {
    if |s| < 2 then ' ' else s[1]
  }

  lemma TagOf(f: Filter)
    ensures Tag(DevicePart(f) + OrgPart(f))
         == if f.deviceID.Some? then 'd' else if f.orgID.Some? then 'o' else ' '
  {
  }

  lemma OrgPartInjective(f: Filter, g: Filter)
    requires OrgPart(f) == OrgPart(g)
    ensures f.orgID == g.orgID
  {
    if f.orgID.Some? && g.orgID.Some? {
      assert f.orgID.value == OrgPart(f)[5..];
      assert g.orgID.value == OrgPart(g)[5..];
    }
  }

  /** What follows the event type in a key. */
  function Rest(f: Filter): string {
    DevicePart(f) + OrgPart(f)
  }

  lemma RestOfDevice(f: Filter)
    requires f.deviceID.Some?
    ensures |Rest(f)| >= 8 && Rest(f)[8..] == f.deviceID.value + OrgPart(f)
  {
    assert Rest(f) == ":device:" + (f.deviceID.value + OrgPart(f));
  }

  /** With colon-free event types, equal keys have equal event types and equal rests. */
  lemma SameTypeAndRest(f: Filter, g: Filter)
    requires ':' !in f.eventType && ':' !in g.eventType
    ensures MakeKey(f) == MakeKey(g) <==> f.eventType == g.eventType && Rest(f) == Rest(g)
  {
    assert MakeKey(f) == f.eventType + Rest(f) && MakeKey(g) == g.eventType + Rest(g);
    if MakeKey(f) == MakeKey(g) {
      SplitUnique(f.eventType, Rest(f), g.eventType, Rest(g));
    }
  }

  /** Equal rests name the same parts, up to where the device id ends. */
  lemma SameRest(f: Filter, g: Filter)
    requires Rest(f) == Rest(g)
    ensures f.deviceID.Some? == g.deviceID.Some?
    ensures f.deviceID.Some? ==> f.deviceID.value + OrgPart(f) == g.deviceID.value + OrgPart(g)
    ensures f.deviceID.None? ==> f.orgID == g.orgID
  {
    TagOf(f);
    TagOf(g);
    if f.deviceID.Some? && g.deviceID.Some? {
      RestOfDevice(f);
      RestOfDevice(g);
    } else if f.deviceID.None? && g.deviceID.None? {
      assert Rest(f) == OrgPart(f) && Rest(g) == OrgPart(g);
      OrgPartInjective(f, g);
    }
  }

  /** Colon-free filters never share a key. */
  lemma MakeKeyInjective(f: Filter, g: Filter)
    requires ColonFree(f) && ColonFree(g) && MakeKey(f) == MakeKey(g)
    ensures f == g
  {
    SameTypeAndRest(f, g);
    hide MakeKey;
    SameRest(f, g);
    hide Rest, DevicePart;
    if f.deviceID.Some? {
      SplitUnique(f.deviceID.value, OrgPart(f), g.deviceID.value, OrgPart(g));
      OrgPartInjective(f, g);
    }
  }

  /** The text has `part` somewhere in it. */
  ghost predicate Contains(s: string, part: string) {
    exists a, b :: Joined(a, part, b) == s
  }

  function Joined(a: string, part: string, b: string): string {
    a + part + b
  }

  lemma KeyEnd(f: Filter)
    requires f.deviceID.Some?
    ensures f.deviceID.value + OrgPart(f)
         == if f.orgID.Some? then Joined(f.deviceID.value, ":org:", f.orgID.value) else f.deviceID.value
  {
  }

  /** Filters of the same key whose device ids end in different places. */
  lemma DeviceIDTakesOrg(f: Filter, g: Filter)
    requires f.deviceID.Some? && g.deviceID.Some? && f.orgID.None? && f != g
    requires f.eventType == g.eventType && f.deviceID.value + OrgPart(f) == g.deviceID.value + OrgPart(g)
    ensures Contains(f.deviceID.value, ":org:")
  {
    KeyEnd(f);
    KeyEnd(g);
    hide OrgPart;
  }

  /** Which filters share their key with another one, event types being colon-free as the server's
      own are: those with a device id and an organisation, and those whose device id has ":org:" in it. */
  lemma KeySharedIff(f: Filter)
    requires ':' !in f.eventType
    ensures (exists g: Filter :: ':' !in g.eventType && g != f && MakeKey(g) == MakeKey(f))
       <==> f.deviceID.Some? && (f.orgID.Some? || Contains(f.deviceID.value, ":org:"))
  {
    if g: Filter :| ':' !in g.eventType && g != f && MakeKey(g) == MakeKey(f) {
      SameTypeAndRest(f, g);
      SameRest(f, g);
      hide MakeKey, Rest, DevicePart, OrgPart, Contains;
      if f.deviceID.Some? && f.orgID.None? {
        DeviceIDTakesOrg(f, g);
      }
    }
    if f.deviceID.Some? && (f.orgID.Some? || Contains(f.deviceID.value, ":org:")) {
      var g := OtherReading(f);
    }
  }

  lemma OtherReading(f: Filter) returns (g: Filter)
    requires f.deviceID.Some? && (f.orgID.Some? || Contains(f.deviceID.value, ":org:"))
    ensures g.eventType == f.eventType && g != f && MakeKey(g) == MakeKey(f)
  {
    var d := f.deviceID.value;
    if f.orgID.Some? {
      g := Filter(f.eventType, Some(d + OrgPart(f)), None);
      assert DevicePart(g) + OrgPart(g) == DevicePart(f) + OrgPart(f);
    } else {
      var a, b :| Joined(a, ":org:", b) == d;
      g := Filter(f.eventType, Some(a), Some(b));
      assert DevicePart(g) + OrgPart(g) == DevicePart(f) + OrgPart(f);
    }
    assert MakeKey(g) == g.eventType + (DevicePart(g) + OrgPart(g));
    assert MakeKey(f) == f.eventType + (DevicePart(f) + OrgPart(f));
  }

  /** Event types come from clients too. Over all filters, exactly the ones that are a bare event
      type without ":device:" or ":org:" in it have a key of their own. */
  lemma KeySharedByAnyIff(f: Filter)
    ensures (exists g :: g != f && MakeKey(g) == MakeKey(f))
       <==> f.deviceID.Some? || f.orgID.Some? || Contains(f.eventType, ":device:") || Contains(f.eventType, ":org:")
  {
    if f.deviceID.Some? || f.orgID.Some? {
      var g := Filter(MakeKey(f), None, None);
      assert g != f && MakeKey(g) == MakeKey(f) by {
        assert MakeKey(g) == g.eventType + "" + "";
      }
    } else {
      assert MakeKey(f) == f.eventType + "" + "" == f.eventType;
      if Contains(f.eventType, ":device:") {
        var a, b :| Joined(a, ":device:", b) == f.eventType;
        SplitReading(a, b);
        var g := Filter(a, Some(b), None);
        assert g != f && MakeKey(g) == MakeKey(f);
      } else if Contains(f.eventType, ":org:") {
        var a, b :| Joined(a, ":org:", b) == f.eventType;
        SplitReading(a, b);
        var g := Filter(a, None, Some(b));
        assert g != f && MakeKey(g) == MakeKey(f);
      } else if g :| g != f && MakeKey(g) == MakeKey(f) {
        KeyReads(g);
      }
    }
    hide MakeKey, Contains;
  }

  lemma SplitReading(a: string, b: string)
    ensures MakeKey(Filter(a, Some(b), None)) == Joined(a, ":device:", b)
    ensures MakeKey(Filter(a, None, Some(b))) == Joined(a, ":org:", b)
  {
    assert a + (":device:" + b) + "" == a + ":device:" + b;
    assert a + "" + (":org:" + b) == a + ":org:" + b;
  }

  /** A key is a bare event type, or has a part in it. */
  lemma KeyReads(g: Filter)
    ensures g.deviceID.Some? ==> Contains(MakeKey(g), ":device:")
    ensures g.orgID.Some? ==> Contains(MakeKey(g), ":org:")
    ensures g.deviceID.None? && g.orgID.None? ==> MakeKey(g) == g.eventType
  {
    if g.deviceID.Some? {
      assert MakeKey(g) == Joined(g.eventType, ":device:", g.deviceID.value + OrgPart(g));
    }
    if g.orgID.Some? {
      assert MakeKey(g) == Joined(g.eventType + DevicePart(g), ":org:", g.orgID.value);
    }
  }

  // ---------------------------------------------------------------- runs

  datatype Op = Subscribe(filter: Filter) | Unsubscribe(filter: Filter)

  function Apply(subs: map<string, Filter>, op: Op): map<string, Filter> {
    match op
    case Subscribe(f) => subs[MakeKey(f) := f]
    case Unsubscribe(f) => subs - {MakeKey(f)}
  }

  function ApplyAll(subs: map<string, Filter>, ops: seq<Op>): map<string, Filter> {
    if ops == [] then subs else Apply(ApplyAll(subs, ops[..|ops| - 1]), ops[|ops| - 1])
  }

  /** The meaning of a run: the last operation on this very filter was a Subscribe. */
  ghost predicate Subscribed(ops: seq<Op>, f: Filter) {
    exists i :: 0 <= i < |ops| && ops[i] == Subscribe(f)
                && forall j :: i < j < |ops| ==> ops[j] != Unsubscribe(f)
  }

  predicate WellKeyed(subs: map<string, Filter>) {
    forall k :: k in subs ==> MakeKey(subs[k]) == k
  }

  lemma {:induction false} RunsKeepKeys(subs: map<string, Filter>, ops: seq<Op>)
    requires WellKeyed(subs)
    ensures WellKeyed(ApplyAll(subs, ops))
  {
    if ops != [] {
      RunsKeepKeys(subs, ops[..|ops| - 1]);
    }
  }

  lemma SubscribedStep(ops: seq<Op>, f: Filter)
    requires ops != []
    ensures var last := ops[|ops| - 1];
            Subscribed(ops, f)
            <==> last == Subscribe(f) || (last != Unsubscribe(f) && Subscribed(ops[..|ops| - 1], f))
  {
    var n := |ops| - 1;
    if ops[n] != Subscribe(f) && Subscribed(ops, f) {
      var i :| 0 <= i < |ops| && ops[i] == Subscribe(f) && forall j :: i < j < |ops| ==> ops[j] != Unsubscribe(f);
      assert ops[..n][i] == Subscribe(f);
    }
    if ops[n] != Unsubscribe(f) && Subscribed(ops[..n], f) {
      var i :| 0 <= i < n && ops[..n][i] == Subscribe(f) && forall j :: i < j < n ==> ops[..n][j] != Unsubscribe(f);
      assert ops[i] == Subscribe(f);
      assert forall j :: i < j < n ==> ops[j] == ops[..n][j];
    }
  }

  /** No other filter of the run shares the key of f. */
  ghost predicate KeyIsOwn(ops: seq<Op>, f: Filter) {
    forall i :: 0 <= i < |ops| && MakeKey(ops[i].filter) == MakeKey(f) ==> ops[i].filter == f
  }

  /** A filter is stored, under its own key, exactly when its last operation was Subscribe. */
  lemma {:induction false} StoredIffSubscribed(ops: seq<Op>, f: Filter)
    requires KeyIsOwn(ops, f)
    ensures var subs := ApplyAll(map[], ops);
            (MakeKey(f) in subs && subs[MakeKey(f)] == f) <==> Subscribed(ops, f)
    ensures MakeKey(f) in ApplyAll(map[], ops) ==> ApplyAll(map[], ops)[MakeKey(f)] == f
  {
    if ops != [] {
      var n := |ops| - 1;
      assert forall i :: 0 <= i < n ==> ops[..n][i] == ops[i];
      StoredIffSubscribed(ops[..n], f);
      SubscribedStep(ops, f);
      hide MakeKey, Subscribed;
    }
  }

  /** Every stored filter was put there by the run. */
  lemma {:induction false} StoredComesFromRun(ops: seq<Op>, k: string)
    requires k in ApplyAll(map[], ops)
    ensures exists i :: 0 <= i < |ops| && ops[i] == Subscribe(ApplyAll(map[], ops)[k])
  {
    var n := |ops| - 1;
    var f := ApplyAll(map[], ops)[k];
    if ops[n] != Subscribe(f) {
      StoredComesFromRun(ops[..n], k);
      var i :| 0 <= i < n && ops[..n][i] == Subscribe(f);
      assert ops[i] == Subscribe(f);
    }
  }

  /** No two filters of the run share a key. */
  ghost predicate KeysAreOwn(ops: seq<Op>) {
    forall i :: 0 <= i < |ops| ==> KeyIsOwn(ops, ops[i].filter)
  }

  lemma ColonFreeKeysAreOwn(ops: seq<Op>)
    requires forall i :: 0 <= i < |ops| ==> ColonFree(ops[i].filter)
    ensures KeysAreOwn(ops)
  {
    forall i, j | 0 <= i < |ops| && 0 <= j < |ops| && MakeKey(ops[j].filter) == MakeKey(ops[i].filter)
      ensures ops[j].filter == ops[i].filter
    {
      MakeKeyInjective(ops[j].filter, ops[i].filter);
    }
  }

  /** An event is delivered iff some subscribed filter accepts it. */
  lemma MatchesIffSubscribed(ops: seq<Op>, eventType: string, deviceID: Option<string>, orgID: Option<string>)
    requires KeysAreOwn(ops)
    ensures SomeAccepts(ApplyAll(map[], ops), eventType, deviceID, orgID)
       <==> (exists f :: Subscribed(ops, f) && Accepts(f, eventType, deviceID, orgID))
  {
    var subs := ApplyAll(map[], ops);
    RunsKeepKeys(map[], ops);
    if k :| k in subs && Accepts(subs[k], eventType, deviceID, orgID) {
      StoredComesFromRun(ops, k);
      StoredIffSubscribed(ops, subs[k]);
    }
    if f :| Subscribed(ops, f) && Accepts(f, eventType, deviceID, orgID) {
      StoredIffSubscribed(ops, f);
    }
  }

  /** One of the four filters an event's type, device and organisation make. */
  predicate NamesPartsOf(f: Filter, t: string, d: Option<string>, o: Option<string>) {
    f in {Filter(t, None, None), Filter(t, d, None), Filter(t, None, o), Filter(t, d, o)}
  }

  /** The filters that accept an event: its type, with or without its own device and organisation. */
  lemma AcceptedByFour(f: Filter, t: string, d: Option<string>, o: Option<string>)
    ensures Accepts(f, t, d, o)
       <==> f == Filter(t, None, None) || f == Filter(t, d, None) || f == Filter(t, None, o) || f == Filter(t, d, o)
  {
  }

  /** After any run in which no two filters share a key, an event is delivered iff the client's last
      word is to subscribe to its type alone, or with its device, or its organisation, or both. */
  lemma DeliveredIffSubscribed(ops: seq<Op>, t: string, d: Option<string>, o: Option<string>)
    requires KeysAreOwn(ops)
    ensures SomeAccepts(ApplyAll(map[], ops), t, d, o)
       <==> || Subscribed(ops, Filter(t, None, None)) || Subscribed(ops, Filter(t, d, None))
            || Subscribed(ops, Filter(t, None, o)) || Subscribed(ops, Filter(t, d, o))
  {
    hide Subscribed, ApplyAll, MakeKey, SomeAccepts, KeysAreOwn, Accepts;
    MatchesIffSubscribed(ops, t, d, o);
    AcceptedByFour(Filter(t, None, None), t, d, o);
    AcceptedByFour(Filter(t, d, None), t, d, o);
    AcceptedByFour(Filter(t, None, o), t, d, o);
    AcceptedByFour(Filter(t, d, o), t, d, o);
    if f :| Subscribed(ops, f) && Accepts(f, t, d, o) {
      AcceptedByFour(f, t, d, o);
    }
  }

  // ---------------------------------------------------------------- when matching is right

  /** The filters a client may send. */
  ghost predicate From(ops: seq<Op>, filters: Filter -> bool) {
    forall i :: 0 <= i < |ops| ==> filters(ops[i].filter)
  }

  ghost predicate OwnKeys(filters: Filter -> bool) {
    forall f, g :: filters(f) && filters(g) && MakeKey(f) == MakeKey(g) ==> f == g
  }

  ghost predicate MatchingRight(ops: seq<Op>, eventType: string, deviceID: Option<string>, orgID: Option<string>) {
    SomeAccepts(ApplyAll(map[], ops), eventType, deviceID, orgID)
    <==> exists f :: Subscribed(ops, f) && Accepts(f, eventType, deviceID, orgID)
  }

  /** A filter that accepts everything another one names has a shorter key, or is that filter. */
  lemma MoreGeneralIsShorter(f: Filter, g: Filter)
    requires Accepts(g, f.eventType, f.deviceID, f.orgID) && MakeKey(f) == MakeKey(g)
    ensures f == g
  {
    assert |DevicePart(f)| == |DevicePart(g)| && |OrgPart(f)| == |OrgPart(g)|;
  }

  /** Two filters of one key: the second subscription replaces the first, and the event the first
      one names is no longer delivered although it was never unsubscribed. */
  lemma SecondReplacesFirst(f: Filter, g: Filter)
    requires f != g && MakeKey(f) == MakeKey(g)
    ensures var ops := [Subscribe(f), Subscribe(g)];
            && Subscribed(ops, f) && ApplyAll(map[], ops) == map[MakeKey(f) := g]
            && !MatchingRight(ops, f.eventType, f.deviceID, f.orgID)
  {
    var ops := [Subscribe(f), Subscribe(g)];
    assert ops[..1] == [Subscribe(f)] && ops[..1][..0] == [];
    assert ApplyAll(map[], ops[..1]) == map[MakeKey(f) := f];
    assert ops[0] == Subscribe(f) && ops[1] != Unsubscribe(f);
    assert Subscribed(ops, f);
    if Accepts(g, f.eventType, f.deviceID, f.orgID) {
      MoreGeneralIsShorter(f, g);
    }
  }

  /** Over every run and every event, matching agrees with the subscriptions iff no two filters that
      clients may send share a key. */
  lemma MatchingRightIff(filters: Filter -> bool)
    ensures (forall ops, eventType, deviceID, orgID ::
               From(ops, filters) ==> MatchingRight(ops, eventType, deviceID, orgID))
       <==> OwnKeys(filters)
  {
    hide SomeAccepts, Subscribed, ApplyAll, MakeKey;
    if OwnKeys(filters) {
      forall ops, eventType, deviceID, orgID | From(ops, filters)
        ensures MatchingRight(ops, eventType, deviceID, orgID)
      {
        MatchesIffSubscribed(ops, eventType, deviceID, orgID);
      }
    } else {
      var f, g :| filters(f) && filters(g) && MakeKey(f) == MakeKey(g) && f != g;
      SecondReplacesFirst(f, g);
      assert From([Subscribe(f), Subscribe(g)], filters);
    }
  }

  /** For example: with the same event type, device "d:org:x" in any organisation, and device "d" in
      organisation "x". */
  lemma MakeKeyCollision()
    ensures var f, g := Filter("e", Some("d:org:x"), None), Filter("e", Some("d"), Some("x"));
            && MakeKey(f) == MakeKey(g)
            && Subscribed([Subscribe(f), Subscribe(g)], f)
            && !SomeAccepts(ApplyAll(map[], [Subscribe(f), Subscribe(g)]), "e", Some("d:org:x"), None)
  {
    var f, g := Filter("e", Some("d:org:x"), None), Filter("e", Some("d"), Some("x"));
    assert MakeKey(f) == "e:device:d:org:x" == MakeKey(g);
    SecondReplacesFirst(f, g);
  }

  // ---------------------------------------------------------------- the manager

  class SubscriptionManager {
    var subscriptions: map<string, Filter>

    constructor ()
      ensures subscriptions == map[]
    {
      subscriptions := map[];
    }

    method Subscribe(filter: Filter)
      modifies this
      ensures subscriptions == Apply(old(subscriptions), Op.Subscribe(filter))
    {
      var key := MakeKey(filter);
      subscriptions := subscriptions[key := filter];
    }

    method Unsubscribe(filter: Filter)
      modifies this
      ensures subscriptions == Apply(old(subscriptions), Op.Unsubscribe(filter))
    {
      var key := MakeKey(filter);
      subscriptions := subscriptions - {key};
    }

    /** Whether any stored filter accepts the event; the map is visited in some order. */
    method Matches(eventType: string, deviceID: Option<string>, orgID: Option<string>) returns (matched: bool)
      ensures matched == SomeAccepts(subscriptions, eventType, deviceID, orgID)
      ensures matched <==> exists k :: k in subscriptions && NamesPartsOf(subscriptions[k], eventType, deviceID, orgID)
    {
      var todo := subscriptions.Keys;
      while todo != {}
        invariant todo <= subscriptions.Keys
        invariant forall k :: k in subscriptions && k !in todo
                    ==> !Accepts(subscriptions[k], eventType, deviceID, orgID)
        decreases |todo|
      {
        var key :| key in todo;
        if Accepts(subscriptions[key], eventType, deviceID, orgID) {
          return true;
        }
        todo := todo - {key};
      }
      return false;
    }
  }
}
