/** Gated config publish, multi-point confirmation and rollback (mqtt_config_publish.py). */
module ConfigPublish {
  import opened Wrappers
  import opened Values

  type Parameters = map<string, Value>

  /** Text, JSON and equality as Python supplies them, and the authorization check. */
  datatype Env = Env(
    strip: Text -> Text,
    str: Value -> Text,
    truthy: Value -> bool,
    affirmative: Text -> bool,
    fold: Text -> Text,
    loads: Text -> Option<Value>,
    dumps: Value -> Text,
    same: (Value, Value) -> bool,
    authorized: (Option<Value>, Option<Value>) -> bool)

  // ---- Reading parameters ----

  function Get(p: Parameters, key: string): Option<Value> {
    if key in p && p[key] != Null then Some(p[key]) else None
  }

  /** `_string`: the stripped text of a value, empty for anything falsy. */
  function String(env: Env, v: Option<Value>): Text {
    match v
    case None => []
    case Some(Str(t)) => if t == [] then [] else env.strip(t)
    case Some(x) => if env.truthy(x) then env.strip(env.str(x)) else []
  }

  function ParseBool(env: Env, v: Option<Value>): bool {
    match v
    case None => false
    case Some(Bool(b)) => b
    case Some(Str(t)) => env.affirmative(t)
    case Some(x) => env.truthy(x)
  }

  predicate EndsWith(t: Text, suffix: Text) {
    |suffix| <= |t| && t[|t| - |suffix|..] == suffix
  }

  function Topic(env: Env, p: Parameters): Text {
    String(env, Get(p, "topic"))
  }

  function PayloadText(env: Env, p: Parameters): Text {
    String(env, Get(p, "payload"))
  }

  predicate Live(env: Env, p: Parameters) {
    ParseBool(env, Get(p, "use_live_broker")) || String(env, Get(p, "broker_host")) != []
  }

  predicate ValidTopic(t: Text) {
    t != [] && 32 !in t && 47 in t && EndsWith(t, Ascii("/config"))
  }

  /** `require_scan_authorization` reads these two parameters only. */
  predicate Authorized(env: Env, p: Parameters) {
    env.authorized(Get(p, "authorized"), Get(p, "scan_authorization"))
  }

  // ---- Issues raised before anything is sent ----

  datatype Issue =
    | NotConfirmed
    | InvalidTopic
    | InvalidPayload
    | AuthenticationError
    | TlsError
    | BrokerUnreachable
    | PublishUnavailable
    | PointsetTimeout
    | InvalidPointset
    | BrokerFailure
    | NotObserved(point: Text, expected: Value, observed: Option<Value>)

  function SimulatedIssues(env: Env, p: Parameters): seq<Issue> {
    var simulate := env.fold(String(env, Get(p, "simulate_error")));
    if simulate in {Ascii("auth"), Ascii("authentication")} then [AuthenticationError]
    else if simulate == Ascii("tls") then [TlsError]
    else if simulate in {Ascii("unreachable"), Ascii("network")} then [BrokerUnreachable]
    else []
  }

  function GateIssues(env: Env, p: Parameters): seq<Issue> {
    (if ParseBool(env, Get(p, "confirmed")) then [] else [NotConfirmed])
    + (if ValidTopic(Topic(env, p)) then [] else [InvalidTopic])
    + (if env.loads(PayloadText(env, p)).Some? then [] else [InvalidPayload])
    + SimulatedIssues(env, p)
  }

  // ---- The broker and its answers ----

  /** What one publish meets: a reply, silence, or an exception before or after the payload went out. */
  datatype Reply = Replied(json: Option<Value>) | Silence | FailsBefore | FailsAfter

  /** The injected publisher and reader; `retains` is whether the publisher sets the retain flag. */
  datatype World = World(
    publisher: bool, retains: bool, reader: bool, settingsFail: bool, readFails: bool, reply: Reply)

  datatype Call = Call(topic: Text, payload: Text)

  /** By topic: what the broker answers a new subscriber with, and what its subscribers were last sent. */
  datatype Topics = Topics(retained: map<Text, Text>, delivered: map<Text, Text>)

  /** A publish reaches the subscribers; only one with the retain flag also answers later reads. */
  function Deliver(s: Topics, topic: Text, payload: Text, retains: bool): Topics {
    Topics(if retains then s.retained[topic := payload] else s.retained, s.delivered[topic := payload])
  }

  class Broker {
    var topics: Topics
    var calls: seq<Call>

    constructor (topics: Topics)
      ensures this.topics == topics && calls == []
    {
      this.topics, calls := topics, [];
    }

    method Publish(topic: Text, payload: Text, retains: bool, reply: Reply)
      modifies this
      ensures calls == old(calls) + [Call(topic, payload)]
      ensures topics == if reply.FailsBefore? then old(topics) else Deliver(old(topics), topic, payload, retains)
    {
      calls := calls + [Call(topic, payload)];
      if !reply.FailsBefore? {
        topics := Deliver(topics, topic, payload, retains);
      }
    }
  }

  // ---- The previous value, captured before publishing ----

  datatype Source = LiveRead | Supplied | NotCaptured

  datatype Previous = Previous(topic: Text, payload: Option<Text>, source: Source)

  function SuppliedPrevious(env: Env, p: Parameters): Option<Text> {
    var supplied := if Get(p, "previous_config_payload").Some?
      then Get(p, "previous_config_payload") else Get(p, "previous_config");
    match supplied
    case Some(Dict(_)) => Some(env.dumps(supplied.value))
    case Some(List(_)) => Some(env.dumps(supplied.value))
    case Some(Str(t)) => if env.strip(t) != [] then Some(t) else None
    case _ => None
  }

  /** A live read wins over a supplied value, and an unusable read falls back to it. */
  function CapturePrevious(env: Env, w: World, p: Parameters, retained: map<Text, Text>): Previous {
    var topic := Topic(env, p);
    if Live(env, p) && w.reader && topic != [] && !w.settingsFail && !w.readFails
       && topic in retained && env.strip(retained[topic]) != []
    then Previous(topic, Some(retained[topic]), LiveRead)
    else
      var supplied := SuppliedPrevious(env, p);
      Previous(topic, supplied, if supplied.Some? then Supplied else NotCaptured)
  }

  // ---- Expected points ----

  datatype Expectation = Expectation(point: Text, value: Value)

  function OrElse(env: Env, a: Option<Value>, b: Option<Value>): Option<Value> {
    if a.Some? && (if a.value.Str? then a.value.t != [] else env.truthy(a.value)) then a else b
  }

  function NonNull(v: Option<Value>): Option<Value> {
    if v == Some(Null) then None else v
  }

  function ExplicitEntry(env: Env, v: Value): seq<Expectation> {
    if !v.Dict? then []
    else
      var name := String(env, OrElse(env, NonNull(Lookup(v.entries, "point")), NonNull(Lookup(v.entries, "name"))));
      var value := NonNull(if Lookup(v.entries, "value").Some?
        then Lookup(v.entries, "value") else Lookup(v.entries, "set_value"));
      if name != [] && value.Some? then [Expectation(name, value.value)] else []
  }

  function ExplicitPoints(env: Env, items: seq<Value>): seq<Expectation> {
    if items == [] then [] else ExplicitEntry(env, items[0]) + ExplicitPoints(env, items[1..])
  }

  function KeyText(env: Env, k: Key): Text {
    match k
    case Field(name) => TextOf(name)
    case OtherKey(id) => env.str(Int(id))
  }

  /** The non-null `set_value` of a point. */
  function SetValue(point: Entry): Option<Value> {
    if point.value.Dict? then NonNull(Lookup(point.value.entries, "set_value")) else None
  }

  function DerivedPoints(env: Env, points: seq<Entry>): seq<Expectation> {
    if points == [] then []
    else
      var value := SetValue(points[0]);
      (if value.Some? then [Expectation(KeyText(env, points[0].key), value.value)] else [])
      + DerivedPoints(env, points[1..])
  }

  /** `mapping.get(name, {})` on a JSON object. */
  function Child(v: Value, name: string): Value
    requires v.Dict?
  {
    if Lookup(v.entries, name).Some? then Lookup(v.entries, name).value else Dict([])
  }

  function Unquoted(env: Env, v: Value): Option<Value> {
    if v.Str? then env.loads(v.t) else Some(v)
  }

  /** `pointset.points` of the published payload, empty where anything on the way is no object. */
  function PublishedPoints(env: Env, published: Value): seq<Entry> {
    var payload := Unquoted(env, published);
    if payload.None? || !payload.value.Dict? then []
    else
      var pointset := Child(payload.value, "pointset");
      var points := if pointset.Dict? then Child(pointset, "points") else Dict([]);
      if points.Dict? then points.entries else []
  }

  function Derive(env: Env, published: Value): seq<Expectation> {
    DerivedPoints(env, PublishedPoints(env, published))
  }

  function Explicit(env: Env, p: Parameters): seq<Expectation> {
    var points := Get(p, "expected_points");
    if points.Some? && points.value.List? then ExplicitPoints(env, points.value.items) else []
  }

  predicate MayDerive(env: Env, p: Parameters, havePointset: bool) {
    && !ParseBool(env, Get(p, "_suppress_expected_point_derivation"))
    && (havePointset || ParseBool(env, Get(p, "confirm_published_points")))
  }

  function ResolveExpected(env: Env, p: Parameters, published: Value, havePointset: bool): seq<Expectation> {
    var derived := if MayDerive(env, p, havePointset) then Derive(env, published) else [];
    var point := String(env, Get(p, "expected_point"));
    if Explicit(env, p) != [] then Explicit(env, p)
    else if derived != [] then derived
    else if point != [] && Get(p, "expected_value").Some? then [Expectation(point, Get(p, "expected_value").value)]
    else []
  }

  // ---- Reading the next pointset ----

  /** The point's reported value; `Failure` where Python raises because `pointset` or `points` is no object. */
  function PresentValue(env: Env, pointset: Option<Value>, point: Text): Result<Option<Value>, ()> {
    if point == [] || pointset.None? then Success(None)
    else
      var payload := Unquoted(env, pointset.value);
      if payload.None? || !payload.value.Dict? then Success(None)
      else
        var inner := Child(payload.value, "pointset");
        if !inner.Dict? then Failure(())
        else
          var points := Child(inner, "points");
          if !points.Dict? then Failure(())
          else Success(PointValue(env, points.entries, point))
  }

  function PointValue(env: Env, points: seq<Entry>, point: Text): Option<Value> {
    if points == [] then None
    else if points[0].key.Field? && KeyText(env, points[0].key) == point then
      if points[0].value.Dict? then NonNull(Lookup(points[0].value.entries, "present_value")) else None
    else PointValue(env, points[1..], point)
  }

  datatype Check = Check(expected: Expectation, observed: Option<Value>, matched: bool)

  function CheckPoint(env: Env, pointset: Option<Value>, e: Expectation): Result<Check, ()> {
    var observed :- PresentValue(env, pointset, e.point);
    Success(Check(e, observed, observed.Some? && env.same(observed.value, e.value)))
  }

  // ---- Publish ----

  /** The publisher is called exactly under this condition. */
  predicate Publishes(env: Env, w: World, p: Parameters) {
    Live(env, p) && Authorized(env, p) && GateIssues(env, p) == [] && w.publisher && !w.settingsFail
  }

  /** What the live exchange adds: issues, and the pointset payload to confirm against. */
  function LiveIssues(env: Env, w: World, p: Parameters): seq<Issue> {
    if !(Live(env, p) && GateIssues(env, p) == []) then []
    else if !w.publisher then [PublishUnavailable]
    else if w.settingsFail then [BrokerFailure]
    else match w.reply
      case Replied(json) => if NonNull(json).None? then [InvalidPointset] else []
      case Silence => [PointsetTimeout]
      case _ => [BrokerFailure]
  }

  function NextPointset(env: Env, w: World, p: Parameters): Option<Value> {
    if Publishes(env, w, p) && w.reply.Replied? then NonNull(w.reply.json)
    else Get(p, "next_pointset_payload")
  }

  function Published(env: Env, p: Parameters): Value {
    var payload := env.loads(PayloadText(env, p));
    if payload.Some? then payload.value else Dict([])
  }

  function Expected(env: Env, w: World, p: Parameters): seq<Expectation> {
    ResolveExpected(env, p, Published(env, p), NextPointset(env, w, p).Some?)
  }

  /** What a run leaves on the broker. */
  function After(env: Env, w: World, p: Parameters, s: Topics): Topics {
    if Publishes(env, w, p) && !w.reply.FailsBefore?
      then Deliver(s, Topic(env, p), PayloadText(env, p), w.retains) else s
  }

  /** The calls a run makes to the publisher: one or none. */
  function Calls(env: Env, w: World, p: Parameters): seq<Call> {
    if Publishes(env, w, p) then [Call(Topic(env, p), PayloadText(env, p))] else []
  }

  datatype Report = Report(
    succeeded: bool,
    issues: seq<Issue>,
    checks: seq<Check>,
    matchedCount: nat,
    partialConfirm: bool,
    attempted: bool,
    previous: Previous)

  datatype Outcome = NotAuthorized | Crashed | Done(report: Report)

  function MissIssues(checks: seq<Check>): seq<Issue> {
    if checks == [] then []
    else
      var last := checks[|checks| - 1];
      MissIssues(checks[..|checks| - 1])
      + if last.matched then [] else [NotObserved(last.expected.point, last.expected.value, last.observed)]
  }

  function Matches(checks: seq<Check>): nat {
    if checks == [] then 0
    else Matches(checks[..|checks| - 1]) + if checks[|checks| - 1].matched then 1 else 0
  }

  /** The checks are one per expected point, in order, each against the same next pointset. */
  ghost predicate ChecksEach(env: Env, pointset: Option<Value>, expected: seq<Expectation>, checks: seq<Check>) {
    && |checks| == |expected|
    && forall i :: 0 <= i < |checks| ==> Success(checks[i]) == CheckPoint(env, pointset, expected[i])
  }

  /** The live exchange, reached only without issues: at most one publish, and the pointset it brought. */
  method Exchange(env: Env, w: World, p: Parameters, broker: Broker)
    returns (issues: seq<Issue>, pointset: Option<Value>)
    requires Live(env, p) ==> Authorized(env, p)
    modifies broker
    ensures broker.calls == old(broker.calls) + Calls(env, w, p)
      && broker.topics == After(env, w, p, old(broker.topics))
    ensures issues == LiveIssues(env, w, p) && pointset == NextPointset(env, w, p)
  {
    issues, pointset := [], Get(p, "next_pointset_payload");
    if Live(env, p) && GateIssues(env, p) == [] {
      if !w.publisher {
        issues := [PublishUnavailable];
      } else if w.settingsFail {
        issues := [BrokerFailure];
      } else {
        broker.Publish(Topic(env, p), PayloadText(env, p), w.retains, w.reply);
        match w.reply {
          case Replied(json) =>
            pointset := NonNull(json);
            if pointset.None? {
              issues := [InvalidPointset];
            }
          case Silence => issues := [PointsetTimeout];
          case _ => issues := [BrokerFailure];
        }
      }
    }
  }

  /** Confirmation reads a pointset shape Python cannot: in a check, or for the summary of a single point. */
  predicate Unreadable(env: Env, pointset: Option<Value>, expected: seq<Expectation>, point: Text) {
    || (exists i :: 0 <= i < |expected| && CheckPoint(env, pointset, expected[i]).Failure?)
    || (|expected| != 1 && PresentValue(env, pointset, point).Failure?)
  }

  predicate Crashes(env: Env, w: World, p: Parameters) {
    Unreadable(env, NextPointset(env, w, p), Expected(env, w, p), String(env, Get(p, "expected_point")))
  }

  /** What a finished run reports, given its checks. */
  ghost predicate Reports(env: Env, w: World, p: Parameters, retained: map<Text, Text>, report: Report) {
    && ChecksEach(env, NextPointset(env, w, p), Expected(env, w, p), report.checks)
    && report.issues == GateIssues(env, p) + LiveIssues(env, w, p) + MissIssues(report.checks)
    && report.succeeded == (report.issues == [])
    && report.matchedCount == Matches(report.checks)
    && report.partialConfirm == (|report.checks| > 1 && 0 < report.matchedCount < |report.checks|)
    && report.attempted == (Live(env, p) && GateIssues(env, p) == [])
    && report.previous == CapturePrevious(env, w, p, retained)
  }

  /** `validate_and_publish_config` */
  method ValidateAndPublish(env: Env, w: World, p: Parameters, broker: Broker) returns (r: Outcome)
    modifies broker
    ensures r.NotAuthorized? <==> Live(env, p) && !Authorized(env, p)
    ensures broker.calls == old(broker.calls) + Calls(env, w, p)
      && broker.topics == After(env, w, p, old(broker.topics))
    ensures r.Done? ==> Reports(env, w, p, old(broker.topics.retained), r.report)
    ensures r.Crashed? <==> Crashes(env, w, p) && !r.NotAuthorized?
  {
    if Live(env, p) && !Authorized(env, p) {
      return NotAuthorized;
    }
    var previous := CapturePrevious(env, w, p, broker.topics.retained);
    var gate := GateIssues(env, p);
    var live, pointset := Exchange(env, w, p, broker);
    var expected := ResolveExpected(env, p, Published(env, p), pointset.Some?);
    var checked := CheckPoints(env, pointset, expected, gate + live);
    if checked.Failure? {
      return Crashed;
    }
    var (checks, issues) := checked.value;
    if |checks| != 1 && PresentValue(env, pointset, String(env, Get(p, "expected_point"))).Failure? {
      return Crashed;
    }
    var matched := Matches(checks);
    r := Done(Report(issues == [], issues, checks, matched, |checks| > 1 && 0 < matched < |checks|,
                     Live(env, p) && gate == [], previous));
  }

  /** The confirmation loop: a check per point, an issue per miss. */
  method CheckPoints(env: Env, pointset: Option<Value>, expected: seq<Expectation>, before: seq<Issue>)
    returns (r: Result<(seq<Check>, seq<Issue>), ()>)
    ensures r.Success? ==> ChecksEach(env, pointset, expected, r.value.0) && r.value.1 == before + MissIssues(r.value.0)
    ensures r.Failure? <==> exists i :: 0 <= i < |expected| && CheckPoint(env, pointset, expected[i]).Failure?
  {
    var checks: seq<Check>, issues := [], before;
    for i := 0 to |expected|
      invariant |checks| == i && issues == before + MissIssues(checks)
      invariant forall j :: 0 <= j < i ==> Success(checks[j]) == CheckPoint(env, pointset, expected[j])
    {
      var check := CheckPoint(env, pointset, expected[i]);
      if check.Failure? {
        return Failure(());
      }
      assert (checks + [check.value])[..i] == checks;
      checks := checks + [check.value];
      if !check.value.matched {
        issues := issues + [NotObserved(expected[i].point, expected[i].value, check.value.observed)];
      }
    }
    r := Success((checks, issues));
  }

  lemma {:induction false} NoMissesMeansAllMatched(checks: seq<Check>)
    ensures MissIssues(checks) == [] <==> forall i :: 0 <= i < |checks| ==> checks[i].matched
    ensures Matches(checks) == |checks| <==> forall i :: 0 <= i < |checks| ==> checks[i].matched
    ensures Matches(checks) <= |checks|
  {
    if checks != [] {
      NoMissesMeansAllMatched(checks[..|checks| - 1]);
    }
  }

  lemma NoIssuesAtAll(a: seq<Issue>, b: seq<Issue>, c: seq<Issue>)
    ensures a + b + c == [] <==> a == [] && b == [] && c == []
  {
    assert |a + b + c| == |a| + |b| + |c|;
  }

  /** Checks without a miss all observed the expected value. */
  lemma ChecksConfirm(env: Env, pointset: Option<Value>, expected: seq<Expectation>, checks: seq<Check>)
    requires ChecksEach(env, pointset, expected, checks) && MissIssues(checks) == []
    ensures |checks| == |expected| == Matches(checks)
    ensures forall i :: 0 <= i < |checks| ==> Confirms(env, pointset, expected[i], checks[i])
  {
    NoMissesMeansAllMatched(checks);
  }

  /** The point was observed in the pointset, with the expected value. */
  predicate Confirms(env: Env, pointset: Option<Value>, e: Expectation, check: Check) {
    && check.observed.Some?
    && PresentValue(env, pointset, e.point) == Success(check.observed)
    && env.same(check.observed.value, e.value)
  }

  lemma NoLiveIssues(env: Env, w: World, p: Parameters)
    requires Live(env, p) && Authorized(env, p) && GateIssues(env, p) == [] && LiveIssues(env, w, p) == []
    ensures Publishes(env, w, p) && w.reply.Replied? && NonNull(w.reply.json).Some?
    ensures NextPointset(env, w, p) == NonNull(w.reply.json)
  {
  }

  /** A live success was published once, answered with JSON, and every expected point was seen to match in it. */
  lemma LiveSuccessIsConfirmed(env: Env, w: World, p: Parameters, retained: map<Text, Text>, report: Report)
    requires Live(env, p) && Authorized(env, p) && Reports(env, w, p, retained, report) && report.succeeded
    ensures Publishes(env, w, p) && w.reply.Replied? && NonNull(w.reply.json).Some?
    ensures |report.checks| == |Expected(env, w, p)| == report.matchedCount
    ensures forall i :: 0 <= i < |report.checks| ==>
      Confirms(env, NonNull(w.reply.json), Expected(env, w, p)[i], report.checks[i])
  {
    NoIssuesAtAll(GateIssues(env, p), LiveIssues(env, w, p), MissIssues(report.checks));
    NoLiveIssues(env, w, p);
    ChecksConfirm(env, NextPointset(env, w, p), Expected(env, w, p), report.checks);
  }

  // ---- What is expected, and what can match ----

  lemma {:induction false} ExplicitAreNamed(env: Env, items: seq<Value>)
    ensures forall e :: e in ExplicitPoints(env, items) ==> e.point != [] && e.value != Null
  {
    if items != [] {
      ExplicitAreNamed(env, items[1..]);
    }
  }

  lemma {:induction false} DerivedHaveValues(env: Env, points: seq<Entry>)
    ensures forall e :: e in DerivedPoints(env, points) ==> e.value != Null
  {
    if points != [] {
      DerivedHaveValues(env, points[1..]);
    }
  }

  /** Every expected point has a value. */
  lemma ExpectationsHaveValues(env: Env, p: Parameters, published: Value, havePointset: bool)
    ensures forall e :: e in ResolveExpected(env, p, published, havePointset) ==> e.value != Null
  {
    if Get(p, "expected_points").Some? && Get(p, "expected_points").value.List? {
      ExplicitAreNamed(env, Get(p, "expected_points").value.items);
    }
    DerivedHaveValues(env, PublishedPoints(env, published));
  }

  predicate HasNameless(expected: seq<Expectation>) {
    exists e :: e in expected && e.point == []
  }

  /** `str` of a number is never empty, so only the empty key has an empty name. */
  ghost predicate NumbersHaveText(env: Env) {
    forall id :: env.str(Int(id)) != []
  }

  /** The payload sets a value at its empty key. */
  predicate SetsEmptyKey(points: seq<Entry>) {
    exists e :: e in points && e.key == Field("") && SetValue(e).Some?
  }

  lemma EmptyNameIsEmptyKey(env: Env, k: Key)
    requires NumbersHaveText(env)
    ensures KeyText(env, k) == [] <==> k == Field("")
  {
    if k.Field? {
      assert |TextOf(k.name)| == |k.name|;
    }
  }

  lemma {:induction false} DerivedNameless(env: Env, points: seq<Entry>)
    requires NumbersHaveText(env)
    ensures HasNameless(DerivedPoints(env, points)) <==> SetsEmptyKey(points)
  {
    if points != [] {
      var rest := DerivedPoints(env, points[1..]);
      var value := SetValue(points[0]);
      var head := if value.Some? then [Expectation(KeyText(env, points[0].key), value.value)] else [];
      DerivedNameless(env, points[1..]);
      EmptyNameIsEmptyKey(env, points[0].key);
      assert DerivedPoints(env, points) == head + rest;
      assert forall e :: e in head + rest <==> e in head || e in rest;
      assert forall e :: e in points <==> e == points[0] || e in points[1..];
      if value.Some? {
        assert head[0] in head;
      }
    }
  }

  /** A nameless point is expected exactly when nothing explicit is, derivation is allowed, and the published payload
    * sets a value at the empty key. */
  lemma NamelessExactly(env: Env, p: Parameters, published: Value, havePointset: bool)
    requires NumbersHaveText(env)
    ensures HasNameless(ResolveExpected(env, p, published, havePointset)) <==>
      Explicit(env, p) == [] && MayDerive(env, p, havePointset) && SetsEmptyKey(PublishedPoints(env, published))
  {
    if Get(p, "expected_points").Some? && Get(p, "expected_points").value.List? {
      ExplicitAreNamed(env, Get(p, "expected_points").value.items);
    }
    DerivedNameless(env, PublishedPoints(env, published));
  }

  /** `{"pointset": {"points": {"": {"set_value": x}}}}` */
  function EmptyKeyPayload(x: Value): Value {
    Dict([Entry(Field("pointset"), Dict([Entry(Field("points"), Dict([
      Entry(Field(""), Dict([Entry(Field("set_value"), x)]))]))]))])
  }

  /** Such a payload, published with a pointset at hand, expects a point without a name. */
  lemma EmptyKeyIsExpected(env: Env, x: Value)
    requires x != Null
    ensures ResolveExpected(env, map[], EmptyKeyPayload(x), true) == [Expectation([], x)]
  {
    var point := Entry(Field(""), Dict([Entry(Field("set_value"), x)]));
    assert PublishedPoints(env, EmptyKeyPayload(x)) == [point];
    assert SetValue(point) == Some(x) && KeyText(env, point.key) == [];
    assert [point][1..] == [] && DerivedPoints(env, [point]) == [Expectation([], x)];
  }

  /** An empty name can never match, whatever the device answers. */
  lemma EmptyNameNeverMatches(env: Env, pointset: Option<Value>, e: Expectation)
    requires e.point == []
    ensures CheckPoint(env, pointset, e) == Success(Check(e, None, false))
  {
  }

  /** So a publish that expects a nameless point never succeeds. */
  lemma NamelessNeverSucceeds(env: Env, w: World, p: Parameters, retained: map<Text, Text>, report: Report)
    requires Reports(env, w, p, retained, report) && HasNameless(Expected(env, w, p))
    ensures !report.succeeded
  {
    var expected := Expected(env, w, p);
    var e :| e in expected && e.point == [];
    var i :| 0 <= i < |expected| && expected[i] == e;
    EmptyNameNeverMatches(env, NextPointset(env, w, p), e);
    assert Success(report.checks[i]) == CheckPoint(env, NextPointset(env, w, p), expected[i]);
    NoMissesMeansAllMatched(report.checks);
    NoIssuesAtAll(GateIssues(env, p), LiveIssues(env, w, p), MissIssues(report.checks));
  }

  /** Without a pointset, an opt-in or a supplied expectation, a publish expects nothing and so misses nothing. */
  lemma NothingManufactured(env: Env, p: Parameters, published: Value)
    requires !ParseBool(env, Get(p, "confirm_published_points"))
    requires Get(p, "expected_points").None?
    requires Get(p, "expected_value").None? || String(env, Get(p, "expected_point")) == []
    ensures ResolveExpected(env, p, published, false) == []
  {
  }

  /** A match means the answer holds an object for that very point with that present value. */
  lemma {:induction false} PointValueFound(env: Env, points: seq<Entry>, point: Text)
    ensures PointValue(env, points, point).Some? ==>
      exists e :: e in points && e.key.Field? && TextOf(e.key.name) == point && e.value.Dict?
               && Lookup(e.value.entries, "present_value") == PointValue(env, points, point)
  {
    if points != [] && !(points[0].key.Field? && KeyText(env, points[0].key) == point) {
      PointValueFound(env, points[1..], point);
      if PointValue(env, points, point).Some? {
        var e :| e in points[1..] && e.key.Field? && TextOf(e.key.name) == point && e.value.Dict?
          && Lookup(e.value.entries, "present_value") == PointValue(env, points[1..], point);
        assert e in points;
      }
    } else if points != [] {
      assert points[0] in points;
    }
  }

  /** Captured text is never blank, so a rollback of it is not refused for want of a payload. */
  lemma CapturedIsUsable(env: Env, w: World, p: Parameters, retained: map<Text, Text>)
    ensures var c := CapturePrevious(env, w, p, retained);
      && (c.payload.Some? <==> !c.source.NotCaptured?)
      && (c.source.LiveRead? ==>
            c.topic in retained && c.payload == Some(retained[c.topic]) && env.strip(c.payload.value) != [])
      && (c.source.Supplied? ==>
            || env.strip(c.payload.value) != []
            || exists v: Value :: (v.Dict? || v.List?) && c.payload == Some(env.dumps(v)))
  {
  }

  // ---- Rollback ----

  const FORWARD_KEYS := {"expected_point", "expected_value", "expected_points", "previous_config_payload",
    "previous_config"}

  /** The forward parameters turned into a republish of the captured value, with every expectation dropped. */
  function RollbackParameters(p: Parameters, previous: Previous, payload: Text): Parameters {
    var q := p["payload" := Str(payload)];
    var r := if previous.topic != [] then q["topic" := Str(previous.topic)] else q;
    (r - FORWARD_KEYS)["_suppress_expected_point_derivation" := Bool(true)]
  }

  datatype RollbackOutcome = Denied | NothingCaptured | Rolled(outcome: Outcome)

  /** `rollback_config`; a captured payload that is blank is refused before anything is sent. */
  method RollBack(env: Env, w: World, p: Parameters, previous: Previous, broker: Broker) returns (r: RollbackOutcome)
    modifies broker
    ensures r.Denied? <==> Live(env, p) && !Authorized(env, p)
    ensures r.NothingCaptured? <==>
      !(Live(env, p) && !Authorized(env, p)) && (previous.payload.None? || env.strip(previous.payload.value) == [])
    ensures !r.Rolled? ==> broker.calls == old(broker.calls) && broker.topics == old(broker.topics)
    ensures r.Rolled? ==> Restores(env, w, RollbackParameters(p, previous, previous.payload.value),
                                   old(broker.topics), broker.topics, r.outcome)
  {
    if Live(env, p) && !Authorized(env, p) {
      return Denied;
    }
    if previous.payload.None? || env.strip(previous.payload.value) == [] {
      return NothingCaptured;
    }
    var q := RollbackParameters(p, previous, previous.payload.value);
    RollbackExpectsNothing(env, w.(reader := false), p, previous, previous.payload.value);
    var outcome := ValidateAndPublish(env, w.(reader := false), q, broker);
    r := Rolled(outcome);
  }

  /** The republish: judged on its gates and its delivery alone, never on an observed value. */
  ghost predicate Restores(env: Env, w: World, q: Parameters, before: Topics, after: Topics, outcome: Outcome) {
    && after == After(env, w, q, before)
    && (outcome.NotAuthorized? <==> Live(env, q) && !Authorized(env, q))
    && !outcome.Crashed?
    && (outcome.Done? ==>
          && outcome.report.checks == []
          && outcome.report.issues == GateIssues(env, q) + LiveIssues(env, w, q)
          && outcome.report.succeeded == (outcome.report.issues == []))
  }

  /** Nothing is expected of a rollback, so nothing can be reported as not observed. */
  lemma RollbackExpectsNothing(env: Env, w: World, p: Parameters, previous: Previous, payload: Text)
    ensures Expected(env, w, RollbackParameters(p, previous, payload)) == []
    ensures String(env, Get(RollbackParameters(p, previous, payload), "expected_point")) == []
  {
  }

  /** `str.strip`: stripping twice changes nothing, and nothing is stripped from the empty string. */
  ghost predicate Strips(env: Env) {
    env.strip([]) == [] && forall t {:trigger env.strip(env.strip(t))} :: env.strip(env.strip(t)) == env.strip(t)
  }

  /** Everything a rollback still needs once a payload was captured. */
  predicate MayRestore(env: Env, w: World, p: Parameters, topic: Text, payload: Text) {
    && Live(env, p) && Authorized(env, p)
    && ParseBool(env, Get(p, "confirmed")) && SimulatedIssues(env, p) == []
    && w.publisher && !w.settingsFail
    && ValidTopic(topic) && env.loads(env.strip(payload)).Some?
  }

  lemma KeptParameters(p: Parameters, previous: Previous, payload: Text)
    ensures var q := RollbackParameters(p, previous, payload);
      && Get(q, "use_live_broker") == Get(p, "use_live_broker") && Get(q, "broker_host") == Get(p, "broker_host")
      && Get(q, "simulate_error") == Get(p, "simulate_error") && Get(q, "confirmed") == Get(p, "confirmed")
      && Get(q, "authorized") == Get(p, "authorized")
      && Get(q, "scan_authorization") == Get(p, "scan_authorization")
  {
  }

  /** The rollback keeps the broker, authorization and confirmation parameters of the request. */
  lemma SameElsewhere(env: Env, p: Parameters, previous: Previous, payload: Text)
    ensures var q := RollbackParameters(p, previous, payload);
      && Live(env, q) == Live(env, p) && Authorized(env, q) == Authorized(env, p)
      && ParseBool(env, Get(q, "confirmed")) == ParseBool(env, Get(p, "confirmed"))
      && SimulatedIssues(env, q) == SimulatedIssues(env, p)
  {
    KeptParameters(p, previous, payload);
  }

  lemma RollbackTargets(env: Env, p: Parameters, previous: Previous, payload: Text)
    requires Strips(env) && previous.topic != [] && env.strip(payload) != []
    ensures var q := RollbackParameters(p, previous, payload);
      Topic(env, q) == env.strip(previous.topic) && PayloadText(env, q) == env.strip(payload)
  {
    var q := RollbackParameters(p, previous, payload);
    assert Get(q, "topic") == Some(Str(previous.topic)) && Get(q, "payload") == Some(Str(payload));
  }

  /** The republish goes out exactly when the operator confirms again and the captured value is JSON on a config
    * topic. */
  lemma RollbackPublishes(env: Env, w: World, p: Parameters, previous: Previous, payload: Text)
    requires Strips(env) && previous.topic != [] && env.strip(previous.topic) == previous.topic
      && env.strip(payload) != []
    ensures Publishes(env, w, RollbackParameters(p, previous, payload))
       <==> MayRestore(env, w, p, previous.topic, payload)
  {
    RollbackTargets(env, p, previous, payload);
    SameElsewhere(env, p, previous, payload);
    NoGateIssues(env, RollbackParameters(p, previous, payload));
  }

  lemma NoGateIssues(env: Env, p: Parameters)
    ensures GateIssues(env, p) == [] <==>
      && ParseBool(env, Get(p, "confirmed")) && ValidTopic(Topic(env, p))
      && env.loads(PayloadText(env, p)).Some? && SimulatedIssues(env, p) == []
  {
    var a: seq<Issue> := if ParseBool(env, Get(p, "confirmed")) then [] else [NotConfirmed];
    var b: seq<Issue> := if ValidTopic(Topic(env, p)) then [] else [InvalidTopic];
    var c: seq<Issue> := if env.loads(PayloadText(env, p)).Some? then [] else [InvalidPayload];
    assert |GateIssues(env, p)| == |a| + |b| + |c| + |SimulatedIssues(env, p)|;
  }

  /** The forward run reads a usable value off the broker before it publishes. */
  predicate Reads(env: Env, w: World, p: Parameters, retained: map<Text, Text>) {
    && Live(env, p) && w.reader && !w.settingsFail && !w.readFails
    && Topic(env, p) != [] && Topic(env, p) in retained && env.strip(retained[Topic(env, p)]) != []
  }

  lemma TopicStripped(env: Env, p: Parameters)
    requires Strips(env)
    ensures env.strip(Topic(env, p)) == Topic(env, p)
  {
  }

  /** What a rollback that goes out leaves behind. */
  lemma RestoredState(env: Env, w: World, p: Parameters, previous: Previous, payload: Text,
                      before: Topics, after: Topics, outcome: Outcome)
    requires Strips(env) && previous.topic != [] && env.strip(previous.topic) == previous.topic
    requires env.strip(payload) != []
    requires MayRestore(env, w, p, previous.topic, payload) && !w.reply.FailsBefore?
    requires Restores(env, w, RollbackParameters(p, previous, payload), before, after, outcome)
    ensures after == Deliver(before, previous.topic, env.strip(payload), w.retains)
    ensures outcome.Done? && forall x :: x in outcome.report.issues ==> !x.NotObserved?
  {
    RollbackPublishes(env, w, p, previous, payload);
    RollbackTargets(env, p, previous, payload);
    SameElsewhere(env, p, previous, payload);
  }

  /** A publish after a live read changes nothing but its topic, and reports the value read. */
  method PublishOver(env: Env, w: World, p: Parameters, broker: Broker) returns (forward: Outcome)
    requires Reads(env, w, p, broker.topics.retained)
    modifies broker
    ensures forward.Done? <==> Authorized(env, p) && !Crashes(env, w, p)
    ensures forward.Done? ==>
      forward.report.previous == Previous(Topic(env, p), Some(old(broker.topics.retained)[Topic(env, p)]), LiveRead)
    ensures broker.topics in {old(broker.topics),
      Deliver(old(broker.topics), Topic(env, p), PayloadText(env, p), w.retains)}
  {
    forward := ValidateAndPublish(env, w, p, broker);
  }

  /** A rollback that may go out sends the captured value, stripped. */
  method PutBack(env: Env, w: World, p: Parameters, previous: Previous, broker: Broker) returns (back: RollbackOutcome)
    requires Strips(env) && previous.topic != [] && env.strip(previous.topic) == previous.topic
    requires previous.payload.Some? && env.strip(previous.payload.value) != []
    requires MayRestore(env, w, p, previous.topic, previous.payload.value) && !w.reply.FailsBefore?
    modifies broker
    ensures broker.topics == Deliver(old(broker.topics), previous.topic, env.strip(previous.payload.value), w.retains)
    ensures back.Rolled? && back.outcome.Done? && forall x :: x in back.outcome.report.issues ==> !x.NotObserved?
  {
    back := RollBack(env, w, p, previous, broker);
    RestoredState(env, w, p, previous, previous.payload.value, old(broker.topics), broker.topics, back.outcome);
  }

  /** What publish and rollback together leave of a value that was read before: the devices hold it stripped; a reader
    * finds it untouched without the retain flag, and stripped with it. */
  ghost predicate RestoredTo(before: Topics, after: Topics, topic: Text, stripped: Text, retains: bool)
    requires topic in before.retained
  {
    && after.delivered == before.delivered[topic := stripped]
    && after.retained == (if retains then before.retained[topic := stripped] else before.retained)
    && (after.retained == before.retained <==> !retains || stripped == before.retained[topic])
  }

  lemma TwoDeliveries(before: Topics, mid: Topics, after: Topics, topic: Text, text: Text, stripped: Text,
                      retains: bool)
    requires topic in before.retained && mid in {before, Deliver(before, topic, text, retains)}
    requires after == Deliver(mid, topic, stripped, retains)
    ensures RestoredTo(before, after, topic, stripped, retains)
  {
    assert mid.delivered[topic := stripped] == before.delivered[topic := stripped];
    assert mid.retained[topic := stripped] == before.retained[topic := stripped];
    assert before.retained[topic := stripped][topic] == stripped;
  }

  /** Publish then roll back, through one publisher: whatever the forward run did, the captured value, stripped, is the
    * last the devices were sent, and a reader finds what it found before exactly when the publisher does not retain or
    * the value was stripped already; the rollback reports nothing as not observed. */
  method PublishThenRollBack(env: Env, w: World, p: Parameters, v: World, q: Parameters, broker: Broker)
    returns (forward: Outcome, back: RollbackOutcome)
    requires Strips(env) && Reads(env, w, p, broker.topics.retained) && v.retains == w.retains
    requires MayRestore(env, v, q, Topic(env, p), broker.topics.retained[Topic(env, p)]) && !v.reply.FailsBefore?
    modifies broker
    ensures forward.Done? <==> Authorized(env, p) && !Crashes(env, w, p)
    ensures forward.Done? ==>
      && RestoredTo(old(broker.topics), broker.topics, Topic(env, p),
                    env.strip(old(broker.topics.retained)[Topic(env, p)]), w.retains)
      && back.Rolled? && back.outcome.Done? && forall x :: x in back.outcome.report.issues ==> !x.NotObserved?
  {
    TopicStripped(env, p);
    forward := PublishOver(env, w, p, broker);
    back := NothingCaptured;
    ghost var mid := broker.topics;
    if forward.Done? {
      var previous := forward.report.previous;
      back := PutBack(env, v, q, previous, broker);
      TwoDeliveries(old(broker.topics), mid, broker.topics, previous.topic, PayloadText(env, p),
                    env.strip(previous.payload.value), w.retains);
    }
  }

  /** What a reader finds is not always put back: a retaining publisher leaves `{}` where `{} ` was. */
  lemma RollbackStrips(env: Env, w: World, p: Parameters)
    requires env.strip == Strip && Live(env, p) && Authorized(env, p) && w.reader && w.publisher && w.retains
    requires !w.settingsFail && !w.readFails && !w.reply.FailsBefore?
    requires ParseBool(env, Get(p, "confirmed")) && SimulatedIssues(env, p) == []
    requires Topic(env, p) == Ascii("a/config") && env.loads(BRACES).Some?
    ensures Strips(env)
    ensures var before := map[Topic(env, p) := BRACES + [32]];
      && Reads(env, w, p, before)
      && MayRestore(env, w, p, Topic(env, p), before[Topic(env, p)])
      && env.strip(before[Topic(env, p)]) == BRACES != before[Topic(env, p)]
  {
    BracesStripped();
    forall t: Text ensures env.strip(env.strip(t)) == env.strip(t) {
      StripTwice(t);
    }
    TopicIsValid();
  }

  const BRACES: Text := [123, 125]

  lemma BracesStripped()
    ensures Strip(BRACES + [32]) == BRACES
  {
    var t := BRACES + [32];
    assert StripLeft(t) == t && t[..2] == BRACES && StripRight(BRACES) == BRACES;
  }

  lemma TopicIsValid()
    ensures ValidTopic(Ascii("a/config"))
  {
    var t := Ascii("a/config");
    assert t[1] == 47 && t[1..] == Ascii("/config");
  }
}
