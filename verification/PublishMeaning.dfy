/** What a publish run asks, sends, expects and reports, told from its parameters and payloads. */
module PublishMeaning {
  import opened Wrappers
  import opened Values
  import opened ConfigPublish

  // ---- Parameters ----

  /** A parameter that says yes; a missing or null one does not. */
  predicate SaysYes(env: Env, p: Parameters, key: string) {
    key in p && match p[key]
      case Null => false
      case Bool(b) => b
      case Str(t) => env.affirmative(t)
      case v => env.truthy(v)
  }

  /** A parameter's text, stripped; nothing for a missing, null or falsy one. */
  predicate ReadsAs(env: Env, p: Parameters, key: string, t: Text) {
    if key !in p || p[key] == Null then t == [] else TextOfValue(env, p[key], t)
  }

  predicate TextOfValue(env: Env, v: Value, t: Text) {
    if v.Str? then t == (if v.t == [] then [] else env.strip(v.t))
    else t == (if env.truthy(v) then env.strip(env.str(v)) else [])
  }

  lemma YesMeaning(env: Env, p: Parameters, key: string)
    ensures ParseBool(env, Get(p, key)) <==> SaysYes(env, p, key)
  {
  }

  lemma ReadsMeaning(env: Env, p: Parameters, key: string, t: Text)
    ensures String(env, Get(p, key)) == t <==> ReadsAs(env, p, key, t)
  {
  }

  predicate AsksForBroker(env: Env, p: Parameters) {
    SaysYes(env, p, "use_live_broker") || !ReadsAs(env, p, "broker_host", [])
  }

  predicate MayTouchBroker(env: Env, p: Parameters) {
    env.authorized(Present(p, "authorized"), Present(p, "scan_authorization"))
  }

  function Present(p: Parameters, key: string): Option<Value> {
    if key in p && p[key] != Null then Some(p[key]) else None
  }

  /** Text without a blank that has a slash and ends in "/config". */
  ghost predicate IsConfigTopic(t: Text) {
    && (forall c :: c in t ==> c != ' ' as int) && (exists i :: 0 <= i < |t| && t[i] == '/' as int)
    && exists head: Text :: t == head + Ascii("/config")
  }

  lemma LiveMeaning(env: Env, p: Parameters)
    ensures Live(env, p) <==> AsksForBroker(env, p)
    ensures Authorized(env, p) <==> MayTouchBroker(env, p)
  {
    YesMeaning(env, p, "use_live_broker");
    ReadsMeaning(env, p, "broker_host", []);
  }

  lemma TopicMeaning(t: Text)
    ensures ValidTopic(t) <==> IsConfigTopic(t)
  {
    var suffix := Ascii("/config");
    assert |suffix| == 7;
    if ValidTopic(t) {
      assert t == t[..|t| - 7] + suffix;
    }
    if head: Text :| t == head + suffix {
      assert t[|t| - 7..] == suffix;
    }
  }

  // ---- Gates ----

  /** The broker fault a request asks to be simulated. */
  ghost predicate Simulates(env: Env, p: Parameters, words: set<string>) {
    exists t, word :: ReadsAs(env, p, "simulate_error", t) && word in words && env.fold(t) == Ascii(word)
  }

  lemma SimulatedExact(env: Env, p: Parameters)
    ensures SimulatedIssues(env, p) ==
      if Simulates(env, p, {"auth", "authentication"}) then [AuthenticationError]
      else if Simulates(env, p, {"tls"}) then [TlsError]
      else if Simulates(env, p, {"unreachable", "network"}) then [BrokerUnreachable]
      else []
  {
    var t := String(env, Get(p, "simulate_error"));
    forall s ensures s == t <==> ReadsAs(env, p, "simulate_error", s) {
      ReadsMeaning(env, p, "simulate_error", s);
    }
    SimulatesOne(env, p, {"auth", "authentication"}, t);
    SimulatesOne(env, p, {"tls"}, t);
    SimulatesOne(env, p, {"unreachable", "network"}, t);
  }

  lemma SimulatesOne(env: Env, p: Parameters, words: set<string>, t: Text)
    requires forall s :: s == t <==> ReadsAs(env, p, "simulate_error", s)
    ensures Simulates(env, p, words) <==> exists word :: word in words && env.fold(t) == Ascii(word)
  {
    assert ReadsAs(env, p, "simulate_error", t);
  }

  /** The gates, in order: confirmation, topic, payload, simulated fault. */
  lemma GatesExact(env: Env, p: Parameters, topic: Text, payload: Text)
    requires ReadsAs(env, p, "topic", topic) && ReadsAs(env, p, "payload", payload)
    ensures GateIssues(env, p) ==
      (if SaysYes(env, p, "confirmed") then [] else [NotConfirmed])
      + (if IsConfigTopic(topic) then [] else [InvalidTopic])
      + (if env.loads(payload).Some? then [] else [InvalidPayload])
      + SimulatedIssues(env, p)
  {
    YesMeaning(env, p, "confirmed");
    ReadsMeaning(env, p, "topic", topic);
    ReadsMeaning(env, p, "payload", payload);
    TopicMeaning(topic);
  }

  /** Everything that must hold for the publisher to be called. */
  ghost predicate GoesOut(env: Env, w: World, p: Parameters, topic: Text, payload: Text) {
    && AsksForBroker(env, p) && MayTouchBroker(env, p) && SaysYes(env, p, "confirmed")
    && IsConfigTopic(topic) && env.loads(payload).Some?
    && !Simulates(env, p, {"auth", "authentication"}) && !Simulates(env, p, {"tls"})
    && !Simulates(env, p, {"unreachable", "network"})
    && w.publisher && !w.settingsFail
  }

  /** The publisher is called at most once, with the request's own topic and payload, and exactly when everything holds;
    * what was sent reaches the subscribers, and later readers only from a publisher that retains. */
  lemma PublishExact(env: Env, w: World, p: Parameters, topic: Text, payload: Text, before: Topics)
    requires ReadsAs(env, p, "topic", topic) && ReadsAs(env, p, "payload", payload)
    ensures Calls(env, w, p) == if GoesOut(env, w, p, topic, payload) then [Call(topic, payload)] else []
    ensures var sent := GoesOut(env, w, p, topic, payload) && !w.reply.FailsBefore?;
      && After(env, w, p, before).delivered == (if sent then before.delivered[topic := payload] else before.delivered)
      && After(env, w, p, before).retained
         == if sent && w.retains then before.retained[topic := payload] else before.retained
  {
    NoGateIssues(env, p);
    LiveMeaning(env, p);
    YesMeaning(env, p, "confirmed");
    ReadsMeaning(env, p, "topic", topic);
    ReadsMeaning(env, p, "payload", payload);
    TopicMeaning(topic);
    SimulatedExact(env, p);
  }

  /** What a request past its gates runs into: no publisher, no settings or connection, silence, or an answer that is no
    * JSON. */
  lemma LiveIssuesExact(env: Env, w: World, p: Parameters)
    ensures LiveIssues(env, w, p) ==
      if !AsksForBroker(env, p) || GateIssues(env, p) != [] then []
      else if !w.publisher then [PublishUnavailable]
      else if w.settingsFail || w.reply.FailsBefore? || w.reply.FailsAfter? then [BrokerFailure]
      else if w.reply.Silence? then [PointsetTimeout]
      else if w.reply.json.None? || w.reply.json == Some(Null) then [InvalidPointset]
      else []
  {
    LiveMeaning(env, p);
  }

  /** The pointset to confirm against: the answer of a publish, or what the request brought. */
  lemma PointsetExact(env: Env, w: World, p: Parameters, topic: Text, payload: Text)
    requires ReadsAs(env, p, "topic", topic) && ReadsAs(env, p, "payload", payload)
    ensures NextPointset(env, w, p) ==
      if GoesOut(env, w, p, topic, payload) && w.reply.Replied? then
        if w.reply.json == Some(Null) then None else w.reply.json
      else Present(p, "next_pointset_payload")
  {
    PublishExact(env, w, p, topic, payload, Topics(map[], map[]));
  }

  // ---- The value captured before publishing ----

  /** What the request itself supplies as the value before. */
  predicate Supplies(env: Env, p: Parameters, t: Text) {
    var first := Present(p, "previous_config_payload");
    var v := if first.Some? then first else Present(p, "previous_config");
    && v.Some?
    && if v.value.Dict? || v.value.List? then t == env.dumps(v.value)
       else v.value.Str? && env.strip(v.value.t) != [] && t == v.value.t
  }

  /** A usable value read off the broker, else a usable one supplied, else none. */
  lemma PreviousExact(env: Env, w: World, p: Parameters, retained: map<Text, Text>, topic: Text)
    requires ReadsAs(env, p, "topic", topic)
    ensures var c := CapturePrevious(env, w, p, retained);
      var read := AsksForBroker(env, p) && w.reader && topic != [] && !w.settingsFail && !w.readFails
        && topic in retained && env.strip(retained[topic]) != [];
      && c.topic == topic
      && (read ==> c.payload == Some(retained[topic]) && c.source == LiveRead)
      && (!read ==> forall t :: c.payload == Some(t) <==> Supplies(env, p, t))
      && (!read ==> c.source == if c.payload.Some? then Supplied else NotCaptured)
  {
    LiveMeaning(env, p);
    ReadsMeaning(env, p, "topic", topic);
  }

  // ---- Expectations ----

  /** The value under a name that is there and not null. */
  predicate Holds(entries: seq<Entry>, name: string, v: Value) {
    Lookup(entries, name) == Some(v) && v != Null
  }

  /** Python's `x or y`: an empty string and whatever else is falsy give way. */
  predicate Counts(env: Env, v: Value) {
    if v.Str? then v.t != [] else v != Null && env.truthy(v)
  }

  /** The name an explicit expectation gives: its point, or else its name. */
  predicate NamedBy(env: Env, entries: seq<Entry>, t: Text) {
    var point, name := Lookup(entries, "point"), Lookup(entries, "name");
    if point.Some? && Counts(env, point.value) then TextOfValue(env, point.value, t)
    else if name.Some? && name.value != Null then TextOfValue(env, name.value, t)
    else t == []
  }

  /** An explicit entry asks for a point by name, with a value or a set value. */
  ghost predicate AsksFor(env: Env, v: Value, e: Expectation) {
    && v.Dict? && e.point != [] && NamedBy(env, v.entries, e.point)
    && (if Lookup(v.entries, "value").Some? then Holds(v.entries, "value", e.value)
        else Holds(v.entries, "set_value", e.value))
  }

  lemma ExplicitEntryExact(env: Env, v: Value, e: Expectation)
    ensures ExplicitEntry(env, v) == [e] <==> AsksFor(env, v, e)
    ensures ExplicitEntry(env, v) == [] <==> forall x :: !AsksFor(env, v, x)
  {
    if ExplicitEntry(env, v) != [] {
      assert AsksFor(env, v, ExplicitEntry(env, v)[0]);
    }
  }

  /** Entries are read one by one, in order. */
  lemma {:induction false} ExplicitInOrder(env: Env, a: seq<Value>, b: seq<Value>)
    ensures ExplicitPoints(env, a + b) == ExplicitPoints(env, a) + ExplicitPoints(env, b)
    ensures forall v :: ExplicitPoints(env, [v]) == ExplicitEntry(env, v)
  {
    forall v ensures ExplicitPoints(env, [v]) == ExplicitEntry(env, v) {
      assert [v][1..] == [];
    }
    if a == [] {
      assert a + b == b;
    } else {
      assert (a + b)[1..] == a[1..] + b && (a + b)[0] == a[0];
      ExplicitInOrder(env, a[1..], b);
    }
  }

  /** Every entry that asks for a point becomes an expectation, and nothing else does. */
  lemma {:induction false} ExplicitExact(env: Env, items: seq<Value>, e: Expectation)
    ensures e in ExplicitPoints(env, items) <==> exists v :: v in items && AsksFor(env, v, e)
  {
    if items != [] {
      ExplicitExact(env, items[1..], e);
      ExplicitEntryExact(env, items[0], e);
      assert forall v :: v in items <==> v == items[0] || v in items[1..];
      assert |ExplicitEntry(env, items[0])| <= 1;
    }
  }

  /** A published point asks for itself when it sets a value. */
  ghost predicate PointAsksFor(env: Env, point: Entry, e: Expectation) {
    && point.value.Dict? && Holds(point.value.entries, "set_value", e.value)
    && e.point == (if point.key.Field? then TextOf(point.key.name) else env.str(Int(point.key.id)))
  }

  lemma {:induction false} DerivedExact(env: Env, points: seq<Entry>, e: Expectation)
    ensures e in DerivedPoints(env, points) <==> exists point :: point in points && PointAsksFor(env, point, e)
  {
    if points != [] {
      DerivedExact(env, points[1..], e);
      var value := SetValue(points[0]);
      var head := if value.Some? then [Expectation(KeyText(env, points[0].key), value.value)] else [];
      assert DerivedPoints(env, points) == head + DerivedPoints(env, points[1..]);
      assert e in head <==> PointAsksFor(env, points[0], e);
      assert forall x :: x in points <==> x == points[0] || x in points[1..];
    }
  }

  lemma {:induction false} DerivedInOrder(env: Env, a: seq<Entry>, b: seq<Entry>)
    ensures DerivedPoints(env, a + b) == DerivedPoints(env, a) + DerivedPoints(env, b)
    ensures forall point :: |DerivedPoints(env, [point])| <= 1
  {
    forall point: Entry ensures |DerivedPoints(env, [point])| <= 1 {
      assert [point][1..] == [];
    }
    if a == [] {
      assert a + b == b;
    } else {
      assert (a + b)[1..] == a[1..] + b && (a + b)[0] == a[0];
      DerivedInOrder(env, a[1..], b);
    }
  }

  /** A JSON object, as such or in a string. */
  predicate IsObject(env: Env, v: Value, entries: seq<Entry>) {
    if v.Str? then env.loads(v.t) == Some(Dict(entries)) else v == Dict(entries)
  }

  /** The points of a payload: `pointset.points`, where everything on the way is an object. */
  ghost predicate HasPoints(env: Env, v: Value, points: seq<Entry>) {
    exists payload, pointset ::
      && IsObject(env, v, payload) && Lookup(payload, "pointset") == Some(Dict(pointset))
      && Lookup(pointset, "points") == Some(Dict(points))
  }

  lemma PointsExact(env: Env, published: Value)
    ensures forall points :: HasPoints(env, published, points) ==> PublishedPoints(env, published) == points
    ensures PublishedPoints(env, published) != [] ==> HasPoints(env, published, PublishedPoints(env, published))
  {
    var payload := Unquoted(env, published);
    if payload.Some? && payload.value.Dict? {
      assert IsObject(env, published, payload.value.entries);
    }
  }

  /** The explicit expectations, if the request lists any; else those of the published points, if there is a pointset to
    * see them in or the request insists, and nothing forbids it; else the one named in the request. */
  lemma ExpectedExact(env: Env, p: Parameters, published: Value, havePointset: bool, point: Text)
    requires ReadsAs(env, p, "expected_point", point)
    ensures var listed := Present(p, "expected_points");
      var explicit := if listed.Some? && listed.value.List? then ExplicitPoints(env, listed.value.items) else [];
      var derives := !SaysYes(env, p, "_suppress_expected_point_derivation")
        && (havePointset || SaysYes(env, p, "confirm_published_points"));
      var derived := if derives then DerivedPoints(env, PublishedPoints(env, published)) else [];
      var value := Present(p, "expected_value");
      ResolveExpected(env, p, published, havePointset) ==
        if explicit != [] then explicit
        else if derived != [] then derived
        else if point != [] && value.Some? then [Expectation(point, value.value)]
        else []
  {
    YesMeaning(env, p, "_suppress_expected_point_derivation");
    YesMeaning(env, p, "confirm_published_points");
    ReadsMeaning(env, p, "expected_point", point);
  }

  // ---- Confirmation ----

  /** The pointset shows the present value of the first point of that name. */
  ghost predicate Shows(env: Env, pointset: Value, point: Text, v: Value) {
    exists points: seq<Entry>, i ::
      && HasPoints(env, pointset, points) && 0 <= i < |points| && IsPoint(points[i], point)
      && points[i].value.Dict? && Holds(points[i].value.entries, "present_value", v)
      && forall j :: 0 <= j < i ==> !IsPoint(points[j], point)
  }

  predicate IsPoint(e: Entry, point: Text) {
    e.key.Field? && TextOf(e.key.name) == point
  }

  ghost predicate FirstShows(points: seq<Entry>, point: Text, v: Value) {
    exists i ::
      && 0 <= i < |points| && IsPoint(points[i], point)
      && points[i].value.Dict? && Holds(points[i].value.entries, "present_value", v)
      && forall j :: 0 <= j < i ==> !IsPoint(points[j], point)
  }

  lemma FirstShowsSplit(points: seq<Entry>, point: Text, v: Value)
    requires points != []
    ensures FirstShows(points, point, v) <==>
      if IsPoint(points[0], point) then
        points[0].value.Dict? && Holds(points[0].value.entries, "present_value", v)
      else FirstShows(points[1..], point, v)
  {
    var rest := points[1..];
    assert forall i :: 0 < i < |points| ==> points[i] == rest[i - 1];
    if !IsPoint(points[0], point) && FirstShows(rest, point, v) {
      var i :| 0 <= i < |rest| && IsPoint(rest[i], point) && rest[i].value.Dict?
        && Holds(rest[i].value.entries, "present_value", v) && forall j :: 0 <= j < i ==> !IsPoint(rest[j], point);
      assert points[i + 1] == rest[i];
    }
  }

  lemma {:induction false} PointValueExact(env: Env, points: seq<Entry>, point: Text, v: Value)
    ensures PointValue(env, points, point) == Some(v) <==> FirstShows(points, point, v)
  {
    if points != [] {
      FirstShowsSplit(points, point, v);
      if !IsPoint(points[0], point) {
        PointValueExact(env, points[1..], point, v);
      }
    }
  }

  /** A check sees what the pointset shows; it matches when that equals what was asked for. */
  lemma CheckExact(env: Env, pointset: Option<Value>, e: Expectation, v: Value)
    ensures CheckPoint(env, pointset, e).Success? ==>
      var check := CheckPoint(env, pointset, e).value;
      && check.expected == e
      && (check.observed == Some(v) <==> e.point != [] && pointset.Some? && Shows(env, pointset.value, e.point, v))
      && (check.matched <==> check.observed.Some? && env.same(check.observed.value, e.value))
  {
    if pointset.Some? {
      ShowsPoints(env, pointset.value, e.point, v);
      var payload := Unquoted(env, pointset.value);
      if payload.Some? && payload.value.Dict? {
        var inner := Child(payload.value, "pointset");
        if inner.Dict? && Child(inner, "points").Dict? {
          PointValueExact(env, Child(inner, "points").entries, e.point, v);
          NoPoints(env, pointset.value, Child(inner, "points").entries);
        }
      }
    }
  }

  /** A check crashes exactly when it looks for a named point in an object whose `pointset` or `points` is there but no
    * object. */
  lemma CrashExact(env: Env, pointset: Option<Value>, e: Expectation)
    ensures CheckPoint(env, pointset, e).Failure? <==>
      e.point != [] && pointset.Some? && exists payload :: IsObject(env, pointset.value, payload) && Trips(payload)
  {
    if pointset.Some? {
      var payload := Unquoted(env, pointset.value);
      if payload.Some? && payload.value.Dict? {
        assert IsObject(env, pointset.value, payload.value.entries);
      }
    }
  }

  predicate Trips(payload: seq<Entry>) {
    match Lookup(payload, "pointset")
    case None => false
    case Some(Dict(pointset)) =>
      Lookup(pointset, "points").Some? && !Lookup(pointset, "points").value.Dict?
    case _ => true
  }

  lemma ShowsPoints(env: Env, pointset: Value, point: Text, v: Value)
    ensures Shows(env, pointset, point, v) <==>
      exists points :: HasPoints(env, pointset, points) && FirstShows(points, point, v)
  {
  }

  lemma NoPoints(env: Env, pointset: Value, points: seq<Entry>)
    requires Unquoted(env, pointset).Some? && Unquoted(env, pointset).value.Dict?
    requires Child(Unquoted(env, pointset).value, "pointset").Dict?
    requires Child(Child(Unquoted(env, pointset).value, "pointset"), "points") == Dict(points)
    ensures forall other :: HasPoints(env, pointset, other) ==> other == points
    ensures points != [] ==> HasPoints(env, pointset, points)
  {
    assert IsObject(env, pointset, Unquoted(env, pointset).value.entries);
  }

  /** One issue per check that missed, saying what was expected and what was seen; the rest matched. */
  lemma {:induction false} MissesExact(checks: seq<Check>)
    ensures forall x :: x in MissIssues(checks) <==> exists c :: c in checks && MissedAs(c, x)
    ensures |MissIssues(checks)| + Matches(checks) == |checks|
  {
    if checks != [] {
      var front, last := checks[..|checks| - 1], checks[|checks| - 1];
      MissesExact(front);
      assert checks == front + [last];
      forall x ensures x in MissIssues(checks) <==> x in MissIssues(front) || MissedAs(last, x) {
      }
      assert forall c :: c in checks <==> c in front || c == last;
    }
  }

  predicate MissedAs(c: Check, x: Issue) {
    !c.matched && x == NotObserved(c.expected.point, c.expected.value, c.observed)
  }

  /** A rollback changes the payload, the topic if one was captured, and what asks for confirmation or capture; every
    * other parameter is that of the request. */
  lemma RollbackExact(p: Parameters, previous: Previous, payload: Text, key: string)
    ensures Present(RollbackParameters(p, previous, payload), key) ==
      if key == "_suppress_expected_point_derivation" then Some(Bool(true))
      else if key in {"expected_point", "expected_value", "expected_points", "previous_config_payload",
                      "previous_config"} then None
      else if key == "payload" then Some(Str(payload))
      else if key == "topic" && previous.topic != [] then Some(Str(previous.topic))
      else Present(p, key)
  {
  }

  // ---- The report ----

  /** What the expectations are derived from: the payload as JSON, or an empty object if it is none. */
  lemma PublishedExact(env: Env, p: Parameters, payload: Text)
    requires ReadsAs(env, p, "payload", payload)
    ensures Published(env, p) == if env.loads(payload).Some? then env.loads(payload).value else Dict([])
  {
    ReadsMeaning(env, p, "payload", payload);
  }

  /** A finished run succeeds exactly without an issue, was attempted exactly past the gates with a broker asked for,
    * confirms in part when some but not all of several checks matched, and lists gates, live issues and misses. */
  lemma ReportExact(env: Env, w: World, p: Parameters, retained: map<Text, Text>, report: Report)
    requires Reports(env, w, p, retained, report)
    ensures report.succeeded <==>
      && GateIssues(env, p) == [] && LiveIssues(env, w, p) == []
      && forall c :: c in report.checks ==> c.matched
    ensures report.attempted <==> AsksForBroker(env, p) && GateIssues(env, p) == []
    ensures report.partialConfirm <==>
      (exists c :: c in report.checks && c.matched) && exists c :: c in report.checks && !c.matched
    ensures report.matchedCount + |MissIssues(report.checks)| == |report.checks|
    ensures report.issues == GateIssues(env, p) + LiveIssues(env, w, p) + MissIssues(report.checks)
  {
    LiveMeaning(env, p);
    NoIssuesAtAll(GateIssues(env, p), LiveIssues(env, w, p), MissIssues(report.checks));
    NoMissesMeansAllMatched(report.checks);
    MissesExact(report.checks);
    SomeMatch(report.checks);
  }

  lemma {:induction false} SomeMatch(checks: seq<Check>)
    ensures Matches(checks) > 0 <==> exists c :: c in checks && c.matched
    ensures Matches(checks) < |checks| <==> exists c :: c in checks && !c.matched
    ensures Matches(checks) <= |checks|
  {
    if checks != [] {
      var front, last := checks[..|checks| - 1], checks[|checks| - 1];
      SomeMatch(front);
      assert checks == front + [last];
      assert forall c :: c in checks <==> c in front || c == last;
    }
  }

  /** The checks answer the run's own expectations, one by one. */
  lemma ChecksExact(env: Env, w: World, p: Parameters, retained: map<Text, Text>, report: Report, topic: Text,
                    payload: Text)
    requires Reports(env, w, p, retained, report)
    requires ReadsAs(env, p, "topic", topic) && ReadsAs(env, p, "payload", payload)
    ensures var pointset := NextPointset(env, w, p);
      var published := if env.loads(payload).Some? then env.loads(payload).value else Dict([]);
      var expected := ResolveExpected(env, p, published, pointset.Some?);
      && |report.checks| == |expected|
      && forall i :: 0 <= i < |expected| ==> CheckPoint(env, pointset, expected[i]) == Success(report.checks[i])
  {
    PublishedExact(env, p, payload);
  }
}
