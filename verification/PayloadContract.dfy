/** The payload contract written out, with its projection and its IP part, and that normalising enforces exactly it. */
module PayloadContract {
  import opened Wrappers
  import opened Bytes
  import opened Values
  import opened PublicFields
  import opened PayloadNormaliser
  import opened RecordContract
  import opened IpContract

  // ---- Projections ----

  predicate Names(v: Value, c: Collection) {
    v == Str(Ascii(match c
      case Summary => "summary"
      case Issues => "issues"
      case Devices => "devices"
      case Points => "points"
      case Topics => "topics"))
  }

  predicate PositionIs(rules: Rules, given: Option<Value>, position: int) {
    && 0 <= position <= 50_000
    && match given
       case None => position == 0
       case Some(Int(i)) => position == i
       case Some(v) => rules.laxInt(v) == Some(position)
  }

  predicate PresenceIs(rules: Rules, given: Option<Value>, present: bool) {
    match given
    case None => present
    case Some(Bool(b)) => present == b
    case Some(v) => rules.laxBool(v) == Some(present)
  }

  /** The record as given: none, an object of named fields, or what pydantic makes of another value. */
  predicate RecordGiven(rules: Rules, given: Option<Value>, entries: Option<seq<Entry>>) {
    match given
    case None => entries.None?
    case Some(Null) => entries.None?
    case Some(v) =>
      && entries.Some?
      && if v.Dict? && forall e :: e in v.entries ==> e.key.Field? then entries.value == v.entries
         else rules.laxRecord(v) == entries
  }

  /** A present projection has a record its collection accepts; an absent one has none. */
  ghost predicate RecordIs(rules: Rules, c: Collection, present: bool, given: Option<seq<Entry>>,
                           record: Option<seq<Entry>>) {
    if present then given.Some? && RecordOk(rules, c, given.value) && record == Some(ListedEntries(given.value))
    else (given.None? || given.value == []) && record.None?
  }

  ghost predicate ProjectionFieldsOnly(entries: seq<Entry>) {
    forall e :: e in entries ==> e.key.Field? && e.key.name in {"collection", "position", "present", "record"}
  }

  ghost predicate ProjectionIs(rules: Rules, v: Value, p: Projection) {
    && v.Dict? && ProjectionFieldsOnly(v.entries)
    && Lookup(v.entries, "collection").Some? && Names(Lookup(v.entries, "collection").value, p.collection)
    && PositionIs(rules, Lookup(v.entries, "position"), p.position)
    && PresenceIs(rules, Lookup(v.entries, "present"), p.present)
    && exists given ::
      && RecordGiven(rules, Lookup(v.entries, "record"), given)
      && RecordIs(rules, p.collection, p.present, given, p.record)
  }

  lemma NamesMeaning(v: Value, c: Collection)
    ensures Names(v, c) <==> v.Str? && CollectionOf(v.t) == Some(c)
  {
    CollectionRoundTrip(c);
  }

  lemma PositionMeaning(rules: Rules, given: Option<Value>, position: int)
    ensures Position(rules, given) == Some(position) <==> PositionIs(rules, given, position)
  {
  }

  lemma PresenceMeaning(rules: Rules, given: Option<Value>, present: bool)
    ensures Present(rules, given) == Some(present) <==> PresenceIs(rules, given, present)
  {
  }

  lemma GivenMeaning(rules: Rules, field: Option<Value>, entries: Option<seq<Entry>>)
    ensures SuppliedRecord(rules, field) == Some(entries) <==> RecordGiven(rules, field, entries)
  {
  }

  lemma ProjectionExact(rules: Rules, v: Value, p: Projection)
    ensures ValidateProjection(rules, v) == Some(p) <==> ProjectionIs(rules, v, p)
  {
    if v.Dict? && Lookup(v.entries, "collection").Some? {
      NamesMeaning(Lookup(v.entries, "collection").value, p.collection);
      PositionMeaning(rules, Lookup(v.entries, "position"), p.position);
      PresenceMeaning(rules, Lookup(v.entries, "present"), p.present);
      var supplied := SuppliedRecord(rules, Lookup(v.entries, "record"));
      forall given ensures supplied == Some(given) <==> RecordGiven(rules, Lookup(v.entries, "record"), given) {
        GivenMeaning(rules, Lookup(v.entries, "record"), given);
      }
      if supplied.Some? && supplied.value.Some? {
        RecordExact(rules, p.collection, supplied.value.value);
      }
    }
  }

  // ---- Fields of the payload ----

  predicate MeasureOk(v: Value) {
    (v.Int? && 0 <= v.i < FLOAT_OVERFLOW) || (v.Number? && v.f.Finite? && v.f.value >= 0.0)
  }

  predicate EvidenceIdOk(rules: Rules, v: Value) {
    TextOk(rules, v, 255) && rules.opaqueReference(v.t)
  }

  /** Every field but the projection and the IP part. */
  ghost predicate PlainFieldOk(rules: Rules, name: string, v: Value) {
    if name in {"accepted", "duplicate", "late", "reachable", "responded"} then v.Bool?
    else if name in {"attempts", "device_instance", "port", "response_count"} then CountOk(v)
    else if name in {"elapsed_ms", "response_ms"} then MeasureOk(v)
    else if name in {"stderr_evidence_id", "xml_artifact_id"} then EvidenceIdOk(rules, v)
    else if name == "value" then NestedOk(rules, v, 1, 60_000)
    else name in PAYLOAD_TEXTS && TextOk(rules, v, 4096)
  }

  const PAYLOAD_TEXTS := {
    "address", "diagnostic_text", "lane", "object_identifier", "property_name", "reason", "state", "transport", "units"}

  /** What a projection is stored as: its collection, then whatever is not the default. */
  predicate DumpIs(p: Projection, w: Value) {
    && w.Dict? && w.entries != [] && w.entries[0].key == Field("collection") && Names(w.entries[0].value, p.collection)
    && w.entries[1..] ==
       (if p.position == 0 then [] else [Entry(Field("position"), Int(p.position))])
       + (if p.present then [] else [Entry(Field("present"), Bool(false))])
       + (if p.record.None? then [] else [Entry(Field("record"), Dict(p.record.value))])
  }

  ghost predicate PayloadFieldIs(rules: Rules, name: string, v: Value, w: Value) {
    if name == "ip_v1" then IpIs(rules, v, w)
    else if name == "projection_v1" then exists p :: ProjectionIs(rules, v, p) && DumpIs(p, w)
    else PlainFieldOk(rules, name, v) && w == Listed(v)
  }

  ghost predicate PayloadIs(rules: Rules, v: Value, w: Value) {
    && v.Dict? && w.Dict? && |w.entries| == |v.entries|
    && forall i :: 0 <= i < |v.entries| ==>
      && v.entries[i].key.Field? && w.entries[i].key == v.entries[i].key
      && PayloadFieldIs(rules, v.entries[i].key.name, v.entries[i].value, w.entries[i].value)
  }

  lemma DumpMeaning(p: Projection, w: Value)
    ensures w == Dump(p) <==> DumpIs(p, w)
  {
    var position: Option<Value> := if p.position == 0 then None else Some(Int(p.position));
    var present: Option<Value> := if p.present then None else Some(Bool(false));
    var record: Option<Value> := if p.record.None? then None else Some(Dict(p.record.value));
    var tail := Optionally("position", position) + (Optionally("present", present) + Optionally("record", record));
    var head := Entry(Field("collection"), Str(Ascii(CollectionName(p.collection))));
    assert Dump(p) == Dict([head] + tail) && ([head] + tail)[1..] == tail;
    assert tail == Optionally("position", position) + Optionally("present", present) + Optionally("record", record);
    if DumpIs(p, w) {
      assert w.entries == [w.entries[0]] + w.entries[1..];
    }
  }

  lemma PayloadNames(name: string)
    ensures name in PAYLOAD_FIELDS <==>
      || name in {"ip_v1", "projection_v1", "value"} || name in PAYLOAD_TEXTS
      || name in {"accepted", "duplicate", "late", "reachable", "responded"}
      || name in {"attempts", "device_instance", "port", "response_count"}
      || name in {"elapsed_ms", "response_ms"} || name in {"stderr_evidence_id", "xml_artifact_id"}
  {
  }

  lemma PlainField(rules: Rules, name: string, v: Value)
    requires name != "ip_v1" && name != "projection_v1"
    ensures PlainRule(rules, name, v, PayloadField(rules, PayloadKind(name), v))
  {
    PublicKindIs(rules, v, 1, 60_000);
  }

  lemma PlainFieldNames(rules: Rules, name: string, v: Value)
    requires name != "ip_v1" && name != "projection_v1"
    ensures PlainFieldOk(rules, name, v) ==> name in PAYLOAD_FIELDS
  {
    PayloadNames(name);
  }

  predicate IsPlainName(name: string) {
    || name in PAYLOAD_TEXTS || name in {"accepted", "duplicate", "late", "reachable", "responded"}
    || name in {"attempts", "device_instance", "port", "response_count"} || name == "value"
    || name in {"elapsed_ms", "response_ms"} || name in {"stderr_evidence_id", "xml_artifact_id"}
  }

  lemma PlainNames(name: string)
    requires name in PAYLOAD_FIELDS && name != "ip_v1" && name != "projection_v1"
    ensures IsPlainName(name)
  {
    PayloadNames(name);
  }

  lemma ReferenceExact(rules: Rules, v: Value)
    ensures Enforces(Reference(rules, v, 255), EvidenceIdOk(rules, v), v)
  {
    TextExact(rules, v, 255);
  }

  lemma MeasureExact(v: Value)
    ensures Enforces(NonNegativeNumber(v), MeasureOk(v), v)
  {
  }

  /** The rule a plain field falls under. */
  ghost predicate PlainRule(rules: Rules, name: string, v: Value, result: Option<Value>) {
    if name in {"accepted", "duplicate", "late", "reachable", "responded"} then result == BoolField(v)
    else if name in {"attempts", "device_instance", "port", "response_count"} then result == IntField(v, 0)
    else if name in {"elapsed_ms", "response_ms"} then result == NonNegativeNumber(v)
    else if name in {"stderr_evidence_id", "xml_artifact_id"} then result == Reference(rules, v, 255)
    else if name == "value" then result == PublicValue(rules, v, 1, 60_000)
    else result == PublicString(rules, v, 4096)
  }

  lemma PlainRuleExact(rules: Rules, name: string, v: Value, result: Option<Value>)
    requires IsPlainName(name) && PlainRule(rules, name, v, result)
    ensures Enforces(result, PlainFieldOk(rules, name, v), v)
  {
    MeasureExact(v);
    ReferenceExact(rules, v);
    NestedExact(rules, v, 1, 60_000);
    TextExact(rules, v, 4096);
  }

  lemma PlainFieldExact(rules: Rules, name: string, v: Value)
    requires IsPlainName(name) && name != "ip_v1" && name != "projection_v1"
    ensures Enforces(PayloadField(rules, PayloadKind(name), v), PlainFieldOk(rules, name, v), v)
  {
    PlainField(rules, name, v);
    PlainRuleExact(rules, name, v, PayloadField(rules, PayloadKind(name), v));
  }

  lemma ProjectionFieldExact(rules: Rules, v: Value, w: Value)
    ensures PayloadField(rules, PayloadKind("projection_v1"), v) == Some(w) <==>
      exists p :: ProjectionIs(rules, v, p) && DumpIs(p, w)
  {
    assert PayloadKind("projection_v1") == Projected;
    var projection := ValidateProjection(rules, v);
    forall p ensures projection == Some(p) <==> ProjectionIs(rules, v, p) {
      ProjectionExact(rules, v, p);
    }
    if projection.Some? {
      DumpMeaning(projection.value, w);
    }
  }

  lemma PayloadFieldExact(rules: Rules, name: string, v: Value, w: Value)
    ensures name in PAYLOAD_FIELDS && PayloadField(rules, PayloadKind(name), v) == Some(w)
       <==> PayloadFieldIs(rules, name, v, w)
  {
    if name == "ip_v1" {
      IpExact(rules, v, w);
    } else if name == "projection_v1" {
      ProjectionFieldExact(rules, v, w);
    } else {
      PlainFieldNames(rules, name, v);
      if name in PAYLOAD_FIELDS {
        PlainNames(name);
        PlainFieldExact(rules, name, v);
      }
    }
  }

  /** A payload is accepted, and comes out as `w`, exactly when every field is one the contract names, passes its test,
    * and comes out as the contract says. */
  lemma PayloadExact(rules: Rules, v: Value, w: Value)
    ensures NormalizePayload(rules, v) == Some(w) <==> PayloadIs(rules, v, w)
  {
    if v.Dict? && w.Dict? && |w.entries| == |v.entries| {
      var es, ws := v.entries, w.entries;
      forall i | 0 <= i < |es| && es[i].key.Field?
        ensures es[i].key.name in PAYLOAD_FIELDS
             && PayloadTable(rules)(es[i].key.name, es[i].value) == Some(ws[i].value)
           <==> PayloadFieldIs(rules, es[i].key.name, es[i].value, ws[i].value)
      {
        PayloadFieldExact(rules, es[i].key.name, es[i].value, ws[i].value);
      }
      FieldsAre(PAYLOAD_FIELDS, PayloadTable(rules), es, ws);
    }
  }

  lemma FieldsAre(allowed: set<string>, f: Normaliser, es: seq<Entry>, ws: seq<Entry>)
    requires |es| == |ws|
    ensures Fields(allowed, f, es) == Some(ws) <==> forall i :: 0 <= i < |es| ==>
      && es[i].key.Field? && ws[i].key == es[i].key
      && es[i].key.name in allowed && f(es[i].key.name, es[i].value) == Some(ws[i].value)
  {
    var r := Fields(allowed, f, es);
    if forall i :: 0 <= i < |es| ==>
      && es[i].key.Field? && ws[i].key == es[i].key
      && es[i].key.name in allowed && f(es[i].key.name, es[i].value) == Some(ws[i].value)
    {
      assert forall i :: 0 <= i < |es| ==> FieldPasses(allowed, f, es[i]);
      assert r.value == ws;
    }
  }

  /** What is stored for a payload: its normal form escaped, within the byte limit, with the digest of its encoding. */
  lemma StoredExact(rules: Rules, sha: Hash, dumps: Value -> bytes, v: Value, stored: Value, digest: string)
    ensures ObservationPayload(rules, sha, dumps, v) == Some((stored, digest)) <==>
      && (exists w :: PayloadIs(rules, v, w) && stored == JsonSafe(w))
      && |dumps(JsonSafe(stored))| <= 65_536 && digest == HexDigest(sha(dumps(JsonSafe(stored))))
  {
    var normalized := NormalizePayload(rules, v);
    forall w ensures normalized == Some(w) <==> PayloadIs(rules, v, w) {
      PayloadExact(rules, v, w);
    }
  }

  // ---- The bound on an integer that stands for a float ----

  function Power2(n: nat): (r: int)
    ensures r > 0
  {
    if n == 0 then 1 else 2 * Power2(n - 1)
  }

  lemma {:induction false} PowerSum(a: nat, b: nat)
    ensures Power2(a + b) == Power2(a) * Power2(b)
  {
    if a > 0 {
      PowerSum(a - 1, b);
    }
  }

  lemma PowerOf16()
    ensures Power2(16) == 65_536
  {
    assert Power2(4) == 16;
    PowerSum(4, 4);
    PowerSum(8, 8);
  }

  lemma PowersTo64()
    ensures Power2(32) == 0x1_0000_0000 && Power2(64) == 0x1_0000_0000_0000_0000
  {
    PowerOf16();
    PowerSum(16, 16);
    PowerSum(32, 32);
  }

  lemma PowerOf128()
    ensures Power2(128) == TWO_TO_THE_128
  {
    PowersTo64();
    PowerSum(64, 64);
  }

  lemma PowerOf256()
    ensures Power2(256) == TWO_TO_THE_128 * TWO_TO_THE_128
  {
    PowerOf128();
    PowerSum(128, 128);
  }

  lemma PowerOf512()
    ensures Power2(512) == TWO_TO_THE_128 * TWO_TO_THE_128 * TWO_TO_THE_128 * TWO_TO_THE_128
  {
    PowerOf256();
    PowerSum(256, 256);
  }

  lemma PowerOf896()
    ensures Power2(896) == TWO_TO_THE_128 * TWO_TO_THE_128 * TWO_TO_THE_128 * TWO_TO_THE_128
      * TWO_TO_THE_128 * TWO_TO_THE_128 * TWO_TO_THE_128
  {
    PowerOf512();
    PowerOf256();
    PowerOf128();
    PowerSum(512, 256);
    PowerSum(768, 128);
  }

  lemma PowerOf74()
    ensures Power2(74) == 0x400_0000_0000_0000_0000
  {
    PowersTo64();
    assert Power2(10) == 1024;
    PowerSum(64, 10);
  }

  lemma PowerOf54()
    ensures Power2(54) == 0x40_0000_0000_0000
  {
    PowersTo64();
    assert Power2(10) == 1024;
    PowerSum(54, 10);
  }

  /** The least integer no float can stand for: halfway from the largest float to the next power of two. */
  lemma FloatLimit()
    ensures FLOAT_OVERFLOW == Power2(1024) - Power2(970)
  {
    PowerOf896();
    PowerOf74();
    PowerOf54();
    PowerSum(896, 74);
    PowerSum(970, 54);
  }
}
