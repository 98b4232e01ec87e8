/** The viewer-safe payload contract of discovery_observations.py. `None` stands for ValueError or OverflowError. */
module PayloadNormaliser {
  import opened Wrappers
  import opened Bytes
  import opened Values
  import opened PublicFields
  import opened IpEvidence

  // ---- Projected records ----

  const DEVICE_FIELDS := {"project_id", "site_id", "address", "device_type", "name", "vendor", "model", "attributes"}
  const POINT_FIELDS := {"device_ref", "point_id", "point_name", "observed_value", "units", "attributes"}
  const TOPIC_FIELDS := {"topic", "last_payload", "message_count", "attributes"}
  const ISSUE_FIELDS := {
    "issue_id", "asset_id", "issue_type", "severity", "description", "status", "point_name", "topic",
    "expected_value", "observed_value", "match_basis", "suggested_action", "raw_evidence_uri",
    "status_detail", "last_seen_at"}
  const SUMMARY_FIELDS := {
    "backend", "bacnet_mode", "bbmd_address", "device_count", "device_instance_high", "device_instance_low",
    "discovered_devices", "expected_device_count", "expected_responding_count", "forbidden_ports",
    "hosts_responsive", "hosts_scanned", "hosts_with_forbidden_open", "hosts_with_hostname_mismatch",
    "hosts_with_missing_expected", "hosts_with_unexpected_open", "point_count", "ports_scanned",
    "reachable", "unicast_fallback_attempted"}
  const ATTRIBUTE_FIELDS := {
    "asset_id", "device_instance", "duplicate_instance", "expected_hostname", "expected_network",
    "expected_ports", "forbidden_open_ports", "forbidden_ports", "heard_not_enriched", "hostname", "lane",
    "mac", "mac_address", "marker", "missing_expected_ports", "object_type", "objects",
    "object_list_read_failed", "observed_ports", "online", "open", "open_ports", "position",
    "point_reads_aborted", "point_reads_truncated", "property_error", "qos", "reachable", "read_error",
    "register_address", "register_asset_id", "register_asset_name", "register_match",
    "register_matched_filter", "register_ports_not_probed", "responded", "response_ms",
    "scanned_port_count", "scanned_ports", "tampered", "unexpected_open_ports", "vendor_id"}
  const PORT_FIELDS := {
    "open_ports", "scanned_ports", "expected_ports", "forbidden_ports", "forbidden_open_ports",
    "unexpected_open_ports", "missing_expected_ports", "register_ports_not_probed"}

  // ---- Field kinds: one contract per row of the field tables ----

  datatype Kind =
    | Flag
    | Integer(minimum: int)
    | Measure
    | Line(limit: nat)
    | OptionalLine(limit: nat)
    | EvidenceReference(limit: nat)
    | OptionalReference(limit: nat)
    | Public(depth: nat, limit: nat)
    | Ports
    | Counts(fields: set<string>)
    | Attributes
    | NestedPublic(fields: set<string>)
    | Ip
    | Projected

  function CountNormaliser(): Normaliser {
    (key, v) => IntField(v, 0)
  }

  function KeySet(entries: seq<Entry>): set<Key> {
    set e | e in entries :: e.key
  }

  function CountRecord(fields: set<string>, v: Value): Option<Value> {
    var normalized := Object(fields, CountNormaliser(), v);
    if normalized.Some? && KeySet(v.entries) == (set name | name in fields :: Field(name)) then normalized else None
  }

  /** The kinds without fields of their own; the other kinds never reach it. */
  function Leaf(rules: Rules, kind: Kind, v: Value): Option<Value> {
    match kind
    case Flag => BoolField(v)
    case Integer(minimum) => IntField(v, minimum)
    case Measure => NonNegativeNumber(v)
    case Line(limit) => PublicString(rules, v, limit)
    case OptionalLine(limit) => OptionalPublicString(rules, v, limit)
    case EvidenceReference(limit) => Reference(rules, v, limit)
    case OptionalReference(limit) => if v.Null? then Some(v) else Reference(rules, v, limit)
    case Public(depth, limit) => PublicValue(rules, v, depth, limit)
    case Ports => PortSequence(v)
    case Counts(fields) => CountRecord(fields, v)
    case _ => None
  }

  function LeafTable(rules: Rules, kinds: string -> Kind): Normaliser {
    (key, v) => Leaf(rules, kinds(key), v)
  }

  function RecordField(rules: Rules, kind: Kind, v: Value): Option<Value> {
    match kind
    case Attributes => Object(ATTRIBUTE_FIELDS, LeafTable(rules, AttributeKind), v)
    case NestedPublic(fields) => Object(fields, LeafTable(rules, NestedKind), v)
    case _ => Leaf(rules, kind, v)
  }

  function RecordTable(rules: Rules, kinds: string -> Kind): Normaliser {
    (key, v) => RecordField(rules, kinds(key), v)
  }

  function AttributeKind(key: string): Kind {
    if key in {"heard_not_enriched", "object_list_read_failed"} then Flag
    else if key == "point_reads_aborted" then Counts({"after_consecutive_failures", "points_not_attempted"})
    else if key == "point_reads_truncated" then Counts({"points_not_attempted"})
    else if key in PORT_FIELDS then Ports
    else Public(2, MAX_STRING_CHARS)
  }

  function NestedKind(key: string): Kind {
    Public(2, MAX_STRING_CHARS)
  }

  function DeviceKind(key: string): Kind {
    if key == "attributes" then Attributes else OptionalLine(255)
  }

  function PointKind(key: string): Kind {
    if key == "attributes" then Attributes
    else if key == "observed_value" then NestedPublic({"in_alarm", "present_value", "value"})
    else OptionalLine(255)
  }

  function TopicKind(key: string): Kind {
    if key == "attributes" then Attributes
    else if key == "last_payload" then NestedPublic({"_raw_present", "_value"})
    else if key == "message_count" then Integer(0)
    else Line(2_048)
  }

  function IssueKind(key: string): Kind {
    if key == "raw_evidence_uri" then OptionalReference(MAX_STRING_CHARS) else OptionalLine(MAX_STRING_CHARS)
  }

  function SummaryKind(key: string): Kind {
    Public(1, MAX_STRING_CHARS)
  }

  datatype Collection = Summary | Issues | Devices | Points | Topics

  function Record(rules: Rules, collection: Collection, entries: seq<Entry>): Option<seq<Entry>> {
    match collection
    case Devices => Fields(DEVICE_FIELDS, RecordTable(rules, DeviceKind), entries)
    case Points => Fields(POINT_FIELDS, RecordTable(rules, PointKind), entries)
    case Topics => Fields(TOPIC_FIELDS, RecordTable(rules, TopicKind), entries)
    case Issues => Fields(ISSUE_FIELDS, RecordTable(rules, IssueKind), entries)
    case Summary => Fields(SUMMARY_FIELDS, RecordTable(rules, SummaryKind), entries)
  }

  lemma CountRecordSettled(fields: set<string>, v: Value)
    requires CountRecord(fields, v).Some?
    ensures var w := CountRecord(fields, v).value;
      && Plain(w)
      && CountRecord(fields, w) == Some(w)
      && (CountRecord(fields, JsonSafe(w)).Some? ==> CountRecord(fields, JsonSafe(w)) == Some(JsonSafe(w)))
  {
    CountsSettle();
    ObjectSettled(fields, CountNormaliser(), v);
    SameKeys(v.entries, CountRecord(fields, v).value.entries);
  }

  lemma CountsSettle()
    ensures Settled(CountNormaliser())
  {
  }

  lemma SameKeys(a: seq<Entry>, b: seq<Entry>)
    requires |a| == |b| && forall i :: 0 <= i < |a| ==> a[i].key == b[i].key
    ensures KeySet(a) == KeySet(b)
  {
    forall k ensures k in KeySet(a) <==> k in KeySet(b) {
      if k in KeySet(a) {
        var i :| 0 <= i < |a| && a[i].key == k;
        assert b[i] in b;
      }
      if k in KeySet(b) {
        var i :| 0 <= i < |b| && b[i].key == k;
        assert a[i] in a;
      }
    }
  }

  lemma PortSequenceSettled(v: Value)
    requires PortSequence(v).Some?
    ensures var w := PortSequence(v).value;
      Plain(w) && PortSequence(w) == Some(w) && JsonSafe(w) == w
  {
    var w := PortSequence(v).value;
    PortSequenceAccepts(v);
    PortSequenceAccepts(w);
    if w.List? {
      assert forall x :: x in w.items ==> x.Int?;
      assert JsonSafeItems(w.items) == w.items;
    }
  }

  lemma LeafSettled(rules: Rules, kind: Kind, v: Value)
    requires Leaf(rules, kind, v).Some?
    ensures var w := Leaf(rules, kind, v).value;
      && Plain(w)
      && Leaf(rules, kind, w) == Some(w)
      && (Leaf(rules, kind, JsonSafe(w)).Some? ==> Leaf(rules, kind, JsonSafe(w)) == Some(JsonSafe(w)))
  {
    match kind
    case Public(depth, limit) => PublicValueSettled(rules, v, depth, limit);
    case Ports => PortSequenceSettled(v);
    case Counts(fields) => CountRecordSettled(fields, v);
    case _ =>
  }

  lemma LeafTableSettled(rules: Rules, kinds: string -> Kind)
    ensures Settled(LeafTable(rules, kinds))
  {
    forall key, v ensures SettledAt(LeafTable(rules, kinds), key, v) {
      if Leaf(rules, kinds(key), v).Some? {
        LeafSettled(rules, kinds(key), v);
      }
    }
  }

  lemma RecordFieldSettled(rules: Rules, kind: Kind, v: Value)
    requires RecordField(rules, kind, v).Some?
    ensures var w := RecordField(rules, kind, v).value;
      && Plain(w)
      && RecordField(rules, kind, w) == Some(w)
      && (RecordField(rules, kind, JsonSafe(w)).Some? ==> RecordField(rules, kind, JsonSafe(w)) == Some(JsonSafe(w)))
  {
    match kind
    case Attributes =>
      LeafTableSettled(rules, AttributeKind);
      ObjectSettled(ATTRIBUTE_FIELDS, LeafTable(rules, AttributeKind), v);
    case NestedPublic(fields) =>
      LeafTableSettled(rules, NestedKind);
      ObjectSettled(fields, LeafTable(rules, NestedKind), v);
    case _ => LeafSettled(rules, kind, v);
  }

  lemma RecordTableSettled(rules: Rules, kinds: string -> Kind)
    ensures Settled(RecordTable(rules, kinds))
  {
    forall key, v ensures SettledAt(RecordTable(rules, kinds), key, v) {
      if RecordField(rules, kinds(key), v).Some? {
        RecordFieldSettled(rules, kinds(key), v);
      }
    }
  }

  lemma RecordSettled(rules: Rules, collection: Collection, entries: seq<Entry>)
    requires Record(rules, collection, entries).Some?
    ensures var w := Record(rules, collection, entries).value;
      && Plain(Dict(w))
      && Record(rules, collection, w) == Some(w)
      && (Record(rules, collection, JsonSafeEntries(w)).Some?
          ==> Record(rules, collection, JsonSafeEntries(w)) == Some(JsonSafeEntries(w)))
  {
    match collection
    case Devices =>
      RecordTableSettled(rules, DeviceKind);
      FieldsSettled(DEVICE_FIELDS, RecordTable(rules, DeviceKind), entries);
    case Points =>
      RecordTableSettled(rules, PointKind);
      FieldsSettled(POINT_FIELDS, RecordTable(rules, PointKind), entries);
    case Topics =>
      RecordTableSettled(rules, TopicKind);
      FieldsSettled(TOPIC_FIELDS, RecordTable(rules, TopicKind), entries);
    case Issues =>
      RecordTableSettled(rules, IssueKind);
      FieldsSettled(ISSUE_FIELDS, RecordTable(rules, IssueKind), entries);
    case Summary =>
      RecordTableSettled(rules, SummaryKind);
      FieldsSettled(SUMMARY_FIELDS, RecordTable(rules, SummaryKind), entries);
  }

  // ---- DiscoveryProjectionV1 ----

  const MAX_POSITION := 50_000
  const PROJECTION_FIELDS := {"collection", "position", "present", "record"}

  datatype Projection = Projection(collection: Collection, position: int, present: bool, record: Option<seq<Entry>>)

  function CollectionName(c: Collection): string {
    match c
    case Summary => "summary"
    case Issues => "issues"
    case Devices => "devices"
    case Points => "points"
    case Topics => "topics"
  }

  function CollectionOf(t: Text): Option<Collection> {
    if t == Ascii("summary") then Some(Summary)
    else if t == Ascii("issues") then Some(Issues)
    else if t == Ascii("devices") then Some(Devices)
    else if t == Ascii("points") then Some(Points)
    else if t == Ascii("topics") then Some(Topics)
    else None
  }

  function Position(rules: Rules, field: Option<Value>): Option<int> {
    match field
    case None => Some(0)
    case Some(v) =>
      var n := if v.Int? then Some(v.i) else rules.laxInt(v);
      if n.Some? && 0 <= n.value <= MAX_POSITION then n else None
  }

  function Present(rules: Rules, field: Option<Value>): Option<bool> {
    match field
    case None => Some(true)
    case Some(v) => if v.Bool? then Some(v.b) else rules.laxBool(v)
  }

  /** The record as supplied: absent, or a string-keyed mapping; the outer option is the type check. */
  function SuppliedRecord(rules: Rules, field: Option<Value>): Option<Option<seq<Entry>>> {
    match field
    case None => Some(None)
    case Some(Null) => Some(None)
    case Some(v) =>
      if v.Dict? && forall e :: e in v.entries ==> e.key.Field? then Some(Some(v.entries))
      else
        var coerced := rules.laxRecord(v);
        if coerced.None? then None else Some(coerced)
  }

  function ValidateProjection(rules: Rules, v: Value): Option<Projection> {
    if !v.Dict? || exists e :: e in v.entries && !(e.key.Field? && e.key.name in PROJECTION_FIELDS) then None
    else
      var name := Lookup(v.entries, "collection");
      var collection := if name.Some? && name.value.Str? then CollectionOf(name.value.t) else None;
      var position := Position(rules, Lookup(v.entries, "position"));
      var present := Present(rules, Lookup(v.entries, "present"));
      var supplied := SuppliedRecord(rules, Lookup(v.entries, "record"));
      if collection.None? || position.None? || present.None? || supplied.None? then None
      else if !present.value then
        if supplied.value in {None, Some([])}
          then Some(Projection(collection.value, position.value, false, None)) else None
      else if supplied.value.None? then None
      else
        var record := Record(rules, collection.value, supplied.value.value);
        if record.None? then None
        else Some(Projection(collection.value, position.value, true, record))
  }

  function Optionally(name: string, v: Option<Value>): seq<Entry> {
    if v.None? then [] else [Entry(Field(name), v.value)]
  }

  function DumpEntries(collection: Value, position: Option<Value>, present: Option<Value>,
                       record: Option<Value>): seq<Entry> {
    [Entry(Field("collection"), collection)]
    + (Optionally("position", position) + (Optionally("present", present) + Optionally("record", record)))
  }

  /** `model_dump(exclude_none=True, exclude_defaults=True)` */
  function Dump(p: Projection): Value {
    Dict(DumpEntries(
      Str(Ascii(CollectionName(p.collection))),
      if p.position == 0 then None else Some(Int(p.position)),
      if p.present then None else Some(Bool(false)),
      if p.record.None? then None else Some(Dict(p.record.value))))
  }

  lemma NamesDiffer(a: string, b: string)
    requires |a| != |b| || (a != "" && a[0] as int % 128 != b[0] as int % 128)
    ensures Ascii(a) != Ascii(b)
  {
    if |a| == |b| {
      assert Ascii(a)[0] != Ascii(b)[0];
    }
  }

  lemma DevicesAndPointsRead()
    ensures CollectionOf(Ascii("devices")) == Some(Devices) && CollectionOf(Ascii("points")) == Some(Points)
  {
    NamesDiffer("devices", "summary");
    NamesDiffer("devices", "issues");
    NamesDiffer("points", "summary");
    NamesDiffer("points", "issues");
    NamesDiffer("points", "devices");
  }

  lemma TopicsRead()
    ensures CollectionOf(Ascii("topics")) == Some(Topics)
  {
    NamesDiffer("topics", "summary");
    NamesDiffer("topics", "issues");
    NamesDiffer("topics", "devices");
    NamesDiffer("topics", "points");
  }

  lemma CollectionRoundTrip(c: Collection)
    ensures CollectionOf(Ascii(CollectionName(c))) == Some(c)
    ensures UnicodeSafe(Ascii(CollectionName(c))) == Ascii(CollectionName(c))
  {
    UnicodeSafeIdentity(Ascii(CollectionName(c)));
    match c
    case Summary =>
    case Issues => NamesDiffer("issues", "summary");
    case Topics => TopicsRead();
    case _ => DevicesAndPointsRead();
  }

  ghost predicate ValidProjection(rules: Rules, p: Projection) {
    && 0 <= p.position <= MAX_POSITION
    && (p.present <==> p.record.Some?)
    && (p.record.Some? ==> Record(rules, p.collection, p.record.value) == p.record)
    && (p.record.Some? ==> forall e :: e in p.record.value ==> e.key.Field?)
  }

  lemma DumpLookups(collection: Value, position: Option<Value>, present: Option<Value>, record: Option<Value>)
    ensures var entries := DumpEntries(collection, position, present, record);
      && Lookup(entries, "collection") == Some(collection)
      && Lookup(entries, "position") == position
      && Lookup(entries, "present") == present
      && Lookup(entries, "record") == record
      && forall e :: e in entries ==> e.key.Field? && e.key.name in PROJECTION_FIELDS
  {
    var c, d, e := Optionally("position", position), Optionally("present", present), Optionally("record", record);
    var head := [Entry(Field("collection"), collection)];
    forall name: string
      ensures Lookup(head + (c + (d + e)), name)
           == if name == "collection" then Some(collection)
              else if name == "position" then position
              else if name == "present" then present
              else if name == "record" then record else None
    {
      LookupConcat(head, c + (d + e), name);
      LookupConcat(c, d + e, name);
      LookupConcat(d, e, name);
    }
  }

  /** Each field of a dumped projection reads back as the field it came from. */
  lemma DumpFields(rules: Rules, p: Projection)
    requires 0 <= p.position <= MAX_POSITION
    requires p.record.Some? ==> forall e :: e in p.record.value ==> e.key.Field?
    ensures var entries := Dump(p).entries;
      && Lookup(entries, "collection") == Some(Str(Ascii(CollectionName(p.collection))))
      && Position(rules, Lookup(entries, "position")) == Some(p.position)
      && Present(rules, Lookup(entries, "present")) == Some(p.present)
      && SuppliedRecord(rules, Lookup(entries, "record")) == Some(p.record)
      && forall e :: e in entries ==> e.key.Field? && e.key.name in PROJECTION_FIELDS
  {
    DumpLookups(
      Str(Ascii(CollectionName(p.collection))),
      if p.position == 0 then None else Some(Int(p.position)),
      if p.present then None else Some(Bool(false)),
      if p.record.None? then None else Some(Dict(p.record.value)));
  }

  /** A dumped projection validates back to the same projection. */
  lemma DumpRoundTrip(rules: Rules, p: Projection)
    requires ValidProjection(rules, p)
    ensures ValidateProjection(rules, Dump(p)) == Some(p)
  {
    DumpFields(rules, p);
    CollectionRoundTrip(p.collection);
  }

  lemma ValidatedIsValid(rules: Rules, v: Value)
    requires ValidateProjection(rules, v).Some?
    ensures ValidProjection(rules, ValidateProjection(rules, v).value)
    ensures Plain(Dump(ValidateProjection(rules, v).value))
  {
    var p := ValidateProjection(rules, v).value;
    if p.record.Some? {
      var supplied := SuppliedRecord(rules, Lookup(v.entries, "record")).value.value;
      RecordSettled(rules, p.collection, supplied);
      assert Record(rules, p.collection, supplied) == p.record;
    }
  }

  /** The projection with its record's texts escaped. */
  function Escaped(p: Projection): Projection {
    if p.record.None? then p else p.(record := Some(JsonSafeEntries(p.record.value)))
  }

  function EscapeOption(v: Option<Value>): Option<Value> {
    if v.None? then None else Some(JsonSafe(v.value))
  }

  lemma DumpEntriesEscaped(collection: Value, position: Option<Value>, present: Option<Value>, record: Option<Value>)
    ensures JsonSafeEntries(DumpEntries(collection, position, present, record))
         == DumpEntries(JsonSafe(collection), EscapeOption(position), EscapeOption(present), EscapeOption(record))
  {
    var head := [Entry(Field("collection"), collection)];
    var c, d, e := Optionally("position", position), Optionally("present", present), Optionally("record", record);
    JsonSafeSingle(head[0]);
    JsonSafeConcat(head, c + (d + e));
    JsonSafeConcat(c, d + e);
    JsonSafeConcat(d, e);
    OptionallyEscaped("position", position);
    OptionallyEscaped("present", present);
    OptionallyEscaped("record", record);
  }

  lemma DumpEscaped(p: Projection)
    ensures JsonSafe(Dump(p)) == Dump(Escaped(p))
  {
    var name := Str(Ascii(CollectionName(p.collection)));
    var position: Option<Value> := if p.position == 0 then None else Some(Int(p.position));
    var present: Option<Value> := if p.present then None else Some(Bool(false));
    var record: Option<Value> := if p.record.None? then None else Some(Dict(p.record.value));
    CollectionRoundTrip(p.collection);
    DumpEntriesEscaped(name, position, present, record);
    assert JsonSafe(name) == name && EscapeOption(position) == position && EscapeOption(present) == present;
  }

  lemma OptionallyEscaped(name: string, v: Option<Value>)
    ensures JsonSafeEntries(Optionally(name, v)) == Optionally(name, EscapeOption(v))
  {
    if v.Some? {
      JsonSafeSingle(Entry(Field(name), v.value));
    }
  }

  lemma DumpValidates(rules: Rules, p: Projection)
    requires 0 <= p.position <= MAX_POSITION && p.present && p.record.Some?
    requires forall e :: e in p.record.value ==> e.key.Field?
    requires ValidateProjection(rules, Dump(p)).Some?
    ensures Record(rules, p.collection, p.record.value).Some?
  {
    DumpFields(rules, p);
    CollectionRoundTrip(p.collection);
  }

  lemma ProjectionSettled(rules: Rules, v: Value)
    requires ValidateProjection(rules, v).Some?
    ensures var p := ValidateProjection(rules, v).value;
      && ValidateProjection(rules, Dump(p)) == Some(p)
      && Plain(Dump(p))
      && (ValidateProjection(rules, JsonSafe(Dump(p))).Some?
          ==> Dump(ValidateProjection(rules, JsonSafe(Dump(p))).value) == JsonSafe(Dump(p)))
  {
    ValidatedIsValid(rules, v);
    var p := ValidateProjection(rules, v).value;
    DumpRoundTrip(rules, p);
    DumpEscaped(p);
    if p.record.Some? && ValidateProjection(rules, Dump(Escaped(p))).Some? {
      RecordSettled(rules, p.collection, p.record.value);
      DumpValidates(rules, Escaped(p));
      DumpRoundTrip(rules, Escaped(p));
    }
  }

  // ---- The payload itself ----

  const PAYLOAD_FIELDS := {
    "accepted", "address", "attempts", "device_instance", "diagnostic_text", "duplicate", "elapsed_ms",
    "ip_v1", "lane", "late", "object_identifier", "port", "projection_v1", "property_name", "reachable",
    "reason", "responded", "response_count", "response_ms", "state", "stderr_evidence_id", "transport",
    "units", "value", "xml_artifact_id"}

  function PayloadKind(key: string): Kind {
    if key == "ip_v1" then Ip
    else if key == "projection_v1" then Projected
    else if key in {"accepted", "duplicate", "late", "reachable", "responded"} then Flag
    else if key in {"attempts", "device_instance", "port", "response_count"} then Integer(0)
    else if key in {"elapsed_ms", "response_ms"} then Measure
    else if key in {"stderr_evidence_id", "xml_artifact_id"} then EvidenceReference(255)
    else if key == "value" then Public(1, MAX_VALUE_STRING_CHARS)
    else Line(MAX_STRING_CHARS)
  }

  function PayloadField(rules: Rules, kind: Kind, v: Value): Option<Value> {
    match kind
    case Ip => IpPayload(rules, v)
    case Projected =>
      var projection := ValidateProjection(rules, v);
      if projection.None? then None else Some(Dump(projection.value))
    case _ => Leaf(rules, kind, v)
  }

  function PayloadTable(rules: Rules): Normaliser {
    (key, v) => PayloadField(rules, PayloadKind(key), v)
  }

  function NormalizePayload(rules: Rules, v: Value): Option<Value> {
    Object(PAYLOAD_FIELDS, PayloadTable(rules), v)
  }

  lemma PayloadTableSettled(rules: Rules)
    requires LibraryLaws(rules)
    ensures Settled(PayloadTable(rules))
  {
    forall key, v ensures SettledAt(PayloadTable(rules), key, v) {
      if PayloadField(rules, PayloadKind(key), v).Some? {
        match PayloadKind(key)
        case Ip => IpPayloadSettled(rules, v);
        case Projected => ProjectionSettled(rules, v);
        case _ => LeafSettled(rules, PayloadKind(key), v);
      }
    }
  }

  /** Normalising an accepted payload again changes nothing. */
  lemma PayloadIdempotent(rules: Rules, v: Value)
    requires LibraryLaws(rules) && NormalizePayload(rules, v).Some?
    ensures NormalizePayload(rules, NormalizePayload(rules, v).value) == NormalizePayload(rules, v)
  {
    PayloadTableSettled(rules);
    ObjectSettled(PAYLOAD_FIELDS, PayloadTable(rules), v);
  }

  // ---- observation_payload and the digest its reader checks ----

  const MAX_CANONICAL_BYTES := 65_536

  /** `canonical_json_bytes`: an arbitrary encoder applied to the JSON-safe value. */
  function CanonicalBytes(dumps: Value -> bytes, v: Value): bytes {
    dumps(JsonSafe(v))
  }

  function CanonicalSha256(sha: Hash, dumps: Value -> bytes, v: Value): string {
    HexDigest(sha(CanonicalBytes(dumps, v)))
  }

  function ObservationPayload(rules: Rules, sha: Hash, dumps: Value -> bytes, v: Value): Option<(Value, string)> {
    var normalized := NormalizePayload(rules, v);
    if normalized.None? then None
    else
      var safe := JsonSafe(normalized.value);
      var encoded := CanonicalBytes(dumps, safe);
      if |encoded| > MAX_CANONICAL_BYTES then None else Some((safe, HexDigest(sha(encoded))))
  }

  /** A stored payload the view model still accepts is read back unchanged, so its digest still matches. */
  lemma DigestSurvivesReading(rules: Rules, sha: Hash, dumps: Value -> bytes, v: Value)
    requires LibraryLaws(rules) && ObservationPayload(rules, sha, dumps, v).Some?
    ensures var (stored, digest) := ObservationPayload(rules, sha, dumps, v).value;
      var viewed := NormalizePayload(rules, stored);
      viewed.Some? ==> viewed.value == stored && CanonicalSha256(sha, dumps, viewed.value) == digest
  {
    PayloadTableSettled(rules);
    ObjectSettled(PAYLOAD_FIELDS, PayloadTable(rules), v);
  }

  /** Without lone surrogates the view model does accept what was stored. */
  lemma SurrogateFreeSurvives(rules: Rules, sha: Hash, dumps: Value -> bytes, v: Value)
    requires LibraryLaws(rules) && ObservationPayload(rules, sha, dumps, v).Some?
    requires SurrogateFree(NormalizePayload(rules, v).value)
    ensures var (stored, digest) := ObservationPayload(rules, sha, dumps, v).value;
      NormalizePayload(rules, stored) == Some(stored) && CanonicalSha256(sha, dumps, stored) == digest
  {
    PayloadTableSettled(rules);
    ObjectSettled(PAYLOAD_FIELDS, PayloadTable(rules), v);
    JsonSafeIdentity(NormalizePayload(rules, v).value);
    DigestSurvivesReading(rules, sha, dumps, v);
  }

  function Surrogates(n: nat): (t: Text)
    ensures |t| == n && forall c :: c in t ==> c == 0xD800
  {
    if n == 0 then [] else [0xD800] + Surrogates(n - 1)
  }

  lemma {:induction false} EscapedLength(n: nat)
    ensures |UnicodeSafe(Surrogates(n))| == 6 * n
  {
    if n > 0 {
      EscapedLength(n - 1);
      assert Surrogates(n)[1..] == Surrogates(n - 1);
    }
  }

  /** A payload of one short text field. */
  function StateOf(t: Text): Value {
    Dict([Entry(Field("state"), Str(t))])
  }

  /** A text that is public as it stands but not once it is escaped makes a payload that is accepted when it is written
    * and refused when it is read. */
  lemma EscapeBreaksReading(rules: Rules, t: Text)
    requires IsPublic(rules, t, MAX_STRING_CHARS) && !IsPublic(rules, UnicodeSafe(t), MAX_STRING_CHARS)
    ensures NormalizePayload(rules, StateOf(t)) == Some(StateOf(t))
    ensures NormalizePayload(rules, JsonSafe(StateOf(t))).None?
  {
    JsonSafeSingle(Entry(Field("state"), Str(t)));
    StateNormalises(rules, t);
    StateNormalises(rules, UnicodeSafe(t));
  }

  lemma StateNormalises(rules: Rules, t: Text)
    ensures NormalizePayload(rules, StateOf(t))
         == if IsPublic(rules, t, MAX_STRING_CHARS) then Some(StateOf(t)) else None
  {
    StateIsShortLine(rules);
    ObjectSingle(PAYLOAD_FIELDS, PayloadTable(rules), "state", Str(t));
  }

  /** By length: from 683 on, lone surrogates fit the limit but their escapes do not. */
  lemma SurrogatesBreakReading(rules: Rules, n: nat)
    requires 683 <= n <= MAX_STRING_CHARS && !rules.unsafe(Surrogates(n))
    ensures NormalizePayload(rules, StateOf(Surrogates(n))) == Some(StateOf(Surrogates(n)))
    ensures NormalizePayload(rules, JsonSafe(StateOf(Surrogates(n)))).None?
  {
    EscapedLength(n);
    EscapeBreaksReading(rules, Surrogates(n));
  }

  /** By pattern: "C:" and one lone surrogate reads `C:\uD800` once escaped, an absolute Windows path. */
  const DRIVE_THEN_SURROGATE: Text := [67, 58, 0xD800]
  const DRIVE_PATH: Text := [67, 58, 92, 117, 68, 56, 48, 48]

  lemma OneSurrogateBreaksReading(rules: Rules)
    requires !rules.unsafe(DRIVE_THEN_SURROGATE) && rules.unsafe(DRIVE_PATH)
    ensures UnicodeSafe(DRIVE_THEN_SURROGATE) == DRIVE_PATH
    ensures NormalizePayload(rules, StateOf(DRIVE_THEN_SURROGATE)) == Some(StateOf(DRIVE_THEN_SURROGATE))
    ensures NormalizePayload(rules, JsonSafe(StateOf(DRIVE_THEN_SURROGATE))).None?
  {
    DriveEscaped();
    EscapeBreaksReading(rules, DRIVE_THEN_SURROGATE);
  }

  lemma DriveEscaped()
    ensures UnicodeSafe(DRIVE_THEN_SURROGATE) == DRIVE_PATH
  {
    var t := DRIVE_THEN_SURROGATE;
    assert t[1..] == [58, 0xD800] && t[1..][1..] == [0xD800] && t[1..][1..][1..] == [];
    assert UnicodeSafe([0xD800]) == Escape(0xD800) + UnicodeSafe([]);
    assert Escape(0xD800) == DRIVE_PATH[2..];
  }

  /** So a payload can be stored with its digest and be refused when its row is read. */
  lemma StoredButUnreadable(rules: Rules, sha: Hash, dumps: Value -> bytes, n: nat)
    requires 683 <= n <= MAX_STRING_CHARS && !rules.unsafe(Surrogates(n))
    requires |CanonicalBytes(dumps, JsonSafe(StateOf(Surrogates(n))))| <= MAX_CANONICAL_BYTES
    ensures var stored := ObservationPayload(rules, sha, dumps, StateOf(Surrogates(n)));
      stored.Some? && NormalizePayload(rules, stored.value.0).None?
  {
    SurrogatesBreakReading(rules, n);
  }

  lemma ObjectSingle(allowed: set<string>, f: Normaliser, key: string, v: Value)
    requires key in allowed
    ensures Object(allowed, f, Dict([Entry(Field(key), v)]))
         == if f(key, v).None? then None else Some(Dict([Entry(Field(key), f(key, v).value)]))
  {
    var entries := [Entry(Field(key), v)];
    assert entries[1..] == [];
    assert Fields(allowed, f, entries[1..]) == Some([]);
    assert forall e: Entry :: [e] + [] == [e];
  }

  lemma StateIsShortLine(rules: Rules)
    ensures "state" in PAYLOAD_FIELDS
    ensures forall v :: PayloadTable(rules)("state", v) == PublicString(rules, v, MAX_STRING_CHARS)
  {
    assert PayloadKind("state") == Line(MAX_STRING_CHARS);
  }
}
