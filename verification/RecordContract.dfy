/** The viewer-safe contract written out field by field, and that the normalisers enforce exactly it. */
module RecordContract {
  import opened Wrappers
  import opened Values
  import opened PublicFields
  import opened PayloadNormaliser

  // ---- Tests on a value ----

  predicate TextOk(rules: Rules, v: Value, limit: nat) {
    && v.Str? && |v.t| <= limit && !rules.unsafe(v.t)
    && forall c :: c in v.t && c < 32 ==> c == 9 || c == 10 || c == 13
  }

  predicate TextOrNullOk(rules: Rules, v: Value, limit: nat) {
    v.Null? || TextOk(rules, v, limit)
  }

  predicate CountOk(v: Value) {
    v.Int? && 0 <= v.i < 0x8000_0000_0000_0000
  }

  /** A value without objects, whose nodes stay within the depth, the sequence cap and their own ranges. */
  ghost predicate NestedOk(rules: Rules, v: Value, depth: nat, limit: nat) {
    forall path: seq<nat> :: At(v, path).Some? ==> depth + |path| <= 8 && SimpleOk(rules, At(v, path).value, limit)
  }

  predicate SimpleOk(rules: Rules, v: Value, limit: nat) {
    || v.Null? || v.Bool? || (v.Number? && v.f.Finite?) || TextOk(rules, v, limit)
    || (v.Int? && -0x8000_0000_0000_0000 <= v.i < 0x8000_0000_0000_0000)
    || ((v.List? || v.Tuple?) && |v.items| <= 512)
  }

  predicate PortsOk(v: Value) {
    v.Null? || ((v.List? || v.Tuple?) && |v.items| <= 4096
                && (forall i :: 0 <= i < |v.items| ==> v.items[i].Int? && 1 <= v.items[i].i <= 65_535)
                && forall i, j :: 0 <= i < j < |v.items| ==> v.items[i].i < v.items[j].i)
  }

  /** Every name present, nothing else, counts only. */
  predicate CountsOk(v: Value, names: set<string>) {
    && v.Dict?
    && (forall e :: e in v.entries ==> e.key.Field? && e.key.name in names && CountOk(e.value))
    && (forall name :: name in names ==> exists e :: e in v.entries && e.key == Field(name))
  }

  // ---- Records, field by field ----

  const PORT_LISTS := {
    "open_ports", "scanned_ports", "expected_ports", "forbidden_ports", "forbidden_open_ports",
    "unexpected_open_ports", "missing_expected_ports", "register_ports_not_probed"}
  const FREE_ATTRIBUTES := {
    "asset_id", "device_instance", "duplicate_instance", "expected_hostname", "expected_network", "hostname", "lane",
    "mac", "mac_address", "marker", "object_type", "objects", "observed_ports", "online", "open", "position",
    "property_error", "qos", "reachable", "read_error", "register_address", "register_asset_id",
    "register_asset_name", "register_match", "register_matched_filter", "responded", "response_ms",
    "scanned_port_count", "tampered", "vendor_id"}

  ghost predicate AttributeOk(rules: Rules, name: string, v: Value) {
    if name in {"heard_not_enriched", "object_list_read_failed"} then v.Bool?
    else if name == "point_reads_aborted" then CountsOk(v, {"after_consecutive_failures", "points_not_attempted"})
    else if name == "point_reads_truncated" then CountsOk(v, {"points_not_attempted"})
    else if name in PORT_LISTS then PortsOk(v)
    else name in FREE_ATTRIBUTES && NestedOk(rules, v, 2, 4096)
  }

  ghost predicate AttributesOk(rules: Rules, v: Value) {
    v.Dict? && forall e :: e in v.entries ==> e.key.Field? && AttributeOk(rules, e.key.name, e.value)
  }

  /** An object of nested values under the given names. */
  ghost predicate NestedFieldsOk(rules: Rules, v: Value, names: set<string>) {
    v.Dict? && forall e :: e in v.entries ==> e.key.Field? && e.key.name in names && NestedOk(rules, e.value, 2, 4096)
  }

  ghost predicate DeviceFieldOk(rules: Rules, name: string, v: Value) {
    if name == "attributes" then AttributesOk(rules, v)
    else
      && name in {"project_id", "site_id", "address", "device_type", "name", "vendor", "model"}
      && TextOrNullOk(rules, v, 255)
  }

  ghost predicate PointFieldOk(rules: Rules, name: string, v: Value) {
    if name == "attributes" then AttributesOk(rules, v)
    else if name == "observed_value" then NestedFieldsOk(rules, v, {"in_alarm", "present_value", "value"})
    else name in {"device_ref", "point_id", "point_name", "units"} && TextOrNullOk(rules, v, 255)
  }

  ghost predicate TopicFieldOk(rules: Rules, name: string, v: Value) {
    if name == "attributes" then AttributesOk(rules, v)
    else if name == "last_payload" then NestedFieldsOk(rules, v, {"_raw_present", "_value"})
    else if name == "message_count" then CountOk(v)
    else name == "topic" && TextOk(rules, v, 2048)
  }

  predicate IssueFieldOk(rules: Rules, name: string, v: Value) {
    if name == "raw_evidence_uri" then v.Null? || (TextOk(rules, v, 4096) && rules.opaqueReference(v.t))
    else
      && name in {"issue_id", "asset_id", "issue_type", "severity", "description", "status", "point_name", "topic",
                  "expected_value", "observed_value", "match_basis", "suggested_action", "status_detail",
                  "last_seen_at"}
      && TextOrNullOk(rules, v, 4096)
  }

  const SUMMARIES := {
    "backend", "bacnet_mode", "bbmd_address", "device_count", "device_instance_high", "device_instance_low",
    "discovered_devices", "expected_device_count", "expected_responding_count", "forbidden_ports", "hosts_responsive",
    "hosts_scanned", "hosts_with_forbidden_open", "hosts_with_hostname_mismatch", "hosts_with_missing_expected",
    "hosts_with_unexpected_open", "point_count", "ports_scanned", "reachable", "unicast_fallback_attempted"}

  ghost predicate SummaryFieldOk(rules: Rules, name: string, v: Value) {
    name in SUMMARIES && NestedOk(rules, v, 1, 4096)
  }

  ghost predicate RecordFieldOk(rules: Rules, c: Collection, name: string, v: Value) {
    match c
    case Devices => DeviceFieldOk(rules, name, v)
    case Points => PointFieldOk(rules, name, v)
    case Topics => TopicFieldOk(rules, name, v)
    case Issues => IssueFieldOk(rules, name, v)
    case Summary => SummaryFieldOk(rules, name, v)
  }

  ghost predicate RecordOk(rules: Rules, c: Collection, entries: seq<Entry>) {
    forall e :: e in entries ==> e.key.Field? && RecordFieldOk(rules, c, e.key.name, e.value)
  }

  // ---- What normalising returns: the value itself, tuples as lists ----

  function Listed(v: Value): Value
    decreases v, 1
  {
    match v
    case List(items) => List(ListedItems(items))
    case Tuple(items) => List(ListedItems(items))
    case Dict(entries) => Dict(ListedEntries(entries))
    case _ => v
  }

  function ListedItems(items: seq<Value>): (r: seq<Value>)
    ensures |r| == |items| && forall i :: 0 <= i < |items| ==> r[i] == Listed(items[i])
    decreases items, 0
  {
    if items == [] then [] else [Listed(items[0])] + ListedItems(items[1..])
  }

  function ListedEntry(e: Entry): Entry
    decreases e, 2
  {
    match e case Entry(key, value) => Entry(key, Listed(value))
  }

  function ListedEntries(entries: seq<Entry>): (r: seq<Entry>)
    ensures |r| == |entries| && forall i :: 0 <= i < |entries| ==> r[i] == ListedEntry(entries[i])
    decreases entries, 0
  {
    if entries == [] then [] else [ListedEntry(entries[0])] + ListedEntries(entries[1..])
  }

  /** The rule accepts exactly what passes the test, and returns it with tuples as lists. */
  ghost predicate Enforces(result: Option<Value>, ok: bool, v: Value) {
    result == if ok then Some(Listed(v)) else None
  }

  // ---- Leaves ----

  lemma NestedMeaning(rules: Rules, v: Value, depth: nat, limit: nat)
    ensures NestedOk(rules, v, depth, limit) <==> AllNodesOk(rules, v, depth, limit)
  {
    forall path: seq<nat> | At(v, path).Some?
      ensures SimpleOk(rules, At(v, path).value, limit) <==> NodeOk(rules, At(v, path).value, limit)
    {
    }
  }

  lemma {:induction false} PublicValueListed(rules: Rules, v: Value, depth: nat, limit: nat)
    requires PublicValue(rules, v, depth, limit).Some?
    ensures PublicValue(rules, v, depth, limit).value == Listed(v)
    decreases v
  {
    if IsSequence(v) {
      var ws := PublicItems(rules, v.items, depth + 1, limit).value;
      forall i | 0 <= i < |ws| ensures ws[i] == ListedItems(v.items)[i] {
        PublicValueListed(rules, v.items[i], depth + 1, limit);
      }
      assert ws == ListedItems(v.items);
    }
  }

  lemma NestedExact(rules: Rules, v: Value, depth: nat, limit: nat)
    ensures Enforces(PublicValue(rules, v, depth, limit), NestedOk(rules, v, depth, limit), v)
  {
    PublicValueAccepts(rules, v, depth, limit);
    NestedMeaning(rules, v, depth, limit);
    if PublicValue(rules, v, depth, limit).Some? {
      PublicValueListed(rules, v, depth, limit);
    }
  }

  lemma PortsMeaning(v: Value)
    requires IsSequence(v)
    ensures ArePorts(v.items) <==> PortsOk(v)
  {
    if forall i :: 0 <= i < |v.items| ==> v.items[i].Int? {
      var ports := Ints(v.items);
      assert forall i :: 0 <= i < |v.items| ==> ports[i] == v.items[i].i;
    }
  }

  lemma PortsListed(v: Value)
    requires IsSequence(v) && ArePorts(v.items)
    ensures Listed(v) == List(v.items)
  {
    forall i | 0 <= i < |v.items| ensures Listed(v.items[i]) == v.items[i] {
      assert IsPort(v.items[i]);
    }
    assert ListedItems(v.items) == v.items;
  }

  lemma PortsExact(v: Value)
    ensures Enforces(PortSequence(v), PortsOk(v), v)
  {
    PortSequenceAccepts(v);
    if IsSequence(v) {
      PortsMeaning(v);
      if ArePorts(v.items) {
        PortsListed(v);
      }
    }
  }

  lemma TextExact(rules: Rules, v: Value, limit: nat)
    ensures Enforces(PublicString(rules, v, limit), TextOk(rules, v, limit), v)
  {
  }

  ghost predicate FieldOk(allowed: set<string>, ok: (string, Value) -> bool, e: Entry) {
    e.key.Field? && e.key.name in allowed && ok(e.key.name, e.value)
  }

  /** Enforced fields make an enforced record. */
  lemma FieldsExact(allowed: set<string>, f: Normaliser, ok: (string, Value) -> bool, entries: seq<Entry>)
    requires forall e :: e in entries && e.key.Field? && e.key.name in allowed ==>
      Enforces(f(e.key.name, e.value), ok(e.key.name, e.value), e.value)
    ensures Fields(allowed, f, entries)
         == if forall e :: e in entries ==> FieldOk(allowed, ok, e) then Some(ListedEntries(entries)) else None
  {
    var r := Fields(allowed, f, entries);
    if r.Some? {
      forall e | e in entries ensures FieldOk(allowed, ok, e) {
        var i :| 0 <= i < |entries| && entries[i] == e;
        assert f(entries[i].key.name, entries[i].value).Some?;
      }
      forall i | 0 <= i < |entries| ensures r.value[i] == ListedEntries(entries)[i] {
        assert entries[i] in entries;
      }
      assert r.value == ListedEntries(entries);
    } else {
      var i :| 0 <= i < |entries| && !FieldPasses(allowed, f, entries[i]);
      assert entries[i] in entries;
    }
  }

  lemma ObjectExact(allowed: set<string>, f: Normaliser, ok: (string, Value) -> bool, v: Value)
    requires v.Dict? ==> forall e :: e in v.entries && e.key.Field? && e.key.name in allowed ==>
      Enforces(f(e.key.name, e.value), ok(e.key.name, e.value), e.value)
    ensures Enforces(Object(allowed, f, v), v.Dict? && forall e :: e in v.entries ==> FieldOk(allowed, ok, e), v)
  {
    if v.Dict? {
      FieldsExact(allowed, f, ok, v.entries);
    }
  }

  lemma CountsExact(names: set<string>, v: Value)
    ensures Enforces(CountRecord(names, v), CountsOk(v, names), v)
  {
    ObjectExact(names, CountNormaliser(), (name, x) => CountOk(x), v);
    if v.Dict? {
      forall name | name in names
        ensures Field(name) in KeySet(v.entries) <==> exists e :: e in v.entries && e.key == Field(name)
      {
      }
    }
  }

  // ---- Records ----

  lemma AttributeNames(name: string)
    ensures name in PORT_LISTS <==> name in PORT_FIELDS
    ensures name in ATTRIBUTE_FIELDS <==>
      || name in {"heard_not_enriched", "object_list_read_failed", "point_reads_aborted", "point_reads_truncated"}
      || name in PORT_LISTS || name in FREE_ATTRIBUTES
  {
  }

  lemma AttributeKinds(rules: Rules, name: string, v: Value)
    ensures Leaf(rules, AttributeKind(name), v) ==
      if name in {"heard_not_enriched", "object_list_read_failed"} then BoolField(v)
      else if name == "point_reads_aborted"
        then CountRecord({"after_consecutive_failures", "points_not_attempted"}, v)
      else if name == "point_reads_truncated" then CountRecord({"points_not_attempted"}, v)
      else if name in PORT_FIELDS then PortSequence(v)
      else PublicValue(rules, v, 2, 4096)
  {
  }

  lemma AttributeRuleExact(rules: Rules, name: string, v: Value, result: Option<Value>)
    requires name in PORT_LISTS <==> name in PORT_FIELDS
    requires name in {"heard_not_enriched", "object_list_read_failed", "point_reads_aborted", "point_reads_truncated"}
      || name in PORT_LISTS || name in FREE_ATTRIBUTES
    requires result == if name in {"heard_not_enriched", "object_list_read_failed"} then BoolField(v)
      else if name == "point_reads_aborted"
        then CountRecord({"after_consecutive_failures", "points_not_attempted"}, v)
      else if name == "point_reads_truncated" then CountRecord({"points_not_attempted"}, v)
      else if name in PORT_FIELDS then PortSequence(v)
      else PublicValue(rules, v, 2, 4096)
    ensures Enforces(result, AttributeOk(rules, name, v), v)
  {
    PortsExact(v);
    NestedExact(rules, v, 2, 4096);
    CountsExact({"after_consecutive_failures", "points_not_attempted"}, v);
    CountsExact({"points_not_attempted"}, v);
  }

  lemma AttributeExact(rules: Rules, name: string, v: Value)
    ensures name in ATTRIBUTE_FIELDS ==>
      Enforces(Leaf(rules, AttributeKind(name), v), AttributeOk(rules, name, v), v)
    ensures AttributeOk(rules, name, v) ==> name in ATTRIBUTE_FIELDS
  {
    AttributeNames(name);
    AttributeKinds(rules, name, v);
    if name in ATTRIBUTE_FIELDS {
      AttributeRuleExact(rules, name, v, Leaf(rules, AttributeKind(name), v));
    }
  }

  lemma AttributesExact(rules: Rules, v: Value)
    ensures Enforces(RecordField(rules, Attributes, v), AttributesOk(rules, v), v)
  {
    forall name, x
      ensures name in ATTRIBUTE_FIELDS ==>
        Enforces(LeafTable(rules, AttributeKind)(name, x), AttributeOk(rules, name, x), x)
      ensures AttributeOk(rules, name, x) ==> name in ATTRIBUTE_FIELDS
    {
      AttributeExact(rules, name, x);
    }
    ObjectExact(ATTRIBUTE_FIELDS, LeafTable(rules, AttributeKind), (name, x) => AttributeOk(rules, name, x), v);
  }

  lemma PublicKindIs(rules: Rules, v: Value, depth: nat, limit: nat)
    ensures Leaf(rules, Public(depth, limit), v) == PublicValue(rules, v, depth, limit)
  {
  }

  lemma NestedTable(rules: Rules, name: string, v: Value)
    ensures LeafTable(rules, NestedKind)(name, v) == PublicValue(rules, v, 2, 4096)
  {
    PublicKindIs(rules, v, 2, 4096);
    assert LeafTable(rules, NestedKind)(name, v) == Leaf(rules, NestedKind(name), v);
  }

  lemma NestedFieldExact(rules: Rules, name: string, v: Value)
    ensures Enforces(LeafTable(rules, NestedKind)(name, v), NestedOk(rules, v, 2, 4096), v)
  {
    NestedTable(rules, name, v);
    NestedExact(rules, v, 2, 4096);
  }

  lemma NestedFieldsExact(rules: Rules, v: Value, names: set<string>)
    ensures Enforces(RecordField(rules, NestedPublic(names), v), NestedFieldsOk(rules, v, names), v)
  {
    var ok := (name: string, x: Value) => NestedOk(rules, x, 2, 4096);
    forall name, x ensures Enforces(LeafTable(rules, NestedKind)(name, x), ok(name, x), x) {
      NestedFieldExact(rules, name, x);
    }
    ObjectExact(names, LeafTable(rules, NestedKind), ok, v);
  }

  lemma DeviceExact(rules: Rules, name: string, v: Value)
    ensures name in DEVICE_FIELDS ==>
      Enforces(RecordField(rules, DeviceKind(name), v), DeviceFieldOk(rules, name, v), v)
    ensures DeviceFieldOk(rules, name, v) ==> name in DEVICE_FIELDS
  {
    AttributesExact(rules, v);
    TextExact(rules, v, 255);
  }

  lemma PointNames(name: string)
    ensures name in POINT_FIELDS <==>
      name in {"device_ref", "point_id", "point_name", "units"} || name == "attributes" || name == "observed_value"
  {
  }

  lemma PointExact(rules: Rules, name: string, v: Value)
    ensures name in POINT_FIELDS ==>
      Enforces(RecordField(rules, PointKind(name), v), PointFieldOk(rules, name, v), v)
    ensures PointFieldOk(rules, name, v) ==> name in POINT_FIELDS
  {
    PointNames(name);
    if name == "attributes" {
      AttributesExact(rules, v);
    } else if name == "observed_value" {
      NestedFieldsExact(rules, v, {"in_alarm", "present_value", "value"});
    } else {
      TextExact(rules, v, 255);
    }
  }

  lemma TopicExact(rules: Rules, name: string, v: Value)
    ensures name in TOPIC_FIELDS ==>
      Enforces(RecordField(rules, TopicKind(name), v), TopicFieldOk(rules, name, v), v)
    ensures TopicFieldOk(rules, name, v) ==> name in TOPIC_FIELDS
  {
    AttributesExact(rules, v);
    NestedFieldsExact(rules, v, {"_raw_present", "_value"});
    TextExact(rules, v, 2048);
  }

  lemma IssueExact(rules: Rules, name: string, v: Value)
    ensures name in ISSUE_FIELDS ==>
      Enforces(RecordField(rules, IssueKind(name), v), IssueFieldOk(rules, name, v), v)
    ensures IssueFieldOk(rules, name, v) ==> name in ISSUE_FIELDS
  {
    TextExact(rules, v, 4096);
  }

  lemma SummaryNames(name: string)
    ensures name in SUMMARIES <==> name in SUMMARY_FIELDS
  {
  }

  lemma SummaryKindIs(rules: Rules, name: string, v: Value)
    ensures RecordField(rules, SummaryKind(name), v) == PublicValue(rules, v, 1, 4096)
  {
    PublicKindIs(rules, v, 1, 4096);
  }

  lemma SummaryExact(rules: Rules, name: string, v: Value)
    ensures name in SUMMARY_FIELDS ==>
      Enforces(RecordField(rules, SummaryKind(name), v), SummaryFieldOk(rules, name, v), v)
    ensures SummaryFieldOk(rules, name, v) ==> name in SUMMARY_FIELDS
  {
    SummaryNames(name);
    SummaryKindIs(rules, name, v);
    NestedExact(rules, v, 1, 4096);
  }

  lemma RecordTableExact(rules: Rules, allowed: set<string>, kinds: string -> Kind, ok: (string, Value) -> bool,
                         entries: seq<Entry>)
    requires forall name, v :: name in allowed ==> Enforces(RecordField(rules, kinds(name), v), ok(name, v), v)
    requires forall name, v :: ok(name, v) ==> name in allowed
    ensures Fields(allowed, RecordTable(rules, kinds), entries)
         == if forall e :: e in entries ==> e.key.Field? && ok(e.key.name, e.value)
            then Some(ListedEntries(entries)) else None
  {
    FieldsExact(allowed, RecordTable(rules, kinds), ok, entries);
    assert (forall e :: e in entries ==> FieldOk(allowed, ok, e))
      <==> forall e :: e in entries ==> e.key.Field? && ok(e.key.name, e.value);
  }

  lemma DevicesExact(rules: Rules, entries: seq<Entry>)
    ensures Record(rules, Devices, entries)
         == if RecordOk(rules, Devices, entries) then Some(ListedEntries(entries)) else None
  {
    forall name, v
      ensures name in DEVICE_FIELDS ==>
        Enforces(RecordField(rules, DeviceKind(name), v), DeviceFieldOk(rules, name, v), v)
      ensures DeviceFieldOk(rules, name, v) ==> name in DEVICE_FIELDS
    {
      DeviceExact(rules, name, v);
    }
    RecordTableExact(rules, DEVICE_FIELDS, DeviceKind, (name, v) => DeviceFieldOk(rules, name, v), entries);
  }

  lemma PointsExact(rules: Rules, entries: seq<Entry>)
    ensures Record(rules, Points, entries)
         == if RecordOk(rules, Points, entries) then Some(ListedEntries(entries)) else None
  {
    forall name, v
      ensures name in POINT_FIELDS ==>
        Enforces(RecordField(rules, PointKind(name), v), PointFieldOk(rules, name, v), v)
      ensures PointFieldOk(rules, name, v) ==> name in POINT_FIELDS
    {
      PointExact(rules, name, v);
    }
    RecordTableExact(rules, POINT_FIELDS, PointKind, (name, v) => PointFieldOk(rules, name, v), entries);
  }

  lemma TopicsExact(rules: Rules, entries: seq<Entry>)
    ensures Record(rules, Topics, entries)
         == if RecordOk(rules, Topics, entries) then Some(ListedEntries(entries)) else None
  {
    forall name, v
      ensures name in TOPIC_FIELDS ==>
        Enforces(RecordField(rules, TopicKind(name), v), TopicFieldOk(rules, name, v), v)
      ensures TopicFieldOk(rules, name, v) ==> name in TOPIC_FIELDS
    {
      TopicExact(rules, name, v);
    }
    RecordTableExact(rules, TOPIC_FIELDS, TopicKind, (name, v) => TopicFieldOk(rules, name, v), entries);
  }

  lemma IssuesExact(rules: Rules, entries: seq<Entry>)
    ensures Record(rules, Issues, entries)
         == if RecordOk(rules, Issues, entries) then Some(ListedEntries(entries)) else None
  {
    forall name, v
      ensures name in ISSUE_FIELDS ==>
        Enforces(RecordField(rules, IssueKind(name), v), IssueFieldOk(rules, name, v), v)
      ensures IssueFieldOk(rules, name, v) ==> name in ISSUE_FIELDS
    {
      IssueExact(rules, name, v);
    }
    RecordTableExact(rules, ISSUE_FIELDS, IssueKind, (name, v) => IssueFieldOk(rules, name, v), entries);
  }

  lemma SummariesExact(rules: Rules, entries: seq<Entry>)
    ensures Record(rules, Summary, entries)
         == if RecordOk(rules, Summary, entries) then Some(ListedEntries(entries)) else None
  {
    forall name, v
      ensures name in SUMMARY_FIELDS ==>
        Enforces(RecordField(rules, SummaryKind(name), v), SummaryFieldOk(rules, name, v), v)
      ensures SummaryFieldOk(rules, name, v) ==> name in SUMMARY_FIELDS
    {
      SummaryExact(rules, name, v);
    }
    RecordTableExact(rules, SUMMARY_FIELDS, SummaryKind, (name, v) => SummaryFieldOk(rules, name, v), entries);
  }

  /** A record is accepted exactly when each field passes its written-out test, and comes back as it was. */
  lemma RecordExact(rules: Rules, c: Collection, entries: seq<Entry>)
    ensures Record(rules, c, entries) == if RecordOk(rules, c, entries) then Some(ListedEntries(entries)) else None
  {
    match c
    case Devices => DevicesExact(rules, entries);
    case Points => PointsExact(rules, entries);
    case Topics => TopicsExact(rules, entries);
    case Issues => IssuesExact(rules, entries);
    case Summary => SummariesExact(rules, entries);
  }

  // ---- The eight port attributes ----

  lemma PortListNames(name: string)
    requires name in PORT_LISTS
    ensures name !in {"heard_not_enriched", "object_list_read_failed"}
    ensures name != "point_reads_aborted" && name != "point_reads_truncated"
  {
  }

  /** A device whose only attribute is a port list is accepted exactly when the ports strictly increase in range. */
  lemma PortAttributeExact(rules: Rules, name: string, v: Value)
    requires name in PORT_LISTS
    ensures Record(rules, Devices, [Entry(Field("attributes"), Dict([Entry(Field(name), v)]))]).Some? <==> PortsOk(v)
  {
    PortListNames(name);
    var attribute := Entry(Field(name), v);
    var entry := Entry(Field("attributes"), Dict([attribute]));
    DevicesExact(rules, [entry]);
    assert [entry][0] in [entry] && [attribute][0] in [attribute];
    assert AttributesOk(rules, entry.value) <==> PortsOk(v);
  }
}
