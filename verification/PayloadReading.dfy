/** When a stored payload passes the view model again: exactly when its texts still fit once escaped. */
module PayloadReading {
  import opened Wrappers
  import opened Bytes
  import opened Values
  import opened PublicFields
  import opened EscapedTexts
  import opened IpEvidence
  import opened IpReading
  import opened PayloadNormaliser

  // ---- Recursive public values ----

  /** Every text at any path fits its escape. */
  ghost predicate AllTextsFit(rules: Rules, v: Value, limit: nat) {
    forall path: seq<nat> :: TextFitsAt(rules, v, path, limit)
  }

  predicate TextFitsAt(rules: Rules, v: Value, path: seq<nat>, limit: nat) {
    At(v, path).Some? && At(v, path).value.Str? ==> EscapeFits(rules, At(v, path).value.t, limit)
  }

  /** Escaping a plain value escapes the node at each path. */
  lemma {:induction false} AtEscaped(v: Value, path: seq<nat>)
    requires Plain(v) && !v.Dict?
    requires forall p: seq<nat> :: At(v, p).Some? ==> !At(v, p).value.Dict?
    ensures At(v, path).Some? ==> Plain(At(v, path).value)
    ensures At(JsonSafe(v), path) == if At(v, path).Some? then Some(JsonSafe(At(v, path).value)) else None
    decreases path
  {
    if path != [] && v.List? && path[0] < |v.items| {
      var item := v.items[path[0]];
      assert item in v.items;
      forall p: seq<nat> | At(item, p).Some? ensures !At(item, p).value.Dict? {
        assert ([path[0]] + p)[1..] == p;
        assert At(v, [path[0]] + p) == At(item, p);
      }
      assert At(item, []) == Some(item);
      AtEscaped(item, path[1..]);
    }
  }

  predicate NodeReads(rules: Rules, w: Value, path: seq<nat>, depth: nat, limit: nat) {
    At(JsonSafe(w), path).Some? ==> depth + |path| <= MAX_DEPTH && NodeOk(rules, At(JsonSafe(w), path).value, limit)
  }

  lemma NodeEscaped(rules: Rules, w: Value, path: seq<nat>, depth: nat, limit: nat)
    requires AllNodesOk(rules, w, depth, limit)
    requires At(w, path).Some? ==> Plain(At(w, path).value)
    requires At(JsonSafe(w), path) == if At(w, path).Some? then Some(JsonSafe(At(w, path).value)) else None
    ensures NodeReads(rules, w, path, depth, limit) <==> TextFitsAt(rules, w, path, limit)
  {
    if At(w, path).Some? && At(w, path).value.Str? {
      PublicOnceEscaped(rules, At(w, path).value.t, limit);
    }
  }

  lemma PathReads(rules: Rules, w: Value, path: seq<nat>, depth: nat, limit: nat)
    requires Plain(w) && AllNodesOk(rules, w, depth, limit)
    ensures NodeReads(rules, w, path, depth, limit) <==> TextFitsAt(rules, w, path, limit)
  {
    assert At(w, []) == Some(w);
    AtEscaped(w, path);
    NodeEscaped(rules, w, path, depth, limit);
  }

  lemma PublicValueReads(rules: Rules, w: Value, depth: nat, limit: nat)
    requires Plain(w) && PublicValue(rules, w, depth, limit).Some?
    ensures PublicValue(rules, JsonSafe(w), depth, limit).Some? <==> AllTextsFit(rules, w, limit)
  {
    PublicValueAccepts(rules, w, depth, limit);
    PublicValueAccepts(rules, JsonSafe(w), depth, limit);
    NodesRead(rules, w, depth, limit);
  }

  lemma NodesRead(rules: Rules, w: Value, depth: nat, limit: nat)
    requires Plain(w) && AllNodesOk(rules, w, depth, limit)
    ensures AllNodesOk(rules, JsonSafe(w), depth, limit) <==> AllTextsFit(rules, w, limit)
  {
    if AllNodesOk(rules, JsonSafe(w), depth, limit) {
      forall path: seq<nat> ensures TextFitsAt(rules, w, path, limit) {
        PathReads(rules, w, path, depth, limit);
      }
    }
    if AllTextsFit(rules, w, limit) {
      forall path: seq<nat> | At(JsonSafe(w), path).Some?
        ensures depth + |path| <= MAX_DEPTH && NodeOk(rules, At(JsonSafe(w), path).value, limit)
      {
        PathReads(rules, w, path, depth, limit);
        assert TextFitsAt(rules, w, path, limit);
      }
    }
  }

  // ---- Fields ----

  /** The texts of one leaf field fit their escapes. */
  ghost predicate LeafFits(rules: Rules, kind: Kind, w: Value) {
    match kind
    case Line(limit) => w.Str? ==> EscapeFits(rules, w.t, limit)
    case OptionalLine(limit) => w.Str? ==> EscapeFits(rules, w.t, limit)
    case EvidenceReference(limit) => w.Str? ==> EscapeFits(rules, w.t, limit) && rules.opaqueReference(UnicodeSafe(w.t))
    case OptionalReference(limit) => w.Str? ==> EscapeFits(rules, w.t, limit) && rules.opaqueReference(UnicodeSafe(w.t))
    case Public(_, limit) => AllTextsFit(rules, w, limit)
    case _ => true
  }

  lemma LeafReads(rules: Rules, kind: Kind, w: Value)
    requires Plain(w) && Leaf(rules, kind, w) == Some(w)
    ensures Leaf(rules, kind, JsonSafe(w)).Some? <==> LeafFits(rules, kind, w)
  {
    match kind
    case Public(depth, limit) => PublicValueReads(rules, w, depth, limit);
    case Ports => PortSequenceSettled(w);
    case Counts(fields) => CountsEscaped(fields, w);
    case Line(limit) => PublicOnceEscaped(rules, w.t, limit);
    case EvidenceReference(limit) => PublicOnceEscaped(rules, w.t, limit);
    case OptionalLine(limit) =>
      if w.Str? {
        PublicOnceEscaped(rules, w.t, limit);
      }
    case OptionalReference(limit) =>
      if w.Str? {
        PublicOnceEscaped(rules, w.t, limit);
      }
    case _ =>
  }

  lemma CountsEscaped(fields: set<string>, w: Value)
    requires Plain(w) && CountRecord(fields, w) == Some(w)
    ensures JsonSafe(w) == w
  {
    forall e | e in w.entries ensures SurrogateFree(e.value) {
      var i :| 0 <= i < |w.entries| && w.entries[i] == e;
      assert FieldPasses(fields, CountNormaliser(), w.entries[i]);
    }
    JsonSafeIdentity(w);
  }

  /** An object of settled fields reads back exactly when each escaped field is accepted. */
  lemma ObjectReads(allowed: set<string>, f: Normaliser, w: Value)
    requires Object(allowed, f, w) == Some(w)
    ensures Object(allowed, f, JsonSafe(w)).Some?
      <==> forall e :: e in w.entries ==> f(e.key.name, JsonSafe(e.value)).Some?
  {
    FieldsRead(allowed, f, w.entries);
    ObjectIsFields(allowed, f, w);
  }

  lemma ObjectIsFields(allowed: set<string>, f: Normaliser, w: Value)
    requires w.Dict?
    ensures Object(allowed, f, JsonSafe(w)).Some? <==> Fields(allowed, f, JsonSafeEntries(w.entries)).Some?
  {
    assert JsonSafe(w) == Dict(JsonSafeEntries(w.entries));
  }

  lemma FieldsRead(allowed: set<string>, f: Normaliser, entries: seq<Entry>)
    requires Fields(allowed, f, entries) == Some(entries)
    ensures forall e :: e in entries ==> e.key.Field? && f(e.key.name, e.value) == Some(e.value)
    ensures Fields(allowed, f, JsonSafeEntries(entries)).Some?
       <==> forall e :: e in entries ==> f(e.key.name, JsonSafe(e.value)).Some?
  {
    var safe := JsonSafeEntries(entries);
    forall i | 0 <= i < |entries|
      ensures FieldPasses(allowed, f, entries[i]) && f(entries[i].key.name, entries[i].value) == Some(entries[i].value)
      ensures FieldPasses(allowed, f, safe[i]) <==> f(entries[i].key.name, JsonSafe(entries[i].value)).Some?
    {
    }
    if forall e :: e in entries ==> f(e.key.name, JsonSafe(e.value)).Some? {
      forall i | 0 <= i < |safe| ensures FieldPasses(allowed, f, safe[i]) {
        assert entries[i] in entries;
      }
    }
  }

  ghost predicate RecordFieldFits(rules: Rules, kind: Kind, w: Value) {
    match kind
    case Attributes => w.Dict? ==> forall e ::
      e in w.entries && e.key.Field? ==> LeafFits(rules, AttributeKind(e.key.name), e.value)
    case NestedPublic(_) => w.Dict? ==> forall e ::
      e in w.entries && e.key.Field? ==> LeafFits(rules, NestedKind(e.key.name), e.value)
    case _ => LeafFits(rules, kind, w)
  }

  lemma LeafObjectReads(rules: Rules, allowed: set<string>, kinds: string -> Kind, w: Value)
    requires Plain(w) && Object(allowed, LeafTable(rules, kinds), w) == Some(w)
    ensures Object(allowed, LeafTable(rules, kinds), JsonSafe(w)).Some?
       <==> forall e :: e in w.entries && e.key.Field? ==> LeafFits(rules, kinds(e.key.name), e.value)
  {
    ObjectReads(allowed, LeafTable(rules, kinds), w);
    FieldsRead(allowed, LeafTable(rules, kinds), w.entries);
    forall e | e in w.entries
      ensures LeafTable(rules, kinds)(e.key.name, JsonSafe(e.value)).Some?
        <==> LeafFits(rules, kinds(e.key.name), e.value)
    {
      assert LeafTable(rules, kinds)(e.key.name, e.value) == Leaf(rules, kinds(e.key.name), e.value);
      LeafReads(rules, kinds(e.key.name), e.value);
    }
  }

  lemma RecordFieldReads(rules: Rules, kind: Kind, w: Value)
    requires Plain(w) && RecordField(rules, kind, w) == Some(w)
    ensures RecordField(rules, kind, JsonSafe(w)).Some? <==> RecordFieldFits(rules, kind, w)
  {
    match kind
    case Attributes => LeafObjectReads(rules, ATTRIBUTE_FIELDS, AttributeKind, w);
    case NestedPublic(fields) => LeafObjectReads(rules, fields, NestedKind, w);
    case _ => LeafReads(rules, kind, w);
  }

  /** How a collection's fields are normalised. */
  function RecordKind(collection: Collection): string -> Kind {
    match collection
    case Devices => DeviceKind
    case Points => PointKind
    case Topics => TopicKind
    case Issues => IssueKind
    case Summary => SummaryKind
  }

  ghost predicate RecordFits(rules: Rules, collection: Collection, entries: seq<Entry>) {
    forall e :: e in entries && e.key.Field? ==> RecordFieldFits(rules, RecordKind(collection)(e.key.name), e.value)
  }

  lemma RecordTableReads(rules: Rules, allowed: set<string>, kinds: string -> Kind, entries: seq<Entry>)
    requires Plain(Dict(entries)) && Fields(allowed, RecordTable(rules, kinds), entries) == Some(entries)
    ensures Fields(allowed, RecordTable(rules, kinds), JsonSafeEntries(entries)).Some?
       <==> forall e :: e in entries && e.key.Field? ==> RecordFieldFits(rules, kinds(e.key.name), e.value)
  {
    FieldsRead(allowed, RecordTable(rules, kinds), entries);
    forall e | e in entries
      ensures RecordTable(rules, kinds)(e.key.name, JsonSafe(e.value)).Some?
        <==> RecordFieldFits(rules, kinds(e.key.name), e.value)
    {
      assert RecordTable(rules, kinds)(e.key.name, e.value) == RecordField(rules, kinds(e.key.name), e.value);
      RecordFieldReads(rules, kinds(e.key.name), e.value);
    }
  }

  lemma RecordReads(rules: Rules, collection: Collection, entries: seq<Entry>)
    requires Plain(Dict(entries)) && Record(rules, collection, entries) == Some(entries)
    ensures Record(rules, collection, JsonSafeEntries(entries)).Some? <==> RecordFits(rules, collection, entries)
  {
    match collection
    case Devices => RecordTableReads(rules, DEVICE_FIELDS, DeviceKind, entries);
    case Points => RecordTableReads(rules, POINT_FIELDS, PointKind, entries);
    case Topics => RecordTableReads(rules, TOPIC_FIELDS, TopicKind, entries);
    case Issues => RecordTableReads(rules, ISSUE_FIELDS, IssueKind, entries);
    case Summary => RecordTableReads(rules, SUMMARY_FIELDS, SummaryKind, entries);
  }

  // ---- The payload ----

  ghost predicate ProjectionFits(rules: Rules, w: Value) {
    var p := ValidateProjection(rules, w);
    p.Some? && p.value.record.Some? ==> RecordFits(rules, p.value.collection, p.value.record.value)
  }

  lemma EscapedValidates(rules: Rules, p: Projection)
    requires ValidProjection(rules, p)
    ensures ValidateProjection(rules, Dump(Escaped(p))).Some?
       <==> (p.record.Some? ==> Record(rules, p.collection, JsonSafeEntries(p.record.value)).Some?)
  {
    DumpFields(rules, Escaped(p));
    CollectionRoundTrip(p.collection);
  }

  lemma ProjectionReads(rules: Rules, p: Projection)
    requires ValidProjection(rules, p) && Plain(Dump(p))
    ensures ValidateProjection(rules, JsonSafe(Dump(p))).Some? <==> ProjectionFits(rules, Dump(p))
  {
    DumpRoundTrip(rules, p);
    DumpEscaped(p);
    EscapedValidates(rules, p);
    if p.record.Some? {
      PlainRecord(p);
      RecordReads(rules, p.collection, p.record.value);
    }
  }

  lemma PlainRecord(p: Projection)
    requires Plain(Dump(p)) && p.record.Some?
    ensures Plain(Dict(p.record.value))
  {
    assert Entry(Field("record"), Dict(p.record.value)) in Dump(p).entries;
  }

  /** The texts of one payload field fit. */
  ghost predicate PayloadFieldFits(rules: Rules, kind: Kind, w: Value) {
    match kind
    case Ip => IpFits(rules, w)
    case Projected => ProjectionFits(rules, w)
    case _ => LeafFits(rules, kind, w)
  }

  ghost predicate PayloadFits(rules: Rules, w: Value) {
    w.Dict? ==> forall e :: e in w.entries && e.key.Field? ==> PayloadFieldFits(rules, PayloadKind(e.key.name), e.value)
  }

  lemma PayloadFieldReads(rules: Rules, kind: Kind, w: Value)
    requires LibraryLaws(rules) && Plain(w) && PayloadField(rules, kind, w) == Some(w)
    ensures PayloadField(rules, kind, JsonSafe(w)).Some? <==> PayloadFieldFits(rules, kind, w)
  {
    match kind
    case Ip => IpPayloadReads(rules, w);
    case Projected =>
      ValidatedIsValid(rules, w);
      ProjectionReads(rules, ValidateProjection(rules, w).value);
    case _ => LeafReads(rules, kind, w);
  }

  lemma PayloadReads(rules: Rules, w: Value)
    requires LibraryLaws(rules) && Plain(w) && NormalizePayload(rules, w) == Some(w)
    ensures NormalizePayload(rules, JsonSafe(w)).Some? <==> PayloadFits(rules, w)
  {
    ObjectReads(PAYLOAD_FIELDS, PayloadTable(rules), w);
    FieldsRead(PAYLOAD_FIELDS, PayloadTable(rules), w.entries);
    forall e | e in w.entries
      ensures PayloadTable(rules)(e.key.name, JsonSafe(e.value)).Some?
        <==> PayloadFieldFits(rules, PayloadKind(e.key.name), e.value)
    {
      assert PayloadTable(rules)(e.key.name, e.value) == PayloadField(rules, PayloadKind(e.key.name), e.value);
      PayloadFieldReads(rules, PayloadKind(e.key.name), e.value);
    }
  }

  /** The digest of `observation_payload` passes the reader's check after the view model normalises again exactly when
    * every text of the payload still fits once its lone surrogates are escaped. */
  lemma ReadingExact(rules: Rules, sha: Hash, dumps: Value -> bytes, v: Value)
    requires LibraryLaws(rules) && ObservationPayload(rules, sha, dumps, v).Some?
    ensures var (stored, digest) := ObservationPayload(rules, sha, dumps, v).value;
      var viewed := NormalizePayload(rules, stored);
      (viewed.Some? && CanonicalSha256(sha, dumps, viewed.value) == digest)
      <==> PayloadFits(rules, NormalizePayload(rules, v).value)
  {
    var w := NormalizePayload(rules, v).value;
    PayloadTableSettled(rules);
    ObjectSettled(PAYLOAD_FIELDS, PayloadTable(rules), v);
    PayloadReads(rules, w);
    DigestSurvivesReading(rules, sha, dumps, v);
  }
}
