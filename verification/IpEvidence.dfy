/** The IP payload model of discovery_observations.py: field tables with defaults and cross-field checks. */
module IpEvidence {
  import opened Wrappers
  import opened Bytes
  import opened Values
  import opened PublicFields

  // ---- Texts ----

  predicate IsAlphanumeric(c: CodePoint) {
    48 <= c <= 57 || 65 <= c <= 90 || 97 <= c <= 122
  }

  /** `re.fullmatch(r"[A-Za-z0-9][A-Za-z0-9._:-]*", text)` */
  predicate IsIdentity(t: Text) {
    t != [] && IsAlphanumeric(t[0]) && forall c :: c in t ==> IsAlphanumeric(c) || c in {45, 46, 58, 95}
  }

  /** `^[a-z][a-z0-9_]*$` within 64 characters. */
  predicate IsProvider(t: Text) {
    && 1 <= |t| <= 64 && 97 <= t[0] <= 122
    && forall c :: c in t ==> 97 <= c <= 122 || 48 <= c <= 57 || c == 95
  }

  /** `^[0-9a-f]{64}$` */
  predicate IsDigest(t: Text) {
    |t| == 64 && forall c :: c in t ==> 48 <= c <= 57 || 97 <= c <= 102
  }

  predicate NoSurrogates(t: Text) {
    forall c :: c in t ==> !IsSurrogate(c)
  }

  /** What is assumed of the libraries: a normalised address or instant is its own normal form and plain ASCII, and
    * stripping blanks off a text brings no forbidden pattern into it. */
  ghost predicate LibraryLaws(rules: Rules) {
    && (forall t :: rules.ipv4(t).Some? ==>
          rules.ipv4(rules.ipv4(t).value) == rules.ipv4(t) && NoSurrogates(rules.ipv4(t).value))
    && (forall v :: rules.instant(v).Some? ==>
          rules.instant(Str(rules.instant(v).value)) == rules.instant(v) && NoSurrogates(rules.instant(v).value))
    && (forall t :: rules.unsafe(Strip(t)) ==> rules.unsafe(t))
  }

  // ---- One field ----

  datatype FieldRule =
    | Token(allowed: set<string>)
    | OptionalToken(allowed: set<string>)
    | ProviderName
    | Digest
    | OptionalDigest
    | FreeText(limit: nat)
    | OptionalFreeText(limit: nat)
    | Address
    | OptionalAddress
    | OptionalPort
    | Attempts
    | Elapsed
    | Instant
    | ImportId
    | ProvenanceTable

  predicate IsToken(allowed: set<string>, t: Text) {
    exists s :: s in allowed && TextOf(s) == t
  }

  function TokenField(allowed: set<string>, v: Value): Option<Value> {
    if v.Str? && IsToken(allowed, v.t) then Some(v) else None
  }

  /** A `str` field: a string, or whatever pydantic turns into one. */
  function AsText(rules: Rules, v: Value): Option<Text> {
    if v.Str? then Some(v.t) else rules.laxText(v)
  }

  function TextField(rules: Rules, accepts: Text -> bool, v: Value): Option<Value> {
    var text := AsText(rules, v);
    if text.Some? && accepts(text.value) then Some(Str(text.value)) else None
  }

  function AddressField(rules: Rules, v: Value): Option<Value> {
    var text := AsText(rules, v);
    if text.None? || rules.ipv4(text.value).None? then None else Some(Str(rules.ipv4(text.value).value))
  }

  function ImportIdField(rules: Rules, v: Value): Option<Value> {
    var text := AsText(rules, v);
    if text.Some? && IsPublic(rules, text.value, 255) && IsIdentity(Strip(text.value))
    then Some(Str(Strip(text.value))) else None
  }

  function OrNull(v: Value, field: Option<Value>): Option<Value> {
    if v.Null? then Some(v) else field
  }

  /** An integer number of milliseconds is kept as the float it converts to. */
  function ElapsedField(v: Value): Option<Value> {
    match NonNegativeNumber(v)
    case Some(Int(i)) => Some(Number(Finite(i as real)))
    case number => number
  }

  function InstantField(rules: Rules, v: Value): Option<Value> {
    if rules.instant(v).None? then None else Some(Str(rules.instant(v).value))
  }

  function PublicWithin(rules: Rules, limit: nat): Text -> bool {
    t => IsPublic(rules, t, limit)
  }

  function NonemptyWithin(rules: Rules, limit: nat): Text -> bool {
    t => t != [] && IsPublic(rules, t, limit)
  }

  function LeafField(rules: Rules, rule: FieldRule, v: Value): Option<Value> {
    match rule
    case Token(allowed) => TokenField(allowed, v)
    case OptionalToken(allowed) => OrNull(v, TokenField(allowed, v))
    case ProviderName => TextField(rules, IsProvider, v)
    case Digest => TextField(rules, IsDigest, v)
    case OptionalDigest => OrNull(v, TextField(rules, IsDigest, v))
    case FreeText(limit) => TextField(rules, NonemptyWithin(rules, limit), v)
    case OptionalFreeText(limit) => OrNull(v, TextField(rules, PublicWithin(rules, limit), v))
    case Address => AddressField(rules, v)
    case OptionalAddress => OrNull(v, AddressField(rules, v))
    case OptionalPort => if v.Null? || (v.Int? && 1 <= v.i <= 65_535) then Some(v) else None
    case Attempts => IntField(v, 0)
    case Elapsed => ElapsedField(v)
    case Instant => OrNull(v, InstantField(rules, v))
    case ImportId => OrNull(v, ImportIdField(rules, v))
    case ProvenanceTable => None
  }

  // ---- A table of fields ----

  type Rule = (FieldRule, Value) -> Option<Value>

  /** One declared field; a field without a preset is required. */
  datatype Row = Row(name: string, rule: FieldRule, preset: Option<Value>)

  function Supplied(row: Row, entries: seq<Entry>): Option<Value> {
    if Lookup(entries, row.name).Some? then Lookup(entries, row.name) else row.preset
  }

  function RowValue(f: Rule, row: Row, entries: seq<Entry>): Option<Value> {
    var supplied := Supplied(row, entries);
    if supplied.None? then None else f(row.rule, supplied.value)
  }

  /** Every declared field in order, as `model_dump` lists them. */
  function Rows(f: Rule, rows: seq<Row>, entries: seq<Entry>): (r: Option<seq<Entry>>)
    ensures r.Some? <==> forall i :: 0 <= i < |rows| ==> RowValue(f, rows[i], entries).Some?
    ensures r.Some? ==> |r.value| == |rows| && forall i :: 0 <= i < |rows| ==>
      r.value[i].key == Field(rows[i].name) && Some(r.value[i].value) == RowValue(f, rows[i], entries)
  {
    if rows == [] then Some([])
    else
      var value := RowValue(f, rows[0], entries);
      var rest := Rows(f, rows[1..], entries);
      if value.None? || rest.None? then None else Some([Entry(Field(rows[0].name), value.value)] + rest.value)
  }

  predicate Declared(rows: seq<Row>, key: Key) {
    exists row :: row in rows && key == Field(row.name)
  }

  predicate OnlyDeclared(rows: seq<Row>, entries: seq<Entry>) {
    forall e :: e in entries ==> Declared(rows, e.key)
  }

  /** A model: no undeclared field, every row accepted, the cross-field check passed, and all fields dumped. */
  function Table(f: Rule, rows: seq<Row>, consistent: seq<Entry> -> bool, v: Value): Option<Value> {
    if !v.Dict? || !OnlyDeclared(rows, v.entries) then None
    else
      var fields := Rows(f, rows, v.entries);
      if fields.None? || !consistent(fields.value) then None else Some(Dict(fields.value))
  }

  predicate DistinctRows(rows: seq<Row>) {
    forall i, j :: 0 <= i < j < |rows| ==> rows[i].name != rows[j].name
  }

  /** The entries are the rows' fields, in order. */
  predicate Aligned(rows: seq<Row>, entries: seq<Entry>) {
    |entries| == |rows| && forall i :: 0 <= i < |rows| ==> entries[i].key == Field(rows[i].name)
  }

  lemma {:induction false} AlignedLookup(rows: seq<Row>, entries: seq<Entry>, i: nat)
    requires DistinctRows(rows) && Aligned(rows, entries) && i < |rows|
    ensures Lookup(entries, rows[i].name) == Some(entries[i].value)
  {
    if i > 0 {
      assert rows[0].name != rows[i].name;
      assert forall j, k :: 0 <= j < k < |rows[1..]| ==> rows[1..][j] == rows[j + 1] && rows[1..][k] == rows[k + 1];
      AlignedLookup(rows[1..], entries[1..], i - 1);
      assert rows[1..][i - 1] == rows[i] && entries[1..][i - 1] == entries[i];
    }
  }

  lemma AlignedIsDeclared(rows: seq<Row>, entries: seq<Entry>)
    requires Aligned(rows, entries)
    ensures OnlyDeclared(rows, entries)
  {
    forall e | e in entries ensures Declared(rows, e.key) {
      var i :| 0 <= i < |entries| && entries[i] == e;
      assert rows[i] in rows;
    }
  }

  /** Fields the rules return unchanged make a table that returns them unchanged. */
  lemma TableFixed(f: Rule, rows: seq<Row>, consistent: seq<Entry> -> bool, entries: seq<Entry>)
    requires DistinctRows(rows) && Aligned(rows, entries) && consistent(entries)
    requires forall i :: 0 <= i < |rows| ==> f(rows[i].rule, entries[i].value) == Some(entries[i].value)
    ensures Table(f, rows, consistent, Dict(entries)) == Some(Dict(entries))
  {
    AlignedIsDeclared(rows, entries);
    forall i | 0 <= i < |rows| ensures RowValue(f, rows[i], entries) == Some(entries[i].value) {
      AlignedLookup(rows, entries, i);
    }
    assert Rows(f, rows, entries).value == entries;
  }

  /** What a field rule promises of its results; a result that survives escaping survives it unchanged. */
  ghost predicate KeepsAt(f: Rule, rule: FieldRule, v: Value) {
    f(rule, v).Some? ==>
      var w := f(rule, v).value;
      && Plain(w)
      && f(rule, w) == Some(w)
      && (f(rule, JsonSafe(w)).Some? ==> f(rule, JsonSafe(w)) == Some(JsonSafe(w)))
  }

  ghost predicate Keeps(f: Rule) {
    forall rule, v :: KeepsAt(f, rule, v)
  }

  /** The cross-field check cannot tell escaped fields from the fields themselves. */
  ghost predicate IgnoresEscapes(rows: seq<Row>, consistent: seq<Entry> -> bool) {
    forall entries :: Aligned(rows, entries) && Plain(Dict(entries)) ==>
      consistent(JsonSafeEntries(entries)) == consistent(entries)
  }

  /** An accepted table value is aligned, plain, consistent, and a fixed point field by field. */
  lemma TableShape(f: Rule, rows: seq<Row>, consistent: seq<Entry> -> bool, v: Value)
    requires Keeps(f) && Table(f, rows, consistent, v).Some?
    ensures var w := Table(f, rows, consistent, v).value;
      && w.Dict? && Aligned(rows, w.entries) && Plain(w) && consistent(w.entries)
      && forall i :: 0 <= i < |rows| ==> f(rows[i].rule, w.entries[i].value) == Some(w.entries[i].value)
  {
    var w := Table(f, rows, consistent, v).value;
    forall i | 0 <= i < |rows|
      ensures Plain(w.entries[i].value) && f(rows[i].rule, w.entries[i].value) == Some(w.entries[i].value)
    {
      assert KeepsAt(f, rows[i].rule, Supplied(rows[i], v.entries).value);
    }
  }

  lemma TableSettled(f: Rule, rows: seq<Row>, consistent: seq<Entry> -> bool, v: Value)
    requires Keeps(f) && DistinctRows(rows) && Table(f, rows, consistent, v).Some?
    ensures var w := Table(f, rows, consistent, v).value;
      Plain(w) && Table(f, rows, consistent, w) == Some(w)
  {
    TableShape(f, rows, consistent, v);
    TableFixed(f, rows, consistent, Table(f, rows, consistent, v).value.entries);
  }

  /** Escaped entries give each row the escape of its value. */
  lemma EscapedRows(f: Rule, rows: seq<Row>, entries: seq<Entry>)
    requires DistinctRows(rows) && Aligned(rows, entries)
    ensures Aligned(rows, JsonSafeEntries(entries)) && OnlyDeclared(rows, JsonSafeEntries(entries))
    ensures forall i :: 0 <= i < |rows| ==>
      RowValue(f, rows[i], JsonSafeEntries(entries)) == f(rows[i].rule, JsonSafe(entries[i].value))
  {
    var safe := JsonSafeEntries(entries);
    AlignedIsDeclared(rows, safe);
    forall i | 0 <= i < |rows| ensures RowValue(f, rows[i], safe) == f(rows[i].rule, JsonSafe(entries[i].value)) {
      AlignedLookup(rows, safe, i);
    }
  }

  ghost predicate FieldsRead(f: Rule, rows: seq<Row>, entries: seq<Entry>)
    requires |rows| == |entries|
  {
    forall i :: 0 <= i < |rows| ==> f(rows[i].rule, JsonSafe(entries[i].value)).Some?
  }

  lemma EscapedFixed(f: Rule, rows: seq<Row>, consistent: seq<Entry> -> bool, entries: seq<Entry>)
    requires Keeps(f) && DistinctRows(rows) && Aligned(rows, entries) && FieldsRead(f, rows, entries)
    requires forall i :: 0 <= i < |rows| ==> f(rows[i].rule, entries[i].value) == Some(entries[i].value)
    requires consistent(JsonSafeEntries(entries))
    ensures Table(f, rows, consistent, Dict(JsonSafeEntries(entries))) == Some(Dict(JsonSafeEntries(entries)))
  {
    var safe := JsonSafeEntries(entries);
    forall i | 0 <= i < |rows| ensures f(rows[i].rule, safe[i].value) == Some(safe[i].value) {
      assert KeepsAt(f, rows[i].rule, entries[i].value);
    }
    TableFixed(f, rows, consistent, safe);
  }

  lemma EscapedTable(f: Rule, rows: seq<Row>, consistent: seq<Entry> -> bool, entries: seq<Entry>)
    requires DistinctRows(rows) && Aligned(rows, entries) && consistent(JsonSafeEntries(entries))
    requires FieldsRead(f, rows, entries) ==>
      Table(f, rows, consistent, Dict(JsonSafeEntries(entries))) == Some(Dict(JsonSafeEntries(entries)))
    ensures Table(f, rows, consistent, Dict(JsonSafeEntries(entries))).Some? <==> FieldsRead(f, rows, entries)
  {
    EscapedRows(f, rows, entries);
  }

  /** A fixed point of a table reads back after escaping exactly when each of its fields does, and then unchanged. */
  lemma TableReads(f: Rule, rows: seq<Row>, consistent: seq<Entry> -> bool, w: Value)
    requires Keeps(f) && DistinctRows(rows) && IgnoresEscapes(rows, consistent)
    requires Table(f, rows, consistent, w) == Some(w)
    ensures w.Dict? && Aligned(rows, w.entries)
    ensures Table(f, rows, consistent, JsonSafe(w)).Some? <==> FieldsRead(f, rows, w.entries)
    ensures var again := Table(f, rows, consistent, JsonSafe(w));
      again.Some? ==> again == Some(JsonSafe(w))
  {
    TableShape(f, rows, consistent, w);
    assert JsonSafe(w) == Dict(JsonSafeEntries(w.entries));
    if FieldsRead(f, rows, w.entries) {
      EscapedFixed(f, rows, consistent, w.entries);
    }
    EscapedTable(f, rows, consistent, w.entries);
  }

  // ---- Tests a cross-field check makes ----

  predicate IsNull(entries: seq<Entry>, name: string) {
    Lookup(entries, name) == Some(Null)
  }

  predicate IsWord(entries: seq<Entry>, name: string, word: string) {
    Lookup(entries, name) == Some(Str(TextOf(word)))
  }

  predicate IsNumber(entries: seq<Entry>, name: string, n: int) {
    Lookup(entries, name) == Some(Int(n))
  }

  lemma {:induction false} LookupEscaped(entries: seq<Entry>, name: string)
    ensures Lookup(JsonSafeEntries(entries), name)
         == if Lookup(entries, name).Some? then Some(JsonSafe(Lookup(entries, name).value)) else None
  {
    if entries != [] {
      assert JsonSafeEntries(entries)[1..] == JsonSafeEntries(entries[1..]);
      LookupEscaped(entries[1..], name);
    }
  }

  lemma {:induction false} LookupPlain(entries: seq<Entry>, name: string)
    requires Plain(Dict(entries)) && Lookup(entries, name).Some?
    ensures Plain(Lookup(entries, name).value)
  {
    if entries[0].key != Field(name) {
      assert forall e :: e in entries[1..] ==> e in entries;
      LookupPlain(entries[1..], name);
    }
  }

  /** Escaping never yields a text without a backslash out of another text. */
  lemma {:induction false} EscapeIsVisible(t: Text, word: Text)
    requires 92 !in word && NoSurrogates(word)
    ensures UnicodeSafe(t) == word <==> t == word
  {
    if t == [] {
    } else if IsSurrogate(t[0]) {
      assert t[0] in t && UnicodeSafe(t)[0] == 92;
    } else if word != [] {
      assert UnicodeSafe(t)[1..] == UnicodeSafe(t[1..]);
      EscapeIsVisible(t[1..], word[1..]);
      assert t == [t[0]] + t[1..] && word == [word[0]] + word[1..];
    }
  }

  /** A word the check compares with: no backslash in it. */
  predicate IsPlainWord(word: string) {
    forall i :: 0 <= i < |word| ==> word[i] != '\\'
  }

  lemma WordText(word: string)
    requires IsPlainWord(word)
    ensures 92 !in TextOf(word) && NoSurrogates(TextOf(word))
  {
    forall c | c in TextOf(word) ensures c != 92 && !IsSurrogate(c) {
      var i :| 0 <= i < |word| && word[i] as int == c;
    }
  }

  lemma TestsIgnoreEscapes(entries: seq<Entry>, name: string, word: string, n: int)
    requires Plain(Dict(entries)) && IsPlainWord(word)
    ensures IsNull(JsonSafeEntries(entries), name) == IsNull(entries, name)
    ensures IsWord(JsonSafeEntries(entries), name, word) == IsWord(entries, name, word)
    ensures IsNumber(JsonSafeEntries(entries), name, n) == IsNumber(entries, name, n)
  {
    LookupEscaped(entries, name);
    if Lookup(entries, name).Some? {
      LookupPlain(entries, name);
      var v := Lookup(entries, name).value;
      WordText(word);
      if v.Str? {
        EscapeIsVisible(v.t, TextOf(word));
      }
    }
  }

  // ---- Field rules keep their results ----

  lemma IdentityKept(rules: Rules, t: Text)
    requires LibraryLaws(rules) && IsPublic(rules, t, 255) && IsIdentity(Strip(t))
    ensures var s := Strip(t);
      IsPublic(rules, s, 255) && Strip(s) == s && NoSurrogates(s)
  {
    StripLeftShort(t);
    StripRightShort(StripLeft(t));
    var s := Strip(t);
    assert s[0] in s && s[|s| - 1] in s;
  }

  lemma TokenKept(allowed: set<string>, t: Text)
    requires IsToken(allowed, t)
    ensures UnicodeSafe(t) == t
  {
    var s :| s in allowed && TextOf(s) == t;
    forall c | c in t ensures !IsSurrogate(c) {
      var i :| 0 <= i < |s| && s[i] as int == c;
    }
    UnicodeSafeIdentity(t);
  }

  /** Which field rules let a free text through; every other result is untouched by escaping. */
  predicate IsFree(rule: FieldRule) {
    rule.FreeText? || rule.OptionalFreeText? || rule.ProvenanceTable?
  }

  lemma LeafFixed(rules: Rules, rule: FieldRule, v: Value)
    requires LibraryLaws(rules) && LeafField(rules, rule, v).Some?
    ensures var w := LeafField(rules, rule, v).value;
      Plain(w) && LeafField(rules, rule, w) == Some(w)
  {
    if rule.ImportId? && !v.Null? {
      IdentityKept(rules, AsText(rules, v).value);
    }
  }

  lemma LeafUnescaped(rules: Rules, rule: FieldRule, v: Value)
    requires LibraryLaws(rules) && LeafField(rules, rule, v).Some? && !IsFree(rule)
    ensures var w := LeafField(rules, rule, v).value; JsonSafe(w) == w
  {
    var w := LeafField(rules, rule, v).value;
    if w.Str? {
      match rule
      case Token(allowed) => TokenKept(allowed, w.t);
      case OptionalToken(allowed) => TokenKept(allowed, w.t);
      case ImportId =>
        IdentityKept(rules, AsText(rules, v).value);
        UnicodeSafeIdentity(w.t);
      case ProviderName => UnicodeSafeIdentity(w.t);
      case Digest => UnicodeSafeIdentity(w.t);
      case OptionalDigest => UnicodeSafeIdentity(w.t);
      case Address => UnicodeSafeIdentity(w.t);
      case OptionalAddress => UnicodeSafeIdentity(w.t);
      case Instant => UnicodeSafeIdentity(w.t);
      case _ =>
    }
  }

  lemma LeafKept(rules: Rules, rule: FieldRule, v: Value)
    requires LibraryLaws(rules) && LeafField(rules, rule, v).Some?
    ensures var w := LeafField(rules, rule, v).value;
      Plain(w) && LeafField(rules, rule, w) == Some(w) && (!IsFree(rule) ==> JsonSafe(w) == w)
  {
    LeafFixed(rules, rule, v);
    if !IsFree(rule) {
      LeafUnescaped(rules, rule, v);
    }
  }

  function LeafRule(rules: Rules): Rule {
    (rule, v) => LeafField(rules, rule, v)
  }

  lemma LeafKeeps(rules: Rules)
    requires LibraryLaws(rules)
    ensures Keeps(LeafRule(rules))
  {
    forall rule, v ensures KeepsAt(LeafRule(rules), rule, v) {
      if LeafField(rules, rule, v).Some? {
        LeafKept(rules, rule, v);
      }
    }
  }

  // ---- IPObservationProvenanceV1 ----

  const PROVENANCE_ROWS: seq<Row> := [
    Row("profile", Token({"gentle", "planned_extended", "operator_xml_import"}), None),
    Row("source_ip", OptionalAddress, Some(Null)),
    Row("source_interface", OptionalFreeText(255), Some(Null)),
    Row("packet_plan_sha256", Digest, None),
    Row("register_import_id", ImportId, Some(Null)),
    Row("register_rows_sha256", OptionalDigest, Some(Null))]

  /** The register import and its digest are given together or not at all. */
  predicate ProvenanceConsistent(entries: seq<Entry>) {
    IsNull(entries, "register_import_id") == IsNull(entries, "register_rows_sha256")
  }

  function Provenance(rules: Rules, v: Value): Option<Value> {
    Table(LeafRule(rules), PROVENANCE_ROWS, ProvenanceConsistent, v)
  }

  lemma ProvenanceRowsDistinct()
    ensures DistinctRows(PROVENANCE_ROWS)
  {
  }

  lemma ProvenanceIgnoresEscapes()
    ensures IgnoresEscapes(PROVENANCE_ROWS, ProvenanceConsistent)
  {
    forall entries | Plain(Dict(entries))
      ensures ProvenanceConsistent(JsonSafeEntries(entries)) == ProvenanceConsistent(entries)
    {
      TestsIgnoreEscapes(entries, "register_import_id", "", 0);
      TestsIgnoreEscapes(entries, "register_rows_sha256", "", 0);
    }
  }

  // ---- IPObservationPayloadV1 ----

  const COVERAGE_STATES := {"pending", "attempted", "not_attempted", "cancelled"}
  const REACHABILITY_STATES := {"pending", "reachable", "unconfirmed", "not_applicable"}
  const PROBE_OUTCOMES := {
    "connected", "connection_refused", "timed_out", "network_unreachable", "host_unreachable", "permission_denied",
    "cancelled", "provider_error"}
  const REGISTER_MATCHES := {"not_configured", "expected_match", "wrong_ip_review", "ambiguous_review", "unregistered"}
  const POLICY_VERDICTS := {
    "pending", "pass", "forbidden_open", "unexpected_open_review", "expected_closed", "unconfirmed", "not_attempted",
    "not_applicable"}
  const CONTROL_REASONS := {
    "stop_requested", "authorization_expired", "authorization_revoked", "grant_revoked", "ownership_lost",
    "control_store_error", "dispatch_deadline_elapsed"}

  const IP_ROWS: seq<Row> := [
    Row("schema_version", Token({"1.0"}), Some(Str(TextOf("1.0")))),
    Row("coverage_state", Token(COVERAGE_STATES), None),
    Row("reachability_state", Token(REACHABILITY_STATES), None),
    Row("probe_outcome", OptionalToken(PROBE_OUTCOMES), None),
    Row("register_match", Token(REGISTER_MATCHES), None),
    Row("policy_verdict", Token(POLICY_VERDICTS), None),
    Row("target", Address, None),
    Row("port", OptionalPort, Some(Null)),
    Row("transport", OptionalToken({"tcp", "udp"}), Some(Null)),
    Row("provider", ProviderName, None),
    Row("provider_version", FreeText(64), None),
    Row("provider_contract_version", Token({"1.0"}), Some(Str(TextOf("1.0")))),
    Row("provenance", ProvenanceTable, None),
    Row("reason", OptionalFreeText(MAX_STRING_CHARS), Some(Null)),
    Row("attempts", Attempts, None),
    Row("elapsed_ms", Elapsed, None),
    Row("port_hint", OptionalFreeText(255), Some(Null)),
    Row("detected_service", OptionalFreeText(255), Some(Null)),
    Row("detected_version", OptionalFreeText(255), Some(Null)),
    Row("capability_action", OptionalToken({"use_bacnet_discovery"}), Some(Null)),
    Row("control_reason", OptionalToken(CONTROL_REASONS), Some(Null)),
    Row("last_packet_dispatched_at", Instant, Some(Null))]

  function HasRegister(entries: seq<Entry>): bool {
    var provenance := Lookup(entries, "provenance");
    provenance.Some? && provenance.value.Dict? && !IsNull(provenance.value.entries, "register_import_id")
  }

  /** What the cross-field check looks at. */
  datatype Facts = Facts(
    hasRegister: bool, notConfigured: bool, builtin: bool, service: bool, version: bool, action: bool, useBacnet: bool,
    coverageNotAttempted: bool, noOutcome: bool, connected: bool, refused: bool, noAttempts: bool, anyPort: bool,
    bacnetPort: bool, udp: bool, reachable: bool, unconfirmed: bool, verdictNotAttempted: bool, verdictOpen: bool,
    verdictClosed: bool)

  function FactsOf(e: seq<Entry>): Facts {
    Facts(
      HasRegister(e),
      IsWord(e, "register_match", "not_configured"),
      IsWord(e, "provider", "builtin_tcp_connect"),
      !IsNull(e, "detected_service"),
      !IsNull(e, "detected_version"),
      !IsNull(e, "capability_action"),
      IsWord(e, "capability_action", "use_bacnet_discovery"),
      IsWord(e, "coverage_state", "not_attempted"),
      IsNull(e, "probe_outcome"),
      IsWord(e, "probe_outcome", "connected"),
      IsWord(e, "probe_outcome", "connection_refused"),
      IsNumber(e, "attempts", 0),
      !IsNull(e, "port"),
      IsNumber(e, "port", 47808),
      IsWord(e, "transport", "udp"),
      IsWord(e, "reachability_state", "reachable"),
      IsWord(e, "reachability_state", "unconfirmed"),
      IsWord(e, "policy_verdict", "not_attempted"),
      IsWord(e, "policy_verdict", "forbidden_open") || IsWord(e, "policy_verdict", "unexpected_open_review"),
      IsWord(e, "policy_verdict", "expected_closed"))
  }

  /** `_evidence_strength_matches_reachability`, refusal by refusal. */
  predicate EvidenceMatches(f: Facts) {
    && !(f.notConfigured == f.hasRegister)
    && !(f.builtin && (f.service || f.version))
    && !(f.version && !f.service)
    && !(f.action && !(f.useBacnet && f.coverageNotAttempted && f.noOutcome && f.noAttempts && f.bacnetPort && f.udp))
    && !(f.builtin && f.udp && (!f.coverageNotAttempted || !f.noOutcome || !f.noAttempts))
    && !(f.builtin && f.udp && f.bacnetPort && !f.useBacnet)
    && !(f.connected && !f.reachable)
    && !(!f.connected && !f.noOutcome && !f.unconfirmed)
    && !(f.anyPort && f.coverageNotAttempted
         && (!f.noOutcome || !f.noAttempts || !f.verdictNotAttempted || f.service || f.version))
    && !(f.anyPort && f.verdictOpen && !f.connected)
    && !(f.anyPort && f.verdictClosed && !f.refused)
  }

  predicate IpConsistent(entries: seq<Entry>) {
    EvidenceMatches(FactsOf(entries))
  }

  function ProvenanceRule(rules: Rules): Rule {
    (_, v) => Provenance(rules, v)
  }

  function IpRule(rules: Rules): Rule {
    (rule: FieldRule, v: Value) => if rule.ProvenanceTable? then Provenance(rules, v) else LeafField(rules, rule, v)
  }

  /** `IPObservationPayloadV1.model_validate(v).model_dump(mode="json")` */
  function IpPayload(rules: Rules, v: Value): Option<Value> {
    Table(IpRule(rules), IP_ROWS, IpConsistent, v)
  }

  lemma ProvenanceKeeps(rules: Rules, v: Value)
    requires LibraryLaws(rules)
    ensures KeepsAt(ProvenanceRule(rules), ProvenanceTable, v)
  {
    LeafKeeps(rules);
    ProvenanceRowsDistinct();
    ProvenanceIgnoresEscapes();
    if Provenance(rules, v).Some? {
      TableSettled(LeafRule(rules), PROVENANCE_ROWS, ProvenanceConsistent, v);
      TableReads(LeafRule(rules), PROVENANCE_ROWS, ProvenanceConsistent, Provenance(rules, v).value);
    }
  }

  lemma IpKeeps(rules: Rules)
    requires LibraryLaws(rules)
    ensures Keeps(IpRule(rules))
  {
    forall rule, v ensures KeepsAt(IpRule(rules), rule, v) {
      if rule.ProvenanceTable? {
        ProvenanceKeeps(rules, v);
      } else {
        LeafKeeps(rules);
        assert KeepsAt(LeafRule(rules), rule, v);
      }
    }
  }

  // The rows have distinct names: their lengths, first and last characters tell them apart.

  function Signature(name: string): (int, int, int) {
    if name == "" then (0, 0, 0) else (|name|, name[0] as int, name[|name| - 1] as int)
  }

  function RowNumber(s: (int, int, int)): int {
    match s.0
    case 14 =>
      if s.1 == 's' as int then 0
      else if s.1 == 'c' as int then (if s.2 == 'e' as int then 1 else 20)
      else if s.1 == 'r' as int then 4 else 5
    case 18 => 2
    case 13 => 3
    case 6 => if s.1 == 't' as int then 6 else 13
    case 4 => 7
    case 9 => if s.1 == 't' as int then 8 else 16
    case 8 => if s.1 == 'p' as int then 9 else 14
    case 16 => if s.1 == 'p' as int then 10 else if s.2 == 'e' as int then 17 else 18
    case 25 => if s.1 == 'p' as int then 11 else 21
    case 10 => if s.1 == 'p' as int then 12 else 15
    case 17 => 19
    case _ => -1
  }

  lemma RowNumbers(i: nat)
    requires i < |IP_ROWS|
    ensures RowNumber(Signature(IP_ROWS[i].name)) == i
  {
  }

  lemma IpRowsDistinct()
    ensures DistinctRows(IP_ROWS)
  {
    forall i, j | 0 <= i < j < |IP_ROWS| ensures IP_ROWS[i].name != IP_ROWS[j].name {
      RowNumbers(i);
      RowNumbers(j);
    }
  }

  lemma WordsPlain()
    ensures IsPlainWord("not_configured") && IsPlainWord("builtin_tcp_connect") && IsPlainWord("use_bacnet_discovery")
    ensures IsPlainWord("not_attempted") && IsPlainWord("connected") && IsPlainWord("connection_refused")
  {
  }

  lemma MoreWordsPlain()
    ensures IsPlainWord("udp") && IsPlainWord("reachable") && IsPlainWord("unconfirmed")
    ensures IsPlainWord("forbidden_open") && IsPlainWord("unexpected_open_review") && IsPlainWord("expected_closed")
  {
  }

  lemma RegisterIgnoresEscapes(entries: seq<Entry>)
    requires Plain(Dict(entries))
    ensures HasRegister(JsonSafeEntries(entries)) == HasRegister(entries)
  {
    LookupEscaped(entries, "provenance");
    var provenance := Lookup(entries, "provenance");
    if provenance.Some? {
      LookupPlain(entries, "provenance");
      if provenance.value.Dict? {
        TestsIgnoreEscapes(provenance.value.entries, "register_import_id", "", 0);
      }
    }
  }

  ghost predicate SameTests(e: seq<Entry>, name: string, word: string, n: int) {
    var escaped := JsonSafeEntries(e);
    && IsNull(escaped, name) == IsNull(e, name)
    && IsWord(escaped, name, word) == IsWord(e, name, word)
    && IsNumber(escaped, name, n) == IsNumber(e, name, n)
  }

  ghost predicate SameOutcome(e: seq<Entry>) {
    && SameTests(e, "coverage_state", "not_attempted", 0)
    && SameTests(e, "probe_outcome", "connected", 0)
    && SameTests(e, "probe_outcome", "connection_refused", 0)
    && SameTests(e, "attempts", "udp", 0)
    && SameTests(e, "reachability_state", "reachable", 0)
    && SameTests(e, "reachability_state", "unconfirmed", 0)
  }

  ghost predicate SamePolicy(e: seq<Entry>) {
    && SameTests(e, "policy_verdict", "not_attempted", 0)
    && SameTests(e, "policy_verdict", "forbidden_open", 0)
    && SameTests(e, "policy_verdict", "unexpected_open_review", 0)
    && SameTests(e, "policy_verdict", "expected_closed", 0)
    && SameTests(e, "port", "udp", 47808)
    && SameTests(e, "transport", "udp", 0)
  }

  ghost predicate SameService(e: seq<Entry>) {
    && SameTests(e, "register_match", "not_configured", 0)
    && SameTests(e, "provider", "builtin_tcp_connect", 0)
    && SameTests(e, "detected_service", "udp", 0)
    && SameTests(e, "detected_version", "udp", 0)
    && SameTests(e, "capability_action", "use_bacnet_discovery", 0)
  }

  lemma TestsSame(e: seq<Entry>, name: string, word: string, n: int)
    requires Plain(Dict(e)) && IsPlainWord(word)
    ensures SameTests(e, name, word, n)
  {
    TestsIgnoreEscapes(e, name, word, n);
  }

  lemma OutcomeIgnoresEscapes(e: seq<Entry>)
    requires Plain(Dict(e))
    ensures SameOutcome(e)
  {
    WordsPlain();
    MoreWordsPlain();
    TestsSame(e, "coverage_state", "not_attempted", 0);
    TestsSame(e, "probe_outcome", "connected", 0);
    TestsSame(e, "probe_outcome", "connection_refused", 0);
    TestsSame(e, "attempts", "udp", 0);
    TestsSame(e, "reachability_state", "reachable", 0);
    TestsSame(e, "reachability_state", "unconfirmed", 0);
  }

  lemma PolicyIgnoresEscapes(e: seq<Entry>)
    requires Plain(Dict(e))
    ensures SamePolicy(e)
  {
    WordsPlain();
    MoreWordsPlain();
    TestsSame(e, "policy_verdict", "not_attempted", 0);
    TestsSame(e, "policy_verdict", "forbidden_open", 0);
    TestsSame(e, "policy_verdict", "unexpected_open_review", 0);
    TestsSame(e, "policy_verdict", "expected_closed", 0);
    TestsSame(e, "port", "udp", 47808);
    TestsSame(e, "transport", "udp", 0);
  }

  lemma ServiceIgnoresEscapes(e: seq<Entry>)
    requires Plain(Dict(e))
    ensures SameService(e)
  {
    WordsPlain();
    MoreWordsPlain();
    TestsSame(e, "register_match", "not_configured", 0);
    TestsSame(e, "provider", "builtin_tcp_connect", 0);
    TestsSame(e, "detected_service", "udp", 0);
    TestsSame(e, "detected_version", "udp", 0);
    TestsSame(e, "capability_action", "use_bacnet_discovery", 0);
  }

  lemma FactsIgnoreEscapes(e: seq<Entry>)
    requires Plain(Dict(e))
    ensures FactsOf(JsonSafeEntries(e)) == FactsOf(e)
  {
    RegisterIgnoresEscapes(e);
    OutcomeIgnoresEscapes(e);
    PolicyIgnoresEscapes(e);
    ServiceIgnoresEscapes(e);
  }

  lemma IpIgnoresEscapes()
    ensures IgnoresEscapes(IP_ROWS, IpConsistent)
  {
    forall entries | Plain(Dict(entries)) ensures IpConsistent(JsonSafeEntries(entries)) == IpConsistent(entries) {
      FactsIgnoreEscapes(entries);
    }
  }

  /** An accepted IP payload is plain JSON and its own normal form; so is its escaped form whenever that is accepted. */
  lemma IpPayloadSettled(rules: Rules, v: Value)
    requires LibraryLaws(rules) && IpPayload(rules, v).Some?
    ensures var w := IpPayload(rules, v).value;
      && Plain(w)
      && IpPayload(rules, w) == Some(w)
      && (IpPayload(rules, JsonSafe(w)).Some? ==> IpPayload(rules, JsonSafe(w)) == Some(JsonSafe(w)))
  {
    IpKeeps(rules);
    IpRowsDistinct();
    IpIgnoresEscapes();
    TableSettled(IpRule(rules), IP_ROWS, IpConsistent, v);
    TableReads(IpRule(rules), IP_ROWS, IpConsistent, IpPayload(rules, v).value);
  }

  // ---- What accepted evidence amounts to ----

  lemma WordsExclude(e: seq<Entry>, name: string, a: string, b: string)
    requires |a| != |b|
    ensures !(IsWord(e, name, a) && IsWord(e, name, b)) && !(IsWord(e, name, a) && IsNull(e, name))
  {
    assert |TextOf(a)| != |TextOf(b)|;
  }

  lemma FactsExclude(e: seq<Entry>)
    ensures var f := FactsOf(e);
      && !(f.connected && f.refused) && (f.connected || f.refused ==> !f.noOutcome)
      && !(f.verdictNotAttempted && (f.verdictOpen || f.verdictClosed))
      && (f.bacnetPort ==> f.anyPort) && (f.useBacnet ==> f.action)
  {
    WordsExclude(e, "probe_outcome", "connected", "connection_refused");
    WordsExclude(e, "probe_outcome", "connection_refused", "connected");
    WordsExclude(e, "policy_verdict", "not_attempted", "forbidden_open");
    WordsExclude(e, "policy_verdict", "not_attempted", "unexpected_open_review");
    WordsExclude(e, "policy_verdict", "not_attempted", "expected_closed");
    WordsExclude(e, "capability_action", "use_bacnet_discovery", "");
  }

  /** A port verdict of an accepted payload rests on a probe that was attempted and agrees with it, a suggested action
    * excludes every verdict and every claim about a service, and the built-in provider never claims a service nor
    * reports an attempted UDP probe. */
  lemma AcceptedEvidence(rules: Rules, v: Value)
    requires IpPayload(rules, v).Some?
    ensures var f := FactsOf(IpPayload(rules, v).value.entries);
      && (f.anyPort && f.verdictOpen ==> f.connected && f.reachable && !f.coverageNotAttempted)
      && (f.anyPort && f.verdictClosed ==> f.refused && f.unconfirmed && !f.coverageNotAttempted)
      && (f.action ==> f.bacnetPort && f.udp && f.verdictNotAttempted && !f.service && !f.version)
      && (f.version ==> f.service && !f.builtin)
      && (f.builtin && f.udp ==> f.coverageNotAttempted && f.noOutcome && (f.bacnetPort <==> f.action))
      && (f.notConfigured <==> !f.hasRegister)
  {
    FactsExclude(IpPayload(rules, v).value.entries);
  }
}
