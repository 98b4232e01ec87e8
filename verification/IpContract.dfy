/** The IP payload contract written out field by field, and that its model enforces exactly it. */
module IpContract {
  import opened Wrappers
  import opened Values
  import opened PublicFields
  import opened IpEvidence

  // ---- One dumped field: what was given, or the default, and how it comes out ----

  predicate IsNamed(entry: Entry, name: string) {
    entry.key == Field(name)
  }

  /** The value supplied under a name, or else the default; without a default the field is required. */
  predicate GivenAs(entries: seq<Entry>, name: string, preset: Option<Value>, v: Value) {
    Some(v) == if Lookup(entries, name).Some? then Lookup(entries, name) else preset
  }

  predicate OneOf(v: Value, words: set<string>) {
    v.Str? && exists word :: word in words && TextOf(word) == v.t
  }

  predicate Copied(entries: seq<Entry>, d: Entry, name: string, preset: Option<Value>) {
    IsNamed(d, name) && GivenAs(entries, name, preset, d.value)
  }

  predicate WordField(entries: seq<Entry>, d: Entry, name: string, words: set<string>) {
    Copied(entries, d, name, None) && OneOf(d.value, words)
  }

  predicate VersionField(entries: seq<Entry>, d: Entry, name: string) {
    Copied(entries, d, name, Some(Str(TextOf("1.0")))) && OneOf(d.value, {"1.0"})
  }

  predicate WordOrNullField(entries: seq<Entry>, d: Entry, name: string, preset: Option<Value>, words: set<string>) {
    Copied(entries, d, name, preset) && (d.value.Null? || OneOf(d.value, words))
  }

  /** A text as given, or what pydantic makes of another value. */
  predicate ReadAs(rules: Rules, v: Value, t: Text) {
    if v.Str? then t == v.t else rules.laxText(v) == Some(t)
  }

  ghost predicate TextFieldIs(rules: Rules, entries: seq<Entry>, d: Entry, name: string, ok: Text -> bool) {
    IsNamed(d, name) && d.value.Str? && ok(d.value.t)
    && exists v :: GivenAs(entries, name, None, v) && ReadAs(rules, v, d.value.t)
  }

  predicate TextOrNullIs(rules: Rules, v: Value, d: Value, ok: Text -> bool) {
    if v.Null? then d.Null? else d.Str? && ReadAs(rules, v, d.t) && ok(d.t)
  }

  ghost predicate TextOrNullFieldIs(rules: Rules, entries: seq<Entry>, d: Entry, name: string, ok: Text -> bool) {
    IsNamed(d, name) && exists v :: GivenAs(entries, name, Some(Null), v) && TextOrNullIs(rules, v, d.value, ok)
  }

  predicate IsPrintableWithin(rules: Rules, t: Text, limit: nat) {
    |t| <= limit && !rules.unsafe(t) && forall c :: c in t && c < 32 ==> c == 9 || c == 10 || c == 13
  }

  ghost predicate FreeTextFieldIs(rules: Rules, entries: seq<Entry>, d: Entry, name: string, limit: nat) {
    TextOrNullFieldIs(rules, entries, d, name, t => IsPrintableWithin(rules, t, limit))
  }

  ghost predicate NonemptyFieldIs(rules: Rules, entries: seq<Entry>, d: Entry, name: string, limit: nat) {
    TextFieldIs(rules, entries, d, name, t => t != [] && IsPrintableWithin(rules, t, limit))
  }

  ghost predicate AddressIs(rules: Rules, v: Value, d: Value) {
    d.Str? && exists t :: ReadAs(rules, v, t) && rules.ipv4(t) == Some(d.t)
  }

  ghost predicate AddressOrNullIs(rules: Rules, v: Value, d: Value) {
    if v.Null? then d.Null? else AddressIs(rules, v, d)
  }

  ghost predicate AddressFieldIs(rules: Rules, entries: seq<Entry>, d: Entry, name: string) {
    IsNamed(d, name) && exists v :: GivenAs(entries, name, None, v) && AddressIs(rules, v, d.value)
  }

  ghost predicate AddressOrNullFieldIs(rules: Rules, entries: seq<Entry>, d: Entry, name: string) {
    IsNamed(d, name)
    && exists v :: GivenAs(entries, name, Some(Null), v) && AddressOrNullIs(rules, v, d.value)
  }

  predicate IsHexDigest(t: Text) {
    |t| == 64 && forall c :: c in t ==> '0' as int <= c <= '9' as int || 'a' as int <= c <= 'f' as int
  }

  predicate IsLetterOrDigit(c: CodePoint) {
    '0' as int <= c <= '9' as int || 'A' as int <= c <= 'Z' as int || 'a' as int <= c <= 'z' as int
  }

  predicate IsOpaque(t: Text) {
    t != [] && IsLetterOrDigit(t[0])
    && forall c :: c in t ==>
      IsLetterOrDigit(c) || c == '.' as int || c == '_' as int || c == ':' as int || c == '-' as int
  }

  predicate IsProviderName(t: Text) {
    1 <= |t| <= 64 && 'a' as int <= t[0] <= 'z' as int
    && forall c :: c in t ==> 'a' as int <= c <= 'z' as int || '0' as int <= c <= '9' as int || c == '_' as int
  }

  /** A public text, stripped to an opaque reference. */
  ghost predicate ImportIs(rules: Rules, v: Value, d: Value) {
    if v.Null? then d.Null?
    else
      d.Str? && IsOpaque(d.t)
      && exists t :: ReadAs(rules, v, t) && IsPrintableWithin(rules, t, 255) && d.t == Strip(t)
  }

  ghost predicate ImportFieldIs(rules: Rules, entries: seq<Entry>, d: Entry, name: string) {
    IsNamed(d, name) && exists v :: GivenAs(entries, name, Some(Null), v) && ImportIs(rules, v, d.value)
  }

  predicate PortField(entries: seq<Entry>, d: Entry, name: string) {
    Copied(entries, d, name, Some(Null)) && (d.value.Null? || (d.value.Int? && 1 <= d.value.i <= 65_535))
  }

  predicate AttemptsField(entries: seq<Entry>, d: Entry, name: string) {
    Copied(entries, d, name, None) && d.value.Int? && 0 <= d.value.i < 0x8000_0000_0000_0000
  }

  /** A finite, non-negative number, kept as a float. */
  predicate ElapsedIs(v: Value, d: Value) {
    match v
    case Int(i) => 0 <= i < FLOAT_OVERFLOW && d == Number(Finite(i as real))
    case Number(Finite(r)) => r >= 0.0 && d == v
    case _ => false
  }

  ghost predicate ElapsedFieldIs(entries: seq<Entry>, d: Entry, name: string) {
    IsNamed(d, name) && exists v :: GivenAs(entries, name, None, v) && ElapsedIs(v, d.value)
  }

  predicate InstantIs(rules: Rules, v: Value, d: Value) {
    if v.Null? then d.Null? else d.Str? && rules.instant(v) == Some(d.t)
  }

  ghost predicate InstantFieldIs(rules: Rules, entries: seq<Entry>, d: Entry, name: string) {
    IsNamed(d, name) && exists v :: GivenAs(entries, name, Some(Null), v) && InstantIs(rules, v, d.value)
  }

  /** Nothing is given that is not dumped. */
  ghost predicate NothingElse(entries: seq<Entry>, w: seq<Entry>) {
    forall e :: e in entries ==> exists i :: 0 <= i < |w| && w[i].key == e.key
  }

  // ---- Provenance ----

  ghost predicate ProvenanceFields(rules: Rules, e: seq<Entry>, d: seq<Entry>)
    requires |d| == 6
  {
    && WordField(e, d[0], "profile", {"gentle", "planned_extended", "operator_xml_import"})
    && AddressOrNullFieldIs(rules, e, d[1], "source_ip")
    && FreeTextFieldIs(rules, e, d[2], "source_interface", 255)
    && TextFieldIs(rules, e, d[3], "packet_plan_sha256", IsHexDigest)
    && ImportFieldIs(rules, e, d[4], "register_import_id")
    && TextOrNullFieldIs(rules, e, d[5], "register_rows_sha256", IsHexDigest)
  }

  /** Only the six fields; the import and the digest of its rows come together. */
  ghost predicate ProvenanceIs(rules: Rules, v: Value, w: Value) {
    && v.Dict? && w.Dict? && |w.entries| == 6
    && NothingElse(v.entries, w.entries)
    && ProvenanceFields(rules, v.entries, w.entries)
    && (w.entries[4].value.Null? <==> w.entries[5].value.Null?)
  }

  ghost predicate ProvenanceFieldIs(rules: Rules, e: seq<Entry>, d: Entry) {
    IsNamed(d, "provenance") && exists v :: GivenAs(e, "provenance", None, v) && ProvenanceIs(rules, v, d.value)
  }

  // ---- The evidence check ----

  predicate Says(w: seq<Entry>, name: string, word: string) {
    Lookup(w, name) == Some(Str(TextOf(word)))
  }

  predicate IsGiven(w: seq<Entry>, name: string) {
    Lookup(w, name) != Some(Null)
  }

  predicate NamesRegister(w: seq<Entry>) {
    var provenance := Lookup(w, "provenance");
    provenance.Some? && provenance.value.Dict? && IsGiven(provenance.value.entries, "register_import_id")
  }

  /** Nothing was sent and nothing came back. */
  predicate Untried(w: seq<Entry>) {
    Says(w, "coverage_state", "not_attempted") && !IsGiven(w, "probe_outcome") && Lookup(w, "attempts") == Some(Int(0))
  }

  predicate ServiceOk(w: seq<Entry>) {
    && (IsGiven(w, "detected_version") ==> IsGiven(w, "detected_service"))
    && (Says(w, "provider", "builtin_tcp_connect") ==>
          !IsGiven(w, "detected_service") && !IsGiven(w, "detected_version"))
  }

  predicate ActionOk(w: seq<Entry>) {
    && (IsGiven(w, "capability_action") ==>
          && Says(w, "capability_action", "use_bacnet_discovery") && Untried(w)
          && Lookup(w, "port") == Some(Int(47808)) && Says(w, "transport", "udp"))
    && (Says(w, "provider", "builtin_tcp_connect") && Says(w, "transport", "udp") ==>
          Untried(w) && (Lookup(w, "port") == Some(Int(47808)) ==>
                           Says(w, "capability_action", "use_bacnet_discovery")))
  }

  predicate OutcomeOk(w: seq<Entry>) {
    if Says(w, "probe_outcome", "connected") then Says(w, "reachability_state", "reachable")
    else IsGiven(w, "probe_outcome") ==> Says(w, "reachability_state", "unconfirmed")
  }

  predicate VerdictOk(w: seq<Entry>) {
    && (Says(w, "coverage_state", "not_attempted") ==>
          && Untried(w) && Says(w, "policy_verdict", "not_attempted")
          && !IsGiven(w, "detected_service") && !IsGiven(w, "detected_version"))
    && (Says(w, "policy_verdict", "forbidden_open") || Says(w, "policy_verdict", "unexpected_open_review") ==>
          Says(w, "probe_outcome", "connected"))
    && (Says(w, "policy_verdict", "expected_closed") ==> Says(w, "probe_outcome", "connection_refused"))
  }

  predicate EvidenceOk(w: seq<Entry>) {
    && (Says(w, "register_match", "not_configured") <==> !NamesRegister(w))
    && ServiceOk(w) && ActionOk(w) && OutcomeOk(w)
    && (IsGiven(w, "port") ==> VerdictOk(w))
  }

  lemma EvidenceExact(w: seq<Entry>)
    ensures IpConsistent(w) <==> EvidenceOk(w)
  {
  }

  // ---- The payload ----

  ghost predicate CoverageFields(e: seq<Entry>, d: seq<Entry>)
    requires |d| == 22
  {
    && VersionField(e, d[0], "schema_version")
    && WordField(e, d[1], "coverage_state", {"pending", "attempted", "not_attempted", "cancelled"})
    && WordField(e, d[2], "reachability_state", {"pending", "reachable", "unconfirmed", "not_applicable"})
  }

  ghost predicate OutcomeFields(e: seq<Entry>, d: seq<Entry>)
    requires |d| == 22
  {
    && WordOrNullField(e, d[3], "probe_outcome", None, {
         "connected", "connection_refused", "timed_out", "network_unreachable", "host_unreachable",
         "permission_denied", "cancelled", "provider_error"})
    && WordField(e, d[4], "register_match", {
         "not_configured", "expected_match", "wrong_ip_review", "ambiguous_review", "unregistered"})
    && WordField(e, d[5], "policy_verdict", {
         "pending", "pass", "forbidden_open", "unexpected_open_review", "expected_closed", "unconfirmed",
         "not_attempted", "not_applicable"})
  }

  ghost predicate StateFields(e: seq<Entry>, d: seq<Entry>)
    requires |d| == 22
  {
    CoverageFields(e, d) && OutcomeFields(e, d)
  }

  ghost predicate EndpointFields(rules: Rules, e: seq<Entry>, d: seq<Entry>)
    requires |d| == 22
  {
    && AddressFieldIs(rules, e, d[6], "target")
    && PortField(e, d[7], "port")
    && WordOrNullField(e, d[8], "transport", Some(Null), {"tcp", "udp"})
    && TextFieldIs(rules, e, d[9], "provider", IsProviderName)
    && NonemptyFieldIs(rules, e, d[10], "provider_version", 64)
    && VersionField(e, d[11], "provider_contract_version")
    && ProvenanceFieldIs(rules, e, d[12])
  }

  ghost predicate ResultFields(rules: Rules, e: seq<Entry>, d: seq<Entry>)
    requires |d| == 22
  {
    && FreeTextFieldIs(rules, e, d[13], "reason", 4096)
    && AttemptsField(e, d[14], "attempts")
    && ElapsedFieldIs(e, d[15], "elapsed_ms")
    && FreeTextFieldIs(rules, e, d[16], "port_hint", 255)
    && FreeTextFieldIs(rules, e, d[17], "detected_service", 255)
    && FreeTextFieldIs(rules, e, d[18], "detected_version", 255)
  }

  ghost predicate ControlFields(rules: Rules, e: seq<Entry>, d: seq<Entry>)
    requires |d| == 22
  {
    && WordOrNullField(e, d[19], "capability_action", Some(Null), {"use_bacnet_discovery"})
    && WordOrNullField(e, d[20], "control_reason", Some(Null), {
         "stop_requested", "authorization_expired", "authorization_revoked", "grant_revoked", "ownership_lost",
         "control_store_error", "dispatch_deadline_elapsed"})
    && InstantFieldIs(rules, e, d[21], "last_packet_dispatched_at")
  }

  ghost predicate IpIs(rules: Rules, v: Value, w: Value) {
    && v.Dict? && w.Dict? && |w.entries| == 22
    && NothingElse(v.entries, w.entries)
    && StateFields(v.entries, w.entries) && EndpointFields(rules, v.entries, w.entries)
    && ResultFields(rules, v.entries, w.entries) && ControlFields(rules, v.entries, w.entries)
    && EvidenceOk(w.entries)
  }

  // ---- Rows ----

  /** A row dumps the entry. */
  predicate DumpedBy(f: Rule, row: Row, e: seq<Entry>, d: Entry) {
    IsNamed(d, row.name) && RowValue(f, row, e) == Some(d.value)
  }

  lemma RowsExact(f: Rule, rows: seq<Row>, e: seq<Entry>, w: seq<Entry>)
    ensures Rows(f, rows, e) == Some(w)
       <==> |w| == |rows| && forall i :: 0 <= i < |rows| ==> DumpedBy(f, rows[i], e, w[i])
  {
    var r := Rows(f, rows, e);
    if |w| == |rows| && forall i :: 0 <= i < |rows| ==> DumpedBy(f, rows[i], e, w[i]) {
      forall i | 0 <= i < |rows| ensures r.Some? && r.value[i] == w[i] {
        assert DumpedBy(f, rows[i], e, w[i]);
      }
      assert r.Some? && r.value == w;
    }
  }

  lemma WordRow(rules: Rules, e: seq<Entry>, d: Entry, name: string, words: set<string>)
    ensures DumpedBy(LeafRule(rules), Row(name, Token(words), None), e, d) <==> WordField(e, d, name, words)
  {
  }

  lemma VersionRow(rules: Rules, e: seq<Entry>, d: Entry, name: string)
    ensures DumpedBy(LeafRule(rules), Row(name, Token({"1.0"}), Some(Str(TextOf("1.0")))), e, d)
       <==> VersionField(e, d, name)
  {
  }

  lemma WordOrNullRow(rules: Rules, e: seq<Entry>, d: Entry, name: string, preset: Option<Value>, words: set<string>)
    ensures DumpedBy(LeafRule(rules), Row(name, OptionalToken(words), preset), e, d)
       <==> WordOrNullField(e, d, name, preset, words)
  {
  }

  lemma PrintableIsPublic(rules: Rules, t: Text, limit: nat)
    ensures IsPublic(rules, t, limit) <==> IsPrintableWithin(rules, t, limit)
  {
  }

  lemma FreeRow(rules: Rules, e: seq<Entry>, d: Entry, name: string, limit: nat)
    ensures DumpedBy(LeafRule(rules), Row(name, OptionalFreeText(limit), Some(Null)), e, d)
       <==> FreeTextFieldIs(rules, e, d, name, limit)
  {
    if d.value.Str? {
      PrintableIsPublic(rules, d.value.t, limit);
    }
    var row := Row(name, OptionalFreeText(limit), Some(Null));
    forall v | GivenAs(e, name, Some(Null), v) ensures Supplied(row, e) == Some(v) {
    }
    assert GivenAs(e, name, Some(Null), Supplied(row, e).value);
  }

  /** What a row is given is the one value it can be given. */
  lemma OnlyGiven(row: Row, e: seq<Entry>)
    ensures forall v :: GivenAs(e, row.name, row.preset, v) <==> Supplied(row, e) == Some(v)
  {
  }

  lemma TextRow(rules: Rules, e: seq<Entry>, d: Entry, row: Row, accepts: Text -> bool, ok: Text -> bool)
    requires row.preset.None? && forall v :: LeafField(rules, row.rule, v) == TextField(rules, accepts, v)
    requires forall t :: accepts(t) <==> ok(t)
    ensures DumpedBy(LeafRule(rules), row, e, d) <==> TextFieldIs(rules, e, d, row.name, ok)
  {
    OnlyGiven(row, e);
  }

  lemma ProviderRow(rules: Rules, e: seq<Entry>, d: Entry, name: string)
    ensures DumpedBy(LeafRule(rules), Row(name, ProviderName, None), e, d)
       <==> TextFieldIs(rules, e, d, name, IsProviderName)
  {
    TextRow(rules, e, d, Row(name, ProviderName, None), IsProvider, IsProviderName);
  }

  lemma DigestRow(rules: Rules, e: seq<Entry>, d: Entry, name: string)
    ensures DumpedBy(LeafRule(rules), Row(name, Digest, None), e, d) <==> TextFieldIs(rules, e, d, name, IsHexDigest)
  {
    TextRow(rules, e, d, Row(name, Digest, None), IsDigest, IsHexDigest);
  }

  lemma DigestOrNullRow(rules: Rules, e: seq<Entry>, d: Entry, name: string)
    ensures DumpedBy(LeafRule(rules), Row(name, OptionalDigest, Some(Null)), e, d)
       <==> TextOrNullFieldIs(rules, e, d, name, IsHexDigest)
  {
    OnlyGiven(Row(name, OptionalDigest, Some(Null)), e);
    assert forall t :: IsDigest(t) <==> IsHexDigest(t);
  }

  lemma RequiredTextRow(rules: Rules, e: seq<Entry>, d: Entry, name: string, limit: nat)
    ensures DumpedBy(LeafRule(rules), Row(name, FreeText(limit), None), e, d)
       <==> NonemptyFieldIs(rules, e, d, name, limit)
  {
    forall t ensures IsPublic(rules, t, limit) <==> IsPrintableWithin(rules, t, limit) {
      PrintableIsPublic(rules, t, limit);
    }
    TextRow(rules, e, d, Row(name, FreeText(limit), None), NonemptyWithin(rules, limit),
            t => t != [] && IsPrintableWithin(rules, t, limit));
  }

  lemma AddressMeaning(rules: Rules, v: Value, d: Value)
    ensures IpEvidence.AddressField(rules, v) == Some(d) <==> AddressIs(rules, v, d)
  {
    var text := AsText(rules, v);
    if text.Some? {
      assert ReadAs(rules, v, text.value);
    }
  }

  lemma AddressRow(rules: Rules, e: seq<Entry>, d: Entry, name: string)
    ensures DumpedBy(LeafRule(rules), Row(name, Address, None), e, d) <==> AddressFieldIs(rules, e, d, name)
  {
    OnlyGiven(Row(name, Address, None), e);
    forall v ensures IpEvidence.AddressField(rules, v) == Some(d.value) <==> AddressIs(rules, v, d.value) {
      AddressMeaning(rules, v, d.value);
    }
  }

  lemma AddressOrNullRow(rules: Rules, e: seq<Entry>, d: Entry, name: string)
    ensures DumpedBy(LeafRule(rules), Row(name, OptionalAddress, Some(Null)), e, d)
       <==> AddressOrNullFieldIs(rules, e, d, name)
  {
    OnlyGiven(Row(name, OptionalAddress, Some(Null)), e);
    forall v ensures IpEvidence.AddressField(rules, v) == Some(d.value) <==> AddressIs(rules, v, d.value) {
      AddressMeaning(rules, v, d.value);
    }
  }

  lemma ImportMeaning(rules: Rules, v: Value, d: Value)
    ensures OrNull(v, ImportIdField(rules, v)) == Some(d) <==> ImportIs(rules, v, d)
  {
    var text := AsText(rules, v);
    if text.Some? {
      assert ReadAs(rules, v, text.value);
      PrintableIsPublic(rules, text.value, 255);
      assert IsIdentity(Strip(text.value)) <==> IsOpaque(Strip(text.value));
    }
  }

  lemma ImportRow(rules: Rules, e: seq<Entry>, d: Entry, name: string)
    ensures DumpedBy(LeafRule(rules), Row(name, ImportId, Some(Null)), e, d) <==> ImportFieldIs(rules, e, d, name)
  {
    OnlyGiven(Row(name, ImportId, Some(Null)), e);
    forall v ensures OrNull(v, ImportIdField(rules, v)) == Some(d.value) <==> ImportIs(rules, v, d.value) {
      ImportMeaning(rules, v, d.value);
    }
  }

  lemma PortRow(rules: Rules, e: seq<Entry>, d: Entry, name: string)
    ensures DumpedBy(LeafRule(rules), Row(name, OptionalPort, Some(Null)), e, d) <==> PortField(e, d, name)
  {
  }

  lemma AttemptsRow(rules: Rules, e: seq<Entry>, d: Entry, name: string)
    ensures DumpedBy(LeafRule(rules), Row(name, Attempts, None), e, d) <==> AttemptsField(e, d, name)
  {
  }

  lemma ElapsedRow(rules: Rules, e: seq<Entry>, d: Entry, name: string)
    ensures DumpedBy(LeafRule(rules), Row(name, Elapsed, None), e, d) <==> ElapsedFieldIs(e, d, name)
  {
    OnlyGiven(Row(name, Elapsed, None), e);
  }

  lemma InstantRow(rules: Rules, e: seq<Entry>, d: Entry, name: string)
    ensures DumpedBy(LeafRule(rules), Row(name, Instant, Some(Null)), e, d) <==> InstantFieldIs(rules, e, d, name)
  {
    OnlyGiven(Row(name, Instant, Some(Null)), e);
  }

  // ---- Provenance and payload ----

  lemma ProvenanceRowsExact(rules: Rules, e: seq<Entry>, w: seq<Entry>)
    requires |w| == 6
    ensures (forall i :: 0 <= i < 6 ==> DumpedBy(LeafRule(rules), PROVENANCE_ROWS[i], e, w[i]))
       <==> ProvenanceFields(rules, e, w)
  {
    WordRow(rules, e, w[0], "profile", {"gentle", "planned_extended", "operator_xml_import"});
    AddressOrNullRow(rules, e, w[1], "source_ip");
    FreeRow(rules, e, w[2], "source_interface", 255);
    DigestRow(rules, e, w[3], "packet_plan_sha256");
    ImportRow(rules, e, w[4], "register_import_id");
    DigestOrNullRow(rules, e, w[5], "register_rows_sha256");
  }

  lemma TableMeaning(f: Rule, rows: seq<Row>, consistent: seq<Entry> -> bool, v: Value, w: Value)
    ensures Table(f, rows, consistent, v) == Some(w) <==>
      && v.Dict? && w.Dict? && OnlyDeclared(rows, v.entries)
      && |w.entries| == |rows| && (forall i :: 0 <= i < |rows| ==> DumpedBy(f, rows[i], v.entries, w.entries[i]))
      && consistent(w.entries)
  {
    if v.Dict? && w.Dict? {
      RowsExact(f, rows, v.entries, w.entries);
    }
  }

  lemma ProvenancePair(w: seq<Entry>)
    requires |w| == 6 && forall i :: 0 <= i < 6 ==> w[i].key == Field(PROVENANCE_ROWS[i].name)
    ensures ProvenanceConsistent(w) <==> (w[4].value.Null? <==> w[5].value.Null?)
  {
    ProvenanceRowsDistinct();
    AlignedLookup(PROVENANCE_ROWS, w, 4);
    AlignedLookup(PROVENANCE_ROWS, w, 5);
  }

  lemma DeclaredIsDumped(rows: seq<Row>, entries: seq<Entry>, w: seq<Entry>)
    requires |w| == |rows| && forall i :: 0 <= i < |rows| ==> w[i].key == Field(rows[i].name)
    ensures OnlyDeclared(rows, entries) <==> NothingElse(entries, w)
  {
    forall e | e in entries ensures Declared(rows, e.key) <==> exists i :: 0 <= i < |w| && w[i].key == e.key {
      if row :| row in rows && e.key == Field(row.name) {
        var i :| 0 <= i < |rows| && rows[i] == row;
        assert w[i].key == e.key;
      }
      if i :| 0 <= i < |w| && w[i].key == e.key {
        assert rows[i] in rows;
      }
    }
  }

  lemma ProvenanceExact(rules: Rules, v: Value, w: Value)
    ensures Provenance(rules, v) == Some(w) <==> ProvenanceIs(rules, v, w)
  {
    TableMeaning(LeafRule(rules), PROVENANCE_ROWS, ProvenanceConsistent, v, w);
    if v.Dict? && w.Dict? && |w.entries| == 6 {
      ProvenanceRowsExact(rules, v.entries, w.entries);
      if forall i :: 0 <= i < 6 ==> DumpedBy(LeafRule(rules), PROVENANCE_ROWS[i], v.entries, w.entries[i]) {
        DeclaredIsDumped(PROVENANCE_ROWS, v.entries, w.entries);
        ProvenancePair(w.entries);
      }
    }
  }

  /** Row `i` dumps its entry. */
  predicate RowDumps(rules: Rules, e: seq<Entry>, w: seq<Entry>, i: nat)
    requires i < 22 == |w|
  {
    DumpedBy(IpRule(rules), IP_ROWS[i], e, w[i])
  }

  lemma LeafAt(rules: Rules, e: seq<Entry>, w: seq<Entry>, i: nat, row: Row)
    requires i < 22 == |w| && IP_ROWS[i] == row && !row.rule.ProvenanceTable?
    ensures RowDumps(rules, e, w, i) <==> DumpedBy(LeafRule(rules), row, e, w[i])
  {
  }

  lemma CoverageRows(rules: Rules, e: seq<Entry>, w: seq<Entry>)
    requires |w| == 22
    ensures RowDumps(rules, e, w, 0) <==> VersionField(e, w[0], "schema_version")
    ensures RowDumps(rules, e, w, 1) <==> WordField(e, w[1], "coverage_state", COVERAGE_STATES)
    ensures RowDumps(rules, e, w, 2) <==> WordField(e, w[2], "reachability_state", REACHABILITY_STATES)
  {
    VersionRow(rules, e, w[0], "schema_version");
    WordRow(rules, e, w[1], "coverage_state", COVERAGE_STATES);
    WordRow(rules, e, w[2], "reachability_state", REACHABILITY_STATES);
    LeafAt(rules, e, w, 0, Row("schema_version", Token({"1.0"}), Some(Str(TextOf("1.0")))));
    LeafAt(rules, e, w, 1, Row("coverage_state", Token(COVERAGE_STATES), None));
    LeafAt(rules, e, w, 2, Row("reachability_state", Token(REACHABILITY_STATES), None));
  }

  lemma OutcomeRows(rules: Rules, e: seq<Entry>, w: seq<Entry>)
    requires |w| == 22
    ensures RowDumps(rules, e, w, 3) <==> WordOrNullField(e, w[3], "probe_outcome", None, PROBE_OUTCOMES)
    ensures RowDumps(rules, e, w, 4) <==> WordField(e, w[4], "register_match", REGISTER_MATCHES)
    ensures RowDumps(rules, e, w, 5) <==> WordField(e, w[5], "policy_verdict", POLICY_VERDICTS)
  {
    WordOrNullRow(rules, e, w[3], "probe_outcome", None, PROBE_OUTCOMES);
    WordRow(rules, e, w[4], "register_match", REGISTER_MATCHES);
    WordRow(rules, e, w[5], "policy_verdict", POLICY_VERDICTS);
    LeafAt(rules, e, w, 3, Row("probe_outcome", OptionalToken(PROBE_OUTCOMES), None));
    LeafAt(rules, e, w, 4, Row("register_match", Token(REGISTER_MATCHES), None));
    LeafAt(rules, e, w, 5, Row("policy_verdict", Token(POLICY_VERDICTS), None));
  }

  lemma EndpointRows(rules: Rules, e: seq<Entry>, w: seq<Entry>)
    requires |w| == 22
    ensures RowDumps(rules, e, w, 6) <==> AddressFieldIs(rules, e, w[6], "target")
    ensures RowDumps(rules, e, w, 7) <==> PortField(e, w[7], "port")
    ensures RowDumps(rules, e, w, 8) <==> WordOrNullField(e, w[8], "transport", Some(Null), {"tcp", "udp"})
  {
    AddressRow(rules, e, w[6], "target");
    PortRow(rules, e, w[7], "port");
    WordOrNullRow(rules, e, w[8], "transport", Some(Null), {"tcp", "udp"});
    LeafAt(rules, e, w, 6, Row("target", Address, None));
    LeafAt(rules, e, w, 7, Row("port", OptionalPort, Some(Null)));
    LeafAt(rules, e, w, 8, Row("transport", OptionalToken({"tcp", "udp"}), Some(Null)));
  }

  lemma ProviderRows(rules: Rules, e: seq<Entry>, w: seq<Entry>)
    requires |w| == 22
    ensures RowDumps(rules, e, w, 9) <==> TextFieldIs(rules, e, w[9], "provider", IsProviderName)
    ensures RowDumps(rules, e, w, 10) <==> NonemptyFieldIs(rules, e, w[10], "provider_version", 64)
    ensures RowDumps(rules, e, w, 11) <==> VersionField(e, w[11], "provider_contract_version")
  {
    ProviderRow(rules, e, w[9], "provider");
    RequiredTextRow(rules, e, w[10], "provider_version", 64);
    VersionRow(rules, e, w[11], "provider_contract_version");
    LeafAt(rules, e, w, 9, Row("provider", ProviderName, None));
    LeafAt(rules, e, w, 10, Row("provider_version", FreeText(64), None));
    LeafAt(rules, e, w, 11, Row("provider_contract_version", Token({"1.0"}), Some(Str(TextOf("1.0")))));
  }

  lemma ProvenanceRow(rules: Rules, e: seq<Entry>, w: seq<Entry>)
    requires |w| == 22
    ensures RowDumps(rules, e, w, 12) <==> ProvenanceFieldIs(rules, e, w[12])
  {
    var row := Row("provenance", ProvenanceTable, None);
    OnlyGiven(row, e);
    assert IP_ROWS[12] == row;
    forall v ensures Provenance(rules, v) == Some(w[12].value) <==> ProvenanceIs(rules, v, w[12].value) {
      ProvenanceExact(rules, v, w[12].value);
    }
  }

  lemma ResultRows(rules: Rules, e: seq<Entry>, w: seq<Entry>)
    requires |w| == 22
    ensures RowDumps(rules, e, w, 13) <==> FreeTextFieldIs(rules, e, w[13], "reason", 4096)
    ensures RowDumps(rules, e, w, 14) <==> AttemptsField(e, w[14], "attempts")
    ensures RowDumps(rules, e, w, 15) <==> ElapsedFieldIs(e, w[15], "elapsed_ms")
  {
    FreeRow(rules, e, w[13], "reason", 4096);
    AttemptsRow(rules, e, w[14], "attempts");
    ElapsedRow(rules, e, w[15], "elapsed_ms");
    LeafAt(rules, e, w, 13, Row("reason", OptionalFreeText(4096), Some(Null)));
    LeafAt(rules, e, w, 14, Row("attempts", Attempts, None));
    LeafAt(rules, e, w, 15, Row("elapsed_ms", Elapsed, None));
  }

  lemma HintRows(rules: Rules, e: seq<Entry>, w: seq<Entry>)
    requires |w| == 22
    ensures RowDumps(rules, e, w, 16) <==> FreeTextFieldIs(rules, e, w[16], "port_hint", 255)
    ensures RowDumps(rules, e, w, 17) <==> FreeTextFieldIs(rules, e, w[17], "detected_service", 255)
    ensures RowDumps(rules, e, w, 18) <==> FreeTextFieldIs(rules, e, w[18], "detected_version", 255)
  {
    FreeRow(rules, e, w[16], "port_hint", 255);
    FreeRow(rules, e, w[17], "detected_service", 255);
    FreeRow(rules, e, w[18], "detected_version", 255);
    LeafAt(rules, e, w, 16, Row("port_hint", OptionalFreeText(255), Some(Null)));
    LeafAt(rules, e, w, 17, Row("detected_service", OptionalFreeText(255), Some(Null)));
    LeafAt(rules, e, w, 18, Row("detected_version", OptionalFreeText(255), Some(Null)));
  }

  lemma ControlRows(rules: Rules, e: seq<Entry>, w: seq<Entry>)
    requires |w| == 22
    ensures RowDumps(rules, e, w, 19)
       <==> WordOrNullField(e, w[19], "capability_action", Some(Null), {"use_bacnet_discovery"})
    ensures RowDumps(rules, e, w, 20) <==> WordOrNullField(e, w[20], "control_reason", Some(Null), CONTROL_REASONS)
    ensures RowDumps(rules, e, w, 21) <==> InstantFieldIs(rules, e, w[21], "last_packet_dispatched_at")
  {
    WordOrNullRow(rules, e, w[19], "capability_action", Some(Null), {"use_bacnet_discovery"});
    WordOrNullRow(rules, e, w[20], "control_reason", Some(Null), CONTROL_REASONS);
    InstantRow(rules, e, w[21], "last_packet_dispatched_at");
    LeafAt(rules, e, w, 19, Row("capability_action", OptionalToken({"use_bacnet_discovery"}), Some(Null)));
    LeafAt(rules, e, w, 20, Row("control_reason", OptionalToken(CONTROL_REASONS), Some(Null)));
    LeafAt(rules, e, w, 21, Row("last_packet_dispatched_at", Instant, Some(Null)));
  }

  ghost predicate RowsDump(rules: Rules, e: seq<Entry>, w: seq<Entry>, low: nat, high: nat)
    requires low <= high <= 22 == |w|
  {
    forall i :: low <= i < high ==> RowDumps(rules, e, w, i)
  }

  lemma RowsJoin(rules: Rules, e: seq<Entry>, w: seq<Entry>, low: nat, mid: nat, high: nat)
    requires low <= mid <= high <= 22 == |w|
    ensures RowsDump(rules, e, w, low, high) <==> RowsDump(rules, e, w, low, mid) && RowsDump(rules, e, w, mid, high)
  {
  }

  lemma CoverageFieldsExact(rules: Rules, e: seq<Entry>, w: seq<Entry>)
    requires |w| == 22
    ensures RowsDump(rules, e, w, 0, 3) <==> CoverageFields(e, w)
  {
    CoverageRows(rules, e, w);
  }

  lemma OutcomeFieldsExact(rules: Rules, e: seq<Entry>, w: seq<Entry>)
    requires |w| == 22
    ensures RowsDump(rules, e, w, 3, 6) <==> OutcomeFields(e, w)
  {
    OutcomeRows(rules, e, w);
  }

  lemma StateFieldsExact(rules: Rules, e: seq<Entry>, w: seq<Entry>)
    requires |w| == 22
    ensures RowsDump(rules, e, w, 0, 6) <==> StateFields(e, w)
  {
    CoverageFieldsExact(rules, e, w);
    OutcomeFieldsExact(rules, e, w);
    RowsJoin(rules, e, w, 0, 3, 6);
  }

  lemma EndpointFieldsExact(rules: Rules, e: seq<Entry>, w: seq<Entry>)
    requires |w| == 22
    ensures RowsDump(rules, e, w, 6, 13) <==> EndpointFields(rules, e, w)
  {
    EndpointRows(rules, e, w);
    ProviderRows(rules, e, w);
    ProvenanceRow(rules, e, w);
    RowsUnrolled(rules, e, w);
  }

  lemma RowsUnrolled(rules: Rules, e: seq<Entry>, w: seq<Entry>)
    requires |w| == 22
    ensures RowsDump(rules, e, w, 6, 13) <==>
      && RowDumps(rules, e, w, 6) && RowDumps(rules, e, w, 7) && RowDumps(rules, e, w, 8) && RowDumps(rules, e, w, 9)
      && RowDumps(rules, e, w, 10) && RowDumps(rules, e, w, 11) && RowDumps(rules, e, w, 12)
  {
    assert RowsDump(rules, e, w, 6, 9) <==>
      RowDumps(rules, e, w, 6) && RowDumps(rules, e, w, 7) && RowDumps(rules, e, w, 8);
    assert RowsDump(rules, e, w, 9, 13) <==>
      RowDumps(rules, e, w, 9) && RowDumps(rules, e, w, 10) && RowDumps(rules, e, w, 11) && RowDumps(rules, e, w, 12);
    assert RowsDump(rules, e, w, 6, 13) <==> RowsDump(rules, e, w, 6, 9) && RowsDump(rules, e, w, 9, 13);
  }

  lemma ResultFieldsExact(rules: Rules, e: seq<Entry>, w: seq<Entry>)
    requires |w| == 22
    ensures RowsDump(rules, e, w, 13, 19) <==> ResultFields(rules, e, w)
  {
    ResultRows(rules, e, w);
    HintRows(rules, e, w);
  }

  lemma ControlFieldsExact(rules: Rules, e: seq<Entry>, w: seq<Entry>)
    requires |w| == 22
    ensures RowsDump(rules, e, w, 19, 22) <==> ControlFields(rules, e, w)
  {
    ControlRows(rules, e, w);
  }

  lemma FieldsExact(rules: Rules, e: seq<Entry>, w: seq<Entry>)
    requires |w| == 22
    ensures RowsDump(rules, e, w, 0, 22) <==>
      StateFields(e, w) && EndpointFields(rules, e, w) && ResultFields(rules, e, w) && ControlFields(rules, e, w)
  {
    StateFieldsExact(rules, e, w);
    EndpointFieldsExact(rules, e, w);
    ResultFieldsExact(rules, e, w);
    ControlFieldsExact(rules, e, w);
    assert RowsDump(rules, e, w, 0, 22) <==>
      RowsDump(rules, e, w, 0, 6) && RowsDump(rules, e, w, 6, 13) && RowsDump(rules, e, w, 13, 19)
      && RowsDump(rules, e, w, 19, 22);
  }

  lemma IpTableMeaning(rules: Rules, v: Value, w: Value)
    ensures IpPayload(rules, v) == Some(w) <==>
      && v.Dict? && w.Dict? && |w.entries| == 22 && OnlyDeclared(IP_ROWS, v.entries)
      && RowsDump(rules, v.entries, w.entries, 0, 22) && IpConsistent(w.entries)
  {
    TableMeaning(IpRule(rules), IP_ROWS, IpConsistent, v, w);
    if v.Dict? && w.Dict? && |w.entries| == 22 {
      RowsDumped(rules, v.entries, w.entries);
    }
  }

  lemma RowsDumped(rules: Rules, e: seq<Entry>, w: seq<Entry>)
    requires |w| == 22
    ensures RowsDump(rules, e, w, 0, 22)
       <==> forall i :: 0 <= i < |IP_ROWS| ==> DumpedBy(IpRule(rules), IP_ROWS[i], e, w[i])
  {
    forall i | 0 <= i < 22 ensures RowDumps(rules, e, w, i) <==> DumpedBy(IpRule(rules), IP_ROWS[i], e, w[i]) {
    }
  }

  lemma IpDeclared(rules: Rules, e: seq<Entry>, w: seq<Entry>)
    requires |w| == 22 && RowsDump(rules, e, w, 0, 22)
    ensures OnlyDeclared(IP_ROWS, e) <==> NothingElse(e, w)
  {
    forall i | 0 <= i < 22 ensures w[i].key == Field(IP_ROWS[i].name) {
      assert RowDumps(rules, e, w, i);
    }
    DeclaredIsDumped(IP_ROWS, e, w);
  }

  /** An IP payload is accepted exactly when every field passes its written-out test and the dumped evidence agrees with
    * itself; what is dumped is what was given, with defaults, normalised addresses and read texts. */
  lemma IpExact(rules: Rules, v: Value, w: Value)
    ensures IpPayload(rules, v) == Some(w) <==> IpIs(rules, v, w)
  {
    IpTableMeaning(rules, v, w);
    if v.Dict? && w.Dict? && |w.entries| == 22 {
      FieldsExact(rules, v.entries, w.entries);
      EvidenceExact(w.entries);
      if RowsDump(rules, v.entries, w.entries, 0, 22) {
        IpDeclared(rules, v.entries, w.entries);
      }
    }
  }
}
