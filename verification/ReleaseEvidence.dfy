/** Release evidence: the writer (generate_release_evidence.py) and the strict checker
  * (validate_v0127_release_evidence.py), for v0.1.27 and later. */
module ReleaseEvidence {
  import opened Wrappers
  import opened Bytes
  import opened Sorting
  import opened ChecksumFile

  // ---- Gate and test statuses ----

  const STATUSES := {"passed", "failed", "skipped"}

  /** `re.fullmatch(r"[a-z][a-z0-9_]*", name)` */
  predicate IsStatusName(name: string) {
    && name != "" && 'a' <= name[0] <= 'z'
    && forall c :: c in name ==> 'a' <= c <= 'z' || '0' <= c <= '9' || c == '_'
  }

  /** `value.split("=", 1)` */
  function SplitEquals(value: string): Option<(string, string)> {
    if value == "" then None
    else if value[0] == '=' then Some(("", value[1..]))
    else
      var rest := SplitEquals(value[1..]);
      if rest.None? then None else Some(([value[0]] + rest.value.0, rest.value.1))
  }

  datatype StatusError = NoEquals | BadName | BadStatus | DuplicateName

  function ParseStatus(value: string): Result<(string, string), StatusError> {
    var pair := SplitEquals(value);
    if pair.None? then Failure(NoEquals)
    else if !IsStatusName(pair.value.0) then Failure(BadName)
    else if pair.value.1 !in STATUSES then Failure(BadStatus)
    else Success(pair.value)
  }

  /** A status argument reads as name and status exactly when it is written `name=status`. */
  lemma StatusRoundTrip(name: string, status: string, value: string)
    requires IsStatusName(name) && status in STATUSES
    ensures ParseStatus(value) == Success((name, status)) <==> value == name + "=" + status
  {
    SplitsAtFirst(name, status, value);
  }

  lemma {:induction false} SplitsAtFirst(name: string, status: string, value: string)
    requires '=' !in name
    ensures SplitEquals(value) == Some((name, status)) <==> value == name + "=" + status
  {
    if value == "" {
      assert |name + "=" + status| > 0;
    } else if value[0] == '=' {
      if name == "" {
        assert name + "=" + status == ['='] + status;
        assert value == [value[0]] + value[1..];
      } else {
        assert (name + "=" + status)[0] == name[0] && name[0] in name;
      }
    } else if name == "" {
      assert (name + "=" + status)[0] == '=';
      assert SplitEquals(value).Some? ==> |SplitEquals(value).value.0| > 0;
    } else {
      SplitsAtFirst(name[1..], status, value[1..]);
      assert (name + "=" + status)[1..] == name[1..] + "=" + status;
      assert value == [value[0]] + value[1..] && name == [name[0]] + name[1..];
      assert name + "=" + status == [name[0]] + (name[1..] + "=" + status);
    }
  }

  ghost predicate Records(values: seq<string>, name: string, status: string) {
    exists v :: v in values && ParseStatus(v) == Success((name, status))
  }

  ghost predicate StatusesReadable(values: seq<string>) {
    && (forall v :: v in values ==> ParseStatus(v).Success?)
    && (forall i, j :: 0 <= i < j < |values| ==> StatusName(values[i]) != StatusName(values[j]))
  }

  function StatusName(value: string): string {
    if ParseStatus(value).Success? then ParseStatus(value).value.0 else ""
  }

  /** `_statuses`: succeeds exactly on well-formed values with distinct names, and then records each. */
  method Statuses(values: seq<string>) returns (r: Result<map<string, string>, StatusError>)
    ensures r.Success? <==> StatusesReadable(values)
    ensures r.Success? ==> forall name, status :: Maps(r.value, name, status) <==> Records(values, name, status)
  {
    var records: map<string, string> := map[];
    for i := 0 to |values|
      invariant StatusesReadable(values[..i])
      invariant forall name, status :: Maps(records, name, status) <==> Records(values[..i], name, status)
    {
      assert values[..i + 1] == values[..i] + [values[i]];
      if StatusesReadable(values) {
        StatusesPrefix(values, i + 1);
      }
      var parsed := ParseStatus(values[i]);
      if parsed.Failure? {
        assert values[i] in values;
        return Failure(parsed.error);
      }
      var (name, status) := parsed.value;
      if name in records {
        assert Maps(records, name, records[name]);
        DuplicateIsUnreadable(values, i, name, records[name]);
        return Failure(DuplicateName);
      }
      StatusesExtend(values[..i], values[i], records);
      records := records[name := status];
    }
    assert values[..|values|] == values;
    r := Success(records);
  }

  lemma StatusesPrefix(values: seq<string>, n: nat)
    requires n <= |values| && StatusesReadable(values)
    ensures StatusesReadable(values[..n])
  {
  }

  lemma DuplicateIsUnreadable(values: seq<string>, i: nat, name: string, status: string)
    requires i < |values| && Records(values[..i], name, status) && StatusName(values[i]) == name
      && ParseStatus(values[i]).Success?
    ensures !StatusesReadable(values)
  {
    var v :| v in values[..i] && ParseStatus(v) == Success((name, status));
    var j :| 0 <= j < i && values[j] == v;
    assert StatusName(values[j]) == StatusName(values[i]);
  }

  lemma StatusesExtend(values: seq<string>, v: string, records: map<string, string>)
    requires StatusesReadable(values) && ParseStatus(v).Success? && ParseStatus(v).value.0 !in records
    requires forall name, status :: Maps(records, name, status) <==> Records(values, name, status)
    ensures StatusesReadable(values + [v])
    ensures var (n, s) := ParseStatus(v).value;
      forall name, status :: Maps(records[n := s], name, status) <==> Records(values + [v], name, status)
  {
    var (n, s) := ParseStatus(v).value;
    forall u | u in values ensures StatusName(u) != n {
      var (m, t) := ParseStatus(u).value;
      assert Records(values, m, t);
      assert Maps(records, m, t);
    }
    forall name, status ensures Maps(records[n := s], name, status) <==> Records(values + [v], name, status) {
      RecordsSnoc(values, v, name, status);
      if name == n {
        assert Maps(records, name, status) <==> Records(values, name, status);
      }
    }
  }

  lemma RecordsSnoc(values: seq<string>, v: string, name: string, status: string)
    ensures Records(values + [v], name, status)
      <==> Records(values, name, status) || ParseStatus(v) == Success((name, status))
  {
    assert v in values + [v];
    forall u | u in values ensures u in values + [v] {
    }
  }

  // ---- The evidence document ----

  datatype Scalar = S(s: string) | N(n: int)

  /** One entry of `files` as JSON gives it: a field is absent when missing or of another type. */
  datatype Record = NotAnObject | Record(name: Option<string>, kind: Option<string>, size: Option<int>,
    sha256: Option<string>)

  /** The document as JSON gives it. */
  datatype Document = Document(
    fields: map<string, Scalar>,
    workflow: Option<map<string, Scalar>>,
    gates: Option<map<string, string>>,
    tests: Option<map<string, string>>,
    files: Option<seq<Record>>)

  /** The identity both tools are given on the command line. */
  datatype Identity = Identity(
    version: string, commit: string, kind: string, repository: string, artifactName: string,
    workflowName: string, runId: string, runAttempt: int, event: string)

  function RunUrl(id: Identity): string {
    "https://github.com/" + id.repository + "/actions/runs/" + id.runId
  }

  function Fields(id: Identity): map<string, Scalar> {
    map["schema_version" := S("1.1"), "evidence_kind" := S(id.kind), "release_version" := S(id.version),
        "product_version" := S(id.version), "source_commit" := S(id.commit)]
  }

  function Workflow(id: Identity): map<string, Scalar> {
    map["name" := S(id.workflowName), "repository" := S(id.repository), "artifact_name" := S(id.artifactName),
        "run_id" := S(id.runId), "run_attempt" := N(id.runAttempt), "run_url" := S(RunUrl(id)), "event" := S(id.event)]
  }

  // ---- The writer ----

  /** A file named on the command line, after `resolve`. */
  datatype Input = Input(kind: string, name: string, regular: bool, data: bytes)

  datatype WriteError = Missing(name: string) | Empty(name: string) | Reserved(name: string) | Duplicate(name: string)
                      | BadStatuses | NoGates | NoTests | NoFiles | NotAscii

  const EVIDENCE_NAME := "release-evidence.json"
  const CHECKSUMS_NAME := "SHA256SUMS.txt"

  function RecordOf(sha: Hash, input: Input): Record {
    Record(Some(input.name), Some(input.kind), Some(|input.data|), Some(HexDigest(sha(input.data))))
  }

  predicate InputOk(input: Input) {
    input.regular && input.data != [] && input.name != EVIDENCE_NAME && input.name != CHECKSUMS_NAME
  }

  /** Every file is there, not empty, not named like an output, and no two share a name. */
  predicate InputsOk(inputs: seq<Input>) {
    && (forall i :: 0 <= i < |inputs| ==> InputOk(inputs[i]))
    && (forall i, j :: 0 <= i < j < |inputs| ==> inputs[i].name != inputs[j].name)
  }

  function RecordsOf(sha: Hash, inputs: seq<Input>): (r: seq<Record>)
    ensures |r| == |inputs| && forall i :: 0 <= i < |r| ==> r[i] == RecordOf(sha, inputs[i])
  {
    seq(|inputs|, i requires 0 <= i < |inputs| => RecordOf(sha, inputs[i]))
  }

  /** The loop over artifacts, then SBOMs. */
  method BuildFiles(sha: Hash, inputs: seq<Input>) returns (r: Result<seq<Record>, WriteError>)
    ensures r.Success? <==> InputsOk(inputs)
    ensures r.Success? ==> r.value == RecordsOf(sha, inputs)
  {
    var files: seq<Record>, names: set<string> := [], {};
    for i := 0 to |inputs|
      invariant InputsOk(inputs[..i]) && files == RecordsOf(sha, inputs[..i])
      invariant forall name :: name in names <==> exists j :: 0 <= j < i && inputs[j].name == name
    {
      var input := inputs[i];
      if !input.regular {
        return Failure(Missing(input.name));
      }
      if input.data == [] {
        return Failure(Empty(input.name));
      }
      if input.name == EVIDENCE_NAME || input.name == CHECKSUMS_NAME {
        return Failure(Reserved(input.name));
      }
      if input.name in names {
        return Failure(Duplicate(input.name));
      }
      names := names + {input.name};
      files := files + [RecordOf(sha, input)];
    }
    assert inputs[..|inputs|] == inputs;
    r := Success(files);
  }

  predicate KindNameLe(a: Input, b: Input) {
    if a.kind == b.kind then TextLe(a.name, b.name) else TextLe(a.kind, b.kind)
  }

  function KindNameOrder(): (Input, Input) -> bool {
    (a, b) => KindNameLe(a, b)
  }

  function EntryOf(sha: Hash, input: Input): Entry {
    Entry(input.name, HexDigest(sha(input.data)))
  }

  function EntriesOf(sha: Hash, inputs: seq<Input>, evidence: bytes): (r: seq<Entry>)
    ensures |r| == |inputs| + 1
    ensures forall i :: 0 <= i < |inputs| ==> r[i] == EntryOf(sha, inputs[i])
    ensures r[|inputs|] == Entry(EVIDENCE_NAME, HexDigest(sha(evidence)))
  {
    seq(|inputs|, i requires 0 <= i < |inputs| => EntryOf(sha, inputs[i]))
      + [Entry(EVIDENCE_NAME, HexDigest(sha(evidence)))]
  }

  datatype Output = Output(document: Document, evidence: bytes, checksums: string)

  function DocumentOf(sha: Hash, id: Identity, gates: map<string, string>, tests: map<string, string>,
                      inputs: seq<Input>): Document {
    Document(Fields(id), Some(Workflow(id)), Some(gates), Some(tests),
      Some(RecordsOf(sha, Sort(KindNameOrder(), inputs))))
  }

  /** `main` of the writer, once the identity arguments are accepted; `dump` is the JSON encoding. */
  method Generate(sha: Hash, dump: Document -> bytes, id: Identity, gateArgs: seq<string>, testArgs: seq<string>,
                  inputs: seq<Input>)
    returns (r: Result<Output, WriteError>)
    ensures r.Success? <==>
      && StatusesReadable(gateArgs) && gateArgs != [] && StatusesReadable(testArgs) && testArgs != []
      && InputsOk(inputs) && inputs != [] && forall i :: 0 <= i < |inputs| ==> IsAscii(inputs[i].name)
    ensures r.Success? ==> exists gates, tests ::
      Written(sha, dump, id, gateArgs, testArgs, inputs, gates, tests, r.value)
  {
    var gates := Statuses(gateArgs);
    if gates.Failure? {
      return Failure(BadStatuses);
    }
    var tests := Statuses(testArgs);
    if tests.Failure? {
      return Failure(BadStatuses);
    }
    EmptyStatuses(gateArgs, gates.value);
    EmptyStatuses(testArgs, tests.value);
    if gates.value == map[] {
      return Failure(NoGates);
    }
    if tests.value == map[] {
      return Failure(NoTests);
    }
    var files := BuildFiles(sha, inputs);
    if files.Failure? {
      return Failure(files.error);
    }
    if inputs == [] {
      return Failure(NoFiles);
    }
    var document := DocumentOf(sha, id, gates.value, tests.value, inputs);
    if i :| 0 <= i < |inputs| && !IsAscii(inputs[i].name) {
      return Failure(NotAscii);
    }
    var output := Output(document, dump(document), Printed(EntriesOf(sha, inputs, dump(document))));
    assert Written(sha, dump, id, gateArgs, testArgs, inputs, gates.value, tests.value, output);
    r := Success(output);
  }

  predicate IsAscii(s: string) {
    forall c :: c in s ==> (c as int) < 128
  }

  lemma EmptyStatuses(values: seq<string>, m: map<string, string>)
    requires StatusesReadable(values)
    requires forall name, status :: Maps(m, name, status) <==> Records(values, name, status)
    ensures m == map[] <==> values == []
  {
    if values != [] {
      var (n, s) := ParseStatus(values[0]).value;
      assert Records(values, n, s);
      assert Maps(m, n, s);
    } else {
      forall n ensures n !in m {
        assert n in m ==> Maps(m, n, m[n]);
      }
    }
  }

  /** What the writer leaves behind. */
  ghost predicate Written(sha: Hash, dump: Document -> bytes, id: Identity, gateArgs: seq<string>,
                          testArgs: seq<string>,
                          inputs: seq<Input>, gates: map<string, string>, tests: map<string, string>, output: Output) {
    && (forall name, status :: Maps(gates, name, status) <==> Records(gateArgs, name, status))
    && (forall name, status :: Maps(tests, name, status) <==> Records(testArgs, name, status))
    && output.document == DocumentOf(sha, id, gates, tests, inputs)
    && output.evidence == dump(output.document)
    && output.checksums == Printed(EntriesOf(sha, inputs, output.evidence))
  }

  // ---- The checker ----

  const REQUIRED_WINDOWS := map[
    "SmartCommissioningApp.exe" := "artifact",
    "MIGRATION_ROLLBACK.md" := "artifact",
    "windows-acceptance.json" := "artifact",
    "SBOM.python.cdx.json" := "sbom",
    "SBOM.npm.cdx.json" := "sbom"]

  const REQUIRED_HOSTED := map[
    "MIGRATION_ROLLBACK.md" := "artifact",
    "SBOM.python.cdx.json" := "sbom",
    "SBOM.npm.cdx.json" := "sbom",
    "SBOM.image-api.cdx.json" := "sbom",
    "SBOM.image-worker.cdx.json" := "sbom",
    "SBOM.image-frontend.cdx.json" := "sbom"]

  datatype CheckFailure =
    | FieldMismatch(field: string) | WorkflowMissing | WorkflowMismatch(field: string)
    | RecordsMissing | InvalidStatusName(name: string) | InvalidStatus(name: string) | NotPassed(name: string)
    | FilesMissing | RecordNotAnObject | UnsafeName | DuplicateRecord(name: string) | UnexpectedName(name: string)
    | KindMismatch(name: string) | InvalidDigest(name: string) | InvalidSize(name: string)
    | RequiredMissing(name: string)
    | CannotResolve(name: string) | EscapesRoot(name: string) | NotRegular(name: string)
    | PayloadMissing(name: string) | Ambiguous(name: string)
    | PayloadEmpty(name: string) | SizeMismatch(name: string) | PayloadUnreadable(name: string)
    | DigestMismatch(name: string)
    | InvalidSbom(name: string)
    | ChecksumsUnreadable | ChecksumLine(failure: ReadFailure) | EvidenceUnreadable | ChecksumsDiffer

  // -- identity --

  /** Every expected field has exactly the expected value; other fields are not looked at. */
  predicate Agrees(actual: map<string, Scalar>, expected: map<string, Scalar>) {
    forall f :: f in expected ==> f in actual && actual[f] == expected[f]
  }

  method CompareFields(actual: map<string, Scalar>, expected: map<string, Scalar>, workflow: bool)
    returns (failures: seq<CheckFailure>)
    ensures failures == [] <==> Agrees(actual, expected)
  {
    failures := [];
    var left := expected.Keys;
    while left != {}
      invariant left <= expected.Keys
      invariant failures == [] <==> forall f :: f in expected && f !in left ==> f in actual && actual[f] == expected[f]
      decreases |left|
    {
      var f :| f in left;
      if f !in actual || actual[f] != expected[f] {
        failures := failures + [if workflow then WorkflowMismatch(f) else FieldMismatch(f)];
      }
      left := left - {f};
    }
  }

  // -- statuses --

  /** At least one record, every name and status well formed, and every required one passed. */
  predicate Passed(records: Option<map<string, string>>, required: seq<string>) {
    && records.Some? && records.value != map[]
    && (forall n :: n in records.value ==> IsStatusName(n) && records.value[n] in STATUSES)
    && (forall n :: n in required ==> Maps(records.value, n, "passed"))
  }

  /** `_passed_records` */
  method PassedRecords(records: Option<map<string, string>>, required: seq<string>)
    returns (failures: seq<CheckFailure>)
    ensures failures == [] <==> Passed(records, required)
  {
    if records.None? || records.value == map[] {
      return [RecordsMissing];
    }
    failures := RecordFormFailures(records.value);
    ghost var formed := failures;
    for i := 0 to |required|
      invariant failures == [] <==> formed == [] && forall n :: n in required[..i] ==> Maps(records.value, n, "passed")
    {
      assert required[..i + 1] == required[..i] + [required[i]];
      if !Maps(records.value, required[i], "passed") {
        failures := failures + [NotPassed(required[i])];
      }
    }
    assert required[..|required|] == required;
  }

  method RecordFormFailures(records: map<string, string>) returns (failures: seq<CheckFailure>)
    ensures failures == [] <==> forall n :: n in records ==> IsStatusName(n) && records[n] in STATUSES
  {
    failures := [];
    var left := records.Keys;
    while left != {}
      invariant left <= records.Keys
      invariant failures == [] <==> forall n :: n in records && n !in left ==> IsStatusName(n) && records[n] in STATUSES
      decreases |left|
    {
      var n :| n in left;
      if !IsStatusName(n) {
        failures := failures + [InvalidStatusName(n)];
      }
      if records[n] !in STATUSES {
        failures := failures + [InvalidStatus(n)];
      }
      left := left - {n};
    }
  }

  // -- file records --

  predicate Named(r: Record) {
    r.Record? && r.name.Some? && SafeBasename(r.name.value)
  }

  /** A record for a required file, of its kind, with a well-formed digest and a positive size. */
  predicate RecordOk(r: Record, required: map<string, string>) {
    && Named(r)
    && r.name.value in required && r.kind == Some(required[r.name.value])
    && r.sha256.Some? && IsSha256Hex(r.sha256.value)
    && r.size.Some? && r.size.value > 0
  }

  /** Every record is fit and no two share a name. */
  predicate RecordsOk(records: seq<Record>, required: map<string, string>) {
    && (forall i :: 0 <= i < |records| ==> RecordOk(records[i], required))
    && (forall i, j :: 0 <= i < j < |records| ==> NameOf(records[i]) != NameOf(records[j]))
  }

  function NameOf(r: Record): string {
    if Named(r) then r.name.value else ""
  }

  /** The first safe record of each name. */
  function TableOf(records: seq<Record>): map<string, Record> {
    if records == [] then map[]
    else
      var table, last := TableOf(records[..|records| - 1]), records[|records| - 1];
      if Named(last) && NameOf(last) !in table then table[NameOf(last) := last] else table
  }

  /** The table keeps the records under their own names, and no other. */
  predicate Tabulates(records: seq<Record>, valid: map<string, Record>) {
    && (forall n :: n in valid ==> valid[n] in records && Named(valid[n]) && NameOf(valid[n]) == n)
    && (forall i :: 0 <= i < |records| && Named(records[i]) ==> NameOf(records[i]) in valid)
  }

  function RecordFailures(r: Record, name: string, required: map<string, string>): (failures: seq<CheckFailure>)
    requires Named(r) && NameOf(r) == name
    ensures failures == [] <==> RecordOk(r, required)
  {
    (if name in required then [] else [UnexpectedName(name)])
    + (if r.kind == (if name in required then Some(required[name]) else None) then [] else [KindMismatch(name)])
    + (if r.sha256.Some? && IsSha256Hex(r.sha256.value) then [] else [InvalidDigest(name)])
    + (if r.size.Some? && r.size.value > 0 then [] else [InvalidSize(name)])
  }

  /** What one record is reported for, given the records tabulated before it. */
  function RecordIssues(r: Record, valid: map<string, Record>,
                        required: map<string, string>): (failures: seq<CheckFailure>)
    ensures failures == [] <==> Named(r) && NameOf(r) !in valid && RecordOk(r, required)
  {
    if !Named(r) then [if r.NotAnObject? then RecordNotAnObject else UnsafeName]
    else if NameOf(r) in valid then [DuplicateRecord(NameOf(r))]
    else RecordFailures(r, NameOf(r), required)
  }

  /** The loop over the file records. */
  method ReadRecords(records: seq<Record>, required: map<string, string>)
    returns (failures: seq<CheckFailure>, valid: map<string, Record>)
    ensures failures == [] <==> RecordsOk(records, required)
    ensures valid == TableOf(records) && Tabulates(records, valid)
  {
    failures, valid := [], map[];
    for i := 0 to |records|
      invariant failures == [] <==> RecordsOk(records[..i], required)
      invariant valid == TableOf(records[..i]) && Tabulates(records[..i], valid)
    {
      var r := records[i];
      assert records[..i + 1] == records[..i] + [r];
      ReadOneRecord(records[..i], r, required);
      failures := failures + RecordIssues(r, valid, required);
      if Named(r) && NameOf(r) !in valid {
        valid := valid[NameOf(r) := r];
      }
    }
    assert records[..|records|] == records;
  }

  lemma ReadOneRecord(records: seq<Record>, r: Record, required: map<string, string>)
    requires Tabulates(records, TableOf(records))
    ensures var valid := TableOf(records);
      && TableOf(records + [r]) == (if Named(r) && NameOf(r) !in valid then valid[NameOf(r) := r] else valid)
      && Tabulates(records + [r], TableOf(records + [r]))
      && (RecordsOk(records + [r], required)
          <==> RecordsOk(records, required) && Named(r) && NameOf(r) !in valid && RecordOk(r, required))
  {
    var valid := TableOf(records);
    assert (records + [r])[..|records|] == records;
    if !Named(r) {
      UnnamedRecordFails(records, r, valid, required);
    } else if NameOf(r) in valid {
      DuplicateRecordFails(records, r, valid, required);
    } else {
      FreshRecord(records, r, valid, required);
    }
  }

  lemma UnnamedRecordFails(records: seq<Record>, r: Record, valid: map<string, Record>, required: map<string, string>)
    requires Tabulates(records, valid) && !Named(r)
    ensures !RecordsOk(records + [r], required) && Tabulates(records + [r], valid)
  {
    var longer := records + [r];
    assert longer[|records|] == r;
    forall n | n in valid ensures valid[n] in longer {
      assert valid[n] in records;
    }
  }

  lemma DuplicateRecordFails(records: seq<Record>, r: Record, valid: map<string, Record>, required: map<string, string>)
    requires Tabulates(records, valid) && Named(r) && NameOf(r) in valid
    ensures !RecordsOk(records + [r], required) && Tabulates(records + [r], valid)
  {
    var longer := records + [r];
    var j :| 0 <= j < |records| && records[j] == valid[NameOf(r)];
    assert longer[j] == records[j] && longer[|records|] == r;
    forall n | n in valid ensures valid[n] in longer {
      assert valid[n] in records;
    }
  }

  lemma FreshRecord(records: seq<Record>, r: Record, valid: map<string, Record>, required: map<string, string>)
    requires Tabulates(records, valid) && Named(r) && NameOf(r) !in valid
    ensures RecordsOk(records + [r], required) <==> RecordsOk(records, required) && RecordOk(r, required)
    ensures Tabulates(records + [r], valid[NameOf(r) := r])
  {
    var longer := records + [r];
    assert longer[|records|] == r && r in longer;
    forall i | 0 <= i < |records| ensures longer[i] == records[i] && NameOf(records[i]) != NameOf(r) {
      assert Named(records[i]) ==> NameOf(records[i]) in valid;
      assert !Named(records[i]) ==> NameOf(records[i]) == "";
      assert NameOf(r) != "";
    }
    forall n | n in valid ensures valid[n] in longer {
      assert valid[n] in records;
    }
  }

  // -- payloads --

  /** What a search root answers for a name; `Found` carries the normalised resolved path. */
  datatype Candidate = Absent | Unresolvable | Escapes | Irregular | Found(key: string)

  /** A file on disk: its size, its bytes unless it cannot be read, and what the CycloneDX check says of it. */
  datatype Stored = Stored(size: nat, data: Option<bytes>, validSbom: bool)

  datatype ChecksumsOnDisk = Unusable | Text(text: string)

  datatype World = World(
    roots: nat,
    candidate: (nat, string) -> Candidate,
    stored: string -> Stored,
    checksums: ChecksumsOnDisk,
    evidenceName: string,
    evidence: Option<bytes>)

  /** Some root has the file, and every root either lacks the name or has that very file. */
  ghost predicate Unique(w: World, name: string, key: string) {
    && (exists r :: 0 <= r < w.roots && w.candidate(r, name) == Found(key))
    && (forall r :: 0 <= r < w.roots ==> w.candidate(r, name) == Absent || w.candidate(r, name) == Found(key))
  }

  predicate Harmless(c: Candidate) {
    c.Absent? || c.Found?
  }

  function CandidateFailures(c: Candidate, name: string): (failures: seq<CheckFailure>)
    ensures failures == [] <==> Harmless(c)
  {
    match c
    case Unresolvable => [CannotResolve(name)]
    case Escapes => [EscapesRoot(name)]
    case Irregular => [NotRegular(name)]
    case _ => []
  }

  /** `_find_payload`: a file without a failure exactly when it is the unique one. */
  method FindPayload(w: World, name: string) returns (path: Option<string>, failures: seq<CheckFailure>)
    ensures forall key :: failures == [] && path == Some(key) <==> Unique(w, name, key)
    ensures path.None? ==> failures != []
  {
    failures := [];
    var matches: set<string> := {};
    for r := 0 to w.roots
      invariant failures == [] <==> forall q :: 0 <= q < r ==> Harmless(w.candidate(q, name))
      invariant forall key :: key in matches <==> exists q :: 0 <= q < r && w.candidate(q, name) == Found(key)
    {
      var c := w.candidate(r, name);
      failures := failures + CandidateFailures(c, name);
      if c.Found? {
        matches := matches + {c.key};
      }
    }
    if matches == {} {
      return None, failures + [PayloadMissing(name)];
    }
    var key :| key in matches;
    if matches != {key} {
      ghost var other := OtherElement(matches, key);
      return None, failures + [Ambiguous(name)];
    }
    path := Some(key);
    UniqueMatch(w, name, key, matches);
  }

  lemma OtherElement(s: set<string>, x: string) returns (y: string)
    requires x in s && s != {x}
    ensures y in s && y != x
  {
    assert s == (s - {x}) + {x};
    y :| y in s - {x};
  }

  lemma UniqueMatch(w: World, name: string, key: string, matches: set<string>)
    requires matches == {key}
    requires forall k :: k in matches <==> exists q :: 0 <= q < w.roots && w.candidate(q, name) == Found(k)
    ensures forall k :: Unique(w, name, k) <==>
      k == key && forall q :: 0 <= q < w.roots ==> Harmless(w.candidate(q, name))
  {
    assert key in matches;
    forall q | 0 <= q < w.roots && w.candidate(q, name).Found? ensures w.candidate(q, name).key == key {
      assert w.candidate(q, name).key in matches;
    }
  }

  /** The payload is what its record says, byte for byte. */
  predicate StoredOk(sha: Hash, p: Stored, r: Record, kind: string)
    requires r.Record?
  {
    && p.size > 0 && r.size == Some(p.size)
    && p.data.Some? && r.sha256 == Some(HexDigest(sha(p.data.value)))
    && (kind == "sbom" ==> p.validSbom)
  }

  ghost predicate PayloadOk(w: World, sha: Hash, name: string, r: Record, kind: string)
    requires r.Record?
  {
    exists key :: Unique(w, name, key) && StoredOk(sha, w.stored(key), r, kind)
  }

  function StoredFailures(sha: Hash, p: Stored, r: Record, kind: string, name: string): (failures: seq<CheckFailure>)
    requires r.Record?
    ensures failures == [] <==> StoredOk(sha, p, r, kind)
  {
    (if p.size > 0 then [] else [PayloadEmpty(name)])
    + (if r.size == Some(p.size) then [] else [SizeMismatch(name)])
    + (if p.data.None? then [PayloadUnreadable(name)]
       else if r.sha256 == Some(HexDigest(sha(p.data.value))) then [] else [DigestMismatch(name)])
    + (if kind == "sbom" && !p.validSbom then [InvalidSbom(name)] else [])
  }

  method CheckPayload(w: World, sha: Hash, name: string, r: Record, kind: string) returns (failures: seq<CheckFailure>)
    requires r.Record?
    ensures failures == [] <==> PayloadOk(w, sha, name, r, kind)
  {
    var path, found := FindPayload(w, name);
    failures := found;
    if path.Some? {
      failures := failures + StoredFailures(sha, w.stored(path.value), r, kind, name);
      assert found == [] ==> Unique(w, name, path.value);
    }
  }

  /** The loop over the tabulated records of required files. */
  method CheckPayloads(w: World, sha: Hash, valid: map<string, Record>, required: map<string, string>)
    returns (failures: seq<CheckFailure>)
    requires forall n :: n in valid ==> valid[n].Record?
    ensures failures == [] <==> forall n :: n in valid && n in required ==> PayloadOk(w, sha, n, valid[n], required[n])
  {
    failures := [];
    var left := valid.Keys;
    while left != {}
      invariant left <= valid.Keys
      invariant failures == [] <==>
        forall n :: n in valid && n in required && n !in left ==> PayloadOk(w, sha, n, valid[n], required[n])
      decreases |left|
    {
      var n :| n in left;
      if n in required {
        var more := CheckPayload(w, sha, n, valid[n], required[n]);
        failures := failures + more;
      }
      left := left - {n};
    }
  }

  // -- the whole check --

  datatype Arguments = Arguments(id: Identity, gates: seq<string>, tests: seq<string>)

  method MissingFiles(required: map<string, string>, valid: map<string, Record>) returns (failures: seq<CheckFailure>)
    ensures failures == [] <==> required.Keys <= valid.Keys
  {
    failures := [];
    var left := required.Keys;
    while left != {}
      invariant left <= required.Keys
      invariant failures == [] <==> forall n :: n in required && n !in left ==> n in valid
      decreases |left|
    {
      var n :| n in left;
      if n !in valid {
        failures := failures + [RequiredMissing(n)];
      }
      left := left - {n};
    }
  }

  /** What SHA256SUMS must list: each record's digest, and the evidence file's own, which takes precedence. */
  predicate Expects(w: World, sha: Hash, records: seq<Record>, name: string, digest: string) {
    && w.evidence.Some?
    && if name == w.evidenceName then digest == HexDigest(sha(w.evidence.value))
       else exists i ::
         0 <= i < |records| && NameOf(records[i]) == name && Named(records[i]) && records[i].sha256 == Some(digest)
  }

  /** SHA256SUMS is readable and lists exactly what is expected. */
  ghost predicate ChecksumsOk(w: World, sha: Hash, records: seq<Record>) {
    && w.checksums.Text? && w.checksums.text != "" && w.evidence.Some?
    && Readable(SplitLines(w.checksums.text))
    && forall name, digest ::
      Lists(SplitLines(w.checksums.text), name, digest) <==> Expects(w, sha, records, name, digest)
  }

  function ListOf(files: Option<seq<Record>>): seq<Record> {
    if files.Some? then files.value else []
  }

  /** The files half of acceptance. */
  ghost predicate FilesOk(w: World, sha: Hash, records: seq<Record>, required: map<string, string>) {
    && records != [] && RecordsOk(records, required)
    && NamesCover(records, required) && PayloadsOk(w, sha, records, required)
    && ChecksumsOk(w, sha, records)
  }

  /** Every required name has a record. */
  ghost predicate NamesCover(records: seq<Record>, required: map<string, string>) {
    forall n :: n in required ==> exists i :: 0 <= i < |records| && NameOf(records[i]) == n
  }

  /** Every record's payload is the unique file of its name, as recorded. */
  ghost predicate PayloadsOk(w: World, sha: Hash, records: seq<Record>, required: map<string, string>)
    requires RecordsOk(records, required)
  {
    forall i :: 0 <= i < |records| ==> PayloadOk(w, sha, NameOf(records[i]), records[i], required[NameOf(records[i])])
  }

  /** The identity half: the arguments' identity, and every demanded gate and test passed. */
  predicate IdentityOk(args: Arguments, doc: Document) {
    && Agrees(doc.fields, Fields(args.id))
    && doc.workflow.Some? && Agrees(doc.workflow.value, Workflow(args.id))
    && Passed(doc.gates, args.gates) && Passed(doc.tests, args.tests)
  }

  /** Everything the strict check demands. */
  ghost predicate Accepted(w: World, sha: Hash, args: Arguments, required: map<string, string>, doc: Document) {
    IdentityOk(args, doc) && FilesOk(w, sha, ListOf(doc.files), required)
  }

  method CheckIdentity(args: Arguments, doc: Document) returns (failures: seq<CheckFailure>)
    ensures failures == [] <==> IdentityOk(args, doc)
  {
    failures := CompareFields(doc.fields, Fields(args.id), false);
    if doc.workflow.None? {
      failures := failures + [WorkflowMissing];
    } else {
      var more := CompareFields(doc.workflow.value, Workflow(args.id), true);
      failures := failures + more;
    }
    var gates := PassedRecords(doc.gates, args.gates);
    var tests := PassedRecords(doc.tests, args.tests);
    failures := failures + gates + tests;
  }

  function ExpectedMap(w: World, sha: Hash, valid: map<string, Record>): map<string, string>
    requires w.evidence.Some? && forall n :: n in valid ==> valid[n].Record?
  {
    (map n | n in valid :: if valid[n].sha256.Some? then valid[n].sha256.value else "None")
      [w.evidenceName := HexDigest(sha(w.evidence.value))]
  }

  /** The records, the payloads and the checksum file. */
  method CheckFiles(w: World, sha: Hash, records: seq<Record>, required: map<string, string>)
    returns (failures: seq<CheckFailure>)
    ensures failures == [] <==> FilesOk(w, sha, records, required)
  {
    var recordFailures, valid := ReadRecords(records, required);
    var missing := MissingFiles(required, valid);
    var payloads := CheckPayloads(w, sha, valid, required);
    var checksums := CheckChecksums(w, sha, valid);
    var empty := if records == [] then [FilesMissing] else [];
    failures := empty + recordFailures + missing + payloads + checksums;
    assert |failures| == |empty| + |recordFailures| + |missing| + |payloads| + |checksums|;
    if recordFailures == [] {
      TabulatedFilesOk(w, sha, records, valid, required);
    }
  }

  /** `main` of the checker: no failure exactly when everything demanded holds. */
  method Validate(w: World, sha: Hash, args: Arguments, required: map<string, string>, doc: Document)
    returns (failures: seq<CheckFailure>)
    ensures failures == [] <==> Accepted(w, sha, args, required, doc)
  {
    var identity := CheckIdentity(args, doc);
    var files := CheckFiles(w, sha, ListOf(doc.files), required);
    failures := identity + files;
  }

  /** What the loops check on the table, for records without a failure of their own. */
  lemma TabulatedFilesOk(w: World, sha: Hash, records: seq<Record>, valid: map<string, Record>,
                         required: map<string, string>)
    requires RecordsOk(records, required) && Tabulates(records, valid)
    ensures FilesOk(w, sha, records, required) <==>
      && records != [] && required.Keys <= valid.Keys
      && (forall n :: n in valid && n in required ==> PayloadOk(w, sha, n, valid[n], required[n]))
      && TableChecksumsOk(w, sha, valid)
  {
    TabulatedMeaning(w, sha, records, valid, required);
  }

  /** The SHA256SUMS half, against the tabulated records. */
  ghost predicate TableChecksumsOk(w: World, sha: Hash, valid: map<string, Record>)
    requires forall n :: n in valid ==> valid[n].Record?
  {
    && w.checksums.Text? && w.checksums.text != "" && w.evidence.Some?
    && Readable(SplitLines(w.checksums.text))
    && forall name, digest ::
      Lists(SplitLines(w.checksums.text), name, digest) <==> Maps(ExpectedMap(w, sha, valid), name, digest)
  }

  method CheckChecksums(w: World, sha: Hash, valid: map<string, Record>) returns (failures: seq<CheckFailure>)
    requires forall n :: n in valid ==> valid[n].Record?
    ensures failures == [] <==> TableChecksumsOk(w, sha, valid)
  {
    failures := [];
    var listed: map<string, string> := map[];
    if w.checksums.Unusable? || w.checksums.text == "" {
      failures := [ChecksumsUnreadable];
    } else {
      var read;
      read, listed := ReadLines(SplitLines(w.checksums.text));
      failures := seq(|read|, i requires 0 <= i < |read| => ChecksumLine(read[i]));
    }
    if w.evidence.None? {
      failures := failures + [EvidenceUnreadable];
    } else {
      if failures == [] {
        SameMap(SplitLines(w.checksums.text), listed, ExpectedMap(w, sha, valid));
      }
      if listed != ExpectedMap(w, sha, valid) {
        failures := failures + [ChecksumsDiffer];
      }
    }
  }

  lemma SameMap(lines: seq<string>, listed: map<string, string>, expected: map<string, string>)
    requires forall name, digest :: Lists(lines, name, digest) <==> Maps(listed, name, digest)
    ensures listed == expected <==> forall name, digest :: Lists(lines, name, digest) <==> Maps(expected, name, digest)
  {
    if forall name, digest :: Lists(lines, name, digest) <==> Maps(expected, name, digest) {
      forall n | n in listed ensures n in expected && expected[n] == listed[n] {
        assert Maps(listed, n, listed[n]);
        assert Lists(lines, n, listed[n]);
      }
      forall n | n in expected ensures n in listed {
        assert Maps(expected, n, expected[n]);
        assert Lists(lines, n, expected[n]);
      }
    }
  }

  /** For records without a failure, the table says what the records say. */
  lemma TabulatedMeaning(w: World, sha: Hash, records: seq<Record>, valid: map<string, Record>,
                         required: map<string, string>)
    requires RecordsOk(records, required) && Tabulates(records, valid)
    ensures required.Keys <= valid.Keys <==> NamesCover(records, required)
    ensures (forall n :: n in valid && n in required ==> PayloadOk(w, sha, n, valid[n], required[n]))
       <==> PayloadsOk(w, sha, records, required)
    ensures TableChecksumsOk(w, sha, valid) <==> ChecksumsOk(w, sha, records)
  {
    forall i | 0 <= i < |records| ensures NameOf(records[i]) in valid && valid[NameOf(records[i])] == records[i] {
      TableEntry(records, valid, required, i);
    }
    forall n | n in valid ensures exists i :: 0 <= i < |records| && NameOf(records[i]) == n && records[i] == valid[n] {
      var i :| 0 <= i < |records| && records[i] == valid[n];
    }
    if w.evidence.Some? {
      forall name, digest ensures Maps(ExpectedMap(w, sha, valid), name, digest)
        <==> Expects(w, sha, records, name, digest) {
        ExpectedEntry(w, sha, records, valid, required, name, digest);
      }
    }
  }

  lemma TableEntry(records: seq<Record>, valid: map<string, Record>, required: map<string, string>, i: nat)
    requires RecordsOk(records, required) && Tabulates(records, valid) && i < |records|
    ensures NameOf(records[i]) in valid && valid[NameOf(records[i])] == records[i]
  {
    assert RecordOk(records[i], required);
    var r := valid[NameOf(records[i])];
    var j :| 0 <= j < |records| && records[j] == r;
    assert NameOf(records[j]) == NameOf(records[i]);
  }

  lemma ExpectedEntry(w: World, sha: Hash, records: seq<Record>, valid: map<string, Record>,
                      required: map<string, string>,
                      name: string, digest: string)
    requires RecordsOk(records, required) && Tabulates(records, valid) && w.evidence.Some?
    ensures Maps(ExpectedMap(w, sha, valid), name, digest) <==> Expects(w, sha, records, name, digest)
  {
    if name != w.evidenceName {
      if name in valid {
        var i :| 0 <= i < |records| && records[i] == valid[name];
        assert RecordOk(records[i], required) && NameOf(records[i]) == name;
        forall j | 0 <= j < |records| && NameOf(records[j]) == name ensures j == i {
        }
      } else {
        forall j | 0 <= j < |records| ensures NameOf(records[j]) != name {
          TableEntry(records, valid, required, j);
        }
      }
    }
  }

  // ---- What acceptance means ----

  /** The accepted names are exactly the required ones, each once. */
  lemma AcceptedNames(w: World, sha: Hash, records: seq<Record>, required: map<string, string>, name: string)
    requires FilesOk(w, sha, records, required)
    ensures (exists i :: 0 <= i < |records| && NameOf(records[i]) == name) <==> name in required
  {
    forall i | 0 <= i < |records| ensures NameOf(records[i]) in required {
      assert RecordOk(records[i], required);
    }
  }

  /** SHA256SUMS lists the required files and the evidence file, and nothing else. */
  lemma AcceptedListing(w: World, sha: Hash, records: seq<Record>, required: map<string, string>, name: string,
                        digest: string)
    requires FilesOk(w, sha, records, required)
    ensures Lists(SplitLines(w.checksums.text), name, digest) ==> name in required || name == w.evidenceName
    ensures Lists(SplitLines(w.checksums.text), w.evidenceName, digest) <==> digest == HexDigest(sha(w.evidence.value))
  {
    AcceptedNames(w, sha, records, required, name);
    assert Lists(SplitLines(w.checksums.text), name, digest) <==> Expects(w, sha, records, name, digest);
    assert Lists(SplitLines(w.checksums.text), w.evidenceName, digest)
      <==> Expects(w, sha, records, w.evidenceName, digest);
  }

  lemma FilesBind(w: World, sha: Hash, records: seq<Record>, required: map<string, string>, name: string)
    requires FilesOk(w, sha, records, required) && name in required && name != w.evidenceName
    ensures exists key, data :: OneDigest(w, sha, records, required, name, key, data)
  {
    var i :| 0 <= i < |records| && NameOf(records[i]) == name;
    var r := records[i];
    assert RecordOk(r, required) && PayloadOk(w, sha, name, r, required[name]);
    assert Lists(SplitLines(w.checksums.text), name, r.sha256.value) by {
      assert Expects(w, sha, records, name, r.sha256.value);
    }
    PayloadBinds(w, sha, records, required, name, r);
  }

  /** Acceptance binds: the one stored file of a required name, its record and its checksum line carry one digest. */
  lemma AcceptanceBinds(w: World, sha: Hash, args: Arguments, required: map<string, string>, doc: Document,
                        name: string)
    requires Accepted(w, sha, args, required, doc) && name != w.evidenceName
    ensures name in required <==> exists key, data :: OneDigest(w, sha, ListOf(doc.files), required, name, key, data)
  {
    if name in required {
      FilesBind(w, sha, ListOf(doc.files), required, name);
    }
  }

  lemma PayloadBinds(w: World, sha: Hash, records: seq<Record>, required: map<string, string>, name: string, r: Record)
    requires r in records && RecordOk(r, required) && NameOf(r) == name && PayloadOk(w, sha, name, r, required[name])
    requires w.checksums.Text? && Lists(SplitLines(w.checksums.text), name, r.sha256.value)
    ensures exists key, data :: OneDigest(w, sha, records, required, name, key, data)
  {
    var key :| Unique(w, name, key) && StoredOk(sha, w.stored(key), r, required[name]);
    assert r == Record(Some(name), Some(required[name]), Some(w.stored(key).size),
      Some(HexDigest(sha(w.stored(key).data.value))));
    assert OneDigest(w, sha, records, required, name, key, w.stored(key).data.value);
  }

  /** The unique stored file of a name: its bytes give the digest of its record and of its checksum line. */
  ghost predicate OneDigest(w: World, sha: Hash, records: seq<Record>, required: map<string, string>, name: string,
                            key: string, data: bytes) {
    && Unique(w, name, key) && w.stored(key).data == Some(data)
    && name in required && w.checksums.Text?
    && Record(Some(name), Some(required[name]), Some(w.stored(key).size), Some(HexDigest(sha(data)))) in records
    && Lists(SplitLines(w.checksums.text), name, HexDigest(sha(data)))
  }

  // ---- The writer satisfies the checker ----

  /** The files given to the writer are exactly the required ones, each of its kind. */
  ghost predicate Covers(inputs: seq<Input>, required: map<string, string>) {
    && (forall x :: x in inputs ==> x.name in required && required[x.name] == x.kind)
    && (forall n :: n in required ==> exists x :: x in inputs && x.name == n)
  }

  /** The checker finds each input again, unchanged, at one place. */
  ghost predicate Delivered(w: World, inputs: seq<Input>) {
    forall x :: x in inputs ==> Reachable(w, x)
  }

  ghost predicate Reachable(w: World, input: Input) {
    exists key :: Unique(w, input.name, key) && Holds(w.stored(key), input)
  }

  predicate Holds(p: Stored, input: Input) {
    p.size == |input.data| && p.data == Some(input.data) && (input.kind == "sbom" ==> p.validSbom)
  }

  ghost predicate NamesPrintable(required: map<string, string>) {
    forall n :: n in required ==> NamePrintable(n)
  }

  ghost predicate AllPassed(values: seq<string>, required: seq<string>) {
    forall n :: n in required ==> Records(values, n, "passed")
  }

  /** Readable status arguments that pass what is required. */
  ghost predicate StatusesPassed(values: seq<string>, required: seq<string>) {
    values != [] && StatusesReadable(values) && AllPassed(values, required)
  }

  /** The files, the evidence and its checksum file stand where the checker looks. */
  ghost predicate FilesDelivered(w: World, inputs: seq<Input>, required: map<string, string>, output: Output) {
    && InputsOk(inputs) && inputs != [] && Covers(inputs, required) && Delivered(w, inputs)
    && w.checksums == Text(output.checksums) && w.evidenceName == EVIDENCE_NAME && w.evidence == Some(output.evidence)
  }

  /** Evidence as written, delivered with its files, is accepted. */
  lemma GeneratedIsAccepted(sha: Hash, dump: Document -> bytes, args: Arguments, gateArgs: seq<string>,
                            testArgs: seq<string>,
                            inputs: seq<Input>, gates: map<string, string>, tests: map<string, string>, output: Output,
                            w: World, required: map<string, string>)
    requires Written(sha, dump, args.id, gateArgs, testArgs, inputs, gates, tests, output)
    requires StatusesPassed(gateArgs, args.gates) && StatusesPassed(testArgs, args.tests)
    requires FilesDelivered(w, inputs, required, output) && NamesPrintable(required)
    ensures Accepted(w, sha, args, required, output.document)
  {
    WrittenStatusesPass(gateArgs, gates, args.gates);
    WrittenStatusesPass(testArgs, tests, args.tests);
    WrittenFilesOk(w, sha, inputs, required, output.evidence);
  }

  lemma WrittenFilesOk(w: World, sha: Hash, inputs: seq<Input>, required: map<string, string>, evidence: bytes)
    requires InputsOk(inputs) && inputs != [] && Covers(inputs, required) && NamesPrintable(required)
      && Delivered(w, inputs)
    requires w.checksums == Text(Printed(EntriesOf(sha, inputs, evidence))) && w.evidenceName == EVIDENCE_NAME
      && w.evidence == Some(evidence)
    ensures FilesOk(w, sha, RecordsOf(sha, Sort(KindNameOrder(), inputs)), required)
  {
    var sorted := Sort(KindNameOrder(), inputs);
    var records := RecordsOf(sha, sorted);
    SortedInputs(inputs);
    CoversPermuted(w, inputs, sorted, required);
    WrittenRecordsOk(sha, sorted, required);
    WrittenPayloadsOk(w, sha, sorted, required);
    WrittenNamesCover(sha, sorted, required);
    WrittenChecksumsOk(w, sha, inputs, sorted, required, evidence);
  }

  lemma CoversPermuted(w: World, inputs: seq<Input>, sorted: seq<Input>, required: map<string, string>)
    requires Covers(inputs, required) && Delivered(w, inputs) && forall x :: x in sorted <==> x in inputs
    ensures Covers(sorted, required) && Delivered(w, sorted)
  {
  }

  lemma WrittenNamesCover(sha: Hash, inputs: seq<Input>, required: map<string, string>)
    requires InputsOk(inputs) && Covers(inputs, required) && NamesPrintable(required)
    ensures NamesCover(RecordsOf(sha, inputs), required)
  {
    WrittenRecordsOk(sha, inputs, required);
    forall n | n in required ensures exists i :: 0 <= i < |inputs| && NameOf(RecordsOf(sha, inputs)[i]) == n {
      var x :| x in inputs && x.name == n;
      var i :| 0 <= i < |inputs| && inputs[i] == x;
      assert NameOf(RecordsOf(sha, inputs)[i]) == n;
    }
  }

  lemma WrittenStatusesPass(values: seq<string>, m: map<string, string>, required: seq<string>)
    requires values != [] && StatusesReadable(values) && AllPassed(values, required)
    requires forall name, status :: Maps(m, name, status) <==> Records(values, name, status)
    ensures Passed(Some(m), required)
  {
    EmptyStatuses(values, m);
    forall n | n in m ensures IsStatusName(n) && m[n] in STATUSES {
      assert Maps(m, n, m[n]);
      var v :| v in values && ParseStatus(v) == Success((n, m[n]));
    }
  }

  /** Sorting keeps what was given. */
  lemma SortedInputs(inputs: seq<Input>)
    requires InputsOk(inputs)
    ensures var sorted := Sort(KindNameOrder(), inputs);
      && InputsOk(sorted) && |sorted| == |inputs| && forall x :: x in sorted <==> x in inputs
  {
    var sorted := Sort(KindNameOrder(), inputs);
    forall x ensures x in sorted <==> x in inputs {
      assert x in multiset(sorted) <==> x in multiset(inputs);
    }
    InputNamesPermuted(inputs, sorted);
    forall i | 0 <= i < |sorted| ensures InputOk(sorted[i]) {
      assert sorted[i] in inputs;
    }
  }

  /** Distinct names stay distinct in any order. */
  lemma InputNamesPermuted(a: seq<Input>, b: seq<Input>)
    requires multiset(a) == multiset(b)
    requires forall i, j :: 0 <= i < j < |a| ==> a[i].name != a[j].name
    ensures forall i, j :: 0 <= i < j < |b| ==> b[i].name != b[j].name
  {
    forall i, j | 0 <= i < j < |b| ensures b[i].name != b[j].name {
      if b[i] == b[j] {
        assert b == b[..i] + [b[i]] + b[i + 1..j] + [b[j]] + b[j + 1..];
        assert multiset(b)[b[i]] >= 2;
        TwiceOccurs(a, b[i]);
      } else {
        assert b[i] in multiset(a) && b[j] in multiset(a);
      }
    }
  }

  lemma WrittenRecordsOk(sha: Hash, inputs: seq<Input>, required: map<string, string>)
    requires InputsOk(inputs) && Covers(inputs, required) && NamesPrintable(required)
    ensures RecordsOk(RecordsOf(sha, inputs), required)
    ensures forall i :: 0 <= i < |inputs| ==> NameOf(RecordsOf(sha, inputs)[i]) == inputs[i].name
  {
    var records := RecordsOf(sha, inputs);
    forall i | 0 <= i < |inputs| ensures RecordOk(records[i], required) && NameOf(records[i]) == inputs[i].name {
      assert InputOk(inputs[i]) && inputs[i] in inputs;
      assert records[i] == RecordOf(sha, inputs[i]);
    }
  }

  lemma WrittenPayloadsOk(w: World, sha: Hash, inputs: seq<Input>, required: map<string, string>)
    requires InputsOk(inputs) && Covers(inputs, required) && NamesPrintable(required) && Delivered(w, inputs)
    requires RecordsOk(RecordsOf(sha, inputs), required)
    ensures PayloadsOk(w, sha, RecordsOf(sha, inputs), required)
  {
    WrittenRecordsOk(sha, inputs, required);
    forall i | 0 <= i < |inputs|
      ensures PayloadOk(w, sha, inputs[i].name, RecordsOf(sha, inputs)[i], required[inputs[i].name])
    {
      assert InputOk(inputs[i]) && inputs[i] in inputs && Reachable(w, inputs[i]);
      var key :| Unique(w, inputs[i].name, key) && Holds(w.stored(key), inputs[i]);
      assert StoredOk(sha, w.stored(key), RecordOf(sha, inputs[i]), required[inputs[i].name]);
    }
  }

  lemma WrittenChecksumsOk(w: World, sha: Hash, inputs: seq<Input>, sorted: seq<Input>, required: map<string, string>,
                           evidence: bytes)
    requires InputsOk(inputs) && InputsOk(sorted) && Covers(inputs, required) && Covers(sorted, required)
      && NamesPrintable(required)
    requires forall x :: x in sorted <==> x in inputs
    requires w.checksums == Text(Printed(EntriesOf(sha, inputs, evidence))) && w.evidenceName == EVIDENCE_NAME
      && w.evidence == Some(evidence)
    ensures ChecksumsOk(w, sha, RecordsOf(sha, sorted))
  {
    var entries := EntriesOf(sha, inputs, evidence);
    var records := RecordsOf(sha, sorted);
    WrittenEntriesPrintable(sha, inputs, required, evidence);
    PrintedReadsBack(entries);
    WrittenRecordsOk(sha, sorted, required);
    forall name, digest ensures Entry(name, digest) in entries <==> Expects(w, sha, records, name, digest) {
      WrittenEntry(w, sha, inputs, sorted, required, evidence, name, digest);
    }
  }

  lemma WrittenEntriesPrintable(sha: Hash, inputs: seq<Input>, required: map<string, string>, evidence: bytes)
    requires InputsOk(inputs) && Covers(inputs, required) && NamesPrintable(required)
    ensures DistinctNames(EntriesOf(sha, inputs, evidence))
    ensures forall e :: e in EntriesOf(sha, inputs, evidence) ==> Printable(e)
  {
    var entries := EntriesOf(sha, inputs, evidence);
    EvidenceNamePrintable();
    forall i | 0 <= i < |inputs| ensures Printable(entries[i]) && entries[i].name != EVIDENCE_NAME {
      assert InputOk(inputs[i]) && inputs[i] in inputs;
    }
  }

  lemma EvidenceNamePrintable()
    ensures SafeBasename(EVIDENCE_NAME) && OnOneLine(EVIDENCE_NAME)
  {
  }

  /** The entries written are the evidence file's, and one for each file. */
  lemma EntryMeaning(sha: Hash, inputs: seq<Input>, evidence: bytes, e: Entry)
    requires InputsOk(inputs)
    ensures e in EntriesOf(sha, inputs, evidence) <==>
      if e.name == EVIDENCE_NAME then e.digest == HexDigest(sha(evidence))
      else exists x :: x in inputs && EntryOf(sha, x) == e
  {
    var entries := EntriesOf(sha, inputs, evidence);
    assert entries[|inputs|] in entries;
    forall i | 0 <= i < |inputs| ensures inputs[i].name != EVIDENCE_NAME && entries[i] == EntryOf(sha, inputs[i])
      && entries[i] in entries {
      assert InputOk(inputs[i]);
    }
    if e in entries {
      var i :| 0 <= i < |entries| && entries[i] == e;
      assert i < |inputs| ==> inputs[i] in inputs;
    }
  }

  lemma WrittenEntry(w: World, sha: Hash, inputs: seq<Input>, sorted: seq<Input>, required: map<string, string>,
                     evidence: bytes,
                     name: string, digest: string)
    requires InputsOk(inputs) && InputsOk(sorted) && Covers(sorted, required) && NamesPrintable(required)
    requires forall x :: x in sorted <==> x in inputs
    requires w.evidenceName == EVIDENCE_NAME && w.evidence == Some(evidence)
    ensures Entry(name, digest) in EntriesOf(sha, inputs, evidence)
      <==> Expects(w, sha, RecordsOf(sha, sorted), name, digest)
  {
    EntryMeaning(sha, inputs, evidence, Entry(name, digest));
    WrittenRecordsOk(sha, sorted, required);
    ExpectsMeaning(w, sha, sorted, name, digest, required);
  }

  lemma ExpectsMeaning(w: World, sha: Hash, sorted: seq<Input>, name: string, digest: string,
                       required: map<string, string>)
    requires RecordsOk(RecordsOf(sha, sorted), required) && w.evidence.Some?
    requires forall i :: 0 <= i < |sorted| ==> NameOf(RecordsOf(sha, sorted)[i]) == sorted[i].name
    ensures Expects(w, sha, RecordsOf(sha, sorted), name, digest) <==>
      if name == w.evidenceName then digest == HexDigest(sha(w.evidence.value))
      else exists x :: x in sorted && EntryOf(sha, x) == Entry(name, digest)
  {
    var records := RecordsOf(sha, sorted);
    forall i | 0 <= i < |sorted|
      ensures NameOf(records[i]) == name && Named(records[i]) && records[i].sha256 == Some(digest)
         <==> EntryOf(sha, sorted[i]) == Entry(name, digest)
    {
      assert RecordOk(records[i], required);
    }
    if x :| x in sorted && EntryOf(sha, x) == Entry(name, digest) {
      var i :| 0 <= i < |sorted| && sorted[i] == x;
      assert NameOf(records[i]) == name;
    }
  }

  /** A line of a split text holds no line break. */
  lemma {:induction false} SplitLinesUnbroken(text: string)
    ensures forall l, c :: l in SplitLines(text) && c in l ==> !IsBreak(c)
    decreases |text|
  {
    if text != "" {
      var lines := SplitLines(text);
      if text[0] == '\r' && |text| > 1 && text[1] == '\n' {
        SplitLinesUnbroken(text[2..]);
        assert forall l :: l in lines ==> l == "" || l in SplitLines(text[2..]);
      } else {
        var rest := SplitLines(text[1..]);
        SplitLinesUnbroken(text[1..]);
        if IsBreak(text[0]) {
          assert forall l :: l in lines ==> l == "" || l in rest;
        } else if rest == [] {
          assert forall l :: l in lines ==> l == [text[0]];
        } else {
          assert rest[0] in rest;
          assert forall l :: l in lines ==> l == [text[0]] + rest[0] || l in rest;
        }
      }
    }
  }

  /** What SHA256SUMS lists is a safe name without a line break. */
  lemma ListedIsUnbroken(text: string, name: string, digest: string)
    requires Lists(SplitLines(text), name, digest)
    ensures SafeBasename(name) && forall c :: c in name ==> !IsBreak(c)
  {
    SplitLinesUnbroken(text);
    var l :| l in SplitLines(text) && ParseLine(l) == Some(Entry(name, digest));
    forall c | c in name ensures !IsBreak(c) {
      assert c in l[66..] && c in l;
    }
  }

  /** Acceptance of any evidence needs printable names, the ASCII part aside. */
  lemma AcceptedNamesUnbroken(w: World, sha: Hash, args: Arguments, required: map<string, string>, doc: Document)
    requires Accepted(w, sha, args, required, doc) && w.evidenceName !in required
    ensures forall n :: n in required ==> SafeBasename(n) && forall c :: c in n ==> !IsBreak(c)
  {
    forall n | n in required ensures SafeBasename(n) && forall c :: c in n ==> !IsBreak(c) {
      AcceptanceBinds(w, sha, args, required, doc, n);
      var key, data :| OneDigest(w, sha, ListOf(doc.files), required, n, key, data);
      ListedIsUnbroken(w.checksums.text, n, HexDigest(sha(data)));
    }
  }

  /** For ASCII names, which the writer demands, the evidence as written and delivered is accepted exactly when every
    * required name is a safe file name without a line break. */
  lemma GeneratedIsAcceptedExactly(sha: Hash, dump: Document -> bytes, args: Arguments, gateArgs: seq<string>,
                                   testArgs: seq<string>, inputs: seq<Input>, gates: map<string, string>,
                                   tests: map<string, string>, output: Output, w: World, required: map<string, string>)
    requires Written(sha, dump, args.id, gateArgs, testArgs, inputs, gates, tests, output)
    requires StatusesPassed(gateArgs, args.gates) && StatusesPassed(testArgs, args.tests)
    requires FilesDelivered(w, inputs, required, output)
    requires forall n :: n in required ==> IsAscii(n)
    ensures Accepted(w, sha, args, required, output.document) <==> NamesUnbroken(required)
  {
    if NamesUnbroken(required) {
      UnbrokenIsPrintable(required);
      GeneratedIsAccepted(sha, dump, args, gateArgs, testArgs, inputs, gates, tests, output, w, required);
    } else if Accepted(w, sha, args, required, output.document) {
      ReservedIsNotRequired(inputs, required);
      AcceptedNamesUnbroken(w, sha, args, required, output.document);
    }
  }

  lemma UnbrokenIsPrintable(required: map<string, string>)
    requires NamesUnbroken(required) && forall n :: n in required ==> IsAscii(n)
    ensures NamesPrintable(required)
  {
    forall n | n in required ensures NamePrintable(n) {
    }
  }

  lemma ReservedIsNotRequired(inputs: seq<Input>, required: map<string, string>)
    requires InputsOk(inputs) && Covers(inputs, required)
    ensures EVIDENCE_NAME !in required
  {
    forall x | x in inputs ensures x.name != EVIDENCE_NAME {
      var i :| 0 <= i < |inputs| && inputs[i] == x;
      assert InputOk(inputs[i]);
    }
  }

  ghost predicate NamesUnbroken(required: map<string, string>) {
    forall n :: n in required ==> SafeBasename(n) && forall c :: c in n ==> !IsBreak(c)
  }

  predicate NamePrintable(name: string) {
    SafeBasename(name) && OnOneLine(name)
  }

  predicate PlainChar(c: char) {
    'a' <= c <= 'z' || 'A' <= c <= 'Z' || '0' <= c <= '9' || c in {'.', '_', '-'}
  }

  predicate PlainName(s: string) {
    |s| > 2 && forall i :: 0 <= i < |s| ==> PlainChar(s[i])
  }

  lemma PlainIsPrintable(s: string)
    requires PlainName(s)
    ensures NamePrintable(s)
  {
    forall c | c in s ensures PlainChar(c) {
      var i :| 0 <= i < |s| && s[i] == c;
    }
    assert PlainChar(s[1]);
  }

  lemma WindowsNamesPlain()
    ensures PlainName("SmartCommissioningApp.exe") && PlainName("windows-acceptance.json")
  {
  }

  lemma CommonNamesPlain()
    ensures PlainName("MIGRATION_ROLLBACK.md") && PlainName("SBOM.python.cdx.json") && PlainName("SBOM.npm.cdx.json")
  {
  }

  lemma HostedNamesPlain()
    ensures PlainName("SBOM.image-api.cdx.json") && PlainName("SBOM.image-worker.cdx.json")
    ensures PlainName("SBOM.image-frontend.cdx.json")
  {
  }

  /** The names the releases require can stand in a checksum file. */
  lemma RequiredNamesPrintable()
    ensures NamesPrintable(REQUIRED_WINDOWS) && NamesPrintable(REQUIRED_HOSTED)
  {
    WindowsNamesPlain();
    CommonNamesPlain();
    HostedNamesPlain();
    forall n | n in REQUIRED_WINDOWS || n in REQUIRED_HOSTED ensures NamePrintable(n) {
      PlainIsPrintable(n);
    }
  }
}
