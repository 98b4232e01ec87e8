/** What strict acceptance demands of an evidence document, field by field, and how SHA256SUMS falls into lines. */
module ReleaseMeaning {
  import opened Wrappers
  import opened Bytes
  import opened Sorting
  import opened ChecksumFile
  import opened ReleaseEvidence

  // ---- Identity ----

  predicate IsText(fields: map<string, Scalar>, key: string, text: string) {
    key in fields && fields[key] == S(text)
  }

  /** The document names this release and this workflow run. */
  predicate NamesRelease(id: Identity, fields: map<string, Scalar>) {
    && IsText(fields, "schema_version", "1.1") && IsText(fields, "evidence_kind", id.kind)
    && IsText(fields, "release_version", id.version) && IsText(fields, "product_version", id.version)
    && IsText(fields, "source_commit", id.commit)
  }

  predicate NamesRun(id: Identity, workflow: map<string, Scalar>) {
    && IsText(workflow, "name", id.workflowName) && IsText(workflow, "repository", id.repository)
    && IsText(workflow, "artifact_name", id.artifactName) && IsText(workflow, "run_id", id.runId)
    && "run_attempt" in workflow && workflow["run_attempt"] == N(id.runAttempt)
    && IsText(workflow, "run_url", "https://github.com/" + id.repository + "/actions/runs/" + id.runId)
    && IsText(workflow, "event", id.event)
  }

  /** A lower-case word of letters, digits and underscores that starts with a letter. */
  predicate IsWord(name: string) {
    && name != "" && 'a' <= name[0] <= 'z'
    && forall c :: c in name ==> 'a' <= c <= 'z' || '0' <= c <= '9' || c == '_'
  }

  predicate PassedAs(records: Option<map<string, string>>, required: seq<string>) {
    && records.Some? && records.value != map[]
    && (forall name :: name in records.value ==>
          && IsWord(name)
          && (records.value[name] == "passed" || records.value[name] == "failed" || records.value[name] == "skipped"))
    && (forall name :: name in required ==> name in records.value && records.value[name] == "passed")
  }

  lemma PassedMeaning(records: Option<map<string, string>>, required: seq<string>)
    ensures Passed(records, required) <==> PassedAs(records, required)
  {
    forall name: string ensures IsStatusName(name) <==> IsWord(name) {
      WordMeaning(name);
    }
  }

  lemma WordMeaning(name: string)
    ensures IsStatusName(name) <==> IsWord(name)
  {
  }

  /** What the written identity holds: five fields, seven workflow fields, and nothing else is asked. */
  lemma IdentityExact(args: Arguments, doc: Document)
    ensures IdentityOk(args, doc) <==>
      && NamesRelease(args.id, doc.fields) && doc.workflow.Some? && NamesRun(args.id, doc.workflow.value)
      && PassedAs(doc.gates, args.gates) && PassedAs(doc.tests, args.tests)
  {
    PassedMeaning(doc.gates, args.gates);
    PassedMeaning(doc.tests, args.tests);
    FieldsMeaning(args.id, doc.fields);
    if doc.workflow.Some? {
      WorkflowMeaning(args.id, doc.workflow.value);
    }
  }

  lemma FieldsMeaning(id: Identity, fields: map<string, Scalar>)
    ensures Agrees(fields, Fields(id)) <==> NamesRelease(id, fields)
  {
    var expected := Fields(id);
    assert expected["schema_version"] == S("1.1") && expected["evidence_kind"] == S(id.kind);
    assert expected["release_version"] == S(id.version) && expected["product_version"] == S(id.version);
    assert expected["source_commit"] == S(id.commit);
  }

  lemma WorkflowMeaning(id: Identity, workflow: map<string, Scalar>)
    ensures Agrees(workflow, Workflow(id)) <==> NamesRun(id, workflow)
  {
    var expected := Workflow(id);
    assert expected["name"] == S(id.workflowName) && expected["repository"] == S(id.repository);
    assert expected["artifact_name"] == S(id.artifactName) && expected["run_id"] == S(id.runId);
    assert expected["run_attempt"] == N(id.runAttempt) && expected["event"] == S(id.event);
    assert expected["run_url"] == S(RunUrl(id));
  }

  // ---- Names and records ----

  /** A plain file name wherever it is used: no path, no special directory, no NUL, no Windows drive. */
  predicate IsPlainName(v: string) {
    && v != "" && v != "." && v != ".."
    && '/' !in v && '\\' !in v && '\0' !in v
    && (|v| < 2 || v[1] != ':')
  }

  predicate IsFitRecord(r: Record, required: map<string, string>) {
    && r.Record? && r.name.Some? && IsPlainName(r.name.value)
    && r.name.value in required && r.kind == Some(required[r.name.value])
    && r.size.Some? && r.size.value > 0
    && r.sha256.Some? && |r.sha256.value| == 64
    && forall i :: 0 <= i < 64 ==> '0' <= r.sha256.value[i] <= '9' || 'a' <= r.sha256.value[i] <= 'f'
  }

  lemma PlainMeaning(v: string)
    ensures SafeBasename(v) <==> IsPlainName(v)
  {
  }

  lemma RecordMeaning(r: Record, required: map<string, string>)
    ensures RecordOk(r, required) <==> IsFitRecord(r, required)
  {
    if r.Record? && r.name.Some? {
      PlainMeaning(r.name.value);
    }
  }

  /** The records are one fit record for each required file. */
  lemma RecordsExact(records: seq<Record>, required: map<string, string>)
    ensures RecordsOk(records, required) && NamesCover(records, required) <==>
      && (forall r :: r in records ==> IsFitRecord(r, required))
      && (forall i, j :: 0 <= i < j < |records| ==> NamesApart(records[i], records[j]))
      && forall n :: n in required ==> exists r :: r in records && r.Record? && r.name == Some(n)
  {
    assert (forall r :: r in records ==> IsFitRecord(r, required))
      <==> forall i :: 0 <= i < |records| ==> RecordOk(records[i], required) by {
      forall i | 0 <= i < |records| ensures RecordOk(records[i], required) <==> IsFitRecord(records[i], required) {
        RecordMeaning(records[i], required);
        assert records[i] in records;
      }
    }
    if forall i :: 0 <= i < |records| ==> RecordOk(records[i], required) {
      FitRecords(records, required);
    }
  }

  lemma FitRecords(records: seq<Record>, required: map<string, string>)
    requires forall i :: 0 <= i < |records| ==> RecordOk(records[i], required)
    ensures RecordsOk(records, required)
       <==> forall i, j :: 0 <= i < j < |records| ==> NamesApart(records[i], records[j])
    ensures NamesCover(records, required)
       <==> forall n :: n in required ==> exists r :: r in records && r.Record? && r.name == Some(n)
  {
    forall i | 0 <= i < |records| ensures records[i].Record? && records[i].name == Some(NameOf(records[i])) {
      assert RecordOk(records[i], required);
    }
    forall i, j | 0 <= i < j < |records|
      ensures NamesApart(records[i], records[j]) <==> NameOf(records[i]) != NameOf(records[j])
    {
    }
    forall n | n in required
      ensures (exists r :: r in records && r.Record? && r.name == Some(n))
         <==> exists i :: 0 <= i < |records| && NameOf(records[i]) == n
    {
      if r :| r in records && r.Record? && r.name == Some(n) {
        var i :| 0 <= i < |records| && records[i] == r;
        assert NameOf(records[i]) == n;
      }
      if i :| 0 <= i < |records| && NameOf(records[i]) == n {
        assert records[i] in records;
      }
    }
  }

  predicate NamesApart(a: Record, b: Record) {
    a.Record? && b.Record? ==> a.name != b.name
  }

  // ---- Lines ----

  predicate EndsLine(c: char) {
    c == '\n' || c == '\U{0B}' || c == '\U{0C}' || c == '\r' || '\U{1C}' <= c <= '\U{1E}'
  }

  predicate IsUnbroken(s: string) {
    forall i :: 0 <= i < |s| ==> !EndsLine(s[i])
  }

  lemma BreakMeaning(c: char)
    ensures IsBreak(c) <==> EndsLine(c)
  {
  }

  /** A text without a break is one line, or none if it is empty. */
  lemma {:induction false} UnbrokenLine(s: string)
    requires IsUnbroken(s)
    ensures SplitLines(s) == if s == "" then [] else [s]
  {
    if s != "" {
      BreakMeaning(s[0]);
      assert s == [s[0]] + s[1..];
      assert forall i :: 0 <= i < |s[1..]| ==> s[1..][i] == s[i + 1];
      UnbrokenLine(s[1..]);
      var rest := SplitLines(s[1..]);
      assert s[0] != '\r' && !IsBreak(s[0]);
      assert SplitLines(s) == if rest == [] then [[s[0]]] else [[s[0]] + rest[0]] + rest[1..];
      assert s[1..] == "" ==> s == [s[0]];
    }
  }

  /** What stands before the first break is the first line; a carriage return and the newline after it are one break. */
  lemma {:induction false} BrokenLine(s: string, c: char, rest: string)
    requires IsUnbroken(s) && EndsLine(c)
    ensures SplitLines(s + [c] + rest)
         == [s] + SplitLines(if c == '\r' && rest != "" && rest[0] == '\n' then rest[1..] else rest)
  {
    var text := s + [c] + rest;
    BreakMeaning(text[0]);
    if s == "" {
      assert text[1..] == rest;
      assert rest != "" ==> text[2..] == rest[1..];
    } else {
      assert forall i :: 0 <= i < |s[1..]| ==> s[1..][i] == s[i + 1];
      BrokenLine(s[1..], c, rest);
      assert text[1..] == s[1..] + [c] + rest;
      assert s == [s[0]] + s[1..];
    }
  }

  // ---- Acceptance ----

  /** Under every search root the name is missing or leads to one and the same file, and under some root it leads
    * there. */
  ghost predicate LeadsTo(w: World, name: string, key: string) {
    && (exists r :: 0 <= r < w.roots && w.candidate(r, name) == Found(key))
    && forall r :: 0 <= r < w.roots && !w.candidate(r, name).Absent? ==> w.candidate(r, name) == Found(key)
  }

  /** The file is not empty, has the size and digest recorded, and is a valid SBOM if it is one. */
  ghost predicate IsAsRecorded(w: World, sha: Hash, r: Record, required: map<string, string>) {
    && r.Record? && r.name.Some? && r.name.value in required
    && exists key :: LeadsTo(w, r.name.value, key) && Matches(sha, w.stored(key), r, required[r.name.value] == "sbom")
  }

  predicate Matches(sha: Hash, p: Stored, r: Record, sbom: bool)
    requires r.Record?
  {
    && p.size > 0 && r.size == Some(p.size) && p.data.Some? && r.sha256 == Some(HexDigest(sha(p.data.value)))
    && (sbom ==> p.validSbom)
  }

  /** What the checksum file must say of a name: the digest of the evidence, or that of the record of the name. */
  predicate ShouldList(w: World, sha: Hash, records: seq<Record>, name: string, digest: string) {
    if name == w.evidenceName then w.evidence.Some? && digest == HexDigest(sha(w.evidence.value))
    else exists r :: r in records && r.Record? && r.name == Some(name) && r.sha256 == Some(digest)
  }

  /** The checksum file can be read, each name once, and lists exactly what it should. */
  ghost predicate SumsAgree(w: World, sha: Hash, records: seq<Record>) {
    && w.checksums.Text? && w.checksums.text != "" && w.evidence.Some? && Readable(SplitLines(w.checksums.text))
    && forall name, digest ::
      Lists(SplitLines(w.checksums.text), name, digest) <==> ShouldList(w, sha, records, name, digest)
  }

  ghost predicate AllRequired(records: seq<Record>, required: map<string, string>) {
    && (forall r :: r in records ==> IsFitRecord(r, required))
    && (forall i, j :: 0 <= i < j < |records| ==> NamesApart(records[i], records[j]))
    && forall n :: n in required ==> exists r :: r in records && r.Record? && r.name == Some(n)
  }

  lemma PayloadsMeaning(w: World, sha: Hash, records: seq<Record>, required: map<string, string>)
    requires RecordsOk(records, required)
    ensures PayloadsOk(w, sha, records, required) <==> forall r :: r in records ==> IsAsRecorded(w, sha, r, required)
  {
    forall i | 0 <= i < |records|
      ensures PayloadOk(w, sha, NameOf(records[i]), records[i], required[NameOf(records[i])])
         <==> IsAsRecorded(w, sha, records[i], required)
      ensures records[i] in records
    {
      assert RecordOk(records[i], required);
      PayloadMeaning(w, sha, records[i], required);
    }
  }

  lemma PayloadMeaning(w: World, sha: Hash, r: Record, required: map<string, string>)
    requires RecordOk(r, required)
    ensures PayloadOk(w, sha, NameOf(r), r, required[NameOf(r)]) <==> IsAsRecorded(w, sha, r, required)
  {
    forall key ensures Unique(w, NameOf(r), key) <==> LeadsTo(w, NameOf(r), key) {
    }
  }

  lemma SumsMeaning(w: World, sha: Hash, records: seq<Record>, required: map<string, string>)
    requires RecordsOk(records, required)
    ensures ChecksumsOk(w, sha, records) <==> SumsAgree(w, sha, records)
  {
    forall name, digest | w.evidence.Some?
      ensures Expects(w, sha, records, name, digest) <==> ShouldList(w, sha, records, name, digest)
    {
      ExpectedMeaning(w, sha, records, required, name, digest);
    }
  }

  lemma ExpectedMeaning(w: World, sha: Hash, records: seq<Record>, required: map<string, string>, name: string,
                        digest: string)
    requires RecordsOk(records, required) && w.evidence.Some?
    ensures Expects(w, sha, records, name, digest) <==> ShouldList(w, sha, records, name, digest)
  {
    forall i | 0 <= i < |records|
      ensures Named(records[i]) && records[i].name == Some(NameOf(records[i])) && records[i] in records
    {
      assert RecordOk(records[i], required);
    }
  }

  lemma RequiredMeaning(records: seq<Record>, required: map<string, string>)
    ensures RecordsOk(records, required) && NamesCover(records, required) <==> AllRequired(records, required)
  {
    RecordsExact(records, required);
  }

  lemma FilesExact(w: World, sha: Hash, records: seq<Record>, required: map<string, string>)
    ensures FilesOk(w, sha, records, required) <==>
      && records != [] && AllRequired(records, required)
      && (forall r :: r in records ==> IsAsRecorded(w, sha, r, required))
      && SumsAgree(w, sha, records)
  {
    RequiredMeaning(records, required);
    if RecordsOk(records, required) {
      PayloadsMeaning(w, sha, records, required);
      SumsMeaning(w, sha, records, required);
    }
  }

  /** Evidence is accepted exactly when it names the release and the run, the demanded gates and tests passed, it
    * records each required file once and fitly, every file is where and as recorded, and SHA256SUMS says the same. */
  lemma AcceptedExact(w: World, sha: Hash, args: Arguments, required: map<string, string>, doc: Document)
    ensures Accepted(w, sha, args, required, doc) <==>
      && NamesRelease(args.id, doc.fields) && doc.workflow.Some? && NamesRun(args.id, doc.workflow.value)
      && PassedAs(doc.gates, args.gates) && PassedAs(doc.tests, args.tests)
      && doc.files.Some? && doc.files.value != [] && AllRequired(doc.files.value, required)
      && (forall r :: r in doc.files.value ==> IsAsRecorded(w, sha, r, required))
      && SumsAgree(w, sha, doc.files.value)
  {
    IdentityExact(args, doc);
    FilesExact(w, sha, ListOf(doc.files), required);
  }

  // ---- What the writer writes ----

  predicate IsLineOf(line: string, name: string, digest: string) {
    && line == digest + "  " + name && IsPlainName(name)
    && |digest| == 64 && forall i :: 0 <= i < 64 ==> '0' <= digest[i] <= '9' || 'a' <= digest[i] <= 'f'
  }

  /** A checksum line is a digest, two blanks and a plain name; no other line is read. */
  lemma LineExact(line: string, name: string, digest: string)
    ensures ParseLine(line) == Some(Entry(name, digest)) <==> IsLineOf(line, name, digest)
  {
    PlainMeaning(name);
    if IsLineOf(line, name, digest) {
      assert line[..64] == digest && line[66..] == name;
    }
    if ParseLine(line) == Some(Entry(name, digest)) {
      assert line == line[..64] + [line[64], line[65]] + line[66..];
      assert [line[64], line[65]] == "  ";
    }
  }

  ghost predicate ByName(a: Entry, b: Entry) {
    a.name == b.name || TextBefore(a.name, b.name)
  }

  lemma NameLe(a: Entry, b: Entry)
    ensures NameOrder()(a, b) <==> ByName(a, b)
  {
    if a.name == b.name {
      TextTotal(a.name, b.name);
    } else {
      TextLeMeaning(a.name, b.name);
    }
  }

  lemma NameOrdering()
    ensures Ordering(NameOrder())
  {
    forall a: Entry, b: Entry ensures NameOrder()(a, b) || NameOrder()(b, a) {
      TextTotal(a.name, b.name);
    }
    forall a: Entry, b: Entry, c: Entry | NameOrder()(a, b) && NameOrder()(b, c) ensures NameOrder()(a, c) {
      TextTransitive(a.name, b.name, c.name);
    }
  }

  /** SHA256SUMS lists its entries by name. */
  lemma PrintedByName(entries: seq<Entry>)
    ensures var sorted := Sort(NameOrder(), entries);
      && multiset(sorted) == multiset(entries) && Printed(entries) == Join(WrittenLines(sorted)) + "\n"
      && forall i, j :: 0 <= i < j < |sorted| ==> ByName(sorted[i], sorted[j])
  {
    var sorted := Sort(NameOrder(), entries);
    NameOrdering();
    SortSorted(NameOrder(), entries);
    forall i, j | 0 <= i < j < |sorted| ensures ByName(sorted[i], sorted[j]) {
      NameLe(sorted[i], sorted[j]);
    }
  }

  ghost predicate ByKindThenName(a: Input, b: Input) {
    TextBefore(a.kind, b.kind) || (a.kind == b.kind && (a.name == b.name || TextBefore(a.name, b.name)))
  }

  lemma KindNameMeaning(a: Input, b: Input)
    ensures KindNameLe(a, b) <==> ByKindThenName(a, b)
  {
    if a.kind != b.kind {
      TextLeMeaning(a.kind, b.kind);
    } else if a.name != b.name {
      NothingBeforeItself(a.kind);
      TextLeMeaning(a.name, b.name);
    } else {
      TextTotal(a.name, b.name);
    }
  }

  lemma NothingBeforeItself(s: string)
    ensures !TextBefore(s, s)
  {
  }

  lemma KindNameOrdering()
    ensures Ordering(KindNameOrder())
  {
    forall a: Input, b: Input ensures KindNameLe(a, b) || KindNameLe(b, a) {
      TextTotal(a.kind, b.kind);
      TextTotal(a.name, b.name);
    }
    forall a: Input, b: Input, c: Input | KindNameLe(a, b) && KindNameLe(b, c) ensures KindNameLe(a, c) {
      KindNameTransitive(a, b, c);
    }
  }

  lemma KindNameTransitive(a: Input, b: Input, c: Input)
    requires KindNameLe(a, b) && KindNameLe(b, c)
    ensures KindNameLe(a, c)
  {
    if a.kind == b.kind == c.kind {
      TextTransitive(a.name, b.name, c.name);
    } else if a.kind != b.kind && b.kind != c.kind {
      TextTransitive(a.kind, b.kind, c.kind);
      if a.kind == c.kind {
        TextAntisymmetric(a.kind, b.kind);
      }
    }
  }

  predicate Describes(sha: Hash, r: Record, x: Input) {
    r == Record(Some(x.name), Some(x.kind), Some(|x.data|), Some(HexDigest(sha(x.data))))
  }

  /** The document records every input once, by kind and then by name, with its size and digest. */
  lemma DocumentExact(sha: Hash, id: Identity, gates: map<string, string>, tests: map<string, string>,
                      inputs: seq<Input>)
    ensures var doc, sorted := DocumentOf(sha, id, gates, tests, inputs), Sort(KindNameOrder(), inputs);
      && NamesRelease(id, doc.fields) && doc.workflow.Some? && NamesRun(id, doc.workflow.value)
      && doc.gates == Some(gates) && doc.tests == Some(tests)
      && multiset(sorted) == multiset(inputs)
      && (forall i, j :: 0 <= i < j < |sorted| ==> ByKindThenName(sorted[i], sorted[j]))
      && doc.files.Some? && |doc.files.value| == |sorted|
      && forall i :: 0 <= i < |sorted| ==> Describes(sha, doc.files.value[i], sorted[i])
  {
    var sorted := Sort(KindNameOrder(), inputs);
    FieldsMeaning(id, Fields(id));
    WorkflowMeaning(id, Workflow(id));
    KindNameOrdering();
    SortSorted(KindNameOrder(), inputs);
    forall i, j | 0 <= i < j < |sorted| ensures ByKindThenName(sorted[i], sorted[j]) {
      KindNameMeaning(sorted[i], sorted[j]);
    }
  }
}
