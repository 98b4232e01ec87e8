/** Secret scan of files and nested archives (scan_v0137_release_secrets.py). */
module ArchiveScanner {
  import opened Wrappers
  import opened Bytes

  const MAX_MEMBER_BYTES := 50 * 1024 * 1024
  const MAX_DEPTH := 8

  // ---- What the libraries answer ----

  datatype Error = OSError | RuntimeError | ValueError | EOFError | BadZipFile | TarError | OtherError

  /** What reading one member yields; only a tar member can have no file or fail while being extracted. */
  datatype Content = Read(data: bytes) | NoFile | ExtractFails(error: Error) | ReadFails(error: Error)

  datatype Member = Member(name: string, regular: bool, size: nat, content: Content)

  datatype Opening = Opened(members: seq<Member>) | OpenFails(error: Error)

  datatype Assignment = Assignment(quoted: Option<string>, bare: Option<string>)

  /** The regular expressions, the name rules and the archive libraries. Nothing stops `open` from returning a member
    * that holds the very bytes that were opened. */
  datatype Env = Env(
    open: (bool, bytes) -> Opening,
    isArchive: string -> bool,
    isZipName: string -> bool,
    shouldScan: string -> bool,
    decode: bytes -> string,
    pem: string -> Option<nat>,
    credentialUrl: string -> bool,
    assignment: string -> Option<Assignment>,
    multiline: string -> seq<(nat, Assignment)>,
    mosquitto: string -> Option<string>,
    safe: string -> bool,
    simpleReference: string -> bool,
    keywordWithoutDigit: string -> bool)

  // ---- Text ----

  datatype Kind = PrivateKeyOrUrl | LiteralAssignment | MosquittoSecret
                | MemberTooLarge | UnreadableMember | UnreadableArchive | NestedTooDeep | UnreadableFile

  /** `line` is 0 for a finding about a whole file. */
  datatype Finding = Finding(origin: string, line: nat, kind: Kind)

  /** `_reportable_assignment`: the first non-empty of the quoted and the bare value, unless it is a reference, a label
    * or a placeholder. */
  predicate Reportable(env: Env, a: Assignment) {
    var quoted := a.quoted.Some? && a.quoted.value != "";
    var value := if quoted then a.quoted.value else if a.bare.Some? then a.bare.value else "";
    && value != ""
    && !(a.quoted.None? && env.simpleReference(value))
    && !env.keywordWithoutDigit(value)
    && !env.safe(value)
  }

  predicate LineAssigns(env: Env, line: string) {
    env.assignment(line).Some? && Reportable(env, env.assignment(line).value)
  }

  predicate LineLeaksToMosquitto(env: Env, line: string) {
    env.mosquitto(line).Some? && !env.safe(env.mosquitto(line).value)
  }

  function ScanLine(env: Env, origin: string, number: nat, line: string): seq<Finding> {
    (if env.credentialUrl(line) then [Finding(origin, number, PrivateKeyOrUrl)] else [])
    + (if LineAssigns(env, line) then [Finding(origin, number, LiteralAssignment)] else [])
    + (if LineLeaksToMosquitto(env, line) then [Finding(origin, number, MosquittoSecret)] else [])
  }

  /** Lines end after a newline, as `io.StringIO` iterates them. */
  function Lines(text: string): seq<string> {
    if text == "" then []
    else
      var rest := Lines(text[1..]);
      if text[0] == '\n' || rest == [] then [[text[0]]] + rest
      else [[text[0]] + rest[0]] + rest[1..]
  }

  function Joined(lines: seq<string>): string {
    if lines == [] then "" else lines[0] + Joined(lines[1..])
  }

  /** Non-empty, with a newline nowhere but at its end. */
  predicate IsLine(l: string) {
    l != "" && '\n' !in l[..|l| - 1]
  }

  predicate Terminated(l: string) {
    l != "" && l[|l| - 1] == '\n'
  }

  /** Lines of a text in order: each a line, all but the last terminated. */
  predicate AreLines(lines: seq<string>) {
    && (forall l :: l in lines ==> IsLine(l))
    && (forall i :: 0 <= i < |lines| - 1 ==> Terminated(lines[i]))
  }

  lemma LinePrepended(line: string, rest: seq<string>)
    requires AreLines(rest) && IsLine(line) && (rest != [] ==> Terminated(line))
    ensures AreLines([line] + rest) && Joined([line] + rest) == line + Joined(rest)
  {
    assert ([line] + rest)[1..] == rest;
  }

  lemma LineExtended(c: char, rest: seq<string>)
    requires rest != [] && AreLines(rest) && c != '\n' && IsLine(rest[0])
    ensures AreLines([[c] + rest[0]] + rest[1..]) && Joined([[c] + rest[0]] + rest[1..]) == [c] + Joined(rest)
  {
    CharPrepended(c, rest[0]);
    assert rest[1..] != [] ==> Terminated(rest[0]);
    assert AreLines(rest[1..]) by {
      assert forall i :: 0 <= i < |rest[1..]| - 1 ==> rest[1..][i] == rest[i + 1];
    }
    LinePrepended([c] + rest[0], rest[1..]);
    Associates([c], rest[0], Joined(rest[1..]));
  }

  lemma CharPrepended(c: char, line: string)
    requires c != '\n' && IsLine(line)
    ensures IsLine([c] + line) && (Terminated(line) ==> Terminated([c] + line))
  {
    var longer := [c] + line;
    assert longer[..|longer| - 1] == [c] + line[..|line| - 1];
  }

  lemma Associates(a: string, b: string, c: string)
    ensures a + (b + c) == a + b + c
  {
  }

  /** Splitting loses nothing: the lines joined are the text, and only the last may lack its newline. */
  lemma {:induction false} LinesSplit(text: string)
    ensures Joined(Lines(text)) == text
    ensures AreLines(Lines(text))
  {
    if text != "" {
      var rest := Lines(text[1..]);
      LinesSplit(text[1..]);
      if text[0] == '\n' || rest == [] {
        LinePrepended([text[0]], rest);
      } else {
        assert rest[0] in rest && IsLine(rest[0]);
        assert |rest| > 1 ==> Terminated(rest[0]);
        LineExtended(text[0], rest);
      }
      assert text == [text[0]] + text[1..];
    }
  }

  function Newlines(text: string): nat {
    if text == "" then 0 else (if text[0] == '\n' then 1 else 0) + Newlines(text[1..])
  }

  function LineNumber(text: string, offset: nat): nat {
    Newlines(text[..if offset <= |text| then offset else |text|]) + 1
  }

  function ScanLines(env: Env, origin: string, lines: seq<string>): seq<Finding> {
    if lines == [] then []
    else ScanLines(env, origin, lines[..|lines| - 1]) + ScanLine(env, origin, |lines|, lines[|lines| - 1])
  }

  function ScanMultiline(env: Env, origin: string, text: string, found: seq<(nat, Assignment)>): seq<Finding> {
    if found == [] then []
    else
      ScanMultiline(env, origin, text, found[..|found| - 1])
      + var last := found[|found| - 1];
        if Reportable(env, last.1) then [Finding(origin, LineNumber(text, last.0), LiteralAssignment)] else []
  }

  function PemFinding(env: Env, origin: string, text: string): seq<Finding> {
    if env.pem(text).Some? then [Finding(origin, LineNumber(text, env.pem(text).value), PrivateKeyOrUrl)] else []
  }

  function ScanText(env: Env, origin: string, text: string): seq<Finding> {
    PemFinding(env, origin, text)
    + ScanLines(env, origin, Lines(text))
    + ScanMultiline(env, origin, text, env.multiline(text))
  }

  predicate LineClean(env: Env, line: string) {
    !env.credentialUrl(line) && !LineAssigns(env, line) && !LineLeaksToMosquitto(env, line)
  }

  /** No pattern reports anything anywhere in the text. */
  predicate TextClean(env: Env, text: string) {
    && env.pem(text).None?
    && (forall l :: l in Lines(text) ==> LineClean(env, l))
    && (forall m :: m in env.multiline(text) ==> !Reportable(env, m.1))
  }

  lemma LineScanExact(env: Env, origin: string, number: nat, line: string)
    ensures ScanLine(env, origin, number, line) == [] <==> LineClean(env, line)
  {
    var a := if env.credentialUrl(line) then [Finding(origin, number, PrivateKeyOrUrl)] else [];
    var b := if LineAssigns(env, line) then [Finding(origin, number, LiteralAssignment)] else [];
    var c := if LineLeaksToMosquitto(env, line) then [Finding(origin, number, MosquittoSecret)] else [];
    assert |ScanLine(env, origin, number, line)| == |a| + |b| + |c|;
  }

  lemma {:induction false} LinesClean(env: Env, origin: string, lines: seq<string>)
    ensures ScanLines(env, origin, lines) == [] <==> forall l :: l in lines ==> LineClean(env, l)
  {
    if lines != [] {
      var front, last := lines[..|lines| - 1], lines[|lines| - 1];
      LinesClean(env, origin, front);
      LineScanExact(env, origin, |lines|, last);
      assert lines == front + [last];
      assert |ScanLines(env, origin, lines)| == |ScanLines(env, origin, front)|
        + |ScanLine(env, origin, |lines|, last)|;
      assert forall l :: l in lines <==> l in front || l == last;
    }
  }

  lemma {:induction false} MultilineClean(env: Env, origin: string, text: string, found: seq<(nat, Assignment)>)
    ensures ScanMultiline(env, origin, text, found) == [] <==> forall m :: m in found ==> !Reportable(env, m.1)
  {
    if found != [] {
      var front, last := found[..|found| - 1], found[|found| - 1];
      MultilineClean(env, origin, text, front);
      assert found == front + [last];
    }
  }

  lemma TextScanExact(env: Env, origin: string, text: string)
    ensures ScanText(env, origin, text) == [] <==> TextClean(env, text)
  {
    LinesClean(env, origin, Lines(text));
    MultilineClean(env, origin, text, env.multiline(text));
  }

  // ---- Archives ----

  datatype End = Finished | Raised(error: Error)

  datatype Scan = Scan(findings: seq<Finding>, end: End)

  /** The exceptions around one member read. */
  predicate MemberCatches(zip: bool, e: Error) {
    if zip then e in {OSError, RuntimeError, ValueError, BadZipFile} else e in {OSError, EOFError, ValueError}
  }

  /** The exceptions around the whole archive. */
  predicate ArchiveCatches(zip: bool, e: Error) {
    if zip then e in {OSError, BadZipFile} else e in {OSError, TarError}
  }

  function MemberLabel(origin: string, name: string): string {
    origin + "!" + name
  }

  function ScanMemberBytes(env: Env, origin: string, name: string, data: bytes, depth: nat): Scan
    decreases MAX_DEPTH - depth, 0
  {
    if env.isArchive(name) then
      if depth + 1 >= MAX_DEPTH then Scan([Finding(origin, 0, NestedTooDeep)], Finished)
      else ScanArchive(env, env.isZipName(name), origin, data, depth + 1)
    else Scan(ScanText(env, origin, env.decode(data)), Finished)
  }

  function ScanMember(env: Env, zip: bool, origin: string, m: Member, depth: nat): Scan
    decreases MAX_DEPTH - depth, 1
  {
    var inner := MemberLabel(origin, m.name);
    if !m.regular || !env.shouldScan(m.name) then Scan([], Finished)
    else if m.size > MAX_MEMBER_BYTES then Scan([Finding(inner, 0, MemberTooLarge)], Finished)
    else match m.content
      case Read(data) => ScanMemberBytes(env, inner, m.name, data, depth)
      case NoFile => Scan([Finding(inner, 0, UnreadableMember)], Finished)
      case ExtractFails(e) => Scan([], Raised(e))
      case ReadFails(e) =>
        if MemberCatches(zip, e) then Scan([Finding(inner, 0, UnreadableMember)], Finished) else Scan([], Raised(e))
  }

  function ScanMembers(env: Env, zip: bool, origin: string, members: seq<Member>, depth: nat): Scan
    decreases MAX_DEPTH - depth, 2, |members|
  {
    if members == [] then Scan([], Finished)
    else
      var first := ScanMember(env, zip, origin, members[0], depth);
      if first.end.Raised? then first
      else
        var rest := ScanMembers(env, zip, origin, members[1..], depth);
        Scan(first.findings + rest.findings, rest.end)
  }

  /** An exception that reaches the archive's own handler is one finding, and the members after it are not looked at. */
  function Guarded(zip: bool, origin: string, s: Scan): Scan {
    if s.end.Raised? && ArchiveCatches(zip, s.end.error)
    then Scan(s.findings + [Finding(origin, 0, UnreadableArchive)], Finished)
    else s
  }

  function ScanArchive(env: Env, zip: bool, origin: string, data: bytes, depth: nat): Scan
    decreases MAX_DEPTH - depth, 3
  {
    match env.open(zip, data)
    case OpenFails(e) => Guarded(zip, origin, Scan([], Raised(e)))
    case Opened(members) => Guarded(zip, origin, ScanMembers(env, zip, origin, members, depth))
  }

  // ---- Files ----

  /** Newline translation of a file opened as text: `\r\n` and a lone `\r` become `\n`. */
  function Universal(text: string): string {
    if text == "" then ""
    else if text[0] == '\r' then "\n" + Universal(if |text| > 1 && text[1] == '\n' then text[2..] else text[1..])
    else [text[0]] + Universal(text[1..])
  }

  /** After translation no carriage return is left, and text without any is untouched. */
  lemma {:induction false} UniversalNewlines(text: string)
    ensures '\r' !in Universal(text)
    ensures '\r' !in text ==> Universal(text) == text
  {
    if text != "" {
      UniversalNewlines(if text[0] == '\r' && |text| > 1 && text[1] == '\n' then text[2..] else text[1..]);
      if text[0] != '\r' {
        assert Universal(text) == [text[0]] + Universal(text[1..]);
        assert text == [text[0]] + text[1..];
      }
    }
  }

  /** The text of a file on disk. */
  function FileText(env: Env, data: bytes): string {
    Universal(env.decode(data))
  }

  /** A file given to `scan`: its bytes, or none when it cannot be opened. */
  datatype File = File(name: string, data: Option<bytes>)

  function ScanFile(env: Env, f: File): Scan {
    if f.data.None? then
      Scan([Finding(f.name, 0, if env.isArchive(f.name) then UnreadableArchive else UnreadableFile)], Finished)
    else if env.isArchive(f.name) then ScanArchive(env, env.isZipName(f.name), f.name, f.data.value, 0)
    else Scan(ScanText(env, f.name, FileText(env, f.data.value)), Finished)
  }

  function ScanFiles(env: Env, files: seq<File>): Scan {
    if files == [] then Scan([], Finished)
    else
      var first := ScanFile(env, files[0]);
      if first.end.Raised? then first
      else
        var rest := ScanFiles(env, files[1..]);
        Scan(first.findings + rest.findings, rest.end)
  }

  /** What was reported so far, followed by what the members from `i` on report, is the whole report. */
  ghost predicate MembersLeft(env: Env, zip: bool, origin: string, members: seq<Member>, depth: nat, i: nat,
                              before: seq<Finding>, now: seq<Finding>)
    requires i <= |members|
  {
    var whole := ScanMembers(env, zip, origin, members, depth);
    var rest := ScanMembers(env, zip, origin, members[i..], depth);
    before + whole.findings == now + rest.findings && whole.end == rest.end
  }

  lemma MembersStep(env: Env, zip: bool, origin: string, members: seq<Member>, depth: nat, i: nat,
                    before: seq<Finding>, now: seq<Finding>)
    requires i < |members| && MembersLeft(env, zip, origin, members, depth, i, before, now)
    ensures var first := ScanMember(env, zip, origin, members[i], depth);
      if first.end.Raised?
      then
        && before + ScanMembers(env, zip, origin, members, depth).findings == now + first.findings
        && ScanMembers(env, zip, origin, members, depth).end == first.end
      else MembersLeft(env, zip, origin, members, depth, i + 1, before, now + first.findings)
  {
    assert members[i..][1..] == members[i + 1..];
    Joins(now, ScanMember(env, zip, origin, members[i], depth).findings,
          ScanMembers(env, zip, origin, members[i + 1..], depth).findings);
  }

  /** What was reported so far, followed by what the files from `i` on report, is the whole report. */
  ghost predicate FilesLeft(env: Env, files: seq<File>, i: nat, before: seq<Finding>, now: seq<Finding>)
    requires i <= |files|
  {
    && before + ScanFiles(env, files).findings == now + ScanFiles(env, files[i..]).findings
    && ScanFiles(env, files).end == ScanFiles(env, files[i..]).end
  }

  lemma Joins(a: seq<Finding>, b: seq<Finding>, c: seq<Finding>)
    ensures a + (b + c) == a + b + c
  {
  }

  lemma JoinsFour(a: seq<Finding>, b: seq<Finding>, c: seq<Finding>, d: seq<Finding>)
    ensures a + (b + c + d) == a + b + c + d
  {
  }

  lemma FilesStep(env: Env, files: seq<File>, i: nat, before: seq<Finding>, now: seq<Finding>)
    requires i < |files| && FilesLeft(env, files, i, before, now)
    ensures var first := ScanFile(env, files[i]);
      if first.end.Raised?
      then before + ScanFiles(env, files).findings == now + first.findings && ScanFiles(env, files).end == first.end
      else FilesLeft(env, files, i + 1, before, now + first.findings)
  {
    assert files[i..][1..] == files[i + 1..];
    Joins(now, ScanFile(env, files[i]).findings, ScanFiles(env, files[i + 1..]).findings);
  }

  /** The shared list that every `_scan_*` function appends to. */
  class Scanner {
    var failures: seq<Finding>

    constructor ()
      ensures failures == []
    {
      failures := [];
    }

    method Report(origin: string, line: nat, kind: Kind)
      modifies this
      ensures failures == old(failures) + [Finding(origin, line, kind)]
    {
      failures := failures + [Finding(origin, line, kind)];
    }

    method Line(env: Env, origin: string, number: nat, line: string)
      modifies this
      ensures failures == old(failures) + ScanLine(env, origin, number, line)
    {
      if env.credentialUrl(line) {
        Report(origin, number, PrivateKeyOrUrl);
      }
      if LineAssigns(env, line) {
        Report(origin, number, LiteralAssignment);
      }
      if LineLeaksToMosquitto(env, line) {
        Report(origin, number, MosquittoSecret);
      }
    }

    method LinesOf(env: Env, origin: string, lines: seq<string>)
      modifies this
      ensures failures == old(failures) + ScanLines(env, origin, lines)
    {
      for i := 0 to |lines|
        invariant failures == old(failures) + ScanLines(env, origin, lines[..i])
      {
        assert lines[..i + 1][..i] == lines[..i];
        Line(env, origin, i + 1, lines[i]);
      }
      assert lines[..|lines|] == lines;
    }

    method MultilineOf(env: Env, origin: string, text: string, found: seq<(nat, Assignment)>)
      modifies this
      ensures failures == old(failures) + ScanMultiline(env, origin, text, found)
    {
      for i := 0 to |found|
        invariant failures == old(failures) + ScanMultiline(env, origin, text, found[..i])
      {
        assert found[..i + 1][..i] == found[..i];
        if Reportable(env, found[i].1) {
          Report(origin, LineNumber(text, found[i].0), LiteralAssignment);
        }
      }
      assert found[..|found|] == found;
    }

    method Pem(env: Env, origin: string, text: string)
      modifies this
      ensures failures == old(failures) + PemFinding(env, origin, text)
    {
      if env.pem(text).Some? {
        Report(origin, LineNumber(text, env.pem(text).value), PrivateKeyOrUrl);
      }
    }

    method Text(env: Env, origin: string, text: string)
      modifies this
      ensures failures == old(failures) + ScanText(env, origin, text)
    {
      ghost var before := failures;
      Pem(env, origin, text);
      LinesOf(env, origin, Lines(text));
      MultilineOf(env, origin, text, env.multiline(text));
      JoinsFour(before, PemFinding(env, origin, text), ScanLines(env, origin, Lines(text)),
                ScanMultiline(env, origin, text, env.multiline(text)));
    }

    method MemberBytes(env: Env, origin: string, name: string, data: bytes, depth: nat) returns (end: End)
      modifies this
      ensures failures == old(failures) + ScanMemberBytes(env, origin, name, data, depth).findings
      ensures end == ScanMemberBytes(env, origin, name, data, depth).end
      decreases MAX_DEPTH - depth, 0
    {
      if env.isArchive(name) {
        if depth + 1 >= MAX_DEPTH {
          Report(origin, 0, NestedTooDeep);
          return Finished;
        }
        end := Archive(env, env.isZipName(name), origin, data, depth + 1);
      } else {
        Text(env, origin, env.decode(data));
        end := Finished;
      }
    }

    method MemberOf(env: Env, zip: bool, origin: string, m: Member, depth: nat) returns (end: End)
      modifies this
      ensures failures == old(failures) + ScanMember(env, zip, origin, m, depth).findings
      ensures end == ScanMember(env, zip, origin, m, depth).end
      decreases MAX_DEPTH - depth, 1
    {
      end := Finished;
      if m.regular && env.shouldScan(m.name) {
        var inner := MemberLabel(origin, m.name);
        if m.size > MAX_MEMBER_BYTES {
          Report(inner, 0, MemberTooLarge);
        } else {
          match m.content {
            case Read(data) => end := MemberBytes(env, inner, m.name, data, depth);
            case NoFile => Report(inner, 0, UnreadableMember);
            case ExtractFails(e) => end := Raised(e);
            case ReadFails(e) =>
              if MemberCatches(zip, e) {
                Report(inner, 0, UnreadableMember);
              } else {
                end := Raised(e);
              }
          }
        }
      }
    }

    /** The loop over the members of an opened archive, left early by an exception. */
    method Members(env: Env, zip: bool, origin: string, members: seq<Member>, depth: nat) returns (end: End)
      modifies this
      ensures failures == old(failures) + ScanMembers(env, zip, origin, members, depth).findings
      ensures end == ScanMembers(env, zip, origin, members, depth).end
      decreases MAX_DEPTH - depth, 2
    {
      end := Finished;
      assert members[0..] == members;
      for i := 0 to |members|
        invariant MembersLeft(env, zip, origin, members, depth, i, old(failures), failures) && end == Finished
      {
        MembersStep(env, zip, origin, members, depth, i, old(failures), failures);
        end := MemberOf(env, zip, origin, members[i], depth);
        if end.Raised? {
          return;
        }
      }
      assert members[|members|..] == [];
    }

    /** `_scan_zip` and `_scan_tar`: the archive, opened and walked inside its exception handler. */
    method Archive(env: Env, zip: bool, origin: string, data: bytes, depth: nat) returns (end: End)
      modifies this
      ensures failures == old(failures) + ScanArchive(env, zip, origin, data, depth).findings
      ensures end == ScanArchive(env, zip, origin, data, depth).end
      decreases MAX_DEPTH - depth, 3
    {
      match env.open(zip, data) {
        case OpenFails(e) => end := Raised(e);
        case Opened(members) => end := Members(env, zip, origin, members, depth);
      }
      if end.Raised? && ArchiveCatches(zip, end.error) {
        Report(origin, 0, UnreadableArchive);
        end := Finished;
      }
    }

    method FileOf(env: Env, f: File) returns (end: End)
      modifies this
      ensures failures == old(failures) + ScanFile(env, f).findings
      ensures end == ScanFile(env, f).end
    {
      end := Finished;
      if f.data.None? {
        Report(f.name, 0, if env.isArchive(f.name) then UnreadableArchive else UnreadableFile);
      } else if env.isArchive(f.name) {
        end := Archive(env, env.isZipName(f.name), f.name, f.data.value, 0);
      } else {
        Text(env, f.name, FileText(env, f.data.value));
      }
    }

    method Files(env: Env, files: seq<File>) returns (end: End)
      modifies this
      ensures failures == old(failures) + ScanFiles(env, files).findings
      ensures end == ScanFiles(env, files).end
    {
      end := Finished;
      assert files[0..] == files;
      for i := 0 to |files|
        invariant FilesLeft(env, files, i, old(failures), failures) && end == Finished
      {
        FilesStep(env, files, i, old(failures), failures);
        end := FileOf(env, files[i]);
        if end.Raised? {
          return;
        }
      }
      assert files[|files|..] == [];
    }
  }

  // ---- What a clean scan means, without mentioning the scan ----

  predicate Scannable(env: Env, m: Member) {
    m.regular && env.shouldScan(m.name)
  }

  predicate Holds(env: Env, zip: bool, data: bytes, m: Member) {
    env.open(zip, data).Opened? && m in env.open(zip, data).members && Scannable(env, m)
  }

  /** A chain of scannable members, each read out of the one before it; a chain may be longer than any cap. */
  predicate Reaches(env: Env, zip: bool, data: bytes, path: seq<Member>)
    decreases |path|
  {
    path != [] ==>
      && Holds(env, zip, data, path[0])
      && (|path| > 1 ==>
            && path[0].content.Read? && env.isArchive(path[0].name)
            && Reaches(env, env.isZipName(path[0].name), path[0].content.data, path[1..]))
  }

  /** A member of an archive nested `depth` deep can be released. */
  predicate Sound(env: Env, m: Member, depth: nat) {
    && m.size <= MAX_MEMBER_BYTES && m.content.Read?
    && if env.isArchive(m.name)
       then depth + 1 < MAX_DEPTH && env.open(env.isZipName(m.name), m.content.data).Opened?
       else TextClean(env, env.decode(m.content.data))
  }

  /** Every chain out of the archive ends in a sound member. */
  ghost predicate AllSound(env: Env, zip: bool, data: bytes, depth: nat) {
    forall path: seq<Member> :: path != [] && Reaches(env, zip, data, path) ==>
      Sound(env, path[|path| - 1], depth + |path| - 1)
  }

  const CLEAN := Scan([], Finished)

  predicate MemberClean(env: Env, zip: bool, origin: string, m: Member, depth: nat) {
    ScanMember(env, zip, origin, m, depth) == CLEAN
  }

  lemma {:induction false} MembersClean(env: Env, zip: bool, origin: string, members: seq<Member>, depth: nat)
    ensures ScanMembers(env, zip, origin, members, depth) == CLEAN
       <==> forall m :: m in members ==> MemberClean(env, zip, origin, m, depth)
    decreases |members|
  {
    if members != [] {
      var first, rest := ScanMember(env, zip, origin, members[0], depth),
        ScanMembers(env, zip, origin, members[1..], depth);
      MembersClean(env, zip, origin, members[1..], depth);
      assert |first.findings + rest.findings| == |first.findings| + |rest.findings|;
      assert ScanMembers(env, zip, origin, members, depth) == CLEAN <==> first == CLEAN && rest == CLEAN;
      assert MemberClean(env, zip, origin, members[0], depth) <==> first == CLEAN;
      if first == CLEAN && rest == CLEAN {
        forall m | m in members ensures MemberClean(env, zip, origin, m, depth) {
          assert m == members[0] || m in members[1..];
        }
      }
    }
  }

  lemma ArchiveClean(env: Env, zip: bool, origin: string, data: bytes, depth: nat)
    ensures ScanArchive(env, zip, origin, data, depth) == CLEAN
       <==> env.open(zip, data).Opened?
            && forall m :: Holds(env, zip, data, m) ==> MemberClean(env, zip, origin, m, depth)
  {
    if env.open(zip, data).Opened? {
      MembersClean(env, zip, origin, env.open(zip, data).members, depth);
    }
  }

  /** A clean archive has only sound chains. */
  lemma {:induction false} CleanIsSound(env: Env, zip: bool, origin: string, data: bytes, depth: nat, path: seq<Member>)
    requires ScanArchive(env, zip, origin, data, depth) == CLEAN
    requires path != [] && Reaches(env, zip, data, path)
    ensures Sound(env, path[|path| - 1], depth + |path| - 1)
    decreases |path|
  {
    var m := path[0];
    var inner := MemberLabel(origin, m.name);
    ArchiveClean(env, zip, origin, data, depth);
    assert MemberClean(env, zip, origin, m, depth);
    assert m.content.Read? && ScanMemberBytes(env, inner, m.name, m.content.data, depth) == CLEAN;
    if |path| == 1 {
      TextScanExact(env, inner, env.decode(m.content.data));
      if env.isArchive(m.name) {
        ArchiveClean(env, env.isZipName(m.name), inner, m.content.data, depth + 1);
      }
    } else {
      CleanIsSound(env, env.isZipName(m.name), inner, m.content.data, depth + 1, path[1..]);
    }
  }

  /** An archive with only sound chains scans clean. */
  lemma {:induction false} SoundIsClean(env: Env, zip: bool, origin: string, data: bytes, depth: nat)
    requires env.open(zip, data).Opened? && AllSound(env, zip, data, depth)
    ensures ScanArchive(env, zip, origin, data, depth) == CLEAN
    decreases MAX_DEPTH - depth
  {
    forall m | Holds(env, zip, data, m) ensures MemberClean(env, zip, origin, m, depth) {
      SoundMemberIsClean(env, zip, origin, data, m, depth);
    }
    ArchiveClean(env, zip, origin, data, depth);
  }

  lemma {:induction false} SoundMemberIsClean(env: Env, zip: bool, origin: string, data: bytes, m: Member, depth: nat)
    requires AllSound(env, zip, data, depth) && Holds(env, zip, data, m)
    ensures MemberClean(env, zip, origin, m, depth)
    decreases MAX_DEPTH - depth, 0
  {
    assert Reaches(env, zip, data, [m]);
    assert Sound(env, [m][|[m]| - 1], depth + |[m]| - 1);
    var inner := MemberLabel(origin, m.name);
    if env.isArchive(m.name) {
      var zip' := env.isZipName(m.name);
      forall path: seq<Member> | path != [] && Reaches(env, zip', m.content.data, path)
        ensures Sound(env, path[|path| - 1], depth + 1 + |path| - 1)
      {
        var longer := [m] + path;
        assert longer[1..] == path;
        assert Reaches(env, zip, data, longer);
        assert Sound(env, longer[|longer| - 1], depth + |longer| - 1);
      }
      SoundIsClean(env, zip', inner, m.content.data, depth + 1);
    } else {
      TextScanExact(env, inner, env.decode(m.content.data));
    }
  }

  /** The archive scan fails closed, and only when it must. */
  lemma ArchiveScanExact(env: Env, zip: bool, origin: string, data: bytes, depth: nat)
    ensures ScanArchive(env, zip, origin, data, depth) == CLEAN
       <==> env.open(zip, data).Opened? && AllSound(env, zip, data, depth)
  {
    if ScanArchive(env, zip, origin, data, depth) == CLEAN {
      forall path: seq<Member> | path != [] && Reaches(env, zip, data, path)
        ensures Sound(env, path[|path| - 1], depth + |path| - 1)
      {
        CleanIsSound(env, zip, origin, data, depth, path);
      }
    } else if env.open(zip, data).Opened? && AllSound(env, zip, data, depth) {
      SoundIsClean(env, zip, origin, data, depth);
    }
  }

  ghost predicate FileSound(env: Env, f: File) {
    && f.data.Some?
    && if env.isArchive(f.name)
       then env.open(env.isZipName(f.name), f.data.value).Opened?
         && AllSound(env, env.isZipName(f.name), f.data.value, 0)
       else TextClean(env, FileText(env, f.data.value))
  }

  /** The whole scan returns without a finding exactly when every file given to it is sound. */
  lemma {:induction false} ScanExact(env: Env, files: seq<File>)
    ensures ScanFiles(env, files) == CLEAN <==> forall f :: f in files ==> FileSound(env, f)
  {
    if files != [] {
      var f := files[0];
      ScanExact(env, files[1..]);
      var first, rest := ScanFile(env, f), ScanFiles(env, files[1..]);
      assert |first.findings + rest.findings| == |first.findings| + |rest.findings|;
      assert forall g :: g in files <==> g == f || g in files[1..];
      FileScanExact(env, f);
    }
  }

  lemma FileScanExact(env: Env, f: File)
    ensures ScanFile(env, f) == CLEAN <==> FileSound(env, f)
  {
    if f.data.Some? {
      TextScanExact(env, f.name, FileText(env, f.data.value));
      ArchiveScanExact(env, env.isZipName(f.name), f.name, f.data.value, 0);
    }
  }

  function Copies(m: Member, n: nat): (path: seq<Member>)
    ensures |path| == n && forall i :: 0 <= i < n ==> path[i] == m
  {
    if n == 0 then [] else [m] + Copies(m, n - 1)
  }

  lemma {:induction false} CopiesReach(env: Env, zip: bool, data: bytes, m: Member, n: nat)
    requires Holds(env, zip, data, m) && m.content == Read(data) && env.isArchive(m.name)
      && env.isZipName(m.name) == zip
    ensures Reaches(env, zip, data, Copies(m, n))
  {
    if n > 0 {
      assert Copies(m, n)[1..] == Copies(m, n - 1);
      CopiesReach(env, zip, data, m, n - 1);
    }
  }

  /** An archive that contains itself is never passed, though its chains never end. */
  lemma SelfContainingIsReported(env: Env, zip: bool, origin: string, data: bytes, m: Member, depth: nat)
    requires Holds(env, zip, data, m) && m.content == Read(data) && env.isArchive(m.name)
      && env.isZipName(m.name) == zip
    ensures ScanArchive(env, zip, origin, data, depth) != CLEAN
  {
    var path := Copies(m, MAX_DEPTH);
    CopiesReach(env, zip, data, m, MAX_DEPTH);
    assert !Sound(env, path[|path| - 1], depth + |path| - 1);
    ArchiveScanExact(env, zip, origin, data, depth);
  }

  /** Every finding names the file it came from. */
  lemma {:induction false} FindingsAreLabelled(env: Env, zip: bool, origin: string, data: bytes, depth: nat)
    ensures forall f :: f in ScanArchive(env, zip, origin, data, depth).findings ==> origin <= f.origin
    decreases MAX_DEPTH - depth, 3
  {
    match env.open(zip, data)
    case OpenFails(_) =>
    case Opened(members) => MembersAreLabelled(env, zip, origin, members, depth);
  }

  lemma {:induction false} MembersAreLabelled(env: Env, zip: bool, origin: string, members: seq<Member>, depth: nat)
    ensures forall f :: f in ScanMembers(env, zip, origin, members, depth).findings ==> origin <= f.origin
    decreases MAX_DEPTH - depth, 2, |members|
  {
    if members != [] {
      MemberIsLabelled(env, zip, origin, members[0], depth);
      MembersAreLabelled(env, zip, origin, members[1..], depth);
    }
  }

  lemma {:induction false} MemberIsLabelled(env: Env, zip: bool, origin: string, m: Member, depth: nat)
    ensures forall f :: f in ScanMember(env, zip, origin, m, depth).findings ==> origin <= f.origin
    decreases MAX_DEPTH - depth, 1
  {
    var inner := MemberLabel(origin, m.name);
    if m.content.Read? {
      if env.isArchive(m.name) && depth + 1 < MAX_DEPTH {
        FindingsAreLabelled(env, env.isZipName(m.name), inner, m.content.data, depth + 1);
      }
      TextIsLabelled(env, inner, env.decode(m.content.data));
    }
  }

  lemma {:induction false} TextIsLabelled(env: Env, origin: string, text: string)
    ensures forall f :: f in ScanText(env, origin, text) ==> f.origin == origin
  {
    LinesAreLabelled(env, origin, Lines(text));
    MultilineIsLabelled(env, origin, text, env.multiline(text));
  }

  lemma {:induction false} LinesAreLabelled(env: Env, origin: string, lines: seq<string>)
    ensures forall f :: f in ScanLines(env, origin, lines) ==> f.origin == origin
  {
    if lines != [] {
      LinesAreLabelled(env, origin, lines[..|lines| - 1]);
    }
  }

  lemma {:induction false} MultilineIsLabelled(env: Env, origin: string, text: string, found: seq<(nat, Assignment)>)
    ensures forall f :: f in ScanMultiline(env, origin, text, found) ==> f.origin == origin
  {
    if found != [] {
      MultilineIsLabelled(env, origin, text, found[..|found| - 1]);
    }
  }
}
