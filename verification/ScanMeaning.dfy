/** What the secret scan reports, where, and which exceptions get out of it. */
module ScanMeaning {
  import opened Wrappers
  import opened Bytes
  import opened ArchiveScanner

  // ---- Texts ----

  /** The value an assignment is judged by: the quoted one, or the bare one where that is missing or empty. */
  predicate AssignedValue(a: Assignment, value: string) {
    value != "" && if a.quoted.Some? && a.quoted.value != "" then a.quoted.value == value else a.bare == Some(value)
  }

  /** Neither a bare reference, nor a label with a keyword and no digit, nor a placeholder. */
  predicate LooksSecret(env: Env, a: Assignment, value: string) {
    !env.keywordWithoutDigit(value) && !env.safe(value) && (a.quoted.None? ==> !env.simpleReference(value))
  }

  lemma ReportableExact(env: Env, a: Assignment)
    ensures Reportable(env, a) <==> exists value :: AssignedValue(a, value) && LooksSecret(env, a, value)
  {
    if a.quoted.Some? && a.quoted.value != "" {
      assert AssignedValue(a, a.quoted.value);
    } else if a.bare.Some? && a.bare.value != "" {
      assert AssignedValue(a, a.bare.value);
    }
  }

  ghost predicate Assigns(env: Env, a: Assignment) {
    exists value :: AssignedValue(a, value) && LooksSecret(env, a, value)
  }

  /** What one line is reported for. */
  ghost predicate LineShows(env: Env, line: string, kind: Kind) {
    match kind
    case PrivateKeyOrUrl => env.credentialUrl(line)
    case LiteralAssignment => env.assignment(line).Some? && Assigns(env, env.assignment(line).value)
    case MosquittoSecret => env.mosquitto(line).Some? && !env.safe(env.mosquitto(line).value)
    case _ => false
  }

  lemma LineExact(env: Env, origin: string, number: nat, line: string, f: Finding)
    ensures f in ScanLine(env, origin, number, line)
       <==> f.origin == origin && f.line == number && LineShows(env, line, f.kind)
  {
    if env.assignment(line).Some? {
      ReportableExact(env, env.assignment(line).value);
    }
  }

  /** Line numbers count from one. */
  lemma {:induction false} LinesExact(env: Env, origin: string, lines: seq<string>, f: Finding)
    ensures f in ScanLines(env, origin, lines) <==>
      f.origin == origin && 1 <= f.line <= |lines| && LineShows(env, lines[f.line - 1], f.kind)
  {
    if lines != [] {
      var n := |lines| - 1;
      LinesExact(env, origin, lines[..n], f);
      LineExact(env, origin, |lines|, lines[n], f);
    }
  }

  /** The newlines among the first `n` characters. */
  function Breaks(text: string, n: nat): nat
    requires n <= |text|
  {
    if n == 0 then 0 else Breaks(text, n - 1) + if text[n - 1] == '\n' then 1 else 0
  }

  /** The position lies on the line of that number. */
  predicate OnLine(text: string, offset: nat, line: nat) {
    line == 1 + Breaks(text, if offset <= |text| then offset else |text|)
  }

  lemma {:induction false} NewlinesJoin(a: string, b: string)
    ensures Newlines(a + b) == Newlines(a) + Newlines(b)
  {
    if a == "" {
      assert a + b == b;
    } else {
      assert (a + b)[0] == a[0] && (a + b)[1..] == a[1..] + b;
      NewlinesJoin(a[1..], b);
    }
  }

  lemma {:induction false} NewlinesExact(text: string, n: nat)
    requires n <= |text|
    ensures Newlines(text[..n]) == Breaks(text, n)
  {
    if n > 0 {
      NewlinesExact(text, n - 1);
      NewlinesJoin(text[..n - 1], [text[n - 1]]);
      assert text[..n] == text[..n - 1] + [text[n - 1]] && [text[n - 1]][1..] == "";
    }
  }

  lemma LineNumberExact(text: string, offset: nat)
    ensures OnLine(text, offset, LineNumber(text, offset))
  {
    NewlinesExact(text, if offset <= |text| then offset else |text|);
  }

  ghost predicate MultilineShows(env: Env, text: string, found: seq<(nat, Assignment)>, line: nat) {
    exists m :: m in found && OnLine(text, m.0, line) && Assigns(env, m.1)
  }

  lemma {:induction false} MultilineExact(env: Env, origin: string, text: string, found: seq<(nat, Assignment)>,
                                          f: Finding)
    ensures f in ScanMultiline(env, origin, text, found)
       <==> f.origin == origin && f.kind == LiteralAssignment && MultilineShows(env, text, found, f.line)
  {
    if found != [] {
      var front, last := found[..|found| - 1], found[|found| - 1];
      MultilineExact(env, origin, text, front, f);
      ReportableExact(env, last.1);
      LineNumberExact(text, last.0);
      assert found == front + [last];
      assert forall m :: m in found <==> m in front || m == last;
    }
  }

  ghost predicate TextShows(env: Env, text: string, line: nat, kind: Kind) {
    || (kind == PrivateKeyOrUrl && env.pem(text).Some? && OnLine(text, env.pem(text).value, line))
    || (1 <= line <= |Lines(text)| && LineShows(env, Lines(text)[line - 1], kind))
    || (kind == LiteralAssignment && MultilineShows(env, text, env.multiline(text), line))
  }

  /** A text is reported for a private key where it starts, for each line that shows something, and for each assignment
    * over two lines, at its line. */
  lemma TextFindings(env: Env, origin: string, text: string, f: Finding)
    ensures f in ScanText(env, origin, text) <==> f.origin == origin && TextShows(env, text, f.line, f.kind)
  {
    if env.pem(text).Some? {
      LineNumberExact(text, env.pem(text).value);
    }
    LinesExact(env, origin, Lines(text), f);
    MultilineExact(env, origin, text, env.multiline(text), f);
  }

  // ---- Members and archives ----

  /** Errors a zip member survives, and errors a tar member survives. */
  predicate SkipsMember(zip: bool, e: Error) {
    if zip then e == OSError || e == RuntimeError || e == ValueError || e == BadZipFile
    else e == OSError || e == EOFError || e == ValueError
  }

  predicate ClosesArchive(zip: bool, e: Error) {
    e == OSError || e == if zip then BadZipFile else TarError
  }

  /** What becomes of a member: passed over, reported, an exception, or its bytes scanned; the cap is 50 MiB. */
  predicate MemberBecomes(env: Env, zip: bool, place: string, m: Member, depth: nat, r: Scan) {
    if !m.regular || !env.shouldScan(m.name) then r == Scan([], Finished)
    else if m.size > 52_428_800 then r == Scan([Finding(place, 0, MemberTooLarge)], Finished)
    else match m.content
      case NoFile => r == Scan([Finding(place, 0, UnreadableMember)], Finished)
      case ExtractFails(e) => r == Scan([], Raised(e))
      case ReadFails(e) =>
        if SkipsMember(zip, e) then r == Scan([Finding(place, 0, UnreadableMember)], Finished)
        else r == Scan([], Raised(e))
      case Read(data) => r == ScanMemberBytes(env, place, m.name, data, depth)
  }

  lemma MemberExact(env: Env, zip: bool, origin: string, m: Member, depth: nat)
    ensures MemberBecomes(env, zip, origin + "!" + m.name, m, depth, ScanMember(env, zip, origin, m, depth))
  {
  }

  /** Bytes of an archive's name are scanned one level down, but not an eighth; all others as text. */
  lemma BytesExact(env: Env, place: string, name: string, data: bytes, depth: nat)
    ensures var r := ScanMemberBytes(env, place, name, data, depth);
      if !env.isArchive(name) then r == Scan(ScanText(env, place, env.decode(data)), Finished)
      else if depth >= 7 then r == Scan([Finding(place, 0, NestedTooDeep)], Finished)
      else r == ScanArchive(env, env.isZipName(name), place, data, depth + 1)
  {
  }

  /** Opening an archive and walking its members, before its own handler. */
  predicate Walked(env: Env, zip: bool, origin: string, data: bytes, depth: nat, s: Scan) {
    match env.open(zip, data)
    case OpenFails(e) => s == Scan([], Raised(e))
    case Opened(members) => s == ScanMembers(env, zip, origin, members, depth)
  }

  /** An archive that cannot be opened, or whose members raise, is reported if its handler takes the exception; every
    * other exception gets out. */
  lemma ArchiveExact(env: Env, zip: bool, origin: string, data: bytes, depth: nat, s: Scan)
    requires Walked(env, zip, origin, data, depth, s)
    ensures ScanArchive(env, zip, origin, data, depth) ==
      if s.end.Raised? && ClosesArchive(zip, s.end.error)
      then Scan(s.findings + [Finding(origin, 0, UnreadableArchive)], Finished) else s
  {
  }

  /** A file that cannot be read is reported as what its name makes it; an archive starts at depth zero. */
  lemma FileExact(env: Env, f: File)
    ensures ScanFile(env, f) ==
      if f.data.None? then
        Scan([Finding(f.name, 0, if env.isArchive(f.name) then UnreadableArchive else UnreadableFile)], Finished)
      else if env.isArchive(f.name) then ScanArchive(env, env.isZipName(f.name), f.name, f.data.value, 0)
      else Scan(ScanText(env, f.name, Universal(env.decode(f.data.value))), Finished)
  {
  }

  /** Members are scanned in order; an exception ends the scan with what was found before it. */
  lemma {:induction false} MembersInOrder(env: Env, zip: bool, origin: string, a: seq<Member>, b: seq<Member>,
                                          depth: nat)
    ensures var first := ScanMembers(env, zip, origin, a, depth);
      ScanMembers(env, zip, origin, a + b, depth) ==
        if first.end.Raised? then first
        else
          var rest := ScanMembers(env, zip, origin, b, depth);
          Scan(first.findings + rest.findings, rest.end)
  {
    if a == [] {
      assert a + b == b;
      assert [] + ScanMembers(env, zip, origin, b, depth).findings == ScanMembers(env, zip, origin, b, depth).findings;
    } else {
      assert (a + b)[0] == a[0] && (a + b)[1..] == a[1..] + b;
      MembersInOrder(env, zip, origin, a[1..], b, depth);
      var one, tail := ScanMember(env, zip, origin, a[0], depth), ScanMembers(env, zip, origin, a[1..], depth);
      Joins(one.findings, tail.findings, ScanMembers(env, zip, origin, b, depth).findings);
    }
  }

  /** Newline translation: a carriage return, with the newline after it if there is one, becomes one newline, and all
    * other text stays. */
  lemma {:induction false} UniversalExact(before: string, rest: string)
    requires '\r' !in before
    ensures Universal(before + "\r" + rest)
         == before + "\n" + Universal(if rest != "" && rest[0] == '\n' then rest[1..] else rest)
  {
    var text := before + "\r" + rest;
    if before == "" {
      assert text[1..] == rest;
      assert rest != "" ==> text[2..] == rest[1..];
    } else {
      assert text[1..] == before[1..] + "\r" + rest;
      assert before == [before[0]] + before[1..];
      UniversalExact(before[1..], rest);
    }
  }
}
