/** SHA256SUMS.txt as text: how it is written (generate_release_evidence.py) and read back
  * (validate_v0127_release_evidence.py). */
module ChecksumFile {
  import opened Wrappers
  import opened Bytes
  import opened Sorting

  datatype Entry = Entry(name: string, digest: string)

  /** A plain file name on either kind of system; a second character `:` would be a Windows drive. */
  predicate SafeBasename(v: string) {
    && v != "" && v != "." && v != ".."
    && (forall c :: c in v ==> c != '/' && c != '\\' && c != '\0')
    && !(|v| >= 2 && v[1] == ':')
  }

  /** The ASCII characters that end a line for `str.splitlines`. */
  predicate IsBreak(c: char) {
    c as int in {10, 11, 12, 13, 28, 29, 30}
  }

  function SplitLines(text: string): seq<string> {
    if text == "" then []
    else if text[0] == '\r' && |text| > 1 && text[1] == '\n' then [""] + SplitLines(text[2..])
    else if IsBreak(text[0]) then [""] + SplitLines(text[1..])
    else
      var rest := SplitLines(text[1..]);
      if rest == [] then [[text[0]]] else [[text[0]] + rest[0]] + rest[1..]
  }

  // ---- One line ----

  function Line(e: Entry): string {
    e.digest + "  " + e.name
  }

  /** `re.fullmatch(r"([0-9a-f]{64})  ([^/\\]+)", line)` with a safe name. */
  function ParseLine(line: string): Option<Entry> {
    if |line| > 66 && IsSha256Hex(line[..64]) && line[64] == ' ' && line[65] == ' ' && SafeBasename(line[66..])
    then Some(Entry(line[66..], line[..64])) else None
  }

  /** A line reads back as the entry it was written from, and nothing else reads as that entry. */
  lemma LineRoundTrip(e: Entry, line: string)
    requires IsSha256Hex(e.digest) && SafeBasename(e.name)
    ensures ParseLine(line) == Some(e) <==> line == Line(e)
  {
    var l := Line(e);
    assert l[..64] == e.digest && l[66..] == e.name;
    if ParseLine(line) == Some(e) {
      assert line == line[..64] + [line[64], line[65]] + line[66..];
      assert line == l;
    }
  }

  // ---- The whole file ----

  function WrittenLines(entries: seq<Entry>): (lines: seq<string>)
    ensures |lines| == |entries| && forall i :: 0 <= i < |entries| ==> lines[i] == Line(entries[i])
  {
    seq(|entries|, i requires 0 <= i < |entries| => Line(entries[i]))
  }

  /** `"\n".join(lines)` */
  function Join(lines: seq<string>): string {
    if lines == [] then ""
    else if |lines| == 1 then lines[0]
    else lines[0] + "\n" + Join(lines[1..])
  }

  function NameOrder(): (Entry, Entry) -> bool {
    (a: Entry, b: Entry) => TextLe(a.name, b.name)
  }

  /** The file's text: the entries by name, one a line, with a final newline. */
  function Printed(entries: seq<Entry>): string {
    Join(WrittenLines(Sort(NameOrder(), entries))) + "\n"
  }

  /** A name that can stand on one ASCII line. */
  predicate OnOneLine(s: string) {
    forall c :: c in s ==> (c as int) < 128 && !IsBreak(c)
  }

  predicate Printable(e: Entry) {
    IsSha256Hex(e.digest) && SafeBasename(e.name) && OnOneLine(e.name)
  }

  predicate DistinctNames(entries: seq<Entry>) {
    forall i, j :: 0 <= i < j < |entries| ==> entries[i].name != entries[j].name
  }

  lemma {:induction false} SplitFirst(line: string, rest: string)
    requires OnOneLine(line)
    ensures SplitLines(line + "\n" + rest) == [line] + SplitLines(rest)
  {
    var text := line + "\n" + rest;
    if line == "" {
      assert text[1..] == rest;
    } else {
      SplitFirst(line[1..], rest);
      assert text[1..] == line[1..] + "\n" + rest;
      assert line[0] in line && !IsBreak(text[0]);
      assert [text[0]] + line[1..] == line;
    }
  }

  lemma {:induction false} SplitJoined(lines: seq<string>)
    requires lines != [] && forall l :: l in lines ==> OnOneLine(l)
    ensures SplitLines(Join(lines) + "\n") == lines
  {
    assert lines[0] in lines;
    if |lines| == 1 {
      SplitFirst(lines[0], "");
      assert lines[0] + "\n" + "" == lines[0] + "\n";
    } else {
      SplitJoined(lines[1..]);
      SplitFirst(lines[0], Join(lines[1..]) + "\n");
      assert lines[0] + "\n" + (Join(lines[1..]) + "\n") == Join(lines) + "\n";
    }
  }

  lemma HexIsOnOneLine(digest: string)
    requires IsSha256Hex(digest)
    ensures OnOneLine(digest)
  {
    forall c | c in digest ensures (c as int) < 128 && !IsBreak(c) {
      assert IsHexDigit(c);
    }
  }

  lemma LineIsOnOneLine(e: Entry)
    requires Printable(e)
    ensures OnOneLine(Line(e))
  {
    HexIsOnOneLine(e.digest);
    forall c | c in Line(e) ensures (c as int) < 128 && !IsBreak(c) {
      assert c in e.digest || c in "  " || c in e.name;
    }
  }

  lemma NameOrdering()
    ensures Ordering(NameOrder())
  {
    forall a, b ensures NameOrder()(a, b) || NameOrder()(b, a) {
      TextTotal(a.name, b.name);
    }
    forall a, b, c | NameOrder()(a, b) && NameOrder()(b, c) ensures NameOrder()(a, c) {
      TextTransitive(a.name, b.name, c.name);
    }
  }

  lemma DistinctIsNoTies(entries: seq<Entry>)
    ensures DistinctNames(entries) <==> NoTies(NameOrder(), entries)
  {
    forall i, j | 0 <= i < j < |entries|
      ensures entries[i].name == entries[j].name
         <==> NameOrder()(entries[i], entries[j]) && NameOrder()(entries[j], entries[i])
    {
      TextTotal(entries[i].name, entries[j].name);
      if NameOrder()(entries[i], entries[j]) && NameOrder()(entries[j], entries[i]) {
        TextAntisymmetric(entries[i].name, entries[j].name);
      }
    }
  }

  /** What was printed splits back into the sorted entries' lines. */
  lemma PrintedSplits(entries: seq<Entry>)
    requires entries != [] && forall e :: e in entries ==> Printable(e)
    ensures SplitLines(Printed(entries)) == WrittenLines(Sort(NameOrder(), entries))
    ensures forall e :: e in Sort(NameOrder(), entries) <==> e in entries
  {
    var sorted := Sort(NameOrder(), entries);
    forall e ensures e in sorted <==> e in entries {
      assert e in multiset(sorted) <==> e in multiset(entries);
    }
    forall l | l in WrittenLines(sorted) ensures OnOneLine(l) {
      var i :| 0 <= i < |sorted| && l == Line(sorted[i]);
      assert sorted[i] in sorted;
      LineIsOnOneLine(sorted[i]);
    }
    SplitJoined(WrittenLines(sorted));
  }

  // ---- Reading ----

  /** Some line lists this name with this digest. */
  ghost predicate Lists(lines: seq<string>, name: string, digest: string) {
    exists l :: l in lines && ParseLine(l) == Some(Entry(name, digest))
  }

  /** Every line is well formed and no name stands on two of them. */
  ghost predicate Readable(lines: seq<string>) {
    && (forall l :: l in lines ==> ParseLine(l).Some?)
    && (forall i, j :: 0 <= i < j < |lines| ==> NameOn(lines[i]) != NameOn(lines[j]))
  }

  function NameOn(line: string): string {
    if ParseLine(line).Some? then ParseLine(line).value.name else ""
  }

  datatype ReadFailure = InvalidLine(line: string) | DuplicateEntry(name: string)

  /** What the loop knows after some lines: it failed already, or they are readable and the map holds just them. */
  ghost predicate ReadSoFar(lines: seq<string>, failures: seq<ReadFailure>, listed: map<string, string>) {
    && (failures == [] <==> Readable(lines))
    && (failures == [] ==> forall name, digest :: Lists(lines, name, digest) <==> Maps(listed, name, digest))
  }

  predicate Maps(m: map<string, string>, name: string, digest: string) {
    name in m && m[name] == digest
  }

  lemma ListsSnoc(lines: seq<string>, line: string, name: string, digest: string)
    ensures Lists(lines + [line], name, digest)
       <==> Lists(lines, name, digest) || ParseLine(line) == Some(Entry(name, digest))
  {
    assert line in lines + [line];
    forall l | l in lines ensures l in lines + [line] {
    }
  }

  lemma ReadableSnoc(lines: seq<string>, line: string)
    ensures Readable(lines + [line]) <==>
      && Readable(lines) && ParseLine(line).Some?
      && forall digest :: !Lists(lines, ParseLine(line).value.name, digest)
  {
    var longer := lines + [line];
    if Readable(longer) {
      ReadablePrefix(lines, line);
    } else if Readable(lines) && ParseLine(line).Some? {
      var i, j := UnreadablePair(lines, line);
      assert Lists(lines, NameOn(line), ParseLine(lines[i]).value.digest);
    }
  }

  lemma UnreadablePair(lines: seq<string>, line: string) returns (i: nat, j: nat)
    requires Readable(lines) && ParseLine(line).Some? && !Readable(lines + [line])
    ensures i < |lines| && j == |lines| && lines[i] in lines && ParseLine(lines[i]).Some?
      && NameOn(lines[i]) == NameOn(line)
  {
    var longer := lines + [line];
    assert forall l :: l in longer ==> l in lines || l == line;
    assert forall k :: 0 <= k < |lines| ==> longer[k] == lines[k];
    i, j :| 0 <= i < j < |longer| && NameOn(longer[i]) == NameOn(longer[j]);
  }

  lemma ReadablePrefix(lines: seq<string>, line: string)
    requires Readable(lines + [line])
    ensures Readable(lines) && ParseLine(line).Some?
    ensures forall digest :: !Lists(lines, ParseLine(line).value.name, digest)
  {
    var longer := lines + [line];
    assert longer[|lines|] == line && line in longer;
    forall l | l in lines ensures ParseLine(l).Some? {
      assert l in longer;
    }
    forall i, j | 0 <= i < j < |lines| ensures NameOn(lines[i]) != NameOn(lines[j]) {
      assert longer[i] == lines[i] && longer[j] == lines[j];
    }
    forall l | l in lines ensures NameOn(l) != NameOn(line) {
      var i :| 0 <= i < |lines| && lines[i] == l;
      assert longer[i] == l;
    }
  }

  /** The checker's line loop: no failure exactly on readable lines, and then the map says what they list. */
  method ReadLines(lines: seq<string>) returns (failures: seq<ReadFailure>, listed: map<string, string>)
    ensures ReadSoFar(lines, failures, listed)
  {
    failures, listed := [], map[];
    for i := 0 to |lines|
      invariant ReadSoFar(lines[..i], failures, listed)
    {
      assert lines[..i + 1] == lines[..i] + [lines[i]];
      ReadableSnoc(lines[..i], lines[i]);
      var entry := ParseLine(lines[i]);
      if entry.None? {
        failures := failures + [InvalidLine(lines[i])];
      } else {
        ghost var before := listed;
        if entry.value.name in listed {
          failures := failures + [DuplicateEntry(entry.value.name)];
        }
        listed := listed[entry.value.name := entry.value.digest];
        if failures == [] {
          ReadOneMore(lines[..i], lines[i], before, listed);
        } else {
          ReadTwice(lines[..i], before, entry.value.name);
        }
      }
    }
    assert lines[..|lines|] == lines;
  }

  lemma ReadOneMore(lines: seq<string>, line: string, before: map<string, string>, after: map<string, string>)
    requires ReadSoFar(lines, [], before) && ParseLine(line).Some? && ParseLine(line).value.name !in before
    requires after == before[ParseLine(line).value.name := ParseLine(line).value.digest]
    ensures forall digest :: !Lists(lines, ParseLine(line).value.name, digest)
    ensures forall name, digest :: Lists(lines + [line], name, digest) <==> Maps(after, name, digest)
  {
    forall name, digest ensures Lists(lines + [line], name, digest) <==> Maps(after, name, digest) {
      ListsSnoc(lines, line, name, digest);
      assert Lists(lines, name, digest) <==> Maps(before, name, digest);
    }
    forall digest ensures !Lists(lines, ParseLine(line).value.name, digest) {
      assert Lists(lines, ParseLine(line).value.name, digest) <==> Maps(before, ParseLine(line).value.name, digest);
    }
  }

  /** A name already in the map of readable lines was listed by one of them. */
  lemma ReadTwice(lines: seq<string>, before: map<string, string>, name: string)
    ensures ReadSoFar(lines, [], before) && name in before ==> exists digest :: Lists(lines, name, digest)
  {
    if ReadSoFar(lines, [], before) && name in before {
      assert Maps(before, name, before[name]);
      assert Lists(lines, name, before[name]);
    }
  }

  /** Writing then reading: the lines are readable and list exactly the entries written. */
  lemma PrintedReadsBack(entries: seq<Entry>)
    requires entries != [] && DistinctNames(entries) && forall e :: e in entries ==> Printable(e)
    ensures Readable(SplitLines(Printed(entries)))
    ensures forall name, digest :: Lists(SplitLines(Printed(entries)), name, digest) <==> Entry(name, digest) in entries
  {
    var sorted := Sort(NameOrder(), entries);
    PrintedSplits(entries);
    NameOrdering();
    DistinctIsNoTies(entries);
    NoTiesPermuted(NameOrder(), entries, sorted);
    DistinctIsNoTies(sorted);
    LinesReadBack(sorted);
  }

  lemma LinesReadBack(entries: seq<Entry>)
    requires DistinctNames(entries) && forall e :: e in entries ==> Printable(e)
    ensures Readable(WrittenLines(entries))
    ensures forall name, digest :: Lists(WrittenLines(entries), name, digest) <==> Entry(name, digest) in entries
  {
    var lines := WrittenLines(entries);
    forall i | 0 <= i < |entries| ensures ParseLine(lines[i]) == Some(entries[i]) {
      assert entries[i] in entries;
      LineRoundTrip(entries[i], lines[i]);
    }
    forall name, digest ensures Lists(lines, name, digest) <==> Entry(name, digest) in entries {
      if Entry(name, digest) in entries {
        var i :| 0 <= i < |entries| && entries[i] == Entry(name, digest);
        assert lines[i] in lines;
      }
    }
  }

  /** The text does not depend on the order the entries came in. */
  lemma PrintedOrderIndependent(a: seq<Entry>, b: seq<Entry>)
    requires DistinctNames(a) && multiset(a) == multiset(b)
    ensures Printed(a) == Printed(b)
  {
    NameOrdering();
    DistinctIsNoTies(a);
    SortPermutation(NameOrder(), a, b);
  }
}
