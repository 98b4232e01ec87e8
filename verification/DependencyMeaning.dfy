/** What the SBOM's names and components are, told from the requirement lines and the index themselves. */
module DependencyMeaning {
  import opened Wrappers
  import opened DependencyWalk

  // ---- Names ----

  predicate IsSeparator(c: char) {
    c in {'-', '_', '.'}
  }

  /** The characters other than separators, each with whether separators stand before it. */
  function Marks(s: string, gap: bool): seq<(char, bool)> {
    if s == "" then []
    else if IsSeparator(s[0]) then Marks(s[1..], true)
    else [(s[0], gap)] + Marks(s[1..], false)
  }

  /** Separators before the first character do not matter. */
  function Trimmed(marks: seq<(char, bool)>): seq<(char, bool)> {
    if marks == [] then [] else [(marks[0].0, false)] + marks[1..]
  }

  lemma {:induction false} CollapseMarks(s: string, previousDash: bool, gap: bool)
    requires previousDash ==> gap
    ensures Marks(Collapse(s, previousDash), gap) == Marks(s, gap)
  {
    if s != "" {
      var rest := Collapse(s[1..], IsDash(s[0]));
      CollapseMarks(s[1..], IsDash(s[0]), IsDash(s[0]));
      if Collapse(s, previousDash) != rest {
        assert Collapse(s, previousDash)[1..] == rest;
      }
    }
  }

  lemma {:induction false} StripLeftMarks(s: string, gap: bool, other: bool)
    ensures Trimmed(Marks(StripLeft(s, {'-'}), gap)) == Trimmed(Marks(s, other))
  {
    if s != "" && s[0] == '-' {
      StripLeftMarks(s[1..], gap, true);
    }
  }

  lemma {:induction false} MarksLast(s: string, c: char, gap: bool)
    requires IsSeparator(c)
    ensures Marks(s + [c], gap) == Marks(s, gap)
  {
    if s != "" {
      assert (s + [c])[1..] == s[1..] + [c];
      MarksLast(s[1..], c, if IsSeparator(s[0]) then true else false);
    }
  }

  lemma {:induction false} StripRightMarks(s: string, gap: bool)
    ensures Marks(StripRight(s, {'-'}), gap) == Marks(s, gap)
  {
    if s != "" && s[|s| - 1] == '-' {
      var t := s[..|s| - 1];
      StripRightMarks(t, gap);
      MarksLast(t, '-', gap);
      assert s == t + ['-'];
    }
  }

  /** A normalised name keeps every other character of the lower-cased name, in order, and a dash stands between two of
    * them exactly where separators stood; with its canonical form that settles it. */
  lemma NormalizeMeaning(casing: Casing, name: string)
    ensures Trimmed(Marks(Normalize(casing, name), false)) == Trimmed(Marks(casing.lower(name), false))
  {
    var collapsed := Collapse(casing.lower(name), false);
    CollapseMarks(casing.lower(name), false, false);
    StripLeftMarks(collapsed, false, false);
    StripRightMarks(StripLeft(collapsed, {'-'}), false);
  }

  /** Two canonical names with the same marks are one name. */
  lemma {:induction false} CanonicalByMarks(a: string, b: string, gap: bool, other: bool)
    requires forall i :: 0 <= i < |a| ==> a[i] != '_' && a[i] != '.' && (a[i] == '-' ==> NextIsLetter(a, i))
    requires forall i :: 0 <= i < |b| ==> b[i] != '_' && b[i] != '.' && (b[i] == '-' ==> NextIsLetter(b, i))
    requires gap ==> a != "" && a[0] != '-'
    requires other ==> b != "" && b[0] != '-'
    requires gap == other && Marks(a, gap) == Marks(b, other)
    ensures a == b
    decreases |a| + |b|
  {
    MarksHead(a, gap);
    MarksHead(b, other);
    if a != "" && b != "" {
      Tails(a);
      Tails(b);
      if a[0] == '-' && b[0] == '-' {
        CanonicalByMarks(a[1..], b[1..], true, true);
      } else if a[0] != '-' && b[0] != '-' {
        assert Marks(a, gap)[1..] == Marks(a[1..], false) && Marks(b, other)[1..] == Marks(b[1..], false);
        CanonicalByMarks(a[1..], b[1..], false, false);
      }
    }
  }

  lemma MarksHead(s: string, gap: bool)
    requires forall i :: 0 <= i < |s| ==> s[i] != '_' && s[i] != '.' && (s[i] == '-' ==> NextIsLetter(s, i))
    ensures s != "" ==>
      Marks(s, gap) != [] && (if s[0] == '-' then Marks(s, gap)[0].1 else Marks(s, gap)[0] == (s[0], gap))
    ensures s == "" ==> Marks(s, gap) == []
  {
    if s != "" && s[0] == '-' {
      assert NextIsLetter(s, 0);
      assert Marks(s[1..], true)[0] == (s[1], true);
    }
  }

  predicate NextIsLetter(s: string, i: int)
    requires 0 <= i < |s|
  {
    i + 1 < |s| && !IsSeparator(s[i + 1])
  }

  lemma Tails(s: string)
    requires s != "" && forall i :: 0 <= i < |s| ==> s[i] != '_' && s[i] != '.' && (s[i] == '-' ==> NextIsLetter(s, i))
    ensures forall i :: 0 <= i < |s[1..]| ==>
      s[1..][i] != '_' && s[1..][i] != '.' && (s[1..][i] == '-' ==> NextIsLetter(s[1..], i))
    ensures s[0] == '-' ==> s[1..] != "" && !IsSeparator(s[1])
    ensures s == [s[0]] + s[1..]
  {
    forall i | 0 <= i < |s[1..]| && s[1..][i] == '-' ensures NextIsLetter(s[1..], i) {
      assert NextIsLetter(s, i + 1);
    }
    assert s[0] == '-' ==> NextIsLetter(s, 0);
  }

  // ---- Requirement lines ----

  predicate EndsName(c: char) {
    c in {';', '[', '(', '=', '<', '>', '!', '~', ' '}
  }

  /** What `str.strip` drops. */
  predicate IsSpace(c: char) {
    || '\t' <= c <= '\r' || '\U{1C}' <= c <= ' ' || c == '\U{85}' || c == '\U{A0}' || c == '\U{1680}'
    || '\U{2000}' <= c <= '\U{200A}' || c == '\U{2028}' || c == '\U{2029}' || c == '\U{202F}' || c == '\U{205F}'
    || c == '\U{3000}'
  }

  predicate AllSpace(s: string) {
    forall i :: 0 <= i < |s| ==> IsSpace(s[i])
  }

  lemma SpacesMeaning(c: char)
    ensures c in SPACES <==> IsSpace(c)
  {
  }

  /** The name of a requirement: what stands after leading blanks, up to blanks and a separator or the end. */
  predicate NamesRequirement(spec: string, name: string, i: nat, j: nat) {
    && i + |name| + j <= |spec| && spec[i..i + |name|] == name
    && AllSpace(spec[..i]) && AllSpace(spec[i + |name|..i + |name| + j])
    && (forall c :: c in name ==> !EndsName(c))
    && (name != "" ==> !IsSpace(name[0]) && !IsSpace(name[|name| - 1]))
    && (i + |name| + j < |spec| ==> EndsName(spec[i + |name| + j]))
  }

  lemma {:induction false} StripLeftCuts(s: string) returns (i: nat)
    ensures i <= |s| && StripLeft(s, SPACES) == s[i..] && AllSpace(s[..i])
    ensures i < |s| ==> !IsSpace(s[i])
  {
    i := 0;
    if s != "" {
      SpacesMeaning(s[0]);
      if s[0] in SPACES {
        var rest := StripLeftCuts(s[1..]);
        i := rest + 1;
        assert s[..i] == [s[0]] + s[1..][..rest];
      }
    }
  }

  lemma {:induction false} StripRightCuts(s: string) returns (n: nat)
    ensures n <= |s| && StripRight(s, SPACES) == s[..n] && AllSpace(s[n..])
    ensures n > 0 ==> !IsSpace(s[n - 1])
  {
    n := |s|;
    if s != "" {
      SpacesMeaning(s[|s| - 1]);
      if s[|s| - 1] in SPACES {
        var front := s[..|s| - 1];
        n := StripRightCuts(front);
        assert s[n..] == front[n..] + [s[|s| - 1]];
      }
    }
  }

  lemma {:induction false} BeforeCuts(s: string)
    ensures forall c :: c in Before(s, set c | c in SEPARATORS) ==> !EndsName(c)
    ensures |Before(s, set c | c in SEPARATORS)| < |s| ==> EndsName(s[|Before(s, set c | c in SEPARATORS)|])
  {
    if s != "" {
      assert s[0] in SEPARATORS <==> EndsName(s[0]);
      BeforeCuts(s[1..]);
    }
  }

  /** What is left of a text up to its first separator, blanks at its end aside. */
  lemma CutExact(stripped: string) returns (m: nat, k: nat)
    requires stripped != "" ==> !IsSpace(stripped[0])
    ensures m + k <= |stripped| && AllSpace(stripped[m..m + k])
    ensures m + k < |stripped| ==> EndsName(stripped[m + k])
    ensures Strip(Before(stripped, set c | c in SEPARATORS), SPACES) == stripped[..m]
    ensures forall c :: c in stripped[..m] ==> !EndsName(c)
    ensures m > 0 ==> !IsSpace(stripped[m - 1])
  {
    var cut := Before(stripped, set c | c in SEPARATORS);
    BeforeCuts(stripped);
    assert cut == stripped[..|cut|];
    m := StripKept(cut);
    k := |cut| - m;
    assert stripped[..m] == cut[..m] && stripped[m..m + k] == cut[m..];
  }

  /** Stripping a text that starts with no blank cuts its end. */
  lemma StripKept(cut: string) returns (m: nat)
    requires cut != "" ==> !IsSpace(cut[0])
    ensures m <= |cut| && Strip(cut, SPACES) == cut[..m] && AllSpace(cut[m..])
    ensures m > 0 ==> !IsSpace(cut[m - 1])
  {
    if cut != "" {
      SpacesMeaning(cut[0]);
    }
    assert StripLeft(cut, SPACES) == cut;
    m := StripRightCuts(cut);
  }

  /** Where a stripped text stands. */
  lemma StrippedAt(spec: string) returns (i: nat, n: nat)
    ensures i + n <= |spec| && Strip(spec, SPACES) == spec[i..][..n] && AllSpace(spec[..i]) && AllSpace(spec[i..][n..])
    ensures n > 0 ==> !IsSpace(spec[i])
  {
    i := StripLeftCuts(spec);
    n := StripRightCuts(spec[i..]);
  }

  lemma RequirementExact(spec: string) returns (i: nat, j: nat)
    ensures NamesRequirement(spec, RequirementName(spec), i, j)
  {
    var n, m, k;
    i, n := StrippedAt(spec);
    m, k := CutExact(spec[i..][..n]);
    j := if m + k == n then |spec| - i - m else k;
    NameInPlace(spec, i, spec[i..], n, m, k, j);
    assert RequirementName(spec) == spec[i..i + m];
    NameRead(spec, i, m, j);
  }

  lemma NameRead(spec: string, i: nat, m: nat, j: nat)
    requires i + m + j <= |spec| && AllSpace(spec[..i]) && AllSpace(spec[i + m..i + m + j])
    requires forall c :: c in spec[i..i + m] ==> !EndsName(c)
    requires m > 0 ==> !IsSpace(spec[i]) && !IsSpace(spec[i + m - 1])
    requires i + m + j < |spec| ==> EndsName(spec[i + m + j])
    ensures NamesRequirement(spec, spec[i..i + m], i, j)
  {
  }

  lemma NameInPlace(spec: string, i: nat, left: string, n: nat, m: nat, k: nat, j: nat)
    requires i <= |spec| && left == spec[i..] && n <= |left| && m + k <= n && AllSpace(left[n..])
    requires AllSpace(left[..n][m..m + k]) && j == if m + k == n then |left| - m else k
    ensures i + m + j <= |spec| && spec[i..i + m] == left[..n][..m] && AllSpace(spec[i + m..i + m + j])
    ensures i + m + j < |spec| ==> m + k < n && spec[i + m + j] == left[..n][m + k]
  {
    assert spec[i + m..i + m + j] == left[m..m + j];
    if m + k == n {
      assert left[m..m + j] == left[..n][m..m + k] + left[n..];
    } else {
      assert left[m..m + j] == left[..n][m..m + k];
    }
  }

  predicate GatedAt(line: string, i: nat) {
    i + 8 <= |line| && line[i..i + 8] == "extra =="
  }

  /** A line names a dependency unless an extra gates it or its name is nothing but separators. */
  lemma DependencyExact(casing: Casing, line: string, name: string)
    ensures Dependency(casing, line) == Some(name) <==>
      && (forall i :: 0 <= i <= |line| ==> !GatedAt(line, i))
      && name == Normalize(casing, RequirementName(line)) && name != ""
  {
    if Contains(line, "extra ==") {
      var i :| 0 <= i <= |line| && ContainsAt(line, "extra ==", i);
      assert GatedAt(line, i);
    } else {
      forall i | 0 <= i <= |line| ensures !GatedAt(line, i) {
        assert !ContainsAt(line, "extra ==", i);
      }
    }
  }

  // ---- Components ----

  /** Some requirement line of an installed package reads as the name. */
  ghost predicate NamedBy(g: Installed, package: string, name: string) {
    package in g.index && exists line :: line in g.index[package].requirements && g.dependency(line) == Some(name)
  }

  lemma RequiresMeaning(g: Installed, package: string, name: string)
    ensures Requires(g, package, name) <==> NamedBy(g, package, name)
  {
    if Requires(g, package, name) {
      var lines := g.index[package].requirements;
      var i :| 0 <= i < |lines| && g.dependency(lines[i]) == Some(name);
      assert lines[i] in lines;
    }
    if NamedBy(g, package, name) {
      var lines := g.index[package].requirements;
      var line :| line in lines && g.dependency(line) == Some(name);
      var i :| 0 <= i < |lines| && lines[i] == line;
    }
  }

  /** What the walk says of each component: its declared name if it is installed under one, whether it is installed, the
    * purpose given for it, and as requirers the seeds' projects and every walked package with a line that names it. */
  lemma ComponentExact(seeds: map<string, set<string>>, g: Installed, purposes: map<string, string>,
                       components: map<string, Component>, k: string, p: string)
    requires Recorded(seeds, g, purposes, components, components.Keys) && k in components
    ensures var c := components[k];
      && (c.installed <==> k in g.index)
      && c.name == (if c.installed && g.index[k].name != "" then g.index[k].name else k)
      && (c.purpose.Some? <==> k in purposes) && (c.purpose.Some? ==> c.purpose.value == purposes[k])
      && (p in c.requiredBy <==>
            (k in seeds && p in seeds[k]) || (p in components && NamedBy(g, p, k)))
  {
    RequiresMeaning(g, p, k);
  }
}
