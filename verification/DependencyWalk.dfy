/** The SBOM's breadth-first walk over installed requirements (generate_sbom.py). */
module DependencyWalk {
  import opened Wrappers

  // ---- Names ----

  /** `str.lower`, and the characters it leaves alone. */
  datatype Casing = Casing(lower: string -> string, settled: char -> bool)

  /** Lowering leaves only settled characters, keeps settled text, and settles no ASCII capital. */
  ghost predicate Lowers(casing: Casing) {
    && (forall s, i :: 0 <= i < |casing.lower(s)| ==> casing.settled(casing.lower(s)[i]))
    && (forall s :: AllSettled(casing, s) ==> casing.lower(s) == s)
    && casing.settled('-') && forall c :: 'A' <= c <= 'Z' ==> !casing.settled(c)
  }

  predicate AllSettled(casing: Casing, s: string) {
    forall i :: 0 <= i < |s| ==> casing.settled(s[i])
  }

  predicate IsDash(c: char) {
    c == '-' || c == '_' || c == '.'
  }

  /** What one character leaves. */
  function Collapsing(c: char, previousDash: bool): string {
    if IsDash(c) then (if previousDash then "" else "-") else [c]
  }

  lemma Joins(a: string, b: string, c: string)
    ensures a + (b + c) == a + b + c
  {
  }

  /** Runs of separators collapsed to one dash. */
  function Collapse(name: string, previousDash: bool): string {
    if name == "" then ""
    else Collapsing(name[0], previousDash) + Collapse(name[1..], IsDash(name[0]))
  }

  function StripLeft(s: string, drop: set<char>): string {
    if s != "" && s[0] in drop then StripLeft(s[1..], drop) else s
  }

  function StripRight(s: string, drop: set<char>): string {
    if s != "" && s[|s| - 1] in drop then StripRight(s[..|s| - 1], drop) else s
  }

  function Strip(s: string, drop: set<char>): string {
    StripRight(StripLeft(s, drop), drop)
  }

  function Normalize(casing: Casing, name: string): string {
    Strip(Collapse(casing.lower(name), false), {'-'})
  }

  lemma CollapseStep(name: string, i: nat, previousDash: bool)
    requires i < |name|
    ensures Collapse(name[i..], previousDash)
      == Collapsing(name[i], previousDash) + Collapse(name[i + 1..], IsDash(name[i]))
  {
    assert name[i..][1..] == name[i + 1..];
  }

  /** The loop of `_normalize`. */
  method NormalizeName(casing: Casing, name: string) returns (r: string)
    ensures r == Normalize(casing, name)
  {
    var lowered := casing.lower(name);
    var out, previousDash := "", false;
    for i := 0 to |lowered|
      invariant Collapse(lowered, false) == out + Collapse(lowered[i..], previousDash)
    {
      CollapseStep(lowered, i, previousDash);
      Joins(out, Collapsing(lowered[i], previousDash), Collapse(lowered[i + 1..], IsDash(lowered[i])));
      if IsDash(lowered[i]) {
        if !previousDash {
          out := out + "-";
        }
        previousDash := true;
      } else {
        out := out + [lowered[i]];
        previousDash := false;
      }
    }
    assert out + "" == out;
    r := Strip(out, {'-'});
  }

  /** PEP 503's normal form: lower case, single dashes only, none at the ends. */
  predicate Canonical(casing: Casing, s: string) {
    && AllSettled(casing, s)
    && (forall i :: 0 <= i < |s| ==> s[i] != '_' && s[i] != '.')
    && (forall i :: 0 <= i < |s| && s[i] == '-' ==> IsolatedAt(s, i))
  }

  predicate IsolatedAt(s: string, i: int)
    requires 0 <= i < |s|
  {
    0 < i && i + 1 < |s| && s[i - 1] != '-' && s[i + 1] != '-'
  }

  /** Collapsed text: lower case, no `_` or `.`, no two dashes in a row. */
  predicate Collapsed(casing: Casing, s: string) {
    && AllSettled(casing, s)
    && (forall i :: 0 <= i < |s| ==> s[i] != '_' && s[i] != '.')
    && (forall i :: 0 < i < |s| ==> SingleAt(s, i))
  }

  predicate SingleAt(s: string, i: int)
    requires 0 < i < |s|
  {
    s[i] == '-' ==> s[i - 1] != '-'
  }

  lemma {:induction false} CollapseCollapses(casing: Casing, name: string, previousDash: bool)
    requires casing.settled('-') && AllSettled(casing, name)
    ensures Collapsed(casing, Collapse(name, previousDash))
    ensures previousDash && Collapse(name, previousDash) != "" ==> Collapse(name, previousDash)[0] != '-'
  {
    if name != "" {
      var rest := Collapse(name[1..], IsDash(name[0]));
      CollapseCollapses(casing, name[1..], IsDash(name[0]));
      var r := Collapse(name, previousDash);
      if r != rest {
        assert forall i :: 0 < i < |rest| ==> (SingleAt(r, i + 1) <==> SingleAt(rest, i));
        forall i | 0 < i < |r| ensures SingleAt(r, i) {
          if i > 1 {
            assert SingleAt(rest, i - 1);
          }
        }
      }
    }
  }

  lemma {:induction false} StripLeftKeeps(casing: Casing, s: string)
    requires Collapsed(casing, s)
    ensures Collapsed(casing, StripLeft(s, {'-'}))
    ensures StripLeft(s, {'-'}) != "" ==> StripLeft(s, {'-'})[0] != '-'
  {
    if s != "" && s[0] == '-' {
      assert forall i :: 0 < i < |s[1..]| ==> (SingleAt(s[1..], i) <==> SingleAt(s, i + 1));
      StripLeftKeeps(casing, s[1..]);
    }
  }

  lemma {:induction false} StripRightKeeps(casing: Casing, s: string)
    requires Collapsed(casing, s) && (s != "" ==> s[0] != '-')
    ensures Canonical(casing, StripRight(s, {'-'}))
  {
    if s != "" && s[|s| - 1] == '-' {
      var t := s[..|s| - 1];
      assert forall i :: 0 < i < |t| ==> (SingleAt(t, i) <==> SingleAt(s, i));
      StripRightKeeps(casing, t);
    } else {
      forall i | 0 <= i < |s| && s[i] == '-' ensures IsolatedAt(s, i) {
        assert SingleAt(s, i) && SingleAt(s, i + 1);
      }
    }
  }

  lemma {:induction false} CollapseFixed(casing: Casing, s: string)
    requires Collapsed(casing, s)
    ensures Collapse(s, false) == s
    ensures s != "" && s[0] != '-' ==> Collapse(s, true) == s
  {
    if s != "" {
      var t := s[1..];
      assert forall i :: 0 < i < |t| ==> (SingleAt(t, i) <==> SingleAt(s, i + 1));
      CollapseFixed(casing, t);
      if t != "" && s[0] == '-' {
        assert SingleAt(s, 1);
      }
    }
  }

  /** Every normalised name is canonical, canonical names are fixed, so normalising twice is normalising once. */
  lemma NormalizeCanonical(casing: Casing, name: string)
    requires Lowers(casing)
    ensures Canonical(casing, Normalize(casing, name))
    ensures Canonical(casing, name) ==> Normalize(casing, name) == name
    ensures Normalize(casing, Normalize(casing, name)) == Normalize(casing, name)
  {
    var collapsed := Collapse(casing.lower(name), false);
    CollapseCollapses(casing, casing.lower(name), false);
    StripLeftKeeps(casing, collapsed);
    StripRightKeeps(casing, StripLeft(collapsed, {'-'}));
    CanonicalFixed(casing, Normalize(casing, name));
    if Canonical(casing, name) {
      CanonicalFixed(casing, name);
    }
  }

  lemma CanonicalFixed(casing: Casing, s: string)
    requires Lowers(casing) && Canonical(casing, s)
    ensures Normalize(casing, s) == s
  {
    forall i | 0 < i < |s| ensures SingleAt(s, i) {
      assert s[i] == '-' ==> IsolatedAt(s, i);
    }
    CollapseFixed(casing, s);
    if s != "" {
      assert s[0] != '-' && s[|s| - 1] != '-';
    }
  }

  /** What `str.strip` drops. */
  predicate IsBlank(c: char) {
    var n := c as int;
    || 9 <= n <= 13 || 28 <= n <= 32 || 0x2000 <= n <= 0x200A
    || n in {0x85, 0xA0, 0x1680, 0x2028, 0x2029, 0x202F, 0x205F, 0x3000}
  }

  const SPACES: set<char> := set c: char | IsBlank(c)
  const SEPARATORS := [';', '[', '(', '=', '<', '>', '!', '~', ' ']

  /** The text up to its first separator. */
  function Before(s: string, separators: set<char>): (r: string)
    ensures r <= s
  {
    if s == "" || s[0] in separators then "" else [s[0]] + Before(s[1..], separators)
  }

  function RequirementName(spec: string): string {
    Strip(Before(Strip(spec, SPACES), set c | c in SEPARATORS), SPACES)
  }

  lemma {:induction false} BeforeTwice(s: string, a: set<char>, c: char)
    ensures Before(Before(s, a), {c}) == Before(s, a + {c})
  {
    if s != "" && s[0] !in a {
      assert Before(s, a)[1..] == Before(s[1..], a);
      BeforeTwice(s[1..], a, c);
    }
  }

  /** `_requirement_name`: cutting at one separator after another is cutting at the first of any. */
  method BareRequirementName(spec: string) returns (name: string)
    ensures name == RequirementName(spec)
  {
    var stripped := Strip(spec, SPACES);
    name := stripped;
    BeforeNothing(stripped);
    ghost var cut: set<char> := {};
    for i := 0 to |SEPARATORS|
      invariant cut == set j | 0 <= j < i :: SEPARATORS[j]
      invariant name == Before(stripped, cut)
    {
      BeforeTwice(stripped, cut, SEPARATORS[i]);
      name := Before(name, {SEPARATORS[i]});
      cut := cut + {SEPARATORS[i]};
    }
    assert cut == set c | c in SEPARATORS;
    name := Strip(name, SPACES);
  }

  lemma {:induction false} BeforeNothing(s: string)
    ensures Before(s, {}) == s
  {
    if s != "" {
      BeforeNothing(s[1..]);
    }
  }

  // ---- The installed index and its edges ----

  /** An installed distribution: its declared name and its `Requires-Dist` lines. */
  datatype Distribution = Distribution(name: string, requirements: seq<string>)

  type Index = map<string, Distribution>

  datatype Component = Component(name: string, installed: bool, purpose: Option<string>, requiredBy: set<string>)

  predicate ContainsAt(text: string, part: string, i: int) {
    0 <= i && i + |part| <= |text| && text[i..i + |part|] == part
  }

  predicate Contains(text: string, part: string) {
    exists i :: 0 <= i <= |text| && ContainsAt(text, part, i)
  }

  /** The dependency a requirement line names, unless an extra gates it or nothing is left of it. */
  function Dependency(casing: Casing, line: string): Option<string> {
    if Contains(line, "extra ==") then None
    else
      var name := Normalize(casing, RequirementName(line));
      if name == "" then None else Some(name)
  }

  /** What the walk knows of the machine: installed packages, and how a requirement line is read. */
  datatype Installed = Installed(index: Index, dependency: string -> Option<string>)

  /** `package` is installed and one of its ungated requirements names `dependency`. */
  predicate Requires(g: Installed, package: string, dependency: string) {
    package in g.index && RequiresAmong(g, g.index[package].requirements, dependency)
  }

  predicate RequiresAmong(g: Installed, lines: seq<string>, dependency: string) {
    exists i :: 0 <= i < |lines| && g.dependency(lines[i]) == Some(dependency)
  }

  ghost predicate Closed(g: Installed, names: set<string>) {
    forall p, d :: p in names && Requires(g, p, d) ==> d in names
  }

  function ComponentFor(name: string, g: Installed, purposes: map<string, string>, requiredBy: set<string>): Component {
    Component(
      if name in g.index && g.index[name].name != "" then g.index[name].name else name,
      name in g.index,
      if name in purposes then Some(purposes[name]) else None,
      requiredBy)
  }

  /** Every name the walk could ever meet. */
  ghost function Universe(seeds: map<string, set<string>>, g: Installed): set<string> {
    seeds.Keys + set p, i | p in g.index && 0 <= i < |g.index[p].requirements|
      && g.dependency(g.index[p].requirements[i]).Some?
                   :: g.dependency(g.index[p].requirements[i]).value
  }

  lemma UniverseClosed(seeds: map<string, set<string>>, g: Installed)
    ensures Closed(g, Universe(seeds, g))
  {
    forall p, d | Requires(g, p, d) ensures d in Universe(seeds, g) {
      var i :| 0 <= i < |g.index[p].requirements| && g.dependency(g.index[p].requirements[i]) == Some(d);
    }
  }

  function SeedRequirers(seeds: map<string, set<string>>, name: string): set<string> {
    if name in seeds then seeds[name] else {}
  }

  function Elements(s: seq<string>): set<string> {
    set x | x in s
  }

  predicate Distinct(s: seq<string>) {
    forall i, j :: 0 <= i < j < |s| ==> s[i] != s[j]
  }

  /** Each component is what the index says it is, required by its seeds' projects and by its known requirers. */
  ghost predicate Recorded(
    seeds: map<string, set<string>>, g: Installed, purposes: map<string, string>,
    components: map<string, Component>, walked: set<string>)
  {
    forall k :: k in components ==>
      && components[k] == ComponentFor(k, g, purposes, components[k].requiredBy)
      && forall p ::
        p in components[k].requiredBy <==> p in SeedRequirers(seeds, k) || (p in walked && Requires(g, p, k))
  }

  /** No set containing the seeds and closed under requirements can miss a name. */
  ghost predicate Least(seeds: map<string, set<string>>, g: Installed, names: set<string>) {
    forall closed: set<string> :: seeds.Keys <= closed && Closed(g, closed) ==> names <= closed
  }

  lemma HeadIsNew(a: seq<string>, b: seq<string>)
    requires Distinct(a + b) && b != []
    ensures b[0] !in a && a + b == a + [b[0]] + b[1..] && Elements(a + [b[0]]) == Elements(a) + {b[0]}
  {
    assert (a + b)[|a|] == b[0];
    assert forall i :: 0 <= i < |a| ==> (a + b)[i] == a[i];
  }

  lemma AppendDistinct(s: seq<string>, d: string)
    requires Distinct(s) && d !in s
    ensures Distinct(s + [d]) && Elements(s + [d]) == Elements(s) + {d}
  {
  }

  /** `_walk_dependencies`, with the order in which names left the queue. */
  method WalkDependencies(seeds: map<string, set<string>>, g: Installed, purposes: map<string, string>)
    returns (components: map<string, Component>, ghost dequeued: seq<string>)
    ensures seeds.Keys <= components.Keys && Closed(g, components.Keys) && Least(seeds, g, components.Keys)
    ensures Recorded(seeds, g, purposes, components, components.Keys)
    ensures Distinct(dequeued) && Elements(dequeued) == components.Keys
  {
    var queue: seq<string>;
    components, queue := Seed(seeds, g, purposes);
    dequeued := [];
    WalkStarts(seeds, g, purposes, components, queue);
    while queue != []
      invariant Walking(seeds, g, purposes, components, dequeued, queue)
      decreases Universe(seeds, g) - Elements(dequeued)
    {
      ghost var head := queue[0];
      HeadIsFresh(seeds, g, purposes, components, dequeued, queue);
      components, queue := Dequeue(seeds, g, purposes, components, queue, dequeued);
      dequeued := dequeued + [head];
    }
    WalkEnds(seeds, g, purposes, components, dequeued);
  }

  lemma WalkStarts(seeds: map<string, set<string>>, g: Installed, purposes: map<string, string>,
                   components: map<string, Component>, queue: seq<string>)
    requires components.Keys == seeds.Keys == Elements(queue) && Distinct(queue)
    requires Recorded(seeds, g, purposes, components, {})
    ensures Walking(seeds, g, purposes, components, [], queue)
  {
    assert [] + queue == queue;
  }

  lemma HeadIsFresh(seeds: map<string, set<string>>, g: Installed, purposes: map<string, string>,
                    components: map<string, Component>, dequeued: seq<string>, queue: seq<string>)
    requires queue != [] && Walking(seeds, g, purposes, components, dequeued, queue)
    ensures queue[0] !in dequeued && queue[0] in Universe(seeds, g)
    ensures Elements(dequeued + [queue[0]]) == Elements(dequeued) + {queue[0]}
  {
    HeadIsNew(dequeued, queue);
    UniverseClosed(seeds, g);
    assert queue[0] in components.Keys;
  }

  lemma WalkEnds(seeds: map<string, set<string>>, g: Installed, purposes: map<string, string>,
                 components: map<string, Component>, dequeued: seq<string>)
    requires Walking(seeds, g, purposes, components, dequeued, [])
    ensures seeds.Keys <= components.Keys && Closed(g, components.Keys) && Least(seeds, g, components.Keys)
    ensures Recorded(seeds, g, purposes, components, components.Keys)
    ensures Distinct(dequeued) && Elements(dequeued) == components.Keys
  {
    assert dequeued + [] == dequeued;
  }

  /** One turn of the loop: the head leaves the queue, and its requirements join if it is installed. */
  method Dequeue(seeds: map<string, set<string>>, g: Installed, purposes: map<string, string>,
                 before: map<string, Component>, pending: seq<string>, ghost dequeued: seq<string>)
    returns (components: map<string, Component>, queue: seq<string>)
    requires pending != [] && Walking(seeds, g, purposes, before, dequeued, pending)
    ensures Walking(seeds, g, purposes, components, dequeued + [pending[0]], queue)
  {
    var current := pending[0];
    HeadIsNew(dequeued, pending);
    if current in g.index {
      components, queue := Expand(seeds, g, purposes, current, before, pending[1..], dequeued);
    } else {
      NotInstalled(seeds, g, purposes, before, dequeued, current);
      components, queue := before, pending[1..];
    }
  }

  /** Between two dequeues: the names met so far, the walked ones expanded, and nothing met in vain. */
  ghost predicate Walking(seeds: map<string, set<string>>, g: Installed, purposes: map<string, string>,
                          components: map<string, Component>, dequeued: seq<string>, queue: seq<string>)
  {
    && components.Keys == Elements(dequeued + queue) && Distinct(dequeued + queue)
    && seeds.Keys <= components.Keys && Least(seeds, g, components.Keys)
    && (forall p, d :: p in dequeued && Requires(g, p, d) ==> d in components)
    && Recorded(seeds, g, purposes, components, Elements(dequeued))
  }

  /** A name that is not installed requires nothing. */
  lemma NotInstalled(seeds: map<string, set<string>>, g: Installed, purposes: map<string, string>,
                     components: map<string, Component>, walked: seq<string>, current: string)
    requires current !in g.index && Recorded(seeds, g, purposes, components, Elements(walked))
    ensures Recorded(seeds, g, purposes, components, Elements(walked + [current]))
  {
  }

  method Seed(seeds: map<string, set<string>>, g: Installed, purposes: map<string, string>)
    returns (components: map<string, Component>, queue: seq<string>)
    ensures components.Keys == seeds.Keys == Elements(queue) && Distinct(queue)
    ensures Recorded(seeds, g, purposes, components, {})
  {
    components, queue := map[], [];
    var left := seeds.Keys;
    while left != {}
      invariant left <= seeds.Keys && components.Keys == seeds.Keys - left == Elements(queue) && Distinct(queue)
      invariant Recorded(seeds, g, purposes, components, {})
    {
      var name :| name in left;
      components := components[name := ComponentFor(name, g, purposes, seeds[name])];
      queue := queue + [name];
      left := left - {name};
    }
  }

  /** One dequeued package: its ungated requirements are recorded, the new ones queued. */
  method Expand(seeds: map<string, set<string>>, g: Installed, purposes: map<string, string>, current: string,
                before: map<string, Component>, pending: seq<string>, ghost walked: seq<string>)
    returns (components: map<string, Component>, queue: seq<string>)
    requires current in g.index && before.Keys == Elements(walked + [current] + pending)
    requires Distinct(walked + [current] + pending)
    requires seeds.Keys <= before.Keys && Least(seeds, g, before.Keys)
    requires Recorded(seeds, g, purposes, before, Elements(walked))
    requires forall p, d :: p in walked && Requires(g, p, d) ==> d in before
    ensures before.Keys <= components.Keys && Least(seeds, g, components.Keys)
    ensures components.Keys == Elements(walked + [current] + queue) && Distinct(walked + [current] + queue)
    ensures forall d :: Requires(g, current, d) ==> d in components
    ensures Recorded(seeds, g, purposes, components, Elements(walked + [current]))
  {
    components, queue := before, pending;
    var lines := g.index[current].requirements;
    for i := 0 to |lines|
      invariant before.Keys <= components.Keys
      invariant Exploring(seeds, g, purposes, components, walked, current, queue, i)
    {
      var dependency := g.dependency(lines[i]);
      ExploreStep(seeds, g, purposes, components, walked, current, queue, i);
      if dependency.Some? {
        var d := dependency.value;
        queue := if d in components then queue else queue + [d];
        components := Note(g, purposes, components, current, d);
      }
    }
    FullyRecorded(seeds, g, purposes, components, walked, current);
  }

  /** Midway through the requirements of `current`. */
  ghost predicate Exploring(seeds: map<string, set<string>>, g: Installed, purposes: map<string, string>,
                            components: map<string, Component>, walked: seq<string>, current: string,
                              queue: seq<string>, i: nat)
    requires current in g.index && i <= |g.index[current].requirements|
  {
    && seeds.Keys <= components.Keys && Least(seeds, g, components.Keys)
    && components.Keys == Elements(walked + [current] + queue) && Distinct(walked + [current] + queue)
    && (forall d :: RequiresAmong(g, g.index[current].requirements[..i], d) ==> d in components)
    && (forall p, d :: p in walked && Requires(g, p, d) ==> d in components)
    && PartlyRecorded(seeds, g, purposes, components, Elements(walked), current, g.index[current].requirements[..i])
  }

  lemma ExploreStep(seeds: map<string, set<string>>, g: Installed, purposes: map<string, string>,
                    components: map<string, Component>, walked: seq<string>, current: string, queue: seq<string>,
                      i: nat)
    requires current in g.index && i < |g.index[current].requirements|
    requires Exploring(seeds, g, purposes, components, walked, current, queue, i)
    ensures var found := g.dependency(g.index[current].requirements[i]);
      if found.None? then Exploring(seeds, g, purposes, components, walked, current, queue, i + 1)
      else Exploring(seeds, g, purposes, Note(g, purposes, components, current, found.value), walked, current,
                     if found.value in components then queue else queue + [found.value], i + 1)
  {
    var lines := g.index[current].requirements;
    AmongLast(g, lines, i);
    PartlyStep(seeds, g, purposes, components, Elements(walked), current, lines, i);
    var found := g.dependency(lines[i]);
    if found.Some? {
      var d := found.value;
      QueueStep(components.Keys, walked, current, queue, d);
      LeastStep(seeds, g, components.Keys, current, d, i);
      assert Note(g, purposes, components, current, d).Keys == components.Keys + {d};
    }
  }

  lemma QueueStep(names: set<string>, walked: seq<string>, current: string, queue: seq<string>, d: string)
    requires names == Elements(walked + [current] + queue) && Distinct(walked + [current] + queue)
    ensures current in names
    ensures var next := if d in names then queue else queue + [d];
      names + {d} == Elements(walked + [current] + next) && Distinct(walked + [current] + next)
  {
    assert (walked + [current] + queue)[|walked|] == current;
    if d !in names {
      AppendDistinct(walked + [current] + queue, d);
      assert walked + [current] + (queue + [d]) == walked + [current] + queue + [d];
    }
  }

  lemma FullyRecorded(seeds: map<string, set<string>>, g: Installed, purposes: map<string, string>,
                      components: map<string, Component>, walked: seq<string>, current: string)
    requires current in g.index
    requires PartlyRecorded(seeds, g, purposes, components, Elements(walked), current,
                            g.index[current].requirements[..|g.index[current].requirements|])
    ensures Recorded(seeds, g, purposes, components, Elements(walked + [current]))
    ensures forall d ::
      Requires(g, current, d) ==> RequiresAmong(g, g.index[current].requirements[..|g.index[current].requirements|], d)
  {
    var lines := g.index[current].requirements;
    assert lines[..|lines|] == lines;
  }

  /** One edge: a new component for an unknown dependency, one more requirer for a known one. */
  function Note(g: Installed, purposes: map<string, string>, components: map<string, Component>, current: string,
                d: string)
    : map<string, Component>
  {
    if d !in components then components[d := ComponentFor(d, g, purposes, {current})]
    else components[d := components[d].(requiredBy := components[d].requiredBy + {current})]
  }

  lemma LeastStep(seeds: map<string, set<string>>, g: Installed, names: set<string>, current: string, d: string, i: nat)
    requires Least(seeds, g, names) && current in names && current in g.index
    requires i < |g.index[current].requirements| && g.dependency(g.index[current].requirements[i]) == Some(d)
    ensures Least(seeds, g, names + {d})
  {
    assert Requires(g, current, d);
  }

  lemma PartlyStep(seeds: map<string, set<string>>, g: Installed, purposes: map<string, string>,
                   components: map<string, Component>, walked: set<string>, current: string, lines: seq<string>, i: nat)
    requires i < |lines| && PartlyRecorded(seeds, g, purposes, components, walked, current, lines[..i])
    requires forall p, d :: p in walked && Requires(g, p, d) ==> d in components
    requires seeds.Keys <= components.Keys && forall d :: RequiresAmong(g, lines[..i], d) ==> d in components
    ensures var found := g.dependency(lines[i]);
      PartlyRecorded(seeds, g, purposes,
        if found.None? then components else Note(g, purposes, components, current, found.value),
        walked, current, lines[..i + 1])
  {
    AmongLast(g, lines, i);
  }

  lemma AmongLast(g: Installed, lines: seq<string>, i: nat)
    requires i < |lines|
    ensures forall d ::
      RequiresAmong(g, lines[..i + 1], d) <==> RequiresAmong(g, lines[..i], d) || g.dependency(lines[i]) == Some(d)
  {
    forall d ensures RequiresAmong(g, lines[..i + 1], d)
      <==> RequiresAmong(g, lines[..i], d) || g.dependency(lines[i]) == Some(d) {
      assert lines[..i + 1][i] == lines[i];
      assert forall j :: 0 <= j < i ==> lines[..i + 1][j] == lines[..i][j];
    }
  }

  /** `Recorded` midway through the requirements of `current`. */
  ghost predicate PartlyRecorded(
    seeds: map<string, set<string>>, g: Installed, purposes: map<string, string>,
    components: map<string, Component>, walked: set<string>, current: string, lines: seq<string>)
  {
    forall k :: k in components ==>
      && components[k] == ComponentFor(k, g, purposes, components[k].requiredBy)
      && forall p :: p in components[k].requiredBy <==>
           || p in SeedRequirers(seeds, k)
           || (p in walked && Requires(g, p, k))
           || (p == current && RequiresAmong(g, lines, k))
  }

  // ---- The same set told by paths ----

  /** A chain of requirements from a seed to `name`. */
  ghost predicate ReachedBy(seeds: map<string, set<string>>, g: Installed, path: seq<string>, name: string)
    decreases path
  {
    && path != [] && path[|path| - 1] == name
    && if |path| == 1 then name in seeds
       else Requires(g, path[|path| - 2], name) && ReachedBy(seeds, g, path[..|path| - 1], path[|path| - 2])
  }

  ghost predicate Reachable(seeds: map<string, set<string>>, g: Installed, name: string) {
    exists path :: ReachedBy(seeds, g, path, name)
  }

  lemma {:induction false} PathsStayInside(seeds: map<string, set<string>>, g: Installed, closed: set<string>,
                                           path: seq<string>, name: string)
    requires seeds.Keys <= closed && Closed(g, closed) && ReachedBy(seeds, g, path, name)
    ensures name in closed
    decreases path
  {
    if |path| > 1 {
      PathsStayInside(seeds, g, closed, path[..|path| - 1], path[|path| - 2]);
    }
  }

  /** The least closed set is exactly what requirement chains from the seeds reach. */
  lemma LeastIsReachable(seeds: map<string, set<string>>, g: Installed, names: set<string>, name: string)
    requires seeds.Keys <= names && Closed(g, names) && Least(seeds, g, names)
    ensures name in names <==> Reachable(seeds, g, name)
  {
    if Reachable(seeds, g, name) {
      var path :| ReachedBy(seeds, g, path, name);
      PathsStayInside(seeds, g, names, path, name);
    }
    var reached := set n | n in names && Reachable(seeds, g, n);
    forall s | s in seeds ensures s in reached {
      assert ReachedBy(seeds, g, [s], s);
    }
    forall p, d | p in reached && Requires(g, p, d) ensures d in reached {
      var path :| ReachedBy(seeds, g, path, p);
      assert (path + [d])[..|path|] == path;
      assert ReachedBy(seeds, g, path + [d], d);
    }
    assert Closed(g, reached);
  }

  /** The walk that reads requirement lines as `Dependency` does. */
  function InstalledFrom(casing: Casing, index: Index): Installed {
    Installed(index, line => Dependency(casing, line))
  }

  /** Whatever the lines say, every name the walk discovers beyond its seeds is canonical and not empty. */
  lemma DiscoveredAreCanonical(seeds: map<string, set<string>>, casing: Casing, index: Index, names: set<string>,
                               name: string)
    requires Lowers(casing)
    requires var g := InstalledFrom(casing, index);
      seeds.Keys <= names && Closed(g, names) && Least(seeds, g, names)
    requires name in names && name !in seeds
    ensures Canonical(casing, name) && name != ""
  {
    var g := InstalledFrom(casing, index);
    var closed := set n | n in names && (n in seeds || (n != "" && Canonical(casing, n)));
    forall p, d | p in closed && Requires(g, p, d) ensures d in closed {
      var i :| 0 <= i < |index[p].requirements| && g.dependency(index[p].requirements[i]) == Some(d);
      assert Dependency(casing, index[p].requirements[i]) == Some(d);
      NormalizeCanonical(casing, RequirementName(index[p].requirements[i]));
    }
    assert Closed(g, closed) && seeds.Keys <= closed;
    assert names <= closed;
  }
}
