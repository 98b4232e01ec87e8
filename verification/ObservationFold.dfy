/** The terminal fold over committed observations (discovery_observations.py). */
module ObservationFold {
  import opened Wrappers
  import opened Bytes
  import opened Values
  import opened Sorting
  import opened StreamCommitment
  import opened PublicFields
  import opened PayloadNormaliser

  type EntityKey = (string, string)

  /** One durable row; `rest` stands for the fields the fold only commits to. */
  datatype Observation = Observation(
    cursor: int,
    runId: string,
    attempt: int,
    entityKind: string,
    entityKey: string,
    entityVersion: int,
    payload: seq<Entry>,
    payloadSha256: string,
    rest: Text)
  {
    function Key(): EntityKey {
      (entityKind, entityKey)
    }
  }

  /** The library functions the fold calls. */
  datatype Env = Env(rules: Rules, sha: Hash, dumps: Value -> bytes, encode: Observation -> bytes)

  datatype FoldError =
    | WrongCount
    | MixedRun
    | DuplicateCursor
    | WrongTerminalCursor
    | RunMismatch
    | AttemptMismatch
    | NonzeroEmptyCursor
    | MissingIdentity
    | DigestMismatch
    | ConflictingVersions
    | InvalidProjection
    | Uncommittable

  datatype Cutoff = Cutoff(terminalCursor: int, expectedCount: Option<int>, runId: Option<string>, attempt: Option<int>)

  /** One present winner's contribution to a collection. */
  datatype Contribution = Contribution(collection: Collection, position: int, kind: string, key: string,
    record: seq<Entry>)

  datatype Fold = Fold(
    runId: string,
    attempt: int,
    observationCount: nat,
    terminalCursor: int,
    commitment: string,
    projectedCollections: set<Collection>,
    summary: map<Key, Value>,
    issues: seq<seq<Entry>>,
    devices: seq<seq<Entry>>,
    points: seq<seq<Entry>>,
    topics: seq<seq<Entry>>)

  // ---- Ordering and header checks ----

  function CursorLe(): (Observation, Observation) -> bool {
    (a: Observation, b: Observation) => a.cursor <= b.cursor
  }

  predicate OneRun(ordered: seq<Observation>) {
    forall i :: 0 <= i < |ordered| ==> ordered[i].runId == ordered[0].runId && ordered[i].attempt == ordered[0].attempt
  }

  predicate DistinctCursors(s: seq<Observation>) {
    forall i, j :: 0 <= i < j < |s| ==> s[i].cursor != s[j].cursor
  }

  function CheckHeader(ordered: seq<Observation>, cutoff: Cutoff): Result<(string, int), FoldError> {
    if cutoff.expectedCount.Some? && |ordered| != cutoff.expectedCount.value then Failure(WrongCount)
    else if ordered != [] then
      if !OneRun(ordered) then Failure(MixedRun)
      else if !DistinctCursors(ordered) then Failure(DuplicateCursor)
      else if ordered[|ordered| - 1].cursor != cutoff.terminalCursor then Failure(WrongTerminalCursor)
      else if cutoff.runId.Some? && cutoff.runId.value != ordered[0].runId then Failure(RunMismatch)
      else if cutoff.attempt.Some? && cutoff.attempt.value != ordered[0].attempt then Failure(AttemptMismatch)
      else Success((ordered[0].runId, ordered[0].attempt))
    else if cutoff.terminalCursor != 0 then Failure(NonzeroEmptyCursor)
    else if cutoff.runId.None? || cutoff.attempt.None? then Failure(MissingIdentity)
    else Success((cutoff.runId.value, cutoff.attempt.value))
  }

  // ---- Election: highest entity version wins ----

  /** A dictionary: its entries and the order the keys were first inserted in. */
  datatype Winners = Winners(order: seq<EntityKey>, byKey: map<EntityKey, Observation>)

  const NO_WINNERS := Winners([], map[])

  predicate DigestMatches(env: Env, item: Observation) {
    item.payloadSha256 == CanonicalSha256(env.sha, env.dumps, Dict(item.payload))
  }

  function Elect(env: Env, w: Winners, item: Observation): Result<Winners, FoldError> {
    if !DigestMatches(env, item) then Failure(DigestMismatch)
    else if item.Key() !in w.byKey then
      Success(Winners(w.order + [item.Key()], w.byKey[item.Key() := item]))
    else
      var previous := w.byKey[item.Key()];
      if item.entityVersion > previous.entityVersion then Success(w.(byKey := w.byKey[item.Key() := item]))
      else if item.entityVersion == previous.entityVersion && item != previous then Failure(ConflictingVersions)
      else Success(w)
  }

  function ElectAll(env: Env, w: Winners, items: seq<Observation>): Result<Winners, FoldError>
    decreases |items|
  {
    if items == [] then Success(w)
    else
      var next :- Elect(env, w, items[0]);
      ElectAll(env, next, items[1..])
  }

  // ---- Projection ----

  datatype ProjectionState = ProjectionState(collections: set<Collection>, contributions: seq<Contribution>)

  const NO_PROJECTION := ProjectionState({}, [])

  /** The projection an observation carries; a null one is none. */
  function RawProjection(item: Observation): Option<Value> {
    var raw := Lookup(item.payload, "projection_v1");
    if raw == Some(Null) then None else raw
  }

  function WinnerProjection(env: Env, item: Observation): Option<Projection>
    requires RawProjection(item).Some?
  {
    ValidateProjection(env.rules, RawProjection(item).value)
  }

  function Contribute(item: Observation, p: Projection): Contribution
    requires p.record.Some?
  {
    Contribution(p.collection, p.position, item.entityKind, item.entityKey, JsonSafeEntries(p.record.value))
  }

  function ProjectWinner(env: Env, so: ProjectionState, item: Observation): Result<ProjectionState, FoldError> {
    if RawProjection(item).None? then Success(so)
    else
      var projection := WinnerProjection(env, item);
      if projection.None? then Failure(InvalidProjection)
      else
        var p := projection.value;
        var marked := so.(collections := so.collections + {p.collection});
        if !p.present then Success(marked)
        else if p.record.None? then Failure(InvalidProjection)
        else Success(marked.(contributions := so.contributions + [Contribute(item, p)]))
  }

  function ProjectAll(env: Env, so: ProjectionState, items: seq<Observation>): Result<ProjectionState, FoldError>
    decreases |items|
  {
    if items == [] then Success(so)
    else
      var next :- ProjectWinner(env, so, items[0]);
      ProjectAll(env, next, items[1..])
  }

  /** `winners.items()`: the winners in insertion order. */
  function Elected(w: Winners): (items: seq<Observation>)
    requires forall k :: k in w.order ==> k in w.byKey
    ensures |items| == |w.order|
    ensures forall i :: 0 <= i < |items| ==> items[i] == w.byKey[w.order[i]]
  {
    seq(|w.order|, i requires 0 <= i < |w.order| => w.byKey[w.order[i]])
  }

  /** Collection name, then position, then entity kind, then entity key. */
  function ContributionLe(): (Contribution, Contribution) -> bool {
    (a: Contribution, b: Contribution) =>
      var m, n := CollectionName(a.collection), CollectionName(b.collection);
      if m != n then TextLe(m, n)
      else if a.position != b.position then a.position < b.position
      else if a.kind != b.kind then TextLe(a.kind, b.kind)
      else TextLe(a.key, b.key)
  }

  function Update(summary: map<Key, Value>, record: seq<Entry>): map<Key, Value>
    decreases |record|
  {
    if record == [] then summary
    else Update(summary[record[0].key := record[0].value], record[1..])
  }

  function SummaryOf(sorted: seq<Contribution>): map<Key, Value> {
    if sorted == [] then map[]
    else
      var n := |sorted| - 1;
      var before := SummaryOf(sorted[..n]);
      if sorted[n].collection == Summary then Update(before, sorted[n].record) else before
  }

  function RecordsOf(sorted: seq<Contribution>, c: Collection): seq<seq<Entry>> {
    if sorted == [] then []
    else
      var n := |sorted| - 1;
      RecordsOf(sorted[..n], c) + if sorted[n].collection == c then [sorted[n].record] else []
  }

  function Encodings(env: Env, items: seq<Observation>): (r: seq<bytes>)
    ensures |r| == |items| && forall i :: 0 <= i < |items| ==> r[i] == env.encode(items[i])
  {
    seq(|items|, i requires 0 <= i < |items| => env.encode(items[i]))
  }

  // ---- The fold as a function of the ordered stream ----

  function Assemble(run: (string, int), count: nat, cursor: int, projected: ProjectionState, commitment: string): Fold {
    var sorted := Sort(ContributionLe(), projected.contributions);
    Fold(run.0, run.1, count, cursor, commitment, projected.collections, SummaryOf(sorted),
         RecordsOf(sorted, Issues), RecordsOf(sorted, Devices), RecordsOf(sorted, Points), RecordsOf(sorted, Topics))
  }

  function FoldOrdered(env: Env, ordered: seq<Observation>, cutoff: Cutoff): Result<Fold, FoldError> {
    var run :- CheckHeader(ordered, cutoff);
    var winners :- ElectAll(env, NO_WINNERS, ordered);
    ElectionKeys(env, NO_WINNERS, ordered);
    var projected :- ProjectAll(env, NO_PROJECTION, Elected(winners));
    var commitment := Commit(env.sha, Encodings(env, ordered));
    if commitment.Failure? then Failure(Uncommittable)
    else Success(Assemble(run, |ordered|, cutoff.terminalCursor, projected, commitment.value))
  }

  function FoldObservations(env: Env, observations: seq<Observation>, cutoff: Cutoff): Result<Fold, FoldError> {
    FoldOrdered(env, Sort(CursorLe(), observations), cutoff)
  }

  ghost predicate WellKeyed(w: Winners) {
    && (forall k :: k in w.order <==> k in w.byKey)
    && (forall i, j :: 0 <= i < j < |w.order| ==> w.order[i] != w.order[j])
    && (forall k :: k in w.byKey ==> w.byKey[k].Key() == k)
  }

  lemma {:induction false} ElectionKeys(env: Env, w: Winners, items: seq<Observation>)
    requires WellKeyed(w)
    ensures ElectAll(env, w, items).Success? ==> WellKeyed(ElectAll(env, w, items).value)
    decreases |items|
  {
    if items != [] && Elect(env, w, items[0]).Success? {
      ElectionKeys(env, Elect(env, w, items[0]).value, items[1..]);
    }
  }

  // ---- `fold_discovery_observations`, loop by loop ----

  method ElectWinners(env: Env, ordered: seq<Observation>) returns (r: Result<Winners, FoldError>)
    ensures r == ElectAll(env, NO_WINNERS, ordered)
  {
    var winners := NO_WINNERS;
    for i := 0 to |ordered|
      invariant ElectAll(env, NO_WINNERS, ordered) == ElectAll(env, winners, ordered[i..])
    {
      var next := Elect(env, winners, ordered[i]);
      assert ordered[i..][1..] == ordered[i + 1..];
      if next.Failure? {
        return Failure(next.error);
      }
      winners := next.value;
    }
    r := Success(winners);
  }

  method ProjectWinners(env: Env, items: seq<Observation>) returns (r: Result<ProjectionState, FoldError>)
    ensures r == ProjectAll(env, NO_PROJECTION, items)
  {
    var projected := NO_PROJECTION;
    for i := 0 to |items|
      invariant ProjectAll(env, NO_PROJECTION, items) == ProjectAll(env, projected, items[i..])
    {
      var next := ProjectWinner(env, projected, items[i]);
      assert items[i..][1..] == items[i + 1..];
      if next.Failure? {
        return Failure(next.error);
      }
      projected := next.value;
    }
    r := Success(projected);
  }

  method Distribute(sorted: seq<Contribution>)
    returns (summary: map<Key, Value>, collections: map<Collection, seq<seq<Entry>>>)
    ensures summary == SummaryOf(sorted)
    ensures collections.Keys == {Issues, Devices, Points, Topics}
    ensures forall c :: c in collections ==> collections[c] == RecordsOf(sorted, c)
  {
    summary, collections := map[], map[Issues := [], Devices := [], Points := [], Topics := []];
    for i := 0 to |sorted|
      invariant summary == SummaryOf(sorted[..i])
      invariant collections.Keys == {Issues, Devices, Points, Topics}
      invariant forall c :: c in collections ==> collections[c] == RecordsOf(sorted[..i], c)
    {
      assert sorted[..i + 1][..i] == sorted[..i];
      var c := sorted[i];
      if c.collection == Summary {
        summary := Update(summary, c.record);
      } else {
        collections := collections[c.collection := collections[c.collection] + [c.record]];
      }
    }
    assert sorted[..|sorted|] == sorted;
  }

  method FoldDiscoveryObservations(env: Env, observations: seq<Observation>, cutoff: Cutoff)
    returns (r: Result<Fold, FoldError>)
    ensures r == FoldObservations(env, observations, cutoff)
  {
    var ordered := Sort(CursorLe(), observations);
    var header := CheckHeader(ordered, cutoff);
    if header.Failure? {
      return Failure(header.error);
    }
    var winners := ElectWinners(env, ordered);
    if winners.Failure? {
      return Failure(winners.error);
    }
    ElectionKeys(env, NO_WINNERS, ordered);
    var projected := ProjectWinners(env, Elected(winners.value));
    if projected.Failure? {
      return Failure(projected.error);
    }
    var summary, collections := Distribute(Sort(ContributionLe(), projected.value.contributions));
    var commitment := ObservationStreamSha256(env.sha, Encodings(env, ordered));
    if commitment.Failure? {
      return Failure(Uncommittable);
    }
    r := Success(Fold(
      header.value.0, header.value.1, |ordered|, cutoff.terminalCursor, commitment.value, projected.value.collections,
      summary, collections[Issues], collections[Devices], collections[Points], collections[Topics]));
  }

  // ---- Order independence ----

  lemma CursorOrdering()
    ensures Ordering(CursorLe())
  {
  }

  lemma OneRunPermuted(s: seq<Observation>, t: seq<Observation>)
    requires multiset(s) == multiset(t) && OneRun(s) && s != []
    ensures OneRun(t) && t != [] && t[0].runId == s[0].runId && t[0].attempt == s[0].attempt
  {
    assert |multiset(s)| == |s| && |multiset(t)| == |t|;
    forall i | 0 <= i < |t| ensures t[i].runId == s[0].runId && t[i].attempt == s[0].attempt {
      assert t[i] in multiset(s);
    }
  }

  lemma TiesStay(s: seq<Observation>, t: seq<Observation>)
    requires multiset(s) == multiset(t) && !NoTies(CursorLe(), s)
    ensures !NoTies(CursorLe(), t)
  {
    CursorOrdering();
    if NoTies(CursorLe(), t) {
      NoTiesPermuted(CursorLe(), t, s);
    }
  }

  /** Any permutation of the observations gives the same fold or the very same error. */
  lemma FoldOrderIndependent(env: Env, s: seq<Observation>, t: seq<Observation>, cutoff: Cutoff)
    requires multiset(s) == multiset(t)
    ensures FoldObservations(env, s, cutoff) == FoldObservations(env, t, cutoff)
  {
    CursorOrdering();
    var a, b := Sort(CursorLe(), s), Sort(CursorLe(), t);
    assert |multiset(a)| == |a| && |multiset(b)| == |b|;
    if NoTies(CursorLe(), s) {
      SortPermutation(CursorLe(), s, t);
    } else {
      TiesStay(s, a);
      TiesStay(s, b);
      assert !DistinctCursors(a) && !DistinctCursors(b);
      if OneRun(a) {
        OneRunPermuted(a, b);
      } else if OneRun(b) {
        OneRunPermuted(b, a);
      }
    }
  }

  // ---- Which versions win, and when the election refuses ----

  lemma {:induction false} ElectAllSplit(env: Env, w: Winners, a: seq<Observation>, b: seq<Observation>)
    ensures ElectAll(env, w, a + b)
         == var first := ElectAll(env, w, a);
            if first.Failure? then first else ElectAll(env, first.value, b)
    decreases |a|
  {
    if a == [] {
      assert a + b == b;
    } else {
      assert (a + b)[1..] == a[1..] + b;
      var next := Elect(env, w, a[0]);
      if next.Success? {
        ElectAllSplit(env, next.value, a[1..], b);
      }
    }
  }

  lemma ElectLast(env: Env, items: seq<Observation>)
    requires items != []
    ensures var before := ElectAll(env, NO_WINNERS, items[..|items| - 1]);
      ElectAll(env, NO_WINNERS, items)
        == if before.Failure? then before else Elect(env, before.value, items[|items| - 1])
  {
    var n := |items| - 1;
    assert items == items[..n] + [items[n]];
    ElectAllSplit(env, NO_WINNERS, items[..n], [items[n]]);
    var before := ElectAll(env, NO_WINNERS, items[..n]);
    if before.Success? {
      var last := Elect(env, before.value, items[n]);
      assert [items[n]][1..] == [];
      assert ElectAll(env, before.value, [items[n]]) == last;
    }
  }

  /** Every key has a winner from the stream, at least as new as any rival and alone at its version. */
  ghost predicate Leads(w: Winners, items: seq<Observation>) {
    && (forall x :: x in items ==> x.Key() in w.byKey)
    && (forall k :: k in w.byKey ==> w.byKey[k] in items && w.byKey[k].Key() == k)
    && (forall x :: x in items ==> x.entityVersion <= w.byKey[x.Key()].entityVersion)
    && (forall x :: x in items && x.entityVersion == w.byKey[x.Key()].entityVersion ==> x == w.byKey[x.Key()])
  }

  lemma LeadsNext(env: Env, w: Winners, items: seq<Observation>, next: Observation)
    requires Leads(w, items) && Elect(env, w, next).Success?
    ensures Leads(Elect(env, w, next).value, items + [next])
  {
    forall x ensures x in items + [next] <==> x in items || x == next {
    }
  }

  lemma {:induction false} WinnersAreMaximal(env: Env, items: seq<Observation>)
    requires ElectAll(env, NO_WINNERS, items).Success?
    ensures Leads(ElectAll(env, NO_WINNERS, items).value, items)
  {
    if items != [] {
      ElectLast(env, items);
      var n := |items| - 1;
      WinnersAreMaximal(env, items[..n]);
      assert items == items[..n] + [items[n]];
      LeadsNext(env, ElectAll(env, NO_WINNERS, items[..n]).value, items[..n], items[n]);
    }
  }

  /** Observation `i` repeats the highest version its key had reached before it. */
  ghost predicate RepeatsMaximum(items: seq<Observation>, i: nat)
    requires i < |items|
  {
    && (exists j :: 0 <= j < i && items[j].Key() == items[i].Key() && items[j].entityVersion == items[i].entityVersion)
    && (forall m :: 0 <= m < i && items[m].Key() == items[i].Key() ==> items[m].entityVersion <= items[i].entityVersion)
  }

  ghost predicate Admissible(env: Env, items: seq<Observation>) {
    forall i :: 0 <= i < |items| ==> DigestMatches(env, items[i]) && !RepeatsMaximum(items, i)
  }

  lemma RepeatsPrefix(items: seq<Observation>, n: nat, i: nat)
    requires i < n <= |items|
    ensures RepeatsMaximum(items[..n], i) <==> RepeatsMaximum(items, i)
  {
    var p := items[..n];
    assert forall j :: 0 <= j < n ==> p[j] == items[j];
  }

  lemma AdmissibleLast(env: Env, items: seq<Observation>)
    requires items != []
    ensures var n := |items| - 1;
      Admissible(env, items)
      <==> Admissible(env, items[..n]) && DigestMatches(env, items[n]) && !RepeatsMaximum(items, n)
  {
    var n := |items| - 1;
    var p := items[..n];
    forall i | 0 <= i < n ensures p[i] == items[i] && (RepeatsMaximum(p, i) <==> RepeatsMaximum(items, i)) {
      RepeatsPrefix(items, n, i);
    }
  }

  lemma LastRepeats(w: Winners, items: seq<Observation>)
    requires DistinctCursors(items) && items != [] && Leads(w, items[..|items| - 1])
    ensures var x := items[|items| - 1];
      RepeatsMaximum(items, |items| - 1)
      <==> x.Key() in w.byKey && x.entityVersion == w.byKey[x.Key()].entityVersion && x != w.byKey[x.Key()]
  {
    var n := |items| - 1;
    var x, p := items[n], items[..n];
    assert forall j :: 0 <= j < n ==> items[j] in p;
    if x.Key() in w.byKey {
      var best := w.byKey[x.Key()];
      var j :| 0 <= j < |p| && p[j] == best;
      assert items[j] == best;
    }
  }

  /** The election accepts exactly when digests match and no observation repeats a running maximum. */
  lemma {:induction false} ElectionAccepts(env: Env, items: seq<Observation>)
    requires DistinctCursors(items)
    ensures ElectAll(env, NO_WINNERS, items).Success? <==> Admissible(env, items)
  {
    if items != [] {
      var p := items[..|items| - 1];
      ElectLast(env, items);
      AdmissibleLast(env, items);
      ElectionAccepts(env, p);
      if Admissible(env, p) {
        WinnersAreMaximal(env, p);
        LastRepeats(ElectAll(env, NO_WINNERS, p).value, items);
      }
    }
  }

  // ---- Stale observations ----

  /** An observation older than its key's current winner leaves every later election step as it was. */
  lemma StaleIsInert(env: Env, p: seq<Observation>, x: Observation, q: seq<Observation>)
    requires ElectAll(env, NO_WINNERS, p).Success? && DigestMatches(env, x)
    requires exists y :: y in p && y.Key() == x.Key() && y.entityVersion > x.entityVersion
    ensures ElectAll(env, NO_WINNERS, p + [x] + q) == ElectAll(env, NO_WINNERS, p + q)
  {
    WinnersAreMaximal(env, p);
    var w := ElectAll(env, NO_WINNERS, p).value;
    assert Elect(env, w, x) == Success(w);
    assert p + [x] + q == p + ([x] + q) && ([x] + q)[1..] == q;
    ElectAllSplit(env, NO_WINNERS, p, [x] + q);
    ElectAllSplit(env, NO_WINNERS, p, q);
  }

  /** At the fold: only the count, the cutoff cursor and the commitment can tell that it was there. */
  lemma StaleChangesOnlyEvidence(env: Env, p: seq<Observation>, x: Observation, q: seq<Observation>, c: Cutoff,
                                 d: Cutoff)
    requires ElectAll(env, NO_WINNERS, p).Success? && DigestMatches(env, x) && |env.encode(x)| < LENGTH_LIMIT
    requires exists y :: y in p && y.Key() == x.Key() && y.entityVersion > x.entityVersion
    requires CheckHeader(p + [x] + q, c).Success? && CheckHeader(p + q, d).Success?
    ensures var with, without := FoldOrdered(env, p + [x] + q, c), FoldOrdered(env, p + q, d);
      && (with.Success? <==> without.Success?)
      && (with.Success? ==>
            && with.value.observationCount == without.value.observationCount + 1
            && with.value.(observationCount := without.value.observationCount,
                           terminalCursor := without.value.terminalCursor,
                           commitment := without.value.commitment) == without.value)
  {
    StaleIsInert(env, p, x, q);
    CommitAlike(env, p, x, q);
    SameRun(p, x, q, c, d);
    var run := CheckHeader(p + q, d).value;
    var elected := ElectAll(env, NO_WINNERS, p + q);
    if elected.Success? {
      ElectionKeys(env, NO_WINNERS, p + q);
      var projected := ProjectAll(env, NO_PROJECTION, Elected(elected.value));
      if projected.Success? && Commit(env.sha, Encodings(env, p + q)).Success? {
        AssembleAlike(run, |p + q| + 1, c.terminalCursor, Commit(env.sha, Encodings(env, p + [x] + q)).value,
                      |p + q|, d.terminalCursor, Commit(env.sha, Encodings(env, p + q)).value, projected.value);
      }
    }
  }

  /** Both streams commit, or neither does. */
  lemma CommitAlike(env: Env, p: seq<Observation>, x: Observation, q: seq<Observation>)
    requires |env.encode(x)| < LENGTH_LIMIT
    ensures Commit(env.sha, Encodings(env, p + [x] + q)).Success? <==> Commit(env.sha, Encodings(env, p + q)).Success?
  {
    CommitTotal(env.sha, EmptyCommitment(env.sha), Encodings(env, p + [x] + q));
    CommitTotal(env.sha, EmptyCommitment(env.sha), Encodings(env, p + q));
    EncodingLengths(env, p, x, q);
  }

  lemma SameRun(p: seq<Observation>, x: Observation, q: seq<Observation>, c: Cutoff, d: Cutoff)
    requires p != [] && CheckHeader(p + [x] + q, c).Success? && CheckHeader(p + q, d).Success?
    ensures CheckHeader(p + [x] + q, c).value == CheckHeader(p + q, d).value
  {
    assert (p + [x] + q)[0] == p[0] && (p + q)[0] == p[0];
  }

  /** Count, cursor and commitment are all of the result that does not come from the projection. */
  lemma AssembleAlike(run: (string, int), m: nat, c: int, s: string, n: nat, d: int, t: string,
                      projected: ProjectionState)
    ensures Assemble(run, m, c, projected, s).(observationCount := n, terminalCursor := d, commitment := t)
         == Assemble(run, n, d, projected, t)
    ensures Assemble(run, m, c, projected, s).observationCount == m
  {
  }

  lemma EncodingLengths(env: Env, p: seq<Observation>, x: Observation, q: seq<Observation>)
    requires |env.encode(x)| < LENGTH_LIMIT
    ensures (forall i :: 0 <= i < |p + [x] + q| ==> |Encodings(env, p + [x] + q)[i]| < LENGTH_LIMIT)
       <==> (forall i :: 0 <= i < |p + q| ==> |Encodings(env, p + q)[i]| < LENGTH_LIMIT)
  {
    var long, short, n := p + [x] + q, p + q, |p|;
    assert forall i :: 0 <= i < |short| ==> short[i] == if i < n then long[i] else long[i + 1];
    assert forall i :: 0 <= i < |long| && i != n ==> long[i] == if i < n then short[i] else short[i - 1];
    assert long[n] == x;
    if forall i :: 0 <= i < |long| ==> |Encodings(env, long)[i]| < LENGTH_LIMIT {
      forall i | 0 <= i < |short| ensures |Encodings(env, short)[i]| < LENGTH_LIMIT {
        assert |Encodings(env, long)[if i < n then i else i + 1]| < LENGTH_LIMIT;
      }
    }
    if forall i :: 0 <= i < |short| ==> |Encodings(env, short)[i]| < LENGTH_LIMIT {
      forall i | 0 <= i < |long| ensures |Encodings(env, long)[i]| < LENGTH_LIMIT {
        assert i != n ==> |Encodings(env, short)[if i < n then i else i - 1]| < LENGTH_LIMIT;
      }
    }
  }

  // ---- What the projection keeps ----

  predicate HasProjection(env: Env, item: Observation) {
    RawProjection(item).Some? && WinnerProjection(env, item).Some?
  }

  predicate Contributes(env: Env, item: Observation) {
    HasProjection(env, item) && WinnerProjection(env, item).value.record.Some?
  }

  function ContributionOf(env: Env, item: Observation): seq<Contribution> {
    if Contributes(env, item) then [Contribute(item, WinnerProjection(env, item).value)] else []
  }

  function MarkOf(env: Env, item: Observation): set<Collection> {
    if HasProjection(env, item) then {WinnerProjection(env, item).value.collection} else {}
  }

  function Contributions(env: Env, items: seq<Observation>): seq<Contribution> {
    if items == [] then [] else ContributionOf(env, items[0]) + Contributions(env, items[1..])
  }

  function Marked(env: Env, items: seq<Observation>): (marks: set<Collection>)
    ensures forall c :: c in marks <==> exists x :: x in items && c in MarkOf(env, x)
  {
    if items == [] then {}
    else
      assert forall y :: y in items <==> y == items[0] || y in items[1..];
      MarkOf(env, items[0]) + Marked(env, items[1..])
  }

  predicate ProjectionsValid(env: Env, items: seq<Observation>) {
    forall x :: x in items ==> ProjectionValid(env, x)
  }

  lemma PresentHasRecord(env: Env, item: Observation)
    requires HasProjection(env, item)
    ensures WinnerProjection(env, item).value.present <==> WinnerProjection(env, item).value.record.Some?
  {
    ValidatedIsValid(env.rules, RawProjection(item).value);
  }

  predicate ProjectionValid(env: Env, item: Observation) {
    RawProjection(item).Some? ==> WinnerProjection(env, item).Some?
  }

  lemma ProjectWinnerMeaning(env: Env, so: ProjectionState, item: Observation)
    ensures ProjectWinner(env, so, item)
         == if ProjectionValid(env, item)
            then Success(ProjectionState(so.collections + MarkOf(env, item),
                                         so.contributions + ContributionOf(env, item)))
            else Failure(InvalidProjection)
  {
    assert so.collections + {} == so.collections && so.contributions + [] == so.contributions;
    if HasProjection(env, item) {
      PresentHasRecord(env, item);
    }
  }

  lemma ValidSplit(env: Env, items: seq<Observation>)
    requires items != []
    ensures ProjectionsValid(env, items) <==> ProjectionValid(env, items[0]) && ProjectionsValid(env, items[1..])
  {
    assert forall y :: y in items <==> y == items[0] || y in items[1..];
  }

  lemma StatesJoin(so: ProjectionState, a: set<Collection>, b: set<Collection>, c: seq<Contribution>,
                   d: seq<Contribution>)
    ensures so.collections + a + b == so.collections + (a + b)
    ensures so.contributions + c + d == so.contributions + (c + d)
  {
  }

  /** A projection fails only on an invalid one; otherwise it marks and contributes exactly as told. */
  lemma {:induction false} ProjectAllMeaning(env: Env, so: ProjectionState, items: seq<Observation>)
    ensures ProjectAll(env, so, items)
         == if ProjectionsValid(env, items)
            then Success(ProjectionState(so.collections + Marked(env, items),
                                         so.contributions + Contributions(env, items)))
            else Failure(InvalidProjection)
    decreases |items|
  {
    if items == [] {
      assert so.contributions + [] == so.contributions && so.collections + {} == so.collections;
    } else {
      var x, rest := items[0], items[1..];
      ProjectWinnerMeaning(env, so, x);
      ValidSplit(env, items);
      var collections, contributions := so.collections + MarkOf(env, x), so.contributions + ContributionOf(env, x);
      ProjectAllMeaning(env, ProjectionState(collections, contributions), rest);
      StatesJoin(so, MarkOf(env, x), Marked(env, rest), ContributionOf(env, x), Contributions(env, rest));
    }
  }

  lemma {:induction false} ContributionsMembers(env: Env, items: seq<Observation>)
    ensures forall x, c :: x in items && IsContributionOf(env, c, x) ==> c in Contributions(env, items)
    ensures forall c :: c in Contributions(env, items) ==> exists x :: x in items && IsContributionOf(env, c, x)
  {
    if items != [] {
      ContributionsMembers(env, items[1..]);
      assert forall c ::
        c in Contributions(env, items) <==> c in ContributionOf(env, items[0]) || c in Contributions(env, items[1..]);
      assert forall c :: c in ContributionOf(env, items[0]) <==> IsContributionOf(env, c, items[0]);
      assert forall x :: x in items <==> x == items[0] || x in items[1..];
    }
  }

  ghost predicate DistinctKeys(items: seq<Observation>) {
    forall i, j :: 0 <= i < j < |items| ==> items[i].Key() != items[j].Key()
  }

  lemma {:induction false} ContributionsNoTies(env: Env, items: seq<Observation>)
    requires DistinctKeys(items)
    ensures NoTies(ContributionLe(), Contributions(env, items))
  {
    if items != [] {
      ContributionsNoTies(env, items[1..]);
      ContributionsMembers(env, items[1..]);
      var rest := Contributions(env, items[1..]);
      if Contributes(env, items[0]) {
        var c := Contribute(items[0], WinnerProjection(env, items[0]).value);
        forall j | 0 <= j < |rest| ensures !(ContributionLe()(c, rest[j]) && ContributionLe()(rest[j], c)) {
          assert rest[j] in rest;
          TieSharesKey(c, rest[j]);
        }
      }
    }
  }

  lemma TieSharesKey(a: Contribution, b: Contribution)
    ensures ContributionLe()(a, b) && ContributionLe()(b, a) ==> a.kind == b.kind && a.key == b.key
  {
    var m, n := CollectionName(a.collection), CollectionName(b.collection);
    if TextLe(m, n) && TextLe(n, m) {
      TextAntisymmetric(m, n);
    }
    if TextLe(a.kind, b.kind) && TextLe(b.kind, a.kind) {
      TextAntisymmetric(a.kind, b.kind);
    }
    if TextLe(a.key, b.key) && TextLe(b.key, a.key) {
      TextAntisymmetric(a.key, b.key);
    }
  }

  lemma ContributionOrdering()
    ensures Ordering(ContributionLe())
  {
    forall a: Contribution, b: Contribution ensures ContributionLe()(a, b) || ContributionLe()(b, a) {
      TextTotal(CollectionName(a.collection), CollectionName(b.collection));
      TextTotal(a.kind, b.kind);
      TextTotal(a.key, b.key);
    }
    forall a: Contribution, b: Contribution, c: Contribution | ContributionLe()(a, b) && ContributionLe()(b, c)
      ensures ContributionLe()(a, c)
    {
      ContributionTransitive(a, b, c);
    }
  }

  lemma TextStep(a: string, b: string, c: string)
    requires TextLe(a, b) && TextLe(b, c)
    ensures TextLe(a, c) && (a == c ==> a == b)
  {
    TextTransitive(a, b, c);
    if a == c {
      TextAntisymmetric(a, b);
    }
  }

  lemma ContributionTransitive(a: Contribution, b: Contribution, c: Contribution)
    requires ContributionLe()(a, b) && ContributionLe()(b, c)
    ensures ContributionLe()(a, c)
  {
    var l, m, n := CollectionName(a.collection), CollectionName(b.collection), CollectionName(c.collection);
    if l != m && m != n {
      TextStep(l, m, n);
    } else if l == m == n && a.position == b.position == c.position {
      if a.kind != b.kind && b.kind != c.kind {
        TextStep(a.kind, b.kind, c.kind);
      } else if a.kind == b.kind == c.kind {
        TextTransitive(a.key, b.key, c.key);
      }
    }
  }

  /** The contributions of one collection, in order. */
  function Select(sorted: seq<Contribution>, c: Collection): (cs: seq<Contribution>)
    ensures forall x :: x in cs <==> x in sorted && x.collection == c
  {
    if sorted == [] then []
    else
      var n := |sorted| - 1;
      assert sorted == sorted[..n] + [sorted[n]];
      Select(sorted[..n], c) + if sorted[n].collection == c then [sorted[n]] else []
  }

  lemma {:induction false} SelectSorted(sorted: seq<Contribution>, c: Collection)
    requires StrictlySorted(ContributionLe(), sorted)
    ensures StrictlySorted(ContributionLe(), Select(sorted, c))
  {
    if sorted != [] {
      var n := |sorted| - 1;
      SelectSorted(sorted[..n], c);
      forall i | 0 <= i < |Select(sorted[..n], c)|
        ensures Before(ContributionLe(), Select(sorted[..n], c)[i], sorted[n])
      {
        assert Select(sorted[..n], c)[i] in sorted[..n];
      }
    }
  }

  lemma {:induction false} RecordsAreSelected(sorted: seq<Contribution>, c: Collection)
    ensures |RecordsOf(sorted, c)| == |Select(sorted, c)|
    ensures forall i :: 0 <= i < |RecordsOf(sorted, c)| ==> RecordsOf(sorted, c)[i] == Select(sorted, c)[i].record
  {
    if sorted != [] {
      RecordsAreSelected(sorted[..|sorted| - 1], c);
    }
  }

  lemma {:induction false} SelectPartitions(sorted: seq<Contribution>)
    ensures |Select(sorted, Summary)| + |Select(sorted, Issues)| + |Select(sorted, Devices)|
          + |Select(sorted, Points)| + |Select(sorted, Topics)| == |sorted|
  {
    if sorted != [] {
      SelectPartitions(sorted[..|sorted| - 1]);
    }
  }

  /** The winners elected from an ordered stream, and their contributions in order. */
  function StreamWinners(env: Env, ordered: seq<Observation>): (w: Winners)
    requires ElectAll(env, NO_WINNERS, ordered).Success?
    ensures WellKeyed(w)
  {
    ElectionKeys(env, NO_WINNERS, ordered);
    ElectAll(env, NO_WINNERS, ordered).value
  }

  function Arranged(env: Env, w: Winners): seq<Contribution>
    requires WellKeyed(w)
  {
    Sort(ContributionLe(), Contributions(env, Elected(w)))
  }

  lemma FoldParts(env: Env, ordered: seq<Observation>, cutoff: Cutoff)
    ensures FoldOrdered(env, ordered, cutoff).Success? <==>
      && CheckHeader(ordered, cutoff).Success?
      && ElectAll(env, NO_WINNERS, ordered).Success?
      && ProjectionsValid(env, Elected(StreamWinners(env, ordered)))
      && Commit(env.sha, Encodings(env, ordered)).Success?
    ensures FoldOrdered(env, ordered, cutoff).Success? ==>
      var fold := FoldOrdered(env, ordered, cutoff).value;
      && fold.observationCount == |ordered|
      && Success(fold.commitment) == Commit(env.sha, Encodings(env, ordered))
      && Distributes(env, Elected(StreamWinners(env, ordered)), Arranged(env, StreamWinners(env, ordered)), fold)
  {
    if ElectAll(env, NO_WINNERS, ordered).Success? {
      var items := Elected(StreamWinners(env, ordered));
      ProjectAllMeaning(env, NO_PROJECTION, items);
      assert [] + Contributions(env, items) == Contributions(env, items);
      assert {} + Marked(env, items) == Marked(env, items);
    }
  }

  /** What a fold's five collections hold, told from its winners alone. */
  ghost predicate Distributes(env: Env, winners: seq<Observation>, sorted: seq<Contribution>, fold: Fold) {
    && fold.projectedCollections == Marked(env, winners)
    && fold.summary == SummaryOf(sorted)
    && fold.issues == RecordsOf(sorted, Issues)
    && fold.devices == RecordsOf(sorted, Devices)
    && fold.points == RecordsOf(sorted, Points)
    && fold.topics == RecordsOf(sorted, Topics)
  }

  lemma ElectedDistinct(w: Winners)
    requires WellKeyed(w)
    ensures DistinctKeys(Elected(w))
    ensures forall x :: x in Elected(w) <==> x in w.byKey.Values
  {
    var items := Elected(w);
    forall x | x in w.byKey.Values ensures x in items {
      var k :| k in w.byKey && w.byKey[k] == x;
      var i :| 0 <= i < |w.order| && w.order[i] == k;
      assert items[i] == x;
    }
  }

  /** `c` is what the present winner `x` contributes. */
  predicate IsContributionOf(env: Env, c: Contribution, x: Observation) {
    Contributes(env, x) && c == Contribute(x, WinnerProjection(env, x).value)
  }

  lemma ArrangementSorted(env: Env, w: Winners)
    requires WellKeyed(w)
    ensures StrictlySorted(ContributionLe(), Arranged(env, w))
  {
    ElectedDistinct(w);
    ContributionsNoTies(env, Elected(w));
    ContributionOrdering();
    SortStrict(ContributionLe(), Contributions(env, Elected(w)));
  }

  /** The arrangement holds each present winner's contribution, and nothing else. */
  lemma ArrangementConserves(env: Env, w: Winners, c: Contribution)
    requires WellKeyed(w)
    ensures c in Arranged(env, w)
       <==> (c.kind, c.key) in w.byKey && IsContributionOf(env, c, w.byKey[(c.kind, c.key)])
  {
    ElectedDistinct(w);
    ContributionsMembers(env, Elected(w));
    assert c in Arranged(env, w) <==> c in multiset(Contributions(env, Elected(w)));
    if c in Contributions(env, Elected(w)) {
      var x :| x in Elected(w) && IsContributionOf(env, c, x);
    }
  }

  /** Winners are maximal, contributions are conserved and ordered, and the five collections share them out. */
  lemma ProjectionConserved(env: Env, observations: seq<Observation>, cutoff: Cutoff)
    requires FoldObservations(env, observations, cutoff).Success?
    ensures var ordered := Sort(CursorLe(), observations);
      var fold := FoldObservations(env, observations, cutoff).value;
      && ElectAll(env, NO_WINNERS, ordered).Success?
      && var w := StreamWinners(env, ordered);
      var sorted := Arranged(env, w);
      && Leads(w, ordered)
      && Distributes(env, Elected(w), sorted, fold)
      && StrictlySorted(ContributionLe(), sorted)
      && |Select(sorted, Summary)| + |fold.issues| + |fold.devices| + |fold.points| + |fold.topics| == |sorted|
  {
    var ordered := Sort(CursorLe(), observations);
    FoldParts(env, ordered, cutoff);
    WinnersAreMaximal(env, ordered);
    var w := StreamWinners(env, ordered);
    ArrangementSorted(env, w);
    CountsAddUp(Arranged(env, w));
  }

  lemma CountsAddUp(sorted: seq<Contribution>)
    ensures |Select(sorted, Summary)| + |RecordsOf(sorted, Issues)| + |RecordsOf(sorted, Devices)|
          + |RecordsOf(sorted, Points)| + |RecordsOf(sorted, Topics)| == |sorted|
  {
    SelectPartitions(sorted);
    RecordsAreSelected(sorted, Issues);
    RecordsAreSelected(sorted, Devices);
    RecordsAreSelected(sorted, Points);
    RecordsAreSelected(sorted, Topics);
  }

  // ---- Summary keys: the last contributor in order wins ----

  predicate Mentions(record: seq<Entry>, k: Key) {
    exists e :: e in record && e.key == k
  }

  lemma {:induction false} UpdateKeys(before: map<Key, Value>, record: seq<Entry>, k: Key)
    ensures k in Update(before, record) <==> k in before || Mentions(record, k)
    ensures Mentions(record, k) ==>
      && k in Update(before, record) && k in Update(map[], record)
      && Update(before, record)[k] == Update(map[], record)[k]
    ensures k in before && !Mentions(record, k) ==> Update(before, record)[k] == before[k]
    decreases |record|
  {
    if record != [] {
      assert forall e :: e in record <==> e == record[0] || e in record[1..];
      var after := before[record[0].key := record[0].value];
      var alone := map[record[0].key := record[0].value];
      UpdateKeys(after, record[1..], k);
      UpdateKeys(alone, record[1..], k);
      assert map[][record[0].key := record[0].value] == alone;
    }
  }

  predicate GivesKey(c: Contribution, k: Key) {
    c.collection == Summary && Mentions(c.record, k)
  }

  /** A key is in the summary exactly when some contributor mentions it. */
  lemma {:induction false} SummaryKeys(sorted: seq<Contribution>, k: Key)
    ensures k in SummaryOf(sorted) <==> exists c :: c in sorted && GivesKey(c, k)
  {
    if sorted != [] {
      var n := |sorted| - 1;
      SummaryKeys(sorted[..n], k);
      UpdateKeys(SummaryOf(sorted[..n]), sorted[n].record, k);
      assert sorted == sorted[..n] + [sorted[n]];
      if GivesKey(sorted[n], k) {
        assert sorted[n] in sorted;
      }
    }
  }

  /** Its value is the one its last contributor gives it. */
  lemma {:induction false} SummaryLastContributor(sorted: seq<Contribution>, k: Key, i: nat)
    requires IsLastContributor(sorted, k, i)
    ensures k in SummaryOf(sorted) && k in Update(map[], sorted[i].record)
    ensures SummaryOf(sorted)[k] == Update(map[], sorted[i].record)[k]
  {
    var n := |sorted| - 1;
    UpdateKeys(SummaryOf(sorted[..n]), sorted[n].record, k);
    if i < n {
      assert !GivesKey(sorted[n], k);
      assert forall j :: 0 <= j < n ==> sorted[..n][j] == sorted[j];
      SummaryLastContributor(sorted[..n], k, i);
    }
  }

  ghost predicate IsLastContributor(sorted: seq<Contribution>, k: Key, i: int) {
    && 0 <= i < |sorted| && GivesKey(sorted[i], k)
    && forall j :: i < j < |sorted| ==> !GivesKey(sorted[j], k)
  }

  // ---- When the whole fold accepts, and what evidence it reports ----

  lemma {:induction false} LookupFinds(entries: seq<Entry>, name: string)
    requires Lookup(entries, name).Some?
    ensures exists i :: 0 <= i < |entries| && entries[i] == Entry(Field(name), Lookup(entries, name).value)
  {
    if entries[0].key == Field(name) {
      assert entries[0] == Entry(Field(name), Lookup(entries, name).value);
    } else {
      LookupFinds(entries[1..], name);
      var i :| 0 <= i < |entries[1..]| && entries[1..][i] == Entry(Field(name), Lookup(entries[1..], name).value);
      assert entries[i + 1] == Entry(Field(name), Lookup(entries, name).value);
    }
  }

  /** A row the view model produced: its payload is in normal form. */
  ghost predicate Viewed(env: Env, item: Observation) {
    NormalizePayload(env.rules, Dict(item.payload)).Some?
  }

  lemma ProjectionKind()
    ensures PayloadKind("projection_v1") == PayloadNormaliser.Projected
  {
  }

  lemma ViewedProjectionValid(env: Env, item: Observation)
    requires Viewed(env, item)
    ensures ProjectionValid(env, item)
  {
    if RawProjection(item).Some? {
      LookupFinds(item.payload, "projection_v1");
      ProjectionKind();
      var i :| 0 <= i < |item.payload|
        && item.payload[i] == Entry(Field("projection_v1"), Lookup(item.payload, "projection_v1").value);
      var fields := Fields(PAYLOAD_FIELDS, PayloadTable(env.rules), item.payload);
      assert fields.Some?;
      assert PayloadTable(env.rules)(item.payload[i].key.name, item.payload[i].value).Some?;
    }
  }

  /** Over viewed, committable rows the fold accepts exactly when header, digests and versions agree. */
  lemma FoldAccepts(env: Env, observations: seq<Observation>, cutoff: Cutoff)
    requires forall x :: x in observations ==> Viewed(env, x) && |env.encode(x)| < LENGTH_LIMIT
    ensures var ordered := Sort(CursorLe(), observations);
      FoldObservations(env, observations, cutoff).Success?
      <==> CheckHeader(ordered, cutoff).Success? && Admissible(env, ordered)
  {
    var ordered := Sort(CursorLe(), observations);
    assert forall x :: x in ordered ==> x in multiset(observations);
    FoldParts(env, ordered, cutoff);
    PhasesAccept(env, ordered, cutoff);
  }

  lemma PhasesAccept(env: Env, ordered: seq<Observation>, cutoff: Cutoff)
    requires forall x :: x in ordered ==> Viewed(env, x) && |env.encode(x)| < LENGTH_LIMIT
    ensures Commit(env.sha, Encodings(env, ordered)).Success?
    ensures CheckHeader(ordered, cutoff).Success? ==>
      (ElectAll(env, NO_WINNERS, ordered).Success? <==> Admissible(env, ordered))
    ensures ElectAll(env, NO_WINNERS, ordered).Success? ==> ProjectionsValid(env, Elected(StreamWinners(env, ordered)))
  {
    CommitTotal(env.sha, EmptyCommitment(env.sha), Encodings(env, ordered));
    if CheckHeader(ordered, cutoff).Success? {
      ElectionAccepts(env, ordered);
    }
    if ElectAll(env, NO_WINNERS, ordered).Success? {
      ElectedProjectionsValid(env, ordered);
    }
  }

  lemma ElectedAreGiven(env: Env, ordered: seq<Observation>)
    requires ElectAll(env, NO_WINNERS, ordered).Success?
    ensures forall x :: x in Elected(StreamWinners(env, ordered)) ==> x in ordered
  {
    WinnersAreMaximal(env, ordered);
    var w := StreamWinners(env, ordered);
    forall x | x in Elected(w) ensures x in ordered {
      var i :| 0 <= i < |w.order| && x == w.byKey[w.order[i]];
    }
  }

  lemma ElectedProjectionsValid(env: Env, ordered: seq<Observation>)
    requires ElectAll(env, NO_WINNERS, ordered).Success? && forall x :: x in ordered ==> Viewed(env, x)
    ensures ProjectionsValid(env, Elected(StreamWinners(env, ordered)))
  {
    ElectedAreGiven(env, ordered);
    forall x | x in Elected(StreamWinners(env, ordered)) ensures ProjectionValid(env, x) {
      assert Viewed(env, x);
      ViewedProjectionValid(env, x);
    }
  }

  lemma CommitmentExtends(env: Env, ordered: seq<Observation>, k: nat)
    requires Commit(env.sha, Encodings(env, ordered)).Success? && k <= |ordered|
    ensures var persisted := Commit(env.sha, Encodings(env, ordered[..k]));
      && persisted.Success?
      && ExtendAll(env.sha, persisted.value, Encodings(env, ordered[k..])) == Commit(env.sha, Encodings(env, ordered))
  {
    assert Encodings(env, ordered) == Encodings(env, ordered[..k]) + Encodings(env, ordered[k..]);
    AppendRefinesBatch(env.sha, EmptyCommitment(env.sha), Encodings(env, ordered[..k]), Encodings(env, ordered[k..]));
  }

  /** The evidence is what persisting after any prefix and appending the rest would have produced. */
  lemma FoldEvidenceExtends(env: Env, observations: seq<Observation>, cutoff: Cutoff, k: nat)
    requires FoldObservations(env, observations, cutoff).Success? && k <= |observations|
    ensures var ordered := Sort(CursorLe(), observations);
      var fold := FoldObservations(env, observations, cutoff).value;
      var persisted := Commit(env.sha, Encodings(env, ordered[..k]));
      && persisted.Success?
      && ExtendAll(env.sha, persisted.value, Encodings(env, ordered[k..])) == Success(fold.commitment)
      && fold.observationCount == |observations|
  {
    var ordered := Sort(CursorLe(), observations);
    FoldParts(env, ordered, cutoff);
    CommitmentExtends(env, ordered, k);
  }

  /** Folds reporting one commitment folded the same encoded stream, unless SHA-256 collides. */
  lemma FoldCommitmentBinds(env: Env, s: seq<Observation>, t: seq<Observation>, c: Cutoff, d: Cutoff)
    returns (a: bytes, b: bytes)
    requires FoldObservations(env, s, c).Success? && FoldObservations(env, t, d).Success?
    requires FoldObservations(env, s, c).value.commitment == FoldObservations(env, t, d).value.commitment
    ensures Encodings(env, Sort(CursorLe(), s)) == Encodings(env, Sort(CursorLe(), t)) || Collision(env.sha, a, b)
  {
    FoldParts(env, Sort(CursorLe(), s), c);
    FoldParts(env, Sort(CursorLe(), t), d);
    a, b := CommitmentBinds(env.sha, Encodings(env, Sort(CursorLe(), s)), Encodings(env, Sort(CursorLe(), t)));
  }
}
