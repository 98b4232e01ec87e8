/** What a fold holds, told from the observations alone: no word of the election, the contributions or their order. */
module FoldMeaning {
  import opened Wrappers
  import opened Bytes
  import opened Values
  import opened Sorting
  import opened StreamCommitment
  import opened PublicFields
  import opened PayloadNormaliser
  import opened ObservationFold

  // ---- The vocabulary ----

  predicate SameEntity(a: Observation, b: Observation) {
    a.entityKind == b.entityKind && a.entityKey == b.entityKey
  }

  /** No observation of the same entity is newer. */
  ghost predicate IsWinner(observations: seq<Observation>, x: Observation) {
    x in observations && forall y :: y in observations && SameEntity(x, y) ==> y.entityVersion <= x.entityVersion
  }

  /** The observation carries the valid projection `p`. */
  ghost predicate Projects(env: Env, x: Observation, p: Projection) {
    var raw := Lookup(x.payload, "projection_v1");
    raw.Some? && raw != Some(Null) && ValidateProjection(env.rules, raw.value) == Some(p)
  }

  /** It shows a record in the collection. */
  ghost predicate Shows(env: Env, x: Observation, p: Projection, c: Collection) {
    Projects(env, x, p) && p.present && p.record.Some? && p.collection == c
  }

  /** Position first, then entity kind, then entity key. */
  ghost predicate ShownBefore(x: Observation, p: Projection, y: Observation, q: Projection) {
    || p.position < q.position
    || (p.position == q.position && TextBefore(x.entityKind, y.entityKind))
    || (p.position == q.position && x.entityKind == y.entityKind && TextBefore(x.entityKey, y.entityKey))
  }

  /** The rows shown in one collection: each present winner once, in order. */
  ghost predicate Rows(env: Env, observations: seq<Observation>, c: Collection, xs: seq<Observation>,
                       ps: seq<Projection>) {
    && |xs| == |ps|
    && (forall i :: 0 <= i < |xs| ==> IsWinner(observations, xs[i]) && Shows(env, xs[i], ps[i], c))
    && (forall x, p :: IsWinner(observations, x) && Shows(env, x, p, c) ==> x in xs)
    && (forall i, j :: 0 <= i < j < |xs| ==> ShownBefore(xs[i], ps[i], xs[j], ps[j]))
  }

  // ---- Order ----

  lemma BeforeIsShownBefore(a: Contribution, b: Contribution, x: Observation, p: Projection, y: Observation,
                            q: Projection)
    requires Before(ContributionLe(), a, b) && a.collection == b.collection
    requires a.position == p.position && a.kind == x.entityKind && a.key == x.entityKey
    requires b.position == q.position && b.kind == y.entityKind && b.key == y.entityKey
    ensures ShownBefore(x, p, y, q)
  {
    if a.position == b.position {
      if a.kind != b.kind {
        TextLeMeaning(a.kind, b.kind);
      } else {
        TextTotal(a.key, a.key);
        TextLeMeaning(a.key, b.key);
      }
    }
  }

  // ---- Winners ----

  lemma WinnersAreElected(env: Env, observations: seq<Observation>, x: Observation)
    requires var ordered := Sort(CursorLe(), observations); ElectAll(env, NO_WINNERS, ordered).Success?
    ensures IsWinner(observations, x)
       <==> x in Elected(StreamWinners(env, Sort(CursorLe(), observations)))
  {
    var ordered := Sort(CursorLe(), observations);
    var w := StreamWinners(env, ordered);
    SameMembers(ordered, observations);
    WinnersAreMaximal(env, ordered);
    ElectedDistinct(w);
    if x in Elected(w) {
      assert w.byKey[x.Key()] == x;
    }
    if IsWinner(observations, x) {
      var best := w.byKey[x.Key()];
      assert best in observations && SameEntity(x, best);
    }
  }

  lemma SameMembers<T>(s: seq<T>, t: seq<T>)
    requires multiset(s) == multiset(t)
    ensures forall x :: x in s <==> x in t
  {
    forall x ensures x in s <==> x in t {
      assert x in s <==> x in multiset(s);
      assert x in t <==> x in multiset(t);
    }
  }

  // ---- Rows ----

  /** A contribution shows the record of the winner it came from. */
  ghost predicate ContributedBy(env: Env, c: Contribution, x: Observation, p: Projection) {
    && Shows(env, x, p, c.collection)
    && c.position == p.position && c.kind == x.entityKind && c.key == x.entityKey
    && c.record == JsonSafeEntries(p.record.value)
  }

  lemma ArrangedIsShown(env: Env, w: Winners, c: Contribution) returns (x: Observation, p: Projection)
    requires WellKeyed(w) && c in Arranged(env, w)
    ensures x in Elected(w) && ContributedBy(env, c, x, p)
  {
    ArrangementConserves(env, w, c);
    ElectedDistinct(w);
    x := w.byKey[(c.kind, c.key)];
    PresentHasRecord(env, x);
    p := WinnerProjection(env, x).value;
  }

  lemma ShownIsArranged(env: Env, w: Winners, x: Observation, p: Projection, c: Collection) returns (a: Contribution)
    requires WellKeyed(w) && x in Elected(w) && Shows(env, x, p, c)
    ensures a in Arranged(env, w) && ContributedBy(env, a, x, p)
  {
    a := Contribute(x, p);
    ElectedDistinct(w);
    ArrangementConserves(env, w, a);
  }

  /** Row by row, the contributions of a collection are shown by distinct winners. */
  ghost predicate RowsShow(env: Env, cs: seq<Contribution>, xs: seq<Observation>, ps: seq<Projection>) {
    |xs| == |ps| == |cs| && forall i :: 0 <= i < |cs| ==> ContributedBy(env, cs[i], xs[i], ps[i])
  }

  lemma RowsOf(env: Env, w: Winners, cs: seq<Contribution>) returns (xs: seq<Observation>, ps: seq<Projection>)
    requires WellKeyed(w) && forall c :: c in cs ==> c in Arranged(env, w)
    ensures RowsShow(env, cs, xs, ps) && forall x :: x in xs ==> x in Elected(w)
  {
    xs, ps := [], [];
    for i := 0 to |cs|
      invariant RowsShow(env, cs[..i], xs, ps) && forall x :: x in xs ==> x in Elected(w)
    {
      var x, p := ArrangedIsShown(env, w, cs[i]);
      xs, ps := xs + [x], ps + [p];
    }
  }

  lemma RowsOrdered(env: Env, cs: seq<Contribution>, xs: seq<Observation>, ps: seq<Projection>, c: Collection)
    requires RowsShow(env, cs, xs, ps) && StrictlySorted(ContributionLe(), cs)
    requires forall i :: 0 <= i < |cs| ==> cs[i].collection == c
    ensures forall i, j :: 0 <= i < j < |xs| ==> ShownBefore(xs[i], ps[i], xs[j], ps[j])
  {
    forall i, j | 0 <= i < j < |xs| ensures ShownBefore(xs[i], ps[i], xs[j], ps[j]) {
      assert ContributedBy(env, cs[i], xs[i], ps[i]) && ContributedBy(env, cs[j], xs[j], ps[j]);
      BeforeIsShownBefore(cs[i], cs[j], xs[i], ps[i], xs[j], ps[j]);
    }
  }

  lemma ShownIsRow(env: Env, w: Winners, cs: seq<Contribution>, xs: seq<Observation>, ps: seq<Projection>,
                   a: Contribution, x: Observation, p: Projection)
    requires WellKeyed(w) && x in Elected(w) && a in cs && ContributedBy(env, a, x, p)
    requires RowsShow(env, cs, xs, ps) && forall y :: y in xs ==> y in Elected(w)
    ensures x in xs
  {
    ElectedDistinct(w);
    var i :| 0 <= i < |cs| && cs[i] == a;
    assert ContributedBy(env, cs[i], xs[i], ps[i]) && xs[i] in xs;
    assert xs[i].Key() == x.Key();
  }

  lemma RowsComplete(env: Env, w: Winners, cs: seq<Contribution>, xs: seq<Observation>, ps: seq<Projection>,
                     c: Collection)
    requires WellKeyed(w) && cs == Select(Arranged(env, w), c) && RowsShow(env, cs, xs, ps)
    requires forall x :: x in xs ==> x in Elected(w)
    ensures forall x, p :: x in Elected(w) && Shows(env, x, p, c) ==> x in xs
  {
    forall x, p | x in Elected(w) && Shows(env, x, p, c) ensures x in xs {
      var a := ShownIsArranged(env, w, x, p, c);
      ShownIsRow(env, w, cs, xs, ps, a, x, p);
    }
  }

  /** The selected contributions of a collection, as rows. */
  lemma SelectedRows(env: Env, observations: seq<Observation>, c: Collection)
    returns (xs: seq<Observation>, ps: seq<Projection>)
    requires ElectAll(env, NO_WINNERS, Sort(CursorLe(), observations)).Success?
    ensures var w := StreamWinners(env, Sort(CursorLe(), observations));
      RowsShow(env, Select(Arranged(env, w), c), xs, ps)
    ensures Rows(env, observations, c, xs, ps)
  {
    var w := StreamWinners(env, Sort(CursorLe(), observations));
    var sorted := Arranged(env, w);
    var cs := Select(sorted, c);
    xs, ps := RowsOf(env, w, cs);
    ArrangementSorted(env, w);
    SelectSorted(sorted, c);
    forall i | 0 <= i < |cs| ensures cs[i].collection == c {
      assert cs[i] in cs;
    }
    RowsOrdered(env, cs, xs, ps, c);
    RowsComplete(env, w, cs, xs, ps, c);
    forall x ensures IsWinner(observations, x) <==> x in Elected(w) {
      WinnersAreElected(env, observations, x);
    }
    forall i | 0 <= i < |xs| ensures IsWinner(observations, xs[i]) && Shows(env, xs[i], ps[i], c) {
      assert ContributedBy(env, cs[i], xs[i], ps[i]) && xs[i] in xs;
    }
  }

  // ---- The lists ----

  /** The list of a collection holds, in order, the escaped record of each winner that shows one there. */
  ghost predicate Lists(env: Env, observations: seq<Observation>, c: Collection, records: seq<seq<Entry>>) {
    exists xs: seq<Observation>, ps: seq<Projection> ::
      && Rows(env, observations, c, xs, ps) && |records| == |xs|
      && forall i :: 0 <= i < |records| ==> records[i] == JsonSafeEntries(ps[i].record.value)
  }

  lemma RecordsList(env: Env, observations: seq<Observation>, c: Collection)
    requires ElectAll(env, NO_WINNERS, Sort(CursorLe(), observations)).Success?
    ensures var w := StreamWinners(env, Sort(CursorLe(), observations));
      Lists(env, observations, c, RecordsOf(Arranged(env, w), c))
  {
    var sorted := Arranged(env, StreamWinners(env, Sort(CursorLe(), observations)));
    var xs, ps := SelectedRows(env, observations, c);
    RecordsAreSelected(sorted, c);
    forall i | 0 <= i < |RecordsOf(sorted, c)| ensures RecordsOf(sorted, c)[i] == JsonSafeEntries(ps[i].record.value) {
      assert ContributedBy(env, Select(sorted, c)[i], xs[i], ps[i]);
    }
  }

  /** Every list of a fold. */
  lemma FoldLists(env: Env, observations: seq<Observation>, cutoff: Cutoff)
    requires FoldObservations(env, observations, cutoff).Success?
    ensures var fold := FoldObservations(env, observations, cutoff).value;
      && Lists(env, observations, Issues, fold.issues)
      && Lists(env, observations, Devices, fold.devices)
      && Lists(env, observations, Points, fold.points)
      && Lists(env, observations, Topics, fold.topics)
  {
    FoldParts(env, Sort(CursorLe(), observations), cutoff);
    RecordsList(env, observations, Issues);
    RecordsList(env, observations, Devices);
    RecordsList(env, observations, Points);
    RecordsList(env, observations, Topics);
  }

  lemma MarkedMeaning(env: Env, items: seq<Observation>, c: Collection)
    ensures c in Marked(env, items) <==> exists x, p :: x in items && Projects(env, x, p) && p.collection == c
  {
    forall x, p | x in items && Projects(env, x, p) && p.collection == c ensures c in MarkOf(env, x) {
    }
    if x :| x in items && c in MarkOf(env, x) {
      assert Projects(env, x, WinnerProjection(env, x).value);
    }
  }

  /** The collections a fold names are those of the winners' projections, present or not. */
  lemma FoldCollections(env: Env, observations: seq<Observation>, cutoff: Cutoff, c: Collection)
    requires FoldObservations(env, observations, cutoff).Success?
    ensures c in FoldObservations(env, observations, cutoff).value.projectedCollections
       <==> exists x, p :: IsWinner(observations, x) && Projects(env, x, p) && p.collection == c
  {
    var ordered := Sort(CursorLe(), observations);
    FoldParts(env, ordered, cutoff);
    var winners := Elected(StreamWinners(env, ordered));
    MarkedMeaning(env, winners, c);
    forall x ensures IsWinner(observations, x) <==> x in winners {
      WinnersAreElected(env, observations, x);
    }
  }

  // ---- The summary ----

  /** The value a record holds under a key. */
  ghost predicate Holds(record: seq<Entry>, k: Key, v: Value) {
    exists i :: 0 <= i < |record| && record[i] == Entry(k, v) && forall j :: i < j < |record| ==> record[j].key != k
  }

  ghost predicate HoldsKey(record: seq<Entry>, k: Key) {
    exists i :: 0 <= i < |record| && record[i].key == k
  }

  lemma HoldsKeySplit(record: seq<Entry>, k: Key)
    requires record != []
    ensures HoldsKey(record, k) <==> record[0].key == k || HoldsKey(record[1..], k)
  {
    if i :| 0 <= i < |record[1..]| && record[1..][i].key == k {
      assert record[i + 1].key == k;
    }
    if i :| 1 <= i < |record| && record[i].key == k {
      assert record[1..][i - 1].key == k;
    }
  }

  lemma HoldsLater(record: seq<Entry>, k: Key, v: Value)
    requires record != [] && Holds(record[1..], k, v)
    ensures Holds(record, k, v)
  {
    var rest := record[1..];
    var i :| 0 <= i < |rest| && rest[i] == Entry(k, v) && forall j :: i < j < |rest| ==> rest[j].key != k;
    assert record[i + 1] == rest[i] && forall j :: i + 1 < j < |record| ==> record[j] == rest[j - 1];
  }

  lemma {:induction false} UpdateHolds(before: map<Key, Value>, record: seq<Entry>, k: Key)
    ensures if HoldsKey(record, k) then k in Update(before, record) && Holds(record, k, Update(before, record)[k])
      else (k in Update(before, record) <==> k in before) && (k in before ==> Update(before, record)[k] == before[k])
    decreases |record|
  {
    if record != [] {
      var rest := record[1..];
      UpdateHolds(before[record[0].key := record[0].value], rest, k);
      HoldsKeySplit(record, k);
      if HoldsKey(rest, k) {
        HoldsLater(record, k, Update(before, record)[k]);
      } else if record[0].key == k {
        assert forall j :: 0 < j < |record| ==> record[j] == rest[j - 1];
      }
    }
  }

  /** Value and presence of a key after merging records one after another. */
  ghost predicate Merged(records: seq<seq<Entry>>, summary: map<Key, Value>, k: Key) {
    && (k in summary <==> exists i :: 0 <= i < |records| && HoldsKey(records[i], k))
    && (forall i :: 0 <= i < |records| && LastHolds(records, i, k) ==>
          k in summary && Holds(records[i], k, summary[k]))
  }

  ghost predicate LastHolds(records: seq<seq<Entry>>, i: nat, k: Key)
    requires i < |records|
  {
    HoldsKey(records[i], k) && forall j :: i < j < |records| ==> !HoldsKey(records[j], k)
  }

  lemma MergedNext(records: seq<seq<Entry>>, summary: map<Key, Value>, record: seq<Entry>, k: Key)
    requires Merged(records, summary, k)
    ensures Merged(records + [record], Update(summary, record), k)
  {
    UpdateHolds(summary, record, k);
    var all := records + [record];
    assert forall i :: 0 <= i < |records| ==> all[i] == records[i];
    if HoldsKey(record, k) {
      assert HoldsKey(all[|records|], k);
    }
  }

  lemma {:induction false} SummaryMerges(sorted: seq<Contribution>, k: Key)
    ensures Merged(RecordsOf(sorted, Summary), SummaryOf(sorted), k)
  {
    if sorted != [] {
      var n := |sorted| - 1;
      SummaryMerges(sorted[..n], k);
      if sorted[n].collection == Summary {
        MergedNext(RecordsOf(sorted[..n], Summary), SummaryOf(sorted[..n]), sorted[n].record, k);
      } else {
        assert RecordsOf(sorted, Summary) == RecordsOf(sorted[..n], Summary);
      }
    }
  }

  /** The summary holds, under each key some winner's summary record has, the value the last such record has. */
  lemma FoldSummary(env: Env, observations: seq<Observation>, cutoff: Cutoff) returns (records: seq<seq<Entry>>)
    requires FoldObservations(env, observations, cutoff).Success?
    ensures Lists(env, observations, Summary, records)
    ensures forall k :: Merged(records, FoldObservations(env, observations, cutoff).value.summary, k)
  {
    var ordered := Sort(CursorLe(), observations);
    FoldParts(env, ordered, cutoff);
    var sorted := Arranged(env, StreamWinners(env, ordered));
    records := RecordsOf(sorted, Summary);
    RecordsList(env, observations, Summary);
    forall k ensures Merged(records, SummaryOf(sorted), k) {
      SummaryMerges(sorted, k);
    }
  }

  // ---- Acceptance and evidence ----

  ghost predicate OfRun(observations: seq<Observation>, runId: string, attempt: int) {
    forall x :: x in observations ==> x.runId == runId && x.attempt == attempt
  }

  ghost predicate EndsAt(observations: seq<Observation>, cursor: int) {
    && (exists x :: x in observations && x.cursor == cursor)
    && (forall x :: x in observations ==> x.cursor <= cursor)
    && (forall i, j :: 0 <= i < j < |observations| ==> observations[i].cursor != observations[j].cursor)
  }

  /** The stream the cutoff describes: how many rows, of one run and attempt, each cursor once, up to the last. */
  ghost predicate HeaderAgrees(observations: seq<Observation>, cutoff: Cutoff, runId: string, attempt: int) {
    && (cutoff.expectedCount.Some? ==> cutoff.expectedCount.value == |observations|)
    && (cutoff.runId.Some? ==> cutoff.runId.value == runId)
    && (cutoff.attempt.Some? ==> cutoff.attempt.value == attempt)
    && (observations == [] ==> cutoff.terminalCursor == 0 && cutoff.runId.Some? && cutoff.attempt.Some?)
    && (observations != [] ==> OfRun(observations, runId, attempt) && EndsAt(observations, cutoff.terminalCursor))
  }

  lemma SortedByCursor(observations: seq<Observation>)
    ensures var ordered := Sort(CursorLe(), observations);
      && (forall i, j :: 0 <= i < j < |ordered| ==> ordered[i].cursor <= ordered[j].cursor)
      && (forall x :: x in ordered <==> x in observations)
  {
    CursorOrdering();
    SortSorted(CursorLe(), observations);
    SameMembers(Sort(CursorLe(), observations), observations);
  }

  lemma CursorsDistinct(observations: seq<Observation>)
    ensures DistinctCursors(Sort(CursorLe(), observations)) <==> DistinctCursors(observations)
  {
    CursorOrdering();
    var ordered := Sort(CursorLe(), observations);
    if DistinctCursors(ordered) {
      NoTiesPermuted(CursorLe(), ordered, observations);
      assert NoTies(CursorLe(), observations);
    }
    if DistinctCursors(observations) {
      NoTiesPermuted(CursorLe(), observations, ordered);
      assert NoTies(CursorLe(), ordered);
    }
  }

  lemma OneRunMeaning(observations: seq<Observation>, runId: string, attempt: int)
    requires observations != []
    ensures var ordered := Sort(CursorLe(), observations);
      OneRun(ordered) && ordered[0].runId == runId && ordered[0].attempt == attempt
      <==> OfRun(observations, runId, attempt)
  {
    var ordered := Sort(CursorLe(), observations);
    SortedByCursor(observations);
    forall x ensures x in observations <==> exists i :: 0 <= i < |ordered| && ordered[i] == x {
      assert x in ordered <==> x in observations;
    }
    if OfRun(observations, runId, attempt) {
      forall i | 0 <= i < |ordered| ensures ordered[i].runId == runId && ordered[i].attempt == attempt {
        assert ordered[i] in observations;
      }
    }
  }

  lemma LastIsGreatest(observations: seq<Observation>)
    requires observations != []
    ensures var ordered := Sort(CursorLe(), observations);
      var last := ordered[|ordered| - 1];
      last in observations && forall x :: x in observations ==> x.cursor <= last.cursor
  {
    var ordered := Sort(CursorLe(), observations);
    var last := ordered[|ordered| - 1];
    SortedByCursor(observations);
    assert last in ordered;
    forall x | x in observations ensures x.cursor <= last.cursor {
      assert x in ordered;
      var i :| 0 <= i < |ordered| && ordered[i] == x;
    }
  }

  lemma EndsAtLast(observations: seq<Observation>, cursor: int)
    requires observations != []
    ensures var ordered := Sort(CursorLe(), observations);
      DistinctCursors(ordered) && ordered[|ordered| - 1].cursor == cursor <==> EndsAt(observations, cursor)
  {
    CursorsDistinct(observations);
    LastIsGreatest(observations);
  }

  lemma CheckedHeader(ordered: seq<Observation>, observations: seq<Observation>, cutoff: Cutoff, runId: string,
                      attempt: int)
    requires ordered != [] && |ordered| == |observations|
    requires OneRun(ordered) && ordered[0].runId == runId && ordered[0].attempt == attempt
      <==> OfRun(observations, runId, attempt)
    requires DistinctCursors(ordered) && ordered[|ordered| - 1].cursor == cutoff.terminalCursor
      <==> EndsAt(observations, cutoff.terminalCursor)
    ensures CheckHeader(ordered, cutoff) == Success((runId, attempt))
       <==> HeaderAgrees(observations, cutoff, runId, attempt)
  {
  }

  lemma HeaderMeaning(observations: seq<Observation>, cutoff: Cutoff, runId: string, attempt: int)
    ensures CheckHeader(Sort(CursorLe(), observations), cutoff) == Success((runId, attempt))
       <==> HeaderAgrees(observations, cutoff, runId, attempt)
  {
    if observations != [] {
      OneRunMeaning(observations, runId, attempt);
      EndsAtLast(observations, cutoff.terminalCursor);
      CheckedHeader(Sort(CursorLe(), observations), observations, cutoff, runId, attempt);
    }
  }

  lemma CheckedIsDistinct(ordered: seq<Observation>, cutoff: Cutoff)
    requires CheckHeader(ordered, cutoff).Success?
    ensures DistinctCursors(ordered)
  {
  }

  lemma CursorsIncrease(observations: seq<Observation>)
    requires DistinctCursors(Sort(CursorLe(), observations))
    ensures var ordered := Sort(CursorLe(), observations);
      forall i, j :: 0 <= i < j < |ordered| ==> ordered[i].cursor < ordered[j].cursor
  {
    SortedByCursor(observations);
  }

  /** An earlier row has the same entity and version, and no earlier row of that entity is newer. */
  ghost predicate Conflicts(observations: seq<Observation>, x: Observation) {
    && (exists y :: y in observations && y.cursor < x.cursor && SameEntity(x, y) && y.entityVersion == x.entityVersion)
    && (forall z :: z in observations && z.cursor < x.cursor && SameEntity(x, z) ==> z.entityVersion <= x.entityVersion)
  }

  lemma ConflictIsRepeat(ordered: seq<Observation>, i: nat)
    requires forall i, j :: 0 <= i < j < |ordered| ==> ordered[i].cursor < ordered[j].cursor
    requires i < |ordered|
    ensures RepeatsMaximum(ordered, i) <==> Conflicts(ordered, ordered[i])
  {
    forall y | y in ordered && y.cursor < ordered[i].cursor ensures exists j :: 0 <= j < i && ordered[j] == y {
      var j :| 0 <= j < |ordered| && ordered[j] == y;
    }
    forall j | 0 <= j < i ensures ordered[j] in ordered && ordered[j].cursor < ordered[i].cursor {
    }
  }

  ghost predicate HasOwnDigest(env: Env, x: Observation) {
    x.payloadSha256 == HexDigest(env.sha(env.dumps(JsonSafe(Dict(x.payload)))))
  }

  lemma ConflictsIgnoreOrder(s: seq<Observation>, t: seq<Observation>, x: Observation)
    requires forall y :: y in s <==> y in t
    ensures Conflicts(s, x) <==> Conflicts(t, x)
  {
  }

  lemma AdmissibleAt(env: Env, observations: seq<Observation>, i: nat)
    requires DistinctCursors(observations) && i < |observations|
    ensures var ordered := Sort(CursorLe(), observations);
      (DigestMatches(env, ordered[i]) <==> HasOwnDigest(env, ordered[i]))
      && (RepeatsMaximum(ordered, i) <==> Conflicts(observations, ordered[i]))
  {
    var ordered := Sort(CursorLe(), observations);
    SortedByCursor(observations);
    CursorsDistinct(observations);
    ConflictIsRepeat(ordered, i);
    ConflictsIgnoreOrder(ordered, observations, ordered[i]);
  }

  lemma AdmissibleMeaning(env: Env, observations: seq<Observation>)
    requires DistinctCursors(observations)
    ensures Admissible(env, Sort(CursorLe(), observations))
       <==> forall x :: x in observations ==> HasOwnDigest(env, x) && !Conflicts(observations, x)
  {
    var ordered := Sort(CursorLe(), observations);
    SameMembers(ordered, observations);
    forall i | 0 <= i < |ordered|
      ensures ordered[i] in observations
      ensures DigestMatches(env, ordered[i]) && !RepeatsMaximum(ordered, i)
        <==> HasOwnDigest(env, ordered[i]) && !Conflicts(observations, ordered[i])
    {
      AdmissibleAt(env, observations, i);
    }
    forall x | x in observations ensures exists i :: 0 <= i < |ordered| && ordered[i] == x {
      assert x in ordered;
    }
  }

  /** Over viewed, committable rows: a fold succeeds exactly when the cutoff describes the stream, every stored digest
    * is that of its payload, and no row conflicts with an earlier one. */
  lemma FoldSucceeds(env: Env, observations: seq<Observation>, cutoff: Cutoff)
    requires forall x :: x in observations ==> Viewed(env, x) && |env.encode(x)| < LENGTH_LIMIT
    ensures FoldObservations(env, observations, cutoff).Success? <==>
      && (exists runId, attempt :: HeaderAgrees(observations, cutoff, runId, attempt))
      && forall x :: x in observations ==> HasOwnDigest(env, x) && !Conflicts(observations, x)
  {
    FoldAccepts(env, observations, cutoff);
    var header := CheckHeader(Sort(CursorLe(), observations), cutoff);
    if header.Success? {
      HeaderMeaning(observations, cutoff, header.value.0, header.value.1);
      AdmissibleMeaning(env, observations);
    }
    forall runId, attempt | HeaderAgrees(observations, cutoff, runId, attempt) ensures header.Success? {
      HeaderMeaning(observations, cutoff, runId, attempt);
    }
  }

  /** The rows by cursor, and the commitment to them. */
  ghost predicate CommitsTo(env: Env, observations: seq<Observation>, ordered: seq<Observation>, commitment: string) {
    && multiset(ordered) == multiset(observations)
    && (forall i, j :: 0 <= i < j < |ordered| ==> ordered[i].cursor < ordered[j].cursor)
    && Success(commitment) == Commit(env.sha, seq(|ordered|, i requires 0 <= i < |ordered| => env.encode(ordered[i])))
  }

  lemma FoldCommits(env: Env, observations: seq<Observation>, cutoff: Cutoff)
    requires FoldObservations(env, observations, cutoff).Success?
    ensures CommitsTo(env, observations, Sort(CursorLe(), observations),
                      FoldObservations(env, observations, cutoff).value.commitment)
  {
    var ordered := Sort(CursorLe(), observations);
    FoldParts(env, ordered, cutoff);
    CheckedIsDistinct(ordered, cutoff);
    CursorsIncrease(observations);
    assert Encodings(env, ordered) == seq(|ordered|, i requires 0 <= i < |ordered| => env.encode(ordered[i]));
  }

  lemma FoldHeader(env: Env, ordered: seq<Observation>, cutoff: Cutoff)
    requires FoldOrdered(env, ordered, cutoff).Success?
    ensures var fold := FoldOrdered(env, ordered, cutoff).value;
      && CheckHeader(ordered, cutoff) == Success((fold.runId, fold.attempt))
      && fold.observationCount == |ordered| && fold.terminalCursor == cutoff.terminalCursor
  {
  }

  /** Whose stream it was, how long, and the commitment to its rows in cursor order. */
  lemma FoldEvidence(env: Env, observations: seq<Observation>, cutoff: Cutoff)
    requires FoldObservations(env, observations, cutoff).Success?
    ensures var fold := FoldObservations(env, observations, cutoff).value;
      && HeaderAgrees(observations, cutoff, fold.runId, fold.attempt)
      && fold.observationCount == |observations| && fold.terminalCursor == cutoff.terminalCursor
      && exists ordered :: CommitsTo(env, observations, ordered, fold.commitment)
  {
    var fold := FoldObservations(env, observations, cutoff).value;
    FoldHeader(env, Sort(CursorLe(), observations), cutoff);
    HeaderMeaning(observations, cutoff, fold.runId, fold.attempt);
    FoldCommits(env, observations, cutoff);
  }
}
