/** The two-phase lease and heartbeat monitor (smoke_windows_portable_release.py). Times are seconds. */
module HeartbeatMonitor {
  import opened Wrappers

  datatype Status = Running | Succeeded | Failed | Cancelled | Unexpected

  /** One SQLite lease row and the wall-clock time it was read. */
  datatype Sample = Sample(status: Status, heartbeat: real, expiry: real, terminalAt: Option<real>, observedAt: real)

  /** One loop iteration: the API's run next to the row read after it. */
  datatype Poll = Poll(apiStatus: Status, stage: string, sample: Sample)

  datatype Config = Config(lease: real, heartbeat: real, allowance: real, mentionsLease: string -> bool)

  predicate Terminal(s: Status) {
    s in {Succeeded, Failed, Cancelled}
  }

  function Max(a: real, b: real): real {
    if a < b then b else a
  }

  function Tolerance(c: Config): real {
    Max(0.25, c.heartbeat * 0.25)
  }

  function Age(s: Sample): real {
    s.observedAt - s.heartbeat
  }

  /** What every running row must satisfy, given the last heartbeat seen before it. */
  predicate Fresh(c: Config, last: real, s: Sample) {
    && s.heartbeat >= last
    && -Tolerance(c) <= Age(s) <= c.allowance
    && s.expiry > s.observedAt
    && -Tolerance(c) <= s.expiry - s.heartbeat - c.lease <= Tolerance(c)
    && (s.heartbeat > last ==> s.heartbeat - last <= c.allowance)
  }

  /** Consecutive running rows, each fresh against the one before. */
  ghost predicate FreshChain(c: Config, h: seq<Sample>) {
    && h != [] && Fresh(c, h[0].heartbeat, h[0])
    && forall i :: 0 < i < |h| ==> FreshAt(c, h, i)
  }

  predicate FreshAt(c: Config, h: seq<Sample>, i: int)
    requires 0 < i < |h|
  {
    Fresh(c, h[i - 1].heartbeat, h[i])
  }

  /** Strict increases along the chain. */
  function Renewals(h: seq<Sample>): nat {
    if |h| <= 1 then 0
    else Renewals(h[..|h| - 1]) + if h[|h| - 1].heartbeat > h[|h| - 2].heartbeat then 1 else 0
  }

  function Last(h: seq<Sample>): Sample
    requires h != []
  {
    h[|h| - 1]
  }

  // ---- Phase 1: two renewals before the deadline ----

  datatype Renewal = Renewal(count: nat, initialHeartbeat: real, originalExpiry: real, last: Sample)

  predicate RenewalsAdvance(h: seq<Sample>) {
    forall i :: 0 < i < |h| ==> AdvanceAt(h, i)
  }

  predicate AdvanceAt(h: seq<Sample>, i: int)
    requires 0 < i < |h|
  {
    h[i].heartbeat > h[i - 1].heartbeat ==> h[i].expiry > h[0].expiry
  }

  /** The chain of running rows up to the second renewal, if every row on the way is fresh. */
  function Observe(c: Config, h: seq<Sample>, polls: seq<Sample>): (r: Option<seq<Sample>>)
    requires h != []
    ensures r.Some? ==> r.value != []
    decreases |polls|
  {
    if Renewals(h) >= 2 then Some(h)
    else if polls == [] || polls[0].status != Running || !Fresh(c, Last(h).heartbeat, polls[0]) then None
    else Observe(c, h + [polls[0]], polls[1..])
  }

  /** What phase one reports, if it accepts. */
  function Observed(c: Config, first: Sample, polls: seq<Sample>): Option<Renewal> {
    if first.status == Running && Fresh(c, first.heartbeat, first) && Observe(c, [first], polls).Some?
       && RenewalsAdvance(Observe(c, [first], polls).value)
    then Some(Renewal(2, first.heartbeat, first.expiry, Last(Observe(c, [first], polls).value)))
    else None
  }

  /** `_observe_heartbeat_renewals`; `polls` are the rows read before its deadline. */
  method ObserveHeartbeatRenewals(c: Config, first: Sample, polls: seq<Sample>) returns (r: Option<Renewal>)
    ensures r == Observed(c, first, polls)
  {
    if first.status != Running || !Fresh(c, first.heartbeat, first) {
      return None;
    }
    var snapshots, values, last, i := [first], {first.heartbeat}, first.heartbeat, 0;
    ghost var h := [first];
    while |values| < 3 && i < |polls|
      invariant 0 <= i <= |polls| && h != [] && h[0] == first
      invariant Observe(c, [first], polls) == Observe(c, h, polls[i..])
      invariant last == Last(h).heartbeat && last in values && forall v :: v in values ==> v <= last
      invariant |values| == Renewals(h) + 1 == |snapshots| <= 3 && Last(snapshots).heartbeat == last
      invariant |values| == 3 ==> Last(snapshots) == Last(h)
      invariant RenewedPast(snapshots, first.expiry) <==> RenewalsAdvance(h)
    {
      var s := polls[i];
      assert polls[i..][1..] == polls[i + 1..];
      if s.status != Running || !Fresh(c, last, s) {
        return None;
      }
      ExtendChain(h, s);
      h := h + [s];
      if s.heartbeat !in values {
        values := values + {s.heartbeat};
        AppendRenewed(snapshots, s, first.expiry);
        snapshots := snapshots + [s];
        last := s.heartbeat;
      }
      i := i + 1;
    }
    if |values| < 3 {
      return None;
    }
    if !RenewedPast(snapshots, first.expiry) {
      return None;
    }
    r := Some(Renewal(|values| - 1, first.heartbeat, first.expiry, Last(snapshots)));
  }

  /** Every renewed row expires after `expiry`; the first row is the original one. */
  predicate RenewedPast(snapshots: seq<Sample>, expiry: real) {
    forall j :: 1 <= j < |snapshots| ==> snapshots[j].expiry > expiry
  }

  lemma AppendRenewed(snapshots: seq<Sample>, s: Sample, expiry: real)
    requires snapshots != []
    ensures RenewedPast(snapshots + [s], expiry) <==> RenewedPast(snapshots, expiry) && s.expiry > expiry
  {
    var t := snapshots + [s];
    assert t[|snapshots|] == s;
    assert forall j :: 1 <= j < |snapshots| ==> t[j] == snapshots[j];
  }

  lemma ExtendChain(h: seq<Sample>, s: Sample)
    requires h != []
    ensures Renewals(h + [s]) == Renewals(h) + if s.heartbeat > Last(h).heartbeat then 1 else 0
    ensures RenewalsAdvance(h + [s]) <==>
      RenewalsAdvance(h) && (s.heartbeat > Last(h).heartbeat ==> s.expiry > h[0].expiry)
  {
    assert (h + [s])[..|h|] == h;
    ExtendAdvance(h, s);
  }

  lemma ExtendAdvance(h: seq<Sample>, s: Sample)
    requires h != []
    ensures RenewalsAdvance(h + [s]) <==>
      RenewalsAdvance(h) && (s.heartbeat > Last(h).heartbeat ==> s.expiry > h[0].expiry)
  {
    var t := h + [s];
    forall i | 0 < i < |h| ensures AdvanceAt(t, i) <==> AdvanceAt(h, i) {
    }
    assert AdvanceAt(t, |h|) <==> (s.heartbeat > Last(h).heartbeat ==> s.expiry > h[0].expiry);
  }

  /** An accepted chain is fresh throughout, holds exactly two renewals and is a prefix of what was polled. */
  lemma {:induction false} ObservedChain(c: Config, h: seq<Sample>, polls: seq<Sample>)
    requires h != [] && FreshChain(c, h) && Renewals(h) <= 2 && Observe(c, h, polls).Some?
    ensures var accepted := Observe(c, h, polls).value;
      h <= accepted <= h + polls && FreshChain(c, accepted) && Renewals(accepted) == 2
    decreases |polls|
  {
    if Renewals(h) < 2 {
      ExtendChain(h, polls[0]);
      ExtendFresh(c, h, polls[0]);
      ObservedChain(c, h + [polls[0]], polls[1..]);
      assert h + [polls[0]] + polls[1..] == h + polls;
    }
  }

  /** And no chain with two renewals is turned away. */
  lemma {:induction false} ObserveComplete(c: Config, h: seq<Sample>, polls: seq<Sample>, n: nat)
    requires h != [] && n <= |polls| && FreshChain(c, h + polls[..n]) && Renewals(h + polls[..n]) >= 2
    requires forall i :: 0 <= i < n ==> polls[i].status == Running
    ensures Observe(c, h, polls).Some?
    decreases |polls|
  {
    assert n == 0 ==> h + polls[..n] == h;
    if Renewals(h) < 2 {
      var all := h + polls[..n];
      assert FreshAt(c, all, |h|);
      assert all == h + [polls[0]] + polls[1..][..n - 1];
      ObserveComplete(c, h + [polls[0]], polls[1..], n - 1);
    }
  }

  lemma ExtendFresh(c: Config, h: seq<Sample>, s: Sample)
    requires FreshChain(c, h) && Fresh(c, Last(h).heartbeat, s)
    ensures FreshChain(c, h + [s])
  {
    var t := h + [s];
    assert forall i :: 0 < i < |h| ==> (FreshAt(c, t, i) <==> FreshAt(c, h, i));
  }

  // ---- Phase 2: live until terminal, across the original lease boundary ----

  /** The running rows so far, the row that proved the boundary, and the distinct stages in order. */
  datatype Watch = Watch(h: seq<Sample>, boundary: Option<Sample>, stages: seq<string>)

  function AddStage(stages: seq<string>, stage: string): seq<string> {
    if stages == [] || stages[|stages| - 1] != stage then stages + [stage] else stages
  }

  function WatchPoll(c: Config, target: real, w: Watch, p: Poll): (r: Option<Watch>)
    requires w.h != []
    ensures r.Some? ==> r.value.h != []
  {
    var s, stages := p.sample, AddStage(w.stages, p.stage);
    if s.status == Running then
      if !Fresh(c, Last(w.h).heartbeat, s) then None
      else if s.observedAt < target || w.boundary.Some? then Some(Watch(w.h + [s], w.boundary, stages))
      else if p.apiStatus != Running || c.mentionsLease(p.stage) || s.heartbeat <= w.h[0].heartbeat then None
      else Some(Watch(w.h + [s], Some(s), stages))
    else if Terminal(s.status) then
      if s.terminalAt.None? || !(0.0 <= s.terminalAt.value - Last(w.h).heartbeat <= c.allowance) || w.boundary.None?
      then None
      else Some(w.(stages := stages))
    else None
  }

  predicate Finishes(p: Poll) {
    Terminal(p.sample.status) && Terminal(p.apiStatus)
  }

  /** The watch up to the poll where the API and SQLite agree on a terminal status. */
  function WatchAll(c: Config, target: real, w: Watch, polls: seq<Poll>): (r: Option<(Watch, Poll)>)
    requires w.h != []
    ensures r.Some? ==> r.value.0.h != []
    decreases |polls|
  {
    if polls == [] then None
    else
      var next := WatchPoll(c, target, w, polls[0]);
      if next.None? then None
      else if !Finishes(polls[0]) then WatchAll(c, target, next.value, polls[1..])
      else if polls[0].apiStatus == polls[0].sample.status then Some((next.value, polls[0]))
      else None
  }

  function MaxAge(h: seq<Sample>): real {
    if h == [] then 0.0 else Max(MaxAge(h[..|h| - 1]), Max(0.0, Age(Last(h))))
  }

  function MaxGap(h: seq<Sample>): real {
    if |h| <= 1 then 0.0
    else Max(MaxGap(h[..|h| - 1]), Max(0.0, Last(h).heartbeat - h[|h| - 2].heartbeat))
  }

  /** The expiry recorded with the latest renewal. */
  function RenewedExpiry(h: seq<Sample>): real
    requires h != []
  {
    if |h| == 1 || Last(h).heartbeat > h[|h| - 2].heartbeat then Last(h).expiry else RenewedExpiry(h[..|h| - 1])
  }

  datatype Evidence = Evidence(
    sampleCount: nat,
    renewalCount: nat,
    maxAge: real,
    maxGap: real,
    lastHeartbeat: real,
    lastExpiry: real,
    terminalAt: real,
    terminalGap: real,
    boundary: Sample,
    stages: seq<string>)

  function Report(w: Watch, boundary: Sample, terminalAt: real): Evidence
    requires w.h != []
  {
    Evidence(|w.h|, Renewals(w.h), MaxAge(w.h), MaxGap(w.h), Last(w.h).heartbeat, RenewedExpiry(w.h),
             terminalAt, terminalAt - Last(w.h).heartbeat, boundary, w.stages)
  }

  /** `_monitor_running_heartbeats_until_terminal`; `polls` are the iterations before its timeout. */
  method MonitorUntilTerminal(c: Config, originalExpiry: real, grace: real, start: Sample, polls: seq<Poll>)
    returns (r: Option<Evidence>)
    ensures var seen := WatchAll(c, originalExpiry + grace, Watch([start], None, []), polls);
      (r.Some? <==> start.status == Running && Fresh(c, start.heartbeat, start) && seen.Some?)
      && (r.Some? ==>
            var (w, p) := seen.value;
            && w.boundary.Some? && p.sample.terminalAt.Some?
            && r.value == Report(w, w.boundary.value, p.sample.terminalAt.value))
  {
    if start.status != Running || !Fresh(c, start.heartbeat, start) {
      return None;
    }
    var target := originalExpiry + grace;
    var lastHeartbeat, lastExpiry := start.heartbeat, start.expiry;
    var sampleCount, renewalCount, maxAge, maxGap := 1, 0, Max(0.0, Age(start)), 0.0;
    var stages: seq<string>, boundary: Option<Sample> := [], None;
    ghost var w := Watch([start], None, []);
    ghost var whole := WatchAll(c, target, w, polls);
    for i := 0 to |polls|
      invariant w.h != [] && w.h[0] == start && w.boundary == boundary && w.stages == stages
      invariant whole == WatchAll(c, target, w, polls[i..])
      invariant lastHeartbeat == Last(w.h).heartbeat && lastExpiry == RenewedExpiry(w.h)
      invariant sampleCount == |w.h| && renewalCount == Renewals(w.h)
      invariant maxAge == MaxAge(w.h) && maxGap == MaxGap(w.h)
    {
      var p := polls[i];
      var s := p.sample;
      assert polls[i..][1..] == polls[i + 1..];
      ghost var next := WatchPoll(c, target, w, p);
      stages := AddStage(stages, p.stage);
      if s.status == Running {
        if !Fresh(c, lastHeartbeat, s) {
          return None;
        }
        assert (w.h + [s])[..|w.h + [s]| - 1] == w.h;
        if s.heartbeat > lastHeartbeat {
          renewalCount := renewalCount + 1;
          maxGap := Max(maxGap, s.heartbeat - lastHeartbeat);
          lastHeartbeat, lastExpiry := s.heartbeat, s.expiry;
        }
        sampleCount := sampleCount + 1;
        maxAge := Max(maxAge, Max(0.0, Age(s)));
        if s.observedAt >= target && boundary.None? {
          if p.apiStatus != Running || c.mentionsLease(p.stage) || s.heartbeat <= start.heartbeat {
            return None;
          }
          boundary := Some(s);
        }
      } else if Terminal(s.status) {
        if s.terminalAt.None? || !(0.0 <= s.terminalAt.value - lastHeartbeat <= c.allowance) || boundary.None? {
          return None;
        }
        if Terminal(p.apiStatus) {
          if p.apiStatus != s.status {
            return None;
          }
          return Some(Evidence(sampleCount, renewalCount, maxAge, maxGap, lastHeartbeat, lastExpiry,
                               s.terminalAt.value, s.terminalAt.value - lastHeartbeat, boundary.value, stages));
        }
      } else {
        return None;
      }
      w := next.value;
    }
    r := None;
  }

  // ---- What acceptance of both phases implies ----

  /** An accepted watch is a fresh chain, its boundary row lies on it past the target, and its end is close. */
  lemma {:induction false} WatchedChain(c: Config, target: real, w: Watch, polls: seq<Poll>)
    requires w.h != [] && FreshChain(c, w.h) && WatchAll(c, target, w, polls).Some?
    requires w.boundary.Some? ==> w.boundary.value in w.h && w.boundary.value.observedAt >= target
    ensures var (seen, p) := WatchAll(c, target, w, polls).value;
      && FreshChain(c, seen.h) && w.h <= seen.h
      && seen.boundary.Some? && seen.boundary.value in seen.h && seen.boundary.value.observedAt >= target
      && p.sample.terminalAt.Some? && p.apiStatus == p.sample.status && Terminal(p.apiStatus)
      && 0.0 <= p.sample.terminalAt.value - Last(seen.h).heartbeat <= c.allowance
    decreases |polls|
  {
    var next := WatchPoll(c, target, w, polls[0]).value;
    if polls[0].sample.status == Running {
      ExtendFresh(c, w.h, polls[0].sample);
      assert polls[0].sample in next.h;
      assert forall s :: s in w.h ==> s in next.h;
    }
    if !Finishes(polls[0]) {
      WatchedChain(c, target, next, polls[1..]);
    }
  }

  /** Two accepted phases sharing a row make one chain. */
  lemma JoinChains(c: Config, a: seq<Sample>, b: seq<Sample>)
    requires FreshChain(c, a) && FreshChain(c, b) && b[0] == Last(a)
    ensures FreshChain(c, a + b[1..])
    ensures Renewals(a + b[1..]) == Renewals(a) + Renewals(b)
    decreases |b|
  {
    if |b| == 1 {
      assert a + b[1..] == a;
    } else {
      var n := |b| - 1;
      assert forall i :: 0 < i < n ==> (FreshAt(c, b[..n], i) <==> FreshAt(c, b, i));
      JoinChains(c, a, b[..n]);
      var joined := a + b[..n][1..];
      assert a + b[1..] == joined + [b[n]];
      assert FreshAt(c, b, n);
      assert Last(joined) == b[n - 1];
      ExtendFresh(c, joined, b[n]);
      ExtendChain(joined, b[n]);
    }
  }

  /** `count` cadence allowances. */
  function Allowances(count: nat, allowance: real): (r: real)
    ensures r == count as real * allowance
  {
    if count == 0 then 0.0
    else
      assert count as real == (count - 1) as real + 1.0;
      Allowances(count - 1, allowance) + allowance
  }

  /** Along a fresh chain heartbeats never fall, and each renewal adds at most one allowance. */
  lemma {:induction false} ChainSpan(c: Config, h: seq<Sample>, i: nat)
    requires FreshChain(c, h) && i < |h|
    ensures h[i].heartbeat <= Last(h).heartbeat
    ensures Last(h).heartbeat - h[0].heartbeat <= Allowances(Renewals(h), c.allowance)
  {
    if |h| > 1 {
      var n := |h| - 1;
      assert FreshAt(c, h, n);
      assert forall j :: 0 < j < n ==> (FreshAt(c, h[..n], j) <==> FreshAt(c, h, j));
      ChainSpan(c, h[..n], if i < n then i else 0);
    }
  }

  /** At every instant of the chain, up to one allowance past its end, some sampled heartbeat is recent. */
  lemma {:induction false} ChainCovers(c: Config, h: seq<Sample>, t: real) returns (i: nat)
    requires FreshChain(c, h) && h[0].heartbeat <= t <= Last(h).heartbeat + c.allowance
    ensures i < |h| && h[i].heartbeat <= t <= h[i].heartbeat + c.allowance
  {
    var n := |h| - 1;
    if t >= h[n].heartbeat {
      i := n;
    } else {
      assert FreshAt(c, h, n);
      assert forall j :: 0 < j < n ==> (FreshAt(c, h[..n], j) <==> FreshAt(c, h, j));
      i := ChainCovers(c, h[..n], t);
    }
  }

  /** A chain ended within one allowance is spanned by its renewals. */
  lemma ChainBound(c: Config, h: seq<Sample>, terminalAt: real)
    requires FreshChain(c, h) && terminalAt - Last(h).heartbeat <= c.allowance
    ensures terminalAt - h[0].heartbeat <= Allowances(Renewals(h) + 1, c.allowance)
  {
    ChainSpan(c, h, 0);
  }

  /** And covered at every instant up to its end. */
  lemma ChainCovered(c: Config, h: seq<Sample>, terminalAt: real)
    requires FreshChain(c, h) && terminalAt - Last(h).heartbeat <= c.allowance
    ensures forall t :: h[0].heartbeat <= t <= terminalAt ==> Covered(c, h, t)
  {
    forall t | h[0].heartbeat <= t <= terminalAt ensures Covered(c, h, t) {
      var k := ChainCovers(c, h, t);
    }
  }

  lemma JoinKeeps(a: seq<Sample>, b: seq<Sample>, s: Sample)
    requires a != [] && b != [] && b[0] == Last(a) && s in b
    ensures s in a + b[1..] && (a + b[1..])[0] == a[0] && Last(a + b[1..]) == Last(b)
  {
    var i :| 0 <= i < |b| && b[i] == s;
    assert (a + b[1..])[|a| - 1 + i] == b[i];
    assert (a + b[1..])[|a| - 1 + |b| - 1] == b[|b| - 1];
  }

  /**
   * The run as the smoke test composes it: phase 2 starts from the last row of phase 1. Acceptance bounds the
   * whole lifetime by the renewals counted, puts a live heartbeat past the original lease, and leaves no gap.
   */
  lemma AcceptanceImpliesCoverage(c: Config, grace: real, first: Sample, early: seq<Sample>, polls: seq<Poll>)
    returns (h: seq<Sample>, terminalAt: real)
    requires Fresh(c, first.heartbeat, first) && Observe(c, [first], early).Some?
    requires var start := Last(Observe(c, [first], early).value);
      WatchAll(c, first.expiry + grace, Watch([start], None, []), polls).Some?
    ensures var start := Last(Observe(c, [first], early).value);
      var (w, p) := WatchAll(c, first.expiry + grace, Watch([start], None, []), polls).value;
      && FreshChain(c, h) && h[0] == first && Last(h) == Last(w.h)
      && p.sample.terminalAt == Some(terminalAt)
      && Renewals(h) == 2 + Renewals(w.h)
      && terminalAt - first.heartbeat <= Allowances(Renewals(h) + 1, c.allowance)
      && w.boundary.Some? && w.boundary.value in h
      && w.boundary.value.heartbeat >= first.expiry + grace - c.allowance
      && (forall t :: first.heartbeat <= t <= terminalAt ==> Covered(c, h, t))
  {
    var a := PhaseOneChain(c, first, early);
    var begin := Watch([Last(a)], None, []);
    WatchedChain(c, first.expiry + grace, begin, polls);
    var (w, p) := WatchAll(c, first.expiry + grace, begin, polls).value;
    h, terminalAt := a + w.h[1..], p.sample.terminalAt.value;
    JoinChains(c, a, w.h);
    JoinKeeps(a, w.h, w.boundary.value);
    BoundaryIsLive(c, w.h, w.boundary.value);
    ChainBound(c, h, terminalAt);
    ChainCovered(c, h, terminalAt);
  }

  lemma PhaseOneChain(c: Config, first: Sample, early: seq<Sample>) returns (a: seq<Sample>)
    requires Fresh(c, first.heartbeat, first) && Observe(c, [first], early).Some?
    ensures a == Observe(c, [first], early).value && FreshChain(c, a) && a[0] == first && Renewals(a) == 2
    ensures FreshChain(c, [Last(a)])
  {
    ObservedChain(c, [first], early);
    a := Observe(c, [first], early).value;
    StartIsFresh(c, a);
  }

  ghost predicate Covered(c: Config, h: seq<Sample>, t: real) {
    exists i :: 0 <= i < |h| && h[i].heartbeat <= t <= h[i].heartbeat + c.allowance
  }

  lemma StartIsFresh(c: Config, a: seq<Sample>)
    requires FreshChain(c, a)
    ensures Fresh(c, Last(a).heartbeat, Last(a))
  {
    if |a| > 1 {
      assert FreshAt(c, a, |a| - 1);
    }
  }

  lemma BoundaryIsLive(c: Config, h: seq<Sample>, s: Sample)
    requires FreshChain(c, h) && s in h
    ensures s.heartbeat >= s.observedAt - c.allowance
  {
    var i :| 0 <= i < |h| && h[i] == s;
    if i > 0 {
      assert FreshAt(c, h, i);
    }
  }
}
