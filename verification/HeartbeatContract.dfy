/** The two phases written out row by row, and that the monitor accepts exactly what they describe. */
module HeartbeatContract {
  import opened Wrappers
  import opened HeartbeatMonitor

  // ---- One row ----

  /** Within a quarter of a second, or a quarter of the heartbeat period if that is more. */
  predicate Within(c: Config, seconds: real) {
    seconds <= 0.25 || seconds <= c.heartbeat / 4.0
  }

  /** The lease was live, its window the one asked for, and the heartbeat recent and not from the future. */
  predicate Timely(c: Config, s: Sample) {
    && s.expiry > s.observedAt
    && Within(c, s.expiry - s.heartbeat - c.lease) && Within(c, c.lease - (s.expiry - s.heartbeat))
    && s.observedAt - s.heartbeat <= c.allowance && Within(c, s.heartbeat - s.observedAt)
  }

  /** The heartbeat stood still, or was renewed within the allowance. */
  predicate Follows(c: Config, before: Sample, s: Sample) {
    s.heartbeat == before.heartbeat || before.heartbeat < s.heartbeat <= before.heartbeat + c.allowance
  }

  lemma FreshMeaning(c: Config, before: Sample, s: Sample)
    ensures Fresh(c, before.heartbeat, s) <==> Timely(c, s) && Follows(c, before, s)
  {
  }

  // ---- Phase one ----

  /** Row `i` of the first row and the polls after it. */
  function RowAt(first: Sample, polls: seq<Sample>, i: nat): Sample
    requires i <= |polls|
  {
    if i == 0 then first else polls[i - 1]
  }

  predicate RenewedAt(first: Sample, polls: seq<Sample>, i: nat)
    requires 0 < i <= |polls|
  {
    RowAt(first, polls, i).heartbeat > RowAt(first, polls, i - 1).heartbeat
  }

  /** Row `i` runs, is timely, follows the row before, and a renewal on it moves the expiry past the original. */
  predicate RowOk(c: Config, first: Sample, polls: seq<Sample>, i: nat)
    requires i <= |polls|
  {
    var s := RowAt(first, polls, i);
    && s.status == Running && Timely(c, s)
    && (i > 0 ==> Follows(c, RowAt(first, polls, i - 1), s))
    && (i > 0 && RenewedAt(first, polls, i) ==> s.expiry > first.expiry)
  }

  /** Rows `a` and `b` are the first two renewals, and every row up to them is as it should be. */
  ghost predicate TwoRenewals(c: Config, first: Sample, polls: seq<Sample>, a: nat, b: nat) {
    && 0 < a < b <= |polls|
    && (forall i :: 0 <= i <= b ==> RowOk(c, first, polls, i))
    && (forall i :: 0 < i <= b ==> (RenewedAt(first, polls, i) <==> i == a || i == b))
  }

  /** The first row and the first `k` polls. */
  function Rows(first: Sample, polls: seq<Sample>, k: nat): (h: seq<Sample>)
    requires k <= |polls|
    ensures |h| == k + 1 && forall i :: 0 <= i <= k ==> h[i] == RowAt(first, polls, i)
  {
    [first] + polls[..k]
  }

  lemma RowsNext(first: Sample, polls: seq<Sample>, k: nat)
    requires k < |polls|
    ensures Rows(first, polls, k + 1) == Rows(first, polls, k) + [polls[k]]
    ensures Renewals(Rows(first, polls, k + 1))
         == Renewals(Rows(first, polls, k)) + if RenewedAt(first, polls, k + 1) then 1 else 0
  {
    ExtendChain(Rows(first, polls, k), polls[k]);
  }

  lemma {:induction false} NoneRenewed(first: Sample, polls: seq<Sample>, k: nat)
    requires k <= |polls|
    ensures Renewals(Rows(first, polls, k)) == 0 <==> forall i :: 0 < i <= k ==> !RenewedAt(first, polls, i)
  {
    if k > 0 {
      RowsNext(first, polls, k - 1);
      NoneRenewed(first, polls, k - 1);
    }
  }

  ghost predicate OnlyRenewal(first: Sample, polls: seq<Sample>, a: nat, k: nat)
    requires k <= |polls|
  {
    0 < a <= k && forall i :: 0 < i <= k ==> (RenewedAt(first, polls, i) <==> i == a)
  }

  lemma {:induction false} OneRenewed(first: Sample, polls: seq<Sample>, k: nat)
    requires k <= |polls|
    ensures Renewals(Rows(first, polls, k)) == 1 <==> exists a: nat :: OnlyRenewal(first, polls, a, k)
  {
    if k > 0 {
      RowsNext(first, polls, k - 1);
      NoneRenewed(first, polls, k - 1);
      OneRenewed(first, polls, k - 1);
      if Renewals(Rows(first, polls, k)) == 1 {
        if RenewedAt(first, polls, k) {
          assert OnlyRenewal(first, polls, k, k);
        } else {
          var a: nat :| OnlyRenewal(first, polls, a, k - 1);
          assert OnlyRenewal(first, polls, a, k);
        }
      }
      forall a: nat | OnlyRenewal(first, polls, a, k) ensures Renewals(Rows(first, polls, k)) == 1 {
        if a < k {
          assert OnlyRenewal(first, polls, a, k - 1);
        }
      }
    }
  }

  /** From row `k` on, observing walks row by row to the second renewal. */
  ghost predicate WalksTo(c: Config, first: Sample, polls: seq<Sample>, k: nat, b: nat) {
    && k <= b <= |polls|
    && (forall i :: k < i <= b ==> WalksAt(c, first, polls, i))
    && (forall i :: k <= i < b ==> Renewals(Rows(first, polls, i)) < 2)
    && Renewals(Rows(first, polls, b)) >= 2
  }

  predicate WalksAt(c: Config, first: Sample, polls: seq<Sample>, i: nat)
    requires 0 < i <= |polls|
  {
    var s := RowAt(first, polls, i);
    s.status == Running && Timely(c, s) && Follows(c, RowAt(first, polls, i - 1), s)
  }

  lemma WalkStep(c: Config, first: Sample, polls: seq<Sample>, k: nat)
    requires k < |polls| && Renewals(Rows(first, polls, k)) < 2
    ensures Observe(c, Rows(first, polls, k), polls[k..])
         == if WalksAt(c, first, polls, k + 1) then Observe(c, Rows(first, polls, k + 1), polls[k + 1..]) else None
  {
    RowsNext(first, polls, k);
    FreshMeaning(c, RowAt(first, polls, k), polls[k]);
    assert polls[k..][0] == polls[k] && polls[k..][1..] == polls[k + 1..];
  }

  lemma WalkExtends(c: Config, first: Sample, polls: seq<Sample>, k: nat, b: nat)
    requires k < |polls| && Renewals(Rows(first, polls, k)) < 2
    ensures WalksTo(c, first, polls, k, b) <==> WalksAt(c, first, polls, k + 1) && WalksTo(c, first, polls, k + 1, b)
  {
  }

  lemma {:induction false} ObserveWalks(c: Config, first: Sample, polls: seq<Sample>, k: nat)
    requires k <= |polls|
    ensures var r := Observe(c, Rows(first, polls, k), polls[k..]);
      && (r.Some? ==> exists b: nat :: WalksTo(c, first, polls, k, b) && r.value == Rows(first, polls, b))
      && (forall b: nat :: WalksTo(c, first, polls, k, b) ==> r == Some(Rows(first, polls, b)))
    decreases |polls| - k
  {
    if Renewals(Rows(first, polls, k)) >= 2 {
      assert WalksTo(c, first, polls, k, k);
    } else if k < |polls| {
      WalkStep(c, first, polls, k);
      ObserveWalks(c, first, polls, k + 1);
      forall b: nat
        ensures WalksTo(c, first, polls, k, b)
           <==> WalksAt(c, first, polls, k + 1) && WalksTo(c, first, polls, k + 1, b)
      {
        WalkExtends(c, first, polls, k, b);
      }
    }
  }

  lemma WalkIsTwoRenewals(c: Config, first: Sample, polls: seq<Sample>, b: nat) returns (a: nat)
    requires WalksTo(c, first, polls, 0, b) && first.status == Running && Timely(c, first)
    requires RenewalsAdvance(Rows(first, polls, b))
    ensures TwoRenewals(c, first, polls, a, b)
  {
    NoneRenewed(first, polls, 0);
    RowsNext(first, polls, b - 1);
    OneRenewed(first, polls, b - 1);
    a :| OnlyRenewal(first, polls, a, b - 1);
    forall i | 0 <= i <= b ensures RowOk(c, first, polls, i) {
      if i > 0 {
        assert WalksAt(c, first, polls, i) && AdvanceAt(Rows(first, polls, b), i);
      }
    }
  }

  lemma TwoRenewalsWalk(c: Config, first: Sample, polls: seq<Sample>, a: nat, b: nat)
    requires TwoRenewals(c, first, polls, a, b)
    ensures WalksTo(c, first, polls, 0, b) && RenewalsAdvance(Rows(first, polls, b))
  {
    forall i | 0 <= i < b ensures Renewals(Rows(first, polls, i)) < 2 {
      if i < a {
        NoneRenewed(first, polls, i);
      } else {
        OneRenewed(first, polls, i);
        assert OnlyRenewal(first, polls, a, i);
      }
    }
    RowsNext(first, polls, b - 1);
    OneRenewed(first, polls, b - 1);
    assert OnlyRenewal(first, polls, a, b - 1);
    forall i | 0 < i <= b ensures WalksAt(c, first, polls, i) && AdvanceAt(Rows(first, polls, b), i) {
      assert RowOk(c, first, polls, i);
    }
  }

  /** Phase one accepts exactly when two renewals come in order and every row up to the second is as it should be; it
    * reports the first heartbeat, the original expiry and the row of the second renewal. */
  lemma PhaseOneExact(c: Config, first: Sample, polls: seq<Sample>, r: Renewal)
    ensures Observed(c, first, polls) == Some(r) <==>
      exists a: nat, b: nat :: TwoRenewals(c, first, polls, a, b)
        && r == Renewal(2, first.heartbeat, first.expiry, RowAt(first, polls, b))
  {
    assert polls[0..] == polls && Rows(first, polls, 0) == [first];
    ObserveWalks(c, first, polls, 0);
    FreshMeaning(c, first, first);
    if Observed(c, first, polls) == Some(r) {
      var b: nat :| WalksTo(c, first, polls, 0, b) && Observe(c, [first], polls).value == Rows(first, polls, b);
      var a := WalkIsTwoRenewals(c, first, polls, b);
    }
    forall a: nat, b: nat | TwoRenewals(c, first, polls, a, b)
      ensures Observed(c, first, polls) == Some(Renewal(2, first.heartbeat, first.expiry, RowAt(first, polls, b)))
    {
      TwoRenewalsWalk(c, first, polls, a, b);
      assert RowOk(c, first, polls, 0);
    }
  }

  // ---- Phase two ----

  /** The last running row before poll `i`. */
  function LastRunning(start: Sample, polls: seq<Poll>, i: nat): Sample
    requires i <= |polls|
  {
    if i == 0 then start
    else if polls[i - 1].sample.status == Running then polls[i - 1].sample
    else LastRunning(start, polls, i - 1)
  }

  predicate RunsPast(target: real, p: Poll) {
    p.sample.status == Running && p.sample.observedAt >= target
  }

  /** Poll `j` is the first running row past the target. */
  predicate IsBoundary(target: real, polls: seq<Poll>, j: nat) {
    j < |polls| && RunsPast(target, polls[j]) && forall i :: 0 <= i < j ==> !RunsPast(target, polls[i])
  }

  predicate RunningOk(c: Config, target: real, start: Sample, polls: seq<Poll>, i: nat)
    requires i < |polls|
  {
    var p := polls[i];
    && p.sample.status == Running && Timely(c, p.sample) && Follows(c, LastRunning(start, polls, i), p.sample)
    && (IsBoundary(target, polls, i) ==>
          p.apiStatus == Running && !c.mentionsLease(p.stage) && p.sample.heartbeat > start.heartbeat)
  }

  predicate EndedOk(c: Config, target: real, start: Sample, polls: seq<Poll>, i: nat)
    requires i < |polls|
  {
    var s := polls[i].sample;
    && (s.status == Succeeded || s.status == Failed || s.status == Cancelled)
    && s.terminalAt.Some?
    && LastRunning(start, polls, i).heartbeat <= s.terminalAt.value
    && s.terminalAt.value <= LastRunning(start, polls, i).heartbeat + c.allowance
    && exists j :: 0 <= j < i && RunsPast(target, polls[j])
  }

  predicate PollOk(c: Config, target: real, start: Sample, polls: seq<Poll>, i: nat)
    requires i < |polls|
  {
    RunningOk(c, target, start, polls, i) || EndedOk(c, target, start, polls, i)
  }

  predicate BothEnded(p: Poll) {
    (p.sample.status == Succeeded || p.sample.status == Failed || p.sample.status == Cancelled)
    && (p.apiStatus == Succeeded || p.apiStatus == Failed || p.apiStatus == Cancelled)
  }

  /** Poll `n` is the first on which database and API have both ended, they agree, and every poll up to it is as it
    * should be. */
  ghost predicate Completes(c: Config, target: real, start: Sample, polls: seq<Poll>, n: nat) {
    && n < |polls| && BothEnded(polls[n]) && polls[n].apiStatus == polls[n].sample.status
    && (forall i :: 0 <= i < n ==> !BothEnded(polls[i]))
    && (forall i :: 0 <= i <= n ==> PollOk(c, target, start, polls, i))
  }

  function RunningRows(start: Sample, polls: seq<Poll>, k: nat): (h: seq<Sample>)
    requires k <= |polls|
    ensures h != [] && h[0] == start && Last(h) == LastRunning(start, polls, k)
  {
    if k == 0 then [start]
    else
      RunningRows(start, polls, k - 1) + if polls[k - 1].sample.status == Running then [polls[k - 1].sample] else []
  }

  function BoundaryRow(target: real, polls: seq<Poll>, k: nat): (b: Option<Sample>)
    requires k <= |polls|
    ensures b.Some? <==> exists j :: 0 <= j < k && RunsPast(target, polls[j])
    ensures b.Some? ==> exists j :: 0 <= j < k && IsBoundary(target, polls, j) && b == Some(polls[j].sample)
  {
    if k == 0 then None
    else
      var before := BoundaryRow(target, polls, k - 1);
      if before.Some? then before
      else if RunsPast(target, polls[k - 1]) then
        assert IsBoundary(target, polls, k - 1);
        Some(polls[k - 1].sample)
      else None
  }

  /** The stages of the first `k` polls, a stage that repeats the one before left out. */
  function StagesSeen(polls: seq<Poll>, k: nat): (r: seq<string>)
    requires k <= |polls|
    ensures r == [] <==> k == 0
    ensures k > 0 ==> r[|r| - 1] == polls[k - 1].stage
    ensures forall j :: 0 <= j < |r| - 1 ==> r[j] != r[j + 1]
  {
    if k == 0 then []
    else
      var before := StagesSeen(polls, k - 1);
      if k > 1 && polls[k - 2].stage == polls[k - 1].stage then before else before + [polls[k - 1].stage]
  }

  /** Where the watch stands after `k` polls that were all right. */
  function After(target: real, start: Sample, polls: seq<Poll>, k: nat): Watch
    requires k <= |polls|
  {
    Watch(RunningRows(start, polls, k), BoundaryRow(target, polls, k), StagesSeen(polls, k))
  }

  lemma PollExact(c: Config, target: real, start: Sample, polls: seq<Poll>, k: nat)
    requires k < |polls|
    ensures WatchPoll(c, target, After(target, start, polls, k), polls[k])
         == if PollOk(c, target, start, polls, k) then Some(After(target, start, polls, k + 1)) else None
  {
    FreshMeaning(c, LastRunning(start, polls, k), polls[k].sample);
    assert RunningRows(start, polls, k) + [] == RunningRows(start, polls, k);
    assert RunsPast(target, polls[k]) ==>
      (IsBoundary(target, polls, k) <==> BoundaryRow(target, polls, k).None?);
  }

  /** The same from poll `k` on. */
  ghost predicate CompletesFrom(c: Config, target: real, start: Sample, polls: seq<Poll>, k: nat, n: nat) {
    && k <= n < |polls| && BothEnded(polls[n]) && polls[n].apiStatus == polls[n].sample.status
    && (forall i :: k <= i < n ==> !BothEnded(polls[i]))
    && (forall i :: k <= i <= n ==> PollOk(c, target, start, polls, i))
  }

  lemma {:induction false} WatchExact(c: Config, target: real, start: Sample, polls: seq<Poll>, k: nat)
    requires k <= |polls|
    ensures var r := WatchAll(c, target, After(target, start, polls, k), polls[k..]);
      && (r.Some? ==> exists n: nat ::
            CompletesFrom(c, target, start, polls, k, n) && r.value == (After(target, start, polls, n + 1), polls[n]))
      && (forall n: nat :: CompletesFrom(c, target, start, polls, k, n) ==>
            r == Some((After(target, start, polls, n + 1), polls[n])))
    decreases |polls| - k
  {
    if k < |polls| {
      PollExact(c, target, start, polls, k);
      assert polls[k..][0] == polls[k] && polls[k..][1..] == polls[k + 1..];
      WatchExact(c, target, start, polls, k + 1);
      forall n: nat | CompletesFrom(c, target, start, polls, k + 1, n)
        && PollOk(c, target, start, polls, k) && !BothEnded(polls[k])
        ensures CompletesFrom(c, target, start, polls, k, n)
      {
      }
      forall n: nat | CompletesFrom(c, target, start, polls, k, n) && n > k
        ensures CompletesFrom(c, target, start, polls, k + 1, n)
      {
      }
      if PollOk(c, target, start, polls, k) && BothEnded(polls[k]) && polls[k].apiStatus == polls[k].sample.status {
        assert CompletesFrom(c, target, start, polls, k, k);
      }
    }
  }

  /** Phase two accepts exactly when some poll completes the run, and then the watch holds the running rows, the first
    * row past the target and the stages seen. */
  lemma PhaseTwoExact(c: Config, target: real, start: Sample, polls: seq<Poll>)
    ensures var r := WatchAll(c, target, Watch([start], None, []), polls);
      && (r.Some? <==> exists n: nat :: Completes(c, target, start, polls, n))
      && (forall n: nat :: Completes(c, target, start, polls, n) ==>
            r == Some((After(target, start, polls, n + 1), polls[n])))
  {
    assert polls[0..] == polls && After(target, start, polls, 0) == Watch([start], None, []);
    WatchExact(c, target, start, polls, 0);
    forall n: nat ensures Completes(c, target, start, polls, n) <==> CompletesFrom(c, target, start, polls, 0, n) {
    }
  }

  // ---- The reported figures ----

  /** The largest age is no row's less, and some row's or zero. */
  lemma {:induction false} MaxAgeExact(h: seq<Sample>)
    ensures MaxAge(h) >= 0.0 && forall s :: s in h ==> s.observedAt - s.heartbeat <= MaxAge(h)
    ensures MaxAge(h) == 0.0 || exists s :: s in h && s.observedAt - s.heartbeat == MaxAge(h)
  {
    if h != [] {
      var n := |h| - 1;
      assert h == h[..n] + [h[n]];
      MaxAgeExact(h[..n]);
    }
  }

  predicate GapAt(h: seq<Sample>, i: nat, gap: real)
    requires 0 < i < |h|
  {
    h[i].heartbeat - h[i - 1].heartbeat == gap
  }

  lemma {:induction false} MaxGapExact(h: seq<Sample>)
    ensures MaxGap(h) >= 0.0 && forall i :: 0 < i < |h| ==> h[i].heartbeat - h[i - 1].heartbeat <= MaxGap(h)
    ensures MaxGap(h) == 0.0 || exists i :: 0 < i < |h| && GapAt(h, i, MaxGap(h))
  {
    if |h| > 1 {
      var n := |h| - 1;
      MaxGapExact(h[..n]);
      if MaxGap(h) == MaxGap(h[..n]) && MaxGap(h) != 0.0 {
        var i :| 0 < i < n && GapAt(h[..n], i, MaxGap(h));
        assert GapAt(h, i, MaxGap(h));
      } else if MaxGap(h) != 0.0 {
        assert GapAt(h, n, MaxGap(h));
      }
    }
  }

  /** The expiry reported is that of the row that brought the last heartbeat. */
  lemma {:induction false} RenewedExpiryExact(h: seq<Sample>) returns (i: nat)
    requires h != [] && forall j :: 0 < j < |h| ==> h[j - 1].heartbeat <= h[j].heartbeat
    ensures i < |h| && RenewedExpiry(h) == h[i].expiry
    ensures forall j :: i <= j < |h| ==> h[j].heartbeat == Last(h).heartbeat
    ensures i > 0 ==> h[i - 1].heartbeat < h[i].heartbeat
  {
    var n := |h| - 1;
    if n == 0 || h[n].heartbeat > h[n - 1].heartbeat {
      i := n;
    } else {
      i := RenewedExpiryExact(h[..n]);
    }
  }

  /** The lease was live when the row was read, and its window that asked for, give or take the larger of a quarter of a
    * second and a quarter of the heartbeat period. */
  predicate InLease(c: Config, s: Sample) {
    var off := s.expiry - s.heartbeat - c.lease;
    && s.expiry > s.observedAt
    && -(if c.heartbeat > 1.0 then c.heartbeat / 4.0 else 0.25) <= off
    && off <= (if c.heartbeat > 1.0 then c.heartbeat / 4.0 else 0.25)
  }

  /** Every running row of two accepted phases was in its lease. */
  lemma AcceptedRowsInLease(c: Config, target: real, first: Sample, early: seq<Sample>, start: Sample,
                            polls: seq<Poll>, n: nat)
    requires Observed(c, first, early).Some? && Completes(c, target, start, polls, n)
    ensures exists b: nat ::
      && b <= |early| && RowAt(first, early, b) == Observed(c, first, early).value.last
      && forall i :: 0 <= i <= b ==> InLease(c, RowAt(first, early, i))
    ensures forall i :: 0 <= i <= n && polls[i].sample.status == Running ==> InLease(c, polls[i].sample)
  {
    var r := Observed(c, first, early).value;
    PhaseOneExact(c, first, early, r);
    var a: nat, b: nat :| TwoRenewals(c, first, early, a, b) && r.last == RowAt(first, early, b);
    forall i | 0 <= i <= b ensures InLease(c, RowAt(first, early, i)) {
      assert RowOk(c, first, early, i);
    }
    forall i | 0 <= i <= n && polls[i].sample.status == Running ensures InLease(c, polls[i].sample) {
      assert PollOk(c, target, start, polls, i);
    }
  }
}
