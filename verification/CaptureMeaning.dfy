/** What a capture does, event by event, in terms of its events and limits alone. */
module CaptureMeaning {
  import opened Wrappers
  import opened CaptureLoop

  // ---- Timers and messages after a number of events ----

  /** The window asked for, or two days when none was. */
  predicate Over(c: Config, startTime: real, now: real) {
    if c.duration == 0.0 then now >= startTime + 172_800.0 else now >= startTime + c.duration
  }

  /** Progress is due every thirty seconds, counted from the last report. */
  function ProgressDue(startTime: real, events: seq<Event>, k: nat): real
    requires k <= |events|
  {
    if k == 0 then startTime + 30.0
    else if events[k - 1].now >= ProgressDue(startTime, events, k - 1) then events[k - 1].now + 30.0
    else ProgressDue(startTime, events, k - 1)
  }

  /** A ping is due after half the keep-alive, but not within a second of the last. */
  predicate PingDue(c: Config, startTime: real, events: seq<Event>, k: nat)
    requires k < |events|
  {
    var quiet := events[k].now - LastPing(c, startTime, events, k);
    quiet >= 1.0 && quiet >= c.keepAlive / 2.0
  }

  function LastPing(c: Config, startTime: real, events: seq<Event>, k: nat): real
    requires k <= |events|
    decreases k, 0
  {
    if k == 0 then startTime
    else
      var before := LastPing(c, startTime, events, k - 1);
      var quiet := events[k - 1].now - before;
      if quiet >= 1.0 && quiet >= c.keepAlive / 2.0 then events[k - 1].pingedAt else before
  }

  /** The messages the first `k` events brought, in order. */
  function Brought(events: seq<Event>, k: nat): seq<Message>
    requires k <= |events|
  {
    if k == 0 then []
    else Brought(events, k - 1) + if events[k - 1].read.Received? then [events[k - 1].read.message] else []
  }

  function PayloadSum(messages: seq<Message>): nat {
    if messages == [] then 0 else PayloadSum(messages[..|messages| - 1]) + |messages[|messages| - 1].payload|
  }

  /** Bytes of the evidence lines, newlines included. */
  function LineSum(c: Config, messages: seq<Message>): nat {
    if messages == [] then 0
    else LineSum(c, messages[..|messages| - 1]) + |c.encode(messages[|messages| - 1])| + 1
  }

  // ---- One event ----

  /** Why event `k` ends the loop, in the order the reasons are looked for; None if it does not. */
  predicate EndsWith(c: Config, startTime: real, events: seq<Event>, k: nat, end: Option<LoopEnd>)
    requires k < |events|
  {
    var e := events[k];
    if e.now >= ProgressDue(startTime, events, k) && c.reportsProgress && e.progress.Some? then
      end == Some(Threw(e.progress.value))
    else if PingDue(c, startTime, events, k) && e.ping.Some? then end == Some(Threw(e.ping.value))
    else if Over(c, startTime, e.now) then end == Some(DeadlinePassed)
    else if e.read.Throws? then end == Some(Threw(e.read.e))
    else if e.read.Nothing? then end.None?
    else if |e.read.message.payload| > c.maxPayload then end == Some(PayloadTooLarge)
    else if LineSum(c, Brought(events, k) + [e.read.message]) > c.maxTotal then end == Some(AggregateTooLarge)
    else end.None?
  }

  /** The loop takes the first `n` events and then ends as told. */
  ghost predicate LoopsTo(c: Config, startTime: real, events: seq<Event>, n: nat, end: LoopEnd) {
    && n <= |events|
    && (forall k :: 0 <= k < n ==> |Brought(events, k)| < c.maxMessages && EndsWith(c, startTime, events, k, None))
    && if |Brought(events, n)| >= c.maxMessages then end == CapReached
       else if n == |events| then end == Threw(Interrupt)
       else EndsWith(c, startTime, events, n, Some(end))
  }

  /** The loop's state after `k` events. */
  function StateAfter(c: Config, startTime: real, events: seq<Event>, k: nat): LoopState
    requires k <= |events|
  {
    var messages := Brought(events, k);
    LoopState(messages, PayloadSum(messages), LineSum(c, messages), LastPing(c, startTime, events, k),
              ProgressDue(startTime, events, k))
  }

  lemma SumsNext(c: Config, messages: seq<Message>, m: Message)
    ensures LineSum(c, messages + [m]) == LineSum(c, messages) + |c.encode(m)| + 1
    ensures PayloadSum(messages + [m]) == PayloadSum(messages) + |m.payload|
  {
    assert (messages + [m])[..|messages|] == messages;
  }

  lemma TimersExact(c: Config, startTime: real, events: seq<Event>, k: nat)
    requires k < |events|
    ensures var st, e := StateAfter(c, startTime, events, k), events[k];
      && (e.now - st.lastPing >= PingInterval(c) <==> PingDue(c, startTime, events, k))
      && ProgressDue(startTime, events, k + 1)
         == (if e.now >= st.nextProgress then e.now + PROGRESS_SECONDS else st.nextProgress)
      && LastPing(c, startTime, events, k + 1)
         == (if PingDue(c, startTime, events, k) then e.pingedAt else st.lastPing)
    ensures Deadline(c, startTime) - events[k].now <= 0.0 <==> Over(c, startTime, events[k].now)
  {
  }

  lemma BroughtNext(events: seq<Event>, k: nat)
    requires k < |events|
    ensures Brought(events, k + 1)
         == if events[k].read.Received? then Brought(events, k) + [events[k].read.message] else Brought(events, k)
  {
  }

  /** What accepting a message amounts to. */
  lemma AcceptExact(c: Config, st: LoopState, messages: seq<Message>, m: Message)
    requires st.accepted == messages && st.payloadBytes == PayloadSum(messages)
    requires st.evidenceBytes == LineSum(c, messages)
    ensures Accept(c, st, m) ==
      if |m.payload| > c.maxPayload then Stop(PayloadTooLarge)
      else if LineSum(c, messages + [m]) > c.maxTotal then Stop(AggregateTooLarge)
      else Continue(LoopState(messages + [m], PayloadSum(messages + [m]), LineSum(c, messages + [m]), st.lastPing,
                              st.nextProgress))
  {
    SumsNext(c, messages, m);
  }

  lemma EventExact(c: Config, startTime: real, events: seq<Event>, k: nat)
    requires k < |events|
    ensures var step := Iterate(c, Deadline(c, startTime), StateAfter(c, startTime, events, k), events[k]);
      && (step.Continue? ==> EndsWith(c, startTime, events, k, None))
      && (step.Continue? ==> step.state == StateAfter(c, startTime, events, k + 1))
      && (step.Stop? ==> EndsWith(c, startTime, events, k, Some(step.end)))
  {
    TimersExact(c, startTime, events, k);
    BroughtNext(events, k);
    var st, e := StateAfter(c, startTime, events, k), events[k];
    var timed := LoopState(st.accepted, st.payloadBytes, st.evidenceBytes, LastPing(c, startTime, events, k + 1),
                           ProgressDue(startTime, events, k + 1));
    if e.read.Received? {
      AcceptExact(c, timed, Brought(events, k), e.read.message);
    }
  }

  lemma EndsOneWay(c: Config, startTime: real, events: seq<Event>, k: nat, a: Option<LoopEnd>, b: Option<LoopEnd>)
    requires k < |events| && EndsWith(c, startTime, events, k, a) && EndsWith(c, startTime, events, k, b)
    ensures a == b
  {
  }

  /** From event `k` on. */
  ghost predicate LoopsFrom(c: Config, startTime: real, events: seq<Event>, k: nat, n: nat, end: LoopEnd) {
    && k <= n <= |events|
    && (forall i :: k <= i < n ==> |Brought(events, i)| < c.maxMessages && EndsWith(c, startTime, events, i, None))
    && if |Brought(events, n)| >= c.maxMessages then end == CapReached
       else if n == |events| then end == Threw(Interrupt)
       else EndsWith(c, startTime, events, n, Some(end))
  }

  lemma LoopStep(c: Config, startTime: real, events: seq<Event>, k: nat)
    requires k < |events| && |Brought(events, k)| < c.maxMessages
    ensures var st := StateAfter(c, startTime, events, k);
      var step := Iterate(c, Deadline(c, startTime), st, events[k]);
      RunLoop(c, Deadline(c, startTime), st, events[k..]) ==
        if step.Stop? then (st, step.end) else RunLoop(c, Deadline(c, startTime), step.state, events[k + 1..])
  {
    assert events[k..][0] == events[k] && events[k..][1..] == events[k + 1..];
  }

  lemma LoopsEarlier(c: Config, startTime: real, events: seq<Event>, k: nat, n: nat, end: LoopEnd)
    requires k < |events| && |Brought(events, k)| < c.maxMessages && EndsWith(c, startTime, events, k, None)
    requires LoopsFrom(c, startTime, events, k + 1, n, end)
    ensures LoopsFrom(c, startTime, events, k, n, end)
  {
  }

  /** The loop from event `k` on, in the state that the events before it leave. */
  function LoopAt(c: Config, startTime: real, events: seq<Event>, k: nat): (LoopState, LoopEnd)
    requires k <= |events|
  {
    RunLoop(c, Deadline(c, startTime), StateAfter(c, startTime, events, k), events[k..])
  }

  lemma LoopNext(c: Config, startTime: real, events: seq<Event>, k: nat)
    requires k < |events| && |Brought(events, k)| < c.maxMessages
    ensures EndsWith(c, startTime, events, k, None) ==>
      LoopAt(c, startTime, events, k) == LoopAt(c, startTime, events, k + 1)
    ensures !EndsWith(c, startTime, events, k, None) ==>
      && LoopAt(c, startTime, events, k).0 == StateAfter(c, startTime, events, k)
      && EndsWith(c, startTime, events, k, Some(LoopAt(c, startTime, events, k).1))
  {
    EventExact(c, startTime, events, k);
    LoopStep(c, startTime, events, k);
    var step := Iterate(c, Deadline(c, startTime), StateAfter(c, startTime, events, k), events[k]);
    if step.Stop? && EndsWith(c, startTime, events, k, None) {
      EndsOneWay(c, startTime, events, k, None, Some(step.end));
    }
  }

  lemma LoopOver(c: Config, startTime: real, events: seq<Event>, k: nat)
    requires k <= |events| && (|Brought(events, k)| >= c.maxMessages || k == |events|)
    ensures LoopsFrom(c, startTime, events, k, k, LoopAt(c, startTime, events, k).1)
    ensures LoopAt(c, startTime, events, k).0 == StateAfter(c, startTime, events, k)
  {
  }

  lemma {:induction false} LoopExact(c: Config, startTime: real, events: seq<Event>, k: nat) returns (n: nat)
    requires k <= |events|
    ensures LoopsFrom(c, startTime, events, k, n, LoopAt(c, startTime, events, k).1)
    ensures LoopAt(c, startTime, events, k).0 == StateAfter(c, startTime, events, n)
    decreases |events| - k
  {
    n := k;
    if |Brought(events, k)| >= c.maxMessages || k == |events| {
      LoopOver(c, startTime, events, k);
    } else {
      LoopNext(c, startTime, events, k);
      if EndsWith(c, startTime, events, k, None) {
        n := LoopExact(c, startTime, events, k + 1);
        LoopsEarlier(c, startTime, events, k, n, LoopAt(c, startTime, events, k + 1).1);
      }
    }
  }

  /** There is one way for a loop to go. */
  lemma LoopsOneWay(c: Config, startTime: real, events: seq<Event>, m: nat, a: LoopEnd, n: nat, b: LoopEnd)
    requires LoopsTo(c, startTime, events, m, a) && LoopsTo(c, startTime, events, n, b)
    ensures m == n && a == b
  {
    if m < n {
      EndsOneWay(c, startTime, events, m, None, Some(a));
    } else if n < m {
      EndsOneWay(c, startTime, events, n, None, Some(b));
    } else if |Brought(events, n)| < c.maxMessages && n < |events| {
      EndsOneWay(c, startTime, events, n, Some(a), Some(b));
    }
  }

  /** The receive loop of a capture takes events until the first that ends it, and holds the messages of those
    * before. */
  lemma CaptureExact(c: Config, startTime: real, events: seq<Event>) returns (n: nat)
    ensures var (st, end) := RunLoop(c, Deadline(c, startTime), Initial(startTime), events);
      LoopsTo(c, startTime, events, n, end) && st == StateAfter(c, startTime, events, n)
  {
    assert events[0..] == events && StateAfter(c, startTime, events, 0) == Initial(startTime);
    n := LoopExact(c, startTime, events, 0);
  }

  /** A loop ends for its window exactly when it comes to an event past it before anything else ends it. */
  lemma WindowExact(c: Config, startTime: real, events: seq<Event>) returns (n: nat)
    ensures var (st, end) := RunLoop(c, Deadline(c, startTime), Initial(startTime), events);
      && n <= |events| && st.accepted == Brought(events, n)
      && (forall k :: 0 <= k < n ==> !Over(c, startTime, events[k].now))
      && (end.DeadlinePassed? ==> n < |events| && Over(c, startTime, events[n].now))
  {
    n := CaptureExact(c, startTime, events);
    forall k | 0 <= k < n ensures !Over(c, startTime, events[k].now) {
      assert EndsWith(c, startTime, events, k, None);
    }
  }

  // ---- How an ending is recorded ----

  /** What the body threw, by itself. */
  predicate BodyThrew(b: Body, thrown: Option<Exc>) {
    match b
    case NotEntered(e) => thrown == Some(e)
    case NotSubscribed(e) => thrown == Some(e)
    case NotStarted(e) => thrown == Some(e)
    case WriterBroke => thrown == Some(OtherError)
    case Looped(CapReached) => thrown.None?
    case Looped(DeadlinePassed) => thrown.None?
    case Looped(PayloadTooLarge) => thrown == Some(ResourceLimit)
    case Looped(AggregateTooLarge) => thrown == Some(ResourceLimit)
    case Looped(Threw(e)) => thrown == Some(e)
  }

  /** The reason by the exception that comes out, or else by how the loop ended. */
  predicate RecordedAs(c: Config, b: Body, thrown: Option<Exc>, reason: Reason) {
    if thrown == Some(Interrupt) then reason == Cancelled
    else if thrown == Some(OtherError) then reason == BrokerInterruption
    else match b
      case Looped(CapReached) => reason == MessageCap
      case Looped(DeadlinePassed) => reason == if c.duration == 0.0 then BackstopElapsed else WindowElapsed
      case Looped(PayloadTooLarge) => reason == PayloadSizeCap
      case Looped(AggregateTooLarge) => reason == AggregateBytesCap
      case _ => reason == UnknownError
  }

  /** An entered client that fails to close throws that instead; only a bounded window that ran out is complete. */
  lemma EndingExact(c: Config, b: Body, close: Option<Exc>)
    ensures var ending := Settle(c, b, close);
      && (if b.NotEntered? || close.None? then BodyThrew(b, ending.thrown) else ending.thrown == close)
      && RecordedAs(c, b, ending.thrown, ending.reason)
      && (ending.completed <==> b == Looped(DeadlinePassed) && c.duration != 0.0)
  {
  }

  ghost predicate HoldsFrom(t: seq<Record>, at: nat, messages: seq<Message>) {
    at + |messages| <= |t| && forall i :: 0 <= i < |messages| ==> t[at + i] == Captured(messages[i])
  }

  /** Without a manifest a capture writes its messages and nothing else. */
  lemma PlainTranscript(c: Config, b: Body, st: LoopState, ending: Ending)
    requires !c.manifest
    ensures |Transcript(c, b, st, ending)| == |st.accepted| && HoldsFrom(Transcript(c, b, st, ending), 0, st.accepted)
  {
    assert Transcript(c, b, st, ending) == Lines(st.accepted);
  }

  lemma LinesBetween(head: seq<Record>, messages: seq<Message>, tail: seq<Record>)
    ensures var t := head + Lines(messages) + tail;
      && |t| == |head| + |messages| + |tail| && HoldsFrom(t, |head|, messages)
      && (forall i :: 0 <= i < |head| ==> t[i] == head[i])
      && forall i :: 0 <= i < |tail| ==> t[|head| + |messages| + i] == tail[i]
  {
  }

  lemma UnstartedTranscript(c: Config, b: Body, st: LoopState, ending: Ending)
    requires c.manifest && (b.NotEntered? || b.NotSubscribed?)
    ensures var t, n := Transcript(c, b, st, ending), |st.accepted|;
      && |t| == n + 1 && HoldsFrom(t, 0, st.accepted)
      && t[n] == Terminal(false, ending.completed, ending.reason, n, st.payloadBytes, st.evidenceBytes)
  {
    var closing := Terminal(false, ending.completed, ending.reason, |st.accepted|, st.payloadBytes, st.evidenceBytes);
    assert Transcript(c, b, st, ending) == [] + Lines(st.accepted) + [closing];
    LinesBetween([], st.accepted, [closing]);
  }

  lemma StartedTranscript(c: Config, b: Body, st: LoopState, ending: Ending)
    requires c.manifest && !b.NotEntered? && !b.NotSubscribed?
    ensures var t, n := Transcript(c, b, st, ending), |st.accepted|;
      && |t| == n + 3 && t[0] == WindowStarted && HoldsFrom(t, 1, st.accepted)
      && t[n + 1] == WindowEnded(ending.completed, ending.reason)
      && t[n + 2] == Terminal(true, ending.completed, ending.reason, n, st.payloadBytes, st.evidenceBytes)
  {
    var closing := Terminal(true, ending.completed, ending.reason, |st.accepted|, st.payloadBytes, st.evidenceBytes);
    var tail := [WindowEnded(ending.completed, ending.reason), closing];
    assert Transcript(c, b, st, ending) == [WindowStarted] + Lines(st.accepted) + tail;
    LinesBetween([WindowStarted], st.accepted, tail);
    assert tail[0] == WindowEnded(ending.completed, ending.reason) && tail[1] == closing;
  }

  /** With one, it starts its window once subscribed, and closes with the window's end and its own, in that order. */
  lemma MarkedTranscript(c: Config, b: Body, st: LoopState, ending: Ending)
    requires c.manifest
    ensures var t, n := Transcript(c, b, st, ending), |st.accepted|;
      if b.NotEntered? || b.NotSubscribed? then
        && |t| == n + 1 && HoldsFrom(t, 0, st.accepted)
        && t[n] == Terminal(false, ending.completed, ending.reason, n, st.payloadBytes, st.evidenceBytes)
      else
        && |t| == n + 3 && t[0] == WindowStarted && HoldsFrom(t, 1, st.accepted)
        && t[n + 1] == WindowEnded(ending.completed, ending.reason)
        && t[n + 2] == Terminal(true, ending.completed, ending.reason, n, st.payloadBytes, st.evidenceBytes)
  {
    if b.NotEntered? || b.NotSubscribed? {
      UnstartedTranscript(c, b, st, ending);
    } else {
      StartedTranscript(c, b, st, ending);
    }
  }

  /** When the writer failed after an ordinary ending, what is kept beside the evidence is the closing line the file
    * should have had, marked incomplete and as a write error; nothing is kept without a manifest. */
  lemma SidecarExact(c: Config, end: LoopEnd, st: LoopState, ending: Ending)
    ensures Sidecar(c, st).Some? <==> c.manifest
    ensures c.manifest ==>
      var t := Transcript(c, Looped(end), st, ending);
      && t != [] && t[|t| - 1].Terminal?
      && Sidecar(c, st) == Some(t[|t| - 1].(completed := false, reason := DiskWriteError))
  {
    if c.manifest {
      MarkedTranscript(c, Looped(end), st, ending);
    }
  }
}
