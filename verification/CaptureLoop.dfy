/** The evidence capture loop, its queue and its writer thread (capture_mqtt_evidence.py). */
module CaptureLoop {
  import opened Wrappers
  import opened Bytes

  datatype Message = Message(topic: string, qos: int, retained: bool, payload: bytes)

  datatype Reason =
    | UnknownError
    | WindowElapsed
    | BackstopElapsed
    | MessageCap
    | PayloadSizeCap
    | AggregateBytesCap
    | Cancelled
    | BrokerInterruption
    | DiskWriteError

  /** One line of the evidence file. */
  datatype Record =
    | Captured(message: Message)
    | WindowStarted
    | WindowEnded(completed: bool, reason: Reason)
    | Terminal(started: bool, completed: bool, reason: Reason, messageCount: nat, payloadBytes: nat, evidenceBytes: nat)

  /** Exceptions by what the handlers tell apart. */
  datatype Exc = Interrupt | ResourceLimit | OtherError

  datatype Read = Nothing | Received(message: Message) | Throws(e: Exc)

  /** One loop iteration as the outside world answers it. */
  datatype Event = Event(now: real, progress: Option<Exc>, ping: Option<Exc>, pingedAt: real, read: Read)

  /** `encode` is the JSON text of a captured record, without its newline. */
  datatype Config = Config(
    duration: real,
    keepAlive: real,
    maxMessages: int,
    maxPayload: int,
    maxTotal: int,
    manifest: bool,
    reportsProgress: bool,
    encode: Message -> bytes)
  {
    /** A duration of zero asks for a capture without end. */
    predicate Indefinite() {
      duration == 0.0
    }
  }

  /** The client and its broker: entering, subscribing, the started callback, the iterations, and closing. */
  datatype World = World(
    startTime: real,
    enter: Option<Exc>,
    subscribe: Option<Exc>,
    started: Option<Exc>,
    events: seq<Event>,
    close: Option<Exc>)

  const BACKSTOP_SECONDS := 172_800.0
  const PROGRESS_SECONDS := 30.0

  // ---- The queue and the thread that drains it ----

  function CountCaptured(lines: seq<Record>): nat {
    if lines == [] then 0 else CountCaptured(lines[..|lines| - 1]) + if lines[|lines| - 1].Captured? then 1 else 0
  }

  class Session {
    var queue: seq<Record>
    var file: seq<Record>
    var written: nat
    var failed: bool
    ghost var put: seq<Record>

    /** The file is the drained prefix of everything put, in order; only a failure loses the rest. */
    ghost predicate Valid()
      reads this
    {
      && file <= put && written == CountCaptured(file)
      && (!failed ==> file + queue == put)
    }

    constructor ()
      ensures Valid() && put == [] && !failed
    {
      queue, file, written, failed, put := [], [], 0, false, [];
    }

    method Put(record: Record)
      requires Valid()
      modifies this
      ensures Valid() && put == old(put) + [record] && failed == old(failed)
    {
      queue := queue + [record];
      put := put + [record];
    }

    /** The writer thread runs for a while: any number of lines, and it may hit a write error. */
    method WriterRuns()
      requires Valid()
      modifies this
      ensures Valid() && put == old(put) && (old(failed) ==> failed)
    {
      var lines: nat :| lines <= |queue|;
      Drain(lines);
    }

    /** `records.put(None)` and `writer.join()`: everything queued is written and the file closed, or the writer has
      * failed; the close itself can fail too. */
    method Join()
      requires Valid()
      modifies this
      ensures Valid() && put == old(put) && (old(failed) ==> failed)
      ensures !failed ==> file == put
    {
      Drain(|queue|);
      if * {
        failed := true;
      }
    }

    method Drain(lines: nat)
      requires Valid() && lines <= |queue|
      modifies this
      ensures Valid() && put == old(put) && (old(failed) ==> failed)
      ensures !failed ==> |queue| == old(|queue|) - lines
    {
      var n := 0;
      while n < lines && !failed
        invariant Valid() && put == old(put) && (old(failed) ==> failed)
        invariant 0 <= n <= lines && (!failed ==> |queue| == old(|queue|) - n)
        decreases if failed then 0 else 1 + lines - n
      {
        if * {
          failed := true;
        } else {
          assert (file + [queue[0]])[..|file|] == file;
          file := file + [queue[0]];
          if queue[0].Captured? {
            written := written + 1;
          }
          queue := queue[1..];
          n := n + 1;
        }
      }
    }
  }

  // ---- The loop as a function of its events ----

  datatype LoopState = LoopState(accepted: seq<Message>, payloadBytes: nat, evidenceBytes: nat, lastPing: real,
    nextProgress: real)

  datatype LoopEnd = CapReached | DeadlinePassed | PayloadTooLarge | AggregateTooLarge | Threw(e: Exc)

  datatype Step = Continue(state: LoopState) | Stop(end: LoopEnd)

  function PingInterval(c: Config): real {
    if c.keepAlive / 2.0 > 1.0 then c.keepAlive / 2.0 else 1.0
  }

  function Deadline(c: Config, startTime: real): real {
    startTime + if c.Indefinite() then BACKSTOP_SECONDS else c.duration
  }

  function LineBytes(c: Config, m: Message): nat {
    |c.encode(m)| + 1
  }

  function Initial(startTime: real): LoopState {
    LoopState([], 0, 0, startTime, startTime + PROGRESS_SECONDS)
  }

  function Accept(c: Config, st: LoopState, m: Message): Step {
    if |m.payload| > c.maxPayload then Stop(PayloadTooLarge)
    else if st.evidenceBytes + LineBytes(c, m) > c.maxTotal then Stop(AggregateTooLarge)
    else Continue(st.(accepted := st.accepted + [m],
                      payloadBytes := st.payloadBytes + |m.payload|,
                      evidenceBytes := st.evidenceBytes + LineBytes(c, m)))
  }

  /** One iteration, past the loop condition and the writer check. */
  function Iterate(c: Config, deadline: real, st: LoopState, e: Event): Step {
    var reporting := e.now >= st.nextProgress;
    if reporting && c.reportsProgress && e.progress.Some? then Stop(Threw(e.progress.value))
    else
      var reported := if reporting then st.(nextProgress := e.now + PROGRESS_SECONDS) else st;
      var pinging := e.now - st.lastPing >= PingInterval(c);
      if pinging && e.ping.Some? then Stop(Threw(e.ping.value))
      else
        var pinged := if pinging then reported.(lastPing := e.pingedAt) else reported;
        if deadline - e.now <= 0.0 then Stop(DeadlinePassed)
        else match e.read
          case Nothing => Continue(pinged)
          case Throws(exc) => Stop(Threw(exc))
          case Received(m) => Accept(c, pinged, m)
  }

  /** The whole loop; a run still going after its last event is ended by the operator's interrupt. */
  function RunLoop(c: Config, deadline: real, st: LoopState, events: seq<Event>): (LoopState, LoopEnd)
    decreases |events|
  {
    if |st.accepted| >= c.maxMessages then (st, CapReached)
    else if events == [] then (st, Threw(Interrupt))
    else match Iterate(c, deadline, st, events[0])
      case Stop(end) => (st, end)
      case Continue(next) => RunLoop(c, deadline, next, events[1..])
  }

  function ReceivedMessages(events: seq<Event>): seq<Message> {
    if events == [] then []
    else (if events[0].read.Received? then [events[0].read.message] else []) + ReceivedMessages(events[1..])
  }

  function TotalLineBytes(c: Config, messages: seq<Message>): nat {
    if messages == [] then 0 else TotalLineBytes(c, messages[..|messages| - 1]) + LineBytes(c, messages[|messages| - 1])
  }

  function TotalPayloadBytes(messages: seq<Message>): nat {
    if messages == [] then 0 else TotalPayloadBytes(messages[..|messages| - 1]) + |messages[|messages| - 1].payload|
  }

  /** What every reachable loop state satisfies. */
  ghost predicate WithinCaps(c: Config, st: LoopState) {
    && (st.accepted != [] ==> |st.accepted| <= c.maxMessages && st.evidenceBytes <= c.maxTotal)
    && (forall m :: m in st.accepted ==> |m.payload| <= c.maxPayload)
    && st.evidenceBytes == TotalLineBytes(c, st.accepted)
    && st.payloadBytes == TotalPayloadBytes(st.accepted)
  }

  /** Progress reports and pings touch only the timers. */
  predicate SameEvidence(a: LoopState, b: LoopState) {
    a.accepted == b.accepted && a.payloadBytes == b.payloadBytes && a.evidenceBytes == b.evidenceBytes
  }

  lemma AcceptWithinCaps(c: Config, st: LoopState, m: Message)
    requires WithinCaps(c, st) && |st.accepted| < c.maxMessages && Accept(c, st, m).Continue?
    ensures WithinCaps(c, Accept(c, st, m).state)
  {
    assert (st.accepted + [m])[..|st.accepted|] == st.accepted;
  }

  lemma IterateAccepts(c: Config, deadline: real, st: LoopState, e: Event) returns (timed: LoopState)
    requires Iterate(c, deadline, st, e).Continue?
    ensures SameEvidence(st, timed)
    ensures Iterate(c, deadline, st, e) ==
      if e.read.Received? then Accept(c, timed, e.read.message) else Continue(timed)
  {
    var reported := if e.now >= st.nextProgress then st.(nextProgress := e.now + PROGRESS_SECONDS) else st;
    timed := if e.now - st.lastPing >= PingInterval(c) then reported.(lastPing := e.pingedAt) else reported;
  }

  lemma IterateWithinCaps(c: Config, deadline: real, st: LoopState, e: Event)
    requires WithinCaps(c, st) && |st.accepted| < c.maxMessages
    ensures Iterate(c, deadline, st, e).Continue? ==>
      && WithinCaps(c, Iterate(c, deadline, st, e).state)
      && Iterate(c, deadline, st, e).state.accepted
         == st.accepted + if e.read.Received? then [e.read.message] else []
  {
    if Iterate(c, deadline, st, e).Continue? {
      var timed := IterateAccepts(c, deadline, st, e);
      if e.read.Received? {
        AcceptWithinCaps(c, timed, e.read.message);
      }
    }
  }

  lemma {:induction false} LoopKeepsCaps(c: Config, deadline: real, st: LoopState, events: seq<Event>)
    requires WithinCaps(c, st)
    ensures var (last, end) := RunLoop(c, deadline, st, events);
      WithinCaps(c, last) && (end.CapReached? <==> |last.accepted| >= c.maxMessages)
    decreases |events|
  {
    if |st.accepted| < c.maxMessages && events != [] {
      IterateWithinCaps(c, deadline, st, events[0]);
      IterateStops(c, deadline, st, events[0]);
      var step := Iterate(c, deadline, st, events[0]);
      if step.Continue? {
        LoopKeepsCaps(c, deadline, step.state, events[1..]);
      }
    }
  }

  /** An iteration never ends the loop for the message cap, and for the deadline only past it. */
  lemma IterateStops(c: Config, deadline: real, st: LoopState, e: Event)
    ensures Iterate(c, deadline, st, e).Stop? ==> !Iterate(c, deadline, st, e).end.CapReached?
    ensures Iterate(c, deadline, st, e) == Stop(DeadlinePassed) ==> e.now >= deadline
  {
  }

  lemma {:induction false} LoopInOrder(c: Config, deadline: real, st: LoopState, events: seq<Event>)
    requires WithinCaps(c, st)
    ensures var (last, _) := RunLoop(c, deadline, st, events);
      st.accepted <= last.accepted <= st.accepted + ReceivedMessages(events)
    decreases |events|
  {
    if |st.accepted| < c.maxMessages && events != [] {
      IterateWithinCaps(c, deadline, st, events[0]);
      var step := Iterate(c, deadline, st, events[0]);
      if step.Continue? {
        LoopInOrder(c, deadline, step.state, events[1..]);
        assert step.state.accepted + ReceivedMessages(events[1..]) == st.accepted + ReceivedMessages(events);
      }
    }
  }

  lemma {:induction false} LoopDeadline(c: Config, deadline: real, st: LoopState, events: seq<Event>)
    requires RunLoop(c, deadline, st, events).1.DeadlinePassed?
    ensures exists e :: e in events && e.now >= deadline
    decreases |events|
  {
    IterateStops(c, deadline, st, events[0]);
    var step := Iterate(c, deadline, st, events[0]);
    if step.Continue? {
      LoopDeadline(c, deadline, step.state, events[1..]);
    } else {
      assert events[0] in events;
    }
  }

  /** The loop keeps its caps, accepts messages in arrival order without gaps, and says truly why it ended. */
  lemma LoopMeaning(c: Config, deadline: real, st: LoopState, events: seq<Event>)
    requires WithinCaps(c, st)
    ensures var (last, end) := RunLoop(c, deadline, st, events);
      && WithinCaps(c, last)
      && st.accepted <= last.accepted <= st.accepted + ReceivedMessages(events)
      && (end.CapReached? <==> |last.accepted| >= c.maxMessages)
      && (end.DeadlinePassed? ==> exists e :: e in events && e.now >= deadline)
  {
    LoopKeepsCaps(c, deadline, st, events);
    LoopInOrder(c, deadline, st, events);
    if RunLoop(c, deadline, st, events).1.DeadlinePassed? {
      LoopDeadline(c, deadline, st, events);
    }
  }

  // ---- How a capture ends ----

  /** The body of the `with` block: never reached, stopped before the loop, ended by it, or by the writer's error. */
  datatype Body = NotEntered(e: Exc) | NotSubscribed(e: Exc) | NotStarted(e: Exc) | Looped(end: LoopEnd) | WriterBroke

  datatype Ending = Ending(reason: Reason, completed: bool, thrown: Option<Exc>)

  function BodyReason(c: Config, b: Body): Reason {
    match b
    case Looped(CapReached) => MessageCap
    case Looped(DeadlinePassed) => if c.Indefinite() then BackstopElapsed else WindowElapsed
    case Looped(PayloadTooLarge) => PayloadSizeCap
    case Looped(AggregateTooLarge) => AggregateBytesCap
    case _ => UnknownError
  }

  function BodyThrown(b: Body): Option<Exc> {
    match b
    case NotEntered(e) => Some(e)
    case NotSubscribed(e) => Some(e)
    case NotStarted(e) => Some(e)
    case Looped(PayloadTooLarge) => Some(ResourceLimit)
    case Looped(AggregateTooLarge) => Some(ResourceLimit)
    case Looped(Threw(e)) => Some(e)
    case WriterBroke => Some(OtherError)
    case _ => None
  }

  /** Closing the client replaces whatever the body threw; then the handlers settle the reason. */
  function Settle(c: Config, b: Body, close: Option<Exc>): Ending {
    var thrown := if b.NotEntered? || close.None? then BodyThrown(b) else close;
    var reason := match thrown
      case Some(Interrupt) => Cancelled
      case Some(OtherError) => BrokerInterruption
      case _ => BodyReason(c, b);
    Ending(reason, b == Looped(DeadlinePassed) && !c.Indefinite(), thrown)
  }

  function Lines(messages: seq<Message>): (r: seq<Record>)
    ensures |r| == |messages| && forall i :: 0 <= i < |r| ==> r[i] == Captured(messages[i])
  {
    seq(|messages|, i requires 0 <= i < |messages| => Captured(messages[i]))
  }

  /** Everything the main thread puts on the queue over a whole capture. */
  function Transcript(c: Config, b: Body, st: LoopState, ending: Ending): seq<Record> {
    var started := c.manifest && !b.NotEntered? && !b.NotSubscribed?;
    (if started then [WindowStarted] else [])
    + Lines(st.accepted)
    + (if started then [WindowEnded(ending.completed, ending.reason)] else [])
    + (if c.manifest
       then [Terminal(started, ending.completed, ending.reason, |st.accepted|, st.payloadBytes, st.evidenceBytes)]
       else [])
  }

  /** The marker kept beside the evidence when the writer failed after the loop had ended normally. */
  function Sidecar(c: Config, st: LoopState): Option<Record> {
    if c.manifest then Some(Terminal(true, false, DiskWriteError, |st.accepted|, st.payloadBytes, st.evidenceBytes))
      else None
  }

  datatype Outcome =
    | Misconfigured
    | Returned(count: nat)
    | Raised(e: Exc)
    | WriteFailed(sidecar: Option<Record>)

  /** The receive loop, with the writer thread running between its steps. */
  method ReceiveLoop(c: Config, deadline: real, startTime: real, events: seq<Event>, session: Session)
    returns (st: LoopState, b: Body)
    requires session.Valid()
    modifies session
    ensures session.Valid() && session.put == old(session.put) + Lines(st.accepted)
    ensures WithinCaps(c, st) && st.accepted <= ReceivedMessages(events)
    ensures b.Looped? ==> (st, b.end) == RunLoop(c, deadline, Initial(startTime), events)
    ensures b.WriterBroke? ==> session.failed
    ensures b.Looped? || b.WriterBroke?
  {
    st := Initial(startTime);
    var i := 0;
    assert Lines([]) == [];
    while |st.accepted| < c.maxMessages
      invariant session.Valid() && AtEvent(c, deadline, startTime, st, events, i)
      invariant session.put == old(session.put) + Lines(st.accepted)
      decreases |events| - i
    {
      session.WriterRuns();
      if session.failed {
        ReceivedPrefix(events, i);
        return st, WriterBroke;
      }
      if i == |events| {
        ReceivedPrefix(events, i);
        return st, Looped(Threw(Interrupt));
      }
      StepFacts(c, deadline, startTime, st, events, i);
      var step := Iterate(c, deadline, st, events[i]);
      if step.Stop? {
        ReceivedPrefix(events, i);
        return st, Looped(step.end);
      }
      if events[i].read.Received? {
        session.Put(Captured(events[i].read.message));
      }
      st := step.state;
      i := i + 1;
    }
    ReceivedPrefix(events, i);
    b := Looped(CapReached);
  }

  /** `i` iterations have continued and left the loop in state `st`. */
  ghost predicate AtEvent(c: Config, deadline: real, startTime: real, st: LoopState, events: seq<Event>, i: int) {
    && 0 <= i <= |events|
    && WithinCaps(c, st) && st.accepted == ReceivedMessages(events[..i])
    && RunLoop(c, deadline, Initial(startTime), events) == RunLoop(c, deadline, st, events[i..])
  }

  lemma StepFacts(c: Config, deadline: real, startTime: real, st: LoopState, events: seq<Event>, i: nat)
    requires i < |events| && |st.accepted| < c.maxMessages && AtEvent(c, deadline, startTime, st, events, i)
    ensures var step := Iterate(c, deadline, st, events[i]);
      if step.Stop? then RunLoop(c, deadline, st, events[i..]) == (st, step.end)
      else
        && AtEvent(c, deadline, startTime, step.state, events, i + 1)
        && Lines(step.state.accepted)
           == Lines(st.accepted) + if events[i].read.Received? then [Captured(events[i].read.message)] else []
  {
    IterateWithinCaps(c, deadline, st, events[i]);
    ReceivedNext(events, i);
    assert events[i..][1..] == events[i + 1..];
  }

  lemma {:induction false} ReceivedSplit(a: seq<Event>, b: seq<Event>)
    ensures ReceivedMessages(a + b) == ReceivedMessages(a) + ReceivedMessages(b)
  {
    if a == [] {
      assert a + b == b;
    } else {
      assert (a + b)[1..] == a[1..] + b && (a + b)[0] == a[0];
      ReceivedSplit(a[1..], b);
      var first := if a[0].read.Received? then [a[0].read.message] else [];
      assert first + (ReceivedMessages(a[1..]) + ReceivedMessages(b))
        == first + ReceivedMessages(a[1..]) + ReceivedMessages(b);
    }
  }

  lemma ReceivedPrefix(events: seq<Event>, i: nat)
    requires i <= |events|
    ensures ReceivedMessages(events[..i]) <= ReceivedMessages(events)
  {
    assert events == events[..i] + events[i..];
    ReceivedSplit(events[..i], events[i..]);
  }

  lemma ReceivedNext(events: seq<Event>, i: nat)
    requires i < |events|
    ensures ReceivedMessages(events[..i + 1])
         == ReceivedMessages(events[..i]) + if events[i].read.Received? then [events[i].read.message] else []
  {
    assert events[..i + 1] == events[..i] + [events[i]];
    ReceivedSplit(events[..i], [events[i]]);
    assert [events[i]][1..] == [];
  }

  predicate MarksStart(c: Config, b: Body) {
    c.manifest && !b.NotEntered? && !b.NotSubscribed?
  }

  /** The `with` block. */
  method CaptureBody(c: Config, world: World, session: Session) returns (st: LoopState, b: Body)
    requires session.Valid() && session.put == []
    modifies session
    ensures session.Valid() && session.put == (if MarksStart(c, b) then [WindowStarted] else []) + Lines(st.accepted)
    ensures WithinCaps(c, st) && st.accepted <= ReceivedMessages(world.events)
    ensures b.NotEntered? ==> world.enter == Some(b.e)
    ensures b.NotSubscribed? ==> world.enter.None? && world.subscribe == Some(b.e)
    ensures b.NotStarted? ==> world.enter.None? && world.subscribe.None? && world.started == Some(b.e)
    ensures b.Looped? || b.WriterBroke? ==> world.enter.None? && world.subscribe.None? && world.started.None?
    ensures b.Looped? ==>
      (st, b.end) == RunLoop(c, Deadline(c, world.startTime), Initial(world.startTime), world.events)
    ensures b.WriterBroke? ==> session.failed
  {
    st := Initial(world.startTime);
    if world.enter.Some? {
      return st, NotEntered(world.enter.value);
    }
    if world.subscribe.Some? {
      return st, NotSubscribed(world.subscribe.value);
    }
    if c.manifest {
      session.Put(WindowStarted);
    }
    if world.started.Some? {
      return st, NotStarted(world.started.value);
    }
    st, b := ReceiveLoop(c, Deadline(c, world.startTime), world.startTime, world.events, session);
  }

  /** The `finally` block: both markers, the end of the queue, the writer's last lines. */
  method Finish(c: Config, st: LoopState, b: Body, ending: Ending, session: Session)
    requires session.Valid()
    requires session.put == (if MarksStart(c, b) then [WindowStarted] else []) + Lines(st.accepted)
    modifies session
    ensures session.Valid() && session.put == Transcript(c, b, st, ending)
    ensures old(session.failed) ==> session.failed
    ensures !session.failed ==> session.file == session.put
  {
    if MarksStart(c, b) {
      session.Put(WindowEnded(ending.completed, ending.reason));
    }
    if c.manifest {
      session.Put(Terminal(MarksStart(c, b), ending.completed, ending.reason, |st.accepted|, st.payloadBytes,
        st.evidenceBytes));
    }
    session.Join();
  }

  /** `capture_to_jsonl`, from the claimed output file to its return or raise. */
  method CaptureToJsonl(c: Config, world: World, session: Session)
    returns (r: Outcome, st: LoopState, b: Body, ending: Ending)
    requires session.Valid() && session.put == [] && !session.failed
    modifies session
    ensures r.Misconfigured? <==> c.maxPayload <= 0 || c.maxTotal <= 0
    ensures session.Valid() && WithinCaps(c, st) && st.accepted <= ReceivedMessages(world.events)
    ensures !r.Misconfigured? ==> ending == Settle(c, b, world.close) && session.put == Transcript(c, b, st, ending)
    ensures !r.Misconfigured? && b.Looped? ==>
      (st, b.end) == RunLoop(c, Deadline(c, world.startTime), Initial(world.startTime), world.events)
    ensures !r.Misconfigured? && b.WriterBroke? ==> session.failed
    ensures !r.Misconfigured? && !session.failed ==> session.file == session.put
    ensures r.Returned? ==> !session.failed && ending.thrown.None?
    ensures r.Returned? ==>
      r.count == CountCaptured(session.file) == |st.accepted| && (r.count == 0 || r.count <= c.maxMessages)
    ensures r.Raised? ==> ending.thrown == Some(r.e)
    ensures r.WriteFailed? ==> session.failed && ending.thrown.None? && r.sidecar == Sidecar(c, st)
  {
    if c.maxPayload <= 0 || c.maxTotal <= 0 {
      return Misconfigured, Initial(world.startTime), WriterBroke, Ending(UnknownError, false, None);
    }
    st, b := CaptureBody(c, world, session);
    ending := Settle(c, b, world.close);
    Finish(c, st, b, ending, session);
    if ending.thrown.Some? {
      r := Raised(ending.thrown.value);
    } else if session.failed {
      r := WriteFailed(Sidecar(c, st));
    } else {
      TranscriptCounts(c, b, st, ending);
      r := Returned(session.written);
    }
  }

  // ---- What a capture promises ----

  lemma {:induction false} CountedLines(before: seq<Record>, messages: seq<Message>, after: seq<Record>)
    requires forall x :: x in before || x in after ==> !x.Captured?
    ensures CountCaptured(before + Lines(messages) + after) == |messages|
    decreases |after|, |messages|, |before|
  {
    var all := before + Lines(messages) + after;
    if after != [] {
      assert all[..|all| - 1] == before + Lines(messages) + after[..|after| - 1];
      CountedLines(before, messages, after[..|after| - 1]);
    } else if messages != [] {
      assert all[..|all| - 1] == before + Lines(messages[..|messages| - 1]) + after;
      CountedLines(before, messages[..|messages| - 1], after);
    } else if before != [] {
      assert all[..|all| - 1] == before[..|before| - 1] + Lines(messages) + after;
      CountedLines(before[..|before| - 1], messages, after);
    }
  }

  /** A transcript holds exactly the accepted messages, so a returned count is the accepted count. */
  lemma TranscriptCounts(c: Config, b: Body, st: LoopState, ending: Ending)
    ensures CountCaptured(Transcript(c, b, st, ending)) == |st.accepted|
  {
    var before := if MarksStart(c, b) then [WindowStarted] else [];
    var after := (if MarksStart(c, b) then [WindowEnded(ending.completed, ending.reason)] else [])
      + if c.manifest then [Terminal(MarksStart(c, b), ending.completed, ending.reason, |st.accepted|, st.payloadBytes,
        st.evidenceBytes)]
        else [];
    assert Transcript(c, b, st, ending) == before + Lines(st.accepted) + after;
    CountedLines(before, st.accepted, after);
  }

  /** A capture that raises nothing ended at its cap or its deadline, and its reason says which. */
  lemma NormalEndings(c: Config, world: World, st: LoopState, b: Body)
    requires Settle(c, b, world.close).thrown.None?
    requires b.Looped? ==>
      (st, b.end) == RunLoop(c, Deadline(c, world.startTime), Initial(world.startTime), world.events)
    ensures var e := Settle(c, b, world.close);
      && b.Looped? && (b.end.CapReached? || b.end.DeadlinePassed?)
      && (e.reason == MessageCap <==> |st.accepted| >= c.maxMessages)
      && (e.reason == WindowElapsed <==> |st.accepted| < c.maxMessages && !c.Indefinite())
      && (e.reason == BackstopElapsed <==> |st.accepted| < c.maxMessages && c.Indefinite())
      && (e.completed <==> e.reason == WindowElapsed)
  {
    LoopMeaning(c, Deadline(c, world.startTime), Initial(world.startTime), world.events);
  }

  /** A completed window and the elapsed-window reason are one thing, except exactly when closing the client raises
    * after a completed window: then the reason is overwritten. */
  lemma CompletedMeansElapsed(c: Config, b: Body, close: Option<Exc>)
    ensures (Settle(c, b, close).completed <==> Settle(c, b, close).reason == WindowElapsed)
       <==> !(b == Looped(DeadlinePassed) && !c.Indefinite() && close in {Some(Interrupt), Some(OtherError)})
  {
    if b.Looped? && b.end.Threw? {
      assert BodyReason(c, b) == UnknownError;
    }
  }

  /** And a run exists in which they part: the window elapses at once and closing the client raises, be it an
    * operator's interrupt or an error the client does not swallow. */
  lemma PartingRun(c: Config, world: World, now: real)
    requires !c.Indefinite() && c.maxMessages > 0 && now >= world.startTime + c.duration
    requires now < world.startTime + PROGRESS_SECONDS && now - world.startTime < PingInterval(c)
    requires world.events == [Event(now, None, None, now, Nothing)]
    requires world.close in {Some(Interrupt), Some(OtherError)}
    ensures var (st, end) := RunLoop(c, Deadline(c, world.startTime), Initial(world.startTime), world.events);
      Settle(c, Looped(end), world.close)
      == Ending(if world.close == Some(Interrupt) then Cancelled else BrokerInterruption, true, world.close)
  {
    assert Iterate(c, Deadline(c, world.startTime), Initial(world.startTime), world.events[0]) == Stop(DeadlinePassed);
  }
}
