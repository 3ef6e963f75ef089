/**
  Saves, shutdown calls and the background writer as an interleaving protocol
  over the bounded command queue. A save is a guard step and a send step; a
  shutdown call enqueues its request, takes the writer handle if it is still
  there, joins the writer, and reports. An event that is not enabled changes
  nothing, so every sequence of events is an interleaving.
 */
module ShutdownProtocol {
  import opened Text
  import opened LogFrames

  datatype Cmd = Append(payload: bytes) | Shutdown

  /** Leaving: the loop is over, the receiver is not dropped yet, so sends still succeed. */
  datatype Writer = Running | Draining | Leaving | Gone

  /** `started` counts the saves acknowledged when the call began; `first` says no request was enqueued yet. */
  datatype Call =
    | Sending(started: nat, first: bool)
    | Sent(started: nat, first: bool)
    | Joining(started: nat, first: bool)
    | Returned(started: nat, first: bool, took: bool, ok: bool)

  datatype State = State(
    capacity: nat,
    queue: seq<Cmd>,
    writer: Writer,
    handle: bool,
    writeError: bool,
    log: bytes,
    passed: set<nat>,        // saves past the write_error guard
    calls: map<nat, Call>,
    acked: seq<bytes>,       // payloads of acknowledged saves, in order
    processed: nat,          // appends taken off the queue
    requested: Option<nat>)  // acknowledged saves when the first request was enqueued

  datatype WriteOutcome = Written | Torn(bytes: nat) | OpenFailed

  datatype Event =
    | SaveGuard(save: nat)
    | SaveSend(save: nat, payload: bytes)
    | CallStart(call: nat)
    | CallSend(call: nat)
    | CallTake(call: nat)
    | CallJoin(call: nat)
    | WriterStep(outcome: WriteOutcome)

  function Opened(capacity: nat, log: bytes): State {
    State(capacity, [], Running, true, false, log, {}, map[], [], 0, None)
  }

  function Appended(s: State, payload: bytes, outcome: WriteOutcome): State
    requires s.queue != []
  {
    var taken := s.(queue := s.queue[1..], processed := s.processed + 1);
    match outcome
    case Written => taken.(log := s.log + Frame(payload))
    case Torn(n) => taken.(log := s.log + (if n <= |Frame(payload)| then Frame(payload)[..n] else Frame(payload)), writeError := true)
    case OpenFailed => taken.(writeError := true, writer := Leaving)
  }

  function WriterStepped(s: State, outcome: WriteOutcome): State {
    match s.writer
    case Running =>
      if s.queue == [] then s
      else if s.queue[0].Shutdown? then s.(queue := s.queue[1..], writer := Draining)
      else Appended(s, s.queue[0].payload, outcome)
    case Draining =>
      if s.queue == [] then s.(writer := Leaving)
      else if s.queue[0].Shutdown? then s.(queue := s.queue[1..], writer := Leaving)
      else Appended(s, s.queue[0].payload, outcome)
    case Leaving => s.(queue := [], writer := Gone)
    case Gone => s
  }

  function SendSave(s: State, save: nat, payload: bytes): State {
    var done := s.(passed := s.passed - {save});
    if s.writer.Gone? then done.(writeError := true)
    else if |s.queue| >= s.capacity then done
    else done.(queue := s.queue + [Append(payload)], acked := s.acked + [payload])
  }

  function Requested(s: State, c: nat): State
    requires c in s.calls && s.calls[c].Sending?
  {
    var sent := s.(calls := s.calls[c := Sent(s.calls[c].started, s.calls[c].first)]);
    if s.writer.Gone? then sent
    else if |s.queue| >= s.capacity then s
    else sent.(queue := s.queue + [Shutdown],
               requested := if s.requested.None? then Some(|s.acked|) else s.requested)
  }

  function Step(s: State, e: Event): State {
    match e
    case SaveGuard(save) => if s.writeError then s else s.(passed := s.passed + {save})
    case SaveSend(save, payload) => if save in s.passed then SendSave(s, save, payload) else s
    case CallStart(c) => if c in s.calls then s else s.(calls := s.calls[c := Sending(|s.acked|, s.requested.None?)])
    case CallSend(c) => if c in s.calls && s.calls[c].Sending? then Requested(s, c) else s
    case CallTake(c) =>
      if c !in s.calls || !s.calls[c].Sent? then s
      else if s.handle then s.(handle := false, calls := s.calls[c := Joining(s.calls[c].started, s.calls[c].first)])
      else s.(calls := s.calls[c := Returned(s.calls[c].started, s.calls[c].first, false, true)])
    case CallJoin(c) =>
      if c in s.calls && s.calls[c].Joining? && s.writer.Gone?
      then s.(writeError := true,
              calls := s.calls[c := Returned(s.calls[c].started, s.calls[c].first, true, !s.writeError)])
      else s
    case WriterStep(outcome) => WriterStepped(s, outcome)
  }

  function Run(s: State, es: seq<Event>): State
    decreases |es|
  {
    if es == [] then s else Run(Step(s, es[0]), es[1..])
  }

  /** The payloads of the appends in a queue, in order. */
  function Appends(q: seq<Cmd>): seq<bytes> {
    if q == [] then []
    else (if q[0].Append? then [q[0].payload] else []) + Appends(q[1..])
  }

  /** How many appends stand before the first request in a queue. */
  function Ahead(q: seq<Cmd>): nat {
    if q == [] || q[0].Shutdown? then 0 else 1 + Ahead(q[1..])
  }

  lemma {:induction false} AppendsSnoc(q: seq<Cmd>, c: Cmd)
    ensures Appends(q + [c]) == Appends(q) + (if c.Append? then [c.payload] else [])
  {
    if q == [] {
      assert q + [c] == [c];
      assert Appends([c]) == (if c.Append? then [c.payload] else []) + Appends([]);
    } else {
      assert (q + [c])[0] == q[0] && (q + [c])[1..] == q[1..] + [c];
      AppendsSnoc(q[1..], c);
      Assoc(if q[0].Append? then [q[0].payload] else [], Appends(q[1..]), if c.Append? then [c.payload] else []);
    }
  }

  lemma {:induction false} AheadSnoc(q: seq<Cmd>, c: Cmd)
    ensures Ahead(q + [c]) == if Shutdown in q then Ahead(q) else |q| + (if c.Append? then 1 else 0)
    ensures Shutdown !in q ==> Ahead(q) == |q| == |Appends(q)|
  {
    if q == [] {
      assert q + [c] == [c];
    } else {
      assert (q + [c])[0] == q[0] && (q + [c])[1..] == q[1..] + [c];
      AheadSnoc(q[1..], c);
      assert q == [q[0]] + q[1..];
    }
  }

  // ----- the invariant -----

  /** Acknowledged saves are the ones taken off the queue followed by the ones still on it. */
  ghost predicate QueueOk(s: State) {
    && s.processed <= |s.acked|
    && (!s.writer.Gone? ==> s.acked[s.processed..] == Appends(s.queue))
    && (s.writer.Gone? ==> s.queue == [])
  }

  /** While no failure is flagged, the log is what it was followed by the frames processed so far. */
  ghost predicate LogOk(s: State, log0: bytes) {
    !s.writeError && s.processed <= |s.acked| ==> s.log == log0 + Frames(s.acked[..s.processed])
  }

  /** The writer cannot leave without a failure before it has written everything ahead of the first request. */
  ghost predicate RequestOk(s: State) {
    match s.requested
    case None => Shutdown !in s.queue && (s.writer.Running? || s.writeError) && !s.writer.Draining?
    case Some(m) =>
      && m <= |s.acked|
      && (s.writer.Running? ==> Shutdown in s.queue && m == s.processed + Ahead(s.queue))
      && (!s.writer.Running? ==> m <= s.processed || s.writeError)
  }

  /**
    A call that began before any request counts only saves ahead of the first one;
    a call that took the handle and reported success vouches for the log.
   */
  ghost predicate CallOk(s: State, log0: bytes, c: Call) {
    && c.started <= |s.acked|
    && (c.first && s.requested.Some? ==> c.started <= s.requested.value)
    && (c.Returned? && c.took ==> s.writer.Gone? && s.writeError)
    && (c.Returned? && c.took && c.ok ==> Vouched(s, log0))
  }

  ghost predicate Vouched(s: State, log0: bytes) {
    && s.processed <= |s.acked|
    && s.log == log0 + Frames(s.acked[..s.processed])
    && s.requested.Some? && s.requested.value <= s.processed
  }

  ghost predicate CallsOk(s: State, log0: bytes) {
    forall c :: c in s.calls ==> CallOk(s, log0, s.calls[c])
  }

  ghost predicate Inv(s: State, log0: bytes) {
    QueueOk(s) && LogOk(s, log0) && RequestOk(s) && CallsOk(s, log0)
  }

  lemma SaveKeepsInv(s: State, log0: bytes, save: nat, payload: bytes)
    requires Inv(s, log0) && save in s.passed
    ensures Inv(SendSave(s, save, payload), log0)
  {
    if !s.writer.Gone? && |s.queue| < s.capacity {
      EnqueueSaveKeepsInv(s, log0, s.passed - {save}, payload);
    }
  }

  lemma EnqueueSaveKeepsInv(s: State, log0: bytes, passed: set<nat>, payload: bytes)
    requires Inv(s, log0) && !s.writer.Gone?
    ensures Inv(s.(passed := passed, queue := s.queue + [Append(payload)], acked := s.acked + [payload]), log0)
  {
    var s' := s.(passed := passed, queue := s.queue + [Append(payload)], acked := s.acked + [payload]);
    AppendsSnoc(s.queue, Append(payload));
    AheadSnoc(s.queue, Append(payload));
    assert s'.acked[s.processed..] == s.acked[s.processed..] + [payload];
    assert s'.acked[..s.processed] == s.acked[..s.processed];
    assert QueueOk(s') && LogOk(s', log0);
    assert RequestOk(s') by { assert Shutdown in s'.queue <==> Shutdown in s.queue; }
    forall c | c in s'.calls ensures CallOk(s', log0, s'.calls[c]) { assert CallOk(s, log0, s.calls[c]); }
  }

  /** Moving a call on without returning changes nothing the invariant looks at. */
  lemma MoveKeepsInv(s: State, log0: bytes, c: nat)
    requires Inv(s, log0) && c in s.calls
    ensures Inv(s.(calls := s.calls[c := Sent(s.calls[c].started, s.calls[c].first)]), log0)
  {
    var s' := s.(calls := s.calls[c := Sent(s.calls[c].started, s.calls[c].first)]);
    forall d | d in s'.calls ensures CallOk(s', log0, s'.calls[d]) { assert CallOk(s, log0, s.calls[d]); }
  }

  lemma EnqueueRequestKeepsInv(s: State, log0: bytes)
    requires Inv(s, log0) && !s.writer.Gone?
    ensures Inv(s.(queue := s.queue + [Shutdown], requested := if s.requested.None? then Some(|s.acked|) else s.requested), log0)
  {
    var s' := s.(queue := s.queue + [Shutdown], requested := if s.requested.None? then Some(|s.acked|) else s.requested);
    AppendsSnoc(s.queue, Shutdown);
    AheadSnoc(s.queue, Shutdown);
    assert Appends(s.queue) + [] == Appends(s.queue);
    assert |s.acked[s.processed..]| == |s.acked| - s.processed;
    assert s'.queue[|s.queue|] == Shutdown;
    forall d | d in s'.calls ensures CallOk(s', log0, s'.calls[d]) { assert CallOk(s, log0, s.calls[d]); }
  }

  lemma RequestKeepsInv(s: State, log0: bytes, c: nat)
    requires Inv(s, log0) && c in s.calls && s.calls[c].Sending?
    ensures Inv(Requested(s, c), log0)
  {
    MoveKeepsInv(s, log0, c);
    if !s.writer.Gone? && |s.queue| < s.capacity {
      EnqueueRequestKeepsInv(s.(calls := s.calls[c := Sent(s.calls[c].started, s.calls[c].first)]), log0);
    }
  }

  lemma AppendedKeepsInv(s: State, log0: bytes, outcome: WriteOutcome)
    requires Inv(s, log0) && (s.writer.Running? || s.writer.Draining?)
    requires s.queue != [] && s.queue[0].Append?
    ensures Inv(Appended(s, s.queue[0].payload, outcome), log0)
  {
    var s' := Appended(s, s.queue[0].payload, outcome);
    AppendedKeepsQueueOk(s, outcome);
    AppendedKeepsLogOk(s, log0, outcome);
    AppendedKeepsRequestOk(s, outcome);
    forall c | c in s'.calls ensures CallOk(s', log0, s'.calls[c]) { assert CallOk(s, log0, s.calls[c]); }
  }

  lemma AppendedKeepsQueueOk(s: State, outcome: WriteOutcome)
    requires QueueOk(s) && (s.writer.Running? || s.writer.Draining?) && s.queue != [] && s.queue[0].Append?
    ensures QueueOk(Appended(s, s.queue[0].payload, outcome))
    ensures s.processed < |s.acked| && s.acked[s.processed] == s.queue[0].payload
  {
    var p, n := s.queue[0].payload, s.processed;
    assert Appends(s.queue) == [p] + Appends(s.queue[1..]);
    assert s.acked[n] == s.acked[n..][0] == p;
    assert s.acked[n + 1..] == s.acked[n..][1..] == Appends(s.queue[1..]);
  }

  lemma AppendedKeepsLogOk(s: State, log0: bytes, outcome: WriteOutcome)
    requires LogOk(s, log0) && s.queue != [] && s.queue[0].Append?
    requires s.processed < |s.acked| && s.acked[s.processed] == s.queue[0].payload
    ensures LogOk(Appended(s, s.queue[0].payload, outcome), log0)
  {
    var p, n := s.queue[0].payload, s.processed;
    assert s.acked[..n + 1] == s.acked[..n] + [p];
    FramesSnoc(s.acked[..n], p);
    Assoc(log0, Frames(s.acked[..n]), Frame(p));
  }

  lemma AppendedKeepsRequestOk(s: State, outcome: WriteOutcome)
    requires RequestOk(s) && (s.writer.Running? || s.writer.Draining?) && s.queue != [] && s.queue[0].Append?
    ensures RequestOk(Appended(s, s.queue[0].payload, outcome))
  {
    assert s.queue == [s.queue[0]] + s.queue[1..];
  }

  lemma WriterKeepsInv(s: State, log0: bytes, outcome: WriteOutcome)
    requires Inv(s, log0)
    ensures Inv(WriterStepped(s, outcome), log0)
  {
    if (s.writer.Running? || s.writer.Draining?) && s.queue != [] && s.queue[0].Append? {
      AppendedKeepsInv(s, log0, outcome);
    } else if s.queue != [] {
      assert Appends(s.queue) == (if s.queue[0].Append? then [s.queue[0].payload] else []) + Appends(s.queue[1..]);
      assert s.queue[0].Shutdown? ==> Appends(s.queue) == Appends(s.queue[1..]);
    }
  }

  lemma CallKeepsInv(s: State, log0: bytes, e: Event)
    requires Inv(s, log0) && (e.CallStart? || e.CallTake? || e.CallJoin?)
    ensures Inv(Step(s, e), log0)
  {
    var s' := Step(s, e);
    assert QueueOk(s') && LogOk(s', log0) && RequestOk(s');
    forall c | c in s'.calls ensures CallOk(s', log0, s'.calls[c]) {
      if c in s.calls { assert CallOk(s, log0, s.calls[c]); }
    }
  }

  lemma StepKeepsInv(s: State, log0: bytes, e: Event)
    requires Inv(s, log0)
    ensures Inv(Step(s, e), log0)
  {
    match e
    case SaveGuard(_) =>
    case SaveSend(save, payload) => if save in s.passed { SaveKeepsInv(s, log0, save, payload); }
    case CallSend(c) => if c in s.calls && s.calls[c].Sending? { RequestKeepsInv(s, log0, c); }
    case WriterStep(outcome) => WriterKeepsInv(s, log0, outcome);
    case _ => CallKeepsInv(s, log0, e);
  }

  lemma {:induction false} RunKeepsInv(s: State, log0: bytes, es: seq<Event>)
    requires Inv(s, log0)
    ensures Inv(Run(s, es), log0)
    decreases |es|
  {
    if es != [] {
      StepKeepsInv(s, log0, es[0]);
      RunKeepsInv(Step(s, es[0]), log0, es[1..]);
    }
  }

  /**
    In every interleaving, when the call that took the writer handle reports
    success, the log is its content at open followed by the complete frames of the
    first `processed` acknowledged saves in acknowledgement order; these include
    every save acknowledged before the first shutdown request was enqueued.
   */
  lemma ShutdownDrains(capacity: nat, log0: bytes, es: seq<Event>, c: nat)
    requires var s := Run(Opened(capacity, log0), es);
             c in s.calls && s.calls[c].Returned? && s.calls[c].took && s.calls[c].ok
    ensures var s := Run(Opened(capacity, log0), es);
            && s.requested.Some? && s.requested.value <= s.processed <= |s.acked|
            && s.log == log0 + Frames(s.acked[..s.processed])
  {
    OpenedInv(capacity, log0);
    RunKeepsInv(Opened(capacity, log0), log0, es);
    var s := Run(Opened(capacity, log0), es);
    assert CallOk(s, log0, s.calls[c]);
  }

  lemma OpenedInv(capacity: nat, log0: bytes)
    ensures Inv(Opened(capacity, log0), log0)
  {
    assert log0 + Frames([]) == log0;
  }

  /** When no other request was enqueued before the call began, it vouches for every save acknowledged before it. */
  lemma FirstShutdownLosesNothing(capacity: nat, log0: bytes, es: seq<Event>, c: nat)
    requires var s := Run(Opened(capacity, log0), es);
             c in s.calls && s.calls[c].Returned? && s.calls[c].took && s.calls[c].ok && s.calls[c].first
    ensures var s := Run(Opened(capacity, log0), es);
            && s.calls[c].started <= s.processed <= |s.acked|
            && s.log == log0 + Frames(s.acked[..s.calls[c].started]) + Frames(s.acked[s.calls[c].started..s.processed])
  {
    ShutdownDrains(capacity, log0, es, c);
    RunKeepsInv(Opened(capacity, log0), log0, es);
    var s := Run(Opened(capacity, log0), es);
    assert CallOk(s, log0, s.calls[c]);
    var m, n := s.calls[c].started, s.processed;
    assert s.acked[..m] + s.acked[m..n] == s.acked[..n];
    FramesConcat(s.acked[..m], s.acked[m..n]);
    Assoc(log0, Frames(s.acked[..m]), Frames(s.acked[m..n]));
  }

  lemma StepAfterShutdown(s: State, log0: bytes, c: nat, e: Event)
    requires Inv(s, log0) && c in s.calls && s.calls[c].Returned? && s.calls[c].took
    ensures var s' := Step(s, e); s'.acked == s.acked && s'.log == s.log && c in s'.calls && s'.calls[c] == s.calls[c]
  {
    assert CallOk(s, log0, s.calls[c]);
  }

  /** After a call that took the handle has returned, no continuation acknowledges another save or touches the log. */
  lemma {:induction false} NoSaveAfterShutdown(s: State, log0: bytes, c: nat, es: seq<Event>)
    requires Inv(s, log0) && c in s.calls && s.calls[c].Returned? && s.calls[c].took
    ensures Run(s, es).acked == s.acked && Run(s, es).log == s.log
    decreases |es|
  {
    if es != [] {
      StepKeepsInv(s, log0, es[0]);
      StepAfterShutdown(s, log0, c, es[0]);
      NoSaveAfterShutdown(Step(s, es[0]), log0, c, es[1..]);
    }
  }

  // ----- what a shutdown call reports -----

  /** A write failed, or a save found the receiver gone. */
  predicate FaultNow(s: State, e: Event) {
    || (e.WriterStep? && !e.outcome.Written? && (s.writer.Running? || s.writer.Draining?) && s.queue != [] && s.queue[0].Append?)
    || (e.SaveSend? && e.save in s.passed && s.writer.Gone?)
  }

  predicate Fault(s: State, es: seq<Event>)
    decreases |es|
  {
    es != [] && (FaultNow(s, es[0]) || Fault(Step(s, es[0]), es[1..]))
  }

  predicate Took(c: Call) {
    c.Joining? || (c.Returned? && c.took)
  }

  predicate Failed(c: Call) {
    c.Returned? && !c.ok
  }

  ghost predicate SomeReturned(calls: map<nat, Call>) {
    exists c :: c in calls && calls[c].Returned? && calls[c].took
  }

  /** One call at most has the handle, and a failed one had it and a fault happened. */
  ghost predicate CallsReport(calls: map<nat, Call>, handle: bool, faulty: bool) {
    && (forall c :: c in calls && Took(calls[c]) ==> !handle)
    && (forall c, d :: c in calls && d in calls && Took(calls[c]) && Took(calls[d]) ==> c == d)
    && (forall c :: c in calls && Failed(calls[c]) ==> calls[c].took && faulty)
  }

  /** Until the call with the handle returns, only faults flag errors. */
  ghost predicate ReportsOk(s: State, faulty: bool) {
    CallsReport(s.calls, s.handle, faulty) && (s.writeError ==> faulty || SomeReturned(s.calls))
  }

  /** Steps of saves and of the writer leave the calls alone and flag errors only by faults. */
  lemma QuietReports(s: State, e: Event, faulty: bool)
    requires ReportsOk(s, faulty) && (e.SaveGuard? || e.SaveSend? || e.WriterStep?)
    ensures ReportsOk(Step(s, e), faulty || FaultNow(s, e))
  {
    var s' := Step(s, e);
    assert s'.calls == s.calls && s'.handle == s.handle;
    assert s'.writeError ==> s.writeError || FaultNow(s, e);
  }

  /** A call changes its own entry: on its way, taking the handle, or returning without it. */
  lemma ChangeReports(calls: map<nat, Call>, handle: bool, faulty: bool, c: nat, x: Call, handle': bool)
    requires CallsReport(calls, handle, faulty) && !Failed(x) && (c in calls ==> !Took(calls[c]))
    requires if Took(x) then handle && !handle' else handle' == handle
    ensures CallsReport(calls[c := x], handle', faulty)
    ensures SomeReturned(calls) ==> SomeReturned(calls[c := x])
  {
    if SomeReturned(calls) {
      var d :| d in calls && calls[d].Returned? && calls[d].took;
      assert d != c && calls[c := x][d] == calls[d];
    }
  }

  lemma JoinReports(s: State, c: nat, faulty: bool)
    requires ReportsOk(s, faulty) && c in s.calls && s.calls[c].Joining? && s.writer.Gone?
    ensures ReportsOk(Step(s, CallJoin(c)), faulty)
  {
    var after := Step(s, CallJoin(c)).calls;
    assert Took(s.calls[c]);
    assert after[c].Returned? && after[c].took;
    if SomeReturned(s.calls) {
      var d :| d in s.calls && s.calls[d].Returned? && s.calls[d].took;
      assert Took(s.calls[d]);
    }
  }

  lemma StepReports(s: State, e: Event, faulty: bool)
    requires ReportsOk(s, faulty)
    ensures ReportsOk(Step(s, e), faulty || FaultNow(s, e))
  {
    match e
    case CallStart(c) =>
      if c !in s.calls { ChangeReports(s.calls, s.handle, faulty, c, Sending(|s.acked|, s.requested.None?), s.handle); }
    case CallSend(c) =>
      if c in s.calls && s.calls[c].Sending? { ChangeReports(s.calls, s.handle, faulty, c, Sent(s.calls[c].started, s.calls[c].first), s.handle); }
    case CallTake(c) =>
      if c in s.calls && s.calls[c].Sent? {
        if s.handle {
          ChangeReports(s.calls, true, faulty, c, Joining(s.calls[c].started, s.calls[c].first), false);
        } else {
          ChangeReports(s.calls, false, faulty, c, Returned(s.calls[c].started, s.calls[c].first, false, true), false);
        }
      }
    case CallJoin(c) => if c in s.calls && s.calls[c].Joining? && s.writer.Gone? { JoinReports(s, c, faulty); }
    case _ => QuietReports(s, e, faulty);
  }

  lemma {:induction false} RunReports(s: State, es: seq<Event>, faulty: bool)
    requires ReportsOk(s, faulty)
    ensures ReportsOk(Run(s, es), faulty || Fault(s, es))
    decreases |es|
  {
    if es != [] {
      StepReports(s, es[0], faulty);
      RunReports(Step(s, es[0]), es[1..], faulty || FaultNow(s, es[0]));
    }
  }

  /** At most one call ever joins the writer; any other succeeds at once, and that one fails only after a fault. */
  lemma CallFailsOnlyAfterFault(capacity: nat, log0: bytes, es: seq<Event>, c: nat)
    requires var s := Run(Opened(capacity, log0), es); c in s.calls && s.calls[c].Returned?
    ensures var s := Run(Opened(capacity, log0), es);
            && (!s.calls[c].took ==> s.calls[c].ok)
            && (s.calls[c].took && !s.calls[c].ok ==> Fault(Opened(capacity, log0), es))
            && (s.calls[c].took ==> forall d :: d in s.calls && Took(s.calls[d]) ==> d == c)
  {
    RunReports(Opened(capacity, log0), es, false);
  }

  // ----- when a save is acknowledged -----

  /** No error is flagged, the receiver is still there, and the queue has room. */
  predicate Accepts(s: State) {
    !s.writeError && !s.writer.Gone? && |s.queue| < s.capacity
  }

  /**
    A save that has not begun yet, run without interruption: it is acknowledged and
    queued last exactly when no error is flagged, the receiver is still there and the
    queue has room; otherwise nothing is queued, and a vanished receiver flags the error.
   */
  lemma SaveAcknowledgedExactlyWhen(s: State, save: nat, payload: bytes)
    requires save !in s.passed
    ensures var s' := Run(s, [SaveGuard(save), SaveSend(save, payload)]);
            && (s'.acked == s.acked + [payload] <==> Accepts(s))
            && (Accepts(s) ==> s'.queue == s.queue + [Append(payload)])
            && (!Accepts(s) ==> s'.acked == s.acked && s'.queue == s.queue)
            && (s'.writeError <==> s.writeError || s.writer.Gone?)
            && s'.passed == s.passed && s'.log == s.log
  {
    RunTwo(s, SaveGuard(save), SaveSend(save, payload));
    var s1 := Step(s, SaveGuard(save));
    assert s.writeError ==> s1 == s;
    assert (s.passed + {save}) - {save} == s.passed;
    assert |s.acked + [payload]| == |s.acked| + 1;
  }

  /** A flagged error stays, no further save passes the guard, and only one that had passed is acknowledged. */
  lemma StepAfterError(s: State, e: Event)
    requires s.writeError
    ensures var s' := Step(s, e);
            && s'.writeError && s'.passed <= s.passed
            && (s'.acked == s.acked || (e.SaveSend? && e.save in s.passed && s'.acked == s.acked + [e.payload] && e.save !in s'.passed))
  {
  }

  /** The saves of a run that come to an acknowledgement, in order. */
  function AckedBy(s: State, es: seq<Event>): seq<nat>
    decreases |es|
  {
    if es == [] then []
    else
      var s' := Step(s, es[0]);
      (if es[0].SaveSend? && s'.acked != s.acked then [es[0].save] else []) + AckedBy(s', es[1..])
  }

  /**
    Once a write error is flagged it stays, and in every continuation the only saves
    still acknowledged are those that had passed the guard before: every save begun
    after a failed write fails.
   */
  lemma {:induction false} OnlyPassedSavesAfterError(s: State, es: seq<Event>)
    requires s.writeError
    ensures Run(s, es).writeError && Run(s, es).passed <= s.passed
    ensures |Run(s, es).acked| == |s.acked| + |AckedBy(s, es)|
    ensures forall save :: save in AckedBy(s, es) ==> save in s.passed
    decreases |es|
  {
    if es != [] {
      StepAfterError(s, es[0]);
      OnlyPassedSavesAfterError(Step(s, es[0]), es[1..]);
    }
  }

  /** A torn write or a failed open flags the error. */
  lemma FailedWriteFlagsError(s: State, outcome: WriteOutcome)
    requires (s.writer.Running? || s.writer.Draining?) && s.queue != [] && s.queue[0].Append?
    ensures Step(s, WriterStep(outcome)).writeError <==> s.writeError || !outcome.Written?
  {
  }

  /**
    Two overlapping calls can lose an acknowledged save: the writer has drained for
    the first call and not yet dropped its receiver, a save is acknowledged, and a
    second call begins after it, takes the handle and reports success.
   */
  lemma OverlappingShutdownLosesSave(capacity: nat, log0: bytes, payload: bytes)
    requires capacity >= 2
    ensures var s := Run(Opened(capacity, log0),
              [CallStart(1), CallSend(1), WriterStep(Written), WriterStep(Written), SaveGuard(7), SaveSend(7, payload),
               CallStart(2), CallSend(2), CallTake(2), WriterStep(Written), CallJoin(2)]);
            && 2 in s.calls && s.calls[2] == Returned(1, false, true, true)
            && s.acked == [payload] && s.log == log0
  {
    var s0 := Opened(capacity, log0);
    var first := [CallStart(1), CallSend(1), WriterStep(Written), WriterStep(Written), SaveGuard(7), SaveSend(7, payload)];
    var second := [CallStart(2), CallSend(2), CallTake(2), WriterStep(Written), CallJoin(2)];
    RunConcat(s0, first, second);
    assert first + second ==
           [CallStart(1), CallSend(1), WriterStep(Written), WriterStep(Written), SaveGuard(7), SaveSend(7, payload),
            CallStart(2), CallSend(2), CallTake(2), WriterStep(Written), CallJoin(2)];
    RacingSave(s0, payload);
    RacingCall(Run(s0, first), payload);
  }

  /** Call `c` took the writer handle and reported success; `first` says whether it began before any request. */
  ghost predicate Succeeded(s: State, c: nat, first: bool) {
    c in s.calls && s.calls[c].Returned? && s.calls[c].took && s.calls[c].ok && s.calls[c].first == first
  }

  /** The log starts with its content at open and the frames of every save acknowledged before the call began. */
  ghost predicate LostNothing(s: State, log0: bytes, c: nat) {
    c in s.calls && s.calls[c].started <= |s.acked| && log0 + Frames(s.acked[..s.calls[c].started]) <= s.log
  }

  ghost predicate AlwaysSafe(first: bool) {
    forall capacity: nat, log0: bytes, es: seq<Event>, c: nat ::
      Succeeded(Run(Opened(capacity, log0), es), c, first) ==> LostNothing(Run(Opened(capacity, log0), es), log0, c)
  }

  /**
    A successful shutdown vouches, in every interleaving, for all saves acknowledged
    before it exactly when it began before any other shutdown request was enqueued.
   */
  lemma SafeExactlyWhenFirst(first: bool)
    ensures AlwaysSafe(first) <==> first
  {
    if first {
      forall capacity: nat, log0: bytes, es: seq<Event>, c: nat | Succeeded(Run(Opened(capacity, log0), es), c, true)
        ensures LostNothing(Run(Opened(capacity, log0), es), log0, c)
      {
        FirstShutdownLosesNothing(capacity, log0, es, c);
      }
    } else {
      var payload: bytes := [];
      OverlappingShutdownLosesSave(2, [], payload);
      var es := [CallStart(1), CallSend(1), WriterStep(Written), WriterStep(Written), SaveGuard(7), SaveSend(7, payload),
                 CallStart(2), CallSend(2), CallTake(2), WriterStep(Written), CallJoin(2)];
      var s := Run(Opened(2, []), es);
      assert Succeeded(s, 2, false);
      assert !LostNothing(s, [], 2) by {
        assert s.acked[..1] == [payload];
        assert Frames([payload]) == Frame(payload) + Frames([]);
      }
    }
  }

  lemma {:induction false} RunConcat(s: State, a: seq<Event>, b: seq<Event>)
    ensures Run(s, a + b) == Run(Run(s, a), b)
    decreases |a|
  {
    if a == [] {
      assert a + b == b;
    } else {
      assert (a + b)[0] == a[0] && (a + b)[1..] == a[1..] + b;
      RunConcat(Step(s, a[0]), a[1..], b);
    }
  }

  lemma RacingSave(s: State, payload: bytes)
    requires s == Opened(s.capacity, s.log) && s.capacity >= 2
    ensures Run(s, [CallStart(1), CallSend(1), WriterStep(Written), WriterStep(Written), SaveGuard(7), SaveSend(7, payload)]) ==
            s.(calls := map[1 := Sent(0, true)], requested := Some(0), writer := Leaving,
               queue := [Append(payload)], acked := [payload])
  {
    var a, b, c := [CallStart(1), CallSend(1)], [WriterStep(Written), WriterStep(Written)], [SaveGuard(7), SaveSend(7, payload)];
    FirstRequest(s);
    var s2 := Run(s, a);
    WriterLeaves(s2);
    LateSave(Run(s2, b), payload);
    RunConcat(s, a, b);
    RunConcat(s, a + b, c);
    assert a + b + c == [CallStart(1), CallSend(1), WriterStep(Written), WriterStep(Written), SaveGuard(7), SaveSend(7, payload)];
  }

  lemma RunTwo(s: State, a: Event, b: Event)
    ensures Run(s, [a, b]) == Step(Step(s, a), b)
  {
    assert [a, b][1..] == [b] && [b][1..] == [];
    assert Run(Step(s, a), [b]) == Run(Step(Step(s, a), b), []);
  }

  lemma FirstRequest(s: State)
    requires s == Opened(s.capacity, s.log) && s.capacity >= 2
    ensures Run(s, [CallStart(1), CallSend(1)]) == s.(calls := map[1 := Sent(0, true)], requested := Some(0), queue := [Shutdown])
  {
    RunTwo(s, CallStart(1), CallSend(1));
  }

  lemma WriterLeaves(s: State)
    requires s.writer.Running? && s.queue == [Shutdown]
    ensures Run(s, [WriterStep(Written), WriterStep(Written)]) == s.(queue := [], writer := Leaving)
  {
    RunTwo(s, WriterStep(Written), WriterStep(Written));
  }

  lemma LateSave(s: State, payload: bytes)
    requires s.writer.Leaving? && s.queue == [] && s.acked == [] && s.passed == {} && !s.writeError && s.capacity >= 1
    ensures Run(s, [SaveGuard(7), SaveSend(7, payload)]) == s.(queue := [Append(payload)], acked := [payload])
  {
    RunTwo(s, SaveGuard(7), SaveSend(7, payload));
    assert Step(s, SaveGuard(7)).passed - {7} == s.passed;
    assert s.queue + [Append(payload)] == [Append(payload)] && s.acked + [payload] == [payload];
  }

  lemma RacingCall(s: State, payload: bytes)
    requires s.calls == map[1 := Sent(0, true)] && s.requested == Some(0) && s.writer.Leaving? && s.capacity >= 2
    requires s.queue == [Append(payload)] && s.acked == [payload] && s.handle && !s.writeError
    ensures var s' := Run(s, [CallStart(2), CallSend(2), CallTake(2), WriterStep(Written), CallJoin(2)]);
            && 2 in s'.calls && s'.calls[2] == Returned(1, false, true, true)
            && s'.acked == [payload] && s'.log == s.log
  {
    var es := [CallStart(2), CallSend(2), CallTake(2), WriterStep(Written), CallJoin(2)];
    var s1 := Step(s, es[0]);
    var s2 := Step(s1, es[1]);
    assert s2.calls[2] == Sent(1, false) && s2.writer.Leaving?;
    var s3 := Step(s2, es[2]);
    var s4 := Step(s3, es[3]);
    assert s4.calls[2] == Joining(1, false) && s4.writer.Gone?;
    var s5 := Step(s4, es[4]);
    assert es[1..][0] == es[1] && es[1..][1..] == es[2..];
    assert Run(s, es) == Run(s2, es[2..]);
    assert es[2..][1..] == es[3..] && es[3..][1..] == es[4..];
    assert Run(s2, es[2..]) == Run(s4, es[4..]);
    assert es[4..][1..] == [];
    assert Run(s4, es[4..]) == Run(s5, []);
  }
}
