/**
  The inference worker pool as an interleaving protocol. Callers put requests on a
  bounded queue, worker threads take them under a receiver lock, run inference
  under a session lock and reply; an inference may panic, which poisons the session
  lock; dropping the pool disconnects the queue. When the session cannot be built, a
  single drainer thread takes the requests and drops them.
 */
module InferencePool {

  /** Requests are numbered in the order the queue accepts them. */
  type Id = nat

  datatype Outcome = Embedding | InferenceError | SessionPoisoned

  datatype Worker =
    | Idle
    | Receiving
    | Holding(id: Id)
    | InSession(id: Id)
    | Replying(id: Id, outcome: Outcome)
    | Dead
    | Exited

  datatype Answer = Answer(id: Id, outcome: Outcome)

  datatype Pool = Pool(
    serving: bool,
    capacity: nat,
    queue: seq<Id>,
    workers: seq<Worker>,
    poisoned: bool,
    connected: bool,
    accepted: nat,
    answered: seq<Answer>,
    dropped: seq<Id>)

  datatype Event =
    | Send
    | Disconnect
    | LockReceiver(w: nat)
    | Take(w: nat)
    | HangUp(w: nat)
    | LockSession(w: nat)
    | Infer(w: nat, outcome: Outcome)
    | Panic(w: nat)
    | Reply(w: nat)

  predicate Alive(x: Worker) {
    !x.Dead? && !x.Exited?
  }

  /** All threads have ended, so the receiver is gone. */
  predicate Gone(workers: seq<Worker>) {
    forall i :: 0 <= i < |workers| ==> !Alive(workers[i])
  }

  predicate ReceiverFree(workers: seq<Worker>) {
    forall i :: 0 <= i < |workers| ==> !workers[i].Receiving?
  }

  predicate SessionFree(workers: seq<Worker>) {
    forall i :: 0 <= i < |workers| ==> !workers[i].InSession?
  }

  function AllIdle(workerCount: nat): (ws: seq<Worker>)
    ensures |ws| == workerCount && forall i :: 0 <= i < |ws| ==> ws[i] == Idle
  {
    seq(workerCount, _ => Idle)
  }

  /** A pool whose session was built: one thread per queue slot. */
  function Serving(workerCount: nat): Pool {
    Pool(true, workerCount, [], AllIdle(workerCount), false, true, 0, [], [])
  }

  /** A pool whose session could not be built: one drainer thread. */
  function Draining(workerCount: nat): Pool {
    Pool(false, workerCount, [], AllIdle(1), false, true, 0, [], [])
  }

  predicate Enabled(p: Pool, e: Event) {
    match e
    case Send => p.connected && !Gone(p.workers) && |p.queue| < p.capacity
    case Disconnect => p.connected
    case LockReceiver(w) => w < |p.workers| && p.workers[w].Idle? && ReceiverFree(p.workers)
    case Take(w) => w < |p.workers| && p.workers[w].Receiving? && p.queue != []
    case HangUp(w) => w < |p.workers| && p.workers[w].Receiving? && p.queue == [] && !p.connected
    case LockSession(w) => w < |p.workers| && p.workers[w].Holding? && SessionFree(p.workers)
    case Infer(w, outcome) => w < |p.workers| && p.workers[w].InSession? && !outcome.SessionPoisoned?
    case Panic(w) => w < |p.workers| && p.workers[w].InSession?
    case Reply(w) => w < |p.workers| && p.workers[w].Replying?
  }

  function Become(p: Pool, w: nat, x: Worker): Pool
    requires w < |p.workers|
  {
    p.(workers := p.workers[w := x])
  }

  function Taken(p: Pool, w: nat): Pool
    requires w < |p.workers| && p.queue != []
  {
    var id := p.queue[0];
    if p.serving then Become(p, w, Holding(id)).(queue := p.queue[1..])
    else Become(p, w, Idle).(queue := p.queue[1..], dropped := p.dropped + [id])
  }

  /** The request is dropped with the thread; with the last thread the receiver and its queue go too. */
  function Panicked(p: Pool, w: nat): Pool
    requires w < |p.workers| && p.workers[w].InSession?
  {
    var q := Become(p, w, Dead).(poisoned := true, dropped := p.dropped + [p.workers[w].id]);
    if Gone(q.workers) then q.(queue := [], dropped := q.dropped + q.queue) else q
  }

  function Effect(p: Pool, e: Event): Pool
    requires Enabled(p, e)
  {
    match e
    case Send => p.(queue := p.queue + [p.accepted], accepted := p.accepted + 1)
    case Disconnect => p.(connected := false)
    case LockReceiver(w) => Become(p, w, Receiving)
    case Take(w) => Taken(p, w)
    case HangUp(w) => Become(p, w, Exited)
    case LockSession(w) =>
      var id := p.workers[w].id;
      Become(p, w, if p.poisoned then Replying(id, SessionPoisoned) else InSession(id))
    case Infer(w, outcome) => Become(p, w, Replying(p.workers[w].id, outcome))
    case Panic(w) => Panicked(p, w)
    case Reply(w) => Become(p, w, Idle).(answered := p.answered + [Answer(p.workers[w].id, p.workers[w].outcome)])
  }

  /** An event that is not possible changes nothing. */
  function Step(p: Pool, e: Event): Pool {
    if Enabled(p, e) then Effect(p, e) else p
  }

  function Run(p: Pool, es: seq<Event>): Pool
    decreases |es|
  {
    if es == [] then p else Step(Run(p, es[..|es| - 1]), es[|es| - 1])
  }

  // ----- where a request is -----

  function Mine(x: Worker, id: Id): nat {
    if (x.Holding? || x.InSession? || x.Replying?) && x.id == id then 1 else 0
  }

  /** How many workers hold a request. */
  function Held(workers: seq<Worker>, id: Id): nat {
    if workers == [] then 0 else Held(workers[..|workers| - 1], id) + Mine(workers[|workers| - 1], id)
  }

  /** How often a request was answered. */
  function Answers(answered: seq<Answer>, id: Id): nat {
    if answered == [] then 0
    else Answers(answered[..|answered| - 1], id) + if answered[|answered| - 1].id == id then 1 else 0
  }

  /** How often a request occurs in a list. */
  function Times(ids: seq<Id>, id: Id): nat {
    if ids == [] then 0 else Times(ids[..|ids| - 1], id) + if ids[|ids| - 1] == id then 1 else 0
  }

  /** In how many places a request is. */
  function Places(p: Pool, id: Id): nat {
    Times(p.queue, id) + Held(p.workers, id) + Answers(p.answered, id) + Times(p.dropped, id)
  }

  predicate InOnePlace(p: Pool, id: Id) {
    Places(p, id) == if id < p.accepted then 1 else 0
  }

  lemma {:induction false} HeldUpdate(workers: seq<Worker>, w: nat, x: Worker, id: Id)
    requires w < |workers|
    ensures Held(workers[w := x], id) + Mine(workers[w], id) == Held(workers, id) + Mine(x, id)
    decreases |workers|
  {
    var n := |workers| - 1;
    var after := workers[w := x];
    if w < n {
      HeldUpdate(workers[..n], w, x, id);
      assert after[..n] == workers[..n][w := x];
    } else {
      assert after[..n] == workers[..n];
    }
  }

  lemma AnswersSnoc(answered: seq<Answer>, a: Answer, id: Id)
    ensures Answers(answered + [a], id) == Answers(answered, id) + if a.id == id then 1 else 0
  {
    assert (answered + [a])[..|answered|] == answered;
  }

  lemma {:induction false} TimesConcat(a: seq<Id>, b: seq<Id>, id: Id)
    ensures Times(a + b, id) == Times(a, id) + Times(b, id)
    decreases |b|
  {
    if b == [] {
      assert a + b == a;
    } else {
      TimesConcat(a, b[..|b| - 1], id);
      assert (a + b)[..|a + b| - 1] == a + b[..|b| - 1];
    }
  }

  lemma TimesSnoc(a: seq<Id>, x: Id, id: Id)
    ensures Times(a + [x], id) == Times(a, id) + if x == id then 1 else 0
  {
    assert (a + [x])[..|a|] == a;
  }

  lemma TimesHead(a: seq<Id>, id: Id)
    requires a != []
    ensures Times(a, id) == Times(a[1..], id) + if a[0] == id then 1 else 0
  {
    assert a == [] + [a[0]] + a[1..];
    TimesConcat([] + [a[0]], a[1..], id);
    TimesSnoc([], a[0], id);
  }

  /** No request is created, lost or doubled by any step. */
  lemma StepConserves(p: Pool, e: Event, id: Id)
    requires InOnePlace(p, id)
    ensures InOnePlace(Step(p, e), id)
  {
    if Enabled(p, e) {
      match e
      case Send => TimesSnoc(p.queue, p.accepted, id);
      case Disconnect =>
      case LockReceiver(w) => BecomeConserves(p, w, Receiving, id);
      case Take(w) => TakeConserves(p, w, id);
      case HangUp(w) => BecomeConserves(p, w, Exited, id);
      case LockSession(w) => BecomeConserves(p, w, Step(p, e).workers[w], id);
      case Infer(w, outcome) => BecomeConserves(p, w, Step(p, e).workers[w], id);
      case Panic(w) => PanicConserves(p, w, id);
      case Reply(w) => ReplyConserves(p, w, id);
    }
  }

  lemma BecomeConserves(p: Pool, w: nat, x: Worker, id: Id)
    requires w < |p.workers| && Mine(x, id) == Mine(p.workers[w], id)
    ensures Places(Become(p, w, x), id) == Places(p, id)
  {
    HeldUpdate(p.workers, w, x, id);
  }

  lemma ReplyConserves(p: Pool, w: nat, id: Id)
    requires Enabled(p, Reply(w))
    ensures Places(Effect(p, Reply(w)), id) == Places(p, id)
  {
    HeldUpdate(p.workers, w, Idle, id);
    AnswersSnoc(p.answered, Answer(p.workers[w].id, p.workers[w].outcome), id);
  }

  lemma TakeConserves(p: Pool, w: nat, id: Id)
    requires Enabled(p, Take(w))
    ensures Places(Taken(p, w), id) == Places(p, id)
  {
    TimesHead(p.queue, id);
    if p.serving {
      HeldUpdate(p.workers, w, Holding(p.queue[0]), id);
    } else {
      HeldUpdate(p.workers, w, Idle, id);
      TimesSnoc(p.dropped, p.queue[0], id);
    }
  }

  lemma ReceiverGoneConserves(p: Pool, id: Id)
    ensures Places(p.(queue := [], dropped := p.dropped + p.queue), id) == Places(p, id)
  {
    TimesConcat(p.dropped, p.queue, id);
  }

  lemma PanicConserves(p: Pool, w: nat, id: Id)
    requires Enabled(p, Panic(w))
    ensures Places(Panicked(p, w), id) == Places(p, id)
  {
    HeldUpdate(p.workers, w, Dead, id);
    TimesSnoc(p.dropped, p.workers[w].id, id);
    ReceiverGoneConserves(Become(p, w, Dead).(poisoned := true, dropped := p.dropped + [p.workers[w].id]), id);
  }

  // ----- counting deaths -----

  function Deaths(workers: seq<Worker>): nat {
    if workers == [] then 0 else Deaths(workers[..|workers| - 1]) + if workers[|workers| - 1].Dead? then 1 else 0
  }

  lemma {:induction false} DeathsUpdate(workers: seq<Worker>, w: nat, x: Worker)
    requires w < |workers| && !workers[w].Dead?
    ensures Deaths(workers[w := x]) == Deaths(workers) + if x.Dead? then 1 else 0
    decreases |workers|
  {
    var n := |workers| - 1;
    var after := workers[w := x];
    if w < n {
      DeathsUpdate(workers[..n], w, x);
      assert after[..n] == workers[..n][w := x];
    } else {
      assert after[..n] == workers[..n];
    }
  }

  lemma {:induction false} AllDead(workers: seq<Worker>)
    ensures Deaths(workers) <= |workers|
    ensures Deaths(workers) == |workers| <==> forall i :: 0 <= i < |workers| ==> workers[i].Dead?
  {
    if workers != [] {
      var n := |workers| - 1;
      AllDead(workers[..n]);
      if Deaths(workers) == |workers| {
        forall i | 0 <= i < |workers| ensures workers[i].Dead? {
          if i < n { assert workers[..n][i].Dead?; }
        }
      }
    }
  }

  lemma {:induction false} IdleHoldNothing(workerCount: nat, id: Id)
    ensures Deaths(AllIdle(workerCount)) == 0 && Held(AllIdle(workerCount), id) == 0
  {
    if workerCount > 0 {
      IdleHoldNothing(workerCount - 1, id);
      assert AllIdle(workerCount)[..workerCount - 1] == AllIdle(workerCount - 1);
    }
  }

  // ----- the joint invariant -----

  predicate AtMostOneReceiving(workers: seq<Worker>) {
    forall i, j :: 0 <= i < |workers| && 0 <= j < |workers| && workers[i].Receiving? && workers[j].Receiving? ==> i == j
  }

  predicate AtMostOneInSession(workers: seq<Worker>) {
    forall i, j :: 0 <= i < |workers| && 0 <= j < |workers| && workers[i].InSession? && workers[j].InSession? ==> i == j
  }

  /** Both locks exclude, and nobody is inside a poisoned session. */
  predicate Exclusion(p: Pool) {
    && AtMostOneReceiving(p.workers)
    && AtMostOneInSession(p.workers)
    && (p.poisoned ==> SessionFree(p.workers))
  }

  /** Only the panic that poisoned the session has killed a worker; a drainer never holds a request. */
  predicate Mortality(p: Pool) {
    && Deaths(p.workers) == (if p.poisoned then 1 else 0)
    && (!p.serving ==> forall i :: 0 <= i < |p.workers| ==> p.workers[i].Idle? || p.workers[i].Receiving? || p.workers[i].Exited?)
  }

  /** The queue holds the latest requests in order of acceptance, at most one per slot. */
  predicate Fifo(p: Pool) {
    && |p.queue| <= p.capacity && |p.queue| <= p.accepted
    && (forall i :: 0 <= i < |p.queue| ==> p.queue[i] == p.accepted - |p.queue| + i)
  }

  predicate Endings(p: Pool) {
    && |p.workers| > 0
    && (Gone(p.workers) ==> p.queue == [])
    && (forall i :: 0 <= i < |p.workers| && p.workers[i].Exited? ==> !p.connected && p.queue == [])
  }

  /** Only a panic loses a request: the one it was about, and with a single worker also those still queued. */
  predicate Losses(p: Pool) {
    p.serving ==>
      && (!p.poisoned ==> p.dropped == [])
      && (|p.workers| > 1 ==> |p.dropped| == Deaths(p.workers))
  }

  ghost predicate Inv(p: Pool) {
    (forall id: Id :: InOnePlace(p, id)) && Exclusion(p) && Mortality(p) && Fifo(p) && Endings(p) && Losses(p)
  }

  lemma StartInv(workerCount: nat)
    requires workerCount > 0
    ensures Inv(Serving(workerCount)) && Inv(Draining(workerCount))
  {
    IdleHoldNothing(workerCount, 0);
    IdleHoldNothing(1, 0);
    forall id: Id ensures InOnePlace(Serving(workerCount), id) && InOnePlace(Draining(workerCount), id) {
      IdleHoldNothing(workerCount, id);
      IdleHoldNothing(1, id);
    }
    assert Alive(Serving(workerCount).workers[0]) && Alive(Draining(workerCount).workers[0]);
  }

  lemma StepKeepsExclusion(p: Pool, e: Event)
    requires Exclusion(p)
    ensures Exclusion(Step(p, e))
  {
    if Enabled(p, e) && !e.Send? && !e.Disconnect? {
      ChangeExcludes(p.workers, e.w, Step(p, e).workers[e.w]);
    }
  }

  /** One worker changes; it may enter a lock only when that is free. */
  lemma ChangeExcludes(ws: seq<Worker>, w: nat, x: Worker)
    requires w < |ws| && AtMostOneReceiving(ws) && AtMostOneInSession(ws)
    requires (x.Receiving? ==> ReceiverFree(ws)) && (x.InSession? ==> SessionFree(ws))
    ensures AtMostOneReceiving(ws[w := x]) && AtMostOneInSession(ws[w := x])
    ensures (SessionFree(ws) || ws[w].InSession?) && !x.InSession? ==> SessionFree(ws[w := x])
  {
  }

  lemma StepKeepsMortality(p: Pool, e: Event)
    requires Exclusion(p) && Mortality(p)
    ensures Mortality(Step(p, e))
  {
    if Enabled(p, e) && !e.Send? && !e.Disconnect? {
      DeathsUpdate(p.workers, e.w, Step(p, e).workers[e.w]);
    }
  }

  lemma StepKeepsFifo(p: Pool, e: Event)
    requires Fifo(p)
    ensures Fifo(Step(p, e))
  {
  }

  lemma StepKeepsEndings(p: Pool, e: Event)
    requires Endings(p)
    ensures Endings(Step(p, e))
  {
    if Enabled(p, e) && !e.Send? && !e.Disconnect? {
      var after := Step(p, e).workers;
      if !e.HangUp? && !e.Panic? {
        assert Alive(after[e.w]);
      }
      forall i | 0 <= i < |after| && after[i].Exited? ensures !p.connected && Step(p, e).queue == [] {
        if i != e.w { assert p.workers[i].Exited?; }
      }
    }
  }

  lemma StepKeepsLosses(p: Pool, e: Event)
    requires Exclusion(p) && Mortality(p) && Endings(p) && Losses(p)
    ensures Losses(Step(p, e))
  {
    if Enabled(p, e) && !e.Send? && !e.Disconnect? {
      var after := Step(p, e).workers;
      DeathsUpdate(p.workers, e.w, after[e.w]);
      if e.Panic? && Gone(after) && p.queue != [] {
        forall i | 0 <= i < |after| ensures after[i].Dead? {
          assert !Alive(after[i]);
        }
        AllDead(after);
      }
    }
  }

  lemma StepKeepsInv(p: Pool, e: Event)
    requires Inv(p)
    ensures Inv(Step(p, e))
  {
    forall id: Id ensures InOnePlace(Step(p, e), id) {
      StepConserves(p, e, id);
    }
    StepKeepsExclusion(p, e);
    StepKeepsMortality(p, e);
    StepKeepsFifo(p, e);
    StepKeepsEndings(p, e);
    StepKeepsLosses(p, e);
  }

  lemma {:induction false} RunKeepsInv(p: Pool, es: seq<Event>)
    requires Inv(p)
    ensures Inv(Run(p, es))
    decreases |es|
  {
    if es != [] {
      RunKeepsInv(p, es[..|es| - 1]);
      StepKeepsInv(Run(p, es[..|es| - 1]), es[|es| - 1]);
    }
  }

  /** A new pool of either kind; the source uses at least one worker. */
  predicate IsStart(p: Pool, workerCount: nat) {
    workerCount > 0 && (p == Serving(workerCount) || p == Draining(workerCount))
  }

  lemma ReachableInv(p: Pool, workerCount: nat, es: seq<Event>)
    requires IsStart(p, workerCount)
    ensures Inv(Run(p, es))
  {
    StartInv(workerCount);
    RunKeepsInv(p, es);
  }

  // ----- safety of every interleaving -----

  /**
    Each accepted request is in exactly one place, and in that place once: queued,
    held by one worker, answered or dropped. In particular none is answered twice.
   */
  lemma ExactlyOnePlace(p: Pool, workerCount: nat, es: seq<Event>, id: Id)
    requires IsStart(p, workerCount)
    ensures var q := Run(p, es);
            Times(q.queue, id) + Held(q.workers, id) + Answers(q.answered, id) + Times(q.dropped, id) ==
            if id < q.accepted then 1 else 0
  {
    ReachableInv(p, workerCount, es);
    assert InOnePlace(Run(p, es), id);
  }

  /** The queue is bounded and in order, both locks exclude, and at most one worker ever dies of a panic. */
  lemma MutualExclusion(p: Pool, workerCount: nat, es: seq<Event>)
    requires IsStart(p, workerCount)
    ensures var q := Run(p, es);
            && |q.queue| <= workerCount
            && (forall i :: 0 <= i < |q.queue| ==> q.queue[i] == q.accepted - |q.queue| + i)
            && AtMostOneReceiving(q.workers)
            && AtMostOneInSession(q.workers)
            && Deaths(q.workers) <= 1
            && (Deaths(q.workers) == 1 ==> SessionFree(q.workers))
  {
    ReachableInv(p, workerCount, es);
    RunKeepsShape(p, es);
  }

  lemma StepKeepsShape(p: Pool, e: Event)
    ensures var q := Step(p, e); q.capacity == p.capacity && q.serving == p.serving && |q.workers| == |p.workers|
  {
  }

  lemma {:induction false} RunKeepsShape(p: Pool, es: seq<Event>)
    ensures var q := Run(p, es); q.capacity == p.capacity && q.serving == p.serving && |q.workers| == |p.workers|
    decreases |es|
  {
    if es != [] {
      RunKeepsShape(p, es[..|es| - 1]);
      StepKeepsShape(Run(p, es[..|es| - 1]), es[|es| - 1]);
    }
  }

  /** While the pool is in use, callers are turned away exactly when its only worker died of a panic. */
  lemma ClosedExactlyWhen(p: Pool, workerCount: nat, es: seq<Event>)
    requires IsStart(p, workerCount)
    ensures var q := Run(p, es);
            q.connected ==> (Gone(q.workers) <==> p.serving && workerCount == 1 && q.poisoned)
  {
    ReachableInv(p, workerCount, es);
    RunKeepsShape(p, es);
    var q := Run(p, es);
    if q.connected {
      AllDead(q.workers);
      assert Gone(q.workers) <==> forall i :: 0 <= i < |q.workers| ==> q.workers[i].Dead?;
      if !p.serving { assert !q.workers[0].Dead?; }
    }
  }

  /** A serving pool loses nothing without a panic, and at most one request with one, unless it has a single worker. */
  lemma AtMostOneLost(workerCount: nat, es: seq<Event>)
    requires workerCount > 0
    ensures var q := Run(Serving(workerCount), es);
            && (!q.poisoned ==> q.dropped == [])
            && (workerCount > 1 ==> |q.dropped| <= 1)
  {
    ReachableInv(Serving(workerCount), workerCount, es);
    RunKeepsShape(Serving(workerCount), es);
  }

  predicate Calm(es: seq<Event>) {
    forall i :: 0 <= i < |es| ==> !es[i].Panic?
  }

  lemma {:induction false} CalmNeverPoisons(p: Pool, es: seq<Event>)
    requires Calm(es) && !p.poisoned
    ensures !Run(p, es).poisoned
    decreases |es|
  {
    if es != [] {
      CalmNeverPoisons(p, es[..|es| - 1]);
    }
  }

  // ----- after disconnect: every join ends -----

  /** Steps a worker can still make before it exits, if it takes no further request. */
  function Ahead(x: Worker): nat {
    match x
    case Idle => 2
    case Receiving => 1
    case Holding(_) => 5
    case InSession(_) => 4
    case Replying(_, _) => 3
    case Dead => 0
    case Exited => 0
  }

  function AllAhead(workers: seq<Worker>): nat {
    if workers == [] then 0 else AllAhead(workers[..|workers| - 1]) + Ahead(workers[|workers| - 1])
  }

  function Remaining(p: Pool): nat {
    5 * |p.queue| + AllAhead(p.workers)
  }

  lemma {:induction false} AheadUpdate(workers: seq<Worker>, w: nat, x: Worker)
    requires w < |workers|
    ensures AllAhead(workers[w := x]) == AllAhead(workers) - Ahead(workers[w]) + Ahead(x)
    decreases |workers|
  {
    var n := |workers| - 1;
    var after := workers[w := x];
    if w < n {
      AheadUpdate(workers[..n], w, x);
      assert after[..n] == workers[..n][w := x];
    } else {
      assert after[..n] == workers[..n];
    }
  }

  lemma {:induction false} AheadBound(workers: seq<Worker>)
    ensures AllAhead(workers) <= 5 * |workers|
  {
    if workers != [] {
      AheadBound(workers[..|workers| - 1]);
    }
  }

  /** Once disconnected, every step that happens leaves less to do, and the pool stays disconnected. */
  lemma StepDecreases(p: Pool, e: Event)
    requires !p.connected && Enabled(p, e)
    ensures !Step(p, e).connected && Remaining(Step(p, e)) < Remaining(p)
  {
    AheadUpdate(p.workers, e.w, Step(p, e).workers[e.w]);
  }

  /** Every event of the list was possible when it came. */
  predicate Effective(p: Pool, es: seq<Event>)
    decreases |es|
  {
    es == [] || (Effective(p, es[..|es| - 1]) && Enabled(Run(p, es[..|es| - 1]), es[|es| - 1]))
  }

  lemma {:induction false} RunDecreases(p: Pool, es: seq<Event>)
    requires !p.connected && Effective(p, es)
    ensures !Run(p, es).connected && Remaining(Run(p, es)) + |es| <= Remaining(p)
    decreases |es|
  {
    if es != [] {
      RunDecreases(p, es[..|es| - 1]);
      StepDecreases(Run(p, es[..|es| - 1]), es[|es| - 1]);
    }
  }

  /** While any worker is left, some step is possible: nobody waits for a lock that is never released. */
  lemma SomeStepPossible(p: Pool) returns (e: Event)
    requires !p.connected && !Gone(p.workers)
    ensures Enabled(p, e)
  {
    if !SessionFree(p.workers) {
      var w :| 0 <= w < |p.workers| && p.workers[w].InSession?;
      e := Infer(w, InferenceError);
    } else if !ReceiverFree(p.workers) {
      var w :| 0 <= w < |p.workers| && p.workers[w].Receiving?;
      e := if p.queue == [] then HangUp(w) else Take(w);
    } else {
      var w :| 0 <= w < |p.workers| && Alive(p.workers[w]);
      if p.workers[w].Holding? {
        e := LockSession(w);
      } else if p.workers[w].Replying? {
        e := Reply(w);
      } else {
        e := LockReceiver(w);
      }
    }
  }

  /** No further step is possible. */
  ghost predicate Settled(p: Pool) {
    forall e: Event :: !Enabled(p, e)
  }

  /**
    Dropping the pool ends: from any reachable disconnected state, a run has at most
    five steps per queued request and per worker, and where it can go no further
    every thread has ended and each accepted request has been answered or dropped.
   */
  lemma EveryJoinEnds(p: Pool, workerCount: nat, before: seq<Event>, es: seq<Event>)
    requires IsStart(p, workerCount) && !Run(p, before).connected && Effective(Run(p, before), es)
    ensures var q := Run(p, before);
            && |es| <= 5 * (|q.queue| + |q.workers|)
            && (Settled(Run(q, es)) ==>
                  && Gone(Run(q, es).workers)
                  && forall id: Id :: id < q.accepted ==> Answers(Run(q, es).answered, id) + Times(Run(q, es).dropped, id) == 1)
  {
    var q := Run(p, before);
    ReachableInv(p, workerCount, before);
    AheadBound(q.workers);
    RunDecreases(q, es);
    var r := Run(q, es);
    RunKeepsInv(q, es);
    if Settled(r) {
      if !Gone(r.workers) {
        var e := SomeStepPossible(r);
      }
      NothingAccepted(q, es);
      forall id: Id | id < q.accepted ensures Answers(r.answered, id) + Times(r.dropped, id) == 1 {
        assert InOnePlace(r, id);
        GoneHoldsNothing(r.workers, id);
      }
    }
  }

  lemma {:induction false} GoneHoldsNothing(workers: seq<Worker>, id: Id)
    requires Gone(workers)
    ensures Held(workers, id) == 0
  {
    if workers != [] {
      var init := workers[..|workers| - 1];
      assert !Alive(workers[|workers| - 1]);
      forall i | 0 <= i < |init| ensures !Alive(init[i]) {
        assert !Alive(workers[i]);
      }
      GoneHoldsNothing(init, id);
    }
  }

  lemma {:induction false} NothingAccepted(p: Pool, es: seq<Event>)
    requires !p.connected
    ensures !Run(p, es).connected && Run(p, es).accepted == p.accepted
    decreases |es|
  {
    if es != [] {
      NothingAccepted(p, es[..|es| - 1]);
    }
  }

  /** Without a panic, a serving pool that is dropped and joined has answered every accepted request exactly once. */
  lemma CalmShutdownAnswersAll(workerCount: nat, es: seq<Event>, id: Id)
    requires workerCount > 0 && Calm(es)
    requires var q := Run(Serving(workerCount), es); !q.connected && Gone(q.workers)
    ensures var q := Run(Serving(workerCount), es); id < q.accepted ==> Answers(q.answered, id) == 1
  {
    var q := Run(Serving(workerCount), es);
    ReachableInv(Serving(workerCount), workerCount, es);
    RunKeepsShape(Serving(workerCount), es);
    CalmNeverPoisons(Serving(workerCount), es);
    assert InOnePlace(q, id);
    GoneHoldsNothing(q.workers, id);
  }

  /** A pool whose session could not be built answers nobody; joined, it has dropped every request. */
  lemma DrainerAnswersNobody(workerCount: nat, es: seq<Event>, id: Id)
    requires workerCount > 0
    ensures var q := Run(Draining(workerCount), es);
            && q.answered == []
            && (Gone(q.workers) && id < q.accepted ==> Times(q.dropped, id) == 1)
  {
    DrainerNeverReplies(Draining(workerCount), workerCount, es);
    var q := Run(Draining(workerCount), es);
    ReachableInv(Draining(workerCount), workerCount, es);
    assert InOnePlace(q, id);
    if Gone(q.workers) { GoneHoldsNothing(q.workers, id); }
  }

  lemma {:induction false} DrainerNeverReplies(p: Pool, workerCount: nat, es: seq<Event>)
    requires workerCount > 0 && p == Draining(workerCount)
    ensures Run(p, es).answered == []
    decreases |es|
  {
    if es != [] {
      var init := es[..|es| - 1];
      DrainerNeverReplies(p, workerCount, init);
      ReachableInv(p, workerCount, init);
      RunKeepsShape(p, init);
    }
  }
}
