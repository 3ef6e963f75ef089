/**
  What the callers of the inference pool are answered. Every answer goes back to the
  step that produced it: an inference of the worker that held the request, or a session
  lock reached after the panic.
 */
module PoolAnswers {
  import opened InferencePool

  // ----- what happened in a run -----

  predicate InfersNow(q: Pool, e: Event, id: Id, o: Outcome) {
    e.Infer? && Enabled(q, e) && e.outcome == o && q.workers[e.w].id == id
  }

  predicate LocksNow(q: Pool, e: Event, id: Id) {
    e.LockSession? && Enabled(q, e) && q.workers[e.w].id == id
  }

  /** At some step the worker holding the request finished its inference with this outcome. */
  predicate Inferred(p: Pool, es: seq<Event>, id: Id, o: Outcome)
    decreases |es|
  {
    es != [] &&
    (Inferred(p, es[..|es| - 1], id, o) || InfersNow(Run(p, es[..|es| - 1]), es[|es| - 1], id, o))
  }

  /** At some step an inference panicked. */
  predicate PanicHappened(p: Pool, es: seq<Event>)
    decreases |es|
  {
    es != [] &&
    (PanicHappened(p, es[..|es| - 1]) || (es[|es| - 1].Panic? && Enabled(Run(p, es[..|es| - 1]), es[|es| - 1])))
  }

  /** At some step after a panic the worker holding the request got the session lock. */
  predicate LockedAfterPanic(p: Pool, es: seq<Event>, id: Id)
    decreases |es|
  {
    es != [] &&
    (|| LockedAfterPanic(p, es[..|es| - 1], id)
     || (LocksNow(Run(p, es[..|es| - 1]), es[|es| - 1], id) && PanicHappened(p, es[..|es| - 1])))
  }

  predicate Origin(p: Pool, es: seq<Event>, id: Id, o: Outcome) {
    if o.SessionPoisoned? then LockedAfterPanic(p, es, id) else Inferred(p, es, id, o)
  }

  lemma {:induction false} PoisonedExactlyWhen(p: Pool, es: seq<Event>)
    requires !p.poisoned
    ensures Run(p, es).poisoned <==> PanicHappened(p, es)
    decreases |es|
  {
    if es != [] {
      PoisonedExactlyWhen(p, es[..|es| - 1]);
    }
  }

  // ----- every reply and every answer has an origin -----

  ghost predicate RepliesTold(p: Pool, es: seq<Event>, workers: seq<Worker>) {
    forall w :: 0 <= w < |workers| ==> ReplyTold(p, es, workers[w])
  }

  predicate ReplyTold(p: Pool, es: seq<Event>, x: Worker) {
    x.Replying? ==> Origin(p, es, x.id, x.outcome)
  }

  ghost predicate AnswersTold(p: Pool, es: seq<Event>, answered: seq<Answer>) {
    forall i :: 0 <= i < |answered| ==> Origin(p, es, answered[i].id, answered[i].outcome)
  }

  ghost predicate Told(p: Pool, es: seq<Event>, q: Pool) {
    RepliesTold(p, es, q.workers) && AnswersTold(p, es, q.answered)
  }

  lemma OriginStays(p: Pool, es: seq<Event>, e: Event, id: Id, o: Outcome)
    requires Origin(p, es, id, o)
    ensures Origin(p, es + [e], id, o)
  {
    assert (es + [e])[..|es|] == es;
  }

  lemma ReplyToldStays(p: Pool, es: seq<Event>, e: Event, x: Worker)
    requires ReplyTold(p, es, x)
    ensures ReplyTold(p, es + [e], x)
  {
    if x.Replying? { OriginStays(p, es, e, x.id, x.outcome); }
  }

  /** What the stepping worker becomes has an origin. */
  lemma NewOrigin(p: Pool, es: seq<Event>, e: Event)
    requires !p.poisoned && Enabled(Run(p, es), e) && !e.Send? && !e.Disconnect?
    ensures ReplyTold(p, es + [e], Step(Run(p, es), e).workers[e.w])
  {
    PoisonedExactlyWhen(p, es);
    assert (es + [e])[..|es|] == es;
  }

  /** A step changes at most its own worker. */
  lemma OthersKeepPhase(q: Pool, e: Event, w: nat)
    requires w < |q.workers|
    ensures var q' := Step(q, e);
            w < |q'.workers| && (q'.workers[w] == q.workers[w] || (Enabled(q, e) && !e.Send? && !e.Disconnect? && e.w == w))
  {
  }

  lemma StepTellsReplies(p: Pool, es: seq<Event>, e: Event)
    requires !p.poisoned && RepliesTold(p, es, Run(p, es).workers)
    ensures RepliesTold(p, es + [e], Step(Run(p, es), e).workers)
  {
    var q := Run(p, es);
    var after := Step(q, e).workers;
    StepKeepsShape(q, e);
    forall w | 0 <= w < |after| ensures ReplyTold(p, es + [e], after[w]) {
      OthersKeepPhase(q, e, w);
      if after[w] == q.workers[w] {
        ReplyToldStays(p, es, e, q.workers[w]);
      } else {
        NewOrigin(p, es, e);
      }
    }
  }

  /** Answers are only added, and only by a worker that was replying them. */
  lemma AnswersGrow(q: Pool, e: Event)
    ensures var q' := Step(q, e);
            || q'.answered == q.answered
            || (&& e.Reply? && e.w < |q.workers| && q.workers[e.w].Replying?
                && q'.answered == q.answered + [Answer(q.workers[e.w].id, q.workers[e.w].outcome)])
  {
  }

  lemma StepTellsAnswers(p: Pool, es: seq<Event>, e: Event)
    requires Told(p, es, Run(p, es))
    ensures AnswersTold(p, es + [e], Step(Run(p, es), e).answered)
  {
    var q := Run(p, es);
    var after := Step(q, e).answered;
    AnswersGrow(q, e);
    forall i | 0 <= i < |after| ensures Origin(p, es + [e], after[i].id, after[i].outcome) {
      if i < |q.answered| {
        OriginStays(p, es, e, q.answered[i].id, q.answered[i].outcome);
      } else {
        assert ReplyTold(p, es, q.workers[e.w]);
        OriginStays(p, es, e, q.workers[e.w].id, q.workers[e.w].outcome);
      }
    }
  }

  lemma StepTells(p: Pool, es: seq<Event>, e: Event)
    requires !p.poisoned && Told(p, es, Run(p, es))
    ensures Told(p, es + [e], Step(Run(p, es), e))
  {
    StepTellsReplies(p, es, e);
    StepTellsAnswers(p, es, e);
  }

  lemma {:induction false} RunTells(p: Pool, workerCount: nat, es: seq<Event>)
    requires IsStart(p, workerCount)
    ensures Told(p, es, Run(p, es))
    decreases |es|
  {
    if es != [] {
      var n := |es| - 1;
      RunTells(p, workerCount, es[..n]);
      StepTells(p, es[..n], es[n]);
      assert es[..n] + [es[n]] == es;
    }
  }

  // ----- a request passes the session lock once -----

  /** The request was accepted and is neither queued nor before or inside the session. */
  ghost predicate Past(q: Pool, id: Id) {
    && id < q.accepted && id !in q.queue
    && forall w :: 0 <= w < |q.workers| && (q.workers[w].Holding? || q.workers[w].InSession?) ==> q.workers[w].id != id
  }

  lemma PastStays(q: Pool, e: Event, id: Id)
    requires Past(q, id)
    ensures Past(Step(q, e), id)
  {
  }

  lemma {:induction false} NotInList(ids: seq<Id>, id: Id)
    requires Times(ids, id) == 0
    ensures id !in ids
  {
    if ids != [] {
      NotInList(ids[..|ids| - 1], id);
      assert ids == ids[..|ids| - 1] + [ids[|ids| - 1]];
    }
  }

  lemma {:induction false} NobodyHolds(workers: seq<Worker>, id: Id)
    requires Held(workers, id) == 0
    ensures forall w :: 0 <= w < |workers| ==> Mine(workers[w], id) == 0
  {
    if workers != [] {
      var n := |workers| - 1;
      NobodyHolds(workers[..n], id);
      assert forall w :: 0 <= w < n ==> workers[..n][w] == workers[w];
    }
  }

  /** Leaving the lock or the session with a reply puts the request past it, for nobody else has it. */
  lemma BecomesPast(q: Pool, w: nat, id: Id, o: Outcome)
    requires InOnePlace(q, id) && w < |q.workers| && Mine(q.workers[w], id) == 1
    ensures Past(Become(q, w, Replying(id, o)), id)
  {
    HeldUpdate(q.workers, w, Idle, id);
    NotInList(q.queue, id);
    NobodyHolds(q.workers[w := Idle], id);
    var after := q.workers[w := Replying(id, o)];
    forall v | 0 <= v < |after| && (after[v].Holding? || after[v].InSession?) ensures after[v].id != id {
      assert q.workers[w := Idle][v] == after[v];
    }
  }

  /** The run says something about how the request got its answer. */
  predicate Decided(p: Pool, es: seq<Event>, id: Id) {
    || LockedAfterPanic(p, es, id)
    || Inferred(p, es, id, Embedding) || Inferred(p, es, id, InferenceError) || Inferred(p, es, id, SessionPoisoned)
  }

  /** The last step decides the request. */
  predicate DecidedNow(p: Pool, es: seq<Event>, e: Event, id: Id) {
    var q := Run(p, es);
    (LocksNow(q, e, id) && PanicHappened(p, es)) || (e.Infer? && InfersNow(q, e, id, e.outcome))
  }

  lemma DecidedSnoc(p: Pool, es: seq<Event>, e: Event, id: Id)
    ensures Decided(p, es + [e], id) <==> Decided(p, es, id) || DecidedNow(p, es, e, id)
  {
    assert (es + [e])[..|es|] == es;
  }

  lemma DecidedNowIsPast(p: Pool, workerCount: nat, es: seq<Event>, e: Event, id: Id)
    requires IsStart(p, workerCount) && DecidedNow(p, es, e, id)
    ensures !Past(Run(p, es), id) && Past(Step(Run(p, es), e), id)
  {
    var q := Run(p, es);
    ReachableInv(p, workerCount, es);
    PoisonedExactlyWhen(p, es);
    assert InOnePlace(q, id);
    BecomesPast(q, e.w, id, Step(q, e).workers[e.w].outcome);
  }

  lemma {:induction false} DecidedIsPast(p: Pool, workerCount: nat, es: seq<Event>, id: Id)
    requires IsStart(p, workerCount) && Decided(p, es, id)
    ensures Past(Run(p, es), id)
    decreases |es|
  {
    var n := |es| - 1;
    assert es[..n] + [es[n]] == es;
    DecidedSnoc(p, es[..n], es[n], id);
    if Decided(p, es[..n], id) {
      DecidedIsPast(p, workerCount, es[..n], id);
      PastStays(Run(p, es[..n]), es[n], id);
    } else {
      DecidedNowIsPast(p, workerCount, es[..n], es[n], id);
    }
  }

  /** The two ways exclude each other, and an inference has one outcome. */
  ghost predicate OneWay(p: Pool, es: seq<Event>, id: Id) {
    && (LockedAfterPanic(p, es, id) ==> forall o :: !Inferred(p, es, id, o))
    && (forall o, o' :: Inferred(p, es, id, o) && Inferred(p, es, id, o') ==> o == o')
    && !Inferred(p, es, id, SessionPoisoned)
  }

  lemma UndecidedIsBlank(p: Pool, es: seq<Event>, id: Id)
    requires !Decided(p, es, id)
    ensures !LockedAfterPanic(p, es, id) && forall o :: !Inferred(p, es, id, o)
  {
    forall o ensures !Inferred(p, es, id, o) {
      match o
      case Embedding =>
      case InferenceError =>
      case SessionPoisoned =>
    }
  }

  lemma {:induction false} OneWayOnly(p: Pool, workerCount: nat, es: seq<Event>, id: Id)
    requires IsStart(p, workerCount)
    ensures OneWay(p, es, id)
    decreases |es|
  {
    if es != [] {
      var n := |es| - 1;
      OneWayOnly(p, workerCount, es[..n], id);
      if DecidedNow(p, es[..n], es[n], id) {
        DecidedNowIsPast(p, workerCount, es[..n], es[n], id);
        if Decided(p, es[..n], id) {
          DecidedIsPast(p, workerCount, es[..n], id);
        }
        UndecidedIsBlank(p, es[..n], id);
      }
    }
  }

  /**
    In every run, an answer says that the session is poisoned exactly when its worker got
    the session lock after the panic, and it carries an embedding or an inference error
    exactly when the inference of the worker holding that request ended so.
   */
  lemma AnswerExactlyWhen(p: Pool, workerCount: nat, es: seq<Event>, i: nat)
    requires IsStart(p, workerCount) && i < |Run(p, es).answered|
    ensures var a := Run(p, es).answered[i];
            && (a.outcome.SessionPoisoned? <==> LockedAfterPanic(p, es, a.id))
            && (forall o: Outcome :: !o.SessionPoisoned? ==> (a.outcome == o <==> Inferred(p, es, a.id, o)))
  {
    var a := Run(p, es).answered[i];
    RunTells(p, workerCount, es);
    assert Origin(p, es, a.id, a.outcome);
    OneWayOnly(p, workerCount, es, a.id);
  }

  /** After the panic no embedding comes out of the session any more. */
  lemma NoEmbeddingAfterPanic(p: Pool, workerCount: nat, es: seq<Event>, i: nat)
    requires IsStart(p, workerCount) && i < |Run(p, es).answered|
    requires LockedAfterPanic(p, es, Run(p, es).answered[i].id)
    ensures Run(p, es).answered[i].outcome == SessionPoisoned
  {
    AnswerExactlyWhen(p, workerCount, es, i);
  }

  /**
    A request is accepted exactly when the pool is in use, a queue slot is free, and its
    only worker has not died; it then waits last in the queue.
   */
  lemma AcceptedExactlyWhen(p: Pool, workerCount: nat, es: seq<Event>)
    requires IsStart(p, workerCount)
    ensures var q := Run(p, es);
            var q' := Step(q, Send);
            var accepts := q.connected && |q.queue| < workerCount && !(p.serving && workerCount == 1 && q.poisoned);
            && (q'.accepted == q.accepted + 1 <==> accepts)
            && (accepts ==> q'.queue == q.queue + [q.accepted])
            && (!accepts ==> q' == q)
  {
    ClosedExactlyWhen(p, workerCount, es);
    RunKeepsShape(p, es);
  }
}
