/**
  What a record says about its page: its slot is its canonical url, and a turn leaves
  the run, the digest, the number of attempts and the class of a failure as they were.
 */
module Bookkeeping {
  import opened Text
  import opened PageRecords
  import opened CommitProtocol
  import opened ExportRun

  // ----- records are filed under their canonical url -----

  ghost predicate Filed(m: Records) {
    forall k :: k in m ==> m[k].canonicalUrl == k
  }

  ghost predicate AllFiled(w: World) {
    Filed(w.store) && (w.run.Some? ==> Filed(w.run.value.records))
  }

  lemma StagedIsFiled(s: Session, item: Item, error: ExporterError, now: int)
    requires Filed(s.records)
    ensures CommitRecord(s, item, now).Some? ==> CommitRecord(s, item, now).value.canonicalUrl == item.key
    ensures PromotedRecord(s, item, now).Some? ==> PromotedRecord(s, item, now).value.canonicalUrl == item.key
    ensures FailedRecord(s, item, error, now).Some? ==> FailedRecord(s, item, error, now).value.canonicalUrl == item.key
  {
  }

  lemma StageKeepsFiled(w: World, key: string, r: Option<Record>, next: Phase)
    requires w.run.Some? && AllFiled(w) && (r.Some? ==> r.value.canonicalUrl == key)
    ensures AllFiled(Stage(w, key, r, next))
  {
  }

  lemma AdvanceKeepsFiled(w: World, now: int)
    requires w.run.Some? && AllFiled(w)
    ensures AllFiled(Advanced(w, now))
  {
    var s := w.run.value;
    match w.phase
    case Flushed(item) =>
      StagedIsFiled(s, item, WriteError(""), now);
      StageKeepsFiled(w, item.key, CommitRecord(s, item, now), Staged(item.key));
    case Promoting(item) =>
      StagedIsFiled(s, item, WriteError(""), now);
      StageKeepsFiled(w, item.key, PromotedRecord(s, item, now), Staged(item.key));
    case Failing(item, error) =>
      StagedIsFiled(s, item, error, now);
      StageKeepsFiled(w, item.key, FailedRecord(s, item, error, now), FailStaged);
    case Checkpointed(key) =>
      if key in s.records && TryCommit(s.records[key]).Some? {
        StageKeepsFiled(w, key, TryCommit(s.records[key]), Swapped(key));
      }
    case _ =>
  }

  lemma StepKeepsFiled(w: World, e: Event)
    requires AllFiled(w)
    ensures AllFiled(Step(w, e))
  {
    match e
    case Advance(now) => if w.run.Some? { AdvanceKeepsFiled(w, now); }
    case _ =>
  }

  /** In every run every record, durable or in memory, is filed under its own canonical url. */
  lemma {:induction false} RecordsAreFiled(w: World, es: seq<Event>)
    requires AllFiled(w)
    ensures AllFiled(Run(w, es))
    decreases |es|
  {
    if es != [] {
      StepKeepsFiled(w, es[0]);
      RecordsAreFiled(Step(w, es[0]), es[1..]);
    }
  }

  // ----- the record after a turn -----

  /** A page that is still on its way keeps counting; a finished one starts over. */
  function AttemptsSoFar(s: Session, key: string): nat {
    if key in s.records && !Terminal(s.records[key].status) then s.records[key].attempts else 0
  }

  function UrlOf(s: Session, item: Item): string {
    if item.key in s.records && !Terminal(s.records[item.key].status) then s.records[item.key].url else item.url
  }

  /** The record of a page exported in this turn. */
  predicate ExportedBy(r: Record, s: Session, item: Item, now: int) {
    && r.status == Committed && r.runId == s.runId && r.url == UrlOf(s, item)
    && r.contentHash == Some(item.hash) && r.outputLocation == Some(OUTPUT_PATH)
    && r.attempts == AttemptsSoFar(s, item.key) + 1 && r.lastError.None? && r.updatedAt == now
  }

  lemma ExportedTurn(w: World, item: Item, env: ItemEnv)
    requires Ready(w) && Addressable(item) && Drives(w.run.value, item) && env.outcome.Ok?
    ensures var w' := AfterItem(w, item, env);
            && w'.run.Some? && item.key in w'.run.value.records
            && ExportedBy(w'.run.value.records[item.key], w.run.value, item, env.now)
  {
    ItemResult(w, item, env);
    SlotResult(w, item, env);
    var s := w.run.value;
    if item.key in s.records {
      assert Honest(s.records[item.key], Hashes(w.file));
    }
  }

  /** A promoted page: a known record only moves on to COMMITTED, an unknown page gets its first record. */
  predicate PromotedBy(r: Record, s: Session, item: Item, now: int) {
    if item.key in s.records then
      var was := s.records[item.key];
      r == if was.lastError.None? then was.(status := Committed) else was
    else
      ExportedBy(r, s, item, now)
  }

  lemma PromotedTurn(w: World, item: Item, env: ItemEnv)
    requires Ready(w) && Addressable(item)
    requires (item.url, item.hash) !in w.run.value.driven && Decide(w.run.value, item) == PromoteFromFlushProof
    ensures var w' := AfterItem(w, item, env);
            && w'.file == w.file && w'.run.Some? && item.key in w'.run.value.records
            && PromotedBy(w'.run.value.records[item.key], w.run.value, item, env.now)
  {
    ItemResult(w, item, env);
    TakeKeepsInv(w, item);
    var s := w.run.value;
    if item.key in s.records {
      assert Honest(s.records[item.key], Hashes(w.file));
    }
  }

  /** What went wrong in the turn: validation, or the exporter. */
  function Failure(item: Item, env: ItemEnv): ExporterError
    requires item.problem.Some? || !env.outcome.Ok?
  {
    if item.problem.Some? then InvalidConfig(item.problem.value) else env.outcome.error
  }

  /** Only attempts, error and time change; a write error is fatal, bad page data is recoverable. */
  predicate FailedBy(r: Record, s: Session, item: Item, error: ExporterError, now: int) {
    && r.lastError == Some(LastError(if error.WriteError? then InternalFatal else DomainRecoverable, error.message))
    && r.updatedAt == now
    && (if item.key in s.records then
          var was := s.records[item.key];
          r == was.(attempts := was.attempts + 1, lastError := r.lastError, updatedAt := now)
        else
          r.status == Discovered && r.url == item.url && r.canonicalUrl == item.key && r.runId == s.runId
          && r.attempts == 1 && r.contentHash.None? && r.outputLocation.None?)
  }

  lemma FailedTurn(w: World, item: Item, env: ItemEnv)
    requires Ready(w) && Addressable(item) && Fails(w.run.value, item, env)
    ensures var w' := AfterItem(w, item, env);
            && w'.run.Some? && item.key in w'.run.value.records
            && FailedBy(w'.run.value.records[item.key], w.run.value, item, Failure(item, env), env.now)
  {
    ItemResult(w, item, env);
  }
}
