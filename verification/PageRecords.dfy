/**
  The persisted page record and the rules of its lifecycle: reconciliation
  against a state, the invariant table applied when the store is loaded, the
  drive to PROCESSED, and the EXPORTED to COMMITTED transition.
 */
module PageRecords {
  import opened Text

  datatype Status =
    Discovered | Queued | Fetching | Fetched | Extracted | Processed | Exported | Committed

  datatype ErrorClass = DomainRecoverable | InternalFatal

  datatype LastError = LastError(class_: ErrorClass, message: string)

  /** Timestamps are unix milliseconds; attempt counts are unbounded here. */
  datatype Record = Record(
    url: string,
    canonicalUrl: string,
    runId: string,
    contentHash: Option<string>,
    attempts: nat,
    status: Status,
    lastError: Option<LastError>,
    outputLocation: Option<string>,
    updatedAt: int)

  type Records = map<string, Record>

  const MIGRATED_V1_RUN_ID := "migrated-v1"

  predicate Terminal(s: Status) {
    s == Exported || s == Committed
  }

  /** `Stateful::<RawRecord, S>::reconcile(record).is_ok()` for the marker of `target`. */
  predicate Reconciles(r: Record, target: Status) {
    && r.status == target
    && (Terminal(target) && r.runId != MIGRATED_V1_RUN_ID ==>
          r.outputLocation.Some? && r.contentHash.Some?)
    && (target == Committed ==> r.lastError.None? && r.attempts >= 1)
  }

  /** `invariant_violation(record).is_some()` */
  predicate Violates(r: Record) {
    || Blank(r.url)
    || (Terminal(r.status) && r.runId != MIGRATED_V1_RUN_ID
        && (r.outputLocation.None? || r.contentHash.None?))
    || (r.status == Committed && (r.lastError.Some? || r.attempts < 1))
  }

  /** The kept half of `partition_valid`: what a load shows of the stored records. */
  function Quarantine(store: Records): (kept: Records)
    ensures kept.Keys <= store.Keys
  {
    map k | k in store && !Violates(store[k]) :: store[k]
  }

  /** `RawRecord::new_discovered`: rejects a blank url or canonical url. */
  function NewDiscovered(url: string, canonicalUrl: string, runId: string, now: int): (r: Option<Record>)
    ensures r.Some? <==> !Blank(url) && !Blank(canonicalUrl)
  {
    if Blank(url) || Blank(canonicalUrl) then None
    else Some(Record(url, canonicalUrl, runId, None, 0, Discovered, None, None, now))
  }

  /** Walk a record to PROCESSED; a terminal record starts a fresh lifecycle instead. */
  function DriveToProcessed(r: Record, runId: string, now: int): (p: Option<Record>)
    ensures p.Some? ==> p.value.status == Processed
  {
    if Reconciles(r, r.status) && !Terminal(r.status) then Some(r.(status := Processed))
    else
      match NewDiscovered(r.url, r.canonicalUrl, runId, now)
      case None => None
      case Some(f) => Some(f.(status := Processed))
  }

  /** `try_commit_exported`: the COMMITTED successor, or nothing when the machine rejects. */
  function TryCommit(r: Record): (c: Option<Record>) {
    if Blank(r.url) || r.status != Exported || !Reconciles(r, Exported) then None
    else
      var candidate := r.(status := Committed);
      if Violates(candidate) then None else Some(candidate)
  }
}
