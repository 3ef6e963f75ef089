/**
  The export commit protocol as a step machine. The output file and the record
  store are durable; the session (record map, content-hash index, claimed
  pairs) is volatile and lost by a crash. One event is one micro step of
  `process_single_item`, so a crash may fall between any two of them.

  Fixed choices: the Jsonl format, one output path, an exporter that appends a
  whole line or none of it. An event that is not enabled changes nothing, so
  every sequence of events is a run.
 */
module CommitProtocol {
  import opened Text
  import opened PageRecords

  /** One scraped page: its canonical key, its content digest, and why its chunk fails validation, if it does. */
  datatype Item = Item(url: string, key: string, hash: string, problem: Option<string>)

  datatype ExporterError = Serialization(message: string) | InvalidConfig(message: string) | WriteError(message: string)

  datatype Line = Line(url: string, hash: string)

  datatype Session = Session(
    runId: string,
    resume: bool,
    records: Records,
    index: set<string>,
    driven: set<(string, string)>)

  datatype Decision = AlreadyCommitted | PromoteFromFlushProof | DriveAndCommit

  datatype Phase =
    | Idle
    | Appending(item: Item)      // decided to drive; the exporter has not been called
    | Flushed(item: Item)        // the line is durable, nothing recorded yet
    | Promoting(item: Item)      // decided to promote without appending
    | Staged(key: string)        // EXPORTED in memory
    | Checkpointed(key: string)  // EXPORTED handed to the store
    | Swapped(key: string)       // COMMITTED in memory
    | Failing(item: Item, error: ExporterError)  // the item failed, nothing recorded yet
    | FailStaged                 // failure recorded in memory

  datatype World = World(file: seq<Line>, store: Records, run: Option<Session>, phase: Phase)

  /** What the exporter does: append and acknowledge, or fail with or without the line on disk. */
  datatype Outcome = Ok | FailedClean(error: ExporterError) | FailedDirty(error: ExporterError)

  datatype Event =
    | Open(runId: string, resume: bool, loadOk: bool)
    | Take(item: Item)
    | Export(outcome: Outcome)
    | Advance(now: int)
    | Save(ok: bool)
    | FinalPersist(ok: bool)
    | Crash

  const OUTPUT_PATH := "export.jsonl"

  const EmptyWorld := World([], map[], None, Idle)

  function Hashes(file: seq<Line>): set<string> {
    set i | 0 <= i < |file| :: file[i].hash
  }

  /** The resume gate. */
  function Decide(s: Session, item: Item): Decision {
    if !s.resume then DriveAndCommit
    else if item.key in s.records then
      var r := s.records[item.key];
      if Reconciles(r, Committed) then AlreadyCommitted
      else if r.contentHash.Some? && r.contentHash.value in s.index then PromoteFromFlushProof
      else DriveAndCommit
    else if item.hash in s.index then PromoteFromFlushProof
    else DriveAndCommit
  }

  /** Per-key last writer wins; a tie goes to the session's own record. */
  function Merge(current: Records, mine: Records): (merged: Records)
    ensures merged.Keys == current.Keys + mine.Keys
  {
    map k | k in current.Keys + mine.Keys ::
      if k in mine && !(k in current && current[k].updatedAt > mine[k].updatedAt) then mine[k] else current[k]
  }

  /** `merge_persist`: the store's transaction re-reads (and quarantines) before merging. */
  function Persist(store: Records, mine: Records): Records {
    Merge(Quarantine(store), mine)
  }

  /** The record `commit_item` stages for a flushed line. */
  function CommitRecord(s: Session, item: Item, now: int): Option<Record> {
    var processed :=
      if item.key in s.records && !Terminal(s.records[item.key].status)
      then DriveToProcessed(s.records[item.key], s.runId, now)
      else
        match NewDiscovered(item.url, item.key, s.runId, now)
        case None => None
        case Some(f) => Some(f.(status := Processed));
    match processed
    case None => None
    case Some(p) => Some(p.(runId := s.runId, contentHash := Some(item.hash),
                            outputLocation := Some(OUTPUT_PATH), attempts := p.attempts + 1,
                            lastError := None, updatedAt := now, status := Exported))
  }

  /** The record `promote_from_flush_proof` stages for a line already on disk. */
  function PromotedRecord(s: Session, item: Item, now: int): Option<Record> {
    var base := if item.key in s.records then Some(s.records[item.key])
                else NewDiscovered(item.url, item.key, s.runId, now);
    match base
    case None => None
    case Some(r) =>
      if r.status == Exported && Reconciles(r, Exported) then Some(r)
      else
        match DriveToProcessed(r, s.runId, now)
        case None => None
        case Some(p) =>
          var hashed := p.(contentHash := Some(item.hash), updatedAt := now, status := Exported);
          if r.status == Exported then Some(hashed)
          else Some(hashed.(attempts := p.attempts + 1, lastError := None,
                            outputLocation := if p.outputLocation.None? then Some(OUTPUT_PATH)
                                              else p.outputLocation))
  }

  /** `classify_export_failure`: item-data problems are recoverable, the rest is fatal. */
  function Classify(e: ExporterError): LastError {
    LastError(if e.WriteError? then InternalFatal else DomainRecoverable, e.message)
  }

  /** The record `fail_item` leaves: attempts and error change, the status does not. */
  function FailedRecord(s: Session, item: Item, error: ExporterError, now: int): Option<Record> {
    var base := if item.key in s.records then Some(s.records[item.key])
                else NewDiscovered(item.url, item.key, s.runId, now);
    match base
    case None => None
    case Some(r) => Some(r.(attempts := r.attempts + 1,
                            lastError := Some(Classify(error)), updatedAt := now))
  }

  /** Stage a record computed for `key`; a rejected identity removes the slot and ends the item. */
  function Stage(w: World, key: string, r: Option<Record>, next: Phase): World
    requires w.run.Some?
  {
    var s := w.run.value;
    match r
    case None => w.(run := Some(s.(records := s.records - {key})), phase := Idle)
    case Some(v) => w.(run := Some(s.(records := s.records[key := v])), phase := next)
  }

  function Advanced(w: World, now: int): World
    requires w.run.Some?
  {
    var s := w.run.value;
    match w.phase
    case Flushed(item) => Stage(w, item.key, CommitRecord(s, item, now), Staged(item.key))
    case Promoting(item) => Stage(w, item.key, PromotedRecord(s, item, now), Staged(item.key))
    case Failing(item, error) => Stage(w, item.key, FailedRecord(s, item, error, now), FailStaged)
    case Checkpointed(key) =>
      if key in s.records && TryCommit(s.records[key]).Some?
      then Stage(w, key, TryCommit(s.records[key]), Swapped(key))
      else w.(phase := Idle)
    case _ => w
  }

  function Taken(w: World, item: Item): World
    requires w.run.Some?
  {
    var s := w.run.value;
    if (item.url, item.hash) in s.driven then w
    else
      var claimed := s.(driven := s.driven + {(item.url, item.hash)});
      var phase :=
        match Decide(claimed, item)
        case AlreadyCommitted => Idle
        case PromoteFromFlushProof => Promoting(item)
        case DriveAndCommit => 
          if item.problem.None? then Appending(item) else Failing(item, InvalidConfig(item.problem.value));
      w.(run := Some(claimed), phase := phase)
  }

  function Exporting(w: World, outcome: Outcome): World
    requires w.phase.Appending?
  {
    var item := w.phase.item;
    var appended := w.file + [Line(item.url, item.hash)];
    match outcome
    case Ok => w.(file := appended, phase := Flushed(item))
    case FailedClean(error) => w.(phase := Failing(item, error))
    case FailedDirty(error) => w.(file := appended, phase := Failing(item, error))
  }

  function AfterSave(p: Phase): Phase {
    match p
    case Staged(key) => Checkpointed(key)
    case Swapped(_) => Idle
    case FailStaged => Idle
    case other => other
  }

  function Saved(w: World, ok: bool): World
    requires w.run.Some?
  {
    if ok then w.(store := Persist(w.store, w.run.value.records)) else w
  }

  /** One micro step. */
  function Step(w: World, e: Event): World {
    match e
    case Open(runId, resume, loadOk) =>
      if w.run.Some? then w
      else
        var records := if loadOk then Quarantine(w.store) else map[];
        w.(run := Some(Session(runId, resume, records, Hashes(w.file), {})), phase := Idle)
    case Take(item) => if w.run.Some? && w.phase.Idle? then Taken(w, item) else w
    case Export(outcome) => if w.run.Some? && w.phase.Appending? then Exporting(w, outcome) else w
    case Advance(now) => if w.run.Some? then Advanced(w, now) else w
    case Save(ok) =>
      if w.run.Some? && (w.phase.Staged? || w.phase.Swapped? || w.phase.FailStaged?)
      then Saved(w, ok).(phase := AfterSave(w.phase)) else w
    case FinalPersist(ok) => if w.run.Some? && w.phase.Idle? then Saved(w, ok) else w
    case Crash => w.(run := None, phase := Idle)
  }

  function Run(w: World, es: seq<Event>): World
    decreases |es|
  {
    if es == [] then w else Run(Step(w, es[0]), es[1..])
  }

  lemma {:induction false} RunConcat(w: World, a: seq<Event>, b: seq<Event>)
    ensures Run(w, a + b) == Run(Run(w, a), b)
    decreases |a|
  {
    if a == [] {
      assert a + b == b;
    } else {
      assert (a + b)[0] == a[0] && (a + b)[1..] == a[1..] + b;
      RunConcat(Step(w, a[0]), a[1..], b);
    }
  }

  // ----- the joint invariant of records and flushed lines -----

  /** EXPORTED and COMMITTED carry a hash on disk; nothing below them carries any. */
  predicate Honest(r: Record, hashes: set<string>) {
    && !Blank(r.url)
    && (Terminal(r.status) ==>
          && r.contentHash.Some? && r.contentHash.value in hashes
          && r.outputLocation.Some? && r.attempts >= 1)
    && (!Terminal(r.status) ==> r.contentHash.None? && r.outputLocation.None?)
  }

  ghost predicate AllHonest(m: Records, hashes: set<string>) {
    forall k :: k in m ==> Honest(m[k], hashes)
  }

  /** The record a phase is in the middle of advancing, if any. */
  function InFlight(p: Phase): Option<string> {
    match p
    case Staged(key) => Some(key)
    case Checkpointed(key) => Some(key)
    case _ => None
  }

  /** A staged record is EXPORTED, and either commits or rests on an indexed hash. */
  ghost predicate StagedOk(s: Session, key: string) {
    && key in s.records && s.records[key].status == Exported
    && (s.resume ==> || s.records[key].lastError.None?
                     || (s.records[key].contentHash.Some? && s.records[key].contentHash.value in s.index))
  }

  ghost predicate PhaseOk(file: seq<Line>, s: Session, p: Phase) {
    match p
    case Appending(item) => (item.url, item.hash) in s.driven && Decide(s, item) == DriveAndCommit
    case Flushed(item) => item.hash in Hashes(file) && (item.url, item.hash) in s.driven
    case Promoting(item) =>
      if item.key in s.records then s.records[item.key].status == Exported else item.hash in Hashes(file)
    case Staged(key) => StagedOk(s, key)
    case Checkpointed(key) => StagedOk(s, key)
    case Failing(item, _) => s.resume ==> item.key !in s.records || s.records[item.key].status != Committed
    case _ => true
  }

  /** In a resumed session every record passes the invariant table, and a resting EXPORTED is proven. */
  ghost predicate ResumeOk(s: Session, p: Phase) {
    s.resume ==>
      forall k :: k in s.records ==>
        && !Violates(s.records[k])
        && (s.records[k].status == Exported && InFlight(p) != Some(k) ==>
              s.records[k].contentHash.Some? && s.records[k].contentHash.value in s.index)
  }

  ghost predicate SessionOk(file: seq<Line>, s: Session, p: Phase) {
    && AllHonest(s.records, Hashes(file))
    && s.index <= Hashes(file)
    && (forall i :: 0 <= i < |file| ==> file[i].hash in s.index || (file[i].url, file[i].hash) in s.driven)
    && PhaseOk(file, s, p)
    && ResumeOk(s, p)
  }

  ghost predicate Inv(w: World) {
    && AllHonest(w.store, Hashes(w.file))
    && (w.run.Some? ==> SessionOk(w.file, w.run.value, w.phase))
  }

  lemma HashesGrow(file: seq<Line>, l: Line)
    ensures Hashes(file + [l]) == Hashes(file) + {l.hash}
  {
    var g := file + [l];
    assert forall i :: 0 <= i < |file| ==> g[i] == file[i];
    assert g[|file|] == l;
    forall h | h in Hashes(file) + {l.hash} ensures h in Hashes(g) {
      if h != l.hash {
        var i :| 0 <= i < |file| && file[i].hash == h;
        assert g[i].hash == h;
      }
    }
  }

  lemma PersistHonest(store: Records, mine: Records, hashes: set<string>)
    requires AllHonest(store, hashes) && AllHonest(mine, hashes)
    ensures AllHonest(Persist(store, mine), hashes)
  {
  }

  lemma OpenKeepsInv(w: World, runId: string, resume: bool, loadOk: bool)
    requires Inv(w)
    ensures Inv(Step(w, Open(runId, resume, loadOk)))
  {
  }

  lemma TakeKeepsInv(w: World, item: Item)
    requires Inv(w) && w.run.Some? && w.phase.Idle?
    ensures Inv(Taken(w, item))
  {
  }

  lemma ExportKeepsInv(w: World, outcome: Outcome)
    requires Inv(w) && w.run.Some? && w.phase.Appending?
    ensures Inv(Exporting(w, outcome))
  {
    var item := w.phase.item;
    HashesGrow(w.file, Line(item.url, item.hash));
  }

  /** Replacing one slot by an honest record keeps the invariant. */
  lemma StageKeepsInv(w: World, key: string, r: Option<Record>, next: Phase)
    requires Inv(w) && w.run.Some?
    requires InFlight(w.phase).None? || InFlight(w.phase) == Some(key)
    requires InFlight(next).None? || InFlight(next) == Some(key)
    requires r.Some? ==> Honest(r.value, Hashes(w.file))
    requires r.Some? && w.run.value.resume ==>
               && !Violates(r.value)
               && (r.value.status == Exported && InFlight(next).None? ==>
                     r.value.contentHash.Some? && r.value.contentHash.value in w.run.value.index)
    requires next.FailStaged? || next.Swapped? || next.Staged?
    requires next.Staged? && r.Some? ==>
               && r.value.status == Exported
               && (w.run.value.resume ==>
                     || r.value.lastError.None?
                     || (r.value.contentHash.Some? && r.value.contentHash.value in w.run.value.index))
    ensures Inv(Stage(w, key, r, next))
  {
  }

  lemma FlushedKeepsInv(w: World, now: int)
    requires Inv(w) && w.run.Some? && w.phase.Flushed?
    ensures Inv(Advanced(w, now))
  {
    var item := w.phase.item;
    StageKeepsInv(w, item.key, CommitRecord(w.run.value, item, now), Staged(item.key));
  }

  lemma PromotingKeepsInv(w: World, now: int)
    requires Inv(w) && w.run.Some? && w.phase.Promoting?
    ensures Inv(Advanced(w, now))
  {
    var item := w.phase.item;
    StageKeepsInv(w, item.key, PromotedRecord(w.run.value, item, now), Staged(item.key));
  }

  lemma FailingKeepsInv(w: World, now: int)
    requires Inv(w) && w.run.Some? && w.phase.Failing?
    ensures Inv(Advanced(w, now))
  {
    var item := w.phase.item;
    StageKeepsInv(w, item.key, FailedRecord(w.run.value, item, w.phase.error, now), FailStaged);
  }

  lemma CheckpointedKeepsInv(w: World, now: int)
    requires Inv(w) && w.run.Some? && w.phase.Checkpointed?
    ensures Inv(Advanced(w, now))
  {
    var key := w.phase.key;
    var s := w.run.value;
    var c := TryCommit(s.records[key]);
    if c.Some? {
      StageKeepsInv(w, key, c, Swapped(key));
    }
  }

  lemma AdvanceKeepsInv(w: World, now: int)
    requires Inv(w) && w.run.Some?
    ensures Inv(Advanced(w, now))
  {
    match w.phase
    case Flushed(_) => FlushedKeepsInv(w, now);
    case Promoting(_) => PromotingKeepsInv(w, now);
    case Failing(_, _) => FailingKeepsInv(w, now);
    case Checkpointed(_) => CheckpointedKeepsInv(w, now);
    case _ =>
  }

  lemma SaveKeepsInv(w: World, ok: bool)
    requires Inv(w) && w.run.Some?
    ensures Inv(Saved(w, ok))
  {
    PersistHonest(w.store, w.run.value.records, Hashes(w.file));
  }

  /** Every step keeps the joint invariant: failures, failed saves, crashes and fresh runs included. */
  lemma StepKeepsInv(w: World, e: Event)
    requires Inv(w)
    ensures Inv(Step(w, e))
  {
    match e
    case Open(runId, resume, loadOk) => OpenKeepsInv(w, runId, resume, loadOk);
    case Take(item) => if w.run.Some? && w.phase.Idle? { TakeKeepsInv(w, item); }
    case Export(outcome) => if w.run.Some? && w.phase.Appending? { ExportKeepsInv(w, outcome); }
    case Advance(now) => if w.run.Some? { AdvanceKeepsInv(w, now); }
    case Save(ok) => if w.run.Some? { SaveKeepsInv(w, ok); }
    case FinalPersist(ok) => if w.run.Some? { SaveKeepsInv(w, ok); }
    case Crash =>
  }

  lemma {:induction false} RunKeepsInv(w: World, es: seq<Event>)
    requires Inv(w)
    ensures Inv(Run(w, es))
    decreases |es|
  {
    if es != [] {
      StepKeepsInv(w, es[0]);
      RunKeepsInv(Step(w, es[0]), es[1..]);
    }
  }
}
