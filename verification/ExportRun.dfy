/**
  Whole export runs over a list of items: what `process_results` leaves behind
  when it is cancelled after any item, and when durable and in-memory state agree.
 */
module ExportRun {
  import opened Text
  import opened PageRecords
  import opened CommitProtocol
  import opened RecordMerge

  /** What the environment answers while one item is processed. */
  datatype ItemEnv = ItemEnv(now: int, outcome: Outcome, firstSave: bool, secondSave: bool)

  /** The micro steps of `process_single_item`; those that do not apply to the item's path do nothing. */
  function ItemEvents(item: Item, env: ItemEnv): seq<Event> {
    [Take(item), Export(env.outcome), Advance(env.now), Save(env.firstSave), Advance(env.now), Save(env.secondSave)]
  }

  function AfterItem(w: World, item: Item, env: ItemEnv): World {
    Run(w, ItemEvents(item, env))
  }

  function SixSteps(w: World, item: Item, env: ItemEnv): World {
    var w3 := Step(Step(Step(w, Take(item)), Export(env.outcome)), Advance(env.now));
    Step(Step(Step(w3, Save(env.firstSave)), Advance(env.now)), Save(env.secondSave))
  }

  lemma ItemEventsRun(w: World, item: Item, env: ItemEnv)
    ensures AfterItem(w, item, env) == SixSteps(w, item, env)
  {
    var es := ItemEvents(item, env);
    var w1 := Step(w, es[0]);
    var w2 := Step(w1, es[1]);
    var w3 := Step(w2, es[2]);
    var w4 := Step(w3, es[3]);
    var w5 := Step(w4, es[4]);
    assert es[1..][1..][1..][1..] == es[4..];
    calc {
      Run(w, es);
      Run(w1, es[1..]);
      { assert es[1..][0] == es[1] && es[1..][1..] == es[2..]; }
      Run(w2, es[2..]);
      { assert es[2..][0] == es[2] && es[2..][1..] == es[3..]; }
      Run(w3, es[3..]);
      { assert es[3..][0] == es[3] && es[3..][1..] == es[4..]; }
      Run(w4, es[4..]);
      { assert es[4..][0] == es[4] && es[4..][1..] == es[5..]; }
      Run(w5, es[5..]);
      { assert es[5..][0] == es[5] && es[5..][1..] == []; }
      Step(w5, es[5]);
    }
  }

  ghost predicate Ready(w: World) {
    Inv(w) && w.run.Some? && w.phase.Idle?
  }

  predicate Addressable(item: Item) {
    !Blank(item.url) && !Blank(item.key)
  }

  /** Does processing this item put a line into the file? */
  predicate Drives(s: Session, item: Item) {
    (item.url, item.hash) !in s.driven && Decide(s, item) == DriveAndCommit && item.problem.None?
  }

  // ----- one item, path by path -----

  /** What the commit point makes of a staged record. */
  function Settled(r: Record): Record {
    if TryCommit(r).Some? then TryCommit(r).value else r
  }

  /** From a staged record: checkpoint, commit point, final save. */
  lemma CommitTail(w: World, key: string, env: ItemEnv)
    requires w.run.Some? && w.phase == Staged(key) && key in w.run.value.records
    ensures var w' := Step(Step(Step(w, Save(env.firstSave)), Advance(env.now)), Save(env.secondSave));
            && w'.phase.Idle? && w'.file == w.file
            && w'.run == Some(w.run.value.(records := w.run.value.records[key := Settled(w.run.value.records[key])]))
  {
    var w4 := Step(w, Save(env.firstSave));
    assert w4.run == w.run && w4.file == w.file && w4.phase == Checkpointed(key);
    CommitPoint(w4, key, env);
  }

  /** From a checkpointed record: commit point, final save. */
  lemma CommitPoint(w: World, key: string, env: ItemEnv)
    requires w.run.Some? && w.phase == Checkpointed(key) && key in w.run.value.records
    ensures var w' := Step(Step(w, Advance(env.now)), Save(env.secondSave));
            && w'.phase.Idle? && w'.file == w.file
            && w'.run == Some(w.run.value.(records := w.run.value.records[key := Settled(w.run.value.records[key])]))
  {
    var s := w.run.value;
    if TryCommit(s.records[key]).None? {
      assert s.records[key := s.records[key]] == s.records;
      assert Step(w, Advance(env.now)) == w.(phase := Idle);
    } else {
      var w5 := Step(w, Advance(env.now));
      assert w5 == Stage(w, key, TryCommit(s.records[key]), Swapped(key));
    }
  }

  /** From a failing item: record the failure, save. */
  lemma FailTail(w: World, env: ItemEnv)
    requires w.run.Some? && w.phase.Failing?
    requires FailedRecord(w.run.value, w.phase.item, w.phase.error, env.now).Some?
    ensures var w' := Step(Step(Step(Step(w, Advance(env.now)), Save(env.firstSave)), Advance(env.now)), Save(env.secondSave));
            var s, item := w.run.value, w.phase.item;
            && w'.phase.Idle? && w'.file == w.file
            && w'.run == Some(s.(records := s.records[item.key := FailedRecord(s, item, w.phase.error, env.now).value]))
  {
    var w3 := Step(w, Advance(env.now));
    var w4 := Step(w3, Save(env.firstSave));
    assert w4.run == w3.run && w4.phase == Idle;
  }

  /** The record an item leaves in memory under its key. */
  function LeftRecord(s: Session, item: Item, env: ItemEnv): Option<Record> {
    if (item.url, item.hash) in s.driven then (if item.key in s.records then Some(s.records[item.key]) else None)
    else
      match Decide(s, item)
      case AlreadyCommitted => if item.key in s.records then Some(s.records[item.key]) else None
      case PromoteFromFlushProof =>
        (match PromotedRecord(s, item, env.now)
         case None => None
         case Some(r) => Some(Settled(r)))
      case DriveAndCommit =>
        if item.problem.Some? then FailedRecord(s, item, InvalidConfig(item.problem.value), env.now)
        else
          match env.outcome
          case Ok => (match CommitRecord(s, item, env.now)
                      case None => None
                      case Some(r) => Some(Settled(r)))
          case FailedClean(error) => FailedRecord(s, item, error, env.now)
          case FailedDirty(error) => FailedRecord(s, item, error, env.now)
  }

  function LeftFile(w: World, item: Item, env: ItemEnv): seq<Line>
    requires w.run.Some?
  {
    if Drives(w.run.value, item) && !env.outcome.FailedClean? then w.file + [Line(item.url, item.hash)] else w.file
  }

  /**
    One item, end to end, whatever the saves do: the file grows by at most the
    item's own line, only the item's slot changes in memory, and the slot holds
    the record of the path taken.
   */
  ghost predicate ItemDone(w: World, item: Item, env: ItemEnv, w': World)
    requires w.run.Some?
  {
    var s, left := w.run.value, LeftRecord(w.run.value, item, env);
    && w'.phase.Idle?
    && w'.file == LeftFile(w, item, env)
    && w'.run == Some(s.(records := if left.Some? then s.records[item.key := left.value] else s.records,
                         driven := s.driven + {(item.url, item.hash)}))
  }

  lemma SkippedItem(w: World, item: Item, env: ItemEnv)
    requires w.run.Some? && w.phase.Idle? && Taken(w, item).phase.Idle?
    ensures ItemDone(w, item, env, SixSteps(w, item, env))
  {
    var s, w1 := w.run.value, Taken(w, item);
    assert SixSteps(w, item, env) == w1;
    if (item.url, item.hash) in s.driven {
      assert s.driven + {(item.url, item.hash)} == s.driven;
    }
    if item.key in s.records {
      assert s.records[item.key := s.records[item.key]] == s.records;
    }
  }

  lemma PromotedItem(w: World, item: Item, env: ItemEnv)
    requires w.run.Some? && w.phase.Idle? && Taken(w, item).phase == Promoting(item)
    requires PromotedRecord(w.run.value, item, env.now).Some?
    ensures ItemDone(w, item, env, SixSteps(w, item, env))
  {
    var s, w1 := w.run.value, Taken(w, item);
    var r := PromotedRecord(s, item, env.now);
    assert r == PromotedRecord(w1.run.value, item, env.now);
    var w3 := Step(w1, Advance(env.now));
    CommitTail(w3, item.key, env);
    assert s.records[item.key := r.value][item.key := Settled(r.value)] == s.records[item.key := Settled(r.value)];
  }

  lemma DrivenItem(w: World, item: Item, env: ItemEnv)
    requires w.run.Some? && w.phase.Idle? && Taken(w, item).phase == Appending(item) && env.outcome.Ok?
    requires CommitRecord(w.run.value, item, env.now).Some?
    ensures ItemDone(w, item, env, SixSteps(w, item, env))
  {
    var s, w1 := w.run.value, Taken(w, item);
    var r := CommitRecord(s, item, env.now);
    var w2 := Step(w1, Export(Ok));
    assert r == CommitRecord(w2.run.value, item, env.now);
    var w3 := Step(w2, Advance(env.now));
    CommitTail(w3, item.key, env);
    assert s.records[item.key := r.value][item.key := Settled(r.value)] == s.records[item.key := Settled(r.value)];
  }

  lemma FailedItem(w: World, item: Item, env: ItemEnv)
    requires w.run.Some? && w.phase.Idle? && Addressable(item)
    requires Taken(w, item).phase.Failing? || (Taken(w, item).phase == Appending(item) && !env.outcome.Ok?)
    ensures ItemDone(w, item, env, SixSteps(w, item, env))
  {
    var s, w1 := w.run.value, Taken(w, item);
    var w2 := Step(w1, Export(env.outcome));
    assert FailedRecord(w2.run.value, item, w2.phase.error, env.now) == FailedRecord(s, item, w2.phase.error, env.now);
    FailTail(w2, env);
  }

  lemma ItemResult(w: World, item: Item, env: ItemEnv)
    requires Ready(w) && Addressable(item)
    ensures Ready(AfterItem(w, item, env))
    ensures ItemDone(w, item, env, AfterItem(w, item, env))
  {
    var s := w.run.value;
    ItemEventsRun(w, item, env);
    RunKeepsInv(w, ItemEvents(item, env));
    TakeKeepsInv(w, item);
    match Taken(w, item).phase
    case Idle => SkippedItem(w, item, env);
    case Promoting(_) => PromotedItem(w, item, env);
    case Failing(_, _) => FailedItem(w, item, env);
    case Appending(_) => if env.outcome.Ok? { DrivenItem(w, item, env); } else { FailedItem(w, item, env); }
  }

  /** What one item does to its own slot. */
  lemma SlotResult(w: World, item: Item, env: ItemEnv)
    requires Ready(w) && Addressable(item)
    ensures var s, left := w.run.value, LeftRecord(w.run.value, item, env);
            && (Drives(s, item) && env.outcome.Ok? ==> left.Some? && left.value.status == Committed)
            && (item.key in s.records && s.records[item.key].status == Committed ==>
                  left.Some? && left.value.status == Committed)
            && (item.key in s.records && Decide(s, item) == DriveAndCommit && !(item.problem.None? && env.outcome.Ok?) ==>
                  left.Some? && left.value.status == s.records[item.key].status)
  {
    var s := w.run.value;
    if item.key in s.records {
      assert Honest(s.records[item.key], Hashes(w.file));
    }
    TakeKeepsInv(w, item);
  }

  /** A slot ends COMMITTED or with its old status; a new one that fails is DISCOVERED. */
  lemma SlotStatus(w: World, item: Item, env: ItemEnv)
    requires Ready(w) && Addressable(item)
    ensures var s, left := w.run.value, LeftRecord(w.run.value, item, env);
            && (item.key in s.records ==> left.Some?)
            && (left.Some? ==> left.value.status == Committed || left.value.status == StatusAt(s.records, item.key))
            && (Fails(s, item, env) ==> left.Some? && left.value.status == StatusAt(s.records, item.key))
  {
    var s := w.run.value;
    if item.key in s.records {
      assert Honest(s.records[item.key], Hashes(w.file));
    }
    TakeKeepsInv(w, item);
  }

  /** The item is driven and its validation or its export fails. */
  predicate Fails(s: Session, item: Item, env: ItemEnv) {
    && (item.url, item.hash) !in s.driven && Decide(s, item) == DriveAndCommit
    && (item.problem.Some? || !env.outcome.Ok?)
  }

  // ----- durable state follows the session -----

  /** Every slot is kept and no timestamp goes back. */
  ghost predicate Forward(m: Records, m': Records) {
    forall k :: k in m ==> k in m' && m[k].updatedAt <= m'[k].updatedAt
  }

  /** The clock reads no earlier than the slot about to be rewritten. */
  ghost predicate ClockOk(s: Session, p: Phase, now: int) {
    (p.Flushed? || p.Promoting? || p.Failing?) ==>
      Addressable(p.item) && (p.item.key in s.records ==> s.records[p.item.key].updatedAt <= now)
  }

  lemma AdvanceForward(w: World, now: int)
    requires Inv(w) && w.run.Some? && ClockOk(w.run.value, w.phase, now)
    ensures Advanced(w, now).run.Some? && Forward(w.run.value.records, Advanced(w, now).run.value.records)
  {
    var s := w.run.value;
    match w.phase
    case Flushed(item) => StageForward(w, item.key, CommitRecord(s, item, now), Staged(item.key));
    case Promoting(item) =>
      PromotedForward(w, item, now);
      StageForward(w, item.key, PromotedRecord(s, item, now), Staged(item.key));
    case Failing(item, error) => StageForward(w, item.key, FailedRecord(s, item, error, now), FailStaged);
    case Checkpointed(key) =>
      if key in s.records && TryCommit(s.records[key]).Some? {
        StageForward(w, key, TryCommit(s.records[key]), Swapped(key));
      }
    case _ =>
  }

  lemma StageForward(w: World, key: string, r: Option<Record>, next: Phase)
    requires w.run.Some? && r.Some?
    requires key in w.run.value.records ==> w.run.value.records[key].updatedAt <= r.value.updatedAt
    ensures Stage(w, key, r, next).run.Some? && Forward(w.run.value.records, Stage(w, key, r, next).run.value.records)
  {
  }

  lemma PromotedForward(w: World, item: Item, now: int)
    requires Inv(w) && w.run.Some? && w.phase == Promoting(item) && ClockOk(w.run.value, w.phase, now)
    ensures var s, r := w.run.value, PromotedRecord(w.run.value, item, now);
            r.Some? && (item.key in s.records ==> s.records[item.key].updatedAt <= r.value.updatedAt)
  {
    var s := w.run.value;
    if item.key in s.records {
      assert Honest(s.records[item.key], Hashes(w.file));
    }
  }

  lemma StepKeepsBehind(w: World, e: Event)
    requires Inv(w) && w.run.Some? && Behind(w.store, w.run.value.records)
    requires e.Advance? ==> ClockOk(w.run.value, w.phase, e.now)
    requires !e.Crash?
    ensures Step(w, e).run.Some? && Behind(Step(w, e).store, Step(w, e).run.value.records)
  {
    match e
    case Advance(now) =>
      AdvanceForward(w, now);
      ForwardKeepsBehind(w.store, w.run.value.records, Advanced(w, now).run.value.records);
    case Save(ok) => SavedKeepsBehind(w, ok);
    case FinalPersist(ok) => SavedKeepsBehind(w, ok);
    case _ => QuietStep(w, e);
  }

  /** Opening again, taking and exporting touch neither the store nor the records. */
  lemma QuietStep(w: World, e: Event)
    requires w.run.Some? && (e.Open? || e.Take? || e.Export?)
    ensures var w' := Step(w, e);
            w'.run.Some? && w'.run.value.records == w.run.value.records && w'.store == w.store
  {
  }

  lemma ForwardKeepsBehind(store: Records, m: Records, m': Records)
    requires Behind(store, m) && Forward(m, m')
    ensures Behind(store, m')
  {
  }

  lemma SavedKeepsBehind(w: World, ok: bool)
    requires w.run.Some? && Behind(w.store, w.run.value.records)
    ensures Behind(Saved(w, ok).store, w.run.value.records)
    ensures ok ==> Saved(w, ok).store == w.run.value.records
  {
    SingleWriterOverwrites(w.store, w.run.value.records);
  }

  ghost predicate Lagging(w: World) {
    Inv(w) && w.run.Some? && Behind(w.store, w.run.value.records)
  }

  lemma StepKeepsLagging(w: World, e: Event)
    requires Lagging(w) && !e.Crash? && (e.Advance? ==> ClockOk(w.run.value, w.phase, e.now))
    ensures Lagging(Step(w, e))
  {
    StepKeepsBehind(w, e);
    StepKeepsInv(w, e);
  }

  /** Taking and exporting an item leaves the record map alone and works on that item only. */
  lemma TakeExportShape(w: World, item: Item, outcome: Outcome)
    requires w.run.Some? && w.phase.Idle?
    ensures var w2 := Step(Step(w, Take(item)), Export(outcome));
            && w2.run.Some? && w2.run.value.records == w.run.value.records
            && (w2.phase.Flushed? || w2.phase.Promoting? || w2.phase.Failing? ==> w2.phase.item == item)
            && !w2.phase.Appending?
  {
  }

  lemma ItemKeepsBehind(w: World, item: Item, env: ItemEnv)
    requires Lagging(w) && w.phase.Idle? && Addressable(item)
    requires item.key in w.run.value.records ==> w.run.value.records[item.key].updatedAt <= env.now
    ensures Lagging(AfterItem(w, item, env))
  {
    ItemEventsRun(w, item, env);
    var w1 := Step(w, Take(item));
    StepKeepsLagging(w, Take(item));
    var w2 := Step(w1, Export(env.outcome));
    StepKeepsLagging(w1, Export(env.outcome));
    TakeExportShape(w, item, env.outcome);
    var w3 := Step(w2, Advance(env.now));
    StepKeepsLagging(w2, Advance(env.now));
    AdvancedPhase(w2, env.now);
    SettleKeepsLagging(w3, env);
  }

  lemma AdvancedPhase(w: World, now: int)
    requires w.run.Some? && !w.phase.Appending?
    ensures var p := Advanced(w, now).phase; !p.Flushed? && !p.Promoting? && !p.Failing?
  {
  }

  lemma SettleKeepsLagging(w: World, env: ItemEnv)
    requires Lagging(w) && !w.phase.Flushed? && !w.phase.Promoting? && !w.phase.Failing?
    ensures Lagging(Step(Step(Step(w, Save(env.firstSave)), Advance(env.now)), Save(env.secondSave)))
  {
    var w4 := Step(w, Save(env.firstSave));
    StepKeepsLagging(w, Save(env.firstSave));
    assert !w4.phase.Flushed? && !w4.phase.Promoting? && !w4.phase.Failing?;
    StepKeepsLagging(w4, Advance(env.now));
    StepKeepsLagging(Step(w4, Advance(env.now)), Save(env.secondSave));
  }

  // ----- a run over the items, cut after any of them -----

  function AfterItems(w: World, items: seq<Item>, envs: seq<ItemEnv>): World
    requires |items| == |envs|
    decreases |items|
  {
    if items == [] then w else AfterItems(AfterItem(w, items[0], envs[0]), items[1..], envs[1..])
  }

  /** Clock readings start at or after every timestamp in memory and never step back. */
  ghost predicate ClockNeverStepsBack(m: Records, envs: seq<ItemEnv>) {
    && (forall k, i :: k in m && 0 <= i < |envs| ==> m[k].updatedAt <= envs[i].now)
    && (forall i, j :: 0 <= i < j < |envs| ==> envs[i].now <= envs[j].now)
  }

  /** The lines beyond `from` each belong to an item whose slot is COMMITTED, or whose export failed with its line on disk. */
  ghost predicate NewLinesCommitted(file: seq<Line>, from: nat, items: seq<Item>, envs: seq<ItemEnv>, m: Records)
    requires |items| == |envs|
  {
    forall j :: from <= j < |file| ==> Covered(file[j], items, envs, m)
  }

  ghost predicate Covered(l: Line, items: seq<Item>, envs: seq<ItemEnv>, m: Records)
    requires |items| == |envs|
  {
    exists i :: 0 <= i < |items| && Accounts(l, items[i], envs[i], m)
  }

  predicate Accounts(l: Line, item: Item, env: ItemEnv, m: Records) {
    && l == Line(item.url, item.hash)
    && (env.outcome.FailedDirty? || (item.key in m && m[item.key].status == Committed))
  }

  ghost predicate CommittedStays(m: Records, m': Records) {
    forall k :: k in m && m[k].status == Committed ==> k in m' && m'[k].status == Committed
  }

  lemma LeftTimestamp(w: World, item: Item, env: ItemEnv, envs: seq<ItemEnv>)
    requires Ready(w) && Addressable(item)
    requires ClockNeverStepsBack(w.run.value.records, [env] + envs)
    ensures ItemDone(w, item, env, AfterItem(w, item, env))
    ensures ClockNeverStepsBack(AfterItem(w, item, env).run.value.records, envs)
  {
    ItemResult(w, item, env);
    var s := w.run.value;
    var s' := AfterItem(w, item, env).run.value;
    var all := [env] + envs;
    assert forall i :: 0 <= i < |envs| ==> envs[i] == all[i + 1];
    var left := LeftRecord(s, item, env);
    assert left.Some? ==> left.value.updatedAt == env.now || (item.key in s.records && left.value.updatedAt == s.records[item.key].updatedAt);
    forall k, i | k in s'.records && 0 <= i < |envs| ensures s'.records[k].updatedAt <= envs[i].now {
      assert all[0].now <= all[i + 1].now;
      if k in s.records { assert s.records[k].updatedAt <= all[i + 1].now; }
    }
  }

  /** Slots of keys that none of the items has are untouched. */
  ghost predicate OthersUntouched(items: seq<Item>, m: Records, m': Records) {
    forall k :: !Mentions(items, k) ==> (k in m <==> k in m') && (k in m ==> m[k] == m'[k])
  }

  ghost predicate Mentions(items: seq<Item>, key: string) {
    exists i :: 0 <= i < |items| && items[i].key == key
  }

  /** No slot disappears, and a slot that does not end COMMITTED has its old status, or DISCOVERED if it is new. */
  ghost predicate StatusKept(m: Records, m': Records) {
    && (forall k :: k in m ==> k in m')
    && (forall k :: k in m' ==> m'[k].status == Committed || m'[k].status == StatusAt(m, k))
  }

  function StatusAt(m: Records, k: string): Status {
    if k in m then m[k].status else Discovered
  }

  /** What a run over `items` from `w` to `w'` did. */
  ghost predicate Progress(w: World, items: seq<Item>, envs: seq<ItemEnv>, w': World)
    requires w.run.Some? && w'.run.Some? && |items| == |envs|
  {
    && w.file <= w'.file
    && NewLinesCommitted(w'.file, |w.file|, items, envs, w'.run.value.records)
    && CommittedStays(w.run.value.records, w'.run.value.records)
    && StatusKept(w.run.value.records, w'.run.value.records)
    && OthersUntouched(items, w.run.value.records, w'.run.value.records)
  }

  lemma ItemProgress(w: World, item: Item, env: ItemEnv)
    requires Ready(w) && Addressable(item)
    ensures Ready(AfterItem(w, item, env)) && Progress(w, [item], [env], AfterItem(w, item, env))
  {
    ItemResult(w, item, env);
    SlotResult(w, item, env);
    SlotStatus(w, item, env);
    DoneProgress(w, item, env, AfterItem(w, item, env));
  }

  lemma DoneProgress(w: World, item: Item, env: ItemEnv, w': World)
    requires w.run.Some? && ItemDone(w, item, env, w')
    requires var s, left := w.run.value, LeftRecord(w.run.value, item, env);
             && (Drives(s, item) && env.outcome.Ok? ==> left.Some? && left.value.status == Committed)
             && (item.key in s.records && s.records[item.key].status == Committed ==> left.Some? && left.value.status == Committed)
             && (item.key in s.records ==> left.Some?)
             && (left.Some? ==> left.value.status == Committed || left.value.status == StatusAt(s.records, item.key))
    ensures Progress(w, [item], [env], w')
  {
    if Drives(w.run.value, item) && !env.outcome.FailedClean? {
      assert Accounts(w'.file[|w.file|], [item][0], [env][0], w'.run.value.records);
    }
    assert Mentions([item], item.key) by { assert [item][0].key == item.key; }
  }

  lemma ProgressTrans(w: World, a: seq<Item>, es: seq<ItemEnv>, w1: World, b: seq<Item>, fs: seq<ItemEnv>, w2: World)
    requires w.run.Some? && w1.run.Some? && w2.run.Some? && |a| == |es| && |b| == |fs|
    requires Progress(w, a, es, w1) && Progress(w1, b, fs, w2)
    ensures Progress(w, a + b, es + fs, w2)
  {
    var c, gs, m := a + b, es + fs, w2.run.value.records;
    forall j | |w.file| <= j < |w2.file| ensures Covered(w2.file[j], c, gs, m) {
      if j < |w1.file| {
        assert w2.file[j] == w1.file[j];
        var i :| 0 <= i < |a| && Accounts(w1.file[j], a[i], es[i], w1.run.value.records);
        assert Accounts(w2.file[j], c[i], gs[i], m);
      } else {
        var i :| 0 <= i < |b| && Accounts(w2.file[j], b[i], fs[i], m);
        assert Accounts(w2.file[j], c[|a| + i], gs[|a| + i], m);
      }
    }
    forall k | !Mentions(a + b, k) ensures !Mentions(a, k) && !Mentions(b, k) {
      assert forall i :: 0 <= i < |a| ==> c[i] == a[i];
      assert forall i :: 0 <= i < |b| ==> c[|a| + i] == b[i];
    }
  }

  /**
    A run over items: the file only grows by lines of those items, each COMMITTED in
    memory at the end unless its export failed after the write, no COMMITTED slot is
    lost, other statuses are kept, slots of other keys are untouched, and the store
    stays behind the session whatever saves fail.
   */
  lemma {:induction false} ItemsResult(w: World, items: seq<Item>, envs: seq<ItemEnv>)
    requires |items| == |envs| && Lagging(w) && w.phase.Idle?
    requires forall i :: 0 <= i < |items| ==> Addressable(items[i])
    requires ClockNeverStepsBack(w.run.value.records, envs)
    ensures var w' := AfterItems(w, items, envs);
            Lagging(w') && w'.phase.Idle? && Progress(w, items, envs, w')
    decreases |items|
  {
    if items != [] {
      var item, env := items[0], envs[0];
      var w1 := AfterItem(w, item, env);
      assert [env] + envs[1..] == envs && [item] + items[1..] == items;
      LeftTimestamp(w, item, env, envs[1..]);
      ItemProgress(w, item, env);
      ItemKeepsBehind(w, item, env);
      ItemsResult(w1, items[1..], envs[1..]);
      ProgressTrans(w, [item], [env], w1, items[1..], envs[1..], AfterItems(w, items, envs));
    }
  }

  /**
    `process_results` cancelled after `n` items, on any world left by earlier runs:
    once the final persist succeeds the store is exactly the session's map, every
    line this run added belongs to one of the first `n` items and is COMMITTED on
    disk unless its export failed after the write, other statuses are kept, and
    records of untouched keys are what the load showed.
   */
  lemma CancelledRun(w: World, runId: string, resume: bool, items: seq<Item>, envs: seq<ItemEnv>, n: nat)
    requires Inv(w) && w.run.None? && w.phase.Idle?
    requires n <= |items| == |envs|
    requires forall i :: 0 <= i < |items| ==> Addressable(items[i])
    requires ClockNeverStepsBack(w.store, envs)
    ensures var w' := Step(AfterItems(Step(w, Open(runId, resume, true)), items[..n], envs[..n]), FinalPersist(true));
            && w'.run.Some? && w'.store == w'.run.value.records
            && w.file <= w'.file
            && NewLinesCommitted(w'.file, |w.file|, items[..n], envs[..n], w'.store)
            && StatusKept(Quarantine(w.store), w'.store)
            && OthersUntouched(items[..n], Quarantine(w.store), w'.store)
  {
    var w0 := Step(w, Open(runId, resume, true));
    OpenLags(w, runId, resume, envs, n);
    ItemsResult(w0, items[..n], envs[..n]);
    FinalPersistOverwrites(AfterItems(w0, items[..n], envs[..n]));
  }

  lemma OpenLags(w: World, runId: string, resume: bool, envs: seq<ItemEnv>, n: nat)
    requires Inv(w) && w.run.None? && n <= |envs| && ClockNeverStepsBack(w.store, envs)
    ensures var w0 := Step(w, Open(runId, resume, true));
            && Lagging(w0) && w0.phase.Idle? && w0.file == w.file && w0.run.value.records == Quarantine(w.store)
            && ClockNeverStepsBack(w0.run.value.records, envs[..n])
  {
    OpenKeepsInv(w, runId, resume, true);
    var w0 := Step(w, Open(runId, resume, true));
    assert Behind(w0.store, w0.run.value.records);
  }

  lemma FinalPersistOverwrites(w: World)
    requires Lagging(w) && w.phase.Idle?
    ensures Step(w, FinalPersist(true)) == w.(store := w.run.value.records)
  {
    SavedKeepsBehind(w, true);
  }

  /** Whenever an item of the page comes up, it fails or was claimed before. */
  predicate AlwaysFails(w: World, items: seq<Item>, envs: seq<ItemEnv>, k: string)
    requires |items| == |envs|
    decreases |items|
  {
    items == [] ||
    (&& w.run.Some?
     && (items[0].key == k ==>
           (items[0].url, items[0].hash) in w.run.value.driven || Fails(w.run.value, items[0], envs[0]))
     && AlwaysFails(AfterItem(w, items[0], envs[0]), items[1..], envs[1..], k))
  }

  /** A page all of whose items fail keeps its status through the whole run, whatever is left on disk. */
  lemma {:induction false} FailedPageKeepsStatus(w: World, items: seq<Item>, envs: seq<ItemEnv>, k: string)
    requires |items| == |envs| && Ready(w) && AlwaysFails(w, items, envs, k)
    requires forall i :: 0 <= i < |items| ==> Addressable(items[i])
    ensures var w' := AfterItems(w, items, envs);
            && Ready(w') && (k in w.run.value.records ==> k in w'.run.value.records)
            && StatusAt(w'.run.value.records, k) == StatusAt(w.run.value.records, k)
    decreases |items|
  {
    if items != [] {
      ItemResult(w, items[0], envs[0]);
      SlotStatus(w, items[0], envs[0]);
      FailedPageKeepsStatus(AfterItem(w, items[0], envs[0]), items[1..], envs[1..], k);
    }
  }

  /**
    A resumed item that is new to the session always ends COMMITTED in memory when
    its export succeeds, but it has a line under its own url exactly when its
    content was not already on disk under some url at open, or that very line was.
   */
  lemma OwnLineExactlyWhen(w: World, item: Item, env: ItemEnv)
    requires Ready(w) && Addressable(item) && w.run.value.resume && item.problem.None? && env.outcome.Ok?
    requires item.key !in w.run.value.records && (item.url, item.hash) !in w.run.value.driven
    ensures var w' := AfterItem(w, item, env);
            && w'.run.Some? && item.key in w'.run.value.records && w'.run.value.records[item.key].status == Committed
            && (Line(item.url, item.hash) in w'.file <==>
                  item.hash !in w.run.value.index || Line(item.url, item.hash) in w.file)
  {
    ItemResult(w, item, env);
    SlotResult(w, item, env);
    var s := w.run.value;
    if item.hash in s.index {
      var r := PromotedRecord(s, item, env.now).value;
      assert r.status == Exported && r.lastError.None?;
      assert TryCommit(r).Some?;
    }
  }
}
