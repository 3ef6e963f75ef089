/**
  The commit session as the object the export phase mutates: the record map, the
  claimed pairs and the durable file and store change step by step. Every method
  is proved to take the world exactly where the step machine takes it, so the
  theorems about runs apply to it.
 */
module CommitSessions {
  import opened Text
  import opened PageRecords
  import opened CommitProtocol
  import opened RecordMerge
  import opened ExportRun

  datatype SingleItemOutcome = Driven | Skipped | Cancelled

  /** A claimed or COMMITTED page and a chunk that fails validation are skipped without looking at the token. */
  function OutcomeOf(s: Session, item: Item, env: ItemEnv, cancelled: bool): SingleItemOutcome {
    if (item.url, item.hash) in s.driven || Decide(s, item) == AlreadyCommitted then Skipped
    else if Decide(s, item) == DriveAndCommit && item.problem.Some? then Skipped
    else if cancelled then Cancelled
    else if Decide(s, item) == DriveAndCommit && !env.outcome.Ok? then Skipped
    else Driven
  }

  /** The urls reported as processed: those driven, but not the one in flight when cancellation is observed. */
  function Reported(w: World, items: seq<Item>, envs: seq<ItemEnv>, cancels: seq<bool>): seq<string>
    requires |items| == |envs| == |cancels|
    decreases |items|
  {
    if items == [] then []
    else
      (if w.run.Some? && OutcomeOf(w.run.value, items[0], envs[0], cancels[0]).Driven? then [items[0].url] else [])
      + Reported(AfterItem(w, items[0], envs[0]), items[1..], envs[1..], cancels[1..])
  }

  // ----- what an outcome means, told by the worlds around the item's turn -----

  /** A resumed session knows the page as COMMITTED. */
  predicate KnownCommitted(s: Session, key: string) {
    s.resume && key in s.records && s.records[key].status == Committed
  }

  /** The slot carries an error that this turn wrote. */
  predicate ErrorRecorded(m: Records, m': Records, key: string) {
    key in m' && m'[key].lastError.Some? && !(key in m && m[key] == m'[key])
  }

  /** The page is flushed: EXPORTED or COMMITTED, without an error from this turn. */
  predicate FlushedPage(m: Records, m': Records, key: string) {
    key in m' && Terminal(m'[key].status) && !ErrorRecorded(m, m', key)
  }

  /** The pair was new, the page not known as COMMITTED, and it is flushed by an append that succeeded or by promotion. */
  predicate FlushedInTurn(w: World, w': World, item: Item, env: ItemEnv)
    requires w.run.Some? && w'.run.Some?
  {
    var s, s' := w.run.value, w'.run.value;
    && (item.url, item.hash) !in s.driven && !KnownCommitted(s, item.key)
    && FlushedPage(s.records, s'.records, item.key)
    && (if w'.file == w.file then s.resume else w'.file == w.file + [Line(item.url, item.hash)] && env.outcome.Ok?)
  }

  /** The pair was new, the page not known as COMMITTED, and the chunk was not turned down by validation. */
  predicate ReachedEnd(w: World, w': World, item: Item)
    requires w.run.Some? && w'.run.Some?
  {
    var s, s' := w.run.value, w'.run.value;
    && (item.url, item.hash) !in s.driven && !KnownCommitted(s, item.key)
    && !(item.problem.Some? && ErrorRecorded(s.records, s'.records, item.key))
  }

  /**
    Driven: the token is not cancelled and the turn left the page flushed. Cancelled: the
    token is cancelled and the item was neither skipped nor turned down by validation.
   */
  predicate Means(outcome: SingleItemOutcome, w: World, w': World, item: Item, env: ItemEnv, cancelled: bool) {
    && w.run.Some? && w'.run.Some?
    && (outcome.Driven? <==> !cancelled && FlushedInTurn(w, w', item, env))
    && (outcome.Cancelled? <==> cancelled && ReachedEnd(w, w', item))
  }

  lemma PromotedOutcome(w: World, item: Item, env: ItemEnv)
    requires Ready(w) && Addressable(item)
    requires (item.url, item.hash) !in w.run.value.driven && Decide(w.run.value, item) == PromoteFromFlushProof
    ensures var s, left := w.run.value, LeftRecord(w.run.value, item, env);
            && s.resume && !KnownCommitted(s, item.key) && left.Some? && Terminal(left.value.status)
            && (left.value.lastError.Some? ==> item.key in s.records && left.value == s.records[item.key])
  {
    var s := w.run.value;
    TakeKeepsInv(w, item);
    if item.key in s.records {
      assert Honest(s.records[item.key], Hashes(w.file)) && !Violates(s.records[item.key]);
    }
  }

  lemma ExportedOutcome(w: World, item: Item, env: ItemEnv)
    requires Ready(w) && Addressable(item) && Drives(w.run.value, item) && env.outcome.Ok?
    ensures var s, left := w.run.value, LeftRecord(w.run.value, item, env);
            !KnownCommitted(s, item.key) && left.Some? && left.value.status == Committed && left.value.lastError.None?
  {
    var s := w.run.value;
    SlotResult(w, item, env);
    if item.key in s.records {
      assert Honest(s.records[item.key], Hashes(w.file));
      assert s.resume ==> !Violates(s.records[item.key]);
    }
  }

  lemma FailedOutcome(w: World, item: Item, env: ItemEnv)
    requires Ready(w) && Addressable(item) && Fails(w.run.value, item, env)
    ensures var s, left := w.run.value, LeftRecord(w.run.value, item, env);
            && !KnownCommitted(s, item.key) && left.Some? && left.value.lastError.Some?
            && (item.key in s.records ==> left.value != s.records[item.key])
  {
    var s := w.run.value;
    if item.key in s.records {
      assert Honest(s.records[item.key], Hashes(w.file));
      assert s.resume ==> !Violates(s.records[item.key]);
    }
  }

  /** The outcome by the path taken is the outcome by the worlds around the turn. */
  lemma OutcomeExactlyWhen(w: World, item: Item, env: ItemEnv, cancelled: bool)
    requires Ready(w) && Addressable(item)
    ensures Means(OutcomeOf(w.run.value, item, env, cancelled), w, AfterItem(w, item, env), item, env, cancelled)
  {
    var s := w.run.value;
    ItemResult(w, item, env);
    if (item.url, item.hash) !in s.driven {
      if Decide(s, item) == PromoteFromFlushProof {
        PromotedOutcome(w, item, env);
      } else if Decide(s, item) == DriveAndCommit {
        if Fails(s, item, env) { FailedOutcome(w, item, env); } else { ExportedOutcome(w, item, env); }
      }
    }
  }

  /** A page that fails in its turn is never reported. */
  lemma FailedIsNotReported(w: World, item: Item, env: ItemEnv, cancelled: bool)
    requires Ready(w) && Addressable(item) && Fails(w.run.value, item, env)
    ensures var w' := AfterItem(w, item, env); w'.run.Some? && !FlushedInTurn(w, w', item, env)
    ensures !OutcomeOf(w.run.value, item, env, cancelled).Driven?
  {
    ItemResult(w, item, env);
    FailedOutcome(w, item, env);
  }

  /** The urls of the items whose turn left their page flushed while the token was not cancelled. */
  function FlushedUrls(w: World, items: seq<Item>, envs: seq<ItemEnv>, cancels: seq<bool>): seq<string>
    requires |items| == |envs| == |cancels|
    decreases |items|
  {
    if items == [] then []
    else
      var w' := AfterItem(w, items[0], envs[0]);
      (if w.run.Some? && w'.run.Some? && !cancels[0] && FlushedInTurn(w, w', items[0], envs[0]) then [items[0].url] else [])
      + FlushedUrls(w', items[1..], envs[1..], cancels[1..])
  }

  predicate AllAddressable(items: seq<Item>) {
    forall i :: 0 <= i < |items| ==> Addressable(items[i])
  }

  /** What is reported as processed is exactly what was flushed. */
  lemma {:induction false} ReportedIsFlushed(w: World, items: seq<Item>, envs: seq<ItemEnv>, cancels: seq<bool>)
    requires |items| == |envs| == |cancels| && Ready(w) && AllAddressable(items)
    ensures Reported(w, items, envs, cancels) == FlushedUrls(w, items, envs, cancels)
    decreases |items|
  {
    if items != [] {
      OutcomeExactlyWhen(w, items[0], envs[0], cancels[0]);
      ItemResult(w, items[0], envs[0]);
      ReportedIsFlushed(AfterItem(w, items[0], envs[0]), items[1..], envs[1..], cancels[1..]);
    }
  }

  /** How many items are touched: up to and including the first that observes cancellation. */
  function Cut(w: World, items: seq<Item>, envs: seq<ItemEnv>, cancels: seq<bool>): (n: nat)
    requires |items| == |envs| == |cancels|
    ensures n <= |items|
    decreases |items|
  {
    if items == [] then 0
    else if w.run.Some? && OutcomeOf(w.run.value, items[0], envs[0], cancels[0]).Cancelled? then 1
    else 1 + Cut(AfterItem(w, items[0], envs[0]), items[1..], envs[1..], cancels[1..])
  }

  /** Item `i` observes cancellation when its turn comes. */
  predicate Observes(w: World, items: seq<Item>, envs: seq<ItemEnv>, cancels: seq<bool>, i: nat)
    requires |items| == |envs| == |cancels| && i < |items|
  {
    var was := AfterItems(w, items[..i], envs[..i]);
    was.run.Some? && OutcomeOf(was.run.value, items[i], envs[i], cancels[i]).Cancelled?
  }

  lemma ObservesTail(w: World, items: seq<Item>, envs: seq<ItemEnv>, cancels: seq<bool>, i: nat)
    requires |items| == |envs| == |cancels| && 0 < i < |items|
    ensures Observes(w, items, envs, cancels, i) <==>
            Observes(AfterItem(w, items[0], envs[0]), items[1..], envs[1..], cancels[1..], i - 1)
  {
    assert items[..i][1..] == items[1..][..i - 1] && envs[..i][1..] == envs[1..][..i - 1];
  }

  /** The cut lies right after the first item that observes cancellation, and at the end if none does. */
  lemma {:induction false} CutExactlyWhen(w: World, items: seq<Item>, envs: seq<ItemEnv>, cancels: seq<bool>)
    requires |items| == |envs| == |cancels|
    ensures var n := Cut(w, items, envs, cancels);
            && (items != [] ==> n > 0)
            && (forall i :: 0 <= i < n - 1 ==> !Observes(w, items, envs, cancels, i))
            && (n < |items| ==> Observes(w, items, envs, cancels, n - 1))
    decreases |items|
  {
    if items != [] {
      assert items[..0] == [] && envs[..0] == [];
      var n := Cut(w, items, envs, cancels);
      if !Observes(w, items, envs, cancels, 0) {
        var w1 := AfterItem(w, items[0], envs[0]);
        CutExactlyWhen(w1, items[1..], envs[1..], cancels[1..]);
        forall i | 0 <= i < n - 1 ensures !Observes(w, items, envs, cancels, i) {
          if i > 0 { ObservesTail(w, items, envs, cancels, i); }
        }
        if n < |items| {
          ObservesTail(w, items, envs, cancels, n - 1);
        }
      }
    }
  }

  /**
    `process_results` stopped by the token, on any world left by earlier runs: the
    items after the first one to observe cancellation add no line and touch no record;
    everything up to it is durable, new lines COMMITTED and other statuses kept.
   */
  lemma StopsAtCancellation(w: World, runId: string, resume: bool, items: seq<Item>, envs: seq<ItemEnv>, cancels: seq<bool>)
    requires Inv(w) && w.run.None? && w.phase.Idle? && |items| == |envs| == |cancels|
    requires forall i :: 0 <= i < |items| ==> Addressable(items[i])
    requires ClockNeverStepsBack(w.store, envs)
    ensures var w0 := Step(w, CommitProtocol.Open(runId, resume, true));
            var n := Cut(w0, items, envs, cancels);
            var w' := Step(AfterItems(w0, items[..n], envs[..n]), FinalPersist(true));
            && (forall i :: 0 <= i < n - 1 ==> !Observes(w0, items, envs, cancels, i))
            && (n < |items| ==> n > 0 && Observes(w0, items, envs, cancels, n - 1))
            && w'.run.Some? && w'.store == w'.run.value.records
            && w.file <= w'.file
            && NewLinesCommitted(w'.file, |w.file|, items[..n], envs[..n], w'.store)
            && StatusKept(Quarantine(w.store), w'.store)
            && OthersUntouched(items[..n], Quarantine(w.store), w'.store)
  {
    var w0 := Step(w, CommitProtocol.Open(runId, resume, true));
    CutExactlyWhen(w0, items, envs, cancels);
    CancelledRun(w, runId, resume, items, envs, Cut(w0, items, envs, cancels));
  }

  lemma CheckpointStep(w: World, w': World, key: string, ok: bool)
    requires w.run.Some? && w.phase == Staged(key)
    requires w' == w.(store := if ok then Persist(w.store, w.run.value.records) else w.store, phase := Checkpointed(key))
    ensures w' == Step(w, Save(ok))
  {
  }

  lemma CommitStep(w: World, w': World, key: string, now: int)
    requires w.run.Some? && w.phase == Checkpointed(key) && key in w.run.value.records
    requires TryCommit(w.run.value.records[key]).Some?
    requires var s := w.run.value;
             w' == w.(run := Some(s.(records := s.records[key := TryCommit(s.records[key]).value])), phase := Swapped(key))
    ensures w' == Step(w, Advance(now))
  {
  }

  lemma SwappedStep(w: World, w': World, key: string, ok: bool)
    requires w.run.Some? && w.phase == Swapped(key)
    requires w' == w.(store := if ok then Persist(w.store, w.run.value.records) else w.store, phase := Idle)
    ensures w' == Step(w, Save(ok))
  {
  }

  /** A record the machine does not accept stays EXPORTED; nothing is saved again. */
  lemma RejectStep(w: World, key: string, env: ItemEnv)
    requires w.run.Some? && w.phase == Checkpointed(key) && key in w.run.value.records
    requires TryCommit(w.run.value.records[key]).None?
    ensures w.(phase := Idle) == Step(Step(w, Advance(env.now)), Save(env.secondSave))
  {
  }

  /** A slot still to do is as loaded, the others are merged. */
  ghost predicate Merging(current: Records, loaded: Records, mine: Records, todo: set<string>, k: string)
    requires k in current
  {
    if k in todo then k in loaded && current[k] == loaded[k]
    else k in Merge(loaded, mine) && current[k] == Merge(loaded, mine)[k]
  }

  class CommitSession {
    const runId: string
    const resume: bool
    var file: seq<Line>
    var store: Records
    var records: Records
    var index: set<string>
    var driven: set<(string, string)>

    ghost function Volatile(): Session
      reads this
    {
      Session(runId, resume, records, index, driven)
    }

    ghost function View(phase: Phase): World
      reads this
    {
      World(file, store, Some(Volatile()), phase)
    }

    /** Load the records, index the content hashes already flushed. */
    constructor Open(runId: string, resume: bool, file: seq<Line>, store: Records, loadOk: bool)
      ensures View(Idle) == Step(World(file, store, None, Idle), CommitProtocol.Open(runId, resume, loadOk))
    {
      this.runId := runId;
      this.resume := resume;
      this.file := file;
      this.store := store;
      this.records := if loadOk then Quarantine(store) else map[];
      this.driven := {};
      var hashes: set<string> := {};
      for i := 0 to |file|
        invariant hashes == set j | 0 <= j < i :: file[j].hash
      {
        hashes := hashes + {file[i].hash};
      }
      this.index := hashes;
    }

    /** The pair is claimed; the result says whether it was new. */
    method ClaimAppend(url: string, hash: string) returns (first: bool)
      modifies this`driven
      ensures first <==> (url, hash) !in old(driven)
      ensures driven == old(driven) + {(url, hash)}
    {
      first := (url, hash) !in driven;
      driven := driven + {(url, hash)};
    }

    /** The store transaction: re-read, merge slot by slot, write back; a failed one writes nothing. */
    method MergePersist(ok: bool)
      modifies this`store
      ensures store == if ok then Persist(old(store), records) else old(store)
    {
      if !ok { return; }
      var current := Quarantine(store);
      var todo := records.Keys;
      ghost var loaded := current;
      while todo != {}
        invariant todo <= records.Keys
        invariant current.Keys == loaded.Keys + (records.Keys - todo)
        invariant forall k :: k in current ==> Merging(current, loaded, records, todo, k)
        decreases todo
      {
        var key :| key in todo;
        if !(key in current && current[key].updatedAt > records[key].updatedAt) {
          current := current[key := records[key]];
        }
        todo := todo - {key};
      }
      store := current;
    }

    /** Checkpoint a staged record, pass the commit point, save again. */
    method SettleStaged(key: string, env: ItemEnv)
      requires key in records
      modifies this`records, this`store
      ensures View(Idle) == Step(Step(Step(old(View(Staged(key))), Save(env.firstSave)), Advance(env.now)), Save(env.secondSave))
    {
      ghost var w := View(Staged(key));
      MergePersist(env.firstSave);
      ghost var w1 := View(Checkpointed(key));
      CheckpointStep(w, w1, key, env.firstSave);
      var committed := TryCommit(records[key]);
      if committed.Some? {
        records := records[key := committed.value];
        ghost var w2 := View(Swapped(key));
        CommitStep(w1, w2, key, env.now);
        MergePersist(env.secondSave);
        SwappedStep(w2, View(Idle), key, env.secondSave);
      } else {
        RejectStep(w1, key, env);
      }
    }

    method CommitItem(item: Item, env: ItemEnv)
      modifies this`records, this`store
      ensures View(Idle) == Step(Step(Step(Step(old(View(Flushed(item))), Advance(env.now)),
                                           Save(env.firstSave)), Advance(env.now)), Save(env.secondSave))
    {
      ghost var w := View(Flushed(item));
      var staged := CommitRecord(Session(runId, resume, records, index, driven), item, env.now);
      if staged.None? {
        records := records - {item.key};
        return;
      }
      records := records[item.key := staged.value];
      assert View(Staged(item.key)) == Step(w, Advance(env.now));
      SettleStaged(item.key, env);
    }

    method PromoteFromFlushProof(item: Item, env: ItemEnv)
      modifies this`records, this`store
      ensures View(Idle) == Step(Step(Step(Step(old(View(Promoting(item))), Advance(env.now)),
                                           Save(env.firstSave)), Advance(env.now)), Save(env.secondSave))
    {
      ghost var w := View(Promoting(item));
      var staged := PromotedRecord(Session(runId, resume, records, index, driven), item, env.now);
      if staged.None? {
        records := records - {item.key};
        return;
      }
      records := records[item.key := staged.value];
      assert View(Staged(item.key)) == Step(w, Advance(env.now));
      SettleStaged(item.key, env);
    }

    method FailItem(item: Item, error: ExporterError, env: ItemEnv)
      modifies this`records, this`store
      ensures View(Idle) == Step(Step(Step(Step(old(View(Failing(item, error))), Advance(env.now)),
                                           Save(env.firstSave)), Advance(env.now)), Save(env.secondSave))
    {
      ghost var w := View(Failing(item, error));
      var failed := FailedRecord(Session(runId, resume, records, index, driven), item, error, env.now);
      if failed.None? {
        records := records - {item.key};
        return;
      }
      records := records[item.key := failed.value];
      assert View(FailStaged) == Step(w, Advance(env.now));
      MergePersist(env.firstSave);
    }

    /** The path an item takes decides the outcome; the world moves by the item's micro steps. */
    method ProcessSingleItem(item: Item, env: ItemEnv, cancelled: bool) returns (outcome: SingleItemOutcome)
      modifies this`file, this`store, this`records, this`driven
      ensures View(Idle) == AfterItem(old(View(Idle)), item, env)
      ensures outcome == OutcomeOf(old(Volatile()), item, env, cancelled)
      ensures Ready(old(View(Idle))) && Addressable(item) ==> Means(outcome, old(View(Idle)), View(Idle), item, env, cancelled)
    {
      ghost var w := View(Idle);
      if Ready(w) && Addressable(item) { OutcomeExactlyWhen(w, item, env, cancelled); }
      ItemEventsRun(w, item, env);
      var first := ClaimAppend(item.url, item.hash);
      if !first {
        assert driven == old(driven);
        return Skipped;
      }
      var decision := Decide(Session(runId, resume, records, index, driven), item);
      match decision {
        case AlreadyCommitted =>
          return Skipped;
        case PromoteFromFlushProof =>
          assert View(Promoting(item)) == Step(Step(w, Take(item)), Export(env.outcome));
          PromoteFromFlushProof(item, env);
          return if cancelled then Cancelled else Driven;
        case DriveAndCommit =>
      }
      if item.problem.Some? {
        assert View(Failing(item, InvalidConfig(item.problem.value))) == Step(Step(w, Take(item)), Export(env.outcome));
        FailItem(item, InvalidConfig(item.problem.value), env);
        return Skipped;
      }
      ghost var w1 := Step(w, Take(item));
      assert View(Appending(item)) == w1;
      match env.outcome {
        case Ok =>
          file := file + [Line(item.url, item.hash)];
          assert View(Flushed(item)) == Step(w1, Export(env.outcome));
          CommitItem(item, env);
          return if cancelled then Cancelled else Driven;
        case FailedClean(error) =>
          assert View(Failing(item, error)) == Step(w1, Export(env.outcome));
          FailItem(item, error, env);
          return if cancelled then Cancelled else Skipped;
        case FailedDirty(error) =>
          file := file + [Line(item.url, item.hash)];
          assert View(Failing(item, error)) == Step(w1, Export(env.outcome));
          FailItem(item, error, env);
          return if cancelled then Cancelled else Skipped;
      }
    }

    /**
      Items are taken in order up to the first one that observes cancellation, and no
      further; the world is what the step machine
      makes of that prefix, followed by one final persist.
     */
    method ProcessResults(items: seq<Item>, envs: seq<ItemEnv>, cancels: seq<bool>, finalOk: bool)
      returns (processed: seq<string>, touched: nat)
      requires |items| == |envs| == |cancels|
      modifies this`file, this`store, this`records, this`driven
      ensures touched == Cut(old(View(Idle)), items, envs, cancels)
      ensures View(Idle) == Step(AfterItems(old(View(Idle)), items[..touched], envs[..touched]), FinalPersist(finalOk))
      ensures processed == Reported(old(View(Idle)), items[..touched], envs[..touched], cancels[..touched])
      ensures Ready(old(View(Idle))) && AllAddressable(items) ==>
                processed == FlushedUrls(old(View(Idle)), items[..touched], envs[..touched], cancels[..touched])
    {
      processed, touched := [], 0;
      var stop := false;
      ghost var w := View(Idle);
      while touched < |items| && !stop
        invariant touched <= |items|
        invariant Cut(w, items, envs, cancels) ==
                  touched + if stop then 0 else Cut(View(Idle), items[touched..], envs[touched..], cancels[touched..])
        invariant View(Idle) == AfterItems(w, items[..touched], envs[..touched])
        invariant processed == Reported(w, items[..touched], envs[..touched], cancels[..touched])
        decreases |items| - touched
      {
        ghost var was := View(Idle);
        CutStep(was, items, envs, cancels, touched);
        var outcome := ProcessSingleItem(items[touched], envs[touched], cancels[touched]);
        OneMore(w, items, envs, cancels, touched);
        if outcome.Driven? {
          processed := processed + [items[touched].url];
        }
        stop := outcome.Cancelled?;
        touched := touched + 1;
      }
      if Ready(w) && AllAddressable(items) {
        ReportedIsFlushed(w, items[..touched], envs[..touched], cancels[..touched]);
      }
      MergePersist(finalOk);
    }
  }

  lemma CutStep(w: World, items: seq<Item>, envs: seq<ItemEnv>, cancels: seq<bool>, n: nat)
    requires n < |items| == |envs| == |cancels|
    ensures Cut(w, items[n..], envs[n..], cancels[n..]) ==
            if w.run.Some? && OutcomeOf(w.run.value, items[n], envs[n], cancels[n]).Cancelled? then 1
            else 1 + Cut(AfterItem(w, items[n], envs[n]), items[n + 1..], envs[n + 1..], cancels[n + 1..])
  {
    assert items[n..][1..] == items[n + 1..] && envs[n..][1..] == envs[n + 1..] && cancels[n..][1..] == cancels[n + 1..];
  }

  lemma OneMore(w: World, items: seq<Item>, envs: seq<ItemEnv>, cancels: seq<bool>, n: nat)
    requires n < |items| == |envs| == |cancels|
    ensures var was := AfterItems(w, items[..n], envs[..n]);
            && AfterItems(w, items[..n + 1], envs[..n + 1]) == AfterItem(was, items[n], envs[n])
            && Reported(w, items[..n + 1], envs[..n + 1], cancels[..n + 1]) ==
               Reported(w, items[..n], envs[..n], cancels[..n])
               + (if was.run.Some? && OutcomeOf(was.run.value, items[n], envs[n], cancels[n]).Driven? then [items[n].url] else [])
  {
    AfterItemsSnoc(w, items[..n + 1], envs[..n + 1], cancels[..n + 1]);
    assert items[..n + 1][..n] == items[..n] && envs[..n + 1][..n] == envs[..n] && cancels[..n + 1][..n] == cancels[..n];
  }

  /** Tail of the first items is the first items of the tail. */
  lemma TailOfInit<T>(s: seq<T>)
    requires |s| > 1
    ensures s[1..][..|s| - 2] == s[..|s| - 1][1..] && s[1..][|s| - 2] == s[|s| - 1] && s[..|s| - 1][0] == s[0]
  {
  }

  lemma {:induction false} AfterItemsSnoc(w: World, items: seq<Item>, envs: seq<ItemEnv>, cancels: seq<bool>)
    requires |items| == |envs| == |cancels| > 0
    ensures var n := |items| - 1;
            var was := AfterItems(w, items[..n], envs[..n]);
            && AfterItems(w, items, envs) == AfterItem(was, items[n], envs[n])
            && Reported(w, items, envs, cancels) ==
               Reported(w, items[..n], envs[..n], cancels[..n])
               + (if was.run.Some? && OutcomeOf(was.run.value, items[n], envs[n], cancels[n]).Driven? then [items[n].url] else [])
    decreases |items|
  {
    var n := |items| - 1;
    if n > 0 {
      AfterItemsSnoc(AfterItem(w, items[0], envs[0]), items[1..], envs[1..], cancels[1..]);
      TailOfInit(items);
      TailOfInit(envs);
      TailOfInit(cancels);
    } else {
      assert items[1..] == [] && items[..0] == [] && envs[1..] == [] && envs[..0] == [] && cancels[1..] == [];
    }
  }
}
