/**
  What the commit protocol promises over whole runs: which runs keep the output
  file free of repeated (url, content hash) lines, exactly when one item breaks
  it, and how far a COMMITTED record can be trusted.
 */
module ExactlyOnce {
  import opened Text
  import opened PageRecords
  import opened CommitProtocol

  predicate NoRepeats(file: seq<Line>) {
    forall i, j :: 0 <= i < j < |file| ==> file[i] != file[j]
  }

  /** A session resumes or starts on an empty file, and no item fails; loads, saves and crashes are unconstrained. */
  predicate CleanEvent(w: World, e: Event) {
    && (e.Open? ==> e.resume || w.file == [])
    && (e.Take? ==> e.item.problem.None?)
    && (e.Export? ==> e.outcome.Ok?)
  }

  ghost predicate AllTerminal(m: Records) {
    forall k :: k in m ==> Terminal(m[k].status)
  }

  ghost predicate CleanInv(w: World) {
    Inv(w) && NoFailures(w)
  }

  /** No repeated line, no record below EXPORTED, no failing item, and a line about to be written is new. */
  ghost predicate NoFailures(w: World) {
    && NoRepeats(w.file)
    && AllTerminal(w.store)
    && (w.run.Some? ==>
          && (w.run.value.resume || w.run.value.index == {})
          && AllTerminal(w.run.value.records)
          && !w.phase.Failing? && !w.phase.FailStaged?
          && (w.phase.Appending? ==> Line(w.phase.item.url, w.phase.item.hash) !in w.file))
  }

  /** The gate lets a recorded key through to the exporter exactly when its record is below EXPORTED. */
  lemma GateSoundness(w: World, item: Item)
    requires Inv(w) && w.run.Some? && w.phase.Idle? && w.run.value.resume
    ensures var s := w.run.value;
            Decide(s, item) == DriveAndCommit <==>
              if item.key in s.records then !Terminal(s.records[item.key].status) else item.hash !in s.index
  {
    var s := w.run.value;
    if item.key in s.records {
      var r := s.records[item.key];
      assert Honest(r, Hashes(w.file)) && !Violates(r);
    }
  }

  lemma TakeKeepsClean(w: World, item: Item)
    requires CleanInv(w) && w.run.Some? && w.phase.Idle? && item.problem.None?
    ensures CleanInv(Taken(w, item))
  {
    StepKeepsInv(w, Take(item));
    var s := w.run.value;
    if s.resume {
      GateSoundness(w, item);
    }
    assert Decide(s.(driven := s.driven + {(item.url, item.hash)}), item) == Decide(s, item);
  }

  lemma StageKeepsNoFailures(w: World, key: string, r: Option<Record>, next: Phase)
    requires NoFailures(w) && w.run.Some? && (next.Staged? || next.Swapped?)
    requires r.Some? ==> Terminal(r.value.status)
    ensures NoFailures(Stage(w, key, r, next))
  {
  }

  lemma StagedRecordsAreTerminal(s: Session, item: Item, now: int)
    ensures CommitRecord(s, item, now).Some? ==> CommitRecord(s, item, now).value.status == Exported
    ensures PromotedRecord(s, item, now).Some? ==> PromotedRecord(s, item, now).value.status == Exported
  {
  }

  lemma AdvanceKeepsNoFailures(w: World, now: int)
    requires NoFailures(w) && w.run.Some?
    ensures NoFailures(Advanced(w, now))
  {
    var s := w.run.value;
    match w.phase
    case Flushed(item) =>
      StagedRecordsAreTerminal(s, item, now);
      StageKeepsNoFailures(w, item.key, CommitRecord(s, item, now), Staged(item.key));
    case Promoting(item) =>
      StagedRecordsAreTerminal(s, item, now);
      StageKeepsNoFailures(w, item.key, PromotedRecord(s, item, now), Staged(item.key));
    case Checkpointed(key) =>
      if key in s.records && TryCommit(s.records[key]).Some? {
        StageKeepsNoFailures(w, key, TryCommit(s.records[key]), Swapped(key));
      }
    case _ =>
  }

  lemma AdvanceKeepsClean(w: World, now: int)
    requires CleanInv(w) && w.run.Some?
    ensures CleanInv(Advanced(w, now))
  {
    AdvanceKeepsInv(w, now);
    AdvanceKeepsNoFailures(w, now);
  }

  lemma PersistKeepsTerminal(store: Records, mine: Records)
    requires AllTerminal(store) && AllTerminal(mine)
    ensures AllTerminal(Persist(store, mine))
  {
  }

  lemma StepKeepsClean(w: World, e: Event)
    requires CleanInv(w) && CleanEvent(w, e)
    ensures CleanInv(Step(w, e))
  {
    match e
    case Open(runId, resume, loadOk) => OpenKeepsInv(w, runId, resume, loadOk);
    case Take(item) => if w.run.Some? && w.phase.Idle? { TakeKeepsClean(w, item); }
    case Export(outcome) => if w.run.Some? && w.phase.Appending? { ExportKeepsInv(w, outcome); }
    case Advance(now) => if w.run.Some? { AdvanceKeepsClean(w, now); }
    case Save(ok) =>
      StepKeepsInv(w, e);
      if w.run.Some? { PersistKeepsTerminal(w.store, w.run.value.records); }
    case FinalPersist(ok) =>
      StepKeepsInv(w, e);
      if w.run.Some? { PersistKeepsTerminal(w.store, w.run.value.records); }
    case Crash =>
  }

  /** Every event of the run is clean when it comes. */
  predicate CleanRun(w: World, es: seq<Event>)
    decreases |es|
  {
    es == [] || (CleanEvent(w, es[0]) && CleanRun(Step(w, es[0]), es[1..]))
  }

  lemma {:induction false} RunKeepsClean(w: World, es: seq<Event>)
    requires CleanInv(w) && CleanRun(w, es)
    ensures CleanInv(Run(w, es))
    decreases |es|
  {
    if es != [] {
      StepKeepsClean(w, es[0]);
      RunKeepsClean(Step(w, es[0]), es[1..]);
    }
  }

  /**
    Over any sequence of runs, the ones on an empty file fresh or resumed and the
    later ones resumed, each cut by a crash at any step or run to its end, with any
    loads and saves failing and page content free to change, the output file never
    holds two lines with the same url and content hash.
   */
  lemma AtMostOneLine(es: seq<Event>)
    requires CleanRun(EmptyWorld, es)
    ensures NoRepeats(Run(EmptyWorld, es).file)
  {
    RunKeepsClean(EmptyWorld, es);
  }

  /**
    At every step of every run (fresh or resumed, failures and crashes included)
    a record at EXPORTED or COMMITTED, durable or in memory, carries a content
    hash already in the output file, and no record below EXPORTED carries any.
   */
  lemma RecordsNeverOverclaim(es: seq<Event>)
    ensures var w := Run(EmptyWorld, es);
            && AllHonest(w.store, Hashes(w.file))
            && (w.run.Some? ==> AllHonest(w.run.value.records, Hashes(w.file)))
  {
    RunKeepsInv(EmptyWorld, es);
  }

  /** Reachable with no restriction on the run. */
  ghost predicate Reachable(w: World) {
    exists es :: Run(EmptyWorld, es) == w
  }

  /**
    From any reachable state, taking and exporting one valid item repeats a line
    exactly when that line is on disk, the pair is unclaimed in this session, and
    either the session does not resume or the key's record is below EXPORTED
    (what `fail_item` leaves behind). All three are readable before the call.
   */
  lemma RepeatsExactlyWhen(w: World, item: Item)
    requires Reachable(w) && w.run.Some? && w.phase.Idle? && item.problem.None?
    requires NoRepeats(w.file)
    ensures var s := w.run.value;
            !NoRepeats(Run(w, [Take(item), Export(Ok)]).file) <==>
              && Line(item.url, item.hash) in w.file
              && (item.url, item.hash) !in s.driven
              && (!s.resume || (item.key in s.records && !Terminal(s.records[item.key].status)))
  {
    var es :| Run(EmptyWorld, es) == w;
    RunKeepsInv(EmptyWorld, es);
    var s := w.run.value;
    var l := Line(item.url, item.hash);
    var w1 := Step(w, Take(item));
    var w2 := Step(w1, Export(Ok));
    assert Run(w, [Take(item), Export(Ok)]) == w2 by {
      assert [Take(item), Export(Ok)][1..] == [Export(Ok)];
      assert Run(w1, [Export(Ok)]) == Run(w2, []);
    }
    if s.resume {
      GateSoundness(w, item);
      assert Decide(s.(driven := s.driven + {(item.url, item.hash)}), item) == Decide(s, item);
    }
    if w1.phase.Appending? {
      assert w2.file == w.file + [l];
      if l in w.file {
        var i :| 0 <= i < |w.file| && w.file[i] == l;
        assert w2.file[i] == w2.file[|w.file|];
      }
    }
  }

  /** A first failure leaves a record below EXPORTED next to the line it already wrote. */
  lemma DirtyFailure(item: Item, error: ExporterError)
    requires item.problem.None? && !Blank(item.url) && !Blank(item.key)
    ensures var w := Step(Step(Step(EmptyWorld, Open("r1", true, true)), Take(item)), Export(FailedDirty(error)));
            && w.file == [Line(item.url, item.hash)]
            && w.run.Some? && w.run.value.records == map[] && w.store == map[]
            && w.phase == Failing(item, error)
  {
  }

  lemma DirtyFailureSaved(w: World, item: Item, error: ExporterError, now: int)
    requires item.problem.None? && !Blank(item.url) && !Blank(item.key)
    requires w.run.Some? && w.run.value.records == map[] && w.store == map[] && w.phase == Failing(item, error)
    ensures var w' := Step(Step(Step(w, Advance(now)), Save(true)), Crash);
            && w'.file == w.file && w'.run.None? && w'.phase.Idle?
            && item.key in w'.store && !Violates(w'.store[item.key])
            && w'.store[item.key].status == Discovered && w'.store[item.key].contentHash.None?
  {
  }

  /** Whatever the page, a failure that leaves its line on disk makes the next resumed run repeat it. */
  lemma FailureDefeatsFlushProof(item: Item, error: ExporterError, now: int)
    requires item.problem.None? && !Blank(item.url) && !Blank(item.key)
    ensures !NoRepeats(Run(EmptyWorld,
              [Open("r1", true, true), Take(item), Export(FailedDirty(error)), Advance(now), Save(true), Crash,
               Open("r2", true, true), Take(item), Export(Ok)]).file)
  {
    RunNine(EmptyWorld, Open("r1", true, true), Take(item), Export(FailedDirty(error)), Advance(now), Save(true), Crash,
            Open("r2", true, true), Take(item), Export(Ok));
    DirtyFailure(item, error);
    var w3 := Step(Step(Step(EmptyWorld, Open("r1", true, true)), Take(item)), Export(FailedDirty(error)));
    DirtyFailureSaved(w3, item, error, now);
    var w6 := Step(Step(Step(w3, Advance(now)), Save(true)), Crash);
    var w9 := Step(Step(Step(w6, Open("r2", true, true)), Take(item)), Export(Ok));
    assert w9.file[0] == w9.file[1];
  }

  lemma RunNine(w: World, a: Event, b: Event, c: Event, d: Event, e: Event, f: Event, g: Event, h: Event, i: Event)
    ensures Run(w, [a, b, c, d, e, f, g, h, i]) ==
            Step(Step(Step(Step(Step(Step(Step(Step(Step(w, a), b), c), d), e), f), g), h), i)
  {
    RunConcat(w, [a, b, c], [d, e, f, g, h, i]);
    assert [a, b, c] + [d, e, f, g, h, i] == [a, b, c, d, e, f, g, h, i];
    var w1 := Run(w, [a, b, c]);
    RunThree(w, a, b, c);
    RunConcat(w1, [d, e, f], [g, h, i]);
    assert [d, e, f] + [g, h, i] == [d, e, f, g, h, i];
    RunThree(w1, d, e, f);
    RunThree(Run(w1, [d, e, f]), g, h, i);
  }

  lemma RunThree(w: World, a: Event, b: Event, c: Event)
    ensures Run(w, [a, b, c]) == Step(Step(Step(w, a), b), c)
  {
    assert [a, b, c][1..] == [b, c] && [b, c][1..] == [c] && [c][1..] == [];
    assert Run(Step(w, a), [b, c]) == Run(Step(Step(w, a), b), [c]);
  }

  // ----- what happens to one slot -----

  /** The machine accepts the commit point of an honest EXPORTED record exactly when no error clings to it. */
  lemma CommitPointAccepts(r: Record, hashes: set<string>)
    requires Honest(r, hashes) && r.status == Exported
    ensures TryCommit(r).Some? <==> r.lastError.None?
    ensures TryCommit(r).Some? ==> TryCommit(r).value == r.(status := Committed)
  {
  }

  /** A failed item keeps its status, and becomes an impossible state exactly when it was COMMITTED. */
  lemma FailureKeepsStatus(s: Session, item: Item, error: ExporterError, now: int, hashes: set<string>)
    requires AllHonest(s.records, hashes)
    requires item.key in s.records
    ensures var f := FailedRecord(s, item, error, now);
            && f.Some? && f.value.status == s.records[item.key].status
            && f.value.contentHash == s.records[item.key].contentHash
            && (Violates(f.value) <==> s.records[item.key].status == Committed)
  {
    assert Honest(s.records[item.key], hashes);
  }

  /**
    A promotion runs to COMMITTED exactly when the staged record carries no
    error; an EXPORTED record on which a fresh run once failed stays EXPORTED,
    and no line is appended either way.
   */
  lemma PromotionCommitsExactlyWhen(w: World, now: int, ok: bool)
    requires Inv(w) && w.run.Some? && w.phase.Promoting? && w.run.value.resume
    requires !Blank(w.phase.item.url) && !Blank(w.phase.item.key)
    ensures var s := w.run.value;
            var key := w.phase.item.key;
            var w' := Run(w, [Advance(now), Save(ok), Advance(now)]);
            && w'.file == w.file
            && w'.run.Some? && key in w'.run.value.records
            && (w'.run.value.records[key].status == Committed <==>
                  key !in s.records || s.records[key].lastError.None?)
            && (w'.run.value.records[key].status == Committed || w'.run.value.records[key] == s.records[key])
  {
    RunThree(w, Advance(now), Save(ok), Advance(now));
    var s, item := w.run.value, w.phase.item;
    PromotedShape(w, now);
    var r := PromotedRecord(s, item, now).value;
    PromotionSteps(w, r, now, ok);
    CommitPointAccepts(r, Hashes(w.file));
  }

  /** A known record is promoted as it is; an unknown one without an error. */
  lemma PromotedShape(w: World, now: int)
    requires Inv(w) && w.run.Some? && w.phase.Promoting? && w.run.value.resume
    requires !Blank(w.phase.item.url) && !Blank(w.phase.item.key)
    ensures var s, item := w.run.value, w.phase.item;
            var r := PromotedRecord(s, item, now);
            && r.Some? && r.value.status == Exported && Honest(r.value, Hashes(w.file))
            && (if item.key in s.records then r.value == s.records[item.key] else r.value.lastError.None?)
  {
    var s, item := w.run.value, w.phase.item;
    if item.key in s.records {
      assert Honest(s.records[item.key], Hashes(w.file)) && !Violates(s.records[item.key]);
    }
  }

  /** Stage, checkpoint, swap: the slot ends with the committed record if the machine accepts it. */
  lemma PromotionSteps(w: World, r: Record, now: int, ok: bool)
    requires w.run.Some? && w.phase.Promoting? && PromotedRecord(w.run.value, w.phase.item, now) == Some(r)
    ensures var key := w.phase.item.key;
            var w' := Step(Step(Step(w, Advance(now)), Save(ok)), Advance(now));
            && w'.file == w.file && w'.run.Some? && key in w'.run.value.records
            && w'.run.value.records[key] == (if TryCommit(r).Some? then TryCommit(r).value else r)
  {
    var key := w.phase.item.key;
    var w1 := Step(w, Advance(now));
    assert w1 == Stage(w, key, Some(r), Staged(key));
    var w2 := Step(w1, Save(ok));
    assert w2.run == w1.run && w2.file == w.file && w2.phase == Checkpointed(key);
  }
}
