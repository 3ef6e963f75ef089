/**
  The export of pre-cleaned chunks: every decision is taken up front, the chunks to
  drive are appended in one batch, then each chunk's record is settled in order.
  A chunk that fails validation is not in the batch, yet its record is committed;
  this module says exactly when records stay honest all the same.
 */
module ChunkBatch {
  import opened Text
  import opened PageRecords
  import opened CommitProtocol
  import opened ExactlyOnce
  import opened ExportRun
  import opened CommitSessions

  /** The lines of the batch: driven chunks that validate, first occurrences only. */
  function BatchLines(s: Session, items: seq<Item>): seq<Line> {
    if items == [] then []
    else
      var n := |items| - 1;
      var item, earlier := items[n], BatchLines(s, items[..n]);
      var line := Line(item.url, item.hash);
      if Decide(s, item) == DriveAndCommit && item.problem.None? && line !in earlier then earlier + [line] else earlier
  }

  function Decisions(s: Session, items: seq<Item>): (ds: seq<Decision>)
    ensures |ds| == |items|
  {
    seq(|items|, i requires 0 <= i < |items| => Decide(s, items[i]))
  }

  function SettleEvents(env: ItemEnv): seq<Event> {
    [Advance(env.now), Save(env.firstSave), Advance(env.now), Save(env.secondSave)]
  }

  /** One chunk after the batch is on disk. */
  function AfterChunk(w: World, item: Item, d: Decision, env: ItemEnv): World {
    match d
    case AlreadyCommitted => w
    case PromoteFromFlushProof => Run(w.(phase := Promoting(item)), SettleEvents(env))
    case DriveAndCommit => Run(w.(phase := Flushed(item)), SettleEvents(env))
  }

  function AfterChunks(w: World, ds: seq<Decision>, items: seq<Item>, envs: seq<ItemEnv>, n: nat): World
    requires |ds| == |items| == |envs| && n <= |items|
  {
    if n == 0 then w else AfterChunk(AfterChunks(w, ds, items, envs, n - 1), items[n - 1], ds[n - 1], envs[n - 1])
  }

  lemma SettleRun(w: World, env: ItemEnv)
    ensures Run(w, SettleEvents(env)) ==
            Step(Step(Step(Step(w, Advance(env.now)), Save(env.firstSave)), Advance(env.now)), Save(env.secondSave))
  {
    var es := SettleEvents(env);
    var w1 := Step(w, es[0]);
    RunThree(w1, es[1], es[2], es[3]);
    assert es[1..] == [es[1], es[2], es[3]];
  }

  // ----- the batch appends nothing twice -----

  lemma {:induction false} BatchLinesNew(s: Session, items: seq<Item>)
    ensures NoRepeats(BatchLines(s, items))
    ensures forall l :: l in BatchLines(s, items) ==> FromDriven(s, items, l)
  {
    if items != [] {
      var n := |items| - 1;
      var earlier := BatchLines(s, items[..n]);
      BatchLinesNew(s, items[..n]);
      forall l | l in BatchLines(s, items) ensures FromDriven(s, items, l) {
        if l in earlier {
          var i :| 0 <= i < n && DrivenLine(s, items[..n][i], l);
          assert DrivenLine(s, items[i], l);
        } else {
          assert DrivenLine(s, items[n], l);
        }
      }
    }
  }

  predicate DrivenLine(s: Session, item: Item, l: Line) {
    l == Line(item.url, item.hash) && Decide(s, item) == DriveAndCommit && item.problem.None?
  }

  ghost predicate FromDriven(s: Session, items: seq<Item>, l: Line) {
    exists i :: 0 <= i < |items| && DrivenLine(s, items[i], l)
  }

  /** A valid chunk whose line is on disk and which the gate does not stop: a fresh run, or a record below EXPORTED. */
  predicate Reappends(w: World, item: Item)
    requires w.run.Some?
  {
    var s := w.run.value;
    && item.problem.None? && Line(item.url, item.hash) in w.file
    && (!s.resume || (item.key in s.records && !Terminal(s.records[item.key].status)))
  }

  ghost predicate SomeReappends(w: World, items: seq<Item>)
    requires w.run.Some?
  {
    exists i :: 0 <= i < |items| && Reappends(w, items[i])
  }

  lemma ReappendsExactlyWhen(w: World, item: Item)
    requires Inv(w) && w.run.Some? && w.phase.Idle? && w.run.value.index == Hashes(w.file)
    ensures Reappends(w, item) <==> DrivenLine(w.run.value, item, Line(item.url, item.hash)) && Line(item.url, item.hash) in w.file
  {
    var s := w.run.value;
    if s.resume {
      GateSoundness(w, item);
      if Line(item.url, item.hash) in w.file {
        var i :| 0 <= i < |w.file| && w.file[i] == Line(item.url, item.hash);
        assert w.file[i].hash in Hashes(w.file);
      }
    }
  }

  lemma {:induction false} DrivenLineIsInBatch(s: Session, items: seq<Item>, i: nat)
    requires i < |items| && DrivenLine(s, items[i], Line(items[i].url, items[i].hash))
    ensures Line(items[i].url, items[i].hash) in BatchLines(s, items)
    decreases |items|
  {
    var n := |items| - 1;
    if i < n {
      DrivenLineIsInBatch(s, items[..n], i);
    }
  }

  /**
    On a session just opened, the batch makes the file repeat a line exactly when one of
    its valid chunks has its line on disk and the run is fresh or the record of its page
    is below EXPORTED; it never repeats a line of its own.
   */
  lemma BatchRepeatsExactlyWhen(w: World, items: seq<Item>)
    requires Inv(w) && w.run.Some? && w.phase.Idle? && w.run.value.index == Hashes(w.file) && NoRepeats(w.file)
    ensures NoRepeats(BatchLines(w.run.value, items))
    ensures !NoRepeats(w.file + BatchLines(w.run.value, items)) <==> SomeReappends(w, items)
  {
    var s := w.run.value;
    var more := BatchLines(s, items);
    BatchLinesNew(s, items);
    if SomeReappends(w, items) {
      var k :| 0 <= k < |items| && Reappends(w, items[k]);
      ReappendsExactlyWhen(w, items[k]);
      DrivenLineIsInBatch(s, items, k);
      SharedLineRepeats(w.file, more, Line(items[k].url, items[k].hash));
    } else {
      forall i, j | 0 <= i < |w.file| && 0 <= j < |more| ensures w.file[i] != more[j] {
        assert more[j] in more;
        var k :| 0 <= k < |items| && DrivenLine(s, items[k], more[j]);
        ReappendsExactlyWhen(w, items[k]);
      }
      RepeatsOfConcat(w.file, more);
    }
  }

  lemma SharedLineRepeats(a: seq<Line>, b: seq<Line>, l: Line)
    requires l in a && l in b
    ensures !NoRepeats(a + b)
  {
    var i :| 0 <= i < |a| && a[i] == l;
    var j :| 0 <= j < |b| && b[j] == l;
    assert (a + b)[i] == (a + b)[|a| + j];
  }

  lemma RepeatsOfConcat(a: seq<Line>, b: seq<Line>)
    requires NoRepeats(a) && NoRepeats(b)
    requires forall i, j :: 0 <= i < |a| && 0 <= j < |b| ==> a[i] != b[j]
    ensures NoRepeats(a + b)
  {
  }

  // ----- one chunk's record -----

  /** The source rejects records without an identity. */
  ghost predicate Identified(m: Records) {
    forall k :: k in m ==> !Blank(m[k].canonicalUrl)
  }

  /** The record staged for a chunk that is not skipped. */
  function StagedRecord(s: Session, item: Item, d: Decision, now: int): Option<Record> {
    if d.PromoteFromFlushProof? then PromotedRecord(s, item, now) else CommitRecord(s, item, now)
  }

  lemma StagedExists(s: Session, item: Item, d: Decision, now: int, hashes: set<string>)
    requires Addressable(item) && AllHonest(s.records, hashes) && Identified(s.records)
    ensures var r := StagedRecord(s, item, d, now);
            r.Some? && r.value.status == Exported && !Blank(r.value.canonicalUrl)
  {
    if item.key in s.records {
      assert Honest(s.records[item.key], hashes);
    }
  }

  /** The slot of a chunk, what it is replaced by, and that nothing else moves. */
  lemma ChunkResult(w: World, item: Item, d: Decision, env: ItemEnv)
    requires w.run.Some? && w.phase.Idle? && !d.AlreadyCommitted?
    requires StagedRecord(w.run.value, item, d, env.now).Some?
    ensures var s, w' := w.run.value, AfterChunk(w, item, d, env);
            && w'.phase.Idle? && w'.file == w.file
            && w'.run == Some(s.(records := s.records[item.key := Settled(StagedRecord(s, item, d, env.now).value)]))
  {
    var s := w.run.value;
    var r := StagedRecord(s, item, d, env.now).value;
    var w0 := w.(phase := if d.PromoteFromFlushProof? then Promoting(item) else Flushed(item));
    SettleRun(w0, env);
    var w1 := Step(w0, Advance(env.now));
    assert w1 == Stage(w0, item.key, Some(r), Staged(item.key));
    CommitTail(w1, item.key, env);
    assert s.records[item.key := r][item.key := Settled(r)] == s.records[item.key := Settled(r)];
  }

  /** Is the record a chunk leaves backed by a line on disk, whatever happened to the chunk itself? */
  predicate Backed(s: Session, item: Item, d: Decision, hashes: set<string>) {
    || d.AlreadyCommitted?
    || item.hash in hashes
    || (d.PromoteFromFlushProof? && item.key in s.records && s.records[item.key].status == Exported)
  }

  lemma SettledHonestExactlyWhen(s: Session, item: Item, d: Decision, now: int, hashes: set<string>)
    requires Addressable(item) && AllHonest(s.records, hashes) && Identified(s.records) && !d.AlreadyCommitted?
    requires StagedRecord(s, item, d, now).Some?
    ensures var r := Settled(StagedRecord(s, item, d, now).value);
            (Honest(r, hashes) <==> Backed(s, item, d, hashes)) && !Blank(r.canonicalUrl)
  {
    StagedExists(s, item, d, now, hashes);
    if item.key in s.records {
      assert Honest(s.records[item.key], hashes);
    }
  }

  /** One step: from honest records, the next are honest exactly when the chunk is backed. */
  lemma ChunkHonestExactlyWhen(w: World, item: Item, d: Decision, env: ItemEnv, hashes: set<string>)
    requires w.run.Some? && w.phase.Idle? && Addressable(item)
    requires AllHonest(w.run.value.records, hashes) && Identified(w.run.value.records)
    ensures var w' := AfterChunk(w, item, d, env);
            && w'.run.Some? && w'.phase.Idle? && w'.file == w.file && Identified(w'.run.value.records)
            && (AllHonest(w'.run.value.records, hashes) <==> Backed(w.run.value, item, d, hashes))
  {
    if !d.AlreadyCommitted? {
      var s := w.run.value;
      StagedExists(s, item, d, env.now, hashes);
      ChunkResult(w, item, d, env);
      SettledHonestExactlyWhen(s, item, d, env.now, hashes);
      OneSlotHonest(s.records, item.key, Settled(StagedRecord(s, item, d, env.now).value), hashes);
    }
  }

  lemma OneSlotHonest(m: Records, key: string, r: Record, hashes: set<string>)
    requires AllHonest(m, hashes)
    ensures AllHonest(m[key := r], hashes) <==> Honest(r, hashes)
  {
    assert m[key := r][key] == r;
  }

  // ----- the whole batch -----

  function WithBatch(w: World, items: seq<Item>): World
    requires w.run.Some?
  {
    w.(file := w.file + BatchLines(w.run.value, items))
  }

  /** The world after the batch and the first `n` chunks. */
  function BatchRun(w: World, items: seq<Item>, envs: seq<ItemEnv>, n: nat): World
    requires w.run.Some? && |items| == |envs| && n <= |items|
  {
    AfterChunks(WithBatch(w, items), Decisions(w.run.value, items), items, envs, n)
  }

  /** A session at the start of the export, with valid identities. */
  ghost predicate Starting(w: World, items: seq<Item>) {
    && Inv(w) && w.run.Some? && w.phase.Idle? && Identified(w.run.value.records)
    && forall i :: 0 <= i < |items| ==> Addressable(items[i])
  }

  ghost predicate HonestAt(w: World, hashes: set<string>) {
    w.run.Some? && w.phase.Idle? && AllHonest(w.run.value.records, hashes) && Identified(w.run.value.records)
  }

  predicate KeyBefore(items: seq<Item>, n: nat, key: string)
    requires n <= |items|
  {
    exists i :: 0 <= i < n && items[i].key == key
  }

  /**
    What the caller can check of chunk `i` before the call: it is skipped, its
    content is on disk once the batch is written, or it is promoted on the proof of
    an EXPORTED record that no earlier chunk of the same page has used up.
   */
  predicate Provable(s: Session, items: seq<Item>, i: nat, hashes: set<string>)
    requires i < |items|
  {
    var item := items[i];
    || Decide(s, item).AlreadyCommitted?
    || item.hash in hashes
    || (&& Decide(s, item).PromoteFromFlushProof? && item.key in s.records
        && (s.records[item.key].lastError.Some? || !KeyBefore(items, i, item.key)))
  }

  /** A record promoted on its own hash: the first chunk commits it unless an error clings to it. */
  ghost predicate SlotHistory(start: Session, now: Session, items: seq<Item>, n: nat, k: string)
    requires n <= |items|
  {
    Resting(start, k) ==>
      && k in now.records
      && if start.records[k].lastError.Some? || !KeyBefore(items, n, k) then now.records[k] == start.records[k]
         else now.records[k].status == Committed
  }

  predicate Resting(s: Session, k: string) {
    s.resume && k in s.records && s.records[k].status == Exported
    && s.records[k].contentHash.Some? && s.records[k].contentHash.value in s.index
  }

  lemma RestingIsPromoted(w: World, item: Item)
    requires Inv(w) && w.run.Some? && w.phase.Idle? && item.key in w.run.value.records
    ensures Decide(w.run.value, item).PromoteFromFlushProof? <==> Resting(w.run.value, item.key)
  {
    assert Honest(w.run.value.records[item.key], Hashes(w.file));
  }

  lemma UnrecordedPromotionIsOnDisk(w: World, items: seq<Item>, i: nat)
    requires Inv(w) && w.run.Some? && i < |items| && items[i].key !in w.run.value.records
    requires Decide(w.run.value, items[i]).PromoteFromFlushProof?
    ensures items[i].hash in Hashes(WithBatch(w, items).file)
  {
    HashesOfConcat(w.file, BatchLines(w.run.value, items));
  }

  lemma HashesOfConcat(a: seq<Line>, b: seq<Line>)
    ensures Hashes(a) <= Hashes(a + b) && Hashes(b) <= Hashes(a + b)
  {
    forall h | h in Hashes(a) ensures h in Hashes(a + b) {
      var i :| 0 <= i < |a| && a[i].hash == h;
      assert (a + b)[i].hash == h;
    }
    forall h | h in Hashes(b) ensures h in Hashes(a + b) {
      var i :| 0 <= i < |b| && b[i].hash == h;
      assert (a + b)[|a| + i].hash == h;
    }
  }

  /** Promoting a record that is EXPORTED settles it; promoting one already COMMITTED starts a new lifecycle that commits. */
  lemma PromotionSettles(s: Session, item: Item, now: int, hashes: set<string>)
    requires Addressable(item) && item.key in s.records && AllHonest(s.records, hashes) && Identified(s.records)
    requires Terminal(s.records[item.key].status)
    ensures var before, staged := s.records[item.key], PromotedRecord(s, item, now);
            && staged.Some?
            && (before.status == Exported ==>
                  Settled(staged.value) == if before.lastError.None? then before.(status := Committed) else before)
            && (before.status == Committed ==> Settled(staged.value).status == Committed)
  {
    assert Honest(s.records[item.key], hashes);
  }

  lemma ChunkKeepsHistory(start: Session, w: World, items: seq<Item>, n: nat, d: Decision, env: ItemEnv, hashes: set<string>, k: string)
    requires n < |items| && Addressable(items[n]) && HonestAt(w, hashes)
    requires SlotHistory(start, w.run.value, items, n, k)
    requires items[n].key == k && Resting(start, k) ==> d.PromoteFromFlushProof?
    ensures var w' := AfterChunk(w, items[n], d, env); w'.run.Some? && SlotHistory(start, w'.run.value, items, n + 1, k)
  {
    var item, s := items[n], w.run.value;
    assert KeyBefore(items, n + 1, k) <==> KeyBefore(items, n, k) || item.key == k;
    if !d.AlreadyCommitted? {
      StagedExists(s, item, d, env.now, hashes);
      ChunkResult(w, item, d, env);
      if item.key == k && Resting(start, k) {
        PromotionSettles(s, item, env.now, hashes);
      }
    }
  }

  ghost predicate HonestThrough(w: World, items: seq<Item>, envs: seq<ItemEnv>, n: nat, hashes: set<string>)
    requires w.run.Some? && |items| == |envs| && n <= |items|
  {
    forall j :: 0 <= j <= n ==> HonestAt(BatchRun(w, items, envs, j), hashes)
  }

  predicate AllProvable(s: Session, items: seq<Item>, n: nat, hashes: set<string>)
    requires n <= |items|
  {
    forall i :: 0 <= i < n ==> Provable(s, items, i, hashes)
  }

  lemma {:induction false} HistoryKept(w: World, items: seq<Item>, envs: seq<ItemEnv>, n: nat, hashes: set<string>, k: string)
    requires Starting(w, items) && |items| == |envs| && n <= |items| && HonestThrough(w, items, envs, n, hashes)
    ensures SlotHistory(w.run.value, BatchRun(w, items, envs, n).run.value, items, n, k)
  {
    if n > 0 {
      HonestThroughStep(w, items, envs, n, hashes);
      HistoryKept(w, items, envs, n - 1, hashes, k);
      if items[n - 1].key == k && Resting(w.run.value, k) {
        RestingIsPromoted(w, items[n - 1]);
      }
      ChunkKeepsHistory(w.run.value, BatchRun(w, items, envs, n - 1), items, n - 1,
                        Decide(w.run.value, items[n - 1]), envs[n - 1], hashes, k);
    }
  }

  /** What can be checked before the call is what backs the record when its turn comes. */
  lemma ProvableIsBacked(w: World, items: seq<Item>, envs: seq<ItemEnv>, i: nat)
    requires Starting(w, items) && i < |items| == |envs|
    requires HonestThrough(w, items, envs, i, Hashes(WithBatch(w, items).file))
    ensures var hashes := Hashes(WithBatch(w, items).file);
            Provable(w.run.value, items, i, hashes) <==>
            Backed(BatchRun(w, items, envs, i).run.value, items[i], Decide(w.run.value, items[i]), hashes)
  {
    var s, item, hashes := w.run.value, items[i], Hashes(WithBatch(w, items).file);
    if Decide(s, item).PromoteFromFlushProof? {
      if item.key in s.records {
        RestingIsPromoted(w, item);
        HistoryKept(w, items, envs, i, hashes, item.key);
      } else {
        UnrecordedPromotionIsOnDisk(w, items, i);
      }
    }
  }

  lemma StartIsHonest(w: World, items: seq<Item>, envs: seq<ItemEnv>)
    requires Starting(w, items) && |items| == |envs|
    ensures HonestAt(BatchRun(w, items, envs, 0), Hashes(WithBatch(w, items).file))
  {
    var hashes := Hashes(WithBatch(w, items).file);
    HashesOfConcat(w.file, BatchLines(w.run.value, items));
    forall k | k in w.run.value.records ensures Honest(w.run.value.records[k], hashes) {
      assert Honest(w.run.value.records[k], Hashes(w.file));
    }
  }

  /**
    The records are honest after every one of the first `n` chunks, each EXPORTED or
    COMMITTED one carrying a hash on disk, exactly when each of those chunks is
    skipped, has its content on disk, or is the first to use an EXPORTED record.
   */
  lemma {:induction false} BatchHonestExactlyWhen(w: World, items: seq<Item>, envs: seq<ItemEnv>, n: nat)
    requires Starting(w, items) && |items| == |envs| && n <= |items|
    ensures var hashes := Hashes(WithBatch(w, items).file);
            HonestThrough(w, items, envs, n, hashes) <==> AllProvable(w.run.value, items, n, hashes)
  {
    var hashes := Hashes(WithBatch(w, items).file);
    if n == 0 {
      StartIsHonest(w, items, envs);
    } else {
      BatchHonestExactlyWhen(w, items, envs, n - 1);
      HonestThroughStep(w, items, envs, n, hashes);
      if HonestThrough(w, items, envs, n - 1, hashes) {
        NextHonestExactlyWhen(w, items, envs, n - 1);
      }
    }
  }

  lemma HonestThroughStep(w: World, items: seq<Item>, envs: seq<ItemEnv>, n: nat, hashes: set<string>)
    requires w.run.Some? && |items| == |envs| && 0 < n <= |items|
    ensures HonestThrough(w, items, envs, n, hashes) <==>
            HonestThrough(w, items, envs, n - 1, hashes) && HonestAt(BatchRun(w, items, envs, n), hashes)
  {
  }

  lemma NextHonestExactlyWhen(w: World, items: seq<Item>, envs: seq<ItemEnv>, i: nat)
    requires Starting(w, items) && i < |items| == |envs|
    requires HonestThrough(w, items, envs, i, Hashes(WithBatch(w, items).file))
    ensures var hashes := Hashes(WithBatch(w, items).file);
            HonestAt(BatchRun(w, items, envs, i + 1), hashes) <==> Provable(w.run.value, items, i, hashes)
  {
    var hashes := Hashes(WithBatch(w, items).file);
    var was := BatchRun(w, items, envs, i);
    assert HonestAt(was, hashes);
    ProvableIsBacked(w, items, envs, i);
    ChunkHonestExactlyWhen(was, items[i], Decide(w.run.value, items[i]), envs[i], hashes);
    assert BatchRun(w, items, envs, i + 1) == AfterChunk(was, items[i], Decide(w.run.value, items[i]), envs[i]);
  }

  /** On a fresh store, a batch whose chunks all validate keeps every record honest. */
  lemma ValidBatchIsHonest(w: World, items: seq<Item>, envs: seq<ItemEnv>)
    requires Starting(w, items) && |items| == |envs| && w.run.value.records == map[]
    requires forall i :: 0 <= i < |items| ==> items[i].problem.None?
    ensures HonestThrough(w, items, envs, |items|, Hashes(WithBatch(w, items).file))
  {
    var s := w.run.value;
    var hashes := Hashes(WithBatch(w, items).file);
    forall i | 0 <= i < |items| ensures Provable(s, items, i, hashes) {
      if Decide(s, items[i]).PromoteFromFlushProof? {
        UnrecordedPromotionIsOnDisk(w, items, i);
      } else {
        DrivenIsInBatch(s, items, i);
        HashesOfConcat(w.file, BatchLines(s, items));
      }
    }
    BatchHonestExactlyWhen(w, items, envs, |items|);
  }

  lemma {:induction false} DrivenIsInBatch(s: Session, items: seq<Item>, i: nat)
    requires i < |items| && Decide(s, items[i]) == DriveAndCommit && items[i].problem.None?
    ensures items[i].hash in Hashes(BatchLines(s, items))
    decreases |items|
  {
    var n := |items| - 1;
    var all, earlier := BatchLines(s, items), BatchLines(s, items[..n]);
    var line := Line(items[i].url, items[i].hash);
    if i < n {
      DrivenIsInBatch(s, items[..n], i);
      HashesOfConcat(earlier, all[|earlier|..]);
      assert all == earlier + all[|earlier|..];
    } else {
      assert line in all;
    }
  }

  /** A chunk that fails validation ends COMMITTED with no line of its content anywhere. */
  lemma InvalidChunkIsCommitted(item: Item, env: ItemEnv, runId: string, resume: bool)
    requires Addressable(item) && item.problem.Some?
    ensures var w := Step(EmptyWorld, CommitProtocol.Open(runId, resume, true));
            var w' := BatchRun(w, [item], [env], 1);
            && w'.file == [] && w'.run.Some? && item.key in w'.run.value.records
            && w'.run.value.records[item.key].status == Committed
            && w'.run.value.records[item.key].contentHash == Some(item.hash)
  {
    var w := Step(EmptyWorld, CommitProtocol.Open(runId, resume, true));
    var s := w.run.value;
    assert Decide(s, item) == DriveAndCommit;
    assert BatchLines(s, [item]) == [];
    var w1 := WithBatch(w, [item]);
    assert BatchRun(w, [item], [env], 0) == w1;
    ChunkResult(w1, item, DriveAndCommit, env);
  }

  predicate WrittenTo(w: World, lines: seq<Line>, w': World, k: nat) {
    k <= |lines| && w' == w.(file := w.file + lines[..k])
  }

  /** Some first lines of the batch reached the file; nothing else changed. */
  ghost predicate PartlyWritten(w: World, lines: seq<Line>, w': World) {
    exists k: nat :: WrittenTo(w, lines, w', k)
  }

  datatype BatchResult = Reported(urls: seq<string>) | BatchFailed

  /** How many chunks are gone through: up to and including the first that is not skipped while the token is cancelled. */
  function ChunkCut(ds: seq<Decision>, cancels: seq<bool>): (n: nat)
    requires |ds| == |cancels|
    ensures n <= |ds|
    ensures forall i :: 0 <= i < n - 1 ==> !Stops(ds[i], cancels[i])
    ensures n < |ds| ==> n > 0 && Stops(ds[n - 1], cancels[n - 1])
  {
    if ds == [] then 0
    else if Stops(ds[0], cancels[0]) then 1
    else
      var rest := ChunkCut(ds[1..], cancels[1..]);
      assert forall i :: 0 < i < |ds| ==> ds[i] == ds[1..][i - 1] && cancels[i] == cancels[1..][i - 1];
      1 + rest
  }

  predicate Stops(d: Decision, cancelled: bool) {
    !d.AlreadyCommitted? && cancelled
  }

  lemma ChunkCutStep(ds: seq<Decision>, cancels: seq<bool>, n: nat)
    requires n < |ds| == |cancels|
    ensures ChunkCut(ds[n..], cancels[n..]) ==
            if Stops(ds[n], cancels[n]) then 1 else 1 + ChunkCut(ds[n + 1..], cancels[n + 1..])
  {
    assert ds[n..][1..] == ds[n + 1..] && cancels[n..][1..] == cancels[n + 1..];
  }

  /** The record of one chunk, by its decision. */
  method SettleOne(session: CommitSession, item: Item, d: Decision, env: ItemEnv)
    modifies session`store, session`records
    ensures session.View(Idle) == AfterChunk(old(session.View(Idle)), item, d, env)
  {
    match d {
      case AlreadyCommitted =>
      case PromoteFromFlushProof =>
        SettleRun(session.View(Promoting(item)), env);
        session.PromoteFromFlushProof(item, env);
      case DriveAndCommit =>
        SettleRun(session.View(Flushed(item)), env);
        session.CommitItem(item, env);
    }
  }

  /**
    `process_results_with_chunks` on an open session. A failed batch ends the run
    with whatever part of it reached the file and no record touched; otherwise the
    chunks settle in order until cancellation is observed, and all urls are reported.
   */
  method ProcessResultsWithChunks(session: CommitSession, items: seq<Item>, envs: seq<ItemEnv>, cancels: seq<bool>,
                                  written: nat, batchOk: bool, finalOk: bool)
    returns (r: BatchResult, touched: nat)
    requires |items| == |envs| == |cancels|
    modifies session`file, session`store, session`records
    ensures r.BatchFailed? <==> !batchOk && BatchLines(old(session.Volatile()), items) != []
    ensures r.BatchFailed? ==> PartlyWritten(old(session.View(Idle)), BatchLines(old(session.Volatile()), items), session.View(Idle))
    ensures r.Reported? ==>
              && touched == ChunkCut(Decisions(old(session.Volatile()), items), cancels)
              && r.urls == seq(|items|, i requires 0 <= i < |items| => items[i].url)
              && session.View(Idle) == Step(BatchRun(old(session.View(Idle)), items, envs, touched), FinalPersist(finalOk))
  {
    ghost var w := session.View(Idle);
    var s := Session(session.runId, session.resume, session.records, session.index, session.driven);
    var decisions := Decisions(s, items);
    var lines := BatchLines(s, items);
    touched := 0;
    if lines != [] {
      if !batchOk {
        var k := if written <= |lines| then written else |lines|;
        session.file := session.file + lines[..k];
        assert WrittenTo(w, lines, session.View(Idle), k);
        return BatchFailed, 0;
      }
    }
    session.file := session.file + lines;
    var stop := false;
    while touched < |items| && !stop
      invariant touched <= |items|
      invariant ChunkCut(decisions, cancels) == touched + if stop then 0 else ChunkCut(decisions[touched..], cancels[touched..])
      invariant session.View(Idle) == BatchRun(w, items, envs, touched)
      decreases |items| - touched
    {
      var item, env := items[touched], envs[touched];
      ChunkCutStep(decisions, cancels, touched);
      SettleOne(session, item, decisions[touched], env);
      assert session.View(Idle) == BatchRun(w, items, envs, touched + 1);
      stop := !decisions[touched].AlreadyCommitted? && cancels[touched];
      touched := touched + 1;
    }
    session.MergePersist(finalOk);
    r := BatchResult.Reported(seq(|items|, i requires 0 <= i < |items| => items[i].url));
  }
}
