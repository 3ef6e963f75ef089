/**
  The crawl-result repository over its log: appends that may be torn at any
  byte, the in-memory index from url to frame offset, recovery by rescanning,
  lookup and full load. JSON is a codec parameter with the laws named in `Lawful`.
 */
module ResultLogs {
  import opened Text
  import opened LogFrames

  datatype Content = Content(url: string, body: string)

  /** `to_vec`, `from_slice::<ScrapedContent>` and the `url` field of `from_slice::<Value>`. */
  datatype Codec = Codec(
    encode: Content -> bytes,
    decode: bytes -> Option<Content>,
    urlField: bytes -> Option<string>)

  /** JSON round-trips, keeps the url, and stays below the u32 frame limit. */
  ghost predicate Lawful(codec: Codec) {
    forall c: Content ::
      && codec.decode(codec.encode(c)) == Some(c)
      && codec.urlField(codec.encode(c)) == Some(c.url)
      && Fits(codec.encode(c))
  }

  datatype Result<+T> = Success(value: T) | StorageError

  /** What the sink does with a frame: all of it, or a failure after some bytes, with or without a size to resync to. */
  datatype Outcome = Written | Failed(bytes: nat, sized: bool)

  datatype LogState = LogState(log: bytes, offset: nat, index: map<string, nat>, writeError: bool)

  datatype Command = Command(url: string, payload: bytes, outcome: Outcome)

  /** The bytes of a frame that reach the file. */
  function Reached(c: Command): bytes {
    match c.outcome
    case Written => Frame(c.payload)
    case Failed(n, _) => if n <= |Frame(c.payload)| then Frame(c.payload)[..n] else Frame(c.payload)
  }

  /** `append_record` */
  function Append(s: LogState, c: Command): LogState {
    var log := s.log + Reached(c);
    match c.outcome
    case Written => LogState(log, s.offset + 4 + |c.payload| % U32 + 1, s.index[c.url := s.offset], s.writeError)
    case Failed(_, sized) => LogState(log, if sized then |log| else s.offset, s.index, true)
  }

  function AppendAll(s: LogState, cs: seq<Command>): LogState {
    if cs == [] then s else Append(AppendAll(s, cs[..|cs| - 1]), cs[|cs| - 1])
  }

  /** The payload most recently written in full for a url. */
  function LastWritten(cs: seq<Command>, url: string): Option<bytes> {
    if cs == [] then None
    else
      var c := cs[|cs| - 1];
      if c.url == url && c.outcome.Written? then Some(c.payload) else LastWritten(cs[..|cs| - 1], url)
  }

  ghost predicate IndexLive(s0: LogState, s: LogState, cs: seq<Command>) {
    forall url :: UrlLive(s0, s, cs, url)
  }

  /** A url written this session points at the complete frame of its last payload; any other entry is as it was. */
  ghost predicate UrlLive(s0: LogState, s: LogState, cs: seq<Command>, url: string) {
    match LastWritten(cs, url)
    case Some(p) => url in s.index && FrameAt(s.log, s.index[url], p, |p| + 5)
    case None => (url in s.index <==> url in s0.index) && (url in s.index ==> s.index[url] == s0.index[url])
  }

  lemma FrameStays(log: bytes, more: bytes, pos: nat, p: bytes)
    requires FrameAt(log, pos, p, |p| + 5)
    ensures FrameAt(log + more, pos, p, |p| + 5)
  {
    var n := |p| + 5;
    assert (log + more)[pos..pos + n] == log[pos..pos + n];
  }

  lemma AppendKeepsLive(s0: LogState, s: LogState, cs: seq<Command>, c: Command)
    requires s.offset == |s.log| && IndexLive(s0, s, cs) && Fits(c.payload)
    ensures IndexLive(s0, Append(s, c), cs + [c])
  {
    forall url ensures UrlLive(s0, Append(s, c), cs + [c], url) {
      AppendKeepsUrlLive(s0, s, cs, c, url);
    }
  }

  lemma AppendKeepsUrlLive(s0: LogState, s: LogState, cs: seq<Command>, c: Command, url: string)
    requires s.offset == |s.log| && UrlLive(s0, s, cs, url) && Fits(c.payload)
    ensures UrlLive(s0, Append(s, c), cs + [c], url)
  {
    LastWrittenSnoc(cs, c, url);
    if c.url == url && c.outcome.Written? {
      WholeAtEnd(s.log, c.payload);
    } else if LastWritten(cs, url).Some? {
      FrameStays(s.log, Reached(c), s.index[url], LastWritten(cs, url).value);
    }
  }

  lemma LastWrittenSnoc(cs: seq<Command>, c: Command, url: string)
    ensures LastWritten(cs + [c], url) == if c.url == url && c.outcome.Written? then Some(c.payload) else LastWritten(cs, url)
  {
    assert (cs + [c])[..|cs|] == cs;
  }

  lemma WholeAtEnd(log: bytes, p: bytes)
    ensures FrameAt(log + Frame(p), |log|, p, |p| + 5)
  {
    AtEnd(log, p, |p| + 5);
    assert Frame(p)[..|p| + 5] == Frame(p);
  }

  lemma AppendTracksEnd(s: LogState, c: Command)
    requires s.offset == |s.log| && Fits(c.payload) && (c.outcome.Failed? ==> c.outcome.sized)
    ensures Append(s, c).offset == |Append(s, c).log|
  {
  }

  lemma AppendAllSnoc(s0: LogState, cs: seq<Command>, c: Command)
    ensures AppendAll(s0, cs + [c]) == Append(AppendAll(s0, cs), c)
  {
    assert (cs + [c])[..|cs|] == cs;
  }

  /**
    However many frames are torn or fail to flush, on a sink that reports its size
    the tracked offset is the end of the log, and each url points at a complete
    frame holding the last payload written in full for it this session; urls not
    written this session keep their recovered entry.
   */
  lemma {:induction false} OffsetsStayHonest(s0: LogState, cs: seq<Command>)
    requires s0.offset == |s0.log|
    requires forall i :: 0 <= i < |cs| ==> Fits(cs[i].payload) && (cs[i].outcome.Failed? ==> cs[i].outcome.sized)
    ensures AppendAll(s0, cs).offset == |AppendAll(s0, cs).log|
    ensures IndexLive(s0, AppendAll(s0, cs), cs)
  {
    if cs != [] {
      var n := |cs| - 1;
      var init, c := cs[..n], cs[n];
      OffsetsStayHonest(s0, init);
      assert init + [c] == cs;
      AppendAllSnoc(s0, init, c);
      AppendTracksEnd(AppendAll(s0, init), c);
      AppendKeepsLive(s0, AppendAll(s0, init), init, c);
    }
  }

  /** The write error is flagged exactly when it was before or some frame failed. */
  lemma {:induction false} WriteErrorExactlyWhen(s0: LogState, cs: seq<Command>)
    ensures AppendAll(s0, cs).writeError <==> s0.writeError || SomeFailed(cs)
  {
    if cs != [] {
      var n := |cs| - 1;
      assert cs == cs[..n] + [cs[n]];
      SomeFailedSnoc(cs[..n], cs[n]);
      WriteErrorExactlyWhen(s0, cs[..n]);
    }
  }

  predicate SomeFailed(cs: seq<Command>) {
    exists i :: 0 <= i < |cs| && cs[i].outcome.Failed?
  }

  lemma SomeFailedSnoc(cs: seq<Command>, c: Command)
    ensures SomeFailed(cs + [c]) <==> SomeFailed(cs) || c.outcome.Failed?
  {
    var all := cs + [c];
    assert all[|cs|] == c;
    assert forall i :: 0 <= i < |cs| ==> all[i] == cs[i];
  }

  /** One failed frame leaves the offset at the end of the log exactly when the size was reported or no byte arrived. */
  lemma ResyncExactlyWhen(s: LogState, c: Command)
    requires s.offset == |s.log| && c.outcome.Failed?
    ensures Append(s, c).offset == |Append(s, c).log| <==> c.outcome.sized || c.outcome.bytes == 0
  {
  }

  // ----- lookup, recovery and load -----

  function Find(codec: Codec, s: LogState, url: string): Result<Option<Content>> {
    if url !in s.index then Success(None)
    else
      match ReadAt(s.log, s.index[url])
      case None => StorageError
      case Some(p) => if codec.decode(p).Some? then Success(codec.decode(p)) else StorageError
  }

  /** Later frames of a url replace earlier ones; payloads without a url are passed over. */
  function IndexOf(codec: Codec, es: seq<Entry>): map<string, nat> {
    if es == [] then map[]
    else
      var e, earlier := es[|es| - 1], IndexOf(codec, es[..|es| - 1]);
      match codec.urlField(e.payload)
      case None => earlier
      case Some(url) => earlier[url := e.offset]
  }

  /** Contents of the scanned frames in log order; one undecodable payload fails the load. */
  function Decoded(codec: Codec, es: seq<Entry>): Result<seq<Content>> {
    if es == [] then Success([])
    else
      match Decoded(codec, es[..|es| - 1])
      case StorageError => StorageError
      case Success(cs) =>
        match codec.decode(es[|es| - 1].payload)
        case None => StorageError
        case Some(c) => Success(cs + [c])
  }

  function Encoded(codec: Codec, cs: seq<Content>): (ps: seq<bytes>)
    ensures |ps| == |cs|
  {
    seq(|cs|, i requires 0 <= i < |cs| => codec.encode(cs[i]))
  }

  function LatestOf(cs: seq<Content>, url: string): Option<Content> {
    if cs == [] then None
    else if cs[|cs| - 1].url == url then Some(cs[|cs| - 1])
    else LatestOf(cs[..|cs| - 1], url)
  }

  /** A log without failures: it holds exactly the frames of `cs` and the index a rescan would build. */
  ghost predicate Clean(codec: Codec, s: LogState, cs: seq<Content>) {
    && s.log == Frames(Encoded(codec, cs))
    && s.offset == |s.log|
    && s.index == IndexOf(codec, Scan(s.log, 0))
  }

  lemma EncodedSnoc(codec: Codec, cs: seq<Content>, c: Content)
    ensures Encoded(codec, cs + [c]) == Encoded(codec, cs) + [codec.encode(c)]
  {
  }

  lemma {:induction false} EntriesSnoc(ps: seq<bytes>, p: bytes, at: nat)
    ensures Entries(ps + [p], at) == Entries(ps, at) + [Entry(End(at, ps), p)]
    decreases |ps|
  {
    var all := ps + [p];
    if ps == [] {
      assert all == [p];
      assert Entries([p], at) == [Entry(at, p)] + Entries([], at + |p| + 5);
    } else {
      assert all[0] == ps[0] && all[1..] == ps[1..] + [p];
      var next := at + |ps[0]| + 5;
      EntriesSnoc(ps[1..], p, next);
      Assoc([Entry(at, ps[0])], Entries(ps[1..], next), [Entry(End(next, ps[1..]), p)]);
    }
  }

  lemma ScanGrows(codec: Codec, cs: seq<Content>, c: Content)
    requires Lawful(codec)
    ensures var before, after := Frames(Encoded(codec, cs)), Frames(Encoded(codec, cs + [c]));
            && after == before + Frame(codec.encode(c))
            && Scan(after, 0) == Scan(before, 0) + [Entry(|before|, codec.encode(c))]
  {
    EncodedSnoc(codec, cs, c);
    FrameAdded(Encoded(codec, cs), codec.encode(c));
  }

  lemma FrameAdded(ps: seq<bytes>, p: bytes)
    requires Fits(p) && forall i :: 0 <= i < |ps| ==> Fits(ps[i])
    ensures Frames(ps + [p]) == Frames(ps) + Frame(p)
    ensures Scan(Frames(ps + [p]), 0) == Scan(Frames(ps), 0) + [Entry(|Frames(ps)|, p)]
  {
    FramesSnoc(ps, p);
    ScanClean(ps);
    ScanClean(ps + [p]);
    EntriesSnoc(ps, p, 0);
    EndOfFrames(0, ps);
  }

  /** Appending one content keeps the log clean: the live index is the one a rescan rebuilds. */
  lemma AppendKeepsClean(codec: Codec, s: LogState, cs: seq<Content>, c: Content)
    requires Lawful(codec) && Clean(codec, s, cs)
    ensures Clean(codec, Append(s, Command(c.url, codec.encode(c), Written)), cs + [c])
  {
    ScanGrows(codec, cs, c);
    IndexOfSnoc(codec, Scan(s.log, 0), Entry(|s.log|, codec.encode(c)), c.url);
    AppendTracksEnd(s, Command(c.url, codec.encode(c), Written));
  }

  lemma IndexOfSnoc(codec: Codec, es: seq<Entry>, e: Entry, url: string)
    requires codec.urlField(e.payload) == Some(url)
    ensures IndexOf(codec, es + [e]) == IndexOf(codec, es)[url := e.offset]
  {
    assert (es + [e])[..|es|] == es;
  }

  lemma LatestOfSnoc(cs: seq<Content>, c: Content, url: string)
    ensures LatestOf(cs + [c], url) == if c.url == url then Some(c) else LatestOf(cs, url)
  {
    assert (cs + [c])[..|cs|] == cs;
  }

  /** The index entry of a url, if any, is where a complete frame of `latest` starts. */
  ghost predicate PointsAt(codec: Codec, log: bytes, index: map<string, nat>, url: string, latest: Option<Content>) {
    match latest
    case None => url !in index
    case Some(c) => url in index && var p := codec.encode(c); FrameAt(log, index[url], p, |p| + 5)
  }

  lemma PointsAtStep(codec: Codec, log: bytes, index: map<string, nat>, url: string, latest: Option<Content>, c: Content)
    requires PointsAt(codec, log, index, url, latest)
    ensures PointsAt(codec, log + Frame(codec.encode(c)), index[c.url := |log|], url, if c.url == url then Some(c) else latest)
  {
    var p := codec.encode(c);
    if c.url == url {
      AtEnd(log, p, |p| + 5);
      assert Frame(p)[..|p| + 5] == Frame(p);
    } else if latest.Some? {
      FrameStays(log, Frame(p), index[url], codec.encode(latest.value));
    }
  }

  lemma {:induction false} IndexPointsAtLatest(codec: Codec, cs: seq<Content>, url: string)
    requires Lawful(codec)
    ensures var log := Frames(Encoded(codec, cs));
            PointsAt(codec, log, IndexOf(codec, Scan(log, 0)), url, LatestOf(cs, url))
  {
    if cs == [] {
      ScanClean([]);
      assert Encoded(codec, cs) == [];
    } else {
      var n := |cs| - 1;
      var init, c := cs[..n], cs[n];
      assert init + [c] == cs;
      var before := Frames(Encoded(codec, init));
      IndexPointsAtLatest(codec, init, url);
      ScanGrows(codec, init, c);
      IndexOfSnoc(codec, Scan(before, 0), Entry(|before|, codec.encode(c)), c.url);
      LatestOfSnoc(init, c, url);
      PointsAtStep(codec, before, IndexOf(codec, Scan(before, 0)), url, LatestOf(init, url), c);
    }
  }

  lemma {:induction false} DecodedAll(codec: Codec, cs: seq<Content>)
    requires Lawful(codec)
    ensures Decoded(codec, Scan(Frames(Encoded(codec, cs)), 0)) == Success(cs)
  {
    if cs == [] {
      ScanClean([]);
      assert Encoded(codec, cs) == [];
    } else {
      var n := |cs| - 1;
      assert cs[..n] + [cs[n]] == cs;
      DecodedAll(codec, cs[..n]);
      ScanGrows(codec, cs[..n], cs[n]);
      var es := Scan(Frames(Encoded(codec, cs)), 0);
      assert es[..|es| - 1] == Scan(Frames(Encoded(codec, cs[..n])), 0);
    }
  }

  /** The state after saving contents one by one without a failure. */
  function SaveAll(codec: Codec, s: LogState, cs: seq<Content>): LogState
    decreases |cs|
  {
    if cs == [] then s else SaveAll(codec, Append(s, Command(cs[0].url, codec.encode(cs[0]), Written)), cs[1..])
  }

  /** Any number of successful saves on a clean log leaves a clean log. */
  lemma {:induction false} SavesKeepClean(codec: Codec, s: LogState, before: seq<Content>, cs: seq<Content>)
    requires Lawful(codec) && Clean(codec, s, before)
    ensures Clean(codec, SaveAll(codec, s, cs), before + cs)
    decreases |cs|
  {
    if cs == [] {
      assert before + cs == before;
    } else {
      AppendKeepsClean(codec, s, before, cs[0]);
      MoveOne(before, cs);
      SavesKeepClean(codec, Append(s, Command(cs[0].url, codec.encode(cs[0]), Written)), before + [cs[0]], cs[1..]);
    }
  }

  lemma MoveOne<T>(a: seq<T>, b: seq<T>)
    requires b != []
    ensures (a + [b[0]]) + b[1..] == a + b
  {
  }

  /**
    With no write failure, log and index refine a map from url to latest content:
    lookup returns the last content appended for the url, a full load returns all
    contents in append order, and rescanning the log rebuilds the live index.
   */
  lemma RefinesLatestMap(codec: Codec, s: LogState, cs: seq<Content>, url: string)
    requires Lawful(codec) && Clean(codec, s, cs)
    ensures Find(codec, s, url) == Success(LatestOf(cs, url))
    ensures Decoded(codec, Scan(s.log, 0)) == Success(cs)
    ensures IndexOf(codec, Scan(s.log, 0)) == s.index
  {
    IndexPointsAtLatest(codec, cs, url);
    DecodedAll(codec, cs);
    if url in s.index {
      var c := LatestOf(cs, url).value;
      ReadFrame(s.log, s.index[url], codec.encode(c), |codec.encode(c)| + 5);
    }
  }

  /**
    A crash in the middle of one more append: the rescan sees exactly the contents
    before it, unless every payload byte arrived, and then it sees that one too.
   */
  lemma RecoveryAfterCrash(codec: Codec, cs: seq<Content>, c: Content, n: nat)
    requires Lawful(codec) && n <= |codec.encode(c)| + 5
    ensures var log := Frames(Encoded(codec, cs)) + Frame(codec.encode(c))[..n];
            Decoded(codec, Scan(log, 0)) == Success(if n < 4 + |codec.encode(c)| then cs else cs + [c])
  {
    var p := codec.encode(c);
    ScanFrames(Encoded(codec, cs), p, n);
    ScanClean(Encoded(codec, cs));
    ScanGrows(codec, cs, c);
    DecodedAll(codec, cs);
    DecodedAll(codec, cs + [c]);
    assert Entries(Encoded(codec, cs), 0) + [] == Entries(Encoded(codec, cs), 0);
  }

  // ----- saving after a restart on a torn tail -----

  /** What opening a log leaves: the recovered index, and the size of the file as the offset. */
  function Reopened(codec: Codec, log: bytes): LogState {
    LogState(log, |log|, IndexOf(codec, Scan(log, 0)), false)
  }

  /** The log after a crash that let only the first `n` bytes of the frame of `c` arrive. */
  function CrashLog(codec: Codec, cs: seq<Content>, c: Content, n: nat): bytes
    requires n <= |codec.encode(c)| + 5
  {
    Frames(Encoded(codec, cs)) + Frame(codec.encode(c))[..n]
  }

  lemma EncodedCons(codec: Codec, cs: seq<Content>)
    requires cs != []
    ensures Frames(Encoded(codec, cs)) == Frame(codec.encode(cs[0])) + Frames(Encoded(codec, cs[1..]))
  {
    assert Encoded(codec, cs)[1..] == Encoded(codec, cs[1..]);
  }

  lemma {:induction false} SaveAllLog(codec: Codec, s: LogState, cs: seq<Content>)
    ensures SaveAll(codec, s, cs).log == s.log + Frames(Encoded(codec, cs))
    decreases |cs|
  {
    if cs == [] {
      assert s.log + [] == s.log;
    } else {
      EncodedCons(codec, cs);
      SaveAllLog(codec, Append(s, Command(cs[0].url, codec.encode(cs[0]), Written)), cs[1..]);
      Assoc(s.log, Frame(codec.encode(cs[0])), Frames(Encoded(codec, cs[1..])));
    }
  }

  /** Where the frame of `ds[i]` starts when the contents are written from `base` on. */
  function StartOf(codec: Codec, base: nat, ds: seq<Content>, i: nat): nat
    requires i < |ds|
  {
    base + |Frames(Encoded(codec, ds[..i]))|
  }

  /** Every content is found by a scan where it was written. */
  ghost predicate AllSeen(codec: Codec, log: bytes, base: nat, ds: seq<Content>) {
    forall i :: 0 <= i < |ds| ==> Seen(log, StartOf(codec, base, ds, i), codec.encode(ds[i]))
  }

  lemma EncodedConcat(codec: Codec, a: seq<Content>, b: seq<Content>)
    ensures Frames(Encoded(codec, a + b)) == Frames(Encoded(codec, a)) + Frames(Encoded(codec, b))
  {
    assert Encoded(codec, a + b) == Encoded(codec, a) + Encoded(codec, b);
    FramesConcat(Encoded(codec, a), Encoded(codec, b));
  }

  /** On a log of complete frames every content written later is seen. */
  lemma SeenOnWhole(codec: Codec, cs: seq<Content>, ds: seq<Content>, i: nat)
    requires Lawful(codec) && i < |ds|
    ensures var fs := Frames(Encoded(codec, cs));
            Seen(fs + Frames(Encoded(codec, ds)), StartOf(codec, |fs|, ds, i), codec.encode(ds[i]))
  {
    var fs, whole, rest := Frames(Encoded(codec, cs)), Encoded(codec, cs + ds[..i]), Frames(Encoded(codec, ds[i + 1..]));
    NextIsSeen(whole, codec.encode(ds[i]), rest);
    SplitAt(codec, cs, ds, i);
    SeenSame(Frames(whole) + (Frame(codec.encode(ds[i])) + rest), fs + Frames(Encoded(codec, ds)),
             |Frames(whole)|, StartOf(codec, |fs|, ds, i), codec.encode(ds[i]));
  }

  lemma SplitAt(codec: Codec, cs: seq<Content>, ds: seq<Content>, i: nat)
    requires i < |ds|
    ensures Frames(Encoded(codec, cs)) + Frames(Encoded(codec, ds)) ==
            Frames(Encoded(codec, cs + ds[..i])) + (Frame(codec.encode(ds[i])) + Frames(Encoded(codec, ds[i + 1..])))
    ensures |Frames(Encoded(codec, cs + ds[..i]))| == StartOf(codec, |Frames(Encoded(codec, cs))|, ds, i)
  {
    var before, after := ds[..i], ds[i..];
    assert before + after == ds && after[1..] == ds[i + 1..];
    EncodedConcat(codec, before, after);
    EncodedCons(codec, after);
    EncodedConcat(codec, cs, before);
    Assoc(Frames(Encoded(codec, cs)), Frames(Encoded(codec, before)), Frames(Encoded(codec, after)));
  }

  /** The log of saves after a restart, in the shape of a frame written after a cut one. */
  lemma SavedAfterCut(codec: Codec, cs: seq<Content>, c: Content, n: nat, ds: seq<Content>)
    requires n <= |codec.encode(c)| + 5 && ds != []
    ensures SaveAll(codec, Reopened(codec, CrashLog(codec, cs, c, n)), ds).log ==
            AfterCut(Encoded(codec, cs), codec.encode(c), n, codec.encode(ds[0]), Frames(Encoded(codec, ds[1..])))
  {
    SaveAllLog(codec, Reopened(codec, CrashLog(codec, cs, c, n)), ds);
    EncodedCons(codec, ds);
    Assoc(Frames(Encoded(codec, cs)), Frame(codec.encode(c))[..n], Frames(Encoded(codec, ds)));
  }

  /** Nothing or everything of the last frame arrived: the log consists of complete frames. */
  lemma WholeAfterCrash(codec: Codec, cs: seq<Content>, c: Content, n: nat) returns (kept: seq<Content>)
    requires n == 0 || n == |codec.encode(c)| + 5
    ensures CrashLog(codec, cs, c, n) == Frames(Encoded(codec, kept))
  {
    if n == 0 {
      kept := cs;
      assert Frames(Encoded(codec, cs)) + [] == Frames(Encoded(codec, cs));
    } else {
      kept := cs + [c];
      EncodedSnoc(codec, cs, c);
      FramesSnoc(Encoded(codec, cs), codec.encode(c));
      assert Frame(codec.encode(c))[..n] == Frame(codec.encode(c));
    }
  }

  /**
    Contents saved after a restart on the log of a crash are all found by the next
    rescan where they were written exactly when the crash let nothing or everything of
    its frame arrive. A frame that lacks only its newline is recovered itself, but hides
    what is saved after it.
   */
  lemma SavesSurviveRestartExactlyWhen(codec: Codec, cs: seq<Content>, c: Content, n: nat, ds: seq<Content>)
    requires Lawful(codec) && n <= |codec.encode(c)| + 5 && ds != []
    ensures var log := CrashLog(codec, cs, c, n);
            AllSeen(codec, SaveAll(codec, Reopened(codec, log), ds).log, |log|, ds) <==> n == 0 || n == |codec.encode(c)| + 5
  {
    var log := CrashLog(codec, cs, c, n);
    var after := SaveAll(codec, Reopened(codec, log), ds).log;
    if n == 0 || n == |codec.encode(c)| + 5 {
      var kept := WholeAfterCrash(codec, cs, c, n);
      SaveAllLog(codec, Reopened(codec, log), ds);
      forall i | 0 <= i < |ds| ensures Seen(after, StartOf(codec, |log|, ds, i), codec.encode(ds[i])) {
        SeenOnWhole(codec, kept, ds, i);
      }
    } else {
      SavedAfterCut(codec, cs, c, n, ds);
      FirstIsHidden(codec, cs, c, n, ds);
      FirstStart(codec, |log|, ds);
      assert !Seen(after, StartOf(codec, |log|, ds, 0), codec.encode(ds[0]));
    }
  }

  lemma FirstStart(codec: Codec, base: nat, ds: seq<Content>)
    requires ds != []
    ensures StartOf(codec, base, ds, 0) == base
  {
    assert ds[..0] == [] && Encoded(codec, []) == [];
  }

  lemma FirstIsHidden(codec: Codec, cs: seq<Content>, c: Content, n: nat, ds: seq<Content>)
    requires Lawful(codec) && 0 < n < |codec.encode(c)| + 5 && ds != []
    ensures !Seen(AfterCut(Encoded(codec, cs), codec.encode(c), n, codec.encode(ds[0]), Frames(Encoded(codec, ds[1..]))),
                  |CrashLog(codec, cs, c, n)|, codec.encode(ds[0]))
  {
    SeenAfterCutExactlyWhen(Encoded(codec, cs), codec.encode(c), n, codec.encode(ds[0]), Frames(Encoded(codec, ds[1..])));
  }

  lemma {:induction false} IndexComesFromScan(codec: Codec, es: seq<Entry>, url: string)
    requires url in IndexOf(codec, es)
    ensures exists e :: e in es && e.offset == IndexOf(codec, es)[url]
  {
    var n := |es| - 1;
    if codec.urlField(es[n].payload) == Some(url) {
      assert es[n] in es;
    } else {
      IndexComesFromScan(codec, es[..n], url);
    }
  }

  /** After a restart and one save, the next rescan rebuilds the live index exactly under the same condition. */
  lemma IndexSurvivesRestartExactlyWhen(codec: Codec, cs: seq<Content>, c: Content, n: nat, d: Content)
    requires Lawful(codec) && n <= |codec.encode(c)| + 5
    ensures var t := SaveAll(codec, Reopened(codec, CrashLog(codec, cs, c, n)), [d]);
            IndexOf(codec, Scan(t.log, 0)) == t.index <==> n == 0 || n == |codec.encode(c)| + 5
  {
    var log := CrashLog(codec, cs, c, n);
    var t := SaveAll(codec, Reopened(codec, log), [d]);
    if n == 0 || n == |codec.encode(c)| + 5 {
      var kept := WholeAfterCrash(codec, cs, c, n);
      SavesKeepClean(codec, Reopened(codec, log), kept, [d]);
    } else if IndexOf(codec, Scan(t.log, 0)) == t.index {
      SavedAfterCut(codec, cs, c, n, [d]);
      assert SaveAll(codec, Append(Reopened(codec, log), Command(d.url, codec.encode(d), Written)), []) == t;
      assert t.index[d.url] == |log|;
      IndexComesFromScan(codec, Scan(t.log, 0), d.url);
      var e :| e in Scan(t.log, 0) && e.offset == |log|;
      TornHides(Encoded(codec, cs), codec.encode(c), n, Frame(codec.encode(d)) + Frames(Encoded(codec, [d][1..])), e);
    }
  }

  /** A live url written this session is found even when other frames of the log are torn. */
  lemma LookupSurvivesTornFrames(codec: Codec, s0: LogState, cs: seq<Command>, c: Content)
    requires Lawful(codec) && s0.offset == |s0.log|
    requires forall i :: 0 <= i < |cs| ==> Fits(cs[i].payload) && (cs[i].outcome.Failed? ==> cs[i].outcome.sized)
    requires LastWritten(cs, c.url) == Some(codec.encode(c))
    ensures Find(codec, AppendAll(s0, cs), c.url) == Success(Some(c))
  {
    OffsetsStayHonest(s0, cs);
    assert UrlLive(s0, AppendAll(s0, cs), cs, c.url);
    FindsFrame(codec, AppendAll(s0, cs), c);
  }

  lemma FindsFrame(codec: Codec, s: LogState, c: Content)
    requires Lawful(codec) && c.url in s.index
    requires var p := codec.encode(c); FrameAt(s.log, s.index[c.url], p, |p| + 5)
    ensures Find(codec, s, c.url) == Success(Some(c))
  {
    var p := codec.encode(c);
    ReadFrame(s.log, s.index[c.url], p, |p| + 5);
  }

  // ----- the loops -----

  /** `recover_index`: one forward pass, later offsets replace earlier ones. */
  method RecoverIndex(codec: Codec, log: bytes) returns (index: map<string, nat>)
    ensures index == IndexOf(codec, Scan(log, 0))
  {
    index := map[];
    var offset := 0;
    ghost var seen: seq<Entry> := [];
    while true
      invariant seen + Scan(log, offset) == Scan(log, 0)
      invariant index == IndexOf(codec, seen)
      decreases |log| - offset
    {
      var read := ReadAt(log, offset);
      if read.None? {
        assert seen + [] == seen;
        return;
      }
      var payload := read.value;
      var entry := Entry(offset, payload);
      assert (seen + [entry])[..|seen|] == seen;
      ScanMore(log, seen, offset, payload);
      var url := codec.urlField(payload);
      if url.Some? {
        index := index[url.value := offset];
      }
      seen := seen + [entry];
      offset := offset + 4 + |payload| + 1;
    }
  }

  /** `load_all`: the contents in log order, or an error at the first payload that does not decode. */
  method LoadAll(codec: Codec, log: bytes) returns (r: Result<seq<Content>>)
    ensures r == Decoded(codec, Scan(log, 0))
  {
    var contents: seq<Content> := [];
    var offset := 0;
    ghost var seen: seq<Entry> := [];
    while true
      invariant seen + Scan(log, offset) == Scan(log, 0)
      invariant Decoded(codec, seen) == Success(contents)
      decreases |log| - offset
    {
      var read := ReadAt(log, offset);
      if read.None? {
        assert seen + [] == seen;
        return Success(contents);
      }
      var payload := read.value;
      var entry := Entry(offset, payload);
      ScanMore(log, seen, offset, payload);
      DecodedSnoc(codec, seen, entry);
      var content := codec.decode(payload);
      if content.None? {
        ErrorSticks(codec, seen + [entry], Scan(log, offset + 4 + |payload| + 1));
        return StorageError;
      }
      contents := contents + [content.value];
      seen := seen + [entry];
      offset := offset + 4 + |payload| + 1;
    }
  }

  lemma DecodedSnoc(codec: Codec, es: seq<Entry>, e: Entry)
    ensures Decoded(codec, es + [e]) ==
            if Decoded(codec, es).StorageError? || codec.decode(e.payload).None? then StorageError
            else Success(Decoded(codec, es).value + [codec.decode(e.payload).value])
  {
    assert (es + [e])[..|es|] == es;
  }

  predicate Undecodable(codec: Codec, es: seq<Entry>) {
    exists i :: 0 <= i < |es| && codec.decode(es[i].payload).None?
  }

  /** A load fails exactly when some payload does not decode; otherwise it has every content in its place. */
  lemma {:induction false} LoadFailsExactlyWhen(codec: Codec, es: seq<Entry>)
    ensures Decoded(codec, es).StorageError? <==> Undecodable(codec, es)
    ensures Decoded(codec, es).Success? ==>
              && |Decoded(codec, es).value| == |es|
              && forall i :: 0 <= i < |es| ==> codec.decode(es[i].payload) == Some(Decoded(codec, es).value[i])
  {
    if es != [] {
      var n := |es| - 1;
      LoadFailsExactlyWhen(codec, es[..n]);
      assert forall i :: 0 <= i < n ==> es[..n][i] == es[i];
    }
  }

  /** Entry `i` is the last one with this url. */
  ghost predicate LastWithUrl(codec: Codec, es: seq<Entry>, url: string, i: nat) {
    && i < |es| && codec.urlField(es[i].payload) == Some(url)
    && forall j :: i < j < |es| ==> codec.urlField(es[j].payload) != Some(url)
  }

  /** The recovered index has a url exactly when some payload names it, and then the offset of the last such frame. */
  lemma {:induction false} IndexExactlyWhen(codec: Codec, es: seq<Entry>, url: string)
    ensures url in IndexOf(codec, es) ==> exists i: nat :: LastWithUrl(codec, es, url, i) && IndexOf(codec, es)[url] == es[i].offset
    ensures url !in IndexOf(codec, es) ==> forall i :: 0 <= i < |es| ==> codec.urlField(es[i].payload) != Some(url)
  {
    if es != [] {
      var n := |es| - 1;
      var init := es[..n];
      IndexExactlyWhen(codec, init, url);
      assert forall i :: 0 <= i < n ==> init[i] == es[i];
      if codec.urlField(es[n].payload) == Some(url) {
        assert LastWithUrl(codec, es, url, n);
      } else if url in IndexOf(codec, init) {
        var i: nat :| LastWithUrl(codec, init, url, i) && IndexOf(codec, init)[url] == init[i].offset;
        assert LastWithUrl(codec, es, url, i);
      }
    }
  }

  lemma {:induction false} ErrorSticks(codec: Codec, es: seq<Entry>, more: seq<Entry>)
    requires Decoded(codec, es).StorageError?
    ensures Decoded(codec, es + more).StorageError?
    decreases |more|
  {
    if more == [] {
      assert es + more == es;
    } else {
      var n := |more| - 1;
      ErrorSticks(codec, es, more[..n]);
      assert (es + more)[..|es + more| - 1] == es + more[..n];
    }
  }

  /** The writer's side of the repository, updated in place. */
  class LogWriter {
    var log: bytes
    var offset: nat
    var index: map<string, nat>
    var writeError: bool

    ghost function State(): LogState
      reads this
    {
      LogState(log, offset, index, writeError)
    }

    constructor (log: bytes, index: map<string, nat>)
      ensures State() == LogState(log, |log|, index, false)
    {
      this.log, this.offset, this.index, this.writeError := log, |log|, index, false;
    }

    /** Header, payload, newline; a failed write leaves some prefix of the frame behind. */
    method AppendRecord(c: Command)
      modifies this
      ensures State() == Append(old(State()), c)
    {
      var frame := Header(c.payload) + c.payload + [NEWLINE];
      match c.outcome {
        case Written =>
          log := log + frame;
          index := index[c.url := offset];
          offset := offset + 4 + |c.payload| % U32 + 1;
        case Failed(n, sized) =>
          log := log + (if n <= |frame| then frame[..n] else frame);
          writeError := true;
          if sized {
            offset := |log|;
          }
      }
    }

    /** The writer loop over appends already queued; a failed frame does not stop it. */
    method DrainAppends(cs: seq<Command>)
      modifies this
      ensures State() == AppendAll(old(State()), cs)
    {
      ghost var s0 := State();
      for i := 0 to |cs|
        invariant State() == AppendAll(s0, cs[..i])
      {
        AppendRecord(cs[i]);
        assert cs[..i + 1][..i] == cs[..i];
      }
      assert cs[..|cs|] == cs;
    }
  }
}
