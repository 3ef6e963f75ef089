/**
  The byte format of the append-only result log: a little-endian u32 payload
  length, the payload, a newline. The scan is what both index recovery and
  `load_all` do: it stops at the first frame whose length or payload is cut short
  and ignores a missing final newline.
 */
module LogFrames {
  import opened Text

  type byte = x: int | 0 <= x < 256

  type bytes = seq<byte>

  const U32 := 0x1_0000_0000

  /** Bytes of the length field. */
  const WIDTH: nat := 4

  const NEWLINE: byte := 10

  /** 256 to the power of `width`. */
  function Span(width: nat): (n: nat)
    ensures n >= 1
  {
    if width == 0 then 1 else 256 * Span(width - 1)
  }

  /** The low `width` bytes of a number, least significant first. */
  function LittleEndian(n: nat, width: nat): (b: bytes)
    ensures |b| == width
    decreases width
  {
    if width == 0 then [] else [n % 256] + LittleEndian(n / 256, width - 1)
  }

  function FromLittleEndian(b: bytes): nat {
    if b == [] then 0 else b[0] as int + 256 * FromLittleEndian(b[1..])
  }

  lemma {:induction false} LittleEndianRoundTrip(n: nat, width: nat)
    requires n < Span(width)
    ensures FromLittleEndian(LittleEndian(n, width)) == n
    decreases width
  {
    if width > 0 {
      LittleEndianRoundTrip(n / 256, width - 1);
      assert LittleEndian(n, width)[1..] == LittleEndian(n / 256, width - 1);
    }
  }

  lemma SpanOfFour()
    ensures Span(WIDTH) == U32
  {
  }

  /** `write_frame`; the length is cut to 32 bits as the source's cast does. */
  function Frame(payload: bytes): (f: bytes)
    ensures |f| == |payload| + 5
  {
    Header(payload) + payload + [NEWLINE]
  }

  function Header(payload: bytes): (h: bytes)
    ensures |h| == 4
  {
    LittleEndian(|payload| % U32, WIDTH)
  }

  function Frames(payloads: seq<bytes>): bytes {
    if payloads == [] then [] else Frame(payloads[0]) + Frames(payloads[1..])
  }

  lemma Assoc<T>(a: seq<T>, b: seq<T>, c: seq<T>)
    ensures a + (b + c) == (a + b) + c
  {
  }

  lemma {:induction false} FramesConcat(a: seq<bytes>, b: seq<bytes>)
    ensures Frames(a + b) == Frames(a) + Frames(b)
  {
    if a == [] {
      assert a + b == b;
    } else {
      assert (a + b)[0] == a[0] && (a + b)[1..] == a[1..] + b;
      FramesConcat(a[1..], b);
      Assoc(Frame(a[0]), Frames(a[1..]), Frames(b));
    }
  }

  lemma FramesSnoc(ps: seq<bytes>, p: bytes)
    ensures Frames(ps + [p]) == Frames(ps) + Frame(p)
  {
    FramesConcat(ps, [p]);
    assert Frames([p]) == Frame(p) + [];
  }

  predicate Fits(payload: bytes) {
    |payload| < U32
  }

  /** The payload read at a position, if its length and all its bytes are there. */
  function ReadAt(log: bytes, pos: nat): (r: Option<bytes>)
    ensures r.Some? ==> pos + 4 + |r.value| <= |log|
  {
    if pos + 4 > |log| then None
    else
      var len := FromLittleEndian(log[pos..pos + 4]);
      if pos + 4 + len > |log| then None else Some(log[pos + 4..pos + 4 + len])
  }

  datatype Entry = Entry(offset: nat, payload: bytes)

  function Scan(log: bytes, pos: nat): seq<Entry>
    decreases |log| - pos
  {
    match ReadAt(log, pos)
    case None => []
    case Some(p) => [Entry(pos, p)] + Scan(log, pos + 4 + |p| + 1)
  }

  /** The scan loop reads one more entry. */
  lemma ScanMore(log: bytes, seen: seq<Entry>, pos: nat, p: bytes)
    requires seen + Scan(log, pos) == Scan(log, 0) && ReadAt(log, pos) == Some(p)
    ensures (seen + [Entry(pos, p)]) + Scan(log, pos + 4 + |p| + 1) == Scan(log, 0)
  {
    Assoc(seen, [Entry(pos, p)], Scan(log, pos + 4 + |p| + 1));
  }

  /** The payloads of a clean log at the offsets their frames start at. */
  function Entries(payloads: seq<bytes>, at: nat): seq<Entry> {
    if payloads == [] then []
    else [Entry(at, payloads[0])] + Entries(payloads[1..], at + |payloads[0]| + 5)
  }

  lemma SmallLength(n: nat)
    requires n < U32
    ensures n % U32 == n
  {
  }

  lemma HeaderReads(payload: bytes)
    requires Fits(payload)
    ensures FromLittleEndian(Header(payload)) == |payload|
  {
    SpanOfFour();
    SmallLength(|payload|);
    LittleEndianRoundTrip(|payload| % U32, WIDTH);
  }

  /** The log holds the first `n` bytes of the frame of `payload` at `pos`. */
  predicate FrameAt(log: bytes, pos: nat, payload: bytes, n: nat)
    requires n <= |payload| + 5
  {
    pos + n <= |log| && log[pos..pos + n] == Frame(payload)[..n]
  }

  lemma SubSlice<T>(s: seq<T>, pos: nat, t: seq<T>, a: nat, b: nat)
    requires pos + |t| <= |s| && s[pos..pos + |t|] == t && a <= b <= |t|
    ensures s[pos + a..pos + b] == t[a..b]
  {
    forall i | 0 <= i < b - a ensures s[pos + a..pos + b][i] == t[a..b][i] {
      assert s[pos + a + i] == s[pos..pos + |t|][a + i];
    }
  }

  lemma FrameParts(payload: bytes, n: nat)
    requires n <= |payload| + 5
    ensures n >= 4 ==> Frame(payload)[..n][0..4] == Header(payload)
    ensures n >= 4 + |payload| ==> Frame(payload)[..n][4..4 + |payload|] == payload
  {
  }

  /** A frame with all its payload bytes reads as its payload, whatever surrounds it. */
  lemma ReadFrame(log: bytes, pos: nat, payload: bytes, n: nat)
    requires Fits(payload) && 4 + |payload| <= n <= |payload| + 5 && FrameAt(log, pos, payload, n)
    ensures ReadAt(log, pos) == Some(payload)
  {
    HeaderReads(payload);
    var f := Frame(payload)[..n];
    FrameParts(payload, n);
    SubSlice(log, pos, f, 0, 4);
    SubSlice(log, pos, f, 4, 4 + |payload|);
  }

  /** A frame cut before its last payload byte at the end of the log reads as nothing. */
  lemma ReadCut(log: bytes, pos: nat, payload: bytes, n: nat)
    requires Fits(payload) && n < 4 + |payload| && FrameAt(log, pos, payload, n) && |log| == pos + n
    ensures ReadAt(log, pos).None?
  {
    if n >= 4 {
      HeaderReads(payload);
      FrameParts(payload, n);
      SubSlice(log, pos, Frame(payload)[..n], 0, 4);
    }
  }

  /** A frame reads back as its payload exactly when the payload length fits 32 bits. */
  lemma FrameReadableExactlyWhen(payload: bytes)
    ensures ReadAt(Frame(payload), 0) == Some(payload) <==> Fits(payload)
  {
    var f := Frame(payload);
    if Fits(payload) {
      assert f[0..|f|] == f[..|f|];
      ReadFrame(f, 0, payload, |payload| + 5);
    } else {
      SpanOfFour();
      LittleEndianRoundTrip(|payload| % U32, WIDTH);
      FrameParts(payload, |f|);
      assert f[..|f|] == f;
    }
  }

  /** Complete frames of the payloads lie one after the other from `pos` on. */
  predicate Holds(log: bytes, pos: nat, payloads: seq<bytes>)
    decreases |payloads|
  {
    payloads != [] ==>
      && FrameAt(log, pos, payloads[0], |payloads[0]| + 5)
      && Holds(log, pos + |payloads[0]| + 5, payloads[1..])
  }

  lemma {:induction false} FramesHold(log: bytes, pos: nat, payloads: seq<bytes>, fs: bytes)
    requires fs == Frames(payloads) && pos + |fs| <= |log| && log[pos..pos + |fs|] == fs
    ensures Holds(log, pos, payloads)
    decreases |payloads|
  {
    if payloads != [] {
      var f, rest := Frame(payloads[0]), Frames(payloads[1..]);
      TwoParts(f, rest);
      SubSlice(log, pos, fs, 0, |f|);
      SubSlice(log, pos, fs, |f|, |fs|);
      FramesHold(log, pos + |f|, payloads[1..], rest);
    }
  }

  lemma TwoParts<T>(a: seq<T>, b: seq<T>)
    ensures (a + b)[0..|a|] == a && (a + b)[|a|..|a + b|] == b && a[..|a|] == a
  {
  }

  lemma Middle<T>(a: seq<T>, b: seq<T>, c: seq<T>)
    ensures (a + b + c)[|a|..|a| + |b|] == b
  {
  }

  /** Where the frames of the payloads end when the first starts at `pos`. */
  function End(pos: nat, payloads: seq<bytes>): (e: nat)
    ensures e >= pos
    decreases |payloads|
  {
    if payloads == [] then pos else End(pos + |payloads[0]| + 5, payloads[1..])
  }

  lemma {:induction false} EndOfFrames(pos: nat, payloads: seq<bytes>)
    ensures End(pos, payloads) == pos + |Frames(payloads)|
    decreases |payloads|
  {
    if payloads != [] {
      EndOfFrames(pos + |payloads[0]| + 5, payloads[1..]);
    }
  }

  /** What the scan makes of a last, possibly cut, frame. */
  lemma ScanTail(log: bytes, pos: nat, next: bytes, n: nat)
    requires Fits(next) && n <= |next| + 5 && FrameAt(log, pos, next, n) && |log| == pos + n
    ensures Scan(log, pos) == if n < 4 + |next| then [] else [Entry(pos, next)]
  {
    if n < 4 + |next| {
      ReadCut(log, pos, next, n);
    } else {
      ReadFrame(log, pos, next, n);
      assert Scan(log, pos + 4 + |next| + 1) == [];
    }
  }

  lemma ScanOne(log: bytes, pos: nat, p: bytes)
    requires Fits(p) && FrameAt(log, pos, p, |p| + 5)
    ensures Scan(log, pos) == [Entry(pos, p)] + Scan(log, pos + |p| + 5)
  {
    ReadFrame(log, pos, p, |p| + 5);
  }

  /** The scan from `pos` reads the payloads one after the other. */
  predicate Reads(log: bytes, pos: nat, payloads: seq<bytes>)
    decreases |payloads|
  {
    payloads != [] ==>
      var p, next := payloads[0], pos + |payloads[0]| + 5;
      Scan(log, pos) == [Entry(pos, p)] + Scan(log, next) && Reads(log, next, payloads[1..])
  }

  lemma {:induction false} HeldReads(log: bytes, pos: nat, payloads: seq<bytes>)
    requires forall i :: 0 <= i < |payloads| ==> Fits(payloads[i])
    requires Holds(log, pos, payloads)
    ensures Reads(log, pos, payloads)
    decreases |payloads|
  {
    if payloads != [] {
      ScanOne(log, pos, payloads[0]);
      HeldReads(log, pos + |payloads[0]| + 5, payloads[1..]);
    }
  }

  lemma {:induction false} ScanRead(log: bytes, pos: nat, payloads: seq<bytes>)
    requires Reads(log, pos, payloads)
    ensures Scan(log, pos) == Entries(payloads, pos) + Scan(log, End(pos, payloads))
    decreases |payloads|
  {
    if payloads == [] {
      assert [] + Scan(log, pos) == Scan(log, pos);
    } else {
      var p, rest, next := payloads[0], payloads[1..], pos + |payloads[0]| + 5;
      ScanRead(log, next, rest);
      Assoc([Entry(pos, p)], Entries(rest, next), Scan(log, End(next, rest)));
    }
  }

  lemma AtEnd(before: bytes, next: bytes, n: nat)
    requires n <= |next| + 5
    ensures FrameAt(before + Frame(next)[..n], |before|, next, n)
  {
    Middle(before, Frame(next)[..n], []);
    assert before + Frame(next)[..n] + [] == before + Frame(next)[..n];
  }

  lemma FramesRead(log: bytes, payloads: seq<bytes>, fs: bytes)
    requires forall i :: 0 <= i < |payloads| ==> Fits(payloads[i])
    requires fs == Frames(payloads) && |fs| <= |log| && log[0..|fs|] == fs
    ensures Scan(log, 0) == Entries(payloads, 0) + Scan(log, |fs|)
  {
    FramesHold(log, 0, payloads, fs);
    HeldReads(log, 0, payloads);
    EndOfFrames(0, payloads);
    ScanRead(log, 0, payloads);
  }

  /** The scan reads complete frames at the start of a log whatever follows them. */
  lemma ScanPrefix(payloads: seq<bytes>, tail: bytes)
    requires forall i :: 0 <= i < |payloads| ==> Fits(payloads[i])
    ensures var fs := Frames(payloads); Scan(fs + tail, 0) == Entries(payloads, 0) + Scan(fs + tail, |fs|)
  {
    var fs := Frames(payloads);
    TwoParts(fs, tail);
    FramesRead(fs + tail, payloads, fs);
  }

  /**
    Scanning any list of frames followed by the first `n` bytes of one further
    frame yields exactly the payloads at their offsets; the cut frame is seen
    exactly when all its payload bytes are there.
   */
  lemma ScanFrames(payloads: seq<bytes>, next: bytes, n: nat)
    requires forall i :: 0 <= i < |payloads| ==> Fits(payloads[i])
    requires Fits(next) && n <= |next| + 5
    ensures Scan(Frames(payloads) + Frame(next)[..n], 0) ==
            Entries(payloads, 0) + (if n < 4 + |next| then [] else [Entry(|Frames(payloads)|, next)])
  {
    var fs, tail := Frames(payloads), Frame(next)[..n];
    ScanPrefix(payloads, tail);
    AtEnd(fs, next, n);
    ScanTail(fs + tail, |fs|, next, n);
  }

  lemma ScanClean(payloads: seq<bytes>)
    requires forall i :: 0 <= i < |payloads| ==> Fits(payloads[i])
    ensures Scan(Frames(payloads), 0) == Entries(payloads, 0)
  {
    ScanFrames(payloads, [], 0);
    assert Frames(payloads) + Frame([])[..0] == Frames(payloads);
    assert Entries(payloads, 0) + [] == Entries(payloads, 0);
  }

  // ----- what a cut frame does to the frames written after it -----

  lemma {:induction false} EntriesBelow(payloads: seq<bytes>, at: nat, e: Entry)
    requires e in Entries(payloads, at)
    ensures e.offset < End(at, payloads)
    decreases |payloads|
  {
    var next := at + |payloads[0]| + 5;
    if e in Entries(payloads[1..], next) {
      EntriesBelow(payloads[1..], next, e);
    }
  }

  lemma {:induction false} ScanAdvances(log: bytes, pos: nat, e: Entry)
    requires e in Scan(log, pos)
    ensures e.offset >= pos
    decreases |log| - pos
  {
    var p := ReadAt(log, pos).value;
    if e in Scan(log, pos + 4 + |p| + 1) {
      ScanAdvances(log, pos + 4 + |p| + 1, e);
    }
  }

  /** A position strictly inside what is read at `pos` is passed over. */
  lemma ScanPasses(log: bytes, pos: nat, at: nat, e: Entry)
    requires e in Scan(log, pos) && pos < at
    requires ReadAt(log, pos).Some? ==> at < pos + 4 + |ReadAt(log, pos).value| + 1
    ensures e.offset != at
  {
    var p := ReadAt(log, pos).value;
    if e in Scan(log, pos + 4 + |p| + 1) {
      ScanAdvances(log, pos + 4 + |p| + 1, e);
    }
  }

  /** The bytes of a cut frame that has its length field read as that length, whatever follows. */
  lemma CutReadsLength(log: bytes, pos: nat, torn: bytes, n: nat)
    requires Fits(torn) && n <= |torn| + 5 && FrameAt(log, pos, torn, n) && n >= 4
    ensures ReadAt(log, pos).Some? ==> |ReadAt(log, pos).value| == |torn|
  {
    HeaderReads(torn);
    FrameParts(torn, n);
    SubSlice(log, pos, Frame(torn)[..n], 0, 4);
  }

  /** After a frame cut anywhere but at its ends, no scan sees an entry where the next write starts. */
  lemma TornHides(payloads: seq<bytes>, torn: bytes, n: nat, after: bytes, e: Entry)
    requires forall i :: 0 <= i < |payloads| ==> Fits(payloads[i])
    requires Fits(torn) && 0 < n < |torn| + 5
    requires e in Scan(Frames(payloads) + (Frame(torn)[..n] + after), 0)
    ensures e.offset != |Frames(payloads)| + n
  {
    var fs, tail := Frames(payloads), Frame(torn)[..n] + after;
    var log := fs + tail;
    ScanPrefix(payloads, tail);
    EndOfFrames(0, payloads);
    if e in Entries(payloads, 0) {
      EntriesBelow(payloads, 0, e);
    } else {
      CutHere(fs, torn, n, after);
      if n >= 4 {
        CutReadsLength(log, |fs|, torn, n);
      }
      ScanPasses(log, |fs|, |fs| + n, e);
    }
  }

  lemma CutHere(before: bytes, torn: bytes, n: nat, after: bytes)
    requires n <= |torn| + 5
    ensures FrameAt(before + (Frame(torn)[..n] + after), |before|, torn, n)
  {
    Middle(before, Frame(torn)[..n], after);
    Assoc(before, Frame(torn)[..n], after);
  }

  /** The scan of the log finds the payload at the offset. */
  predicate Seen(log: bytes, at: nat, payload: bytes) {
    Entry(at, payload) in Scan(log, 0)
  }

  lemma SeenSame(log: bytes, log': bytes, at: nat, at': nat, payload: bytes)
    requires Seen(log, at, payload) && log == log' && at == at'
    ensures Seen(log', at', payload)
  {
  }

  /** The log in which `next` is written after the first `n` bytes of `torn`. */
  function AfterCut(payloads: seq<bytes>, torn: bytes, n: nat, next: bytes, more: bytes): bytes
    requires n <= |torn| + 5
  {
    Frames(payloads) + (Frame(torn)[..n] + (Frame(next) + more))
  }

  lemma {:induction false} LastEntry(payloads: seq<bytes>, p: bytes, at: nat)
    ensures Entry(End(at, payloads), p) in Entries(payloads + [p], at)
    decreases |payloads|
  {
    var all := payloads + [p];
    if payloads == [] {
      assert all == [p];
    } else {
      assert all[0] == payloads[0] && all[1..] == payloads[1..] + [p];
      LastEntry(payloads[1..], p, at + |payloads[0]| + 5);
    }
  }

  /** Complete frames hide nothing: the next frame is seen where it was written. */
  lemma NextIsSeen(payloads: seq<bytes>, next: bytes, more: bytes)
    requires Fits(next) && forall i :: 0 <= i < |payloads| ==> Fits(payloads[i])
    ensures Seen(Frames(payloads) + (Frame(next) + more), |Frames(payloads)|, next)
  {
    FramesSnoc(payloads, next);
    Assoc(Frames(payloads), Frame(next), more);
    ScanPrefix(payloads + [next], more);
    LastEntry(payloads, next, 0);
    EndOfFrames(0, payloads);
  }

  /**
    Whatever was written before and is written after: a frame that follows the first
    `n` bytes of another one is seen by the scan where it was written exactly when
    nothing of the other one arrived or all of it did, its newline included.
   */
  lemma SeenAfterCutExactlyWhen(payloads: seq<bytes>, torn: bytes, n: nat, next: bytes, more: bytes)
    requires forall i :: 0 <= i < |payloads| ==> Fits(payloads[i])
    requires Fits(torn) && Fits(next) && n <= |torn| + 5
    ensures Seen(AfterCut(payloads, torn, n, next, more), |Frames(payloads)| + n, next) <==> n == 0 || n == |torn| + 5
  {
    if n == 0 {
      SeenAfterNothing(payloads, torn, next, more);
    } else if n == |torn| + 5 {
      SeenAfterAll(payloads, torn, next, more);
    } else if Seen(AfterCut(payloads, torn, n, next, more), |Frames(payloads)| + n, next) {
      TornHides(payloads, torn, n, Frame(next) + more, Entry(|Frames(payloads)| + n, next));
    }
  }

  lemma SeenAfterNothing(payloads: seq<bytes>, torn: bytes, next: bytes, more: bytes)
    requires Fits(next) && forall i :: 0 <= i < |payloads| ==> Fits(payloads[i])
    ensures Seen(AfterCut(payloads, torn, 0, next, more), |Frames(payloads)|, next)
  {
    var rest := Frame(next) + more;
    assert Frame(torn)[..0] + rest == rest;
    NextIsSeen(payloads, next, more);
  }

  lemma AfterWhole(payloads: seq<bytes>, torn: bytes, next: bytes, more: bytes)
    ensures AfterCut(payloads, torn, |torn| + 5, next, more) == Frames(payloads + [torn]) + (Frame(next) + more)
    ensures |Frames(payloads + [torn])| == |Frames(payloads)| + |torn| + 5
  {
    TwoParts(Frame(torn), []);
    FramesSnoc(payloads, torn);
    Assoc(Frames(payloads), Frame(torn), Frame(next) + more);
  }

  lemma SeenAfterAll(payloads: seq<bytes>, torn: bytes, next: bytes, more: bytes)
    requires Fits(torn) && Fits(next) && forall i :: 0 <= i < |payloads| ==> Fits(payloads[i])
    ensures Seen(AfterCut(payloads, torn, |torn| + 5, next, more), |Frames(payloads)| + |torn| + 5, next)
  {
    NextIsSeen(payloads + [torn], next, more);
    AfterWhole(payloads, torn, next, more);
    SeenSame(Frames(payloads + [torn]) + (Frame(next) + more), AfterCut(payloads, torn, |torn| + 5, next, more),
             |Frames(payloads + [torn])|, |Frames(payloads)| + |torn| + 5, next);
  }
}
