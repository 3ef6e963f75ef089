/**
  Laws of `merge_persist` for any number of sessions that share one store. The
  store's transaction makes each call atomic, so an interleaving of calls is a
  sequence of the record maps that were merged.
 */
module RecordMerge {
  import opened Text
  import opened PageRecords
  import opened CommitProtocol

  function PersistAll(store: Records, ms: seq<Records>): Records
    decreases |ms|
  {
    if ms == [] then store else PersistAll(Persist(store, ms[0]), ms[1..])
  }

  /** Record `r` is offered for `k` by the initial store or by one of the calls. */
  ghost predicate Candidate(store: Records, ms: seq<Records>, k: string, r: Record) {
    || (k in store && store[k] == r)
    || exists i :: 0 <= i < |ms| && Offers(ms[i], k, r)
  }

  predicate Offers(m: Records, k: string, r: Record) {
    k in m && m[k] == r
  }

  /** The slot holds a state that the next read drops. */
  predicate Impossible(store: Records, k: string) {
    k in store && Violates(store[k])
  }

  /** A key survives one call exactly when the session holds it or its stored record is a possible state. */
  lemma KeyKeptExactlyWhen(store: Records, mine: Records, k: string)
    ensures k in Persist(store, mine) <==> k in mine || (k in store && !Violates(store[k]))
    ensures k in store && !Violates(store[k]) ==> store[k].updatedAt <= Persist(store, mine)[k].updatedAt
  {
  }

  // ----- when a key is kept and its timestamp does not go back -----

  /** The key stays and its timestamp does not decrease. */
  predicate Forward(a: Records, b: Records, k: string) {
    k in a ==> k in b && a[k].updatedAt <= b[k].updatedAt
  }

  lemma ForwardExactlyWhen(store: Records, mine: Records, k: string)
    ensures Forward(store, Persist(store, mine), k) <==>
            (Impossible(store, k) ==> k in mine && store[k].updatedAt <= mine[k].updatedAt)
  {
  }

  /** Through all calls the key, once there, stays and its timestamp does not decrease. */
  predicate AlwaysForward(store: Records, ms: seq<Records>, k: string)
    decreases |ms|
  {
    ms == [] || (Forward(store, Persist(store, ms[0]), k) && AlwaysForward(Persist(store, ms[0]), ms[1..], k))
  }

  /** Whenever a call meets an impossible state, it offers a record that is no older. */
  predicate AlwaysRenewed(store: Records, ms: seq<Records>, k: string)
    decreases |ms|
  {
    ms == [] ||
    (&& (Impossible(store, k) ==> k in ms[0] && store[k].updatedAt <= ms[0][k].updatedAt)
     && AlwaysRenewed(Persist(store, ms[0]), ms[1..], k))
  }

  /** For any interleaving: no key is lost and no timestamp goes back exactly when impossible states are always renewed. */
  lemma {:induction false} NothingLostExactlyWhen(store: Records, ms: seq<Records>, k: string)
    ensures AlwaysForward(store, ms, k) <==> AlwaysRenewed(store, ms, k)
    decreases |ms|
  {
    if ms != [] {
      ForwardExactlyWhen(store, ms[0], k);
      NothingLostExactlyWhen(Persist(store, ms[0]), ms[1..], k);
    }
  }

  /**
    A fresh run that fails on a COMMITTED page leaves an impossible state, and the next
    merge of any session without that page drops the page. It is spared exactly when
    the stored record is valid and newer than the failure.
   */
  lemma FailureLosesCommittedPage(s: Session, item: Item, error: ExporterError, now: int, hashes: set<string>)
    requires AllHonest(s.records, hashes) && item.key in s.records && s.records[item.key].status == Committed
    ensures var failed := FailedRecord(s, item, error, now);
            && failed.Some?
            && (item.key !in PersistAll(s.records, [s.records[item.key := failed.value], map[]]) <==>
                  Violates(s.records[item.key]) || s.records[item.key].updatedAt <= now)
  {
    var failed := FailedRecord(s, item, error, now).value;
    var mine := s.records[item.key := failed];
    assert Honest(s.records[item.key], hashes);
    assert Violates(failed);
    PersistTwo(s.records, mine, map[]);
  }

  lemma PersistTwo(store: Records, a: Records, b: Records)
    ensures PersistAll(store, [a, b]) == Persist(Persist(store, a), b)
  {
    assert [a, b][1..] == [b] && [b][1..] == [];
    assert PersistAll(Persist(store, a), [b]) == PersistAll(Persist(Persist(store, a), b), []);
  }

  // ----- which record wins -----

  /** No call meets an impossible state in the slot. */
  predicate NoResets(store: Records, ms: seq<Records>, k: string)
    decreases |ms|
  {
    ms == [] || (!Impossible(store, k) && NoResets(Persist(store, ms[0]), ms[1..], k))
  }

  /** The slot holds an offered record that no other offered record exceeds in time; it is empty if none was offered. */
  ghost predicate LatestOf(store: Records, ms: seq<Records>, k: string, final: Records) {
    && (k in final <==> exists r :: Candidate(store, ms, k, r))
    && (k in final ==>
          && Candidate(store, ms, k, final[k])
          && forall r :: Candidate(store, ms, k, r) ==> r.updatedAt <= final[k].updatedAt)
  }

  lemma CandidatesOfTail(store: Records, ms: seq<Records>, k: string, r: Record)
    requires ms != []
    requires Candidate(Persist(store, ms[0]), ms[1..], k, r)
    ensures Candidate(store, ms, k, r)
  {
    var next := Persist(store, ms[0]);
    if !(k in next && next[k] == r) {
      var i :| 0 <= i < |ms[1..]| && Offers(ms[1..][i], k, r);
      assert Offers(ms[i + 1], k, r);
    } else if k in ms[0] && ms[0][k] == r {
      assert Offers(ms[0], k, r);
    }
  }

  lemma OfferSurvivesOrLoses(store: Records, ms: seq<Records>, k: string, r: Record)
    requires ms != [] && !Impossible(store, k) && Candidate(store, ms, k, r)
    ensures exists r' :: Candidate(Persist(store, ms[0]), ms[1..], k, r') && r.updatedAt <= r'.updatedAt
  {
    var next := Persist(store, ms[0]);
    if (k in store && store[k] == r) || Offers(ms[0], k, r) {
      assert k in next;
      assert Candidate(next, ms[1..], k, next[k]);
    } else {
      var i :| 0 <= i < |ms| && Offers(ms[i], k, r);
      assert Offers(ms[1..][i - 1], k, r);
      assert Candidate(next, ms[1..], k, r);
    }
  }

  lemma {:induction false} LatestWithoutResets(store: Records, ms: seq<Records>, k: string)
    requires NoResets(store, ms, k)
    ensures LatestOf(store, ms, k, PersistAll(store, ms))
    decreases |ms|
  {
    var final := PersistAll(store, ms);
    if ms == [] {
      if k in store { assert Candidate(store, ms, k, store[k]); }
    } else {
      var next := Persist(store, ms[0]);
      LatestWithoutResets(next, ms[1..], k);
      if k in final {
        CandidatesOfTail(store, ms, k, final[k]);
      }
      forall r | Candidate(store, ms, k, r)
        ensures k in final && r.updatedAt <= final[k].updatedAt
      {
        OfferSurvivesOrLoses(store, ms, k, r);
        var r' :| Candidate(next, ms[1..], k, r') && r.updatedAt <= r'.updatedAt;
      }
    }
  }

  predicate SameSlot(a: Records, b: Records, k: string) {
    (k in a <==> k in b) && (k in a && k in b ==> a[k] == b[k])
  }

  /** Stores that a read cannot tell apart at a key stay so through any calls. */
  lemma {:induction false} SlotsStaySame(a: Records, b: Records, ms: seq<Records>, k: string)
    requires SameSlot(a, b, k) || (ms != [] && SameSlot(Quarantine(a), Quarantine(b), k))
    ensures SameSlot(PersistAll(a, ms), PersistAll(b, ms), k)
    ensures SameSlot(a, b, k) ==> (NoResets(a, ms, k) <==> NoResets(b, ms, k))
    decreases |ms|
  {
    if ms != [] {
      assert SameSlot(Persist(a, ms[0]), Persist(b, ms[0]), k);
      SlotsStaySame(Persist(a, ms[0]), Persist(b, ms[0]), ms[1..], k);
    }
  }

  /**
    Any interleaving, any records: what is finally stored for a key is the latest of
    the records offered since the last time a call met an impossible state in the slot
    (by all calls and the initial store, if none did); the key is gone exactly when
    nothing was offered since.
   */
  lemma {:induction false} LatestOfferWins(store: Records, ms: seq<Records>, k: string) returns (base: Records, from: nat)
    ensures from <= |ms|
    ensures if from == 0 && NoResets(store, ms, k) then base == store
            else from < |ms| && Impossible(PersistAll(store, ms[..from]), k) && base == map[]
    ensures NoResets(base, ms[from..], k)
    ensures LatestOf(base, ms[from..], k, PersistAll(store, ms))
    decreases |ms|
  {
    if NoResets(store, ms, k) {
      base, from := store, 0;
      assert ms[0..] == ms;
      LatestWithoutResets(store, ms, k);
    } else {
      var next, tail := Persist(store, ms[0]), ms[1..];
      if NoResets(next, tail, k) {
        base, from := map[], 0;
        assert ms[..0] == [] && ms[0..] == ms;
        SlotsStaySame(store, map[], ms, k);
        SlotsStaySame(next, Persist(map[], ms[0]), tail, k);
        LatestWithoutResets(map[], ms, k);
        LatestSameSlot(map[], ms, k, PersistAll(map[], ms), PersistAll(store, ms));
      } else {
        base, from := LatestOfferWins(next, tail, k);
        from := from + 1;
        assert ms[..from][0] == ms[0] && ms[..from][1..] == tail[..from - 1];
        assert ms[from..] == tail[from - 1..];
      }
    }
  }

  lemma LatestSameSlot(store: Records, ms: seq<Records>, k: string, a: Records, b: Records)
    requires LatestOf(store, ms, k, a) && SameSlot(a, b, k)
    ensures LatestOf(store, ms, k, b)
  {
  }

  // ----- when the order of the calls does not matter -----

  /** Different records offered for one key never carry the same timestamp. */
  ghost predicate NoTies(store: Records, ms: seq<Records>) {
    forall k, r, r' :: Candidate(store, ms, k, r) && Candidate(store, ms, k, r') && r.updatedAt == r'.updatedAt ==> r == r'
  }

  /** `r` is the one latest record offered for `k`. */
  ghost predicate Latest(store: Records, ms: seq<Records>, k: string, r: Record) {
    && Candidate(store, ms, k, r)
    && forall r' :: Candidate(store, ms, k, r') ==> r' == r || r'.updatedAt < r.updatedAt
  }

  predicate OfferedByAll(ms: seq<Records>, k: string, r: Record) {
    forall i :: 0 <= i < |ms| ==> Offers(ms[i], k, r)
  }

  lemma CandidatesPermute(store: Records, ms: seq<Records>, ns: seq<Records>, k: string, r: Record)
    requires multiset(ms) == multiset(ns) && Candidate(store, ms, k, r)
    ensures Candidate(store, ns, k, r)
  {
    if !(k in store && store[k] == r) {
      var i :| 0 <= i < |ms| && Offers(ms[i], k, r);
      assert ms[i] in multiset(ms);
      assert ms[i] in ns;
      var j :| 0 <= j < |ns| && ns[j] == ms[i];
      assert Offers(ns[j], k, r);
    }
  }

  lemma LatestPermutes(store: Records, ms: seq<Records>, ns: seq<Records>, k: string, r: Record)
    requires multiset(ms) == multiset(ns) && Latest(store, ms, k, r)
    ensures Latest(store, ns, k, r)
  {
    CandidatesPermute(store, ms, ns, k, r);
    forall r' | Candidate(store, ns, k, r') ensures r' == r || r'.updatedAt < r.updatedAt {
      CandidatesPermute(store, ns, ms, k, r');
    }
  }

  lemma LatestExists(store: Records, ms: seq<Records>, k: string, r: Record) returns (l: Record)
    requires Candidate(store, ms, k, r) && NoTies(store, ms)
    ensures Latest(store, ms, k, l)
  {
    l := MaxTime(store, ms, k, r);
  }

  lemma {:induction false} MaxTime(store: Records, ms: seq<Records>, k: string, r: Record) returns (l: Record)
    requires Candidate(store, ms, k, r)
    ensures Candidate(store, ms, k, l) && forall r' :: Candidate(store, ms, k, r') ==> r'.updatedAt <= l.updatedAt
    decreases |ms|
  {
    if ms == [] {
      l := r;
    } else {
      var n := |ms| - 1;
      var init, last := ms[..n], ms[n];
      CandidateSnoc(store, ms, k);
      if exists x :: Candidate(store, init, k, x) {
        var x :| Candidate(store, init, k, x);
        l := MaxTime(store, init, k, x);
        if k in last && l.updatedAt < last[k].updatedAt {
          l := last[k];
        }
      } else {
        l := r;
      }
    }
  }

  lemma CandidateSnoc(store: Records, ms: seq<Records>, k: string)
    requires ms != []
    ensures var n := |ms| - 1;
            forall r :: Candidate(store, ms, k, r) <==> Candidate(store, ms[..n], k, r) || Offers(ms[n], k, r)
  {
    var n := |ms| - 1;
    forall r ensures Candidate(store, ms, k, r) <==> Candidate(store, ms[..n], k, r) || Offers(ms[n], k, r) {
      if Candidate(store, ms[..n], k, r) && !(k in store && store[k] == r) {
        var i :| 0 <= i < n && Offers(ms[..n][i], k, r);
        assert Offers(ms[i], k, r);
      }
      if Candidate(store, ms, k, r) && !(k in store && store[k] == r) {
        var i :| 0 <= i < |ms| && Offers(ms[i], k, r);
        if i < n { assert Offers(ms[..n][i], k, r); }
      }
    }
  }

  lemma PersistAllSnoc(store: Records, ms: seq<Records>, m: Records)
    ensures PersistAll(store, ms + [m]) == Persist(PersistAll(store, ms), m)
    decreases |ms|
  {
    if ms == [] {
      assert [m][1..] == [];
      assert ms + [m] == [m];
      assert PersistAll(Persist(store, m), []) == Persist(store, m);
    } else {
      assert (ms + [m])[0] == ms[0] && (ms + [m])[1..] == ms[1..] + [m];
      PersistAllSnoc(Persist(store, ms[0]), ms[1..], m);
    }
  }

  /** What a read shows of a slot was offered. */
  lemma {:induction false} SlotIsOffered(store: Records, ms: seq<Records>, k: string)
    requires k in PersistAll(store, ms) && (ms == [] ==> !Impossible(store, k))
    ensures Candidate(Quarantine(store), ms, k, PersistAll(store, ms)[k])
    decreases |ms|
  {
    if ms != [] {
      var n := |ms| - 1;
      assert ms == ms[..n] + [ms[n]];
      var before := PersistAll(store, ms[..n]);
      PersistAllSnoc(store, ms[..n], ms[n]);
      CandidateSnoc(Quarantine(store), ms, k);
      if !Offers(ms[n], k, PersistAll(store, ms)[k]) {
        SlotIsOffered(store, ms[..n], k);
      }
    }
  }

  /** The call that offers the latest record last makes it the final one. */
  lemma LatestAtEnd(store: Records, ms: seq<Records>, m: Records, k: string, l: Record)
    requires Latest(Quarantine(store), ms + [m], k, l) && Offers(m, k, l)
    ensures Offers(PersistAll(store, ms + [m]), k, l)
  {
    var before := PersistAll(store, ms);
    PersistAllSnoc(store, ms, m);
    if k in Quarantine(before) {
      SlotIsOffered(store, ms, k);
      CandidateSnoc(Quarantine(store), ms + [m], k);
      assert (ms + [m])[..|ms|] == ms;
    }
  }

  /** A latest record that is a possible state is final whenever it is offered. */
  lemma {:induction false} LatestStays(store: Records, ms: seq<Records>, k: string, l: Record)
    requires Latest(Quarantine(store), ms, k, l) && !Violates(l)
    ensures Offers(PersistAll(store, ms), k, l)
    decreases |ms|
  {
    if ms != [] {
      var n := |ms| - 1;
      var init, last := ms[..n], ms[n];
      assert ms == init + [last];
      CandidateSnoc(Quarantine(store), ms, k);
      if Offers(last, k, l) {
        LatestAtEnd(store, init, last, k, l);
      } else {
        LatestStays(store, init, k, l);
        PersistAllSnoc(store, init, last);
        assert k in last ==> Offers(last, k, last[k]);
      }
    }
  }

  /** No order of the calls leads to a different store. */
  ghost predicate OrderFree(store: Records, ms: seq<Records>) {
    forall ns: seq<Records> :: multiset(ns) == multiset(ms) ==> PersistAll(store, ns) == PersistAll(store, ms)
  }

  /** A latest record that is an impossible state is offered by every call. */
  ghost predicate LatestIsShared(store: Records, ms: seq<Records>) {
    forall k, l :: Latest(Quarantine(store), ms, k, l) && Violates(l) ==> OfferedByAll(ms, k, l)
  }

  lemma FinalIsLatest(store: Records, ms: seq<Records>, k: string, l: Record)
    requires Latest(Quarantine(store), ms, k, l) && (Violates(l) ==> OfferedByAll(ms, k, l))
    ensures Offers(PersistAll(store, ms), k, l)
  {
    if Violates(l) {
      assert ms != [];
      var n := |ms| - 1;
      assert ms == ms[..n] + [ms[n]];
      LatestAtEnd(store, ms[..n], ms[n], k, l);
    } else {
      LatestStays(store, ms, k, l);
    }
  }

  lemma AnyOrderSameSlot(store: Records, ms: seq<Records>, ns: seq<Records>, k: string)
    requires ms != [] && multiset(ns) == multiset(ms) && NoTies(Quarantine(store), ms) && LatestIsShared(store, ms)
    ensures SameSlot(PersistAll(store, ms), PersistAll(store, ns), k)
  {
    var q := Quarantine(store);
    assert |ns| == |multiset(ns)| == |ms|;
    if exists r :: Candidate(q, ms, k, r) {
      var r :| Candidate(q, ms, k, r);
      var l := LatestExists(q, ms, k, r);
      LatestPermutes(q, ms, ns, k, l);
      if Violates(l) {
        AllOfferPermuted(ms, ns, k, l);
      }
      FinalIsLatest(store, ms, k, l);
      FinalIsLatest(store, ns, k, l);
    } else {
      if k in PersistAll(store, ms) { SlotIsOffered(store, ms, k); }
      if k in PersistAll(store, ns) {
        SlotIsOffered(store, ns, k);
        CandidatesPermute(q, ns, ms, k, PersistAll(store, ns)[k]);
      }
    }
  }

  lemma AllOfferPermuted(ms: seq<Records>, ns: seq<Records>, k: string, l: Record)
    requires multiset(ns) == multiset(ms) && OfferedByAll(ms, k, l)
    ensures OfferedByAll(ns, k, l)
  {
    forall i | 0 <= i < |ns| ensures Offers(ns[i], k, l) {
      assert ns[i] in multiset(ns);
      assert ns[i] in ms;
    }
  }

  /** Moving two calls to the end changes nothing but the order. */
  lemma TwoToEnd(ms: seq<Records>, i: nat, j: nat) returns (others: seq<Records>)
    requires i < |ms| && j < |ms| && i != j
    ensures multiset(others + [ms[i]] + [ms[j]]) == multiset(ms) == multiset(others + [ms[j]] + [ms[i]])
  {
    var a, b := if i < j then i else j, if i < j then j else i;
    var x, y, z := ms[..a], ms[a + 1..b], ms[b + 1..];
    others := x + y + z;
    assert ms == x + [ms[a]] + y + [ms[b]] + z;
    Rearranged(x, ms[a], y, ms[b], z);
  }

  lemma Rearranged<T>(x: seq<T>, p: T, y: seq<T>, q: T, z: seq<T>)
    ensures multiset(x + [p] + y + [q] + z) == multiset(x + y + z + [p] + [q])
    ensures multiset(x + y + z + [p] + [q]) == multiset(x + y + z + [q] + [p])
  {
  }

  /** An impossible latest record that not every call offers: two orders end differently. */
  lemma OrderMatters(store: Records, ms: seq<Records>, k: string, l: Record, i: nat, j: nat)
    requires Latest(Quarantine(store), ms, k, l) && Violates(l)
    requires i < |ms| && j < |ms| && Offers(ms[i], k, l) && !Offers(ms[j], k, l)
    ensures !OrderFree(store, ms)
  {
    var others := TwoToEnd(ms, i, j);
    var last, lost := others + [ms[j]] + [ms[i]], others + [ms[i]] + [ms[j]];
    LatestPermutes(Quarantine(store), ms, last, k, l);
    LatestAtEnd(store, others + [ms[j]], ms[i], k, l);
    LatestPermutes(Quarantine(store), ms, lost, k, l);
    WithoutLast(Quarantine(store), others + [ms[i]], ms[j], k, l);
    LatestAtEnd(store, others, ms[i], k, l);
    PersistAllSnoc(store, others + [ms[i]], ms[j]);
    assert !Offers(PersistAll(store, lost), k, l);
    assert PersistAll(store, last) != PersistAll(store, lost);
  }

  lemma WithoutLast(base: Records, ms: seq<Records>, m: Records, k: string, l: Record)
    requires Latest(base, ms + [m], k, l) && ms != [] && Offers(ms[|ms| - 1], k, l)
    ensures Latest(base, ms, k, l)
  {
    var all := ms + [m];
    assert all[..|all| - 1] == ms;
    CandidateSnoc(base, all, k);
    assert Candidate(base, ms, k, l);
  }

  /**
    Without ties, the final store is the same for every order of the calls exactly when
    the latest record offered for a key is a possible state or is offered by every call.
   */
  lemma OrderDoesNotMatterExactlyWhen(store: Records, ms: seq<Records>)
    requires NoTies(Quarantine(store), ms)
    ensures OrderFree(store, ms) <==> LatestIsShared(store, ms)
  {
    if LatestIsShared(store, ms) {
      forall ns: seq<Records> | multiset(ns) == multiset(ms) ensures PersistAll(store, ns) == PersistAll(store, ms) {
        SameStore(store, ms, ns);
      }
    } else {
      var k, l :| Latest(Quarantine(store), ms, k, l) && Violates(l) && !OfferedByAll(ms, k, l);
      var j :| 0 <= j < |ms| && !Offers(ms[j], k, l);
      assert !(k in Quarantine(store) && Quarantine(store)[k] == l);
      var i :| 0 <= i < |ms| && Offers(ms[i], k, l);
      OrderMatters(store, ms, k, l, i, j);
    }
  }

  lemma SameStore(store: Records, ms: seq<Records>, ns: seq<Records>)
    requires multiset(ns) == multiset(ms) && NoTies(Quarantine(store), ms) && LatestIsShared(store, ms)
    ensures PersistAll(store, ns) == PersistAll(store, ms)
  {
    if ms == [] {
      assert |ns| == |multiset(ns)| == 0;
    } else {
      var a, b := PersistAll(store, ms), PersistAll(store, ns);
      forall k ensures SameSlot(a, b, k) {
        AnyOrderSameSlot(store, ms, ns, k);
      }
      EqualBySlots(a, b);
    }
  }

  lemma EqualBySlots(a: Records, b: Records)
    requires forall k :: SameSlot(a, b, k)
    ensures a == b
  {
    forall k ensures (k in a <==> k in b) && (k in a && k in b ==> a[k] == b[k]) {
      assert SameSlot(a, b, k);
    }
    assert a.Keys == b.Keys;
  }

  /** Every surviving stored record is known to the session and not newer than the session's own. */
  ghost predicate Behind(store: Records, mine: Records) {
    forall k :: k in store && !Violates(store[k]) ==> k in mine && store[k].updatedAt <= mine[k].updatedAt
  }

  /** A single writer whose clock never steps back simply overwrites the store. */
  lemma SingleWriterOverwrites(store: Records, mine: Records)
    requires Behind(store, mine)
    ensures Persist(store, mine) == mine
  {
    var p := Persist(store, mine);
    assert p.Keys == mine.Keys;
  }

  function Rank(s: Status): nat {
    match s
    case Discovered => 0
    case Queued => 1
    case Fetching => 2
    case Fetched => 3
    case Extracted => 4
    case Processed => 5
    case Exported => 6
    case Committed => 7
  }

  /** A merge lowers a status exactly when an at least as recent record of lower rank arrives. */
  lemma StatusDropsExactlyWhen(store: Records, mine: Records, k: string)
    requires k in store && !Violates(store[k])
    ensures Rank(Persist(store, mine)[k].status) < Rank(store[k].status) <==>
            k in mine && store[k].updatedAt <= mine[k].updatedAt && Rank(mine[k].status) < Rank(store[k].status)
  {
  }

  /**
    Two sessions opened on the same empty store: the first commits a page, the
    second fails on it later, and the merge takes the page from COMMITTED back to
    DISCOVERED.
   */
  lemma ConcurrentFailureUndoesCommit(committed: Record, failed: Record, k: string)
    requires !Violates(committed) && committed.status == Committed
    requires failed.status == Discovered && committed.updatedAt <= failed.updatedAt
    ensures var final := PersistAll(map[], [map[k := committed], map[k := failed]]);
            k in final && final[k].status == Discovered
  {
    var ms := [map[k := committed], map[k := failed]];
    var s1 := Persist(map[], ms[0]);
    assert ms[1..] == [map[k := failed]];
    assert PersistAll(s1, ms[1..]) == PersistAll(Persist(s1, ms[1]), []);
  }
}
