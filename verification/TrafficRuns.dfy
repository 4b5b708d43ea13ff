/** Conservation of traffic in terms of what was reported: values that fit, session ids that do not share
    a hash, and no bucket going round its ring between two flushes. */
module TrafficRuns {
  import opened Basics
  import opened CacheBucket
  import opened CacheRuns
  import opened CacheUpsert
  import opened CacheLedger
  import opened Stats
  import CacheLayout

  // ---- no bucket wraps -----------------------------------------------------------------

  /** A report whose value fits and, if it inserts, does not make its bucket wrap. */
  ghost predicate QuietAt(c: Buckets, hash: HashFn, e: StatEvent) {
    if e.Flush? then Share(c, hash, e.i, e.items)
    else
      && WriteError(e.t.id, NewValue(e.t)).Ok?
      && (Lookup(c, hash, e.t.id).Err? ==> !Wraps(c[Slot(hash, e.t.id)].ring, RecordSize(e.t.id, NewValue(e.t))))
  }

  ghost predicate Quiet(n: nat, hash: HashFn, es: seq<StatEvent>)
    requires 1 <= n <= MAX_GEN + 1
  {
    forall j :: 0 <= j < |es| ==> QuietAt(CacheAfter(n, hash, es[..j]), hash, es[j])
  }

  /** No two session ids that are reported share a hash. */
  ghost predicate NoCollision(hash: HashFn, es: seq<StatEvent>) {
    forall i, j | 0 <= i < |es| && 0 <= j < |es| && es[i].ReportStats? && es[j].ReportStats? ::
      hash(es[i].t.id) == hash(es[j].t.id) ==> es[i].t.id == es[j].t.id
  }

  ghost predicate Reported(es: seq<StatEvent>, id: bytes) {
    exists j :: 0 <= j < |es| && es[j].ReportStats? && es[j].t.id == id
  }

  /** Every bucket is on its first lap since it was emptied, and holds reported sessions only. */
  ghost predicate Tame(c: Buckets, hash: HashFn, es: seq<StatEvent>) {
    && (forall i :: 0 <= i < BUCKETS ==> FirstLap(c[i]))
    && (forall k :: Lookup(c, hash, k).Ok? ==> Reported(es, k))
  }

  /** The cache after one more event. */
  lemma NextCache(n: nat, hash: HashFn, es: seq<StatEvent>, e: StatEvent)
    requires 1 <= n <= MAX_GEN + 1
    ensures var c, c' := CacheAfter(n, hash, es), CacheAfter(n, hash, es + [e]);
            if e.Flush? then c' == Emptying(c, e.i)
            else KeepsLength(Adder(e.t.drx, e.t.dtx))
                 && c' == Upserted(c, hash, e.t.id, NewValue(e.t), Adder(e.t.drx, e.t.dtx), e.t.page)
  {
    var acts := Actions(es, RxCounter);
    ActionsPosts(es, RxCounter);
    ActionsPosts(es + [e], RxCounter);
    assert Actions(es + [e], RxCounter) == acts + [ActionOf(e, RxCounter)];
    NextState(n, hash, Layout(RxCounter), acts, ActionOf(e, RxCounter));
    if e.ReportStats? { AdderKeepsLength(e.t.drx, e.t.dtx); }
  }

  /** Nothing cached is empty, so a report can tell a miss from a hit. */
  lemma LossfreeIsNonEmpty(n: nat, hash: HashFn, es: seq<StatEvent>)
    requires 1 <= n <= MAX_GEN + 1 && Lossfree(n, hash, es)
    ensures NonEmpty(CacheAfter(n, hash, es), hash)
  {
    LossfreeIsLegal(n, hash, es, RxCounter);
    CacheAfterIs(n, hash, es, RxCounter);
    Conservation(n, hash, Layout(RxCounter), Actions(es, RxCounter), []);
    var c := CacheAfter(n, hash, es);
    forall k ensures Lookup(c, hash, k) != Ok([]) { assert ViewOf(c, hash)(k) == Lookup(c, hash, k); }
  }

  /** Whoever is stored under the hash of a session is that session. */
  lemma HashIsOwn(c: Buckets, hash: HashFn, log: seq<Event>, es: seq<StatEvent>, t: Traffic)
    requires Inv(c, hash, log) && Ready(c) && Tame(c, hash, es) && NoCollision(hash, es + [ReportStats(t)])
    requires hash(t.id) in Contents(c[Slot(hash, t.id)])
    ensures Contents(c[Slot(hash, t.id)])[hash(t.id)].0 == t.id && Lookup(c, hash, t.id).Ok?
  {
    var b := c[Slot(hash, t.id)];
    assert Current(b, Slot(hash, t.id), hash, log);
    var k := Contents(b)[hash(t.id)].0;
    LookupContents(c, hash, k);
    assert Reported(es, k);
    var j :| 0 <= j < |es| && es[j].ReportStats? && es[j].t.id == k;
    var all := es + [ReportStats(t)];
    assert all[j] == es[j] && all[|es|] == ReportStats(t);
    assert hash(all[j].t.id) == hash(all[|es|].t.id);
  }

  lemma TameIsLossfree(c: Buckets, hash: HashFn, log: seq<Event>, es: seq<StatEvent>, e: StatEvent)
    requires Inv(c, hash, log) && Ready(c) && Tame(c, hash, es) && QuietAt(c, hash, e) && NoCollision(hash, es + [e])
    ensures LossfreeAt(c, hash, e)
  {
    if e.ReportStats? && Lookup(c, hash, e.t.id).Err? {
      if hash(e.t.id) in Contents(c[Slot(hash, e.t.id)]) { HashIsOwn(c, hash, log, es, e.t); }
      NoWrapIsLossless(c, hash, e.t.id, NewValue(e.t));
    }
  }

  lemma ReportStaysTame(c: Buckets, hash: HashFn, es: seq<StatEvent>, t: Traffic)
    requires Ready(c) && Tame(c, hash, es) && NonEmpty(c, hash) && KeepsLength(Adder(t.drx, t.dtx))
    requires QuietAt(c, hash, ReportStats(t)) && LossfreeAt(c, hash, ReportStats(t))
    ensures Tame(Upserted(c, hash, t.id, NewValue(t), Adder(t.drx, t.dtx), t.page), hash, es + [ReportStats(t)])
  {
    var g, v, all := Adder(t.drx, t.dtx), NewValue(t), es + [ReportStats(t)];
    var c' := Upserted(c, hash, t.id, v, g, t.page);
    FirstLapKept(c[Slot(hash, t.id)], hash(t.id), t.id, v, g, t.page) by {
      assert Lookup(c, hash, t.id) != Ok([]);
    }
    forall k | Lookup(c', hash, k).Ok? ensures Reported(all, k) {
      LosslessKeeps(c, hash, t.id, v, g, t.page, k);
      if k == t.id {
        assert all[|es|] == ReportStats(t);
      } else {
        var j :| 0 <= j < |es| && es[j].ReportStats? && es[j].t.id == k;
        assert all[j] == es[j];
      }
    }
  }

  lemma FlushLookup(c: Buckets, hash: HashFn, i: nat, k: bytes)
    requires i < BUCKETS
    ensures Lookup(Emptying(c, i), hash, k) == if Slot(hash, k) == i then Err(NoData) else Lookup(c, hash, k)
  {
    if Slot(hash, k) == i { assert Emptying(c, i)[i].m == map[]; }
  }

  lemma FlushStaysTame(c: Buckets, hash: HashFn, es: seq<StatEvent>, e: StatEvent)
    requires Ready(c) && Tame(c, hash, es) && e.Flush?
    ensures Tame(Emptying(c, e.i), hash, es + [e])
  {
    var c', all := Emptying(c, e.i), es + [e];
    forall k | Lookup(c', hash, k).Ok? ensures Reported(all, k) {
      FlushLookup(c, hash, e.i, k);
      var j :| 0 <= j < |es| && es[j].ReportStats? && es[j].t.id == k;
      assert all[j] == es[j];
    }
  }

  lemma EmptyIsTame(n: nat, hash: HashFn)
    requires 1 <= n <= MAX_GEN + 1
    ensures Tame(CacheAfter(n, hash, []), hash, [])
    ensures forall i :: 0 <= i < BUCKETS ==> CacheAfter(n, hash, [])[i] == Emptied(n)
  {
    assert Calls(Actions([], RxCounter)) == [];
  }

  lemma QuietPrior(n: nat, hash: HashFn, es: seq<StatEvent>, e: StatEvent)
    requires 1 <= n <= MAX_GEN + 1 && Quiet(n, hash, es + [e]) && NoCollision(hash, es + [e])
    ensures Quiet(n, hash, es) && NoCollision(hash, es) && QuietAt(CacheAfter(n, hash, es), hash, e)
  {
    var all := es + [e];
    assert all[..|es|] == es && all[|es|] == e;
    forall j | 0 <= j < |es| ensures QuietAt(CacheAfter(n, hash, es[..j]), hash, es[j]) {
      assert all[j] == es[j] && all[..j] == es[..j];
    }
    assert forall j :: 0 <= j < |es| ==> all[j] == es[j];
  }

  lemma LossfreeSnoc(n: nat, hash: HashFn, es: seq<StatEvent>, e: StatEvent)
    requires 1 <= n <= MAX_GEN + 1 && Lossfree(n, hash, es) && LossfreeAt(CacheAfter(n, hash, es), hash, e)
    ensures Lossfree(n, hash, es + [e])
  {
    var all := es + [e];
    forall j | 0 <= j < |all| ensures LossfreeAt(CacheAfter(n, hash, all[..j]), hash, all[j]) {
      if j < |es| {
        assert all[j] == es[j] && all[..j] == es[..j];
      } else {
        assert all[..j] == es;
      }
    }
  }

  /** Runs whose values fit, whose ids do not collide and in which no bucket wraps lose nothing. */
  lemma {:induction false} QuietIsLossfree(n: nat, hash: HashFn, es: seq<StatEvent>)
    requires 1 <= n <= MAX_GEN + 1 && Quiet(n, hash, es) && NoCollision(hash, es)
    ensures Lossfree(n, hash, es) && Tame(CacheAfter(n, hash, es), hash, es)
    decreases |es|
  {
    if es == [] {
      EmptyIsTame(n, hash);
    } else {
      var prior, e := es[..|es| - 1], es[|es| - 1];
      Snoc(es);
      QuietPrior(n, hash, prior, e);
      QuietIsLossfree(n, hash, prior);
      QuietNext(n, hash, prior, e);
    }
  }

  lemma QuietNext(n: nat, hash: HashFn, es: seq<StatEvent>, e: StatEvent)
    requires 1 <= n <= MAX_GEN + 1 && Lossfree(n, hash, es) && Tame(CacheAfter(n, hash, es), hash, es)
    requires QuietAt(CacheAfter(n, hash, es), hash, e) && NoCollision(hash, es + [e])
    ensures Lossfree(n, hash, es + [e]) && Tame(CacheAfter(n, hash, es + [e]), hash, es + [e])
  {
    var c := CacheAfter(n, hash, es);
    ActionsPosts(es, RxCounter);
    var log := StateLog(n, hash, Layout(RxCounter), Actions(es, RxCounter));
    TameIsLossfree(c, hash, log, es, e);
    LossfreeSnoc(n, hash, es, e);
    NextCache(n, hash, es, e);
    if e.Flush? {
      FlushStaysTame(c, hash, es, e);
    } else {
      LossfreeIsNonEmpty(n, hash, es);
      ReportStaysTame(c, hash, es, e.t);
    }
  }

  lemma TrafficConservedUnlessWrapped(n: nat, hash: HashFn, es: seq<StatEvent>, id: bytes, counter: Counter)
    requires 1 <= n <= MAX_GEN + 1 && Quiet(n, hash, es) && NoCollision(hash, es)
    ensures var c := CacheAfter(n, hash, es);
            Balanced(TotalFlushed(es, id, counter), StillCached(c, hash, id, counter), TotalReported(es, id, counter))
  {
    QuietIsLossfree(n, hash, es);
    TrafficConserved(n, hash, es, id, counter);
  }

  // ---- a bound on the bytes reported ------------------------------------------------------

  /** Whether a session has been reported since its bucket was last flushed. */
  function Open(hash: HashFn, es: seq<StatEvent>, id: bytes): bool {
    if es == [] then false
    else
      match es[|es| - 1]
      case ReportStats(t) => t.id == id || Open(hash, es[..|es| - 1], id)
      case Flush(i, _) => i != Slot(hash, id) && Open(hash, es[..|es| - 1], id)
  }

  /** The bytes of the records that sessions new to bucket i have taken since its last flush. */
  function Spent(hash: HashFn, es: seq<StatEvent>, i: nat): nat {
    if es == [] then 0
    else
      var prior := es[..|es| - 1];
      match es[|es| - 1]
      case ReportStats(t) =>
        Spent(hash, prior, i) +
        if Slot(hash, t.id) == i && !Open(hash, prior, t.id) then RecordSize(t.id, NewValue(t)) else 0
      case Flush(k, _) => if k == i then 0 else Spent(hash, prior, i)
  }

  /** Every value fits, and between two flushes of a bucket the sessions new to it take at most half of its
      n chunks: all of it read off the reports and the flush rounds. */
  ghost predicate Light(n: nat, hash: HashFn, es: seq<StatEvent>) {
    && (forall j :: 0 <= j < |es| && es[j].ReportStats? ==> WriteError(es[j].t.id, NewValue(es[j].t)).Ok?)
    && (forall j, i | 0 <= j <= |es| && 0 <= i < BUCKETS :: 2 * Spent(hash, es[..j], i) <= n * PAGE)
  }

  /** The flush rounds of a run hand out what their buckets show. */
  ghost predicate Faithful(n: nat, hash: HashFn, es: seq<StatEvent>)
    requires 1 <= n <= MAX_GEN + 1
  {
    forall j :: 0 <= j < |es| && es[j].Flush? ==> Share(CacheAfter(n, hash, es[..j]), hash, es[j].i, es[j].items)
  }

  /** The head of each bucket is no further than twice what was spent on it, and what is open is cached. */
  ghost predicate Metered(n: nat, c: Buckets, hash: HashFn, es: seq<StatEvent>) {
    && (forall i :: 0 <= i < BUCKETS ==> MeteredAt(n, c[i], Spent(hash, es, i)))
    && (forall k :: Lookup(c, hash, k).Ok? <==> Open(hash, es, k))
  }

  ghost predicate MeteredAt(n: nat, b: Bucket, spent: nat) {
    |b.ring.chunks| == n && b.ring.idx <= 2 * spent
  }

  lemma OpenNext(hash: HashFn, es: seq<StatEvent>, e: StatEvent, id: bytes)
    ensures Open(hash, es + [e], id) ==
      match e
      case ReportStats(t) => t.id == id || Open(hash, es, id)
      case Flush(i, _) => i != Slot(hash, id) && Open(hash, es, id)
  {
    assert (es + [e])[..|es|] == es;
  }

  lemma SpentNext(hash: HashFn, es: seq<StatEvent>, e: StatEvent, i: nat)
    ensures Spent(hash, es + [e], i) ==
      match e
      case ReportStats(t) =>
        Spent(hash, es, i)
        + (if Slot(hash, t.id) == i && !Open(hash, es, t.id) then RecordSize(t.id, NewValue(t)) else 0)
      case Flush(k, _) => if k == i then 0 else Spent(hash, es, i)
  {
    assert (es + [e])[..|es|] == es;
  }

  /** While the bound holds the next insert does not wrap. */
  lemma RoomLeft(b: Bucket, n: nat, spent: nat, size: nat)
    requires MeteredAt(n, b, spent) && size >= 4 && 2 * (spent + size) <= n * PAGE
    ensures !Wraps(b.ring, size)
  {
    assert b.ring.idx + size < n * PAGE;
  }

  lemma MeteredIsQuiet(n: nat, c: Buckets, hash: HashFn, es: seq<StatEvent>, e: StatEvent)
    requires Metered(n, c, hash, es) && (e.Flush? ==> Share(c, hash, e.i, e.items))
    requires e.ReportStats? ==> WriteError(e.t.id, NewValue(e.t)).Ok?
    requires forall i :: 0 <= i < BUCKETS ==> 2 * Spent(hash, es + [e], i) <= n * PAGE
    ensures QuietAt(c, hash, e)
  {
    if e.ReportStats? && Lookup(c, hash, e.t.id).Err? {
      var i := Slot(hash, e.t.id);
      SpentNext(hash, es, e, i);
      assert !Open(hash, es, e.t.id) && MeteredAt(n, c[i], Spent(hash, es, i));
      RoomLeft(c[i], n, Spent(hash, es, i), RecordSize(e.t.id, NewValue(e.t)));
    }
  }

  lemma ReportStaysMetered(n: nat, c: Buckets, hash: HashFn, es: seq<StatEvent>, t: Traffic)
    requires Ready(c) && Metered(n, c, hash, es) && NonEmpty(c, hash) && KeepsLength(Adder(t.drx, t.dtx))
    requires QuietAt(c, hash, ReportStats(t)) && LossfreeAt(c, hash, ReportStats(t))
    ensures Metered(n, Upserted(c, hash, t.id, NewValue(t), Adder(t.drx, t.dtx), t.page), hash, es + [ReportStats(t)])
  {
    var g, v, e := Adder(t.drx, t.dtx), NewValue(t), ReportStats(t);
    var c' := Upserted(c, hash, t.id, v, g, t.page);
    assert Lookup(c, hash, t.id) != Ok([]);
    HeadAfter(c[Slot(hash, t.id)], hash(t.id), t.id, v, g, t.page);
    forall i | 0 <= i < BUCKETS ensures MeteredAt(n, c'[i], Spent(hash, es + [e], i)) {
      SpentNext(hash, es, e, i);
      assert MeteredAt(n, c[i], Spent(hash, es, i));
    }
    forall k ensures Lookup(c', hash, k).Ok? <==> Open(hash, es + [e], k) {
      LosslessKeeps(c, hash, t.id, v, g, t.page, k);
      OpenNext(hash, es, e, k);
    }
  }

  lemma FlushStaysMetered(n: nat, c: Buckets, hash: HashFn, es: seq<StatEvent>, e: StatEvent)
    requires Metered(n, c, hash, es) && e.Flush?
    ensures Metered(n, Emptying(c, e.i), hash, es + [e])
  {
    var c' := Emptying(c, e.i);
    forall i | 0 <= i < BUCKETS ensures MeteredAt(n, c'[i], Spent(hash, es + [e], i)) {
      SpentNext(hash, es, e, i);
      assert MeteredAt(n, c[i], Spent(hash, es, i));
    }
    forall k ensures Lookup(c', hash, k).Ok? <==> Open(hash, es + [e], k) {
      FlushLookup(c, hash, e.i, k);
      OpenNext(hash, es, e, k);
    }
  }

  lemma Prefixes<T>(es: seq<T>, e: T, j: nat)
    requires j <= |es|
    ensures (es + [e])[..j] == es[..j] && (j < |es| ==> (es + [e])[j] == es[j])
  {
  }

  lemma FaithfulPrior(n: nat, hash: HashFn, es: seq<StatEvent>, e: StatEvent)
    requires 1 <= n <= MAX_GEN + 1 && Faithful(n, hash, es + [e])
    ensures Faithful(n, hash, es) && (e.Flush? ==> Share(CacheAfter(n, hash, es), hash, e.i, e.items))
  {
    var all := es + [e];
    assert all[..|es|] == es && all[|es|] == e;
    forall j | 0 <= j < |es| && es[j].Flush? ensures Share(CacheAfter(n, hash, es[..j]), hash, es[j].i, es[j].items) {
      Prefixes(es, e, j);
      assert all[j].Flush?;
    }
  }

  lemma LightPrior(n: nat, hash: HashFn, es: seq<StatEvent>, e: StatEvent)
    requires 1 <= n <= MAX_GEN + 1 && Light(n, hash, es + [e])
    requires Faithful(n, hash, es + [e]) && NoCollision(hash, es + [e])
    ensures Light(n, hash, es) && Faithful(n, hash, es) && NoCollision(hash, es)
    ensures e.ReportStats? ==> WriteError(e.t.id, NewValue(e.t)).Ok?
    ensures e.Flush? ==> Share(CacheAfter(n, hash, es), hash, e.i, e.items)
    ensures forall i :: 0 <= i < BUCKETS ==> 2 * Spent(hash, es + [e], i) <= n * PAGE
  {
    var all := es + [e];
    FaithfulPrior(n, hash, es, e);
    assert all[|es|] == e && all[..|all|] == all;
    assert forall j :: 0 <= j < |es| ==> all[j] == es[j];
    forall j, i | 0 <= j <= |es| && 0 <= i < BUCKETS ensures 2 * Spent(hash, es[..j], i) <= n * PAGE {
      Prefixes(es, e, j);
    }
  }

  lemma {:induction false} LightIsLossfree(n: nat, hash: HashFn, es: seq<StatEvent>)
    requires 1 <= n <= MAX_GEN + 1 && Light(n, hash, es) && Faithful(n, hash, es) && NoCollision(hash, es)
    ensures Lossfree(n, hash, es) && Tame(CacheAfter(n, hash, es), hash, es)
    ensures Metered(n, CacheAfter(n, hash, es), hash, es)
    decreases |es|
  {
    if es == [] {
      EmptyIsTame(n, hash);
      forall k ensures Lookup(CacheAfter(n, hash, []), hash, k).Err? {
        assert CacheAfter(n, hash, [])[Slot(hash, k)] == Emptied(n);
      }
    } else {
      var prior, e := es[..|es| - 1], es[|es| - 1];
      Snoc(es);
      LightPrior(n, hash, prior, e);
      LightIsLossfree(n, hash, prior);
      LightNext(n, hash, prior, e);
    }
  }

  lemma LightNext(n: nat, hash: HashFn, es: seq<StatEvent>, e: StatEvent)
    requires 1 <= n <= MAX_GEN + 1 && Lossfree(n, hash, es) && NoCollision(hash, es + [e])
    requires Tame(CacheAfter(n, hash, es), hash, es) && Metered(n, CacheAfter(n, hash, es), hash, es)
    requires e.ReportStats? ==> WriteError(e.t.id, NewValue(e.t)).Ok?
    requires e.Flush? ==> Share(CacheAfter(n, hash, es), hash, e.i, e.items)
    requires forall i :: 0 <= i < BUCKETS ==> 2 * Spent(hash, es + [e], i) <= n * PAGE
    ensures Lossfree(n, hash, es + [e]) && Tame(CacheAfter(n, hash, es + [e]), hash, es + [e])
    ensures Metered(n, CacheAfter(n, hash, es + [e]), hash, es + [e])
  {
    var c := CacheAfter(n, hash, es);
    MeteredIsQuiet(n, c, hash, es, e);
    QuietNext(n, hash, es, e);
    assert LossfreeAt(c, hash, e) by {
      assert (es + [e])[..|es|] == es && (es + [e])[|es|] == e;
    }
    NextCache(n, hash, es, e);
    if e.Flush? {
      FlushStaysMetered(n, c, hash, es, e);
    } else {
      LossfreeIsNonEmpty(n, hash, es);
      ReportStaysMetered(n, c, hash, es, e.t);
    }
  }

  /** For every run of reports and flush rounds in any interleaving: if every value fits, no two session ids
      share a hash and between flushes a bucket takes in at most half its size in new sessions, then for each
      session and direction what was flushed plus what is cached is what was reported, modulo 2^64. */
  lemma TrafficConservedWithinSize(n: nat, hash: HashFn, es: seq<StatEvent>, id: bytes, counter: Counter)
    requires 1 <= n <= MAX_GEN + 1 && Light(n, hash, es) && Faithful(n, hash, es) && NoCollision(hash, es)
    ensures var c := CacheAfter(n, hash, es);
            Balanced(TotalFlushed(es, id, counter), StillCached(c, hash, id, counter), TotalReported(es, id, counter))
  {
    LightIsLossfree(n, hash, es);
    TrafficConserved(n, hash, es, id, counter);
  }
}
