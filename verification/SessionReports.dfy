/** What a flush tells about each session: its data and creation time, and its traffic since it was opened. */
module SessionReports {
  import opened Basics
  import opened CacheBucket
  import opened CacheRuns
  import opened CacheUpsert
  import opened CacheLedger
  import opened Stats
  import opened TrafficRuns

  /** The first report of a session since its bucket was last flushed. */
  function Opener(hash: HashFn, es: seq<StatEvent>, id: bytes): Option<Traffic> {
    if es == [] then None
    else
      var prior, e := Opener(hash, es[..|es| - 1], id), es[|es| - 1];
      if e.Flush? then if e.i == Slot(hash, id) then None else prior
      else if e.t.id == id && prior.None? then Some(e.t) else prior
  }

  /** What was reported of a session since then. */
  function Since(hash: HashFn, es: seq<StatEvent>, id: bytes, counter: Counter): nat {
    if es == [] then 0
    else
      var prior, e := Since(hash, es[..|es| - 1], id, counter), es[|es| - 1];
      if e.Flush? then if e.i == Slot(hash, id) then 0 else prior
      else prior + if e.t.id != id then 0 else if counter.RxCounter? then e.t.drx else e.t.dtx
  }

  lemma OpenerNext(hash: HashFn, es: seq<StatEvent>, e: StatEvent, id: bytes)
    ensures Opener(hash, es + [e], id) ==
            var o := Opener(hash, es, id);
            if e.Flush? then if e.i == Slot(hash, id) then None else o
            else if e.t.id == id && o.None? then Some(e.t) else o
  {
    assert (es + [e])[..|es|] == es;
  }

  lemma SinceNext(hash: HashFn, es: seq<StatEvent>, e: StatEvent, id: bytes, counter: Counter)
    ensures Since(hash, es + [e], id, counter) ==
            var sum := Since(hash, es, id, counter);
            if e.Flush? then if e.i == Slot(hash, id) then 0 else sum
            else sum + if e.t.id != id then 0 else if counter.RxCounter? then e.t.drx else e.t.dtx
  {
    assert (es + [e])[..|es|] == es;
  }

  /** Nothing is counted for a session that is not open. */
  lemma {:induction false} ClosedCountsNothing(hash: HashFn, es: seq<StatEvent>, id: bytes, counter: Counter)
    requires Opener(hash, es, id).None?
    ensures Since(hash, es, id, counter) == 0
  {
    if es != [] && !(es[|es| - 1].Flush? && es[|es| - 1].i == Slot(hash, id)) {
      ClosedCountsNothing(hash, es[..|es| - 1], id, counter);
    }
  }

  // ---- the cached value ------------------------------------------------------------------

  /** What the cache should hold for a session: the data and time of its opening, the sums since. */
  ghost function Held(hash: HashFn, es: seq<StatEvent>, id: bytes): Result<bytes> {
    var o := Opener(hash, es, id);
    if o.None? then Err(NoData)
    else
      Ok(Value(Since(hash, es, id, RxCounter) % WRAP, Since(hash, es, id, TxCounter) % WRAP,
               o.value.now % WRAP, o.value.data))
  }

  ghost predicate Holds(c: Buckets, hash: HashFn, es: seq<StatEvent>, id: bytes) {
    && Lookup(c, hash, id) == Held(hash, es, id)
    && (Opener(hash, es, id).Some? ==> 26 + |Opener(hash, es, id).value.data| < 0x1_0000)
  }

  lemma ValueParts(rx: nat, tx: nat, now: nat, data: bytes, rest: bytes)
    requires rest == Le(now, 8) + Le(|data| % 0x1_0000, 2) + data
    ensures Value(rx, tx, now, data) == Counters(rx, tx, rest)
  {
    var head := Le(rx, 8) + Le(tx, 8);
    assert head + Le(now, 8) + Le(|data| % 0x1_0000, 2) + data == head + rest;
  }

  lemma AddedCounters(rx: nat, tx: nat, rest: bytes, drx: nat, dtx: nat)
    requires rx < WRAP && tx < WRAP
    ensures AddRxTx(drx, dtx, Counters(rx, tx, rest)) == Counters(AddWrap(rx, drx), AddWrap(tx, dtx), rest)
  {
    var v := Counters(rx, tx, rest);
    CountersReadBack(rx, tx, rest);
    assert v != [] && RxOf(v) == rx && TxOf(v) == tx && v[16..] == rest;
    if drx == 0 && dtx == 0 { assert AddWrap(rx, 0) == rx && AddWrap(tx, 0) == tx; }
  }

  lemma AddedValue(rx: nat, tx: nat, now: nat, data: bytes, drx: nat, dtx: nat)
    requires rx < WRAP && tx < WRAP
    ensures AddRxTx(drx, dtx, Value(rx, tx, now, data)) == Value(AddWrap(rx, drx), AddWrap(tx, dtx), now, data)
  {
    var rest := Le(now, 8) + Le(|data| % 0x1_0000, 2) + data;
    ValueParts(rx, tx, now, data, rest);
    AddedCounters(rx, tx, rest, drx, dtx);
    ValueParts(AddWrap(rx, drx), AddWrap(tx, dtx), now, data, rest);
  }

  lemma SumWraps(x: nat, y: nat)
    ensures AddWrap(x % WRAP, y) == (x + y) % WRAP
  {
    WrapTwice(x / WRAP, x % WRAP, y, x);
  }

  lemma WrapTwice(q: nat, r: nat, y: nat, x: nat)
    requires x == WRAP * q + r
    ensures (r + y) % WRAP == (x + y) % WRAP
  {
    assert x + y == WRAP * q + (r + y);
  }

  lemma OpensWith(c: Buckets, hash: HashFn, es: seq<StatEvent>, t: Traffic)
    requires Opener(hash, es, t.id).None? && WriteError(t.id, NewValue(t)).Ok?
    ensures Held(hash, es + [ReportStats(t)], t.id) == Ok(NewValue(t)) && 26 + |t.data| < 0x1_0000
  {
    OpenerNext(hash, es, ReportStats(t), t.id);
    SinceNext(hash, es, ReportStats(t), t.id, RxCounter);
    SinceNext(hash, es, ReportStats(t), t.id, TxCounter);
    ClosedCountsNothing(hash, es, t.id, RxCounter);
    ClosedCountsNothing(hash, es, t.id, TxCounter);
  }

  lemma HeldIs(hash: HashFn, es: seq<StatEvent>, id: bytes, o: Traffic, rx: nat, tx: nat)
    requires Opener(hash, es, id) == Some(o)
    requires Since(hash, es, id, RxCounter) == rx && Since(hash, es, id, TxCounter) == tx
    ensures Held(hash, es, id) == Ok(Value(rx % WRAP, tx % WRAP, o.now % WRAP, o.data))
  {
  }

  lemma AddsOnto(hash: HashFn, es: seq<StatEvent>, t: Traffic, es': seq<StatEvent>, v: bytes)
    requires es' == es + [ReportStats(t)] && Held(hash, es, t.id) == Ok(v)
    ensures Held(hash, es', t.id) == Ok(Adder(t.drx, t.dtx)(v)) && Opener(hash, es', t.id) == Opener(hash, es, t.id)
  {
    var o, rx, tx := Opener(hash, es, t.id).value, Since(hash, es, t.id, RxCounter), Since(hash, es, t.id, TxCounter);
    SumsNext(hash, es, t);
    HeldIs(hash, es, t.id, o, rx, tx);
    HeldIs(hash, es', t.id, o, rx + t.drx, tx + t.dtx);
    AdderOnValue(rx, tx, o.now % WRAP, o.data, t.drx, t.dtx);
  }

  lemma SumsNext(hash: HashFn, es: seq<StatEvent>, t: Traffic)
    requires Opener(hash, es, t.id).Some?
    ensures var es' := es + [ReportStats(t)];
            && Opener(hash, es', t.id) == Opener(hash, es, t.id)
            && Since(hash, es', t.id, RxCounter) == Since(hash, es, t.id, RxCounter) + t.drx
            && Since(hash, es', t.id, TxCounter) == Since(hash, es, t.id, TxCounter) + t.dtx
  {
    OpenerNext(hash, es, ReportStats(t), t.id);
    SinceNext(hash, es, ReportStats(t), t.id, RxCounter);
    SinceNext(hash, es, ReportStats(t), t.id, TxCounter);
  }

  lemma AdderOnValue(rx: nat, tx: nat, now: nat, data: bytes, drx: nat, dtx: nat)
    ensures Adder(drx, dtx)(Value(rx % WRAP, tx % WRAP, now, data)) ==
            Value((rx + drx) % WRAP, (tx + dtx) % WRAP, now, data)
  {
    AddedValue(rx % WRAP, tx % WRAP, now, data, drx, dtx);
    SumWraps(rx, drx);
    SumWraps(tx, dtx);
  }

  lemma OthersHeld(c: Buckets, c': Buckets, hash: HashFn, es: seq<StatEvent>, t: Traffic, id: bytes)
    requires id != t.id && Holds(c, hash, es, id) && Lookup(c', hash, id) == Lookup(c, hash, id)
    ensures Holds(c', hash, es + [ReportStats(t)], id)
  {
    OpenerNext(hash, es, ReportStats(t), id);
    SinceNext(hash, es, ReportStats(t), id, RxCounter);
    SinceNext(hash, es, ReportStats(t), id, TxCounter);
  }

  lemma ReportHolds(c: Buckets, hash: HashFn, es: seq<StatEvent>, t: Traffic, id: bytes)
    requires Ready(c) && NonEmpty(c, hash) && KeepsLength(Adder(t.drx, t.dtx))
    requires LossfreeAt(c, hash, ReportStats(t)) && Holds(c, hash, es, id) && Holds(c, hash, es, t.id)
    ensures Holds(Upserted(c, hash, t.id, NewValue(t), Adder(t.drx, t.dtx), t.page), hash, es + [ReportStats(t)], id)
  {
    var g, v := Adder(t.drx, t.dtx), NewValue(t);
    var c' := Upserted(c, hash, t.id, v, g, t.page);
    UpsertLookup(c, hash, t.id, v, g, t.page, id);
    if id != t.id {
      LosslessKeeps(c, hash, t.id, v, g, t.page, id);
      OthersHeld(c, c', hash, es, t, id);
    } else if Opener(hash, es, id).Some? {
      AddsOnto(hash, es, t, es + [ReportStats(t)], Held(hash, es, id).value);
    } else {
      OpensWith(c, hash, es, t);
      OpenerNext(hash, es, ReportStats(t), id);
    }
  }

  lemma FlushHolds(c: Buckets, hash: HashFn, es: seq<StatEvent>, e: StatEvent, id: bytes)
    requires e.Flush? && Holds(c, hash, es, id)
    ensures Holds(Emptying(c, e.i), hash, es + [e], id)
  {
    FlushLookup(c, hash, e.i, id);
    OpenerNext(hash, es, e, id);
    SinceNext(hash, es, e, id, RxCounter);
    SinceNext(hash, es, e, id, TxCounter);
  }

  lemma LossfreePrior(n: nat, hash: HashFn, es: seq<StatEvent>, e: StatEvent)
    requires 1 <= n <= MAX_GEN + 1 && Lossfree(n, hash, es + [e])
    ensures Lossfree(n, hash, es) && LossfreeAt(CacheAfter(n, hash, es), hash, e)
  {
    var all := es + [e];
    assert all[..|es|] == es && all[|es|] == e;
    forall j | 0 <= j < |es| ensures LossfreeAt(CacheAfter(n, hash, es[..j]), hash, es[j]) {
      Prefixes(es, e, j);
      assert LossfreeAt(CacheAfter(n, hash, all[..j]), hash, all[j]);
    }
  }

  /** Over every run that loses nothing, the cache holds for each session exactly that. */
  lemma {:induction false} SessionHeld(n: nat, hash: HashFn, es: seq<StatEvent>, id: bytes)
    requires 1 <= n <= MAX_GEN + 1 && Lossfree(n, hash, es)
    ensures Holds(CacheAfter(n, hash, es), hash, es, id)
    decreases |es|
  {
    if es == [] {
      EmptyIsTame(n, hash);
    } else {
      var prior, e := es[..|es| - 1], es[|es| - 1];
      Snoc(es);
      LossfreePrior(n, hash, prior, e);
      SessionHeld(n, hash, prior, id);
      NextCache(n, hash, prior, e);
      if e.Flush? {
        FlushHolds(CacheAfter(n, hash, prior), hash, prior, e, id);
      } else {
        SessionHeld(n, hash, prior, e.t.id);
        LossfreeIsNonEmpty(n, hash, prior);
        ReportHolds(CacheAfter(n, hash, prior), hash, prior, e.t, id);
      }
    }
  }

  // ---- what is flushed ---------------------------------------------------------------------

  /** A flushed value tells the data and the time of the report that opened the session, the time since, and
      the sums of what was reported since, modulo 2^64. */
  ghost predicate Tells(hash: HashFn, es: seq<StatEvent>, id: bytes, v: bytes, now: nat) {
    var o := Opener(hash, es, id);
    && o.Some?
    && Parse(v, now) ==
       Ok(Report(Since(hash, es, id, RxCounter) % WRAP, Since(hash, es, id, TxCounter) % WRAP,
                 o.value.now % WRAP, (now - o.value.now % WRAP) % WRAP, o.value.data))
  }

  lemma HeldTells(c: Buckets, hash: HashFn, es: seq<StatEvent>, id: bytes, v: bytes, now: nat)
    requires Holds(c, hash, es, id) && Lookup(c, hash, id) == Ok(v)
    ensures Tells(hash, es, id, v, now)
  {
    var o := Opener(hash, es, id).value;
    ParseValue(Since(hash, es, id, RxCounter) % WRAP, Since(hash, es, id, TxCounter) % WRAP, o.now % WRAP, o.data, now);
  }

  lemma ShareTells(c: Buckets, hash: HashFn, es: seq<StatEvent>, i: nat, items: seq<Item>, id: bytes, now: nat)
    requires Holds(c, hash, es, id) && Share(c, hash, i, items)
    ensures (exists a :: 0 <= a < |items| && items[a].0 == id) <==>
            Slot(hash, id) == i && Opener(hash, es, id).Some?
    ensures forall a :: 0 <= a < |items| && items[a].0 == id ==> Tells(hash, es, id, items[a].1, now)
  {
    forall a | 0 <= a < |items| && items[a].0 == id ensures Tells(hash, es, id, items[a].1, now) {
      HeldTells(c, hash, es, id, items[a].1, now);
    }
  }

  /** Over every run that loses nothing: the round of a flush in a bucket reports exactly the sessions of that
      bucket opened since its last round, each once, and tells of each what it should. */
  lemma FlushReports(n: nat, hash: HashFn, es: seq<StatEvent>, j: nat, id: bytes, now: nat)
    requires 1 <= n <= MAX_GEN + 1 && Lossfree(n, hash, es) && j < |es| && es[j].Flush?
    ensures (exists a :: 0 <= a < |es[j].items| && es[j].items[a].0 == id) <==>
            Slot(hash, id) == es[j].i && Opener(hash, es[..j], id).Some?
    ensures forall a, b :: 0 <= a < b < |es[j].items| ==> es[j].items[a].0 != es[j].items[b].0
    ensures forall a :: 0 <= a < |es[j].items| && es[j].items[a].0 == id ==>
              Tells(hash, es[..j], id, es[j].items[a].1, now)
  {
    LossfreeTo(n, hash, es, j);
    SessionHeld(n, hash, es[..j], id);
    ShareTells(CacheAfter(n, hash, es[..j]), hash, es[..j], es[j].i, es[j].items, id, now);
  }

  lemma LossfreeTo(n: nat, hash: HashFn, es: seq<StatEvent>, j: nat)
    requires 1 <= n <= MAX_GEN + 1 && Lossfree(n, hash, es) && j < |es|
    ensures Lossfree(n, hash, es[..j]) && LossfreeAt(CacheAfter(n, hash, es[..j]), hash, es[j])
  {
    forall i | 0 <= i < j ensures LossfreeAt(CacheAfter(n, hash, es[..j][..i]), hash, es[..j][i]) {
      assert es[..j][..i] == es[..i] && es[..j][i] == es[i];
    }
  }
}
