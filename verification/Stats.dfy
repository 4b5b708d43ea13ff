/** Traffic counters kept in the cache: the little-endian value layout, in-place addition,
    and the conservation law between reported, cached and flushed traffic. */
module Stats {
  import opened Basics
  import opened CacheBucket
  import opened CacheRuns
  import opened CacheUpsert
  import opened CacheLedger
  import CacheLayout
  import BitWords

  // ---- little-endian fields ----------------------------------------------------

  function Le(x: nat, n: nat): (s: bytes)
    ensures |s| == n
  {
    if n == 0 then [] else [x % 256] + Le(x / 256, n - 1)
  }

  function FromLe(s: bytes): nat {
    if s == [] then 0 else s[0] + 256 * FromLe(s[1..])
  }

  function Bound(n: nat): (b: nat)
    ensures b >= 1
  {
    if n == 0 then 1 else 256 * Bound(n - 1)
  }

  lemma {:induction false} LeRoundTrip(x: nat, n: nat)
    requires x < Bound(n)
    ensures FromLe(Le(x, n)) == x
  {
    if n > 0 {
      LeRoundTrip(x / 256, n - 1);
      assert Le(x, n)[1..] == Le(x / 256, n - 1);
    }
  }

  lemma {:induction false} LeOnto(s: bytes)
    ensures Le(FromLe(s), |s|) == s && FromLe(s) < Bound(|s|)
  {
    if s != [] {
      var x := FromLe(s[1..]);
      LeOnto(s[1..]);
      BitWords.DivModUnique(s[0] + 256 * x, 256, x, s[0]);
      assert s == [s[0]] + s[1..];
    }
  }

  /** The i-th byte of a field is the i-th digit to the base 256, the lowest first. */
  lemma {:induction false} LeDigit(x: nat, n: nat, i: nat)
    requires i < n
    ensures Le(x, n)[i] == (x / Bound(i)) % 256
  {
    if i > 0 {
      LeDigit(x / 256, n - 1, i - 1);
      DivDiv(x, Bound(i - 1));
    }
  }

  lemma DivDiv(x: nat, d: nat)
    requires d >= 1
    ensures x / 256 / d == x / (256 * d)
  {
    var a, r := x / 256, x % 256;
    var q, s := a / d, a % d;
    assert x == (256 * d) * q + (256 * s + r) by {
      assert a == d * q + s && x == 256 * a + r;
      assert 256 * (d * q + s) == (256 * d) * q + 256 * s;
    }
    BitWords.DivModUnique(x, 256 * d, q, 256 * s + r);
  }

  lemma Bounds()
    ensures Bound(2) == 0x1_0000 && Bound(8) == WRAP
  {
    assert Bound(4) == 0x1_0000_0000;
    assert Bound(6) == 0x1_0000 * Bound(4);
    assert Bound(8) == 0x1_0000 * Bound(6);
  }

  /** Reading back two equal-width fields at the front of a buffer. */
  lemma TwoFields(x: nat, y: nat, n: nat, rest: bytes)
    requires x < Bound(n) && y < Bound(n)
    ensures var s := Le(x, n) + Le(y, n) + rest;
            FromLe(s[..n]) == x && FromLe(s[n..2 * n]) == y && s[2 * n..] == rest
  {
    var s := Le(x, n) + Le(y, n) + rest;
    LeRoundTrip(x, n);
    LeRoundTrip(y, n);
    assert s[..n] == Le(x, n) && s[n..2 * n] == Le(y, n);
  }

  // ---- a session value: rx, tx, start time, data length, data -------------------

  function Rx(v: bytes): nat
    requires |v| >= 16
  {
    FromLe(v[..8])
  }

  function Tx(v: bytes): nat
    requires |v| >= 16
  {
    FromLe(v[8..16])
  }

  /** What the parser makes of a buffer too short for two counters. */
  function RxOf(v: bytes): nat {
    if |v| < 16 then 0 else Rx(v)
  }

  function TxOf(v: bytes): nat {
    if |v| < 16 then 0 else Tx(v)
  }

  function Value(rx: nat, tx: nat, now: nat, data: bytes): (v: bytes)
    ensures |v| == 26 + |data|
  {
    Le(rx, 8) + Le(tx, 8) + Le(now, 8) + Le(|data| % 0x1_0000, 2) + data
  }

  datatype Report = Report(rx: nat, tx: nat, created: nat, elapsed: nat, data: bytes)

  function Parse(v: bytes, now: nat): Result<Report> {
    if |v| < 26 then Err(Panic)
    else
      var created, n := FromLe(v[16..24]), FromLe(v[24..26]);
      if 26 + n > |v| then Err(Panic)
      else Ok(Report(Rx(v), Tx(v), created, (now - created) % WRAP, v[26..26 + n]))
  }

  /** What is flushed for a stored value is what was stored, with the time since its creation. */
  lemma ParseValue(rx: nat, tx: nat, created: nat, data: bytes, now: nat)
    requires rx < WRAP && tx < WRAP && created < WRAP && |data| < 0x1_0000
    ensures Parse(Value(rx, tx, created, data), now) == Ok(Report(rx, tx, created, (now - created) % WRAP, data))
  {
    var v := Value(rx, tx, created, data);
    Bounds();
    var tail := Le(created, 8) + Le(|data|, 2) + data;
    assert v == Le(rx, 8) + Le(tx, 8) + tail;
    TwoFields(rx, tx, 8, tail);
    TailFields(created, data, tail);
    assert v[16..] == tail;
    assert v[16..24] == tail[..8] && v[24..26] == tail[8..10] && v[26..26 + |data|] == tail[10..];
  }

  lemma TailFields(created: nat, data: bytes, tail: bytes)
    requires created < WRAP && |data| < 0x1_0000 && tail == Le(created, 8) + Le(|data|, 2) + data
    ensures FromLe(tail[..8]) == created && FromLe(tail[8..10]) == |data| && tail[10..] == data
  {
    Bounds();
    LeRoundTrip(created, 8);
    LeRoundTrip(|data|, 2);
    assert tail[..8] == Le(created, 8) && tail[8..10] == Le(|data|, 2);
  }

  /** Two counters and what follows them. */
  function Counters(rx: nat, tx: nat, rest: bytes): (v: bytes)
    ensures |v| == 16 + |rest|
  {
    Le(rx, 8) + Le(tx, 8) + rest
  }

  lemma CountersReadBack(rx: nat, tx: nat, rest: bytes)
    requires rx < WRAP && tx < WRAP
    ensures var v := Counters(rx, tx, rest); Rx(v) == rx && Tx(v) == tx && v[16..] == rest
  {
    Bounds();
    TwoFields(rx, tx, 8, rest);
  }

  /** An empty buffer is replaced by a fresh one; one too short for two counters is refused by the code. */
  function AddRxTx(drx: nat, dtx: nat, v: bytes): (v': bytes)
    requires |v| == 0 || |v| >= 16 || (drx == 0 && dtx == 0)
    ensures |v| >= 16 ==> |v'| == |v|
  {
    if drx == 0 && dtx == 0 then v
    else Counters(AddWrap(RxOf(v), drx), AddWrap(TxOf(v), dtx), if v == [] then [] else v[16..])
  }

  lemma CountersBounded(v: bytes)
    requires |v| >= 16
    ensures Rx(v) < WRAP && Tx(v) < WRAP
  {
    Bounds();
    LeOnto(v[..8]);
    LeOnto(v[8..16]);
  }

  /** Addition is modulo 2^64 in each counter and leaves the rest of the value alone. */
  lemma AddCounts(drx: nat, dtx: nat, v: bytes)
    requires |v| == 0 || |v| >= 16 || (drx == 0 && dtx == 0)
    ensures var v' := AddRxTx(drx, dtx, v);
            && RxOf(v') == AddWrap(RxOf(v), drx) && TxOf(v') == AddWrap(TxOf(v), dtx)
            && (|v| >= 16 ==> v'[16..] == v[16..])
  {
    if drx == 0 && dtx == 0 {
      AddNothing(v);
    } else {
      CountersReadBack(AddWrap(RxOf(v), drx), AddWrap(TxOf(v), dtx), if v == [] then [] else v[16..]);
    }
  }

  lemma AddNothing(v: bytes)
    ensures AddWrap(RxOf(v), 0) == RxOf(v) && AddWrap(TxOf(v), 0) == TxOf(v)
  {
    if |v| >= 16 { CountersBounded(v); }
  }

  // ---- the buffers ---------------------------------------------------------------

  lemma LeadingByte(whole: bytes, done: bytes, rest: nat, n: nat)
    requires n > 0 && whole == done + Le(rest, n)
    ensures whole == done + [rest % 256] + Le(rest / 256, n - 1)
  {
    assert Le(rest, n) == [rest % 256] + Le(rest / 256, n - 1);
  }

  /** Writes a field of n bytes into the rest of a buffer, and nothing if that is too short. */
  method Put(d: array<byte>, at: nat, x: nat, n: nat)
    requires at <= d.Length
    modifies d
    ensures at + n > d.Length ==> d[..] == old(d[..])
    ensures at + n <= d.Length ==> d[..at + n] == old(d[..at]) + Le(x, n) && d[at + n..] == old(d[at + n..])
  {
    if at + n > d.Length { return; }
    var j, rest := 0, x;
    while j < n
      invariant j <= n
      invariant Le(x, n) == d[at..at + j] + Le(rest, n - j)
      invariant d[..at] == old(d[..at]) && d[at + n..] == old(d[at + n..])
    {
      ghost var done := d[at..at + j];
      LeadingByte(Le(x, n), done, rest, n - j);
      d[at + j] := rest % 256;
      assert d[at..at + j + 1] == done + [rest % 256];
      j, rest := j + 1, rest / 256;
    }
    assert d[..at + n] == d[..at] + d[at..at + n];
  }

  /** Reads a field of n bytes out of the rest of a buffer, 0 if that is too short. */
  method Take(d: array<byte>, at: nat, n: nat) returns (x: nat)
    requires at <= d.Length
    ensures x == if at + n <= d.Length then FromLe(d[at..at + n]) else 0
  {
    x := 0;
    if at + n > d.Length { return; }
    var j := n;
    while j > 0
      invariant 0 <= j <= n && x == FromLe(d[at + j..at + n])
    {
      j := j - 1;
      assert d[at + j..at + n][1..] == d[at + j + 1..at + n];
      x := d[at + j] as int + 256 * x;
    }
  }

  /** Both counters at the front of a buffer. */
  method FillCounters(d: array<byte>, rx: nat, tx: nat)
    requires d.Length >= 16
    modifies d
    ensures d[..16] == Le(rx, 8) + Le(tx, 8) && d[16..] == old(d[16..])
  {
    Put(d, 0, rx, 8);
    assert d[..8] == Le(rx, 8);
    assert d[16..] == d[8..][8..] && old(d[16..]) == old(d[8..])[8..];
    Put(d, 8, tx, 8);
  }

  /** The same, into a new buffer if there is none. */
  method PutCounters(d: array<byte>, rx: nat, tx: nat) returns (r: array<byte>)
    requires d.Length == 0 || d.Length >= 16
    modifies d
    ensures r[..] == Le(rx, 8) + Le(tx, 8) + (if d.Length == 0 then [] else old(d[16..]))
    ensures r == d || (d.Length == 0 && fresh(r))
  {
    r := d;
    if d.Length == 0 {
      r := new byte[16];
    }
    FillCounters(r, rx, tx);
    assert r[..] == r[..16] + r[16..];
  }

  method TakeCounters(d: array<byte>) returns (rx: nat, tx: nat)
    ensures rx == RxOf(d[..]) && tx == TxOf(d[..])
  {
    if d.Length < 16 { return 0, 0; }
    rx := Take(d, 0, 8);
    tx := Take(d, 8, 8);
    assert d[0..8] == d[..][..8] && d[8..16] == d[..][8..16];
  }

  method AddInPlace(drx: nat, dtx: nat, d: array<byte>) returns (r: array<byte>)
    requires d.Length == 0 || d.Length >= 16 || (drx == 0 && dtx == 0)
    modifies d
    ensures r[..] == AddRxTx(drx, dtx, old(d[..])) && (r == d || (d.Length == 0 && fresh(r)))
  {
    r := d;
    if drx == 0 && dtx == 0 { return; }
    ghost var v := d[..];
    var rx, tx := TakeCounters(d);
    r := PutCounters(d, AddWrap(rx, drx), AddWrap(tx, dtx));
    assert d.Length > 0 ==> old(d[16..]) == v[16..];
  }

  method ToValue(drx: nat, dtx: nat, now: nat, data: bytes) returns (d: array<byte>)
    ensures fresh(d) && d[..] == Value(drx, dtx, now, data)
    ensures d[..] == Le(drx, 8) + Le(dtx, 8) + Le(now, 8) + Le(|data| % 65536, 2) + data
  {
    d := new byte[26 + |data|];
    FillCounters(d, drx, dtx);
    Put(d, 16, now, 8);
    Put(d, 24, |data| % 0x1_0000, 2);
    CopyTail(d, 26, data);
    assert d[..] == d[..26] + d[26..];
  }

  /** Copies into the rest of a buffer. */
  method CopyTail(d: array<byte>, at: nat, s: bytes)
    requires at + |s| == d.Length
    modifies d
    ensures d[..at] == old(d[..at]) && d[at..] == s
  {
    forall j | 0 <= j < |s| { d[at + j] := s[j]; }
    assert forall j :: 0 <= j < at ==> d[j] == old(d[j]);
    assert forall j :: 0 <= j < |s| ==> d[at..][j] == d[at + j];
  }

  // ---- reports against the cache ---------------------------------------------------

  /** What ReportStats does to a cached value; shorter values never occur in this cache. */
  function Adder(drx: nat, dtx: nat): bytes -> bytes {
    (v: bytes) => if |v| < 26 then v else AddRxTx(drx, dtx, v)
  }

  datatype Traffic = Traffic(id: bytes, drx: nat, dtx: nat, now: nat, data: bytes, page: Page)

  function NewValue(t: Traffic): bytes {
    Value(t.drx % WRAP, t.dtx % WRAP, t.now % WRAP, t.data)
  }

  datatype Counter = RxCounter | TxCounter

  function Count(v: bytes, counter: Counter): nat {
    if |v| < 26 then 0 else if counter.RxCounter? then Rx(v) else Tx(v)
  }

  function Delta(t: Traffic, counter: Counter): nat {
    if counter.RxCounter? then t.drx else t.dtx
  }

  lemma NewValueCounts(t: Traffic, counter: Counter)
    ensures |NewValue(t)| >= 26 && Count(NewValue(t), counter) == Delta(t, counter) % WRAP
  {
    Bounds();
    var rx, tx := t.drx % WRAP, t.dtx % WRAP;
    var tail := Le(t.now % WRAP, 8) + Le(|t.data| % 0x1_0000, 2) + t.data;
    TwoFields(rx, tx, 8, tail);
    assert NewValue(t) == Le(rx, 8) + Le(tx, 8) + tail;
  }

  lemma AdderCounts(t: Traffic, v: bytes, counter: Counter)
    requires |v| >= 26
    ensures Count(Adder(t.drx, t.dtx)(v), counter) == AddWrap(Count(v, counter), Delta(t, counter))
  {
    AddCounts(t.drx, t.dtx, v);
  }

  lemma AdderKeepsLength(drx: nat, dtx: nat)
    ensures KeepsLength(Adder(drx, dtx))
  {
  }

  // ---- conservation of traffic -------------------------------------------------------

  function Layout(counter: Counter): Format {
    Format((v: bytes) => Count(v, counter), (v: bytes) => |v| >= 26)
  }

  function PostOf(t: Traffic, counter: Counter): Post {
    Post(t.id, NewValue(t), Adder(t.drx, t.dtx), Delta(t, counter), t.page)
  }

  /** ReportStats is a fair posting to each of the two counters. */
  lemma ReportIsFair(t: Traffic, counter: Counter)
    ensures Fair(Layout(counter), PostOf(t, counter))
  {
    var fmt, p := Layout(counter), PostOf(t, counter);
    AdderKeepsLength(t.drx, t.dtx);
    NewValueCounts(t, counter);
    forall x | fmt.ok(x) ensures fmt.ok(p.g(x)) && fmt.count(p.g(x)) == AddWrap(fmt.count(x), p.delta) {
      AdderFits(t, x, counter);
    }
  }

  lemma AdderFits(t: Traffic, x: bytes, counter: Counter)
    requires Layout(counter).ok(x)
    ensures var fmt, p := Layout(counter), PostOf(t, counter);
            fmt.ok(p.g(x)) && fmt.count(p.g(x)) == AddWrap(fmt.count(x), p.delta)
  {
    AdderCounts(t, x, counter);
  }

  /** A report, or the round of a flush that comes to one bucket and hands out its items. */
  datatype StatEvent = ReportStats(t: Traffic) | Flush(i: Index, items: seq<Item>)

  function ActionOf(e: StatEvent, counter: Counter): Action {
    if e.ReportStats? then Charge(PostOf(e.t, counter)) else Action.Flush(e.i, e.items)
  }

  function Actions(es: seq<StatEvent>, counter: Counter): (acts: seq<Action>)
    ensures |acts| == |es|
  {
    seq(|es|, j requires 0 <= j < |es| => ActionOf(es[j], counter))
  }

  lemma ActionsPosts(es: seq<StatEvent>, counter: Counter)
    ensures Posts(Layout(counter), Actions(es, counter))
  {
    forall j | 0 <= j < |es| ensures CacheLedger.WellFormed(Layout(counter), Actions(es, counter)[j]) {
      if es[j].ReportStats? { ReportIsFair(es[j].t, counter); }
    }
  }

  /** The cache after reports and flush rounds in any interleaving. */
  ghost function CacheAfter(n: nat, hash: HashFn, es: seq<StatEvent>): (c: Buckets)
    requires 1 <= n <= MAX_GEN + 1
    ensures Ready(c)
  {
    ActionsPosts(es, RxCounter);
    State(n, hash, Layout(RxCounter), Actions(es, RxCounter))
  }

  /** It does not matter which of the two counters one follows. */
  lemma CacheAfterIs(n: nat, hash: HashFn, es: seq<StatEvent>, counter: Counter)
    requires 1 <= n <= MAX_GEN + 1
    ensures Posts(Layout(counter), Actions(es, counter))
    ensures CacheAfter(n, hash, es) == State(n, hash, Layout(counter), Actions(es, counter))
  {
    ActionsPosts(es, counter);
    assert Calls(Actions(es, counter)) == Calls(Actions(es, RxCounter));
  }

  /** A report meets the lossless guard when made; a flush round hands out what its bucket shows. */
  ghost predicate LossfreeAt(c: Buckets, hash: HashFn, e: StatEvent) {
    if e.ReportStats? then Lossless(c, hash, e.t.id, NewValue(e.t)) else Share(c, hash, e.i, e.items)
  }

  ghost predicate Lossfree(n: nat, hash: HashFn, es: seq<StatEvent>)
    requires 1 <= n <= MAX_GEN + 1
  {
    forall j :: 0 <= j < |es| ==> LossfreeAt(CacheAfter(n, hash, es[..j]), hash, es[j])
  }

  lemma LossfreeIsLegal(n: nat, hash: HashFn, es: seq<StatEvent>, counter: Counter)
    requires 1 <= n <= MAX_GEN + 1 && Lossfree(n, hash, es)
    ensures Legal(n, hash, Layout(counter), Actions(es, counter))
  {
    var fmt, acts := Layout(counter), Actions(es, counter);
    ActionsPosts(es, counter);
    forall j | 0 <= j < |acts| ensures Posts(fmt, acts[..j]) && LegalAt(State(n, hash, fmt, acts[..j]), hash, acts[j]) {
      assert acts[..j] == Actions(es[..j], counter);
      CacheAfterIs(n, hash, es[..j], counter);
      assert LossfreeAt(CacheAfter(n, hash, es[..j]), hash, es[j]);
    }
  }

  function TotalReported(es: seq<StatEvent>, id: bytes, counter: Counter): nat {
    if es == [] then 0
    else
      var e := es[|es| - 1];
      TotalReported(es[..|es| - 1], id, counter) + (if e.ReportStats? && e.t.id == id then Delta(e.t, counter) else 0)
  }

  function FlushedFor(items: seq<Item>, id: bytes, counter: Counter): nat {
    if items == [] then 0
    else (if items[0].0 == id then Count(items[0].1, counter) else 0) + FlushedFor(items[1..], id, counter)
  }

  function TotalFlushed(es: seq<StatEvent>, id: bytes, counter: Counter): nat {
    if es == [] then 0
    else
      var e := es[|es| - 1];
      TotalFlushed(es[..|es| - 1], id, counter) + (if e.Flush? then FlushedFor(e.items, id, counter) else 0)
  }

  lemma {:induction false} FlushedForIsSum(items: seq<Item>, id: bytes, counter: Counter)
    ensures FlushedFor(items, id, counter) == SumFor(Layout(counter), items, id)
  {
    if items != [] { FlushedForIsSum(items[1..], id, counter); }
  }

  lemma {:induction false} TotalsMatch(es: seq<StatEvent>, id: bytes, counter: Counter)
    ensures TotalReported(es, id, counter) == Posted(Actions(es, counter), id)
    ensures TotalFlushed(es, id, counter) == Flushed(Layout(counter), Actions(es, counter), id)
  {
    if es != [] {
      var prior, e := es[..|es| - 1], es[|es| - 1];
      TotalsMatch(prior, id, counter);
      assert Actions(es, counter)[..|es| - 1] == Actions(prior, counter);
      if e.Flush? { FlushedForIsSum(e.items, id, counter); }
    }
  }

  ghost function StillCached(c: Buckets, hash: HashFn, id: bytes, counter: Counter): nat {
    if Lookup(c, hash, id).Ok? then Count(Lookup(c, hash, id).value, counter) else 0
  }

  lemma StillCachedIsCached(c: Buckets, hash: HashFn, id: bytes, counter: Counter)
    ensures StillCached(c, hash, id, counter) == Cached(ViewOf(c, hash), Layout(counter), id)
  {
    assert ViewOf(c, hash)(id) == Lookup(c, hash, id);
  }

  /** For each session and each counter: flushed plus cached equals reported, modulo 2^64, with reports
      coming at any moment, also between the rounds of a flush. */
  lemma TrafficConserved(n: nat, hash: HashFn, es: seq<StatEvent>, id: bytes, counter: Counter)
    requires 1 <= n <= MAX_GEN + 1 && Lossfree(n, hash, es)
    ensures var c := CacheAfter(n, hash, es);
            Balanced(TotalFlushed(es, id, counter), StillCached(c, hash, id, counter), TotalReported(es, id, counter))
  {
    LossfreeIsLegal(n, hash, es, counter);
    CacheAfterIs(n, hash, es, counter);
    Conservation(n, hash, Layout(counter), Actions(es, counter), id);
    TotalsMatch(es, id, counter);
    StillCachedIsCached(CacheAfter(n, hash, es), hash, id, counter);
  }
}
