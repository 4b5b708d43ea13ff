/** Counters kept in cached values: what is posted is what is flushed plus what is still cached,
    over every run whose posts cost no other key its value. The value format stays abstract. */
module CacheLedger {
  import opened Basics
  import opened CacheBucket
  import opened CacheRuns
  import opened CacheUpsert
  import CacheLayout

  const WRAP: nat := 0x1_0000_0000_0000_0000   // uint64 counters

  /** uint64 addition. */
  function AddWrap(x: nat, y: nat): nat {
    (x + y) % WRAP
  }

  /** A posting to the counter of `id`: v is stored on a miss, g is applied in place on a hit. */
  datatype Post = Post(id: bytes, v: bytes, g: bytes -> bytes, delta: nat, page: Page)

  /** How a value carries a counter, and which values are well formed. */
  datatype Format = Format(count: bytes -> nat, ok: bytes -> bool)

  ghost predicate Sound(fmt: Format) {
    !fmt.ok([])
  }

  ghost predicate Fair(fmt: Format, p: Post) {
    && KeepsLength(p.g)
    && fmt.ok(p.v) && fmt.count(p.v) == AddWrap(0, p.delta)
    && forall x {:trigger p.g(x)} :: fmt.ok(x) ==> fmt.ok(p.g(x)) && fmt.count(p.g(x)) == AddWrap(fmt.count(x), p.delta)
  }

  /** A report, or the round of a flush that comes to bucket i and hands out its items. */
  datatype Action = Charge(p: Post) | Flush(i: nat, items: seq<Item>)

  function CallOf(a: Action): Call {
    if a.Charge? then Call(Update(a.p.id, Upsert(a.p.v, a.p.g)), a.p.page)
    else Call(ResetBucket(a.i), seq(PAGE, _ => 0))
  }

  function Calls(acts: seq<Action>): (run: seq<Call>)
    ensures |run| == |acts|
  {
    seq(|acts|, i requires 0 <= i < |acts| => CallOf(acts[i]))
  }

  ghost predicate WellFormed(fmt: Format, a: Action) {
    if a.Charge? then Fair(fmt, a.p) else a.i < BUCKETS
  }

  /** Every post is fair, whatever the cache holds. */
  ghost predicate Posts(fmt: Format, acts: seq<Action>) {
    forall j :: 0 <= j < |acts| ==> WellFormed(fmt, acts[j])
  }

  lemma PostsAdmissible(fmt: Format, acts: seq<Action>)
    requires Posts(fmt, acts)
    ensures AdmissibleRun(Calls(acts))
  {
    forall j | 0 <= j < |acts| ensures Admissible(Calls(acts)[j].op) {
      assert WellFormed(fmt, acts[j]);
    }
  }

  /** The cache after a run of posts and flush rounds, in any interleaving. */
  ghost function State(n: nat, hash: HashFn, fmt: Format, acts: seq<Action>): (c: Buckets)
    requires 1 <= n <= MAX_GEN + 1 && Posts(fmt, acts)
    ensures Ready(c)
  {
    PostsAdmissible(fmt, acts);
    Exec(n, hash, Calls(acts)).0
  }

  lemma StateLog(n: nat, hash: HashFn, fmt: Format, acts: seq<Action>) returns (log: seq<Event>)
    requires 1 <= n <= MAX_GEN + 1 && Posts(fmt, acts)
    ensures Inv(State(n, hash, fmt, acts), hash, log)
  {
    PostsAdmissible(fmt, acts);
    log := Exec(n, hash, Calls(acts)).1;
  }

  /** A post meets the lossless guard when it is made; a flush round hands out what its bucket shows. */
  ghost predicate LegalAt(c: Buckets, hash: HashFn, a: Action) {
    if a.Charge? then Lossless(c, hash, a.p.id, a.p.v) else Share(c, hash, a.i, a.items)
  }

  ghost predicate Legal(n: nat, hash: HashFn, fmt: Format, acts: seq<Action>)
    requires 1 <= n <= MAX_GEN + 1
  {
    Posts(fmt, acts) && forall j :: 0 <= j < |acts| ==> LegalAt(State(n, hash, fmt, acts[..j]), hash, acts[j])
  }

  /** What every lookup returns, as one function of the key. */
  type View = bytes -> Result<bytes>

  ghost function ViewOf(c: Buckets, hash: HashFn): View {
    (k: bytes) => Lookup(c, hash, k)
  }

  ghost function Cached(view: View, fmt: Format, id: bytes): nat {
    if view(id).Ok? then fmt.count(view(id).value) else 0
  }

  function Posted(acts: seq<Action>, id: bytes): nat {
    if acts == [] then 0
    else
      var a := acts[|acts| - 1];
      Posted(acts[..|acts| - 1], id) + (if a.Charge? && a.p.id == id then a.p.delta else 0)
  }

  function SumFor(fmt: Format, items: seq<Item>, id: bytes): nat {
    if items == [] then 0
    else (if items[0].0 == id then fmt.count(items[0].1) else 0) + SumFor(fmt, items[1..], id)
  }

  function Flushed(fmt: Format, acts: seq<Action>, id: bytes): nat {
    if acts == [] then 0
    else
      var a := acts[|acts| - 1];
      Flushed(fmt, acts[..|acts| - 1], id) + (if a.Flush? then SumFor(fmt, a.items, id) else 0)
  }

  ghost predicate Formatted(view: View, fmt: Format) {
    forall k :: view(k).Ok? ==> fmt.ok(view(k).value)
  }

  // ---- one action ----------------------------------------------------------------

  function Charged(before: Result<bytes>, p: Post): Result<bytes> {
    Ok(if before.Ok? then p.g(before.value) else p.v)
  }

  lemma ChargeView(c: Buckets, hash: HashFn, fmt: Format, p: Post, k: bytes)
    requires Sound(fmt) && Ready(c) && Formatted(ViewOf(c, hash), fmt) && Fair(fmt, p) && Lossless(c, hash, p.id, p.v)
    ensures var c' := Upserted(c, hash, p.id, p.v, p.g, p.page);
            ViewOf(c', hash)(k) == if k == p.id then Charged(ViewOf(c, hash)(k), p) else ViewOf(c, hash)(k)
  {
    forall j ensures Lookup(c, hash, j) != Ok([]) { assert ViewOf(c, hash)(j) == Lookup(c, hash, j); }
    UpsertLookup(c, hash, p.id, p.v, p.g, p.page, k);
    LosslessKeeps(c, hash, p.id, p.v, p.g, p.page, k);
  }

  lemma ChargeCounts(view: View, view': View, fmt: Format, p: Post, id: bytes)
    requires Sound(fmt) && Formatted(view, fmt) && Fair(fmt, p)
    requires forall k :: view'(k) == if k == p.id then Charged(view(k), p) else view(k)
    ensures Formatted(view', fmt)
    ensures id != p.id ==> Cached(view', fmt, id) == Cached(view, fmt, id)
    ensures id == p.id ==> Cached(view', fmt, id) == AddWrap(Cached(view, fmt, id), p.delta)
  {
  }

  lemma {:induction false} SumForAbsent(fmt: Format, items: seq<Item>, id: bytes)
    requires forall i :: 0 <= i < |items| ==> items[i].0 != id
    ensures SumFor(fmt, items, id) == 0
  {
    if items != [] {
      assert items[0].0 != id;
      SumForAbsent(fmt, items[1..], id);
    }
  }

  lemma {:induction false} SumForOnce(fmt: Format, items: seq<Item>, id: bytes, i: nat)
    requires i < |items| && items[i].0 == id
    requires forall a, b :: 0 <= a < b < |items| ==> items[a].0 != items[b].0
    ensures SumFor(fmt, items, id) == fmt.count(items[i].1)
  {
    if i == 0 {
      forall j | 0 <= j < |items| - 1 ensures items[1..][j].0 != id { assert items[0].0 != items[j + 1].0; }
      SumForAbsent(fmt, items[1..], id);
    } else {
      assert items[0].0 != items[i].0;
      SumForOnce(fmt, items[1..], id, i - 1);
    }
  }

  /** A flushed share carries, for each key of its bucket, exactly the count that was cached. */
  lemma ShareCounts(c: Buckets, hash: HashFn, fmt: Format, i: nat, items: seq<Item>, id: bytes)
    requires Share(c, hash, i, items)
    ensures SumFor(fmt, items, id) == if Slot(hash, id) == i then Cached(ViewOf(c, hash), fmt, id) else 0
  {
    assert ViewOf(c, hash)(id) == Lookup(c, hash, id);
    if a :| 0 <= a < |items| && items[a].0 == id {
      SumForOnce(fmt, items, id, a);
    } else {
      SumForAbsent(fmt, items, id);
    }
  }

  // ---- runs ----------------------------------------------------------------------

  function Emptying(c: Buckets, i: nat): Buckets
    requires i < BUCKETS
  {
    c[i := Emptied(|c[i].ring.chunks|)]
  }

  /** The state after one more action. */
  lemma NextState(n: nat, hash: HashFn, fmt: Format, acts: seq<Action>, a: Action)
    requires 1 <= n <= MAX_GEN + 1 && Posts(fmt, acts + [a])
    ensures Posts(fmt, acts) && WellFormed(fmt, a)
    ensures var c, c' := State(n, hash, fmt, acts), State(n, hash, fmt, acts + [a]);
            && (a.Charge? ==> c' == Upserted(c, hash, a.p.id, a.p.v, a.p.g, a.p.page))
            && (a.Flush? ==> c' == Emptying(c, a.i))
  {
    var all := acts + [a];
    forall j | 0 <= j < |acts| ensures WellFormed(fmt, acts[j]) { assert all[j] == acts[j]; }
    assert all[|acts|] == a;
    PostsAdmissible(fmt, all);
    assert Calls(all)[..|acts|] == Calls(acts) && Calls(all)[|acts|] == CallOf(a);
    if a.Charge? { UpsertedIsStep(State(n, hash, fmt, acts), hash, a.p.id, a.p.v, a.p.g, a.p.page); }
  }

  lemma LegalPrior(n: nat, hash: HashFn, fmt: Format, acts: seq<Action>, a: Action)
    requires 1 <= n <= MAX_GEN + 1 && Legal(n, hash, fmt, acts + [a])
    ensures Legal(n, hash, fmt, acts) && LegalAt(State(n, hash, fmt, acts), hash, a)
  {
    var all := acts + [a];
    forall j | 0 <= j < |acts| ensures WellFormed(fmt, acts[j]) { assert all[j] == acts[j]; }
    forall j | 0 <= j < |acts| ensures LegalAt(State(n, hash, fmt, acts[..j]), hash, acts[j]) {
      assert all[j] == acts[j] && all[..j] == acts[..j];
    }
    assert all[|acts|] == a && all[..|acts|] == acts;
  }

  /** A post seen through lookups. */
  lemma ChargeStep(c: Buckets, c': Buckets, hash: HashFn, fmt: Format, p: Post, id: bytes)
    requires Sound(fmt) && Ready(c) && Formatted(ViewOf(c, hash), fmt) && Fair(fmt, p) && Lossless(c, hash, p.id, p.v)
    requires c' == Upserted(c, hash, p.id, p.v, p.g, p.page)
    ensures Formatted(ViewOf(c', hash), fmt)
    ensures id != p.id ==> Cached(ViewOf(c', hash), fmt, id) == Cached(ViewOf(c, hash), fmt, id)
    ensures id == p.id ==> Cached(ViewOf(c', hash), fmt, id) == AddWrap(Cached(ViewOf(c, hash), fmt, id), p.delta)
  {
    forall k ensures ViewOf(c', hash)(k) == if k == p.id then Charged(ViewOf(c, hash)(k), p) else ViewOf(c, hash)(k) {
      ChargeView(c, hash, fmt, p, k);
    }
    ChargeCounts(ViewOf(c, hash), ViewOf(c', hash), fmt, p, id);
  }

  lemma EmptyFormatted(n: nat, hash: HashFn, fmt: Format, id: bytes)
    requires 1 <= n <= MAX_GEN + 1
    ensures var view := ViewOf(State(n, hash, fmt, []), hash); Formatted(view, fmt) && Cached(view, fmt, id) == 0
  {
    var c := State(n, hash, fmt, []);
    assert Calls([]) == [];
    forall k ensures ViewOf(c, hash)(k) == Err(NoData) { assert c[Slot(hash, k)] == Emptied(n); }
  }

  /** A flush round empties one bucket and leaves the others to be looked up as before. */
  lemma FlushStep(c: Buckets, hash: HashFn, fmt: Format, i: nat, id: bytes)
    requires i < BUCKETS && Formatted(ViewOf(c, hash), fmt)
    ensures var view, view' := ViewOf(c, hash), ViewOf(Emptying(c, i), hash);
            && Formatted(view', fmt)
            && Cached(view', fmt, id) == if Slot(hash, id) == i then 0 else Cached(view, fmt, id)
  {
    var c' := Emptying(c, i);
    forall k ensures ViewOf(c', hash)(k) == if Slot(hash, k) == i then Err(NoData) else ViewOf(c, hash)(k) {
      assert c'[Slot(hash, k)] == if Slot(hash, k) == i then Emptied(|c[i].ring.chunks|) else c[Slot(hash, k)];
    }
  }

  lemma AddWrapSums(f: nat, b: nat, p: nat, d: nat)
    requires AddWrap(f, b) == AddWrap(p, 0)
    ensures AddWrap(f, AddWrap(b, d)) == AddWrap(p + d, 0)
  {
    var q1, q2, q3 := (f + b) / WRAP, p / WRAP, (b + d) / WRAP;
    assert f + (b + d) % WRAP == p + d + WRAP * (q1 - q2 - q3);
    ModShift(p + d, q1 - q2 - q3);
  }

  ghost predicate Balanced(flushed: nat, cached: nat, posted: nat) {
    AddWrap(flushed, cached) == AddWrap(posted, 0)
  }

  lemma BalanceKept(f: nat, b: nat, p: nat, f': nat, b': nat, p': nat, d: nat)
    requires Balanced(f, b, p)
    requires || (f' == f && b' == AddWrap(b, d) && p' == p + d)
             || (f' == f && b' == b && p' == p)
             || (f' == f + b && b' == 0 && p' == p)
    ensures Balanced(f', b', p')
  {
    if f' == f && b' == AddWrap(b, d) && p' == p + d { AddWrapSums(f, b, p, d); }
  }

  lemma ModShift(x: int, q: int)
    ensures (x + WRAP * q) % WRAP == x % WRAP
  {
  }

  /** One action keeps the balance of every session: f, p and f', p' are the totals flushed and posted
      before and after. */
  lemma ActionStep(c: Buckets, c': Buckets, hash: HashFn, fmt: Format, a: Action, id: bytes, f: nat, p: nat, f': nat,
                   p': nat)
    requires Sound(fmt) && Ready(c) && Formatted(ViewOf(c, hash), fmt) && WellFormed(fmt, a) && LegalAt(c, hash, a)
    requires a.Charge? ==> c' == Upserted(c, hash, a.p.id, a.p.v, a.p.g, a.p.page)
    requires a.Flush? ==> c' == Emptying(c, a.i)
    requires f' == f + (if a.Flush? then SumFor(fmt, a.items, id) else 0)
    requires p' == p + (if a.Charge? && a.p.id == id then a.p.delta else 0)
    requires Balanced(f, Cached(ViewOf(c, hash), fmt, id), p)
    ensures Formatted(ViewOf(c', hash), fmt)
    ensures Balanced(f', Cached(ViewOf(c', hash), fmt, id), p')
  {
    var b, b' := Cached(ViewOf(c, hash), fmt, id), Cached(ViewOf(c', hash), fmt, id);
    if a.Charge? {
      ChargeStep(c, c', hash, fmt, a.p, id);
      BalanceKept(f, b, p, f', b', p', a.p.delta);
    } else {
      FlushStep(c, hash, fmt, a.i, id);
      ShareCounts(c, hash, fmt, a.i, a.items, id);
      BalanceKept(f, b, p, f', b', p', 0);
    }
  }

  /** Conservation: for every session, what was flushed plus what is cached is what was posted, with any
      posts between the rounds of a flush. */
  lemma {:induction false} Conservation(n: nat, hash: HashFn, fmt: Format, acts: seq<Action>, id: bytes)
    requires Sound(fmt) && 1 <= n <= MAX_GEN + 1 && Legal(n, hash, fmt, acts)
    ensures Formatted(ViewOf(State(n, hash, fmt, acts), hash), fmt)
    ensures Balanced(Flushed(fmt, acts, id), Cached(ViewOf(State(n, hash, fmt, acts), hash), fmt, id), Posted(acts, id))
    decreases |acts|
  {
    if acts == [] {
      EmptyFormatted(n, hash, fmt, id);
    } else {
      var prior, a := acts[..|acts| - 1], acts[|acts| - 1];
      Snoc(acts);
      LegalPrior(n, hash, fmt, prior, a);
      NextState(n, hash, fmt, prior, a);
      Conservation(n, hash, fmt, prior, id);
      ActionStep(State(n, hash, fmt, prior), State(n, hash, fmt, acts), hash, fmt, a, id,
                 Flushed(fmt, prior, id), Posted(prior, id), Flushed(fmt, acts, id), Posted(acts, id));
    }
  }
}
