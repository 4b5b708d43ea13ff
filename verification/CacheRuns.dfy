/** The whole cache over arbitrary runs: 512 buckets chosen by hash, and the claim that a
    lookup never returns anything but the last bytes written for that very key. */
module CacheRuns {
  import opened Basics
  import opened CacheBucket
  import CacheLayout
  import BucketObject

  const BUCKETS: nat := 512

  type Index = i: nat | i < BUCKETS

  type Buckets = c: seq<Bucket> | |c| == BUCKETS witness seq(BUCKETS, _ => Emptied(1))
  type HashFn = bytes -> Hash

  datatype Op =
    | Set(k: bytes, v: bytes)
    | GetSet(k: bytes, provided: Result<bytes>)
    | Update(k: bytes, f: Mutator)
    | Get(k: bytes)
    | Del(k: bytes)
    | ResetBucket(i: nat)       // one round of Cache.Reset, which locks the buckets one after the other

  /** What a caller can tell happened to a key. */
  datatype Event = Wrote(k: bytes, v: bytes) | Deleted(k: bytes) | Cleared(i: nat)

  // ---- operations, routed by hash ---------------------------------------------

  function Slot(hash: HashFn, k: bytes): nat {
    hash(k) % BUCKETS
  }

  function Lookup(c: Buckets, hash: HashFn, k: bytes): Result<bytes> {
    GetLocked(c[Slot(hash, k)], k, hash(k))
  }

  ghost predicate Ready(c: Buckets) {
    forall i :: 0 <= i < BUCKETS ==> Valid(c[i])
  }

  ghost predicate Admissible(op: Op) {
    (op.Update? ==> Lawful(op.f)) && (op.ResetBucket? ==> op.i < BUCKETS)
  }

  /** What an operation on a key does in the bucket of that key. */
  ghost function StepIn(b: Bucket, h: Hash, op: Op, page: Page): Bucket
    requires HeadValid(b.ring) && Admissible(op) && !op.ResetBucket?
  {
    match op
    case Set(k, v) => CacheBucket.Set(b, k, v, h, page).0
    case GetSet(k, p) => CacheBucket.GetSet(b, k, h, p, page).0
    case Update(k, f) => CacheBucket.Update(b, k, h, f, page).0
    case Get(k) => b
    case Del(k) => b.(m := b.m - {h})
  }

  /** The events of one operation, read off its arguments and its reported result. */
  ghost function EventsIn(b: Bucket, h: Hash, op: Op, page: Page): seq<Event>
    requires HeadValid(b.ring) && Admissible(op) && !op.ResetBucket?
  {
    match op
    case Set(k, v) => if CacheBucket.Set(b, k, v, h, page).1.Ok? then [Wrote(k, v)] else []
    case GetSet(k, p) =>
      if GetLocked(b, k, h).Err? && CacheBucket.GetSet(b, k, h, p, page).1.Ok? then [Wrote(k, p.value)] else []
    case Update(k, f) =>
      var got := GetLocked(b, k, h);
      var mu := f(if got.Ok? then got.value else []);
      (if got.Ok? then [Wrote(k, mu.inPlace)] else []) + StoreEvents(Mutated(b, k, h, f), h, k, mu, got.Ok?, page)
    case Get(k) => []
    case Del(k) => [Deleted(k)]
  }

  ghost function Step(c: Buckets, hash: HashFn, op: Op, page: Page): Buckets
    requires Ready(c) && Admissible(op)
  {
    if op.ResetBucket? then c[op.i := Emptied(|c[op.i].ring.chunks|)]
    else c[Slot(hash, op.k) := StepIn(c[Slot(hash, op.k)], hash(op.k), op, page)]
  }

  ghost function Events(c: Buckets, hash: HashFn, op: Op, page: Page): seq<Event>
    requires Ready(c) && Admissible(op)
  {
    if op.ResetBucket? then [Cleared(op.i)] else EventsIn(c[Slot(hash, op.k)], hash(op.k), op, page)
  }

  // ---- the reference: the last write still standing in a log -------------------

  function Last(log: seq<Event>, hash: HashFn, k: bytes): Option<bytes> {
    if log == [] then None
    else
      match log[|log| - 1]
      case Wrote(k', v) => if k' == k then Some(v) else Last(log[..|log| - 1], hash, k)
      case Deleted(k') => if k' == k then None else Last(log[..|log| - 1], hash, k)
      case Cleared(i) => if Slot(hash, k) == i then None else Last(log[..|log| - 1], hash, k)
  }

  /** The bucket an event is about. */
  function EventSlot(hash: HashFn, e: Event): nat {
    if e.Cleared? then e.i else Slot(hash, e.k)
  }

  lemma LastSnoc(log: seq<Event>, hash: HashFn, e: Event, k: bytes)
    ensures Last(log + [e], hash, k) ==
            match e
            case Wrote(k', v) => (if k' == k then Some(v) else Last(log, hash, k))
            case Deleted(k') => (if k' == k then None else Last(log, hash, k))
            case Cleared(i) => (if Slot(hash, k) == i then None else Last(log, hash, k))
  {
    assert (log + [e])[..|log|] == log;
  }

  /** Everything visible in bucket i is stored under its own hash and is the last write of its key. */
  ghost predicate Current(b: Bucket, i: nat, hash: HashFn, log: seq<Event>) {
    && Valid(b)
    && forall h :: h in Contents(b) ==>
         h % BUCKETS == i && hash(Contents(b)[h].0) == h && Last(log, hash, Contents(b)[h].0) == Some(Contents(b)[h].1)
  }

  ghost predicate Inv(c: Buckets, hash: HashFn, log: seq<Event>) {
    forall i :: 0 <= i < BUCKETS ==> Current(c[i], i, hash, log)
  }

  // ---- each operation keeps it -------------------------------------------------

  /** Events about one bucket do not concern the others. */
  lemma OtherBucket(b: Bucket, i: nat, hash: HashFn, log: seq<Event>, e: Event)
    requires Current(b, i, hash, log) && EventSlot(hash, e) != i
    ensures Current(b, i, hash, log + [e])
  {
    forall h | h in Contents(b) ensures Last(log + [e], hash, Contents(b)[h].0) == Some(Contents(b)[h].1) {
      LastSnoc(log, hash, e, Contents(b)[h].0);
    }
  }

  lemma SetCurrent(b: Bucket, i: nat, hash: HashFn, log: seq<Event>, k: bytes, v: bytes, page: Page)
    requires Current(b, i, hash, log) && Slot(hash, k) == i
    ensures var (b', done) := CacheBucket.Set(b, k, v, hash(k), page);
            Current(b', i, hash, if done.Ok? then log + [Wrote(k, v)] else log)
  {
    if WriteError(k, v).Ok? {
      CacheLayout.SetEffect(b, k, v, hash(k), page);
      var b' := SetLocked(b, k, v, hash(k), page).value;
      forall h | h in Contents(b')
        ensures h % BUCKETS == i && hash(Contents(b')[h].0) == h
        ensures Last(log + [Wrote(k, v)], hash, Contents(b')[h].0) == Some(Contents(b')[h].1)
      {
        LastSnoc(log, hash, Wrote(k, v), Contents(b')[h].0);
      }
    }
  }

  /** One key rewritten under its own hash. */
  lemma RewrittenCurrent(b: Bucket, b': Bucket, i: nat, hash: HashFn, log: seq<Event>, k: bytes, v: bytes)
    requires Current(b, i, hash, log) && Valid(b') && Slot(hash, k) == i
    requires Contents(b') == Contents(b)[hash(k) := (k, v)]
    ensures Current(b', i, hash, log + [Wrote(k, v)])
  {
    forall g | g in Contents(b')
      ensures g % BUCKETS == i && hash(Contents(b')[g].0) == g
      ensures Last(log + [Wrote(k, v)], hash, Contents(b')[g].0) == Some(Contents(b')[g].1)
    {
      LastSnoc(log, hash, Wrote(k, v), Contents(b')[g].0);
    }
  }

  lemma MutatedCurrent(b: Bucket, i: nat, hash: HashFn, log: seq<Event>, k: bytes, f: Mutator)
    requires Current(b, i, hash, log) && Slot(hash, k) == i && Lawful(f)
    ensures var got := GetLocked(b, k, hash(k));
            Current(Mutated(b, k, hash(k), f), i, hash,
                    if got.Ok? then log + [Wrote(k, f(got.value).inPlace)] else log)
  {
    var h, got := hash(k), GetLocked(b, k, hash(k));
    CacheLayout.GetReadsContents(b, k, h);
    if got.Ok? {
      CacheLayout.WriteThroughEffect(b, h, f(got.value).inPlace);
      RewrittenCurrent(b, Mutated(b, k, h, f), i, hash, log, k, f(got.value).inPlace);
    }
  }

  ghost function StoreEvents(b: Bucket, h: Hash, k: bytes, mu: Mutation, found: bool, page: Page): seq<Event>
    requires HeadValid(b.ring)
  {
    if !mu.failed && mu.store && Concluded(b, k, h, mu, found, page).1.Ok? then [Wrote(k, mu.out)] else []
  }

  lemma ConcludedCurrent(b: Bucket, i: nat, hash: HashFn, log: seq<Event>, k: bytes, mu: Mutation, found: bool,
                         page: Page)
    requires Current(b, i, hash, log) && Slot(hash, k) == i
    ensures Current(Concluded(b, k, hash(k), mu, found, page).0, i, hash,
                    log + StoreEvents(b, hash(k), k, mu, found, page))
  {
    if !mu.failed && mu.store { SetCurrent(b, i, hash, log, k, mu.out, page); }
    assert log + [] == log;
  }

  /** The two halves of an update, the second told with the log of the first. */
  lemma ConcludedAfter(b: Bucket, i: nat, hash: HashFn, log: seq<Event>, k: bytes, mu: Mutation, found: bool,
                       page: Page, es: seq<Event>, b': Bucket, es': seq<Event>)
    requires Current(b, i, hash, log + es) && Slot(hash, k) == i
    requires b' == Concluded(b, k, hash(k), mu, found, page).0
    requires es' == es + StoreEvents(b, hash(k), k, mu, found, page)
    ensures Current(b', i, hash, log + es')
  {
    ConcludedCurrent(b, i, hash, log + es, k, mu, found, page);
    assert log + es + StoreEvents(b, hash(k), k, mu, found, page) == log + es';
  }

  lemma UpdateCurrent(b: Bucket, i: nat, hash: HashFn, log: seq<Event>, k: bytes, f: Mutator, page: Page)
    requires Current(b, i, hash, log) && Slot(hash, k) == i && Lawful(f)
    ensures Current(StepIn(b, hash(k), Update(k, f), page), i, hash, log + EventsIn(b, hash(k), Update(k, f), page))
  {
    var h, got := hash(k), GetLocked(b, k, hash(k));
    CacheLayout.GetReadsContents(b, k, h);
    MutatedCurrent(b, i, hash, log, k, f);
    assert log + [] == log;
    ConcludedAfter(Mutated(b, k, h, f), i, hash, log, k, f(if got.Ok? then got.value else []), got.Ok?, page,
                   if got.Ok? then [Wrote(k, f(got.value).inPlace)] else [],
                   StepIn(b, h, Update(k, f), page), EventsIn(b, h, Update(k, f), page));
  }

  lemma GetSetCurrent(b: Bucket, i: nat, hash: HashFn, log: seq<Event>, k: bytes, p: Result<bytes>, page: Page)
    requires Current(b, i, hash, log) && Slot(hash, k) == i
    ensures Current(StepIn(b, hash(k), GetSet(k, p), page), i, hash, log + EventsIn(b, hash(k), GetSet(k, p), page))
  {
    CacheLayout.GetReadsContents(b, k, hash(k));
    if p.Ok? { SetCurrent(b, i, hash, log, k, p.value, page); }
    assert log + [] == log;
  }

  lemma DelCurrent(b: Bucket, i: nat, hash: HashFn, log: seq<Event>, k: bytes)
    requires Current(b, i, hash, log) && Slot(hash, k) == i
    ensures Current(b.(m := b.m - {hash(k)}), i, hash, log + [Deleted(k)])
  {
    var b' := b.(m := b.m - {hash(k)});
    CacheLayout.DelEffect(b, hash(k));
    forall g | g in Contents(b')
      ensures Last(log + [Deleted(k)], hash, Contents(b')[g].0) == Some(Contents(b')[g].1)
    {
      LastSnoc(log, hash, Deleted(k), Contents(b')[g].0);
    }
  }

  lemma OtherBuckets(b: Bucket, i: nat, hash: HashFn, log: seq<Event>, es: seq<Event>)
    requires Current(b, i, hash, log) && |es| <= 2 && forall e :: e in es ==> EventSlot(hash, e) != i
    ensures Current(b, i, hash, log + es)
  {
    if |es| == 0 {
      assert log + es == log;
    } else {
      OtherBucket(b, i, hash, log, es[0]);
      if |es| == 2 {
        OtherBucket(b, i, hash, log + [es[0]], es[1]);
        assert log + es == log + [es[0]] + [es[1]];
      } else {
        assert log + es == log + [es[0]];
      }
    }
  }

  /** The bucket an operation is routed to. */
  lemma StepOwn(b: Bucket, i: nat, hash: HashFn, log: seq<Event>, op: Op, page: Page)
    requires !op.ResetBucket? && Admissible(op) && Current(b, i, hash, log) && Slot(hash, op.k) == i
    ensures Current(StepIn(b, hash(op.k), op, page), i, hash, log + EventsIn(b, hash(op.k), op, page))
  {
    assert log + [] == log;
    match op
    case Set(k, v) => SetCurrent(b, i, hash, log, k, v, page);
    case GetSet(k, p) => GetSetCurrent(b, i, hash, log, k, p, page);
    case Update(k, f) => UpdateCurrent(b, i, hash, log, k, f, page);
    case Get(k) =>
    case Del(k) => DelCurrent(b, i, hash, log, k);
  }

  lemma InvReady(c: Buckets, hash: HashFn, log: seq<Event>)
    requires Inv(c, hash, log)
    ensures Ready(c)
  {
    forall i | 0 <= i < BUCKETS ensures Valid(c[i]) { assert Current(c[i], i, hash, log); }
  }

  function OpSlot(hash: HashFn, op: Op): nat {
    if op.ResetBucket? then op.i else Slot(hash, op.k)
  }

  lemma StepKeeps(c: Buckets, hash: HashFn, log: seq<Event>, op: Op, page: Page)
    requires Inv(c, hash, log) && Admissible(op) && Ready(c)
    ensures Inv(Step(c, hash, op, page), hash, log + Events(c, hash, op, page))
  {
    var c', es := Step(c, hash, op, page), Events(c, hash, op, page);
    forall i | 0 <= i < BUCKETS ensures Current(c'[i], i, hash, log + es) {
      assert Current(c[i], i, hash, log);
      if i != OpSlot(hash, op) {
        OtherBuckets(c[i], i, hash, log, es);
      } else if op.ResetBucket? {
        CacheLayout.EmptiedEffect(|c[i].ring.chunks|);
      } else {
        StepOwn(c[i], i, hash, log, op, page);
      }
    }
  }

  // ---- runs --------------------------------------------------------------------

  datatype Call = Call(op: Op, page: Page)

  ghost predicate AdmissibleRun(run: seq<Call>) {
    forall i :: 0 <= i < |run| ==> Admissible(run[i].op)
  }

  /** The state and the event log after a run, from 512 empty buckets of n chunks. */
  ghost function Exec(n: nat, hash: HashFn, run: seq<Call>): (r: (Buckets, seq<Event>))
    requires 1 <= n <= MAX_GEN + 1 && AdmissibleRun(run)
    ensures Inv(r.0, hash, r.1) && Ready(r.0)
  {
    if run == [] then
      var c := seq(BUCKETS, _ => Emptied(n));
      CacheLayout.EmptiedEffect(n);
      InvReady(c, hash, []);
      (c, [])
    else
      var (c, log) := Exec(n, hash, run[..|run| - 1]);
      var call := run[|run| - 1];
      StepKeeps(c, hash, log, call.op, call.page);
      InvReady(Step(c, hash, call.op, call.page), hash, log + Events(c, hash, call.op, call.page));
      (Step(c, hash, call.op, call.page), log + Events(c, hash, call.op, call.page))
  }

  /** After every run a lookup reports no data or returns exactly the last bytes written for that
      key and not since deleted or cleared, whatever wrapped, was overwritten or collided. */
  lemma LookupIsLastWrite(n: nat, hash: HashFn, run: seq<Call>, k: bytes)
    requires 1 <= n <= MAX_GEN + 1 && AdmissibleRun(run)
    ensures var (c, log) := Exec(n, hash, run);
            || Lookup(c, hash, k) == Err(NoData)
            || (Last(log, hash, k).Some? && Lookup(c, hash, k) == Ok(Last(log, hash, k).value))
  {
    var (c, log) := Exec(n, hash, run);
    var b := c[Slot(hash, k)];
    assert Current(b, Slot(hash, k), hash, log);
    CacheLayout.GetReadsContents(b, k, hash(k));
  }

  /** A write that was accepted is visible at once, and only its own hash and the entries the head
      ran over are affected. */
  lemma WriteIsVisible(n: nat, hash: HashFn, run: seq<Call>, k: bytes, v: bytes, page: Page)
    requires 1 <= n <= MAX_GEN + 1 && AdmissibleRun(run) && WriteError(k, v).Ok?
    ensures var c := Exec(n, hash, run).0;
            Lookup(Step(c, hash, Set(k, v), page), hash, k) == Ok(v)
  {
    var (c, log) := Exec(n, hash, run);
    var b := c[Slot(hash, k)];
    assert Current(b, Slot(hash, k), hash, log);
    CacheLayout.SetEffect(b, k, v, hash(k), page);
    CacheLayout.GetReadsContents(SetLocked(b, k, v, hash(k), page).value, k, hash(k));
  }

  /** After every run, each index entry of each bucket is of the current generation or of the one
      before it in the cyclic order that skips zero, and readable exactly while not overtaken. */
  lemma GenerationSafety(n: nat, hash: HashFn, run: seq<Call>, i: nat, h: Hash)
    requires 1 <= n <= MAX_GEN + 1 && AdmissibleRun(run) && i < BUCKETS
    requires h in Exec(n, hash, run).0[i].m
    ensures var b := Exec(n, hash, run).0[i];
            && (b.m[h].gen == b.ring.gen || b.m[h].gen == PrevGen(b.ring.gen))
            && 1 <= b.m[h].gen <= MAX_GEN
            && (h in Contents(b) <==> CacheLayout.Lag(b.ring, b.m[h]) <= Capacity(b.ring))
            && (h !in Contents(b) ==> ReadItem(b.ring, b.m[h]) == Err(NoData))
  {
    var b := Exec(n, hash, run).0[i];
    assert EntryValid(b.ring, b.m[h]);
    CacheLayout.ReadTotal(b.ring, b.m[h]);
    CacheLayout.FreshMeansLag(b.ring, b.m[h]);
  }

  // ---- what Reset hands out ----------------------------------------------------

  /** What bucket i hands out at its turn: for each key that lives there the pair a lookup would still
      return, once, and nothing else. */
  ghost predicate Share(c: Buckets, hash: HashFn, i: nat, items: seq<Item>) {
    && (forall a :: 0 <= a < |items| ==> Slot(hash, items[a].0) == i && Lookup(c, hash, items[a].0) == Ok(items[a].1))
    && (forall k :: Slot(hash, k) == i && Lookup(c, hash, k).Ok? ==> exists a :: 0 <= a < |items| && items[a].0 == k)
    && (forall a, b :: 0 <= a < b < |items| ==> items[a].0 != items[b].0)
  }

  /** One bucket's share of the batch: its visible pairs, each found again by looking up its key. */
  lemma HandedOutLooksUp(c: Buckets, hash: HashFn, log: seq<Event>, i: nat, order: seq<Hash>, items: seq<Item>, a: nat)
    requires Inv(c, hash, log) && i < BUCKETS && BucketObject.HandsOut(c[i], order, [], items) && a < |items|
    ensures Slot(hash, items[a].0) == i && hash(items[a].0) == order[a] && Lookup(c, hash, items[a].0) == Ok(items[a].1)
  {
    assert Current(c[i], i, hash, log);
    assert order[a] in order;
    CacheLayout.GetReadsContents(c[i], items[a].0, order[a]);
  }

  lemma LookupIsHandedOut(c: Buckets, hash: HashFn, log: seq<Event>, order: seq<Hash>, items: seq<Item>, k: bytes)
    requires Inv(c, hash, log) && Lookup(c, hash, k).Ok?
    requires BucketObject.HandsOut(c[Slot(hash, k)], order, [], items)
    ensures exists a :: 0 <= a < |items| && items[a].0 == k
  {
    var i := Slot(hash, k);
    assert Current(c[i], i, hash, log);
    CacheLayout.GetReadsContents(c[i], k, hash(k));
    assert hash(k) in order;
    var a :| 0 <= a < |order| && order[a] == hash(k);
    assert items[a].0 == k;
  }

  lemma HandsOutShare(c: Buckets, hash: HashFn, log: seq<Event>, i: nat, order: seq<Hash>, items: seq<Item>)
    requires Inv(c, hash, log) && i < BUCKETS && BucketObject.HandsOut(c[i], order, [], items)
    ensures Share(c, hash, i, items)
  {
    forall a | 0 <= a < |items|
      ensures Slot(hash, items[a].0) == i && Lookup(c, hash, items[a].0) == Ok(items[a].1)
      ensures hash(items[a].0) == order[a]
    {
      HandedOutLooksUp(c, hash, log, i, order, items, a);
    }
    forall k | Slot(hash, k) == i && Lookup(c, hash, k).Ok? ensures exists a :: 0 <= a < |items| && items[a].0 == k {
      LookupIsHandedOut(c, hash, log, order, items, k);
    }
  }

  /** The collector passed from bucket to bucket grows by each one's share. */
  lemma CollectorGrows(b: Bucket, order: seq<Hash>, out: seq<Item>, out': seq<Item>)
    requires BucketObject.HandsOut(b, order, out, out')
    ensures out' == out + out'[|out|..] && BucketObject.HandsOut(b, order, [], out'[|out|..])
  {
  }

  /** The round for bucket i of one Cache.Reset: the call at place at[i] of the run, handing out shares[i].
      The rounds come in order; any other calls may come between two of them. */
  ghost predicate Rounds(n: nat, hash: HashFn, run: seq<Call>, at: seq<nat>, orders: seq<seq<Hash>>,
                         shares: seq<seq<Item>>)
    requires 1 <= n <= MAX_GEN + 1 && AdmissibleRun(run)
  {
    && |at| == |orders| == |shares| == BUCKETS
    && (forall i, j :: 0 <= i < j < BUCKETS ==> at[i] < at[j])
    && forall i :: 0 <= i < BUCKETS ==> Round(n, hash, run, at[i], i, orders[i], shares[i])
  }

  ghost predicate Round(n: nat, hash: HashFn, run: seq<Call>, at: nat, i: nat, order: seq<Hash>, share: seq<Item>)
    requires 1 <= n <= MAX_GEN + 1 && AdmissibleRun(run) && i < BUCKETS
  {
    at < |run| && run[at].op == ResetBucket(i) && BucketObject.HandsOut(Exec(n, hash, run[..at]).0[i], order, [], share)
  }

  function Flatten(shares: seq<seq<Item>>): seq<Item> {
    if shares == [] then [] else Flatten(shares[..|shares| - 1]) + shares[|shares| - 1]
  }

  /** What a lookup of k would have returned when the reset came to its bucket. */
  ghost function AtItsTurn(n: nat, hash: HashFn, run: seq<Call>, at: seq<nat>, k: bytes): Result<bytes>
    requires 1 <= n <= MAX_GEN + 1 && AdmissibleRun(run) && |at| == BUCKETS && at[Slot(hash, k)] <= |run|
  {
    Lookup(Exec(n, hash, run[..at[Slot(hash, k)]]).0, hash, k)
  }

  /** The items are, for the keys of buckets before m, what view shows, each key once. */
  ghost predicate Batch(view: bytes -> Result<bytes>, hash: HashFn, m: nat, items: seq<Item>) {
    && (forall a :: 0 <= a < |items| ==> Slot(hash, items[a].0) < m && view(items[a].0) == Ok(items[a].1))
    && (forall k :: Slot(hash, k) < m && view(k).Ok? ==> exists a :: 0 <= a < |items| && items[a].0 == k)
    && (forall a, b :: 0 <= a < b < |items| ==> items[a].0 != items[b].0)
  }

  /** One more bucket's share. */
  lemma BatchGrows(view: bytes -> Result<bytes>, hash: HashFn, m: nat, items: seq<Item>, c: Buckets, share: seq<Item>)
    requires Batch(view, hash, m, items) && Share(c, hash, m, share)
    requires forall k :: Slot(hash, k) == m ==> view(k) == Lookup(c, hash, k)
    ensures Batch(view, hash, m + 1, items + share)
  {
    var all := items + share;
    forall a | 0 <= a < |all| ensures Slot(hash, all[a].0) < m + 1 && view(all[a].0) == Ok(all[a].1) {
      if a >= |items| { assert all[a] == share[a - |items|]; }
    }
    forall k | Slot(hash, k) < m + 1 && view(k).Ok? ensures exists a :: 0 <= a < |all| && all[a].0 == k {
      if Slot(hash, k) < m {
        var a :| 0 <= a < |items| && items[a].0 == k;
        assert all[a].0 == k;
      } else {
        var a :| 0 <= a < |share| && share[a].0 == k;
        assert all[|items| + a].0 == k;
      }
    }
    forall a, b | 0 <= a < b < |all| ensures all[a].0 != all[b].0 {
      if a >= |items| {
        assert all[a] == share[a - |items|] && all[b] == share[b - |items|];
      } else if b >= |items| {
        assert Slot(hash, items[a].0) < m && Slot(hash, share[b - |items|].0) == m;
      }
    }
  }

  lemma BatchRound(n: nat, hash: HashFn, run: seq<Call>, at: nat, view: bytes -> Result<bytes>, i: nat,
                   order: seq<Hash>, share: seq<Item>, items: seq<Item>)
    requires 1 <= n <= MAX_GEN + 1 && AdmissibleRun(run) && i < BUCKETS
    requires Round(n, hash, run, at, i, order, share) && Batch(view, hash, i, items)
    requires forall k :: Slot(hash, k) == i ==> view(k) == Lookup(Exec(n, hash, run[..at]).0, hash, k)
    ensures Batch(view, hash, i + 1, items + share)
  {
    var (c, log) := Exec(n, hash, run[..at]);
    HandsOutShare(c, hash, log, i, order, share);
    BatchGrows(view, hash, i, items, c, share);
  }

  /** Cache.Reset hands out exactly the pairs a lookup would still have returned when it came to their
      bucket, each key once, whatever other calls came between its rounds. */
  lemma ResetHandsOutBatch(n: nat, hash: HashFn, run: seq<Call>, at: seq<nat>, orders: seq<seq<Hash>>,
                           shares: seq<seq<Item>>)
    requires 1 <= n <= MAX_GEN + 1 && AdmissibleRun(run) && Rounds(n, hash, run, at, orders, shares)
    ensures forall i :: 0 <= i < BUCKETS ==> at[i] <= |run|
    ensures Batch((k: bytes) => AtItsTurn(n, hash, run, at, k), hash, BUCKETS, Flatten(shares))
  {
    assert forall i :: 0 <= i < BUCKETS ==> Round(n, hash, run, at[i], i, orders[i], shares[i]);
    var view := (k: bytes) => AtItsTurn(n, hash, run, at, k);
    var i := 0;
    while i < BUCKETS
      invariant 0 <= i <= BUCKETS && Batch(view, hash, i, Flatten(shares[..i]))
    {
      assert Round(n, hash, run, at[i], i, orders[i], shares[i]);
      BatchRound(n, hash, run, at[i], view, i, orders[i], shares[i], Flatten(shares[..i]));
      assert shares[..i + 1][..i] == shares[..i];
      i := i + 1;
    }
    assert shares[..BUCKETS] == shares;
  }

  /** The same for the collector that Cache.Reset passes on from bucket to bucket: outs[i] is what it holds
      when the round for bucket i begins. */
  lemma ResetCollectsBatch(n: nat, hash: HashFn, run: seq<Call>, at: seq<nat>, orders: seq<seq<Hash>>,
                           outs: seq<seq<Item>>)
    requires 1 <= n <= MAX_GEN + 1 && AdmissibleRun(run)
    requires |at| == |orders| == BUCKETS && |outs| == BUCKETS + 1 && outs[0] == []
    requires forall i, j :: 0 <= i < j < BUCKETS ==> at[i] < at[j]
    requires forall i :: 0 <= i < BUCKETS ==> Collects(n, hash, run, at[i], i, orders[i], outs[i], outs[i + 1])
    ensures forall i :: 0 <= i < BUCKETS ==> at[i] <= |run|
    ensures Batch((k: bytes) => AtItsTurn(n, hash, run, at, k), hash, BUCKETS, outs[BUCKETS])
  {
    var shares := SharesOf(outs);
    forall i | 0 <= i < BUCKETS
      ensures Round(n, hash, run, at[i], i, orders[i], shares[i]) && outs[i + 1] == outs[i] + shares[i]
    {
      ShareIs(n, hash, run, at[i], i, orders[i], outs[i], outs[i + 1]);
    }
    ResetHandsOutBatch(n, hash, run, at, orders, shares);
    CollectedIsFlat(outs, shares, BUCKETS);
    assert shares[..BUCKETS] == shares;
  }

  lemma ShareIs(n: nat, hash: HashFn, run: seq<Call>, at: nat, i: nat, order: seq<Hash>, out: seq<Item>,
                out': seq<Item>)
    requires 1 <= n <= MAX_GEN + 1 && AdmissibleRun(run) && i < BUCKETS
    requires Collects(n, hash, run, at, i, order, out, out')
    ensures |out| <= |out'| && out' == out + out'[|out|..] && Round(n, hash, run, at, i, order, out'[|out|..])
  {
    CollectorGrows(Exec(n, hash, run[..at]).0[i], order, out, out');
  }

  ghost predicate Collects(n: nat, hash: HashFn, run: seq<Call>, at: nat, i: nat, order: seq<Hash>, out: seq<Item>,
                           out': seq<Item>)
    requires 1 <= n <= MAX_GEN + 1 && AdmissibleRun(run) && i < BUCKETS
  {
    at < |run| && run[at].op == ResetBucket(i) && BucketObject.HandsOut(Exec(n, hash, run[..at]).0[i], order, out, out')
  }

  /** By what the collector grew in each round. */
  function SharesOf(outs: seq<seq<Item>>): (shares: seq<seq<Item>>)
    requires outs != []
    ensures |shares| == |outs| - 1
  {
    seq(|outs| - 1, i requires 0 <= i < |outs| - 1 =>
      if |outs[i]| <= |outs[i + 1]| then outs[i + 1][|outs[i]|..] else [])
  }

  lemma {:induction false} CollectedIsFlat(outs: seq<seq<Item>>, shares: seq<seq<Item>>, m: nat)
    requires m <= |shares| && |outs| == |shares| + 1 && outs[0] == []
    requires forall i :: 0 <= i < |shares| ==> outs[i + 1] == outs[i] + shares[i]
    ensures outs[m] == Flatten(shares[..m])
  {
    if m > 0 {
      CollectedIsFlat(outs, shares, m - 1);
      assert shares[..m][..m - 1] == shares[..m - 1];
      assert outs[(m - 1) + 1] == outs[m - 1] + shares[m - 1];
    }
  }
}
