/** The insert-or-change-in-place use of Cache.Update: what it does to every lookup, and exactly
    when it costs no other key its value. */
module CacheUpsert {
  import opened Basics
  import opened CacheBucket
  import opened CacheRuns
  import CacheLayout

  /** Stores v when it is handed nothing, otherwise rewrites the value in place. */
  function Upsert(v: bytes, g: bytes -> bytes): Mutator {
    (x: bytes) => if |x| == 0 then Mutation([], v, true, false) else Mutation(g(x), g(x), false, false)
  }

  ghost predicate KeepsLength(g: bytes -> bytes) {
    forall x :: |g(x)| == |x|
  }

  ghost function Upserted(c: Buckets, hash: HashFn, id: bytes, v: bytes, g: bytes -> bytes, page: Page): Buckets
    requires Ready(c) && KeepsLength(g)
  {
    c[Slot(hash, id) := CacheBucket.Update(c[Slot(hash, id)], id, hash(id), Upsert(v, g), page).0]
  }

  lemma UpsertedIsStep(c: Buckets, hash: HashFn, id: bytes, v: bytes, g: bytes -> bytes, page: Page)
    requires Ready(c) && KeepsLength(g)
    ensures Admissible(Update(id, Upsert(v, g)))
    ensures Step(c, hash, Update(id, Upsert(v, g)), page) == Upserted(c, hash, id, v, g, page)
  {
  }

  /** Nothing cached is empty, so the mutator can tell a miss from a hit. */
  ghost predicate NonEmpty(c: Buckets, hash: HashFn) {
    forall k :: Lookup(c, hash, k) != Ok([])
  }

  ghost function UpsertedContents(b: Bucket, h: Hash, id: bytes, v: bytes, g: bytes -> bytes): map<Hash, Item> {
    var got := GetLocked(b, id, h);
    if got.Ok? then Contents(b)[h := (id, g(got.value))]
    else if WriteError(id, v).Ok? then CacheLayout.Retained(b, RecordSize(id, v))[h := (id, v)]
    else Contents(b)
  }

  lemma UpsertHit(b: Bucket, h: Hash, id: bytes, v: bytes, g: bytes -> bytes, page: Page)
    requires Valid(b) && KeepsLength(g) && GetLocked(b, id, h).Ok? && GetLocked(b, id, h).value != []
    ensures var b' := CacheBucket.Update(b, id, h, Upsert(v, g), page).0;
            Valid(b') && Contents(b') == UpsertedContents(b, h, id, v, g)
  {
    var x := GetLocked(b, id, h).value;
    CacheLayout.GetReadsContents(b, id, h);
    CacheLayout.WriteThroughEffect(b, h, g(x));
    assert Upsert(v, g)(x).inPlace == g(x);
    assert CacheBucket.Update(b, id, h, Upsert(v, g), page).0 == b.(ring := WriteThrough(b.ring, b.m[h], g(x)));
  }

  lemma UpsertMissIsSet(b: Bucket, h: Hash, id: bytes, v: bytes, g: bytes -> bytes, page: Page)
    requires HeadValid(b.ring) && KeepsLength(g) && GetLocked(b, id, h) == Err(NoData)
    ensures CacheBucket.Update(b, id, h, Upsert(v, g), page) == CacheBucket.Set(b, id, v, h, page)
  {
    assert Upsert(v, g)([]) == Mutation([], v, true, false);
  }

  lemma SetContents(b: Bucket, h: Hash, id: bytes, v: bytes, page: Page)
    requires Valid(b)
    ensures var b' := CacheBucket.Set(b, id, v, h, page).0;
            && Valid(b')
            && Contents(b') == if WriteError(id, v).Ok? then CacheLayout.Retained(b, RecordSize(id, v))[h := (id, v)]
                               else Contents(b)
  {
    if WriteError(id, v).Ok? { CacheLayout.SetEffect(b, id, v, h, page); }
  }

  lemma UpsertMiss(b: Bucket, h: Hash, id: bytes, v: bytes, g: bytes -> bytes, page: Page)
    requires Valid(b) && KeepsLength(g) && GetLocked(b, id, h) == Err(NoData)
    ensures var b' := CacheBucket.Update(b, id, h, Upsert(v, g), page).0;
            Valid(b') && Contents(b') == UpsertedContents(b, h, id, v, g)
  {
    UpsertMissIsSet(b, h, id, v, g, page);
    SetContents(b, h, id, v, page);
  }

  function Find(m: map<Hash, Item>, h: Hash, k: bytes): Result<bytes> {
    if h in m && m[h].0 == k then Ok(m[h].1) else Err(NoData)
  }

  lemma LookupContents(c: Buckets, hash: HashFn, k: bytes)
    requires Ready(c)
    ensures Lookup(c, hash, k) == Find(Contents(c[Slot(hash, k)]), hash(k), k)
  {
    CacheLayout.GetReadsContents(c[Slot(hash, k)], k, hash(k));
  }

  lemma UpsertedBuckets(c: Buckets, hash: HashFn, id: bytes, v: bytes, g: bytes -> bytes, page: Page)
    requires Ready(c) && KeepsLength(g) && NonEmpty(c, hash)
    ensures var c', i := Upserted(c, hash, id, v, g, page), Slot(hash, id);
            && Ready(c') && Contents(c'[i]) == UpsertedContents(c[i], hash(id), id, v, g)
            && (forall j :: 0 <= j < BUCKETS && j != i ==> c'[j] == c[j])
  {
    var i := Slot(hash, id);
    LookupContents(c, hash, id);
    assert Lookup(c, hash, id) != Ok([]);
    match Lookup(c, hash, id)
    case Ok(_) => UpsertHit(c[i], hash(id), id, v, g, page);
    case Err(_) => UpsertMiss(c[i], hash(id), id, v, g, page);
  }

  /** Every lookup after the upsert, in terms of the lookups before it. */
  ghost function LookupAfter(c: Buckets, hash: HashFn, id: bytes, v: bytes, g: bytes -> bytes,
                             k: bytes): Result<bytes> {
    var got, b := Lookup(c, hash, id), c[Slot(hash, id)];
    After(got, if got.Ok? then g(got.value) else [], WriteError(id, v).Ok?, v, k == id,
          Slot(hash, k) == Slot(hash, id)
          && (hash(k) == hash(id) || hash(k) !in CacheLayout.Retained(b, RecordSize(id, v))),
          Lookup(c, hash, k))
  }

  function After(got: Result<bytes>, x: bytes, fits: bool, v: bytes, own: bool, gone: bool,
                 before: Result<bytes>): Result<bytes> {
    if got.Ok? then (if own then Ok(x) else before)
    else if !fits then before
    else if own then Ok(v)
    else if gone then Err(NoData)
    else before
  }

  lemma FindAfter(m: map<Hash, Item>, kept: map<Hash, Item>, m': map<Hash, Item>, h: Hash, id: bytes, x: bytes,
                  fits: bool, v: bytes, hk: Hash, k: bytes)
    requires forall a :: a in kept ==> a in m && kept[a] == m[a]
    requires m' == if Find(m, h, id).Ok? then m[h := (id, x)] else if fits then kept[h := (id, v)] else m
    requires k == id ==> hk == h
    ensures Find(m', hk, k) == After(Find(m, h, id), x, fits, v, k == id, hk == h || hk !in kept, Find(m, hk, k))
  {
  }

  lemma LookupFromContents(c: Buckets, c': Buckets, hash: HashFn, id: bytes, v: bytes, g: bytes -> bytes, k: bytes)
    requires Ready(c) && Ready(c')
    requires Contents(c'[Slot(hash, id)]) == UpsertedContents(c[Slot(hash, id)], hash(id), id, v, g)
    requires forall j :: 0 <= j < BUCKETS && j != Slot(hash, id) ==> c'[j] == c[j]
    ensures Lookup(c', hash, k) == LookupAfter(c, hash, id, v, g, k)
  {
    var b, got := c[Slot(hash, id)], Lookup(c, hash, id);
    LookupContents(c, hash, k);
    LookupContents(c', hash, k);
    LookupContents(c, hash, id);
    if Slot(hash, k) == Slot(hash, id) {
      FindAfter(Contents(b), CacheLayout.Retained(b, RecordSize(id, v)), Contents(c'[Slot(hash, id)]), hash(id), id,
                if got.Ok? then g(got.value) else [], WriteError(id, v).Ok?, v, hash(k), k);
    }
  }

  lemma UpsertLookup(c: Buckets, hash: HashFn, id: bytes, v: bytes, g: bytes -> bytes, page: Page, k: bytes)
    requires Ready(c) && KeepsLength(g) && NonEmpty(c, hash)
    ensures Ready(Upserted(c, hash, id, v, g, page))
    ensures Lookup(Upserted(c, hash, id, v, g, page), hash, k) == LookupAfter(c, hash, id, v, g, k)
  {
    UpsertedBuckets(c, hash, id, v, g, page);
    LookupFromContents(c, Upserted(c, hash, id, v, g, page), hash, id, v, g, k);
  }

  // ---- when nothing is lost -----------------------------------------------------

  /** A guard the caller can evaluate beforehand: the key is cached, or its value of n bytes fits,
      its hash is free, and writing it moves the head past no visible entry. */
  ghost predicate Lossless(c: Buckets, hash: HashFn, id: bytes, v: bytes) {
    var b := c[Slot(hash, id)];
    || Lookup(c, hash, id).Ok?
    || (&& WriteError(id, v).Ok? && hash(id) !in Contents(b)
        && forall h :: h in Contents(b) ==> h in CacheLayout.Retained(b, RecordSize(id, v)))
  }

  ghost predicate NothingLost(c: Buckets, c': Buckets, hash: HashFn, id: bytes) {
    && Lookup(c', hash, id).Ok?
    && forall k :: k != id ==> Lookup(c', hash, k) == Lookup(c, hash, k)
  }

  lemma LosslessKeeps(c: Buckets, hash: HashFn, id: bytes, v: bytes, g: bytes -> bytes, page: Page, k: bytes)
    requires Ready(c) && KeepsLength(g) && NonEmpty(c, hash) && Lossless(c, hash, id, v)
    ensures var c' := Upserted(c, hash, id, v, g, page);
            if k == id then Lookup(c', hash, k).Ok? else Lookup(c', hash, k) == Lookup(c, hash, k)
  {
    UpsertLookup(c, hash, id, v, g, page, k);
    LookupContents(c, hash, k);
  }

  /** Without the guard the report itself is dropped, or some other key loses its value. */
  lemma LossyLoses(c: Buckets, hash: HashFn, log: seq<Event>, id: bytes, v: bytes, g: bytes -> bytes, page: Page)
    returns (k: bytes)
    requires Inv(c, hash, log) && Ready(c) && KeepsLength(g) && NonEmpty(c, hash) && !Lossless(c, hash, id, v)
    ensures var c' := Upserted(c, hash, id, v, g, page);
            if k == id then Lookup(c', hash, k).Err? else Lookup(c, hash, k).Ok? && Lookup(c', hash, k).Err?
  {
    k := id;
    var b := c[Slot(hash, id)];
    LookupContents(c, hash, id);
    if WriteError(id, v).Ok? {
      var h :| h in Contents(b) && (h == hash(id) || h !in CacheLayout.Retained(b, RecordSize(id, v)));
      assert Current(b, Slot(hash, id), hash, log);
      k := Contents(b)[h].0;
      LookupContents(c, hash, k);
    }
    UpsertLookup(c, hash, id, v, g, page, k);
  }

  /** The guard is exact. */
  lemma LosslessIff(c: Buckets, hash: HashFn, log: seq<Event>, id: bytes, v: bytes, g: bytes -> bytes, page: Page)
    requires Inv(c, hash, log) && Ready(c) && KeepsLength(g) && NonEmpty(c, hash)
    ensures Lossless(c, hash, id, v) <==> NothingLost(c, Upserted(c, hash, id, v, g, page), hash, id)
  {
    if Lossless(c, hash, id, v) {
      forall k ensures if k == id then Lookup(Upserted(c, hash, id, v, g, page), hash, k).Ok?
                       else Lookup(Upserted(c, hash, id, v, g, page), hash, k) == Lookup(c, hash, k)
      {
        LosslessKeeps(c, hash, id, v, g, page, k);
      }
    } else {
      var k := LossyLoses(c, hash, log, id, v, g, page);
    }
  }

  // ---- before the first wrap ------------------------------------------------------

  /** Every entry is of the current generation: true when emptied, and until the ring wraps. */
  ghost predicate FirstLap(b: Bucket) {
    forall h :: h in b.m ==> b.m[h].gen == b.ring.gen
  }

  /** In that state a write that does not wrap passes no entry. */
  lemma NoWrapKeepsAll(b: Bucket, n: nat, h: Hash)
    requires Valid(b) && FirstLap(b) && 4 <= n < PAGE && !Wraps(b.ring, n) && h in Contents(b)
    ensures h in CacheLayout.Retained(b, n)
  {
    PlacementFits(b.ring, n);
    assert EntryValid(b.ring, b.m[h]);
  }

  /** So between flushes, as long as no bucket wraps, the guard is: it fits and its hash is free. */
  lemma NoWrapIsLossless(c: Buckets, hash: HashFn, id: bytes, v: bytes)
    requires Ready(c) && FirstLap(c[Slot(hash, id)]) && WriteError(id, v).Ok?
    requires !Wraps(c[Slot(hash, id)].ring, RecordSize(id, v))
    requires hash(id) !in Contents(c[Slot(hash, id)])
    ensures Lossless(c, hash, id, v)
  {
    var b := c[Slot(hash, id)];
    forall h | h in Contents(b) ensures h in CacheLayout.Retained(b, RecordSize(id, v)) {
      NoWrapKeepsAll(b, RecordSize(id, v), h);
    }
  }

  lemma FirstLapKept(b: Bucket, h: Hash, id: bytes, v: bytes, g: bytes -> bytes, page: Page)
    requires Valid(b) && FirstLap(b) && KeepsLength(g)
    requires GetLocked(b, id, h).Ok? ==> GetLocked(b, id, h).value != []
    requires GetLocked(b, id, h).Err? ==> !Wraps(b.ring, RecordSize(id, v))
    ensures FirstLap(CacheBucket.Update(b, id, h, Upsert(v, g), page).0)
  {
    CacheLayout.GetReadsContents(b, id, h);
    if GetLocked(b, id, h).Err? { UpsertMissIsSet(b, h, id, v, g, page); }
  }

  /** An update in place leaves the head alone; an insert moves it by at most twice the record's length. */
  lemma HeadAfter(b: Bucket, h: Hash, id: bytes, v: bytes, g: bytes -> bytes, page: Page)
    requires Valid(b) && KeepsLength(g) && WriteError(id, v).Ok?
    requires GetLocked(b, id, h).Ok? ==> GetLocked(b, id, h).value != []
    requires GetLocked(b, id, h).Err? ==> !Wraps(b.ring, RecordSize(id, v))
    ensures var b' := CacheBucket.Update(b, id, h, Upsert(v, g), page).0;
            && |b'.ring.chunks| == |b.ring.chunks|
            && b'.ring.idx <= b.ring.idx + if GetLocked(b, id, h).Ok? then 0 else 2 * RecordSize(id, v)
  {
    CacheLayout.GetReadsContents(b, id, h);
    if GetLocked(b, id, h).Err? {
      UpsertMissIsSet(b, h, id, v, g, page);
      CacheLayout.AppendedHead(b.ring, Encode(id, v), page);
      CacheLayout.AdvanceBound(b.ring, RecordSize(id, v));
    }
  }

  // ---- runs that lose something ------------------------------------------------------

  /** The cache after one report on empty buckets. */
  lemma FirstReport(n: nat, hash: HashFn, id: bytes, v: bytes, g: bytes -> bytes, page: Page) returns (c: Buckets)
    requires 1 <= n <= MAX_GEN + 1 && KeepsLength(g) && v != [] && WriteError(id, v).Ok?
    ensures AdmissibleRun([Call(Update(id, Upsert(v, g)), page)])
    ensures c == Exec(n, hash, [Call(Update(id, Upsert(v, g)), page)]).0
    ensures var b := c[Slot(hash, id)];
            && Contents(b) == map[hash(id) := (id, v)] && hash(id) in b.m
            && b.m[hash(id)] == Entry(1, 0) && b.ring.gen == 1 && b.ring.idx == RecordSize(id, v)
            && |b.ring.chunks| == n
  {
    var e, i, h := Exec(n, hash, []).0, Slot(hash, id), hash(id);
    var run := [Call(Update(id, Upsert(v, g)), page)];
    assert run[..0] == [];
    UpsertedIsStep(e, hash, id, v, g, page);
    c := Upserted(e, hash, id, v, g, page);
    assert e[i] == Emptied(n);
    CacheLayout.EmptiedEffect(n);
    CacheLayout.GetReadsContents(e[i], id, h);
    UpsertMissIsSet(e[i], h, id, v, g, page);
    SetContents(e[i], h, id, v, page);
  }

  /** A session whose id shares its hash with one already cached takes its place. */
  lemma CollisionLoses(n: nat, hash: HashFn, id: bytes, v: bytes, id': bytes, v': bytes, g: bytes -> bytes, page: Page)
    requires 1 <= n <= MAX_GEN + 1 && KeepsLength(g) && v != [] && WriteError(id, v).Ok?
    requires id != id' && hash(id) == hash(id')
    ensures AdmissibleRun([Call(Update(id, Upsert(v, g)), page)])
    ensures !Lossless(Exec(n, hash, [Call(Update(id, Upsert(v, g)), page)]).0, hash, id', v')
  {
    var c := FirstReport(n, hash, id, v, g, page);
    LookupContents(c, hash, id');
  }

  /** In buckets of one chunk, so does one for which the rest of the chunk has no room. */
  lemma OverrunLoses(hash: HashFn, id: bytes, v: bytes, id': bytes, v': bytes, g: bytes -> bytes, page: Page)
    requires KeepsLength(g) && v != [] && WriteError(id, v).Ok? && WriteError(id', v').Ok?
    requires Slot(hash, id) == Slot(hash, id') && hash(id) != hash(id')
    requires RecordSize(id, v) + RecordSize(id', v') >= PAGE
    ensures AdmissibleRun([Call(Update(id, Upsert(v, g)), page)])
    ensures !Lossless(Exec(1, hash, [Call(Update(id, Upsert(v, g)), page)]).0, hash, id', v')
  {
    var c := FirstReport(1, hash, id, v, g, page);
    var b := c[Slot(hash, id)];
    LookupContents(c, hash, id');
    assert Wraps(b.ring, RecordSize(id', v'));
    assert hash(id) in Contents(b) && hash(id) !in CacheLayout.Retained(b, RecordSize(id', v'));
  }
}
