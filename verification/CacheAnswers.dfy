/** What the calls of the cache answer, and what every lookup gives afterwards, over every run. */
module CacheAnswers {
  import opened Basics
  import opened CacheBucket
  import opened CacheRuns
  import CacheLayout

  /** Why a pair is refused, in bytes. */
  function Refusal(k: bytes, v: bytes): Option<Error> {
    if |k| >= 65536 then Some(KeyTooBig)
    else if |v| >= 65536 then Some(ValTooBig)
    else if |k| + |v| >= 65532 then Some(PairTooBig)
    else None
  }

  lemma RefusalIs(k: bytes, v: bytes)
    ensures Refusal(k, v).None? <==> WriteError(k, v).Ok?
    ensures WriteError(k, v).Err? ==> Refusal(k, v) == Some(WriteError(k, v).error)
  {
  }

  /** The other keys after a record of that many bytes went in under hash h: those of the same hash and those
      whose record the head ran over are gone, the rest look up as before. */
  ghost predicate OthersAfter(c: Buckets, c': Buckets, hash: HashFn, k: bytes, size: nat) {
    forall x :: x != k ==>
      Lookup(c', hash, x) == if Spared(c, hash, k, size, x) then Lookup(c, hash, x) else Err(NoData)
  }

  ghost predicate Spared(c: Buckets, hash: HashFn, k: bytes, size: nat, x: bytes) {
    Slot(hash, x) != Slot(hash, k)
    || (hash(x) != hash(k) && hash(x) in CacheLayout.Retained(c[Slot(hash, k)], size))
  }

  lemma OwnLookup(c: Buckets, hash: HashFn, k: bytes)
    requires Ready(c)
    ensures var got := Lookup(c, hash, k); got.Ok? || got == Err(NoData)
  {
    CacheLayout.GetReadsContents(c[Slot(hash, k)], k, hash(k));
  }

  lemma SameBuckets(c: Buckets, i: nat)
    requires i < BUCKETS
    ensures c[i := c[i]] == c
  {
  }

  /** One bucket before and after a store under hash h, for a key x that hashes to g. */
  lemma BucketAfterSet(b: Bucket, k: bytes, v: bytes, h: Hash, page: Page, x: bytes, g: Hash)
    requires Valid(b) && WriteError(k, v).Ok? && (x == k ==> g == h)
    ensures GetLocked(SetLocked(b, k, v, h, page).value, x, g) ==
            if x == k then Ok(v)
            else if g != h && g in CacheLayout.Retained(b, RecordSize(k, v)) then GetLocked(b, x, g)
            else Err(NoData)
  {
    var b' := SetLocked(b, k, v, h, page).value;
    CacheLayout.SetEffect(b, k, v, h, page);
    CacheLayout.GetReadsContents(b, x, g);
    CacheLayout.GetReadsContents(b', x, g);
  }

  /** A record stored in the bucket of its key. */
  lemma StoredLooksUp(c: Buckets, hash: HashFn, k: bytes, v: bytes, page: Page)
    requires Ready(c) && WriteError(k, v).Ok?
    ensures var c' := c[Slot(hash, k) := SetLocked(c[Slot(hash, k)], k, v, hash(k), page).value];
            Lookup(c', hash, k) == Ok(v) && OthersAfter(c, c', hash, k, RecordSize(k, v))
  {
    var b, i := c[Slot(hash, k)], Slot(hash, k);
    var b' := SetLocked(b, k, v, hash(k), page).value;
    BucketAfterSet(b, k, v, hash(k), page, k, hash(k));
    forall x | x != k
      ensures Lookup(c[i := b'], hash, x) ==
              if Spared(c, hash, k, RecordSize(k, v), x) then Lookup(c, hash, x) else Err(NoData)
    {
      if Slot(hash, x) == i { BucketAfterSet(b, k, v, hash(k), page, x, hash(x)); }
    }
  }

  // ---- storing ---------------------------------------------------------------------------

  /** A store is refused exactly for its lengths and then changes nothing; otherwise the key looks up to the
      value. */
  ghost predicate SetOutcome(c: Buckets, c': Buckets, hash: HashFn, k: bytes, v: bytes, r: Result<()>) {
    if Refusal(k, v).Some? then r == Err(Refusal(k, v).value) && c' == c
    else r == Ok(()) && Lookup(c', hash, k) == Ok(v) && OthersAfter(c, c', hash, k, RecordSize(k, v))
  }

  lemma SetIn(c: Buckets, hash: HashFn, k: bytes, v: bytes, page: Page)
    requires Ready(c)
    ensures var (b', r) := CacheBucket.Set(c[Slot(hash, k)], k, v, hash(k), page);
            SetOutcome(c, c[Slot(hash, k) := b'], hash, k, v, r)
  {
    RefusalIs(k, v);
    SameBuckets(c, Slot(hash, k));
    if Refusal(k, v).None? { StoredLooksUp(c, hash, k, v, page); }
  }

  lemma SetAnswers(n: nat, hash: HashFn, run: seq<Call>, k: bytes, v: bytes, page: Page)
    requires 1 <= n <= MAX_GEN + 1 && AdmissibleRun(run)
    ensures var c := Exec(n, hash, run).0;
            SetOutcome(c, Step(c, hash, Op.Set(k, v), page), hash, k, v,
                       CacheBucket.Set(c[Slot(hash, k)], k, v, hash(k), page).1)
  {
    SetIn(Exec(n, hash, run).0, hash, k, v, page);
  }

  /** A hit answers what a lookup gave and changes nothing; on a miss the provider's error comes back, or the
      error for a pair that is refused, and nothing changes; otherwise the provided value comes back and is
      what a lookup then gives. */
  ghost predicate GetSetOutcome(c: Buckets, c': Buckets, hash: HashFn, k: bytes, provided: Result<bytes>,
                                r: Result<bytes>)
  {
    if Lookup(c, hash, k).Ok? then r == Lookup(c, hash, k) && c' == c
    else if provided.Err? then r == provided && c' == c
    else if Refusal(k, provided.value).Some? then r == Err(Refusal(k, provided.value).value) && c' == c
    else
      && r == provided && Lookup(c', hash, k) == Ok(provided.value)
      && OthersAfter(c, c', hash, k, RecordSize(k, provided.value))
  }

  lemma GetSetIn(c: Buckets, hash: HashFn, k: bytes, provided: Result<bytes>, page: Page)
    requires Ready(c)
    ensures var (b', r) := CacheBucket.GetSet(c[Slot(hash, k)], k, hash(k), provided, page);
            GetSetOutcome(c, c[Slot(hash, k) := b'], hash, k, provided, r)
  {
    OwnLookup(c, hash, k);
    SameBuckets(c, Slot(hash, k));
    if Lookup(c, hash, k).Err? && provided.Ok? { SetIn(c, hash, k, provided.value, page); }
  }

  lemma GetSetAnswers(n: nat, hash: HashFn, run: seq<Call>, k: bytes, provided: Result<bytes>, page: Page)
    requires 1 <= n <= MAX_GEN + 1 && AdmissibleRun(run)
    ensures var c := Exec(n, hash, run).0;
            GetSetOutcome(c, Step(c, hash, Op.GetSet(k, provided), page), hash, k, provided,
                          CacheBucket.GetSet(c[Slot(hash, k)], k, hash(k), provided, page).1)
  {
    GetSetIn(Exec(n, hash, run).0, hash, k, provided, page);
  }

  // ---- changing ----------------------------------------------------------------------------

  /** The bytes the mutator left in place of a value it found are what a lookup gives, and no other key
      changes. */
  ghost predicate Rewritten(c: Buckets, c': Buckets, hash: HashFn, k: bytes, v: bytes) {
    Lookup(c', hash, k) == Ok(v) && forall x :: x != k ==> Lookup(c', hash, x) == Lookup(c, hash, x)
  }

  lemma BucketMutated(b: Bucket, k: bytes, h: Hash, f: Mutator, x: bytes, g: Hash)
    requires Valid(b) && Lawful(f) && GetLocked(b, k, h).Ok? && (x == k ==> g == h)
    ensures var b' := Mutated(b, k, h, f);
            && Valid(b')
            && GetLocked(b', x, g) == if x == k then Ok(f(GetLocked(b, k, h).value).inPlace) else GetLocked(b, x, g)
  {
    CacheLayout.GetReadsContents(b, k, h);
    CacheLayout.WriteThroughEffect(b, h, f(GetLocked(b, k, h).value).inPlace);
    CacheLayout.GetReadsContents(b, x, g);
    CacheLayout.GetReadsContents(Mutated(b, k, h, f), x, g);
  }

  lemma MutatedIn(c: Buckets, hash: HashFn, k: bytes, f: Mutator)
    requires Ready(c) && Lawful(f)
    ensures var got, c1 := Lookup(c, hash, k), c[Slot(hash, k) := Mutated(c[Slot(hash, k)], k, hash(k), f)];
            Ready(c1) && if got.Ok? then Rewritten(c, c1, hash, k, f(got.value).inPlace) else c1 == c
  {
    var b, i := c[Slot(hash, k)], Slot(hash, k);
    var got, b' := Lookup(c, hash, k), Mutated(b, k, hash(k), f);
    SameBuckets(c, i);
    if got.Ok? {
      BucketMutated(b, k, hash(k), f, k, hash(k));
      forall x | x != k ensures Lookup(c[i := b'], hash, x) == Lookup(c, hash, x) {
        if Slot(hash, x) == i { BucketMutated(b, k, hash(k), f, x, hash(x)); }
      }
    }
  }

  /** What an update answers and leaves, by what the mutator said to the value it was shown, the empty one on a
      miss. Whatever it wrote in place stays; c1 is the cache with just that done. */
  ghost predicate UpdateOutcome(c: Buckets, c1: Buckets, c': Buckets, hash: HashFn, k: bytes, f: Mutator, r: Result<()>)
  {
    var got := Lookup(c, hash, k);
    var mu := f(if got.Ok? then got.value else []);
    && (if got.Ok? then Rewritten(c, c1, hash, k, mu.inPlace) else c1 == c)
    && if mu.failed then r == Err(Callback) && c' == c1
       else if mu.store then SetOutcome(c1, c', hash, k, mu.out, r)
       else c' == c1 && r == if got.Ok? then Ok(()) else Err(NoData)
  }

  ghost function InPlaceOnly(c: Buckets, hash: HashFn, k: bytes, f: Mutator): Buckets
    requires Lawful(f)
  {
    c[Slot(hash, k) := Mutated(c[Slot(hash, k)], k, hash(k), f)]
  }

  lemma UpdateIn(c: Buckets, hash: HashFn, k: bytes, f: Mutator, page: Page)
    requires Ready(c) && Lawful(f)
    ensures var (b', r) := CacheBucket.Update(c[Slot(hash, k)], k, hash(k), f, page);
            UpdateOutcome(c, InPlaceOnly(c, hash, k, f), c[Slot(hash, k) := b'], hash, k, f, r)
  {
    var i, got := Slot(hash, k), Lookup(c, hash, k);
    var c1, mu := InPlaceOnly(c, hash, k, f), f(if got.Ok? then got.value else []);
    OwnLookup(c, hash, k);
    MutatedIn(c, hash, k, f);
    ConcludedIn(c1, hash, k, mu, got.Ok?, page);
    var b' := CacheBucket.Update(c[i], k, hash(k), f, page).0;
    assert c1[i := b'] == c[i := b'];
  }

  lemma ConcludedIn(c: Buckets, hash: HashFn, k: bytes, mu: Mutation, found: bool, page: Page)
    requires Ready(c)
    ensures var (b', r) := Concluded(c[Slot(hash, k)], k, hash(k), mu, found, page);
            var c' := c[Slot(hash, k) := b'];
            if mu.failed then r == Err(Callback) && c' == c
            else if mu.store then SetOutcome(c, c', hash, k, mu.out, r)
            else c' == c && r == if found then Ok(()) else Err(NoData)
  {
    SameBuckets(c, Slot(hash, k));
    SetIn(c, hash, k, mu.out, page);
  }

  lemma UpdateAnswers(n: nat, hash: HashFn, run: seq<Call>, k: bytes, f: Mutator, page: Page)
    requires 1 <= n <= MAX_GEN + 1 && AdmissibleRun(run) && Lawful(f)
    ensures var c := Exec(n, hash, run).0;
            UpdateOutcome(c, InPlaceOnly(c, hash, k, f), Step(c, hash, Op.Update(k, f), page), hash, k, f,
                          CacheBucket.Update(c[Slot(hash, k)], k, hash(k), f, page).1)
  {
    UpdateIn(Exec(n, hash, run).0, hash, k, f, page);
  }

  // ---- removing ---------------------------------------------------------------------------

  lemma BucketAfterDel(b: Bucket, h: Hash, x: bytes, g: Hash)
    requires Valid(b)
    ensures GetLocked(b.(m := b.m - {h}), x, g) == if g == h then Err(NoData) else GetLocked(b, x, g)
  {
    CacheLayout.DelEffect(b, h);
    CacheLayout.GetReadsContents(b, x, g);
    CacheLayout.GetReadsContents(b.(m := b.m - {h}), x, g);
  }

  /** After every run a deleted key is gone, with any that shares its hash, and no other. */
  lemma DelAnswers(n: nat, hash: HashFn, run: seq<Call>, k: bytes, page: Page, x: bytes)
    requires 1 <= n <= MAX_GEN + 1 && AdmissibleRun(run)
    ensures var c := Exec(n, hash, run).0;
            Lookup(Step(c, hash, Op.Del(k), page), hash, x) ==
            if hash(x) == hash(k) then Err(NoData) else Lookup(c, hash, x)
  {
    DelIn(Exec(n, hash, run).0, hash, k, page, x);
  }

  lemma DelIn(c: Buckets, hash: HashFn, k: bytes, page: Page, x: bytes)
    requires Ready(c)
    ensures Lookup(Step(c, hash, Op.Del(k), page), hash, x) ==
            if hash(x) == hash(k) then Err(NoData) else Lookup(c, hash, x)
  {
    var i, j, b := Slot(hash, k), Slot(hash, x), c[Slot(hash, k)];
    assert hash(x) == hash(k) ==> i == j;
    assert Step(c, hash, Op.Del(k), page) == c[i := b.(m := b.m - {hash(k)})];
    if i == j { BucketAfterDel(b, hash(k), x, hash(x)); }
  }

  /** A reset of bucket i leaves nothing there and touches no other. */
  lemma ResetAnswers(n: nat, hash: HashFn, run: seq<Call>, i: nat, page: Page, x: bytes)
    requires 1 <= n <= MAX_GEN + 1 && AdmissibleRun(run) && i < BUCKETS
    ensures var c := Exec(n, hash, run).0;
            Lookup(Step(c, hash, ResetBucket(i), page), hash, x) ==
            if Slot(hash, x) == i then Err(NoData) else Lookup(c, hash, x)
  {
    var m := |Exec(n, hash, run).0[i].ring.chunks|;
    CacheLayout.EmptiedEffect(m);
    CacheLayout.GetReadsContents(Emptied(m), x, hash(x));
  }
}
