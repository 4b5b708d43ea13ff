/** The bucket of the ring-buffer cache as a value: 64 KiB pages overwritten in
    place, an index from key hash to a packed (generation, offset) word, and the
    lazy validation of that word on every read. */
module CacheBucket {
  const PAGE: nat := 0x1_0000                  // chunkSize
  const MAX_GEN: nat := 0xFF_FFFF              // maxGen
  const MAX_LEN: nat := 0x1_0000               // maxKeyLen, used for both lengths

  type byte = x: int | 0 <= x < 256
  type bytes = seq<byte>
  type Page = d: bytes | |d| == PAGE witness seq(PAGE, _ => 0)
  type Hash = nat

  datatype Error = NoData | Corrupted | Panic | KeyTooBig | ValTooBig | PairTooBig | Callback
  datatype Result<T> = Ok(value: T) | Err(error: Error)

  /** A Go slice over a fixed array: reading may reslice past `len` up to the capacity. */
  datatype Chunk = Absent | Chunk(data: Page, len: nat)

  /** An index word, unpacked. */
  datatype Entry = Entry(gen: nat, off: nat)

  /** The page ring with its write head, and the index over it. The generation is the low
      24 bits of the counter. */
  datatype Ring = Ring(chunks: seq<Chunk>, idx: nat, gen: nat)
  datatype Bucket = Bucket(ring: Ring, m: map<Hash, Entry>)

  type Item = (bytes, bytes)

  /** The generation after g, and the one before it, in the cyclic order 1, 2, ..., MAX_GEN. */
  function NextGen(g: nat): nat {
    if g == MAX_GEN then 1 else g + 1
  }

  function PrevGen(g: nat): int {
    if g == 1 then MAX_GEN else g - 1
  }

  // ---- records inside a page -------------------------------------------------

  function Header(k: bytes, v: bytes): bytes
    requires |k| < MAX_LEN && |v| < MAX_LEN
  {
    [|k| / 256, |k| % 256, |v| / 256, |v| % 256]
  }

  function RecordSize(k: bytes, v: bytes): nat {
    4 + |k| + |v|
  }

  function Encode(k: bytes, v: bytes): (rec: bytes)
    requires |k| < MAX_LEN && |v| < MAX_LEN
    ensures |rec| == RecordSize(k, v)
  {
    Header(k, v) + k + v
  }

  function KeyLen(d: Page, o: nat): nat
    requires o + 4 <= PAGE
  {
    d[o] as int * 256 + d[o + 1]
  }

  function ValLen(d: Page, o: nat): nat
    requires o + 4 <= PAGE
  {
    d[o + 2] as int * 256 + d[o + 3]
  }

  /** The two length checks that both readers make before slicing. */
  predicate Bounded(d: Page, o: nat) {
    o + 4 < PAGE && o + 4 + KeyLen(d, o) + ValLen(d, o) < PAGE
  }

  function RecordLen(d: Page, o: nat): nat
    requires Bounded(d, o)
  {
    4 + KeyLen(d, o) + ValLen(d, o)
  }

  function KeyAt(d: Page, o: nat): bytes
    requires Bounded(d, o)
  {
    d[o + 4..o + 4 + KeyLen(d, o)]
  }

  function ValAt(d: Page, o: nat): bytes
    requires Bounded(d, o)
  {
    d[o + 4 + KeyLen(d, o)..o + 4 + KeyLen(d, o) + ValLen(d, o)]
  }

  /** Overwriting a stretch of a page in place. */
  function Splice(d: Page, o: nat, s: bytes): Page
    requires o + |s| <= PAGE
  {
    d[..o] + s + d[o + |s|..]
  }

  // ---- reading ---------------------------------------------------------------

  /** The validation shared by readItem, getLocked and cleanLocked. */
  predicate Fresh(r: Ring, w: Entry) {
    || (w.gen == r.gen && w.off < r.idx)
    || (w.gen + 1 == r.gen && w.off >= r.idx)
    || (w.gen == MAX_GEN && r.gen == 1 && w.off >= r.idx)
  }

  /** Locates the record a word denotes, with every exit of the two readers. */
  function Locate(r: Ring, w: Entry): Result<(Page, nat)> {
    if !Fresh(r, w) then Err(NoData)
    else
      var c, o := w.off / PAGE, w.off % PAGE;
      if c >= |r.chunks| then Err(Corrupted)
      else if o + 4 >= PAGE then Err(Corrupted)
      else if r.chunks[c].Absent? then Err(Panic)
      else
        var d := r.chunks[c].data;
        if o + 4 + KeyLen(d, o) + ValLen(d, o) >= PAGE then Err(Corrupted) else Ok((d, o))
  }

  function ReadItem(r: Ring, w: Entry): Result<Item> {
    var at := Locate(r, w);
    if at.Err? then Err(at.error)
    else
      var (d, o) := at.value;
      Ok((KeyAt(d, o), ValAt(d, o)))
  }

  /** The key comparison at the end of getLocked. */
  function Matched(at: Result<(Page, nat)>, k: bytes): Result<bytes>
    requires at.Ok? ==> Bounded(at.value.0, at.value.1)
  {
    if at.Err? then Err(at.error)
    else if k == KeyAt(at.value.0, at.value.1) then Ok(ValAt(at.value.0, at.value.1))
    else Err(NoData)
  }

  function GetLocked(b: Bucket, k: bytes, h: Hash): Result<bytes> {
    if h !in b.m then Err(NoData) else Matched(Locate(b.ring, b.m[h]), k)
  }

  // ---- writing ---------------------------------------------------------------

  function Capacity(r: Ring): nat {
    |r.chunks| * PAGE
  }

  /** Where the next record of n bytes goes: the same chunk, the next one, or chunk 0 again. */
  function Placement(r: Ring, n: nat): nat {
    var c, c' := r.idx / PAGE, (r.idx + n) / PAGE;
    if c' <= c then r.idx
    else if c' >= |r.chunks| then 0
    else c' * PAGE
  }

  predicate Wraps(r: Ring, n: nat) {
    (r.idx + n) / PAGE > r.idx / PAGE && (r.idx + n) / PAGE >= |r.chunks|
  }

  function WriteError(k: bytes, v: bytes): Result<()> {
    if |k| >= MAX_LEN then Err(KeyTooBig)
    else if |v| >= MAX_LEN then Err(ValTooBig)
    else if 4 + |k| + |v| >= PAGE then Err(PairTooBig)
    else Ok(())
  }

  /** The ring after appending a record. `page` is what getChunk returns if a chunk is needed. */
  function Appended(r: Ring, rec: bytes, page: Page): Ring
    requires HeadValid(r) && 4 <= |rec| < PAGE
  {
    var i := Placement(r, |rec|);
    PlacementFits(r, |rec|);
    var prior := r.chunks[i / PAGE];
    var chunk := if prior.Absent? then Chunk(page, 0) else if i == r.idx then prior else prior.(len := 0);
    var chunk' := Chunk(Splice(chunk.data, chunk.len, rec), chunk.len + |rec|);
    var gen := if Wraps(r, |rec|) then NextGen(r.gen) else r.gen;
    Ring(r.chunks[i / PAGE := chunk'], i + |rec|, gen)
  }

  function Accepted(r: Ring, m: map<Hash, Entry>): map<Hash, Entry> {
    map h | h in m && Fresh(r, m[h]) :: m[h]
  }

  /** The same ring, described field by field. */
  lemma AppendedIs(r: Ring, rec: bytes, page: Page, r': Ring)
    requires HeadValid(r) && 4 <= |rec| < PAGE && |r'.chunks| == |r.chunks|
    requires r'.idx == Placement(r, |rec|) + |rec|
    requires r'.gen == if Wraps(r, |rec|) then NextGen(r.gen) else r.gen
    requires var i := Placement(r, |rec|);
             && i / PAGE < |r.chunks| && i % PAGE + |rec| <= PAGE
             && (forall j :: 0 <= j < |r.chunks| && j != i / PAGE ==> r'.chunks[j] == r.chunks[j])
             && var base := if r.chunks[i / PAGE].Absent? then page else r.chunks[i / PAGE].data;
                r'.chunks[i / PAGE] == Chunk(Splice(base, i % PAGE, rec), i % PAGE + |rec|)
    ensures r' == Appended(r, rec, page)
  {
    PlacementFits(r, |rec|);
    assert r'.chunks == Appended(r, rec, page).chunks;
  }

  /** The index that cleanLocked leaves. */
  function Clean(r: Ring, m: map<Hash, Entry>): map<Hash, Entry> {
    if Accepted(r, m) == map[] then m else Accepted(r, m)
  }

  function SetLocked(b: Bucket, k: bytes, v: bytes, h: Hash, page: Page): Result<Bucket>
    requires HeadValid(b.ring)
  {
    var e := WriteError(k, v);
    if e.Err? then Err(e.error)
    else
      var rec := Encode(k, v);
      var r := Appended(b.ring, rec, page);
      var m := b.m[h := Entry(r.gen, Placement(b.ring, |rec|))];
      Ok(Bucket(r, if Wraps(b.ring, |rec|) then Clean(r, m) else m))
  }

  lemma SetLockedIs(b: Bucket, k: bytes, v: bytes, h: Hash, page: Page, b': Bucket)
    requires HeadValid(b.ring) && WriteError(k, v).Ok?
    requires b'.ring == Appended(b.ring, Encode(k, v), page)
    requires var m := b.m[h := Entry(b'.ring.gen, Placement(b.ring, |Encode(k, v)|))];
             b'.m == if Wraps(b.ring, |Encode(k, v)|) then Clean(b'.ring, m) else m
    ensures SetLocked(b, k, v, h, page) == Ok(b')
  {
  }

  /** A mutator writing through the uncopied slice it was handed. */
  function WriteThrough(r: Ring, w: Entry, v: bytes): Ring
    requires Locate(r, w).Ok? && |v| == |ReadItem(r, w).value.1|
  {
    var (d, o) := Locate(r, w).value;
    var c := w.off / PAGE;
    r.(chunks := r.chunks[c := r.chunks[c].(data := Splice(d, o + 4 + KeyLen(d, o), v))])
  }

  /** The same ring, described chunk by chunk. */
  lemma WriteThroughIs(r: Ring, w: Entry, v: bytes, at: nat, r': Ring)
    requires Locate(r, w).Ok? && |v| == |ReadItem(r, w).value.1|
    requires at == w.off % PAGE + 4 + KeyLen(Locate(r, w).value.0, w.off % PAGE)
    requires |r'.chunks| == |r.chunks| && r'.idx == r.idx && r'.gen == r.gen
    requires forall j :: 0 <= j < |r.chunks| && j != w.off / PAGE ==> r'.chunks[j] == r.chunks[j]
    requires var c := r.chunks[w.off / PAGE]; r'.chunks[w.off / PAGE] == Chunk(Splice(c.data, at, v), c.len)
    ensures r' == WriteThrough(r, w, v)
  {
    assert r'.chunks == WriteThrough(r, w, v).chunks;
  }

  /** A rejected write leaves the bucket as it was. */
  function Set(b: Bucket, k: bytes, v: bytes, h: Hash, page: Page): (Bucket, Result<()>)
    requires HeadValid(b.ring)
  {
    var r := SetLocked(b, k, v, h, page);
    if r.Ok? then (r.value, Ok(())) else (b, Err(r.error))
  }

  /** What a mutator did with the slice it was handed: the bytes it left there, the bytes it
      returned (not aliasing the chunk), whether it asked for a store, whether it failed. */
  datatype Mutation = Mutation(inPlace: bytes, out: bytes, store: bool, failed: bool)
  type Mutator = bytes -> Mutation

  ghost predicate Lawful(f: Mutator) {
    forall v :: |f(v).inPlace| == |v|
  }

  /** The bucket after the mutator ran on what getLocked found, before any store. */
  function Mutated(b: Bucket, k: bytes, h: Hash, f: Mutator): Bucket
    requires Lawful(f)
  {
    var got := GetLocked(b, k, h);
    if got.Ok? then b.(ring := WriteThrough(b.ring, b.m[h], f(got.value).inPlace)) else b
  }

  function Concluded(b: Bucket, k: bytes, h: Hash, mu: Mutation, found: bool, page: Page): (Bucket, Result<()>)
    requires HeadValid(b.ring)
  {
    if mu.failed then (b, Err(Callback))
    else if mu.store then Set(b, k, mu.out, h, page)
    else (b, if found then Ok(()) else Err(NoData))
  }

  function Update(b: Bucket, k: bytes, h: Hash, f: Mutator, page: Page): (Bucket, Result<()>)
    requires HeadValid(b.ring) && Lawful(f)
  {
    var got := GetLocked(b, k, h);
    if got.Err? && got.error != NoData then (b, Err(got.error))
    else Concluded(Mutated(b, k, h, f), k, h, f(if got.Ok? then got.value else []), got.Ok?, page)
  }

  /** `provided` is what the provider returns when it is asked. */
  function GetSet(b: Bucket, k: bytes, h: Hash, provided: Result<bytes>, page: Page): (Bucket, Result<bytes>)
    requires HeadValid(b.ring)
  {
    var got := GetLocked(b, k, h);
    if got.Ok? || got.error != NoData then (b, got)
    else if provided.Err? then (b, provided)
    else
      var (b', done) := Set(b, k, provided.value, h, page);
      (b', if done.Ok? then provided else Err(done.error))
  }

  function Emptied(n: nat): Bucket {
    Bucket(Ring(seq(n, _ => Absent), 0, 1), map[])
  }

  // ---- invariant -------------------------------------------------------------

  predicate InPage(r: Ring, w: Entry) {
    && w.off < Capacity(r)
    && r.chunks[w.off / PAGE].Chunk?
    && Bounded(r.chunks[w.off / PAGE].data, w.off % PAGE)
  }

  function EndOf(r: Ring, w: Entry): nat
    requires InPage(r, w)
  {
    w.off + RecordLen(r.chunks[w.off / PAGE].data, w.off % PAGE)
  }

  predicate EntryValid(r: Ring, w: Entry) {
    && w.off < Capacity(r)
    && (w.gen == r.gen || w.gen == PrevGen(r.gen))
    && (w.gen == r.gen ==> w.off < r.idx)
    && (Fresh(r, w) ==> InPage(r, w) && (w.gen == r.gen ==> EndOf(r, w) <= r.idx))
  }

  predicate Apart(r: Ring, w1: Entry, w2: Entry) {
    && InPage(r, w1) && InPage(r, w2)
    && (EndOf(r, w1) <= w2.off || EndOf(r, w2) <= w1.off)
  }

  predicate HeadValid(r: Ring) {
    && 1 <= |r.chunks| <= MAX_GEN + 1
    && r.idx < Capacity(r)
    && 1 <= r.gen <= MAX_GEN
    && (r.chunks[r.idx / PAGE].Absent? ==> r.idx % PAGE == 0)
    && (r.chunks[r.idx / PAGE].Chunk? ==> r.chunks[r.idx / PAGE].len == r.idx % PAGE)
  }

  ghost predicate Indexed(r: Ring, m: map<Hash, Entry>) {
    forall h :: h in m ==> EntryValid(r, m[h])
  }

  ghost predicate Disjoint(r: Ring, m: map<Hash, Entry>) {
    forall h1, h2 :: h1 in m && h2 in m && h1 != h2 && Fresh(r, m[h1]) && Fresh(r, m[h2]) ==>
      Apart(r, m[h1], m[h2])
  }

  ghost predicate Valid(b: Bucket) {
    HeadValid(b.ring) && Indexed(b.ring, b.m) && Disjoint(b.ring, b.m)
  }

  lemma PlacementFits(r: Ring, n: nat)
    requires HeadValid(r) && 4 <= n < PAGE
    ensures var i := Placement(r, n);
            && i / PAGE < |r.chunks| && (i + n) / PAGE == i / PAGE
            && (i != r.idx ==> i % PAGE == 0)
  {
  }

  /** What a lookup can still see: hash to (key, value). */
  ghost function Contents(b: Bucket): map<Hash, Item> {
    map h | h in b.m && ReadItem(b.ring, b.m[h]).Ok? :: ReadItem(b.ring, b.m[h]).value
  }
}
