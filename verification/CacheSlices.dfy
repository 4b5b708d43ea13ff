/** The uncopied lookup: its caller keeps a slice of a chunk after the bucket's lock is released. */
module CacheSlices {
  import opened CacheBucket
  import CacheLayout
  import CacheWords
  import BucketObject

  /** The slice of the value stored under g, with its bytes. */
  ghost predicate Holds(o: BucketObject.Bucket, g: Hash, chunk: array<byte>, from: nat, v: bytes)
    requires o.Shaped()
    reads o, o.pages, chunk
  {
    && g in o.m && o.ValueSlice(o.m[g], chunk, from)
    && from + |v| <= chunk.Length && chunk[from..from + |v|] == v
  }

  /** While the key is visible, the slice shows its value. */
  lemma SliceShows(o: BucketObject.Bucket, g: Hash, chunk: array<byte>, from: nat)
    requires o.Valid() && g in o.m && o.ValueSlice(o.m[g], chunk, from)
    ensures g in Contents(o.State()) && Holds(o, g, chunk, from, Contents(o.State())[g].1)
  {
    var w := CacheWords.Unpack(o.m[g]);
    assert o.State().m[g] == w;
    assert o.Ring().chunks[w.off / PAGE] == o.ChunkAt(w.off / PAGE);
  }

  /** A record that is still visible under the same entry lies where it lay. */
  lemma PlaceKept(b: Bucket, b': Bucket, g: Hash)
    requires g in Contents(b) && g in Contents(b') && b'.m[g] == b.m[g] && Contents(b')[g].0 == Contents(b)[g].0
    ensures var at, at' := Locate(b.ring, b.m[g]), Locate(b'.ring, b.m[g]);
            && at.Ok? && at'.Ok? && at'.value.1 == at.value.1
            && KeyLen(at'.value.0, at'.value.1) == KeyLen(at.value.0, at.value.1)
  {
    var at, at' := Locate(b.ring, b.m[g]), Locate(b'.ring, b.m[g]);
    assert |KeyAt(at.value.0, at.value.1)| == KeyLen(at.value.0, at.value.1);
    assert |KeyAt(at'.value.0, at'.value.1)| == KeyLen(at'.value.0, at'.value.1);
  }

  method GetUncopied(o: BucketObject.Bucket, k: bytes, h: Hash)
    returns (r: Result<bytes>, chunk: array?<byte>, from: nat)
    requires o.Valid()
    ensures r == GetLocked(o.State(), k, h)
    ensures r.Ok? ==> chunk != null && Holds(o, h, chunk, from, r.value)
  {
    r, chunk, from := o.GetLocked(k, h);
    if r.Ok? {
      SliceShows(o, h, chunk, from);
      CacheLayout.GetReadsContents(o.State(), k, h);
    }
  }

  /** What a store under another hash leaves of the entry g. */
  lemma SetLeaves(b: Bucket, k: bytes, v: bytes, h: Hash, page: Page, g: Hash)
    requires Valid(b) && g in Contents(b) && g != h
    ensures var b' := Set(b, k, v, h, page).0;
            && Valid(b')
            && (g in Contents(b') <==> WriteError(k, v).Err? || g in CacheLayout.Retained(b, RecordSize(k, v)))
            && (g in Contents(b') ==> g in b'.m && b'.m[g] == b.m[g] && Contents(b')[g] == Contents(b)[g])
  {
    if WriteError(k, v).Ok? { CacheLayout.SetEffect(b, k, v, h, page); }
  }

  /** The slice of g is still the value's after chunks stayed and g stayed visible where it was. */
  lemma StillHolds(o: BucketObject.Bucket, b: Bucket, chunks: seq<array?<byte>>, g: Hash, chunk: array<byte>, from: nat)
    requires o.Valid() && BucketObject.Stays(chunks, o.chunks)
    requires g in Contents(b) && Locate(b.ring, b.m[g]).Ok? && b.m[g].off / PAGE < |chunks|
    requires chunk == chunks[b.m[g].off / PAGE]
    requires from == Locate(b.ring, b.m[g]).value.1 + 4 +
                     KeyLen(Locate(b.ring, b.m[g]).value.0, Locate(b.ring, b.m[g]).value.1)
    requires g in Contents(o.State()) && o.State().m[g] == b.m[g]
    requires Contents(o.State())[g].0 == Contents(b)[g].0
    ensures Holds(o, g, chunk, from, Contents(o.State())[g].1)
  {
    PlaceKept(b, o.State(), g);
    assert g in o.m && CacheWords.Unpack(o.m[g]) == b.m[g];
    SliceShows(o, g, chunk, from);
  }

  /** A store under another hash leaves the slice and its bytes alone exactly as long as the head has not
      passed its record. */
  method SetBeside(o: BucketObject.Bucket, k: bytes, v: bytes, h: Hash, onEvict: bool,
                   g: Hash, chunk: array<byte>, from: nat, ghost was: bytes)
    requires o.Valid() && Holds(o, g, chunk, from, was) && g != h
    requires g in Contents(o.State()) && was == Contents(o.State())[g].1
    modifies o, o.pages
    ensures o.Valid()
    ensures g in Contents(o.State()) <==>
            WriteError(k, v).Err? || g in CacheLayout.Retained(old(o.State()), RecordSize(k, v))
    ensures g in Contents(o.State()) ==> Holds(o, g, chunk, from, was)
  {
    ghost var b, chunks := o.State(), o.chunks;
    var r, evicted, page := o.SetLocked(k, v, h, onEvict);
    SetLeaves(b, k, v, h, page, g);
    if g in Contents(o.State()) { StillHolds(o, b, chunks, g, chunk, from); }
  }

  /** An update in place of another key leaves it alone too; one of the same key writes through it. */
  method RewriteBeside(o: BucketObject.Bucket, h: Hash, chunk': array<byte>, from': nat, v: bytes,
                       g: Hash, chunk: array<byte>, from: nat, ghost was: bytes)
    requires o.Valid() && Holds(o, g, chunk, from, was) && g in Contents(o.State()) && was == Contents(o.State())[g].1
    requires h in o.m && o.ValueSlice(o.m[h], chunk', from')
    requires h in Contents(o.State()) && |v| == |Contents(o.State())[h].1|
    modifies chunk'
    ensures o.Valid() && Holds(o, g, chunk, from, if h == g then v else was)
  {
    ghost var b, chunks := o.State(), o.chunks;
    WriteLeaves(b, h, v, g);
    o.Rewrite(h, chunk', from', v);
    StillHolds(o, b, chunks, g, chunk, from);
  }

  lemma WriteLeaves(b: Bucket, h: Hash, v: bytes, g: Hash)
    requires Valid(b) && g in Contents(b) && h in Contents(b) && |v| == |Contents(b)[h].1|
    ensures var c := Contents(b.(ring := WriteThrough(b.ring, b.m[h], v)));
            g in c && c[g] == (Contents(b)[g].0, if h == g then v else Contents(b)[g].1)
  {
    CacheLayout.WriteThroughEffect(b, h, v);
  }
}
