/** The bucket as the mutable object it is: arrays overwritten in place, a map of packed
    words, an offset and a wrapping generation counter. Every method is tied to the value
    model of CacheBucket through State(). */
module BucketObject {
  import opened CacheBucket
  import opened CacheWords
  import CacheLayout

  /** Appending into the spare capacity of a slice. */
  method CopyInto(a: array<byte>, at: nat, s: bytes)
    requires a.Length == PAGE && at + |s| <= PAGE
    modifies a
    ensures a[..] == Splice(old(a[..]), at, s)
  {
    var j := 0;
    while j < |s|
      invariant j <= |s|
      invariant forall i :: 0 <= i < PAGE ==>
                  a[i] == if at <= i < at + j then s[i - at] else old(a[i])
    {
      a[at + j] := s[j];
      j := j + 1;
    }
  }

  lemma SpliceTwice(d: Page, at: nat, s: bytes, t: bytes)
    requires at + |s| + |t| <= PAGE
    ensures Splice(Splice(d, at, s), at + |s|, t) == Splice(d, at, s + t)
  {
    var l, r := Splice(Splice(d, at, s), at + |s|, t), Splice(d, at, s + t);
    assert |l| == |r| == PAGE;
    assert forall i :: 0 <= i < PAGE ==> l[i] == r[i];
  }

  /** The three appends of setLocked: header, key, value. */
  method AppendTo(chunk: array<byte>, o: nat, k: bytes, v: bytes)
    requires chunk.Length == PAGE && WriteError(k, v).Ok? && o + 4 + |k| + |v| < PAGE
    modifies chunk
    ensures chunk[..] == Splice(old(chunk[..]), o, Encode(k, v))
  {
    ghost var d := chunk[..];
    CopyInto(chunk, o, Header(k, v));
    CopyInto(chunk, o + 4, k);
    SpliceTwice(d, o, Header(k, v), k);
    CopyInto(chunk, o + 4 + |k|, v);
    SpliceTwice(d, o, Header(k, v) + k, v);
  }

  /** Cutting a record out of its page: key, value, and where the value starts. */
  method Cut(chunk: array<byte>, o: nat) returns (k: bytes, v: bytes, from: nat)
    requires chunk.Length == PAGE && Bounded(chunk[..], o)
    ensures k == KeyAt(chunk[..], o) && v == ValAt(chunk[..], o)
    ensures from == o + 4 + KeyLen(chunk[..], o)
  {
    var keyLen, valLen := chunk[o] as int * 256 + chunk[o + 1], chunk[o + 2] as int * 256 + chunk[o + 3];
    from := o + 4 + keyLen;
    k, v := chunk[o + 4..from], chunk[from..from + valLen];
  }

  /** Chunks in use are never replaced. */
  ghost predicate Stays(a: seq<array?<byte>>, b: seq<array?<byte>>) {
    |a| == |b| && forall j :: 0 <= j < |a| && a[j] != null ==> b[j] == a[j]
  }

  class Bucket {
    var chunks: seq<array?<byte>>
    var lens: seq<nat>
    var m: map<Hash, nat>
    var idx: nat
    var gen: nat

    constructor ()
      ensures chunks == [] && pages == {}
    {
      chunks, lens, m, idx, gen, pages := [], [], map[], 0, 0, {};
    }

    /** The arrays in use. */
    ghost var pages: set<array<byte>>

    /** Chunks are private to the bucket and to their slot. */
    ghost predicate Shaped()
      reads this`chunks, this`lens, this`pages
    {
      && |lens| == |chunks|
      && (forall i :: 0 <= i < |chunks| && chunks[i] != null ==> chunks[i].Length == PAGE && chunks[i] in pages)
      && (forall i, j :: 0 <= i < j < |chunks| && chunks[i] != null ==> chunks[i] != chunks[j])
    }

    ghost function ChunkAt(i: nat): CacheBucket.Chunk
      requires Shaped() && i < |chunks|
      reads this`chunks, this`lens, this`pages, pages
    {
      if chunks[i] == null then Absent else CacheBucket.Chunk(chunks[i][..], lens[i])
    }

    ghost function Chunks(n: nat): (r: seq<CacheBucket.Chunk>)
      requires Shaped() && n <= |chunks|
      reads this`chunks, this`lens, this`pages, pages
      ensures |r| == n && forall j :: 0 <= j < n ==> r[j] == ChunkAt(j)
    {
      if n == 0 then [] else Chunks(n - 1) + [ChunkAt(n - 1)]
    }

    ghost function Ring(): CacheBucket.Ring
      requires Shaped()
      reads this`chunks, this`lens, this`pages, this`idx, this`gen, pages
    {
      CacheBucket.Ring(Chunks(|chunks|), idx, Low24(gen))
    }

    ghost function Index(): map<Hash, Entry>
      reads this`m
    {
      Unpacked(m)
    }

    ghost function State(): CacheBucket.Bucket
      requires Shaped()
      reads this, pages
    {
      CacheBucket.Bucket(Ring(), Index())
    }

    ghost predicate Valid()
      reads this, pages
    {
      && Shaped()
      && gen < WORD
      && (forall h :: h in m ==> 0 < m[h] < WORD)
      && CacheBucket.Valid(State())
    }

    /** The generation-and-offset test. */
    method Accepts(w: nat) returns (ok: bool)
      requires Shaped()
      ensures ok <==> CacheBucket.Fresh(Ring(), Unpack(w))
    {
      var e, cur := Unpack(w), Low24(gen);
      ok := (e.gen == cur && e.off < idx) || (e.gen + 1 == cur && e.off >= idx)
            || (e.gen == MAX_GEN && cur == 1 && e.off >= idx);
    }

    /** The part common to readItem and getLocked: validation, bounds, header. */
    method Locate(w: nat) returns (r: Result<(array<byte>, nat)>)
      requires Shaped()
      ensures var at := CacheBucket.Locate(Ring(), Unpack(w));
              && (r.Err? <==> at.Err?) && (r.Err? ==> r.error == at.error)
              && (r.Ok? ==> && Unpack(w).off / PAGE < |chunks| && r.value.0 == chunks[Unpack(w).off / PAGE]
                            && r.value.0.Length == PAGE && at.value == (r.value.0[..], r.value.1))
    {
      var e := Unpack(w);
      var accepted := Accepts(w);
      if !accepted { return Err(NoData); }
      var c, o := e.off / PAGE, e.off % PAGE;
      if c >= |chunks| { return Err(Corrupted); }
      if o + 4 >= PAGE { return Err(Corrupted); }
      var chunk := chunks[c];
      assert Ring().chunks[c] == ChunkAt(c);
      if chunk == null { return Err(Panic); }
      var keyLen, valLen := chunk[o] as int * 256 + chunk[o + 1], chunk[o + 2] as int * 256 + chunk[o + 3];
      if o + 4 + keyLen + valLen >= PAGE { return Err(Corrupted); }
      return Ok((chunk, o));
    }

    method ReadItem(w: nat) returns (r: Result<Item>)
      requires Shaped()
      ensures r == CacheBucket.ReadItem(Ring(), Unpack(w))
    {
      var at := Locate(w);
      if at.Err? { return Err(at.error); }
      var k, v, _ := Cut(at.value.0, at.value.1);
      return Ok((k, v));
    }

    /** Where the value of a located word lies in the array itself. */
    ghost predicate ValueSlice(w: nat, chunk: array<byte>, from: nat)
      requires Shaped()
      reads this`chunks, this`lens, this`pages, this`idx, this`gen, pages
    {
      var at := CacheBucket.Locate(Ring(), Unpack(w));
      && at.Ok? && Unpack(w).off / PAGE < |chunks| && chunk == chunks[Unpack(w).off / PAGE]
      && from == at.value.1 + 4 + KeyLen(at.value.0, at.value.1)
    }

    /** With the value comes the slice itself, for a caller that asked for no copy. */
    method GetLocked(k: bytes, h: Hash) returns (r: Result<bytes>, chunk: array?<byte>, from: nat)
      requires Shaped() && (forall g :: g in m ==> 0 < m[g])
      ensures r == CacheBucket.GetLocked(State(), k, h)
      ensures r.Ok? ==> h in m && chunk != null && ValueSlice(m[h], chunk, from)
    {
      chunk, from := null, 0;
      r := Err(NoData);
      var w := if h in m then m[h] else 0;
      if w != 0 {
        assert CacheBucket.GetLocked(State(), k, h) == Matched(CacheBucket.Locate(Ring(), Unpack(w)), k);
        r, chunk, from := GetAt(k, w);
      }
    }

    method GetAt(k: bytes, w: nat) returns (r: Result<bytes>, chunk: array?<byte>, from: nat)
      requires Shaped()
      ensures r == Matched(CacheBucket.Locate(Ring(), Unpack(w)), k)
      ensures r.Ok? ==> chunk != null && ValueSlice(w, chunk, from)
    {
      chunk, from := null, 0;
      var at := Locate(w);
      if at.Err? { return Err(at.error), chunk, from; }
      var key, val;
      chunk := at.value.0;
      key, val, from := Cut(chunk, at.value.1);
      r := if k == key then Ok(val) else Err(NoData);
    }

    /** The counter step at a wrap. */
    method NewGeneration()
      requires gen < WORD && Low24(gen) != 0
      modifies this`gen
      ensures gen < WORD && Low24(gen) == NextGen(old(Low24(gen)))
    {
      GenCycle(gen);
      gen := (gen + 1) % WORD;
      if Low24(gen) == 0 { gen := (gen + 1) % WORD; }
    }

    /** The chunk of offset i is as in ring r up to that offset and has room for n bytes; the others are as in r. */
    ghost predicate Placed(r: CacheBucket.Ring, i: nat, n: nat)
      requires Shaped()
      reads this`chunks, this`lens, this`pages, pages
    {
      && |chunks| == |r.chunks| && i / PAGE < |chunks| && i % PAGE + n < PAGE
      && (if chunks[i / PAGE] == null then i % PAGE == 0 else lens[i / PAGE] == i % PAGE)
      && (forall j :: 0 <= j < |chunks| && j != i / PAGE ==> ChunkAt(j) == r.chunks[j])
      && (r.chunks[i / PAGE].Absent? <==> chunks[i / PAGE] == null)
      && (chunks[i / PAGE] != null ==> chunks[i / PAGE][..] == r.chunks[i / PAGE].data)
    }

    /** Picks the place of the next record and moves the head there: the same chunk, the next
        chunk, or chunk 0 of a new generation. */
    method Place(n: nat) returns (i: nat, wrapped: bool)
      requires Shaped() && gen < WORD && HeadValid(Ring()) && 4 <= n < PAGE
      modifies this`lens, this`gen
      ensures Shaped() && i == Placement(old(Ring()), n) && wrapped == Wraps(old(Ring()), n)
      ensures Placed(old(Ring()), i, n)
      ensures gen < WORD && Low24(gen) != 0 && i < OFFSET_SPAN
      ensures Low24(gen) == if wrapped then NextGen(old(Ring()).gen) else old(Ring()).gen
    {
      ghost var r := Ring();
      PlacementFits(r, n);
      i, wrapped := idx, false;
      var c, c' := idx / PAGE, (idx + n) / PAGE;
      if c' > c {
        if c' >= |chunks| {
          i, c := 0, 0;
          NewGeneration();
          wrapped := true;
        } else {
          i, c := c' * PAGE, c';
        }
        Rewind(c, n, r);
      } else {
        AtHead(n, r);
      }
    }

    /** The chunk is written again from its start. */
    method Rewind(c: nat, n: nat, ghost r: CacheBucket.Ring)
      requires Shaped() && c < |chunks| && r.chunks == Chunks(|chunks|) && n < PAGE
      modifies this`lens
      ensures Shaped() && Placed(r, c * PAGE, n)
    {
      assert forall j :: 0 <= j < |chunks| ==> r.chunks[j] == ChunkAt(j);
      assert c * PAGE / PAGE == c && c * PAGE % PAGE == 0;
      lens := lens[c := 0];
    }

    lemma AtHead(n: nat, r: CacheBucket.Ring)
      requires Shaped() && r == Ring() && HeadValid(r) && (idx + n) / PAGE == idx / PAGE
      ensures Placed(r, idx, n)
    {
      assert forall j :: 0 <= j < |chunks| ==> r.chunks[j] == ChunkAt(j);
    }

    /** Appends header, key and value to chunk c behind its first `o` bytes. */
    method Append(c: nat, o: nat, k: bytes, v: bytes) returns (ghost page: Page)
      requires Shaped() && c < |chunks| && WriteError(k, v).Ok? && o + 4 + |k| + |v| < PAGE
      requires chunks[c] == null ==> o == 0
      modifies this`chunks, this`lens, this`pages, chunks[c]
      ensures Shaped() && fresh(pages - old(pages)) && Stays(old(chunks), chunks)
      ensures forall j :: 0 <= j < |chunks| && j != c ==> ChunkAt(j) == old(ChunkAt(j))
      ensures var base := if old(chunks[c]) == null then page else old(chunks[c][..]);
              ChunkAt(c) == CacheBucket.Chunk(Splice(base, o, Encode(k, v)), o + |Encode(k, v)|)
    {
      var chunk := chunks[c];
      if chunk == null { chunk := new byte[PAGE]; }
      page := chunk[..];
      AppendTo(chunk, o, k, v);
      chunks := chunks[c := chunk];
      pages := pages + {chunk};
      lens := lens[c := o + 4 + |k| + |v|];
    }

    /** The ring, field by field, after n bytes of record went to offset i of ring r. */
    ghost predicate Received(r: CacheBucket.Ring, rec: bytes, page: Page, i: nat)
      requires Shaped() && i / PAGE < |r.chunks| && i % PAGE + |rec| <= PAGE
      reads this`chunks, this`lens, this`pages, this`idx, this`gen, pages
    {
      && |chunks| == |r.chunks| && idx == i + |rec|
      && Low24(gen) == (if Wraps(r, |rec|) then NextGen(r.gen) else r.gen)
      && (forall j :: 0 <= j < |chunks| && j != i / PAGE ==> ChunkAt(j) == r.chunks[j])
      && var base := if r.chunks[i / PAGE].Absent? then page else r.chunks[i / PAGE].data;
         ChunkAt(i / PAGE) == CacheBucket.Chunk(Splice(base, i % PAGE, rec), i % PAGE + |rec|)
    }

    /** The head stands at offset i of what was ring r: the record goes there. */
    method AppendAt(i: nat, k: bytes, v: bytes, ghost r: CacheBucket.Ring) returns (ghost page: Page)
      requires Shaped() && WriteError(k, v).Ok? && Placed(r, i, 4 + |k| + |v|)
      requires Low24(gen) == if Wraps(r, |Encode(k, v)|) then NextGen(r.gen) else r.gen
      modifies this`chunks, this`lens, this`pages, this`idx, pages
      ensures Shaped() && fresh(pages - old(pages)) && Stays(old(chunks), chunks)
      ensures Received(r, Encode(k, v), page, i)
    {
      var c := i / PAGE;
      page := Append(c, if chunks[c] == null then 0 else lens[c], k, v);
      idx := i + 4 + |k| + |v|;
    }

    method AppendRecord(k: bytes, v: bytes) returns (i: nat, wrapped: bool, ghost page: Page)
      requires Shaped() && gen < WORD && HeadValid(Ring()) && WriteError(k, v).Ok?
      modifies this`chunks, this`lens, this`pages, this`gen, this`idx, pages
      ensures Shaped() && gen < WORD && fresh(pages - old(pages)) && Stays(old(chunks), chunks)
      ensures var n := 4 + |k| + |v|;
              i == Placement(old(Ring()), n) && wrapped == Wraps(old(Ring()), n) && i % PAGE + n < PAGE
      ensures i / PAGE < |old(Ring()).chunks| && i < OFFSET_SPAN && Low24(gen) != 0
      ensures Received(old(Ring()), Encode(k, v), page, i)
    {
      ghost var r := Ring();
      i, wrapped := Place(4 + |k| + |v|);
      page := AppendAt(i, k, v, r);
    }

    method AppendToRing(k: bytes, v: bytes) returns (i: nat, wrapped: bool, ghost page: Page)
      requires Shaped() && gen < WORD && HeadValid(Ring()) && WriteError(k, v).Ok?
      modifies this`chunks, this`lens, this`pages, this`gen, this`idx, pages
      ensures Shaped() && gen < WORD && fresh(pages - old(pages)) && Stays(old(chunks), chunks)
      ensures i == Placement(old(Ring()), |Encode(k, v)|) && wrapped == Wraps(old(Ring()), |Encode(k, v)|)
      ensures i < OFFSET_SPAN && Low24(gen) != 0 && Ring() == Appended(old(Ring()), Encode(k, v), page)
    {
      ghost var r := Ring();
      i, wrapped, page := AppendRecord(k, v);
      RingIs(r, Encode(k, v), page, i);
    }

    lemma RingIs(r: CacheBucket.Ring, rec: bytes, page: Page, i: nat)
      requires Shaped() && HeadValid(r) && 4 <= |rec| < PAGE && i == Placement(r, |rec|)
      requires i / PAGE < |r.chunks| && i % PAGE + |rec| <= PAGE && Received(r, rec, page, i)
      ensures Ring() == Appended(r, rec, page)
    {
      AppendedIs(r, rec, page, Ring());
    }

    /** The first loop of cleanLocked: split the index into what is kept and what is dropped. */
    static method Sift(m: map<Hash, nat>, idx: nat, cur: nat, onEvict: bool)
      returns (kept: map<Hash, nat>, dead: set<nat>)
      ensures kept == Sifted(idx, cur, m)
      ensures forall w :: w in dead ==> !Keeps(idx, cur, w)
    {
      kept, dead := map[], {};
      var todo := m.Keys;
      while todo != {}
        invariant todo <= m.Keys
        invariant kept == map h | h in m && h !in todo && Keeps(idx, cur, m[h]) :: m[h]
        invariant forall w :: w in dead ==> !Keeps(idx, cur, w)
        decreases todo
      {
        var h :| h in todo;
        todo := todo - {h};
        if Keeps(idx, cur, m[h]) {
          kept := kept[h := m[h]];
        } else if onEvict {
          dead := dead + {m[h]};
        }
      }
    }

    /** The second loop: read back what was dropped. */
    method ReadBack(words: set<nat>) returns (items: seq<Item>)
      requires Shaped()
      ensures (forall w :: w in words ==> CacheBucket.ReadItem(Ring(), Unpack(w)).Err?) ==> items == []
    {
      items := [];
      var todo := words;
      while todo != {}
        invariant todo <= words
        invariant (forall w :: w in words ==> CacheBucket.ReadItem(Ring(), Unpack(w)).Err?) ==> items == []
        decreases todo
      {
        var w :| w in todo;
        todo := todo - {w};
        var item := ReadItem(w);
        if item.Ok? { items := items + [item.value]; }
      }
    }

    /** Whatever the words dropped, reading them back yields nothing. */
    method Evict(words: set<nat>) returns (items: seq<Item>)
      requires Shaped() && forall w :: w in words ==> !Keeps(idx, Low24(gen), w)
      ensures items == []
    {
      items := ReadBack(words);
      forall w | w in words ensures CacheBucket.ReadItem(Ring(), Unpack(w)) == Err(NoData) {
        KeepsIsFresh(Ring(), w);
      }
    }

    method CleanLocked(onEvict: bool) returns (evicted: seq<Item>)
      requires Shaped()
      modifies this`m
      ensures Index() == Clean(Ring(), old(Index()))
      ensures m.Keys <= old(m.Keys) && forall h :: h in m ==> m[h] == old(m[h])
      ensures evicted == []
    {
      var kept, dead := Sift(m, idx, Low24(gen), onEvict);
      evicted := [];
      if onEvict && dead != {} { evicted := Evict(dead); }
      SiftedIsAccepted(Ring(), m);
      assert Unpacked(kept) == map[] <==> kept == map[] by {
        assert forall h :: h in kept <==> h in Unpacked(kept);
      }
      if kept != map[] { m := kept; }
    }

    /** The offset and the generation packed into one word under the hash. */
    method PutWord(h: Hash, i: nat)
      requires i < OFFSET_SPAN && gen < WORD && Low24(gen) != 0
      requires forall g :: g in m ==> 0 < m[g] < WORD
      modifies this`m
      ensures forall g :: g in m ==> 0 < m[g] < WORD
      ensures Index() == old(Index())[h := Entry(Low24(gen), i)]
    {
      PackExact(i, gen);
      m := m[h := Pack(i, gen)];
    }

    /** Indexing the record just appended, and cleaning when the ring wrapped. */
    method PutIndex(h: Hash, i: nat, wrapped: bool, onEvict: bool) returns (evicted: seq<Item>)
      requires Shaped() && i < OFFSET_SPAN && gen < WORD && Low24(gen) != 0
      requires forall g :: g in m ==> 0 < m[g] < WORD
      modifies this`m
      ensures forall g :: g in m ==> 0 < m[g] < WORD
      ensures var m1 := old(Index())[h := Entry(Low24(gen), i)];
              Index() == if wrapped then Clean(Ring(), m1) else m1
      ensures evicted == []
    {
      evicted := [];
      PutWord(h, i);
      if wrapped { evicted := CleanLocked(onEvict); }
    }

    /** The writing half of setLocked, once the lengths have been accepted. */
    method Store(k: bytes, v: bytes, h: Hash, onEvict: bool) returns (evicted: seq<Item>, ghost page: Page)
      requires Shaped() && gen < WORD && HeadValid(Ring()) && WriteError(k, v).Ok?
      requires forall g :: g in m ==> 0 < m[g] < WORD
      modifies this, pages
      ensures Shaped() && gen < WORD && fresh(pages - old(pages)) && Stays(old(chunks), chunks)
      ensures forall g :: g in m ==> 0 < m[g] < WORD
      ensures State() == CacheBucket.SetLocked(old(State()), k, v, h, page).value
      ensures evicted == []
    {
      ghost var b := State();
      var i, wrapped;
      i, wrapped, page := AppendToRing(k, v);
      evicted := PutIndex(h, i, wrapped, onEvict);
      SetLockedIs(b, k, v, h, page, State());
    }

    method SetLocked(k: bytes, v: bytes, h: Hash, onEvict: bool)
      returns (r: Result<()>, evicted: seq<Item>, ghost page: Page)
      requires Valid()
      modifies this, pages
      ensures Valid() && fresh(pages - old(pages)) && Stays(old(chunks), chunks)
      ensures (State(), r) == CacheBucket.Set(old(State()), k, v, h, page)
      ensures evicted == []
    {
      page, evicted := seq(PAGE, _ => 0), [];
      if |k| >= MAX_LEN { return Err(KeyTooBig), evicted, page; }
      if |v| >= MAX_LEN { return Err(ValTooBig), evicted, page; }
      if 4 + |k| + |v| >= PAGE { return Err(PairTooBig), evicted, page; }
      ghost var b := State();
      evicted, page := Store(k, v, h, onEvict);
      CacheLayout.SetEffect(b, k, v, h, page);
      r := Ok(());
    }

    method Get(k: bytes, h: Hash) returns (r: Result<bytes>)
      requires Valid()
      ensures r == CacheBucket.GetLocked(State(), k, h)
    {
      var chunk, from;
      r, chunk, from := GetLocked(k, h);
    }

    method Del(h: Hash)
      requires Valid()
      modifies this`m
      ensures Valid() && State() == old(State()).(m := old(State()).m - {h})
    {
      CacheLayout.DelEffect(State(), h);
      m := m - {h};
      assert Index() == old(Index()) - {h};
    }

    /** A write through the slice that getLocked handed out. */
    method WriteSlice(h: Hash, chunk: array<byte>, from: nat, v: bytes)
      requires Shaped() && h in m && ValueSlice(m[h], chunk, from)
      requires |v| == |CacheBucket.ReadItem(Ring(), Unpack(m[h])).value.1|
      modifies chunk
      ensures Shaped() && Ring() == WriteThrough(old(Ring()), Unpack(m[h]), v)
    {
      ghost var r, c := Ring(), Unpack(m[h]).off / PAGE;
      assert r.chunks[c] == ChunkAt(c);
      CopyInto(chunk, from, v);
      forall j | 0 <= j < |chunks| && j != c ensures Ring().chunks[j] == r.chunks[j] {
        assert chunks[j] != chunk && ChunkAt(j) == old(ChunkAt(j));
      }
      assert Ring().chunks[c] == ChunkAt(c);
      WriteThroughIs(r, Unpack(m[h]), v, from, Ring());
    }

    /** Such a write keeps the bucket whole. */
    method Rewrite(h: Hash, chunk: array<byte>, from: nat, v: bytes)
      requires Valid() && h in m && ValueSlice(m[h], chunk, from)
      requires h in Contents(State()) && |v| == |Contents(State())[h].1|
      modifies chunk
      ensures Valid() && State() == old(State()).(ring := WriteThrough(old(Ring()), Unpack(m[h]), v))
    {
      CacheLayout.WriteThroughEffect(State(), h, v);
      WriteSlice(h, chunk, from, v);
    }

    /** Running the mutator on the uncopied value: its writes land in the chunk. */
    method Mutate(k: bytes, h: Hash, f: Mutator, v: bytes, chunk: array<byte>, from: nat)
      requires Valid() && Lawful(f) && h in m && ValueSlice(m[h], chunk, from)
      requires CacheBucket.GetLocked(State(), k, h) == Ok(v)
      modifies chunk
      ensures Valid() && State() == Mutated(old(State()), k, h, f)
    {
      CacheLayout.GetReadsContents(State(), k, h);
      Rewrite(h, chunk, from, f(v).inPlace);
    }

    /** What Update does with the mutator's answer. */
    method Conclude(k: bytes, h: Hash, mu: Mutation, found: bool, onEvict: bool)
      returns (r: Result<()>, ghost page: Page)
      requires Valid()
      modifies this, pages
      ensures Valid() && fresh(pages - old(pages))
      ensures (State(), r) == Concluded(old(State()), k, h, mu, found, page)
    {
      page := seq(PAGE, _ => 0);
      if mu.failed { return Err(Callback), page; }
      if mu.store {
        var evicted;
        r, evicted, page := SetLocked(k, mu.out, h, onEvict);
        return r, page;
      }
      return if found then Ok(()) else Err(NoData), page;
    }

    /** Lookup without copying, and the mutator run on what it found. */
    method LookupMutate(k: bytes, h: Hash, f: Mutator) returns (got: Result<bytes>)
      requires Valid() && Lawful(f)
      modifies pages
      ensures Valid() && got == CacheBucket.GetLocked(old(State()), k, h)
      ensures State() == Mutated(old(State()), k, h, f)
    {
      var chunk, from;
      got, chunk, from := GetLocked(k, h);
      if got.Ok? { Mutate(k, h, f, got.value, chunk, from); }
    }

    method Update(k: bytes, h: Hash, f: Mutator, onEvict: bool) returns (r: Result<()>, ghost page: Page)
      requires Valid() && Lawful(f)
      modifies this, pages
      ensures Valid() && fresh(pages - old(pages))
      ensures (State(), r) == CacheBucket.Update(old(State()), k, h, f, page)
    {
      page := seq(PAGE, _ => 0);
      var got := LookupMutate(k, h, f);
      r := match got case Ok(_) => Ok(()) case Err(e) => Err(e);
      if got.Ok? || got == Err(NoData) {
        r, page := Conclude(k, h, f(if got.Ok? then got.value else []), got.Ok?, onEvict);
      }
    }

    method GetSet(k: bytes, h: Hash, provided: Result<bytes>, onEvict: bool)
      returns (r: Result<bytes>, ghost page: Page)
      requires Valid()
      modifies this, pages
      ensures Valid() && fresh(pages - old(pages))
      ensures (State(), r) == CacheBucket.GetSet(old(State()), k, h, provided, page)
    {
      page := seq(PAGE, _ => 0);
      var chunk, from;
      r, chunk, from := GetLocked(k, h);
      if r == Err(NoData) {
        r := provided;
        if provided.Ok? {
          var done, evicted;
          done, evicted, page := SetLocked(k, provided.value, h, onEvict);
          if done.Err? { r := Err(done.error); }
        }
      }
    }

    /** The loop of Reset over the index. `order` lists the hashes in iteration order. */
    method HandOut(out: seq<Item>) returns (out': seq<Item>, ghost order: seq<Hash>)
      requires Shaped()
      ensures HandsOut(State(), order, out, out')
    {
      out', order := out, [];
      var todo := m.Keys;
      while todo != {}
        invariant todo <= m.Keys
        invariant HandsOutExcept(State(), todo, order, out, out')
        decreases todo
      {
        var h :| h in todo;
        var item := ReadItem(m[h]);
        HandsOutStep(State(), todo, h, order, out, out');
        if item.Ok? { out', order := out' + [item.value], order + [h]; }
        todo := todo - {h};
      }
    }

    /** Everything still readable is handed out, then the bucket is emptied. */
    method Reset(out: seq<Item>) returns (out': seq<Item>, ghost order: seq<Hash>)
      requires Valid()
      modifies this
      ensures Valid() && State() == Emptied(|old(State()).ring.chunks|) && pages == {}
      ensures HandsOut(old(State()), order, out, out')
    {
      out', order := HandOut(out);
      CacheLayout.EmptiedEffect(|chunks|);
      Clear(|chunks|);
    }

    /** The number of chunks is the least that covers maxBytes. */
    method Init(maxBytes: nat) returns (ok: bool)
      modifies this
      ensures ok <==> 0 < maxBytes < OFFSET_SPAN
      ensures ok ==> Valid() && Contents(State()) == map[] && pages == {}
      ensures ok ==> maxBytes <= Capacity(Ring()) < maxBytes + PAGE && Ring().idx == 0
    {
      if maxBytes == 0 || maxBytes >= OFFSET_SPAN { return false; }
      var n := (maxBytes + PAGE - 1) / PAGE;
      CacheLayout.EmptiedEffect(n);
      Clear(n);
      return true;
    }

    method Clear(n: nat)
      modifies this
      ensures Shaped() && State() == Emptied(n) && pages == {} && gen < WORD && m == map[]
    {
      chunks, lens, pages := seq(n, _ => null), seq(n, _ => 0), {};
      m, idx, gen := map[], 0, 1;
      StateIsEmptied(n);
    }

    lemma StateIsEmptied(n: nat)
      requires Shaped() && |chunks| == n && idx == 0 && gen == 1 && m == map[]
      requires forall j :: 0 <= j < n ==> chunks[j] == null
      ensures State() == Emptied(n)
    {
      assert Low24(gen) == 1 by { WordArith(gen); }
      assert forall j :: 0 <= j < n ==> Chunks(n)[j] == Absent;
      assert Chunks(n) == Emptied(n).ring.chunks;
      assert Index() == map[];
    }
  }

  lemma HandsOutStep(b: CacheBucket.Bucket, todo: set<Hash>, h: Hash, order: seq<Hash>, out: seq<Item>, out': seq<Item>)
    requires HandsOutExcept(b, todo, order, out, out') && h in todo && h in b.m
    ensures var item := CacheBucket.ReadItem(b.ring, b.m[h]);
            if item.Ok? then HandsOutExcept(b, todo - {h}, order + [h], out, out' + [item.value])
            else HandsOutExcept(b, todo - {h}, order, out, out')
  {
    assert h !in order;
    assert h in Contents(b) <==> CacheBucket.ReadItem(b.ring, b.m[h]).Ok?;
  }

  /** The items appended to `out` are the visible contents of b, each hash once. */
  ghost predicate HandsOut(b: CacheBucket.Bucket, order: seq<Hash>, out: seq<Item>, out': seq<Item>) {
    HandsOutExcept(b, {}, order, out, out')
  }

  ghost predicate HandsOutExcept(b: CacheBucket.Bucket, todo: set<Hash>, order: seq<Hash>, out: seq<Item>,
                                 out': seq<Item>) {
    && |out'| == |out| + |order| && out <= out'
    && (forall i, j :: 0 <= i < j < |order| ==> order[i] != order[j])
    && (forall h :: h in order <==> h in Contents(b) && h !in todo)
    && (forall i :: 0 <= i < |order| ==> out'[|out| + i] == Contents(b)[order[i]])
  }
}
