/** What every bucket operation keeps and what it does to the visible contents. */
module CacheLayout {
  import opened CacheBucket

  // ---- pages -----------------------------------------------------------------

  /** Reading back a record just written. */
  lemma EncodedReadsBack(d: Page, o: nat, k: bytes, v: bytes)
    requires WriteError(k, v).Ok? && o + 4 + |k| + |v| < PAGE
    ensures var d' := Splice(d, o, Encode(k, v));
            && Bounded(d', o) && KeyAt(d', o) == k && ValAt(d', o) == v
            && RecordLen(d', o) == 4 + |k| + |v|
  {
    var rec := Encode(k, v);
    var d' := Splice(d, o, rec);
    assert d'[o..o + |rec|] == rec;
    assert forall j :: 0 <= j < |rec| ==> d'[o + j] == rec[j];
    assert KeyLen(d', o) == |k| by {
      assert rec[0] == |k| / 256 && rec[1] == |k| % 256;
      assert d'[o] == rec[0] && d'[o + 1] == rec[1];
    }
    assert ValLen(d', o) == |v| by {
      assert rec[2] == |v| / 256 && rec[3] == |v| % 256;
      assert d'[o + 2] == rec[2] && d'[o + 3] == rec[3];
    }
    assert rec[4..4 + |k|] == k && rec[4 + |k|..] == v;
    assert KeyAt(d', o) == d'[o..o + |rec|][4..4 + |k|];
    assert ValAt(d', o) == d'[o..o + |rec|][4 + |k|..];
  }

  /** A write elsewhere in the page leaves a record as it was. */
  lemma SpliceElsewhere(d: Page, at: nat, s: bytes, o: nat)
    requires at + |s| <= PAGE && Bounded(d, o)
    requires o + RecordLen(d, o) <= at || at + |s| <= o
    ensures var d' := Splice(d, at, s);
            && Bounded(d', o) && RecordLen(d', o) == RecordLen(d, o)
            && KeyAt(d', o) == KeyAt(d, o) && ValAt(d', o) == ValAt(d, o)
  {
    var d' := Splice(d, at, s);
    var e := o + RecordLen(d, o);
    assert forall j :: o <= j < e ==> d'[j] == d[j];
    assert d'[o..e] == d[o..e];
    assert KeyLen(d', o) == KeyLen(d, o) && ValLen(d', o) == ValLen(d, o);
  }

  // ---- the moving head -------------------------------------------------------

  /** How far behind the write head an entry lies, counted around the ring. */
  function Lag(r: Ring, w: Entry): int {
    if w.gen == r.gen then r.idx - w.off else Capacity(r) + r.idx - w.off
  }

  /** How far a record of n bytes moves the head, skipped page tail included. */
  function Advance(r: Ring, n: nat): int {
    if Wraps(r, n) then Capacity(r) - r.idx + n else Placement(r, n) + n - r.idx
  }

  lemma AdvanceBound(r: Ring, n: nat)
    requires HeadValid(r) && 4 <= n < PAGE
    ensures n <= Advance(r, n) <= 2 * n
  {
  }

  predicate HeadMoved(r: Ring, r': Ring, n: nat) {
    && |r'.chunks| == |r.chunks|
    && r'.idx == Placement(r, n) + n
    && r'.gen == if Wraps(r, n) then NextGen(r.gen) else r.gen
  }

  /** An entry is accepted exactly while the head has not gone round past its start. */
  lemma FreshMeansLag(r: Ring, w: Entry)
    requires HeadValid(r) && EntryValid(r, w)
    ensures Fresh(r, w) <==> Lag(r, w) <= Capacity(r)
  {
  }

  lemma FreshAfterMove(r: Ring, r': Ring, n: nat, w: Entry)
    requires HeadValid(r) && 4 <= n < PAGE && HeadMoved(r, r', n) && EntryValid(r, w)
    ensures Fresh(r', w) <==> Fresh(r, w) && Lag(r, w) + Advance(r, n) <= Capacity(r)
    ensures Fresh(r', w) ==> Lag(r', w) == Lag(r, w) + Advance(r, n)
    ensures Fresh(r', w) ==> w.gen == r'.gen || w.gen == PrevGen(r'.gen)
    ensures Fresh(r', w) && w.gen == r'.gen ==> w.gen == r.gen && !Wraps(r, n)
    ensures Fresh(r', w) && w.gen != r'.gen ==> w.off >= r'.idx
  {
  }

  // ---- every read that passes validation is inside a written record ----------

  /** No corrupted-data exit, no slice out of range: a valid entry reads or reports no data. */
  lemma ReadTotal(r: Ring, w: Entry)
    requires EntryValid(r, w)
    ensures ReadItem(r, w).Ok? <==> Fresh(r, w)
    ensures ReadItem(r, w).Err? ==> ReadItem(r, w).error == NoData
  {
  }

  lemma ReadsTotal(r: Ring, m: map<Hash, Entry>)
    requires Indexed(r, m)
    ensures forall h :: h in m ==> (ReadItem(r, m[h]).Ok? <==> Fresh(r, m[h]))
  {
    forall h | h in m ensures ReadItem(r, m[h]).Ok? <==> Fresh(r, m[h]) { ReadTotal(r, m[h]); }
  }

  /** A lookup sees exactly the visible contents, compared by key. */
  lemma GetReadsContents(b: Bucket, k: bytes, h: Hash)
    requires Valid(b)
    ensures GetLocked(b, k, h) ==
            if h in Contents(b) && Contents(b)[h].0 == k then Ok(Contents(b)[h].1) else Err(NoData)
  {
    if h in b.m {
      assert EntryValid(b.ring, b.m[h]);
      ReadTotal(b.ring, b.m[h]);
    }
  }

  // ---- set -------------------------------------------------------------------

  lemma AppendedHead(r: Ring, rec: bytes, page: Page)
    requires HeadValid(r) && 4 <= |rec| < PAGE
    ensures HeadMoved(r, Appended(r, rec, page), |rec|) && HeadValid(Appended(r, rec, page))
  {
    PlacementFits(r, |rec|);
  }

  /** The page that receives the record, seen as one splice. */
  lemma AppendedPage(r: Ring, rec: bytes, page: Page)
    requires HeadValid(r) && 4 <= |rec| < PAGE
    ensures var i := Placement(r, |rec|);
            var chunk' := Appended(r, rec, page).chunks[i / PAGE];
            && i % PAGE + |rec| < PAGE && i / PAGE < |r.chunks| && chunk'.Chunk?
            && chunk'.data ==
               Splice(if r.chunks[i / PAGE].Absent? then page else r.chunks[i / PAGE].data, i % PAGE, rec)
  {
    PlacementFits(r, |rec|);
  }

  /** A word that denotes the record just written. */
  lemma NewEntry(r': Ring, k: bytes, v: bytes, base: Page, w: Entry)
    requires WriteError(k, v).Ok? && w.off < Capacity(r')
    requires w.gen == r'.gen && w.off + |Encode(k, v)| == r'.idx
    requires w.off % PAGE + |Encode(k, v)| < PAGE
    requires r'.chunks[w.off / PAGE].Chunk?
    requires r'.chunks[w.off / PAGE].data == Splice(base, w.off % PAGE, Encode(k, v))
    ensures EntryValid(r', w) && Fresh(r', w) && InPage(r', w) && EndOf(r', w) == r'.idx
    ensures ReadItem(r', w) == Ok((k, v))
  {
    EncodedReadsBack(base, w.off % PAGE, k, v);
  }

  lemma AppendedNew(r: Ring, k: bytes, v: bytes, page: Page)
    requires HeadValid(r) && WriteError(k, v).Ok?
    ensures var r' := Appended(r, Encode(k, v), page);
            var w := Entry(r'.gen, Placement(r, |Encode(k, v)|));
            && EntryValid(r', w) && Fresh(r', w) && InPage(r', w) && w.gen == r'.gen
            && w.off == Placement(r, |Encode(k, v)|) && EndOf(r', w) == r'.idx
            && ReadItem(r', w) == Ok((k, v))
  {
    var rec := Encode(k, v);
    var r' := Appended(r, rec, page);
    var i := Placement(r, |rec|);
    AppendedHead(r, rec, page);
    AppendedPage(r, rec, page);
    NewEntry(r', k, v, if r.chunks[i / PAGE].Absent? then page else r.chunks[i / PAGE].data, Entry(r'.gen, i));
  }

  /** A record that stays fresh lies wholly before or wholly after the bytes written. */
  lemma SpanClear(r: Ring, r': Ring, n: nat, w: Entry)
    requires HeadValid(r) && 4 <= n < PAGE && HeadMoved(r, r', n)
    requires EntryValid(r, w) && Fresh(r', w)
    ensures InPage(r, w)
    ensures EndOf(r, w) <= Placement(r, n) || Placement(r, n) + n <= w.off
    ensures w.gen == r'.gen ==> EndOf(r, w) <= r'.idx && w.off < r'.idx
    ensures w.gen == r'.gen || w.gen == PrevGen(r'.gen)
  {
    FreshAfterMove(r, r', n, w);
  }

  /** Records in a page spliced at `at` outside their span read the same. */
  lemma PageKeeps(r: Ring, r': Ring, w: Entry, at: nat, s: bytes)
    requires InPage(r, w) && |r'.chunks| == |r.chunks|
    requires at / PAGE < |r.chunks| && at % PAGE + |s| <= PAGE
    requires EndOf(r, w) <= at || at + |s| <= w.off
    requires forall c :: 0 <= c < |r.chunks| && c != at / PAGE ==> r'.chunks[c] == r.chunks[c]
    requires r.chunks[at / PAGE].Chunk? ==>
             r'.chunks[at / PAGE].Chunk? && r'.chunks[at / PAGE].data == Splice(r.chunks[at / PAGE].data, at % PAGE, s)
    ensures InPage(r', w) && EndOf(r', w) == EndOf(r, w)
    ensures Fresh(r, w) && Fresh(r', w) ==> ReadItem(r', w) == ReadItem(r, w)
  {
    var c := w.off / PAGE;
    if c == at / PAGE {
      SpliceElsewhere(r.chunks[c].data, at % PAGE, s, w.off % PAGE);
    }
  }

  /** What a write leaves alone: an entry still fresh reads as before and clears the new span. */
  predicate Untouched(r: Ring, r': Ring, n: nat, w: Entry) {
    && InPage(r, w) && InPage(r', w) && EndOf(r', w) == EndOf(r, w)
    && EntryValid(r', w) && Fresh(r, w) && ReadItem(r', w) == ReadItem(r, w)
    && (EndOf(r', w) <= Placement(r, n) || r'.idx <= w.off)
  }

  lemma AppendedKeeps(r: Ring, rec: bytes, page: Page, w: Entry)
    requires HeadValid(r) && 4 <= |rec| < PAGE && EntryValid(r, w)
    requires Fresh(Appended(r, rec, page), w)
    ensures Untouched(r, Appended(r, rec, page), |rec|, w)
  {
    var r' := Appended(r, rec, page);
    var i := Placement(r, |rec|);
    AppendedHead(r, rec, page);
    PlacementFits(r, |rec|);
    SpanClear(r, r', |rec|, w);
    FreshAfterMove(r, r', |rec|, w);
    PageKeeps(r, r', w, i, rec);
  }

  /** What is left of the contents once the head has moved over n more bytes. */
  ghost function Retained(b: Bucket, n: nat): map<Hash, Item> {
    map g | g in Contents(b) && Lag(b.ring, b.m[g]) + Advance(b.ring, n) <= Capacity(b.ring) :: Contents(b)[g]
  }

  /** How a write splits the old entries: those still fresh are untouched, the others unreadable. */
  lemma AppendedOld(b: Bucket, rec: bytes, page: Page, g: Hash)
    requires Valid(b) && 4 <= |rec| < PAGE && g in b.m
    ensures var r' := Appended(b.ring, rec, page);
            && (Fresh(r', b.m[g]) <==> g in Retained(b, |rec|))
            && (Fresh(r', b.m[g]) ==> Untouched(b.ring, r', |rec|, b.m[g]))
            && (!Wraps(b.ring, |rec|) ==> EntryValid(r', b.m[g]))
  {
    var r' := Appended(b.ring, rec, page);
    var w := b.m[g];
    assert EntryValid(b.ring, w);
    ReadTotal(b.ring, w);
    AppendedHead(b.ring, rec, page);
    FreshAfterMove(b.ring, r', |rec|, w);
    if Fresh(r', w) { AppendedKeeps(b.ring, rec, page, w); }
  }

  /** An index m' over a ring r' that keeps of m only entries the write left usable, plus h. */
  ghost predicate Reindexed(b: Bucket, r': Ring, m': map<Hash, Entry>, h: Hash, n: nat) {
    && h in m' && EntryValid(r', m'[h]) && Fresh(r', m'[h]) && InPage(r', m'[h])
    && m'[h].off == Placement(b.ring, n) && EndOf(r', m'[h]) == r'.idx
    && (forall g :: g in m' && g != h ==> g in b.m && m'[g] == b.m[g] && EntryValid(r', m'[g]))
    && (forall g :: g in m' && g != h && Fresh(r', m'[g]) ==> Untouched(b.ring, r', n, m'[g]))
  }

  lemma ReindexedValid(b: Bucket, r': Ring, m': map<Hash, Entry>, h: Hash, n: nat)
    requires Valid(b) && HeadValid(r') && Reindexed(b, r', m', h, n)
    ensures Valid(Bucket(r', m'))
  {
    forall g1, g2 | g1 in m' && g2 in m' && g1 != g2 && Fresh(r', m'[g1]) && Fresh(r', m'[g2])
      ensures Apart(r', m'[g1], m'[g2])
    {
      if g1 != h { assert Untouched(b.ring, r', n, m'[g1]); }
      if g2 != h { assert Untouched(b.ring, r', n, m'[g2]); }
      if g1 != h && g2 != h { assert Apart(b.ring, b.m[g1], b.m[g2]); }
    }
  }

  /** The index after setLocked: only the entries still fresh when it wrapped, all of them otherwise. */
  lemma SetIndex(b: Bucket, k: bytes, v: bytes, h: Hash, page: Page)
    requires HeadValid(b.ring) && WriteError(k, v).Ok?
    ensures var b' := SetLocked(b, k, v, h, page).value;
            var m := b.m[h := Entry(b'.ring.gen, Placement(b.ring, |Encode(k, v)|))];
            && b'.ring == Appended(b.ring, Encode(k, v), page)
            && b'.m == if Wraps(b.ring, |Encode(k, v)|) then Accepted(b'.ring, m) else m
  {
    var r' := Appended(b.ring, Encode(k, v), page);
    var m := b.m[h := Entry(r'.gen, Placement(b.ring, |Encode(k, v)|))];
    AppendedNew(b.ring, k, v, page);
    assert h in Accepted(r', m);
  }

  ghost predicate OldEntries(b: Bucket, r': Ring, n: nat) {
    && (forall g :: g in b.m ==> (Fresh(r', b.m[g]) <==> g in Retained(b, n)))
    && (forall g :: g in b.m && Fresh(r', b.m[g]) ==> Untouched(b.ring, r', n, b.m[g]))
    && (!Wraps(b.ring, n) ==> forall g :: g in b.m ==> EntryValid(r', b.m[g]))
  }

  lemma AppendedOlds(b: Bucket, rec: bytes, page: Page)
    requires Valid(b) && 4 <= |rec| < PAGE
    ensures OldEntries(b, Appended(b.ring, rec, page), |rec|)
  {
    forall g | g in b.m
      ensures Fresh(Appended(b.ring, rec, page), b.m[g]) <==> g in Retained(b, |rec|)
      ensures Fresh(Appended(b.ring, rec, page), b.m[g]) ==>
                Untouched(b.ring, Appended(b.ring, rec, page), |rec|, b.m[g])
      ensures !Wraps(b.ring, |rec|) ==> EntryValid(Appended(b.ring, rec, page), b.m[g])
    {
      AppendedOld(b, rec, page, g);
    }
  }

  lemma Reindex(b: Bucket, r': Ring, m: map<Hash, Entry>, m': map<Hash, Entry>, h: Hash, n: nat)
    requires OldEntries(b, r', n) && m.Keys == b.m.Keys + {h}
    requires forall g :: g in b.m && g != h ==> m[g] == b.m[g]
    requires EntryValid(r', m[h]) && Fresh(r', m[h]) && InPage(r', m[h])
    requires m[h].off == Placement(b.ring, n) && EndOf(r', m[h]) == r'.idx
    requires m' == if Wraps(b.ring, n) then Accepted(r', m) else m
    ensures Reindexed(b, r', m', h, n) && m'[h] == m[h]
  {
    assert forall g :: g in m' ==> g in m && m'[g] == m[g];
    forall g | g in m' && g != h
      ensures g in b.m && m'[g] == b.m[g] && EntryValid(r', m'[g])
      ensures Fresh(r', m'[g]) ==> Untouched(b.ring, r', n, m'[g])
    {
      assert g in b.m && m'[g] == b.m[g];
      if Wraps(b.ring, n) {
        assert Fresh(r', b.m[g]);
        assert Untouched(b.ring, r', n, b.m[g]);
      }
    }
  }

  lemma ReindexKeeps(b: Bucket, r': Ring, m: map<Hash, Entry>, m': map<Hash, Entry>, h: Hash, n: nat)
    requires OldEntries(b, r', n) && m.Keys == b.m.Keys + {h}
    requires forall g :: g in b.m && g != h ==> m[g] == b.m[g]
    requires m' == if Wraps(b.ring, n) then Accepted(r', m) else m
    ensures forall g :: g in b.m && g != h ==> (g in m' && Fresh(r', m'[g]) <==> g in Retained(b, n))
  {
    forall g | g in b.m && g != h ensures g in m' && Fresh(r', m'[g]) <==> g in Retained(b, n) {
      assert Fresh(r', b.m[g]) <==> g in Retained(b, n);
    }
  }

  /** setLocked keeps the layout, and its visible effect is exact: entries whose start the
      head went past are gone, every other one is unchanged, and h now denotes (k, v). */
  lemma SetEffect(b: Bucket, k: bytes, v: bytes, h: Hash, page: Page)
    requires Valid(b) && WriteError(k, v).Ok?
    ensures var b' := SetLocked(b, k, v, h, page).value;
            && Valid(b')
            && Contents(b') == Retained(b, RecordSize(k, v))[h := (k, v)]
  {
    SetLayout(b, k, v, h, page, RecordSize(k, v));
  }

  lemma SetLayout(b: Bucket, k: bytes, v: bytes, h: Hash, page: Page, n: nat)
    requires Valid(b) && WriteError(k, v).Ok? && n == |Encode(k, v)|
    ensures var b' := SetLocked(b, k, v, h, page).value;
            Valid(b') && Contents(b') == Retained(b, n)[h := (k, v)]
  {
    var b' := SetLocked(b, k, v, h, page).value;
    AppendedHead(b.ring, Encode(k, v), page);
    SetIndex(b, k, v, h, page);
    AppendedNew(b.ring, k, v, page);
    AppendedOlds(b, Encode(k, v), page);
    Replaced(b, b', b.m[h := Entry(b'.ring.gen, Placement(b.ring, n))], h, n, (k, v));
  }

  lemma Replaced(b: Bucket, b': Bucket, m: map<Hash, Entry>, h: Hash, n: nat, item: Item)
    requires Valid(b) && HeadValid(b'.ring) && OldEntries(b, b'.ring, n) && m.Keys == b.m.Keys + {h}
    requires forall g :: g in b.m && g != h ==> m[g] == b.m[g]
    requires EntryValid(b'.ring, m[h]) && Fresh(b'.ring, m[h]) && InPage(b'.ring, m[h])
    requires m[h].off == Placement(b.ring, n) && EndOf(b'.ring, m[h]) == b'.ring.idx
    requires ReadItem(b'.ring, m[h]) == Ok(item)
    requires b'.m == if Wraps(b.ring, n) then Accepted(b'.ring, m) else m
    ensures Valid(b') && Contents(b') == Retained(b, n)[h := item]
  {
    Reindex(b, b'.ring, m, b'.m, h, n);
    ReindexKeeps(b, b'.ring, m, b'.m, h, n);
    ReindexedValid(b, b'.ring, b'.m, h, n);
    ReindexedContents(b, b', h, n, item);
  }

  lemma ReindexedAt(b: Bucket, b': Bucket, h: Hash, n: nat, g: Hash)
    requires Valid(b) && Valid(b') && Reindexed(b, b'.ring, b'.m, h, n) && g != h
    requires g in b.m ==> (g in b'.m && Fresh(b'.ring, b'.m[g]) <==> g in Retained(b, n))
    ensures g in Contents(b') <==> g in Retained(b, n)
    ensures g in Contents(b') ==> Contents(b')[g] == Retained(b, n)[g]
  {
    if g in b'.m {
      ReadTotal(b'.ring, b'.m[g]);
      if Fresh(b'.ring, b'.m[g]) { assert Untouched(b.ring, b'.ring, n, b'.m[g]); }
    }
  }

  lemma ReindexedContents(b: Bucket, b': Bucket, h: Hash, n: nat, item: Item)
    requires Valid(b) && Valid(b') && Reindexed(b, b'.ring, b'.m, h, n)
    requires ReadItem(b'.ring, b'.m[h]) == Ok(item)
    requires forall g :: g in b.m && g != h ==> (g in b'.m && Fresh(b'.ring, b'.m[g]) <==> g in Retained(b, n))
    ensures Contents(b') == Retained(b, n)[h := item]
  {
    var c', c := Contents(b'), Retained(b, n)[h := item];
    assert h in c' && c'[h] == item;
    forall g ensures g in c' <==> g in c ensures g in c' && g in c ==> c'[g] == c[g] {
      if g != h { ReindexedAt(b, b', h, n, g); }
    }
    assert c'.Keys == c.Keys;
  }

  // ---- the other operations --------------------------------------------------

  /** cleanLocked drops only what no reader accepts, so its eviction batch has nothing to report. */
  lemma CleanEffect(r: Ring, m: map<Hash, Entry>)
    requires Indexed(r, m)
    ensures Contents(Bucket(r, Clean(r, m))) == Contents(Bucket(r, m))
    ensures forall h :: h in m && h !in Clean(r, m) ==> ReadItem(r, m[h]) == Err(NoData)
    ensures Contents(Bucket(r, m)) != map[] ==> Clean(r, m).Keys == Contents(Bucket(r, m)).Keys
  {
    ReadsTotal(r, m);
    assert Accepted(r, m).Keys == Contents(Bucket(r, m)).Keys;
    forall h | h in m && !Fresh(r, m[h]) ensures ReadItem(r, m[h]) == Err(NoData) { ReadTotal(r, m[h]); }
  }

  lemma DelEffect(b: Bucket, h: Hash)
    requires Valid(b)
    ensures Valid(b.(m := b.m - {h})) && Contents(b.(m := b.m - {h})) == Contents(b) - {h}
  {
  }

  lemma EmptiedEffect(n: nat)
    requires 1 <= n <= MAX_GEN + 1
    ensures Valid(Emptied(n)) && Contents(Emptied(n)) == map[]
  {
  }

  lemma ValueRewritten(d: Page, o: nat, v: bytes)
    requires Bounded(d, o) && |v| == ValLen(d, o)
    ensures var d' := Splice(d, o + 4 + KeyLen(d, o), v);
            && Bounded(d', o) && RecordLen(d', o) == RecordLen(d, o)
            && KeyAt(d', o) == KeyAt(d, o) && ValAt(d', o) == v
  {
    var at := o + 4 + KeyLen(d, o);
    var d' := Splice(d, at, v);
    assert forall j :: 0 <= j < at ==> d'[j] == d[j];
    assert d'[o..at] == d[o..at];
    assert KeyLen(d', o) == KeyLen(d, o) && ValLen(d', o) == ValLen(d, o);
    assert d'[at..at + |v|] == v;
  }

  lemma ThroughSelf(r: Ring, w: Entry, v: bytes)
    requires InPage(r, w) && Locate(r, w).Ok? && |v| == |ReadItem(r, w).value.1|
    ensures var r' := WriteThrough(r, w, v);
            && InPage(r', w) && EndOf(r', w) == EndOf(r, w)
            && ReadItem(r', w) == Ok((ReadItem(r, w).value.0, v))
  {
    var (d, o) := Locate(r, w).value;
    ValueRewritten(d, o, v);
    var r' := WriteThrough(r, w, v);
    assert Fresh(r', w) == Fresh(r, w);
    assert r'.chunks[w.off / PAGE].data == Splice(d, o + 4 + KeyLen(d, o), v);
  }

  lemma ThroughOther(r: Ring, w: Entry, v: bytes, u: Entry)
    requires InPage(r, w) && Locate(r, w).Ok? && |v| == |ReadItem(r, w).value.1|
    requires Fresh(r, u) && Apart(r, u, w)
    ensures var r' := WriteThrough(r, w, v);
            InPage(r', u) && EndOf(r', u) == EndOf(r, u) && ReadItem(r', u) == ReadItem(r, u)
  {
    var (d, o) := Locate(r, w).value;
    var at := w.off + 4 + KeyLen(d, o);
    assert at / PAGE == w.off / PAGE && at % PAGE == o + 4 + KeyLen(d, o);
    PageKeeps(r, WriteThrough(r, w, v), u, at, v);
  }

  /** A ring r' with the same head, in which the record of h carries another item and every
      other record is as before. */
  ghost predicate Rewritten(b: Bucket, r': Ring, h: Hash, item: Item) {
    && r'.idx == b.ring.idx && r'.gen == b.ring.gen && |r'.chunks| == |b.ring.chunks| && HeadValid(r')
    && h in b.m && Fresh(b.ring, b.m[h]) && ReadItem(r', b.m[h]) == Ok(item)
    && (forall g :: g in b.m && Fresh(b.ring, b.m[g]) ==>
          InPage(b.ring, b.m[g]) && InPage(r', b.m[g]) && EndOf(r', b.m[g]) == EndOf(b.ring, b.m[g]))
    && (forall g :: g in b.m && g != h && Fresh(b.ring, b.m[g]) ==> ReadItem(r', b.m[g]) == ReadItem(b.ring, b.m[g]))
  }

  lemma RewrittenValid(b: Bucket, r': Ring, h: Hash, item: Item)
    requires Valid(b) && Rewritten(b, r', h, item)
    ensures Valid(b.(ring := r'))
  {
    forall g | g in b.m ensures EntryValid(r', b.m[g]) {
      assert EntryValid(b.ring, b.m[g]);
      assert Fresh(r', b.m[g]) == Fresh(b.ring, b.m[g]);
    }
    forall g1, g2 | g1 in b.m && g2 in b.m && g1 != g2 && Fresh(r', b.m[g1]) && Fresh(r', b.m[g2])
      ensures Apart(r', b.m[g1], b.m[g2])
    {
      assert Apart(b.ring, b.m[g1], b.m[g2]);
    }
  }

  lemma RewrittenContents(b: Bucket, r': Ring, h: Hash, item: Item)
    requires Valid(b) && Rewritten(b, r', h, item)
    ensures Contents(b.(ring := r')) == Contents(b)[h := item]
  {
    RewrittenValid(b, r', h, item);
    ReadsTotal(b.ring, b.m);
    ReadsTotal(r', b.m);
    assert forall g :: g in b.m ==> Fresh(r', b.m[g]) == Fresh(b.ring, b.m[g]);
  }

  lemma ThroughRewrites(b: Bucket, h: Hash, v: bytes)
    requires Valid(b) && h in Contents(b) && |v| == |Contents(b)[h].1|
    ensures Rewritten(b, WriteThrough(b.ring, b.m[h], v), h, (Contents(b)[h].0, v))
  {
    var r, m := b.ring, b.m;
    var r' := WriteThrough(r, m[h], v);
    ThroughHead(b, h, v, r');
    forall g | g in m && Fresh(r, m[g])
      ensures InPage(r, m[g]) && InPage(r', m[g]) && EndOf(r', m[g]) == EndOf(r, m[g])
      ensures g != h ==> ReadItem(r', m[g]) == ReadItem(r, m[g])
    {
      ThroughEach(b, h, v, g, r');
    }
  }

  lemma ThroughHead(b: Bucket, h: Hash, v: bytes, r': Ring)
    requires Valid(b) && h in Contents(b) && |v| == |Contents(b)[h].1| && r' == WriteThrough(b.ring, b.m[h], v)
    ensures r'.idx == b.ring.idx && r'.gen == b.ring.gen && |r'.chunks| == |b.ring.chunks| && HeadValid(r')
    ensures h in b.m && Fresh(b.ring, b.m[h]) && ReadItem(r', b.m[h]) == Ok((Contents(b)[h].0, v))
  {
    assert EntryValid(b.ring, b.m[h]);
    ThroughSelf(b.ring, b.m[h], v);
  }

  lemma ThroughEach(b: Bucket, h: Hash, v: bytes, g: Hash, r': Ring)
    requires Valid(b) && h in Contents(b) && |v| == |Contents(b)[h].1| && r' == WriteThrough(b.ring, b.m[h], v)
    requires g in b.m && Fresh(b.ring, b.m[g])
    ensures InPage(b.ring, b.m[g]) && InPage(r', b.m[g]) && EndOf(r', b.m[g]) == EndOf(b.ring, b.m[g])
    ensures g != h ==> ReadItem(r', b.m[g]) == ReadItem(b.ring, b.m[g])
  {
    assert EntryValid(b.ring, b.m[g]) && EntryValid(b.ring, b.m[h]);
    if g == h {
      ThroughSelf(b.ring, b.m[h], v);
    } else {
      assert Apart(b.ring, b.m[g], b.m[h]);
      ThroughOther(b.ring, b.m[h], v, b.m[g]);
    }
  }

  /** A mutator writing through the slice changes that one value and nothing else. */
  lemma WriteThroughEffect(b: Bucket, h: Hash, v: bytes)
    requires Valid(b) && h in Contents(b) && |v| == |Contents(b)[h].1|
    ensures var b' := b.(ring := WriteThrough(b.ring, b.m[h], v));
            Valid(b') && Contents(b') == Contents(b)[h := (Contents(b)[h].0, v)]
  {
    ThroughRewrites(b, h, v);
    RewrittenValid(b, WriteThrough(b.ring, b.m[h], v), h, (Contents(b)[h].0, v));
    RewrittenContents(b, WriteThrough(b.ring, b.m[h], v), h, (Contents(b)[h].0, v));
  }

  // ---- how long a record stays -------------------------------------------------

  datatype Write = Write(k: bytes, v: bytes, h: Hash, page: Page)

  ghost predicate Elsewhere(ws: seq<Write>, h: Hash) {
    forall i :: 0 <= i < |ws| ==> ws[i].h != h && WriteError(ws[i].k, ws[i].v).Ok?
  }

  function TotalBytes(ws: seq<Write>): nat {
    if ws == [] then 0 else 4 + |ws[0].k| + |ws[0].v| + TotalBytes(ws[1..])
  }

  ghost function Written(b: Bucket, ws: seq<Write>, h: Hash): (b': Bucket)
    requires Valid(b) && Elsewhere(ws, h)
    ensures Valid(b')
    decreases |ws|
  {
    if ws == [] then b
    else
      SetEffect(b, ws[0].k, ws[0].v, ws[0].h, ws[0].page);
      Written(SetLocked(b, ws[0].k, ws[0].v, ws[0].h, ws[0].page).value, ws[1..], h)
  }

  lemma SetKeepsEntry(b: Bucket, k: bytes, v: bytes, h: Hash, page: Page, g: Hash)
    requires Valid(b) && WriteError(k, v).Ok? && g != h && g in Retained(b, |Encode(k, v)|)
    ensures var b' := SetLocked(b, k, v, h, page).value;
            g in b'.m && b'.m[g] == b.m[g] && Fresh(b'.ring, b.m[g])
  {
    var b', n := SetLocked(b, k, v, h, page).value, |Encode(k, v)|;
    SetIndex(b, k, v, h, page);
    AppendedOld(b, Encode(k, v), page, g);
    EntryKept(b'.ring, b.m, b.m[h := Entry(b'.ring.gen, Placement(b.ring, n))], b'.m, g);
  }

  lemma EntryKept(r: Ring, m: map<Hash, Entry>, m1: map<Hash, Entry>, m': map<Hash, Entry>, g: Hash)
    requires g in m && g in m1 && m1[g] == m[g] && Fresh(r, m[g]) && (m' == m1 || m' == Accepted(r, m1))
    ensures g in m' && m'[g] == m[g]
  {
  }

  lemma LagAfterSet(b: Bucket, k: bytes, v: bytes, h: Hash, page: Page, g: Hash)
    requires Valid(b) && WriteError(k, v).Ok? && g != h && g in Retained(b, |Encode(k, v)|)
    ensures var b' := SetLocked(b, k, v, h, page).value;
            && g in b'.m && Capacity(b'.ring) == Capacity(b.ring)
            && Lag(b'.ring, b'.m[g]) == Lag(b.ring, b.m[g]) + Advance(b.ring, |Encode(k, v)|)
  {
    SetKeepsEntry(b, k, v, h, page, g);
    AppendedHead(b.ring, Encode(k, v), page);
    FreshAfterMove(b.ring, Appended(b.ring, Encode(k, v), page), |Encode(k, v)|, b.m[g]);
  }

  /** One write to another hash, charged at twice its length. */
  lemma StaysOnce(b: Bucket, w: Write, h: Hash)
    requires Valid(b) && WriteError(w.k, w.v).Ok? && w.h != h && h in Contents(b)
    requires Lag(b.ring, b.m[h]) + 2 * (4 + |w.k| + |w.v|) <= Capacity(b.ring)
    ensures var b' := SetLocked(b, w.k, w.v, w.h, w.page).value;
            && Valid(b') && h in Contents(b') && Contents(b')[h] == Contents(b)[h]
            && Capacity(b'.ring) == Capacity(b.ring)
            && Lag(b'.ring, b'.m[h]) <= Lag(b.ring, b.m[h]) + 2 * (4 + |w.k| + |w.v|)
  {
    var n := |Encode(w.k, w.v)|;
    assert n == 4 + |w.k| + |w.v|;
    AdvanceBound(b.ring, n);
    assert h in Retained(b, n);
    SetEffect(b, w.k, w.v, w.h, w.page);
    LagAfterSet(b, w.k, w.v, w.h, w.page, h);
  }

  /** A record stays readable, unchanged, under any further writes to other hashes whose records
      take at most half of what is left of the ring behind it. */
  lemma {:induction false} StaysUntilLapped(b: Bucket, ws: seq<Write>, h: Hash)
    requires Valid(b) && Elsewhere(ws, h) && h in Contents(b)
    requires Lag(b.ring, b.m[h]) + 2 * TotalBytes(ws) <= Capacity(b.ring)
    ensures h in Contents(Written(b, ws, h)) && Contents(Written(b, ws, h))[h] == Contents(b)[h]
    decreases |ws|
  {
    if ws != [] {
      var w := ws[0];
      StaysOnce(b, w, h);
      StaysUntilLapped(SetLocked(b, w.k, w.v, w.h, w.page).value, ws[1..], h);
    }
  }
}
