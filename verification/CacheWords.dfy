/** The uint64 arithmetic of the cache index: packing a generation and an offset into one
    word, and the 24-bit generation counter that skips zero. */
module CacheWords {
  import opened BitWords
  import opened CacheBucket

  const OFFSET_BITS: nat := 40                 // bucketSizeBits
  const OFFSET_SPAN: nat := 0x100_0000_0000    // maxBucketSize
  const WORD: nat := 0x1_0000_0000_0000_0000   // range of uint64

  /** `idx | (b.gen << bucketSizeBits)`. */
  function Pack(off: nat, gen: nat): nat {
    Or(off, Shl(gen, OFFSET_BITS, 64))
  }

  function GenOf(w: nat): nat {
    Shr(w, OFFSET_BITS)
  }

  function OffOf(w: nat): nat {
    And(w, Pow2(OFFSET_BITS) - 1)
  }

  /** `b.gen & maxGen`. */
  function Low24(gen: nat): nat {
    And(gen, Pow2(24) - 1)
  }

  /** The counter step at a wrap: increment, and once more when the low bits are zero. */
  function Bump(gen: nat): nat {
    var g := (gen + 1) % WORD;
    if Low24(g) == 0 then (g + 1) % WORD else g
  }

  function Unpack(w: nat): Entry {
    Entry(GenOf(w), OffOf(w))
  }

  lemma WordArith(w: nat)
    ensures OffOf(w) == w % OFFSET_SPAN
    ensures GenOf(w) == w / OFFSET_SPAN
    ensures Low24(w) == w % (MAX_GEN + 1)
  {
    Pow2Values();
    LowHighArith(w, OFFSET_BITS);
    AndLowMask(w, OFFSET_BITS);
    AndLowMask(w, 24);
  }

  /** A packed word unpacks exactly, stays inside uint64 and is never the absent value 0. */
  lemma PackExact(off: nat, gen: nat)
    requires off < OFFSET_SPAN && gen < WORD && Low24(gen) != 0
    ensures Unpack(Pack(off, gen)) == Entry(Low24(gen), off)
    ensures 0 < Pack(off, gen) < WORD
  {
    var q := Low24(gen);
    WordArith(gen);
    ShiftKeepsLow24(gen);
    assert Pow2(OFFSET_BITS) == OFFSET_SPAN by { Pow2Values(); }
    OrDisjoint(off, q, OFFSET_BITS);
    var w := off + OFFSET_SPAN * q;
    assert Pack(off, gen) == w;
    WordArith(w);
    DivModUnique(w, OFFSET_SPAN, q, off);
  }

  lemma ShiftKeepsLow24(gen: nat)
    ensures Shl(gen, OFFSET_BITS, 64) == OFFSET_SPAN * Low24(gen)
  {
    WordArith(gen);
    assert Pow2(OFFSET_BITS) == OFFSET_SPAN && Pow2(64) == WORD by { Pow2Values(); }
    var q, r := gen / (MAX_GEN + 1), gen % (MAX_GEN + 1);
    assert gen * OFFSET_SPAN == WORD * q + OFFSET_SPAN * r;
    DivModUnique(gen * OFFSET_SPAN, WORD, q, OFFSET_SPAN * r);
    LowHighArith(gen * OFFSET_SPAN, 64);
  }

  /** The low bits of the counter run through 1..MAX_GEN cyclically, whatever its high bits do. */
  lemma GenCycle(gen: nat)
    requires gen < WORD && Low24(gen) != 0
    ensures 1 <= Low24(gen) <= MAX_GEN
    ensures Bump(gen) < WORD && Low24(Bump(gen)) == NextGen(Low24(gen)) && Low24(Bump(gen)) != 0
  {
    assert 1 <= Low24(gen) <= MAX_GEN by { WordArith(gen); }
    Low24OfNext(gen);
    var g := (gen + 1) % WORD;
    if Low24(g) == 0 {
      Low24OfNext(g);
      assert Bump(gen) == (g + 1) % WORD && Low24(gen) == MAX_GEN;
    } else {
      assert Bump(gen) == g && Low24(gen) != MAX_GEN;
    }
  }

  lemma Low24OfNext(gen: nat)
    requires gen < WORD
    ensures var g := (gen + 1) % WORD;
            && g < WORD && Low24(g) == if Low24(gen) == MAX_GEN then 0 else Low24(gen) + 1
  {
    WordArith(gen);
    WordArith((gen + 1) % WORD);
    ModNext(gen);
    ModInWord(gen + 1);
  }

  lemma ModInWord(x: nat)
    requires x <= WORD
    ensures (x % WORD) % (MAX_GEN + 1) == x % (MAX_GEN + 1)
  {
    if x == WORD {
      DivModUnique(x, MAX_GEN + 1, OFFSET_SPAN, 0);
    }
  }

  lemma ModNext(x: nat)
    ensures var p := MAX_GEN + 1; (x + 1) % p == if x % p == MAX_GEN then 0 else x % p + 1
  {
    var p := MAX_GEN + 1;
    var q, r := x / p, x % p;
    assert x == p * q + r;
    if r == MAX_GEN { DivModUnique(x + 1, p, q + 1, 0); } else { DivModUnique(x + 1, p, q, r + 1); }
  }

  /** cleanLocked's own test on a word. */
  predicate Keeps(idx: nat, cur: nat, w: nat) {
    var e := Unpack(w);
    ((e.gen + 1 == cur || (e.gen == MAX_GEN && cur == 1)) && e.off >= idx) || (e.gen == cur && e.off < idx)
  }

  /** It accepts exactly the words the readers accept. */
  lemma KeepsIsFresh(r: Ring, w: nat)
    ensures Keeps(r.idx, r.gen, w) <==> Fresh(r, Unpack(w))
  {
  }

  function Sifted(idx: nat, cur: nat, m: map<Hash, nat>): map<Hash, nat> {
    map h | h in m && Keeps(idx, cur, m[h]) :: m[h]
  }

  function Unpacked(m: map<Hash, nat>): map<Hash, Entry> {
    map h | h in m :: Unpack(m[h])
  }

  lemma SiftedIsAccepted(r: Ring, m: map<Hash, nat>)
    ensures Unpacked(Sifted(r.idx, r.gen, m)) == Accepted(r, Unpacked(m))
  {
    forall h | h in m ensures Keeps(r.idx, r.gen, m[h]) <==> Fresh(r, Unpack(m[h])) {
      KeepsIsFresh(r, m[h]);
    }
  }
}
