/** Runs of the TTL map: atomic operations interleaved with the steps of background cleaners. */
module TtlRuns {
  import opened Basics
  import opened Recency

  /** A cleaner has been started, has listed the keys it found expired at its own time, or has swept. */
  datatype Phase<K> = Started | Found(keys: set<K>, at: Time) | Done

  datatype State<K, V> = State(s: seq<Entry<K, V>>, max: int, cleaning: bool, last: Time, cleaners: seq<Phase<K>>)

  datatype Op<K, V> =
    | Set(e: Entry<K, V>, now: Time, stamp: Time)
    | Get(key: K, now: Time)
    | Delete(key: K, now: Time, stamp: Time)
    | Resize(newMax: int)
    | Snapshot(c: nat, now: Time)
    | Sweep(c: nat)
    | Finish(c: nat)

  function New<K, V>(max: int, now: Time): State<K, V> {
    State([], max, false, now, [])
  }

  /** Operations that end on a whole map (see `EvictionEnds`), and cleaner steps in their order. */
  predicate Allowed<K(==), V>(st: State<K, V>, op: Op<K, V>) {
    match op
    case Set(_, _, _) => st.max >= 1
    case Get(_, _) => true
    case Delete(_, _, _) => true
    case Resize(m) => m < st.max ==> m >= 0
    case Snapshot(c, _) => c < |st.cleaners| && st.cleaners[c].Started?
    case Sweep(c) => c < |st.cleaners| && st.cleaners[c].Found?
    case Finish(c) => c < |st.cleaners| && st.cleaners[c].Done?
  }

  function Triggered<K, V>(st: State<K, V>, s: seq<Entry<K, V>>, now: Time, stamp: Time): State<K, V> {
    if now - st.last > SECOND && !st.cleaning
    then st.(s := s, cleaning := true, last := stamp, cleaners := st.cleaners + [Started])
    else st.(s := s)
  }

  function Step<K(==), V>(st: State<K, V>, op: Op<K, V>): State<K, V>
    requires Allowed(st, op)
  {
    match op
    case Set(e, now, stamp) =>
      var s := Recency.Set(st.s, st.max, e);
      if HasKey(st.s, e.key) then st.(s := s) else Triggered(st, s, now, stamp)
    case Get(k, now) => st.(s := Recency.Get(st.s, k, now).1)
    case Delete(k, now, stamp) => Triggered(st, Without(st.s, k), now, stamp)
    case Resize(m) => st.(s := Recency.Resize(st.s, st.max, m), max := m)
    case Snapshot(c, now) => st.(cleaners := st.cleaners[c := Found(Stale(st.s, now), now)])
    case Sweep(c) =>
      st.(s := Swept(st.s, st.cleaners[c].keys, st.cleaners[c].at), cleaners := st.cleaners[c := Done])
    case Finish(c) => st.(cleaning := false, cleaners := Cut(st.cleaners, c))
  }

  /** The key an operation uses: stored by Set, or found by Get. */
  function Used<K(==), V>(st: State<K, V>, op: Op<K, V>): Option<K> {
    match op
    case Set(e, _, _) => Some(e.key)
    case Get(k, now) => if Recency.Get(st.s, k, now).0.Some? then Some(k) else None
    case _ => None
  }

  // ---- the invariant of every run ------------------------------------------------------

  ghost predicate Inv<K, V>(st: State<K, V>) {
    && Unique(st.s)
    && (st.s == [] || |st.s| <= st.max)
    && |st.cleaners| == if st.cleaning then 1 else 0
  }

  lemma StepKeeps<K, V>(st: State<K, V>, op: Op<K, V>)
    requires Inv(st) && Allowed(st, op)
    ensures Inv(Step(st, op))
  {
    match op
    case Set(e, _, _) => SetKeeps(st.s, st.max, e);
    case Get(k, now) => GetKeeps(st.s, k, now);
    case Delete(k, _, _) => WithoutKeeps(st.s, k);
    case Resize(m) => if m < st.max { ResizeKeeps(st.s, m); }
    case Snapshot(_, _) =>
    case Sweep(c) => SweptKeeps(st.s, st.cleaners[c].keys, st.cleaners[c].at);
    case Finish(_) =>
  }

  lemma ResizeKeeps<K, V>(s: seq<Entry<K, V>>, m: nat)
    requires Unique(s)
    ensures Unique(Newest(s, m)) && |Newest(s, m)| <= m
  {
  }

  ghost predicate Run<K, V>(states: seq<State<K, V>>, ops: seq<Op<K, V>>) {
    && |states| == |ops| + 1
    && (exists max, now :: states[0] == New(max, now))
    && forall i :: 0 <= i < |ops| ==> Allowed(states[i], ops[i]) && states[i + 1] == Step(states[i], ops[i])
  }

  lemma {:induction false} RunKeeps<K, V>(states: seq<State<K, V>>, ops: seq<Op<K, V>>, n: nat)
    requires Run(states, ops) && n <= |ops|
    ensures Inv(states[n])
  {
    if n > 0 {
      RunKeeps(states, ops, n - 1);
      StepKeeps(states[n - 1], ops[n - 1]);
    }
  }

  // ---- recency ---------------------------------------------------------------------------

  /** The last operation before n that used the key, or -1. */
  function LastUse<K(==), V>(states: seq<State<K, V>>, ops: seq<Op<K, V>>, n: nat, k: K): (i: int)
    requires n <= |ops| < |states|
    ensures -1 <= i < n
  {
    if n == 0 then -1
    else if Used(states[n - 1], ops[n - 1]) == Some(k) then n - 1
    else LastUse(states, ops, n - 1, k)
  }

  ghost predicate Sorted<K, V>(s: seq<Entry<K, V>>, use: K -> int) {
    && (forall i :: 0 <= i < |s| ==> use(s[i].key) >= 0)
    && forall i, j :: 0 <= i < j < |s| ==> use(s[i].key) > use(s[j].key)
  }

  lemma SortedCut<K, V>(s: seq<Entry<K, V>>, use: K -> int, k: nat)
    requires Sorted(s, use) && k < |s|
    ensures Sorted(Cut(s, k), use)
  {
  }

  lemma SortedNewest<K, V>(s: seq<Entry<K, V>>, use: K -> int, n: nat)
    requires Sorted(s, use)
    ensures Sorted(Newest(s, n), use)
  {
  }

  lemma SortedCons<K, V>(e: Entry<K, V>, s: seq<Entry<K, V>>, use: K -> int)
    requires Sorted(s, use) && use(e.key) >= 0
    requires forall i :: 0 <= i < |s| ==> use(e.key) > use(s[i].key)
    ensures Sorted([e] + s, use)
  {
  }

  lemma {:induction false} SortedSwept<K, V>(s: seq<Entry<K, V>>, use: K -> int, keys: set<K>, now: Time)
    requires Sorted(s, use)
    ensures Sorted(Swept(s, keys, now), use)
  {
    if s != [] {
      var t := Swept(s[1..], keys, now);
      SortedSwept(s[1..], use, keys, now);
      if !(s[0].key in keys && Expired(s[0], now)) {
        forall i | 0 <= i < |t| ensures use(s[0].key) > use(t[i].key) {
          SweptMembers(s[1..], keys, now, t[i]);
          var j :| 0 <= j < |s[1..]| && s[1..][j] == t[i];
          assert s[j + 1] == t[i];
        }
        SortedCons(s[0], t, use);
      }
    }
  }

  /** Forgetting entries keeps the order; using a key puts it in front. */
  lemma SortedWithout<K, V>(s: seq<Entry<K, V>>, use: K -> int, k: K)
    requires Unique(s) && Sorted(s, use)
    ensures Sorted(Without(s, k), use) && !HasKey(Without(s, k), k)
    ensures forall i :: 0 <= i < |Without(s, k)| ==> Without(s, k)[i] in s
  {
    if HasKey(s, k) {
      var i :| 0 <= i < |s| && s[i].key == k;
      WithoutAt(s, i);
      SortedCut(s, use, i);
      CutUnique(s, i);
    } else {
      WithoutAbsent(s, k);
    }
    forall i | 0 <= i < |Without(s, k)| ensures Without(s, k)[i] in s { WithoutMembers(s, k, Without(s, k)[i]); }
  }

  lemma SortedUse<K, V>(e: Entry<K, V>, s: seq<Entry<K, V>>, before: K -> int, after: K -> int, n: nat)
    requires Sorted(s, before) && !HasKey(s, e.key) && after(e.key) == n
    requires forall i :: 0 <= i < |s| ==>
               before(s[i].key) < n && (s[i].key != e.key ==> after(s[i].key) == before(s[i].key))
    ensures Sorted([e] + s, after)
  {
    assert Sorted(s, after);
    SortedCons(e, s, after);
  }

  ghost function Uses<K(!new), V>(states: seq<State<K, V>>, ops: seq<Op<K, V>>, n: nat): K -> int
    requires n <= |ops| < |states|
  {
    k => LastUse(states, ops, n, k)
  }

  lemma SetSorted<K, V>(s: seq<Entry<K, V>>, max: nat, e: Entry<K, V>, before: K -> int, after: K -> int, n: nat)
    requires Unique(s) && max >= 1 && Sorted(s, before) && after(e.key) == n
    requires forall i :: 0 <= i < |s| ==>
               before(s[i].key) < n && (s[i].key != e.key ==> after(s[i].key) == before(s[i].key))
    ensures Sorted(Recency.Set(s, max, e), after)
  {
    if HasKey(s, e.key) {
      SortedWithout(s, before, e.key);
      SortedUse(e, Without(s, e.key), before, after, n);
    } else {
      SortedNewest(s, before, max - 1);
      SortedUse(e, Newest(s, max - 1), before, after, n);
    }
  }

  lemma GetSorted<K, V>(s: seq<Entry<K, V>>, k: K, now: Time, before: K -> int, after: K -> int, n: nat)
    requires Unique(s) && Sorted(s, before) && Recency.Get(s, k, now).0.Some? && after(k) == n
    requires forall i :: 0 <= i < |s| ==>
               before(s[i].key) < n && (s[i].key != k ==> after(s[i].key) == before(s[i].key))
    ensures Sorted(Recency.Get(s, k, now).1, after)
  {
    SortedWithout(s, before, k);
    SortedUse(At(s, k), Without(s, k), before, after, n);
  }

  lemma UnusedSorted<K, V>(st: State<K, V>, op: Op<K, V>, use: K -> int)
    requires Inv(st) && Allowed(st, op) && Used(st, op).None? && Sorted(st.s, use)
    ensures Sorted(Step(st, op).s, use)
  {
    match op
    case Set(_, _, _) =>
    case Get(k, _) => SortedWithout(st.s, use, k);
    case Delete(k, _, _) => SortedWithout(st.s, use, k);
    case Resize(m) => if m < st.max { SortedNewest(st.s, use, m); }
    case Snapshot(_, _) =>
    case Sweep(c) => SortedSwept(st.s, use, st.cleaners[c].keys, st.cleaners[c].at);
    case Finish(_) =>
  }

  lemma StepSorted<K, V>(st: State<K, V>, op: Op<K, V>, before: K -> int, after: K -> int, n: nat)
    requires Inv(st) && Allowed(st, op) && Sorted(st.s, before)
    requires Used(st, op).Some? ==> after(Used(st, op).value) == n
    requires forall i :: 0 <= i < |st.s| ==> before(st.s[i].key) < n
    requires forall i :: 0 <= i < |st.s| && Used(st, op) != Some(st.s[i].key) ==>
               after(st.s[i].key) == before(st.s[i].key)
    ensures Sorted(Step(st, op).s, after)
  {
    if Used(st, op).None? {
      UnusedSorted(st, op, after) by { assert Sorted(st.s, after); }
    } else if op.Set? {
      SetSorted(st.s, st.max, op.e, before, after, n);
    } else {
      GetSorted(st.s, op.key, op.now, before, after, n);
    }
  }

  /** After every run the list is in the order of last use, latest first. */
  lemma {:induction false} MostRecentFirst<K(!new), V>(states: seq<State<K, V>>, ops: seq<Op<K, V>>, n: nat)
    requires Run(states, ops) && n <= |ops|
    ensures Sorted(states[n].s, Uses(states, ops, n))
  {
    if n > 0 {
      MostRecentFirst(states, ops, n - 1);
      RunKeeps(states, ops, n - 1);
      StepSorted(states[n - 1], ops[n - 1], Uses(states, ops, n - 1), Uses(states, ops, n), n - 1);
    }
  }

  /** Storing a new key drops exactly the least recently used: every stored key stays or was last used
      before every key that stays, and at most as many go as the size demands. */
  lemma EvictsLeastRecent<K(!new), V>(states: seq<State<K, V>>, ops: seq<Op<K, V>>, n: nat, x: K, y: K)
    requires Run(states, ops) && n < |ops| && ops[n].Set? && !HasKey(states[n].s, ops[n].e.key)
    requires HasKey(states[n].s, x) && !HasKey(states[n + 1].s, x)
    ensures HasKey(states[n].s, y) && HasKey(states[n + 1].s, y) ==>
              LastUse(states, ops, n, x) < LastUse(states, ops, n, y)
    ensures |states[n + 1].s| == states[n].max
  {
    MostRecentFirst(states, ops, n);
    EvictedIsOlder(states[n].s, states[n].max, ops[n].e, Uses(states, ops, n), x, y);
  }

  /** So does shrinking the map. */
  lemma ResizeEvictsLeastRecent<K(!new), V>(states: seq<State<K, V>>, ops: seq<Op<K, V>>, n: nat, x: K, y: K)
    requires Run(states, ops) && n < |ops| && ops[n].Resize?
    requires HasKey(states[n].s, x) && !HasKey(states[n + 1].s, x)
    ensures HasKey(states[n + 1].s, y) ==>
              HasKey(states[n].s, y) && LastUse(states, ops, n, x) < LastUse(states, ops, n, y)
    ensures |states[n + 1].s| == ops[n].newMax
  {
    MostRecentFirst(states, ops, n);
    CutOffIsOlder(states[n].s, ops[n].newMax, Uses(states, ops, n), x, y);
  }

  lemma NewestHas<K, V>(s: seq<Entry<K, V>>, max: nat, i: nat)
    requires i < |s|
    ensures i < max ==> HasKey(Newest(s, max), s[i].key)
  {
    if i < max { assert Newest(s, max)[i] == s[i]; }
  }

  lemma CutOffIsOlder<K, V>(s: seq<Entry<K, V>>, max: nat, use: K -> int, x: K, y: K)
    requires Sorted(s, use) && HasKey(s, x) && !HasKey(Newest(s, max), x)
    ensures HasKey(Newest(s, max), y) ==> HasKey(s, y) && use(x) < use(y)
    ensures |Newest(s, max)| == max
  {
    var t := Newest(s, max);
    var i :| 0 <= i < |s| && s[i].key == x;
    assert i >= max by { NewestHas(s, max, i); }
    if HasKey(t, y) {
      var j :| 0 <= j < |t| && t[j].key == y;
      assert s[j].key == y;
    }
  }

  lemma StaysAt<K, V>(s: seq<Entry<K, V>>, max: nat, e: Entry<K, V>, i: nat)
    requires max >= 1 && !HasKey(s, e.key) && i < |s|
    ensures i < max - 1 ==> HasKey(Recency.Set(s, max, e), s[i].key)
  {
    if i < max - 1 {
      assert Recency.Set(s, max, e)[i + 1] == s[i];
    }
  }

  lemma EvictedIsOlder<K, V>(s: seq<Entry<K, V>>, max: nat, e: Entry<K, V>, use: K -> int, x: K, y: K)
    requires Sorted(s, use) && max >= 1 && !HasKey(s, e.key)
    requires HasKey(s, x) && !HasKey(Recency.Set(s, max, e), x)
    ensures HasKey(s, y) && HasKey(Recency.Set(s, max, e), y) ==> use(x) < use(y)
    ensures |Recency.Set(s, max, e)| == max
  {
    var t := Recency.Set(s, max, e);
    var i :| 0 <= i < |s| && s[i].key == x;
    assert i >= max - 1 by { StaysAt(s, max, e, i); }
    if HasKey(s, y) && HasKey(t, y) {
      var j :| 0 <= j < |t| && t[j].key == y;
      assert j > 0 && s[j - 1].key == y;
    }
  }

  /** The last operation before n that stored the key, or -1. */
  function LastSet<K(==), V>(ops: seq<Op<K, V>>, n: nat, k: K): (i: int)
    requires n <= |ops|
    ensures -1 <= i < n && (i >= 0 ==> ops[i].Set? && ops[i].e.key == k)
  {
    if n == 0 then -1
    else if ops[n - 1].Set? && ops[n - 1].e.key == k then n - 1
    else LastSet(ops, n - 1, k)
  }

  lemma StepMembers<K, V>(st: State<K, V>, op: Op<K, V>, e: Entry<K, V>)
    requires Inv(st) && Allowed(st, op) && e in Step(st, op).s
    ensures e in st.s || (op.Set? && e == op.e)
    ensures op.Set? && e.key == op.e.key ==> e == op.e
    ensures op.Delete? ==> e.key != op.key
  {
    match op
    case Set(x, _, _) =>
      SetKeeps(st.s, st.max, x);
      WithoutMembers(st.s, x.key, e);
      var t := Step(st, op).s;
      var i :| 0 <= i < |t| && t[i] == e;
      assert t[0] == x;
    case Get(k, now) => GetMembers(st.s, k, now, e);
    case Delete(k, _, _) => WithoutMembers(st.s, k, e);
    case Resize(_) =>
    case Snapshot(_, _) =>
    case Sweep(c) => SweptMembers(st.s, st.cleaners[c].keys, st.cleaners[c].at, e);
    case Finish(_) =>
  }

  lemma CameAcross<K, V>(states: seq<State<K, V>>, ops: seq<Op<K, V>>, j: nat, e: Entry<K, V>)
    requires Run(states, ops) && j < |ops| && e in states[j + 1].s
    ensures e in states[j].s || (ops[j].Set? && e == ops[j].e)
    ensures ops[j].Set? && e.key == ops[j].e.key ==> e == ops[j].e
    ensures ops[j].Delete? ==> e.key != ops[j].key
  {
    RunKeeps(states, ops, j);
    StepMembers(states[j], ops[j], e);
  }

  /** Whatever is stored under a key is what was last stored under it. */
  lemma {:induction false} HoldsLastSet<K, V>(states: seq<State<K, V>>, ops: seq<Op<K, V>>, n: nat, e: Entry<K, V>)
    requires Run(states, ops) && n <= |ops| && e in states[n].s
    ensures LastSet(ops, n, e.key) >= 0 && ops[LastSet(ops, n, e.key)].e == e
  {
    if n > 0 {
      CameAcross(states, ops, n - 1, e);
      if !(ops[n - 1].Set? && ops[n - 1].e.key == e.key) {
        HoldsLastSet(states, ops, n - 1, e);
      }
    }
  }

  lemma {:induction false} LastSetIsLast<K, V>(ops: seq<Op<K, V>>, n: nat, k: K)
    requires n <= |ops|
    ensures forall i :: LastSet(ops, n, k) < i < n && ops[i].Set? ==> ops[i].e.key != k
  {
    if n > 0 && !(ops[n - 1].Set? && ops[n - 1].e.key == k) { LastSetIsLast(ops, n - 1, k); }
  }

  /** And its key was not deleted since. */
  lemma {:induction false} NotSinceDeleted<K, V>(states: seq<State<K, V>>, ops: seq<Op<K, V>>, n: nat, e: Entry<K, V>,
                                                 j: nat)
    requires Run(states, ops) && j < n <= |ops| && e in states[n].s && ops[j].Delete?
    requires forall i :: j < i < n && ops[i].Set? ==> ops[i].e.key != e.key
    ensures ops[j].key != e.key
  {
    CameAcross(states, ops, n - 1, e);
    if j < n - 1 { NotSinceDeleted(states, ops, n - 1, e, j); }
  }

  /** A lookup that finds a value finds the last one stored, not deleted since and not past its deadline. */
  lemma GetFindsLastSet<K, V>(states: seq<State<K, V>>, ops: seq<Op<K, V>>, n: nat, k: K, now: Time)
    requires Run(states, ops) && n <= |ops| && Recency.Get(states[n].s, k, now).0.Some?
    ensures LastSet(ops, n, k) >= 0
    ensures Recency.Get(states[n].s, k, now).0.value == ops[LastSet(ops, n, k)].e.value
    ensures var e := ops[LastSet(ops, n, k)].e; e.deadline == 0 || now <= e.deadline
    ensures forall j :: LastSet(ops, n, k) < j < n && ops[j].Delete? ==> ops[j].key != k
  {
    var e := At(states[n].s, k);
    HoldsLastSet(states, ops, n, e);
    LastSetIsLast(ops, n, k);
    forall j | LastSet(ops, n, k) < j < n && ops[j].Delete? ensures ops[j].key != k {
      NotSinceDeleted(states, ops, n, e, j);
    }
  }

  /** The size the map was last given. */
  function LastMax<K, V>(max: int, ops: seq<Op<K, V>>, n: nat): int
    requires n <= |ops|
  {
    if n == 0 then max else if ops[n - 1].Resize? then ops[n - 1].newMax else LastMax(max, ops, n - 1)
  }

  /** After every run the map holds no more than the size it was last given. */
  lemma {:induction false} WithinLastMax<K, V>(states: seq<State<K, V>>, ops: seq<Op<K, V>>, n: nat)
    requires Run(states, ops) && n <= |ops|
    ensures states[n].max == LastMax(states[0].max, ops, n)
    ensures states[n].s == [] || |states[n].s| <= LastMax(states[0].max, ops, n)
  {
    RunKeeps(states, ops, n);
    if n > 0 {
      WithinLastMax(states, ops, n - 1);
      MaxAcross(states, ops, n - 1);
    }
  }

  lemma MaxAcross<K, V>(states: seq<State<K, V>>, ops: seq<Op<K, V>>, j: nat)
    requires Run(states, ops) && j < |ops|
    ensures states[j + 1].max == if ops[j].Resize? then ops[j].newMax else states[j].max
  {
  }

  // ---- what makes an entry leave -------------------------------------------------------------

  predicate Past<K, V>(e: Entry<K, V>, at: Time) {
    e.deadline != 0 && at > e.deadline
  }

  /** The only ways an entry can leave: its key is stored again or deleted, it is looked up or swept past its
      deadline, or the map is too full. */
  predicate Drives<K(==), V>(st: State<K, V>, op: Op<K, V>, e: Entry<K, V>)
    requires Allowed(st, op)
  {
    match op
    case Set(x, _, _) => x.key == e.key || (!HasKey(st.s, x.key) && |st.s| >= st.max)
    case Get(k, now) => k == e.key && Past(e, now)
    case Delete(k, _, _) => k == e.key
    case Resize(m) => m < |st.s|
    case Snapshot(_, _) => false
    case Sweep(c) => e.key in st.cleaners[c].keys && Past(e, st.cleaners[c].at)
    case Finish(_) => false
  }

  lemma StaysUnlessDriven<K, V>(st: State<K, V>, op: Op<K, V>, e: Entry<K, V>)
    requires Inv(st) && Allowed(st, op) && e in st.s && !Drives(st, op, e)
    ensures e in Step(st, op).s
  {
    match op
    case Set(x, _, _) => SetKeepsOthers(st.s, st.max, x, e);
    case Get(k, now) => GetMembers(st.s, k, now, e);
    case Delete(k, _, _) => WithoutMembers(st.s, k, e);
    case Resize(_) =>
    case Snapshot(_, _) =>
    case Sweep(c) => SweptMembers(st.s, st.cleaners[c].keys, st.cleaners[c].at, e);
    case Finish(_) =>
  }

  ghost predicate DrivenAt<K, V>(states: seq<State<K, V>>, ops: seq<Op<K, V>>, j: nat, e: Entry<K, V>)
    requires Run(states, ops) && j < |ops|
  {
    Drives(states[j], ops[j], e)
  }

  lemma StaysAcross<K, V>(states: seq<State<K, V>>, ops: seq<Op<K, V>>, j: nat, e: Entry<K, V>)
    requires Run(states, ops) && j < |ops| && e in states[j].s && !DrivenAt(states, ops, j, e)
    ensures e in states[j + 1].s
  {
    RunKeeps(states, ops, j);
    StaysUnlessDriven(states[j], ops[j], e);
  }

  lemma StoredAcross<K, V>(states: seq<State<K, V>>, ops: seq<Op<K, V>>, i: nat)
    requires Run(states, ops) && i < |ops| && ops[i].Set?
    ensures ops[i].e in states[i + 1].s
  {
    StoreStores(states[i], ops[i]);
  }

  lemma {:induction false} StoredUntilDriven<K, V>(states: seq<State<K, V>>, ops: seq<Op<K, V>>, i: nat, n: nat)
    requires Run(states, ops) && i < n <= |ops| && ops[i].Set?
    requires forall j :: i < j < n ==> !DrivenAt(states, ops, j, ops[i].e)
    ensures ops[i].e in states[n].s
  {
    if n == i + 1 {
      StoredAcross(states, ops, i);
    } else {
      StoredUntilDriven(states, ops, i, n - 1);
      StaysAcross(states, ops, n - 1, ops[i].e);
    }
  }

  /** What is stored stays until then, so a lookup finds it exactly up to its deadline. */
  lemma FoundUntilDriven<K, V>(states: seq<State<K, V>>, ops: seq<Op<K, V>>, i: nat, n: nat, now: Time)
    requires Run(states, ops) && i < n <= |ops| && ops[i].Set?
    requires forall j :: i < j < n ==> !DrivenAt(states, ops, j, ops[i].e)
    ensures var e := ops[i].e;
            Recency.Get(states[n].s, e.key, now).0 ==
            if e.deadline == 0 || now <= e.deadline then Some(e.value) else None
  {
    StoredUntilDriven(states, ops, i, n);
    RunKeeps(states, ops, n);
    FoundHere(states[n].s, ops[i].e, now);
  }

  lemma StoreStores<K, V>(st: State<K, V>, op: Op<K, V>)
    requires Allowed(st, op) && op.Set?
    ensures op.e in Step(st, op).s
  {
    var t := Recency.Set(st.s, st.max, op.e);
    assert t[0] == op.e && Step(st, op).s == t;
  }

  lemma FoundHere<K, V>(s: seq<Entry<K, V>>, e: Entry<K, V>, now: Time)
    requires Unique(s) && e in s
    ensures Recency.Get(s, e.key, now).0 == if e.deadline == 0 || now <= e.deadline then Some(e.value) else None
  {
    var i :| 0 <= i < |s| && s[i] == e;
    AtIs(s, i);
  }

  /** A store of a new key and a delete start a cleaner exactly when none is at work and the last was started
      more than a second before; nothing else does. */
  lemma CleanerStarts<K, V>(st: State<K, V>, op: Op<K, V>)
    requires Inv(st) && Allowed(st, op)
    ensures var st' := Step(st, op);
            var due := (op.Delete? || (op.Set? && !HasKey(st.s, op.e.key))) && op.now - st.last > 1_000_000_000
                       && !st.cleaning;
            && (due ==> st'.cleaning && st'.cleaners == [Started] && st'.last == op.stamp)
            && (!due ==> st'.last == st.last && |st'.cleaners| <= |st.cleaners| && (st'.cleaning ==> st.cleaning))
  {
  }

  // ---- the two-phase cleanup -----------------------------------------------------------------

  /** Steps other threads take between the snapshot and the removal. */
  predicate Foreign<K, V>(op: Op<K, V>) {
    op.Set? || op.Get? || op.Delete? || op.Resize?
  }

  lemma {:induction false} FoundStays<K, V>(states: seq<State<K, V>>, ops: seq<Op<K, V>>, a: nat, b: nat)
    requires Run(states, ops) && a <= b <= |ops| && states[a].cleaning && Inv(states[a])
    requires forall i :: a <= i < b ==> Foreign(ops[i])
    ensures states[b].cleaners == states[a].cleaners && states[b].cleaning
    decreases b
  {
    if a < b {
      FoundStays(states, ops, a, b - 1);
    }
  }

  /** The key of an entry that was stored and past its deadline. */
  ghost predicate Listed<K, V>(s: seq<Entry<K, V>>, at: Time, k: K) {
    exists x :: x in s && x.key == k && Past(x, at)
  }

  lemma StaleIsListed<K, V>(s: seq<Entry<K, V>>, at: Time, k: K)
    ensures k in Stale(s, at) <==> Listed(s, at, k)
  {
    if Listed(s, at, k) {
      var x :| x in s && x.key == k && Past(x, at);
      var i :| 0 <= i < |s| && s[i] == x;
    }
  }

  /** A cleanup whose phases are apart by any operations of others drops exactly the entries that are
      stored when it sweeps, expired at its own time, and whose key had expired when it listed keys. */
  lemma CleanupRemovesOnlyExpired<K, V>(states: seq<State<K, V>>, ops: seq<Op<K, V>>, a: nat, b: nat, c: nat,
                                        at: Time, e: Entry<K, V>)
    requires Run(states, ops) && a < b < |ops| && ops[a] == Snapshot(c, at) && ops[b].Sweep?
    requires forall i :: a < i < b ==> Foreign(ops[i])
    ensures e in states[b + 1].s <==> e in states[b].s && !(Past(e, at) && Listed(states[a].s, at, e.key))
    ensures e in states[a].s && e in states[b].s ==> (e in states[b + 1].s <==> e.deadline == 0 || at <= e.deadline)
  {
    RunKeeps(states, ops, a);
    RunKeeps(states, ops, a + 1);
    FoundStays(states, ops, a + 1, b);
    SweptMembers(states[b].s, Stale(states[a].s, at), at, e);
    StaleIsListed(states[a].s, at, e.key);
  }

  /** At most one cleaner is ever at work, whatever the schedule. */
  lemma OneCleaner<K, V>(states: seq<State<K, V>>, ops: seq<Op<K, V>>, n: nat)
    requires Run(states, ops) && n <= |ops|
    ensures |states[n].cleaners| <= 1 && (states[n].cleaning <==> |states[n].cleaners| == 1)
    ensures Unique(states[n].s) && (states[n].s == [] || |states[n].s| <= states[n].max)
  {
    RunKeeps(states, ops, n);
  }

  // ---- when the eviction loop ends --------------------------------------------------------------

  /** On a whole map each round drops the tail of the list, so this is when the loop can end. */
  lemma EvictionEnds<T>(s: seq<T>, max: int)
    ensures (exists n: nat :: |Dropped(s, n)| < max) <==> max >= 1
  {
    if max >= 1 {
      assert |Dropped(s, |s|)| < max;
    }
  }
}
