/** The TTL map as a sequence of entries, most recently used first. */
module Recency {
  import opened Basics

  /** A moment, in nanoseconds; 0 is the zero time. */
  type Time = int

  const SECOND: Time := 1_000_000_000

  datatype Entry<K, V> = Entry(key: K, value: V, deadline: Time)

  predicate Expired<K, V>(e: Entry<K, V>, now: Time) {
    e.deadline != 0 && now > e.deadline
  }

  predicate HasKey<K(==), V>(s: seq<Entry<K, V>>, k: K) {
    exists i :: 0 <= i < |s| && s[i].key == k
  }

  function At<K(==), V>(s: seq<Entry<K, V>>, k: K): (e: Entry<K, V>)
    requires HasKey(s, k)
    ensures e.key == k && e in s
  {
    if s[0].key == k then s[0] else At(s[1..], k)
  }

  function Without<K(==), V>(s: seq<Entry<K, V>>, k: K): seq<Entry<K, V>> {
    if s == [] then [] else if s[0].key == k then s[1..] else [s[0]] + Without(s[1..], k)
  }

  /** What is left when the tail is dropped until at most n entries remain. */
  function Newest<T>(s: seq<T>, n: nat): seq<T> {
    if |s| <= n then s else s[..n]
  }

  /** The list after n rounds of dropping the tail; an empty list stays as it is. */
  function Dropped<T>(s: seq<T>, n: nat): (r: seq<T>)
    ensures |r| == if n <= |s| then |s| - n else 0
  {
    if n == 0 || s == [] then s else Dropped(s[..|s| - 1], n - 1)
  }

  lemma {:induction false} DroppedIs<T>(s: seq<T>, n: nat)
    ensures Dropped(s, n) == Newest(s, if n <= |s| then |s| - n else 0)
  {
    if n > 0 && s != [] { DroppedIs(s[..|s| - 1], n - 1); }
  }

  function Set<K(==), V>(s: seq<Entry<K, V>>, max: nat, e: Entry<K, V>): seq<Entry<K, V>>
    requires max >= 1
  {
    if HasKey(s, e.key) then [e] + Without(s, e.key) else [e] + Newest(s, max - 1)
  }

  function Get<K(==), V>(s: seq<Entry<K, V>>, k: K, now: Time): (Option<V>, seq<Entry<K, V>>) {
    if !HasKey(s, k) then (None, s)
    else if Expired(At(s, k), now) then (None, Without(s, k))
    else (Some(At(s, k).value), [At(s, k)] + Without(s, k))
  }

  function Resize<K, V>(s: seq<Entry<K, V>>, max: int, newMax: int): seq<Entry<K, V>>
    requires newMax < max ==> newMax >= 0
  {
    if newMax < max then Newest(s, newMax) else s
  }

  /** The two phases of the background cleanup. */
  function Stale<K, V>(s: seq<Entry<K, V>>, now: Time): set<K> {
    set i | 0 <= i < |s| && Expired(s[i], now) :: s[i].key
  }

  function Swept<K(==), V>(s: seq<Entry<K, V>>, keys: set<K>, now: Time): seq<Entry<K, V>> {
    if s == [] then []
    else if s[0].key in keys && Expired(s[0], now) then Swept(s[1..], keys, now)
    else [s[0]] + Swept(s[1..], keys, now)
  }

  ghost predicate Unique<K, V>(s: seq<Entry<K, V>>) {
    forall i, j :: 0 <= i < j < |s| ==> s[i].key != s[j].key
  }

  // ---- positions ------------------------------------------------------------------

  lemma {:induction false} WithoutAt<K, V>(s: seq<Entry<K, V>>, k: nat)
    requires Unique(s) && k < |s|
    ensures Without(s, s[k].key) == Cut(s, k)
  {
    if k > 0 {
      assert s[0].key != s[k].key;
      WithoutAt(s[1..], k - 1);
      CutTail(s, k);
    }
  }

  lemma {:induction false} WithoutAbsent<K, V>(s: seq<Entry<K, V>>, k: K)
    requires !HasKey(s, k)
    ensures Without(s, k) == s
  {
    if s != [] {
      assert s[0].key != k;
      forall i | 0 <= i < |s| - 1 ensures s[1..][i].key != k { assert s[1..][i] == s[i + 1]; }
      WithoutAbsent(s[1..], k);
    }
  }

  lemma {:induction false} AtIs<K, V>(s: seq<Entry<K, V>>, k: nat)
    requires Unique(s) && k < |s|
    ensures HasKey(s, s[k].key) && At(s, s[k].key) == s[k]
  {
    if k > 0 {
      assert s[0].key != s[k].key;
      AtIs(s[1..], k - 1);
    }
  }

  lemma CutUnique<K, V>(s: seq<Entry<K, V>>, k: nat)
    requires Unique(s) && k < |s|
    ensures Unique(Cut(s, k)) && !HasKey(Cut(s, k), s[k].key)
  {
  }

  lemma ConsUnique<K, V>(e: Entry<K, V>, s: seq<Entry<K, V>>)
    requires Unique(s) && !HasKey(s, e.key)
    ensures Unique([e] + s)
  {
  }

  lemma PrefixUnique<K, V>(s: seq<Entry<K, V>>, n: nat, k: K)
    requires Unique(s)
    ensures Unique(Newest(s, n)) && (HasKey(Newest(s, n), k) ==> HasKey(s, k))
  {
  }

  // ---- what every operation keeps -----------------------------------------------------

  lemma SetKeeps<K, V>(s: seq<Entry<K, V>>, max: nat, e: Entry<K, V>)
    requires Unique(s) && |s| <= max && max >= 1
    ensures Unique(Set(s, max, e)) && |Set(s, max, e)| <= max
  {
    if HasKey(s, e.key) {
      var k :| 0 <= k < |s| && s[k].key == e.key;
      WithoutAt(s, k);
      CutUnique(s, k);
      ConsUnique(e, Cut(s, k));
    } else {
      PrefixUnique(s, max - 1, e.key);
      ConsUnique(e, Newest(s, max - 1));
    }
  }

  lemma GetKeeps<K, V>(s: seq<Entry<K, V>>, k: K, now: Time)
    requires Unique(s)
    ensures Unique(Get(s, k, now).1) && |Get(s, k, now).1| <= |s|
  {
    if HasKey(s, k) {
      var i :| 0 <= i < |s| && s[i].key == k;
      WithoutAt(s, i);
      AtIs(s, i);
      CutUnique(s, i);
      ConsUnique(s[i], Cut(s, i));
    }
  }

  lemma WithoutKeeps<K, V>(s: seq<Entry<K, V>>, k: K)
    requires Unique(s)
    ensures Unique(Without(s, k)) && |Without(s, k)| <= |s| && !HasKey(Without(s, k), k)
  {
    if HasKey(s, k) {
      var i :| 0 <= i < |s| && s[i].key == k;
      WithoutAt(s, i);
      CutUnique(s, i);
    } else {
      WithoutAbsent(s, k);
    }
  }

  // ---- what each operation does to each entry ----------------------------------------

  lemma CutMembers<K, V>(s: seq<Entry<K, V>>, i: nat, x: Entry<K, V>)
    requires Unique(s) && i < |s|
    ensures x in Cut(s, i) <==> x in s && x.key != s[i].key
  {
    var r := Cut(s, i);
    assert |r| == |s| - 1;
    assert forall j :: 0 <= j < |r| ==> r[j] == s[if j < i then j else j + 1];
    if x in r {
      var j :| 0 <= j < |r| && r[j] == x;
      assert s[if j < i then j else j + 1] == x;
    }
    if x in s && x.key != s[i].key {
      var j :| 0 <= j < |s| && s[j] == x;
      assert r[if j < i then j else j - 1] == x;
    }
  }

  lemma WithoutMembers<K, V>(s: seq<Entry<K, V>>, k: K, x: Entry<K, V>)
    requires Unique(s)
    ensures x in Without(s, k) <==> x in s && x.key != k
  {
    if HasKey(s, k) {
      var i :| 0 <= i < |s| && s[i].key == k;
      WithoutAt(s, i);
      CutMembers(s, i, x);
    } else {
      WithoutAbsent(s, k);
      KeyMember(s, k);
    }
  }

  /** What was stored is found again until its deadline, in front of everything else. */
  lemma SetIsFound<K, V>(s: seq<Entry<K, V>>, max: nat, e: Entry<K, V>, now: Time)
    requires Unique(s) && max >= 1
    ensures Get(Set(s, max, e), e.key, now).0 ==
            if e.deadline == 0 || now <= e.deadline then Some(e.value) else None
    ensures Set(s, max, e)[0] == e
  {
    var r := Set(s, max, e);
    assert r[0] == e && HasKey(r, e.key);
  }

  /** Other entries stay as they are while the key is known or there is room. */
  lemma SetKeepsOthers<K, V>(s: seq<Entry<K, V>>, max: nat, e: Entry<K, V>, x: Entry<K, V>)
    requires Unique(s) && max >= 1 && x.key != e.key && (HasKey(s, e.key) || |s| < max)
    ensures x in Set(s, max, e) <==> x in s
  {
    WithoutMembers(s, e.key, x);
    var r := Set(s, max, e);
    assert r[0] == e && r == [e] + r[1..];
  }

  /** Looking a key up removes its entry if that has expired, and nothing else. */
  lemma GetMembers<K, V>(s: seq<Entry<K, V>>, k: K, now: Time, x: Entry<K, V>)
    requires Unique(s)
    ensures x in Get(s, k, now).1 <==> x in s && (x.key != k || x.deadline == 0 || now <= x.deadline)
    ensures Get(s, k, now).0.Some? <==> exists y :: y in s && y.key == k && (y.deadline == 0 || now <= y.deadline)
    ensures x in s && x.key == k && (x.deadline == 0 || now <= x.deadline) ==> Get(s, k, now).0 == Some(x.value)
  {
    WithoutMembers(s, k, x);
    if HasKey(s, k) {
      var i :| 0 <= i < |s| && s[i].key == k;
      AtIs(s, i);
      assert forall y :: y in s && y.key == k ==> y == s[i];
    } else {
      KeyMember(s, k);
    }
  }

  // ---- the sweep ---------------------------------------------------------------------

  lemma {:induction false} SweptMembers<K, V>(s: seq<Entry<K, V>>, keys: set<K>, now: Time, e: Entry<K, V>)
    ensures e in Swept(s, keys, now) <==> e in s && (e.key !in keys || e.deadline == 0 || now <= e.deadline)
  {
    if s != [] {
      SweptMembers(s[1..], keys, now, e);
      assert s == [s[0]] + s[1..];
    }
  }

  lemma KeyMember<K, V>(s: seq<Entry<K, V>>, k: K)
    ensures HasKey(s, k) <==> exists e :: e in s && e.key == k
  {
    if HasKey(s, k) {
      var i :| 0 <= i < |s| && s[i].key == k;
      assert s[i] in s;
    }
  }

  lemma SweptKey<K, V>(s: seq<Entry<K, V>>, keys: set<K>, now: Time, k: K)
    ensures HasKey(Swept(s, keys, now), k) ==> HasKey(s, k)
  {
    if HasKey(Swept(s, keys, now), k) {
      KeyMember(Swept(s, keys, now), k);
      var e :| e in Swept(s, keys, now) && e.key == k;
      SweptMembers(s, keys, now, e);
    }
  }

  lemma {:induction false} SweptKeeps<K, V>(s: seq<Entry<K, V>>, keys: set<K>, now: Time)
    requires Unique(s)
    ensures Unique(Swept(s, keys, now)) && |Swept(s, keys, now)| <= |s|
  {
    if s != [] {
      SweptKeeps(s[1..], keys, now);
      if !(s[0].key in keys && Expired(s[0], now)) {
        SweptKey(s[1..], keys, now, s[0].key);
        ConsUnique(s[0], Swept(s[1..], keys, now));
      }
    }
  }

  /** One round of the removal loop: look the key up again, drop it if still expired. */
  function Reaped<K(==), V>(s: seq<Entry<K, V>>, k: K, now: Time): seq<Entry<K, V>> {
    if HasKey(s, k) && Expired(At(s, k), now) then Without(s, k) else s
  }

  lemma ReapedCons<K, V>(e: Entry<K, V>, t: seq<Entry<K, V>>, k: K, now: Time)
    requires e.key != k
    ensures Reaped([e] + t, k, now) == [e] + Reaped(t, k, now)
  {
    var s := [e] + t;
    assert s[1..] == t;
    if HasKey(t, k) {
      var i :| 0 <= i < |t| && t[i].key == k;
      assert s[i + 1].key == k;
    }
  }

  lemma {:induction false} SweptStep<K, V>(s: seq<Entry<K, V>>, keys: set<K>, k: K, now: Time)
    requires Unique(s)
    ensures Swept(s, keys + {k}, now) == Reaped(Swept(s, keys, now), k, now)
  {
    if s != [] {
      var e, t := s[0], s[1..];
      SweptStep(t, keys, k, now);
      var r := Swept(t, keys, now);
      if e.key == k {
        SweptKey(t, keys, now, k);
        assert !HasKey(t, k);
        assert Swept(t, keys + {k}, now) == r;
        assert ([e] + r)[1..] == r && ([e] + r)[0].key == k;
      } else if !(e.key in keys && Expired(e, now)) {
        ReapedCons(e, r, k, now);
      }
    }
  }
}
