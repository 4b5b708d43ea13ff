/** The intrusive doubly linked ring: a sentinel, elements that name the list they belong to,
    and the sequence of elements the ring stands for. */
module RingList {
  import opened Basics

  class Element<V(0)> {
    var next: Element?<V>
    var prev: Element?<V>
    var list: List?<V>
    var Value: V
    /** The list this element, or this sentinel, was made for. */
    ghost var owner: List?<V>

    constructor (v: V)
      ensures Value == v && next == null && prev == null && list == null && owner == null
    {
      Value, next, prev, list, owner := v, null, null, null, null;
    }

    /** The element behind this one, or null at the end and outside any list. */
    method Next() returns (n: Element?<V>)
      requires list != null ==> list.Valid() && this in list.elems
      ensures list == null ==> n == null
      ensures list != null ==> n == Nth(list.elems, list.Position(this) + 1)
    {
      if list != null {
        ghost var j, s := list.Position(this), list.elems;
        assert Cycle(list.root, s)[j + 1].next == Cycle(list.root, s)[j + 2];
        return if next != list.root then next else null;
      }
      return null;
    }

    method Prev() returns (n: Element?<V>)
      requires list != null ==> list.Valid() && this in list.elems
      ensures list == null ==> n == null
      ensures list != null ==> n == Nth(list.elems, list.Position(this) - 1)
    {
      if list != null {
        ghost var j, s := list.Position(this), list.elems;
        assert Cycle(list.root, s)[j + 1].prev == Cycle(list.root, s)[j];
        return if prev != list.root then prev else null;
      }
      return null;
    }

    constructor Sentinel()
      ensures next == null && prev == null && list == null && owner == null
    {
      next, prev, list, owner := null, null, null, null;
    }
  }

  function Nth<V(0)>(s: seq<Element<V>>, i: int): Element?<V> {
    if 0 <= i < |s| then s[i] else null
  }

  // ---- sequences ------------------------------------------------------------------

  function InsertAt<T>(s: seq<T>, p: nat, x: T): seq<T>
    requires p <= |s|
  {
    s[..p] + [x] + s[p..]
  }

  lemma InsertAtFacts<T>(s: seq<T>, p: nat, x: T)
    requires Distinct(s) && p <= |s| && x !in s
    ensures Distinct(InsertAt(s, p, x))
    ensures forall y :: y in InsertAt(s, p, x) <==> y in s || y == x
  {
    var r := InsertAt(s, p, x);
    assert forall i :: 0 <= i < |r| ==> r[i] == if i < p then s[i] else if i == p then x else s[i - 1];
    forall y | y in s ensures y in r {
      var i :| 0 <= i < |s| && s[i] == y;
      assert r[if i < p then i else i + 1] == y;
    }
    assert r[p] == x;
  }

  /** The sequence without its first x; with x put before or behind the first mark. */
  function Without<T(==)>(s: seq<T>, x: T): seq<T> {
    if s == [] then [] else if s[0] == x then s[1..] else [s[0]] + Without(s[1..], x)
  }

  function PutBefore<T(==)>(s: seq<T>, mark: T, x: T): seq<T> {
    if s == [] then [] else if s[0] == mark then [x] + s else [s[0]] + PutBefore(s[1..], mark, x)
  }

  function PutAfter<T(==)>(s: seq<T>, mark: T, x: T): seq<T> {
    if s == [] then [] else if s[0] == mark then [s[0], x] + s[1..] else [s[0]] + PutAfter(s[1..], mark, x)
  }

  lemma {:induction false} WithoutAt<T>(s: seq<T>, j: nat)
    requires Distinct(s) && j < |s|
    ensures Without(s, s[j]) == Cut(s, j)
  {
    if j > 0 {
      assert s[0] != s[j];
      assert Distinct(s[1..]) && s[1..][j - 1] == s[j];
      WithoutAt(s[1..], j - 1);
      CutTail(s, j);
    }
  }

  lemma InsertTail<T>(s: seq<T>, p: nat, x: T)
    requires 0 < p <= |s|
    ensures InsertAt(s, p, x) == [s[0]] + InsertAt(s[1..], p - 1, x)
  {
    assert s[..p] == [s[0]] + s[1..][..p - 1] && s[p..] == s[1..][p - 1..];
  }

  lemma {:induction false} PutBeforeAt<T>(s: seq<T>, j: nat, x: T)
    requires Distinct(s) && j < |s|
    ensures PutBefore(s, s[j], x) == InsertAt(s, j, x)
  {
    if j > 0 {
      assert s[0] != s[j];
      PutBeforeAt(s[1..], j - 1, x);
      InsertTail(s, j, x);
    } else {
      InsertEnds(s, x);
    }
  }

  lemma {:induction false} PutAfterAt<T>(s: seq<T>, j: nat, x: T)
    requires Distinct(s) && j < |s|
    ensures PutAfter(s, s[j], x) == InsertAt(s, j + 1, x)
  {
    InsertTail(s, j + 1, x);
    if j > 0 {
      assert s[0] != s[j];
      PutAfterAt(s[1..], j - 1, x);
    } else {
      InsertEnds(s[1..], x);
      assert [s[0]] + ([x] + s[1..]) == [s[0], x] + s[1..];
    }
  }

  lemma PutAt<T>(s: seq<T>, j: nat, x: T)
    requires Distinct(s) && j < |s|
    ensures PutBefore(s, s[j], x) == InsertAt(s, j, x) && PutAfter(s, s[j], x) == InsertAt(s, j + 1, x)
  {
    PutBeforeAt(s, j, x);
    PutAfterAt(s, j, x);
  }

  lemma InsertEnds<T>(r: seq<T>, x: T)
    ensures InsertAt(r, 0, x) == [x] + r && InsertAt(r, |r|, x) == r + [x]
  {
    assert r[..0] == [] && r[0..] == r && r[..|r|] == r && r[|r|..] == [];
  }

  lemma InsertAtElement<T>(s: seq<T>, p: nat, x: T, i: nat)
    requires p <= |s| && i <= |s|
    ensures |InsertAt(s, p, x)| == |s| + 1
    ensures InsertAt(s, p, x)[i] == if i < p then s[i] else if i == p then x else s[i - 1]
  {
  }

  lemma ReinsertSame<T>(s: seq<T>, j: nat)
    requires j < |s|
    ensures InsertAt(Cut(s, j), j, s[j]) == s
  {
    var r := Cut(s, j);
    forall i | 0 <= i < |s| ensures InsertAt(r, j, s[j])[i] == s[i] {
      InsertAtElement(r, j, s[j], i);
    }
  }

  /** Moving behind place p of the cycle, in the words of the callers. */
  lemma MovedFront<T>(s: seq<T>, j: nat)
    requires Distinct(s) && j < |s|
    ensures Moved(s, j, 0) == [s[j]] + Without(s, s[j])
  {
    WithoutAt(s, j);
    InsertEnds(Cut(s, j), s[j]);
  }

  lemma MovedBack<T>(s: seq<T>, j: nat)
    requires Distinct(s) && j < |s|
    ensures Moved(s, j, |s|) == Without(s, s[j]) + [s[j]]
  {
    WithoutAt(s, j);
    MovedLast(s, j);
    InsertEnds(Cut(s, j), s[j]);
  }

  lemma MovedLast<T>(s: seq<T>, j: nat)
    requires j < |s|
    ensures Moved(s, j, |s|) == InsertAt(Cut(s, j), |Cut(s, j)|, s[j])
  {
    if j == |s| - 1 { ReinsertSame(s, j); }
  }

  lemma MovedIs<T>(s: seq<T>, j: nat, k: nat)
    requires j < |s| && k < |s| && j != k
    ensures var r, k' := Cut(s, j), if k < j then k else k - 1;
            && Moved(s, j, k) == InsertAt(r, k', s[j]) && Moved(s, j, k + 1) == InsertAt(r, k' + 1, s[j])
            && r[k'] == s[k]
  {
    var r, k' := Cut(s, j), if k < j then k else k - 1;
    assert r[k'] == s[k];
    if k == j + 1 || k + 1 == j + 1 { ReinsertSame(s, j); }
    if k < j {
      assert Moved(s, j, k) == InsertAt(r, k, s[j]);
      assert Moved(s, j, k + 1) == InsertAt(r, k + 1, s[j]);
    }
  }

  lemma PutAtMark<T>(r: seq<T>, i: nat, mark: T, x: T)
    requires Distinct(r) && i < |r| && r[i] == mark
    ensures PutBefore(r, mark, x) == InsertAt(r, i, x) && PutAfter(r, mark, x) == InsertAt(r, i + 1, x)
  {
    PutAt(r, i, x);
  }

  lemma MovedByMark<T>(s: seq<T>, j: nat, k: nat, w: seq<T>)
    requires j < |s| && k < |s| && j != k && w == Cut(s, j) && Distinct(w)
    ensures Moved(s, j, k) == PutBefore(w, s[k], s[j]) && Moved(s, j, k + 1) == PutAfter(w, s[k], s[j])
  {
    MovedIs(s, j, k);
    PutAtMark(w, if k < j then k else k - 1, s[k], s[j]);
  }

  lemma WithoutFacts<T>(s: seq<T>, j: nat)
    requires Distinct(s) && j < |s|
    ensures Without(s, s[j]) == Cut(s, j) && Distinct(Without(s, s[j]))
  {
    WithoutAt(s, j);
    CutDistinct(s, j);
  }

  lemma MovedBeforeAfter<T>(s: seq<T>, j: nat, k: nat)
    requires Distinct(s) && j < |s| && k < |s| && j != k
    ensures Moved(s, j, k) == PutBefore(Without(s, s[j]), s[k], s[j])
    ensures Moved(s, j, k + 1) == PutAfter(Without(s, s[j]), s[k], s[j])
  {
    WithoutFacts(s, j);
    MovedByMark(s, j, k, Without(s, s[j]));
  }

  /** The ring as it is walked: sentinel, elements, sentinel. */
  function Cycle<V(0)>(root: Element<V>, s: seq<Element<V>>): seq<Element<V>> {
    [root] + s + [root]
  }

  ghost predicate Linked<V(0)>(root: Element<V>, s: seq<Element<V>>)
    reads root, s
  {
    var c := Cycle(root, s);
    && (forall i {:trigger c[i].next} :: 0 <= i <= |s| ==> c[i].next == c[i + 1])
    && (forall i {:trigger c[i].prev} :: 1 <= i <= |s| + 1 ==> c[i].prev == c[i - 1])
  }

  /** The neighbours of e are joined past it. */
  method Unlink<V(0)>(root: Element<V>, ghost s: seq<Element<V>>, e: Element<V>, ghost j: nat)
    requires Linked(root, s) && Distinct(s) && root !in s && j < |s| && s[j] == e
    modifies Cycle(root, s)[j], Cycle(root, s)[j + 2]
    ensures Linked(root, Cut(s, j))
    ensures forall x <- Cycle(root, s) :: x.list == old(x.list) && x.Value == old(x.Value) && x.owner == old(x.owner)
    ensures e.next == old(e.next) && e.prev == old(e.prev)
  {
    ghost var c := Cycle(root, s);
    assert c[j + 1] == e && e.prev == c[j] && e.next == c[j + 2];
    e.prev.next := e.next;
    e.next.prev := e.prev;
    ghost var c' := Cycle(root, Cut(s, j));
    assert forall i :: 0 <= i <= j ==> c'[i] == c[i];
    assert forall i :: j < i <= |s| ==> c'[i] == c[i + 1];
    forall i | 0 <= i < |s| ensures c'[i].next == c'[i + 1] {
      if i != j { Apart(root, s, if i < j then i else i + 1, j); }
    }
    forall i | 1 <= i <= |s| ensures c'[i].prev == c'[i - 1] {
      if i != j + 1 { ApartBack(root, s, if i <= j then i else i + 1, j + 2); }
    }
  }

  /** Nodes of the cycle are different, read from either end. */
  lemma Apart<V(0)>(root: Element<V>, s: seq<Element<V>>, i: nat, k: nat)
    requires Distinct(s) && root !in s && i <= |s| && k <= |s| && i != k
    ensures Cycle(root, s)[i] != Cycle(root, s)[k]
  {
    assert forall a :: 1 <= a <= |s| ==> Cycle(root, s)[a] == s[a - 1];
  }

  lemma ApartBack<V(0)>(root: Element<V>, s: seq<Element<V>>, i: nat, k: nat)
    requires Distinct(s) && root !in s && 1 <= i <= |s| + 1 && 1 <= k <= |s| + 1 && i != k
    ensures Cycle(root, s)[i] != Cycle(root, s)[k]
  {
    assert forall a :: 1 <= a <= |s| ==> Cycle(root, s)[a] == s[a - 1];
  }

  lemma CycleInsert<V(0)>(root: Element<V>, s: seq<Element<V>>, p: nat, e: Element<V>)
    requires p <= |s|
    ensures var c, c' := Cycle(root, s), Cycle(root, InsertAt(s, p, e));
            && |c'| == |c| + 1 && c'[p + 1] == e
            && (forall i :: 0 <= i <= p ==> c'[i] == c[i])
            && (forall i :: p + 1 < i <= |s| + 2 ==> c'[i] == c[i - 1])
  {
  }

  /** Four link updates put e behind at. */
  method LinkAfter<V(0)>(root: Element<V>, ghost s: seq<Element<V>>, e: Element<V>, at: Element<V>, ghost p: nat)
    requires Linked(root, s) && Distinct(s) && root !in s && e !in s && e != root && p <= |s| && Cycle(root, s)[p] == at
    modifies e, at, Cycle(root, s)[p + 1]
    ensures Linked(root, InsertAt(s, p, e))
    ensures forall x <- Cycle(root, s) :: x.list == old(x.list) && x.Value == old(x.Value) && x.owner == old(x.owner)
    ensures e.list == old(e.list) && e.Value == old(e.Value) && e.owner == old(e.owner)
  {
    ghost var c := Cycle(root, s);
    assert e !in c;
    assert at.next == c[p + 1];
    e.prev := at;
    e.next := at.next;
    e.prev.next := e;
    e.next.prev := e;
    ghost var c' := Cycle(root, InsertAt(s, p, e));
    CycleInsert(root, s, p, e);
    forall i | 0 <= i <= |s| + 1 ensures c'[i].next == c'[i + 1] {
      if i < p { Apart(root, s, i, p); } else if i > p + 1 { Apart(root, s, i - 1, p); }
    }
    forall i | 1 <= i <= |s| + 2 ensures c'[i].prev == c'[i - 1] {
      if i <= p { ApartBack(root, s, i, p + 1); } else if i > p + 2 { ApartBack(root, s, i - 1, p + 1); }
    }
  }

  /** Taken out at position j and put back behind `at`. */
  method Relink<V(0)>(root: Element<V>, ghost s: seq<Element<V>>, e: Element<V>, at: Element<V>, ghost j: nat,
                      ghost p: nat)
    requires Linked(root, s) && Distinct(s) && root !in s && j < |s| && s[j] == e
    requires p < |s| && Cycle(root, Cut(s, j))[p] == at
    modifies root, s
    ensures Linked(root, InsertAt(Cut(s, j), p, e))
    ensures forall x <- Cycle(root, s) :: x.list == old(x.list) && x.Value == old(x.Value) && x.owner == old(x.owner)
  {
    CutDistinct(s, j);
    assert forall x <- Cycle(root, s) :: x == e || x in Cycle(root, Cut(s, j));
    Unlink(root, s, e, j);
    LinkAfter(root, Cut(s, j), e, at, p);
  }

  class List<V(0)> {
    const root: Element<V>
    var len: nat
    ghost var elems: seq<Element<V>>
    /** Every element this list ever inserted. */
    ghost var known: set<Element<V>>

    ghost predicate Valid()
      reads this, root, elems, known
    {
      && root.owner == this && root.list == null && root !in known
      && len == |elems|
      && Distinct(elems) && (forall x :: x in elems ==> x in known)
      && (forall x :: x in known ==> x.owner == this && (x.list == this <==> x in elems))
      && if root.next == null then elems == [] && root.prev == null else Linked(root, elems)
    }

    ghost function Values(): seq<V>
      reads this, elems
    {
      seq(|elems|, i requires 0 <= i < |elems| reads this, elems => elems[i].Value)
    }

    /** The zero List: empty and ready to use. */
    constructor ()
      ensures Valid() && elems == [] && known == {} && fresh(root)
    {
      root := new Element<V>.Sentinel();
      len, elems, known := 0, [], {};
      new;
      root.owner := this;
    }

    method LazyInit()
      requires Valid()
      modifies root
      ensures Valid() && root.next != null && root.owner == old(root.owner) && root.list == old(root.list)
    {
      if root.next == null {
        root.next := root;
        root.prev := root;
      }
    }

    /** insert: e becomes the element at position p of the sequence. */
    method Insert(e: Element<V>, at: Element<V>, ghost p: nat)
      requires Valid() && root.next != null && p <= |elems| && Cycle(root, elems)[p] == at
      requires e !in known && e != root && e.owner == null && e.list == null
      modifies this, root, elems, e
      ensures Valid() && root.next != null
      ensures elems == InsertAt(old(elems), p, e) && known == old(known) + {e}
      ensures e.Value == old(e.Value) && forall x <- old(elems) :: x.Value == old(x.Value)
    {
      LinkAfter(root, elems, e, at, p);
      e.list := this;
      e.owner := this;
      len := len + 1;
      elems, known := InsertAt(elems, p, e), known + {e};
      assert Cycle(root, elems)[0].next == Cycle(root, elems)[1];
    }

    method InsertValue(v: V, at: Element<V>, ghost p: nat) returns (e: Element<V>)
      requires Valid() && root.next != null && p <= |elems| && Cycle(root, elems)[p] == at
      modifies this, root, elems
      ensures Valid() && root.next != null && fresh(e) && e.Value == v
      ensures elems == InsertAt(old(elems), p, e) && known == old(known) + {e}
      ensures forall x <- old(elems) :: x.Value == old(x.Value)
    {
      e := new Element<V>(v);
      Insert(e, at, p);
    }

    /** remove: the element at position j leaves, cleared of links and membership. */
    method RemoveElement(e: Element<V>, ghost j: nat)
      requires Valid() && j < |elems| && elems[j] == e
      modifies this, root, elems
      ensures Valid() && elems == Cut(old(elems), j) && known == old(known)
      ensures e.next == null && e.prev == null && e.list == null
      ensures forall x <- old(elems) :: x.Value == old(x.Value)
    {
      Unlink(root, elems, e, j);
      CutDistinct(elems, j);
      e.next := null;
      e.prev := null;
      e.list := null;
      len := len - 1;
      elems := Cut(elems, j);
      assert Cycle(root, elems)[0].next == Cycle(root, elems)[1];
    }

    /** move: e, at position j, goes behind `at`, which is at place p of the cycle. */
    method Move(e: Element<V>, at: Element<V>, ghost j: nat, ghost p: nat)
      requires Valid() && j < |elems| && elems[j] == e && p <= |elems| && Cycle(root, elems)[p] == at
      modifies this, root, elems
      ensures Valid() && known == old(known)
      ensures elems == Moved(old(elems), j, p)
      ensures forall x <- old(elems) :: x.Value == old(x.Value)
    {
      assert Cycle(root, elems)[j + 1] == e;
      if e == at {
        if p != j + 1 { Apart(root, elems, p, j + 1); }
        return;
      }
      ghost var s1, p1 := Cut(elems, j), if p <= j then p else p - 1;
      assert Cycle(root, s1)[p1] == at;
      Relink(root, elems, e, at, j, p1);
      CutDistinct(elems, j);
      InsertAtFacts(s1, p1, e);
      elems := Moved(elems, j, p);
      assert Cycle(root, elems)[0].next == Cycle(root, elems)[1];
    }

    // ---- the exported operations -----------------------------------------------------

    /** An element this list never inserted does not claim to be in it. */
    ghost predicate Honest(e: Element<V>)
      reads this, e
    {
      e in known || e.list != this
    }

    ghost function Position(e: Element<V>): (j: nat)
      requires e in elems
      reads this
      ensures j < |elems| && elems[j] == e
    {
      var j :| 0 <= j < |elems| && elems[j] == e;
      j
    }

    method Front() returns (e: Element?<V>)
      requires Valid()
      ensures e == if elems == [] then null else elems[0]
    {
      if len == 0 { return null; }
      assert Cycle(root, elems)[0].next == Cycle(root, elems)[1];
      return root.next;
    }

    method Back() returns (e: Element?<V>)
      requires Valid()
      ensures e == if elems == [] then null else elems[|elems| - 1]
    {
      if len == 0 { return null; }
      assert Cycle(root, elems)[|elems| + 1].prev == Cycle(root, elems)[|elems|];
      return root.prev;
    }

    /** e.Next() for the element at position k. */
    method NextOf(e: Element<V>, ghost k: nat) returns (n: Element?<V>)
      requires Valid() && k < |elems| && elems[k] == e
      ensures n == null <==> k + 1 == |elems|
      ensures n != null ==> n == elems[k + 1]
    {
      assert e in known && e.list == this;
      n := e.Next();
      assert Position(e) == k;
    }

    method Remove(e: Element<V>) returns (v: V)
      requires Valid() && Honest(e)
      modifies this, root, elems
      ensures Valid() && known == old(known) && v == e.Value && e.list != this
      ensures elems == if old(e.list) == this then Without(old(elems), e) else old(elems)
      ensures forall x <- old(elems) :: x.Value == old(x.Value)
      ensures old(e.list) != this ==> unchanged(this) && unchanged(root) && unchanged(old(elems))
    {
      if e.list == this {
        WithoutAt(elems, Position(e));
        RemoveElement(e, Position(e));
      }
      v := e.Value;
    }

    method PushFront(v: V) returns (e: Element<V>)
      requires Valid()
      modifies this, root, elems
      ensures Valid() && fresh(e) && e.Value == v && elems == [e] + old(elems) && known == old(known) + {e}
      ensures forall x <- old(elems) :: x.Value == old(x.Value)
    {
      LazyInit();
      e := InsertValue(v, root, 0);
    }

    method PushBack(v: V) returns (e: Element<V>)
      requires Valid()
      modifies this, root, elems
      ensures Valid() && fresh(e) && e.Value == v && elems == old(elems) + [e] && known == old(known) + {e}
      ensures forall x <- old(elems) :: x.Value == old(x.Value)
    {
      LazyInit();
      assert Cycle(root, elems)[|elems| + 1].prev == Cycle(root, elems)[|elems|];
      e := InsertValue(v, root.prev, |elems|);
    }

    method InsertBefore(v: V, mark: Element<V>) returns (e: Element?<V>)
      requires Valid() && Honest(mark)
      modifies this, root, elems
      ensures Valid() && (e == null <==> old(mark.list) != this)
      ensures e != null ==>
                fresh(e) && e.Value == v && elems == PutBefore(old(elems), mark, e) && known == old(known) + {e}
      ensures e == null ==> unchanged(this) && unchanged(root) && unchanged(old(elems))
      ensures forall x <- old(elems) :: x.Value == old(x.Value)
    {
      if mark.list != this { return null; }
      ghost var j := Position(mark);
      assert Cycle(root, elems)[j + 1].prev == Cycle(root, elems)[j];
      e := InsertValue(v, mark.prev, j);
      PutAt(old(elems), j, e);
    }

    method InsertAfter(v: V, mark: Element<V>) returns (e: Element?<V>)
      requires Valid() && Honest(mark)
      modifies this, root, elems
      ensures Valid() && (e == null <==> old(mark.list) != this)
      ensures e != null ==>
                fresh(e) && e.Value == v && elems == PutAfter(old(elems), mark, e) && known == old(known) + {e}
      ensures e == null ==> unchanged(this) && unchanged(root) && unchanged(old(elems))
      ensures forall x <- old(elems) :: x.Value == old(x.Value)
    {
      if mark.list != this { return null; }
      ghost var j := Position(mark);
      assert Cycle(root, elems)[j + 1] == mark;
      e := InsertValue(v, mark, j + 1);
      PutAt(old(elems), j, e);
    }

    method MoveToFront(e: Element<V>)
      requires Valid() && Honest(e)
      modifies this, root, elems
      ensures Valid() && known == old(known)
      ensures elems == if old(e.list) == this then [e] + Without(old(elems), e) else old(elems)
      ensures forall x <- old(elems) :: x.Value == old(x.Value)
      ensures old(e.list) != this ==> unchanged(this) && unchanged(root) && unchanged(old(elems))
    {
      if e.list != this { return; }
      ghost var j := Position(e);
      MovedFront(elems, j);
      assert Cycle(root, elems)[0].next == Cycle(root, elems)[1] == elems[0];
      if root.next == e { return; }
      Move(e, root, j, 0);
    }

    method MoveToBack(e: Element<V>)
      requires Valid() && Honest(e)
      modifies this, root, elems
      ensures Valid() && known == old(known)
      ensures elems == if old(e.list) == this then Without(old(elems), e) + [e] else old(elems)
      ensures forall x <- old(elems) :: x.Value == old(x.Value)
      ensures old(e.list) != this ==> unchanged(this) && unchanged(root) && unchanged(old(elems))
    {
      if e.list != this { return; }
      ghost var j, n := Position(e), |elems|;
      MovedBack(elems, j);
      assert Cycle(root, elems)[n + 1].prev == Cycle(root, elems)[n] == elems[n - 1];
      if root.prev == e { return; }
      Move(e, root.prev, j, n);
    }

    method MoveBefore(e: Element<V>, mark: Element<V>)
      requires Valid() && Honest(e) && Honest(mark)
      modifies this, root, elems
      ensures Valid() && known == old(known)
      ensures var moves := old(e.list) == this && old(mark.list) == this && e != mark;
              && elems == (if moves then PutBefore(Without(old(elems), e), mark, e) else old(elems))
              && (!moves ==> unchanged(this) && unchanged(root) && unchanged(old(elems)))
      ensures forall x <- old(elems) :: x.Value == old(x.Value)
    {
      if e.list != this || e == mark || mark.list != this { return; }
      ghost var j, k := Position(e), Position(mark);
      assert Cycle(root, elems)[k + 1].prev == Cycle(root, elems)[k];
      MovedBeforeAfter(elems, j, k);
      Move(e, mark.prev, j, k);
    }

    method MoveAfter(e: Element<V>, mark: Element<V>)
      requires Valid() && Honest(e) && Honest(mark)
      modifies this, root, elems
      ensures Valid() && known == old(known)
      ensures var moves := old(e.list) == this && old(mark.list) == this && e != mark;
              && elems == (if moves then PutAfter(Without(old(elems), e), mark, e) else old(elems))
              && (!moves ==> unchanged(this) && unchanged(root) && unchanged(old(elems)))
      ensures forall x <- old(elems) :: x.Value == old(x.Value)
    {
      if e.list != this || e == mark || mark.list != this { return; }
      ghost var j, k := Position(e), Position(mark);
      assert Cycle(root, elems)[k + 1] == mark;
      MovedBeforeAfter(elems, j, k);
      Move(e, mark, j, k + 1);
    }

    lemma ValuesSplit(front: seq<Element<V>>, back: seq<Element<V>>, u: seq<V>, v: seq<V>)
      requires elems == front + back && |u| == |front| && |v| == |back|
      requires forall k :: 0 <= k < |front| ==> front[k].Value == u[k]
      requires forall k :: 0 <= k < |back| ==> back[k].Value == v[k]
      ensures Values() == u + v
    {
    }

    /** Two different lists share no element and no sentinel. */
    lemma Separate(other: List<V>)
      requires Valid() && other.Valid() && other != this
      ensures known !! other.known && root != other.root && root !in other.known && other.root !in known
      ensures forall y :: y in other.elems ==> y != root && y !in elems
      ensures other.root !in elems
    {
    }

    /** One insertion, seen together with a second list that may be this one. */
    method InsertBeside(v: V, at: Element<V>, ghost p: nat, ghost other: List<V>) returns (x: Element<V>)
      requires Valid() && other.Valid() && root.next != null && p <= |elems| && Cycle(root, elems)[p] == at
      modifies this, root, elems
      ensures Valid() && other.Valid() && root.next != null
      ensures fresh(x) && x.Value == v && elems == InsertAt(old(elems), p, x)
      ensures other != this ==> other.elems == old(other.elems)
      ensures forall y <- old(elems) :: y.Value == old(y.Value)
      ensures forall y <- old(other.elems) :: y.Value == old(y.Value)
    {
      if other != this { Separate(other); }
      ghost var o := Cycle(other.root, other.elems);
      x := InsertValue(v, at, p);
      if other != this {
        assert forall y <- o :: y.next == old(y.next) && y.prev == old(y.prev);
        assert other.root.next != null ==> Linked(other.root, other.elems);
      }
    }

    /** Appends a copy of the values of `other`, which may be this list: then it is doubled. */
    method PushBackList(other: List<V>)
      requires Valid() && other.Valid()
      modifies this, root, elems
      ensures Valid() && other.Valid()
      ensures old(elems) <= elems && Values() == old(Values()) + old(other.Values())
      ensures other != this ==> other.elems == old(other.elems) && forall y <- other.elems :: y.Value == old(y.Value)
    {
      ghost var mine, theirs, vals, own := elems, other.elems, other.Values(), Values();
      if other != this { Separate(other); }
      LazyInit();
      var e := other.Front();
      CopyAll(mine, theirs, own, vals, other, other.len, e);
      BackValues(mine, theirs, own, vals, other);
    }

    lemma BackValues(mine: seq<Element<V>>, theirs: seq<Element<V>>, own: seq<V>, vals: seq<V>, other: List<V>)
      requires |own| == |mine| && |vals| == |theirs| && Copied(mine, theirs, own, vals, |theirs|, other)
      ensures Values() == own + vals
    {
      forall k | 0 <= k < |elems| ensures elems[k].Value == (own + vals)[k] {
        if k >= |mine| { assert elems[|mine| + (k - |mine|)].Value == vals[k - |mine|]; }
      }
    }

    method CopyAll(ghost mine: seq<Element<V>>, ghost theirs: seq<Element<V>>, ghost own: seq<V>, ghost vals: seq<V>,
                   other: List<V>, n: nat, front: Element?<V>)
      requires Valid() && other.Valid() && root.next != null && |own| == |mine| && n == |vals| == |theirs|
      requires elems == mine
      requires Copied(mine, theirs, own, vals, 0, other) && (n > 0 ==> front == theirs[0])
      modifies this, root, elems
      ensures Valid() && other.Valid() && Copied(mine, theirs, own, vals, n, other)
    {
      var i, e := n, front;
      ghost var m, added: seq<Element<V>> := 0, [];
      while i > 0
        invariant 0 <= i <= n && m == n - i
        invariant Valid() && other.Valid() && root.next != null
        invariant Copied(mine, theirs, own, vals, m, other)
        invariant m < n ==> e == theirs[m]
        invariant elems == mine + added && fresh(added)
      {
        ghost var x;
        e, x := CopyNext(mine, theirs, own, vals, m, other, e);
        i, m, added := i - 1, m + 1, added + [x];
      }
    }

    /** m values of `theirs` have been appended to `mine`. */
    ghost predicate Copied(mine: seq<Element<V>>, theirs: seq<Element<V>>, own: seq<V>, vals: seq<V>, m: int,
                           other: List<V>)
      requires |own| == |mine| && |vals| == |theirs| && 0 <= m <= |theirs|
      reads this, elems, other, mine, theirs
    {
      && mine <= elems && |elems| == |mine| + m && theirs <= other.elems
      && (other != this ==> other.elems == theirs)
      && (forall k :: 0 <= k < |mine| ==> mine[k].Value == own[k])
      && (forall k :: 0 <= k < |theirs| ==> theirs[k].Value == vals[k])
      && (forall k :: 0 <= k < m ==> elems[|mine| + k].Value == vals[k])
    }

    method CopyNext(ghost mine: seq<Element<V>>, ghost theirs: seq<Element<V>>, ghost own: seq<V>, ghost vals: seq<V>,
                    ghost m: nat, other: List<V>, e: Element<V>)
      returns (n: Element?<V>, ghost x: Element<V>)
      requires Valid() && other.Valid() && root.next != null && |own| == |mine| && |vals| == |theirs| && m < |theirs|
      requires Copied(mine, theirs, own, vals, m, other) && e == theirs[m]
      modifies this, root, elems
      ensures Valid() && other.Valid() && root.next != null && Copied(mine, theirs, own, vals, m + 1, other)
      ensures elems == old(elems) + [x] && fresh(x)
      ensures m + 1 < |theirs| ==> n == theirs[m + 1]
    {
      assert Cycle(root, elems)[|elems| + 1].prev == Cycle(root, elems)[|elems|];
      x := InsertBeside(e.Value, root.prev, |elems|, other);
      InsertEnds(old(elems), x);
      n := Following(theirs, m, other, e);
    }

    /** e.Next() on the list being copied, which may have grown at its end. */
    method Following(ghost theirs: seq<Element<V>>, ghost m: nat, other: List<V>, e: Element<V>)
      returns (n: Element?<V>)
      requires other.Valid() && m < |theirs| && theirs <= other.elems && e == theirs[m]
      ensures m + 1 < |theirs| ==> n == theirs[m + 1]
    {
      assert other.elems[m] == e && e in other.known && e.list == other;
      n := e.Next();
      assert other.Position(e) == m;
    }

    /** Prepends a copy of the values of `other`, which may be this list: then it is doubled. */
    method PushFrontList(other: List<V>)
      requires Valid() && other.Valid()
      modifies this, root, elems
      ensures Valid() && other.Valid()
      ensures |elems| >= |old(elems)| && elems[|elems| - |old(elems)|..] == old(elems)
      ensures Values() == old(other.Values()) + old(Values())
      ensures other != this ==> other.elems == old(other.elems) && forall y <- other.elems :: y.Value == old(y.Value)
    {
      ghost var mine, theirs, vals, own := elems, other.elems, other.Values(), Values();
      if other != this { Separate(other); }
      LazyInit();
      var e := other.Back();
      ghost var added := CopyAllFront(mine, theirs, own, vals, other, other.len, e);
      FrontValues(mine, theirs, own, vals, added, other);
    }

    lemma FrontValues(mine: seq<Element<V>>, theirs: seq<Element<V>>, own: seq<V>, vals: seq<V>,
                      added: seq<Element<V>>, other: List<V>)
      requires |own| == |mine| && |vals| == |theirs| == |added| && CopiedFront(mine, theirs, own, vals, added, 0, other)
      ensures Values() == vals + own && elems[|added|..] == mine && |elems| == |added| + |mine|
    {
      ValuesSplit(added, mine, vals, own);
    }

    /** `added`, carrying the values of `theirs` from `rem` on, has been put in front of `mine`. */
    ghost predicate CopiedFront(mine: seq<Element<V>>, theirs: seq<Element<V>>, own: seq<V>, vals: seq<V>,
                                added: seq<Element<V>>, rem: nat, other: List<V>)
      requires |own| == |mine| && |vals| == |theirs| == |added| + rem
      reads this, other, mine, theirs, added
    {
      && elems == added + mine
      && (if other == this then theirs == mine else other.elems == theirs)
      && (forall k :: 0 <= k < |mine| ==> mine[k].Value == own[k])
      && (forall k :: 0 <= k < |theirs| ==> theirs[k].Value == vals[k])
      && (forall k :: 0 <= k < |added| ==> added[k].Value == vals[rem + k])
    }

    method CopyOneFront(ghost mine: seq<Element<V>>, ghost theirs: seq<Element<V>>, ghost own: seq<V>,
                        ghost vals: seq<V>, ghost added: seq<Element<V>>, ghost rem: nat, ghost other: List<V>,
                        e: Element<V>)
      returns (ghost x: Element<V>)
      requires Valid() && other.Valid() && root.next != null && |own| == |mine| && |vals| == |theirs| == |added| + rem
      requires rem > 0 && CopiedFront(mine, theirs, own, vals, added, rem, other) && e == theirs[rem - 1]
      modifies this, root, elems
      ensures Valid() && other.Valid() && root.next != null
      ensures CopiedFront(mine, theirs, own, vals, [x] + added, rem - 1, other)
      ensures fresh(x)
    {
      x := InsertBeside(e.Value, root, 0, other);
      InsertEnds(old(elems), x);
      assert elems == ([x] + added) + mine;
      assert forall k :: 0 < k <= |added| ==> ([x] + added)[k] == added[k - 1];
    }

    /** e.Prev() on the list being copied, which may have grown at its front. */
    method StepBack(ghost mine: seq<Element<V>>, ghost theirs: seq<Element<V>>, ghost own: seq<V>, ghost vals: seq<V>,
                    ghost added: seq<Element<V>>, ghost rem: nat, ghost other: List<V>, e: Element<V>)
      returns (n: Element?<V>)
      requires other.Valid() && |own| == |mine| && |vals| == |theirs| == |added| + rem && |added| > 0
      requires CopiedFront(mine, theirs, own, vals, added, rem, other) && e == theirs[rem]
      ensures rem > 0 ==> n == theirs[rem - 1]
    {
      ghost var shift := if other == this then |added| else 0;
      assert other.elems[shift + rem] == e;
      assert rem > 0 ==> other.elems[shift + rem - 1] == theirs[rem - 1];
      n := e.Prev();
    }

    method CopyPrev(ghost mine: seq<Element<V>>, ghost theirs: seq<Element<V>>, ghost own: seq<V>, ghost vals: seq<V>,
                    ghost added: seq<Element<V>>, ghost rem: nat, ghost other: List<V>, e: Element<V>)
      returns (n: Element?<V>, ghost x: Element<V>)
      requires Valid() && other.Valid() && root.next != null && |own| == |mine| && |vals| == |theirs| == |added| + rem
      requires rem > 0 && CopiedFront(mine, theirs, own, vals, added, rem, other) && e == theirs[rem - 1]
      modifies this, root, elems
      ensures Valid() && other.Valid() && root.next != null
      ensures CopiedFront(mine, theirs, own, vals, [x] + added, rem - 1, other)
      ensures fresh(x) && (rem > 1 ==> n == theirs[rem - 2])
    {
      x := CopyOneFront(mine, theirs, own, vals, added, rem, other, e);
      n := StepBack(mine, theirs, own, vals, [x] + added, rem - 1, other, e);
    }

    /** The same, with the set of all copies made so far. */
    method CopyPrevNew(ghost mine: seq<Element<V>>, ghost theirs: seq<Element<V>>, ghost own: seq<V>,
                       ghost vals: seq<V>, ghost added: seq<Element<V>>, ghost rem: nat, ghost other: List<V>,
                       e: Element<V>, ghost news: set<Element<V>>)
      returns (n: Element?<V>, ghost added': seq<Element<V>>, ghost news': set<Element<V>>)
      requires Valid() && other.Valid() && root.next != null && |own| == |mine| && |vals| == |theirs| == |added| + rem
      requires rem > 0 && CopiedFront(mine, theirs, own, vals, added, rem, other) && e == theirs[rem - 1]
      requires forall k :: 0 <= k < |added| ==> added[k] in news
      modifies this, root, elems
      ensures Valid() && other.Valid() && root.next != null && |added'| == |added| + 1
      ensures CopiedFront(mine, theirs, own, vals, added', rem - 1, other)
      ensures rem > 1 ==> n == theirs[rem - 2]
      ensures fresh(news' - news) && news <= news' && forall k :: 0 <= k < |added'| ==> added'[k] in news'
    {
      ghost var x;
      n, x := CopyPrev(mine, theirs, own, vals, added, rem, other, e);
      added', news' := [x] + added, news + {x};
    }

    method CopyAllFront(ghost mine: seq<Element<V>>, ghost theirs: seq<Element<V>>, ghost own: seq<V>,
                        ghost vals: seq<V>, ghost other: List<V>, n: nat, back: Element?<V>)
      returns (ghost added: seq<Element<V>>)
      requires Valid() && other.Valid() && root.next != null && |own| == |mine| && n == |vals| == |theirs|
      requires elems == mine && (if other == this then theirs == mine else other.elems == theirs)
      requires forall k :: 0 <= k < |mine| ==> mine[k].Value == own[k]
      requires forall k :: 0 <= k < |theirs| ==> theirs[k].Value == vals[k]
      requires n > 0 ==> back == theirs[n - 1]
      modifies this, root, elems
      ensures Valid() && other.Valid() && |added| == n && CopiedFront(mine, theirs, own, vals, added, 0, other)
    {
      var i: nat, e := n, back;
      added := [];
      assert elems == added + mine;
      ghost var news: set<Element<V>> := {};
      while i > 0
        invariant |added| + i == n
        invariant Valid() && other.Valid() && root.next != null
        invariant CopiedFront(mine, theirs, own, vals, added, i, other)
        invariant i > 0 ==> e == theirs[i - 1]
        invariant fresh(news) && forall k :: 0 <= k < |added| ==> added[k] in news
      {
        ghost var before := news;
        e, added, news := CopyPrevNew(mine, theirs, own, vals, added, i, other, e, news);
        i := i - 1;
        assert forall x :: x in news ==> x in before || x in news - before;
      }
    }
  }

  /** The element at position j taken out and put behind place p of the original cycle. */
  function Moved<T>(s: seq<T>, j: nat, p: nat): seq<T>
    requires j < |s| && p <= |s|
  {
    if p == j + 1 then s else InsertAt(Cut(s, j), if p <= j then p else p - 1, s[j])
  }
}
