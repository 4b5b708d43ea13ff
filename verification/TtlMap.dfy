/** The TTL map: a key index over a doubly linked list of nodes, head most recently used. */
module TtlMap {
  import opened Basics
  import opened Recency

  class Node<K, V> {
    const key: K
    var value: V
    var deadline: Time
    var prev: Node?<K, V>
    var next: Node?<K, V>

    constructor (k: K, v: V, d: Time)
      ensures key == k && value == v && deadline == d && prev == null && next == null
    {
      key, value, deadline, prev, next := k, v, d, null, null;
    }
  }

  function Just<K, V>(x: Node?<K, V>): set<Node<K, V>> {
    if x == null then {} else {x}
  }

  function Before<K, V>(x: Node?<K, V>): set<Node<K, V>>
    reads x
  {
    if x == null then {} else Just(x.prev)
  }

  function Behind<K, V>(x: Node?<K, V>): set<Node<K, V>>
    reads x
  {
    if x == null then {} else Just(x.next)
  }

  function Nth<K, V>(s: seq<Node<K, V>>, i: int): Node?<K, V> {
    if 0 <= i < |s| then s[i] else null
  }

  /** The links of x stay among the given nodes. */
  ghost predicate Within<K, V>(x: Node<K, V>, s: seq<Node<K, V>>)
    reads x`prev, x`next
  {
    (x.prev == null || x.prev in s) && (x.next == null || x.next in s)
  }

  lemma NthCut<K, V>(s: seq<Node<K, V>>, k: nat, i: int)
    requires k < |s| && i >= -1
    ensures Nth(Cut(s, k), i) == Nth(s, if i < k then i else i + 1)
  {
  }

  /** The index holds exactly the listed nodes, each under its own key. */
  ghost predicate Indexes<K, V>(items: map<K, Node<K, V>>, o: seq<Node<K, V>>) {
    && |items| == |o|
    && (forall i :: 0 <= i < |o| ==> o[i].key in items && items[o[i].key] == o[i])
    && (forall k {:trigger Listed(items, o, k)} | k in items :: Listed(items, o, k))
  }

  ghost predicate Listed<K, V>(items: map<K, Node<K, V>>, o: seq<Node<K, V>>, k: K)
    requires k in items
  {
    items[k] in o && items[k].key == k
  }

  ghost function EntriesOf<K, V>(o: seq<Node<K, V>>): (s: seq<Entry<K, V>>)
    reads o`value, o`deadline
    ensures |s| == |o|
  {
    if o == [] then [] else [Entry(o[0].key, o[0].value, o[0].deadline)] + EntriesOf(o[1..])
  }

  lemma {:induction false} EntryAt<K, V>(o: seq<Node<K, V>>, i: nat)
    requires i < |o|
    ensures EntriesOf(o)[i] == Entry(o[i].key, o[i].value, o[i].deadline)
  {
    if i > 0 { EntryAt(o[1..], i - 1); }
  }

  lemma EntriesCut<K, V>(o: seq<Node<K, V>>, k: nat)
    requires k < |o|
    ensures EntriesOf(Cut(o, k)) == Cut(EntriesOf(o), k)
  {
    forall i | 0 <= i < |o| - 1 ensures EntriesOf(Cut(o, k))[i] == Cut(EntriesOf(o), k)[i] {
      EntryAt(Cut(o, k), i);
      EntryAt(o, if i < k then i else i + 1);
    }
  }

  lemma EntriesCons<K, V>(n: Node<K, V>, o: seq<Node<K, V>>)
    ensures EntriesOf([n] + o) == [Entry(n.key, n.value, n.deadline)] + EntriesOf(o)
  {
    assert ([n] + o)[1..] == o;
  }

  /** Every key is listed once; the index finds a key exactly when the list holds it. */
  lemma KeysOnce<K, V>(items: map<K, Node<K, V>>, o: seq<Node<K, V>>)
    requires Indexes(items, o) && Distinct(o)
    ensures Unique(EntriesOf(o))
  {
    forall i, j | 0 <= i < j < |o| ensures EntriesOf(o)[i].key != EntriesOf(o)[j].key {
      EntryAt(o, i);
      EntryAt(o, j);
    }
  }

  lemma KeyIndexed<K, V>(items: map<K, Node<K, V>>, o: seq<Node<K, V>>, k: K)
    requires Indexes(items, o)
    ensures k in items <==> HasKey(EntriesOf(o), k)
  {
    forall i | 0 <= i < |o| ensures EntriesOf(o)[i].key == o[i].key { EntryAt(o, i); }
    if k in items {
      assert Listed(items, o, k);
      var i :| 0 <= i < |o| && o[i] == items[k];
      assert EntriesOf(o)[i].key == k;
    }
  }

  /** Where the index says a key is, the list holds that key's entry and no other does. */
  lemma Find<K, V>(items: map<K, Node<K, V>>, o: seq<Node<K, V>>, key: K) returns (k: nat)
    requires Indexes(items, o) && Distinct(o) && key in items
    ensures k < |o| && o[k] == items[key] && o[k].key == key
    ensures HasKey(EntriesOf(o), key) && At(EntriesOf(o), key) == Entry(key, o[k].value, o[k].deadline)
    ensures Without(EntriesOf(o), key) == EntriesOf(Cut(o, k))
  {
    assert Listed(items, o, key);
    k :| 0 <= k < |o| && o[k] == items[key];
    KeysOnce(items, o);
    EntryAt(o, k);
    EntriesCut(o, k);
    WithoutAt(EntriesOf(o), k);
    AtIs(EntriesOf(o), k);
  }

  ghost function Keys<K>(ks: seq<K>): set<K> {
    set k | k in ks
  }

  lemma SweptNone<K, V>(s: seq<Entry<K, V>>, now: Time)
    ensures Swept(s, {}, now) == s
  {
  }

  predicate Expires<K(==), V>(items: map<K, Node<K, V>>, k: K, now: Time)
    requires k in items
    reads items[k]
  {
    items[k].deadline != 0 && now > items[k].deadline
  }

  lemma StaleIs<K, V>(items: map<K, Node<K, V>>, o: seq<Node<K, V>>, now: Time, keys: set<K>)
    requires Indexes(items, o) && Distinct(o)
    requires forall k <- keys :: k in items
    requires forall k <- items :: k in keys <==> Expires(items, k, now)
    ensures keys == Stale(EntriesOf(o), now)
  {
    forall k | k in keys ensures k in Stale(EntriesOf(o), now) {
      var i := Find(items, o, k);
      EntryAt(o, i);
    }
    forall k | k in Stale(EntriesOf(o), now) ensures k in keys {
      var i :| 0 <= i < |o| && Expired(EntriesOf(o)[i], now) && EntriesOf(o)[i].key == k;
      EntryAt(o, i);
    }
  }

  lemma IndexCut<K, V>(items: map<K, Node<K, V>>, o: seq<Node<K, V>>, k: nat)
    requires Indexes(items, o) && Distinct(o) && k < |o|
    ensures Indexes(items - {o[k].key}, Cut(o, k))
  {
    var m := items - {o[k].key};
    assert m.Keys == items.Keys - {o[k].key};
    CutDistinct(o, k);
    forall x | x in m ensures Listed(m, Cut(o, k), x) { assert Listed(items, o, x); }
  }

  lemma IndexCons<K, V>(items: map<K, Node<K, V>>, o: seq<Node<K, V>>, n: Node<K, V>)
    requires Indexes(items, o) && n.key !in items
    ensures Indexes(items[n.key := n], [n] + o)
  {
    var m, r := items[n.key := n], [n] + o;
    assert m.Keys == items.Keys + {n.key};
    assert r[0] == n && r[1..] == o;
    forall i | 0 <= i < |r| ensures r[i].key in m && m[r[i].key] == r[i] {
      if i > 0 { assert r[i] == o[i - 1]; }
    }
    forall k <- m ensures Listed(m, r, k) {
      if k != n.key { assert Listed(items, o, k) && items[k] in r[1..]; }
    }
  }

  lemma IndexMove<K, V>(items: map<K, Node<K, V>>, o: seq<Node<K, V>>, k: nat)
    requires Indexes(items, o) && Distinct(o) && k < |o|
    ensures Indexes(items, [o[k]] + Cut(o, k))
  {
    IndexCut(items, o, k);
    IndexCons(items - {o[k].key}, Cut(o, k), o[k]);
    assert (items - {o[k].key})[o[k].key := o[k]] == items;
  }

  class TTLMap<K(==), V> {
    var items: map<K, Node<K, V>>
    var head: Node?<K, V>
    var tail: Node?<K, V>
    var lastCleanup: Time
    var cleaning: bool
    var maxSize: int
    /** The nodes from head to tail. */
    ghost var order: seq<Node<K, V>>

    ghost predicate Linked()
      reads this`head, this`tail, this`order, order`prev, order`next
    {
      && Distinct(order)
      && head == Nth(order, 0)
      && tail == Nth(order, |order| - 1)
      && (forall i {:trigger order[i].prev} :: 0 <= i < |order| ==> order[i].prev == Nth(order, i - 1))
      && (forall i {:trigger order[i].next} :: 0 <= i < |order| ==> order[i].next == Nth(order, i + 1))
    }

    /** Links, index and size bound. */
    ghost predicate Valid()
      reads this`head, this`tail, this`items, this`maxSize, this`order, order`prev, order`next
    {
      Linked() && Indexes(items, order) && (order == [] || |order| <= maxSize)
    }

    /** What the list holds, most recently used first. */
    ghost function Entries(): seq<Entry<K, V>>
      reads this`order, order`value, order`deadline
    {
      EntriesOf(order)
    }

    /** Nodes of s that are no longer listed still point at nodes of s. */
    ghost predicate Left(s: seq<Node<K, V>>)
      reads this`order, s`prev, s`next
    {
      forall x <- s :: x in order || Within(x, s)
    }

    constructor (max: int, now: Time)
      ensures Valid() && Entries() == [] && maxSize == max && !cleaning && lastCleanup == now
    {
      items, head, tail, order := map[], null, null, [];
      lastCleanup, cleaning, maxSize := now, false, max;
    }

    /** The assignments of addToFront, whatever the links are. */
    method Hook(n: Node<K, V>)
      modifies this`head, this`tail, n`prev, n`next, Just(head)`prev
      ensures head == n && n.next == old(head) && n.prev == if old(head) == n then n else null
      ensures old(head) != null ==> old(head).prev == n
      ensures tail == if old(tail) == null then n else old(tail)
    {
      n.next := head;
      n.prev := null;
      if head != null {
        head.prev := n;
      }
      head := n;
      if tail == null {
        tail := n;
      }
    }

    /** The assignments of removeNode, whatever the links are. */
    method Unhook(n: Node<K, V>)
      modifies this`head, this`tail, Just(n.prev)`next, Just(n.next)`prev
      ensures n.prev == old(n.prev) && n.next == old(n.next)
      ensures head == if n.prev == null then n.next else old(head)
      ensures tail == if n.next == null then n.prev else old(tail)
      ensures n.prev != null ==> n.prev.next == n.next
      ensures n.next != null ==> n.next.prev == n.prev
    {
      if n.prev != null {
        n.prev.next := n.next;
      } else {
        head := n.next;
      }
      if n.next != null {
        n.next.prev := n.prev;
      } else {
        tail := n.prev;
      }
    }

    method AddToFront(n: Node<K, V>)
      requires Linked() && n !in order
      modifies this`head, this`tail, this`order, n`prev, n`next, order`prev
      ensures Linked() && order == [n] + old(order)
    {
      Hook(n);
      order := [n] + order;
    }

    method RemoveNode(n: Node<K, V>, ghost k: nat)
      requires Linked() && k < |order| && order[k] == n
      modifies this`head, this`tail, this`order, order`prev, order`next
      ensures Linked() && order == Cut(old(order), k)
      ensures forall x :: x in order <==> x in old(order) && x != n
      ensures n.prev == old(n.prev) && n.next == old(n.next)
    {
      ghost var s := order;
      Unhook(n);
      assert Joined(s, k);
      order := Cut(s, k);
      CutDistinct(s, k);
      JoinedLinks(s, k);
    }

    /** The neighbours of the k-th node point past it; all other links are as they were. */
    ghost predicate Joined(s: seq<Node<K, V>>, k: nat)
      requires k < |s|
      reads this`head, this`tail, s
    {
      && head == Nth(s, if k == 0 then 1 else 0)
      && tail == Nth(s, if k == |s| - 1 then k - 1 else |s| - 1)
      && (forall i {:trigger s[i].prev} :: 0 <= i < |s| ==> s[i].prev == Nth(s, if i == k + 1 then k - 1 else i - 1))
      && (forall i {:trigger s[i].next} :: 0 <= i < |s| ==> s[i].next == Nth(s, if i + 1 == k then k + 1 else i + 1))
    }

    lemma JoinedAt(s: seq<Node<K, V>>, k: nat, i: nat)
      requires k < |s| && Joined(s, k) && i < |s| - 1
      ensures Cut(s, k)[i].prev == Nth(Cut(s, k), i - 1) && Cut(s, k)[i].next == Nth(Cut(s, k), i + 1)
    {
      NthCut(s, k, i - 1);
      NthCut(s, k, i + 1);
      var j := if i < k then i else i + 1;
      assert s[j].prev == Nth(s, if j == k + 1 then k - 1 else j - 1);
      assert s[j].next == Nth(s, if j + 1 == k then k + 1 else j + 1);
    }

    lemma JoinedLinks(s: seq<Node<K, V>>, k: nat)
      requires k < |s| && Joined(s, k) && order == Cut(s, k) && Distinct(order)
      ensures Linked()
    {
      NthCut(s, k, 0);
      NthCut(s, k, |order| - 1);
      forall i {:trigger order[i].prev} | 0 <= i < |order| ensures order[i].prev == Nth(order, i - 1) {
        JoinedAt(s, k, i);
      }
      forall i {:trigger order[i].next} | 0 <= i < |order| ensures order[i].next == Nth(order, i + 1) {
        JoinedAt(s, k, i);
      }
    }

    method MoveToFront(n: Node<K, V>, ghost k: nat)
      requires Linked() && k < |order| && order[k] == n
      modifies this`head, this`tail, this`order, order`prev, order`next
      ensures Linked() && order == [n] + Cut(old(order), k)
    {
      if n == head {
        return;
      }
      RemoveNode(n, k);
      AddToFront(n);
    }

    /** Takes a node out of the index and out of the list. */
    method Drop(n: Node<K, V>, ghost k: nat)
      requires Valid() && k < |order| && order[k] == n
      modifies this`items, this`head, this`tail, this`order, order`prev, order`next
      ensures Valid() && order == Cut(old(order), k) && items == old(items) - {n.key}
      ensures Entries() == old(EntriesOf(Cut(order, k)))
      ensures n.prev == old(n.prev) && n.next == old(n.next)
    {
      IndexCut(items, order, k);
      items := items - {n.key};
      RemoveNode(n, k);
    }

    /** The same, seen from the nodes that were listed. */
    method DropListed(n: Node<K, V>, ghost k: nat)
      requires Valid() && k < |order| && order[k] == n
      modifies this`items, this`head, this`tail, this`order, order`prev, order`next
      ensures Valid() && order == Cut(old(order), k) && items == old(items) - {n.key} && Left(old(order))
      ensures Entries() == old(EntriesOf(Cut(order, k)))
      ensures n.prev == old(n.prev) && n.next == old(n.next)
    {
      ghost var s := order;
      assert Within(n, s) by { assert n.prev == Nth(s, k - 1) && n.next == Nth(s, k + 1); }
      Drop(n, k);
      assert order == Cut(s, k);
      forall x | x in s ensures x in order || Within(x, s) {
        if x != n { CutDistinct(s, k); }
      }
    }

    /** The assignments of removeOldest, whatever the links are. */
    method RemoveTail()
      modifies this`items, this`head, this`tail, Before(tail)`next, Behind(tail)`prev
      ensures old(tail) == null ==> items == old(items) && head == old(head) && tail == null
      ensures old(tail) != null ==> items == old(items) - {old(tail).key}
      ensures old(tail) != null ==> head == if old(tail.prev) == null then old(tail.next) else old(head)
      ensures old(tail) != null ==> tail == if old(tail.next) == null then old(tail.prev) else old(tail)
    {
      if tail != null {
        items := items - {tail.key};
        Unhook(tail);
      }
    }

    method RemoveOldest()
      requires Valid()
      modifies this`items, this`head, this`tail, this`order, order`prev, order`next
      ensures Valid() && (old(order) == [] ==> order == [])
      ensures old(order) != [] ==> order == old(order)[..|old(order)| - 1]
      ensures Entries() == Newest(old(Entries()), |order|)
      ensures (forall k <- items :: k in old(items)) && Left(old(order))
    {
      if tail != null {
        EntriesCut(order, |order| - 1);
        DropListed(tail, |order| - 1);
      }
    }

    /** One round of an eviction loop that began with the nodes o and the entries s. */
    method Evict(ghost o: seq<Node<K, V>>, ghost s: seq<Entry<K, V>>)
      requires Valid() && order <= o && Left(o) && Entries() == Newest(s, |order|)
      modifies this`items, this`head, this`tail, this`order, order`prev, order`next
      ensures Valid() && order <= o && Left(o) && Entries() == Newest(s, |order|)
      ensures |order| == if old(order) == [] then 0 else |old(order)| - 1
      ensures forall k <- items :: k in old(items)
    {
      ghost var before := order;
      RemoveOldest();
      forall x | x in o ensures x in order || Within(x, o) {
        if x in before {
          assert x in order || Within(x, before);
        }
      }
    }

    /** The eviction loop of Set on a whole map, cut off after n rounds. It is still running after any number
        of rounds when no size is small enough, and done within one round per entry otherwise. */
    method EvictFor(n: nat) returns (done: bool)
      requires Valid()
      modifies this`items, this`head, this`tail, this`order, order`prev, order`next
      ensures Valid() && (done <==> |items| < maxSize)
      ensures maxSize < 1 ==> !done && Entries() == Dropped(old(Entries()), n)
      ensures maxSize >= 1 && n >= |old(order)| ==> done && Entries() == Newest(old(Entries()), maxSize - 1)
    {
      ghost var s, o := Entries(), order;
      var i := 0;
      while i < n && |items| >= maxSize
        invariant Valid() && i <= n && order <= o && Left(o)
        invariant |order| == if i <= |o| then |o| - i else 0
        invariant Entries() == Newest(s, |order|)
        invariant |order| == |o| || |order| >= maxSize - 1
      {
        Evict(o, s);
        i := i + 1;
      }
      done := |items| < maxSize;
      DroppedIs(s, n);
    }

    method Resize(max: int)
      requires Valid() && (max < maxSize ==> max >= 0)
      modifies this`items, this`head, this`tail, this`order, this`maxSize, order`prev, order`next
      ensures Valid() && maxSize == max && order <= old(order) && Left(old(order))
      ensures Entries() == Recency.Resize(old(Entries()), old(maxSize), max)
    {
      if max < maxSize { Shrink(max); }
      maxSize := max;
    }

    method Shrink(max: nat)
      requires Valid()
      modifies this`items, this`head, this`tail, this`order, order`prev, order`next
      ensures Valid() && order <= old(order) && |order| <= max && Left(old(order))
      ensures Entries() == Newest(old(Entries()), max)
    {
      ghost var s, o := Entries(), order;
      while |items| > max
        invariant Valid() && order <= o && Left(o)
        invariant |order| == |o| || |order| >= max
        invariant Entries() == Newest(s, |order|)
      {
        Evict(o, s);
      }
    }

    method Set(key: K, value: V, deadline: Time, now: Time, stamp: Time) returns (spawned: bool)
      requires Valid() && (key in items || maxSize >= 1)
      modifies this, order
      ensures Valid() && maxSize == old(maxSize)
      ensures Entries() == Recency.Set(old(Entries()), maxSize, Entry(key, value, deadline))
      ensures spawned == (key !in old(items) && now - old(lastCleanup) > SECOND && !old(cleaning))
      ensures cleaning == (old(cleaning) || spawned)
      ensures lastCleanup == if spawned then stamp else old(lastCleanup)
      ensures key !in old(items) ==> key in items && fresh(items[key])
      ensures Left(old(order)) && forall y <- order :: y in old(order) || (key !in old(items) && y == items[key])
    {
      spawned := false;
      KeyIndexed(items, order, key);
      if key in items {
        Overwrite(key, value, deadline);
        return;
      }
      Insert(key, value, deadline);
      spawned := StartCleanup(now, stamp);
    }

    /** A cleaner is started when the last start is more than a second ago and none is at work. */
    method StartCleanup(now: Time, stamp: Time) returns (spawned: bool)
      modifies this`cleaning, this`lastCleanup
      ensures spawned == (now - old(lastCleanup) > SECOND && !old(cleaning))
      ensures cleaning == (old(cleaning) || spawned)
      ensures lastCleanup == if spawned then stamp else old(lastCleanup)
    {
      spawned := now - lastCleanup > SECOND && !cleaning;
      if spawned { cleaning, lastCleanup := true, stamp; }
    }

    method Overwrite(key: K, value: V, deadline: Time)
      requires Valid() && key in items
      modifies this`head, this`tail, this`order, order
      ensures Valid() && Entries() == [Entry(key, value, deadline)] + Without(old(Entries()), key)
      ensures forall y :: y in order <==> y in old(order)
    {
      var n := items[key];
      ghost var k := Find(items, order, key);
      CutDistinct(order, k);
      Write(n, k, value, deadline);
      Touch(n, k);
    }

    method Write(n: Node<K, V>, ghost k: nat, value: V, deadline: Time)
      requires Valid() && k < |order| && order[k] == n
      modifies n`value, n`deadline
      ensures Valid() && n.value == value && n.deadline == deadline
      ensures EntriesOf(Cut(order, k)) == old(EntriesOf(Cut(order, k)))
    {
      CutDistinct(order, k);
      n.value, n.deadline := value, deadline;
    }

    method Touch(n: Node<K, V>, ghost k: nat)
      requires Valid() && k < |order| && order[k] == n
      modifies this`head, this`tail, this`order, order`prev, order`next
      ensures Valid() && Entries() == [Entry(n.key, n.value, n.deadline)] + old(EntriesOf(Cut(order, k)))
      ensures order == [n] + Cut(old(order), k)
    {
      IndexMove(items, order, k);
      EntriesCons(n, Cut(order, k));
      MoveToFront(n, k);
    }

    /** Drops the tail until a new node fits. */
    method MakeRoom()
      requires Valid() && maxSize >= 1
      modifies this`items, this`head, this`tail, this`order, order`prev, order`next
      ensures Valid() && order <= old(order) && |items| < maxSize && forall k <- items :: k in old(items)
      ensures Entries() == Newest(old(Entries()), maxSize - 1) && Left(old(order))
    {
      ghost var s, o := Entries(), order;
      while |items| >= maxSize
        invariant Valid() && order <= o && Left(o) && forall k <- items :: k in old(items)
        invariant |order| == |o| || |order| >= maxSize - 1
        invariant Entries() == Newest(s, |order|)
      {
        Evict(o, s);
      }
    }

    method Insert(key: K, value: V, deadline: Time)
      requires Valid() && key !in items && maxSize >= 1
      modifies this`items, this`head, this`tail, this`order, order`prev, order`next
      ensures Valid() && Entries() == [Entry(key, value, deadline)] + Newest(old(Entries()), maxSize - 1)
      ensures key in items && fresh(items[key]) && Left(old(order))
      ensures forall y <- order :: y in old(order) || y == items[key]
    {
      MakeRoom();
      EnterNew(key, value, deadline);
    }

    method EnterNew(key: K, value: V, deadline: Time)
      requires Valid() && key !in items && |order| < maxSize
      modifies this`items, this`head, this`tail, this`order, order`prev
      ensures Valid() && Entries() == [Entry(key, value, deadline)] + old(Entries())
      ensures key in items && fresh(items[key]) && order == [items[key]] + old(order)
    {
      var n := new Node(key, value, deadline);
      Enter(n);
    }

    method Enter(n: Node<K, V>)
      requires Valid() && n.key !in items && n !in order && |order| < maxSize
      modifies this`items, this`head, this`tail, this`order, n`prev, n`next, order`prev
      ensures Valid() && Entries() == [Entry(n.key, n.value, n.deadline)] + old(Entries())
      ensures n.key in items && items[n.key] == n && order == [n] + old(order)
    {
      IndexCons(items, order, n);
      EntriesCons(n, order);
      items := items[n.key := n];
      AddToFront(n);
    }

    method Get(key: K, now: Time) returns (found: Option<V>)
      requires Valid()
      modifies this`items, this`head, this`tail, this`order, order`prev, order`next
      ensures Valid() && (found, Entries()) == Recency.Get(old(Entries()), key, now)
      ensures forall j :: 0 <= j < |order| ==> order[j] in old(order)
    {
      KeyIndexed(items, order, key);
      if key !in items {
        return None;
      }
      ghost var k := Find(items, order, key);
      if items[key].deadline != 0 && now > items[key].deadline {
        Forget(key);
        return None;
      }
      var v := Promote(key);
      return Some(v);
    }

    method Promote(key: K) returns (v: V)
      requires Valid() && key in items
      modifies this`head, this`tail, this`order, order`prev, order`next
      ensures Valid() && HasKey(old(Entries()), key) && v == At(old(Entries()), key).value
      ensures Entries() == [At(old(Entries()), key)] + Without(old(Entries()), key)
      ensures forall y <- order :: y in old(order)
    {
      ghost var k := Find(items, order, key);
      var n := items[key];
      Touch(n, k);
      return n.value;
    }

    method Delete(key: K, now: Time, stamp: Time) returns (spawned: bool)
      requires Valid()
      modifies this, order`prev, order`next
      ensures Valid() && maxSize == old(maxSize) && Entries() == Without(old(Entries()), key)
      ensures Left(old(order)) && forall y <- order :: y in old(order)
      ensures spawned == (now - old(lastCleanup) > SECOND && !old(cleaning))
      ensures cleaning == (old(cleaning) || spawned)
      ensures lastCleanup == if spawned then stamp else old(lastCleanup)
      ensures key in old(items) ==>
                old(items[key]).prev == old(items[key].prev) && old(items[key]).next == old(items[key].next)
    {
      Forget(key);
      spawned := StartCleanup(now, stamp);
    }

    method Forget(key: K)
      requires Valid()
      modifies this`items, this`head, this`tail, this`order, order`prev, order`next
      ensures Valid() && Entries() == Without(old(Entries()), key)
      ensures Left(old(order)) && forall y <- order :: y in old(order)
      ensures key in old(items) ==>
                old(items[key]).prev == old(items[key].prev) && old(items[key]).next == old(items[key].next)
    {
      if key in items {
        ghost var k := Find(items, order, key);
        DropListed(items[key], k);
      } else {
        KeyIndexed(items, order, key);
        WithoutAbsent(Entries(), key);
      }
    }

    /** First phase of the cleanup: the keys expired at `now`, in any order. */
    method Snapshot(now: Time) returns (expired: seq<K>)
      requires Valid()
      ensures Keys(expired) == Stale(Entries(), now)
    {
      expired := [];
      var rest := items.Keys;
      while rest != {}
        invariant rest <= items.Keys
        invariant forall k <- items.Keys - rest :: k in expired <==> Expires(items, k, now)
        invariant forall k <- expired :: k in items && k !in rest
        decreases rest
      {
        var k :| k in rest;
        if items[k].deadline != 0 && now > items[k].deadline {
          expired := expired + [k];
        }
        rest := rest - {k};
      }
      StaleIs(items, order, now, Keys(expired));
    }

    /** Second phase: removes the keys that are still stored and still expired at `now`. */
    method Sweep(expired: seq<K>, now: Time)
      requires Valid()
      modifies this`items, this`head, this`tail, this`order, order`prev, order`next
      ensures Valid() && Entries() == Swept(old(Entries()), Keys(expired), now)
    {
      ghost var s := Entries();
      SweptNone(s, now);
      KeysOnce(items, order);
      assert Keys(expired[..0]) == {};
      for i := 0 to |expired|
        invariant Valid() && (forall j :: 0 <= j < |order| ==> order[j] in old(order))
        invariant Entries() == Swept(s, Keys(expired[..i]), now)
      {
        SweptStep(s, Keys(expired[..i]), expired[i], now);
        assert expired[..i + 1] == expired[..i] + [expired[i]];
        assert Keys(expired[..i + 1]) == Keys(expired[..i]) + {expired[i]};
        Reap(expired[i], now);
      }
      assert expired[..|expired|] == expired;
    }

    method Reap(key: K, now: Time)
      requires Valid()
      modifies this`items, this`head, this`tail, this`order, order`prev, order`next
      ensures Valid() && Entries() == Reaped(old(Entries()), key, now)
      ensures Left(old(order)) && forall j :: 0 <= j < |order| ==> order[j] in old(order)
    {
      KeyIndexed(items, order, key);
      if key in items {
        ghost var k := Find(items, order, key);
        if items[key].deadline != 0 && now > items[key].deadline {
          DropListed(items[key], k);
        }
      }
    }

    method FinishCleanup()
      modifies this`cleaning
      ensures !cleaning
    {
      cleaning := false;
    }

    ghost predicate HeadStored()
      reads this`head, this`items
    {
      head == null || (head.key in items && items[head.key] == head)
    }

    lemma ValidHeadStored()
      requires Valid()
      ensures HeadStored()
    {
    }

    /** The second half of a lookup whose node has left the list since the first half: the links of
        `removeNode` and `addToFront` are rewritten all the same, and the list starts with a node the
        index does not know. Only a node still listed (`Touch`) keeps the map whole. */
    method LateTouch(n: Node<K, V>)
      requires Valid() && n !in order
      modifies this`head, this`tail, n, order, n.prev, n.next
      ensures items == old(items) && head == n && !HeadStored()
    {
      if n.key in items { assert Listed(items, order, n.key); }
      Unhook(n);
      Hook(n);
    }

    /** The first half of a lookup: the node, read under the lock that is then dropped. */
    method Peek(key: K) returns (n: Node?<K, V>)
      ensures n == if key in items then items[key] else null
    {
      return if key in items then items[key] else null;
    }
  }

  /** It happens: a lookup finds a node, the key is deleted in the gap, and the lookup goes on. The map it
      leaves has a list that starts with a node the index does not know. */
  method LookupAcrossDelete<K(==), V>(key: K, value: V, max: int) returns (m: TTLMap<K, V>)
    requires max >= 1
    ensures fresh(m) && !m.HeadStored() && m.items == map[]
  {
    m := new TTLMap(max, 0);
    var _ := m.Set(key, value, 0, 0, 0);
    var n := m.Peek(key);
    OnlyNode(m, key);
    var _ := m.Delete(key, 0, 0);
    m.LateTouch(n);
  }

  lemma OnlyNode<K, V>(m: TTLMap<K, V>, key: K)
    requires m.Valid() && |m.Entries()| == 1 && key in m.items
    ensures m.order == [m.items[key]] && m.items[key].prev == null && m.items[key].next == null
  {
    assert Listed(m.items, m.order, key);
    assert m.order[0].prev == Nth(m.order, -1) && m.order[0].next == Nth(m.order, 1);
  }
}
