/** Runs of the TTL map with every lookup cut at its lock gap: the first half takes a node out of the
    index, the second half moves that node to the front without looking the key up again. */
module TtlGap {
  import opened Basics
  import opened Recency
  import opened TtlMap

  /** One critical section. `Peek` is the first half of a lookup and hands out the next ticket; `Move` is
      the second half for the ticket t; `Reap` is the second half of a lookup of an expired key, or one
      removal of a cleaner. */
  datatype Act<K, V> =
    | Set(e: Entry<K, V>, now: Time, stamp: Time)
    | Peek(key: K)
    | Move(t: nat)
    | Reap(key: K, now: Time)
    | Delete(key: K, now: Time, stamp: Time)
    | Resize(newMax: int)

  /** A first half found nothing, or its key has been stored ever since, or it has not. */
  datatype Ticket<K> = Missed | Live(key: K) | Lost

  datatype State<K, V> = State(s: seq<Entry<K, V>>, max: int, tickets: seq<Ticket<K>>)

  predicate Holding<K(==), V>(st: State<K, V>, t: nat) {
    t < |st.tickets| && st.tickets[t].Live? && HasKey(st.s, st.tickets[t].key)
  }

  /** The second half of a lookup whose key has left the map since the first. */
  predicate Late<K, V>(st: State<K, V>, a: Act<K, V>) {
    a.Move? && a.t < |st.tickets| && st.tickets[a.t].Lost?
  }

  /** Sections that end on a whole map. */
  predicate Ends<K, V>(st: State<K, V>, a: Act<K, V>) {
    match a
    case Set(_, _, _) => st.max >= 1
    case Resize(m) => m < st.max ==> m >= 0
    case _ => true
  }

  function Kept<K(==), V>(s: seq<Entry<K, V>>, t: Ticket<K>): Ticket<K> {
    if t.Live? && !HasKey(s, t.key) then Lost else t
  }

  function Settled<K(==), V>(st: State<K, V>, s: seq<Entry<K, V>>): State<K, V> {
    st.(s := s, tickets := seq(|st.tickets|, i requires 0 <= i < |st.tickets| => Kept(s, st.tickets[i])))
  }

  /** A whole map after a section that ends and is not late. */
  function Next<K(==), V>(st: State<K, V>, a: Act<K, V>): State<K, V> {
    match a
    case Set(e, _, _) => if st.max >= 1 then Settled(st, Recency.Set(st.s, st.max, e)) else st
    case Peek(k) => st.(tickets := st.tickets + [if HasKey(st.s, k) then Live(k) else Missed])
    case Move(t) =>
      if Holding(st, t)
      then Settled(st, [At(st.s, st.tickets[t].key)] + Without(st.s, st.tickets[t].key))
      else st
    case Reap(k, now) => Settled(st, Reaped(st.s, k, now))
    case Delete(k, _, _) => Settled(st, Without(st.s, k))
    case Resize(m) =>
      if m < st.max ==> m >= 0 then Settled(st, Recency.Resize(st.s, st.max, m)).(max := m) else st
  }

  function After<K(==), V>(max: int, acts: seq<Act<K, V>>): State<K, V> {
    if acts == [] then State([], max, []) else Next(After(max, acts[..|acts| - 1]), acts[|acts| - 1])
  }

  /** No second half of a lookup comes after its key has left. */
  predicate Timely<K(==), V>(max: int, acts: seq<Act<K, V>>) {
    forall j :: 0 <= j < |acts| ==> !Late(After(max, acts[..j]), acts[j])
  }

  // ---- nodes and tickets ------------------------------------------------------------------

  ghost predicate Matches<K, V>(o: seq<Node<K, V>>, p: Node?<K, V>, t: Ticket<K>) {
    match t
    case Missed => p == null
    case Live(k) => p != null && p.key == k && p in o
    case Lost => p != null && p !in o
  }

  /** Nodes are new only under new keys, so a node stays listed exactly as long as its key does. */
  lemma Follows<K, V>(items: map<K, Node<K, V>>, o: seq<Node<K, V>>, items': map<K, Node<K, V>>,
                      o': seq<Node<K, V>>, p: Node?<K, V>, t: Ticket<K>)
    requires Indexes(items, o) && Indexes(items', o') && Matches(o, p, t)
    requires forall y <- o' :: y in o || (y.key !in items && y != p)
    ensures Matches(o', p, Kept(EntriesOf(o'), t))
  {
    if t.Live? {
      KeyIndexed(items', o', t.key);
      if t.key in items' {
        assert Listed(items', o', t.key);
        var y := items'[t.key];
        assert y in o;
      }
    }
  }

  ghost predicate Agrees<K, V>(m: TTLMap<K, V>, pend: seq<Node?<K, V>>, st: State<K, V>)
    reads m, m.order
  {
    && m.Valid() && m.Entries() == st.s && m.maxSize == st.max && |pend| == |st.tickets|
    && forall t :: 0 <= t < |pend| ==> Matches(m.order, pend[t], st.tickets[t])
  }

  lemma AgreesAfter<K, V>(m: TTLMap<K, V>, pend: seq<Node?<K, V>>, st: State<K, V>, items: map<K, Node<K, V>>,
                          o: seq<Node<K, V>>)
    requires m.Valid() && Indexes(items, o) && |pend| == |st.tickets|
    requires forall t :: 0 <= t < |pend| ==> Matches(o, pend[t], st.tickets[t])
    requires forall y <- m.order :: y in o || (y.key !in items && y !in pend)
    ensures Agrees(m, pend, Settled(st, m.Entries()).(max := m.maxSize))
  {
    forall t | 0 <= t < |pend| ensures Matches(m.order, pend[t], Kept(m.Entries(), st.tickets[t])) {
      Follows(items, o, m.items, m.order, pend[t], st.tickets[t]);
    }
  }

  method DoSet<K(==), V>(m: TTLMap<K, V>, pend: seq<Node?<K, V>>, e: Entry<K, V>, now: Time, stamp: Time,
                         ghost st: State<K, V>)
    requires Agrees(m, pend, st) && st.max >= 1
    modifies m, m.order
    ensures Agrees(m, pend, Settled(st, Recency.Set(st.s, st.max, e))) && m.Left(old(m.order))
    ensures forall y <- m.order :: y in old(m.order) || fresh(y)
  {
    ghost var items, o := m.items, m.order;
    var _ := m.Set(e.key, e.value, e.deadline, now, stamp);
    if e.key !in items {
      assert Listed(m.items, m.order, e.key);
      assert m.items[e.key] !in pend;
    }
    AgreesAfter(m, pend, st, items, o);
  }

  method DoDelete<K(==), V>(m: TTLMap<K, V>, pend: seq<Node?<K, V>>, k: K, now: Time, stamp: Time,
                            ghost st: State<K, V>)
    requires Agrees(m, pend, st)
    modifies m, m.order
    ensures Agrees(m, pend, Settled(st, Without(st.s, k))) && m.Left(old(m.order))
    ensures forall y <- m.order :: y in old(m.order)
  {
    ghost var items, o := m.items, m.order;
    var _ := m.Delete(k, now, stamp);
    AgreesAfter(m, pend, st, items, o);
  }

  method DoReap<K(==), V>(m: TTLMap<K, V>, pend: seq<Node?<K, V>>, k: K, now: Time, ghost st: State<K, V>)
    requires Agrees(m, pend, st)
    modifies m, m.order
    ensures Agrees(m, pend, Settled(st, Reaped(st.s, k, now))) && m.Left(old(m.order))
    ensures forall y <- m.order :: y in old(m.order)
  {
    ghost var items, o := m.items, m.order;
    m.Reap(k, now);
    AgreesAfter(m, pend, st, items, o);
  }

  method DoResize<K(==), V>(m: TTLMap<K, V>, pend: seq<Node?<K, V>>, max: int, ghost st: State<K, V>)
    requires Agrees(m, pend, st) && (max < st.max ==> max >= 0)
    modifies m, m.order
    ensures Agrees(m, pend, Settled(st, Recency.Resize(st.s, st.max, max)).(max := max)) && m.Left(old(m.order))
    ensures forall y <- m.order :: y in old(m.order)
  {
    ghost var items, o := m.items, m.order;
    m.Resize(max);
    AgreesAfter(m, pend, st, items, o);
  }

  /** A node whose key has been stored since the first half is still listed: the move keeps the map whole. */
  method DoMove<K(==), V>(m: TTLMap<K, V>, pend: seq<Node?<K, V>>, t: nat, ghost st: State<K, V>)
    requires Agrees(m, pend, st) && t < |pend| && st.tickets[t].Live?
    modifies m, m.order
    ensures Holding(st, t) && Agrees(m, pend, Next(st, Move(t))) && m.Left(old(m.order))
    ensures forall y <- m.order :: y in old(m.order)
  {
    ghost var items, o := m.items, m.order;
    var n := pend[t];
    ghost var k := FindNode(m, n);
    m.Touch(n, k);
    AgreesAfter(m, pend, st, items, o);
  }

  lemma FindNode<K, V>(m: TTLMap<K, V>, n: Node<K, V>) returns (k: nat)
    requires m.Valid() && n in m.order
    ensures k < |m.order| && m.order[k] == n && HasKey(m.Entries(), n.key)
    ensures [Entry(n.key, n.value, n.deadline)] + EntriesOf(Cut(m.order, k)) ==
            [At(m.Entries(), n.key)] + Without(m.Entries(), n.key)
  {
    k := Find(m.items, m.order, n.key);
  }

  // ---- whole runs -----------------------------------------------------------------------------

  /** One section on a whole map that ends and is not late. */
  method Section<K(==), V>(m: TTLMap<K, V>, pend: seq<Node?<K, V>>, a: Act<K, V>, ghost st: State<K, V>)
    returns (pend': seq<Node?<K, V>>)
    requires Agrees(m, pend, st) && Ends(st, a) && !Late(st, a)
    modifies m, m.order
    ensures Agrees(m, pend', Next(st, a)) && m.Left(old(m.order))
    ensures forall y <- m.order :: y in old(m.order) || fresh(y)
    ensures forall p <- pend' :: p in pend || p == null || p in m.order
  {
    pend' := pend;
    match a
    case Set(e, now, stamp) => DoSet(m, pend, e, now, stamp, st);
    case Peek(k) =>
      var p := m.Peek(k);
      KeyIndexed(m.items, m.order, k);
      if k in m.items { assert Listed(m.items, m.order, k); }
      pend' := pend + [p];
    case Move(t) => if t < |pend| && pend[t] != null { DoMove(m, pend, t, st); }
    case Reap(k, now) => DoReap(m, pend, k, now, st);
    case Delete(k, now, stamp) => DoDelete(m, pend, k, now, stamp, st);
    case Resize(max) => DoResize(m, pend, max, st);
  }

  ghost predicate Near<K, V>(x: Node<K, V>, made: set<Node<K, V>>)
    reads x`prev, x`next
  {
    (x.prev == null || x.prev in made) && (x.next == null || x.next in made)
  }

  /** Every node ever listed points at such nodes only. */
  ghost predicate Closed<K, V>(m: TTLMap<K, V>, made: set<Node<K, V>>)
    reads m, made
  {
    (forall x <- m.order :: x in made) && forall x <- made :: Near(x, made)
  }

  /** A whole map between two sections. */
  ghost predicate Going<K, V>(m: TTLMap<K, V>, pend: seq<Node?<K, V>>, made: set<Node<K, V>>, st: State<K, V>)
    reads m, m.order, made
  {
    Agrees(m, pend, st) && Closed(m, made) && forall p <- pend :: p == null || p in made
  }

  method SectionClosed<K(==), V>(m: TTLMap<K, V>, pend: seq<Node?<K, V>>, a: Act<K, V>, ghost st: State<K, V>,
                                 ghost made: set<Node<K, V>>)
    returns (pend': seq<Node?<K, V>>, ghost made': set<Node<K, V>>)
    requires Going(m, pend, made, st) && Ends(st, a) && !Late(st, a)
    modifies m, made
    ensures Going(m, pend', made', Next(st, a)) && fresh(made' - made)
  {
    ghost var o := m.order;
    assert forall i :: 0 <= i < |o| ==> o[i] in made;
    pend' := Section(m, pend, a, st);
    made' := made + set x | x in m.order;
    forall x | x in made' ensures Near(x, made') {
      if x in m.order {
        Inside(m, x);
      } else if x in o {
        assert Within(x, o);
      }
    }
  }

  lemma Inside<K, V>(m: TTLMap<K, V>, x: Node<K, V>)
    requires m.Linked() && x in m.order
    ensures Within(x, m.order)
  {
    var i :| 0 <= i < |m.order| && m.order[i] == x;
    assert x.prev == Nth(m.order, i - 1) && x.next == Nth(m.order, i + 1);
  }

  /** The move of a node that has left goes ahead all the same. */
  method DoLateMove<K(==), V>(m: TTLMap<K, V>, pend: seq<Node?<K, V>>, t: nat, ghost st: State<K, V>,
                              ghost made: set<Node<K, V>>)
    requires Going(m, pend, made, st) && Late(st, Move(t))
    modifies m, made
    ensures !m.HeadStored() && !m.Valid()
  {
    assert pend[t] in made && Near(pend[t], made);
    assert forall i :: 0 <= i < |m.order| ==> m.order[i] in made;
    m.LateTouch(pend[t]);
    if m.Valid() { m.ValidHeadStored(); }
  }

  lemma TimelySnoc<K, V>(max: int, acts: seq<Act<K, V>>, j: nat)
    requires j < |acts|
    ensures After(max, acts[..j + 1]) == Next(After(max, acts[..j]), acts[j])
    ensures Timely(max, acts[..j + 1]) <==> Timely(max, acts[..j]) && !Late(After(max, acts[..j]), acts[j])
    ensures Timely(max, acts) ==> Timely(max, acts[..j + 1])
  {
    var a := acts[..j + 1];
    assert a[..j] == acts[..j] && a[j] == acts[j];
    forall i | 0 <= i <= j ensures a[..i] == acts[..i] && acts[..j][..i] == acts[..i] {}
  }

  /** The index does not hold the node any more. */
  predicate Gone<K(==), V>(m: TTLMap<K, V>, p: Node?<K, V>)
    reads m`items
  {
    p != null && !(p.key in m.items && m.items[p.key] == p)
  }

  lemma GoneIsLost<K, V>(m: TTLMap<K, V>, pend: seq<Node?<K, V>>, st: State<K, V>, t: nat)
    requires Agrees(m, pend, st) && t < |pend|
    ensures Gone(m, pend[t]) <==> st.tickets[t].Lost?
  {
    assert Matches(m.order, pend[t], st.tickets[t]);
    if pend[t] != null && pend[t].key in m.items { assert Listed(m.items, m.order, pend[t].key); }
  }

  /** One section, late or not. */
  method Round<K(==), V>(m: TTLMap<K, V>, pend: seq<Node?<K, V>>, a: Act<K, V>, ghost st: State<K, V>,
                         ghost made: set<Node<K, V>>)
    returns (late: bool, pend': seq<Node?<K, V>>, ghost made': set<Node<K, V>>)
    requires Going(m, pend, made, st) && Ends(st, a)
    modifies m, made
    ensures late <==> Late(st, a)
    ensures late ==> !m.HeadStored() && !m.Valid()
    ensures !late ==> Going(m, pend', made', Next(st, a))
    ensures fresh(made' - made)
  {
    late, pend', made' := false, pend, made;
    if a.Move? && a.t < |pend| {
      GoneIsLost(m, pend, st, a.t);
      late := Gone(m, pend[a.t]);
    }
    if late {
      DoLateMove(m, pend, a.t, st, made);
    } else {
      pend', made' := SectionClosed(m, pend, a, st, made);
    }
  }

  /** Any critical sections on a new map, in any order. The map stays whole, and is the recency sequence of
      its sections, exactly when no second half of a lookup comes after its key has left; the first one
      that does leaves a map that is not whole. */
  method Play<K(==), V>(max: int, acts: seq<Act<K, V>>) returns (m: TTLMap<K, V>, whole: bool)
    requires forall j :: 0 <= j < |acts| && Timely(max, acts[..j]) ==> Ends(After(max, acts[..j]), acts[j])
    ensures whole <==> Timely(max, acts)
    ensures whole ==> m.Valid() && m.Entries() == After(max, acts).s && m.maxSize == After(max, acts).max
    ensures !whole ==> !m.HeadStored() && !m.Valid()
  {
    m := new TTLMap(max, 0);
    var pend: seq<Node?<K, V>>, late := [], false;
    ghost var made: set<Node<K, V>> := {};
    for j := 0 to |acts|
      invariant fresh(m) && fresh(made) && Going(m, pend, made, After(max, acts[..j]))
      invariant Timely(max, acts[..j])
    {
      TimelySnoc(max, acts, j);
      late, pend, made := Round(m, pend, acts[j], After(max, acts[..j]), made);
      if late { return m, false; }
    }
    assert acts[..|acts|] == acts;
    return m, true;
  }

  /** What one section does to a ticket. */
  lemma TicketNext<K, V>(st: State<K, V>, a: Act<K, V>, t: nat, k: K)
    requires t < |st.tickets| && (st.tickets[t] == Lost || (st.tickets[t] == Live(k) && HasKey(st.s, k)))
    ensures t < |Next(st, a).tickets|
    ensures Next(st, a).tickets[t] ==
            if st.tickets[t] == Live(k) && HasKey(Next(st, a).s, k) then Live(k) else Lost
  {
  }

  ghost predicate Run<K, V>(states: seq<State<K, V>>, acts: seq<Act<K, V>>) {
    |states| == |acts| + 1 && forall l :: 0 <= l < |acts| ==> Follow(states[l], acts[l], states[l + 1])
  }

  ghost predicate Follow<K, V>(st: State<K, V>, a: Act<K, V>, st': State<K, V>) {
    st' == Next(st, a)
  }

  ghost predicate StoredThrough<K, V>(states: seq<State<K, V>>, i: nat, j: nat, k: K)
    requires j < |states|
  {
    forall l :: i <= l <= j ==> HasKey(states[l].s, k)
  }

  /** A ticket is lost exactly when its key was missing at some moment since the first half found it. */
  lemma {:induction false} LostIff<K, V>(states: seq<State<K, V>>, acts: seq<Act<K, V>>, i: nat, k: K, j: nat)
    requires Run(states, acts) && i < j <= |acts| && acts[i] == Peek(k) && HasKey(states[i].s, k)
    ensures var t, ts := |states[i].tickets|, states[j].tickets;
            t < |ts| && (ts[t] == if StoredThrough(states, i, j, k) then Live(k) else Lost)
  {
    assert Follow(states[j - 1], acts[j - 1], states[j]);
    if j > i + 1 {
      LostIff(states, acts, i, k, j - 1);
      TicketNext(states[j - 1], acts[j - 1], |states[i].tickets|, k);
    }
  }

  lemma AfterRuns<K, V>(max: int, acts: seq<Act<K, V>>)
    ensures Run(seq(|acts| + 1, l requires 0 <= l <= |acts| => After(max, acts[..l])), acts)
  {
    forall l | 0 <= l < |acts| ensures After(max, acts[..l + 1]) == Next(After(max, acts[..l]), acts[l]) {
      TimelySnoc(max, acts, l);
    }
  }

  /** So the second half of a lookup is late exactly when its key was missing at some moment in between. */
  lemma LateIff<K, V>(max: int, acts: seq<Act<K, V>>, i: nat, k: K, j: nat)
    requires i < j < |acts| && acts[i] == Peek(k) && HasKey(After(max, acts[..i]).s, k)
    requires acts[j] == Move(|After(max, acts[..i]).tickets|)
    ensures Late(After(max, acts[..j]), acts[j]) <==>
            exists l :: i <= l <= j && !HasKey(After(max, acts[..l]).s, k)
  {
    var states := seq(|acts| + 1, l requires 0 <= l <= |acts| => After(max, acts[..l]));
    AfterRuns(max, acts);
    LostIff(states, acts, i, k, j);
    assert forall l :: 0 <= l <= |acts| ==> states[l] == After(max, acts[..l]);
  }

  // ---- a loop that never ends -------------------------------------------------------------------

  method OneStored<K(==), V>(a: K, v: V, max: int) returns (m: TTLMap<K, V>, n: Node<K, V>)
    requires max >= 1
    ensures fresh(m) && fresh(n) && m.Valid() && m.maxSize == max && m.order == [n]
    ensures m.Entries() == [Entry(a, v, 0)]
  {
    m := new TTLMap(max, 0);
    assert m.order == [] by { assert |m.Entries()| == 0; }
    var _ := m.Set(a, v, 0, 0, 0);
    OnlyNode(m, a);
    n := m.items[a];
  }

  method TwoStored<K(==), V>(a: K, b: K, v: V) returns (m: TTLMap<K, V>, n: Node<K, V>, p: Node<K, V>)
    requires a != b
    ensures fresh(m) && fresh(n) && fresh(p) && m.Valid() && m.maxSize == 2 && m.order == [p, n]
    ensures m.Entries() == [Entry(b, v, 0), Entry(a, v, 0)]
  {
    m, n := OneStored(a, v, 2);
    NodeNamed(m, 0);
    KeyIndexed(m.items, m.order, b);
    var _ := m.Set(b, v, 0, 0, 0);
    assert m.Entries() == [Entry(b, v, 0), Entry(a, v, 0)];
    NodeNamed(m, 0);
    NodeNamed(m, 1);
    p := m.items[b];
    assert m.order[1] in m.order && m.order[1].key != p.key;
  }

  /** The second of two nodes goes, and points at the first from outside. */
  method SecondDeleted<K(==), V>(m: TTLMap<K, V>, a: K, b: K, v: V, n: Node<K, V>, p: Node<K, V>)
    requires a != b && m.Valid() && m.Entries() == [Entry(b, v, 0), Entry(a, v, 0)] && m.order == [p, n]
    modifies m, n, p
    ensures m.Valid() && m.order == [p] && m.maxSize == old(m.maxSize) && m.Entries() == [Entry(b, v, 0)]
    ensures n != p && n.prev == p && n.next == null
  {
    NodeNamed(m, 1);
    assert m.order[1].prev == Nth(m.order, 0) && m.order[1].next == Nth(m.order, 2);
    var _ := m.Delete(a, 0, 0);
    NodeNamed(m, 0);
    assert m.order[0] in [p, n];
  }

  method OnlyDeleted<K(==), V>(m: TTLMap<K, V>, b: K, v: V, p: Node<K, V>)
    requires m.Valid() && m.Entries() == [Entry(b, v, 0)] && m.order == [p]
    modifies m, p`prev, p`next
    ensures m.Valid() && m.order == [] && m.items == map[] && m.maxSize == old(m.maxSize)
    ensures p.key == b && p.prev == null && p.next == null
  {
    NodeNamed(m, 0);
    OnlyNode(m, b);
    var _ := m.Delete(b, 0, 0);
    assert |m.Entries()| == 0;
  }

  /** Two keys stored, the first looked up, both deleted in the gap, a third stored, and the lookup goes
      on: the list now ends with a node that has left, though the map holds a key and has room. */
  method LateMoveAfterDeletes<K(==), V>(a: K, b: K, c: K, v: V)
    returns (m: TTLMap<K, V>, n: Node<K, V>, p: Node<K, V>)
    requires a != b && b != c
    ensures fresh(m) && fresh(n) && fresh(p) && n != p && p.key == b
    ensures m.maxSize == 2 && m.items.Keys == {c} && m.head == n && m.tail == p && p.prev == null && p.next == null
  {
    m, n, p := TwoStored(a, b, v);
    SecondDeleted(m, a, b, v, n, p);
    OnlyDeleted(m, b, v, p);
    ThirdStored(m, c, v);
    Resumed(m, n, p);
  }

  /** The links of a node that left as the last one, with p before it, are rewritten. */
  method Resumed<K(==), V>(m: TTLMap<K, V>, n: Node<K, V>, p: Node<K, V>)
    requires n != p && n.prev == p && n.next == null && p.prev == null
    requires m.head != null && m.head != n && m.head != p
    modifies m`head, m`tail, n`prev, n`next, p`next, m.head`prev
    ensures m.head == n && m.tail == p && p.prev == null && p.next == null
  {
    m.Unhook(n);
    m.Hook(n);
  }

  method ThirdStored<K(==), V>(m: TTLMap<K, V>, c: K, v: V)
    requires m.Valid() && m.order == [] && m.items == map[] && m.maxSize == 2
    modifies m
    ensures m.maxSize == 2 && m.items.Keys == {c} && m.tail != null && m.head == m.tail && fresh(m.head)
  {
    var _ := m.Set(c, v, 0, 0, 0);
    OnlyNode(m, c);
    forall k | k in m.items ensures k == c {
      assert Listed(m.items, m.order, k) && Listed(m.items, m.order, c);
    }
  }

  lemma NodeNamed<K, V>(m: TTLMap<K, V>, i: nat)
    requires m.Valid() && i < |m.order|
    ensures m.order[i].key == m.Entries()[i].key && m.order[i].key in m.items && m.items[m.order[i].key] == m.order[i]
  {
    EntryAt(m.order, i);
  }

  /** A fourth key is stored and a fifth one is on its way, with its eviction loop cut off after any number
      of rounds: the map of size 2 still holds two keys, and its list is empty. */
  method EvictionStuck<K(==), V>(a: K, b: K, c: K, d: K, v: V, rounds: nat) returns (m: TTLMap<K, V>, done: bool)
    requires a != b && b != c && b != d && c != d
    ensures m.maxSize == 2 && m.items.Keys == {c, d} && !done && (done <==> |m.items| < m.maxSize)
    ensures rounds > 0 ==> m.head == null && m.tail == null
  {
    var n, p;
    m, n, p := LateMoveAfterDeletes(a, b, c, v);
    var y := new Node(d, v, 0);
    m.items := m.items[d := y];
    m.Hook(y);
    assert m.items.Keys == {c, d};
    var i := 0;
    while i < rounds && |m.items| >= m.maxSize
      invariant i <= rounds && fresh(m) && m.maxSize == 2 && m.items.Keys == {c, d}
      invariant if i == 0 then m.tail == p && p.prev == null && p.next == null else m.head == null && m.tail == null
    {
      m.RemoveTail();
      i := i + 1;
    }
    done := |m.items| < m.maxSize;
  }
}
