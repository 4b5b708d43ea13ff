/** The resolver list that moves the last one that answered to the front, with the gap between
    the read-locked scan and the write-locked move. */
module LastActive {
  import opened Basics
  import RL = RingList

  type Resolver = nat

  /** One registered resolver: the list element it lives in, its tag, and what it resolves with. */
  datatype Entry<T> = Entry(id: T, tag: string, res: Resolver)

  // ---- the operations on sequences ----------------------------------------------------

  predicate HasTag<T>(s: seq<Entry<T>>, tag: string) {
    exists i :: 0 <= i < |s| && s[i].tag == tag
  }

  function Replaced<T>(s: seq<Entry<T>>, tag: string, res: Resolver): seq<Entry<T>> {
    if s == [] then []
    else if s[0].tag == tag then [s[0].(res := res)] + s[1..]
    else [s[0]] + Replaced(s[1..], tag, res)
  }

  function Added<T>(s: seq<Entry<T>>, id: T, tag: string, res: Resolver, replace: bool): seq<Entry<T>> {
    if !HasTag(s, tag) then s + [Entry(id, tag, res)]
    else if replace then Replaced(s, tag, res)
    else s
  }

  function Dropped<T>(s: seq<Entry<T>>, tag: string): seq<Entry<T>> {
    if s == [] then [] else if s[0].tag == tag then s[1..] else [s[0]] + Dropped(s[1..], tag)
  }

  predicate HasId<T(==)>(s: seq<Entry<T>>, id: T) {
    exists i :: 0 <= i < |s| && s[i].id == id
  }

  function WithoutId<T(==)>(s: seq<Entry<T>>, id: T): seq<Entry<T>> {
    if s == [] then [] else if s[0].id == id then s[1..] else [s[0]] + WithoutId(s[1..], id)
  }

  function EntryOf<T(==)>(s: seq<Entry<T>>, id: T): Entry<T>
    requires HasId(s, id)
  {
    if s[0].id == id then s[0] else EntryOf(s[1..], id)
  }

  /** MoveToFront: nothing happens to an element that is no longer in the list. */
  function Promoted<T(==)>(s: seq<Entry<T>>, id: T): seq<Entry<T>> {
    if HasId(s, id) then [EntryOf(s, id)] + WithoutId(s, id) else s
  }

  ghost predicate Unique<T>(s: seq<Entry<T>>) {
    && (forall i, j :: 0 <= i < j < |s| ==> s[i].tag != s[j].tag)
    && (forall i, j :: 0 <= i < j < |s| ==> s[i].id != s[j].id)
  }

  function Ids<T>(s: seq<Entry<T>>): seq<T> {
    seq(|s|, i requires 0 <= i < |s| => s[i].id)
  }

  lemma UpdateTail<T>(s: seq<T>, k: nat, x: T)
    requires 0 < k < |s|
    ensures s[k := x] == [s[0]] + s[1..][k - 1 := x]
  {
  }

  lemma {:induction false} ReplacedAt<T>(s: seq<Entry<T>>, k: nat, res: Resolver)
    requires Unique(s) && k < |s|
    ensures Replaced(s, s[k].tag, res) == s[k := s[k].(res := res)]
  {
    if k > 0 {
      assert s[0].tag != s[k].tag;
      ReplacedAt(s[1..], k - 1, res);
      UpdateTail(s, k, s[k].(res := res));
    }
  }

  lemma {:induction false} DroppedAt<T>(s: seq<Entry<T>>, k: nat)
    requires Unique(s) && k < |s|
    ensures Dropped(s, s[k].tag) == Cut(s, k)
  {
    if k > 0 {
      assert s[0].tag != s[k].tag;
      DroppedAt(s[1..], k - 1);
      CutTail(s, k);
    }
  }

  lemma {:induction false} WithoutIdAt<T>(s: seq<Entry<T>>, k: nat)
    requires Unique(s) && k < |s|
    ensures WithoutId(s, s[k].id) == Cut(s, k)
  {
    if k > 0 {
      assert s[0].id != s[k].id;
      WithoutIdAt(s[1..], k - 1);
      CutTail(s, k);
    }
  }

  lemma {:induction false} EntryOfAt<T>(s: seq<Entry<T>>, k: nat)
    requires Unique(s) && k < |s|
    ensures HasId(s, s[k].id) && EntryOf(s, s[k].id) == s[k]
  {
    if k > 0 {
      assert s[0].id != s[k].id;
      EntryOfAt(s[1..], k - 1);
    }
  }

  lemma PromotedAt<T>(s: seq<Entry<T>>, k: nat)
    requires Unique(s) && k < |s|
    ensures Promoted(s, s[k].id) == [s[k]] + Cut(s, k)
  {
    EntryOfAt(s, k);
    WithoutIdAt(s, k);
  }

  lemma AppendUnique<T>(s: seq<Entry<T>>, x: Entry<T>)
    requires Unique(s) && !HasId(s, x.id) && !HasTag(s, x.tag)
    ensures Unique(s + [x])
  {
  }

  lemma UpdatedUnique<T>(s: seq<Entry<T>>, k: nat, res: Resolver)
    requires Unique(s) && k < |s|
    ensures Unique(s[k := s[k].(res := res)])
    ensures forall x :: HasId(s[k := s[k].(res := res)], x) ==> HasId(s, x)
  {
    var r := s[k := s[k].(res := res)];
    assert forall i :: 0 <= i < |s| ==> r[i].id == s[i].id && r[i].tag == s[i].tag;
  }

  lemma AppendedIds<T>(s: seq<Entry<T>>, e: Entry<T>, x: T)
    ensures HasId(s + [e], x) ==> HasId(s, x) || x == e.id
  {
    if HasId(s + [e], x) {
      var i :| 0 <= i < |s| + 1 && (s + [e])[i].id == x;
      if i < |s| { assert s[i].id == x; }
    }
  }

  lemma AddedUnique<T>(s: seq<Entry<T>>, id: T, tag: string, res: Resolver, replace: bool)
    requires Unique(s) && !HasId(s, id)
    ensures Unique(Added(s, id, tag, res, replace))
    ensures forall x :: HasId(Added(s, id, tag, res, replace), x) ==> HasId(s, x) || (x == id && !HasTag(s, tag))
  {
    if HasTag(s, tag) {
      var k :| 0 <= k < |s| && s[k].tag == tag;
      ReplacedAt(s, k, res);
      UpdatedUnique(s, k, res);
    } else {
      AppendUnique(s, Entry(id, tag, res));
      forall x ensures HasId(s + [Entry(id, tag, res)], x) ==> HasId(s, x) || x == id {
        AppendedIds(s, Entry(id, tag, res), x);
      }
    }
  }

  lemma CutUnique<T>(s: seq<Entry<T>>, k: nat)
    requires Unique(s) && k < |s|
    ensures Unique(Cut(s, k)) && !HasTag(Cut(s, k), s[k].tag) && !HasId(Cut(s, k), s[k].id)
    ensures forall id :: HasId(Cut(s, k), id) ==> HasId(s, id)
  {
  }

  lemma DroppedUnique<T>(s: seq<Entry<T>>, tag: string)
    requires Unique(s)
    ensures Unique(Dropped(s, tag)) && !HasTag(Dropped(s, tag), tag)
    ensures forall id :: HasId(Dropped(s, tag), id) ==> HasId(s, id)
  {
    if HasTag(s, tag) {
      var k :| 0 <= k < |s| && s[k].tag == tag;
      DroppedAt(s, k);
      CutUnique(s, k);
    } else {
      DroppedAbsent(s, tag);
    }
  }

  lemma {:induction false} DroppedAbsent<T>(s: seq<Entry<T>>, tag: string)
    requires !HasTag(s, tag)
    ensures Dropped(s, tag) == s
  {
    if s != [] {
      assert s[0].tag != tag;
      forall i | 0 <= i < |s| - 1 ensures s[1..][i].tag != tag { assert s[1..][i] == s[i + 1]; }
      DroppedAbsent(s[1..], tag);
    }
  }

  lemma FrontedUnique<T>(s: seq<Entry<T>>, k: nat)
    requires Unique(s) && k < |s|
    ensures Unique([s[k]] + Cut(s, k))
    ensures forall id :: HasId([s[k]] + Cut(s, k), id) <==> HasId(s, id)
  {
    var r := [s[k]] + Cut(s, k);
    CutUnique(s, k);
    assert forall i :: 1 <= i < |r| ==> r[i] == Cut(s, k)[i - 1];
    forall id | HasId(s, id) ensures HasId(r, id) {
      var i :| 0 <= i < |s| && s[i].id == id;
      assert r[if i == k then 0 else if i < k then i + 1 else i].id == id;
    }
  }

  lemma PromotedUnique<T>(s: seq<Entry<T>>, id: T)
    requires Unique(s)
    ensures Unique(Promoted(s, id))
    ensures forall x :: HasId(Promoted(s, id), x) <==> HasId(s, x)
  {
    if HasId(s, id) {
      var k :| 0 <= k < |s| && s[k].id == id;
      PromotedAt(s, k);
      FrontedUnique(s, k);
    }
  }

  // ---- the object -----------------------------------------------------------------------

  class Entity {
    const tag: string
    var resolver: Resolver

    constructor (tag: string, resolver: Resolver)
      ensures this.tag == tag && this.resolver == resolver
    {
      this.tag, this.resolver := tag, resolver;
    }
  }

  class LastActiveResolver {
    const entities: RL.List<Entity?>
    /** The registered entities. */
    ghost var objs: set<Entity>

    ghost predicate Shaped()
      reads this, entities, entities.root, entities.elems, entities.known
    {
      && entities.Valid()
      && forall i :: 0 <= i < |entities.elems| ==> entities.elems[i].Value != null && entities.elems[i].Value in objs
    }

    ghost function Entries(): (s: seq<Entry<RL.Element<Entity?>>>)
      requires Shaped()
      reads this, entities, entities.root, entities.elems, entities.known, objs
      ensures |s| == |entities.elems|
      ensures forall i :: 0 <= i < |s| ==> var x := entities.elems[i]; s[i] == Entry(x, x.Value.tag, x.Value.resolver)
    {
      seq(|entities.elems|, i requires 0 <= i < |entities.elems| && Shaped()
            reads this, entities, entities.root, entities.elems, entities.known, objs =>
            Entry(entities.elems[i], entities.elems[i].Value.tag, entities.elems[i].Value.resolver))
    }

    ghost predicate Valid()
      reads this, entities, entities.root, entities.elems, entities.known, objs
    {
      Shaped() && Unique(Entries())
    }

    constructor ()
      ensures Valid() && Entries() == [] && fresh(entities) && fresh(entities.root) && entities.known == {}
    {
      entities := new RL.List<Entity?>();
      objs := {};
    }

    /** The walk of add and Unset: the element carrying the tag, if any. */
    method FindTag(tag: string) returns (e: RL.Element?<Entity?>, ghost k: nat)
      requires Valid()
      ensures e == null <==> !HasTag(Entries(), tag)
      ensures e != null ==> k < |Entries()| && entities.elems[k] == e && Entries()[k].tag == tag
    {
      e := entities.Front();
      k := 0;
      while e != null
        invariant if e == null then k == |entities.elems| else k < |entities.elems| && e == entities.elems[k]
        invariant forall i :: 0 <= i < k ==> Entries()[i].tag != tag
        decreases |entities.elems| - k
      {
        if e.Value.tag == tag { return; }
        e := entities.NextOf(e, k);
        k := k + 1;
      }
    }

    /** The entity found gets another resolver, in place. */
    method Overwrite(e: RL.Element<Entity?>, ghost k: nat, resolver: Resolver)
      requires Valid() && k < |entities.elems| && entities.elems[k] == e
      modifies objs
      ensures Valid() && Entries() == old(Entries())[k := old(Entries())[k].(res := resolver)]
    {
      ghost var s := Entries();
      e.Value.resolver := resolver;
      assert forall i :: 0 <= i < |s| && i != k ==> Entries()[i] == s[i];
      assert Entries() == s[k := s[k].(res := resolver)];
    }

    method Register(tag: string, resolver: Resolver) returns (ghost id: RL.Element<Entity?>)
      requires Valid() && !HasTag(Entries(), tag)
      modifies this, entities, entities.root, entities.elems
      ensures Valid() && entities.known == old(entities.known) + {id} && fresh(objs - old(objs)) && fresh(id)
      ensures Entries() == old(Entries()) + [Entry(id, tag, resolver)]
    {
      ghost var s := Entries();
      var obj := new Entity(tag, resolver);
      id := entities.PushBack(obj);
      objs := objs + {obj};
      forall i | 0 <= i < |s| ensures Entries()[i] == s[i] && s[i].id != id {
        assert entities.elems[i] == old(entities.elems)[i];
      }
      AppendUnique(s, Entry(id, tag, resolver));
      assert Entries() == s + [Entry(id, tag, resolver)];
    }

    method Add(tag: string, resolver: Resolver, replace: bool) returns (ok: bool, ghost id: RL.Element<Entity?>)
      requires Valid()
      modifies this, entities, entities.root, entities.elems, objs
      ensures Valid() && entities.known >= old(entities.known) && fresh(objs - old(objs))
      ensures ok <==> replace || !HasTag(old(Entries()), tag)
      ensures Entries() == Added(old(Entries()), id, tag, resolver, replace)
      ensures !HasTag(old(Entries()), tag) ==> fresh(id)
    {
      var e, k := FindTag(tag);
      id := entities.root;
      ok := true;
      if e != null {
        ReplacedAt(Entries(), k, resolver);
        if replace { Overwrite(e, k, resolver); } else { ok := false; }
      } else {
        id := Register(tag, resolver);
      }
    }

    method Drop(e: RL.Element<Entity?>, ghost k: nat)
      requires Valid() && k < |entities.elems| && entities.elems[k] == e
      modifies entities, entities.root, entities.elems
      ensures Valid() && entities.known == old(entities.known) && Entries() == Cut(old(Entries()), k)
    {
      ghost var s := Entries();
      assert entities.elems == Ids(s);
      assert RL.Without(entities.elems, e) == Cut(Ids(s), k) by { RL.WithoutAt(entities.elems, k); }
      var _ := entities.Remove(e);
      forall i | 0 <= i < |s| ensures Faithful(s[i]) { assert s[i].id == old(entities.elems)[i]; }
      AfterRemoval(s, k);
    }

    method Unset(tag: string) returns (ok: bool)
      requires Valid()
      modifies entities, entities.root, entities.elems
      ensures Valid() && entities.known == old(entities.known)
      ensures ok <==> HasTag(old(Entries()), tag)
      ensures Entries() == Dropped(old(Entries()), tag)
    {
      var e, k := FindTag(tag);
      ok := e != null;
      if e != null {
        DroppedAt(Entries(), k);
        Drop(e, k);
      } else {
        DroppedAbsent(Entries(), tag);
      }
    }

    ghost predicate Faithful(x: Entry<RL.Element<Entity?>>)
      reads this, x.id, objs
    {
      x.id.Value != null && x.id.Value in objs && x.tag == x.id.Value.tag && x.res == x.id.Value.resolver
    }

    /** Entries, once the list holds the elements of r in that order. */
    lemma Rearranged(r: seq<Entry<RL.Element<Entity?>>>)
      requires entities.Valid() && |entities.elems| == |r| && Unique(r)
      requires forall i :: 0 <= i < |r| ==> entities.elems[i] == r[i].id && Faithful(r[i])
      ensures Valid() && Entries() == r
    {
      assert Shaped();
      assert Entries() == r;
    }

    lemma AfterRemoval(s: seq<Entry<RL.Element<Entity?>>>, k: nat)
      requires entities.Valid() && Unique(s) && k < |s| && (forall i :: 0 <= i < |s| ==> Faithful(s[i]))
      requires entities.elems == Cut(Ids(s), k)
      ensures Valid() && Entries() == Cut(s, k)
    {
      CutUnique(s, k);
      assert forall i :: 0 <= i < |s| - 1 ==> entities.elems[i] == Ids(s)[if i < k then i else i + 1];
      Rearranged(Cut(s, k));
    }

    lemma AfterMove(s: seq<Entry<RL.Element<Entity?>>>, k: nat)
      requires entities.Valid() && Unique(s) && k < |s| && (forall i :: 0 <= i < |s| ==> Faithful(s[i]))
      requires entities.elems == [s[k].id] + Cut(Ids(s), k)
      ensures Valid() && Entries() == [s[k]] + Cut(s, k)
    {
      FrontedUnique(s, k);
      var r := [s[k]] + Cut(s, k);
      assert forall i :: 0 <= i < |s| - 1 ==> Cut(Ids(s), k)[i] == Ids(s)[if i < k then i else i + 1];
      forall i | 0 <= i < |r| ensures entities.elems[i] == r[i].id && Faithful(r[i]) {
        if i > 0 { assert r[i] == Cut(s, k)[i - 1]; }
      }
      Rearranged(r);
    }

    /** The read-locked scan: the first element whose resolver answers. */
    method Scan(good: Resolver -> bool) returns (e: RL.Element?<Entity?>, ghost k: nat)
      requires Valid()
      ensures e == null ==> forall i :: 0 <= i < |Entries()| ==> !good(Entries()[i].res)
      ensures e != null ==> && k < |Entries()| && Entries()[k].id == e && good(Entries()[k].res) && e in entities.known
                            && forall i :: 0 <= i < k ==> !good(Entries()[i].res)
    {
      e := entities.Front();
      k := 0;
      while e != null
        invariant if e == null then k == |entities.elems| else k < |entities.elems| && e == entities.elems[k]
        invariant forall i :: 0 <= i < k ==> !good(Entries()[i].res)
        decreases |entities.elems| - k
      {
        assert Entries()[k].id == e && Entries()[k].res == e.Value.resolver;
        if good(e.Value.resolver) { return; }
        e := entities.NextOf(e, k);
        k := k + 1;
      }
    }

    /** The write-locked half of Lookup. `e` came out of a scan at any earlier moment: all that is
        left of that is that it was once inserted here. */
    method MoveStep(e: RL.Element<Entity?>)
      requires Valid() && e in entities.known
      modifies entities, entities.root, entities.elems
      ensures Valid() && entities.known == old(entities.known)
      ensures Entries() == Promoted(old(Entries()), e)
    {
      ghost var s := Entries();
      if e.list == entities {
        ghost var k := entities.Position(e);
        assert entities.elems == Ids(s);
        assert RL.Without(entities.elems, e) == Cut(Ids(s), k) by { RL.WithoutAt(entities.elems, k); }
        entities.MoveToFront(e);
        forall i | 0 <= i < |s| ensures Faithful(s[i]) { assert s[i].id == old(entities.elems)[i]; }
        AfterMove(s, k);
        PromotedAt(s, k);
      } else {
        entities.MoveToFront(e);
        Rearranged(s);
        assert !HasId(s, e);
      }
    }
  }

  // ---- every interleaving of calls ---------------------------------------------------------

  type Tid = nat

  datatype Call =
    | CallAdd(tag: string, res: Resolver, replace: bool)
    | CallUnset(tag: string)
    | CallScan(t: Tid, k: nat)      // a lookup found the k-th entry and released the read lock
    | CallMove(t: Tid)              // the same lookup, later, with the write lock

  /** `used` counts the elements ever inserted; `pending` are lookups inside their lock gap. */
  datatype State = State(order: seq<Entry<nat>>, used: nat, pending: map<Tid, nat>)

  function Step(s: State, c: Call): State {
    match c
    case CallAdd(tag, res, replace) =>
      State(Added(s.order, s.used, tag, res, replace), if HasTag(s.order, tag) then s.used else s.used + 1, s.pending)
    case CallUnset(tag) => s.(order := Dropped(s.order, tag))
    case CallScan(t, k) => if k < |s.order| && t !in s.pending then s.(pending := s.pending[t := s.order[k].id]) else s
    case CallMove(t) =>
      if t in s.pending then State(Promoted(s.order, s.pending[t]), s.used, s.pending - {t}) else s
  }

  function Exec(run: seq<Call>): State {
    if run == [] then State([], 0, map[]) else Step(Exec(run[..|run| - 1]), run[|run| - 1])
  }

  ghost predicate Sound(s: State) {
    && Unique(s.order)
    && (forall i :: 0 <= i < |s.order| ==> s.order[i].id < s.used)
    && (forall t :: t in s.pending ==> s.pending[t] < s.used)
  }

  lemma StepSound(s: State, c: Call)
    requires Sound(s)
    ensures Sound(Step(s, c))
    ensures forall id: nat :: id < s.used && !HasId(s.order, id) ==> !HasId(Step(s, c).order, id)
  {
    match c
    case CallAdd(tag, res, replace) =>
      assert !HasId(s.order, s.used);
      AddedUnique(s.order, s.used, tag, res, replace);
      var o := Added(s.order, s.used, tag, res, replace);
      forall i | 0 <= i < |o| ensures o[i].id < Step(s, c).used {
        assert HasId(o, o[i].id);
      }
    case CallUnset(tag) =>
      DroppedUnique(s.order, tag);
      forall i | 0 <= i < |Dropped(s.order, tag)| ensures Dropped(s.order, tag)[i].id < s.used {
        assert HasId(Dropped(s.order, tag), Dropped(s.order, tag)[i].id);
      }
    case CallScan(t, k) =>
    case CallMove(t) =>
      if t in s.pending {
        var o := Promoted(s.order, s.pending[t]);
        PromotedUnique(s.order, s.pending[t]);
        forall i | 0 <= i < |o| ensures o[i].id < s.used { assert HasId(o, o[i].id); }
      }
  }

  /** What each call does to the list, entry by entry. A new tag is registered at the end; a known one keeps its
      place and gets the new resolver exactly when that is asked for. A removed tag leaves its place. A scan
      remembers the entry it found, and the move that follows brings that entry to the front if it is still there. */
  lemma CallEffects(s: State, c: Call, k: nat)
    requires Sound(s) && k < |s.order|
    ensures c.CallAdd? && s.order[k].tag == c.tag ==>
              Step(s, c).order == if c.replace then s.order[k := s.order[k].(res := c.res)] else s.order
    ensures c.CallUnset? && s.order[k].tag == c.tag ==> Step(s, c).order == s.order[..k] + s.order[k + 1..]
    ensures c.CallScan? && c.k == k && c.t !in s.pending ==>
              Step(s, c) == s.(pending := s.pending[c.t := s.order[k].id])
    ensures c.CallMove? && c.t in s.pending && s.pending[c.t] == s.order[k].id ==>
              Step(s, c).order == [s.order[k]] + s.order[..k] + s.order[k + 1..]
  {
    match c
    case CallAdd(tag, res, _) => if s.order[k].tag == tag { ReplacedAt(s.order, k, res); }
    case CallUnset(tag) => if s.order[k].tag == tag { DroppedAt(s.order, k); }
    case CallMove(t) =>
      if t in s.pending && s.pending[t] == s.order[k].id {
        PromotedAt(s.order, k);
        assert [s.order[k]] + Cut(s.order, k) == [s.order[k]] + s.order[..k] + s.order[k + 1..];
      }
    case CallScan(_, _) =>
  }

  lemma CallOnAbsent(s: State, c: Call)
    requires Sound(s)
    ensures c.CallAdd? && (forall i :: 0 <= i < |s.order| ==> s.order[i].tag != c.tag) ==>
              Step(s, c).order == s.order + [Entry(s.used, c.tag, c.res)]
    ensures c.CallUnset? && (forall i :: 0 <= i < |s.order| ==> s.order[i].tag != c.tag) ==>
              Step(s, c).order == s.order
    ensures c.CallMove? && c.t in s.pending && (forall i :: 0 <= i < |s.order| ==> s.order[i].id != s.pending[c.t]) ==>
              Step(s, c).order == s.order
  {
    if c.CallUnset? && !HasTag(s.order, c.tag) { DroppedAbsent(s.order, c.tag); }
  }

  /** In every interleaving tags stay unique, and an entry that has left never comes back: not even
      through a move that was pending when it left. */
  lemma {:induction false} NoResurrection(run: seq<Call>, id: nat, more: seq<Call>)
    requires id < Exec(run).used && !HasId(Exec(run).order, id)
    ensures Sound(Exec(run + more)) && !HasId(Exec(run + more).order, id)
    ensures id < Exec(run + more).used
    decreases |more|
  {
    if more == [] {
      AlwaysSound(run);
      assert run + more == run;
    } else {
      var prior := more[..|more| - 1];
      NoResurrection(run, id, prior);
      assert (run + more)[..|run + more| - 1] == run + prior;
      StepSound(Exec(run + prior), more[|more| - 1]);
    }
  }

  lemma {:induction false} AlwaysSound(run: seq<Call>)
    ensures Sound(Exec(run))
  {
    if run != [] {
      AlwaysSound(run[..|run| - 1]);
      StepSound(Exec(run[..|run| - 1]), run[|run| - 1]);
    }
  }
}
