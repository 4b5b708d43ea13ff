/** The table of domain nodes: rows keyed by parent id and label, top-level labels under parent 0. */
module DomainTable {
  import opened Basics

  datatype Row = Row(id: nat, category: Option<string>)
  datatype Slot = Slot(parent: nat, name: string)
  type Rows = map<Slot, Row>
  /** The rows, and the largest id in use. */
  datatype Table = Table(rows: Rows, last: nat)

  const EMPTY := Table(map[], 0)

  /** A node is a sequence of labels, its own first and the top-level one last. */
  type Path = seq<string>

  function Id(t: Table, p: Path): Option<nat> {
    if p == [] then Some(0)
    else
      match Id(t, p[1..])
      case None => None
      case Some(parent) => if Slot(parent, p[0]) in t.rows then Some(t.rows[Slot(parent, p[0])].id) else None
  }

  /** The category text of a stored node. */
  function View(t: Table, p: Path): Option<Option<string>> {
    if p == [] then None
    else
      match Id(t, p[1..])
      case None => None
      case Some(parent) => if Slot(parent, p[0]) in t.rows then Some(t.rows[Slot(parent, p[0])].category) else None
  }

  ghost predicate Sound(t: Table) {
    && (forall k <- t.rows :: 1 <= t.rows[k].id <= t.last && k.parent <= t.last)
    && (forall j, k | j in t.rows && k in t.rows :: t.rows[j].id == t.rows[k].id ==> j == k)
  }

  function Insert(t: Table, parent: nat, name: string, category: Option<string>): Table
    requires Slot(parent, name) !in t.rows
  {
    Table(t.rows[Slot(parent, name) := Row(t.last + 1, category)], t.last + 1)
  }

  /** Every row with the id gets the category. */
  function Recategorized(t: Table, id: nat, category: Option<string>): Table {
    Table(map k | k in t.rows :: if t.rows[k].id == id then Row(id, category) else t.rows[k], t.last)
  }

  function Affected(t: Table, id: nat): nat {
    |set k | k in t.rows && t.rows[k].id == id|
  }

  lemma {:induction false} IdFacts(t: Table, p: Path)
    requires Sound(t)
    ensures Id(t, p).Some? ==> Id(t, p).value <= t.last && (Id(t, p).value == 0 <==> p == [])
    ensures p != [] ==> (Id(t, p).Some? <==> View(t, p).Some?)
  {
  }

  lemma {:induction false} IdInjective(t: Table, p: Path, q: Path)
    requires Sound(t) && Id(t, p).Some? && Id(t, p) == Id(t, q)
    ensures p == q
  {
    IdFacts(t, p);
    IdFacts(t, q);
    if p != [] && q != [] {
      IdInjective(t, p[1..], q[1..]);
      assert p == [p[0]] + p[1..] && q == [q[0]] + q[1..];
    }
  }

  lemma InsertSound(t: Table, parent: nat, name: string, category: Option<string>)
    requires Sound(t) && Slot(parent, name) !in t.rows && parent <= t.last
    ensures Sound(Insert(t, parent, name, category))
  {
  }

  /** A new row adds one node, its own, and changes no other. */
  lemma {:induction false} InsertId(t: Table, p: Path, name: string, category: Option<string>, q: Path)
    requires Sound(t) && Id(t, p).Some? && Slot(Id(t, p).value, name) !in t.rows
    ensures var u := Insert(t, Id(t, p).value, name, category);
            Id(u, q) == if q == [name] + p then Some(t.last + 1) else Id(t, q)
  {
    var u := Insert(t, Id(t, p).value, name, category);
    IdFacts(t, p);
    if q != [] {
      InsertId(t, p, name, category, q[1..]);
      IdFacts(t, q[1..]);
      assert q == [q[0]] + q[1..];
      if q[1..] == [name] + p {
        assert ([name] + p)[1..] == p;
        assert q != [name] + p;
      } else if Id(t, q[1..]) == Id(t, p) {
        IdInjective(t, q[1..], p);
      }
    }
  }

  lemma InsertView(t: Table, p: Path, name: string, category: Option<string>, q: Path)
    requires Sound(t) && Id(t, p).Some? && Slot(Id(t, p).value, name) !in t.rows
    ensures var u := Insert(t, Id(t, p).value, name, category);
            View(u, q) == if q == [name] + p then Some(category) else View(t, q)
  {
    IdFacts(t, p);
    if q != [] {
      InsertId(t, p, name, category, q[1..]);
      IdFacts(t, q[1..]);
      assert q == [q[0]] + q[1..] && ([name] + p)[1..] == p;
      if q[1..] == [name] + p {
        assert q != [name] + p;
      } else if Id(t, q[1..]) == Id(t, p) {
        IdInjective(t, q[1..], p);
      }
    }
  }

  lemma {:induction false} RecatId(t: Table, id: nat, category: Option<string>, q: Path)
    ensures Id(Recategorized(t, id, category), q) == Id(t, q)
  {
    if q != [] { RecatId(t, id, category, q[1..]); }
  }

  /** Updating by id touches one row and changes the category of that one node. */
  lemma RecatView(t: Table, p: Path, category: Option<string>, q: Path)
    requires Sound(t) && p != [] && Id(t, p).Some?
    ensures var u := Recategorized(t, Id(t, p).value, category);
            && Sound(u) && u.rows.Keys == t.rows.Keys
            && View(u, q) == if q == p then Some(category) else View(t, q)
  {
    var u := Recategorized(t, Id(t, p).value, category);
    if q != [] {
      RecatId(t, Id(t, p).value, category, q[1..]);
      if Id(t, q) == Id(t, p) { IdInjective(t, q, p); }
    }
  }

  /** An update by the id of a stored row affects one row, and that id is not 0. */
  lemma AffectsOne(t: Table, slot: Slot)
    requires Sound(t) && slot in t.rows
    ensures t.rows[slot].id != 0 && Affected(t, t.rows[slot].id) == 1
  {
    assert (set k | k in t.rows && t.rows[k].id == t.rows[slot].id) == {slot};
  }

  // ---- growing a path ---------------------------------------------------------------

  ghost predicate Suffix(q: Path, d: Path) {
    q != [] && |q| <= |d| && d[|d| - |q|..] == q
  }

  lemma SuffixTail(q: Path, d: Path)
    requires d != []
    ensures Suffix(q, d) <==> q == d || Suffix(q, d[1..])
  {
    if |q| < |d| { assert d[|d| - |q|..] == d[1..][|d[1..]| - |q|..]; }
  }

  /** The node below r with the given label, added without category if it is missing. */
  function Added(t: Table, r: Path, name: string): Table {
    match Id(t, r)
    case None => t
    case Some(parent) => if Slot(parent, name) in t.rows then t else Insert(t, parent, name, None)
  }

  lemma AddedIs(t: Table, r: Path, name: string)
    requires Sound(t) && Id(t, r).Some?
    ensures Sound(Added(t, r, name)) && Id(Added(t, r, name), [name] + r).Some?
    ensures Id(Added(t, r, name), r) == Id(t, r)
  {
    IdFacts(t, r);
    assert ([name] + r)[1..] == r;
    if Slot(Id(t, r).value, name) !in t.rows {
      InsertSound(t, Id(t, r).value, name, None);
      InsertId(t, r, name, None, [name] + r);
      InsertId(t, r, name, None, r);
    }
  }

  lemma AddedView(t: Table, r: Path, name: string, q: Path)
    requires Sound(t) && Id(t, r).Some?
    ensures View(Added(t, r, name), q) == if View(t, q).None? && q == [name] + r then Some(None) else View(t, q)
  {
    assert ([name] + r)[1..] == r;
    if Slot(Id(t, r).value, name) !in t.rows {
      InsertView(t, r, name, None, q);
    }
  }

  /** The table with every missing node on the way down to p added, without category. */
  function Grown(t: Table, p: Path): (u: Table) {
    if p == [] then t else Added(Grown(t, p[1..]), p[1..], p[0])
  }

  lemma {:induction false} GrownIs(t: Table, p: Path)
    requires Sound(t)
    ensures Sound(Grown(t, p)) && Id(Grown(t, p), p).Some?
  {
    if p != [] {
      GrownIs(t, p[1..]);
      AddedIs(Grown(t, p[1..]), p[1..], p[0]);
      assert p == [p[0]] + p[1..];
    }
  }

  lemma {:induction false} GrownView(t: Table, p: Path, q: Path)
    requires Sound(t)
    ensures View(Grown(t, p), q) == if View(t, q).None? && Suffix(q, p) then Some(None) else View(t, q)
  {
    if p != [] {
      GrownIs(t, p[1..]);
      GrownView(t, p[1..], q);
      GrownViewStep(Grown(t, p[1..]), View(t, q), p[0], p[1..], q);
      assert p == [p[0]] + p[1..];
    }
  }

  lemma GrownViewStep(u: Table, before: Option<Option<string>>, name: string, r: Path, q: Path)
    requires Sound(u) && Id(u, r).Some?
    requires View(u, q) == if before.None? && Suffix(q, r) then Some(None) else before
    ensures View(Added(u, r, name), q) == if before.None? && Suffix(q, [name] + r) then Some(None) else before
  {
    SuffixCons(q, name, r);
    AddedView(u, r, name, q);
  }

  lemma SuffixCons(q: Path, name: string, r: Path)
    ensures Suffix(q, [name] + r) <==> q == [name] + r || Suffix(q, r)
  {
    SuffixTail(q, [name] + r);
    assert ([name] + r)[1..] == r;
  }
}
